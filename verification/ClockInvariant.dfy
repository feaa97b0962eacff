/** What every action of the CLOCK cache keeps. */
module ClockInvariant {
  import opened Basics
  import opened Sums
  import opened ClockModel

  predicate HolderOk(s: State, i: nat, h: Holder) {
    match h
    case Op(u) => u < |s.threads| && s.threads[u].claims.ref == Some(i)
    case Ext(g) => g in s.grants && s.grants[g].idx == i
  }

  /** A handle is in the bin, being filled by one thread, in use, or about to be recycled by one thread. */
  predicate OwnOk(s: State, i: nat)
    requires i < |s.handles|
  {
    var h := s.handles[i];
    match h.own
    case Live => h.flags.inCache || h.flags.refs > 0
    case Free => !h.flags.inCache && h.flags.refs == 0
    case Filling(u) => !h.flags.inCache && h.flags.refs == 0 && u < |s.threads|
        && s.threads[u].claims.filling == Some(i)
    case Dying(u) => !h.flags.inCache && h.flags.refs == 0 && u < |s.threads| && s.threads[u].claims.dying == Some(i)
  }

  ghost predicate HandleOk(s: State, i: nat)
    requires i < |s.handles|
  {
    && OwnOk(s, i)
    && s.handles[i].flags.refs == |s.handles[i].holders|
    && forall h :: h in s.handles[i].holders ==> HolderOk(s, i, h)
  }

  /** Every claim of a thread is met. */
  ghost predicate ThreadOk(s: State, t: Tid)
    requires t < |s.threads|
  {
    var c := s.threads[t].claims;
    && c.reach <= |s.handles|
    && (c.ref.Some? ==> c.ref.value < |s.handles| && Op(t) in s.handles[c.ref.value].holders)
    && (c.dying.Some? ==> c.dying.value < |s.handles| && s.handles[c.dying.value].own == Dying(t))
    && (c.filling.Some? ==> c.filling.value < |s.handles| && s.handles[c.filling.value].own == Filling(t))
    && (c.newest.Some? ==> c.inside && c.newest.value < |s.handles| && s.handles[c.newest.value].flags.inCache)
    && (c.inside <==> s.mutex == Some(t))
  }

  /** The claims are those of the program counter, and what that point of the code relies on holds. */
  ghost predicate PcOk(s: State, t: Tid)
    requires t < |s.threads|
  {
    var pc := s.threads[t].pc;
    && s.threads[t].claims == ClaimsOf(pc)
    && (pc.RefCas? ==> pc.seen.inCache)
    && (pc.PinAdd? ==> pc.i < |s.handles| && pc.charge == s.handles[pc.i].entry.Total())
    && (pc.Unset? ==> !pc.after.ThenEvict? && (pc.after.ThenClear? ==> pc.after.next == pc.i + 1)
                      && (pc.after.ThenInsert? ==> pc.after.n != pc.i))
    && (pc.Recycle? && pc.after.ThenEvict? ==> pc.after.at == pc.i)
    && (pc.Recycle? && pc.after.ThenClear? ==> pc.after.next > pc.i)
  }

  /** What the thread inside the mutex answers for. */
  function Inside(s: State): Claims {
    if s.mutex.Some? && s.mutex.value < |s.threads| then s.threads[s.mutex.value].claims else Nothing
  }

  // ---- the hash map

  predicate Mapped(hs: seq<Handle>, table: map<CacheKey, nat>, i: nat)
    requires i < |hs|
  {
    var id := hs[i].entry.Id();
    id in table && table[id] == i
  }

  predicate Loose(d: Debt, i: nat) {
    d.one == Some(i) || d.two == Some(i) || (d.from.Some? && i >= d.from.value)
  }

  ghost predicate DebtOk(hs: seq<Handle>, table: map<CacheKey, nat>, d: Debt) {
    && (d.one.Some? ==> d.one.value < |hs| && Mapped(hs, table, d.one.value) == d.evicting)
    && (d.two.Some? ==> d.two.value < |hs| && !Mapped(hs, table, d.two.value))
    && (d.absent.Some? ==> d.absent.value < |hs| && hs[d.absent.value].entry.Id() !in table)
    && (d.from.Some? ==> table == map[])
  }

  /**
   Every binding names a handle with that key; off the debt, a handle is bound exactly when its in-cache bit is set.
   */
  ghost predicate TableInv(hs: seq<Handle>, table: map<CacheKey, nat>, d: Debt) {
    && DebtOk(hs, table, d)
    && (forall id :: id in table ==> table[id] < |hs| && hs[table[id]].entry.Id() == id)
    && (forall i :: 0 <= i < |hs| && !Loose(d, i) ==> (hs[i].flags.inCache <==> Mapped(hs, table, i)))
  }

  ghost predicate TableOk(s: State) {
    && (s.mutex.Some? ==> s.mutex.value < |s.threads|)
    && TableInv(s.handles, s.table, Inside(s).debt)
  }

  ghost predicate GrantOk(s: State, g: nat)
    requires g in s.grants
  {
    var r := s.grants[g];
    && g < s.nextGrant && r.idx < |s.handles|
    && Ext(g) in s.handles[r.idx].holders
    && r.occupancy == s.handles[r.idx].occupancy && r.entry == s.handles[r.idx].entry
    && (r.want.WantKey? ==> r.entry.Id() == r.want.id)
  }

  // ---- the recycle bin and the history of recycling

  ghost predicate BinInv(hs: seq<Handle>, bin: seq<nat>) {
    && (forall j :: 0 <= j < |bin| ==> bin[j] < |hs| && hs[bin[j]].own.Free?)
    && (forall j, k :: 0 <= j < k < |bin| ==> bin[j] != bin[k])
    && (forall i :: 0 <= i < |hs| && hs[i].own.Free? ==> i in bin)
  }

  ghost predicate BinOk(s: State) {
    && BinInv(s.handles, s.recycle)
    && (s.head < |s.handles| || (s.head == 0 && |s.handles| == 0))
    && (s.usage != 0 ==> |s.handles| > 0)
  }

  ghost predicate HistoryInv(hs: seq<Handle>, recycled: seq<(nat, nat)>) {
    && (forall j {:trigger recycled[j]} :: 0 <= j < |recycled| ==>
          var (i, o) := recycled[j];
          i < |hs| && (o < hs[i].occupancy || (o == hs[i].occupancy && hs[i].own.Free?)))
    && (forall j, k :: 0 <= j < k < |recycled| ==> recycled[j] != recycled[k])
  }

  // ---- accounting

  function Charged(h: Handle): int { if h.own.Live? || h.own.Dying? then h.entry.Total() else 0 }

  function Pinned(h: Handle): int { if h.flags.refs > 0 then h.entry.Total() else 0 }

  /** Corrections to `pinned_usage_` that operations outside the mutex still owe. */
  function Owed(th: Thread): int {
    match th.pc
    case PinAdd(_, c, _) => 0 + c
    case PinSub(_, c, _, _) => 0 - c
    case _ => 0
  }

  function ChargeAt(s: State, n: Option<nat>): int {
    if n.Some? && n.value < |s.handles| then s.handles[n.value].entry.Total() else 0
  }

  /** The charge of an insertion that has not reached `usage_` yet. */
  function UsageOwed(s: State): int {
    if Inside(s).usageOwed then ChargeAt(s, Inside(s).newest) else 0
  }

  /** The charge of an insertion that has not reached `pinned_usage_` yet. */
  function PinOwed(s: State): int {
    if Inside(s).pinOwed then ChargeAt(s, Inside(s).newest) else 0
  }

  ghost predicate UsageOk(s: State) {
    s.usage + UsageOwed(s) == SumBy(Charged, s.handles)
  }

  ghost predicate PinOk(s: State) {
    s.pinned + PinOwed(s) + SumBy(Owed, s.threads) == SumBy(Pinned, s.handles) + s.drift
  }

  /** The shape invariant, clause by clause. */
  datatype Clause = OfHandle(i: nat) | OfThread(t: Tid) | OfPc(t: Tid) | OfGrant(g: nat) | OfBin | OfHistory | OfTable

  ghost predicate Holds(s: State, c: Clause) {
    match c
    case OfHandle(i) => i < |s.handles| ==> HandleOk(s, i)
    case OfThread(t) => t < |s.threads| ==> ThreadOk(s, t)
    case OfPc(t) => t < |s.threads| ==> PcOk(s, t)
    case OfGrant(g) => g in s.grants ==> GrantOk(s, g)
    case OfBin => BinOk(s)
    case OfHistory => HistoryInv(s.handles, s.recycled)
    case OfTable => TableOk(s)
  }

  ghost predicate Shape(s: State) {
    forall c :: Holds(s, c)
  }

  ghost predicate Inv(s: State) {
    Shape(s) && UsageOk(s) && PinOk(s)
  }

  lemma AtHandle(s: State, i: nat)
    requires Shape(s) && i < |s.handles|
    ensures HandleOk(s, i)
  {
    assert Holds(s, OfHandle(i));
  }

  lemma AtThread(s: State, t: Tid)
    requires Shape(s) && t < |s.threads|
    ensures ThreadOk(s, t) && PcOk(s, t)
  {
    assert Holds(s, OfThread(t)) && Holds(s, OfPc(t));
  }

  lemma AtGrant(s: State, g: nat)
    requires Shape(s) && g in s.grants
    ensures GrantOk(s, g)
  {
    assert Holds(s, OfGrant(g));
  }

  lemma AtRest(s: State)
    requires Shape(s)
    ensures BinOk(s) && HistoryInv(s.handles, s.recycled) && TableOk(s)
  {
    assert Holds(s, OfBin) && Holds(s, OfHistory) && Holds(s, OfTable);
  }

  lemma FromClauses(s: State)
    requires forall i :: 0 <= i < |s.handles| ==> HandleOk(s, i)
    requires forall t :: 0 <= t < |s.threads| ==> ThreadOk(s, t)
    requires forall t :: 0 <= t < |s.threads| ==> PcOk(s, t)
    requires forall g :: g in s.grants ==> GrantOk(s, g)
    requires BinOk(s) && HistoryInv(s.handles, s.recycled) && TableOk(s)
    ensures Shape(s)
  {}
}
