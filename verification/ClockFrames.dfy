/** What an action of one thread on one handle leaves alone. */
module ClockFrames {
  import opened Basics
  import opened ClockModel
  import opened ClockInvariant

  /** Only thread `t` moved and only handle `i` changed. */
  ghost predicate OnlyAt(s: State, s': State, t: Tid, i: nat) {
    && t < |s.threads| == |s'.threads| && |s'.handles| == |s.handles|
    && (forall u :: 0 <= u < |s.threads| && u != t ==> s'.threads[u] == s.threads[u])
    && (forall j :: 0 <= j < |s.handles| && j != i ==> s'.handles[j] == s.handles[j])
  }

  predicate AtMost(claim: Option<nat>, claim': Option<nat>, i: nat) {
    claim == claim' || ((claim.Some? ==> claim.value == i) && (claim'.Some? ==> claim'.value == i))
  }

  /** A thread gains and loses claims on handle `i` only. */
  predicate ClaimsOnlyAt(c: Claims, c': Claims, i: nat) {
    AtMost(c.ref, c'.ref, i) && AtMost(c.dying, c'.dying, i) && AtMost(c.filling, c'.filling, i)
  }

  /** The claims of other threads on handle `i` survive its change. */
  ghost predicate ClaimsKept(h: Handle, h': Handle, t: Tid) {
    && (forall u :: u != t && Op(u) in h.holders ==> Op(u) in h'.holders && h'.entry.Total() == h.entry.Total())
    && (forall u :: u != t && h.own == Dying(u) ==> h'.own == Dying(u))
    && (forall u :: u != t && h.own == Filling(u) ==> h'.own == Filling(u))
  }

  /** Other threads are inside the mutex, or not, as before, and while they are the in-cache bit of `i` stays. */
  ghost predicate MutexKept(s: State, s': State, t: Tid, i: nat) {
    && (forall u :: u != t ==> (s.mutex == Some(u) <==> s'.mutex == Some(u)))
    && (s.mutex.Some? && s.mutex.value != t && i < |s.handles| == |s'.handles| ==>
          s.handles[i].flags.inCache ==> s'.handles[i].flags.inCache)
  }

  ghost predicate GrantsKept(s: State, s': State, i: nat) {
    forall g :: g in s.grants ==> (g in s'.grants && s'.grants[g] == s.grants[g]) || s.grants[g].idx == i
  }

  ghost predicate Quiet(s: State, s': State, t: Tid, i: nat) {
    && OnlyAt(s, s', t, i)
    && ClaimsOnlyAt(s.threads[t].claims, s'.threads[t].claims, i)
    && (i < |s.handles| ==> ClaimsKept(s.handles[i], s'.handles[i], t) && HandleOk(s', i))
    && MutexKept(s, s', t, i)
    && GrantsKept(s, s', i)
    && ThreadOk(s', t) && PcOk(s', t)
  }

  lemma KeepHandle(s: State, s': State, t: Tid, i: nat, j: nat)
    requires Quiet(s, s', t, i) && j < |s.handles| && j != i && HandleOk(s, j)
    ensures HandleOk(s', j)
  {
    forall h | h in s'.handles[j].holders ensures HolderOk(s', j, h) {
      assert HolderOk(s, j, h);
    }
  }

  lemma KeepThread(s: State, s': State, t: Tid, i: nat, u: Tid)
    requires Quiet(s, s', t, i) && u < |s.threads| && u != t && ThreadOk(s, u)
    ensures ThreadOk(s', u)
  {
    assert s'.threads[u] == s.threads[u];
  }

  lemma KeepPc(s: State, s': State, t: Tid, i: nat, u: Tid)
    requires Quiet(s, s', t, i) && u < |s.threads| && u != t && ThreadOk(s, u) && PcOk(s, u)
    ensures PcOk(s', u)
  {
    assert s'.threads[u] == s.threads[u];
  }

  lemma KeepAll(s: State, s': State, t: Tid, i: nat)
    requires Shape(s) && Quiet(s, s', t, i)
    ensures forall j :: 0 <= j < |s'.handles| ==> HandleOk(s', j)
    ensures forall u :: 0 <= u < |s'.threads| ==> ThreadOk(s', u)
    ensures forall u :: 0 <= u < |s'.threads| ==> PcOk(s', u)
  {
    forall j | 0 <= j < |s'.handles| ensures HandleOk(s', j) {
      if j != i { AtHandle(s, j); KeepHandle(s, s', t, i, j); }
    }
    forall u | 0 <= u < |s'.threads| ensures ThreadOk(s', u) && PcOk(s', u) {
      if u != t { AtThread(s, u); KeepThread(s, s', t, i, u); KeepPc(s, s', t, i, u); }
    }
  }

  // ---- parts of the invariant that speak of the handles alone

  lemma KeepBin(hs: seq<Handle>, i: nat, h: Handle, bin: seq<nat>)
    requires BinInv(hs, bin) && i < |hs| && (h.own.Free? <==> hs[i].own.Free?)
    ensures BinInv(hs[i := h], bin)
  {}

  lemma KeepHistory(hs: seq<Handle>, i: nat, h: Handle, recycled: seq<(nat, nat)>)
    requires HistoryInv(hs, recycled) && i < |hs|
    requires h.occupancy == hs[i].occupancy && (hs[i].own.Free? ==> h.own.Free?)
    ensures HistoryInv(hs[i := h], recycled)
  {
    forall j | 0 <= j < |recycled|
      ensures var (k, o) := recycled[j];
        k < |hs| && (o < hs[i := h][k].occupancy || (o == hs[i := h][k].occupancy && hs[i := h][k].own.Free?))
    {
      var (k, o) := recycled[j];
      assert k < |hs| && (o < hs[k].occupancy || (o == hs[k].occupancy && hs[k].own.Free?));
    }
  }

  /** Flags and holders of a handle may change under the table as long as the in-cache bit stays. */
  lemma KeepTable(hs: seq<Handle>, i: nat, h: Handle, table: map<CacheKey, nat>, d: Debt)
    requires TableInv(hs, table, d) && i < |hs|
    requires h.entry == hs[i].entry && h.flags.inCache == hs[i].flags.inCache
    ensures TableInv(hs[i := h], table, d)
  {
    var hs' := hs[i := h];
    assert forall j :: 0 <= j < |hs| ==> hs'[j].entry == hs[j].entry && hs'[j].flags.inCache == hs[j].flags.inCache;
    assert forall j :: 0 <= j < |hs| ==> Mapped(hs', table, j) == Mapped(hs, table, j);
  }
}
