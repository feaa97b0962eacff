/**
 Under the strict limit, no insertion into the CLOCK cache raises `usage_` above the capacity, in any interleaving.

 SetStrictCapacityLimit stores its flag without the mutex, so what counts is the flag that the insertion itself read.
 */
module ClockStrict {
  import opened Basics
  import opened ClockModel
  import opened ClockInvariant
  import opened ClockProofs
  import opened ClockProofsInside
  import opened ClockAccounting
  import opened ClockTheorems
  import opened ClockEdges
  import opened ClockLife
  import opened ClockPinned

  // ---- what an insertion past its eviction is going to add

  /** The handle that an insertion has filled, and whether its caller asked for it. */
  function Filled(pc: Pc): Option<(nat, bool)> {
    match pc
    case Publish(n, hold) => Some((n, hold))
    case FindOld(n, hold) => Some((n, hold))
    case TableInsert(n, hold) => Some((n, hold))
    case PinInsert(n) => Some((n, true))
    case AddUsage(n, hold) => Some((n, hold))
    case Unset(_, after) => if after.ThenInsert? then Some((after.n, after.hold)) else None
    case Recycle(_, after) => if after.ThenInsert? then Some((after.n, after.hold)) else None
    case _ => None
  }

  /** What the thread is inserting, and whether the caller asked for a handle, from the eviction's end on. */
  function Coming(s: State, pc: Pc): Option<(Entry, bool)> {
    if pc.Fill? then Some((pc.e, pc.hold))
    else if Filled(pc).Some? && Filled(pc).value.0 < |s.handles| then
      Some((s.handles[Filled(pc).value.0].entry, Filled(pc).value.1))
    else None
  }

  /** The usage that the eviction loop goes by. */
  function Known(pc: Pc): Option<int> {
    if pc.EvictTest? then Some(pc.usage) else if pc.EvictCas? then Some(pc.usage)
    else if pc.EvictClear? then Some(pc.usage) else None
  }

  /** The eviction loop knows the usage, and when it answers true there is room. */
  predicate RoomAt(s: State, u: Tid)
    requires u < |s.threads|
  {
    var pc := s.threads[u].pc;
    && (Known(pc).Some? ==> Known(pc).value == s.usage)
    && (pc.Evicted? && pc.ok ==> s.usage + pc.ev.Charge() <= s.capacity)
  }

  /** What the thread is inserting will fit. */
  predicate Fits(s: State, u: Tid)
    requires u < |s.threads|
  {
    var c := Coming(s, s.threads[u].pc);
    c.Some? && s.usage + c.value.0.Total() <= s.capacity
  }

  // ---- steps of other threads

  /** A thread outside the mutex changes neither usage nor capacity while another one is inside. */
  lemma OutsideNumbers(s: State, t: Tid, call: Call)
    requires Inv(s) && t < |s.threads| && s.mutex.Some? && s.mutex != Some(t)
    ensures var s' := Step(s, t, call); s'.usage == s.usage && s'.capacity == s.capacity
  {
    AtThread(s, t);
    var pc := s.threads[t].pc;
    if pc.Idle? {
    } else if InRange(s, pc) {
      if pc.RefLoad? || pc.RefCas? || pc.PinAdd? || pc.Check? { RefNumbers(s, t); } else { UnrefNumbers(s, t); }
    }
  }

  lemma RefNumbers(s: State, t: Tid)
    requires t < |s.threads| && InRange(s, s.threads[t].pc)
    requires var pc := s.threads[t].pc; pc.RefLoad? || pc.RefCas? || pc.PinAdd? || pc.Check?
    ensures var s' := Act(s, t); s'.usage == s.usage && s'.capacity == s.capacity
  {
    var pc := s.threads[t].pc;
    if pc.RefLoad? {} else if pc.RefCas? {} else if pc.PinAdd? {} else {}
  }

  lemma UnrefNumbers(s: State, t: Tid)
    requires t < |s.threads| && InRange(s, s.threads[t].pc) && s.mutex.Some?
    requires var pc := s.threads[t].pc; pc.SetUsage? || pc.Drop? || pc.PinSub? || pc.ReadHash? || pc.Lock?
    ensures var s' := Act(s, t); s'.usage == s.usage && s'.capacity == s.capacity
  {
    var pc := s.threads[t].pc;
    if pc.SetUsage? {} else if pc.Drop? {} else if pc.PinSub? {} else if pc.ReadHash? {} else {}
  }

  lemma EvictorIsInside(s: State, u: Tid)
    requires Inv(s) && u < |s.threads| && (Known(s.threads[u].pc).Some? || s.threads[u].pc.Evicted?)
    ensures s.mutex == Some(u)
  {
    AtThread(s, u);
  }

  lemma OtherRoom(s: State, t: Tid, call: Call, u: Tid)
    requires Inv(s) && t < |s.threads| && u < |s.threads| && u != t && RoomAt(s, u)
    ensures u < |Step(s, t, call).threads| && RoomAt(Step(s, t, call), u)
  {
    StepMoves(s, t, call);
    var pc := s.threads[u].pc;
    if Known(pc).Some? || pc.Evicted? {
      EvictorIsInside(s, u);
      OutsideNumbers(s, t, call);
    }
  }

  /** The handle that a thread has filled is its own, or in use. */
  lemma FilledIs(s: State, u: Tid)
    requires Inv(s) && u < |s.threads| && Filled(s.threads[u].pc).Some?
    ensures s.mutex == Some(u)
    ensures var n := Filled(s.threads[u].pc).value.0;
      n < |s.handles| && (s.handles[n].own == Filling(u) || s.handles[n].own.Live?)
  {
    AtThread(s, u);
    AtHandle(s, Filled(s.threads[u].pc).value.0);
  }

  lemma OtherComing(s: State, t: Tid, call: Call, u: Tid)
    requires Inv(s) && t < |s.threads| && u < |s.threads| && u != t && Coming(s, s.threads[u].pc).Some?
    ensures var s' := Step(s, t, call);
      u < |s'.threads| && Coming(s', s'.threads[u].pc) == Coming(s, s.threads[u].pc)
          && s'.usage == s.usage && s'.capacity == s.capacity
  {
    StepMoves(s, t, call);
    AtThread(s, u);
    OutsideNumbers(s, t, call);
    if Filled(s.threads[u].pc).Some? {
      FilledIs(s, u);
      LifeCycle(s, t, call);
      EntryByLife(s, Step(s, t, call), t, Filled(s.threads[u].pc).value.0);
    }
  }

  // ---- steps of the thread itself

  lemma OwnEvicting(s: State, t: Tid)
    requires t < |s.threads| && InRange(s, s.threads[t].pc) && RoomAt(s, t)
    requires var pc := s.threads[t].pc; pc.EvictStart? || pc.EvictTest? || pc.EvictCas? || pc.EvictClear?
    ensures t < |Act(s, t).threads| && RoomAt(Act(s, t), t)
  {
    var pc := s.threads[t].pc;
    if pc.EvictStart? {} else if pc.EvictTest? {} else if pc.EvictCas? {} else {}
  }

  lemma OwnRecycling(s: State, t: Tid)
    requires t < |s.threads| && InRange(s, s.threads[t].pc) && s.threads[t].pc.Recycle?
    ensures t < |Act(s, t).threads| && RoomAt(Act(s, t), t)
  {}

  /** Only the loop itself, and recycling for it, lead into the loop or to its end. */
  lemma RoomFrom(pc: Pc, next: Pc)
    requires Edge(pc, next) && (Known(next).Some? || next.Evicted?) && !(pc.Unset? && pc.after.ThenEvict?)
    ensures pc.EvictStart? || pc.EvictTest? || pc.EvictCas? || pc.EvictClear? || pc.Recycle?
  {}

  lemma OwnRoom(s: State, t: Tid, call: Call)
    requires Inv(s) && t < |s.threads| && RoomAt(s, t)
    ensures t < |Step(s, t, call).threads| && RoomAt(Step(s, t, call), t)
  {
    StepMoves(s, t, call);
    AtThread(s, t);
    CanGoOn(s, t);
    var pc, next := s.threads[t].pc, Step(s, t, call).threads[t].pc;
    if pc.EvictStart? || pc.EvictTest? || pc.EvictCas? || pc.EvictClear? { OwnEvicting(s, t); }
    else if pc.Recycle? { OwnRecycling(s, t); }
    else if Edge(pc, next) && (Known(next).Some? || next.Evicted?) { RoomFrom(pc, next); }
    else if pc.Evicted? { ActMoves(s, t); }
  }

  /** An insertion goes on past its eviction if that made room, or if the flag it reads is off and it is to be held. */
  lemma Admits(s: State, t: Tid)
    requires t < |s.threads| && s.threads[t].pc.Evicted? && InRange(s, s.threads[t].pc) && RoomAt(s, t)
    ensures var pc, s' := s.threads[t].pc, Act(s, t);
      t < |s'.threads| && (Coming(s', s'.threads[t].pc).Some? ==>
        && pc.ev.ForInsert? && Coming(s', s'.threads[t].pc).value == (pc.ev.e, pc.ev.hold)
        && (if pc.ok then Fits(s', t) else !s.strict && pc.ev.hold))
  {}

  lemma OwnFilling(s: State, t: Tid)
    requires t < |s.threads| && InRange(s, s.threads[t].pc) && Coming(s, s.threads[t].pc).Some?
    requires var pc := s.threads[t].pc; pc.Fill? || pc.Publish?
    ensures var s' := Act(s, t);
      t < |s'.threads| && Coming(s', s'.threads[t].pc) == Coming(s, s.threads[t].pc)
          && s'.usage == s.usage && s'.capacity == s.capacity
  {
    if s.threads[t].pc.Fill? {} else {}
  }

  lemma OwnFinding(s: State, t: Tid)
    requires t < |s.threads| && InRange(s, s.threads[t].pc) && Coming(s, s.threads[t].pc).Some?
    requires s.threads[t].pc.FindOld?
    ensures var s' := Act(s, t);
      t < |s'.threads| && Coming(s', s'.threads[t].pc) == Coming(s, s.threads[t].pc)
          && s'.usage == s.usage && s'.capacity == s.capacity
  {}

  lemma OwnBinding(s: State, t: Tid)
    requires t < |s.threads| && InRange(s, s.threads[t].pc) && Coming(s, s.threads[t].pc).Some?
    requires var pc := s.threads[t].pc; pc.TableInsert? || pc.PinInsert?
    ensures var s' := Act(s, t);
      t < |s'.threads| && Coming(s', s'.threads[t].pc) == Coming(s, s.threads[t].pc)
          && s'.usage == s.usage && s'.capacity == s.capacity
  {
    if s.threads[t].pc.TableInsert? {} else {}
  }

  /** Displacing the key's old handle can only lower the usage. */
  lemma OwnDisplacing(s: State, t: Tid)
    requires t < |s.threads| && InRange(s, s.threads[t].pc) && Coming(s, s.threads[t].pc).Some?
    requires var pc := s.threads[t].pc; pc.Unset? || (pc.Recycle? && pc.after.n != pc.i)
    ensures var s' := Act(s, t);
      t < |s'.threads| && Coming(s', s'.threads[t].pc) == Coming(s, s.threads[t].pc)
          && s'.usage <= s.usage && s'.capacity == s.capacity
  {
    if s.threads[t].pc.Unset? {} else {}
  }

  /** The points from which an insertion comes to be past its eviction. */
  lemma ComingFrom(pc: Pc, next: Pc)
    requires next == pc || (pc.Idle? && Entrance(next)) || Edge(pc, next)
    requires next.Fill? || Filled(next).Some?
    ensures Filled(pc).Some? || pc.Fill? || pc.Evicted?
  {}

  lemma OwnComing(s: State, t: Tid, call: Call)
    requires Inv(s) && t < |s.threads| && Coming(s, s.threads[t].pc).Some?
    ensures var s' := Step(s, t, call);
      t < |s'.threads| && (Coming(s', s'.threads[t].pc).Some? ==>
        Coming(s', s'.threads[t].pc) == Coming(s, s.threads[t].pc) && s'.usage <= s.usage
            && s'.capacity == s.capacity)
  {
    AtThread(s, t);
    CanGoOn(s, t);
    var pc := s.threads[t].pc;
    if pc.AddUsage? { ActMoves(s, t); }
    else if pc.Unset? { OwnDisplacing(s, t); }
    else if pc.Recycle? { OwnDisplacing(s, t); }
    else if pc.Fill? || pc.Publish? { OwnFilling(s, t); }
    else if pc.FindOld? { OwnFinding(s, t); }
    else { OwnBinding(s, t); }
  }

  // ---- whole runs

  lemma {:induction false} RoomRun(threads: nat, schedule: Schedule, u: Tid)
    requires u < |Run(Init(threads), schedule).threads|
    ensures RoomAt(Run(Init(threads), schedule), u)
    decreases |schedule|
  {
    if |schedule| > 0 {
      var n := |schedule| - 1;
      var s, t, call := Run(Init(threads), schedule[..n]), schedule[n].0, schedule[n].1;
      Reachable(threads, schedule[..n]);
      if t < |s.threads| { StepMoves(s, t, call); }
      RoomRun(threads, schedule[..n], u);
      if t == u { OwnRoom(s, t, call); } else if t < |s.threads| { OtherRoom(s, t, call, u); }
    }
  }

  /** In state `s`, the insertion of thread `t` has its eviction's answer and reads the flag next. */
  predicate Deciding(s: State, t: Tid, e: Entry, hold: bool) {
    t < |s.threads| && s.threads[t].pc.Evicted? && s.threads[t].pc.ev == ForInsert(e, hold)
  }

  ghost predicate Inserts(s: State, t: Tid, e: Entry, hold: bool) {
    t < |s.threads| && Coming(s, s.threads[t].pc) == Some((e, hold))
  }

  /** The step at which the insertion decided to go on: there was room, or the flag was off and a handle was wanted. */
  lemma {:induction false} Decided(threads: nat, schedule: Schedule, t: Tid, e: Entry, hold: bool) returns (m: nat)
    requires Inserts(Run(Init(threads), schedule), t, e, hold)
    ensures m < |schedule| && schedule[m].0 == t && Deciding(Run(Init(threads), schedule[..m]), t, e, hold)
    ensures forall k :: m < k < |schedule| ==> Inserts(Run(Init(threads), schedule[..k]), t, e, hold)
    ensures var d := Run(Init(threads), schedule[..m]);
      if d.threads[t].pc.ok then Fits(Run(Init(threads), schedule), t) else !d.strict && hold
    decreases |schedule|
  {
    var n := |schedule| - 1;
    var front, u, call := schedule[..n], schedule[n].0, schedule[n].1;
    var s := Run(Init(threads), front);
    Reachable(threads, front);
    if u < |s.threads| { StepMoves(s, u, call); }
    if Coming(s, s.threads[t].pc).Some? {
      if u == t { OwnComing(s, t, call); } else if u < |s.threads| { OtherComing(s, u, call, t); }
      m := Decided(threads, front, t, e, hold);
      assert front[..m] == schedule[..m] && front[m] == schedule[m];
      forall k | m < k < |schedule| ensures Inserts(Run(Init(threads), schedule[..k]), t, e, hold) {
        if k < n { assert front[..k] == schedule[..k]; } else { assert schedule[..k] == front; }
      }
    } else {
      FirstComing(s, u, call, t);
      RoomRun(threads, front, t);
      Admits(s, t);
      m := n;
    }
  }

  /** A thread comes past its eviction by its own step. */
  lemma FirstComing(s: State, t: Tid, call: Call, u: Tid)
    requires Inv(s) && u < |s.threads| && Coming(s, s.threads[u].pc).None?
    requires var s' := Step(s, t, call); u < |s'.threads| && Coming(s', s'.threads[u].pc).Some?
    ensures t == u && s.threads[u].pc.Evicted? && InRange(s, s.threads[u].pc)
  {
    if t < |s.threads| { StepMoves(s, t, call); }
    AtThread(s, u);
    CanGoOn(s, u);
    ComingFrom(s.threads[u].pc, Step(s, t, call).threads[u].pc);
    if Filled(s.threads[u].pc).Some? { FilledIs(s, u); }
  }

  /**
   In every interleaving, whatever becomes of the flag meanwhile: an insertion that adds its charge had decided, at one
   step `m` of its call, to go on. If its eviction had answered true, or it read that the limit is strict, or no handle
   was asked for, then adding its charge leaves the usage within the capacity.
   */
  lemma StrictInsert(threads: nat, schedule: Schedule, t: Tid, n: nat, hold: bool) returns (m: nat)
    requires var s := Run(Init(threads), schedule); t < |s.threads| && s.threads[t].pc == AddUsage(n, hold)
    ensures n < |Run(Init(threads), schedule).handles| && m < |schedule| && schedule[m].0 == t
    ensures var s, d := Run(Init(threads), schedule), Run(Init(threads), schedule[..m]);
      var e, s' := s.handles[n].entry, DoAddUsage(s, t, n, hold);
      && Step(s, t, EraseUnRefEntries) == s'
      && Deciding(d, t, e, hold)
      && (d.threads[t].pc.ok || d.strict || !hold ==> s'.usage <= s'.capacity)
    ensures var e := Run(Init(threads), schedule).handles[n].entry;
      forall k :: m < k < |schedule| ==> Inserts(Run(Init(threads), schedule[..k]), t, e, hold)
  {
    var s := Run(Init(threads), schedule);
    NeverStuck(threads, schedule, t);
    m := Decided(threads, schedule, t, s.handles[n].entry, hold);
  }
}
