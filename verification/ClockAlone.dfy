/** EvictFromCache by itself is the protocol's eviction when one thread moves and the others do not. */
module ClockAlone {
  import opened Basics
  import opened Seals
  import opened ClockModel
  import opened ClockInvariant
  import opened ClockTheorems
  import opened ClockEviction

  function SlotOf(h: Handle): Slot { Slot(h.entry, h.flags) }

  function Slots(s: State): (r: seq<Slot>)
    ensures |r| == |s.handles| && forall i :: 0 <= i < |r| ==> r[i] == SlotOf(s.handles[i])
  {
    seq(|s.handles|, i requires 0 <= i < |s.handles| => SlotOf(s.handles[i]))
  }

  function Iterate<S>(f: S -> S, s: S, m: nat): S {
    if m == 0 then s else f(Iterate(f, s, m - 1))
  }

  lemma {:induction false} IterateAdd<S>(f: S -> S, s: S, a: nat, b: nat)
    ensures Iterate(f, Iterate(f, s, a), b) == Iterate(f, s, a + b)
  {
    if b > 0 { IterateAdd(f, s, a, b - 1); }
  }

  /** One action of a thread in the middle of a call. */
  function Action(t: Tid): State -> State { (s: State) => Step(s, t, EraseUnRefEntries) }

  /** Some actions of one thread, undisturbed, lead from one state to the other. */
  ghost predicate Reaches(s: State, t: Tid, s': State) {
    exists m: nat :: Iterate(Action(t), s, m) == s'
  }

  lemma ReachesOn(a: State, b: State, c: State, t: Tid)
    requires Reaches(a, t, b) && Reaches(b, t, c)
    ensures Reaches(a, t, c)
  {
    var m: nat :| Iterate(Action(t), a, m) == b;
    var n: nat :| Iterate(Action(t), b, n) == c;
    IterateAdd(Action(t), a, m, n);
  }

  lemma ReachesNext(s: State, t: Tid)
    requires Inv(s) && t < |s.threads| && !s.threads[t].pc.Idle?
    ensures InRange(s, s.threads[t].pc) && Reaches(s, t, Act(s, t)) && Inv(Act(s, t))
  {
    CanGoOn(s, t);
    InvStep(s, t, EraseUnRefEntries);
    assert Iterate(Action(t), s, 1) == Action(t)(Iterate(Action(t), s, 0));
  }

  /** What eviction leaves alone: the capacity and whether it is strict. */
  function LimitsOf(s: State): (nat, bool) { (s.capacity, s.strict) }

  /** What a turn of the loop does to the state. */
  ghost predicate Turned(s: State, s': State, t: Tid, ev: Evictor, at: nat, second: bool) {
    && Inv(s') && t < |s'.threads| && at < |s.handles| == |s'.handles|
    && s'.threads[t].pc == NextExamined(s', ev, at, second, s'.usage)
    && Slots(s') == Slots(s)[at := Examined(Slots(s)[at])] && s'.usage == UsageAfter(Slots(s), s.usage, at)
    && s'.head == s.head && LimitsOf(s') == LimitsOf(s)
  }

  lemma PassingTurn(s: State, t: Tid, ev: Evictor, at: nat, second: bool) returns (s': State)
    requires Inv(s) && t < |s.threads| && at < |s.handles| && s.threads[t].pc == EvictCas(ev, at, second, s.usage)
    requires s.handles[at].flags != Evictable
    ensures Reaches(s, t, s') && Turned(s, s', t, ev, at, second)
  {
    ReachesNext(s, t);
    var s1 := Go(s, t, EvictClear(ev, at, second, s.usage));
    assert Act(s, t) == s1;
    ReachesNext(s1, t);
    s' := DoEvictClear(s1, t, ev, at, second, s.usage);
    assert Act(s1, t) == s';
    ReachesOn(s, s1, s', t);
    Cleared(s, s1, s', t, ev, at, second);
  }

  lemma Cleared(s: State, s1: State, s2: State, t: Tid, ev: Evictor, at: nat, second: bool)
    requires at < |s.handles| && s.handles[at].flags != Evictable && t < |s1.threads|
    requires s1.handles == s.handles && s1.usage == s.usage && s1.head == s.head && LimitsOf(s1) == LimitsOf(s)
    requires s2 == DoEvictClear(s1, t, ev, at, second, s.usage) && Inv(s2)
    ensures Turned(s, s2, t, ev, at, second)
  {
    assert s2.handles == s.handles[at := s2.handles[at]];
    assert Slots(s2) == Slots(s)[at := Examined(Slots(s)[at])];
  }

  lemma EvictingTurn(s: State, t: Tid, ev: Evictor, at: nat, second: bool) returns (s': State)
    requires Inv(s) && t < |s.threads| && at < |s.handles| && s.threads[t].pc == EvictCas(ev, at, second, s.usage)
    requires s.handles[at].flags == Evictable
    ensures Reaches(s, t, s') && Turned(s, s', t, ev, at, second)
  {
    ReachesNext(s, t);
    var s1 := Act(s, t);
    assert s1 == DoEvictCas(s, t, ev, at, second, s.usage);
    s' := ErasingTurn(s, s1, t, ev, at, second);
    ReachesOn(s, s1, s', t);
  }

  lemma ErasingTurn(s: State, s1: State, t: Tid, ev: Evictor, at: nat, second: bool) returns (s': State)
    requires at < |s.handles| && s.handles[at].flags == Evictable && t < |s.threads| && Inv(s1)
    requires s1 == DoEvictCas(s, t, ev, at, second, s.usage)
    ensures Reaches(s1, t, s') && Turned(s, s', t, ev, at, second)
  {
    ReachesNext(s1, t);
    var s2 := DoEvictErase(s1, t, ev, at, second);
    assert Act(s1, t) == s2;
    s' := RecyclingTurn(s2, t, ev, at, second);
    ReachesOn(s1, s2, s', t);
    Recycled(s, s2, s', t, ev, at, second);
  }

  lemma RecyclingTurn(s: State, t: Tid, ev: Evictor, at: nat, second: bool) returns (s': State)
    requires Inv(s) && t < |s.threads| && at < |s.handles| && s.threads[t].pc == Recycle(at, ThenEvict(ev, at, second))
    ensures s' == DoRecycle(s, t, at, ThenEvict(ev, at, second)) && Reaches(s, t, s') && Inv(s')
  {
    ReachesNext(s, t);
    s' := DoRecycle(s, t, at, ThenEvict(ev, at, second));
    assert Act(s, t) == s';
  }

  lemma Recycled(s: State, s2: State, s3: State, t: Tid, ev: Evictor, at: nat, second: bool)
    requires at < |s.handles| && s.handles[at].flags == Evictable && t < |s2.threads|
    requires s2.handles == s.handles[at := s.handles[at].(flags := Flags(false, false, 0), own := Dying(t))]
    requires s2.usage == s.usage && s2.head == s.head && LimitsOf(s2) == LimitsOf(s)
    requires s3 == DoRecycle(s2, t, at, ThenEvict(ev, at, second)) && Inv(s3)
    ensures Turned(s, s3, t, ev, at, second)
  {
    assert s3.handles == s.handles[at := s3.handles[at]];
    assert Slots(s3) == Slots(s)[at := Examined(Slots(s)[at])];
  }

  /** One turn of the loop, from the test on. */
  lemma OneTurn(s: State, t: Tid, ev: Evictor, at: nat, second: bool) returns (s': State)
    requires Inv(s) && t < |s.threads| && at < |s.handles| && s.threads[t].pc == EvictTest(ev, at, second, s.usage)
    requires s.usage + ev.Charge() > s.capacity
    ensures Reaches(s, t, s') && Turned(s, s', t, ev, at, second)
  {
    ReachesNext(s, t);
    var s1 := Go(s, t, EvictCas(ev, at, second, s.usage));
    assert Act(s, t) == s1;
    if s.handles[at].flags == Evictable {
      s' := EvictingTurn(s1, t, ev, at, second);
    } else {
      s' := PassingTurn(s1, t, ev, at, second);
    }
    ReachesOn(s, s1, s', t);
    TurnedFrom(s, s1, s', t, ev, at, second);
  }

  lemma TurnedFrom(s: State, s1: State, s': State, t: Tid, ev: Evictor, at: nat, second: bool)
    requires Turned(s1, s', t, ev, at, second)
    requires s1.handles == s.handles && s1.usage == s.usage && s1.head == s.head && LimitsOf(s1) == LimitsOf(s)
    ensures Turned(s, s', t, ev, at, second)
  {
    assert Slots(s1) == Slots(s);
  }

  /** How the loop ends. */
  ghost predicate Ended(s': State, t: Tid, ev: Evictor, r: Outcome, start: nat, n: nat, limits: (nat, bool))
    requires start < n
  {
    && LimitsOf(s') == limits
    && t < |s'.threads| && s'.threads[t].pc == Evicted(ev, r.ok) && Slots(s') == r.list && s'.usage == r.usage
    && r.turns <= 2 * n && s'.head == if r.ok then Hand(start, r.turns, n) else start
  }

  /** The loop is at turn `k` of a run that began at the hand. */
  ghost predicate AtTurn(s: State, t: Tid, ev: Evictor, k: nat) {
    && Inv(s) && t < |s.threads| && s.head < |s.handles| && k < 2 * |s.handles|
    && s.threads[t].pc == EvictTest(ev, Hand(s.head, k, |s.handles|), k >= |s.handles|, s.usage)
  }

  lemma LastTurn(s: State, t: Tid, ev: Evictor, k: nat) returns (s': State)
    requires AtTurn(s, t, ev, k) && s.usage + ev.Charge() <= s.capacity
    ensures Reaches(s, t, s')
    ensures Ended(s', t, ev, Turns(Slots(s), s.usage, ev.Charge(), s.capacity, s.head, k), s.head, |s.handles|,
                  LimitsOf(s))
  {
    ReachesNext(s, t);
    s' := Go(s.(head := Hand(s.head, k, |s.handles|)), t, Evicted(ev, true));
    assert Act(s, t) == s';
    assert Slots(s') == Slots(s);
  }

  lemma TurnGoesOn(s: State, s1: State, t: Tid, ev: Evictor, k: nat)
    requires AtTurn(s, t, ev, k) && s.usage + ev.Charge() > s.capacity
    requires Turned(s, s1, t, ev, Hand(s.head, k, |s.handles|), k >= |s.handles|)
    ensures var r := Turns(Slots(s), s.usage, ev.Charge(), s.capacity, s.head, k);
      if k + 1 == 2 * |s.handles| then Ended(s1, t, ev, r, s.head, |s.handles|, LimitsOf(s))
      else
        && AtTurn(s1, t, ev, k + 1) && LimitsOf(s1) == LimitsOf(s)
        && r == Turns(Slots(s1), s1.usage, ev.Charge(), s1.capacity, s1.head, k + 1)
  {}

  ghost predicate Ends(s': State, t: Tid, ev: Evictor, r: Outcome, start: nat, n: nat, limits: (nat, bool)) {
    forall seal: Seal :: EndsAt(seal, s', t, ev, r, start, n, limits)
  }

  ghost predicate EndsAt(seal: Seal, s': State, t: Tid, ev: Evictor, r: Outcome, start: nat, n: nat,
                         limits: (nat, bool)) {
    start < n && Ended(s', t, ev, r, start, n, limits)
  }

  /** The loop is at turn `k` and will have this outcome. */
  ghost predicate OnCourse(s: State, t: Tid, ev: Evictor, k: nat, r: Outcome, start: nat, n: nat,
                           limits: (nat, bool)) {
    forall seal: Seal :: OnCourseAt(seal, s, t, ev, k, r, start, n, limits)
  }

  ghost predicate OnCourseAt(seal: Seal, s: State, t: Tid, ev: Evictor, k: nat, r: Outcome, start: nat, n: nat,
                             limits: (nat, bool)) {
    && LimitsOf(s) == limits
    && AtTurn(s, t, ev, k) && s.head == start < n == |s.handles| && k < 2 * n
    && r == Turns(Slots(s), s.usage, ev.Charge(), s.capacity, start, k)
  }

  lemma Moves(s: State, t: Tid, ev: Evictor, k: nat, r: Outcome, start: nat, n: nat, limits: (nat, bool))
    returns (s1: State)
    requires OnCourse(s, t, ev, k, r, start, n, limits)
    ensures Reaches(s, t, s1) && k < 2 * n
    ensures Ends(s1, t, ev, r, start, n, limits) || (k + 1 < 2 * n && OnCourse(s1, t, ev, k + 1, r, start, n, limits))
  {
    assert OnCourseAt(Seal, s, t, ev, k, r, start, n, limits);
    if s.usage + ev.Charge() <= s.capacity {
      s1 := LastTurn(s, t, ev, k);
    } else {
      s1 := OneTurn(s, t, ev, Hand(s.head, k, |s.handles|), k >= |s.handles|);
      TurnGoesOn(s, s1, t, ev, k);
    }
    assert EndsAt(Seal, s1, t, ev, r, start, n, limits) || OnCourseAt(Seal, s1, t, ev, k + 1, r, start, n, limits);
  }

  lemma {:induction false} LoopTo(s: State, t: Tid, ev: Evictor, k: nat, r: Outcome, start: nat, n: nat,
                                  limits: (nat, bool))
    returns (s': State)
    requires OnCourse(s, t, ev, k, r, start, n, limits)
    ensures Reaches(s, t, s') && Ends(s', t, ev, r, start, n, limits)
    decreases 2 * n - k
  {
    var s1 := Moves(s, t, ev, k, r, start, n, limits);
    if Ends(s1, t, ev, r, start, n, limits) {
      s' := s1;
    } else {
      s' := LoopTo(s1, t, ev, k + 1, r, start, n, limits);
      ReachesOn(s, s1, s', t);
    }
  }

  /**
   The thread's actions, undisturbed, are the turns of EvictFromCache: same list, same usage, same hand, same answer.
   */
  lemma LoopIsTurns(s: State, t: Tid, ev: Evictor) returns (s': State)
    requires AtTurn(s, t, ev, 0)
    ensures Reaches(s, t, s')
    ensures Ended(s', t, ev, Turns(Slots(s), s.usage, ev.Charge(), s.capacity, s.head, 0), s.head, |s.handles|,
                  LimitsOf(s))
  {
    var r := Turns(Slots(s), s.usage, ev.Charge(), s.capacity, s.head, 0);
    s' := LoopTo(s, t, ev, 0, r, s.head, |s.handles|, LimitsOf(s));
    assert EndsAt(Seal, s', t, ev, r, s.head, |s.handles|, LimitsOf(s));
  }
}
