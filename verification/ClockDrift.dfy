/** A run of two overlapping operations after which `pinned_usage_` is wrong. */
module ClockDrift {
  import opened Basics
  import opened Sums
  import opened ClockModel
  import opened ClockInvariant
  import opened ClockLife

  const Blank := Entry("", 0, 0, 0, false)
  const A := Entry("a", 1, 10, 5, true)
  const B := Entry("b", 2, 20, 7, true)
  const Skip := SetStrictCapacityLimit(false)

  function At(pc: Pc): Thread { Thread(pc, ClaimsOf(pc)) }

  /** A state of two threads, with capacity zero and the flag `strict_capacity_limit_` off. */
  function Two(hs: seq<Handle>, recycle: seq<nat>, usage: int, pinned: int, table: map<CacheKey, nat>,
               mutex: Option<Tid>,
               pc0: Pc, pc1: Pc, grants: map<nat, Grant>, next: nat, recycled: seq<(nat, nat)>, drift: int): State {
    State(hs, 0, recycle, 0, usage, pinned, false, table, mutex, [At(pc0), At(pc1)], grants, next, recycled, drift)
  }

  ghost predicate Reached(s: State) {
    exists schedule :: Run(Init(2), schedule) == s
  }

  lemma Then(s: State, t: Tid, call: Call, s': State)
    requires Reached(s) && s' == Step(s, t, call)
    ensures Reached(s')
  {
    var schedule :| Run(Init(2), schedule) == s;
    var longer := schedule + [(t, call)];
    assert longer[..|schedule|] == schedule;
    assert Run(Init(2), longer) == s';
  }

  const S0: State := Two([], [], 0, 0, map[], None,
                          Idle, Idle, map[], 0, [], 0)
  const S1: State := Two([], [], 0, 0, map[], None,
                          Lock(InsertJob(A, true)), Idle, map[], 0, [], 0)
  const S2: State := Two([], [], 0, 0, map[], Some(0),
                          EvictStart(ForInsert(A, true)), Idle, map[], 0, [], 0)
  const S3: State := Two([], [], 0, 0, map[], Some(0),
                          Evicted(ForInsert(A, true), false), Idle, map[], 0, [], 0)
  const S4: State := Two([Handle(Blank, Flags(false, false, 0), Filling(0), {}, 1)], [], 0, 0, map[], Some(0),
                          Fill(0, A, true, false), Idle, map[], 0, [], 0)
  const S4Keyed: State :=
    Two([Handle(A.(charge := 0), Flags(false, false, 0), Filling(0), {}, 1)], [], 0, 0, map[], Some(0),
        Fill(0, A, true, true), Idle, map[], 0, [], 0)
  const S5: State := Two([Handle(A, Flags(false, false, 0), Filling(0), {}, 1)], [], 0, 0, map[], Some(0),
                          Publish(0, true), Idle, map[], 0, [], 0)
  const S6: State := Two([Handle(A, Flags(true, false, 1), Live, {Op(0)}, 1)], [], 0, 0, map[], Some(0),
                          FindOld(0, true), Idle, map[], 0, [], 0)
  const S7: State := Two([Handle(A, Flags(true, false, 1), Live, {Op(0)}, 1)], [], 0, 0, map[], Some(0),
                          TableInsert(0, true), Idle, map[], 0, [], 0)
  const S8: State := Two([Handle(A, Flags(true, false, 1), Live, {Op(0)}, 1)], [], 0, 0, map[A.Id() := 0], Some(0),
                          PinInsert(0), Idle, map[], 0, [], 0)
  const S9: State := Two([Handle(A, Flags(true, false, 1), Live, {Op(0)}, 1)], [], 0, 6, map[A.Id() := 0], Some(0),
                          AddUsage(0, true), Idle, map[], 0, [], 0)
  const S10: State := Two([Handle(A, Flags(true, false, 1), Live, {Op(0)}, 1)], [], 6, 6, map[A.Id() := 0], Some(0),
                          InsertDone(0, true), Idle, map[], 0, [], 0)
  const S11: State := Two([Handle(A, Flags(true, false, 1), Live, {Ext(0)}, 1)], [], 6, 6, map[A.Id() := 0], None,
                          Idle, Idle, map[0 := Grant(0, 1, A, WantKey(A.Id()))], 1, [], 0)
  const S12: State := Two([Handle(A, Flags(true, false, 1), Live, {Op(0)}, 1)], [], 6, 6, map[A.Id() := 0], None,
                          SetUsage(0, false), Idle, map[], 1, [], 0)
  const S13: State := Two([Handle(A, Flags(true, true, 1), Live, {Op(0)}, 1)], [], 6, 6, map[A.Id() := 0], None,
                          Drop(0, FromRelease(false)), Idle, map[], 1, [], 0)
  const S14: State := Two([Handle(A, Flags(true, true, 0), Live, {}, 1)], [], 6, 6, map[A.Id() := 0], None,
                          PinSub(0, 6, false, FromRelease(false)), Idle, map[], 1, [], 0)
  const S15: State := Two([Handle(A, Flags(true, true, 0), Live, {}, 1)], [], 6, 6, map[A.Id() := 0], None,
                          PinSub(0, 6, false, FromRelease(false)), Lock(EraseJob(A.Id())), map[], 1, [], 0)
  const S16: State := Two([Handle(A, Flags(true, true, 0), Live, {}, 1)], [], 6, 6, map[A.Id() := 0], Some(1),
                          PinSub(0, 6, false, FromRelease(false)), EraseFind(A.Id()), map[], 1, [], 0)
  const S17: State := Two([Handle(A, Flags(true, true, 0), Live, {}, 1)], [], 6, 6, map[], Some(1),
                          PinSub(0, 6, false, FromRelease(false)), Unset(0, ThenUnlock), map[], 1, [], 0)
  const S18: State := Two([Handle(A, Flags(false, true, 0), Dying(1), {}, 1)], [], 6, 6, map[], Some(1),
                          PinSub(0, 6, false, FromRelease(false)), Recycle(0, ThenUnlock), map[], 1, [], 0)
  const S19: State := Two([Handle(A.(key := "", value := 0), Flags(false, true, 0), Free, {}, 1)], [0], 0, 6, map[],
                          Some(1),
                          PinSub(0, 6, false, FromRelease(false)), Unlock, map[], 1, [(0, 1)], 0)
  const S20: State := Two([Handle(A.(key := "", value := 0), Flags(false, true, 0), Free, {}, 1)], [0], 0, 6, map[],
                          None,
                          PinSub(0, 6, false, FromRelease(false)), Idle, map[], 1, [(0, 1)], 0)
  const S21: State := Two([Handle(A.(key := "", value := 0), Flags(false, true, 0), Free, {}, 1)], [0], 0, 6, map[],
                          None,
                          PinSub(0, 6, false, FromRelease(false)), Lock(InsertJob(B, true)), map[], 1, [(0, 1)], 0)
  const S22: State := Two([Handle(A.(key := "", value := 0), Flags(false, true, 0), Free, {}, 1)], [0], 0, 6, map[],
                          Some(1),
                          PinSub(0, 6, false, FromRelease(false)), EvictStart(ForInsert(B, true)), map[], 1,
                              [(0, 1)], 0)
  const S23: State := Two([Handle(A.(key := "", value := 0), Flags(false, true, 0), Free, {}, 1)], [0], 0, 6, map[],
                          Some(1),
                          PinSub(0, 6, false, FromRelease(false)), Evicted(ForInsert(B, true), false), map[], 1,
                              [(0, 1)], 0)
  const S24: State := Two([Handle(A.(key := "", value := 0), Flags(false, true, 0), Filling(1), {}, 2)], [], 0, 6,
                          map[], Some(1),
                          PinSub(0, 6, false, FromRelease(false)), Fill(0, B, true, false), map[], 1, [(0, 1)], 0)
  const S24Keyed: State :=
    Two([Handle(B.(charge := 5), Flags(false, true, 0), Filling(1), {}, 2)], [], 0, 6, map[], Some(1),
        PinSub(0, 6, false, FromRelease(false)), Fill(0, B, true, true), map[], 1, [(0, 1)], 0)
  const S25: State := Two([Handle(B, Flags(false, true, 0), Filling(1), {}, 2)], [], 0, 6, map[], Some(1),
                          PinSub(0, 6, false, FromRelease(false)), Publish(0, true), map[], 1, [(0, 1)], 0)
  const S26: State := Two([Handle(B, Flags(true, false, 1), Live, {Op(1)}, 2)], [], 0, 6, map[], Some(1),
                          PinSub(0, 6, false, FromRelease(false)), FindOld(0, true), map[], 1, [(0, 1)], 0)
  const S27: State := Two([Handle(B, Flags(true, false, 1), Live, {Op(1)}, 2)], [], 0, 6, map[], Some(1),
                          PinSub(0, 6, false, FromRelease(false)), TableInsert(0, true), map[], 1, [(0, 1)], 0)
  const S28: State := Two([Handle(B, Flags(true, false, 1), Live, {Op(1)}, 2)], [], 0, 6, map[B.Id() := 0], Some(1),
                          PinSub(0, 6, false, FromRelease(false)), PinInsert(0), map[], 1, [(0, 1)], 0)
  const S29: State := Two([Handle(B, Flags(true, false, 1), Live, {Op(1)}, 2)], [], 0, 14, map[B.Id() := 0], Some(1),
                          PinSub(0, 6, false, FromRelease(false)), AddUsage(0, true), map[], 1, [(0, 1)], 0)
  const S30: State := Two([Handle(B, Flags(true, false, 1), Live, {Op(1)}, 2)], [], 8, 14, map[B.Id() := 0], Some(1),
                          PinSub(0, 6, false, FromRelease(false)), InsertDone(0, true), map[], 1, [(0, 1)], 0)
  const S31: State := Two([Handle(B, Flags(true, false, 1), Live, {Ext(1)}, 2)], [], 8, 14, map[B.Id() := 0], None,
                          PinSub(0, 6, false, FromRelease(false)), Idle, map[1 := Grant(0, 2, B, WantKey(B.Id()))],
                              2, [(0, 1)], 0)
  const S32: State := Two([Handle(B, Flags(true, false, 1), Live, {Ext(1)}, 2)], [], 8, 6, map[B.Id() := 0], None,
                          Idle, Idle, map[1 := Grant(0, 2, B, WantKey(B.Id()))], 2, [(0, 1)], -2)

  /** Thread 0 inserts A and asks to keep it. */
  lemma InsertEvictsFirst()
    requires Reached(S0)
    ensures Reached(S1)
  {
    Then(S0, 0, Insert(A, true), S1);
  }

  lemma InsertEvicts()
    requires Reached(S0)
    ensures Reached(S3)
  {
    InsertEvictsFirst();
    Then(S1, 0, Skip, S2);
    Then(S2, 0, Skip, S3);
  }

  lemma InsertPublishesFirst()
    requires Reached(S3)
    ensures Reached(S4)
  {
    Then(S3, 0, Skip, S4);
  }

  lemma InsertFills()
    requires Reached(S4)
    ensures Reached(S5)
  {
    Then(S4, 0, Skip, S4Keyed);
    Then(S4Keyed, 0, Skip, S5);
  }

  lemma InsertPublishes()
    requires Reached(S3)
    ensures Reached(S6)
  {
    InsertPublishesFirst();
    InsertFills();
    Then(S5, 0, Skip, S6);
  }

  lemma InsertBindsFirst()
    requires Reached(S6)
    ensures Reached(S7)
  {
    Then(S6, 0, Skip, S7);
  }

  lemma InsertBinds()
    requires Reached(S6)
    ensures Reached(S9)
  {
    InsertBindsFirst();
    Then(S7, 0, Skip, S8);
    Then(S8, 0, Skip, S9);
  }

  lemma InsertReturns()
    requires Reached(S9)
    ensures Reached(S11)
  {
    Then(S9, 0, Skip, S10);
    assert {Op(0)} - {Op(0)} + {Ext(0)} == {Ext(0)};
    Then(S10, 0, Skip, S11);
  }

  /** Thread 0 releases A and drops the last reference, but has not read the charge yet. */
  lemma ReleaseDropsFirst()
    requires Reached(S11)
    ensures Reached(S12)
  {
    assert {Ext(0)} - {Ext(0)} + {Op(0)} == {Op(0)} && S11.grants - {0} == map[];
    Then(S11, 0, Release(0, false), S12);
  }

  lemma ReleaseMarks()
    requires Reached(S12)
    ensures Reached(S13)
  {
    Then(S12, 0, Skip, S13);
  }

  lemma ReleaseDrops()
    requires Reached(S11)
    ensures Reached(S14)
  {
    ReleaseDropsFirst();
    ReleaseMarks();
    assert {Op(0)} - {Op(0)} == {};
    Then(S13, 0, Skip, S14);
  }

  /** Thread 1 erases A, which recycles the handle. */
  lemma EraseFindsFirst()
    requires Reached(S14)
    ensures Reached(S15)
  {
    Then(S14, 1, Erase(A.Id()), S15);
  }

  lemma EraseFinds()
    requires Reached(S14)
    ensures Reached(S17)
  {
    EraseFindsFirst();
    Then(S15, 1, Skip, S16);
    Then(S16, 1, Skip, S17);
  }

  lemma EraseUnsets()
    requires Reached(S17)
    ensures Reached(S18)
  {
    Then(S17, 1, Skip, S18);
  }

  lemma EraseRecycles()
    requires Reached(S18)
    ensures Reached(S19)
  {
    Then(S18, 1, Skip, S19);
  }

  lemma EraseUnlocks()
    requires Reached(S19)
    ensures Reached(S20)
  {
    Then(S19, 1, Skip, S20);
  }

  /** Thread 1 inserts B into the same handle. */
  lemma RefillEvictsFirst()
    requires Reached(S20)
    ensures Reached(S21)
  {
    Then(S20, 1, Insert(B, true), S21);
  }

  lemma RefillEvicts()
    requires Reached(S20)
    ensures Reached(S23)
  {
    RefillEvictsFirst();
    Then(S21, 1, Skip, S22);
    Then(S22, 1, Skip, S23);
  }

  lemma RefillPublishesFirst()
    requires Reached(S23)
    ensures Reached(S24)
  {
    Then(S23, 1, Skip, S24);
  }

  lemma RefillFills()
    requires Reached(S24)
    ensures Reached(S25)
  {
    Then(S24, 1, Skip, S24Keyed);
    Then(S24Keyed, 1, Skip, S25);
  }

  lemma RefillPublishes()
    requires Reached(S23)
    ensures Reached(S26)
  {
    RefillPublishesFirst();
    RefillFills();
    Then(S25, 1, Skip, S26);
  }

  lemma RefillBindsFirst()
    requires Reached(S26)
    ensures Reached(S27)
  {
    Then(S26, 1, Skip, S27);
  }

  lemma RefillBinds()
    requires Reached(S26)
    ensures Reached(S29)
  {
    RefillBindsFirst();
    Then(S27, 1, Skip, S28);
    Then(S28, 1, Skip, S29);
  }

  /** Thread 1 finishes; then thread 0 reads the charge, which is now that of B. */
  lemma ReadIsStaleFirst()
    requires Reached(S29)
    ensures Reached(S30)
  {
    Then(S29, 1, Skip, S30);
  }

  lemma ReadIsStale()
    requires Reached(S29)
    ensures Reached(S32)
  {
    ReadIsStaleFirst();
    assert {Op(1)} - {Op(1)} + {Ext(1)} == {Ext(1)};
    Then(S30, 1, Skip, S31);
    Then(S31, 0, Skip, S32);
  }

  lemma DriftIsReached()
    ensures Reached(S32)
  {
    ErasedIsReached();
    RefillEvicts(); RefillPublishes(); RefillBinds();
    ReadIsStale();
  }

  lemma DriftIsVisible()
    ensures Quiescent(S32) && S32.pinned == 6 && SumBy(Pinned, S32.handles) == 8
  {
    assert S32.handles[..0] == [];
  }

  /**
   There is a run, of overlapping operations, after which no operation is in progress and `pinned_usage_` is wrong.
   */
  lemma PinnedUsageDrifts()
    ensures exists schedule ::
      var s := Run(Init(2), schedule); Quiescent(s) && s.pinned == 6 && SumBy(Pinned, s.handles) == 8
  {
    DriftIsReached();
    DriftIsVisible();
    var schedule :| Run(Init(2), schedule) == S32;
    assert Quiescent(Run(Init(2), schedule));
  }

  /** Thread 0 reads the total right after the handle was recycled: the key is gone, and with it its length. */
  const Shrunk: State := S20.(threads := [At(Idle), At(Idle)], pinned := 1, drift := 1)

  lemma ErasedIsReached()
    ensures Reached(S20)
  {
    assert Run(Init(2), []) == S0;
    InsertEvicts(); InsertPublishes(); InsertBinds(); InsertReturns();
    ReleaseDrops();
    EraseFinds(); EraseUnsets(); EraseRecycles(); EraseUnlocks();
  }

  lemma ShrunkIsReached()
    ensures Reached(Shrunk)
  {
    ErasedIsReached();
    Then(S20, 0, Skip, Shrunk);
  }

  lemma ShrunkIsVisible()
    ensures Quiescent(Shrunk) && Shrunk.pinned == 1 && SumBy(Pinned, Shrunk.handles) == 0
  {
    assert Shrunk.handles[..0] == [];
  }

  /**
   Recycling alone can do it, by clearing the key: there is a run in which the only handle is filled only once, after
   which no operation is in progress, nothing is referenced, and `pinned_usage_` is not zero.
   */
  lemma PinnedUsageDriftsByRecycling()
    ensures exists schedule ::
      var s := Run(Init(2), schedule);
      Quiescent(s) && |s.handles| == 1 && s.handles[0].occupancy == 1 && s.pinned == 1
          && SumBy(Pinned, s.handles) == 0
  {
    ShrunkIsReached();
    ShrunkIsVisible();
    var schedule :| Run(Init(2), schedule) == Shrunk;
    assert Quiescent(Run(Init(2), schedule));
  }

  /**
   There is a run after which the handle in the bin has its usage bit set: a Release set it, and an Erase recycled the
   handle as it was.
   */
  lemma BinnedWithUsageBit()
    ensures exists schedule ::
      var s := Run(Init(2), schedule);
      s.recycle == [0] && |s.handles| == 1 && s.handles[0].flags == Flags(false, true, 0)
  {
    ErasedIsReached();
    var schedule :| Run(Init(2), schedule) == S20;
    assert S20.recycle == [0];
  }
}
