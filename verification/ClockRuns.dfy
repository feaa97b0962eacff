/** Two runs of the CLOCK cache in which operations that overlap see each other half done. */
module ClockRuns {
  import opened Basics
  import opened ClockModel
  import opened ClockDrift

  // ---- the strict limit, set after an insertion has read that it is off

  const Late: State := S9.(strict := true)
  const Over: State := S10.(strict := true)

  lemma LateIsReached()
    ensures Reached(Late)
  {
    assert Run(Init(2), []) == S0;
    InsertEvicts(); InsertPublishes(); InsertBinds();
    Then(S9, 1, SetStrictCapacityLimit(true), Late);
  }

  /**
   There is a run in which an insertion adds its charge while the limit is strict, and thereby raises the usage above
   the capacity: the flag was set between its reading the flag and its adding the charge.
   */
  lemma StrictSetLate()
    ensures exists schedule ::
      var s := Run(Init(2), schedule);
      && |s.threads| == 2 && s.threads[0].pc.AddUsage? && s.strict && s.usage <= s.capacity
      && Step(s, 0, Skip).strict && Step(s, 0, Skip).usage > Step(s, 0, Skip).capacity
  {
    LateIsReached();
    var schedule :| Run(Init(2), schedule) == Late;
    assert Step(Late, 0, Skip) == Over;
  }

  // ---- a Lookup during an insertion that replaces the entry of the same key

  const C := Entry("a", 1, 30, 5, true)
  const Replacing: Evictor := ForInsert(C, true)
  const Bound: map<CacheKey, nat> := map[A.Id() := 0]
  const Given: map<nat, Grant> := map[0 := Grant(0, 1, A, WantKey(A.Id()))]
  const First := Handle(A, Flags(true, false, 1), Live, {Ext(0)}, 1)

  function New(e: Entry, flags: Flags, own: Own, holders: set<Holder>): seq<Handle> {
    [First, Handle(e, flags, own, holders, 1)]
  }

  /** Thread 0 inserts C; the first handle is referenced, so that nothing is evicted. */
  function Evicting(pc: Pc): State { Two([First], [], 6, 6, Bound, Some(0), pc, Idle, Given, 1, [], 0) }

  function Filing(hs: seq<Handle>, table: map<CacheKey, nat>, pc: Pc): State {
    Two(hs, [], 6, 6, table, Some(0), pc, Idle, Given, 1, [], 0)
  }

  const R1: State := S11.(threads := [At(Lock(InsertJob(C, true))), At(Idle)])
  const R2: State := Evicting(EvictStart(Replacing))
  const R3: State := Evicting(EvictTest(Replacing, 0, false, 6))
  const R4: State := Evicting(EvictCas(Replacing, 0, false, 6))
  const R5: State := Evicting(EvictClear(Replacing, 0, false, 6))
  const R6: State := Evicting(EvictTest(Replacing, 0, true, 6))
  const R7: State := Evicting(EvictCas(Replacing, 0, true, 6))
  const R8: State := Evicting(EvictClear(Replacing, 0, true, 6))
  const R9: State := Evicting(Evicted(Replacing, false))
  const R10: State := Filing(New(Blank, Flags(false, false, 0), Filling(0), {}), Bound, Fill(1, C, true, false))
  const R10Keyed: State :=
    Filing(New(C.(charge := 0), Flags(false, false, 0), Filling(0), {}), Bound, Fill(1, C, true, true))
  const R11: State := Filing(New(C, Flags(false, false, 0), Filling(0), {}), Bound, Publish(1, true))
  const R12: State := Filing(New(C, Flags(true, false, 1), Live, {Op(0)}), Bound, FindOld(1, true))
  const R13: State := Filing(New(C, Flags(true, false, 1), Live, {Op(0)}), map[], Unset(0, ThenInsert(1, true)))

  lemma ReplaceStarts()
    requires Reached(S11)
    ensures Reached(R2)
  {
    Then(S11, 0, Insert(C, true), R1);
    Then(R1, 0, Skip, R2);
  }

  lemma ReplaceTests()
    requires Reached(R2)
    ensures Reached(R3)
  {
    Then(R2, 0, Skip, R3);
  }

  lemma ReplaceExamines()
    requires Reached(R3)
    ensures Reached(R5)
  {
    Then(R3, 0, Skip, R4);
    Then(R4, 0, Skip, R5);
  }

  lemma ReplaceExaminesAgain()
    requires Reached(R5)
    ensures Reached(R7)
  {
    Then(R5, 0, Skip, R6);
    Then(R6, 0, Skip, R7);
  }

  lemma ReplaceEvictsNothing()
    requires Reached(R7)
    ensures Reached(R9)
  {
    Then(R7, 0, Skip, R8);
    Then(R8, 0, Skip, R9);
  }

  lemma ReplaceFills()
    requires Reached(R9)
    ensures Reached(R11)
  {
    Then(R9, 0, Skip, R10);
    Then(R10, 0, Skip, R10Keyed);
    Then(R10Keyed, 0, Skip, R11);
  }

  lemma ReplaceUnbinds()
    requires Reached(R11)
    ensures Reached(R13)
  {
    Then(R11, 0, Skip, R12);
    Then(R12, 0, Skip, R13);
  }

  lemma ReplaceIsReached()
    ensures Reached(R13)
  {
    assert Run(Init(2), []) == S0;
    InsertEvicts(); InsertPublishes(); InsertBinds(); InsertReturns();
    ReplaceStarts(); ReplaceTests(); ReplaceExamines(); ReplaceExaminesAgain(); ReplaceEvictsNothing();
    ReplaceFills(); ReplaceUnbinds();
  }

  /**
   There is a run in which a Lookup answers at once that the key is not there, although two handles are in cache with
   that key: the one that an insertion is replacing, and its replacement.
   */
  lemma MissDuringReplacement()
    ensures exists schedule ::
      var s := Run(Init(2), schedule);
      && |s.threads| == 2 && s.threads[1].pc.Idle? && Step(s, 1, Lookup(A.Id())) == s
      && |s.handles| == 2
      && s.handles[0].flags.inCache && s.handles[0].entry.Id() == A.Id()
      && s.handles[1].flags.inCache && s.handles[1].entry.Id() == A.Id()
  {
    ReplaceIsReached();
    var schedule :| Run(Init(2), schedule) == R13;
    assert Step(R13, 1, Lookup(A.Id())) == R13;
  }
}
