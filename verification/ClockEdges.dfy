/** The control flow of the CLOCK cache: which point of the code an action leads to. */
module ClockEdges {
  import opened Basics
  import opened ClockModel

  /** Where UnsetInCache and RecycleHandle lead back to. */
  predicate Resumed(after: After, next: Pc) {
    match after
    case ThenUnlock => next.Unlock?
    case ThenInsert(n, hold) => next == TableInsert(n, hold)
    case ThenClear(k) => next == ClearLoop(k)
    case ThenEvict(ev, _, _) => next == Evicted(ev, false) || (next.EvictTest? && next.ev == ev)
  }

  predicate RefEdge(pc: Pc, next: Pc) {
    match pc
    case RefLoad(i, want) => next.Idle? || (next.RefCas? && next.i == i && next.want == want)
    case RefCas(i, _, want) =>
      || next.Idle? || (next.RefCas? && next.i == i && next.want == want)
      || (next.PinAdd? && next.i == i && next.want == want) || next == Check(i, want)
    case PinAdd(i, _, want) => next == Check(i, want)
    case Check(i, _) => next.Idle? || next == Drop(i, FromLookup)
    case _ => false
  }

  predicate UnrefEdge(pc: Pc, next: Pc) {
    match pc
    case SetUsage(i, _) => next.Drop? && next.i == i
    case Drop(i, _) => next.Idle? || next.ReadHash? || (next.PinSub? && next.i == i)
    case PinSub(_, _, _, _) => next.Idle? || next.ReadHash? || next.Lock?
    case ReadHash(_) => next.Lock?
    case Lock(_) =>
      next == pc || next.EvictStart? || next.EraseFind? || next == ClearLoop(0)
          || (next.Recycle? && next.after.ThenUnlock?)
    case _ => false
  }

  predicate EvictEdge(pc: Pc, next: Pc) {
    match pc
    case EvictStart(ev) => (next.Evicted? && next.ev == ev) || (next.EvictTest? && next.ev == ev)
    case EvictTest(ev, at, second, usage) => next == EvictCas(ev, at, second, usage) || next == Evicted(ev, true)
    case EvictCas(ev, at, second, usage) => next == EvictErase(ev, at, second)
        || next == EvictClear(ev, at, second, usage)
    case EvictClear(ev, _, _, usage) =>
      next == Evicted(ev, false) || (next.EvictTest? && next.ev == ev && next.usage == usage)
    case EvictErase(ev, at, second) => next == Recycle(at, ThenEvict(ev, at, second))
    case Evicted(ev, _) => next.Unlock? || (ev.ForInsert? && next.Fill? && next.e == ev.e)
    case _ => false
  }

  predicate FileEdge(pc: Pc, next: Pc) {
    match pc
    case Fill(n, e, hold, keyed) => next == if keyed then Publish(n, hold) else Fill(n, e, hold, true)
    case Publish(n, hold) => next == FindOld(n, hold)
    case FindOld(n, hold) => next == TableInsert(n, hold) || (next.Unset? && next.after == ThenInsert(n, hold))
    case TableInsert(n, hold) => (next == PinInsert(n) && hold) || next == AddUsage(n, hold)
    case PinInsert(n) => next == AddUsage(n, true)
    case AddUsage(n, hold) => next == InsertDone(n, hold)
    case InsertDone(_, _) => next.Idle?
    case _ => false
  }

  predicate EraseEdge(pc: Pc, next: Pc) {
    match pc
    case EraseFind(_) => next.Unlock? || (next.Unset? && next.after == ThenUnlock)
    case ClearLoop(k) => next.Unlock? || next == Unset(k, ThenClear(k + 1))
    case Unset(i, after) => next == Recycle(i, after) || Resumed(after, next)
    case Recycle(_, after) => Resumed(after, next)
    case Unlock => next.Idle?
    case _ => false
  }

  predicate Edge(pc: Pc, next: Pc) {
    RefEdge(pc, next) || UnrefEdge(pc, next) || EvictEdge(pc, next) || FileEdge(pc, next) || EraseEdge(pc, next)
  }

  /** One thread moved. */
  predicate Moved(s: State, s': State, t: Tid) {
    t < |s.threads| == |s'.threads| && s'.threads == s.threads[t := s'.threads[t]]
  }

  lemma RefMoves(s: State, t: Tid)
    requires t < |s.threads| && InRange(s, s.threads[t].pc)
    requires var pc := s.threads[t].pc; pc.RefLoad? || pc.RefCas? || pc.PinAdd? || pc.Check?
    ensures Moved(s, Act(s, t), t) && RefEdge(s.threads[t].pc, Act(s, t).threads[t].pc)
  {
    var pc := s.threads[t].pc;
    if pc.RefLoad? {} else if pc.RefCas? {} else if pc.PinAdd? {} else {}
  }

  lemma UnrefMoves(s: State, t: Tid)
    requires t < |s.threads| && InRange(s, s.threads[t].pc)
    requires var pc := s.threads[t].pc; pc.SetUsage? || pc.Drop? || pc.PinSub? || pc.ReadHash? || pc.Lock?
    ensures Moved(s, Act(s, t), t) && UnrefEdge(s.threads[t].pc, Act(s, t).threads[t].pc)
  {
    var pc := s.threads[t].pc;
    if pc.SetUsage? {} else if pc.Drop? {} else if pc.PinSub? {} else if pc.ReadHash? {} else {}
  }

  lemma EvictMoves(s: State, t: Tid)
    requires t < |s.threads| && InRange(s, s.threads[t].pc)
    requires var pc := s.threads[t].pc; pc.EvictStart? || pc.EvictTest? || pc.EvictCas?
    ensures Moved(s, Act(s, t), t) && EvictEdge(s.threads[t].pc, Act(s, t).threads[t].pc)
  {
    var pc := s.threads[t].pc;
    if pc.EvictStart? {} else if pc.EvictTest? {} else {}
  }

  lemma EvictMovesOn(s: State, t: Tid)
    requires t < |s.threads| && InRange(s, s.threads[t].pc)
    requires var pc := s.threads[t].pc; pc.EvictClear? || pc.EvictErase? || pc.Evicted?
    ensures Moved(s, Act(s, t), t) && EvictEdge(s.threads[t].pc, Act(s, t).threads[t].pc)
  {
    var pc := s.threads[t].pc;
    if pc.EvictClear? {} else if pc.EvictErase? {} else {}
  }

  lemma FileMoves(s: State, t: Tid)
    requires t < |s.threads| && InRange(s, s.threads[t].pc)
    requires var pc := s.threads[t].pc; pc.Fill? || pc.Publish? || pc.FindOld? || pc.TableInsert?
    ensures Moved(s, Act(s, t), t) && FileEdge(s.threads[t].pc, Act(s, t).threads[t].pc)
  {
    var pc := s.threads[t].pc;
    if pc.Fill? {} else if pc.Publish? {} else if pc.FindOld? {} else {}
  }

  lemma FileMovesOn(s: State, t: Tid)
    requires t < |s.threads| && InRange(s, s.threads[t].pc)
    requires var pc := s.threads[t].pc; pc.PinInsert? || pc.AddUsage? || pc.InsertDone?
    ensures Moved(s, Act(s, t), t) && FileEdge(s.threads[t].pc, Act(s, t).threads[t].pc)
  {
    var pc := s.threads[t].pc;
    if pc.PinInsert? {} else if pc.AddUsage? {} else {}
  }

  lemma EraseMoves(s: State, t: Tid)
    requires t < |s.threads| && InRange(s, s.threads[t].pc)
    requires var pc := s.threads[t].pc; pc.EraseFind? || pc.ClearLoop? || pc.Unset? || pc.Recycle? || pc.Unlock?
    ensures Moved(s, Act(s, t), t) && EraseEdge(s.threads[t].pc, Act(s, t).threads[t].pc)
  {
    var pc := s.threads[t].pc;
    if pc.EraseFind? {} else if pc.ClearLoop? {} else if pc.Unset? {} else if pc.Recycle? {} else {}
  }

  /** An action moves one thread only, along an edge. */
  lemma ActMoves(s: State, t: Tid)
    requires t < |s.threads| && InRange(s, s.threads[t].pc) && !s.threads[t].pc.Idle?
    ensures Moved(s, Act(s, t), t) && Edge(s.threads[t].pc, Act(s, t).threads[t].pc)
  {
    var pc := s.threads[t].pc;
    if pc.RefLoad? || pc.RefCas? || pc.PinAdd? || pc.Check? { RefMoves(s, t); }
    else if pc.SetUsage? || pc.Drop? || pc.PinSub? || pc.ReadHash? || pc.Lock? { UnrefMoves(s, t); }
    else if pc.EvictStart? || pc.EvictTest? || pc.EvictCas? { EvictMoves(s, t); }
    else if pc.EvictClear? || pc.EvictErase? || pc.Evicted? { EvictMovesOn(s, t); }
    else if pc.Fill? || pc.Publish? || pc.FindOld? || pc.TableInsert? { FileMoves(s, t); }
    else if pc.PinInsert? || pc.AddUsage? || pc.InsertDone? { FileMovesOn(s, t); }
    else { EraseMoves(s, t); }
  }

  /** Where a call starts. */
  predicate Entrance(pc: Pc) { pc.Idle? || pc.RefLoad? || pc.SetUsage? || pc.Lock? }

  lemma StartMoves(s: State, t: Tid, call: Call)
    requires t < |s.threads| && Callable(s, call) && s.threads[t].pc.Idle?
    ensures Moved(s, Start(s, t, call), t) && Entrance(Start(s, t, call).threads[t].pc)
  {}

  /** A step moves at most the thread it is a step of. */
  lemma StepMoves(s: State, t: Tid, call: Call)
    requires t < |s.threads|
    ensures var s' := Step(s, t, call);
      && Moved(s, s', t)
      && (s'.threads[t].pc == s.threads[t].pc || (s.threads[t].pc.Idle? && Entrance(s'.threads[t].pc))
          || Edge(s.threads[t].pc, s'.threads[t].pc))
  {
    if s.threads[t].pc.Idle? {
      if Callable(s, call) { StartMoves(s, t, call); }
    } else if InRange(s, s.threads[t].pc) {
      ActMoves(s, t);
    }
  }

  /** Only Ref and Lookup lead on to their own points. */
  lemma ToRef(pc: Pc, next: Pc)
    requires Edge(pc, next) && (next.RefLoad? || next.RefCas? || next.PinAdd? || next.Check?)
    ensures RefEdge(pc, next)
  {}

  // ---- the drift

  lemma RefDrifts(s: State, t: Tid)
    requires t < |s.threads| && InRange(s, s.threads[t].pc)
    requires var pc := s.threads[t].pc; pc.RefLoad? || pc.RefCas? || pc.PinAdd? || pc.Check? || pc.SetUsage?
    ensures Act(s, t).drift == s.drift
  {
    var pc := s.threads[t].pc;
    if pc.RefLoad? {} else if pc.RefCas? {} else if pc.PinAdd? {} else if pc.Check? {} else {}
  }

  lemma UnrefDrifts(s: State, t: Tid)
    requires t < |s.threads| && InRange(s, s.threads[t].pc)
    requires var pc := s.threads[t].pc; pc.Drop? || pc.ReadHash? || pc.Lock?
    ensures Act(s, t).drift == s.drift
  {
    var pc := s.threads[t].pc;
    if pc.Drop? {} else if pc.ReadHash? {} else {}
  }

  lemma EvictDrifts(s: State, t: Tid)
    requires t < |s.threads| && InRange(s, s.threads[t].pc)
    requires var pc := s.threads[t].pc;
      pc.EvictStart? || pc.EvictTest? || pc.EvictCas? || pc.EvictClear? || pc.EvictErase? || pc.Evicted?
    ensures Act(s, t).drift == s.drift
  {
    var pc := s.threads[t].pc;
    if pc.EvictStart? {} else if pc.EvictTest? {} else if pc.EvictCas? {} else if pc.EvictClear? {}
    else if pc.EvictErase? {} else {}
  }

  lemma FileDrifts(s: State, t: Tid)
    requires t < |s.threads| && InRange(s, s.threads[t].pc)
    requires var pc := s.threads[t].pc;
      pc.Fill? || pc.Publish? || pc.FindOld? || pc.TableInsert? || pc.PinInsert? || pc.AddUsage? || pc.InsertDone?
    ensures Act(s, t).drift == s.drift
  {
    var pc := s.threads[t].pc;
    if pc.Fill? {} else if pc.Publish? {} else if pc.FindOld? {} else if pc.TableInsert? {} else if pc.PinInsert? {}
    else if pc.AddUsage? {} else {}
  }

  lemma EraseDrifts(s: State, t: Tid)
    requires t < |s.threads| && InRange(s, s.threads[t].pc)
    requires var pc := s.threads[t].pc; pc.EraseFind? || pc.ClearLoop? || pc.Unset? || pc.Recycle? || pc.Unlock?
    ensures Act(s, t).drift == s.drift
  {
    var pc := s.threads[t].pc;
    if pc.EraseFind? {} else if pc.ClearLoop? {} else if pc.Unset? {} else if pc.Recycle? {} else {}
  }

  /** Only the read after the last reference is dropped can record drift. */
  lemma OnlyPinSubDrifts(s: State, t: Tid)
    requires t < |s.threads| && InRange(s, s.threads[t].pc) && !s.threads[t].pc.Idle? && !s.threads[t].pc.PinSub?
    ensures Act(s, t).drift == s.drift
  {
    var pc := s.threads[t].pc;
    if pc.RefLoad? || pc.RefCas? || pc.PinAdd? || pc.Check? || pc.SetUsage? { RefDrifts(s, t); }
    else if pc.Drop? || pc.ReadHash? || pc.Lock? { UnrefDrifts(s, t); }
    else if pc.EraseFind? || pc.ClearLoop? || pc.Unset? || pc.Recycle? || pc.Unlock? { EraseDrifts(s, t); }
    else if pc.EvictStart? || pc.EvictTest? || pc.EvictCas? || pc.EvictClear? || pc.EvictErase?
        || pc.Evicted? { EvictDrifts(s, t); }
    else { FileDrifts(s, t); }
  }

  /** And only dropping a reference leads to that read. */
  lemma ToPinSub(pc: Pc, next: Pc)
    requires Edge(pc, next) && next.PinSub?
    ensures pc.Drop?
  {}
}
