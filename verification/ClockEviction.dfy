/**
 EvictFromCache of the CLOCK cache run by itself, with no other thread: the hand goes round the circular list,
 gives every recently used entry a second chance, and stops after two rounds at the latest.
 */
module ClockEviction {
  import opened Basics
  import opened Seals
  import opened ClockModel
  import opened Sums

  /** A handle: its entry and its flags word. */
  datatype Slot = Slot(entry: Entry, flags: Flags)

  const Evictable := Flags(true, false, 0)

  function Counted(s: Slot): int { if s.flags.inCache || s.flags.refs > 0 then s.entry.Total() else 0 }

  predicate Unused(s: Slot) { !s.flags.inCache && s.flags.refs == 0 }

  /** What a turn leaves in the slot it examined. */
  function Examined(s: Slot): Slot {
    if s.flags == Evictable then Slot(s.entry.(key := "", value := 0), Flags(false, false, 0))
    else s.(flags := s.flags.(usage := false))
  }

  ghost predicate Consistent(list: seq<Slot>, recycle: seq<nat>, usage: int, table: map<CacheKey, nat>) {
    forall seal: Seal :: Agrees(seal, list, recycle, usage, table)
  }

  ghost predicate Agrees(seal: Seal, list: seq<Slot>, recycle: seq<nat>, usage: int, table: map<CacheKey, nat>) {
    && usage == SumBy(Counted, list)
    && (forall j :: 0 <= j < |recycle| ==> recycle[j] < |list| && Unused(list[recycle[j]]))
    && (forall id :: id in table ==>
        table[id] < |list| && list[table[id]].flags.inCache && list[table[id]].entry.Id() == id)
    && (forall i :: 0 <= i < |list| && list[i].flags.inCache ==>
        list[i].entry.Id() in table && table[list[i].entry.Id()] == i)
  }

  lemma EvictKeeps(list: seq<Slot>, recycle: seq<nat>, usage: int, table: map<CacheKey, nat>, i: nat)
    requires Consistent(list, recycle, usage, table) && i < |list| && list[i].flags == Evictable
    ensures Consistent(list[i := Examined(list[i])], recycle + [i], usage - list[i].entry.Total(),
      table - {list[i].entry.Id()})
  {
    assert Agrees(Seal, list, recycle, usage, table);
    SumUpdate(Counted, list, i, Examined(list[i]));
  }

  lemma PassKeeps(list: seq<Slot>, recycle: seq<nat>, usage: int, table: map<CacheKey, nat>, i: nat)
    requires Consistent(list, recycle, usage, table) && i < |list| && list[i].flags != Evictable
    ensures Consistent(list[i := Examined(list[i])], recycle, usage, table)
  {
    assert Agrees(Seal, list, recycle, usage, table);
    SumUpdate(Counted, list, i, Examined(list[i]));
  }

  /** Where the hand is after `k` turns, at most two rounds. */
  function Hand(start: nat, k: nat, n: nat): (at: nat)
    requires start < n && k <= 2 * n
    ensures at < n
  {
    if start + k < n then start + k else if start + k < 2 * n then start + k - n else start + k - 2 * n
  }

  /** After `k` turns: no slot passed once keeps its usage bit, and none passed twice is cached without a reference. */
  ghost predicate Swept(list: seq<Slot>, start: nat, k: nat)
    requires start < |list| && k <= 2 * |list|
  {
    && (forall j :: 0 <= j < k && j < |list| ==> !list[Hand(start, j, |list|)].flags.usage)
    && (forall j :: 0 <= j < k - |list| ==> list[Hand(start, j, |list|)].flags.inCache ==>
        list[Hand(start, j, |list|)].flags.refs > 0)
  }

  lemma SweptTurn(list: seq<Slot>, start: nat, k: nat)
    requires start < |list| && k < 2 * |list| && Swept(list, start, k)
    ensures var at := Hand(start, k, |list|); Swept(list[at := Examined(list[at])], start, k + 1)
  {}

  lemma SweptAll(list: seq<Slot>, start: nat)
    requires start < |list| && Swept(list, start, 2 * |list|)
    ensures forall i :: 0 <= i < |list| && list[i].flags.inCache ==> list[i].flags.refs > 0
  {
    forall i | 0 <= i < |list| && list[i].flags.inCache ensures list[i].flags.refs > 0 {
      var j := if i >= start then i - start else i + |list| - start;
      assert Hand(start, j, |list|) == i;
    }
  }

  /** What turns may do to a slot: clear its usage bit, or evict it if it is cached and unreferenced. */
  predicate Survives(before: Slot, after: Slot) {
    after.entry == before.entry && after.flags.inCache == before.flags.inCache && after.flags.refs == before.flags.refs
  }

  predicate Evicts(before: Slot, after: Slot) {
    before.flags.inCache && before.flags.refs == 0 && Unused(after)
  }

  ghost predicate OnlyEvicted(before: seq<Slot>, after: seq<Slot>) {
    && |before| == |after|
    && forall i :: 0 <= i < |before| ==> Survives(before[i], after[i]) || Evicts(before[i], after[i])
  }

  lemma OnlyEvictedTwice(a: seq<Slot>, b: seq<Slot>, c: seq<Slot>)
    requires OnlyEvicted(a, b) && OnlyEvicted(b, c)
    ensures OnlyEvicted(a, c)
  {
    forall i | 0 <= i < |a| ensures Survives(a[i], c[i]) || Evicts(a[i], c[i]) {
      assert Survives(a[i], b[i]) || Evicts(a[i], b[i]);
      assert Survives(b[i], c[i]) || Evicts(b[i], c[i]);
    }
  }

  /** How a run of the loop ends: the list and the usage it leaves, the turns it took, and its answer. */
  datatype Outcome = Outcome(list: seq<Slot>, usage: int, turns: nat, ok: bool)

  function UsageAfter(list: seq<Slot>, usage: int, at: nat): int
    requires at < |list|
  {
    if list[at].flags == Evictable then usage - list[at].entry.Total() else usage
  }

  /** The loop of EvictFromCache, from its turn `k` on. */
  function Turns(list: seq<Slot>, usage: int, charge: nat, capacity: nat, start: nat, k: nat): Outcome
    requires start < |list| && k < 2 * |list|
    decreases 2 * |list| - k
  {
    if usage + charge <= capacity then Outcome(list, usage, k, true)
    else
      var at := Hand(start, k, |list|);
      var list', usage' := list[at := Examined(list[at])], UsageAfter(list, usage, at);
      if k + 1 == 2 * |list| then Outcome(list', usage', k + 1, false)
      else Turns(list', usage', charge, capacity, start, k + 1)
  }

  /**
   The loop stops within two rounds. True means that the charge fits; false means that both rounds were made and
   every entry still in cache is referenced. Nothing happens to the list but cleared usage bits and evictions of
   unreferenced entries.
   */
  lemma {:induction false} EvictionOutcome(list: seq<Slot>, usage: int, charge: nat, capacity: nat, start: nat, k: nat)
    requires start < |list| && k < 2 * |list| && Swept(list, start, k)
    ensures var r := Turns(list, usage, charge, capacity, start, k);
      && k <= r.turns <= 2 * |list| && OnlyEvicted(list, r.list)
      && (r.ok ==> r.usage + charge <= capacity)
      && (!r.ok ==> r.turns == 2 * |list| && forall i :: 0 <= i < |list| && r.list[i].flags.inCache ==>
          r.list[i].flags.refs > 0)
    decreases 2 * |list| - k
  {
    if usage + charge > capacity {
      var at := Hand(start, k, |list|);
      var list' := list[at := Examined(list[at])];
      SweptTurn(list, start, k);
      assert OnlyEvicted(list, list');
      if k + 1 == 2 * |list| {
        SweptAll(list', start);
      } else {
        EvictionOutcome(list', UsageAfter(list, usage, at), charge, capacity, start, k + 1);
        OnlyEvictedTwice(list, list', Turns(list', UsageAfter(list, usage, at), charge, capacity, start, k + 1).list);
      }
    }
  }

  /** Second chance: a run of at most one round evicts no entry that was used since its last examination. */
  lemma {:induction false} SecondChance(list: seq<Slot>, usage: int, charge: nat, capacity: nat, start: nat, k: nat,
                                        i: nat)
    requires start < |list| && k < 2 * |list| && i < |list| && list[i].flags.inCache && list[i].flags.usage
    requires Turns(list, usage, charge, capacity, start, k).turns <= |list|
    requires forall j :: 0 <= j < k && j < |list| ==> Hand(start, j, |list|) != i
    ensures var r := Turns(list, usage, charge, capacity, start, k);
      i < |r.list| && r.list[i].flags.inCache && r.list[i].entry == list[i].entry
          && r.list[i].flags.refs == list[i].flags.refs
    decreases 2 * |list| - k
  {
    if usage + charge > capacity {
      var at := Hand(start, k, |list|);
      var list' := list[at := Examined(list[at])];
      if k + 1 < 2 * |list| {
        if at == i {
          KeptUntil(list', UsageAfter(list, usage, at), charge, capacity, start, k + 1, i, k);
        } else {
          SecondChance(list', UsageAfter(list, usage, at), charge, capacity, start, k + 1, i);
        }
      }
    }
  }

  /** Once examined, a slot is not examined again before the round is over. */
  lemma {:induction false} KeptUntil(list: seq<Slot>, usage: int, charge: nat, capacity: nat, start: nat, k: nat,
                                     i: nat, seen: nat)
    requires start < |list| && seen < k < 2 * |list| && i == Hand(start, seen, |list|)
    requires Turns(list, usage, charge, capacity, start, k).turns <= |list|
    ensures i < |Turns(list, usage, charge, capacity, start, k).list|
    ensures Turns(list, usage, charge, capacity, start, k).list[i] == list[i]
    decreases 2 * |list| - k
  {
    if usage + charge > capacity && k + 1 < 2 * |list| {
      var at := Hand(start, k, |list|);
      TurnsGrow(list, usage, charge, capacity, start, k);
      assert at != i;
      KeptUntil(list[at := Examined(list[at])], UsageAfter(list, usage, at), charge, capacity, start, k + 1, i, seen);
    }
  }

  lemma {:induction false} TurnsGrow(list: seq<Slot>, usage: int, charge: nat, capacity: nat, start: nat, k: nat)
    requires start < |list| && k < 2 * |list|
    ensures var r := Turns(list, usage, charge, capacity, start, k);
      |r.list| == |list| && r.turns >= if usage + charge > capacity then k + 1 else k
    decreases 2 * |list| - k
  {
    if usage + charge > capacity && k + 1 < 2 * |list| {
      var at := Hand(start, k, |list|);
      TurnsGrow(list[at := Examined(list[at])], UsageAfter(list, usage, at), charge, capacity, start, k + 1);
    }
  }

  // ---- the exact answer

  /** The charge of a slot that no number of turns can evict. */
  function Held(s: Slot): int { if s.flags.refs > 0 then s.entry.Total() else 0 }

  /** A slot after it has been examined a number of times. */
  function Visited(s: Slot, times: nat): Slot { if times == 0 then s else Examined(Visited(s, times - 1)) }

  /** How far the slot is ahead of the hand. */
  function Ahead(start: nat, i: nat, n: nat): (j: nat)
    requires start < n && i < n
    ensures j < n && Hand(start, j, n) == i
  {
    if i >= start then i - start else i + n - start
  }

  /** How often a slot this far ahead has been examined within the first `k` turns. */
  function Visits(j: nat, k: nat, n: nat): nat { (if k > j then 1 else 0) + if k > j + n then 1 else 0 }

  /** The list after `k` turns that nothing stops. */
  ghost predicate SweptFor(before: seq<Slot>, after: seq<Slot>, start: nat, k: nat)
    requires start < |before|
  {
    && |after| == |before|
    && forall i :: 0 <= i < |before| ==> after[i] == Visited(before[i], Visits(Ahead(start, i, |before|), k, |before|))
  }

  lemma SweptForTurn(before: seq<Slot>, after: seq<Slot>, start: nat, k: nat)
    requires start < |before| && k < 2 * |before| && SweptFor(before, after, start, k)
    ensures var at := Hand(start, k, |before|); SweptFor(before, after[at := Examined(after[at])], start, k + 1)
  {
    var n := |before|;
    var at := Hand(start, k, n);
    assert Visited(before[at], 2) == Examined(Visited(before[at], 1));
    forall i | 0 <= i < n && i != at ensures Visits(Ahead(start, i, n), k, n) == Visits(Ahead(start, i, n), k + 1, n) {}
  }

  /** The usage that is left when only the slot just behind the hand has been examined once, and the others twice. */
  function Unavoidable(list: seq<Slot>, start: nat): int
    requires start < |list|
  {
    SumBy(Held, list) + LastChance(list, start)
  }

  /** The slot just behind the hand is spared by the first round if it was used, and comes too late in the second. */
  function LastChance(list: seq<Slot>, start: nat): nat
    requires start < |list|
  {
    var last := list[Hand(start, |list| - 1, |list|)];
    if last.flags == Flags(true, true, 0) then last.entry.Total() else 0
  }

  lemma VisitedTwice(s: Slot)
    ensures Counted(Visited(s, 2)) == Held(s)
    ensures Counted(Visited(s, 1)) == Held(s) + if s.flags == Flags(true, true, 0) then s.entry.Total() else 0
  {
    assert Visited(s, 1) == Examined(s) && Visited(s, 2) == Examined(Examined(s));
  }

  /** Before the last turn of the second round, exactly the unavoidable usage is left; after it, what is referenced. */
  lemma LeftAtTheEnd(before: seq<Slot>, after: seq<Slot>, start: nat)
    requires start < |before| && SweptFor(before, after, start, 2 * |before| - 1)
    ensures SumBy(Counted, after) == Unavoidable(before, start)
    ensures var last := Hand(start, |before| - 1, |before|);
      SumBy(Counted, after[last := Examined(after[last])]) == SumBy(Held, before)
  {
    var n := |before|;
    var last := Hand(start, n - 1, n);
    var all := after[last := Examined(after[last])];
    assert Hand(start, 2 * n - 1, n) == last;
    SweptForTurn(before, after, start, 2 * n - 1);
    forall i | 0 <= i < n ensures Counted(all[i]) == Held(before[i]) { VisitedTwice(before[i]); }
    SumSame(Counted, all, Held, before);
    SumUpdate(Counted, after, last, Examined(after[last]));
    VisitedTwice(before[last]);
  }

  /** A turn never raises the usage, and keeps it the charge of the slots in use. */
  lemma TurnUsage(list: seq<Slot>, at: nat)
    requires at < |list|
    ensures SumBy(Counted, list[at := Examined(list[at])]) ==
      UsageAfter(list, SumBy(Counted, list), at) <= SumBy(Counted, list)
  {
    SumUpdate(Counted, list, at, Examined(list[at]));
  }

  /** What is true of the loop from its turn `k` on, with the list swept so far. */
  ghost predicate Answers(before: seq<Slot>, list: seq<Slot>, charge: nat, capacity: nat, start: nat, k: nat)
    requires start < |before| && start < |list| && k < 2 * |list|
  {
    forall seal: Seal :: AnswersRight(seal, before, list, charge, capacity, start, k)
  }

  ghost predicate AnswersRight(seal: Seal, before: seq<Slot>, list: seq<Slot>, charge: nat, capacity: nat, start: nat,
                               k: nat)
    requires start < |before| && start < |list| && k < 2 * |list|
  {
    var r := Turns(list, SumBy(Counted, list), charge, capacity, start, k);
    && Unavoidable(before, start) <= SumBy(Counted, list)
    && (r.ok <==> Unavoidable(before, start) + charge <= capacity)
    && (!r.ok ==> r.usage == SumBy(Held, before))
  }

  lemma AnswersLast(before: seq<Slot>, list: seq<Slot>, charge: nat, capacity: nat, start: nat)
    requires start < |before| == |list| && SweptFor(before, list, start, 2 * |before| - 1)
    ensures Answers(before, list, charge, capacity, start, 2 * |before| - 1)
  {
    var at := Hand(start, 2 * |list| - 1, |list|);
    assert at == Hand(start, |before| - 1, |before|);
    LeftAtTheEnd(before, list, start);
    TurnUsage(list, at);
  }

  lemma AnswersOn(before: seq<Slot>, list: seq<Slot>, charge: nat, capacity: nat, start: nat, k: nat)
    requires start < |before| == |list| && k + 1 < 2 * |before|
    requires var at := Hand(start, k, |list|);
      Answers(before, list[at := Examined(list[at])], charge, capacity, start, k + 1)
    ensures Answers(before, list, charge, capacity, start, k)
  {
    var at := Hand(start, k, |list|);
    TurnUsage(list, at);
    assert AnswersRight(Seal, before, list[at := Examined(list[at])], charge, capacity, start, k + 1);
  }

  lemma {:induction false} AnswerFrom(before: seq<Slot>, list: seq<Slot>, charge: nat, capacity: nat, start: nat,
                                      k: nat)
    requires start < |before| && k < 2 * |before| && SweptFor(before, list, start, k)
    ensures Answers(before, list, charge, capacity, start, k)
    decreases 2 * |before| - k
  {
    if k + 1 == 2 * |before| {
      AnswersLast(before, list, charge, capacity, start);
    } else {
      var at := Hand(start, k, |list|);
      SweptForTurn(before, list, start, k);
      AnswerFrom(before, list[at := Examined(list[at])], charge, capacity, start, k + 1);
      AnswersOn(before, list, charge, capacity, start, k);
    }
  }

  /**
   The answer is true exactly if the charge fits beside the referenced entries and, if the slot just behind the hand
   is cached, unreferenced and used, beside that one too. A false answer leaves the referenced entries only.
   */
  lemma ExactAnswer(list: seq<Slot>, usage: int, charge: nat, capacity: nat, start: nat)
    requires start < |list| && usage == SumBy(Counted, list)
    ensures var r := Turns(list, usage, charge, capacity, start, 0);
      && (r.ok <==> Unavoidable(list, start) + charge <= capacity)
      && (!r.ok ==> r.usage == SumBy(Held, list))
  {
    AnswerFrom(list, list, charge, capacity, start, 0);
    assert AnswersRight(Seal, list, list, charge, capacity, start, 0);
  }

  /**
   A request is refused although its charge fits by then exactly if the slot just behind the hand is cached,
   unreferenced and used, and the charge fits only without it: the last turn makes the room, too late to be seen.
   */
  lemma RefusedWithRoom(list: seq<Slot>, usage: int, charge: nat, capacity: nat, start: nat)
    requires start < |list| && usage == SumBy(Counted, list)
    ensures var r := Turns(list, usage, charge, capacity, start, 0);
      !r.ok && r.usage + charge <= capacity <==>
      SumBy(Held, list) + charge <= capacity < SumBy(Held, list) + charge + LastChance(list, start)
  {
    ExactAnswer(list, usage, charge, capacity, start);
  }

  /** So it is for a cache that one used entry fills. */
  lemma RoomButRefused()
    ensures var list := [Slot(Entry("a", 1, 10, 5, false), Flags(true, true, 0))];
      var r := Turns(list, 5, 5, 5, 0, 0);
      !r.ok && r.usage + 5 <= 5
  {
    var list := [Slot(Entry("a", 1, 10, 5, false), Flags(true, true, 0))];
    assert list[..0] == [] && SumBy(Counted, list) == 5 && SumBy(Held, list) == 0;
    RefusedWithRoom(list, 5, 5, 5, 0);
  }

  ghost predicate HeadsTo(seal: Seal, list: seq<Slot>, usage: int, charge: nat, capacity: nat, start: nat, k: nat,
                          goal: Outcome) {
    start < |list| && k < 2 * |list| && Turns(list, usage, charge, capacity, start, k) == goal
  }

  /** From its turn `k` on, the loop gets to this outcome. */
  ghost predicate Heads(list: seq<Slot>, usage: int, charge: nat, capacity: nat, start: nat, k: nat, goal: Outcome) {
    forall seal: Seal :: HeadsTo(seal, list, usage, charge, capacity, start, k, goal)
  }

  lemma HeadsOn(list: seq<Slot>, usage: int, charge: nat, capacity: nat, start: nat, k: nat, goal: Outcome)
    requires start < |list| && k < 2 * |list| && Heads(list, usage, charge, capacity, start, k, goal)
    ensures usage + charge <= capacity ==> goal == Outcome(list, usage, k, true)
    ensures var at := Hand(start, k, |list|);
      var list', usage' := list[at := Examined(list[at])], UsageAfter(list, usage, at);
      usage + charge > capacity ==>
        if k + 1 == 2 * |list| then goal == Outcome(list', usage', k + 1, false)
        else Heads(list', usage', charge, capacity, start, k + 1, goal)
  {
    assert HeadsTo(Seal, list, usage, charge, capacity, start, k, goal);
  }

  class Shard {
    var list: seq<Slot>
    var head: nat
    var recycle: seq<nat>
    var usage: int
    var capacity: nat
    var table: map<CacheKey, nat>

    ghost predicate Valid()
      reads this
    {
      && (head < |list| || (head == 0 && |list| == 0))
      && Consistent(list, recycle, usage, table)
    }

    constructor (capacity: nat)
      ensures Valid() && list == [] && recycle == [] && usage == 0 && this.capacity == capacity && table == map[]
    {
      list, head, recycle, usage, table := [], 0, [], 0, map[];
      this.capacity := capacity;
    }

    method TryEvict(i: nat) returns (evicted: bool)
      requires Valid() && i < |list|
      modifies this`list, this`recycle, this`usage, this`table
      ensures Valid()
      ensures evicted <==> old(list[i].flags) == Evictable
      ensures list == old(list)[i := Examined(old(list[i]))]
      ensures usage == old(usage) - (if evicted then old(list[i].entry.Total()) else 0)
      ensures recycle == if evicted then old(recycle) + [i] else old(recycle)
      ensures table == if evicted then old(table) - {old(list[i].entry.Id())} else old(table)
    {
      if list[i].flags == Evictable {
        EvictKeeps(list, recycle, usage, table, i);
        table := table - {list[i].entry.Id()};
        recycle := recycle + [i];
        usage := usage - list[i].entry.Total();
        list := list[i := Slot(list[i].entry.(key := "", value := 0), Flags(false, false, 0))];
        evicted := true;
      } else {
        PassKeeps(list, recycle, usage, table, i);
        list := list[i := list[i].(flags := list[i].flags.(usage := false))];
        evicted := false;
      }
    }

    /** Nothing is examined when nothing is charged, so entries of charge zero stay even if unreferenced. */
    method EvictFromCache(charge: nat) returns (ok: bool)
      requires Valid()
      modifies this`list, this`recycle, this`usage, this`table, this`head
      ensures Valid()
      ensures old(usage) == 0 ==> list == old(list) && usage == 0 && head == old(head) && ok == (charge <= capacity)
      ensures old(usage) != 0 ==> old(head) < |old(list)| == |list|
      ensures old(usage) != 0 ==>
        var r := Turns(old(list), old(usage), charge, capacity, old(head), 0);
        && list == r.list && usage == r.usage && ok == r.ok && r.turns <= 2 * |list|
        && head == if ok then Hand(old(head), r.turns, |list|) else old(head)
      ensures old(usage) != 0 ==> (ok <==> Unavoidable(old(list), old(head)) + charge <= capacity)
    {
      if usage == 0 {
        return charge <= capacity;
      }
      var newHead, secondIteration := head, false;
      ghost var n, k := |list|, 0;
      assert n > 0 by { assert Agrees(Seal, list, recycle, usage, table); }
      ghost var goal := Turns(list, usage, charge, capacity, head, 0);
      assert goal.ok <==> Unavoidable(list, head) + charge <= capacity by {
        assert Agrees(Seal, list, recycle, usage, table);
        ExactAnswer(list, usage, charge, capacity, head);
      }
      while usage + charge > capacity
        invariant Valid() && |list| == n && head == old(head) < n && k < 2 * n
        invariant newHead == Hand(head, k, n) && (secondIteration <==> k >= n)
        invariant Heads(list, usage, charge, capacity, head, k, goal)
        decreases 2 * n - k
      {
        HeadsOn(list, usage, charge, capacity, head, k, goal);
        var evicted := TryEvict(newHead);
        newHead := if newHead + 1 >= |list| then 0 else newHead + 1;
        k := k + 1;
        if newHead == head {
          if secondIteration {
            return false;
          }
          secondIteration := true;
        }
      }
      HeadsOn(list, usage, charge, capacity, head, k, goal);
      head := newHead;
      return true;
    }
  }

  /** With nothing charged, false says nothing about references: an entry of charge zero stays, unreferenced. */
  method ZeroChargeStays() returns (ok: bool, left: seq<Slot>)
    ensures !ok && |left| == 1 && left[0].flags == Evictable
  {
    var shard := new Shard(0);
    var e := Entry("a", 1, 10, 0, false);
    shard.list, shard.table := [Slot(e, Evictable)], map[e.Id() := 0];
    assert SumBy(Counted, shard.list) == 0 by { assert shard.list[..0] == []; }
    assert Agrees(Seal, shard.list, shard.recycle, shard.usage, shard.table);
    ok := shard.EvictFromCache(1);
    left := shard.list;
  }
}
