/**
 Throttled background deletion: callers move files to the trash and queue them, and one background thread deletes
 them, large ones chunk by chunk, at a bounded rate. The threads interleave at every access to what they share.
 */
module DeleteScheduler {
  import opened Basics
  import opened Seals
  import opened Decimal

  // ---- trash sizes

  /** The bytes that a set of files holds. */
  ghost function Bytes(fs: map<string, nat>): int
    decreases |fs|
  {
    if fs == map[] then 0 else
      var f :| f in fs;
      fs[f] + Bytes(fs - {f})
  }

  lemma {:induction false} BytesSplit(fs: map<string, nat>, f: string)
    requires f in fs
    ensures Bytes(fs) == fs[f] + Bytes(fs - {f})
    decreases |fs|
  {
    var g :| g in fs && Bytes(fs) == fs[g] + Bytes(fs - {g});
    if g != f {
      BytesSplit(fs - {g}, f);
      BytesSplit(fs - {f}, g);
      assert fs - {g} - {f} == fs - {f} - {g};
    }
  }

  function Restrict(fs: map<string, nat>, names: set<string>): map<string, nat> {
    map f | f in fs && f in names :: fs[f]
  }

  /** The bytes of the named files that exist. */
  ghost function BytesOf(fs: map<string, nat>, names: set<string>): int { Bytes(Restrict(fs, names)) }

  lemma BytesAdd(fs: map<string, nat>, names: set<string>, f: string)
    requires f in fs && f !in names
    ensures BytesOf(fs, names + {f}) == BytesOf(fs, names) + fs[f]
  {
    var m := Restrict(fs, names + {f});
    BytesSplit(m, f);
    assert m - {f} == Restrict(fs, names);
  }

  /** A file among the named ones shrinks. */
  lemma BytesShrink(fs: map<string, nat>, names: set<string>, f: string, n: nat)
    requires f in fs && f in names
    ensures BytesOf(fs[f := n], names) == BytesOf(fs, names) - fs[f] + n
  {
    var m, m' := Restrict(fs, names), Restrict(fs[f := n], names);
    BytesSplit(m, f);
    BytesSplit(m', f);
    assert m - {f} == m' - {f};
  }

  lemma BytesDrop(fs: map<string, nat>, names: set<string>, f: string)
    requires f in fs && f in names
    ensures BytesOf(fs, names - {f}) == BytesOf(fs, names) - fs[f]
  {
    var m := Restrict(fs, names);
    BytesSplit(m, f);
    assert m - {f} == Restrict(fs, names - {f});
  }

  /** Files that are not named do not matter. */
  lemma BytesElsewhere(fs: map<string, nat>, fs': map<string, nat>, names: set<string>)
    requires forall f :: f in names ==> (f in fs <==> f in fs') && (f in fs ==> fs'[f] == fs[f])
    ensures BytesOf(fs', names) == BytesOf(fs, names)
  {
    assert Restrict(fs, names) == Restrict(fs', names);
  }

  // ---- the protocol

  /** A call of DeleteFile: not under way, file moved to the trash, or its size added to the total as well. */
  datatype Caller = Idle | Marked(file: string) | Counted(file: string)

  /**
   The background thread: asleep, at the head of the deletion loop, with a file to delete, after the file system calls,
   after the total is updated, and waiting out the penalty.
   */
  datatype Background =
    | Asleep
    | AtLoop
    | Picked(file: string)
    | Removed(file: string, deleted: nat, ok: bool, complete: bool)
    | Settled(file: string, deleted: nat, ok: bool, complete: bool)
    | Waiting(complete: bool, until: nat)

  /**
   `fs` is the file system, names to sizes. The last fields are history: the files that the total counts, everything
   ever queued, everything taken off the queue, everything removed from the file system by the background thread, the
   files whose deletion failed, and the bytes that failed deletions left in the total.
   */
  datatype State = State(
    fs: map<string, nat>, callers: seq<Caller>, bg: Background, queue: seq<string>, pending: int, total: int,
    rate: int, chunk: nat, closing: bool, now: nat, start: nat, deletedSoFar: nat, currentRate: int,
    counted: set<string>, log: seq<string>, done: seq<string>, gone: seq<string>, errors: seq<string>, leaked: nat)

  /** How the file system calls of a deletion go: size unknown, delete fails, directory sync fails, or all is well. */
  datatype Luck = NoSize | NoDelete | NoSync | Fine

  datatype Action =
    | DeleteNow(path: string)
    | Mark(t: nat, path: string, trash: string)
    | Count(t: nat)
    | Enqueue(t: nat)
    | Wake
    | Leave
    | Pick
    | Remove(canTruncate: bool, luck: Luck)
    | Settle
    | Pop
    | WaitOver
    | Tick(d: nat)
    | SetRate(rate: int)
    | Close

  const MicrosInSecond: nat := 1_000_000

  /** The files that a call of DeleteFile is in the middle of moving. */
  predicate InHand(callers: seq<Caller>, f: string) {
    exists t :: 0 <= t < |callers| && !callers[t].Idle? && callers[t].file == f
  }

  /** The queue without a file that is gone already. */
  function Held(s: State): seq<string> {
    if (s.bg.Removed? || s.bg.Settled?) && s.bg.complete && |s.queue| > 0 then s.queue[1..] else s.queue
  }

  /**
   Callers delete distinct files: a file is moved to a name that does not exist, or it is a trash file already and is
   not scheduled yet.
   */
  predicate Legal(s: State, a: Action) {
    match a
    case DeleteNow(path) => path !in Held(s) && !InHand(s.callers, path)
    case Mark(t, path, trash) =>
      && t < |s.callers| && s.callers[t].Idle? && path in s.fs && path !in Held(s) && !InHand(s.callers, path)
      && (trash == path || trash !in s.fs)
    case Count(t) => t < |s.callers| && s.callers[t].Marked? && s.callers[t].file in s.fs
    case Enqueue(t) => t < |s.callers| && s.callers[t].Counted?
    case Wake => s.bg.Asleep? && |s.queue| > 0 && !s.closing
    case Leave => s.bg.AtLoop? && (|s.queue| == 0 || s.closing)
    case Pick => s.bg.AtLoop? && |s.queue| > 0 && !s.closing
    case Remove(_, _) => s.bg.Picked? && s.bg.file in s.fs
    case Settle => s.bg.Removed?
    case Pop => s.bg.Settled? && |s.queue| > 0
    case WaitOver => s.bg.Waiting? && (s.closing || s.currentRate <= 0 || s.now >= s.bg.until)
    case _ => true
  }

  /** One DeleteTrashFile, up to the update of the total. */
  function RemoveFile(s: State, canTruncate: bool, luck: Luck): State
    requires s.bg.Picked? && s.bg.file in s.fs
  {
    var f := s.bg.file;
    var size := s.fs[f];
    if luck.NoSize? then Forget(s, f, size, s.fs)
    else if s.chunk != 0 && size > s.chunk && canTruncate then
      s.(fs := s.fs[f := size - s.chunk], bg := Removed(f, s.chunk, true, false))
    else if luck.NoDelete? then Forget(s, f, size, s.fs)
    else if luck.NoSync? then Forget(s, f, size, s.fs - {f}).(gone := s.gone + [f])
    else s.(fs := s.fs - {f}, bg := Removed(f, size, true, true), counted := s.counted - {f}, gone := s.gone + [f])
  }

  /** A deletion that failed: the file leaves the queue, but its bytes stay in the total. */
  function Forget(s: State, f: string, size: nat, fs: map<string, nat>): State {
    s.(fs := fs, bg := Removed(f, 0, false, true), counted := s.counted - {f}, leaked := s.leaked + size)
  }

  function Penalty(deleted: nat, rate: int): nat {
    if rate > 0 then deleted * MicrosInSecond / rate else 0
  }

  function Step(s: State, a: Action): State {
    if !Legal(s, a) then s
    else match a
      case DeleteNow(path) => s.(fs := s.fs - {path})
      case Mark(t, path, trash) =>
        s.(fs := (s.fs - {path})[trash := s.fs[path]], callers := s.callers[t := Marked(trash)])
      case Count(t) =>
        var f := s.callers[t].file;
        s.(callers := s.callers[t := Counted(f)], total := s.total + s.fs[f], counted := s.counted + {f})
      case Enqueue(t) =>
        var f := s.callers[t].file;
        s.(callers := s.callers[t := Idle], queue := s.queue + [f], log := s.log + [f], pending := s.pending + 1)
      case Wake => s.(bg := AtLoop, start := s.now, deletedSoFar := 0, currentRate := s.rate)
      case Leave => s.(bg := Asleep)
      case Pick =>
        var s1 := if s.currentRate != s.rate then s.(currentRate := s.rate, start := s.now, deletedSoFar := 0) else s;
        s1.(bg := Picked(s.queue[0]))
      case Remove(canTruncate, luck) => RemoveFile(s, canTruncate, luck)
      case Settle => s.(total := s.total - s.bg.deleted, bg := Settled(s.bg.file, s.bg.deleted, s.bg.ok, s.bg.complete))
      case Pop =>
        var deleted := s.deletedSoFar + s.bg.deleted;
        var s1 := s.(deletedSoFar := deleted, bg := Waiting(s.bg.complete, s.start + Penalty(deleted, s.currentRate)),
                     errors := if s.bg.ok then s.errors else s.errors + [s.bg.file]);
        if s.bg.complete then s1.(queue := s.queue[1..], done := s.done + [s.queue[0]]) else s1
      case WaitOver => s.(bg := AtLoop, pending := if s.bg.complete then s.pending - 1 else s.pending)
      case Tick(d) => s.(now := s.now + d)
      case SetRate(rate) => s.(rate := rate)
      case Close => s.(closing := true)
  }

  function Run(s: State, actions: seq<Action>): State {
    if |actions| == 0 then s else Step(Run(s, actions[..|actions| - 1]), actions[|actions| - 1])
  }

  function Start(fs: map<string, nat>, threads: nat, rate: int, chunk: nat): State {
    State(fs, seq(threads, _ => Idle), Asleep, [], 0, 0, rate, chunk, false, 0, 0, 0, rate, {}, [], [], [], [], 0)
  }

  // ---- what every step keeps

  ghost predicate CountedBy(callers: seq<Caller>, f: string) {
    exists t :: 0 <= t < |callers| && callers[t].Counted? && callers[t].file == f
  }

  ghost predicate CallersOk(callers: seq<Caller>) {
    forall t, u :: 0 <= t < u < |callers| && !callers[t].Idle? && !callers[u].Idle? ==>
        callers[t].file != callers[u].file
  }

  /** The files in the trash are distinct and exist, and the total counts those that are queued or about to be. */
  ghost predicate Files(fs: map<string, nat>, callers: seq<Caller>, held: seq<string>, counted: set<string>) {
    && Distinct(held) && CallersOk(callers)
    && (forall f :: f in held ==> f in fs && !InHand(callers, f))
    && (forall f :: InHand(callers, f) ==> f in fs)
    && (forall f :: f in counted <==> f in held || CountedBy(callers, f))
  }

  /** The total is what the counted files hold, and what has been removed but not been taken off the total yet. */
  ghost predicate Books(s: State) {
    s.total == BytesOf(s.fs, s.counted) + (if s.bg.Removed? then s.bg.deleted else 0) + s.leaked
  }

  ghost predicate Queue(s: State) {
    && s.pending == |s.queue| + (if s.bg.Waiting? && s.bg.complete then 1 else 0)
    && s.log == s.done + s.queue
    && (s.bg.Picked? || s.bg.Removed? || s.bg.Settled? ==> |s.queue| > 0 && s.queue[0] == s.bg.file)
  }

  /** What has been deleted is within the rate, up to rounding, except while a penalty is being waited out. */
  ghost predicate WithinRate(deleted: nat, elapsed: int, rate: int) {
    forall seal: Seal :: Throttled(seal, deleted, elapsed, rate)
  }

  ghost predicate Throttled(seal: Seal, deleted: nat, elapsed: int, rate: int) {
    rate > 0 ==> deleted * MicrosInSecond < (elapsed + 1) * rate
  }

  ghost predicate Rate(s: State) {
    && s.start <= s.now
    && (s.bg.Waiting? ==> s.bg.until == s.start + Penalty(s.deletedSoFar, s.currentRate))
    && (!s.bg.Asleep? && !s.bg.Waiting? && !s.closing ==> WithinRate(s.deletedSoFar, s.now - s.start, s.currentRate))
  }

  ghost predicate Inv(s: State) {
    Files(s.fs, s.callers, Held(s), s.counted) && Books(s) && Queue(s) && Rate(s)
  }

  // ---- the rate

  lemma RateGrows(deleted: nat, e: int, e': int, rate: int)
    requires WithinRate(deleted, e, rate) && e <= e'
    ensures WithinRate(deleted, e', rate)
  {
    assert Throttled(Seal, deleted, e, rate);
    if rate > 0 { assert (e' - e) * rate >= 0; }
  }

  lemma NothingDeleted(elapsed: nat, rate: int)
    ensures WithinRate(0, elapsed, rate)
  {
    if rate > 0 { assert (elapsed + 1) * rate >= rate; }
  }

  lemma PenaltyServed(deleted: nat, rate: int, elapsed: int)
    requires elapsed >= Penalty(deleted, rate)
    ensures WithinRate(deleted, elapsed, rate)
  {
    if rate > 0 {
      var x := deleted * MicrosInSecond;
      assert x < (x / rate + 1) * rate;
      assert (elapsed - x / rate) * rate >= 0;
    }
  }

  /** The penalty is exactly the time after which the bytes are within the rate. */
  lemma PenaltyExactly(deleted: nat, rate: int, elapsed: nat)
    requires rate > 0
    ensures elapsed >= Penalty(deleted, rate) <==> deleted * MicrosInSecond < (elapsed + 1) * rate
  {
    var x := deleted * MicrosInSecond;
    QuotientBounds(x, rate);
    BetweenMultiples(x, rate, x / rate, elapsed);
  }

  lemma QuotientBounds(x: nat, d: nat)
    requires d > 0
    ensures x / d * d <= x < (x / d + 1) * d
  {}

  lemma MoreTimes(a: nat, b: nat, d: nat)
    requires a <= b
    ensures a * d <= b * d
  {
    assert b * d == a * d + (b - a) * d;
  }

  lemma BetweenMultiples(x: nat, d: nat, q: nat, e: nat)
    requires q * d <= x < (q + 1) * d
    ensures e >= q <==> x < (e + 1) * d
  {
    if e >= q { MoreTimes(q + 1, e + 1, d); } else { MoreTimes(e + 1, q, d); }
  }

  lemma RateStep(s: State, a: Action)
    requires Rate(s)
    ensures Rate(Step(s, a))
  {
    var s' := Step(s, a);
    NothingDeleted(0, s.rate);
    if a.Tick? {
      if !s.bg.Asleep? && !s.bg.Waiting?
          && !s.closing { RateGrows(s.deletedSoFar, s.now - s.start, s'.now - s.start, s.currentRate); }
    } else if a.WaitOver? && Legal(s, a) {
      WaitedOut(s);
    }
  }

  lemma WaitedOut(s: State)
    requires Rate(s) && Legal(s, WaitOver)
    ensures !s.closing ==> WithinRate(s.deletedSoFar, s.now - s.start, s.currentRate)
  {
    if !s.closing { PenaltyServed(s.deletedSoFar, s.currentRate, s.now - s.start); }
  }

  // ---- the files

  lemma InHandAfter(callers: seq<Caller>, t: nat, c: Caller, f: string)
    requires t < |callers| && CallersOk(callers)
    ensures InHand(callers[t := c], f) <==>
      (!c.Idle? && c.file == f) || (InHand(callers, f) && (callers[t].Idle? || callers[t].file != f))
  {
    if InHand(callers, f) && (callers[t].Idle? || callers[t].file != f) {
      var u :| 0 <= u < |callers| && !callers[u].Idle? && callers[u].file == f;
      assert callers[t := c][u] == callers[u];
    }
    if !c.Idle? && c.file == f { assert callers[t := c][t] == c; }
  }

  lemma CountedAfter(callers: seq<Caller>, t: nat, c: Caller, f: string)
    requires t < |callers| && CallersOk(callers)
    ensures CountedBy(callers[t := c], f) <==>
      (c.Counted? && c.file == f) || (CountedBy(callers, f) && !(callers[t].Counted? && callers[t].file == f))
  {
    if CountedBy(callers, f) && !(callers[t].Counted? && callers[t].file == f) {
      var u :| 0 <= u < |callers| && callers[u].Counted? && callers[u].file == f;
      assert callers[t := c][u] == callers[u];
    }
    if c.Counted? && c.file == f { assert callers[t := c][t] == c; }
  }

  lemma CountedInHand(callers: seq<Caller>, f: string)
    ensures CountedBy(callers, f) ==> InHand(callers, f)
  {}

  lemma FilesDeleteNow(fs: map<string, nat>, callers: seq<Caller>, held: seq<string>, counted: set<string>,
                       path: string)
    requires Files(fs, callers, held, counted) && path !in held && !InHand(callers, path)
    ensures Files(fs - {path}, callers, held, counted) && BytesOf(fs - {path}, counted) == BytesOf(fs, counted)
  {
    CountedInHand(callers, path);
    BytesElsewhere(fs, fs - {path}, counted);
  }

  lemma FilesMark(fs: map<string, nat>, callers: seq<Caller>, held: seq<string>, counted: set<string>, t: nat,
                  path: string, trash: string, fs': map<string, nat>)
    requires Files(fs, callers, held, counted) && t < |callers| && callers[t].Idle? && path in fs && path !in held
    requires !InHand(callers, path)
    requires (trash == path || trash !in fs) && fs' == (fs - {path})[trash := fs[path]]
    ensures Files(fs', callers[t := Marked(trash)], held, counted) && BytesOf(fs', counted) == BytesOf(fs, counted)
  {
    assert !InHand(callers, trash) && trash !in held;
    forall f ensures InHand(callers[t := Marked(trash)], f) <==> f == trash || InHand(callers, f) {
      InHandAfter(callers, t, Marked(trash), f);
    }
    forall f ensures CountedBy(callers[t := Marked(trash)], f) <==> CountedBy(callers, f) {
      CountedAfter(callers, t, Marked(trash), f);
    }
    CountedInHand(callers, path);
    CountedInHand(callers, trash);
    BytesElsewhere(fs, fs', counted);
  }

  lemma FilesCount(fs: map<string, nat>, callers: seq<Caller>, held: seq<string>, counted: set<string>, t: nat)
    requires Files(fs, callers, held, counted) && t < |callers| && callers[t].Marked?
    ensures var f := callers[t].file;
      && f in fs && Files(fs, callers[t := Counted(f)], held, counted + {f})
      && BytesOf(fs, counted + {f}) == BytesOf(fs, counted) + fs[f]
  {
    var f := callers[t].file;
    assert InHand(callers, f);
    assert !CountedBy(callers, f);
    forall g ensures InHand(callers[t := Counted(f)], g) <==> InHand(callers, g) {
      InHandAfter(callers, t, Counted(f), g);
    }
    forall g ensures CountedBy(callers[t := Counted(f)], g) <==> g == f || CountedBy(callers, g) {
      CountedAfter(callers, t, Counted(f), g);
    }
    BytesAdd(fs, counted, f);
  }

  lemma FilesEnqueue(fs: map<string, nat>, callers: seq<Caller>, held: seq<string>, counted: set<string>, t: nat)
    requires Files(fs, callers, held, counted) && t < |callers| && callers[t].Counted?
    ensures Files(fs, callers[t := Idle], held + [callers[t].file], counted)
  {
    var f := callers[t].file;
    assert InHand(callers, f) && CountedBy(callers, f);
    forall g ensures InHand(callers[t := Idle], g) <==> InHand(callers, g) && g != f {
      InHandAfter(callers, t, Idle, g);
    }
    forall g ensures CountedBy(callers[t := Idle], g) <==> CountedBy(callers, g) && g != f {
      CountedAfter(callers, t, Idle, g);
    }
  }

  lemma FilesShrink(fs: map<string, nat>, callers: seq<Caller>, held: seq<string>, counted: set<string>, n: nat)
    requires Files(fs, callers, held, counted) && |held| > 0
    ensures held[0] in fs && Files(fs[held[0] := n], callers, held, counted)
    ensures BytesOf(fs[held[0] := n], counted) == BytesOf(fs, counted) - fs[held[0]] + n
  {
    BytesShrink(fs, counted, held[0], n);
  }

  /** The file at the front is given up, whether it is gone or not. */
  lemma FilesGiveUp(fs: map<string, nat>, callers: seq<Caller>, held: seq<string>, counted: set<string>,
                    fs': map<string, nat>)
    requires Files(fs, callers, held, counted) && |held| > 0 && (fs' == fs || fs' == fs - {held[0]})
    ensures held[0] in fs && Files(fs', callers, held[1..], counted - {held[0]})
    ensures BytesOf(fs', counted - {held[0]}) == BytesOf(fs, counted) - fs[held[0]]
  {
    var f := held[0];
    CountedInHand(callers, f);
    BytesDrop(fs, counted, f);
    BytesElsewhere(fs, fs', counted - {f});
    assert forall g :: g in held[1..] <==> g in held && g != f;
  }

  // ---- every step

  ghost predicate Ledger(s: State) { Files(s.fs, s.callers, Held(s), s.counted) && Books(s) }

  lemma QueueStep(s: State, a: Action)
    requires Queue(s)
    ensures Queue(Step(s, a))
  {
    if a.Enqueue? && Legal(s, a) {
      assert s.log + [s.callers[a.t].file] == s.done + (s.queue + [s.callers[a.t].file]);
    } else if a.Pop? && Legal(s, a) && s.bg.complete {
      assert s.done + s.queue == s.done + [s.queue[0]] + s.queue[1..];
    }
  }

  lemma RemoveLedger(s: State, canTruncate: bool, luck: Luck)
    requires Ledger(s) && Queue(s) && s.bg.Picked? && s.bg.file in s.fs
    ensures Ledger(RemoveFile(s, canTruncate, luck))
  {
    var f := s.bg.file;
    if !luck.NoSize? && s.chunk != 0 && s.fs[f] > s.chunk && canTruncate {
      FilesShrink(s.fs, s.callers, Held(s), s.counted, s.fs[f] - s.chunk);
    } else {
      FilesGiveUp(s.fs, s.callers, Held(s), s.counted, RemoveFile(s, canTruncate, luck).fs);
    }
  }

  lemma EnqueueLedger(s: State, t: nat)
    requires Ledger(s) && Queue(s) && t < |s.callers| && s.callers[t].Counted?
    ensures Ledger(Step(s, Enqueue(t)))
  {
    FilesEnqueue(s.fs, s.callers, Held(s), s.counted, t);
    var s' := Step(s, Enqueue(t));
    assert Held(s') == Held(s) + [s.callers[t].file];
  }

  lemma CallerLedger(s: State, a: Action)
    requires Ledger(s) && Queue(s) && Legal(s, a) && (a.DeleteNow? || a.Mark? || a.Count? || a.Enqueue?)
    ensures Ledger(Step(s, a))
  {
    match a
    case DeleteNow(path) => FilesDeleteNow(s.fs, s.callers, Held(s), s.counted, path);
    case Mark(t, path, trash) => FilesMark(s.fs, s.callers, Held(s), s.counted, t, path, trash, Step(s, a).fs);
    case Count(t) => FilesCount(s.fs, s.callers, Held(s), s.counted, t);
    case Enqueue(t) => EnqueueLedger(s, t);
  }

  lemma LedgerStep(s: State, a: Action)
    requires Ledger(s) && Queue(s)
    ensures Ledger(Step(s, a))
  {
    if Legal(s, a) {
      match a
      case DeleteNow(_) => CallerLedger(s, a);
      case Mark(_, _, _) => CallerLedger(s, a);
      case Count(_) => CallerLedger(s, a);
      case Enqueue(_) => CallerLedger(s, a);
      case Remove(canTruncate, luck) => RemoveLedger(s, canTruncate, luck);
      case _ => assert Held(Step(s, a)) == Held(s);
    }
  }

  lemma InvStep(s: State, a: Action)
    requires Inv(s)
    ensures Inv(Step(s, a))
  {
    LedgerStep(s, a);
    QueueStep(s, a);
    RateStep(s, a);
  }

  lemma {:induction false} InvRun(s: State, actions: seq<Action>)
    requires Inv(s)
    ensures Inv(Run(s, actions))
  {
    if |actions| > 0 {
      InvRun(s, actions[..|actions| - 1]);
      InvStep(Run(s, actions[..|actions| - 1]), actions[|actions| - 1]);
    }
  }

  lemma Reachable(fs: map<string, nat>, threads: nat, rate: int, chunk: nat, actions: seq<Action>)
    ensures Inv(Run(Start(fs, threads, rate, chunk), actions))
  {
    var s := Start(fs, threads, rate, chunk);
    assert Restrict(fs, {}) == map[];
    InvRun(s, actions);
  }

  // ---- the theorems, for every interleaving

  function Reached(fs: map<string, nat>, threads: nat, rate: int, chunk: nat, actions: seq<Action>): State {
    Run(Start(fs, threads, rate, chunk), actions)
  }

  /**
   `total_trash_size_` is always the bytes still held by the counted files, partly truncated ones included, plus what
   has been removed and is about to be subtracted, plus what failed deletions left behind; the counted files are those
   waiting in the queue and those that a caller has counted and is about to queue, and all of them exist.
   */
  lemma Conservation(fs: map<string, nat>, threads: nat, rate: int, chunk: nat, actions: seq<Action>)
    ensures var s := Reached(fs, threads, rate, chunk, actions);
      && s.total == BytesOf(s.fs, s.counted) + (if s.bg.Removed? then s.bg.deleted else 0) + s.leaked
      && (forall f :: f in s.counted <==> f in Held(s) || CountedBy(s.callers, f))
      && (forall f :: f in s.counted ==> f in s.fs)
  {
    var s := Reached(fs, threads, rate, chunk, actions);
    Reachable(fs, threads, rate, chunk, actions);
    forall f | f in s.counted ensures f in s.fs { CountedInHand(s.callers, f); }
  }

  /** A file that was picked exists, so the background thread is never stuck on it. */
  lemma PickedExists(fs: map<string, nat>, threads: nat, rate: int, chunk: nat, actions: seq<Action>)
    ensures var s := Reached(fs, threads, rate, chunk, actions);
      s.bg.Picked? ==> s.bg.file in s.fs && s.bg.file in s.counted
  {
    Reachable(fs, threads, rate, chunk, actions);
  }

  // ---- what becomes of files

  /** What an action may do to a file that exists: nothing, delete it, move it, or delete part or all of it as trash. */
  ghost predicate Fate(s: State, a: Action, s': State, f: string)
    requires f in s.fs
  {
    || (f in s'.fs && s'.fs[f] == s.fs[f])
    || (a == DeleteNow(f) && f !in s'.fs)
    || (a.Mark? && a.path == f && a.trash !in s.fs && a.trash in s'.fs && s'.fs[a.trash] == s.fs[f] && f !in s'.fs)
    || (a.Remove? && s.bg == Picked(f) && f in s'.fs && s.fs[f] > s.chunk > 0 && s'.fs[f] == s.fs[f] - s.chunk
        && s' == s.(fs := s'.fs, bg := Removed(f, s.chunk, true, false)))
    || (a.Remove? && s.bg == Picked(f) && f !in s'.fs && s'.gone == s.gone + [f])
  }

  /** No action does anything else to files; the only new file is one that was moved to the trash. */
  lemma FilesAfter(s: State, a: Action, f: string)
    ensures f in s.fs ==> Fate(s, a, Step(s, a), f)
    ensures f !in s.fs && f in Step(s, a).fs ==>
      a.Mark? && a.trash == f && a.path in s.fs && Step(s, a).fs[f] == s.fs[a.path]
  {}

  /** What is recorded as removed was there before the step and is not after it. */
  lemma GoneIsRemoved(s: State, a: Action)
    ensures var s' := Step(s, a);
      s'.gone != s.gone ==>
        s.bg.Picked? && s'.gone == s.gone + [s.bg.file] && s.bg.file in s.fs && s'.fs == s.fs - {s.bg.file}
  {}

  /** A deletion that is legal takes place: at once, or for a picked file when the file system calls go well. */
  lemma DeletionTakesPlace(s: State, a: Action)
    requires Legal(s, a)
    ensures a.DeleteNow? ==> Step(s, a).fs == s.fs - {a.path}
    ensures a.Mark? && a.trash != a.path ==> a.path !in Step(s, a).fs && a.trash in Step(s, a).fs
    ensures a.Remove? && a.luck.Fine? ==>
      var f := s.bg.file;
      if s.chunk > 0 && s.fs[f] > s.chunk && a.canTruncate then Step(s, a).fs == s.fs[f := s.fs[f] - s.chunk]
      else Step(s, a).fs == s.fs - {f}
  {}

  /** The deletion of the file failed, as far as is known yet. */
  ghost predicate Failed(s: State, f: string) {
    f in s.errors || ((s.bg.Removed? || s.bg.Settled?) && !s.bg.ok && s.bg.file == f)
  }

  /** A file that was queued is not there any more, or it is about to be queued again, or queued, or it failed. */
  ghost predicate Accounted(s: State, f: string) {
    f !in s.fs || InHand(s.callers, f) || f in Held(s) || Failed(s, f)
  }

  lemma AccountedByCaller(s: State, a: Action, f: string)
    requires Inv(s) && Legal(s, a) && (a.DeleteNow? || a.Mark? || a.Count? || a.Enqueue?)
    requires Accounted(s, f) || (a.Enqueue? && s.callers[a.t].file == f)
    ensures Accounted(Step(s, a), f)
  {
    var s' := Step(s, a);
    match a
    case DeleteNow(path) =>
    case Mark(t, path, trash) => InHandAfter(s.callers, t, Marked(trash), f);
    case Count(t) => InHandAfter(s.callers, t, Counted(s.callers[t].file), f);
    case Enqueue(t) =>
      InHandAfter(s.callers, t, Idle, f);
      assert Held(s') == Held(s) + [s.callers[t].file];
  }

  lemma AccountedByRemoval(s: State, a: Action, f: string)
    requires Queue(s) && Legal(s, a) && a.Remove? && Accounted(s, f)
    ensures Accounted(Step(s, a), f)
  {
    var s' := Step(s, a);
    assert Held(s) == s.queue && s.queue[0] == s.bg.file;
    assert Held(s') == s.queue || Held(s') == s.queue[1..];
    if f == s.bg.file {
      assert f !in s'.fs || f in Held(s') || Failed(s', f);
    } else {
      assert f in s.queue ==> f in s.queue[1..];
    }
  }

  lemma AccountedStep(s: State, a: Action, f: string)
    requires Inv(s) && (f in s.log ==> Accounted(s, f)) && f in Step(s, a).log
    ensures Accounted(Step(s, a), f)
  {
    if Legal(s, a) {
      if a.DeleteNow? || a.Mark? || a.Count? || a.Enqueue? { AccountedByCaller(s, a, f); }
      else if a.Remove? { AccountedByRemoval(s, a, f); }
      else { assert Held(Step(s, a)) == Held(s); }
    }
  }

  lemma {:induction false} AccountedRun(fs: map<string, nat>, threads: nat, rate: int, chunk: nat,
                                        actions: seq<Action>, f: string)
    requires f in Reached(fs, threads, rate, chunk, actions).log
    ensures Accounted(Reached(fs, threads, rate, chunk, actions), f)
    decreases |actions|
  {
    if |actions| > 0 {
      var front, a := actions[..|actions| - 1], actions[|actions| - 1];
      var s := Reached(fs, threads, rate, chunk, front);
      Reachable(fs, threads, rate, chunk, front);
      if f in s.log { AccountedRun(fs, threads, rate, chunk, front, f); }
      AccountedStep(s, a, f);
    }
  }

  /**
   When WaitForEmptyTrash returns before closing and no caller is in the middle of a deletion, every file that was ever
   queued is gone from the file system, except those whose deletion was reported to have failed.
   */
  lemma QueuedIsDeleted(fs: map<string, nat>, threads: nat, rate: int, chunk: nat, actions: seq<Action>, f: string)
    requires var s := Reached(fs, threads, rate, chunk, actions);
      TrashIsEmpty(s) && f in s.log && forall t :: 0 <= t < |s.callers| ==> s.callers[t].Idle?
    ensures var s := Reached(fs, threads, rate, chunk, actions); f !in s.fs || f in s.errors
    ensures AllFine(actions) ==> f !in Reached(fs, threads, rate, chunk, actions).fs
  {
    Reachable(fs, threads, rate, chunk, actions);
    AccountedRun(fs, threads, rate, chunk, actions, f);
    if AllFine(actions) { FineRun(fs, threads, rate, chunk, actions); }
  }

  predicate AllFine(actions: seq<Action>) {
    forall i :: 0 <= i < |actions| && actions[i].Remove? ==> actions[i].luck.Fine?
  }

  /** While file system calls succeed, everything taken off the queue is gone, but for one file that is gone already. */
  ghost predicate NoTrouble(s: State) {
    && s.leaked == 0 && s.errors == [] && ((s.bg.Removed? || s.bg.Settled?) ==> s.bg.ok)
    && s.gone == s.done + if (s.bg.Removed? || s.bg.Settled?) && s.bg.complete then [s.bg.file] else []
  }

  lemma {:induction false} FineRun(fs: map<string, nat>, threads: nat, rate: int, chunk: nat, actions: seq<Action>)
    requires AllFine(actions)
    ensures NoTrouble(Reached(fs, threads, rate, chunk, actions))
    decreases |actions|
  {
    if |actions| > 0 {
      var front, a := actions[..|actions| - 1], actions[|actions| - 1];
      FineRun(fs, threads, rate, chunk, front);
      Reachable(fs, threads, rate, chunk, front);
      FineStep(Reached(fs, threads, rate, chunk, front), a);
    }
  }

  lemma FineStep(s: State, a: Action)
    requires NoTrouble(s) && Queue(s) && (a.Remove? ==> a.luck.Fine?)
    ensures NoTrouble(Step(s, a))
  {}

  /** When WaitForEmptyTrash returns before closing. */
  predicate TrashIsEmpty(s: State) { s.pending <= 0 }

  /**
   WaitForEmptyTrash returns before closing only when everything ever queued has been taken off the queue; if no file
   system call failed, every queued file has been removed, and nothing queued is left in the total.
   */
  lemma WaitForEmptyTrash(fs: map<string, nat>, threads: nat, rate: int, chunk: nat, actions: seq<Action>)
    requires TrashIsEmpty(Reached(fs, threads, rate, chunk, actions))
    ensures var s := Reached(fs, threads, rate, chunk, actions);
      && s.queue == [] && s.done == s.log
      && (AllFine(actions) ==>
          s.gone == s.log && ((forall t :: 0 <= t < |s.callers| ==> !s.callers[t].Counted?) ==> s.total == 0))
  {
    var s := Reached(fs, threads, rate, chunk, actions);
    Reachable(fs, threads, rate, chunk, actions);
    assert s.done + [] == s.done;
    if AllFine(actions) {
      FineRun(fs, threads, rate, chunk, actions);
      if forall t :: 0 <= t < |s.callers| ==> !s.callers[t].Counted? {
        assert s.counted == {};
        assert Restrict(s.fs, {}) == map[];
      }
    }
  }

  /**
   Before each next deletion at an unchanged rate, the bytes deleted are within rate times elapsed time, up to one
   microsecond.
   */
  lemma RateBound(fs: map<string, nat>, threads: nat, rate: int, chunk: nat, actions: seq<Action>)
    ensures var s := Reached(fs, threads, rate, chunk, actions);
      Legal(s, Pick) && s.currentRate == s.rate && s.rate > 0 ==>
        s.start <= s.now && s.deletedSoFar * MicrosInSecond < (s.now - s.start + 1) * s.rate
  {
    var s := Reached(fs, threads, rate, chunk, actions);
    Reachable(fs, threads, rate, chunk, actions);
    if Legal(s, Pick) { assert Throttled(Seal, s.deletedSoFar, s.now - s.start, s.currentRate); }
  }

  // ---- names in the trash

  const TrashExtension: string := ".trash"

  /** The path ends with the extension. */
  predicate IsTrashFile(path: string) {
    |path| >= |TrashExtension| && path[|path| - |TrashExtension|..] == TrashExtension
  }

  /** The index after the last separator, or zero. */
  function AfterSlash(path: string): nat {
    if |path| == 0 then 0 else if path[|path| - 1] == '/' then |path| else AfterSlash(path[..|path| - 1])
  }

  datatype MarkResult = Ok(trash: string) | InvalidArgument | ExistsFailed | RenameFailed

  /** The names that are tried, in order: first without a number, then with one number after the other. */
  function TrashName(path: string, n: nat): string {
    if n == 0 then path + TrashExtension else path + Digits(n - 1) + TrashExtension
  }

  lemma CandidatesDiffer(path: string, i: nat, j: nat)
    requires i != j
    ensures TrashName(path, i) != TrashName(path, j)
  {
    var a, b := TrashName(path, i), TrashName(path, j);
    if i == 0 || j == 0 {
      assert |a| != |b|;
    } else {
      assert a[|path|..|a| - 6] == Digits(i - 1) && b[|path|..|b| - 6] == Digits(j - 1);
      if a == b { DigitsInjective(i - 1, j - 1); }
    }
  }

  lemma TrashNameIsTrash(path: string, n: nat)
    ensures IsTrashFile(TrashName(path, n)) && path <= TrashName(path, n) && TrashName(path, n) != path
  {
    var a := TrashName(path, n);
    assert a[|a| - 6..] == TrashExtension;
  }

  /** The first `n` names exist, and finding that out went well. */
  ghost predicate Taken(fs: map<string, nat>, path: string, fails: nat -> bool, n: nat) {
    forall m :: 0 <= m < n ==> !fails(m) && TrashName(path, m) in fs
  }

  /** The path names no file in a directory. */
  predicate Corrupted(path: string) { AfterSlash(path) == 0 || AfterSlash(path) == |path| }

  /**
   Look for the first name that does not exist yet. `fails` says which of the calls that ask for the existence of a
   name fail. The search ends, because the names that it tries are all different and those it has tried all exist.
   */
  method FindName(fs: map<string, nat>, path: string, fails: nat -> bool) returns (n: nat)
    ensures Taken(fs, path, fails, n) && (fails(n) || TrashName(path, n) !in fs)
  {
    n := 0;
    while !fails(n) && TrashName(path, n) in fs
      invariant Taken(fs, path, fails, n)
      decreases |fs| - n
    {
      TakenBound(fs, path, fails, n + 1);
      n := n + 1;
    }
  }

  /** The first `n` names. */
  ghost function Names(path: string, n: nat): set<string> {
    if n == 0 then {} else Names(path, n - 1) + {TrashName(path, n - 1)}
  }

  lemma {:induction false} NamesDiffer(path: string, n: nat, m: nat)
    requires n <= m
    ensures TrashName(path, m) !in Names(path, n)
  {
    if n > 0 {
      NamesDiffer(path, n - 1, m);
      CandidatesDiffer(path, n - 1, m);
    }
  }

  /** As the names are all different, no more can exist than there are files. */
  lemma {:induction false} NamesExist(fs: map<string, nat>, path: string, fails: nat -> bool, n: nat)
    requires Taken(fs, path, fails, n)
    ensures Names(path, n) <= fs.Keys && |Names(path, n)| == n
    decreases n
  {
    if n > 0 {
      NamesExist(fs, path, fails, n - 1);
      NamesDiffer(path, n - 1, n - 1);
    }
  }

  lemma {:induction false} Fewer(a: set<string>, b: set<string>)
    requires a <= b
    ensures |a| <= |b|
    decreases a
  {
    if x :| x in a { Fewer(a - {x}, b - {x}); }
  }

  lemma TakenBound(fs: map<string, nat>, path: string, fails: nat -> bool, n: nat)
    requires Taken(fs, path, fails, n)
    ensures n <= |fs|
  {
    NamesExist(fs, path, fails, n);
    Fewer(Names(path, n), fs.Keys);
  }

  /**
   Move a file to the trash under the first name that does not exist yet. `n` is the number of the name that the
   search ended with.
   */
  method MarkAsTrash(fs: map<string, nat>, path: string, fails: nat -> bool)
    returns (r: MarkResult, after: map<string, nat>, n: nat)
    ensures r.InvalidArgument? <==> Corrupted(path)
    ensures IsTrashFile(path) && !Corrupted(path) ==> r == Ok(path)
    ensures !r.Ok? || IsTrashFile(path) ==> after == fs
    ensures !Corrupted(path) && !IsTrashFile(path) ==> Taken(fs, path, fails, n) && (r.ExistsFailed? <==> fails(n))
    ensures !Corrupted(path) && !IsTrashFile(path) && !fails(n) ==>
      && TrashName(path, n) !in fs && IsTrashFile(TrashName(path, n)) && (r.RenameFailed? <==> path !in fs)
      && (path in fs ==> r == Ok(TrashName(path, n)) && after == (fs - {path})[TrashName(path, n) := fs[path]])
  {
    if Corrupted(path) {
      return InvalidArgument, fs, 0;
    }
    if IsTrashFile(path) {
      return Ok(path), fs, 0;
    }
    n := FindName(fs, path, fails);
    TrashNameIsTrash(path, n);
    if fails(n) {
      return ExistsFailed, fs, n;
    }
    if path !in fs {
      return RenameFailed, fs, n;
    }
    var trash := TrashName(path, n);
    r, after := Ok(trash), (fs - {path})[trash := fs[path]];
  }
}
