/**
 Batched reads through io_uring: requests are submitted in batches, complete in any order, and are submitted again for
 the rest when they come back short. What the kernel does is a script, one completion a turn; every script is allowed.
 */
module MultiRead {
  import opened Basics
  import opened Seals
  import opened Sums

  datatype Request = Request(offset: nat, len: nat)

  datatype Outcome = Pending | Ok(bytes: seq<Byte>) | Failed

  /** A request, how much of it has been read, what its buffer then holds, and its outcome. */
  datatype Wrap = Wrap(req: Request, finished: nat, scratch: seq<Byte>, outcome: Outcome)

  /** What the kernel answers: an error, up to this many bytes, or more than was asked for. */
  datatype Answer = Error | Got(n: nat) | Excess

  /** `slot` picks one of the requests in flight; `readable` says whether the fallback read would succeed. */
  datatype Completion = Completion(slot: nat, answer: Answer, readable: bool)

  const IoUringDepth: nat := 256

  /** How many bytes a read at an offset delivers: never more than was asked for, or than the file has. */
  function Delivered(file: seq<Byte>, offset: nat, len: nat, n: nat): nat {
    if offset >= |file| then 0 else Min(n, Min(len, |file| - offset))
  }

  /** What becomes of a request in flight when its completion is reaped. */
  function Reap(file: seq<Byte>, w: Wrap, c: Completion): Wrap
    requires w.finished <= w.req.len
  {
    var offset, rest := w.req.offset + w.finished, w.req.len - w.finished;
    match c.answer
    case Error => w.(outcome := Failed)
    case Excess => w.(outcome := Failed)
    case Got(n) =>
      var got := Delivered(file, offset, rest, n);
      var scratch := w.scratch + Window(file, offset, got);
      if got == rest then w.(outcome := Ok(scratch))
      else if got == 0 then (if c.readable then w.(outcome := Ok(w.scratch + Window(file, offset, rest)))
          else w.(outcome := Failed))
      else w.(finished := w.finished + got, scratch := scratch)
  }

  ghost predicate Holds(seal: Seal, file: seq<Byte>, w: Wrap) {
    && (w.finished > 0 ==> w.req.offset + w.finished <= |file|)
    && w.scratch == Window(file, w.req.offset, w.finished)
    && (w.outcome.Ok? ==> w.outcome.bytes == Window(file, w.req.offset, w.req.len))
  }

  /** The buffer holds the file's bytes, and so does a result. */
  ghost predicate Faithful(file: seq<Byte>, w: Wrap) {
    w.finished < w.req.len && forall seal: Seal :: Holds(seal, file, w)
  }

  /** The bytes of an unfinished request that are still to be read. */
  function Left(w: Wrap): int {
    if w.outcome.Pending? && w.finished < w.req.len then w.req.len - w.finished else 0
  }

  predicate Harmless(c: Completion) { c.answer.Got? && c.readable }

  lemma ReapLast(file: seq<Byte>, w: Wrap)
    requires Faithful(file, w)
    ensures Faithful(file,
      w.(outcome := Ok(w.scratch + Window(file, w.req.offset + w.finished, w.req.len - w.finished))))
    ensures Faithful(file, w.(outcome := Failed))
  {
    assert Holds(Seal, file, w);
    WindowJoins(file, w.req.offset, w.finished, w.req.len - w.finished);
  }

  lemma ReapMore(file: seq<Byte>, w: Wrap, got: nat)
    requires Faithful(file, w) && w.outcome.Pending?
    requires 0 < got < w.req.len - w.finished && w.req.offset + w.finished + got <= |file|
    ensures Faithful(file,
      w.(finished := w.finished + got, scratch := w.scratch + Window(file, w.req.offset + w.finished, got)))
  {
    assert Holds(Seal, file, w);
    WindowJoins(file, w.req.offset, w.finished, got);
  }

  lemma ReapOk(file: seq<Byte>, w: Wrap, c: Completion)
    requires Faithful(file, w) && w.outcome.Pending?
    ensures var w' := Reap(file, w, c);
      Faithful(file, w') && w'.req == w.req && Left(w') < Left(w) && (Harmless(c) ==> !w'.outcome.Failed?)
  {
    ReapLast(file, w);
    if c.answer.Got? {
      var got := Delivered(file, w.req.offset + w.finished, w.req.len - w.finished, c.answer.n);
      if 0 < got < w.req.len - w.finished { ReapMore(file, w, got); }
    }
  }

  /** The completion is bad news for the request: an error, too many bytes, or none and no way to read on. */
  predicate Bad(file: seq<Byte>, w: Wrap, c: Completion)
    requires w.finished <= w.req.len
  {
    match c.answer
    case Error => true
    case Excess => true
    case Got(n) => !c.readable && Delivered(file, w.req.offset + w.finished, w.req.len - w.finished, n) == 0
  }

  /** A request fails exactly by bad news. */
  lemma ReapFails(file: seq<Byte>, w: Wrap, c: Completion)
    requires w.finished < w.req.len && w.outcome.Pending?
    ensures Reap(file, w, c).outcome.Failed? <==> Bad(file, w, c)
  {}

  /** What has been reaped so far: which request, and how far it was; the completion is the script's at that turn. */
  type Log = seq<(nat, Wrap)>

  ghost predicate BadNews(file: seq<Byte>, log: Log, script: nat -> Completion, j: nat, k: nat)
    requires j < |log|
  {
    log[j].0 == k && log[j].1.finished <= log[j].1.req.len && Bad(file, log[j].1, script(j))
  }

  ghost predicate HadBadNews(file: seq<Byte>, log: Log, script: nat -> Completion, k: nat) {
    exists j :: 0 <= j < |log| && BadNews(file, log, script, j, k)
  }

  /** Every completion was for a request as it had become by then; and the failed ones are those that had bad news. */
  ghost predicate Logged(file: seq<Byte>, reqs: seq<Request>, ws: seq<Wrap>, log: Log, script: nat -> Completion) {
    && (forall j :: 0 <= j < |log| ==> log[j].0 < |reqs| && log[j].1.req == reqs[log[j].0] && Faithful(file, log[j].1))
    && (forall k :: 0 <= k < |ws| ==> (ws[k].outcome.Failed? <==> HadBadNews(file, log, script, k)))
  }

  lemma LoggedMore(file: seq<Byte>, reqs: seq<Request>, ws: seq<Wrap>, log: Log, script: nat -> Completion, k: nat)
    requires AllFaithful(file, reqs, ws) && Logged(file, reqs, ws, log, script) && k < |ws| && ws[k].outcome.Pending?
    ensures ws[k].finished <= ws[k].req.len
    ensures Logged(file, reqs, ws[k := Reap(file, ws[k], script(|log|))], log + [(k, ws[k])], script)
  {
    var log', c := log + [(k, ws[k])], script(|log|);
    ReapFails(file, ws[k], c);
    forall i | 0 <= i < |ws|
      ensures HadBadNews(file, log', script, i) <==>
        HadBadNews(file, log, script, i) || (i == k && Bad(file, ws[k], c))
    {
      if HadBadNews(file, log, script, i) {
        var j :| 0 <= j < |log| && BadNews(file, log, script, j, i);
        assert BadNews(file, log', script, j, i);
      }
      if i == k && Bad(file, ws[k], c) { assert BadNews(file, log', script, |log|, i); }
      if HadBadNews(file, log', script, i) {
        var j :| 0 <= j < |log'| && BadNews(file, log', script, j, i);
        if j < |log| { assert BadNews(file, log, script, j, i); }
      }
    }
  }

  // ---- where a request is

  ghost predicate Apart(xs: seq<nat>, ys: seq<nat>) {
    forall i, j :: 0 <= i < |xs| && 0 <= j < |ys| ==> xs[i] != ys[j]
  }

  ghost predicate Places(seal: Seal, ws: seq<Wrap>, off: nat, inflight: seq<nat>, incomplete: seq<nat>) {
    && Distinct(inflight) && Distinct(incomplete) && Apart(inflight, incomplete)
    && (forall i :: 0 <= i < |inflight| ==> inflight[i] < off)
    && (forall i :: 0 <= i < |incomplete| ==> incomplete[i] < off)
    && (forall k :: 0 <= k < |ws| ==> (ws[k].outcome.Pending? <==> k >= off || k in inflight || k in incomplete))
  }

  /**
   Every request is in exactly one place: not yet submitted (from `off` on), in flight, incomplete and to be submitted
   again, or done.
   */
  ghost predicate Partition(ws: seq<Wrap>, off: nat, inflight: seq<nat>, incomplete: seq<nat>) {
    off <= |ws| && forall seal: Seal :: Places(seal, ws, off, inflight, incomplete)
  }

  lemma SubmitsAgain(ws: seq<Wrap>, off: nat, inflight: seq<nat>, incomplete: seq<nat>)
    requires Partition(ws, off, inflight, incomplete) && |incomplete| > 0
    ensures Partition(ws, off, inflight + [incomplete[0]], incomplete[1..])
  {
    assert Places(Seal, ws, off, inflight, incomplete);
    assert incomplete == [incomplete[0]] + incomplete[1..];
  }

  lemma SubmitsNew(ws: seq<Wrap>, off: nat, inflight: seq<nat>)
    requires Partition(ws, off, inflight, []) && off < |ws|
    ensures Partition(ws, off + 1, inflight + [off], [])
  {
    assert Places(Seal, ws, off, inflight, []);
  }

  lemma InFlight(ws: seq<Wrap>, off: nat, inflight: seq<nat>, incomplete: seq<nat>, p: nat)
    requires Partition(ws, off, inflight, incomplete) && p < |inflight|
    ensures inflight[p] < |ws| && ws[inflight[p]].outcome.Pending?
  {
    assert Places(Seal, ws, off, inflight, incomplete);
    assert inflight[p] in inflight;
  }

  lemma Reaped(ws: seq<Wrap>, off: nat, inflight: seq<nat>, incomplete: seq<nat>, p: nat, w: Wrap)
    requires Partition(ws, off, inflight, incomplete) && p < |inflight|
    ensures inflight[p] < |ws|
    ensures Partition(ws[inflight[p] := w], off, Without(inflight, p), if w.outcome.Pending?
      then incomplete + [inflight[p]] else incomplete)
  {
    assert Places(Seal, ws, off, inflight, incomplete);
    var k := inflight[p];
    var inflight', incomplete' := Without(inflight, p), if w.outcome.Pending? then incomplete + [k] else incomplete;
    WithoutOk(inflight, p);
    assert k in inflight;
    assert forall i :: 0 <= i < |inflight'| ==> inflight'[i] in inflight';
    assert Places(Seal, ws[k := w], off, inflight', incomplete');
  }

  // ---- what a run keeps

  ghost predicate AllFaithful(file: seq<Byte>, reqs: seq<Request>, ws: seq<Wrap>) {
    |ws| == |reqs| && forall k :: 0 <= k < |ws| ==> Faithful(file, ws[k]) && ws[k].req == reqs[k]
  }

  function Unread(ws: seq<Wrap>): int { SumBy(Left, ws) }

  ghost predicate NoneFailed(ws: seq<Wrap>) {
    forall k :: 0 <= k < |ws| ==> !ws[k].outcome.Failed?
  }

  ghost predicate AllHarmless(script: nat -> Completion) {
    forall t :: Harmless(script(t))
  }

  /** Collect the requests to submit: those that came back short, then new ones. */
  method Submit(ws: seq<Wrap>, off: nat, incomplete: seq<nat>, thisReqs: nat) returns (off': nat, inflight: seq<nat>)
    requires Partition(ws, off, [], incomplete) && |incomplete| <= thisReqs <= |ws| - off + |incomplete|
    ensures Partition(ws, off', inflight, []) && |inflight| == thisReqs
  {
    off', inflight := off, [];
    ghost var waiting := incomplete;
    for i := 0 to thisReqs
      invariant waiting == incomplete[Min(i, |incomplete|)..] && off' == off + i - Min(i, |incomplete|)
      invariant Partition(ws, off', inflight, waiting) && |inflight| == i
    {
      if i < |incomplete| {
        SubmitsAgain(ws, off', inflight, waiting);
        inflight, waiting := inflight + [incomplete[i]], waiting[1..];
      } else {
        SubmitsNew(ws, off', inflight);
        inflight, off' := inflight + [off'], off' + 1;
      }
    }
  }

  lemma ReapKeeps(file: seq<Byte>, reqs: seq<Request>, ws: seq<Wrap>, k: nat, c: Completion)
    requires AllFaithful(file, reqs, ws) && k < |ws| && ws[k].outcome.Pending?
    ensures ws[k].finished <= ws[k].req.len
    ensures var ws' := ws[k := Reap(file, ws[k], c)];
      && AllFaithful(file, reqs, ws') && Unread(ws') < Unread(ws)
      && (Harmless(c) && NoneFailed(ws) ==> NoneFailed(ws'))
  {
    ReapOk(file, ws[k], c);
    SumUpdate(Left, ws, k, Reap(file, ws[k], c));
  }

  /** Reap the completions of a batch, in whatever order they come. */
  method ReapAll(file: seq<Byte>, reqs: seq<Request>, wraps: array<Wrap>, off: nat, batch: seq<nat>,
                 script: nat -> Completion, turn: nat, ghost log: Log)
    returns (incomplete: seq<nat>, turn': nat, ghost log': Log)
    requires AllFaithful(file, reqs, wraps[..]) && Partition(wraps[..], off, batch, [])
    requires AllHarmless(script) ==> NoneFailed(wraps[..])
    requires turn == |log| && Logged(file, reqs, wraps[..], log, script)
    modifies wraps
    ensures turn' == |log'| && Logged(file, reqs, wraps[..], log', script)
    ensures AllFaithful(file, reqs, wraps[..]) && Partition(wraps[..], off, [], incomplete) && |incomplete| <= |batch|
    ensures |batch| > 0 ==> Unread(wraps[..]) < old(Unread(wraps[..]))
    ensures AllHarmless(script) ==> NoneFailed(wraps[..])
  {
    var inflight := batch;
    incomplete, turn', log' := [], turn, log;
    for i := 0 to |batch|
      invariant |inflight| == |batch| - i && |incomplete| <= i
      invariant turn' == |log'| && Logged(file, reqs, wraps[..], log', script)
      invariant AllFaithful(file, reqs, wraps[..]) && Partition(wraps[..], off, inflight, incomplete)
      invariant Unread(wraps[..]) <= old(Unread(wraps[..])) && (i > 0 ==> Unread(wraps[..]) < old(Unread(wraps[..])))
      invariant AllHarmless(script) ==> NoneFailed(wraps[..])
    {
      var c := script(turn');
      var p := c.slot % |inflight|;
      var k := inflight[p];
      ghost var ws := wraps[..];
      InFlight(ws, off, inflight, incomplete, p);
      ReapKeeps(file, reqs, ws, k, c);
      LoggedMore(file, reqs, ws, log', script, k);
      Reaped(ws, off, inflight, incomplete, p, Reap(file, ws[k], c));
      wraps[k] := Reap(file, wraps[k], c);
      assert wraps[..] == ws[k := Reap(file, ws[k], c)];
      if wraps[k].outcome.Pending? {
        incomplete := incomplete + [k];
      }
      inflight, turn', log' := Without(inflight, p), turn' + 1, log' + [(k, ws[k])];
    }
    assert inflight == [];
  }

  /**
   Read every request. Whatever the kernel does, this terminates, every request gets an outcome, an outcome without
   error is exactly the file's bytes of the request up to the end of the file, and a request fails exactly if one of
   its own completions was bad news for it. `log` says which request each completion was for.
   */
  method MultiRead(file: seq<Byte>, reqs: seq<Request>, script: nat -> Completion)
    returns (results: seq<Outcome>, ghost log: Log)
    requires forall k :: 0 <= k < |reqs| ==> reqs[k].len > 0
    ensures |results| == |reqs|
    ensures forall k :: 0 <= k < |reqs| ==>
      results[k] == Failed || results[k] == Ok(Window(file, reqs[k].offset, reqs[k].len))
    ensures AllHarmless(script) ==> forall k :: 0 <= k < |reqs| ==> results[k].Ok?
    ensures forall j :: 0 <= j < |log| ==> log[j].0 < |reqs| && log[j].1.req == reqs[log[j].0]
    ensures forall k :: 0 <= k < |reqs| ==> (results[k].Failed? <==> HadBadNews(file, log, script, k))
  {
    var wraps := new Wrap[|reqs|](i requires 0 <= i < |reqs| => Wrap(reqs[i], 0, [], Pending));
    var off, incomplete, turn := 0, [], 0;
    log := [];
    StartFaithful(file, reqs, wraps[..]);
    while |reqs| > off || |incomplete| > 0
      invariant AllFaithful(file, reqs, wraps[..]) && Partition(wraps[..], off, [], incomplete)
      invariant |incomplete| <= IoUringDepth
      invariant turn == |log| && Logged(file, reqs, wraps[..], log, script)
      invariant AllHarmless(script) ==> NoneFailed(wraps[..])
      decreases Unread(wraps[..])
    {
      UnreadNonNegative(wraps[..]);
      var thisReqs := |reqs| - off + |incomplete|;
      if thisReqs > IoUringDepth {
        thisReqs := IoUringDepth;
      }
      assert |incomplete| <= thisReqs;
      var batch;
      off, batch := Submit(wraps[..], off, incomplete, thisReqs);
      incomplete, turn, log := ReapAll(file, reqs, wraps, off, batch, script, turn, log);
    }
    AllDone(file, reqs, wraps[..], off);
    results := seq(|reqs|, i requires 0 <= i < wraps.Length reads wraps => wraps[i].outcome);
  }

  lemma StartFaithful(file: seq<Byte>, reqs: seq<Request>, ws: seq<Wrap>)
    requires |ws| == |reqs| && forall k :: 0 <= k < |reqs| ==> reqs[k].len > 0 && ws[k] == Wrap(reqs[k], 0, [], Pending)
    ensures AllFaithful(file, reqs, ws) && Partition(ws, 0, [], []) && NoneFailed(ws)
  {
    assert Places(Seal, ws, 0, [], []);
    forall k | 0 <= k < |ws| ensures Faithful(file, ws[k]) {
      assert Holds(Seal, file, ws[k]);
    }
  }

  lemma UnreadNonNegative(ws: seq<Wrap>)
    ensures Unread(ws) >= 0
  {
    SumNonNegative(Left, ws);
  }

  lemma AllDone(file: seq<Byte>, reqs: seq<Request>, ws: seq<Wrap>, off: nat)
    requires AllFaithful(file, reqs, ws) && Partition(ws, off, [], []) && off == |ws|
    ensures forall k :: 0 <= k < |ws| ==>
      ws[k].outcome == Failed || ws[k].outcome == Ok(Window(file, reqs[k].offset, reqs[k].len))
  {
    assert Places(Seal, ws, off, [], []);
    forall k | 0 <= k < |ws| ensures ws[k].outcome == Failed
        || ws[k].outcome == Ok(Window(file, reqs[k].offset, reqs[k].len)) {
      assert Faithful(file, ws[k]);
      assert Holds(Seal, file, ws[k]);
    }
  }
}
