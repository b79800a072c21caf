// One recovery of a strategy by its host: silent catch-up to the barrier and to
// the activation barrier, then live batches up to the first published intent.
module StrategyRecovery {
  import opened Bytes
  import opened Wrappers
  import opened StrategyReplay

  datatype Failure =
    Failed(error: ReplayError) | EndOfInput | CrossedBarrier | InvalidActivation | EmittedInSilence

  // Where a loop has got to, and the batches it has not read.
  datatype Position = Position(progress: Progress, unread: seq<Batch>)

  // The intent that is published, the batch it came from, and what is left.
  datatype Publication = Publication(intent: u64, batch: Batch, at: Position)

  // ----- The loops

  function Silent(p: Progress, input: seq<Batch>, barrier: u64): Result<Position, Failure>
    decreases |input|
  {
    if p.cursor >= barrier then Ok(Position(p, input))
    else if input == [] then Err(EndOfInput)
    else
      var one := Applied(p, input[0], false);
      if one.error.Some? then Err(Failed(one.error.value)) else Silent(one.progress, input[1..], barrier)
  }

  function CatchUp(p: Progress, input: seq<Batch>, barrier: u64, activation: u64): Result<Position, Failure> {
    var at :- Silent(p, input, barrier);
    if at.progress.cursor != barrier then Err(CrossedBarrier)
    else if activation < at.progress.cursor then Err(InvalidActivation)
    else Silent(at.progress, at.unread, activation)
  }

  function Live(p: Progress, input: seq<Batch>): Result<Publication, Failure>
    decreases |input|
  {
    if input == [] then Err(EndOfInput)
    else
      var one := Applied(p, input[0], true);
      if one.error.Some? then Err(Failed(one.error.value))
      else if one.emitted != [] then Ok(Publication(one.emitted[0], input[0], Position(one.progress, input[1..])))
      else Live(one.progress, input[1..])
  }

  function Recovery(p: Progress, input: seq<Batch>, barrier: u64, activation: u64): Result<Publication, Failure> {
    var at :- CatchUp(p, input, barrier, activation);
    Live(at.progress, at.unread)
  }

  // Reads batches in silence until the cursor is at the barrier.
  method ReplayTo(host: Host, input: seq<Batch>, barrier: u64) returns (r: Result<seq<Batch>, Failure>)
    modifies host
    ensures match r
            case Ok(unread) => Silent(old(host.progress), input, barrier) == Ok(Position(host.progress, unread))
            case Err(failure) => Silent(old(host.progress), input, barrier) == Err(failure)
  {
    hide Applied;
    var read := 0;
    assert input[0..] == input;
    while host.progress.cursor < barrier
      invariant read <= |input|
      invariant Silent(host.progress, input[read..], barrier) == Silent(old(host.progress), input, barrier)
      decreases |input| - read
    {
      if read == |input| { return Err(EndOfInput); }
      assert input[read..][1..] == input[read + 1..];
      ghost var before := host.progress;
      var error, emitted := host.ApplyReplayBatch(input[read], false);
      SilentBatch(before, input[read]);
      if error.Some? { return Err(Failed(error.value)); }
      if emitted != [] { return Err(EmittedInSilence); }
      read := read + 1;
    }
    return Ok(input[read..]);
  }

  // Reads live batches until one emits, and publishes the first of its intents.
  method PublishFirst(host: Host, input: seq<Batch>) returns (r: Result<(u64, seq<Batch>), Failure>, ghost batch: Batch)
    modifies host
    ensures match r
            case Ok((intent, unread)) =>
              Live(old(host.progress), input) == Ok(Publication(intent, batch, Position(host.progress, unread)))
            case Err(failure) => Live(old(host.progress), input) == Err(failure)
  {
    hide Applied;
    batch := Batch(false, 0, 0, []);
    assert input[0..] == input;
    for read := 0 to |input|
      invariant Live(host.progress, input[read..]) == Live(old(host.progress), input)
    {
      assert input[read..][1..] == input[read + 1..];
      var error, sequences := host.ApplyReplayBatch(input[read], true);
      if error.Some? { return Err(Failed(error.value)), batch; }
      if sequences != [] { return Ok((sequences[0], input[read + 1..])), input[read]; }
    }
    return Err(EndOfInput), batch;
  }

  method RecoverOnce(host: Host, input: seq<Batch>, barrier: u64, activation: u64) returns (r: Result<u64, Failure>,
                     ghost batch: Batch, ghost unread: seq<Batch>)
    modifies host
    ensures match r
            case Ok(intent) =>
              Recovery(old(host.progress), input, barrier, activation)
              == Ok(Publication(intent, batch, Position(host.progress, unread)))
            case Err(failure) => Recovery(old(host.progress), input, barrier, activation) == Err(failure)
  {
    batch, unread := Batch(false, 0, 0, []), [];
    var replayed := ReplayTo(host, input, barrier);
    if replayed.Err? { return Err(replayed.error), batch, unread; }
    if host.progress.cursor != barrier { return Err(CrossedBarrier), batch, unread; }
    if activation < host.progress.cursor { return Err(InvalidActivation), batch, unread; }
    var caughtUp := ReplayTo(host, replayed.value, activation);
    if caughtUp.Err? { return Err(caughtUp.error), batch, unread; }
    var published;
    published, batch := PublishFirst(host, caughtUp.value);
    if published.Err? { return Err(published.error), batch, unread; }
    return Ok(published.value.0), batch, published.value.1;
  }

  lemma SilentBatch(p: Progress, b: Batch)
    ensures Applied(p, b, false).emitted == []
    ensures Applied(p, b, true).error == Applied(p, b, false).error
    ensures Applied(p, b, true).progress == Applied(p, b, false).progress
    ensures Applied(p, b, true).error.None? ==>
              && Applied(p, b, true).emitted == From(p.nextIntent, Emits(b.events))
              && Applied(p, b, true).progress.nextIntent == p.nextIntent + Emits(b.events)
              && Applied(p, b, true).progress.cursor == b.last
  {
    hide KnownSchema;
    OutputIsSilent(p, b.events, b.first, b.last, None);
    if Applied(p, b, true).error.None? { FoldIsExact(p, b.events, b.first, b.last, None, true); }
  }

  // ----- What recovery has read

  // Part of the input applied live from p, ending at the position.
  ghost predicate Reached(p: Progress, input: seq<Batch>, n: nat, at: Position) {
    && n <= |input| && at.unread == input[n..]
    && AppliedAll(p, input[..n], true).error.None? && AppliedAll(p, input[..n], true).progress == at.progress
  }

  lemma ReachedNext(p: Progress, input: seq<Batch>, n: nat, at: Position)
    requires input != [] && Applied(p, input[0], true).error.None?
    requires Reached(Applied(p, input[0], true).progress, input[1..], n, at)
    ensures Reached(p, input, n + 1, at)
  {
    hide Applied;
    assert input[..n + 1][1..] == input[1..][..n];
  }

  lemma {:induction false} SilentReaches(p: Progress, input: seq<Batch>, barrier: u64) returns (n: nat)
    requires Silent(p, input, barrier).Ok?
    ensures Reached(p, input, n, Silent(p, input, barrier).value)
    ensures Silent(p, input, barrier).value.progress.cursor >= barrier
    decreases |input|
  {
    hide Applied;
    if p.cursor >= barrier {
      n := 0;
    } else {
      SilentBatch(p, input[0]);
      n := SilentReaches(Applied(p, input[0], true).progress, input[1..], barrier);
      ReachedNext(p, input, n, Silent(p, input, barrier).value);
      n := n + 1;
    }
  }

  lemma ReachedJoin(p: Progress, input: seq<Batch>, m: nat, at: Position, n: nat, end: Position)
    requires Reached(p, input, m, at) && Reached(at.progress, at.unread, n, end)
    ensures Reached(p, input, m + n, end)
  {
    hide Applied;
    assert input[..m + n] == input[..m] + at.unread[..n];
    RunsConcat(p, input[..m], at.unread[..n], true);
  }

  lemma CatchUpReaches(p: Progress, input: seq<Batch>, barrier: u64, activation: u64) returns (n: nat)
    requires CatchUp(p, input, barrier, activation).Ok?
    ensures Reached(p, input, n, CatchUp(p, input, barrier, activation).value)
    ensures barrier <= activation <= CatchUp(p, input, barrier, activation).value.progress.cursor
  {
    hide Reached;
    var at := Silent(p, input, barrier).value;
    var m := SilentReaches(p, input, barrier);
    var k := SilentReaches(at.progress, at.unread, activation);
    ReachedJoin(p, input, m, at, k, Silent(at.progress, at.unread, activation).value);
    n := m + k;
  }

  lemma {:induction false} LiveReaches(p: Progress, input: seq<Batch>) returns (n: nat)
    requires Live(p, input).Ok?
    ensures var pub := Live(p, input).value;
      && Reached(p, input, n, pub.at) && n > 0 && input[n - 1] == pub.batch
      && pub.intent == p.nextIntent && Emits(pub.batch.events) > 0
      && pub.at.progress.nextIntent == p.nextIntent + Emits(pub.batch.events)
    decreases |input|
  {
    hide Applied;
    var one := Applied(p, input[0], true);
    SilentBatch(p, input[0]);
    if one.emitted != [] {
      n := 1;
      assert input[..1] == [input[0]];
      OneBatch(p, input[0], true);
    } else {
      n := LiveReaches(one.progress, input[1..]);
      ReachedNext(p, input, n, Live(p, input).value.at);
      n := n + 1;
    }
  }

  // ----- Which intents are published

  // An error-free live run of the whole input from p.
  ghost predicate Uninterrupted(p: Progress, input: seq<Batch>) { AppliedAll(p, input, true).error.None? }

  // What the batches between two positions add to the run.
  lemma RunGoesOn(p: Progress, input: seq<Batch>, n: nat, at: Position, k: nat, end: Position)
    requires Reached(p, input, n, at) && Reached(at.progress, at.unread, k, end)
    ensures at.progress.nextIntent <= end.progress.nextIntent
    ensures AppliedAll(p, input[..n + k], true).emitted
            == AppliedAll(p, input[..n], true).emitted
               + From(at.progress.nextIntent, end.progress.nextIntent - at.progress.nextIntent)
  {
    hide Applied;
    assert input[..n + k] == input[..n] + at.unread[..k];
    RunsConcat(p, input[..n], at.unread[..k], true);
    RunEmitsConsecutively(at.progress, at.unread[..k]);
  }

  // What is left can be run on its own.
  lemma RunResumes(p: Progress, input: seq<Batch>, n: nat, at: Position)
    requires Reached(p, input, n, at) && Uninterrupted(p, input)
    ensures Uninterrupted(at.progress, at.unread)
    ensures Emitting(at.unread) + at.progress.nextIntent == p.nextIntent + Emitting(input)
  {
    hide Applied;
    assert input == input[..n] + at.unread;
    RunsConcat(p, input[..n], at.unread, true);
    RunCounts(p, input);
    RunCounts(at.progress, at.unread);
  }

  // The published intent is the next one after the silent batches: what an
  // uninterrupted live run over the same batches emits first after them. That
  // run ends in the same state, but it emits one intent for every emitting event
  // of the last batch, all numbered and all but the first never published.
  lemma FirstIsPublished(p: Progress, input: seq<Batch>, barrier: u64, activation: u64) returns (n: nat, m: nat)
    requires Recovery(p, input, barrier, activation).Ok?
    ensures var pub := Recovery(p, input, barrier, activation).value;
      && n < m <= |input| && input[m - 1] == pub.batch && pub.at.unread == input[m..]
      && Uninterrupted(p, input[..n]) && Uninterrupted(p, input[..m])
      && AppliedAll(p, input[..m], true).progress == pub.at.progress
      && pub.intent == AppliedAll(p, input[..n], true).progress.nextIntent
      && AppliedAll(p, input[..m], true).emitted
         == AppliedAll(p, input[..n], true).emitted + From(pub.intent, Emits(pub.batch.events))
      && Emits(pub.batch.events) > 0
  {
    hide CatchUp, Live, AppliedAll, Emits;
    var at := CatchUp(p, input, barrier, activation).value;
    n := CatchUpReaches(p, input, barrier, activation);
    var k := LiveReaches(at.progress, at.unread);
    var pub := Live(at.progress, at.unread).value;
    m := n + k;
    ReachedJoin(p, input, n, at, k, pub.at);
    RunGoesOn(p, input, n, at, k, pub.at);
    assert input[m - 1] == at.unread[k - 1];
  }

  function Emitting(batches: seq<Batch>): nat {
    if batches == [] then 0 else Emits(batches[0].events) + Emitting(batches[1..])
  }

  lemma {:induction false} RunCounts(p: Progress, input: seq<Batch>)
    requires Uninterrupted(p, input)
    ensures AppliedAll(p, input, true).progress.nextIntent == p.nextIntent + Emitting(input)
    ensures AppliedAll(p, input, true).emitted == From(p.nextIntent, Emitting(input))
    decreases |input|
  {
    hide Applied;
    if input != [] {
      SilentBatch(p, input[0]);
      RunCounts(Applied(p, input[0], true).progress, input[1..]);
      FromConcat(p.nextIntent, Emits(input[0].events), Emitting(input[1..]));
    }
  }

  // Of all that an uninterrupted run emits after the silent batches, the one
  // published intent is everything exactly when the batches not yet read after
  // catching up hold a single emitting event.
  lemma AllArePublished(p: Progress, input: seq<Batch>, barrier: u64, activation: u64)
    requires Recovery(p, input, barrier, activation).Ok? && Uninterrupted(p, input)
    ensures var pub, at := Recovery(p, input, barrier, activation).value, CatchUp(p, input, barrier, activation).value;
      && Uninterrupted(at.progress, at.unread)
      && AppliedAll(at.progress, at.unread, true).emitted
         == From(pub.intent, Emitting(at.unread))
      && Emitting(at.unread) == Emits(pub.batch.events) + Emitting(pub.at.unread)
      && (AppliedAll(at.progress, at.unread, true).emitted == [pub.intent] <==> Emitting(at.unread) == 1)
  {
    hide CatchUp, Live, AppliedAll, Emits, Emitting, Reached, From;
    var at := CatchUp(p, input, barrier, activation).value;
    var n := CatchUpReaches(p, input, barrier, activation);
    RunResumes(p, input, n, at);
    var k := LiveReaches(at.progress, at.unread);
    var pub := Live(at.progress, at.unread).value;
    RunResumes(at.progress, at.unread, k, pub.at);
    RunCounts(at.progress, at.unread);
    FromLength(pub.intent, Emitting(at.unread));
  }

  lemma {:induction false} FromLength(start: nat, n: nat)
    ensures |From(start, n)| == n && (n > 0 ==> From(start, n)[0] == start)
    ensures n == 1 ==> From(start, n) == [start]
    decreases n
  {
    if n > 0 { FromLength(start + 1, n - 1); }
  }

  // A live batch with two emitting events: both are numbered, one is published.
  lemma SecondIntentIsLost(p: Progress, rest: seq<Batch>)
    requires p.cursor + 2 < U64_LIMIT && p.nextIntent + 2 < U64_LIMIT && p.eventCount + 2 < U64_LIMIT
    requires -I64_LIMIT <= p.accumulator < I64_LIMIT
    ensures exists b: Batch ::
              && var r := Recovery(p, [b] + rest, p.cursor, p.cursor);
                 r.Ok? && r.value.intent == p.nextIntent && r.value.at.unread == rest
                 && r.value.at.progress.nextIntent == p.nextIntent + 2
  {
    var first, second := Event(1, 1, true, 9, p.cursor + 1, 0, 1), Event(1, 1, true, 9, p.cursor + 2, 0, 1);
    var b := Batch(true, p.cursor + 1, p.cursor + 2, [first, second]);
    var input := [b] + rest;
    assert input[0] == b && input[1..] == rest;
    TwoEmit(p, b, first, second);
    hide Applied;
    assert Silent(p, input, p.cursor) == Ok(Position(p, input));
    var r := Recovery(p, input, p.cursor, p.cursor);
    assert r == Live(p, input);
  }

  lemma TwoEmit(p: Progress, b: Batch, first: Event, second: Event)
    requires p.cursor + 2 < U64_LIMIT && p.nextIntent + 2 < U64_LIMIT && p.eventCount + 2 < U64_LIMIT
    requires -I64_LIMIT <= p.accumulator < I64_LIMIT
    requires first == Event(1, 1, true, 9, p.cursor + 1, 0, 1) && second == Event(1, 1, true, 9, p.cursor + 2, 0, 1)
    requires b == Batch(true, p.cursor + 1, p.cursor + 2, [first, second])
    ensures var one := Applied(p, b, true);
      one.error.None? && one.emitted == [p.nextIntent, p.nextIntent + 1] && one.progress.nextIntent == p.nextIntent + 2
  {
    var q := Consumed(p, first).0;
    assert b.events[1..] == [second];
    assert Fold(q, [second], b.first, b.last, Some(first.sequence), true)
        == Outcome(Consumed(q, second).0, None, [p.nextIntent + 1]);
  }

  // ----- When recovery succeeds

  // No batch claims a range that ends before it begins.
  ghost predicate Forward(input: seq<Batch>) { forall i :: 0 <= i < |input| ==> input[i].first <= input[i].last + 1 }

  predicate EndsAt(p: Progress, input: seq<Batch>, cursor: u64) {
    p.cursor == cursor || exists i :: 0 <= i < |input| && input[i].last == cursor
  }

  function End(p: Progress, input: seq<Batch>): u64 {
    if input == [] then p.cursor else input[|input| - 1].last
  }

  lemma EndsLater(p: Progress, input: seq<Batch>, cursor: u64)
    requires input != []
    ensures EndsAt(p, input, cursor) <==>
            p.cursor == cursor || EndsAt(p.(cursor := input[0].last), input[1..], cursor)
  {
    var rest := input[1..];
    assert forall i :: 0 <= i < |rest| ==> rest[i] == input[i + 1];
    assert forall i :: 1 <= i < |input| ==> input[i] == rest[i - 1];
  }

  // A cursor never falls, so no batch ends before it.
  lemma {:induction false} CursorsRise(p: Progress, input: seq<Batch>, cursor: u64)
    requires Uninterrupted(p, input) && Forward(input)
    ensures EndsAt(p, input, cursor) ==> p.cursor <= cursor
    ensures p.cursor <= End(p, input)
    decreases |input|
  {
    hide Applied;
    if input != [] {
      var next := Applied(p, input[0], true).progress;
      SilentBatch(p, input[0]);
      CursorMoves(p, input[0], true);
      EndsLater(p, input, cursor);
      assert forall i :: 0 <= i < |input[1..]| ==> input[1..][i] == input[i + 1];
      CursorsRise(next, input[1..], cursor);
      assert End(p, input) == End(next, input[1..]);
    }
  }

  // On a sound stream a loop reaches its barrier unless the stream ends before
  // it, and stops on it exactly when some batch ends there.
  lemma {:induction false} SilentIsExact(p: Progress, input: seq<Batch>, barrier: u64)
    requires Uninterrupted(p, input) && Forward(input)
    ensures Silent(p, input, barrier).Ok? <==> barrier <= End(p, input)
    ensures Silent(p, input, barrier).Ok? ==>
              var at := Silent(p, input, barrier).value;
              && (at.progress.cursor == barrier <==> EndsAt(p, input, barrier))
              && Uninterrupted(at.progress, at.unread) && Forward(at.unread)
              && End(at.progress, at.unread) == End(p, input)
    decreases |input|
  {
    hide Applied;
    CursorsRise(p, input, barrier);
    if p.cursor < barrier && input != [] {
      var next := Applied(p, input[0], true).progress;
      SilentBatch(p, input[0]);
      EndsLater(p, input, barrier);
      assert forall i :: 0 <= i < |input[1..]| ==> input[1..][i] == input[i + 1];
      SilentIsExact(next, input[1..], barrier);
      assert End(p, input) == End(next, input[1..]);
    }
  }

  lemma {:induction false} LiveIsExact(p: Progress, input: seq<Batch>)
    requires Uninterrupted(p, input)
    ensures Live(p, input).Ok? <==> Emitting(input) > 0
    decreases |input|
  {
    hide Applied;
    if input != [] {
      SilentBatch(p, input[0]);
      FromLength(p.nextIntent, Emits(input[0].events));
      LiveIsExact(Applied(p, input[0], true).progress, input[1..]);
    }
  }

  // On a stream whose uninterrupted run has no error, recovery publishes exactly
  // when some batch ends on the barrier, the activation lies between the barrier
  // and the end of the stream, and something is emitted after it.
  lemma RecoveryIsExact(p: Progress, input: seq<Batch>, barrier: u64, activation: u64)
    requires Uninterrupted(p, input) && Forward(input)
    ensures var caughtUp := CatchUp(p, input, barrier, activation);
      && (caughtUp.Ok? <==> EndsAt(p, input, barrier) && barrier <= activation <= End(p, input))
      && (Recovery(p, input, barrier, activation).Ok? <==> caughtUp.Ok? && Emitting(caughtUp.value.unread) > 0)
  {
    hide EndsAt, Silent, Live, Uninterrupted, Forward, Emitting, End;
    SilentIsExact(p, input, barrier);
    if Silent(p, input, barrier).Ok? {
      var at := Silent(p, input, barrier).value;
      SilentIsExact(at.progress, at.unread, activation);
      if Silent(at.progress, at.unread, activation).Ok? {
        var caughtUp := Silent(at.progress, at.unread, activation).value;
        LiveIsExact(caughtUp.progress, caughtUp.unread);
      }
    } else if EndsAt(p, input, barrier) {
      EndIsLast(p, input, barrier);
    }
  }

  // Why recovery fails on such a stream: no batch ends on the barrier, the
  // activation lies before it, or the stream ends too early or emits nothing.
  lemma RecoveryErrors(p: Progress, input: seq<Batch>, barrier: u64, activation: u64)
    requires Uninterrupted(p, input) && Forward(input)
    ensures var r := Recovery(p, input, barrier, activation);
      var reached := EndsAt(p, input, barrier);
      && (r == Err(CrossedBarrier) <==> barrier <= End(p, input) && !reached)
      && (r == Err(InvalidActivation) <==> reached && activation < barrier)
      && (r == Err(EndOfInput) <==>
            || barrier > End(p, input)
            || (reached && barrier <= activation && (activation > End(p, input) || r.Err?)))
      && (r.Err? ==> r.error in {CrossedBarrier, InvalidActivation, EndOfInput})
  {
    hide EndsAt, Uninterrupted, Forward, End, Applied;
    SilentIsExact(p, input, barrier);
    SilentErrors(p, input, barrier);
    if EndsAt(p, input, barrier) { EndIsLast(p, input, barrier); }
    if Silent(p, input, barrier).Ok? {
      var at := Silent(p, input, barrier).value;
      SilentIsExact(at.progress, at.unread, activation);
      SilentErrors(at.progress, at.unread, activation);
      if Silent(at.progress, at.unread, activation).Ok? {
        var caughtUp := Silent(at.progress, at.unread, activation).value;
        LiveErrors(caughtUp.progress, caughtUp.unread);
      }
    }
  }

  lemma {:induction false} SilentErrors(p: Progress, input: seq<Batch>, barrier: u64)
    requires Uninterrupted(p, input)
    ensures Silent(p, input, barrier).Err? ==> Silent(p, input, barrier).error == EndOfInput
    decreases |input|
  {
    hide Applied;
    if p.cursor < barrier && input != [] {
      SilentBatch(p, input[0]);
      SilentErrors(Applied(p, input[0], true).progress, input[1..], barrier);
    }
  }

  lemma {:induction false} LiveErrors(p: Progress, input: seq<Batch>)
    requires Uninterrupted(p, input)
    ensures Live(p, input).Err? ==> Live(p, input).error == EndOfInput
    decreases |input|
  {
    hide Applied;
    if input != [] {
      SilentBatch(p, input[0]);
      LiveErrors(Applied(p, input[0], true).progress, input[1..]);
    }
  }

  // A batch that fails stops recovery with its own error.
  lemma FailureStops(p: Progress, input: seq<Batch>, barrier: u64)
    requires input != [] && Applied(p, input[0], true).error.Some?
    ensures p.cursor < barrier ==> Silent(p, input, barrier) == Err(Failed(Applied(p, input[0], true).error.value))
    ensures Live(p, input) == Err(Failed(Applied(p, input[0], true).error.value))
  {
    SilentBatch(p, input[0]);
  }

  // Nothing ends behind the end.
  lemma {:induction false} EndIsLast(p: Progress, input: seq<Batch>, cursor: u64)
    requires Uninterrupted(p, input) && Forward(input) && EndsAt(p, input, cursor)
    ensures cursor <= End(p, input)
    decreases |input|
  {
    hide Applied;
    CursorsRise(p, input, cursor);
    if input != [] && p.cursor != cursor {
      var next := Applied(p, input[0], true).progress;
      SilentBatch(p, input[0]);
      EndsLater(p, input, cursor);
      assert forall i :: 0 <= i < |input[1..]| ==> input[1..][i] == input[i + 1];
      EndIsLast(next, input[1..], cursor);
      assert End(p, input) == End(next, input[1..]);
    }
  }
}
