// Replay of journal batches by the strategy host: the fold that rebuilds a
// strategy's private state from a checkpoint.
module StrategyReplay {
  import opened Bytes
  import opened Wrappers

  const I64_LIMIT: int := 0x8000_0000_0000_0000
  const U64_LIMIT: nat := 0x1_0000_0000_0000_0000

  datatype Event = Event(
    kind: nat, schema: nat, depthDecodes: bool, payloadLength: nat, sequence: u64, delta: int, emits: nat)

  datatype Batch = Batch(registryKnown: bool, first: u64, last: u64, events: seq<Event>)

  // The part of the metadata and state that replay changes.
  datatype Progress = Progress(cursor: u64, nextIntent: u64, accumulator: int, eventCount: nat)

  datatype ReplayError = RecoveryNeeded | CursorGap | InvalidEvent | StateOverflow | IntentOverflow

  // ----- One batch

  predicate KnownSchema(b: Batch) {
    b.registryKnown
    && forall i :: 0 <= i < |b.events| ==>
         1 <= b.events[i].kind <= 7 && b.events[i].schema == 1 && (b.events[i].kind == 7 ==> b.events[i].depthDecodes)
  }

  predicate ValidEvent(e: Event, first: u64, last: u64, previous: Option<u64>) {
    && 1 <= e.kind <= 6 && e.schema == 1 && e.payloadLength == 9 && first <= e.sequence <= last
    && (previous.Some? ==> previous.value < e.sequence)
    && e.emits in {0, 1}
  }

  // The state after one event, which on an error keeps what was already written.
  function Consumed(p: Progress, e: Event): (Progress, Option<ReplayError>) {
    var accumulator, count := p.accumulator + e.delta, p.eventCount + 1;
    if !(-I64_LIMIT <= accumulator < I64_LIMIT) || count >= U64_LIMIT then (p, Some(StateOverflow))
    else
      var q := p.(accumulator := accumulator, eventCount := count);
      if e.emits == 0 then (q, None)
      else if q.nextIntent == U64_LIMIT - 1 then (q, Some(IntentOverflow))
      else (q.(nextIntent := q.nextIntent + 1), None)
  }

  datatype Outcome = Outcome(progress: Progress, error: Option<ReplayError>, emitted: seq<u64>)

  // An outcome after intents already collected; an error drops them all.
  function After(emitted: seq<u64>, o: Outcome): Outcome {
    if o.error.Some? then o.(emitted := []) else o.(emitted := emitted + o.emitted)
  }

  lemma AfterAssoc(a: seq<u64>, b: seq<u64>, o: Outcome)
    ensures After(a, After(b, o)) == After(a + b, o)
    ensures (o.error.Some? ==> o.emitted == []) ==> After([], o) == o
  {
    assert a + (b + o.emitted) == (a + b) + o.emitted && [] + o.emitted == o.emitted;
  }

  function Fold(p: Progress, events: seq<Event>, first: u64, last: u64, previous: Option<u64>,
                output: bool): (o: Outcome)
    ensures o.error.Some? ==> o.emitted == []
    decreases |events|
  {
    if events == [] then Outcome(p, None, [])
    else if !ValidEvent(events[0], first, last, previous) then Outcome(p, Some(InvalidEvent), [])
    else
      var (q, error) := Consumed(p, events[0]);
      if error.Some? then Outcome(q, error, [])
      else
        After(if output && events[0].emits == 1 then [p.nextIntent] else [],
              Fold(q, events[1..], first, last, Some(events[0].sequence), output))
  }

  function Applied(p: Progress, b: Batch, output: bool): Outcome {
    if !KnownSchema(b) then Outcome(p, Some(RecoveryNeeded), [])
    else if b.first != p.cursor + 1 then Outcome(p, Some(CursorGap), [])
    else
      var folded := Fold(p, b.events, b.first, b.last, None, output);
      if folded.error.Some? then folded else folded.(progress := folded.progress.(cursor := b.last))
  }

  class Host {
    var progress: Progress

    constructor (checkpoint: Progress)
      ensures progress == checkpoint
    {
      progress := checkpoint;
    }

    method ApplyReplayBatch(b: Batch, output: bool) returns (error: Option<ReplayError>, emitted: seq<u64>)
      modifies this
      ensures Applied(old(progress), b, output) == Outcome(progress, error, emitted)
    {
      hide ValidEvent, Consumed, KnownSchema;
      if !KnownSchema(b) { return Some(RecoveryNeeded), []; }
      if b.first != progress.cursor + 1 { return Some(CursorGap), []; }
      emitted := [];
      var previous := None;
      ghost var whole := Fold(progress, b.events, b.first, b.last, None, output);
      AfterAssoc([], [], whole);
      assert b.events[0..] == b.events;
      for i := 0 to |b.events|
        invariant whole == After(emitted, Fold(progress, b.events[i..], b.first, b.last, previous, output))
      {
        var e := b.events[i];
        ghost var sofar, rest := emitted, b.events[i..];
        assert b.events[i..][1..] == b.events[i + 1..];
        if !ValidEvent(e, b.first, b.last, previous) {
          assert whole == Outcome(progress, Some(InvalidEvent), []);
          return Some(InvalidEvent), [];
        }
        var (next, error) := Consumed(progress, e);
        if error.Some? {
          assert whole == Outcome(next, error, []);
          progress := next;
          return error, [];
        }
        var sent := if output && e.emits == 1 then [progress.nextIntent] else [];
        emitted := emitted + sent;
        AfterAssoc(sofar, sent, Fold(next, b.events[i + 1..], b.first, b.last, Some(e.sequence), output));
        progress, previous := next, Some(e.sequence);
      }
      assert whole == Outcome(progress, None, emitted);
      progress := progress.(cursor := b.last);
      return None, emitted;
    }
  }

  // ----- What a fold computes

  function Sum(events: seq<Event>): int {
    if events == [] then 0 else events[0].delta + Sum(events[1..])
  }

  function Emits(events: seq<Event>): nat {
    if events == [] then 0 else (if events[0].emits == 1 then 1 else 0) + Emits(events[1..])
  }

  function From(start: nat, n: nat): seq<nat>
    decreases n
  {
    if n == 0 then [] else [start] + From(start + 1, n - 1)
  }

  // A successful fold adds up the deltas, counts the events, and emits exactly
  // the next intent sequences, one per emitting event.
  lemma {:induction false} FoldIsExact(p: Progress, events: seq<Event>, first: u64, last: u64, previous: Option<u64>,
                                       output: bool)
    requires Fold(p, events, first, last, previous, output).error.None?
    ensures var r := Fold(p, events, first, last, previous, output);
      && r.progress.cursor == p.cursor
      && r.progress.accumulator == p.accumulator + Sum(events)
      && r.progress.eventCount == p.eventCount + |events|
      && r.progress.nextIntent == p.nextIntent + Emits(events)
      && r.emitted == (if output then From(p.nextIntent, Emits(events)) else [])
    decreases |events|
  {
    if events != [] {
      var q := Consumed(p, events[0]).0;
      FoldIsExact(q, events[1..], first, last, Some(events[0].sequence), output);
      if events[0].emits == 1 { assert Emits(events) == 1 + Emits(events[1..]); }
    }
  }

  // Output changes what is emitted and nothing else.
  lemma {:induction false} OutputIsSilent(p: Progress, events: seq<Event>, first: u64, last: u64, previous: Option<u64>)
    ensures var live, quiet := Fold(p, events, first, last, previous, true), Fold(p, events, first, last, previous,
        false);
      live.progress == quiet.progress && live.error == quiet.error && quiet.emitted == []
    decreases |events|
  {
    if events != [] && ValidEvent(events[0], first, last, previous) {
      OutputIsSilent(Consumed(p, events[0]).0, events[1..], first, last, Some(events[0].sequence));
    }
  }

  // ----- Batches of a stream

  // Batches applied one after the other, as recovery does.
  function AppliedAll(p: Progress, batches: seq<Batch>, output: bool): Outcome
    decreases |batches|
  {
    if batches == [] then Outcome(p, None, [])
    else
      var one := Applied(p, batches[0], output);
      if one.error.Some? then one
      else
        After(one.emitted, AppliedAll(one.progress, batches[1..], output))
  }

  // The sequence of the last event folded, if any.
  function LastSequence(events: seq<Event>, previous: Option<u64>): Option<u64> {
    if events == [] then previous else Some(events[|events| - 1].sequence)
  }

  lemma {:induction false} FoldConcat(p: Progress, a: seq<Event>, b: seq<Event>, first: u64, last: u64,
                                      previous: Option<u64>, output: bool)
    ensures var x := Fold(p, a, first, last, previous, output);
      Fold(p, a + b, first, last, previous, output)
      == if x.error.Some? then x
         else After(x.emitted, Fold(x.progress, b, first, last, LastSequence(a, previous), output))
    decreases |a|
  {
    hide ValidEvent, Consumed;
    if a == [] {
      assert a + b == b;
      AfterAssoc([], [], Fold(p, b, first, last, previous, output));
    } else {
      assert (a + b)[1..] == a[1..] + b;
      var q, sent := Consumed(p, a[0]).0, if output && a[0].emits == 1 then [p.nextIntent] else [];
      FoldConcat(q, a[1..], b, first, last, Some(a[0].sequence), output);
      var x := Fold(q, a[1..], first, last, Some(a[0].sequence), output);
      if x.error.None? {
        AfterAssoc(sent, x.emitted, Fold(x.progress, b, first, last, LastSequence(a, previous), output));
        assert LastSequence(a[1..], Some(a[0].sequence)) == LastSequence(a, previous);
      }
    }
  }

  predicate Within(events: seq<Event>, low: nat, high: nat) {
    forall i :: 0 <= i < |events| ==> low <= events[i].sequence <= high
  }

  // A wider range changes nothing for events that lie in the narrower one.
  lemma {:induction false} RangeIsSlack(p: Progress, events: seq<Event>, first: u64, last: u64, low: u64, high: u64,
                                        previous: Option<u64>, earlier: Option<u64>, output: bool)
    requires low <= first && last <= high && Within(events, first, last)
    requires previous == earlier || (previous.None? && earlier.Some? && earlier.value < first)
    ensures Fold(p, events, low, high, earlier, output) == Fold(p, events, first, last, previous, output)
    decreases |events|
  {
    hide Consumed;
    if events != [] {
      RangeIsSlack(Consumed(p, events[0]).0, events[1..], first, last, low, high, Some(events[0].sequence),
                   Some(events[0].sequence), output);
    }
  }

  lemma {:induction false} FoldedIsWithin(p: Progress, events: seq<Event>, first: u64, last: u64,
                                          previous: Option<u64>, output: bool)
    requires Fold(p, events, first, last, previous, output).error.None?
    ensures Within(events, first, last)
    decreases |events|
  {
    hide Consumed;
    if events != [] {
      FoldedIsWithin(Consumed(p, events[0]).0, events[1..], first, last, Some(events[0].sequence), output);
    }
  }

  lemma OneBatch(p: Progress, b: Batch, output: bool)
    ensures AppliedAll(p, [b], output) == Applied(p, b, output)
  {
    hide Fold, KnownSchema;
    var one := Applied(p, b, output);
    assert [b][1..] == [];
    if one.error.None? { assert one.emitted + [] == one.emitted; }
  }

  // Two neighbouring batches are one: applying both succeeds exactly when
  // applying their join does and each holds the events of its own range, and
  // then state, cursor, next intent and intents are the same.
  lemma TwoBatchesAreOne(p: Progress, a: Batch, b: Batch, output: bool)
    requires a.first <= a.last + 1 == b.first <= b.last + 1
    ensures var joined := Batch(a.registryKnown && b.registryKnown, a.first, b.last, a.events + b.events);
      var one, two := Applied(p, joined, output), AppliedAll(p, [a, b], output);
      && (two.error.None? <==>
            one.error.None? && Within(a.events, a.first, a.last) && Within(b.events, b.first, b.last))
      && (two.error.None? ==> two == one)
  {
    hide Fold, KnownSchema, Within, Consumed, ValidEvent;
    var joined := Batch(a.registryKnown && b.registryKnown, a.first, b.last, a.events + b.events);
    assert KnownSchema(joined) == (KnownSchema(a) && KnownSchema(b)) by { SchemaJoins(a, b, joined); }
    assert [a, b][1..] == [b];
    if Applied(p, a, output).error.None? { OneBatch(Applied(p, a, output).progress, b, output); }
    var x := Fold(p, a.events, a.first, a.last, None, output);
    FoldConcat(p, a.events, b.events, a.first, b.last, None, output);
    if x.error.None? { FoldedIsWithin(p, a.events, a.first, a.last, None, output); }
    if Within(a.events, a.first, a.last) {
      RangeIsSlack(p, a.events, a.first, a.last, a.first, b.last, None, None, output);
      LastIsWithin(a.events, a.first, a.last);
      if x.error.None? {
        var q := x.progress;
        var y := Fold(q.(cursor := a.last), b.events, b.first, b.last, None, output);
        if y.error.None? { FoldedIsWithin(q.(cursor := a.last), b.events, b.first, b.last, None, output); }
        CursorIsIdle(q, a.last, b.events, b.first, b.last, None, output);
        if Within(b.events, b.first, b.last) {
          RangeIsSlack(q, b.events, b.first, b.last, a.first, b.last, None, LastSequence(a.events, None), output);
        }
      }
    }
  }

  lemma LastIsWithin(events: seq<Event>, first: nat, last: nat)
    requires Within(events, first, last)
    ensures LastSequence(events, None).Some? ==> LastSequence(events, None).value <= last
  {
  }

  lemma SchemaJoins(a: Batch, b: Batch, joined: Batch)
    requires joined.registryKnown == (a.registryKnown && b.registryKnown) && joined.events == a.events + b.events
    ensures KnownSchema(joined) == (KnownSchema(a) && KnownSchema(b))
  {
    if KnownSchema(joined) {
      assert forall i :: 0 <= i < |a.events| ==> joined.events[i] == a.events[i];
      assert forall i :: 0 <= i < |b.events| ==> joined.events[|a.events| + i] == b.events[i];
    }
  }

  // The fold never reads the cursor.
  lemma {:induction false} CursorIsIdle(p: Progress, cursor: u64, events: seq<Event>, first: u64, last: u64,
                                        previous: Option<u64>, output: bool)
    ensures var x, y := Fold(p, events, first, last, previous, output), Fold(p.(cursor := cursor), events, first,
        last, previous, output);
      y == x.(progress := x.progress.(cursor := cursor))
    decreases |events|
  {
    hide ValidEvent;
    if events != [] {
      CursorIsIdle(Consumed(p, events[0]).0, cursor, events[1..], first, last, Some(events[0].sequence), output);
    }
  }

  // ----- Any cutting of a stream

  // A stream cut into batches of consecutive ranges.
  ghost predicate Contiguous(batches: seq<Batch>) {
    && (forall i :: 0 <= i < |batches| ==> batches[i].first <= batches[i].last + 1)
    && (forall i, j :: 0 <= i && j == i + 1 < |batches| ==> batches[i].last + 1 == batches[j].first)
  }

  function Joined(batches: seq<Batch>): Batch
    requires batches != []
    decreases |batches|
  {
    if |batches| == 1 then batches[0]
    else
      var rest := Joined(batches[1..]);
      Batch(batches[0].registryKnown
          && rest.registryKnown, batches[0].first, rest.last, batches[0].events + rest.events)
  }

  lemma {:induction false} JoinedRange(batches: seq<Batch>)
    requires Contiguous(batches) && batches != []
    ensures Joined(batches).first == batches[0].first && Joined(batches).first <= Joined(batches).last + 1
    decreases |batches|
  {
    if |batches| > 1 {
      var rest := batches[1..];
      assert Contiguous(rest) by { TailContiguous(batches); }
      JoinedRange(rest);
      assert batches[0].last + 1 == batches[1].first == rest[0].first;
    }
  }

  lemma TailContiguous(batches: seq<Batch>)
    requires Contiguous(batches) && batches != []
    ensures Contiguous(batches[1..])
  {
    var rest := batches[1..];
    forall i, j | 0 <= i && j == i + 1 < |rest| ensures rest[i].last + 1 == rest[j].first {
      assert rest[i] == batches[i + 1] && rest[j] == batches[j + 1];
    }
  }

  predicate OwnRanges(batches: seq<Batch>) {
    forall i :: 0 <= i < |batches| ==> Within(batches[i].events, batches[i].first, batches[i].last)
  }

  lemma {:induction false} JoinedWithin(batches: seq<Batch>)
    requires Contiguous(batches) && batches != [] && OwnRanges(batches)
    ensures Within(Joined(batches).events, Joined(batches).first, Joined(batches).last)
    decreases |batches|
  {
    if |batches| > 1 {
      var rest := batches[1..];
      TailContiguous(batches);
      JoinedRange(batches);
      JoinedRange(rest);
      assert batches[0].last + 1 == batches[1].first == rest[0].first;
      assert forall i :: 0 <= i < |rest| ==> rest[i] == batches[i + 1];
      JoinedWithin(rest);
    }
  }

  // However a stream is cut into consecutive batches, replaying them one by one
  // succeeds exactly when replaying the whole stream at once does and every
  // batch keeps to its own range; both then end alike: same accumulator, count,
  // cursor, next intent and intents.
  lemma {:induction false} CuttingIsUnobservable(p: Progress, batches: seq<Batch>, output: bool)
    requires Contiguous(batches) && batches != []
    ensures var one, all := Applied(p, Joined(batches), output), AppliedAll(p, batches, output);
      && (all.error.None? <==> one.error.None? && OwnRanges(batches))
      && (all.error.None? ==> all == one)
    decreases |batches|
  {
    hide Applied, KnownSchema, Within;
    var a, rest := batches[0], batches[1..];
    if |batches| == 1 {
      assert batches == [a];
      OneBatch(p, a, output);
      if Applied(p, a, output).error.None? { AppliedWithin(p, a, output); }
    } else {
      TailContiguous(batches);
      JoinedRange(rest);
      JoinedRange(batches);
      var one, b := Applied(p, a, output), Joined(rest);
      CuttingIsUnobservable(one.progress, rest, output);
      OneBatch(one.progress, b, output);
      assert [a, b][1..] == [b];
      assert a.first <= a.last + 1 == b.first by { assert batches[0].last + 1 == batches[1].first; }
      TwoBatchesAreOne(p, a, b, output);
      assert OwnRanges(batches) <==> Within(a.events, a.first, a.last) && OwnRanges(rest) by { RangesTail(batches); }
      if OwnRanges(rest) { JoinedWithin(rest); }
    }
  }

  lemma AppliedWithin(p: Progress, b: Batch, output: bool)
    requires Applied(p, b, output).error.None?
    ensures Within(b.events, b.first, b.last)
  {
    FoldedIsWithin(p, b.events, b.first, b.last, None, output);
  }

  lemma RangesTail(batches: seq<Batch>)
    requires batches != []
    ensures OwnRanges(batches) <==>
            Within(batches[0].events, batches[0].first, batches[0].last) && OwnRanges(batches[1..])
  {
    hide Within;
    var rest := batches[1..];
    assert forall i :: 0 <= i < |rest| ==> rest[i] == batches[i + 1];
    assert forall i :: 1 <= i < |batches| ==> batches[i] == rest[i - 1];
  }

  // ----- Catching up in silence, then going live

  lemma {:induction false} SilenceChangesNothing(p: Progress, batches: seq<Batch>)
    ensures var live, quiet := AppliedAll(p, batches, true), AppliedAll(p, batches, false);
      live.progress == quiet.progress && live.error == quiet.error && quiet.emitted == []
    decreases |batches|
  {
    hide KnownSchema, Fold;
    if batches != [] {
      OutputIsSilent(p, batches[0].events, batches[0].first, batches[0].last, None);
      var one := Applied(p, batches[0], true);
      if one.error.None? { SilenceChangesNothing(one.progress, batches[1..]); }
    }
  }

  lemma {:induction false} RunsConcat(p: Progress, a: seq<Batch>, b: seq<Batch>, output: bool)
    ensures var x := AppliedAll(p, a, output);
      AppliedAll(p, a + b, output) == if x.error.Some? then x else After(x.emitted, AppliedAll(x.progress, b, output))
    ensures AppliedAll(p, a, output).error.Some? ==> AppliedAll(p, a, output).emitted == []
    decreases |a|
  {
    hide Applied;
    if a == [] {
      assert a + b == b;
      ErrorIsQuiet(p, b, output);
      AfterAssoc([], [], AppliedAll(p, b, output));
    } else {
      assert (a + b)[1..] == a[1..] + b;
      var one := Applied(p, a[0], output);
      ErrorIsQuiet(p, a, output);
      if one.error.None? {
        RunsConcat(one.progress, a[1..], b, output);
        var x := AppliedAll(one.progress, a[1..], output);
        if x.error.None? { AfterAssoc(one.emitted, x.emitted, AppliedAll(x.progress, b, output)); }
      }
    }
  }

  lemma ErrorIsQuiet(p: Progress, batches: seq<Batch>, output: bool)
    ensures AppliedAll(p, batches, output).error.Some? ==> AppliedAll(p, batches, output).emitted == []
  {
    hide Fold, KnownSchema;
  }

  // Every run emits consecutive intent sequences from the next intent on, one
  // per emitting event.
  lemma {:induction false} RunEmitsConsecutively(p: Progress, batches: seq<Batch>)
    requires AppliedAll(p, batches, true).error.None?
    ensures var r := AppliedAll(p, batches, true);
      r.progress.nextIntent >= p.nextIntent && r.emitted == From(p.nextIntent, r.progress.nextIntent - p.nextIntent)
    decreases |batches|
  {
    hide KnownSchema, Fold;
    if batches != [] {
      var b := batches[0];
      FoldIsExact(p, b.events, b.first, b.last, None, true);
      var one := Applied(p, b, true);
      RunEmitsConsecutively(one.progress, batches[1..]);
      var r := AppliedAll(p, batches, true);
      FromConcat(p.nextIntent, Emits(b.events), r.progress.nextIntent - one.progress.nextIntent);
    }
  }

  lemma {:induction false} FromConcat(start: nat, m: nat, n: nat)
    ensures From(start, m) + From(start + m, n) == From(start, m + n)
    decreases m
  {
    if m > 0 { FromConcat(start + 1, m - 1, n); }
  }

  // Catching up without output and then going live ends where an uninterrupted
  // live run ends, and emits exactly the intents that run emits after the barrier.
  lemma CatchUpThenLive(p: Progress, before: seq<Batch>, live: seq<Batch>)
    requires AppliedAll(p, before + live, true).error.None?
    ensures var caughtUp := AppliedAll(p, before, false); var all := AppliedAll(p, before + live, true);
      && caughtUp.error.None? && caughtUp.emitted == []
      && var resumed := AppliedAll(caughtUp.progress, live, true);
        && resumed.error.None? && resumed.progress == all.progress
        && all.emitted == AppliedAll(p, before, true).emitted + resumed.emitted
        && caughtUp.progress.nextIntent <= all.progress.nextIntent
        && resumed.emitted == From(caughtUp.progress.nextIntent, all.progress.nextIntent - caughtUp.progress.nextIntent)
  {
    hide Applied;
    SilenceChangesNothing(p, before);
    RunsConcat(p, before, live, true);
    RunEmitsConsecutively(AppliedAll(p, before, false).progress, live);
  }

  // ----- The cursor

  // An applied batch moves the cursor to its end, which is forward unless the
  // batch claims a range that ends before it begins.
  lemma CursorMoves(p: Progress, b: Batch, output: bool)
    requires Applied(p, b, output).error.None?
    ensures Applied(p, b, output).progress.cursor == b.last
    ensures Applied(p, b, output).progress.cursor >= p.cursor <==> b.last + 1 >= b.first
    ensures b.events != [] ==> b.first <= b.last
  {
    hide Fold;
    FoldedIsWithin(p, b.events, b.first, b.last, None, output);
    if b.events != [] { assert b.first <= b.events[0].sequence <= b.last; }
  }

  // Such a batch is accepted when it is empty, and moves the cursor back.
  lemma EmptyBatchMovesBack()
    ensures var r := Applied(Progress(5, 1, 0, 0), Batch(true, 6, 2, []), false);
      r.error.None? && r.progress.cursor == 2
  {
  }
}
