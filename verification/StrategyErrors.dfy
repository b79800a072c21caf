// When a replay batch is applied without error, and which error it stops with.
module StrategyErrors {
  import opened Bytes
  import opened Wrappers
  import opened StrategyReplay

  // ----- The events of a batch

  // An event of a known kind and layout, within the batch's range and after the
  // event before it.
  ghost predicate InPlace(events: seq<Event>, first: u64, last: u64, previous: Option<u64>, i: nat)
    requires i < |events|
  {
    var e := events[i];
    && 1 <= e.kind <= 6 && e.schema == 1 && e.payloadLength == 9 && (e.emits == 0 || e.emits == 1)
    && first <= e.sequence <= last
    && (if i > 0 then events[i - 1].sequence < e.sequence else previous.Some? ==> previous.value < e.sequence)
  }

  // The accumulator stays in 64 signed bits and the count in 64 unsigned ones.
  ghost predicate StateFits(p: Progress, events: seq<Event>, n: nat)
    requires n <= |events|
  {
    -0x8000_0000_0000_0000 <= p.accumulator + Sum(events[..n]) <= 0x7FFF_FFFF_FFFF_FFFF
    && p.eventCount + n <= 0xFFFF_FFFF_FFFF_FFFF
  }

  // Intent numbers stay below the greatest one, which is never given out.
  ghost predicate IntentsFit(p: Progress, events: seq<Event>, n: nat)
    requires n <= |events|
  {
    p.nextIntent + Emits(events[..n]) <= 0xFFFF_FFFF_FFFF_FFFF
  }

  ghost predicate Good(p: Progress, events: seq<Event>, first: u64, last: u64, previous: Option<u64>, n: nat)
    requires n <= |events|
  {
    forall i :: 0 <= i < n ==> GoodAt(p, events, first, last, previous, i)
  }

  ghost predicate GoodAt(p: Progress, events: seq<Event>, first: u64, last: u64, previous: Option<u64>, i: nat)
    requires i < |events|
  {
    InPlace(events, first, last, previous, i) && StateFits(p, events, i + 1) && IntentsFit(p, events, i + 1)
  }

  lemma {:induction false} SumGrows(events: seq<Event>, e: Event)
    ensures Sum(events + [e]) == Sum(events) + e.delta
    ensures Emits(events + [e]) == Emits(events) + if e.emits == 1 then 1 else 0
  {
    if events == [] {
      assert [e][1..] == [];
    } else {
      assert (events + [e])[1..] == events[1..] + [e];
      SumGrows(events[1..], e);
    }
  }

  // After the good events before it, an event is taken or stops the fold.
  lemma EventDecides(p: Progress, events: seq<Event>, first: u64, last: u64, previous: Option<u64>, output: bool,
                     n: nat)
    requires n < |events| && Fold(p, events[..n], first, last, previous, output).error.None?
    ensures var r := Fold(p, events[..n + 1], first, last, previous, output);
      r.error == (if !InPlace(events, first, last, previous, n) then Some(InvalidEvent)
                  else if !StateFits(p, events, n + 1) then Some(StateOverflow)
                  else if !IntentsFit(p, events, n + 1) then Some(IntentOverflow) else None)
  {
    var front, e := events[..n], events[n];
    assert events[..n + 1] == front + [e];
    FoldConcat(p, front, [e], first, last, previous, output);
    FoldIsExact(p, front, first, last, previous, output);
    SumGrows(front, e);
    var x := Fold(p, front, first, last, previous, output).progress;
    assert [e][1..] == [];
    assert LastSequence(front, previous) == if n > 0 then Some(events[n - 1].sequence) else previous;
  }

  lemma {:induction false} FoldStays(p: Progress, events: seq<Event>, first: u64, last: u64, previous: Option<u64>,
                                     output: bool, n: nat)
    requires n <= |events| && Fold(p, events[..n], first, last, previous, output).error.Some?
    ensures Fold(p, events, first, last, previous, output) == Fold(p, events[..n], first, last, previous, output)
  {
    assert events == events[..n] + events[n..];
    FoldConcat(p, events[..n], events[n..], first, last, previous, output);
  }

  lemma {:induction false} PrefixIsGood(p: Progress, events: seq<Event>, first: u64, last: u64, previous: Option<u64>,
                                        output: bool, n: nat)
    requires n <= |events|
    ensures Fold(p, events[..n], first, last, previous, output).error.None?
            <==> Good(p, events, first, last, previous, n)
  {
    hide Fold, InPlace, StateFits, IntentsFit;
    if n == 0 {
      NothingFolds(p, first, last, previous, output);
    } else {
      PrefixIsGood(p, events, first, last, previous, output, n - 1);
      if Good(p, events, first, last, previous, n - 1) {
        EventDecides(p, events, first, last, previous, output, n - 1);
        assert Fold(p, events[..n], first, last, previous, output).error.None?
            <==> GoodAt(p, events, first, last, previous, n - 1);
      } else {
        assert events[..n][..n - 1] == events[..n - 1];
        FoldStays(p, events[..n], first, last, previous, output, n - 1);
      }
    }
  }

  lemma NothingFolds(p: Progress, first: u64, last: u64, previous: Option<u64>, output: bool)
    ensures Fold(p, [], first, last, previous, output).error.None?
  {
  }

  // A fold has no error exactly when all events are in place and every running
  // total fits.
  lemma FoldSucceeds(p: Progress, events: seq<Event>, first: u64, last: u64, previous: Option<u64>, output: bool)
    ensures Fold(p, events, first, last, previous, output).error.None?
            <==> Good(p, events, first, last, previous, |events|)
  {
    assert events[..|events|] == events;
    PrefixIsGood(p, events, first, last, previous, output, |events|);
  }

  // Otherwise it stops at the first event that is not, with that event's error.
  lemma {:induction false} FoldStops(p: Progress, events: seq<Event>, first: u64, last: u64, previous: Option<u64>,
                                     output: bool) returns (i: nat)
    requires Fold(p, events, first, last, previous, output).error.Some?
    ensures i < |events| && Good(p, events, first, last, previous, i)
    ensures Fold(p, events, first, last, previous, output).error
            == (if !InPlace(events, first, last, previous, i) then Some(InvalidEvent)
                else if !StateFits(p, events, i + 1) then Some(StateOverflow) else Some(IntentOverflow))
    ensures InPlace(events, first, last, previous, i) && StateFits(p, events, i + 1) ==> !IntentsFit(p, events, i + 1)
  {
    hide Fold, InPlace, StateFits, IntentsFit;
    i := 0;
    NothingFolds(p, first, last, previous, output);
    assert events[..0] == [] && events[..|events|] == events;
    while Fold(p, events[..i + 1], first, last, previous, output).error.None?
      invariant i < |events| && Fold(p, events[..i], first, last, previous, output).error.None?
      decreases |events| - i
    {
      i := i + 1;
    }
    PrefixIsGood(p, events, first, last, previous, output, i);
    EventDecides(p, events, first, last, previous, output, i);
    FoldStays(p, events, first, last, previous, output, i + 1);
  }

  // ----- The batch

  // A batch is applied exactly when its registry and every event's schema are
  // known, it begins behind the cursor, and its events fold; its cursor is then
  // the batch's last sequence.
  lemma BatchIsExact(p: Progress, b: Batch, output: bool)
    ensures var r := Applied(p, b, output);
      var known := && b.registryKnown
                   && forall i :: 0 <= i < |b.events| ==>
                        && 1 <= b.events[i].kind <= 7 && b.events[i].schema == 1
                        && (b.events[i].kind == 7 ==> b.events[i].depthDecodes);
      && (r.error == Some(RecoveryNeeded) <==> !known)
      && (r.error == Some(CursorGap) <==> known && b.first != p.cursor + 1)
      && (r.error.None? <==>
            known && b.first == p.cursor + 1 && Good(p, b.events, b.first, b.last, None, |b.events|))
      && (!known || b.first != p.cursor + 1 ==> r.progress == p && r.emitted == [])
      && (r.error.None? ==>
            && r.progress.cursor == b.last && r.progress.nextIntent == p.nextIntent + Emits(b.events)
            && r.progress.accumulator == p.accumulator + Sum(b.events)
            && r.progress.eventCount == p.eventCount + |b.events|
            && r.emitted == (if output then From(p.nextIntent, Emits(b.events)) else []))
  {
    hide Fold, Good;
    FoldSucceeds(p, b.events, b.first, b.last, None, output);
    var folded := Fold(p, b.events, b.first, b.last, None, output);
    if folded.error.None? {
      FoldIsExact(p, b.events, b.first, b.last, None, output);
    } else {
      var i := FoldStops(p, b.events, b.first, b.last, None, output);
    }
  }
}
