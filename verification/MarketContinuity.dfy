// What every run of market inputs keeps: scoped books, unbroken chains of
// accepted evidence, recovery by fresh snapshots only, and isolation.
module MarketContinuity {
  import opened Bytes
  import opened Wrappers
  import opened Depth
  import opened MarketProjection

  // ----- The invariant of a run

  ghost predicate InScope(e: Entry, b: Book) {
    && b.complete && b.instrument == b.bestBid.instrument == b.bestAsk.instrument == e.instrument
    && e.activeRules == Some(b.bestBid.rulesVersion) == Some(b.bestAsk.rulesVersion)
    && (b.depth.Some? ==> GoodBook(b))
  }

  ghost predicate PriceInScope(e: Entry, p: Option<Price>) {
    p.Some? ==> p.value.instrument == e.instrument && e.activeRules == Some(p.value.rulesVersion)
  }

  ghost predicate SoundEntry(e: Entry) {
    && e.definition.instrument == e.instrument
    && (e.lastBook.Some? ==> InScope(e, e.lastBook.value))
    && (e.lastDelta.Some? ==> e.lastBook == Some(Postimage(e.lastDelta.value)))
    && (e.health == Healthy ==> e.lastBook.Some?)
    && PriceInScope(e, e.mark) && PriceInScope(e, e.index)
  }

  ghost predicate Sound(m: Market) {
    && |m.entries| <= MAX_INSTRUMENTS
    && (forall i :: 0 <= i < |m.entries| ==> SoundEntry(m.entries[i]))
    && (forall i, j :: 0 <= i < j < |m.entries| ==> m.entries[i].instrument != m.entries[j].instrument)
  }

  lemma SnapshotSound(e: Entry, s: Book)
    requires SoundEntry(e) && s.instrument == e.instrument
    ensures SoundEntry(WithSnapshot(e, s).0)
  {
    FaultExact(s);
    hide GoodBook, Fault;
  }

  lemma DeltaSound(e: Entry, d: Delta)
    requires SoundEntry(e) && d.instrument == e.instrument
    ensures SoundEntry(WithDelta(e, d).0)
  {
    FaultExact(Postimage(d));
    hide GoodBook, Fault;
  }

  lemma SteppedSound(e: Entry, input: Input)
    requires SoundEntry(e)
    requires Target(input) == Some(e.instrument) || Target(input) == None
    ensures SoundEntry(Stepped(e, input).0) && Stepped(e, input).0.instrument == e.instrument
  {
    hide GoodBook, Fault;
    SteppedKeepsInstrument(e, input);
    match input
    case Observe(SnapshotEvent(s)) => SnapshotSound(e, s);
    case Observe(DeltaEvent(d)) => DeltaSound(e, d);
    case _ =>
  }

  lemma NextSound(m: Market, input: Input)
    requires Sound(m)
    ensures Sound(Next(m, input).0)
  {
    hide SoundEntry, Stepped, GoodBook;
    if Target(input).Some? {
      var x := Target(input).value;
      var i := IndexOf(m.entries, x);
      if i < |m.entries| {
        SteppedSound(m.entries[i], input);
      } else if input.Observe? && input.event.DefinitionObserved? {
        FreshSound(input.event.definition);
      }
    }
  }

  lemma FreshSound(d: Definition)
    ensures SoundEntry(Defined(d))
  {
  }

  function Run(m: Market, inputs: seq<Input>): Market
    decreases |inputs|
  {
    if inputs == [] then m else Next(Run(m, inputs[..|inputs| - 1]), inputs[|inputs| - 1]).0
  }

  const EMPTY := Market([], 0)

  lemma {:induction false} RunSound(m: Market, inputs: seq<Input>)
    requires Sound(m)
    ensures Sound(Run(m, inputs))
    decreases |inputs|
  {
    if inputs != [] {
      RunSound(m, inputs[..|inputs| - 1]);
      NextSound(Run(m, inputs[..|inputs| - 1]), inputs[|inputs| - 1]);
    }
  }

  // Fail-closed: after any run a healthy instrument has a complete book of its
  // own, uncrossed if it has depth, priced under its active rules.
  lemma HealthyHasScopedBook(inputs: seq<Input>, x: u128)
    ensures var e := Find(Run(EMPTY, inputs), x);
      e.Some? && e.value.health == Healthy ==> e.value.lastBook.Some? && InScope(e.value, e.value.lastBook.value)
  {
    RunSound(EMPTY, inputs);
  }

  // ----- Isolation

  // An input changes no instrument but the one it names, and never moves one.
  lemma Isolated(m: Market, input: Input, x: u128)
    requires Target(input) != Some(x)
    ensures Find(Next(m, input).0, x) == Find(m, x)
  {
    if Target(input).Some? {
      var y := Target(input).value;
      var i := IndexOf(m.entries, y);
      var n := Next(m, input).0;
      if i < |m.entries| {
        SteppedKeepsInstrument(m.entries[i], input);
        IndexUnaffected(m.entries, n.entries, i, x);
      } else {
        IndexAppended(m.entries, n.entries, x);
      }
    }
  }

  lemma SteppedKeepsInstrument(e: Entry, input: Input)
    ensures Stepped(e, input).0.instrument == e.instrument
  {
    hide Fault;
  }

  lemma FirstIndex(entries: seq<Entry>, x: u128, i: nat)
    requires i <= |entries| && (i < |entries| ==> entries[i].instrument == x)
    requires forall k :: 0 <= k < i ==> entries[k].instrument != x
    ensures IndexOf(entries, x) == i
  {
  }

  lemma IndexUnaffected(a: seq<Entry>, b: seq<Entry>, i: nat, x: u128)
    requires |a| == |b| && i < |a| && a[i].instrument == b[i].instrument != x
    requires forall k :: 0 <= k < |a| && k != i ==> a[k] == b[k]
    ensures IndexOf(a, x) == IndexOf(b, x)
    ensures IndexOf(a, x) < |a| ==> a[IndexOf(a, x)] == b[IndexOf(a, x)]
  {
    FirstIndex(b, x, IndexOf(a, x));
  }

  lemma IndexAppended(a: seq<Entry>, b: seq<Entry>, x: u128)
    requires a <= b && forall k :: |a| <= k < |b| ==> b[k].instrument != x
    ensures IndexOf(a, x) < |a| ==> IndexOf(b, x) == IndexOf(a, x)
    ensures IndexOf(a, x) == |a| ==> IndexOf(b, x) == |b|
  {
    FirstIndex(b, x, if IndexOf(a, x) < |a| then IndexOf(a, x) else |b|);
  }

  // The instrument an input names, before and after it.
  lemma NextAt(m: Market, input: Input, x: u128)
    requires Target(input) == Some(x) && Find(m, x).Some?
    ensures Find(Next(m, input).0, x) == Some(Stepped(Find(m, x).value, input).0)
    ensures Next(m, input).1 == Stepped(Find(m, x).value, input).1
  {
    var i := IndexOf(m.entries, x);
    SteppedKeepsInstrument(m.entries[i], input);
    FirstIndex(Next(m, input).0.entries, x, i);
  }

  lemma NewAt(m: Market, input: Input, x: u128)
    requires Find(m, x).None?
    ensures var e := Find(Next(m, input).0, x); e.Some? ==> e.value.lastBook.None? && e.value.health == AwaitingSnapshot
    ensures Find(Next(m, input).0, x).Some? ==> Target(input) == Some(x)
  {
    if Target(input) != Some(x) {
      Isolated(m, input, x);
    } else {
      var n := Next(m, input).0;
      if |n.entries| > |m.entries| { FirstIndex(n.entries, x, |m.entries|); }
    }
  }

  // ----- Recovery

  // A snapshot that can make an instrument healthy again: complete, scoped to
  // the active rules, valid in depth, and newer than the book still retained.
  ghost predicate Fresh(e: Entry, s: Book) {
    InScope(e, s) && (e.lastBook.Some? ==> s.sequence > e.lastBook.value.sequence)
  }

  // A snapshot is accepted exactly when it is fresh; accepted it makes the
  // instrument healthy, refused it leaves it in a gap with its old book.
  lemma SnapshotDecides(e: Entry, s: Book)
    requires s.instrument == e.instrument
    ensures var (after, outcome) := Stepped(e, Observe(SnapshotEvent(s)));
      && (outcome.Ok? <==> Fresh(e, s))
      && (outcome.Ok? ==> after.health == Healthy && after.lastBook == Some(s) && after.failure.None?)
      && (outcome.Err? ==> after.health == Gap && after.failure.Some? && after.lastBook == e.lastBook)
  {
    FaultExact(s);
    hide GoodBook, Fault;
  }

  lemma StepRecovers(e: Entry, input: Input)
    requires Target(input) == Some(e.instrument)
    requires e.health != Healthy && Stepped(e, input).0.health == Healthy
    ensures input.Observe? && input.event.SnapshotEvent? && Fresh(e, input.event.snapshot)
  {
    if input.Observe? && input.event.SnapshotEvent? { SnapshotDecides(e, input.event.snapshot); }
    hide GoodBook, Fault;
  }

  // Whether input k of a run was a fresh snapshot of x when it came.
  ghost predicate FreshAt(m: Market, inputs: seq<Input>, k: nat, x: u128)
    requires k < |inputs|
  {
    var e := Find(Run(m, inputs[..k]), x);
    && e.Some? && inputs[k].Observe? && inputs[k].event.SnapshotEvent?
    && inputs[k].event.snapshot.instrument == x && Fresh(e.value, inputs[k].event.snapshot)
  }

  // Over any run, an instrument that was not healthy and is now has received a
  // fresh snapshot in between; no delta, health notice or rules change restores it.
  lemma {:induction false} OnlySnapshotsRestore(m: Market, inputs: seq<Input>, x: u128)
    requires Find(m, x).None? || Find(m, x).value.health != Healthy
    requires Find(Run(m, inputs), x).Some? && Find(Run(m, inputs), x).value.health == Healthy
    ensures exists k :: 0 <= k < |inputs| && FreshAt(m, inputs, k, x)
    decreases |inputs|
  {
    var n := |inputs| - 1;
    var front, last := inputs[..n], inputs[n];
    var before := Run(m, front);
    if Find(before, x).Some? && Find(before, x).value.health == Healthy {
      OnlySnapshotsRestore(m, front, x);
      var k :| 0 <= k < |front| && FreshAt(m, front, k, x);
      assert inputs[..k] == front[..k];
      assert FreshAt(m, inputs, k, x);
    } else if Find(before, x).None? {
      NewAt(before, last, x);
      assert false;
    } else {
      if Target(last) != Some(x) { Isolated(before, last, x); }
      NextAt(before, last, x);
      StepRecovers(Find(before, x).value, last);
      assert FreshAt(m, inputs, n, x);
    }
  }

  // ----- Chains of evidence

  // A snapshot and the deltas accepted after it.
  datatype Chain = Chain(snapshot: Book, deltas: seq<Delta>)

  function Tip(c: Chain): Book {
    if c.deltas == [] then c.snapshot else Postimage(c.deltas[|c.deltas| - 1])
  }

  // The sequence of the book that delta i follows.
  function Before(c: Chain, i: nat): u64
    requires i < |c.deltas|
  {
    if i == 0 then c.snapshot.sequence else c.deltas[i - 1].sequence
  }

  ghost predicate Linked(c: Chain) {
    forall i :: 0 <= i < |c.deltas| ==> c.deltas[i].previousSequence == Before(c, i)
  }

  // The chain of x that the inputs accepted so far have built: accepted
  // snapshots start it, accepted new deltas extend it, a rules change drops it.
  function ChainOf(m: Market, inputs: seq<Input>, x: u128): Option<Chain>
    decreases |inputs|
  {
    if inputs == [] then None
    else
      var n := |inputs| - 1;
      Extended(ChainOf(m, inputs[..n], x), Find(Run(m, inputs[..n]), x), inputs[n], x)
  }

  function Extended(c: Option<Chain>, before: Option<Entry>, input: Input, x: u128): Option<Chain> {
    if before.None? || Target(input) != Some(x) || Stepped(before.value, input).1.Err? then c
    else
      match input
      case Observe(SnapshotEvent(s)) => Some(Chain(s, []))
      case Observe(DeltaEvent(d)) =>
        if c.None? || before.value.lastDelta == Some(d) then c else Some(c.value.(deltas := c.value.deltas + [d]))
      case Activate(_, rules) => if before.value.activeRules == Some(rules) then c else None
      case _ => c
  }

  ghost predicate Backed(e: Option<Entry>, c: Option<Chain>) {
    e.Some? && e.value.lastBook.Some? ==> c.Some? && Linked(c.value) && Tip(c.value) == e.value.lastBook.value
  }

  // The last accepted delta, if any, is the end of the chain.
  ghost predicate Anchored(e: Entry, c: Option<Chain>) {
    && Backed(Some(e), c)
    && (e.lastDelta.Some? ==>
          c.Some? && c.value.deltas != [] && e.lastDelta.value == c.value.deltas[|c.value.deltas| - 1])
  }

  lemma LinkedExtends(c: Chain, d: Delta)
    requires Linked(c) && d.previousSequence == Tip(c).sequence
    ensures Linked(c.(deltas := c.deltas + [d])) && Tip(c.(deltas := c.deltas + [d])) == Postimage(d)
  {
    var longer := c.(deltas := c.deltas + [d]);
    forall i | 0 <= i < |longer.deltas|
      ensures longer.deltas[i].previousSequence == Before(longer, i)
    {
      if i < |c.deltas| { assert longer.deltas[i] == c.deltas[i] && Before(longer, i) == Before(c, i); }
    }
  }

  lemma DeltaAnchored(e: Entry, c: Option<Chain>, d: Delta)
    requires SoundEntry(e) && d.instrument == e.instrument && Anchored(e, c)
    ensures Anchored(Stepped(e, Observe(DeltaEvent(d))).0, Extended(c, Some(e), Observe(DeltaEvent(d)), e.instrument))
  {
    hide GoodBook, Fault, Linked, Tip;
    var (after, outcome) := Stepped(e, Observe(DeltaEvent(d)));
    if outcome.Ok? && e.lastDelta != Some(d) { LinkedExtends(c.value, d); }
  }

  lemma SnapshotAnchored(e: Entry, c: Option<Chain>, s: Book)
    requires SoundEntry(e) && s.instrument == e.instrument && Anchored(e, c)
    ensures Anchored(Stepped(e, Observe(SnapshotEvent(s))).0, Extended(c, Some(e), Observe(SnapshotEvent(s)),
        e.instrument))
  {
    hide GoodBook, Fault, WithDelta;
  }

  lemma StepAnchored(e: Entry, c: Option<Chain>, input: Input)
    requires SoundEntry(e) && Target(input) == Some(e.instrument) && Anchored(e, c)
    ensures Anchored(Stepped(e, input).0, Extended(c, Some(e), input, e.instrument))
  {
    match input
    case Observe(DeltaEvent(d)) => DeltaAnchored(e, c, d);
    case Observe(SnapshotEvent(s)) => SnapshotAnchored(e, c, s);
    case _ => hide GoodBook, Fault, WithDelta, WithSnapshot, Linked, Tip;
  }

  // The book of an instrument after any run is the end of an unbroken chain:
  // one accepted snapshot and the accepted deltas since, each naming its
  // predecessor.
  lemma {:induction false} BookIsEndOfChain(inputs: seq<Input>, x: u128)
    ensures var e := Find(Run(EMPTY, inputs), x); var c := ChainOf(EMPTY, inputs, x);
      e.Some? ==> Anchored(e.value, c)
    decreases |inputs|
  {
    hide Stepped, Anchored;
    if inputs != [] {
      var n := |inputs| - 1;
      var before, last := Run(EMPTY, inputs[..n]), inputs[n];
      BookIsEndOfChain(inputs[..n], x);
      RunSound(EMPTY, inputs[..n]);
      if Target(last) != Some(x) {
        Isolated(before, last, x);
      } else if Find(before, x).Some? {
        NextAt(before, last, x);
        StepAnchored(Find(before, x).value, ChainOf(EMPTY, inputs[..n], x), last);
      } else {
        NewAnchored(before, last, x, ChainOf(EMPTY, inputs, x));
      }
    }
  }

  lemma NewAnchored(m: Market, input: Input, x: u128, c: Option<Chain>)
    requires Find(m, x).None?
    ensures var e := Find(Next(m, input).0, x); e.Some? ==> Anchored(e.value, c)
  {
    NewAt(m, input, x);
    if Target(input) != Some(x) {
      Isolated(m, input, x);
    } else if |Next(m, input).0.entries| > |m.entries| {
      FirstIndex(Next(m, input).0.entries, x, |m.entries|);
    }
  }

  // ----- Duplicates

  // Repeating the delta just accepted changes nothing; another delta with the
  // same sequence revokes the book's health.
  lemma DuplicateDecides(inputs: seq<Input>, d: Delta, again: Delta)
    requires var e := Find(Run(EMPTY, inputs), d.instrument);
      e.Some? && e.value.health == Healthy && e.value.lastDelta == Some(d)
    requires again.instrument == again.bestBid.instrument == again.bestAsk.instrument == d.instrument
    requires again.sequence == d.sequence
    ensures var m := Run(EMPTY, inputs); var (after, outcome) := Next(m, Observe(DeltaEvent(again)));
      if again == d then after == m && outcome == Ok(())
      else outcome == Err(ConflictingDeltaRefused) && Find(after, d.instrument).Some?
           && Find(after, d.instrument).value.health == Gap
           && Find(after, d.instrument).value.lastBook == Find(m, d.instrument).value.lastBook
  {
    var m := Run(EMPTY, inputs);
    RunSound(EMPTY, inputs);
    var i := IndexOf(m.entries, d.instrument);
    assert SoundEntry(m.entries[i]);
    NextAt(m, Observe(DeltaEvent(again)), d.instrument);
    hide GoodBook, Fault;
    if again == d { assert m.entries[i := m.entries[i]] == m.entries; }
  }

  // ----- Failure counting

  // The generation counts exactly the steps that put an instrument into a
  // failure it was not already in.
  lemma GenerationCountsFailures(m: Market, input: Input, x: u128)
    requires Target(input) == Some(x)
    ensures Find(m, x).Some? ==> Find(Next(m, input).0, x).Some?
    ensures var after := Next(m, input).0;
      after.failureGeneration ==
      m.failureGeneration
      + (if Find(m, x).Some? && Find(after, x).value.failure.Some?
            && Find(after, x).value.failure != Find(m, x).value.failure then 1 else 0)
  {
    if Find(m, x).Some? { NextAt(m, input, x); }
  }
}
