// The per-instrument market projections: a fail-closed machine that keeps a
// book healthy only along an unbroken chain of accepted evidence.
module MarketProjection {
  import opened Bytes
  import opened Wrappers
  import opened Depth

  const MAX_INSTRUMENTS: nat := 125

  datatype Health = AwaitingSnapshot | Healthy | Gap
  datatype Failure =
    | MissingSnapshot | SequenceGap | ConflictingDelta | StaleSnapshot | IncompleteSnapshot | ScopeMismatch
    | InvalidDepth
  datatype MarketError =
    | MissingInstrumentDefinition | InstrumentRulesRegression | InstrumentCapacityExceeded
    | InvalidConfigurationBarrier | FreshSnapshotRequired | InstrumentMismatch | InstrumentRulesInactive
    | IncompleteSnapshotRefused | StaleSnapshotRefused | MissingSnapshotRefused | MarketGap | ConflictingDeltaRefused
    | BookSequenceGap | DepthRefused(cause: DepthError)
  type Outcome = Result<(), MarketError>

  // An instrument definition; details stands for the fields only compared as a whole.
  datatype Definition = Definition(instrument: u128, rulesVersion: u64, details: nat)
  datatype Delta = Delta(
    depth: Option<BookDepth>, instrument: u128, previousSequence: u64, sequence: u64, bestBid: Price, bestAsk: Price,
    bestBidQuantity: Option<Quantity>, bestAskQuantity: Option<Quantity>, nextAsk: Option<Price>,
    nextAskQuantity: Option<Quantity>)

  datatype Entry = Entry(
    instrument: u128, definition: Definition, activeRules: Option<u64>, lastBook: Option<Book>, health: Health,
    failure: Option<Failure>, lastDelta: Option<Delta>, mark: Option<Price>, index: Option<Price>)

  datatype Market = Market(entries: seq<Entry>, failureGeneration: nat)

  datatype Event =
    | DefinitionObserved(definition: Definition)
    | SnapshotEvent(snapshot: Book)
    | DeltaEvent(delta: Delta)
    | ReferencePrice(instrument: u128, isMark: bool, price: Price)
    | HealthChanged(subject: u128, health: Health)
    | Unrelated

  // Everything a caller can do to the projection.
  datatype Input = Observe(event: Event) | Activate(instrument: u128, rules: u64) | Invalidate(instrument: u128)

  // ----- One instrument

  function Gapped(e: Entry, failure: Failure, error: MarketError): (Entry, Outcome) {
    (e.(health := Gap, failure := Some(failure)), Err(error))
  }

  function WithSnapshot(e: Entry, s: Book): (Entry, Outcome) {
    if s.depth.Some? && Fault(s).Some? then Gapped(e, InvalidDepth, DepthRefused(Fault(s).value))
    else if !s.complete then Gapped(e, IncompleteSnapshot, IncompleteSnapshotRefused)
    else if s.instrument != e.instrument || s.bestBid.instrument != e.instrument
            || s.bestAsk.instrument != e.instrument then Gapped(e, ScopeMismatch, InstrumentMismatch)
    else if e.activeRules != Some(s.bestBid.rulesVersion) || s.bestBid.rulesVersion != s.bestAsk.rulesVersion then
      Gapped(e, ScopeMismatch, InstrumentRulesInactive)
    else if e.lastBook.Some? && s.sequence <= e.lastBook.value.sequence then
      Gapped(e, StaleSnapshot, StaleSnapshotRefused)
    else (e.(lastBook := Some(s), lastDelta := None, health := Healthy, failure := None), Ok(()))
  }

  // The book a delta declares, valid only after its predecessor.
  function Postimage(d: Delta): Book {
    Book(d.instrument, d.sequence, true, d.depth, d.bestBid, d.bestAsk, d.bestBidQuantity, d.bestAskQuantity,
         d.nextAsk, d.nextAskQuantity)
  }

  function WithDelta(e: Entry, d: Delta): (Entry, Outcome) {
    if e.lastBook.None? then Gapped(e, MissingSnapshot, MissingSnapshotRefused)
    else
      var previous := e.lastBook.value;
      if d.instrument != e.instrument || d.bestBid.instrument != e.instrument
         || d.bestAsk.instrument != e.instrument then Gapped(e, ScopeMismatch, InstrumentMismatch)
      else if e.health != Healthy then (e, Err(MarketGap))
      else if d.sequence == previous.sequence then
        if e.lastDelta == Some(d) then (e, Ok(())) else Gapped(e, ConflictingDelta, ConflictingDeltaRefused)
      else if d.previousSequence != previous.sequence then Gapped(e, SequenceGap, BookSequenceGap)
      else if Some(d.bestBid.rulesVersion) != e.activeRules || Some(d.bestAsk.rulesVersion) != e.activeRules then
        Gapped(e, ScopeMismatch, InstrumentRulesInactive)
      else if d.depth.Some? && Fault(Postimage(d)).Some? then
        Gapped(e, InvalidDepth, DepthRefused(Fault(Postimage(d)).value))
      else (e.(lastBook := Some(Postimage(d)), lastDelta := Some(d)), Ok(()))
  }

  function WithPrice(e: Entry, isMark: bool, price: Price): (Entry, Outcome) {
    if price.instrument != e.instrument || Some(price.rulesVersion) != e.activeRules then (e, Err(InstrumentMismatch))
    else (if isMark then e.(mark := Some(price)) else e.(index := Some(price)), Ok(()))
  }

  function WithHealth(e: Entry, health: Health): (Entry, Outcome) {
    if health == Healthy && e.health != Healthy then (e, Err(FreshSnapshotRequired))
    else (e.(health := health), Ok(()))
  }

  function WithRules(e: Entry, rules: u64): (Entry, Outcome) {
    if e.definition.rulesVersion != rules then (e, Err(InvalidConfigurationBarrier))
    else if e.activeRules.Some? && e.activeRules.value != rules then
      (e.(lastBook := None, lastDelta := None, health := AwaitingSnapshot, failure := None, mark := None, index := None,
          activeRules := Some(rules)), Ok(()))
    else (e.(activeRules := Some(rules)), Ok(()))
  }

  function WithDefinition(e: Entry, d: Definition): (Entry, Outcome) {
    if e.definition == d then (e, Ok(()))
    else if d.rulesVersion <= e.definition.rulesVersion then (e, Err(InstrumentRulesRegression))
    else (e.(definition := d), Ok(()))
  }

  function WithoutBook(e: Entry): (Entry, Outcome) {
    (e.(health := Gap, failure := Some(InvalidDepth)), Ok(()))
  }

  // The instrument an input is about, if it is about one.
  function Target(input: Input): Option<u128> {
    match input
    case Activate(x, _) => Some(x)
    case Invalidate(x) => Some(x)
    case Observe(DefinitionObserved(d)) => Some(d.instrument)
    case Observe(SnapshotEvent(s)) => Some(s.instrument)
    case Observe(DeltaEvent(d)) => Some(d.instrument)
    case Observe(ReferencePrice(x, _, _)) => Some(x)
    case Observe(HealthChanged(x, _)) => Some(x)
    case Observe(Unrelated) => None
  }

  function Stepped(e: Entry, input: Input): (Entry, Outcome) {
    match input
    case Activate(_, rules) => WithRules(e, rules)
    case Invalidate(_) => WithoutBook(e)
    case Observe(DefinitionObserved(d)) => WithDefinition(e, d)
    case Observe(SnapshotEvent(s)) => WithSnapshot(e, s)
    case Observe(DeltaEvent(d)) => WithDelta(e, d)
    case Observe(ReferencePrice(_, isMark, price)) => WithPrice(e, isMark, price)
    case Observe(HealthChanged(_, health)) => WithHealth(e, health)
    case Observe(Unrelated) => (e, Ok(()))
  }

  // ----- All instruments

  function IndexOf(entries: seq<Entry>, x: u128): (i: nat)
    ensures i <= |entries|
    ensures i < |entries| ==> entries[i].instrument == x
    ensures forall k :: 0 <= k < i ==> entries[k].instrument != x
  {
    if entries == [] || entries[0].instrument == x then 0 else 1 + IndexOf(entries[1..], x)
  }

  function Find(m: Market, x: u128): Option<Entry> {
    var i := IndexOf(m.entries, x);
    if i < |m.entries| then Some(m.entries[i]) else None
  }

  // Whether a step entered a failure the instrument was not already in.
  predicate NewFailure(before: Entry, after: Entry) {
    after.failure.Some? && after.failure != before.failure
  }

  function Next(m: Market, input: Input): (Market, Outcome) {
    match Target(input)
    case None => (m, Ok(()))
    case Some(x) =>
      var i := IndexOf(m.entries, x);
      if i < |m.entries| then
        var (e, outcome) := Stepped(m.entries[i], input);
        (Market(m.entries[i := e], m.failureGeneration + (if NewFailure(m.entries[i], e) then 1 else 0)), outcome)
      else if !(input.Observe? && input.event.DefinitionObserved?) then (m, Err(MissingInstrumentDefinition))
      else if |m.entries| == MAX_INSTRUMENTS then (m, Err(InstrumentCapacityExceeded))
      else (m.(entries := m.entries + [Defined(input.event.definition)]), Ok(()))
  }

  function Defined(d: Definition): Entry {
    Entry(d.instrument, d, None, None, AwaitingSnapshot, None, None, None, None)
  }

  class Projection {
    var entries: seq<Entry>
    var failureGeneration: nat

    function View(): Market
      reads this
    {
      Market(entries, failureGeneration)
    }

    constructor ()
      ensures View() == Market([], 0)
    {
      entries, failureGeneration := [], 0;
    }

    method Position(x: u128) returns (i: nat)
      ensures i == IndexOf(entries, x)
    {
      i := 0;
      while i < |entries| && entries[i].instrument != x
        invariant 0 <= i <= |entries|
        invariant IndexOf(entries, x) == i + IndexOf(entries[i..], x)
      {
        i := i + 1;
      }
    }

    method Get(x: u128) returns (r: Option<Entry>)
      ensures r == Find(View(), x)
    {
      var i := Position(x);
      r := if i < |entries| then Some(entries[i]) else None;
    }

    method ActivateRules(x: u128, rules: u64) returns (r: Outcome)
      modifies this
      ensures (View(), r) == Next(old(View()), Activate(x, rules))
    {
      var i := Position(x);
      if i == |entries| { return Err(MissingInstrumentDefinition); }
      var entry := entries[i];
      if entry.definition.rulesVersion != rules {
        assert entries[i := entry] == entries;
        return Err(InvalidConfigurationBarrier);
      }
      if entry.activeRules.Some? && entry.activeRules.value != rules {
        entry := entry.(lastBook := None, lastDelta := None, health := AwaitingSnapshot, failure := None, mark := None,
                        index := None);
      }
      entries := entries[i := entry.(activeRules := Some(rules))];
      return Ok(());
    }

    method InvalidateBook(x: u128) returns (r: Outcome)
      modifies this
      ensures (View(), r) == Next(old(View()), Invalidate(x))
    {
      var i := Position(x);
      if i == |entries| { return Err(MissingInstrumentDefinition); }
      var entry := entries[i];
      if entry.failure != Some(InvalidDepth) { failureGeneration := failureGeneration + 1; }
      entries := entries[i := entry.(health := Gap, failure := Some(InvalidDepth))];
      return Ok(());
    }

    method Apply(event: Event) returns (r: Outcome)
      modifies this
      ensures (View(), r) == Next(old(View()), Observe(event))
    {
      match event
      case Unrelated => return Ok(());
      case DefinitionObserved(definition) => r := ApplyDefinition(definition);
      case SnapshotEvent(s) => r := ApplyFor(s.instrument, event);
      case DeltaEvent(d) => r := ApplyFor(d.instrument, event);
      case ReferencePrice(x, _, _) => r := ApplyFor(x, event);
      case HealthChanged(x, _) => r := ApplyFor(x, event);
    }

    method ApplyDefinition(definition: Definition) returns (r: Outcome)
      modifies this
      ensures (View(), r) == Next(old(View()), Observe(DefinitionObserved(definition)))
    {
      var i := Position(definition.instrument);
      if i < |entries| {
        assert entries[i := entries[i]] == entries;
        if entries[i].definition == definition { return Ok(()); }
        if definition.rulesVersion <= entries[i].definition.rulesVersion { return Err(InstrumentRulesRegression); }
        entries := entries[i := entries[i].(definition := definition)];
        return Ok(());
      }
      if |entries| == MAX_INSTRUMENTS { return Err(InstrumentCapacityExceeded); }
      entries := entries + [Defined(definition)];
      return Ok(());
    }

    // A refused event counts once if it leaves a failure that was not there before.
    method ApplyFor(x: u128, event: Event) returns (r: Outcome)
      requires !event.Unrelated? && !event.DefinitionObserved? && Target(Observe(event)) == Some(x)
      modifies this
      ensures (View(), r) == Next(old(View()), Observe(event))
    {
      var i := Position(x);
      if i == |entries| { return Err(MissingInstrumentDefinition); }
      var before := entries[i].failure;
      match event {
        case SnapshotEvent(s) => r := ApplySnapshot(i, s);
        case DeltaEvent(d) => r := ApplyDelta(i, d);
        case ReferencePrice(_, isMark, price) => r := ApplyPrice(i, isMark, price);
        case HealthChanged(_, health) => r := ApplyHealth(i, health);
      }
      if r.Err? && entries[i].failure != before { failureGeneration := failureGeneration + 1; }
    }

    // ----- One instrument, field by field

    method OpenGap(i: nat, failure: Failure, error: MarketError) returns (r: Outcome)
      requires i < |entries|
      modifies this`entries
      ensures |entries| == |old(entries)| && entries == old(entries)[i := entries[i]]
      ensures (entries[i], r) == Gapped(old(entries)[i], failure, error)
    {
      entries := entries[i := entries[i].(health := Gap)];
      entries := entries[i := entries[i].(failure := Some(failure))];
      return Err(error);
    }

    method ApplySnapshot(i: nat, s: Book) returns (r: Outcome)
      requires i < |entries|
      modifies this`entries
      ensures |entries| == |old(entries)| && entries == old(entries)[i := entries[i]]
      ensures (entries[i], r) == WithSnapshot(old(entries)[i], s)
    {
      hide Fault;
      var e := entries[i];
      if s.depth.Some? && Fault(s).Some? {
        r := OpenGap(i, InvalidDepth, DepthRefused(Fault(s).value));
        return;
      }
      if !s.complete {
        r := OpenGap(i, IncompleteSnapshot, IncompleteSnapshotRefused);
        return;
      }
      if s.instrument != e.instrument || s.bestBid.instrument != e.instrument || s.bestAsk.instrument != e.instrument {
        r := OpenGap(i, ScopeMismatch, InstrumentMismatch);
        return;
      }
      if e.activeRules.None? || e.activeRules.value != s.bestBid.rulesVersion
         || s.bestBid.rulesVersion != s.bestAsk.rulesVersion {
        r := OpenGap(i, ScopeMismatch, InstrumentRulesInactive);
        return;
      }
      if e.lastBook.Some? && s.sequence <= e.lastBook.value.sequence {
        r := OpenGap(i, StaleSnapshot, StaleSnapshotRefused);
        return;
      }
      entries := entries[i := entries[i].(lastBook := Some(s))];
      entries := entries[i := entries[i].(lastDelta := None)];
      entries := entries[i := entries[i].(health := Healthy)];
      entries := entries[i := entries[i].(failure := None)];
      return Ok(());
    }

    method ApplyDelta(i: nat, d: Delta) returns (r: Outcome)
      requires i < |entries|
      modifies this`entries
      ensures |entries| == |old(entries)| && entries == old(entries)[i := entries[i]]
      ensures (entries[i], r) == WithDelta(old(entries)[i], d)
    {
      hide Fault;
      var e := entries[i];
      if e.lastBook.None? {
        r := OpenGap(i, MissingSnapshot, MissingSnapshotRefused);
        return;
      }
      var previous := e.lastBook.value;
      if d.instrument != e.instrument || d.bestBid.instrument != e.instrument || d.bestAsk.instrument != e.instrument {
        r := OpenGap(i, ScopeMismatch, InstrumentMismatch);
        return;
      }
      if e.health != Healthy { return Err(MarketGap); }
      if d.sequence == previous.sequence {
        if e.lastDelta == Some(d) { return Ok(()); }
        r := OpenGap(i, ConflictingDelta, ConflictingDeltaRefused);
        return;
      }
      if d.previousSequence != previous.sequence {
        r := OpenGap(i, SequenceGap, BookSequenceGap);
        return;
      }
      if Some(d.bestBid.rulesVersion) != e.activeRules || Some(d.bestAsk.rulesVersion) != e.activeRules {
        r := OpenGap(i, ScopeMismatch, InstrumentRulesInactive);
        return;
      }
      var next := Postimage(d);
      if next.depth.Some? && Fault(next).Some? {
        r := OpenGap(i, InvalidDepth, DepthRefused(Fault(next).value));
        return;
      }
      entries := entries[i := entries[i].(lastBook := Some(next))];
      entries := entries[i := entries[i].(lastDelta := Some(d))];
      return Ok(());
    }

    method ApplyPrice(i: nat, isMark: bool, price: Price) returns (r: Outcome)
      requires i < |entries|
      modifies this`entries
      ensures |entries| == |old(entries)| && entries == old(entries)[i := entries[i]]
      ensures (entries[i], r) == WithPrice(old(entries)[i], isMark, price)
    {
      var e := entries[i];
      if price.instrument != e.instrument || Some(price.rulesVersion) != e.activeRules {
        return Err(InstrumentMismatch);
      }
      entries := entries[i := if isMark then e.(mark := Some(price)) else e.(index := Some(price))];
      return Ok(());
    }

    method ApplyHealth(i: nat, health: Health) returns (r: Outcome)
      requires i < |entries|
      modifies this`entries
      ensures |entries| == |old(entries)| && entries == old(entries)[i := entries[i]]
      ensures (entries[i], r) == WithHealth(old(entries)[i], health)
    {
      if health == Healthy && entries[i].health != Healthy { return Err(FreshSnapshotRequired); }
      entries := entries[i := entries[i].(health := health)];
      return Ok(());
    }

    // The worst health of any instrument, and awaiting when there is none.
    method AggregateHealth() returns (h: Health)
      ensures h == Gap <==> exists e :: e in entries && e.health == Gap
      ensures h == Healthy <==> entries != [] && forall e :: e in entries ==> e.health == Healthy
    {
      if entries == [] { return AwaitingSnapshot; }
      h := Healthy;
      for i := 0 to |entries|
        invariant h == Healthy || h == AwaitingSnapshot
        invariant forall k :: 0 <= k < i ==> entries[k].health != Gap
        invariant h == Healthy <==> forall k :: 0 <= k < i ==> entries[k].health == Healthy
      {
        match entries[i].health
        case Gap => return Gap;
        case AwaitingSnapshot => h := AwaitingSnapshot;
        case Healthy =>
      }
    }

    // The failure of the last-defined instrument that has one.
    method LatestFailure() returns (f: Option<Failure>)
      ensures f.None? <==> forall e :: e in entries ==> e.failure.None?
      ensures f.Some? ==> exists k :: 0 <= k < |entries| && entries[k].failure == f
                                      && forall j :: k < j < |entries| ==> entries[j].failure.None?
    {
      var i := |entries|;
      while i != 0
        invariant 0 <= i <= |entries|
        invariant forall j :: i <= j < |entries| ==> entries[j].failure.None?
      {
        i := i - 1;
        if entries[i].failure.Some? { return entries[i].failure; }
      }
      return None;
    }
  }
}
