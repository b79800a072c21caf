// What one input does to one instrument, case by case: when it is accepted,
// which failure it leaves otherwise, and every field afterwards.
module MarketDecisions {
  import opened Bytes
  import opened Wrappers
  import opened Depth
  import opened MarketProjection

  // ----- Books

  // A delta is accepted exactly when the instrument is healthy and the delta is
  // in scope, names the sequence of the retained book, carries the active rules,
  // and declares a valid book if it has depth; every field of the retained book
  // is then the delta's own. The very delta received last changes nothing.
  lemma DeltaDecides(e: Entry, d: Delta)
    ensures var (after, outcome) := Stepped(e, Observe(DeltaEvent(d)));
      var last := e.lastBook;
      var ready := && last.Some? && e.health == Healthy
                   && d.instrument == d.bestBid.instrument == d.bestAsk.instrument == e.instrument;
      var declared := Book(d.instrument, d.sequence, true, d.depth, d.bestBid, d.bestAsk, d.bestBidQuantity,
                           d.bestAskQuantity, d.nextAsk, d.nextAskQuantity);
      var next := && ready && d.sequence != last.value.sequence && d.previousSequence == last.value.sequence
                  && e.activeRules == Some(d.bestBid.rulesVersion) == Some(d.bestAsk.rulesVersion)
                  && (d.depth.Some? ==> GoodBook(declared));
      var again := ready && d.sequence == last.value.sequence && e.lastDelta == Some(d);
      && (outcome.Ok? <==> next || again)
      && (again ==> after == e)
      && (next ==>
            && after.lastBook.Some?
            && var b := after.lastBook.value;
               && b.instrument == d.instrument && b.sequence == d.sequence && b.complete && b.depth == d.depth
               && b.bestBid == d.bestBid && b.bestAsk == d.bestAsk
               && b.bestBidQuantity == d.bestBidQuantity && b.bestAskQuantity == d.bestAskQuantity
               && b.nextAsk == d.nextAsk && b.nextAskQuantity == d.nextAskQuantity
               && after == e.(lastBook := Some(b), lastDelta := Some(d)))
  {
    var declared := Book(d.instrument, d.sequence, true, d.depth, d.bestBid, d.bestAsk, d.bestBidQuantity,
                         d.bestAskQuantity, d.nextAsk, d.nextAskQuantity);
    FaultExact(declared);
    hide Fault, GoodBook;
  }

  // A refused delta leaves the retained book; it opens a gap with the failure of
  // the first check it fails, unless the gap was open already.
  lemma DeltaFailures(e: Entry, d: Delta)
    ensures var (after, outcome) := Stepped(e, Observe(DeltaEvent(d)));
      var scoped := d.instrument == d.bestBid.instrument == d.bestAsk.instrument == e.instrument;
      var ruled := e.activeRules == Some(d.bestBid.rulesVersion) == Some(d.bestAsk.rulesVersion);
      var declared := Book(d.instrument, d.sequence, true, d.depth, d.bestBid, d.bestAsk, d.bestBidQuantity,
                           d.bestAskQuantity, d.nextAsk, d.nextAskQuantity);
      outcome.Err? ==>
        && after.lastBook == e.lastBook && after.lastDelta == e.lastDelta
        && after == (if outcome.error == MarketGap then e else e.(health := Gap, failure := after.failure))
        && (outcome.error == MarketGap <==> e.lastBook.Some? && scoped && e.health != Healthy)
        && (outcome.error == MissingSnapshotRefused <==> e.lastBook.None?)
        && (outcome.error == InstrumentMismatch <==> e.lastBook.Some? && !scoped)
        && (outcome.error == ConflictingDeltaRefused <==>
              e.lastBook.Some? && scoped && e.health == Healthy && d.sequence == e.lastBook.value.sequence)
        && (outcome.error == BookSequenceGap <==>
              e.lastBook.Some? && scoped && e.health == Healthy
              && d.sequence != e.lastBook.value.sequence && d.previousSequence != e.lastBook.value.sequence)
        && (outcome.error == InstrumentRulesInactive <==>
              e.lastBook.Some? && scoped && e.health == Healthy && d.sequence != e.lastBook.value.sequence
              && d.previousSequence == e.lastBook.value.sequence && !ruled)
        && (outcome.error.DepthRefused? ==> Fault(declared) == Some(outcome.error.cause))
        && (outcome.error != MarketGap ==> after.failure == Some(FailureOf(outcome.error)))
  {
    hide Fault;
  }

  // The failure an instrument shows for a refused book.
  function FailureOf(error: MarketError): Failure {
    match error
    case MissingSnapshotRefused => MissingSnapshot
    case InstrumentMismatch => ScopeMismatch
    case InstrumentRulesInactive => ScopeMismatch
    case ConflictingDeltaRefused => ConflictingDelta
    case BookSequenceGap => SequenceGap
    case IncompleteSnapshotRefused => IncompleteSnapshot
    case StaleSnapshotRefused => StaleSnapshot
    case _ => InvalidDepth
  }

  // A snapshot is taken whole when it is valid, complete, in scope, under the
  // active rules and newer than the retained book; otherwise the first check it
  // fails names the gap.
  lemma SnapshotFields(e: Entry, s: Book)
    ensures var (after, outcome) := Stepped(e, Observe(SnapshotEvent(s)));
      var valid := s.depth.Some? ==> GoodBook(s);
      var scoped := s.instrument == s.bestBid.instrument == s.bestAsk.instrument == e.instrument;
      var ruled := e.activeRules == Some(s.bestBid.rulesVersion) == Some(s.bestAsk.rulesVersion);
      var newer := e.lastBook.Some? ==> s.sequence > e.lastBook.value.sequence;
      && (outcome.Ok? <==> valid && s.complete && scoped && ruled && newer)
      && (outcome.Ok? ==> after == e.(lastBook := Some(s), lastDelta := None, health := Healthy, failure := None))
      && (outcome.Err? ==>
            && after == e.(health := Gap, failure := Some(FailureOf(outcome.error)))
            && (outcome.error.DepthRefused? <==> !valid)
            && (outcome.error.DepthRefused? ==> Fault(s) == Some(outcome.error.cause))
            && (outcome.error == IncompleteSnapshotRefused <==> valid && !s.complete)
            && (outcome.error == InstrumentMismatch <==> valid && s.complete && !scoped)
            && (outcome.error == InstrumentRulesInactive <==> valid && s.complete && scoped && !ruled)
            && (outcome.error == StaleSnapshotRefused <==> valid && s.complete && scoped && ruled && !newer))
  {
    FaultExact(s);
    hide Fault, GoodBook;
  }

  // ----- Everything else

  // A reference price is kept, as the mark or the index, exactly when it is for
  // the instrument under its active rules.
  lemma PriceDecides(e: Entry, isMark: bool, price: Price)
    ensures var (after, outcome) := Stepped(e, Observe(ReferencePrice(e.instrument, isMark, price)));
      && (outcome.Ok? <==> price.instrument == e.instrument && e.activeRules == Some(price.rulesVersion))
      && (outcome.Err? ==> after == e && outcome.error == InstrumentMismatch)
      && (outcome.Ok? && isMark ==> after == e.(mark := Some(price)))
      && (outcome.Ok? && !isMark ==> after == e.(index := Some(price)))
  {
  }

  // A health notice is believed unless it claims a health the evidence has not.
  lemma NoticeDecides(e: Entry, health: Health)
    ensures var (after, outcome) := Stepped(e, Observe(HealthChanged(e.instrument, health)));
      && (outcome.Ok? <==> health != Healthy || e.health == Healthy)
      && after == (if outcome.Ok? then e.(health := health) else e)
      && (outcome.Err? ==> outcome.error == FreshSnapshotRequired)
  {
  }

  // Rules are activated exactly when they are those of the definition. Replacing
  // active rules forgets book, delta, prices, failure and health.
  lemma RulesDecide(e: Entry, rules: u64)
    ensures var (after, outcome) := Stepped(e, Activate(e.instrument, rules));
      && (outcome.Ok? <==> rules == e.definition.rulesVersion)
      && (outcome.Err? ==> after == e && outcome.error == InvalidConfigurationBarrier)
      && (outcome.Ok? ==>
            && after.activeRules == Some(rules)
            && after.instrument == e.instrument && after.definition == e.definition
            && if e.activeRules.None? || e.activeRules == Some(rules) then after == e.(activeRules := Some(rules))
               else
                 && after.lastBook.None? && after.lastDelta.None? && after.health == AwaitingSnapshot
                 && after.failure.None? && after.mark.None? && after.index.None?)
  {
  }

  // A definition is repeated, replaced by one of later rules, or refused; only
  // the definition itself changes.
  lemma DefinitionDecides(e: Entry, d: Definition)
    requires d.instrument == e.instrument
    ensures var (after, outcome) := Stepped(e, Observe(DefinitionObserved(d)));
      && (outcome.Ok? <==> d == e.definition || d.rulesVersion > e.definition.rulesVersion)
      && after == (if outcome.Ok? then e.(definition := d) else e)
      && (outcome.Err? ==> outcome.error == InstrumentRulesRegression)
  {
  }

  lemma InvalidationOpensGap(e: Entry)
    ensures var (after, outcome) := Stepped(e, Invalidate(e.instrument));
      outcome.Ok? && after == e.(health := Gap, failure := Some(InvalidDepth))
  {
  }

  // An unknown instrument is refused, except that a definition adds it while
  // there is room for 125.
  lemma UnknownDecides(m: Market, input: Input)
    requires Target(input).Some? && Find(m, Target(input).value).None?
    ensures var (after, outcome) := Next(m, input);
      if input.Observe? && input.event.DefinitionObserved? then
        if |m.entries| == 125 then after == m && outcome == Err(InstrumentCapacityExceeded)
        else
          && outcome == Ok(()) && after.failureGeneration == m.failureGeneration
          && |after.entries| == |m.entries| + 1 && after.entries[..|m.entries|] == m.entries
          && var e := after.entries[|m.entries|]; var d := input.event.definition;
             && e.instrument == d.instrument && e.definition == d && e.activeRules.None? && e.lastBook.None?
             && e.health == AwaitingSnapshot && e.failure.None? && e.lastDelta.None? && e.mark.None? && e.index.None?
      else after == m && outcome == Err(MissingInstrumentDefinition)
  {
  }

  // Which instrument an input is about.
  lemma TargetOf(x: u128, d: Definition, s: Book, delta: Delta, isMark: bool, price: Price, health: Health, rules: u64)
    ensures Target(Activate(x, rules)) == Target(Invalidate(x)) == Some(x)
    ensures Target(Observe(DefinitionObserved(d))) == Some(d.instrument)
    ensures Target(Observe(SnapshotEvent(s))) == Some(s.instrument)
    ensures Target(Observe(DeltaEvent(delta))) == Some(delta.instrument)
    ensures Target(Observe(ReferencePrice(x, isMark, price))) == Some(x)
    ensures Target(Observe(HealthChanged(x, health))) == Some(x) && Target(Observe(Unrelated)) == None
  {
  }
}
