// Bounded level-two evidence: the validity check, and the conservative quote
// with its fee, both on 128-bit ticks and lots with 256-bit intermediates.
module Depth {
  import opened Bytes
  import opened Wrappers

  const MAX_DEPTH_LEVELS: nat := 8
  const I256_MAX: int := 0x7FFF_FFFF_FFFF_FFFF_FFFF_FFFF_FFFF_FFFF_FFFF_FFFF_FFFF_FFFF_FFFF_FFFF_FFFF_FFFF
  const PPM: int := 1_000_000

  datatype Level = Level(ticks: i128, lots: Option<i128>)
  const EMPTY_LEVEL := Level(0, None)
  type Levels = s: seq<Level> | |s| == MAX_DEPTH_LEVELS
    witness [EMPTY_LEVEL, EMPTY_LEVEL, EMPTY_LEVEL, EMPTY_LEVEL, EMPTY_LEVEL, EMPTY_LEVEL, EMPTY_LEVEL, EMPTY_LEVEL]

  datatype BookDepth = BookDepth(
    bids: Levels, asks: Levels, bidCount: u8, askCount: u8, bidsTruncated: bool, asksTruncated: bool, visibleAt: u64)
  datatype Price = Price(instrument: u128, rulesVersion: u64, ticks: i128)
  datatype Quantity = Quantity(instrument: u128, rulesVersion: u64, lots: i128)
  datatype Book = Book(
    instrument: u128, sequence: u64, complete: bool, depth: Option<BookDepth>, bestBid: Price, bestAsk: Price,
    bestBidQuantity: Option<Quantity>, bestAskQuantity: Option<Quantity>, nextAsk: Option<Price>,
    nextAskQuantity: Option<Quantity>)

  datatype Side = Buy | Sell
  datatype FeeAsset = Base | Quote
  datatype Quoted = Quoted(grossLots: i128, baseLots: i128, quoteTickLots: i128)
  datatype DepthError =
    | MissingDepth | IncompleteBookSnapshot | InvalidDepthScope | DepthCapacityExceeded | InvalidDepthTail
    | InvalidDepthLevel | InvalidDepthRequest | InsufficientDepth | DepthOverflow | InvalidDepthWire

  // ----- Validity

  // Whether a level is further from the touch than the one before it.
  predicate Beyond(side: Side, before: i128, ticks: i128) {
    if side.Buy? then before < ticks else ticks < before
  }

  // The first fault of a side at or after level i.
  function SideFault(levels: Levels, count: nat, side: Side, i: nat): Option<DepthError>
    requires i <= MAX_DEPTH_LEVELS
    decreases MAX_DEPTH_LEVELS - i
  {
    if i == MAX_DEPTH_LEVELS then None
    else
      var level := levels[i];
      if i >= count then
        if level.ticks != 0 || level.lots.Some? then Some(InvalidDepthTail) else SideFault(levels, count, side, i + 1)
      else if level.ticks <= 0 || (level.lots.Some? && level.lots.value < 0) then Some(InvalidDepthLevel)
      else if i != 0 && !Beyond(side, levels[i - 1].ticks, level.ticks) then Some(InvalidDepthLevel)
      else SideFault(levels, count, side, i + 1)
  }

  predicate TopFault(quantity: Option<Quantity>, book: Book, lots: Option<i128>) {
    match quantity
    case Some(q) =>
      q.instrument != book.instrument || q.rulesVersion != book.bestBid.rulesVersion || lots != Some(q.lots)
    case None => lots.Some?
  }

  function Fault(book: Book): Option<DepthError> {
    if book.depth.None? then Some(MissingDepth)
    else if !book.complete then Some(IncompleteBookSnapshot)
    else if book.instrument == 0 || book.bestBid.instrument != book.instrument
            || book.bestAsk.instrument != book.instrument || book.bestBid.rulesVersion == 0
            || book.bestBid.rulesVersion != book.bestAsk.rulesVersion then Some(InvalidDepthScope)
    else
      var d := book.depth.value;
      if d.bidCount == 0 || d.askCount == 0 then Some(IncompleteBookSnapshot)
      else if d.bidCount > MAX_DEPTH_LEVELS || d.askCount > MAX_DEPTH_LEVELS then Some(DepthCapacityExceeded)
      else if SideFault(d.bids, d.bidCount, Sell, 0).Some? then SideFault(d.bids, d.bidCount, Sell, 0)
      else if SideFault(d.asks, d.askCount, Buy, 0).Some? then SideFault(d.asks, d.askCount, Buy, 0)
      else if d.bids[0].ticks >= d.asks[0].ticks || d.bids[0].ticks != book.bestBid.ticks
              || d.asks[0].ticks != book.bestAsk.ticks then Some(InvalidDepthLevel)
      else if TopFault(book.bestBidQuantity, book, d.bids[0].lots)
              || TopFault(book.bestAskQuantity, book, d.asks[0].lots) then Some(InvalidDepthScope)
      else
        match book.nextAsk
        case Some(px) =>
          if d.askCount < 2 || px.instrument != book.instrument || px.rulesVersion != book.bestBid.rulesVersion
             || px.ticks != d.asks[1].ticks || TopFault(book.nextAskQuantity, book, d.asks[1].lots)
          then Some(InvalidDepthScope) else None
        case None => if book.nextAskQuantity.Some? then Some(InvalidDepthScope) else None
  }

  // What a valid side is: prices strictly away from the touch, quantities never
  // negative, and nothing in the unused tail.
  ghost predicate GoodSide(levels: Levels, count: nat, side: Side) {
    && (forall i :: 0 <= i < count && i < MAX_DEPTH_LEVELS ==>
          levels[i].ticks > 0 && (levels[i].lots.Some? ==> levels[i].lots.value >= 0))
    && (forall i, j :: 0 <= i < j < count && j < MAX_DEPTH_LEVELS ==> Beyond(side, levels[i].ticks, levels[j].ticks))
    && (forall i :: count <= i < MAX_DEPTH_LEVELS ==> levels[i] == EMPTY_LEVEL)
  }

  function At(book: Book, level: Level): Price {
    Price(book.instrument, book.bestBid.rulesVersion, level.ticks)
  }

  function Lots(instrument: u128, rules: u64, lots: Option<i128>): Option<Quantity> {
    if lots.Some? then Some(Quantity(instrument, rules, lots.value)) else None
  }

  function Of(book: Book, level: Level): Option<Quantity> {
    Lots(book.instrument, book.bestBid.rulesVersion, level.lots)
  }

  // What a valid book is: scoped, two-sided, uncrossed, and with its redundant
  // top fields equal to the depth they repeat.
  ghost predicate GoodBook(book: Book) {
    && book.depth.Some? && book.complete && book.instrument != 0 && book.bestBid.rulesVersion != 0
    && var d := book.depth.value;
    && 1 <= d.bidCount <= MAX_DEPTH_LEVELS && 1 <= d.askCount <= MAX_DEPTH_LEVELS
    && GoodSide(d.bids, d.bidCount, Sell) && GoodSide(d.asks, d.askCount, Buy)
    && d.bids[0].ticks < d.asks[0].ticks
    && book.bestBid == At(book, d.bids[0]) && book.bestAsk == At(book, d.asks[0])
    && book.bestBidQuantity == Of(book, d.bids[0]) && book.bestAskQuantity == Of(book, d.asks[0])
    && (if book.nextAsk.Some? then
          d.askCount >= 2 && book.nextAsk == Some(At(book, d.asks[1])) && book.nextAskQuantity == Of(book, d.asks[1])
        else book.nextAskQuantity.None?)
  }

  lemma {:induction false} SideFaultFrom(levels: Levels, count: nat, side: Side, i: nat)
    requires i <= MAX_DEPTH_LEVELS
    ensures SideFault(levels, count, side, i).None? <==>
            (forall k :: i <= k < MAX_DEPTH_LEVELS ==> GoodLevel(levels, count, side, k))
    decreases MAX_DEPTH_LEVELS - i
  {
    if i < MAX_DEPTH_LEVELS {
      SideFaultFrom(levels, count, side, i + 1);
      assert SideFault(levels, count, side, i).None? <==>
             GoodLevel(levels, count, side, i) && SideFault(levels, count, side, i + 1).None?;
    }
  }

  predicate GoodLevel(levels: Levels, count: nat, side: Side, i: nat)
    requires i < MAX_DEPTH_LEVELS
  {
    if i >= count then levels[i] == EMPTY_LEVEL
    else
      && levels[i].ticks > 0 && (levels[i].lots.Some? ==> levels[i].lots.value >= 0)
      && (i != 0 ==> Beyond(side, levels[i - 1].ticks, levels[i].ticks))
  }

  lemma {:induction false} OrderedPairs(levels: Levels, count: nat, side: Side, i: nat, j: nat)
    requires i < j < count && j < MAX_DEPTH_LEVELS
    requires forall k :: 0 <= k < MAX_DEPTH_LEVELS ==> GoodLevel(levels, count, side, k)
    ensures Beyond(side, levels[i].ticks, levels[j].ticks)
    decreases j
  {
    assert GoodLevel(levels, count, side, j);
    if i < j - 1 { OrderedPairs(levels, count, side, i, j - 1); }
  }

  lemma GoodSideByLevel(levels: Levels, count: nat, side: Side)
    ensures GoodSide(levels, count, side) <==>
            (forall k :: 0 <= k < MAX_DEPTH_LEVELS ==> GoodLevel(levels, count, side, k))
  {
    if forall k :: 0 <= k < MAX_DEPTH_LEVELS ==> GoodLevel(levels, count, side, k) {
      forall i, j | 0 <= i < j < count && j < MAX_DEPTH_LEVELS
        ensures Beyond(side, levels[i].ticks, levels[j].ticks)
      {
        OrderedPairs(levels, count, side, i, j);
      }
      forall i | 0 <= i < MAX_DEPTH_LEVELS
        ensures i < count ==> levels[i].ticks > 0 && (levels[i].lots.Some? ==> levels[i].lots.value >= 0)
        ensures i >= count ==> levels[i] == EMPTY_LEVEL
      {
        assert GoodLevel(levels, count, side, i);
      }
    }
  }

  lemma SideChecked(levels: Levels, count: nat, side: Side)
    ensures SideFault(levels, count, side, 0).None? <==> GoodSide(levels, count, side)
  {
    SideFaultFrom(levels, count, side, 0);
    GoodSideByLevel(levels, count, side);
  }

  // The check accepts exactly the valid books.
  lemma FaultExact(book: Book)
    ensures Fault(book).None? <==> GoodBook(book)
  {
    if book.depth.Some? {
      var d := book.depth.value;
      SideChecked(d.bids, d.bidCount, Sell);
      SideChecked(d.asks, d.askCount, Buy);
      hide SideFault, GoodSide;
    }
  }

  // ----- Which fault is reported

  // Some level that counts is not positive, of negative quantity, or not beyond
  // the one before it.
  ghost predicate BadLevel(levels: Levels, count: nat, side: Side) {
    exists i :: 0 <= i < count && i < MAX_DEPTH_LEVELS && BadAt(levels, side, i)
  }

  ghost predicate BadAt(levels: Levels, side: Side, i: nat)
    requires i < MAX_DEPTH_LEVELS
  {
    || levels[i].ticks <= 0 || (levels[i].lots.Some? && levels[i].lots.value < 0)
    || (i > 0 && if side.Buy? then levels[i].ticks <= levels[i - 1].ticks else levels[i].ticks >= levels[i - 1].ticks)
  }

  ghost predicate BadTail(levels: Levels, count: nat) {
    exists i :: count <= i < MAX_DEPTH_LEVELS && levels[i] != EMPTY_LEVEL
  }

  lemma {:induction false} SideFaultKind(levels: Levels, count: nat, side: Side, i: nat)
    requires i <= MAX_DEPTH_LEVELS
    ensures SideFault(levels, count, side, i)
            == if exists k :: i <= k < count && k < MAX_DEPTH_LEVELS && BadAt(levels, side, k) then
                 Some(InvalidDepthLevel)
               else if exists k :: i <= k < MAX_DEPTH_LEVELS && count <= k && levels[k] != EMPTY_LEVEL then
                 Some(InvalidDepthTail)
               else None
    decreases MAX_DEPTH_LEVELS - i
  {
    if i < MAX_DEPTH_LEVELS {
      SideFaultKind(levels, count, side, i + 1);
      if i < count {
        assert i < count && BadAt(levels, side, i) ==> SideFault(levels, count, side, i) == Some(InvalidDepthLevel);
      } else {
        assert levels[i] != EMPTY_LEVEL ==> SideFault(levels, count, side, i) == Some(InvalidDepthTail);
        assert levels[i] == EMPTY_LEVEL ==> SideFault(levels, count, side, i) == SideFault(levels, count, side, i + 1);
      }
    }
  }

  // The first of these that holds is what the check reports.
  lemma FaultKind(book: Book)
    ensures Fault(book) == Some(MissingDepth) <==> book.depth.None?
    ensures book.depth.Some? ==>
              var d := book.depth.value;
              var scoped := book.instrument != 0 && book.bestBid.instrument == book.instrument
                            && book.bestAsk.instrument == book.instrument && book.bestBid.rulesVersion != 0
                            && book.bestBid.rulesVersion == book.bestAsk.rulesVersion;
              Fault(book)
              == if !book.complete then Some(IncompleteBookSnapshot)
                 else if !scoped then Some(InvalidDepthScope)
                 else if d.bidCount == 0 || d.askCount == 0 then Some(IncompleteBookSnapshot)
                 else if d.bidCount > 8 || d.askCount > 8 then Some(DepthCapacityExceeded)
                 else if BadLevel(d.bids, d.bidCount, Sell) then Some(InvalidDepthLevel)
                 else if BadTail(d.bids, d.bidCount) then Some(InvalidDepthTail)
                 else if BadLevel(d.asks, d.askCount, Buy) then Some(InvalidDepthLevel)
                 else if BadTail(d.asks, d.askCount) then Some(InvalidDepthTail)
                 else if !(d.bids[0].ticks < d.asks[0].ticks && book.bestBid == At(book, d.bids[0])
                           && book.bestAsk == At(book, d.asks[0])) then Some(InvalidDepthLevel)
                 else if GoodBook(book) then None
                 else Some(InvalidDepthScope)
  {
    FaultExact(book);
    if book.depth.Some? {
      var d := book.depth.value;
      SideFaultKind(d.bids, d.bidCount, Sell, 0);
      SideFaultKind(d.asks, d.askCount, Buy, 0);
      hide SideFault, GoodBook, BadAt;
    }
  }

  // ----- The quote, in exact arithmetic

  // Whether the price protection admits a level.
  predicate Admits(side: Side, protection: i128, ticks: i128) {
    if side.Buy? then ticks <= protection else ticks >= protection
  }

  function Active(book: Book, side: Side): seq<Level>
    requires GoodBook(book)
  {
    var d := book.depth.value;
    if side.Buy? then d.asks[..d.askCount] else d.bids[..d.bidCount]
  }

  // The lots the levels prove available before the first one that is outside
  // the protection or of unknown quantity.
  function Supply(levels: seq<Level>, side: Side, protection: i128): int {
    if levels == [] || !Admits(side, protection, levels[0].ticks) || levels[0].lots.None? then 0
    else levels[0].lots.value + Supply(levels[1..], side, protection)
  }

  function Min(a: int, b: int): int { if a < b then a else b }

  // The cost of taking lots from the levels in order.
  function Gross(levels: seq<Level>, lots: int): int {
    if lots == 0 || levels == [] || levels[0].lots.None? then 0
    else
      var used := Min(lots, levels[0].lots.value);
      used * levels[0].ticks + Gross(levels[1..], lots - used)
  }

  function CeilDiv(a: int, b: int): int
    requires b > 0
  {
    (a + b - 1) / b
  }

  predicate Fits(x: int) {
    -I128_MAX - 1 <= x <= I128_MAX
  }

  // The fee, and the base and quote amounts after it, against the taker.
  function Fee(gross: int, lots: int, ppm: int, asset: FeeAsset): int {
    CeilDiv((if asset.Base? then lots else gross) * ppm, PPM)
  }

  function NetBase(side: Side, gross: int, lots: int, ppm: int, asset: FeeAsset): int {
    var fee := Fee(gross, lots, ppm, asset);
    if asset.Quote? then lots else if side.Buy? then lots - fee else lots + fee
  }

  function NetQuote(side: Side, gross: int, lots: int, ppm: int, asset: FeeAsset): int {
    var fee := Fee(gross, lots, ppm, asset);
    if asset.Base? then gross else if side.Buy? then gross + fee else gross - fee
  }

  // ----- The quote as computed

  function Add256(a: int, b: int): Option<int> {
    if -I256_MAX - 1 <= a + b <= I256_MAX then Some(a + b) else None
  }

  function Mul256(a: int, b: int): Option<int> {
    if -I256_MAX - 1 <= a * b <= I256_MAX then Some(a * b) else None
  }

  lemma ProductBound(a: int, b: int, m: int, n: int)
    requires 0 <= a <= m && 0 <= b <= n
    ensures 0 <= a * b <= m * n
  {
    assert a * b <= m * b;
    assert m * b <= m * n;
  }

  // Walks the levels from the touch, adding up what the lots cost.
  method TakeLevels(levels: seq<Level>, side: Side, lots: i128, protection: i128)
    returns (r: Result<int, DepthError>)
    requires lots > 0 && GoodLevels(levels, side)
    ensures r == (if Supply(levels, side, protection) < lots then Err(InsufficientDepth) else Ok(Gross(levels, lots)))
    ensures r.Ok? ==> r.value >= 0
  {
    var remaining: int := lots;
    var amount := 0;
    var i := 0;
    while i < |levels| && remaining != 0
      invariant 0 <= i <= |levels| && 0 <= remaining <= lots
      invariant Supply(levels, side, protection) < lots <==> Supply(levels[i..], side, protection) < remaining
      invariant Gross(levels, lots) == amount + Gross(levels[i..], remaining)
      invariant 0 <= amount <= (lots - remaining) * I128_MAX
    {
      var level := levels[i];
      assert levels[i..][0] == level && levels[i..][1..] == levels[i + 1..];
      if !Admits(side, protection, level.ticks) { return Err(InsufficientDepth); }
      if level.lots.None? { return Err(InsufficientDepth); }
      var used := Min(remaining, level.lots.value);
      StepBound(amount, lots - remaining, used, level.ticks, lots);
      var sum := Add256(amount, used * level.ticks);
      if sum.None? { return Err(DepthOverflow); }
      amount := sum.value;
      remaining := remaining - used;
      SupplyNonNegative(levels[i + 1..], side, protection);
      i := i + 1;
    }
    if remaining != 0 { return Err(InsufficientDepth); }
    SupplyNonNegative(levels[i..], side, protection);
    return Ok(amount);
  }

  // The conservative quote. The four ways out are exact: an invalid book or
  // request, too little proven supply, and an amount outside 128 bits. No
  // 256-bit step overflows. The fee moves one amount, against the taker, by the
  // least whole number of units that covers the rate.
  method MakeQuote(book: Book, side: Side, lots: i128, protection: i128, ppm: u32, asset: FeeAsset)
    returns (r: Result<Quoted, DepthError>)
    ensures Fault(book).Some? ==> r == Err(Fault(book).value)
    ensures Fault(book).None? && (lots <= 0 || protection <= 0 || ppm >= PPM) ==> r == Err(InvalidDepthRequest)
    ensures Fault(book).None? && lots > 0 && protection > 0 && ppm < PPM ==>
              GoodBook(book) &&
              var levels := Active(book, side);
              var gross := Gross(levels, lots);
              var base, quote := NetBase(side, gross, lots, ppm, asset), NetQuote(side, gross, lots, ppm, asset);
              r == (if Supply(levels, side, protection) < lots then Err(InsufficientDepth)
                    else if Fits(gross) && Fits(base) && Fits(quote) then Ok(Quoted(lots, base, quote))
                    else Err(DepthOverflow))
    ensures r.Ok? ==>
              && GoodBook(book) && lots > 0 && protection > 0 && ppm < PPM && r.value.grossLots == lots
              && var gross, q := Gross(Active(book, side), lots), r.value;
                 var basis: int := if asset.Base? then lots else gross;
                 var fee: int := match (asset, side)
                                 case (Base, Buy) => lots - q.baseLots
                                 case (Base, Sell) => q.baseLots - lots
                                 case (Quote, Buy) => q.quoteTickLots - gross
                                 case (Quote, Sell) => gross - q.quoteTickLots;
                 && (fee - 1) * PPM < basis * ppm <= fee * PPM
                 && (if asset.Base? then q.quoteTickLots == gross else q.baseLots == lots)
  {
    FaultExact(book);
    hide GoodBook, Fault, Active, Supply, Gross, GoodLevels;
    if Fault(book).Some? { return Err(Fault(book).value); }
    if lots <= 0 || protection <= 0 || ppm >= PPM { return Err(InvalidDepthRequest); }
    var levels := Active(book, side);
    ActiveGood(book, side);
    var amount :- TakeLevels(levels, side, lots, protection);
    if amount > I128_MAX { return Err(DepthOverflow); }
    var basis: int := if asset.Base? then lots else amount;
    FeeFits(basis, ppm);
    var scaled := Mul256(basis, ppm);
    if scaled.None? { return Err(DepthOverflow); }
    var raised := Add256(scaled.value, PPM - 1);
    if raised.None? { return Err(DepthOverflow); }
    var fee := raised.value / PPM;
    FeeIsCeiling(basis, ppm);
    var base: int := if asset.Base? then (if side.Buy? then lots - fee else lots + fee) else lots;
    var quote: int := if asset.Quote? then (if side.Buy? then amount + fee else amount - fee) else amount;
    if !Fits(base) || !Fits(quote) { return Err(DepthOverflow); }
    return Ok(Quoted(lots, base, quote));
  }

  lemma StepBound(amount: int, taken: int, used: int, ticks: int, lots: int)
    requires 0 <= amount <= taken * I128_MAX && 0 <= taken && 0 <= used && taken + used <= lots <= I128_MAX
    requires 0 <= ticks <= I128_MAX
    ensures 0 <= amount + used * ticks <= (taken + used) * I128_MAX
    ensures Add256(amount, used * ticks) == Some(amount + used * ticks)
  {
    ProductBound(used, ticks, used, I128_MAX);
    ProductBound(taken + used, I128_MAX, I128_MAX, I128_MAX);
  }

  lemma FeeFits(basis: int, ppm: u32)
    requires 0 <= basis <= I128_MAX && ppm < PPM
    ensures Mul256(basis, ppm) == Some(basis * ppm)
    ensures Add256(basis * ppm, PPM - 1) == Some(basis * ppm + PPM - 1)
  {
    ProductBound(basis, ppm, I128_MAX, PPM);
  }

  ghost predicate GoodLevels(levels: seq<Level>, side: Side) {
    && (forall i :: 0 <= i < |levels| ==>
          levels[i].ticks > 0 && (levels[i].lots.Some? ==> levels[i].lots.value >= 0))
    && (forall i, j :: 0 <= i < j < |levels| ==> Beyond(side, levels[i].ticks, levels[j].ticks))
  }

  lemma ActiveGood(book: Book, side: Side)
    requires GoodBook(book)
    ensures GoodLevels(Active(book, side), side)
  {
  }

  lemma {:induction false} SupplyNonNegative(levels: seq<Level>, side: Side, protection: i128)
    requires forall i :: 0 <= i < |levels| && levels[i].lots.Some? ==> levels[i].lots.value >= 0
    ensures Supply(levels, side, protection) >= 0
  {
    if levels != [] { SupplyNonNegative(levels[1..], side, protection); }
  }

  // ----- The quote is the best one

  // Quantities taken from each level; a level of known quantity bounds what is
  // taken from it.
  ghost predicate Fill(levels: seq<Level>, taken: seq<int>) {
    && |taken| == |levels|
    && (forall i :: 0 <= i < |levels| ==> 0 <= taken[i])
    && (forall i :: 0 <= i < |levels| && levels[i].lots.Some? ==> taken[i] <= levels[i].lots.value)
  }

  function Total(taken: seq<int>): int {
    if taken == [] then 0 else taken[0] + Total(taken[1..])
  }

  function Cost(levels: seq<Level>, taken: seq<int>): int
    requires |taken| == |levels|
  {
    if levels == [] then 0 else taken[0] * levels[0].ticks + Cost(levels[1..], taken[1..])
  }

  // A side seen so that a better price is a smaller number.
  function Rank(side: Side): int { if side.Buy? then 1 else -1 }

  lemma {:induction false} TotalNonNegative(taken: seq<int>)
    requires forall i :: 0 <= i < |taken| ==> 0 <= taken[i]
    ensures Total(taken) >= 0
  {
    if taken != [] { TotalNonNegative(taken[1..]); }
  }

  // Exchange argument: moving lots towards the touch never makes a fill dearer.
  lemma {:induction false} TouchFirst(
    levels: seq<Level>, side: Side, protection: i128, taken: seq<int>, lots: int, bound: int)
    requires GoodLevels(levels, side) && Fill(levels, taken)
    requires 0 <= lots <= Total(taken) && lots <= Supply(levels, side, protection)
    requires forall i :: 0 <= i < |levels| ==> bound <= Rank(side) * levels[i].ticks
    ensures Rank(side) * Cost(levels, taken) >= Rank(side) * Gross(levels, lots) + (Total(taken) - lots) * bound
    decreases |levels|
  {
    if levels == [] {
    } else {
      var p, g, rest, others := Rank(side) * levels[0].ticks, taken[0], taken[1..], levels[1..];
      assert lots > 0 ==> levels[0].lots.Some?;
      var used := if lots == 0 then 0 else Min(lots, levels[0].lots.value);
      var m, spare := lots - used, Total(taken) - lots - g + used;
      TotalNonNegative(rest);
      SupplyNonNegative(others, side, protection);
      GrossUnfold(levels, lots, used);
      assert Total(taken) == g + Total(rest);
      assert Cost(levels, taken) == g * levels[0].ticks + Cost(others, rest);
      assert 0 <= m <= Supply(others, side, protection);
      assert g > used ==> used == lots;
      assert GoodLevels(others, side) && Fill(others, rest);
      TouchRanksFirst(levels, side);
      TouchFirst(others, side, protection, rest, m, p);
      assert Total(rest) - m == spare;
      TouchSum(side, levels[0].ticks, p, g, used, Cost(others, rest), Gross(others, m), Total(taken) - lots, bound);
    }
  }

  lemma GrossUnfold(levels: seq<Level>, lots: int, used: int)
    requires levels != [] && 0 <= lots && (lots > 0 ==> levels[0].lots.Some?)
    requires used == if lots == 0 then 0 else Min(lots, levels[0].lots.value)
    ensures Gross(levels, lots) == used * levels[0].ticks + Gross(levels[1..], lots - used)
  {
  }

  lemma TouchRanksFirst(levels: seq<Level>, side: Side)
    requires levels != [] && GoodLevels(levels, side)
    ensures forall i :: 0 <= i < |levels[1..]| ==> Rank(side) * levels[0].ticks <= Rank(side) * levels[1..][i].ticks
  {
    forall i | 0 <= i < |levels[1..]|
      ensures Rank(side) * levels[0].ticks <= Rank(side) * levels[1..][i].ticks
    {
      assert Beyond(side, levels[0].ticks, levels[i + 1].ticks);
    }
  }

  lemma TouchSum(
    side: Side, ticks: int, p: int, g: int, used: int, cost: int, gross: int, excess: int, bound: int)
    requires p == Rank(side) * ticks && bound <= p && excess >= 0
    requires Rank(side) * cost >= Rank(side) * gross + (excess - g + used) * p
    ensures Rank(side) * (g * ticks + cost) >= Rank(side) * (used * ticks + gross) + excess * bound
  {
    assert excess * bound <= excess * p;
    assert Rank(side) * (g * ticks) == g * p && Rank(side) * (used * ticks) == used * p;
    assert (excess - g + used) * p == excess * p - g * p + used * p;
  }

  // The gross amount of a quote is the least cost (to buy) or the greatest
  // proceeds (to sell) of any way to take that many lots, and taking them in
  // order is such a way.
  lemma GrossIsBest(book: Book, side: Side, lots: int, protection: i128, taken: seq<int>)
    requires GoodBook(book) && 0 < lots <= Supply(Active(book, side), side, protection)
    requires Fill(Active(book, side), taken) && Total(taken) == lots
    ensures side.Buy? ==> Gross(Active(book, side), lots) <= Cost(Active(book, side), taken)
    ensures side.Sell? ==> Gross(Active(book, side), lots) >= Cost(Active(book, side), taken)
  {
    ActiveGood(book, side);
    TouchFirst(Active(book, side), side, protection, taken, lots, -I128_MAX);
  }

  // Taking the lots in order.
  function InOrder(levels: seq<Level>, lots: int): (taken: seq<int>)
    ensures |taken| == |levels|
  {
    if levels == [] then []
    else [UsedFirst(levels, lots)] + InOrder(levels[1..], lots - UsedFirst(levels, lots))
  }

  function UsedFirst(levels: seq<Level>, lots: int): int
    requires levels != []
  {
    if lots == 0 || levels[0].lots.None? then 0 else Min(lots, levels[0].lots.value)
  }

  lemma {:induction false} GrossIsReached(levels: seq<Level>, side: Side, lots: int, protection: i128)
    requires GoodLevels(levels, side) && 0 <= lots <= Supply(levels, side, protection)
    ensures var taken := InOrder(levels, lots);
      && Fill(levels, taken) && Total(taken) == lots && Cost(levels, taken) == Gross(levels, lots)
      && forall i :: 0 <= i < |levels| && taken[i] > 0 ==>
           if side.Buy? then levels[i].ticks <= protection else levels[i].ticks >= protection
  {
    hide Supply, Gross, Fill, Total, Cost, GoodLevels, InOrder;
    if levels == [] {
      NothingTaken(side, lots, protection);
    } else {
      var used, others := UsedFirst(levels, lots), levels[1..];
      var rest := InOrder(others, lots - used);
      TakenFirst(levels, side, lots, protection);
      GrossIsReached(others, side, lots - used, protection);
      FillFront(levels, used, rest);
      forall i | 0 <= i < |levels| && ([used] + rest)[i] > 0
        ensures if side.Buy? then levels[i].ticks <= protection else levels[i].ticks >= protection
      {
        if i > 0 { assert ([used] + rest)[i] == rest[i - 1] && levels[i] == others[i - 1]; }
      }
    }
  }

  lemma NothingTaken(side: Side, lots: int, protection: i128)
    requires 0 <= lots <= Supply([], side, protection)
    ensures var taken := InOrder([], lots);
      Fill([], taken) && Total(taken) == lots && Cost([], taken) == Gross([], lots)
  {
  }

  // What the touch gives, and what that leaves.
  lemma TakenFirst(levels: seq<Level>, side: Side, lots: int, protection: i128)
    requires levels != [] && GoodLevels(levels, side) && 0 <= lots <= Supply(levels, side, protection)
    ensures var used, others := UsedFirst(levels, lots), levels[1..];
      && GoodLevels(others, side) && 0 <= used && 0 <= lots - used <= Supply(others, side, protection)
      && (levels[0].lots.Some? ==> used <= levels[0].lots.value)
      && (used > 0 ==>
            if side.Buy? then levels[0].ticks <= protection else levels[0].ticks >= protection)
      && InOrder(levels, lots) == [used] + InOrder(others, lots - used)
      && Gross(levels, lots) == used * levels[0].ticks + Gross(others, lots - used)
  {
    hide Beyond;
    SupplyNonNegative(levels[1..], side, protection);
    assert lots > 0 ==> levels[0].lots.Some?;
    GrossUnfold(levels, lots, UsedFirst(levels, lots));
  }

  lemma FillFront(levels: seq<Level>, used: int, rest: seq<int>)
    requires levels != [] && Fill(levels[1..], rest)
    requires 0 <= used && (levels[0].lots.Some? ==> used <= levels[0].lots.value)
    ensures Fill(levels, [used] + rest) && Total([used] + rest) == used + Total(rest)
    ensures Cost(levels, [used] + rest) == used * levels[0].ticks + Cost(levels[1..], rest)
  {
    var taken := [used] + rest;
    assert taken[1..] == rest && taken[0] == used;
    assert forall i :: 1 <= i < |levels| ==> taken[i] == rest[i - 1] && levels[i] == levels[1..][i - 1];
  }

  // ----- The supply

  function LotsOf(levels: seq<Level>): int {
    if levels == [] then 0
    else (if levels[0].lots.Some? then levels[0].lots.value else 0) + LotsOf(levels[1..])
  }

  // The supply is what the levels hold up to the first one that is of unknown
  // quantity or on the wrong side of the protection.
  lemma {:induction false} SupplyIsExact(levels: seq<Level>, side: Side, protection: i128) returns (n: nat)
    ensures n <= |levels| && Supply(levels, side, protection) == LotsOf(levels[..n])
    ensures forall i :: 0 <= i < n ==>
              levels[i].lots.Some? && if side.Buy? then levels[i].ticks <= protection else levels[i].ticks >= protection
    ensures n < |levels| ==>
              levels[n].lots.None? || if side.Buy? then levels[n].ticks > protection else levels[n].ticks < protection
    decreases |levels|
  {
    n := 0;
    if levels != [] && Admits(side, protection, levels[0].ticks) && levels[0].lots.Some? {
      var m := SupplyIsExact(levels[1..], side, protection);
      n := m + 1;
      assert levels[..n][1..] == levels[1..][..m];
    }
  }

  // ----- The fee

  // The fee is the least whole amount not below the exact one, so a buyer never
  // receives and a seller never saves more than the rate allows, and the fee
  // never exceeds what it is taken from.
  lemma FeeIsCeiling(basis: int, ppm: u32)
    requires 0 <= basis && ppm < PPM
    ensures var fee := CeilDiv(basis * ppm, PPM);
      0 <= fee <= basis && fee * PPM >= basis * ppm && (fee - 1) * PPM < basis * ppm
  {
    ProductBound(basis, ppm, basis, PPM - 1);
  }

  // A quote overflows exactly when its gross amount or its one fee-raised
  // amount exceeds 128 bits: lowering an amount by the fee never overflows.
  lemma OverflowExact(side: Side, gross: int, lots: i128, ppm: u32, asset: FeeAsset)
    requires 0 <= gross && 0 < lots && ppm < PPM
    ensures Fits(gross) && Fits(NetBase(side, gross, lots, ppm, asset)) && Fits(NetQuote(side, gross, lots, ppm, asset))
            <==> gross <= I128_MAX
                 && (side.Buy? && asset.Quote? ==> gross * ppm <= (I128_MAX - gross) * PPM)
                 && (side.Sell? && asset.Base? ==> lots * ppm <= (I128_MAX - lots) * PPM)
  {
    FeeIsCeiling(lots, ppm);
    FeeIsCeiling(gross, ppm);
  }
}
