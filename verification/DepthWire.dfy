// The 704-byte depth wire format: the Zig encoder and decoder, and the Python
// host's independent decoder of the same bytes.
module DepthWire {
  import opened Bytes
  import opened Wrappers
  import opened Depth

  const HEADER_LEN: nat := 64
  const LEVEL_LEN: nat := 40
  const WIRE_LEN: nat := HEADER_LEN + 2 * MAX_DEPTH_LEVELS * LEVEL_LEN

  function Flag(b: bool): byte { if b then 1 else 0 }

  function LevelBytes(level: Level): (b: seq<byte>)
    ensures |b| == LEVEL_LEN
  {
    LittleSigned(level.ticks) + [Flag(level.lots.Some?)] + Zeros(7) +
    LittleSigned(if level.lots.Some? then level.lots.value else 0)
  }

  function LevelsBytes(levels: seq<Level>): (b: seq<byte>)
    ensures |b| == LEVEL_LEN * |levels|
  {
    if levels == [] then [] else LevelsBytes(levels[..|levels| - 1]) + LevelBytes(levels[|levels| - 1])
  }

  function HeaderBytes(instrument: u128, rules: u64, sequence: u64, d: BookDepth): (b: seq<byte>)
    requires d.bidCount < 256 && d.askCount < 256
    ensures |b| == HEADER_LEN
  {
    Little(instrument, 16) + Little(rules, 8) + Little(sequence, 8) + Little(d.visibleAt, 8) +
    [d.bidCount as byte, d.askCount as byte, Flag(d.bidsTruncated), Flag(d.asksTruncated)] + Zeros(20)
  }

  function Wire(book: Book): (b: seq<byte>)
    requires book.depth.Some?
    ensures |b| == WIRE_LEN
  {
    var d := book.depth.value;
    HeaderBytes(book.instrument, book.bestBid.rulesVersion, book.sequence, d) + LevelsBytes(d.bids + d.asks)
  }

  // ----- What a 704-byte string says

  function OffsetOf(k: nat): nat { HEADER_LEN + k * LEVEL_LEN }

  function LevelAt(b: seq<byte>, k: nat): Level
    requires |b| == WIRE_LEN && k < 2 * MAX_DEPTH_LEVELS
  {
    Level(GetSigned(b, OffsetOf(k)),
          if b[OffsetOf(k) + 16] == 1 then Some(GetSigned(b, OffsetOf(k) + 24)) else None)
  }

  function SideAt(b: seq<byte>, first: nat): (levels: Levels)
    requires |b| == WIRE_LEN && first <= MAX_DEPTH_LEVELS
    ensures forall i :: 0 <= i < MAX_DEPTH_LEVELS ==> levels[i] == LevelAt(b, first + i)
  {
    var levels := seq(MAX_DEPTH_LEVELS, i requires 0 <= i < MAX_DEPTH_LEVELS => LevelAt(b, first + i));
    assert |levels| == MAX_DEPTH_LEVELS;
    levels
  }

  predicate AllZero(b: seq<byte>) {
    forall i :: 0 <= i < |b| ==> b[i] == 0
  }

  // The padding of one level: a boolean presence byte, zeros, and no quantity
  // where none is present.
  predicate LevelShape(b: seq<byte>, k: nat)
    requires |b| == WIRE_LEN && k < 2 * MAX_DEPTH_LEVELS
  {
    var at := OffsetOf(k);
    b[at + 16] <= 1 && AllZero(b[at + 17..at + 24]) && (b[at + 16] == 0 ==> GetSigned(b, at + 24) == 0)
  }

  predicate Shape(b: seq<byte>) {
    && |b| == WIRE_LEN && b[42] <= 1 && b[43] <= 1 && AllZero(b[44..64])
    && forall k :: 0 <= k < 2 * MAX_DEPTH_LEVELS ==> LevelShape(b, k)
  }

  function DepthAt(b: seq<byte>): BookDepth
    requires |b| == WIRE_LEN
  {
    WideAt(b);
    BookDepth(SideAt(b, 0), SideAt(b, MAX_DEPTH_LEVELS), b[40] as nat, b[41] as nat, b[42] == 1, b[43] == 1,
              Get(b, 32, 8))
  }

  lemma WideAt(b: seq<byte>)
    requires |b| == WIRE_LEN
    ensures Get(b, 0, 16) < 0x1_0000_0000_0000_0000_0000_0000_0000_0000
    ensures Get(b, 16, 8) < 0x1_0000_0000_0000_0000 && Get(b, 24, 8) < 0x1_0000_0000_0000_0000
    ensures Get(b, 32, 8) < 0x1_0000_0000_0000_0000
  {
    Widths();
    FromLittleRoundTrip(b[0..16]);
    FromLittleRoundTrip(b[16..24]);
    FromLittleRoundTrip(b[24..32]);
    FromLittleRoundTrip(b[32..40]);
  }

  // A book whose redundant top fields repeat its depth.
  function Filled(instrument: u128, rules: u64, sequence: u64, d: BookDepth): Book {
    var second := d.askCount > 1;
    Book(
      instrument, sequence, true, Some(d),
      Price(instrument, rules, d.bids[0].ticks), Price(instrument, rules, d.asks[0].ticks),
      Lots(instrument, rules, d.bids[0].lots), Lots(instrument, rules, d.asks[0].lots),
      if second then Some(Price(instrument, rules, d.asks[1].ticks)) else None,
      if second then Lots(instrument, rules, d.asks[1].lots) else None)
  }

  function BookAt(b: seq<byte>): Book
    requires |b| == WIRE_LEN
  {
    WideAt(b);
    Filled(Get(b, 0, 16), Get(b, 16, 8), Get(b, 24, 8), DepthAt(b))
  }

  // The strings both decoders accept.
  ghost predicate Acceptable(b: seq<byte>) {
    && Shape(b)
    && Get(b, 0, 16) != 0 && Get(b, 16, 8) != 0
    && 1 <= b[40] as nat <= MAX_DEPTH_LEVELS && 1 <= b[41] as nat <= MAX_DEPTH_LEVELS
    && GoodSide(SideAt(b, 0), b[40] as nat, Sell)
    && GoodSide(SideAt(b, MAX_DEPTH_LEVELS), b[41] as nat, Buy)
    && LevelAt(b, 0).ticks < LevelAt(b, MAX_DEPTH_LEVELS).ticks
  }

  lemma AcceptableExact(b: seq<byte>)
    requires Shape(b)
    ensures GoodBook(BookAt(b)) <==> Acceptable(b)
  {
    hide GoodSide, LevelAt, Shape, Get;
  }

  // ----- The Zig decoder

  method Decode(b: seq<byte>) returns (r: Result<Book, DepthError>)
    ensures !Shape(b) ==> r == Err(InvalidDepthWire)
    ensures Shape(b) && !Acceptable(b) ==> Fault(BookAt(b)).Some? && r == Err(Fault(BookAt(b)).value)
    ensures r.Ok? <==> Acceptable(b)
    ensures r.Ok? ==> r.value == BookAt(b)
  {
    hide Get, GetSigned, GoodSide, SideFault, Fault;
    if |b| != WIRE_LEN || b[42] > 1 || b[43] > 1 || !AllZero(b[44..64]) { return Err(InvalidDepthWire); }
    var levels: seq<Level> := [];
    for side := 0 to 2
      invariant |levels| == side * MAX_DEPTH_LEVELS
      invariant forall k :: 0 <= k < |levels| ==> LevelShape(b, k) && levels[k] == LevelAt(b, k)
    {
      for i := 0 to MAX_DEPTH_LEVELS
        invariant |levels| == side * MAX_DEPTH_LEVELS + i
        invariant forall k :: 0 <= k < |levels| ==> LevelShape(b, k) && levels[k] == LevelAt(b, k)
      {
        var k := side * MAX_DEPTH_LEVELS + i;
        var offset := HEADER_LEN + k * LEVEL_LEN;
        if b[offset + 16] > 1 || !AllZero(b[offset + 17..offset + 24]) {
          assert !LevelShape(b, k);
          return Err(InvalidDepthWire);
        }
        var lots := GetSigned(b, offset + 24);
        if b[offset + 16] == 0 && lots != 0 {
          assert !LevelShape(b, k);
          return Err(InvalidDepthWire);
        }
        levels := levels + [Level(GetSigned(b, offset), if b[offset + 16] == 1 then Some(lots) else None)];
      }
    }
    WideAt(b);
    var bids, asks := levels[..MAX_DEPTH_LEVELS], levels[MAX_DEPTH_LEVELS..];
    var depth := BookDepth(bids, asks, b[40] as nat, b[41] as nat, b[42] == 1, b[43] == 1, Get(b, 32, 8));
    assert bids == SideAt(b, 0) && asks == SideAt(b, MAX_DEPTH_LEVELS);
    var book := Filled(Get(b, 0, 16), Get(b, 16, 8), Get(b, 24, 8), depth);
    AcceptableExact(b);
    FaultExact(book);
    if Fault(book).Some? { return Err(Fault(book).value); }
    return Ok(book);
  }

  // ----- The Python decoder

  datatype HostDepth = HostDepth(
    instrument: nat, rulesVersion: nat, sequence: nat, visibleAt: nat, bids: seq<Level>, asks: seq<Level>,
    bidsTruncated: bool, asksTruncated: bool)

  // What the host keeps of a book: the same scalars and the active levels.
  function HostView(book: Book): HostDepth
    requires book.depth.Some? && book.depth.value.bidCount <= MAX_DEPTH_LEVELS
    requires book.depth.value.askCount <= MAX_DEPTH_LEVELS
  {
    var d := book.depth.value;
    HostDepth(book.instrument, book.bestBid.rulesVersion, book.sequence, d.visibleAt, d.bids[..d.bidCount],
              d.asks[..d.askCount], d.bidsTruncated, d.asksTruncated)
  }

  // Every value the host keeps is the book's own.
  lemma HostKeeps(book: Book)
    requires book.depth.Some? && book.depth.value.bidCount <= MAX_DEPTH_LEVELS
    requires book.depth.value.askCount <= MAX_DEPTH_LEVELS
    ensures var v, d := HostView(book), book.depth.value;
      && v.instrument == book.instrument && v.rulesVersion == book.bestBid.rulesVersion && v.sequence == book.sequence
      && v.visibleAt == d.visibleAt && v.bidsTruncated == d.bidsTruncated && v.asksTruncated == d.asksTruncated
      && |v.bids| == d.bidCount && (forall i :: 0 <= i < d.bidCount ==> v.bids[i] == d.bids[i])
      && |v.asks| == d.askCount && (forall i :: 0 <= i < d.askCount ==> v.asks[i] == d.asks[i])
  {
  }

  ghost predicate ShapedSide(b: seq<byte>, first: nat)
    requires |b| == WIRE_LEN && first <= MAX_DEPTH_LEVELS
  {
    forall k :: first <= k < first + MAX_DEPTH_LEVELS ==> LevelShape(b, k)
  }

  // One level of the host's decoder; None stands for RecoveryNeeded.
  method HostLevel(b: seq<byte>, k: nat) returns (r: Option<Level>)
    requires |b| == WIRE_LEN && k < 2 * MAX_DEPTH_LEVELS
    ensures r == if LevelShape(b, k) then Some(LevelAt(b, k)) else None
  {
    hide Get, GetSigned;
    var offset := HEADER_LEN + k * LEVEL_LEN;
    var ticks := GetSigned(b, offset);
    var present := b[offset + 16];
    var lots := GetSigned(b, offset + 24);
    if present > 1 || !AllZero(b[offset + 17..offset + 24]) || (present == 0 && lots != 0) { return None; }
    return Some(Level(ticks, if present == 1 then Some(lots) else None));
  }

  // One side of the host's decoder.
  method HostSide(b: seq<byte>, side: nat, count: nat) returns (r: Option<seq<Level>>)
    requires |b| == WIRE_LEN && side < 2 && count <= MAX_DEPTH_LEVELS
    ensures r.Some? <==> ShapedSide(b, side * MAX_DEPTH_LEVELS)
                         && GoodSide(SideAt(b, side * MAX_DEPTH_LEVELS), count, if side == 0 then Sell else Buy)
    ensures r.Some? ==> r.value == SideAt(b, side * MAX_DEPTH_LEVELS)[..count]
  {
    hide LevelShape, LevelAt, GoodSide;
    ghost var book := if side == 0 then Sell else Buy;
    var first := side * MAX_DEPTH_LEVELS;
    ghost var all := SideAt(b, first);
    GoodSideByLevel(all, count, book);
    var levels: seq<Level> := [];
    for i := 0 to MAX_DEPTH_LEVELS
      invariant levels == all[..Min(i, count)]
      invariant forall k :: first <= k < first + i ==> LevelShape(b, k)
      invariant forall k :: 0 <= k < i ==> GoodLevel(all, count, book, k)
    {
      var read := HostLevel(b, first + i);
      if read.None? { return None; }
      var level := read.value;
      assert all[i] == level;
      if i >= count {
        if level.ticks != 0 || level.lots.Some? {
          assert !GoodLevel(all, count, book, i);
          return None;
        }
      } else {
        if level.ticks <= 0 || (level.lots.Some? && level.lots.value < 0) {
          assert !GoodLevel(all, count, book, i);
          return None;
        }
        if levels != [] && (if side == 0 then level.ticks >= levels[|levels| - 1].ticks
                            else level.ticks <= levels[|levels| - 1].ticks) {
          assert levels[|levels| - 1] == all[i - 1];
          assert !GoodLevel(all, count, book, i);
          return None;
        }
        levels := levels + [level];
        assert levels == all[..i + 1];
      }
    }
    return Some(levels);
  }

  // The host accepts exactly the strings the Zig decoder accepts, and reads the
  // same values from them.
  method HostDecode(b: seq<byte>) returns (r: Option<HostDepth>)
    ensures r.Some? <==> Acceptable(b)
    ensures r.Some? ==> r.value == HostView(BookAt(b))
  {
    hide Get, GetSigned, GoodSide, LevelShape;
    if |b| != WIRE_LEN || !AllZero(b[44..64]) || b[42] > 1 || b[43] > 1 { return None; }
    var instrument := Get(b, 0, 16);
    var rules, sequence, visibleAt := Get(b, 16, 8), Get(b, 24, 8), Get(b, 32, 8);
    if instrument == 0 || rules == 0 || !(1 <= b[40] <= 8) || !(1 <= b[41] <= 8) { return None; }
    var bids := HostSide(b, 0, b[40] as nat);
    if bids.None? { return None; }
    var asks := HostSide(b, 1, b[41] as nat);
    if asks.None? {
      assert 1 * MAX_DEPTH_LEVELS == MAX_DEPTH_LEVELS;
      return None;
    }
    assert Shape(b);
    if bids.value[0].ticks >= asks.value[0].ticks { return None; }
    return Some(HostDepth(instrument, rules, sequence, visibleAt, bids.value, asks.value, b[42] == 1, b[43] == 1));
  }

  // ----- The Zig encoder

  // A buffer whose first blocks have been written.
  ghost predicate BlocksWritten(buffer: seq<byte>, before: seq<byte>, levels: seq<Level>) {
    var end := HEADER_LEN + LEVEL_LEN * |levels|;
    && end <= |before| && |buffer| == |before|
    && buffer[..HEADER_LEN] == before[..HEADER_LEN]
    && buffer[HEADER_LEN..end] == LevelsBytes(levels)
    && buffer[end..] == before[end..]
  }

  lemma OneMoreBlock(buffer: seq<byte>, before: seq<byte>, levels: seq<Level>, k: nat)
    requires k < |levels| && HEADER_LEN + LEVEL_LEN * |levels| <= |before|
    requires BlocksWritten(buffer, before, levels[..k])
    ensures BlocksWritten(Spliced(buffer, HEADER_LEN + LEVEL_LEN * k, LevelBytes(levels[k])), before, levels[..k + 1])
  {
    var at, block := HEADER_LEN + LEVEL_LEN * k, LevelBytes(levels[k]);
    var after, end := Spliced(buffer, at, block), at + LEVEL_LEN;
    SplicedKeeps(buffer, at, block, 0, HEADER_LEN);
    SplicedKeeps(buffer, at, block, HEADER_LEN, at);
    SplicedKeeps(buffer, at, block, end, |buffer|);
    assert after[end..] == after[end..|after|] == buffer[end..|buffer|] == buffer[at..][LEVEL_LEN..];
    assert before[end..] == before[at..][LEVEL_LEN..];
    assert after[HEADER_LEN..end] == after[HEADER_LEN..at] + after[at..end];
    assert levels[..k + 1][..k] == levels[..k];
    assert LevelsBytes(levels[..k + 1]) == LevelsBytes(levels[..k]) + LevelBytes(levels[k]);
    assert after[..HEADER_LEN] == after[0..HEADER_LEN] && buffer[..HEADER_LEN] == buffer[0..HEADER_LEN];
  }

  method PutLevels(destination: array<byte>, levels: seq<Level>)
    requires HEADER_LEN + LEVEL_LEN * |levels| <= destination.Length
    modifies destination
    ensures BlocksWritten(destination[..], old(destination[..]), levels)
  {
    hide LevelBytes, Spliced;
    for k := 0 to |levels|
      invariant BlocksWritten(destination[..], old(destination[..]), levels[..k])
    {
      hide BlocksWritten;
      OneMoreBlock(destination[..], old(destination[..]), levels, k);
      Put(destination, HEADER_LEN + LEVEL_LEN * k, LevelBytes(levels[k]));
    }
    assert levels[..|levels|] == levels;
  }

  // Only a valid book that fits is written, and only the first 704 bytes are touched.
  method Encode(destination: array<byte>, book: Book) returns (r: Result<nat, DepthError>)
    modifies destination
    ensures r == (match Fault(book)
                  case Some(e) => Err(e)
                  case None => if destination.Length < WIRE_LEN then Err(DepthCapacityExceeded) else Ok(WIRE_LEN))
    ensures r.Ok? ==> book.depth.Some? && destination[..] == Wire(book) + old(destination[WIRE_LEN..])
    ensures r.Err? ==> destination[..] == old(destination[..])
  {
    FaultExact(book);
    hide Fault, HeaderBytes, LevelBytes;
    if Fault(book).Some? { return Err(Fault(book).value); }
    if destination.Length < WIRE_LEN { return Err(DepthCapacityExceeded); }
    var d := book.depth.value;
    var header := HeaderBytes(book.instrument, book.bestBid.rulesVersion, book.sequence, d);
    Put(destination, 0, header);
    ghost var headed := destination[..];
    assert headed[..HEADER_LEN] == header && headed[WIRE_LEN..] == old(destination[WIRE_LEN..]);
    PutLevels(destination, d.bids + d.asks);
    hide LevelsBytes;
    assert destination[..] == destination[..HEADER_LEN] + destination[HEADER_LEN..WIRE_LEN] + destination[WIRE_LEN..];
    return Ok(WIRE_LEN);
  }

  // ----- Round trips

  lemma {:induction false} BlockOf(levels: seq<Level>, k: nat)
    requires k < |levels|
    ensures LEVEL_LEN * k + LEVEL_LEN <= |LevelsBytes(levels)|
    ensures LevelsBytes(levels)[LEVEL_LEN * k..LEVEL_LEN * k + LEVEL_LEN] == LevelBytes(levels[k])
  {
    hide LevelBytes;
    var n := |levels| - 1;
    if k < n {
      BlockOf(levels[..n], k);
      assert levels[..n][k] == levels[k];
    }
  }

  lemma {:induction false} BlocksDecide(b: seq<byte>, levels: seq<Level>)
    requires |b| == LEVEL_LEN * |levels|
    requires forall k :: 0 <= k < |levels| ==> Block(b, k) == LevelBytes(levels[k])
    ensures b == LevelsBytes(levels)
  {
    hide LevelBytes;
    if levels != [] {
      var n := |levels| - 1;
      var front := b[..LEVEL_LEN * n];
      forall k | 0 <= k < n
        ensures Block(front, k) == LevelBytes(levels[..n][k])
      {
        assert Block(front, k) == Block(b, k);
      }
      BlocksDecide(front, levels[..n]);
      assert b == front + Block(b, n);
    }
  }

  function Block(b: seq<byte>, k: nat): seq<byte>
    requires LEVEL_LEN * k + LEVEL_LEN <= |b|
  {
    b[LEVEL_LEN * k..LEVEL_LEN * k + LEVEL_LEN]
  }

  // Reading back one encoded level.
  lemma LevelReadsBack(b: seq<byte>, k: nat, level: Level)
    requires |b| == WIRE_LEN && k < 2 * MAX_DEPTH_LEVELS
    requires b[OffsetOf(k)..OffsetOf(k) + LEVEL_LEN] == LevelBytes(level)
    ensures LevelAt(b, k) == level && LevelShape(b, k)
  {
    hide LittleSigned, GetSigned;
    var at := OffsetOf(k);
    var lots := if level.lots.Some? then level.lots.value else 0;
    var block := b[at..at + LEVEL_LEN];
    assert b[at..at + 16] == block[..16] == LittleSigned(level.ticks);
    assert b[at + 24..at + 40] == block[24..] == LittleSigned(lots);
    assert b[at + 16] == block[16] == Flag(level.lots.Some?);
    assert b[at + 17..at + 24] == block[17..24] == Zeros(7);
    SignedRoundTrip(level.ticks, b, at);
    SignedRoundTrip(lots, b, at + 24);
  }

  // Writing back one level read from the wire.
  lemma LevelWritesBack(b: seq<byte>, k: nat)
    requires |b| == WIRE_LEN && k < 2 * MAX_DEPTH_LEVELS && LevelShape(b, k)
    ensures LevelBytes(LevelAt(b, k)) == b[OffsetOf(k)..OffsetOf(k) + LEVEL_LEN]
  {
    hide LittleSigned, GetSigned;
    var at := OffsetOf(k);
    GetSignedRoundTrip(b, at);
    GetSignedRoundTrip(b, at + 24);
    var block := b[at..at + LEVEL_LEN];
    assert block == b[at..at + 16] + [b[at + 16]] + b[at + 17..at + 24] + b[at + 24..at + 40];
    assert b[at + 17..at + 24] == Zeros(7);
  }

  lemma HeaderReadsBack(b: seq<byte>, instrument: u128, rules: u64, sequence: u64, d: BookDepth)
    requires |b| == WIRE_LEN && b[..HEADER_LEN] == HeaderBytes(instrument, rules, sequence, d)
    requires d.bidCount < 256 && d.askCount < 256
    ensures Get(b, 0, 16) == instrument && Get(b, 16, 8) == rules && Get(b, 24, 8) == sequence
    ensures Get(b, 32, 8) == d.visibleAt && b[40] as nat == d.bidCount && b[41] as nat == d.askCount
    ensures b[42] == Flag(d.bidsTruncated) && b[43] == Flag(d.asksTruncated) && AllZero(b[44..64])
  {
    hide Little, FromLittle;
    var h := b[..HEADER_LEN];
    Widths();
    assert b[0..16] == h[0..16] == Little(instrument, 16);
    assert b[16..24] == h[16..24] == Little(rules, 8);
    assert b[24..32] == h[24..32] == Little(sequence, 8);
    assert b[32..40] == h[32..40] == Little(d.visibleAt, 8);
    assert b[44..64] == h[44..64] == Zeros(20);
    assert h[40] == d.bidCount as byte && h[41] == d.askCount as byte;
    assert h[42] == Flag(d.bidsTruncated) && h[43] == Flag(d.asksTruncated);
    LittleRoundTrip(instrument, 16);
    LittleRoundTrip(rules, 8);
    LittleRoundTrip(sequence, 8);
    LittleRoundTrip(d.visibleAt, 8);
  }

  lemma HeaderWritesBack(b: seq<byte>)
    requires Shape(b)
    ensures HeaderBytes(BookAt(b).instrument, BookAt(b).bestBid.rulesVersion, BookAt(b).sequence, DepthAt(b))
            == b[..HEADER_LEN]
  {
    hide Little, Pow256;
    FromLittleRoundTrip(b[0..16]);
    FromLittleRoundTrip(b[16..24]);
    FromLittleRoundTrip(b[24..32]);
    FromLittleRoundTrip(b[32..40]);
    assert b[..HEADER_LEN] == b[0..16] + b[16..24] + b[24..32] + b[32..40] + [b[40], b[41], b[42], b[43]] + b[44..64];
    assert b[44..64] == Zeros(20);
  }

  // Encoding a decoded string returns the same bytes.
  lemma WireOfDecoded(b: seq<byte>)
    requires Acceptable(b)
    ensures Wire(BookAt(b)) == b
  {
    hide LevelBytes, LevelAt, LevelShape, HeaderBytes, Get, GoodSide;
    var d := DepthAt(b);
    var levels: seq<Level> := d.bids + d.asks;
    var tail := b[HEADER_LEN..];
    HeaderWritesBack(b);
    forall k | 0 <= k < 2 * MAX_DEPTH_LEVELS
      ensures Block(tail, k) == LevelBytes(levels[k])
    {
      LevelWritesBack(b, k);
      assert levels[k] == LevelAt(b, k);
      assert Block(tail, k) == b[OffsetOf(k)..OffsetOf(k) + LEVEL_LEN];
    }
    BlocksDecide(tail, levels);
    assert b == b[..HEADER_LEN] + tail;
  }

  function Refilled(book: Book): Book
    requires book.depth.Some?
  {
    Filled(book.instrument, book.bestBid.rulesVersion, book.sequence, book.depth.value)
  }

  // Decoding an encoded valid book returns it with the second ask filled in
  // from its depth.
  lemma DecodedOfWire(book: Book)
    requires GoodBook(book)
    ensures Acceptable(Wire(book)) && BookAt(Wire(book)) == Refilled(book)
  {
    hide LevelBytes, LevelAt, LevelShape, HeaderBytes, Get, GoodSide;
    var b, d := Wire(book), book.depth.value;
    var levels: seq<Level> := d.bids + d.asks;
    assert b[..HEADER_LEN] == HeaderBytes(book.instrument, book.bestBid.rulesVersion, book.sequence, d);
    HeaderReadsBack(b, book.instrument, book.bestBid.rulesVersion, book.sequence, d);
    forall k | 0 <= k < 2 * MAX_DEPTH_LEVELS
      ensures LevelAt(b, k) == levels[k] && LevelShape(b, k)
    {
      BlockOf(levels, k);
      assert b[OffsetOf(k)..OffsetOf(k) + LEVEL_LEN]
          == LevelsBytes(levels)[LEVEL_LEN * k..LEVEL_LEN * k + LEVEL_LEN];
      LevelReadsBack(b, k, levels[k]);
    }
    assert SideAt(b, 0) == d.bids;
    assert SideAt(b, MAX_DEPTH_LEVELS) == d.asks;
  }

  // A valid book survives the wire unchanged exactly when its redundant second
  // ask is filled in or its depth has no second ask to fill it from.
  lemma RoundTripExact(book: Book)
    requires GoodBook(book)
    ensures BookAt(Wire(book)) == book <==> book.nextAsk.Some? || book.depth.value.askCount < 2
  {
    DecodedOfWire(book);
    hide GoodSide;
  }
}
