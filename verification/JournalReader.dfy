// The journal's scanning reader, and what it makes of any cut of a written segment.
module JournalReader {
  import opened Bytes
  import opened Wrappers
  import opened Journal

  datatype Cursor = Cursor(offset: nat, records: nat, lastSequence: nat, nextSequence: nat, done: bool)

  // What one call of next answers, and where it leaves the cursor.
  function Advance(crc: Checksum, bytes: seq<byte>, c: Cursor): (Cursor, Result<Next, ReadError>)
    requires c.offset <= |bytes|
  {
    var remaining := |bytes| - c.offset;
    var tail := (c.(done := true), Ok(End(TruncatedTail)));
    if c.done then (c, Err(ReaderFinished))
    else if remaining == 0 then tail
    else if remaining >= 4 && Get(bytes, c.offset, 4) == FOOTER_MAGIC then
      if remaining < FOOTER_LEN then tail
      else if Get(bytes, c.offset + 4, 4) != FOOTER_LEN
              || Get(bytes, c.offset + 8, 8) != c.records
              || Get(bytes, c.offset + 16, 8) != c.lastSequence
              || Get(bytes, c.offset + 28, 4) != crc(bytes[c.offset..c.offset + 28]) then (c, Err(InvalidFooter))
      else (c.(offset := c.offset + FOOTER_LEN, done := true), Ok(End(Clean)))
    else if remaining < RECORD_HEADER_LEN then tail
    else if Get(bytes, c.offset, 4) != RECORD_MAGIC then (c, Err(InvalidRecordMagic))
    else
      var encodedLen := Get(bytes, c.offset + 4, 4);
      if encodedLen < RECORD_HEADER_LEN || encodedLen > RECORD_HEADER_LEN + MAX_PAYLOAD_LEN then
        (c, Err(InvalidRecordLength))
      else if remaining < encodedLen then tail
      else if Get(bytes, c.offset + 68, 4) != crc(bytes[c.offset..c.offset + 68]) then (c, Err(InvalidHeaderChecksum))
      else
        var record := RecordAt(bytes, c.offset, encodedLen);
        if record.sequence != c.nextSequence then (c, Err(ReadSequenceGap))
        else if Get(bytes, c.offset + 64, 4) != crc(record.payload) then (c, Err(InvalidPayloadChecksum))
        else
          (Cursor(c.offset + encodedLen, c.records + 1, record.sequence, c.nextSequence + 1, false), Ok(Item(record)))
  }

  // The record whose header starts at an offset.
  function RecordAt(bytes: seq<byte>, at: nat, encodedLen: nat): Record
    requires RECORD_HEADER_LEN <= encodedLen && at + encodedLen <= |bytes|
  {
    Wide(bytes, at + 8, 2); Wide(bytes, at + 10, 2); Wide(bytes, at + 12, 4); Wide(bytes, at + 16, 8);
    Wide(bytes, at + 24, 8); Wide(bytes, at + 32, 8); Wide(bytes, at + 40, 8); Wide(bytes, at + 48, 8);
    Widths();
    Record(
      Get(bytes, at + 8, 2), Get(bytes, at + 10, 2), Get(bytes, at + 12, 4), Get(bytes, at + 16, 8),
      Get(bytes, at + 24, 8), Get(bytes, at + 32, 8), Get(bytes, at + 40, 8), Get(bytes, at + 48, 8),
      bytes[at + 56], bytes[at + RECORD_HEADER_LEN..at + encodedLen])
  }

  lemma Wide(bytes: seq<byte>, offset: nat, width: nat)
    requires offset + width <= |bytes|
    ensures Get(bytes, offset, width) < Pow256(width)
  {
    FromLittleRoundTrip(bytes[offset..offset + width]);
  }

  function Opened(crc: Checksum, bytes: seq<byte>): Result<Cursor, ReadError> {
    if |bytes| < SEGMENT_HEADER_LEN then Err(TruncatedSegmentHeader)
    else if Get(bytes, 0, 4) != SEGMENT_MAGIC || Get(bytes, 4, 2) != 2 || Get(bytes, 6, 2) != SEGMENT_HEADER_LEN
            || Get(bytes, 60, 4) != crc(bytes[..60]) then Err(InvalidSegmentHeader)
    else if Get(bytes, 24, 8) == 0 then Err(InvalidFirstSequence)
    else Ok(Cursor(SEGMENT_HEADER_LEN, 0, Get(bytes, 24, 8) - 1, Get(bytes, 24, 8), false))
  }

  class Reader {
    const crc: Checksum
    const bytes: seq<byte>
    var offset: nat
    var records: nat
    var lastSequence: nat
    var nextSequence: nat
    var done: bool

    ghost predicate Valid()
      reads this
    {
      offset <= |bytes|
    }

    function Position(): Cursor
      reads this
    {
      Cursor(offset, records, lastSequence, nextSequence, done)
    }

    // Requires what init has checked of the segment header.
    constructor (crc: Checksum, bytes: seq<byte>)
      requires Opened(crc, bytes).Ok?
      ensures Valid() && this.crc == crc && this.bytes == bytes
      ensures Position() == Opened(crc, bytes).value
    {
      this.crc, this.bytes := crc, bytes;
      offset, records, done := SEGMENT_HEADER_LEN, 0, false;
      nextSequence := Get(bytes, 24, 8);
      lastSequence := Get(bytes, 24, 8) - 1;
    }

    method Read() returns (r: Result<Next, ReadError>)
      requires Valid()
      modifies this
      ensures Valid()
      ensures (Position(), r) == Advance(crc, bytes, old(Position()))
    {
      if done { return Err(ReaderFinished); }
      var remaining := |bytes| - offset;
      if remaining == 0 {
        done := true;
        return Ok(End(TruncatedTail));
      }
      if remaining >= 4 && Get(bytes, offset, 4) == FOOTER_MAGIC {
        if remaining < FOOTER_LEN {
          done := true;
          return Ok(End(TruncatedTail));
        }
        if Get(bytes, offset + 4, 4) != FOOTER_LEN || Get(bytes, offset + 8, 8) != records
           || Get(bytes, offset + 16, 8) != lastSequence
           || Get(bytes, offset + 28, 4) != crc(bytes[offset..offset + 28])
        {
          return Err(InvalidFooter);
        }
        offset := offset + FOOTER_LEN;
        done := true;
        return Ok(End(Clean));
      }
      if remaining < RECORD_HEADER_LEN {
        done := true;
        return Ok(End(TruncatedTail));
      }
      if Get(bytes, offset, 4) != RECORD_MAGIC { return Err(InvalidRecordMagic); }
      var encodedLen := Get(bytes, offset + 4, 4);
      if encodedLen < RECORD_HEADER_LEN || encodedLen > RECORD_HEADER_LEN + MAX_PAYLOAD_LEN {
        return Err(InvalidRecordLength);
      }
      if remaining < encodedLen {
        done := true;
        return Ok(End(TruncatedTail));
      }
      if Get(bytes, offset + 68, 4) != crc(bytes[offset..offset + 68]) { return Err(InvalidHeaderChecksum); }
      var record := RecordAt(bytes, offset, encodedLen);
      if record.sequence != nextSequence { return Err(ReadSequenceGap); }
      if Get(bytes, offset + 64, 4) != crc(record.payload) { return Err(InvalidPayloadChecksum); }
      offset := offset + encodedLen;
      records := records + 1;
      lastSequence := record.sequence;
      nextSequence := nextSequence + 1;
      return Ok(Item(record));
    }
  }

  // ----- Scanning a whole segment

  datatype Scan = Scan(records: seq<Record>, end: Result<ScanStatus, ReadError>)

  function ScanFrom(crc: Checksum, bytes: seq<byte>, c: Cursor): Scan
    requires c.offset <= |bytes|
    decreases |bytes| - c.offset
  {
    var (next, answer) := Advance(crc, bytes, c);
    match answer
    case Err(e) => Scan([], Err(e))
    case Ok(End(status)) => Scan([], Ok(status))
    case Ok(Item(record)) =>
      var rest := ScanFrom(crc, bytes, next);
      Scan([record] + rest.records, rest.end)
  }

  function ScanSegment(crc: Checksum, bytes: seq<byte>): Scan {
    match Opened(crc, bytes)
    case Err(e) => Scan([], Err(e))
    case Ok(c) => ScanFrom(crc, bytes, c)
  }

  function Body(crc: Checksum, records: seq<Record>): seq<byte> {
    if records == [] then [] else Encode(crc, records[0]) + Body(crc, records[1..])
  }

  // How many of the records end at or before n bytes of their encoding.
  function Whole(records: seq<Record>, n: nat): (w: nat)
    ensures w <= |records|
  {
    if records == [] || RECORD_HEADER_LEN + |records[0].payload| > n then 0
    else 1 + Whole(records[1..], n - RECORD_HEADER_LEN - |records[0].payload|)
  }

  ghost predicate Consecutive(records: seq<Record>, first: nat) {
    forall i :: 0 <= i < |records| ==> records[i].sequence == first + i && |records[i].payload| <= MAX_PAYLOAD_LEN
  }

  // ----- Fields of an encoded record

  lemma GetPrefix(a: seq<byte>, at: nat, b: seq<byte>, offset: nat, width: nat)
    requires at <= |a| && |a| - at >= offset + width && |b| >= offset + width
    requires forall i :: 0 <= i < offset + width ==> a[at + i] == b[i]
    ensures Get(a, at + offset, width) == Get(b, offset, width)
  {
    assert a[at + offset..at + offset + width] == b[offset..offset + width];
  }

  lemma FrontFields(r: Record)
    requires |r.payload| <= MAX_PAYLOAD_LEN
    ensures var h := RecordHeaderFront(r);
      && Get(h, 0, 4) == RECORD_MAGIC
      && Get(h, 4, 4) == RECORD_HEADER_LEN + |r.payload|
      && Get(h, 8, 2) == r.typeId && Get(h, 10, 2) == r.schemaVersion && Get(h, 12, 4) == r.flags
      && Get(h, 16, 8) == r.sequence && Get(h, 24, 8) == r.sourceTime
  {
    hide Little, FromLittle;
    var h := RecordHeaderFront(r);
    Widths();
    Field(h, 0, 4, RECORD_MAGIC);
    Field(h, 4, 4, RECORD_HEADER_LEN + |r.payload|);
    Field(h, 8, 2, r.typeId);
    Field(h, 10, 2, r.schemaVersion);
    Field(h, 12, 4, r.flags);
    Field(h, 16, 8, r.sequence);
    Field(h, 24, 8, r.sourceTime);
  }

  lemma BackFields(crc: Checksum, r: Record)
    ensures var h := RecordHeaderBack(crc, r);
      && Get(h, 0, 8) == r.receiveTime && Get(h, 8, 8) == r.monotonicTime && Get(h, 16, 8) == r.wallTime
      && h[24] == r.timePresence && Get(h, 32, 4) == crc(r.payload)
  {
    hide Little, FromLittle;
    var h := RecordHeaderBack(crc, r);
    Widths();
    Field(h, 0, 8, r.receiveTime);
    Field(h, 8, 8, r.monotonicTime);
    Field(h, 16, 8, r.wallTime);
    Field(h, 32, 4, crc(r.payload));
  }

  lemma FrontOf(e: seq<byte>, r: Record)
    requires |r.payload| <= MAX_PAYLOAD_LEN && |e| >= 32 && e[..32] == RecordHeaderFront(r)
    ensures Get(e, 0, 4) == RECORD_MAGIC && Get(e, 4, 4) == RECORD_HEADER_LEN + |r.payload|
    ensures Get(e, 8, 2) == r.typeId && Get(e, 10, 2) == r.schemaVersion && Get(e, 12, 4) == r.flags
    ensures Get(e, 16, 8) == r.sequence && Get(e, 24, 8) == r.sourceTime
  {
    hide RecordHeaderFront;
    var h := e[..32];
    FrontFields(r);
    GetPrefix(e, 0, h, 0, 4); GetPrefix(e, 0, h, 4, 4); GetPrefix(e, 0, h, 8, 2); GetPrefix(e, 0, h, 10, 2);
    GetPrefix(e, 0, h, 12, 4); GetPrefix(e, 0, h, 16, 8); GetPrefix(e, 0, h, 24, 8);
  }

  lemma BackOf(crc: Checksum, e: seq<byte>, r: Record)
    requires |e| >= 68 && e[32..68] == RecordHeaderBack(crc, r)
    ensures Get(e, 32, 8) == r.receiveTime && Get(e, 40, 8) == r.monotonicTime && Get(e, 48, 8) == r.wallTime
    ensures e[56] == r.timePresence && Get(e, 64, 4) == crc(r.payload)
  {
    hide RecordHeaderBack;
    var h := e[32..68];
    BackFields(crc, r);
    assert e[56] == h[24];
    GetPrefix(e, 32, h, 0, 8); GetPrefix(e, 32, h, 8, 8); GetPrefix(e, 32, h, 16, 8); GetPrefix(e, 32, h, 32, 4);
  }

  // The fields of an encoded record, at the offsets the reader uses.
  lemma RecordFields(crc: Checksum, r: Record)
    requires |r.payload| <= MAX_PAYLOAD_LEN
    ensures var e := Encode(crc, r);
      && Get(e, 0, 4) == RECORD_MAGIC
      && Get(e, 4, 4) == RECORD_HEADER_LEN + |r.payload|
      && Get(e, 8, 2) == r.typeId && Get(e, 10, 2) == r.schemaVersion && Get(e, 12, 4) == r.flags
      && Get(e, 16, 8) == r.sequence && Get(e, 24, 8) == r.sourceTime && Get(e, 32, 8) == r.receiveTime
      && Get(e, 40, 8) == r.monotonicTime && Get(e, 48, 8) == r.wallTime && e[56] == r.timePresence
      && Get(e, 64, 4) == crc(r.payload) && Get(e, 68, 4) == crc(e[..68])
      && e[RECORD_HEADER_LEN..] == r.payload
  {
    hide RecordHeaderFront, RecordHeaderBack;
    var e := Encode(crc, r);
    assert e[..32] == RecordHeaderFront(r) && e[32..68] == RecordHeaderBack(crc, r);
    FrontOf(e, r);
    BackOf(crc, e, r);
    assert e[..68] == RecordHeaderBody(crc, r);
    hide Little, FromLittle;
    Widths();
    Field(e, 68, 4, crc(e[..68]));
  }

  lemma Field(h: seq<byte>, offset: nat, width: nat, value: nat)
    requires offset + width <= |h| && value < Pow256(width)
    requires h[offset..offset + width] == Little(value, width)
    ensures Get(h, offset, width) == value
  {
    LittleRoundTrip(value, width);
  }

  // ----- One call of next on written bytes

  // bytes continue at the cursor with the first m bytes of `rest`.
  ghost predicate Continues(bytes: seq<byte>, at: nat, rest: seq<byte>) {
    at <= |bytes| && |bytes| - at <= |rest| && bytes[at..] == rest[..|bytes| - at]
  }

  lemma SameFields(crc: Checksum, bytes: seq<byte>, at: nat, e: seq<byte>)
    requires at <= |bytes| && |bytes| - at >= |e| >= RECORD_HEADER_LEN && bytes[at..at + |e|] == e
    ensures Get(bytes, at, 4) == Get(e, 0, 4) && Get(bytes, at + 4, 4) == Get(e, 4, 4)
    ensures Get(bytes, at + 64, 4) == Get(e, 64, 4) && Get(bytes, at + 68, 4) == Get(e, 68, 4)
    ensures bytes[at..at + 68] == e[..68]
    ensures RecordAt(bytes, at, |e|) == RecordAt(e, 0, |e|)
  {
    assert forall i :: 0 <= i < |e| ==> bytes[at + i] == bytes[at..at + |e|][i] == e[i];
    GetPrefix(bytes, at, e, 0, 4); GetPrefix(bytes, at, e, 4, 4); GetPrefix(bytes, at, e, 8, 2);
    GetPrefix(bytes, at, e, 10, 2); GetPrefix(bytes, at, e, 12, 4); GetPrefix(bytes, at, e, 16, 8);
    GetPrefix(bytes, at, e, 24, 8); GetPrefix(bytes, at, e, 32, 8); GetPrefix(bytes, at, e, 40, 8);
    GetPrefix(bytes, at, e, 48, 8); GetPrefix(bytes, at, e, 64, 4); GetPrefix(bytes, at, e, 68, 4);
    assert bytes[at + RECORD_HEADER_LEN..at + |e|] == e[RECORD_HEADER_LEN..];
  }

  lemma DecodesItself(crc: Checksum, r: Record)
    requires |r.payload| <= MAX_PAYLOAD_LEN
    ensures RecordAt(Encode(crc, r), 0, |Encode(crc, r)|) == r
  {
    hide Encode;
    var e := Encode(crc, r);
    RecordFields(crc, r);
    assert e[RECORD_HEADER_LEN..|e|] == r.payload;
    assert RecordAt(e, 0, |e|).payload == r.payload;
  }

  lemma WholeRecord(crc: Checksum, bytes: seq<byte>, c: Cursor, r: Record, rest: seq<byte>)
    requires Continues(bytes, c.offset, Encode(crc, r) + rest)
    requires |bytes| - c.offset >= |Encode(crc, r)|
    requires |r.payload| <= MAX_PAYLOAD_LEN && r.sequence == c.nextSequence && !c.done
    ensures Advance(crc, bytes, c) ==
            (Cursor(c.offset + |Encode(crc, r)|, c.records + 1, r.sequence, c.nextSequence + 1, false), Ok(Item(r)))
    ensures Continues(bytes, c.offset + |Encode(crc, r)|, rest)
  {
    hide Encode, RecordAt, Get, Advance;
    var e, at := Encode(crc, r), c.offset;
    var m := |bytes| - at;
    assert bytes[at..] == (e + rest)[..m];
    assert bytes[at..at + |e|] == bytes[at..][..|e|] == e;
    assert bytes[at + |e|..] == bytes[at..][|e|..] == rest[..m - |e|];
    assert Continues(bytes, at + |e|, rest);
    RecordFields(crc, r);
    DecodesItself(crc, r);
    SameFields(crc, bytes, at, e);
    AcceptsRecord(crc, bytes, c, r);
  }

  lemma AcceptsRecord(crc: Checksum, bytes: seq<byte>, c: Cursor, r: Record)
    requires c.offset + RECORD_HEADER_LEN + |r.payload| <= |bytes| && |r.payload| <= MAX_PAYLOAD_LEN
    requires !c.done && r.sequence == c.nextSequence
    requires Get(bytes, c.offset, 4) == RECORD_MAGIC
    requires Get(bytes, c.offset + 4, 4) == RECORD_HEADER_LEN + |r.payload|
    requires Get(bytes, c.offset + 64, 4) == crc(r.payload)
    requires Get(bytes, c.offset + 68, 4) == crc(bytes[c.offset..c.offset + 68])
    requires RecordAt(bytes, c.offset, RECORD_HEADER_LEN + |r.payload|) == r
    ensures Advance(crc, bytes, c) ==
            (Cursor(c.offset + RECORD_HEADER_LEN + |r.payload|, c.records + 1, r.sequence, c.nextSequence + 1, false),
             Ok(Item(r)))
  {
    hide RecordAt, Get;
  }

  lemma PartialRecord(crc: Checksum, bytes: seq<byte>, c: Cursor, r: Record, rest: seq<byte>)
    requires Continues(bytes, c.offset, Encode(crc, r) + rest)
    requires |bytes| - c.offset < |Encode(crc, r)|
    requires |r.payload| <= MAX_PAYLOAD_LEN && !c.done
    ensures Advance(crc, bytes, c).1 == Ok(End(TruncatedTail))
  {
    hide Encode, RecordAt;
    var e, at := Encode(crc, r), c.offset;
    var m := |bytes| - at;
    assert forall i :: 0 <= i < m ==> bytes[at + i] == bytes[at..][i] == e[i];
    RecordFields(crc, r);
    if m >= 4 { GetPrefix(bytes, at, e, 0, 4); }
    if m >= 8 { GetPrefix(bytes, at, e, 4, 4); }
  }

  lemma FooterFields(crc: Checksum, records: u64, last: u64)
    ensures var f := Footer(crc, records, last);
      && Get(f, 0, 4) == FOOTER_MAGIC && Get(f, 4, 4) == FOOTER_LEN && Get(f, 8, 8) == records
      && Get(f, 16, 8) == last && Get(f, 28, 4) == crc(f[..28]) && f[..28] == FooterBody(records, last)
  {
    hide Little, FromLittle;
    var f := Footer(crc, records, last);
    Widths();
    assert f[..28] == FooterBody(records, last);
    Field(f, 0, 4, FOOTER_MAGIC);
    Field(f, 4, 4, FOOTER_LEN);
    Field(f, 8, 8, records);
    Field(f, 16, 8, last);
    Field(f, 28, 4, crc(FooterBody(records, last)));
  }

  lemma WholeFooter(crc: Checksum, bytes: seq<byte>, c: Cursor)
    requires c.records < 0x1_0000_0000_0000_0000 && c.lastSequence < 0x1_0000_0000_0000_0000 && !c.done
    requires c.offset <= |bytes| && bytes[c.offset..] == Footer(crc, c.records, c.lastSequence)
    ensures Advance(crc, bytes, c).1 == Ok(End(Clean))
  {
    hide Footer, RecordAt;
    var f, at := Footer(crc, c.records, c.lastSequence), c.offset;
    FooterFields(crc, c.records, c.lastSequence);
    assert forall i :: 0 <= i < FOOTER_LEN ==> bytes[at + i] == bytes[at..][i] == f[i];
    GetPrefix(bytes, at, f, 0, 4); GetPrefix(bytes, at, f, 4, 4); GetPrefix(bytes, at, f, 8, 8);
    GetPrefix(bytes, at, f, 16, 8); GetPrefix(bytes, at, f, 28, 4);
    assert bytes[at..at + 28] == f[..28];
  }

  lemma PartialFooter(crc: Checksum, bytes: seq<byte>, c: Cursor)
    requires c.records < 0x1_0000_0000_0000_0000 && c.lastSequence < 0x1_0000_0000_0000_0000 && !c.done
    requires Continues(bytes, c.offset, Footer(crc, c.records, c.lastSequence)) && |bytes| - c.offset < FOOTER_LEN
    ensures Advance(crc, bytes, c).1 == Ok(End(TruncatedTail))
  {
    hide Footer, RecordAt;
    var f, at := Footer(crc, c.records, c.lastSequence), c.offset;
    FooterFields(crc, c.records, c.lastSequence);
    if |bytes| - at >= 4 {
      assert forall i :: 0 <= i < 4 ==> bytes[at + i] == bytes[at..][i] == f[i];
      GetPrefix(bytes, at, f, 0, 4);
    }
  }

  lemma FooterScan(crc: Checksum, bytes: seq<byte>, c: Cursor, sealed: bool)
    requires c.records < 0x1_0000_0000_0000_0000 && c.lastSequence < 0x1_0000_0000_0000_0000 && !c.done
    requires Continues(bytes, c.offset, if sealed then Footer(crc, c.records, c.lastSequence) else [])
    ensures Advance(crc, bytes, c).1 == Ok(End(
              if sealed && |bytes| - c.offset == FOOTER_LEN then Clean else TruncatedTail))
  {
    hide Footer;
    if sealed {
      if |bytes| - c.offset == FOOTER_LEN {
        hide Advance;
        WholeFooter(crc, bytes, c);
      } else {
        hide Advance;
        PartialFooter(crc, bytes, c);
      }
    }
  }

  lemma ScanEnd(crc: Checksum, bytes: seq<byte>, c: Cursor, status: ScanStatus)
    requires c.offset <= |bytes| && Advance(crc, bytes, c).1 == Ok(End(status))
    ensures ScanFrom(crc, bytes, c) == Scan([], Ok(status))
  {
    hide Advance;
  }

  lemma ScanItem(crc: Checksum, bytes: seq<byte>, c: Cursor, next: Cursor, r: Record)
    requires c.offset <= |bytes| && c.offset < next.offset <= |bytes|
    requires Advance(crc, bytes, c) == (next, Ok(Item(r)))
    ensures ScanFrom(crc, bytes, c) ==
            Scan([r] + ScanFrom(crc, bytes, next).records, ScanFrom(crc, bytes, next).end)
  {
    hide Advance;
  }

  lemma {:induction false} ScanRest(
    crc: Checksum, bytes: seq<byte>, c: Cursor, records: seq<Record>, last: nat, sealed: bool)
    requires !c.done && c.nextSequence == c.lastSequence + 1
    requires c.records + |records| < 0x1_0000_0000_0000_0000
    requires last == c.lastSequence + |records| < 0x1_0000_0000_0000_0000
    requires Consecutive(records, c.nextSequence)
    requires Continues(bytes, c.offset,
      Body(crc, records) + (if sealed then Footer(crc, c.records + |records|, last) else []))
    ensures ScanFrom(crc, bytes, c) == Scan(
              records[..Whole(records, |bytes| - c.offset)],
              Ok(if sealed && |bytes| - c.offset == |Body(crc, records)| + FOOTER_LEN then Clean else TruncatedTail))
    decreases |records|
  {
    hide Encode, Footer, Advance, ScanFrom;
    var footer := if sealed then Footer(crc, c.records + |records|, last) else [];
    if records == [] {
      assert Body(crc, records) + footer == footer;
      FooterScan(crc, bytes, c, sealed);
      ScanEnd(crc, bytes, c, if sealed && |bytes| - c.offset == FOOTER_LEN then Clean else TruncatedTail);
    } else {
      var e, rest := Encode(crc, records[0]), Body(crc, records[1..]) + footer;
      assert Body(crc, records) + footer == e + rest;
      if |bytes| - c.offset < |e| {
        PartialRecord(crc, bytes, c, records[0], rest);
        ScanEnd(crc, bytes, c, TruncatedTail);
      } else {
        WholeRecord(crc, bytes, c, records[0], rest);
        var next := Cursor(c.offset + |e|, c.records + 1, records[0].sequence, c.nextSequence + 1, false);
        assert Consecutive(records[1..], next.nextSequence);
        ScanItem(crc, bytes, c, next, records[0]);
        ScanRest(crc, bytes, next, records[1..], last, sealed);
        var w := Whole(records[1..], |bytes| - next.offset);
        assert [records[0]] + records[1..][..w] == records[..w + 1];
      }
    }
  }

  lemma SegmentHeaderFields(crc: Checksum, first: u64)
    ensures var h := SegmentHeader(crc, first);
      && Get(h, 0, 4) == SEGMENT_MAGIC && Get(h, 4, 2) == 2 && Get(h, 6, 2) == SEGMENT_HEADER_LEN
      && Get(h, 24, 8) == first && Get(h, 60, 4) == crc(h[..60])
  {
    var h, b := SegmentHeader(crc, first), SegmentHeaderBody(first);
    SegmentBodyFields(first);
    hide SegmentHeaderBody;
    assert h[..60] == b;
    assert forall i :: 0 <= i < 60 ==> h[i] == b[i];
    GetPrefix(h, 0, b, 0, 4); GetPrefix(h, 0, b, 4, 2); GetPrefix(h, 0, b, 6, 2); GetPrefix(h, 0, b, 24, 8);
    hide Little, FromLittle;
    Widths();
    Field(h, 60, 4, crc(b));
  }

  lemma SegmentBodyFields(first: u64)
    ensures var b := SegmentHeaderBody(first);
      Get(b, 0, 4) == SEGMENT_MAGIC && Get(b, 4, 2) == 2 && Get(b, 6, 2) == SEGMENT_HEADER_LEN && Get(b, 24, 8) == first
  {
    hide Little, FromLittle;
    var b := SegmentHeaderBody(first);
    Widths();
    Field(b, 0, 4, SEGMENT_MAGIC);
    Field(b, 4, 2, 2);
    Field(b, 6, 2, SEGMENT_HEADER_LEN);
    Field(b, 24, 8, first);
  }

  // The bytes of a segment that starts at `first` and holds the records.
  function Segment(crc: Checksum, first: u64, records: seq<Record>, sealed: bool): seq<byte>
    requires first > 0
  {
    SegmentHeader(crc, first) + Body(crc, records) +
    (if sealed then Footer(crc, |records|, first - 1 + |records|) else [])
  }

  lemma OpensSegment(crc: Checksum, first: u64, bytes: seq<byte>)
    requires first > 0 && |bytes| >= SEGMENT_HEADER_LEN && bytes[..SEGMENT_HEADER_LEN] == SegmentHeader(crc, first)
    ensures Opened(crc, bytes) == Ok(Cursor(SEGMENT_HEADER_LEN, 0, first - 1, first, false))
  {
    hide SegmentHeader, Get;
    var header := bytes[..SEGMENT_HEADER_LEN];
    SegmentHeaderFields(crc, first);
    GetPrefix(bytes, 0, header, 0, 4); GetPrefix(bytes, 0, header, 4, 2); GetPrefix(bytes, 0, header, 6, 2);
    GetPrefix(bytes, 0, header, 24, 8); GetPrefix(bytes, 0, header, 60, 4);
    assert bytes[..60] == header[..60];
  }

  // Cut anywhere at or after the header, a segment reads as exactly the records
  // that end before the cut and then a truncated tail; the whole of a sealed
  // segment reads as all its records and then a clean end.
  lemma CutReadsWholeRecords(crc: Checksum, first: u64, records: seq<Record>, sealed: bool, cut: nat)
    requires first > 0 && first + |records| < 0x1_0000_0000_0000_0000 && Consecutive(records, first)
    requires SEGMENT_HEADER_LEN <= cut <= |Segment(crc, first, records, sealed)|
    ensures ScanSegment(crc, Segment(crc, first, records, sealed)[..cut]) == Scan(
              records[..Whole(records, cut - SEGMENT_HEADER_LEN)],
              Ok(if sealed && cut == |Segment(crc, first, records, sealed)| then Clean else TruncatedTail))
  {
    hide SegmentHeader, Footer, Body, ScanFrom, Opened;
    var header := SegmentHeader(crc, first);
    var footer := if sealed then Footer(crc, |records|, first - 1 + |records|) else [];
    var all := Segment(crc, first, records, sealed);
    var bytes := all[..cut];
    assert all == header + (Body(crc, records) + footer);
    assert bytes[..SEGMENT_HEADER_LEN] == header;
    OpensSegment(crc, first, bytes);
    var c := Cursor(SEGMENT_HEADER_LEN, 0, first - 1, first, false);
    assert bytes[SEGMENT_HEADER_LEN..] == (Body(crc, records) + footer)[..cut - SEGMENT_HEADER_LEN];
    ScanRest(crc, bytes, c, records, first - 1 + |records|, sealed);
  }

  lemma {:induction false} WholeIsAll(crc: Checksum, records: seq<Record>, n: nat)
    requires n >= |Body(crc, records)|
    ensures Whole(records, n) == |records|
  {
    if records != [] { WholeIsAll(crc, records[1..], n - |Encode(crc, records[0])|); }
  }

  // Nothing is lost and nothing is invented: sealed bytes read back as written.
  lemma SealedRoundTrip(crc: Checksum, first: u64, records: seq<Record>)
    requires first > 0 && first + |records| < 0x1_0000_0000_0000_0000 && Consecutive(records, first)
    ensures ScanSegment(crc, Segment(crc, first, records, true)) == Scan(records, Ok(Clean))
  {
    var all := Segment(crc, first, records, true);
    CutReadsWholeRecords(crc, first, records, true, |all|);
    assert all[..|all|] == all;
    WholeIsAll(crc, records, |all| - SEGMENT_HEADER_LEN);
  }

  // ----- What the journal has written

  ghost predicate Holds(crc: Checksum, s: State, first: u64, records: seq<Record>)
    requires first > 0
  {
    && ValidState(s)
    && Consecutive(records, first)
    && s.storage[..s.len] == Segment(crc, first, records, s.sealed)
    && s.records == |records| && s.lastSequence == first - 1 + |records|
  }

  lemma {:induction false} BodyConcat(crc: Checksum, a: seq<Record>, r: Record)
    ensures Body(crc, a + [r]) == Body(crc, a) + Encode(crc, r)
  {
    hide Encode;
    if a == [] {
      assert a + [r] == [r];
      assert Body(crc, []) == [];
    } else {
      var t := a[1..];
      BodyConcat(crc, t, r);
      assert (a + [r])[1..] == t + [r];
      calc {
        Body(crc, a + [r]);
        Encode(crc, a[0]) + Body(crc, t + [r]);
        Encode(crc, a[0]) + (Body(crc, t) + Encode(crc, r));
        (Encode(crc, a[0]) + Body(crc, t)) + Encode(crc, r);
      }
    }
  }

  lemma AppendHolds(crc: Checksum, s: State, first: u64, records: seq<Record>, r: Record)
    requires first > 0 && Holds(crc, s, first, records) && Appended(crc, s, r).Ok?
    ensures Holds(crc, Appended(crc, s, r).value, first, records + [r])
  {
    hide Encode, Body, SegmentHeader;
    var t := Appended(crc, s, r).value;
    BodyConcat(crc, records, r);
    assert t.storage[..t.len] == s.storage[..s.len] + Encode(crc, r);
  }

  lemma SealHolds(crc: Checksum, s: State, first: u64, records: seq<Record>)
    requires first > 0 && Holds(crc, s, first, records) && !s.sealed
    ensures Sealed(crc, s).Ok? && Holds(crc, Sealed(crc, s).value, first, records)
  {
    hide Footer, Body, SegmentHeader;
    var t := Sealed(crc, s).value;
    assert t.storage[..t.len] == s.storage[..s.len] + Footer(crc, s.records, s.lastSequence);
  }
}
