// Frames of the bridge between the trading process and a strategy host, as the
// host writes and reads them.
module HostFrames {
  import opened Bytes
  import opened Wrappers
  import opened Crc32c
  import opened PackedFields

  const MAGIC: nat := 0x4348_5351
  const HEADER_LEN: nat := 64
  const MAX_PAYLOAD: nat := 8 * 1024 * 1024 + 192 + 8

  datatype Frame = Frame(kind: u16, owner: u64, shard: u32, session: u64, sequence: u64, payload: seq<byte>)

  datatype FrameError = EndOfStream | InvalidLength | InvalidMagic | InvalidFrame

  // ----- Writing

  function HeaderFields(f: Frame): seq<(nat, nat)> {
    var n := |f.payload|;
    [(MAGIC, 4), (1, 2), (HEADER_LEN, 2), (f.kind, 2), (1, 2), (0, 4), (HEADER_LEN + n, 4), (n, 4), (f.owner, 8),
     (f.shard, 4), (0, 4), (f.session, 8), (f.sequence, 8), (Checksum(f.payload), 4)]
  }

  function Header(f: Frame): (h: seq<byte>)
    ensures |h| == 60
  {
    HeaderOffsets(f);
    PackLength(HeaderFields(f));
    PackFields(HeaderFields(f))
  }

  // The offsets at which fields are packed and read.
  lemma HeaderOffsets(f: Frame)
    ensures var h := HeaderFields(f);
      && Offset(h, 0) == 0 && Offset(h, 1) == 4 && Offset(h, 2) == 6 && Offset(h, 3) == 8 && Offset(h, 4) == 10
      && Offset(h, 5) == 12 && Offset(h, 6) == 16 && Offset(h, 7) == 20 && Offset(h, 8) == 24 && Offset(h, 9) == 32
      && Offset(h, 10) == 36 && Offset(h, 11) == 40 && Offset(h, 12) == 48 && Offset(h, 13) == 56 && Offset(h, 14) == 60
  {
    hide Checksum;
    var h := HeaderFields(f);
    assert Offset(h, 0) == 0;
    assert Offset(h, 1) == 4;
    assert Offset(h, 2) == 6;
    assert Offset(h, 3) == 8;
    assert Offset(h, 4) == 10;
    assert Offset(h, 5) == 12;
    assert Offset(h, 6) == 16;
    assert Offset(h, 7) == 20;
    assert Offset(h, 8) == 24;
    assert Offset(h, 9) == 32;
    assert Offset(h, 10) == 36;
    assert Offset(h, 11) == 40;
    assert Offset(h, 12) == 48;
    assert Offset(h, 13) == 56;
  }

  function Body(f: Frame): (b: seq<byte>)
    ensures |b| == HEADER_LEN + |f.payload|
  {
    Header(f) + Little(Checksum(Header(f)), 4) + f.payload
  }

  // What goes to the stream: the length, then the frame.
  function Written(f: Frame): seq<byte> {
    Little(HEADER_LEN + |f.payload|, 4) + Body(f)
  }

  // ----- Reading

  predicate HeaderChecks(frame: seq<byte>)
    requires |frame| >= HEADER_LEN
  {
    && Get(frame, 4, 2) == 1 && Get(frame, 6, 2) == HEADER_LEN && Get(frame, 10, 2) == 1 && Get(frame, 12, 4) == 0
    && Get(frame, 16, 4) == |frame| && Get(frame, 20, 4) == |frame| - HEADER_LEN && Get(frame, 36, 4) == 0
    && Checksum(frame[HEADER_LEN..]) == Get(frame, 56, 4) && Checksum(frame[..60]) == Get(frame, 60, 4)
  }

  function FrameAt(frame: seq<byte>): Frame
    requires |frame| >= HEADER_LEN
  {
    Narrow(frame);
    Frame(Get(frame, 8, 2), Get(frame, 24, 8), Get(frame, 32, 4), Get(frame, 40, 8), Get(frame, 48, 8),
        frame[HEADER_LEN..])
  }

  lemma Narrow(frame: seq<byte>)
    requires |frame| >= HEADER_LEN
    ensures Get(frame, 8, 2) < 0x1_0000 && Get(frame, 32, 4) < 0x1_0000_0000
    ensures Get(frame, 24, 8) < 0x1_0000_0000_0000_0000 && Get(frame, 40, 8) < 0x1_0000_0000_0000_0000
    ensures Get(frame, 48, 8) < 0x1_0000_0000_0000_0000
  {
    Widths();
    FromLittleRoundTrip(frame[8..10]);
    FromLittleRoundTrip(frame[24..32]);
    FromLittleRoundTrip(frame[32..36]);
    FromLittleRoundTrip(frame[40..48]);
    FromLittleRoundTrip(frame[48..56]);
  }

  // One frame from the front of a stream, and what is left of it.
  function Read(stream: seq<byte>): Result<(Frame, seq<byte>), FrameError> {
    if |stream| < 4 then Err(EndOfStream)
    else
      var length := Get(stream, 0, 4);
      if length < HEADER_LEN || length > HEADER_LEN + MAX_PAYLOAD then Err(InvalidLength)
      else if |stream| < 4 + length then Err(EndOfStream)
      else
        var frame := stream[4..4 + length];
        if Get(frame, 0, 4) != MAGIC then Err(InvalidMagic)
        else if !HeaderChecks(frame) then Err(InvalidFrame)
        else Ok((FrameAt(frame), stream[4 + length..]))
  }

  // ----- Reading is the inverse of writing

  lemma FieldsFit(f: Frame)
    requires |f.payload| <= MAX_PAYLOAD
    ensures forall i :: 0 <= i < |HeaderFields(f)| ==> HeaderFields(f)[i].0 < Pow256(HeaderFields(f)[i].1)
  {
    Widths();
    ChecksumFits(f.payload);
    hide Checksum, Pow256;
  }

  lemma Prefixed(frame: seq<byte>, offset: nat, width: nat)
    requires |frame| >= HEADER_LEN && offset + width <= 60
    ensures Get(frame, offset, width) == Get(frame[..60], offset, width)
  {
    assert frame[..60][offset..offset + width] == frame[offset..offset + width];
  }

  // What a header says, at the offsets the reader looks at.
  lemma HeaderReads(f: Frame)
    requires |f.payload| <= MAX_PAYLOAD
    ensures var h, n := Header(f), |f.payload|;
      && Get(h, 0, 4) == MAGIC && Get(h, 4, 2) == 1 && Get(h, 6, 2) == HEADER_LEN && Get(h, 8, 2) == f.kind
      && Get(h, 10, 2) == 1 && Get(h, 12, 4) == 0 && Get(h, 16, 4) == HEADER_LEN + n && Get(h, 20, 4) == n
      && Get(h, 24, 8) == f.owner && Get(h, 32, 4) == f.shard && Get(h, 36, 4) == 0 && Get(h, 40, 8) == f.session
      && Get(h, 48, 8) == f.sequence && Get(h, 56, 4) == Checksum(f.payload)
  {
    HeaderOffsets(f);
    FieldsFit(f);
    var h, fields := Header(f), HeaderFields(f);
    hide Get, PackFields, Offset, Checksum;
    forall k | 0 <= k < 14 ensures Reads(h, fields, k) { PackedReads(fields, k); }
    assert Reads(h, fields, 0) && Reads(h, fields, 1) && Reads(h, fields, 2) && Reads(h, fields, 3)
        && Reads(h, fields, 4);
    assert Reads(h, fields, 5) && Reads(h, fields, 6) && Reads(h, fields, 7) && Reads(h, fields, 8)
        && Reads(h, fields, 9);
    assert Reads(h, fields, 10) && Reads(h, fields, 11) && Reads(h, fields, 12) && Reads(h, fields, 13);
  }

  // Bytes whose fields read as those of a frame are its header.
  lemma HeaderOf(h: seq<byte>, f: Frame)
    requires |h| == 60
    requires var n := |f.payload|;
      && Get(h, 0, 4) == MAGIC && Get(h, 4, 2) == 1 && Get(h, 6, 2) == HEADER_LEN && Get(h, 8, 2) == f.kind
      && Get(h, 10, 2) == 1 && Get(h, 12, 4) == 0 && Get(h, 16, 4) == HEADER_LEN + n && Get(h, 20, 4) == n
      && Get(h, 24, 8) == f.owner && Get(h, 32, 4) == f.shard && Get(h, 36, 4) == 0 && Get(h, 40, 8) == f.session
      && Get(h, 48, 8) == f.sequence && Get(h, 56, 4) == Checksum(f.payload)
    ensures h == Header(f)
  {
    HeaderOffsets(f);
    var fields := HeaderFields(f);
    hide Get, PackFields, Offset, Checksum;
    forall k | 0 <= k < 14 ensures Reads(h, fields, k) {}
    ReadsArePacked(h, fields);
  }

  lemma BodyReads(f: Frame)
    requires |f.payload| <= MAX_PAYLOAD
    ensures var b := Body(f); Get(b, 0, 4) == MAGIC && HeaderChecks(b) && FrameAt(b) == f
  {
    var b := Body(f);
    HeaderReads(f);
    ChecksumFits(Header(f));
    Widths();
    hide Header, Checksum, Little, FromLittle, Pow256;
    assert b[..60] == Header(f) && b[60..64] == Little(Checksum(Header(f)), 4) && b[HEADER_LEN..] == f.payload;
    LittleRoundTrip(Checksum(Header(f)), 4);
    Prefixed(b, 0, 4); Prefixed(b, 4, 2); Prefixed(b, 6, 2); Prefixed(b, 8, 2); Prefixed(b, 10, 2); Prefixed(b, 12, 4);
    Prefixed(b, 16, 4); Prefixed(b, 20, 4); Prefixed(b, 24, 8); Prefixed(b, 32, 4); Prefixed(b, 36, 4);
    Prefixed(b, 40, 8); Prefixed(b, 48, 8); Prefixed(b, 56, 4);
  }

  // The prefix of a checked frame is the header of the frame it gives.
  lemma HeaderOfRead(frame: seq<byte>)
    requires |frame| >= HEADER_LEN && Get(frame, 0, 4) == MAGIC && HeaderChecks(frame)
    ensures frame[..60] == Header(FrameAt(frame))
  {
    hide Checksum, Get, Header;
    Prefixed(frame, 0, 4); Prefixed(frame, 4, 2); Prefixed(frame, 6, 2); Prefixed(frame, 8, 2); Prefixed(frame, 10, 2);
    Prefixed(frame, 12, 4); Prefixed(frame, 16, 4); Prefixed(frame, 20, 4); Prefixed(frame, 24, 8);
    Prefixed(frame, 32, 4); Prefixed(frame, 36, 4); Prefixed(frame, 40, 8); Prefixed(frame, 48, 8);
    Prefixed(frame, 56, 4);
    HeaderOf(frame[..60], FrameAt(frame));
  }

  lemma BodyOfRead(frame: seq<byte>)
    requires |frame| >= HEADER_LEN && Get(frame, 0, 4) == MAGIC && HeaderChecks(frame)
    ensures frame == Body(FrameAt(frame))
  {
    hide Checksum, Little, FromLittle, Header;
    HeaderOfRead(frame);
    FromLittleRoundTrip(frame[60..64]);
    assert frame == frame[..60] + frame[60..64] + frame[HEADER_LEN..];
  }

  lemma LengthReads(n: nat, rest: seq<byte>)
    requires n < 0x1_0000_0000
    ensures Get(Little(n, 4) + rest, 0, 4) == n
  {
    Widths();
    LittleRoundTrip(n, 4);
    assert (Little(n, 4) + rest)[0..4] == Little(n, 4);
  }

  // A written frame reads back as itself, whatever follows it in the stream.
  lemma ReadOfWritten(f: Frame, rest: seq<byte>)
    requires |f.payload| <= MAX_PAYLOAD
    ensures Read(Written(f) + rest) == Ok((f, rest))
  {
    hide Body, HeaderChecks, FrameAt, Little, FromLittle;
    var stream, n := Written(f) + rest, HEADER_LEN + |f.payload|;
    assert stream == Little(n, 4) + (Body(f) + rest);
    LengthReads(n, Body(f) + rest);
    assert stream[4..4 + n] == Body(f) && stream[4 + n..] == rest;
    BodyReads(f);
  }

  // Only written frames are read: what was taken from the stream is exactly
  // the writing of the frame returned.
  lemma WrittenOfRead(stream: seq<byte>)
    requires Read(stream).Ok?
    ensures var (f, rest) := Read(stream).value; |f.payload| <= MAX_PAYLOAD && stream == Written(f) + rest
  {
    hide Body, HeaderChecks, Little, FromLittle;
    var n := Get(stream, 0, 4);
    var frame := stream[4..4 + n];
    BodyOfRead(frame);
    FromLittleRoundTrip(stream[0..4]);
    assert stream == stream[0..4] + frame + stream[4 + n..];
  }

  // ----- Streams of frames

  function WrittenAll(frames: seq<Frame>): seq<byte> {
    if frames == [] then [] else Written(frames[0]) + WrittenAll(frames[1..])
  }

  // All frames that can be read from a stream, in order.
  function ReadAll(stream: seq<byte>): (r: seq<Frame>)
    decreases |stream|
  {
    var one := Read(stream);
    if one.Err? then [] else [one.value.0] + ReadAll(one.value.1)
  }

  // A stream of written frames reads back frame by frame, and any whole frames
  // that precede a damaged or unfinished one are still read.
  lemma {:induction false} StreamReadsBack(frames: seq<Frame>, tail: seq<byte>)
    requires forall i :: 0 <= i < |frames| ==> |frames[i].payload| <= MAX_PAYLOAD
    requires Read(tail).Err?
    ensures ReadAll(WrittenAll(frames) + tail) == frames
    decreases |frames|
  {
    hide Read, Written;
    if frames == [] {
      assert WrittenAll(frames) + tail == tail;
    } else {
      var rest := WrittenAll(frames[1..]) + tail;
      assert WrittenAll(frames) + tail == Written(frames[0]) + rest;
      ReadOfWritten(frames[0], rest);
      StreamReadsBack(frames[1..], tail);
    }
  }

  // ----- Damage

  // Other bytes in place of up to four consecutive ones of the payload, or of
  // the checked header, are never read as a frame.
  lemma DamagedPayloadIsRefused(f: Frame, before: seq<byte>, x: seq<byte>, y: seq<byte>, after: seq<byte>,
                                rest: seq<byte>)
    requires f.payload == before + x + after && |x| == |y| <= 4 && x != y && |f.payload| <= MAX_PAYLOAD
    ensures Read(Little(HEADER_LEN + |f.payload|, 4)
                 + (Header(f) + Little(Checksum(Header(f)), 4) + (before + y + after)) + rest).Err?
  {
    hide Header, Checksum, Little, FromLittle;
    var n, damaged := HEADER_LEN + |f.payload|, before + y + after;
    var frame := Header(f) + Little(Checksum(Header(f)), 4) + damaged;
    var stream := Little(n, 4) + frame + rest;
    assert stream == Little(n, 4) + (frame + rest);
    LengthReads(n, frame + rest);
    assert stream[4..4 + n] == frame && frame[HEADER_LEN..] == damaged && frame[..60] == Header(f);
    HeaderReads(f);
    Prefixed(frame, 56, 4);
    DetectsFourByteBurst(before, x, y, after);
  }

  lemma DamagedHeaderIsRefused(f: Frame, before: seq<byte>, x: seq<byte>, y: seq<byte>, after: seq<byte>,
                               rest: seq<byte>)
    requires Header(f) == before + x + after && |x| == |y| <= 4 && x != y && |f.payload| <= MAX_PAYLOAD
    ensures Read(Little(HEADER_LEN + |f.payload|, 4)
                 + ((before + y + after) + Little(Checksum(Header(f)), 4) + f.payload) + rest).Err?
  {
    ChecksumFits(Header(f));
    Widths();
    hide Header, Checksum, Little, FromLittle, Pow256;
    var n, damaged := HEADER_LEN + |f.payload|, before + y + after;
    var frame := damaged + Little(Checksum(Header(f)), 4) + f.payload;
    var stream := Little(n, 4) + frame + rest;
    assert |damaged| == 60;
    assert stream == Little(n, 4) + (frame + rest);
    LengthReads(n, frame + rest);
    assert stream[4..4 + n] == frame && frame[..60] == damaged && frame[60..64] == Little(Checksum(Header(f)), 4);
    LittleRoundTrip(Checksum(Header(f)), 4);
    DetectsFourByteBurst(before, x, y, after);
  }

  // ----- The stream as the host handles it

  class Pipe {
    var unread: seq<byte>
    var sent: seq<byte>

    constructor (incoming: seq<byte>)
      ensures unread == incoming && sent == []
    {
      unread, sent := incoming, [];
    }

    // One read returns some of what is there, or nothing at the end.
    method ReadSome(size: nat) returns (chunk: seq<byte>)
      requires size > 0
      modifies this`unread
      ensures |chunk| <= size && old(unread) == chunk + unread && (chunk == [] <==> old(unread) == [])
    {
      var available := if |unread| < size then |unread| else size;
      var held: nat :| held == 0 || held < available;
      var n := available - held;
      chunk, unread := unread[..n], unread[n..];
    }

    // However the stream is chunked, exactly the next bytes are returned.
    method ReadExact(size: nat) returns (r: Option<seq<byte>>)
      modifies this`unread
      ensures |old(unread)| >= size ==> r == Some(old(unread)[..size]) && unread == old(unread)[size..]
      ensures |old(unread)| < size ==> r == None
    {
      var chunks := [];
      while |chunks| != size
        invariant |chunks| <= size && old(unread) == chunks + unread
        decreases size - |chunks|
      {
        var chunk := ReadSome(size - |chunks|);
        if chunk == [] { return None; }
        chunks := chunks + chunk;
      }
      return Some(chunks);
    }

    method ReadFrame() returns (r: Result<Frame, FrameError>)
      modifies this`unread
      ensures Read(old(unread)).Ok? ==> r == Ok(Read(old(unread)).value.0) && unread == Read(old(unread)).value.1
      ensures Read(old(unread)).Err? ==> r == Err(Read(old(unread)).error)
    {
      hide HeaderChecks, FrameAt;
      ghost var stream := unread;
      var prefix := ReadExact(4);
      if prefix.None? { return Err(EndOfStream); }
      assert prefix.value[0..4] == stream[0..4];
      var length := Get(prefix.value, 0, 4);
      if length < HEADER_LEN || length > HEADER_LEN + MAX_PAYLOAD { return Err(InvalidLength); }
      var body := ReadExact(length);
      if body.None? { return Err(EndOfStream); }
      var frame := body.value;
      assert frame == stream[4..4 + length] && unread == stream[4 + length..];
      if Get(frame, 0, 4) != MAGIC { return Err(InvalidMagic); }
      if !HeaderChecks(frame) { return Err(InvalidFrame); }
      return Ok(FrameAt(frame));
    }

    // Packs the header in place around the payload; the length goes out first.
    method WriteFrame(f: Frame)
      modifies this`sent
      ensures sent == old(sent) + Written(f)
    {
      var n := |f.payload|;
      var header := Header(f);
      var frame := new byte[HEADER_LEN + n];
      ghost var empty := frame[..];
      Put(frame, 0, header);
      var crc := Compute(frame[..60]);
      Put(frame, 60, Little(crc, 4));
      SplicedKeeps(Spliced(empty, 0, header), 60, Little(crc, 4), 0, 60);
      ghost var checked := frame[..];
      Put(frame, HEADER_LEN, f.payload);
      SplicedKeeps(checked, HEADER_LEN, f.payload, 0, 60);
      SplicedKeeps(checked, HEADER_LEN, f.payload, 60, 64);
      assert frame[..] == frame[..][0..60] + frame[..][60..64] + frame[..][64..64 + n];
      sent := sent + Little(HEADER_LEN + n, 4) + frame[..];
    }
  }
}
