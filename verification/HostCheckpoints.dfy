// The container of a strategy checkpoint, as the host packs and checks it. The
// digest is a parameter of fixed width; the payload is any byte string.
module HostCheckpoints {
  import opened Bytes
  import opened Wrappers
  import opened Crc32c
  import opened PackedFields

  const MAGIC: nat := 0x4353_5351
  const HEADER_LEN: nat := 192
  const MAX_PAYLOAD: nat := 8 * 1024 * 1024

  type Digest = d: seq<byte> | |d| == 32 witness Zeros(32)
  type Hash = seq<byte> -> Digest

  datatype Metadata = Metadata(
    registry: u128, strategy: u128, definition: u128, schema: u128, schemaVersion: u32, config: u64, cursor: u64,
    nextIntent: u64)

  datatype CheckpointError = InvalidHeader | InvalidContent | InvalidNextIntent

  // ----- Layout

  function MetaFields(m: Metadata, payload: seq<byte>): seq<(nat, nat)> {
    [(MAGIC, 4), (1, 2), (HEADER_LEN, 2), (0, 4), (HEADER_LEN + |payload|, 4), (m.registry, 16), (m.strategy, 16),
     (m.definition, 16), (m.schema, 16), (m.schemaVersion, 4), (1, 2), (0, 2), (m.config, 8), (m.cursor, 8),
     (m.nextIntent, 8), (|payload|, 4), (Checksum(payload), 4)]
  }

  lemma MetaOffsets(m: Metadata, payload: seq<byte>)
    ensures var h := MetaFields(m, payload);
      && Offset(h, 0) == 0 && Offset(h, 1) == 4 && Offset(h, 2) == 6 && Offset(h, 3) == 8 && Offset(h, 4) == 12
      && Offset(h, 5) == 16 && Offset(h, 6) == 32 && Offset(h, 7) == 48 && Offset(h, 8) == 64 && Offset(h, 9) == 80
      && Offset(h, 10) == 84 && Offset(h, 11) == 86 && Offset(h, 12) == 88 && Offset(h, 13) == 96
      && Offset(h, 14) == 104 && Offset(h, 15) == 112 && Offset(h, 16) == 116 && Offset(h, 17) == 120
  {
    hide Checksum;
    var h := MetaFields(m, payload);
    assert Offset(h, 0) == 0;
    assert Offset(h, 1) == 4;
    assert Offset(h, 2) == 6;
    assert Offset(h, 3) == 8;
    assert Offset(h, 4) == 12;
    assert Offset(h, 5) == 16;
    assert Offset(h, 6) == 32;
    assert Offset(h, 7) == 48;
    assert Offset(h, 8) == 64;
    assert Offset(h, 9) == 80;
    assert Offset(h, 10) == 84;
    assert Offset(h, 11) == 86;
    assert Offset(h, 12) == 88;
    assert Offset(h, 13) == 96;
    assert Offset(h, 14) == 104;
    assert Offset(h, 15) == 112;
    assert Offset(h, 16) == 116;
  }

  function Meta(m: Metadata, payload: seq<byte>): (b: seq<byte>)
    ensures |b| == 120
  {
    MetaOffsets(m, payload);
    PackLength(MetaFields(m, payload));
    PackFields(MetaFields(m, payload))
  }

  // Everything the header checksum covers.
  function Checked(hash: Hash, m: Metadata, payload: seq<byte>): (b: seq<byte>)
    ensures |b| == 188
  {
    Meta(m, payload) + hash(Meta(m, payload) + payload) + Zeros(36)
  }

  function Container(hash: Hash, m: Metadata, payload: seq<byte>): seq<byte> {
    Checked(hash, m, payload) + Little(Checksum(Checked(hash, m, payload)), 4) + payload
  }

  // ----- Decoding

  predicate HeaderChecks(c: seq<byte>)
    requires |c| >= HEADER_LEN
  {
    && Get(c, 0, 4) == MAGIC && Get(c, 4, 2) == 1 && Get(c, 6, 2) == HEADER_LEN && Get(c, 8, 4) == 0
    && Get(c, 12, 4) == |c| && Get(c, 84, 2) == 1 && Get(c, 86, 2) == 0 && Get(c, 112, 4) == |c| - HEADER_LEN
    && c[152..188] == Zeros(36) && Checksum(c[..188]) == Get(c, 188, 4)
  }

  predicate ContentChecks(hash: Hash, c: seq<byte>)
    requires |c| >= HEADER_LEN
  {
    Checksum(c[HEADER_LEN..]) == Get(c, 116, 4) && hash(c[..120] + c[HEADER_LEN..]) == c[120..152]
  }

  function MetadataAt(c: seq<byte>): Metadata
    requires |c| >= HEADER_LEN
  {
    Narrow(c);
    Metadata(Get(c, 16, 16), Get(c, 32, 16), Get(c, 48, 16), Get(c, 64, 16), Get(c, 80, 4), Get(c, 88, 8), Get(c, 96,
        8),
             Get(c, 104, 8))
  }

  lemma Narrow(c: seq<byte>)
    requires |c| >= HEADER_LEN
    ensures Get(c, 80, 4) < 0x1_0000_0000
    ensures forall o :: o in {16, 32, 48, 64} ==> Get(c, o, 16) < 0x1_0000_0000_0000_0000_0000_0000_0000_0000
    ensures forall o :: o in {88, 96, 104} ==> Get(c, o, 8) < 0x1_0000_0000_0000_0000
  {
    Widths();
    FromLittleRoundTrip(c[80..84]);
    forall o | o in {16, 32, 48, 64} ensures Get(c, o, 16) < Pow256(16) { FromLittleRoundTrip(c[o..o + 16]); }
    forall o | o in {88, 96, 104} ensures Get(c, o, 8) < Pow256(8) { FromLittleRoundTrip(c[o..o + 8]); }
  }

  function Decoded(hash: Hash, c: seq<byte>): Result<(Metadata, seq<byte>), CheckpointError> {
    if |c| < HEADER_LEN || |c| > HEADER_LEN + MAX_PAYLOAD || !HeaderChecks(c) then Err(InvalidHeader)
    else if !ContentChecks(hash, c) then Err(InvalidContent)
    else if MetadataAt(c).nextIntent == 0 then Err(InvalidNextIntent)
    else Ok((MetadataAt(c), c[HEADER_LEN..]))
  }

  // The first check that fails names the error: size and header, then content,
  // then the next intent.
  lemma DecodeErrors(hash: Hash, c: seq<byte>)
    ensures var headed := 192 <= |c| <= 192 + 8 * 1024 * 1024 && HeaderChecks(c);
      && (Decoded(hash, c) == Err(InvalidHeader) <==> !headed)
      && (Decoded(hash, c) == Err(InvalidContent) <==> headed && !ContentChecks(hash, c))
      && (Decoded(hash, c) == Err(InvalidNextIntent) <==>
            headed && ContentChecks(hash, c) && Get(c, 104, 8) == 0)
  {
    hide HeaderChecks, ContentChecks;
  }

  // ----- Decoding is the inverse of packing

  // What the fields of a container say.
  ghost predicate MetaReads(b: seq<byte>, m: Metadata, payload: seq<byte>)
    requires |b| >= 120
  {
    && Get(b, 0, 4) == MAGIC && Get(b, 4, 2) == 1 && Get(b, 6, 2) == HEADER_LEN && Get(b, 8, 4) == 0
    && Get(b, 12, 4) == HEADER_LEN + |payload| && Get(b, 16, 16) == m.registry && Get(b, 32, 16) == m.strategy
    && Get(b, 48, 16) == m.definition && Get(b, 64, 16) == m.schema && Get(b, 80, 4) == m.schemaVersion
    && Get(b, 84, 2) == 1 && Get(b, 86, 2) == 0 && Get(b, 88, 8) == m.config && Get(b, 96, 8) == m.cursor
    && Get(b, 104, 8) == m.nextIntent && Get(b, 112, 4) == |payload| && Get(b, 116, 4) == Checksum(payload)
  }

  lemma FieldsFit(m: Metadata, payload: seq<byte>)
    requires |payload| <= MAX_PAYLOAD
    ensures forall i :: 0 <= i < 17 ==> MetaFields(m, payload)[i].0 < Pow256(MetaFields(m, payload)[i].1)
  {
    Widths();
    ChecksumFits(payload);
    hide Checksum, Pow256;
  }

  lemma MetaReadsBack(m: Metadata, payload: seq<byte>)
    requires |payload| <= MAX_PAYLOAD
    ensures MetaReads(Meta(m, payload), m, payload)
  {
    MetaOffsets(m, payload);
    FieldsFit(m, payload);
    var h, fields := Meta(m, payload), MetaFields(m, payload);
    hide Get, PackFields, Offset, Checksum;
    forall k | 0 <= k < 17 ensures Reads(h, fields, k) { PackedReads(fields, k); }
    assert Reads(h, fields, 0) && Reads(h, fields, 1) && Reads(h, fields, 2) && Reads(h, fields, 3)
        && Reads(h, fields, 4);
    assert Reads(h, fields, 5) && Reads(h, fields, 6) && Reads(h, fields, 7) && Reads(h, fields, 8)
        && Reads(h, fields, 9);
    assert Reads(h, fields, 10) && Reads(h, fields, 11) && Reads(h, fields, 12) && Reads(h, fields, 13);
    assert Reads(h, fields, 14) && Reads(h, fields, 15) && Reads(h, fields, 16);
  }

  lemma MetaOf(h: seq<byte>, m: Metadata, payload: seq<byte>)
    requires |h| == 120 && MetaReads(h, m, payload)
    ensures h == Meta(m, payload)
  {
    MetaOffsets(m, payload);
    var fields := MetaFields(m, payload);
    hide Get, PackFields, Offset, Checksum;
    forall k | 0 <= k < 17 ensures Reads(h, fields, k) {}
    ReadsArePacked(h, fields);
  }

  lemma SamePrefix(c: seq<byte>, h: seq<byte>, m: Metadata, payload: seq<byte>)
    requires |c| >= 120 && h == c[..120]
    ensures MetaReads(c, m, payload) == MetaReads(h, m, payload)
  {
    hide FromLittle, Checksum;
    Same(c, h, 0, 4); Same(c, h, 4, 2); Same(c, h, 6, 2); Same(c, h, 8, 4); Same(c, h, 12, 4); Same(c, h, 16, 16);
    Same(c, h, 32, 16); Same(c, h, 48, 16); Same(c, h, 64, 16); Same(c, h, 80, 4); Same(c, h, 84, 2); Same(c, h, 86, 2);
    Same(c, h, 88, 8); Same(c, h, 96, 8); Same(c, h, 104, 8); Same(c, h, 112, 4); Same(c, h, 116, 4);
    hide Get;
  }

  lemma Same(c: seq<byte>, h: seq<byte>, offset: nat, width: nat)
    requires |c| >= 120 && h == c[..120] && offset + width <= 120
    ensures Get(c, offset, width) == Get(h, offset, width)
  {
    assert h[offset..offset + width] == c[offset..offset + width];
  }

  // A packed checkpoint decodes to what was packed.
  lemma DecodedOfContainer(hash: Hash, m: Metadata, payload: seq<byte>)
    requires |payload| <= MAX_PAYLOAD && m.nextIntent != 0
    ensures Decoded(hash, Container(hash, m, payload)) == Ok((m, payload))
  {
    MetaReadsBack(m, payload);
    var checked, c := Checked(hash, m, payload), Container(hash, m, payload);
    ChecksumFits(checked);
    Widths();
    hide Meta, Checksum, Little, FromLittle, Pow256, Get;
    assert c[..120] == Meta(m, payload) && c[120..152] == hash(Meta(m, payload) + payload) && c[152..188] == Zeros(36);
    assert c[..188] == checked && c[188..192] == Little(Checksum(checked), 4) && c[HEADER_LEN..] == payload;
    assert Get(c, 188, 4) == Checksum(checked) by {
      LittleRoundTrip(Checksum(checked), 4);
    }
    SamePrefix(c, c[..120], m, payload);
  }

  // Only packed checkpoints decode: an accepted container is, byte for byte,
  // the packing of what was decoded from it.
  lemma ContainerOfDecoded(hash: Hash, c: seq<byte>)
    requires Decoded(hash, c).Ok?
    ensures var (m, payload) := Decoded(hash, c).value;
      m.nextIntent != 0 && |payload| <= MAX_PAYLOAD && c == Container(hash, m, payload)
  {
    hide Meta, Checksum, Little, FromLittle;
    var (m, payload) := Decoded(hash, c).value;
    SamePrefix(c, c[..120], m, payload);
    MetaOf(c[..120], m, payload);
    assert c[..188] == c[..120] + c[120..152] + c[152..188];
    assert Little(Get(c, 188, 4), 4) == c[188..192] by {
      FromLittleRoundTrip(c[188..192]);
    }
    assert c == c[..188] + c[188..192] + c[HEADER_LEN..];
  }

  // Writing the four parts in the order the host writes them gives the container.
  lemma PartsFill(hash: Hash, m: Metadata, payload: seq<byte>, zeros: seq<byte>)
    requires zeros == Zeros(HEADER_LEN + |payload|)
    ensures var meta := Meta(m, payload);
      var withMeta := Spliced(Spliced(zeros, HEADER_LEN, payload), 0, meta);
      var checked := Spliced(withMeta, 120, hash(meta + payload));
      && withMeta[..120] == meta && checked[..188] == Checked(hash, m, payload)
      && Spliced(checked, 188, Little(Checksum(checked[..188]), 4)) == Container(hash, m, payload)
  {
    var meta, n := Meta(m, payload), HEADER_LEN + |payload|;
    var first := Spliced(zeros, HEADER_LEN, payload);
    var second := Spliced(first, 0, meta);
    var digest := hash(meta + payload);
    var third := Spliced(second, 120, digest);
    assert |first| == n && |second| == n && |third| == n;
    SplicedKeeps(zeros, HEADER_LEN, payload, 152, 188);
    SplicedKeeps(first, 0, meta, 152, 188);
    SplicedKeeps(second, 120, digest, 152, 188);
    SplicedKeeps(first, 0, meta, HEADER_LEN, n);
    SplicedKeeps(second, 120, digest, HEADER_LEN, n);
    SplicedKeeps(second, 120, digest, 0, 120);
    assert zeros[152..188] == Zeros(36);
    assert first[HEADER_LEN..n] == payload;
    assert third[..188] == third[0..120] + third[120..152] + third[152..188];
    assert third[..188] == Checked(hash, m, payload);
    var crc := Little(Checksum(third[..188]), 4);
    var fourth := Spliced(third, 188, crc);
    SplicedKeeps(third, 188, crc, 0, 188);
    SplicedKeeps(third, 188, crc, HEADER_LEN, n);
    assert fourth == fourth[0..188] + fourth[188..192] + fourth[192..n];
    assert fourth == Container(hash, m, payload);
  }

  // Packs the container in place and publishes it only if it decodes.
  method EncodeCheckpoint(hash: Hash, m: Metadata, payload: seq<byte>) returns (r: Result<seq<byte>, CheckpointError>)
    requires HEADER_LEN + |payload| < 0x1_0000_0000
    ensures r.Ok? <==> |payload| <= MAX_PAYLOAD && m.nextIntent != 0
    ensures r.Ok? ==> r.value == Container(hash, m, payload) && Decoded(hash, r.value) == Ok((m, payload))
  {
    hide Meta, Checksum, Little, HeaderChecks, ContentChecks, MetadataAt, Spliced, Container, Checked, Decoded;
    var meta, n := Meta(m, payload), |payload|;
    var container := new byte[HEADER_LEN + n](_ => 0);
    ghost var zeros := container[..];
    assert zeros == Zeros(HEADER_LEN + n);
    PartsFill(hash, m, payload, zeros);
    Put(container, HEADER_LEN, payload);
    Put(container, 0, meta);
    Put(container, 120, hash(container[..120] + payload));
    var crc := Compute(container[..188]);
    Put(container, 188, Little(crc, 4));
    assert container[..] == Container(hash, m, payload);
    if n <= MAX_PAYLOAD && m.nextIntent != 0 { DecodedOfContainer(hash, m, payload); }
    var decoded := Decoded(hash, container[..]);
    if decoded.Err? { return Err(decoded.error); }
    PackedOnce(hash, m, payload);
    return Ok(container[..]);
  }

  // A container that decodes at all decodes to what was packed.
  lemma PackedOnce(hash: Hash, m: Metadata, payload: seq<byte>)
    requires Decoded(hash, Container(hash, m, payload)).Ok?
    ensures |payload| <= MAX_PAYLOAD && m.nextIntent != 0
  {
    var c := Container(hash, m, payload);
    hide Meta, Checksum, Little, FromLittle, Get, HeaderChecks, ContentChecks;
    assert c[..120] == Meta(m, payload) && |c| == HEADER_LEN + |payload|;
    MetaReadsBack(m, payload);
    SamePrefix(c, c[..120], m, payload);
  }
}
