// The stable segment journal: a bounded byte log with append, seal and
// rollback, and a reader that survives a torn tail. The checksum is a
// parameter: nothing below depends on which one is used.
module Journal {
  import opened Bytes
  import opened Wrappers

  const SEGMENT_MAGIC: u32 := 0x474c5351
  const RECORD_MAGIC: u32 := 0x544e5651
  const FOOTER_MAGIC: u32 := 0x444e4551
  const SEGMENT_HEADER_LEN: nat := 64
  const RECORD_HEADER_LEN: nat := 72
  const FOOTER_LEN: nat := 32
  const MAX_PAYLOAD_LEN: nat := 16 * 1024 - RECORD_HEADER_LEN
  const STORAGE_LEN: nat := 192 * 1024

  type Checksum = seq<byte> -> u32

  datatype Record = Record(
    typeId: u16, schemaVersion: u16, flags: u32, sequence: u64, sourceTime: u64, receiveTime: u64,
    monotonicTime: u64, wallTime: u64, timePresence: byte, payload: seq<byte>)

  // SequenceOverflow stands for the addition that leaves 64 bits.
  datatype AppendError = JournalSealed | PayloadTooLarge | SequenceOverflow | SequenceGap | JournalFull
  datatype ReadError =
    | TruncatedSegmentHeader | InvalidSegmentHeader | InvalidFirstSequence | ReaderFinished | InvalidFooter
    | InvalidRecordMagic | InvalidRecordLength | InvalidHeaderChecksum | ReadSequenceGap | InvalidPayloadChecksum
  datatype ScanStatus = Clean | TruncatedTail
  datatype Next = Item(record: Record) | End(status: ScanStatus)

  // ----- Wire format

  function SegmentHeaderBody(first: u64): (b: seq<byte>)
    ensures |b| == 60
  {
    Little(SEGMENT_MAGIC, 4) + Little(2, 2) + Little(SEGMENT_HEADER_LEN, 2) + Little(1, 8) + Zeros(8) +
    Little(first, 8) + Zeros(28)
  }

  function SegmentHeader(crc: Checksum, first: u64): (b: seq<byte>)
    ensures |b| == SEGMENT_HEADER_LEN
  {
    SegmentHeaderBody(first) + Little(crc(SegmentHeaderBody(first)), 4)
  }

  function RecordHeaderFront(r: Record): (b: seq<byte>)
    ensures |b| == 32
  {
    Little(RECORD_MAGIC, 4) + Little(RECORD_HEADER_LEN + |r.payload|, 4) + Little(r.typeId, 2) +
    Little(r.schemaVersion, 2) + Little(r.flags, 4) + Little(r.sequence, 8) + Little(r.sourceTime, 8)
  }

  function RecordHeaderBack(crc: Checksum, r: Record): (b: seq<byte>)
    ensures |b| == 36
  {
    Little(r.receiveTime, 8) + Little(r.monotonicTime, 8) + Little(r.wallTime, 8) + [r.timePresence] + Zeros(7) +
    Little(crc(r.payload), 4)
  }

  function RecordHeaderBody(crc: Checksum, r: Record): (b: seq<byte>)
    ensures |b| == 68
  {
    RecordHeaderFront(r) + RecordHeaderBack(crc, r)
  }

  function Encode(crc: Checksum, r: Record): (b: seq<byte>)
    ensures |b| == RECORD_HEADER_LEN + |r.payload|
  {
    RecordHeaderBody(crc, r) + Little(crc(RecordHeaderBody(crc, r)), 4) + r.payload
  }

  function FooterBody(records: nat, last: nat): (b: seq<byte>)
    ensures |b| == 28
  {
    Little(FOOTER_MAGIC, 4) + Little(FOOTER_LEN, 4) + Little(records, 8) + Little(last, 8) + Zeros(4)
  }

  function Footer(crc: Checksum, records: nat, last: nat): (b: seq<byte>)
    ensures |b| == FOOTER_LEN
  {
    FooterBody(records, last) + Little(crc(FooterBody(records, last)), 4)
  }

  // ----- The journal as a value

  datatype State = State(storage: seq<byte>, len: nat, records: nat, lastSequence: nat, sealed: bool)
  datatype Checkpoint = Checkpoint(len: nat, records: nat, lastSequence: nat, sealed: bool)

  ghost predicate ValidState(s: State) {
    && |s.storage| == STORAGE_LEN
    && SEGMENT_HEADER_LEN <= s.len <= STORAGE_LEN
    && (!s.sealed ==> s.len + FOOTER_LEN <= STORAGE_LEN)
  }

  function Splice(storage: seq<byte>, at: nat, bytes: seq<byte>): seq<byte>
    requires at + |bytes| <= |storage|
  {
    storage[..at] + bytes + storage[at + |bytes|..]
  }

  function Appended(crc: Checksum, s: State, r: Record): Result<State, AppendError>
    requires ValidState(s)
  {
    if s.sealed then Err(JournalSealed)
    else if |r.payload| > MAX_PAYLOAD_LEN then Err(PayloadTooLarge)
    else if s.lastSequence >= 0xFFFF_FFFF_FFFF_FFFF then Err(SequenceOverflow)
    else if r.sequence != s.lastSequence + 1 then Err(SequenceGap)
    else if STORAGE_LEN - s.len < RECORD_HEADER_LEN + |r.payload| + FOOTER_LEN then Err(JournalFull)
    else
      Ok(State(Splice(s.storage, s.len, Encode(crc, r)), s.len + |Encode(crc, r)|, s.records + 1, r.sequence, false))
  }

  function Sealed(crc: Checksum, s: State): Result<State, AppendError>
    requires ValidState(s)
  {
    if s.sealed then Err(JournalSealed)
    else if STORAGE_LEN - s.len < FOOTER_LEN then Err(JournalFull)
    else
      Ok(s.(storage := Splice(s.storage, s.len, Footer(crc, s.records, s.lastSequence)), len := s.len + FOOTER_LEN,
            sealed := true))
  }

  function Saved(s: State): Checkpoint {
    Checkpoint(s.len, s.records, s.lastSequence, s.sealed)
  }

  function Restored(s: State, c: Checkpoint): State {
    s.(len := c.len, records := c.records, lastSequence := c.lastSequence, sealed := c.sealed)
  }

  // ----- Rollback

  datatype Operation = DoAppend(record: Record) | DoSeal

  // A refused operation leaves the journal alone.
  function Performed(crc: Checksum, s: State, op: Operation): State
    requires ValidState(s)
  {
    var r := if op.DoSeal? then Sealed(crc, s) else Appended(crc, s, op.record);
    if r.Ok? then r.value else s
  }

  function PerformedAll(crc: Checksum, s: State, ops: seq<Operation>): (t: State)
    requires ValidState(s)
    ensures ValidState(t)
    decreases |ops|
  {
    if ops == [] then s
    else
      PerformKeepsBytes(crc, s, ops[0]);
      PerformedAll(crc, Performed(crc, s, ops[0]), ops[1..])
  }

  lemma PerformKeepsBytes(crc: Checksum, s: State, op: Operation)
    requires ValidState(s)
    ensures var t := Performed(crc, s, op);
      ValidState(t) && s.len <= t.len && t.storage[..s.len] == s.storage[..s.len]
  {
    hide Encode, Footer;
  }

  // Two journals no caller can tell apart: equal fields and equal written bytes.
  ghost predicate Indistinguishable(s: State, t: State) {
    ValidState(s) && ValidState(t) && Saved(s) == Saved(t) && s.storage[..s.len] == t.storage[..t.len]
  }

  lemma {:induction false} PerformAllKeepsBytes(crc: Checksum, s: State, ops: seq<Operation>)
    requires ValidState(s)
    ensures var t := PerformedAll(crc, s, ops); s.len <= t.len && t.storage[..s.len] == s.storage[..s.len]
    decreases |ops|
  {
    if ops != [] {
      hide Performed;
      PerformKeepsBytes(crc, s, ops[0]);
      var m := Performed(crc, s, ops[0]);
      PerformAllKeepsBytes(crc, m, ops[1..]);
      var t := PerformedAll(crc, s, ops);
      assert t.storage[..s.len] == t.storage[..m.len][..s.len];
      assert m.storage[..s.len] == m.storage[..m.len][..s.len];
    }
  }

  // Restoring a checkpoint undoes every later append and seal byte for byte.
  lemma RestoreUndoes(crc: Checksum, s: State, ops: seq<Operation>)
    requires ValidState(s)
    ensures Indistinguishable(Restored(PerformedAll(crc, s, ops), Saved(s)), s)
  {
    PerformAllKeepsBytes(crc, s, ops);
  }

  // What follows a restore goes exactly as it would have gone before.
  lemma IndistinguishableStays(crc: Checksum, s: State, t: State, op: Operation)
    requires Indistinguishable(s, t)
    ensures Indistinguishable(Performed(crc, s, op), Performed(crc, t, op))
    ensures op.DoAppend? ==> Appended(crc, s, op.record).Ok? == Appended(crc, t, op.record).Ok?
    ensures op.DoSeal? ==> Sealed(crc, s).Ok? == Sealed(crc, t).Ok? == !s.sealed
  {
    hide Encode, Footer;
    PerformKeepsBytes(crc, s, op);
    PerformKeepsBytes(crc, t, op);
    var a, b := Performed(crc, s, op), Performed(crc, t, op);
    if (if op.DoSeal? then Sealed(crc, s).Ok? else Appended(crc, s, op.record).Ok?) {
      var added := if op.DoSeal? then Footer(crc, s.records, s.lastSequence) else Encode(crc, op.record);
      assert a.storage[..a.len] == s.storage[..s.len] + added;
      assert b.storage[..b.len] == t.storage[..t.len] + added;
    } else {
      assert a == s && b == t;
    }
  }

  // ----- The journal in place

  class Journal {
    const crc: Checksum
    const storage: array<byte>
    var len: nat
    var records: nat
    var lastSequence: nat
    var sealed: bool

    ghost predicate Valid()
      reads this, storage
    {
      ValidState(View())
    }

    ghost function View(): State
      reads this, storage
    {
      State(storage[..], len, records, lastSequence, sealed)
    }

    constructor InitAt(crc: Checksum, firstSequence: u64)
      requires firstSequence != 0
      ensures Valid() && fresh(storage) && this.crc == crc
      ensures storage[..len] == SegmentHeader(crc, firstSequence)
      ensures records == 0 && lastSequence == firstSequence - 1 && !sealed
    {
      this.crc := crc;
      storage := new byte[STORAGE_LEN];
      len, records, lastSequence, sealed := SEGMENT_HEADER_LEN, 0, firstSequence - 1, false;
      new;
      Write(0, SegmentHeader(crc, firstSequence));
    }

    // Copies bytes into the storage, touching nothing else.
    method Write(at: nat, bytes: seq<byte>)
      requires storage.Length == STORAGE_LEN && at + |bytes| <= STORAGE_LEN
      modifies storage
      ensures storage[..] == Splice(old(storage[..]), at, bytes)
    {
      for i := 0 to |bytes|
        invariant storage[..at] == old(storage[..at])
        invariant storage[at..at + i] == bytes[..i]
        invariant storage[at + i..] == old(storage[at + i..])
      {
        storage[at + i] := bytes[i];
      }
      assert storage[..] == storage[..at] + storage[at..at + |bytes|] + storage[at + |bytes|..];
    }

    method Append(record: Record) returns (r: Result<(), AppendError>)
      requires Valid()
      modifies this, storage
      ensures Valid()
      ensures r.Ok? <==> Appended(crc, old(View()), record).Ok?
      ensures r.Ok? ==> View() == Appended(crc, old(View()), record).value
      ensures r.Err? ==> View() == old(View()) && r.error == Appended(crc, old(View()), record).error
    {
      if sealed { return Err(JournalSealed); }
      if |record.payload| > MAX_PAYLOAD_LEN { return Err(PayloadTooLarge); }
      if lastSequence >= 0xFFFF_FFFF_FFFF_FFFF { return Err(SequenceOverflow); }
      if record.sequence != lastSequence + 1 { return Err(SequenceGap); }
      var recordLen := RECORD_HEADER_LEN + |record.payload|;
      if STORAGE_LEN - len < recordLen + FOOTER_LEN { return Err(JournalFull); }
      Write(len, Encode(crc, record));
      len := len + recordLen;
      records := records + 1;
      lastSequence := record.sequence;
      return Ok(());
    }

    // An unsealed journal always has room for its footer.
    method Seal() returns (r: Result<(), AppendError>)
      requires Valid()
      modifies this, storage
      ensures Valid()
      ensures r == (if old(sealed) then Err(JournalSealed) else Ok(()))
      ensures r.Ok? ==> Sealed(crc, old(View())) == Ok(View())
      ensures r.Err? ==> View() == old(View())
    {
      if sealed { return Err(JournalSealed); }
      if STORAGE_LEN - len < FOOTER_LEN { return Err(JournalFull); }
      Write(len, Footer(crc, records, lastSequence));
      len := len + FOOTER_LEN;
      sealed := true;
      return Ok(());
    }

    method Save() returns (c: Checkpoint)
      ensures c == Saved(View())
    {
      c := Checkpoint(len, records, lastSequence, sealed);
    }

    method Restore(saved: Checkpoint)
      modifies this
      ensures View() == Restored(old(View()), saved)
    {
      len, records, lastSequence, sealed := saved.len, saved.records, saved.lastSequence, saved.sealed;
    }
  }
}
