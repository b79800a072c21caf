// The batch an order's builder hands to the history: when publishing takes it,
// and what the directory then says about the archived order.
module OrderBatch {
  import opened Bytes
  import opened Wrappers
  import opened HistoryKeys
  import opened HistoryDigests
  import opened HistoryProof
  import opened HistoryPublish
  import OrderArchive

  function KeyOf(origin: Origin, identity: Identity): HistoryKey { HistoryKey(origin, None, identity) }

  function RecordsOf(b: OrderArchive.Built): seq<Record> {
    seq(|b.records|, i requires 0 <= i < |b.records| => Record(b.records[i], RecordHash(b.records[i])))
  }

  function EntriesOf(b: OrderArchive.Built, origin: Origin): seq<Entry> {
    seq(|b.entries|, i requires 0 <= i < |b.entries| =>
        Entry(KeyOf(origin, b.entries[i].identity), b.entries[i].record))
  }

  function FloorOf(previous: Option<Root>): u64 { if previous.Some? then previous.value.floor else 0 }

  // The batch that continues the previous root, or the reason there is none.
  function View(b: OrderArchive.Built, origin: Origin, qualification: Digest, previous: Option<Root>, barrier: u64,
                epoch: u64): Result<Publication, HistoryError>
  {
    if barrier == 0 || epoch == 0 then Err(InvalidHistoryBatch)
    else if previous.Some? && !ValidRoot(previous.value) then Err(InvalidHistoryRoot)
    else if previous.Some? && (previous.value.origin != origin || barrier < previous.value.barrier
                               || epoch < previous.value.epoch || previous.value.retired) then
      Err(StaleHistoryRoot)
    else
      Ok(Publication(origin, previous, barrier, epoch, FloorOf(previous), false, qualification, RecordsOf(b),
          EntriesOf(b, origin)))
  }

  // A view needs a barrier and an epoch, and continues a valid, unretired root of
  // the origin that is not ahead of them. It then lists every body with its
  // digest and every entry under its key, and keeps the floor.
  lemma ViewDecides(b: OrderArchive.Built, origin: Origin, qualification: Digest, previous: Option<Root>, barrier: u64,
                    epoch: u64)
    ensures var r := View(b, origin, qualification, previous, barrier, epoch);
      var dated := barrier > 0 && epoch > 0;
      var rooted := previous.Some? ==> ValidRoot(previous.value);
      var current := previous.Some? ==>
            previous.value.origin == origin && previous.value.barrier <= barrier && previous.value.epoch <= epoch
            && !previous.value.retired;
      && (r == Err(InvalidHistoryBatch) <==> !dated)
      && (r == Err(InvalidHistoryRoot) <==> dated && !rooted)
      && (r == Err(StaleHistoryRoot) <==> dated && rooted && !current)
      && (r.Ok? <==> dated && rooted && current)
      && (r.Ok? ==>
            var p := r.value;
            && p.origin == origin && p.previousRoot == previous && p.barrier == barrier && p.epoch == epoch
            && !p.retired && p.qualificationDigest == qualification
            && p.floor == (if previous.Some? then previous.value.floor else 0)
            && |p.records| == |b.records| && |p.entries| == |b.entries|
            && (forall i :: 0 <= i < |b.records| ==>
                  p.records[i].bytes == b.records[i] && p.records[i].payloadDigest == RecordHash(b.records[i]))
            && forall i :: 0 <= i < |b.entries| ==>
                 p.entries[i].key == HistoryKey(origin, None, b.entries[i].identity)
                 && p.entries[i].recordIndex == b.entries[i].record)
  {
    hide ValidRoot;
  }

  method Batch(builder: OrderArchive.Builder, origin: Origin, qualification: Digest, previous: Option<Root>,
               barrier: u64, epoch: u64) returns (r: Result<Publication, HistoryError>)
    requires builder.Valid()
    ensures r == View(builder.View(), origin, qualification, previous, barrier, epoch)
  {
    hide ValidRoot, OrderArchive.Builder.Valid;
    ghost var view := builder.View();
    if barrier == 0 || epoch == 0 { return Err(InvalidHistoryBatch); }
    if previous.Some? {
      var known := previous.value;
      if !ValidRoot(known) { return Err(InvalidHistoryRoot); }
      if known.origin != origin || barrier < known.barrier || epoch < known.epoch || known.retired {
        return Err(StaleHistoryRoot);
      }
    }
    var records: seq<Record> := [];
    for i := 0 to builder.RecordCount()
      invariant |records| == i && forall k :: 0 <= k < i ==> records[k] == RecordsOf(view)[k]
    {
      var body, payload := builder.RecordBody(i);
      records := records + [Record(body, payload)];
    }
    assert records == RecordsOf(view);
    var entries: seq<Entry> := [];
    for i := 0 to builder.EntryCount()
      invariant |entries| == i && forall k :: 0 <= k < i ==> entries[k] == EntriesOf(view, origin)[k]
    {
      var e := builder.EntryAt(i);
      entries := entries + [Entry(KeyOf(origin, e.identity), e.record)];
    }
    assert entries == EntriesOf(view, origin);
    return Ok(Publication(origin, previous, barrier, epoch, FloorOf(previous), false, qualification, records, entries));
  }

  // ----- What publishing makes of it

  predicate Encodable(b: OrderArchive.Built, origin: Origin) {
    forall i :: 0 <= i < |b.entries| ==> EncodeKey(KeyOf(origin, b.entries[i].identity)).Ok?
  }

  predicate NoEmptyRecord(b: OrderArchive.Built) { forall i :: 0 <= i < |b.records| ==> b.records[i] != [] }

  // Publishing takes a built batch exactly when it has entries, all of them
  // encodable and none with an empty body, and the barrier reaches the floor.
  lemma BuiltIsAccepted(b: OrderArchive.Built, origin: Origin, qualification: Digest, previous: Option<Root>,
                        barrier: u64, epoch: u64)
    requires OrderArchive.Sound(b) && View(b, origin, qualification, previous, barrier, epoch).Ok?
    ensures var p := View(b, origin, qualification, previous, barrier, epoch).value;
      && (Refusal(p).None? <==> ValidOrigin(origin) && b.entries != [] && Encodable(b, origin) && NoEmptyRecord(b)
                                && FloorOf(previous) <= barrier)
      && (Refusal(p).None? ==> SoundBatch(p) && !Repeats(p))
  {
    hide EncodeKey, ValidOrigin, ValidRoot, OrderArchive.Size;
    var p := View(b, origin, qualification, previous, barrier, epoch).value;
    assert forall i :: 0 <= i < |b.records| ==>
        p.records[i].bytes == b.records[i] && (SoundRecord(p.records[i]) <==> b.records[i] != []);
    assert forall i :: 0 <= i < |b.entries| ==>
        (SoundEntry(p, p.entries[i]) <==> EncodeKey(KeyOf(origin, b.entries[i].identity)).Ok?);
    if Refusal(p).None? { NoRepeats(b, p); }
  }

  lemma NoRepeats(b: OrderArchive.Built, p: Publication)
    requires OrderArchive.Sound(b) && SoundBatch(p) && p.entries == EntriesOf(b, p.origin)
    ensures !Repeats(p)
  {
    hide EncodeKey, OrderArchive.Size;
    forall i, j | 0 <= i < j < |p.entries| ensures EntryKey(p, i) != EntryKey(p, j) {
      assert SoundEntry(p, p.entries[i]) && SoundEntry(p, p.entries[j]);
      if EntryKey(p, i) == EntryKey(p, j) { EncodingIsInjective(p.entries[i].key, p.entries[j].key); }
    }
  }

  // Once published, every identity the builder bound is bound to its body's
  // digest, and no other key was added.
  lemma ArchivedIsBound(b: OrderArchive.Built, p: Publication, before: map<Key, Digest>, after: map<Key, Digest>,
                        identity: Identity)
    requires OrderArchive.Sound(b) && SoundBatch(p)
    requires p.entries == EntriesOf(b, p.origin) && p.records == RecordsOf(b) && Extended(before, after, p)
    ensures var key, body := EncodeKey(KeyOf(p.origin, identity)), OrderArchive.Lookup(b, identity);
      && (body.Some? ==> key.Ok? && key.value in after && after[key.value] == RecordHash(body.value))
      && (body.None? && key.Ok? ==> (key.value in after <==> key.value in before))
  {
    hide EncodeKey, OrderArchive.Size;
    var e := OrderArchive.EntryOf(b.entries, identity);
    if e < |b.entries| {
      assert SoundEntry(p, p.entries[e]);
      assert p.entries[e] == Entry(KeyOf(p.origin, identity), b.entries[e].record);
      assert EntryKey(p, e) in after;
    } else if EncodeKey(KeyOf(p.origin, identity)).Ok? {
      forall i | 0 <= i < |p.entries| ensures EntryKey(p, i) != EncodeKey(KeyOf(p.origin, identity)).value {
        assert SoundEntry(p, p.entries[i]);
        if EntryKey(p, i) == EncodeKey(KeyOf(p.origin, identity)).value {
          EncodingIsInjective(p.entries[i].key, KeyOf(p.origin, identity));
        }
      }
    }
  }
}
