// What publishing and lookups refuse, and in which order.
module HistoryRefusals {
  import opened Bytes
  import opened Wrappers
  import opened HistoryKeys
  import opened HistoryDigests
  import opened HistoryProof
  import opened HistoryChain
  import opened HistoryVerdicts
  import opened HistoryStore
  import opened HistoryQuery
  import opened HistoryPublish

  // ----- Batches

  ghost predicate BadRecord(r: Record) {
    |r.bytes| == 0 || |r.bytes| > 16 * 1024 || r.payloadDigest != RecordHash(r.bytes)
  }

  ghost predicate BadEntry(b: Publication, e: Entry) {
    e.key.origin != b.origin || e.recordIndex >= |b.records| || EncodeKey(e.key).Err?
  }

  // A batch names an origin, a barrier behind the floor and an epoch, and brings
  // 1 to 256 entries and at most 256 records.
  ghost predicate Presentable(b: Publication) {
    && ValidOrigin(b.origin) && b.barrier > 0 && b.epoch > 0 && b.floor <= b.barrier
    && 1 <= |b.entries| <= 256 && |b.records| <= 256
  }

  // It takes nothing of the previous root back.
  ghost predicate Follows(b: Publication, prior: Root) {
    && prior.origin == b.origin && prior.barrier <= b.barrier && prior.epoch <= b.epoch && prior.floor <= b.floor
    && (prior.retired ==> b.retired)
  }

  lemma RefusalIsExact(b: Publication)
    ensures Refusal(b)
            == if !Presentable(b) then Some(InvalidHistoryBatch)
               else if exists r :: r in b.records && BadRecord(r) then Some(InvalidHistoryRecord)
               else if exists e :: e in b.entries && BadEntry(b, e) then Some(InvalidHistoryKey)
               else if b.previousRoot.None? then None
               else if !ValidRoot(b.previousRoot.value) then Some(InvalidHistoryRoot)
               else if !Follows(b, b.previousRoot.value) then Some(InvalidHistoryBatch)
               else None
  {
    hide EncodeKey, ValidOrigin, ValidRoot;
    assert forall r :: SoundRecord(r) <==> !BadRecord(r);
    assert forall e :: SoundEntry(b, e) <==> !BadEntry(b, e);
    BatchDigestErrors(b);
  }

  lemma BatchDigestErrors(b: Publication)
    ensures BatchDigest(b).Err? ==>
              BatchDigest(b).error
              == if exists r :: r in b.records && BadRecord(r) then InvalidHistoryRecord else InvalidHistoryKey
    ensures BatchDigest(b).Err? <==>
            (exists r :: r in b.records && BadRecord(r)) || exists e :: e in b.entries && BadEntry(b, e)
  {
    hide EncodeKey;
    if i :| 0 <= i < |b.records| && !SoundRecord(b.records[i]) { assert b.records[i] in b.records; }
    if i :| 0 <= i < |b.entries| && !SoundEntry(b, b.entries[i]) { assert b.entries[i] in b.entries; }
    if r :| r in b.records && BadRecord(r) {
      var i :| 0 <= i < |b.records| && b.records[i] == r;
      assert !SoundRecord(b.records[i]);
    }
    if e :| e in b.entries && BadEntry(b, e) {
      var i :| 0 <= i < |b.entries| && b.entries[i] == e;
      assert !SoundEntry(b, b.entries[i]);
    }
  }

  // ----- Receipts

  // The check accepts a receipt for a batch that continues the previous root
  // and has the batch's digest and its own metadata.
  lemma ContinuesIsExact(r: Receipt, b: Publication)
    ensures Continues(r, b) <==>
            && Continuing(r, b.origin, b.qualificationDigest, b.previousRoot) && BatchDigest(b) == Ok(r.batchDigest)
            && r.root.barrier == b.barrier && r.root.epoch == b.epoch && r.root.floor == b.floor
            && r.root.retired == b.retired
  {
    hide Continuing, VerifyReceipt, BatchDigest;
    ReceiptIsExact(r, b.origin, b.qualificationDigest, b.previousRoot);
  }

  // Why a receipt is refused.
  lemma ReceiptErrors(r: Receipt, origin: Origin, qualification: Digest, previous: Option<Root>)
    ensures VerifyReceipt(r, origin, qualification, previous) == Err(InvalidHistoryRoot) <==>
            || !ValidRoot(r.root)
            || (previous.Some? && !ValidRoot(previous.value) && Addresses(r, origin, qualification, previous))
    ensures VerifyReceipt(r, origin, qualification, previous) == Err(Overflow) <==>
            && ValidRoot(r.root) && Addresses(r, origin, qualification, previous)
            && previous.Some? && ValidRoot(previous.value) && previous.value.origin == origin
            && previous.value.generation == 0xFFFF_FFFF_FFFF_FFFF
    ensures VerifyReceipt(r, origin, qualification, previous).Err? ==>
              VerifyReceipt(r, origin, qualification, previous).error
              in {InvalidHistoryRoot, InvalidHistoryReceipt, Overflow}
  {
    hide ValidRoot;
  }

  ghost predicate Addresses(r: Receipt, origin: Origin, qualification: Digest, previous: Option<Root>) {
    var before := if previous.Some? then previous.value.rootDigest else Zero;
    && r.root.origin == origin && r.previousRoot == before && r.root.previousRoot == before
    && r.qualificationDigest == qualification && r.root.qualificationDigest == qualification
    && r.batchDigest == r.root.batchDigest
  }

  // ----- Lookups

  // A record is the one proven exactly when its lower witness is the key's, and
  // length and digest are the item's.
  lemma RecordIsExact(result: LookupResult)
    ensures var key, lower := EncodeKey(result.proof.request.key), result.proof.lower;
      && (ValidateRecord(result).Ok? <==>
            && lower.Some? && key.Ok? && lower.value.item.upper == key.value
            && |result.record| == lower.value.item.length <= 16 * 1024
            && RecordHash(result.record) == lower.value.item.digest)
      && (ValidateRecord(result) == Err(HistoryRecordAbsent) <==> lower.None?)
      && (ValidateRecord(result) == Err(InvalidHistoryKey) <==> lower.Some? && key.Err?)
  {
    hide EncodeKey;
    if result.proof.lower.Some? && EncodeKey(result.proof.request.key).Ok? {
      KeysAreOrdered(result.proof.lower.value.item.upper, EncodeKey(result.proof.request.key).value);
    }
  }

  // A lookup is for this root as it is: another origin, digest, epoch or barrier
  // is stale.
  lemma StaleIsExact(request: Request, root: Root)
    ensures Addressed(request, root) <==>
            request.key.origin == root.origin && request.rootDigest == root.rootDigest
            && request.epoch == root.epoch && request.barrier == root.barrier
  {
  }

  // A record is read exactly when it lies at its offset with its length, at most
  // 16 KiB, and its digest.
  lemma RecordReads(log: seq<Object>, x: Item, bytes: seq<byte>)
    ensures ReadRecord(log, x) == Ok(bytes) <==>
            x.offset < |log| && log[x.offset] == RecordObject(bytes) && |bytes| == x.length <= 16 * 1024
            && RecordHash(bytes) == x.digest
    ensures ReadRecord(log, x).Err? ==> ReadRecord(log, x).error == InvalidHistoryRecord
  {
  }
}
