// Publishing a batch: the next root of the order-history directory.
module HistoryPublish {
  import opened Bytes
  import opened Wrappers
  import opened HistoryKeys
  import opened HistoryDigests
  import opened HistoryTree
  import opened HistoryProof
  import opened HistoryChain
  import opened HistoryStore
  import opened HistoryQuery
  import opened HistorySort
  import opened HistoryMerge
  import opened HistoryPack
  import opened HistoryPages
  import opened HistoryMergeNode

  datatype Record = Record(bytes: seq<byte>, payloadDigest: Digest)
  datatype Entry = Entry(key: HistoryKey, recordIndex: nat)
  datatype Publication = Publication(
    origin: Origin, previousRoot: Option<Root>, barrier: u64, epoch: u64, floor: u64, retired: bool,
    qualificationDigest: Digest, records: seq<Record>, entries: seq<Entry>)

  // ----- What a batch must satisfy

  predicate SoundRecord(r: Record) {
    0 < |r.bytes| <= MAX_RECORD_BYTES && r.payloadDigest == RecordHash(r.bytes)
  }

  predicate SoundEntry(b: Publication, e: Entry) {
    e.key.origin == b.origin && e.recordIndex < |b.records| && EncodeKey(e.key).Ok?
  }

  predicate SoundBatch(b: Publication) {
    && (forall i :: 0 <= i < |b.records| ==> SoundRecord(b.records[i]))
    && (forall i :: 0 <= i < |b.entries| ==> SoundEntry(b, b.entries[i]))
  }

  function EntryKey(b: Publication, i: nat): Key
    requires SoundBatch(b) && i < |b.entries|
  {
    assert SoundEntry(b, b.entries[i]);
    EncodeKey(b.entries[i].key).value
  }

  function EntryDigest(b: Publication, i: nat): Digest
    requires SoundBatch(b) && i < |b.entries|
  {
    assert SoundEntry(b, b.entries[i]);
    b.records[b.entries[i].recordIndex].payloadDigest
  }

  function BatchDigest(b: Publication): Result<Digest, HistoryError> {
    if exists i :: 0 <= i < |b.records| && !SoundRecord(b.records[i]) then Err(InvalidHistoryRecord)
    else if exists i :: 0 <= i < |b.entries| && !SoundEntry(b, b.entries[i]) then Err(InvalidHistoryKey)
    else
      Ok(BatchHash(b.origin, DigestBefore(b.previousRoot), b.barrier, b.epoch, b.floor, b.retired,
          b.qualificationDigest,
                   seq(|b.records|, i requires 0 <= i < |b.records| => (|b.records[i].bytes|,
                       b.records[i].payloadDigest)),
                   seq(|b.entries|, i requires 0 <= i < |b.entries| && SoundBatch(b) =>
                       (EntryKey(b, i), b.entries[i].recordIndex))))
  }

  // The checks made before anything is written.
  function Refusal(b: Publication): (r: Option<HistoryError>)
    ensures r != Some(StoreFailed)
  {
    if !ValidOrigin(b.origin) || b.barrier == 0 || b.epoch == 0 || |b.entries| == 0 || |b.entries| > MAX_BATCH_KEYS
       || |b.records| > MAX_BATCH_KEYS || b.floor > b.barrier then Some(InvalidHistoryBatch)
    else if BatchDigest(b).Err? then Some(BatchDigest(b).error)
    else
      match b.previousRoot
      case None => None
      case Some(prior) =>
        if !ValidRoot(prior) then Some(InvalidHistoryRoot)
        else if prior.origin != b.origin || b.barrier < prior.barrier || b.epoch < prior.epoch || b.floor < prior.floor
                || (prior.retired && !b.retired) then Some(InvalidHistoryBatch)
        else None
  }

  // Within its origin a batch digest pins the batch: metadata, records and keys.
  lemma BatchDigestPins(a: Publication, b: Publication)
    requires BatchDigest(a).Ok? && BatchDigest(a) == BatchDigest(b)
    requires a.previousRoot.Some? ==> ValidRoot(a.previousRoot.value)
    requires b.previousRoot.Some? ==> ValidRoot(b.previousRoot.value)
    ensures a == b
  {
    hide EncodeKey;
    assert SoundBatch(a) && SoundBatch(b);
    assert a.previousRoot == b.previousRoot;
    var x, y := BatchDigest(a).value, BatchDigest(b).value;
    assert x.records == y.records && x.entries == y.entries;
    assert |a.records| == |b.records| && |a.entries| == |b.entries|;
    forall i | 0 <= i < |a.records|
      ensures a.records[i] == b.records[i]
    {
      assert x.records[i] == y.records[i];
      assert SoundRecord(a.records[i]) && SoundRecord(b.records[i]);
    }
    forall i | 0 <= i < |a.entries|
      ensures a.entries[i] == b.entries[i]
    {
      assert x.entries[i] == y.entries[i];
      assert SoundEntry(a, a.entries[i]) && SoundEntry(b, b.entries[i]);
      EncodingIsInjective(a.entries[i].key, b.entries[i].key);
    }
    assert a.records == b.records && a.entries == b.entries;
  }

  // ----- What publishing achieves

  const EMPTY_TREE: Tree := Tree(0, [], [])

  // The store holds the previous root's tree; without one the tree is empty.
  ghost predicate Starts(log: seq<Object>, previous: Option<Root>, t: Tree) {
    match previous
    case None => t == EMPTY_TREE
    case Some(prior) => Held(log, prior, t)
  }

  // The directory with exactly the batch's bindings added and nothing changed.
  ghost predicate Extended(before: map<Key, Digest>, after: map<Key, Digest>, b: Publication)
    requires SoundBatch(b)
  {
    && (forall k :: k in before ==> k in after && after[k] == before[k])
    && (forall i :: 0 <= i < |b.entries| ==> EntryKey(b, i) in after && after[EntryKey(b, i)] == EntryDigest(b, i))
    && (forall k :: k in after ==> k in before || exists i :: 0 <= i < |b.entries| && EntryKey(b, i) == k)
  }

  // Some entry's key is already bound to another digest.
  ghost predicate Conflicts(before: map<Key, Digest>, b: Publication)
    requires SoundBatch(b)
  {
    exists i :: 0 <= i < |b.entries| && EntryKey(b, i) in before && before[EntryKey(b, i)] != EntryDigest(b, i)
  }

  ghost predicate Repeats(b: Publication)
    requires SoundBatch(b)
  {
    exists i, j :: 0 <= i < j < |b.entries| && EntryKey(b, i) == EntryKey(b, j)
  }

  // The receipt's root continues the previous one with the batch's own metadata.
  predicate Continues(r: Receipt, b: Publication) {
    && VerifyReceipt(r, b.origin, b.qualificationDigest, b.previousRoot) == Ok(r.root)
    && Ok(r.batchDigest) == BatchDigest(b)
    && r.root.barrier == b.barrier && r.root.epoch == b.epoch && r.root.floor == b.floor && r.root.retired == b.retired
  }

  // What a publish that succeeds has done: its receipt continues the previous
  // root, and if that root's tree was stored, the new root's tree is, with
  // exactly the batch added to the directory.
  ghost predicate Published(log: seq<Object>, longer: seq<Object>, b: Publication, r: Receipt, before: Tree,
                            after: Tree) {
    && log <= longer && SoundBatch(b) && Continues(r, b) && !Repeats(b)
    && (Starts(log, b.previousRoot, before) ==>
          Held(longer, r.root, after) && Extended(Directory(before), Directory(after), b))
  }

  // ----- The batch as items

  function ItemOf(b: Publication, offsets: seq<nat>, i: nat): Item
    requires SoundBatch(b) && |offsets| == |b.records| && i < |b.entries|
  {
    var e := b.entries[i];
    assert SoundEntry(b, e);
    Item([], EntryKey(b, i), EntryDigest(b, i), offsets[e.recordIndex], |b.records[e.recordIndex].bytes|)
  }

  function Incoming(b: Publication, offsets: seq<nat>): (items: seq<Item>)
    requires SoundBatch(b) && |offsets| == |b.records|
    ensures |items| == |b.entries|
  {
    seq(|b.entries|, i requires 0 <= i < |b.entries| => ItemOf(b, offsets, i))
  }

  ghost predicate Written(log: seq<Object>, b: Publication, offsets: seq<nat>) {
    && |offsets| == |b.records|
    && forall i :: 0 <= i < |offsets| ==> offsets[i] < |log| && log[offsets[i]] == RecordObject(b.records[i].bytes)
  }

  method WriteRecords(objects: Objects, b: Publication) returns (r: Result<seq<nat>, HistoryError>)
    modifies objects
    ensures old(objects.log) <= objects.log && old(objects.writes) <= objects.writes
    ensures r == Err(StoreFailed) <==> objects.BrokenSince(old(objects.writes))
    ensures r.Err? ==> r.error == StoreFailed
    ensures r.Ok? ==> Written(objects.log, b, r.value)
  {
    var offsets: seq<nat> := [];
    for i := 0 to |b.records|
      invariant old(objects.log) <= objects.log && |offsets| == i
      invariant old(objects.writes) <= objects.writes && !objects.BrokenSince(old(objects.writes))
      invariant forall k :: 0 <= k < i ==>
          offsets[k] < |objects.log| && objects.log[offsets[k]] == RecordObject(b.records[k].bytes)
    {
      var offset :- objects.Write(RecordObject(b.records[i].bytes));
      offsets := offsets + [offset];
    }
    return Ok(offsets);
  }

  method BuildItems(b: Publication, offsets: seq<nat>) returns (items: seq<Item>)
    requires SoundBatch(b) && |offsets| == |b.records|
    ensures items == Incoming(b, offsets)
  {
    items := [];
    for i := 0 to |b.entries|
      invariant |items| == i && forall k :: 0 <= k < i ==> items[k] == ItemOf(b, offsets, k)
    {
      var e := b.entries[i];
      assert SoundEntry(b, e);
      var record := b.records[e.recordIndex];
      items := items + [Item([], EncodeKey(e.key).value, record.payloadDigest, offsets[e.recordIndex], |record.bytes|)];
    }
  }

  // A batch without repeated keys, once sorted, is ready to merge.
  lemma BatchIsReady(log: seq<Object>, b: Publication, offsets: seq<nat>)
    requires SoundBatch(b) && Written(log, b, offsets) && |b.entries| <= MAX_BATCH_KEYS
    requires Sorted(Sort(Incoming(b, offsets)))
    ensures Batch(log, Sort(Incoming(b, offsets)), []) && |Sort(Incoming(b, offsets))| == |b.entries|
  {
    assert |offsets| == |b.records|;
    var items, sorted := Incoming(b, offsets), Sort(Incoming(b, offsets));
    SortKeeps(items);
    SameMembers(sorted, items);
    forall i | 0 <= i < |sorted|
      ensures sorted[i].lower == [] && sorted[i].upper != [] && ReadRecord(log, sorted[i]).Ok?
               && At([]) < Pos(sorted[i])
    {
      assert sorted[i] in items;
      var k :| 0 <= k < |items| && items[k] == sorted[i];
      ItemReads(log, b, offsets, k);
      KeysAreOrdered(sorted[i].upper, []);
      KeysAreOrdered([], sorted[i].upper);
      assert At([]) < Pos(sorted[i]);
    }
  }

  lemma ItemReads(log: seq<Object>, b: Publication, offsets: seq<nat>, i: nat)
    requires SoundBatch(b) && Written(log, b, offsets) && i < |b.entries|
    ensures var x := Incoming(b, offsets)[i];
      x == ItemOf(b, offsets, i) && x.lower == [] && x.upper != [] && ReadRecord(log, x).Ok?
  {
    hide EncodeKey;
    assert SoundEntry(b, b.entries[i]);
    assert SoundRecord(b.records[b.entries[i].recordIndex]);
    assert EncodeKey(b.entries[i].key).Ok?;
  }

  lemma IncomingAt(b: Publication, offsets: seq<nat>, i: nat)
    requires SoundBatch(b) && |offsets| == |b.records| && i < |b.entries|
    ensures Incoming(b, offsets)[i].upper == EntryKey(b, i) && Incoming(b, offsets)[i].digest == EntryDigest(b, i)
  {
    hide EncodeKey, EntryKey, EntryDigest;
  }

  lemma RepeatsAreFound(b: Publication, offsets: seq<nat>)
    requires SoundBatch(b) && |offsets| == |b.records|
    ensures Repeats(b) == !Distinct(Sort(Incoming(b, offsets)))
  {
    var items := Incoming(b, offsets);
    SortDistinct(items);
    forall i | 0 <= i < |items|
      ensures items[i].upper == EntryKey(b, i)
    {
      IncomingAt(b, offsets, i);
    }
  }

  // ----- The directory afterwards

  lemma EntriesAreBinds(items: seq<Item>, key: Key, digest: Digest)
    requires Sorted(items)
    ensures (key in Entries(items) && Entries(items)[key] == digest) <==> Binds(items, key, digest)
  {
    hide At, Entries;
    if key in Entries(items) {
      EntriesBound(items, key);
      var i :| 0 <= i < |items| && items[i].upper == key;
      EntriesBind(items, i);
    }
    if Binds(items, key, digest) {
      var i :| 0 <= i < |items| && items[i].upper == key && items[i].digest == digest;
      EntriesBind(items, i);
    }
  }

  lemma IncomingBinds(b: Publication, offsets: seq<nat>, sorted: seq<Item>, key: Key, digest: Digest)
    requires SoundBatch(b) && |offsets| == |b.records| && sorted == Sort(Incoming(b, offsets))
    ensures Binds(sorted, key, digest) <==>
            exists i :: 0 <= i < |b.entries| && EntryKey(b, i) == key && EntryDigest(b, i) == digest
  {
    hide Compare, EncodeKey, EntryDigest, EntryKey, Incoming;
    var items := Incoming(b, offsets);
    SortKeeps(items);
    SameMembers(sorted, items);
    forall i | 0 <= i < |items|
      ensures items[i] in sorted && items[i].upper == EntryKey(b, i) && items[i].digest == EntryDigest(b, i)
    {
      assert items[i] in items;
      IncomingAt(b, offsets, i);
    }
    if exists i :: 0 <= i < |b.entries| && EntryKey(b, i) == key && EntryDigest(b, i) == digest {
      var i :| 0 <= i < |b.entries| && EntryKey(b, i) == key && EntryDigest(b, i) == digest;
      assert items[i] in sorted;
      var k :| 0 <= k < |sorted| && sorted[k] == items[i];
      assert sorted[k].upper == key && sorted[k].digest == digest;
    }
    if Binds(sorted, key, digest) {
      var k :| 0 <= k < |sorted| && sorted[k].upper == key && sorted[k].digest == digest;
      assert sorted[k] in items;
      var i :| 0 <= i < |items| && items[i] == sorted[k];
      assert EntryKey(b, i) == key && EntryDigest(b, i) == digest;
    }
  }

  lemma UnionExtends(a: seq<Item>, b: Publication, offsets: seq<nat>, sorted: seq<Item>, r: seq<Item>)
    requires SoundBatch(b) && |offsets| == |b.records| && sorted == Sort(Incoming(b, offsets))
    requires Sorted(a) && Above(a, []) && Sorted(sorted) && Above(sorted, []) && Merge(a, sorted) == Ok(r)
    ensures Extended(Entries(a), Entries(r), b)
  {
    MergeIsSorted(a, sorted, []);
    forall k | k in Entries(a)
      ensures k in Entries(r) && Entries(r)[k] == Entries(a)[k]
    {
      EntriesAreBinds(a, k, Entries(a)[k]);
      MergeIsUnion(a, sorted, k, Entries(a)[k]);
      EntriesAreBinds(r, k, Entries(a)[k]);
    }
    forall i | 0 <= i < |b.entries|
      ensures EntryKey(b, i) in Entries(r) && Entries(r)[EntryKey(b, i)] == EntryDigest(b, i)
    {
      IncomingBinds(b, offsets, sorted, EntryKey(b, i), EntryDigest(b, i));
      MergeIsUnion(a, sorted, EntryKey(b, i), EntryDigest(b, i));
      EntriesAreBinds(r, EntryKey(b, i), EntryDigest(b, i));
    }
    forall k | k in Entries(r)
      ensures k in Entries(a) || exists i :: 0 <= i < |b.entries| && EntryKey(b, i) == k
    {
      EntriesAreBinds(r, k, Entries(r)[k]);
      MergeIsUnion(a, sorted, k, Entries(r)[k]);
      EntriesAreBinds(a, k, Entries(r)[k]);
      IncomingBinds(b, offsets, sorted, k, Entries(r)[k]);
    }
  }

  lemma ClashConflicts(a: seq<Item>, b: Publication, offsets: seq<nat>, sorted: seq<Item>)
    requires SoundBatch(b) && |offsets| == |b.records| && sorted == Sort(Incoming(b, offsets))
    requires Sorted(a) && Sorted(sorted) && Merge(a, sorted).Err?
    ensures Merge(a, sorted).error == HistoryIdentityConflict && Conflicts(Entries(a), b)
  {
    MergeFailsOnClash(a, sorted);
    assert Clash(a, sorted);
    var x, y :| x in a && y in sorted && x.upper == y.upper && x.digest != y.digest;
    assert Binds(a, x.upper, x.digest) && Binds(sorted, y.upper, y.digest);
    EntriesAreBinds(a, x.upper, x.digest);
    IncomingBinds(b, offsets, sorted, y.upper, y.digest);
  }

  // ----- Growing levels

  // All pages of one level, holding the given items between them.
  ghost predicate LevelHolds(log: seq<Object>, level: nat, items: seq<Item>, trees: seq<Tree>, flat: seq<Item>) {
    AllPlaced(log, items, trees) && Forest(level, trees, []) && FlatAll(trees) == flat && trees != []
        && level <= MAX_DEPTH
  }

  lemma LevelGrows(log: seq<Object>, level: nat, items: seq<Item>, trees: seq<Tree>, flat: seq<Item>)
    requires LevelHolds(log, level, items, trees, flat)
    ensures |items| == |trees| && Sourced(log, level + 1, items, trees)
    ensures var above := Trees(level + 1, items, trees, []);
      Forest(level + 1, above, []) && FlatAll(above) == flat && above != []
  {
    assert |items| == |trees| && Sourced(log, level + 1, items, trees) && Packable(level + 1, items, trees, []);
    TreesAreValid(level + 1, items, trees, []);
    TreesCount(level + 1, items, trees, []);
  }

  // Packs level upon level until one page is left.
  method GrowLevels(objects: Objects, bottom: nat, pages: seq<Item>, ghost trees: seq<Tree>, ghost flat: seq<Item>)
      returns (r: Result<Item, HistoryError>, ghost t: Tree)
    modifies objects
    ensures old(objects.log) <= objects.log && old(objects.writes) <= objects.writes
    ensures r == Err(StoreFailed) <==> objects.BrokenSince(old(objects.writes))
    ensures r.Err? ==> match r.error
                       case StoreFailed => true
                       case HistoryDepthExceeded => |pages| > BRANCH_FANOUT || bottom >= MAX_DEPTH
                       case _ => false
    ensures LevelHolds(old(objects.log), bottom, pages, trees, flat) && r.Ok? ==>
              && Placed(objects.log, r.value, t) && Valid(t, []) && t.level <= MAX_DEPTH && Flat(t) == flat
  {
    hide Stored, TreeDigest, Trees, Valid, Placed, Forest, FlatAll, Flat, Sourced;
    ghost var first, honest := objects.log, LevelHolds(objects.log, bottom, pages, trees, flat);
    var items, level: nat := pages, bottom;
    ghost var ts: seq<Tree> := if |trees| == |pages| then trees else seq(|pages|, i => EMPTY_TREE);
    t := EMPTY_TREE;
    if honest { assert ts == trees; }
    while |items| > 1
      invariant first <= objects.log && |ts| == |items| && bottom <= level
      invariant old(objects.writes) <= objects.writes && !objects.BrokenSince(old(objects.writes))
      invariant |pages| <= BRANCH_FANOUT ==> |items| <= 1 || (level == bottom && items == pages)
      invariant honest ==> LevelHolds(objects.log, level, items, ts, flat)
      decreases |items|
    {
      level := level + 1;
      if level > MAX_DEPTH { return Err(HistoryDepthExceeded), t; }
      if honest { LevelGrows(objects.log, level - 1, items, ts, flat); }
      ghost var before := objects.log;
      var packed, above := PackNodes(objects, level, items, [], ts, []);
      if packed.Err? { return Err(packed.error), t; }
      TreesCount(level, items, ts, []);
      assert |above| < |items| by { Shrinks(|items|, |above|); }
      items, ts := packed.value, above;
    }
    if honest {
      t := ts[0];
      SingleTree(level, ts, flat);
      assert Placed(objects.log, items[0], ts[0]);
    }
    return Ok(if items == [] then Item([], [], Zero, 0, 0) else items[0]), t;
  }

  lemma Shrinks(items: nat, pages: nat)
    requires items > 1 && BRANCH_FANOUT * (pages - 1) + 1 <= items
    ensures pages < items && (items <= BRANCH_FANOUT ==> pages <= 1)
  {
  }

  lemma SingleTree(level: nat, ts: seq<Tree>, flat: seq<Item>)
    requires |ts| == 1 && Forest(level, ts, []) && FlatAll(ts) == flat
    ensures Valid(ts[0], []) && ts[0].level == level && Flat(ts[0]) == flat
  {
    hide Valid, Flat;
    assert ts[1..] == [] && Flat(ts[0]) + [] == Flat(ts[0]);
  }

  // ----- Publishing

  lemma StartIsRooted(log: seq<Object>, longer: seq<Object>, previous: Option<Root>, t: Tree)
    requires Starts(log, previous, t) && log <= longer
    ensures Rooted(longer, NodeOf(t), t, [])
    ensures previous.Some? ==> ReadNode(longer, previous.value.treeOffset, previous.value.treeDigest) == Ok(NodeOf(t))
    ensures previous.None? ==> NodeOf(t) == Node(0, [])
    ensures t.level == NodeOf(t).level <= MAX_DEPTH && Sorted(Flat(t)) && Above(Flat(t), [])
  {
    hide ValidRoot;
    match previous
    case None =>
      EmptyIsRooted(longer);
      assert t == EMPTY_TREE;
      ValidFlat(t, []);
    case Some(prior) =>
      Extends(log, longer);
      StoredPersists(log, longer[|log|..], prior.treeOffset, t);
      StoredReads(longer, prior.treeOffset, t, []);
      assert Sourced(longer, t.level, t.items, t.children);
      ValidFlat(t, []);
  }

  lemma EmptyIsRooted(log: seq<Object>)
    ensures Rooted(log, Node(0, []), EMPTY_TREE, [])
  {
  }

  function NextRoot(b: Publication, top: Item): Root
    requires Refusal(b).None? && (b.previousRoot.Some? ==> b.previousRoot.value.generation != U64_MAX)
  {
    var unsigned := Root(2, b.origin, if b.previousRoot.Some? then b.previousRoot.value.generation + 1 else 1,
        b.barrier,
                         b.epoch, b.floor, b.retired, top.offset, top.digest, DigestBefore(b.previousRoot),
                         BatchDigest(b).value, b.qualificationDigest, Zero);
    unsigned.(rootDigest := RootDigest(unsigned))
  }

  lemma NextRootContinues(b: Publication, top: Item)
    requires Refusal(b).None? && (b.previousRoot.Some? ==> b.previousRoot.value.generation != U64_MAX)
    ensures var root := NextRoot(b, top);
      ValidRoot(root) && Continues(Receipt(root, DigestBefore(b.previousRoot), b.qualificationDigest,
          BatchDigest(b).value), b)
  {
    hide BatchDigest;
  }

  lemma RootIsHeld(log: seq<Object>, b: Publication, top: Item, t: Tree)
    requires Refusal(b).None? && (b.previousRoot.Some? ==> b.previousRoot.value.generation != U64_MAX)
    requires Placed(log, top, t) && Valid(t, []) && t.level <= MAX_DEPTH
    ensures Held(log, NextRoot(b, top), t)
  {
    NextRootContinues(b, top);
    hide Refusal, BatchDigest, Valid, Stored, TreeDigest, ValidRoot;
  }

  lemma AcceptedIsSound(b: Publication)
    requires Refusal(b).None?
    ensures SoundBatch(b) && 0 < |b.entries| <= MAX_BATCH_KEYS && BatchDigest(b).Ok?
  {
    hide SoundEntry, SoundRecord;
  }

  method Publish(objects: Objects, b: Publication, ghost before: Tree)
      returns (r: Result<Receipt, HistoryError>, ghost after: Tree)
    modifies objects
    ensures old(objects.log) <= objects.log && old(objects.writes) <= objects.writes
    ensures r == Err(StoreFailed) <==> objects.BrokenSince(old(objects.writes))
    ensures Refusal(b).Some? ==> r == Err(Refusal(b).value) && objects.log == old(objects.log)
    ensures r.Ok? ==> Published(old(objects.log), objects.log, b, r.value, before, after)
    ensures r.Err? && Refusal(b).None? && Starts(old(objects.log), b.previousRoot, before) ==>
              && SoundBatch(b)
              && match r.error
                 case StoreFailed => true
                 case DuplicateHistoryBatchKey => Repeats(b)
                 case HistoryIdentityConflict => Conflicts(Directory(before), b)
                 case HistoryDepthExceeded => before.level == MAX_DEPTH
                 case Overflow => b.previousRoot.Some? && b.previousRoot.value.generation == U64_MAX
                 case _ => false
  {
    hide Describes, DigestBefore, Distinct, EncodeKey, Entries, EntryKey, ItemsBytes, LevelHolds, Merge, NextRoot,
         NodeDigest, NodeOf, Ordered, Placed, Plain, Pos, Pow257, Rank, ReadNode, ReadRecord, Readable, Refusal,
         Repeats, Replaces, RootDigest, Rooted, Sort, Sorted, SoundBatch, SoundEntry, SoundRecord, Sourced, Starts,
         Stored, TreeDigest, Valid, ValidOrigin, ValidRoot, VerifyReceipt, Flat, FlatAll, Extended, BatchDigest,
         Conflicts, Continues, Held;
    after := EMPTY_TREE;
    var refusal := Refusal(b);
    if refusal.Some? { return Err(refusal.value), after; }
    AcceptedIsSound(b);
    ghost var first, honest := objects.log, Starts(objects.log, b.previousRoot, before);
    var offsets := WriteRecords(objects, b);
    if offsets.Err? { return Err(offsets.error), after; }
    assert |offsets.value| == |b.records|;
    var items := BuildItems(b, offsets.value);
    var incoming := Sort(items);
    SortOrders(items);
    RepeatsAreFound(b, offsets.value);
    var repeated := FindsDuplicate(incoming);
    if repeated { return Err(DuplicateHistoryBatchKey), after; }
    BatchIsReady(objects.log, b, offsets.value);
    if honest { StartIsRooted(first, objects.log, b.previousRoot, before); }
    var node := Node(0, []);
    if b.previousRoot.Some? {
      var read := ReadNode(objects.log, b.previousRoot.value.treeOffset, b.previousRoot.value.treeDigest);
      if read.Err? { return Err(read.error), after; }
      node := read.value;
    }
    assert honest ==> node == NodeOf(before);
    ghost var flat := Flat(before);
    var split, trees := MergeNode(objects, node, incoming, before, []);
    if split.Err? {
      if honest && split.error != StoreFailed {
        ClashConflicts(flat, b, offsets.value, incoming);
        assert Directory(before) == Entries(flat);
      }
      return Err(split.error), after;
    }
    ghost var merged := FlatAll(trees);
    if honest {
      SplitHolds(objects.log, split.value, trees, before, incoming, node.level);
    }
    var top, t := GrowLevels(objects, node.level, split.value, trees, merged);
    if top.Err? { return Err(top.error), after; }
    if b.previousRoot.Some? && b.previousRoot.value.generation == U64_MAX { return Err(Overflow), after; }
    after := t;
    NextRootContinues(b, top.value);
    var root := NextRoot(b, top.value);
    r := Ok(Receipt(root, DigestBefore(b.previousRoot), b.qualificationDigest, BatchDigest(b).value));
    if honest {
      RootIsHeld(objects.log, b, top.value, t);
      assert Above(incoming, []) && Sorted(incoming);
      UnionExtends(flat, b, offsets.value, incoming, merged);
    }
  }

  lemma SplitHolds(log: seq<Object>, items: seq<Item>, trees: seq<Tree>, t: Tree, incoming: seq<Item>, level: nat)
    requires Replaces(log, items, trees, t, [], incoming) && incoming != []
    requires level == t.level <= MAX_DEPTH
    ensures LevelHolds(log, level, items, trees, FlatAll(trees))
    ensures Merge(Flat(t), incoming) == Ok(FlatAll(trees))
    ensures |items| <= BRANCH_FANOUT
  {
    assert |items| == |trees|;
    if trees == [] {
      assert FlatAll(trees) == [];
      MergeNonempty(Flat(t), incoming);
    }
  }

  lemma MergeNonempty(a: seq<Item>, b: seq<Item>)
    requires b != []
    ensures Merge(a, b) != Ok([])
  {
    hide Compare;
  }

  // Whatever is written later, an older root still has its whole tree, so every
  // lookup against it is answered as before.
  lemma OlderRootsStay(log: seq<Object>, longer: seq<Object>, root: Root, t: Tree)
    requires Held(log, root, t) && log <= longer
    ensures Held(longer, root, t)
  {
    Extends(log, longer);
    StoredPersists(log, longer[|log|..], root.treeOffset, t);
  }

  // ----- Checking a receipt against its batch

  ghost predicate Covered(directory: map<Key, Digest>, b: Publication)
    requires SoundBatch(b)
  {
    forall i :: 0 <= i < |b.entries| ==> EntryKey(b, i) in directory && directory[EntryKey(b, i)] == EntryDigest(b, i)
  }

  lemma ContinuingBatchIsSound(r: Receipt, b: Publication)
    requires Continues(r, b)
    ensures SoundBatch(b) && BatchDigest(b) == Ok(r.batchDigest) && r.root.origin == b.origin
  {
    hide SoundEntry, SoundRecord, ValidRoot;
  }

  function EntryRequest(r: Receipt, b: Publication, i: nat): Request
    requires SoundBatch(b) && i < |b.entries| <= U64_MAX
  {
    Request(i + 1, b.entries[i].key, EntryDigest(b, i), r.batchDigest, r.root.rootDigest, r.root.epoch, r.root.barrier)
  }

  lemma EntryRequestIsAddressed(r: Receipt, b: Publication, i: nat)
    requires SoundBatch(b) && i < |b.entries| <= U64_MAX && r.root.origin == b.origin
    ensures var request := EntryRequest(r, b, i);
      Addressed(request, r.root) && EncodeKey(request.key) == Ok(EntryKey(b, i)) && request.pendingId != 0
      && request.pendingId == i + 1 && request.candidate == EntryDigest(b, i)
      && request.originalInput == r.batchDigest
  {
    hide EncodeKey;
    assert SoundEntry(b, b.entries[i]);
  }

  // A slice holds at most 2^64 - 1 entries.
  method VerifyBatch(objects: Objects, r: Receipt, b: Publication, ghost t: Tree) returns (checked: Result<(),
                     HistoryError>)
    requires |b.entries| <= U64_MAX
    ensures checked.Ok? ==> Continues(r, b)
    ensures var received := VerifyReceipt(r, b.origin, b.qualificationDigest, b.previousRoot);
      !Continues(r, b) ==>
        checked == Err(if received.Err? then received.error
                       else if BatchDigest(b).Err? then BatchDigest(b).error else InvalidHistoryReceipt)
    ensures Held(objects.log, r.root, t) ==>
              (checked.Ok? <==> Continues(r, b) && SoundBatch(b) && Covered(Directory(t), b))
    ensures Held(objects.log, r.root, t) && Continues(r, b) && checked.Err? ==>
              checked.error == HistoryBatchCoverageIncomplete
  {
    hide EntryDigest, EntryKey, EntryRequest, SoundEntry, SoundRecord, Stored, TreeDigest, Valid, ValidOrigin,
         ValidRoot, ValidateRecord, Verify, VerifyReceipt;
    var received := VerifyReceipt(r, b.origin, b.qualificationDigest, b.previousRoot);
    if received.Err? {
      assert !Continues(r, b);
      return Err(received.error);
    }
    ReceiptRoot(r, b);
    var digest := BatchDigest(b);
    if digest.Err? {
      assert !Continues(r, b);
      return Err(digest.error);
    }
    if digest.value != r.batchDigest || r.root.barrier != b.barrier || r.root.epoch != b.epoch
        || r.root.floor != b.floor
       || r.root.retired != b.retired {
      assert !Continues(r, b);
      return Err(InvalidHistoryReceipt);
    }
    assert Continues(r, b);
    ContinuingBatchIsSound(r, b);
    ghost var honest := Held(objects.log, r.root, t);
    for i := 0 to |b.entries|
      invariant honest ==> forall k :: 0 <= k < i ==>
          EntryKey(b, k) in Directory(t) && Directory(t)[EntryKey(b, k)] == EntryDigest(b, k)
    {
      var request := EntryRequest(r, b, i);
      EntryRequestIsAddressed(r, b, i);
      var found := Query(objects, r.root, request, t);
      if found.Err? { return Err(found.error); }
      assert honest ==> Answers(found.value, request, EntryKey(b, i), r.root, t);
      var verdict := VerifyResult(request, found.value.proof, r.root);
      if verdict != Ok(Same) { return Err(if verdict.Err? then verdict.error else HistoryBatchCoverageIncomplete); }
      var record := ValidateRecord(found.value);
      if record.Err? { return record; }
    }
    return Ok(());
  }

  lemma ReceiptRoot(r: Receipt, b: Publication)
    requires VerifyReceipt(r, b.origin, b.qualificationDigest, b.previousRoot).Ok?
    ensures VerifyReceipt(r, b.origin, b.qualificationDigest, b.previousRoot) == Ok(r.root)
  {
  }

  // A published batch passes: what publishing ensures is what the check asks.
  lemma PublishedIsCovered(before: map<Key, Digest>, after: map<Key, Digest>, b: Publication)
    requires SoundBatch(b) && Extended(before, after, b)
    ensures Covered(after, b) && !Conflicts(before, b)
  {
    hide EntryKey, EntryDigest, SoundBatch;
  }
}
