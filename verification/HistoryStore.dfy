// The append-only object store that holds the records and pages of the
// order-history directory.
module HistoryStore {
  import opened Bytes
  import opened Wrappers
  import opened HistoryKeys
  import opened HistoryDigests
  import opened HistoryTree
  import opened HistoryProof

  datatype Object = RecordObject(bytes: seq<byte>) | PageObject(node: Node)

  class Objects {
    // Which writes fail is the store's affair: each one that does not work.
    const works: nat -> bool
    var writes: nat
    var log: seq<Object>

    constructor (works: nat -> bool)
      ensures this.works == works && writes == 0 && log == []
    {
      this.works, writes, log := works, 0, [];
    }

    // Some write since the given one failed.
    ghost predicate BrokenSince(first: nat)
      reads this
    {
      exists n :: first <= n < writes && !works(n)
    }

    // A write either fails or appends; what is stored never changes.
    method Write(written: Object) returns (r: Result<nat, HistoryError>)
      modifies this
      ensures writes == old(writes) + 1
      ensures if works(old(writes)) then r == Ok(|old(log)|) && log == old(log) + [written]
              else r == Err(StoreFailed) && log == old(log)
    {
      writes := writes + 1;
      if !works(writes - 1) { return Err(StoreFailed); }
      log := log + [written];
      return Ok(|log| - 1);
    }
  }

  // ----- Reading

  predicate WellFormed(n: Node) {
    && n.level <= MAX_DEPTH && |n.items| <= FANOUT && HEADER_BYTES + ItemsBytes(n.items) <= PAGE_BYTES
    && forall i :: 0 <= i < |n.items| ==> ItemWellFormed(n, i)
  }

  predicate ItemWellFormed(n: Node, i: nat)
    requires i < |n.items|
  {
    && n.items[i].upper != []
    && (n.level == 0 ==> n.items[i].lower == [])
    && (i > 0 ==> Compare(n.items[i - 1].upper, n.items[i].upper) == Lt)
    && (n.level != 0 && i > 0 ==> n.items[i].lower == n.items[i - 1].upper)
  }

  function ReadNode(log: seq<Object>, offset: nat, expected: Digest): (r: Result<Node, HistoryError>)
    ensures r.Ok? ==> WellFormed(r.value) && NodeDigest(r.value) == expected
    ensures r.Err? ==> r.error == InvalidHistoryPage
  {
    if offset < |log| && log[offset].PageObject? && WellFormed(log[offset].node)
        && NodeDigest(log[offset].node) == expected
    then Ok(log[offset].node)
    else Err(InvalidHistoryPage)
  }

  function ReadRecord(log: seq<Object>, x: Item): Result<seq<byte>, HistoryError> {
    if x.length <= MAX_RECORD_BYTES && x.offset < |log| && log[x.offset].RecordObject?
       && |log[x.offset].bytes| == x.length && RecordHash(log[x.offset].bytes) == x.digest
    then Ok(log[x.offset].bytes)
    else Err(InvalidHistoryRecord)
  }

  // ----- What is stored

  // Every page of the tree, and every record its leaves name, can be read back.
  ghost predicate Stored(log: seq<Object>, offset: nat, t: Tree)
    decreases t
  {
    && offset < |log| && log[offset] == PageObject(NodeOf(t))
    && if t.level == 0 then forall i :: 0 <= i < |t.items| ==> ReadRecord(log, t.items[i]).Ok?
       else
         && |t.children| == |t.items|
         && forall i :: 0 <= i < |t.items| ==> Stored(log, t.items[i].offset, t.children[i])
  }

  // The root is the root of a well-formed tree whose pages are all in the store.
  ghost predicate Held(log: seq<Object>, root: Root, t: Tree) {
    && ValidRoot(root) && root.treeDigest == TreeDigest(t) && t.level <= MAX_DEPTH
    && Valid(t, []) && Stored(log, root.treeOffset, t)
  }

  // Later writes leave every stored tree as it was.
  lemma {:induction false} StoredPersists(log: seq<Object>, more: seq<Object>, offset: nat, t: Tree)
    requires Stored(log, offset, t)
    ensures Stored(log + more, offset, t)
    decreases t
  {
    if t.level > 0 {
      forall i | 0 <= i < |t.items|
        ensures Stored(log + more, t.items[i].offset, t.children[i])
      {
        StoredPersists(log, more, t.items[i].offset, t.children[i]);
      }
    }
  }

  lemma ItemIsWellFormed(t: Tree, lo: Key, i: nat)
    requires Valid(t, lo) && i < |t.items|
    ensures t.items[i].upper != []
    ensures t.level == 0 ==> t.items[i].lower == []
    ensures i > 0 ==> Compare(t.items[i - 1].upper, t.items[i].upper) == Lt
    ensures t.level != 0 && i > 0 ==> t.items[i].lower == t.items[i - 1].upper
  {
    hide At, Forest, Fits, Flat, TreeDigest, Compare, Describes;
    KeysAreOrdered(t.items[i].upper, lo);
    if i > 0 { KeysAreOrdered(t.items[i - 1].upper, t.items[i].upper); }
  }

  lemma ValidIsWellFormed(t: Tree, lo: Key)
    requires Valid(t, lo) && t.level <= MAX_DEPTH
    ensures WellFormed(NodeOf(t))
  {
    hide Separator, Sorted;
    PageFits(t, lo);
    assert HEADER_BYTES + ItemsBytes(t.items) <= PAGE_BYTES;
    forall i | 0 <= i < |t.items|
      ensures ItemWellFormed(NodeOf(t), i)
    {
      ItemIsWellFormed(t, lo, i);
    }
  }

  lemma StoredReads(log: seq<Object>, offset: nat, t: Tree, lo: Key)
    requires Stored(log, offset, t) && Valid(t, lo) && t.level <= MAX_DEPTH
    ensures ReadNode(log, offset, TreeDigest(t)) == Ok(NodeOf(t))
  {
    ValidIsWellFormed(t, lo);
    hide Valid, WellFormed, NodeDigest;
    PageFits(t, lo);
  }
}
