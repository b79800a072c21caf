// Lookups in the stored directory: walking down to a leaf while collecting the
// witnesses that prove the answer.
module HistoryQuery {
  import opened Bytes
  import opened Wrappers
  import opened HistoryKeys
  import opened HistoryDigests
  import opened HistoryTree
  import opened HistoryProof
  import opened HistoryStore

  datatype LookupResult = LookupResult(proof: Proof, record: seq<byte>)

  // ----- Searching one page

  // The first item, from i on, whose key is not below the given one.
  function Below(items: seq<Item>, key: Key, i: nat): (m: nat)
    requires i <= |items|
    ensures i <= m <= |items|
    ensures forall k :: i <= k < m ==> Compare(items[k].upper, key) == Lt
    ensures m < |items| ==> Compare(items[m].upper, key) != Lt
    decreases |items| - i
  {
    if i == |items| || Compare(items[i].upper, key) != Lt then i else Below(items, key, i + 1)
  }

  function Selected(items: seq<Item>, key: Key): (s: nat)
    requires items != []
    ensures s < |items|
  {
    var m := Below(items, key, 0);
    if m < |items| then m else |items| - 1
  }

  method SelectChild(items: seq<Item>, key: Key) returns (s: nat)
    requires items != []
    ensures s == Selected(items, key)
  {
    s := |items| - 1;
    for i := 0 to |items|
      invariant Below(items, key, 0) == Below(items, key, i)
      invariant s == |items| - 1
    {
      KeysAreOrdered(items[i].upper, key);
      KeysAreOrdered(key, items[i].upper);
      if Compare(key, items[i].upper) != Gt { return i; }
    }
  }

  // The witnesses around a key in a leaf, and whether the leaf holds the key.
  function Neighbours(n: Node, key: Key): (r: (Option<Witness>, Option<Witness>, bool))
    requires |n.items| <= FANOUT && n.level < 256
  {
    var m := Below(n.items, key, 0);
    if m < |n.items| && Compare(n.items[m].upper, key) == Eq then (Some(WitnessFor(n, m)), None, true)
    else
      (if m > 0 then Some(WitnessFor(n, m - 1)) else None, if m < |n.items| then Some(WitnessFor(n, m)) else None,
          false)
  }

  lemma WitnessNames(n: Node, slot: nat)
    requires slot < |n.items| <= FANOUT && n.level < 256
    ensures WitnessFor(n, slot).item == n.items[slot]
  {
  }

  method ScanLeaf(n: Node, key: Key) returns (lower: Option<Witness>, upper: Option<Witness>, hit: Option<Item>)
    requires |n.items| <= FANOUT && n.level < 256
    ensures Neighbours(n, key) == (lower, upper, hit.Some?)
    ensures hit.Some? ==> lower.Some? && hit.value == lower.value.item
  {
    hide WitnessFor, Compare;
    lower, upper, hit := None, None, None;
    for i := 0 to |n.items|
      invariant Below(n.items, key, 0) == Below(n.items, key, i)
      invariant lower == if i > 0 then Some(WitnessFor(n, i - 1)) else None
      invariant upper == None && hit == None
    {
      match Compare(n.items[i].upper, key)
      case Lt =>
        var w := BuildWitness(n, i);
        lower := Some(w);
      case Eq =>
        var w := BuildWitness(n, i);
        WitnessNames(n, i);
        return Some(w), None, Some(n.items[i]);
      case Gt =>
        var w := BuildWitness(n, i);
        return lower, Some(w), None;
    }
  }

  // ----- Completeness of one step

  lemma {:induction false} WalkAppends(key: Key, path: seq<Witness>, w: Witness, expected: Digest, open: bool,
                                       previous: Option<u8>)
    requires Walk(key, path, expected, open, previous).Ok?
    requires var at := Walk(key, path, expected, open, previous).value;
      WitnessStep(key, w, at.expected, at.open, at.previous)
    ensures var at := Walk(key, path, expected, open, previous).value;
      Walk(key, path + [w], expected, open, previous)
      == Ok(Reached(w.item.digest, at.open && w.slot + 1 == w.count, Some(w.level)))
    decreases |path|
  {
    hide WitnessStep;
    if path == [] {
      assert path + [w] == [w];
    } else {
      var first := path[0];
      assert (path + [w])[1..] == path[1..] + [w];
      WalkAppends(key, path[1..], w, first.item.digest, open && first.slot + 1 == first.count, Some(first.level));
    }
  }

  lemma StepIsComplete(t: Tree, lo: Key, key: Key, open: bool, previous: Option<u8>)
    requires Valid(t, lo) && 0 < t.level <= MAX_DEPTH && |t.items| > 0 && |t.items| <= FANOUT && At(lo) < At(key)
    requires open || At(key) <= At(Greatest(t.items, lo))
    requires previous.Some? ==> previous.value == t.level + 1
    ensures var i := Selected(t.items, key); var w := WitnessFor(NodeOf(t), i);
      && WitnessStep(key, w, TreeDigest(t), open, previous)
      && ((open && w.slot + 1 == w.count) || At(key) <= At(t.items[i].upper))
  {
    hide Siblings, Valid;
    var i := Selected(t.items, key);
    PageFits(t, lo);
    BranchShape(t, lo, i);
    ItemIsWellFormed(t, lo, i);
    WitnessIsComplete(NodeOf(t), i);
    KeysAreOrdered(key, t.items[i].lower);
    KeysAreOrdered(key, t.items[i].upper);
    KeysAreOrdered(t.items[i].upper, key);
    if i > 0 { KeysAreOrdered(t.items[i - 1].upper, key); }
  }

  // ----- Completeness of a leaf

  lemma LeafIsComplete(t: Tree, lo: Key, key: Key, candidate: Digest, p: Proof)
    requires Valid(t, lo) && t.level == 0 && |t.items| <= FANOUT
    requires forall i :: 0 <= i < |t.items| ==> t.items[i].length <= MAX_RECORD_BYTES
    requires p.leafCount == |t.items|
    requires var (lower, upper, _) := Neighbours(NodeOf(t), key); p.lower == lower && p.upper == upper
    ensures VerifyLeaf(key, candidate, p, TreeDigest(t)).Ok?
  {
    hide NodeDigest, Pow2, Siblings, Sorted, TreeDigest, Valid, WitnessRoot;
    PageFits(t, lo);
    var m := Below(t.items, key, 0);
    if m > 0 {
      ItemIsWellFormed(t, lo, m - 1);
      WitnessIsComplete(NodeOf(t), m - 1);
    }
    if m < |t.items| {
      ItemIsWellFormed(t, lo, m);
      WitnessIsComplete(NodeOf(t), m);
    }
  }

  // ----- Walking down

  // The walk has reached the stored subtree sub, below which the key's item is
  // if it is anywhere.
  ghost predicate OnTrack(log: seq<Object>, root: Root, t: Tree, key: Key, path: seq<Witness>, offset: nat, sub: Tree,
                          low: Key) {
    && Stored(log, offset, sub) && Valid(sub, low) && At(low) < At(key) && SameBelow(t, sub, key)
    && sub.level + |path| == t.level <= MAX_DEPTH
    && Walk(key, path, root.treeDigest, true, None).Ok?
    && var at := Walk(key, path, root.treeDigest, true, None).value;
      && at.expected == TreeDigest(sub)
      && at.previous == (if path == [] then None else Some(sub.level + 1))
      && (at.open || At(key) <= At(Greatest(sub.items, low)))
  }

  lemma StartsOnTrack(log: seq<Object>, root: Root, t: Tree, key: Key)
    requires Held(log, root, t) && key != []
    ensures OnTrack(log, root, t, key, [], root.treeOffset, t, [])
  {
    hide Valid, Stored, TreeDigest, Flat, At;
    KeysAreOrdered([], key);
    KeysAreOrdered(key, []);
  }

  lemma StaysOnTrack(log: seq<Object>, root: Root, t: Tree, key: Key, path: seq<Witness>, offset: nat, sub: Tree,
                     low: Key)
    requires OnTrack(log, root, t, key, path, offset, sub, low) && sub.level > 0
    requires 0 < |sub.items| <= FANOUT
    ensures var i := Selected(sub.items, key); var w := WitnessFor(NodeOf(sub), i);
      && |sub.children| == |sub.items|
      && OnTrack(log, root, t, key, path + [w], sub.items[i].offset, sub.children[i], sub.items[i].lower)
      && w.item == sub.items[i] && sub.items[i].digest == TreeDigest(sub.children[i])
  {
    hide Pow2, Pow257, Rank, ReadRecord, Selected, Separator, Siblings, TreeDigest, Valid, Walk, WitnessStep;
    var i := Selected(sub.items, key);
    var w := WitnessFor(NodeOf(sub), i);
    var at := Walk(key, path, root.treeDigest, true, None).value;
    StepIsComplete(sub, low, key, at.open, at.previous);
    StepIsSound(sub, low, key, w, at.open, at.previous);
    WalkAppends(key, path, w, root.treeDigest, true, None);
    assert w.slot == i && w.item == sub.items[i];
    BranchShape(sub, low, i);
    assert Greatest(sub.children[i].items, sub.items[i].lower) == sub.items[i].upper;
    assert Stored(log, sub.items[i].offset, sub.children[i]);
  }

  method Descend(log: seq<Object>, key: Key, root: Root, ghost t: Tree)
      returns (r: Result<(seq<Witness>, Node), HistoryError>, ghost offset: nat, ghost sub: Tree, ghost low: Key)
    ensures r.Ok? ==> |r.value.0| <= MAX_DEPTH && |r.value.1.items| <= FANOUT && r.value.1.level == 0
    ensures Held(log, root, t) && key != [] ==>
              && r.Ok? && sub.level == 0 && r.value.1 == NodeOf(sub)
              && OnTrack(log, root, t, key, r.value.0, offset, sub, low)
  {
    var path, digest, next := [], root.treeDigest, root.treeOffset;
    sub, low, offset := t, [], next;
    ghost var honest := Held(log, root, t) && key != [];
    if honest {
      StartsOnTrack(log, root, t, key);
      assert TreeDigest(t) == root.treeDigest;
    }
    while true
      invariant |path| <= MAX_DEPTH && offset == next
      invariant honest ==> OnTrack(log, root, t, key, path, next, sub, low) && digest == TreeDigest(sub)
      decreases MAX_DEPTH - |path|
    {
      var read := ReadNode(log, next, digest);
      if honest { TrackReads(log, root, t, key, path, next, sub, low); }
      if read.Err? { return Err(read.error), offset, sub, low; }
      var node := read.value;
      assert |node.items| <= FANOUT;
      if node.level == 0 { return Ok((path, node)), offset, sub, low; }
      if |path| == MAX_DEPTH || |node.items| == 0 { return Err(HistoryDepthExceeded), offset, sub, low; }
      var s := SelectChild(node.items, key);
      var w := BuildWitness(node, s);
      if honest {
        StaysOnTrack(log, root, t, key, path, next, sub, low);
        sub, low := sub.children[s], sub.items[s].lower;
      }
      assert w.item == node.items[s];
      path := path + [w];
      next, digest := w.item.offset, w.item.digest;
      offset := next;
    }
  }

  lemma TrackReads(log: seq<Object>, root: Root, t: Tree, key: Key, path: seq<Witness>, offset: nat, sub: Tree,
                   low: Key)
    requires OnTrack(log, root, t, key, path, offset, sub, low)
    ensures ReadNode(log, offset, TreeDigest(sub)) == Ok(NodeOf(sub))
    ensures NodeOf(sub).level == sub.level && NodeOf(sub).items == sub.items
    ensures sub.level > 0 ==> sub.items != [] && |path| < MAX_DEPTH
  {
    StoredReads(log, offset, sub, low);
    if sub.level > 0 { assert sub.items != []; }
  }

  // Behind the genuine first witness a made-up one of level 255 overflows, for
  // every key and every tree with branch pages.
  lemma ForgedLevelOverflows(request: Request, root: Root, t: Tree, forged: Witness, leafCount: u8)
    requires ValidRoot(root) && Valid(t, []) && 0 < t.level <= MAX_DEPTH && root.treeDigest == TreeDigest(t)
    requires Addressed(request, root) && request.pendingId != 0 && EncodeKey(request.key).Ok? && leafCount <= FANOUT
    requires forged.level == 255
    ensures exists first: Witness ::
              Verify(request, Proof(request, root, [first, forged], None, None, leafCount), root) == Err(LevelOverflow)
  {
    hide Valid, ValidRoot, TreeDigest, WitnessStep, Walk, EncodeKey, Verify, WitnessFor, NodeDigest, Flat, Pow257, Rank;
    var key := EncodeKey(request.key).value;
    KeysAreOrdered([], key);
    PageFits(t, []);
    assert t.items != [] by { BranchIsNotEmpty(t, []); }
    StepIsComplete(t, [], key, true, None);
    var first := WitnessFor(NodeOf(t), Selected(t.items, key));
    ForgedBehind(key, first, forged, root.treeDigest);
    OverflowIsExact(request, Proof(request, root, [first, forged], None, None, leafCount), root);
  }

  lemma BranchIsNotEmpty(t: Tree, lo: Key)
    requires Valid(t, lo) && t.level > 0
    ensures t.items != []
  {
  }

  // ----- Lookups

  predicate Addressed(request: Request, root: Root) {
    && request.key.origin == root.origin && request.rootDigest == root.rootDigest
    && request.epoch == root.epoch && request.barrier == root.barrier
  }

  function ValidateRecord(result: LookupResult): Result<(), HistoryError> {
    if result.proof.lower.None? then Err(HistoryRecordAbsent)
    else
      var key :- EncodeKey(result.proof.request.key);
      var x := result.proof.lower.value.item;
      if Compare(x.upper, key) != Eq || |result.record| != x.length || |result.record| > MAX_RECORD_BYTES
         || RecordHash(result.record) != x.digest then Err(InvalidHistoryRecord)
      else Ok(())
  }

  // A lookup result proves the directory's answer for the key and carries the
  // record the directory binds it to.
  ghost predicate Answers(result: LookupResult, request: Request, key: Key, root: Root, t: Tree) {
    && result.proof.request == request && result.proof.root == root
    && (request.pendingId != 0 ==>
          Verify(request, result.proof, root) == Ok(Answer(Directory(t), key, request.candidate, Forgetful(root))))
    && (key in Directory(t) <==> ValidateRecord(result).Ok?)
    && (key in Directory(t) ==> Directory(t)[key] == RecordHash(result.record))
  }

  method Query(objects: Objects, root: Root, request: Request, ghost t: Tree) returns (r: Result<LookupResult,
               HistoryError>)
    ensures !ValidRoot(root) ==> r == Err(InvalidHistoryRoot)
    ensures ValidRoot(root) && !Addressed(request, root) ==> r == Err(StaleHistoryRequest)
    ensures ValidRoot(root) && Addressed(request, root) && EncodeKey(request.key).Err? ==>
              r == Err(EncodeKey(request.key).error)
    ensures Held(objects.log, root, t) && Addressed(request, root) && EncodeKey(request.key).Ok? ==>
              r.Ok? && Answers(r.value, request, EncodeKey(request.key).value, root, t)
  {
    if !ValidRoot(root) { return Err(InvalidHistoryRoot); }
    if !Addressed(request, root) { return Err(StaleHistoryRequest); }
    var encoded := EncodeKey(request.key);
    if encoded.Err? { return Err(encoded.error); }
    var key := encoded.value;
    assert key != [];
    ghost var honest := Held(objects.log, root, t);
    var down, offset, sub, low := Descend(objects.log, key, root, t);
    if down.Err? { return Err(down.error); }
    var (path, leaf) := down.value;
    var lower, upper, hit := ScanLeaf(leaf, key);
    var p := Proof(request, root, path, lower, upper, |leaf.items|);
    if honest { ScanDecides(objects.log, key, root, t, path, offset, sub, low); }
    if hit.None? {
      if honest { ScanAnswers(objects.log, request, key, root, t, path, offset, sub, low, p, []); }
      return Ok(LookupResult(p, []));
    }
    var record := ReadRecord(objects.log, hit.value);
    if honest { ScanAnswers(objects.log, request, key, root, t, path, offset, sub, low, p, record.value); }
    if record.Err? { return Err(record.error); }
    return Ok(LookupResult(p, record.value));
  }

  // The witnesses found in the leaf on the key's track make an accepted proof.
  lemma ScanIsAccepted(log: seq<Object>, request: Request, key: Key, root: Root, t: Tree, path: seq<Witness>,
                       offset: nat,
                       sub: Tree, low: Key, p: Proof)
    requires Held(log, root, t) && Addressed(request, root) && EncodeKey(request.key) == Ok(key)
             && request.pendingId != 0
    requires OnTrack(log, root, t, key, path, offset, sub, low) && sub.level == 0 && |sub.items| <= FANOUT
    requires var (lower, upper, hit) := Neighbours(NodeOf(sub), key);
      p == Proof(request, root, path, lower, upper, |sub.items|)
    ensures Verify(request, p, root).Ok?
  {
    hide Rank, RootDigest, SameBelow, TreeDigest, Valid;
    assert forall i :: 0 <= i < |sub.items| ==> sub.items[i].length <= MAX_RECORD_BYTES;
    LeafIsComplete(sub, low, key, request.candidate, p);
  }

  // The leaf on the key's track holds the key's item exactly when the directory does.
  lemma ScanDecides(log: seq<Object>, key: Key, root: Root, t: Tree, path: seq<Witness>, offset: nat, sub: Tree,
                    low: Key)
    requires Held(log, root, t)
    requires OnTrack(log, root, t, key, path, offset, sub, low) && sub.level == 0 && |sub.items| <= FANOUT
    ensures var (lower, _, hit) := Neighbours(NodeOf(sub), key);
      && (hit <==> key in Directory(t))
      && (hit <==> lower.Some? && Compare(lower.value.item.upper, key) == Eq)
      && (hit ==> Directory(t)[key] == lower.value.item.digest && ReadRecord(log, lower.value.item).Ok?)
  {
    hide NodeDigest, RootDigest, Valid, ValidOrigin;
    var m := Below(sub.items, key, 0);
    PageFits(sub, low);
    assert Valid(t, []);
    DirectoryHolds(t, key);
    if m > 0 { KeysAreOrdered(sub.items[m - 1].upper, key); }
    if m < |sub.items| { KeysAreOrdered(sub.items[m].upper, key); }
    if m < |sub.items| && Compare(sub.items[m].upper, key) == Eq {
      assert sub.items[m] in Flat(sub);
      assert ReadRecord(log, sub.items[m]).Ok?;
      assert WitnessFor(NodeOf(sub), m).item == sub.items[m];
    } else {
      Between(sub.items, m, key);
      if m > 0 { assert WitnessFor(NodeOf(sub), m - 1).item == sub.items[m - 1]; }
    }
  }

  lemma ScanAnswers(log: seq<Object>, request: Request, key: Key, root: Root, t: Tree, path: seq<Witness>, offset: nat,
                    sub: Tree, low: Key, p: Proof, record: seq<byte>)
    requires Held(log, root, t) && Addressed(request, root) && EncodeKey(request.key) == Ok(key)
    requires OnTrack(log, root, t, key, path, offset, sub, low) && sub.level == 0 && |sub.items| <= FANOUT
    requires var (lower, upper, hit) := Neighbours(NodeOf(sub), key);
      && p == Proof(request, root, path, lower, upper, |sub.items|)
      && (hit ==> lower.Some? && ReadRecord(log, lower.value.item) == Ok(record))
    ensures Answers(LookupResult(p, record), request, key, root, t)
  {
    hide Neighbours, NodeDigest, OnTrack, Valid, ValidOrigin, ValidRoot;
    var (lower, upper, hit) := Neighbours(NodeOf(sub), key);
    ScanDecides(log, key, root, t, path, offset, sub, low);
    if request.pendingId != 0 {
      ScanIsAccepted(log, request, key, root, t, path, offset, sub, low, p);
      assert Valid(t, []) && root.treeDigest == TreeDigest(t);
      VerdictIsTrue(request, p, root, t);
    }
  }

  // For any proof object: an accepted proof together with a validated record
  // shows the very bytes the directory binds the key to.
  lemma RecordIsTrue(request: Request, result: LookupResult, root: Root, t: Tree)
    requires Valid(t, []) && root.treeDigest == TreeDigest(t)
    requires Verify(request, result.proof, root).Ok? && ValidateRecord(result).Ok?
    ensures EncodeKey(request.key).Ok? && EncodeKey(request.key).value in Directory(t)
    ensures Directory(t)[EncodeKey(request.key).value] == RecordHash(result.record)
  {
    hide TreeDigest, Valid, Walk;
    var p := result.proof;
    var digest := p.lower.value.item.digest;
    var asked := request.(candidate := digest);
    var proof := p.(request := asked);
    assert Verify(asked, proof, root) == Ok(Same);
    VerdictIsTrue(asked, proof, root, t);
  }
}
