// Roots of the order-history directory, lookup proofs, and their verification
// without any access to storage.
module HistoryProof {
  import opened Bytes
  import opened Wrappers
  import opened HistoryKeys
  import opened HistoryDigests
  import opened HistoryTree

  const MAX_DEPTH: nat := 8
  const MAX_RECORD_BYTES: nat := 16 * 1024
  const U64_MAX: nat := 0xFFFF_FFFF_FFFF_FFFF

  datatype Root = Root(
    version: u16, origin: Origin, generation: u64, barrier: u64, epoch: u64, floor: u64, retired: bool,
    treeOffset: nat, treeDigest: Digest, previousRoot: Digest, batchDigest: Digest, qualificationDigest: Digest,
    rootDigest: Digest)

  datatype Request = Request(
    pendingId: u128, key: HistoryKey, candidate: Digest, originalInput: Digest, rootDigest: Digest,
    epoch: u64, barrier: u64)

  datatype Proof = Proof(
    request: Request, root: Root, path: seq<Witness>, lower: Option<Witness>, upper: Option<Witness>, leafCount: u8)

  datatype Verdict = Same | Conflict | ProvenFirst | Expired

  // ----- Roots

  function RootDigest(r: Root): Digest {
    RootHash(r.version, r.origin, r.generation, r.barrier, r.epoch, r.floor, r.retired, r.treeOffset, r.treeDigest,
             r.previousRoot, r.batchDigest, r.qualificationDigest)
  }

  predicate ValidRoot(r: Root) {
    && r.version == 2 && ValidOrigin(r.origin)
    && r.generation != 0 && r.barrier != 0 && r.epoch != 0
    && r.rootDigest == RootDigest(r)
  }

  // ----- Verification

  // A level above the greatest there is, asked of every witness but the first.
  predicate LevelOverflows(w: Witness, previous: Option<u8>) { previous.Some? && w.level == 255 }

  predicate WitnessStep(key: Key, w: Witness, expected: Digest, open: bool, previous: Option<u8>): (ok: bool)
    ensures ok ==> !LevelOverflows(w, previous)
  {
    && w.level != 0 && (previous.Some? ==> w.level + 1 == previous.value)
    && WitnessRoot(w) == Ok(expected)
    && (w.item.lower != [] ==> Compare(key, w.item.lower) == Gt)
    && (Compare(key, w.item.upper) == Gt ==> open && w.slot + 1 == w.count)
  }

  // Where a path of branch witnesses leads: the digest of the next page,
  // whether only last slots were taken, and the level of the last witness.
  datatype Reached = Reached(expected: Digest, open: bool, previous: Option<u8>)

  function Walk(key: Key, path: seq<Witness>, expected: Digest, open: bool, previous: Option<u8>)
    : (r: Result<Reached, HistoryError>)
    ensures r.Err? ==> r.error == InvalidHistoryProof || r.error == LevelOverflow
    decreases |path|
  {
    if path == [] then Ok(Reached(expected, open, previous))
    else if LevelOverflows(path[0], previous) then Err(LevelOverflow)
    else if !WitnessStep(key, path[0], expected, open, previous) then Err(InvalidHistoryProof)
    else
      var w := path[0];
      Walk(key, path[1..], w.item.digest, open && w.slot + 1 == w.count, Some(w.level))
  }

  predicate LeafWitness(w: Witness, leafCount: u8, expected: Digest) {
    w.level == 0 && w.count == leafCount && WitnessRoot(w) == Ok(expected)
  }

  // Some(true) when the leaf binds the key to the candidate, Some(false) when it
  // binds it to something else, None when the leaf lacks the key.
  function VerifyLeaf(key: Key, candidate: Digest, p: Proof, expected: Digest)
    : (r: Result<Option<bool>, HistoryError>)
    ensures r.Err? ==> r.error == InvalidHistoryProof
  {
    if p.leafCount == 0 then
      if p.lower.Some? || p.upper.Some?
          || expected != NodeDigest(Node(0, [])) then Err(InvalidHistoryProof) else Ok(None)
    else if p.lower.None? && p.upper.None? then Err(InvalidHistoryProof)
    else if p.lower.Some?
            && (!LeafWitness(p.lower.value, p.leafCount, expected) || Compare(p.lower.value.item.upper, key) == Gt) then
      Err(InvalidHistoryProof)
    else if p.lower.Some? && Compare(p.lower.value.item.upper, key) == Eq then
      if p.upper.Some? || p.lower.value.item.length > MAX_RECORD_BYTES then Err(InvalidHistoryProof)
      else Ok(Some(candidate == p.lower.value.item.digest))
    else if p.upper.Some?
            && (!LeafWitness(p.upper.value, p.leafCount, expected) || Compare(p.upper.value.item.upper, key) != Gt) then
      Err(InvalidHistoryProof)
    else if p.lower.Some? && p.upper.Some? && p.upper.value.slot != p.lower.value.slot + 1 then Err(InvalidHistoryProof)
    else if p.lower.Some? && p.upper.None?
        && p.lower.value.slot + 1 != p.lower.value.count then Err(InvalidHistoryProof)
    else if p.lower.None? && p.upper.value.slot != 0 then Err(InvalidHistoryProof)
    else Ok(None)
  }

  predicate Matches(request: Request, p: Proof, root: Root) {
    && request == p.request && root == p.root
    && request.key.origin == root.origin && request.rootDigest == root.rootDigest
    && request.epoch == root.epoch && request.barrier == root.barrier
    && request.pendingId != 0 && |p.path| <= MAX_DEPTH && p.leafCount <= FANOUT
  }

  function Verify(request: Request, p: Proof, root: Root): Result<Verdict, HistoryError> {
    if !ValidRoot(root) then Err(InvalidHistoryRoot)
    else if !Matches(request, p, root) then Err(InvalidHistoryProof)
    else
      var key :- EncodeKey(request.key);
      var reached :- Walk(key, p.path, root.treeDigest, true, None);
      if reached.previous.Some? && reached.previous.value != 1 then Err(InvalidHistoryProof)
      else
        var found :- VerifyLeaf(key, request.candidate, p, reached.expected);
        Ok(match found
           case Some(same) => if same then Same else Conflict
           case None => if root.retired || root.floor != 0 then Expired else ProvenFirst)
  }

  method VerifyPath(key: Key, path: seq<Witness>, treeDigest: Digest) returns (r: Result<Reached, HistoryError>)
    ensures r == Walk(key, path, treeDigest, true, None)
  {
    var expected, open := treeDigest, true;
    var previous: Option<u8> := None;
    for i := 0 to |path|
      invariant Walk(key, path, treeDigest, true, None) == Walk(key, path[i..], expected, open, previous)
    {
      var w := path[i];
      assert path[i..][1..] == path[i + 1..];
      var computed := ComputeWitnessRoot(w);
      if previous.Some? && w.level == 255 { return Err(LevelOverflow); }
      if w.level == 0 || (previous.Some? && w.level + 1 != previous.value) || computed != Ok(expected)
         || (w.item.lower != [] && Compare(key, w.item.lower) != Gt)
         || (Compare(key, w.item.upper) == Gt && !(open && w.slot + 1 == w.count)) {
        return Err(InvalidHistoryProof);
      }
      open := open && w.slot + 1 == w.count;
      expected, previous := w.item.digest, Some(w.level);
    }
    return Ok(Reached(expected, open, previous));
  }

  // A verdict is given only for the proof made for this very request and root.
  method VerifyResult(request: Request, p: Proof, root: Root) returns (r: Result<Verdict, HistoryError>)
    ensures r == Verify(request, p, root)
    ensures ValidRoot(root) && r != Err(InvalidHistoryProof) ==>
              && request == p.request && root == p.root && request.pendingId != 0
              && request.key.origin == root.origin && request.rootDigest == root.rootDigest
              && request.epoch == root.epoch && request.barrier == root.barrier
              && |p.path| <= 8 && p.leafCount <= 48
    ensures !ValidRoot(root) <==> r == Err(InvalidHistoryRoot)
  {
    hide ValidRoot, EncodeKey, Walk, WitnessRoot, NodeDigest, Compare;
    if !ValidRoot(root) { return Err(InvalidHistoryRoot); }
    if !Matches(request, p, root) { return Err(InvalidHistoryProof); }
    var encoded := EncodeKey(request.key);
    if encoded.Err? { return Err(encoded.error); }
    var key := encoded.value;
    var reached := VerifyPath(key, p.path, root.treeDigest);
    if reached.Err? { return Err(reached.error); }
    var expected, previous := reached.value.expected, reached.value.previous;
    if previous.Some? && previous.value != 1 { return Err(InvalidHistoryProof); }
    if p.leafCount == 0 {
      var empty := DigestOf(Node(0, []));
      if p.lower.Some? || p.upper.Some? || expected != empty { return Err(InvalidHistoryProof); }
    } else {
      if p.lower.None? && p.upper.None? { return Err(InvalidHistoryProof); }
      if p.lower.Some? {
        var lower := p.lower.value;
        var computed := ComputeWitnessRoot(lower);
        if lower.level != 0 || lower.count != p.leafCount || computed != Ok(expected)
            || Compare(lower.item.upper, key) == Gt {
          return Err(InvalidHistoryProof);
        }
        if Compare(lower.item.upper, key) == Eq {
          if p.upper.Some? || lower.item.length > MAX_RECORD_BYTES { return Err(InvalidHistoryProof); }
          return Ok(if request.candidate == lower.item.digest then Same else Conflict);
        }
      }
      if p.upper.Some? {
        var upper := p.upper.value;
        var computed := ComputeWitnessRoot(upper);
        if upper.level != 0 || upper.count != p.leafCount || computed != Ok(expected)
            || Compare(upper.item.upper, key) != Gt {
          return Err(InvalidHistoryProof);
        }
      }
      if p.lower.Some? {
        if p.upper.Some? {
          if p.upper.value.slot != p.lower.value.slot + 1 { return Err(InvalidHistoryProof); }
        } else if p.lower.value.slot + 1 != p.lower.value.count {
          return Err(InvalidHistoryProof);
        }
      } else if p.upper.value.slot != 0 {
        return Err(InvalidHistoryProof);
      }
    }
    return Ok(if root.retired || root.floor != 0 then Expired else ProvenFirst);
  }

  // ----- A level that leaves eight bits

  // The witnesses before are accepted and the next, not the first, names level 255.
  ghost predicate ForgedLevel(key: Key, path: seq<Witness>, treeDigest: Digest) {
    exists k :: OverflowsAt(key, path, k, treeDigest, true, None)
  }

  // A witness of level 255 stops the walk that has got as far as it.
  ghost predicate OverflowsAt(key: Key, path: seq<Witness>, k: int, expected: Digest, open: bool,
                              previous: Option<u8>) {
    0 <= k < |path| && path[k].level == 255 && (k > 0 || previous.Some?)
    && Walk(key, path[..k], expected, open, previous).Ok?
  }

  lemma OverflowsLater(key: Key, path: seq<Witness>, k: nat, expected: Digest, open: bool, previous: Option<u8>)
    requires path != [] && WitnessStep(key, path[0], expected, open, previous) && k > 0
    ensures var w := path[0];
      OverflowsAt(key, path, k, expected, open, previous)
      <==> OverflowsAt(key, path[1..], k - 1, w.item.digest, open && w.slot + 1 == w.count, Some(w.level))
  {
    hide WitnessStep;
    if k < |path| { assert path[..k][1..] == path[1..][..k - 1] && path[..k][0] == path[0]; }
  }

  lemma {:induction false} WalkOverflows(key: Key, path: seq<Witness>, expected: Digest, open: bool,
                                         previous: Option<u8>)
    ensures Walk(key, path, expected, open, previous) == Err(LevelOverflow)
            <==> exists k :: OverflowsAt(key, path, k, expected, open, previous)
    decreases |path|
  {
    hide WitnessStep;
    if path == [] {
    } else if LevelOverflows(path[0], previous) {
      assert path[..0] == [] && OverflowsAt(key, path, 0, expected, open, previous);
    } else if WitnessStep(key, path[0], expected, open, previous) {
      var w := path[0];
      var onward := open && w.slot + 1 == w.count;
      WalkOverflows(key, path[1..], w.item.digest, onward, Some(w.level));
      forall k: nat | k > 0
        ensures OverflowsAt(key, path, k, expected, open, previous)
                <==> OverflowsAt(key, path[1..], k - 1, w.item.digest, onward, Some(w.level))
      {
        OverflowsLater(key, path, k, expected, open, previous);
      }
      if k :| OverflowsAt(key, path[1..], k, w.item.digest, onward, Some(w.level)) {
        assert OverflowsAt(key, path, k + 1, expected, open, previous);
      }
    } else {
      forall k: nat ensures !OverflowsAt(key, path, k, expected, open, previous) {
        if 0 < k < |path| { assert path[..k][0] == path[0]; }
      }
    }
  }

  lemma ForgedBehind(key: Key, first: Witness, forged: Witness, treeDigest: Digest)
    requires WitnessStep(key, first, treeDigest, true, None) && forged.level == 255
    ensures ForgedLevel(key, [first, forged], treeDigest)
  {
    hide WitnessStep;
    var path := [first, forged];
    assert path[..1] == [first] && [first][1..] == [] && path[1].level == 255;
    assert Walk(key, [], first.item.digest, first.slot + 1 == first.count, Some(first.level)).Ok?;
    assert OverflowsAt(key, path, 1, treeDigest, true, None);
  }

  // Checking a proof overflows exactly on a forged level behind accepted witnesses.
  lemma OverflowIsExact(request: Request, p: Proof, root: Root)
    ensures Verify(request, p, root) == Err(LevelOverflow) <==>
            && ValidRoot(root) && Matches(request, p, root) && EncodeKey(request.key).Ok?
            && ForgedLevel(EncodeKey(request.key).value, p.path, root.treeDigest)
  {
    hide ValidRoot, Matches, Walk, VerifyLeaf;
    if EncodeKey(request.key).Ok? { WalkOverflows(EncodeKey(request.key).value, p.path, root.treeDigest, true, None); }
  }

  // ----- Soundness

  // What the directory itself says about a key.
  function Answer(directory: map<Key, Digest>, key: Key, candidate: Digest, forgetful: bool): Verdict {
    if key in directory then if directory[key] == candidate then Same else Conflict
    else if forgetful then Expired
    else ProvenFirst
  }

  function Forgetful(root: Root): bool { root.retired || root.floor != 0 }

  ghost predicate SameBelow(t: Tree, sub: Tree, key: Key) {
    forall x: Item :: x.upper == key ==> (x in Flat(t) <==> x in Flat(sub))
  }

  lemma PageFits(t: Tree, lo: Key)
    requires Valid(t, lo)
    ensures |t.items| <= FANOUT && Sorted(t.items) && TreeDigest(t) == NodeDigest(NodeOf(t))
    ensures t.level == 0 ==> Flat(t) == t.items
  {
    hide At, NodeDigest, Forest;
  }

  // A witness accepted for a valid page is that page's own.
  lemma PageWitness(t: Tree, lo: Key, w: Witness)
    requires Valid(t, lo) && WitnessRoot(w) == Ok(TreeDigest(t))
    ensures w.level == t.level && w.count == |t.items| && w.slot < |t.items| && w.item == t.items[w.slot]
  {
    PageFits(t, lo);
    WitnessIsSound(NodeOf(t), w);
  }

  // A witness that matches a valid page names one of its children, and the key
  // can only occur below that child.
  lemma StepIsSound(t: Tree, lo: Key, key: Key, w: Witness, open: bool, previous: Option<u8>)
    requires Valid(t, lo) && At(lo) < At(key)
    requires WitnessStep(key, w, TreeDigest(t), open, previous)
    ensures w.slot < |t.items| == |t.children| && w.item.digest == TreeDigest(t.children[w.slot])
    ensures Valid(t.children[w.slot], w.item.lower) && At(w.item.lower) < At(key)
    ensures SameBelow(t, t.children[w.slot], key)
    ensures t.level == w.level == t.children[w.slot].level + 1
  {
    PageWitness(t, lo, w);
    BranchShape(t, lo, w.slot);
    KeysAreOrdered(key, w.item.lower);
    KeysAreOrdered(key, w.item.upper);
    KeysAreOrdered(w.item.lower, key);
    forall x: Item | x.upper == key
      ensures x in Flat(t) <==> x in Flat(t.children[w.slot])
    {
      ChildDecides(t, lo, w.slot, x);
    }
    ChildDecides(t, lo, w.slot, w.item.(upper := key));
  }

  lemma {:induction false} WalkIsSound(t: Tree, lo: Key, key: Key, path: seq<Witness>, open: bool,
                                       previous: Option<u8>)
      returns (sub: Tree, low: Key)
    requires Valid(t, lo) && At(lo) < At(key)
    requires Walk(key, path, TreeDigest(t), open, previous).Ok?
    ensures Valid(sub, low) && At(low) < At(key)
    ensures Walk(key, path, TreeDigest(t), open, previous).value.expected == TreeDigest(sub)
    ensures SameBelow(t, sub, key)
    decreases |path|
  {
    hide At, Valid, TreeDigest, Flat, WitnessStep;
    if path == [] {
      sub, low := t, lo;
    } else {
      var w := path[0];
      StepIsSound(t, lo, key, w, open, previous);
      sub, low := WalkIsSound(t.children[w.slot], w.item.lower, key, path[1..], open
          && w.slot + 1 == w.count, Some(w.level));
    }
  }

  lemma LeafItem(t: Tree, lo: Key, key: Key, w: Witness)
    requires Valid(t, lo) && LeafWitness(w, w.count, TreeDigest(t))
    ensures w.count == |t.items| && w.slot < |t.items| && w.item == t.items[w.slot] && Flat(t) == t.items
    ensures Compare(w.item.upper, key).Lt? == (At(w.item.upper) < At(key))
    ensures Compare(w.item.upper, key).Gt? == (At(w.item.upper) > At(key))
    ensures Compare(w.item.upper, key).Eq? == (w.item.upper == key)
  {
    PageFits(t, lo);
    PageWitness(t, lo, w);
    KeysAreOrdered(w.item.upper, key);
  }

  // A key that falls between two neighbouring items is not among them.
  lemma Between(items: seq<Item>, m: nat, key: Key)
    requires Sorted(items) && m <= |items|
    requires m > 0 ==> Pos(items[m - 1]) < At(key)
    requires m < |items| ==> At(key) < Pos(items[m])
    ensures forall x :: x in items ==> x.upper != key
  {
    hide At;
  }

  // An accepted leaf check decides whether a leaf page holds the key.
  lemma LeafIsSound(t: Tree, lo: Key, key: Key, candidate: Digest, p: Proof)
    requires Valid(t, lo)
    requires VerifyLeaf(key, candidate, p, TreeDigest(t)).Ok?
    ensures var found := VerifyLeaf(key, candidate, p, TreeDigest(t)).value;
      && (found.None? ==> forall x :: x in Flat(t) ==> x.upper != key)
      && (found.Some? ==> exists x :: x in Flat(t) && x.upper == key && found.value == (candidate == x.digest))
  {
    hide Pow257, Rank, Valid, WitnessRoot;
    PageFits(t, lo);
    if p.leafCount == 0 {
      NodeDigestInjective(NodeOf(t), Node(0, []));
      return;
    }
    if p.lower.Some? {
      var w := p.lower.value;
      LeafItem(t, lo, key, w);
      assert w.item in Flat(t);
    }
    if VerifyLeaf(key, candidate, p, TreeDigest(t)).value.None? {
      if p.upper.Some? { LeafItem(t, lo, key, p.upper.value); }
      Between(t.items, if p.lower.Some? then p.lower.value.slot + 1 else 0, key);
    }
  }

  // Whatever the proof object, an accepted verdict is the directory's answer.
  lemma VerdictIsTrue(request: Request, p: Proof, root: Root, t: Tree)
    requires Valid(t, []) && root.treeDigest == TreeDigest(t)
    requires Verify(request, p, root).Ok?
    ensures EncodeKey(request.key).Ok?
    ensures Verify(request, p, root).value
            == Answer(Directory(t), EncodeKey(request.key).value, request.candidate, Forgetful(root))
  {
    hide Valid, TreeDigest, Walk, VerifyLeaf, Flat, Entries, Compare, At, Matches;
    var key := EncodeKey(request.key).value;
    KeysAreOrdered([], key);
    var sub, low := WalkIsSound(t, [], key, p.path, true, None);
    LeafIsSound(sub, low, key, request.candidate, p);
    DirectoryHolds(t, key);
  }

  // The directory binds a key exactly when some item below the root has it.
  lemma DirectoryHolds(t: Tree, key: Key)
    requires Valid(t, [])
    ensures key in Directory(t) <==> exists x :: x in Flat(t) && x.upper == key
    ensures forall x :: x in Flat(t) && x.upper == key ==> Directory(t)[key] == x.digest
  {
    ValidFlat(t, []);
    hide Valid, Flat, Entries, At;
    if key in Directory(t) { EntriesBound(Flat(t), key); }
    forall x | x in Flat(t) && x.upper == key
      ensures key in Directory(t) && Directory(t)[key] == x.digest
    {
      var i :| 0 <= i < |Flat(t)| && Flat(t)[i] == x;
      EntriesBind(Flat(t), i);
    }
  }
}
