// When a lookup proof is accepted: every check of the verifier, stated on the
// whole path and the leaf instead of step by step.
module HistoryVerdicts {
  import opened Bytes
  import opened Wrappers
  import opened HistoryKeys
  import opened HistoryDigests
  import opened HistoryProof
  import opened HistoryChain

  // ----- Roots and requests

  lemma RootIsValid(r: Root)
    ensures ValidRoot(r) <==>
            && r.version == 2 && r.generation > 0 && r.barrier > 0 && r.epoch > 0 && OriginIsGood(r.origin)
            && r.rootDigest
               == RootHash(r.version, r.origin, r.generation, r.barrier, r.epoch, r.floor, r.retired, r.treeOffset,
                           r.treeDigest, r.previousRoot, r.batchDigest, r.qualificationDigest)
  {
  }

  // A nonzero stream of decisions or of control, for one account or for a fully
  // named decision domain.
  ghost predicate OriginIsGood(o: Origin) {
    && o.stream.id > 0 && (o.stream.domain == DecisionLog || o.stream.domain == Control)
    && match o.scope
       case AccountScope => o.account > 0
       case DomainScope(identity, deployment, epoch, configuration) =>
         o.account == 0 && o.stream.domain == DecisionLog && identity > 0 && deployment > 0 && epoch > 0
         && exists i :: 0 <= i < |configuration| && configuration[i] != 0
  }

  // ----- The path

  // The page a witness of the path is checked against.
  function Above(path: seq<Witness>, treeDigest: Digest, i: nat): Digest
    requires i <= |path|
  {
    if i == 0 then treeDigest else path[i - 1].item.digest
  }

  ghost predicate LastSlots(path: seq<Witness>, n: nat)
    requires n <= |path|
  {
    forall i :: 0 <= i < n ==> path[i].slot + 1 == path[i].count
  }

  // Levels fall by one, every witness reaches the digest its predecessor names,
  // the key lies above every lower separator, and beyond an upper separator only
  // in the last slot of that page and of every page before it.
  ghost predicate Linked(key: Key, path: seq<Witness>, treeDigest: Digest) {
    forall i :: 0 <= i < |path| ==> LinkedAt(key, path, treeDigest, i)
  }

  ghost predicate LinkedAt(key: Key, path: seq<Witness>, treeDigest: Digest, i: nat)
    requires i < |path|
  {
    var w := path[i];
    && w.level > 0 && (i > 0 ==> w.level + 1 == path[i - 1].level)
    && WitnessRoot(w) == Ok(Above(path, treeDigest, i))
    && (w.item.lower == [] || Compare(key, w.item.lower) == Gt)
    && (Compare(key, w.item.upper) != Gt || LastSlots(path, i + 1))
  }

  lemma {:induction false} WalkIsLinked(key: Key, path: seq<Witness>, treeDigest: Digest)
    ensures Walk(key, path, treeDigest, true, None).Ok? <==> Linked(key, path, treeDigest)
    ensures Linked(key, path, treeDigest) ==>
              Walk(key, path, treeDigest, true, None)
              == Ok(Reached(Above(path, treeDigest, |path|), LastSlots(path, |path|),
                            if path == [] then None else Some(path[|path| - 1].level)))
    decreases |path|
  {
    hide WitnessStep, LinkedAt;
    if path == [] {
    } else {
      var n := |path| - 1;
      var front, w := path[..n], path[n];
      WalkIsLinked(key, front, treeDigest);
      WalkLast(key, path, treeDigest, true, None);
      LinkedFront(key, path, treeDigest);
      if Linked(key, front, treeDigest) { LastLinks(key, path, treeDigest); }
    }
  }

  // The walk over a path is the walk over its front and one step more.
  lemma {:induction false} WalkLast(key: Key, path: seq<Witness>, expected: Digest, open: bool, previous: Option<u8>)
    requires path != []
    ensures var n := |path| - 1; var front := Walk(key, path[..n], expected, open, previous);
      Walk(key, path, expected, open, previous)
      == if front.Err? then front
         else Walk(key, [path[n]], front.value.expected, front.value.open, front.value.previous)
    decreases |path|
  {
    hide WitnessStep;
    var n := |path| - 1;
    if n == 0 {
      assert path == [path[0]] && path[..0] == [];
    } else {
      var w := path[0];
      assert path[..n][1..] == path[1..][..n - 1] && path[..n][0] == w;
      WalkLast(key, path[1..], w.item.digest, open && w.slot + 1 == w.count, Some(w.level));
    }
  }

  lemma LinkedFront(key: Key, path: seq<Witness>, treeDigest: Digest)
    requires path != []
    ensures var n := |path| - 1;
      Linked(key, path, treeDigest) <==> Linked(key, path[..n], treeDigest) && LinkedAt(key, path, treeDigest, n)
  {
    var n := |path| - 1;
    var front := path[..n];
    forall i | 0 <= i < n ensures LinkedAt(key, front, treeDigest, i) <==> LinkedAt(key, path, treeDigest, i) {
      assert forall j :: 0 <= j <= i ==> front[j] == path[j];
    }
  }

  lemma LastLinks(key: Key, path: seq<Witness>, treeDigest: Digest)
    requires path != []
    ensures var n := |path| - 1; var w := path[n];
      var open := LastSlots(path[..n], n);
      var previous := if n == 0 then None else Some(path[n - 1].level);
      && (LinkedAt(key, path, treeDigest, n) <==> WitnessStep(key, w, Above(path[..n], treeDigest, n), open, previous))
      && LastSlots(path, n + 1) == (open && w.slot + 1 == w.count)
  {
  }

  // ----- Witnesses and leaves

  lemma WitnessShape(w: Witness)
    ensures WitnessRoot(w).Ok? <==> 1 <= w.count <= 48 && w.slot < w.count && |w.item.upper| > 0
    ensures WitnessRoot(w).Err? ==> WitnessRoot(w).error == InvalidHistoryProof
  {
  }

  // A witness of a leaf that has the proof's number of items.
  ghost predicate OfLeaf(w: Witness, p: Proof, expected: Digest) {
    w.level == 0 && w.count == p.leafCount && WitnessRoot(w) == Ok(expected)
  }

  // The key is found exactly when the lower witness is the key's own item, of a
  // length a record can have, and there is no upper one.
  ghost predicate Found(key: Key, p: Proof, expected: Digest) {
    && p.leafCount > 0 && p.lower.Some? && p.upper.None?
    && OfLeaf(p.lower.value, p, expected) && p.lower.value.item.upper == key && p.lower.value.item.length <= 16 * 1024
  }

  // The key is absent exactly when the leaf is empty, or the witnesses are
  // neighbours on the two sides of the key, or the last item is below it, or the
  // first above it.
  ghost predicate Absent(key: Key, p: Proof, expected: Digest) {
    if p.leafCount == 0 then p.lower.None? && p.upper.None? && expected == NodeDigest(Node(0, []))
    else
      && (p.lower.Some? || p.upper.Some?)
      && (p.lower.Some? ==> OfLeaf(p.lower.value, p, expected) && Compare(p.lower.value.item.upper, key) == Lt)
      && (p.upper.Some? ==> OfLeaf(p.upper.value, p, expected) && Compare(p.upper.value.item.upper, key) == Gt)
      && (p.lower.Some? && p.upper.Some? ==> p.upper.value.slot == p.lower.value.slot + 1)
      && (p.upper.None? ==> p.lower.value.slot + 1 == p.lower.value.count)
      && (p.lower.None? ==> p.upper.value.slot == 0)
  }

  lemma LeafIsExact(key: Key, candidate: Digest, p: Proof, expected: Digest)
    ensures VerifyLeaf(key, candidate, p, expected)
            == if Found(key, p, expected) then Ok(Some(candidate == p.lower.value.item.digest))
               else if Absent(key, p, expected) then Ok(None) else Err(InvalidHistoryProof)
    ensures !(Found(key, p, expected) && Absent(key, p, expected))
  {
    hide Compare, WitnessRoot, NodeDigest;
    if p.lower.Some? { KeysAreOrdered(p.lower.value.item.upper, key); }
  }

  // ----- Verdicts

  // The verdict for every request, proof and root.
  lemma VerdictIsExact(request: Request, p: Proof, root: Root)
    requires ValidRoot(root) && EncodeKey(request.key).Ok?
    ensures var key := EncodeKey(request.key).value;
      var bottom := Above(p.path, root.treeDigest, |p.path|);
      var ours := && request == p.request && root == p.root && request.pendingId > 0
                  && request.key.origin == root.origin && request.rootDigest == root.rootDigest
                  && request.epoch == root.epoch && request.barrier == root.barrier
                  && |p.path| <= 8 && p.leafCount <= 48;
      var reached := ours && Linked(key, p.path, root.treeDigest) && (p.path == [] || p.path[|p.path| - 1].level == 1);
      && (Verify(request, p, root) == Ok(Same) <==>
            reached && Found(key, p, bottom) && request.candidate == p.lower.value.item.digest)
      && (Verify(request, p, root) == Ok(Conflict) <==>
            reached && Found(key, p, bottom) && request.candidate != p.lower.value.item.digest)
      && (Verify(request, p, root) == Ok(ProvenFirst) <==>
            reached && Absent(key, p, bottom) && !root.retired && root.floor == 0)
      && (Verify(request, p, root) == Ok(Expired) <==>
            reached && Absent(key, p, bottom) && (root.retired || root.floor > 0))
      && (Verify(request, p, root).Err? ==>
            Verify(request, p, root).error == InvalidHistoryProof || Verify(request, p, root).error == LevelOverflow)
  {
    hide ValidRoot, EncodeKey, Linked, Walk, VerifyLeaf, NodeDigest, WitnessRoot, Compare;
    var key := EncodeKey(request.key).value;
    WalkIsLinked(key, p.path, root.treeDigest);
    LeafIsExact(key, request.candidate, p, Above(p.path, root.treeDigest, |p.path|));
  }

  // The refusals before the path is looked at, in order.
  lemma RefusalIsExact(request: Request, p: Proof, root: Root)
    ensures !ValidRoot(root) ==> Verify(request, p, root) == Err(InvalidHistoryRoot)
    ensures ValidRoot(root) && !(request == p.request && root == p.root && request.pendingId > 0
                                 && request.key.origin == root.origin && request.rootDigest == root.rootDigest
                                 && request.epoch == root.epoch && request.barrier == root.barrier
                                 && |p.path| <= 8 && p.leafCount <= 48) ==>
              Verify(request, p, root) == Err(InvalidHistoryProof)
    ensures EncodeKey(request.key).Err? && Verify(request, p, root).Err? ==>
              Verify(request, p, root).error in {InvalidHistoryRoot, InvalidHistoryProof, InvalidHistoryKey}
  {
    hide ValidRoot, EncodeKey, Walk, VerifyLeaf;
  }

  // ----- Receipts

  lemma ReceiptIsExact(r: Receipt, origin: Origin, qualification: Digest,
                       previous: Option<Root>)
    ensures VerifyReceipt(r, origin, qualification, previous).Ok? <==> Continuing(r, origin, qualification, previous)
    ensures VerifyReceipt(r, origin, qualification, previous).Ok? ==>
              VerifyReceipt(r, origin, qualification, previous).value == r.root
  {
    hide ValidRoot;
  }

  // A valid root of the origin with the receipt's digests, that begins a history
  // or continues the previous root by one generation and takes nothing back.
  ghost predicate Continuing(r: Receipt, origin: Origin, qualification: Digest,
                             previous: Option<Root>) {
    && ValidRoot(r.root) && r.root.origin == origin
    && r.qualificationDigest == qualification && r.root.qualificationDigest == qualification
    && r.batchDigest == r.root.batchDigest && r.previousRoot == r.root.previousRoot
    && match previous
       case None => r.root.generation == 1 && r.root.previousRoot == Zero
       case Some(prior) =>
         && ValidRoot(prior) && prior.origin == origin && r.root.previousRoot == prior.rootDigest
         && prior.generation < 0xFFFF_FFFF_FFFF_FFFF && r.root.generation == prior.generation + 1
         && r.root.barrier >= prior.barrier && r.root.epoch >= prior.epoch && r.root.floor >= prior.floor
         && (prior.retired ==> r.root.retired)
  }
}
