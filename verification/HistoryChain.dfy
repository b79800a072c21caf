// Receipts of published batches and the chain of roots they make.
module HistoryChain {
  import opened Wrappers
  import opened HistoryKeys
  import opened HistoryDigests
  import opened HistoryProof

  datatype Receipt = Receipt(root: Root, previousRoot: Digest, qualificationDigest: Digest, batchDigest: Digest)

  function DigestBefore(previous: Option<Root>): Digest {
    match previous
    case Some(prior) => prior.rootDigest
    case None => Zero
  }

  function VerifyReceipt(r: Receipt, origin: Origin, qualification: Digest, previous: Option<Root>)
    : Result<Root, HistoryError>
  {
    if !ValidRoot(r.root) then Err(InvalidHistoryRoot)
    else if r.root.origin != origin
            || r.previousRoot != DigestBefore(previous) || r.root.previousRoot != DigestBefore(previous)
            || r.qualificationDigest != qualification || r.root.qualificationDigest != qualification
            || r.batchDigest != r.root.batchDigest then Err(InvalidHistoryReceipt)
    else
      match previous
      case None => if r.root.generation != 1 then Err(InvalidHistoryReceipt) else Ok(r.root)
      case Some(prior) =>
        if !ValidRoot(prior) then Err(InvalidHistoryRoot)
        else if prior.origin != origin then Err(InvalidHistoryReceipt)
        else if prior.generation == U64_MAX then Err(Overflow)
        else if r.root.generation != prior.generation + 1
                || r.root.barrier < prior.barrier || r.root.epoch < prior.epoch || r.root.floor < prior.floor
                || (prior.retired && !r.root.retired) then Err(InvalidHistoryReceipt)
        else Ok(r.root)
  }

  // Roots accepted one after the other for an origin, from no history at all.
  function Before(roots: seq<Root>, i: nat): Option<Root>
    requires i <= |roots|
  {
    if i == 0 then None else Some(roots[i - 1])
  }

  ghost predicate Accepted(receipts: seq<Receipt>, origin: Origin, roots: seq<Root>) {
    && |receipts| == |roots|
    && forall i :: 0 <= i < |roots| ==>
         VerifyReceipt(receipts[i], origin, receipts[i].qualificationDigest, Before(roots, i)) == Ok(roots[i])
  }

  lemma LinkAt(receipts: seq<Receipt>, origin: Origin, roots: seq<Root>, i: nat)
    requires Accepted(receipts, origin, roots) && i < |roots|
    ensures ValidRoot(roots[i]) && roots[i].origin == origin
    ensures roots[i].previousRoot == DigestBefore(Before(roots, i))
    ensures i == 0 ==> roots[i].generation == 1
    ensures i > 0 ==>
              && roots[i].generation == roots[i - 1].generation + 1
              && roots[i].barrier >= roots[i - 1].barrier
              && roots[i].epoch >= roots[i - 1].epoch
              && roots[i].floor >= roots[i - 1].floor
              && (roots[i - 1].retired ==> roots[i].retired)
    ensures receipts[i] == Receipt(roots[i], roots[i].previousRoot, roots[i].qualificationDigest, roots[i].batchDigest)
  {
    hide ValidRoot;
    assert VerifyReceipt(receipts[i], origin, receipts[i].qualificationDigest, Before(roots, i)) == Ok(roots[i]);
  }

  // Generations run from one without a gap.
  lemma {:induction false} GenerationsAreGapFree(receipts: seq<Receipt>, origin: Origin, roots: seq<Root>, i: nat)
    requires Accepted(receipts, origin, roots) && i < |roots|
    ensures roots[i].generation == i + 1
  {
    hide *;
    LinkAt(receipts, origin, roots, i);
    if i > 0 { GenerationsAreGapFree(receipts, origin, roots, i - 1); }
  }

  // Barrier, epoch and floor never fall and retirement is never undone.
  lemma {:induction false} RootsNeverGoBack(receipts: seq<Receipt>, origin: Origin, roots: seq<Root>, i: nat, j: nat)
    requires Accepted(receipts, origin, roots) && i <= j < |roots|
    ensures roots[i].barrier <= roots[j].barrier && roots[i].epoch <= roots[j].epoch
    ensures roots[i].floor <= roots[j].floor && (roots[i].retired ==> roots[j].retired)
    decreases j
  {
    hide *;
    if i < j {
      LinkAt(receipts, origin, roots, j);
      RootsNeverGoBack(receipts, origin, roots, i, j - 1);
    }
  }

  // The last root pins the whole history: two accepted histories that end in
  // the same root digest are the same, root by root.
  lemma {:induction false} LastRootPinsHistory(
    a: seq<Receipt>, origin: Origin, roots: seq<Root>, b: seq<Receipt>, other: Origin, others: seq<Root>)
    requires Accepted(a, origin, roots) && Accepted(b, other, others)
    requires roots != [] && others != []
    requires roots[|roots| - 1].rootDigest == others[|others| - 1].rootDigest
    ensures roots == others && a == b
    decreases |roots|
  {
    hide *;
    var m, n := |roots| - 1, |others| - 1;
    LastLink(a, origin, roots);
    LastLink(b, other, others);
    SameDigest(roots[m], others[n]);
    if m > 0 && n > 0 {
      LastRootPinsHistory(a[..m], origin, roots[..m], b[..n], other, others[..n]);
    }
    assert roots == roots[..m] + [roots[m]] && others == others[..n] + [others[n]];
    assert a == a[..m] + [a[m]] && b == b[..n] + [b[n]];
  }

  lemma SameDigest(a: Root, b: Root)
    requires ValidRoot(a) && ValidRoot(b) && a.rootDigest == b.rootDigest
    ensures a == b
  {
  }

  // The last root of a history and what it says about the one before.
  lemma LastLink(receipts: seq<Receipt>, origin: Origin, roots: seq<Root>)
    requires Accepted(receipts, origin, roots) && roots != []
    ensures var n := |roots| - 1;
      && |receipts| == |roots| && ValidRoot(roots[n])
      && receipts[n] == Receipt(roots[n], roots[n].previousRoot, roots[n].qualificationDigest, roots[n].batchDigest)
      && Accepted(receipts[..n], origin, roots[..n])
      && (n == 0 ==> roots[n].previousRoot == Zero)
      && (n > 0 ==> roots[n].previousRoot == roots[..n][n - 1].rootDigest && roots[n].previousRoot != Zero)
  {
    hide VerifyReceipt, ValidOrigin;
    var n := |roots| - 1;
    LinkAt(receipts, origin, roots, n);
    if n > 0 { LinkAt(receipts, origin, roots, n - 1); }
    Front(receipts, origin, roots);
  }

  lemma Front(receipts: seq<Receipt>, origin: Origin, roots: seq<Root>)
    requires Accepted(receipts, origin, roots) && roots != []
    ensures Accepted(receipts[..|roots| - 1], origin, roots[..|roots| - 1])
  {
    hide VerifyReceipt;
    var n := |roots| - 1;
    forall i | 0 <= i < n
      ensures VerifyReceipt(receipts[..n][i], origin, receipts[..n][i].qualificationDigest, Before(roots[..n],
          i)) == Ok(roots[..n][i])
    {
      assert Before(roots[..n], i) == Before(roots, i);
    }
  }
}
