// A history published batch after batch, with anything written in between.
module HistoryRuns {
  import opened Wrappers
  import opened HistoryKeys
  import opened HistoryDigests
  import opened HistoryTree
  import opened HistoryProof
  import opened HistoryChain
  import opened HistoryStore
  import opened HistoryPublish

  // One publish: the store before and after it, and the new root's tree.
  datatype Step = Step(batch: Publication, receipt: Receipt, start: seq<Object>, end: seq<Object>, tree: Tree)

  function TreeBefore(run: seq<Step>, i: nat): Tree
    requires i <= |run|
  {
    if i == 0 then EMPTY_TREE else run[i - 1].tree
  }

  function RootBefore(run: seq<Step>, i: nat): Option<Root>
    requires i <= |run|
  {
    if i == 0 then None else Some(run[i - 1].receipt.root)
  }

  // The first batch continues nothing, every other one the root before it.
  ghost predicate StepAt(run: seq<Step>, i: nat)
    requires i < |run|
  {
    var s := run[i];
    && s.batch.previousRoot == RootBefore(run, i) && (i > 0 ==> run[i - 1].end <= s.start)
    && Published(s.start, s.end, s.batch, s.receipt, TreeBefore(run, i), s.tree)
  }

  ghost predicate History(run: seq<Step>) { forall i :: 0 <= i < |run| ==> StepAt(run, i) }

  // Some batch up to i binds the key to the digest.
  ghost predicate Says(run: seq<Step>, i: nat, key: Key, digest: Digest)
    requires i < |run|
  {
    exists j: nat :: j <= i && Adds(run[j].batch, key, digest)
  }

  lemma {:induction false} StepHolds(run: seq<Step>, i: nat)
    requires History(run) && i < |run|
    ensures Held(run[i].end, run[i].receipt.root, run[i].tree) && SoundBatch(run[i].batch)
    ensures Extended(Directory(TreeBefore(run, i)), Directory(run[i].tree), run[i].batch)
  {
    hide Held, Extended, Published, SoundBatch, Directory, Starts;
    if i > 0 { StepHolds(run, i - 1); }
    assert StepAt(run, i);
    StepStarts(run, i);
    PublishedExtends(run[i].start, run[i].end, run[i].batch, run[i].receipt, TreeBefore(run, i), run[i].tree);
  }

  lemma StepStarts(run: seq<Step>, i: nat)
    requires i < |run| && StepAt(run, i)
    requires i > 0 ==> Held(run[i - 1].end, run[i - 1].receipt.root, run[i - 1].tree)
    ensures Starts(run[i].start, run[i].batch.previousRoot, TreeBefore(run, i))
  {
    hide Held, Published;
    if i > 0 { OlderRootsStay(run[i - 1].end, run[i].start, run[i - 1].receipt.root, run[i - 1].tree); }
  }

  lemma PublishedExtends(log: seq<Object>, longer: seq<Object>, b: Publication, r: Receipt, before: Tree, after: Tree)
    requires Published(log, longer, b, r, before, after) && Starts(log, b.previousRoot, before)
    ensures Held(longer, r.root, after) && SoundBatch(b) && Extended(Directory(before), Directory(after), b)
  {
    hide Held, Extended, SoundBatch, Directory, Starts;
  }

  lemma {:induction false} StoreGrows(run: seq<Step>, i: nat, j: nat)
    requires History(run) && i <= j < |run|
    ensures run[i].end <= run[j].end
    decreases j
  {
    hide Held, Extended, Continues, Repeats, SoundBatch, Starts;
    if i < j {
      StoreGrows(run, i, j - 1);
      assert StepAt(run, j);
    }
  }

  // Every root ever reached still has its whole tree, whatever was written later.
  lemma EveryRootStays(run: seq<Step>, i: nat, log: seq<Object>)
    requires History(run) && i < |run| && run[|run| - 1].end <= log
    ensures Held(log, run[i].receipt.root, run[i].tree)
  {
    hide *;
    StepHolds(run, i);
    StoreGrows(run, i, |run| - 1);
    OlderRootsStay(run[i].end, log, run[i].receipt.root, run[i].tree);
  }

  ghost predicate Bound(directory: map<Key, Digest>, key: Key, digest: Digest) {
    key in directory && directory[key] == digest
  }

  ghost predicate Adds(b: Publication, key: Key, digest: Digest) {
    SoundBatch(b) && exists e: nat :: e < |b.entries| && EntryKey(b, e) == key && EntryDigest(b, e) == digest
  }

  lemma ExtendedBinds(before: map<Key, Digest>, after: map<Key, Digest>, b: Publication, key: Key, digest: Digest)
    requires SoundBatch(b) && Extended(before, after, b)
    ensures Bound(after, key, digest) <==> Bound(before, key, digest) || Adds(b, key, digest)
  {
    hide SoundBatch, EntryKey, EntryDigest;
  }

  // A root's directory binds exactly what the batches up to it say: nothing is
  // lost, changed or made up on the way.
  lemma {:induction false} DirectoryIsHistory(run: seq<Step>, i: nat, key: Key, digest: Digest)
    requires History(run) && i < |run|
    ensures Bound(Directory(run[i].tree), key, digest) <==> Says(run, i, key, digest)
  {
    hide Held, SoundBatch, Adds, Extended, Bound, Directory, Published;
    StepHolds(run, i);
    ExtendedBinds(Directory(TreeBefore(run, i)), Directory(run[i].tree), run[i].batch, key, digest);
    if i > 0 {
      DirectoryIsHistory(run, i - 1, key, digest);
      assert Says(run, i, key, digest) <==> Says(run, i - 1, key, digest) || Adds(run[i].batch, key, digest);
    } else {
      NothingAtFirst(key, digest);
      assert Says(run, 0, key, digest) <==> Adds(run[0].batch, key, digest);
    }
  }

  lemma NothingAtFirst(key: Key, digest: Digest)
    ensures !Bound(Directory(EMPTY_TREE), key, digest)
  {
  }

  // ----- The receipts

  function Receipts(run: seq<Step>): seq<Receipt> { seq(|run|, i requires 0 <= i < |run| => run[i].receipt) }
  function Roots(run: seq<Step>): seq<Root> { seq(|run|, i requires 0 <= i < |run| => run[i].receipt.root) }

  // The receipts are an accepted chain, and checking any of them against its
  // batch succeeds at any later time.
  lemma ReceiptsAreAccepted(run: seq<Step>)
    requires History(run) && run != []
    ensures Accepted(Receipts(run), run[0].batch.origin, Roots(run))
    ensures forall i :: 0 <= i < |run| ==>
              && Continues(run[i].receipt, run[i].batch) && SoundBatch(run[i].batch)
              && Covered(Directory(run[i].tree), run[i].batch)
  {
    hide Held, Repeats, SoundBatch, Starts, Covered, Extended, VerifyReceipt;
    forall i | 0 <= i < |run|
      ensures Continues(run[i].receipt, run[i].batch) && SoundBatch(run[i].batch)
      ensures Covered(Directory(run[i].tree), run[i].batch)
      ensures VerifyReceipt(Receipts(run)[i], run[0].batch.origin, Receipts(run)[i].qualificationDigest,
                            Before(Roots(run), i)) == Ok(Roots(run)[i])
    {
      assert StepAt(run, i);
      StepHolds(run, i);
      PublishedIsCovered(Directory(TreeBefore(run, i)), Directory(run[i].tree), run[i].batch);
      OneOrigin(run, i);
      ContinuesAs(run[i].receipt, run[i].batch);
      assert Before(Roots(run), i) == run[i].batch.previousRoot;
    }
  }

  lemma ContinuesAs(r: Receipt, b: Publication)
    requires Continues(r, b)
    ensures r.root.origin == b.origin && r.qualificationDigest == b.qualificationDigest
    ensures VerifyReceipt(r, b.origin, b.qualificationDigest, b.previousRoot) == Ok(r.root)
    ensures b.previousRoot.Some? ==> b.previousRoot.value.origin == b.origin
  {
    hide ValidRoot, BatchDigest;
  }

  lemma {:induction false} OneOrigin(run: seq<Step>, i: nat)
    requires History(run) && i < |run|
    ensures run[i].batch.origin == run[0].batch.origin
  {
    hide Held, Repeats, SoundBatch, Starts, Extended, VerifyReceipt, Continues;
    assert StepAt(run, i);
    ContinuesAs(run[i].receipt, run[i].batch);
    if i > 0 {
      assert StepAt(run, i - 1);
      OneOrigin(run, i - 1);
      ContinuesAs(run[i - 1].receipt, run[i - 1].batch);
    }
  }
}
