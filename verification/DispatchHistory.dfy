// The history roots that the dispatch log binds to origins.
module DispatchHistory {
  import opened Bytes
  import opened Wrappers
  import opened HistoryKeys
  import opened HistoryProof
  import opened HistoryChain
  import opened DispatchTables

  // The receipt a fact brings for an origin, if it is about that origin's history.
  function ReceiptFor(f: Fact, origin: Source): Option<Receipt> {
    match f
    case Archive(commit) => if commit.origin == origin then Some(commit.receipt) else None
    case Economic(commit) => if commit.origin == origin then Some(commit.receipt) else None
    case _ => None
  }

  // The receipts that moved an origin's root, in log order.
  function Moves(log: seq<Fact>, origin: Source): seq<Receipt>
    decreases |log|
  {
    if log == [] then []
    else
      var n := |log| - 1;
      var before, r := Moves(log[..n], origin), ReceiptFor(log[n], origin);
      if r.None? || (before != [] && before[|before| - 1].root == r.value.root) then before else before + [r.value]
  }

  function Roots(receipts: seq<Receipt>): (roots: seq<Root>)
    ensures |roots| == |receipts|
  {
    seq(|receipts|, i requires 0 <= i < |receipts| => receipts[i].root)
  }

  function LastRoot(receipts: seq<Receipt>): Option<Root> {
    if receipts == [] then None else Some(receipts[|receipts| - 1].root)
  }

  lemma BoundAt(bindings: seq<Binding>, b: Binding, origin: Source)
    ensures PreviousRoot(Bound(bindings, b), origin)
            == if origin == b.origin then Some(b.root) else PreviousRoot(bindings, origin)
  {
    var after := Bound(bindings, b);
    var i, j, k := BindingIndex(bindings, b.origin), BindingIndex(after, origin), BindingIndex(bindings, origin);
    if origin == b.origin {
      assert after[i] == b;
      assert forall m :: 0 <= m < i ==> after[m] == bindings[m];
    } else {
      if k < |bindings| { assert after[k] == bindings[k]; }
      if j < |bindings| && j != i { assert after[j] == bindings[j]; }
    }
  }

  // A fact moves the root of the origin it is about, by an accepted receipt,
  // and no other.
  lemma FactMovesRoot(t: Tables, f: Fact, c: Config, origin: Source)
    requires Apply(t, f, c).Ok?
    ensures var before, after, r := PreviousRoot(t.bindings, origin), PreviousRoot(Apply(t, f, c).value.bindings,
        origin), ReceiptFor(f, origin);
      && (r.None? ==> after == before)
      && (r.Some? ==> after == Some(r.value.root))
      && (r.Some? && before != after ==>
            VerifyReceipt(r.value, r.value.root.origin, r.value.qualificationDigest, before) == Ok(r.value.root))
  {
    hide ValidPersisted, KeepAccepted, KeepUnknown, Pinned, Bound, PreviousRoot, ValidRoot;
    match f
    case Archive(commit) => BoundAt(t.bindings, Binding(commit.origin, commit.receipt.root, Some(commit)), origin);
    case Economic(commit) =>
      BoundAt(t.bindings, Binding(commit.origin, commit.receipt.root, LastOrder(t.bindings, commit.origin)), origin);
    case _ =>
  }

  lemma AcceptedGrows(receipts: seq<Receipt>, origin: Origin, r: Receipt)
    requires Accepted(receipts, origin, Roots(receipts))
    requires VerifyReceipt(r, origin, r.qualificationDigest, LastRoot(receipts)) == Ok(r.root)
    ensures Accepted(receipts + [r], origin, Roots(receipts + [r]))
  {
    hide Roots, VerifyReceipt;
    var longer, n := receipts + [r], |receipts|;
    RootsGrow(receipts, r);
    forall i | 0 <= i < n + 1
      ensures VerifyReceipt(longer[i], origin, longer[i].qualificationDigest, Before(Roots(longer),
          i)) == Ok(Roots(longer)[i])
    {
      if i < n {
        assert longer[i] == receipts[i];
        assert VerifyReceipt(receipts[i], origin, receipts[i].qualificationDigest, Before(Roots(receipts),
            i)) == Ok(Roots(receipts)[i]);
      }
    }
  }

  lemma RootsGrow(receipts: seq<Receipt>, r: Receipt)
    ensures var longer, n := receipts + [r], |receipts|;
      && Roots(longer)[n] == r.root && Before(Roots(longer), n) == LastRoot(receipts)
      && forall i :: 0 <= i < n ==>
           Roots(longer)[i] == Roots(receipts)[i] && Before(Roots(longer), i) == Before(Roots(receipts), i)
  {
  }

  // The history origin of an origin's receipts.
  function HistoryOrigin(receipts: seq<Receipt>, r: Receipt): Origin {
    if receipts == [] then r.root.origin else receipts[0].root.origin
  }

  // The root bound to an origin is always the end of an accepted chain of
  // receipts that starts from no history.
  lemma {:induction false} BoundRootEndsChain(log: seq<Fact>, c: Config, origin: Source)
    requires Replay(EMPTY, log, c).Ok?
    ensures var moves := Moves(log, origin);
      && PreviousRoot(Replay(EMPTY, log, c).value.bindings, origin) == LastRoot(moves)
      && (moves != [] ==> Accepted(moves, moves[0].root.origin, Roots(moves)))
    decreases |log|
  {
    hide VerifyReceipt, WithArchive, WithAttempt, WithEconomic;
    if log == [] {
      NoRoots(origin);
    } else {
      var n := |log| - 1;
      BoundRootEndsChain(log[..n], c, origin);
      var t, before, r := Replay(EMPTY, log[..n], c).value, Moves(log[..n], origin), ReceiptFor(log[n], origin);
      FactMovesRoot(t, log[n], c, origin);
      if r.Some? && LastRoot(before) != Some(r.value.root) {
        SameOrigin(before, r.value);
        assert before == [] ==> Accepted(before, r.value.root.origin, Roots(before));
        AcceptedGrows(before, HistoryOrigin(before, r.value), r.value);
      }
    }
  }

  lemma NoRoots(origin: Source)
    ensures PreviousRoot(EMPTY.bindings, origin) == None
  {
  }

  lemma SameOrigin(receipts: seq<Receipt>, r: Receipt)
    requires VerifyReceipt(r, r.root.origin, r.qualificationDigest, LastRoot(receipts)).Ok?
    requires receipts != [] ==> Accepted(receipts, receipts[0].root.origin, Roots(receipts))
    ensures HistoryOrigin(receipts, r) == r.root.origin
  {
    if receipts != [] {
      LinkAt(receipts, receipts[0].root.origin, Roots(receipts), |receipts| - 1);
    }
  }

  // So its generation counts the receipts without a gap, and no later receipt
  // lowers the barrier, epoch or floor or undoes retirement.
  lemma BoundRootIsCounted(log: seq<Fact>, c: Config, origin: Source, i: nat)
    requires Replay(EMPTY, log, c).Ok? && i < |Moves(log, origin)|
    ensures var moves := Moves(log, origin); var last := PreviousRoot(Replay(EMPTY, log, c).value.bindings, origin);
      && last.Some? && last.value.generation == |moves|
      && moves[i].root.generation == i + 1
      && moves[i].root.barrier <= last.value.barrier && moves[i].root.epoch <= last.value.epoch
      && moves[i].root.floor <= last.value.floor && (moves[i].root.retired ==> last.value.retired)
      && (i > 0 ==> moves[i].root.previousRoot == moves[i - 1].root.rootDigest)
  {
    hide Accepted, Moves, PreviousRoot;
    BoundRootEndsChain(log, c, origin);
    var moves := Moves(log, origin);
    var o, roots, n := moves[0].root.origin, Roots(moves), |moves| - 1;
    GenerationsAreGapFree(moves, o, roots, n);
    GenerationsAreGapFree(moves, o, roots, i);
    RootsNeverGoBack(moves, o, roots, i, n);
    LinkAt(moves, o, roots, i);
  }
}
