// When a committed fact, a snapshot or a receipt is taken, condition by
// condition, and what it makes of the tables.
module DispatchDecisions {
  import opened Bytes
  import opened Wrappers
  import opened HistoryProof
  import opened HistoryChain
  import opened HistoryVerdicts
  import opened DispatchTables
  import opened DispatchSnapshot
  import HistoryDigests

  // ----- Proofs

  // A proof recovery takes: its context is its authority's, and nothing that
  // identifies it is zero.
  lemma PersistedIsExact(p: DispatchProof)
    ensures var a, c := p.command.authority, p.command;
      ValidPersisted(p) <==>
      && a.complete
      && p.context
         == Context(a.exchangeAccount, a.capability, a.instrumentRules, a.config, a.adapterSession, a.deadline)
      && p.origin.account == a.exchangeAccount && p.origin.portfolio == a.virtualPortfolio
      && !(p.origin.decisionStream > 0 && p.origin.testShard > 0)
      && c.id > 0 && c.order > 0 && c.revision > 0 && c.intent > 0 && 1 <= |c.clientOrderId| <= 64
      && c.limitRules == a.instrumentRules
      && p.fencingToken == a.primaryLease && a.primaryLease > 0 && p.authorityBarrier > 0 && 1 <= p.now <= a.deadline
  {
  }

  // ----- Receipts

  lemma RootIsAccepted(previous: Option<Root>, r: Receipt, qualification: HistoryDigests.Digest)
    ensures AcceptsRoot(previous, r, qualification) <==>
            if previous == Some(r.root) then
              ValidRoot(r.root) && r.previousRoot == r.root.previousRoot && r.batchDigest == r.root.batchDigest
              && qualification == r.root.qualificationDigest
            else Continuing(r, r.root.origin, qualification, previous)
  {
    hide ValidRoot, VerifyReceipt, Continuing;
    ReceiptIsExact(r, r.root.origin, qualification, previous);
  }

  // ----- Facts

  function NameOf(p: DispatchProof): Key { Key(p.origin, p.context.account, p.command.id) }

  lemma AttemptDecides(t: Tables, p: DispatchProof, c: Config)
    ensures WithAttempt(t, p, c)
            == if (forall q :: q in t.accepted ==> NameOf(q) != NameOf(p))
                  && (forall u :: u in t.unknown ==> NameOf(u.proof) != NameOf(p))
                  && |t.accepted| + |t.unknown| < c.capacity
               then Ok(Tables(t.accepted, t.unknown + [Unknown(p, 0, None)], t.bindings))
               else Err(DurableDispatchUnavailable)
  {
    assert NameOf(p) == KeyOf(p);
    AcceptedHas(t.accepted, KeyOf(p));
    UnknownHas(t.unknown, KeyOf(p));
  }

  // An acceptance needs the identical, unresolved attempt of a configured route.
  lemma OutcomeDecides(t: Tables, p: DispatchProof, c: Config)
    requires Sound(t, c)
    ensures WithOutcome(t, p, c).Ok? <==>
            p.context.account in c.routes && exists u :: u in t.unknown && u.proof == p && u.reconciliation == 0
    ensures WithOutcome(t, p, c).Ok? ==>
              var after := WithOutcome(t, p, c).value;
              && after.accepted == t.accepted + [p] && after.bindings == t.bindings
              && exists i :: 0 <= i < |t.unknown| && t.unknown[i].proof == p
                             && after.unknown == t.unknown[..i] + t.unknown[i + 1..]
    ensures WithOutcome(t, p, c).Err? ==> WithOutcome(t, p, c).error == DurableDispatchUnavailable
  {
    hide BindingSound, UnknownSound;
    var i := UnknownIndex(t.unknown, KeyOf(p));
    if exists u :: u in t.unknown && u.proof == p && u.reconciliation == 0 {
      var j :| 0 <= j < |t.unknown| && t.unknown[j].proof == p && t.unknown[j].reconciliation == 0;
      assert i == j;
      assert !IsAccepted(t, KeyOf(p));
    }
    if i < |t.unknown| { assert t.unknown[i] in t.unknown; }
  }

  lemma ResolutionDecides(t: Tables, k: Key, reconciliation: u64, status: Status)
    requires DistinctUnknown(t.unknown)
    ensures WithResolution(t, k, reconciliation, status).Ok? <==>
            && reconciliation > 0 && status != Unresolved
            && exists u :: u in t.unknown && NameOf(u.proof) == k && u.reconciliation == 0
    ensures WithResolution(t, k, reconciliation, status).Ok? ==>
              exists i :: 0 <= i < |t.unknown| && NameOf(t.unknown[i].proof) == k &&
                          WithResolution(t, k, reconciliation, status).value
                          == t.(unknown := t.unknown[i := Unknown(t.unknown[i].proof, reconciliation, Some(status))])
    ensures WithResolution(t, k, reconciliation, status).Err? ==>
              WithResolution(t, k, reconciliation, status).error == DurableDispatchUnavailable
  {
    var i := UnknownIndex(t.unknown, k);
    if exists u :: u in t.unknown && NameOf(u.proof) == k && u.reconciliation == 0 {
      var j :| 0 <= j < |t.unknown| && NameOf(t.unknown[j].proof) == k && t.unknown[j].reconciliation == 0;
      assert KeyOf(t.unknown[j].proof) == k && i == j;
    }
    if i < |t.unknown| { assert t.unknown[i] in t.unknown && NameOf(t.unknown[i].proof) == k; }
  }

  ghost predicate BoundTo(t: Tables, origin: Source, root: Root) {
    exists i :: 0 <= i < |t.bindings| && t.bindings[i].origin == origin && t.bindings[i].root == root
  }

  // An archive needs an origin of a decision stream, that of its root, a receipt
  // for the bound root or the next one, room, and no unsettled row of its order.
  lemma ArchiveDecides(t: Tables, commit: ArchiveCommit)
    ensures var o, r, root, previous := commit.origin, commit.receipt, commit.receipt.root,
        PreviousRoot(t.bindings, commit.origin);
      var named := && o.decisionStream > 0 && commit.order > 0 && o.testShard == 0
                   && o.account == root.origin.account && o.decisionStream == root.origin.stream.id;
      var accepted := AcceptsRoot(previous, r,
                                  if previous == Some(root) then r.qualificationDigest else root.qualificationDigest);
      var room := previous.Some? || |t.bindings| != 128;
      var settled := forall u :: u in t.unknown && u.proof.origin == o && u.proof.command.order == commit.order ==>
                       u.reconciliation > 0 && u.status.Some? && u.status.value != Unresolved;
      && (WithArchive(t, commit).Ok? <==> named && accepted && room && settled)
      && (WithArchive(t, commit).Err? ==>
            && (WithArchive(t, commit).error == DispatchArchiveNotCommitted <==> !named)
            && (WithArchive(t, commit).error == HistoryRefused <==> named && !accepted)
            && (WithArchive(t, commit).error == DispatchCapacity <==> named && accepted && !room)
            && (WithArchive(t, commit).error == DispatchArchivePinned <==> named && accepted && room && !settled))
  {
    hide AcceptsRoot;
    var o := commit.origin;
    if Pinned(t.unknown, o, commit.order) {
      var i :| 0 <= i < |t.unknown| && OfOrder(t.unknown[i].proof, o, commit.order) && Unsettled(t.unknown[i]);
      assert t.unknown[i] in t.unknown;
    }
  }

  // It takes exactly the rows of its order away and binds its root and itself.
  lemma ArchiveFrees(t: Tables, commit: ArchiveCommit)
    requires WithArchive(t, commit).Ok?
    ensures var after, o := WithArchive(t, commit).value, commit.origin;
      && (forall p :: p in after.accepted <==>
                      p in t.accepted && !(p.origin == o && p.command.order == commit.order))
      && (forall u :: u in after.unknown <==>
                      u in t.unknown && !(u.proof.origin == o && u.proof.command.order == commit.order))
      && Rebound(t.bindings, after.bindings, Binding(o, commit.receipt.root, Some(commit)))
  {
    hide ArchiveReceiptAccepted, Pinned;
    KeepAcceptedKeeps(t.accepted, commit.origin, commit.order);
    KeepUnknownKeeps(t.unknown, commit.origin, commit.order);
    BoundIs(t.bindings, Binding(commit.origin, commit.receipt.root, Some(commit)));
  }

  // The origin's binding is replaced where it stands, or added behind the others.
  ghost predicate Rebound(before: seq<Binding>, after: seq<Binding>, b: Binding) {
    if exists i :: 0 <= i < |before| && before[i].origin == b.origin then
      exists i :: 0 <= i < |before| && before[i].origin == b.origin && after == before[i := b]
    else after == before + [b]
  }

  lemma BoundIs(bindings: seq<Binding>, b: Binding)
    ensures Rebound(bindings, Bound(bindings, b), b)
  {
    var i := BindingIndex(bindings, b.origin);
    if i < |bindings| { assert bindings[i].origin == b.origin && Bound(bindings, b) == bindings[i := b]; }
  }

  // An economic commit needs a named origin of its root, a nonzero identity that
  // only windows and deployments may have beyond 64 bits, and the receipt's own
  // qualification.
  lemma EconomicDecides(t: Tables, commit: EconomicCommit)
    ensures var o, r, root, previous := commit.origin, commit.receipt, commit.receipt.root,
        PreviousRoot(t.bindings, commit.origin);
      var named := && o.decisionStream > 0 && o.portfolio > 0 && o.testShard == 0 && commit.identity > 0
                   && o.account == root.origin.account && o.decisionStream == root.origin.stream.id
                   && commit.qualification == r.qualificationDigest
                   && (commit.identity <= 0xFFFF_FFFF_FFFF_FFFF
                       || commit.kind == ReconciliationWindow || commit.kind == Deployment);
      var accepted := AcceptsRoot(previous, r, commit.qualification);
      var room := previous.Some? || |t.bindings| != 128;
      && (WithEconomic(t, commit).Ok? <==> named && accepted && room)
      && (WithEconomic(t, commit).Err? ==>
            && (WithEconomic(t, commit).error == EconomicHistoryNotCommitted <==> !named)
            && (WithEconomic(t, commit).error == HistoryRefused <==> named && !accepted)
            && (WithEconomic(t, commit).error == DispatchCapacity <==> named && accepted && !room))
      && (WithEconomic(t, commit).Ok? ==>
            var after := WithEconomic(t, commit).value;
            && after.accepted == t.accepted && after.unknown == t.unknown
            && if previous == Some(root) then after == t
               else Rebound(t.bindings, after.bindings, Binding(o, root, LastOrder(t.bindings, o))))
  {
    hide AcceptsRoot;
    BoundIs(t.bindings, Binding(commit.origin, commit.receipt.root, LastOrder(t.bindings, commit.origin)));
  }

  // What is bound to an origin is what its one binding says.
  lemma BindingDecides(bindings: seq<Binding>, i: nat)
    requires DistinctBindings(bindings) && i < |bindings|
    ensures PreviousRoot(bindings, bindings[i].origin) == Some(bindings[i].root)
    ensures LastOrder(bindings, bindings[i].origin) == bindings[i].lastOrder
  {
    assert BindingIndex(bindings, bindings[i].origin) == i;
  }

  lemma UnboundDecides(bindings: seq<Binding>, origin: Source)
    requires forall i :: 0 <= i < |bindings| ==> bindings[i].origin != origin
    ensures PreviousRoot(bindings, origin).None? && LastOrder(bindings, origin).None?
  {
  }

  // ----- Rows

  // A proof is marked unknown once, while there is room.
  lemma MarkedDecides(t: Tables, p: DispatchProof, c: Config)
    ensures var known := exists u :: u in t.unknown && NameOf(u.proof) == NameOf(p);
      Marked(t, p, c)
      == if known then Ok(t)
         else if |t.accepted| + |t.unknown| >= c.capacity then Err(DispatchCapacity)
         else Ok(t.(unknown := t.unknown + [Unknown(p, 0, None)]))
  {
    assert NameOf(p) == KeyOf(p);
    UnknownHas(t.unknown, KeyOf(p));
  }

  // A proof is taken as accepted for a configured account and a named command,
  // once, while there is room; another proof of its name is a conflict.
  lemma RestoredDecides(t: Tables, p: DispatchProof, c: Config)
    requires DistinctAccepted(t.accepted)
    ensures var known := exists q :: q in t.accepted && NameOf(q) == NameOf(p);
      Restored(t, p, c)
      == if p.context.account !in c.routes then Err(UnknownAccount)
         else if p.command.id == 0 then Err(InvalidDispatchIdentity)
         else if p in t.accepted then Ok(t)
         else if known then Err(DispatchIdentityConflict)
         else if |t.accepted| + |t.unknown| >= c.capacity then Err(DispatchCapacity)
         else Ok(t.(accepted := t.accepted + [p]))
  {
    assert NameOf(p) == KeyOf(p);
    AcceptedHas(t.accepted, KeyOf(p));
    if p in t.accepted {
      var i :| 0 <= i < |t.accepted| && t.accepted[i] == p;
      assert AcceptedIndex(t.accepted, KeyOf(p)) == i;
    }
  }

  // ----- Snapshots

  lemma BindingIsExact(b: Binding)
    ensures BindingSound(b) <==>
            && ValidRoot(b.root) && b.origin.testShard == 0
            && b.origin.account == b.root.origin.account && b.origin.decisionStream == b.root.origin.stream.id
            && (b.lastOrder.Some? ==>
                  var order := b.lastOrder.value; var r := order.receipt;
                  && order.order > 0 && order.origin == b.origin && ValidRoot(r.root)
                  && r == Receipt(r.root, r.root.previousRoot, r.root.qualificationDigest, r.root.batchDigest)
                  && r.root.origin == b.root.origin
                  && (r.root == b.root || r.root.generation < b.root.generation))
  {
    hide ValidRoot;
  }

  lemma ResolutionIsExact(u: Unknown)
    ensures UnknownSound(u) <==>
            || (u.reconciliation == 0 && u.status.None?)
            || (u.reconciliation > 0 && u.status.Some? && u.status.value != Unresolved)
  {
  }

  lemma {:induction false} BindingsTaken(rows: seq<Binding>)
    requires LoadBindings(rows).Ok?
    ensures LoadBindings(rows).value == rows && DistinctBindings(rows)
    ensures forall i :: 0 <= i < |rows| ==> BindingSound(rows[i]) && rows[i].origin.portfolio != 0
    decreases |rows|
  {
    hide BindingSound;
    if rows != [] {
      var n := |rows| - 1;
      BindingsTaken(rows[..n]);
      assert rows == rows[..n] + [rows[n]];
      forall i | 0 <= i < n ensures rows[i].origin != rows[n].origin { assert rows[..n][i] == rows[i]; }
      assert forall i :: 0 <= i < n ==> rows[i] == rows[..n][i];
    }
  }

  lemma {:induction false} AcceptedTaken(bindings: seq<Binding>, rows: seq<DispatchProof>, c: Config)
    requires LoadAccepted(Tables([], [], bindings), rows, c).Ok?
    ensures LoadAccepted(Tables([], [], bindings), rows, c).value == Tables(rows, [], bindings)
    ensures DistinctAccepted(rows)
    ensures forall i :: 0 <= i < |rows| ==> ValidPersisted(rows[i]) && rows[i].context.account in c.routes
    decreases |rows|
  {
    hide ValidPersisted, Restored, DistinctAccepted, IsAccepted;
    if rows == [] {
      NothingAccepted();
    } else {
      var n := |rows| - 1;
      AcceptedTaken(bindings, rows[..n], c);
      RestoredIs(Tables(rows[..n], [], bindings), rows[n], c);
      assert rows == rows[..n] + [rows[n]];
      NewAccepted(Tables(rows[..n], [], bindings), rows);
      assert forall i :: 0 <= i < n ==> rows[i] == rows[..n][i];
    }
  }

  lemma NothingAccepted()
    ensures DistinctAccepted([])
  {
  }

  lemma RestoredIs(t: Tables, p: DispatchProof, c: Config)
    requires !IsAccepted(t, KeyOf(p)) && Restored(t, p, c).Ok?
    ensures Restored(t, p, c).value == t.(accepted := t.accepted + [p]) && p.context.account in c.routes
  {
  }

  lemma NewAccepted(t: Tables, rows: seq<DispatchProof>)
    requires rows != [] && t.accepted == rows[..|rows| - 1] && DistinctAccepted(t.accepted)
    requires !IsAccepted(t, KeyOf(rows[|rows| - 1]))
    ensures DistinctAccepted(rows)
  {
    var n := |rows| - 1;
    forall i | 0 <= i < n ensures KeyOf(rows[i]) != KeyOf(rows[n]) { assert rows[..n][i] == rows[i]; }
    assert forall i :: 0 <= i < n ==> rows[i] == rows[..n][i];
  }

  lemma {:induction false} UnknownTaken(t: Tables, rows: seq<Unknown>, c: Config)
    requires t.unknown == [] && LoadUnknown(t, rows, c).Ok?
    ensures LoadUnknown(t, rows, c).value == t.(unknown := rows)
    ensures DistinctUnknown(rows) && Disjoint(t.accepted, rows)
    ensures forall i :: 0 <= i < |rows| ==> ValidPersisted(rows[i].proof) && UnknownSound(rows[i])
    decreases |rows|
  {
    hide ValidPersisted, UnknownSound;
    if rows != [] {
      var n := |rows| - 1;
      UnknownTaken(t, rows[..n], c);
      assert rows == rows[..n] + [rows[n]];
      NewRow(t, rows);
      assert forall i :: 0 <= i < n ==> rows[i] == rows[..n][i];
    }
  }

  lemma NewRow(t: Tables, rows: seq<Unknown>)
    requires rows != [] && DistinctUnknown(rows[..|rows| - 1]) && Disjoint(t.accepted, rows[..|rows| - 1])
    requires var n := |rows| - 1; var before := t.(unknown := rows[..n]);
      !IsAccepted(before, KeyOf(rows[n].proof)) && !IsUnknown(before, KeyOf(rows[n].proof))
    ensures DistinctUnknown(rows) && Disjoint(t.accepted, rows)
  {
    var n := |rows| - 1;
    assert forall i :: 0 <= i < n ==> rows[i] == rows[..n][i];
  }

  // The loader takes a snapshot exactly when its rows are sound tables of valid
  // proofs, every bound origin names a portfolio, and every route is configured;
  // it then loads those very rows.
  lemma LoadDecides(s: Snapshot, c: Config)
    ensures var t := Tables(s.accepted, s.unknown, s.bindings);
      && (Load(s, c).Ok? <==>
            Sound(t, c) && Named(s.bindings) && Persisted(t) && |s.routes| <= 4 && Routed(s.routes, c))
      && (Load(s, c).Ok? ==> Load(s, c).value == t)
  {
    hide BindingSound, UnknownSound, ValidPersisted, LoadBindings, LoadAccepted, LoadUnknown;
    var t := Tables(s.accepted, s.unknown, s.bindings);
    if Load(s, c).Ok? {
      BindingsTaken(s.bindings);
      AcceptedTaken(s.bindings, s.accepted, c);
      UnknownTaken(Tables(s.accepted, [], s.bindings), s.unknown, c);
    }
    if Sound(t, c) && |s.routes| <= 4 { LoadIsExact(t, s.barrier, s.routes, c); }
  }

  // Rows of sound tables have keys of their own, within the bounds.
  lemma SoundIsExact(t: Tables, c: Config)
    ensures Sound(t, c) <==>
            && (forall i, j :: 0 <= i < j < |t.accepted| ==> NameOf(t.accepted[i]) != NameOf(t.accepted[j]))
            && (forall i, j :: 0 <= i < j < |t.unknown| ==> NameOf(t.unknown[i].proof) != NameOf(t.unknown[j].proof))
            && (forall p, u :: p in t.accepted && u in t.unknown ==> NameOf(p) != NameOf(u.proof))
            && (forall i, j :: 0 <= i < j < |t.bindings| ==> t.bindings[i].origin != t.bindings[j].origin)
            && |t.accepted| + |t.unknown| <= c.capacity && |t.bindings| <= 128
            && (forall p :: p in t.accepted ==> p.context.account in c.routes)
            && (forall u :: u in t.unknown ==> UnknownSound(u)) && (forall b :: b in t.bindings ==> BindingSound(b))
  {
    hide UnknownSound, BindingSound;
    assert forall p :: NameOf(p) == KeyOf(p);
    if forall p, u :: p in t.accepted && u in t.unknown ==> NameOf(p) != NameOf(u.proof) {
      forall i, j | 0 <= i < |t.accepted| && 0 <= j < |t.unknown|
        ensures KeyOf(t.accepted[i]) != KeyOf(t.unknown[j].proof)
      {
        assert t.accepted[i] in t.accepted && t.unknown[j] in t.unknown;
      }
    }
    if forall p :: p in t.accepted ==> p.context.account in c.routes {
      forall i | 0 <= i < |t.accepted| ensures t.accepted[i].context.account in c.routes {
        assert t.accepted[i] in t.accepted;
      }
    }
    if forall u :: u in t.unknown ==> UnknownSound(u) {
      forall i | 0 <= i < |t.unknown| ensures UnknownSound(t.unknown[i]) { assert t.unknown[i] in t.unknown; }
    }
    if forall b :: b in t.bindings ==> BindingSound(b) {
      forall i | 0 <= i < |t.bindings| ensures BindingSound(t.bindings[i]) { assert t.bindings[i] in t.bindings; }
    }
  }

  // ----- Errors of recovery

  lemma {:induction false} AcceptedErrors(bindings: seq<Binding>, rows: seq<DispatchProof>, c: Config)
    requires |rows| <= c.capacity
    ensures var r := LoadAccepted(Tables([], [], bindings), rows, c);
      r.Err? ==>
        || r.error == DurableDispatchUnavailable
        || (r.error == UnknownAccount && exists p :: p in rows && p.context.account !in c.routes)
    decreases |rows|
  {
    hide ValidPersisted, AcceptedIndex;
    if rows != [] {
      var n := |rows| - 1;
      AcceptedErrors(bindings, rows[..n], c);
      assert rows == rows[..n] + [rows[n]];
      if LoadAccepted(Tables([], [], bindings), rows[..n], c).Ok? {
        AcceptedTaken(bindings, rows[..n], c);
        if ValidPersisted(rows[n]) { PersistedHasId(rows[n]); }
      }
    }
  }

  lemma {:induction false} UnknownErrors(t: Tables, rows: seq<Unknown>, c: Config)
    requires t.unknown == [] && |t.accepted| + |rows| <= c.capacity
    ensures LoadUnknown(t, rows, c).Err? ==> LoadUnknown(t, rows, c).error == DurableDispatchUnavailable
    decreases |rows|
  {
    hide ValidPersisted, UnknownSound;
    if rows != [] {
      var n := |rows| - 1;
      UnknownErrors(t, rows[..n], c);
      if LoadUnknown(t, rows[..n], c).Ok? { UnknownTaken(t, rows[..n], c); }
    }
  }

  // A binding with a root that no history has: the bound root, or that of the last
  // order when the origin is a new one of that root, with a portfolio.
  ghost predicate Rootless(rows: seq<Binding>, i: nat)
    requires i < |rows|
  {
    var b := rows[i];
    || !ValidRoot(b.root)
    || (b.lastOrder.Some? && !ValidRoot(b.lastOrder.value.receipt.root)
        && b.origin.account == b.root.origin.account && b.origin.decisionStream == b.root.origin.stream.id
        && b.origin.portfolio > 0 && b.origin.testShard == 0
        && forall j :: 0 <= j < i ==> rows[j].origin != b.origin)
  }

  // The first binding that is refused decides the error: it is the history's for
  // a binding with such a root.
  lemma {:induction false} BindingErrors(rows: seq<Binding>)
    ensures LoadBindings(rows).Err? ==>
              exists i :: && 0 <= i < |rows| && LoadBindings(rows[..i]).Ok?
                          && LoadBindings(rows).error
                             == if Rootless(rows, i) then HistoryRefused else DurableDispatchUnavailable
    decreases |rows|
  {
    hide Loadable, Refusal, Rootless, NewOrigin;
    if rows != [] {
      var n := |rows| - 1;
      BindingErrors(rows[..n]);
      if LoadBindings(rows[..n]).Ok? {
        BindingsTaken(rows[..n]);
        RefusalIs(rows);
      } else {
        var i :| && 0 <= i < n && LoadBindings(rows[..n][..i]).Ok?
                 && LoadBindings(rows[..n]).error
                    == if Rootless(rows[..n], i) then HistoryRefused else DurableDispatchUnavailable;
        assert rows[..n][..i] == rows[..i];
        EarlierRow(rows, i);
      }
    }
  }

  lemma RefusalIs(rows: seq<Binding>)
    requires rows != []
    ensures var n := |rows| - 1;
      Refusal(rows[n], !NewOrigin(rows[..n], rows[n].origin))
      == if Rootless(rows, n) then HistoryRefused else DurableDispatchUnavailable
  {
    hide ValidRoot;
    var n := |rows| - 1;
    assert forall j :: 0 <= j < n ==> rows[..n][j] == rows[j];
  }

  lemma EarlierRow(rows: seq<Binding>, i: nat)
    requires i < |rows| - 1
    ensures Rootless(rows[..|rows| - 1], i) <==> Rootless(rows, i)
  {
    hide ValidRoot;
    assert forall j :: 0 <= j <= i ==> rows[..|rows| - 1][j] == rows[j];
  }

  // A refused snapshot is unavailable, has a binding with a root that no history
  // has, or an accepted row of an account that is not configured.
  lemma LoadErrors(s: Snapshot, c: Config)
    ensures Load(s, c).Err? ==>
              || Load(s, c).error == DurableDispatchUnavailable
              || (Load(s, c).error == HistoryRefused
                  && exists i :: 0 <= i < |s.bindings| && LoadBindings(s.bindings[..i]).Ok? && Rootless(s.bindings, i))
              || (Load(s, c).error == UnknownAccount && exists p :: p in s.accepted && p.context.account !in c.routes)
  {
    hide LoadBindings, LoadAccepted, LoadUnknown;
    BindingErrors(s.bindings);
    if |s.accepted| + |s.unknown| <= c.capacity && LoadBindings(s.bindings).Ok? {
      BindingsTaken(s.bindings);
      AcceptedErrors(s.bindings, s.accepted, c);
      if LoadAccepted(Tables([], [], s.bindings), s.accepted, c).Ok? {
        AcceptedTaken(s.bindings, s.accepted, c);
        UnknownErrors(Tables(s.accepted, [], s.bindings), s.unknown, c);
      }
    }
  }

  // A record is read back as it was applied, except that an attempt must be
  // valid and an acceptance must name a command; a barrier beyond the log, and a
  // snapshot that does not load, stop recovery.
  lemma ReadbackDecides(t: Tables, f: Fact, s: Snapshot, log: seq<Fact>, c: Config)
    ensures Readmitted(t, f, c)
            == if (f.Attempt? && !ValidPersisted(f.attempt)) || (f.Outcome? && f.accepted.command.id == 0) then
                 Err(DurableDispatchUnavailable)
               else Apply(t, f, c)
    ensures Recover(s, log, c)
            == if s.barrier > |log| then Err(DurableDispatchUnavailable)
               else if Load(s, c).Err? then Load(s, c)
               else Readback(Load(s, c).value, log[s.barrier..], c)
  {
    hide Apply, Load, Readback, ValidPersisted;
  }
}
