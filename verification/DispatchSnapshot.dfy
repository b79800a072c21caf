// Checkpoints of the dispatch evidence, and recovery from one plus the facts
// committed after it.
module DispatchSnapshot {
  import opened Bytes
  import opened Wrappers
  import opened HistoryKeys
  import opened HistoryDigests
  import opened HistoryProof
  import opened HistoryChain
  import opened DispatchTables

  // The last rows hold the safety gate of every route configured when the
  // checkpoint was taken; of these only the accounts matter here.
  datatype Snapshot = Snapshot(
    barrier: nat, bindings: seq<Binding>, accepted: seq<DispatchProof>, unknown: seq<Unknown>, routes: seq<u128>)

  function Encode(t: Tables, barrier: nat, routes: Routes): Snapshot {
    Snapshot(barrier, t.bindings, t.accepted, t.unknown, routes)
  }

  // ----- Loading, row by row

  predicate Loadable(b: Binding) { BindingSound(b) && b.origin.portfolio != 0 }

  // The bound root is looked at first, then the origin, then the root of the last
  // order and the rest of it.
  function Refusal(b: Binding, known: bool): DispatchError {
    if !ValidRoot(b.root) then HistoryRefused
    else if b.origin.decisionStream != b.root.origin.stream.id || b.origin.account != b.root.origin.account
            || b.origin.portfolio == 0 || b.origin.testShard != 0 || known then DurableDispatchUnavailable
    else if b.lastOrder.Some? && !ValidRoot(b.lastOrder.value.receipt.root) then HistoryRefused
    else DurableDispatchUnavailable
  }

  function LoadBindings(rows: seq<Binding>): Result<seq<Binding>, DispatchError>
    decreases |rows|
  {
    if rows == [] then Ok([])
    else
      var n := |rows| - 1;
      var before :- LoadBindings(rows[..n]);
      var known := !NewOrigin(before, rows[n].origin);
      if known || !Loadable(rows[n]) then Err(Refusal(rows[n], known))
      else Ok(before + [rows[n]])
  }

  function LoadAccepted(t: Tables, rows: seq<DispatchProof>, c: Config): Applied
    decreases |rows|
  {
    if rows == [] then Ok(t)
    else
      var n := |rows| - 1;
      var before := LoadAccepted(t, rows[..n], c);
      if before.Err? then before
      else if !ValidPersisted(rows[n]) || IsAccepted(before.value, KeyOf(rows[n])) then Err(DurableDispatchUnavailable)
      else Restored(before.value, rows[n], c)
  }

  function LoadUnknown(t: Tables, rows: seq<Unknown>, c: Config): Applied
    decreases |rows|
  {
    if rows == [] then Ok(t)
    else
      var n := |rows| - 1;
      var before := LoadUnknown(t, rows[..n], c);
      if before.Err? then before
      else if !ValidPersisted(rows[n].proof) || !UnknownSound(rows[n]) || IsAccepted(before.value, KeyOf(rows[n].proof))
              || IsUnknown(before.value, KeyOf(rows[n].proof)) then Err(DurableDispatchUnavailable)
      else if Full(before.value, c) then Err(DispatchCapacity)
      else Ok(before.value.(unknown := before.value.unknown + [rows[n]]))
  }

  // Every route of the checkpoint is still configured.
  predicate Routed(routes: seq<u128>, c: Config) {
    forall i :: 0 <= i < |routes| ==> routes[i] in c.routes
  }

  function Load(s: Snapshot, c: Config): Applied {
    if |s.accepted| + |s.unknown| > c.capacity || |s.routes| > MAX_ROUTES || |s.bindings| > MAX_AUTHORITY_RECORDS then
      Err(DurableDispatchUnavailable)
    else
      var bindings := LoadBindings(s.bindings);
      if bindings.Err? then Err(bindings.error)
      else
        var t := LoadAccepted(Tables([], [], bindings.value), s.accepted, c);
        if t.Err? then t
        else
          var all := LoadUnknown(t.value, s.unknown, c);
          if all.Ok? && !Routed(s.routes, c) then Err(DurableDispatchUnavailable) else all
  }

  // ----- Replaying the tail

  // What recovery demands of a record before applying it.
  predicate Checked(f: Fact) {
    match f
    case Attempt(p) => ValidPersisted(p)
    case Outcome(p) => p.command.id != 0
    case _ => true
  }

  function Readmitted(t: Tables, f: Fact, c: Config): Applied {
    if Checked(f) then Apply(t, f, c) else Err(DurableDispatchUnavailable)
  }

  function Readback(t: Tables, log: seq<Fact>, c: Config): Applied
    decreases |log|
  {
    if log == [] then Ok(t)
    else
      var n := |log| - 1;
      var before := Readback(t, log[..n], c);
      if before.Err? then before else Readmitted(before.value, log[n], c)
  }

  // Recovery from a checkpoint and the log: only facts after its barrier are replayed.
  function Recover(s: Snapshot, log: seq<Fact>, c: Config): Applied {
    if s.barrier > |log| then Err(DurableDispatchUnavailable)
    else
      var t := Load(s, c);
      if t.Err? then t else Readback(t.value, log[s.barrier..], c)
  }

  // ----- Loading what was encoded

  lemma {:induction false} BindingsLoad(rows: seq<Binding>)
    requires DistinctBindings(rows) && forall i :: 0 <= i < |rows| ==> BindingSound(rows[i])
    ensures (forall i :: 0 <= i < |rows| ==> rows[i].origin.portfolio != 0) ==> LoadBindings(rows) == Ok(rows)
    ensures (exists i :: 0 <= i < |rows| && rows[i].origin.portfolio == 0) ==> LoadBindings(rows).Err?
    decreases |rows|
  {
    hide BindingSound;
    if rows != [] {
      var n := |rows| - 1;
      BindingsLoad(rows[..n]);
      assert rows == rows[..n] + [rows[n]];
      assert forall j :: 0 <= j < n ==> rows[..n][j].origin != rows[n].origin;
    }
  }

  lemma {:induction false} AcceptedLoads(bindings: seq<Binding>, rows: seq<DispatchProof>, c: Config)
    requires DistinctAccepted(rows) && |rows| <= c.capacity
    requires forall i :: 0 <= i < |rows| ==> rows[i].context.account in c.routes
    ensures LoadAccepted(Tables([], [], bindings), rows, c)
            == if forall i :: 0 <= i < |rows| ==> ValidPersisted(rows[i]) then Ok(Tables(rows, [], bindings))
               else Err(DurableDispatchUnavailable)
    decreases |rows|
  {
    hide ValidPersisted, DistinctAccepted, IsAccepted, Restored, AcceptedIndex;
    if rows != [] {
      var n := |rows| - 1;
      AcceptedFront(bindings, rows);
      AcceptedLoads(bindings, rows[..n], c);
      assert rows == rows[..n] + [rows[n]];
      if ValidPersisted(rows[n]) {
        PersistedHasId(rows[n]);
        RestoredAppends(Tables(rows[..n], [], bindings), rows[n], c);
      }
    }
  }

  lemma RestoredAppends(t: Tables, p: DispatchProof, c: Config)
    requires p.context.account in c.routes && p.command.id != 0 && !IsAccepted(t, KeyOf(p)) && !Full(t, c)
    ensures Restored(t, p, c) == Ok(t.(accepted := t.accepted + [p]))
  {
  }

  // The last row's key is not that of an earlier one.
  lemma AcceptedFront(bindings: seq<Binding>, rows: seq<DispatchProof>)
    requires rows != [] && DistinctAccepted(rows)
    ensures var n := |rows| - 1;
      && DistinctAccepted(rows[..n])
      && AcceptedIndex(rows[..n], KeyOf(rows[n])) == n
      && !IsAccepted(Tables(rows[..n], [], bindings), KeyOf(rows[n]))
  {
    var n := |rows| - 1;
    assert forall j :: 0 <= j < n ==> KeyOf(rows[..n][j]) != KeyOf(rows[n]);
  }

  lemma PersistedHasId(p: DispatchProof)
    requires ValidPersisted(p)
    ensures p.command.id != 0
  {
  }

  lemma {:induction false} UnknownLoads(t: Tables, rows: seq<Unknown>, c: Config)
    requires t.unknown == [] && |t.accepted| + |rows| <= c.capacity
    requires DistinctUnknown(rows) && Disjoint(t.accepted, rows)
    requires forall i :: 0 <= i < |rows| ==> UnknownSound(rows[i])
    ensures LoadUnknown(t, rows, c)
            == if forall i :: 0 <= i < |rows| ==> ValidPersisted(rows[i].proof) then Ok(t.(unknown := rows))
               else Err(DurableDispatchUnavailable)
    decreases |rows|
  {
    hide UnknownSound, ValidPersisted, DistinctUnknown, Disjoint, IsAccepted, IsUnknown;
    if rows != [] {
      var n := |rows| - 1;
      FrontLoads(t, rows);
      UnknownLoads(t, rows[..n], c);
      assert rows == rows[..n] + [rows[n]];
      LastIsNew(t, rows);
    }
  }

  lemma FrontLoads(t: Tables, rows: seq<Unknown>)
    requires rows != [] && DistinctUnknown(rows) && Disjoint(t.accepted, rows)
    ensures DistinctUnknown(rows[..|rows| - 1]) && Disjoint(t.accepted, rows[..|rows| - 1])
  {
  }

  // The last row's key is neither accepted nor that of an earlier row.
  lemma LastIsNew(t: Tables, rows: seq<Unknown>)
    requires rows != [] && DistinctUnknown(rows) && Disjoint(t.accepted, rows)
    ensures var n := |rows| - 1; var before := t.(unknown := rows[..n]);
      !IsAccepted(before, KeyOf(rows[n].proof)) && !IsUnknown(before, KeyOf(rows[n].proof))
  {
    var n := |rows| - 1;
    assert forall j :: 0 <= j < n ==> KeyOf(rows[..n][j].proof) != KeyOf(rows[n].proof);
  }

  predicate Named(bindings: seq<Binding>) {
    forall i :: 0 <= i < |bindings| ==> bindings[i].origin.portfolio != 0
  }

  // Sound tables load back as they were exactly when every bound origin names a
  // portfolio, every row is a valid proof and every route of the checkpoint is
  // still configured; otherwise the snapshot is refused.
  lemma LoadIsExact(t: Tables, barrier: nat, routes: Routes, c: Config)
    requires Sound(t, c)
    ensures Load(Encode(t, barrier, routes), c) == Ok(t) <==> Named(t.bindings) && Persisted(t) && Routed(routes, c)
    ensures Load(Encode(t, barrier, routes), c) != Ok(t) ==> Load(Encode(t, barrier, routes), c).Err?
  {
    hide BindingSound, UnknownSound, ValidPersisted, LoadBindings, LoadAccepted, LoadUnknown;
    BindingsLoad(t.bindings);
    if Named(t.bindings) {
      AcceptedLoads(t.bindings, t.accepted, c);
      UnknownLoads(Tables(t.accepted, [], t.bindings), t.unknown, c);
    }
  }

  // ----- What replaying the tail refuses

  predicate ValidAttempts(log: seq<Fact>) {
    forall i :: 0 <= i < |log| && log[i].Attempt? ==> ValidPersisted(log[i].attempt)
  }

  lemma ReadmittedKeeps(t: Tables, f: Fact, c: Config)
    requires Sound(t, c) && Persisted(t) && Apply(t, f, c).Ok? && (f.Attempt? ==> ValidPersisted(f.attempt))
    ensures Readmitted(t, f, c) == Apply(t, f, c) && Persisted(Apply(t, f, c).value)
  {
    hide ValidPersisted, BindingSound, ArchiveReceiptAccepted, AcceptsRoot, Pinned, OfOrder;
    match f
    case Outcome(p) =>
      OutcomeSound(t, p, c);
      PersistedHasId(p);
    case Archive(commit) =>
      KeepAcceptedKeeps(t.accepted, commit.origin, commit.order);
      KeepUnknownKeeps(t.unknown, commit.origin, commit.order);
      FilteredPersists(t, Apply(t, f, c).value);
    case _ =>
  }

  lemma FilteredPersists(t: Tables, after: Tables)
    requires Persisted(t)
    requires forall p :: p in after.accepted ==> p in t.accepted
    requires forall u :: u in after.unknown ==> u in t.unknown
    ensures Persisted(after)
  {
    hide ValidPersisted;
    forall i | 0 <= i < |after.accepted| ensures ValidPersisted(after.accepted[i]) {
      assert after.accepted[i] in t.accepted;
    }
    forall i | 0 <= i < |after.unknown| ensures ValidPersisted(after.unknown[i].proof) {
      assert after.unknown[i] in t.unknown;
    }
  }

  // From valid rows, reading a committed tail back is replaying it, unless it
  // holds an attempt that is not valid: then recovery stops there.
  lemma {:induction false} ReadbackIsExact(t: Tables, log: seq<Fact>, c: Config)
    requires Sound(t, c) && Persisted(t) && Replay(t, log, c).Ok?
    ensures Readback(t, log, c).Ok? <==> ValidAttempts(log)
    ensures ValidAttempts(log) ==> Readback(t, log, c) == Replay(t, log, c) && Persisted(Replay(t, log, c).value)
    decreases |log|
  {
    hide Apply, Sound, Persisted, ValidPersisted;
    if log != [] {
      var n := |log| - 1;
      assert log == log[..n] + [log[n]];
      ReadbackIsExact(t, log[..n], c);
      ReplaySound(t, log[..n], c);
      var before := Replay(t, log[..n], c).value;
      if ValidAttempts(log[..n]) && (log[n].Attempt? ==> ValidPersisted(log[n].attempt)) {
        ReadmittedKeeps(before, log[n], c);
      }
    }
  }

  // ----- Where the checkpoint was taken does not matter

  predicate NamedArchives(log: seq<Fact>) {
    forall i :: 0 <= i < |log| ==> log[i].Archive? ==> log[i].archive.origin.portfolio != 0
  }

  lemma FactNames(t: Tables, f: Fact, c: Config)
    requires Apply(t, f, c).Ok?
    ensures Named(Apply(t, f, c).value.bindings)
            <==> Named(t.bindings) && (f.Archive? ==> f.archive.origin.portfolio != 0)
  {
    hide ValidPersisted, ArchiveReceiptAccepted, AcceptsRoot, KeepAccepted, KeepUnknown, Pinned;
    match f
    case Archive(commit) => BoundNames(t.bindings, Binding(commit.origin, commit.receipt.root, Some(commit)));
    case Economic(commit) =>
      BoundNames(t.bindings, Binding(commit.origin, commit.receipt.root, LastOrder(t.bindings, commit.origin)));
    case _ =>
  }

  lemma BoundNames(bindings: seq<Binding>, b: Binding)
    ensures Named(Bound(bindings, b)) <==> Named(bindings) && b.origin.portfolio != 0
  {
    var i, after := BindingIndex(bindings, b.origin), Bound(bindings, b);
    assert i < |after| && after[i] == b;
    assert forall j :: 0 <= j < |bindings| && j != i ==> after[j] == bindings[j];
    assert i < |bindings| ==> bindings[i].origin == b.origin;
  }

  lemma NothingNamed()
    ensures Named(EMPTY.bindings) && NamedArchives([])
  {
  }

  lemma {:induction false} ReplayNames(log: seq<Fact>, c: Config)
    requires Replay(EMPTY, log, c).Ok?
    ensures Named(Replay(EMPTY, log, c).value.bindings) <==> NamedArchives(log)
    decreases |log|
  {
    hide Apply, Named;
    if log == [] {
      NothingNamed();
    } else {
      var n := |log| - 1;
      ReplayNames(log[..n], c);
      FactNames(Replay(EMPTY, log[..n], c).value, log[n], c);
      assert log == log[..n] + [log[n]];
    }
  }

  lemma {:induction false} ReplayConcat(t: Tables, a: seq<Fact>, b: seq<Fact>, c: Config)
    ensures Replay(t, a + b, c) == if Replay(t, a, c).Err? then Replay(t, a, c) else Replay(Replay(t, a, c).value, b, c)
    decreases |b|
  {
    hide Apply;
    if b == [] {
      assert a + b == a;
    } else {
      var n := |b| - 1;
      assert (a + b)[..|a + b| - 1] == a + b[..n];
      ReplayConcat(t, a, b[..n], c);
    }
  }

  // Recovering from a checkpoint taken at any barrier of a log gives what
  // replaying the whole log gives exactly when no archive before the barrier
  // was for an origin without a portfolio, every route of the checkpoint is
  // still configured, and the proofs of its rows and of the attempts after it
  // are valid; otherwise recovery is refused.
  lemma CheckpointIsUnobservable(log: seq<Fact>, barrier: nat, routes: Routes, c: Config)
    requires barrier <= |log| && Replay(EMPTY, log, c).Ok?
    ensures Replay(EMPTY, log[..barrier], c).Ok?
    ensures var t := Replay(EMPTY, log[..barrier], c).value; var s := Encode(t, barrier, routes);
      && (Recover(s, log, c) == Replay(EMPTY, log, c)
          <==> NamedArchives(log[..barrier]) && Routed(routes, c) && Persisted(t) && ValidAttempts(log[barrier..]))
      && (Recover(s, log, c) != Replay(EMPTY, log, c) ==> Recover(s, log, c).Err?)
  {
    hide Load, Replay, Readback, Sound, Named, Persisted, NamedArchives, Routed, ValidAttempts;
    assert log == log[..barrier] + log[barrier..];
    ReplayConcat(EMPTY, log[..barrier], log[barrier..], c);
    EmptySound(c);
    ReplaySound(EMPTY, log[..barrier], c);
    ReplayNames(log[..barrier], c);
    var t := Replay(EMPTY, log[..barrier], c).value;
    LoadIsExact(t, barrier, routes, c);
    if Persisted(t) { ReadbackIsExact(t, log[barrier..], c); }
  }

  // An archive without a portfolio: replay takes it, the loader refuses the
  // checkpoint after it.
  lemma UnnamedArchiveIsRefused(routes: Routes, c: Config)
    ensures exists log: seq<Fact> ::
              Replay(EMPTY, log, c).Ok? && Recover(Encode(Replay(EMPTY, log, c).value, |log|, routes), log, c).Err?
  {
    var history := Origin(Stream(DecisionLog, 1), 1, AccountScope);
    var unsigned := Root(2, history, 1, 1, 1, 0, false, 0, Zero, Zero, Zero, Zero, Zero);
    var root := unsigned.(rootDigest := RootDigest(unsigned));
    var fact := Archive(ArchiveCommit(Source(1, 1, 0, 0), 1, Receipt(root, Zero, Zero, Zero)));
    var log := [fact];
    assert log[..0] == [];
    assert Replay(EMPTY, log, c) == Apply(EMPTY, fact, c);
    assert WithArchive(EMPTY, fact.archive).Ok?;
    assert !NamedArchives(log) by { assert log[0] == fact; }
    CheckpointIsUnobservable(log, 1, routes, c);
    assert log[..1] == log;
  }

  // A route taken out of the configuration: even the empty checkpoint is refused.
  lemma DroppedRouteIsRefused(account: u128, capacity: nat)
    ensures Recover(Encode(EMPTY, 0, [account]), [], Config([account], capacity)) == Ok(EMPTY)
    ensures Recover(Encode(EMPTY, 0, [account]), [], Config([], capacity)).Err?
  {
    var routes: Routes, log: seq<Fact> := [account], [];
    assert log[..0] == log && log[0..] == log;
    CheckpointIsUnobservable(log, 0, routes, Config([account], capacity));
    CheckpointIsUnobservable(log, 0, routes, Config([], capacity));
    assert routes[0] == account;
  }
}
