// What every run of the dispatch gateway keeps: at most one venue call per
// command, evidence for every call, and exact recovery.
module DispatchSafety {
  import opened Bytes
  import opened Wrappers
  import HistoryKeys
  import HistoryDigests
  import opened HistoryProof
  import opened HistoryChain
  import opened DispatchTables
  import opened DispatchSnapshot
  import opened DispatchProtocol

  // ----- The log

  lemma ArchivedGrows(log: seq<Fact>, f: Fact, origin: Source, order: u64)
    ensures OrderArchived(log + [f], origin, order)
            <==> OrderArchived(log, origin, order)
                 || (f.Archive? && f.archive.origin == origin && f.archive.order == order)
  {
    var longer := log + [f];
    if OrderArchived(log, origin, order) {
      var i :| 0 <= i < |log| && log[i].Archive? && log[i].archive.origin == origin && log[i].archive.order == order;
      assert longer[i] == log[i];
    }
    if f.Archive? && f.archive.origin == origin && f.archive.order == order { assert longer[|log|] == f; }
  }

  lemma EvidenceGrows(log: seq<Fact>, f: Fact, c: Config)
    requires Evidence(log, c).Ok?
    ensures Evidence(log + [f], c) == Apply(Evidence(log, c).value, f, c)
  {
    hide Apply;
    assert (log + [f])[..|log|] == log;
  }

  // The unknown rows after a fact: old ones, perhaps resolved, and a new attempt.
  lemma UnknownOrigin(t: Tables, f: Fact, c: Config, u: Unknown)
    requires Sound(t, c) && Apply(t, f, c).Ok? && u in Apply(t, f, c).value.unknown
    ensures (f == Attempt(u.proof)) || exists v :: v in t.unknown && v.proof == u.proof
    ensures f.Archive? ==> !OfOrder(u.proof, f.archive.origin, f.archive.order)
  {
    hide ValidPersisted, UnknownSound, BindingSound, ArchiveReceiptAccepted, AcceptsRoot, Pinned, OfOrder;
    match f
    case Attempt(p) =>
    case Outcome(p) => OutcomeSound(t, p, c);
    case Resolution(origin, account, command, reconciliation, status) =>
      var i := UnknownIndex(t.unknown, Key(origin, account, command));
      assert t.unknown[i] in t.unknown;
      var j :| 0 <= j < |t.unknown| && Apply(t, f, c).value.unknown[j] == u;
      assert t.unknown[j] in t.unknown;
    case Archive(commit) => KeepUnknownKeeps(t.unknown, commit.origin, commit.order);
    case Economic(commit) => EconomicSound(t, commit, c);
  }

  lemma AcceptedOrigin(t: Tables, f: Fact, c: Config, p: DispatchProof)
    requires Sound(t, c) && Apply(t, f, c).Ok? && p in Apply(t, f, c).value.accepted
    ensures p in t.accepted || (f == Outcome(p) && exists u :: u in t.unknown && u.proof == p)
    ensures f.Archive? ==> !OfOrder(p, f.archive.origin, f.archive.order)
  {
    hide ValidPersisted, UnknownSound, BindingSound, ArchiveReceiptAccepted, AcceptsRoot, Pinned, OfOrder;
    match f
    case Outcome(q) =>
      OutcomeSound(t, q, c);
      assert t.unknown[UnknownIndex(t.unknown, KeyOf(q))] in t.unknown;
    case Archive(commit) => KeepAcceptedKeeps(t.accepted, commit.origin, commit.order);
    case Economic(commit) => EconomicSound(t, commit, c);
    case _ =>
  }

  lemma LastOrderOrigin(t: Tables, f: Fact, c: Config, i: nat)
    requires Apply(t, f, c).Ok? && i < |Apply(t, f, c).value.bindings|
    ensures var last := Apply(t, f, c).value.bindings[i].lastOrder;
      || last.None? || f == Archive(last.value)
      || exists j :: 0 <= j < |t.bindings| && t.bindings[j].lastOrder == last
  {
    hide ValidPersisted, ArchiveReceiptAccepted, AcceptsRoot, Pinned, OfOrder, KeepAccepted, KeepUnknown;
    var after := Apply(t, f, c).value;
    match f
    case Archive(commit) => if i < |t.bindings| && after.bindings[i] == t.bindings[i] {}
    case Economic(commit) => if i < |t.bindings| && after.bindings[i] == t.bindings[i] {}
    case _ => assert after.bindings[i] == t.bindings[i];
  }

  lemma ClearedGrows(log: seq<Fact>, t: Tables, f: Fact, c: Config)
    requires Sound(t, c) && Cleared(log, t) && Apply(t, f, c).Ok?
    requires f.Attempt? ==> !OrderArchived(log, f.attempt.origin, f.attempt.command.order)
    ensures Cleared(log + [f], Apply(t, f, c).value)
  {
    hide Apply, Sound, OrderArchived;
    var after := Apply(t, f, c).value;
    forall p | p in after.accepted
      ensures !OrderArchived(log + [f], p.origin, p.command.order)
    {
      AcceptedOrigin(t, f, c, p);
      ArchivedGrows(log, f, p.origin, p.command.order);
    }
    forall u | u in after.unknown
      ensures !OrderArchived(log + [f], u.proof.origin, u.proof.command.order)
    {
      UnknownOrigin(t, f, c, u);
      ArchivedGrows(log, f, u.proof.origin, u.proof.command.order);
    }
    forall i | 0 <= i < |after.bindings| && after.bindings[i].lastOrder.Some?
      ensures Archive(after.bindings[i].lastOrder.value) in log + [f]
    {
      LastOrderOrigin(t, f, c, i);
    }
  }

  // What has become of an attempt's evidence after one more fact.
  lemma EvidenceStays(log: seq<Fact>, t: Tables, f: Fact, c: Config, p: DispatchProof)
    requires Sound(t, c) && Apply(t, f, c).Ok?
    requires p in t.accepted || Waits(t, p) || OrderArchived(log, p.origin, p.command.order)
    ensures var after := Apply(t, f, c).value;
      p in after.accepted || Waits(after, p) || OrderArchived(log + [f], p.origin, p.command.order)
  {
    hide Apply, Sound, OrderArchived;
    ArchivedGrows(log, f, p.origin, p.command.order);
    if p in t.accepted {
      AcceptedLeaves(t, f, c, p);
    } else if Waits(t, p) {
      var u :| u in t.unknown && u.proof == p;
      UnknownLeaves(t, f, c, u);
    }
  }

  lemma AccountedGrows(log: seq<Fact>, t: Tables, f: Fact, c: Config)
    requires Sound(t, c) && Accounted(log, t) && Apply(t, f, c).Ok?
    ensures Accounted(log + [f], Apply(t, f, c).value)
  {
    hide Apply, Sound, OrderArchived, Waits;
    var longer, after := log + [f], Apply(t, f, c).value;
    forall i | 0 <= i < |longer| && longer[i].Attempt?
      ensures longer[i].attempt in after.accepted || Waits(after, longer[i].attempt)
              || OrderArchived(longer, longer[i].attempt.origin, longer[i].attempt.command.order)
    {
      if i < |log| { EvidenceStays(log, t, f, c, log[i].attempt); } else { AttemptWaits(t, f, c); }
    }
  }

  lemma RowsGrow(log: seq<Fact>, t: Tables, f: Fact, c: Config)
    requires Sound(t, c) && LoggedRows(log, t) && Apply(t, f, c).Ok?
    ensures LoggedRows(log + [f], Apply(t, f, c).value)
  {
    hide Apply, Sound;
    var after := Apply(t, f, c).value;
    forall p | p in after.accepted ensures Attempt(p) in log + [f] { AcceptedOrigin(t, f, c, p); }
    forall u | u in after.unknown ensures Attempt(u.proof) in log + [f] { UnknownOrigin(t, f, c, u); }
  }

  lemma AttemptWaits(t: Tables, f: Fact, c: Config)
    requires Apply(t, f, c).Ok? && f.Attempt?
    ensures Waits(Apply(t, f, c).value, f.attempt)
  {
    var after := Apply(t, f, c).value;
    assert after.unknown[|t.unknown|] in after.unknown;
  }

  // A log grows soundly by any fact its evidence takes, as long as new attempts
  // are for orders not archived and archives name a portfolio.
  lemma LogGrows(log: seq<Fact>, f: Fact, c: Config)
    requires LogSound(log, c) && Apply(Evidence(log, c).value, f, c).Ok?
    requires f.Attempt? ==> !OrderArchived(log, f.attempt.origin, f.attempt.command.order)
    requires f.Archive? ==> f.archive.origin.portfolio != 0
    ensures LogSound(log + [f], c) && Evidence(log + [f], c) == Apply(Evidence(log, c).value, f, c)
  {
    var t := Evidence(log, c).value;
    EvidenceGrows(log, f, c);
    ApplySound(t, f, c);
    ClearedGrows(log, t, f, c);
    AccountedGrows(log, t, f, c);
    RowsGrow(log, t, f, c);
    assert NamedArchives(log + [f]);
  }

  lemma EmptyLogSound(c: Config)
    ensures LogSound([], c) && Evidence([], c) == Ok(EMPTY)
  {
  }

  // A key with an attempt in the log is evidence still, or it was reclaimed.
  lemma AttemptedIsKnown(log: seq<Fact>, c: Config, k: Key)
    requires LogSound(log, c) && Attempted(log, k)
    ensures IsAccepted(Evidence(log, c).value, k) || IsUnknown(Evidence(log, c).value, k) || Reclaimed(log, k)
  {
    hide Evidence, Sound, Cleared, OrderArchived, KeyOf;
    var t := Evidence(log, c).value;
    var i :| 0 <= i < |log| && log[i].Attempt? && KeyOf(log[i].attempt) == k;
    AcceptedHas(t.accepted, k);
    UnknownHas(t.unknown, k);
  }

  // ----- Checkpoints

  lemma CheckpointKept(log: seq<Fact>, f: Fact, s: Snapshot, c: Config)
    requires CheckpointSound(log, s, c)
    ensures CheckpointSound(log + [f], s, c)
  {
    hide Evidence;
    assert (log + [f])[..s.barrier] == log[..s.barrier];
  }

  lemma CheckpointTaken(log: seq<Fact>, c: Config)
    requires LogSound(log, c)
    ensures CheckpointSound(log, Encode(Evidence(log, c).value, |log|, c.routes), c)
  {
    hide Evidence;
    assert log[..|log|] == log;
  }

  lemma NamedPrefix(log: seq<Fact>, barrier: nat)
    requires NamedArchives(log) && barrier <= |log|
    ensures NamedArchives(log[..barrier])
  {
  }

  // The attempts whose order was not archived are valid.
  ghost predicate ValidUnarchived(log: seq<Fact>) {
    forall i :: 0 <= i < |log| && log[i].Attempt? ==>
      ValidPersisted(log[i].attempt) || OrderArchived(log, log[i].attempt.origin, log[i].attempt.command.order)
  }

  // What recovery from a barrier reads back: the attempts before it whose order
  // was not archived by then, and all attempts after it.
  ghost predicate Readable(log: seq<Fact>, barrier: nat)
    requires barrier <= |log|
  {
    ValidUnarchived(log[..barrier]) && ValidAttempts(log[barrier..])
  }

  // The rows of the evidence are the attempts whose order was not archived.
  lemma RowsAreUnarchived(log: seq<Fact>, c: Config)
    requires LogSound(log, c)
    ensures Persisted(Evidence(log, c).value) <==> ValidUnarchived(log)
  {
    hide Evidence, Sound, OrderArchived, ValidPersisted, NamedArchives;
    var t := Evidence(log, c).value;
    if Persisted(t) {
      forall i | 0 <= i < |log| && log[i].Attempt?
        ensures ValidPersisted(log[i].attempt)
                || OrderArchived(log, log[i].attempt.origin, log[i].attempt.command.order)
      {
        assert log[i].attempt in t.accepted || Waits(t, log[i].attempt)
               || OrderArchived(log, log[i].attempt.origin, log[i].attempt.command.order);
      }
    }
    if ValidUnarchived(log) {
      forall i | 0 <= i < |t.accepted| ensures ValidPersisted(t.accepted[i]) {
        assert t.accepted[i] in t.accepted && Attempt(t.accepted[i]) in log;
      }
      forall i | 0 <= i < |t.unknown| ensures ValidPersisted(t.unknown[i].proof) {
        assert t.unknown[i] in t.unknown && Attempt(t.unknown[i].proof) in log;
      }
    }
  }

  // A published checkpoint recovers exactly the evidence of the whole log if the
  // attempts it is read back from are valid, and is refused otherwise.
  lemma CheckpointRecovers(log: seq<Fact>, s: Snapshot, c: Config)
    requires LogSound(log, c) && CheckpointSound(log, s, c)
    ensures if Readable(log, s.barrier) then Recover(s, log, c) == Evidence(log, c) else Recover(s, log, c).Err?
  {
    hide Recover, Replay, Sound, Cleared, Accounted, LoggedRows, OrderArchived, ValidPersisted;
    var front := log[..s.barrier];
    CheckpointIsUnobservable(log, s.barrier, c.routes, c);
    NamedPrefix(log, s.barrier);
    RowsAreUnarchived(front, c);
  }

  // ----- Writes

  // The facts that may be appended: evidence takes them, attempts are for live
  // orders, archives name a portfolio, and acceptances follow a call.
  ghost predicate Appendable(s: System, f: Fact, c: Config)
    requires Evidence(s.durable, c).Ok?
  {
    && Apply(Evidence(s.durable, c).value, f, c).Ok?
    && (f.Attempt? ==> !OrderArchived(s.durable, f.attempt.origin, f.attempt.command.order))
    && (f.Archive? ==> f.archive.origin.portfolio != 0)
    && (f.Outcome? ==> KeyOf(f.accepted) in s.calls)
  }

  lemma AttemptedGrows(log: seq<Fact>, f: Fact, k: Key)
    ensures Attempted(log, k) ==> Attempted(log + [f], k)
    ensures f.Attempt? ==> Attempted(log + [f], KeyOf(f.attempt))
  {
    var longer := log + [f];
    if Attempted(log, k) {
      var i :| 0 <= i < |log| && log[i].Attempt? && KeyOf(log[i].attempt) == k;
      assert longer[i] == log[i];
    }
    assert longer[|log|] == f;
  }

  lemma SentGrows(log: seq<Fact>, f: Fact, k: Key)
    ensures Sent(log, k) ==> Sent(log + [f], k)
  {
    if Sent(log, k) {
      var i :| 0 <= i < |log| && log[i].Attempt? && KeyOf(log[i].attempt) == k && Sendable(log[i].attempt);
      assert (log + [f])[i] == log[i];
    }
  }

  lemma SentIsAttempted(log: seq<Fact>, k: Key)
    requires Sent(log, k)
    ensures Attempted(log, k)
  {
  }

  lemma AppendKeeps(s: System, f: Fact, c: Config)
    requires Stable(s, c) && Appendable(s, f, c)
    ensures var after := s.(durable := s.durable + [f]);
      Stable(after, c) && Evidence(after.durable, c) == Apply(Evidence(s.durable, c).value, f, c)
  {
    var longer := s.durable + [f];
    LogGrows(s.durable, f, c);
    forall k | k in s.calls ensures Sent(longer, k) { SentGrows(s.durable, f, k); }
    forall i | 0 <= i < |s.checkpoints| ensures CheckpointSound(longer, s.checkpoints[i], c) {
      CheckpointKept(s.durable, f, s.checkpoints[i], c);
    }
  }

  // However a write ends, the log is as it was or one fact longer.
  lemma WriteKeeps(s: System, f: Fact, w: Write, c: Config)
    requires Stable(s, c) && Appendable(s, f, c)
    ensures var after := Logged(s, f, w);
      && Stable(after, c) && after.open == (s.open && w == Written)
      && after == s.(durable := after.durable, open := after.open)
      && (w == Written ==> after.durable == s.durable + [f]
                           && Evidence(after.durable, c) == Apply(Evidence(s.durable, c).value, f, c))
      && (forall k :: Attempted(s.durable, k) ==> Attempted(after.durable, k))
  {
    var after := Logged(s, f, w);
    AppendKeeps(s, f, c);
    StableOf(s.(durable := s.durable + [f]), after, c);
    StableOf(s, after, c);
    forall k | Attempted(s.durable, k) ensures Attempted(after.durable, k) { AttemptedGrows(s.durable, f, k); }
  }

  // Stability is about the log, the calls and the checkpoints only.
  lemma StableOf(s: System, after: System, c: Config)
    requires Stable(s, c)
    ensures after.durable == s.durable && after.calls == s.calls && after.checkpoints == s.checkpoints ==>
              Stable(after, c)
  {
  }

  // ----- Steps

  lemma UnknownLast(t: Tables, p: DispatchProof, c: Config)
    requires Sound(t, c) && t.unknown != [] && t.unknown[|t.unknown| - 1].proof == p
    ensures UnknownIndex(t.unknown, KeyOf(p)) == |t.unknown| - 1
    ensures !IsAccepted(t, KeyOf(p))
  {
    hide BindingSound;
    var n, i := |t.unknown| - 1, UnknownIndex(t.unknown, KeyOf(p));
    assert UnknownSound(t.unknown[n]);
    assert KeyOf(t.unknown[n].proof) == KeyOf(p);
    assert forall j :: 0 <= j < |t.accepted| ==> KeyOf(t.accepted[j]) != KeyOf(t.unknown[n].proof);
  }

  lemma SendKeeps(s: System, p: DispatchProof, w: Write, c: Config)
    requires Inv(s, c) && Enabled(s, Send(p, w), c)
    ensures Inv(Next(s, Send(p, w), c), c)
  {
    var e := Evidence(s.durable, c).value;
    assert Evidence(s.durable, c).Ok?;
    assert Appendable(s, Attempt(p), c)
        && Apply(e, Attempt(p), c) == Ok(e.(unknown := e.unknown + [Unknown(p, 0, None)]));
    WriteKeeps(s, Attempt(p), w, c);
    var after := Next(s, Send(p, w), c);
    StableOf(Logged(s, Attempt(p), w), after, c);
    if w == Written {
      AttemptedGrows(s.durable, Attempt(p), KeyOf(p));
      if KeyOf(p) in s.calls {
        assert Attempted(s.durable, KeyOf(p));
        assert LogSound(s.durable, c);
        AttemptedIsKnown(s.durable, c, KeyOf(p));
      }
    }
  }

  lemma RefuseKeeps(s: System, c: Config)
    requires Inv(s, c) && Enabled(s, Refuse, c)
    ensures Inv(Next(s, Refuse, c), c)
  {
    MarkRestores(s, s.turn.attempt, c);
    StableOf(s, Next(s, Refuse, c), c);
  }

  // Marking the attempt under way unknown brings memory level with the log.
  lemma MarkRestores(s: System, p: DispatchProof, c: Config)
    requires Stable(s, c) && MemorySound(s, c) && s.memory.Some? && s.turn == Committed(p)
    ensures s.open && AsUnknown(s.memory.value, p, c) == Evidence(s.durable, c).value && Attempt(p) in s.durable
  {
    hide Evidence, BindingSound, UnknownSound, Cleared, Accounted, CheckpointSound;
    var t, e := s.memory.value, Evidence(s.durable, c).value;
    UnknownLast(e, p, c);
    var n := |t.unknown|;
    assert e.unknown[n] in e.unknown;
    forall j | 0 <= j < n ensures KeyOf(t.unknown[j].proof) != KeyOf(p) {
      assert e.unknown[j] == t.unknown[j] && e.unknown[n].proof == p;
    }
  }

  lemma CallKeeps(s: System, taken: bool, c: Config)
    requires Inv(s, c) && Enabled(s, Call(taken), c)
    ensures Inv(Next(s, Call(taken), c), c)
  {
    var p, after := s.turn.attempt, Next(s, Call(taken), c);
    MarkRestores(s, p, c);
    CallsGrow(s, p, c);
    StableOf(s.(calls := s.calls + [KeyOf(p)]), after, c);
  }

  lemma CallsGrow(s: System, p: DispatchProof, c: Config)
    requires Stable(s, c) && KeyOf(p) !in s.calls && Attempt(p) in s.durable && Sendable(p)
    ensures Stable(s.(calls := s.calls + [KeyOf(p)]), c)
  {
    hide LogSound, CheckpointSound, KeyOf, Sendable;
    var i :| 0 <= i < |s.durable| && s.durable[i] == Attempt(p);
  }

  lemma OutcomeApplies(s: System, p: DispatchProof, c: Config)
    requires Stable(s, c) && MemorySound(s, c) && s.memory.Some? && s.turn == Called(p)
    ensures s.open && Apply(Evidence(s.durable, c).value, Outcome(p), c) == Ok(s.memory.value)
  {
    hide Evidence, BindingSound, UnknownSound, Cleared, Accounted, CheckpointSound;
    var t, e := s.memory.value, Evidence(s.durable, c).value;
    UnknownLast(e, p, c);
    var n := |e.unknown| - 1;
    assert Without(e.unknown, n) == t.unknown;
    assert !IsAccepted(e.(unknown := t.unknown), KeyOf(p));
  }

  lemma RecordKeeps(s: System, w: Write, c: Config)
    requires Inv(s, c) && Enabled(s, Record(w), c)
    ensures Inv(Next(s, Record(w), c), c)
  {
    var p, after := s.turn.accepted, Next(s, Record(w), c);
    OutcomeApplies(s, p, c);
    assert Evidence(s.durable, c).Ok?;
    assert Appendable(s, Outcome(p), c);
    WriteKeeps(s, Outcome(p), w, c);
    StableOf(Logged(s, Outcome(p), w), after, c);
  }

  lemma ReconcileKeeps(s: System, k: Key, reconciliation: u64, status: Status, w: Write, c: Config)
    requires Inv(s, c) && Enabled(s, Reconcile(k, reconciliation, status, w), c)
    ensures Inv(Next(s, Reconcile(k, reconciliation, status, w), c), c)
  {
    var f, after := Resolution(k.origin, k.account, k.command, reconciliation, status), Next(s, Reconcile(k,
        reconciliation, status, w), c);
    assert Evidence(s.durable, c).Ok?;
    assert Appendable(s, f, c)
        && Apply(s.memory.value, f, c) == WithResolution(s.memory.value, k, reconciliation, status);
    WriteKeeps(s, f, w, c);
    StableOf(Logged(s, f, w), after, c);
  }

  lemma PublishKeeps(s: System, after: Tables, publication: Publication, c: Config)
    requires Stable(s, c) && s.open && s.turn == Ready && s.memory.Some? && Evidence(s.durable, c) == Ok(after)
    ensures Inv(WithCheckpoint(s, after, publication, c), c)
  {
    CheckpointTaken(s.durable, c);
    var next := WithCheckpoint(s, after, publication, c);
    if publication != PublishFailed(false) {
      assert Stable(next, c);
    } else {
      StableOf(s, next, c);
    }
  }

  // Reclaiming under a root that is already bound commits nothing, so memory
  // stays the log's evidence exactly when the archive is the one bound: then it
  // changes nothing at all.
  lemma ReclaimAgainIsExact(log: seq<Fact>, commit: ArchiveCommit, c: Config)
    requires LogSound(log, c)
    requires var t := Evidence(log, c).value;
      WithArchive(t, commit).Ok? && AlreadyBound(t, commit.origin, commit.receipt.root)
    ensures var t := Evidence(log, c).value;
      WithArchive(t, commit) == Evidence(log, c) <==> LastOrder(t.bindings, commit.origin) == Some(commit)
  {
    hide Evidence, Sound, Accounted, NamedArchives, ArchiveReceiptAccepted, Pinned, ValidRoot;
    var t := Evidence(log, c).value;
    var i := BindingIndex(t.bindings, commit.origin);
    if LastOrder(t.bindings, commit.origin) == Some(commit) {
      assert Archive(commit) in log;
      var j :| 0 <= j < |log| && log[j] == Archive(commit);
      assert OrderArchived(log, commit.origin, commit.order);
      NothingOfOrder(t.accepted, commit.origin, commit.order);
      NothingUnknownOfOrder(t.unknown, commit.origin, commit.order);
      assert t.bindings[i] == Binding(commit.origin, commit.receipt.root, Some(commit));
      assert t.bindings[i := t.bindings[i]] == t.bindings;
    } else {
      assert WithArchive(t, commit).value.bindings[i].lastOrder == Some(commit);
    }
  }

  // An accepted dispatch of order 2, and one receipt under which order 1 or
  // order 2 may be archived.
  function SecondOrder(account: u128): DispatchProof {
    var command := Command(1, 2, 1, 1, [0], 1, 1, Authority(true, account, 1, 1, 1, 1, 1, 1, 1));
    DispatchProof(Source(1, account, 1, 0), Context(account, 1, 1, 1, 1, 1), command, 1, 1, 1, 0)
  }

  function FirstRoot(account: u128): Root {
    var stream, none := HistoryKeys.Stream(HistoryKeys.DecisionLog, 1), HistoryDigests.Zero;
    var history := HistoryKeys.Origin(stream, account, HistoryKeys.AccountScope);
    var unsigned := Root(2, history, 1, 1, 1, 0, false, 0, none, none, none, none, none);
    unsigned.(rootDigest := RootDigest(unsigned))
  }

  function Archived(account: u128, order: u64): ArchiveCommit {
    var none := HistoryDigests.Zero;
    ArchiveCommit(Source(1, account, 1, 0), order, Receipt(FirstRoot(account), none, none, none))
  }

  lemma SecondIsAccepted(account: u128, c: Config)
    requires account in c.routes && c.capacity > 0
    ensures var log := [Attempt(SecondOrder(account)), Outcome(SecondOrder(account))];
      LogSound(log, c) && Evidence(log, c) == Ok(Tables([SecondOrder(account)], [], []))
  {
    hide LogSound, SecondOrder, Evidence;
    var p := SecondOrder(account);
    assert p.context.account == account by { SecondIsRouted(account); }
    EmptyLogSound(c);
    var waiting := Tables([], [Unknown(p, 0, None)], []);
    assert EMPTY.unknown + [Unknown(p, 0, None)] == waiting.unknown;
    assert Apply(EMPTY, Attempt(p), c) == Ok(waiting);
    LogGrows([], Attempt(p), c);
    assert [] + [Attempt(p)] == [Attempt(p)];
    assert Without(waiting.unknown, 0) == [];
    assert EMPTY.accepted + [p] == [p];
    assert WithOutcome(waiting, p, c) == Taken(EMPTY, p, c);
    assert Apply(waiting, Outcome(p), c) == Ok(Tables([p], [], []));
    LogGrows([Attempt(p)], Outcome(p), c);
    assert [Attempt(p)] + [Outcome(p)] == [Attempt(p), Outcome(p)];
  }

  lemma SecondIsRouted(account: u128)
    ensures SecondOrder(account).context.account == account
  {
  }

  lemma FirstIsArchived(account: u128, p: DispatchProof, c: Config)
    requires account != 0 && p.command.order == 2 && p.origin == Source(1, account, 1, 0)
    ensures var first := Archived(account, 1);
      var t := Tables([p], [], [Binding(p.origin, FirstRoot(account), Some(first))]);
      && WithArchive(Tables([p], [], []), first) == Ok(t)
      && AlreadyBound(t, p.origin, FirstRoot(account))
      && WithArchive(t, Archived(account, 2)).Ok? && WithArchive(t, Archived(account, 2)).value.accepted == []
  {
    var first, root := Archived(account, 1), FirstRoot(account);
    var t := Tables([p], [], [Binding(p.origin, root, Some(first))]);
    assert KeepAccepted([p], p.origin, 1) == [p] by { assert [p][1..] == []; }
    assert KeepAccepted([p], p.origin, 2) == [] by { assert [p][1..] == []; }
    assert ValidRoot(root) && root.generation == 1;
    assert VerifyReceipt(first.receipt, root.origin, root.qualificationDigest, None) == Ok(root);
    assert Bound([], t.bindings[0]) == t.bindings;
    assert BindingIndex(t.bindings, p.origin) == 0;
    assert PreviousRoot(t.bindings, p.origin) == Some(root);
  }

  // Another order under the bound root: its committed acceptance leaves the
  // tables although no archive of it is in the log.
  lemma OtherOrderIsForgotten(account: u128, c: Config)
    requires account != 0 && account in c.routes && c.capacity > 0
    ensures exists log: seq<Fact>, commit: ArchiveCommit, p: DispatchProof ::
              && LogSound(log, c)
              && var t := Evidence(log, c).value;
                 && AlreadyBound(t, commit.origin, commit.receipt.root) && WithArchive(t, commit).Ok?
                 && p in t.accepted && p !in WithArchive(t, commit).value.accepted
                 && !OrderArchived(log, commit.origin, commit.order)
  {
    var p, first, other := SecondOrder(account), Archived(account, 1), Archived(account, 2);
    var before := [Attempt(p), Outcome(p)];
    SecondIsAccepted(account, c);
    FirstIsArchived(account, p, c);
    hide LogSound, Evidence, WithArchive, FirstRoot;
    LogGrows(before, Archive(first), c);
    ArchivedGrows(before, Archive(first), other.origin, other.order);
    assert p in [p];
    assert AlreadyBound(Evidence(before + [Archive(first)], c).value, other.origin, other.receipt.root);
  }

  lemma {:induction false} NothingOfOrder(accepted: seq<DispatchProof>, origin: Source, order: u64)
    requires forall p :: p in accepted ==> !OfOrder(p, origin, order)
    ensures KeepAccepted(accepted, origin, order) == accepted
  {
    hide OfOrder;
    if accepted != [] {
      NothingOfOrder(accepted[1..], origin, order);
      assert accepted == [accepted[0]] + accepted[1..];
    }
  }

  lemma {:induction false} NothingUnknownOfOrder(unknown: seq<Unknown>, origin: Source, order: u64)
    requires forall u :: u in unknown ==> !OfOrder(u.proof, origin, order)
    ensures KeepUnknown(unknown, origin, order) == unknown
  {
    hide OfOrder;
    if unknown != [] {
      NothingUnknownOfOrder(unknown[1..], origin, order);
      assert unknown == [unknown[0]] + unknown[1..];
    }
  }

  lemma ReclaimKeeps(s: System, commit: ArchiveCommit, w: Write, publication: Publication, c: Config)
    requires Inv(s, c) && Enabled(s, Reclaim(commit, w, publication), c)
    ensures Inv(Next(s, Reclaim(commit, w, publication), c), c)
  {
    hide Pinned, PreviousRoot, Reclaimed, Recover, Replay, ValidRoot, Waits, WithArchive, WithAttempt, WithEconomic,
         WithOutcome, WithResolution, Without;
    var t, f := s.memory.value, Archive(commit);
    assert LogSound(s.durable, c) && Evidence(s.durable, c).Ok?;
    if AlreadyBound(t, commit.origin, commit.receipt.root) {
      ReclaimAgainIsExact(s.durable, commit, c);
      PublishKeeps(s, t, publication, c);
    } else {
      assert Appendable(s, f, c) && Apply(t, f, c) == WithArchive(t, commit);
      WriteKeeps(s, f, w, c);
      if w == Written { PublishKeeps(Logged(s, f, w), WithArchive(t, commit).value, publication, c); }
    }
  }

  lemma AcknowledgeKeeps(s: System, commit: EconomicCommit, w: Write, publication: Publication, c: Config)
    requires Inv(s, c) && Enabled(s, Acknowledge(commit, w, publication), c)
    ensures Inv(Next(s, Acknowledge(commit, w, publication), c), c)
  {
    hide OrderArchived, Pinned, PreviousRoot, Recover, Restored, RootDigest, Sound, Waits, WithArchive, WithAttempt,
         WithCheckpoint, WithResolution;
    var t, f := s.memory.value, Economic(commit);
    assert Evidence(s.durable, c).Ok?;
    if AlreadyBound(t, commit.origin, commit.receipt.root) {
      assert WithEconomic(t, commit) == Ok(t);
      PublishKeeps(s, t, publication, c);
    } else {
      assert Appendable(s, f, c) && Apply(t, f, c) == WithEconomic(t, commit);
      WriteKeeps(s, f, w, c);
      if w == Written { PublishKeeps(Logged(s, f, w), WithEconomic(t, commit).value, publication, c); }
    }
  }

  lemma CheckpointIsSound(s: System, from: nat, c: Config)
    requires Stable(s, c) && from < |s.checkpoints|
    ensures LogSound(s.durable, c) && Evidence(s.durable, c).Ok? && CheckpointSound(s.durable, s.checkpoints[from], c)
    ensures s.checkpoints[from].barrier <= |s.durable|
  {
    hide Evidence, Sound, Cleared, Accounted, LoggedRows, CallsSound;
  }

  lemma RestartKeeps(s: System, from: nat, c: Config)
    requires Inv(s, c) && Enabled(s, Restart(from), c)
    ensures Inv(Next(s, Restart(from), c), c) && s.checkpoints[from].barrier <= |s.durable|
    ensures Next(s, Restart(from), c)
            == if Readable(s.durable, s.checkpoints[from].barrier) then
                 s.(memory := Some(Evidence(s.durable, c).value), turn := Ready, open := true)
               else s
  {
    hide Readable, Recover, Evidence, LogSound, CheckpointSound, CallsSound;
    CheckpointIsSound(s, from, c);
    CheckpointRecovers(s.durable, s.checkpoints[from], c);
    StableOf(s, Next(s, Restart(from), c), c);
  }

  lemma StepKeeps(s: System, a: Action, c: Config)
    requires Inv(s, c) && Enabled(s, a, c)
    ensures Inv(Next(s, a, c), c)
  {
    match a
    case Send(p, w) => SendKeeps(s, p, w, c);
    case Refuse => RefuseKeeps(s, c);
    case Call(taken) => CallKeeps(s, taken, c);
    case Record(w) => RecordKeeps(s, w, c);
    case Reconcile(k, reconciliation, status, w) => ReconcileKeeps(s, k, reconciliation, status, w, c);
    case Reclaim(commit, w, publication) => ReclaimKeeps(s, commit, w, publication, c);
    case Acknowledge(commit, w, publication) => AcknowledgeKeeps(s, commit, w, publication, c);
    case Checkpoint(publication) =>
      assert Evidence(s.durable, c).Ok?;
      PublishKeeps(s, s.memory.value, publication, c);
    case Crash =>
      StableOf(s, Next(s, Crash, c), c);
    case Restart(from) => RestartKeeps(s, from, c);
  }

  lemma InitialHolds(c: Config)
    ensures Inv(Initial(c), c)
  {
    EmptyLogSound(c);
    var s := Initial(c);
    assert s.durable[..0] == [];
  }

  lemma {:induction false} RunKeeps(s: System, actions: seq<Action>, c: Config)
    requires Inv(s, c) && Possible(s, actions, c)
    ensures Inv(Run(s, actions, c), c)
    decreases |actions|
  {
    if actions != [] {
      StepKeeps(s, actions[0], c);
      RunKeeps(Next(s, actions[0], c), actions[1..], c);
    }
  }

  // ----- Theorems over all runs

  // However sends, store failures, adapter errors, crashes and recoveries are
  // interleaved, no command reaches the venue adapter twice, and every one that
  // reached it passed the last checks and is accepted, unknown or archived
  // evidence in the durable log.
  lemma AtMostOneCall(actions: seq<Action>, c: Config)
    requires Possible(Initial(c), actions, c)
    ensures var s := Run(Initial(c), actions, c);
      && (forall i, j :: 0 <= i < |s.calls| && 0 <= j < |s.calls| ==> s.calls[i] == s.calls[j] ==> i == j)
      && Evidence(s.durable, c).Ok?
      && forall k :: k in s.calls ==>
           && Sent(s.durable, k)
           && (IsAccepted(Evidence(s.durable, c).value, k) || IsUnknown(Evidence(s.durable, c).value, k)
               || Reclaimed(s.durable, k))
  {
    InitialHolds(c);
    RunKeeps(Initial(c), actions, c);
    var s := Run(Initial(c), actions, c);
    assert LogSound(s.durable, c) && CallsSound(s) && Evidence(s.durable, c).Ok?;
    forall k | k in s.calls
      ensures IsAccepted(Evidence(s.durable, c).value, k) || IsUnknown(Evidence(s.durable, c).value, k)
              || Reclaimed(s.durable, k)
    {
      SentIsAttempted(s.durable, k);
      AttemptedIsKnown(s.durable, c, k);
    }
  }

  // A restart from a published checkpoint succeeds exactly when the attempts it
  // is read back from are valid: those before it whose order was not archived by
  // then, and all after it. It then brings back exactly the evidence of the whole
  // committed log; otherwise nothing is recovered. No adapter is called.
  lemma RestartIsExact(actions: seq<Action>, c: Config, from: nat)
    requires Possible(Initial(c), actions, c)
    requires var s := Run(Initial(c), actions, c); Enabled(s, Restart(from), c)
    ensures var s := Run(Initial(c), actions, c); var after := Next(s, Restart(from), c);
      && s.checkpoints[from].barrier <= |s.durable| && Evidence(s.durable, c).Ok?
      && after.calls == s.calls && after.durable == s.durable
      && (after.memory == Some(Evidence(s.durable, c).value) && after.open
          <==> Readable(s.durable, s.checkpoints[from].barrier))
      && (after.memory.None? <==> !Readable(s.durable, s.checkpoints[from].barrier))
  {
    hide Readable, Next, Evidence, CheckpointSound, CallsSound, MemorySound, TurnSound;
    InitialHolds(c);
    RunKeeps(Initial(c), actions, c);
    var s := Run(Initial(c), actions, c);
    RestartKeeps(s, from, c);
    assert Evidence(s.durable, c).Ok?;
  }

  // Admission lets through proofs that recovery refuses: exactly those with a
  // zero identity or with a price under other rules than the instrument's.
  lemma AdmittedIsNotEnough(p: DispatchProof)
    requires Admitted(p)
    ensures ValidPersisted(p) <==> p.command.id != 0 && Sendable(p)
  {
  }

  // Such an attempt, for a price of older rules: it is committed, refused before
  // the venue, and after a crash no restart succeeds.
  lemma OldRulesStopRestart(c: Config)
    requires c.routes != [] && c.capacity > 0
    ensures exists actions: seq<Action> ::
              && Possible(Initial(c), actions, c)
              && var s := Run(Initial(c), actions, c);
                 && s.calls == [] && s.checkpoints != [] && s.memory.None?
                 && forall from: nat :: from < |s.checkpoints| ==> Next(s, Restart(from), c).memory.None?
  {
    var r := c.routes[0];
    var authority := Authority(true, r, 1, 1, 2, 1, 1, 1, 1);
    var command := Command(1, 1, 1, 1, [0], 1, 1, authority);
    var p := DispatchProof(Source(1, r, 1, 0), Context(r, 1, 2, 1, 1, 1), command, 1, 1, 1, 0);
    var actions := [Send(p, Written), Refuse, Crash];
    var s := System([Attempt(p)], [Encode(EMPTY, 0, c.routes)], true, None, Ready, []);
    RefusedAndCrashed(p, c);
    assert !Readable(s.durable, 0) by { assert s.durable[0..][0] == Attempt(p) && !ValidPersisted(p); }
    forall from: nat | from < |s.checkpoints| ensures Next(s, Restart(from), c).memory.None? {
      RestartIsExact(actions, c, from);
    }
  }

  // A first attempt that is refused before the venue, and a crash.
  lemma RefusedAndCrashed(p: DispatchProof, c: Config)
    requires Offered([], p, c) && c.capacity > 0
    ensures var actions := [Send(p, Written), Refuse, Crash];
      && Possible(Initial(c), actions, c)
      && Run(Initial(c), actions, c) == System([Attempt(p)], [Encode(EMPTY, 0, c.routes)], true, None, Ready, [])
  {
    hide Admitted, Encode, Sendable;
    var s := Initial(c);
    assert Enabled(s, Send(p, Written), c);
    var committed := Next(s, Send(p, Written), c);
    assert [] + [Attempt(p)] == [Attempt(p)];
    ThreeSteps(s, Send(p, Written), Refuse, Crash, c);
  }

  lemma ThreeSteps(s: System, a: Action, b: Action, d: Action, c: Config)
    requires Enabled(s, a, c) && Enabled(Next(s, a, c), b, c) && Enabled(Next(Next(s, a, c), b, c), d, c)
    ensures Possible(s, [a, b, d], c) && Run(s, [a, b, d], c) == Next(Next(Next(s, a, c), b, c), d, c)
  {
    hide *;
    TwoSteps(Next(s, a, c), b, d, c);
    FirstStep(s, a, [b, d], c);
    assert [a] + [b, d] == [a, b, d];
  }

  // At rest with an open store, memory is the evidence of the log; an accepted
  // row was really called; both tables are distinct, disjoint and within bounds.
  lemma TablesAtRest(actions: seq<Action>, c: Config)
    requires Possible(Initial(c), actions, c)
    ensures var s := Run(Initial(c), actions, c);
      Idle(s) ==>
        && Sound(s.memory.value, c) && Evidence(s.durable, c) == Ok(s.memory.value)
        && (forall i :: 0 <= i < |s.durable| && s.durable[i].Outcome? ==> KeyOf(s.durable[i].accepted) in s.calls)
  {
    InitialHolds(c);
    RunKeeps(Initial(c), actions, c);
  }
}
