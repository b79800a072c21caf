// What memory holds in every reachable state: in the middle of a send, after a
// failed store operation, and across a crash and a restart.
module DispatchLive {
  import opened Bytes
  import opened Wrappers
  import opened HistoryProof
  import opened HistoryChain
  import opened DispatchTables
  import opened DispatchHistory
  import opened DispatchSnapshot
  import opened DispatchProtocol
  import opened DispatchSafety

  // ----- Edits of the tables outside the log

  lemma MarkedSound(t: Tables, p: DispatchProof, c: Config)
    requires Sound(t, c) && !IsAccepted(t, KeyOf(p))
    ensures Sound(AsUnknown(t, p, c), c)
  {
    hide BindingSound;
  }

  lemma FreedSound(t: Tables, i: nat, c: Config)
    requires Sound(t, c) && i < |t.accepted|
    ensures var freed := t.(accepted := Without(t.accepted, i));
      Sound(freed, c) && !IsAccepted(freed, KeyOf(t.accepted[i])) && !Full(freed, c)
  {
    hide BindingSound, UnknownSound;
    var freed := Without(t.accepted, i);
    forall j | 0 <= j < |freed|
      ensures freed[j] == t.accepted[if j < i then j else j + 1] && KeyOf(freed[j]) != KeyOf(t.accepted[i])
    {
    }
  }

  // ----- Sound tables in every reachable state

  // The bound roots are those of some committed prefix.
  ghost predicate BindingsLogged(s: System, c: Config) {
    s.memory.Some? ==> exists n: nat :: n <= |s.durable| && PrefixBinds(s, n, c)
  }

  ghost predicate PrefixBinds(s: System, n: nat, c: Config)
    requires n <= |s.durable| && s.memory.Some?
  {
    Evidence(s.durable[..n], c).Ok? && Evidence(s.durable[..n], c).value.bindings == s.memory.value.bindings
  }

  ghost predicate LiveSound(s: System, c: Config) { s.memory.Some? ==> Sound(s.memory.value, c) }

  lemma OpenIsSound(s: System, c: Config)
    requires Inv(s, c) && s.open
    ensures LiveSound(s, c) && (s.memory.Some? ==> s.memory.value.bindings == Evidence(s.durable, c).value.bindings)
  {
    if s.memory.Some? {
      assert LogSound(s.durable, c);
      var t, e := s.memory.value, Evidence(s.durable, c).value;
      match s.turn
      case Ready =>
      case Committed(p) => FrontSound(t, e, c);
      case Called(p) =>
        OutcomeApplies(s, p, c);
        ApplySound(e, Outcome(p), c);
    }
  }

  lemma FrontSound(t: Tables, e: Tables, c: Config)
    requires Sound(e, c) && e.unknown != [] && t == e.(unknown := e.unknown[..|e.unknown| - 1])
    ensures Sound(t, c)
  {
    hide BindingSound, UnknownSound;
  }

  // The gate is open before every step that memory outlives.
  lemma StepIsOpen(s: System, a: Action, c: Config)
    requires Inv(s, c) && Enabled(s, a, c) && !a.Crash? && !a.Restart?
    ensures s.open && s.memory.Some?
  {
    hide LogSound, CallsSound, CheckpointSound, Offered, WithResolution, WithArchive, WithEconomic;
  }

  // What a step that shuts the gate leaves in memory.
  lemma ShutMemory(s: System, a: Action, c: Config)
    requires Inv(s, c) && Enabled(s, a, c) && !a.Crash? && !a.Restart? && !Next(s, a, c).open
    ensures s.memory.Some?
    ensures var t, after := s.memory.value, Next(s, a, c);
      && s.durable <= after.durable && after.memory.Some?
      && match a
         case Send(p, w) => !IsAccepted(t, KeyOf(p)) && after.memory.value in {t, AsUnknown(t, p, c)}
         case Record(_) =>
           var p := s.turn.accepted; var i := AcceptedIndex(t.accepted, KeyOf(p));
           && i < |t.accepted| && t.accepted[i] == p
           && after.memory.value == AsUnknown(t.(accepted := Without(t.accepted, i)), p, c)
         case _ => after.memory.value == t
  {
    hide LogSound, CallsSound, CheckpointSound, Offered, Evidence, IsAccepted, IsUnknown, AsUnknown, WithResolution,
         WithArchive, WithEconomic;
    StepIsOpen(s, a, c);
    if a.Record? { TurnIsAccepted(s, s.turn.accepted, c); }
  }

  // The acceptance under way is the last row of the accepted table.
  lemma TurnIsAccepted(s: System, p: DispatchProof, c: Config)
    requires Inv(s, c) && s.memory.Some? && s.turn == Called(p)
    ensures var t := s.memory.value; var i := AcceptedIndex(t.accepted, KeyOf(p));
      i < |t.accepted| && t.accepted[i] == p
  {
    OutcomeApplies(s, p, c);
    assert LogSound(s.durable, c);
    var e := Evidence(s.durable, c).value;
    OutcomeSound(e, p, c);
    var t := s.memory.value;
    assert t.accepted[|e.accepted|] == p;
    hide Evidence, Sound;
    AcceptedAt(t.accepted, |e.accepted|);
  }

  lemma AcceptedAt(accepted: seq<DispatchProof>, i: nat)
    requires DistinctAccepted(accepted) && i < |accepted|
    ensures AcceptedIndex(accepted, KeyOf(accepted[i])) == i
  {
  }

  lemma MarkBindings(t: Tables, p: DispatchProof, c: Config)
    ensures AsUnknown(t, p, c).bindings == t.bindings && AsUnknown(t, p, c).accepted == t.accepted
    ensures t.unknown <= AsUnknown(t, p, c).unknown
  {
  }

  lemma ShutIsSound(s: System, a: Action, c: Config)
    requires Inv(s, c) && Enabled(s, a, c) && !a.Crash? && !a.Restart? && !Next(s, a, c).open
    ensures var after := Next(s, a, c);
      LiveSound(after, c) && s.memory.Some? && after.memory.Some?
      && after.memory.value.bindings == s.memory.value.bindings
  {
    hide Next, Inv, Enabled, Sound, AsUnknown;
    StepIsOpen(s, a, c);
    OpenIsSound(s, c);
    ShutMemory(s, a, c);
    var t := s.memory.value;
    match a
    case Send(p, _) =>
      MarkedSound(t, p, c);
      MarkBindings(t, p, c);
    case Record(_) =>
      var p := s.turn.accepted;
      var i := AcceptedIndex(t.accepted, KeyOf(p));
      FreedSound(t, i, c);
      MarkedSound(t.(accepted := Without(t.accepted, i)), p, c);
      MarkBindings(t.(accepted := Without(t.accepted, i)), p, c);
    case _ =>
  }

  lemma StepIsLive(s: System, a: Action, c: Config)
    requires Inv(s, c) && Enabled(s, a, c)
    ensures LiveSound(Next(s, a, c), c) && BindingsLogged(Next(s, a, c), c)
  {
    hide Inv, Enabled, Sound, Evidence, Next;
    var after := Next(s, a, c);
    StepKeeps(s, a, c);
    if after.open {
      OpenIsSound(after, c);
      OpenIsLogged(after, c);
    } else if a.Crash? || a.Restart? {
      GoneMemory(s, a, c);
    } else {
      StepIsOpen(s, a, c);
      OpenIsSound(s, c);
      ShutMemory(s, a, c);
      ShutIsSound(s, a, c);
      OpenIsLogged(s, c);
      assert after.durable[..|s.durable|] == s.durable && s.durable[..|s.durable|] == s.durable;
      assert PrefixBinds(after, |s.durable|, c);
    }
  }

  lemma GoneMemory(s: System, a: Action, c: Config)
    requires Enabled(s, a, c) && (a.Crash? || (a.Restart? && !Next(s, a, c).open))
    ensures Next(s, a, c).memory.None?
  {
    hide Recover;
  }

  lemma OpenIsLogged(s: System, c: Config)
    requires Inv(s, c) && s.open
    ensures BindingsLogged(s, c) && (s.memory.Some? ==> PrefixBinds(s, |s.durable|, c))
  {
    OpenIsSound(s, c);
    assert LogSound(s.durable, c);
    hide Evidence, Sound;
    assert s.durable[..|s.durable|] == s.durable;
    if s.memory.Some? { assert PrefixBinds(s, |s.durable|, c); }
  }

  lemma {:induction false} RunIsLive(s: System, actions: seq<Action>, c: Config)
    requires Inv(s, c) && LiveSound(s, c) && BindingsLogged(s, c) && Possible(s, actions, c)
    ensures Inv(Run(s, actions, c), c) && LiveSound(Run(s, actions, c), c) && BindingsLogged(Run(s, actions, c), c)
    decreases |actions|
  {
    hide Inv, LiveSound, BindingsLogged, Enabled, Next;
    if actions != [] {
      StepKeeps(s, actions[0], c);
      StepIsLive(s, actions[0], c);
      RunIsLive(Next(s, actions[0], c), actions[1..], c);
    }
  }

  lemma InitialIsLive(c: Config)
    ensures Inv(Initial(c), c) && LiveSound(Initial(c), c) && BindingsLogged(Initial(c), c)
  {
    hide Inv, LiveSound, BindingsLogged;
    InitialHolds(c);
    OpenIsSound(Initial(c), c);
    OpenIsLogged(Initial(c), c);
  }

  // In every reachable state, at rest, in the middle of a send or after a failed
  // store operation, keys are distinct and disjoint within the shared capacity.
  lemma TablesAlwaysSound(actions: seq<Action>, c: Config)
    requires Possible(Initial(c), actions, c)
    ensures var s := Run(Initial(c), actions, c); s.memory.Some? ==> Sound(s.memory.value, c)
  {
    InitialIsLive(c);
    RunIsLive(Initial(c), actions, c);
  }

  // Whatever root memory has bound to an origin, in any reachable state, ends a
  // chain of accepted receipts of a committed prefix.
  lemma BoundRootsAlwaysEndChains(actions: seq<Action>, c: Config, origin: Source) returns (n: nat)
    requires Possible(Initial(c), actions, c) && Run(Initial(c), actions, c).memory.Some?
    ensures var s := Run(Initial(c), actions, c);
      && n <= |s.durable|
      && var moves := Moves(s.durable[..n], origin);
         && PreviousRoot(s.memory.value.bindings, origin) == LastRoot(moves)
         && (moves != [] ==> Accepted(moves, moves[0].root.origin, Roots(moves)))
  {
    hide Inv, LiveSound, Accepted, Moves, LastRoot, Replay;
    InitialIsLive(c);
    RunIsLive(Initial(c), actions, c);
    var s := Run(Initial(c), actions, c);
    n :| n <= |s.durable| && PrefixBinds(s, n, c);
    BoundRootEndsChain(s.durable[..n], c, origin);
  }

  // ----- How rows leave memory

  // The step frees the order of the proof.
  predicate Frees(t: Tables, a: Action, p: DispatchProof) {
    && a.Reclaim? && a.publication == Published && OfOrder(p, a.archive.origin, a.archive.order)
    && (a.write == Written || AlreadyBound(t, a.archive.origin, a.archive.receipt.root))
  }

  // What a step that leaves the gate open does to memory, as far as it edits rows.
  lemma OpenMemory(s: System, a: Action, c: Config)
    requires Inv(s, c) && Enabled(s, a, c) && !a.Crash? && !a.Restart? && Next(s, a, c).open
    ensures s.memory.Some? && Next(s, a, c).memory.Some?
    ensures var t, after := s.memory.value, Next(s, a, c).memory.value;
      match a
      case Refuse => after == AsUnknown(t, s.turn.attempt, c)
      case Call(taken) =>
        after == if taken then t.(accepted := t.accepted + [s.turn.attempt]) else AsUnknown(t, s.turn.attempt, c)
      case Reconcile(k, reconciliation, status, _) => Ok(after) == WithResolution(t, k, reconciliation, status)
      case Reclaim(commit, w, p) =>
        p == Published && Ok(after) == WithArchive(t, commit)
        && (w == Written || AlreadyBound(t, commit.origin, commit.receipt.root))
      case Acknowledge(commit, w, p) => Ok(after) == WithEconomic(t, commit)
      case _ => after == t
  {
    hide LogSound, CallsSound, CheckpointSound, Offered, Evidence, IsAccepted, IsUnknown, AsUnknown, WithResolution,
         WithArchive, WithEconomic;
    StepIsOpen(s, a, c);
  }

  // An unknown row stays as it is or gets its one resolution, until a published
  // reclaim of its order takes it, settled.
  ghost predicate UnknownFollows(t: Tables, a: Action, u: Unknown, after: Tables) {
    && (Waits(after, u.proof) <==> !Frees(t, a, u.proof))
    && (Frees(t, a, u.proof) ==> !Unsettled(u))
    && (u in after.unknown || Frees(t, a, u.proof)
        || (a.Reconcile? && a.key == KeyOf(u.proof) && u.reconciliation == 0
            && Unknown(u.proof, a.reconciliation, Some(a.status)) in after.unknown))
  }

  // An accepted row stays until a published reclaim of its order, unless its own
  // acceptance cannot be committed: then the command is unknown instead.
  ghost predicate AcceptedFollows(s: System, a: Action, p: DispatchProof, after: Tables)
    requires s.memory.Some?
  {
    || p in after.accepted || Frees(s.memory.value, a, p)
    || (a.Record? && a.write != Written && s.turn == Called(p) && Waits(after, p))
  }

  lemma UnknownStays(s: System, a: Action, c: Config, u: Unknown)
    requires Inv(s, c) && Enabled(s, a, c) && !a.Crash? && s.memory.Some? && u in s.memory.value.unknown
    ensures Next(s, a, c).memory.Some? && UnknownFollows(s.memory.value, a, u, Next(s, a, c).memory.value)
  {
    hide Inv, Enabled, Next, AsUnknown, Unsettled, OfOrder, AlreadyBound, ArchiveReceiptAccepted, AcceptsRoot;
    assert !a.Restart? by { NotRestart(s, a, c); }
    StepIsOpen(s, a, c);
    var t, next := s.memory.value, Next(s, a, c);
    if next.open {
      OpenMemory(s, a, c);
      match a
      case Refuse => MarkBindings(t, s.turn.attempt, c);
      case Call(_) => MarkBindings(t, s.turn.attempt, c);
      case Reconcile(k, reconciliation, status, _) => ResolvedRow(t, k, reconciliation, status, u);
      case Reclaim(commit, _, _) => ReclaimedRow(t, commit, u);
      case Acknowledge(commit, _, _) => AcknowledgedRows(t, commit);
      case _ =>
    } else {
      ShutMemory(s, a, c);
      NotFreed(s, a, c, u.proof);
      match a
      case Send(p, _) => MarkBindings(t, p, c);
      case Record(_) =>
        var i := AcceptedIndex(t.accepted, KeyOf(s.turn.accepted));
        MarkBindings(t.(accepted := Without(t.accepted, i)), s.turn.accepted, c);
      case _ =>
    }
  }

  lemma ResolvedRow(t: Tables, k: Key, reconciliation: u64, status: Status, u: Unknown)
    requires WithResolution(t, k, reconciliation, status).Ok? && u in t.unknown
    ensures var after := WithResolution(t, k, reconciliation, status).value;
      && Waits(after, u.proof)
      && (u in after.unknown || (k == KeyOf(u.proof) && u.reconciliation == 0
                                 && Unknown(u.proof, reconciliation, Some(status)) in after.unknown))
  {
    var i, j := UnknownIndex(t.unknown, k), 0;
    j :| 0 <= j < |t.unknown| && t.unknown[j] == u;
    var after := WithResolution(t, k, reconciliation, status).value;
    assert after.unknown[j] in after.unknown && after.unknown[j].proof == u.proof;
  }

  lemma ReclaimedRow(t: Tables, commit: ArchiveCommit, u: Unknown)
    requires WithArchive(t, commit).Ok? && u in t.unknown
    ensures var after, gone := WithArchive(t, commit).value, OfOrder(u.proof, commit.origin, commit.order);
      && (gone ==> !Waits(after, u.proof) && !Unsettled(u)) && (!gone ==> u in after.unknown && Waits(after, u.proof))
  {
    hide OfOrder, Unsettled, ArchiveReceiptAccepted;
    KeepUnknownKeeps(t.unknown, commit.origin, commit.order);
    var j :| 0 <= j < |t.unknown| && t.unknown[j] == u;
  }

  lemma AcknowledgedRows(t: Tables, commit: EconomicCommit)
    requires WithEconomic(t, commit).Ok?
    ensures WithEconomic(t, commit).value.accepted == t.accepted && WithEconomic(t, commit).value.unknown == t.unknown
  {
    hide AcceptsRoot;
  }

  lemma NotRestart(s: System, a: Action, c: Config)
    requires Enabled(s, a, c) && s.memory.Some?
    ensures !a.Restart?
  {
  }

  lemma NotFreed(s: System, a: Action, c: Config, p: DispatchProof)
    requires Inv(s, c) && Enabled(s, a, c) && s.memory.Some? && !Next(s, a, c).open
    ensures !Frees(s.memory.value, a, p)
  {
    hide LogSound, CallsSound, CheckpointSound, Evidence, WithArchive, AlreadyBound, OfOrder;
    if a.Reclaim? { StepIsOpen(s, a, c); }
  }

  lemma AcceptedStays(s: System, a: Action, c: Config, p: DispatchProof)
    requires Inv(s, c) && Enabled(s, a, c) && !a.Crash? && s.memory.Some? && p in s.memory.value.accepted
    ensures Next(s, a, c).memory.Some? && AcceptedFollows(s, a, p, Next(s, a, c).memory.value)
  {
    hide Inv, Enabled, Next, AsUnknown, OfOrder, AlreadyBound, ArchiveReceiptAccepted, AcceptsRoot, Sound;
    assert !a.Restart? by { NotRestart(s, a, c); }
    StepIsOpen(s, a, c);
    OpenIsSound(s, c);
    var t, next := s.memory.value, Next(s, a, c);
    if next.open {
      OpenMemory(s, a, c);
      match a
      case Refuse => MarkBindings(t, s.turn.attempt, c);
      case Call(_) => MarkBindings(t, s.turn.attempt, c);
      case Reclaim(commit, _, _) => KeepAcceptedKeeps(t.accepted, commit.origin, commit.order);
      case Acknowledge(commit, _, _) => AcknowledgedRows(t, commit);
      case _ =>
    } else {
      ShutMemory(s, a, c);
      match a
      case Send(q, _) => MarkBindings(t, q, c);
      case Record(w) =>
        RecordShut(s, w, c);
        TakenBack(t, AcceptedIndex(t.accepted, KeyOf(s.turn.accepted)), c, p);
      case _ =>
    }
  }

  lemma RecordShut(s: System, w: Write, c: Config)
    requires Enabled(s, Record(w), c) && s.open && !Next(s, Record(w), c).open
    ensures w != Written && s.turn.Called? && s.turn == Called(s.turn.accepted)
  {
  }

  lemma TakenBack(t: Tables, i: nat, c: Config, p: DispatchProof)
    requires Sound(t, c) && i < |t.accepted| && p in t.accepted
    ensures var after := AsUnknown(t.(accepted := Without(t.accepted, i)), t.accepted[i], c);
      if p == t.accepted[i] then Waits(after, p) else p in after.accepted
  {
    hide BindingSound, UnknownSound;
    var q, freed := t.accepted[i], t.(accepted := Without(t.accepted, i));
    var j :| 0 <= j < |t.accepted| && t.accepted[j] == p;
    if j != i { WithoutHas(t.accepted, i, j); }
    FreedSound(t, i, c);
    assert !IsUnknown(freed, KeyOf(q));
    var after := AsUnknown(freed, q, c);
    assert after.unknown[|t.unknown|] == Unknown(q, 0, None);
  }

  // In every reachable state, whatever step comes next short of a crash.
  lemma RowsFollow(actions: seq<Action>, a: Action, c: Config)
    requires Possible(Initial(c), actions, c)
    requires var s := Run(Initial(c), actions, c); Enabled(s, a, c) && s.memory.Some? && !a.Crash?
    ensures var s := Run(Initial(c), actions, c); var after := Next(s, a, c);
      && after.memory.Some?
      && (forall u :: u in s.memory.value.unknown ==> UnknownFollows(s.memory.value, a, u, after.memory.value))
      && (forall p :: p in s.memory.value.accepted ==> AcceptedFollows(s, a, p, after.memory.value))
  {
    hide Inv, Next, Enabled, UnknownFollows, AcceptedFollows;
    InitialHolds(c);
    RunKeeps(Initial(c), actions, c);
    var s := Run(Initial(c), actions, c);
    MemoryStays(s, a, c);
    forall u | u in s.memory.value.unknown ensures UnknownFollows(s.memory.value, a, u, Next(s, a, c).memory.value) {
      UnknownStays(s, a, c, u);
    }
    forall p | p in s.memory.value.accepted ensures AcceptedFollows(s, a, p, Next(s, a, c).memory.value) {
      AcceptedStays(s, a, c, p);
    }
  }

  lemma MemoryStays(s: System, a: Action, c: Config)
    requires Inv(s, c) && Enabled(s, a, c) && s.memory.Some? && !a.Crash?
    ensures Next(s, a, c).memory.Some?
  {
    hide Inv, Enabled, Next, Frees, AsUnknown;
    NotRestart(s, a, c);
    if Next(s, a, c).open { OpenMemory(s, a, c); } else { ShutMemory(s, a, c); }
  }

  // Whether memory still shows the very proof, accepted or unknown.
  ghost predicate Shown(t: Tables, p: DispatchProof) { p in t.accepted || Waits(t, p) }

  ghost predicate ReclaimedIn(actions: seq<Action>, p: DispatchProof) {
    exists i :: 0 <= i < |actions| && actions[i].Reclaim? && actions[i].publication == Published
                && OfOrder(p, actions[i].archive.origin, actions[i].archive.order)
  }

  // Over any run without a crash, memory keeps showing a proof until its order
  // is reclaimed.
  lemma {:induction false} ShownUntilReclaimed(s: System, actions: seq<Action>, c: Config, p: DispatchProof)
    requires Inv(s, c) && Possible(s, actions, c) && s.memory.Some? && Shown(s.memory.value, p)
    requires forall i :: 0 <= i < |actions| ==> !actions[i].Crash?
    ensures ReclaimedIn(actions, p)
            || (Run(s, actions, c).memory.Some? && Shown(Run(s, actions, c).memory.value, p))
    decreases |actions|
  {
    hide Inv, Enabled, Next, OfOrder;
    if actions != [] {
      var a, rest, t := actions[0], actions[1..], s.memory.value;
      StepKeeps(s, a, c);
      if p in t.accepted {
        AcceptedStays(s, a, c, p);
      } else {
        var u :| u in t.unknown && u.proof == p;
        UnknownStays(s, a, c, u);
      }
      if !Frees(t, a, p) {
        ShownUntilReclaimed(Next(s, a, c), rest, c, p);
        if ReclaimedIn(rest, p) {
          var i :| 0 <= i < |rest| && rest[i].Reclaim? && rest[i].publication == Published
                   && OfOrder(p, rest[i].archive.origin, rest[i].archive.order);
          assert actions[i + 1] == rest[i];
        }
      }
    }
  }

  // ----- Across a crash and a restart

  // What the evidence of a log says of one proof.
  lemma {:induction false} AcceptedIsCommitted(log: seq<Fact>, c: Config, p: DispatchProof)
    requires Evidence(log, c).Ok?
    ensures p in Evidence(log, c).value.accepted ==> Outcome(p) in log
    ensures Outcome(p) in log ==> p in Evidence(log, c).value.accepted || OrderArchived(log, p.origin, p.command.order)
    decreases |log|
  {
    hide Apply, Sound, OrderArchived;
    if log != [] {
      var n := |log| - 1;
      var front, f := log[..n], log[n];
      assert log == front + [f];
      AcceptedIsCommitted(front, c, p);
      EmptySound(c);
      ReplaySound(EMPTY, front, c);
      var t := Evidence(front, c).value;
      ArchivedGrows(front, f, p.origin, p.command.order);
      if p in Apply(t, f, c).value.accepted { AcceptedOrigin(t, f, c, p); }
      if f == Outcome(p) { OutcomeIsAccepted(t, p, c); }
      if p in t.accepted { AcceptedLeaves(t, f, c, p); }
    }
  }

  lemma OutcomeIsAccepted(t: Tables, p: DispatchProof, c: Config)
    requires Sound(t, c) && Apply(t, Outcome(p), c).Ok?
    ensures p in Apply(t, Outcome(p), c).value.accepted
  {
    OutcomeSound(t, p, c);
  }

  // A proof is unknown evidence exactly when its attempt is committed, its order
  // was not archived and no acceptance of it is committed.
  lemma WaitsIsExact(log: seq<Fact>, c: Config, p: DispatchProof)
    requires LogSound(log, c)
    ensures Waits(Evidence(log, c).value, p) <==>
            Attempt(p) in log && !OrderArchived(log, p.origin, p.command.order) && Outcome(p) !in log
    ensures p in Evidence(log, c).value.accepted <==>
            Outcome(p) in log && !OrderArchived(log, p.origin, p.command.order)
  {
    hide Evidence, OrderArchived;
    AcceptedIsCommitted(log, c, p);
    var t := Evidence(log, c).value;
    if Attempt(p) in log {
      var i :| 0 <= i < |log| && log[i] == Attempt(p);
      assert log[i].attempt == p;
    }
    if p in t.accepted && Waits(t, p) { NotBoth(t, c, p); }
  }

  lemma NotBoth(t: Tables, c: Config, p: DispatchProof)
    requires Sound(t, c) && p in t.accepted
    ensures !Waits(t, p)
  {
    hide BindingSound, UnknownSound;
  }

  // After a crash and a successful restart the rows are those of the log: an
  // unknown row of the memory that was lost comes back exactly when its attempt
  // is durable, its order was not archived and no acceptance of it is durable.
  lemma RestartBringsBack(actions: seq<Action>, c: Config, from: nat, p: DispatchProof)
    requires Possible(Initial(c), actions, c)
    requires from < |Run(Initial(c), actions, c).checkpoints|
    ensures var s := Run(Initial(c), actions, c); var crashed := Next(s, Crash, c);
      && Enabled(s, Crash, c) && Enabled(crashed, Restart(from), c)
      && var after := Next(crashed, Restart(from), c);
         && s.checkpoints[from].barrier <= |s.durable|
         && (after.memory.Some? <==> Readable(s.durable, s.checkpoints[from].barrier))
         && (after.memory.Some? ==>
               && (Waits(after.memory.value, p) <==>
                   Attempt(p) in s.durable && !OrderArchived(s.durable, p.origin, p.command.order)
                   && Outcome(p) !in s.durable)
               && (p in after.memory.value.accepted <==>
                   Outcome(p) in s.durable && !OrderArchived(s.durable, p.origin, p.command.order)))
  {
    hide Waits, OrderArchived, Readable, Evidence, LogSound, CallsSound, CheckpointSound, MemorySound, TurnSound,
         Recover;
    var s := Run(Initial(c), actions, c);
    InitialHolds(c);
    RunKeeps(Initial(c), actions, c);
    StepKeeps(s, Crash, c);
    var crashed := Next(s, Crash, c);
    RestartKeeps(crashed, from, c);
    assert LogSound(s.durable, c);
    WaitsIsExact(s.durable, c, p);
  }

  // A first attempt whose commit fails is unknown in memory at once. After a
  // crash it is unknown again exactly if it had become durable all the same;
  // otherwise the row has gone although no fact was ever committed.
  lemma FailedCommitDecides(p: DispatchProof, landed: bool, c: Config)
    requires Offered([], p, c) && ValidPersisted(p) && c.capacity > 0
    ensures var send, s := Send(p, CommitFailed(landed)), Initial(c);
      && Possible(s, [send, Crash, Restart(0)], c)
      && var sent, after := Next(s, send, c), Run(s, [send, Crash, Restart(0)], c);
         && sent.memory.Some? && Waits(sent.memory.value, p)
         && after.memory.Some? && (Waits(after.memory.value, p) <==> landed)
         && after.durable == if landed then [Attempt(p)] else []
  {
    var send, s := Send(p, CommitFailed(landed)), Initial(c);
    var sent := Next(s, send, c);
    FirstFailure(p, landed, c);
    hide Next, Enabled, Initial, ValidPersisted, OrderArchived, Offered;
    OneStep(s, send, c);
    RestartBringsBack([send], c, 0, p);
    ThreeSteps(s, send, Crash, Restart(0), c);
    RestartKeepsLog(Next(sent, Crash, c), c);
  }

  lemma RestartKeepsLog(s: System, c: Config)
    requires Enabled(s, Restart(0), c)
    ensures Next(s, Restart(0), c).durable == s.durable
  {
  }

  lemma FirstFailure(p: DispatchProof, landed: bool, c: Config)
    requires Offered([], p, c) && ValidPersisted(p) && c.capacity > 0
    ensures var send, s := Send(p, CommitFailed(landed)), Initial(c);
      && Enabled(s, send, c)
      && var sent := Next(s, send, c);
         && sent.checkpoints == [Encode(EMPTY, 0, c.routes)] && sent.memory.Some? && Waits(sent.memory.value, p)
         && sent.durable == (if landed then [Attempt(p)] else [])
         && Readable(sent.durable, 0) && !OrderArchived(sent.durable, p.origin, p.command.order)
         && Next(sent, Crash, c).durable == sent.durable
  {
    hide ValidPersisted, Admitted;
    var sent := Next(Initial(c), Send(p, CommitFailed(landed)), c);
    assert sent.memory.value.unknown == [Unknown(p, 0, None)];
    assert sent.memory.value.unknown[0] in sent.memory.value.unknown;
    assert sent.durable[..0] == [] && sent.durable[0..] == sent.durable;
  }

  // Such attempts exist for every route.
  lemma SomeAttemptIsOffered(c: Config)
    requires c.routes != []
    ensures exists p :: Offered([], p, c) && ValidPersisted(p)
  {
    var r := c.routes[0];
    var command := Command(1, 1, 1, 1, [0], 1, 1, Authority(true, r, 1, 1, 1, 1, 1, 1, 1));
    var p := DispatchProof(Source(1, r, 1, 0), Context(r, 1, 1, 1, 1, 1), command, 1, 1, 1, 0);
    assert Offered([], p, c) && ValidPersisted(p);
  }
}
