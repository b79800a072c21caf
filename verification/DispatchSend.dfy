// The gateway with its store and venue adapter: each operation is a short run
// of the protocol's steps, whatever fails on the way.
module DispatchSend {
  import opened Bytes
  import opened Wrappers
  import opened HistoryProof
  import opened DispatchTables
  import opened DispatchSnapshot
  import opened DispatchProtocol
  import opened DispatchGateway
  import opened DispatchOrders

  // The durable stream. Any failure shuts its gate; what failed may have landed.
  class Store {
    var committed: seq<Fact>
    var checkpoints: seq<Snapshot>
    var pending: Option<Fact>
    var open: bool
    // Every fact and checkpoint it was asked to keep.
    ghost var asked: seq<Fact>
    ghost var shown: seq<Snapshot>

    constructor (routes: Routes)
      ensures committed == [] && checkpoints == [Encode(EMPTY, 0, routes)] && pending == None && open
      ensures asked == [] && shown == []
    {
      committed, checkpoints, pending, open := [], [Encode(EMPTY, 0, routes)], None, true;
      asked, shown := [], [];
    }

    method Append(f: Fact) returns (w: Write)
      requires open
      modifies this
      ensures checkpoints == old(checkpoints) && asked == old(asked) + [f] && shown == old(shown)
      ensures w == Written ==> open && pending == Some(f) && committed == old(committed)
      ensures w != Written ==>
                w.AppendFailed? && !open && committed == if w.landed then old(committed) + [f] else old(committed)
    {
      asked := asked + [f];
      if * {
        var landed: bool := *;
        if landed { committed := committed + [f]; }
        open, pending := false, None;
        return AppendFailed(landed);
      }
      pending := Some(f);
      return Written;
    }

    method Commit() returns (w: Write)
      requires open && pending.Some?
      modifies this
      ensures checkpoints == old(checkpoints) && pending == None && asked == old(asked) && shown == old(shown)
      ensures w == Written ==> open && committed == old(committed) + [old(pending).value]
      ensures w != Written ==>
                w.CommitFailed? && !open
                    && committed == if w.landed then old(committed) + [old(pending).value] else old(committed)
    {
      var f := pending.value;
      pending := None;
      if * {
        var landed: bool := *;
        if landed { committed := committed + [f]; }
        open := false;
        return CommitFailed(landed);
      }
      committed := committed + [f];
      return Written;
    }

    // Append and commit one fact.
    method Log(f: Fact) returns (w: Write)
      requires open
      modifies this
      ensures checkpoints == old(checkpoints) && open == (w == Written)
      ensures asked == old(asked) + [f] && shown == old(shown)
      ensures committed == if w == Written || (w.AppendFailed? && w.landed) || (w.CommitFailed? && w.landed)
                           then old(committed) + [f] else old(committed)
    {
      w := Append(f);
      if w == Written { w := Commit(); }
    }

    method Publish(s: Snapshot) returns (p: Publication)
      requires open
      modifies this
      ensures committed == old(committed) && pending == old(pending)
      ensures asked == old(asked) && shown == old(shown) + [s]
      ensures p == Published ==> open && checkpoints == old(checkpoints) + [s]
      ensures p != Published ==> !open && checkpoints == if p.kept then old(checkpoints) + [s] else old(checkpoints)
    {
      shown := shown + [s];
      if * {
        var kept: bool := *;
        if kept { checkpoints := checkpoints + [s]; }
        open := false;
        return PublishFailed(kept);
      }
      checkpoints := checkpoints + [s];
      return Published;
    }
  }

  // NotSent is the error of a send, and of an adapter that fails.
  datatype SendResult = Accepted | Backpressure | Stopped | NotSent

  class Adapter {
    var calls: seq<Key>
    ghost var answers: seq<SendResult>

    constructor ()
      ensures calls == [] && answers == []
    {
      calls := [];
      answers := [];
    }

    // The venue takes the order, or refuses or fails.
    method TrySend(p: DispatchProof) returns (answer: SendResult)
      modifies this
      ensures calls == old(calls) + [KeyOf(p)] && answers == old(answers) + [answer]
    {
      calls := calls + [KeyOf(p)];
      answer := *;
      answers := answers + [answer];
    }
  }

  // The very command is already accepted evidence.
  predicate Recorded(t: Tables, p: DispatchProof) {
    IsAccepted(t, KeyOf(p)) && t.accepted[AcceptedIndex(t.accepted, KeyOf(p))] == p
  }

  // An order that answers for the row decides: a row that holds a resolution keeps
  // it, any other gets this one as soon as the store has it.
  ghost predicate Resolved(u: Unknown, k: Key, o: Order, r: Result<(), DispatchError>, steps: seq<Action>) {
    && o.reconciliation > u.proof.priorReconciliation
    && if u.reconciliation != 0 then
         && steps == []
         && r == if u.reconciliation == o.reconciliation && u.status == Some(o.status) then Ok(())
                 else Err(ConflictingDispatchResolution)
       else
         && |steps| == 1 && steps[0].Reconcile?
         && steps[0] == Reconcile(k, o.reconciliation, o.status, steps[0].write)
         && r == if steps[0].write == Written then Ok(()) else Err(DurableDispatchUnavailable)
  }

  // With keys of their own, rows are recorded as themselves.
  lemma RecordedIsExact(t: Tables, p: DispatchProof)
    requires DistinctAccepted(t.accepted)
    ensures Recorded(t, p) <==> p in t.accepted
  {
    if p in t.accepted {
      var i :| 0 <= i < |t.accepted| && t.accepted[i] == p;
      assert AcceptedIndex(t.accepted, KeyOf(p)) == i;
    }
  }

  lemma SendEnabled(s: System, p: DispatchProof, c: Config)
    requires Idle(s) && Offered(s.durable, p, c)
    requires !IsAccepted(s.memory.value, KeyOf(p)) && !IsUnknown(s.memory.value, KeyOf(p)) && !Full(s.memory.value, c)
    ensures forall w: Write :: Enabled(s, Send(p, w), c)
  {
  }

  lemma CalledMayRecord(s: System, w: Write, c: Config)
    requires s.memory.Some? && s.turn.Called?
    ensures Enabled(s, Record(w), c)
  {
  }

  lemma UnresolvedMay(s: System, k: Key, reconciliation: u64, status: Status, c: Config)
    requires Idle(s) && k.account in c.routes && IsUnknown(s.memory.value, k) && status != Unresolved
    requires var u := s.memory.value.unknown[UnknownIndex(s.memory.value.unknown, k)];
      u.reconciliation == 0 && reconciliation > u.proof.priorReconciliation
    ensures Enabled(s, Reconcile(k, reconciliation, status, Written), c)
  {
  }

  // What the two kinds of history commit do to the system, once their writes have ended.
  lemma ReclaimNext(s: System, commit: ArchiveCommit, w: Write, p: Publication, c: Config)
    requires s.memory.Some? && WithArchive(s.memory.value, commit).Ok?
    ensures var after := WithArchive(s.memory.value, commit).value;
      Next(s, Reclaim(commit, w, p), c)
      == if AlreadyBound(s.memory.value, commit.origin, commit.receipt.root) then WithCheckpoint(s, after, p, c)
         else if w == Written then WithCheckpoint(s.(durable := s.durable + [Archive(commit)]), after, p, c)
         else Logged(s, Archive(commit), w)
  {
    hide WithArchive, WithCheckpoint, AlreadyBound;
  }

  lemma AcknowledgeNext(s: System, commit: EconomicCommit, w: Write, p: Publication, c: Config)
    requires s.memory.Some? && WithEconomic(s.memory.value, commit).Ok?
    ensures var after := WithEconomic(s.memory.value, commit).value;
      Next(s, Acknowledge(commit, w, p), c)
      == if AlreadyBound(s.memory.value, commit.origin, commit.receipt.root) then WithCheckpoint(s, after, p, c)
         else if w == Written then WithCheckpoint(s.(durable := s.durable + [Economic(commit)]), after, p, c)
         else Logged(s, Economic(commit), w)
  {
    hide WithEconomic, WithCheckpoint, AlreadyBound;
  }

  // The facts the store is asked to keep for the steps taken.
  ghost function Asked(steps: seq<Action>): seq<Fact> {
    if steps == [] then []
    else
      (match steps[0]
       case Send(p, _) => [Attempt(p)] + if |steps| > 1 && steps[1] == Call(true) then [Outcome(p)] else []
       case Reconcile(k, reconciliation, status, _) =>
         [Resolution(k.origin, k.account, k.command, reconciliation, status)]
       case _ => [])
  }

  // What one call adds at the venue: the step it is, and the answer returned,
  // unless that is an acceptance which cannot be recorded.
  ghost predicate Answered(calls: seq<Key>, answers: seq<SendResult>, step: Action, p: DispatchProof, r: SendResult,
                           adapter: Adapter)
    reads adapter
  {
    && adapter.calls == calls + [KeyOf(p)]
    && exists answer :: && adapter.answers == answers + [answer] && step == Call(answer == Accepted)
                        && (r == answer || (answer == Accepted && r == NotSent))
  }

  // A written attempt that is permitted and sendable is called, as the second
  // step; nothing else is.
  ghost predicate ReachesVenue(calls: seq<Key>, answers: seq<SendResult>, steps: seq<Action>, p: DispatchProof,
                               permitted: bool, r: SendResult, adapter: Adapter)
    reads adapter
  {
    if steps != [] && steps[0] == Send(p, Written) && permitted && Sendable(p) then
      |steps| > 1 && Answered(calls, answers, steps[1], p, r, adapter)
    else
      && adapter.calls == calls && adapter.answers == answers && (r == Accepted || r == NotSent)
      && (steps != [] && steps[0] == Send(p, Written) ==> steps == [Send(p, Written), Refuse])
  }

  class DurableGateway {
    const gateway: Gateway
    const store: Store
    const adapter: Adapter

    constructor (config: Config)
      ensures fresh(gateway) && fresh(store) && fresh(adapter) && gateway.Valid() && gateway.config == config
      ensures fresh(gateway.accepted) && fresh(gateway.accepted.data) && fresh(gateway.unknown)
               && fresh(gateway.unknown.data)
      ensures fresh(gateway.bindings) && fresh(gateway.bindings.data)
      ensures State() == Initial(config)
    {
      gateway := new Gateway(config);
      store := new Store(config.routes);
      adapter := new Adapter();
    }

    // Between two operations.
    ghost function State(): (s: System)
      requires gateway.Valid()
      reads gateway, gateway.accepted, gateway.accepted.data, gateway.unknown, gateway.unknown.data,
            gateway.bindings, gateway.bindings.data, store, adapter
    {
      System(store.committed, store.checkpoints, store.open, Some(gateway.View()), Ready, adapter.calls)
    }

    // The state in the middle of a send.
    ghost function During(turn: Turn): System
      requires gateway.Valid()
      reads gateway, gateway.accepted, gateway.accepted.data, gateway.unknown, gateway.unknown.data,
            gateway.bindings, gateway.bindings.data, store, adapter
    {
      State().(turn := turn)
    }

    method MarkUnknown(p: DispatchProof)
      requires gateway.Valid()
      modifies gateway.unknown, gateway.unknown.data
      ensures gateway.Valid() && gateway.View() == AsUnknown(old(gateway.View()), p, gateway.config)
    {
      hide Marked;
      var marked := gateway.MarkUncertain(p);
    }

    method DropAccepted(k: Key)
      requires gateway.Valid() && IsAccepted(gateway.View(), k)
      modifies gateway.accepted, gateway.accepted.data
      ensures gateway.Valid()
      ensures var t := old(gateway.View());
        gateway.View() == t.(accepted := Without(t.accepted, AcceptedIndex(t.accepted, k)))
    {
      var i := gateway.FindAccepted(k);
      gateway.accepted.RemoveAt(i);
    }

    // The attempt reaches the disk before anything else happens.
    method CommitAttempt(p: DispatchProof) returns (w: Write)
      requires gateway.Valid() && store.open
      modifies gateway.unknown, gateway.unknown.data, store
      ensures gateway.Valid()
      ensures Next(old(State()), Send(p, w), gateway.config) == During(if w == Written then Committed(p) else Ready)
      ensures w == Written ==> gateway.View() == old(gateway.View()) && store.open
      ensures store.asked == old(store.asked) + [Attempt(p)] && store.shown == old(store.shown)
    {
      hide AsUnknown;
      w := store.Append(Attempt(p));
      if w != Written { return; }
      w := store.Commit();
      if w != Written { MarkUnknown(p); }
    }

    // The checks right before the venue: some look at the proof again, the verdict
    // of the others is given. What passes them goes to the venue; whatever is not
    // an acceptance leaves the attempt unknown.
    method Dispatch(p: DispatchProof, permitted: bool) returns (r: SendResult, ghost step: Action)
      requires gateway.Valid() && !Full(gateway.View(), gateway.config)
      modifies gateway.accepted, gateway.accepted.data, gateway.unknown, gateway.unknown.data, adapter
      ensures gateway.Valid()
      ensures if permitted && Sendable(p) then
                && step == Call(r.Accepted?) && adapter.calls == old(adapter.calls) + [KeyOf(p)]
                && adapter.answers == old(adapter.answers) + [r]
              else step == Refuse && r.NotSent? && unchanged(adapter)
      ensures Enabled(old(During(Committed(p))), step, gateway.config)
      ensures Next(old(During(Committed(p))), step, gateway.config) == During(if r.Accepted? then Called(p) else Ready)
      ensures r.Accepted? ==> gateway.View() == old(gateway.View()).(accepted := old(gateway.View()).accepted + [p])
    {
      hide AsUnknown;
      if !permitted || !Sendable(p) {
        MarkUnknown(p);
        return NotSent, Refuse;
      }
      r := adapter.TrySend(p);
      if r != Accepted {
        MarkUnknown(p);
        return r, Call(false);
      }
      gateway.accepted.Push(p);
      return r, Call(true);
    }

    // An acceptance that cannot be recorded is taken back: the command is unknown.
    method RecordAcceptance(p: DispatchProof) returns (w: Write)
      requires gateway.Valid() && store.open && IsAccepted(gateway.View(), KeyOf(p))
      modifies gateway.accepted, gateway.accepted.data, gateway.unknown, gateway.unknown.data, store
      ensures gateway.Valid()
      ensures Next(old(During(Called(p))), Record(w), gateway.config) == State()
      ensures w == Written ==> gateway.View() == old(gateway.View())
      ensures store.asked == old(store.asked) + [Outcome(p)] && store.shown == old(store.shown)
    {
      hide AsUnknown;
      w := store.Log(Outcome(p));
      if w != Written {
        DropAccepted(KeyOf(p));
        MarkUnknown(p);
      }
    }

    // The committed attempt is sent, and its acceptance recorded.
    method AfterAttempt(p: DispatchProof, permitted: bool) returns (r: SendResult, ghost steps: seq<Action>)
      requires gateway.Valid() && store.open && !Full(gateway.View(), gateway.config)
      modifies gateway.accepted, gateway.accepted.data, gateway.unknown, gateway.unknown.data, store, adapter
      ensures gateway.Valid()
      ensures Possible(old(During(Committed(p))), steps, gateway.config)
              && Run(old(During(Committed(p))), steps, gateway.config) == State()
      ensures steps != [] && (r.Accepted? <==> steps == [Call(true), Record(Written)])
      ensures if permitted && Sendable(p) then
                Answered(old(adapter.calls), old(adapter.answers), steps[0], p, r, adapter)
              else steps == [Refuse] && r == NotSent && unchanged(adapter)
      ensures store.asked == old(store.asked) + (if steps[0] == Call(true) then [Outcome(p)] else [])
    {
      hide Enabled, Next, Sendable, AsUnknown, Possible, Run;
      ghost var c, before, step := gateway.config, During(Committed(p)), Refuse;
      r, step := Dispatch(p, permitted);
      if !r.Accepted? {
        steps := [step];
        OneStep(before, step, c);
        assert During(Ready) == State();
        return;
      }
      ghost var called := During(Called(p));
      AcceptedHas(gateway.View().accepted, KeyOf(p));
      assert IsAccepted(gateway.View(), KeyOf(p)) by { assert p in gateway.View().accepted; }
      var w := RecordAcceptance(p);
      steps := [step, Record(w)];
      CalledMayRecord(called, w, c);
      TwoSteps(before, step, Record(w), c);
      if w != Written { r := NotSent; }
    }

    // A command that is neither known nor over budget.
    method SendNew(p: DispatchProof, permitted: bool) returns (r: SendResult, ghost steps: seq<Action>)
      requires gateway.Valid()
      requires store.open && forall w: Write :: Enabled(State(), Send(p, w), gateway.config)
      modifies gateway.accepted, gateway.accepted.data, gateway.unknown, gateway.unknown.data, store, adapter
      ensures gateway.Valid()
      ensures Possible(old(State()), steps, gateway.config) && Run(old(State()), steps, gateway.config) == State()
      ensures steps != [] && steps[0].Send? && steps[0].proof == p && (|steps| == 1 <==> steps[0].write != Written)
      ensures r.Accepted? <==> steps == [Send(p, Written), Call(true), Record(Written)]
      ensures ReachesVenue(old(adapter.calls), old(adapter.answers), steps, p, permitted, r, adapter)
      ensures store.asked == old(store.asked) + Asked(steps)
    {
      hide Gateway.Valid, Gateway.View, Next;
      ghost var c, before := gateway.config, State();
      assert Enabled(before, Send(p, Written), c);
      var w := CommitAttempt(p);
      steps := [Send(p, w)];
      if w != Written {
        OneStep(before, Send(p, w), c);
        return NotSent, steps;
      }
      assert During(Committed(p)) == Next(before, Send(p, Written), c);
      ghost var rest;
      r, rest := AfterAttempt(p, permitted);
      steps := [Send(p, Written)] + rest;
      ghost var sent := [Call(true), Record(Written)];
      assert steps == [Send(p, Written)] + sent <==> rest == sent by { assert steps[1..] == rest; }
      FirstStep(before, Send(p, Written), rest, c);
    }

    // Write ahead: the attempt is committed before the venue is called, the
    // acceptance afterwards. An offered command is one the shard still owns.
    method SendFromShard(p: DispatchProof, offered: bool, permitted: bool)
        returns (r: SendResult, ghost steps: seq<Action>)
      requires gateway.Valid() && (offered ==> Offered(store.committed, p, gateway.config))
      modifies gateway.accepted, gateway.accepted.data, gateway.unknown, gateway.unknown.data, store, adapter
      ensures gateway.Valid()
      ensures Possible(old(State()), steps, gateway.config) && Run(old(State()), steps, gateway.config) == State()
      ensures steps == [] <==> !offered || !Enabled(old(State()), Send(p, Written), gateway.config)
      ensures steps != [] ==> steps[0].Send? && steps[0].proof == p && (|steps| == 1 <==> steps[0].write != Written)
      ensures r.Accepted? <==> steps == [Send(p, Written), Call(true), Record(Written)]
                               || (offered && old(store.open) && Recorded(old(gateway.View()), p))
      ensures ReachesVenue(old(adapter.calls), old(adapter.answers), steps, p, permitted, r, adapter)
      ensures store.asked == old(store.asked) + Asked(steps)
    {
      ghost var c, before := gateway.config, State();
      steps := [];
      NoSteps(before, c);
      if !store.open || !offered { return NotSent, steps; }
      var i := gateway.FindAccepted(KeyOf(p));
      if i < gateway.AcceptedCount() {
        var same := gateway.AcceptedAt(i) == p;
        assert IsAccepted(gateway.View(), KeyOf(p));
        return if same then Accepted else NotSent, steps;
      }
      var j := gateway.FindUnknown(KeyOf(p));
      if j < gateway.UnknownCount() { return NotSent, steps; }
      if gateway.AcceptedCount() + gateway.UnknownCount() >= gateway.config.capacity { return NotSent, steps; }
      assert !Full(gateway.View(), c);
      SendEnabled(before, p, c);
      r, steps := SendNew(p, permitted);
    }

    // ----- Reconciliation, archives and checkpoints

    // A resolved reconciliation of the order, newer than the attempt, settles it.
    // The refusals are exact, in the order of the checks; after them the store
    // decides.
    method ReconcileRecovered(k: Key, s: Orders) returns (r: Result<(), DispatchError>, ghost steps: seq<Action>)
      requires gateway.Valid()
      modifies gateway.unknown.data, store
      ensures gateway.Valid()
      ensures Possible(old(State()), steps, gateway.config) && Run(old(State()), steps, gateway.config) == State()
      ensures store.asked == old(store.asked) + Asked(steps)
      ensures !old(store.open) ==> r == Err(DurableDispatchUnavailable) && steps == []
      ensures var unknown := old(gateway.View().unknown); var i := UnknownIndex(unknown, k);
        old(store.open) ==>
          if k.account !in gateway.config.routes || i == |unknown| || !Commanded(s, k) then
            r == Err(UnknownDispatch) && steps == []
          else if forall o :: Answers(s, k, o) ==> o.reconciliation <= unknown[i].proof.priorReconciliation then
            r == Err(UnreconciledDispatch) && steps == []
          else
            exists o :: Answers(s, k, o) && Resolved(unknown[i], k, o, r, steps)
    {
      hide Possible, Run, Next, Enabled, Commanded, Answers;
      ResolvingIsExact(s, k);
      CommandedIsExact(s, k);
      steps := [];
      NoSteps(State(), gateway.config);
      if !store.open { return Err(DurableDispatchUnavailable), steps; }
      if k.account !in gateway.config.routes { return Err(UnknownDispatch), steps; }
      var i := gateway.FindUnknown(k);
      if i == gateway.UnknownCount() { return Err(UnknownDispatch), steps; }
      var c := FindCommand(s, k.command);
      if c == |s.commands| { return Err(UnknownDispatch), steps; }
      var command := s.commands[c];
      if command.account != k.account || command.portfolio != k.origin.portfolio {
        return Err(UnknownDispatch), steps;
      }
      var j := FindOrder(s, command.order);
      if j == |s.orders| { return Err(UnreconciledDispatch), steps; }
      var o, u := s.orders[j], gateway.UnknownAt(i);
      if o.reconciliation <= u.proof.priorReconciliation || o.revision < command.revision || !Agrees(o) {
        return Err(UnreconciledDispatch), steps;
      }
      assert Answers(s, k, o);
      if u.reconciliation != 0 {
        r := if u.reconciliation == o.reconciliation && u.status == Some(o.status) then Ok(())
             else Err(ConflictingDispatchResolution);
        return;
      }
      UnresolvedMay(State(), k, o.reconciliation, o.status, gateway.config);
      var w;
      w, steps := Settle(k, i, o.reconciliation, o.status);
      r := if w == Written then Ok(()) else Err(DurableDispatchUnavailable);
    }

    // The resolution is committed before the row shows it.
    method Settle(k: Key, i: nat, reconciliation: u64, status: Status) returns (w: Write, ghost steps: seq<Action>)
      requires gateway.Valid() && i == UnknownIndex(gateway.View().unknown, k)
      requires Enabled(State(), Reconcile(k, reconciliation, status, Written), gateway.config)
      modifies gateway.unknown.data, store
      ensures gateway.Valid()
      ensures Possible(old(State()), steps, gateway.config) && Run(old(State()), steps, gateway.config) == State()
      ensures steps == [Reconcile(k, reconciliation, status, w)]
      ensures store.asked == old(store.asked) + Asked(steps)
    {
      hide UnknownIndex;
      ghost var c, before := gateway.config, State();
      var u := gateway.UnknownAt(i);
      assert WithResolution(gateway.View(), k, reconciliation, status)
             == Ok(gateway.View().(unknown := gateway.View().unknown[i := Unknown(u.proof, reconciliation,
                                                                                  Some(status))]));
      w := store.Log(Resolution(k.origin, k.account, k.command, reconciliation, status));
      steps := [Reconcile(k, reconciliation, status, w)];
      OneStep(before, Reconcile(k, reconciliation, status, w), c);
      if w == Written { gateway.SetUnknown(i, Unknown(u.proof, reconciliation, Some(status))); }
      assert Next(before, Reconcile(k, reconciliation, status, w), c) == State();
    }

    // Publishes the evidence as it stands.
    method CheckpointDurable() returns (ok: bool, ghost steps: seq<Action>)
      requires gateway.Valid()
      modifies store
      ensures Possible(old(State()), steps, gateway.config) && Run(old(State()), steps, gateway.config) == State()
      ensures steps == [] <==> !old(store.open)
      ensures ok <==> steps == [Checkpoint(Published)]
      ensures store.asked == old(store.asked)
      ensures store.shown == old(store.shown)
                             + if steps == [] then []
                               else [Encode(gateway.View(), |store.committed|, gateway.config.routes)]
    {
      ghost var c, before := gateway.config, State();
      steps := [];
      NoSteps(before, c);
      if !store.open { return false, steps; }
      var p := PublishView(gateway);
      steps := [Checkpoint(p)];
      assert Enabled(before, Checkpoint(p), c);
      OneStep(before, Checkpoint(p), c);
      assert Next(before, Checkpoint(p), c) == State();
      ok := p == Published;
    }

    method PublishView(g: Gateway) returns (p: Publication)
      requires g.Valid() && store.open
      modifies store
      ensures store.committed == old(store.committed) && store.open == (p == Published)
      ensures store.checkpoints == old(store.checkpoints) + if p == PublishFailed(false) then []
                                   else [Encode(old(g.View()), |store.committed|, gateway.config.routes)]
      ensures store.asked == old(store.asked)
      ensures store.shown == old(store.shown) + [Encode(old(g.View()), |store.committed|, gateway.config.routes)]
    {
      var t := g.Rows();
      p := store.Publish(Encode(t, |store.committed|, gateway.config.routes));
    }

    method ArchivedCopy(commit: ArchiveCommit) returns (candidate: Gateway, applied: Result<(), DispatchError>)
      requires gateway.Valid()
      ensures candidate.Valid() && candidate.config == gateway.config
      ensures fresh(candidate) && fresh(candidate.accepted) && fresh(candidate.accepted.data)
               && fresh(candidate.unknown)
              && fresh(candidate.unknown.data) && fresh(candidate.bindings) && fresh(candidate.bindings.data)
      ensures WithArchive(gateway.View(), commit) == if applied.Ok? then Ok(candidate.View()) else Err(applied.error)
    {
      hide *;
      candidate := new Gateway(gateway.config);
      candidate.TakeOver(gateway);
      applied := candidate.ApplyDispatchArchive(commit);
    }

    // The candidate becomes the gateway once its checkpoint is published.
    method PublishAndTakeOver(candidate: Gateway) returns (p: Publication)
      requires gateway.Valid() && store.open && candidate.Valid() && candidate.config == gateway.config
      requires candidate.accepted != gateway.accepted && candidate.accepted.data != gateway.accepted.data
      requires candidate.unknown != gateway.unknown && candidate.unknown.data != gateway.unknown.data
      requires candidate.bindings != gateway.bindings && candidate.bindings.data != gateway.bindings.data
      modifies gateway.accepted, gateway.accepted.data, gateway.unknown, gateway.unknown.data, gateway.bindings,
               gateway.bindings.data, store
      ensures gateway.Valid()
      ensures store.committed == old(store.committed) && store.open == (p == Published)
      ensures store.checkpoints == old(store.checkpoints) + if p == PublishFailed(false) then []
                                   else [Encode(old(candidate.View()), |store.committed|, gateway.config.routes)]
      ensures gateway.View() == if p == Published then old(candidate.View()) else old(gateway.View())
      ensures store.asked == old(store.asked)
      ensures store.shown == old(store.shown)
                             + [Encode(old(candidate.View()), |store.committed|, gateway.config.routes)]
    {
      p := PublishView(candidate);
      if p == Published { gateway.TakeOver(candidate); }
    }

    // The root is new, or the commit is the one it was bound with.
    ghost predicate Regular(commit: ArchiveCommit)
      requires gateway.Valid()
      reads gateway, gateway.accepted, gateway.accepted.data, gateway.unknown, gateway.unknown.data,
            gateway.bindings, gateway.bindings.data
    {
      AlreadyBound(gateway.View(), commit.origin, commit.receipt.root) ==>
        LastOrder(gateway.View().bindings, commit.origin) == Some(commit)
    }

    // Frees the evidence of an archived order. It works on a copy, which becomes
    // the gateway only once the archive is committed and a checkpoint published.
    // Another order under a bound root is freed too, but its archive not committed.
    method ReclaimOrder(commit: ArchiveCommit) returns (r: Result<(), DispatchError>, ghost steps: seq<Action>)
      requires gateway.Valid()
      modifies gateway.accepted, gateway.accepted.data, gateway.unknown, gateway.unknown.data, gateway.bindings,
               gateway.bindings.data, store
      ensures gateway.Valid()
      ensures steps == [] <==> !Enabled(old(State()), Reclaim(commit, Written, Published), gateway.config)
      ensures old(Regular(commit)) ==>
                && Possible(old(State()), steps, gateway.config) && Run(old(State()), steps, gateway.config) == State()
                && (r.Ok? <==> steps == [Reclaim(commit, Written, Published)])
      ensures !old(Regular(commit)) ==>
                && store.committed == old(store.committed)
                && (r.Ok? ==> WithArchive(old(gateway.View()), commit) == Ok(gateway.View()) && store.open)
                && (r.Err? ==> gateway.View() == old(gateway.View()))
                && (store.checkpoints != old(store.checkpoints) || r.Ok? ==>
                      WithArchive(old(gateway.View()), commit).Ok? &&
                      var after := WithArchive(old(gateway.View()), commit).value;
                      store.checkpoints
                      == old(store.checkpoints) + [Encode(after, |store.committed|, gateway.config.routes)])
      ensures var before := old(gateway.View()); var after := WithArchive(before, commit);
        if commit.origin.portfolio != 0 && after.Ok? && old(store.open) then
          var again := AlreadyBound(before, commit.origin, commit.receipt.root);
          && store.asked == old(store.asked) + (if again then [] else [Archive(commit)])
          && (again || r.Ok? ==>
                store.shown == old(store.shown) + [Encode(after.value, |store.committed|, gateway.config.routes)])
          && (r.Err? ==> r.error == DurableDispatchUnavailable)
        else
          && store.asked == old(store.asked) && store.shown == old(store.shown)
          && r == Err(if commit.origin.portfolio == 0 then InvalidDispatchOrigin
                      else if after.Err? then after.error else DurableDispatchUnavailable)
    {
      ghost var c, before := gateway.config, State();
      steps := [];
      NoSteps(before, c);
      if commit.origin.portfolio == 0 { return Err(InvalidDispatchOrigin), steps; }
      var already := gateway.RootIsBound(commit.origin, commit.receipt.root);
      var candidate, applied := ArchivedCopy(commit);
      if applied.Err? { return Err(applied.error), steps; }
      if !store.open { return Err(DurableDispatchUnavailable), steps; }
      var ok;
      ok, steps := CommitArchive(commit, candidate, already);
      r := if ok then Ok(()) else Err(DurableDispatchUnavailable);
    }

    // The log first, unless the root is bound already, then the checkpoint.
    method CommitArchive(commit: ArchiveCommit, candidate: Gateway, already: bool) returns (ok: bool,
                         ghost steps: seq<Action>)
      requires gateway.Valid() && store.open && candidate.Valid() && candidate.config == gateway.config
      requires candidate.accepted != gateway.accepted && candidate.accepted.data != gateway.accepted.data
      requires candidate.unknown != gateway.unknown && candidate.unknown.data != gateway.unknown.data
      requires candidate.bindings != gateway.bindings && candidate.bindings.data != gateway.bindings.data
      requires WithArchive(gateway.View(), commit) == Ok(candidate.View())
      requires already == AlreadyBound(gateway.View(), commit.origin, commit.receipt.root)
      requires Regular(commit) ==> Enabled(State(), Reclaim(commit, Written, Published), gateway.config)
      modifies gateway.accepted, gateway.accepted.data, gateway.unknown, gateway.unknown.data, gateway.bindings,
               gateway.bindings.data, store
      ensures gateway.Valid()
      ensures old(Regular(commit)) ==>
                && Possible(old(State()), steps, gateway.config) && Run(old(State()), steps, gateway.config) == State()
                && steps != [] && (ok <==> steps == [Reclaim(commit, Written, Published)])
      ensures !old(Regular(commit)) ==>
                && steps == [] && store.committed == old(store.committed)
                && gateway.View() == (if ok then old(candidate.View()) else old(gateway.View()))
                && (ok ==> store.open)
                && (store.checkpoints != old(store.checkpoints) || ok ==>
                      store.checkpoints
                      == old(store.checkpoints)
                         + [Encode(old(candidate.View()), |store.committed|, gateway.config.routes)])
      ensures store.asked == old(store.asked) + if already then [] else [Archive(commit)]
      ensures already || ok ==>
                store.shown == old(store.shown)
                               + [Encode(old(candidate.View()), |store.committed|, gateway.config.routes)]
    {
      hide Gateway.Valid, Gateway.View, Possible, Run, Next, AlreadyBound, WithArchive;
      ghost var c, before, regular := gateway.config, State(), Regular(commit);
      var w, p := Written, Published;
      if !already { w := store.Log(Archive(commit)); }
      if w == Written { p := PublishAndTakeOver(candidate); }
      ok := w == Written && p == Published;
      steps := [];
      if regular {
        steps := [Reclaim(commit, w, p)];
        OneStep(before, Reclaim(commit, w, p), c);
        ReclaimNext(before, commit, w, p, c);
      }
    }

    // The bindings are taken back when the checkpoint cannot be published.
    method PublishOrRestore(saved: seq<Binding>) returns (p: Publication)
      requires gateway.Valid() && store.open && |saved| <= MAX_AUTHORITY_RECORDS
      modifies gateway.bindings, gateway.bindings.data, store
      ensures gateway.Valid()
      ensures store.committed == old(store.committed) && store.open == (p == Published)
      ensures store.checkpoints == old(store.checkpoints) + if p == PublishFailed(false) then []
                                   else [Encode(old(gateway.View()), |store.committed|, gateway.config.routes)]
      ensures gateway.View() == old(gateway.View()).(bindings := if p
          == Published then old(gateway.View()).bindings else saved)
      ensures store.asked == old(store.asked)
      ensures store.shown == old(store.shown)
                             + [Encode(old(gateway.View()), |store.committed|, gateway.config.routes)]
    {
      hide *;
      p := PublishView(gateway);
      if p != Published { gateway.RestoreBindings(saved); }
    }

    // Moves an origin's root after an economic commit, and takes the move back
    // when it cannot be committed and checkpointed.
    method AcknowledgeEconomic(commit: EconomicCommit) returns (r: Result<(), DispatchError>, ghost steps: seq<Action>)
      requires gateway.Valid()
      modifies gateway.bindings, gateway.bindings.data, store
      ensures gateway.Valid()
      ensures Possible(old(State()), steps, gateway.config) && Run(old(State()), steps, gateway.config) == State()
      ensures steps == [] <==> !Enabled(old(State()), Acknowledge(commit, Written, Published), gateway.config)
      ensures r.Ok? <==> steps == [Acknowledge(commit, Written, Published)]
      ensures gateway.View().accepted == old(gateway.View()).accepted
               && gateway.View().unknown == old(gateway.View()).unknown
      ensures var before := old(gateway.View()); var after := WithEconomic(before, commit);
        if after.Ok? && old(store.open) then
          var again := AlreadyBound(before, commit.origin, commit.receipt.root);
          && store.asked == old(store.asked) + (if again then [] else [Economic(commit)])
          && (again || r.Ok? ==>
                store.shown == old(store.shown) + [Encode(after.value, |store.committed|, gateway.config.routes)])
          && (r.Err? ==> r.error == DurableDispatchUnavailable)
        else
          && store.asked == old(store.asked) && store.shown == old(store.shown)
          && r == Err(if after.Err? then after.error else DurableDispatchUnavailable)
    {
      ghost var c, before := gateway.config, State();
      steps := [];
      NoSteps(before, c);
      var already := gateway.RootIsBound(commit.origin, commit.receipt.root);
      var saved := gateway.BindingRows();
      var applied := gateway.ApplyEconomicHistory(commit);
      if applied.Err? { return Err(applied.error), steps; }
      if !store.open {
        gateway.RestoreBindings(saved);
        return Err(DurableDispatchUnavailable), steps;
      }
      var ok;
      ok, steps := CommitEconomic(commit, before, saved, already);
      r := if ok then Ok(()) else Err(DurableDispatchUnavailable);
    }

    // The same order of writes; the root already stands in memory.
    method CommitEconomic(commit: EconomicCommit, ghost before: System, saved: seq<Binding>, already: bool)
        returns (ok: bool, ghost steps: seq<Action>)
      requires gateway.Valid() && store.open && |saved| <= MAX_AUTHORITY_RECORDS && before.memory.Some?
      requires WithEconomic(before.memory.value, commit) == Ok(gateway.View())
      requires before.memory.value == gateway.View().(bindings := saved)
      requires State() == before.(memory := Some(gateway.View()))
      requires already == AlreadyBound(before.memory.value, commit.origin, commit.receipt.root)
      requires Enabled(before, Acknowledge(commit, Written, Published), gateway.config)
      modifies gateway.bindings, gateway.bindings.data, store
      ensures gateway.Valid()
      ensures Possible(before, steps, gateway.config) && Run(before, steps, gateway.config) == State()
      ensures steps != [] && (ok <==> steps == [Acknowledge(commit, Written, Published)])
      ensures gateway.View().accepted == old(gateway.View()).accepted
               && gateway.View().unknown == old(gateway.View()).unknown
      ensures store.asked == old(store.asked) + if already then [] else [Economic(commit)]
      ensures already || ok ==>
                store.shown == old(store.shown)
                               + [Encode(old(gateway.View()), |store.committed|, gateway.config.routes)]
    {
      hide Gateway.Valid, Gateway.View, Possible, Run, Next, AlreadyBound, WithEconomic;
      ghost var c := gateway.config;
      var w, p := Written, Published;
      if !already { w := store.Log(Economic(commit)); }
      if w == Written { p := PublishOrRestore(saved); } else { gateway.RestoreBindings(saved); }
      ok := w == Written && p == Published;
      steps := [Acknowledge(commit, w, p)];
      OneStep(before, Acknowledge(commit, w, p), c);
      AcknowledgeNext(before, commit, w, p, c);
    }
  }
}
