// When each step of the gateway may be taken.
module DispatchGuards {
  import opened Bytes
  import opened Wrappers
  import opened DispatchTables
  import opened DispatchSnapshot
  import opened DispatchProtocol
  import opened DispatchDecisions

  // What admission builds: a context that is its authority's, for the origin's
  // account and portfolio, under its lease and before its deadline.
  lemma AdmittedIsExact(p: DispatchProof)
    ensures var a := p.command.authority;
      Admitted(p) <==>
      && a.complete
      && p.context
         == Context(a.exchangeAccount, a.capability, a.instrumentRules, a.config, a.adapterSession, a.deadline)
      && p.origin.account == a.exchangeAccount && p.origin.portfolio == a.virtualPortfolio
      && !(p.origin.decisionStream > 0 && p.origin.testShard > 0)
      && 1 <= |p.command.clientOrderId| <= 64
      && p.fencingToken == a.primaryLease && a.primaryLease > 0 && p.authorityBarrier > 0 && 1 <= p.now <= a.deadline
  {
  }

  // What is looked at again before the venue.
  lemma SendableIsExact(p: DispatchProof)
    ensures Sendable(p) <==>
            p.command.order > 0 && p.command.revision > 0 && p.command.intent > 0
            && p.command.limitRules == p.context.rules
  {
  }

  // A store step needs memory, an open store and no send under way.
  lemma StoreStepsAreGuarded(s: System, a: Action, c: Config)
    requires a.Send? || a.Reconcile? || a.Reclaim? || a.Acknowledge? || a.Checkpoint?
    ensures Enabled(s, a, c) ==> s.memory.Some? && s.open && s.turn == Ready
    ensures a.Checkpoint? ==> (Enabled(s, a, c) <==> s.memory.Some? && s.open && s.turn == Ready)
  {
  }

  // A send is for an offered command that is neither accepted nor unknown, while
  // the tables have room.
  lemma SendIsGuarded(s: System, p: DispatchProof, w: Write, c: Config)
    requires s.memory.Some? && s.open && s.turn == Ready
    ensures var t := s.memory.value;
      Enabled(s, Send(p, w), c) <==>
      && Offered(s.durable, p, c)
      && (forall q :: q in t.accepted ==> NameOf(q) != NameOf(p))
      && (forall u :: u in t.unknown ==> NameOf(u.proof) != NameOf(p))
      && |t.accepted| + |t.unknown| < c.capacity
  {
    hide Offered;
    var t := s.memory.value;
    assert NameOf(p) == KeyOf(p);
    AcceptedHas(t.accepted, KeyOf(p));
    UnknownHas(t.unknown, KeyOf(p));
  }

  // A resolution is for an unknown dispatch of a configured account that has none,
  // of a reconciliation newer than the attempt.
  lemma ReconcileIsGuarded(s: System, k: Key, reconciliation: u64, status: Status, w: Write, c: Config)
    requires s.memory.Some? && s.open && s.turn == Ready && DistinctUnknown(s.memory.value.unknown)
    ensures Enabled(s, Reconcile(k, reconciliation, status, w), c) <==>
            && status != Unresolved && k.account in c.routes
            && exists u :: u in s.memory.value.unknown && NameOf(u.proof) == k && u.reconciliation == 0
                           && reconciliation > u.proof.priorReconciliation
  {
    var t := s.memory.value;
    var i := UnknownIndex(t.unknown, k);
    if u :| u in t.unknown && NameOf(u.proof) == k && u.reconciliation == 0
            && reconciliation > u.proof.priorReconciliation
    {
      var j :| 0 <= j < |t.unknown| && t.unknown[j] == u;
      assert KeyOf(t.unknown[j].proof) == k && i == j;
    }
    if i < |t.unknown| { assert t.unknown[i] in t.unknown && NameOf(t.unknown[i].proof) == k; }
  }

  // History steps need tables that take the commit; a reclaim also a portfolio,
  // and under a bound root the archive that bound it.
  lemma HistoryIsGuarded(s: System, archive: ArchiveCommit, economic: EconomicCommit, w: Write, p: Publication,
                         c: Config)
    requires s.memory.Some? && s.open && s.turn == Ready
    ensures var t := s.memory.value; var o := archive.origin;
      && (Enabled(s, Acknowledge(economic, w, p), c) <==> WithEconomic(t, economic).Ok?)
      && (Enabled(s, Reclaim(archive, w, p), c) <==>
            && o.portfolio > 0 && WithArchive(t, archive).Ok?
            && (PreviousRoot(t.bindings, o) == Some(archive.receipt.root) ==>
                  LastOrder(t.bindings, o) == Some(archive)))
  {
    hide WithArchive, WithEconomic;
  }

  // The steps of a send follow one another; a crash is always possible, a
  // restart needs a published checkpoint.
  lemma TurnsAreGuarded(s: System, taken: bool, w: Write, from: nat, c: Config)
    ensures Enabled(s, Refuse, c) <==> s.memory.Some? && s.turn.Committed?
    ensures Enabled(s, Call(taken), c) <==> s.memory.Some? && s.turn.Committed? && Sendable(s.turn.attempt)
    ensures Enabled(s, Record(w), c) <==> s.memory.Some? && s.turn.Called?
    ensures Enabled(s, Crash, c) && (Enabled(s, Restart(from), c) <==> s.memory.None? && from < |s.checkpoints|)
  {
  }

  // ----- What the store's outcomes mean

  // A fact is in the log if its write succeeded, or failed after it had landed;
  // only success leaves the gate open.
  lemma WritesAreKept(s: System, f: Fact, w: Write)
    ensures var after := Logged(s, f, w);
      && after.durable
         == s.durable + (if w == Written || w == AppendFailed(true) || w == CommitFailed(true) then [f] else [])
      && after.open == (s.open && w == Written)
      && after == s.(durable := after.durable, open := after.open)
  {
  }

  // A checkpoint is found later unless publishing it failed without a trace; only
  // a published one changes memory, and only a failure shuts the gate.
  lemma PublicationsAreKept(s: System, t: Tables, p: Publication, c: Config)
    ensures var after := WithCheckpoint(s, t, p, c);
      && after.checkpoints
         == s.checkpoints + (if p == PublishFailed(false) then []
                             else [Snapshot(|s.durable|, t.bindings, t.accepted, t.unknown, c.routes)])
      && after.memory == (if p == Published then Some(t) else s.memory)
      && after.open == (s.open && p == Published)
      && after.durable == s.durable && after.turn == s.turn && after.calls == s.calls
  {
  }
}
