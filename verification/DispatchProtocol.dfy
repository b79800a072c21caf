// Runs of the dispatch gateway: sends, reconciliations, archives, checkpoints,
// store failures, crashes and recoveries, in any order.
module DispatchProtocol {
  import opened Bytes
  import opened Wrappers
  import opened HistoryProof
  import opened DispatchTables
  import opened DispatchSnapshot

  // Where the gateway stands between two effects of one send.
  datatype Turn = Ready | Committed(attempt: DispatchProof) | Called(accepted: DispatchProof)

  // The committed facts and published checkpoints survive a crash, memory does
  // not. A store whose gate is shut refuses everything until a restart.
  datatype System = System(
    durable: seq<Fact>, checkpoints: seq<Snapshot>, open: bool, memory: Option<Tables>, turn: Turn, calls: seq<Key>)

  // How an append and its commit end. After a failure the fact may or may not
  // have become durable, as after a crash between the two.
  datatype Write = Written | AppendFailed(landed: bool) | CommitFailed(landed: bool)

  // How publishing a checkpoint ends; a failed one may be found after a restart.
  datatype Publication = Published | PublishFailed(kept: bool)

  datatype Action =
    | Send(proof: DispatchProof, write: Write)
    | Refuse
    | Call(taken: bool)
    | Record(write: Write)
    | Reconcile(key: Key, reconciliation: u64, status: Status, write: Write)
    | Reclaim(archive: ArchiveCommit, write: Write, publication: Publication)
    | Acknowledge(economic: EconomicCommit, write: Write, publication: Publication)
    | Checkpoint(publication: Publication)
    | Crash
    | Restart(from: nat)

  function Initial(c: Config): System { System([], [Encode(EMPTY, 0, c.routes)], true, Some(EMPTY), Ready, []) }

  // ----- What the trading shard offers

  ghost predicate OrderArchived(log: seq<Fact>, origin: Source, order: u64) {
    exists i :: 0 <= i < |log| && log[i].Archive? && log[i].archive.origin == origin && log[i].archive.order == order
  }

  // The key once had an attempt whose order has since been archived.
  ghost predicate Reclaimed(log: seq<Fact>, k: Key) {
    exists i :: 0 <= i < |log| && log[i].Attempt? && KeyOf(log[i].attempt) == k
                && OrderArchived(log, log[i].attempt.origin, log[i].attempt.command.order)
  }

  // What admission establishes of the proof it builds.
  predicate Admitted(p: DispatchProof) {
    var a := p.command.authority;
    && p.origin.account == p.context.account && p.origin.portfolio == a.virtualPortfolio
    && (p.origin.decisionStream == 0 || p.origin.testShard == 0)
    && 0 < |p.command.clientOrderId| <= 64 && a.complete
    && p.context.account == a.exchangeAccount && p.context.capability == a.capability
    && p.context.rules == a.instrumentRules && p.context.config == a.config
    && p.context.adapterSession == a.adapterSession && p.context.deadline == a.deadline
    && p.fencingToken != 0 && p.fencingToken == a.primaryLease && p.authorityBarrier != 0
    && p.now != 0 && p.now <= p.context.deadline
  }

  // What is checked again right before the venue is called.
  predicate Sendable(p: DispatchProof) {
    && p.command.order != 0 && p.command.revision != 0 && p.command.intent != 0
    && p.context.rules == p.command.limitRules
  }

  // The shard's admission, and that it never offers an archived command again.
  ghost predicate Offered(log: seq<Fact>, p: DispatchProof, c: Config) {
    && Admitted(p) && p.context.account in c.routes
    && !Reclaimed(log, KeyOf(p)) && !OrderArchived(log, p.origin, p.command.order)
  }

  ghost predicate Idle(s: System) { s.memory.Some? && s.turn == Ready && s.open }

  // Where the action makes sense at all.
  predicate Steppable(s: System, a: Action) {
    && (s.memory.Some? || a.Crash? || a.Restart?)
    && (a.Restart? ==> a.from < |s.checkpoints|)
    && (a.Refuse? || a.Call? ==> s.turn.Committed?)
    && (a.Record? ==> s.turn.Called?)
  }

  ghost predicate Enabled(s: System, a: Action, c: Config): (enabled: bool)
    ensures enabled ==> Steppable(s, a)
  {
    match a
    case Send(p, _) =>
      Idle(s) && Offered(s.durable, p, c)
      && !IsAccepted(s.memory.value, KeyOf(p)) && !IsUnknown(s.memory.value, KeyOf(p)) && !Full(s.memory.value, c)
    case Refuse => s.memory.Some? && s.turn.Committed?
    case Call(_) => s.memory.Some? && s.turn.Committed? && Sendable(s.turn.attempt)
    case Record(_) => s.memory.Some? && s.turn.Called?
    case Reconcile(k, reconciliation, status, _) =>
      Idle(s) && k.account in c.routes && WithResolution(s.memory.value, k, reconciliation, status).Ok?
      && reconciliation > s.memory.value.unknown[UnknownIndex(s.memory.value.unknown, k)].proof.priorReconciliation
    case Reclaim(commit, _, _) =>
      Idle(s) && commit.origin.portfolio != 0 && WithArchive(s.memory.value, commit).Ok?
      && (AlreadyBound(s.memory.value, commit.origin, commit.receipt.root) ==>
            LastOrder(s.memory.value.bindings, commit.origin) == Some(commit))
    case Acknowledge(commit, _, _) => Idle(s) && WithEconomic(s.memory.value, commit).Ok?
    case Checkpoint(_) => Idle(s)
    case Crash => true
    case Restart(from) => s.memory.None? && from < |s.checkpoints|
  }

  // ----- Steps

  // The log after a write, and whether the store's gate is still open.
  function Logged(s: System, f: Fact, w: Write): System {
    match w
    case Written => s.(durable := s.durable + [f])
    case AppendFailed(landed) => s.(durable := if landed then s.durable + [f] else s.durable, open := false)
    case CommitFailed(landed) => s.(durable := if landed then s.durable + [f] else s.durable, open := false)
  }

  function AsUnknown(t: Tables, p: DispatchProof, c: Config): Tables {
    var marked := Marked(t, p, c);
    if marked.Ok? then marked.value else t
  }

  // Publishing a checkpoint of the given tables; on failure memory stays as it was.
  function WithCheckpoint(s: System, after: Tables, p: Publication, c: Config): System {
    var more := s.checkpoints + [Encode(after, |s.durable|, c.routes)];
    match p
    case Published => s.(checkpoints := more, memory := Some(after))
    case PublishFailed(kept) => s.(checkpoints := if kept then more else s.checkpoints, open := false)
  }

  function Next(s: System, a: Action, c: Config): System
    requires Steppable(s, a)
  {
    match a
    case Send(p, w) =>
      var logged := Logged(s, Attempt(p), w);
      (match w
       case Written => logged.(turn := Committed(p))
       case AppendFailed(_) => logged
       case CommitFailed(_) => logged.(memory := Some(AsUnknown(s.memory.value, p, c))))
    case Refuse => s.(memory := Some(AsUnknown(s.memory.value, s.turn.attempt, c)), turn := Ready)
    case Call(taken) =>
      var p, t := s.turn.attempt, s.memory.value;
      var called := s.(calls := s.calls + [KeyOf(p)]);
      if taken then called.(memory := Some(t.(accepted := t.accepted + [p])), turn := Called(p))
      else called.(memory := Some(AsUnknown(t, p, c)), turn := Ready)
    case Record(w) =>
      var p, t := s.turn.accepted, s.memory.value;
      var logged := Logged(s, Outcome(p), w).(turn := Ready);
      if w == Written then logged
      else
        var i := AcceptedIndex(t.accepted, KeyOf(p));
        var without := if i < |t.accepted| then t.(accepted := Without(t.accepted, i)) else t;
        logged.(memory := Some(AsUnknown(without, p, c)))
    case Reconcile(k, reconciliation, status, w) =>
      var logged := Logged(s, Resolution(k.origin, k.account, k.command, reconciliation, status), w);
      var after := WithResolution(s.memory.value, k, reconciliation, status);
      if w == Written && after.Ok? then logged.(memory := Some(after.value)) else logged
    case Reclaim(commit, w, p) =>
      var t := s.memory.value;
      var after := WithArchive(t, commit);
      if after.Err? then s
      else if AlreadyBound(t, commit.origin, commit.receipt.root) then WithCheckpoint(s, after.value, p, c)
      else if w == Written then WithCheckpoint(Logged(s, Archive(commit), w), after.value, p, c)
      else Logged(s, Archive(commit), w)
    case Acknowledge(commit, w, p) =>
      var t := s.memory.value;
      var after := WithEconomic(t, commit);
      if after.Err? then s
      else if AlreadyBound(t, commit.origin, commit.receipt.root) then WithCheckpoint(s, after.value, p, c)
      else if w == Written then WithCheckpoint(Logged(s, Economic(commit), w), after.value, p, c)
      else Logged(s, Economic(commit), w)
    case Checkpoint(p) => WithCheckpoint(s, s.memory.value, p, c)
    case Crash => s.(memory := None, turn := Ready)
    case Restart(from) =>
      var t := Recover(s.checkpoints[from], s.durable, c);
      if t.Ok? then s.(memory := Some(t.value), turn := Ready, open := true) else s
  }

  ghost predicate Possible(s: System, actions: seq<Action>, c: Config)
    decreases |actions|
  {
    actions == [] || (Enabled(s, actions[0], c) && Possible(Next(s, actions[0], c), actions[1..], c))
  }

  ghost function Run(s: System, actions: seq<Action>, c: Config): System
    requires Possible(s, actions, c)
    decreases |actions|
  {
    if actions == [] then s else Run(Next(s, actions[0], c), actions[1..], c)
  }

  lemma NoSteps(s: System, c: Config)
    ensures Possible(s, [], c) && Run(s, [], c) == s
  {
  }

  lemma FirstStep(s: System, a: Action, rest: seq<Action>, c: Config)
    requires Enabled(s, a, c) && Possible(Next(s, a, c), rest, c)
    ensures Possible(s, [a] + rest, c) && Run(s, [a] + rest, c) == Run(Next(s, a, c), rest, c)
  {
    hide Enabled, Next;
    assert ([a] + rest)[1..] == rest;
  }

  lemma OneStep(s: System, a: Action, c: Config)
    requires Enabled(s, a, c)
    ensures Possible(s, [a], c) && Run(s, [a], c) == Next(s, a, c)
  {
    hide *;
    NoSteps(Next(s, a, c), c);
    FirstStep(s, a, [], c);
    assert [a] + [] == [a];
  }

  lemma TwoSteps(s: System, a: Action, b: Action, c: Config)
    requires Enabled(s, a, c) && Enabled(Next(s, a, c), b, c)
    ensures Possible(s, [a, b], c) && Run(s, [a, b], c) == Next(Next(s, a, c), b, c)
  {
    hide *;
    OneStep(Next(s, a, c), b, c);
    FirstStep(s, a, [b], c);
    assert [a] + [b] == [a, b];
  }

  // ----- The invariant

  // Replaying the whole log from nothing.
  function Evidence(log: seq<Fact>, c: Config): Applied { Replay(EMPTY, log, c) }

  // Every row of the evidence is an attempt of the log.
  ghost predicate LoggedRows(log: seq<Fact>, t: Tables) {
    && (forall p :: p in t.accepted ==> Attempt(p) in log)
    && (forall u :: u in t.unknown ==> Attempt(u.proof) in log)
  }

  // An archived order has no evidence left, and a binding's last order is in the log.
  ghost predicate Cleared(log: seq<Fact>, t: Tables) {
    && (forall p :: p in t.accepted ==> !OrderArchived(log, p.origin, p.command.order))
    && (forall u :: u in t.unknown ==> !OrderArchived(log, u.proof.origin, u.proof.command.order))
    && (forall i :: 0 <= i < |t.bindings| && t.bindings[i].lastOrder.Some? ==>
          Archive(t.bindings[i].lastOrder.value) in log)
  }

  // Every attempt in the log is still evidence, or its order was archived.
  ghost predicate Accounted(log: seq<Fact>, t: Tables) {
    forall i :: 0 <= i < |log| && log[i].Attempt? ==>
      || log[i].attempt in t.accepted || Waits(t, log[i].attempt)
      || OrderArchived(log, log[i].attempt.origin, log[i].attempt.command.order)
  }

  ghost predicate LogSound(log: seq<Fact>, c: Config) {
    && Evidence(log, c).Ok? && NamedArchives(log)
    && Sound(Evidence(log, c).value, c) && Cleared(log, Evidence(log, c).value)
    && Accounted(log, Evidence(log, c).value) && LoggedRows(log, Evidence(log, c).value)
  }

  ghost predicate Attempted(log: seq<Fact>, k: Key) {
    exists i :: 0 <= i < |log| && log[i].Attempt? && KeyOf(log[i].attempt) == k
  }

  // An attempt for the key is in the log that passes the last checks before the venue.
  ghost predicate Sent(log: seq<Fact>, k: Key) {
    exists i :: 0 <= i < |log| && log[i].Attempt? && KeyOf(log[i].attempt) == k && Sendable(log[i].attempt)
  }

  predicate DistinctCalls(calls: seq<Key>) {
    forall i, j :: 0 <= i < j < |calls| ==> calls[i] != calls[j]
  }

  // No key is called twice, every call had a sendable attempt committed before,
  // and only called commands have a committed acceptance.
  ghost predicate CallsSound(s: System) {
    && DistinctCalls(s.calls)
    && (forall k :: k in s.calls ==> Sent(s.durable, k))
    && (forall i :: 0 <= i < |s.durable| && s.durable[i].Outcome? ==> KeyOf(s.durable[i].accepted) in s.calls)
  }

  ghost predicate TurnSound(s: System) {
    match s.turn
    case Ready => true
    case Committed(p) => KeyOf(p) !in s.calls && Attempted(s.durable, KeyOf(p))
    case Called(p) => KeyOf(p) in s.calls
  }

  // Memory is the log's evidence, give or take the step under way.
  ghost predicate MemorySound(s: System, c: Config)
    requires Evidence(s.durable, c).Ok?
  {
    var e := Evidence(s.durable, c).value;
    s.memory.Some? ==>
      && (s.open ==>
            match s.turn
            case Ready => s.memory.value == e
            case Committed(p) => e == s.memory.value.(unknown := s.memory.value.unknown + [Unknown(p, 0, None)])
                                 && p.context.account in c.routes
            case Called(p) => s.memory.value.accepted == e.accepted + [p] && s.memory.value.bindings == e.bindings
                              && e.unknown == s.memory.value.unknown + [Unknown(p, 0, None)]
                              && p.context.account in c.routes)
      && (!s.open ==> s.turn == Ready)
  }

  ghost predicate CheckpointSound(log: seq<Fact>, s: Snapshot, c: Config) {
    && s.barrier <= |log| && LogSound(log[..s.barrier], c)
    && s == Encode(Evidence(log[..s.barrier], c).value, s.barrier, c.routes)
  }

  // What holds of the log, the calls and the checkpoints whatever memory is.
  ghost predicate Stable(s: System, c: Config) {
    && LogSound(s.durable, c) && CallsSound(s)
    && s.checkpoints != [] && forall i :: 0 <= i < |s.checkpoints| ==> CheckpointSound(s.durable, s.checkpoints[i], c)
  }

  ghost predicate Inv(s: System, c: Config) {
    Stable(s, c) && MemorySound(s, c) && TurnSound(s)
  }
}
