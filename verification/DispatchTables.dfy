// The dispatch evidence of the execution gateway: accepted dispatches, unknown
// dispatches with their resolutions, and history roots bound to origins, as the
// committed facts of the dispatch log build them.
module DispatchTables {
  import opened Bytes
  import opened Wrappers
  import opened HistoryProof
  import opened HistoryChain

  const MAX_AUTHORITY_RECORDS: nat := 128

  // ----- Facts

  datatype Source = Source(decisionStream: u64, account: u128, portfolio: u128, testShard: u32)

  datatype Authority = Authority(
    complete: bool, exchangeAccount: u128, virtualPortfolio: u128, capability: u64, instrumentRules: u64, config: u64,
    adapterSession: u128, deadline: u64, primaryLease: u64)

  datatype Command = Command(
    id: u64, order: u64, revision: u32, intent: u64, clientOrderId: seq<byte>, reservation: u64, limitRules: u64,
    authority: Authority)

  datatype Context = Context(account: u128, capability: u64, rules: u64, config: u64, adapterSession: u128,
      deadline: u64)

  datatype DispatchProof = DispatchProof(
    origin: Source, context: Context, command: Command, fencingToken: u64, authorityBarrier: u64, now: u64,
    priorReconciliation: u64)

  datatype Status = Unresolved | FoundLive | FoundTerminal | ConfirmedAbsent

  datatype Unknown = Unknown(proof: DispatchProof, reconciliation: u64, status: Option<Status>)

  datatype ArchiveCommit = ArchiveCommit(origin: Source, order: u64, receipt: Receipt)

  datatype EconomicKind = Fill | Funding | ReconciliationWindow | ControlKind | Forced | Deployment
  datatype EconomicCommit = EconomicCommit(
    origin: Source, kind: EconomicKind, identity: u128, qualification: Digest, receipt: Receipt)
  type Digest = HistoryDigests.Digest
  import HistoryDigests

  datatype Binding = Binding(origin: Source, root: Root, lastOrder: Option<ArchiveCommit>)

  // The records of the dispatch log.
  datatype Fact =
    | Attempt(attempt: DispatchProof)
    | Outcome(accepted: DispatchProof)
    | Resolution(origin: Source, account: u128, command: u64, reconciliation: u64, status: Status)
    | Archive(archive: ArchiveCommit)
    | Economic(economic: EconomicCommit)

  datatype Tables = Tables(accepted: seq<DispatchProof>, unknown: seq<Unknown>, bindings: seq<Binding>)

  const MAX_ROUTES: nat := 4
  type Routes = s: seq<u128> | |s| <= MAX_ROUTES

  // The configured account routes and the shared capacity of both tables.
  datatype Config = Config(routes: Routes, capacity: nat)

  datatype DispatchError =
    | DurableDispatchUnavailable | DispatchCapacity | UnknownAccount | InvalidDispatchIdentity
    | DispatchIdentityConflict
    | DispatchArchiveNotCommitted | DispatchArchivePinned | EconomicHistoryNotCommitted | HistoryRefused
    | UnknownDispatch | UnreconciledDispatch | ConflictingDispatchResolution | InvalidDispatchOrigin

  type Applied = Result<Tables, DispatchError>

  const EMPTY: Tables := Tables([], [], [])

  // What recovery demands of a proof it reads back.
  predicate ValidPersisted(p: DispatchProof) {
    var c, a := p.command, p.command.authority;
    && p.origin.account == p.context.account && p.origin.portfolio == a.virtualPortfolio
    && (p.origin.decisionStream == 0 || p.origin.testShard == 0)
    && c.id != 0 && c.order != 0 && c.revision != 0 && c.intent != 0 && 0 < |c.clientOrderId| <= 64 && a.complete
    && p.context.account == a.exchangeAccount && p.context.capability == a.capability
    && p.context.rules == c.limitRules && p.context.rules == a.instrumentRules
    && p.context.config == a.config && p.context.adapterSession == a.adapterSession && p.context.deadline == a.deadline
    && p.fencingToken != 0 && p.fencingToken == a.primaryLease && p.authorityBarrier != 0
    && p.now != 0 && p.now <= p.context.deadline
  }

  // ----- Looking up

  datatype Key = Key(origin: Source, account: u128, command: u64)

  function KeyOf(p: DispatchProof): Key { Key(p.origin, p.context.account, p.command.id) }

  function AcceptedIndex(accepted: seq<DispatchProof>, k: Key): (i: nat)
    ensures i <= |accepted| && (i < |accepted| ==> KeyOf(accepted[i]) == k)
    ensures forall j :: 0 <= j < i ==> KeyOf(accepted[j]) != k
  {
    if accepted == [] || KeyOf(accepted[0]) == k then 0 else 1 + AcceptedIndex(accepted[1..], k)
  }

  function UnknownIndex(unknown: seq<Unknown>, k: Key): (i: nat)
    ensures i <= |unknown| && (i < |unknown| ==> KeyOf(unknown[i].proof) == k)
    ensures forall j :: 0 <= j < i ==> KeyOf(unknown[j].proof) != k
  {
    if unknown == [] || KeyOf(unknown[0].proof) == k then 0 else 1 + UnknownIndex(unknown[1..], k)
  }

  function BindingIndex(bindings: seq<Binding>, origin: Source): (i: nat)
    ensures i <= |bindings| && (i < |bindings| ==> bindings[i].origin == origin)
    ensures forall j :: 0 <= j < i ==> bindings[j].origin != origin
  {
    if bindings == [] || bindings[0].origin == origin then 0 else 1 + BindingIndex(bindings[1..], origin)
  }

  predicate IsAccepted(t: Tables, k: Key) { AcceptedIndex(t.accepted, k) < |t.accepted| }
  predicate IsUnknown(t: Tables, k: Key) { UnknownIndex(t.unknown, k) < |t.unknown| }

  predicate Full(t: Tables, c: Config) { |t.accepted| + |t.unknown| >= c.capacity }

  function Without<T>(s: seq<T>, i: nat): seq<T>
    requires i < |s|
  {
    s[..i] + s[i + 1..]
  }

  // ----- One fact

  function Marked(t: Tables, p: DispatchProof, c: Config): Applied {
    if IsUnknown(t, KeyOf(p)) then Ok(t)
    else if Full(t, c) then Err(DispatchCapacity)
    else Ok(t.(unknown := t.unknown + [Unknown(p, 0, None)]))
  }

  function Restored(t: Tables, p: DispatchProof, c: Config): Applied {
    if p.context.account !in c.routes then Err(UnknownAccount)
    else if p.command.id == 0 then Err(InvalidDispatchIdentity)
    else Taken(t, p, c)
  }

  // An accepted dispatch of a routed account.
  function Taken(t: Tables, p: DispatchProof, c: Config): Applied {
    if p.context.account !in c.routes then Err(UnknownAccount)
    else
      var i := AcceptedIndex(t.accepted, KeyOf(p));
      if i < |t.accepted| then if t.accepted[i] != p then Err(DispatchIdentityConflict) else Ok(t)
      else if Full(t, c) then Err(DispatchCapacity)
      else Ok(t.(accepted := t.accepted + [p]))
  }

  function WithAttempt(t: Tables, p: DispatchProof, c: Config): Applied {
    if IsUnknown(t, KeyOf(p)) || IsAccepted(t, KeyOf(p)) then Err(DurableDispatchUnavailable)
    else if Full(t, c) then Err(DurableDispatchUnavailable)
    else Ok(t.(unknown := t.unknown + [Unknown(p, 0, None)]))
  }

  function WithOutcome(t: Tables, p: DispatchProof, c: Config): Applied {
    var i := UnknownIndex(t.unknown, KeyOf(p));
    if i == |t.unknown| || t.unknown[i].reconciliation != 0
        || t.unknown[i].proof != p then Err(DurableDispatchUnavailable)
    else
      var r := Taken(t.(unknown := Without(t.unknown, i)), p, c);
      if r.Err? then Err(DurableDispatchUnavailable) else r
  }

  function WithResolution(t: Tables, k: Key, reconciliation: u64, status: Status): Applied {
    var i := UnknownIndex(t.unknown, k);
    if reconciliation == 0 || status == Unresolved || i == |t.unknown| || t.unknown[i].reconciliation != 0 then
      Err(DurableDispatchUnavailable)
    else Ok(t.(unknown := t.unknown[i := Unknown(t.unknown[i].proof, reconciliation, Some(status))]))
  }

  predicate OfOrder(p: DispatchProof, origin: Source, order: u64) { p.origin == origin && p.command.order == order }

  predicate Unsettled(u: Unknown) { u.reconciliation == 0 || u.status.None? || u.status == Some(Unresolved) }

  function KeepUnknown(unknown: seq<Unknown>, origin: Source, order: u64): seq<Unknown> {
    if unknown == [] then []
    else (if OfOrder(unknown[0].proof, origin, order) then [] else [unknown[0]]) + KeepUnknown(unknown[1..], origin,
        order)
  }

  function KeepAccepted(accepted: seq<DispatchProof>, origin: Source, order: u64): seq<DispatchProof> {
    if accepted == [] then []
    else (if OfOrder(accepted[0], origin, order) then [] else [accepted[0]]) + KeepAccepted(accepted[1..], origin,
        order)
  }

  predicate Pinned(unknown: seq<Unknown>, origin: Source, order: u64) {
    exists i :: 0 <= i < |unknown| && OfOrder(unknown[i].proof, origin, order) && Unsettled(unknown[i])
  }

  function PreviousRoot(bindings: seq<Binding>, origin: Source): Option<Root> {
    var i := BindingIndex(bindings, origin);
    if i < |bindings| then Some(bindings[i].root) else None
  }

  predicate AlreadyBound(t: Tables, origin: Source, root: Root) { PreviousRoot(t.bindings, origin) == Some(root) }

  function Bound(bindings: seq<Binding>, b: Binding): seq<Binding> {
    var i := BindingIndex(bindings, b.origin);
    if i < |bindings| then bindings[i := b] else bindings + [b]
  }

  // A receipt for the root already bound, or for the next one.
  predicate AcceptsRoot(previous: Option<Root>, r: Receipt, qualification: Digest) {
    if previous == Some(r.root) then
      ValidRoot(r.root) && r.previousRoot == r.root.previousRoot && qualification == r.root.qualificationDigest
      && r.batchDigest == r.root.batchDigest
    else VerifyReceipt(r, r.root.origin, qualification, previous).Ok?
  }

  predicate NewOrigin(bindings: seq<Binding>, origin: Source) { BindingIndex(bindings, origin) == |bindings| }

  function WithArchive(t: Tables, commit: ArchiveCommit): Applied {
    var o, root := commit.origin, commit.receipt.root;
    if o.decisionStream == 0 || commit.order == 0 || o.account != root.origin.account
       || o.decisionStream != root.origin.stream.id || o.testShard != 0 then Err(DispatchArchiveNotCommitted)
    else if !ArchiveReceiptAccepted(t, commit) then Err(HistoryRefused)
    else if NewOrigin(t.bindings, o) && |t.bindings| == MAX_AUTHORITY_RECORDS then Err(DispatchCapacity)
    else if Pinned(t.unknown, o, commit.order) then Err(DispatchArchivePinned)
    else
      Ok(Tables(KeepAccepted(t.accepted, o, commit.order), KeepUnknown(t.unknown, o, commit.order),
                Bound(t.bindings, Binding(o, root, Some(commit)))))
  }

  // The committed root's own qualification is checked against the receipt's.
  predicate ArchiveReceiptAccepted(t: Tables, commit: ArchiveCommit) {
    var r, previous := commit.receipt, PreviousRoot(t.bindings, commit.origin);
    if previous == Some(r.root) then AcceptsRoot(previous, r, r.qualificationDigest)
    else AcceptsRoot(previous, r, r.root.qualificationDigest)
  }

  function LastOrder(bindings: seq<Binding>, origin: Source): Option<ArchiveCommit> {
    var i := BindingIndex(bindings, origin);
    if i < |bindings| then bindings[i].lastOrder else None
  }

  function WithEconomic(t: Tables, commit: EconomicCommit): Applied {
    var o, root := commit.origin, commit.receipt.root;
    var previous := PreviousRoot(t.bindings, o);
    if o.decisionStream == 0 || o.portfolio == 0 || o.testShard != 0 || commit.identity == 0
        || o.account != root.origin.account
       || o.decisionStream != root.origin.stream.id || commit.qualification != commit.receipt.qualificationDigest
       || (commit.kind != ReconciliationWindow && commit.kind != Deployment && commit.identity > U64_MAX) then
      Err(EconomicHistoryNotCommitted)
    else if !AcceptsRoot(previous, commit.receipt, commit.qualification) then Err(HistoryRefused)
    else if previous == Some(root) then Ok(t)
    else if NewOrigin(t.bindings, o) && |t.bindings| == MAX_AUTHORITY_RECORDS then Err(DispatchCapacity)
    else Ok(t.(bindings := Bound(t.bindings, Binding(o, root, LastOrder(t.bindings, o)))))
  }

  // What a committed fact makes of the evidence, whatever its proof looks like.
  function Apply(t: Tables, f: Fact, c: Config): Applied {
    match f
    case Attempt(p) => WithAttempt(t, p, c)
    case Outcome(p) => WithOutcome(t, p, c)
    case Resolution(origin, account, command, reconciliation, status) =>
      WithResolution(t, Key(origin, account, command), reconciliation, status)
    case Archive(commit) => WithArchive(t, commit)
    case Economic(commit) => WithEconomic(t, commit)
  }

  // Replaying a log from given tables.
  function Replay(t: Tables, log: seq<Fact>, c: Config): Applied
    decreases |log|
  {
    if log == [] then Ok(t)
    else
      var n := |log| - 1;
      var before := Replay(t, log[..n], c);
      if before.Err? then before else Apply(before.value, log[n], c)
  }

  // ----- What every fact keeps

  predicate BindingSound(b: Binding) {
    && ValidRoot(b.root) && b.origin.decisionStream == b.root.origin.stream.id
    && b.origin.account == b.root.origin.account
    && b.origin.testShard == 0
    && match b.lastOrder
       case None => true
       case Some(order) =>
         && ValidRoot(order.receipt.root) && order.origin == b.origin && order.order != 0
         && order.receipt.root.origin == b.root.origin && order.receipt.root.generation <= b.root.generation
         && order.receipt.previousRoot == order.receipt.root.previousRoot
         && order.receipt.qualificationDigest == order.receipt.root.qualificationDigest
         && order.receipt.batchDigest == order.receipt.root.batchDigest
         && (order.receipt.root.generation == b.root.generation ==> order.receipt.root == b.root)
  }

  predicate UnknownSound(u: Unknown) {
    (u.reconciliation == 0 <==> u.status.None?) && u.status != Some(Unresolved)
  }

  predicate DistinctAccepted(accepted: seq<DispatchProof>) {
    forall i, j :: 0 <= i < j < |accepted| ==> KeyOf(accepted[i]) != KeyOf(accepted[j])
  }

  predicate DistinctUnknown(unknown: seq<Unknown>) {
    forall i, j :: 0 <= i < j < |unknown| ==> KeyOf(unknown[i].proof) != KeyOf(unknown[j].proof)
  }

  predicate Disjoint(accepted: seq<DispatchProof>, unknown: seq<Unknown>) {
    forall i, j :: 0 <= i < |accepted| && 0 <= j < |unknown| ==> KeyOf(accepted[i]) != KeyOf(unknown[j].proof)
  }

  predicate DistinctBindings(bindings: seq<Binding>) {
    forall i, j :: 0 <= i < j < |bindings| ==> bindings[i].origin != bindings[j].origin
  }

  // Keys are distinct and disjoint, tables stay within their bounds, accepted
  // rows are routed, and resolutions and bindings are well formed.
  predicate Sound(t: Tables, c: Config) {
    && DistinctAccepted(t.accepted) && DistinctUnknown(t.unknown) && Disjoint(t.accepted, t.unknown)
    && DistinctBindings(t.bindings)
    && |t.accepted| + |t.unknown| <= c.capacity && |t.bindings| <= MAX_AUTHORITY_RECORDS
    && (forall i :: 0 <= i < |t.accepted| ==> t.accepted[i].context.account in c.routes)
    && (forall i :: 0 <= i < |t.unknown| ==> UnknownSound(t.unknown[i]))
    && (forall i :: 0 <= i < |t.bindings| ==> BindingSound(t.bindings[i]))
  }

  lemma AttemptSound(t: Tables, p: DispatchProof, c: Config)
    requires Sound(t, c) && WithAttempt(t, p, c).Ok?
    ensures Sound(WithAttempt(t, p, c).value, c)
  {
    hide BindingSound;
  }

  lemma WithoutKeeps(unknown: seq<Unknown>, i: nat)
    requires DistinctUnknown(unknown) && i < |unknown|
    ensures DistinctUnknown(Without(unknown, i))
    ensures forall j :: 0 <= j < |unknown| - 1 ==> Without(unknown, i)[j] in unknown
    ensures forall j :: 0 <= j < |unknown| - 1 ==> KeyOf(Without(unknown, i)[j].proof) != KeyOf(unknown[i].proof)
  {
  }

  lemma OutcomeSound(t: Tables, p: DispatchProof, c: Config)
    requires Sound(t, c) && WithOutcome(t, p, c).Ok?
    ensures Sound(WithOutcome(t, p, c).value, c)
    ensures WithOutcome(t, p, c).value.accepted == t.accepted + [p]
    ensures WithOutcome(t, p, c).value.unknown == Without(t.unknown, UnknownIndex(t.unknown, KeyOf(p)))
  {
    hide BindingSound;
    var i := UnknownIndex(t.unknown, KeyOf(p));
    WithoutKeeps(t.unknown, i);
    assert forall j :: 0 <= j < |t.accepted| ==> KeyOf(t.accepted[j]) != KeyOf(t.unknown[i].proof);
    assert UnknownSound(t.unknown[i]);
  }

  lemma ResolutionSound(t: Tables, k: Key, reconciliation: u64, status: Status, c: Config)
    requires Sound(t, c) && WithResolution(t, k, reconciliation, status).Ok?
    ensures Sound(WithResolution(t, k, reconciliation, status).value, c)
  {
    hide BindingSound;
    var i := UnknownIndex(t.unknown, k);
    assert UnknownSound(t.unknown[i]);
  }

  lemma AcceptedCons(p: DispatchProof, rest: seq<DispatchProof>)
    requires DistinctAccepted(rest) && forall q :: q in rest ==> KeyOf(q) != KeyOf(p)
    ensures DistinctAccepted([p] + rest)
  {
    forall i, j | 0 <= i < j < |rest| + 1
      ensures KeyOf(([p] + rest)[i]) != KeyOf(([p] + rest)[j])
    {
      assert rest[j - 1] in rest;
    }
  }

  lemma UnknownCons(u: Unknown, rest: seq<Unknown>)
    requires DistinctUnknown(rest) && forall v :: v in rest ==> KeyOf(v.proof) != KeyOf(u.proof)
    ensures DistinctUnknown([u] + rest)
  {
    forall i, j | 0 <= i < j < |rest| + 1
      ensures KeyOf(([u] + rest)[i].proof) != KeyOf(([u] + rest)[j].proof)
    {
      assert rest[j - 1] in rest;
    }
  }

  // What filtering keeps of a table.
  lemma {:induction false} KeepAcceptedKeeps(accepted: seq<DispatchProof>, origin: Source, order: u64)
    ensures var kept := KeepAccepted(accepted, origin, order);
      && |kept| <= |accepted|
      && (forall p :: p in kept <==> p in accepted && !OfOrder(p, origin, order))
      && (DistinctAccepted(accepted) ==> DistinctAccepted(kept))
  {
    hide OfOrder;
    if accepted != [] {
      KeepAcceptedKeeps(accepted[1..], origin, order);
      assert accepted == [accepted[0]] + accepted[1..];
      if DistinctAccepted(accepted) { AcceptedCons(accepted[0], KeepAccepted(accepted[1..], origin, order)); }
    }
  }

  lemma {:induction false} KeepUnknownKeeps(unknown: seq<Unknown>, origin: Source, order: u64)
    ensures var kept := KeepUnknown(unknown, origin, order);
      && |kept| <= |unknown|
      && (forall u :: u in kept <==> u in unknown && !OfOrder(u.proof, origin, order))
      && (DistinctUnknown(unknown) ==> DistinctUnknown(kept))
  {
    hide OfOrder;
    if unknown != [] {
      KeepUnknownKeeps(unknown[1..], origin, order);
      assert unknown == [unknown[0]] + unknown[1..];
      if DistinctUnknown(unknown) { UnknownCons(unknown[0], KeepUnknown(unknown[1..], origin, order)); }
    }
  }

  lemma BoundKeeps(bindings: seq<Binding>, b: Binding)
    requires DistinctBindings(bindings) && BindingSound(b)
    requires forall i :: 0 <= i < |bindings| ==> BindingSound(bindings[i])
    ensures DistinctBindings(Bound(bindings, b))
    ensures forall i :: 0 <= i < |Bound(bindings, b)| ==> BindingSound(Bound(bindings, b)[i])
  {
    hide BindingSound;
  }

  // A receipt accepted after the bound root moves it one generation on, or not at all.
  lemma RootAdvances(previous: Option<Root>, r: Receipt, qualification: Digest)
    requires AcceptsRoot(previous, r, qualification)
    ensures qualification == r.root.qualificationDigest
    ensures previous != Some(r.root) ==> r.qualificationDigest == r.root.qualificationDigest
    ensures ValidRoot(r.root) && r.previousRoot == r.root.previousRoot && r.batchDigest == r.root.batchDigest
    ensures previous.Some? && previous.value != r.root ==>
              r.root.origin == previous.value.origin && r.root.generation == previous.value.generation + 1
  {
    hide ValidRoot;
  }

  lemma ArchiveSound(t: Tables, commit: ArchiveCommit, c: Config)
    requires Sound(t, c) && WithArchive(t, commit).Ok?
    ensures Sound(WithArchive(t, commit).value, c)
  {
    var o, r, after := commit.origin, commit.receipt, WithArchive(t, commit).value;
    assert DistinctAccepted(t.accepted) && DistinctUnknown(t.unknown) && DistinctBindings(t.bindings)
           && |t.bindings| <= MAX_AUTHORITY_RECORDS;
    assert forall i :: 0 <= i < |t.bindings| ==> BindingSound(t.bindings[i]);
    ArchiveBinding(t, commit);
    KeepAcceptedKeeps(t.accepted, o, commit.order);
    KeepUnknownKeeps(t.unknown, o, commit.order);
    KeptSound(t, after, c);
  }

  lemma ArchiveBinding(t: Tables, commit: ArchiveCommit)
    requires WithArchive(t, commit).Ok? && DistinctBindings(t.bindings) && |t.bindings| <= MAX_AUTHORITY_RECORDS
    requires forall i :: 0 <= i < |t.bindings| ==> BindingSound(t.bindings[i])
    ensures var after := WithArchive(t, commit).value;
      && DistinctBindings(after.bindings) && |after.bindings| <= MAX_AUTHORITY_RECORDS
      && forall i :: 0 <= i < |after.bindings| ==> BindingSound(after.bindings[i])
  {
    hide OfOrder, Unsettled, ValidRoot, AcceptsRoot, Pinned, KeepAccepted, KeepUnknown;
    var o, r := commit.origin, commit.receipt;
    var previous := PreviousRoot(t.bindings, o);
    RootAdvances(previous, r, if previous == Some(r.root) then r.qualificationDigest else r.root.qualificationDigest);
    BoundKeeps(t.bindings, Binding(o, r.root, Some(commit)));
  }

  // Tables that only lost evidence are as sound as before.
  lemma KeptSound(t: Tables, after: Tables, c: Config)
    requires Sound(t, c)
    requires DistinctAccepted(after.accepted) && |after.accepted| <= |t.accepted|
    requires DistinctUnknown(after.unknown) && |after.unknown| <= |t.unknown|
    requires forall p :: p in after.accepted ==> p in t.accepted
    requires forall u :: u in after.unknown ==> u in t.unknown
    requires DistinctBindings(after.bindings) && |after.bindings| <= MAX_AUTHORITY_RECORDS
    requires forall i :: 0 <= i < |after.bindings| ==> BindingSound(after.bindings[i])
    ensures Sound(after, c)
  {
    hide UnknownSound, BindingSound, KeyOf;
    DisjointKept(t, after);
    forall i | 0 <= i < |after.accepted|
      ensures after.accepted[i].context.account in c.routes
    {
      assert after.accepted[i] in t.accepted;
    }
    forall i | 0 <= i < |after.unknown|
      ensures UnknownSound(after.unknown[i])
    {
      assert after.unknown[i] in t.unknown;
    }
  }

  lemma DisjointKept(t: Tables, after: Tables)
    requires Disjoint(t.accepted, t.unknown)
    requires forall p :: p in after.accepted ==> p in t.accepted
    requires forall u :: u in after.unknown ==> u in t.unknown
    ensures Disjoint(after.accepted, after.unknown)
  {
    forall i, j | 0 <= i < |after.accepted| && 0 <= j < |after.unknown|
      ensures KeyOf(after.accepted[i]) != KeyOf(after.unknown[j].proof)
    {
      assert after.accepted[i] in t.accepted && after.unknown[j] in t.unknown;
    }
  }

  lemma EconomicSound(t: Tables, commit: EconomicCommit, c: Config)
    requires Sound(t, c) && WithEconomic(t, commit).Ok?
    ensures Sound(WithEconomic(t, commit).value, c)
    ensures WithEconomic(t, commit).value.accepted == t.accepted && WithEconomic(t, commit).value.unknown == t.unknown
  {
    hide UnknownSound, Disjoint, DistinctAccepted, DistinctUnknown, AcceptsRoot, ValidRoot;
    var o, r := commit.origin, commit.receipt;
    var previous := PreviousRoot(t.bindings, o);
    if previous != Some(r.root) {
      RootAdvances(previous, r, commit.qualification);
      var i := BindingIndex(t.bindings, o);
      if i < |t.bindings| { assert BindingSound(t.bindings[i]); }
      BoundKeeps(t.bindings, Binding(o, r.root, LastOrder(t.bindings, o)));
    }
  }

  // Every committed fact keeps the tables sound.
  lemma ApplySound(t: Tables, f: Fact, c: Config)
    requires Sound(t, c) && Apply(t, f, c).Ok?
    ensures Sound(Apply(t, f, c).value, c)
  {
    match f
    case Attempt(p) => AttemptSound(t, p, c);
    case Outcome(p) => OutcomeSound(t, p, c);
    case Resolution(origin, account, command, reconciliation, status) =>
      ResolutionSound(t, Key(origin, account, command), reconciliation, status, c);
    case Archive(commit) => ArchiveSound(t, commit, c);
    case Economic(commit) => EconomicSound(t, commit, c);
  }

  lemma {:induction false} ReplaySound(t: Tables, log: seq<Fact>, c: Config)
    requires Sound(t, c) && Replay(t, log, c).Ok?
    ensures Sound(Replay(t, log, c).value, c)
    decreases |log|
  {
    if log != [] {
      var n := |log| - 1;
      ReplaySound(t, log[..n], c);
      ApplySound(Replay(t, log[..n], c).value, log[n], c);
    }
  }

  // Every row is one recovery would read back.
  predicate Persisted(t: Tables) {
    && (forall i :: 0 <= i < |t.accepted| ==> ValidPersisted(t.accepted[i]))
    && (forall i :: 0 <= i < |t.unknown| ==> ValidPersisted(t.unknown[i].proof))
  }

  lemma EmptySound(c: Config)
    ensures Sound(EMPTY, c)
  {
  }

  // ----- How evidence leaves

  lemma AcceptedHas(accepted: seq<DispatchProof>, k: Key)
    ensures AcceptedIndex(accepted, k) < |accepted| <==> exists p :: p in accepted && KeyOf(p) == k
  {
    var i := AcceptedIndex(accepted, k);
    if i < |accepted| { assert accepted[i] in accepted; }
  }

  lemma UnknownHas(unknown: seq<Unknown>, k: Key)
    ensures UnknownIndex(unknown, k) < |unknown| <==> exists u :: u in unknown && KeyOf(u.proof) == k
  {
    var i := UnknownIndex(unknown, k);
    if i < |unknown| { assert unknown[i] in unknown; }
  }

  lemma WithoutHas<T>(s: seq<T>, j: nat, i: nat)
    requires j < |s| && i < |s| && i != j
    ensures s[i] in Without(s, j)
  {
    if i < j { assert Without(s, j)[i] == s[i]; } else { assert Without(s, j)[i - 1] == s[i]; }
  }

  // The table of unknown dispatches holds this very proof.
  ghost predicate Waits(t: Tables, p: DispatchProof) {
    exists u :: u in t.unknown && u.proof == p
  }

  // An unknown dispatch leaves only through the acceptance of the identical,
  // still unresolved proof, or through an archive of its order once settled.
  lemma UnknownLeaves(t: Tables, f: Fact, c: Config, u: Unknown)
    requires Sound(t, c) && Apply(t, f, c).Ok? && u in t.unknown
    ensures var after := Apply(t, f, c).value;
      || Waits(after, u.proof)
      || (f == Outcome(u.proof) && u.reconciliation == 0 && u.proof in after.accepted)
      || (f.Archive? && OfOrder(u.proof, f.archive.origin, f.archive.order) && !Unsettled(u))
  {
    hide UnknownSound, BindingSound, ArchiveReceiptAccepted, AcceptsRoot, Unsettled, OfOrder;
    var after := Apply(t, f, c).value;
    var i :| 0 <= i < |t.unknown| && t.unknown[i] == u;
    match f
    case Outcome(p) =>
      OutcomeSound(t, p, c);
      var j := UnknownIndex(t.unknown, KeyOf(p));
      if j != i { WithoutHas(t.unknown, j, i); }
    case Resolution(origin, account, command, reconciliation, status) =>
      assert after.unknown[i].proof == u.proof;
      assert after.unknown[i] in after.unknown;
    case Archive(commit) => KeepUnknownKeeps(t.unknown, commit.origin, commit.order);
    case _ => assert u in after.unknown;
  }

  // An accepted dispatch leaves only through an archive of its order.
  lemma AcceptedLeaves(t: Tables, f: Fact, c: Config, p: DispatchProof)
    requires Sound(t, c) && Apply(t, f, c).Ok? && p in t.accepted
    ensures p in Apply(t, f, c).value.accepted || (f.Archive? && OfOrder(p, f.archive.origin, f.archive.order))
  {
    hide UnknownSound, BindingSound, ArchiveReceiptAccepted, AcceptsRoot, Pinned, OfOrder;
    match f
    case Outcome(q) => OutcomeSound(t, q, c);
    case Archive(commit) => KeepAcceptedKeeps(t.accepted, commit.origin, commit.order);
    case _ =>
  }
}
