// Keys of the authenticated order-history directory: origins, identities,
// their byte encoding, and the order in which pages keep them.
module HistoryKeys {
  import opened Bytes
  import opened Wrappers

  const KEY_BYTES: nat := 82
  type Key = k: seq<byte> | |k| <= KEY_BYTES

  // ----- Order

  datatype Order = Lt | Eq | Gt

  // std.mem.order on the used bytes.
  function Compare(a: seq<byte>, b: seq<byte>): Order {
    if a == [] then if b == [] then Eq else Lt
    else if b == [] then Gt
    else if a[0] < b[0] then Lt
    else if a[0] > b[0] then Gt
    else Compare(a[1..], b[1..])
  }

  function Pow257(n: nat): (p: nat)
    ensures p >= 1
  {
    if n == 0 then 1 else 257 * Pow257(n - 1)
  }

  lemma DigitsDecide(a: nat, b: nat, p: nat, x: nat, y: nat)
    requires a < b && x < p
    ensures a * p + x < b * p + y
  {
    assert a * p + p == (a + 1) * p <= b * p;
  }

  // The position of a key among all keys of at most width bytes.
  function Rank(k: seq<byte>, width: nat): (r: nat)
    requires |k| <= width
    ensures r < Pow257(width)
    ensures r == 0 <==> k == []
  {
    if k == [] then 0
    else
      var rest := Rank(k[1..], width - 1);
      DigitsDecide(k[0] as nat + 1, 257, Pow257(width - 1), rest, 0);
      DigitsDecide(0, k[0] as nat + 1, Pow257(width - 1), 0, rest);
      (k[0] as nat + 1) * Pow257(width - 1) + rest
  }

  function At(k: Key): nat { Rank(k, KEY_BYTES) }

  lemma {:induction false} RankOrders(a: seq<byte>, b: seq<byte>, width: nat)
    requires |a| <= width && |b| <= width
    ensures Compare(a, b).Lt? == (Rank(a, width) < Rank(b, width))
    ensures Compare(a, b).Gt? == (Rank(a, width) > Rank(b, width))
    ensures Compare(a, b).Eq? == (a == b)
  {
    if a != [] && b != [] {
      var p, x, y := Pow257(width - 1), Rank(a[1..], width - 1), Rank(b[1..], width - 1);
      if a[0] < b[0] { DigitsDecide(a[0] as nat + 1, b[0] as nat + 1, p, x, y); }
      else if a[0] > b[0] { DigitsDecide(b[0] as nat + 1, a[0] as nat + 1, p, y, x); }
      else {
        RankOrders(a[1..], b[1..], width - 1);
        assert a == [a[0]] + a[1..] && b == [b[0]] + b[1..];
      }
    }
  }

  // The byte order of keys is the order of one number per key, so it is total,
  // transitive and equal only on equal keys, and the empty key is least.
  lemma KeysAreOrdered(a: Key, b: Key)
    ensures Compare(a, b).Lt? == (At(a) < At(b))
    ensures Compare(a, b).Gt? == (At(a) > At(b))
    ensures Compare(a, b).Eq? == (At(a) == At(b)) == (a == b)
    ensures At(a) == 0 <==> a == []
  {
    RankOrders(a, b, KEY_BYTES);
  }

  // ----- Origins

  datatype Domain = DecisionLog | Control | OtherDomain(tag: u8)
  datatype Stream = Stream(domain: Domain, id: u128)
  datatype Scope =
    | AccountScope
    | DomainScope(identity: u128, deployment: u128, epoch: u64, configuration: seq<byte>)
  datatype Origin = Origin(stream: Stream, account: u128, scope: Scope)

  predicate ValidOrigin(o: Origin) {
    && (o.stream.domain.DecisionLog? || o.stream.domain.Control?) && o.stream.id != 0
    && match o.scope
       case AccountScope => o.account != 0
       case DomainScope(identity, deployment, epoch, configuration) =>
         && o.account == 0 && o.stream.domain.DecisionLog? && identity != 0 && deployment != 0 && epoch != 0
         && exists i :: 0 <= i < |configuration| && configuration[i] != 0
  }

  // ----- Identities, grouped by the shape of their payload

  datatype DispatchState = NotSent | Submitted | Unknown

  datatype Pair = Intent | Group
  datatype Narrow =
    | Order | Command | DispatchCommand | CanonicalFill | CoreFill | FillDetail | FillEconomicDigest
    | CanonicalFunding | CoreFunding | FundingDetail | FundingEconomicDigest | ControlArchive
  datatype Wide =
    | Report | Reconciliation | ReconciliationWindow | CanonicalAccountReconciliation | OperationalCommand
    | RetiredGate | ResolvedLatch | StrategyFence | VersionActivation | CoordinatorForcedSource
    | CoordinatorForcedAllocation | CoordinatorAccountFact | CoreForced | ForcedDetail | ForcedEconomicDigest
    | Cycle | DeploymentConfiguration
  datatype Gateway = GatewayCommand | GatewayClosure

  const CLIENT_ORDER_BYTES: nat := 64

  datatype Identity =
    | OfPair(pair: Pair, strategy: u128, sequence: u64)
    | OfNarrow(narrow: Narrow, number: u64)
    | OfWide(wide: Wide, name: u128)
    | OfGateway(gateway: Gateway, shard: u8, gatewayCommand: u64)
    | OfClient(client: seq<byte>)
    | OfResult(command: u64, state: DispatchState)

  datatype HistoryKey = HistoryKey(origin: Origin, account: Option<u128>, identity: Identity)

  function Tag(i: Identity): (t: byte)
    ensures 0 <= t < 35
  {
    match i
    case OfPair(pair, _, _) => (match pair case Intent => 0 case Group => 1)
    case OfNarrow(narrow, _) => NarrowTag(narrow)
    case OfWide(wide, _) => WideTag(wide)
    case OfGateway(gateway, _, _) => (match gateway case GatewayCommand => 27 case GatewayClosure => 32)
    case OfClient(_) => 4
    case OfResult(_, _) => 8
  }

  function NarrowTag(n: Narrow): byte {
    match n
    case Order => 2 case Command => 3 case DispatchCommand => 7 case CanonicalFill => 9 case CoreFill => 10
    case FillDetail => 11 case FillEconomicDigest => 12 case CanonicalFunding => 13 case CoreFunding => 14
    case FundingDetail => 15 case FundingEconomicDigest => 16 case ControlArchive => 23
  }

  function WideTag(w: Wide): byte {
    match w
    case Report => 5 case Reconciliation => 6 case ReconciliationWindow => 17
    case CanonicalAccountReconciliation => 18 case OperationalCommand => 19 case RetiredGate => 20
    case ResolvedLatch => 21 case StrategyFence => 22 case VersionActivation => 24
    case CoordinatorForcedSource => 25 case CoordinatorForcedAllocation => 26 case CoordinatorAccountFact => 28
    case CoreForced => 29 case ForcedDetail => 30 case ForcedEconomicDigest => 31
    case Cycle => 33 case DeploymentConfiguration => 34
  }

  // Identities that belong to a whole decision domain, not to one account.
  predicate DomainIdentity(i: Identity) {
    || i.OfPair?
    || (i.OfNarrow? && i.narrow == ControlArchive)
    || (i.OfWide? && i.wide in {OperationalCommand, RetiredGate, ResolvedLatch, StrategyFence, Cycle,
        DeploymentConfiguration})
  }

  predicate ControlIdentity(i: Identity) {
    || i.OfGateway?
    || (i.OfWide? && i.wide in {CoordinatorForcedSource, CoordinatorForcedAllocation, CoordinatorAccountFact,
        VersionActivation})
  }

  // The last error stands for an addition that leaves eight bits.
  datatype HistoryError =
    | InvalidHistoryKey | InvalidHistoryProof | InvalidHistoryRoot | InvalidHistoryReceipt | InvalidHistoryRecord
    | HistoryRecordAbsent | InvalidHistoryPage | StaleHistoryRequest | HistoryDepthExceeded | InvalidHistoryBatch
    | DuplicateHistoryBatchKey | HistoryIdentityConflict | HistoryBatchTooLarge | HistoryPageFull
    | HistoryBatchCoverageIncomplete | StaleHistoryRoot | Overflow | StoreFailed
    | LevelOverflow

  // ----- Encoding

  function Big(value: nat, width: nat): (bytes: seq<byte>)
    ensures |bytes| == width
  {
    if width == 0 then [] else Big(value / 256, width - 1) + [(value % 256) as byte]
  }

  lemma {:induction false} BigInjective(a: nat, b: nat, width: nat)
    requires a < Pow256(width) && b < Pow256(width) && Big(a, width) == Big(b, width)
    ensures a == b
  {
    if width > 0 {
      var p, q := Big(a / 256, width - 1), Big(b / 256, width - 1);
      assert Big(a, width) == p + [(a % 256) as byte] && Big(b, width) == q + [(b % 256) as byte];
      assert p == Big(a, width)[..width - 1] == Big(b, width)[..width - 1] == q;
      assert Big(a, width)[width - 1] == Big(b, width)[width - 1];
      BigInjective(a / 256, b / 256, width - 1);
    }
  }

  function Payload(i: Identity): (bytes: seq<byte>)
    requires i.OfClient? ==> |i.client| <= CLIENT_ORDER_BYTES
    ensures |bytes| <= CLIENT_ORDER_BYTES
  {
    match i
    case OfPair(_, strategy, sequence) => Big(strategy, 16) + Big(sequence, 8)
    case OfNarrow(_, number) => Big(number, 8)
    case OfWide(_, name) => Big(name, 16)
    case OfGateway(_, shard, command) => [shard as byte] + Big(command, 8)
    case OfClient(client) => client
    case OfResult(command, state) =>
      Big(command, 8) + [match state case NotSent => 0 case Submitted => 1 case Unknown => 2]
  }

  // The account a key names, when the key is well formed.
  function KeyAccount(k: HistoryKey): Result<u128, HistoryError> {
    if k.origin.scope.AccountScope? || DomainIdentity(k.identity) then
      if k.account.Some? then Err(InvalidHistoryKey) else Ok(k.origin.account)
    else if k.account.None? || k.account.value == 0 then Err(InvalidHistoryKey)
    else Ok(k.account.value)
  }

  function EncodeKey(k: HistoryKey): (r: Result<Key, HistoryError>)
    ensures r.Ok? ==> 18 <= |r.value| <= 81
    ensures r.Err? ==> r.error == InvalidHistoryKey
  {
    if !ValidOrigin(k.origin) then Err(InvalidHistoryKey)
    else
      var account :- KeyAccount(k);
      if ControlIdentity(k.identity) != k.origin.stream.domain.Control? then Err(InvalidHistoryKey)
      else if k.identity.OfClient? && (|k.identity.client| == 0 || |k.identity.client| > CLIENT_ORDER_BYTES) then
        Err(InvalidHistoryKey)
      else Ok(Big(account, 16) + [Tag(k.identity)] + Payload(k.identity))
  }

  lemma SamePayload(a: Identity, b: Identity)
    requires a.OfClient? ==> |a.client| <= CLIENT_ORDER_BYTES
    requires b.OfClient? ==> |b.client| <= CLIENT_ORDER_BYTES
    requires Tag(a) == Tag(b) && Payload(a) == Payload(b)
    ensures a == b
  {
    Widths();
    match a
    case OfPair(_, x, m) =>
      assert Payload(a)[..16] == Big(x, 16) && Payload(a)[16..] == Big(m, 8);
      assert Payload(b)[..16] == Big(b.strategy, 16) && Payload(b)[16..] == Big(b.sequence, 8);
      BigInjective(x, b.strategy, 16);
      BigInjective(m, b.sequence, 8);
    case OfNarrow(_, x) => BigInjective(x, b.number, 8);
    case OfWide(_, x) => BigInjective(x, b.name, 16);
    case OfGateway(_, s, x) =>
      assert Payload(a)[1..] == Big(x, 8) && Payload(b)[1..] == Big(b.gatewayCommand, 8);
      assert Payload(a)[0] == s as byte && Payload(b)[0] == b.shard as byte;
      BigInjective(x, b.gatewayCommand, 8);
    case OfClient(_) =>
    case OfResult(x, _) =>
      assert Payload(a)[..8] == Big(x, 8) && Payload(b)[..8] == Big(b.command, 8);
      assert Payload(a)[8] == Payload(b)[8];
      BigInjective(x, b.command, 8);
  }

  // Within one origin two keys are encoded alike only if they are the same key.
  lemma EncodingIsInjective(a: HistoryKey, b: HistoryKey)
    requires a.origin == b.origin && EncodeKey(a).Ok? && EncodeKey(a) == EncodeKey(b)
    ensures a == b
  {
    var x, y := KeyAccount(a).value, KeyAccount(b).value;
    var bytes := EncodeKey(a).value;
    assert bytes[..16] == Big(x, 16) && bytes[16] == Tag(a.identity) && bytes[17..] == Payload(a.identity);
    assert bytes[..16] == Big(y, 16) && bytes[16] == Tag(b.identity) && bytes[17..] == Payload(b.identity);
    Widths();
    BigInjective(x, y, 16);
    SamePayload(a.identity, b.identity);
  }
}
