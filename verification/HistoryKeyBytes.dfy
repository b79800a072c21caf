// Reading an encoded key back: its account and its identity, by their own table
// of tags.
module HistoryKeyBytes {
  import opened Bytes
  import opened Wrappers
  import opened HistoryKeys

  // ----- Big-endian integers

  function FromBig(b: seq<byte>): (value: nat)
    ensures value < Pow256(|b|)
    decreases |b|
  {
    if b == [] then 0 else FromBig(b[..|b| - 1]) * 256 + b[|b| - 1] as nat
  }

  lemma {:induction false} BigReads(value: nat, width: nat)
    requires value < Pow256(width)
    ensures FromBig(Big(value, width)) == value
  {
    if width > 0 {
      BigReads(value / 256, width - 1);
      assert Big(value, width)[..width - 1] == Big(value / 256, width - 1);
    }
  }

  function Number(b: seq<byte>): u64
    requires |b| == 8
  {
    Widths();
    FromBig(b)
  }

  function Name(b: seq<byte>): u128
    requires |b| == 16
  {
    Widths();
    FromBig(b)
  }

  // ----- Tags

  function NarrowOf(tag: nat): Option<Narrow> {
    match tag
    case 2 => Some(Narrow.Order) case 3 => Some(Narrow.Command) case 7 => Some(DispatchCommand)
    case 9 => Some(CanonicalFill) case 10 => Some(CoreFill) case 11 => Some(FillDetail)
    case 12 => Some(FillEconomicDigest) case 13 => Some(CanonicalFunding) case 14 => Some(CoreFunding)
    case 15 => Some(FundingDetail) case 16 => Some(FundingEconomicDigest) case 23 => Some(ControlArchive)
    case _ => None
  }

  function WideOf(tag: nat): Option<Wide> {
    match tag
    case 5 => Some(Report) case 6 => Some(Reconciliation) case 17 => Some(ReconciliationWindow)
    case 18 => Some(CanonicalAccountReconciliation) case 19 => Some(OperationalCommand) case 20 => Some(RetiredGate)
    case 21 => Some(ResolvedLatch) case 22 => Some(StrategyFence) case 24 => Some(VersionActivation)
    case 25 => Some(CoordinatorForcedSource) case 26 => Some(CoordinatorForcedAllocation)
    case 28 => Some(CoordinatorAccountFact) case 29 => Some(CoreForced) case 30 => Some(ForcedDetail)
    case 31 => Some(ForcedEconomicDigest) case 33 => Some(Cycle) case 34 => Some(DeploymentConfiguration)
    case _ => None
  }

  function StateOf(b: byte): Option<DispatchState> {
    if b == 0 then Some(NotSent) else if b == 1 then Some(Submitted) else if b == 2 then Some(Unknown) else None
  }

  // The identity a tag and its payload stand for.
  function IdentityOf(tag: nat, b: seq<byte>): Option<Identity> {
    if tag <= 1 && |b| == 24 then
      Some(OfPair(if tag == 0 then Intent else Group, Name(b[..16]), Number(b[16..])))
    else if NarrowOf(tag).Some? && |b| == 8 then Some(OfNarrow(NarrowOf(tag).value, Number(b)))
    else if WideOf(tag).Some? && |b| == 16 then Some(OfWide(WideOf(tag).value, Name(b)))
    else if (tag == 27 || tag == 32) && |b| == 9 then
      Some(OfGateway(if tag == 27 then GatewayCommand else GatewayClosure, b[0] as nat, Number(b[1..])))
    else if tag == 4 && 1 <= |b| <= 64 then Some(OfClient(b))
    else if tag == 8 && |b| == 9 && StateOf(b[8]).Some? then Some(OfResult(Number(b[..8]), StateOf(b[8]).value))
    else None
  }

  lemma TagReads(i: Identity)
    ensures var tag := Tag(i) as nat;
      match i
      case OfPair(pair, _, _) => tag == if pair == Intent then 0 else 1
      case OfNarrow(narrow, _) => tag > 1 && NarrowOf(tag) == Some(narrow)
      case OfWide(wide, _) => tag > 1 && NarrowOf(tag).None? && WideOf(tag) == Some(wide)
      case OfGateway(gateway, _, _) =>
        tag == (if gateway == GatewayCommand then 27 else 32) && NarrowOf(tag).None? && WideOf(tag).None?
      case OfClient(_) => tag == 4 && NarrowOf(tag).None? && WideOf(tag).None?
      case OfResult(_, _) => tag == 8 && NarrowOf(tag).None? && WideOf(tag).None?
  {
  }

  lemma IdentityReads(i: Identity)
    requires i.OfClient? ==> 1 <= |i.client| <= 64
    ensures IdentityOf(Tag(i) as nat, Payload(i)) == Some(i)
  {
    hide Tag, NarrowOf, WideOf;
    Widths();
    TagReads(i);
    match i
    case OfPair(_, strategy, sequence) =>
      BigReads(strategy, 16);
      BigReads(sequence, 8);
      assert Payload(i)[..16] == Big(strategy, 16) && Payload(i)[16..] == Big(sequence, 8);
    case OfNarrow(_, number) => BigReads(number, 8);
    case OfWide(_, name) => BigReads(name, 16);
    case OfGateway(_, shard, command) =>
      BigReads(command, 8);
      assert Payload(i)[1..] == Big(command, 8);
    case OfClient(_) =>
    case OfResult(command, state) =>
      BigReads(command, 8);
      assert Payload(i)[..8] == Big(command, 8);
  }

  // An encoded key reads back: sixteen bytes of the account it names or else its
  // origin's, the tag, and the identity.
  lemma KeyReadsBack(k: HistoryKey)
    requires EncodeKey(k).Ok?
    ensures var b := EncodeKey(k).value;
      && FromBig(b[..16]) == (if k.account.Some? then k.account.value else k.origin.account)
      && IdentityOf(b[16] as nat, b[17..]) == Some(k.identity)
  {
    var b := EncodeKey(k).value;
    Widths();
    BigReads(KeyAccount(k).value, 16);
    IdentityReads(k.identity);
    assert b[..16] == Big(KeyAccount(k).value, 16) && b[16] == Tag(k.identity) && b[17..] == Payload(k.identity);
  }

  // The tags of identities of a whole decision domain, and of those that only a
  // control stream has.
  const DOMAIN_TAGS: set<nat> := {0, 1, 19, 20, 21, 22, 23, 33, 34}
  const CONTROL_TAGS: set<nat> := {24, 25, 26, 27, 28, 32}

  // Which keys can be encoded.
  lemma KeyIsEncodable(k: HistoryKey)
    ensures var tag := Tag(k.identity) as nat;
      EncodeKey(k).Ok? <==>
      && ValidOrigin(k.origin)
      && (if k.origin.scope.AccountScope? || tag in DOMAIN_TAGS then k.account.None?
          else k.account.Some? && k.account.value > 0)
      && (k.origin.stream.domain == Control <==> tag in CONTROL_TAGS)
      && (k.identity.OfClient? ==> 1 <= |k.identity.client| <= 64)
  {
    hide ValidOrigin;
  }
}
