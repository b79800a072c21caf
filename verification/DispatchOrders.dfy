// What the order management state says about an unknown dispatch: the last
// reconciliation of the command's order, if it can settle the dispatch.
module DispatchOrders {
  import opened Bytes
  import opened Wrappers
  import opened DispatchTables

  datatype OrderState =
    PendingSubmit | UnknownState | Live | PartiallyFilled | PendingAmend | PendingCancel | Filled | Canceled | Rejected

  datatype OrderCommand = OrderCommand(id: u64, order: u64, revision: u32, account: u128, portfolio: u128)
  datatype Order = Order(id: u64, reconciliation: u64, status: Status, revision: u32, state: OrderState)
  datatype Orders = Orders(commands: seq<OrderCommand>, orders: seq<Order>)

  function CommandIndex(commands: seq<OrderCommand>, id: u64): (i: nat)
    ensures i <= |commands| && (i < |commands| ==> commands[i].id == id)
    ensures forall j :: 0 <= j < i ==> commands[j].id != id
  {
    if commands == [] || commands[0].id == id then 0
    else
      var rest := commands[1..];
      assert forall j :: 1 <= j < |commands| ==> commands[j] == rest[j - 1];
      1 + CommandIndex(rest, id)
  }

  function OrderIndex(orders: seq<Order>, id: u64): (i: nat)
    ensures i <= |orders| && (i < |orders| ==> orders[i].id == id)
    ensures forall j :: 0 <= j < i ==> orders[j].id != id
  {
    if orders == [] || orders[0].id == id then 0
    else
      var rest := orders[1..];
      assert forall j :: 1 <= j < |orders| ==> orders[j] == rest[j - 1];
      1 + OrderIndex(rest, id)
  }

  // The order stands where its last reconciliation put it.
  predicate Agrees(o: Order) {
    match o.status
    case FoundLive => o.state in {Live, PartiallyFilled}
    case FoundTerminal => o.state in {Filled, Canceled, Rejected}
    case ConfirmedAbsent => o.state in {Filled, Canceled, Rejected}
    case Unresolved => false
  }

  // The order whose last reconciliation covers the command and was applied.
  function Resolving(s: Orders, k: Key): Option<Order> {
    var i := CommandIndex(s.commands, k.command);
    if i == |s.commands| || s.commands[i].account != k.account || s.commands[i].portfolio != k.origin.portfolio then
      None
    else
      var j := OrderIndex(s.orders, s.commands[i].order);
      if j == |s.orders| || s.orders[j].revision < s.commands[i].revision || !Agrees(s.orders[j]) then None
      else Some(s.orders[j])
  }

  // The order answers for the dispatch: it is the first of its identity, that of
  // the first command with the key's identity, which is for the key's account
  // and portfolio; and its last reconciliation covers the command's revision and
  // left it live, or at an end, as it says.
  ghost predicate Answers(s: Orders, k: Key, o: Order) {
    exists i, j :: 0 <= i < |s.commands| && 0 <= j < |s.orders| && AnswersAt(s, k, o, i, j)
  }

  ghost predicate AnswersAt(s: Orders, k: Key, o: Order, i: nat, j: nat)
    requires i < |s.commands| && j < |s.orders|
  {
    && s.commands[i].id == k.command && (forall m :: 0 <= m < i ==> s.commands[m].id != k.command)
    && s.commands[i].account == k.account && s.commands[i].portfolio == k.origin.portfolio
    && s.orders[j] == o && o.id == s.commands[i].order && (forall m :: 0 <= m < j ==> s.orders[m].id != o.id)
    && o.revision >= s.commands[i].revision
    && ((o.status == FoundLive && (o.state == Live || o.state == PartiallyFilled))
        || (o.status == FoundTerminal && (o.state == Filled || o.state == Canceled || o.state == Rejected))
        || (o.status == ConfirmedAbsent && (o.state == Filled || o.state == Canceled || o.state == Rejected)))
  }

  lemma ResolvingIsExact(s: Orders, k: Key)
    ensures forall o :: Resolving(s, k) == Some(o) <==> Answers(s, k, o)
  {
    var i := CommandIndex(s.commands, k.command);
    if i < |s.commands| {
      var j := OrderIndex(s.orders, s.commands[i].order);
      if Resolving(s, k).Some? { assert AnswersAt(s, k, s.orders[j], i, j); }
    }
    forall o | Answers(s, k, o) ensures Resolving(s, k) == Some(o) {
      var m, n :| 0 <= m < |s.commands| && 0 <= n < |s.orders| && AnswersAt(s, k, o, m, n);
      assert m == i && n == OrderIndex(s.orders, o.id);
    }
  }

  // The first command with the key's identity is for its account and portfolio.
  ghost predicate Commanded(s: Orders, k: Key) {
    exists i :: && 0 <= i < |s.commands| && s.commands[i].id == k.command
                && (forall m :: 0 <= m < i ==> s.commands[m].id != k.command)
                && s.commands[i].account == k.account && s.commands[i].portfolio == k.origin.portfolio
  }

  lemma CommandedIsExact(s: Orders, k: Key)
    ensures var i := CommandIndex(s.commands, k.command);
      Commanded(s, k) <==>
      i < |s.commands| && s.commands[i].account == k.account && s.commands[i].portfolio == k.origin.portfolio
  {
    if i :| && 0 <= i < |s.commands| && s.commands[i].id == k.command
            && (forall m :: 0 <= m < i ==> s.commands[m].id != k.command)
            && s.commands[i].account == k.account && s.commands[i].portfolio == k.origin.portfolio
    {
      assert i == CommandIndex(s.commands, k.command);
    }
  }

  method FindCommand(s: Orders, id: u64) returns (i: nat)
    ensures i == CommandIndex(s.commands, id)
  {
    i := 0;
    while i < |s.commands| && s.commands[i].id != id
      invariant i <= |s.commands| && forall j :: 0 <= j < i ==> s.commands[j].id != id
    {
      i := i + 1;
    }
  }

  method FindOrder(s: Orders, id: u64) returns (i: nat)
    ensures i == OrderIndex(s.orders, id)
  {
    i := 0;
    while i < |s.orders| && s.orders[i].id != id
      invariant i <= |s.orders| && forall j :: 0 <= j < i ==> s.orders[j].id != id
    {
      i := i + 1;
    }
  }
}
