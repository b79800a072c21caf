// The library sort used on a batch, and its check for keys that occur twice.
module HistorySort {
  import opened HistoryKeys
  import opened HistoryDigests
  import opened HistoryTree

  function Insert(x: Item, items: seq<Item>): seq<Item> {
    if items == [] || Compare(x.upper, items[0].upper) != Gt then [x] + items
    else [items[0]] + Insert(x, items[1..])
  }

  function Sort(items: seq<Item>): seq<Item> {
    if items == [] then [] else Insert(items[0], Sort(items[1..]))
  }

  predicate Ordered(items: seq<Item>) {
    forall i, j :: 0 <= i < j < |items| ==> Pos(items[i]) <= Pos(items[j])
  }

  predicate NamesKey(items: seq<Item>, key: Key) {
    exists i :: 0 <= i < |items| && items[i].upper == key
  }

  predicate Distinct(items: seq<Item>) {
    forall i, j :: 0 <= i < j < |items| ==> items[i].upper != items[j].upper
  }

  lemma OrderedCons(x: Item, items: seq<Item>)
    requires Ordered(items) && (items != [] ==> Pos(x) <= Pos(items[0]))
    ensures Ordered([x] + items)
  {
    hide At;
  }

  lemma OrderedTail(items: seq<Item>)
    requires Ordered(items) && items != []
    ensures Ordered(items[1..])
  {
    hide At;
  }

  lemma {:induction false} InsertOrders(x: Item, items: seq<Item>)
    requires Ordered(items)
    ensures Ordered(Insert(x, items))
    ensures Insert(x, items)[0] == x || (items != [] && Insert(x, items)[0] == items[0])
    decreases |items|
  {
    hide At, Compare;
    if items == [] {
      OrderedCons(x, []);
    } else {
      KeysAreOrdered(x.upper, items[0].upper);
      if Compare(x.upper, items[0].upper) != Gt {
        OrderedCons(x, items);
      } else {
        OrderedTail(items);
        InsertOrders(x, items[1..]);
        if |items| > 1 { assert Pos(items[0]) <= Pos(items[1]); assert items[1..][0] == items[1]; }
        OrderedCons(items[0], Insert(x, items[1..]));
      }
    }
  }

  lemma {:induction false} SortOrders(items: seq<Item>)
    ensures Ordered(Sort(items))
    decreases |items|
  {
    if items != [] {
      SortOrders(items[1..]);
      InsertOrders(items[0], Sort(items[1..]));
    }
  }

  lemma {:induction false} InsertKeeps(x: Item, items: seq<Item>)
    ensures multiset(Insert(x, items)) == multiset([x] + items)
    decreases |items|
  {
    if items != [] && Compare(x.upper, items[0].upper) == Gt {
      InsertKeeps(x, items[1..]);
      assert items == [items[0]] + items[1..];
    }
  }

  // Sorting rearranges the items and nothing else.
  lemma {:induction false} SortKeeps(items: seq<Item>)
    ensures multiset(Sort(items)) == multiset(items)
    decreases |items|
  {
    if items != [] {
      SortKeeps(items[1..]);
      InsertKeeps(items[0], Sort(items[1..]));
      assert items == [items[0]] + items[1..];
    }
  }

  lemma SameMembers(a: seq<Item>, b: seq<Item>)
    requires multiset(a) == multiset(b)
    ensures |a| == |b| && forall x :: x in a <==> x in b
  {
    assert |multiset(a)| == |a| && |multiset(b)| == |b|;
    forall x
      ensures x in a <==> x in b
    {
      assert x in a <==> x in multiset(a);
      assert x in b <==> x in multiset(b);
    }
  }

  lemma {:induction false} InsertDistinct(x: Item, items: seq<Item>)
    ensures Distinct(Insert(x, items)) == (Distinct(items) && !NamesKey(items, x.upper))
    ensures forall key :: NamesKey(Insert(x, items), key) == (key == x.upper || NamesKey(items, key))
    decreases |items|
  {
    hide Compare;
    if items == [] || Compare(x.upper, items[0].upper) != Gt {
      ConsNames(x, items);
    } else {
      InsertDistinct(x, items[1..]);
      ConsNames(items[0], Insert(x, items[1..]));
      ConsNames(items[0], items[1..]);
      assert items == [items[0]] + items[1..];
    }
  }

  lemma ConsNames(x: Item, items: seq<Item>)
    ensures Distinct([x] + items) == (Distinct(items) && !NamesKey(items, x.upper))
    ensures forall key :: NamesKey([x] + items, key) == (key == x.upper || NamesKey(items, key))
  {
    var all := [x] + items;
    if Distinct(all) {
      forall i, j | 0 <= i < j < |items| ensures items[i].upper != items[j].upper {
        assert all[i + 1].upper != all[j + 1].upper;
      }
      forall i | 0 <= i < |items| ensures items[i].upper != x.upper {
        assert all[0].upper != all[i + 1].upper;
      }
    }
    forall key
      ensures NamesKey(all, key) == (key == x.upper || NamesKey(items, key))
    {
      if NamesKey(items, key) {
        var i :| 0 <= i < |items| && items[i].upper == key;
        assert all[i + 1].upper == key;
      }
      if key == x.upper { assert all[0].upper == key; }
    }
  }

  lemma {:induction false} SortDistinct(items: seq<Item>)
    ensures Distinct(Sort(items)) == Distinct(items)
    ensures forall key :: NamesKey(Sort(items), key) == NamesKey(items, key)
    decreases |items|
  {
    if items != [] {
      SortDistinct(items[1..]);
      InsertDistinct(items[0], Sort(items[1..]));
      ConsNames(items[0], items[1..]);
      assert items == [items[0]] + items[1..];
    }
  }

  // Looking at neighbours is enough to find a key that occurs twice.
  method FindsDuplicate(items: seq<Item>) returns (found: bool)
    requires Ordered(items)
    ensures found == !Distinct(items)
    ensures !found ==> Sorted(items)
  {
    hide At;
    for i := 0 to |items|
      invariant forall k :: 0 < k < i ==> Step(items, k)
    {
      if i > 0 {
        KeysAreOrdered(items[i - 1].upper, items[i].upper);
        if Compare(items[i - 1].upper, items[i].upper) == Eq { return true; }
      }
    }
    StepsSort(items);
    return false;
  }

  predicate Step(items: seq<Item>, k: nat)
    requires 0 < k < |items|
  {
    Pos(items[k - 1]) < Pos(items[k])
  }

  lemma StepsSort(items: seq<Item>)
    requires Ordered(items) && forall k :: 0 < k < |items| ==> Step(items, k)
    ensures Sorted(items) && Distinct(items)
  {
    hide At;
    forall i, j | 0 <= i < j < |items|
      ensures Pos(items[i]) < Pos(items[j])
    {
      assert Step(items, i + 1);
      assert i + 1 < j ==> Pos(items[i + 1]) <= Pos(items[j]);
    }
    assert forall i, j :: 0 <= i < j < |items| ==> Pos(items[i]) < Pos(items[j]);
  }
}
