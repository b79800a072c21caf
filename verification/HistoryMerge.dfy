// Merging sorted items into a sorted run, as the finite map it stands for.
module HistoryMerge {
  import opened Wrappers
  import opened HistoryKeys
  import opened HistoryDigests
  import opened HistoryTree

  type Merged = Result<seq<Item>, HistoryError>

  function Join(a: Merged, b: Merged): Merged {
    if a.Err? then a else if b.Err? then b else Ok(a.value + b.value)
  }

  // The union of two sorted runs. A key in both must have one digest, and the
  // item already present is kept.
  function Merge(a: seq<Item>, b: seq<Item>): (r: Merged)
    ensures r.Err? ==> r.error == HistoryIdentityConflict
    decreases |a| + |b|
  {
    if a == [] then Ok(b)
    else if b == [] then Ok(a)
    else
      match Compare(a[0].upper, b[0].upper)
      case Lt => Join(Ok([a[0]]), Merge(a[1..], b))
      case Gt => Join(Ok([b[0]]), Merge(a, b[1..]))
      case Eq => if a[0].digest != b[0].digest then Err(HistoryIdentityConflict) else Join(Ok([a[0]]), Merge(a[1..],
          b[1..]))
  }

  lemma JoinAssoc(a: Merged, b: Merged, c: Merged)
    ensures Join(Join(a, b), c) == Join(a, Join(b, c))
  {
    if a.Ok? && b.Ok? && c.Ok? { assert (a.value + b.value) + c.value == a.value + (b.value + c.value); }
  }

  lemma JoinEmpty(m: Merged)
    ensures Join(Ok([]), m) == m == Join(m, Ok([]))
  {
    if m.Ok? { assert [] + m.value == m.value == m.value + []; }
  }

  // Once one side is used up the rest of the other is copied item by item.
  lemma MergeRest(a: seq<Item>)
    requires a != []
    ensures Merge(a, []) == Join(Ok([a[0]]), Merge(a[1..], []))
    ensures Merge([], a) == Join(Ok([a[0]]), Merge([], a[1..]))
  {
    assert a == [a[0]] + a[1..];
  }

  method MergeLeaf(items: seq<Item>, incoming: seq<Item>) returns (r: Merged)
    ensures r == Merge(items, incoming)
  {
    hide Compare;
    var merged, i, j := [], 0, 0;
    JoinEmpty(Merge(items, incoming));
    assert items[0..] == items && incoming[0..] == incoming;
    while i < |items| || j < |incoming|
      invariant i <= |items| && j <= |incoming|
      invariant Merge(items, incoming) == Join(Ok(merged), Merge(items[i..], incoming[j..]))
      decreases |items| + |incoming| - i - j
    {
      var a, b := items[i..], incoming[j..];
      ghost var before := merged;
      assert i < |items| ==> a[1..] == items[i + 1..] && a[0] == items[i];
      assert j < |incoming| ==> b[1..] == incoming[j + 1..] && b[0] == incoming[j];
      if i == |items| {
        MergeRest(b);
        merged, j := merged + [incoming[j]], j + 1;
      } else if j == |incoming| || Compare(items[i].upper, incoming[j].upper) == Lt {
        if j == |incoming| { MergeRest(a); }
        merged, i := merged + [items[i]], i + 1;
      } else if Compare(items[i].upper, incoming[j].upper) == Eq {
        if items[i].digest != incoming[j].digest { return Err(HistoryIdentityConflict); }
        merged, i, j := merged + [items[i]], i + 1, j + 1;
      } else {
        merged, j := merged + [incoming[j]], j + 1;
      }
      JoinAssoc(Ok(before), Ok([merged[|before|]]), Merge(items[i..], incoming[j..]));
    }
    JoinEmpty(Ok(merged));
    return Ok(merged);
  }

  // ----- What merging keeps

  ghost predicate Binds(items: seq<Item>, key: Key, digest: Digest) {
    exists i :: 0 <= i < |items| && items[i].upper == key && items[i].digest == digest
  }

  lemma BindsCons(x: Item, items: seq<Item>, key: Key, digest: Digest)
    ensures Binds([x] + items, key, digest) <==> (x.upper == key && x.digest == digest) || Binds(items, key, digest)
  {
    if Binds(items, key, digest) {
      var i :| 0 <= i < |items| && items[i].upper == key && items[i].digest == digest;
      assert ([x] + items)[i + 1] == items[i];
    }
    if x.upper == key && x.digest == digest { assert ([x] + items)[0] == x; }
  }

  lemma HeadTail(items: seq<Item>)
    requires items != []
    ensures items == [items[0]] + items[1..]
    ensures Sorted(items) ==> Sorted(items[1..]) && Above(items[1..], items[0].upper)
  {
    hide At;
  }

  lemma ConsSorted(x: Item, items: seq<Item>, lo: Key)
    requires Sorted(items) && Above(items, x.upper) && At(lo) < Pos(x)
    ensures Sorted([x] + items) && Above([x] + items, lo)
  {
    hide At;
  }

  lemma TailAbove(items: seq<Item>, lo: Key, x: Key)
    requires items != [] && Sorted(items) && At(x) < Pos(items[0])
    ensures Above(items, x)
  {
    hide At;
  }

  lemma {:induction false} MergeIsSorted(a: seq<Item>, b: seq<Item>, lo: Key)
    requires Sorted(a) && Sorted(b) && Above(a, lo) && Above(b, lo) && Merge(a, b).Ok?
    ensures Sorted(Merge(a, b).value) && Above(Merge(a, b).value, lo)
    decreases |a| + |b|
  {
    if a != [] && b != [] {
      hide At, Sorted, Above, Compare;
      KeysAreOrdered(a[0].upper, b[0].upper);
      HeadTail(a);
      HeadTail(b);
      assert At(lo) < Pos(a[0]) && At(lo) < Pos(b[0]);
      match Compare(a[0].upper, b[0].upper)
      case Lt =>
        TailAbove(b, lo, a[0].upper);
        MergeIsSorted(a[1..], b, a[0].upper);
        ConsSorted(a[0], Merge(a[1..], b).value, lo);
      case Gt =>
        TailAbove(a, lo, b[0].upper);
        MergeIsSorted(a, b[1..], b[0].upper);
        ConsSorted(b[0], Merge(a, b[1..]).value, lo);
      case Eq =>
        MergeIsSorted(a[1..], b[1..], a[0].upper);
        ConsSorted(a[0], Merge(a[1..], b[1..]).value, lo);
    }
  }

  lemma {:induction false} MergeIsUnion(a: seq<Item>, b: seq<Item>, key: Key, digest: Digest)
    requires Merge(a, b).Ok?
    ensures Binds(Merge(a, b).value, key, digest) <==> Binds(a, key, digest) || Binds(b, key, digest)
    decreases |a| + |b|
  {
    if a != [] && b != [] {
      hide At, Compare, Binds;
      KeysAreOrdered(a[0].upper, b[0].upper);
      HeadTail(a);
      HeadTail(b);
      BindsCons(a[0], a[1..], key, digest);
      BindsCons(b[0], b[1..], key, digest);
      match Compare(a[0].upper, b[0].upper)
      case Lt =>
        MergeIsUnion(a[1..], b, key, digest);
        BindsCons(a[0], Merge(a[1..], b).value, key, digest);
      case Gt =>
        MergeIsUnion(a, b[1..], key, digest);
        BindsCons(b[0], Merge(a, b[1..]).value, key, digest);
      case Eq =>
        MergeIsUnion(a[1..], b[1..], key, digest);
        BindsCons(a[0], Merge(a[1..], b[1..]).value, key, digest);
    } else {
    }
  }

  // Every merged item comes from one side, and every item of the first side stays.
  lemma {:induction false} MergeMembers(a: seq<Item>, b: seq<Item>)
    requires Merge(a, b).Ok?
    ensures forall x :: x in Merge(a, b).value ==> x in a || x in b
    ensures forall x :: x in a ==> x in Merge(a, b).value
    ensures |Merge(a, b).value| <= |a| + |b|
    decreases |a| + |b|
  {
    hide At, Compare;
    if a != [] && b != [] {
      HeadTail(a);
      HeadTail(b);
      match Compare(a[0].upper, b[0].upper)
      case Lt => MergeMembers(a[1..], b);
      case Gt => MergeMembers(a, b[1..]);
      case Eq => MergeMembers(a[1..], b[1..]);
    }
  }

  ghost predicate Clash(a: seq<Item>, b: seq<Item>) {
    exists x, y :: x in a && y in b && x.upper == y.upper && x.digest != y.digest
  }

  // Merging fails exactly when some key has two digests.
  lemma {:induction false} MergeFailsOnClash(a: seq<Item>, b: seq<Item>)
    requires Sorted(a) && Sorted(b)
    ensures Merge(a, b).Err? <==> Clash(a, b)
    ensures Merge(a, b).Err? ==> Merge(a, b).error == HistoryIdentityConflict
    decreases |a| + |b|
  {
    if a != [] && b != [] {
      KeysAreOrdered(a[0].upper, b[0].upper);
      HeadTail(a);
      HeadTail(b);
      MergeHead(a, b);
      match Compare(a[0].upper, b[0].upper)
      case Lt =>
        TailAbove(b, [], a[0].upper);
        MergeFailsOnClash(a[1..], b);
        ClashHead(a, b);
      case Gt =>
        TailAbove(a, [], b[0].upper);
        MergeFailsOnClash(a, b[1..]);
        ClashSwap(a, b);
        ClashSwap(a, b[1..]);
        ClashHead(b, a);
      case Eq =>
        MergeFailsOnClash(a[1..], b[1..]);
        ClashHeads(a, b);
    } else {
    }
  }

  lemma MergeHead(a: seq<Item>, b: seq<Item>)
    requires a != [] && b != []
    ensures Merge(a, b) == match Compare(a[0].upper, b[0].upper)
                           case Lt => Join(Ok([a[0]]), Merge(a[1..], b))
                           case Gt => Join(Ok([b[0]]), Merge(a, b[1..]))
                           case Eq => if a[0].digest != b[0].digest then Err(HistoryIdentityConflict)
                                      else Join(Ok([a[0]]), Merge(a[1..], b[1..]))
  {
  }

  lemma ClashSwap(a: seq<Item>, b: seq<Item>)
    ensures Clash(a, b) == Clash(b, a)
  {
    if Clash(a, b) { var x, y :| x in a && y in b && x.upper == y.upper && x.digest != y.digest; assert Clash(b, a); }
    if Clash(b, a) { var x, y :| x in b && y in a && x.upper == y.upper && x.digest != y.digest; assert Clash(a, b); }
  }

  lemma ClashHead(a: seq<Item>, b: seq<Item>)
    requires a != [] && Above(b, a[0].upper)
    ensures Clash(a, b) == Clash(a[1..], b)
  {
    hide At;
    HeadTail(a);
    if Clash(a, b) {
      var x, y :| x in a && y in b && x.upper == y.upper && x.digest != y.digest;
      assert x in a[1..];
    }
    if Clash(a[1..], b) {
      var x, y :| x in a[1..] && y in b && x.upper == y.upper && x.digest != y.digest;
      assert x in a;
    }
  }

  lemma ClashHeads(a: seq<Item>, b: seq<Item>)
    requires a != [] && b != [] && a[0].upper == b[0].upper
    requires Above(a[1..], a[0].upper) && Above(b[1..], b[0].upper)
    ensures Clash(a, b) == (a[0].digest != b[0].digest || Clash(a[1..], b[1..]))
  {
    hide At;
    HeadTail(a);
    HeadTail(b);
    if Clash(a, b) {
      var x, y :| x in a && y in b && x.upper == y.upper && x.digest != y.digest;
      assert x in a[1..] <==> x != a[0] || x in a[1..];
    }
    if a[0].digest != b[0].digest { assert a[0] in a && b[0] in b; }
    if Clash(a[1..], b[1..]) {
      var x, y :| x in a[1..] && y in b[1..] && x.upper == y.upper && x.digest != y.digest;
      assert x in a && y in b;
    }
  }

  // Runs that lie on two sides of a key merge side by side.
  lemma {:induction false} MergeSplits(a: seq<Item>, c: seq<Item>, b: seq<Item>, d: seq<Item>, mid: Key)
    requires UpTo(a, mid) && UpTo(b, mid) && Above(c, mid) && Above(d, mid)
    ensures Merge(a + c, b + d) == Join(Merge(a, b), Merge(c, d))
    decreases |a| + |b|
  {
    hide At, Compare;
    if a == [] && b == [] {
      assert a + c == c && b + d == d;
      JoinEmpty(Merge(c, d));
    } else if a == [] {
      assert a + c == c && (b + d)[1..] == b[1..] + d;
      MergeSplits(a, c, b[1..], d, mid);
      if c != [] { KeysAreOrdered(c[0].upper, b[0].upper); }
      JoinAssoc(Ok([b[0]]), Ok(b[1..]), Merge(c, d));
      HeadTail(b);
    } else if b == [] {
      assert b + d == d && (a + c)[1..] == a[1..] + c;
      MergeSplits(a[1..], c, b, d, mid);
      if d != [] { KeysAreOrdered(a[0].upper, d[0].upper); }
      JoinAssoc(Ok([a[0]]), Ok(a[1..]), Merge(c, d));
      HeadTail(a);
    } else {
      assert (a + c)[1..] == a[1..] + c && (b + d)[1..] == b[1..] + d;
      match Compare(a[0].upper, b[0].upper)
      case Lt => MergeSplits(a[1..], c, b, d, mid); JoinAssoc(Ok([a[0]]), Merge(a[1..], b), Merge(c, d));
      case Gt => MergeSplits(a, c, b[1..], d, mid); JoinAssoc(Ok([b[0]]), Merge(a, b[1..]), Merge(c, d));
      case Eq =>
        MergeSplits(a[1..], c, b[1..], d, mid);
        JoinAssoc(Ok([a[0]]), Merge(a[1..], b[1..]), Merge(c, d));
    }
  }
}
