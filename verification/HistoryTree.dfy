// The copy-on-write search tree of the order-history directory, apart from
// where its pages are stored: shape, order, page sizes, and the directory it
// represents.
module HistoryTree {
  import opened HistoryKeys
  import opened HistoryDigests

  const PAGE_BYTES: nat := 4096
  const HEADER_BYTES: nat := 16
  const BRANCH_FANOUT: nat := 16

  // A page together with the subtrees its items name; a leaf has no children.
  datatype Tree = Tree(level: nat, items: seq<Item>, children: seq<Tree>)

  function NodeOf(t: Tree): Node { Node(t.level, t.items) }

  function TreeDigest(t: Tree): Digest {
    if |t.items| <= FANOUT then NodeDigest(NodeOf(t)) else Zero
  }

  function Pos(x: Item): nat { At(x.upper) }

  // The greatest key of a page, or lo for an empty one.
  function Greatest(items: seq<Item>, lo: Key): Key {
    if items == [] then lo else items[|items| - 1].upper
  }

  predicate Sorted(items: seq<Item>) {
    forall i, j :: 0 <= i < j < |items| ==> Pos(items[i]) < Pos(items[j])
  }

  predicate Above(items: seq<Item>, lo: Key) {
    forall i :: 0 <= i < |items| ==> At(lo) < Pos(items[i])
  }

  predicate UpTo(items: seq<Item>, hi: Key) {
    forall i :: 0 <= i < |items| ==> Pos(items[i]) <= At(hi)
  }

  // ----- Page size

  function ItemBytes(x: Item): nat { 2 + |x.lower| + |x.upper| + 44 }

  function ItemsBytes(items: seq<Item>): nat {
    if items == [] then 0 else ItemsBytes(items[..|items| - 1]) + ItemBytes(items[|items| - 1])
  }

  function Capacity(level: nat): nat { if level == 0 then FANOUT else BRANCH_FANOUT }

  predicate Fits(level: nat, items: seq<Item>) {
    |items| <= Capacity(level) && HEADER_BYTES + ItemsBytes(items) <= PAGE_BYTES
  }

  // ----- Shape

  // The separator below item i: the greatest key of the previous sibling.
  function Separator(items: seq<Item>, i: nat, lo: Key): Key
    requires i < |items|
  {
    if i == 0 then lo else items[i - 1].upper
  }

  predicate Describes(x: Item, t: Tree) {
    t.items != [] && x.upper == Greatest(t.items, []) && x.digest == TreeDigest(t)
  }

  // A well-formed page whose keys are all above lo.
  predicate Valid(t: Tree, lo: Key)
    decreases t
  {
    && Fits(t.level, t.items)
    && Sorted(t.items)
    && Above(t.items, lo)
    && if t.level == 0 then
         t.children == [] && forall i :: 0 <= i < |t.items| ==> t.items[i].lower == []
       else
         && |t.children| == |t.items| > 0
         && (forall i :: 0 <= i < |t.items| ==> Describes(t.items[i], t.children[i]))
         && (forall i :: 0 <= i < |t.items| ==> t.items[i].lower == Separator(t.items, i, lo))
         && Forest(t.level - 1, t.children, lo)
  }

  // Neighbouring subtrees of one level: each starts where the previous ends.
  predicate Forest(level: nat, ts: seq<Tree>, lo: Key)
    decreases ts
  {
    ts != [] ==>
      && ts[0].level == level && ts[0].items != [] && Valid(ts[0], lo)
      && Forest(level, ts[1..], Greatest(ts[0].items, lo))
  }

  // The greatest key of a forest, or lo for an empty one.
  function End(ts: seq<Tree>, lo: Key): Key
    decreases |ts|
  {
    if ts == [] then lo else End(ts[1..], Greatest(ts[0].items, lo))
  }

  // ----- The directory

  function Flat(t: Tree): seq<Item>
    decreases t
  {
    if t.level == 0 then t.items else FlatAll(t.children)
  }

  function FlatAll(ts: seq<Tree>): seq<Item>
    decreases ts
  {
    if ts == [] then [] else Flat(ts[0]) + FlatAll(ts[1..])
  }

  function Entries(items: seq<Item>): map<Key, Digest> {
    if items == [] then map[]
    else Entries(items[..|items| - 1])[items[|items| - 1].upper := items[|items| - 1].digest]
  }

  // The finite map a tree stands for.
  function Directory(t: Tree): map<Key, Digest> { Entries(Flat(t)) }

  lemma {:induction false} EntriesBind(items: seq<Item>, i: nat)
    requires Sorted(items) && i < |items|
    ensures items[i].upper in Entries(items) && Entries(items)[items[i].upper] == items[i].digest
    decreases |items|
  {
    var n := |items| - 1;
    if i < n {
      EntriesBind(items[..n], i);
      KeysAreOrdered(items[i].upper, items[n].upper);
    }
  }

  lemma {:induction false} EntriesBound(items: seq<Item>, key: Key)
    requires key in Entries(items)
    ensures exists i :: 0 <= i < |items| && items[i].upper == key
    decreases |items|
  {
    var n := |items| - 1;
    if items[n].upper != key {
      EntriesBound(items[..n], key);
      var i :| 0 <= i < n && items[..n][i].upper == key;
      assert items[i].upper == key;
    }
  }

  // ----- Order

  lemma JoinSorted(a: seq<Item>, b: seq<Item>, lo: Key, mid: Key, hi: Key)
    requires Sorted(a) && Above(a, lo) && UpTo(a, mid)
    requires Sorted(b) && Above(b, mid) && UpTo(b, hi)
    requires At(lo) <= At(mid) <= At(hi)
    ensures Sorted(a + b) && Above(a + b, lo) && UpTo(a + b, hi)
  {
    hide At;
  }

  lemma LastIsGreatest(items: seq<Item>, lo: Key)
    requires Sorted(items) && Above(items, lo)
    ensures UpTo(items, Greatest(items, lo)) && At(lo) <= At(Greatest(items, lo))
  {
    hide At;
  }

  // The items below a page are strictly sorted between lo and the page's own
  // greatest key, which is one of them.
  lemma {:induction false} ValidFlat(t: Tree, lo: Key)
    requires Valid(t, lo)
    ensures Sorted(Flat(t)) && Above(Flat(t), lo) && UpTo(Flat(t), Greatest(t.items, lo))
    ensures Greatest(Flat(t), lo) == Greatest(t.items, lo)
    decreases t
  {
    hide At, Fits, Sorted, Above, UpTo, ItemsBytes;
    if t.level == 0 {
      LastIsGreatest(t.items, lo);
    } else {
      ForestFlat(t.level - 1, t.children, lo);
      ForestEnd(t.level - 1, t.children, lo);
      var n := |t.items| - 1;
      assert Describes(t.items[n], t.children[n]);
    }
  }

  lemma {:induction false} ForestFlat(level: nat, ts: seq<Tree>, lo: Key)
    requires Forest(level, ts, lo)
    ensures Sorted(FlatAll(ts)) && Above(FlatAll(ts), lo) && UpTo(FlatAll(ts), End(ts, lo))
    ensures Greatest(FlatAll(ts), lo) == End(ts, lo) && At(lo) <= At(End(ts, lo))
    decreases ts
  {
    if ts != [] {
      hide At, Valid, Sorted, Above, UpTo, Flat;
      var mid := Greatest(ts[0].items, lo);
      ValidFlat(ts[0], lo);
      PageIsSorted(ts[0], lo);
      LastIsGreatest(ts[0].items, lo);
      ForestFlat(level, ts[1..], mid);
      JoinSorted(Flat(ts[0]), FlatAll(ts[1..]), lo, mid, End(ts, lo));
    } else {
      hide At;
    }
  }

  lemma PageIsSorted(t: Tree, lo: Key)
    requires Valid(t, lo)
    ensures Sorted(t.items) && Above(t.items, lo)
  {
  }

  lemma {:induction false} ForestEnd(level: nat, ts: seq<Tree>, lo: Key)
    requires Forest(level, ts, lo) && ts != []
    ensures End(ts, lo) == Greatest(ts[|ts| - 1].items, [])
    decreases |ts|
  {
    hide Valid;
    if |ts| > 1 { ForestEnd(level, ts[1..], Greatest(ts[0].items, lo)); }
  }

  lemma {:induction false} FlatConcat(a: seq<Tree>, b: seq<Tree>)
    ensures FlatAll(a + b) == FlatAll(a) + FlatAll(b)
    decreases a
  {
    hide Flat;
    if a == [] {
      assert a + b == b;
    } else {
      assert (a + b)[1..] == a[1..] + b;
      FlatConcat(a[1..], b);
    }
  }

  lemma {:induction false} EndConcat(a: seq<Tree>, b: seq<Tree>, lo: Key)
    ensures End(a + b, lo) == End(b, End(a, lo))
    decreases a
  {
    if a == [] {
      assert a + b == b;
    } else {
      hide Greatest;
      assert (a + b)[1..] == a[1..] + b;
      EndConcat(a[1..], b, Greatest(a[0].items, lo));
    }
  }

  lemma {:induction false} ForestConcat(level: nat, a: seq<Tree>, b: seq<Tree>, lo: Key)
    ensures Forest(level, a + b, lo) == (Forest(level, a, lo) && Forest(level, b, End(a, lo)))
    decreases a
  {
    if a == [] {
      assert a + b == b;
    } else {
      hide Valid, Greatest;
      var joined, mid := a + b, Greatest(a[0].items, lo);
      assert joined[0] == a[0] && joined[1..] == a[1..] + b;
      ForestConcat(level, a[1..], b, mid);
      assert Forest(level, joined[1..], mid) == (Forest(level, a[1..], mid) && Forest(level, b, End(a[1..], mid)));
    }
  }

  // The neighbours of subtree i in a forest.
  lemma ForestSplit(level: nat, ts: seq<Tree>, i: nat, lo: Key)
    requires Forest(level, ts, lo) && i < |ts|
    ensures Forest(level, ts[..i], lo) && Valid(ts[i], End(ts[..i], lo))
    ensures ts[i].items != [] && ts[i].level == level
    ensures Forest(level, ts[i + 1..], Greatest(ts[i].items, []))
    ensures FlatAll(ts) == FlatAll(ts[..i]) + Flat(ts[i]) + FlatAll(ts[i + 1..])
  {
    hide Valid, Flat;
    assert ts == ts[..i] + ts[i..];
    ForestConcat(level, ts[..i], ts[i..], lo);
    FlatConcat(ts[..i], ts[i..]);
    assert ts[i..][1..] == ts[i + 1..];
    assert FlatAll(ts[i..]) == Flat(ts[i]) + FlatAll(ts[i + 1..]);
  }

  lemma BranchShape(t: Tree, lo: Key, i: nat)
    requires Valid(t, lo) && t.level > 0 && i < |t.items|
    ensures Forest(t.level - 1, t.children, lo) && |t.children| == |t.items| && Flat(t) == FlatAll(t.children)
    ensures Describes(t.items[i], t.children[i]) && t.items[i].lower == Separator(t.items, i, lo)
  {
    hide At, Fits, Sorted, Above, Describes, Separator, Forest, FlatAll;
  }

  lemma ChildStarts(t: Tree, lo: Key, i: nat)
    requires Valid(t, lo) && t.level > 0 && i < |t.items|
    ensures |t.children| == |t.items| && End(t.children[..i], lo) == t.items[i].lower
    ensures Describes(t.items[i], t.children[i])
  {
    hide Valid;
    BranchShape(t, lo, i);
    if i > 0 {
      ForestSplit(t.level - 1, t.children, i, lo);
      ForestEnd(t.level - 1, t.children[..i], lo);
      BranchShape(t, lo, i - 1);
    } else {
    }
  }

  // A key between the separators of child i occurs below the page exactly
  // where it occurs below child i.
  lemma ChildDecides(t: Tree, lo: Key, i: nat, x: Item)
    requires Valid(t, lo) && t.level > 0 && i < |t.items|
    requires At(t.items[i].lower) < Pos(x)
    requires Pos(x) <= At(t.items[i].upper) || i + 1 == |t.items|
    ensures Valid(t.children[i], t.items[i].lower) && t.children[i].items != []
    ensures t.children[i].level == t.level - 1 && t.items[i].digest == TreeDigest(t.children[i])
    ensures t.items[i].upper == Greatest(t.children[i].items, [])
    ensures x in Flat(t) <==> x in Flat(t.children[i])
  {
    hide Pow257, Valid;
    ChildStarts(t, lo, i);
    BranchShape(t, lo, i);
    var ts := t.children;
    ForestSplit(t.level - 1, ts, i, lo);
    ForestFlat(t.level - 1, ts[..i], lo);
    ForestFlat(t.level - 1, ts[i + 1..], t.items[i].upper);
    Outside(FlatAll(ts[..i]), FlatAll(ts[i + 1..]), t.items[i].lower, t.items[i].upper, x, ts[i + 1..] == []);
    if ts[i + 1..] == [] { assert FlatAll(ts[i + 1..]) == []; }
  }

  lemma Outside(low: seq<Item>, high: seq<Item>, lower: Key, upper: Key, x: Item, last: bool)
    requires UpTo(low, lower) && Above(high, upper)
    requires At(lower) < Pos(x) && (Pos(x) <= At(upper) || last)
    ensures x !in low && (!last ==> x !in high)
  {
    hide At;
  }
}
