// Cutting a run of items into pages, and chaining the separators of the pages.
module HistoryPack {
  import opened Bytes
  import opened Wrappers
  import opened HistoryKeys
  import opened HistoryDigests
  import opened HistoryTree
  import opened HistoryProof
  import opened HistoryStore

  const MAX_BATCH_KEYS: nat := 256
  const SPLIT_CAPACITY: nat := MAX_BATCH_KEYS + FANOUT

  // ----- Pages of a run

  function Chained(level: nat, items: seq<Item>, i: nat, previous: Key): Item
    requires i < |items|
  {
    if level == 0 then items[i] else items[i].(lower := Separator(items, i, previous))
  }

  function Chain(level: nat, items: seq<Item>, previous: Key): (r: seq<Item>)
    ensures |r| == |items|
  {
    seq(|items|, i requires 0 <= i < |items| => Chained(level, items, i, previous))
  }

  function Used(level: nat, items: seq<Item>, previous: Key, n: nat): nat
    requires n <= |items|
  {
    HEADER_BYTES + ItemsBytes(Chain(level, items[..n], previous))
  }

  // How many of the items go to the next page once n have been taken.
  function Taken(level: nat, items: seq<Item>, previous: Key, n: nat): (m: nat)
    requires n <= |items|
    ensures n <= m <= |items|
    decreases |items| - n
  {
    if n == |items| || n >= Capacity(level)
        || ItemBytes(Chained(level, items, n, previous)) > PAGE_BYTES - Used(level, items, previous, n)
    then n
    else Taken(level, items, previous, n + 1)
  }

  function PageSize(level: nat, items: seq<Item>, previous: Key): (n: nat)
    requires items != []
    ensures 0 < n <= |items|
  {
    assert Chain(level, items[..0], previous) == [];
    Taken(level, items, previous, 0)
  }

  function Kids(level: nat, children: seq<Tree>, a: nat, b: nat): (kids: seq<Tree>)
    requires level > 0 ==> a <= b <= |children|
    ensures level > 0 ==> |kids| == b - a
  {
    if level == 0 then [] else children[a..b]
  }

  // The pages a run is cut into, as trees over the given subtrees.
  function Trees(level: nat, items: seq<Item>, children: seq<Tree>, previous: Key): seq<Tree>
    requires level > 0 ==> |children| == |items|
    decreases |items|
  {
    if items == [] then []
    else
      var n := PageSize(level, items, previous);
      [Tree(level, Chain(level, items[..n], previous), Kids(level, children, 0, n))]
      + Trees(level, items[n..], Kids(level, children, n, |items|), items[n - 1].upper)
  }

  lemma ChainGrows(level: nat, items: seq<Item>, previous: Key, n: nat)
    requires n < |items|
    ensures Chain(level, items[..n + 1], previous) == Chain(level, items[..n], previous) + [Chained(level, items, n,
        previous)]
    ensures Used(level, items, previous, n + 1) == Used(level, items, previous, n) + ItemBytes(Chained(level, items,
        n, previous))
  {
    var longer, shorter := Chain(level, items[..n + 1], previous), Chain(level, items[..n], previous);
    assert longer == shorter + [Chained(level, items, n, previous)];
    assert longer[..n] == shorter;
  }

  lemma {:induction false} TakenFits(level: nat, items: seq<Item>, previous: Key, n: nat)
    requires n <= |items| && n <= Capacity(level) && Used(level, items, previous, n) <= PAGE_BYTES
    ensures var m := Taken(level, items, previous, n);
      m <= Capacity(level) && Used(level, items, previous, m) <= PAGE_BYTES
    decreases |items| - n
  {
    hide Chained, ItemBytes, Used;
    if n < |items| {
      ChainGrows(level, items, previous, n);
      if Taken(level, items, previous, n) != n { TakenFits(level, items, previous, n + 1); }
    }
  }

  // ----- Fill of pages

  function MinFill(level: nat): nat { if level == 0 then 31 else BRANCH_FANOUT }

  lemma {:induction false} BytesBound(items: seq<Item>, bound: nat)
    requires forall i :: 0 <= i < |items| ==> ItemBytes(items[i]) <= bound
    ensures ItemsBytes(items) <= bound * |items|
    decreases |items|
  {
    if items != [] {
      var n := |items| - 1;
      BytesBound(items[..n], bound);
      assert bound * |items| == bound * n + bound;
    }
  }

  predicate Plain(items: seq<Item>) {
    forall i :: 0 <= i < |items| ==> items[i].lower == [] && items[i].upper != []
  }

  // A page is closed before the run ends only when it is well filled.
  lemma {:induction false} TakenFills(level: nat, items: seq<Item>, previous: Key, n: nat)
    requires n <= |items| && (level == 0 ==> Plain(items))
    ensures var m := Taken(level, items, previous, n); m < |items| ==> m >= MinFill(level)
    decreases |items| - n
  {
    var m := Taken(level, items, previous, n);
    hide Used;
    if m != n {
      TakenFills(level, items, previous, n + 1);
    } else if n < |items| && n < Capacity(level) {
      BytesBound(Chain(level, items[..n], previous), if level == 0 then 128 else 210);
    }
  }

  // A page takes items one by one while there is a slot and room, up to the last byte.
  lemma {:induction false} TakenIsGreedy(level: nat, items: seq<Item>, previous: Key, n: nat)
    requires n <= |items|
    ensures var m := Taken(level, items, previous, n);
      && (forall k :: n <= k < m ==>
            k < (if level == 0 then 48 else 16)
            && Used(level, items, previous, k) + ItemBytes(Chained(level, items, k, previous)) <= 4096)
      && (m < |items| ==>
            m >= (if level == 0 then 48 else 16)
            || Used(level, items, previous, m) + ItemBytes(Chained(level, items, m, previous)) > 4096)
    decreases |items| - n
  {
    if Taken(level, items, previous, n) != n {
      hide Used, Chained;
      TakenIsGreedy(level, items, previous, n + 1);
    }
  }

  lemma {:induction false} TreesCount(level: nat, items: seq<Item>, children: seq<Tree>, previous: Key)
    requires level > 0 ==> |children| == |items|
    requires level == 0 ==> Plain(items)
    ensures |Trees(level, items, children, previous)| <= |items|
    ensures items != [] ==> Trees(level, items, children, previous) != []
    ensures items != [] ==> MinFill(level) * (|Trees(level, items, children, previous)| - 1) + 1 <= |items|
    decreases |items|
  {
    hide Taken, Chain, Kids;
    if items != [] {
      var n := PageSize(level, items, previous);
      TakenFills(level, items, previous, 0);
      TreesCount(level, items[n..], Kids(level, children, n, |items|), items[n - 1].upper);
    }
  }

  // ----- Pages are valid

  // A run that can be packed: leaf items above lo, or items describing a forest.
  predicate Packable(level: nat, items: seq<Item>, children: seq<Tree>, lo: Key) {
    if level == 0 then children == [] && Plain(items) && Sorted(items) && Above(items, lo)
    else
      && |children| == |items| && Forest(level - 1, children, lo)
      && forall i :: 0 <= i < |items| ==> Describes(items[i], children[i])
  }

  function Content(level: nat, items: seq<Item>, children: seq<Tree>): seq<Item> {
    if level == 0 then items else FlatAll(children)
  }

  lemma {:induction false} DescribedIsSorted(level: nat, items: seq<Item>, children: seq<Tree>, lo: Key)
    requires |children| == |items| && Forest(level, children, lo)
    requires forall i :: 0 <= i < |items| ==> Describes(items[i], children[i])
    ensures Sorted(items) && Above(items, lo) && End(children, lo) == Greatest(items, lo)
    decreases |items|
  {
    hide Valid, Pow257, At;
    if items != [] {
      var x := items[0];
      assert Describes(x, children[0]);
      assert x.upper == Greatest(children[0].items, lo);
      DescribedIsSorted(level, items[1..], children[1..], x.upper);
      assert items == [x] + items[1..];
      PageIsSorted(children[0], lo);
      LastAbove(children[0].items, lo);
      ConsAbove(x, items[1..], lo);
      assert Greatest(items, lo) == Greatest(items[1..], x.upper);
    }
  }

  lemma LastAbove(items: seq<Item>, lo: Key)
    requires items != [] && Above(items, lo)
    ensures At(lo) < At(Greatest(items, lo))
  {
  }

  lemma ConsAbove(x: Item, items: seq<Item>, lo: Key)
    requires Sorted(items) && Above(items, x.upper) && At(lo) < Pos(x)
    ensures Sorted([x] + items) && Above([x] + items, lo)
  {
    hide At;
  }

  lemma PackableRun(level: nat, items: seq<Item>, children: seq<Tree>, lo: Key)
    requires Packable(level, items, children, lo)
    ensures Sorted(items) && Above(items, lo)
  {
    hide TreeDigest;
    if level > 0 { DescribedIsSorted(level - 1, items, children, lo); }
  }

  // Both parts of a cut run can be packed, and their contents add up.
  lemma PackableCut(level: nat, items: seq<Item>, children: seq<Tree>, lo: Key, n: nat)
    requires Packable(level, items, children, lo) && 0 < n <= |items|
    ensures Packable(level, items[..n], Kids(level, children, 0, n), lo)
    ensures Packable(level, items[n..], Kids(level, children, n, |items|), items[n - 1].upper)
    ensures Content(level, items, children)
            == Content(level, items[..n], Kids(level, children, 0, n)) + Content(level, items[n..], Kids(level,
                children, n, |items|))
  {
    hide At, Describes, FlatAll, Forest, Valid;
    if level == 0 {
      assert items == items[..n] + items[n..];
    } else {
      var a, b := children[0..n], children[n..|items|];
      assert children == a + b;
      ForestConcat(level - 1, a, b, lo);
      FlatConcat(a, b);
      DescribedIsSorted(level - 1, items[..n], a, lo);
    }
  }

  lemma ChainKeeps(level: nat, items: seq<Item>, lo: Key)
    ensures var page := Chain(level, items, lo);
      && (forall i :: 0 <= i < |items| ==> page[i].upper == items[i].upper && page[i].digest == items[i].digest)
      && (level > 0 ==> forall i :: 0 <= i < |items| ==> page[i].lower == Separator(page, i, lo))
      && (level == 0 ==> page == items)
  {
    hide At;
  }

  lemma SameOrder(a: seq<Item>, b: seq<Item>, lo: Key)
    requires |a| == |b| && (forall i :: 0 <= i < |a| ==> a[i].upper == b[i].upper) && Sorted(a) && Above(a, lo)
    ensures Sorted(b) && Above(b, lo) && Greatest(a, lo) == Greatest(b, lo)
  {
    hide At;
  }

  // A page of a packable run is a valid page with the run's contents.
  lemma PageIsValid(level: nat, items: seq<Item>, children: seq<Tree>, lo: Key)
    requires Packable(level, items, children, lo) && items != [] && Fits(level, Chain(level, items, lo))
    ensures var t := Tree(level, Chain(level, items, lo), children);
      Valid(t, lo) && Flat(t) == Content(level, items, children) && Greatest(t.items, lo) == Greatest(items, lo)
  {
    hide Pow257, Separator;
    var t := Tree(level, Chain(level, items, lo), children);
    PackableRun(level, items, children, lo);
    ChainKeeps(level, items, lo);
    SameOrder(items, t.items, lo);
    if level > 0 {
      forall i | 0 <= i < |items|
        ensures Describes(t.items[i], children[i])
      {
        assert Describes(items[i], children[i]);
      }
    }
  }

  lemma PageBefore(level: nat, page: Tree, rest: seq<Tree>, lo: Key)
    requires page.level == level && page.items != [] && Valid(page, lo) && Forest(level, rest, Greatest(page.items, lo))
    ensures Forest(level, [page] + rest, lo) && FlatAll([page] + rest) == Flat(page) + FlatAll(rest)
  {
    hide Valid, Flat, Greatest;
    assert ([page] + rest)[1..] == rest;
  }

  lemma NoTrees(level: nat, children: seq<Tree>, lo: Key)
    requires Packable(level, [], children, lo)
    ensures Trees(level, [], children, lo) == [] && Forest(level, [], lo)
             && FlatAll([]) == [] == Content(level, [], children)
  {
    hide Valid, Flat;
  }

  lemma FirstTree(level: nat, items: seq<Item>, children: seq<Tree>, lo: Key, n: nat)
    requires items != [] && (level > 0 ==> |children| == |items|) && n == PageSize(level, items, lo)
    ensures Trees(level, items, children, lo)
            == [Tree(level, Chain(level, items[..n], lo), Kids(level, children, 0, n))]
               + Trees(level, items[n..], Kids(level, children, n, |items|), items[n - 1].upper)
  {
    hide Taken, Chain, Kids;
  }

  lemma {:induction false} TreesAreValid(level: nat, items: seq<Item>, children: seq<Tree>, lo: Key)
    requires Packable(level, items, children, lo)
    ensures Forest(level, Trees(level, items, children, lo), lo)
    ensures FlatAll(Trees(level, items, children, lo)) == Content(level, items, children)
    decreases |items|
  {
    hide Forest, FlatAll, Trees, Valid, Flat, Content, Chain, Kids, Above, Sorted, TreeDigest;
    if items == [] {
      NoTrees(level, children, lo);
    } else {
      var n := PageSize(level, items, lo);
      PackableCut(level, items, children, lo, n);
      PageSizeFits(level, items, lo);
      PageIsValid(level, items[..n], Kids(level, children, 0, n), lo);
      var page := Tree(level, Chain(level, items[..n], lo), Kids(level, children, 0, n));
      ChainKeeps(level, items[..n], lo);
      TreesAreValid(level, items[n..], Kids(level, children, n, |items|), items[n - 1].upper);
      FirstTree(level, items, children, lo, n);
      PageBefore(level, page, Trees(level, items[n..], Kids(level, children, n, |items|), items[n - 1].upper), lo);
    }
  }

  lemma PageSizeFits(level: nat, items: seq<Item>, previous: Key)
    requires items != []
    ensures Fits(level, Chain(level, items[..PageSize(level, items, previous)], previous))
    ensures PageSize(level, items, previous) <= FANOUT
  {
    hide ItemBytes, Chained;
    assert Chain(level, items[..0], previous) == [];
    TakenFits(level, items, previous, 0);
  }
}
