// Writing runs of items as pages of the store.
module HistoryPages {
  import opened Bytes
  import opened Wrappers
  import opened HistoryKeys
  import opened HistoryDigests
  import opened HistoryTree
  import opened HistoryProof
  import opened HistoryStore
  import opened HistoryPack

  // ----- Runs whose subtrees or records are stored

  ghost predicate Readable(log: seq<Object>, items: seq<Item>) {
    forall i :: 0 <= i < |items| ==> ReadRecord(log, items[i]).Ok?
  }

  ghost predicate Sourced(log: seq<Object>, level: nat, items: seq<Item>, children: seq<Tree>) {
    if level == 0 then Readable(log, items)
    else |children| == |items| && forall i :: 0 <= i < |items| ==> Stored(log, items[i].offset, children[i])
  }

  ghost predicate Placed(log: seq<Object>, x: Item, t: Tree) {
    Describes(x, t) && Stored(log, x.offset, t)
  }

  ghost predicate AllPlaced(log: seq<Object>, items: seq<Item>, ts: seq<Tree>) {
    |items| == |ts| && forall i :: 0 <= i < |items| ==> Placed(log, items[i], ts[i])
  }

  lemma Extends(log: seq<Object>, longer: seq<Object>)
    requires log <= longer
    ensures longer == log + longer[|log|..]
  {
  }

  lemma SourcedPersists(log: seq<Object>, longer: seq<Object>, level: nat, items: seq<Item>, children: seq<Tree>)
    requires Sourced(log, level, items, children) && log <= longer
    ensures Sourced(longer, level, items, children)
  {
    Extends(log, longer);
    if level > 0 {
      forall i | 0 <= i < |items|
        ensures Stored(longer, items[i].offset, children[i])
      {
        StoredPersists(log, longer[|log|..], items[i].offset, children[i]);
      }
    }
  }

  lemma PlacedPersists(log: seq<Object>, longer: seq<Object>, items: seq<Item>, ts: seq<Tree>)
    requires AllPlaced(log, items, ts) && log <= longer
    ensures AllPlaced(longer, items, ts)
  {
    hide Describes, Stored;
    Extends(log, longer);
    forall i | 0 <= i < |items|
      ensures Placed(longer, items[i], ts[i])
    {
      assert Placed(log, items[i], ts[i]);
      StoredPersists(log, longer[|log|..], items[i].offset, ts[i]);
    }
  }

  lemma PlacedConcat(log: seq<Object>, a: seq<Item>, s: seq<Tree>, b: seq<Item>, t: seq<Tree>)
    requires AllPlaced(log, a, s) && AllPlaced(log, b, t)
    ensures AllPlaced(log, a + b, s + t)
  {
    hide Placed;
  }

  lemma SourcedCut(log: seq<Object>, level: nat, items: seq<Item>, children: seq<Tree>, n: nat)
    requires Sourced(log, level, items, children) && n <= |items|
    ensures Sourced(log, level, items[..n], Kids(level, children, 0, n))
    ensures Sourced(log, level, items[n..], Kids(level, children, n, |items|))
  {
    hide Stored, ReadRecord;
  }

  // ----- One page

  method FillPage(level: nat, run: seq<Item>, previous: Key) returns (page: seq<Item>)
    requires run != []
    ensures page == Chain(level, run[..PageSize(level, run, previous)], previous)
  {
    hide ItemBytes;
    page := [];
    var last, encoded, n := previous, HEADER_BYTES, 0;
    assert run[..0] == [] && Chain(level, [], previous) == [];
    assert ItemsBytes([]) == 0;
    while n < |run| && |page| < Capacity(level)
      invariant n <= |run| && page == Chain(level, run[..n], previous) && |page| == n
      invariant encoded == Used(level, run, previous, n)
      invariant last == if n == 0 then previous else run[n - 1].upper
      invariant Taken(level, run, previous, 0) == Taken(level, run, previous, n)
    {
      var x := if level == 0 then run[n] else run[n].(lower := last);
      assert x == Chained(level, run, n, previous);
      if ItemBytes(x) > PAGE_BYTES - encoded { break; }
      ChainGrows(level, run, previous, n);
      page, encoded, last, n := page + [x], encoded + ItemBytes(x), run[n].upper, n + 1;
    }
    assert n == Taken(level, run, previous, n);
  }

  method WriteNode(objects: Objects, n: Node) returns (r: Result<Item, HistoryError>)
    requires |n.items| <= FANOUT
    modifies objects
    ensures objects.writes == old(objects.writes) + 1
    ensures r == Err(StoreFailed) <==> !objects.works(old(objects.writes))
    ensures r.Err? ==> r.error == StoreFailed && objects.log == old(objects.log)
    ensures r.Ok? ==>
              && objects.log == old(objects.log) + [PageObject(n)]
              && r.value == Item([], Greatest(n.items, []), NodeDigest(n), |old(objects.log)|, PAGE_BYTES)
  {
    hide NodeDigest;
    var digest := DigestOf(n);
    var offset :- objects.Write(PageObject(n));
    return Ok(Item([], if n.items == [] then [] else n.items[|n.items| - 1].upper, digest, offset, PAGE_BYTES));
  }

  // A page just written is placed, once what it refers to is stored.
  lemma PageIsPlaced(log: seq<Object>, level: nat, run: seq<Item>, children: seq<Tree>, lo: Key, x: Item)
    requires run != [] && |run| <= FANOUT
    requires var t := Tree(level, Chain(level, run, lo), children);
      x == Item([], Greatest(t.items, []), NodeDigest(NodeOf(t)), |log|, PAGE_BYTES)
    requires Sourced(log, level, run, children)
    ensures var t := Tree(level, Chain(level, run, lo), children); Placed(log + [PageObject(NodeOf(t))], x, t)
  {
    hide NodeDigest;
    var t := Tree(level, Chain(level, run, lo), children);
    var longer := log + [PageObject(NodeOf(t))];
    SourcedPersists(log, longer, level, run, children);
    assert TreeDigest(t) == NodeDigest(NodeOf(t));
    assert Describes(x, t);
    assert Stored(longer, |log|, t) by {
      assert forall i :: 0 <= i < |run| ==> t.items[i].offset == run[i].offset && t.items[i].digest == run[i].digest
                                            && t.items[i].length == run[i].length;
    }
  }

  // ----- A whole run

  // The page cut at an offset of a run, and the pages cut from there on.
  function NextSize(level: nat, items: seq<Item>, offset: nat, last: Key): (n: nat)
    requires offset < |items|
    ensures 0 < n <= |items| - offset
  {
    PageSize(level, items[offset..], last)
  }

  function NextTree(level: nat, items: seq<Item>, children: seq<Tree>, offset: nat, last: Key): Tree
    requires offset < |items| && (level > 0 ==> |children| == |items|)
  {
    var run, n := items[offset..], NextSize(level, items, offset, last);
    Tree(level, Chain(level, run[..n], last), Kids(level, Kids(level, children, offset, |items|), 0, n))
  }

  function Rest(level: nat, items: seq<Item>, children: seq<Tree>, offset: nat, last: Key): seq<Tree>
    requires offset <= |items| && (level > 0 ==> |children| == |items|)
  {
    Trees(level, items[offset..], Kids(level, children, offset, |items|), last)
  }

  lemma RestUnfolds(level: nat, items: seq<Item>, children: seq<Tree>, offset: nat, last: Key)
    requires offset < |items| && (level > 0 ==> |children| == |items|)
    ensures var n := NextSize(level, items, offset, last);
      Rest(level, items, children, offset, last)
      == [NextTree(level, items, children, offset, last)] + Rest(level, items, children, offset + n,
          items[offset + n - 1].upper)
  {
    hide Trees;
    var run, kids, n := items[offset..], Kids(level, children, offset, |items|), NextSize(level, items, offset, last);
    TreesStep(level, run, kids, last);
    assert run[n..] == items[offset + n..];
    KidsAgain(level, children, offset, n, |items|);
  }

  lemma TreesStep(level: nat, run: seq<Item>, kids: seq<Tree>, last: Key)
    requires run != [] && (level > 0 ==> |kids| == |run|)
    ensures var n := PageSize(level, run, last);
      Trees(level, run, kids, last) == [Tree(level, Chain(level, run[..n], last), Kids(level, kids, 0, n))]
                                       + Trees(level, run[n..], Kids(level, kids, n, |run|), run[n - 1].upper)
  {
    hide PageSize, Chain, Kids;
  }

  lemma KidsAgain(level: nat, children: seq<Tree>, offset: nat, n: nat, end: nat)
    requires offset + n <= end && (level > 0 ==> end <= |children|)
    ensures Kids(level, Kids(level, children, offset, end), n, end - offset) == Kids(level, children, offset + n, end)
  {
  }

  lemma RestBounds(level: nat, items: seq<Item>, children: seq<Tree>, last: Key)
    requires if level == 0 then children == [] else |children| == |items|
    ensures Rest(level, items, children, 0, last) == Trees(level, items, children, last)
    ensures Rest(level, items, children, |items|, last) == []
  {
    hide PageSize, Chain;
    assert items[0..] == items && Kids(level, children, 0, |items|) == children;
  }

  // The page cut at some offset of a stored run joins the pages before it.
  lemma PageJoins(start: seq<Object>, before: seq<Object>, level: nat, items: seq<Item>, children: seq<Tree>,
                  offset: nat,
                  last: Key, x: Item, result: seq<Item>, trees: seq<Tree>)
    requires level > 0 ==> |children| == |items|
    requires Sourced(start, level, items, children) && start <= before && offset < |items|
    requires AllPlaced(before, result, trees)
    requires var t := NextTree(level, items, children, offset, last);
      |t.items| <= FANOUT && x == Item([], Greatest(t.items, []), NodeDigest(NodeOf(t)), |before|, PAGE_BYTES)
    ensures var t := NextTree(level, items, children, offset, last);
      AllPlaced(before + [PageObject(NodeOf(t))], result + [x], trees + [t])
  {
    hide Readable, Sourced, Stored;
    var run, kids, n := items[offset..], Kids(level, children, offset, |items|), NextSize(level, items, offset, last);
    var t := NextTree(level, items, children, offset, last);
    var longer := before + [PageObject(NodeOf(t))];
    SourcedPersists(start, before, level, items, children);
    SourcedCut(before, level, items, children, offset);
    SourcedCut(before, level, run, kids, n);
    PageIsPlaced(before, level, run[..n], Kids(level, kids, 0, n), last, x);
    PlacedPersists(before, longer, result, trees);
    assert AllPlaced(longer, [x], [t]);
    PlacedConcat(longer, result, trees, [x], [t]);
  }

  // The page the loop fills is the next page of the run.
  lemma PageIsNext(level: nat, items: seq<Item>, children: seq<Tree>, offset: nat, previous: Key, last: Key,
                   page: seq<Item>)
    requires offset < |items| && (level > 0 ==> |children| == |items| && previous == last)
    requires page == Chain(level, items[offset..][..PageSize(level, items[offset..], previous)], previous)
    ensures NodeOf(NextTree(level, items, children, offset, last)) == Node(level, page)
    ensures |page| == NextSize(level, items, offset, last) <= FANOUT
    ensures page[|page| - 1].upper == items[offset + |page| - 1].upper
  {
    var run := items[offset..];
    SamePage(level, run, previous, last);
    PageSizeFits(level, run, last);
    assert page[|page| - 1].upper == items[offset + |page| - 1].upper;
  }

  // Every item has at most two keys of bounded length, so the next item always
  // fits an empty page: the HistoryPageFull of business_history.zig never arises here.
  method PackNodes(objects: Objects, level: nat, items: seq<Item>, lower: Key, ghost children: seq<Tree>, ghost lo: Key)
      returns (r: Result<seq<Item>, HistoryError>, ghost trees: seq<Tree>)
    requires if level == 0 then children == [] else lo == lower && |children| == |items|
    modifies objects
    ensures old(objects.log) <= objects.log && old(objects.writes) <= objects.writes
    ensures r == Err(StoreFailed) <==> objects.BrokenSince(old(objects.writes))
    ensures r.Err? ==> r.error == StoreFailed
    ensures r.Ok? ==> trees == Trees(level, items, children, lo) && |r.value| == |trees|
    ensures r.Ok? && Sourced(old(objects.log), level, items, children) ==> AllPlaced(objects.log, r.value, trees)
  {
    hide Chain, NodeDigest, PageSize, Trees;
    var result, offset, previous := [], 0, lower;
    ghost var start, sourced, last := objects.log, Sourced(objects.log, level, items, children), lo;
    trees := [];
    RestBounds(level, items, children, lo);
    assert AllPlaced(objects.log, [], []);
    while offset < |items|
      invariant offset <= |items| && start <= objects.log
      invariant old(objects.writes) <= objects.writes && !objects.BrokenSince(old(objects.writes))
      invariant level > 0 ==> last == previous
      invariant Trees(level, items, children, lo) == trees + Rest(level, items, children, offset, last)
      invariant |result| == |trees|
      invariant sourced ==> AllPlaced(objects.log, result, trees)
    {
      var page := FillPage(level, items[offset..], previous);
      PageIsNext(level, items, children, offset, previous, last, page);
      ghost var t, before := NextTree(level, items, children, offset, last), objects.log;
      assert t.items == page;
      var written := WriteNode(objects, Node(level, page));
      if written.Err? { return Err(written.error), trees; }
      if sourced { PageJoins(start, before, level, items, children, offset, last, written.value, result, trees); }
      RestUnfolds(level, items, children, offset, last);
      result, trees := result + [written.value], trees + [t];
      offset := offset + |page|;
      previous, last := page[|page| - 1].upper, items[offset - 1].upper;
    }
    RestBounds(level, items, children, last);
    return Ok(result), trees;
  }

  // At leaf level the previous key does not matter.
  lemma SamePage(level: nat, run: seq<Item>, previous: Key, last: Key)
    requires run != [] && (level > 0 ==> previous == last)
    ensures PageSize(level, run, previous) == PageSize(level, run, last)
    ensures forall n :: 0 <= n <= |run| ==> Chain(level, run[..n], previous) == Chain(level, run[..n], last)
  {
    if level == 0 {
      assert forall n :: 0 <= n <= |run| ==>
          Chain(level, run[..n], previous) == run[..n] == Chain(level, run[..n], last);
      SameTaken(run, previous, last, 0);
    }
  }

  lemma {:induction false} SameTaken(run: seq<Item>, previous: Key, last: Key, n: nat)
    requires n <= |run|
    ensures Taken(0, run, previous, n) == Taken(0, run, last, n)
    decreases |run| - n
  {
    assert Chain(0, run[..n], previous) == run[..n] == Chain(0, run[..n], last);
    if n < |run| { SameTaken(run, previous, last, n + 1); }
  }
}
