// Merging a sorted batch into a stored tree: the recursive part of publishing.
module HistoryMergeNode {
  import opened Bytes
  import opened Wrappers
  import opened HistoryKeys
  import opened HistoryDigests
  import opened HistoryTree
  import opened HistoryProof
  import opened HistoryStore
  import opened HistoryMerge
  import opened HistoryPack
  import opened HistoryPages

  // New items as a batch brings them: whole, in strict order, above lo, and
  // with records that can be read back.
  ghost predicate Batch(log: seq<Object>, incoming: seq<Item>, lo: Key) {
    Plain(incoming) && Sorted(incoming) && Above(incoming, lo) && Readable(log, incoming)
        && |incoming| <= MAX_BATCH_KEYS
  }

  // A page of the directory with everything below it in the store.
  ghost predicate Rooted(log: seq<Object>, n: Node, t: Tree, lo: Key) {
    n == NodeOf(t) && Valid(t, lo) && t.level <= MAX_DEPTH && Sourced(log, t.level, t.items, t.children)
  }

  // No page becomes more pages than this: a leaf is filled by 31 items at least,
  // a branch page by 16, and ten pages each below 16 children fill ten again.
  const MAX_SPLIT: nat := 10

  // The subtree's replacement pages: placed in the store, well formed, and
  // holding exactly the union.
  ghost predicate Replaces(log: seq<Object>, items: seq<Item>, trees: seq<Tree>, t: Tree, lo: Key,
                           incoming: seq<Item>) {
    && AllPlaced(log, items, trees) && Forest(t.level, trees, lo)
    && Merge(Flat(t), incoming) == Ok(FlatAll(trees))
    && |trees| <= MAX_SPLIT
  }

  // ----- Leaves

  lemma LeafPacks(t: Tree, lo: Key, incoming: seq<Item>, log: seq<Object>, merged: seq<Item>)
    requires Rooted(log, NodeOf(t), t, lo) && t.level == 0 && Batch(log, incoming, lo)
    requires Merge(t.items, incoming) == Ok(merged)
    ensures Flat(t) == t.items && Packable(0, merged, [], lo) && Sourced(log, 0, merged, [])
    ensures Forest(0, Trees(0, merged, [], lo), lo) && FlatAll(Trees(0, merged, [], lo)) == merged
    ensures |Trees(0, merged, [], lo)| <= MAX_SPLIT
  {
    hide Merge, Flat, FlatAll, Forest, Trees, Stored, TreeDigest, ReadRecord, At;
    PageFits(t, lo);
    PageIsSorted(t, lo);
    MergeIsSorted(t.items, incoming, lo);
    MergeMembers(t.items, incoming);
    LeafIsPlain(t, lo);
    assert Readable(log, t.items);
    UnionKeeps(log, t.items, incoming, merged);
    assert Sourced(log, 0, merged, []);
    assert t.children == [];
    assert Packable(0, merged, [], lo);
    TreesAreValid(0, merged, [], lo);
    TreesCount(0, merged, [], lo);
    LeafBound(|merged|, |Trees(0, merged, [], lo)|, |t.items|, |incoming|);
  }

  lemma LeafBound(n: nat, pages: nat, items: nat, added: nat)
    requires n <= items + added && items <= FANOUT && added <= MAX_BATCH_KEYS
    requires n > 0 ==> MinFill(0) * (pages - 1) + 1 <= n
    requires n == 0 ==> pages == 0
    ensures pages <= MAX_SPLIT
  {
    assert MinFill(0) == 31;
  }

  lemma UnionKeeps(log: seq<Object>, a: seq<Item>, b: seq<Item>, merged: seq<Item>)
    requires Plain(a) && Plain(b) && Readable(log, a) && Readable(log, b)
    requires forall x :: x in merged ==> x in a || x in b
    ensures Plain(merged) && Readable(log, merged)
  {
    hide ReadRecord;
    forall i | 0 <= i < |merged|
      ensures merged[i].lower == [] && merged[i].upper != [] && ReadRecord(log, merged[i]).Ok?
    {
      assert merged[i] in merged;
    }
  }

  lemma UnionUpTo(a: seq<Item>, b: seq<Item>, merged: seq<Item>, hi: Key)
    requires UpTo(a, hi) && UpTo(b, hi)
    requires forall x :: x in merged ==> x in a || x in b
    ensures UpTo(merged, hi)
  {
    hide At;
    forall i | 0 <= i < |merged|
      ensures Pos(merged[i]) <= At(hi)
    {
      assert merged[i] in merged;
    }
  }

  lemma LeafIsPlain(t: Tree, lo: Key)
    requires Valid(t, lo) && t.level == 0
    ensures Plain(t.items)
  {
    hide Valid;
    forall i | 0 <= i < |t.items|
      ensures t.items[i].lower == [] && t.items[i].upper != []
    {
      ItemIsWellFormed(t, lo, i);
    }
  }

  method MergeLeafNode(objects: Objects, n: Node, incoming: seq<Item>, ghost t: Tree, ghost lo: Key)
      returns (r: Result<seq<Item>, HistoryError>, ghost trees: seq<Tree>)
    requires n.level == 0
    modifies objects
    ensures old(objects.log) <= objects.log && old(objects.writes) <= objects.writes
    ensures r == Err(StoreFailed) <==> objects.BrokenSince(old(objects.writes))
    ensures Rooted(old(objects.log), n, t, lo) && Batch(old(objects.log), incoming, lo) ==>
              && (r.Err? ==> r.error == StoreFailed || Merge(Flat(t), incoming) == Err(r.error))
              && (r.Ok? ==> Replaces(objects.log, r.value, trees, t, lo, incoming))
  {
    trees := [];
    ghost var honest := Rooted(objects.log, n, t, lo) && Batch(objects.log, incoming, lo);
    var merged := MergeLeaf(n.items, incoming);
    if honest {
      assert n == NodeOf(t) && Valid(t, lo);
      assert n.items == t.items && t.level == 0;
      PageFits(t, lo);
    }
    if merged.Err? { return Err(merged.error), trees; }
    if honest { LeafPacks(t, lo, incoming, objects.log, merged.value); }
    r, trees := PackNodes(objects, 0, merged.value, [], [], lo);
  }

  // ----- Branches

  // The batch from start to end is what goes below the page's item at index:
  // everything left for the last item, up to its own key for any other.
  ghost predicate Belongs(items: seq<Item>, incoming: seq<Item>, index: nat, start: nat, end: nat)
    requires index < |items|
  {
    && start <= end <= |incoming|
    && (index + 1 == |items| ==> end == |incoming|)
    && (index + 1 < |items| ==>
          && (forall k :: start <= k < end ==> Compare(incoming[k].upper, items[index].upper) != Gt)
          && (end < |incoming| ==> Compare(incoming[end].upper, items[index].upper) == Gt))
  }

  // The part of the batch that belongs to child index, from start on.
  method ChildRange(items: seq<Item>, incoming: seq<Item>, index: nat, start: nat) returns (end: nat)
    requires index < |items| && start <= |incoming|
    ensures Belongs(items, incoming, index, start, end)
  {
    if index + 1 == |items| { return |incoming|; }
    end := start;
    while end < |incoming| && Compare(incoming[end].upper, items[index].upper) != Gt
      invariant start <= end <= |incoming|
      invariant forall k :: start <= k < end ==> Compare(incoming[k].upper, items[index].upper) != Gt
    {
      end := end + 1;
    }
  }

  function Border(t: Tree, index: nat, lo: Key): Key
    requires index < |t.items|
  {
    Separator(t.items, index, lo)
  }

  // The first index children have been replaced by done, taking the first
  // start new items with them.
  ghost predicate Progress(log: seq<Object>, t: Tree, lo: Key, incoming: seq<Item>, index: nat, start: nat,
                           merged: seq<Item>, done: seq<Tree>) {
    && t.level > 0 && index <= |t.items| == |t.children| && start <= |incoming|
    && AllPlaced(log, merged, done) && Forest(t.level - 1, done, lo)
    && Merge(FlatAll(t.children[..index]), incoming[..start]) == Ok(FlatAll(done))
    && |done| <= MAX_SPLIT * index
    && (index < |t.items| ==>
          End(done, lo) == Border(t, index, lo) && UpTo(incoming[..start], Border(t, index, lo))
          && Above(incoming[start..], Border(t, index, lo)))
    && (index == |t.items| ==> start == |incoming|)
  }

  lemma ProgressStarts(log: seq<Object>, t: Tree, lo: Key, incoming: seq<Item>)
    requires Valid(t, lo) && t.level > 0 && Above(incoming, lo)
    ensures Progress(log, t, lo, incoming, 0, 0, [], [])
  {
    assert |t.items| == |t.children| > 0;
    assert t.children[..0] == [] && incoming[..0] == [] && incoming[0..] == incoming;
    assert FlatAll([]) == [] && Forest(t.level - 1, [], lo) && End([], lo) == lo;
    assert Merge([], []) == Ok([]);
  }

  // What ChildRange found, as bounds on the part it took and the rest.
  lemma RangeBounds(t: Tree, lo: Key, incoming: seq<Item>, index: nat, start: nat, end: nat)
    requires index < |t.items| && Belongs(t.items, incoming, index, start, end)
    requires Sorted(incoming) && Above(incoming[start..], Border(t, index, lo))
    ensures Sorted(incoming[start..end]) && Above(incoming[start..end], Border(t, index, lo))
    ensures index + 1 < |t.items| ==>
              UpTo(incoming[start..end], t.items[index].upper) && Above(incoming[end..], t.items[index].upper)
  {
    hide At, Border, Compare;
    if index + 1 < |t.items| {
      forall k | start <= k < end
        ensures Pos(incoming[k]) <= At(t.items[index].upper)
      {
        KeysAreOrdered(incoming[k].upper, t.items[index].upper);
      }
      if end < |incoming| { KeysAreOrdered(incoming[end].upper, t.items[index].upper); }
    }
  }

  // Merging keys no greater than the run's last key keeps that last key.
  lemma MergeKeepsEnd(a: seq<Item>, b: seq<Item>, lo: Key, hi: Key, level: nat, trees: seq<Tree>)
    requires Merge(a, b) == Ok(FlatAll(trees)) && Forest(level, trees, lo)
    requires a != [] && Greatest(a, lo) == hi && UpTo(a, hi) && UpTo(b, hi)
    ensures End(trees, lo) == hi
  {
    hide UpTo;
    ForestFlat(level, trees, lo);
    MergeMembers(a, b);
    var flat := FlatAll(trees);
    var x := a[|a| - 1];
    assert x in flat && x.upper == hi;
    UnionUpTo(a, b, flat, hi);
    assert flat != [] && Greatest(flat, lo) == flat[|flat| - 1].upper;
    LastBounds(flat, x, hi);
    KeysAreOrdered(Greatest(flat, lo), hi);
  }

  lemma LastBounds(flat: seq<Item>, x: Item, hi: Key)
    requires x in flat && x.upper == hi && UpTo(flat, hi) && Sorted(flat)
    ensures Pos(flat[|flat| - 1]) == At(hi) && At(flat[|flat| - 1].upper) == At(hi)
  {
    hide At;
  }

  // The batch up to end is split at start, and so is its union with the
  // children up to index + 1.
  lemma UnionGrows(t: Tree, lo: Key, incoming: seq<Item>, index: nat, start: nat, end: nat, mid: Key)
    requires Valid(t, lo) && t.level > 0 && index < |t.items| == |t.children| && start <= end <= |incoming|
    requires mid == Border(t, index, lo) && UpTo(incoming[..start], mid) && Above(incoming[start..end], mid)
    ensures Merge(FlatAll(t.children[..index + 1]), incoming[..end])
            == Join(Merge(FlatAll(t.children[..index]), incoming[..start]), Merge(Flat(t.children[index]),
                incoming[start..end]))
  {
    hide Valid;
    var front, child := t.children[..index], t.children[index];
    ChildFacts(t, lo, index);
    assert t.children[..index + 1] == front + [child] && incoming[..end] == incoming[..start] + incoming[start..end];
    FlatConcat(front, [child]);
    assert FlatAll([child]) == Flat(child);
    ForestFlat(t.level - 1, front, lo);
    ValidFlat(child, mid);
    MergeSplits(FlatAll(front), Flat(child), incoming[..start], incoming[start..end], mid);
  }

  lemma ChildFacts(t: Tree, lo: Key, index: nat)
    requires Valid(t, lo) && t.level > 0 && index < |t.items|
    ensures |t.items| == |t.children| && Forest(t.level - 1, t.children[..index], lo)
    ensures var child, mid := t.children[index], Border(t, index, lo);
      && End(t.children[..index], lo) == mid && t.items[index].lower == mid
      && Valid(child, mid) && child.level == t.level - 1 && child.items != []
      && Describes(t.items[index], child) && Greatest(child.items, mid) == t.items[index].upper
  {
    hide Valid;
    ChildStarts(t, lo, index);
    BranchShape(t, lo, index);
    ForestSplit(t.level - 1, t.children, index, lo);
  }

  // One more child, kept or replaced, with the items that belong to it.
  lemma ProgressStep(log: seq<Object>, t: Tree, lo: Key, incoming: seq<Item>, index: nat, start: nat, end: nat,
                     merged: seq<Item>, done: seq<Tree>, more: seq<Item>, split: seq<Tree>)
    requires Valid(t, lo) && Sorted(incoming) && index < |t.items| && Belongs(t.items, incoming, index, start, end)
    requires Progress(log, t, lo, incoming, index, start, merged, done)
    requires AllPlaced(log, more, split) && Forest(t.level - 1, split, Border(t, index, lo))
    requires Merge(Flat(t.children[index]), incoming[start..end]) == Ok(FlatAll(split))
    requires |split| <= MAX_SPLIT
    ensures Progress(log, t, lo, incoming, index + 1, end, merged + more, done + split)
  {
    hide End, FlatAll, Forest, Greatest, Merge, Valid;
    var mid, child, hi := Border(t, index, lo), t.children[index], t.items[index].upper;
    ChildFacts(t, lo, index);
    RangeBounds(t, lo, incoming, index, start, end);
    UnionGrows(t, lo, incoming, index, start, end, mid);
    assert Merge(FlatAll(t.children[..index + 1]), incoming[..end]) == Ok(FlatAll(done) + FlatAll(split));
    PlacedConcat(log, merged, done, more, split);
    ForestConcat(t.level - 1, done, split, lo);
    FlatConcat(done, split);
    EndConcat(done, split, lo);
    if index + 1 < |t.items| {
      assert Border(t, index + 1, lo) == hi;
      ValidFlat(child, mid);
      assert Flat(child) != [] by { FlatNonempty(child, mid); }
      MergeKeepsEnd(Flat(child), incoming[start..end], mid, hi, t.level - 1, split);
      BoundsOrder(t, lo, index);
      assert UpTo(incoming[..end], hi) by { UpToJoin(incoming, start, end, mid, hi); }
    }
  }

  lemma FlatNonempty(t: Tree, lo: Key)
    requires Valid(t, lo) && t.items != []
    ensures Flat(t) != []
  {
    ValidFlat(t, lo);
    assert At(lo) < At(Greatest(t.items, lo)) by { PageIsSorted(t, lo); LastAbove(t.items, lo); }
  }

  lemma BoundsOrder(t: Tree, lo: Key, index: nat)
    requires Valid(t, lo) && index < |t.items|
    ensures At(Border(t, index, lo)) <= At(t.items[index].upper)
  {
    PageIsSorted(t, lo);
    hide At, Valid;
  }

  lemma UpToJoin(incoming: seq<Item>, start: nat, end: nat, mid: Key, hi: Key)
    requires start <= end <= |incoming| && At(mid) <= At(hi)
    requires UpTo(incoming[..start], mid) && UpTo(incoming[start..end], hi)
    ensures UpTo(incoming[..end], hi)
  {
    hide At;
    forall i | 0 <= i < end
      ensures Pos(incoming[..end][i]) <= At(hi)
    {
      if i < start { assert incoming[..start][i] == incoming[i]; } else { assert incoming[start..end][i - start]
          == incoming[i]; }
    }
  }

  // A conflict in one child is a conflict of the whole batch.
  lemma ConflictSpreads(log: seq<Object>, t: Tree, lo: Key, incoming: seq<Item>, index: nat, start: nat, end: nat,
                        merged: seq<Item>, done: seq<Tree>)
    requires Valid(t, lo) && Sorted(incoming) && index < |t.items| && Belongs(t.items, incoming, index, start, end)
    requires Progress(log, t, lo, incoming, index, start, merged, done)
    requires Merge(Flat(t.children[index]), incoming[start..end]).Err?
    ensures Merge(Flat(t), incoming) == Merge(Flat(t.children[index]), incoming[start..end])
  {
    hide At, Compare, End, Flat, FlatAll, Forest, Greatest, Merge, AllPlaced, UpTo, Above, Sorted, Valid;
    ChildFacts(t, lo, index);
    RangeBounds(t, lo, incoming, index, start, end);
    UnionGrows(t, lo, incoming, index, start, end, Border(t, index, lo));
    BranchShape(t, lo, index);
    if index + 1 < |t.items| {
      LaterSplit(t, lo, incoming, index, start, end);
    } else {
      assert t.children[..index + 1] == t.children && incoming[..end] == incoming;
    }
  }

  // The children up to index and those behind it merge side by side.
  lemma LaterSplit(t: Tree, lo: Key, incoming: seq<Item>, index: nat, start: nat, end: nat)
    requires Valid(t, lo) && t.level > 0 && Sorted(incoming) && index + 1 < |t.items| == |t.children|
    requires Belongs(t.items, incoming, index, start, end)
    requires UpTo(incoming[..start], Border(t, index, lo)) && Above(incoming[start..], Border(t, index, lo))
    ensures Merge(Flat(t), incoming)
            == Join(Merge(FlatAll(t.children[..index + 1]), incoming[..end]),
                    Merge(FlatAll(t.children[index + 1..]), incoming[end..]))
  {
    hide At, Compare, End, FlatAll, Greatest, Merge, AllPlaced, UpTo, Above, Sorted, Valid, Forest;
    var ts, mid, hi := t.children, Border(t, index, lo), t.items[index].upper;
    var front, rest := ts[..index + 1], ts[index + 1..];
    ChildFacts(t, lo, index);
    RangeBounds(t, lo, incoming, index, start, end);
    assert ts == front + rest && incoming == incoming[..end] + incoming[end..];
    FlatConcat(front, rest);
    BranchShape(t, lo, index);
    ForestSplit(t.level - 1, ts, index + 1, lo);
    ForestSplit(t.level - 1, ts, index, lo);
    assert Greatest(ts[index].items, []) == hi;
    ForestFlat(t.level - 1, rest, hi);
    ChildFacts(t, lo, index + 1);
    assert Border(t, index + 1, lo) == hi;
    ForestFlat(t.level - 1, front, lo);
    BoundsOrder(t, lo, index);
    UpToJoin(incoming, start, end, mid, hi);
    MergeSplits(FlatAll(front), FlatAll(rest), incoming[..end], incoming[end..], hi);
  }

  // The child page read from the store, with its part of the batch.
  lemma ChildRooted(log: seq<Object>, t: Tree, lo: Key, incoming: seq<Item>, index: nat, start: nat, end: nat)
    requires Rooted(log, NodeOf(t), t, lo) && t.level > 0 && index < |t.items| && Batch(log, incoming, lo)
    requires start <= end <= |incoming| && Above(incoming[start..], Border(t, index, lo))
    ensures |t.children| == |t.items|
    ensures ReadNode(log, t.items[index].offset, t.items[index].digest) == Ok(NodeOf(t.children[index]))
    ensures Rooted(log, NodeOf(t.children[index]), t.children[index], Border(t, index, lo))
    ensures Batch(log, incoming[start..end], Border(t, index, lo))
  {
    hide NodeDigest, NodeOf, Pow257, Valid, WellFormed;
    var child := t.children[index];
    ChildFacts(t, lo, index);
    assert Stored(log, t.items[index].offset, child);
    assert t.items[index].digest == TreeDigest(child);
    StoredReads(log, t.items[index].offset, child, Border(t, index, lo));
    assert Sourced(log, child.level, child.items, child.children);
  }

  lemma KeepChild(log: seq<Object>, t: Tree, lo: Key, index: nat)
    requires Rooted(log, NodeOf(t), t, lo) && t.level > 0 && index < |t.items| == |t.children|
    ensures AllPlaced(log, [t.items[index]], [t.children[index]])
    ensures Forest(t.level - 1, [t.children[index]], Border(t, index, lo))
    ensures Merge(Flat(t.children[index]), []) == Ok(FlatAll([t.children[index]]))
  {
    hide Valid;
    ChildFacts(t, lo, index);
    assert Placed(log, t.items[index], t.children[index]);
    var child := t.children[index];
    assert FlatAll([child]) == Flat(child) by {
      assert [child][1..] == [] && Flat(child) + [] == Flat(child);
    }
    assert Merge(Flat(child), []) == Ok(Flat(child));
  }

  lemma BranchPacks(log: seq<Object>, t: Tree, lo: Key, incoming: seq<Item>, merged: seq<Item>, done: seq<Tree>)
    requires Valid(t, lo) && t.level > 0 && Progress(log, t, lo, incoming, |t.items|, |incoming|, merged, done)
    ensures |done| == |merged| && Sourced(log, t.level, merged, done)
    ensures Forest(t.level, Trees(t.level, merged, done, lo), lo)
    ensures Merge(Flat(t), incoming) == Ok(FlatAll(Trees(t.level, merged, done, lo)))
    ensures |Trees(t.level, merged, done, lo)| <= MAX_SPLIT
  {
    hide At, End, Forest, Flat, FlatAll, Trees, TreeDigest, Greatest, ItemsBytes, Merge, Border, UpTo, Above;
    assert |merged| == |done| && Sourced(log, t.level, merged, done) && Packable(t.level, merged, done, lo);
    TreesAreValid(t.level, merged, done, lo);
    TreesCount(t.level, merged, done, lo);
    assert t.items != [];
    BranchShape(t, lo, 0);
    assert t.children[..|t.items|] == t.children && incoming[..|incoming|] == incoming;
    assert |t.items| <= BRANCH_FANOUT;
    PageBound(|merged|, |Trees(t.level, merged, done, lo)|, |t.items|, t.level);
  }

  lemma PageBound(n: nat, pages: nat, children: nat, level: nat)
    requires n <= MAX_SPLIT * children && children <= BRANCH_FANOUT && level > 0
    requires n > 0 ==> MinFill(level) * (pages - 1) + 1 <= n
    requires n == 0 ==> pages == 0
    ensures pages <= MAX_SPLIT
  {
    assert MinFill(level) == 16;
  }

  // A child that no new item belongs to stays as it is.
  lemma ChildStays(log: seq<Object>, t: Tree, lo: Key, incoming: seq<Item>, index: nat, start: nat, merged: seq<Item>,
                   done: seq<Tree>)
    requires Rooted(log, NodeOf(t), t, lo) && Sorted(incoming) && index < |t.items|
    requires Belongs(t.items, incoming, index, start, start)
    requires Progress(log, t, lo, incoming, index, start, merged, done)
    ensures |t.items| == |t.children|
    ensures Progress(log, t, lo, incoming, index + 1, start, merged + [t.items[index]], done + [t.children[index]])
  {
    hide Valid, Merge, Flat, FlatAll, Forest, End, AllPlaced, Belongs, Border;
    KeepChild(log, t, lo, index);
    assert incoming[start..start] == [];
    ProgressStep(log, t, lo, incoming, index, start, start, merged, done, [t.items[index]], [t.children[index]]);
  }

  // A child replaced by its split: the pages fit what a page may collect.
  lemma ChildSplits(log: seq<Object>, longer: seq<Object>, t: Tree, lo: Key, incoming: seq<Item>, index: nat,
                    start: nat,
                    end: nat, merged: seq<Item>, done: seq<Tree>, split: seq<Item>, pages: seq<Tree>)
    requires Valid(t, lo) && t.level <= MAX_DEPTH && Sorted(incoming) && |incoming| <= MAX_BATCH_KEYS && log <= longer
    requires index < |t.items| && Belongs(t.items, incoming, index, start, end)
    requires Progress(log, t, lo, incoming, index, start, merged, done)
    requires Replaces(longer, split, pages, t.children[index], Border(t, index, lo), incoming[start..end])
    ensures Progress(longer, t, lo, incoming, index + 1, end, merged + split, done + pages)
    ensures |merged + split| < SPLIT_CAPACITY
  {
    hide Valid, Merge, Flat, FlatAll, Forest, End, AllPlaced, Border, Progress;
    ChildLevel(log, t, lo, incoming, index, start, merged, done);
    ProgressPersists(log, longer, t, lo, incoming, index, start, merged, done);
    ProgressStep(longer, t, lo, incoming, index, start, end, merged, done, split, pages);
    FitsSplit(longer, t, lo, incoming, index + 1, end, merged + split, done + pages);
  }

  lemma ChildLevel(log: seq<Object>, t: Tree, lo: Key, incoming: seq<Item>, index: nat, start: nat, merged: seq<Item>,
                   done: seq<Tree>)
    requires Valid(t, lo) && index < |t.items| && Progress(log, t, lo, incoming, index, start, merged, done)
    ensures t.level > 0 && |t.items| == |t.children| && t.children[index].level == t.level - 1
    ensures start <= |incoming| && Above(incoming[start..], Border(t, index, lo))
  {
    hide Valid;
    ChildFacts(t, lo, index);
  }

  // Merges a batch into the page n, level by level.
  method MergeNode(objects: Objects, n: Node, incoming: seq<Item>, ghost t: Tree, ghost lo: Key)
      returns (r: Result<seq<Item>, HistoryError>, ghost trees: seq<Tree>)
    modifies objects
    ensures old(objects.log) <= objects.log && old(objects.writes) <= objects.writes
    ensures r == Err(StoreFailed) <==> objects.BrokenSince(old(objects.writes))
    ensures Rooted(old(objects.log), n, t, lo) && Batch(old(objects.log), incoming, lo) ==>
              && (r.Err? ==> r.error == StoreFailed || Merge(Flat(t), incoming) == Err(r.error))
              && (r.Ok? ==> Replaces(objects.log, r.value, trees, t, lo, incoming))
    decreases n.level
  {
    hide Valid, Flat, Merge, Replaces, Progress, Belongs, Border, Sorted, Above, Plain, Readable, Sourced, ReadNode;
    if n.level == 0 {
      r, trees := MergeLeafNode(objects, n, incoming, t, lo);
      return;
    }
    ghost var first, honest := objects.log, Rooted(objects.log, n, t, lo) && Batch(objects.log, incoming, lo);
    var merged, start := [], 0;
    ghost var done: seq<Tree> := [];
    trees := [];
    if honest { ProgressStarts(first, t, lo, incoming); }
    for index := 0 to |n.items|
      invariant first <= objects.log && start <= |incoming|
      invariant old(objects.writes) <= objects.writes && !objects.BrokenSince(old(objects.writes))
      invariant honest ==> Progress(objects.log, t, lo, incoming, index, start, merged, done)
    {
      var child := n.items[index];
      var end := ChildRange(n.items, incoming, index, start);
      RangeIsOrdered(n.items, incoming, index, start, end);
      ghost var before := objects.log;
      if honest {
        RootedPersists(first, before, n, t, lo, incoming);
        ChildLevel(before, t, lo, incoming, index, start, merged, done);
      }
      if start == end {
        if honest {
          ChildStays(before, t, lo, incoming, index, start, merged, done);
          done := done + [t.children[index]];
        }
        merged := merged + [child];
      } else {
        if honest { ChildRooted(before, t, lo, incoming, index, start, end); }
        var read := ReadNode(objects.log, child.offset, child.digest);
        if read.Err? { return Err(read.error), trees; }
        var childNode := read.value;
        if childNode.level + 1 != n.level { return Err(InvalidHistoryPage), trees; }
        ghost var below, sep := if honest then t.children[index] else t, if honest then Border(t, index, lo) else lo;
        var split, pages := MergeNode(objects, childNode, incoming[start..end], below, sep);
        if split.Err? {
          if honest && split.error != StoreFailed {
            ConflictSpreads(before, t, lo, incoming, index, start, end, merged, done);
          }
          return Err(split.error), trees;
        }
        if honest {
          ChildSplits(before, objects.log, t, lo, incoming, index, start, end, merged, done, split.value, pages);
          done := done + pages;
        }
        if |merged| + |split.value| > SPLIT_CAPACITY { return Err(HistoryBatchTooLarge), trees; }
        merged := merged + split.value;
      }
      start := end;
    }
    if honest {
      AllTaken(objects.log, t, lo, incoming, start, merged, done);
      BranchPacks(objects.log, t, lo, incoming, merged, done);
      FirstSeparator(t, lo);
    }
    ghost var kids := if honest then done else seq(|merged|, i => t);
    r, trees := PackNodes(objects, n.level, merged, FirstLower(n), kids, FirstLower(n));
    if honest && r.Ok? { PackedReplaces(objects.log, r.value, trees, t, lo, incoming); }
  }

  lemma RangeIsOrdered(items: seq<Item>, incoming: seq<Item>, index: nat, start: nat, end: nat)
    requires index < |items| && Belongs(items, incoming, index, start, end)
    ensures start <= end <= |incoming|
  {
  }

  lemma AllTaken(log: seq<Object>, t: Tree, lo: Key, incoming: seq<Item>, start: nat, merged: seq<Item>,
                 done: seq<Tree>)
    requires Progress(log, t, lo, incoming, |t.items|, start, merged, done)
    ensures start == |incoming|
  {
  }

  lemma PackedReplaces(log: seq<Object>, items: seq<Item>, trees: seq<Tree>, t: Tree, lo: Key, incoming: seq<Item>)
    requires AllPlaced(log, items, trees) && Forest(t.level, trees, lo)
    requires Merge(Flat(t), incoming) == Ok(FlatAll(trees)) && |trees| <= MAX_SPLIT
    ensures Replaces(log, items, trees, t, lo, incoming)
  {
  }

  // The separator below a branch page's first item.
  function FirstLower(n: Node): Key {
    if n.items == [] then [] else n.items[0].lower
  }

  lemma FirstSeparator(t: Tree, lo: Key)
    requires Valid(t, lo) && t.level > 0
    ensures FirstLower(NodeOf(t)) == lo
  {
    assert t.items != [];
    BranchShape(t, lo, 0);
  }

  lemma RootedPersists(log: seq<Object>, longer: seq<Object>, n: Node, t: Tree, lo: Key, incoming: seq<Item>)
    requires Rooted(log, n, t, lo) && Batch(log, incoming, lo) && log <= longer
    ensures Rooted(longer, n, t, lo) && Batch(longer, incoming, lo)
  {
    SourcedPersists(log, longer, t.level, t.items, t.children);
    assert Readable(longer, incoming);
  }

  lemma ProgressPersists(log: seq<Object>, longer: seq<Object>, t: Tree, lo: Key, incoming: seq<Item>, index: nat,
                         start: nat,
                         merged: seq<Item>, done: seq<Tree>)
    requires Progress(log, t, lo, incoming, index, start, merged, done) && log <= longer
    ensures Progress(longer, t, lo, incoming, index, start, merged, done)
  {
    PlacedPersists(log, longer, merged, done);
  }

  // Replacing all children of a page leaves fewer items than a split can hold.
  lemma FitsSplit(log: seq<Object>, t: Tree, lo: Key, incoming: seq<Item>, index: nat, start: nat, merged: seq<Item>,
                  done: seq<Tree>)
    requires Progress(log, t, lo, incoming, index, start, merged, done)
    requires Valid(t, lo)
    ensures |merged| < SPLIT_CAPACITY
  {
    hide Forest, Merge, Flat, FlatAll, End, UpTo, Above, Border, Placed, Describes, ItemsBytes;
    assert |merged| == |done|;
    assert |t.items| <= BRANCH_FANOUT;
  }
}
