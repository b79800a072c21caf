// Pages of the order-history directory and the fixed-depth hash tree over
// their items. A hash is a free constructor: two hashes are equal exactly when
// their inputs are.
module HistoryDigests {
  import opened Bytes
  import opened Wrappers
  import opened HistoryKeys

  const FANOUT: nat := 48
  const DEPTH: nat := 6
  const SLOTS: nat := 64

  datatype Item = Item(lower: Key, upper: Key, digest: Digest, offset: nat, length: nat)

  datatype Digest =
    | Zero
    | RecordHash(bytes: seq<byte>)
    | EmptySlotHash
    | ItemHash(item: Item)
    | PairHash(left: Digest, right: Digest)
    | PageHash(level: nat, count: nat, merkle: Digest)
    | RootHash(version: u16, origin: Origin, generation: u64, barrier: u64, epoch: u64, floor: u64, retired: bool,
               treeOffset: nat, treeDigest: Digest, previousRoot: Digest, batchDigest: Digest,
               qualificationDigest: Digest)
    | BatchHash(batchOrigin: Origin, previous: Digest, batchBarrier: u64, batchEpoch: u64, batchFloor: u64,
                batchRetired: bool, qualification: Digest, records: seq<(nat, Digest)>, entries: seq<(Key, nat)>)

  datatype Node = Node(level: nat, items: seq<Item>)

  // ----- The hash tree

  function Halve(s: seq<Digest>): (h: seq<Digest>)
    requires |s| % 2 == 0
    ensures |h| == |s| / 2
  {
    seq(|s| / 2, i requires 0 <= i < |s| / 2 => PairHash(s[2 * i], s[2 * i + 1]))
  }

  function Merkle(s: seq<Digest>, depth: nat): Digest
    requires |s| == Pow2(depth)
    decreases depth
  {
    if depth == 0 then s[0] else Merkle(Halve(s), depth - 1)
  }

  function Partner(index: nat): nat {
    if index % 2 == 0 then index + 1 else index - 1
  }

  function Siblings(s: seq<Digest>, index: nat, depth: nat): (r: seq<Digest>)
    requires |s| == Pow2(depth) && index < |s|
    ensures |r| == depth
    decreases depth
  {
    if depth == 0 then [] else [s[Partner(index)]] + Siblings(Halve(s), index / 2, depth - 1)
  }

  function Climb(d: Digest, index: nat, siblings: seq<Digest>): Digest
    decreases |siblings|
  {
    if siblings == [] then d
    else Climb(if index % 2 == 0 then PairHash(d, siblings[0]) else PairHash(siblings[0], d), index / 2, siblings[1..])
  }

  lemma {:induction false} ClimbReaches(s: seq<Digest>, index: nat, depth: nat)
    requires |s| == Pow2(depth) && index < |s|
    ensures Climb(s[index], index, Siblings(s, index, depth)) == Merkle(s, depth)
    decreases depth
  {
    if depth > 0 { ClimbReaches(Halve(s), index / 2, depth - 1); }
  }

  // A climb that ends at the tree's root started at the leaf of that slot and
  // used exactly its siblings.
  lemma {:induction false} ClimbIsSound(s: seq<Digest>, d: Digest, index: nat, siblings: seq<Digest>)
    requires |s| == Pow2(|siblings|) && index < |s|
    requires Climb(d, index, siblings) == Merkle(s, |siblings|)
    ensures d == s[index] && siblings == Siblings(s, index, |siblings|)
    decreases |siblings|
  {
    if siblings != [] {
      var up := if index % 2 == 0 then PairHash(d, siblings[0]) else PairHash(siblings[0], d);
      ClimbIsSound(Halve(s), up, index / 2, siblings[1..]);
      assert Halve(s)[index / 2] == PairHash(s[2 * (index / 2)], s[2 * (index / 2) + 1]);
      assert siblings == [siblings[0]] + siblings[1..];
    }
  }

  lemma {:induction false} MerkleInjective(s: seq<Digest>, t: seq<Digest>, depth: nat)
    requires |s| == |t| == Pow2(depth) && Merkle(s, depth) == Merkle(t, depth)
    ensures s == t
    decreases depth
  {
    if depth == 0 {
      assert s == [s[0]] && t == [t[0]];
    } else {
      MerkleInjective(Halve(s), Halve(t), depth - 1);
      forall i | 0 <= i < |s|
        ensures s[i] == t[i]
      {
        assert Halve(s)[i / 2] == Halve(t)[i / 2];
      }
    }
  }

  // ----- Page digests

  function Leaves(items: seq<Item>): (s: seq<Digest>)
    requires |items| <= SLOTS
    ensures |s| == Pow2(DEPTH)
  {
    Slots();
    seq(SLOTS, i requires 0 <= i < SLOTS => if i < |items| then ItemHash(items[i]) else EmptySlotHash)
  }

  lemma Slots()
    ensures Pow2(DEPTH) == SLOTS
  {
    assert Pow2(3) == 8;
  }

  function NodeDigest(n: Node): Digest
    requires |n.items| <= FANOUT
  {
    PageHash(n.level, |n.items|, Merkle(Leaves(n.items), DEPTH))
  }

  lemma NodeDigestInjective(a: Node, b: Node)
    requires |a.items| <= FANOUT && |b.items| <= FANOUT
    requires NodeDigest(a) == NodeDigest(b)
    ensures a == b
  {
    MerkleInjective(Leaves(a.items), Leaves(b.items), DEPTH);
    forall i | 0 <= i < |a.items|
      ensures a.items[i] == b.items[i]
    {
      assert Leaves(a.items)[i] == Leaves(b.items)[i];
    }
  }

  // One level of the tree, folded into the front half of the array.
  method HalveInPlace(leaves: array<Digest>, count: nat)
    requires count % 2 == 0 && count <= leaves.Length
    modifies leaves
    ensures leaves[..count / 2] == Halve(old(leaves[..count]))
  {
    for i := 0 to count / 2
      invariant forall k :: 0 <= k < i ==> leaves[k] == PairHash(old(leaves[2 * k]), old(leaves[2 * k + 1]))
      invariant forall k :: i <= k < leaves.Length ==> leaves[k] == old(leaves[k])
    {
      leaves[i] := PairHash(leaves[2 * i], leaves[2 * i + 1]);
    }
  }

  method LeafHashes(n: Node) returns (leaves: array<Digest>)
    requires |n.items| <= FANOUT
    ensures fresh(leaves) && leaves.Length == SLOTS && leaves[..] == Leaves(n.items)
  {
    leaves := new Digest[SLOTS](_ => EmptySlotHash);
    for i := 0 to |n.items|
      invariant forall k :: 0 <= k < SLOTS ==> leaves[k] == if k < i then ItemHash(n.items[k]) else EmptySlotHash
    {
      leaves[i] := ItemHash(n.items[i]);
    }
  }

  method DigestOf(n: Node) returns (d: Digest)
    requires |n.items| <= FANOUT
    ensures d == NodeDigest(n)
  {
    var leaves := LeafHashes(n);
    var count := SLOTS;
    Slots();
    ghost var depth := DEPTH;
    assert leaves[..count] == leaves[..];
    while count > 1
      invariant count == Pow2(depth) && count <= leaves.Length && fresh(leaves)
      invariant Merkle(leaves[..count], depth) == Merkle(Leaves(n.items), DEPTH)
      decreases count
    {
      HalveInPlace(leaves, count);
      count := count / 2;
      depth := depth - 1;
    }
    return PageHash(n.level, |n.items|, leaves[0]);
  }

  // ----- Witnesses

  type Path = s: seq<Digest> | |s| == DEPTH witness [Zero, Zero, Zero, Zero, Zero, Zero]

  datatype Witness = Witness(level: u8, count: u8, slot: u8, item: Item, siblings: Path)

  function WitnessFor(n: Node, slot: nat): Witness
    requires slot < |n.items| <= FANOUT && n.level < 256
  {
    Slots();
    Witness(n.level, |n.items|, slot, n.items[slot], Siblings(Leaves(n.items), slot, DEPTH))
  }

  lemma SiblingsUnfold(front: seq<Digest>, s: seq<Digest>, index: nat, depth: nat)
    requires depth > 0 && |s| == Pow2(depth) && index < |s|
    ensures (front + [s[Partner(index)]]) + Siblings(Halve(s), index / 2, depth - 1) == front + Siblings(s, index,
        depth)
  {
  }

  method BuildWitness(n: Node, slot: nat) returns (w: Witness)
    requires slot < |n.items| <= FANOUT && n.level < 256
    ensures w == WitnessFor(n, slot)
  {
    hide Siblings, Halve, Leaves, Merkle;
    var leaves := LeafHashes(n);
    var index: nat, count: nat := slot, SLOTS;
    var siblings := [];
    Slots();
    ghost var left: nat := DEPTH;
    assert leaves[..count] == leaves[..];
    for depth := 0 to DEPTH
      invariant left == DEPTH - depth && |siblings| == depth
      invariant count == Pow2(left) && count <= leaves.Length && index < count && fresh(leaves)
      invariant siblings + Siblings(leaves[..count], index, left) == Siblings(Leaves(n.items), slot, DEPTH)
    {
      SiblingsUnfold(siblings, leaves[..count], index, left);
      siblings := siblings + [leaves[Partner(index)]];
      HalveInPlace(leaves, count);
      index, count, left := index / 2, count / 2, left - 1;
    }
    assert siblings == Siblings(Leaves(n.items), slot, DEPTH) by {
      assert Siblings(leaves[..count], index, left) == [];
    }
    return Witness(n.level, |n.items|, slot, n.items[slot], siblings);
  }

  function WitnessRoot(w: Witness): Result<Digest, HistoryError> {
    if w.count == 0 || w.count > FANOUT || w.slot >= w.count || w.item.upper == [] then Err(InvalidHistoryProof)
    else Ok(PageHash(w.level, w.count, Climb(ItemHash(w.item), w.slot, w.siblings)))
  }

  method ComputeWitnessRoot(w: Witness) returns (r: Result<Digest, HistoryError>)
    ensures r == WitnessRoot(w)
  {
    if w.count == 0 || w.count > FANOUT || w.slot >= w.count || w.item.upper == [] {
      return Err(InvalidHistoryProof);
    }
    var digest, index: nat := ItemHash(w.item), w.slot;
    for i := 0 to |w.siblings|
      invariant Climb(digest, index, w.siblings[i..]) == Climb(ItemHash(w.item), w.slot, w.siblings)
    {
      digest := if index % 2 == 0 then PairHash(digest, w.siblings[i]) else PairHash(w.siblings[i], digest);
      index := index / 2;
    }
    return Ok(PageHash(w.level, w.count, digest));
  }

  lemma WitnessIsSound(n: Node, w: Witness)
    requires |n.items| <= FANOUT && WitnessRoot(w) == Ok(NodeDigest(n))
    ensures w.slot < |n.items| && w.level == n.level && w == WitnessFor(n, w.slot)
  {
    Slots();
    ClimbIsSound(Leaves(n.items), ItemHash(w.item), w.slot, w.siblings);
    assert Leaves(n.items)[w.slot] == ItemHash(n.items[w.slot]);
  }

  lemma WitnessIsComplete(n: Node, slot: nat)
    requires slot < |n.items| <= FANOUT && n.level < 256 && n.items[slot].upper != []
    ensures WitnessRoot(WitnessFor(n, slot)) == Ok(NodeDigest(n))
  {
    Slots();
    ClimbReaches(Leaves(n.items), slot, DEPTH);
    assert Leaves(n.items)[slot] == ItemHash(n.items[slot]);
  }
}
