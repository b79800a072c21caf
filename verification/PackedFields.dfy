// Fixed layouts of little-endian fields: packing them, and reading them back at
// their offsets.
module PackedFields {
  import opened Bytes

  // Little-endian fields of given values and widths, end to end.
  function PackFields(fields: seq<(nat, nat)>): seq<byte> {
    if fields == [] then []
    else PackFields(fields[..|fields| - 1]) + Little(fields[|fields| - 1].0, fields[|fields| - 1].1)
  }

  function Offset(fields: seq<(nat, nat)>, k: nat): nat
    requires k <= |fields|
  {
    if k == 0 then 0 else Offset(fields, k - 1) + fields[k - 1].1
  }

  lemma {:induction false} OffsetPrefix(fields: seq<(nat, nat)>, n: nat, k: nat)
    requires k <= n <= |fields|
    ensures Offset(fields[..n], k) == Offset(fields, k) <= Offset(fields, n)
    decreases n + k
  {
    if k > 0 { OffsetPrefix(fields, n, k - 1); }
    if k < n { OffsetPrefix(fields, n - 1, k); }
  }

  lemma {:induction false} PackLength(fields: seq<(nat, nat)>)
    ensures |PackFields(fields)| == Offset(fields, |fields|)
    decreases |fields|
  {
    if fields != [] {
      var n := |fields| - 1;
      PackLength(fields[..n]);
      OffsetPrefix(fields, n, n);
    }
  }

  ghost predicate Reads(bytes: seq<byte>, fields: seq<(nat, nat)>, k: nat)
    requires k < |fields|
  {
    Offset(fields, k) + fields[k].1 <= |bytes| && Get(bytes, Offset(fields, k), fields[k].1) == fields[k].0
  }

  // A packed field reads back at its offset.
  lemma {:induction false} PackedReads(fields: seq<(nat, nat)>, k: nat)
    requires k < |fields| && forall i :: 0 <= i < |fields| ==> fields[i].0 < Pow256(fields[i].1)
    ensures Reads(PackFields(fields), fields, k)
    decreases |fields|
  {
    hide Little, FromLittle, Pow256;
    var n := |fields| - 1;
    var front, last := fields[..n], fields[n];
    PackLength(front);
    OffsetPrefix(fields, n, n);
    assert PackFields(fields) == PackFields(front) + Little(last.0, last.1);
    if k == n {
      LittleRoundTrip(last.0, last.1);
      assert PackFields(fields)[Offset(fields, n)..Offset(fields, n) + last.1] == Little(last.0, last.1);
    } else {
      PackedReads(front, k);
      OffsetPrefix(fields, n, k);
      var at := Offset(fields, k);
      assert PackFields(fields)[at..at + fields[k].1] == PackFields(front)[at..at + fields[k].1];
    }
  }

  lemma ReadsPrefix(bytes: seq<byte>, fields: seq<(nat, nat)>, n: nat, k: nat)
    requires k < n <= |fields| && Offset(fields, n) <= |bytes| && Reads(bytes, fields, k)
    ensures Reads(bytes[..Offset(fields, n)], fields[..n], k)
  {
    hide FromLittle;
    OffsetPrefix(fields, n, k);
    OffsetPrefix(fields, n, k + 1);
    var at, o, w := Offset(fields, n), Offset(fields, k), fields[k].1;
    assert Offset(fields, k + 1) == o + w;
    assert bytes[..at][o..o + w] == bytes[o..o + w];
  }

  // Bytes whose every field reads as given are the packed fields.
  lemma {:induction false} ReadsArePacked(bytes: seq<byte>, fields: seq<(nat, nat)>)
    requires |bytes| == Offset(fields, |fields|)
    requires forall k :: 0 <= k < |fields| ==> Reads(bytes, fields, k)
    ensures bytes == PackFields(fields)
    decreases |fields|
  {
    if fields == [] {
    } else {
      var n := |fields| - 1;
      var front, at, w := fields[..n], Offset(fields, n), fields[n].1;
      OffsetPrefix(fields, n, n);
      assert |bytes| == at + w;
      forall k | 0 <= k < n
        ensures Reads(bytes[..at], front, k)
      {
        ReadsPrefix(bytes, fields, n, k);
      }
      ReadsArePacked(bytes[..at], front);
      FromLittleRoundTrip(bytes[at..at + w]);
      assert bytes[at..at + w] == bytes[at..];
      assert Little(fields[n].0, w) == bytes[at..at + w] by { assert Reads(bytes, fields, n); }
      assert PackFields(fields) == PackFields(front) + Little(fields[n].0, w);
      Glue(bytes, at, PackFields(front), Little(fields[n].0, w));
    }
  }

  lemma Glue(bytes: seq<byte>, at: nat, front: seq<byte>, last: seq<byte>)
    requires at <= |bytes| && bytes[..at] == front && bytes[at..] == last
    ensures bytes == front + last
  {
  }
}
