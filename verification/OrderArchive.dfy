// The builder of one order's archive batch, and the choice of the intents it
// archives.
module OrderArchive {
  import opened Bytes
  import opened Wrappers
  import opened HistoryKeys
  import opened HistoryDigests
  import opened RowBuffer
  import HistoryProof
  import HistoryPack

  const MAX_BATCH_BYTES: nat := 128 * 1024
  const MAX_RECORD_BYTES: nat := HistoryProof.MAX_RECORD_BYTES
  const MAX_BATCH_KEYS: nat := HistoryPack.MAX_BATCH_KEYS

  datatype Span = Span(offset: nat, length: nat, payload: Digest)
  datatype Entry = Entry(identity: Identity, record: nat)
  datatype ArchiveError = OrderHistoryBatchCapacity | ConflictingOrderHistoryRecord

  // Record bodies in order, and the entries that name them.
  datatype Built = Built(records: seq<seq<byte>>, entries: seq<Entry>)

  function Size(records: seq<seq<byte>>): nat {
    if records == [] then 0 else Size(records[..|records| - 1]) + |records[|records| - 1]|
  }

  function EntryOf(entries: seq<Entry>, identity: Identity): (i: nat)
    ensures i <= |entries| && (i < |entries| ==> entries[i].identity == identity)
    ensures forall j :: 0 <= j < i ==> entries[j].identity != identity
  {
    if entries == [] || entries[0].identity == identity then 0 else 1 + EntryOf(entries[1..], identity)
  }

  function RecordOf(records: seq<seq<byte>>, body: seq<byte>): (i: nat)
    ensures i <= |records| && (i < |records| ==> records[i] == body)
    ensures forall j :: 0 <= j < i ==> records[j] != body
  {
    if records == [] || records[0] == body then 0 else 1 + RecordOf(records[1..], body)
  }

  // No body is stored twice, no identity is entered twice, and every entry
  // names a record.
  predicate Sound(b: Built) {
    && (forall i, j :: 0 <= i < j < |b.records| ==> b.records[i] != b.records[j])
    && (forall i, j :: 0 <= i < j < |b.entries| ==> b.entries[i].identity != b.entries[j].identity)
    && (forall i :: 0 <= i < |b.entries| ==> b.entries[i].record < |b.records|)
    && (forall i :: 0 <= i < |b.records| ==> |b.records[i]| <= MAX_RECORD_BYTES)
    && |b.records| <= |b.entries| <= MAX_BATCH_KEYS && Size(b.records) <= MAX_BATCH_BYTES
  }

  predicate Room(b: Built, body: seq<byte>) {
    Size(b.records) < MAX_BATCH_BYTES && |body| <= MAX_RECORD_BYTES && Size(b.records) + |body| <= MAX_BATCH_BYTES
  }

  function Added(b: Built, identity: Identity, body: seq<byte>): Result<Built, ArchiveError>
    requires Sound(b)
  {
    if !Room(b, body) then Err(OrderHistoryBatchCapacity)
    else
      var e, r := EntryOf(b.entries, identity), RecordOf(b.records, body);
      if e < |b.entries| then
        if b.records[b.entries[e].record] != body then Err(ConflictingOrderHistoryRecord) else Ok(b)
      else if |b.entries| == MAX_BATCH_KEYS then Err(OrderHistoryBatchCapacity)
      else if r < |b.records| then Ok(b.(entries := b.entries + [Entry(identity, r)]))
      else Ok(Built(b.records + [body], b.entries + [Entry(identity, r)]))
  }

  // Which batches a builder can hold.
  lemma SoundIsExact(b: Built)
    ensures Sound(b) <==>
            && (forall i, j :: 0 <= i < |b.records| && 0 <= j < |b.records| && b.records[i] == b.records[j] ==> i == j)
            && (forall i, j :: 0 <= i < |b.entries| && 0 <= j < |b.entries| ==>
                  b.entries[i].identity == b.entries[j].identity ==> i == j)
            && (forall e :: e in b.entries ==> e.record < |b.records|)
            && (forall r :: r in b.records ==> |r| <= 16 * 1024)
            && |b.records| <= |b.entries| <= 256 && Size(b.records) <= 128 * 1024
  {
    hide Size;
  }

  // An entry is added to a batch with room for the body once more, unless the
  // identity is bound, and then only to the same body, or there are 256 entries.
  lemma AddedDecides(b: Built, identity: Identity, body: seq<byte>)
    requires Sound(b)
    ensures var room := |body| <= 16 * 1024 && Size(b.records) < 128 * 1024 && Size(b.records) + |body| <= 128 * 1024;
      var bound := exists e :: e in b.entries && e.identity == identity;
      var same := exists e :: e in b.entries && e.identity == identity && b.records[e.record] == body;
      && (Added(b, identity, body) == Err(OrderHistoryBatchCapacity) <==> !room || (!bound && |b.entries| == 256))
      && (Added(b, identity, body) == Err(ConflictingOrderHistoryRecord) <==> room && bound && !same)
      && (Added(b, identity, body).Ok? <==> room && (if bound then same else |b.entries| < 256))
  {
    hide Size;
    var e := EntryOf(b.entries, identity);
    if e < |b.entries| { assert b.entries[e] in b.entries; }
    forall x | x in b.entries && x.identity == identity ensures e < |b.entries| && b.entries[e] == x {
      var i :| 0 <= i < |b.entries| && b.entries[i] == x;
    }
  }

  // ----- What adding keeps

  lemma SizeGrows(records: seq<seq<byte>>, body: seq<byte>)
    ensures Size(records + [body]) == Size(records) + |body|
  {
    assert (records + [body])[..|records|] == records;
  }

  lemma AddedIsSound(b: Built, identity: Identity, body: seq<byte>)
    requires Sound(b) && Added(b, identity, body).Ok?
    ensures Sound(Added(b, identity, body).value)
  {
    SizeGrows(b.records, body);
    hide Size;
    var after := Added(b, identity, body).value;
    forall i, j | 0 <= i < j < |after.entries|
      ensures after.entries[i].identity != after.entries[j].identity
    {
    }
  }

  // The body an identity is bound to.
  function Lookup(b: Built, identity: Identity): Option<seq<byte>>
    requires Sound(b)
  {
    var e := EntryOf(b.entries, identity);
    if e < |b.entries| then Some(b.records[b.entries[e].record]) else None
  }

  lemma EntryAppended(entries: seq<Entry>, e: Entry, identity: Identity)
    ensures var k := EntryOf(entries, identity);
      EntryOf(entries + [e], identity)
      == if k < |entries| then k else if e.identity == identity then |entries| else |entries| + 1
  {
    hide EntryOf;
    var all, k := entries + [e], EntryOf(entries, identity);
    forall j | 0 <= j < k ensures all[j].identity != identity {
      assert all[j] == entries[j];
    }
    FirstEntry(all, identity, if k < |entries| then k else if e.identity == identity then |entries| else |entries| + 1);
  }

  lemma FirstEntry(entries: seq<Entry>, identity: Identity, i: nat)
    requires i <= |entries| && (i < |entries| ==> entries[i].identity == identity)
    requires forall j :: 0 <= j < i ==> entries[j].identity != identity
    ensures EntryOf(entries, identity) == i
  {
    hide EntryOf;
  }

  // What Added does when it succeeds.
  lemma AddedCases(b: Built, identity: Identity, body: seq<byte>)
    requires Sound(b) && Added(b, identity, body).Ok?
    ensures var after, e := Added(b, identity, body).value, EntryOf(b.entries, identity);
      if e < |b.entries| then after == b && b.records[b.entries[e].record] == body
      else exists r: nat ::
             && after.entries == b.entries + [Entry(identity, r)] && r < |after.records| && after.records[r] == body
             && b.records <= after.records
  {
    hide Size;
  }

  // A new identity names the record of its body, an old one or a new one.
  lemma AddedIs(b: Built, identity: Identity, body: seq<byte>, k: nat)
    requires Sound(b) && EntryOf(b.entries, identity) == |b.entries| < MAX_BATCH_KEYS
    requires k == RecordOf(b.records, body) && Room(b, body)
    ensures Added(b, identity, body)
            == Ok(Built(if k < |b.records| then b.records else b.records + [body], b.entries + [Entry(identity, k)]))
  {
  }

  lemma EntriesNameRecords(b: Built)
    requires Sound(b)
    ensures |b.records| <= |b.entries| && forall i :: 0 <= i < |b.entries| ==> b.entries[i].record < |b.records|
  {
  }

  // Adding binds the identity to the body and changes no other binding.
  lemma AddBinds(b: Built, identity: Identity, body: seq<byte>, other: Identity)
    requires Sound(b) && Added(b, identity, body).Ok?
    ensures Sound(Added(b, identity, body).value)
    ensures var after := Added(b, identity, body).value;
      Lookup(after, other) == if other == identity then Some(body) else Lookup(b, other)
  {
    hide Added, EntryOf, Sound;
    AddedIsSound(b, identity, body);
    AddedCases(b, identity, body);
    var after, e := Added(b, identity, body).value, EntryOf(b.entries, identity);
    EntriesNameRecords(b);
    if e == |b.entries| {
      var r: nat :|
        && after.entries == b.entries + [Entry(identity, r)] && r < |after.records| && after.records[r] == body
        && b.records <= after.records;
      EntryAppended(b.entries, Entry(identity, r), other);
    }
  }

  // Adding to a bound identity never changes the batch: the same body is taken
  // and another one refused, but only while the buffer has room for it once more.
  lemma AddAgain(b: Built, identity: Identity, body: seq<byte>, again: seq<byte>)
    requires Sound(b) && Lookup(b, identity) == Some(body)
    ensures Added(b, identity, again)
            == if !Room(b, again) then Err(OrderHistoryBatchCapacity)
               else if again == body then Ok(b) else Err(ConflictingOrderHistoryRecord)
  {
  }

  function FullBody(k: byte): (body: seq<byte>)
    ensures |body| == MAX_RECORD_BYTES && body[0] == k
  {
    seq(MAX_RECORD_BYTES, _ => k)
  }

  // A batch of n records of the greatest size.
  function Filled(n: nat): Built
    requires n <= 8
  {
    Built(seq(n, i requires 0 <= i < n <= 8 => FullBody(i as byte)), seq(n,
        i requires 0 <= i < n <= 8 => Entry(OfNarrow(Order, i), i)))
  }

  lemma {:induction false} FilledSize(n: nat)
    requires n <= 8
    ensures Size(Filled(n).records) == n * MAX_RECORD_BYTES
  {
    hide FullBody;
    if n > 0 {
      FilledSize(n - 1);
      assert Filled(n).records[..n - 1] == Filled(n - 1).records;
    }
  }

  lemma FilledIsSound(n: nat)
    requires n <= 8
    ensures Sound(Filled(n))
  {
    hide FullBody, Size;
    FilledSize(n);
  }

  // In a full buffer even the pair already there is refused.
  lemma FullBatchRefusesKnownPair()
    ensures exists b: Built, identity: Identity, body: seq<byte> ::
              Sound(b) && Lookup(b, identity) == Some(body)
                  && Added(b, identity, body) == Err(OrderHistoryBatchCapacity)
  {
    FilledIsSound(8);
    FilledSize(8);
    var b, identity := Filled(8), OfNarrow(Order, 0);
    assert b.entries[0].identity == identity;
    hide Filled, Size, FullBody;
    var body := Lookup(b, identity).value;
    AddAgain(b, identity, body, body);
    assert Added(b, identity, body) == Err(OrderHistoryBatchCapacity);
  }

  // ----- The builder's buffers

  // Spans laid end to end from the start of the buffer to its used length.
  predicate Partition(spans: seq<Span>, used: nat) {
    if spans == [] then used == 0
    else
      var n := |spans| - 1;
      spans[n].offset + spans[n].length == used && Partition(spans[..n], spans[n].offset)
  }

  predicate Inside(spans: seq<Span>, used: nat) {
    forall i :: 0 <= i < |spans| ==> spans[i].offset + spans[i].length <= used
  }

  lemma {:induction false} PartitionIsInside(spans: seq<Span>, used: nat)
    requires Partition(spans, used)
    ensures Inside(spans, used)
    decreases |spans|
  {
    if spans != [] {
      var n := |spans| - 1;
      PartitionIsInside(spans[..n], spans[n].offset);
      assert forall i :: 0 <= i < n ==> spans[i] == spans[..n][i];
    }
  }

  function BodyAt(data: seq<byte>, s: Span): (body: seq<byte>)
    requires s.offset + s.length <= |data|
  {
    data[s.offset..s.offset + s.length]
  }

  function Bodies(data: seq<byte>, spans: seq<Span>): (bodies: seq<seq<byte>>)
    requires Inside(spans, |data|)
    ensures |bodies| == |spans|
  {
    seq(|spans|, i requires 0 <= i < |spans| && Inside(spans, |data|) => BodyAt(data, spans[i]))
  }

  predicate Hashed(data: seq<byte>, spans: seq<Span>) {
    forall i :: 0 <= i < |spans| && spans[i].offset + spans[i].length <= |data| ==>
      spans[i].payload == RecordHash(BodyAt(data, spans[i]))
  }

  // The first bodies are those of the bytes before the last span.
  lemma BodiesFront(data: seq<byte>, spans: seq<Span>, n: nat, k: nat)
    requires n <= |spans| && k <= |data| && Inside(spans, |data|) && Inside(spans[..n], k)
    ensures Bodies(data, spans)[..n] == Bodies(data[..k], spans[..n])
  {
    forall i | 0 <= i < n
      ensures Bodies(data, spans)[..n][i] == Bodies(data[..k], spans[..n])[i]
    {
      assert spans[..n][i] == spans[i];
      assert BodyAt(data, spans[i]) == BodyAt(data[..k], spans[i]);
    }
  }

  // The bodies of a partition fill the used bytes exactly.
  lemma {:induction false} BodiesFill(data: seq<byte>, spans: seq<Span>)
    requires Partition(spans, |data|) && Inside(spans, |data|)
    ensures Size(Bodies(data, spans)) == |data|
    decreases |spans|
  {
    if spans != [] {
      var n := |spans| - 1;
      var last := spans[n];
      PartitionIsInside(spans[..n], last.offset);
      BodiesFill(data[..last.offset], spans[..n]);
      BodiesFront(data, spans, n, last.offset);
      assert Bodies(data, spans)[n] == BodyAt(data, last) && |BodyAt(data, last)| == last.length;
    }
  }

  lemma BodiesGrow(data: seq<byte>, spans: seq<Span>, body: seq<byte>)
    requires Partition(spans, |data|) && Inside(spans, |data|) && Hashed(data, spans)
    ensures var more := spans + [Span(|data|, |body|, RecordHash(body))];
      && Partition(more, |data + body|) && Inside(more, |data + body|) && Hashed(data + body, more)
      && Bodies(data + body, more) == Bodies(data, spans) + [body]
  {
    var more := spans + [Span(|data|, |body|, RecordHash(body))];
    assert more[..|spans|] == spans;
    assert BodyAt(data + body, more[|spans|]) == body;
    forall i | 0 <= i < |spans|
      ensures BodyAt(data + body, more[i]) == BodyAt(data, spans[i])
    {
    }
  }

  lemma NoRoom(b: Built, identity: Identity, body: seq<byte>)
    requires Sound(b)
    requires Size(b.records) >= MAX_BATCH_BYTES || |body| > MAX_RECORD_BYTES
             || Size(b.records) + |body| > MAX_BATCH_BYTES
    ensures Added(b, identity, body) == Err(OrderHistoryBatchCapacity)
  {
    hide Sound, Size;
  }

  class Builder {
    const bytes: array<byte>
    var used: nat
    const spans: Rows<Span>
    const entries: Rows<Entry>

    constructor ()
      ensures Valid() && View() == Built([], [])
      ensures fresh(bytes) && fresh(spans) && fresh(spans.data) && fresh(entries) && fresh(entries.data)
    {
      bytes := new byte[MAX_BATCH_BYTES];
      used := 0;
      spans := new Rows(MAX_BATCH_KEYS);
      entries := new Rows(MAX_BATCH_KEYS);
    }

    // The spans cut the used bytes into consecutive records.
    ghost predicate Valid()
      reads this, bytes, spans, spans.data, entries, entries.data
    {
      && bytes.Length == MAX_BATCH_BYTES && used <= bytes.Length && spans.Valid() && entries.Valid()
      && spans.data.Length == MAX_BATCH_KEYS && entries.data.Length == MAX_BATCH_KEYS
      && Partition(spans.Contents(), used) && Inside(spans.Contents(), used)
      && Hashed(bytes[..used], spans.Contents())
      && Sound(Built(Bodies(bytes[..used], spans.Contents()), entries.Contents()))
    }

    ghost function View(): (b: Built)
      requires Valid()
      reads this, bytes, spans, spans.data, entries, entries.data
      ensures Sound(b)
    {
      Built(Bodies(bytes[..used], spans.Contents()), entries.Contents())
    }

    method FindEntry(identity: Identity) returns (e: nat)
      requires Valid()
      ensures e == EntryOf(View().entries, identity)
    {
      e := 0;
      while e < entries.count && entries.Get(e).identity != identity
        invariant e <= entries.count && forall j :: 0 <= j < e ==> entries.Contents()[j].identity != identity
      {
        e := e + 1;
      }
    }

    method SameBody(s: Span, body: seq<byte>) returns (same: bool)
      requires Valid() && s in spans.Contents() && s.offset + s.length <= used
      ensures same == (BodyAt(bytes[..used], s) == body)
    {
      same := s.length == |body| && s.payload == RecordHash(body) && bytes[s.offset..s.offset + s.length] == body;
    }

    method FindRecord(body: seq<byte>) returns (r: nat)
      requires Valid()
      ensures r == RecordOf(View().records, body)
    {
      hide Partition, Sound, Size, Hashed, Inside, Bodies;
      r := 0;
      assert |View().records| == spans.count;
      while r < spans.count
        invariant r <= spans.count && forall j :: 0 <= j < r ==> View().records[j] != body
      {
        RecordAt(r);
        var same := SameBody(SpanAt(r), body);
        if same { return; }
        r := r + 1;
      }
    }

    // The encoded body is written behind the used bytes first; only appending
    // a span makes it part of the batch.
    method Add(identity: Identity, body: seq<byte>) returns (r: Result<(), ArchiveError>)
      requires Valid()
      modifies this`used, bytes, spans, spans.data, entries, entries.data
      ensures Valid()
      ensures r.Ok? ==> Added(old(View()), identity, body) == Ok(View())
      ensures r.Err? ==> Added(old(View()), identity, body) == Err(r.error) && View() == old(View())
    {
      SizeIsUsed();
      if used >= MAX_BATCH_BYTES {
        NoRoom(View(), identity, body);
        return Err(OrderHistoryBatchCapacity);
      }
      var end := if MAX_BATCH_BYTES <= used + MAX_RECORD_BYTES then MAX_BATCH_BYTES else used + MAX_RECORD_BYTES;
      if |body| > end - used {
        NoRoom(View(), identity, body);
        return Err(OrderHistoryBatchCapacity);
      }
      assert Room(View(), body);
      Scratch(body);
      r := Enter(identity, body);
    }

    // The body lies behind the used bytes; enter it under its identity.
    method Enter(identity: Identity, body: seq<byte>) returns (r: Result<(), ArchiveError>)
      requires Valid() && used + |body| <= bytes.Length && bytes[used..used + |body|] == body && Room(View(), body)
      modifies this`used, spans, spans.data, entries, entries.data
      ensures Valid()
      ensures r.Ok? ==> Added(old(View()), identity, body) == Ok(View())
      ensures r.Err? ==> Added(old(View()), identity, body) == Err(r.error) && View() == old(View())
    {
      hide EntryCount, EntryOf, Valid;
      var e := FindEntry(identity);
      if e < EntryCount() {
        KnownRecord(e);
        var known := EntryAt(e).record;
        RecordAt(known);
        var same := SameBody(SpanAt(known), body);
        if !same { return Err(ConflictingOrderHistoryRecord); }
        return Ok(());
      }
      if EntryCount() == MAX_BATCH_KEYS {
        return Err(OrderHistoryBatchCapacity);
      }
      assert |View().entries| <= MAX_BATCH_KEYS;
      var k := FindRecord(body);
      if k < RecordCount() { NameRecord(identity, body, k); } else { AppendRecord(identity, body); }
      return Ok(());
    }

    function EntryCount(): (n: nat)
      requires Valid()
      reads this, bytes, spans, spans.data, entries, entries.data
      ensures n == |View().entries|
    {
      entries.count
    }

    function RecordCount(): (n: nat)
      requires Valid()
      reads this, bytes, spans, spans.data, entries, entries.data
      ensures n == |View().records|
    {
      spans.count
    }

    function EntryAt(e: nat): (x: Entry)
      requires Valid() && e < |View().entries|
      reads this, bytes, spans, spans.data, entries, entries.data
      ensures x == View().entries[e]
    {
      entries.Get(e)
    }

    function SpanAt(i: nat): (s: Span)
      requires Valid() && i < spans.count
      reads this, bytes, spans, spans.data, entries, entries.data
      ensures spans.Valid() && s == spans.Contents()[i]
    {
      spans.Get(i)
    }

    lemma SizeIsUsed()
      requires Valid()
      ensures Size(View().records) == used <= MAX_BATCH_BYTES == bytes.Length
    {
      BodiesFill(bytes[..used], spans.Contents());
    }

    lemma RecordAt(i: nat)
      requires Valid() && i < spans.count
      ensures var s := spans.Contents()[i];
        && s == SpanAt(i) && s in spans.Contents() && s.offset + s.length <= used
        && |View().records| == spans.count && View().records[i] == BodyAt(bytes[..used], s)
    {
      hide Partition, Sound, Size, Hashed;
    }

    // A record's bytes where they lie in the buffer, with their digest.
    method RecordBody(i: nat) returns (body: seq<byte>, payload: Digest)
      requires Valid() && i < |View().records|
      ensures body == View().records[i] && payload == RecordHash(body)
    {
      hide Partition, Sound, Size;
      RecordAt(i);
      var s := SpanAt(i);
      assert s.payload == RecordHash(BodyAt(bytes[..used], s));
      body, payload := bytes[s.offset..s.offset + s.length], s.payload;
    }

    lemma KnownRecord(e: nat)
      requires Valid() && e < |View().entries|
      ensures View().entries[e].record < spans.count
    {
      hide Partition, Size, Hashed, Inside;
    }

    method Scratch(body: seq<byte>)
      requires Valid() && used + |body| <= bytes.Length
      modifies bytes
      ensures Valid() && View() == old(View()) && bytes[used..used + |body|] == body
    {
      ghost var data := bytes[..used];
      for i := 0 to |body|
        invariant bytes[..used] == data && bytes[used..used + i] == body[..i]
      {
        bytes[used + i] := body[i];
        assert bytes[used..used + i + 1] == bytes[used..used + i] + [body[i]];
      }
      assert body[..|body|] == body;
    }

    // A known body gets another name.
    method NameRecord(identity: Identity, body: seq<byte>, k: nat)
      requires Valid() && Room(View(), body)
      requires EntryOf(View().entries, identity) == |View().entries| < MAX_BATCH_KEYS
      requires k == RecordOf(View().records, body) < |View().records|
      modifies entries, entries.data
      ensures Valid() && Added(old(View()), identity, body) == Ok(View())
    {
      hide Partition, Bodies, Size, Hashed, Inside, EntryOf, RecordOf, Room, Added, Sound;
      AddedIs(View(), identity, body, k);
      AddedIsSound(View(), identity, body);
      entries.Push(Entry(identity, k));
    }

    // A new body stays where it was encoded, behind the used bytes.
    method AppendRecord(identity: Identity, body: seq<byte>)
      requires Valid() && used + |body| <= bytes.Length && bytes[used..used + |body|] == body && Room(View(), body)
      requires EntryOf(View().entries, identity) == |View().entries| < MAX_BATCH_KEYS
      requires RecordOf(View().records, body) == |View().records|
      modifies this`used, spans, spans.data, entries, entries.data
      ensures Valid() && Added(old(View()), identity, body) == Ok(View())
    {
      hide Partition, Bodies, Size, Hashed, Inside, EntryOf, RecordOf, Room, Added, Sound;
      ghost var before, data, rows := View(), bytes[..used], spans.Contents();
      AddedIs(before, identity, body, |before.records|);
      AddedIsSound(before, identity, body);
      EntriesNameRecords(before);
      BodiesGrow(data, rows, body);
      entries.Push(Entry(identity, spans.count));
      spans.Push(Span(used, |body|, RecordHash(body)));
      used := used + |body|;
      assert bytes[..used] == data + body;
    }
  }

  // ----- Which intents are archived

  datatype Intent = Intent(strategy: u128, sequence: u64, rest: nat)

  predicate SameIntent(a: Intent, b: Intent) { a.strategy == b.strategy && a.sequence == b.sequence }

  predicate Names(intents: seq<Intent>, x: Intent) { exists i :: 0 <= i < |intents| && SameIntent(intents[i], x) }

  // The retained intents appear in the history in the same order.
  predicate Subsequence(retained: seq<Intent>, history: seq<Intent>)
    decreases |history|
  {
    retained == []
    || (history != []
        && if SameIntent(history[0], retained[0]) then Subsequence(retained[1..], history[1..])
           else Subsequence(retained, history[1..]))
  }

  predicate DistinctIntents(history: seq<Intent>) {
    forall i, j :: 0 <= i < j < |history| ==> !SameIntent(history[i], history[j])
  }

  function Difference(history: seq<Intent>, retained: seq<Intent>): seq<Intent>
    decreases |history|
  {
    if history == [] then []
    else if retained != [] && SameIntent(retained[0], history[0]) then Difference(history[1..], retained[1..])
    else [history[0]] + Difference(history[1..], retained)
  }

  // Exactly the intents that are not retained, in their order.
  function NotRetained(history: seq<Intent>, retained: seq<Intent>): seq<Intent> {
    if history == [] then []
    else (if Names(retained, history[0]) then [] else [history[0]]) + NotRetained(history[1..], retained)
  }

  method Released(history: seq<Intent>, retained: seq<Intent>) returns (released: seq<Intent>)
    ensures released == Difference(history, retained)
  {
    released := [];
    var retainedIndex := 0;
    for i := 0 to |history|
      invariant retainedIndex <= |retained|
      invariant Difference(history, retained) == released + Difference(history[i..], retained[retainedIndex..])
    {
      assert history[i..][1..] == history[i + 1..];
      if retainedIndex < |retained| && SameIntent(retained[retainedIndex], history[i]) {
        assert retained[retainedIndex..][1..] == retained[retainedIndex + 1..];
        retainedIndex := retainedIndex + 1;
      } else {
        released := released + [history[i]];
      }
    }
  }

  lemma {:induction false} SubsequenceIsNamed(retained: seq<Intent>, history: seq<Intent>, x: Intent)
    requires Subsequence(retained, history) && Names(retained, x)
    ensures Names(history, x)
    decreases |history|
  {
    var i :| 0 <= i < |retained| && SameIntent(retained[i], x);
    if SameIntent(history[0], retained[0]) {
      if i == 0 {
        assert SameIntent(history[0], x);
      } else {
        assert SameIntent(retained[1..][i - 1], x);
        SubsequenceIsNamed(retained[1..], history[1..], x);
        NamesTail(history, x);
      }
    } else {
      SubsequenceIsNamed(retained, history[1..], x);
      NamesTail(history, x);
    }
  }

  lemma NamesTail(history: seq<Intent>, x: Intent)
    requires history != [] && Names(history[1..], x)
    ensures Names(history, x)
  {
    var i :| 0 <= i < |history[1..]| && SameIntent(history[1..][i], x);
    assert SameIntent(history[i + 1], x);
  }

  // Dropping a retained intent that does not occur later changes nothing.
  lemma {:induction false} DropRetained(history: seq<Intent>, retained: seq<Intent>)
    requires retained != [] && !Names(history, retained[0])
    ensures NotRetained(history, retained) == NotRetained(history, retained[1..])
    decreases |history|
  {
    if history != [] {
      var x := history[0];
      assert !SameIntent(x, retained[0]);
      if Names(retained, x) {
        var i :| 0 <= i < |retained| && SameIntent(retained[i], x);
        assert SameIntent(retained[1..][i - 1], x);
      }
      if Names(retained[1..], x) { NamesTail(retained, x); }
      if Names(history[1..], retained[0]) { NamesTail(history, retained[0]); }
      DropRetained(history[1..], retained);
    }
  }

  // Intents picked from the history in order are a subsequence of it.
  lemma {:induction false} PickedIsSubsequence(history: seq<Intent>, retained: seq<Intent>, picks: seq<nat>, n: nat)
    requires |picks| == |retained| && n <= |history|
    requires forall i :: 0 <= i < |picks| ==>
               n <= picks[i] < |history| && retained[i].strategy == history[picks[i]].strategy
               && retained[i].sequence == history[picks[i]].sequence
    requires forall i, j :: 0 <= i < j < |picks| ==> picks[i] < picks[j]
    requires forall i, j :: 0 <= i < j < |history| ==>
               history[i].strategy != history[j].strategy || history[i].sequence != history[j].sequence
    ensures Subsequence(retained, history[n..])
    decreases |history| - n
  {
    if retained != [] {
      var rest := history[n..];
      assert picks[0] < |history|;
      assert rest[0] == history[n] && rest[1..] == history[n + 1..];
      if picks[0] == n {
        PickedIsSubsequence(history, retained[1..], picks[1..], n + 1);
      } else {
        PickedIsSubsequence(history, retained, picks, n + 1);
      }
    }
  }

  // An intent is released exactly when it is in the history and none of its
  // strategy and sequence is retained.
  lemma {:induction false} NotRetainedHas(history: seq<Intent>, retained: seq<Intent>, x: Intent)
    ensures x in NotRetained(history, retained) <==>
            x in history && forall r :: r in retained ==> r.strategy != x.strategy || r.sequence != x.sequence
  {
    if history != [] {
      NotRetainedHas(history[1..], retained, x);
      assert history == [history[0]] + history[1..];
      if r :| r in retained && SameIntent(r, x) {
        var i :| 0 <= i < |retained| && retained[i] == r;
        assert SameIntent(retained[i], x);
      }
    }
  }

  // When the retained intents are a subsequence of a history without repeated
  // identities, the two-index pass releases exactly the others.
  lemma {:induction false} DifferenceIsExact(history: seq<Intent>, retained: seq<Intent>)
    requires Subsequence(retained, history) && DistinctIntents(history)
    ensures Difference(history, retained) == NotRetained(history, retained)
    decreases |history|
  {
    if history != [] {
      var x, rest := history[0], history[1..];
      assert DistinctIntents(rest);
      if retained != [] && SameIntent(retained[0], x) {
        DifferenceIsExact(rest, retained[1..]);
        assert !Names(rest, retained[0]) by { Unrepeated(history, retained[0]); }
        DropRetained(rest, retained);
        assert SameIntent(retained[0], x);
      } else {
        DifferenceIsExact(rest, retained);
        if Names(retained, x) {
          SubsequenceIsNamed(retained, rest, x);
          Unrepeated(history, x);
        }
      }
    }
  }

  lemma Unrepeated(history: seq<Intent>, x: Intent)
    requires DistinctIntents(history) && history != [] && SameIntent(history[0], x)
    ensures !Names(history[1..], x)
  {
    forall i | 0 <= i < |history[1..]| ensures !SameIntent(history[1..][i], x) {
      assert !SameIntent(history[0], history[i + 1]);
    }
  }
}
