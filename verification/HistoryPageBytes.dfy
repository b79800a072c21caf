// The 4096 bytes of a directory page: a header, the items end to end, and zeros.
module HistoryPageBytes {
  import opened Bytes
  import opened Wrappers
  import opened HistoryKeys
  import opened HistoryDigests
  import opened HistoryTree
  import opened HistoryProof
  import opened HistoryStore

  const HASH_BYTES: nat := 32
  const MAGIC: seq<byte> := [82, 87, 79, 72, 66, 80, 48, 49]

  // A SHA-256 value as it lies in the page.
  type Hash = h: seq<byte> | |h| == HASH_BYTES witness Zeros(HASH_BYTES)

  datatype RawItem = RawItem(lower: Key, upper: Key, digest: Hash, offset: u64, length: u32)
  datatype RawPage = RawPage(level: u8, items: seq<RawItem>)

  // ----- The bytes of a page

  function KeyCode(k: Key): (bytes: seq<byte>)
    ensures |bytes| == 1 + |k|
  {
    [|k| as byte] + k
  }

  function ItemCode(x: RawItem): (bytes: seq<byte>)
    ensures |bytes| == 2 + |x.lower| + |x.upper| + 44
  {
    KeyCode(x.lower) + KeyCode(x.upper) + x.digest + Little(x.offset, 8) + Little(x.length, 4)
  }

  function ItemsCode(items: seq<RawItem>): seq<byte> {
    if items == [] then [] else ItemCode(items[0]) + ItemsCode(items[1..])
  }

  function Header(level: u8, count: u8, end: u16): (bytes: seq<byte>)
    ensures |bytes| == HEADER_BYTES
  {
    MAGIC + [level as byte, count as byte] + Little(end, 2) + Zeros(4)
  }

  predicate FitsPage(p: RawPage) { |p.items| <= FANOUT && HEADER_BYTES + |ItemsCode(p.items)| <= PAGE_BYTES }

  function PageCode(p: RawPage): (bytes: seq<byte>)
    requires FitsPage(p)
    ensures |bytes| == PAGE_BYTES
  {
    var code := ItemsCode(p.items);
    Header(p.level, |p.items|, HEADER_BYTES + |code|) + code + Zeros(PAGE_BYTES - HEADER_BYTES - |code|)
  }

  // ----- Reading

  function DecodeKey(b: seq<byte>, cursor: nat): (r: Result<(Key, nat), HistoryError>)
    ensures r.Err? ==> r.error == InvalidHistoryPage
  {
    if cursor >= |b| then Err(InvalidHistoryPage)
    else
      var n := b[cursor] as nat;
      if n > KEY_BYTES || cursor + 1 + n > |b| then Err(InvalidHistoryPage)
      else Ok((b[cursor + 1..cursor + 1 + n], cursor + 1 + n))
  }

  function DecodeItem(b: seq<byte>, cursor: nat): (r: Result<(RawItem, nat), HistoryError>)
    ensures r.Ok? ==> cursor < r.value.1 <= |b|
    ensures r.Err? ==> r.error == InvalidHistoryPage
  {
    var (lower, at) :- DecodeKey(b, cursor);
    var (upper, next) :- DecodeKey(b, at);
    if next + 44 > |b| then Err(InvalidHistoryPage)
    else
      Widths();
      FromLittleRoundTrip(b[next + 32..next + 40]);
      FromLittleRoundTrip(b[next + 40..next + 44]);
      Ok((RawItem(lower, upper, b[next..next + 32], Get(b, next + 32, 8), Get(b, next + 40, 4)), next + 44))
  }

  // An item that may follow the previous key on a page of the level.
  predicate Follows(level: u8, previous: Option<Key>, x: RawItem) {
    && x.upper != [] && (previous.Some? ==> Compare(previous.value, x.upper) == Lt)
    && (level == 0 ==> x.lower == [])
    && (level != 0 && previous.Some? ==> Compare(x.lower, previous.value) == Eq)
  }

  function DecodeItems(b: seq<byte>, cursor: nat, n: nat, level: u8, previous: Option<Key>)
    : (r: Result<(seq<RawItem>, nat), HistoryError>)
    ensures r.Err? ==> r.error == InvalidHistoryPage
    decreases n
  {
    if n == 0 then Ok(([], cursor))
    else
      var (x, next) :- DecodeItem(b, cursor);
      if !Follows(level, previous, x) then Err(InvalidHistoryPage)
      else
        var (rest, end) :- DecodeItems(b, next, n - 1, level, Some(x.upper));
        Ok(([x] + rest, end))
  }

  predicate AllZero(b: seq<byte>) { forall i :: 0 <= i < |b| ==> b[i] == 0 }

  predicate HeaderOk(b: seq<byte>) {
    && |b| == PAGE_BYTES && b[0..8] == MAGIC && b[9] as nat <= FANOUT && b[8] as nat <= MAX_DEPTH
    && var end := Get(b, 10, 2);
      HEADER_BYTES <= end <= PAGE_BYTES && AllZero(b[12..16]) && AllZero(b[end..])
  }

  function Decode(b: seq<byte>): (r: Result<RawPage, HistoryError>)
    ensures r.Err? ==> r.error == InvalidHistoryPage
  {
    if !HeaderOk(b) then Err(InvalidHistoryPage)
    else
      var end := Get(b, 10, 2);
      var (items, cursor) :- DecodeItems(b[..end], HEADER_BYTES, b[9] as nat, b[8] as nat, None);
      if cursor != end then Err(InvalidHistoryPage) else Ok(RawPage(b[8] as nat, items))
  }

  // ----- One item

  lemma KeyReads(b: seq<byte>, cursor: nat, k: Key)
    requires cursor <= |b| && KeyCode(k) <= b[cursor..]
    ensures DecodeKey(b, cursor) == Ok((k, cursor + 1 + |k|))
  {
    assert b[cursor] == b[cursor..][0] == KeyCode(k)[0];
    assert b[cursor + 1..cursor + 1 + |k|] == b[cursor..][1..1 + |k|] == KeyCode(k)[1..];
  }

  lemma KeyWrites(b: seq<byte>, cursor: nat)
    requires DecodeKey(b, cursor).Ok?
    ensures var (k, next) := DecodeKey(b, cursor).value; cursor < next <= |b| && b[cursor..next] == KeyCode(k)
  {
    var (k, next) := DecodeKey(b, cursor).value;
    assert b[cursor..next] == [b[cursor]] + b[cursor + 1..next];
  }

  lemma ItemReads(b: seq<byte>, cursor: nat, x: RawItem)
    requires cursor <= |b| && ItemCode(x) <= b[cursor..]
    ensures DecodeItem(b, cursor) == Ok((x, cursor + |ItemCode(x)|))
  {
    hide KeyCode, Little, FromLittle, DecodeKey;
    var code, low, up := ItemCode(x), |KeyCode(x.lower)|, |KeyCode(x.upper)|;
    var at := cursor + low;
    var next := at + up;
    assert forall i, j :: 0 <= i <= j <= |code| ==> b[cursor + i..cursor + j] == code[i..j];
    assert code[..low] == KeyCode(x.lower) && code[low..low + up] == KeyCode(x.upper);
    assert KeyCode(x.lower) <= b[cursor..] && KeyCode(x.upper) <= b[at..];
    KeyReads(b, cursor, x.lower);
    KeyReads(b, at, x.upper);
    assert b[next..next + 32] == code[low + up..low + up + 32] == x.digest;
    assert b[next + 32..next + 40] == code[low + up + 32..low + up + 40] == Little(x.offset, 8);
    assert b[next + 40..next + 44] == code[low + up + 40..low + up + 44] == Little(x.length, 4);
    Widths();
    LittleRoundTrip(x.offset, 8);
    LittleRoundTrip(x.length, 4);
  }

  lemma ItemWrites(b: seq<byte>, cursor: nat)
    requires DecodeItem(b, cursor).Ok?
    ensures var (x, next) := DecodeItem(b, cursor).value; cursor < next <= |b| && b[cursor..next] == ItemCode(x)
  {
    hide KeyCode, Little, FromLittle, DecodeKey;
    var (x, end) := DecodeItem(b, cursor).value;
    var (lower, at) := DecodeKey(b, cursor).value;
    var (upper, next) := DecodeKey(b, at).value;
    KeyWrites(b, cursor);
    KeyWrites(b, at);
    FromLittleRoundTrip(b[next + 32..next + 40]);
    FromLittleRoundTrip(b[next + 40..next + 44]);
    assert b[cursor..end] == b[cursor..at] + b[at..next] + b[next..next + 32] + b[next + 32..next + 40]
                             + b[next + 40..end];
  }

  // ----- All items

  ghost predicate Run(level: u8, previous: Option<Key>, items: seq<RawItem>)
    decreases |items|
  {
    items == [] || (Follows(level, previous, items[0]) && Run(level, Some(items[0].upper), items[1..]))
  }

  lemma {:induction false} ItemsRead(b: seq<byte>, cursor: nat, items: seq<RawItem>, level: u8, previous: Option<Key>)
    requires cursor <= |b| && ItemsCode(items) <= b[cursor..] && Run(level, previous, items)
    ensures DecodeItems(b, cursor, |items|, level, previous) == Ok((items, cursor + |ItemsCode(items)|))
    decreases |items|
  {
    hide ItemCode, DecodeItem, Follows;
    if items != [] {
      var x, rest := items[0], items[1..];
      var n := |ItemCode(x)|;
      assert ItemsCode(items)[..n] == ItemCode(x) && ItemsCode(items)[n..] == ItemsCode(rest);
      assert ItemCode(x) <= b[cursor..] && b[cursor..][n..] == b[cursor + n..];
      ItemReads(b, cursor, x);
      ItemsRead(b, cursor + n, rest, level, Some(x.upper));
      assert items == [x] + rest;
    }
  }

  lemma {:induction false} ItemsWrite(b: seq<byte>, cursor: nat, n: nat, level: u8, previous: Option<Key>)
    requires cursor <= |b| && DecodeItems(b, cursor, n, level, previous).Ok?
    ensures var (items, end) := DecodeItems(b, cursor, n, level, previous).value;
      && |items| == n && Run(level, previous, items)
      && cursor <= end <= |b| && b[cursor..end] == ItemsCode(items)
    decreases n
  {
    hide ItemCode, DecodeItem, Follows;
    if n > 0 {
      var (x, next) := DecodeItem(b, cursor).value;
      ItemWrites(b, cursor);
      ItemsWrite(b, next, n - 1, level, Some(x.upper));
      var (rest, end) := DecodeItems(b, next, n - 1, level, Some(x.upper)).value;
      assert ([x] + rest)[1..] == rest;
      assert b[cursor..end] == b[cursor..next] + b[next..end];
    }
  }

  // ----- Whole pages

  // A page the reader takes.
  ghost predicate PageOk(p: RawPage) { p.level <= MAX_DEPTH && FitsPage(p) && Run(p.level, None, p.items) }

  lemma HeaderReads(p: RawPage)
    requires FitsPage(p) && p.level <= MAX_DEPTH
    ensures var b := PageCode(p);
      HeaderOk(b) && b[8] as nat == p.level && b[9] as nat == |p.items|
      && Get(b, 10, 2) == HEADER_BYTES + |ItemsCode(p.items)|
  {
    hide ItemsCode, Little, FromLittle;
    var b, end := PageCode(p), HEADER_BYTES + |ItemsCode(p.items)|;
    var header := Header(p.level, |p.items|, end);
    Widths();
    LittleRoundTrip(end, 2);
    assert b[..16] == header;
    assert b[0..8] == header[0..8] == MAGIC;
    assert b[10..12] == header[10..12] == Little(end, 2);
    assert b[12..16] == header[12..16] == Zeros(4);
    assert b[end..] == Zeros(PAGE_BYTES - end);
  }

  // The bytes of a page decode to the page.
  lemma DecodedOfPage(p: RawPage)
    requires PageOk(p)
    ensures Decode(PageCode(p)) == Ok(p)
  {
    hide ItemsCode, Header, HeaderOk, FromLittle, Run;
    HeaderReads(p);
    var b, code := PageCode(p), ItemsCode(p.items);
    var end := HEADER_BYTES + |code|;
    assert b[..end][HEADER_BYTES..] == code;
    ItemsRead(b[..end], HEADER_BYTES, p.items, p.level, None);
  }

  // Whatever decodes is the bytes of the page it decodes to.
  lemma PageOfDecoded(b: seq<byte>)
    requires Decode(b).Ok?
    ensures PageOk(Decode(b).value) && PageCode(Decode(b).value) == b
  {
    hide ItemsCode, FromLittle, Run, Little, DecodeItems;
    var end := Get(b, 10, 2);
    ItemsWrite(b[..end], HEADER_BYTES, b[9] as nat, b[8] as nat, None);
    var p := Decode(b).value;
    assert b[..end][HEADER_BYTES..end] == b[HEADER_BYTES..end] == ItemsCode(p.items);
    FromLittleRoundTrip(b[10..12]);
    assert b[12..16] == Zeros(4) && b[end..] == Zeros(PAGE_BYTES - end);
    assert b[..16] == b[0..8] + [b[8], b[9]] + b[10..12] + b[12..16];
    assert b == b[..16] + b[16..end] + b[end..];
  }

  // ----- The buffers

  lemma SplicedOn(buffer: seq<byte>, at: nat, a: seq<byte>, b: seq<byte>)
    requires at + |a| + |b| <= |buffer|
    ensures Spliced(Spliced(buffer, at, a), at + |a|, b) == Spliced(buffer, at, a + b)
  {
  }

  // Writes on behind what has been written since the start.
  method PutNext(bytes: array<byte>, at: nat, more: seq<byte>, ghost before: seq<byte>, ghost start: nat,
                 ghost done: seq<byte>)
    requires start + |done| == at && at + |more| <= bytes.Length == |before|
    requires bytes[..] == Spliced(before, start, done)
    modifies bytes
    ensures bytes[..] == Spliced(before, start, done + more)
  {
    SplicedOn(before, start, done, more);
    Put(bytes, at, more);
  }

  method EncodeItem(bytes: array<byte>, cursor: nat, x: RawItem) returns (r: Result<nat, HistoryError>)
    requires cursor <= bytes.Length
    modifies bytes
    ensures r == if cursor + |ItemCode(x)| > bytes.Length then Err(HistoryPageFull) else Ok(cursor + |ItemCode(x)|)
    ensures bytes[..] == if r.Ok? then Spliced(old(bytes[..]), cursor, ItemCode(x)) else old(bytes[..])
  {
    if cursor + 2 + |x.lower| + |x.upper| + 44 > bytes.Length { return Err(HistoryPageFull); }
    hide Spliced, KeyCode, Little;
    ghost var before := bytes[..];
    var lower, upper, offset, length := KeyCode(x.lower), KeyCode(x.upper), Little(x.offset, 8), Little(x.length, 4);
    var at := cursor + |lower|;
    Put(bytes, cursor, lower);
    PutNext(bytes, at, upper, before, cursor, lower);
    at := at + |upper|;
    PutNext(bytes, at, x.digest, before, cursor, lower + upper);
    PutNext(bytes, at + 32, offset, before, cursor, lower + upper + x.digest);
    PutNext(bytes, at + 40, length, before, cursor, lower + upper + x.digest + offset);
    return Ok(at + 44);
  }

  lemma {:induction false} CodeGrows(items: seq<RawItem>, x: RawItem)
    ensures ItemsCode(items + [x]) == ItemsCode(items) + ItemCode(x)
  {
    hide ItemCode;
    if items == [] {
      assert [x][1..] == [];
    } else {
      assert (items + [x])[1..] == items[1..] + [x];
      CodeGrows(items[1..], x);
    }
  }

  lemma {:induction false} CodeOfFront(items: seq<RawItem>, n: nat)
    requires n <= |items|
    ensures |ItemsCode(items[..n])| <= |ItemsCode(items)|
    decreases |items| - n
  {
    if n == |items| {
      assert items[..n] == items;
    } else {
      assert items[..n + 1] == items[..n] + [items[n]];
      CodeGrows(items[..n], items[n]);
      CodeOfFront(items, n + 1);
    }
  }

  // The first bytes of a page while its items are written: the end is not known yet.
  function Begun(p: RawPage, code: seq<byte>): seq<byte>
    requires |p.items| <= FANOUT && HEADER_BYTES + |code| <= PAGE_BYTES
  {
    MAGIC + [p.level as byte, |p.items| as byte] + Zeros(6) + code + Zeros(PAGE_BYTES - HEADER_BYTES - |code|)
  }

  lemma BegunGrows(p: RawPage, code: seq<byte>, more: seq<byte>)
    requires |p.items| <= FANOUT && HEADER_BYTES + |code + more| <= PAGE_BYTES
    ensures Spliced(Begun(p, code), HEADER_BYTES + |code|, more) == Begun(p, code + more)
  {
    var zeros := Zeros(PAGE_BYTES - HEADER_BYTES - |code|);
    assert zeros[|more|..] == Zeros(PAGE_BYTES - HEADER_BYTES - |code + more|);
  }

  lemma BegunEnds(p: RawPage)
    requires FitsPage(p)
    ensures var code := ItemsCode(p.items);
      Spliced(Begun(p, code), 10, Little(HEADER_BYTES + |code|, 2)) == PageCode(p)
  {
    hide Little;
    assert Zeros(6) == Zeros(2) + Zeros(4);
  }

  method WritePage(p: RawPage) returns (r: Result<array<byte>, HistoryError>)
    requires |p.items| <= FANOUT
    ensures r.Ok? <==> FitsPage(p)
    ensures r.Ok? ==> fresh(r.value) && r.value[..] == PageCode(p)
    ensures r.Err? ==> r.error == HistoryPageFull
  {
    hide ItemCode, ItemsCode, Spliced, Begun, Little;
    var bytes := new byte[PAGE_BYTES](_ => 0);
    assert bytes[..] == Zeros(PAGE_BYTES);
    Put(bytes, 0, MAGIC);
    bytes[8], bytes[9] := p.level as byte, |p.items| as byte;
    var cursor := HEADER_BYTES;
    BegunFirst(p);
    assert bytes[..] == Begun(p, []);
    assert p.items[..0] == [];
    for i := 0 to |p.items|
      invariant bytes.Length == PAGE_BYTES && fresh(bytes)
      invariant cursor == HEADER_BYTES + |ItemsCode(p.items[..i])| <= PAGE_BYTES
      invariant bytes[..] == Begun(p, ItemsCode(p.items[..i]))
    {
      assert p.items[..i + 1] == p.items[..i] + [p.items[i]];
      CodeGrows(p.items[..i], p.items[i]);
      CodeOfFront(p.items, i + 1);
      var next := EncodeItem(bytes, cursor, p.items[i]);
      if next.Err? { return Err(next.error); }
      BegunGrows(p, ItemsCode(p.items[..i]), ItemCode(p.items[i]));
      cursor := next.value;
    }
    assert p.items[..|p.items|] == p.items;
    BegunEnds(p);
    Put(bytes, 10, Little(cursor, 2));
    return Ok(bytes);
  }

  lemma BegunFirst(p: RawPage)
    requires |p.items| <= FANOUT
    ensures Spliced(Zeros(PAGE_BYTES), 0, MAGIC)[8 := p.level as byte][9 := |p.items| as byte] == Begun(p, [])
    ensures ItemsCode([]) == []
  {
  }

  // What is still to be decoded, behind the items already read.
  function Behind(items: seq<RawItem>, r: Result<(seq<RawItem>, nat), HistoryError>)
    : Result<(seq<RawItem>, nat), HistoryError>
  {
    if r.Err? then r else Ok((items + r.value.0, r.value.1))
  }

  method ReadPage(b: seq<byte>) returns (r: Result<RawPage, HistoryError>)
    ensures r == Decode(b)
  {
    hide DecodeItem, Follows;
    if !HeaderOk(b) { return Err(InvalidHistoryPage); }
    var end, level, count: nat := Get(b, 10, 2), b[8] as nat, b[9] as nat;
    var items, cursor := [], HEADER_BYTES;
    var previous: Option<Key> := None;
    ghost var whole := DecodeItems(b[..end], HEADER_BYTES, count, level, None);
    assert whole == Behind([], whole) by { if whole.Ok? { assert [] + whole.value.0 == whole.value.0; } }
    for i := 0 to count
      invariant |items| == i && whole == Behind(items, DecodeItems(b[..end], cursor, count - i, level, previous))
    {
      var item := DecodeItem(b[..end], cursor);
      if item.Err? { return Err(InvalidHistoryPage); }
      var (x, next) := item.value;
      if !Follows(level, previous, x) { return Err(InvalidHistoryPage); }
      ghost var rest := DecodeItems(b[..end], next, count - i - 1, level, Some(x.upper));
      if rest.Ok? { assert items + ([x] + rest.value.0) == (items + [x]) + rest.value.0; }
      items, cursor, previous := items + [x], next, Some(x.upper);
    }
    assert items + [] == items;
    if cursor != end { return Err(InvalidHistoryPage); }
    return Ok(RawPage(level, items));
  }

  // ----- Pages of the directory

  // Offsets and lengths of a node fit their fields.
  predicate Small(n: Node) {
    n.level < 256 && forall i :: 0 <= i < |n.items| ==>
      n.items[i].offset < 0x1_0000_0000_0000_0000 && n.items[i].length < 0x1_0000_0000
  }

  function RawItemOf(x: Item, sha: Digest -> Hash): RawItem
    requires x.offset < 0x1_0000_0000_0000_0000 && x.length < 0x1_0000_0000
  {
    RawItem(x.lower, x.upper, sha(x.digest), x.offset, x.length)
  }

  function RawOf(n: Node, sha: Digest -> Hash): (p: RawPage)
    requires Small(n)
    ensures |p.items| == |n.items|
  {
    RawPage(n.level, seq(|n.items|, i requires 0 <= i < |n.items| && Small(n) => RawItemOf(n.items[i], sha)))
  }

  lemma {:induction false} CodeIsItemsBytes(items: seq<Item>, raws: seq<RawItem>)
    requires |items| == |raws|
    requires forall i :: 0 <= i < |items| ==> raws[i].lower == items[i].lower && raws[i].upper == items[i].upper
    ensures |ItemsCode(raws)| == ItemsBytes(items)
    decreases |items|
  {
    if items != [] {
      var n := |items| - 1;
      CodeIsItemsBytes(items[..n], raws[..n]);
      assert raws == raws[..n] + [raws[n]];
      CodeGrows(raws[..n], raws[n]);
    }
  }

  function PreviousKey(previous: Option<Key>, items: seq<RawItem>, i: nat): Option<Key>
    requires i <= |items|
  {
    if i == 0 then previous else Some(items[i - 1].upper)
  }

  lemma {:induction false} RunIsEach(level: u8, previous: Option<Key>, items: seq<RawItem>)
    ensures Run(level, previous, items)
            <==> forall i :: 0 <= i < |items| ==> Follows(level, PreviousKey(previous, items, i), items[i])
    decreases |items|
  {
    hide Follows;
    if items != [] {
      var rest := items[1..];
      RunIsEach(level, Some(items[0].upper), rest);
      assert forall i :: 0 <= i < |rest| ==>
          rest[i] == items[i + 1] && PreviousKey(Some(items[0].upper), rest, i) == PreviousKey(previous, items, i + 1);
      assert forall i :: 1 <= i < |items| ==>
          items[i] == rest[i - 1] && PreviousKey(Some(items[0].upper), rest, i - 1) == PreviousKey(previous, items, i);
    }
  }

  // The checks on a page's bytes are those on the page.
  lemma WellFormedIsOk(n: Node, sha: Digest -> Hash)
    requires Small(n)
    ensures PageOk(RawOf(n, sha)) <==> WellFormed(n)
  {
    hide ItemWellFormed, ItemsCode, Run, Follows, ItemsBytes;
    var p := RawOf(n, sha);
    RunIsEach(n.level, None, p.items);
    CodeIsItemsBytes(n.items, p.items);
    forall i | 0 <= i < |n.items|
      ensures Follows(n.level, PreviousKey(None, p.items, i), p.items[i]) <==> ItemWellFormed(n, i)
    {
      FollowsIsWellFormed(n, sha, i);
    }
  }

  lemma FollowsIsWellFormed(n: Node, sha: Digest -> Hash, i: nat)
    requires Small(n) && i < |n.items|
    ensures var p := RawOf(n, sha);
      Follows(n.level, PreviousKey(None, p.items, i), p.items[i]) <==> ItemWellFormed(n, i)
  {
    hide Compare, At;
    if i > 0 { KeysAreOrdered(n.items[i].lower, n.items[i - 1].upper); }
  }

  // Reading a stored page by its bytes takes it exactly when the typed reader does.
  lemma ReadIsDecode(log: seq<Object>, offset: nat, n: Node, sha: Digest -> Hash)
    requires Small(n) && |n.items| <= FANOUT && offset < |log| && log[offset] == PageObject(n)
    ensures ReadNode(log, offset, NodeDigest(n)) == Ok(n)
            <==> FitsPage(RawOf(n, sha)) && Decode(PageCode(RawOf(n, sha))) == Ok(RawOf(n, sha))
  {
    hide WellFormed, Decode, PageCode, RawOf, NodeDigest;
    WellFormedIsOk(n, sha);
    if WellFormed(n) { DecodedOfPage(RawOf(n, sha)); }
    if FitsPage(RawOf(n, sha)) && Decode(PageCode(RawOf(n, sha))).Ok? { PageOfDecoded(PageCode(RawOf(n, sha))); }
  }

  // Two pages with one encoding are one page, unless two of their digests collide.
  lemma BytesPinPage(n: Node, m: Node, sha: Digest -> Hash)
    requires Small(n) && Small(m) && WellFormed(n) && WellFormed(m)
    requires forall i, j :: 0 <= i < |n.items| && 0 <= j < |m.items| ==>
               sha(n.items[i].digest) == sha(m.items[j].digest) ==> n.items[i].digest == m.items[j].digest
    requires FitsPage(RawOf(n, sha)) && FitsPage(RawOf(m, sha)) && PageCode(RawOf(n, sha)) == PageCode(RawOf(m, sha))
    ensures n == m
  {
    hide WellFormed, Decode, PageCode, FitsPage;
    WellFormedIsOk(n, sha);
    WellFormedIsOk(m, sha);
    DecodedOfPage(RawOf(n, sha));
    DecodedOfPage(RawOf(m, sha));
    assert RawOf(n, sha).items == RawOf(m, sha).items && |n.items| == |m.items|;
    forall i | 0 <= i < |n.items| ensures n.items[i] == m.items[i] {
      assert RawOf(n, sha).items[i] == RawOf(m, sha).items[i];
    }
    assert n.items == m.items;
  }
}
