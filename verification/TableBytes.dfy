/** The bytes of tables: entries, markers, handles and the restart array, and that reading them
    where the programs read them gives back the items and handles they were written from. */
module TableBytes {
  import opened Wrappers
  import opened Lsm
  import opened Compaction
  import opened TableLayout
  import opened Varint

  // ----- numbers of fixed width, low byte first

  function Fixed(x: nat, n: nat): (s: seq<nat>)
    ensures |s| == n
  {
    if n == 0 then [] else [x % 256] + Fixed(x / 256, n - 1)
  }

  function Unfix(s: seq<nat>): nat {
    if s == [] then 0 else s[0] + 256 * Unfix(s[1..])
  }

  function Pow256(n: nat): nat {
    if n == 0 then 1 else 256 * Pow256(n - 1)
  }

  lemma {:induction false} FixedRoundTrip(x: nat, n: nat)
    requires x < Pow256(n)
    ensures Unfix(Fixed(x, n)) == x
  {
    if n > 0 {
      FixedRoundTrip(x / 256, n - 1);
      assert Fixed(x, n)[1..] == Fixed(x / 256, n - 1);
    }
  }

  // ----- entries and markers

  /** The restart array of a block with one restart point, and an empty trailer. */
  const MARK: seq<nat> := [0, 0, 0, 0, 1, 0, 0, 0]
  const TRAILER: seq<nat> := [0, 0, 0, 0, 0]

  function EntryBytes(x: Entry): seq<nat> {
    EncodeHeader(0, |x.key| + 8, |x.value|) + (x.key + (Fixed(x.tag, 8) + x.value))
  }

  function ItemBytes(i: Item): seq<nat> {
    if i.Restart? then MARK + TRAILER else EntryBytes(i.entry)
  }

  function DataBytes(items: seq<Item>): seq<nat> {
    if items == [] then [] else ItemBytes(items[0]) + DataBytes(items[1..])
  }

  /** Lengths and tags fit their fields, and every entry takes e bytes. */
  predicate EntryOk(x: Entry, e: nat) {
    |x.key| + 8 + |x.value| < WIDTH && x.tag < Pow256(8) && |EntryBytes(x)| == e
  }

  predicate ItemsOk(items: seq<Item>, e: nat) {
    forall i :: 0 <= i < |items| && items[i].Item? ==> EntryOk(items[i].entry, e)
  }

  /** What the programs read where an entry should start: its key, tag and value, and how many
      bytes it takes. */
  function ReadEntry(s: seq<nat>): Option<(Entry, nat)> {
    var h := DecodeEntry(s);
    if h.None? then None
    else
      var at, k, v := h.value.at, h.value.nonShared, h.value.valueLength;
      if k < 8 || at + k + v > |s| then None
      else Some((Entry(s[at..at + k - 8], Unfix(s[at + k - 8..at + k]), s[at + k..at + k + v]), at + k + v))
  }

  /** What the compaction reads at some byte: the marker test on eight bytes, then an entry. */
  function Parse(s: seq<nat>): Option<Item> {
    if |s| >= 8 && s[..8] == MARK then Some(Restart)
    else
      var r := ReadEntry(s);
      if r.None? then None else Some(Item(r.value.0))
  }

  lemma EncodeSmallHead(v: nat)
    ensures |Encode(v)| >= 1 && (v >= 8 ==> Encode(v)[0] != 0)
  {
  }

  lemma ZeroByte()
    ensures Encode(0) == [0]
  {
  }

  /** An entry never looks like a marker: its second byte is not zero. */
  lemma NotAMark(x: Entry, rest: seq<nat>)
    ensures |EntryBytes(x) + rest| >= 2 && (EntryBytes(x) + rest)[1] != MARK[1]
  {
    hide Encode, Fixed;
    ZeroByte();
    EncodeSmallHead(|x.key| + 8);
    var h := EncodeHeader(0, |x.key| + 8, |x.value|);
    assert h[1] == Encode(|x.key| + 8)[0];
    assert (EntryBytes(x) + rest)[1] == h[1];
  }

  lemma ParseEntry(x: Entry, e: nat, rest: seq<nat>)
    requires EntryOk(x, e)
    ensures ReadEntry(EntryBytes(x) + rest) == Some((x, e)) && Parse(EntryBytes(x) + rest) == Some(Item(x))
  {
    hide Encode, Decode, EncodeHeader, DecodeEntry, Fixed, Unfix, Pow256;
    var h := EncodeHeader(0, |x.key| + 8, |x.value|);
    var tag := Fixed(x.tag, 8);
    var s := EntryBytes(x) + rest;
    NotAMark(x, rest);
    assert s == h + (x.key + tag) + x.value + rest;
    EntryRoundTrip(0, x.key + tag, x.value, rest);
    FixedRoundTrip(x.tag, 8);
    Fields(h, x.key, tag, x.value, rest);
  }

  lemma Fields(h: seq<nat>, key: seq<nat>, tag: seq<nat>, value: seq<nat>, rest: seq<nat>)
    ensures var s := h + (key + tag) + value + rest;
            var a, b := |h| + |key|, |h| + |key| + |tag|;
            s[|h|..a] == key && s[a..b] == tag && s[b..b + |value|] == value
  {
  }

  lemma ParseMark(rest: seq<nat>)
    ensures Parse(MARK + rest) == Some(Restart)
  {
    assert (MARK + rest)[..8] == MARK;
  }

  lemma ParseFirst(i: Item, e: nat, rest: seq<nat>)
    requires i.Item? ==> EntryOk(i.entry, e)
    ensures Parse(ItemBytes(i) + rest) == Some(i) && |ItemBytes(i)| == ItemSize(i, e)
  {
    hide Parse, EntryBytes;
    if i.Item? {
      ParseEntry(i.entry, e, rest);
    } else {
      ParseMark(TRAILER + rest);
      assert MARK + TRAILER + rest == MARK + (TRAILER + rest);
    }
  }

  /** Where an item starts in a data region, its bytes give it back. */
  lemma {:induction false} ParseAt(items: seq<Item>, off: nat, e: nat)
    requires ItemsOk(items, e) && ItemAt(items, off, e).Some?
    ensures off <= |DataBytes(items)| && Parse(DataBytes(items)[off..]) == ItemAt(items, off, e)
  {
    hide Parse, ItemBytes, EntryOk;
    var first, rest := ItemBytes(items[0]), DataBytes(items[1..]);
    ParseFirst(items[0], e, rest);
    if off == 0 {
      assert DataBytes(items)[0..] == first + rest;
    } else {
      ParseAt(items[1..], off - |first|, e);
      assert DataBytes(items)[off..] == rest[off - |first|..];
    }
  }

  /** So the reader of a level finds item after item. */
  lemma ParseNext(items: seq<Item>, k: nat, e: nat)
    requires ItemsOk(items, e) && k < |items| && e >= 1
    ensures Size(items[..k], e) <= |DataBytes(items)|
    ensures Parse(DataBytes(items)[Size(items[..k], e)..]) == Some(items[k])
  {
    hide Parse, DataBytes, ItemsOk;
    assert items == items[..k] + items[k..];
    ItemAfter(items[..k], items[k..], 0, e);
    ParseAt(items, Size(items[..k], e), e);
  }

  lemma {:induction false} DataBytesSize(items: seq<Item>, e: nat)
    requires ItemsOk(items, e)
    ensures |DataBytes(items)| == Size(items, e)
  {
    hide ItemBytes, EntryOk;
    if items != [] {
      ParseFirst(items[0], e, []);
      DataBytesSize(items[1..], e);
    }
  }

  lemma {:induction false} DataBytesAppend(a: seq<Item>, b: seq<Item>)
    ensures DataBytes(a + b) == DataBytes(a) + DataBytes(b)
  {
    hide ItemBytes;
    if a == [] {
      assert a + b == b;
    } else {
      assert (a + b)[1..] == a[1..] + b;
      DataBytesAppend(a[1..], b);
    }
  }

  /** A level is read item by item, as far as its bytes go. */
  method ReadLevel(bytes: seq<nat>, e: nat, ghost level: seq<Item>) returns (items: seq<Item>)
    requires e >= 1 && ItemsOk(level, e) && bytes == DataBytes(level)
    ensures items == level
  {
    hide Parse, DataBytes, ItemsOk;
    DataBytesSize(level, e);
    items := [];
    var off := 0;
    ghost var k := 0;
    while off < |bytes|
      invariant 0 <= k <= |level| && items == level[..k] && off == Size(level[..k], e)
      decreases |level| - k
    {
      SizeBefore(level, k, e);
      ParseNext(level, k, e);
      var item := Parse(bytes[off..]).value;
      items := items + [item];
      off := off + ItemSize(item, e);
      k := k + 1;
    }
    SizeBefore(level, k, e);
  }

  /** Only the whole level has its size. */
  lemma SizeBefore(items: seq<Item>, k: nat, e: nat)
    requires k <= |items| && e >= 1
    ensures k < |items| ==> items[..k + 1] == items[..k] + [items[k]]
    ensures k < |items| ==> Size(items[..k + 1], e) == Size(items[..k], e) + ItemSize(items[k], e)
    ensures Size(items[..k], e) < Size(items, e) <==> k < |items|
  {
    var tail := items[k..];
    assert items == items[..k] + tail;
    SizeAppend(items[..k], tail, e);
    if k < |items| {
      assert items[..k + 1] == items[..k] + [items[k]];
      SizeAppend(items[..k], [items[k]], e);
      assert [items[k]][1..] == [];
    }
  }

  // ----- the index

  function HandleBytes(h: Handle): seq<nat> {
    Encode(h.offset) + Encode(h.size)
  }

  function IndexBytes(h: Handle): seq<nat> {
    EncodeHeader(0, |h.key|, |HandleBytes(h)|) + h.key + HandleBytes(h)
  }

  const WIDE: nat := 0x1_0000_0000_0000_0000

  predicate HandleOk(h: Handle) {
    h.offset < WIDE && h.size < WIDE && |h.key| + 20 < WIDTH
  }

  /** What the lookup reads of an index entry: its key, and two numbers of 64 bits. */
  function ParseIndex(s: seq<nat>): Option<Handle> {
    var h := DecodeEntry(s);
    if h.None? || h.value.shared != 0 || h.value.at + h.value.nonShared + h.value.valueLength > |s| then None
    else
      var at, k, v := h.value.at, h.value.nonShared, h.value.valueLength;
      var w := s[at + k..at + k + v];
      var a := Decode(w, 10);
      if a.None? || a.value.1 > |w| then None
      else
        var b := Decode(w[a.value.1..], 10);
        if b.None? then None else Some(Handle(s[at..at + k], a.value.0 % WIDE, b.value.0 % WIDE))
  }

  lemma HandleRoundTrip(h: Handle)
    requires HandleOk(h)
    ensures var w := HandleBytes(h);
            && Decode(w, 10) == Some((h.offset, |Encode(h.offset)|)) && |Encode(h.offset)| <= |w| <= 20
            && Decode(w[|Encode(h.offset)|..], 10) == Some((h.size, |Encode(h.size)|))
  {
    hide Encode, Decode, Groups;
    WidthsFit(h.offset);
    WidthsFit(h.size);
    RoundTrip(h.offset, Encode(h.size), 10);
    RoundTrip(h.size, [], 10);
    assert Encode(h.size) + [] == Encode(h.size);
    assert HandleBytes(h)[|Encode(h.offset)|..] == Encode(h.size);
  }

  /** An index entry gives back its handle. */
  lemma IndexRoundTrip(h: Handle, rest: seq<nat>)
    requires HandleOk(h)
    ensures ParseIndex(IndexBytes(h) + rest) == Some(h)
  {
    HandleRoundTrip(h);
    hide Encode, Decode, EncodeHeader, DecodeEntry, HandleBytes, ParseIndex;
    var w := HandleBytes(h);
    var hd := EncodeHeader(0, |h.key|, |w|);
    var s := IndexBytes(h) + rest;
    EntryRoundTrip(0, h.key, w, rest);
    KeyAndValue(hd, h.key, w, rest);
    ParseIndexIs(s, |hd|, h.key, w, h, |Encode(h.offset)|, |Encode(h.size)|);
  }

  lemma KeyAndValue(h: seq<nat>, key: seq<nat>, value: seq<nat>, rest: seq<nat>)
    ensures var s := h + key + value + rest;
            s[|h|..|h| + |key|] == key && s[|h| + |key|..|h| + |key| + |value|] == value
  {
  }

  lemma ParseIndexIs(s: seq<nat>, at: nat, key: seq<nat>, w: seq<nat>, h: Handle, i: nat, j: nat)
    requires DecodeEntry(s) == Some(Header(0, |key|, |w|, at)) && at + |key| + |w| <= |s| && i <= |w|
    requires s[at..at + |key|] == key == h.key && s[at + |key|..at + |key| + |w|] == w
    requires Decode(w, 10) == Some((h.offset, i)) && Decode(w[i..], 10) == Some((h.size, j)) && HandleOk(h)
    ensures ParseIndex(s) == Some(h)
  {
    hide Decode, DecodeEntry;
  }

  function IndexBlock(index: seq<Handle>): seq<nat> {
    if index == [] then [] else IndexBlock(index[..|index| - 1]) + IndexBytes(index[|index| - 1])
  }

  /** The offsets of the index entries, four bytes each. */
  function Restarts(index: seq<Handle>): (s: seq<nat>)
    ensures |s| == 4 * |index|
  {
    if index == [] then []
    else Restarts(index[..|index| - 1]) + Fixed(|IndexBlock(index[..|index| - 1])|, 4)
  }

  lemma {:induction false} IndexBlockAt(index: seq<Handle>, i: nat)
    requires i < |index|
    ensures |IndexBlock(index[..i])| <= |IndexBlock(index)|
    ensures exists rest :: IndexBlock(index)[|IndexBlock(index[..i])|..] == IndexBytes(index[i]) + rest
  {
    hide IndexBytes;
    var m := |index| - 1;
    var pre := index[..m];
    var off := |IndexBlock(index[..i])|;
    if i == m {
      assert IndexBlock(index)[off..] == IndexBytes(index[i]) + [];
    } else {
      IndexBlockAt(pre, i);
      assert pre[..i] == index[..i];
      var rest :| IndexBlock(pre)[off..] == IndexBytes(pre[i]) + rest;
      assert IndexBlock(index)[off..] == IndexBytes(index[i]) + (rest + IndexBytes(index[m]));
    }
  }

  lemma {:induction false} RestartAt(index: seq<Handle>, i: nat)
    requires i < |index|
    ensures Restarts(index)[4 * i..4 * i + 4] == Fixed(|IndexBlock(index[..i])|, 4)
  {
    hide IndexBlock, Fixed;
    var m := |index| - 1;
    if i < m {
      RestartAt(index[..m], i);
      assert index[..m][..i] == index[..i];
      assert Restarts(index)[4 * i..4 * i + 4] == Restarts(index[..m])[4 * i..4 * i + 4];
    }
  }
}
