/** Point lookup in the bytes of a table: binary search of the index through its restart array, then
    of one data block. */
module PointLookup {
  import opened Wrappers
  import opened Arithmetic
  import opened Lsm
  import opened Compaction
  import opened Varint
  import opened TableLayout
  import opened TableBytes

  /** The bytes of a table file, and what the host says about it: where the index and its restart
      array are, how many blocks there are, and which keys it spans. */
  datatype File = File(bytes: seq<nat>, indexOffset: nat, restartOffset: nat, blocks: nat, smallest: Key, largest: Key)

  /** The bytes s stand at offset at. */
  predicate At(bytes: seq<nat>, at: nat, s: seq<nat>) {
    at + |s| <= |bytes| && bytes[at..at + |s|] == s
  }

  /** The parts of the table are where the file says; what lies between and behind them does not
      matter. */
  ghost predicate HoldsTable(f: File, t: Table) {
    && At(f.bytes, 0, DataBytes(t.data)) && At(f.bytes, f.indexOffset, IndexBlock(t.index))
    && At(f.bytes, f.restartOffset, Restarts(t.index)) && f.blocks == |t.index|
    && At(f.bytes, f.restartOffset + 4 * |t.index|, Fixed(|t.index|, 4))
    && f.smallest == t.smallest && f.largest == t.largest
  }

  /** The layout of a table file: data, filter, index, restart array with its count, and the rest. */
  function FileOf(t: Table, filter: seq<nat>, more: seq<nat>): File {
    var data, index := DataBytes(t.data), IndexBlock(t.index);
    File(data + filter + index + (Restarts(t.index) + (Fixed(|t.index|, 4) + more)),
         |data| + |filter|, |data| + |filter| + |index|, |t.index|, t.smallest, t.largest)
  }

  lemma FileHoldsTable(t: Table, filter: seq<nat>, more: seq<nat>)
    ensures HoldsTable(FileOf(t, filter, more), t)
  {
    hide DataBytes, IndexBlock, Restarts, Fixed;
    Parts(DataBytes(t.data), filter, IndexBlock(t.index), Restarts(t.index), Fixed(|t.index|, 4), more);
  }

  lemma Parts(a: seq<nat>, b: seq<nat>, c: seq<nat>, d: seq<nat>, e: seq<nat>, z: seq<nat>)
    ensures var s := a + b + c + (d + (e + z));
            && At(s, 0, a) && At(s, |a| + |b|, c) && At(s, |a| + |b| + |c|, d) && At(s, |a| + |b| + |c| + |d|, e)
  {
  }

  // ----- searching one block

  predicate EntriesOk(b: seq<Entry>, e: nat) {
    forall k :: 0 <= k < |b| ==> EntryOk(b[k], e)
  }

  /** The bytes at h are those of the entries b, before the restart array that its size counts. */
  ghost predicate BlockIn(bytes: seq<nat>, h: Handle, b: seq<Entry>, e: nat) {
    h.size == |b| * e + RestartSize && EntriesOk(b, e) && At(bytes, h.offset, DataBytes(Items(b)))
  }

  lemma EntryInBlock(b: seq<Entry>, k: nat, e: nat)
    requires EntriesOk(b, e) && k < |b|
    ensures k * e <= |DataBytes(Items(b))| == |b| * e
    ensures ReadEntry(DataBytes(Items(b))[k * e..]) == Some((b[k], e))
  {
    hide DataBytes, EntryOk, ReadEntry, Parse, EntryBytes;
    BlockLength(b, e);
    BlockLength(b[..k], e);
    assert Items(b) == Items(b[..k]) + ([Item(b[k])] + Items(b[k + 1..]));
    DataBytesAppend(Items(b[..k]), [Item(b[k])] + Items(b[k + 1..]));
    FirstBytes(b[k], Items(b[k + 1..]));
    ParseEntry(b[k], e, DataBytes(Items(b[k + 1..])));
    Monotone(k, |b|, e);
  }

  lemma BlockLength(b: seq<Entry>, e: nat)
    requires EntriesOk(b, e)
    ensures |DataBytes(Items(b))| == |b| * e
  {
    hide EntryOk, DataBytes;
    DataBytesSize(Items(b), e);
    SizeItems(b, e);
  }

  lemma FirstBytes(x: Entry, more: seq<Item>)
    ensures DataBytes([Item(x)] + more) == EntryBytes(x) + DataBytes(more)
  {
    assert ([Item(x)] + more)[1..] == more;
  }

  lemma BlockSpan(bytes: seq<nat>, h: Handle, b: seq<Entry>, e: nat)
    requires BlockIn(bytes, h, b, e)
    ensures h.size == |b| * e + RestartSize && h.offset + h.size - RestartSize <= |bytes|
  {
    hide EntriesOk, DataBytes;
    BlockLength(b, e);
  }

  /** Entry k of a block is read k entry sizes behind its start. */
  lemma ReadInBlock(bytes: seq<nat>, h: Handle, b: seq<Entry>, e: nat, k: nat)
    requires BlockIn(bytes, h, b, e) && k < |b|
    ensures h.offset + h.size - RestartSize <= |bytes| && h.size >= RestartSize
    ensures var block := bytes[h.offset..h.offset + h.size - RestartSize];
            |block| == |b| * e && k * e <= |block| && ReadEntry(block[k * e..]) == Some((b[k], e))
            && (k == 0 ==> ReadEntry(block) == Some((b[0], e)))
  {
    hide DataBytes, EntriesOk, ReadEntry;
    EntryInBlock(b, k, e);
    if k == 0 {
      var block := bytes[h.offset..h.offset + h.size - RestartSize];
      assert block[0..] == block;
    }
  }

  /** Binary search in the block at h. It finds just what plain search finds. */
  method SearchBlockBinary(bytes: seq<nat>, h: Handle, target: Key, ghost b: seq<Entry>, ghost e: nat, ghost n: nat)
      returns (r: Option<Entry>)
    requires e >= 1 && b != [] && BlockIn(bytes, h, b, e) && Sorted(b) && KeyLength(b, n)
    ensures r == Find(b, target)
  {
    hide ReadEntry, BlockIn, Less, Memcmp, Find;
    ReadInBlock(bytes, h, b, e, 0);
    var block := bytes[h.offset..h.offset + h.size - RestartSize];
    var first := ReadEntry(block).value;
    var size := first.1;
    var count := |block| / size;
    QuotientIs(|b| * e, e, |b|, 0);
    if count == 1 {
      var x := first.0;
      if |x.key| == |target| {
        CompareIsOrder(x.key, target);
        if Memcmp(x.key, target, |x.key|) == 0 {
          FindIn(b, 0);
          return Some(x);
        }
      }
      assert b == [x];
      NotFound(b, target);
      return None;
    }
    var left, right := 0, count - 1;
    while left <= right
      invariant 0 <= left <= right + 1 <= |b|
      invariant |target| == n ==> forall j :: 0 <= j < left ==> Less(b[j].key, target)
      invariant |target| == n ==> forall j :: right < j < |b| ==> Less(target, b[j].key)
      decreases right - left
    {
      var mid := left + (right - left) / 2;
      ReadInBlock(bytes, h, b, e, mid);
      var x := ReadEntry(block[mid * size..]).value.0;
      var cmp := if |x.key| == |target| then Memcmp(x.key, target, |x.key|) else |x.key| - |target|;
      CompareIsOrder(x.key, target);
      if cmp == 0 {
        FindIn(b, mid);
        return Some(x);
      }
      LessTotal(x.key, target);
      if cmp < 0 {
        forall j | 0 <= j < mid && |target| == n ensures Less(b[j].key, target) {
          LessTrans(b[j].key, x.key, target);
        }
        left := mid + 1;
      } else {
        forall j | mid < j < |b| && |target| == n ensures Less(target, b[j].key) {
          LessTrans(target, x.key, b[j].key);
        }
        right := mid - 1;
      }
    }
    forall j | 0 <= j < |b| ensures b[j].key != target {
      LessTotal(target, target);
    }
    NotFound(b, target);
    return None;
  }

  lemma NotFound(b: seq<Entry>, target: Key)
    requires forall j :: 0 <= j < |b| ==> b[j].key != target
    ensures Find(b, target) == None
  {
  }

  /** Linear search in the block at h, which stops at the first larger key. */
  method SearchBlockLinear(bytes: seq<nat>, h: Handle, target: Key, ghost b: seq<Entry>, ghost e: nat, ghost n: nat)
      returns (r: Option<Entry>)
    requires e >= 1 && BlockIn(bytes, h, b, e) && Sorted(b) && KeyLength(b, n)
    ensures r == Find(b, target)
  {
    hide ReadEntry, Less, Memcmp, Find, BlockIn;
    BlockSpan(bytes, h, b, e);
    var block := bytes[h.offset..h.offset + h.size - RestartSize];
    var p := 0;
    ghost var k := 0;
    while p < |block|
      invariant 0 <= k <= |b| && p == k * e
      invariant forall j :: 0 <= j < k ==> b[j].key != target
      decreases |b| - k
    {
      InBlock(k, |b|, e);
      ReadInBlock(bytes, h, b, e, k);
      var read := ReadEntry(block[p..]).value;
      var x := read.0;
      if |x.key| == |target| {
        CompareIsOrder(x.key, target);
        var cmp := Memcmp(x.key, target, |x.key|);
        if cmp == 0 {
          FindIn(b, k);
          return Some(x);
        }
        if cmp > 0 {
          LessTotal(x.key, target);
          forall j | 0 <= j < |b| ensures b[j].key != target {
            if j > k {
              LessTrans(target, x.key, b[j].key);
              LessTotal(target, target);
            }
          }
          NotFound(b, target);
          return None;
        }
      }
      assert (k + 1) * e == k * e + e;
      p := p + read.1;
      k := k + 1;
    }
    InBlock(k, |b|, e);
    NotFound(b, target);
    return None;
  }

  lemma InBlock(k: nat, n: nat, e: nat)
    requires e >= 1
    ensures k * e < n * e <==> k < n
  {
  }

  // ----- searching the index

  /** Index entry i, by way of the i-th restart offset. */
  function ReadHandle(f: File, i: nat): Option<Handle> {
    var at := f.restartOffset + 4 * i;
    if at + 4 > |f.bytes| then None
    else
      var off := f.indexOffset + Unfix(f.bytes[at..at + 4]);
      if off > |f.bytes| then None else ParseIndex(f.bytes[off..])
  }

  ghost predicate HandlesRead(f: File, index: seq<Handle>) {
    f.blocks == |index| && forall i :: 0 <= i < |index| ==> ReadHandle(f, i) == Some(index[i])
  }

  lemma Within(bytes: seq<nat>, at: nat, s: seq<nat>, i: nat, j: nat)
    requires At(bytes, at, s) && i <= j <= |s|
    ensures bytes[at + i..at + j] == s[i..j] && bytes[at + i..] == s[i..] + bytes[at + |s|..]
  {
    forall k | 0 <= k < |s| ensures bytes[at + k] == s[k] {
      assert bytes[at..at + |s|][k] == s[k];
    }
  }

  lemma HandleIsRead(f: File, t: Table, i: nat)
    requires HoldsTable(f, t) && i < |t.index| && HandleOk(t.index[i]) && |f.bytes| < WIDTH
    ensures ReadHandle(f, i) == Some(t.index[i])
  {
    hide DataBytes, IndexBlock, IndexBytes, Restarts, ParseIndex, Fixed, Unfix;
    var block := IndexBlock(t.index);
    var off := |IndexBlock(t.index[..i])|;
    RestartAt(t.index, i);
    Within(f.bytes, f.restartOffset, Restarts(t.index), 4 * i, 4 * i + 4);
    IndexBlockAt(t.index, i);
    RestartFits(off);
    var rest :| block[off..] == IndexBytes(t.index[i]) + rest;
    Within(f.bytes, f.indexOffset, block, off, |block|);
    var behind := f.bytes[f.indexOffset + |block|..];
    assert IndexBytes(t.index[i]) + rest + behind == IndexBytes(t.index[i]) + (rest + behind);
    IndexRoundTrip(t.index[i], rest + behind);
  }

  lemma RestartFits(off: nat)
    requires off < WIDTH
    ensures Unfix(Fixed(off, 4)) == off
  {
    hide Fixed, Unfix;
    assert Pow256(4) == WIDTH;
    FixedRoundTrip(off, 4);
  }

  /** The first block whose last key is not below the target. */
  method SearchIndex(f: File, target: Key, ghost index: seq<Handle>) returns (idx: nat)
    requires HandlesRead(f, index) && IndexSorted(index)
    ensures idx <= |index|
    ensures forall j :: 0 <= j < idx ==> Less(index[j].key, target)
    ensures forall j :: idx <= j < |index| ==> !Less(index[j].key, target)
  {
    hide ReadHandle, Less, Memcmp;
    var left, right := 0, f.blocks;
    while left < right
      invariant 0 <= left <= right <= |index|
      invariant forall j :: 0 <= j < left ==> Less(index[j].key, target)
      invariant forall j :: right <= j < |index| ==> !Less(index[j].key, target)
      decreases right - left
    {
      var mid := left + (right - left) / 2;
      var h := ReadHandle(f, mid).value;
      var cmp := Compare(h.key, target);
      CompareIsOrder(index[mid].key, target);
      LessTotal(index[mid].key, target);
      if cmp < 0 {
        forall j | 0 <= j < mid ensures Less(index[j].key, target) {
          LessTrans(index[j].key, index[mid].key, target);
        }
        left := mid + 1;
      } else {
        forall j | mid < j < |index| ensures !Less(index[j].key, target) {
          if Less(index[j].key, target) {
            LessTrans(index[mid].key, index[j].key, target);
          }
        }
        if cmp > 0 {
          right := mid;
        } else {
          forall j | 0 <= j < mid ensures Less(index[j].key, target) { }
          left, right := mid, mid;
        }
      }
    }
    return left;
  }

  // ----- a whole lookup

  ghost predicate BlocksOk(blocks: seq<seq<Entry>>, e: nat) {
    forall i :: 0 <= i < |blocks| ==> EntriesOk(blocks[i], e)
  }

  lemma {:induction false} FlatOk(blocks: seq<seq<Entry>>, e: nat)
    requires BlocksOk(blocks, e)
    ensures ItemsOk(Flat(blocks), e)
  {
    hide EntryOk;
    if blocks != [] {
      assert EntriesOk(blocks[0], e);
      FlatOk(blocks[1..], e);
    }
  }

  /** Every handle of a table leads to the bytes of its block and carries the block's last key. */
  lemma HandleLeadsToBlock(bytes: seq<nat>, blocks: seq<seq<Entry>>, e: nat, i: nat)
    requires BlocksOk(blocks, e) && i < |blocks| && At(bytes, 0, DataBytes(Flat(blocks)))
    ensures |IndexOf(blocks, 0, e)| == |blocks| && IndexOf(blocks, 0, e)[i].key == LastKey(blocks[i])
    ensures BlockIn(bytes, IndexOf(blocks, 0, e)[i], blocks[i], e)
  {
    hide Flat, IndexOf, DataSize, LastKey, DataBytes, EntriesOk;
    HandleAt(blocks, 0, e, i);
    FlatAround(blocks, i);
    var pre, more := Flat(blocks[..i]), [Restart] + Flat(blocks[i + 1..]);
    assert BlocksOk(blocks[..i], e);
    FlatOk(blocks[..i], e);
    DataBytesSize(pre, e);
    DataSizeIsSize(blocks[..i], e);
    DataBytesAppend(pre, Items(blocks[i]) + more);
    DataBytesAppend(Items(blocks[i]), more);
    Middle(bytes, DataBytes(pre), DataBytes(Items(blocks[i])), DataBytes(more));
  }

  lemma Middle(bytes: seq<nat>, a: seq<nat>, b: seq<nat>, c: seq<nat>)
    requires At(bytes, 0, a + (b + c))
    ensures At(bytes, |a|, b)
  {
    Within(bytes, 0, a + (b + c), |a|, |a| + |b|);
    assert (a + (b + c))[|a|..|a| + |b|] == b;
  }

  /** In a table below 4 GB every handle fits its encoding. */
  lemma HandleFits(blocks: seq<seq<Entry>>, e: nat, i: nat)
    requires BlocksOk(blocks, e) && i < |blocks| && blocks[i] != [] && |DataBytes(Flat(blocks))| < WIDTH
    ensures |IndexOf(blocks, 0, e)| == |blocks| && HandleOk(IndexOf(blocks, 0, e)[i])
  {
    hide Flat, IndexOf, DataSize, DataBytes, EntriesOk;
    var data := DataBytes(Flat(blocks));
    HandleLeadsToBlock(data, blocks, e, i);
    FlatOk(blocks, e);
    DataBytesSize(Flat(blocks), e);
    HandlesTile(blocks, e, i);
    HandleAt(blocks, 0, e, i);
    if i + 1 < |blocks| {
      HandleAt(blocks, 0, e, i + 1);
      SizesWithin(blocks, e, i);
    }
    KeyShort(blocks[i], e);
  }

  lemma SizesWithin(blocks: seq<seq<Entry>>, e: nat, i: nat)
    requires i + 1 < |blocks|
    ensures DataSize(blocks[..i + 1], e) <= Size(Flat(blocks), e)
  {
    hide Flat, DataSize;
    assert blocks == blocks[..i + 1] + blocks[i + 1..];
    FlatAppend(blocks[..i + 1], blocks[i + 1..]);
    SizeAppend(Flat(blocks[..i + 1]), Flat(blocks[i + 1..]), e);
    DataSizeIsSize(blocks[..i + 1], e);
  }

  lemma KeyShort(b: seq<Entry>, e: nat)
    requires EntriesOk(b, e) && b != []
    ensures |LastKey(b)| + 11 <= e <= |b| * e
  {
    var x := b[|b| - 1];
    assert EntryOk(x, e);
    EncodeLength(0);
    EncodeLength(|x.key| + 8);
    EncodeLength(|x.value|);
    hide Encode, Fixed;
    Monotone(1, |b|, e);
  }

  /** A lookup returns the table's entry for the target, or nothing when there is none. For a
      target above the table's largest key, and only then, the code goes on to read a handle
      behind the index; past reports this. */
  method Get(f: File, target: Key, ghost t: Table, ghost blocks: seq<seq<Entry>>, ghost e: nat, ghost n: nat)
      returns (past: bool, r: Option<Entry>)
    requires e >= 1 && blocks != [] && t == TableOf(blocks, e) && Proper(blocks, n) && BlocksOk(blocks, e)
    requires HoldsTable(f, t) && |f.bytes| < WIDTH
    ensures past <==> Less(t.largest, target)
    ensures !past ==> r == Find(Concat(blocks), target)
  {
    hide Find, Sorted, TableOf, IndexOf, Flat, BlockIn, KeyLength, Less, Concat, BlocksOk, HandleOk, ReadHandle;
    IndexIsSorted(blocks, e);
    TableParts(blocks, e);
    TableIsRead(f, blocks, e);
    var idx := SearchIndex(f, target, t.index);
    PastIndexExactly(blocks, e, target, idx);
    if idx >= f.blocks {
      return true, None;
    }
    HandleLeadsToBlock(f.bytes, blocks, e, idx);
    BlockSorted(blocks, idx);
    BlockKeys(blocks, idx, n);
    past := false;
    var h := ReadHandle(f, idx).value;
    r := SearchBlockBinary(f.bytes, h, target, blocks[idx], e, n);
    OnlyInBlock(blocks, target, idx);
  }

  lemma TableIsRead(f: File, blocks: seq<seq<Entry>>, e: nat)
    requires HoldsTable(f, TableOf(blocks, e)) && |f.bytes| < WIDTH && BlocksOk(blocks, e)
    requires forall i :: 0 <= i < |blocks| ==> blocks[i] != []
    ensures HandlesRead(f, IndexOf(blocks, 0, e)) && At(f.bytes, 0, DataBytes(Flat(blocks)))
  {
    hide ReadHandle, TableOf, IndexOf, Flat, BlocksOk, HandleOk, DataBytes, IndexBlock, Restarts;
    TableParts(blocks, e);
    IndexLength(blocks, 0, e);
    forall i | 0 <= i < |blocks| ensures ReadHandle(f, i) == Some(IndexOf(blocks, 0, e)[i]) {
      HandleFits(blocks, e, i);
      HandleIsRead(f, TableOf(blocks, e), i);
    }
  }
}
