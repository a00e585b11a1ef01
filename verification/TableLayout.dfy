/** Where blocks, entries and index entries lie in a table, and how the order of the keys says which
    block may hold one. */
module TableLayout {
  import opened Wrappers
  import opened Lsm
  import opened Compaction

  // ----- what lies at a byte offset of a data region

  /** The item that starts at byte off, if one does. */
  function ItemAt(items: seq<Item>, off: nat, e: nat): Option<Item> {
    if items == [] then None
    else if off == 0 then Some(items[0])
    else if off < ItemSize(items[0], e) then None
    else ItemAt(items[1..], off - ItemSize(items[0], e), e)
  }

  lemma {:induction false} ItemAfter(a: seq<Item>, b: seq<Item>, off: nat, e: nat)
    requires e >= 1
    ensures ItemAt(a + b, Size(a, e) + off, e) == ItemAt(b, off, e)
  {
    if a == [] {
      assert a + b == b;
    } else {
      assert (a + b)[1..] == a[1..] + b;
      ItemAfter(a[1..], b, off, e);
    }
  }

  lemma {:induction false} IndexLength(blocks: seq<seq<Entry>>, off: nat, e: nat)
    ensures |IndexOf(blocks, off, e)| == |blocks|
  {
    if blocks != [] {
      IndexLength(blocks[1..], off + BlockSize(blocks[0], e), e);
    }
  }

  lemma {:induction false} HandleAt(blocks: seq<seq<Entry>>, off: nat, e: nat, i: nat)
    requires i < |blocks|
    ensures |IndexOf(blocks, off, e)| == |blocks|
    ensures IndexOf(blocks, off, e)[i]
            == Handle(LastKey(blocks[i]), off + DataSize(blocks[..i], e), |blocks[i]| * e + RestartSize)
  {
    IndexLength(blocks, off, e);
    if i > 0 {
      HandleAt(blocks[1..], off + BlockSize(blocks[0], e), e, i - 1);
      assert blocks[..i][1..] == blocks[1..][..i - 1];
    }
  }

  lemma FlatAround(blocks: seq<seq<Entry>>, i: nat)
    requires i < |blocks|
    ensures Flat(blocks) == Flat(blocks[..i]) + (Items(blocks[i]) + ([Restart] + Flat(blocks[i + 1..])))
  {
    hide Flat, Items;
    var tail := blocks[i..];
    assert blocks == blocks[..i] + tail;
    assert tail[1..] == blocks[i + 1..] && tail[0] == blocks[i];
    FlatAppend(blocks[..i], tail);
    FlatCons(tail);
  }

  lemma Reassociate(a: seq<Item>, b: seq<Item>, c: seq<Item>)
    ensures a + b + c == a + (b + c)
  {
  }

  lemma FlatCons(blocks: seq<seq<Entry>>)
    requires blocks != []
    ensures Flat(blocks) == Items(blocks[0]) + ([Restart] + Flat(blocks[1..]))
  {
    hide Items;
    Reassociate(Items(blocks[0]), [Restart], Flat(blocks[1..]));
  }

  /** The handles tile the data region, trailers included. */
  lemma HandlesTile(blocks: seq<seq<Entry>>, e: nat, i: nat)
    requires i < |blocks|
    ensures |IndexOf(blocks, 0, e)| == |blocks| && IndexOf(blocks, 0, e)[0].offset == 0
    ensures var h := IndexOf(blocks, 0, e)[i];
            h.offset + h.size + TrailerSize ==
              if i + 1 < |blocks| then IndexOf(blocks, 0, e)[i + 1].offset else Size(Flat(blocks), e)
  {
    HandleAt(blocks, 0, e, i);
    HandleAt(blocks, 0, e, 0);
    IndexAppend(blocks[..i], blocks[i], 0, e);
    assert blocks[..i] + [blocks[i]] == blocks[..i + 1];
    if i + 1 < |blocks| {
      HandleAt(blocks, 0, e, i + 1);
    } else {
      DataSizeIsSize(blocks, e);
      assert blocks[..i + 1] == blocks;
    }
  }

  // ----- which block may hold a key

  /** Every entry of an earlier block has a smaller key. */
  lemma {:induction false} BlockOrder(blocks: seq<seq<Entry>>, i: nat, x: Entry, j: nat, y: Entry)
    requires Sorted(Concat(blocks)) && i < j < |blocks| && x in blocks[i] && y in blocks[j]
    ensures Less(x.key, y.key)
  {
    var pre := blocks[..j];
    assert blocks == pre + blocks[j..];
    ConcatAppend(pre, blocks[j..]);
    InConcat(pre, i, x);
    InConcat(blocks[j..], 0, y);
    var es := Concat(blocks);
    var p :| 0 <= p < |Concat(pre)| && Concat(pre)[p] == x;
    var q :| 0 <= q < |Concat(blocks[j..])| && Concat(blocks[j..])[q] == y;
    assert es[p] == x && es[|Concat(pre)| + q] == y;
  }

  lemma {:induction false} InConcat(blocks: seq<seq<Entry>>, i: nat, x: Entry)
    requires i < |blocks| && x in blocks[i]
    ensures x in Concat(blocks)
  {
    if i > 0 {
      InConcat(blocks[1..], i - 1, x);
    }
  }

  lemma {:induction false} ConcatMember(blocks: seq<seq<Entry>>, x: Entry) returns (i: nat)
    requires x in Concat(blocks)
    ensures i < |blocks| && x in blocks[i]
  {
    if x in blocks[0] {
      i := 0;
    } else {
      i := ConcatMember(blocks[1..], x);
      i := i + 1;
    }
  }

  predicate IndexSorted(index: seq<Handle>) {
    forall i, j :: 0 <= i < j < |index| ==> Less(index[i].key, index[j].key)
  }

  lemma IndexIsSorted(blocks: seq<seq<Entry>>, e: nat)
    requires Sorted(Concat(blocks)) && forall i :: 0 <= i < |blocks| ==> blocks[i] != []
    ensures |IndexOf(blocks, 0, e)| == |blocks| && IndexSorted(IndexOf(blocks, 0, e))
    ensures forall i :: 0 <= i < |blocks| ==> IndexOf(blocks, 0, e)[i].key == LastKey(blocks[i])
  {
    IndexLength(blocks, 0, e);
    var index := IndexOf(blocks, 0, e);
    forall i | 0 <= i < |blocks| ensures index[i].key == LastKey(blocks[i]) {
      HandleAt(blocks, 0, e, i);
    }
    forall i, j | 0 <= i < j < |index| ensures Less(index[i].key, index[j].key) {
      BlockOrder(blocks, i, blocks[i][|blocks[i]| - 1], j, blocks[j][|blocks[j]| - 1]);
    }
  }

  /** The key of a block is at most its last key. */
  lemma LastIsLargest(blocks: seq<seq<Entry>>, i: nat, x: Entry)
    requires Sorted(Concat(blocks)) && i < |blocks| && x in blocks[i]
    ensures !Less(LastKey(blocks[i]), x.key) && Sorted(blocks[i])
  {
    hide Sorted, Concat, LastKey, Less;
    BlockSorted(blocks, i);
    LastOfBlock(blocks[i], x);
  }

  lemma LastOfBlock(b: seq<Entry>, x: Entry)
    requires Sorted(b) && x in b
    ensures !Less(LastKey(b), x.key)
  {
    hide Less;
    var k :| 0 <= k < |b| && b[k] == x;
    LessTotal(x.key, b[|b| - 1].key);
  }

  lemma BlockSorted(blocks: seq<seq<Entry>>, i: nat)
    requires Sorted(Concat(blocks)) && i < |blocks|
    ensures Sorted(blocks[i])
  {
    var pre, b := blocks[..i], blocks[i];
    assert blocks == pre + blocks[i..];
    ConcatAppend(pre, blocks[i..]);
    assert Concat(blocks[i..]) == b + Concat(blocks[i + 1..]);
    var n := |Concat(pre)|;
    assert forall k :: 0 <= k < |b| ==> Concat(blocks)[n + k] == b[k];
  }

  /** The target can only be in the block that the index names. */
  lemma OnlyInBlock(blocks: seq<seq<Entry>>, target: Key, idx: nat)
    requires Sorted(Concat(blocks)) && idx < |blocks|
    requires forall j :: 0 <= j < idx ==> Less(LastKey(blocks[j]), target)
    requires blocks[idx] != [] && !Less(LastKey(blocks[idx]), target)
    ensures Find(Concat(blocks), target) == Find(blocks[idx], target)
  {
    var all, b := Concat(blocks), blocks[idx];
    var f := Find(all, target);
    if f.Some? {
      var i := ConcatMember(blocks, f.value);
      LastIsLargest(blocks, i, f.value);
      if i > idx {
        BlockOrder(blocks, idx, b[|b| - 1], i, f.value);
      }
      BlockSorted(blocks, idx);
      var k :| 0 <= k < |b| && b[k] == f.value;
      FindIn(b, k);
    } else if Find(b, target).Some? {
      InConcat(blocks, idx, Find(b, target).value);
    }
  }

  ghost predicate Proper(blocks: seq<seq<Entry>>, n: nat) {
    && Sorted(Concat(blocks)) && KeyLength(Concat(blocks), n)
    && forall i :: 0 <= i < |blocks| ==> blocks[i] != []
  }

  /** The index search runs past the last handle exactly for targets above the largest key. */
  lemma PastIndexExactly(blocks: seq<seq<Entry>>, e: nat, target: Key, idx: nat)
    requires blocks != [] && forall i :: 0 <= i < |blocks| ==> blocks[i] != []
    requires |IndexOf(blocks, 0, e)| == |blocks| && idx <= |blocks|
    requires forall j :: 0 <= j < |blocks| ==> IndexOf(blocks, 0, e)[j].key == LastKey(blocks[j])
    requires forall j :: 0 <= j < idx ==> Less(IndexOf(blocks, 0, e)[j].key, target)
    requires forall j :: idx <= j < |blocks| ==> !Less(IndexOf(blocks, 0, e)[j].key, target)
    ensures idx < |blocks| <==> !Less(LastKey(Concat(blocks)), target)
  {
    hide Less, IndexOf, Concat;
    LastOfAll(blocks);
  }

  lemma TableParts(blocks: seq<seq<Entry>>, e: nat)
    ensures var t := TableOf(blocks, e);
            t.index == IndexOf(blocks, 0, e) && t.data == Flat(blocks) && t.largest == LastKey(Concat(blocks))
  {
  }

  lemma LastOfAll(blocks: seq<seq<Entry>>)
    requires blocks != [] && blocks[|blocks| - 1] != []
    ensures LastKey(Concat(blocks)) == LastKey(blocks[|blocks| - 1])
  {
    var m := |blocks| - 1;
    var pre, b := blocks[..m], blocks[m];
    assert blocks == pre + [b];
    ConcatAppend(pre, [b]);
    ConcatOne(b);
    hide Concat;
    assert Concat(blocks) == Concat(pre) + b;
  }

  lemma ConcatOne(b: seq<Entry>)
    ensures Concat([b]) == b
  {
    assert [b][1..] == [];
  }

  lemma BlockKeys(blocks: seq<seq<Entry>>, i: nat, n: nat)
    requires KeyLength(Concat(blocks), n) && i < |blocks|
    ensures KeyLength(blocks[i], n)
  {
    forall k | 0 <= k < |blocks[i]| ensures |blocks[i][k].key| == n {
      InConcat(blocks, i, blocks[i][k]);
    }
  }
}
