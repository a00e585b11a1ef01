/** Tables of the key-value store as the compaction and lookup programs see them: keys, entries,
    and streams of entries cut into blocks by restart markers. */
module Lsm {
  import opened Wrappers

  /** User keys: strings of bytes. */
  type Key = seq<nat>

  /** Byte-wise order; a proper prefix comes first. */
  predicate Less(a: Key, b: Key) {
    b != [] && (a == [] || a[0] < b[0] || (a[0] == b[0] && Less(a[1..], b[1..])))
  }

  lemma {:induction false} LessTrans(a: Key, b: Key, c: Key)
    requires Less(a, b) && Less(b, c)
    ensures Less(a, c)
  {
    if a != [] && a[0] == b[0] && b[0] == c[0] {
      LessTrans(a[1..], b[1..], c[1..]);
    }
  }

  lemma {:induction false} LessTotal(a: Key, b: Key)
    ensures Less(a, b) || a == b || Less(b, a)
    ensures !(Less(a, b) && Less(b, a)) && !Less(a, a)
  {
    if a != [] && b != [] && a[0] == b[0] {
      LessTotal(a[1..], b[1..]);
      assert a == [a[0]] + a[1..] && b == [b[0]] + b[1..];
    }
    if a != [] {
      LessTotal(a[1..], a[1..]);
    }
  }

  function Sign(x: int, y: int): int {
    if x < y then -1 else if x > y then 1 else 0
  }

  /** memcmp on the first n bytes. */
  function Memcmp(a: Key, b: Key, n: nat): int
    requires n <= |a| && n <= |b|
  {
    if n == 0 then 0
    else if a[0] != b[0] then Sign(a[0], b[0])
    else Memcmp(a[1..], b[1..], n - 1)
  }

  /** The comparison of the index search: the common length first, then the lengths. */
  function Compare(a: Key, b: Key): int {
    var c := Memcmp(a, b, if |a| < |b| then |a| else |b|);
    if c == 0 then |a| - |b| else c
  }

  lemma {:induction false} CompareIsOrder(a: Key, b: Key)
    ensures Compare(a, b) < 0 <==> Less(a, b)
    ensures Compare(a, b) == 0 <==> a == b
    ensures |a| == |b| ==> Compare(a, b) == Memcmp(a, b, |a|)
  {
    if a != [] && b != [] {
      CompareIsOrder(a[1..], b[1..]);
      assert a == [a[0]] + a[1..] && b == [b[0]] + b[1..];
    }
  }

  /** tag holds the eight internal bytes behind the user key. */
  datatype Entry = Entry(key: Key, tag: nat, value: seq<nat>)

  /** A table's data region: entries, and after each block a restart array of 8 bytes with a
      trailer of 5. */
  datatype Item = Item(entry: Entry) | Restart

  const RestartSize: nat := 8
  const TrailerSize: nat := 5
  const MarkSize: nat := 13

  function ItemSize(i: Item, e: nat): nat {
    if i.Restart? then MarkSize else e
  }

  function Size(items: seq<Item>, e: nat): nat {
    if items == [] then 0 else ItemSize(items[0], e) + Size(items[1..], e)
  }

  function Items(es: seq<Entry>): (r: seq<Item>)
    ensures |r| == |es| && forall i :: 0 <= i < |es| ==> r[i] == Item(es[i])
  {
    seq(|es|, i requires 0 <= i < |es| => Item(es[i]))
  }

  /** Entries grouped into blocks, laid out. */
  function Flat(blocks: seq<seq<Entry>>): seq<Item> {
    if blocks == [] then [] else Items(blocks[0]) + [Restart] + Flat(blocks[1..])
  }

  function Concat(blocks: seq<seq<Entry>>): seq<Entry> {
    if blocks == [] then [] else blocks[0] + Concat(blocks[1..])
  }

  lemma {:induction false} FlatAppend(a: seq<seq<Entry>>, b: seq<seq<Entry>>)
    ensures Flat(a + b) == Flat(a) + Flat(b)
  {
    if a == [] {
      assert a + b == b;
    } else {
      FlatAppend(a[1..], b);
      assert (a + b)[1..] == a[1..] + b && (a + b)[0] == a[0];
      assert Flat(a + b) == Items(a[0]) + [Restart] + (Flat(a[1..]) + Flat(b));
    }
  }

  lemma {:induction false} ConcatAppend(a: seq<seq<Entry>>, b: seq<seq<Entry>>)
    ensures Concat(a + b) == Concat(a) + Concat(b)
  {
    if a == [] {
      assert a + b == b;
    } else {
      ConcatAppend(a[1..], b);
      assert (a + b)[1..] == a[1..] + b && (a + b)[0] == a[0];
      assert Concat(a + b) == a[0] + (Concat(a[1..]) + Concat(b));
    }
  }

  lemma {:induction false} SizeAppend(a: seq<Item>, b: seq<Item>, e: nat)
    ensures Size(a + b, e) == Size(a, e) + Size(b, e)
  {
    if a == [] {
      assert a + b == b;
    } else {
      SizeAppend(a[1..], b, e);
      assert (a + b)[1..] == a[1..] + b;
    }
  }

  lemma {:induction false} SizeItems(es: seq<Entry>, e: nat)
    ensures Size(Items(es), e) == |es| * e
  {
    if es != [] {
      SizeItems(es[1..], e);
      assert Items(es)[1..] == Items(es[1..]);
    }
  }

  /** The entries of a data region. */
  function EntriesOf(items: seq<Item>): seq<Entry> {
    if items == [] then []
    else (if items[0].Restart? then [] else [items[0].entry]) + EntriesOf(items[1..])
  }

  lemma {:induction false} EntriesOfItems(es: seq<Entry>, more: seq<Item>)
    ensures EntriesOf(Items(es) + more) == es + EntriesOf(more)
  {
    if es == [] {
      assert Items(es) + more == more;
    } else {
      EntriesOfItems(es[1..], more);
      assert (Items(es) + more)[1..] == Items(es[1..]) + more;
      assert es == [es[0]] + es[1..];
    }
  }

  lemma {:induction false} EntriesOfFlat(blocks: seq<seq<Entry>>)
    ensures EntriesOf(Flat(blocks)) == Concat(blocks)
  {
    if blocks != [] {
      var more := [Restart] + Flat(blocks[1..]);
      assert Items(blocks[0]) + [Restart] + Flat(blocks[1..]) == Items(blocks[0]) + more;
      EntriesOfItems(blocks[0], more);
      EntriesOfFlat(blocks[1..]);
      assert more[1..] == Flat(blocks[1..]);
    }
  }

  // ----- the block rule

  /** A block is closed by the entry that brings it to t bytes or more. */
  predicate NotOverfull(b: seq<Entry>, t: int, e: nat) {
    |b| >= 1 && (|b| > 1 ==> (|b| - 1) * e < t)
  }

  predicate Full(b: seq<Entry>, t: int, e: nat) {
    NotOverfull(b, t, e) && |b| * e >= t
  }

  /** All blocks are full but perhaps the last. */
  predicate Legal(blocks: seq<seq<Entry>>, t: int, e: nat) {
    && (forall i :: 0 <= i < |blocks| ==> NotOverfull(blocks[i], t, e))
    && (forall i :: 0 <= i < |blocks| - 1 ==> Full(blocks[i], t, e))
  }

  // ----- sorted runs and their union

  predicate Sorted(es: seq<Entry>) {
    forall i, j :: 0 <= i < j < |es| ==> Less(es[i].key, es[j].key)
  }

  predicate KeyLength(es: seq<Entry>, n: nat) {
    forall i :: 0 <= i < |es| ==> |es[i].key| == n
  }

  /** Plain search. */
  function Find(es: seq<Entry>, target: Key): (r: Option<Entry>)
    ensures r.Some? ==> r.value in es && r.value.key == target
    ensures r.None? ==> forall x :: x in es ==> x.key != target
  {
    if es == [] then None
    else if es[0].key == target then Some(es[0])
    else Find(es[1..], target)
  }

  lemma {:induction false} FindIn(es: seq<Entry>, i: nat)
    requires Sorted(es) && i < |es|
    ensures Find(es, es[i].key) == Some(es[i])
  {
    if i > 0 {
      LessTotal(es[0].key, es[i].key);
      FindIn(es[1..], i - 1);
    }
  }

  /** Merge keeps order and, of two entries for one key, the one of the first run. */
  function Merge(a: seq<Entry>, b: seq<Entry>): seq<Entry>
    decreases |a| + |b|
  {
    if a == [] then b
    else if b == [] then a
    else if a[0].key == b[0].key then [a[0]] + Merge(a[1..], b[1..])
    else if Less(a[0].key, b[0].key) then [a[0]] + Merge(a[1..], b)
    else [b[0]] + Merge(a, b[1..])
  }

  lemma {:induction false} MergeMembers(a: seq<Entry>, b: seq<Entry>, x: Entry)
    ensures x in Merge(a, b) ==> x in a || x in b
    decreases |a| + |b|
  {
    if a != [] && b != [] {
      MergeMembers(a[1..], b[1..], x);
      MergeMembers(a[1..], b, x);
      MergeMembers(a, b[1..], x);
    }
  }

  predicate AllAbove(es: seq<Entry>, k: Key) {
    forall i :: 0 <= i < |es| ==> Less(k, es[i].key)
  }

  lemma MergeAbove(a: seq<Entry>, b: seq<Entry>, k: Key)
    requires AllAbove(a, k) && AllAbove(b, k)
    ensures AllAbove(Merge(a, b), k)
  {
    var m := Merge(a, b);
    forall i | 0 <= i < |m| ensures Less(k, m[i].key) {
      MergeMembers(a, b, m[i]);
    }
  }

  lemma SortedTail(es: seq<Entry>, k: Key)
    requires Sorted(es) && es != []
    ensures Sorted(es[1..]) && AllAbove(es[1..], es[0].key)
    ensures Less(k, es[0].key) ==> AllAbove(es, k)
  {
    if Less(k, es[0].key) {
      forall i | 0 <= i < |es| ensures Less(k, es[i].key) {
        if i > 0 {
          LessTrans(k, es[0].key, es[i].key);
        }
      }
    }
  }

  /** The merge of sorted runs is sorted, strictly. */
  lemma {:induction false} MergeSorted(a: seq<Entry>, b: seq<Entry>)
    requires Sorted(a) && Sorted(b)
    ensures Sorted(Merge(a, b))
    decreases |a| + |b|
  {
    if a != [] && b != [] {
      SortedTail(a, b[0].key);
      SortedTail(b, a[0].key);
      LessTotal(a[0].key, b[0].key);
      if a[0].key == b[0].key {
        MergeSorted(a[1..], b[1..]);
        MergeAbove(a[1..], b[1..], a[0].key);
      } else if Less(a[0].key, b[0].key) {
        MergeSorted(a[1..], b);
        MergeAbove(a[1..], b, a[0].key);
      } else {
        MergeSorted(a, b[1..]);
        MergeAbove(a, b[1..], b[0].key);
      }
    }
  }

  lemma FindAbove(es: seq<Entry>, k: Key)
    requires AllAbove(es, k)
    ensures Find(es, k) == None
  {
    var r := Find(es, k);
    if r.Some? {
      LessTotal(k, k);
    }
  }

  /** Looking a key up in the merge is looking it up in the first run, then in the second. */
  lemma {:induction false} MergeFind(a: seq<Entry>, b: seq<Entry>, k: Key)
    requires Sorted(a) && Sorted(b)
    ensures Find(Merge(a, b), k) == if Find(a, k).Some? then Find(a, k) else Find(b, k)
    decreases |a| + |b|
  {
    if a != [] && b != [] {
      SortedTail(a, b[0].key);
      SortedTail(b, a[0].key);
      LessTotal(a[0].key, b[0].key);
      if a[0].key == b[0].key {
        MergeFind(a[1..], b[1..], k);
      } else if Less(a[0].key, b[0].key) {
        MergeFind(a[1..], b, k);
      } else {
        MergeFind(a, b[1..], k);
        if k == b[0].key {
          FindAbove(a, k);
        }
      }
    }
  }
}
