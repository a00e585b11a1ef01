/** Compaction followed by lookup: two sorted levels go in, and every key is then answered as
    if the levels had been searched one after the other. */
module CompactThenRead {
  import opened Wrappers
  import opened Lsm
  import opened MergeStream
  import opened Compaction
  import opened Varint
  import opened TableLayout
  import opened TableBytes
  import opened PointLookup

  lemma {:induction false} JoinedMember(done: seq<seq<seq<Entry>>>, x: Entry)
    ensures x in Joined(done) <==> exists i :: 0 <= i < |done| && x in Concat(done[i])
  {
    hide Concat;
    if done != [] {
      var m := |done| - 1;
      JoinedMember(done[..m], x);
      assert x in Joined(done) <==> x in Joined(done[..m]) || x in Concat(done[m]);
      assert forall i :: 0 <= i < m ==> done[..m][i] == done[i];
    }
  }

  lemma {:induction false} PartSorted(done: seq<seq<seq<Entry>>>, i: nat)
    requires Sorted(Joined(done)) && i < |done|
    ensures Sorted(Concat(done[i]))
  {
    var m := |done| - 1;
    var pre, last := Joined(done[..m]), Concat(done[m]);
    if i == m {
      assert forall k :: 0 <= k < |last| ==> Joined(done)[|pre| + k] == last[k];
    } else {
      assert forall k :: 0 <= k < |pre| ==> Joined(done)[k] == pre[k];
      PartSorted(done[..m], i);
    }
  }

  lemma MergeKeyLength(a: seq<Entry>, b: seq<Entry>, n: nat)
    requires KeyLength(a, n) && KeyLength(b, n)
    ensures KeyLength(Merge(a, b), n)
  {
    var m := Merge(a, b);
    forall i | 0 <= i < |m| ensures |m[i].key| == n {
      MergeMembers(a, b, m[i]);
    }
  }

  lemma PartProper(done: seq<seq<seq<Entry>>>, tables: seq<Table>, limit: int, e: nat, i: nat, n: nat)
    requires FinishedOk(done, tables, limit, e) && i < |done| && Sorted(Joined(done)) && KeyLength(Joined(done), n)
    ensures Proper(done[i], n) && done[i] != [] && tables[i] == TableOf(done[i], e)
  {
    PartSorted(done, i);
    forall k | 0 <= k < |Concat(done[i])| ensures |Concat(done[i])[k].key| == n {
      JoinedMember(done, Concat(done[i])[k]);
    }
    forall k | 0 <= k < |done[i]| ensures done[i][k] != [] {
      assert NotOverfull(done[i][k], limit, e);
    }
  }

  /** Keys outside a table's range are not in it. */
  lemma OutOfRange(es: seq<Entry>, target: Key)
    requires Sorted(es) && es != [] && (Less(target, es[0].key) || Less(es[|es| - 1].key, target))
    ensures Find(es, target) == None
  {
    hide Less;
    var f := Find(es, target);
    if f.Some? {
      var k :| 0 <= k < |es| && es[k] == f.value;
      LessTotal(target, es[0].key);
      LessTotal(target, es[|es| - 1].key);
    }
  }

  lemma FoundInPart(done: seq<seq<seq<Entry>>>, i: nat, x: Entry)
    requires Sorted(Joined(done)) && i < |done| && x in Concat(done[i])
    ensures Find(Joined(done), x.key) == Some(x)
  {
    JoinedMember(done, x);
    var k :| 0 <= k < |Joined(done)| && Joined(done)[k] == x;
    FindIn(Joined(done), k);
  }

  lemma NowhereFound(done: seq<seq<seq<Entry>>>, target: Key)
    requires forall j :: 0 <= j < |done| ==> Find(Concat(done[j]), target) == None
    ensures Find(Joined(done), target) == None
  {
    var f := Find(Joined(done), target);
    if f.Some? {
      JoinedMember(done, f.value);
    }
  }

  /** The files hold the tables, and each is below 4 GB, as restart offsets of 32 bits demand. */
  ghost predicate Written(files: seq<File>, tables: seq<Table>) {
    && |files| == |tables|
    && forall i :: 0 <= i < |files| ==> HoldsTable(files[i], tables[i]) && |files[i].bytes| < WIDTH
  }

  /** Table files over a merged stream answer every key as the stream does. */
  method GetFromTables(files: seq<File>, target: Key, ghost tables: seq<Table>, ghost e: nat,
                       ghost done: seq<seq<seq<Entry>>>, ghost limit: int, ghost n: nat)
      returns (r: Option<Entry>)
    requires e >= 1 && FinishedOk(done, tables, limit, e) && Sorted(Joined(done)) && KeyLength(Joined(done), n)
    requires EntriesOk(Joined(done), e) && Written(files, tables)
    ensures r == Find(Joined(done), target)
  {
    hide Sorted, KeyLength, Joined, Concat, Find, Less, EntriesOk, HoldsTable;
    var i := 0;
    while i < |files|
      invariant 0 <= i <= |files|
      invariant forall j :: 0 <= j < i ==> Find(Concat(done[j]), target) == None
    {
      PartProper(done, tables, limit, e, i, n);
      PartOk(done, e, i);
      TableEnds(done[i], e);
      FileSpans(files[i], tables[i]);
      if Less(target, files[i].smallest) || Less(files[i].largest, target) {
        OutOfRange(Concat(done[i]), target);
      } else {
        var past;
        past, r := Get(files[i], target, tables[i], done[i], e, n);
        if r.Some? {
          FindIsMember(Concat(done[i]), target);
          FoundInPart(done, i, r.value);
          return;
        }
      }
      i := i + 1;
    }
    NowhereFound(done, target);
    return None;
  }

  lemma FileSpans(f: File, t: Table)
    requires HoldsTable(f, t)
    ensures f.smallest == t.smallest && f.largest == t.largest
  {
    hide DataBytes, IndexBlock, Restarts;
  }

  lemma PartOk(done: seq<seq<seq<Entry>>>, e: nat, i: nat)
    requires EntriesOk(Joined(done), e) && i < |done|
    ensures BlocksOk(done[i], e)
  {
    hide EntryOk;
    forall j, k | 0 <= j < |done[i]| && 0 <= k < |done[i][j]| ensures EntryOk(done[i][j][k], e) {
      InConcat(done[i], j, done[i][j][k]);
      JoinedMember(done, done[i][j][k]);
    }
  }

  lemma {:induction false} LevelEntriesOk(items: seq<Item>, e: nat)
    requires ItemsOk(items, e)
    ensures EntriesOk(EntriesOf(items), e)
  {
    hide EntryOk;
    if items != [] {
      LevelEntriesOk(items[1..], e);
    }
  }

  lemma MergeEntriesOk(a: seq<Entry>, b: seq<Entry>, e: nat)
    requires EntriesOk(a, e) && EntriesOk(b, e)
    ensures EntriesOk(Merge(a, b), e)
  {
    hide EntryOk;
    var m := Merge(a, b);
    forall i | 0 <= i < |m| ensures EntryOk(m[i], e) {
      MergeMembers(a, b, m[i]);
    }
  }

  /** The files of the tables, with any filters and any bytes behind the index. */
  method WriteFiles(tables: seq<Table>, filter: Table -> seq<nat>, more: Table -> seq<nat>) returns (files: seq<File>)
    ensures |files| == |tables| && forall i :: 0 <= i < |files| ==> HoldsTable(files[i], tables[i])
  {
    hide HoldsTable, FileOf;
    files := [];
    for i := 0 to |tables|
      invariant |files| == i && forall j :: 0 <= j < i ==> HoldsTable(files[j], tables[j])
    {
      var t := tables[i];
      FileHoldsTable(t, filter(t), more(t));
      files := files + [FileOf(t, filter(t), more(t))];
    }
  }

  lemma FindIsMember(es: seq<Entry>, target: Key)
    ensures Find(es, target).Some? ==> Find(es, target).value in es && Find(es, target).value.key == target
  {
  }

  lemma TableEnds(blocks: seq<seq<Entry>>, e: nat)
    requires blocks != [] && forall i :: 0 <= i < |blocks| ==> blocks[i] != []
    ensures var es := Concat(blocks);
            es != [] && TableOf(blocks, e).smallest == es[0].key && TableOf(blocks, e).largest == es[|es| - 1].key
  {
  }

  /** The bytes of two levels are compacted into the bytes of tables, and a key is looked up in
      those: the first level's entry for it, else the second's, else nothing. The inputs are any
      sorted levels of one key length and entry size; ok says that they could be read. */
  method CompactThenGet(c: Config, first: seq<nat>, second: seq<nat>, threshold: nat, target: Key,
                        filter: Table -> seq<nat>, more: Table -> seq<nat>,
                        ghost la: seq<Item>, ghost lb: seq<Item>, ghost n: nat)
      returns (ok: bool, files: seq<File>, r: Option<Entry>)
    requires c.size >= 1 && EndsMarked(la) && EndsMarked(lb)
    requires first == DataBytes(la) && second == DataBytes(lb) && ItemsOk(la, c.size) && ItemsOk(lb, c.size)
    requires Sorted(EntriesOf(la)) && Sorted(EntriesOf(lb)) && Even(EntriesOf(la), EntriesOf(lb), n)
    ensures ok <==> Run(c, Input(la, 0), Input(lb, 0), c.block).Some?
    ensures ok && (forall i :: 0 <= i < |files| ==> |files[i].bytes| < WIDTH) ==>
              r == if Find(EntriesOf(la), target).Some? then Find(EntriesOf(la), target)
                   else Find(EntriesOf(lb), target)
  {
    hide Sorted, KeyLength, Joined, Concat, Find, Flat, Merge, Run, EntriesOf, EntriesOk, ItemsOk, HoldsTable;
    RunOnly(c, Input(la, 0), Input(lb, 0), c.block);
    var a := ReadLevel(first, c.size, la);
    var b := ReadLevel(second, c.size, lb);
    var tables;
    ghost var done, limit;
    ok, tables, done, limit := Compact(c, a, b, threshold);
    if !ok {
      return false, [], None;
    }
    files := WriteFiles(tables, filter, more);
    r := None;
    if forall i :: 0 <= i < |files| ==> |files[i].bytes| < WIDTH {
      MergedLevels(la, lb, c.size, target, n);
      r := GetFromTables(files, target, tables, c.size, done, limit, n);
    }
  }

  lemma MergedLevels(la: seq<Item>, lb: seq<Item>, e: nat, target: Key, n: nat)
    requires ItemsOk(la, e) && ItemsOk(lb, e)
    requires Sorted(EntriesOf(la)) && Sorted(EntriesOf(lb)) && Even(EntriesOf(la), EntriesOf(lb), n)
    ensures var a, b := EntriesOf(la), EntriesOf(lb);
            && Sorted(Merge(a, b)) && KeyLength(Merge(a, b), n) && EntriesOk(Merge(a, b), e)
            && Find(Merge(a, b), target) == if Find(a, target).Some? then Find(a, target) else Find(b, target)
  {
    hide Sorted, KeyLength, Find, Merge, EntriesOf, EntriesOk, ItemsOk;
    var a, b := EntriesOf(la), EntriesOf(lb);
    MergeSorted(a, b);
    MergeKeyLength(a, b, n);
    MergeFind(a, b, target);
    LevelEntriesOk(la, e);
    LevelEntriesOk(lb, e);
    MergeEntriesOk(a, b, e);
  }

  /** Legal levels are read when Readable says so, and the lookup above then answers from their
      entries. */
  lemma LegalLevels(c: Config, fa: seq<seq<Entry>>, fb: seq<seq<Entry>>, n: nat)
    requires c.size >= 1 && Legal(fa, c.Limit(), c.size) && Legal(fb, c.Limit(), c.size)
    requires Even(Concat(fa), Concat(fb), n)
    ensures EndsMarked(Flat(fa)) && EntriesOf(Flat(fa)) == Concat(fa)
    ensures EndsMarked(Flat(fb)) && EntriesOf(Flat(fb)) == Concat(fb)
    ensures Readable(c, fa, fb) ==> Run(c, Input(Flat(fa), 0), Input(Flat(fb), 0), c.block).Some?
  {
    FlatMarked(fa);
    FlatMarked(fb);
    hide Flat, Concat, Legal, Run, EndsMarked, EntriesOf;
    EntriesOfFlat(fa);
    EntriesOfFlat(fb);
    if Readable(c, fa, fb) {
      ReadableRuns(c, fa, fb, n);
    }
  }

  lemma {:induction false} FlatMarked(blocks: seq<seq<Entry>>)
    ensures EndsMarked(Flat(blocks))
  {
    if blocks != [] {
      FlatMarked(blocks[1..]);
    }
  }
}
