/** Packing merged entries into blocks and tables with an index, and the compaction loop. */
module Compaction {
  import opened Wrappers
  import opened Lsm
  import opened MergeStream

  /** An index entry: the last key of a block, its offset, and its size without the trailer. */
  datatype Handle = Handle(key: Key, offset: nat, size: nat)

  datatype Table = Table(data: seq<Item>, index: seq<Handle>, smallest: Key, largest: Key)

  function LastKey(es: seq<Entry>): Key {
    if es == [] then [] else es[|es| - 1].key
  }

  function FirstKey(es: seq<Entry>): Key {
    if es == [] then [] else es[0].key
  }

  function BlockSize(b: seq<Entry>, e: nat): nat {
    |b| * e + MarkSize
  }

  function DataSize(blocks: seq<seq<Entry>>, e: nat): nat {
    if blocks == [] then 0 else BlockSize(blocks[0], e) + DataSize(blocks[1..], e)
  }

  /** Handles that tile the data region from off on. */
  function IndexOf(blocks: seq<seq<Entry>>, off: nat, e: nat): seq<Handle> {
    if blocks == [] then []
    else
      [Handle(LastKey(blocks[0]), off, |blocks[0]| * e + RestartSize)]
      + IndexOf(blocks[1..], off + BlockSize(blocks[0], e), e)
  }

  /** The table that a list of blocks should become. */
  function TableOf(blocks: seq<seq<Entry>>, e: nat): Table {
    Table(Flat(blocks), IndexOf(blocks, 0, e), FirstKey(Concat(blocks)), LastKey(Concat(blocks)))
  }

  lemma {:induction false} IndexAppend(blocks: seq<seq<Entry>>, b: seq<Entry>, off: nat, e: nat)
    ensures IndexOf(blocks + [b], off, e) ==
            IndexOf(blocks, off, e) + [Handle(LastKey(b), off + DataSize(blocks, e), |b| * e + RestartSize)]
    ensures DataSize(blocks + [b], e) == DataSize(blocks, e) + BlockSize(b, e)
  {
    hide LastKey, BlockSize;
    if blocks == [] {
      assert blocks + [b] == [b] && [b][1..] == [];
    } else {
      IndexAppend(blocks[1..], b, off + BlockSize(blocks[0], e), e);
      assert (blocks + [b])[1..] == blocks[1..] + [b] && (blocks + [b])[0] == blocks[0];
    }
  }

  /** The data region is as long as its handles say. */
  lemma {:induction false} DataSizeIsSize(blocks: seq<seq<Entry>>, e: nat)
    ensures Size(Flat(blocks), e) == DataSize(blocks, e)
  {
    if blocks != [] {
      DataSizeIsSize(blocks[1..], e);
      SizeAppend(Items(blocks[0]) + [Restart], Flat(blocks[1..]), e);
      SizeAppend(Items(blocks[0]), [Restart], e);
      SizeItems(blocks[0], e);
      assert [Restart][1..] == [];
    }
  }

  /** All entries of a list of tables. */
  function Joined(tables: seq<seq<seq<Entry>>>): seq<Entry> {
    if tables == [] then [] else Joined(tables[..|tables| - 1]) + Concat(tables[|tables| - 1])
  }

  lemma JoinedAppend(tables: seq<seq<seq<Entry>>>, t: seq<seq<Entry>>)
    ensures Joined(tables + [t]) == Joined(tables) + Concat(t)
  {
    assert (tables + [t])[..|tables|] == tables;
  }

  /** The entries of a list of tables. */
  function Stored(tables: seq<Table>): seq<Entry> {
    if tables == [] then [] else Stored(tables[..|tables| - 1]) + EntriesOf(tables[|tables| - 1].data)
  }

  lemma {:induction false} StoredIsJoined(done: seq<seq<seq<Entry>>>, tables: seq<Table>, limit: int, e: nat)
    requires FinishedOk(done, tables, limit, e)
    ensures Stored(tables) == Joined(done)
  {
    if done != [] {
      var m := |done| - 1;
      StoredIsJoined(done[..m], tables[..m], limit, e);
      EntriesOfFlat(done[m]);
    }
  }

  // ----- what the packer's fields say about the entries of the table being written

  ghost predicate LayoutOk(blocks: seq<seq<Entry>>, cur: seq<Entry>, e: nat, data: seq<Item>, index: seq<Handle>,
                           blockOffset: nat, cum: nat, offset: nat) {
    && data == Flat(blocks) + Items(cur) && index == IndexOf(blocks, 0, e)
    && cum == |cur| * e && blockOffset == DataSize(blocks, e) && offset == blockOffset + cum
  }

  lemma LayoutEntry(blocks: seq<seq<Entry>>, cur: seq<Entry>, e: nat, data: seq<Item>, index: seq<Handle>,
                    blockOffset: nat, cum: nat, offset: nat, x: Entry)
    requires LayoutOk(blocks, cur, e, data, index, blockOffset, cum, offset)
    ensures LayoutOk(blocks, cur + [x], e, data + [Item(x)], index, blockOffset, cum + e, offset + e)
  {
    assert Items(cur + [x]) == Items(cur) + [Item(x)];
    assert |cur + [x]| * e == |cur| * e + e;
  }

  lemma LayoutClosed(blocks: seq<seq<Entry>>, cur: seq<Entry>, e: nat, data: seq<Item>, index: seq<Handle>,
                     blockOffset: nat, cum: nat, offset: nat)
    requires LayoutOk(blocks, cur, e, data, index, blockOffset, cum, offset)
    ensures LayoutOk(blocks + [cur], [], e, data + [Restart],
                     index + [Handle(LastKey(cur), blockOffset, cum + RestartSize)],
                     offset + MarkSize, 0, offset + MarkSize)
  {
    IndexAppend(blocks, cur, 0, e);
    FlatAppend(blocks, [cur]);
    assert [cur][1..] == [] && Flat([cur]) == Items(cur) + [Restart];
    assert Flat(blocks + [cur]) == data + [Restart];
  }

  /** A non-zero offset means that the table holds something, a non-zero count the block. */
  lemma LayoutZero(blocks: seq<seq<Entry>>, cur: seq<Entry>, e: nat, data: seq<Item>, index: seq<Handle>,
                   blockOffset: nat, cum: nat, offset: nat)
    requires LayoutOk(blocks, cur, e, data, index, blockOffset, cum, offset) && e >= 1
    ensures offset == 0 <==> blocks == [] && cur == []
    ensures cum == 0 <==> cur == []
  {
  }

  lemma LayoutCount(blocks: seq<seq<Entry>>, cur: seq<Entry>, e: nat, data: seq<Item>, index: seq<Handle>,
                    blockOffset: nat, cum: nat, offset: nat)
    requires LayoutOk(blocks, cur, e, data, index, blockOffset, cum, offset)
    ensures cum == |cur| * e && offset == DataSize(blocks, e) + cum
  {
  }

  ghost predicate EndsOk(es: seq<Entry>, smallest: Key, last: Key) {
    es != [] ==> smallest == FirstKey(es) && last == LastKey(es)
  }

  /** One more entry at the end. */
  lemma EndsEntry(done: seq<Entry>, cur: seq<Entry>, smallest: Key, last: Key, x: Entry)
    requires EndsOk(done + cur, smallest, last)
    ensures done + (cur + [x]) == done + cur + [x]
    ensures EndsOk(done + (cur + [x]), if done + cur == [] then x.key else smallest, x.key)
  {
    assert done + (cur + [x]) == done + cur + [x];
  }

  predicate AllFull(blocks: seq<seq<Entry>>, limit: int, e: nat) {
    forall i :: 0 <= i < |blocks| ==> Full(blocks[i], limit, e)
  }

  predicate OpenOk(cur: seq<Entry>, limit: int, e: nat) {
    cur != [] ==> |cur| * e < limit
  }

  lemma OpenThenEntry(cur: seq<Entry>, x: Entry, limit: int, e: nat)
    requires OpenOk(cur, limit, e)
    ensures NotOverfull(cur + [x], limit, e)
    ensures |cur + [x]| * e >= limit ==> Full(cur + [x], limit, e)
    ensures |cur + [x]| * e < limit ==> OpenOk(cur + [x], limit, e)
  {
  }

  lemma OpenIsShort(cur: seq<Entry>, limit: int, e: nat)
    requires OpenOk(cur, limit, e) && cur != []
    ensures NotOverfull(cur, limit, e)
  {
    assert (|cur| - 1) * e == |cur| * e - e;
  }

  lemma ClosedBlocks(blocks: seq<seq<Entry>>, b: seq<Entry>, limit: int, e: nat)
    requires AllFull(blocks, limit, e) && NotOverfull(b, limit, e)
    ensures Legal(blocks + [b], limit, e) && (Full(b, limit, e) ==> AllFull(blocks + [b], limit, e))
    ensures Concat(blocks + [b]) == Concat(blocks) + b
  {
    ConcatAppend(blocks, [b]);
    assert [b][1..] == [] && Concat([b]) == b;
  }

  lemma ConcatFull(blocks: seq<seq<Entry>>, limit: int, e: nat)
    requires AllFull(blocks, limit, e)
    ensures Legal(blocks, limit, e) && (Concat(blocks) == [] <==> blocks == [])
  {
    if blocks != [] {
      assert Full(blocks[0], limit, e);
    }
  }

  /** Finished tables are what their entries demand, and legal inputs of a next compaction. */
  ghost predicate FinishedOk(done: seq<seq<seq<Entry>>>, tables: seq<Table>, limit: int, e: nat) {
    && |done| == |tables|
    && forall i :: 0 <= i < |done| ==> done[i] != [] && tables[i] == TableOf(done[i], e) && Legal(done[i], limit, e)
  }

  // ----- where tables end

  /** The offset of a table before its last entry. */
  function Before(t: seq<seq<Entry>>, e: nat): nat
    requires t != [] && t[|t| - 1] != []
  {
    DataSize(t[..|t| - 1], e) + (|t[|t| - 1]| - 1) * e
  }

  /** The offset that its last entry brings it to, marker included if the entry fills the block. */
  function Reached(t: seq<seq<Entry>>, limit: int, e: nat): nat
    requires t != []
  {
    var b := t[|t| - 1];
    DataSize(t[..|t| - 1], e) + |b| * e + if |b| * e >= limit then MarkSize else 0
  }

  /** A table takes another entry only when it is empty or its offset is below the threshold. */
  predicate NotOverlong(t: seq<seq<Entry>>, threshold: nat, e: nat) {
    t != [] && t[|t| - 1] != [] && (Before(t, e) == 0 || Before(t, e) < threshold)
  }

  predicate AllEnded(done: seq<seq<seq<Entry>>>, threshold: nat, limit: int, e: nat) {
    forall i :: 0 <= i < |done| ==> NotOverlong(done[i], threshold, e) && Reached(done[i], limit, e) >= threshold
  }

  /** Each table ends with the entry that brings it to the threshold, but for the last one, which may
      end earlier. */
  predicate Splits(done: seq<seq<seq<Entry>>>, threshold: nat, limit: int, e: nat) {
    forall i :: 0 <= i < |done| ==>
      NotOverlong(done[i], threshold, e) && (i + 1 < |done| ==> Reached(done[i], limit, e) >= threshold)
  }

  /** The blocks of a table that ends here. */
  function Whole(blocks: seq<seq<Entry>>, cur: seq<Entry>): seq<seq<Entry>> {
    if cur == [] then blocks else blocks + [cur]
  }

  /** The table ends after an entry that was let in at offset before and brought it to offset. */
  lemma EndedHere(done: seq<seq<seq<Entry>>>, blocks: seq<seq<Entry>>, cur: seq<Entry>, threshold: nat, limit: int,
                  e: nat, before: nat, offset: nat)
    requires AllEnded(done, threshold, limit, e) && cur != []
    requires before == DataSize(blocks, e) + (|cur| - 1) * e && (before == 0 || before < threshold)
    requires offset == DataSize(blocks, e) + |cur| * e + (if |cur| * e >= limit then MarkSize else 0) >= threshold
    ensures AllEnded(done + [blocks + [cur]], threshold, limit, e)
  {
    var t := blocks + [cur];
    assert t[..|t| - 1] == blocks;
  }

  lemma EndedAll(done: seq<seq<seq<Entry>>>, threshold: nat, limit: int, e: nat)
    requires AllEnded(done, threshold, limit, e)
    ensures Splits(done, threshold, limit, e)
  {
  }

  /** The last table ends for want of entries. */
  lemma EndedEarly(done: seq<seq<seq<Entry>>>, blocks: seq<seq<Entry>>, cur: seq<Entry>, threshold: nat, limit: int,
                   e: nat, offset: nat)
    requires AllEnded(done, threshold, limit, e) && AllFull(blocks, limit, e) && (blocks != [] || cur != [])
    requires offset == DataSize(blocks, e) + |cur| * e < threshold
    ensures Splits(done + [Whole(blocks, cur)], threshold, limit, e)
  {
    var t := Whole(blocks, cur);
    var m := |t| - 1;
    if cur == [] {
      assert Full(blocks[m], limit, e);
      assert t == blocks[..m] + [blocks[m]];
      IndexAppend(blocks[..m], blocks[m], 0, e);
    } else {
      assert t[..m] == blocks;
    }
    LastEntryBefore(|t[m]|, e);
  }

  lemma LastEntryBefore(n: nat, e: nat)
    ensures n >= 1 ==> (n - 1) * e <= n * e
  {
  }

  lemma NoTables(done: seq<seq<seq<Entry>>>, tables: seq<Table>, limit: int, e: nat)
    requires FinishedOk(done, tables, limit, e) && Joined(done) == []
    ensures done == []
  {
  }

  lemma TableFinished(done: seq<seq<seq<Entry>>>, tables: seq<Table>, limit: int, e: nat, blocks: seq<seq<Entry>>,
                      data: seq<Item>, index: seq<Handle>, blockOffset: nat, offset: nat, smallest: Key, last: Key)
    requires FinishedOk(done, tables, limit, e) && Legal(blocks, limit, e) && Concat(blocks) != []
    requires LayoutOk(blocks, [], e, data, index, blockOffset, 0, offset) && EndsOk(Concat(blocks), smallest, last)
    ensures FinishedOk(done + [blocks], tables + [Table(data, index, smallest, last)], limit, e)
    ensures LayoutOk([], [], e, [], [], 0, 0, 0) && EndsOk([], smallest, last)
    ensures AllFull([], limit, e) && OpenOk([], limit, e) && Concat([]) + [] == []
    ensures Joined(done + [blocks]) + (Concat([]) + []) == Joined(done) + (Concat(blocks) + [])
  {
    JoinedAppend(done, blocks);
    assert Joined(done + [blocks]) + (Concat([]) + []) == Joined(done) + Concat(blocks);
    assert Table(data, index, smallest, last) == TableOf(blocks, e);
  }

  class Packer {
    const e: nat
    const threshold: nat
    var limit: int
    var data: seq<Item>
    var index: seq<Handle>
    var offset: nat
    var blockOffset: nat
    var cum: nat
    var smallest: Key
    var last: Key
    var tables: seq<Table>
    ghost var done: seq<seq<seq<Entry>>>  // the blocks of the finished tables
    ghost var blocks: seq<seq<Entry>>     // the closed blocks of this one
    ghost var cur: seq<Entry>             // its open block

    /** The entries of the table being written. */
    ghost function Here(): seq<Entry>
      reads this
    {
      Concat(blocks) + cur
    }

    ghost function Emitted(): seq<Entry>
      reads this
    {
      Joined(done) + Here()
    }

    ghost predicate Fields()
      reads this
    {
      && e >= 1 && LayoutOk(blocks, cur, e, data, index, blockOffset, cum, offset)
      && EndsOk(Here(), smallest, last) && FinishedOk(done, tables, limit, e)
    }

    /** Closed blocks are full and the open one is not. */
    ghost predicate Open()
      reads this
    {
      Fields() && AllFull(blocks, limit, e) && OpenOk(cur, limit, e)
    }

    /** Finished tables have reached the threshold, and the open one has not. */
    ghost predicate Valid()
      reads this
    {
      Open() && AllEnded(done, threshold, limit, e) && (offset == 0 || offset < threshold)
    }

    constructor (size: nat, block: int, t: nat)
      requires size >= 1
      ensures Valid() && e == size && limit == block && threshold == t && Emitted() == []
    {
      e, threshold, limit := size, t, block;
      data, index, offset, blockOffset, cum := [], [], 0, 0, 0;
      smallest, last, tables := [], [], [];
      done, blocks, cur := [], [], [];
    }

    /** Lowers the limit, before anything is emitted. */
    method Adjust()
      requires Valid() && Emitted() == []
      modifies this`limit
      ensures Valid() && limit == old(limit) - e && Emitted() == old(Emitted())
    {
      NoEntries();
      NoTables(done, tables, limit, e);
      limit := limit - e;
    }

    /** Ends the open block: restart array, index entry, trailer. */
    method CloseBlock()
      requires Fields() && AllFull(blocks, limit, e) && cur != [] && NotOverfull(cur, limit, e)
      modifies this`data, this`index, this`offset, this`blockOffset, this`cum, this`blocks, this`cur
      ensures Fields() && cur == [] && Here() == old(Here()) && Here() != [] && blocks == old(blocks) + [old(cur)]
      ensures offset == old(offset) + MarkSize
      ensures OpenOk(cur, limit, e) && Legal(blocks, limit, e)
      ensures old(Full(cur, limit, e)) ==> AllFull(blocks, limit, e)
    {
      hide LayoutOk, FinishedOk, AllFull, NotOverfull, Full, Legal, Concat;
      LayoutClosed(blocks, cur, e, data, index, blockOffset, cum, offset);
      ClosedBlocks(blocks, cur, limit, e);
      assert last == LastKey(cur);
      data := data + [Restart];
      index := index + [Handle(last, blockOffset, cum + RestartSize)];
      offset := offset + MarkSize;
      blockOffset := offset;
      cum := 0;
      blocks, cur := blocks + [cur], [];
      assert Here() == old(Here());
    }

    /** Ends the table. */
    method FinishTable()
      requires Fields() && cur == [] && cum == 0 && Here() != [] && Legal(blocks, limit, e)
      modifies this`data, this`index, this`offset, this`blockOffset, this`cum, this`blocks, this`tables, this`done
      ensures Open() && offset == 0 && Here() == [] && Emitted() == old(Emitted()) && done == old(done) + [old(blocks)]
    {
      hide LayoutOk, FinishedOk, EndsOk, Legal, Joined, Concat, AllFull, OpenOk;
      assert Here() == Concat(blocks);
      TableFinished(done, tables, limit, e, blocks, data, index, blockOffset, offset, smallest, last);
      tables := tables + [Table(data, index, smallest, last)];
      done := done + [blocks];
      data, index, offset, blockOffset, cum, blocks := [], [], 0, 0, 0, [];
    }

    /** Writes one entry, and closes the block and the table when they have reached their
        sizes. */
    method Emit(x: Entry)
      requires Valid()
      modifies this`data, this`index, this`offset, this`blockOffset, this`cum, this`smallest, this`last,
               this`blocks, this`cur, this`tables, this`done
      ensures Valid() && Emitted() == old(Emitted()) + [x]
    {
      hide LayoutOk, FinishedOk, AllFull, NotOverfull, Full, OpenOk, Legal, Concat, Joined, AllEnded;
      ghost var before := offset;
      AddEntry(x);
      ghost var b, c := blocks, cur;
      if cum >= limit {
        CloseBlock();
      }
      if offset >= threshold {
        EndedHere(done, b, c, threshold, limit, e, before, offset);
        EndTable();
      }
    }

    /** The entry itself. */
    method AddEntry(x: Entry)
      requires Valid()
      modifies this`data, this`offset, this`cum, this`smallest, this`last, this`cur
      ensures Fields() && AllFull(blocks, limit, e) && cur != [] && NotOverfull(cur, limit, e)
      ensures Here() == old(Here()) + [x]
      ensures if cum >= limit then Full(cur, limit, e) else OpenOk(cur, limit, e)
      ensures cum == |cur| * e && offset == DataSize(blocks, e) + cum
      ensures old(offset) == DataSize(blocks, e) + (|cur| - 1) * e
    {
      hide FinishedOk, LayoutOk, EndsOk, AllFull, NotOverfull, Full, OpenOk, Concat;
      LayoutZero(blocks, cur, e, data, index, blockOffset, cum, offset);
      LayoutEntry(blocks, cur, e, data, index, blockOffset, cum, offset, x);
      LayoutCount(blocks, cur + [x], e, data + [Item(x)], index, blockOffset, cum + e, offset + e);
      OpenThenEntry(cur, x, limit, e);
      EndsEntry(Concat(blocks), cur, smallest, last, x);
      NoEntries();
      data := data + [Item(x)];
      if offset == 0 {
        smallest := x.key;
      }
      last := x.key;
      cur := cur + [x];
      cum := cum + e;
      offset := offset + e;
    }

    /** Closes a block that is still open, then the table. */
    method EndTable()
      requires Open() && Here() != []
      modifies this`data, this`index, this`offset, this`blockOffset, this`cum,
               this`blocks, this`cur, this`tables, this`done
      ensures Open() && offset == 0 && Emitted() == old(Emitted()) && Here() == []
      ensures done == old(done) + [Whole(old(blocks), old(cur))]
    {
      hide LayoutOk, FinishedOk, EndsOk, AllFull, NotOverfull, Full, OpenOk, Legal, Concat, Joined;
      LayoutZero(blocks, cur, e, data, index, blockOffset, cum, offset);
      ConcatFull(blocks, limit, e);
      if cum > 0 {
        OpenIsShort(cur, limit, e);
        CloseBlock();
        LayoutZero(blocks, cur, e, data, index, blockOffset, cum, offset);
      }
      FinishTable();
    }

    lemma NoEntries()
      requires Open()
      ensures Here() == [] <==> blocks == [] && cur == []
    {
      ConcatFull(blocks, limit, e);
    }

    /** Ends the last table, if it holds anything. */
    method Finish()
      requires Valid()
      modifies this`data, this`index, this`offset, this`blockOffset, this`cum,
               this`blocks, this`cur, this`tables, this`done
      ensures FinishedOk(done, tables, limit, e) && Splits(done, threshold, limit, e)
      ensures Joined(done) == old(Emitted())
    {
      hide LayoutOk, FinishedOk, EndsOk, AllFull, NotOverfull, Full, OpenOk, Legal, Concat, Joined, AllEnded, Splits;
      LayoutZero(blocks, cur, e, data, index, blockOffset, cum, offset);
      LayoutCount(blocks, cur, e, data, index, blockOffset, cum, offset);
      NoEntries();
      EndedAll(done, threshold, limit, e);
      if offset > 0 {
        EndedEarly(done, blocks, cur, threshold, limit, e, offset);
        EndTable();
      }
      assert Joined(done) + [] == Joined(done);
    }
  }

  // ----- the compaction loop

  function Cat(es: seq<Entry>, r: Option<seq<Entry>>): Option<seq<Entry>> {
    if r.Some? then Some(es + r.value) else None
  }

  lemma CatCons(es: seq<Entry>, x: Entry, r: Option<seq<Entry>>)
    ensures Cat(es, Cons(x, r)) == Cat(es + [x], r)
  {
    if r.Some? {
      assert es + ([x] + r.value) == es + [x] + r.value;
    }
  }

  lemma CatEmpty(r: Option<seq<Entry>>)
    ensures Cat([], r) == r
  {
    if r.Some? {
      assert [] + r.value == r.value;
    }
  }

  /** The limit in force, and that nothing was emitted before it was lowered. */
  ghost predicate LimitNow(c: Config, limit: int, adjusted: bool, nothing: bool) {
    if adjusted then c.size < 1024 && limit == c.Limit()
    else limit == c.block && (c.size < 1024 ==> nothing)
  }

  /** The loop over both inputs; what is left of one of them is returned. */
  method MergeBoth(c: Config, first: seq<Item>, second: seq<Item>, out: Packer) returns (ok: bool, left: Input)
    requires out.Valid() && out.e == c.size && out.limit == c.block && out.Emitted() == []
    modifies out
    ensures ok ==> out.Valid() && out.limit in {c.block, c.Limit()}
    ensures ok ==>
              Run(c, Input(first, 0), Input(second, 0), c.block) == Cat(out.Emitted(), Drain(left, out.limit, c.size))
    ensures !ok ==> Run(c, Input(first, 0), Input(second, 0), c.block) == None
    ensures ok && first != [] && second != [] && first[0].Item? && second[0].Item? ==> out.limit == c.Limit()
  {
    hide Packer.Valid, Packer.Emitted, Drain, Memcmp, Step, Run, Cat, Cons;
    ghost var all := Run(c, Input(first, 0), Input(second, 0), c.block);
    var a, b := Input(first, 0), Input(second, 0);
    var adjusted := false;
    CatEmpty(all);
    while a.rest != [] && b.rest != []
      invariant out.Valid()
      invariant LimitNow(c, out.limit, adjusted, out.Emitted() == [])
      invariant Cat(out.Emitted(), Run(c, a, b, out.limit)) == all
      invariant first == [] || second == [] || first[0].Restart? || second[0].Restart?
                || (a == Input(first, 0) && b == Input(second, 0)) || out.limit == c.Limit()
      decreases |a.rest| + |b.rest|
    {
      RunUnfolds(c, a, b, out.limit);
      if a.rest[0].Restart? {
        a := Input(a.rest[1..], 0);
        continue;
      }
      if b.rest[0].Restart? {
        b := Input(b.rest[1..], 0);
        continue;
      }
      var x, y := a.rest[0].entry, b.rest[0].entry;
      if |x.key| != |y.key| {
        CatNone(out.Emitted());
        return false, a;
      }
      var cmp := Memcmp(x.key, y.key, |x.key|);
      var a' := if cmp <= 0 then Step(a, out.limit, c.size) else Some(a);
      var b' := if cmp >= 0 then Step(b, out.limit, c.size) else Some(b);
      if a'.None? || b'.None? {
        CatNone(out.Emitted());
        return false, a;
      }
      StepShrinks(a, out.limit, c.size);
      StepShrinks(b, out.limit, c.size);
      CatCons(out.Emitted(), if cmp <= 0 then x else y, Run(c, a'.value, b'.value, Adjusted(c, out.limit)));
      if !adjusted && c.size < 1024 {
        out.Adjust();
        adjusted := true;
      }
      out.Emit(if cmp <= 0 then x else y);
      a, b := a'.value, b'.value;
    }
    RunUnfolds(c, a, b, out.limit);
    return true, if b.rest != [] then b else a;
  }

  lemma CatNone(es: seq<Entry>)
    ensures Cat(es, None) == None
  {
  }

  lemma RunUnfolds(c: Config, a: Input, b: Input, limit: int)
    ensures a.rest == [] || b.rest == [] ==> Run(c, a, b, limit) == Drain(if b.rest != [] then b else a, limit, c.size)
    ensures a.rest != [] && b.rest != [] && a.rest[0].Restart? ==>
              Run(c, a, b, limit) == Run(c, Input(a.rest[1..], 0), b, limit)
    ensures a.rest != [] && b.rest != [] && a.rest[0].Item? && b.rest[0].Restart? ==>
              Run(c, a, b, limit) == Run(c, a, Input(b.rest[1..], 0), limit)
    ensures a.rest != [] && b.rest != [] && a.rest[0].Item? && b.rest[0].Item? ==>
              var x, y := a.rest[0].entry, b.rest[0].entry;
              if |x.key| != |y.key| then Run(c, a, b, limit) == None
              else
                var cmp := Memcmp(x.key, y.key, |x.key|);
                var a' := if cmp <= 0 then Step(a, limit, c.size) else Some(a);
                var b' := if cmp >= 0 then Step(b, limit, c.size) else Some(b);
                Run(c, a, b, limit) ==
                  if a'.None? || b'.None? then None
                  else Cons(if cmp <= 0 then x else y, Run(c, a'.value, b'.value, Adjusted(c, limit)))
  {
    hide Drain, Memcmp, Step;
  }

  /** The loop over what is left of one input. */
  method DrainOne(left: Input, out: Packer) returns (ok: bool)
    requires out.Valid()
    modifies out
    ensures ok <==> Drain(left, out.limit, out.e).Some?
    ensures ok ==> out.Valid() && out.Emitted() == old(out.Emitted()) + Drain(left, out.limit, out.e).value
    ensures out.limit == old(out.limit)
  {
    hide FinishedOk, Joined, Concat, Flat, LayoutOk, EndsOk, AllFull, OpenOk, Drain, Step;
    var i, e := left, out.e;
    ghost var all := Cat(out.Emitted(), Drain(left, out.limit, e));
    while i.rest != []
      invariant out.Valid() && out.limit == old(out.limit)
      invariant Cat(out.Emitted(), Drain(i, out.limit, e)) == all
      decreases |i.rest|
    {
      DrainUnfolds(i, out.limit, e);
      if Size(i.rest, e) == MarkSize {
        i := Input([], 0);
        DrainUnfolds(i, out.limit, e);
        break;
      }
      if i.rest[0].Restart? {
        return false;
      }
      var next := Step(i, out.limit, e);
      if next.None? {
        return false;
      }
      StepShrinks(i, out.limit, e);
      CatCons(out.Emitted(), i.rest[0].entry, Drain(next.value, out.limit, e));
      out.Emit(i.rest[0].entry);
      i := next.value;
    }
    DrainUnfolds(i, out.limit, e);
    assert out.Emitted() + [] == out.Emitted();
    return true;
  }

  /** Merges two levels into tables. It succeeds exactly when the inputs can be read, and the
      tables then hold, in order, just what is read from them. */
  method Compact(c: Config, first: seq<Item>, second: seq<Item>, threshold: nat)
      returns (ok: bool, tables: seq<Table>, ghost done: seq<seq<seq<Entry>>>, ghost limit: int)
    requires c.size >= 1
    ensures ok <==> Run(c, Input(first, 0), Input(second, 0), c.block).Some?
    ensures ok ==> Stored(tables) == Joined(done) == Run(c, Input(first, 0), Input(second, 0), c.block).value
    ensures ok ==> FinishedOk(done, tables, limit, c.size) && Splits(done, threshold, limit, c.size)
    ensures ok ==> limit in {c.block, c.Limit()}
    ensures ok && first != [] && second != [] && first[0].Item? && second[0].Item? ==> limit == c.Limit()
  {
    hide FinishedOk, Joined, Concat, Flat, LayoutOk, EndsOk, AllFull, OpenOk, Drain, Run, Splits, AllEnded;
    var out := new Packer(c.size, c.block, threshold);
    var left;
    ok, left := MergeBoth(c, first, second, out);
    if ok {
      ok := DrainOne(left, out);
    }
    if !ok {
      return false, [], [], 0;
    }
    out.Finish();
    StoredIsJoined(out.done, out.tables, out.limit, out.e);
    return true, out.tables, out.done, out.limit;
  }

  lemma DrainUnfolds(i: Input, limit: int, e: nat)
    ensures Drain(i, limit, e) ==
            if i.rest == [] || Size(i.rest, e) == MarkSize then Some([])
            else if i.rest[0].Restart? then None
            else if Step(i, limit, e).None? then None
            else Cons(i.rest[0].entry, Drain(Step(i, limit, e).value, limit, e))
  {
  }
}
