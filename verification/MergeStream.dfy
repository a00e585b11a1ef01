/** Reading and merging two levels: where the compaction program finds the next entry of each
    input, which markers it recognises, and when that goes wrong. */
module MergeStream {
  import opened Wrappers
  import opened Lsm

  /** The unread part of an input and the bytes counted in its current block. */
  datatype Input = Input(rest: seq<Item>, cum: nat)

  /** size is the common entry size, block the configured block size. */
  datatype Config = Config(size: nat, block: int) {
    /** Small entries lower the block limit by one entry once the first one has been merged. */
    function Limit(): int {
      if size < 1024 then block - size else block
    }

    /** The first entry, still counted against the full block size, closes its block just when
        it should. */
    predicate Agree() {
      size >= block <==> size >= Limit()
    }
  }

  /** Steps over the entry at the front and, when the count says that the block ends here, over
      the marker that must follow. None: the reader has lost its place. */
  function Step(i: Input, limit: int, e: nat): Option<Input>
    requires i.rest != [] && i.rest[0].Item?
  {
    if i.cum + e >= limit then
      if |i.rest| >= 2 && i.rest[1].Restart? then Some(Input(i.rest[2..], 0)) else None
    else Some(Input(i.rest[1..], i.cum + e))
  }

  function Cons(x: Entry, r: Option<seq<Entry>>): Option<seq<Entry>> {
    if r.Some? then Some([x] + r.value) else None
  }

  /** The rest of one input, after the other has ended: a marker is known by its being the last
      13 bytes, or by the count. */
  function Drain(i: Input, limit: int, e: nat): Option<seq<Entry>>
    decreases |i.rest|
  {
    if i.rest == [] || Size(i.rest, e) == MarkSize then Some([])
    else if i.rest[0].Restart? then None
    else
      var next := Step(i, limit, e);
      if next.None? then None else Cons(i.rest[0].entry, Drain(next.value, limit, e))
  }

  /** The limit after the first merged entry. */
  function Adjusted(c: Config, limit: int): int {
    if limit == c.block then c.Limit() else limit
  }

  /** Everything the program emits from here on; None if it misreads its input. */
  function Run(c: Config, a: Input, b: Input, limit: int): Option<seq<Entry>>
    decreases |a.rest| + |b.rest|
  {
    if a.rest == [] || b.rest == [] then Drain(if b.rest != [] then b else a, limit, c.size)
    else if a.rest[0].Restart? then Run(c, Input(a.rest[1..], 0), b, limit)
    else if b.rest[0].Restart? then Run(c, a, Input(b.rest[1..], 0), limit)
    else
      var x, y := a.rest[0].entry, b.rest[0].entry;
      if |x.key| != |y.key| then None
      else
        var cmp := Memcmp(x.key, y.key, |x.key|);
        var a' := if cmp <= 0 then Step(a, limit, c.size) else Some(a);
        var b' := if cmp >= 0 then Step(b, limit, c.size) else Some(b);
        if a'.None? || b'.None? then None
        else Cons(if cmp <= 0 then x else y, Run(c, a'.value, b'.value, Adjusted(c, limit)))
  }

  // ----- where a reader of well-formed input is

  /** cur is what is left of the current block and later the blocks after it. */
  ghost predicate In(i: Input, cur: seq<Entry>, later: seq<seq<Entry>>, t: int, e: nat) {
    && Legal(later, t, e)
    && if i.rest == [] then cur == [] && later == [] else
         && i.rest == Items(cur) + [Restart] + Flat(later)
         && (cur == [] ==> later == [] && i.cum < t)
         && (|cur| == 1 || i.cum + (|cur| - 1) * e < t)
         && (later != [] ==> i.cum + |cur| * e >= t)
         && (i.cum == 0 || i.cum < t)
  }

  lemma Enter(blocks: seq<seq<Entry>>, t: int, e: nat)
    requires Legal(blocks, t, e) && blocks != []
    ensures In(Input(Flat(blocks), 0), blocks[0], blocks[1..], t, e)
  {
    assert NotOverfull(blocks[0], t, e);
    if |blocks| > 1 {
      assert Full(blocks[0], t, e);
    }
    LegalTail(blocks, t, e);
  }

  lemma LegalTail(blocks: seq<seq<Entry>>, t: int, e: nat)
    requires Legal(blocks, t, e) && blocks != []
    ensures Legal(blocks[1..], t, e)
  {
    var r := blocks[1..];
    assert forall i :: 0 <= i < |r| ==> r[i] == blocks[i + 1];
  }

  /** What is left to read. */
  function Left(cur: seq<Entry>, later: seq<seq<Entry>>): seq<Entry> {
    cur + Concat(later)
  }

  /** The limit in force ends the block of the entry at the front exactly as t does. */
  predicate Works(i: Input, limit: int, t: int, e: nat) {
    i.cum + e >= limit <==> i.cum + e >= t
  }

  lemma CurNonempty(i: Input, cur: seq<Entry>, later: seq<seq<Entry>>, t: int, e: nat)
    requires In(i, cur, later, t, e) && i.rest != []
    ensures i.rest[0].Restart? <==> cur == []
    ensures i.rest[0].Restart? ==> i.rest == [Restart] && later == []
    ensures i.rest[0].Item? ==> i.rest[0].entry == cur[0] && Left(cur, later) == [cur[0]] + Left(cur[1..], later)
  {
    if cur == [] {
      assert Flat(later) == [];
    } else {
      assert i.rest[0] == Items(cur)[0];
      assert cur == [cur[0]] + cur[1..];
    }
  }

  /** A step loses no entry and stays in place. */
  lemma StepKeeps(i: Input, cur: seq<Entry>, later: seq<seq<Entry>>, limit: int, t: int, e: nat)
      returns (cur': seq<Entry>, later': seq<seq<Entry>>)
    requires In(i, cur, later, t, e) && i.rest != [] && i.rest[0].Item? && Works(i, limit, t, e)
    ensures Step(i, limit, e).Some? && In(Step(i, limit, e).value, cur', later', t, e)
    ensures Left(cur, later) == [i.rest[0].entry] + Left(cur', later')
    ensures |Step(i, limit, e).value.rest| < |i.rest|
  {
    CurNonempty(i, cur, later, t, e);
    if i.cum + e >= t {
      OneLeft(i.cum, |cur|, t, e);
      assert i.rest[1] == Restart;
      assert i.rest[2..] == Flat(later);
      if later == [] {
        cur', later' := [], [];
      } else {
        Enter(later, t, e);
        cur', later' := later[0], later[1..];
        assert Concat(later) == later[0] + Concat(later[1..]);
      }
    } else {
      cur', later' := cur[1..], later;
      assert Items(cur)[1..] == Items(cur[1..]);
      assert i.rest[1..] == Items(cur[1..]) + [Restart] + Flat(later);
      StillLeft(i.cum, |cur|, t, e);
    }
  }

  lemma OneLeft(cum: nat, n: nat, t: int, e: nat)
    requires n >= 1 && (n == 1 || cum + (n - 1) * e < t) && cum + e >= t
    ensures n == 1
  {
    Multiple(n, e);
  }

  lemma Multiple(n: nat, e: nat)
    ensures n > 1 ==> (n - 1) * e >= e
  {
  }

  lemma StillLeft(cum: nat, n: nat, t: int, e: nat)
    requires n >= 1 && (n == 1 || cum + (n - 1) * e < t) && cum + e < t
    ensures n - 1 == 1 || cum + e + (n - 1 - 1) * e < t
    ensures cum + e + (n - 1) * e == cum + n * e
  {
    assert e + (n - 1) * e == n * e;
    if n == 1 {
      assert (n - 2) * e == 0 - (e as int);
    } else {
      assert e + (n - 2) * e == (n - 1) * e;
    }
  }

  lemma SizeOfMark(rest: seq<Item>, cur: seq<Entry>, later: seq<seq<Entry>>, e: nat)
    requires e >= 1 && rest == Items(cur) + [Restart] + Flat(later)
    ensures Size(rest, e) == MarkSize <==> cur == [] && later == []
  {
    SizeAppend(Items(cur) + [Restart], Flat(later), e);
    SizeAppend(Items(cur), [Restart], e);
    SizeItems(cur, e);
    assert Size([Restart], e) == MarkSize + Size([Restart][1..], e);
    if later != [] {
      SizeAppend(Items(later[0]) + [Restart], Flat(later[1..]), e);
      SizeAppend(Items(later[0]), [Restart], e);
    }
  }

  /** Draining one input copies what is left of it. */
  lemma {:induction false} DrainAll(i: Input, cur: seq<Entry>, later: seq<seq<Entry>>, t: int, e: nat)
    requires In(i, cur, later, t, e) && e >= 1
    ensures Drain(i, t, e) == Some(Left(cur, later))
    decreases |i.rest|
  {
    if i.rest == [] {
      assert Left(cur, later) == [];
    } else {
      SizeOfMark(i.rest, cur, later, e);
      CurNonempty(i, cur, later, t, e);
      if cur != [] {
        var cur', later' := StepKeeps(i, cur, later, t, t, e);
        DrainAll(Step(i, t, e).value, cur', later', t, e);
      }
    }
  }

  // ----- the merged stream

  ghost predicate Even(a: seq<Entry>, b: seq<Entry>, n: nat) {
    KeyLength(a, n) && KeyLength(b, n)
  }

  /** The limit is right, or nothing has been read yet and the first entry agrees. */
  predicate LimitOk(c: Config, a: Input, b: Input, limit: int) {
    limit == c.Limit() || (limit == c.block && c.Agree() && a.cum == 0 && b.cum == 0 && a.rest != [] && b.rest != []
                           && a.rest[0].Item? && b.rest[0].Item?)
  }

  /** On well-formed input the program emits exactly the merge. */
  lemma {:induction false} RunIsMerge(c: Config, a: Input, b: Input, limit: int, n: nat,
                                      ca: seq<Entry>, la: seq<seq<Entry>>, cb: seq<Entry>, lb: seq<seq<Entry>>)
    requires c.size >= 1 && In(a, ca, la, c.Limit(), c.size) && In(b, cb, lb, c.Limit(), c.size)
    requires Even(Left(ca, la), Left(cb, lb), n) && LimitOk(c, a, b, limit)
    ensures Run(c, a, b, limit) == Some(Merge(Left(ca, la), Left(cb, lb)))
    decreases |a.rest| + |b.rest|
  {
    var t, e := c.Limit(), c.size;
    if a.rest == [] || b.rest == [] {
      DrainAll(a, ca, la, t, e);
      DrainAll(b, cb, lb, t, e);
    } else if a.rest[0].Restart? {
      CurNonempty(a, ca, la, t, e);
      RunIsMerge(c, Input([], 0), b, limit, n, [], [], cb, lb);
    } else if b.rest[0].Restart? {
      CurNonempty(b, cb, lb, t, e);
      RunIsMerge(c, a, Input([], 0), limit, n, ca, la, [], []);
    } else {
      RunStep(c, a, b, limit, n, ca, la, cb, lb);
    }
  }

  lemma {:induction false} RunStep(c: Config, a: Input, b: Input, limit: int, n: nat,
                                   ca: seq<Entry>, la: seq<seq<Entry>>, cb: seq<Entry>, lb: seq<seq<Entry>>)
    requires c.size >= 1 && In(a, ca, la, c.Limit(), c.size) && In(b, cb, lb, c.Limit(), c.size)
    requires Even(Left(ca, la), Left(cb, lb), n) && LimitOk(c, a, b, limit)
    requires a.rest != [] && b.rest != [] && a.rest[0].Item? && b.rest[0].Item?
    ensures Run(c, a, b, limit) == Some(Merge(Left(ca, la), Left(cb, lb)))
    decreases |a.rest| + |b.rest|, 0
  {
    hide In;
    var t, e := c.Limit(), c.size;
    var x, y := a.rest[0].entry, b.rest[0].entry;
    CurNonempty(a, ca, la, t, e);
    CurNonempty(b, cb, lb, t, e);
    assert x == Left(ca, la)[0] && y == Left(cb, lb)[0];
    CompareIsOrder(x.key, y.key);
    LessTotal(x.key, y.key);
    var cmp := Memcmp(x.key, y.key, |x.key|);
    var ca', la', cb', lb' := ca, la, cb, lb;
    var a', b' := a, b;
    if cmp <= 0 {
      ca', la' := StepKeeps(a, ca, la, limit, t, e);
      a' := Step(a, limit, e).value;
      assert Left(ca', la') == Left(ca, la)[1..];
    }
    if cmp >= 0 {
      cb', lb' := StepKeeps(b, cb, lb, limit, t, e);
      b' := Step(b, limit, e).value;
      assert Left(cb', lb') == Left(cb, lb)[1..];
    }
    RunIsMerge(c, a', b', Adjusted(c, limit), n, ca', la', cb', lb');
  }

  /** Two non-empty levels in legal blocks, of one entry size and key length, are merged. */
  lemma MergesLegal(c: Config, fa: seq<seq<Entry>>, fb: seq<seq<Entry>>, n: nat)
    requires c.size >= 1 && c.Agree() && fa != [] && fb != []
    requires Legal(fa, c.Limit(), c.size) && Legal(fb, c.Limit(), c.size) && Even(Concat(fa), Concat(fb), n)
    ensures Run(c, Input(Flat(fa), 0), Input(Flat(fb), 0), c.block) == Some(Merge(Concat(fa), Concat(fb)))
  {
    Enter(fa, c.Limit(), c.size);
    Enter(fb, c.Limit(), c.size);
    RunIsMerge(c, Input(Flat(fa), 0), Input(Flat(fb), 0), c.block, n, fa[0], fa[1..], fb[0], fb[1..]);
  }

  // ----- whatever is read is the merge

  /** A region ends with the marker of its last block. */
  predicate EndsMarked(items: seq<Item>) {
    items == [] || items[|items| - 1].Restart?
  }

  lemma {:induction false} SizePositive(items: seq<Item>, e: nat)
    requires e >= 1
    ensures Size(items, e) >= |items| && (items != [] && EndsMarked(items) ==> Size(items, e) >= |items| - 1 + MarkSize)
  {
    if items != [] {
      SizePositive(items[1..], e);
    }
  }

  lemma StepReads(i: Input, limit: int, e: nat)
    requires i.rest != [] && i.rest[0].Item? && EndsMarked(i.rest)
    ensures var s := Step(i, limit, e);
            s.Some? ==> EndsMarked(s.value.rest) && EntriesOf(i.rest) == [i.rest[0].entry] + EntriesOf(s.value.rest)
  {
    assert i.rest[1..] != [];
    assert i.rest[1..][1..] == i.rest[2..];
  }

  /** The remainder loop misreads its input or copies all of it. */
  lemma {:induction false} DrainOnly(i: Input, limit: int, e: nat)
    requires e >= 1 && EndsMarked(i.rest)
    ensures Drain(i, limit, e).Some? ==> Drain(i, limit, e).value == EntriesOf(i.rest)
    decreases |i.rest|
  {
    SizePositive(i.rest, e);
    if i.rest == [] {
    } else if Size(i.rest, e) == MarkSize {
      assert i.rest == [Restart] && i.rest[1..] == [];
    } else if i.rest[0].Item? && Step(i, limit, e).Some? {
      StepReads(i, limit, e);
      DrainOnly(Step(i, limit, e).value, limit, e);
    }
  }

  lemma MarkerSkipped(rest: seq<Item>)
    requires rest != [] && rest[0].Restart? && EndsMarked(rest)
    ensures EndsMarked(rest[1..]) && EntriesOf(rest) == EntriesOf(rest[1..])
  {
  }

  /** Whatever its blocks and limits, the program misreads its inputs or emits their merge. */
  lemma {:induction false} RunOnly(c: Config, a: Input, b: Input, limit: int)
    requires c.size >= 1 && EndsMarked(a.rest) && EndsMarked(b.rest)
    ensures Run(c, a, b, limit).Some? ==> Run(c, a, b, limit).value == Merge(EntriesOf(a.rest), EntriesOf(b.rest))
    decreases |a.rest| + |b.rest|
  {
    if a.rest == [] || b.rest == [] {
      DrainOnly(if b.rest != [] then b else a, limit, c.size);
    } else if a.rest[0].Restart? {
      MarkerSkipped(a.rest);
      RunOnly(c, Input(a.rest[1..], 0), b, limit);
    } else if b.rest[0].Restart? {
      MarkerSkipped(b.rest);
      RunOnly(c, a, Input(b.rest[1..], 0), limit);
    } else {
      RunOnlyStep(c, a, b, limit);
    }
  }

  lemma {:induction false} RunOnlyStep(c: Config, a: Input, b: Input, limit: int)
    requires c.size >= 1 && EndsMarked(a.rest) && EndsMarked(b.rest)
    requires a.rest != [] && b.rest != [] && a.rest[0].Item? && b.rest[0].Item?
    ensures Run(c, a, b, limit).Some? ==> Run(c, a, b, limit).value == Merge(EntriesOf(a.rest), EntriesOf(b.rest))
    decreases |a.rest| + |b.rest|, 0
  {
    var x, y := a.rest[0].entry, b.rest[0].entry;
    if |x.key| == |y.key| {
      hide Step, Drain, EndsMarked;
      CompareIsOrder(x.key, y.key);
      LessTotal(x.key, y.key);
      var cmp := Memcmp(x.key, y.key, |x.key|);
      var a' := if cmp <= 0 then Step(a, limit, c.size) else Some(a);
      var b' := if cmp >= 0 then Step(b, limit, c.size) else Some(b);
      StepReads(a, limit, c.size);
      StepReads(b, limit, c.size);
      StepShrinks(a, limit, c.size);
      StepShrinks(b, limit, c.size);
      if a'.Some? && b'.Some? {
        RunOnly(c, a'.value, b'.value, Adjusted(c, limit));
        assert cmp <= 0 ==> EntriesOf(a.rest)[1..] == EntriesOf(a'.value.rest);
        assert cmp >= 0 ==> EntriesOf(b.rest)[1..] == EntriesOf(b'.value.rest);
      }
    }
  }

  lemma StepShrinks(i: Input, limit: int, e: nat)
    requires i.rest != [] && i.rest[0].Item?
    ensures Step(i, limit, e).Some? ==> |Step(i, limit, e).value.rest| < |i.rest|
  {
  }

  /** When legal levels are read: two that are not empty with sizes that agree, or one alone that
      the unlowered limit fits. */
  predicate Readable(c: Config, fa: seq<seq<Entry>>, fb: seq<seq<Entry>>) {
    if fa != [] && fb != [] then c.Agree()
    else c.size >= 1024 || |fa| + |fb| <= 1 || c.size >= c.block
  }

  lemma ReadableRuns(c: Config, fa: seq<seq<Entry>>, fb: seq<seq<Entry>>, n: nat)
    requires c.size >= 1 && Legal(fa, c.Limit(), c.size) && Legal(fb, c.Limit(), c.size)
    requires Even(Concat(fa), Concat(fb), n) && Readable(c, fa, fb)
    ensures Run(c, Input(Flat(fa), 0), Input(Flat(fb), 0), c.block) == Some(Merge(Concat(fa), Concat(fb)))
  {
    hide Run, Drain, Flat, Concat, Legal;
    if fa != [] && fb != [] {
      MergesLegal(c, fa, fb, n);
    } else {
      EmptyLevelExactly(c, fa);
      EmptyLevelExactly(c, fb);
      EmptyDrain(c.block, c.size);
    }
  }

  // ----- where it goes wrong

  ghost predicate AlwaysMerges(c: Config) {
    forall fa: seq<seq<Entry>>, fb: seq<seq<Entry>>, n: nat ::
      && fa != [] && fb != [] && Legal(fa, c.Limit(), c.size) && Legal(fb, c.Limit(), c.size)
      && Even(Concat(fa), Concat(fb), n)
      ==> Run(c, Input(Flat(fa), 0), Input(Flat(fb), 0), c.block) == Some(Merge(Concat(fa), Concat(fb)))
  }

  /** Entries of half a block or more, but less than a block, make the reader miss the first
      marker: exactly then some legal pair of levels is misread. */
  lemma MergesExactly(c: Config)
    requires c.size >= 1
    ensures AlwaysMerges(c) <==> c.Agree()
  {
    if c.Agree() {
      forall fa: seq<seq<Entry>>, fb: seq<seq<Entry>>, n: nat
        | && fa != [] && fb != [] && Legal(fa, c.Limit(), c.size) && Legal(fb, c.Limit(), c.size)
          && Even(Concat(fa), Concat(fb), n)
        ensures Run(c, Input(Flat(fa), 0), Input(Flat(fb), 0), c.block) == Some(Merge(Concat(fa), Concat(fb)))
      {
        MergesLegal(c, fa, fb, n);
      }
    } else {
      var x, y := Entry([0], 0, []), Entry([1], 0, []);
      var fa, fb := [[x]], [[x], [y]];
      MisreadExample(c, x, y);
      assert Concat(fa) == [x] && Concat(fb) == [x, y] by {
        assert fb[1..] == [[y]] && [[y]][1..] == [] && fa[1..] == [];
      }
      assert Even(Concat(fa), Concat(fb), 1);
    }
  }

  lemma MisreadExample(c: Config, x: Entry, y: Entry)
    requires c.size >= 1 && !c.Agree()
    ensures Legal([[x]], c.Limit(), c.size) && Legal([[x], [y]], c.Limit(), c.size)
    ensures Run(c, Input(Flat([[x]]), 0), Input(Flat([[x], [y]]), 0), c.block) == None
  {
    var e := c.size;
    assert Flat([[x]]) == [Item(x), Restart] by { FlatOne(x, []); }
    assert Flat([[y]]) == [Item(y), Restart] by { FlatOne(y, []); }
    assert Flat([[x], [y]]) == [Item(x), Restart, Item(y), Restart] by {
      FlatOne(x, [[y]]);
      assert [[x]] + [[y]] == [[x], [y]];
    }
    var a, b := Input([Item(x), Restart], 0), Input([Item(x), Restart, Item(y), Restart], 0);
    CompareIsOrder(x.key, x.key);
    var a', b' := Input([Restart], e), Input([Restart, Item(y), Restart], e);
    assert Step(a, c.block, e) == Some(a') && Step(b, c.block, e) == Some(b');
    assert a'.rest[1..] == [];
    assert b'.rest == Items([]) + [Restart] + Flat([[y]]);
    SizeOfMark(b'.rest, [], [[y]], e);
    assert Run(c, a', b', c.Limit()) == Run(c, Input([], 0), b', c.Limit()) == None;
    assert Run(c, a, b, c.block) == Cons(x, Run(c, a', b', c.Limit()));
  }

  lemma FlatOne(x: Entry, more: seq<seq<Entry>>)
    ensures Flat([[x]] + more) == [Item(x), Restart] + Flat(more)
  {
    assert ([[x]] + more)[1..] == more;
  }

  lemma {:induction false} DrainStuck(i: Input, cur: seq<Entry>, later: seq<seq<Entry>>, limit: int, e: nat)
    requires e >= 1 && later != [] && i.rest == Items(cur) + [Restart] + Flat(later) && i.cum + |cur| * e < limit
    ensures Drain(i, limit, e) == None
    decreases |cur|
  {
    hide Flat, Size;
    SizeOfMark(i.rest, cur, later, e);
    if cur != [] {
      assert i.rest[0] == Item(cur[0]);
      assert |cur| * e == e + |cur[1..]| * e;
      assert Items(cur)[1..] == Items(cur[1..]);
      assert i.rest[1..] == Items(cur[1..]) + [Restart] + Flat(later);
      DrainStuck(Input(i.rest[1..], i.cum + e), cur[1..], later, limit, e);
    }
  }

  lemma LegalUnder(blocks: seq<seq<Entry>>, t: int, t': int, e: nat)
    requires e >= 1 && Legal(blocks, t, e) && t <= t' && (|blocks| <= 1 || (t <= 0 && t' <= e))
    ensures Legal(blocks, t', e)
  {
    forall i | 0 <= i < |blocks| - 1 ensures Full(blocks[i], t', e) {
      assert Full(blocks[i], t, e);
      assert |blocks[i]| * e >= e;
    }
  }

  /** When one level is empty the limit is never lowered. A legal level of small entries is then
      copied exactly when it has at most one block or its entries fill whole blocks. */
  lemma EmptyLevelExactly(c: Config, blocks: seq<seq<Entry>>)
    requires c.size >= 1 && Legal(blocks, c.Limit(), c.size)
    ensures Run(c, Input([], 0), Input(Flat(blocks), 0), c.block) == Some(Concat(blocks))
            <==> c.size >= 1024 || |blocks| <= 1 || c.size >= c.block
    ensures Run(c, Input(Flat(blocks), 0), Input([], 0), c.block)
            == Run(c, Input([], 0), Input(Flat(blocks), 0), c.block)
  {
    hide Run, Drain, Flat, Concat, Legal;
    RunOneEmpty(c, Flat(blocks));
    if blocks == [] {
      EmptyDrain(c.block, c.size);
    } else if c.size >= 1024 || |blocks| <= 1 || c.size >= c.block {
      EmptyLevelCopied(c, blocks);
    } else {
      EmptyLevelStuck(c, blocks);
    }
  }

  lemma RunOneEmpty(c: Config, rest: seq<Item>)
    ensures Run(c, Input([], 0), Input(rest, 0), c.block) == Drain(Input(rest, 0), c.block, c.size)
    ensures Run(c, Input(rest, 0), Input([], 0), c.block) == Drain(Input(rest, 0), c.block, c.size)
  {
    hide Drain;
  }

  lemma EmptyDrain(limit: int, e: nat)
    ensures Flat([]) == [] && Concat([]) == [] && Drain(Input([], 0), limit, e) == Some([])
  {
  }

  lemma EmptyLevelCopied(c: Config, blocks: seq<seq<Entry>>)
    requires c.size >= 1 && Legal(blocks, c.Limit(), c.size) && blocks != []
    requires c.size >= 1024 || |blocks| <= 1 || c.size >= c.block
    ensures Drain(Input(Flat(blocks), 0), c.block, c.size) == Some(Concat(blocks))
  {
    hide Drain, Flat, Legal, In;
    if c.size < 1024 {
      LegalUnder(blocks, c.Limit(), c.block, c.size);
    }
    Enter(blocks, c.block, c.size);
    DrainAll(Input(Flat(blocks), 0), blocks[0], blocks[1..], c.block, c.size);
    assert Left(blocks[0], blocks[1..]) == Concat(blocks);
  }

  lemma EmptyLevelStuck(c: Config, blocks: seq<seq<Entry>>)
    requires c.size >= 1 && Legal(blocks, c.Limit(), c.size) && |blocks| > 1 && c.size < 1024 && c.size < c.block
    ensures Drain(Input(Flat(blocks), 0), c.block, c.size) == None
  {
    hide Drain;
    var b := blocks[0];
    assert NotOverfull(b, c.Limit(), c.size);
    assert |b| * c.size == c.size + (|b| - 1) * c.size;
    DrainStuck(Input(Flat(blocks), 0), b, blocks[1..], c.block, c.size);
  }
}
