/** How many entries blocks and tables take, all entries being of one size: the rules that say when
    a block and a table end leave no choice. */
module TableSplits {
  import opened Arithmetic
  import opened Lsm
  import opened Compaction

  /** The entries of a full block. */
  function PerBlock(limit: int, e: nat): (q: nat)
    requires e >= 1
    ensures q >= 1
  {
    if limit <= e then 1
    else
      QuotientBelow(limit + e - 1, e, 1);
      (limit + e - 1) / e
  }

  /** A count below, at or above that of a full block. */
  lemma PerBlockIs(n: nat, limit: int, e: nat)
    requires e >= 1 && n >= 1
    ensures n * e >= limit <==> n >= PerBlock(limit, e)
  {
    if limit > e {
      QuotientBelow(limit + e - 1, e, n + 1);
      assert (n + 1) * e == n * e + e;
    } else {
      Monotone(1, n, e);
    }
  }

  lemma BlockEntries(b: seq<Entry>, limit: int, e: nat)
    requires e >= 1
    ensures NotOverfull(b, limit, e) <==> 1 <= |b| <= PerBlock(limit, e)
    ensures Full(b, limit, e) <==> |b| == PerBlock(limit, e)
    ensures |b| >= 1 ==> (|b| * e >= limit <==> |b| >= PerBlock(limit, e))
  {
    if |b| >= 1 {
      PerBlockIs(|b|, limit, e);
    }
    if |b| > 1 {
      PerBlockIs(|b| - 1, limit, e);
    }
  }

  /** The offset of a table that holds k entries, markers of full blocks included. */
  function OffsetOf(k: nat, q: nat, e: nat): nat
    requires q >= 1
  {
    Product(k / q, Product(q, e) + MarkSize) + Product(k % q, e)
  }

  lemma OffsetIs(k: nat, q: nat, e: nat, m: nat, r: nat)
    requires q >= 1 && k == Product(m, q) + r && r < q
    ensures k % q == r && OffsetOf(k, q, e) == Product(m, Product(q, e) + MarkSize) + Product(r, e)
  {
    QuotientIs(k, q, m, r);
  }

  /** One more entry costs its size, and a marker if it fills the block. */
  lemma OffsetStep(k: nat, q: nat, e: nat)
    requires q >= 1
    ensures OffsetOf(k + 1, q, e) == OffsetOf(k, q, e) + e + if (k + 1) % q == 0 then MarkSize else 0
  {
    var m, r := k / q, k % q;
    assert k == Product(m, q) + r;
    hide OffsetOf, Product;
    OffsetIs(k, q, e, m, r);
    ProductStep(r, e);
    if r + 1 < q {
      OffsetIs(k + 1, q, e, m, r + 1);
    } else {
      ProductStep(m, q);
      ProductStep(m, Product(q, e) + MarkSize);
      ProductStep(0, e);
      OffsetIs(k + 1, q, e, m + 1, 0);
    }
  }

  lemma ProductStep(a: nat, b: nat)
    ensures Product(a + 1, b) == Product(a, b) + b && Product(0, b) == 0
  {
  }

  lemma {:induction false} OffsetGrows(j: nat, k: nat, q: nat, e: nat)
    requires q >= 1 && e >= 1 && j < k
    ensures OffsetOf(j, q, e) < OffsetOf(k, q, e)
  {
    hide OffsetOf;
    OffsetStep(k - 1, q, e);
    if j < k - 1 {
      OffsetGrows(j, k - 1, q, e);
    }
  }

  /** The least number of entries, one at least, that brings a table to the threshold. */
  predicate IsPerTable(n: nat, threshold: nat, limit: int, e: nat)
    requires e >= 1
  {
    var q := PerBlock(limit, e);
    n >= 1 && OffsetOf(n, q, e) >= threshold && (n > 1 ==> OffsetOf(n - 1, q, e) < threshold)
  }

  lemma PerTableUnique(n: nat, k: nat, threshold: nat, limit: int, e: nat)
    requires e >= 1 && IsPerTable(n, threshold, limit, e) && IsPerTable(k, threshold, limit, e)
    ensures n == k
  {
    hide OffsetOf, PerBlock;
    var q := PerBlock(limit, e);
    if n < k - 1 {
      OffsetGrows(n, k - 1, q, e);
    } else if k < n - 1 {
      OffsetGrows(k, n - 1, q, e);
    }
  }

  /** Full blocks but the last: sizes and entries. */
  lemma {:induction false} FullBlocks(t: seq<seq<Entry>>, q: nat, e: nat)
    requires forall i :: 0 <= i < |t| ==> |t[i]| == q
    ensures DataSize(t, e) == Product(|t|, Product(q, e) + MarkSize) && |Concat(t)| == Product(|t|, q)
  {
    if t == [] {
      ProductStep(0, q);
      ProductStep(0, Product(q, e) + MarkSize);
    } else {
      FullBlocks(t[1..], q, e);
      ProductStep(|t| - 1, q);
      ProductStep(|t| - 1, Product(q, e) + MarkSize);
    }
  }

  /** What a table's blocks and offsets are, told by how many entries it has. */
  lemma TableCounts(t: seq<seq<Entry>>, limit: int, e: nat)
    requires e >= 1 && t != [] && Legal(t, limit, e)
    ensures var q, n, m := PerBlock(limit, e), |Concat(t)|, |t| - 1;
            && n >= 1 && (forall i :: 0 <= i < m ==> |t[i]| == q) && 1 <= |t[m]| <= q
            && Before(t, e) == OffsetOf(n - 1, q, e) && Reached(t, limit, e) == OffsetOf(n, q, e)
  {
    hide OffsetOf, PerBlock, Concat, DataSize, NotOverfull, Full;
    var q, m := PerBlock(limit, e), |t| - 1;
    forall i | 0 <= i < m ensures |t[i]| == q {
      assert Full(t[i], limit, e);
      BlockEntries(t[i], limit, e);
    }
    assert NotOverfull(t[m], limit, e);
    BlockEntries(t[m], limit, e);
    FullBlocks(t[..m], q, e);
    assert t == t[..m] + [t[m]];
    ConcatAppend(t[..m], [t[m]]);
    OneBlock(t[m]);
    CountsAre(m, |t[m]|, q, e);
  }

  lemma OneBlock(b: seq<Entry>)
    ensures Concat([b]) == b
  {
    assert [b][1..] == [];
  }

  lemma CountsAre(m: nat, last: nat, q: nat, e: nat)
    requires 1 <= last <= q
    ensures var n := Product(m, q) + last;
            && OffsetOf(n - 1, q, e) == Product(m, Product(q, e) + MarkSize) + (last - 1) * e
            && OffsetOf(n, q, e) == Product(m, Product(q, e) + MarkSize) + last * e + if last == q then MarkSize else 0
  {
    assert (last - 1) * e == Product(last - 1, e) && last * e == Product(last, e);
    hide OffsetOf, Product;
    var n := Product(m, q) + last;
    OffsetIs(n - 1, q, e, m, last - 1);
    OffsetStep(n - 1, q, e);
    ProductStep(last - 1, e);
    if last == q {
      ProductStep(m, q);
      OffsetIs(n, q, e, m + 1, 0);
    } else {
      OffsetIs(n, q, e, m, last);
    }
  }

  /** Tables that obey the block rule and the table rule. */
  ghost predicate Packed(done: seq<seq<seq<Entry>>>, threshold: nat, limit: int, e: nat) {
    Splits(done, threshold, limit, e) && forall i :: 0 <= i < |done| ==> done[i] != [] && Legal(done[i], limit, e)
  }

  /** Every table but the last has just as many entries as it takes to reach the threshold, in
      blocks of just as many entries as it takes to reach the block limit; the last one has no
      more. */
  lemma TablesEven(done: seq<seq<seq<Entry>>>, threshold: nat, limit: int, e: nat, i: nat)
    requires e >= 1 && Packed(done, threshold, limit, e) && i < |done|
    ensures var n, m := |Concat(done[i])|, |done[i]| - 1;
            && m >= 0 && (forall k :: 0 <= k < m ==> |done[i][k]| == PerBlock(limit, e))
            && 1 <= |done[i][m]| <= PerBlock(limit, e)
            && (i + 1 < |done| ==> IsPerTable(n, threshold, limit, e))
            && forall k: nat :: k < n ==> !IsPerTable(k, threshold, limit, e)
  {
    hide OffsetOf, PerBlock, Concat, DataSize, Legal;
    var t := done[i];
    var q, n := PerBlock(limit, e), |Concat(t)|;
    TableCounts(t, limit, e);
    assert NotOverlong(t, threshold, e);
    ZeroOffset(n - 1, q, e);
    forall k: nat | k < n ensures !IsPerTable(k, threshold, limit, e) {
      if k < n - 1 {
        OffsetGrows(k, n - 1, q, e);
      }
      ZeroOffset(k, q, e);
    }
  }

  lemma ZeroOffset(k: nat, q: nat, e: nat)
    requires q >= 1 && e >= 1
    ensures OffsetOf(k, q, e) == 0 <==> k == 0
  {
    OffsetIs(0, q, e, 0, 0);
    if k > 0 {
      OffsetGrows(0, k, q, e);
    }
  }

  // ----- the entries alone say what the tables are

  lemma ConcatCons(t: seq<seq<Entry>>)
    requires t != []
    ensures Concat(t) == t[0] + Concat(t[1..])
  {
  }

  lemma LegalBlocks(t: seq<seq<Entry>>, limit: int, e: nat)
    requires e >= 1 && t != [] && Legal(t, limit, e)
    ensures 1 <= |t[0]| <= PerBlock(limit, e) && (|t| > 1 ==> |t[0]| == PerBlock(limit, e))
    ensures Legal(t[1..], limit, e) && if |t| > 1 then |Concat(t)| > |t[0]| else Concat(t) == t[0]
  {
    hide PerBlock, NotOverfull, Full;
    var rest := t[1..];
    assert NotOverfull(t[0], limit, e);
    BlockEntries(t[0], limit, e);
    if |t| > 1 {
      assert Full(t[0], limit, e) && NotOverfull(t[1], limit, e);
      BlockEntries(t[1], limit, e);
      ConcatCons(rest);
    } else {
      OneBlock(t[0]);
      assert t == [t[0]];
    }
    forall i | 0 <= i < |rest| ensures NotOverfull(rest[i], limit, e) && (i < |rest| - 1 ==> Full(rest[i], limit, e)) {
      assert rest[i] == t[i + 1];
    }
  }

  /** The same entries fall into the same blocks. */
  lemma {:induction false} BlocksOnce(t: seq<seq<Entry>>, u: seq<seq<Entry>>, limit: int, e: nat)
    requires e >= 1 && Legal(t, limit, e) && Legal(u, limit, e) && Concat(t) == Concat(u)
    ensures t == u
  {
    hide PerBlock, Legal, Concat;
    NoBlocks();
    if t != [] {
      LegalBlocks(t, limit, e);
    }
    if u != [] {
      LegalBlocks(u, limit, e);
    }
    if t != [] && u != [] {
      ConcatCons(t);
      ConcatCons(u);
      SamePrefix(t[0], Concat(t[1..]), u[0], Concat(u[1..]));
      BlocksOnce(t[1..], u[1..], limit, e);
      assert t == [t[0]] + t[1..] && u == [u[0]] + u[1..];
    }
  }

  lemma NoBlocks()
    ensures Concat([]) == [] && Joined([]) == []
  {
  }

  lemma SamePrefix<T>(a: seq<T>, x: seq<T>, b: seq<T>, y: seq<T>)
    requires a + x == b + y && |a| == |b|
    ensures a == b && x == y
  {
    assert a == (a + x)[..|a|] && b == (b + y)[..|b|];
    assert x == (a + x)[|a|..] && y == (b + y)[|b|..];
  }

  lemma {:induction false} JoinedCons(done: seq<seq<seq<Entry>>>)
    requires done != []
    ensures Joined(done) == Concat(done[0]) + Joined(done[1..])
  {
    hide Concat;
    var m := |done| - 1;
    if m > 0 {
      JoinedCons(done[..m]);
      assert done[..m][1..] == done[1..][..m - 1];
    } else {
      assert done[..0] == [] && done[1..] == [];
    }
  }

  lemma PackedTail(done: seq<seq<seq<Entry>>>, threshold: nat, limit: int, e: nat)
    requires Packed(done, threshold, limit, e) && done != []
    ensures Packed(done[1..], threshold, limit, e)
  {
    hide Before, Reached, Legal;
    var rest := done[1..];
    forall i | 0 <= i < |rest| ensures rest[i] == done[i + 1] { }
  }

  lemma FirstTable(done: seq<seq<seq<Entry>>>, threshold: nat, limit: int, e: nat)
    requires e >= 1 && Packed(done, threshold, limit, e) && done != []
    ensures |Concat(done[0])| >= 1 && Joined(done) == Concat(done[0]) + Joined(done[1..])
    ensures |done| == 1 ==> Joined(done) == Concat(done[0])
    ensures |done| > 1 ==> |Joined(done)| > |Concat(done[0])|
  {
    hide Legal, Splits, Concat, Joined;
    JoinedCons(done);
    LegalBlocks(done[0], limit, e);
    NoBlocks();
    if |done| > 1 {
      JoinedCons(done[1..]);
      LegalBlocks(done[1], limit, e);
    }
  }

  /** Two packings of the same entries are the same. */
  lemma {:induction false} PackedOnce(a: seq<seq<seq<Entry>>>, b: seq<seq<seq<Entry>>>, threshold: nat, limit: int,
                                      e: nat)
    requires e >= 1 && Packed(a, threshold, limit, e) && Packed(b, threshold, limit, e) && Joined(a) == Joined(b)
    ensures a == b
  {
    hide PerBlock, Packed, Concat, Joined, IsPerTable;
    NoBlocks();
    if a != [] {
      FirstTable(a, threshold, limit, e);
      TablesEven(a, threshold, limit, e, 0);
    }
    if b != [] {
      FirstTable(b, threshold, limit, e);
      TablesEven(b, threshold, limit, e, 0);
    }
    if a != [] && b != [] {
      SamePrefix(Concat(a[0]), Joined(a[1..]), Concat(b[0]), Joined(b[1..]));
      FirstLegal(a, threshold, limit, e);
      FirstLegal(b, threshold, limit, e);
      BlocksOnce(a[0], b[0], limit, e);
      PackedTail(a, threshold, limit, e);
      PackedTail(b, threshold, limit, e);
      PackedOnce(a[1..], b[1..], threshold, limit, e);
      assert a == [a[0]] + a[1..] && b == [b[0]] + b[1..];
    }
  }

  /** So a compaction of the same entries, with the same sizes, writes the same tables. */
  lemma TablesOnce(a: seq<seq<seq<Entry>>>, ta: seq<Table>, b: seq<seq<seq<Entry>>>, tb: seq<Table>, threshold: nat,
                   limit: int, e: nat)
    requires e >= 1 && FinishedOk(a, ta, limit, e) && Splits(a, threshold, limit, e)
    requires FinishedOk(b, tb, limit, e) && Splits(b, threshold, limit, e) && Joined(a) == Joined(b)
    ensures a == b && ta == tb
  {
    hide Joined, Splits, Legal, TableOf;
    PackedOnce(a, b, threshold, limit, e);
  }

  lemma FirstLegal(done: seq<seq<seq<Entry>>>, threshold: nat, limit: int, e: nat)
    requires Packed(done, threshold, limit, e) && done != []
    ensures Legal(done[0], limit, e)
  {
  }
}
