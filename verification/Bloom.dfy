/** The cache-line bloom filter of a table. The filter is an array of bits, eight to the byte,
    followed by five bytes of metadata; hashes are pairs of 32-bit halves. */
module Bloom {
  import opened Arithmetic

  const WORD: nat := 0x1_0000_0000
  const MULTIPLIER: nat := 0x9e37_79b9
  const LINE: nat := 64
  const META: nat := 5

  datatype Hash = Hash(lower: nat, upper: nat) {
    predicate Valid() {
      lower < WORD && upper < WORD
    }
  }

  /** Maps a 32-bit hash onto 0..range, in proportion. */
  function FastRange32(hash: nat, range: nat): (r: nat)
    requires hash < WORD
    ensures range > 0 ==> r < range
    ensures r * WORD <= range * hash < (r + 1) * WORD
  {
    if range == 0 then 0
    else
      ProductBelow(hash, range);
      range * hash / WORD
  }

  lemma ProductBelow(hash: nat, range: nat)
    requires hash < WORD && range > 0
    ensures 0 <= range * hash / WORD < range
  {
    Monotone(hash, WORD - 1, range);
    assert range * hash <= (WORD - 1) * range < range * WORD;
    assert 0 <= range * hash;
    QuotientBelow(range * hash, WORD, range);
  }

  /** A larger hash is never mapped to a smaller value, and every value is reached. */
  lemma RangeReached(range: nat, j: nat, hash: nat, hash': nat)
    requires 1 <= range <= WORD && j < range && hash <= hash' < WORD
    ensures FastRange32(hash, range) <= FastRange32(hash', range)
    ensures exists h: nat :: h < WORD && FastRange32(h, range) == j
  {
    Monotone(hash, hash', range);
    QuotientsGrow(range * hash, range * hash', WORD);
    var h := (j * WORD + range - 1) / range;
    QuotientBelow(j * WORD + range - 1, range, WORD);
    LeastHash(range, j, h);
    assert FastRange32(h, range) == j;
  }

  lemma LeastHash(range: nat, j: nat, h: nat)
    requires 1 <= range <= WORD && j < range && h == (j * WORD + range - 1) / range
    ensures h < WORD && range * h / WORD == j
  {
    var x := j * WORD + range - 1;
    assert x == h * range + x % range;
    Monotone(j + 1, range, WORD);
    QuotientBelow(x, range, WORD);
    assert j * WORD <= range * h <= j * WORD + range - 1;
    QuotientIs(range * h, WORD, j, range * h - j * WORD);
  }

  /** First byte of the cache line of a hash, in len bytes of filter. */
  function LineOf(lower: nat, len: nat): (r: nat)
    requires lower < WORD
    ensures len >= LINE ==> r + LINE <= len
  {
    FastRange32(lower, len / LINE) * LINE
  }

  /** The hash after k steps, and the bit of the line that it probes. */
  function Step(upper: nat, k: nat): (r: nat)
    requires upper < WORD
    ensures r < WORD
  {
    if k == 0 then upper else Step(upper, k - 1) * MULTIPLIER % WORD
  }

  /** The top nine of the 32 bits. */
  function ProbeBit(h: nat): (r: nat)
    requires h < WORD
    ensures r < 8 * LINE && r * 0x80_0000 <= h < (r + 1) * 0x80_0000
  {
    h / 0x80_0000
  }

  const INVERSE: nat := 0x144c_bc89

  /** The multiplier is odd, so a step can be undone: different hashes stay different. */
  lemma StepUndone(u: nat)
    requires u < WORD
    ensures u * MULTIPLIER % WORD * INVERSE % WORD == u
  {
    var x := u * MULTIPLIER;
    var q := x / WORD;
    assert x == q * WORD + x % WORD;
    var m := MULTIPLIER * INVERSE / WORD;
    assert MULTIPLIER * INVERSE == m * WORD + 1;
    assert x * INVERSE == u * (MULTIPLIER * INVERSE) == (u * m) * WORD + u;
    assert x % WORD * INVERSE == x * INVERSE - q * INVERSE * WORD;
    assert x % WORD * INVERSE == (u * m - q * INVERSE) * WORD + u;
    QuotientIs(x % WORD * INVERSE, WORD, u * m - q * INVERSE, u);
  }

  lemma {:induction false} StepsApart(u: nat, v: nat, k: nat)
    requires u < WORD && v < WORD && u != v
    ensures Step(u, k) != Step(v, k)
  {
    if k > 0 {
      StepsApart(u, v, k - 1);
      StepUndone(Step(u, k - 1));
      StepUndone(Step(v, k - 1));
    }
  }

  /** Bit b of the filter is one of the bits of hash h. */
  ghost predicate Hits(h: Hash, len: nat, probes: nat, b: int)
    requires h.Valid()
  {
    exists k: nat :: k < probes && b == 8 * LineOf(h.lower, len) + ProbeBit(Step(h.upper, k))
  }

  lemma HitsInside(h: Hash, len: nat, probes: nat, b: int)
    requires h.Valid() && len >= LINE && Hits(h, len, probes, b)
    ensures 0 <= b < 8 * len
  {
    var k: nat :| k < probes && b == 8 * LineOf(h.lower, len) + ProbeBit(Step(h.upper, k));
  }

  ghost predicate AllValid(hs: seq<Hash>) {
    forall i :: 0 <= i < |hs| ==> hs[i].Valid()
  }

  /** The bits are the initial ones and those of the entries in done, no more and no less. */
  ghost predicate Holds(bits: seq<bool>, init: seq<bool>, hs: seq<Hash>, len: nat, probes: nat, done: set<int>) {
    && |bits| == |init| && AllValid(hs) && (forall e :: e in done ==> 0 <= e < |hs|)
    && forall b :: 0 <= b < |bits| ==> (bits[b] <==> init[b] || HitByOne(hs, len, probes, done, b))
  }

  ghost predicate HitByOne(hs: seq<Hash>, len: nat, probes: nat, done: set<int>, b: int)
    requires AllValid(hs) && forall e :: e in done ==> 0 <= e < |hs|
  {
    exists e :: e in done && Hits(hs[e], len, probes, b)
  }

  /** Sets the bits of one hash in the line at byte offset line. */
  method AddHashPrepared(bits: array<bool>, upper: nat, line: nat, probes: nat)
    requires upper < WORD && 8 * (line + LINE) <= bits.Length
    modifies bits
    ensures forall b :: 0 <= b < bits.Length ==>
              (bits[b] <==> old(bits[b]) || InLine(upper, line, probes, b))
  {
    var h, k := upper, 0;
    while k < probes
      invariant k <= probes && h == Step(upper, k)
      invariant forall b :: 0 <= b < bits.Length ==> (bits[b] <==> old(bits[b]) || InLine(upper, line, k, b))
    {
      InLineNext(upper, line, k);
      bits[8 * line + ProbeBit(h)] := true;
      h := h * MULTIPLIER % WORD;
      k := k + 1;
    }
  }

  ghost predicate InLine(upper: nat, line: nat, probes: nat, b: int)
    requires upper < WORD
  {
    exists k: nat :: k < probes && b == 8 * line + ProbeBit(Step(upper, k))
  }

  lemma InLineNext(upper: nat, line: nat, k: nat)
    requires upper < WORD
    ensures forall b :: InLine(upper, line, k + 1, b) <==>
              InLine(upper, line, k, b) || b == 8 * line + ProbeBit(Step(upper, k))
  {
    forall b
      ensures InLine(upper, line, k + 1, b) <==>
                InLine(upper, line, k, b) || b == 8 * line + ProbeBit(Step(upper, k))
    {
      if InLine(upper, line, k + 1, b) {
        var j: nat :| j < k + 1 && b == 8 * line + ProbeBit(Step(upper, j));
        assert j < k || j == k;
      }
    }
  }

  /** One more entry is done. */
  lemma HoldsMore(before: seq<bool>, after: seq<bool>, init: seq<bool>, hs: seq<Hash>, len: nat, probes: nat,
                  done: set<int>, e: int)
    requires Holds(before, init, hs, len, probes, done) && 0 <= e < |hs| && |after| == |before|
    requires forall b :: 0 <= b < |after| ==> (after[b] <==> before[b] || Hits(hs[e], len, probes, b))
    ensures Holds(after, init, hs, len, probes, done + {e})
  {
    forall b | 0 <= b < |after| ensures after[b] <==> init[b] || HitByOne(hs, len, probes, done + {e}, b) {
      if HitByOne(hs, len, probes, done, b) {
        var d :| d in done && Hits(hs[d], len, probes, b);
        assert d in done + {e};
      }
      if HitByOne(hs, len, probes, done + {e}, b) {
        var d :| d in done + {e} && Hits(hs[d], len, probes, b);
        assert d == e || d in done;
      }
      assert e in done + {e};
    }
  }

  /** The last entry before i whose number is s modulo eight. */
  function Pending(i: nat, s: nat): int
    requires s < 8 && s < i
  {
    s + (i - 1 - s) / 8 * 8
  }

  lemma PendingMoves(i: nat)
    requires i >= 8
    ensures Pending(i, i % 8) == i - 8 && Pending(i + 1, i % 8) == i
    ensures forall s: nat :: s < 8 && s != i % 8 ==> Pending(i + 1, s) == Pending(i, s)
  {
    var q, r := i / 8, i % 8;
    assert i == 8 * q + r;
    PendingIs(i, r, q - 1);
    PendingIs(i + 1, r, q);
    forall s: nat | s < 8 && s != r ensures Pending(i + 1, s) == Pending(i, s) {
      PendingIs(i, s, if s < r then q else q - 1);
      PendingIs(i + 1, s, if s < r then q else q - 1);
    }
  }

  lemma PendingIs(i: nat, s: nat, k: nat)
    requires s < 8 && s + 8 * k < i <= s + 8 * k + 8
    ensures Pending(i, s) == s + 8 * k
  {
    assert (i - 1 - s) / 8 == k;
  }

  lemma PendingCovers(n: nat, e: nat)
    requires e < n <= e + 8
    ensures e % 8 < n && Pending(n, e % 8) == e
  {
  }

  /** The buffers hold the prepared form of the last eight entries before i. */
  ghost predicate Prepared(uppers: seq<nat>, lines: seq<nat>, hs: seq<Hash>, len: nat, i: nat) {
    && |uppers| == |lines| == 8 && AllValid(hs) && i <= |hs|
    && forall s: nat :: s < 8 && s < i ==> InSlot(uppers[s], lines[s], hs, len, Pending(i, s))
  }

  ghost predicate InSlot(upper: nat, line: nat, hs: seq<Hash>, len: nat, e: int)
    requires AllValid(hs)
  {
    0 <= e < |hs| && upper == hs[e].upper && line == LineOf(hs[e].lower, len)
  }

  lemma PreparedNext(u: seq<nat>, l: seq<nat>, hs: seq<Hash>, len: nat, i: nat)
    requires Prepared(u, l, hs, len, i) && i < |hs|
    ensures Prepared(u[i % 8 := hs[i].upper], l[i % 8 := LineOf(hs[i].lower, len)], hs, len, i + 1)
  {
    if i >= 8 {
      PendingMoves(i);
    }
  }

  /** Adds all hashes, eight deep in a pipeline: exactly the bits that adding them one by one
      would set. */
  method AddAllEntries(bits: array<bool>, len: nat, probes: nat, hs: seq<Hash>)
    requires AllValid(hs) && len >= LINE && 8 * len <= bits.Length
    modifies bits
    ensures forall b :: 0 <= b < bits.Length ==>
              (bits[b] <==> old(bits[b]) || exists e :: 0 <= e < |hs| && Hits(hs[e], len, probes, b))
  {
    hide Hits, LineOf, Pending, HitByOne, Holds, Prepared, InSlot;
    NonePrepared(hs, len);
    var uppers, lines := new nat[8], new nat[8];
    ghost var init := bits[..];
    ghost var done: set<int> := {};
    var i, n := 0, |hs|;
    NoneDone(init, hs, len, probes);
    while i < 8 && i < n
      invariant i <= 8 && i <= n
      invariant Prepared(uppers[..], lines[..], hs, len, i) && bits[..] == init
    {
      PreparedNext(uppers[..], lines[..], hs, len, i);
      uppers[i], lines[i] := hs[i].upper, LineOf(hs[i].lower, len);
      i := i + 1;
    }
    while i < n
      invariant i <= n && (i < n ==> i >= 8)
      invariant Prepared(uppers[..], lines[..], hs, len, i)
      invariant Holds(bits[..], init, hs, len, probes, done)
      invariant forall e :: e in done <==> 0 <= e < i - 8
    {
      var s := i % 8;
      PendingMoves(i);
      SlotReady(uppers[..], lines[..], hs, len, i, s);
      AddSlot(bits, uppers[s], lines[s], len, probes, hs, init, done, i - 8);
      done := done + {i - 8};
      PreparedNext(uppers[..], lines[..], hs, len, i);
      uppers[s], lines[s] := hs[i].upper, LineOf(hs[i].lower, len);
      i := i + 1;
    }
    ghost var base := done;
    var s := 0;
    while s < 8 && s < n
      invariant s <= 8 && s <= n && Prepared(uppers[..], lines[..], hs, len, n)
      invariant Holds(bits[..], init, hs, len, probes, done)
      invariant base <= done && forall t: nat :: t < s ==> Pending(n, t) in done
    {
      SlotReady(uppers[..], lines[..], hs, len, n, s);
      AddSlot(bits, uppers[s], lines[s], len, probes, hs, init, done, Pending(n, s));
      done := done + {Pending(n, s)};
      s := s + 1;
    }
    forall e | 0 <= e < n ensures e in done {
      if e >= n - 8 {
        PendingCovers(n, e);
      }
    }
    AllDone(bits[..], init, hs, len, probes, done);
  }

  lemma NonePrepared(hs: seq<Hash>, len: nat)
    requires AllValid(hs)
    ensures forall u: seq<nat>, l: seq<nat> :: |u| == |l| == 8 ==> Prepared(u, l, hs, len, 0)
  {
  }

  lemma SlotReady(u: seq<nat>, l: seq<nat>, hs: seq<Hash>, len: nat, i: nat, s: nat)
    requires Prepared(u, l, hs, len, i) && s < 8 && s < i
    ensures |u| == |l| == 8 && InSlot(u[s], l[s], hs, len, Pending(i, s))
  {
  }

  lemma NoneDone(init: seq<bool>, hs: seq<Hash>, len: nat, probes: nat)
    requires AllValid(hs)
    ensures Holds(init, init, hs, len, probes, {})
  {
  }

  lemma AllDone(bits: seq<bool>, init: seq<bool>, hs: seq<Hash>, len: nat, probes: nat, done: set<int>)
    requires Holds(bits, init, hs, len, probes, done) && forall e :: 0 <= e < |hs| ==> e in done
    ensures forall b :: 0 <= b < |bits| ==>
              (bits[b] <==> init[b] || exists e :: 0 <= e < |hs| && Hits(hs[e], len, probes, b))
  {
    hide Hits;
  }

  /** Adds the entry that a buffer slot holds. */
  method AddSlot(bits: array<bool>, upper: nat, line: nat, len: nat, probes: nat, ghost hs: seq<Hash>,
                 ghost init: seq<bool>, ghost done: set<int>, ghost e: int)
    requires AllValid(hs) && InSlot(upper, line, hs, len, e) && len >= LINE && 8 * len <= bits.Length
    requires Holds(bits[..], init, hs, len, probes, done)
    modifies bits
    ensures Holds(bits[..], init, hs, len, probes, done + {e})
  {
    hide Holds;
    ghost var before := bits[..];
    AddHashPrepared(bits, upper, line, probes);
    HoldsMore(before, bits[..], init, hs, len, probes, done, e);
  }

  // ----- sizes and probe counts

  /** Bytes of a filter, metadata included: whole cache lines and five bytes more. */
  function CalculateSpace(entries: nat, bitsPerKey: nat): (r: nat)
    ensures r >= META && (r - META) % LINE == 0 && r - META < WORD
    ensures entries > 0 && bitsPerKey > 0 ==> r >= LINE + META
    ensures r - META < WORD - LINE ==> entries * bitsPerKey <= 8 * (r - META) < entries * bitsPerKey + 8 * LINE
  {
    var raw := (entries * (bitsPerKey * 1000) + 7999) / 8000;
    if entries > 0 && bitsPerKey > 0 then
      SpacePositive(entries, bitsPerKey);
      AlignDown(Min(raw, 0xffff_ffc0) + 63, LINE) + META
    else AlignDown(Min(raw, 0xffff_ffc0) + 63, LINE) + META
  }

  lemma SpacePositive(entries: nat, bitsPerKey: nat)
    requires entries > 0 && bitsPerKey > 0
    ensures (entries * (bitsPerKey * 1000) + 7999) / 8000 >= 1
  {
    Monotone(1, entries, bitsPerKey * 1000);
  }

  /** How many bits to probe, from the millibits there are for each key. */
  function GetNumProbes(millibits: nat): (r: nat)
    ensures 1 <= r <= 24
  {
    if millibits <= 2080 then 1
    else if millibits <= 3580 then 2
    else if millibits <= 5100 then 3
    else if millibits <= 6640 then 4
    else if millibits <= 8300 then 5
    else if millibits <= 10070 then 6
    else if millibits <= 11720 then 7
    else if millibits <= 14001 then 8
    else if millibits <= 16050 then 9
    else if millibits <= 18300 then 10
    else if millibits <= 22001 then 11
    else if millibits <= 25501 then 12
    else if millibits > 50000 then 24
    else (millibits - 1) / 2000 - 1
  }

  /** The millibits for each key from which on there are more than p probes. */
  function Threshold(p: nat): nat
    requires 1 <= p <= 23
  {
    if p <= 11 then [2080, 3580, 5100, 6640, 8300, 10070, 11720, 14001, 16050, 18300, 22001][p - 1]
    else 2000 * (p + 2)
  }

  /** These thresholds rise, and they say what the count is; but from 25502 to 26000 millibits, where
      the steps end and the formula begins, it drops from 12 to 11. */
  lemma ProbesByThreshold(millibits: nat, p: nat)
    requires 1 <= p <= 23
    ensures GetNumProbes(millibits) > p <==> millibits > Threshold(p) && !(p == 11 && 25501 < millibits <= 26000)
    ensures p < 23 ==> Threshold(p) < Threshold(p + 1)
  {
  }

  // ----- the filter block

  /** bits of the filter proper and the probe count kept in the metadata. */
  datatype Filter = Filter(bits: seq<bool>, len: nat, probes: nat)

  /** Builds the filter of a table from the hashes of its keys. */
  method Build(hs: seq<Hash>, bitsPerKey: nat) returns (f: Filter)
    requires AllValid(hs) && hs != [] && bitsPerKey > 0
    ensures f.len >= LINE && |f.bits| == 8 * (f.len + META) && 1 <= f.probes <= 24
    ensures f.len + META == CalculateSpace(|hs|, bitsPerKey) && f.probes == GetNumProbes(f.len * 8000 / |hs|)
    ensures forall b :: 0 <= b < |f.bits| ==>
              (f.bits[b] <==> exists e :: 0 <= e < |hs| && Hits(hs[e], f.len, f.probes, b))
  {
    hide Hits;
    var len := CalculateSpace(|hs|, bitsPerKey) - META;
    var probes := GetNumProbes(len * 8000 / |hs|);
    var bits := new bool[8 * (len + META)](_ => false);
    AddAllEntries(bits, len, probes, hs);
    return Filter(bits[..], len, probes);
  }

  /** Whether all bits of a hash are set; an impossible probe count answers yes. */
  method MayMatch(f: Filter, h: Hash) returns (r: bool)
    requires h.Valid() && f.len >= LINE && |f.bits| >= 8 * f.len
    ensures r <==> f.probes % 32 < 1 || f.probes % 32 > 30
                   || forall b :: Hits(h, f.len, f.probes % 32, b) ==> 0 <= b < |f.bits| && f.bits[b]
  {
    var probes := f.probes % 32;
    if probes < 1 || probes > 30 {
      return true;
    }
    var line := LineOf(h.lower, f.len);
    var x, k := h.upper, 0;
    while k < probes
      invariant k <= probes && x == Step(h.upper, k)
      invariant forall b :: InLine(h.upper, line, k, b) ==> 0 <= b < |f.bits| && f.bits[b]
    {
      InLineNext(h.upper, line, k);
      if !f.bits[8 * line + ProbeBit(x)] {
        assert Hits(h, f.len, probes, 8 * line + ProbeBit(x));
        return false;
      }
      x := x * MULTIPLIER % WORD;
      k := k + 1;
    }
    assert forall b :: Hits(h, f.len, probes, b) <==> InLine(h.upper, line, probes, b);
    return true;
  }

  /** A key that went into the filter is never denied, and the metadata bits stay clear. */
  lemma NoFalseNegative(f: Filter, hs: seq<Hash>, e: nat, b: int)
    requires AllValid(hs) && e < |hs| && f.len >= LINE && |f.bits| == 8 * (f.len + META) && 1 <= f.probes <= 24
    requires forall b :: 0 <= b < |f.bits| ==>
               (f.bits[b] <==> exists e :: 0 <= e < |hs| && Hits(hs[e], f.len, f.probes, b))
    ensures Hits(hs[e], f.len, f.probes % 32, b) ==> 0 <= b < |f.bits| && f.bits[b]
    ensures 8 * f.len <= b < |f.bits| ==> !f.bits[b]
  {
    hide Hits;
    if Hits(hs[e], f.len, f.probes, b) {
      HitsInside(hs[e], f.len, f.probes, b);
    }
    if 8 * f.len <= b < |f.bits| && f.bits[b] {
      var d :| 0 <= d < |hs| && Hits(hs[d], f.len, f.probes, b);
      HitsInside(hs[d], f.len, f.probes, b);
    }
  }

  /** Building a filter and asking it for a key that went in: the answer is always yes. */
  method BuildThenAsk(hs: seq<Hash>, bitsPerKey: nat, e: nat) returns (r: bool)
    requires AllValid(hs) && e < |hs| && bitsPerKey > 0
    ensures r
  {
    var f := Build(hs, bitsPerKey);
    r := MayMatch(f, hs[e]);
    forall b ensures Hits(hs[e], f.len, f.probes % 32, b) ==> 0 <= b < |f.bits| && f.bits[b] {
      NoFalseNegative(f, hs, e, b);
    }
  }
}
