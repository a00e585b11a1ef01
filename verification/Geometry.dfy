/** Flash geometry of one FTL instance: page addresses, the order in which a write
    pointer walks a line (super-block), and the flat page index used by the reverse map.

    Sizes are symbolic; only the relations the initialisation code establishes are kept. */
module Geometry {
  import opened Wrappers
  import opened Arithmetic

  /** A page inside a line: everything of a physical address but its block. */
  datatype Slot = Slot(ch: nat, lun: nat, pg: nat)

  /** Physical page address with a single plane. The block number is the line number. */
  datatype Ppa = Ppa(ch: nat, lun: nat, blk: nat, pg: nat)

  function At(blk: nat, s: Slot): Ppa {
    Ppa(s.ch, s.lun, blk, s.pg)
  }

  function SlotOf(p: Ppa): Slot {
    Slot(p.ch, p.lun, p.pg)
  }

  datatype Geo = Geo(nchs: nat, lunsPerCh: nat, pgsPerOneshot: nat, oneshotsPerBlk: nat,
                     pgsPerFlashpg: nat, ttLines: nat)
  {
    ghost predicate Valid() {
      && nchs >= 1 && lunsPerCh >= 1 && pgsPerOneshot >= 1 && oneshotsPerBlk >= 1
      && pgsPerFlashpg >= 1 && pgsPerOneshot % pgsPerFlashpg == 0
    }

    function PgsPerBlk(): nat {
      pgsPerOneshot * oneshotsPerBlk
    }

    function FlashpgsPerBlk(): nat
      requires pgsPerFlashpg >= 1
    {
      pgsPerOneshot / pgsPerFlashpg * oneshotsPerBlk
    }

    function PgsPerLine(): nat {
      pgsPerOneshot * (nchs * (lunsPerCh * oneshotsPerBlk))
    }

    predicate InLine(s: Slot) {
      s.ch < nchs && s.lun < lunsPerCh && s.pg < PgsPerBlk()
    }

    predicate Contains(p: Ppa) {
      InLine(SlotOf(p)) && p.blk < ttLines
    }

    /** The coordinates a write pointer moves to; None when the line is used up. */
    function Next(s: Slot): Option<Slot>
      requires Valid() && InLine(s)
    {
      if (s.pg + 1) % pgsPerOneshot != 0 then
        Some(Slot(s.ch, s.lun, s.pg + 1))
      else
        MultipleAtLeast(s.pg + 1, pgsPerOneshot);
        var pg := s.pg + 1 - pgsPerOneshot;
        if s.ch + 1 != nchs then Some(Slot(s.ch + 1, s.lun, pg))
        else if s.lun + 1 != lunsPerCh then Some(Slot(0, s.lun + 1, pg))
        else if pg + pgsPerOneshot != PgsPerBlk() then Some(Slot(0, 0, pg + pgsPerOneshot))
        else None
    }

    /** The slot a write pointer stands on after k advances from the start of a line. */
    function Coord(k: nat): Slot
      requires Valid()
    {
      var r := Quo(k, pgsPerOneshot);
      var q := Quo(r, nchs);
      Slot(Rem(r, nchs), Rem(q, lunsPerCh), Quo(q, lunsPerCh) * pgsPerOneshot + Rem(k, pgsPerOneshot))
    }

    /** The number of advances that reach a slot. */
    function Rank(s: Slot): nat
      requires Valid()
    {
      s.pg % pgsPerOneshot
      + pgsPerOneshot * (s.ch + nchs * (s.lun + lunsPerCh * (s.pg / pgsPerOneshot)))
    }

    /** Index of a page in the reverse map. */
    function PgIdx(p: Ppa): nat {
      p.ch * (lunsPerCh * (ttLines * PgsPerBlk())) + p.lun * (ttLines * PgsPerBlk())
      + p.blk * PgsPerBlk() + p.pg
    }

    function TtPgs(): nat {
      nchs * (lunsPerCh * (ttLines * PgsPerBlk()))
    }
  }

  // ----- mixed-radix arithmetic

  function Quo(x: nat, m: nat): nat
    requires m >= 1
  {
    x / m
  }

  function Rem(x: nat, m: nat): nat
    requires m >= 1
  {
    x % m
  }

  lemma MultipleAtLeast(x: nat, m: nat)
    requires m >= 1 && x >= 1 && x % m == 0
    ensures x >= m
  {
  }

  lemma DivModStep(k: nat, m: nat)
    requires m >= 1
    ensures Rem(k, m) < m
    ensures Rem(k, m) + 1 < m ==> Quo(k + 1, m) == Quo(k, m) && Rem(k + 1, m) == Rem(k, m) + 1
    ensures Rem(k, m) + 1 == m ==> Quo(k + 1, m) == Quo(k, m) + 1 && Rem(k + 1, m) == 0
  {
    if k % m + 1 < m {
      QuotientIs(k + 1, m, k / m, k % m + 1);
    } else {
      assert k + 1 == (k / m + 1) * m;
      QuotientIs(k + 1, m, k / m + 1, 0);
    }
  }

  lemma DigitBound(hi: nat, lo: nat, m: nat, n: nat)
    requires lo < m && hi < n
    ensures lo + m * hi < m * n
  {
    Monotone(hi + 1, n, m);
  }

  lemma DivBound(k: nat, m: nat, n: nat)
    requires m >= 1 && k < m * n
    ensures k / m < n
  {
    if k / m >= n {
      Monotone(n, k / m, m);
    }
  }

  // ----- the write order of a line

  lemma CoordDigits(g: Geo, k: nat)
    requires g.Valid() && k < g.PgsPerLine()
    ensures g.InLine(g.Coord(k))
    ensures var w := Quo(Quo(Quo(k, g.pgsPerOneshot), g.nchs), g.lunsPerCh);
            && Rem(g.Coord(k).pg, g.pgsPerOneshot) == Rem(k, g.pgsPerOneshot)
            && Quo(g.Coord(k).pg, g.pgsPerOneshot) == w < g.oneshotsPerBlk
  {
    var r := Quo(k, g.pgsPerOneshot);
    var q := Quo(r, g.nchs);
    var w := Quo(q, g.lunsPerCh);
    DivBound(k, g.pgsPerOneshot, g.nchs * (g.lunsPerCh * g.oneshotsPerBlk));
    DivBound(r, g.nchs, g.lunsPerCh * g.oneshotsPerBlk);
    DivBound(q, g.lunsPerCh, g.oneshotsPerBlk);
    QuotientIs(g.Coord(k).pg, g.pgsPerOneshot, w, k % g.pgsPerOneshot);
    DigitBound(w, k % g.pgsPerOneshot, g.pgsPerOneshot, g.oneshotsPerBlk);
  }

  /** Rank inverts Coord on a line, so no slot is visited twice. */
  lemma RankCoord(g: Geo, k: nat)
    requires g.Valid() && k < g.PgsPerLine()
    ensures g.Rank(g.Coord(k)) == k
  {
    CoordDigits(g, k);
  }

  /** Coord inverts Rank, so every slot of a line is visited. */
  lemma CoordRank(g: Geo, s: Slot)
    requires g.Valid() && g.InLine(s)
    ensures g.Rank(s) < g.PgsPerLine()
    ensures g.Coord(g.Rank(s)) == s
  {
    var m := g.pgsPerOneshot;
    var w := s.pg / m;
    DivBound(s.pg, m, g.oneshotsPerBlk);
    var q := s.lun + g.lunsPerCh * w;
    var r := s.ch + g.nchs * q;
    DigitBound(w, s.lun, g.lunsPerCh, g.oneshotsPerBlk);
    DigitBound(q, s.ch, g.nchs, g.lunsPerCh * g.oneshotsPerBlk);
    DigitBound(r, s.pg % m, m, g.nchs * (g.lunsPerCh * g.oneshotsPerBlk));
    QuotientIs(g.Rank(s), m, r, s.pg % m);
    QuotientIs(r, g.nchs, q, s.ch);
    QuotientIs(q, g.lunsPerCh, w, s.lun);
  }

  /** Advancing carries from the page of a wordline to the channel, the LUN and the wordline. */
  lemma NextCarries(g: Geo, off: nat, ch: nat, lun: nat, w: nat)
    requires g.Valid() && off < g.pgsPerOneshot && ch < g.nchs && lun < g.lunsPerCh && w < g.oneshotsPerBlk
    ensures var s := Slot(ch, lun, w * g.pgsPerOneshot + off);
            && g.InLine(s)
            && g.Next(s) ==
               if off + 1 < g.pgsPerOneshot then Some(Slot(ch, lun, w * g.pgsPerOneshot + off + 1))
               else if ch + 1 < g.nchs then Some(Slot(ch + 1, lun, w * g.pgsPerOneshot))
               else if lun + 1 < g.lunsPerCh then Some(Slot(0, lun + 1, w * g.pgsPerOneshot))
               else if w + 1 < g.oneshotsPerBlk then Some(Slot(0, 0, (w + 1) * g.pgsPerOneshot))
               else None
  {
    var m := g.pgsPerOneshot;
    DigitBound(w, off, m, g.oneshotsPerBlk);
    if off + 1 < m {
      QuotientIs(w * m + off + 1, m, w, off + 1);
    } else {
      assert w * m + off + 1 == (w + 1) * m;
      QuotientIs(w * m + off + 1, m, w + 1, 0);
      if w + 1 < g.oneshotsPerBlk {
        DigitBound(w + 1, 0, m, g.oneshotsPerBlk);
      }
    }
  }

  /** One advance of the write pointer is one step of the enumeration. */
  lemma NextIsSucc(g: Geo, k: nat)
    requires g.Valid() && k < g.PgsPerLine()
    ensures g.InLine(g.Coord(k))
    ensures g.Next(g.Coord(k)) == if k + 1 < g.PgsPerLine() then Some(g.Coord(k + 1)) else None
  {
    CoordDigits(g, k);
    var r := Quo(k, g.pgsPerOneshot);
    var q := Quo(r, g.nchs);
    NextCarries(g, Rem(k, g.pgsPerOneshot), Rem(r, g.nchs), Rem(q, g.lunsPerCh), Quo(q, g.lunsPerCh));
    DivModStep(k, g.pgsPerOneshot);
    DivModStep(r, g.nchs);
    DivModStep(q, g.lunsPerCh);
    LastIsAllMax(g, k);
  }

  /** The last rank of a line is the one with every digit at its maximum. */
  lemma LastIsAllMax(g: Geo, k: nat)
    requires g.Valid() && k < g.PgsPerLine()
    ensures k + 1 == g.PgsPerLine() <==>
            var r := Quo(k, g.pgsPerOneshot);
            var q := Quo(r, g.nchs);
            && Rem(k, g.pgsPerOneshot) + 1 == g.pgsPerOneshot && Rem(r, g.nchs) + 1 == g.nchs
            && Rem(q, g.lunsPerCh) + 1 == g.lunsPerCh && Quo(q, g.lunsPerCh) + 1 == g.oneshotsPerBlk
  {
    var r := Quo(k, g.pgsPerOneshot);
    LastDigit(k, g.pgsPerOneshot, g.nchs * (g.lunsPerCh * g.oneshotsPerBlk));
    LastDigit(r, g.nchs, g.lunsPerCh * g.oneshotsPerBlk);
    LastDigit(Quo(r, g.nchs), g.lunsPerCh, g.oneshotsPerBlk);
  }

  lemma LastDigit(k: nat, m: nat, n: nat)
    requires m >= 1 && k < m * n
    ensures Quo(k, m) < n
    ensures k + 1 == m * n <==> Rem(k, m) + 1 == m && Quo(k, m) + 1 == n
  {
    DivBound(k, m, n);
    DivModStep(k, m);
    if k + 1 == m * n {
      QuotientIs(k + 1, m, n, 0);
    }
  }

  lemma FirstSlot(g: Geo)
    requires g.Valid()
    ensures g.PgsPerLine() >= 1
    ensures g.Coord(0) == Slot(0, 0, 0)
  {
    DigitBound(0, 0, g.lunsPerCh, g.oneshotsPerBlk);
    DigitBound(0, 0, g.nchs, g.lunsPerCh * g.oneshotsPerBlk);
    DigitBound(0, 0, g.pgsPerOneshot, g.nchs * (g.lunsPerCh * g.oneshotsPerBlk));
    QuotientIs(0, g.pgsPerOneshot, 0, 0);
    QuotientIs(0, g.nchs, 0, 0);
    QuotientIs(0, g.lunsPerCh, 0, 0);
  }

  /** What the FTL needs of the write order, as a plain sequence of slots. */
  ghost predicate IsWriteOrder(g: Geo, order: seq<Slot>)
    requires g.Valid()
  {
    && |order| == g.PgsPerLine() >= 1
    && order[0] == Slot(0, 0, 0)
    && (forall k :: 0 <= k < |order| ==> g.InLine(order[k]))
    && (forall k :: 0 <= k < |order| ==>
          g.Next(order[k]) == if k + 1 < |order| then Some(order[k + 1]) else None)
    && (forall j, k :: 0 <= j < k < |order| ==> order[j] != order[k])
    && (forall s: Slot :: g.InLine(s) ==> s in order)
  }

  function CoordsUpTo(g: Geo, n: nat): (s: seq<Slot>)
    requires g.Valid()
    ensures |s| == n && forall k :: 0 <= k < n ==> s[k] == g.Coord(k)
  {
    if n == 0 then [] else CoordsUpTo(g, n - 1) + [g.Coord(n - 1)]
  }

  lemma OrderSteps(g: Geo, order: seq<Slot>)
    requires g.Valid()
    requires |order| == g.PgsPerLine() && forall k :: 0 <= k < |order| ==> order[k] == g.Coord(k)
    ensures forall k :: 0 <= k < |order| ==> g.InLine(order[k])
    ensures forall k :: 0 <= k < |order| ==>
                          g.Next(order[k]) == if k + 1 < |order| then Some(order[k + 1]) else None
  {
    forall k | 0 <= k < |order|
      ensures g.InLine(order[k])
      ensures g.Next(order[k]) == if k + 1 < |order| then Some(order[k + 1]) else None
    {
      NextIsSucc(g, k);
    }
  }

  lemma OrderVisitsOnce(g: Geo, order: seq<Slot>)
    requires g.Valid()
    requires |order| == g.PgsPerLine() && forall k :: 0 <= k < |order| ==> order[k] == g.Coord(k)
    ensures forall j, k :: 0 <= j < k < |order| ==> order[j] != order[k]
    ensures forall s: Slot :: g.InLine(s) ==> s in order
  {
    forall j, k | 0 <= j < k < |order| ensures order[j] != order[k] {
      RankCoord(g, j);
      RankCoord(g, k);
    }
    forall s: Slot | g.InLine(s) ensures s in order {
      CoordRank(g, s);
      assert order[g.Rank(s)] == s;
    }
  }

  /** Starting at the first slot, the write pointer visits every slot of a line exactly
      once and reports the end of the line right after the last one. */
  lemma WriteOrderExists(g: Geo) returns (order: seq<Slot>)
    requires g.Valid()
    ensures IsWriteOrder(g, order)
  {
    FirstSlot(g);
    order := CoordsUpTo(g, g.PgsPerLine());
    OrderSteps(g, order);
    OrderVisitsOnce(g, order);
  }

  /** Four digits d, c, b, a, least significant first, in the radices m, n, o. */
  function Digits4(d: nat, c: nat, b: nat, a: nat, m: nat, n: nat, o: nat): nat {
    Digit(d, Digit(c, Digit(b, a, o), n), m)
  }

  function Digit(lo: nat, hi: nat, m: nat): nat {
    lo + m * hi
  }

  /** Two-digit numbers in the same radix are equal only digit by digit. */
  lemma DigitUnique(lo: nat, hi: nat, lo': nat, hi': nat, m: nat)
    requires lo < m && lo' < m && Digit(lo, hi, m) == Digit(lo', hi', m)
    ensures lo == lo' && hi == hi'
  {
    QuotientIs(lo + m * hi, m, hi, lo);
    QuotientIs(lo + m * hi, m, hi', lo');
  }

  lemma Digits4InRange(d: nat, c: nat, b: nat, a: nat, m: nat, n: nat, o: nat, q: nat)
    requires d < m && c < n && b < o && a < q
    ensures Digits4(d, c, b, a, m, n, o) < m * (n * (o * q))
  {
    DigitBound(a, b, o, q);
    DigitBound(b + o * a, c, n, o * q);
    DigitBound(c + n * (b + o * a), d, m, n * (o * q));
  }

  lemma Digits4Unique(d: nat, c: nat, b: nat, a: nat, d': nat, c': nat, b': nat, a': nat, m: nat, n: nat, o: nat)
    requires d < m && c < n && b < o && d' < m && c' < n && b' < o
    requires Digits4(d, c, b, a, m, n, o) == Digits4(d', c', b', a', m, n, o)
    ensures d == d' && c == c' && b == b' && a == a'
  {
    hide Digit;
    var x, x' := Digit(b, a, o), Digit(b', a', o);
    DigitUnique(d, Digit(c, x, n), d', Digit(c', x', n), m);
    DigitUnique(c, x, c', x', n);
    DigitUnique(b, a, b', a', o);
  }

  lemma PgIdxDigits(ch: nat, lun: nat, blk: nat, pg: nat, u: nat, t: nat, b: nat)
    ensures ch * (u * (t * b)) + lun * (t * b) + blk * b + pg == Digits4(pg, blk, lun, ch, b, t, u)
  {
    assert b * (blk + t * (lun + u * ch)) == b * blk + b * (t * (lun + u * ch));
    assert b * (t * (lun + u * ch)) == (b * t) * lun + (b * t) * (u * ch);
    assert (b * t) * (u * ch) == ch * (u * (t * b)) by {
      assert (b * t) * (u * ch) == ((b * t) * u) * ch;
      assert (b * t) * u == u * (t * b);
    }
  }

  /** The flat index of a page is in range, so the bound check on it cannot fail. */
  lemma PgIdxInRange(g: Geo, p: Ppa)
    requires g.Contains(p)
    ensures g.PgIdx(p) < g.TtPgs()
  {
    var b := g.PgsPerBlk();
    PgIdxDigits(p.ch, p.lun, p.blk, p.pg, g.lunsPerCh, g.ttLines, b);
    Digits4InRange(p.pg, p.blk, p.lun, p.ch, b, g.ttLines, g.lunsPerCh, g.nchs);
    ProductsAgree(b, g.ttLines, g.lunsPerCh, g.nchs);
  }

  lemma ProductsAgree(a: nat, b: nat, c: nat, d: nat)
    ensures a * (b * (c * d)) == d * (c * (b * a))
  {
    assert a * (b * (c * d)) == (a * b) * (c * d);
    assert d * (c * (b * a)) == (d * c) * (b * a);
  }

  /** Distinct pages have distinct indexes: the reverse map keeps one entry per page. */
  lemma PgIdxInjective(g: Geo, p: Ppa, q: Ppa)
    requires g.Contains(p) && g.Contains(q) && g.PgIdx(p) == g.PgIdx(q)
    ensures p == q
  {
    var b := g.PgsPerBlk();
    PgIdxDigits(p.ch, p.lun, p.blk, p.pg, g.lunsPerCh, g.ttLines, b);
    PgIdxDigits(q.ch, q.lun, q.blk, q.pg, g.lunsPerCh, g.ttLines, b);
    Digits4Unique(p.pg, p.blk, p.lun, p.ch, q.pg, q.blk, q.lun, q.ch, b, g.ttLines, g.lunsPerCh);
  }

  /** A line is one block of every LUN. */
  lemma LineIsOneBlockPerLun(g: Geo)
    ensures g.PgsPerLine() == g.lunsPerCh * g.nchs * g.PgsPerBlk()
  {
    assert g.lunsPerCh * g.nchs * (g.pgsPerOneshot * g.oneshotsPerBlk)
        == g.lunsPerCh * (g.nchs * g.pgsPerOneshot) * g.oneshotsPerBlk;
    assert g.pgsPerOneshot * (g.nchs * (g.lunsPerCh * g.oneshotsPerBlk))
        == (g.nchs * g.pgsPerOneshot) * (g.lunsPerCh * g.oneshotsPerBlk);
  }

  /** All lines together hold every page. */
  lemma LinesHoldAllPages(g: Geo)
    ensures g.TtPgs() == g.ttLines * g.PgsPerLine()
  {
    LineIsOneBlockPerLun(g);
    ProductsAgree(g.nchs, g.lunsPerCh, g.ttLines, g.PgsPerBlk());
    ProductsAgree(g.PgsPerBlk(), g.nchs, g.lunsPerCh, g.ttLines);
    assert g.ttLines * (g.lunsPerCh * g.nchs * g.PgsPerBlk()) == g.ttLines * (g.lunsPerCh * (g.nchs * g.PgsPerBlk()));
  }

  /** Flash pages tile a block. */
  lemma FlashpgsTile(g: Geo)
    requires g.Valid()
    ensures g.FlashpgsPerBlk() * g.pgsPerFlashpg == g.PgsPerBlk()
    ensures g.FlashpgsPerBlk() >= 1
  {
    var d := g.pgsPerOneshot / g.pgsPerFlashpg;
    assert d * g.pgsPerFlashpg == g.pgsPerOneshot;
    assert d >= 1;
    assert d * g.oneshotsPerBlk * g.pgsPerFlashpg == (d * g.pgsPerFlashpg) * g.oneshotsPerBlk;
    Monotone(1, d, g.oneshotsPerBlk);
  }
}
