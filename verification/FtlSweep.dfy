/** The order in which a collection visits the victim: flash page by flash page across all
    channels and LUNs, erasing each block right after its last flash page. */
module FtlSweep {
  import opened Geometry
  import opened FtlState
  import opened FtlCollection

  predicate LexLess(ch: nat, lun: nat, ch': nat, lun': nat) {
    ch < ch' || (ch == ch' && lun < lun')
  }

  /** Pages visited when the sweep is about to visit the flash page at (ch, lun, base). */
  predicate Seen(p: Ppa, base: nat, fp: nat, ch: nat, lun: nat) {
    p.pg < base || (p.pg < base + fp && LexLess(p.ch, p.lun, ch, lun))
  }

  /** Visited pages are no longer needed, copied pages were visited, and a page is free exactly
      if its block was already erased. */
  ghost predicate Sweep(s: State, v: nat, moved: set<Ppa>, base: nat, fp: nat, ch: nat, lun: nat, last: bool) {
    && (forall p :: p in s.status && p.blk == v && Seen(p, base, fp, ch, lun) ==> s.status[p] != PgValid || p in moved)
    && (forall p :: p in moved ==> Seen(p, base, fp, ch, lun))
    && (forall p :: p in s.status && p.blk == v ==> (s.status[p] == PgFree <==> last && LexLess(p.ch, p.lun, ch, lun)))
  }

  ghost predicate InFlashpg(p: Ppa, v: nat, base: nat, fp: nat, ch: nat, lun: nat) {
    p.blk == v && p.ch == ch && p.lun == lun && base <= p.pg < base + fp
  }

  /** The valid pages among the first n of a flash page. */
  ghost function ValidIn(status: map<Ppa, Status>, v: nat, base: nat, n: nat, ch: nat, lun: nat): set<Ppa> {
    set p | p in status && InFlashpg(p, v, base, n, ch, lun) && status[p] == PgValid
  }

  /** What cleaning one flash page achieves: the victim's pages are as before, and the valid ones of
      the flash page have been moved, no others. */
  ghost predicate Cleaned(s: State, n: State, v: nat, moved: set<Ppa>, moved': set<Ppa>, base: nat, fp: nat,
                          ch: nat, lun: nat)
  {
    SameVictim(s, n, v) && moved' == moved + ValidIn(s.status, v, base, fp, ch, lun)
  }

  lemma FlashpgSeen(s: State, n: State, v: nat, moved: set<Ppa>, moved': set<Ppa>, base: nat, fp: nat,
                    ch: nat, lun: nat)
    requires Sweep(s, v, moved, base, fp, ch, lun, false) && Cleaned(s, n, v, moved, moved', base, fp, ch, lun)
    ensures Sweep(n, v, moved', base, fp, ch, lun + 1, false)
  {
  }

  /** On the last flash page every page of the block has been dealt with. */
  lemma BlockReadyToErase(s: State, n: State, v: nat, moved: set<Ppa>, moved': set<Ppa>, base: nat, fp: nat,
                          ch: nat, lun: nat)
    requires Sweep(s, v, moved, base, fp, ch, lun, true) && Cleaned(s, n, v, moved, moved', base, fp, ch, lun)
    requires forall p :: p in n.status ==> p.pg < base + fp
    ensures forall p :: p in n.status && BlkOf(p) == Blk(ch, lun, v) ==> n.status[p] != PgValid || p in moved'
  {
  }

  lemma BlockErased(s: State, n: State, v: nat, moved: set<Ppa>, moved': set<Ppa>, base: nat, fp: nat,
                    ch: nat, lun: nat)
    requires Sweep(s, v, moved, base, fp, ch, lun, true) && Cleaned(s, n, v, moved, moved', base, fp, ch, lun)
    ensures Sweep(Erased(n, Blk(ch, lun, v)), v, moved', base, fp, ch, lun + 1, true)
  {
    var m := Erased(n, Blk(ch, lun, v));
    forall p | p in m.status && p.blk == v
      ensures m.status[p] == PgFree <==> LexLess(p.ch, p.lun, ch, lun + 1)
      ensures Seen(p, base, fp, ch, lun + 1) ==> m.status[p] != PgValid || p in moved'
    {
      assert n.status[p] == s.status[p];
      assert BlkOf(p) == Blk(ch, lun, v) <==> p.ch == ch && p.lun == lun;
    }
  }

  lemma NextChannel(s: State, v: nat, moved: set<Ppa>, base: nat, fp: nat, ch: nat, luns: nat, last: bool)
    requires Sweep(s, v, moved, base, fp, ch, luns, last)
    requires forall p :: p in s.status ==> p.lun < luns
    requires forall p :: p in moved ==> p in s.status
    ensures Sweep(s, v, moved, base, fp, ch + 1, 0, last)
  {
  }

  lemma NextFlashpg(s: State, v: nat, moved: set<Ppa>, base: nat, fp: nat, chs: nat, last: bool)
    requires Sweep(s, v, moved, base, fp, chs, 0, false)
    requires forall p :: p in s.status ==> p.ch < chs
    requires forall p :: p in moved ==> p in s.status
    ensures Sweep(s, v, moved, base + fp, fp, 0, 0, last)
  {
  }

  lemma SweepStarts(s: State, v: nat, fp: nat, last: bool)
    requires forall p :: p in s.status && p.blk == v ==> s.status[p] != PgFree
    ensures Sweep(s, v, {}, 0, fp, 0, 0, last)
  {
  }

  lemma SweepEnds(s: State, v: nat, moved: set<Ppa>, base: nat, fp: nat, chs: nat)
    requires Sweep(s, v, moved, base, fp, chs, 0, true)
    requires forall p :: p in s.status ==> p.ch < chs
    ensures AllFree(s, v)
  {
  }

  lemma CleanedNone(s: State, v: nat, moved: set<Ppa>, base: nat, ch: nat, lun: nat)
    ensures Cleaned(s, s, v, moved, moved, base, 0, ch, lun)
  {
  }

  /** The next page of the flash page was not valid. */
  lemma CleanedSkip(s0: State, s: State, v: nat, moved0: set<Ppa>, moved: set<Ppa>, base: nat, i: nat,
                    ch: nat, lun: nat)
    requires Cleaned(s0, s, v, moved0, moved, base, i, ch, lun)
    requires var p := Ppa(ch, lun, v, base + i); p in s.status && s.status[p] != PgValid
    ensures Cleaned(s0, s, v, moved0, moved, base, i + 1, ch, lun)
  {
    hide ValidIn;
    ValidStep(s0.status, v, base, i, ch, lun);
  }

  /** The next page of the flash page was copied. */
  lemma CleanedCopy(s0: State, s: State, n: State, v: nat, moved0: set<Ppa>, moved: set<Ppa>, base: nat, i: nat,
                    ch: nat, lun: nat)
    requires Cleaned(s0, s, v, moved0, moved, base, i, ch, lun) && SameVictim(s, n, v)
    requires var p := Ppa(ch, lun, v, base + i); p in s.status && s.status[p] == PgValid
    ensures Cleaned(s0, n, v, moved0, moved + {Ppa(ch, lun, v, base + i)}, base, i + 1, ch, lun)
  {
    hide ValidIn;
    ValidStep(s0.status, v, base, i, ch, lun);
  }

  lemma CleanedKeys(s0: State, s: State, v: nat, moved0: set<Ppa>, moved: set<Ppa>, base: nat, i: nat,
                    ch: nat, lun: nat)
    requires Cleaned(s0, s, v, moved0, moved, base, i, ch, lun)
    ensures s.status.Keys == s0.status.Keys
  {
  }

  lemma NotYetCopied(s0: State, s: State, v: nat, moved0: set<Ppa>, moved: set<Ppa>, base: nat, i: nat,
                     ch: nat, lun: nat)
    requires Cleaned(s0, s, v, moved0, moved, base, i, ch, lun) && Ppa(ch, lun, v, base + i) !in moved0
    ensures Ppa(ch, lun, v, base + i) !in moved
  {
  }

  /** The flash page the sweep is about to visit is written and not copied. */
  lemma FlashpgAhead(s: State, v: nat, moved: set<Ppa>, base: nat, fp: nat, ch: nat, lun: nat, last: bool)
    requires Sweep(s, v, moved, base, fp, ch, lun, last)
    ensures forall p :: InFlashpg(p, v, base, fp, ch, lun) && p in s.status ==> s.status[p] != PgFree && p !in moved
  {
  }

  lemma AllInvalidCleaned(s: State, v: nat, moved: set<Ppa>, base: nat, fp: nat, ch: nat, lun: nat)
    requires ValidIn(s.status, v, base, fp, ch, lun) == {}
    ensures Cleaned(s, s, v, moved, moved, base, fp, ch, lun)
  {
    forall p | p in s.status && InFlashpg(p, v, base, fp, ch, lun) ensures s.status[p] != PgValid {
      assert p !in ValidIn(s.status, v, base, fp, ch, lun);
    }
  }

  lemma ValidStep(status: map<Ppa, Status>, v: nat, base: nat, i: nat, ch: nat, lun: nat)
    requires Ppa(ch, lun, v, base + i) in status
    ensures var p, before := Ppa(ch, lun, v, base + i), ValidIn(status, v, base, i, ch, lun);
            && p !in before
            && ValidIn(status, v, base, i + 1, ch, lun) == if status[p] == PgValid then before + {p} else before
  {
    forall p | p in status ensures InFlashpg(p, v, base, i + 1, ch, lun) <==>
                                     InFlashpg(p, v, base, i, ch, lun) || p == Ppa(ch, lun, v, base + i)
    {
    }
  }

  lemma NoneInNone(status: map<Ppa, Status>, v: nat, base: nat, ch: nat, lun: nat)
    ensures ValidIn(status, v, base, 0, ch, lun) == {}
  {
  }

  /** The first n pages of block b set free. */
  ghost function FreedUpTo(status: map<Ppa, Status>, b: Blk, n: nat): map<Ppa, Status> {
    map p | p in status :: if BlkOf(p) == b && p.pg < n then PgFree else status[p]
  }

  lemma FreedStep(status: map<Ppa, Status>, b: Blk, n: nat)
    requires Ppa(b.ch, b.lun, b.blk, n) in status
    ensures FreedUpTo(status, b, n)[Ppa(b.ch, b.lun, b.blk, n) := PgFree] == FreedUpTo(status, b, n + 1)
  {
    var q := Ppa(b.ch, b.lun, b.blk, n);
    forall p | p in status && p != q
      ensures FreedUpTo(status, b, n)[p] == FreedUpTo(status, b, n + 1)[p]
    {
      assert BlkOf(p) == b && p.pg == n ==> p == q;
    }
  }

  lemma FreedNone(status: map<Ppa, Status>, b: Blk)
    ensures FreedUpTo(status, b, 0) == status
  {
  }

  lemma FreedAll(s: State, b: Blk, n: nat)
    requires forall p :: p in s.status && BlkOf(p) == b ==> p.pg < n
    ensures FreedUpTo(s.status, b, n) == Erased(s, b).status
  {
  }
}
