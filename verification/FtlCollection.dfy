/** Garbage collection keeps the invariants and the host's view, and there is always
    something to collect when free lines run short. */
module FtlCollection {
  import opened Wrappers
  import opened Sets
  import opened Geometry
  import opened FtlState
  import opened FtlProofs

  // ----- choosing the victim

  /** A victim has no free page, so what it cannot free it can reclaim. */
  lemma VictimIsWritten(c: Ctx, s: State, v: nat)
    requires c.Valid() && Sized(c, s) && PhaseOk(c, s.status, s.role, s.userK, s.gcK)
    requires LineCountsOk(s.status, s.role, s.vpc, s.ipc) && HeapHolds(s.victims, s.role, s.vpc, c.L())
    requires v in s.victims
    ensures v < c.g.ttLines
    ensures s.vpc[v] == |LineSet(s.status, v, PgValid)| < c.L()
    ensures s.vpc[v] + s.ipc[v] == c.L() && s.ipc[v] == |LineSet(s.status, v, PgInvalid)|
  {
    LineTotal(c, s.status, v);
    assert LineCount(s.status, v, s.vpc[v], s.ipc[v]);
    forall p | p in s.status && p.blk == v ensures s.status[p] != PgFree {
      assert PhaseOf(s.status[p], s.role[v], c.rank[SlotOf(p)], s.userK, s.gcK);
    }
    assert LineSet(s.status, v, PgFree) == {};
  }

  lemma SelectedPhases(c: Ctx, s: State, v: nat)
    requires c.Valid() && Sized(c, s) && PhaseOk(c, s.status, s.role, s.userK, s.gcK) && v < c.g.ttLines
    ensures PhaseOk(c, s.status, s.role[v := Collected], s.userK, s.gcK)
  {
    var role := s.role[v := Collected];
    forall p | p in s.status ensures PhaseOf(s.status[p], role[p.blk], c.rank[SlotOf(p)], s.userK, s.gcK) {
      assert PhaseOf(s.status[p], s.role[p.blk], c.rank[SlotOf(p)], s.userK, s.gcK);
    }
  }

  lemma SelectedCounts(status: map<Ppa, Status>, role: seq<Role>, vpc: seq<int>, ipc: seq<int>, v: nat)
    requires |role| == |vpc| == |ipc| && LineCountsOk(status, role, vpc, ipc) && v < |role|
    ensures LineCountsOk(status, role[v := Collected], vpc, ipc)
  {
  }

  lemma RoleInHeap(c: Ctx, s: State, v: nat)
    requires Sized(c, s) && HeapHolds(s.victims, s.role, s.vpc, c.L()) && v in s.victims
    ensures v < c.g.ttLines && s.role[v] == InHeap
  {
  }

  lemma SelectKeeps(c: Ctx, s: State, v: nat)
    requires Inv(c, s, {}) && v in s.victims
    ensures v < c.g.ttLines && Inv(c, Selected(s, v), {})
  {
    hide ListHolds, OpenIs, HeapHolds, LineCountsOk, BlkCountsOk, PhaseOk, MapOk, Ctx.Valid;
    RoleInHeap(c, s, v);
    SelectedPhases(c, s, v);
    SelectedCounts(s.status, s.role, s.vpc, s.ipc, v);
    OtherListKept(s.freeList, s.role, InFreeList, v, Collected);
    OtherListKept(s.fullList, s.role, InFullList, v, Collected);
    HeapLoses(s.victims, s.role, s.vpc, c.L(), v, Collected);
    OpenKept(s.user.line, s.role, UserIo, v, Collected);
    OpenKept(s.gc.line, s.role, GcIo, v, Collected);
  }

  // ----- copying one page out of the victim

  ghost predicate Uncopied(s: State, moved: set<Ppa>, p: Ppa) {
    p in s.status && s.status[p] == PgValid && p !in moved
  }

  /** The reverse entry of a valid page not copied yet is the logical page it holds. */
  lemma UncopiedOwner(s: State, moved: set<Ppa>, p: Ppa)
    requires s.rmap.Keys == s.status.Keys && MapOk(s.maptbl, s.rmap, s.status, moved) && Uncopied(s, moved, p)
    ensures s.rmap[p].Some? && s.rmap[p].value in s.maptbl && s.maptbl[s.rmap[p].value] == p
  {
  }

  lemma TakeMaps(maptbl: map<nat, Ppa>, rmap: map<Ppa, Option<nat>>, status: map<Ppa, Status>, moved: set<Ppa>,
                 p: Ppa, l: nat)
    requires rmap.Keys == status.Keys && MapOk(maptbl, rmap, status, moved) && l in maptbl && maptbl[l] == p
    ensures MapOk(maptbl - {l}, rmap, status, moved + {p})
  {
  }

  /** The state in which the copy of page p is under way: its owner is for the moment unmapped. */
  ghost function Taken(s: State, l: nat): State {
    s.(maptbl := s.maptbl - {l})
  }

  ghost function Copied(c: Ctx, s: State, p: Ppa): State
    requires c.Valid() && Sized(c, s) && p in s.status && s.rmap[p].Some? && s.PageAt(GcIo) in s.status
  {
    Bumped(Mapped(c, s, GcIo, s.rmap[p].value, s.content[p]), GcIo)
  }

  lemma CopyKeeps(c: Ctx, s: State, moved: set<Ppa>, p: Ppa)
    requires Inv(c, s, moved) && MovedOk(c, s, moved) && CursorOk(c, s, GcIo) && Uncopied(s, moved, p)
    requires p.blk < c.g.ttLines && s.role[p.blk] == Collected
    ensures s.rmap[p].Some? && s.PageAt(GcIo) in s.status && s.status[s.PageAt(GcIo)] == PgFree
    ensures Inv(c, Copied(c, s, p), moved + {p}) && MovedOk(c, Copied(c, s, p), moved + {p})
  {
    hide ListHolds, OpenIs, HeapHolds, LineCountsOk, BlkCountsOk, PhaseOk, MapOk, Ctx.Valid;
    UncopiedOwner(s, moved, p);
    var l := s.rmap[p].value;
    TakeMaps(s.maptbl, s.rmap, s.status, moved, p, l);
    var t := Taken(s, l);
    MapKeeps(c, t, GcIo, l, s.content[p], moved + {p});
    assert t.maptbl[l := t.PageAt(GcIo)] == s.maptbl[l := s.PageAt(GcIo)];
    assert Bumped(Mapped(c, t, GcIo, l, s.content[p]), GcIo) == Copied(c, s, p);
  }

  lemma CopyView(c: Ctx, s: State, moved: set<Ppa>, p: Ppa)
    requires c.Valid() && Sized(c, s) && MapOk(s.maptbl, s.rmap, s.status, moved) && Uncopied(s, moved, p)
    requires s.rmap[p].Some? && s.PageAt(GcIo) in s.status && s.status[s.PageAt(GcIo)] == PgFree
    ensures forall k :: k in s.maptbl ==> s.maptbl[k] in s.content
    ensures var n := Copied(c, s, p);
            (forall k :: k in n.maptbl ==> n.maptbl[k] in n.content) && n.View() == s.View()
  {
    UncopiedOwner(s, moved, p);
    var l := s.rmap[p].value;
    MapView(c, s, GcIo, l, s.content[p], moved);
    assert s.View()[l] == s.content[p];
    assert s.View()[l := s.content[p]] == s.View();
  }

  // ----- erasing a block of the victim and freeing the victim

  lemma EraseMaps(s: State, moved: set<Ppa>, b: Blk)
    requires s.rmap.Keys == s.status.Keys && MapOk(s.maptbl, s.rmap, s.status, moved)
    requires forall p :: p in s.status && BlkOf(p) == b ==> s.status[p] != PgValid || p in moved
    ensures MapOk(s.maptbl, s.rmap, Erased(s, b).status, moved)
  {
  }

  lemma ErasePhases(c: Ctx, s: State, b: Blk)
    requires c.Valid() && Sized(c, s) && PhaseOk(c, s.status, s.role, s.userK, s.gcK)
    requires b.blk < c.g.ttLines && s.role[b.blk] == Collected
    ensures PhaseOk(c, Erased(s, b).status, s.role, s.userK, s.gcK)
  {
    var n := Erased(s, b);
    forall p | p in n.status ensures PhaseOf(n.status[p], s.role[p.blk], c.rank[SlotOf(p)], s.userK, s.gcK) {
      assert PhaseOf(s.status[p], s.role[p.blk], c.rank[SlotOf(p)], s.userK, s.gcK);
    }
  }

  lemma EraseLineCounts(s: State, b: Blk)
    requires |s.role| == |s.vpc| == |s.ipc| && LineCountsOk(s.status, s.role, s.vpc, s.ipc)
    requires b.blk < |s.role| && s.role[b.blk] == Collected
    ensures LineCountsOk(Erased(s, b).status, s.role, s.vpc, s.ipc)
  {
    var n := Erased(s, b);
    forall x | 0 <= x < |s.role| && s.role[x] != Collected ensures LineCount(n.status, x, s.vpc[x], s.ipc[x]) {
      assert LineCount(s.status, x, s.vpc[x], s.ipc[x]);
      assert LineSet(n.status, x, PgValid) == LineSet(s.status, x, PgValid);
      assert LineSet(n.status, x, PgInvalid) == LineSet(s.status, x, PgInvalid);
    }
  }

  lemma EraseBlkCounts(s: State, b: Blk)
    requires s.blkVpc.Keys == s.blkIpc.Keys && BlkCountsOk(s.status, s.blkVpc, s.blkIpc)
    ensures var n := Erased(s, b); n.blkVpc.Keys == n.blkIpc.Keys && BlkCountsOk(n.status, n.blkVpc, n.blkIpc)
  {
    var n := Erased(s, b);
    forall x | x in n.blkVpc ensures BlkCount(n.status, x, n.blkVpc[x], n.blkIpc[x]) {
      if x == b {
        assert BlkSet(n.status, x, PgValid) == {} && BlkSet(n.status, x, PgInvalid) == {};
      } else {
        assert BlkCount(s.status, x, s.blkVpc[x], s.blkIpc[x]);
        assert BlkSet(n.status, x, PgValid) == BlkSet(s.status, x, PgValid);
        assert BlkSet(n.status, x, PgInvalid) == BlkSet(s.status, x, PgInvalid);
      }
    }
  }

  lemma EraseSized(c: Ctx, s: State, b: Blk)
    requires Sized(c, s) && b in c.blks
    ensures Sized(c, Erased(s, b))
  {
    KeysKept(s.blkVpc, b, 0);
    KeysKept(s.blkIpc, b, 0);
    assert Erased(s, b).status.Keys == s.status.Keys;
  }

  /** Erasing a block of the victim whose valid pages were all copied. */
  lemma EraseKeeps(c: Ctx, s: State, moved: set<Ppa>, b: Blk)
    requires Inv(c, s, moved) && b in c.blks && b.blk < c.g.ttLines && s.role[b.blk] == Collected
    requires forall p :: p in s.status && BlkOf(p) == b ==> s.status[p] != PgValid || p in moved
    ensures Inv(c, Erased(s, b), moved)
  {
    hide ListHolds, OpenIs, HeapHolds, LineCountsOk, BlkCountsOk, PhaseOk, MapOk, Ctx.Valid;
    EraseMaps(s, moved, b);
    ErasePhases(c, s, b);
    EraseLineCounts(s, b);
    EraseBlkCounts(s, b);
    EraseSized(c, s, b);
  }

  lemma FreedCounts(s: State, v: nat)
    requires |s.role| == |s.vpc| == |s.ipc| && LineCountsOk(s.status, s.role, s.vpc, s.ipc) && v < |s.role|
    requires forall p :: p in s.status && p.blk == v ==> s.status[p] == PgFree
    ensures LineCountsOk(s.status, s.role[v := InFreeList], s.vpc[v := 0], s.ipc[v := 0])
  {
    var n := LineFreed(s, v);
    forall b | 0 <= b < |n.role| && n.role[b] != Collected ensures LineCount(n.status, b, n.vpc[b], n.ipc[b]) {
      if b == v {
        assert LineSet(s.status, v, PgValid) == {} && LineSet(s.status, v, PgInvalid) == {};
      } else {
        assert LineCount(s.status, b, s.vpc[b], s.ipc[b]);
      }
    }
  }

  lemma FreedPhases(c: Ctx, s: State, v: nat)
    requires c.Valid() && Sized(c, s) && PhaseOk(c, s.status, s.role, s.userK, s.gcK) && v < c.g.ttLines
    requires forall p :: p in s.status && p.blk == v ==> s.status[p] == PgFree
    ensures PhaseOk(c, s.status, s.role[v := InFreeList], s.userK, s.gcK)
  {
    var role := s.role[v := InFreeList];
    forall p | p in s.status ensures PhaseOf(s.status[p], role[p.blk], c.rank[SlotOf(p)], s.userK, s.gcK) {
      assert PhaseOf(s.status[p], s.role[p.blk], c.rank[SlotOf(p)], s.userK, s.gcK);
    }
  }

  lemma ForgetMoved(s: State, moved: set<Ppa>, v: nat)
    requires s.rmap.Keys == s.status.Keys && MapOk(s.maptbl, s.rmap, s.status, moved)
    requires forall p :: p in moved ==> p.blk == v
    requires forall p :: p in s.status && p.blk == v ==> s.status[p] == PgFree
    ensures MapOk(s.maptbl, s.rmap, s.status, {})
    ensures forall l :: l in s.maptbl ==> s.maptbl[l].blk != v
  {
  }

  /** Returning the erased victim to the free list. */
  lemma FreeKeeps(c: Ctx, s: State, moved: set<Ppa>, v: nat)
    requires Inv(c, s, moved) && v < c.g.ttLines && s.role[v] == Collected
    requires forall p :: p in moved ==> p.blk == v
    requires forall p :: p in s.status && p.blk == v ==> s.status[p] == PgFree
    ensures Inv(c, LineFreed(s, v), {})
    ensures FreePages(c, LineFreed(s, v)) == FreePages(c, s) + c.L()
  {
    hide ListHolds, OpenIs, HeapHolds, LineCountsOk, BlkCountsOk, PhaseOk, MapOk, Ctx.Valid;
    ForgetMoved(s, moved, v);
    FreedPhases(c, s, v);
    FreedCounts(s, v);
    ListGains(s.freeList, s.role, InFreeList, v);
    OtherListKept(s.fullList, s.role, InFullList, v, InFreeList);
    var n := LineFreed(s, v);
    HeapKept(s.victims, s.role, s.vpc, c.L(), n.role, n.vpc);
    OpenKept(s.user.line, s.role, UserIo, v, InFreeList);
    OpenKept(s.gc.line, s.role, GcIo, v, InFreeList);
    assert |n.freeList| * c.L() == |s.freeList| * c.L() + c.L();
  }

  // ----- there is a victim when free lines run short

  ghost function SetOf(l: seq<nat>): (s: set<nat>)
    ensures forall x :: x in s <==> x in l
    ensures Distinct(l) ==> |s| == |l|
  {
    if l == [] then {}
    else
      assert Distinct(l) ==> Distinct(l[1..]) && l[0] !in l[1..];
      assert forall x :: x in l <==> x == l[0] || x in l[1..];
      {l[0]} + SetOf(l[1..])
  }

  lemma PartitionSize(all: set<nat>, a: set<nat>, b: set<nat>, x: nat, y: nat)
    requires a !! b && x !in a + b && y !in a + b && x != y
    requires forall e :: e in all <==> e in a || e in b || e == x || e == y
    ensures |all| == |a| + |b| + 2
  {
    assert all == a + b + {x} + {y};
  }

  /** With an empty heap every line is free, full or open. */
  lemma NoVictimPartition(c: Ctx, s: State)
    requires Sized(c, s) && ListOk(c, s) && NoneCollected(s) && s.victims == {}
    ensures |s.freeList| + |s.fullList| + 2 == c.g.ttLines
  {
    var all, free, full := Below(c.g.ttLines), SetOf(s.freeList), SetOf(s.fullList);
    LineSomewhere(c, s, 0);
    forall b: nat ensures b in all <==> b in free || b in full || b == s.user.line || b == s.gc.line {
      LineSomewhere(c, s, b);
    }
    forall b: nat | b in free ensures b !in full && b != s.user.line && b != s.gc.line {
      LineSomewhere(c, s, b);
    }
    forall b: nat | b in full ensures b != s.user.line && b != s.gc.line {
      LineSomewhere(c, s, b);
    }
    hide ListOk, Sized, NoneCollected;
    PartitionSize(all, free, full, s.user.line, s.gc.line);
  }

  /** Where a line is, and where it is not. */
  lemma LineSomewhere(c: Ctx, s: State, b: nat)
    requires Sized(c, s) && ListOk(c, s) && NoneCollected(s) && s.victims == {}
    ensures b < c.g.ttLines <==> b in s.freeList || b in s.fullList || b == s.user.line || b == s.gc.line
    ensures b in s.freeList ==> b !in s.fullList && b != s.user.line && b != s.gc.line
    ensures b in s.fullList ==> b != s.user.line && b != s.gc.line
    ensures s.user.line != s.gc.line
  {
    if b < c.g.ttLines {
      match s.role[b]
      case OpenFor(io) => assert io == UserIo || io == GcIo;
      case _ =>
    }
  }

  ghost function ValidPages(status: map<Ppa, Status>): set<Ppa> {
    set p | p in status && status[p] == PgValid
  }

  lemma ProductStep(n: nat, l: nat)
    ensures (n + 1) * l == n * l + l
  {
  }

  lemma TakeOut<T>(rest: set<T>, mine: set<T>)
    requires mine <= rest
    ensures |rest| == |rest - mine| + |mine|
  {
    assert rest == (rest - mine) + mine;
  }

  /** Full lines hold a line's worth of valid pages each. */
  lemma {:induction false} FullLinesValid(c: Ctx, lines: seq<nat>, rest: set<Ppa>)
    requires c.Valid() && Distinct(lines)
    requires forall b :: b in lines ==> b < c.g.ttLines
    requires forall p :: p in c.pages && p.blk in lines ==> p in rest
    ensures |lines| * c.L() <= |rest|
  {
    if lines != [] {
      var b, t := lines[0], lines[1..];
      assert b in lines && b !in t && forall x :: x in t ==> x in lines;
      var mine := set p | p in c.pages && p.blk == b;
      LineIsPages(c, b);
      LinePagesSize(c, b, c.L());
      hide Ctx.Valid;
      FullLinesValid(c, t, rest - mine);
      TakeOut(rest, mine);
      ProductStep(|t|, c.L());
    }
  }

  /** As many valid pages as mapped logical pages. */
  lemma {:induction false} ValidAtMostMapped(pages: set<Ppa>, rmap: map<Ppa, Option<nat>>, keys: set<nat>)
    requires forall p :: p in pages ==> p in rmap && rmap[p].Some? && rmap[p].value in keys
    requires forall p, q :: p in pages && q in pages && rmap[p] == rmap[q] ==> p == q
    ensures |pages| <= |keys|
  {
    if pages != {} {
      var p :| p in pages;
      ValidAtMostMapped(pages - {p}, rmap, keys - {rmap[p].value});
    }
  }

  lemma ValidPagesMapped(s: State)
    requires s.rmap.Keys == s.status.Keys && MapOk(s.maptbl, s.rmap, s.status, {})
    ensures |ValidPages(s.status)| <= |s.maptbl|
  {
    ValidAtMostMapped(ValidPages(s.status), s.rmap, s.maptbl.Keys);
  }

  lemma FullListPagesValid(c: Ctx, s: State)
    requires c.Valid() && Sized(c, s) && PhaseOk(c, s.status, s.role, s.userK, s.gcK)
    requires ListHolds(s.fullList, s.role, InFullList)
    ensures forall p :: p in c.pages && p.blk in s.fullList ==> p in ValidPages(s.status)
    ensures forall b :: b in s.fullList ==> b < c.g.ttLines
    ensures Distinct(s.fullList)
  {
    forall p | p in c.pages && p.blk in s.fullList ensures p in ValidPages(s.status) {
      assert PhaseOf(s.status[p], s.role[p.blk], c.rank[SlotOf(p)], s.userK, s.gcK);
    }
  }

  /** Full lines and any valid pages elsewhere are no more than the mapped logical pages. */
  lemma FullPagesMapped(c: Ctx, s: State, extra: set<Ppa>)
    requires Inv(c, s, {})
    requires extra <= ValidPages(s.status) && forall p :: p in extra ==> p.blk !in s.fullList
    ensures |s.fullList| * c.L() + |extra| <= |s.maptbl|
  {
    hide ListHolds, OpenIs, HeapHolds, LineCountsOk, BlkCountsOk, PhaseOk, MapOk, Ctx.Valid, Distinct;
    ValidPagesMapped(s);
    FullListPagesValid(c, s);
    FullLinesValid(c, s.fullList, ValidPages(s.status) - extra);
    TakeOut(ValidPages(s.status), extra);
  }

  ghost predicate JustWritten(c: Ctx, s: State) {
    s.userK == 0
    || (s.userK <= c.L() && var q := At(s.user.line, c.order[s.userK - 1]); q in s.status && s.status[q] == PgValid)
  }

  lemma RoomWhenFull(free: nat, full: nat, lines: nat, l: nat, mapped: nat, logical: nat, extra: nat, uk: nat, gk: nat)
    requires free + full + 2 == lines && free <= 2 && uk < l && gk < l
    requires full * l + extra <= mapped <= logical <= (lines - 4) * l
    requires uk == 0 || extra == 1
    ensures logical == (lines - 4) * l && free * l + (l - uk) + (l - gk) >= 3 * l + 1
  {
    var spare := 2 - free;
    assert full * l == (lines - 4) * l + spare * l;
    assert spare > 0 ==> spare * l >= l;
  }

  /** When at most two lines are free right after a host write, either some line can be
      collected, or the device is exactly full and a third line's worth of pages is free. */
  lemma VictimOrRoom(c: Ctx, s: State, logicalPages: nat)
    requires Inv(c, s, {}) && NoneCollected(s) && s.userK < c.L() && s.gcK < c.L() && JustWritten(c, s)
    requires |s.freeList| <= 2 && |s.maptbl| <= logicalPages <= (c.g.ttLines - 4) * c.L()
    ensures s.victims != {} || (logicalPages == (c.g.ttLines - 4) * c.L() && FreePages(c, s) >= 3 * c.L() + 1)
  {
    hide *;
    if s.victims == {} {
      var extra := NoVictimCounts(c, s);
      RoomWhenFull(|s.freeList|, |s.fullList|, c.g.ttLines, c.L(), |s.maptbl|, logicalPages, extra, s.userK, s.gcK);
      assert FreePages(c, s) >= 3 * c.L() + 1 by { FreePagesDef(c, s); }
    }
  }

  lemma FreePagesDef(c: Ctx, s: State)
    ensures FreePages(c, s) == |s.freeList| * c.L() + (c.L() - s.userK) + (c.L() - s.gcK)
  {
  }

  lemma NoVictimCounts(c: Ctx, s: State) returns (extra: nat)
    requires Inv(c, s, {}) && NoneCollected(s) && s.userK < c.L() && JustWritten(c, s) && s.victims == {}
    ensures |s.freeList| + |s.fullList| + 2 == c.g.ttLines
    ensures |s.fullList| * c.L() + extra <= |s.maptbl|
    ensures s.userK == 0 || extra == 1
  {
    hide ListHolds, OpenIs, HeapHolds, LineCountsOk, BlkCountsOk, PhaseOk, MapOk, Ctx.Valid, Distinct;
    NoVictimPartition(c, s);
    UserLineNotFull(c, s);
    var last := if s.userK == 0 then {} else {At(s.user.line, c.order[s.userK - 1])};
    FullPagesMapped(c, s, last);
    extra := |last|;
  }

  lemma UserLineNotFull(c: Ctx, s: State)
    requires Sized(c, s) && ListOk(c, s)
    ensures s.user.line !in s.fullList
  {
  }

  /** The mapped logical pages are among the addressable ones. */
  lemma MappedAtMost(maptbl: map<nat, Ppa>, n: nat)
    requires forall l :: l in maptbl ==> l < n
    ensures |maptbl| <= n
  {
    SubsetSize(maptbl.Keys, Below(n));
  }

  // ----- one collection, step by step

  /** State of a collection of line v: valid0 are its valid pages at the start, free0 and view0
      the number of free pages and the host's view at the start. */
  ghost predicate Collecting(c: Ctx, s: State, v: nat, moved: set<Ppa>, valid0: set<Ppa>, free0: int,
                             view0: map<nat, int>)
  {
    && Inv(c, s, moved)
    && InVictim(s, v, moved, valid0)
    && CursorOk(c, s, UserIo) && CursorOk(c, s, GcIo)
    && FreePages(c, s) + |moved| == free0
    && Shows(s, view0)
  }

  ghost predicate InVictim(s: State, v: nat, moved: set<Ppa>, valid0: set<Ppa>) {
    && v < |s.role| && s.role[v] == Collected
    && (forall b :: 0 <= b < |s.role| && s.role[b] == Collected ==> b == v)
    && moved <= valid0 && (forall p :: p in valid0 ==> p.blk == v)
    && (forall p :: p in s.status && p.blk == v && s.status[p] == PgValid ==> p in valid0)
    && (forall p :: p in valid0 && p !in moved ==> p in s.status && s.status[p] == PgValid)
  }

  ghost predicate Shows(s: State, view: map<nat, int>) {
    (forall l :: l in s.maptbl ==> s.maptbl[l] in s.content) && s.View() == view
  }

  /** The victim's pages are the same in both states. */
  ghost predicate SameVictim(s: State, n: State, v: nat) {
    s.status.Keys == n.status.Keys && forall p :: p in s.status && p.blk == v ==> n.status[p] == s.status[p]
  }

  lemma CopiedInVictim(c: Ctx, s: State, v: nat, moved: set<Ppa>, valid0: set<Ppa>, p: Ppa)
    requires c.Valid() && Sized(c, s) && InVictim(s, v, moved, valid0) && Uncopied(s, moved, p) && p.blk == v
    requires s.rmap[p].Some? && s.PageAt(GcIo) in s.status && s.gc.line != v
    ensures InVictim(Copied(c, s, p), v, moved + {p}, valid0) && SameVictim(s, Copied(c, s, p), v)
  {
  }

  lemma ReopenedInVictim(c: Ctx, s: State, io: IoType, v: nat, moved: set<Ppa>, valid0: set<Ppa>)
    requires Sized(c, s) && InVictim(s, v, moved, valid0) && s.WpOf(io).line < c.g.ttLines && s.WpOf(io).line != v
    requires c.L() >= 1
    requires s.K(io) == c.L() ==> |s.freeList| >= 1 && s.freeList[0] < c.g.ttLines && s.freeList[0] != v
    ensures InVictim(Reopened(c, s, io), v, moved, valid0) && SameVictim(s, Reopened(c, s, io), v)
  {
    hide Reopened, Switched, Closed;
    ReopenedFields(c, s, io);
  }

  lemma ReopenedShows(c: Ctx, s: State, io: IoType, view: map<nat, int>)
    requires Sized(c, s) && Shows(s, view) && s.WpOf(io).line < c.g.ttLines && c.L() >= 1
    requires s.K(io) == c.L() ==> |s.freeList| >= 1 && s.freeList[0] < c.g.ttLines
    ensures Shows(Reopened(c, s, io), view)
    ensures Reopened(c, s, io).maptbl == s.maptbl
  {
    hide Reopened, Switched, Closed;
    ReopenedFields(c, s, io);
  }

  lemma OpenNotVictim(c: Ctx, s: State, io: IoType, v: nat)
    requires Sized(c, s) && ListOk(c, s) && v < c.g.ttLines && s.role[v] == Collected
    ensures s.WpOf(io).line < c.g.ttLines && s.WpOf(io).line != v
    ensures |s.freeList| >= 1 ==> s.freeList[0] < c.g.ttLines && s.freeList[0] != v
  {
    assert |s.freeList| >= 1 ==> s.freeList[0] in s.freeList;
  }

  /** If the collector starts with more than two lines' worth of free pages, its open line can
      always be replaced: pages already copied are fewer than a line. */
  lemma FreeLineLeft(free: nat, l: nat, userK: nat, moved: nat, free0: int)
    requires free0 >= 2 * l + 1 && moved < l && userK <= l
    requires free * l + (l - userK) + moved == free0
    ensures free >= 1
  {
  }

  lemma CopiedFree(c: Ctx, s: State, p: Ppa)
    requires c.Valid() && Sized(c, s) && p in s.status && s.rmap[p].Some? && s.PageAt(GcIo) in s.status
    ensures var n := Copied(c, s, p);
            && FreePages(c, n) == FreePages(c, s) - 1 && n.freeList == s.freeList
            && n.userK == s.userK && n.gcK == s.gcK + 1 && n.user == s.user && n.gc == s.gc
  {
  }

  lemma CopyStepFreeLine(c: Ctx, s: State, v: nat, moved: set<Ppa>, valid0: set<Ppa>, free0: int,
                         view0: map<nat, int>, p: Ppa)
    requires Collecting(c, s, v, moved, valid0, free0, view0) && Uncopied(s, moved, p) && p.blk == v
    requires free0 >= 2 * c.L() + 1 && |valid0| < c.L()
    ensures s.rmap[p].Some? && s.PageAt(GcIo) in s.status && s.status[s.PageAt(GcIo)] == PgFree
    ensures s.gcK + 1 == c.L() ==> |s.freeList| >= 1
  {
    hide ListHolds, OpenIs, HeapHolds, LineCountsOk, BlkCountsOk, PhaseOk, MapOk, Ctx.Valid, Shows;
    CursorIsFree(c, s, GcIo);
    UncopiedOwner(s, moved, p);
    assert |moved| < |valid0| by {
      assert moved + {p} <= valid0;
      SubsetSize(moved + {p}, valid0);
    }
    if s.gcK + 1 == c.L() {
      FreeLineLeft(|s.freeList|, c.L(), s.userK, |moved| + 1, free0 - 1 + 1);
    }
  }

  /** Copying one page of the victim: the collection goes on with one page fewer to copy. */
  lemma CopyStep(c: Ctx, s: State, v: nat, moved: set<Ppa>, valid0: set<Ppa>, free0: int, view0: map<nat, int>, p: Ppa)
    requires Collecting(c, s, v, moved, valid0, free0, view0) && Uncopied(s, moved, p) && p.blk == v
    requires free0 >= 2 * c.L() + 1 && |valid0| < c.L()
    ensures CanCopy(c, s, p)
    ensures Collecting(c, AfterCopy(c, s, p), v, moved + {p}, valid0, free0, view0)
    ensures SameVictim(s, AfterCopy(c, s, p), v)
  {
    hide ListHolds, OpenIs, HeapHolds, LineCountsOk, BlkCountsOk, PhaseOk, MapOk, Ctx.Valid, Shows, InVictim,
         FreePages, SameVictim, Copied, Reopened, Sized, ListOk;
    CopyStepFreeLine(c, s, v, moved, valid0, free0, view0, p);
    VictimMoved(c, s, v, moved, valid0);
    CopyKeeps(c, s, moved, p);
    CopiedFree(c, s, p);
    var n := Copied(c, s, p);
    OpenNotVictim(c, s, GcIo, v);
    CopiedInVictim(c, s, v, moved, valid0, p);
    CopiedShows(c, s, moved, p, view0);
    OpenNotVictim(c, n, GcIo, v);
    ReopenKeeps(c, n, GcIo, moved + {p});
    ReopenedInVictim(c, n, GcIo, v, moved + {p}, valid0);
    ReopenedShows(c, n, GcIo, view0);
    ReopenedOther(c, n);
    SameVictimTrans(s, n, Reopened(c, n, GcIo), v);
  }

  /** What copying one page needs, in particular a free line when the open line is used up. */
  ghost predicate CanCopy(c: Ctx, s: State, p: Ppa) {
    && c.Valid() && Sized(c, s) && p in s.status && s.rmap[p].Some? && s.PageAt(GcIo) in s.status
    && s.gc.line < c.g.ttLines && s.gcK < c.L()
    && (s.gcK + 1 == c.L() ==> |s.freeList| >= 1 && s.freeList[0] < c.g.ttLines)
  }

  ghost function AfterCopy(c: Ctx, s: State, p: Ppa): State
    requires CanCopy(c, s, p)
  {
    MappedSized(c, s, GcIo, s.rmap[p].value, s.content[p]);
    CopiedFree(c, s, p);
    Reopened(c, Copied(c, s, p), GcIo)
  }

  lemma SameVictimTrans(s: State, n: State, m: State, v: nat)
    requires SameVictim(s, n, v) && SameVictim(n, m, v)
    ensures SameVictim(s, m, v)
  {
  }

  lemma VictimMoved(c: Ctx, s: State, v: nat, moved: set<Ppa>, valid0: set<Ppa>)
    requires Sized(c, s) && InVictim(s, v, moved, valid0)
    ensures MovedOk(c, s, moved) && v < c.g.ttLines && s.role[v] == Collected
  {
  }

  lemma CopiedShows(c: Ctx, s: State, moved: set<Ppa>, p: Ppa, view0: map<nat, int>)
    requires c.Valid() && Sized(c, s) && MapOk(s.maptbl, s.rmap, s.status, moved) && Uncopied(s, moved, p)
    requires s.rmap[p].Some? && s.PageAt(GcIo) in s.status && s.status[s.PageAt(GcIo)] == PgFree
    requires Shows(s, view0)
    ensures Shows(Copied(c, s, p), view0)
  {
    CopyView(c, s, moved, p);
  }

  lemma ReopenedOther(c: Ctx, s: State)
    requires Sized(c, s) && s.gc.line < c.g.ttLines && c.L() >= 1
    requires s.gcK == c.L() ==> |s.freeList| >= 1 && s.freeList[0] < c.g.ttLines
    ensures Reopened(c, s, GcIo).user == s.user && Reopened(c, s, GcIo).userK == s.userK
  {
    ReopenedFields(c, s, GcIo);
  }

  /** A collection starts with every valid page of the victim still to copy. */
  lemma SelectStep(c: Ctx, s: State, v: nat)
    requires Inv(c, s, {}) && NoneCollected(s) && CursorOk(c, s, UserIo) && CursorOk(c, s, GcIo)
    requires v in s.victims
    ensures v < c.g.ttLines
    ensures s.vpc[v] == |LineSet(s.status, v, PgValid)| < c.L() && s.vpc[v] + s.ipc[v] == c.L()
    ensures s.ipc[v] == |LineSet(s.status, v, PgInvalid)|
    ensures forall l :: l in s.maptbl ==> s.maptbl[l] in s.content
    ensures Collecting(c, Selected(s, v), v, {}, LineSet(s.status, v, PgValid), FreePages(c, s), s.View())
  {
    hide ListHolds, OpenIs, HeapHolds, LineCountsOk, BlkCountsOk, PhaseOk, Ctx.Valid;
    VictimIsWritten(c, s, v);
    SelectKeeps(c, s, v);
  }

  lemma EraseStep(c: Ctx, s: State, v: nat, moved: set<Ppa>, valid0: set<Ppa>, free0: int, view0: map<nat, int>, b: Blk)
    requires Collecting(c, s, v, moved, valid0, free0, view0) && b.blk == v && b in c.blks
    requires forall p :: p in s.status && BlkOf(p) == b ==> s.status[p] != PgValid || p in moved
    ensures Collecting(c, Erased(s, b), v, moved, valid0, free0, view0)
  {
    hide ListHolds, OpenIs, HeapHolds, LineCountsOk, BlkCountsOk, PhaseOk, MapOk, Ctx.Valid, Shows, InVictim;
    VictimMoved(c, s, v, moved, valid0);
    EraseKeeps(c, s, moved, b);
    ErasedInVictim(s, v, moved, valid0, b);
    ErasedShows(s, view0, b);
  }

  lemma ErasedInVictim(s: State, v: nat, moved: set<Ppa>, valid0: set<Ppa>, b: Blk)
    requires InVictim(s, v, moved, valid0)
    requires forall p :: p in s.status && BlkOf(p) == b ==> s.status[p] != PgValid || p in moved
    ensures InVictim(Erased(s, b), v, moved, valid0)
  {
  }

  lemma ErasedShows(s: State, view: map<nat, int>, b: Blk)
    requires Shows(s, view)
    ensures Shows(Erased(s, b), view)
  {
  }

  ghost predicate AllFree(s: State, v: nat) {
    forall p :: p in s.status && p.blk == v ==> s.status[p] == PgFree
  }

  /** When the victim is free every valid page of it has been copied, once. */
  lemma AllMoved(s: State, v: nat, moved: set<Ppa>, valid0: set<Ppa>)
    requires InVictim(s, v, moved, valid0) && AllFree(s, v)
    ensures moved == valid0
  {
  }

  /** When a collection ends, the victim is free, nothing maps into it, the host sees the same
      data, and the pages gained are exactly those that were not valid at the start. */
  lemma FinishStep(c: Ctx, s: State, v: nat, moved: set<Ppa>, valid0: set<Ppa>, free0: int, view0: map<nat, int>)
    requires Collecting(c, s, v, moved, valid0, free0, view0) && AllFree(s, v)
    ensures v < |s.role| && v < |s.vpc| && v < |s.ipc|
    ensures var n := LineFreed(s, v);
            && Inv(c, n, {}) && NoneCollected(n) && CursorOk(c, n, UserIo) && CursorOk(c, n, GcIo)
            && FreePages(c, n) == free0 + c.L() - |valid0|
            && Shows(n, view0) && AllFree(n, v) && n.role[v] == InFreeList
            && forall l :: l in n.maptbl ==> n.maptbl[l].blk != v
  {
    hide ListHolds, OpenIs, HeapHolds, LineCountsOk, BlkCountsOk, PhaseOk, MapOk, Ctx.Valid;
    FreeKeeps(c, s, moved, v);
    ForgetMoved(s, moved, v);
    AllMoved(s, v, moved, valid0);
  }

  // ----- one page written by the host

  ghost function AfterUnmap(c: Ctx, s: State, l: nat): State
    requires c.Valid() && Sized(c, s) && (l in s.maptbl ==> s.maptbl[l] in s.status)
  {
    if l in s.maptbl then Unmapped(c, s, l) else s
  }

  ghost predicate CanWrite(c: Ctx, s: State) {
    && c.Valid() && Sized(c, s) && s.PageAt(UserIo) in s.status
    && s.user.line < c.g.ttLines && s.userK < c.L()
    && (s.userK + 1 == c.L() ==> |s.freeList| >= 1 && s.freeList[0] < c.g.ttLines)
  }

  ghost function AfterWrite(c: Ctx, s: State, l: nat, data: int): State
    requires CanWrite(c, s)
  {
    MappedSized(c, s, UserIo, l, data);
    Reopened(c, Bumped(Mapped(c, s, UserIo, l, data), UserIo), UserIo)
  }

  lemma UserFreeLine(free: nat, l: nat, gcK: nat, free0: int)
    requires l >= 1 && free0 >= 2 * l + 1 && gcK <= l && free * l + (l - gcK) + 1 == free0
    ensures free >= 1
  {
  }

  lemma UnmapView(c: Ctx, s: State, l: nat)
    requires c.Valid() && Sized(c, s) && MapOk(s.maptbl, s.rmap, s.status, {})
    requires l in s.maptbl ==> s.maptbl[l] in s.status
    ensures forall k :: k in s.maptbl ==> s.maptbl[k] in s.content
    ensures Shows(AfterUnmap(c, s, l), s.View() - {l})
    ensures AfterUnmap(c, s, l).maptbl == s.maptbl - {l}
  {
    if l in s.maptbl {
      UnmappedView(c, s, l);
    } else {
      assert s.maptbl - {l} == s.maptbl;
    }
  }

  lemma UnmappedView(c: Ctx, s: State, l: nat)
    requires c.Valid() && Sized(c, s) && MapOk(s.maptbl, s.rmap, s.status, {}) && l in s.maptbl
    ensures s.maptbl[l] in s.status && forall k :: k in s.maptbl ==> s.maptbl[k] in s.content
    ensures var n := Unmapped(c, s, l);
            n.maptbl == s.maptbl - {l} && n.content == s.content && Shows(n, s.View() - {l})
  {
    hide Ctx.Valid;
    var n := Unmapped(c, s, l);
    assert n.maptbl == s.maptbl - {l} && n.content == s.content;
  }

  lemma MappedShows(c: Ctx, s: State, l: nat, data: int, view: map<nat, int>)
    requires c.Valid() && Sized(c, s) && MapOk(s.maptbl, s.rmap, s.status, {})
    requires s.PageAt(UserIo) in s.status && s.status[s.PageAt(UserIo)] == PgFree && Shows(s, view)
    ensures Shows(Bumped(Mapped(c, s, UserIo, l, data), UserIo), view[l := data])
  {
    MapView(c, s, UserIo, l, data, {});
  }

  /** Writing a logical page that is not mapped (any more). */
  lemma PlaceStep(c: Ctx, s: State, l: nat, data: int, view: map<nat, int>)
    requires Inv(c, s, {}) && NoneCollected(s) && CursorOk(c, s, UserIo) && CursorOk(c, s, GcIo)
    requires l !in s.maptbl && Shows(s, view) && FreePages(c, s) >= 2 * c.L() + 1
    ensures CanWrite(c, s)
    ensures var n := AfterWrite(c, s, l, data);
            && Inv(c, n, {}) && NoneCollected(n) && CursorOk(c, n, UserIo) && CursorOk(c, n, GcIo)
            && JustWritten(c, n) && FreePages(c, n) == FreePages(c, s) - 1
            && Shows(n, view[l := data]) && n.maptbl.Keys == s.maptbl.Keys + {l}
  {
    hide ListHolds, OpenIs, HeapHolds, LineCountsOk, BlkCountsOk, PhaseOk, MapOk, Ctx.Valid, Shows,
         Reopened, Switched, Closed, Mapped, Bumped, FreePages, JustWritten, NoneCollected;
    PlaceHasLine(c, s);
    var n := Bumped(Mapped(c, s, UserIo, l, data), UserIo);
    PlacedMapped(c, s, l, data, view);
    ReopenKeeps(c, n, UserIo, {});
    ReopenedFields(c, n, UserIo);
    ReopenedShows(c, n, UserIo, view[l := data]);
    PlacedReopened(c, n, Reopened(c, n, UserIo));
  }

  lemma PlaceHasLine(c: Ctx, s: State)
    requires Inv(c, s, {}) && CursorOk(c, s, UserIo) && FreePages(c, s) >= 2 * c.L() + 1
    ensures CanWrite(c, s) && s.status[s.PageAt(UserIo)] == PgFree
  {
    hide ListHolds, OpenIs, HeapHolds, LineCountsOk, BlkCountsOk, PhaseOk, MapOk, Ctx.Valid;
    OpenLineInRange(c, s, UserIo);
    CursorIsFree(c, s, UserIo);
    if s.userK + 1 == c.L() {
      UserFreeLine(|s.freeList|, c.L(), s.gcK, FreePages(c, s));
    }
  }

  /** The page is taken, and the write pointer has not moved on yet. */
  lemma PlacedMapped(c: Ctx, s: State, l: nat, data: int, view: map<nat, int>)
    requires Inv(c, s, {}) && NoneCollected(s) && CursorOk(c, s, UserIo) && CursorOk(c, s, GcIo) && CanWrite(c, s)
    requires l !in s.maptbl && Shows(s, view) && s.status[s.PageAt(UserIo)] == PgFree
    ensures var n := Bumped(Mapped(c, s, UserIo, l, data), UserIo);
            && Inv(c, n, {}) && NoneCollected(n) && CursorOk(c, n, GcIo) && FreePages(c, n) == FreePages(c, s) - 1
            && n.userK == s.userK + 1 && n.user == s.user && n.freeList == s.freeList
            && n.userK <= c.L() && JustPut(c, n)
            && Shows(n, view[l := data]) && n.maptbl.Keys == s.maptbl.Keys + {l}
  {
    hide ListHolds, OpenIs, HeapHolds, LineCountsOk, BlkCountsOk, PhaseOk, MapOk, Ctx.Valid, Shows, Mapped, Bumped,
         Validated, ListOk;
    MappedFields(c, s, UserIo, l, data);
    MapKeeps(c, s, UserIo, l, data, {});
    MappedShows(c, s, l, data, view);
  }

  /** The page before the write pointer's next one is valid. */
  ghost predicate JustPut(c: Ctx, s: State) {
    && 1 <= s.userK <= c.L()
    && var q := At(s.user.line, c.order[s.userK - 1]); q in s.status && s.status[q] == PgValid
  }

  lemma PlacedReopened(c: Ctx, n: State, m: State)
    requires SameTables(n, m) && SameOther(n, m, UserIo) && JustPut(c, n) && NoneCollected(n)
    requires n.user.line < |n.role| && c.L() >= 1 && |n.vpc| == |n.role|
    requires if n.userK < c.L() then
               m.role == n.role && m.userK == n.userK && m.user.line == n.user.line
             else
               && m.userK == 0 && n.freeList != [] && n.freeList[0] < |n.role|
               && m.role == n.role[n.user.line := if n.vpc[n.user.line] == c.L() then InFullList else InHeap]
                             [n.freeList[0] := OpenFor(UserIo)]
    ensures JustWritten(c, m) && NoneCollected(m) && (CursorOk(c, n, GcIo) ==> CursorOk(c, m, GcIo))
  {
  }

  // ----- the initial state

  function PagesOf(g: Geo): set<Ppa> {
    set ch: nat, lun: nat, blk: nat, pg: nat
      | ch < g.nchs && lun < g.lunsPerCh && blk < g.ttLines && pg < g.PgsPerBlk() :: Ppa(ch, lun, blk, pg)
  }

  function BlksOf(g: Geo): set<Blk> {
    set ch: nat, lun: nat, blk: nat | ch < g.nchs && lun < g.lunsPerCh && blk < g.ttLines :: Blk(ch, lun, blk)
  }

  ghost function RankOf(order: seq<Slot>): (r: map<Slot, nat>)
    requires forall j, k :: 0 <= j < k < |order| ==> order[j] != order[k]
    ensures forall s :: s in r <==> s in order
    ensures forall k :: 0 <= k < |order| ==> order[k] in r && r[order[k]] == k
  {
    if order == [] then map[]
    else
      var n := |order| - 1;
      assert forall s :: s in order <==> s == order[n] || s in order[..n];
      RankOf(order[..n])[order[n] := n]
  }

  function ConstMap<K, V>(keys: set<K>, v: V): map<K, V> {
    map k | k in keys :: v
  }

  function Zeros(n: nat): seq<int> {
    seq(n, _ => 0)
  }

  function Upto(n: nat): (s: seq<nat>)
    ensures |s| == n && forall i :: 0 <= i < n ==> s[i] == i
  {
    seq(n, i requires 0 <= i => i)
  }

  function InitialRoles(n: nat): seq<Role> {
    seq(n, i => if i == 0 then OpenFor(UserIo) else if i == 1 then OpenFor(GcIo) else InFreeList)
  }

  ghost predicate Initial(c: Ctx, s: State) {
    && s.maptbl == map[] && s.rmap == ConstMap<Ppa, Option<nat>>(c.pages, None)
    && s.status == ConstMap(c.pages, PgFree) && s.content == ConstMap(c.pages, 0)
    && s.blkVpc == s.blkIpc == ConstMap(c.blks, 0)
    && c.g.ttLines >= 2 && s.vpc == s.ipc == Zeros(c.g.ttLines)
    && s.role == InitialRoles(c.g.ttLines) && s.freeList == Upto(c.g.ttLines)[2..]
    && s.fullList == [] && s.victims == {} && s.userK == 0 && s.gcK == 0
    && |c.order| >= 1 && s.user == Wp(0, c.order[0]) && s.gc == Wp(1, c.order[0])
  }

  lemma InitialInv(c: Ctx, s: State)
    requires c.Valid() && Initial(c, s)
    ensures Inv(c, s, {}) && NoneCollected(s)
  {
    hide ListHolds, OpenIs, HeapHolds, LineCountsOk, BlkCountsOk, PhaseOk, MapOk, Ctx.Valid;
    InitialCounts(c, s);
    InitialLists(c, s);
    InitialPhases(c, s);
    InitialOpen(c, s);
    assert Sized(c, s);
  }

  lemma InitialOpen(c: Ctx, s: State)
    requires Initial(c, s)
    ensures s.rmap.Keys == s.status.Keys && MapOk(s.maptbl, s.rmap, s.status, {})
    ensures |s.vpc| == |s.role| && HeapHolds(s.victims, s.role, s.vpc, c.L())
    ensures OpenIs(s.user.line, s.role, UserIo) && OpenIs(s.gc.line, s.role, GcIo)
  {
  }

  /** The invariants, with no collection under way. */
  ghost predicate Settled(c: Ctx, s: State, logicalPages: nat) {
    && Inv(c, s, {}) && NoneCollected(s)
    && CursorOk(c, s, UserIo) && CursorOk(c, s, GcIo)
    && (forall l :: l in s.maptbl ==> l < logicalPages)
  }

  /** What holds between two host writes: the invariants, and enough free pages beyond the
      granted credits. */
  ghost predicate Ready(c: Ctx, s: State, logicalPages: nat, credits: int, refill: int) {
    && Settled(c, s, logicalPages)
    && 1 <= refill <= c.L() && credits >= 1
    && FreePages(c, s) - credits >= Margin(c, logicalPages)
  }

  /** Two lines, and two pages more if some addressable page is spare, one otherwise. */
  ghost function Margin(c: Ctx, logicalPages: nat): int {
    2 * c.L() + if logicalPages < (c.g.ttLines - 4) * c.L() then 2 else 1
  }

  lemma StartRoom(lines: nat, l: nat, logical: nat)
    requires logical <= (lines - 4) * l && l >= 1
    ensures lines >= 4
    ensures (lines - 2) * l + l >= 2 * l + if logical < (lines - 4) * l then 2 else 1
  {
    assert (lines - 2) * l == (lines - 4) * l + 2 * l;
  }

  lemma InitialReady(c: Ctx, s: State, logicalPages: nat)
    requires c.Valid() && Initial(c, s) && logicalPages <= (c.g.ttLines - 4) * c.L()
    ensures Ready(c, s, logicalPages, c.L(), c.L())
  {
    hide Inv, Ctx.Valid, NoneCollected;
    InitialInv(c, s);
    StartRoom(c.g.ttLines, c.L(), logicalPages);
  }

  lemma InitialPhases(c: Ctx, s: State)
    requires c.Valid() && Initial(c, s)
    ensures PhaseOk(c, s.status, s.role, s.userK, s.gcK)
  {
  }

  lemma InitialLists(c: Ctx, s: State)
    requires Initial(c, s)
    ensures ListHolds(s.freeList, s.role, InFreeList) && ListHolds(s.fullList, s.role, InFullList)
  {
    forall b | 0 <= b < |s.role| && s.role[b] == InFreeList ensures b in s.freeList {
      assert s.freeList[b - 2] == b;
    }
  }

  lemma InitialCounts(c: Ctx, s: State)
    requires Initial(c, s)
    ensures LineCountsOk(s.status, s.role, s.vpc, s.ipc) && BlkCountsOk(s.status, s.blkVpc, s.blkIpc)
  {
    forall b | 0 <= b < |s.role| ensures LineCount(s.status, b, s.vpc[b], s.ipc[b]) {
      assert LineSet(s.status, b, PgValid) == {} && LineSet(s.status, b, PgInvalid) == {};
    }
    forall b | b in s.blkVpc ensures BlkCount(s.status, b, s.blkVpc[b], s.blkIpc[b]) {
      assert BlkSet(s.status, b, PgValid) == {} && BlkSet(s.status, b, PgInvalid) == {};
    }
  }

  /** A collection starts from a settled state. */
  lemma StartCollecting(c: Ctx, s: State, v: nat, logicalPages: nat)
    requires Settled(c, s, logicalPages) && v in s.victims
    ensures v < c.g.ttLines == |s.role|
    ensures 1 <= s.ipc[v] <= c.L() && |LineSet(s.status, v, PgValid)| + s.ipc[v] == c.L()
    ensures s.ipc[v] == |LineSet(s.status, v, PgInvalid)|
    ensures LineSet(s.status, v, PgValid) <= c.pages
    ensures forall p :: p in s.status && p.blk == v ==> s.status[p] != PgFree
    ensures forall l :: l in s.maptbl ==> s.maptbl[l] in s.content
    ensures forall l :: l in s.View() ==> l < logicalPages
    ensures Collecting(c, Selected(s, v), v, {}, LineSet(s.status, v, PgValid), FreePages(c, s), s.View())
  {
    hide ListHolds, OpenIs, HeapHolds, LineCountsOk, BlkCountsOk, PhaseOk, Ctx.Valid, Collecting, MapOk, CursorOk;
    SelectStep(c, s, v);
    VictimHasNoFreePage(c, s, v);
  }

  lemma VictimHasNoFreePage(c: Ctx, s: State, v: nat)
    requires c.Valid() && Sized(c, s) && PhaseOk(c, s.status, s.role, s.userK, s.gcK)
    requires HeapHolds(s.victims, s.role, s.vpc, c.L()) && v in s.victims
    ensures forall p :: p in s.status && p.blk == v ==> s.status[p] != PgFree
  {
    forall p | p in s.status && p.blk == v ensures s.status[p] != PgFree {
      assert PhaseOf(s.status[p], s.role[v], c.rank[SlotOf(p)], s.userK, s.gcK);
    }
  }

  /** And ends in one. */
  lemma EndCollecting(c: Ctx, s: State, v: nat, moved: set<Ppa>, valid0: set<Ppa>, free0: int, view0: map<nat, int>,
                      logicalPages: nat)
    requires Collecting(c, s, v, moved, valid0, free0, view0) && AllFree(s, v)
    requires forall l :: l in view0 ==> l < logicalPages
    ensures v < |s.role| == |s.vpc| == |s.ipc| == c.g.ttLines && v !in s.victims
    ensures var n := LineFreed(s, v);
            && Settled(c, n, logicalPages) && FreePages(c, n) == free0 + c.L() - |valid0|
            && Shows(n, view0) && Reclaimed(n, v)
  {
    hide Inv, Collecting, AllFree;
    NotInHeapWhileCollected(c, s, v, moved, valid0, free0, view0);
    FinishStep(c, s, v, moved, valid0, free0, view0);
    var n := LineFreed(s, v);
    assert n.maptbl.Keys == n.View().Keys;
  }

  lemma NotInHeapWhileCollected(c: Ctx, s: State, v: nat, moved: set<Ppa>, valid0: set<Ppa>, free0: int,
                                view0: map<nat, int>)
    requires Collecting(c, s, v, moved, valid0, free0, view0)
    ensures v < |s.role| == |s.vpc| == |s.ipc| == c.g.ttLines && v !in s.victims
  {
    hide ListHolds, OpenIs, LineCountsOk, BlkCountsOk, PhaseOk, MapOk, Ctx.Valid;
  }

  lemma ViewDefined(c: Ctx, s: State, logicalPages: nat)
    requires Settled(c, s, logicalPages)
    ensures forall l :: l in s.maptbl ==> s.maptbl[l] in s.content
    ensures Shows(s, s.View())
    ensures |s.role| == |s.vpc| == |s.ipc| == c.g.ttLines
  {
    hide ListHolds, OpenIs, LineCountsOk, BlkCountsOk, PhaseOk, Ctx.Valid;
  }

  /** Line v, with the fewest valid pages of all in the heap, was collected: it is free, the host
      sees what it saw, and as many pages are gained as v had invalid ones. */
  ghost predicate GaveUp(c: Ctx, s: State, n: State, v: nat) {
    && v in s.victims && v < |s.vpc| && (forall b :: b in s.victims ==> b < |s.vpc| && s.vpc[v] <= s.vpc[b])
    && (forall l :: l in s.maptbl ==> s.maptbl[l] in s.content) && Shows(n, s.View())
    && Reclaimed(n, v) && FreePages(c, n) == FreePages(c, s) + |LineSet(s.status, v, PgInvalid)|
  }

  lemma GivenUp(c: Ctx, s: State, n: State, v: nat, grant: int)
    requires v in s.victims && v < |s.vpc| && forall b :: b in s.victims ==> b < |s.vpc| && s.vpc[v] <= s.vpc[b]
    requires (forall l :: l in s.maptbl ==> s.maptbl[l] in s.content) && Shows(n, s.View()) && Reclaimed(n, v)
    requires grant == |LineSet(s.status, v, PgInvalid)| && |LineSet(s.status, v, PgValid)| + grant == c.L()
    requires FreePages(c, n) == FreePages(c, s) + c.L() - |LineSet(s.status, v, PgValid)|
    ensures GaveUp(c, s, n, v) && FreePages(c, n) == FreePages(c, s) + grant
  {
    hide Shows, Reclaimed, FreePages, LineSet, State.View;
  }

  /** The lines in the heap are lines. */
  lemma VictimsInRange(c: Ctx, s: State, logicalPages: nat)
    requires Settled(c, s, logicalPages)
    ensures forall b :: b in s.victims ==> b < |s.vpc| == |s.role|
  {
    hide MapOk, LineCountsOk, BlkCountsOk, PhaseOk;
  }

  /** Line v is in the free list, erased, and no logical page maps into it. */
  ghost predicate Reclaimed(s: State, v: nat) {
    && v < |s.role| && s.role[v] == InFreeList && AllFree(s, v)
    && forall l :: l in s.maptbl ==> s.maptbl[l].blk != v
  }
}
