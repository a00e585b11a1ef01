/** None of the checks the FTL makes on its own state can fail. */
module FtlChecks {
  import opened Arithmetic
  import opened Geometry
  import opened FtlState
  import opened FtlProofs
  import opened FtlCollection

  /** Every page number is below the block size. */
  ghost predicate PagesInBlocks(c: Ctx) {
    forall p :: p in c.pages ==> p.pg < c.g.PgsPerBlk()
  }

  /** The checks made when a page is marked invalid. */
  ghost predicate InvalidateChecks(c: Ctx, s: State, p: Ppa) {
    && p in s.status && s.status[p] == PgValid && p.blk < c.g.ttLines == |s.vpc| == |s.ipc|
    && BlkOf(p) in s.blkVpc && BlkOf(p) in s.blkIpc
    && 0 <= s.blkIpc[BlkOf(p)] < c.g.PgsPerBlk() && 0 < s.blkVpc[BlkOf(p)] <= c.g.PgsPerBlk()
    && 0 <= s.ipc[p.blk] < c.L() && 0 < s.vpc[p.blk] <= c.L()
    && (s.vpc[p.blk] == c.L() ==> s.ipc[p.blk] == 0)
  }

  lemma InvalidateChecksHold(c: Ctx, s: State, p: Ppa)
    requires c.Valid() && Sized(c, s) && PagesInBlocks(c)
    requires LineCountsOk(s.status, s.role, s.vpc, s.ipc) && BlkCountsOk(s.status, s.blkVpc, s.blkIpc)
    requires p in s.status && s.status[p] == PgValid && s.role[p.blk] != Collected
    ensures InvalidateChecks(c, s, p)
  {
    assert LineCount(s.status, p.blk, s.vpc[p.blk], s.ipc[p.blk]);
    assert BlkCount(s.status, BlkOf(p), s.blkVpc[BlkOf(p)], s.blkIpc[BlkOf(p)]);
    HasInLine(s.status, p);
    LineTotal(c, s.status, p.blk);
    BlkTotal(s.status, BlkOf(p), c.g.PgsPerBlk());
  }

  /** The checks made when the page under a write pointer is marked valid and the pointer
      advances: the page is free, and a line that gets used up can be replaced. */
  ghost predicate ProgramChecks(c: Ctx, s: State, io: IoType) {
    var q := s.PageAt(io);
    && c.Valid() && Sized(c, s) && CursorOk(c, s, io)
    && q in s.status && s.status[q] == PgFree && q.blk < c.g.ttLines && BlkOf(q) in c.blks
    && 0 <= s.blkVpc[BlkOf(q)] < c.g.PgsPerBlk() && 0 <= s.vpc[q.blk] < c.L() && q.blk !in s.victims
    && (s.K(io) + 1 == c.L() ==>
          && |s.freeList| >= 1 && s.freeList[0] < c.g.ttLines
          && if s.vpc[q.blk] + 1 == c.L() then s.ipc[q.blk] == 0 else s.ipc[q.blk] > 0)
  }

  /** The checks made when a write pointer advances past a page just programmed. */
  ghost predicate CanAdvance(c: Ctx, s: State, io: IoType) {
    var b := s.WpOf(io).line;
    && Sized(c, s) && b < c.g.ttLines && CursorOk(c, s, io)
    && (s.K(io) + 1 == c.L() ==>
          && |s.freeList| >= 1 && s.freeList[0] < c.g.ttLines && b !in s.victims
          && if s.vpc[b] == c.L() then s.ipc[b] == 0 else 0 <= s.vpc[b] < c.L() && s.ipc[b] > 0)
  }

  lemma ProgramThenAdvance(c: Ctx, s: State, io: IoType, l: nat, data: int)
    requires ProgramChecks(c, s, io)
    ensures CanAdvance(c, Mapped(c, s, io, l, data), io)
    ensures Sized(c, Bumped(Mapped(c, s, io, l, data), io))
  {
    hide Ctx.Valid, Bumped;
    MappedSized(c, s, io, l, data);
    BumpedFields(Mapped(c, s, io, l, data), io);
  }

  lemma LastFreePage(c: Ctx, s: State, io: IoType)
    requires c.Valid() && Sized(c, s) && PhaseOk(c, s.status, s.role, s.userK, s.gcK)
    requires OpenIs(s.WpOf(io).line, s.role, io) && CursorOk(c, s, io) && s.K(io) + 1 == c.L()
    ensures LineSet(s.status, s.WpOf(io).line, PgFree) == {s.PageAt(io)}
  {
    var b, q := s.WpOf(io).line, s.PageAt(io);
    CursorIsFree(c, s, io);
    forall p | p in LineSet(s.status, b, PgFree) ensures p == q {
      assert PhaseOf(s.status[p], s.role[p.blk], c.rank[SlotOf(p)], s.userK, s.gcK);
      assert c.rank[SlotOf(p)] == s.K(io);
      assert SlotOf(p) == c.order[s.K(io)] == SlotOf(q);
    }
  }

  lemma BlockOfPage(c: Ctx, q: Ppa)
    requires c.Valid() && PagesInBlocks(c) && q in c.pages
    ensures q.blk < c.g.ttLines && BlkOf(q) in c.blks
  {
  }

  lemma CountsAt(s: State, q: Ppa)
    requires |s.role| == |s.vpc| == |s.ipc| && LineCountsOk(s.status, s.role, s.vpc, s.ipc)
    requires s.blkVpc.Keys == s.blkIpc.Keys && BlkCountsOk(s.status, s.blkVpc, s.blkIpc)
    requires q.blk < |s.role| && s.role[q.blk] != Collected && BlkOf(q) in s.blkVpc
    ensures LineCount(s.status, q.blk, s.vpc[q.blk], s.ipc[q.blk])
    ensures BlkCount(s.status, BlkOf(q), s.blkVpc[BlkOf(q)], s.blkIpc[BlkOf(q)])
  {
  }

  lemma CountsAtCursor(c: Ctx, s: State, io: IoType)
    requires c.Valid() && Sized(c, s) && PagesInBlocks(c) && PhaseOk(c, s.status, s.role, s.userK, s.gcK)
    requires LineCountsOk(s.status, s.role, s.vpc, s.ipc) && BlkCountsOk(s.status, s.blkVpc, s.blkIpc)
    requires OpenIs(s.WpOf(io).line, s.role, io) && CursorOk(c, s, io)
    ensures var q := s.PageAt(io);
            && q in s.status && s.status[q] == PgFree && q.blk < c.g.ttLines && BlkOf(q) in c.blks
            && 0 <= s.blkVpc[BlkOf(q)] < c.g.PgsPerBlk() && 0 <= s.vpc[q.blk] < c.L() && s.ipc[q.blk] >= 0
            && (s.K(io) + 1 == c.L() ==> s.vpc[q.blk] + s.ipc[q.blk] + 1 == c.L())
  {
    hide PhaseOk, LineCountsOk, BlkCountsOk;
    CursorIsFree(c, s, io);
    var q := s.PageAt(io);
    BlockOfPage(c, q);
    CountsAt(s, q);
    HasInLine(s.status, q);
    LineTotal(c, s.status, q.blk);
    BlkTotal(s.status, BlkOf(q), c.g.PgsPerBlk());
    if s.K(io) + 1 == c.L() {
      LastFreePage(c, s, io);
    }
  }

  lemma OpenNotInHeap(c: Ctx, s: State, io: IoType)
    requires Sized(c, s) && ListOk(c, s)
    ensures OpenIs(s.WpOf(io).line, s.role, io) && s.WpOf(io).line !in s.victims
    ensures |s.freeList| >= 1 ==> s.freeList[0] < c.g.ttLines
  {
    assert |s.freeList| >= 1 ==> s.freeList[0] in s.freeList;
  }

  lemma ProgramChecksHold(c: Ctx, s: State, io: IoType, moved: set<Ppa>)
    requires Inv(c, s, moved) && PagesInBlocks(c) && CursorOk(c, s, io)
    requires s.K(io) + 1 == c.L() ==> |s.freeList| >= 1
    ensures ProgramChecks(c, s, io)
  {
    hide ListHolds, OpenIs, HeapHolds, LineCountsOk, BlkCountsOk, PhaseOk, MapOk, Ctx.Valid, PagesInBlocks;
    OpenNotInHeap(c, s, io);
    CountsAtCursor(c, s, io);
  }

  /** The checks do not depend on the forward map. */
  lemma ProgramChecksIgnoreMap(c: Ctx, s: State, io: IoType, maptbl: map<nat, Ppa>)
    requires ProgramChecks(c, s, io)
    ensures ProgramChecks(c, s.(maptbl := maptbl), io)
  {
  }

  /** A context built for geometry g. */
  ghost predicate WellMade(c: Ctx, g: Geo) {
    && g.Valid() && c.g == g && c.Valid() && IsWriteOrder(g, c.order) && c.L() == g.PgsPerLine() >= 1
    && PagesInBlocks(c) && c.pages == PagesOf(g) && c.blks == BlksOf(g)
    && forall p :: p in c.pages <==> g.Contains(p)
  }

  lemma MakeCtx(g: Geo) returns (c: Ctx)
    requires g.Valid()
    ensures WellMade(c, g)
  {
    hide Geo.Valid, Geo.PgsPerLine, IsWriteOrder, PagesOf, BlksOf, Ctx.Valid, PagesInBlocks;
    var order := WriteOrderExists(g);
    OrderFacts(g, order);
    c := Ctx(g, order, RankOf(order), PagesOf(g), BlksOf(g));
    RankInverts(order, c.rank);
    PagesMatch(g);
    CtxIsValid(c, g);
  }

  lemma OrderFacts(g: Geo, order: seq<Slot>)
    requires g.Valid() && IsWriteOrder(g, order)
    ensures |order| == g.PgsPerLine() >= 1
    ensures forall j, k :: 0 <= j < k < |order| ==> order[j] != order[k]
    ensures forall s: Slot :: s in order <==> g.InLine(s)
  {
    forall s: Slot | s in order ensures g.InLine(s) {
      var k :| 0 <= k < |order| && order[k] == s;
    }
  }

  lemma CtxIsValid(c: Ctx, g: Geo)
    requires c.g == g && |c.order| >= 1 && c.pages == PagesOf(g) && c.blks == BlksOf(g)
    requires forall s :: s in c.rank ==> c.rank[s] < |c.order| && c.order[c.rank[s]] == s
    requires forall k :: 0 <= k < |c.order| ==> c.order[k] in c.rank && c.rank[c.order[k]] == k
    requires forall s: Slot :: s in c.rank <==> g.InLine(s)
    ensures c.Valid() && PagesInBlocks(c) && forall p :: p in c.pages <==> g.Contains(p)
  {
    hide PagesOf, BlksOf, Geo.InLine, Geo.Contains;
    PagesMatch(g);
  }

  lemma RankInverts(order: seq<Slot>, rank: map<Slot, nat>)
    requires forall s :: s in rank ==> s in order
    requires forall k :: 0 <= k < |order| ==> order[k] in rank && rank[order[k]] == k
    ensures forall s :: s in rank ==> rank[s] < |order| && order[rank[s]] == s
  {
    forall s | s in rank ensures rank[s] < |order| && order[rank[s]] == s {
      var k :| 0 <= k < |order| && order[k] == s;
    }
  }

  lemma PagesMatch(g: Geo)
    ensures forall p :: p in PagesOf(g) <==> g.Contains(p)
    ensures forall p :: p in PagesOf(g) <==> g.InLine(SlotOf(p)) && p.blk < g.ttLines
    ensures forall p :: p in PagesOf(g) ==> BlkOf(p) in BlksOf(g) && p.pg < g.PgsPerBlk()
  {
  }

  /** While a collection copies pages, the checks on the page it writes cannot fail either. */
  lemma CopyChecksHold(c: Ctx, s: State, v: nat, moved: set<Ppa>, valid0: set<Ppa>, free0: int,
                       view0: map<nat, int>, p: Ppa)
    requires Collecting(c, s, v, moved, valid0, free0, view0) && Uncopied(s, moved, p) && p.blk == v
    requires free0 >= 2 * c.L() + 1 && |valid0| < c.L() && PagesInBlocks(c)
    ensures ProgramChecks(c, s, GcIo)
    ensures p in s.rmap && p in s.content && s.rmap[p].Some? && s.rmap[p].value in view0
  {
    hide ListHolds, OpenIs, HeapHolds, LineCountsOk, BlkCountsOk, PhaseOk, MapOk, Ctx.Valid, PagesInBlocks, InVictim,
         FreePages;
    CopyStepFreeLine(c, s, v, moved, valid0, free0, view0, p);
    ProgramChecksHold(c, s, GcIo, moved);
    UncopiedOwner(s, moved, p);
  }

  // ----- one page written by the host

  /** After the old page of logical page l was invalidated; the forward map still names it. */
  ghost function Dropped(c: Ctx, s: State, l: nat): State
    requires c.Valid() && Sized(c, s) && (l in s.maptbl ==> s.maptbl[l] in s.status)
  {
    AfterUnmap(c, s, l).(maptbl := s.maptbl)
  }

  /** The write of one page, up to its credit: the old page of l is invalid, the page under the write
      pointer holds the data, and the pointer stands on the next one. */
  ghost predicate Wrote(c: Ctx, s: State, l: nat, data: int, n: State) {
    && c.Valid() && Sized(c, s) && (l in s.maptbl ==> s.maptbl[l] in s.status)
    && CanWrite(c, Dropped(c, s, l)) && n == AfterWrite(c, Dropped(c, s, l), l, data)
  }

  /** What a refill does to state s, and to the grant: with at most two free lines and a line to
      collect, that line's invalid pages are the new grant, otherwise nothing changes. */
  ghost predicate Refills(c: Ctx, s: State, n: State, before: int, after: int) {
    if |s.freeList| <= 2 && s.victims != {}
    then exists v :: GaveUp(c, s, n, v) && after == |LineSet(s.status, v, PgInvalid)|
    else n == s && after == before
  }

  /** A full line that loses a page is in the full list and not in the heap. */
  lemma FullLineListed(c: Ctx, s: State, p: Ppa)
    requires Sized(c, s) && ListOk(c, s) && p.blk < c.g.ttLines
    requires s.vpc[p.blk] == c.L() <==> s.role[p.blk] == InFullList
    ensures s.vpc[p.blk] == c.L() ==> p.blk !in s.victims && p.blk in s.fullList
  {
  }

  lemma OverwriteChecksHold(c: Ctx, s: State, l: nat, logicalPages: nat)
    requires Settled(c, s, logicalPages) && PagesInBlocks(c) && l in s.maptbl
    ensures InvalidateChecks(c, s, s.maptbl[l])
    ensures s.vpc[s.maptbl[l].blk] == c.L() ==> s.maptbl[l].blk !in s.victims && s.maptbl[l].blk in s.fullList
  {
    hide ListHolds, OpenIs, HeapHolds, LineCountsOk, BlkCountsOk, PhaseOk, MapOk, Ctx.Valid, PagesInBlocks;
    MappedIsValid(s.maptbl, s.rmap, s.status, {}, l);
    var p := s.maptbl[l];
    PageFacts(c, p);
    InvalidateChecksHold(c, s, p);
    FullIffInFullList(c, s, p);
    FullLineListed(c, s, p);
  }

  lemma UnmappedFields(c: Ctx, s: State, l: nat)
    requires c.Valid() && Sized(c, s) && (l in s.maptbl ==> s.maptbl[l] in s.status)
    ensures var u := AfterUnmap(c, s, l);
            && u.freeList == s.freeList && u.user == s.user && u.gc == s.gc && u.userK == s.userK && u.gcK == s.gcK
            && l !in u.maptbl && u.maptbl[l := u.PageAt(UserIo)] == s.maptbl[l := u.PageAt(UserIo)]
            && u.maptbl.Keys <= s.maptbl.Keys
  {
  }

  lemma UnmapSettles(c: Ctx, s: State, l: nat, logicalPages: nat)
    requires Settled(c, s, logicalPages)
    ensures c.Valid() && Sized(c, s) && (l in s.maptbl ==> s.maptbl[l] in s.status)
    ensures forall k :: k in s.maptbl ==> s.maptbl[k] in s.content
    ensures Settled(c, AfterUnmap(c, s, l), logicalPages) && Shows(AfterUnmap(c, s, l), s.View() - {l})
    ensures FreePages(c, AfterUnmap(c, s, l)) == FreePages(c, s)
  {
    hide ListHolds, OpenIs, HeapHolds, LineCountsOk, BlkCountsOk, PhaseOk, MapOk, Ctx.Valid;
    if l in s.maptbl {
      MappedIsValid(s.maptbl, s.rmap, s.status, {}, l);
      UnmapKeeps(c, s, l);
    }
    UnmapView(c, s, l);
    UnmappedFields(c, s, l);
  }

  /** Writing one page: it can be done, it costs one free page, and the host then sees the new
      data at that page and what it saw before everywhere else. */
  lemma WriteStep(c: Ctx, s: State, l: nat, data: int, logicalPages: nat)
    requires Settled(c, s, logicalPages) && PagesInBlocks(c) && l < logicalPages
    requires FreePages(c, s) >= 2 * c.L() + 1
    ensures c.Valid() && Sized(c, s) && (l in s.maptbl ==> s.maptbl[l] in s.status)
    ensures forall k :: k in s.maptbl ==> s.maptbl[k] in s.content
    ensures ProgramChecks(c, Dropped(c, s, l), UserIo) && CanWrite(c, Dropped(c, s, l))
    ensures Wrote(c, s, l, data, AfterWrite(c, Dropped(c, s, l), l, data))
    ensures var n := AfterWrite(c, Dropped(c, s, l), l, data);
            && Settled(c, n, logicalPages) && JustWritten(c, n) && FreePages(c, n) == FreePages(c, s) - 1
            && Shows(n, s.View()[l := data])
  {
    hide Inv, Shows, FreePages, JustWritten, Reopened, CursorOk, NoneCollected, PagesInBlocks, Ctx.Valid, Sized,
         State.View, ProgramChecks;
    UnmapSettles(c, s, l, logicalPages);
    var u := AfterUnmap(c, s, l);
    UnmappedFields(c, s, l);
    PlaceStep(c, u, l, data, s.View() - {l});
    WriteHasFreeLine(c, u);
    ProgramChecksHold(c, u, UserIo, {});
    ProgramChecksIgnoreMap(c, u, UserIo, s.maptbl);
    assert (s.View() - {l})[l := data] == s.View()[l := data];
    SameWrite(c, s, u, l, data);
    WrittenKeys(c, u, l, data, logicalPages);
  }

  lemma WriteHasFreeLine(c: Ctx, s: State)
    requires CanWrite(c, s)
    ensures s.K(UserIo) + 1 == c.L() ==> |s.freeList| >= 1
  {
  }

  lemma SameWrite(c: Ctx, s: State, u: State, l: nat, data: int)
    requires CanWrite(c, u) && u.maptbl[l := u.PageAt(UserIo)] == s.maptbl[l := u.PageAt(UserIo)]
    ensures CanWrite(c, u.(maptbl := s.maptbl))
    ensures AfterWrite(c, u.(maptbl := s.maptbl), l, data) == AfterWrite(c, u, l, data)
  {
    hide Reopened;
    var m := u.(maptbl := s.maptbl);
    assert Mapped(c, m, UserIo, l, data) == Mapped(c, u, UserIo, l, data);
  }

  lemma WrittenKeys(c: Ctx, u: State, l: nat, data: int, logicalPages: nat)
    requires CanWrite(c, u) && (forall k :: k in u.maptbl ==> k < logicalPages) && l < logicalPages
    requires AfterWrite(c, u, l, data).maptbl.Keys == u.maptbl.Keys + {l}
    ensures forall k :: k in AfterWrite(c, u, l, data).maptbl ==> k < logicalPages
  {
  }

  // ----- refilling the write credits

  /** With more than two free lines the credits can be granted outright. */
  lemma RefillFromFreeLines(c: Ctx, s: State, refill: int, logicalPages: nat)
    requires |s.freeList| > 2 && s.userK < c.L() && s.gcK < c.L() && refill <= c.L()
    ensures FreePages(c, s) - refill >= Margin(c, logicalPages)
  {
    var free, l := |s.freeList|, c.L();
    assert free * l >= 3 * l by { Monotone(3, free, l); }
  }

  lemma RefillWithoutVictim(c: Ctx, s: State, refill: int, logicalPages: nat)
    requires Settled(c, s, logicalPages) && JustWritten(c, s) && |s.freeList| <= 2 && s.victims == {}
    requires refill <= c.L() && logicalPages <= (c.g.ttLines - 4) * c.L()
    ensures FreePages(c, s) - refill >= Margin(c, logicalPages)
  {
    hide Inv, FreePages, JustWritten, NoneCollected;
    MappedAtMost(s.maptbl, logicalPages);
    VictimOrRoom(c, s, logicalPages);
  }
}
