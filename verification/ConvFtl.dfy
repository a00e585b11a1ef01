/** The page-mapping FTL with foreground garbage collection, as it runs. */
module ConvFtl {
  import opened Wrappers
  import opened Arithmetic
  import opened Geometry
  import opened FtlState
  import opened FtlProofs
  import opened FtlCollection
  import opened FtlChecks
  import opened FtlSweep
  import opened VictimQueue

  /** One FTL instance. The valid page count and heap position of each line live in `pq`, whose
      priorities and positions are those fields. */
  class Ftl {
    const g: Geo
    const logicalPages: nat
    const pq: PQueue
    ghost const ctx: Ctx

    var maptbl: map<nat, Ppa>           // absent: UNMAPPED_PPA
    var rmap: map<Ppa, Option<nat>>     // None: INVALID_LPN
    var status: map<Ppa, Status>
    var blkVpc: map<Blk, int>
    var blkIpc: map<Blk, int>
    var ipc: seq<int>
    var freeList: seq<nat>
    var fullList: seq<nat>
    var freeLineCnt: int
    var fullLineCnt: int
    var victimLineCnt: int
    var wp: Wp
    var gcWp: Wp
    var writeCredits: int
    var creditsToRefill: int

    ghost var content: map<Ppa, int>
    ghost var role: seq<Role>
    ghost var userK: nat
    ghost var gcK: nat

    ghost function Snap(): State
      reads this, pq
    {
      State(maptbl, rmap, status, content, blkVpc, blkIpc, pq.pri, ipc, freeList, fullList, pq.elems, role,
            wp, gcWp, userK, gcK)
    }

    /** The heap is well formed and a line's position is non-zero exactly when it is in it. */
    ghost predicate QueueOk()
      reads this, pq, pq.d
    {
      pq.Valid() && pq.Tracked() && |pq.pos| == |pq.pri| == g.ttLines
    }

    ghost predicate CntOk()
      reads this, pq
    {
      freeLineCnt == |freeList| && fullLineCnt == |fullList| && victimLineCnt == |pq.elems|
    }

    ghost predicate Fixed() {
      WellMade(ctx, g) && logicalPages <= (g.ttLines - 4) * ctx.L()
    }

    /** What holds between two host writes. */
    ghost predicate Valid()
      reads this, pq, pq.d
    {
      Fixed() && QueueOk() && CntOk() && Ready(ctx, Snap(), logicalPages, writeCredits, creditsToRefill)
    }

    constructor (geo: Geo, logical: nat)
      requires geo.Valid() && logical <= (geo.ttLines - 4) * geo.PgsPerLine()
      ensures Valid() && g == geo && logicalPages == logical
      ensures maptbl == map[] && fresh(pq) && fresh(pq.d) && Initial(ctx, Snap())
      ensures writeCredits == creditsToRefill == ctx.L()
    {
      hide PQueue.Valid, PQueue.Tracked, WellMade, Geo.Valid, Geo.PgsPerBlk, Geo.PgsPerLine, PagesOf, BlksOf,
           InitialRoles, Ready, ConstMap;
      ghost var c := MakeCtx(geo);
      MadeFor(c, geo);
      StartRoom(geo.ttLines, geo.PgsPerLine(), logical);
      g := geo;
      logicalPages := logical;
      ctx := c;
      pq := new PQueue(geo.ttLines);
      maptbl := map[];
      rmap := ConstMap<Ppa, Option<nat>>(PagesOf(geo), None);
      status := ConstMap(PagesOf(geo), PgFree);
      content := ConstMap(PagesOf(geo), 0);
      blkVpc := ConstMap(BlksOf(geo), 0);
      blkIpc := ConstMap(BlksOf(geo), 0);
      ipc := Zeros(geo.ttLines);
      var lines := Upto(geo.ttLines);
      // the first free line becomes the open line of the host, the next one that of the collector
      freeList := lines[2..];
      fullList := [];
      freeLineCnt := geo.ttLines - 2;
      fullLineCnt := 0;
      victimLineCnt := 0;
      wp := Wp(lines[0], Slot(0, 0, 0));
      gcWp := Wp(lines[1], Slot(0, 0, 0));
      writeCredits := geo.PgsPerLine();
      creditsToRefill := geo.PgsPerLine();
      role := InitialRoles(geo.ttLines);
      userK := 0;
      gcK := 0;
      new;
      assert pq.pri == Zeros(geo.ttLines);
      assert Initial(ctx, Snap());
      InitialReady(ctx, Snap(), logical);
    }

    /** The requires are the checks the code makes, and that a full line is not in the heap. */
    method MarkPageInvalid(p: Ppa)
      requires Fixed() && QueueOk() && CntOk() && Sized(ctx, Snap()) && InvalidateChecks(ctx, Snap(), p)
      requires pq.pri[p.blk] == ctx.L() ==> p.blk !in pq.elems && p.blk in fullList
      modifies this`status, this`blkVpc, this`blkIpc, this`ipc, this`fullList, this`fullLineCnt,
               this`victimLineCnt, this`role, pq, pq.d
      ensures QueueOk() && CntOk()
      ensures Snap() == Invalidated(ctx, old(Snap()), p)
    {
      hide PQueue.Valid, PQueue.Tracked, WellMade, Ctx.Valid, PagesOf, BlksOf, Geo.PgsPerBlk, Geo.PgsPerLine;
      MadeFor(ctx, g);
      var line := p.blk;
      var wasFullLine := pq.pri[line] == g.PgsPerLine();
      CountInvalidPage(p);
      LineLosesValidPage(line);
      if wasFullLine {
        FullToVictim(line);
      }
    }

    method CountInvalidPage(p: Ppa)
      requires BlkOf(p) in blkVpc && BlkOf(p) in blkIpc && p.blk < |ipc|
      modifies this`status, this`blkVpc, this`blkIpc, this`ipc
      ensures var s := old(Snap());
              Snap() == s.(status := s.status[p := PgInvalid],
                           blkIpc := s.blkIpc[BlkOf(p) := s.blkIpc[BlkOf(p)] + 1],
                           blkVpc := s.blkVpc[BlkOf(p) := s.blkVpc[BlkOf(p)] - 1],
                           ipc := s.ipc[p.blk := s.ipc[p.blk] + 1])
    {
      status := status[p := PgInvalid];
      blkIpc := blkIpc[BlkOf(p) := blkIpc[BlkOf(p)] + 1];
      blkVpc := blkVpc[BlkOf(p) := blkVpc[BlkOf(p)] - 1];
      ipc := ipc[p.blk := ipc[p.blk] + 1];
    }

    method LineLosesValidPage(line: nat)
      requires QueueOk() && line < g.ttLines
      modifies pq`pri, pq`pos, pq.d
      ensures QueueOk() && Snap() == old(Snap()).(vpc := old(pq.pri)[line := old(pq.pri[line]) - 1])
    {
      if pq.pos[line] != 0 {
        pq.ChangePriority(pq.pri[line] - 1, line);
      } else {
        pq.SetPriorityOutside(line, pq.pri[line] - 1);
      }
    }

    method FullToVictim(line: nat)
      requires QueueOk() && CntOk() && line < g.ttLines == |role| && line !in pq.elems && line in fullList
      modifies this`fullList, this`fullLineCnt, this`victimLineCnt, this`role, pq`size, pq`pos, pq`elems, pq.d
      ensures QueueOk() && CntOk()
      ensures Snap() == old(Snap()).(fullList := FtlState.Removed(old(fullList), line),
                                     victims := old(pq.elems) + {line}, role := old(role)[line := InHeap])
    {
      hide PQueue.Valid, PQueue.Tracked, Distinct;
      fullList := FtlState.Removed(fullList, line);
      fullLineCnt := fullLineCnt - 1;
      BecomeVictim(line);
    }

    method BecomeVictim(line: nat)
      requires QueueOk() && CntOk() && line < g.ttLines == |role| && line !in pq.elems
      modifies this`victimLineCnt, this`role, pq`size, pq`pos, pq`elems, pq.d
      ensures QueueOk() && CntOk()
      ensures Snap() == old(Snap()).(victims := old(pq.elems) + {line}, role := old(role)[line := InHeap])
    {
      hide PQueue.Valid, PQueue.Tracked;
      pq.Insert(line);
      victimLineCnt := victimLineCnt + 1;
      role := role[line := InHeap];
    }

    method MarkPageValid(p: Ppa)
      requires Fixed() && QueueOk() && CntOk() && Sized(ctx, Snap())
      requires p in status && status[p] == PgFree && p.blk < g.ttLines && p.blk !in pq.elems && BlkOf(p) in ctx.blks
      requires 0 <= blkVpc[BlkOf(p)] < g.PgsPerBlk() && 0 <= pq.pri[p.blk] < ctx.L()
      modifies this`status, this`blkVpc, pq`pri
      ensures QueueOk() && CntOk()
      ensures Snap() == Validated(ctx, old(Snap()), p)
    {
      hide PQueue.Valid, PQueue.Tracked, WellMade, Ctx.Valid, PagesOf, BlksOf, Geo.PgsPerBlk, Geo.PgsPerLine;
      MadeFor(ctx, g);
      status := status[p := PgValid];
      blkVpc := blkVpc[BlkOf(p) := blkVpc[BlkOf(p)] + 1];
      pq.SetPriorityOutside(p.blk, pq.pri[p.blk] + 1);
    }

    /** The coordinates after one page, or the end of the line. */
    method StepSlot(at: Slot) returns (lineUsedUp: bool, next: Slot)
      requires g.Valid() && g.InLine(at)
      ensures if lineUsedUp then g.Next(at) == None && next == Slot(0, 0, 0) else g.Next(at) == Some(next)
    {
      var ch, lun, pg := at.ch, at.lun, at.pg;
      pg := pg + 1;
      if pg % g.pgsPerOneshot != 0 {
        return false, Slot(ch, lun, pg);
      }
      MultipleAtLeast(pg, g.pgsPerOneshot);
      pg := pg - g.pgsPerOneshot;
      ch := ch + 1;
      if ch != g.nchs {
        return false, Slot(ch, lun, pg);
      }
      ch := 0;
      lun := lun + 1;
      if lun != g.lunsPerCh {
        return false, Slot(ch, lun, pg);
      }
      lun := 0;
      pg := pg + g.pgsPerOneshot;
      if pg != g.PgsPerBlk() {
        return false, Slot(ch, lun, pg);
      }
      pg := 0;
      return true, Slot(ch, lun, pg);
    }

    method StepPointer(at: Slot, ghost k: nat) returns (lineUsedUp: bool, next: Slot)
      requires Fixed() && k < ctx.L() && at == ctx.order[k]
      ensures lineUsedUp <==> k + 1 == ctx.L()
      ensures next == ctx.order[if lineUsedUp then 0 else k + 1]
    {
      OrderStep(g, ctx.order, k);
      hide WellMade;
      lineUsedUp, next := StepSlot(at);
    }

    method AdvanceWritePointer(io: IoType)
      requires Fixed() && QueueOk() && CntOk() && CanAdvance(ctx, Snap(), io)
      modifies this`wp, this`gcWp, this`userK, this`gcK, this`freeList, this`fullList, this`freeLineCnt,
               this`fullLineCnt, this`victimLineCnt, this`role, pq`size, pq`pos, pq`elems, pq.d
      ensures QueueOk() && CntOk()
      ensures Sized(ctx, Bumped(old(Snap()), io))
      ensures Snap() == Reopened(ctx, Bumped(old(Snap()), io), io)
    {
      hide PQueue.Valid, PQueue.Tracked, WellMade, Ctx.Valid, PagesOf, BlksOf, Geo.PgsPerBlk, Geo.PgsPerLine;
      MadeFor(ctx, g);
      var w := if io.UserIo? then wp else gcWp;
      ghost var k := Snap().K(io);
      var lineUsedUp, next := StepPointer(w.at, k);
      if lineUsedUp {
        SwitchLine(io, w.line, next);
      } else {
        SetPointer(io, Wp(w.line, next), k + 1);
      }
    }

    method SwitchLine(io: IoType, used: nat, start: Slot)
      requires Fixed() && QueueOk() && CntOk() && Sized(ctx, Snap())
      requires used == Snap().WpOf(io).line < g.ttLines && start == ctx.order[0] && used !in pq.elems
      requires |freeList| >= 1 && freeList[0] < g.ttLines
      modifies this`wp, this`gcWp, this`userK, this`gcK, this`freeList, this`fullList, this`freeLineCnt,
               this`fullLineCnt, this`victimLineCnt, this`role, pq`size, pq`pos, pq`elems, pq.d
      ensures QueueOk() && CntOk()
      ensures Snap() == Switched(ctx, old(Snap()), io)
    {
      hide PQueue.Valid, PQueue.Tracked, WellMade, Ctx.Valid, PagesOf, BlksOf, Geo.PgsPerBlk, Geo.PgsPerLine;
      MadeFor(ctx, g);
      ClosedFree(ctx, Snap(), used);
      hide Closed;
      CloseLine(used);
      OpenNextLine(io, start);
    }

    /** The first free line becomes an open line. */
    method OpenNextLine(io: IoType, start: Slot)
      requires CntOk() && |freeList| >= 1 && freeList[0] < |role|
      modifies this`wp, this`gcWp, this`userK, this`gcK, this`freeList, this`freeLineCnt, this`role
      ensures CntOk()
      ensures var s := old(Snap());
              Snap() == s.(freeList := s.freeList[1..], role := s.role[s.freeList[0] := OpenFor(io)])
                         .SetWp(io, Wp(s.freeList[0], start), 0)
    {
      var line := GetNextFreeLine();
      role := role[line := OpenFor(io)];
      SetPointer(io, Wp(line, start), 0);
    }

    method SetPointer(io: IoType, w: Wp, ghost k: nat)
      modifies this`wp, this`gcWp, this`userK, this`gcK
      ensures Snap() == old(Snap()).SetWp(io, w, k)
    {
      if io.UserIo? {
        wp, userK := w, k;
      } else {
        gcWp, gcK := w, k;
      }
    }

    /** A used-up line goes to the full list if all its pages are valid, else to the heap. */
    method CloseLine(line: nat)
      requires QueueOk() && CntOk() && line < g.ttLines == |role| == |ipc| && line !in pq.elems
      requires Fixed()
      modifies this`fullList, this`fullLineCnt, this`victimLineCnt, this`role, pq`size, pq`pos, pq`elems, pq.d
      ensures QueueOk() && CntOk()
      ensures Snap() == Closed(ctx, old(Snap()), line)
    {
      hide PQueue.Valid, WellMade, Ctx.Valid, PagesOf, BlksOf, Geo.PgsPerLine;
      MadeFor(ctx, g);
      if pq.pri[line] == g.PgsPerLine() {
        fullList := fullList + [line];
        fullLineCnt := fullLineCnt + 1;
        role := role[line := InFullList];
      } else {
        BecomeVictim(line);
      }
    }

    /** The precondition is what no caller can do without: the list is not empty. */
    method GetNextFreeLine() returns (line: nat)
      requires |freeList| >= 1 && CntOk()
      modifies this`freeList, this`freeLineCnt
      ensures CntOk() && line == old(freeList)[0]
      ensures Snap() == old(Snap()).(freeList := old(freeList)[1..])
    {
      line := freeList[0];
      freeList := freeList[1..];
      freeLineCnt := freeLineCnt - 1;
    }

    /** Takes the page under a write pointer for logical page l: both tables, the page status
        and the write pointer, as host writes and the collector do. */
    method ProgramPage(io: IoType, l: nat, ghost data: int)
      requires Fixed() && QueueOk() && CntOk() && ProgramChecks(ctx, Snap(), io)
      modifies this`maptbl, this`rmap, this`content, this`status, this`blkVpc, this`wp, this`gcWp, this`userK, this`gcK,
               this`freeList, this`fullList, this`freeLineCnt, this`fullLineCnt, this`victimLineCnt, this`role,
               pq`pri, pq`size, pq`pos, pq`elems, pq.d
      ensures QueueOk() && CntOk()
      ensures ProgramChecks(ctx, old(Snap()), io) && Sized(ctx, Bumped(Mapped(ctx, old(Snap()), io, l, data), io))
      ensures Snap() == Reopened(ctx, Bumped(Mapped(ctx, old(Snap()), io, l, data), io), io)
    {
      hide PQueue.Valid, PQueue.Tracked, WellMade, Reopened, Sized, Mapped, Bumped, CanAdvance, Fixed;
      ProgramThenAdvance(ctx, Snap(), io, l, data);
      MapPage(io, l, data);
      AdvanceWritePointer(io);
    }

    /** The page under the write pointer becomes the valid page of l. */
    method MapPage(io: IoType, l: nat, ghost data: int)
      requires Fixed() && QueueOk() && CntOk() && ProgramChecks(ctx, Snap(), io)
      modifies this`maptbl, this`rmap, this`content, this`status, this`blkVpc, pq`pri
      ensures QueueOk() && CntOk() && ProgramChecks(ctx, old(Snap()), io)
      ensures Snap() == Mapped(ctx, old(Snap()), io, l, data)
    {
      hide PQueue.Valid, PQueue.Tracked, WellMade, Ctx.Valid, PagesOf, BlksOf, Geo.PgsPerBlk, Geo.PgsPerLine, Sized;
      MadeFor(ctx, g);
      var w := if io.UserIo? then wp else gcWp;
      var q := At(w.line, w.at);
      SetTables(l, q, data);
      MarkPageValid(q);
    }

    method SetTables(l: nat, q: Ppa, ghost data: int)
      requires Sized(ctx, Snap()) && q in status
      modifies this`maptbl, this`rmap, this`content
      ensures Snap() == old(Snap()).(maptbl := old(maptbl)[l := q], rmap := old(rmap)[q := Some(l)],
                                     content := old(content)[q := data])
      ensures Sized(ctx, Snap())
    {
      KeysKept(rmap, q, Some(l));
      KeysKept(content, q, data);
      maptbl := maptbl[l := q];
      rmap := rmap[q := Some(l)];
      content := content[q := data];
    }

    lemma FixedFacts()
      requires Fixed()
      ensures ctx.g == g && PagesInBlocks(ctx) && logicalPages <= g.TtPgs()
      ensures logicalPages <= (ctx.g.ttLines - 4) * ctx.L()
    {
      hide IsWriteOrder, Ctx.Valid, PagesOf, BlksOf, Geo.PgsPerLine, Geo.TtPgs, PagesInBlocks;
      LinesHoldAllPages(g);
      FewerThanAll(g.ttLines, ctx.L(), logicalPages);
    }

    // ----- garbage collection

    /** A collection of line job.v is under way and moved are the pages copied so far. */
    ghost predicate Busy(job: Job, moved: set<Ppa>)
      reads this, pq, pq.d
    {
      && Fixed() && QueueOk() && CntOk()
      && Collecting(ctx, Snap(), job.v, moved, job.valid0, job.free0, job.view0)
      && job.free0 >= 2 * ctx.L() + 1 && |job.valid0| < ctx.L() && job.valid0 <= ctx.pages
      && forall l :: l in job.view0 ==> l < logicalPages
    }

    /** Moves one valid page of the victim to the collector's open line. */
    method GcWritePage(p: Ppa, ghost job: Job, ghost moved: set<Ppa>)
      requires Busy(job, moved) && Uncopied(Snap(), moved, p) && p.blk == job.v
      modifies this`maptbl, this`rmap, this`content, this`status, this`blkVpc, this`wp, this`gcWp, this`userK, this`gcK,
               this`freeList, this`fullList, this`freeLineCnt, this`fullLineCnt, this`victimLineCnt, this`role,
               pq`pri, pq`size, pq`pos, pq`elems, pq.d
      ensures Busy(job, moved + {p}) && SameVictim(old(Snap()), Snap(), job.v)
    {
      hide Collecting, Uncopied, SameVictim, ProgramChecks, Reopened, Mapped, Bumped, CanCopy, Fixed, QueueOk, CntOk,
           Geo.TtPgs, Ctx.Valid, Sized;
      ghost var s := Snap();
      FixedFacts();
      CopyChecksHold(ctx, s, job.v, moved, job.valid0, job.free0, job.view0, p);
      CopyStep(ctx, s, job.v, moved, job.valid0, job.free0, job.view0, p);
      var lpn := rmap[p].value;
      assert lpn < g.TtPgs();
      ProgramPage(GcIo, lpn, s.content[p]);
    }

    /** How many pages of a flash page are valid. */
    method CountFlashpg(blk: nat, ch: nat, lun: nat, base: nat) returns (cnt: nat)
      requires forall p :: InFlashpg(p, blk, base, g.pgsPerFlashpg, ch, lun) ==> p in status
      ensures cnt == |ValidIn(status, blk, base, g.pgsPerFlashpg, ch, lun)|
    {
      hide ValidIn;
      cnt := 0;
      var i := 0;
      NoneInNone(status, blk, base, ch, lun);
      while i < g.pgsPerFlashpg
        invariant 0 <= i <= g.pgsPerFlashpg && cnt == |ValidIn(status, blk, base, i, ch, lun)|
      {
        var p := Ppa(ch, lun, blk, base + i);
        assert InFlashpg(p, blk, base, g.pgsPerFlashpg, ch, lun);
        ValidStep(status, blk, base, i, ch, lun);
        if status[p] == PgValid {
          cnt := cnt + 1;
        }
        i := i + 1;
      }
    }

    /** Reads and moves the valid pages of one flash page of the victim; cnt is how many there are. */
    method CleanOneFlashpg(blk: nat, ch: nat, lun: nat, base: nat, ghost job: Job, ghost moved0: set<Ppa>)
      returns (cnt: nat, ghost moved: set<Ppa>)
      requires Busy(job, moved0) && blk == job.v
      requires forall p :: InFlashpg(p, job.v, base, g.pgsPerFlashpg, ch, lun) ==>
                             p in status && status[p] != PgFree && p !in moved0
      modifies this`maptbl, this`rmap, this`content, this`status, this`blkVpc, this`wp, this`gcWp, this`userK, this`gcK,
               this`freeList, this`fullList, this`freeLineCnt, this`fullLineCnt, this`victimLineCnt, this`role,
               pq`pri, pq`size, pq`pos, pq`elems, pq.d
      ensures Busy(job, moved)
      ensures Cleaned(old(Snap()), Snap(), job.v, moved0, moved, base, g.pgsPerFlashpg, ch, lun)
      ensures cnt == |ValidIn(old(status), job.v, base, g.pgsPerFlashpg, ch, lun)|
    {
      hide Busy, Cleaned, SameVictim, ValidIn;
      ghost var s0 := Snap();
      ghost var v := job.v;
      moved := moved0;
      cnt := CountFlashpg(blk, ch, lun, base);
      if cnt <= 0 {
        AllInvalidCleaned(s0, v, moved0, base, g.pgsPerFlashpg, ch, lun);
        return;
      }
      CleanedNone(s0, v, moved0, base, ch, lun);
      var i := 0;
      while i < g.pgsPerFlashpg
        invariant 0 <= i <= g.pgsPerFlashpg
        invariant Busy(job, moved) && Cleaned(s0, Snap(), v, moved0, moved, base, i, ch, lun)
      {
        var p := Ppa(ch, lun, blk, base + i);
        ghost var s := Snap();
        CleanedKeys(s0, s, v, moved0, moved, base, i, ch, lun);
        assert InFlashpg(p, v, base, g.pgsPerFlashpg, ch, lun);
        if status[p] == PgValid {
          NotYetCopied(s0, s, v, moved0, moved, base, i, ch, lun);
          GcWritePage(p, job, moved);
          CleanedCopy(s0, s, Snap(), v, moved0, moved, base, i, ch, lun);
          moved := moved + {p};
        } else {
          CleanedSkip(s0, s, v, moved0, moved, base, i, ch, lun);
        }
        i := i + 1;
      }
    }

    /** Erases one block. */
    method MarkBlockFree(blk: nat, ch: nat, lun: nat)
      requires Fixed() && QueueOk() && CntOk() && Sized(ctx, Snap())
      requires ch < g.nchs && lun < g.lunsPerCh && blk < g.ttLines
      modifies this`status, this`blkVpc, this`blkIpc
      ensures QueueOk() && CntOk()
      ensures Snap() == Erased(old(Snap()), Blk(ch, lun, blk))
    {
      hide WellMade, PagesOf, BlksOf, Geo.PgsPerBlk, FreedUpTo, PQueue.Valid, PQueue.Tracked;
      ghost var s := Snap();
      ghost var b := Blk(ch, lun, blk);
      BlockPages(ctx, g, b);
      FreePagesOf(blk, ch, lun);
      FreedAll(s, b, g.PgsPerBlk());
      blkIpc := blkIpc[Blk(ch, lun, blk) := 0];
      blkVpc := blkVpc[Blk(ch, lun, blk) := 0];
    }

    method FreePagesOf(blk: nat, ch: nat, lun: nat)
      requires forall i :: 0 <= i < g.PgsPerBlk() ==> Ppa(ch, lun, blk, i) in status
      modifies this`status
      ensures status == FreedUpTo(old(status), Blk(ch, lun, blk), g.PgsPerBlk())
    {
      hide Geo.PgsPerBlk, FreedUpTo;
      ghost var b := Blk(ch, lun, blk);
      FreedNone(status, b);
      var i := 0;
      while i < g.PgsPerBlk()
        invariant 0 <= i <= g.PgsPerBlk() && status == FreedUpTo(old(status), b, i)
      {
        FreedStep(old(status), b, i);
        status := status[Ppa(ch, lun, blk, i) := PgFree];
        i := i + 1;
      }
    }

    /** Cleans one flash page and, on the last one of a block, erases the block. */
    method VisitFlashpg(blk: nat, ch: nat, lun: nat, base: nat, last: bool, ghost job: Job, ghost moved0: set<Ppa>)
      returns (ghost moved: set<Ppa>)
      requires Busy(job, moved0) && blk == job.v && ch < g.nchs && lun < g.lunsPerCh
      requires base + g.pgsPerFlashpg <= g.PgsPerBlk() && (last ==> base + g.pgsPerFlashpg == g.PgsPerBlk())
      requires Sweep(Snap(), job.v, moved0, base, g.pgsPerFlashpg, ch, lun, last)
      modifies this`maptbl, this`rmap, this`content, this`status, this`blkVpc, this`blkIpc, this`wp, this`gcWp,
               this`userK, this`gcK, this`freeList, this`fullList, this`freeLineCnt, this`fullLineCnt,
               this`victimLineCnt, this`role, pq`pri, pq`size, pq`pos, pq`elems, pq.d
      ensures Busy(job, moved)
      ensures Sweep(Snap(), job.v, moved, base, g.pgsPerFlashpg, ch, lun + 1, last)
    {
      hide Sweep, Cleaned, Collecting, QueueOk, CntOk, WellMade, Sized, Geo.PgsPerBlk;
      ghost var s := Snap();
      FlashpgAhead(s, job.v, moved0, base, g.pgsPerFlashpg, ch, lun, last);
      FlashpgExists(job, moved0, ch, lun, base);
      var cnt;
      cnt, moved := CleanOneFlashpg(blk, ch, lun, base, job, moved0);
      ghost var n := Snap();
      if last {
        BusyBounds(job, moved);
        BlockReadyToErase(s, n, job.v, moved0, moved, base, g.pgsPerFlashpg, ch, lun);
        BlockErased(s, n, job.v, moved0, moved, base, g.pgsPerFlashpg, ch, lun);
        EraseStep(ctx, n, job.v, moved, job.valid0, job.free0, job.view0, Blk(ch, lun, blk));
        MarkBlockFree(blk, ch, lun);
      } else {
        FlashpgSeen(s, n, job.v, moved0, moved, base, g.pgsPerFlashpg, ch, lun);
      }
    }

    lemma FlashpgExists(job: Job, moved: set<Ppa>, ch: nat, lun: nat, base: nat)
      requires Busy(job, moved) && ch < g.nchs && lun < g.lunsPerCh && base + g.pgsPerFlashpg <= g.PgsPerBlk()
      ensures forall p :: InFlashpg(p, job.v, base, g.pgsPerFlashpg, ch, lun) ==> p in status
    {
    }

    lemma BusyTiles(job: Job, moved: set<Ppa>)
      requires Busy(job, moved)
      ensures g.pgsPerFlashpg >= 1 && g.FlashpgsPerBlk() >= 1
      ensures g.FlashpgsPerBlk() * g.pgsPerFlashpg == g.PgsPerBlk()
    {
      FlashpgsTile(g);
    }

    lemma BusyBounds(job: Job, moved: set<Ppa>)
      requires Busy(job, moved)
      ensures Sized(ctx, Snap()) && ctx.Valid() && job.v < g.ttLines
      ensures forall p :: p in status ==> p.ch < g.nchs && p.lun < g.lunsPerCh && p.pg < g.PgsPerBlk()
      ensures forall p :: p in moved ==> p in status
      ensures forall ch: nat, lun: nat :: ch < g.nchs && lun < g.lunsPerCh ==> Blk(ch, lun, job.v) in ctx.blks
    {
      hide MapOk, LineCountsOk, BlkCountsOk, PhaseOk, ListOk, QueueOk, CntOk, IsWriteOrder;
      MadeBounds(ctx, g);
    }

    /** One flash page of every channel and LUN. */
    method SweepFlashpg(blk: nat, base: nat, last: bool, ghost job: Job, ghost moved0: set<Ppa>)
      returns (ghost moved: set<Ppa>)
      requires Busy(job, moved0) && blk == job.v
      requires base + g.pgsPerFlashpg <= g.PgsPerBlk() && (last ==> base + g.pgsPerFlashpg == g.PgsPerBlk())
      requires Sweep(Snap(), job.v, moved0, base, g.pgsPerFlashpg, 0, 0, last)
      modifies this`maptbl, this`rmap, this`content, this`status, this`blkVpc, this`blkIpc, this`wp, this`gcWp,
               this`userK, this`gcK, this`freeList, this`fullList, this`freeLineCnt, this`fullLineCnt,
               this`victimLineCnt, this`role, pq`pri, pq`size, pq`pos, pq`elems, pq.d
      ensures Busy(job, moved)
      ensures Sweep(Snap(), job.v, moved, base, g.pgsPerFlashpg, g.nchs, 0, last)
    {
      hide Busy, Sweep, Geo.PgsPerBlk;
      moved := moved0;
      var ch := 0;
      while ch < g.nchs
        invariant 0 <= ch <= g.nchs
        invariant Busy(job, moved) && Sweep(Snap(), job.v, moved, base, g.pgsPerFlashpg, ch, 0, last)
      {
        var lun := 0;
        while lun < g.lunsPerCh
          invariant 0 <= lun <= g.lunsPerCh
          invariant Busy(job, moved) && Sweep(Snap(), job.v, moved, base, g.pgsPerFlashpg, ch, lun, last)
        {
          moved := VisitFlashpg(blk, ch, lun, base, last, job, moved);
          lun := lun + 1;
        }
        BusyBounds(job, moved);
        NextChannel(Snap(), job.v, moved, base, g.pgsPerFlashpg, ch, g.lunsPerCh, last);
        ch := ch + 1;
      }
    }

    /** The whole victim: every valid page is copied and every block erased. */
    method SweepVictim(blk: nat, ghost job: Job) returns (ghost moved: set<Ppa>)
      requires Busy(job, {}) && blk == job.v
      requires forall p :: p in status && p.blk == blk ==> status[p] != PgFree
      modifies this`maptbl, this`rmap, this`content, this`status, this`blkVpc, this`blkIpc, this`wp, this`gcWp,
               this`userK, this`gcK, this`freeList, this`fullList, this`freeLineCnt, this`fullLineCnt,
               this`victimLineCnt, this`role, pq`pri, pq`size, pq`pos, pq`elems, pq.d
      ensures Busy(job, moved) && AllFree(Snap(), blk)
    {
      hide Busy, Sweep, AllFree, Geo.PgsPerBlk, Geo.FlashpgsPerBlk;
      BusyTiles(job, {});
      var n, fp := g.FlashpgsPerBlk(), g.pgsPerFlashpg;
      moved := {};
      SweepStarts(Snap(), blk, fp, 1 == n);
      var flashpg := 0;
      while flashpg < n
        invariant 0 <= flashpg <= n
        invariant Busy(job, moved)
        invariant flashpg < n ==> Sweep(Snap(), blk, moved, flashpg * fp, fp, 0, 0, flashpg + 1 == n)
        invariant flashpg == n ==> AllFree(Snap(), blk)
      {
        var base := flashpg * fp;
        TileBound(flashpg, n, fp);
        moved := SweepFlashpg(blk, base, flashpg == n - 1, job, moved);
        BusyBounds(job, moved);
        if flashpg == n - 1 {
          SweepEnds(Snap(), blk, moved, base, fp, g.nchs);
        } else {
          NextFlashpg(Snap(), blk, moved, base, fp, g.nchs, flashpg + 2 == n);
        }
        flashpg := flashpg + 1;
      }
    }

    /** Takes a line with the fewest valid pages out of the heap; without force only if at most
        an eighth of its pages are valid. */
    method SelectVictimLine(force: bool) returns (found: bool, v: nat)
      requires Fixed() && QueueOk() && CntOk() && |role| == g.ttLines
      modifies this`victimLineCnt, this`role, pq`size, pq`pos, pq`elems, pq.d
      ensures QueueOk() && CntOk()
      ensures found ==> v in old(pq.elems) && v < |role| && forall b :: b in old(pq.elems) ==> pq.pri[v] <= pq.pri[b]
      ensures found <==> exists b :: b in old(pq.elems) && (force || pq.pri[b] <= ctx.L() / 8)
      ensures if found then Snap() == Selected(old(Snap()), v) else Snap() == old(Snap())
    {
      hide PQueue.Valid, PQueue.Tracked, Tracks, WellMade, Ctx.Valid, PagesOf, BlksOf, Geo.PgsPerLine;
      MadeFor(ctx, g);
      found, v := pq.Peek();
      if !found {
        return;
      }
      InHeapRange(v);
      if !force && pq.pri[v] > g.PgsPerLine() / 8 {
        return false, v;
      }
      var _, _ := pq.Pop();
      pq.ClearPosition(v);
      victimLineCnt := victimLineCnt - 1;
      role := role[v := Collected];
    }

    lemma InHeapRange(v: nat)
      requires QueueOk() && v in pq.elems
      ensures v < g.ttLines
    {
    }

    method ClearCounts(v: nat)
      requires QueueOk() && v < g.ttLines == |ipc| && v !in pq.elems
      modifies this`ipc, pq`pri
      ensures QueueOk() && ipc == old(ipc)[v := 0] && pq.pri == old(pq.pri)[v := 0]
    {
      hide PQueue.Valid;
      ipc := ipc[v := 0];
      pq.SetPriorityOutside(v, 0);
    }

    method MarkLineFree(v: nat)
      requires QueueOk() && CntOk() && v < g.ttLines == |role| == |ipc| && v !in pq.elems
      modifies this`ipc, this`freeList, this`freeLineCnt, this`role, pq`pri
      ensures QueueOk() && CntOk() && Snap() == LineFreed(old(Snap()), v)
    {
      hide PQueue.Valid, PQueue.Tracked;
      ghost var s := Snap();
      ClearCounts(v);
      assert Snap() == s.(vpc := s.vpc[v := 0], ipc := s.ipc[v := 0]);
      freeList := freeList + [v];
      freeLineCnt := freeLineCnt + 1;
      role := role[v := InFreeList];
    }

    ghost predicate Idle()
      reads this, pq, pq.d
    {
      Fixed() && QueueOk() && CntOk() && Settled(ctx, Snap(), logicalPages)
    }

    /** Collects the line with the fewest valid pages. The host's view does not change, the
        victim ends up erased and free with nothing mapped into it, and the credits granted for
        the next host writes are its invalid pages, which are just the pages gained. */
    method DoGc(force: bool) returns (collected: bool, ghost v: nat)
      requires Idle() && FreePages(ctx, Snap()) >= 2 * ctx.L() + 1
      modifies this`maptbl, this`rmap, this`content, this`status, this`blkVpc, this`blkIpc, this`wp, this`gcWp,
               this`userK, this`gcK, this`freeList, this`fullList, this`freeLineCnt, this`fullLineCnt,
               this`victimLineCnt, this`role, this`ipc, this`creditsToRefill,
               pq`pri, pq`size, pq`pos, pq`elems, pq.d
      ensures Idle()
      ensures collected <==> exists b :: b in old(pq.elems) && (force || old(pq.pri)[b] <= ctx.L() / 8)
      ensures !collected ==> Snap() == old(Snap()) && creditsToRefill == old(creditsToRefill)
      ensures collected ==> v in old(pq.elems) && v < old(|pq.pri|)
      ensures collected ==> forall b :: b in old(pq.elems) ==> old(pq.pri)[v] <= old(pq.pri)[b]
      ensures collected ==> Reclaimed(Snap(), v)
      ensures forall l :: l in old(maptbl) ==> old(maptbl)[l] in old(content)
      ensures Shows(Snap(), old(Snap()).View())
      ensures collected ==> 1 <= creditsToRefill <= ctx.L()
      ensures collected ==> creditsToRefill == |LineSet(old(Snap()).status, v, PgInvalid)|
      ensures collected ==> GaveUp(ctx, old(Snap()), Snap(), v)
      ensures collected ==> FreePages(ctx, Snap()) == FreePages(ctx, old(Snap())) + creditsToRefill
    {
      hide Settled, Collecting, Reclaimed, Shows, FreePages, PQueue.Valid, PQueue.Tracked, Fixed, LineSet, AllFree,
           Selected, LineFreed, State.View, Geo.TtPgs, GaveUp;
      ghost var s := Snap();
      FixedFacts();
      ViewDefined(ctx, s, logicalPages);
      VictimsInRange(ctx, s, logicalPages);
      var found, victim := SelectVictimLine(force);
      v := victim;
      if !found {
        return false, v;
      }
      StartCollecting(ctx, s, victim, logicalPages);
      SelectedFields(s, victim);
      creditsToRefill := ipc[victim];
      ghost var job := Job(victim, LineSet(s.status, victim, PgValid), FreePages(ctx, s), s.View());
      ghost var moved := SweepVictim(victim, job);
      EndCollecting(ctx, Snap(), victim, moved, job.valid0, job.free0, job.view0, logicalPages);
      MarkLineFree(victim);
      GivenUp(ctx, s, Snap(), victim, creditsToRefill);
      collected := true;
    }

    // ----- host writes

    /** Invalidates the page that holds logical page l, if any. */
    method DropOldPage(l: nat)
      requires Idle()
      modifies this`rmap, this`status, this`blkVpc, this`blkIpc, this`ipc, this`fullList, this`fullLineCnt,
               this`victimLineCnt, this`role, pq, pq.d
      ensures QueueOk() && CntOk() && ctx.Valid() && Sized(ctx, old(Snap()))
      ensures l in old(maptbl) ==> old(maptbl)[l] in old(status)
      ensures Snap() == Dropped(ctx, old(Snap()), l)
    {
      hide Settled, PQueue.Valid, PQueue.Tracked, Fixed, Invalidated, InvalidateChecks, Sized, Ctx.Valid, Geo.TtPgs,
           Shows, State.View, FreePages;
      ghost var s := Snap();
      FixedFacts();
      UnmapSettles(ctx, s, l, logicalPages);
      if l in maptbl {
        var p := maptbl[l];
        OverwriteChecksHold(ctx, s, l, logicalPages);
        MarkPageInvalid(p);
        rmap := rmap[p := None];
      }
    }

    /** One page written by the host. Afterwards the host sees the new data at l and what it
        saw before everywhere else, and the margin of free pages over credits is kept. The write
        costs one credit; when that was the last one, a line is collected if at most two are free,
        and the credits of the last collection are granted. */
    method WritePage(l: nat, ghost data: int)
      requires Valid() && l < logicalPages
      modifies this, pq, pq.d
      ensures Valid()
      ensures forall k :: k in old(maptbl) ==> old(maptbl)[k] in old(content)
      ensures Shows(Snap(), old(Snap()).View()[l := data])
      ensures old(writeCredits) > 1 ==>
                && Wrote(ctx, old(Snap()), l, data, Snap())
                && writeCredits == old(writeCredits) - 1 && creditsToRefill == old(creditsToRefill)
      ensures old(writeCredits) == 1 ==>
                && writeCredits == creditsToRefill
                && exists n :: Wrote(ctx, old(Snap()), l, data, n)
                               && Refills(ctx, n, Snap(), old(creditsToRefill), creditsToRefill)
    {
      hide Settled, PQueue.Valid, PQueue.Tracked, Fixed, Sized, Ctx.Valid, Geo.TtPgs, Shows, State.View, FreePages,
           Reopened, Mapped, Bumped, ProgramChecks, JustWritten, Dropped, CanWrite, Wrote, Refills;
      ghost var s := Snap();
      FixedFacts();
      MarginAtLeast(ctx, logicalPages);
      WriteStep(ctx, s, l, data, logicalPages);
      DropOldPage(l);
      ProgramPage(UserIo, l, data);
      ShowsView(Snap(), s.View()[l := data]);
      writeCredits := writeCredits - 1;
      CheckAndRefillWriteCredit();
    }

    /** The pages start..end written in order, or nothing if the range ends beyond the device. */
    method WriteRange(start: nat, end: nat, ghost data: seq<int>) returns (ok: bool)
      requires Valid() && start <= end && |data| == end + 1 - start
      requires end < logicalPages || end >= g.TtPgs()
      modifies this, pq, pq.d
      ensures Valid() && (ok <==> end < g.TtPgs())
      ensures forall k :: k in old(maptbl) ==> old(maptbl)[k] in old(content)
      ensures !ok ==> Snap() == old(Snap())
      ensures ok ==> Shows(Snap(), Overlaid(old(Snap()).View(), start, data))
    {
      hide Settled, PQueue.Valid, PQueue.Tracked, Fixed, Geo.TtPgs, Shows, State.View, QueueOk, CntOk, Ready;
      ReadyView(ctx, Snap(), logicalPages, writeCredits, creditsToRefill);
      ghost var view0 := Snap().View();
      if end >= g.TtPgs() {
        return false;
      }
      FixedFacts();
      var lpn := start;
      while lpn <= end
        invariant start <= lpn <= end + 1 && Valid()
        invariant Shows(Snap(), Overlaid(view0, start, data[..lpn - start]))
      {
        assert data[..lpn + 1 - start] == data[..lpn - start] + [data[lpn - start]];
        ShowsView(Snap(), Overlaid(view0, start, data[..lpn - start]));
        WritePage(lpn, data[lpn - start]);
        lpn := lpn + 1;
      }
      assert data[..lpn - start] == data;
      return true;
    }

    /** With no credits left, collects a line if need be, and adds the credits of the last
        collection. */
    method CheckAndRefillWriteCredit()
      requires Idle() && JustWritten(ctx, Snap())
      requires writeCredits >= 0 && 1 <= creditsToRefill <= ctx.L()
      requires FreePages(ctx, Snap()) - writeCredits >= Margin(ctx, logicalPages)
      modifies this, pq, pq.d
      ensures Valid()
      ensures forall k :: k in old(maptbl) ==> old(maptbl)[k] in old(content)
      ensures Shows(Snap(), old(Snap()).View())
      ensures old(writeCredits) > 0 ==>
                Snap() == old(Snap()) && writeCredits == old(writeCredits) && creditsToRefill == old(creditsToRefill)
      ensures old(writeCredits) == 0 ==>
                Refills(ctx, old(Snap()), Snap(), old(creditsToRefill), creditsToRefill)
                && writeCredits == creditsToRefill
    {
      hide Settled, PQueue.Valid, PQueue.Tracked, Fixed, Geo.TtPgs, Shows, State.View, FreePages, JustWritten, Margin,
           Refills;
      ViewDefined(ctx, Snap(), logicalPages);
      if writeCredits <= 0 {
        ForegroundGc();
        writeCredits := writeCredits + creditsToRefill;
      }
    }

    /** Collects one line if at most two lines are free. Either way the next grant of credits
        leaves the margin of free pages. */
    method ForegroundGc()
      requires Idle() && JustWritten(ctx, Snap()) && 1 <= creditsToRefill <= ctx.L()
      requires FreePages(ctx, Snap()) >= Margin(ctx, logicalPages)
      modifies this`maptbl, this`rmap, this`content, this`status, this`blkVpc, this`blkIpc, this`wp, this`gcWp,
               this`userK, this`gcK, this`freeList, this`fullList, this`freeLineCnt, this`fullLineCnt,
               this`victimLineCnt, this`role, this`ipc, this`creditsToRefill,
               pq`pri, pq`size, pq`pos, pq`elems, pq.d
      ensures Idle() && 1 <= creditsToRefill <= ctx.L()
      ensures FreePages(ctx, Snap()) - creditsToRefill >= Margin(ctx, logicalPages)
      ensures forall k :: k in old(maptbl) ==> old(maptbl)[k] in old(content)
      ensures Shows(Snap(), old(Snap()).View())
      ensures Refills(ctx, old(Snap()), Snap(), old(creditsToRefill), creditsToRefill)
    {
      hide Settled, PQueue.Valid, PQueue.Tracked, Fixed, Geo.TtPgs, Shows, State.View, FreePages, JustWritten, Margin,
           GaveUp;
      ghost var s := Snap();
      FixedFacts();
      ViewDefined(ctx, s, logicalPages);
      MarginAtLeast(ctx, logicalPages);
      if freeLineCnt <= GC_THRES_LINES_HIGH {
        var collected, v := DoGc(true);
        if !collected {
          assert s.victims == {} by { assert forall b :: b !in s.victims; }
          RefillWithoutVictim(ctx, s, creditsToRefill, logicalPages);
        }
      } else {
        SettledCursors(ctx, s, logicalPages);
        RefillFromFreeLines(ctx, s, creditsToRefill, logicalPages);
      }
    }
  }

  const GC_THRES_LINES_HIGH := 2

  lemma FewerThanAll(lines: nat, l: nat, logical: nat)
    requires logical <= (lines - 4) * l
    ensures logical <= lines * l
  {
    assert lines * l == (lines - 4) * l + 4 * l;
  }

  lemma ShowsView(s: State, view: map<nat, int>)
    requires Shows(s, view)
    ensures forall k :: k in s.maptbl ==> s.maptbl[k] in s.content
    ensures s.View() == view
  {
  }

  /** A view with consecutive pages from start replaced. */
  ghost function Overlaid(view: map<nat, int>, start: nat, data: seq<int>): map<nat, int> {
    if data == [] then view
    else
      var n := |data| - 1;
      Overlaid(view, start, data[..n])[start + n := data[n]]
  }

  /** Overlaying replaces exactly the written range. */
  lemma {:induction false} OverlaidIsRange(view: map<nat, int>, start: nat, data: seq<int>, l: nat)
    ensures l in Overlaid(view, start, data) <==> l in view || start <= l < start + |data|
    ensures start <= l < start + |data| ==> Overlaid(view, start, data)[l] == data[l - start]
    ensures l in view && !(start <= l < start + |data|) ==> Overlaid(view, start, data)[l] == view[l]
  {
    if data != [] {
      OverlaidIsRange(view, start, data[..|data| - 1], l);
    }
  }

  /** The configured over-provisioning of 7% satisfies the bound on logical pages from 62 lines on. */
  lemma OverProvisioningSuffices(lines: nat, l: nat)
    requires lines >= 62
    ensures lines * l * 100 / 107 <= (lines - 4) * l
  {
    var n := lines * l;
    assert 4 * l * 107 <= 7 * n by { assert 62 * l <= n by { Monotone(62, lines, l); } }
    assert (lines - 4) * l == n - 4 * l;
  }

  lemma ReadyView(c: Ctx, s: State, logicalPages: nat, credits: int, refill: int)
    requires Ready(c, s, logicalPages, credits, refill)
    ensures forall l :: l in s.maptbl ==> s.maptbl[l] in s.content
    ensures Shows(s, s.View())
  {
    hide Settled;
    ViewDefined(c, s, logicalPages);
  }

  lemma MarginAtLeast(c: Ctx, logicalPages: nat)
    ensures Margin(c, logicalPages) >= 2 * c.L() + 1
  {
  }

  lemma SettledCursors(c: Ctx, s: State, logicalPages: nat)
    requires Settled(c, s, logicalPages)
    ensures s.userK < c.L() && s.gcK < c.L()
  {
    hide Inv;
  }

  /** The line being collected, its valid pages, and the free pages and view at the start. */
  datatype Job = Job(v: nat, valid0: set<Ppa>, free0: int, view0: map<nat, int>)

  lemma ClosedFree(c: Ctx, s: State, b: nat)
    requires b < |s.vpc| == |s.role|
    ensures Closed(c, s, b).freeList == s.freeList && |Closed(c, s, b).role| == |s.role|
  {
    var r := if s.vpc[b] == c.L() then InFullList else InHeap;
    assert Closed(c, s, b).role == s.role[b := r];
  }

  lemma MadeBounds(c: Ctx, g: Geo)
    requires WellMade(c, g)
    ensures forall p :: p in c.pages ==> p.ch < g.nchs && p.lun < g.lunsPerCh && p.pg < g.PgsPerBlk()
    ensures forall ch: nat, lun: nat, blk: nat
              :: ch < g.nchs && lun < g.lunsPerCh && blk < g.ttLines ==> Blk(ch, lun, blk) in c.blks
  {
  }

  lemma TileBound(i: nat, n: nat, fp: nat)
    requires i < n
    ensures (i + 1) * fp == i * fp + fp <= n * fp
    ensures i + 1 == n ==> i * fp + fp == n * fp
  {
    Monotone(i + 1, n, fp);
  }

  lemma SelectedFields(s: State, v: nat)
    requires v < |s.role|
    ensures var n := Selected(s, v); n.status == s.status && n.ipc == s.ipc && n.vpc == s.vpc && |n.role| == |s.role|
  {
  }

  lemma BlockPages(c: Ctx, g: Geo, b: Blk)
    requires WellMade(c, g) && b.ch < g.nchs && b.lun < g.lunsPerCh && b.blk < g.ttLines
    ensures b in c.blks
    ensures forall i :: 0 <= i < g.PgsPerBlk() ==> Ppa(b.ch, b.lun, b.blk, i) in c.pages
    ensures forall p :: p in c.pages && BlkOf(p) == b ==> p.pg < g.PgsPerBlk()
  {
    forall i | 0 <= i < g.PgsPerBlk() ensures Ppa(b.ch, b.lun, b.blk, i) in c.pages {
      assert g.Contains(Ppa(b.ch, b.lun, b.blk, i));
    }
  }

  lemma OrderStep(g: Geo, order: seq<Slot>, k: nat)
    requires g.Valid() && IsWriteOrder(g, order) && k < |order|
    ensures g.InLine(order[k]) && g.Next(order[k]) == if k + 1 < |order| then Some(order[k + 1]) else None
    ensures order[0] == Slot(0, 0, 0)
  {
  }

  lemma MadeFor(c: Ctx, g: Geo)
    requires WellMade(c, g)
    ensures c.g == g && c.L() == g.PgsPerLine() >= 1 && c.order[0] == Slot(0, 0, 0)
    ensures c.Valid() && c.pages == PagesOf(g) && c.blks == BlksOf(g)
  {
  }
}
