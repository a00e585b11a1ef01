/** The state of one page-mapping FTL instance as a value: tables, counters, line lists and
    write pointers, the steps the FTL performs on them, and the invariants those steps keep. */
module FtlState {
  import opened Wrappers
  import opened Geometry

  datatype Status = PgFree | PgInvalid | PgValid

  datatype IoType = UserIo | GcIo

  /** Which structure holds a line. A line being collected is in none of them. */
  datatype Role = InFreeList | OpenFor(io: IoType) | InFullList | InHeap | Collected

  datatype Blk = Blk(ch: nat, lun: nat, blk: nat)

  datatype Wp = Wp(line: nat, at: Slot)

  function BlkOf(p: Ppa): Blk {
    Blk(p.ch, p.lun, p.blk)
  }

  /** Geometry together with the write order of a line, its inverse, and all pages and blocks. */
  datatype Ctx = Ctx(g: Geo, order: seq<Slot>, rank: map<Slot, nat>, pages: set<Ppa>, blks: set<Blk>)
  {
    function L(): nat {
      |order|
    }

    ghost predicate Valid() {
      && |order| >= 1
      && (forall s :: s in rank ==> rank[s] < |order| && order[rank[s]] == s)
      && (forall k :: 0 <= k < |order| ==> order[k] in rank && rank[order[k]] == k)
      && (forall p :: p in pages <==> SlotOf(p) in rank && p.blk < g.ttLines)
      && (forall p :: p in pages ==> BlkOf(p) in blks)
    }
  }

  /** freeList and fullList are the line lists, victims the lines in the heap, vpc and ipc the
      page counters of each line. content is what each page stores; nothing in the FTL reads it.
      userK and gcK count the pages written in the two open lines. */
  datatype State = State(
    maptbl: map<nat, Ppa>, rmap: map<Ppa, Option<nat>>, status: map<Ppa, Status>, content: map<Ppa, int>,
    blkVpc: map<Blk, int>, blkIpc: map<Blk, int>, vpc: seq<int>, ipc: seq<int>,
    freeList: seq<nat>, fullList: seq<nat>, victims: set<nat>, role: seq<Role>,
    user: Wp, gc: Wp, userK: nat, gcK: nat)
  {
    function WpOf(io: IoType): Wp {
      if io.UserIo? then user else gc
    }

    function K(io: IoType): nat {
      if io.UserIo? then userK else gcK
    }

    function PageAt(io: IoType): Ppa {
      At(WpOf(io).line, WpOf(io).at)
    }

    function SetWp(io: IoType, w: Wp, k: nat): State {
      if io.UserIo? then this.(user := w, userK := k) else this.(gc := w, gcK := k)
    }

    /** What the host sees: the data of every mapped logical page. */
    ghost function View(): map<nat, int>
      requires forall l :: l in maptbl ==> maptbl[l] in content
    {
      map l | l in maptbl :: content[maptbl[l]]
    }
  }

  // ----- invariants

  ghost predicate Sized(c: Ctx, s: State) {
    && |s.vpc| == |s.ipc| == |s.role| == c.g.ttLines
    && s.userK <= c.L() && s.gcK <= c.L()
    && s.status.Keys == s.rmap.Keys == s.content.Keys == c.pages
    && s.blkVpc.Keys == s.blkIpc.Keys == c.blks
  }

  /** maptbl and rmap are mutually inverse between mapped logical pages and valid pages;
      pages in moved still read as valid but were already copied by the collector. */
  ghost predicate MapOk(maptbl: map<nat, Ppa>, rmap: map<Ppa, Option<nat>>, status: map<Ppa, Status>, moved: set<Ppa>)
    requires rmap.Keys == status.Keys
  {
    && (forall l :: l in maptbl ==>
                      && maptbl[l] in status && status[maptbl[l]] == PgValid
                      && rmap[maptbl[l]] == Some(l) && maptbl[l] !in moved)
    && (forall p :: p in status && status[p] == PgValid && p !in moved ==>
                      rmap[p].Some? && rmap[p].value in maptbl && maptbl[rmap[p].value] == p)
  }

  ghost function LineSet(status: map<Ppa, Status>, b: nat, st: Status): set<Ppa> {
    set p | p in status && p.blk == b && status[p] == st
  }

  ghost function BlkSet(status: map<Ppa, Status>, b: Blk, st: Status): set<Ppa> {
    set p | p in status && BlkOf(p) == b && status[p] == st
  }

  ghost predicate LineCount(status: map<Ppa, Status>, b: nat, vpc: int, ipc: int) {
    vpc == |LineSet(status, b, PgValid)| && ipc == |LineSet(status, b, PgInvalid)|
  }

  ghost predicate BlkCount(status: map<Ppa, Status>, b: Blk, vpc: int, ipc: int) {
    vpc == |BlkSet(status, b, PgValid)| && ipc == |BlkSet(status, b, PgInvalid)|
  }

  /** The line counters are the true numbers of valid and invalid pages, except that the
      counters of a line being collected are left alone until it is freed. */
  ghost predicate LineCountsOk(status: map<Ppa, Status>, role: seq<Role>, vpc: seq<int>, ipc: seq<int>)
    requires |role| == |vpc| == |ipc|
  {
    forall b :: 0 <= b < |role| && role[b] != Collected ==> LineCount(status, b, vpc[b], ipc[b])
  }

  ghost predicate BlkCountsOk(status: map<Ppa, Status>, blkVpc: map<Blk, int>, blkIpc: map<Blk, int>)
    requires blkVpc.Keys == blkIpc.Keys
  {
    forall b :: b in blkVpc ==> BlkCount(status, b, blkVpc[b], blkIpc[b])
  }

  /** What the status of a page must be, given the structure that holds its line. */
  ghost predicate PhaseOf(st: Status, role: Role, rank: nat, userK: nat, gcK: nat) {
    match role
    case InFreeList => st == PgFree
    case OpenFor(io) => st == PgFree <==> (if io.UserIo? then userK else gcK) <= rank
    case InFullList => st == PgValid
    case InHeap => st != PgFree
    case Collected => true
  }

  ghost predicate PhaseOk(c: Ctx, status: map<Ppa, Status>, role: seq<Role>, userK: nat, gcK: nat)
    requires c.Valid() && status.Keys == c.pages && |role| == c.g.ttLines
  {
    forall p :: p in status ==> PhaseOf(status[p], role[p.blk], c.rank[SlotOf(p)], userK, gcK)
  }

  ghost predicate Distinct(l: seq<nat>) {
    forall i, j :: 0 <= i < j < |l| ==> l[i] != l[j]
  }

  ghost predicate ListHolds(l: seq<nat>, role: seq<Role>, r: Role) {
    && Distinct(l)
    && (forall b :: b in l ==> b < |role| && role[b] == r)
    && (forall b :: 0 <= b < |role| && role[b] == r ==> b in l)
  }

  ghost predicate OpenIs(line: nat, role: seq<Role>, io: IoType) {
    && line < |role| && role[line] == OpenFor(io)
    && (forall b :: 0 <= b < |role| && role[b] == OpenFor(io) ==> b == line)
  }

  /** The heap holds exactly its lines, each of which has lost a page. */
  ghost predicate HeapHolds(victims: set<nat>, role: seq<Role>, vpc: seq<int>, l: nat)
    requires |vpc| == |role|
  {
    && (forall b :: b in victims ==> b < |role| && role[b] == InHeap && vpc[b] < l)
    && (forall b :: 0 <= b < |role| && role[b] == InHeap ==> b in victims)
  }

  /** The free list, the full list, the heap and the two open lines partition the lines. */
  ghost predicate ListOk(c: Ctx, s: State)
    requires Sized(c, s)
  {
    && ListHolds(s.freeList, s.role, InFreeList)
    && ListHolds(s.fullList, s.role, InFullList)
    && HeapHolds(s.victims, s.role, s.vpc, c.L())
    && OpenIs(s.user.line, s.role, UserIo)
    && OpenIs(s.gc.line, s.role, GcIo)
  }

  ghost predicate Inv(c: Ctx, s: State, moved: set<Ppa>) {
    && c.Valid() && Sized(c, s)
    && MapOk(s.maptbl, s.rmap, s.status, moved)
    && LineCountsOk(s.status, s.role, s.vpc, s.ipc)
    && BlkCountsOk(s.status, s.blkVpc, s.blkIpc)
    && PhaseOk(c, s.status, s.role, s.userK, s.gcK)
    && ListOk(c, s)
  }

  /** A write pointer stands on the first unwritten page of its line. */
  ghost predicate CursorOk(c: Ctx, s: State, io: IoType) {
    s.K(io) < c.L() && s.WpOf(io).at == c.order[s.K(io)]
  }

  /** Pages in free lines plus the unwritten pages of the two open lines. */
  ghost function FreePages(c: Ctx, s: State): int {
    |s.freeList| * c.L() + (c.L() - s.userK) + (c.L() - s.gcK)
  }

  // ----- steps

  function Removed(l: seq<nat>, b: nat): (r: seq<nat>)
    ensures forall x :: x in r ==> x in l
    ensures Distinct(l) ==> Distinct(r) && forall x :: x in r <==> x in l && x != b
    ensures b in l ==> |r| == |l| - 1
  {
    if l == [] then []
    else if l[0] == b then
      assert forall x :: x in l <==> x == l[0] || x in l[1..];
      l[1..]
    else
      var t := Removed(l[1..], b);
      assert forall x :: x in l <==> x == l[0] || x in l[1..];
      assert Distinct(l) ==> Distinct(l[1..]) && l[0] !in l[1..];
      var r := [l[0]] + t;
      assert forall j :: 1 <= j < |r| ==> r[j] == t[j - 1] && t[j - 1] in t;
      r
  }

  /** Marking a valid page invalid; a full line moves to the heap. */
  ghost function Invalidated(c: Ctx, s: State, p: Ppa): State
    requires Sized(c, s) && p in s.status && p.blk < c.g.ttLines && BlkOf(p) in c.blks
  {
    var b := p.blk;
    var full := s.vpc[b] == c.L();
    s.(status := s.status[p := PgInvalid],
       blkIpc := s.blkIpc[BlkOf(p) := s.blkIpc[BlkOf(p)] + 1],
       blkVpc := s.blkVpc[BlkOf(p) := s.blkVpc[BlkOf(p)] - 1],
       ipc := s.ipc[b := s.ipc[b] + 1],
       vpc := s.vpc[b := s.vpc[b] - 1],
       fullList := if full then Removed(s.fullList, b) else s.fullList,
       victims := if full then s.victims + {b} else s.victims,
       role := if full then s.role[b := InHeap] else s.role)
  }

  ghost function Validated(c: Ctx, s: State, p: Ppa): State
    requires Sized(c, s) && p in s.status && p.blk < c.g.ttLines && BlkOf(p) in c.blks
  {
    s.(status := s.status[p := PgValid],
       blkVpc := s.blkVpc[BlkOf(p) := s.blkVpc[BlkOf(p)] + 1],
       vpc := s.vpc[p.blk := s.vpc[p.blk] + 1])
  }

  /** Giving logical page l the page under a write pointer. */
  ghost function Mapped(c: Ctx, s: State, io: IoType, l: nat, data: int): State
    requires c.Valid() && Sized(c, s) && s.PageAt(io) in s.status
  {
    var q := s.PageAt(io);
    Validated(c, s.(maptbl := s.maptbl[l := q], rmap := s.rmap[q := Some(l)], content := s.content[q := data]), q)
  }

  ghost function Bumped(s: State, io: IoType): State {
    s.SetWp(io, s.WpOf(io), s.K(io) + 1)
  }

  /** A used-up line goes to the full list or, having lost a page, to the heap. */
  ghost function Closed(c: Ctx, s: State, b: nat): State
    requires b < |s.vpc| == |s.role|
  {
    if s.vpc[b] == c.L() then s.(fullList := s.fullList + [b], role := s.role[b := InFullList])
    else s.(victims := s.victims + {b}, role := s.role[b := InHeap])
  }

  /** The used-up line is closed and the first free line is opened. */
  ghost function Switched(c: Ctx, s: State, io: IoType): State
    requires Sized(c, s) && s.WpOf(io).line < c.g.ttLines && c.L() >= 1
    requires |s.freeList| >= 1 && s.freeList[0] < c.g.ttLines
  {
    var f := s.freeList[0];
    var t := Closed(c, s, s.WpOf(io).line);
    t.(freeList := t.freeList[1..], role := t.role[f := OpenFor(io)]).SetWp(io, Wp(f, c.order[0]), 0)
  }

  /** The write pointer moves to the next page, of another line if its own is used up. */
  ghost function Reopened(c: Ctx, s: State, io: IoType): State
    requires Sized(c, s) && s.WpOf(io).line < c.g.ttLines && c.L() >= 1
    requires s.K(io) == c.L() ==> |s.freeList| >= 1 && s.freeList[0] < c.g.ttLines
  {
    if s.K(io) < c.L() then s.SetWp(io, Wp(s.WpOf(io).line, c.order[s.K(io)]), s.K(io))
    else Switched(c, s, io)
  }

  /** Erasing one block of the line being collected. */
  ghost function Erased(s: State, b: Blk): State {
    s.(status := map p | p in s.status :: if BlkOf(p) == b then PgFree else s.status[p],
       blkVpc := s.blkVpc[b := 0], blkIpc := s.blkIpc[b := 0])
  }

  ghost function Selected(s: State, v: nat): State
    requires v < |s.role|
  {
    s.(victims := s.victims - {v}, role := s.role[v := Collected])
  }

  ghost function LineFreed(s: State, v: nat): State
    requires v < |s.role| && v < |s.vpc| && v < |s.ipc|
  {
    s.(vpc := s.vpc[v := 0], ipc := s.ipc[v := 0], freeList := s.freeList + [v], role := s.role[v := InFreeList])
  }
}
