/** Every step of the FTL keeps the invariants. */
module FtlProofs {
  import opened Wrappers
  import opened Sets
  import opened Geometry
  import opened FtlState

  // ----- counting pages

  lemma LineSetUpdate(status: map<Ppa, Status>, p: Ppa, x: Status, b: nat, st: Status)
    requires p in status
    ensures |LineSet(status[p := x], b, st)|
         == |LineSet(status, b, st)| + if b == p.blk then Delta(status[p], x, st) else 0
  {
    var was := LineSet(status, b, st);
    if p.blk == b && x == st {
      assert LineSet(status[p := x], b, st) == was + {p};
    } else {
      assert LineSet(status[p := x], b, st) == was - {p};
    }
  }

  lemma BlkSetUpdate(status: map<Ppa, Status>, p: Ppa, x: Status, b: Blk, st: Status)
    requires p in status
    ensures |BlkSet(status[p := x], b, st)|
         == |BlkSet(status, b, st)| + if b == BlkOf(p) then Delta(status[p], x, st) else 0
  {
    var was := BlkSet(status, b, st);
    if BlkOf(p) == b && x == st {
      assert BlkSet(status[p := x], b, st) == was + {p};
    } else {
      assert BlkSet(status[p := x], b, st) == was - {p};
    }
  }

  function Delta(was: Status, now: Status, st: Status): int {
    (if now == st then 1 else 0) - (if was == st then 1 else 0)
  }

  ghost function LinePages(c: Ctx, b: nat, n: nat): set<Ppa>
    requires n <= |c.order|
  {
    set k | 0 <= k < n :: At(b, c.order[k])
  }

  lemma {:induction false} LinePagesSize(c: Ctx, b: nat, n: nat)
    requires c.Valid() && n <= c.L()
    ensures |LinePages(c, b, n)| == n
  {
    if n > 0 {
      LinePagesSize(c, b, n - 1);
      var q := At(b, c.order[n - 1]);
      assert LinePages(c, b, n) == LinePages(c, b, n - 1) + {q};
      assert c.rank[SlotOf(q)] == n - 1;
      assert forall k :: 0 <= k < n - 1 ==> c.rank[SlotOf(At(b, c.order[k]))] == k;
    }
  }

  lemma LineIsPages(c: Ctx, b: nat)
    requires c.Valid() && b < c.g.ttLines
    ensures LinePages(c, b, c.L()) == set p | p in c.pages && p.blk == b
  {
    forall p | p in c.pages && p.blk == b ensures p in LinePages(c, b, c.L()) {
      var k := c.rank[SlotOf(p)];
      assert At(b, c.order[k]) == p;
    }
    forall p | p in LinePages(c, b, c.L()) ensures p in c.pages && p.blk == b {
      var k :| 0 <= k < c.L() && At(b, c.order[k]) == p;
      assert SlotOf(p) == c.order[k];
    }
  }

  /** Valid, invalid and free pages make up a line. */
  lemma LineTotal(c: Ctx, status: map<Ppa, Status>, b: nat)
    requires c.Valid() && status.Keys == c.pages && b < c.g.ttLines
    ensures |LineSet(status, b, PgValid)| + |LineSet(status, b, PgInvalid)| + |LineSet(status, b, PgFree)| == c.L()
  {
    LinePagesSize(c, b, c.L());
    LineIsPages(c, b);
    var v, i, f := LineSet(status, b, PgValid), LineSet(status, b, PgInvalid), LineSet(status, b, PgFree);
    assert LinePages(c, b, c.L()) == v + i + f;
    assert v !! i && (v + i) !! f;
  }

  lemma HasInLine(status: map<Ppa, Status>, p: Ppa)
    requires p in status
    ensures |LineSet(status, p.blk, status[p])| >= 1
    ensures |BlkSet(status, BlkOf(p), status[p])| >= 1
  {
    assert p in LineSet(status, p.blk, status[p]);
    assert p in BlkSet(status, BlkOf(p), status[p]);
  }

  /** A line counts as many valid pages as it has only when all of them are valid. */
  lemma FullLineAllValid(c: Ctx, status: map<Ppa, Status>, p: Ppa)
    requires c.Valid() && status.Keys == c.pages && p in c.pages
    requires |LineSet(status, p.blk, PgValid)| == c.L()
    ensures status[p] == PgValid
  {
    LineTotal(c, status, p.blk);
    HasInLine(status, p);
  }

  ghost function BlkPages(b: Blk, n: nat): set<Ppa> {
    set pg | 0 <= pg < n :: Ppa(b.ch, b.lun, b.blk, pg)
  }

  lemma {:induction false} BlkPagesSize(b: Blk, n: nat)
    ensures |BlkPages(b, n)| == n
  {
    if n > 0 {
      BlkPagesSize(b, n - 1);
      assert BlkPages(b, n) == BlkPages(b, n - 1) + {Ppa(b.ch, b.lun, b.blk, n - 1)};
    }
  }

  /** A block never counts more pages than it has. */
  lemma BlkTotal(status: map<Ppa, Status>, b: Blk, n: nat)
    requires forall p :: p in status ==> p.pg < n
    ensures |BlkSet(status, b, PgValid)| + |BlkSet(status, b, PgInvalid)| + |BlkSet(status, b, PgFree)| <= n
  {
    BlkPagesSize(b, n);
    var v, i, f := BlkSet(status, b, PgValid), BlkSet(status, b, PgInvalid), BlkSet(status, b, PgFree);
    assert v !! i && (v + i) !! f;
    forall p | p in v + i + f ensures p in BlkPages(b, n) {
      assert p == Ppa(b.ch, b.lun, b.blk, p.pg);
    }
    SubsetSize(v + i + f, BlkPages(b, n));
  }

  /** Line counters adjusted by one page whose status changes keep counting the truth. */
  lemma LineCountsFollow(status: map<Ppa, Status>, p: Ppa, x: Status, role: seq<Role>, role': seq<Role>,
                         vpc: seq<int>, ipc: seq<int>, vpc': seq<int>, ipc': seq<int>)
    requires |role| == |role'| == |vpc| == |ipc| && LineCountsOk(status, role, vpc, ipc)
    requires p in status && p.blk < |vpc|
    requires forall b :: 0 <= b < |role| && role'[b] != Collected ==> role[b] != Collected
    requires vpc' == vpc[p.blk := vpc[p.blk] + Delta(status[p], x, PgValid)]
    requires ipc' == ipc[p.blk := ipc[p.blk] + Delta(status[p], x, PgInvalid)]
    ensures LineCountsOk(status[p := x], role', vpc', ipc')
  {
    forall b | 0 <= b < |role| && role'[b] != Collected ensures LineCount(status[p := x], b, vpc'[b], ipc'[b]) {
      assert LineCount(status, b, vpc[b], ipc[b]);
      LineSetUpdate(status, p, x, b, PgValid);
      LineSetUpdate(status, p, x, b, PgInvalid);
    }
  }

  lemma BlkCountsFollow(status: map<Ppa, Status>, p: Ppa, x: Status, blkVpc: map<Blk, int>, blkIpc: map<Blk, int>,
                        v: map<Blk, int>, i: map<Blk, int>)
    requires blkVpc.Keys == blkIpc.Keys && BlkCountsOk(status, blkVpc, blkIpc)
    requires p in status && BlkOf(p) in blkVpc
    requires v == blkVpc[BlkOf(p) := blkVpc[BlkOf(p)] + Delta(status[p], x, PgValid)]
    requires i == blkIpc[BlkOf(p) := blkIpc[BlkOf(p)] + Delta(status[p], x, PgInvalid)]
    ensures BlkCountsOk(status[p := x], v, i)
  {
    forall b | b in v ensures BlkCount(status[p := x], b, v[b], i[b]) {
      assert BlkCount(status, b, blkVpc[b], blkIpc[b]);
      BlkSetUpdate(status, p, x, b, PgValid);
      BlkSetUpdate(status, p, x, b, PgInvalid);
    }
  }

  // ----- lines changing hands

  lemma OtherListKept(l: seq<nat>, role: seq<Role>, r: Role, b: nat, r': Role)
    requires ListHolds(l, role, r) && b < |role| && role[b] != r && r' != r
    ensures ListHolds(l, role[b := r'], r)
  {
  }

  lemma ListLoses(l: seq<nat>, role: seq<Role>, r: Role, b: nat, r': Role)
    requires ListHolds(l, role, r) && b < |role| && role[b] == r && r' != r
    ensures ListHolds(Removed(l, b), role[b := r'], r)
  {
  }

  lemma ListGains(l: seq<nat>, role: seq<Role>, r: Role, b: nat)
    requires ListHolds(l, role, r) && b < |role| && role[b] != r
    ensures ListHolds(l + [b], role[b := r], r)
  {
  }

  lemma HeadLeaves(l: seq<nat>, role: seq<Role>, r: Role, r': Role)
    requires ListHolds(l, role, r) && |l| > 0 && r' != r
    ensures l[0] < |role| && ListHolds(l[1..], role[l[0] := r'], r)
  {
    assert l[0] in l;
    assert forall x :: x in l[1..] ==> x in l && x != l[0];
    assert forall x :: x in l ==> x == l[0] || x in l[1..];
  }

  lemma HeapGains(victims: set<nat>, role: seq<Role>, vpc: seq<int>, n: nat, b: nat, vpc': seq<int>)
    requires |vpc| == |vpc'| == |role| && HeapHolds(victims, role, vpc, n) && b < |role|
    requires vpc'[b] < n && forall x :: 0 <= x < |role| && x != b ==> vpc'[x] == vpc[x]
    ensures HeapHolds(victims + {b}, role[b := InHeap], vpc', n)
  {
  }

  lemma HeapLoses(victims: set<nat>, role: seq<Role>, vpc: seq<int>, n: nat, b: nat, r': Role)
    requires |vpc| == |role| && HeapHolds(victims, role, vpc, n) && b < |role| && r' != InHeap
    ensures HeapHolds(victims - {b}, role[b := r'], vpc, n)
  {
  }

  lemma HeapKept(victims: set<nat>, role: seq<Role>, vpc: seq<int>, n: nat, role': seq<Role>, vpc': seq<int>)
    requires |vpc| == |vpc'| == |role| == |role'| && HeapHolds(victims, role, vpc, n)
    requires forall b :: 0 <= b < |role| ==> (role[b] == InHeap <==> role'[b] == InHeap)
    requires forall b :: 0 <= b < |role| && role[b] == InHeap ==> vpc'[b] <= vpc[b]
    ensures HeapHolds(victims, role', vpc', n)
  {
  }

  lemma OpenKept(line: nat, role: seq<Role>, io: IoType, b: nat, r': Role)
    requires OpenIs(line, role, io) && b < |role| && role[b] != OpenFor(io) && r' != OpenFor(io)
    ensures OpenIs(line, role[b := r'], io)
  {
  }

  // ----- overwriting a logical page

  ghost predicate NoneCollected(s: State) {
    forall b :: 0 <= b < |s.role| ==> s.role[b] != Collected
  }

  lemma OpenLineNotFull(c: Ctx, s: State, io: IoType)
    requires c.Valid() && Sized(c, s) && PhaseOk(c, s.status, s.role, s.userK, s.gcK)
    requires LineCountsOk(s.status, s.role, s.vpc, s.ipc)
    requires s.WpOf(io).line < c.g.ttLines && s.role[s.WpOf(io).line] == OpenFor(io) && s.K(io) < c.L()
    ensures s.vpc[s.WpOf(io).line] < c.L()
  {
    var b := s.WpOf(io).line;
    var q := At(b, c.order[s.K(io)]);
    assert SlotOf(q) == c.order[s.K(io)];
    assert PhaseOf(s.status[q], s.role[b], c.rank[SlotOf(q)], s.userK, s.gcK);
    HasInLine(s.status, q);
    LineTotal(c, s.status, b);
    assert LineCount(s.status, b, s.vpc[b], s.ipc[b]);
  }

  lemma FullListLineFull(c: Ctx, s: State, b: nat)
    requires c.Valid() && Sized(c, s) && PhaseOk(c, s.status, s.role, s.userK, s.gcK)
    requires LineCountsOk(s.status, s.role, s.vpc, s.ipc)
    requires b < c.g.ttLines && s.role[b] == InFullList
    ensures s.vpc[b] == c.L() && s.ipc[b] == 0
  {
    LineTotal(c, s.status, b);
    forall q | q in s.status && q.blk == b ensures s.status[q] == PgValid {
      assert PhaseOf(s.status[q], s.role[b], c.rank[SlotOf(q)], s.userK, s.gcK);
    }
    assert LineSet(s.status, b, PgFree) == {} && LineSet(s.status, b, PgInvalid) == {};
    assert LineCount(s.status, b, s.vpc[b], s.ipc[b]);
  }

  /** A line holding a valid page is full exactly when it is in the full list. */
  lemma FullIffInFullList(c: Ctx, s: State, p: Ppa)
    requires c.Valid() && Sized(c, s) && PhaseOk(c, s.status, s.role, s.userK, s.gcK)
    requires LineCountsOk(s.status, s.role, s.vpc, s.ipc) && ListOk(c, s)
    requires NoneCollected(s) && s.userK < c.L() && s.gcK < c.L()
    requires p in s.status && s.status[p] == PgValid
    ensures p.blk < c.g.ttLines && (s.vpc[p.blk] == c.L() <==> s.role[p.blk] == InFullList)
  {
    hide ListHolds, HeapHolds, OpenIs, LineCountsOk, PhaseOk;
    var b := p.blk;
    PhaseAt(c, s, p);
    match s.role[b]
    case OpenFor(io) =>
      OnlyOpenLine(s.WpOf(io).line, s.role, io, b);
      OpenLineNotFull(c, s, io);
    case InFullList => FullListLineFull(c, s, b);
    case InHeap => HeapLineNotFull(s.victims, s.role, s.vpc, c.L(), b);
    case _ =>
  }

  lemma PhaseAt(c: Ctx, s: State, p: Ppa)
    requires c.Valid() && Sized(c, s) && PhaseOk(c, s.status, s.role, s.userK, s.gcK) && p in s.status
    ensures p.blk < c.g.ttLines && SlotOf(p) in c.rank
    ensures PhaseOf(s.status[p], s.role[p.blk], c.rank[SlotOf(p)], s.userK, s.gcK)
  {
  }

  lemma OnlyOpenLine(line: nat, role: seq<Role>, io: IoType, b: nat)
    requires OpenIs(line, role, io) && b < |role| && role[b] == OpenFor(io)
    ensures b == line
  {
  }

  lemma HeapLineNotFull(victims: set<nat>, role: seq<Role>, vpc: seq<int>, l: nat, b: nat)
    requires |vpc| == |role| && HeapHolds(victims, role, vpc, l) && b < |role| && role[b] == InHeap
    ensures vpc[b] < l
  {
  }

  ghost function Unmapped(c: Ctx, s: State, l: nat): State
    requires c.Valid() && Sized(c, s) && l in s.maptbl && s.maptbl[l] in s.status
  {
    var p := s.maptbl[l];
    var n := Invalidated(c, s, p);
    n.(rmap := n.rmap[p := None], maptbl := n.maptbl - {l})
  }

  lemma UnmapMaps(maptbl: map<nat, Ppa>, rmap: map<Ppa, Option<nat>>, status: map<Ppa, Status>, l: nat)
    requires rmap.Keys == status.Keys && MapOk(maptbl, rmap, status, {}) && l in maptbl
    ensures MapOk(maptbl - {l}, rmap[maptbl[l] := None], status[maptbl[l] := PgInvalid], {})
  {
  }

  lemma InvalidatedLists(c: Ctx, s: State, p: Ppa)
    requires c.Valid() && Sized(c, s) && ListOk(c, s) && p in s.status
    requires p.blk < c.g.ttLines && (s.vpc[p.blk] == c.L() <==> s.role[p.blk] == InFullList)
    ensures Sized(c, Invalidated(c, s, p)) && ListOk(c, Invalidated(c, s, p))
  {
    var b := p.blk;
    InvalidatedSized(c, s, p);
    hide ListHolds, OpenIs, HeapHolds, Ctx.Valid, Sized;
    SizedRoles(c, s);
    var n := Invalidated(c, s, p);
    if s.role[b] == InFullList {
      OtherListKept(s.freeList, s.role, InFreeList, b, InHeap);
      ListLoses(s.fullList, s.role, InFullList, b, InHeap);
      HeapGains(s.victims, s.role, s.vpc, c.L(), b, n.vpc);
      OpenKept(s.user.line, s.role, UserIo, b, InHeap);
      OpenKept(s.gc.line, s.role, GcIo, b, InHeap);
    } else {
      HeapKept(s.victims, s.role, s.vpc, c.L(), n.role, n.vpc);
    }
  }

  lemma InvalidatedSized(c: Ctx, s: State, p: Ppa)
    requires c.Valid() && Sized(c, s) && p in s.status && p.blk < c.g.ttLines
    ensures BlkOf(p) in c.blks && Sized(c, Invalidated(c, s, p))
  {
    hide Ctx.L;
    KeysKept(s.status, p, PgInvalid);
    KeysKept(s.blkVpc, BlkOf(p), s.blkVpc[BlkOf(p)] - 1);
    KeysKept(s.blkIpc, BlkOf(p), s.blkIpc[BlkOf(p)] + 1);
  }

  lemma SizedRoles(c: Ctx, s: State)
    requires Sized(c, s)
    ensures |s.role| == |s.vpc| == |s.ipc| == c.g.ttLines
  {
  }

  lemma InvalidatedPhases(c: Ctx, s: State, p: Ppa)
    requires c.Valid() && Sized(c, s) && PhaseOk(c, s.status, s.role, s.userK, s.gcK)
    requires p in s.status && s.status[p] == PgValid
    requires p.blk < c.g.ttLines && (s.vpc[p.blk] == c.L() <==> s.role[p.blk] == InFullList)
    ensures var n := Invalidated(c, s, p); PhaseOk(c, n.status, n.role, n.userK, n.gcK)
  {
    var n := Invalidated(c, s, p);
    forall q | q in n.status ensures PhaseOf(n.status[q], n.role[q.blk], c.rank[SlotOf(q)], n.userK, n.gcK) {
      assert PhaseOf(s.status[q], s.role[q.blk], c.rank[SlotOf(q)], s.userK, s.gcK);
      assert PhaseOf(s.status[p], s.role[p.blk], c.rank[SlotOf(p)], s.userK, s.gcK);
    }
  }

  lemma MappedIsValid(maptbl: map<nat, Ppa>, rmap: map<Ppa, Option<nat>>, status: map<Ppa, Status>,
                      moved: set<Ppa>, l: nat)
    requires rmap.Keys == status.Keys && MapOk(maptbl, rmap, status, moved) && l in maptbl
    ensures maptbl[l] in status && status[maptbl[l]] == PgValid
  {
  }

  lemma PageFacts(c: Ctx, p: Ppa)
    requires c.Valid() && p in c.pages
    ensures p.blk < c.g.ttLines && BlkOf(p) in c.blks && SlotOf(p) in c.rank
  {
  }

  /** Invalidating the old page of a logical page that is about to be rewritten. */
  lemma UnmapKeeps(c: Ctx, s: State, l: nat)
    requires Inv(c, s, {}) && NoneCollected(s) && s.userK < c.L() && s.gcK < c.L() && l in s.maptbl
    ensures Inv(c, Unmapped(c, s, l), {}) && NoneCollected(Unmapped(c, s, l))
  {
    hide ListHolds, OpenIs, HeapHolds, LineCountsOk, BlkCountsOk, PhaseOk, MapOk, Ctx.Valid;
    MappedIsValid(s.maptbl, s.rmap, s.status, {}, l);
    var p := s.maptbl[l];
    PageFacts(c, p);
    var n := Invalidated(c, s, p);
    FullIffInFullList(c, s, p);
    InvalidatedLists(c, s, p);
    InvalidatedPhases(c, s, p);
    LineCountsFollow(s.status, p, PgInvalid, s.role, n.role, s.vpc, s.ipc, n.vpc, n.ipc);
    assert s.blkIpc[BlkOf(p) := s.blkIpc[BlkOf(p)] + 1] == n.blkIpc;
    BlkCountsFollow(s.status, p, PgInvalid, s.blkVpc, s.blkIpc, n.blkVpc, n.blkIpc);
    UnmapMaps(s.maptbl, s.rmap, s.status, l);
    KeysKept(s.rmap, p, None);
  }

  // ----- writing the page under a write pointer

  /** Pages the collector has copied belong to lines being collected. */
  ghost predicate MovedOk(c: Ctx, s: State, moved: set<Ppa>)
    requires Sized(c, s)
  {
    forall p :: p in moved ==> p.blk < c.g.ttLines && s.role[p.blk] == Collected
  }

  /** The page under a write pointer is free. */
  lemma CursorIsFree(c: Ctx, s: State, io: IoType)
    requires c.Valid() && Sized(c, s) && PhaseOk(c, s.status, s.role, s.userK, s.gcK)
    requires OpenIs(s.WpOf(io).line, s.role, io) && CursorOk(c, s, io)
    ensures var q := s.PageAt(io);
            q in s.status && s.status[q] == PgFree && s.role[q.blk] == OpenFor(io) && c.rank[SlotOf(q)] == s.K(io)
  {
    var q := s.PageAt(io);
    assert SlotOf(q) == c.order[s.K(io)];
    assert PhaseOf(s.status[q], s.role[q.blk], c.rank[SlotOf(q)], s.userK, s.gcK);
  }

  lemma MapMaps(maptbl: map<nat, Ppa>, rmap: map<Ppa, Option<nat>>, status: map<Ppa, Status>, moved: set<Ppa>,
                l: nat, q: Ppa)
    requires rmap.Keys == status.Keys && MapOk(maptbl, rmap, status, moved) && l !in maptbl
    requires q in status && status[q] == PgFree && q !in moved
    ensures MapOk(maptbl[l := q], rmap[q := Some(l)], status[q := PgValid], moved)
  {
  }

  lemma MappedPhases(c: Ctx, s: State, io: IoType)
    requires c.Valid() && Sized(c, s) && PhaseOk(c, s.status, s.role, s.userK, s.gcK)
    requires OpenIs(s.WpOf(io).line, s.role, io) && CursorOk(c, s, io)
    ensures var n := Bumped(s, io);
            PhaseOk(c, s.status[s.PageAt(io) := PgValid], s.role, n.userK, n.gcK)
  {
    CursorIsFree(c, s, io);
    var n, q := Bumped(s, io), s.PageAt(io);
    var status := s.status[q := PgValid];
    forall p | p in status ensures PhaseOf(status[p], s.role[p.blk], c.rank[SlotOf(p)], n.userK, n.gcK) {
      hide PhaseOf;
      assert PhaseOf(s.status[p], s.role[p.blk], c.rank[SlotOf(p)], s.userK, s.gcK);
      if s.role[p.blk] == OpenFor(io) && c.rank[SlotOf(p)] == s.K(io) {
        SameRank(c, p, q);
      }
      PhaseBumps(s.status[p], s.role[p.blk], c.rank[SlotOf(p)], s.userK, s.gcK, io, p == q);
    }
  }

  /** The page under the write pointer is written, and the pointer goes past it. */
  lemma PhaseBumps(st: Status, role: Role, rank: nat, userK: nat, gcK: nat, io: IoType, here: bool)
    requires PhaseOf(st, role, rank, userK, gcK)
    requires here <==> role == OpenFor(io) && rank == if io.UserIo? then userK else gcK
    ensures PhaseOf(if here then PgValid else st, role, rank, if io.UserIo? then userK + 1 else userK,
                    if io.UserIo? then gcK else gcK + 1)
  {
  }

  lemma SameRank(c: Ctx, p: Ppa, q: Ppa)
    requires c.Valid() && p in c.pages && q in c.pages && c.rank[SlotOf(p)] == c.rank[SlotOf(q)]
    ensures SlotOf(p) == SlotOf(q)
  {
  }

  lemma ValidatedCounts(c: Ctx, s: State, q: Ppa)
    requires c.Valid() && Sized(c, s) && q in s.status && s.status[q] == PgFree
    requires LineCountsOk(s.status, s.role, s.vpc, s.ipc) && BlkCountsOk(s.status, s.blkVpc, s.blkIpc)
    ensures q.blk < c.g.ttLines && BlkOf(q) in c.blks
    ensures var n := Validated(c, s, q);
            && LineCountsOk(n.status, n.role, n.vpc, n.ipc)
            && BlkCountsOk(n.status, n.blkVpc, n.blkIpc)
  {
    hide LineCountsOk, BlkCountsOk;
    var n := Validated(c, s, q);
    LineCountsFollow(s.status, q, PgValid, s.role, s.role, s.vpc, s.ipc, n.vpc, s.ipc);
    assert s.blkIpc[BlkOf(q) := s.blkIpc[BlkOf(q)] + 0] == s.blkIpc;
    BlkCountsFollow(s.status, q, PgValid, s.blkVpc, s.blkIpc, n.blkVpc, s.blkIpc);
  }

  lemma ValidatedLists(c: Ctx, s: State, q: Ppa)
    requires c.Valid() && Sized(c, s) && ListOk(c, s) && q in s.status && s.role[q.blk] != InHeap
    ensures Sized(c, Validated(c, s, q)) && ListOk(c, Validated(c, s, q))
  {
    hide ListHolds, OpenIs, HeapHolds;
    HeapKept(s.victims, s.role, s.vpc, c.L(), s.role, Validated(c, s, q).vpc);
  }

  lemma MappedSized(c: Ctx, s: State, io: IoType, l: nat, data: int)
    requires c.Valid() && Sized(c, s) && s.PageAt(io) in s.status && s.K(io) < c.L()
    ensures Sized(c, Bumped(Mapped(c, s, io, l, data), io))
  {
    var q := s.PageAt(io);
    KeysKept(s.status, q, PgValid);
    KeysKept(s.rmap, q, Some(l));
    KeysKept(s.content, q, data);
    KeysKept(s.blkVpc, BlkOf(q), s.blkVpc[BlkOf(q)] + 1);
  }

  lemma KeysKept<K, V>(m: map<K, V>, k: K, v: V)
    requires k in m
    ensures m[k := v].Keys == m.Keys
  {
  }

  /** Programming the page under a write pointer for an unmapped logical page. */
  lemma MapKeeps(c: Ctx, s: State, io: IoType, l: nat, data: int, moved: set<Ppa>)
    requires Inv(c, s, moved) && MovedOk(c, s, moved) && CursorOk(c, s, io) && l !in s.maptbl
    ensures s.PageAt(io) in s.status && s.status[s.PageAt(io)] == PgFree
    ensures Inv(c, Bumped(Mapped(c, s, io, l, data), io), moved)
  {
    hide ListHolds, OpenIs, HeapHolds, LineCountsOk, BlkCountsOk, PhaseOk, MapOk, Ctx.Valid, Validated, Mapped, Bumped;
    CursorIsFree(c, s, io);
    var q := s.PageAt(io);
    MapMaps(s.maptbl, s.rmap, s.status, moved, l, q);
    MappedPhases(c, s, io);
    ValidatedCounts(c, s, q);
    ValidatedLists(c, s, q);
    MappedSized(c, s, io, l, data);
    MappedFields(c, s, io, l, data);
    AssembleLists(c, Bumped(Mapped(c, s, io, l, data), io));
  }

  /** What programming a page changes, field by field. */
  lemma MappedFields(c: Ctx, s: State, io: IoType, l: nat, data: int)
    requires c.Valid() && Sized(c, s) && s.PageAt(io) in s.status
    ensures var q := s.PageAt(io);
            var n := Bumped(Mapped(c, s, io, l, data), io);
            var v := Validated(c, s, q);
            && n.maptbl == s.maptbl[l := q] && n.rmap == s.rmap[q := Some(l)]
            && n.status == v.status == s.status[q := PgValid]
            && n.vpc == v.vpc && n.ipc == v.ipc && n.role == v.role == s.role
            && n.blkVpc == v.blkVpc && n.blkIpc == v.blkIpc
            && n.freeList == v.freeList && n.fullList == v.fullList && n.victims == v.victims
            && n.user == v.user == s.user && n.gc == v.gc == s.gc && n.content == s.content[q := data]
            && n.freeList == s.freeList && n.maptbl.Keys == s.maptbl.Keys + {l}
            && (if io.UserIo? then n.userK == s.userK + 1 && n.gcK == s.gcK
                else n.gcK == s.gcK + 1 && n.userK == s.userK)
            && n.userK == Bumped(s, io).userK && n.gcK == Bumped(s, io).gcK
  {
    var t := Mapped(c, s, io, l, data);
    var v := Validated(c, s, s.PageAt(io));
    assert t == v.(maptbl := t.maptbl, rmap := t.rmap, content := t.content);
    BumpedFields(t, io);
    BumpedFields(s, io);
    hide Bumped;
  }

  lemma BumpedFields(s: State, io: IoType)
    ensures var n := Bumped(s, io);
            && n == s.(userK := n.userK, gcK := n.gcK)
            && (if io.UserIo? then n.userK == s.userK + 1 && n.gcK == s.gcK
                else n.gcK == s.gcK + 1 && n.userK == s.userK)
  {
  }

  /** Programming a page changes what the host sees at that logical page and nowhere else. */
  lemma MapView(c: Ctx, s: State, io: IoType, l: nat, data: int, moved: set<Ppa>)
    requires c.Valid() && Sized(c, s) && MapOk(s.maptbl, s.rmap, s.status, moved)
    requires s.PageAt(io) in s.status && s.status[s.PageAt(io)] == PgFree
    ensures forall k :: k in s.maptbl ==> s.maptbl[k] in s.content
    ensures var n := Mapped(c, s, io, l, data);
            && (forall k :: k in n.maptbl ==> n.maptbl[k] in n.content)
            && n.View() == s.View()[l := data]
  {
  }

  // ----- closing a used-up line and opening the next one

  lemma ClosedLinePhase(c: Ctx, s: State, io: IoType, p: Ppa)
    requires c.Valid() && Sized(c, s) && PhaseOk(c, s.status, s.role, s.userK, s.gcK)
    requires LineCountsOk(s.status, s.role, s.vpc, s.ipc)
    requires OpenIs(s.WpOf(io).line, s.role, io) && s.K(io) == c.L()
    requires p in s.status && p.blk == s.WpOf(io).line
    ensures s.status[p] != PgFree
    ensures s.vpc[p.blk] == c.L() ==> s.status[p] == PgValid
    ensures s.vpc[p.blk] <= c.L()
    ensures s.vpc[p.blk] + s.ipc[p.blk] == c.L()
  {
    assert PhaseOf(s.status[p], s.role[p.blk], c.rank[SlotOf(p)], s.userK, s.gcK);
    assert LineCount(s.status, p.blk, s.vpc[p.blk], s.ipc[p.blk]);
    LineTotal(c, s.status, p.blk);
    if s.vpc[p.blk] == c.L() {
      FullLineAllValid(c, s.status, p);
    }
    forall q | q in s.status && q.blk == p.blk ensures s.status[q] != PgFree {
      assert PhaseOf(s.status[q], s.role[q.blk], c.rank[SlotOf(q)], s.userK, s.gcK);
    }
    assert LineSet(s.status, p.blk, PgFree) == {};
  }

  /** Everything but lists, roles and one write pointer. */
  ghost predicate SameTables(s: State, n: State) {
    && n.maptbl == s.maptbl && n.rmap == s.rmap && n.status == s.status && n.content == s.content
    && n.blkVpc == s.blkVpc && n.blkIpc == s.blkIpc && n.vpc == s.vpc && n.ipc == s.ipc
  }

  ghost predicate SameOther(s: State, n: State, io: IoType) {
    if io.UserIo? then n.gc == s.gc && n.gcK == s.gcK else n.user == s.user && n.userK == s.userK
  }

  lemma SwitchedFields(c: Ctx, s: State, io: IoType)
    requires Sized(c, s) && s.WpOf(io).line < c.g.ttLines && c.L() >= 1
    requires |s.freeList| >= 1 && s.freeList[0] < c.g.ttLines
    ensures var n := Switched(c, s, io);
            var b := s.WpOf(io).line;
            var f := s.freeList[0];
            && SameTables(s, n) && SameOther(s, n, io)
            && n.freeList == s.freeList[1..] && n.K(io) == 0 && n.WpOf(io) == Wp(f, c.order[0])
            && n.role == s.role[b := if s.vpc[b] == c.L() then InFullList else InHeap][f := OpenFor(io)]
  {
  }

  /** The fields of the state after a write pointer moved on. */
  lemma ReopenedFields(c: Ctx, s: State, io: IoType)
    requires Sized(c, s) && s.WpOf(io).line < c.g.ttLines && c.L() >= 1
    requires s.K(io) == c.L() ==> |s.freeList| >= 1 && s.freeList[0] < c.g.ttLines
    ensures var n := Reopened(c, s, io);
            && SameTables(s, n) && SameOther(s, n, io)
            && if s.K(io) < c.L() then
                 && n.freeList == s.freeList && n.role == s.role && n.K(io) == s.K(io)
                 && n.WpOf(io) == Wp(s.WpOf(io).line, c.order[s.K(io)])
               else
                 var b := s.WpOf(io).line;
                 var f := s.freeList[0];
                 && n.freeList == s.freeList[1..] && n.K(io) == 0 && n.WpOf(io) == Wp(f, c.order[0])
                 && n.role == s.role[b := if s.vpc[b] == c.L() then InFullList else InHeap][f := OpenFor(io)]
  {
    hide Switched;
    if s.K(io) == c.L() {
      SwitchedFields(c, s, io);
    }
  }

  lemma ReopenedPhases(c: Ctx, s: State, io: IoType)
    requires c.Valid() && Sized(c, s) && PhaseOk(c, s.status, s.role, s.userK, s.gcK)
    requires LineCountsOk(s.status, s.role, s.vpc, s.ipc) && ListHolds(s.freeList, s.role, InFreeList)
    requires OpenIs(s.WpOf(io).line, s.role, io) && s.K(io) == c.L()
    requires |s.freeList| >= 1 && s.freeList[0] < c.g.ttLines
    ensures var n := Reopened(c, s, io);
            && n.status == s.status && |n.role| == c.g.ttLines && PhaseOk(c, n.status, n.role, n.userK, n.gcK)
  {
    hide Reopened, Switched, Closed, ListHolds, LineCountsOk;
    ReopenedFields(c, s, io);
    HeadRole(s.freeList, s.role, InFreeList);
    var n := Reopened(c, s, io);
    forall p | p in n.status ensures PhaseOf(n.status[p], n.role[p.blk], c.rank[SlotOf(p)], n.userK, n.gcK) {
      OnePhase(c, s, n, io, p);
    }
  }

  lemma OnePhase(c: Ctx, s: State, n: State, io: IoType, p: Ppa)
    requires c.Valid() && Sized(c, s) && PhaseOk(c, s.status, s.role, s.userK, s.gcK)
    requires LineCountsOk(s.status, s.role, s.vpc, s.ipc) && OpenIs(s.WpOf(io).line, s.role, io) && s.K(io) == c.L()
    requires p in s.status && n.status == s.status && SameOther(s, n, io) && n.K(io) == 0
    requires |s.freeList| >= 1 && s.freeList[0] < c.g.ttLines && s.role[s.freeList[0]] == InFreeList
    requires var b := s.WpOf(io).line;
             n.role == s.role[b := if s.vpc[b] == c.L() then InFullList else InHeap][s.freeList[0] := OpenFor(io)]
    ensures PhaseOf(n.status[p], n.role[p.blk], c.rank[SlotOf(p)], n.userK, n.gcK)
  {
    assert PhaseOf(s.status[p], s.role[p.blk], c.rank[SlotOf(p)], s.userK, s.gcK);
    if p.blk == s.WpOf(io).line {
      ClosedLinePhase(c, s, io, p);
    }
  }

  /** What the lists of the lines are after the open line of io was closed. */
  ghost predicate ListsWithout(c: Ctx, n: State, io: IoType) {
    var other := if io.UserIo? then GcIo else UserIo;
    && |n.vpc| == |n.role|
    && ListHolds(n.freeList, n.role, InFreeList) && ListHolds(n.fullList, n.role, InFullList)
    && HeapHolds(n.victims, n.role, n.vpc, c.L()) && OpenIs(n.WpOf(other).line, n.role, other)
    && forall x :: 0 <= x < |n.role| ==> n.role[x] != OpenFor(io)
  }

  lemma ClosedLists(c: Ctx, s: State, io: IoType)
    requires Sized(c, s) && ListOk(c, s) && s.WpOf(io).line < c.g.ttLines && s.vpc[s.WpOf(io).line] <= c.L()
    ensures ListsWithout(c, Closed(c, s, s.WpOf(io).line), io)
  {
    hide ListHolds, OpenIs, HeapHolds, Closed, ListsWithout;
    var b := s.WpOf(io).line;
    if s.vpc[b] == c.L() {
      ClosedToFull(c, s, b);
      FullLists(c, s, io, b);
    } else {
      ClosedToHeap(c, s, b);
      HeapLists(c, s, io, b);
    }
  }

  lemma FullLists(c: Ctx, s: State, io: IoType, b: nat)
    requires Sized(c, s) && ListOk(c, s) && b == s.WpOf(io).line && b < c.g.ttLines
    ensures ListsWithout(c, s.(fullList := s.fullList + [b], role := s.role[b := InFullList]), io)
  {
    hide ListHolds, OpenIs, HeapHolds;
    var other := if io.UserIo? then GcIo else UserIo;
    OpenLeaves(b, s.role, io);
    OtherListKept(s.freeList, s.role, InFreeList, b, InFullList);
    ListGains(s.fullList, s.role, InFullList, b);
    HeapKept(s.victims, s.role, s.vpc, c.L(), s.role[b := InFullList], s.vpc);
    OpenKept(s.WpOf(other).line, s.role, other, b, InFullList);
  }

  lemma HeapLists(c: Ctx, s: State, io: IoType, b: nat)
    requires Sized(c, s) && ListOk(c, s) && b == s.WpOf(io).line && b < c.g.ttLines && s.vpc[b] < c.L()
    ensures ListsWithout(c, s.(victims := s.victims + {b}, role := s.role[b := InHeap]), io)
  {
    hide ListHolds, OpenIs, HeapHolds;
    var other := if io.UserIo? then GcIo else UserIo;
    OpenLeaves(b, s.role, io);
    OtherListKept(s.freeList, s.role, InFreeList, b, InHeap);
    OtherListKept(s.fullList, s.role, InFullList, b, InHeap);
    HeapGains(s.victims, s.role, s.vpc, c.L(), b, s.vpc);
    OpenKept(s.WpOf(other).line, s.role, other, b, InHeap);
  }

  lemma ClosedToFull(c: Ctx, s: State, b: nat)
    requires b < |s.vpc| == |s.role| && s.vpc[b] == c.L()
    ensures Closed(c, s, b) == s.(fullList := s.fullList + [b], role := s.role[b := InFullList])
  {
  }

  lemma ClosedToHeap(c: Ctx, s: State, b: nat)
    requires b < |s.vpc| == |s.role| && s.vpc[b] != c.L()
    ensures Closed(c, s, b) == s.(victims := s.victims + {b}, role := s.role[b := InHeap])
  {
  }

  lemma OpenLeaves(line: nat, role: seq<Role>, io: IoType)
    requires OpenIs(line, role, io)
    ensures line < |role| && role[line] == OpenFor(io)
    ensures forall x :: 0 <= x < |role| && x != line ==> role[x] != OpenFor(io)
  {
  }

  lemma SwitchedLists(c: Ctx, s: State, io: IoType)
    requires Sized(c, s) && ListOk(c, s) && s.WpOf(io).line < c.g.ttLines && c.L() >= 1
    requires s.vpc[s.WpOf(io).line] <= c.L() && |s.freeList| >= 1 && s.freeList[0] < c.g.ttLines
    ensures Sized(c, Switched(c, s, io)) && ListOk(c, Switched(c, s, io))
  {
    hide ListHolds, OpenIs, HeapHolds, ListOk, Closed, Switched;
    var b, f := s.WpOf(io).line, s.freeList[0];
    var other := if io.UserIo? then GcIo else UserIo;
    var t := Closed(c, s, b);
    ClosedLists(c, s, io);
    SwitchedFromClosed(c, s, io);
    HeadRole(t.freeList, t.role, InFreeList);
    HeadLeaves(t.freeList, t.role, InFreeList, OpenFor(io));
    OtherListKept(t.fullList, t.role, InFullList, f, OpenFor(io));
    var n := Switched(c, s, io);
    HeapKept(t.victims, t.role, t.vpc, c.L(), n.role, n.vpc);
    OpenKept(t.WpOf(other).line, t.role, other, f, OpenFor(io));
    NewlyOpen(t.role, f, io);
    AssembleLists(c, n);
  }

  /** What opening the first free line changes after the old one was closed. */
  lemma SwitchedFromClosed(c: Ctx, s: State, io: IoType)
    requires Sized(c, s) && s.WpOf(io).line < c.g.ttLines && c.L() >= 1
    requires |s.freeList| >= 1 && s.freeList[0] < c.g.ttLines
    ensures var t, n := Closed(c, s, s.WpOf(io).line), Switched(c, s, io);
            var other := if io.UserIo? then GcIo else UserIo;
            && |t.role| == |s.role| && t.vpc == s.vpc && t.freeList == s.freeList && t.WpOf(other) == s.WpOf(other)
            && n.freeList == t.freeList[1..] && n.fullList == t.fullList && n.victims == t.victims && n.vpc == t.vpc
            && n.role == t.role[s.freeList[0] := OpenFor(io)]
            && n.WpOf(io).line == s.freeList[0] && n.WpOf(other) == t.WpOf(other)
            && Sized(c, n)
  {
    var t := Closed(c, s, s.WpOf(io).line);
    assert t.role == s.role[s.WpOf(io).line := if s.vpc[s.WpOf(io).line] == c.L() then InFullList else InHeap];
    assert t == s.(fullList := t.fullList, victims := t.victims, role := t.role);
    hide Closed;
    match io
    case UserIo =>
    case GcIo =>
  }

  lemma HeadRole(l: seq<nat>, role: seq<Role>, r: Role)
    requires ListHolds(l, role, r) && |l| > 0
    ensures l[0] < |role| && role[l[0]] == r
  {
    assert l[0] in l;
  }

  lemma NewlyOpen(role: seq<Role>, f: nat, io: IoType)
    requires f < |role| && forall x :: 0 <= x < |role| ==> role[x] != OpenFor(io)
    ensures OpenIs(f, role[f := OpenFor(io)], io)
  {
  }

  lemma AssembleLists(c: Ctx, s: State)
    requires Sized(c, s) && ListHolds(s.freeList, s.role, InFreeList) && ListHolds(s.fullList, s.role, InFullList)
    requires HeapHolds(s.victims, s.role, s.vpc, c.L())
    requires OpenIs(s.user.line, s.role, UserIo) && OpenIs(s.gc.line, s.role, GcIo)
    ensures ListOk(c, s)
  {
  }

  lemma OpenLineInRange(c: Ctx, s: State, io: IoType)
    requires c.Valid() && Sized(c, s) && ListOk(c, s) && PhaseOk(c, s.status, s.role, s.userK, s.gcK)
    requires LineCountsOk(s.status, s.role, s.vpc, s.ipc)
    ensures OpenIs(s.WpOf(io).line, s.role, io) && s.WpOf(io).line < c.g.ttLines && c.L() >= 1
    ensures s.K(io) == c.L() ==> s.vpc[s.WpOf(io).line] <= c.L()
    ensures s.role[s.WpOf(io).line] == OpenFor(io)
    ensures |s.freeList| >= 1 ==> s.freeList[0] < c.g.ttLines && s.role[s.freeList[0]] == InFreeList
  {
    assert |s.freeList| >= 1 ==> s.freeList[0] in s.freeList;
    if s.K(io) == c.L() {
      var q := At(s.WpOf(io).line, c.order[0]);
      assert SlotOf(q) == c.order[0];
      ClosedLinePhase(c, s, io, q);
    }
  }

  lemma ReopenedCounts(c: Ctx, s: State, io: IoType)
    requires Sized(c, s) && LineCountsOk(s.status, s.role, s.vpc, s.ipc) && s.K(io) == c.L() >= 1
    requires s.WpOf(io).line < c.g.ttLines && |s.freeList| >= 1 && s.freeList[0] < c.g.ttLines
    requires s.role[s.WpOf(io).line] != Collected && s.role[s.freeList[0]] != Collected
    ensures var n := Reopened(c, s, io); |n.role| == |s.role| && LineCountsOk(n.status, n.role, n.vpc, n.ipc)
  {
    hide Reopened, Switched, Closed;
    ReopenedFields(c, s, io);
    var n := Reopened(c, s, io);
    forall b | 0 <= b < |n.role| && n.role[b] != Collected ensures LineCount(n.status, b, n.vpc[b], n.ipc[b]) {
      assert LineCount(s.status, b, s.vpc[b], s.ipc[b]);
    }
  }

  /** Moving a write pointer on keeps the invariants and the number of free pages, and leaves
      the pointer on a free page. */
  lemma ReopenKeeps(c: Ctx, s: State, io: IoType, moved: set<Ppa>)
    requires Inv(c, s, moved) && (s.K(io) == c.L() ==> |s.freeList| >= 1)
    ensures s.WpOf(io).line < c.g.ttLines && (s.K(io) == c.L() ==> s.freeList[0] < c.g.ttLines)
    ensures Inv(c, Reopened(c, s, io), moved)
    ensures CursorOk(c, Reopened(c, s, io), io)
    ensures FreePages(c, Reopened(c, s, io)) == FreePages(c, s)
  {
    hide ListHolds, OpenIs, HeapHolds, LineCountsOk, BlkCountsOk, PhaseOk, MapOk, Ctx.Valid, Switched, Closed;
    OpenLineInRange(c, s, io);
    ReopenedFields(c, s, io);
    if s.K(io) == c.L() {
      ReopenedPhases(c, s, io);
      SwitchedLists(c, s, io);
      ReopenedCounts(c, s, io);
      FirstListed(|s.freeList|, c.L());
    }
  }

  lemma FirstListed(n: nat, l: nat)
    requires n >= 1
    ensures n * l == (n - 1) * l + l
  {
  }
}
