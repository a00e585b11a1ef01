/** A circular input ring while it is being loaded: requests over scattered ranges are issued ahead
    of the consumer, land in any order, and are read back as the concatenated ranges. */
module LoadRing {
  import opened Wrappers
  import opened Arithmetic
  import opened Frontier
  import opened OutputRing
  import opened ScatterGather
  import opened PageEdges
  import opened Throttle

  /** Every byte that has arrived and is not consumed is in its ring cell, and mirrored. */
  ghost predicate Loaded(c: Config, mem: seq<int>, content: seq<int>, arrived: seq<Interval>, tail: nat)
    requires c.WellFormed() && |mem| == c.ring + c.mirror
  {
    forall l: nat :: tail <= l < |content| && Covered(arrived, l) ==> Holds(c, mem, l, content[l], true)
  }

  predicate Clear(a: Io, b: Io) {
    a.offset + a.length <= b.offset || b.offset + b.length <= a.offset
  }

  ghost predicate Apart(ios: seq<Io>) {
    forall j, k :: 0 <= j < k < |ios| ==> Clear(ios[j], ios[k])
  }

  /** A request in flight lies below the requested offset, and none of its bytes has arrived. */
  ghost predicate Pending(io: Io, arrived: seq<Interval>, requested: nat) {
    io.offset + io.length <= requested && forall b: nat :: In(Span(io), b) ==> !Covered(arrived, b)
  }

  ghost predicate AllPending(ios: seq<Io>, arrived: seq<Interval>, requested: nat) {
    forall k :: 0 <= k < |ios| ==> Pending(ios[k], arrived, requested)
  }

  ghost predicate Below(arrived: seq<Interval>, requested: nat) {
    forall b: nat :: Covered(arrived, b) ==> b < requested
  }

  /** Every requested byte has arrived or is in flight. */
  ghost predicate Accounted(ios: seq<Io>, arrived: seq<Interval>, requested: nat) {
    forall b: nat :: b < requested ==> Covered(arrived, b) || Flying(ios, b)
  }

  ghost predicate Flying(ios: seq<Io>, b: nat) {
    exists k :: 0 <= k < |ios| && In(Span(ios[k]), b)
  }

  // ----- issuing

  lemma {:induction false} TilesCover(ios: seq<Io>, start: nat, end: nat, b: nat)
    requires Tiles(ios, start, end) && start <= b < end
    ensures Flying(ios, b)
  {
    var m := |ios| - 1;
    if b < ios[m].offset {
      TilesCover(ios[..m], start, ios[m].offset, b);
      var k :| 0 <= k < m && In(Span(ios[..m][k]), b);
      assert In(Span(ios[k]), b);
    } else {
      assert In(Span(ios[m]), b);
    }
  }

  lemma IssuedAccounted(ios: seq<Io>, more: seq<Io>, arrived: seq<Interval>, requested: nat, end: nat)
    requires Accounted(ios, arrived, requested) && Tiles(more, requested, end)
    ensures Accounted(ios + more, arrived, end)
  {
    hide Covered, Tiles;
    forall b: nat | b < end ensures Covered(arrived, b) || Flying(ios + more, b) {
      if b >= requested {
        TilesCover(more, requested, end, b);
        var k :| 0 <= k < |more| && In(Span(more[k]), b);
        assert (ios + more)[|ios| + k] == more[k];
      } else if Flying(ios, b) {
        var k :| 0 <= k < |ios| && In(Span(ios[k]), b);
        assert (ios + more)[k] == ios[k];
      }
    }
  }

  lemma LandedAccounted(ios: seq<Io>, k: nat, arrived: seq<Interval>, requested: nat)
    requires Accounted(ios, arrived, requested) && k < |ios|
    ensures Accounted(Without(ios, k), arrived + [Span(ios[k])], requested)
  {
    hide Covered;
    var rest := Without(ios, k);
    forall b: nat | b < requested ensures Covered(arrived + [Span(ios[k])], b) || Flying(rest, b) {
      CoveredAppend(arrived, Span(ios[k]), b);
      if Flying(ios, b) {
        var j :| 0 <= j < |ios| && In(Span(ios[j]), b);
        if j < k {
          assert rest[j] == ios[j];
        } else if j > k {
          assert rest[j - 1] == ios[j];
        }
      }
    }
  }

  /** With nothing in flight the head has reached all that was requested. */
  lemma NothingFlying(arrived: seq<Interval>, requested: nat, head: nat)
    requires Accounted([], arrived, requested) && IsFrontier(head, arrived) && Below(arrived, requested)
    ensures head == requested
  {
    HeadBelow(arrived, head, requested);
    assert !Flying([], head);
  }

  lemma {:induction false} TilesOrdered(ios: seq<Io>, start: nat, end: nat, rs: seq<Range>, ring: nat)
    requires Tiles(ios, start, end) && AllGood(ios, rs, ring)
    ensures start <= end && Apart(ios)
    ensures forall k :: 0 <= k < |ios| ==> start <= ios[k].offset && ios[k].offset + ios[k].length <= end
  {
    if ios != [] {
      var m := |ios| - 1;
      var pre := ios[..m];
      assert forall k :: 0 <= k < m ==> pre[k] == ios[k];
      TilesOrdered(pre, start, ios[m].offset, rs, ring);
      assert Good(rs, Some(ring), ios[m]);
      forall j, k | 0 <= j < k < |ios| ensures Clear(ios[j], ios[k]) {
        assert k < m ==> Clear(pre[j], pre[k]);
        assert pre[j] == ios[j];
      }
    }
  }

  /** New requests beyond everything requested so far. */
  lemma IssuedKeeps(ios: seq<Io>, more: seq<Io>, arrived: seq<Interval>, requested: nat, end: nat)
    requires Apart(ios) && Apart(more) && AllPending(ios, arrived, requested)
    requires Below(arrived, requested) && requested <= end
    requires forall k :: 0 <= k < |more| ==> requested <= more[k].offset && more[k].offset + more[k].length <= end
    ensures Apart(ios + more) && AllPending(ios + more, arrived, end) && Below(arrived, end)
  {
    hide Covered;
    var all := ios + more;
    forall j, k | 0 <= j < k < |all| ensures Clear(all[j], all[k]) {
      if k < |ios| {
        assert Clear(ios[j], ios[k]);
      } else if j >= |ios| {
        assert Clear(more[j - |ios|], more[k - |ios|]);
      } else {
        assert Pending(ios[j], arrived, requested);
      }
    }
    forall k | 0 <= k < |all| ensures Pending(all[k], arrived, end) {
      if k < |ios| {
        assert Pending(ios[k], arrived, requested);
      }
    }
  }

  // ----- landing

  function Without(ios: seq<Io>, k: nat): seq<Io>
    requires k < |ios|
  {
    ios[..k] + ios[k + 1..]
  }

  /** A landed request is no longer in flight, and its bytes have arrived. */
  lemma LandedRest(ios: seq<Io>, k: nat, arrived: seq<Interval>, requested: nat)
    requires k < |ios| && Apart(ios) && AllPending(ios, arrived, requested) && Below(arrived, requested)
    ensures Apart(Without(ios, k)) && AllPending(Without(ios, k), arrived + [Span(ios[k])], requested)
    ensures Below(arrived + [Span(ios[k])], requested)
  {
    hide Covered;
    var rest, arrived' := Without(ios, k), arrived + [Span(ios[k])];
    forall j | 0 <= j < |rest| ensures rest[j] == ios[if j < k then j else j + 1] { }
    forall i, j | 0 <= i < j < |rest| ensures Clear(rest[i], rest[j]) {
      assert Clear(ios[if i < k then i else i + 1], ios[if j < k then j else j + 1]);
    }
    assert Pending(ios[k], arrived, requested);
    forall j | 0 <= j < |rest| ensures Pending(rest[j], arrived', requested) {
      var i := if j < k then j else j + 1;
      assert Pending(ios[i], arrived, requested);
      assert Clear(ios[if i < k then i else k], ios[if i < k then k else i]);
      forall b: nat | In(Span(ios[i]), b) ensures !Covered(arrived', b) {
        CoveredAppend(arrived, Span(ios[k]), b);
      }
    }
    forall b: nat | Covered(arrived', b) ensures b < requested {
      CoveredAppend(arrived, Span(ios[k]), b);
    }
  }

  /** Landing a request overwrites nothing that is still needed. */
  lemma LandingKeeps(c: Config, mem: seq<int>, content: seq<int>, arrived: seq<Interval>, tail: nat, requested: nat,
                     io: Io, data: seq<int>)
    requires Fits(c, mem, data) && Loaded(c, mem, content, arrived, tail) && Below(arrived, requested)
    requires Pending(io, arrived, requested) && !SkipsMirror(c, io.offset, |data|) && io.length == |data|
    requires tail <= io.offset && requested <= tail + c.ring && requested <= |content|
    requires data == content[io.offset..io.offset + io.length]
    ensures Loaded(c, Written(c, mem, io.offset, data), content, arrived + [Span(io)], tail)
  {
    hide Written, Holds, SkipsMirror, Covered;
    forall l: nat | tail <= l < |content| && Covered(arrived + [Span(io)], l)
      ensures Holds(c, Written(c, mem, io.offset, data), l, content[l], true)
    {
      CoveredAppend(arrived, Span(io), l);
      if In(Span(io), l) {
        WrittenHolds(c, mem, io.offset, data, l - io.offset, true);
      } else {
        assert Holds(c, mem, l, content[l], true);
        if l < io.offset {
          WrittenSpares(c, mem, io.offset, data, l, content[l], true);
        } else {
          WrittenSparesAhead(c, mem, io.offset, data, l, content[l], true);
        }
      }
    }
  }

  /** A request in flight lies at or behind the head. */
  lemma PendingBehindHead(io: Io, arrived: seq<Interval>, requested: nat, head: nat)
    requires Pending(io, arrived, requested) && io.length > 0 && IsFrontier(head, arrived)
    ensures head <= io.offset
  {
    assert In(Span(io), io.offset);
  }

  // ----- reading

  lemma ReadLoaded(c: Config, mem: seq<int>, content: seq<int>, arrived: seq<Interval>, tail: nat, head: nat,
                   o: nat, len: nat)
    requires c.WellFormed() && |mem| == c.ring + c.mirror && Loaded(c, mem, content, arrived, tail)
    requires IsFrontier(head, arrived) && tail <= o && o + len <= head <= |content| && len <= c.ring
    requires o % c.ring + len <= c.ring + c.mirror
    ensures mem[o % c.ring..o % c.ring + len] == content[o..o + len]
  {
    hide Covered;
    var got, want := mem[o % c.ring..o % c.ring + len], content[o..o + len];
    forall i | 0 <= i < |got| ensures got[i] == want[i] {
      assert Covered(arrived, o + i);
      assert Holds(c, mem, o + i, content[o + i], true);
      ModStep(o, i, c.ring);
    }
  }

  lemma HeadBelow(arrived: seq<Interval>, head: nat, requested: nat)
    requires IsFrontier(head, arrived) && Below(arrived, requested)
    ensures head <= requested
  {
    assert !Covered(arrived, requested);
  }

  /** How far ahead of the consumer the loader may be. */
  lemma ThrottleBound(requested: nat, tail: nat, page: nat, io: nat)
    requires page >= 1 && Close(requested, tail, page, io)
    ensures requested < tail + io + 2 * page
  {
    assert requested == requested / page * page + requested % page;
    assert tail == tail / page * page + tail % page;
    assert io == io / page * page + io % page;
    Monotone(requested / page, tail / page + io / page + 1, page);
    assert (tail / page + io / page + 1) * page == tail / page * page + io / page * page + page;
  }

  class Loader {
    const c: Config
    const rs: seq<Range>
    const disk: seq<int>
    const ioSize: nat     // bytes of a full request
    const minIo: nat
    const quota0: nat     // requests granted before the consumer has started
    const mem: array<int>
    const region: Region
    var requested: nat
    var ios: seq<Io>
    var landed: nat       // bytes whose requests have landed
    var streaming: bool   // the consumer has waited once

    ghost function All(): seq<int>
      requires OnDisk(rs, disk)
    {
      Content(rs, disk, |rs|)
    }

    /** The ring holds everything the throttle lets the loader request. */
    ghost predicate Sized() {
      && c.WellFormed() && mem.Length == c.ring + c.mirror && Positive(rs) && OnDisk(rs, disk)
      && 1 <= minIo <= ioSize && c.page <= ioSize
      && 2 * ioSize + 2 * c.page + SECTOR <= c.ring && quota0 * (ioSize + SECTOR) <= c.ring
    }

    /** Everything comes in whole pages, but the end of the last range. */
    ghost predicate PageWise() {
      && Sizes(c.page, c.ring) && Paged(rs, c.page)
      && ioSize % c.page == 0 && minIo % c.page == 0
    }

    /** Then whatever is requested or has arrived ends on a page boundary or with the data. */
    ghost predicate OnEdges()
      reads this, region
      requires c.page >= 1
    {
      && AllEdges(ios, rs, c.page) && ArrivedEdges(region.arrived, rs, c.page) && Edge(rs, c.page, requested)
    }

    ghost predicate Flight()
      reads this, region
    {
      && AllGood(ios, rs, c.ring) && Apart(ios) && AllPending(ios, region.arrived, requested)
      && Accounted(ios, region.arrived, requested)
      && Below(region.arrived, requested) && requested <= Total(rs)
      && landed + Lengths(ios) == requested
    }

    ghost predicate Valid()
      reads this, mem, region
    {
      && Sized() && region.Valid() && region.htTail <= region.htHead && !region.producerDone
      && Flight() && requested <= region.htTail + c.ring
      && Loaded(c, mem[..], All(), region.arrived, region.htTail)
      && (PageWise() ==> OnEdges())
    }

    constructor (cfg: Config, ranges: seq<Range>, d: seq<int>, io: nat, min: nat, quota: nat, stash: nat)
      requires cfg.WellFormed() && Positive(ranges) && OnDisk(ranges, d) && 1 <= min <= io && cfg.page <= io
      requires 2 * io + 2 * cfg.page + SECTOR <= cfg.ring && quota * (io + SECTOR) <= cfg.ring
      ensures Valid() && c == cfg && rs == ranges && disk == d && requested == 0 && ios == [] && !streaming
      ensures ioSize == io && minIo == min && quota0 == quota && region.htHead == region.htTail == 0
      ensures fresh(mem) && fresh(region)
    {
      c, rs, disk, ioSize, minIo, quota0 := cfg, ranges, d, io, min, quota;
      mem := new int[cfg.ring + cfg.mirror];
      region := new Region(stash);
      requested, ios, landed, streaming := 0, [], 0, false;
      new;
      QuotientIs(0, c.page, 0, 0);
    }

    /** The consumer is close behind the loader, page by page. */
    predicate CaughtUp()
      reads this, region
      requires c.page >= 1
    {
      Close(requested, region.htTail, c.page, ioSize)
    }

    /** What one request asks for: a page at first, then a full request, or what is left. */
    function AskSize(at: nat): (size: nat)
      requires at < Total(rs)
    {
      var size := Min(if at == 0 then c.page else ioSize, Total(rs) - at);
      if size < minIo then minIo else size
    }

    /** How many rounds of requests are granted: a few before the consumer has started, one whenever
        it is close behind, none otherwise. */
    predicate Granted(k: nat)
      reads this, region
      requires c.page >= 1
    {
      k == if requested == 0 then quota0 else if streaming && CaughtUp() then 1 else 0
    }

    /** k rounds of what is asked for in turn bring the requests from before to after. */
    ghost predicate Rounds(before: seq<Io>, after: seq<Io>, start: nat, end: nat, k: nat, slots: nat)
      decreases k
    {
      if k == 0 then after == before && end == start
      else
        exists mid, m: nat :: Rounds(before, mid, start, m, k - 1, slots) && m < Total(rs)
          && Round(rs, c.ring, mid, after, m, end, AskSize(m), slots)
    }

    lemma RoundsMore(before: seq<Io>, mid: seq<Io>, after: seq<Io>, start: nat, m: nat, end: nat, k: nat, slots: nat)
      requires Rounds(before, mid, start, m, k, slots) && m < Total(rs)
      requires Round(rs, c.ring, mid, after, m, end, AskSize(m), slots)
      ensures Rounds(before, after, start, end, k + 1, slots)
    {
    }

    lemma NoRounds(before: seq<Io>, start: nat, slots: nat)
      ensures Rounds(before, before, start, start, 0, slots)
    {
    }

    /** One round of requests: a few before the consumer has started, one whenever it is close
        behind, none otherwise. */
    method RequestRound(slots: nat)
      requires Valid() && slots >= 1
      modifies this`requested, this`ios
      ensures Valid() && requested >= old(requested) && |ios| >= |old(ios)| && ios[..|old(ios)|] == old(ios)
      ensures streaming && quota0 >= 1 && old(requested) < Total(rs) && old(CaughtUp()) ==> requested > old(requested)
      ensures old(requested) > 0 && !(streaming && old(CaughtUp())) ==> requested == old(requested) && ios == old(ios)
      ensures exists k: nat :: Rounds(old(ios), ios, old(requested), requested, k, slots)
                && (old(Granted(k)) || (requested == Total(rs) && exists q: nat :: k < q && old(Granted(q))))
      ensures old(requested) < Total(rs) && slots == 1
              && (if old(requested) == 0 then quota0 == 1 else streaming && old(CaughtUp())) ==>
                OneMore(rs, c.ring, old(ios), ios, old(requested), requested, AskSize(old(requested)))
    {
      hide Loaded, Apart, AllPending, Below, AllGood, OnDisk, Positive, Accounted, Lengths, OneMore;
      hide Loader.AskSize, Close, Loader.Rounds, Round;
      NoRounds(ios, requested, slots);
      var quota := quota0;
      if requested > 0 {
        quota := if streaming && CaughtUp() then 1 else 0;
        if quota == 1 {
          ThrottleBound(requested, region.htTail, c.page, ioSize);
        }
      }
      ghost var room := if requested > 0 then region.htTail + ioSize + 2 * c.page else 0;
      var i := 0;
      while i < quota
        invariant 0 <= i <= quota && Valid() && requested >= old(requested)
        invariant |ios| >= |old(ios)| && ios[..|old(ios)|] == old(ios)
        invariant i < quota ==> requested <= room + i * (ioSize + SECTOR)
        invariant i > 0 ==> requested > old(requested)
        invariant Rounds(old(ios), ios, old(requested), requested, i, slots)
        invariant i == 0 ==> requested == old(requested) && ios == old(ios)
        invariant i == 1 && slots == 1 && old(requested) < Total(rs) ==>
          OneMore(rs, c.ring, old(ios), ios, old(requested), requested, AskSize(old(requested)))
      {
        var left := Total(rs) - requested;
        if left == 0 {
          break;
        }
        RoomGrows(i, ioSize + SECTOR, quota, quota0);
        ghost var mid, m := ios, requested;
        IssueOne(left, slots);
        RoundsMore(old(ios), mid, ios, old(requested), m, requested, i, slots);
        i := i + 1;
      }
      assert old(Granted(quota)) && Rounds(old(ios), ios, old(requested), requested, i, slots);
    }

    method IssueOne(left: nat, slots: nat)
      requires Valid() && slots >= 1 && left == Total(rs) - requested && left > 0
      requires requested + ioSize + SECTOR <= region.htTail + c.ring
      modifies this`requested, this`ios
      ensures Valid() && old(requested) < requested <= old(requested) + ioSize + SECTOR
      ensures |ios| >= |old(ios)| && ios[..|old(ios)|] == old(ios)
      ensures slots == 1 ==> OneMore(rs, c.ring, old(ios), ios, old(requested), requested, AskSize(old(requested)))
      ensures Round(rs, c.ring, old(ios), ios, old(requested), requested, AskSize(old(requested)), slots)
    {
      hide Loaded, Apart, AllPending, Below, OnDisk, Positive, Tiles, Accounted, Lengths, OneMore, AllCut, Round;
      var size := if requested == 0 then c.page else ioSize;
      if size > left {
        size := left;
      }
      if size < minIo {
        size := minIo;
      }
      var target := if size > left then left else size;
      var more, end := Issue(rs, Some(c.ring), requested, size, target, slots);
      TilesOrdered(more, requested, end, rs, c.ring);
      IssuedKeeps(ios, more, region.arrived, requested, end);
      IssuedAccounted(ios, more, region.arrived, requested, end);
      IssuedSome(more, requested, end, rs, c.ring);
      LengthsIssued(ios, more, requested, end);
      Rounded(ios, more, rs, c.ring, requested, end, size, slots);
      if slots == 1 {
        IssuedOne(ios, more, rs, c.ring, requested, end, size, target);
      }
      if PageWise() {
        RoundOnEdges(more, requested, end, rs, c.page, c.ring, size, target);
        EdgesMore(ios, more, rs, c.page);
      }
      ios, requested := ios + more, end;
    }

    /** Request k lands: its bytes and their mirror are written, and the head moves as far as
        the landed bytes reach without a gap. The one way to fail is a stash that is full when
        the request starts behind the head and touches nothing stashed. */
    method Land(k: nat) returns (overflow: bool)
      requires Valid() && k < |ios|
      modifies this`ios, this`landed, mem, region`htHead, region`pending, region`arrived
      ensures overflow <==> old(ios)[k].offset > old(region.htHead) && old(|region.pending|) == region.maxPending
                            && forall i :: 0 <= i < old(|region.pending|) ==>
                                 !Touches(Span(old(ios)[k]), old(region.pending)[i])
      ensures !overflow ==> Valid() && ios == Without(old(ios), k)
      ensures !overflow ==> IsFrontier(region.htHead, region.arrived) && region.htHead >= old(region.htHead)
      ensures !overflow ==> region.arrived == old(region.arrived) + [Span(old(ios)[k])]
    {
      hide Loaded, Apart, AllPending, Below, OnDisk, Positive, Good, Content, Written, Accounted, Lengths;
      var io := ios[k];
      assert AllGood(ios, rs, c.ring);
      GoodLength(rs, c.ring, io);
      PendingAt(ios, k, region.arrived, requested);
      AccountsFrontier(region.htHead, region.pending, region.arrived);
      PendingBehindHead(io, region.arrived, requested, region.htHead);
      PayloadIsContent(rs, disk, Some(c.ring), io);
      FitsRing(c, io);
      LandedRest(ios, k, region.arrived, requested);
      LandedAccounted(ios, k, region.arrived, requested);
      LengthsLanded(ios, k);
      if PageWise() {
        LandedEdges(ios, k, region.arrived, rs, c.page);
      }
      LandingKeeps(c, mem[..], All(), region.arrived, region.htTail, requested, io, Payload(disk, io));
      CopyIn(io);
      overflow := region.AdvanceHead(io.offset, io.offset + io.length);
      ios := ios[..k] + ios[k + 1..];
      landed := landed + io.length;
    }

    method CopyIn(io: Io)
      requires c.WellFormed() && mem.Length == c.ring + c.mirror && From(io) + io.length <= |disk|
      requires io.offset % c.ring + io.length <= c.ring
      modifies mem
      ensures mem[..] == Written(c, old(mem[..]), io.offset, Payload(disk, io))
    {
      hide Blit;
      var p, data := io.offset % c.ring, Payload(disk, io);
      Memcpy(mem, p, data);
      if p < c.mirror {
        Memcpy(mem, c.ring + p, data[..Min(io.length, c.mirror - p)]);
      }
    }

    /** Whether a probe is answered: by the head, or because everything has landed. */
    predicate Answered(o: nat, len: nat)
      reads this, region
      requires c.page >= 1 && len >= 1
    {
      Ready(region.htHead, o, len, c.page) || landed >= Total(rs)
    }

    /** The probe and the read of the consumer: at offset o, len bytes or as many as there are
        data. If the probe is answered and everything comes in whole pages, what is read is the
        concatenation of the source ranges, except for one-page probes that start inside a page.
        Without whole pages it is so as long as the read ends below the head, and whenever
        everything has landed. */
    method Read(o: nat, len: nat) returns (ready: bool, got: seq<int>)
      requires Valid() && len >= 1 && region.htTail <= o <= Total(rs)
      requires o % c.ring + Min(len, Total(rs) - o) <= c.ring + c.mirror
      ensures ready <==> Answered(o, len)
      ensures |got| == if ready then Min(len, Total(rs) - o) else 0
      ensures ready && (o + |got| <= region.htHead || landed >= Total(rs)
                        || (PageWise() && (len == c.page ==> o % c.page == 0))) ==>
                got == All()[o..o + |got|]
    {
      hide Loaded, Apart, AllPending, Below, OnDisk, Positive, Good, Content, Accounted, Ready, ArrivedEdges;
      hide Lengths;
      ready := Answered(o, len);
      if !ready {
        return false, [];
      }
      AccountsFrontier(region.htHead, region.pending, region.arrived);
      HeadBelow(region.arrived, region.htHead, requested);
      var n := Min(len, Total(rs) - o);
      if landed >= Total(rs) {
        AllLanded();
      } else if PageWise() {
        HeadIsEdge(region.arrived, region.htHead, rs, c.page);
        if len == c.page ==> o % c.page == 0 {
          ReadyOnEdge(rs, region.htHead, o, len, c.page);
        }
      }
      var p := o % c.ring;
      got := mem[p..p + n];
      if o + n <= region.htHead {
        ReadLoaded(c, mem[..], All(), region.arrived, region.htTail, region.htHead, o, n);
        assert mem[..][p..p + n] == got;
      }
    }

    /** When all bytes have landed nothing is in flight, and the head is at the end. */
    lemma AllLanded()
      requires Valid() && landed >= Total(rs)
      ensures ios == [] && region.htHead == Total(rs)
    {
      hide Loaded, Apart, AllPending, Below, OnDisk, Positive, Good, Content, Accounted, Lengths;
      NoLengths(ios, rs, c.ring);
      AccountsFrontier(region.htHead, region.pending, region.arrived);
      NothingFlying(region.arrived, requested, region.htHead);
    }

    /** A consumer that has to wait says so, unless it waits at the start of the ring. */
    method Wait(o: nat)
      requires Valid()
      modifies this`streaming
      ensures Valid() && streaming == (old(streaming) || o % c.ring != 0)
    {
      hide Loaded, Apart, AllPending, Below, OnDisk, Positive, AllGood, Accounted, Lengths;
      if o % c.ring != 0 {
        streaming := true;
      }
    }

    /** A consumer that has published what it consumed up to a grain waits on a probe ahead of its
        offset o while nothing is in flight: if it never looks further than one request and two
        pages past the start of its grain, the next round requests more. */
    method NeverStuck(o: nat, ahead: nat, len: nat, slots: nat)
      requires Valid() && slots >= 1 && quota0 >= 1 && ios == [] && len >= 1 && c.grain % c.page == 0
      requires Unpublished(region.htTail, o, c.grain) && !Answered(o + ahead, len)
      requires streaming || (o + ahead) % c.ring != 0
      requires WithinSight(c.page, c.grain, ioSize, ahead, len)
      modifies this`requested, this`ios, this`streaming
      ensures Valid() && requested > old(requested)
    {
      hide Loaded, Apart, AllPending, OnDisk, Positive, AllGood, Content, Lengths, Ready, Unpublished, Sight, OneMore;
      AccountsFrontier(region.htHead, region.pending, region.arrived);
      NothingFlying(region.arrived, requested, region.htHead);
      NoLengthsOfNone();
      Wait(o + ahead);
      WaitingIsClose(region.htHead, region.htTail, o, ahead, len, c.page, c.grain);
      RequestRound(slots);
    }

    /** The consumer publishes its offset when it has come to another grain. */
    method NotifyProgress(o: nat)
      requires Valid() && region.htTail <= o <= region.htHead
      modifies region`htTail
      ensures Valid() && Unpublished(region.htTail, o, c.grain)
      ensures region.htTail == if Unpublished(old(region.htTail), o, c.grain) then old(region.htTail) else o
    {
      if region.htTail / c.grain != o / c.grain {
        Consume(o);
      }
    }

    /** The consumer has done with everything before t. */
    method Consume(t: nat)
      requires Valid() && t <= region.htHead
      modifies region`htTail
      ensures Valid() && region.htTail == if t > old(region.htTail) then t else old(region.htTail)
    {
      region.SetTail(t);
    }
  }

  lemma IssuedSome(more: seq<Io>, start: nat, end: nat, rs: seq<Range>, ring: nat)
    requires Tiles(more, start, end) && AllGood(more, rs, ring)
    ensures more != [] ==> end > start
    ensures more == [] ==> end == start
  {
    TilesOrdered(more, start, end, rs, ring);
    if more != [] {
      assert Good(rs, Some(ring), more[|more| - 1]);
    }
  }

  /** The bytes that requests ask for together. */
  function Lengths(ios: seq<Io>): nat {
    if ios == [] then 0 else Lengths(ios[..|ios| - 1]) + ios[|ios| - 1].length
  }

  lemma NoLengthsOfNone()
    ensures Lengths([]) == 0
  {
  }

  lemma {:induction false} LengthsIssued(ios: seq<Io>, more: seq<Io>, start: nat, end: nat)
    requires Tiles(more, start, end)
    ensures start + Lengths(ios + more) == end + Lengths(ios)
  {
    if more == [] {
      assert ios + more == ios;
    } else {
      var m := |more| - 1;
      LengthsIssued(ios, more[..m], start, more[m].offset);
      assert (ios + more)[..|ios| + m] == ios + more[..m];
    }
  }

  lemma {:induction false} LengthsLanded(ios: seq<Io>, k: nat)
    requires k < |ios|
    ensures Lengths(Without(ios, k)) + ios[k].length == Lengths(ios)
  {
    var m := |ios| - 1;
    if k < m {
      LengthsLanded(ios[..m], k);
      assert Without(ios, k)[..m - 1] == Without(ios[..m], k);
    } else {
      assert Without(ios, k) == ios[..m];
    }
  }

  lemma NoLengths(ios: seq<Io>, rs: seq<Range>, ring: nat)
    requires AllGood(ios, rs, ring)
    ensures ios != [] ==> Lengths(ios) > 0
  {
    if ios != [] {
      assert Good(rs, Some(ring), ios[|ios| - 1]);
    }
  }

  /** A round adds requests that tile what they cover, each as long as the cuts leave of what is
      asked for, until size bytes are covered, the data end, or no slot is left. */
  ghost predicate Round(rs: seq<Range>, ring: nat, before: seq<Io>, after: seq<Io>, start: nat, end: nat, size: nat,
                        slots: nat)
  {
    && |after| > |before| && after[..|before|] == before && start <= Total(rs)
    && var more := after[|before|..];
       && Tiles(more, start, end) && |more| <= slots
       && AllCut(rs, Some(ring), more, start, size, Min(size, Total(rs) - start))
       && (|more| == slots || end == Total(rs) || end >= start + size)
  }

  lemma Rounded(ios: seq<Io>, more: seq<Io>, rs: seq<Range>, ring: nat, start: nat, end: nat, size: nat, slots: nat)
    requires more != [] && Tiles(more, start, end) && |more| <= slots && start < Total(rs)
    requires AllCut(rs, Some(ring), more, start, size, Min(size, Total(rs) - start)) && end <= Total(rs)
    requires |more| == slots || end == Total(rs) || end >= start + Min(size, Total(rs) - start)
    ensures Round(rs, ring, ios, ios + more, start, end, size, slots)
  {
    hide Tiles, AllCut, Total;
    assert (ios + more)[|ios|..] == more && (ios + more)[..|ios|] == ios;
  }

  /** A round came to one request, of the length that the cuts leave of size. */
  ghost predicate OneMore(rs: seq<Range>, ring: nat, before: seq<Io>, after: seq<Io>, start: nat, end: nat, size: nat) {
    && |after| == |before| + 1 && after[..|before|] == before
    && after[|before|].offset == start && start + after[|before|].length == end
    && Cut(rs, Some(ring), after[|before|], size)
  }

  lemma IssuedOne(ios: seq<Io>, more: seq<Io>, rs: seq<Range>, ring: nat, start: nat, end: nat, size: nat, target: nat)
    requires |more| == 1 && Tiles(more, start, end) && AllCut(rs, Some(ring), more, start, size, target)
    ensures OneMore(rs, ring, ios, ios + more, start, end, size)
  {
    hide Cut;
    assert more[..0] == [];
    assert Cut(rs, Some(ring), more[0], Asked(more, 0, start, size, target));
  }

  lemma RoundOnEdges(more: seq<Io>, start: nat, end: nat, rs: seq<Range>, p: nat, ring: nat, want: nat, target: nat)
    requires Sizes(p, ring) && Paged(rs, p) && Edge(rs, p, start) && start < Total(rs)
    requires Tiles(more, start, end) && AllGood(more, rs, ring) && AllCut(rs, Some(ring), more, start, want, target)
    requires AskedToEdge(rs, p, start, want) && AskedToEdge(rs, p, start, target)
    ensures AllEdges(more, rs, p) && Edge(rs, p, end)
  {
    hide Good, Tiles, Paged, AllCut;
    forall k | 0 <= k < |more| ensures Edge(rs, p, more[k].offset + more[k].length) {
      IssuedEdges(rs, p, ring, more, start, end, want, target, k);
    }
    TilesAt(more, start, end, |more|);
  }

  lemma EdgesMore(ios: seq<Io>, more: seq<Io>, rs: seq<Range>, p: nat)
    requires p >= 1 && AllEdges(ios, rs, p) && AllEdges(more, rs, p)
    ensures AllEdges(ios + more, rs, p)
  {
    hide Edge;
    var all := ios + more;
    forall k | 0 <= k < |all| ensures Edge(rs, p, all[k].offset + all[k].length) {
      if k < |ios| {
        assert all[k] == ios[k];
      } else {
        assert all[k] == more[k - |ios|];
      }
    }
  }

  lemma LandedEdges(ios: seq<Io>, k: nat, arrived: seq<Interval>, rs: seq<Range>, p: nat)
    requires p >= 1 && k < |ios| && AllEdges(ios, rs, p) && ArrivedEdges(arrived, rs, p)
    ensures AllEdges(Without(ios, k), rs, p) && ArrivedEdges(arrived + [Span(ios[k])], rs, p)
  {
    hide Edge;
    var rest := Without(ios, k);
    forall j | 0 <= j < |rest| ensures Edge(rs, p, rest[j].offset + rest[j].length) {
      assert rest[j] == ios[if j < k then j else j + 1];
    }
  }

  lemma RoomGrows(i: nat, step: nat, quota: nat, quota0: nat)
    requires i < quota
    ensures (i + 1) * step == i * step + step && (quota <= quota0 ==> (i + 1) * step <= quota0 * step)
  {
    if quota <= quota0 {
      Monotone(i + 1, quota0, step);
    }
  }

  lemma GoodLength(rs: seq<Range>, ring: nat, io: Io)
    requires Good(rs, Some(ring), io) && ring > 0
    ensures io.length > 0 && io.offset % ring + io.length <= ring
  {
  }

  lemma PendingAt(ios: seq<Io>, k: nat, arrived: seq<Interval>, requested: nat)
    requires AllPending(ios, arrived, requested) && k < |ios|
    ensures Pending(ios[k], arrived, requested)
  {
  }

  lemma FitsRing(c: Config, io: Io)
    requires c.WellFormed() && io.offset % c.ring + io.length <= c.ring
    ensures !SkipsMirror(c, io.offset, io.length)
  {
  }
}
