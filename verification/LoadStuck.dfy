/** What happens to probes that the throttle cannot answer: the loader waits for the consumer to
    publish more, and the consumer for the loader to load more. */
module LoadStuck {
  import opened Wrappers
  import opened Arithmetic
  import opened Frontier
  import opened OutputRing
  import opened ScatterGather
  import opened PageEdges
  import opened Throttle
  import opened LoadRing

  /** One request is issued and lands before anything else happens. */
  method FetchOne(l: Loader, ghost i: nat)
    requires l.Valid() && l.ios == [] && InRange(l.rs, l.requested, i) && l.requested < Total(l.rs)
    requires if l.requested == 0 then l.quota0 == 1 else l.streaming && l.CaughtUp()
    modifies l`requested, l`ios, l`landed, l.mem, l.region`htHead, l.region`pending, l.region`arrived
    ensures l.Valid() && l.ios == [] && l.region.htHead == l.requested == l.landed
    ensures var size := l.AskSize(old(l.requested));
            l.requested == old(l.requested)
              + CircularIoSize(Some(l.c.ring), old(l.requested),
                               Min(SectorUp(size), Start(l.rs, i + 1) - old(l.requested)))
  {
    hide Loaded, Apart, AllPending, OnDisk, Positive, AllGood, Content, Lengths, Close, Loader.AskSize, Accounted;
    hide Below, SectorUp, Start, CircularIoSize;
    AccountsFrontier(l.region.htHead, l.region.pending, l.region.arrived);
    NothingFlying(l.region.arrived, l.requested, l.region.htHead);
    ghost var at := l.requested;
    l.RequestRound(1);
    var overflow := l.Land(0);
    NothingFlying(l.region.arrived, l.requested, l.region.htHead);
    NoLengthsOfNone();
  }

  /** Two ranges: the first ends three requests after the start, the second is one page. */
  function TwoRanges(p: nat, io: nat): seq<Range> {
    [Range(0, io + 2 * p), Range(0, p)]
  }

  lemma TwoRangesAre(p: nat, io: nat, disk: seq<int>)
    requires p >= 1 && |disk| == io + 2 * p
    ensures Start(TwoRanges(p, io), 1) == io + 2 * p && Total(TwoRanges(p, io)) == io + 3 * p
    ensures Positive(TwoRanges(p, io)) && OnDisk(TwoRanges(p, io), disk)
    ensures forall at: nat :: at < io + 2 * p ==> InRange(TwoRanges(p, io), at, 0)
  {
    var rs := TwoRanges(p, io);
    assert Start(rs, 0) == 0;
    assert Start(rs, 1) == io + 2 * p;
    assert Start(rs, 2) == io + 3 * p;
  }

  /** Within the first range, of whole sectors and far from the ring end. */
  lemma CutInFirst(end: nat, at: nat, size: nat, ring: nat)
    requires at < end <= ring && size % SECTOR == 0
    ensures CircularIoSize(Some(ring), at, Min(SectorUp(size), end - at)) == Min(size, end - at)
  {
    QuotientIs(at, ring, 0, at);
  }

  lemma PagesAndIo(p: nat, io: nat)
    requires p >= 1 && p % SECTOR == 0 && io % p == 0
    ensures io % SECTOR == 0 && Min(io, 2 * p) % SECTOR == 0 && p >= SECTOR
    ensures Close(p, 0, p, io) && Close(p + io, 0, p, io) && !Close(io + 2 * p, 0, p, io)
    ensures (io + 2 * p) / p == io / p + 2 && (io + 2 * p) % p == 0
  {
    DividesTrans(io, p, SECTOR);
    assert io == io / p * p;
    QuotientIs(0, p, 0, 0);
    QuotientIs(p, p, 1, 0);
    QuotientIs(p + io, p, io / p + 1, 0);
    QuotientIs(io + 2 * p, p, io / p + 2, 0);
  }

  lemma FarSight(p: nat, grain: nat, io: nat, ahead: nat, len: nat)
    requires p >= 1 && grain >= 1 && len >= 1 && io % p == 0 && !WithinSight(p, grain, io, ahead, len)
    ensures io + 2 * p <= Sight(grain, ahead, len, p)
  {
    QuotientBelow(Sight(grain, ahead, len, p), p, io / p + 2);
    assert io == io / p * p && (io / p + 2) * p == io + 2 * p;
  }

  /** A request in the first range, of whole sectors. */
  method FetchInFirst(l: Loader, size: nat)
    requires l.Valid() && l.ios == [] && InRange(l.rs, l.requested, 0) && l.requested < Total(l.rs)
    requires if l.requested == 0 then l.quota0 == 1 else l.streaming && l.CaughtUp()
    requires size == l.AskSize(l.requested) && size % SECTOR == 0 && |l.rs| >= 1
    requires l.requested < Start(l.rs, 1) <= l.c.ring
    modifies l`requested, l`ios, l`landed, l.mem, l.region`htHead, l.region`pending, l.region`arrived
    ensures l.Valid() && l.ios == [] && l.region.htHead == l.requested == l.landed
    ensures l.requested == old(l.requested) + Min(size, Start(l.rs, 1) - old(l.requested))
  {
    hide *;
    CutInFirst(Start(l.rs, 1), l.requested, size, l.c.ring);
    FetchOne(l, 0);
  }

  /** Three requests: a page, a full one, and one cut to a page by the end of its range. */
  method FetchThree(p: nat, grain: nat, io: nat) returns (l: Loader)
    requires p >= 1 && p % SECTOR == 0 && p <= grain && io >= p && io % p == 0
    ensures fresh(l) && fresh(l.mem) && fresh(l.region)
    ensures l.Valid() && l.c.page == p && l.c.grain == grain && l.ioSize == io && l.streaming && l.ios == []
    ensures l.region.htTail == 0 && l.region.htHead == l.requested == l.landed == io + 2 * p < Total(l.rs)
  {
    hide Close, Start, Total, SectorUp, InRange, OnDisk, TwoRanges, Positive, Loader.Valid, CircularIoSize;
    PagesAndIo(p, io);
    var disk := seq(io + 2 * p, _ => 0);
    TwoRangesAre(p, io, disk);
    l := new Loader(Config(2 * io + 3 * p, p, p, grain), TwoRanges(p, io), disk, io, 1, 1, 1);
    FetchInFirst(l, p);
    QuotientIs(p, 2 * io + 3 * p, 0, p);
    l.Wait(p);
    FetchInFirst(l, io);
    FetchInFirst(l, Min(io, 2 * p));
  }

  /** Whenever the consumer's sight is longer, there is a run after which it waits behind the head
      with nothing in flight and the loader does not go on, although there are more data. */
  method StuckRun(p: nat, grain: nat, io: nat, ahead: nat, len: nat) returns (l: Loader, o: nat)
    requires p >= 1 && p % SECTOR == 0 && p <= grain && io >= p && io % p == 0 && len >= 1
    requires !WithinSight(p, grain, io, ahead, len)
    ensures l.Valid() && l.c.page == p && l.c.grain == grain && l.ioSize == io && l.streaming && l.ios == []
    ensures Waiting(l.region.htHead, l.region.htTail, o, ahead, len, p, grain) && !l.Answered(o + ahead, len)
    ensures l.requested < Total(l.rs) && !l.CaughtUp()
  {
    hide Close, Sight, Ready, Total, Loader.Valid, OneMore;
    PagesAndIo(p, io);
    FarSight(p, grain, io, ahead, len);
    l := FetchThree(p, grain, io);
    o := Min(grain - 1, io + 2 * p);
    ghost var o' := FarWait(p, grain, io, ahead, len, io + 2 * p);
    l.RequestRound(1);
  }
}
