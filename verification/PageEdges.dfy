/** Where requests end, page by page: the consumer's probe rounds the head up to a page, so it is
    right only while the head stands on a page boundary or at the end of the data. */
module PageEdges {
  import opened Wrappers
  import opened Arithmetic
  import opened Frontier
  import opened ScatterGather

  function Span(io: Io): Interval {
    Interval(io.offset, io.offset + io.length)
  }

  /** Every range starts on a page boundary of the load: all but the last are whole pages. */
  ghost predicate Paged(rs: seq<Range>, p: nat)
    requires p >= 1
  {
    forall i: nat :: i < |rs| ==> Start(rs, i) % p == 0
  }

  /** That is the same as all ranges but the last being whole pages. */
  lemma PagedMeans(rs: seq<Range>, p: nat)
    requires p >= 1
    ensures Paged(rs, p) <==> forall i: nat :: i + 1 < |rs| ==> rs[i].nByte % p == 0
  {
    if Paged(rs, p) {
      forall i: nat | i + 1 < |rs| ensures rs[i].nByte % p == 0 {
        assert Start(rs, i) % p == 0 && Start(rs, i + 1) % p == 0;
        SumAligned(Start(rs, i), rs[i].nByte, p);
      }
    } else {
      var i: nat :| i < |rs| && Start(rs, i) % p != 0;
      if forall j: nat :: j + 1 < |rs| ==> rs[j].nByte % p == 0 {
        StartAligned(rs, i, p);
      }
    }
  }

  lemma {:induction false} StartAligned(rs: seq<Range>, i: nat, p: nat)
    requires p >= 1 && i < |rs| && forall j: nat :: j + 1 < |rs| ==> rs[j].nByte % p == 0
    ensures Start(rs, i) % p == 0
  {
    if i > 0 {
      StartAligned(rs, i - 1, p);
      assert Start(rs, i) == Start(rs, i - 1) + rs[i - 1].nByte;
      hide Start;
      assert rs[i - 1].nByte % p == 0;
      SumAligned(Start(rs, i - 1), rs[i - 1].nByte, p);
    }
  }

  lemma SumAligned(x: int, y: int, p: nat)
    requires p >= 1 && x % p == 0
    ensures (x + y) % p == 0 <==> y % p == 0
  {
    assert x == x / p * p && y == y / p * p + y % p;
    assert x + y == (x / p + y / p) * p + y % p;
    QuotientIs(x + y, p, x / p + y / p, y % p);
  }

  /** A page boundary, or the end of the data. */
  predicate Edge(rs: seq<Range>, p: nat, x: nat)
    requires p >= 1
  {
    x % p == 0 || x == Total(rs)
  }

  /** What a request is asked for ends on an edge. */
  predicate AskedToEdge(rs: seq<Range>, p: nat, o: nat, size: nat)
    requires p >= 1
  {
    size % p == 0 || o + size == Total(rs)
  }

  predicate Sizes(p: nat, ring: nat) {
    p >= 1 && p % SECTOR == 0 && ring >= 1 && ring % p == 0
  }

  /** Cut by whole pages, a request from a page boundary ends on an edge. */
  lemma CutToEdge(rs: seq<Range>, p: nat, ring: nat, io: Io, size: nat)
    requires Sizes(p, ring) && Paged(rs, p) && io.offset % p == 0 && io.offset < Total(rs)
    requires Cut(rs, Some(ring), io, size) && AskedToEdge(rs, p, io.offset, size)
    ensures Edge(rs, p, io.offset + io.length)
  {
    hide Start, SectorUp;
    var o := io.offset;
    var i := RangeOf(rs, o, |rs|);
    StartGrows(rs, i + 1, |rs|);
    RangeEndsOnEdge(rs, p, i);
    RingLeft(o, p, ring);
    SumAligned(o, ring - o % ring, p);
    SumAligned(o, size, p);
    SectorsOf(size, p);
    assert io.length == CircularIoSize(Some(ring), o, Min(SectorUp(size), Start(rs, i + 1) - o));
  }

  lemma RangeEndsOnEdge(rs: seq<Range>, p: nat, i: nat)
    requires p >= 1 && Paged(rs, p) && i < |rs|
    ensures Edge(rs, p, Start(rs, i + 1))
  {
    hide Start;
    if i + 1 < |rs| {
      assert Start(rs, i + 1) % p == 0;
    }
  }

  lemma SectorsOf(size: nat, p: nat)
    requires p >= 1 && p % SECTOR == 0
    ensures size <= SectorUp(size) && (size % p == 0 ==> SectorUp(size) == size)
  {
    if size % p == 0 {
      DividesTrans(size, p, SECTOR);
    }
  }

  lemma RingLeft(o: nat, p: nat, ring: nat)
    requires Sizes(p, ring) && o % p == 0
    ensures (ring - o % ring) % p == 0 && ring - o % ring > 0
  {
    assert o == o / ring * ring + o % ring;
    assert o / ring * ring == o / ring * (ring / p) * p;
    QuotientIs(o / ring * ring, p, o / ring * (ring / p), 0);
    SumAligned(o / ring * ring, o % ring, p);
    SumAligned(o % ring, ring - o % ring, p);
  }

  ghost predicate AllGood(ios: seq<Io>, rs: seq<Range>, ring: nat) {
    forall k :: 0 <= k < |ios| ==> Good(rs, Some(ring), ios[k])
  }

  ghost predicate AllEdges(ios: seq<Io>, rs: seq<Range>, p: nat)
    requires p >= 1
  {
    forall k :: 0 <= k < |ios| ==> Edge(rs, p, ios[k].offset + ios[k].length)
  }

  /** Where the k-th request of a tiling starts. */
  function Mark(ios: seq<Io>, start: nat, k: nat): nat
    requires k <= |ios|
  {
    if k == 0 then start else ios[k - 1].offset + ios[k - 1].length
  }

  lemma {:induction false} TilesAt(ios: seq<Io>, start: nat, end: nat, k: nat)
    requires Tiles(ios, start, end) && k <= |ios|
    ensures Tiles(ios[..k], start, Mark(ios, start, k))
    ensures k < |ios| ==> ios[k].offset == Mark(ios, start, k)
    ensures k == |ios| ==> end == Mark(ios, start, k)
  {
    var m := |ios| - 1;
    if k == |ios| {
      assert ios[..k] == ios;
    } else {
      TilesAt(ios[..m], start, ios[m].offset, k);
      assert ios[..m][..k] == ios[..k];
      assert Mark(ios[..m], start, k) == Mark(ios, start, k);
    }
  }

  /** All requests of one round end on edges. */
  lemma {:induction false} IssuedEdges(rs: seq<Range>, p: nat, ring: nat, ios: seq<Io>, start: nat, end: nat,
                                       want: nat, target: nat, k: nat)
    requires Sizes(p, ring) && Paged(rs, p) && start % p == 0 && k < |ios|
    requires Tiles(ios, start, end) && AllGood(ios, rs, ring) && AllCut(rs, Some(ring), ios, start, want, target)
    requires AskedToEdge(rs, p, start, want) && AskedToEdge(rs, p, start, target)
    ensures ios[k].offset % p == 0 && Edge(rs, p, ios[k].offset + ios[k].length)
  {
    hide Start, Cut, Good, Tiles, Paged;
    TilesAt(ios, start, end, k);
    assert Good(rs, Some(ring), ios[k]);
    GoodInside(rs, ring, ios[k]);
    if k > 0 {
      IssuedEdges(rs, p, ring, ios, start, end, want, target, k - 1);
      MarkBehind(ios, start, end, k, rs, ring);
      AskedStays(rs, p, start, target, ios[k].offset);
    }
    CutToEdge(rs, p, ring, ios[k], Asked(ios, k, start, want, target));
  }

  lemma GoodInside(rs: seq<Range>, ring: nat, io: Io)
    requires Good(rs, Some(ring), io)
    ensures io.offset < Total(rs) && io.length > 0 && io.offset + io.length <= Total(rs)
  {
    hide Start;
    var i := GoodRange(rs, Some(ring), io);
    StartGrows(rs, i + 1, |rs|);
  }

  lemma {:induction false} MarkBehind(ios: seq<Io>, start: nat, end: nat, k: nat, rs: seq<Range>, ring: nat)
    requires Tiles(ios, start, end) && AllGood(ios, rs, ring) && k <= |ios|
    ensures start <= Mark(ios, start, k) && (k > 0 ==> start < Mark(ios, start, k))
  {
    hide Good, Tiles;
    if k > 0 {
      TilesAt(ios, start, end, k - 1);
      MarkBehind(ios, start, end, k - 1, rs, ring);
      GoodInside(rs, ring, ios[k - 1]);
    }
  }

  lemma AskedStays(rs: seq<Range>, p: nat, start: nat, target: nat, o: nat)
    requires p >= 1 && start % p == 0 && o % p == 0 && start <= o
    requires AskedToEdge(rs, p, start, target)
    ensures AskedToEdge(rs, p, o, if o - start <= target then target + start - o else 0)
  {
    if o - start <= target && target % p == 0 {
      SumAligned(start, target, p);
      SumAligned(o, target + start - o, p);
    }
  }

  // ----- the head

  ghost predicate ArrivedEdges(arrived: seq<Interval>, rs: seq<Range>, p: nat)
    requires p >= 1
  {
    forall r :: r in arrived ==> Edge(rs, p, r.end)
  }

  /** The head is 0 or the end of something that arrived. */
  lemma HeadIsEdge(arrived: seq<Interval>, head: nat, rs: seq<Range>, p: nat)
    requires p >= 1 && IsFrontier(head, arrived) && ArrivedEdges(arrived, rs, p)
    ensures Edge(rs, p, head)
  {
    if head > 0 {
      assert Covered(arrived, head - 1);
      var r :| r in arrived && In(r, head - 1);
      assert !In(r, head);
    } else {
      QuotientIs(0, p, 0, 0);
    }
  }

  /** On an edge, a probe that could be right and is answered "ready" lies below the head, as far
      as there are data. */
  lemma ReadyOnEdge(rs: seq<Range>, head: nat, o: nat, len: nat, p: nat)
    requires p >= 1 && len >= 1 && Edge(rs, p, head) && head <= Total(rs) && o <= Total(rs)
    requires Ready(head, o, len, p) && (len == p ==> o % p == 0)
    ensures o + Min(len, Total(rs) - o) <= head
  {
    if head % p == 0 {
      ReadyIsProduced(head, o, len, p);
    }
  }

  // ----- and when it is not on an edge

  function Spans(ios: seq<Io>): (r: seq<Interval>)
    ensures |r| == |ios| && forall k :: 0 <= k < |ios| ==> r[k] == Span(ios[k])
  {
    seq(|ios|, k requires 0 <= k < |ios| => Span(ios[k]))
  }

  /** When the first requests of a tiling have landed, the head is where the next one starts. */
  lemma {:induction false} LandedHead(ios: seq<Io>, end: nat, rs: seq<Range>, ring: nat)
    requires Tiles(ios, 0, end) && AllGood(ios, rs, ring)
    ensures forall b: nat :: Covered(Spans(ios), b) <==> b < end
  {
    hide Good;
    if ios == [] {
      assert Spans(ios) == [];
    } else {
      var m := |ios| - 1;
      var io := ios[m];
      LandedHead(ios[..m], io.offset, rs, ring);
      GoodInside(rs, ring, io);
      assert Spans(ios) == Spans(ios[..m]) + [Span(io)];
      forall b: nat ensures Covered(Spans(ios), b) <==> b < end {
        CoveredAppend(Spans(ios[..m]), Span(io), b);
      }
    }
  }

  /** The requests of a load pass every start of a range. */
  lemma MarkAtStart(ios: seq<Io>, end: nat, rs: seq<Range>, ring: nat, i: nat) returns (k: nat)
    requires Positive(rs) && Tiles(ios, 0, end) && AllGood(ios, rs, ring) && 0 < i <= |rs| && Start(rs, i) <= end
    ensures k <= |ios| && Mark(ios, 0, k) == Start(rs, i)
  {
    hide Good, Tiles;
    var b := Start(rs, i) - 1;
    assert InRange(rs, b, i - 1);
    var j := TileOf(ios, 0, end, b);
    assert Good(rs, Some(ring), ios[j]);
    var x := GoodRange(rs, Some(ring), ios[j]);
    StartGrows(rs, x, x + 1);
    assert InRange(rs, b, x) by {
      assert Start(rs, x) <= ios[j].offset <= b < ios[j].offset + ios[j].length <= Start(rs, x + 1);
    }
    OneRange(rs, b, x, i - 1);
    k := j + 1;
  }

  lemma {:induction false} TileOf(ios: seq<Io>, start: nat, end: nat, b: nat) returns (j: nat)
    requires Tiles(ios, start, end) && start <= b < end
    ensures j < |ios| && ios[j].offset <= b < ios[j].offset + ios[j].length
  {
    j := |ios| - 1;
    if b < ios[j].offset {
      j := TileOf(ios[..j], start, ios[j].offset, b);
    }
  }

  /** Landing the requests of a whole load in order, the probe never runs ahead. */
  ghost predicate GateSound(ios: seq<Io>, rs: seq<Range>, p: nat)
    requires p >= 1
  {
    forall k: nat :: k <= |ios| ==> Mark(ios, 0, k) == Total(rs) || NeverAhead(Mark(ios, 0, k), p)
  }

  /** If whole-page sizes put the requests on edges once the ranges are whole pages, the probe
      never runs ahead exactly when all ranges but the last are whole pages. */
  lemma GateExactly(ios: seq<Io>, rs: seq<Range>, ring: nat, p: nat)
    requires p >= 1 && Positive(rs) && Tiles(ios, 0, Total(rs)) && AllGood(ios, rs, ring)
    requires Paged(rs, p) ==> AllEdges(ios, rs, p)
    ensures GateSound(ios, rs, p) <==> Paged(rs, p)
  {
    hide NeverAhead, Good, Tiles, Start;
    if Paged(rs, p) {
      QuotientIs(0, p, 0, 0);
      forall k: nat | k <= |ios| ensures Mark(ios, 0, k) == Total(rs) || NeverAhead(Mark(ios, 0, k), p) {
        assert k > 0 ==> Edge(rs, p, ios[k - 1].offset + ios[k - 1].length);
        AheadExactly(Mark(ios, 0, k), p);
      }
    }
    if GateSound(ios, rs, p) {
      forall i: nat | i < |rs| ensures Start(rs, i) % p == 0 {
        if i == 0 {
          StartOfFirst(rs, p);
        } else {
          StartBefore(rs, i);
          var k := MarkAtStart(ios, Total(rs), rs, ring, i);
          AheadExactly(Mark(ios, 0, k), p);
        }
      }
    }
  }

  /** That is what issuing a load does, with page and sizes as they should be. */
  lemma LoadGateExactly(ios: seq<Io>, rs: seq<Range>, ring: nat, p: nat, want: nat)
    requires Sizes(p, ring) && Positive(rs) && Tiles(ios, 0, Total(rs)) && AllGood(ios, rs, ring)
    requires AllCut(rs, Some(ring), ios, 0, want, Total(rs)) && AskedToEdge(rs, p, 0, want)
    ensures GateSound(ios, rs, p) <==> Paged(rs, p)
  {
    hide Good, Tiles, Start, Cut, Positive, GateSound;
    if Paged(rs, p) {
      QuotientIs(0, p, 0, 0);
      forall k | 0 <= k < |ios| ensures Edge(rs, p, ios[k].offset + ios[k].length) {
        IssuedEdges(rs, p, ring, ios, 0, Total(rs), want, Total(rs), k);
      }
    }
    GateExactly(ios, rs, ring, p);
  }

  lemma StartOfFirst(rs: seq<Range>, p: nat)
    requires p >= 1
    ensures Start(rs, 0) % p == 0
  {
    QuotientIs(0, p, 0, 0);
  }

  lemma StartBefore(rs: seq<Range>, i: nat)
    requires Positive(rs) && i < |rs|
    ensures Start(rs, i) < Total(rs)
  {
    StartGrows(rs, i + 1, |rs|);
  }

  /** The failing half: a range that ends inside a page, with more to come, makes the probe admit
      a byte that has not landed. */
  lemma GateRunsAhead(ios: seq<Io>, rs: seq<Range>, ring: nat, p: nat, i: nat) returns (k: nat)
    requires p >= 1 && Positive(rs) && Tiles(ios, 0, Total(rs)) && AllGood(ios, rs, ring)
    requires i < |rs| && Start(rs, i) % p != 0
    ensures k <= |ios| && IsFrontier(Start(rs, i), Spans(ios[..k])) && Start(rs, i) < Total(rs)
    ensures Ready(Start(rs, i), Start(rs, i), 1, p) && !Covered(Spans(ios[..k]), Start(rs, i))
  {
    StartBefore(rs, i);
    StartOfFirst(rs, p);
    hide Good, Tiles, Start, Covered;
    k := MarkAtStart(ios, Total(rs), rs, ring, i);
    TilesAt(ios, 0, Total(rs), k);
    LandedHead(ios[..k], Start(rs, i), rs, ring);
    AheadByOne(Start(rs, i), p);
  }
}
