/** Splitting a sequential load over scattered source ranges into I/O requests. */
module ScatterGather {
  import opened Wrappers
  import opened Arithmetic
  import opened OutputRing

  const SECTOR: nat := 512

  /** The first byte of a sector. */
  function ByteOf(lba: nat): nat {
    512 * lba
  }

  /** A run of bytes that starts at a sector. */
  datatype Range = Range(saddr: nat, nByte: nat)

  predicate Positive(rs: seq<Range>) {
    rs != [] && forall i :: 0 <= i < |rs| ==> rs[i].nByte > 0
  }

  /** Logical offset at which range i begins. */
  function Start(rs: seq<Range>, i: nat): nat
    requires i <= |rs|
  {
    if i == 0 then 0 else Start(rs, i - 1) + rs[i - 1].nByte
  }

  function Total(rs: seq<Range>): nat {
    Start(rs, |rs|)
  }

  predicate InRange(rs: seq<Range>, o: nat, i: nat) {
    i < |rs| && Start(rs, i) <= o < Start(rs, i) + rs[i].nByte
  }

  lemma {:induction false} StartGrows(rs: seq<Range>, i: nat, j: nat)
    requires i <= j <= |rs|
    ensures Start(rs, i) <= Start(rs, j)
  {
    if i < j {
      StartGrows(rs, i, j - 1);
    }
  }

  lemma OneRange(rs: seq<Range>, o: nat, i: nat, j: nat)
    requires InRange(rs, o, i) && InRange(rs, o, j)
    ensures i == j
  {
    if i < j {
      StartGrows(rs, i + 1, j);
    } else if j < i {
      StartGrows(rs, j + 1, i);
    }
  }

  lemma {:induction false} RangeOf(rs: seq<Range>, o: nat, k: nat) returns (i: nat)
    requires k <= |rs| && o < Start(rs, k)
    ensures InRange(rs, o, i)
  {
    if o >= Start(rs, k - 1) {
      i := k - 1;
    } else {
      i := RangeOf(rs, o, k - 1);
    }
  }

  // ----- the scans

  /** The scan that all address computations share: the range of o and the offset in it. */
  method Locate(rs: seq<Range>, o: nat) returns (i: nat, local: nat)
    ensures i <= |rs| && (i < |rs| <==> o < Total(rs))
    ensures i < |rs| ==> InRange(rs, o, i) && local == o - Start(rs, i)
  {
    i, local := 0, o;
    while i < |rs|
      invariant i <= |rs| && Start(rs, i) <= o && local == o - Start(rs, i)
    {
      if local < rs[i].nByte {
        StartGrows(rs, i + 1, |rs|);
        return;
      }
      local := local - rs[i].nByte;
      i := i + 1;
    }
  }

  /** Where on the disk logical byte o lies, given its range. */
  function DiskByte(rs: seq<Range>, o: nat, i: nat): nat
    requires InRange(rs, o, i)
  {
    ByteOf(rs[i].saddr) + (o - Start(rs, i))
  }

  method CalculateLba(rs: seq<Range>, o: nat) returns (lba: nat)
    requires Positive(rs) && o < Total(rs)
    ensures forall i: nat :: InRange(rs, o, i) ==> lba == rs[i].saddr + (o - Start(rs, i)) / SECTOR
  {
    if o == 0 {
      forall i: nat | InRange(rs, o, i) ensures i == 0 {
        OneRange(rs, o, i, 0);
      }
      return rs[0].saddr;
    }
    var k, local := Locate(rs, o);
    forall i: nat | InRange(rs, o, i) ensures i == k {
      OneRange(rs, o, i, k);
    }
    return rs[k].saddr + local / SECTOR;
  }

  method CalculateLocalOffset(rs: seq<Range>, o: nat) returns (r: nat)
    requires o < Total(rs)
    ensures forall i: nat :: InRange(rs, o, i) ==> r == (o - Start(rs, i)) % SECTOR
  {
    var k, local := Locate(rs, o);
    forall i: nat | InRange(rs, o, i) ensures i == k {
      OneRange(rs, o, i, k);
    }
    return local % SECTOR;
  }

  function SectorUp(n: nat): (r: nat)
    ensures n <= r < n + SECTOR && r % SECTOR == 0
  {
    if n % SECTOR != 0 then AlignDown(n + SECTOR - 1, SECTOR) else n
  }

  /** The size rounded up to sectors and cut at the end of the range; 0 past the last range. */
  method CalculateIoSize(rs: seq<Range>, o: nat, want: nat) returns (n: nat)
    requires Positive(rs)
    ensures o >= Total(rs) ==> n == 0
    ensures forall i: nat :: InRange(rs, o, i) ==> n == Min(SectorUp(want), Start(rs, i + 1) - o)
  {
    var size := SectorUp(want);
    if o == 0 {
      forall i: nat | InRange(rs, o, i) ensures i == 0 {
        OneRange(rs, o, i, 0);
      }
      StartGrows(rs, 1, |rs|);
      return if size < rs[0].nByte then size else rs[0].nByte;
    }
    var k, local := Locate(rs, o);
    forall i: nat | InRange(rs, o, i) ensures i == k && k < |rs| {
      StartGrows(rs, i + 1, |rs|);
      OneRange(rs, o, i, k);
    }
    if k >= |rs| {
      return 0;
    }
    if local + size > rs[k].nByte {
      return rs[k].nByte - local;
    }
    return size;
  }

  /** A request to a ring stops at the ring end. */
  function CircularIoSize(ring: Option<nat>, o: nat, n: nat): nat
    requires ring.Some? ==> ring.value >= 1
  {
    if ring.None? then n else Min(n, ring.value - o % ring.value)
  }

  // ----- issuing requests

  datatype Io = Io(offset: nat, lba: nat, local: nat, length: nat)

  /** The disk byte at which a request starts. */
  function From(io: Io): nat {
    ByteOf(io.lba) + io.local
  }

  /** A request reads the disk bytes of its own logical offsets, from one range, into one
      stretch of the buffer. */
  ghost predicate Good(rs: seq<Range>, ring: Option<nat>, io: Io) {
    && io.length > 0
    && (exists i: nat :: InRange(rs, io.offset, i) && io.offset + io.length <= Start(rs, i + 1)
                    && From(io) == DiskByte(rs, io.offset, i))
    && (ring.Some? && ring.value > 0 ==> io.offset % ring.value + io.length <= ring.value)
  }

  /** Requests follow each other without gap or overlap from start to end. */
  predicate Tiles(ios: seq<Io>, start: nat, end: nat) {
    if ios == [] then start == end
    else ios[|ios| - 1].offset + ios[|ios| - 1].length == end && Tiles(ios[..|ios| - 1], start, ios[|ios| - 1].offset)
  }

  /** The length of a request that is asked for size bytes: rounded up to sectors, cut at the end
      of its range and at the ring end. */
  ghost predicate Cut(rs: seq<Range>, ring: Option<nat>, io: Io, size: nat) {
    (ring.Some? ==> ring.value >= 1) &&
    forall i: nat :: InRange(rs, io.offset, i) ==>
      io.length == CircularIoSize(ring, io.offset, Min(SectorUp(size), Start(rs, i + 1) - io.offset))
  }

  /** What request k is asked for: want at first, then what is left of the target. */
  function Asked(ios: seq<Io>, k: nat, start: nat, want: nat, target: nat): nat
    requires k < |ios|
  {
    if k == 0 then want
    else if ios[k].offset - start <= target then target + start - ios[k].offset else 0
  }

  ghost predicate AllCut(rs: seq<Range>, ring: Option<nat>, ios: seq<Io>, start: nat, want: nat, target: nat) {
    forall k: nat :: k < |ios| ==> Cut(rs, ring, ios[k], Asked(ios, k, start, want, target))
  }

  lemma CutAt(rs: seq<Range>, ring: Option<nat>, io: Io, size: nat, i: nat)
    requires InRange(rs, io.offset, i) && (ring.Some? ==> ring.value >= 1)
    requires io.length == CircularIoSize(ring, io.offset, Min(SectorUp(size), Start(rs, i + 1) - io.offset))
    ensures Cut(rs, ring, io, size)
  {
    forall j: nat | InRange(rs, io.offset, j) ensures j == i {
      OneRange(rs, io.offset, i, j);
    }
  }

  lemma AllCutMore(rs: seq<Range>, ring: Option<nat>, ios: seq<Io>, io: Io, start: nat, want: nat, target: nat,
                   size: nat)
    requires AllCut(rs, ring, ios, start, want, target) && Cut(rs, ring, io, size)
    requires if ios == [] then size == want else io.offset - start <= target && size == target + start - io.offset
    ensures AllCut(rs, ring, ios + [io], start, want, target)
  {
    hide Cut;
    var all := ios + [io];
    forall k: nat | k < |all| ensures Cut(rs, ring, all[k], Asked(all, k, start, want, target)) {
      if k < |ios| {
        assert all[k] == ios[k] && Cut(rs, ring, ios[k], Asked(ios, k, start, want, target));
      }
    }
  }

  lemma GoodAddress(saddr: nat, d: nat)
    ensures ByteOf(saddr + d / SECTOR) + d % SECTOR == ByteOf(saddr) + d
  {
  }

  method MakeIo(rs: seq<Range>, ring: Option<nat>, o: nat, n: nat) returns (io: Io)
    requires Positive(rs) && o < Total(rs) && n > 0
    requires forall i: nat :: InRange(rs, o, i) ==> o + n <= Start(rs, i + 1)
    requires ring.Some? ==> ring.value >= 1 && o % ring.value + n <= ring.value
    ensures Good(rs, ring, io) && io.offset == o && io.length == n
  {
    var lba := CalculateLba(rs, o);
    var local := CalculateLocalOffset(rs, o);
    io := Io(o, lba, local, n);
    ghost var i := RangeOf(rs, o, |rs|);
    GoodAddress(rs[i].saddr, o - Start(rs, i));
    assert InRange(rs, o, i);
  }

  /** The next request from offset o on, or none past the last range. */
  method NextIo(rs: seq<Range>, ring: Option<nat>, o: nat, size: nat) returns (io: Option<Io>)
    requires Positive(rs) && size >= 1 && o <= Total(rs) && (ring.Some? ==> ring.value >= 1)
    ensures io.None? <==> o == Total(rs)
    ensures io.Some? ==> Good(rs, ring, io.value) && Cut(rs, ring, io.value, size) && io.value.offset == o
    ensures io.Some? ==> o + io.value.length <= Total(rs) && 0 < io.value.length < size + SECTOR
  {
    var n := CalculateIoSize(rs, o, size);
    n := CircularIoSize(ring, o, n);
    if o < Total(rs) {
      ghost var i := RangeOf(rs, o, |rs|);
      StartGrows(rs, i + 1, |rs|);
      forall j: nat | InRange(rs, o, j) ensures j == i {
        OneRange(rs, o, i, j);
      }
      var r := MakeIo(rs, ring, o, n);
      CutAt(rs, ring, r, size, i);
      return Some(r);
    }
    return None;
  }

  lemma TilesMore(ios: seq<Io>, start: nat, end: nat, io: Io)
    requires Tiles(ios, start, end) && io.offset == end
    ensures Tiles(ios + [io], start, end + io.length)
  {
    assert (ios + [io])[..|ios|] == ios;
  }

  /** Issues requests from offset start on until target bytes are covered, the ranges end, or no
      request slot is left. The requests tile what they cover, each has the length the cuts
      allow, and they stop short of the target only at the end of the ranges or for want of
      slots. */
  method Issue(rs: seq<Range>, ring: Option<nat>, start: nat, want: nat, target: nat, slots: nat)
      returns (ios: seq<Io>, end: nat)
    requires Positive(rs) && slots >= 1 && want >= 1 && (ring.Some? ==> ring.value >= 1)
    requires start <= Total(rs)
    ensures forall k :: 0 <= k < |ios| ==> Good(rs, ring, ios[k])
    ensures Tiles(ios, start, end) && end <= Total(rs) && |ios| <= slots
    ensures end >= start + target || end == Total(rs) || |ios| == slots
    ensures end < start + (if want > target then want else target) + SECTOR
    ensures AllCut(rs, ring, ios, start, want, target)
  {
    hide Cut, Good, Tiles, AllCut, Total, Positive;
    ios, end := [], start;
    NothingIssued(rs, ring, start, want, target);
    var size := want;
    while true
      invariant start <= end <= Total(rs) && Tiles(ios, start, end) && |ios| < slots && size >= 1
      invariant forall k :: 0 <= k < |ios| ==> Good(rs, ring, ios[k])
      invariant end + size <= start + (if want > target then want else target)
      invariant AllCut(rs, ring, ios, start, want, target)
      invariant if ios == [] then size == want else end - start <= target && size == target + start - end
      decreases slots - |ios|
    {
      var io := NextIo(rs, ring, end, size);
      if io.None? {
        return;
      }
      AllCutMore(rs, ring, ios, io.value, start, want, target, size);
      TilesMore(ios, start, end, io.value);
      ios := ios + [io.value];
      end := end + io.value.length;
      if end - start >= target || |ios| == slots {
        return;
      }
      size := target - (end - start);
    }
  }

  lemma NothingIssued(rs: seq<Range>, ring: Option<nat>, start: nat, want: nat, target: nat)
    ensures Tiles([], start, start) && AllCut(rs, ring, [], start, want, target)
  {
  }

  // ----- what the copies deliver

  ghost predicate OnDisk(rs: seq<Range>, disk: seq<int>) {
    forall i :: 0 <= i < |rs| ==> ByteOf(rs[i].saddr) + rs[i].nByte <= |disk|
  }

  /** The first k ranges, one after the other. */
  ghost function Content(rs: seq<Range>, disk: seq<int>, k: nat): (c: seq<int>)
    requires OnDisk(rs, disk) && k <= |rs|
    ensures |c| == Start(rs, k)
  {
    if k == 0 then []
    else
      var r := rs[k - 1];
      Content(rs, disk, k - 1) + disk[ByteOf(r.saddr)..ByteOf(r.saddr) + r.nByte]
  }

  lemma ContentGrows(rs: seq<Range>, disk: seq<int>, k: nat)
    requires OnDisk(rs, disk) && 0 < k <= |rs|
    ensures var at := ByteOf(rs[k - 1].saddr);
            Content(rs, disk, k) == Content(rs, disk, k - 1) + disk[at..at + rs[k - 1].nByte]
  {
  }

  lemma {:induction false} ContentAt(rs: seq<Range>, disk: seq<int>, k: nat, o: nat, i: nat)
    requires OnDisk(rs, disk) && i < k <= |rs| && InRange(rs, o, i)
    ensures o < Start(rs, k) && Content(rs, disk, k)[o] == disk[DiskByte(rs, o, i)]
  {
    StartGrows(rs, i + 1, k);
    ContentGrows(rs, disk, k);
    hide Content;
    if i < k - 1 {
      ContentAt(rs, disk, k - 1, o, i);
    }
  }

  /** What one request reads. */
  function Payload(disk: seq<int>, io: Io): seq<int>
    requires From(io) + io.length <= |disk|
  {
    disk[From(io)..From(io) + io.length]
  }

  lemma {:induction false} PayloadInRange(rs: seq<Range>, disk: seq<int>, i: nat, at: nat, o: nat, n: nat)
    requires OnDisk(rs, disk) && InRange(rs, o, i) && o + n <= Start(rs, i + 1) && at == DiskByte(rs, o, i)
    ensures o + n <= Total(rs) && at + n <= |disk|
    ensures disk[at..at + n] == Content(rs, disk, |rs|)[o..o + n]
    decreases n
  {
    hide Content;
    StartGrows(rs, i + 1, |rs|);
    assert at + n <= |disk|;
    if n > 0 {
      hide *;
      PayloadInRange(rs, disk, i, at, o, n - 1);
      ContentByte(rs, disk, i, o, n - 1);
      SliceGrows(disk, at, n - 1);
      SliceGrows(Content(rs, disk, |rs|), o, n - 1);
    }
  }

  lemma SliceGrows(s: seq<int>, at: nat, n: nat)
    requires at + n < |s|
    ensures s[at..at + (n + 1)] == s[at..at + n] + [s[at + n]]
  {
  }

  lemma ContentByte(rs: seq<Range>, disk: seq<int>, i: nat, o: nat, d: nat)
    requires OnDisk(rs, disk) && InRange(rs, o, i) && o + d < Start(rs, i + 1)
    ensures o + d < Total(rs) && Content(rs, disk, |rs|)[o + d] == disk[DiskByte(rs, o, i) + d]
  {
    ContentAt(rs, disk, |rs|, o + d, i);
  }

  /** A request delivers the bytes of the concatenated ranges at its own offset. */
  lemma PayloadIsContent(rs: seq<Range>, disk: seq<int>, ring: Option<nat>, io: Io)
    requires OnDisk(rs, disk) && Good(rs, ring, io)
    ensures io.offset + io.length <= Total(rs) && From(io) + io.length <= |disk|
    ensures Payload(disk, io) == Content(rs, disk, |rs|)[io.offset..io.offset + io.length]
  {
    hide Content, Start, Good;
    var i := GoodRange(rs, ring, io);
    PayloadInRange(rs, disk, i, From(io), io.offset, io.length);
  }

  lemma GoodRange(rs: seq<Range>, ring: Option<nat>, io: Io) returns (i: nat)
    requires Good(rs, ring, io)
    ensures InRange(rs, io.offset, i) && io.offset + io.length <= Start(rs, i + 1)
    ensures From(io) == DiskByte(rs, io.offset, i)
  {
    hide Start;
    i :| && InRange(rs, io.offset, i) && io.offset + io.length <= Start(rs, i + 1)
         && From(io) == DiskByte(rs, io.offset, i);
  }

  ghost function Payloads(disk: seq<int>, ios: seq<Io>): seq<int>
    requires forall k :: 0 <= k < |ios| ==> From(ios[k]) + ios[k].length <= |disk|
  {
    if ios == [] then []
    else Payloads(disk, ios[..|ios| - 1]) + Payload(disk, ios[|ios| - 1])
  }

  /** Tiled requests together deliver a stretch of the concatenated ranges. */
  lemma {:induction false} LoadIsContent(rs: seq<Range>, disk: seq<int>, ring: Option<nat>, ios: seq<Io>,
                                         start: nat, end: nat)
    requires OnDisk(rs, disk) && Tiles(ios, start, end) && start <= Total(rs)
    requires forall k :: 0 <= k < |ios| ==> Good(rs, ring, ios[k])
    ensures start <= end <= Total(rs)
    ensures forall k :: 0 <= k < |ios| ==> From(ios[k]) + ios[k].length <= |disk|
    ensures Payloads(disk, ios) == Content(rs, disk, |rs|)[start..end]
  {
    hide Content, Start;
    if ios != [] {
      var m := |ios| - 1;
      LoadIsContent(rs, disk, ring, ios[..m], start, ios[m].offset);
      PayloadIsContent(rs, disk, ring, ios[m]);
      forall k | 0 <= k < |ios| ensures From(ios[k]) + ios[k].length <= |disk| {
        if k < m {
          assert ios[..m][k] == ios[k];
        }
      }
      var c := Content(rs, disk, |rs|);
      assert c[start..end] == c[start..ios[m].offset] + c[ios[m].offset..end];
    }
  }
}
