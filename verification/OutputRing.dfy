/** Circular output buffers. A ring of B bytes followed by a mirror of its first G bytes holds
    the last part of an append-only stream; the writer waits for the host's consumed frontier
    and publishes the produced one in steps of the notification grain. */
module OutputRing {
  import opened Wrappers
  import opened Arithmetic

  /** Ring size, page size, mirror ("ghost page") size and notification grain, in bytes. */
  datatype Config = Config(ring: nat, page: nat, mirror: nat, grain: nat) {
    predicate WellFormed() {
      1 <= page <= grain && 1 <= mirror <= ring
    }
  }

  // ----- the memory after a write

  function Blit(mem: seq<int>, at: nat, data: seq<int>): (r: seq<int>)
    requires at + |data| <= |mem|
    ensures |r| == |mem|
  {
    mem[..at] + data + mem[at + |data|..]
  }

  lemma BlitAt(mem: seq<int>, at: nat, data: seq<int>, j: nat)
    requires at + |data| <= |mem| && j < |mem|
    ensures Blit(mem, at, data)[j] == if at <= j < at + |data| then data[j - at] else mem[j]
  {
  }

  predicate Fits(c: Config, mem: seq<int>, data: seq<int>) {
    c.WellFormed() && |mem| == c.ring + c.mirror && |data| <= c.ring
  }

  /** What the copies of one write leave in memory: the data, split at the ring end, and the
      mirrored part. */
  function Written(c: Config, mem: seq<int>, off: nat, data: seq<int>): (r: seq<int>)
    requires Fits(c, mem, data)
    ensures |r| == |mem|
  {
    var p := off % c.ring;
    var toEnd := c.ring - p;
    if |data| <= toEnd then
      var m := Blit(mem, p, data);
      if p < c.mirror then Blit(m, c.ring + p, data[..Min(|data|, c.mirror - p)]) else m
    else
      var rest := data[toEnd..];
      Blit(Blit(Blit(mem, p, data[..toEnd]), 0, rest), c.ring, rest[..Min(|rest|, c.mirror)])
  }

  /** Cell by cell. */
  lemma WrittenAt(c: Config, mem: seq<int>, off: nat, data: seq<int>, j: nat)
    requires Fits(c, mem, data) && j < |mem|
    ensures var p := off % c.ring;
            var toEnd := c.ring - p;
            Written(c, mem, off, data)[j] ==
              if |data| <= toEnd then
                if p < c.mirror && c.ring + p <= j < c.ring + p + Min(|data|, c.mirror - p) then data[j - c.ring - p]
                else if p <= j < p + |data| then data[j - p] else mem[j]
              else
                if c.ring <= j < c.ring + Min(|data| - toEnd, c.mirror) then data[toEnd + j - c.ring]
                else if j < |data| - toEnd then data[toEnd + j]
                else if p <= j < c.ring then data[j - p] else mem[j]
  {
    hide Blit;
    var p := off % c.ring;
    var toEnd := c.ring - p;
    if |data| <= toEnd {
      BlitAt(mem, p, data, j);
      if p < c.mirror {
        BlitAt(Blit(mem, p, data), c.ring + p, data[..Min(|data|, c.mirror - p)], j);
      }
    } else {
      var rest := data[toEnd..];
      BlitAt(mem, p, data[..toEnd], j);
      BlitAt(Blit(mem, p, data[..toEnd]), 0, rest, j);
      BlitAt(Blit(Blit(mem, p, data[..toEnd]), 0, rest), c.ring, rest[..Min(|rest|, c.mirror)], j);
    }
  }

  /** The cell of logical offset l holds v, and so does its mirror if it has one and mirrors
      count. */
  predicate Holds(c: Config, mem: seq<int>, l: nat, v: int, mirrored: bool)
    requires c.WellFormed() && |mem| == c.ring + c.mirror
  {
    var p := l % c.ring;
    mem[p] == v && (mirrored && p < c.mirror ==> mem[c.ring + p] == v)
  }

  /** The write starts in the mirrored part and goes past the ring end: its first bytes are
      then not mirrored. */
  predicate SkipsMirror(c: Config, off: nat, size: nat)
    requires c.WellFormed()
  {
    off % c.ring < c.mirror && size > c.ring - off % c.ring
  }

  /** Writes of at most ring - mirror + 1 bytes are safe at every offset, and longer ones that fit
      the ring are not. */
  lemma ShortWritesMirror(c: Config, size: nat)
    requires c.WellFormed()
    ensures size <= c.ring - c.mirror + 1 <==> forall off: nat :: !SkipsMirror(c, off, size)
  {
    if size > c.ring - c.mirror + 1 {
      assert (c.mirror - 1) % c.ring == c.mirror - 1;
      assert SkipsMirror(c, c.mirror - 1, size);
    }
  }

  lemma WrittenHolds(c: Config, mem: seq<int>, off: nat, data: seq<int>, i: nat, mirrored: bool)
    requires Fits(c, mem, data) && i < |data| && (mirrored ==> !SkipsMirror(c, off, |data|))
    ensures Holds(c, Written(c, mem, off, data), off + i, data[i], mirrored)
  {
    hide Written;
    ModStep(off, i, c.ring);
    var p := (off + i) % c.ring;
    WrittenAt(c, mem, off, data, p);
    if p < c.mirror {
      WrittenAt(c, mem, off, data, c.ring + p);
    }
  }

  /** Bytes within one ring length behind the end of the write are not touched. */
  lemma WrittenSpares(c: Config, mem: seq<int>, off: nat, data: seq<int>, l: nat, v: int, mirrored: bool)
    requires Fits(c, mem, data) && l < off && off + |data| <= l + c.ring
    requires Holds(c, mem, l, v, mirrored)
    ensures Holds(c, Written(c, mem, off, data), l, v, mirrored)
  {
    hide Written;
    ModStep(l, off - l, c.ring);
    var p := l % c.ring;
    WrittenAt(c, mem, off, data, p);
    if p < c.mirror {
      WrittenAt(c, mem, off, data, c.ring + p);
    }
  }

  /** Nor are bytes ahead of the write, less than one ring from its start. */
  lemma WrittenSparesAhead(c: Config, mem: seq<int>, off: nat, data: seq<int>, l: nat, v: int, mirrored: bool)
    requires Fits(c, mem, data) && off + |data| <= l < off + c.ring
    requires Holds(c, mem, l, v, mirrored)
    ensures Holds(c, Written(c, mem, off, data), l, v, mirrored)
  {
    hide Written;
    ModStep(off, l - off, c.ring);
    var p := l % c.ring;
    WrittenAt(c, mem, off, data, p);
    if p < c.mirror {
      WrittenAt(c, mem, off, data, c.ring + p);
    }
  }

  /** A write mirrors what it should, whatever was there before, exactly when it does not both
      start in the mirrored part and wrap. */
  lemma MirrorExact(c: Config, off: nat, size: nat)
    requires c.WellFormed() && 0 < size <= c.ring
    ensures !SkipsMirror(c, off, size) <==> AlwaysMirrors(c, off, size)
  {
    hide Written, Holds;
    if !SkipsMirror(c, off, size) {
      forall mem: seq<int>, data: seq<int>, i | Fits(c, mem, data) && |data| == size && 0 <= i < size
        ensures Holds(c, Written(c, mem, off, data), off + i, data[i], true)
      {
        WrittenHolds(c, mem, off, data, i, true);
      }
    } else {
      var mem := seq(c.ring + c.mirror, _ => 0);
      var data := seq(size, _ => 1);
      assert Fits(c, mem, data) && |data| == size;
      UnmirroredShows(c, mem, off, data);
      assert !Holds(c, Written(c, mem, off, data), off + 0, data[0], true);
    }
  }

  lemma UnmirroredShows(c: Config, mem: seq<int>, off: nat, data: seq<int>)
    requires Fits(c, mem, data) && SkipsMirror(c, off, |data|) && data[0] == 1
    requires mem[c.ring + off % c.ring] == 0
    ensures !Holds(c, Written(c, mem, off, data), off + 0, data[0], true)
  {
    hide Written;
    FirstByteUnmirrored(c, mem, off, data);
  }

  ghost predicate AlwaysMirrors(c: Config, off: nat, size: nat)
    requires c.WellFormed()
  {
    forall mem: seq<int>, data: seq<int>, i ::
      Fits(c, mem, data) && |data| == size && 0 <= i < size ==>
        Holds(c, Written(c, mem, off, data), off + i, data[i], true)
  }

  lemma FirstByteUnmirrored(c: Config, mem: seq<int>, off: nat, data: seq<int>)
    requires Fits(c, mem, data) && SkipsMirror(c, off, |data|)
    ensures Written(c, mem, off, data)[c.ring + off % c.ring] == mem[c.ring + off % c.ring]
  {
    hide Written;
    WrittenAt(c, mem, off, data, c.ring + off % c.ring);
  }

  // ----- the stream window

  /** Every byte of the stream from tail on is in the ring, and mirrored if mirrors count; None
      marks padding bytes that were never written. */
  ghost predicate Window(c: Config, mem: seq<int>, stream: seq<Option<int>>, tail: nat, mirrored: bool)
    requires c.WellFormed() && |mem| == c.ring + c.mirror
  {
    forall l :: tail <= l < |stream| && stream[l].Some? ==> Holds(c, mem, l, stream[l].value, mirrored)
  }

  function Bytes(data: seq<int>): (r: seq<Option<int>>)
    ensures |r| == |data| && forall i :: 0 <= i < |data| ==> r[i] == Some(data[i])
  {
    seq(|data|, i requires 0 <= i < |data| => Some(data[i]))
  }

  function Padding(n: nat): (r: seq<Option<int>>)
    ensures |r| == n && forall i :: 0 <= i < n ==> r[i] == None
  {
    seq(n, _ => None)
  }

  lemma WriteKeepsWindow(c: Config, mem: seq<int>, stream: seq<Option<int>>, tail: nat, data: seq<int>,
                         mirrored: bool)
    requires Fits(c, mem, data) && (mirrored ==> !SkipsMirror(c, |stream|, |data|))
    requires Window(c, mem, stream, tail, mirrored) && |stream| + |data| <= tail + c.ring
    ensures Window(c, Written(c, mem, |stream|, data), stream + Bytes(data), tail, mirrored)
  {
    hide Written, Holds, SkipsMirror;
    var mem', s' := Written(c, mem, |stream|, data), stream + Bytes(data);
    forall l | tail <= l < |s'| && s'[l].Some? ensures Holds(c, mem', l, s'[l].value, mirrored) {
      if l < |stream| {
        assert s'[l] == stream[l];
        WrittenSpares(c, mem, |stream|, data, l, stream[l].value, mirrored);
      } else {
        WrittenHolds(c, mem, |stream|, data, l - |stream|, mirrored);
      }
    }
  }

  lemma WindowWeakens(c: Config, mem: seq<int>, stream: seq<Option<int>>, tail: nat, mirrored: bool)
    requires c.WellFormed() && |mem| == c.ring + c.mirror && Window(c, mem, stream, tail, mirrored)
    ensures Window(c, mem, stream, tail, false)
  {
  }

  lemma WindowLater(c: Config, mem: seq<int>, stream: seq<Option<int>>, tail: nat, later: nat, mirrored: bool)
    requires c.WellFormed() && |mem| == c.ring + c.mirror && Window(c, mem, stream, tail, mirrored) && tail <= later
    ensures Window(c, mem, stream, later, mirrored)
  {
  }

  lemma PaddingKeepsWindow(c: Config, mem: seq<int>, stream: seq<Option<int>>, tail: nat, n: nat, mirrored: bool)
    requires c.WellFormed() && |mem| == c.ring + c.mirror && Window(c, mem, stream, tail, mirrored)
    ensures Window(c, mem, stream + Padding(n), tail, mirrored)
  {
    var s' := stream + Padding(n);
    forall l | tail <= l < |s'| && s'[l].Some? ensures Holds(c, mem, l, s'[l].value, mirrored) {
      assert s'[l] == stream[l];
    }
  }

  /** got agrees with what the stream says from offset o on. */
  ghost predicate Agrees(got: seq<int>, stream: seq<Option<int>>, o: nat) {
    && o + |got| <= |stream|
    && forall i :: 0 <= i < |got| ==> stream[o + i] in {None, Some(got[i])}
  }

  /** A straight read of n bytes from cell p stays where the stream is: in the ring, or in a
      mirror that counts. */
  predicate Covers(c: Config, p: nat, n: nat, mirrored: bool) {
    p + n <= c.ring || (mirrored && p + n <= c.ring + c.mirror)
  }

  /** A straight read; beyond is whatever memory follows the buffer. */
  function Straight(mem: seq<int>, beyond: seq<int>, p: nat, n: nat): (r: seq<int>)
    requires p + n <= |mem| + |beyond|
    ensures |r| == n
  {
    (mem + beyond)[p..p + n]
  }

  /** A straight read from the cell of o is a piece of the stream, as long as it stays in the
      window and does not overhang the ring end by more than the mirror. */
  lemma ReadIsStream(c: Config, mem: seq<int>, beyond: seq<int>, stream: seq<Option<int>>, tail: nat, o: nat, n: nat,
                     mirrored: bool)
    requires c.WellFormed() && |mem| == c.ring + c.mirror && Window(c, mem, stream, tail, mirrored)
    requires tail <= o && o + n <= |stream| <= tail + c.ring
    requires Covers(c, o % c.ring, n, mirrored)
    ensures Agrees(Straight(mem, beyond, o % c.ring, n), stream, o)
  {
    var got := Straight(mem, beyond, o % c.ring, n);
    forall i | 0 <= i < |got| ensures stream[o + i] in {None, Some(got[i])} {
      assert got[i] == mem[o % c.ring + i];
      if stream[o + i].Some? {
        assert Holds(c, mem, o + i, stream[o + i].value, mirrored);
        ModStep(o, i, c.ring);
      }
    }
  }

  lemma AgreesExtends(a: seq<int>, b: seq<int>, stream: seq<Option<int>>)
    requires Agrees(a, stream, 0) && Agrees(b, stream, |a|)
    ensures Agrees(a + b, stream, 0)
  {
    forall i | 0 <= i < |a + b| ensures stream[i] in {None, Some((a + b)[i])} {
      if i < |a| {
        assert stream[0 + i] in {None, Some(a[i])};
      } else {
        assert stream[|a| + (i - |a|)] in {None, Some(b[i - |a|])};
      }
    }
  }

  lemma AgreesGrows(a: seq<int>, stream: seq<Option<int>>, more: seq<Option<int>>, o: nat)
    requires Agrees(a, stream, o)
    ensures Agrees(a, stream + more, o)
  {
  }

  /** The unconsumed part of the stream is in the ring, and what was received agrees with it
      while every read was clean. */
  ghost predicate Kept(c: Config, mem: seq<int>, stream: seq<Option<int>>, received: seq<int>, mirrored: bool,
                       clean: bool)
  {
    && c.WellFormed() && |mem| == c.ring + c.mirror && Window(c, mem, stream, |received|, mirrored)
    && (clean ==> Agrees(received, stream, 0))
  }

  lemma KeptWritten(c: Config, mem: seq<int>, stream: seq<Option<int>>, received: seq<int>, data: seq<int>,
                    mirrored: bool, clean: bool)
    requires Kept(c, mem, stream, received, mirrored, clean) && |stream| + |data| <= |received| + c.ring
    requires |data| <= c.ring
    ensures Kept(c, Written(c, mem, |stream|, data), stream + Bytes(data), received,
                 mirrored && !SkipsMirror(c, |stream|, |data|), clean)
  {
    hide Window, Written, Agrees, SkipsMirror;
    WindowWeakens(c, mem, stream, |received|, mirrored);
    WriteKeepsWindow(c, mem, stream, |received|, data, mirrored && !SkipsMirror(c, |stream|, |data|));
    if clean {
      AgreesGrows(received, stream, Bytes(data), 0);
    }
  }

  lemma KeptPadded(c: Config, mem: seq<int>, stream: seq<Option<int>>, received: seq<int>, n: nat, mirrored: bool,
                   clean: bool)
    requires Kept(c, mem, stream, received, mirrored, clean)
    ensures Kept(c, mem, stream + Padding(n), received, mirrored, clean)
  {
    hide Window, Agrees;
    PaddingKeepsWindow(c, mem, stream, |received|, n, mirrored);
    if clean {
      AgreesGrows(received, stream, Padding(n), 0);
    }
  }

  /** The next n bytes go to the host. */
  lemma KeptTaken(c: Config, mem: seq<int>, beyond: seq<int>, stream: seq<Option<int>>, received: seq<int>, n: nat,
                  mirrored: bool, clean: bool)
    requires Kept(c, mem, stream, received, mirrored, clean)
    requires |received| + n <= |stream| <= |received| + c.ring && |received| % c.ring + n <= |mem| + |beyond|
    ensures var p := |received| % c.ring;
            var got := Straight(mem, beyond, p, n);
            && (Covers(c, p, n, mirrored) ==> Agrees(got, stream, |received|))
            && Kept(c, mem, stream, received + got, mirrored, clean && Covers(c, p, n, mirrored))
  {
    hide Window, Holds, Agrees, Straight;
    WindowLater(c, mem, stream, |received|, |received| + n, mirrored);
    if Covers(c, |received| % c.ring, n, mirrored) {
      ReadIsStream(c, mem, beyond, stream, |received|, |received|, n, mirrored);
      if clean {
        AgreesExtends(received, Straight(mem, beyond, |received| % c.ring, n), stream);
      }
    }
  }

  // ----- when the writer may go on

  /** The end of the last page of a write must be within one ring of the consumed frontier. */
  function Need(c: Config, off: nat, size: nat): int
    requires c.WellFormed()
  {
    AlignDown(off + size - 1, c.page) + c.page
  }

  predicate HasSpace(c: Config, off: nat, size: nat, tail: nat)
    requires c.WellFormed()
  {
    Need(c, off, size) <= tail + c.ring
  }

  /** A writer that waits has left the host a lot to read. */
  lemma BlockedMeansBacklog(c: Config, off: nat, size: nat, head: nat, tail: nat)
    requires c.WellFormed() && !HasSpace(c, off, size, tail) && head == AlignDown(off, c.grain)
    ensures head - tail > c.ring - size - c.page - c.grain
  {
  }

  /** The states of a ring that is not finalized, told by offset and consumed frontier: what is
      consumed was published, the last page written had space, and a ring shorter than the grain
      has published nothing. */
  predicate Admitted(c: Config, off: nat, tail: nat)
    requires c.WellFormed()
  {
    tail <= AlignDown(off, c.grain) && Need(c, off, 0) <= tail + c.ring && (tail == 0 || c.grain <= c.ring)
  }

  lemma TakeAdmitted(c: Config, off: nat, tail: nat, n: nat)
    requires c.WellFormed() && Admitted(c, off, tail) && off <= tail + c.ring && tail + n <= AlignDown(off, c.grain)
    ensures Admitted(c, off, tail + n)
  {
    if c.grain > c.ring {
      QuotientIs(off, c.grain, 0, off);
    }
  }

  /** Whatever the offsets, the writer of size bytes or a host that asks for len bytes can go
      on. */
  ghost predicate Progress(c: Config, size: nat, len: nat)
    requires c.WellFormed()
  {
    forall off: nat, tail: nat :: Admitted(c, off, tail) ==>
      HasSpace(c, off, size, tail) || tail + len <= AlignDown(off, c.grain)
  }

  /** Both wait: the writer for space, the host for bytes to be published. */
  predicate Stuck(c: Config, size: nat, len: nat, off: nat, tail: nat)
    requires c.WellFormed()
  {
    && Admitted(c, off, tail)
    && !HasSpace(c, off, size, tail) && tail + len > AlignDown(off, c.grain)
  }

  /** The pages of the longest write from a grain boundary, with the host's read, fit the ring. */
  predicate RoomForBoth(c: Config, size: nat, len: nat)
    requires c.WellFormed()
  {
    AlignDown(c.grain + size - 2, c.page) + c.page + len <= c.ring + 1
  }

  /** The two never wait for each other exactly when both fit the ring. */
  lemma ProgressExactly(c: Config, size: nat, len: nat)
    requires c.WellFormed() && c.grain % c.page == 0 && size >= 1 && len >= 1
    ensures Progress(c, size, len) <==> RoomForBoth(c, size, len)
  {
    if RoomForBoth(c, size, len) {
      forall off: nat, tail: nat | Admitted(c, off, tail)
        ensures HasSpace(c, off, size, tail) || tail + len <= AlignDown(off, c.grain)
      {
        NeedBound(c, off, size);
      }
    } else {
      var off, tail := StuckState(c, size, len);
      assert Stuck(c, size, len, off, tail);
    }
  }

  lemma NeedBound(c: Config, off: nat, size: nat)
    requires c.WellFormed() && c.grain % c.page == 0
    ensures Need(c, off, size) <= AlignDown(off, c.grain) + AlignDown(c.grain + size - 2, c.page) + c.page
  {
    var head := AlignDown(off, c.grain);
    DividesTrans(head, c.grain, c.page);
    AlignDownShift(head, off - head + size - 1, c.page);
    AlignDownMonotone(off - head + size - 1, c.grain + size - 2, c.page);
  }

  /** When they do not fit, this is a state in which both wait for ever. */
  lemma StuckState(c: Config, size: nat, len: nat) returns (off: nat, tail: nat)
    requires c.WellFormed() && c.grain % c.page == 0 && size >= 1 && len >= 1 && !RoomForBoth(c, size, len)
    ensures Stuck(c, size, len, off, tail)
  {
    if c.grain > c.ring {
      tail := 0;
      off := StuckInGrain(c, size, len);
    } else {
      off, tail := StuckAtGrain(c, size, len);
    }
  }

  /** A ring shorter than the grain fills up before anything is published. */
  lemma StuckInGrain(c: Config, size: nat, len: nat) returns (off: nat)
    requires c.WellFormed() && c.grain > c.ring && size >= 1 && len >= 1
    ensures Stuck(c, size, len, off, 0)
  {
    off := AlignDown(c.ring, c.page);
    QuotientIs(0, c.page, 0, 0);
    AlignDownMonotone(0, c.ring, c.page);
    QuotientIs(off, c.grain, 0, off);
    AlignDownShift(off, size - 1, c.page);
    AlignDownMonotone(0, size - 1, c.page);
    AlignDownShift(off, -1, c.page);
    QuotientIs(-1, c.page, -1, c.page - 1);
  }

  /** Otherwise the writer stops within the last page of a grain, and the host one byte short of
      the grain before it. */
  lemma StuckAtGrain(c: Config, size: nat, len: nat) returns (off: nat, tail: nat)
    requires c.WellFormed() && c.grain % c.page == 0 && c.grain <= c.ring
    requires size >= 1 && len >= 1 && !RoomForBoth(c, size, len)
    ensures Stuck(c, size, len, off, tail)
  {
    hide HasSpace;
    var head, r := len * c.grain, if size == 1 then c.grain - c.page else c.grain - 1;
    Monotone(1, c.grain, len);
    off := head + r;
    QuotientIs(off, c.grain, len, r);
    QuotientIs(head, c.grain, len, 0);
    NeedsAtGrain(c, size, head, r);
    tail := if head - len + 1 > Need(c, off, 0) - c.ring then head - len + 1 else Need(c, off, 0) - c.ring;
    StuckThere(c, size, len, head, off, tail);
  }

  lemma StuckThere(c: Config, size: nat, len: nat, head: nat, off: nat, tail: int)
    requires c.WellFormed() && !RoomForBoth(c, size, len) && len >= 1 && c.grain <= c.ring
    requires head == AlignDown(off, c.grain) && 0 <= head - len + 1 && Need(c, off, 0) <= head + c.ring
    requires Need(c, off, size) == head + AlignDown(c.grain + size - 2, c.page) + c.page
    requires Need(c, off, 0) < Need(c, off, size)
    requires tail == if head - len + 1 > Need(c, off, 0) - c.ring then head - len + 1 else Need(c, off, 0) - c.ring
    ensures tail >= 0 && Stuck(c, size, len, off, tail)
  {
    hide AlignDown;
  }

  lemma NeedsAtGrain(c: Config, size: nat, head: nat, r: nat)
    requires c.WellFormed() && c.grain % c.page == 0 && size >= 1 && head % c.grain == 0
    requires r == if size == 1 then c.grain - c.page else c.grain - 1
    ensures Need(c, head + r, 0) <= head + c.grain && Need(c, head + r, 0) < Need(c, head + r, size)
    ensures Need(c, head + r, size) == head + AlignDown(c.grain + size - 2, c.page) + c.page
  {
    hide AlignDown;
    DividesTrans(head, c.grain, c.page);
    AlignDownShift(head, r - 1, c.page);
    AlignDownShift(head, r + size - 1, c.page);
    if size == 1 {
      AlignDownShift(c.grain, -1, c.page);
      AlignDownShift(c.grain, 0 - c.page, c.page);
      AlignDownShift(c.grain, 0 - c.page - 1, c.page);
      AroundZero(c.page);
    } else {
      AlignDownShift(c.grain, -2, c.page);
      AlignDownShift(c.grain, size - 2, c.page);
      AlignDownMonotone(-2, -1, c.page);
      AlignDownMonotone(0, size - 2, c.page);
      AroundZero(c.page);
    }
  }

  lemma AroundZero(p: nat)
    requires p >= 1
    ensures AlignDown(0, p) == 0 && AlignDown(-1, p) == 0 - p
    ensures AlignDown(0 - p, p) == 0 - p && AlignDown(0 - p - 1, p) == 0 - p - p
  {
    QuotientIs(0, p, 0, 0);
    QuotientIs(-1, p, -1, p - 1);
    QuotientIs(0 - p, p, -1, 0);
    QuotientIs(0 - p - 1, p, -2, p - 1);
  }

  method Memcpy(mem: array<int>, at: nat, data: seq<int>)
    requires at + |data| <= mem.Length
    modifies mem
    ensures mem[..] == Blit(old(mem[..]), at, data)
  {
    forall j | 0 <= j < |data| {
      mem[at + j] := data[j];
    }
    assert mem[..] == old(mem[..])[..at] + data + old(mem[..])[at + |data|..];
  }

  class Ring {
    const c: Config
    const mem: array<int>
    var writeOff: nat
    var htHead: nat
    var htTail: nat
    var consumed: nat          // what the host has taken
    var total: nat             // 0 until the output is finalized
    var producerDone: bool
    ghost var stream: seq<Option<int>>
    ghost var received: seq<int>
    ghost var mirrored: bool   // every write so far mirrored what it should
    ghost var clean: bool      // no host read so far left the stream

    ghost predicate Sized()
    {
      c.WellFormed() && mem.Length == c.ring + c.mirror
    }

    /** The frontiers are ordered and at most one ring apart. */
    ghost predicate Ordered()
      reads this
    {
      && consumed == htTail <= htHead <= writeOff <= htTail + c.ring
      && writeOff == |stream| && consumed == |received|
      && total <= htHead
    }

    ghost predicate Published()
      reads this
      requires c.WellFormed()
    {
      if producerDone then htHead == total else total == 0 && htHead == AlignDown(writeOff, c.grain)
    }

    ghost predicate Valid()
      reads this, mem
    {
      && Sized() && Ordered() && Published() && (!producerDone ==> Admitted(c, writeOff, htTail))
      && Kept(c, mem[..], stream, received, mirrored, clean)
    }

    constructor (cfg: Config)
      requires cfg.WellFormed()
      ensures Valid() && fresh(mem) && c == cfg && stream == [] && received == [] && !producerDone
      ensures mirrored && clean
    {
      c := cfg;
      mem := new int[cfg.ring + cfg.mirror];
      writeOff, htHead, htTail, consumed, total, producerDone := 0, 0, 0, 0, 0, false;
      stream, received, mirrored, clean := [], [], true, true;
      new;
      assert AlignDown(0, c.grain) == 0;
    }

    /** The copies of one write. */
    method CopyIn(data: seq<int>)
      requires Fits(c, mem[..], data)
      modifies mem
      ensures mem[..] == Written(c, old(mem[..]), writeOff, data)
    {
      hide Blit;
      var p := writeOff % c.ring;
      var toEnd := c.ring - p;
      if |data| <= toEnd {
        Memcpy(mem, p, data);
        if p < c.mirror {
          Memcpy(mem, c.ring + p, data[..Min(|data|, c.mirror - p)]);
        }
      } else {
        Memcpy(mem, p, data[..toEnd]);
        var rest := data[toEnd..];
        Memcpy(mem, 0, rest);
        if |rest| <= c.mirror {
          assert rest[..|rest|] == rest;
          Memcpy(mem, c.ring, rest);
        } else {
          Memcpy(mem, c.ring, rest[..c.mirror]);
        }
      }
    }

    /** Publishes the produced frontier, rounded down to the grain. */
    method NotifyProduced()
      requires Sized() && Ordered()
      requires !producerDone ==> total == 0 && exists w: nat :: w <= writeOff && htHead == AlignDown(w, c.grain)
      requires producerDone ==> htHead == total
      modifies this`htHead
      ensures Ordered() && Published() && htHead >= old(htHead)
    {
      var end := AlignDown(writeOff, c.grain);
      if !producerDone {
        ghost var w: nat :| w <= writeOff && htHead == AlignDown(w, c.grain);
        AlignDownMonotone(w, writeOff, c.grain);
      }
      if !producerDone && end > htHead {
        htHead := end;
      }
    }

    /** One attempt to append data. Nothing changes while there is no space; otherwise the stream
        grows by data. The mirror stays right unless the write starts in the mirrored part and
        wraps. */
    method SetData(data: seq<int>) returns (done: bool)
      requires Valid()
      modifies this`writeOff, this`htHead, this`stream, this`mirrored, mem
      ensures Valid()
      ensures done <==> HasSpace(c, old(writeOff), |data|, htTail)
      ensures done ==> stream == old(stream) + Bytes(data)
      ensures !done ==> stream == old(stream) && htHead == old(htHead) && mem[..] == old(mem[..])
      ensures mirrored <==> old(mirrored) && (done ==> !SkipsMirror(c, old(writeOff), |data|))
    {
      hide Kept, Holds, Written, SkipsMirror, AlignDown;
      if AlignDown(writeOff + |data| - 1, c.page) + c.page > htTail + c.ring {
        return false;
      }
      KeptWritten(c, mem[..], stream, received, data, mirrored, clean);
      CopyIn(data);
      mirrored := mirrored && !SkipsMirror(c, writeOff, |data|);
      stream := stream + Bytes(data);
      writeOff := writeOff + |data|;
      NotifyProduced();
      return true;
    }

    /** Appends bytes read straight out of another ring. They are that ring's stream unless the
        read overhangs what is mirrored. */
    method SetDataFromCircular(src: Ring, o: nat, size: nat, beyond: seq<int>) returns (done: bool)
      requires src != this && src.mem != mem && Valid()
      requires src.Valid() && src.htTail <= o && o + size <= src.writeOff
      requires o % src.c.ring + size <= src.mem.Length + |beyond|
      modifies this`writeOff, this`htHead, this`stream, this`mirrored, mem
      ensures Valid() && src.Valid()
      ensures done <==> HasSpace(c, old(writeOff), size, htTail)
      ensures !done ==> stream == old(stream)
      ensures done ==> |stream| == |old(stream)| + size && stream[..|old(stream)|] == old(stream)
      ensures done && Covers(src.c, o % src.c.ring, size, src.mirrored) ==> forall l ::
        |old(stream)| <= l < |stream| ==> src.stream[l - |old(stream)| + o] in {None, stream[l]}
      ensures mirrored <==> old(mirrored) && (done ==> !SkipsMirror(c, old(writeOff), size))
    {
      hide Window, Holds, Written, SkipsMirror;
      var p := o % src.c.ring;
      var data := Straight(src.mem[..], beyond, p, size);
      if Covers(src.c, p, size, src.mirrored) {
        ReadIsStream(src.c, src.mem[..], beyond, src.stream, src.htTail, o, size, src.mirrored);
      }
      done := SetData(data);
    }

    /** Appends bytes without writing them. */
    method NotifyRange(size: nat) returns (done: bool)
      requires Valid()
      modifies this`writeOff, this`htHead, this`stream
      ensures Valid()
      ensures done <==> size == 0 || HasSpace(c, old(writeOff), size, htTail)
      ensures stream == old(stream) + if done then Padding(size) else []
    {
      hide Kept, AlignDown;
      if size == 0 {
        return true;
      }
      if AlignDown(writeOff + size - 1, c.page) + c.page > htTail + c.ring {
        return false;
      }
      KeptPadded(c, mem[..], stream, received, size, mirrored, clean);
      stream := stream + Padding(size);
      writeOff := writeOff + size;
      NotifyProduced();
      return true;
    }

    /** Ends the output: everything is published and the host learns the total. */
    method Finalize()
      requires Valid()
      modifies this`htHead, this`producerDone, this`total
      ensures Valid() && producerDone && total == htHead == |stream|
    {
      htHead := writeOff;
      producerDone := true;
      total := writeOff;
    }

    /** The answer to a host read of len bytes: whether it can be served, and how long it is
        then. */
    method CheckReady(len: nat) returns (ready: bool, n: nat)
      requires Valid()
      ensures n == if total > 0 && consumed + len > total then total - consumed else len
      ensures ready <==> (total > 0 && consumed == total) || consumed + n <= htHead
    {
      n := len;
      if total > 0 {
        if consumed >= total {
          return true, 0;
        }
        if total - consumed < len {
          n := total - consumed;
        }
      }
      ready := consumed + n <= htHead;
    }

    /** A host read at the cell of its consumed offset. What is read is the next part of the
        stream, unless the read overhangs what is mirrored. */
    method HostRead(len: nat, beyond: seq<int>) returns (ready: bool, got: seq<int>)
      requires Valid() && consumed % c.ring + len <= mem.Length + |beyond|
      modifies this`consumed, this`htTail, this`received, this`clean
      ensures Valid()
      ensures !ready ==> got == [] && received == old(received) && htTail == old(htTail)
      ensures ready ==> received == old(received) + got
      ensures ready && Covers(c, old(consumed) % c.ring, |got|, mirrored) ==> Agrees(got, stream, old(consumed))
      ensures ready ==> |got| == if total > 0 && old(consumed) + len > total then total - old(consumed) else len
      ensures ready <==> old(consumed) + len <= htHead || total > 0
      ensures clean <==> old(clean) && (ready ==> Covers(c, old(consumed) % c.ring, |got|, mirrored))
    {
      hide Window, Holds, Written, Agrees, Straight, Covers;
      var n;
      ready, n := CheckReady(len);
      if !ready {
        return false, [];
      }
      got := Take(n, beyond);
    }

    /** The next n bytes go to the host. */
    method Take(n: nat, beyond: seq<int>) returns (got: seq<int>)
      requires Valid() && consumed % c.ring + n <= mem.Length + |beyond| && consumed + n <= htHead
      modifies this`consumed, this`htTail, this`received, this`clean
      ensures Valid() && received == old(received) + got && |got| == n
      ensures Covers(c, old(consumed) % c.ring, n, mirrored) ==> Agrees(got, stream, old(consumed))
      ensures clean <==> old(clean) && Covers(c, old(consumed) % c.ring, n, mirrored)
    {
      hide Kept, Agrees, Straight, Covers, Admitted, AlignDown, Need;
      var p := consumed % c.ring;
      got := Straight(mem[..], beyond, p, n);
      KeptTaken(c, mem[..], beyond, stream, received, n, mirrored, clean);
      if !producerDone {
        TakeAdmitted(c, writeOff, htTail, n);
      }
      clean := clean && Covers(c, p, n, mirrored);
      received := received + got;
      consumed := consumed + n;
      if consumed > htTail {
        htTail := consumed;
      }
    }

    /** After Finalize a host that reads chunk bytes at a time gets the whole rest of the stream.
        Either chunk divides the ring size and the host's offset, or it overhangs by no more
        than the mirror from anywhere. */
    method Drain(chunk: nat) returns (got: seq<int>)
      requires Valid() && producerDone && chunk >= 1 && clean
      requires (c.ring % chunk == 0 && consumed % chunk == 0) || (mirrored && chunk <= c.mirror + 1)
      modifies this`consumed, this`htTail, this`received, this`clean
      ensures Valid() && clean && received == old(received) + got
      ensures |received| == total && Agrees(received, stream, 0)
    {
      got := [];
      while consumed < total
        invariant Valid() && producerDone && clean && received == old(received) + got
        invariant consumed < total ==>
          (c.ring % chunk == 0 && consumed % chunk == 0) || (mirrored && chunk <= c.mirror + 1)
        decreases total - consumed
      {
        if c.ring % chunk == 0 && consumed % chunk == 0 {
          ChunkFits(consumed, chunk, c.ring);
        }
        var ready, piece := HostRead(chunk, []);
        got := got + piece;
      }
    }

    /** With nothing left to read, the host is told the end of the data exactly when the output
        is not empty: an empty output makes it wait for ever. */
    method EndOfData(len: nat) returns (ready: bool, n: nat)
      requires Valid() && producerDone && consumed == total && len > 0
      ensures ready && n == 0 <==> total > 0
      ensures !ready <==> total == 0
    {
      ready, n := CheckReady(len);
    }
  }

  /** On the way to an admitted state the host can read or the writer can go on. */
  lemma WayOn(c: Config, w: nat, t: nat, off: nat, tail: nat)
    requires c.WellFormed() && c.grain % c.page == 0 && Admitted(c, off, tail)
    requires w <= off && t <= tail && t <= AlignDown(w, c.grain) && (w < off || t < tail)
    requires t == tail || t == AlignDown(w, c.grain)
    ensures w < off && HasSpace(c, w, 1, t)
  {
    hide AlignDown;
    if t == tail {
      AlignDownMonotone(w, off - 1, c.page);
    } else {
      NeedBound(c, w, 1);
      AlignDownShift(c.grain, -1, c.page);
      AroundZero(c.page);
    }
  }

  /** Every admitted state is one that a ring comes to, byte by byte. */
  method Reach(cfg: Config, off: nat, tail: nat) returns (r: Ring)
    requires cfg.WellFormed() && cfg.grain % cfg.page == 0 && Admitted(cfg, off, tail)
    ensures fresh(r) && fresh(r.mem) && r.Valid() && r.c == cfg && !r.producerDone
    ensures r.writeOff == off && r.htTail == tail
  {
    hide AlignDown, Need, Window, Agrees, Covers, Admitted, HasSpace;
    r := new Ring(cfg);
    while r.writeOff < off || r.htTail < tail
      invariant fresh(r) && fresh(r.mem) && r.Valid() && r.c == cfg && !r.producerDone
      invariant r.writeOff <= off && r.htTail <= tail
      decreases off - r.writeOff + (tail - r.htTail)
    {
      if r.htTail < tail && r.htTail < r.htHead {
        var ready, got := r.HostRead(1, []);
      } else {
        WayOn(cfg, r.writeOff, r.htTail, off, tail);
        var done := r.NotifyRange(1);
      }
    }
  }

  /** Every stuck state is the end of a run: then the writer and the host wait for each other, and
      neither attempt changes anything. */
  method StuckRun(cfg: Config, off: nat, tail: nat, data: seq<int>, len: nat, beyond: seq<int>)
      returns (r: Ring, done: bool, ready: bool)
    requires cfg.WellFormed() && cfg.grain % cfg.page == 0 && data != [] && 1 <= len <= cfg.mirror + |beyond|
    requires Stuck(cfg, |data|, len, off, tail)
    ensures r.Valid() && r.c == cfg && !r.producerDone && r.writeOff == off && r.htTail == tail
    ensures !done && !ready
  {
    hide AlignDown, Need, Window, Agrees, Covers;
    r := Reach(cfg, off, tail);
    done := r.SetData(data);
    var got;
    ready, got := r.HostRead(len, beyond);
  }

  lemma ChunkFits(x: nat, chunk: nat, ring: nat)
    requires chunk >= 1 && ring >= 1 && ring % chunk == 0 && x % chunk == 0
    ensures x % ring + chunk <= ring && (x + chunk) % chunk == 0
  {
    var k, q := ring / chunk, x / ring;
    assert ring == k * chunk && x == q * ring + x % ring;
    assert x == (x / chunk) * chunk;
    var j := x / chunk - q * k;
    assert x % ring == j * chunk by { assert q * ring == (q * k) * chunk; }
    if j >= k {
      Monotone(k, j, chunk);
    }
    Monotone(j + 1, k, chunk);
    assert x + chunk == (x / chunk + 1) * chunk;
    QuotientIs(x + chunk, chunk, x / chunk + 1, 0);
  }
}
