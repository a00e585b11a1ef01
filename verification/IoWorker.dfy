/** One I/O worker's table, changed in place: requests are linked in by the dispatcher, carried out and
    answered by the worker, and given back by the reclaimer. */
module IoWorker {
  import opened WorkList

  /** What has been done for the requests so far, by the numbers they got when they came in: their
      data moved, their completion posted. */
  datatype Log = Log(next: nat, carried: set<nat>, answered: set<nat>)

  /** One entry's flags say what was done for the request that is in it: its data are moved once,
      unless it is a write-back that has none, then it is answered once, and not before its time. */
  ghost predicate Told(log: Log, id: nat, copied: bool, completed: bool, writeback: bool, target: int, now: int) {
    && id < log.next
    && (copied <==> writeback || id in log.carried) && (writeback ==> id !in log.carried)
    && (completed <==> id in log.answered) && (completed ==> copied && target <= now)
  }

  /** So do the flags of all entries of a list, whose requests are different. */
  ghost predicate AllTold(log: Log, ids: seq<nat>, c: seq<int>, copied: seq<bool>, completed: seq<bool>,
                          writeback: seq<bool>, target: seq<int>, now: int)
  {
    && EachOnce(c, |ids|) && |ids| == |copied| == |completed| == |writeback| == |target|
    && (forall s :: s in log.carried || s in log.answered ==> s < log.next)
    && (forall i, j :: 0 <= i < j < |c| ==> ids[c[i]] != ids[c[j]])
    && (forall i :: 0 <= i < |c| ==>
          Told(log, ids[c[i]], copied[c[i]], completed[c[i]], writeback[c[i]], target[c[i]], now))
  }

  /** A new request, which is told to be untouched. */
  lemma ToldNew(log: Log, ids: seq<nat>, c: seq<int>, copied: seq<bool>, completed: seq<bool>, writeback: seq<bool>,
                target: seq<int>, now: int, x: int, p: nat, t: int, wb: bool)
    requires AllTold(log, ids, c, copied, completed, writeback, target, now) && CanLink(c, |ids|, p, x)
    ensures AllTold(log.(next := log.next + 1), ids[x := log.next], After(c, p, x), copied[x := wb],
                    completed[x := false], writeback[x := wb], target[x := t], now)
  {
    var d, ids' := After(c, p, x), ids[x := log.next];
    EachOnceInsert(c, |ids|, p, x);
    forall i | 0 <= i < |d| ensures d[i] == if i < p then c[i] else if i == p then x else c[i - 1] { }
    forall i, j | 0 <= i < j < |d| ensures ids'[d[i]] != ids'[d[j]] {
      if i != p && j != p {
        var i0, j0 := if i < p then i else i - 1, if j < p then j else j - 1;
        assert ids[c[i0]] != ids[c[j0]];
      }
    }
  }

  lemma NoneTold(ids: seq<nat>, copied: seq<bool>, completed: seq<bool>, writeback: seq<bool>, target: seq<int>)
    requires |ids| == |copied| == |completed| == |writeback| == |target|
    ensures AllTold(Log(0, {}, {}), ids, [], copied, completed, writeback, target, 0)
  {
  }

  lemma ToldCut(log: Log, ids: seq<nat>, c: seq<int>, copied: seq<bool>, completed: seq<bool>, writeback: seq<bool>,
                target: seq<int>, now: int, k: nat)
    requires AllTold(log, ids, c, copied, completed, writeback, target, now) && k <= |c|
    ensures AllTold(log, ids, c[k..], copied, completed, writeback, target, now)
  {
    forall i | 0 <= i < |c[k..]| ensures c[k..][i] == c[k + i] { }
  }

  lemma ToldLater(log: Log, ids: seq<nat>, c: seq<int>, copied: seq<bool>, completed: seq<bool>,
                  writeback: seq<bool>, target: seq<int>, now: int, now': int)
    requires AllTold(log, ids, c, copied, completed, writeback, target, now) && now <= now'
    ensures AllTold(log, ids, c, copied, completed, writeback, target, now')
  {
  }

  /** What a visit of the worker does to the log: data that have not been moved are moved, and a
      request that is due is answered, unless it was. */
  ghost function Visited(log: Log, id: nat, copied: bool, completed: bool, target: int, now: int): Log {
    if completed then log
    else
      log.(carried := if copied then log.carried else log.carried + {id},
           answered := if target <= now then log.answered + {id} else log.answered)
  }

  lemma ToldVisited(log: Log, ids: seq<nat>, c: seq<int>, copied: seq<bool>, completed: seq<bool>,
                    writeback: seq<bool>, target: seq<int>, now: int, i: nat)
    requires AllTold(log, ids, c, copied, completed, writeback, target, now) && i < |c|
    ensures var x := c[i];
            AllTold(Visited(log, ids[x], copied[x], completed[x], target[x], now), ids, c, copied[x := true],
                    completed[x := target[x] <= now], writeback, target, now)
    ensures completed[c[i]] ==> copied[c[i]] && target[c[i]] <= now
    ensures !copied[c[i]] ==> ids[c[i]] !in log.carried
    ensures !completed[c[i]] ==> ids[c[i]] !in log.answered
  {
    assert Told(log, ids[c[i]], copied[c[i]], completed[c[i]], writeback[c[i]], target[c[i]], now);
    forall j | 0 <= j < |c| && j != i ensures ids[c[j]] != ids[c[i]] && c[j] != c[i] {
      if j < i {
        assert ids[c[j]] != ids[c[i]];
      } else {
        assert ids[c[i]] != ids[c[j]];
      }
    }
  }

  class Worker {
    const n: nat
    const next: array<int>
    const prev: array<int>
    const target: array<int>      // time at which a request completes
    const copied: array<bool>     // its data have been moved
    const completed: array<bool>  // its completion has been posted
    const writeback: array<bool>  // it has no data to move
    var ioSeq: int
    var ioEnd: int
    var freeSeq: int
    var freeEnd: int
    var now: int                 // the worker's clock
    ghost var io: seq<int>
    ghost var free: seq<int>
    ghost var ids: seq<nat>       // the number of the request in each entry
    ghost var log: Log

    ghost predicate Shape() {
      && next.Length == n && prev.Length == n && target.Length == n
      && copied.Length == n && completed.Length == n && writeback.Length == n
      && next != prev && next != target && prev != target
      && copied != completed && copied != writeback && completed != writeback
    }

    ghost predicate Tells()
      reads this, copied, completed, writeback, target
    {
      |ids| == n && AllTold(log, ids, io, copied[..], completed[..], writeback[..], target[..], now)
    }

    ghost predicate Heads()
      reads this
    {
      && free != [] && freeSeq == free[0] && freeEnd == free[|free| - 1]
      && ioSeq == (if io == [] then NIL else io[0]) && (io != [] ==> ioEnd == io[|io| - 1])
    }

    ghost predicate Valid()
      reads this, next, prev, target, copied, completed, writeback
    {
      && Shape() && Heads() && Tells() && Splits(free, io, n)
      && Threads(next[..], prev[..], io, true) && Threads(next[..], prev[..], free, false)
      && InOrder(target[..], io, now)
    }

    constructor (size: nat)
      requires size >= 1
      ensures Valid() && n == size && io == [] && free == seq(size, i => i) && now == 0
      ensures fresh(next) && fresh(prev) && fresh(target) && fresh(copied) && fresh(completed) && fresh(writeback)
      ensures log == Log(0, {}, {})
    {
      hide Threads, Splits, InOrder, AllTold, EachOnce, Follower;
      n := size;
      next := new int[size](i => if i + 1 < size then i + 1 else NIL);
      prev := new int[size](i => var j: int := i; j - 1);
      target := new int[size](_ => 0);
      copied := new bool[size](_ => false);
      completed := new bool[size](_ => false);
      writeback := new bool[size](_ => false);
      ids, log := seq(size, _ => 0), Log(0, {}, {});
      freeSeq, freeEnd, ioSeq, ioEnd, now := 0, size - 1, NIL, NIL, 0;
      io, free := [], seq(size, i => i);
      new;
      AllFree(next[..], prev[..], target[..], size);
      NoneTold(ids, copied[..], completed[..], writeback[..], target[..]);
    }

    /** The clock moves on; the order stays. */
    method Advance(t: int)
      requires Valid() && t >= now
      modifies this`now
      ensures Valid() && now == t
    {
      hide Splits, AllTold, InOrder;
      ClockKeepsOrder(target[..], io, now, t);
      ToldLater(log, ids, io, copied[..], completed[..], writeback[..], target[..], now, t);
      now := t;
    }

    /** Walks back from the end to the request behind which one due at t belongs. */
    method FindPlace(t: int) returns (curr: int, ghost p: nat)
      requires Valid() && io != []
      ensures Slot(target[..], io, now, t, p) && curr == (if p == 0 then NIL else io[p - 1])
    {
      hide AllTold, Splits, Follower, InOrder;
      curr, p := ioEnd, |io|;
      while curr != NIL
        invariant p <= |io| && curr == (if p == 0 then NIL else io[p - 1])
        invariant forall i :: p <= i < |io| ==> target[..][io[i]] > now && target[..][io[i]] > t
        decreases p
      {
        if target[curr] <= now {
          break;
        }
        if target[curr] <= t {
          break;
        }
        curr := prev[curr];
        p := p - 1;
      }
    }

    /** Links entry x in behind curr, or in front. */
    method LinkIn(x: int, curr: int, ghost p: nat)
      requires Shape() && CanLink(io, n, p, x) && Threads(next[..], prev[..], io, true)
      requires ioSeq == (if io == [] then NIL else io[0]) && (io != [] ==> ioEnd == io[|io| - 1])
      requires curr == (if p == 0 then NIL else io[p - 1])
      modifies this`io, this`ioSeq, this`ioEnd, next, prev
      ensures io == After(old(io), p, x)
      ensures next[..] == LinkedNext(old(next[..]), old(io), p, x)
      ensures prev[..] == LinkedPrev(old(prev[..]), old(io), p, x)
      ensures io != [] && ioSeq == io[0] && ioEnd == io[|io| - 1]
    {
      hide Threads, EachOnce;
      Neighbours(next[..], prev[..], io, p, x);
      ghost var next', prev' := LinkedNext(next[..], io, p, x), LinkedPrev(prev[..], io, p, x);
      prev[x] := NIL;
      next[x] := NIL;
      if ioSeq == NIL {
        ioSeq := x;
        ioEnd := x;
      } else if curr == NIL {
        prev[ioSeq] := x;
        next[x] := ioSeq;
        ioSeq := x;
      } else if next[curr] == NIL {
        prev[x] := curr;
        ioEnd := x;
        next[curr] := x;
      } else {
        prev[x] := curr;
        next[x] := next[curr];
        prev[next[x]] := x;
        next[curr] := x;
      }
      assert next[..] == next' && prev[..] == prev';
      io := After(io, p, x);
    }

    /** Takes an entry for a request due at t, unless it would be the last free one, and puts it
        where it comes due. Nothing has been done for it yet, but that a write-back has no data to
        move. */
    method Enqueue(t: int, wb: bool) returns (ok: bool)
      requires Valid()
      modifies this`io, this`free, this`ioSeq, this`ioEnd, this`freeSeq, this`ids, this`log, next, prev, target,
               copied, completed, writeback
      ensures Valid()
      ensures ok <==> |old(free)| > 1
      ensures !ok ==> io == old(io) && free == old(free) && log == old(log)
      ensures ok ==> log == old(log).(next := old(log.next) + 1) && ids == old(ids)[old(free)[0] := old(log.next)]
      ensures ok ==> copied[..] == old(copied[..])[old(free)[0] := wb]
      ensures ok ==> completed[..] == old(completed[..])[old(free)[0] := false]
      ensures ok ==> writeback[..] == old(writeback[..])[old(free)[0] := wb]
      ensures ok ==> free == old(free)[1..] && target[..] == old(target[..])[old(free)[0] := t]
      ensures ok ==> exists p :: Slot(old(target[..]), old(io), now, t, p) && io == After(old(io), p, old(free)[0])
    {
      hide Threads, Splits, InOrder, Slot, LinkedNext, LinkedPrev, CanLink, After, AllTold;
      FreeTail(next[..], prev[..], free);
      var x := freeSeq;
      if next[x] == NIL {
        return false;
      }
      var curr := NIL;
      ghost var p := 0;
      EmptySlot(target[..], io, now, t);
      HeadIsEntry(next[..], prev[..], io);
      if ioSeq != NIL {
        curr, p := FindPlace(t);
      }
      SlotBound(target[..], io, now, t, p);
      Taken(next[..], prev[..], free, io, n, p);
      PlaceKeepsOrder(target[..], io, now, x, t, p);
      ToldNew(log, ids, io, copied[..], completed[..], writeback[..], target[..], now, x, p, t, wb);
      freeSeq := next[x];
      free := free[1..];
      Fill(x, t, wb);
      LinkIn(x, curr, p);
      return true;
    }

    /** What is put down about a new request in entry x. */
    method Fill(x: int, t: int, wb: bool)
      requires Shape() && 0 <= x < n && |ids| == n
      modifies this`ids, this`log, target, copied, completed, writeback
      ensures target[..] == old(target[..])[x := t] && copied[..] == old(copied[..])[x := wb]
      ensures completed[..] == old(completed[..])[x := false] && writeback[..] == old(writeback[..])[x := wb]
      ensures ids == old(ids)[x := old(log.next)] && log == old(log).(next := old(log.next) + 1)
    {
      target[x] := t;
      completed[x] := false;
      copied[x] := wb;
      writeback[x] := wb;
      ids, log := ids[x := log.next], log.(next := log.next + 1);
    }

    /** The data of request x are moved, by whatever means. */
    method MoveData(x: int)
      requires Shape() && 0 <= x < n && |ids| == n && ids[x] !in log.carried
      modifies this`log
      ensures log == old(log).(carried := old(log.carried) + {ids[x]})
    {
      log := log.(carried := log.carried + {ids[x]});
    }

    /** The completion of request x is posted. */
    method PostCompletion(x: int)
      requires Shape() && 0 <= x < n && |ids| == n && ids[x] !in log.answered
      modifies this`log
      ensures log == old(log).(answered := old(log.answered) + {ids[x]})
    {
      log := log.(answered := log.answered + {ids[x]});
    }

    /** The worker comes to request x. */
    method Visit(x: int, ghost i: nat)
      requires Valid() && i < |io| && x == io[i] && 0 <= x < n && |ids| == n
      modifies this`log, copied, completed
      ensures Valid()
      ensures log == Visited(old(log), ids[x], old(copied[x]), old(completed[x]), target[x], now)
      ensures copied[..] == old(copied[..])[x := true] && completed[..] == old(completed[..])[x := target[x] <= now]
    {
      hide Threads, Splits, InOrder, AllTold;
      ToldVisited(log, ids, io, copied[..], completed[..], writeback[..], target[..], now, i);
      if completed[x] {
        assert copied[..] == copied[..][x := true] && completed[..] == completed[..][x := target[x] <= now];
        return;
      }
      if !copied[x] {
        MoveData(x);
        copied[x] := true;
      }
      if target[x] <= now {
        PostCompletion(x);
        completed[x] := true;
      }
      assert copied[..] == old(copied[..])[x := true];
      assert completed[..] == old(completed[..])[x := target[x] <= now];
    }

    /** One turn of the worker through its list at time t: afterwards the data of all requests are
        moved, and those that are due are answered, and no others. */
    method Scan(t: int)
      requires Valid() && t >= now
      modifies this`now, this`log, copied, completed
      ensures Valid() && now == (if io == [] then old(now) else t)
      ensures forall i :: 0 <= i < |io| ==>
        0 <= io[i] < n && copied[io[i]] && (completed[io[i]] <==> target[io[i]] <= now)
    {
      hide Threads, Splits, InOrder, AllTold, Follower;
      Entries(next[..], prev[..], io);
      var curr := ioSeq;
      if curr != NIL {
        Advance(t);
      }
      ghost var k := 0;
      while curr != NIL
        invariant k <= |io| && curr == (if k < |io| then io[k] else NIL)
        invariant Valid() && now == (if io == [] then old(now) else t)
        invariant forall i :: 0 <= i < k ==> copied[io[i]] && (completed[io[i]] <==> target[io[i]] <= now)
        decreases |io| - k
      {
        NextOf(next[..], prev[..], io, k);
        Visit(curr, k);
        curr := next[curr];
        k := k + 1;
      }
    }

    ghost predicate Reclaimable(x: int)
      reads this, target, copied, completed
      requires Shape() && 0 <= x < n
    {
      completed[x] && copied[x] && target[x] <= now
    }

    /** How many requests at the front can go. */
    method CountReclaimable() returns (last: int, after: int, ghost k: nat)
      requires Valid()
      ensures k <= |io| && (forall i :: 0 <= i < |io| ==> 0 <= io[i] < n)
      ensures last == (if k == 0 then NIL else io[k - 1]) && after == (if k < |io| then io[k] else NIL)
      ensures forall i :: 0 <= i < k ==> Reclaimable(io[i])
      ensures k < |io| ==> !Reclaimable(io[k])
    {
      hide Splits, InOrder, Follower, AllTold;
      last, after, k := NIL, ioSeq, 0;
      while after != NIL
        invariant k <= |io| && last == (if k == 0 then NIL else io[k - 1]) && after == (if k < |io| then io[k] else NIL)
        invariant forall i :: 0 <= i < k ==> Reclaimable(io[i])
        decreases |io| - k
      {
        if completed[after] && copied[after] && target[after] <= now {
          assert next[..][io[k]] == Follower(io, k);
          FollowerIs(io, k);
          last := after;
          after := next[after];
          k := k + 1;
        } else {
          break;
        }
      }
    }

    /** Moves the requests at the front that are finished and due to the end of the free list. They
        have all been answered, and their data moved. */
    method Reclaim() returns (ghost k: nat)
      requires Valid()
      modifies this`io, this`free, this`ioSeq, this`freeEnd, next, prev
      ensures Valid() && k <= |old(io)|
      ensures (forall i :: 0 <= i < |old(io)| ==> 0 <= old(io)[i] < n)
      ensures io == old(io)[k..] && free == old(free) + old(io)[..k]
      ensures forall i :: 0 <= i < k ==> Reclaimable(old(io)[i])
      ensures k < |old(io)| ==> !Reclaimable(old(io)[k])
      ensures |ids| == n && forall i :: 0 <= i < k ==>
        ids[old(io)[i]] in log.answered && (writeback[old(io)[i]] || ids[old(io)[i]] in log.carried)
    {
      hide Threads, Splits, InOrder, CutNext, CutPrev, AllTold;
      var first := ioSeq;
      var last, after;
      HeadIsEntry(next[..], prev[..], io);
      last, after, k := CountReclaimable();
      ToldMeans(log, ids, io, copied[..], completed[..], writeback[..], target[..], now);
      ToldCut(log, ids, io, copied[..], completed[..], writeback[..], target[..], now, k);
      if last != NIL {
        CutThreads(next[..], prev[..], free, io, n, k);
        CutKeepsOrder(target[..], io, now, k);
        CutBack(last, first, k);
        io, free := io[k..], free + io[..k];
      } else {
        assert io[0..] == io && free + io[..0] == free;
      }
    }

    /** Unlinks the requests from first to last and links them to the end of the free list. */
    method CutBack(last: int, first: int, ghost k: nat)
      requires Shape() && Heads() && CanCut(next[..], prev[..], free, io, n, k) && last == io[k - 1] && first == io[0]
      modifies this`ioSeq, this`freeEnd, next, prev
      ensures next[..] == CutNext(old(next[..]), old(prev[..]), free, io, n, k)
      ensures prev[..] == CutPrev(old(next[..]), old(prev[..]), free, io, n, k)
      ensures ioSeq == (if k < |io| then io[k] else NIL) && freeEnd == io[k - 1]
    {
      hide Follower;
      assert next[..][io[k - 1]] == Follower(io, k - 1);
      FollowerIs(io, k - 1);
      ioSeq := next[last];
      if next[last] != NIL {
        prev[next[last]] := NIL;
      }
      next[last] := NIL;
      prev[first] := freeEnd;
      next[freeEnd] := first;
      freeEnd := last;
    }

    /** A turn of the worker and then of the reclaimer: every request that is due is given back, and
        only those. */
    method Turn(t: int)
      requires Valid() && t >= now
      modifies this`now, this`log, this`io, this`free, this`ioSeq, this`freeEnd, next, prev, copied, completed
      ensures Valid() && (forall i :: 0 <= i < |io| ==> 0 <= io[i] < n && target[io[i]] > now)
      ensures exists k :: 0 <= k <= |old(io)| && io == old(io)[k..] && free == old(free) + old(io)[..k]
                && forall i :: 0 <= i < k ==> 0 <= old(io)[i] < n && target[old(io)[i]] <= now
    {
      hide Threads, Splits, AllTold, InOrder;
      Scan(t);
      ghost var k := Reclaim();
      LaterRest(target[..], old(io), now, k);
    }
  }

  /** Behind a request that is not due none is. */
  lemma LaterRest(target: seq<int>, c: seq<int>, now: int, k: nat)
    requires InOrder(target, c, now) && k <= |c|
    ensures forall i :: 0 <= i < |c| ==> 0 <= c[i] < |target|
    ensures k < |c| && target[c[k]] > now ==> forall i :: k <= i < |c| ==> target[c[i]] > now
  {
    if k < |c| && target[c[k]] > now {
      forall i | k < i < |c| ensures target[c[i]] > now {
        assert Due(target[c[k]], now) <= Due(target[c[i]], now);
      }
    }
  }

  lemma ToldMeans(log: Log, ids: seq<nat>, c: seq<int>, copied: seq<bool>, completed: seq<bool>, writeback: seq<bool>,
                  target: seq<int>, now: int)
    requires AllTold(log, ids, c, copied, completed, writeback, target, now)
    ensures |ids| == |completed| == |writeback|
    ensures forall i :: 0 <= i < |c| ==> 0 <= c[i] < |ids|
    ensures forall i :: 0 <= i < |c| && completed[c[i]] ==>
              ids[c[i]] in log.answered && (writeback[c[i]] || ids[c[i]] in log.carried)
  {
  }

  lemma Entries(next: seq<int>, prev: seq<int>, c: seq<int>)
    requires Threads(next, prev, c, true)
    ensures forall i :: 0 <= i < |c| ==> 0 <= c[i] < |next|
    ensures forall i, j :: 0 <= i < j < |c| ==> c[i] != c[j]
  {
    hide Follower;
  }

  lemma NextOf(next: seq<int>, prev: seq<int>, c: seq<int>, k: nat)
    requires Threads(next, prev, c, true)
    ensures k < |c| ==> 0 <= c[k] < |next| && next[c[k]] == if k + 1 < |c| then c[k + 1] else NIL
  {
    if k < |c| {
      assert next[c[k]] == Follower(c, k);
    }
  }

  lemma FreeTail(next: seq<int>, prev: seq<int>, f: seq<int>)
    requires Threads(next, prev, f, false) && f != []
    ensures 0 <= f[0] < |next| && (next[f[0]] == NIL <==> |f| == 1)
    ensures Threads(next, prev, f[1..], false) && (|f| > 1 ==> next[f[0]] == f[1])
  {
    hide Follower;
    var d := f[1..];
    forall i | 0 <= i < |d| ensures d[i] == f[i + 1] && Follower(d, i) == Follower(f, i + 1) {
      FollowerIs(d, i);
      FollowerIs(f, i + 1);
    }
    assert next[f[0]] == Follower(f, 0);
    FollowerIs(f, 0);
  }

  lemma EmptySlot(target: seq<int>, c: seq<int>, now: int, t: int)
    ensures c == [] ==> Slot(target, c, now, t, 0)
  {
  }

  lemma HeadIsEntry(next: seq<int>, prev: seq<int>, c: seq<int>)
    requires Threads(next, prev, c, true)
    ensures c != [] ==> c[0] != NIL
  {
  }

  lemma SlotBound(target: seq<int>, c: seq<int>, now: int, t: int, p: nat)
    requires Slot(target, c, now, t, p)
    ensures p <= |c|
  {
  }

  lemma PlaceKeepsOrder(target: seq<int>, c: seq<int>, now: int, x: int, t: int, p: nat)
    requires InOrder(target, c, now) && CanLink(c, |target|, p, x) && Slot(target, c, now, t, p)
    ensures InOrder(target[x := t], After(c, p, x), now)
  {
    InsertKeepsOrder(target, c, now, x, t, p);
  }

  /** Everything about the links that taking the first free entry for position p changes. */
  lemma Taken(next: seq<int>, prev: seq<int>, f: seq<int>, c: seq<int>, n: nat, p: nat)
    requires Splits(f, c, n) && f != [] && p <= |c| && |next| == |prev| == n
    requires Threads(next, prev, c, true) && Threads(next, prev, f, false)
    ensures CanLink(c, n, p, f[0]) && Splits(f[1..], After(c, p, f[0]), n)
    ensures var next', prev' := LinkedNext(next, c, p, f[0]), LinkedPrev(prev, c, p, f[0]);
            Threads(next', prev', After(c, p, f[0]), true) && Threads(next', prev', f[1..], false)
  {
    hide Follower;
    SplitsMoveIn(f, c, n, p);
    LinkingThreads(next, prev, c, p, f[0]);
    FreeTail(next, prev, f);
    var next', prev' := LinkedNext(next, c, p, f[0]), LinkedPrev(prev, c, p, f[0]);
    forall i | 0 <= i < |f[1..]| ensures next'[f[1..][i]] == next[f[1..][i]] && prev'[f[1..][i]] == prev[f[1..][i]] {
      assert f[1..][i] in f && f[1..][i] != f[0];
    }
    ThreadsFrame(next, prev, next', prev', f[1..], false);
  }

  lemma AllFree(next: seq<int>, prev: seq<int>, target: seq<int>, n: nat)
    requires n >= 1 && |next| == |prev| == n
    requires forall i :: 0 <= i < n ==> next[i] == (if i + 1 < n then i + 1 else NIL) && prev[i] == i - 1
    ensures Threads(next, prev, seq(n, i => i), false) && Splits(seq(n, i => i), [], n)
    ensures Threads(next, prev, [], true) && InOrder(target, [], 0)
  {
    var f: seq<int> := seq(n, i => i);
    forall x | 0 <= x < n ensures x in f {
      assert f[x] == x;
    }
    hide Follower;
    forall i | 0 <= i < n ensures f[i] == i && next[f[i]] == Follower(f, i) {
      FollowerIs(f, i);
    }
  }
}
