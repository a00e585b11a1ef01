/** The work list of an I/O worker: one table of entries, threaded by next and prev into a list of
    free entries and a list of requests in order of their target time. */
module WorkList {

  const NIL: int := -1

  /** Entries of a chain are table indices, each once. */
  predicate EachOnce(c: seq<int>, n: nat) {
    && (forall i :: 0 <= i < |c| ==> 0 <= c[i] < n)
    && (forall i, j :: 0 <= i < j < |c| ==> c[i] != c[j])
  }

  /** next and prev thread the chain. The prev of a chain's first entry is NIL in the request list
      and unspecified in the free list. */
  function Follower(c: seq<int>, i: nat): int {
    if i + 1 < |c| then c[i + 1] else NIL
  }

  lemma FollowerIs(c: seq<int>, i: nat)
    ensures Follower(c, i) == if i + 1 < |c| then c[i + 1] else NIL
  {
  }

  ghost predicate Threads(next: seq<int>, prev: seq<int>, c: seq<int>, closed: bool) {
    && |next| == |prev| && EachOnce(c, |next|)
    && (forall i :: 0 <= i < |c| ==> next[c[i]] == Follower(c, i))
    && (forall i :: 0 < i < |c| ==> prev[c[i]] == c[i - 1])
    && (closed && |c| > 0 ==> prev[c[0]] == NIL)
  }

  function After(c: seq<int>, p: nat, x: int): seq<int>
    requires p <= |c|
  {
    c[..p] + [x] + c[p..]
  }

  /** Changing links of entries outside a chain leaves it threaded. */
  lemma ThreadsFrame(next: seq<int>, prev: seq<int>, next': seq<int>, prev': seq<int>, c: seq<int>, closed: bool)
    requires Threads(next, prev, c, closed) && |next'| == |next| && |prev'| == |prev|
    requires forall i :: 0 <= i < |c| ==> next'[c[i]] == next[c[i]] && prev'[c[i]] == prev[c[i]]
    ensures Threads(next', prev', c, closed)
  {
    hide Follower;
  }

  lemma EachOnceInsert(c: seq<int>, n: nat, p: nat, x: int)
    requires EachOnce(c, n) && p <= |c| && 0 <= x < n && x !in c
    ensures EachOnce(After(c, p, x), n)
  {
    var d := After(c, p, x);
    forall i, j | 0 <= i < j < |d| ensures d[i] != d[j] {
      assert i < p ==> d[i] == c[i];
      assert i > p ==> d[i] == c[i - 1];
      assert j < p ==> d[j] == c[j];
      assert j > p ==> d[j] == c[j - 1];
    }
  }

  /** Linking x in behind position p - 1 of the request list. */
  lemma ThreadsInsert(next: seq<int>, prev: seq<int>, c: seq<int>, p: nat, x: int, next': seq<int>, prev': seq<int>)
    requires Threads(next, prev, c, true) && p <= |c| && 0 <= x < |next| && x !in c
    requires |next'| == |next| && |prev'| == |prev|
    requires next'[x] == (if p < |c| then c[p] else NIL) && prev'[x] == (if p > 0 then c[p - 1] else NIL)
    requires forall i :: 0 <= i < |c| ==> next'[c[i]] == if i + 1 == p then x else next[c[i]]
    requires forall i :: 0 <= i < |c| ==> prev'[c[i]] == if i == p then x else prev[c[i]]
    ensures Threads(next', prev', After(c, p, x), true)
  {
    hide Follower;
    var d := After(c, p, x);
    EachOnceInsert(c, |next|, p, x);
    forall i | 0 <= i < |d| ensures next'[d[i]] == Follower(d, i) {
      InsertNext(next, prev, c, p, x, next', i);
    }
    forall i | 0 < i < |d| ensures prev'[d[i]] == d[i - 1] {
      if i < p {
        assert d[i] == c[i] && d[i - 1] == c[i - 1];
      } else if i > p {
        assert d[i] == c[i - 1] && (i - 1 > p ==> d[i - 1] == c[i - 2]);
      } else {
        assert d[i] == x && d[i - 1] == c[p - 1];
      }
    }
    if p > 0 {
      assert d[0] == c[0];
    }
  }

  lemma InsertNext(next: seq<int>, prev: seq<int>, c: seq<int>, p: nat, x: int, next': seq<int>, i: nat)
    requires Threads(next, prev, c, true) && p <= |c| && 0 <= x < |next| == |next'| && x !in c && i <= |c|
    requires next'[x] == if p < |c| then c[p] else NIL
    requires forall j :: 0 <= j < |c| ==> next'[c[j]] == if j + 1 == p then x else next[c[j]]
    ensures 0 <= After(c, p, x)[i] < |next| && next'[After(c, p, x)[i]] == Follower(After(c, p, x), i)
  {
    hide Follower;
    var d := After(c, p, x);
    FollowerIs(d, i);
    if i < p {
      FollowerIs(c, i);
      assert d[i] == c[i] && (i + 1 < p ==> d[i + 1] == c[i + 1]) && next[c[i]] == Follower(c, i);
    } else if i > p {
      FollowerIs(c, i - 1);
      assert d[i] == c[i - 1] && (i + 1 < |d| ==> d[i + 1] == c[i]) && next[c[i - 1]] == Follower(c, i - 1);
    } else {
      assert d[i] == x && (i + 1 < |d| ==> d[i + 1] == c[p]);
    }
  }

  predicate CanLink(c: seq<int>, n: nat, p: nat, x: int) {
    EachOnce(c, n) && p <= |c| && 0 <= x < n && x !in c
  }

  /** The links after x has been put at position p. */
  function LinkedNext(next: seq<int>, c: seq<int>, p: nat, x: int): seq<int>
    requires CanLink(c, |next|, p, x)
  {
    var n1 := next[x := if p < |c| then c[p] else NIL];
    if p > 0 then n1[c[p - 1] := x] else n1
  }

  function LinkedPrev(prev: seq<int>, c: seq<int>, p: nat, x: int): seq<int>
    requires CanLink(c, |prev|, p, x)
  {
    var p1 := prev[x := if p > 0 then c[p - 1] else NIL];
    if p < |c| then p1[c[p] := x] else p1
  }

  lemma Neighbours(next: seq<int>, prev: seq<int>, c: seq<int>, p: nat, x: int)
    requires Threads(next, prev, c, true) && CanLink(c, |next|, p, x)
    ensures p > 0 ==> 0 <= c[p - 1] < |next| && c[p - 1] != x && next[c[p - 1]] == if p < |c| then c[p] else NIL
    ensures p < |c| ==> 0 <= c[p] < |next| && c[p] != x
    ensures c != [] ==> c[0] != NIL
  {
    hide Follower;
    if p > 0 {
      assert next[c[p - 1]] == Follower(c, p - 1);
      FollowerIs(c, p - 1);
    }
  }

  lemma LinkingThreads(next: seq<int>, prev: seq<int>, c: seq<int>, p: nat, x: int)
    requires Threads(next, prev, c, true) && CanLink(c, |next|, p, x)
    ensures Threads(LinkedNext(next, c, p, x), LinkedPrev(prev, c, p, x), After(c, p, x), true)
    ensures forall y :: 0 <= y < |next| && y !in c && y != x ==>
              LinkedNext(next, c, p, x)[y] == next[y] && LinkedPrev(prev, c, p, x)[y] == prev[y]
  {
    hide Follower;
    ThreadsInsert(next, prev, c, p, x, LinkedNext(next, c, p, x), LinkedPrev(prev, c, p, x));
  }

  /** Cutting off the first k entries. */
  lemma ThreadsCut(next: seq<int>, prev: seq<int>, c: seq<int>, k: nat, prev': seq<int>, next': seq<int>)
    requires Threads(next, prev, c, true) && k <= |c| && |next'| == |next| && |prev'| == |prev|
    requires forall i :: k <= i < |c| ==> next'[c[i]] == next[c[i]] && prev'[c[i]] == if i == k then NIL else prev[c[i]]
    ensures Threads(next', prev', c[k..], true)
  {
    hide Follower;
    var d := c[k..];
    assert forall i :: 0 <= i < |d| ==> d[i] == c[k + i];
    forall i | 0 <= i < |d| ensures Follower(d, i) == Follower(c, k + i) {
      FollowerIs(d, i);
      FollowerIs(c, k + i);
    }
  }

  /** Appending the cut-off part to the free list. */
  lemma ThreadsAppend(next: seq<int>, prev: seq<int>, f: seq<int>, c: seq<int>, k: nat,
                      next': seq<int>, prev': seq<int>)
    requires Threads(next, prev, f, false) && Threads(next, prev, c, true) && f != [] && 0 < k <= |c|
    requires EachOnce(f + c[..k], |next|)
    requires |next'| == |next| && |prev'| == |prev|
    requires forall i :: 0 <= i < |f| ==> next'[f[i]] == (if i == |f| - 1 then c[0] else next[f[i]])
    requires forall i :: 0 <= i < |f| ==> prev'[f[i]] == prev[f[i]]
    requires forall i :: 0 <= i < k ==> next'[c[i]] == (if i == k - 1 then NIL else next[c[i]])
    requires forall i :: 0 <= i < k ==> prev'[c[i]] == (if i == 0 then f[|f| - 1] else prev[c[i]])
    ensures Threads(next', prev', f + c[..k], false)
  {
    hide Follower;
    var d := f + c[..k];
    forall i | 0 <= i < |d| ensures next'[d[i]] == Follower(d, i) {
      FollowerIs(d, i);
      FollowerIs(f, i);
      if i >= |f| {
        FollowerIs(c, i - |f|);
      }
      if i < |f| {
        assert d[i] == f[i] && next[f[i]] == Follower(f, i);
      } else {
        var j := i - |f|;
        assert d[i] == c[j] && next[c[j]] == Follower(c, j);
      }
    }
    forall i | 0 < i < |d| ensures prev'[d[i]] == d[i - 1] {
      if i < |f| {
        assert d[i] == f[i] && d[i - 1] == f[i - 1];
      } else {
        var j := i - |f|;
        assert d[i] == c[j] && (j > 0 ==> d[i - 1] == c[j - 1]);
      }
    }
  }

  // ----- order in time

  function Due(t: int, now: int): int {
    if t > now then t else now
  }

  /** Requests in the order in which they come due; those already due are all alike. */
  predicate InOrder(target: seq<int>, c: seq<int>, now: int) {
    && EachOnce(c, |target|)
    && forall i, j :: 0 <= i < j < |c| ==> Due(target[c[i]], now) <= Due(target[c[j]], now)
  }

  /** Time passing keeps the order. */
  lemma ClockKeepsOrder(target: seq<int>, c: seq<int>, now: int, now': int)
    requires InOrder(target, c, now) && now <= now'
    ensures InOrder(target, c, now')
  {
  }

  /** p is where the scan from the end stops for a request due at t. */
  predicate Slot(target: seq<int>, c: seq<int>, now: int, t: int, p: nat) {
    && p <= |c| && EachOnce(c, |target|)
    && (forall i :: p <= i < |c| ==> target[c[i]] > now && target[c[i]] > t)
    && (p > 0 ==> target[c[p - 1]] <= now || target[c[p - 1]] <= t)
  }

  lemma InsertKeepsOrder(target: seq<int>, c: seq<int>, now: int, x: int, t: int, p: nat)
    requires InOrder(target, c, now) && 0 <= x < |target| && x !in c && Slot(target, c, now, t, p)
    ensures InOrder(target[x := t], After(c, p, x), now)
  {
    var d, tg := After(c, p, x), target[x := t];
    EachOnceInsert(c, |target|, p, x);
    assert forall i :: 0 <= i < |c| ==> tg[c[i]] == target[c[i]];
    forall i, j | 0 <= i < j < |d| ensures Due(tg[d[i]], now) <= Due(tg[d[j]], now) {
      assert i < p ==> d[i] == c[i];
      assert i > p ==> d[i] == c[i - 1];
      assert j < p ==> d[j] == c[j];
      assert j > p ==> d[j] == c[j - 1];
      assert p > 0 && i < p ==> Due(target[c[i]], now) <= Due(target[c[p - 1]], now);
    }
  }

  lemma CutKeepsOrder(target: seq<int>, c: seq<int>, now: int, k: nat)
    requires InOrder(target, c, now) && k <= |c|
    ensures InOrder(target, c[k..], now)
  {
    var d := c[k..];
    assert forall i :: 0 <= i < |d| ==> d[i] == c[k + i];
  }

  /** The two chains share no entry and use up the table. */
  ghost predicate Splits(f: seq<int>, c: seq<int>, n: nat) {
    && EachOnce(f, n) && EachOnce(c, n)
    && (forall x :: 0 <= x < n ==> x in f || x in c)
    && (forall x :: x in f ==> x !in c)
  }

  lemma SplitsMoveIn(f: seq<int>, c: seq<int>, n: nat, p: nat)
    requires Splits(f, c, n) && f != [] && p <= |c|
    ensures Splits(f[1..], After(c, p, f[0]), n) && f[0] !in c && 0 <= f[0] < n
  {
    var d := After(c, p, f[0]);
    EachOnceInsert(c, n, p, f[0]);
    assert f == [f[0]] + f[1..] && c == c[..p] + c[p..];
    assert forall x :: x in d <==> x in c || x == f[0];
    assert forall x :: x in f <==> x in f[1..] || x == f[0];
    assert f[0] !in f[1..];
  }

  lemma SplitsMoveOut(f: seq<int>, c: seq<int>, n: nat, k: nat)
    requires Splits(f, c, n) && k <= |c|
    ensures Splits(f + c[..k], c[k..], n)
  {
    assert c == c[..k] + c[k..];
    assert forall x :: x in c <==> x in c[..k] || x in c[k..];
    assert forall x :: x in f + c[..k] <==> x in f || x in c[..k];
    forall x | x in f + c[..k] ensures x !in c[k..] {
      if x in c[..k] {
        var i :| 0 <= i < k && c[i] == x;
        assert forall j :: 0 <= j < |c[k..]| ==> c[k..][j] == c[k + j];
      }
    }
    var d := f + c[..k];
    forall i, j | 0 <= i < j < |d| ensures d[i] != d[j] {
      if i < |f| && j >= |f| {
        assert d[i] in f && d[j] in c;
      }
    }
  }

  // ----- giving back the first k requests

  ghost predicate CanCut(next: seq<int>, prev: seq<int>, f: seq<int>, c: seq<int>, n: nat, k: nat) {
    && |next| == |prev| == n && Splits(f, c, n) && f != [] && 0 < k <= |c|
    && Threads(next, prev, c, true) && Threads(next, prev, f, false)
  }

  ghost function CutNext(next: seq<int>, prev: seq<int>, f: seq<int>, c: seq<int>, n: nat, k: nat): seq<int>
    requires CanCut(next, prev, f, c, n, k)
  {
    next[c[k - 1] := NIL][f[|f| - 1] := c[0]]
  }

  ghost function CutPrev(next: seq<int>, prev: seq<int>, f: seq<int>, c: seq<int>, n: nat, k: nat): seq<int>
    requires CanCut(next, prev, f, c, n, k)
  {
    (if k < |c| then prev[c[k] := NIL] else prev)[c[0] := f[|f| - 1]]
  }

  lemma CutApart(next: seq<int>, prev: seq<int>, f: seq<int>, c: seq<int>, n: nat, k: nat, i: nat, j: nat)
    requires CanCut(next, prev, f, c, n, k) && i < |f| && j < |c|
    ensures f[i] != c[j]
  {
    hide Follower;
    assert f[i] in f && c[j] in c;
  }

  lemma CutRequests(next: seq<int>, prev: seq<int>, f: seq<int>, c: seq<int>, n: nat, k: nat)
    requires CanCut(next, prev, f, c, n, k)
    ensures Threads(CutNext(next, prev, f, c, n, k), CutPrev(next, prev, f, c, n, k), c[k..], true)
  {
    hide Follower;
    forall i | k <= i < |c|
      ensures 0 <= c[i] < n && CutNext(next, prev, f, c, n, k)[c[i]] == next[c[i]]
      ensures CutPrev(next, prev, f, c, n, k)[c[i]] == if i == k then NIL else prev[c[i]]
    {
      CutBehind(next, prev, f, c, n, k, i);
    }
    ThreadsCut(next, prev, c, k, CutPrev(next, prev, f, c, n, k), CutNext(next, prev, f, c, n, k));
  }

  lemma CutBehind(next: seq<int>, prev: seq<int>, f: seq<int>, c: seq<int>, n: nat, k: nat, i: nat)
    requires CanCut(next, prev, f, c, n, k) && k <= i < |c|
    ensures 0 <= c[i] < n && CutNext(next, prev, f, c, n, k)[c[i]] == next[c[i]]
    ensures CutPrev(next, prev, f, c, n, k)[c[i]] == if i == k then NIL else prev[c[i]]
  {
    hide Follower;
    CutApart(next, prev, f, c, n, k, |f| - 1, i);
    assert c[i] != c[k - 1] && c[i] != c[0];
  }

  lemma CutThreads(next: seq<int>, prev: seq<int>, f: seq<int>, c: seq<int>, n: nat, k: nat)
    requires CanCut(next, prev, f, c, n, k)
    ensures Splits(f + c[..k], c[k..], n)
    ensures Threads(CutNext(next, prev, f, c, n, k), CutPrev(next, prev, f, c, n, k), c[k..], true)
    ensures Threads(CutNext(next, prev, f, c, n, k), CutPrev(next, prev, f, c, n, k), f + c[..k], false)
  {
    hide Follower;
    var next', prev' := CutNext(next, prev, f, c, n, k), CutPrev(next, prev, f, c, n, k);
    CutRequests(next, prev, f, c, n, k);
    SplitsMoveOut(f, c, n, k);
    forall i | 0 <= i < |f|
      ensures next'[f[i]] == (if i == |f| - 1 then c[0] else next[f[i]]) && prev'[f[i]] == prev[f[i]]
    {
      CutApart(next, prev, f, c, n, k, i, k - 1);
      CutApart(next, prev, f, c, n, k, i, 0);
      if k < |c| {
        CutApart(next, prev, f, c, n, k, i, k);
      }
    }
    forall i | 0 <= i < k
      ensures next'[c[i]] == (if i == k - 1 then NIL else next[c[i]])
      ensures prev'[c[i]] == (if i == 0 then f[|f| - 1] else prev[c[i]])
    {
      CutApart(next, prev, f, c, n, k, |f| - 1, i);
    }
    ThreadsAppend(next, prev, f, c, k, next', prev');
  }
}
