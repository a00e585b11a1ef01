/** The produced frontier of an SLM region: completed byte ranges arrive in any order, and
    ht_head is the first byte that has not arrived. */
module Frontier {
  import opened Arithmetic

  datatype Interval = Interval(start: nat, end: nat)

  predicate In(r: Interval, b: nat) {
    r.start <= b < r.end
  }

  /** Some range of the list holds byte b. */
  ghost predicate Covered(ranges: seq<Interval>, b: nat) {
    exists r :: r in ranges && In(r, b)
  }

  lemma CoveredAppend(ranges: seq<Interval>, r: Interval, b: nat)
    ensures Covered(ranges + [r], b) <==> Covered(ranges, b) || In(r, b)
  {
    assert forall x :: x in ranges + [r] <==> x in ranges || x == r;
  }

  /** head is the least byte that no arrived range holds. */
  ghost predicate IsFrontier(head: nat, arrived: seq<Interval>) {
    !Covered(arrived, head) && forall b: nat :: b < head ==> Covered(arrived, b)
  }

  /** The frontier depends on what arrived, not on the order in which it arrived. */
  lemma ArrivalOrderIrrelevant(a: seq<Interval>, b: seq<Interval>, h: nat, h': nat)
    requires multiset(a) == multiset(b)
    requires IsFrontier(h, a) && IsFrontier(h', b)
    ensures h == h'
  {
    assert forall r :: r in a <==> r in multiset(a);
    assert forall r :: r in b <==> r in multiset(b);
    assert forall x: nat :: Covered(a, x) <==> Covered(b, x);
  }

  ghost predicate Proper(pending: seq<Interval>) {
    forall p :: p in pending ==> p.start < p.end
  }

  /** Head and stash together account for exactly the arrived bytes. */
  ghost predicate Accounts(head: nat, pending: seq<Interval>, arrived: seq<Interval>) {
    && (forall b: nat :: Covered(arrived, b) <==> b < head || Covered(pending, b))
    && Proper(pending)
  }

  ghost predicate Above(head: nat, pending: seq<Interval>) {
    forall p :: p in pending ==> p.start > head
  }

  lemma AccountsFrontier(head: nat, pending: seq<Interval>, arrived: seq<Interval>)
    requires Accounts(head, pending, arrived) && Above(head, pending)
    ensures IsFrontier(head, arrived)
  {
  }

  predicate Touches(r: Interval, p: Interval) {
    r.start <= p.end && r.end >= p.start
  }

  function Hull(r: Interval, p: Interval): Interval {
    Interval(if r.start < p.start then r.start else p.start, if r.end > p.end then r.end else p.end)
  }

  /** Removing or replacing entry i, told by membership of the other entries. */
  lemma CoveredSplit(pending: seq<Interval>, i: nat, b: nat)
    requires i < |pending|
    ensures Covered(pending, b) <==> Covered(pending[..i] + pending[i + 1..], b) || In(pending[i], b)
  {
    var rest := pending[..i] + pending[i + 1..];
    assert pending == pending[..i] + [pending[i]] + pending[i + 1..];
    assert forall x :: x in pending <==> x in rest || x == pending[i];
  }

  /** Widening one stashed interval. */
  lemma CoveredUpdate(pending: seq<Interval>, i: nat, r: Interval, b: nat)
    requires i < |pending| && Touches(r, pending[i]) && r.start < r.end && pending[i].start < pending[i].end
    ensures Covered(pending[i := Hull(r, pending[i])], b) <==> Covered(pending, b) || In(r, b)
  {
    var n := pending[i := Hull(r, pending[i])];
    CoveredSplit(pending, i, b);
    CoveredSplit(n, i, b);
    assert n[..i] == pending[..i] && n[i + 1..] == pending[i + 1..];
    assert In(n[i], b) <==> In(pending[i], b) || In(r, b);
  }

  /** Overwriting entry i by the last one and dropping the last removes entry i. */
  function SwapOut(pending: seq<Interval>, i: nat): seq<Interval>
    requires i < |pending|
  {
    pending[i := pending[|pending| - 1]][..|pending| - 1]
  }

  lemma SwapOutEntries(pending: seq<Interval>, i: nat)
    requires i < |pending|
    ensures multiset(pending) == multiset(SwapOut(pending, i)) + multiset{pending[i]}
  {
    var last := |pending| - 1;
    assert pending == pending[..last] + [pending[last]];
    if i < last {
      assert SwapOut(pending, i) == pending[..last][i := pending[last]];
    } else {
      assert SwapOut(pending, i) == pending[..last];
    }
  }

  lemma CoveredSwapOut(pending: seq<Interval>, i: nat, b: nat)
    requires i < |pending|
    ensures Covered(pending, b) <==> Covered(SwapOut(pending, i), b) || In(pending[i], b)
  {
    SwapOutEntries(pending, i);
    assert forall x :: x in pending <==> x in multiset(pending);
    assert forall x :: x in SwapOut(pending, i) <==> x in multiset(SwapOut(pending, i));
  }

  /** Taking in an interval that starts at or below the head. */
  lemma Absorbed(head: nat, pending: seq<Interval>, arrived: seq<Interval>, i: nat)
    requires Accounts(head, pending, arrived) && i < |pending| && pending[i].start <= head
    ensures Accounts(if pending[i].end > head then pending[i].end else head, SwapOut(pending, i), arrived)
  {
    var h := if pending[i].end > head then pending[i].end else head;
    forall b: nat ensures Covered(arrived, b) <==> b < h || Covered(SwapOut(pending, i), b) {
      CoveredSwapOut(pending, i, b);
    }
    SwapOutEntries(pending, i);
    assert forall x :: x in SwapOut(pending, i) ==> x in multiset(SwapOut(pending, i)) && x in multiset(pending);
  }

  lemma ArrivedAtHead(head: nat, pending: seq<Interval>, arrived: seq<Interval>, r: Interval)
    requires Accounts(head, pending, arrived) && r.start <= head
    ensures Accounts(if r.end > head then r.end else head, pending, arrived + [r])
  {
    forall b: nat ensures Covered(arrived + [r], b) <==> Covered(arrived, b) || In(r, b) {
      CoveredAppend(arrived, r, b);
    }
  }

  lemma ArrivedEmpty(head: nat, pending: seq<Interval>, arrived: seq<Interval>, r: Interval)
    requires Accounts(head, pending, arrived) && r.end <= r.start
    ensures Accounts(head, pending, arrived + [r])
  {
    forall b: nat ensures Covered(arrived + [r], b) <==> Covered(arrived, b) {
      CoveredAppend(arrived, r, b);
    }
  }

  lemma ArrivedTouching(head: nat, pending: seq<Interval>, arrived: seq<Interval>, r: Interval, i: nat)
    requires Accounts(head, pending, arrived) && i < |pending| && Touches(r, pending[i]) && r.start < r.end
    ensures Accounts(head, pending[i := Hull(r, pending[i])], arrived + [r])
  {
    forall b: nat ensures Covered(arrived + [r], b) <==> b < head || Covered(pending[i := Hull(r, pending[i])], b) {
      CoveredAppend(arrived, r, b);
      CoveredUpdate(pending, i, r, b);
    }
  }

  lemma ArrivedApart(head: nat, pending: seq<Interval>, arrived: seq<Interval>, r: Interval)
    requires Accounts(head, pending, arrived) && r.start < r.end
    ensures Accounts(head, pending + [r], arrived + [r])
  {
    forall b: nat ensures Covered(arrived + [r], b) <==> b < head || Covered(pending + [r], b) {
      CoveredAppend(arrived, r, b);
      CoveredAppend(pending, r, b);
    }
  }

  class Region {
    const maxPending: nat
    var htHead: nat
    var htTail: nat
    var pending: seq<Interval>
    var producerDone: bool
    ghost var arrived: seq<Interval>  // every range reported so far

    ghost predicate Valid()
      reads this
    {
      |pending| <= maxPending && Accounts(htHead, pending, arrived) && Above(htHead, pending)
    }

    constructor (max: nat)
      ensures Valid() && maxPending == max && htHead == 0 && htTail == 0 && arrived == [] && !producerDone
    {
      maxPending := max;
      htHead, htTail := 0, 0;
      pending := [];
      producerDone := false;
      arrived := [];
    }

    /** Reports that the bytes [start, end) have arrived. The head is then the least byte that
        has not, whatever arrived before. The one way to fail is a stash that is full when the
        range neither reaches the head nor touches a stashed range. */
    method AdvanceHead(start: nat, end: nat) returns (overflow: bool)
      requires Valid()
      modifies this`htHead, this`pending, this`arrived
      ensures overflow <==> start < end && start > old(htHead) && old(|pending|) == maxPending
                            && forall i :: 0 <= i < old(|pending|) ==> !Touches(Interval(start, end), old(pending)[i])
      ensures overflow ==> htHead == old(htHead) && pending == old(pending) && arrived == old(arrived)
      ensures !overflow ==> Valid() && arrived == old(arrived) + [Interval(start, end)]
      ensures !overflow ==> IsFrontier(htHead, arrived) && htHead >= old(htHead)
    {
      ghost var r := Interval(start, end);
      hide Accounts, IsFrontier;
      if end <= start {
        ArrivedEmpty(htHead, pending, arrived, r);
        arrived := arrived + [r];
        AccountsFrontier(htHead, pending, arrived);
        return false;
      }
      if start <= htHead {
        ArrivedAtHead(htHead, pending, arrived, r);
        if end > htHead {
          htHead := end;
        }
      } else {
        var i := 0;
        while i < |pending| && !(start <= pending[i].end && end >= pending[i].start)
          invariant 0 <= i <= |pending|
          invariant forall j :: 0 <= j < i ==> !Touches(r, pending[j])
        {
          i := i + 1;
        }
        if i < |pending| {
          assert pending[i] in pending && Touches(r, pending[i]);
          ArrivedTouching(htHead, pending, arrived, r, i);
          pending := pending[i := Hull(Interval(start, end), pending[i])];
        } else {
          if |pending| >= maxPending {
            return true;
          }
          ArrivedApart(htHead, pending, arrived, r);
          pending := pending + [Interval(start, end)];
        }
      }
      arrived := arrived + [r];
      assert Accounts(htHead, pending, arrived);
      Absorb();
      AccountsFrontier(htHead, pending, arrived);
      return false;
    }

    /** Takes in stashed ranges that the head has reached, one at a time, until none is left. */
    method Absorb()
      requires Accounts(htHead, pending, arrived)
      modifies this`htHead, this`pending
      ensures Accounts(htHead, pending, arrived) && Above(htHead, pending)
      ensures |pending| <= old(|pending|) && htHead >= old(htHead)
    {
      hide Accounts;
      var progressed := true;
      while progressed
        invariant Accounts(htHead, pending, arrived)
        invariant !progressed ==> Above(htHead, pending)
        invariant |pending| <= old(|pending|) && htHead >= old(htHead)
        decreases |pending|, progressed
      {
        progressed := false;
        var i := 0;
        while i < |pending| && pending[i].start > htHead
          modifies {}
          invariant 0 <= i <= |pending|
          invariant forall j :: 0 <= j < i ==> pending[j].start > htHead
        {
          i := i + 1;
        }
        if i < |pending| {
          Absorbed(htHead, pending, arrived, i);
          if pending[i].end > htHead {
            htHead := pending[i].end;
          }
          pending := pending[i := pending[|pending| - 1]][..|pending| - 1];
          progressed := true;
        }
      }
    }

    /** The consumed frontier only moves forward. */
    method SetTail(end: nat)
      modifies this`htTail
      ensures htTail == if end > old(htTail) then end else old(htTail)
    {
      if end > htTail {
        htTail := end;
      }
    }

    /** A completed load of a circular input ring; ignored once the producer is done. */
    method NotifyLoadReady(logical: nat, len: nat) returns (overflow: bool)
      requires Valid()
      modifies this`htHead, this`pending, this`arrived
      ensures producerDone ==> !overflow && htHead == old(htHead) && arrived == old(arrived) && pending == old(pending)
      ensures overflow <==> !producerDone && len > 0 && logical > old(htHead) && old(|pending|) == maxPending
                            && forall i :: 0 <= i < old(|pending|) ==>
                                 !Touches(Interval(logical, logical + len), old(pending)[i])
      ensures !producerDone && !overflow ==> arrived == old(arrived) + [Interval(logical, logical + len)]
      ensures !overflow ==> Valid() && IsFrontier(htHead, arrived)
    {
      overflow := false;
      if !producerDone {
        overflow := AdvanceHead(logical, logical + len);
      } else {
        AccountsFrontier(htHead, pending, arrived);
      }
    }
  }

  // ----- page-granular readiness

  function DivideUp(x: nat, p: nat): nat
    requires p >= 1
  {
    (x + p - 1) / p
  }

  /** Whether a probe of len bytes at offset rel is answered "ready". A probe of exactly one
      page looks at the page it starts in only. */
  predicate Ready(head: nat, rel: nat, len: nat, p: nat)
    requires p >= 1 && len >= 1
  {
    var lastPage := if len == p then rel / p else (rel + len - 1) / p;
    lastPage < DivideUp(head, p)
  }

  function RoundUp(x: nat, p: nat): nat
    requires p >= 1
  {
    DivideUp(x, p) * p
  }

  /** "Ready" means that the probed bytes lie below the head rounded up to a page; a one-page
      probe is judged as if it started at the page boundary below it. */
  lemma ReadyMeans(head: nat, rel: nat, len: nat, p: nat)
    requires p >= 1 && len >= 1
    ensures Ready(head, rel, len, p) <==> (if len == p then rel - rel % p else rel) + len <= RoundUp(head, p)
  {
    var k := DivideUp(head, p);
    if len == p {
      QuotientBelow(rel, p, k);
      assert rel - rel % p == (rel / p) * p;
      if rel / p < k {
        Monotone(rel / p + 1, k, p);
      } else {
        Monotone(k, rel / p, p);
      }
    } else {
      QuotientBelow(rel + len - 1, p, k);
    }
  }

  /** On a page-aligned head, which is what a ring publishes before it is finalized, "ready"
      means produced, unless the probe is one page long and starts inside a page. */
  lemma ReadyIsProduced(head: nat, rel: nat, len: nat, p: nat)
    requires p >= 1 && len >= 1 && head % p == 0
    requires len == p ==> rel % p == 0
    ensures Ready(head, rel, len, p) <==> rel + len <= head
  {
    ReadyMeans(head, rel, len, p);
    QuotientIs(head + p - 1, p, head / p, p - 1);
  }

  /** A probe is never answered "ready" too early, on any page-aligned head. */
  ghost predicate SoundProbe(rel: nat, len: nat, p: nat)
    requires p >= 1 && len >= 1
  {
    forall head: nat :: head % p == 0 && Ready(head, rel, len, p) ==> rel + len <= head
  }

  /** That is so exactly when the probe is not one page long or starts on a page boundary. */
  lemma ProbeExactly(rel: nat, len: nat, p: nat)
    requires p >= 1 && len >= 1
    ensures SoundProbe(rel, len, p) <==> (len == p ==> rel % p == 0)
  {
    if len == p ==> rel % p == 0 {
      forall head: nat | head % p == 0 && Ready(head, rel, len, p) ensures rel + len <= head {
        ReadyIsProduced(head, rel, len, p);
      }
    } else {
      var head := (rel / p + 1) * p;
      assert rel == rel / p * p + rel % p && head == rel / p * p + p;
      QuotientIs(head, p, rel / p + 1, 0);
      QuotientIs(head + p - 1, p, rel / p + 1, p - 1);
      assert Ready(head, rel, len, p);
    }
  }

  /** No probe that could be right is answered "ready" too early on this head. */
  ghost predicate NeverAhead(head: nat, p: nat)
    requires p >= 1
  {
    forall rel: nat, len: nat ::
      len >= 1 && (len == p ==> rel % p == 0) && Ready(head, rel, len, p) ==> rel + len <= head
  }

  /** That is so exactly when the head is page-aligned. */
  lemma AheadExactly(head: nat, p: nat)
    requires p >= 1
    ensures NeverAhead(head, p) <==> head % p == 0
  {
    if head % p == 0 {
      forall rel: nat, len: nat | len >= 1 && (len == p ==> rel % p == 0) && Ready(head, rel, len, p)
        ensures rel + len <= head
      {
        ReadyIsProduced(head, rel, len, p);
      }
    } else {
      AheadByOne(head, p);
      assert 1 != p;
      assert Ready(head, head, 1, p);
    }
  }

  /** On an unaligned head the byte at the head is answered "ready". */
  lemma AheadByOne(head: nat, p: nat)
    requires p >= 1 && head % p != 0
    ensures Ready(head, head, 1, p) && p >= 2
  {
    assert head == head / p * p + head % p;
    assert (head / p + 1) * p == head / p * p + p;
    QuotientIs(head + p - 1, p, head / p + 1, head % p - 1);
  }
}
