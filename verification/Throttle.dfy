/** The loader's throttle against the consumer's wait. The loader goes on while the consumed
    frontier is close behind what it has requested; the consumer publishes that frontier only when
    it crosses a notification grain, and waits on probes that look ahead of it. */
module Throttle {
  import opened Arithmetic
  import opened Frontier

  /** The consumer stands at o and last published tail, in the same grain. */
  predicate Unpublished(tail: nat, o: nat, grain: nat)
    requires grain >= 1
  {
    tail <= o && o / grain == tail / grain
  }

  /** The consumer is close behind head, page by page. */
  predicate Close(head: nat, tail: nat, p: nat, io: nat)
    requires p >= 1
  {
    head / p <= tail / p + io / p + 1
  }

  /** The consumer at o, behind the head, waits on a probe of len bytes that lie ahead of it. */
  predicate Waiting(head: nat, tail: nat, o: nat, ahead: nat, len: nat, p: nat, grain: nat)
    requires p >= 1 && grain >= 1 && len >= 1
  {
    Unpublished(tail, o, grain) && o <= head && !Ready(head, o + ahead, len, p)
  }

  /** How far behind the start of its grain the consumer may look. */
  function Sight(grain: nat, ahead: nat, len: nat, p: nat): nat
    requires grain >= 1 && len >= 1
  {
    grain - 1 + ahead + if len == p then 0 else len - 1
  }

  predicate WithinSight(p: nat, grain: nat, io: nat, ahead: nat, len: nat)
    requires p >= 1 && grain >= 1 && len >= 1
  {
    Sight(grain, ahead, len, p) / p <= io / p + 1
  }

  /** Whenever the consumer waits at the end of what was requested, the loader goes on. */
  ghost predicate AlwaysAnswered(p: nat, grain: nat, io: nat, ahead: nat, len: nat)
    requires p >= 1 && grain >= 1 && len >= 1
  {
    forall head: nat, tail: nat, o: nat ::
      Waiting(head, tail, o, ahead, len, p, grain) ==> Close(head, tail, p, io)
  }

  /** That is so exactly when the consumer never looks further than one request and two pages
      past the start of its grain. */
  lemma AnsweredExactly(p: nat, grain: nat, io: nat, ahead: nat, len: nat)
    requires p >= 1 && grain >= 1 && grain % p == 0 && len >= 1
    ensures AlwaysAnswered(p, grain, io, ahead, len) <==> WithinSight(p, grain, io, ahead, len)
  {
    hide Ready, Sight, Unpublished;
    if WithinSight(p, grain, io, ahead, len) {
      forall head: nat, tail: nat, o: nat | Waiting(head, tail, o, ahead, len, p, grain)
        ensures Close(head, tail, p, io)
      {
        WaitingIsClose(head, tail, o, ahead, len, p, grain);
      }
    } else {
      var head := WholePages(Sight(grain, ahead, len, p), p);
      var o := FarWait(p, grain, io, ahead, len, head);
      assert Waiting(head, 0, o, ahead, len, p, grain);
    }
  }

  lemma WaitingIsClose(head: nat, tail: nat, o: nat, ahead: nat, len: nat, p: nat, grain: nat)
    requires p >= 1 && grain >= 1 && grain % p == 0 && len >= 1
    requires Unpublished(tail, o, grain) && !Ready(head, o + ahead, len, p)
    ensures head / p <= tail / p + Sight(grain, ahead, len, p) / p
  {
    hide Ready, Unpublished;
    var start := GrainStart(tail, o, grain, p);
    NotReadyMeans(head, o + ahead, len, p);
    PagesPast(head, start, Sight(grain, ahead, len, p), p);
    QuotientsGrow(start, tail, p);
  }

  lemma PagesPast(head: nat, start: nat, reach: nat, p: nat)
    requires p >= 1 && start % p == 0 && head <= start + reach
    ensures head / p <= start / p + reach / p
  {
    QuotientsGrow(head, start + reach, p);
    QuotientsShift(start, reach, p);
  }

  lemma GrainStart(tail: nat, o: nat, grain: nat, p: nat) returns (start: nat)
    requires p >= 1 && grain >= 1 && grain % p == 0 && Unpublished(tail, o, grain)
    ensures start <= tail && o <= start + grain - 1 && start % p == 0
  {
    start := AlignDown(tail, grain);
    assert o == o / grain * grain + o % grain;
    DividesTrans(start, grain, p);
  }

  /** A probe that is not ready ends at or behind the head. */
  lemma NotReadyMeans(head: nat, rel: nat, len: nat, p: nat)
    requires p >= 1 && len >= 1 && !Ready(head, rel, len, p)
    ensures head <= rel + if len == p then 0 else len - 1
  {
    var last := rel + if len == p then 0 else len - 1;
    if last < head {
      QuotientsGrow(last + p, head + p - 1, p);
      QuotientsShift(p, last, p);
      QuotientIs(p, p, 1, 0);
    }
  }

  lemma WholePages(x: nat, p: nat) returns (r: nat)
    requires p >= 1
    ensures r <= x && r % p == 0 && r / p == x / p
  {
    r := AlignDown(x, p);
    QuotientIs(r, p, x / p, 0);
  }

  /** A consumer that looks as far as any waits at every head of whole pages within its sight. */
  lemma FarWait(p: nat, grain: nat, io: nat, ahead: nat, len: nat, head: nat) returns (o: nat)
    requires p >= 1 && grain >= 1 && len >= 1
    requires head % p == 0 && head <= Sight(grain, ahead, len, p)
    ensures o == Min(grain - 1, head) && Waiting(head, 0, o, ahead, len, p, grain)
    ensures head / p > io / p + 1 ==> !Close(head, 0, p, io)
  {
    o := Min(grain - 1, head);
    QuotientIs(o, grain, 0, o);
    QuotientIs(0, grain, 0, 0);
    QuotientIs(0, p, 0, 0);
    var last := o + ahead + if len == p then 0 else len - 1;
    assert head == head / p * p;
    QuotientIs(head + p - 1, p, head / p, p - 1);
    QuotientsGrow(head, last, p);
  }
}
