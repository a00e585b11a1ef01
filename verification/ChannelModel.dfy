/** The bandwidth model of a channel: a ring of per-interval credits, the first one for the
    interval of the present time. */
module ChannelModel {
  import opened Arithmetic

  /** Counters of 32 bits. */
  const WRAP: nat := 0x1_0000_0000

  /** The ring cell of the i-th interval from now. */
  function Cell(head: nat, i: nat, n: nat): (r: nat)
    requires n >= 1
    ensures r < n
  {
    (head + i) % n
  }

  /** The cell after another one. */
  function Next(pos: nat, n: nat): nat
    requires n >= 1
  {
    (pos + 1) % n
  }

  lemma CellValue(head: nat, i: nat, n: nat)
    requires head < n && i <= n
    ensures Cell(head, i, n) == if head + i < n then head + i else head + i - n
  {
    QuotientIs(head, n, 0, head);
    ModStep(head, i, n);
  }

  lemma CellsApart(head: nat, i: nat, j: nat, n: nat)
    requires i < n && j < n && i != j
    ensures Cell(head, i, n) != Cell(head, j, n)
  {
    if i < j {
      ModApart(head + i, head + j, n);
    } else {
      ModApart(head + j, head + i, n);
    }
  }

  lemma CellShift(head: nat, d: nat, i: nat, n: nat)
    requires n >= 1
    ensures Cell(Cell(head, d, n), i, n) == Cell(head, d + i, n)
  {
    var q := (head + d) / n;
    assert head + d == q * n + (head + d) % n;
    var r := ((head + d) % n + i) % n;
    assert (head + d) % n + i == ((head + d) % n + i) / n * n + r;
    assert head + d + i == (q + ((head + d) % n + i) / n) * n + r;
    QuotientIs(head + d + i, n, q + ((head + d) % n + i) / n, r);
  }

  /** Credits granted per absolute interval. */
  type Ledger = map<nat, nat>

  function Granted(g: Ledger, j: nat): nat {
    if j in g then g[j] else 0
  }

  function Grant(g: Ledger, j: nat, c: nat): Ledger {
    g[j := Granted(g, j) + c]
  }

  /** No interval has granted more than max, and the cell of an interval offers no more than is
      left; nothing was granted at or after horizon. */
  ghost predicate Capped(avail: seq<nat>, head: nat, max: nat, base: nat, g: Ledger, horizon: nat) {
    && |avail| >= 1 && head < |avail|
    && (forall j: nat :: Granted(g, j) <= max)
    && (forall i: nat :: i < |avail| ==> avail[Cell(head, i, |avail|)] + Granted(g, base + i) <= max)
    && (forall j: nat :: j >= horizon ==> Granted(g, j) == 0)
  }

  /** The ring says exactly what is left of each interval. */
  ghost predicate Exact(avail: seq<nat>, head: nat, max: nat, base: nat, g: Ledger) {
    && |avail| >= 1
    && forall i: nat :: i < |avail| ==> avail[Cell(head, i, |avail|)] + Granted(g, base + i) == max
  }

  ghost predicate Untouched(avail: seq<nat>, head: nat, max: nat, valid: nat) {
    && |avail| >= 1 && valid <= |avail|
    && forall i: nat :: valid <= i < |avail| ==> avail[Cell(head, i, |avail|)] == max
  }

  // ----- the present moves on

  /** The first d intervals have passed: their cells are filled up again for later ones. */
  ghost predicate Refilled(before: seq<nat>, after: seq<nat>, head: nat, max: nat, d: nat) {
    && |before| == |after| >= 1
    && forall i: nat :: i < |before| ==>
         after[Cell(head, i, |before|)] == if i < d then max else before[Cell(head, i, |before|)]
  }

  lemma AdvanceCell(a: seq<nat>, a': seq<nat>, head: nat, max: nat, d: nat, i: nat)
    requires Refilled(a, a', head, max, d) && head < |a| && d <= |a| && i < |a|
    ensures a'[Cell(Cell(head, d, |a|), i, |a|)] == if d + i < |a| then a[Cell(head, d + i, |a|)] else max
  {
    var n := |a|;
    CellShift(head, d, i, n);
    if d + i >= n {
      ModStep(head + (d + i - n), n, n);
      assert Cell(head, d + i, n) == Cell(head, d + i - n, n);
    }
  }

  /** gap is the number of intervals that have passed, and d how far the head moves: as far, or
      over all used cells, or less after a gap so long that the counter wrapped. */
  lemma AdvanceKeeps(a: seq<nat>, a': seq<nat>, head: nat, max: nat, base: nat, g: Ledger, valid: nat,
                     gap: nat, d: nat)
    requires Capped(a, head, max, base, g, base + valid) && Untouched(a, head, max, valid)
    requires Refilled(a, a', head, max, d) && d <= valid && (d == gap || gap >= valid)
    ensures Capped(a', Cell(head, d, |a|), max, base + gap, g, base + gap + (valid - d))
    ensures Exact(a, head, max, base, g) && (d == gap || d == valid) ==>
              Exact(a', Cell(head, d, |a|), max, base + gap, g)
  {
    var h := Cell(head, d, |a|);
    forall i: nat | i < |a|
      ensures a'[Cell(h, i, |a|)] + Granted(g, base + gap + i) <= max
      ensures Exact(a, head, max, base, g) && (d == gap || d == valid) ==>
                a'[Cell(h, i, |a|)] + Granted(g, base + gap + i) == max
    {
      AdvanceCell(a, a', head, max, d, i);
      if d + i < |a| {
        assert a[Cell(head, d + i, |a|)] + Granted(g, base + (d + i)) <= max;
      }
    }
  }

  lemma AdvanceUntouched(a: seq<nat>, a': seq<nat>, head: nat, max: nat, valid: nat, d: nat)
    requires Untouched(a, head, max, valid) && Refilled(a, a', head, max, d) && d <= valid && head < |a|
    ensures Untouched(a', Cell(head, d, |a|), max, valid - d)
  {
    forall i: nat | valid - d <= i < |a| ensures a'[Cell(Cell(head, d, |a|), i, |a|)] == max {
      AdvanceCell(a, a', head, max, d, i);
    }
  }

  /** How far the head moves when gap intervals have passed, counted in 32 bits. */
  function Shift(gap: int, valid: nat): (d: nat)
    ensures d <= valid
  {
    if gap % WRAP < valid then gap % WRAP else valid
  }

  lemma ShiftOk(gap: nat, valid: nat)
    requires valid < WRAP
    ensures Shift(gap, valid) == gap || gap >= valid
    ensures gap < WRAP || valid == 0 ==> Shift(gap, valid) == gap || Shift(gap, valid) == valid
  {
  }

  /** The ring a at interval base becomes a' when the present moves by gap intervals. */
  ghost predicate Moves(a: seq<nat>, a': seq<nat>, head: nat, max: nat, base: nat, g: Ledger, valid: nat, gap: int) {
    && valid < WRAP && base + gap >= 0
    && Capped(a, head, max, base, g, base + valid) && Untouched(a, head, max, valid)
    && Refilled(a, a', head, max, Shift(gap, valid))
  }

  ghost predicate StaysCapped(a': seq<nat>, head: nat, max: nat, base: nat, g: Ledger, valid: nat, gap: int)
    requires |a'| >= 1 && base + gap >= 0
  {
    var d := Shift(gap, valid);
    Capped(a', Cell(head, d, |a'|), max, base + gap, g, base + gap + (valid - d))
  }

  /** Moving the present by gap intervals keeps every state of a ring of n cells capped. */
  ghost predicate Forward(gap: int, n: nat, max: nat) {
    forall a: seq<nat>, a': seq<nat>, head: nat, base: nat, g: Ledger, valid: nat ::
      |a| == n && Moves(a, a', head, max, base, g, valid, gap) ==> StaysCapped(a', head, max, base, g, valid, gap)
  }

  /** It does so exactly when the clock does not go back. */
  lemma ForwardExactly(gap: int, n: nat, max: nat)
    requires 1 <= n < WRAP && max >= 1
    ensures Forward(gap, n, max) <==> gap >= 0
  {
    if gap >= 0 {
      forall a: seq<nat>, a': seq<nat>, head: nat, base: nat, g: Ledger, valid: nat
        | |a| == n && Moves(a, a', head, max, base, g, valid, gap)
        ensures StaysCapped(a', head, max, base, g, valid, gap)
      {
        hide Capped, Cell, Shift;
        ShiftOk(gap, valid);
        AdvanceKeeps(a, a', head, max, base, g, valid, gap, Shift(gap, valid));
      }
    } else {
      var a, a', g := BackwardsExample(-gap, n, max);
      assert Moves(a, a', 0, max, -gap, g, 1, gap);
    }
  }

  /** A full interval, and the ring after the clock has gone back: nothing says any more that the
      interval is full, and while it is within the ring its cell offers full credit again. */
  lemma BackwardsExample(back: nat, n: nat, max: nat) returns (a: seq<nat>, a': seq<nat>, g: Ledger)
    requires 1 <= n < WRAP && max >= 1 && back >= 1
    ensures |a| == |a'| == n && Moves(a, a', 0, max, back, g, 1, 0 - back) && Granted(g, back) == max
    ensures !StaysCapped(a', 0, max, back, g, 1, 0 - back)
    ensures back < n ==> a'[Cell(Cell(0, Shift(0 - back, 1), n), back, n)] == max
  {
    var d := Shift(0 - back, 1);
    a := seq(n, i => if i == 0 then 0 else max);
    a' := seq(n, i => if i == 0 && d == 0 then 0 else max);
    g := map[back := max];
    forall i: nat | i < n ensures Cell(0, i, n) == i {
      CellValue(0, i, n);
    }
    hide Shift;
    assert Granted(g, back) == max && forall j: nat :: j != back ==> Granted(g, j) == 0;
    if back < n {
      BackShift(back);
      hide Cell;
    }
  }

  lemma BackShift(back: nat)
    requires 1 <= back < WRAP
    ensures Shift(0 - back, 1) == Shift(back, 1) == 1
  {
    assert (0 - back) % WRAP == WRAP - back;
  }

  // ----- taking credits

  lemma TakeKeeps(a: seq<nat>, head: nat, max: nat, base: nat, g: Ledger, valid: nat, hz: nat, i: nat, c: nat)
    requires Capped(a, head, max, base, g, base + hz) && Untouched(a, head, max, valid) && hz <= |a|
    requires i < |a| && c <= a[Cell(head, i, |a|)]
    ensures var a' := a[Cell(head, i, |a|) := a[Cell(head, i, |a|)] - c];
            var hz' := if hz > i + 1 then hz else i + 1;
            && Capped(a', head, max, base, Grant(g, base + i, c), base + hz')
            && Untouched(a', head, max, if valid > i + 1 then valid else i + 1)
            && (Exact(a, head, max, base, g) ==> Exact(a', head, max, base, Grant(g, base + i, c)))
  {
    var x := Cell(head, i, |a|);
    var a', g' := a[x := a[x] - c], Grant(g, base + i, c);
    forall k: nat | k < |a| && k != i ensures Cell(head, k, |a|) != x {
      CellsApart(head, i, k, |a|);
    }
    hide Cell;
    assert a[x] + Granted(g, base + i) <= max;
    assert forall j: nat :: Granted(g', j) == if j == base + i then Granted(g, j) + c else Granted(g, j);
  }

  /** What holds of the ring whatever the clock does, while it has never gone back, and while no
      gap has wrapped the counter either. Cells from hz on are full. */
  ghost predicate Kept(a: seq<nat>, head: nat, max: nat, base: nat, g: Ledger, hz: nat, orderly: bool, exact: bool) {
    && Untouched(a, head, max, hz)
    && (orderly ==> Capped(a, head, max, base, g, base + hz))
    && (orderly && exact ==> Exact(a, head, max, base, g))
  }

  lemma TakeKept(a: seq<nat>, head: nat, max: nat, base: nat, g: Ledger, hz: nat, i: nat, c: nat,
                 orderly: bool, exact: bool)
    requires Kept(a, head, max, base, g, hz, orderly, exact) && i < |a| && c <= a[Cell(head, i, |a|)]
    ensures Kept(a[Cell(head, i, |a|) := a[Cell(head, i, |a|)] - c], head, max, base, Grant(g, base + i, c),
                 if hz > i + 1 then hz else i + 1, orderly, exact)
  {
    hide Capped, Exact, Cell, Grant;
    TakeUntouched(a, head, max, hz, i, c);
    if orderly {
      TakeKeeps(a, head, max, base, g, hz, hz, i, c);
    }
  }

  lemma TakeUntouched(a: seq<nat>, head: nat, max: nat, valid: nat, i: nat, c: nat)
    requires Untouched(a, head, max, valid) && i < |a| && c <= a[Cell(head, i, |a|)]
    ensures Untouched(a[Cell(head, i, |a|) := a[Cell(head, i, |a|)] - c], head, max,
                      if valid > i + 1 then valid else i + 1)
  {
    forall k: nat | k < |a| && k != i ensures Cell(head, k, |a|) != Cell(head, i, |a|) {
      CellsApart(head, i, k, |a|);
    }
  }

  function Sum(s: seq<nat>): nat {
    if s == [] then 0 else Sum(s[..|s| - 1]) + s[|s| - 1]
  }

  /** Grants to consecutive intervals from j on. */
  function GrantAll(g: Ledger, j: nat, takes: seq<nat>): Ledger {
    if takes == [] then g
    else Grant(GrantAll(g, j, takes[..|takes| - 1]), j + |takes| - 1, takes[|takes| - 1])
  }

  /** What has been taken so far, of units, in consecutive intervals from j on. */
  ghost predicate Given(g0: Ledger, g: Ledger, j: nat, takes: seq<nat>, units: nat, left: nat) {
    g == GrantAll(g0, j, takes) && left + Sum(takes) == units
  }

  lemma GivenMore(g0: Ledger, g: Ledger, j: nat, takes: seq<nat>, units: nat, left: nat, c: nat)
    requires Given(g0, g, j, takes, units, left) && c <= left
    ensures Given(g0, Grant(g, j + |takes|, c), j, takes + [c], units, left - c)
  {
    GrantMore(g0, j, takes, c);
  }

  lemma GrantMore(g: Ledger, j: nat, takes: seq<nat>, c: nat)
    ensures GrantAll(g, j, takes + [c]) == Grant(GrantAll(g, j, takes), j + |takes|, c)
    ensures Sum(takes + [c]) == Sum(takes) + c
  {
    assert (takes + [c])[..|takes|] == takes;
  }

  // ----- what the ring offers

  /** What the intervals from the i-th on have left together. */
  function Offer(a: seq<nat>, head: nat, i: nat): nat
    requires 1 <= |a| && i <= |a|
    decreases |a| - i
  {
    if i == |a| then 0 else a[Cell(head, i, |a|)] + Offer(a, head, i + 1)
  }

  /** What they will offer when the present has moved by d intervals. */
  function OfferAfter(a: seq<nat>, head: nat, max: nat, d: nat, i: nat): nat
    requires 1 <= |a| && i <= |a|
    decreases |a| - i
  {
    if i == |a| then 0
    else CellAfter(a, head, max, d, i) + OfferAfter(a, head, max, d, i + 1)
  }

  lemma {:induction false} OfferMoves(a: seq<nat>, a': seq<nat>, head: nat, max: nat, d: nat, i: nat)
    requires Refilled(a, a', head, max, d) && head < |a| && d <= |a| && i <= |a|
    ensures Offer(a', Cell(head, d, |a|), i) == OfferAfter(a, head, max, d, i)
    decreases |a| - i
  {
    hide Cell, Refilled;
    RefilledSizes(a, a', head, max, d);
    if i < |a| {
      AdvanceCell(a, a', head, max, d, i);
      OfferMoves(a, a', head, max, d, i + 1);
    }
  }

  function CellsAfter(a: seq<nat>, head: nat, max: nat, d: nat, i: nat): (c: seq<nat>)
    requires 1 <= |a| && i <= |a|
    ensures |c| == |a| - i && forall k :: 0 <= k < |c| ==> c[k] == CellAfter(a, head, max, d, i + k)
  {
    seq<nat>(|a| - i, k requires 0 <= k < |a| - i => CellAfter(a, head, max, d, i + k))
  }

  /** What the i-th interval will have left when the present has moved by d intervals. */
  function CellAfter(a: seq<nat>, head: nat, max: nat, d: nat, i: nat): nat
    requires 1 <= |a|
  {
    if d + i < |a| then a[Cell(head, d + i, |a|)] else max
  }

  lemma CellsMove(a: seq<nat>, a': seq<nat>, head: nat, max: nat, d: nat, i: nat)
    requires Refilled(a, a', head, max, d) && head < |a| && d <= |a| && i <= |a|
    ensures Cells(a', Cell(head, d, |a|), i) == CellsAfter(a, head, max, d, i)
  {
    hide Cell, Refilled;
    RefilledSizes(a, a', head, max, d);
    forall k | 0 <= k < |a| - i
      ensures Cells(a', Cell(head, d, |a|), i)[k] == CellsAfter(a, head, max, d, i)[k]
    {
      AdvanceCell(a, a', head, max, d, i + k);
    }
  }

  lemma RefilledSizes(a: seq<nat>, a': seq<nat>, head: nat, max: nat, d: nat)
    requires Refilled(a, a', head, max, d)
    ensures |a| == |a'| >= 1
  {
  }

  /** What k intervals from j on have not granted yet. */
  function Room(g: Ledger, max: nat, j: nat, k: nat): int
    decreases k
  {
    if k == 0 then 0 else max - Granted(g, j) + Room(g, max, j + 1, k - 1)
  }

  /** An exact ring offers what has not been granted. */
  lemma {:induction false} OfferIsRoom(a: seq<nat>, head: nat, max: nat, base: nat, g: Ledger, i: nat)
    requires Exact(a, head, max, base, g) && i <= |a|
    ensures Offer(a, head, i) == Room(g, max, base + i, |a| - i)
    decreases |a| - i
  {
    hide Cell;
    if i < |a| {
      OfferIsRoom(a, head, max, base, g, i + 1);
    }
  }

  /** Taking from the i-th interval changes nothing behind it. */
  lemma {:induction false} OfferBehind(a: seq<nat>, head: nat, i: nat, v: nat, k: nat)
    requires i < k <= |a|
    ensures Offer(a[Cell(head, i, |a|) := v], head, k) == Offer(a, head, k)
    decreases |a| - k
  {
    hide Cell;
    if k < |a| {
      CellsApart(head, i, k, |a|);
      OfferBehind(a, head, i, v, k + 1);
    }
  }

  /** The i-th interval gave c of what was wanted: all of it, or all it had. */
  ghost predicate Taken(a: seq<nat>, a': seq<nat>, head: nat, i: nat, want: nat, c: nat) {
    && i < |a| && c == Min(want, a[Cell(head, i, |a|)])
    && a' == a[Cell(head, i, |a|) := a[Cell(head, i, |a|)] - c]
  }

  /** Of units wanted from the i0-th interval of a0 on, left are still wanted from the i-th of a on.
      What a0 offered covers the units exactly if what a offers covers the rest; and the first
      interval was not enough if it was left. */
  ghost predicate Balance(a0: seq<nat>, i0: nat, units: nat, a: seq<nat>, head: nat, i: nat, left: nat) {
    && 1 <= |a| == |a0| && i0 <= i <= |a| && i0 < |a|
    && Offer(a0, head, i0) + left == units + Offer(a, head, i)
    && (if i == i0 then left == units && a == a0 else units > a0[Cell(head, i0, |a0|)])
  }

  lemma BalanceStep(a0: seq<nat>, i0: nat, units: nat, a: seq<nat>, a': seq<nat>, head: nat, i: nat, left: nat, c: nat)
    requires Balance(a0, i0, units, a, head, i, left) && Taken(a, a', head, i, left, c)
    ensures |a'| == |a| && c <= left
    ensures c == left ==> units <= Offer(a0, head, i0)
    ensures c < left ==> Balance(a0, i0, units, a', head, i + 1, left - c)
    ensures i == i0 && units <= a0[Cell(head, i0, |a0|)] ==> c == left == units
  {
    hide Cell;
    OfferBehind(a, head, i, a[Cell(head, i, |a|)] - c, i + 1);
  }

  // ----- what a request takes

  /** What the intervals from the i-th on have left, one by one. */
  function Cells(a: seq<nat>, head: nat, i: nat): (c: seq<nat>)
    requires 1 <= |a| && i <= |a|
    ensures |c| == |a| - i && forall k :: 0 <= k < |c| ==> c[k] == a[Cell(head, i + k, |a|)]
  {
    seq(|a| - i, k requires 0 <= k < |a| - i => a[Cell(head, i + k, |a|)])
  }

  /** The ring has given takes, from the i0-th interval on, and nothing else. */
  ghost predicate Spent(a0: seq<nat>, a: seq<nat>, head: nat, i0: nat, takes: seq<nat>) {
    && 1 <= |a| == |a0| && i0 + |takes| <= |a|
    && forall k: nat :: k < |a| ==>
         a0[Cell(head, k, |a|)] == a[Cell(head, k, |a|)] + if i0 <= k < i0 + |takes| then takes[k - i0] else 0
  }

  /** The first intervals give all they have. */
  predicate AllOf(cells: seq<nat>, takes: seq<nat>) {
    |takes| <= |cells| && takes == cells[..|takes|]
  }

  /** Each interval but the last gives all it has, and the last one only what is then wanted. */
  predicate Greedy(cells: seq<nat>, takes: seq<nat>, units: nat) {
    && 1 <= |takes| <= |cells| && AllOf(cells, takes[..|takes| - 1])
    && var rest := units - Sum(takes[..|takes| - 1]);
       (|takes| > 1 ==> rest > 0) && rest >= 0 && takes[|takes| - 1] == Min(rest, cells[|takes| - 1])
  }

  lemma SpentMore(a0: seq<nat>, a: seq<nat>, a': seq<nat>, head: nat, i0: nat, takes: seq<nat>, want: nat, c: nat)
    requires Spent(a0, a, head, i0, takes) && Taken(a, a', head, i0 + |takes|, want, c)
    ensures Spent(a0, a', head, i0, takes + [c]) && c == Min(want, a0[Cell(head, i0 + |takes|, |a0|)])
  {
    var i := i0 + |takes|;
    forall k: nat | k < |a| && k != i ensures Cell(head, k, |a|) != Cell(head, i, |a|) {
      CellsApart(head, i, k, |a|);
    }
    hide Cell;
  }

  lemma GreedyMore(cells: seq<nat>, takes: seq<nat>, units: nat, left: nat, c: nat)
    requires AllOf(cells, takes) && |takes| < |cells| && left + Sum(takes) == units && (takes != [] ==> left > 0)
    requires c == Min(left, cells[|takes|])
    ensures Greedy(cells, takes + [c], units) && (c < left ==> AllOf(cells, takes + [c]))
  {
    assert (takes + [c])[..|takes|] == takes;
  }

  /** How many intervals longer than a lone transfer of its units a request takes. */
  function Late(intervals: nat, units: nat, max: nat): nat
    requires max >= 1
  {
    if intervals > Whole(units, max) + 1 then intervals - 1 - Whole(units, max) else 0
  }

  /** A request of less than an interval that its first interval cannot serve is late. */
  lemma LateBehindFull(cells: seq<nat>, takes: seq<nat>, units: nat, max: nat)
    requires Greedy(cells, takes, units) && Sum(takes) == units && max >= 1 && units < max && cells[0] < units
    ensures Late(|takes|, units, max) >= 1
  {
    hide Sum;
    QuotientIs(units, max, 0, units);
    SumLast(takes);
    if |takes| == 1 {
      SumLast(takes[..0]);
    }
  }

  lemma SumLast(s: seq<nat>)
    ensures s == [] ==> Sum(s) == 0
    ensures s != [] ==> Sum(s) == Sum(s[..|s| - 1]) + s[|s| - 1]
  {
  }

  /** On an idle ring no request is late. */
  lemma IdleIsNotLate(cells: seq<nat>, takes: seq<nat>, units: nat, max: nat)
    requires Greedy(cells, takes, units) && max >= 1 && forall k :: 0 <= k < |cells| ==> cells[k] == max
    ensures Late(|takes|, units, max) == 0
  {
    var pre := takes[..|takes| - 1];
    SumOfEqual(pre, max);
    QuotientBelow(units, max, |pre|);
  }

  lemma {:induction false} SumOfEqual(s: seq<nat>, v: nat)
    requires forall k :: 0 <= k < |s| ==> s[k] == v
    ensures Sum(s) == |s| * v
  {
    if s != [] {
      SumOfEqual(s[..|s| - 1], v);
    }
  }

  /** The ring and the ledger when a request comes to its first interval. */
  datatype Job = Job(avail: seq<nat>, granted: Ledger, head: nat, max: nat, base: nat, first: nat, units: nat,
                     valid: nat, orderly: bool, exact: bool)
  {
    /** The cells in use when k intervals have been taken from. */
    function Used(k: nat): nat {
      if k == 0 || first + k <= valid then valid else first + k
    }

    ghost predicate Offers() {
      first < |avail| && units <= Offer(avail, head, first)
    }
  }

  /** Between two intervals: left units are still wanted, and all intervals so far are used up. */
  ghost predicate Serving(j: Job, a: seq<nat>, g: Ledger, left: nat, takes: seq<nat>) {
    && j.first + |takes| <= |a| && Given(j.granted, g, j.base + j.first, takes, j.units, left)
    && Kept(a, j.head, j.max, j.base, g, j.Used(|takes|), j.orderly, j.exact)
    && j.first <= |j.avail| && Spent(j.avail, a, j.head, j.first, takes)
    && AllOf(Cells(j.avail, j.head, j.first), takes) && (takes != [] ==> left > 0)
    && Balance(j.avail, j.first, j.units, a, j.head, j.first + |takes|, left)
  }

  /** After the last interval. */
  ghost predicate Served(j: Job, a: seq<nat>, g: Ledger, left: nat, takes: seq<nat>) {
    && |takes| >= 1 && j.first < |j.avail| == |a|
    && Given(j.granted, g, j.base + j.first, takes, j.units, left)
    && Kept(a, j.head, j.max, j.base, g, j.Used(|takes|), j.orderly, j.exact)
    && Spent(j.avail, a, j.head, j.first, takes) && Greedy(Cells(j.avail, j.head, j.first), takes, j.units)
    && (left == 0 ==> j.Offers()) && (left > 0 && j.first + |takes| == |a| ==> !j.Offers())
    && (j.units <= j.avail[Cell(j.head, j.first, |a|)] ==> left == 0 && takes == [j.units])
  }

  lemma ServeStart(j: Job)
    requires j.first < |j.avail|
    requires Kept(j.avail, j.head, j.max, j.base, j.granted, j.valid, j.orderly, j.exact)
    ensures Serving(j, j.avail, j.granted, j.units, [])
  {
    hide Kept, Cell, Offer;
  }

  lemma ServeStep(j: Job, a: seq<nat>, a': seq<nat>, g: Ledger, left: nat, takes: seq<nat>, c: nat)
    requires Serving(j, a, g, left, takes) && Taken(a, a', j.head, j.first + |takes|, left, c)
    ensures c <= left && Served(j, a', Grant(g, j.base + j.first + |takes|, c), left - c, takes + [c])
    ensures c < left ==> Serving(j, a', Grant(g, j.base + j.first + |takes|, c), left - c, takes + [c])
  {
    hide Kept, Cell, Offer, Given, Grant, Spent, AllOf, Greedy, Cells;
    var i := j.first + |takes|;
    TakeKept(a, j.head, j.max, j.base, g, j.Used(|takes|), i, c, j.orderly, j.exact);
    TakeGreedy(j, a, a', g, left, takes, c);
    GivenMore(j.granted, g, j.base + j.first, takes, j.units, left, c);
    BalanceStep(j.avail, j.first, j.units, a, a', j.head, i, left, c);
    if i + 1 == |a| {
      NoneBehind(a', j.head);
    }
  }

  lemma TakeGreedy(j: Job, a: seq<nat>, a': seq<nat>, g: Ledger, left: nat, takes: seq<nat>, c: nat)
    requires j.first <= |j.avail| == |a| && 1 <= |a| && Taken(a, a', j.head, j.first + |takes|, left, c)
    requires Given(j.granted, g, j.base + j.first, takes, j.units, left) && Spent(j.avail, a, j.head, j.first, takes)
    requires AllOf(Cells(j.avail, j.head, j.first), takes) && (takes != [] ==> left > 0)
    ensures Spent(j.avail, a', j.head, j.first, takes + [c])
    ensures Greedy(Cells(j.avail, j.head, j.first), takes + [c], j.units)
    ensures c < left ==> AllOf(Cells(j.avail, j.head, j.first), takes + [c])
  {
    hide Cell, Spent, AllOf, Greedy, Given, Sum;
    GivenAll(j.granted, g, j.base + j.first, takes, j.units, left);
    SpentMore(j.avail, a, a', j.head, j.first, takes, left, c);
    GreedyMore(Cells(j.avail, j.head, j.first), takes, j.units, left, c);
  }

  lemma NoneBehind(a: seq<nat>, head: nat)
    requires |a| >= 1
    ensures Offer(a, head, |a|) == 0
  {
  }

  lemma ServeEnd(j: Job, a: seq<nat>, g: Ledger, left: nat, takes: seq<nat>)
    requires Served(j, a, g, left, takes)
    ensures g == GrantAll(j.granted, j.base + j.first, takes) && left + Sum(takes) == j.units
    ensures |takes| >= 1 && Kept(a, j.head, j.max, j.base, g, j.Used(|takes|), j.orderly, j.exact)
    ensures j.first < |j.avail| && Spent(j.avail, a, j.head, j.first, takes)
    ensures Greedy(Cells(j.avail, j.head, j.first), takes, j.units)
    ensures (left == 0 ==> j.Offers()) && (left > 0 && j.first + |takes| == |a| ==> !j.Offers())
    ensures j.first < |j.avail| == |a|
    ensures j.units <= j.avail[Cell(j.head, j.first, |a|)] ==> left == 0 && takes == [j.units]
  {
    hide Kept, Cell, Offer, Spent, Greedy;
  }

  class Channel {
    const n: nat
    const max: nat
    const unit: nat      // length of an interval
    const xferLat: nat   // time to move one transfer unit
    const avail: array<nat>
    var head: nat
    var valid: nat
    var now: nat
    ghost var granted: Ledger
    ghost var orderly: bool  // the clock has never gone back by an interval
    ghost var exact: bool    // no gap was long enough to wrap the interval counter

    function Interval(t: nat): nat {
      if unit == 0 then 0 else t / unit
    }

    ghost predicate Shape() {
      1 <= n < WRAP && 1 <= max < 256 && unit >= 1 && avail.Length == n
    }

    ghost predicate Valid()
      reads this, avail
    {
      && Shape() && head < n && valid <= n
      && Kept(avail[..], head, max, Interval(now), granted, valid, orderly, exact)
    }

    constructor (entries: nat, credits: nat, interval: nat, lat: nat)
      requires 1 <= entries < WRAP && 1 <= credits < 256 && interval >= 1
      ensures Valid() && orderly && exact && granted == map[] && fresh(avail) && now == 0 && valid == 0
      ensures n == entries && max == credits && unit == interval && xferLat == lat
    {
      n, max, unit, xferLat := entries, credits, interval, lat;
      head, valid, now := 0, 0, 0;
      avail := new nat[entries](_ => credits);
      granted, orderly, exact := map[], true, true;
    }

    /** Fills len cells with full credit, from cell from on. */
    method Fill(from: nat, len: nat)
      requires from + len <= avail.Length
      modifies avail
      ensures forall x :: 0 <= x < avail.Length ==> avail[x] == if from <= x < from + len then max else old(avail[x])
    {
      forall x | from <= x < from + len {
        avail[x] := max;
      }
    }

    /** Fills the cells of the first d intervals. */
    method Refill(d: nat)
      requires Shape() && head < n && d <= n
      modifies avail
      ensures Refilled(old(avail[..]), avail[..], head, max, d)
    {
      if head + d >= n {
        Fill(head, n - head);
        Fill(0, d - (n - head));
      } else {
        Fill(head, d);
      }
      RefillDone(old(avail[..]), avail[..], head, max, d);
    }

    /** Moves the head to the interval of time t. */
    method Advance(t: nat)
      requires Valid()
      modifies this`head, this`valid, this`now, this`orderly, this`exact, avail
      ensures Valid() && now == t
      ensures orderly <==> old(orderly) && Interval(old(now)) <= Interval(t)
      ensures exact <==> old(exact) && (Interval(t) - Interval(old(now)) < WRAP || old(valid) == 0)
      ensures var d := Shift(Interval(t) - Interval(old(now)), old(valid));
              && head == Cell(old(head), d, n) && valid == old(valid) - d
              && Refilled(old(avail[..]), avail[..], old(head), max, d)
    {
      hide Capped, Exact, Untouched, Refilled, Cell, Channel.Interval, Shift;
      var gap := Interval(t) - Interval(now);
      var d := Shift(gap, valid);
      ghost var a := avail[..];
      Refill(d);
      AdvanceUntouched(a, avail[..], head, max, valid, d);
      if orderly && gap >= 0 {
        ShiftOk(gap, valid);
        AdvanceKeeps(a, avail[..], head, max, Interval(now), granted, valid, gap, d);
      }
      orderly := orderly && gap >= 0;
      exact := exact && (gap < WRAP || valid == 0);
      head := Cell(head, d, n);
      now := t;
      valid := valid - d;
    }

    /** Serves units credits from the i0-th interval on, each interval giving what it has left. The
        ring is exhausted exactly when its intervals from there on have less left together. */
    method Consume(i0: nat, units: nat) returns (delay: nat, overflow: bool, ghost takes: seq<nat>)
      requires Valid() && i0 < n
      modifies this`valid, this`granted, avail
      ensures Valid() && i0 + delay < n && |takes| == delay + 1
      ensures granted == GrantAll(old(granted), Interval(now) + i0, takes)
      ensures overflow <==> units > Offer(old(avail[..]), head, i0)
      ensures !overflow ==> Sum(takes) == units
      ensures overflow ==> Sum(takes) < units && i0 + delay == n - 1
      ensures Spent(old(avail[..]), avail[..], head, i0, takes)
      ensures Greedy(Cells(old(avail[..]), head, i0), takes, units)
      ensures units <= old(avail[..])[Cell(head, i0, n)] ==> !overflow && takes == [units]
      ensures valid == if i0 + delay + 1 > old(valid) then i0 + delay + 1 else old(valid)
    {
      hide Kept, Cell, Next, Channel.Interval, Spent, Greedy, GrantAll, Sum, Grant, Offer, Taken, Serving, Served;
      ghost var j := Job(avail[..], granted, head, max, Interval(now), i0, units, valid, orderly, exact);
      ServeStart(j);
      var pos := Cell(head, i0, n);
      var left: nat := units;
      delay, overflow, takes := 0, false, [];
      while true
        invariant i0 + delay < n && pos == Cell(head, i0 + delay, n) && |takes| == delay && !overflow
        invariant valid == old(valid) && Serving(j, avail[..], granted, left, takes)
        decreases n - delay
      {
        ghost var a, g := avail[..], granted;
        var c := TakeFrom(pos, left, i0 + delay);
        ServeStep(j, a, avail[..], g, left, takes, c);
        left := left - c;
        takes := takes + [c];
        if left == 0 {
          break;
        }
        NextCell(head, i0 + delay, n);
        var next := Next(pos, n);
        if next != head {
          delay := delay + 1;
          pos := next;
        } else {
          overflow := true;
          break;
        }
      }
      ServeEnd(j, avail[..], granted, left, takes);
      CellIndex(head, i0 + delay, n);
      var used := if pos >= head then pos - head + 1 else n - (head - pos - 1);
      if used > valid {
        valid := used;
      }
    }

    /** Takes what the i-th interval has left, up to want. */
    method TakeFrom(pos: nat, want: nat, ghost i: nat) returns (c: nat)
      requires Shape() && head < n && i < n && pos == Cell(head, i, n)
      modifies this`granted, avail
      ensures Taken(old(avail[..]), avail[..], head, i, want, c)
      ensures granted == Grant(old(granted), Interval(now) + i, c)
    {
      hide Cell, Channel.Interval, Grant;
      ghost var a := avail[..];
      c := if want <= avail[pos] then want else avail[pos];
      avail[pos] := avail[pos] - c;
      assert avail[..] == a[pos := a[pos] - c];
      granted := Grant(granted, Interval(now) + i, c);
    }

    /** Where, from the present on, the interval of time t is, counted in 32 bits. */
    function Ahead(t: nat, cur: nat): nat {
      (Interval(t) - Interval(cur)) % WRAP
    }

    /** What the ring will offer from the interval of t on, once the present is cur. */
    ghost function Offered(cur: nat, t: nat): nat
      reads this, avail
      requires Shape() && Ahead(t, cur) < n
    {
      OfferAfter(avail[..], head, max, Shift(Interval(cur) - Interval(now), valid), Ahead(t, cur))
    }

    /** The same, interval by interval. */
    ghost function Offers(cur: nat, t: nat): seq<nat>
      reads this, avail
      requires Shape() && Ahead(t, cur) < n
    {
      CellsAfter(avail[..], head, max, Shift(Interval(cur) - Interval(now), valid), Ahead(t, cur))
    }

    /** One request. It is served exactly when its interval is within the ring and the intervals
        from there on have its units left, and is granted them there; it completes no earlier than
        the transfer takes. While the effective clock, the earlier of wall clock and request time,
        does not go back by an interval, no interval grants more than its maximum, and while no gap
        wraps the counter, what is left is what has not been granted. */
    method Request(wallclock: nat, t: nat, units: nat) returns (done: nat, served: bool, ghost takes: seq<nat>)
      requires Valid()
      modifies this`head, this`valid, this`now, this`orderly, this`exact, this`granted, avail
      ensures Valid() && now == if t < wallclock then t else wallclock
      ensures orderly <==> old(orderly) && Interval(old(now)) <= Interval(now)
      ensures exact <==> old(exact) && (Interval(now) - Interval(old(now)) < WRAP || old(valid) == 0)
      ensures orderly ==> forall j: nat :: Granted(granted, j) <= max
      ensures served <==> Ahead(t, now) < n && units <= old(Offered(if t < wallclock then t else wallclock, t))
      ensures orderly && exact && Ahead(t, now) < n ==>
                (served <==> units <= Room(old(granted), max, Interval(now) + Ahead(t, now), n - Ahead(t, now)))
      ensures granted == GrantAll(old(granted), Interval(t), takes) || Interval(t) - Interval(now) >= WRAP
      ensures served ==> Sum(takes) == units
      ensures !served ==> (done == t && takes == []) || Sum(takes) < units
      ensures Ahead(t, now) < n ==>
                && Greedy(old(Offers(if t < wallclock then t else wallclock, t)), takes, units)
                && done == t + Product(xferLat, units) + Product(Late(|takes|, units, max), unit)
      ensures Shift(Interval(now) - Interval(old(now)), old(valid)) == old(valid) ==>
                Interval(t) == Interval(now) && units <= max ==> served && takes == [units] && valid == 1
    {
      hide Kept, Channel.Interval, Product, GrantAll, Sum, Greedy, Spent, CellsAfter;
      hide OfferAfter, Offer, Room, Refilled, Cell, Shift;
      hide Channel.Ahead, Whole;
      var cur := if t < wallclock then t else wallclock;
      Later(cur, t);
      ghost var a, h, g, d := avail[..], head, granted, Shift(Interval(cur) - Interval(now), valid);
      Advance(cur);
      var offs := Ahead(t, cur);
      AheadIs(t, cur);
      if offs >= n {
        NoGrant(granted, Interval(t));
        KeptCaps(avail[..], head, max, Interval(now), granted, valid, orderly, exact);
        return t, false, [];
      }
      OfferMoves(a, avail[..], h, max, d, offs);
      CellsMove(a, avail[..], h, max, d, offs);
      KeptRoom(avail[..], head, max, Interval(now), granted, valid, orderly, exact, offs);
      KeptFull(avail[..], head, max, Interval(now), granted, valid, orderly, exact);
      var byDefault := Whole(units, max);
      var delay, overflow;
      delay, overflow, takes := Consume(offs, units);
      KeptCaps(avail[..], head, max, Interval(now), granted, valid, orderly, exact);
      var extra := if delay > byDefault then delay - byDefault else 0;
      return t + Product(xferLat, units) + Product(extra, unit), !overflow, takes;
    }

    lemma AheadIs(t: nat, cur: nat)
      ensures 0 <= Interval(t) - Interval(cur) < WRAP ==> Ahead(t, cur) == Interval(t) - Interval(cur)
    {
    }

    lemma Later(x: nat, y: nat)
      requires x <= y
      ensures Interval(x) <= Interval(y)
    {
      if unit >= 1 {
        QuotientsGrow(x, y, unit);
      }
    }
  }

  lemma KeptFull(a: seq<nat>, head: nat, max: nat, base: nat, g: Ledger, hz: nat, orderly: bool, exact: bool)
    requires Kept(a, head, max, base, g, hz, orderly, exact)
    ensures |a| >= 1 && (hz == 0 ==> a[Cell(head, 0, |a|)] == max)
  {
    hide Capped, Exact;
  }

  lemma KeptRoom(a: seq<nat>, head: nat, max: nat, base: nat, g: Ledger, hz: nat, orderly: bool, exact: bool, i: nat)
    requires Kept(a, head, max, base, g, hz, orderly, exact) && i <= |a|
    ensures |a| >= 1 && (orderly && exact ==> Offer(a, head, i) == Room(g, max, base + i, |a| - i))
  {
    hide Offer, Room, Exact, Capped;
    if orderly && exact {
      OfferIsRoom(a, head, max, base, g, i);
    }
  }

  lemma GivenAll(g0: Ledger, g: Ledger, j: nat, takes: seq<nat>, units: nat, left: nat)
    requires Given(g0, g, j, takes, units, left)
    ensures left + Sum(takes) == units
  {
  }

  lemma KeptCaps(a: seq<nat>, head: nat, max: nat, base: nat, g: Ledger, hz: nat, orderly: bool, exact: bool)
    requires Kept(a, head, max, base, g, hz, orderly, exact)
    ensures orderly ==> forall j: nat :: Granted(g, j) <= max
  {
  }

  function Whole(x: nat, m: nat): nat
    requires m >= 1
  {
    x / m
  }

  lemma OneGrant(g: Ledger, j: nat, c: nat, k: nat)
    ensures Granted(GrantAll(g, j, [c]), k) == Granted(g, k) + if k == j then c else 0
  {
    GrantMore(g, j, [], c);
    assert [] + [c] == [c];
    NoGrant(g, j);
  }

  lemma InInterval(ch: Channel, j: nat)
    requires ch.unit >= 1
    ensures ch.Interval(j * ch.unit) == j
  {
    QuotientIs(j * ch.unit, ch.unit, j, 0);
  }

  /** The clock going back once: an interval is used up, a request for nothing comes from the
      interval before it, and the used-up one grants its maximum again. */
  method ClockBackRun(entries: nat, credits: nat, interval: nat, j: nat) returns (ch: Channel)
    requires 1 <= entries < WRAP && 1 <= credits < 256 && interval >= 1 && j >= 1
    ensures fresh(ch) && ch.Valid() && ch.max == credits && Granted(ch.granted, j) == 2 * ch.max
  {
    hide Kept, GrantAll, Sum, Offer, OfferAfter, Room, Channel.Interval, Channel.Ahead, Channel.Offered;
    hide Channel.Offers, Late, Greedy, Shift;
    var t, b := j * interval, (j - 1) * interval;
    ch := new Channel(entries, credits, interval, 0);
    InInterval(ch, j);
    InInterval(ch, j - 1);
    ghost var g := ch.granted;
    var done, served;
    ghost var takes;
    done, served, takes := ch.Request(t, t, credits);
    OneGrant(g, j, credits, j);
    g := ch.granted;
    BackShift(1);
    done, served, takes := ch.Request(b, b, 0);
    OneGrant(g, j - 1, 0, j);
    g := ch.granted;
    done, served, takes := ch.Request(t, t, credits);
    OneGrant(g, j, credits, j);
  }

  lemma NoGrant(g: Ledger, j: nat)
    ensures GrantAll(g, j, []) == g
  {
  }

  lemma RefillDone(a: seq<nat>, a': seq<nat>, head: nat, max: nat, d: nat)
    requires |a| == |a'| >= 1 && head < |a| && d <= |a|
    requires forall x :: 0 <= x < |a| ==>
               a'[x] == if (head <= x < head + d) || (head + d >= |a| && x < head + d - |a|) then max else a[x]
    ensures Refilled(a, a', head, max, d)
  {
    forall i: nat | i < |a|
      ensures a'[Cell(head, i, |a|)] == if i < d then max else a[Cell(head, i, |a|)]
    {
      CellValue(head, i, |a|);
    }
  }

  lemma NextCell(head: nat, i: nat, n: nat)
    requires head < n && i < n
    ensures Next(Cell(head, i, n), n) == Cell(head, i + 1, n)
    ensures Cell(head, i + 1, n) == head <==> i + 1 == n
  {
    hide Cell;
    CellValue(head, i, n);
    CellValue(head, i + 1, n);
    if Cell(head, i, n) + 1 < n {
      QuotientIs(Cell(head, i, n) + 1, n, 0, Cell(head, i, n) + 1);
    } else {
      QuotientIs(n, n, 1, 0);
    }
  }

  lemma CellIndex(head: nat, i: nat, n: nat)
    requires head < n && i < n
    ensures var pos := Cell(head, i, n); i + 1 == if pos >= head then pos - head + 1 else n - (head - pos - 1)
  {
    hide Cell;
    CellValue(head, i, n);
  }
}
