/** The indexed binary heap that orders victim lines.

    Every element carries its priority and its position in the heap array, so a priority can
    be changed in place. Elements are line numbers; `pri` and `pos` are the columns of the line
    table that the heap reaches through its callbacks. The element with the smallest priority
    is on top. */
module VictimQueue {
  import opened Sets

  /** A snapshot of the heap. d[0] is unused; size is the first unused index of d. */
  datatype Heap = Heap(d: seq<nat>, size: nat, pri: seq<int>, pos: seq<nat>, elems: set<nat>)
  {
    ghost predicate Shape() {
      && 1 <= size <= |d|
      && |pri| == |pos| == |d| - 1
      && |elems| == size - 1
      && forall e :: e in elems ==> 0 <= e < |pri|
    }

    /** Enough for every access of the operations to be in range. */
    ghost predicate Bounded() {
      && 1 <= size <= |d| && |pri| == |pos| == |d| - 1
      && forall i :: 1 <= i < size ==> d[i] < |pri|
    }

    /** pos inverts d on the stored elements. */
    ghost predicate Linked()
      requires Shape()
    {
      && (forall i :: 1 <= i < size ==> d[i] in elems && pos[d[i]] == i)
      && (forall e :: e in elems ==> 1 <= pos[e] < size && d[pos[e]] == e)
    }

    ghost predicate Ordered()
      requires Shape() && Linked()
    {
      forall p, j :: 1 <= p && 2 <= j < size && j / 2 == p ==> pri[d[p]] <= pri[d[j]]
    }

    ghost predicate Valid() {
      Shape() && Linked() && Ordered()
    }

    /** Linked, except that index i is a hole waiting for element m. The hole may be the
        index just vacated by shrinking the heap. */
    ghost predicate HoleLinked(i: nat, m: nat)
      requires Shape()
    {
      && 1 <= i <= size && i < |d| && m < |pri|
      && (m in elems <==> i < size)
      && (forall j :: 1 <= j < size && j != i ==> d[j] in elems && d[j] != m && pos[d[j]] == j)
      && (forall e :: e in elems && e != m ==> 1 <= pos[e] < size && pos[e] != i && d[pos[e]] == e)
    }

    /** Heap order among the other indexes, including across the hole. */
    ghost predicate HoleOrdered(i: nat, m: nat)
      requires Shape() && HoleLinked(i, m)
    {
      && (forall p, j :: 1 <= p != i && 2 <= j < size && j != i && j / 2 == p ==> pri[d[p]] <= pri[d[j]])
      && (forall p, j :: 1 <= p == i / 2 && 2 <= j < size && j / 2 == i ==> pri[d[p]] <= pri[d[j]])
    }

    ghost predicate Hole(i: nat, m: nat) {
      Shape() && HoleLinked(i, m) && HoleOrdered(i, m)
    }

    ghost predicate AboveChildren(i: nat, m: nat)
      requires Hole(i, m)
    {
      forall j :: 2 <= j < size && j / 2 == i ==> pri[m] <= pri[d[j]]
    }

    ghost predicate BelowParent(i: nat, m: nat)
      requires Hole(i, m)
    {
      i < size && i > 1 ==> pri[d[i / 2]] <= pri[m]
    }

    /** Move the element at index k into the hole at i, which moves the hole to k. */
    function Shift(i: nat, k: nat): Heap
      requires i < |d| && k < |d| && d[k] < |pos|
    {
      this.(d := d[i := d[k]], pos := pos[d[k] := i])
    }

    function Fill(i: nat, m: nat): Heap
      requires i < |d| && m < |pos|
    {
      this.(d := d[i := m], pos := pos[m := i])
    }
  }

  /** Same elements and priorities; positions may differ only for stored elements and m. */
  ghost predicate Keeps(h: Heap, n: Heap, m: nat) {
    && n.size == h.size && n.pri == h.pri && n.elems == h.elems && |n.d| == |h.d| && |n.pos| == |h.pos|
    && forall e :: 0 <= e < |n.pos| && e !in n.elems && e != m ==> n.pos[e] == h.pos[e]
  }

  lemma ShiftLinked(h: Heap, i: nat, m: nat, k: nat)
    requires h.Shape() && h.HoleLinked(i, m) && 1 <= k < h.size && k != i && i < h.size
    ensures h.d[k] < |h.pos| && h.Shift(i, k).Shape() && h.Shift(i, k).HoleLinked(k, m)
  {
  }

  lemma ShiftUp(h: Heap, i: nat, m: nat, p: nat)
    requires h.Hole(i, m) && 1 < i < h.size && h.AboveChildren(i, m) && p == i / 2
    requires h.pri[h.d[p]] > h.pri[m]
    ensures h.d[p] < |h.pos| && h.Shift(i, p).Hole(p, m)
    ensures h.Shift(i, p).AboveChildren(p, m)
  {
    ShiftLinked(h, i, m, p);
    var n := h.Shift(i, p);
    forall r, j | 1 <= r != p && 2 <= j < n.size && j != p && j / 2 == r
      ensures n.pri[n.d[r]] <= n.pri[n.d[j]]
    {
      if r == i {
        assert h.pri[h.d[p]] <= h.pri[h.d[j]];
      } else {
        assert h.pri[h.d[r]] <= h.pri[h.d[j]];
      }
    }
    ShiftUpSiblings(h, i, m, p);
  }

  lemma ShiftUpSiblings(h: Heap, i: nat, m: nat, p: nat)
    requires h.Hole(i, m) && 1 < i < h.size && p == i / 2
    requires h.pri[h.d[p]] > h.pri[m]
    ensures h.d[p] < |h.pos|
    ensures var n := h.Shift(i, p);
            forall j :: 2 <= j < n.size && j / 2 == p ==>
                          && n.pri[m] <= n.pri[n.d[j]]
                          && (p > 1 ==> n.pri[n.d[p / 2]] <= n.pri[n.d[j]])
  {
    var n := h.Shift(i, p);
    var q := p / 2;
    assert p > 1 ==> h.pri[h.d[q]] <= h.pri[h.d[p]];
    forall j | 2 <= j < n.size && j / 2 == p
      ensures n.pri[m] <= n.pri[n.d[j]]
      ensures p > 1 ==> n.pri[n.d[q]] <= n.pri[n.d[j]]
    {
      if j != i {
        assert h.pri[h.d[p]] <= h.pri[h.d[j]];
      }
    }
  }

  lemma ShiftDown(h: Heap, i: nat, m: nat, c: nat)
    requires h.Hole(i, m) && i < h.size && 2 <= c < h.size && c / 2 == i
    requires h.BelowParent(i, m)
    requires forall j :: 2 <= j < h.size && j / 2 == i ==> h.pri[h.d[c]] <= h.pri[h.d[j]]
    requires h.pri[m] > h.pri[h.d[c]]
    ensures h.d[c] < |h.pos| && h.Shift(i, c).Hole(c, m)
    ensures h.Shift(i, c).BelowParent(c, m)
  {
    ShiftLinked(h, i, m, c);
    ShiftDownOrdered(h, i, m, c);
    var n := h.Shift(i, c);
    forall r, j | 1 <= r == c / 2 && 2 <= j < n.size && j / 2 == c
      ensures n.pri[n.d[r]] <= n.pri[n.d[j]]
    {
      assert h.pri[h.d[c]] <= h.pri[h.d[j]];
    }
  }

  lemma ShiftDownOrdered(h: Heap, i: nat, m: nat, c: nat)
    requires h.Hole(i, m) && i < h.size && 2 <= c < h.size && c / 2 == i
    requires forall j :: 2 <= j < h.size && j / 2 == i ==> h.pri[h.d[c]] <= h.pri[h.d[j]]
    ensures h.d[c] < |h.pos|
    ensures var n := h.Shift(i, c);
            forall r, j :: 1 <= r != c && 2 <= j < n.size && j != c && j / 2 == r ==>
                             n.d[r] < |n.pri| && n.d[j] < |n.pri| && n.pri[n.d[r]] <= n.pri[n.d[j]]
  {
    var n := h.Shift(i, c);
    forall r, j | 1 <= r != c && 2 <= j < n.size && j != c && j / 2 == r
      ensures n.d[r] < |n.pri| && n.d[j] < |n.pri| && n.pri[n.d[r]] <= n.pri[n.d[j]]
    {
      if j == i {
        assert h.pri[h.d[r]] <= h.pri[h.d[c]];
      } else if r == i {
        assert h.pri[h.d[c]] <= h.pri[h.d[j]];
      } else {
        assert h.pri[h.d[r]] <= h.pri[h.d[j]];
      }
    }
  }

  lemma FillHole(h: Heap, i: nat, m: nat)
    requires h.Hole(i, m) && h.AboveChildren(i, m) && h.BelowParent(i, m)
    ensures h.Fill(i, m).Valid()
  {
    var n := h.Fill(i, m);
    assert n.Shape() && n.Linked();
    forall p, j | 1 <= p && 2 <= j < n.size && j / 2 == p ensures n.pri[n.d[p]] <= n.pri[n.d[j]] {
      if j != i && p != i {
        assert h.pri[h.d[p]] <= h.pri[h.d[j]];
      }
    }
  }

  /** Changing the priority of one element leaves a hole that the element fits. */
  lemma Reprioritise(h: Heap, e: nat, newPri: int)
    requires h.Valid() && e in h.elems
    ensures var n := h.(pri := h.pri[e := newPri]);
            var i := h.pos[e];
            && n.Hole(i, e) && h.d[i] == e
            && (newPri < h.pri[e] ==> n.AboveChildren(i, e))
            && (newPri >= h.pri[e] ==> n.BelowParent(i, e))
  {
    var n := h.(pri := h.pri[e := newPri]);
    HoleInOrder(h, n, h.pos[e], e);
    assert h.Ordered();
  }

  /** Moving the last element over a removed one leaves a hole that it fits. */
  lemma Vacate(h: Heap, e: nat)
    requires h.Valid() && e in h.elems
    ensures var n := Without(h, e);
            var i := h.pos[e];
            var m := n.d[i];
            && n.Hole(i, m) && (i < n.size || m == e)
            && (h.pri[m] < h.pri[e] ==> i < n.size && n.AboveChildren(i, m))
            && (h.pri[m] >= h.pri[e] ==> n.BelowParent(i, m))
  {
    WithoutLinked(h, e);
    var n := Without(h, e);
    var i := h.pos[e];
    HoleInOrder(h, n, i, n.d[i]);
    VacatedNeighbours(h, e);
  }

  lemma WithoutLinked(h: Heap, e: nat)
    requires h.Valid() && e in h.elems
    ensures var n := Without(h, e);
            n.Shape() && n.HoleLinked(h.pos[e], n.d[h.pos[e]]) && h.d[h.pos[e]] == e
  {
    hide Heap.Ordered;
  }

  lemma VacatedNeighbours(h: Heap, e: nat)
    requires h.Valid() && e in h.elems && Without(h, e).Hole(h.pos[e], Without(h, e).d[h.pos[e]])
    ensures var n := Without(h, e);
            var i := h.pos[e];
            var m := n.d[i];
            && (i < n.size || m == e)
            && (h.pri[m] < h.pri[e] ==> i < n.size && n.AboveChildren(i, m))
            && (h.pri[m] >= h.pri[e] ==> n.BelowParent(i, m))
  {
    Neighbours(h, e);
    hide Heap.HoleLinked, Heap.HoleOrdered, Heap.Ordered, Heap.Linked;
    MemberBounds(h, e);
    var n := Without(h, e);
    var i := h.pos[e];
    assert forall j :: 1 <= j < n.size && j != i ==> n.d[j] == h.d[j];
  }

  /** A stored element is between its parent and its children. */
  lemma Neighbours(h: Heap, e: nat)
    requires h.Valid() && e in h.elems
    ensures forall j :: 2 <= j < h.size && j / 2 == h.pos[e] ==> h.pri[e] <= h.pri[h.d[j]]
    ensures h.pos[e] > 1 ==> h.pri[h.d[h.pos[e] / 2]] <= h.pri[e]
  {
    var i := h.pos[e];
    forall j | 2 <= j < h.size && j / 2 == i ensures h.pri[e] <= h.pri[h.d[j]] {
      assert h.pri[h.d[i]] <= h.pri[h.d[j]];
    }
    if i > 1 {
      assert h.pri[h.d[i / 2]] <= h.pri[h.d[i]];
    }
  }

  lemma HoleInOrder(h: Heap, n: Heap, i: nat, m: nat)
    requires h.Valid() && 1 <= i < h.size
    requires n.Shape() && |n.d| == |h.d| && n.size <= h.size && n.HoleLinked(i, m)
    requires forall j :: 1 <= j < n.size && j != i ==> n.d[j] == h.d[j]
    requires forall e :: 0 <= e < |h.pri| && e != h.d[i] ==> n.pri[e] == h.pri[e]
    ensures n.Hole(i, m)
  {
    forall p, j | 1 <= p != i && 2 <= j < n.size && j != i && j / 2 == p
      ensures n.pri[n.d[p]] <= n.pri[n.d[j]]
    {
      assert h.pos[h.d[j]] == j && h.pos[h.d[p]] == p;
      assert h.pri[h.d[p]] <= h.pri[h.d[j]];
    }
    forall p, j | 1 <= p == i / 2 && 2 <= j < n.size && j / 2 == i
      ensures n.pri[n.d[p]] <= n.pri[n.d[j]]
    {
      assert h.pos[h.d[j]] == j && h.pos[h.d[p]] == p;
      assert h.pri[h.d[p]] <= h.pri[h.d[i]] <= h.pri[h.d[j]];
    }
  }

  /** The top of a heap is minimal. */
  lemma {:induction false} TopIsMinimal(h: Heap, i: nat)
    requires h.Valid() && 1 <= i < h.size
    ensures h.pri[h.d[1]] <= h.pri[h.d[i]]
  {
    if i > 1 {
      TopIsMinimal(h, i / 2);
    }
  }

  lemma TopBelowAll(h: Heap)
    requires h.Valid() && h.size > 1
    ensures forall x :: x in h.elems ==> h.pri[h.d[1]] <= h.pri[x]
  {
    forall x | x in h.elems ensures h.pri[h.d[1]] <= h.pri[x] {
      TopIsMinimal(h, h.pos[x]);
    }
  }

  lemma OutsideKeeps(h: Heap, e: nat, v: int, i: nat)
    requires h.Valid() && e < |h.pri| && e !in h.elems
    ensures h.(pri := h.pri[e := v], pos := h.pos[e := i]).Valid()
  {
    var n := h.(pri := h.pri[e := v], pos := h.pos[e := i]);
    assert n.Shape() && n.Linked();
    forall p, j | 1 <= p && 2 <= j < n.size && j / 2 == p ensures n.pri[n.d[p]] <= n.pri[n.d[j]] {
      assert h.d[p] in h.elems && h.d[j] in h.elems;
    }
  }

  lemma RoomForOne(h: Heap, e: nat)
    requires h.Shape() && e < |h.pri| && e !in h.elems
    ensures h.size < |h.d|
  {
    var all := Below(|h.pri|);
    assert h.elems <= all - {e};
    SubsetSize(h.elems, all - {e});
  }

  // ----- the two sifts and the operations built from them, as functions of the heap

  /** The child with the smaller priority, or 0 for a leaf. */
  function MaxChild(h: Heap, i: nat): (c: nat)
    requires h.Bounded() && i >= 1
    ensures c == 0 || i < c < h.size
  {
    if 2 * i >= h.size then 0
    else if 2 * i + 1 < h.size && h.pri[h.d[2 * i]] > h.pri[h.d[2 * i + 1]] then 2 * i + 1
    else 2 * i
  }

  function SiftUp(h: Heap, i: nat, m: nat): (n: Heap)
    requires h.Bounded() && 1 <= i < h.size && m < |h.pri|
    ensures n.Bounded() && n.size == h.size && |n.pri| == |h.pri|
    decreases i
  {
    if i > 1 && h.pri[h.d[i / 2]] > h.pri[m]
    then SiftUp(h.Shift(i, i / 2), i / 2, m)
    else h.Fill(i, m)
  }

  function SiftDown(h: Heap, i: nat, m: nat): (n: Heap)
    requires h.Bounded() && 1 <= i <= h.size && i < |h.d| && m < |h.pri|
    ensures n.Bounded() && n.size == h.size && |n.pri| == |h.pri|
    decreases |h.d| - i
  {
    var c := MaxChild(h, i);
    if c != 0 && h.pri[m] > h.pri[h.d[c]]
    then SiftDown(h.Shift(i, c), c, m)
    else h.Fill(i, m)
  }

  lemma HoleBounds(h: Heap, i: nat, m: nat)
    requires h.Hole(i, m)
    ensures 1 <= i <= h.size && i < |h.d| && m < |h.pri| == |h.pos|
  {
  }

  /** Moving a stored element keeps what a later fill keeps. */
  lemma ShiftKeeps(h: Heap, i: nat, m: nat, k: nat, n: Heap)
    requires h.Hole(i, m) && 1 <= k < h.size && k != i && h.d[k] < |h.pos|
    requires Keeps(h.Shift(i, k), n, m)
    ensures Keeps(h, n, m)
  {
    assert h.d[k] in h.elems;
  }

  lemma FillKeeps(h: Heap, i: nat, m: nat)
    requires i < |h.d| && m < |h.pos|
    ensures Keeps(h, h.Fill(i, m), m)
  {
  }

  lemma AtTop(h: Heap, i: nat, m: nat)
    requires h.Hole(i, m) && h.Bounded() && (i == 1 || i == h.size || h.pri[h.d[i / 2]] <= h.pri[m])
    ensures h.BelowParent(i, m)
  {
  }

  lemma {:induction false} SiftUpRestores(h: Heap, i: nat, m: nat)
    requires h.Bounded() && h.Hole(i, m) && i < h.size && h.AboveChildren(i, m)
    ensures SiftUp(h, i, m).Valid() && Keeps(h, SiftUp(h, i, m), m)
    decreases i
  {
    hide Heap.Hole, Heap.Valid, Heap.AboveChildren, Heap.BelowParent, Keeps;
    HoleBounds(h, i, m);
    if i > 1 && h.pri[h.d[i / 2]] > h.pri[m] {
      ShiftUp(h, i, m, i / 2);
      SiftUpRestores(h.Shift(i, i / 2), i / 2, m);
      ShiftKeeps(h, i, m, i / 2, SiftUp(h, i, m));
    } else {
      AtTop(h, i, m);
      FillHole(h, i, m);
      FillKeeps(h, i, m);
    }
  }

  lemma MaxChildIsLeast(h: Heap, i: nat, m: nat)
    requires h.Bounded() && h.Hole(i, m)
    ensures var c := MaxChild(h, i);
            if c == 0 then forall j :: 2 <= j < h.size ==> j / 2 != i
            else c / 2 == i && forall j :: 2 <= j < h.size && j / 2 == i ==> h.pri[h.d[c]] <= h.pri[h.d[j]]
    ensures var c := MaxChild(h, i); c == 0 || h.pri[m] <= h.pri[h.d[c]] ==> h.AboveChildren(i, m)
  {
    var c := MaxChild(h, i);
    forall j | 2 <= j < h.size && j / 2 == i ensures c != 0 && h.pri[h.d[c]] <= h.pri[h.d[j]] {
      assert j == 2 * i || j == 2 * i + 1;
    }
  }

  lemma {:induction false} SiftDownRestores(h: Heap, i: nat, m: nat)
    requires h.Bounded() && h.Hole(i, m) && h.BelowParent(i, m)
    ensures SiftDown(h, i, m).Valid() && Keeps(h, SiftDown(h, i, m), m)
    decreases |h.d| - i
  {
    hide Heap.Hole, Heap.Valid, Heap.AboveChildren, Heap.BelowParent, Keeps;
    HoleBounds(h, i, m);
    var c := MaxChild(h, i);
    MaxChildIsLeast(h, i, m);
    if c != 0 && h.pri[m] > h.pri[h.d[c]] {
      ShiftDown(h, i, m, c);
      SiftDownRestores(h.Shift(i, c), c, m);
      ShiftKeeps(h, i, m, c, SiftDown(h, i, m));
    } else {
      FillHole(h, i, m);
      FillKeeps(h, i, m);
    }
  }

  /** The heap with e written behind the last element. */
  function Staged(h: Heap, e: nat): (n: Heap)
    requires h.Bounded() && h.size < |h.d| && e < |h.pri|
    ensures n.Bounded()
  {
    h.(d := h.d[h.size := e], size := h.size + 1, elems := h.elems + {e})
  }

  function Inserted(h: Heap, e: nat): Heap
    requires h.Bounded() && h.size < |h.d| && e < |h.pri|
  {
    SiftUp(Staged(h, e), h.size, e)
  }

  function Repriced(h: Heap, e: nat, newPri: int): Heap
    requires h.Bounded() && e < |h.pri| && 1 <= h.pos[e] < h.size
  {
    var n := h.(pri := h.pri[e := newPri]);
    var i := h.pos[e];
    if h.pri[e] > newPri then SiftUp(n, i, n.d[i]) else SiftDown(n, i, n.d[i])
  }

  /** The heap with element e overwritten by the last one. */
  function Without(h: Heap, e: nat): (n: Heap)
    requires h.Bounded() && e < |h.pri| && 1 <= h.pos[e] < h.size
    ensures n.Bounded()
  {
    h.(d := h.d[h.pos[e] := h.d[h.size - 1]], size := h.size - 1, elems := h.elems - {e})
  }

  function Removed(h: Heap, e: nat): Heap
    requires h.Bounded() && e < |h.pri| && 1 <= h.pos[e] < h.size
  {
    var n := Without(h, e);
    var i := h.pos[e];
    if h.pri[e] > h.pri[n.d[i]] && i < n.size then SiftUp(n, i, n.d[i]) else SiftDown(n, i, n.d[i])
  }

  lemma InsertKeeps(h: Heap, e: nat)
    requires h.Valid() && e < |h.pri| && e !in h.elems
    ensures h.size < |h.d|
    ensures Inserted(h, e).Valid() && Keeps(h.(elems := h.elems + {e}, size := h.size + 1), Inserted(h, e), e)
  {
    hide Heap.Hole, Heap.Linked, Heap.Ordered, Heap.AboveChildren, Keeps;
    RoomForOne(h, e);
    ValidIsBounded(h);
    StagedLinked(h, e);
    StagedHole(h, e);
    SiftUpRestores(Staged(h, e), h.size, e);
    KeepsStaged(h, Staged(h, e), Inserted(h, e), e);
  }

  lemma ValidIsBounded(h: Heap)
    requires h.Valid()
    ensures h.Bounded()
  {
  }

  lemma StagedLinked(h: Heap, e: nat)
    requires h.Valid() && e < |h.pri| && e !in h.elems && h.size < |h.d|
    ensures Staged(h, e).Shape() && Staged(h, e).HoleLinked(h.size, e)
  {
    hide Heap.Ordered;
  }

  lemma StagedHole(h: Heap, e: nat)
    requires h.Valid() && e < |h.pri| && e !in h.elems && h.size < |h.d|
    requires Staged(h, e).Shape() && Staged(h, e).HoleLinked(h.size, e)
    ensures Staged(h, e).Hole(h.size, e) && Staged(h, e).AboveChildren(h.size, e)
  {
    hide Heap.HoleLinked;
    var n := Staged(h, e);
    forall p, j | 1 <= p != h.size && 2 <= j < n.size && j != h.size && j / 2 == p
      ensures n.pri[n.d[p]] <= n.pri[n.d[j]]
    {
      assert h.pri[h.d[p]] <= h.pri[h.d[j]];
    }
  }

  /** The same elements outside the array change hands with the staged heap. */
  lemma KeepsStaged(h: Heap, t: Heap, n: Heap, m: nat)
    requires Keeps(t, n, m) && t.pos == h.pos && t.pri == h.pri && |t.d| == |h.d|
    ensures Keeps(h.(elems := t.elems, size := t.size), n, m)
  {
  }

  /** A changed priority, up or down, leaves a heap with the same elements. */
  lemma RepriceKeeps(h: Heap, e: nat, newPri: int)
    requires h.Valid() && e in h.elems
    ensures Repriced(h, e, newPri).Valid()
    ensures Keeps(h.(pri := h.pri[e := newPri]), Repriced(h, e, newPri), e)
  {
    Reprioritise(h, e, newPri);
    var n := h.(pri := h.pri[e := newPri]);
    if h.pri[e] > newPri {
      SiftUpRestores(n, h.pos[e], e);
    } else {
      SiftDownRestores(n, h.pos[e], e);
    }
  }

  lemma RemoveKeeps(h: Heap, e: nat)
    requires h.Valid() && e in h.elems
    ensures Removed(h, e).Valid()
    ensures Keeps(h.(elems := h.elems - {e}, size := h.size - 1), Removed(h, e), e)
    ensures h.pri[e] > h.pri[h.d[h.size - 1]] ==> h.pos[e] < h.size - 1
  {
    hide Heap.Hole, Heap.Shape, Heap.Linked, Heap.Ordered, Heap.AboveChildren, Heap.BelowParent, Keeps;
    MemberBounds(h, e);
    Vacate(h, e);
    var n := Without(h, e);
    var i := h.pos[e];
    HoleBounds(n, i, n.d[i]);
    if h.pri[e] > h.pri[n.d[i]] {
      SiftUpRestores(n, i, n.d[i]);
    } else {
      SiftDownRestores(n, i, n.d[i]);
    }
    KeepsWithout(h, n, Removed(h, e), e, n.d[i]);
  }

  lemma MemberBounds(h: Heap, e: nat)
    requires h.Valid() && e in h.elems
    ensures h.Bounded() && e < |h.pri| == |h.pos| && 1 <= h.pos[e] < h.size && h.d[h.pos[e]] == e
    ensures h.pos[e] != h.size - 1 ==> h.d[h.size - 1] in h.elems && h.d[h.size - 1] != e
  {
  }

  /** The top, and what is left without it. */
  lemma TopRemoved(h: Heap)
    requires h.Valid() && h.size > 1
    ensures var e := h.d[1];
            && e in h.elems && h.Bounded() && h.pos[e] == 1 && e < |h.pri|
            && (forall x :: x in h.elems ==> h.pri[e] <= h.pri[x])
            && Removed(h, e).Valid() && Keeps(h.(elems := h.elems - {e}, size := h.size - 1), Removed(h, e), e)
            && Removed(h, e) == SiftDown(Without(h, e), 1, Without(h, e).d[1])
  {
    assert h.d[1] in h.elems && h.d[h.size - 1] in h.elems;
    hide Heap.Linked, Heap.Ordered, Keeps;
    TopBelowAll(h);
    MemberBounds(h, h.d[1]);
    RemoveKeeps(h, h.d[1]);
  }

  lemma TopSlot(h: Heap)
    requires h.Bounded() && h.size > 1
    ensures |h.d| > 1
  {
  }

  lemma KeepsWithout(h: Heap, t: Heap, n: Heap, e: nat, m: nat)
    requires Keeps(t, n, m) && t.pos == h.pos && t.pri == h.pri && |t.d| == |h.d| && (m in t.elems || m == e)
    ensures Keeps(h.(elems := t.elems, size := t.size), n, e)
  {
  }

  /** All but e have a position exactly when they are in the heap. */
  ghost predicate Tracks(h: Heap, e: int) {
    forall x :: 0 <= x < |h.pos| && x != e ==> (h.pos[x] != 0 <==> x in h.elems)
  }

  /** What taking e out leaves: the other elements, with their priorities, and all positions outside
      the heap; so only the position of e may be off. */
  lemma PopLeaves(h: Heap, n: Heap, e: nat)
    requires h.size >= 1 && n.Valid() && e in h.elems
    requires Keeps(h.(elems := h.elems - {e}, size := h.size - 1), n, e)
    ensures n.elems == h.elems - {e} && n.pri == h.pri && |n.pos| == |h.pos|
    ensures forall x :: 0 <= x < |n.pos| && x !in h.elems ==> n.pos[x] == h.pos[x]
    ensures Tracks(h, -1) ==> Tracks(n, e)
  {
    hide Heap.Ordered;
  }

  class PQueue {
    const d: array<nat>
    var size: nat
    var pri: seq<int>
    var pos: seq<nat>
    ghost var elems: set<nat>

    ghost function Snap(): Heap
      reads this, d
    {
      Heap(d[..], size, pri, pos, elems)
    }

    ghost predicate Valid()
      reads this, d
    {
      Snap().Valid()
    }

    /** A position is non-zero exactly for the elements in the heap. */
    ghost predicate Tracked()
      reads this, d
    {
      Valid() && Tracks(Snap(), -1)
    }

    constructor (n: nat)
      ensures Valid() && Tracked() && elems == {} && fresh(d)
      ensures |pos| == n && pri == seq(n, _ => 0)
    {
      d := new nat[n + 1];
      size := 1;
      pri := seq(n, _ => 0);
      pos := seq(n, _ => 0);
      elems := {};
    }

    method MoveEntry(i: nat, k: nat)
      requires i < d.Length && k < d.Length && d[k] < |pos|
      modifies this`pos, d
      ensures Snap() == old(Snap()).Shift(i, k)
    {
      d[i] := d[k];
      pos := pos[d[i] := i];
    }

    method PlaceEntry(i: nat, m: nat)
      requires i < d.Length && m < |pos|
      modifies this`pos, d
      ensures Snap() == old(Snap()).Fill(i, m)
    {
      d[i] := m;
      pos := pos[m := i];
    }

    method BubbleUp(start: nat)
      requires Snap().Bounded() && 1 <= start < size
      modifies this`pos, d
      ensures Snap() == SiftUp(old(Snap()), start, old(d[start]))
    {
      var i := start;
      var moving := d[i];
      var movingPri := pri[moving];
      while i > 1 && pri[d[i / 2]] > movingPri
        invariant Snap().Bounded() && 1 <= i < size
        invariant SiftUp(Snap(), i, moving) == SiftUp(old(Snap()), start, moving)
      {
        MoveEntry(i, i / 2);
        i := i / 2;
      }
      PlaceEntry(i, moving);
    }

    method MaxChildOf(i: nat) returns (c: nat)
      requires Snap().Bounded() && i >= 1
      ensures c == MaxChild(Snap(), i)
    {
      c := 2 * i;
      if c >= size {
        return 0;
      }
      if c + 1 < size && pri[d[c]] > pri[d[c + 1]] {
        c := c + 1;
      }
    }

    method PercolateDown(start: nat)
      requires Snap().Bounded() && 1 <= start <= size && start < d.Length && d[start] < |pri|
      modifies this`pos, d
      ensures Snap() == SiftDown(old(Snap()), start, old(d[start]))
    {
      var i := start;
      var moving := d[i];
      var movingPri := pri[moving];
      var c := MaxChildOf(i);
      while c != 0 && movingPri > pri[d[c]]
        invariant Snap().Bounded() && 1 <= i <= size && i < d.Length
        invariant c == MaxChild(Snap(), i)
        invariant SiftDown(Snap(), i, moving) == SiftDown(old(Snap()), start, moving)
        decreases size - i
      {
        MoveEntry(i, c);
        i := c;
        c := MaxChildOf(i);
      }
      PlaceEntry(i, moving);
    }

    method Insert(e: nat)
      requires Valid() && e < |pri| && e !in elems
      modifies this`size, this`pos, this`elems, d
      ensures Valid() && elems == old(elems) + {e}
      ensures old(Tracked()) ==> Tracked()
      ensures |pos| == old(|pos|)
      ensures forall x :: 0 <= x < |pos| && x !in elems ==> pos[x] == old(pos[x])
    {
      InsertKeeps(Snap(), e);
      var i := size;
      size := size + 1;
      elems := elems + {e};
      d[i] := e;
      BubbleUp(i);
      assert Snap() == Inserted(old(Snap()), e);
    }

    method ChangePriority(newPri: int, e: nat)
      requires Valid() && e in elems
      modifies this`pri, this`pos, d
      ensures Valid() && pri == old(pri)[e := newPri]
      ensures old(Tracked()) ==> Tracked()
      ensures |pos| == old(|pos|)
      ensures forall x :: 0 <= x < |pos| && x !in elems ==> pos[x] == old(pos[x])
    {
      RepriceKeeps(Snap(), e, newPri);
      var oldPri := pri[e];
      pri := pri[e := newPri];
      var posn := pos[e];
      if oldPri > newPri {
        BubbleUp(posn);
      } else {
        PercolateDown(posn);
      }
      assert Snap() == Repriced(old(Snap()), e, newPri);
    }

    method OverwriteByLast(posn: nat, ghost e: nat)
      requires Snap().Bounded() && 1 <= posn < size && e < |pri| && pos[e] == posn
      modifies this`size, this`elems, d
      ensures Snap() == Without(old(Snap()), e)
    {
      size := size - 1;
      elems := elems - {e};
      d[posn] := d[size];
    }

    method Remove(e: nat)
      requires Valid() && e in elems
      modifies this`size, this`pos, this`elems, d
      ensures Valid() && elems == old(elems) - {e}
      ensures |pos| == old(|pos|)
      ensures forall x :: 0 <= x < |pos| && x !in old(elems) ==> pos[x] == old(pos[x])
    {
      RemoveKeeps(Snap(), e);
      var posn := pos[e];
      OverwriteByLast(posn, e);
      if pri[e] > pri[d[posn]] {
        BubbleUp(posn);
      } else {
        PercolateDown(posn);
      }
      assert Snap() == Removed(old(Snap()), e);
    }

    /** The priority of an element may be written directly while it is not in the heap. */
    method SetPriorityOutside(e: nat, v: int)
      requires Tracked() && e < |pri| && e !in elems
      modifies this`pri
      ensures Valid() && Tracked() && pri == old(pri)[e := v]
    {
      OutsideKeeps(Snap(), e, v, pos[e]);
      pri := pri[e := v];
      assert Snap() == old(Snap()).(pri := pri, pos := pos[e := pos[e]]);
    }

    /** So may its position. */
    method ClearPosition(e: nat)
      requires Valid() && e < |pri| && e !in elems
      requires Tracks(Snap(), e)
      modifies this`pos
      ensures Valid() && Tracked() && |pos| == old(|pos|)
    {
      OutsideKeeps(Snap(), e, pri[e], 0);
      pos := pos[e := 0];
      assert Snap() == old(Snap()).(pri := pri[e := pri[e]], pos := pos);
    }

    /** The minimal element, or nothing when the heap is empty. */
    method Peek() returns (found: bool, e: nat)
      requires Valid()
      ensures found <==> elems != {}
      ensures found ==> e in elems && forall x :: x in elems ==> pri[e] <= pri[x]
      ensures found ==> 1 < d.Length && e == d[1]
    {
      if size == 1 {
        return false, 0;
      }
      found, e := true, d[1];
      TopBelowAll(Snap());
      assert Snap().d[1] in elems;
    }

    /** Takes the minimal element out. Its own position field is left as it was. */
    method Pop() returns (found: bool, e: nat)
      requires Valid()
      modifies this`size, this`pos, this`elems, d
      ensures Valid()
      ensures found <==> old(elems) != {}
      ensures !found ==> elems == old(elems) && pos == old(pos)
      ensures found ==> e in old(elems) && elems == old(elems) - {e}
      ensures found ==> 1 < d.Length && e == old(d[1])
      ensures found && old(Tracked()) ==> Tracks(Snap(), e)
      ensures found ==> forall x :: x in old(elems) ==> pri[e] <= pri[x]
      ensures |pos| == old(|pos|)
      ensures found ==> forall x :: 0 <= x < |pos| && x !in old(elems) ==> pos[x] == old(pos[x])
    {
      if size == 1 {
        return false, 0;
      }
      hide Heap.Shape, Heap.Linked, Heap.Ordered, Heap.Bounded, SiftDown, Keeps, Tracks;
      TopRemoved(Snap());
      TopSlot(Snap());
      found, e := true, d[1];
      assert Snap().d[1] == e;
      OverwriteByLast(1, e);
      PercolateDown(1);
      assert Snap() == Removed(old(Snap()), e);
      PopLeaves(old(Snap()), Snap(), e);
    }
  }
}
