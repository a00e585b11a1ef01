/** The buddy allocator of the SLM pool, as a function on trees. A node is free, in use, or split
    into two halves; where a node lies follows from its place in the tree. */
module Buddy {
  import opened Wrappers
  import opened Arithmetic

  datatype Tree = Free | Used(act: nat) | Split(left: Tree, right: Tree)

  datatype Block = Block(start: nat, len: nat) {
    predicate Before(b: Block) {
      start + len <= b.start
    }
    predicate Disjoint(b: Block) {
      Before(b) || b.Before(this)
    }
    predicate Within(b: Block) {
      b.start <= start && start + len <= b.start + b.len
    }
  }

  // ----- allocation and release

  function Alloc(t: Tree, idx: nat, size: nat, req: nat): (Tree, Option<nat>)
    requires req > 0
    decreases t, size
  {
    match t
    case Split(l, r) =>
      var (l', rt) := Alloc(l, idx, size / 2, req);
      if rt.Some? then (Split(l', r), rt)
      else
        var (r', rt') := Alloc(r, idx + size / 2, size / 2, req);
        (Split(l', r'), rt')
    case Used(_) => (t, None)
    case Free =>
      if size < req then (t, None)
      else if size / 2 >= req then
        var (l', rt) := Alloc(Free, idx, size / 2, req);
        (Split(l', Free), rt)
      else (Used(req), Some(idx))
  }

  function Merged(l: Tree, r: Tree): Tree {
    if l.Free? && r.Free? then Free else Split(l, r)
  }

  function Release(t: Tree, idx: nat, size: nat, i: nat): (Tree, bool) {
    match t
    case Split(l, r) =>
      var (l', okL) := Release(l, idx, size / 2, i);
      var (r', okR) := Release(r, idx + size / 2, size / 2, i);
      (Merged(l', r'), okL || okR)
    case Used(_) => if idx == i then (Free, true) else (t, false)
    case Free => (t, false)
  }

  /** Bytes from i to the end of the block in use that holds it. */
  function SizeAt(t: Tree, idx: nat, size: nat, i: nat): Option<nat> {
    match t
    case Split(l, r) =>
      var rt := SizeAt(r, idx + size / 2, size / 2, i);
      if rt.Some? then rt else SizeAt(l, idx, size / 2, i)
    case Used(_) => if idx <= i < idx + size then Some(idx + size - i) else None
    case Free => None
  }

  // ----- what a tree stands for

  /** The blocks in use and the free leaves. */
  function Live(t: Tree, idx: nat, size: nat): set<Block> {
    match t
    case Split(l, r) => Live(l, idx, size / 2) + Live(r, idx + size / 2, size / 2)
    case Used(_) => {Block(idx, size)}
    case Free => {}
  }

  function FreeLeaves(t: Tree, idx: nat, size: nat): set<Block> {
    match t
    case Split(l, r) => FreeLeaves(l, idx, size / 2) + FreeLeaves(r, idx + size / 2, size / 2)
    case Used(_) => {}
    case Free => {Block(idx, size)}
  }

  /** No two free buddies, and no block in use of size zero. */
  predicate Tidy(t: Tree, size: nat) {
    match t
    case Split(l, r) => !(l.Free? && r.Free?) && Tidy(l, size / 2) && Tidy(r, size / 2)
    case Used(_) => size > 0
    case Free => true
  }

  lemma {:induction false} LeavesWithin(t: Tree, idx: nat, size: nat)
    ensures forall b :: b in Live(t, idx, size) || b in FreeLeaves(t, idx, size) ==> b.Within(Block(idx, size))
  {
    if t.Split? {
      var h := size / 2;
      LeavesWithin(t.left, idx, h);
      LeavesWithin(t.right, idx + h, h);
      forall b | b in Live(t, idx, size) || b in FreeLeaves(t, idx, size) ensures b.Within(Block(idx, size)) {
        if b in Live(t.left, idx, h) || b in FreeLeaves(t.left, idx, h) {
          assert b.Within(Block(idx, h));
        } else {
          assert b.Within(Block(idx + h, h));
        }
      }
    }
  }

  /** Blocks in use never overlap each other or a free leaf. */
  lemma {:induction false} LiveDisjoint(t: Tree, idx: nat, size: nat, a: Block, b: Block)
    requires a in Live(t, idx, size) && (b in Live(t, idx, size) || b in FreeLeaves(t, idx, size)) && a != b
    ensures a.Disjoint(b)
  {
    if t.Split? {
      var h := size / 2;
      LeavesWithin(t.left, idx, h);
      LeavesWithin(t.right, idx + h, h);
      if a in Live(t.left, idx, h) && (b in Live(t.left, idx, h) || b in FreeLeaves(t.left, idx, h)) {
        LiveDisjoint(t.left, idx, h, a, b);
      } else if a in Live(t.right, idx + h, h)
             && (b in Live(t.right, idx + h, h) || b in FreeLeaves(t.right, idx + h, h))
      {
        LiveDisjoint(t.right, idx + h, h, a, b);
      }
    }
  }

  lemma {:induction false} LivePositive(t: Tree, idx: nat, size: nat)
    requires Tidy(t, size)
    ensures forall b :: b in Live(t, idx, size) ==> b.len > 0
  {
    if t.Split? {
      LivePositive(t.left, idx, size / 2);
      LivePositive(t.right, idx + size / 2, size / 2);
    }
  }

  // ----- allocation

  /** The block of a successful request: as large as asked for, less than twice as large plus
      one, cut out of a free leaf, and the only change to the blocks in use. */
  ghost predicate GrantedBlock(live: set<Block>, live': set<Block>, free: set<Block>, req: nat, b: Block) {
    && b.len >= req && b.len / 2 < req
    && live' == live + {b}
    && exists f :: f in free && b.Within(f)
  }

  ghost predicate Granted(live: set<Block>, live': set<Block>, free: set<Block>, req: nat, i: nat) {
    exists b: Block :: b.start == i && GrantedBlock(live, live', free, req, b)
  }

  predicate HasRoom(t: Tree, idx: nat, size: nat, req: nat) {
    exists f :: f in FreeLeaves(t, idx, size) && f.len >= req
  }

  lemma HasRoomSplit(l: Tree, r: Tree, idx: nat, size: nat, req: nat)
    ensures HasRoom(Split(l, r), idx, size, req) <==>
            HasRoom(l, idx, size / 2, req) || HasRoom(r, idx + size / 2, size / 2, req)
  {
  }

  /** What is granted in one half is granted in the whole. */
  lemma GrantedInHalf(live: set<Block>, live': set<Block>, free: set<Block>, req: nat, i: nat,
                      otherLive: set<Block>, otherFree: set<Block>)
    requires Granted(live, live', free, req, i)
    ensures Granted(live + otherLive, live' + otherLive, free + otherFree, req, i)
    ensures Granted(otherLive + live, otherLive + live', otherFree + free, req, i)
  {
    var b: Block :| b.start == i && GrantedBlock(live, live', free, req, b);
    var f :| f in free && b.Within(f);
    assert f in free + otherFree && f in otherFree + free;
    assert live' + otherLive == live + otherLive + {b};
    assert otherLive + live' == otherLive + live + {b};
    assert GrantedBlock(live + otherLive, live' + otherLive, free + otherFree, req, b);
    assert GrantedBlock(otherLive + live, otherLive + live', otherFree + free, req, b);
  }

  /** Allocation fails exactly when no free leaf is large enough, and then changes nothing. */
  lemma {:induction false} AllocCorrect(t: Tree, idx: nat, size: nat, req: nat)
    requires req > 0
    ensures var (t', rt) := Alloc(t, idx, size, req);
            && (rt.Some? <==> HasRoom(t, idx, size, req))
            && (rt.None? ==> t' == t)
            && (rt.Some? ==>
                  && !t'.Free?
                  && Granted(Live(t, idx, size), Live(t', idx, size), FreeLeaves(t, idx, size), req, rt.value))
    decreases t, size
  {
    match t
    case Split(l, r) =>
      AllocCorrect(l, idx, size / 2, req);
      AllocCorrect(r, idx + size / 2, size / 2, req);
      HasRoomSplit(l, r, idx, size, req);
      var (l', rt) := Alloc(l, idx, size / 2, req);
      if rt.Some? {
        GrantedInHalf(Live(l, idx, size / 2), Live(l', idx, size / 2), FreeLeaves(l, idx, size / 2), req, rt.value,
                      Live(r, idx + size / 2, size / 2), FreeLeaves(r, idx + size / 2, size / 2));
      } else {
        var (r', rt') := Alloc(r, idx + size / 2, size / 2, req);
        if rt'.Some? {
          GrantedInHalf(Live(r, idx + size / 2, size / 2), Live(r', idx + size / 2, size / 2),
                        FreeLeaves(r, idx + size / 2, size / 2), req, rt'.value,
                        Live(l, idx, size / 2), FreeLeaves(l, idx, size / 2));
        }
      }
    case Used(_) =>
    case Free =>
      assert Block(idx, size) in FreeLeaves(t, idx, size);
      if size >= req {
        if size / 2 >= req {
          AllocCorrect(Free, idx, size / 2, req);
          assert Block(idx, size / 2) in FreeLeaves(Free, idx, size / 2);
          var (l', rt) := Alloc(Free, idx, size / 2, req);
          GrantedInWhole(Live(l', idx, size / 2), idx, size, req, rt.value);
          assert Live(Split(l', Free), idx, size) == Live(l', idx, size / 2) + {};
          assert FreeLeaves(Free, idx, size) == {Block(idx, size)};
        } else {
          var b := Block(idx, size);
          assert Live(Used(req), idx, size) == Live(t, idx, size) + {b};
          assert b.Within(b);
          assert GrantedBlock(Live(t, idx, size), Live(Used(req), idx, size), FreeLeaves(t, idx, size), req, b);
        }
      }
  }

  lemma GrantedInWhole(live': set<Block>, idx: nat, size: nat, req: nat, i: nat)
    requires Granted({}, live', {Block(idx, size / 2)}, req, i)
    ensures Granted({}, live' + {}, {Block(idx, size)}, req, i)
  {
    var b: Block :| b.start == i && GrantedBlock({}, live', {Block(idx, size / 2)}, req, b);
    assert b.Within(Block(idx, size));
    assert live' + {} == live';
    assert GrantedBlock({}, live', {Block(idx, size)}, req, b);
  }

  /** The new block overlaps no block that was in use. */
  lemma AllocDisjoint(t: Tree, idx: nat, size: nat, live': set<Block>, req: nat, b: Block, a: Block)
    requires Tidy(t, size) && req > 0
    requires GrantedBlock(Live(t, idx, size), live', FreeLeaves(t, idx, size), req, b) && a in Live(t, idx, size)
    ensures a.Disjoint(b)
  {
    var f :| f in FreeLeaves(t, idx, size) && b.Within(f);
    LivePositive(t, idx, size);
    LeafKinds(t, idx, size, a);
    LiveDisjoint(t, idx, size, a, f);
  }

  lemma {:induction false} LeafKinds(t: Tree, idx: nat, size: nat, a: Block)
    requires a.len > 0
    ensures !(a in Live(t, idx, size) && a in FreeLeaves(t, idx, size))
  {
    if t.Split? {
      LeavesWithin(t.left, idx, size / 2);
      LeavesWithin(t.right, idx + size / 2, size / 2);
      LeafKinds(t.left, idx, size / 2, a);
      LeafKinds(t.right, idx + size / 2, size / 2, a);
    }
  }

  lemma {:induction false} AllocTidy(t: Tree, idx: nat, size: nat, req: nat)
    requires req > 0 && Tidy(t, size)
    ensures Tidy(Alloc(t, idx, size, req).0, size)
    decreases t, size
  {
    AllocCorrect(t, idx, size, req);
    match t
    case Split(l, r) =>
      AllocTidy(l, idx, size / 2, req);
      AllocTidy(r, idx + size / 2, size / 2, req);
      AllocCorrect(l, idx, size / 2, req);
      AllocCorrect(r, idx + size / 2, size / 2, req);
    case Used(_) =>
    case Free =>
      if size / 2 >= req {
        AllocTidy(Free, idx, size / 2, req);
        AllocCorrect(Free, idx, size / 2, req);
        assert Block(idx, size / 2) in FreeLeaves(Free, idx, size / 2);
      }
  }

  // ----- release

  ghost predicate StartsBlock(t: Tree, idx: nat, size: nat, i: nat) {
    exists b :: b in Live(t, idx, size) && b.start == i
  }

  /** Releasing i removes the block that starts there, and fails without a trace exactly when
      there is none. */
  lemma {:induction false} ReleaseCorrect(t: Tree, idx: nat, size: nat, i: nat)
    requires Tidy(t, size)
    ensures var (t', ok) := Release(t, idx, size, i);
            && Tidy(t', size)
            && (ok <==> StartsBlock(t, idx, size, i))
            && (!ok ==> t' == t)
            && (forall b :: b in Live(t', idx, size) <==> b in Live(t, idx, size) && b.start != i)
  {
    if t.Split? {
      ReleaseCorrect(t.left, idx, size / 2, i);
      ReleaseCorrect(t.right, idx + size / 2, size / 2, i);
    } else if t.Used? && idx == i {
      assert Block(idx, size) in Live(t, idx, size);
    }
  }

  lemma {:induction false} ReleaseMisses(t: Tree, idx: nat, size: nat, i: nat)
    requires Tidy(t, size) && !StartsBlock(t, idx, size, i)
    ensures Release(t, idx, size, i) == (t, false)
  {
    ReleaseCorrect(t, idx, size, i);
  }

  lemma OutsideStartsNothing(t: Tree, idx: nat, size: nat, i: nat)
    requires Tidy(t, size) && !(idx <= i < idx + size)
    ensures !StartsBlock(t, idx, size, i)
  {
    LeavesWithin(t, idx, size);
    LivePositive(t, idx, size);
  }

  lemma {:induction false} AllocRange(t: Tree, idx: nat, size: nat, req: nat)
    requires req > 0
    ensures var rt := Alloc(t, idx, size, req).1; rt.Some? ==> idx <= rt.value < idx + size
    decreases t, size
  {
    if t.Split? {
      AllocRange(t.left, idx, size / 2, req);
      AllocRange(t.right, idx + size / 2, size / 2, req);
    } else if t.Free? && size / 2 >= req {
      AllocRange(Free, idx, size / 2, req);
    }
  }

  /** Releasing what was just allocated restores the tree, merges included. */
  lemma {:induction false} ReleaseUndoesAlloc(t: Tree, idx: nat, size: nat, req: nat)
    requires req > 0 && Tidy(t, size)
    ensures var (t', rt) := Alloc(t, idx, size, req);
            rt.Some? ==> Release(t', idx, size, rt.value) == (t, true)
    decreases t, size
  {
    var (t', rt) := Alloc(t, idx, size, req);
    if rt.Some? {
      match t
      case Split(l, r) =>
        var h := size / 2;
        AllocRange(l, idx, h, req);
        AllocRange(r, idx + h, h, req);
        AllocCorrect(l, idx, h, req);
        if Alloc(l, idx, h, req).1.Some? {
          ReleaseUndoesAlloc(l, idx, h, req);
          OutsideStartsNothing(r, idx + h, h, rt.value);
          ReleaseMisses(r, idx + h, h, rt.value);
        } else {
          ReleaseUndoesAlloc(r, idx + h, h, req);
          OutsideStartsNothing(l, idx, h, rt.value);
          ReleaseMisses(l, idx, h, rt.value);
        }
      case Free =>
        if size / 2 >= req {
          ReleaseUndoesAlloc(Free, idx, size / 2, req);
        }
    }
  }

  // ----- lookup

  /** The lookup finds the one block in use that holds i. */
  lemma {:induction false} SizeAtCorrect(t: Tree, idx: nat, size: nat, i: nat, n: nat)
    ensures SizeAt(t, idx, size, i) == Some(n) <==>
            exists b :: b in Live(t, idx, size) && b.start <= i < b.start + b.len && n == b.start + b.len - i
  {
    match t
    case Split(l, r) =>
      var h := size / 2;
      SizeAtCorrect(l, idx, h, i, n);
      SizeAtCorrect(r, idx + h, h, i, n);
      LeavesWithin(l, idx, h);
      LeavesWithin(r, idx + h, h);
      SizeAtInside(l, idx, h, i);
      SizeAtInside(r, idx + h, h, i);
    case Used(_) =>
      assert Block(idx, size) in Live(t, idx, size);
    case Free =>
  }

  lemma {:induction false} SizeAtInside(t: Tree, idx: nat, size: nat, i: nat)
    ensures SizeAt(t, idx, size, i).Some? ==> idx <= i < idx + size
  {
    if t.Split? {
      SizeAtInside(t.left, idx, size / 2, i);
      SizeAtInside(t.right, idx + size / 2, size / 2, i);
    }
  }

  // ----- alignment

  ghost predicate IsPow2(n: nat) {
    exists k :: n == Pow2(k)
  }

  /** Node sizes stay at least one: no node of size one or less is split. */
  predicate Divisible(t: Tree, size: nat) {
    t.Split? ==> size >= 2 && Divisible(t.left, size / 2) && Divisible(t.right, size / 2)
  }

  /** The halves of an aligned block are aligned. */
  lemma HalvesAligned(idx: nat, size: nat, k: nat)
    requires size == Pow2(k) && size >= 2 && idx % size == 0
    ensures k >= 1 && size / 2 == Pow2(k - 1) && idx % (size / 2) == 0 && (idx + size / 2) % (size / 2) == 0
  {
    var h, q := size / 2, idx / size;
    assert size == 2 * h && h == Pow2(k - 1);
    assert idx == q * size == (2 * q) * h;
    QuotientIs(idx, h, 2 * q, 0);
    QuotientIs(idx + h, h, 2 * q + 1, 0);
  }

  /** In a pool whose size is a power of two, every block is a power of two long and aligned to
      its own length. */
  lemma {:induction false} Aligned(t: Tree, idx: nat, size: nat, k: nat, b: Block)
    requires size == Pow2(k) && idx % size == 0 && Divisible(t, size)
    requires b in Live(t, idx, size) || b in FreeLeaves(t, idx, size)
    ensures IsPow2(b.len) && b.start % b.len == 0
  {
    if t.Split? {
      var h := size / 2;
      HalvesAligned(idx, size, k);
      if b in Live(t.left, idx, h) || b in FreeLeaves(t.left, idx, h) {
        Aligned(t.left, idx, h, k - 1, b);
      } else {
        Aligned(t.right, idx + h, h, k - 1, b);
      }
    }
  }

  lemma {:induction false} AllocDivisible(t: Tree, idx: nat, size: nat, req: nat)
    requires req > 0 && Divisible(t, size)
    ensures Divisible(Alloc(t, idx, size, req).0, size)
    decreases t, size
  {
    if t.Split? {
      AllocDivisible(t.left, idx, size / 2, req);
      AllocDivisible(t.right, idx + size / 2, size / 2, req);
    } else if t.Free? && size / 2 >= req {
      AllocDivisible(Free, idx, size / 2, req);
    }
  }

  lemma {:induction false} ReleaseDivisible(t: Tree, idx: nat, size: nat, i: nat)
    requires Divisible(t, size)
    ensures Divisible(Release(t, idx, size, i).0, size)
  {
    if t.Split? {
      ReleaseDivisible(t.left, idx, size / 2, i);
      ReleaseDivisible(t.right, idx + size / 2, size / 2, i);
    }
  }

  lemma {:induction false} Pow2Divides(j: nat, k: nat)
    requires j <= k
    ensures Pow2(k) % Pow2(j) == 0
  {
    if j < k {
      Pow2Divides(j, k - 1);
      EvenMultiple(Pow2(k - 1), Pow2(j));
    } else {
      QuotientIs(Pow2(j), Pow2(j), 1, 0);
    }
  }

  lemma EvenMultiple(x: nat, y: nat)
    requires y >= 1 && x % y == 0
    ensures (2 * x) % y == 0
  {
    assert x == (x / y) * y;
    QuotientIs(2 * x, y, 2 * (x / y), 0);
  }

  lemma {:induction false} Pow2Grows(j: nat, k: nat)
    requires j < k
    ensures 2 * Pow2(j) <= Pow2(k)
  {
    if j + 1 < k {
      Pow2Grows(j, k - 1);
    }
  }

  lemma LongBlockAligned(b: Block, j: nat, req: nat)
    requires IsPow2(b.len) && b.start % b.len == 0 && b.len >= req && 2 * req > Pow2(j)
    ensures b.start % Pow2(j) == 0
  {
    var m: nat :| b.len == Pow2(m);
    if m < j {
      Pow2Grows(m, j);
    }
    Pow2Divides(j, m);
    DividesTrans(b.start, b.len, Pow2(j));
  }

  /** A request of more than half a page comes back page-aligned. */
  lemma PageAligned(t: Tree, k: nat, j: nat, req: nat)
    requires req > 0 && Divisible(t, Pow2(k)) && 2 * req > Pow2(j)
    ensures var rt := Alloc(t, 0, Pow2(k), req).1; rt.Some? ==> rt.value % Pow2(j) == 0
  {
    hide Pow2, Alloc, Live, FreeLeaves, Divisible, IsPow2;
    var size := Pow2(k);
    var (t', rt) := Alloc(t, 0, size, req);
    if rt.Some? {
      AllocCorrect(t, 0, size, req);
      AllocDivisible(t, 0, size, req);
      var b: Block :| b.start == rt.value
        && GrantedBlock(Live(t, 0, size), Live(t', 0, size), FreeLeaves(t, 0, size), req, b);
      assert b in Live(t', 0, size);
      Aligned(t', 0, size, k, b);
      LongBlockAligned(b, j, req);
    }
  }

  lemma HalfBelow(k: nat, req: nat)
    requires Pow2(k) / 2 < req
    ensures Pow2(k) < 2 * req
  {
  }

  /** Two equal requests on a free pool get neighbouring blocks. */
  lemma {:induction false} SecondBlock(idx: nat, k: nat, req: nat)
    requires 0 < req <= Pow2(k) / 2
    ensures var (t1, _) := Alloc(Free, idx, Pow2(k), req);
            exists m :: req <= Pow2(m) < 2 * req && Alloc(t1, idx, Pow2(k), req).1 == Some(idx + Pow2(m))
  {
    var h := Pow2(k - 1);
    var (l1, _) := Alloc(Free, idx, h, req);
    if req <= h / 2 {
      SecondBlock(idx, k - 1, req);
    } else {
      assert l1 == Used(req);
      assert Alloc(Free, idx + h, h, req).1 == Some(idx + h);
      assert Alloc(Split(l1, Free), idx, Pow2(k), req).1 == Some(idx + h);
      HalfBelow(k - 1, req);
    }
  }

  /** ... so any smaller request can come back misaligned, on the second call already. */
  lemma SmallRequestsMisalign(k: nat, j: nat, req: nat)
    requires 0 < req && 2 * req <= Pow2(j) <= Pow2(k)
    ensures var (t1, _) := Alloc(Free, 0, Pow2(k), req);
            var rt := Alloc(t1, 0, Pow2(k), req).1;
            rt.Some? && rt.value % Pow2(j) != 0
  {
    if k == j {
    } else if k < j {
      Pow2Grows(k, j);
    } else {
      Pow2Grows(j, k);
    }
    SecondBlock(0, k, req);
    var (t1, _) := Alloc(Free, 0, Pow2(k), req);
    var m :| req <= Pow2(m) < 2 * req && Alloc(t1, 0, Pow2(k), req).1 == Some(Pow2(m));
    QuotientIs(Pow2(m), Pow2(j), 0, Pow2(m));
  }
}
