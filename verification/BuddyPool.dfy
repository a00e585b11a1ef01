/** The allocator's nodes, changed in place, against the tree functions of Buddy. */
module BuddyPool {
  import opened Wrappers
  import opened Arithmetic
  import opened Buddy

  datatype NodeState = FREE | SPLIT | ALLOC

  class Node {
    var idx: nat
    var state: NodeState
    var size: nat
    var actSize: nat
    var left: Node?
    var right: Node?
    ghost var repr: set<Node>

    ghost predicate Valid()
      reads this, repr
      decreases repr
    {
      && this in repr
      && (state == SPLIT ==>
            && left != null && right != null && left in repr && right in repr
            && left.repr < repr && right.repr < repr
            && this !in left.repr && this !in right.repr && left.repr !! right.repr
            && left.Valid() && right.Valid()
            && left.size == size / 2 && right.size == size / 2
            && left.idx == idx && right.idx == idx + size / 2)
      && (state != SPLIT ==> left == null && right == null)
    }

    ghost function Shape(): Tree
      requires Valid()
      reads this, repr
      decreases repr
    {
      match state
      case FREE => Free
      case ALLOC => Used(actSize)
      case SPLIT => Split(left.Shape(), right.Shape())
    }

    constructor (i: nat, s: nat)
      ensures Valid() && fresh(repr) && repr == {this} && Shape() == Free && idx == i && size == s && state == FREE
    {
      idx, size, state, actSize := i, s, FREE, 0;
      left, right := null, null;
      repr := {this};
    }

    /** Puts two free halves below a free node. */
    method Halve()
      requires Valid() && state == FREE
      modifies this
      ensures Valid() && state == SPLIT && fresh(repr - old(repr)) && idx == old(idx) && size == old(size)
      ensures fresh(left.repr) && fresh(right.repr) && left.Shape() == Free && right.Shape() == Free
    {
      var l := new Node(idx, size / 2);
      var r := new Node(idx + size / 2, size / 2);
      left, right, state := l, r, SPLIT;
      repr := repr + {l, r};
    }

    method Alloc(req: nat) returns (rt: Option<nat>)
      requires Valid() && req > 0
      modifies repr
      ensures Valid() && fresh(repr - old(repr)) && idx == old(idx) && size == old(size)
      ensures (Shape(), rt) == Buddy.Alloc(old(Shape()), idx, size, req)
      decreases Shape(), size, 1
    {
      if state == SPLIT {
        rt := AllocLeft(req);
        if rt.Some? {
          return;
        }
        rt := AllocRight(req);
        return;
      }
      if state != FREE {
        return None;
      }
      if size < req {
        return None;
      }
      if size / 2 >= req {
        Halve();
        rt := AllocLeft(req);
        return;
      }
      state := ALLOC;
      actSize := req;
      return Some(idx);
    }

    method AllocLeft(req: nat) returns (rt: Option<nat>)
      requires Valid() && req > 0 && state == SPLIT
      modifies repr
      ensures Valid() && state == SPLIT && fresh(repr - old(repr)) && idx == old(idx) && size == old(size)
      ensures (left.Shape(), rt) == Buddy.Alloc(old(left.Shape()), idx, size / 2, req)
      ensures right.Shape() == old(right.Shape())
      decreases left.Shape(), left.size, 2
    {
      rt := left.Alloc(req);
      repr := repr + left.repr;
    }

    method AllocRight(req: nat) returns (rt: Option<nat>)
      requires Valid() && req > 0 && state == SPLIT
      modifies repr
      ensures Valid() && state == SPLIT && fresh(repr - old(repr)) && idx == old(idx) && size == old(size)
      ensures (right.Shape(), rt) == Buddy.Alloc(old(right.Shape()), idx + size / 2, size / 2, req)
      ensures left.Shape() == old(left.Shape())
      decreases right.Shape(), right.size, 2
    {
      rt := right.Alloc(req);
      repr := repr + right.repr;
    }

    method Release(i: nat) returns (ok: bool)
      requires Valid()
      modifies repr
      ensures Valid() && repr <= old(repr) && idx == old(idx) && size == old(size)
      ensures (Shape(), ok) == Buddy.Release(old(Shape()), idx, size, i)
      decreases repr, 1
    {
      if state == SPLIT {
        ok := ReleaseBelow(i);
        Merge();
        return;
      }
      if idx == i && state == ALLOC {
        state := FREE;
        return true;
      }
      return false;
    }

    /** Releases in both halves. */
    method ReleaseBelow(i: nat) returns (ok: bool)
      requires Valid() && state == SPLIT
      modifies left.repr, right.repr
      ensures Valid() && state == SPLIT
      ensures var (l, okL) := Buddy.Release(old(left.Shape()), idx, size / 2, i);
              var (r, okR) := Buddy.Release(old(right.Shape()), idx + size / 2, size / 2, i);
              left.Shape() == l && right.Shape() == r && ok == (okL || okR)
      decreases repr, 0
    {
      var okL := left.Release(i);
      var okR := right.Release(i);
      return okL || okR;
    }

    /** Two free halves become one free node. */
    method Merge()
      requires Valid() && state == SPLIT
      modifies this`left, this`right, this`state
      ensures Valid() && Shape() == Merged(old(left.Shape()), old(right.Shape()))
    {
      if left.state == FREE && right.state == FREE {
        left, right := null, null;
        state := FREE;
      }
    }

    method SizeOf(i: nat) returns (rt: Option<nat>)
      requires Valid()
      ensures rt == SizeAt(Shape(), idx, size, i)
      decreases repr
    {
      if state == SPLIT {
        rt := right.SizeOf(i);
        if rt.None? {
          rt := left.SizeOf(i);
        }
        return;
      }
      if idx <= i < idx + size && state == ALLOC {
        return Some(idx + size - i);
      }
      return None;
    }
  }

  /** The pool: a node that covers everything, and the invariants of its tree. */
  class Pool {
    const head: Node

    ghost predicate Valid()
      reads head, head.repr
    {
      && head.Valid() && head.idx == 0
      && Tidy(head.Shape(), head.size) && Divisible(head.Shape(), head.size)
    }

    ghost function Blocks(): set<Block>
      requires Valid()
      reads head, head.repr
    {
      Live(head.Shape(), 0, head.size)
    }

    constructor (size: nat)
      ensures Valid() && fresh(head) && fresh(head.repr) && head.size == size && Blocks() == {}
    {
      head := new Node(0, size);
    }

    /** A new block of at least req bytes that overlaps no other, or failure for want of a free
        leaf of that size. With a power-of-two pool and a request above half a page the block
        is page-aligned. */
    method Allocate(req: nat) returns (rt: Option<nat>)
      requires Valid() && req > 0
      modifies head.repr
      ensures Valid() && fresh(head.repr - old(head.repr)) && head.size == old(head.size)
      ensures rt.Some? <==> old(HasRoom(head.Shape(), 0, head.size, req))
      ensures rt.None? ==> Blocks() == old(Blocks())
      ensures rt.Some? ==> exists b: Block ::
                b.start == rt.value && req <= b.len && Blocks() == old(Blocks()) + {b}
                && forall a :: a in old(Blocks()) ==> a.Disjoint(b)
      ensures forall k, j :: rt.Some? && head.size == Pow2(k) && 2 * req > Pow2(j) ==> rt.value % Pow2(j) == 0
    {
      ghost var t := head.Shape();
      ghost var size := head.size;
      AllocCorrect(t, 0, size, req);
      AllocTidy(t, 0, size, req);
      AllocDivisible(t, 0, size, req);
      rt := head.Alloc(req);
      if rt.Some? {
        ghost var b: Block :| b.start == rt.value
          && GrantedBlock(Live(t, 0, size), Live(head.Shape(), 0, size), FreeLeaves(t, 0, size), req, b);
        forall a | a in Live(t, 0, size) ensures a.Disjoint(b) {
          AllocDisjoint(t, 0, size, Live(head.Shape(), 0, size), req, b, a);
        }
        forall k, j | size == Pow2(k) && 2 * req > Pow2(j) ensures rt.value % Pow2(j) == 0 {
          PageAligned(t, k, j, req);
        }
      }
    }

    /** Gives back the block that starts at i; fails exactly when there is none. */
    method Deallocate(i: nat) returns (ok: bool)
      requires Valid()
      modifies head.repr
      ensures Valid() && head.repr <= old(head.repr) && head.size == old(head.size)
      ensures ok <==> exists b :: b in old(Blocks()) && b.start == i
      ensures forall b :: b in Blocks() <==> b in old(Blocks()) && b.start != i
      ensures !ok ==> head.Shape() == old(head.Shape())
    {
      ReleaseCorrect(head.Shape(), 0, head.size, i);
      ReleaseDivisible(head.Shape(), 0, head.size, i);
      ok := head.Release(i);
    }
  }
}
