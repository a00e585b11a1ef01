/** Zones and their resources: the state machine of the Zoned Namespace Command Set
    Specification, revision 1.1a, as the management commands and writes drive it. */
module Zones {
  import opened Arithmetic

  datatype ZState = Empty | OpenImpl | OpenExpl | Closed | Full | ReadOnly | Offline

  datatype Zone = Zone(state: ZState, wp: nat, zrwa: bool)

  datatype Status = Success | InvalidTransition | InvalidOperation | InvalidField | InvalidWrite | BoundaryError
    | NoActive | NoOpen | NoZrwa | IsFull | IsReadOnly | IsOffline
    | Fault  // a division by zero

  datatype Action = CloseIt | FinishIt | OpenIt | ResetIt | OfflineIt | FlushIt

  predicate IsOpen(z: Zone) {
    z.state in {OpenImpl, OpenExpl}
  }

  predicate IsActive(z: Zone) {
    IsOpen(z) || z.state == Closed
  }

  function CountOpen(zs: seq<Zone>): nat {
    if zs == [] then 0 else (if IsOpen(zs[0]) then 1 else 0) + CountOpen(zs[1..])
  }

  function CountActive(zs: seq<Zone>): nat {
    if zs == [] then 0 else (if IsActive(zs[0]) then 1 else 0) + CountActive(zs[1..])
  }

  /** A zone holds a random write area while it is open or closed. */
  predicate HoldsArea(z: Zone) {
    IsActive(z) && z.zrwa
  }

  function CountAreas(zs: seq<Zone>): nat {
    if zs == [] then 0 else (if HoldsArea(zs[0]) then 1 else 0) + CountAreas(zs[1..])
  }

  /** A zone that has not failed. */
  predicate Works(z: Zone) {
    z.state !in {ReadOnly, Offline}
  }

  /** Zones open, active, and random write areas in use. */
  datatype Res = Res(open: nat, active: nat, areas: nat)

  function One(b: bool): nat {
    if b then 1 else 0
  }

  lemma {:induction false} CountUpdate(zs: seq<Zone>, i: nat, z: Zone)
    requires i < |zs|
    ensures CountOpen(zs[i := z]) + One(IsOpen(zs[i])) == CountOpen(zs) + One(IsOpen(z))
    ensures CountActive(zs[i := z]) + One(IsActive(zs[i])) == CountActive(zs) + One(IsActive(z))
    ensures CountAreas(zs[i := z]) + One(HoldsArea(zs[i])) == CountAreas(zs) + One(HoldsArea(z))
  {
    if i == 0 {
      assert zs[i := z][1..] == zs[1..];
    } else {
      CountUpdate(zs[1..], i - 1, z);
      assert zs[i := z][1..] == zs[1..][i - 1 := z];
    }
  }

  lemma {:induction false} CountPositive(zs: seq<Zone>, i: nat)
    requires i < |zs|
    ensures IsOpen(zs[i]) ==> CountOpen(zs) > 0
    ensures IsActive(zs[i]) ==> CountActive(zs) > 0
    ensures HoldsArea(zs[i]) ==> CountAreas(zs) > 0
  {
    if i > 0 {
      CountPositive(zs[1..], i - 1);
    }
  }

  lemma {:induction false} NoneCounted(zs: seq<Zone>)
    requires forall i :: 0 <= i < |zs| ==> zs[i].state == Empty
    ensures CountOpen(zs) == CountActive(zs) == CountAreas(zs) == 0
  {
    if zs != [] {
      NoneCounted(zs[1..]);
    }
  }

  /** x > y - 1 in unsigned arithmetic, where 0 - 1 is the largest number. */
  predicate Past(x: nat, y: nat) {
    y > 0 && x > y - 1
  }

  class Device {
    const size: nat        // blocks in a zone
    const zrwaLbas: nat    // blocks in a random write area, and in its flush granule
    const granule: nat
    const maxOpen: nat
    const maxActive: nat
    const maxAreas: nat
    var zones: seq<Zone>
    var open: nat
    var active: nat
    var areas: nat
    ghost var lost: nat    // areas of zones that filled by a write

    function SlbaOf(zid: nat): nat {
      zid * size
    }

    function ElbaOf(zid: nat): int {
      SlbaOf(zid + 1) - 1
    }

    /** The write pointer stays in the zone, at its start while the zone is empty and short of
        its end while it is active; an empty zone has no random write area. */
    ghost predicate ZoneOk(z: Zone, zid: nat) {
      && SlbaOf(zid) <= z.wp <= SlbaOf(zid) + size
      && (z.state == Empty ==> z.wp == SlbaOf(zid) && !z.zrwa)
      && (IsActive(z) ==> z.wp < SlbaOf(zid) + size)
    }

    /** A random write area holds whole flush granules, or both sizes are zero. */
    ghost predicate Configured() {
      size >= 1 && granule <= zrwaLbas && (zrwaLbas >= 1 ==> granule >= 1)
    }

    ghost predicate Counted()
      reads this
    {
      && open == CountOpen(zones) <= maxOpen && active == CountActive(zones) <= maxActive
      && areas == CountAreas(zones) + lost && areas <= maxAreas
    }

    ghost predicate Valid()
      reads this
    {
      Configured() && Counted() && forall i :: 0 <= i < |zones| ==> ZoneOk(zones[i], i)
    }

    constructor (n: nat, zoneSize: nat, zrwa: nat, fg: nat, maxO: nat, maxA: nat, maxZ: nat)
      requires zoneSize >= 1 && fg <= zrwa && (zrwa >= 1 ==> fg >= 1)
      ensures Valid() && size == zoneSize && zrwaLbas == zrwa && granule == fg
      ensures maxOpen == maxO && maxActive == maxA && maxAreas == maxZ && lost == 0
      ensures |zones| == n && forall i :: 0 <= i < n ==> zones[i] == Zone(Empty, SlbaOf(i), false)
    {
      size, zrwaLbas, granule, maxOpen, maxActive := zoneSize, zrwa, fg, maxO, maxA;
      zones := seq(n, i requires 0 <= i < n => Zone(Empty, i * zoneSize, false));
      maxAreas := maxZ;
      open, active, areas, lost := 0, 0, 0, 0;
      new;
      NoneCounted(zones);
      forall i | 0 <= i < n ensures ZoneOk(zones[i], i) { }
    }

    // ----- resources

    method AcquireOpen() returns (ok: bool)
      modifies this`open
      ensures ok <==> old(open) < maxOpen
      ensures open == old(open) + One(ok)
    {
      ok := open < maxOpen;
      if ok {
        open := open + 1;
      }
    }

    method AcquireActive() returns (ok: bool)
      modifies this`active
      ensures ok <==> old(active) < maxActive
      ensures active == old(active) + One(ok)
    {
      ok := active < maxActive;
      if ok {
        active := active + 1;
      }
    }

    method AcquireArea()
      requires areas < maxAreas
      modifies this`areas
      ensures areas == old(areas) + 1
    {
      areas := areas + 1;
    }

    method ReleaseArea()
      requires areas > 0
      modifies this`areas
      ensures areas == old(areas) - 1
    {
      areas := areas - 1;
    }

    function InUse(): Res
      reads this
    {
      Res(open, active, areas)
    }

    /** Releasing must not underflow: callers hold the resource. */
    method ReleaseOpen()
      requires open > 0
      modifies this`open
      ensures open == old(open) - 1
    {
      open := open - 1;
    }

    method ReleaseActive()
      requires active > 0
      modifies this`active
      ensures active == old(active) - 1
    {
      active := active - 1;
    }

    /** Everything but zone zid is as before. */
    twostate predicate Only(zid: nat)
      reads this
    {
      |zones| == |old(zones)| && forall i :: 0 <= i < |zones| && i != zid ==> zones[i] == old(zones)[i]
    }

    // ----- management commands

    method CloseZone(zid: nat) returns (status: Status)
      requires Valid() && zid < |zones|
      modifies this`zones, this`open
      ensures Valid() && Only(zid)
      ensures status == if IsActive(old(zones)[zid]) then Success else InvalidTransition
      ensures zones[zid] == if IsActive(old(zones)[zid]) then old(zones)[zid].(state := Closed) else old(zones)[zid]
    {
      CountPositive(zones, zid);
      match zones[zid].state
      case OpenImpl | OpenExpl =>
        CountUpdate(zones, zid, zones[zid].(state := Closed));
        zones := zones[zid := zones[zid].(state := Closed)];
        ReleaseOpen();
        return Success;
      case Closed => return Success;
      case _ => return InvalidTransition;
    }

    method FinishZone(zid: nat) returns (status: Status)
      requires Valid() && zid < |zones|
      modifies this`zones, this`open, this`active, this`areas
      ensures Valid() && Only(zid)
      ensures status == if Works(old(zones)[zid]) then Success else InvalidTransition
      ensures zones[zid] == if status == Success then old(zones)[zid].(state := Full) else old(zones)[zid]
    {
      hide CountOpen, CountActive, CountAreas;
      CountPositive(zones, zid);
      CountUpdate(zones, zid, zones[zid].(state := Full));
      var s := zones[zid].state;
      if s in {ReadOnly, Offline} {
        return InvalidTransition;
      }
      if s in {OpenImpl, OpenExpl} {
        ReleaseOpen();
      }
      if s in {OpenImpl, OpenExpl, Closed} {
        ReleaseActive();
        if zones[zid].zrwa {
          ReleaseArea();
        }
      }
      zones := zones[zid := zones[zid].(state := Full)];
      return Success;
    }

    /** The zones that can be opened while the resources r are in use. */
    predicate CanOpen(z: Zone, r: Res, zrwa: bool) {
      match z.state
      case Empty => r.active < maxActive && r.open < maxOpen && (zrwa ==> r.areas < maxAreas)
      case Closed => r.open < maxOpen
      case OpenImpl | OpenExpl => true
      case Full | ReadOnly | Offline => false
    }

    /** What is in use afterwards. */
    function OpenedRes(z: Zone, r: Res, zrwa: bool): Res {
      if !CanOpen(z, r, zrwa) then r
      else Res(r.open + One(!IsOpen(z)), r.active + One(z.state == Empty), r.areas + One(z.state == Empty && zrwa))
    }

    function Opening(z: Zone, zrwa: bool): Zone {
      Zone(OpenExpl, z.wp, z.zrwa || (zrwa && z.state == Empty))
    }

    /** What the first resource is that is missing. */
    function OpenRefusal(z: Zone, r: Res): Status {
      match z.state
      case Empty => if r.active == maxActive then NoActive else if r.open == maxOpen then NoOpen else NoZrwa
      case Closed => NoOpen
      case _ => InvalidTransition
    }

    method OpenZone(zid: nat, zrwa: bool) returns (status: Status)
      requires Valid() && zid < |zones|
      modifies this`zones, this`open, this`active, this`areas
      ensures Valid() && Only(zid)
      ensures status == Success <==> old(CanOpen(zones[zid], InUse(), zrwa))
      ensures InUse() == OpenedRes(old(zones)[zid], old(InUse()), zrwa)
      ensures status != Success ==> zones == old(zones)
      ensures status == Success ==> zones[zid] == Opening(old(zones)[zid], zrwa)
      ensures status != Success ==> status == old(OpenRefusal(zones[zid], InUse()))
    {
      hide CountOpen, CountActive, CountAreas;
      var z := zones[zid];
      if z.state == OpenExpl {
        return Success;
      }
      if z.state !in {Empty, Closed, OpenImpl} {
        return InvalidTransition;
      }
      var z' := z.(state := OpenExpl);
      if z.state == Empty {
        if active == maxActive {
          return NoActive;
        }
        if open == maxOpen {
          return NoOpen;
        }
        if zrwa {
          if areas == maxAreas {
            return NoZrwa;
          }
          AcquireArea();
          z' := z'.(zrwa := true);
        }
        var _ := AcquireActive();
      }
      if z.state != OpenImpl {
        var ok := AcquireOpen();
        if !ok {
          return NoOpen;
        }
      }
      CountUpdate(zones, zid, z');
      zones := zones[zid := z'];
      return Success;
    }

    method ResetZone(zid: nat) returns (status: Status)
      requires Valid() && zid < |zones|
      modifies this`zones, this`open, this`active, this`areas
      ensures Valid() && Only(zid)
      ensures status == if Works(old(zones)[zid]) then Success else InvalidTransition
      ensures zones[zid] == if status == Success then Zone(Empty, SlbaOf(zid), false) else old(zones)[zid]
    {
      hide CountOpen, CountActive, CountAreas;
      CountPositive(zones, zid);
      CountUpdate(zones, zid, Zone(Empty, SlbaOf(zid), false));
      var s := zones[zid].state;
      if s in {ReadOnly, Offline} {
        return InvalidTransition;
      }
      if s in {OpenImpl, OpenExpl} {
        ReleaseOpen();
      }
      if s in {OpenImpl, OpenExpl, Closed} {
        ReleaseActive();
        if zones[zid].zrwa {
          ReleaseArea();
        }
      }
      zones := zones[zid := Zone(Empty, SlbaOf(zid), false)];
      return Success;
    }

    method OfflineZone(zid: nat) returns (status: Status)
      requires Valid() && zid < |zones|
      modifies this`zones
      ensures Valid() && Only(zid)
      ensures status == if Works(old(zones)[zid]) then InvalidTransition else Success
      ensures zones[zid] == if status == Success then old(zones)[zid].(state := Offline) else old(zones)[zid]
    {
      CountUpdate(zones, zid, zones[zid].(state := Offline));
      match zones[zid].state
      case ReadOnly =>
        zones := zones[zid := zones[zid].(state := Offline)];
        return Success;
      case Offline => return Success;
      case _ => return InvalidTransition;
    }

    /** Within the random write area, but not whole granules. */
    predicate PartGranule(zid: nat, slba: nat)
      reads this
      requires zid < |zones|
    {
      var z := zones[zid];
      z.zrwa && granule >= 1 && z.wp <= slba && !Past(slba, z.wp + zrwaLbas) && (slba - z.wp + 1) % granule != 0
    }

    /** The flushes that a working zone takes: of whole granules within its random write area. */
    ghost predicate TakesFlush(zid: nat, slba: nat)
      reads this
      requires Configured() && zid < |zones|
    {
      var z := zones[zid];
      z.zrwa && IsActive(z) && z.wp <= slba < z.wp + zrwaLbas && (slba - z.wp + 1) % granule == 0
    }

    /** Moves the write pointer of a zone with a random write area to just behind slba. With
        areas of size zero, zone 0 at its start passes the range check and the granule divides
        by zero. */
    method FlushExplicit(zid: nat, slba: nat) returns (status: Status)
      requires Valid() && zid < |zones| && SlbaOf(zid) <= slba <= ElbaOf(zid)
      modifies this`zones, this`open, this`active, this`areas
      ensures Valid() && Only(zid)
      ensures status == Success <==> old(TakesFlush(zid, slba))
      ensures status == Success ==>
                zones[zid] == old(zones)[zid].(wp := slba + 1,
                                               state := if slba == ElbaOf(zid) then Full else old(zones)[zid].state)
      ensures status != Success ==> zones == old(zones) && InUse() == old(InUse())
      ensures status == Fault <==> old(zones)[zid].zrwa && granule == 0 && old(zones)[zid].wp == 0
      ensures status == InvalidField <==> old(PartGranule(zid, slba))
      ensures status in {Success, InvalidOperation, InvalidField, Fault}
    {
      hide CountOpen, CountActive, CountAreas;
      var z := zones[zid];
      if !z.zrwa {
        return InvalidOperation;
      }
      if slba < z.wp || Past(slba, z.wp + zrwaLbas) || slba > ElbaOf(zid) {
        return InvalidOperation;
      }
      if granule == 0 {
        return Fault;
      }
      if (slba - z.wp + 1) % granule != 0 {
        return InvalidField;
      }
      if z.state !in {OpenImpl, OpenExpl, Closed} {
        return InvalidOperation;
      }
      CountPositive(zones, zid);
      var z' := z.(wp := slba + 1);
      assert SlbaOf(zid + 1) == SlbaOf(zid) + size;
      if z'.wp == SlbaOf(zid) + size {
        if z.state != Closed {
          ReleaseOpen();
        }
        ReleaseActive();
        ReleaseArea();
        z' := z'.(state := Full);
      }
      CountUpdate(zones, zid, z');
      zones := zones[zid := z'];
      return Success;
    }

    // ----- writes

    /** Moves the write pointer of an open zone; at the end of the zone the zone is full. Its random
        write area, if it has one, is then lost: the code does not release it. */
    method IncreaseWritePtr(zid: nat, n: nat)
      requires Valid() && zid < |zones| && IsOpen(zones[zid]) && zones[zid].wp + n <= SlbaOf(zid) + size
      modifies this`zones, this`open, this`active, this`lost
      ensures Valid() && Only(zid)
      ensures zones[zid] == Advanced(old(zones)[zid], zid, n)
      ensures lost == old(lost) + One(zones[zid].zrwa && zones[zid].state == Full)
    {
      hide CountOpen, CountActive, CountAreas;
      CountPositive(zones, zid);
      var z := zones[zid].(wp := zones[zid].wp + n);
      if z.wp == SlbaOf(zid) + size {
        ReleaseOpen();
        ReleaseActive();
        z := z.(state := Full);
        lost := lost + One(z.zrwa);
      }
      CountUpdate(zones, zid, z);
      zones := zones[zid := z];
    }

    /** The zone with its write pointer n blocks on. */
    function Advanced(z: Zone, zid: nat, n: nat): Zone {
      z.(wp := z.wp + n, state := if z.wp + n == SlbaOf(zid) + size then Full else z.state)
    }

    /** What an admitted write leaves of the state of a zone that it does not fill. */
    function Opened(state: ZState): ZState {
      if state in {Empty, Closed} then OpenImpl else state
    }

    /** The writes that a zone without a random write area takes: whole write units, from the write
        pointer on, within the zone, with the resources to open it. */
    predicate TakesSequential(zid: nat, slba: nat, n: nat, aligned: bool)
      reads this
      requires zid < |zones|
    {
      && aligned && slba + n - 1 <= ElbaOf(zid) && slba == zones[zid].wp
      && match zones[zid].state {
           case Empty => active < maxActive && open < maxOpen
           case Closed => open < maxOpen
           case OpenImpl | OpenExpl => true
           case Full | ReadOnly | Offline => false
         }
    }

    /** Why a write to such a zone is refused: the first check that fails. A full zone is reported as
        offline. */
    function SequentialRefusal(zid: nat, slba: nat, n: nat, aligned: bool): Status
      reads this
      requires zid < |zones|
    {
      if !aligned then InvalidWrite
      else if slba + n - 1 > ElbaOf(zid) then BoundaryError
      else if slba != zones[zid].wp then InvalidWrite
      else match zones[zid].state
        case Full | ReadOnly | Offline => IsOffline
        case Empty => if active == maxActive then NoActive else NoOpen
        case _ => NoOpen
    }

    /** A write to a zone without a random write area: it must start at the write pointer. */
    method WriteSequential(zid: nat, slba: nat, n: nat, aligned: bool) returns (status: Status)
      requires Valid() && zid < |zones| && n >= 1 && SlbaOf(zid) <= slba <= ElbaOf(zid)
      requires !zones[zid].zrwa
      modifies this`zones, this`open, this`active, this`lost
      ensures Valid() && Only(zid)
      ensures status == Success <==> old(TakesSequential(zid, slba, n, aligned))
      ensures status == Success ==>
                zones[zid] == Advanced(old(zones)[zid].(state := Opened(old(zones)[zid].state)), zid, n)
      ensures lost == old(lost)
      ensures status != Success ==> zones == old(zones) && open == old(open) && active == old(active)
      ensures status != Success ==> status == old(SequentialRefusal(zid, slba, n, aligned))
      ensures status != Fault
    {
      hide CountOpen, CountActive, CountAreas;
      var z := zones[zid];
      assert SlbaOf(zid + 1) == SlbaOf(zid) + size;
      if !aligned {
        return InvalidWrite;
      }
      if slba + n - 1 > ElbaOf(zid) {
        return BoundaryError;
      }
      if slba != z.wp {
        return InvalidWrite;
      }
      if z.state in {Full, ReadOnly, Offline} {
        return IsOffline;
      }
      if z.state == Empty {
        if active == maxActive {
          return NoActive;
        }
        if open == maxOpen {
          return NoOpen;
        }
        var _ := AcquireActive();
      }
      if z.state in {Empty, Closed} {
        var ok := AcquireOpen();
        if !ok {
          return NoOpen;
        }
        CountUpdate(zones, zid, z.(state := OpenImpl));
        zones := zones[zid := z.(state := OpenImpl)];
      }
      IncreaseWritePtr(zid, n);
      return Success;
    }

    /** The blocks that a write to a random write area pushes out of it. */
    function FlushedBy(zid: nat, elba: nat, wp: nat): nat
      requires granule >= 1
    {
      if elba >= wp + zrwaLbas then (elba - (wp + zrwaLbas) + granule) / granule * granule
      else if elba == ElbaOf(zid) && elba + 1 >= wp then elba - wp + 1
      else 0
    }

    /** The pointer stays in the zone, and where it is while the write stays within one area of it and
        short of the end. It reaches the end, where the code has an assertion (compiled to nothing)
        that a zone with a random write area does not, exactly when the write ends there within one
        area of the pointer. */
    lemma FillsExactly(zid: nat, elba: nat, wp: nat)
      requires Configured() && granule >= 1 && wp <= elba <= ElbaOf(zid)
      ensures wp + FlushedBy(zid, elba, wp) <= SlbaOf(zid) + size
      ensures FlushedBy(zid, elba, wp) == 0 <==> elba < wp + zrwaLbas && elba < ElbaOf(zid)
      ensures wp + FlushedBy(zid, elba, wp) == SlbaOf(zid) + size <==> elba == ElbaOf(zid) && elba < wp + zrwaLbas
    {
      assert SlbaOf(zid + 1) == SlbaOf(zid) + size;
      if elba >= wp + zrwaLbas {
        var x := elba - (wp + zrwaLbas) + granule;
        assert x == x / granule * granule + x % granule;
      }
    }

    /** The writes that a zone with a random write area takes: up to two areas ahead of the write
        pointer, within the zone, with the resource to open it. */
    predicate TakesRandom(zid: nat, slba: nat, elba: nat, aligned: bool)
      reads this
      requires zid < |zones|
    {
      && aligned && elba <= ElbaOf(zid) && zones[zid].wp <= slba && elba < zones[zid].wp + 2 * zrwaLbas
      && (IsOpen(zones[zid]) || (zones[zid].state == Closed && open < maxOpen))
    }

    /** Why a write to such a zone is refused: the first check that fails. */
    function RandomRefusal(zid: nat, slba: nat, elba: nat, aligned: bool): Status
      reads this
      requires zid < |zones|
    {
      var z := zones[zid];
      if !aligned then InvalidWrite
      else if elba > ElbaOf(zid) then BoundaryError
      else if slba < z.wp || Past(elba, z.wp + 2 * zrwaLbas) then InvalidWrite
      else match z.state
        case Full => IsFull
        case ReadOnly => IsReadOnly
        case Offline => IsOffline
        case _ => NoOpen
    }

    /** Beyond its area a write pushes out the least number of granules that lets its end lie within
        one area of the pointer. */
    lemma FlushedLeast(zid: nat, elba: nat, wp: nat)
      requires granule >= 1 && elba >= wp + zrwaLbas
      ensures var f := FlushedBy(zid, elba, wp);
              && f % granule == 0 && f >= granule
              && elba < wp + f + zrwaLbas && elba >= wp + (f - granule) + zrwaLbas
    {
      var x := elba - (wp + zrwaLbas) + granule;
      assert x == x / granule * granule + x % granule;
      QuotientOf(x, granule);
    }

    lemma QuotientOf(x: nat, m: nat)
      requires m >= 1
      ensures x / m * m % m == 0 && (x >= m ==> x / m * m >= m)
    {
      QuotientIs(x / m * m, m, x / m, 0);
      if x >= m {
        QuotientsGrow(m, x, m);
        QuotientIs(m, m, 1, 0);
        Monotone(1, x / m, m);
      }
    }

    /** A write that reaches the granule arithmetic of a random write area of size zero: to zone
        0 at its start, where the range check wraps around. */
    predicate Faults(zid: nat, elba: nat, aligned: bool)
      reads this
      requires zid < |zones|
    {
      && granule == 0 && zones[zid].wp == 0 && aligned && elba <= ElbaOf(zid)
      && (IsOpen(zones[zid]) || (zones[zid].state == Closed && open < maxOpen))
    }

    /** What a write that succeeds makes of its zone; retry says that it was stopped for want of
        buffer. */
    function Written(z: Zone, zid: nat, slba: nat, n: nat, retry: bool): Zone
      requires n >= 1 && (z.zrwa ==> granule >= 1)
    {
      var o := z.(state := Opened(z.state));
      if !z.zrwa then Advanced(o, zid, n)
      else if retry then o
      else Advanced(o, zid, FlushedBy(zid, slba + n - 1, z.wp))
    }

    /** A write to a zone with a random write area: it may go up to two areas ahead of the write
        pointer, which follows in flush granules. It stops half-way when something is to be flushed
        and there is no buffer space, with the zone open and the pointer where it was. */
    method WriteRandom(zid: nat, slba: nat, n: nat, aligned: bool, bufferFull: bool)
        returns (status: Status, retry: bool)
      requires Valid() && zid < |zones| && n >= 1 && SlbaOf(zid) <= slba <= ElbaOf(zid)
      requires zones[zid].zrwa
      modifies this`zones, this`open, this`active, this`lost
      ensures Valid() && Only(zid)
      ensures status == Success <==> old(TakesRandom(zid, slba, slba + n - 1, aligned))
      ensures status == Success ==> granule >= 1 && zones[zid] == Written(old(zones)[zid], zid, slba, n, retry)
      ensures status == Success ==>
                (retry <==> bufferFull && FlushedBy(zid, slba + n - 1, old(zones)[zid].wp) > 0)
      ensures lost == old(lost) + One(status == Success && !retry && slba + n - 1 == ElbaOf(zid)
                                      && slba + n - 1 < old(zones)[zid].wp + zrwaLbas)
      ensures status == Fault <==> old(Faults(zid, slba + n - 1, aligned))
      ensures status == Fault ==> zones[zid] == old(zones)[zid].(state := Opened(old(zones)[zid].state))
      ensures status !in {Success, Fault} ==> zones == old(zones) && InUse() == old(InUse())
      ensures status != Success ==> !retry
      ensures status !in {Success, Fault} ==> status == old(RandomRefusal(zid, slba, slba + n - 1, aligned))
    {
      hide CountOpen, CountActive, CountAreas, Device.FlushedBy;
      var z := zones[zid];
      var elba := slba + n - 1;
      if !aligned {
        return InvalidWrite, false;
      }
      if elba > ElbaOf(zid) {
        return BoundaryError, false;
      }
      if slba < z.wp || Past(elba, z.wp + 2 * zrwaLbas) {
        return InvalidWrite, false;
      }
      if z.state == Full {
        return IsFull, false;
      }
      if z.state == ReadOnly {
        return IsReadOnly, false;
      }
      if z.state == Offline {
        return IsOffline, false;
      }
      if z.state == Closed {
        var ok := AcquireOpen();
        if !ok {
          return NoOpen, false;
        }
        CountUpdate(zones, zid, z.(state := OpenImpl));
        zones := zones[zid := z.(state := OpenImpl)];
      }
      if granule == 0 {
        return Fault, false;
      }
      FillsExactly(zid, elba, z.wp);
      retry := FlushBehind(zid, elba, bufferFull);
      status := Success;
    }

    /** Moves the write pointer of an open zone by what a write up to elba pushes out, if the buffer
        has room for it. */
    method FlushBehind(zid: nat, elba: nat, bufferFull: bool) returns (retry: bool)
      requires Valid() && zid < |zones| && IsOpen(zones[zid]) && granule >= 1
      requires zones[zid].wp <= elba <= ElbaOf(zid)
      modifies this`zones, this`open, this`active, this`lost
      ensures Valid() && Only(zid)
      ensures retry <==> bufferFull && FlushedBy(zid, elba, old(zones)[zid].wp) > 0
      ensures zones[zid] ==
                if retry then old(zones)[zid]
                else Advanced(old(zones)[zid], zid, FlushedBy(zid, elba, old(zones)[zid].wp))
      ensures lost == old(lost) + One(!retry && zones[zid].zrwa && zones[zid].state == Full)
    {
      var wp := zones[zid].wp;
      FillsExactly(zid, elba, wp);
      var flush := FlushedBy(zid, elba, wp);
      if flush > 0 {
        if bufferFull {
          return true;
        }
        IncreaseWritePtr(zid, flush);
      }
      return false;
    }

    /** The dispatch of a write by the kind of zone. */
    method Write(zid: nat, slba: nat, n: nat, aligned: bool, bufferFull: bool) returns (status: Status, retry: bool)
      requires Valid() && zid < |zones| && n >= 1 && SlbaOf(zid) <= slba <= ElbaOf(zid)
      modifies this`zones, this`open, this`active, this`lost
      ensures Valid() && Only(zid)
      ensures status == Success <==>
                if old(zones)[zid].zrwa then old(TakesRandom(zid, slba, slba + n - 1, aligned))
                else old(TakesSequential(zid, slba, n, aligned))
      ensures status == Success && old(zones)[zid].zrwa ==> granule >= 1
      ensures status == Success ==> zones[zid] == Written(old(zones)[zid], zid, slba, n, retry)
      ensures retry <==> status == Success && bufferFull && old(zones)[zid].zrwa
                         && FlushedBy(zid, slba + n - 1, old(zones)[zid].wp) > 0
      ensures status == Fault <==> old(zones)[zid].zrwa && old(Faults(zid, slba + n - 1, aligned))
      ensures status !in {Success, Fault} ==> zones == old(zones) && InUse() == old(InUse())
      ensures lost == old(lost) + One(status == Success && !retry && zones[zid].zrwa && zones[zid].state == Full)
    {
      if !zones[zid].zrwa {
        status := WriteSequential(zid, slba, n, aligned);
        retry := false;
      } else {
        status, retry := WriteRandom(zid, slba, n, aligned, bufferFull);
      }
    }

    /** Writing an open zone with a random write area to its end makes it full and loses the area. */
    method WriteToEnd(zid: nat)
      requires Valid() && zid < |zones| && zones[zid].zrwa && IsOpen(zones[zid]) && granule >= 1
      modifies this`zones, this`open, this`active, this`lost
      ensures Valid() && Only(zid) && zones[zid].state == Full && zones[zid].zrwa && lost == old(lost) + 1
    {
      assert SlbaOf(zid + 1) == SlbaOf(zid) + size;
      var status, retry;
      while ElbaOf(zid) >= zones[zid].wp + zrwaLbas
        invariant Valid() && Only(zid) && zones[zid].zrwa && IsOpen(zones[zid]) && lost == old(lost)
        decreases ElbaOf(zid) - zones[zid].wp
      {
        var elba := zones[zid].wp + zrwaLbas;
        FlushedLeast(zid, elba, zones[zid].wp);
        FillsExactly(zid, elba, zones[zid].wp);
        status, retry := Write(zid, elba, 1, true, false);
      }
      FillsExactly(zid, ElbaOf(zid), zones[zid].wp);
      status, retry := Write(zid, ElbaOf(zid), 1, true, false);
    }

    /** So a zone that is opened with an area, written to its end and reset is as before, but one area
        less is left. */
    method AreaIsLost(zid: nat)
      requires Valid() && zid < |zones| && zones[zid].state == Empty && granule >= 1
      requires open < maxOpen && active < maxActive && areas < maxAreas
      modifies this`zones, this`open, this`active, this`areas, this`lost
      ensures Valid() && zones == old(zones) && areas == old(areas) + 1 && lost == old(lost) + 1
    {
      ghost var zs := zones;
      var status := OpenZone(zid, true);
      WriteToEnd(zid);
      status := ResetZone(zid);
      assert zones == zs;
    }

    /** The fault can be reached from a new device of the size zero areas: open zone 0 with a
        random write area and write to it. */
    method FaultReachable(n: nat)
      requires Valid() && granule == 0 && |zones| >= 1 && zones[0] == Zone(Empty, 0, false)
      requires open < maxOpen && active < maxActive && areas < maxAreas && 1 <= n <= size
      modifies this`zones, this`open, this`active, this`areas
      ensures |zones| >= 1 && zones[0].zrwa && Faults(0, n - 1, true)
    {
      var status := OpenZone(0, true);
    }

    // ----- one command on one zone or on all

    /** The zones that a command succeeds on. */
    ghost predicate Takes(action: Action, zid: nat, slba: nat, zrwa: bool)
      reads this
      requires Configured() && zid < |zones|
    {
      match action
      case CloseIt => IsActive(zones[zid])
      case FinishIt => Works(zones[zid])
      case OpenIt => CanOpen(zones[zid], InUse(), zrwa)
      case ResetIt => Works(zones[zid])
      case OfflineIt => !Works(zones[zid])
      case FlushIt => TakesFlush(zid, slba)
    }

    /** What it then makes of the zone. */
    function Sent(action: Action, z: Zone, zid: nat, slba: nat, zrwa: bool): Zone {
      match action
      case CloseIt => z.(state := Closed)
      case FinishIt => z.(state := Full)
      case OpenIt => Opening(z, zrwa)
      case ResetIt => Zone(Empty, SlbaOf(zid), false)
      case OfflineIt => z.(state := Offline)
      case FlushIt => z.(wp := slba + 1, state := if slba == ElbaOf(zid) then Full else z.state)
    }

    method Send(action: Action, zid: nat, slba: nat, zrwa: bool) returns (status: Status)
      requires Valid() && zid < |zones| && SlbaOf(zid) <= slba <= ElbaOf(zid)
      modifies this`zones, this`open, this`active, this`areas
      ensures Valid() && Only(zid)
      ensures status == Success <==> old(Takes(action, zid, slba, zrwa))
      ensures zones[zid] ==
                if status == Success then Sent(action, old(zones)[zid], zid, slba, zrwa) else old(zones)[zid]
      ensures action.OpenIt? ==> InUse() == OpenedRes(old(zones)[zid], old(InUse()), zrwa)
    {
      match action
      case CloseIt => status := CloseZone(zid);
      case FinishIt => status := FinishZone(zid);
      case OpenIt => status := OpenZone(zid, zrwa);
      case ResetIt => status := ResetZone(zid);
      case OfflineIt => status := OfflineZone(zid);
      case FlushIt => status := FlushExplicit(zid, slba);
    }

    /** The resources in use after the first k zones have been asked to open, in order. */
    ghost function OpenRes(zs: seq<Zone>, k: nat, r: Res, zrwa: bool): Res
      requires k <= |zs|
    {
      if k == 0 then r else OpenedRes(zs[k - 1], OpenRes(zs, k - 1, r, zrwa), zrwa)
    }

    /** The zones that the command succeeds on when it is sent to all: each on its own, but that
        opening takes resources from the zones behind. */
    ghost predicate TakesAll(action: Action, zid: nat, zrwa: bool)
      reads this
      requires Configured() && zid < |zones|
    {
      if action.OpenIt? then CanOpen(zones[zid], OpenRes(zones, zid, InUse(), zrwa), zrwa)
      else Takes(action, zid, SlbaOf(zid), zrwa)
    }

    /** The command for all zones, at the start of each. */
    method SendAll(action: Action, zrwa: bool)
      requires Valid()
      modifies this`zones, this`open, this`active, this`areas
      ensures Valid() && |zones| == |old(zones)|
      ensures forall i :: 0 <= i < |zones| ==>
                zones[i] == if old(TakesAll(action, i, zrwa)) then Sent(action, old(zones)[i], i, SlbaOf(i), zrwa)
                            else old(zones)[i]
    {
      hide CountOpen, CountActive, CountAreas, Device.OpenRes;
      ghost var r := InUse();
      OpenResStep(zones, 0, r, zrwa);
      var zid := 0;
      while zid < |zones|
        invariant 0 <= zid <= |zones| == |old(zones)| && Valid()
        invariant forall i :: zid <= i < |zones| ==> zones[i] == old(zones)[i]
        invariant action.OpenIt? ==> InUse() == OpenRes(old(zones), zid, r, zrwa)
        invariant forall i :: 0 <= i < zid ==>
          zones[i] == if old(TakesAll(action, i, zrwa)) then Sent(action, old(zones)[i], i, SlbaOf(i), zrwa)
                      else old(zones)[i]
      {
        OpenResStep(old(zones), zid, r, zrwa);
        assert SlbaOf(zid + 1) == SlbaOf(zid) + size;
        var _ := Send(action, zid, SlbaOf(zid), zrwa);
        zid := zid + 1;
      }
    }

    lemma OpenResStep(zs: seq<Zone>, k: nat, r: Res, zrwa: bool)
      requires k <= |zs|
      ensures OpenRes(zs, 0, r, zrwa) == r
      ensures k < |zs| ==> OpenRes(zs, k + 1, r, zrwa) == OpenedRes(zs[k], OpenRes(zs, k, r, zrwa), zrwa)
    {
    }

    /** After all zones are reset nothing is open or active, but for failed zones; areas stay taken
        that were lost. */
    method ResetAll()
      requires Valid() && forall i :: 0 <= i < |zones| ==> Works(zones[i])
      modifies this`zones, this`open, this`active, this`areas
      ensures Valid() && open == 0 && active == 0 && areas == lost
    {
      SendAll(ResetIt, false);
      NoneCounted(zones);
    }

    /** Resources are first come, first served: when a zone found no room to open, no zone behind
        it that needs the same comes to open. */
    lemma {:induction false} FirstCome(zs: seq<Zone>, i: nat, j: nat, r: Res, zrwa: bool)
      requires i <= j < |zs|
      ensures var a, b := OpenRes(zs, i, r, zrwa), OpenRes(zs, j, r, zrwa);
              && a.open <= b.open && a.active <= b.active && a.areas <= b.areas
              && (zs[i].state == zs[j].state && !CanOpen(zs[i], a, zrwa) ==> !CanOpen(zs[j], b, zrwa))
    {
      if i < j {
        FirstCome(zs, i, j - 1, r, zrwa);
      }
    }
  }
}
