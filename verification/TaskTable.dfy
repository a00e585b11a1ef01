/** Task slots that are reused under generation-tagged ids, and the accounting of the I/O requests
    that carry those ids. */
module TaskTable {
  import opened Arithmetic

  /** pool slots, and gens distinct generation numbers: ids are the numbers below pool * gens,
      and the last of them is the sentinel. */
  datatype Config = Config(pool: nat, gens: nat) {
    predicate WellFormed() {
      pool >= 1 && gens >= 3
    }

    function NoTask(): nat
      requires WellFormed()
    {
      Monotone(1, gens, pool);
      gens * pool - 1
    }

    /** The id of a slot allocated when the generation counter stood at stamp. */
    function Id(stamp: nat, slot: nat): nat
      requires WellFormed()
    {
      (stamp % gens) * pool + slot
    }

    function SlotOf(id: nat): nat
      requires WellFormed()
    {
      id % pool
    }
  }

  lemma IdParts(c: Config, stamp: nat, slot: nat)
    requires c.WellFormed() && slot < c.pool
    ensures c.SlotOf(c.Id(stamp, slot)) == slot && c.Id(stamp, slot) / c.pool == stamp % c.gens
    ensures c.Id(stamp, slot) == c.NoTask() <==> stamp % c.gens == c.gens - 1 && slot == c.pool - 1
  {
    QuotientIs(c.Id(stamp, slot), c.pool, stamp % c.gens, slot);
    assert c.NoTask() == (c.gens - 1) * c.pool + (c.pool - 1);
    QuotientIs(c.NoTask(), c.pool, c.gens - 1, c.pool - 1);
  }

  /** Two stamps give one slot the same id exactly when they lie a whole cycle apart. */
  lemma SameId(c: Config, s: nat, b: nat, slot: nat)
    requires c.WellFormed() && slot < c.pool && b < s
    ensures s < b + c.gens ==> c.Id(s, slot) != c.Id(b, slot)
    ensures s == b + c.gens ==> c.Id(s, slot) == c.Id(b, slot)
  {
    IdParts(c, s, slot);
    IdParts(c, b, slot);
    if s < b + c.gens {
      ModApart(b, s, c.gens);
    } else if s == b + c.gens {
      ModStep(b, c.gens, c.gens);
    }
  }

  /** An I/O request in flight. */
  datatype Io = Io(id: nat, length: nat, demand: bool)

  datatype Slot = Slot(gen: nat, requested: nat, done: nat)

  function Weight(io: Io, id: nat): nat {
    if io.id == id && !io.demand then io.length else 0
  }

  /** Bytes of sequential requests in flight under an id. */
  function InFlight(ios: seq<Io>, id: nat): nat {
    if ios == [] then 0 else Weight(ios[0], id) + InFlight(ios[1..], id)
  }

  lemma {:induction false} InFlightJoin(a: seq<Io>, b: seq<Io>, id: nat)
    ensures InFlight(a + b, id) == InFlight(a, id) + InFlight(b, id)
  {
    if a == [] {
      assert a + b == b;
    } else {
      InFlightJoin(a[1..], b, id);
      assert (a + b)[1..] == a[1..] + b;
    }
  }

  lemma InFlightWithout(ios: seq<Io>, k: nat, id: nat)
    requires k < |ios|
    ensures InFlight(ios, id) == InFlight(ios[..k] + ios[k + 1..], id) + Weight(ios[k], id)
  {
    assert ios == ios[..k] + ([ios[k]] + ios[k + 1..]);
    InFlightJoin(ios[..k], [ios[k]] + ios[k + 1..], id);
    InFlightJoin(ios[..k], ios[k + 1..], id);
  }

  lemma {:induction false} NoneInFlight(ios: seq<Io>, id: nat)
    requires forall k :: 0 <= k < |ios| ==> ios[k].id != id
    ensures InFlight(ios, id) == 0
  {
    if ios != [] {
      NoneInFlight(ios[1..], id);
    }
  }

  ghost predicate Named(c: Config, s: Slot, i: nat, stamp: nat, next: nat)
    requires c.WellFormed()
  {
    s.gen != c.NoTask() ==> s.gen == c.Id(stamp, i) && stamp < next && c.SlotOf(s.gen) == i
  }

  /** What was requested and is not done is in flight under the slot's present id, or lost. */
  ghost predicate Balanced(c: Config, s: Slot, ios: seq<Io>, lost: nat)
    requires c.WellFormed()
  {
    s.gen != c.NoTask() ==> s.requested == s.done + InFlight(ios, s.gen) + lost
  }

  ghost predicate IoOk(c: Config, io: Io, stamp: nat, next: nat)
    requires c.WellFormed()
  {
    stamp < next && io.id != c.NoTask() && io.id == c.Id(stamp, c.SlotOf(io.id))
  }

  class Table {
    const c: Config
    var slots: seq<Slot>
    var next: nat
    var ios: seq<Io>
    ghost var stamps: seq<nat>    // the counter's value behind each slot's id
    ghost var ioStamps: seq<nat>  // and behind each request's id
    ghost var lost: seq<nat>      // bytes whose completion was dropped because the buffer had gone

    ghost predicate Valid()
      reads this
    {
      && c.WellFormed() && |slots| == |stamps| == |lost| == c.pool && |ios| == |ioStamps|
      && (forall i :: 0 <= i < |slots| ==> Named(c, slots[i], i, stamps[i], next))
      && (forall i :: 0 <= i < |slots| ==> Balanced(c, slots[i], ios, lost[i]))
      && (forall k :: 0 <= k < |ios| ==> IoOk(c, ios[k], ioStamps[k], next))
    }

    constructor (cfg: Config)
      requires cfg.WellFormed()
      ensures Valid() && c == cfg && ios == [] && next == 1
      ensures forall i :: 0 <= i < |slots| ==> slots[i].gen == c.NoTask()
    {
      c := cfg;
      next := 1;
      ios, ioStamps := [], [];
      slots := seq(cfg.pool, _ => Slot(cfg.NoTask(), 0, 0));
      stamps, lost := seq(cfg.pool, _ => 0), seq(cfg.pool, _ => 0);
    }

    /** No request in flight is as old as a cycle of the generation counter. */
    ghost predicate Recent()
      reads this
    {
      forall k :: 0 <= k < |ioStamps| ==> next + 1 < ioStamps[k] + c.gens
    }

    /** Gives a free slot a new id that no request in flight carries. */
    method Allocate(i: nat, preset: nat) returns (id: nat)
      requires Valid() && i < |slots| && slots[i].gen == c.NoTask() && Recent()
      modifies this`slots, this`next, this`stamps, this`lost
      ensures Valid() && id != c.NoTask() && c.SlotOf(id) == i
      ensures slots == old(slots)[i := Slot(id, preset, preset)] && old(next) < next <= old(next) + 2
      ensures forall k :: 0 <= k < |ios| ==> ios[k].id != id
    {
      hide InFlight, Config.Id, Config.NoTask, Config.SlotOf;
      id := c.Id(next, i);
      ghost var stamp := next;
      FreshId(next, i);
      next := next + 1;
      if id == c.NoTask() {
        id := c.Id(next, i);
        stamp := next;
        next := next + 1;
      }
      IdParts(c, stamp, i);
      forall k | 0 <= k < |ios| ensures ios[k].id != id {
        assert IoOk(c, ios[k], ioStamps[k], old(next));
        if c.SlotOf(ios[k].id) == i {
          SameId(c, stamp, ioStamps[k], i);
        }
      }
      NoneInFlight(ios, id);
      slots := slots[i := Slot(id, preset, preset)];
      stamps, lost := stamps[i := stamp], lost[i := 0];
    }

    lemma FreshId(s: nat, i: nat)
      requires c.WellFormed() && i < c.pool
      ensures c.Id(s, i) == c.NoTask() ==> c.Id(s + 1, i) != c.NoTask()
    {
      IdParts(c, s, i);
      IdParts(c, s + 1, i);
      ModStep(s, 1, c.gens);
    }

    /** A request for length bytes on behalf of a task. */
    method IssueIo(i: nat, length: nat, demand: bool)
      requires Valid() && i < |slots| && slots[i].gen != c.NoTask()
      modifies this`slots, this`ios, this`ioStamps
      ensures Valid() && ios == old(ios) + [Io(old(slots)[i].gen, length, demand)]
      ensures var s := old(slots)[i];
              slots == old(slots)[i := s.(requested := s.requested + if demand then 0 else length)]
    {
      hide InFlight, Config.Id, Config.NoTask, Config.SlotOf;
      var io := Io(slots[i].gen, length, demand);
      assert Named(c, slots[i], i, stamps[i], next);
      forall j | 0 <= j < |slots|
        ensures InFlight(ios + [io], slots[j].gen) == InFlight(ios, slots[j].gen) + Weight(io, slots[j].gen)
      {
        InFlightJoin(ios, [io], slots[j].gen);
        InFlightOne(io, slots[j].gen);
      }
      ios, ioStamps := ios + [io], ioStamps + [stamps[i]];
      if !demand {
        slots := slots[i := slots[i].(requested := slots[i].requested + length)];
      }
    }

    /** Request k completes; gone says that its buffer belongs to someone else by now. A request
        of a former owner of the slot changes nothing, and no task is ever credited with more
        than it asked for. */
    method Complete(k: nat, gone: bool)
      requires Valid() && k < |ios|
      modifies this`slots, this`ios, this`ioStamps, this`lost
      ensures Valid() && ios == old(ios)[..k] + old(ios)[k + 1..]
      ensures forall i :: 0 <= i < |slots| && slots[i].gen != c.NoTask() ==> slots[i].done <= slots[i].requested
      ensures var io, i := old(ios)[k], c.SlotOf(old(ios)[k].id);
              i < |old(slots)| &&
              slots == if gone || io.demand || old(slots)[i].gen != io.id then old(slots)
                       else old(slots)[i := old(slots)[i].(done := old(slots)[i].done + io.length)]
    {
      hide InFlight, Config.Id, Config.NoTask, Config.SlotOf;
      var io := ios[k];
      var i := c.SlotOf(io.id);
      SlotInPool(io.id);
      ghost var rest := ios[..k] + ios[k + 1..];
      assert IoOk(c, io, ioStamps[k], next);
      forall j | 0 <= j < |slots|
        ensures InFlight(ios, slots[j].gen) == InFlight(rest, slots[j].gen) + Weight(io, slots[j].gen)
      {
        InFlightWithout(ios, k, slots[j].gen);
      }
      ios, ioStamps := ios[..k] + ios[k + 1..], ioStamps[..k] + ioStamps[k + 1..];
      var orphan := gone || slots[i].gen != io.id;
      if !orphan {
        if !io.demand {
          slots := slots[i := slots[i].(done := slots[i].done + io.length)];
        }
      } else if slots[i].gen == io.id && !io.demand {
        lost := lost[i := lost[i] + io.length];
      }
    }

    lemma SlotInPool(id: nat)
      requires c.WellFormed()
      ensures c.SlotOf(id) < c.pool
    {
    }

    /** A slot is given up; its requests in flight become orphans. */
    method Retire(i: nat)
      requires Valid() && i < |slots|
      modifies this`slots
      ensures Valid() && slots == old(slots)[i := old(slots)[i].(gen := c.NoTask())]
    {
      slots := slots[i := slots[i].(gen := c.NoTask())];
    }
  }

  lemma InFlightOne(io: Io, id: nat)
    ensures InFlight([io], id) == Weight(io, id)
  {
    assert [io][1..] == [];
  }
}
