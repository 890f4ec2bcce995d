/** The probe's two maps and the ring source that drains them. The environment of a call is a
    script of firings, in batches that land between the call's own reads of the ring. */
module EventSource {
  import opened Common
  import Pipeline

  /** `size_of::<OomKillEvent>()` under the C layout rules; see `LayoutCheck.EventSize`. */
  const EVENT_SIZE: nat := 80

  /** One ring record: its length in bytes and what its bytes decode to. */
  datatype RingItem = RingItem(length: nat, event: OomKillEvent)

  /** What one `mark_victim` hit does: its arguments could not be read, it enqueued a record,
      or the ring had no room. */
  datatype Firing =
    | Unreadable
    | Enqueued(event: OomKillEvent)
    | RingFull(cpu: nat)

  /** How `next` ends: with an event, with the source broken, or dropped by a tick. */
  datatype Outcome =
    | Yielded(event: OomKillEvent)
    | Ended
    | Cancelled

  /** The events among the first `n` firings of a batch that found room, in order. */
  function Accepted(batch: seq<Firing>, n: nat): seq<OomKillEvent>
    requires n <= |batch|
  {
    if n == 0 then []
    else Accepted(batch, n - 1) + if batch[n - 1].Enqueued? then [batch[n - 1].event] else []
  }

  function Drops(batch: seq<Firing>, n: nat): nat
    requires n <= |batch|
  {
    if n == 0 then 0 else Drops(batch, n - 1) + if batch[n - 1].RingFull? then 1 else 0
  }

  /** The same over the first `n` batches. */
  function AllAccepted(batches: seq<seq<Firing>>, n: nat): seq<OomKillEvent>
    requires n <= |batches|
  {
    if n == 0 then [] else AllAccepted(batches, n - 1) + Accepted(batches[n - 1], |batches[n - 1]|)
  }

  function AllDrops(batches: seq<seq<Firing>>, n: nat): nat
    requires n <= |batches|
  {
    if n == 0 then 0 else AllDrops(batches, n - 1) + Drops(batches[n - 1], |batches[n - 1]|)
  }

  /** The events of the whole records; a short record yields none. */
  function Events(items: seq<RingItem>): seq<OomKillEvent> {
    if items == [] then []
    else if items[0].length >= EVENT_SIZE then [items[0].event] + Events(items[1..])
    else Events(items[1..])
  }

  /** What the first batches brought comes first. */
  lemma {:induction false} AcceptedInOrder(batches: seq<seq<Firing>>, n: nat, m: nat)
    requires n <= m <= |batches|
    ensures AllAccepted(batches, n) <= AllAccepted(batches, m)
    decreases m - n
  {
    if n < m {
      AcceptedInOrder(batches, n, m - 1);
    }
  }

  lemma {:induction false} EventsConcat(a: seq<RingItem>, b: seq<RingItem>)
    ensures Events(a + b) == Events(a) + Events(b)
  {
    if a == [] {
      assert a + b == b;
    } else {
      assert (a + b)[1..] == a[1..] + b;
      EventsConcat(a[1..], b);
    }
  }

  predicate OnCpus(batch: seq<Firing>, cpus: nat) {
    forall i :: 0 <= i < |batch| && batch[i].RingFull? ==> batch[i].cpu < cpus
  }

  predicate AllOnCpus(batches: seq<seq<Firing>>, cpus: nat) {
    forall i :: 0 <= i < |batches| ==> OnCpus(batches[i], cpus)
  }

  class RingBufSource {
    var ring: seq<RingItem>
    const dropped: array<nat>
    var pending: seq<OomKillEvent>
    var ready: bool

    /** Records waiting in the ring keep the readiness bit set. */
    ghost predicate Valid()
      reads this
    {
      ring != [] ==> ready
    }

    /** Everything on its way to the loop, oldest first. */
    ghost function InFlight(): seq<OomKillEvent>
      reads this
    {
      pending + Events(ring)
    }

    ghost function DropCount(): nat
      reads this, dropped
    {
      Pipeline.Total(dropped[..])
    }

    constructor (cpus: nat)
      ensures Valid() && InFlight() == [] && fresh(dropped) && dropped.Length == cpus
      ensures DropCount() == 0
    {
      ring, pending, ready := [], [], false;
      dropped := new nat[cpus](_ => 0);
      new;
      assert dropped[..] == seq(cpus, _ => 0);
      Pipeline.TotalOfZeros(cpus);
    }

    /** The probe: enqueue, or count the drop on this CPU. */
    method MarkVictim(f: Firing)
      requires Valid() && (f.RingFull? ==> f.cpu < dropped.Length)
      modifies this`ring, this`ready, dropped
      ensures Valid()
      ensures ring == if f.Enqueued? then old(ring) + [RingItem(EVENT_SIZE, f.event)] else old(ring)
      ensures Events(ring) == if f.Enqueued? then old(Events(ring)) + [f.event] else old(Events(ring))
      ensures DropCount() == if f.RingFull? then old(DropCount()) + 1 else old(DropCount())
    {
      match f
      case Unreadable =>
      case Enqueued(e) =>
        EventsConcat(ring, [RingItem(EVENT_SIZE, e)]);
        ring := ring + [RingItem(EVENT_SIZE, e)];
        ready := true;
      case RingFull(cpu) =>
        Pipeline.TotalOneMore(dropped[..], cpu);
        dropped[cpu] := dropped[cpu] + 1;
        assert dropped[..] == old(dropped[..])[cpu := old(dropped[cpu]) + 1];
    }

    /** What was waiting before a batch, plus its first `n` firings, is waiting or counted. */
    ghost predicate BatchHolds(waiting: seq<OomKillEvent>, drops: nat, batch: seq<Firing>, n: nat)
      reads this, dropped
    {
      && n <= |batch|
      && Events(ring) == waiting + Accepted(batch, n)
      && DropCount() == drops + Drops(batch, n)
    }

    /** One firing of a batch. */
    method FireOne(batch: seq<Firing>, n: nat, ghost waiting: seq<OomKillEvent>, ghost drops: nat)
      requires Valid() && n < |batch| && OnCpus(batch, dropped.Length)
      requires BatchHolds(waiting, drops, batch, n)
      modifies this`ring, this`ready, dropped
      ensures Valid() && BatchHolds(waiting, drops, batch, n + 1)
    {
      MarkVictim(batch[n]);
    }

    /** A batch of firings, in order. */
    method Fire(batch: seq<Firing>)
      requires Valid() && OnCpus(batch, dropped.Length)
      modifies this`ring, this`ready, dropped
      ensures Valid()
      ensures Events(ring) == old(Events(ring)) + Accepted(batch, |batch|)
      ensures DropCount() == old(DropCount()) + Drops(batch, |batch|)
    {
      for i := 0 to |batch|
        invariant Valid() && BatchHolds(old(Events(ring)), old(DropCount()), batch, i)
      {
        FireOne(batch, i, old(Events(ring)), old(DropCount()));
      }
    }

    /** The same, as seen by whoever counts what is in flight. */
    method FireBatch(batch: seq<Firing>)
      requires Valid() && OnCpus(batch, dropped.Length)
      modifies this`ring, this`ready, dropped
      ensures Valid()
      ensures InFlight() == old(InFlight()) + Accepted(batch, |batch|)
      ensures DropCount() == old(DropCount()) + Drops(batch, |batch|)
    {
      ghost var waiting, accepted := Events(ring), Accepted(batch, |batch|);
      Fire(batch);
      assert pending + (waiting + accepted) == pending + waiting + accepted;
    }

    /** What a call was handed plus the first `n` batches is all in flight or counted. */
    ghost predicate Holds(first: seq<OomKillEvent>, drops: nat, batches: seq<seq<Firing>>, n: nat)
      reads this, dropped
    {
      && n <= |batches|
      && InFlight() == first + AllAccepted(batches, n)
      && DropCount() == drops + AllDrops(batches, n)
    }

    /** One more batch lands. */
    method FireNext(batches: seq<seq<Firing>>, n: nat, ghost first: seq<OomKillEvent>, ghost drops: nat)
      requires Valid() && n < |batches| && AllOnCpus(batches, dropped.Length)
      requires Holds(first, drops, batches, n)
      modifies this`ring, this`ready, dropped
      ensures Valid() && Holds(first, drops, batches, n + 1)
    {
      FireBatch(batches[n]);
    }

    /** One look at the ring, a batch perhaps landing just before it; `empty` if nothing is seen. */
    method LookOnce(batches: seq<seq<Firing>>, from: nat, ghost first: seq<OomKillEvent>, ghost drops: nat)
        returns (next: nat, empty: bool)
      requires Valid() && AllOnCpus(batches, dropped.Length) && Holds(first, drops, batches, from)
      modifies this`ring, this`ready, this`pending, dropped
      ensures Valid() && Holds(first, drops, batches, next)
      ensures empty ==> ring == []
      ensures from < next || (from == next == |batches| && (empty || |ring| < |old(ring)|))
    {
      next := from;
      if next < |batches| {
        FireNext(batches, next, first, drops);
        next := next + 1;
      }
      empty := ring == [];
      if !empty {
        ReadOne();
      }
    }

    /** Read the ring until it is seen empty; a batch may land before each read. */
    method Drain(batches: seq<seq<Firing>>, from: nat, ghost first: seq<OomKillEvent>, ghost drops: nat)
        returns (next: nat)
      requires Valid() && AllOnCpus(batches, dropped.Length)
      requires Holds(first, drops, batches, from)
      modifies this`ring, this`ready, this`pending, dropped
      ensures Valid() && ring == [] && from <= next && Holds(first, drops, batches, next)
    {
      next := from;
      var empty := false;
      while !empty
        invariant Valid() && from <= next && Holds(first, drops, batches, next)
        invariant empty ==> ring == []
        decreases |batches| - next, !empty, |ring|
      {
        next, empty := LookOnce(batches, next, first, drops);
      }
    }

    /** Decode one record into `pending`; a short one is passed over. */
    method ReadOne()
      requires Valid() && ring != []
      modifies this`ring, this`pending
      ensures ring == old(ring)[1..] && Valid() && InFlight() == old(InFlight())
    {
      var item := ring[0];
      ring := ring[1..];
      if item.length >= EVENT_SIZE {
        pending := pending + [item.event];
      }
    }

    /** Hand out the oldest pending event. */
    method TakePending() returns (event: OomKillEvent)
      requires Valid() && pending != []
      modifies this`pending
      ensures Valid() && event == old(pending)[0] && [event] + InFlight() == old(InFlight())
    {
      event := pending[0];
      pending := pending[1..];
      assert [event] + pending == old(pending);
      assert [event] + (pending + Events(ring)) == [event] + pending + Events(ring);
    }

    /** The wait and what follows it: if ready, drain the ring and clear the readiness seen; then
        one more batch may land, which is also all that happens while not ready. */
    method WaitAndDrain(batches: seq<seq<Firing>>, from: nat, ghost first: seq<OomKillEvent>, ghost drops: nat)
        returns (next: nat)
      requires Valid() && AllOnCpus(batches, dropped.Length) && Holds(first, drops, batches, from)
      requires ready || from < |batches|
      modifies this`ring, this`ready, this`pending, dropped
      ensures Valid() && Holds(first, drops, batches, next)
      ensures from < next || (from == next == |batches| && !ready && old(ready))
    {
      next := from;
      if ready {
        next := Drain(batches, from, first, drops);
        // The guard forgets the edge it saw; one raised since the last read stays.
        ready := false;
      }
      if next < |batches| {
        FireNext(batches, next, first, drops);
        next := next + 1;
      }
    }

    /** `next`: hand out what is pending; otherwise wait for readiness, drain the ring into
        `pending`, clear the readiness seen, and look again. A batch may land before every ring
        read, between the last read and the clear, and while parked; parked with nothing left
        to come, the tick wins and the future is dropped. `broken` is a failed readiness wait. */
    method Next(batches: seq<seq<Firing>>, broken: bool) returns (outcome: Outcome, next: nat)
      requires Valid() && AllOnCpus(batches, dropped.Length)
      modifies this, dropped
      ensures Valid() && next <= |batches|
      ensures Handed(outcome) + InFlight() == old(InFlight()) + AllAccepted(batches, next)
      ensures DropCount() == old(DropCount()) + AllDrops(batches, next)
      ensures !outcome.Yielded? ==> pending == []
      ensures outcome.Cancelled? ==> ring == [] && next == |batches|
      ensures old(pending) != [] ==> next == 0 && outcome == Yielded(old(pending)[0])
      ensures outcome.Ended? <==> broken && old(pending) == []
      ensures outcome.Ended? ==> next == 0
    {
      next := 0;
      while pending == []
        invariant Valid() && Holds(old(InFlight()), old(DropCount()), batches, next)
        invariant old(pending) != [] || broken ==> next == 0 && pending == old(pending)
        decreases |batches| - next, ready
      {
        if broken {
          outcome := Ended;
          return;
        }
        if !ready && next == |batches| {
          outcome := Cancelled;
          return;
        }
        next := WaitAndDrain(batches, next, old(InFlight()), old(DropCount()));
      }
      var event := TakePending();
      outcome := Yielded(event);
    }

    /** The per-CPU drop counts summed, or nothing when the map cannot be read. */
    method DroppedTotal(readable: bool) returns (total: Option<nat>)
      ensures total == if readable then Some(DropCount()) else None
    {
      if !readable {
        return None;
      }
      var sum := 0;
      var i := dropped.Length;
      while i > 0
        invariant 0 <= i <= dropped.Length
        invariant sum == Pipeline.Total(dropped[i..])
      {
        i := i - 1;
        assert dropped[i..][1..] == dropped[i + 1..];
        sum := dropped[i] + sum;
      }
      assert dropped[0..] == dropped[..];
      total := Some(sum);
    }
  }

  function Handed(outcome: Outcome): seq<OomKillEvent> {
    if outcome.Yielded? then [outcome.event] else []
  }
}
