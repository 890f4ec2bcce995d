/** What every history of calls keeps true of the store. */
module StoreSafety {
  import opened Common
  import opened SeriesStore
  import StoreHistory
  import opened Sums

  // ----- ownership of the shared gauges -----

  predicate NamedBy(keys: set<SeriesKey>, name: ContainerName) {
    exists key :: key in keys && key.Name() == name
  }

  /** Exactly the tracked keys have series; a container has its four gauges exactly while
      some tracked restart of it exists. */
  ghost predicate Owned(s: Store) {
    && s.kills.Keys == s.lastSeen.Keys
    && s.lastTimestamp.Keys == s.lastSeen.Keys
    && (forall mk :: mk in s.memory <==> NamedBy(s.lastSeen.Keys, mk.name))
  }

  lemma NamedByGrows(keys: set<SeriesKey>, key: SeriesKey, name: ContainerName)
    ensures NamedBy(keys + {key}, name) <==> NamedBy(keys, name) || key.Name() == name
  {
    assert key in keys + {key};
    if NamedBy(keys, name) {
      var other :| other in keys && other.Name() == name;
      assert other in keys + {key};
    }
  }

  lemma OwnedRecord(s: Store, e: EnrichedOomEvent)
    requires Owned(s)
    ensures Owned(AfterRecord(s, e))
  {
    var s' := AfterRecord(s, e);
    var key := KeyOf(e);
    assert s'.lastSeen.Keys == s.lastSeen.Keys + {key};
    forall mk: MemoryKey
      ensures mk in s'.memory <==> NamedBy(s'.lastSeen.Keys, mk.name)
    {
      AllKinds(mk.kind);
      RaisedAt(s.memory, key.Name(), e.raw, MEMORY_TYPES, mk);
      NamedByGrows(s.lastSeen.Keys, key, mk.name);
    }
  }

  lemma OwnedSweep(s: Store, now: nat, ttl: nat)
    requires Owned(s)
    ensures Owned(AfterSweep(s, now, ttl))
  {
    var s' := AfterSweep(s, now, ttl);
    var stale := StaleKeys(s, now, ttl);
    assert s'.lastSeen.Keys == s.lastSeen.Keys - stale;
    forall mk: MemoryKey
      ensures mk in s'.memory <==> NamedBy(s'.lastSeen.Keys, mk.name)
    {
      if NamedBy(s.lastSeen.Keys, mk.name) && !NamedBy(s'.lastSeen.Keys, mk.name) {
        var key :| key in s.lastSeen.Keys && key.Name() == mk.name;
        assert key in stale;
      }
    }
  }

  lemma OwnedStep(s: Store, op: Op)
    requires Owned(s)
    ensures Owned(Apply(s, op))
  {
    match op
    case Record(e) => OwnedRecord(s, e);
    case NotePodDeleted(_, _) =>
    case Sweep(now, ttl) => OwnedSweep(s, now, ttl);
  }

  /** In every reachable state the maps have one owner set, and the gauges follow it: a stale
      restart never takes a live sibling's gauges, and the last restart always does. */
  lemma {:induction false} GaugesOwned(h: seq<Op>)
    ensures Owned(Replay(h))
  {
    if h != [] {
      GaugesOwned(h[..|h| - 1]);
      OwnedStep(Replay(h[..|h| - 1]), h[|h| - 1]);
    }
  }

  // ----- counting -----

  /** Counts that left with evicted series of `node`. */
  ghost function CarriedAway(h: seq<Op>, node: string): nat {
    if h == [] then 0
    else
      var p, op := h[..|h| - 1], h[|h| - 1];
      CarriedAway(p, node) +
      if op.Sweep? then Sum(Replay(p).kills, OnNode(StaleKeys(Replay(p), op.now, op.ttl), node)) else 0
  }

  /** The kills the live series of `node` show. */
  ghost function Live(kills: map<SeriesKey, nat>, node: string): nat {
    Sum(kills, OnNode(kills.Keys, node))
  }

  lemma LiveSet(kills: map<SeriesKey, nat>, key: SeriesKey, v: nat, node: string)
    ensures Live(kills[key := v], node) ==
            Live(kills, node) + if key.node == node then v - Get(kills, key) else 0
  {
    var kills' := kills[key := v];
    var before, after := OnNode(kills.Keys, node), OnNode(kills'.Keys, node);
    if key.node == node {
      assert after == before + {key};
      SumTakeOut(kills', after, key);
      assert after - {key} == before - {key};
      SumAgree(kills, kills', before - {key});
      if key in before {
        SumTakeOut(kills, before, key);
      } else {
        assert before - {key} == before;
      }
    } else {
      assert after == before;
      SumAgree(kills, kills', before);
    }
  }

  lemma KillsOfRecord(s: Store, e: EnrichedOomEvent, node: string)
    ensures Live(AfterRecord(s, e).kills, node) == Live(s.kills, node) + if KeyOf(e).node == node then 1 else 0
  {
    LiveSet(s.kills, KeyOf(e), Get(s.kills, KeyOf(e)) + 1, node);
  }

  lemma KillsOfSweep(s: Store, now: nat, ttl: nat, node: string)
    requires Owned(s)
    ensures var s' := AfterSweep(s, now, ttl);
            Live(s.kills, node) == Live(s'.kills, node) + Sum(s.kills, OnNode(StaleKeys(s, now, ttl), node))
  {
    var s' := AfterSweep(s, now, ttl);
    var kept, gone := OnNode(s'.kills.Keys, node), OnNode(StaleKeys(s, now, ttl), node);
    assert OnNode(s.kills.Keys, node) == kept + gone;
    SumDisjoint(s.kills, kept, gone);
    SumAgree(s.kills, s'.kills, kept);
  }

  /** Every kill of a node is in a live series or left with an evicted one, and is counted
      once: the per-node counter is exactly the number of events recorded for the node. */
  lemma {:induction false} KillsConserved(h: seq<Op>, node: string)
    ensures Get(Replay(h).perNode, node) == StoreHistory.CountNode(h, node)
    ensures Get(Replay(h).perNode, node) ==
            Live(Replay(h).kills, node) + CarriedAway(h, node)
  {
    if h == [] {
      assert OnNode(EMPTY.kills.Keys, node) == {};
    } else {
      var p, op := h[..|h| - 1], h[|h| - 1];
      KillsConserved(p, node);
      match op
      case Record(e) => KillsOfRecord(Replay(p), e, node);
      case NotePodDeleted(_, _) =>
      case Sweep(now, ttl) =>
        GaugesOwned(p);
        KillsOfSweep(Replay(p), now, ttl, node);
    }
  }

  /** Label sets of `node` that came into existence, re-creations after eviction included. */
  ghost function Births(h: seq<Op>, node: string): nat {
    if h == [] then 0
    else
      var p, op := h[..|h| - 1], h[|h| - 1];
      Births(p, node) +
      if op.Record? && KeyOf(op.event).node == node && KeyOf(op.event) !in Replay(p).lastSeen then 1 else 0
  }

  /** Every label set born is either alive or counted as evicted. */
  lemma {:induction false} EvictionsConserved(h: seq<Op>, node: string)
    ensures Births(h, node) == |OnNode(Replay(h).lastSeen.Keys, node)| + Get(Replay(h).evicted, node)
  {
    if h == [] {
      assert OnNode(EMPTY.lastSeen.Keys, node) == {};
    } else {
      var p, op := h[..|h| - 1], h[|h| - 1];
      var s := Replay(p);
      EvictionsConserved(p, node);
      match op
      case Record(e) =>
        var key := KeyOf(e);
        if key in s.lastSeen {
          assert Replay(h).lastSeen.Keys == s.lastSeen.Keys;
        } else {
          assert Replay(h).lastSeen.Keys == s.lastSeen.Keys + {key};
          OnNodeGrows(s.lastSeen.Keys, key, node);
        }
      case NotePodDeleted(_, _) =>
      case Sweep(now, ttl) =>
        var stale := StaleKeys(s, now, ttl);
        var kept := OnNode(s.lastSeen.Keys - stale, node);
        assert OnNode(s.lastSeen.Keys, node) == kept + OnNode(stale, node);
        assert Replay(h).lastSeen.Keys == s.lastSeen.Keys - stale;
        if node !in NodesOf(stale) {
          NoneOnForeignNode(stale, node);
        }
    }
  }

  /** What the sweeps of a history returned, added up. */
  ghost function Returned(h: seq<Op>): nat {
    if h == [] then 0
    else
      var p, op := h[..|h| - 1], h[|h| - 1];
      Returned(p) + if op.Sweep? then |StaleKeys(Replay(p), op.now, op.ttl)| else 0
  }

  lemma CountEvictionsSumStep(evicted: map<string, nat>, removed: set<SeriesKey>, key: SeriesKey)
    requires key !in removed
    ensures var before := CountEvictions(evicted, removed);
            var after := CountEvictions(evicted, removed + {key});
            Sum(after, after.Keys) == Sum(before, before.Keys) + 1
  {
    CountOneMore(evicted, removed, key);
    SumOneMore(CountEvictions(evicted, removed), CountEvictions(evicted, removed + {key}), key.node);
  }

  lemma {:induction false} CountEvictionsSum(evicted: map<string, nat>, removed: set<SeriesKey>)
    ensures var after := CountEvictions(evicted, removed);
            Sum(after, after.Keys) == Sum(evicted, evicted.Keys) + |removed|
    decreases |removed|
  {
    if removed == {} {
      CountNone(evicted);
    } else {
      var key :| key in removed;
      var rest := removed - {key};
      CountEvictionsSum(evicted, rest);
      CountEvictionsSumStep(evicted, rest, key);
      assert rest + {key} == removed;
    }
  }

  /** Over all nodes the eviction counter is the sum of every sweep's return value. */
  lemma {:induction false} EvictionCounterMatchesReturns(h: seq<Op>)
    ensures Sum(Replay(h).evicted, Replay(h).evicted.Keys) == Returned(h)
  {
    if h != [] {
      var p, op := h[..|h| - 1], h[|h| - 1];
      EvictionCounterMatchesReturns(p);
      if op.Sweep? {
        CountEvictionsSum(Replay(p).evicted, StaleKeys(Replay(p), op.now, op.ttl));
      }
    }
  }
}
