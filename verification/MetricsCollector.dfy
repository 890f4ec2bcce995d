/** The collector itself: keyed maps updated in place. Every method is proved to take the
    maps exactly where `SeriesStore` says, whatever order the hash maps are walked in. */
module MetricsCollector {
  import opened Common
  import opened SeriesStore
  import DropCounter

  class MetricsCollector {
    var oomKillsTotal: map<SeriesKey, nat>
    var oomKillsPerNodeTotal: map<string, nat>
    var oomMemoryUsageBytes: map<MemoryKey, nat>
    var oomLastTimestamp: map<SeriesKey, nat>
    var oomEventsDroppedTotal: map<string, nat>
    var oomSeriesEvictedTotal: map<string, nat>
    var lastDroppedTotal: nat
    var lastSeen: map<SeriesKey, nat>
    var deletedAfter: map<PodName, nat>

    /** Every call made so far, oldest first. */
    ghost var history: seq<Op>
    /** Every drop total reported so far, oldest first. */
    ghost var readings: seq<DropCounter.Reading>

    ghost function View(): Store
      reads this
    {
      Store(oomKillsTotal, oomKillsPerNodeTotal, oomMemoryUsageBytes, oomLastTimestamp,
            oomSeriesEvictedTotal, lastSeen, deletedAfter)
    }

    /** The drop counter is a function of the whole history of reports. */
    ghost predicate DropsValid()
      reads this
    {
      && lastDroppedTotal == DropCounter.Last(readings)
      && (forall node :: Get(oomEventsDroppedTotal, node) == DropCounter.Counter(readings, node))
    }

    /** The maps are a function of the whole history of calls. */
    ghost predicate Valid()
      reads this
    {
      View() == Replay(history) && DropsValid()
    }

    constructor ()
      ensures Valid() && history == [] && readings == []
    {
      oomKillsTotal, oomKillsPerNodeTotal, oomMemoryUsageBytes := map[], map[], map[];
      oomLastTimestamp, oomEventsDroppedTotal, oomSeriesEvictedTotal := map[], map[], map[];
      lastDroppedTotal, lastSeen, deletedAfter := 0, map[], map[];
      history, readings := [], [];
    }

    /** Append to the history a call whose effect the maps already show. */
    ghost method Log(op: Op)
      requires View() == Apply(Replay(history), op) && DropsValid()
      modifies `history
      ensures history == old(history) + [op] && Valid()
    {
      ReplayStep(history, op);
      history := history + [op];
    }

    method RecordOomEvent(event: EnrichedOomEvent)
      requires Valid()
      modifies this
      ensures Valid()
      ensures history == old(history) + [Record(event)] && readings == old(readings)
      ensures View() == AfterRecord(old(View()), event) && ShowsRecord(old(View()), View(), event)
    {
      RecordShows(View(), event);
      RecordSeries(event);
      Log(Record(event));
    }

    method RecordSeries(event: EnrichedOomEvent)
      modifies `oomKillsTotal, `oomKillsPerNodeTotal, `oomMemoryUsageBytes, `oomLastTimestamp, `lastSeen
      ensures View() == AfterRecord(old(View()), event)
    {
      var key := KeyOf(event);
      oomKillsTotal := oomKillsTotal[key := Get(oomKillsTotal, key) + 1];
      oomKillsPerNodeTotal := oomKillsPerNodeTotal[key.node := Get(oomKillsPerNodeTotal, key.node) + 1];
      RaiseMemoryPeaks(key.Name(), event.raw);
      oomLastTimestamp := oomLastTimestamp[key := event.timestamp];
      lastSeen := lastSeen[key := event.timestamp];
      ghost var expected := AfterRecord(old(View()), event);
      assert oomMemoryUsageBytes == expected.memory;
      assert oomKillsTotal == expected.kills && oomKillsPerNodeTotal == expected.perNode;
    }

    /** Raise each of the four gauges of `name` to this kill's figure, if that is larger. */
    method RaiseMemoryPeaks(name: ContainerName, raw: OomKillEvent)
      modifies `oomMemoryUsageBytes
      ensures oomMemoryUsageBytes == RaisePeaks(old(oomMemoryUsageBytes), name, raw, MEMORY_TYPES)
    {
      var figures := MemoryValues(raw);
      for i := 0 to |MEMORY_TYPES|
        invariant oomMemoryUsageBytes == RaisePeaks(old(oomMemoryUsageBytes), name, raw, MEMORY_TYPES[..i])
      {
        var gauge := MemoryKey(name, MEMORY_TYPES[i]);
        assert MEMORY_TYPES[..i + 1][..i] == MEMORY_TYPES[..i];
        MemoryValuesMatchTypes(raw, i);
        // Touching the series creates it at zero.
        oomMemoryUsageBytes := oomMemoryUsageBytes[gauge := Get(oomMemoryUsageBytes, gauge)];
        var bytes := figures[i] * 1024;
        if bytes > oomMemoryUsageBytes[gauge] {
          oomMemoryUsageBytes := oomMemoryUsageBytes[gauge := bytes];
        }
      }
      assert MEMORY_TYPES[..|MEMORY_TYPES|] == MEMORY_TYPES;
    }

    method NotePodDeleted(namespace: string, pod: string, now: U64)
      requires Valid()
      modifies this
      ensures Valid()
      ensures history == old(history) + [SeriesStore.NotePodDeleted(PodName(namespace, pod), now)]
      ensures readings == old(readings)
      ensures View() == AfterNote(old(View()), PodName(namespace, pod), now)
    {
      deletedAfter := deletedAfter[PodName(namespace, pod) := SaturatingAdd(now, DELETED_POD_GRACE_SECONDS)];
      Log(SeriesStore.NotePodDeleted(PodName(namespace, pod), now));
    }

    /** Take every due entry out of `deletedAfter`, whether or not a series matches it. */
    method DrainDue(now: U64) returns (due: seq<PodName>)
      modifies `deletedAfter
      ensures forall pod :: pod in due <==> PodDue(old(deletedAfter), pod, now)
      ensures deletedAfter == map pod | pod in old(deletedAfter) && now < old(deletedAfter)[pod] :: old(deletedAfter)[pod]
    {
      due := [];
      var unvisited := deletedAfter.Keys;
      while unvisited != {}
        modifies `deletedAfter
        invariant unvisited <= deletedAfter.Keys
        invariant forall pod :: pod in due <==> PodDue(old(deletedAfter), pod, now) && pod !in unvisited
        invariant forall pod :: pod in deletedAfter <==>
                    pod in old(deletedAfter) && (pod in unvisited || now < old(deletedAfter)[pod])
        invariant forall pod :: pod in deletedAfter ==> deletedAfter[pod] == old(deletedAfter)[pod]
        decreases |unvisited|
      {
        var pod :| pod in unvisited;
        var pending := now < deletedAfter[pod];
        if !pending {
          due := due + [pod];
          deletedAfter := deletedAfter - {pod};
        }
        unvisited := unvisited - {pod};
      }
    }

    /** Move every stale key out of `lastSeen`, in whatever order the map is walked. */
    method CollectStale(now: U64, ttlSecs: U64, due: seq<PodName>) returns (stale: seq<SeriesKey>)
      modifies `lastSeen
      ensures forall key :: key in stale <==>
                key in old(lastSeen) && (SaturatingSub(now, old(lastSeen)[key]) >= ttlSecs || key.Pod() in due)
      ensures Distinct(stale)
      ensures lastSeen == old(lastSeen) - Elements(stale)
    {
      stale := [];
      var unvisited := lastSeen.Keys;
      while unvisited != {}
        modifies `lastSeen
        invariant unvisited <= lastSeen.Keys
        invariant forall key :: key in stale <==>
                    && key in old(lastSeen) && key !in unvisited
                    && (SaturatingSub(now, old(lastSeen)[key]) >= ttlSecs || key.Pod() in due)
        invariant Distinct(stale)
        invariant lastSeen == old(lastSeen) - Elements(stale)
        decreases |unvisited|
      {
        var key :| key in unvisited;
        var agedOut := SaturatingSub(now, lastSeen[key]) >= ttlSecs;
        var podGone := exists pod :: pod in due && key.namespace == pod.namespace && key.pod == pod.pod;
        assert podGone <==> key.Pod() in due;
        if agedOut || podGone {
          stale := stale + [key];
          lastSeen := lastSeen - {key};
        }
        unvisited := unvisited - {key};
      }
    }

    method RemoveSeries(key: SeriesKey, memorySeriesOrphaned: bool)
      modifies `oomKillsTotal, `oomLastTimestamp, `oomMemoryUsageBytes, `oomSeriesEvictedTotal
      ensures oomKillsTotal == old(oomKillsTotal) - {key}
      ensures oomLastTimestamp == old(oomLastTimestamp) - {key}
      ensures oomMemoryUsageBytes ==
              if memorySeriesOrphaned then WithoutName(old(oomMemoryUsageBytes), key.Name()) else old(oomMemoryUsageBytes)
      ensures oomSeriesEvictedTotal ==
              old(oomSeriesEvictedTotal)[key.node := Get(old(oomSeriesEvictedTotal), key.node) + 1]
    {
      oomKillsTotal := oomKillsTotal - {key};
      oomLastTimestamp := oomLastTimestamp - {key};
      if memorySeriesOrphaned {
        for i := 0 to |MEMORY_TYPES|
          modifies `oomMemoryUsageBytes
          invariant oomMemoryUsageBytes ==
                    map mk | mk in old(oomMemoryUsageBytes) && !(mk.name == key.Name() && mk.kind in MEMORY_TYPES[..i])
                      :: old(oomMemoryUsageBytes)[mk]
        {
          oomMemoryUsageBytes := oomMemoryUsageBytes - {MemoryKey(key.Name(), MEMORY_TYPES[i])};
          assert MEMORY_TYPES[..i + 1] == MEMORY_TYPES[..i] + [MEMORY_TYPES[i]];
        }
        forall kind
          ensures kind in MEMORY_TYPES[..|MEMORY_TYPES|]
        {
          AllKinds(kind);
        }
      }
      oomSeriesEvictedTotal := oomSeriesEvictedTotal[key.node := Get(oomSeriesEvictedTotal, key.node) + 1];
    }

    method RemoveNth(stale: seq<SeriesKey>, i: nat, ghost before: Store)
      requires Distinct(stale) && i < |stale| && WithRemoved(before, View(), Elements(stale[..i]))
      modifies `oomKillsTotal, `oomLastTimestamp, `oomMemoryUsageBytes, `oomSeriesEvictedTotal
      ensures WithRemoved(before, View(), Elements(stale[..i + 1]))
    {
      ghost var was := View();
      var key := stale[i];
      var memorySeriesOrphaned := !exists live :: live in lastSeen.Keys && live.SharesMemorySeriesWith(key);
      RemoveSeries(key, memorySeriesOrphaned);
      ElementsGrow(stale, i);
      RemovedOneMore(before, was, View(), Elements(stale[..i]), key, memorySeriesOrphaned);
    }

    /** Remove the listed series one at a time, each against the keys that survived the scan. */
    method RemoveAll(stale: seq<SeriesKey>)
      requires Distinct(stale)
      modifies `oomKillsTotal, `oomLastTimestamp, `oomMemoryUsageBytes, `oomSeriesEvictedTotal
      ensures oomKillsTotal == old(oomKillsTotal) - Elements(stale)
      ensures oomLastTimestamp == old(oomLastTimestamp) - Elements(stale)
      ensures oomMemoryUsageBytes == WithoutOrphans(old(oomMemoryUsageBytes), lastSeen.Keys, Elements(stale))
      ensures oomSeriesEvictedTotal == CountEvictions(old(oomSeriesEvictedTotal), Elements(stale))
    {
      ghost var before := View();
      NothingRemoved(oomMemoryUsageBytes, oomSeriesEvictedTotal, lastSeen.Keys);
      for i := 0 to |stale|
        invariant lastSeen == before.lastSeen && WithRemoved(before, View(), Elements(stale[..i]))
      {
        RemoveNth(stale, i, before);
      }
      assert stale[..|stale|] == stale;
    }

    /** The sweep: drain, scan, then remove one key at a time. However the two maps happen to
        be ordered the outcome is the one set-valued `AfterSweep`. */
    method EvictStale(now: U64, ttlSecs: U64) returns (count: nat)
      requires Valid()
      modifies this
      ensures Valid()
      ensures history == old(history) + [Sweep(now, ttlSecs)] && readings == old(readings)
      ensures View() == AfterSweep(old(View()), now, ttlSecs)
      ensures count == |StaleKeys(old(View()), now, ttlSecs)|
    {
      count := EvictSeries(now, ttlSecs);
      Log(Sweep(now, ttlSecs));
    }

    method EvictSeries(now: U64, ttlSecs: U64) returns (count: nat)
      modifies `deletedAfter, `lastSeen, `oomKillsTotal, `oomLastTimestamp, `oomMemoryUsageBytes, `oomSeriesEvictedTotal
      ensures View() == AfterSweep(old(View()), now, ttlSecs)
      ensures count == |StaleKeys(old(View()), now, ttlSecs)|
    {
      ghost var before := View();
      var due := DrainDue(now);
      var stale := CollectStale(now, ttlSecs, due);
      assert Elements(stale) == StaleKeys(before, now, ttlSecs);
      assert lastSeen.Keys == before.lastSeen.Keys - Elements(stale);
      RemoveAll(stale);
      ElementsCount(stale);
      count := |stale|;
    }

    method RecordDroppedTotal(node: string, total: nat)
      requires Valid()
      modifies this
      ensures Valid()
      ensures readings == old(readings) + [DropCounter.Reading(node, total)] && history == old(history)
      ensures View() == old(View())
    {
      var previous := lastDroppedTotal;
      lastDroppedTotal := total;
      readings := readings + [DropCounter.Reading(node, total)];
      assert readings[..|readings| - 1] == old(readings);
      if total < previous {
        return;
      }
      var delta := total - previous;
      if delta > 0 {
        oomEventsDroppedTotal := oomEventsDroppedTotal[node := Get(oomEventsDroppedTotal, node) + delta];
      }
    }
  }

  lemma NothingRemoved(memory: map<MemoryKey, nat>, evicted: map<string, nat>, survivors: set<SeriesKey>)
    ensures CountEvictions(evicted, Elements([])) == evicted
    ensures WithoutOrphans(memory, survivors, Elements([])) == memory
  {
    assert Elements([]) == {};
    CountNone(evicted);
  }

  /** From `before` to `s` the series of `removed` went, each judged against the survivors. */
  ghost predicate WithRemoved(before: Store, s: Store, removed: set<SeriesKey>) {
    && s.kills == before.kills - removed
    && s.lastTimestamp == before.lastTimestamp - removed
    && s.memory == WithoutOrphans(before.memory, s.lastSeen.Keys, removed)
    && s.evicted == CountEvictions(before.evicted, removed)
  }

  lemma RemovedOneMore(before: Store, s: Store, s': Store, removed: set<SeriesKey>, key: SeriesKey, orphaned: bool)
    requires WithRemoved(before, s, removed) && key !in removed && s'.lastSeen == s.lastSeen
    requires orphaned == !exists live :: live in s.lastSeen.Keys && live.SharesMemorySeriesWith(key)
    requires s'.kills == s.kills - {key} && s'.lastTimestamp == s.lastTimestamp - {key}
    requires s'.memory == if orphaned then WithoutName(s.memory, key.Name()) else s.memory
    requires s'.evicted == s.evicted[key.node := Get(s.evicted, key.node) + 1]
    ensures WithRemoved(before, s', removed + {key})
  {
    OrphansOneMore(before.memory, s.lastSeen.Keys, removed, key);
    CountOneMore(before.evicted, removed, key);
  }
}
