/** When no record overlaps a sweep, the interleaved steps refine the whole-call store; when
    one does, an increment can be lost although nothing leaks. */
module SerialRefinement {
  import opened Common
  import opened SeriesStore
  import opened SweepInterleaving
  import StoreSafety

  // ----- running a record to its end -----

  function Rank(at: Point): nat {
    match at
    case TouchKills => 14
    case IncrementKills => 13
    case CountNode => 12
    case TouchGauge(i) => if i < 4 then 11 - 2 * i else 3
    case RaiseGauge(i) => if i < 4 then 10 - 2 * i else 3
    case TouchTimestamp => 2
    case SetTimestamp => 1
    case Stamp => 0
  }

  function FinishRecord(s: Store, e: EnrichedOomEvent, at: Point): Store
    requires IsPoint(at)
    decreases Rank(at)
  {
    var s' := RecordAt(s, e, at);
    match NextPoint(e, at)
    case Quiet => s'
    case Recording(_, next) => FinishRecord(s', e, next)
  }

  function Raised(s: Store, e: EnrichedOomEvent, i: nat): Store
    requires i < |MEMORY_TYPES|
  {
    var gauge := Gauge(e, i);
    s.(memory := s.memory[gauge := Max(Get(s.memory, gauge), 1024 * MemoryValue(e.raw, gauge.kind))])
  }

  lemma FinishGauge(s: Store, e: EnrichedOomEvent, i: nat)
    requires i < |MEMORY_TYPES|
    ensures FinishRecord(s, e, TouchGauge(i)) ==
            FinishRecord(Raised(s, e, i), e, if i + 1 < |MEMORY_TYPES| then TouchGauge(i + 1) else TouchTimestamp)
  {
    var touched := RecordAt(s, e, TouchGauge(i));
    FinishStep(s, e, TouchGauge(i), RaiseGauge(i));
    FinishStep(touched, e, RaiseGauge(i), if i + 1 < |MEMORY_TYPES| then TouchGauge(i + 1) else TouchTimestamp);
    TouchThenRaise(s, e, i);
  }

  lemma TouchThenRaise(s: Store, e: EnrichedOomEvent, i: nat)
    requires i < |MEMORY_TYPES|
    ensures RecordAt(RecordAt(s, e, TouchGauge(i)), e, RaiseGauge(i)) == Raised(s, e, i)
  {
  }

  function RaisedFrom(s: Store, e: EnrichedOomEvent, i: nat): Store
    requires i <= |MEMORY_TYPES|
    decreases |MEMORY_TYPES| - i
  {
    if i == |MEMORY_TYPES| then s else RaisedFrom(Raised(s, e, i), e, i + 1)
  }

  lemma {:induction false} RaisedFromIsPeaks(s: Store, e: EnrichedOomEvent, i: nat, m: map<MemoryKey, nat>)
    requires i <= |MEMORY_TYPES|
    requires s.memory == RaisePeaks(m, KeyOf(e).Name(), e.raw, MEMORY_TYPES[..i])
    ensures RaisedFrom(s, e, i) == s.(memory := RaisePeaks(m, KeyOf(e).Name(), e.raw, MEMORY_TYPES))
    decreases |MEMORY_TYPES| - i
  {
    if i == |MEMORY_TYPES| {
      assert MEMORY_TYPES[..i] == MEMORY_TYPES;
    } else {
      assert MEMORY_TYPES[..i + 1][..i] == MEMORY_TYPES[..i];
      RaisedFromIsPeaks(Raised(s, e, i), e, i + 1, m);
    }
  }

  lemma {:induction false} FinishGaugesFrom(s: Store, e: EnrichedOomEvent, i: nat)
    requires i < |MEMORY_TYPES|
    ensures FinishRecord(s, e, TouchGauge(i)) == FinishRecord(RaisedFrom(s, e, i), e, TouchTimestamp)
    decreases |MEMORY_TYPES| - i
  {
    FinishGauge(s, e, i);
    if i + 1 < |MEMORY_TYPES| {
      FinishGaugesFrom(Raised(s, e, i), e, i + 1);
    }
  }

  lemma FinishGauges(s: Store, e: EnrichedOomEvent)
    ensures FinishRecord(s, e, TouchGauge(0)) ==
            FinishRecord(s.(memory := RaisePeaks(s.memory, KeyOf(e).Name(), e.raw, MEMORY_TYPES)), e, TouchTimestamp)
  {
    FinishGaugesFrom(s, e, 0);
    RaisedFromIsPeaks(s, e, 0, s.memory);
  }

  lemma FinishStep(s: Store, e: EnrichedOomEvent, at: Point, next: Point)
    requires IsPoint(at) && NextPoint(e, at) == Recording(e, next)
    ensures FinishRecord(s, e, at) == FinishRecord(RecordAt(s, e, at), e, next)
  {
  }

  function Counted(s: Store, key: SeriesKey): Store {
    s.(kills := s.kills[key := Get(s.kills, key) + 1], perNode := s.perNode[key.node := Get(s.perNode, key.node) + 1])
  }

  lemma ThreeCounts(s: Store, e: EnrichedOomEvent)
    ensures RecordAt(RecordAt(RecordAt(s, e, TouchKills), e, IncrementKills), e, CountNode) == Counted(s, KeyOf(e))
  {
  }

  lemma FinishCounts(s: Store, e: EnrichedOomEvent)
    ensures FinishRecord(s, e, TouchKills) == FinishRecord(Counted(s, KeyOf(e)), e, TouchGauge(0))
  {
    var s1 := RecordAt(s, e, TouchKills);
    var s2 := RecordAt(s1, e, IncrementKills);
    FinishStep(s, e, TouchKills, IncrementKills);
    FinishStep(s1, e, IncrementKills, CountNode);
    FinishStep(s2, e, CountNode, TouchGauge(0));
    ThreeCounts(s, e);
  }

  lemma FinishStamps(s: Store, e: EnrichedOomEvent)
    ensures FinishRecord(s, e, TouchTimestamp) ==
            s.(lastTimestamp := s.lastTimestamp[KeyOf(e) := e.timestamp], lastSeen := s.lastSeen[KeyOf(e) := e.timestamp])
  {
    var s1 := RecordAt(s, e, TouchTimestamp);
    var s2 := RecordAt(s1, e, SetTimestamp);
    assert FinishRecord(s, e, TouchTimestamp) == FinishRecord(s1, e, SetTimestamp);
    assert FinishRecord(s1, e, SetTimestamp) == FinishRecord(s2, e, Stamp);
    assert FinishRecord(s2, e, Stamp) == RecordAt(s2, e, Stamp);
  }

  lemma FinishTail(s: Store, e: EnrichedOomEvent)
    ensures FinishRecord(s, e, TouchGauge(0)) ==
            s.(memory := RaisePeaks(s.memory, KeyOf(e).Name(), e.raw, MEMORY_TYPES),
               lastTimestamp := s.lastTimestamp[KeyOf(e) := e.timestamp], lastSeen := s.lastSeen[KeyOf(e) := e.timestamp])
  {
    FinishGauges(s, e);
    FinishStamps(s.(memory := RaisePeaks(s.memory, KeyOf(e).Name(), e.raw, MEMORY_TYPES)), e);
  }

  lemma CountedThenRest(s: Store, e: EnrichedOomEvent)
    ensures var c := Counted(s, KeyOf(e));
            c.(memory := RaisePeaks(c.memory, KeyOf(e).Name(), e.raw, MEMORY_TYPES),
               lastTimestamp := c.lastTimestamp[KeyOf(e) := e.timestamp], lastSeen := c.lastSeen[KeyOf(e) := e.timestamp]) ==
            AfterRecord(s, e)
  {
  }

  /** Uninterrupted, the points of a record add up to the one-step record. */
  lemma FinishWholeRecord(s: Store, e: EnrichedOomEvent)
    ensures FinishRecord(s, e, TouchKills) == AfterRecord(s, e)
  {
    FinishCounts(s, e);
    FinishTail(Counted(s, KeyOf(e)), e);
    CountedThenRest(s, e);
  }

  lemma RecordAtKeepsDeletions(s: Store, e: EnrichedOomEvent, at: Point, d: map<PodName, nat>)
    requires IsPoint(at)
    ensures RecordAt(s.(deletedAfter := d), e, at) == RecordAt(s, e, at).(deletedAfter := d)
  {
  }

  lemma {:induction false} FinishRecordKeepsDeletions(s: Store, e: EnrichedOomEvent, at: Point, d: map<PodName, nat>)
    requires IsPoint(at)
    ensures FinishRecord(s.(deletedAfter := d), e, at) == FinishRecord(s, e, at).(deletedAfter := d)
    decreases Rank(at)
  {
    RecordAtKeepsDeletions(s, e, at, d);
    match NextPoint(e, at)
    case Quiet =>
    case Recording(_, next) => FinishRecordKeepsDeletions(RecordAt(s, e, at), e, next, d);
  }

  // ----- running a sweep to its end -----

  function FinishRemoving(s: Store, todo: seq<SeriesKey>, phase: nat): Store
    requires phase <= COUNT
    decreases |todo|, COUNT - phase
  {
    if todo == [] then s
    else if phase == COUNT then FinishRemoving(RemoveAt(s, todo[0], phase), todo[1..], 0)
    else FinishRemoving(RemoveAt(s, todo[0], phase), todo, phase + 1)
  }

  function RemoveWhole(s: Store, key: SeriesKey): Store {
    s.(kills := s.kills - {key},
       lastTimestamp := s.lastTimestamp - {key},
       memory := if Alone(s, key) then WithoutName(s.memory, key.Name()) else s.memory,
       evicted := s.evicted[key.node := Get(s.evicted, key.node) + 1])
  }

  function DropGauges(s: Store, key: SeriesKey): Store {
    s.(memory := s.memory - {MemoryKey(key.Name(), TotalVm)} - {MemoryKey(key.Name(), AnonRss)}
                          - {MemoryKey(key.Name(), FileRss)} - {MemoryKey(key.Name(), ShmemRss)})
  }

  lemma FourGaugesAreTheName(s: Store, key: SeriesKey)
    ensures DropGauges(s, key).memory == WithoutName(s.memory, key.Name())
  {
    forall mk: MemoryKey
      ensures mk.kind in MEMORY_TYPES
    {
      AllKinds(mk.kind);
    }
  }

  lemma FinishHeadGauges(s: Store, todo: seq<SeriesKey>)
    requires todo != []
    ensures FinishRemoving(s, todo, 2) ==
            FinishRemoving(if Alone(s, todo[0]) then DropGauges(s, todo[0]) else s, todo, COUNT)
  {
    var s3 := RemoveAt(s, todo[0], 2);
    var s4 := RemoveAt(s3, todo[0], 3);
    var s5 := RemoveAt(s4, todo[0], 4);
    assert FinishRemoving(s, todo, 2) == FinishRemoving(s3, todo, 3);
    assert FinishRemoving(s3, todo, 3) == FinishRemoving(s4, todo, 4);
    assert FinishRemoving(s4, todo, 4) == FinishRemoving(s5, todo, 5);
    assert FinishRemoving(s5, todo, 5) == FinishRemoving(RemoveAt(s5, todo[0], 5), todo, COUNT);
    assert Alone(s, todo[0]) == Alone(s3, todo[0]) == Alone(s4, todo[0]) == Alone(s5, todo[0]);
  }

  lemma FinishHeadFront(s: Store, todo: seq<SeriesKey>)
    requires todo != []
    ensures FinishRemoving(s, todo, 0) ==
            FinishRemoving(s.(kills := s.kills - {todo[0]}, lastTimestamp := s.lastTimestamp - {todo[0]}), todo, 2)
  {
    var s1 := RemoveAt(s, todo[0], 0);
    assert FinishRemoving(s, todo, 0) == FinishRemoving(s1, todo, 1);
    assert FinishRemoving(s1, todo, 1) == FinishRemoving(RemoveAt(s1, todo[0], 1), todo, 2);
  }

  lemma FinishHead(s: Store, todo: seq<SeriesKey>)
    requires todo != []
    ensures FinishRemoving(s, todo, 0) == FinishRemoving(RemoveWhole(s, todo[0]), todo[1..], 0)
  {
    var key := todo[0];
    var s2 := s.(kills := s.kills - {key}, lastTimestamp := s.lastTimestamp - {key});
    FinishHeadFront(s, todo);
    FinishHeadGauges(s2, todo);
    FourGaugesAreTheName(s2, key);
    assert Alone(s2, key) == Alone(s, key);
  }

  function RemoveSet(s: Store, removed: set<SeriesKey>): Store {
    s.(kills := s.kills - removed,
       lastTimestamp := s.lastTimestamp - removed,
       memory := WithoutOrphans(s.memory, s.lastSeen.Keys, removed),
       evicted := CountEvictions(s.evicted, removed))
  }

  lemma CountFirst(evicted: map<string, nat>, removed: set<SeriesKey>, node: string)
    ensures CountEvictions(evicted[node := Get(evicted, node) + 1], removed) ==
            CountEvictions(evicted, removed)[node := Get(CountEvictions(evicted, removed), node) + 1]
  {
    if node !in CountEvictions(evicted, removed) {
      NoneOnForeignNode(removed, node);
    }
  }

  lemma NameThenOrphans(memory: map<MemoryKey, nat>, name: ContainerName, survivors: set<SeriesKey>,
                        removed: set<SeriesKey>)
    ensures WithoutOrphans(WithoutName(memory, name), survivors, removed) ==
            WithoutName(WithoutOrphans(memory, survivors, removed), name)
  {
  }

  lemma RemoveOneThenMemory(s: Store, key: SeriesKey, removed: set<SeriesKey>)
    ensures WithoutOrphans(RemoveWhole(s, key).memory, s.lastSeen.Keys, removed) ==
            WithoutOrphans(s.memory, s.lastSeen.Keys, removed + {key})
  {
    OrphansOneMore(s.memory, s.lastSeen.Keys, removed, key);
    NameThenOrphans(s.memory, key.Name(), s.lastSeen.Keys, removed);
  }

  lemma RemoveOneThenCount(evicted: map<string, nat>, key: SeriesKey, removed: set<SeriesKey>)
    requires key !in removed
    ensures CountEvictions(evicted[key.node := Get(evicted, key.node) + 1], removed) ==
            CountEvictions(evicted, removed + {key})
  {
    CountOneMore(evicted, removed, key);
    CountFirst(evicted, removed, key.node);
  }

  lemma MinusOneMinusSet<V>(m: map<SeriesKey, V>, key: SeriesKey, removed: set<SeriesKey>)
    ensures m - {key} - removed == m - (removed + {key})
  {
  }

  lemma RemoveOneThenSet(s: Store, key: SeriesKey, removed: set<SeriesKey>)
    requires key !in removed
    ensures RemoveSet(RemoveWhole(s, key), removed) == RemoveSet(s, removed + {key})
  {
    var one := RemoveWhole(s, key);
    RemoveOneThenMemory(s, key, removed);
    RemoveOneThenCount(s.evicted, key, removed);
    SameRemoval(s, one, removed, removed + {key}, key);
  }

  /** Where the parts come to the same, so does the whole. */
  lemma SameRemoval(s: Store, one: Store, removed: set<SeriesKey>, all: set<SeriesKey>, key: SeriesKey)
    requires one.perNode == s.perNode && one.lastSeen == s.lastSeen && one.deletedAfter == s.deletedAfter
    requires one.kills == s.kills - {key} && one.lastTimestamp == s.lastTimestamp - {key} && all == removed + {key}
    requires WithoutOrphans(one.memory, s.lastSeen.Keys, removed) == WithoutOrphans(s.memory, s.lastSeen.Keys, all)
    requires CountEvictions(one.evicted, removed) == CountEvictions(s.evicted, all)
    ensures RemoveSet(one, removed) == RemoveSet(s, all)
  {
    MinusOneMinusSet(s.kills, key, removed);
    MinusOneMinusSet(s.lastTimestamp, key, removed);
  }

  lemma RemoveNothing(s: Store)
    ensures RemoveSet(s, {}) == s
  {
    CountNone(s.evicted);
    assert WithoutOrphans(s.memory, s.lastSeen.Keys, {}) == s.memory;
  }

  lemma HeadAndRest(todo: seq<SeriesKey>)
    requires Distinct(todo) && todo != []
    ensures Elements(todo) == Elements(todo[1..]) + {todo[0]}
    ensures todo[0] !in Elements(todo[1..]) && Distinct(todo[1..])
  {
    assert todo == [todo[0]] + todo[1..];
  }

  /** Whatever order the stale keys are listed in, removing them one by one comes to the same. */
  lemma {:induction false} FinishRemovingAll(s: Store, todo: seq<SeriesKey>)
    requires Distinct(todo)
    ensures FinishRemoving(s, todo, 0) == RemoveSet(s, Elements(todo))
    decreases |todo|
  {
    if todo == [] {
      assert Elements(todo) == {};
      RemoveNothing(s);
    } else {
      HeadAndRest(todo);
      FinishHead(s, todo);
      FinishRemovingAll(RemoveWhole(s, todo[0]), todo[1..]);
      RemoveOneThenSet(s, todo[0], Elements(todo[1..]));
    }
  }

  lemma RemoveAtKeepsDeletions(s: Store, key: SeriesKey, phase: nat, d: map<PodName, nat>)
    requires phase <= COUNT
    ensures RemoveAt(s.(deletedAfter := d), key, phase) == RemoveAt(s, key, phase).(deletedAfter := d)
  {
    assert Alone(s.(deletedAfter := d), key) == Alone(s, key);
    if 2 <= phase < COUNT {
      var gauge := MemoryKey(key.Name(), MEMORY_TYPES[phase - 2]);
      assert s.(deletedAfter := d).(memory := s.memory - {gauge}) == s.(memory := s.memory - {gauge}).(deletedAfter := d);
    }
  }

  lemma {:induction false} FinishRemovingKeepsDeletions(s: Store, todo: seq<SeriesKey>, phase: nat, d: map<PodName, nat>)
    requires phase <= COUNT
    ensures FinishRemoving(s.(deletedAfter := d), todo, phase) == FinishRemoving(s, todo, phase).(deletedAfter := d)
    decreases |todo|, COUNT - phase
  {
    if todo != [] {
      RemoveAtKeepsDeletions(s, todo[0], phase, d);
    }
    if todo == [] {
    } else if phase == COUNT {
      FinishRemovingKeepsDeletions(RemoveAt(s, todo[0], phase), todo[1..], 0, d);
    } else {
      FinishRemovingKeepsDeletions(RemoveAt(s, todo[0], phase), todo, phase + 1, d);
    }
  }

  function FinishDrained(s: Store, now: nat, ttl: nat, due: set<PodName>): Store {
    var stale := ScanKeys(s, now, ttl, due);
    RemoveSet(s.(lastSeen := s.lastSeen - stale), stale)
  }

  /** Draining and then finishing is the one-step sweep. */
  lemma FinishWholeSweep(s: Store, now: U64, ttl: U64)
    ensures var due := DueNow(s, now);
            FinishDrained(s.(deletedAfter := s.deletedAfter - due), now, ttl, due) == AfterSweep(s, now, ttl)
  {
    var due := DueNow(s, now);
    assert ScanKeys(s, now, ttl, due) == StaleKeys(s, now, ttl);
    assert (s.lastSeen - StaleKeys(s, now, ttl)).Keys == s.lastSeen.Keys - StaleKeys(s, now, ttl);
  }

  // ----- runs without overlap -----

  predicate EnabledAlone(s: State, a: Action) {
    && Enabled(s, a)
    && (a.BeginRecord? ==> s.sweeper.Resting?)
    && (a.BeginSweep? ==> s.recorder.Quiet?)
  }

  ghost predicate LeadsWithoutOverlap(acts: seq<Action>, s: State) {
    if acts == [] then s == INIT
    else exists p :: && LeadsWithoutOverlap(acts[..|acts| - 1], p) && WellFormed(p)
                     && EnabledAlone(p, acts[|acts| - 1]) && s == Do(p, acts[|acts| - 1])
  }

  /** The calls a run made, in the order they began. */
  function Calls(acts: seq<Action>): seq<Op> {
    if acts == [] then []
    else
      var before := Calls(acts[..|acts| - 1]);
      match acts[|acts| - 1]
      case BeginRecord(e) => before + [Record(e)]
      case Note(pod, now) => before + [NotePodDeleted(pod, now)]
      case BeginSweep(now, ttl) => before + [Sweep(now, ttl)]
      case _ => before
  }

  /** The store once whatever is in flight has finished undisturbed. */
  function Complete(s: State): Store
    requires WellFormed(s)
  {
    match s.recorder
    case Recording(e, at) => FinishRecord(s.store, e, at)
    case Quiet =>
      match s.sweeper
      case Resting => s.store
      case Drained(now, ttl, due) => FinishDrained(s.store, now, ttl, due)
      case Removing(todo, phase) => FinishRemoving(s.store, todo, phase)
  }

  predicate OneAtATime(s: State) {
    s.recorder.Quiet? || s.sweeper.Resting?
  }

  function Effect(s: Store, a: Action): Store {
    match a
    case BeginRecord(e) => AfterRecord(s, e)
    case Note(pod, now) => AfterNote(s, pod, now)
    case BeginSweep(now, ttl) => AfterSweep(s, now, ttl)
    case _ => s
  }

  lemma CompleteStep(s: State, a: Action)
    requires WellFormed(s) && OneAtATime(s) && EnabledAlone(s, a)
    ensures OneAtATime(Do(s, a))
    ensures Complete(Do(s, a)) == Effect(Complete(s), a)
  {
    match a
    case BeginRecord(e) => FinishWholeRecord(s.store, e);
    case RecordStep =>
    case Note(pod, now) => CompleteNote(s, pod, now);
    case BeginSweep(now, ttl) => FinishWholeSweep(s.store, now, ttl);
    case Scan(todo) => FinishRemovingAll(s.store.(lastSeen := s.store.lastSeen - Elements(todo)), todo);
    case SweepStep =>
      var Removing(todo, phase) := s.sweeper;
      assert Complete(s) == FinishRemoving(s.store, todo, phase);
      if phase == COUNT && todo[1..] == [] {
        assert FinishRemoving(RemoveAt(s.store, todo[0], phase), todo[1..], 0) == RemoveAt(s.store, todo[0], phase);
      }
  }

  lemma CompleteNote(s: State, pod: PodName, now: U64)
    requires WellFormed(s) && OneAtATime(s)
    ensures Complete(Do(s, Note(pod, now))) == AfterNote(Complete(s), pod, now)
  {
    var d := s.store.deletedAfter[pod := DueTime(now)];
    match s.recorder
    case Recording(e, at) =>
      FinishRecordKeepsDeletions(s.store, e, at, d);
      FinishRecordKeepsDeletions(s.store, e, at, s.store.deletedAfter);
      assert s.store == s.store.(deletedAfter := s.store.deletedAfter);
    case Quiet =>
      if s.sweeper.Removing? {
        FinishRemovingKeepsDeletions(s.store, s.sweeper.todo, s.sweeper.phase, d);
        FinishRemovingKeepsDeletions(s.store, s.sweeper.todo, s.sweeper.phase, s.store.deletedAfter);
        assert s.store == s.store.(deletedAfter := s.store.deletedAfter);
      }
  }

  /** Without overlap, the step-by-step run is the history of whole calls, at every point. */
  lemma {:induction false} SerialRunsRefine(acts: seq<Action>, s: State)
    requires LeadsWithoutOverlap(acts, s)
    ensures WellFormed(s) && OneAtATime(s)
    ensures Complete(s) == Replay(Calls(acts))
  {
    if acts != [] {
      var p, a := acts[..|acts| - 1], acts[|acts| - 1];
      var before :| LeadsWithoutOverlap(p, before) && WellFormed(before) && EnabledAlone(before, a) && s == Do(before, a);
      SerialRunsRefine(p, before);
      CompleteStep(before, a);
      match a
      case BeginRecord(e) => ReplayStep(Calls(p), Record(e));
      case Note(pod, now) => ReplayStep(Calls(p), NotePodDeleted(pod, now));
      case BeginSweep(now, ttl) => ReplayStep(Calls(p), Sweep(now, ttl));
      case _ =>
    }
  }

  /** So then a tracked key has all its series, and nothing else has any. */
  lemma SerialKeysHaveTheirSeries(acts: seq<Action>, s: State)
    requires LeadsWithoutOverlap(acts, s) && s.recorder.Quiet? && s.sweeper.Resting?
    ensures StoreSafety.Owned(s.store)
  {
    SerialRunsRefine(acts, s);
    StoreSafety.GaugesOwned(Calls(acts));
  }

  // ----- what overlap can do -----

  lemma {:induction false} RecordToEnd(acts: seq<Action>, s: State) returns (acts': seq<Action>, s': State)
    requires Leads(acts, s) && WellFormed(s) && s.recorder.Recording? && !s.sweeper.Removing?
    ensures Leads(acts', s')
    ensures s' == State(FinishRecord(s.store, s.recorder.event, s.recorder.at), Quiet, s.sweeper)
    decreases Rank(s.recorder.at)
  {
    Extend(acts, s, RecordStep);
    acts', s' := acts + [RecordStep], Do(s, RecordStep);
    if s'.recorder.Recording? {
      acts', s' := RecordToEnd(acts', s');
    }
  }

  /** One step on, what is left to remove comes to the same. */
  lemma SweepStepGoesOn(s: State)
    requires WellFormed(s) && s.sweeper.Removing?
    ensures var s', Removing(todo, phase) := Do(s, SweepStep), s.sweeper;
            FinishRemoving(s.store, todo, phase) ==
            if s'.sweeper.Removing? then FinishRemoving(s'.store, s'.sweeper.todo, s'.sweeper.phase) else s'.store
  {
  }

  lemma {:induction false} SweepToEnd(acts: seq<Action>, s: State) returns (acts': seq<Action>, s': State)
    requires Leads(acts, s) && WellFormed(s) && s.sweeper.Removing?
    ensures acts <= acts' && Leads(acts', s')
    ensures s' == State(FinishRemoving(s.store, s.sweeper.todo, s.sweeper.phase), s.recorder, Resting)
    decreases |s.sweeper.todo|, COUNT - s.sweeper.phase
  {
    Extend(acts, s, SweepStep);
    SweepStepGoesOn(s);
    acts', s' := acts + [SweepStep], Do(s, SweepStep);
    if s'.sweeper.Removing? {
      acts', s' := SweepToEnd(acts', s');
    }
  }

  /** A record goes on until all that is left of it is the stamp. */
  lemma {:induction false} RecordToStamp(acts: seq<Action>, s: State) returns (acts': seq<Action>, s': State)
    requires Leads(acts, s) && WellFormed(s) && s.recorder.Recording? && !s.sweeper.Removing?
    requires s.recorder.at.TouchKills? || KeyOf(s.recorder.event) in s.store.kills
    ensures acts <= acts' && Leads(acts', s') && WellFormed(s')
    ensures s'.recorder == Recording(s.recorder.event, Stamp) && s'.sweeper == s.sweeper
    ensures s'.store.lastSeen == s.store.lastSeen && s'.store.deletedAfter == s.store.deletedAfter
    ensures KeyOf(s.recorder.event) in s'.store.kills
    decreases Rank(s.recorder.at)
  {
    if s.recorder.at.Stamp? {
      return acts, s;
    }
    Extend(acts, s, RecordStep);
    acts', s' := acts + [RecordStep], Do(s, RecordStep);
    acts', s' := RecordToStamp(acts', s');
  }

  /** Every set of keys can be listed. */
  lemma Listing(keys: set<SeriesKey>) returns (todo: seq<SeriesKey>)
    ensures Distinct(todo) && Elements(todo) == keys
    decreases |keys|
  {
    if keys == {} {
      todo := [];
    } else {
      var key :| key in keys;
      var rest := Listing(keys - {key});
      todo := [key] + rest;
      assert Elements(todo) == Elements(rest) + {key};
    }
  }

  /** The state of a sweep that has drained its due pods beside a record all but stamped. */
  ghost predicate AllButStamped(s: State, e: EnrichedOomEvent, before: Store, now: U64, ttl: U64) {
    && s.recorder == Recording(e, Stamp) && s.sweeper == Drained(now, ttl, DueNow(before, now))
    && s.store.lastSeen == before.lastSeen && KeyOf(e) in s.store.kills
  }

  lemma DrainThenRecord(acts: seq<Action>, s: State, e: EnrichedOomEvent, now: U64, ttl: U64)
      returns (acts': seq<Action>, s': State)
    requires Leads(acts, s) && s.recorder.Quiet? && s.sweeper.Resting?
    ensures acts <= acts' && Leads(acts', s') && WellFormed(s') && AllButStamped(s', e, s.store, now, ttl)
  {
    Extend(acts, s, BeginSweep(now, ttl));
    acts', s' := acts + [BeginSweep(now, ttl)], Do(s, BeginSweep(now, ttl));
    Extend(acts', s', BeginRecord(e));
    acts', s' := acts' + [BeginRecord(e)], Do(s', BeginRecord(e));
    acts', s' := RecordToStamp(acts', s');
  }

  /** The sweep then scans and removes everything it found stale. */
  lemma ScanThenRemove(acts: seq<Action>, s: State, e: EnrichedOomEvent, before: Store, now: U64, ttl: U64)
      returns (acts': seq<Action>, s': State)
    requires Leads(acts, s) && WellFormed(s) && AllButStamped(s, e, before, now, ttl)
    ensures acts <= acts' && Leads(acts', s') && WellFormed(s')
    ensures s'.recorder == s.recorder && s'.sweeper.Resting?
    ensures var stale := StaleKeys(before, now, ttl);
            s'.store == RemoveSet(s.store.(lastSeen := s.store.lastSeen - stale), stale)
  {
    var stale := StaleKeys(before, now, ttl);
    assert ScanKeys(s.store, now, ttl, DueNow(before, now)) == stale;
    var todo := Listing(stale);
    Extend(acts, s, Scan(todo));
    acts', s' := acts + [Scan(todo)], Do(s, Scan(todo));
    FinishRemovingAll(s'.store, todo);
    if todo != [] {
      acts', s' := SweepToEnd(acts', s');
    }
  }

  /** From any reachable rest, for any event and any sweep, a run in which the record is all but
      stamped when the sweep scans. At rest again the record's label set is tracked; its kill and
      timestamp series are gone if its label set was stale, and its container's gauges are gone if
      the sweep found a restart of the container stale and none that was not. */
  lemma OverlapRemoves(acts: seq<Action>, s: State, e: EnrichedOomEvent, now: U64, ttl: U64)
      returns (acts': seq<Action>, s': State)
    requires Leads(acts, s) && s.recorder.Quiet? && s.sweeper.Resting?
    ensures acts <= acts' && Leads(acts', s') && s'.recorder.Quiet? && s'.sweeper.Resting?
    ensures KeyOf(e) in s'.store.lastSeen
    ensures var stale := StaleKeys(s.store, now, ttl);
            && (KeyOf(e) in s'.store.kills <==> KeyOf(e) !in stale)
            && (KeyOf(e) in stale ==> KeyOf(e) !in s'.store.lastTimestamp)
            && (Orphaned(s.store.lastSeen.Keys - stale, stale, KeyOf(e).Name()) ==>
                  forall mk :: mk in s'.store.memory ==> mk.name != KeyOf(e).Name())
  {
    var stale := StaleKeys(s.store, now, ttl);
    acts', s' := DrainThenRecord(acts, s, e, now, ttl);
    acts', s' := ScanThenRemove(acts', s', e, s.store, now, ttl);
    assert (s.store.lastSeen - stale).Keys == s.store.lastSeen.Keys - stale;
    Extend(acts', s', RecordStep);
    acts', s' := acts' + [RecordStep], Do(s', RecordStep);
  }

  /** The overlap the lock does not close. Whatever led to rest, and whatever the TTL: a key that
      a sweep finds stale can have its next kill overtaken. It ends tracked with no kill series
      behind it, the new kill and all earlier ones gone from it. */
  lemma OverlapCanLoseAnIncrement(acts: seq<Action>, s: State, e: EnrichedOomEvent, now: U64, ttl: U64)
      returns (acts': seq<Action>, s': State)
    requires Leads(acts, s) && s.recorder.Quiet? && s.sweeper.Resting?
    requires KeyOf(e) in s.store.lastSeen && IsStale(s.store, KeyOf(e), now, ttl)
    ensures acts <= acts' && Leads(acts', s') && s'.recorder.Quiet? && s'.sweeper.Resting?
    ensures KeyOf(e) in s'.store.lastSeen && KeyOf(e) !in s'.store.kills && KeyOf(e) !in s'.store.lastTimestamp
  {
    acts', s' := OverlapRemoves(acts, s, e, now, ttl);
  }

  /** A stale restart can take a live sibling's gauges: the sweep judges it alone while the first
      kill of another restart of the container is recorded and not yet stamped. The sibling ends
      tracked, with its kill series, and with none of the gauges of the container. */
  lemma SiblingCanLoseItsGauges(acts: seq<Action>, s: State, stale: SeriesKey, e: EnrichedOomEvent, now: U64, ttl: U64)
      returns (acts': seq<Action>, s': State)
    requires Leads(acts, s) && s.recorder.Quiet? && s.sweeper.Resting?
    requires stale in s.store.lastSeen && stale.Name() == KeyOf(e).Name() && KeyOf(e) !in s.store.lastSeen
    requires forall key :: key in s.store.lastSeen && key.Name() == stale.Name() ==> IsStale(s.store, key, now, ttl)
    ensures acts <= acts' && Leads(acts', s') && s'.recorder.Quiet? && s'.sweeper.Resting?
    ensures KeyOf(e) in s'.store.lastSeen && KeyOf(e) in s'.store.kills
    ensures forall mk :: mk in s'.store.memory ==> mk.name != KeyOf(e).Name()
  {
    acts', s' := OverlapRemoves(acts, s, e, now, ttl);
    assert stale in StaleKeys(s.store, now, ttl);
  }

  /** Both can be set up for any two events of one container and any TTL the clock has room for:
      record the first, and sweep once it has aged out while the second is being recorded. */
  lemma AnyTwoKillsCanOverlap(e: EnrichedOomEvent, f: EnrichedOomEvent, ttl: U64)
      returns (acts: seq<Action>, s: State)
    requires KeyOf(e).Name() == KeyOf(f).Name() && e.timestamp + ttl <= U64_MAX
    ensures Leads(acts, s) && s.recorder.Quiet? && s.sweeper.Resting?
    ensures KeyOf(f) in s.store.lastSeen
    ensures KeyOf(f) == KeyOf(e) ==> KeyOf(f) !in s.store.kills
    ensures KeyOf(f) != KeyOf(e) ==> KeyOf(f) in s.store.kills
    ensures forall mk :: mk in s.store.memory ==> mk.name != KeyOf(f).Name()
  {
    acts, s := OneKill(e);
    assert s.store.lastSeen == map[KeyOf(e) := e.timestamp];
    assert IsStale(s.store, KeyOf(e), e.timestamp + ttl, ttl);
    if KeyOf(f) != KeyOf(e) {
      acts, s := SiblingCanLoseItsGauges(acts, s, KeyOf(e), f, e.timestamp + ttl, ttl);
    } else {
      assert Orphaned(s.store.lastSeen.Keys - StaleKeys(s.store, e.timestamp + ttl, ttl),
                      StaleKeys(s.store, e.timestamp + ttl, ttl), KeyOf(f).Name());
      acts, s := OverlapRemoves(acts, s, f, e.timestamp + ttl, ttl);
    }
  }

  lemma OneKill(e: EnrichedOomEvent) returns (acts: seq<Action>, s: State)
    ensures Leads(acts, s) && s == State(AfterRecord(EMPTY, e), Quiet, Resting)
  {
    assert Leads([], INIT);
    Extend([], INIT, BeginRecord(e));
    acts, s := RecordToEnd([] + [BeginRecord(e)], Do(INIT, BeginRecord(e)));
    FinishWholeRecord(EMPTY, e);
  }
}
