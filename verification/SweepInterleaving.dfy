/** The recorder, the sweeper and the pod watch as three tasks that interleave between any two
    touches of shared state. Recording updates the series first and takes the `last_seen` lock
    only at its end; the sweep holds that lock from its scan to its last removal. */
module SweepInterleaving {
  import opened Common
  import opened SeriesStore
  import StoreHistory
  import StoreSafety

  // ----- program points -----

  /** The points of one `record_oom_event`, each named by what it does next: get or create a
      series and keep its handle, or write through the handle; at the end, lock and stamp. */
  datatype Point =
    | TouchKills
    | IncrementKills
    | CountNode
    | TouchGauge(i: nat)
    | RaiseGauge(i: nat)
    | TouchTimestamp
    | SetTimestamp
    | Stamp

  predicate IsPoint(at: Point) {
    match at
    case TouchGauge(i) => i < |MEMORY_TYPES|
    case RaiseGauge(i) => i < |MEMORY_TYPES|
    case _ => true
  }

  datatype Recorder =
    | Quiet
    | Recording(event: EnrichedOomEvent, at: Point)

  function NextPoint(e: EnrichedOomEvent, at: Point): Recorder {
    match at
    case TouchKills => Recording(e, IncrementKills)
    case IncrementKills => Recording(e, CountNode)
    case CountNode => Recording(e, TouchGauge(0))
    case TouchGauge(i) => Recording(e, RaiseGauge(i))
    case RaiseGauge(i) => Recording(e, if i + 1 < |MEMORY_TYPES| then TouchGauge(i + 1) else TouchTimestamp)
    case TouchTimestamp => Recording(e, SetTimestamp)
    case SetTimestamp => Recording(e, Stamp)
    case Stamp => Quiet
  }

  /** The points of one `evict_stale`: the due pods are drained; or the lock is held and the
      head of `todo` is being removed, phase 0 its kill series, 1 its timestamp, 2+i its gauge
      `i`, 6 counting the eviction. */
  datatype Sweeper =
    | Resting
    | Drained(now: U64, ttl: U64, due: set<PodName>)
    | Removing(todo: seq<SeriesKey>, phase: nat)

  const COUNT := 6

  datatype State = State(store: Store, recorder: Recorder, sweeper: Sweeper)

  const INIT := State(EMPTY, Quiet, Resting)

  datatype Action =
    | BeginRecord(event: EnrichedOomEvent)
    | RecordStep
    | Note(pod: PodName, now: U64)
    | BeginSweep(now: U64, ttl: U64)
    | Scan(todo: seq<SeriesKey>)
    | SweepStep

  // ----- the recorder's steps -----

  function Touch<K>(m: map<K, nat>, k: K): map<K, nat> {
    m[k := Get(m, k)]
  }

  /** A write through a handle: lost when the series was removed after the handle was taken.
      Only the recorder creates series, so a present series is the one the handle names. */
  function Write<K>(m: map<K, nat>, k: K, v: nat): map<K, nat> {
    if k in m then m[k := v] else m
  }

  function Gauge(e: EnrichedOomEvent, i: nat): MemoryKey
    requires i < |MEMORY_TYPES|
  {
    MemoryKey(KeyOf(e).Name(), MEMORY_TYPES[i])
  }

  function RecordAt(s: Store, e: EnrichedOomEvent, at: Point): Store
    requires IsPoint(at)
  {
    var key := KeyOf(e);
    match at
    case TouchKills => s.(kills := Touch(s.kills, key))
    case IncrementKills => s.(kills := Write(s.kills, key, Get(s.kills, key) + 1))
    case CountNode => s.(perNode := s.perNode[key.node := Get(s.perNode, key.node) + 1])
    case TouchGauge(i) => s.(memory := Touch(s.memory, Gauge(e, i)))
    case RaiseGauge(i) =>
      var gauge := Gauge(e, i);
      s.(memory := Write(s.memory, gauge, Max(Get(s.memory, gauge), 1024 * MemoryValue(e.raw, gauge.kind))))
    case TouchTimestamp => s.(lastTimestamp := Touch(s.lastTimestamp, key))
    case SetTimestamp => s.(lastTimestamp := Write(s.lastTimestamp, key, e.timestamp))
    case Stamp => s.(lastSeen := s.lastSeen[key := e.timestamp])
  }

  // ----- the sweeper's steps -----

  function DueNow(s: Store, now: nat): set<PodName> {
    set pod | pod in s.deletedAfter && PodDue(s.deletedAfter, pod, now)
  }

  function ScanKeys(s: Store, now: nat, ttl: nat, due: set<PodName>): set<SeriesKey> {
    set key | key in s.lastSeen && (SaturatingSub(now, s.lastSeen[key]) >= ttl || key.Pod() in due)
  }

  predicate AloneAmong(tracked: map<SeriesKey, nat>, key: SeriesKey) {
    !exists live :: live in tracked.Keys && live.SharesMemorySeriesWith(key)
  }

  predicate Alone(s: Store, key: SeriesKey) {
    AloneAmong(s.lastSeen, key)
  }

  function RemoveAt(s: Store, key: SeriesKey, phase: nat): Store
    requires phase <= COUNT
  {
    if phase == 0 then s.(kills := s.kills - {key})
    else if phase == 1 then s.(lastTimestamp := s.lastTimestamp - {key})
    else if phase < COUNT then
      if Alone(s, key) then s.(memory := s.memory - {MemoryKey(key.Name(), MEMORY_TYPES[phase - 2])}) else s
    else s.(evicted := s.evicted[key.node := Get(s.evicted, key.node) + 1])
  }

  // ----- the system -----

  predicate WellFormed(s: State) {
    && (s.recorder.Recording? ==> IsPoint(s.recorder.at))
    && (s.sweeper.Removing? ==> s.sweeper.todo != [] && s.sweeper.phase <= COUNT)
  }

  predicate Enabled(s: State, a: Action) {
    match a
    case BeginRecord(_) => s.recorder.Quiet?
    case RecordStep => s.recorder.Recording? && (s.recorder.at.Stamp? ==> !s.sweeper.Removing?)
    case Note(_, _) => true
    case BeginSweep(_, _) => s.sweeper.Resting?
    case Scan(todo) =>
      && s.sweeper.Drained?
      && Distinct(todo) && Elements(todo) == ScanKeys(s.store, s.sweeper.now, s.sweeper.ttl, s.sweeper.due)
    case SweepStep => s.sweeper.Removing?
  }

  function RemovingOrDone(todo: seq<SeriesKey>): Sweeper {
    if todo == [] then Resting else Removing(todo, 0)
  }

  function Do(s: State, a: Action): (s': State)
    requires WellFormed(s) && Enabled(s, a)
    ensures WellFormed(s')
  {
    match a
    case BeginRecord(e) => s.(recorder := Recording(e, TouchKills))
    case RecordStep =>
      var Recording(e, at) := s.recorder;
      s.(store := RecordAt(s.store, e, at), recorder := NextPoint(e, at))
    case Note(pod, now) => s.(store := AfterNote(s.store, pod, now))
    case BeginSweep(now, ttl) =>
      var due := DueNow(s.store, now);
      s.(store := s.store.(deletedAfter := s.store.deletedAfter - due), sweeper := Drained(now, ttl, due))
    case Scan(todo) =>
      s.(store := s.store.(lastSeen := s.store.lastSeen - Elements(todo)), sweeper := RemovingOrDone(todo))
    case SweepStep =>
      var Removing(todo, phase) := s.sweeper;
      s.(store := RemoveAt(s.store, todo[0], phase),
         sweeper := if phase == COUNT then RemovingOrDone(todo[1..]) else Removing(todo, phase + 1))
  }

  /** The actions can happen one after another from the start, leading to `s`. */
  ghost predicate Leads(acts: seq<Action>, s: State)
  {
    if acts == [] then s == INIT
    else exists p :: Leads(acts[..|acts| - 1], p) && WellFormed(p) && Enabled(p, acts[|acts| - 1]) && s == Do(p, acts[|acts| - 1])
  }

  lemma Extend(acts: seq<Action>, s: State, a: Action)
    requires Leads(acts, s) && WellFormed(s) && Enabled(s, a)
    ensures Leads(acts + [a], Do(s, a))
  {
    assert (acts + [a])[..|acts|] == acts;
  }

  // ----- no series is ever leaked -----

  predicate InFlight(s: State, key: SeriesKey) {
    s.recorder.Recording? && KeyOf(s.recorder.event) == key
  }

  predicate InFlightName(s: State, name: ContainerName) {
    s.recorder.Recording? && KeyOf(s.recorder.event).Name() == name
  }

  /** The running sweep still has to reach phase `phase` of `key`. */
  predicate StillToRemove(s: State, key: SeriesKey, phase: nat) {
    s.sweeper.Removing? && key in s.sweeper.todo && (key == s.sweeper.todo[0] ==> s.sweeper.phase <= phase)
  }

  function KindIndex(kind: MemoryType): (i: nat)
    ensures i < |MEMORY_TYPES| && MEMORY_TYPES[i] == kind
  {
    match kind
    case TotalVm => 0
    case AnonRss => 1
    case FileRss => 2
    case ShmemRss => 3
  }

  ghost predicate NameStillToRemove(s: State, mk: MemoryKey) {
    exists key :: StillToRemove(s, key, 2 + KindIndex(mk.kind)) && key.Name() == mk.name
  }

  ghost predicate GaugeHeld(s: State, mk: MemoryKey) {
    || StoreSafety.NamedBy(s.store.lastSeen.Keys, mk.name)
    || InFlightName(s, mk.name)
    || NameStillToRemove(s, mk)
  }

  ghost predicate NoLeak(s: State) {
    && (forall key :: key in s.store.kills ==>
          key in s.store.lastSeen || InFlight(s, key) || StillToRemove(s, key, 0))
    && (forall key :: key in s.store.lastTimestamp ==>
          key in s.store.lastSeen || InFlight(s, key) || StillToRemove(s, key, 1))
    && (forall mk :: mk in s.store.memory ==> GaugeHeld(s, mk))
    && (s.sweeper.Removing? ==> Distinct(s.sweeper.todo))
  }

  /** A step of recording creates series of its own label set only, and tracks only that. */
  lemma RecordTouchesItsOwn(s: Store, e: EnrichedOomEvent, at: Point)
    requires IsPoint(at)
    ensures var s' := RecordAt(s, e, at);
            && (forall key :: key in s'.kills ==> key in s.kills || key == KeyOf(e))
            && (forall key :: key in s'.lastTimestamp ==> key in s.lastTimestamp || key == KeyOf(e))
            && (forall mk :: mk in s'.memory ==> mk in s.memory || mk.name == KeyOf(e).Name())
            && s'.lastSeen.Keys == s.lastSeen.Keys + (if at.Stamp? then {KeyOf(e)} else {})
  {
  }

  lemma NoLeakRecordStep(s: State)
    requires WellFormed(s) && NoLeak(s) && Enabled(s, RecordStep)
    ensures NoLeak(Do(s, RecordStep))
  {
    var s' := Do(s, RecordStep);
    var Recording(e, at) := s.recorder;
    RecordTouchesItsOwn(s.store, e, at);
    forall key, phase | StillToRemove(s, key, phase)
      ensures StillToRemove(s', key, phase)
    {
    }
    forall mk | mk in s'.store.memory
      ensures GaugeHeld(s', mk)
    {
      if mk.name == KeyOf(e).Name() {
        assert at.Stamp? ==> KeyOf(e) in s'.store.lastSeen.Keys;
      } else if StoreSafety.NamedBy(s.store.lastSeen.Keys, mk.name) {
        StoreSafety.NamedByGrows(s.store.lastSeen.Keys, KeyOf(e), mk.name);
      } else {
        var key :| StillToRemove(s, key, 2 + KindIndex(mk.kind)) && key.Name() == mk.name;
        assert StillToRemove(s', key, 2 + KindIndex(mk.kind));
      }
    }
  }

  lemma NoLeakScan(s: State, todo: seq<SeriesKey>)
    requires WellFormed(s) && NoLeak(s) && Enabled(s, Scan(todo))
    ensures NoLeak(Do(s, Scan(todo)))
  {
    var s' := Do(s, Scan(todo));
    forall key | key in s.store.lastSeen && key !in s'.store.lastSeen
      ensures forall phase: nat :: StillToRemove(s', key, phase)
    {
      assert key in Elements(todo);
    }
    forall mk | mk in s'.store.memory
      ensures GaugeHeld(s', mk)
    {
      if StoreSafety.NamedBy(s.store.lastSeen.Keys, mk.name) {
        var key :| key in s.store.lastSeen.Keys && key.Name() == mk.name;
        if key !in s'.store.lastSeen {
          assert StillToRemove(s', key, 2 + KindIndex(mk.kind));
        }
      }
    }
  }

  /** What is still to remove before a step of the sweep and not after it, that step removed. */
  lemma NoLeakSweepStep(s: State)
    requires WellFormed(s) && NoLeak(s) && Enabled(s, SweepStep)
    ensures NoLeak(Do(s, SweepStep))
  {
    var s' := Do(s, SweepStep);
    var Removing(todo, phase) := s.sweeper;
    assert todo == [todo[0]] + todo[1..];
    forall key, p: nat | StillToRemove(s, key, p) && !(key == todo[0] && phase == p) && p < COUNT
      ensures StillToRemove(s', key, p)
    {
    }
    forall mk | mk in s'.store.memory
      ensures GaugeHeld(s', mk)
    {
      var p := 2 + KindIndex(mk.kind);
      if NameStillToRemove(s, mk) {
        var key :| StillToRemove(s, key, p) && key.Name() == mk.name;
        if key == todo[0] && phase == p {
          assert !Alone(s.store, key);
          var live :| live in s.store.lastSeen.Keys && live.SharesMemorySeriesWith(key);
          SharesIffSameName(live, key);
        } else {
          assert StillToRemove(s', key, p);
        }
      }
    }
  }

  lemma NoLeakStep(s: State, a: Action)
    requires WellFormed(s) && NoLeak(s) && Enabled(s, a)
    ensures NoLeak(Do(s, a))
  {
    match a
    case RecordStep => NoLeakRecordStep(s);
    case Scan(todo) => NoLeakScan(s, todo);
    case SweepStep => NoLeakSweepStep(s);
    case _ =>
      var s' := Do(s, a);
      forall mk | mk in s'.store.memory
        ensures GaugeHeld(s', mk)
      {
      }
  }

  /** In every interleaving, every per-container series is tracked, or belongs to the record in
      flight, or is still on the running sweep's list. */
  lemma {:induction false} NoSeriesLeaks(acts: seq<Action>, s: State)
    requires Leads(acts, s)
    ensures WellFormed(s) && NoLeak(s)
  {
    if acts != [] {
      var p, a := acts[..|acts| - 1], acts[|acts| - 1];
      var before :| Leads(p, before) && WellFormed(before) && Enabled(before, a) && s == Do(before, a);
      NoSeriesLeaks(p, before);
      NoLeakStep(before, a);
    }
  }

  /** So with nothing in flight every series is evictable: a sweep that finds every tracked key
      stale leaves no per-container series at all, whatever interleavings led there. */
  lemma QuiescentIsEvictable(acts: seq<Action>, s: State, now: nat, ttl: nat)
    requires Leads(acts, s) && s.recorder.Quiet? && s.sweeper.Resting?
    ensures s.store.kills.Keys <= s.store.lastSeen.Keys
    ensures s.store.lastTimestamp.Keys <= s.store.lastSeen.Keys
    ensures forall mk :: mk in s.store.memory ==> StoreSafety.NamedBy(s.store.lastSeen.Keys, mk.name)
    ensures StaleKeys(s.store, now, ttl) == s.store.lastSeen.Keys ==>
              var s' := AfterSweep(s.store, now, ttl);
              s'.kills == map[] && s'.lastTimestamp == map[] && s'.memory == map[] && s'.lastSeen == map[]
  {
    NoSeriesLeaks(acts, s);
    if StaleKeys(s.store, now, ttl) == s.store.lastSeen.Keys {
      var stale := StaleKeys(s.store, now, ttl);
      forall mk | mk in s.store.memory
        ensures Orphaned(s.store.lastSeen.Keys - stale, stale, mk.name)
      {
      }
      assert WithoutOrphans(s.store.memory, s.store.lastSeen.Keys - stale, stale) == map[];
    }
  }
}
