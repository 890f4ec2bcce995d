/** The keyed state of the metrics collector and what each operation does to it, stated on
    values. `MetricsCollector` is proved to do exactly this in place. */
module SeriesStore {
  import opened Common

  datatype MemoryType = TotalVm | AnonRss | FileRss | ShmemRss

  /** Every kind of memory figure; recording and eviction both go through this list. */
  const MEMORY_TYPES: seq<MemoryType> := [TotalVm, AnonRss, FileRss, ShmemRss]

  /** One figure per entry of `MEMORY_TYPES`, position by position; kilobytes. */
  function MemoryValues(raw: OomKillEvent): seq<nat> {
    [raw.totalVm, raw.anonRss, raw.fileRss, raw.shmemRss]
  }

  /** The figure of one kind, named rather than positional. */
  function MemoryValue(raw: OomKillEvent, kind: MemoryType): nat {
    match kind
    case TotalVm => raw.totalVm
    case AnonRss => raw.anonRss
    case FileRss => raw.fileRss
    case ShmemRss => raw.shmemRss
  }

  const DELETED_POD_GRACE_SECONDS: U64 := 120

  /** The four labels a memory series carries beside its kind. Every restart of a container
      shares them. */
  datatype ContainerName = ContainerName(node: string, namespace: string, pod: string, container: string)

  datatype MemoryKey = MemoryKey(name: ContainerName, kind: MemoryType)

  datatype PodName = PodName(namespace: string, pod: string)

  /** The label set of one killed container instance. */
  datatype SeriesKey = SeriesKey(
    node: string, namespace: string, pod: string, container: string,
    containerId: string, imageId: string)
  {
    function Name(): ContainerName {
      ContainerName(node, namespace, pod, container)
    }

    function Pod(): PodName {
      PodName(namespace, pod)
    }

    predicate SharesMemorySeriesWith(other: SeriesKey) {
      && node == other.node
      && namespace == other.namespace
      && pod == other.pod
      && container == other.container
    }
  }

  function KeyOf(e: EnrichedOomEvent): SeriesKey {
    SeriesKey(e.nodeName.GetOr("unknown"), e.namespace.GetOr("unknown"), e.podName.GetOr("unknown"),
              e.containerName.GetOr("unknown"), e.containerId.GetOr("unknown"), e.imageId.GetOr("unknown"))
  }

  datatype Store = Store(
    kills: map<SeriesKey, nat>,
    perNode: map<string, nat>,
    memory: map<MemoryKey, nat>,
    lastTimestamp: map<SeriesKey, nat>,
    evicted: map<string, nat>,
    lastSeen: map<SeriesKey, nat>,
    deletedAfter: map<PodName, nat>)

  const EMPTY := Store(map[], map[], map[], map[], map[], map[], map[])

  /** One call into the collector. */
  datatype Op =
    | Record(event: EnrichedOomEvent)
    | NotePodDeleted(pod: PodName, now: U64)
    | Sweep(now: U64, ttl: U64)

  function Apply(s: Store, op: Op): Store {
    match op
    case Record(e) => AfterRecord(s, e)
    case NotePodDeleted(pod, now) => AfterNote(s, pod, now)
    case Sweep(now, ttl) => AfterSweep(s, now, ttl)
  }

  /** The state after a whole history of calls. */
  function Replay(h: seq<Op>): Store {
    if h == [] then EMPTY else Apply(Replay(h[..|h| - 1]), h[|h| - 1])
  }

  // ----- recording -----

  /** Each listed kind's gauge keeps the larger of what it held and this event's bytes. */
  function RaisePeaks(memory: map<MemoryKey, nat>, name: ContainerName, raw: OomKillEvent,
                      kinds: seq<MemoryType>): map<MemoryKey, nat>
  {
    if kinds == [] then memory
    else
      var kind := kinds[|kinds| - 1];
      var before := RaisePeaks(memory, name, raw, kinds[..|kinds| - 1]);
      before[MemoryKey(name, kind) := Max(Get(before, MemoryKey(name, kind)), 1024 * MemoryValue(raw, kind))]
  }

  function AfterRecord(s: Store, e: EnrichedOomEvent): Store {
    var key := KeyOf(e);
    s.(kills := s.kills[key := Get(s.kills, key) + 1],
       perNode := s.perNode[key.node := Get(s.perNode, key.node) + 1],
       memory := RaisePeaks(s.memory, key.Name(), e.raw, MEMORY_TYPES),
       lastTimestamp := s.lastTimestamp[key := e.timestamp],
       lastSeen := s.lastSeen[key := e.timestamp])
  }

  // ----- scheduling a deletion -----

  function DueTime(now: U64): U64 {
    SaturatingAdd(now, DELETED_POD_GRACE_SECONDS)
  }

  function AfterNote(s: Store, pod: PodName, now: U64): Store {
    s.(deletedAfter := s.deletedAfter[pod := DueTime(now)])
  }

  // ----- sweeping -----

  predicate PodDue(deletedAfter: map<PodName, nat>, pod: PodName, now: nat) {
    pod in deletedAfter && deletedAfter[pod] <= now
  }

  predicate IsStale(s: Store, key: SeriesKey, now: nat, ttl: nat)
    requires key in s.lastSeen
  {
    SaturatingSub(now, s.lastSeen[key]) >= ttl || PodDue(s.deletedAfter, key.Pod(), now)
  }

  /** What one sweep removes: a set, so no scan order can matter to it. */
  function StaleKeys(s: Store, now: nat, ttl: nat): set<SeriesKey> {
    set key | key in s.lastSeen && IsStale(s, key, now, ttl)
  }

  /** No surviving key names this container, and one of the removed keys did. */
  predicate Orphaned(survivors: set<SeriesKey>, removed: set<SeriesKey>, name: ContainerName) {
    && (exists key :: key in removed && key.Name() == name)
    && (forall key :: key in survivors ==> key.Name() != name)
  }

  function WithoutOrphans(memory: map<MemoryKey, nat>, survivors: set<SeriesKey>,
                          removed: set<SeriesKey>): map<MemoryKey, nat>
  {
    map mk | mk in memory && !Orphaned(survivors, removed, mk.name) :: memory[mk]
  }

  function OnNode(keys: set<SeriesKey>, node: string): set<SeriesKey> {
    set key | key in keys && key.node == node
  }

  function NodesOf(keys: set<SeriesKey>): set<string> {
    set key | key in keys :: key.node
  }

  function CountEvictions(evicted: map<string, nat>, removed: set<SeriesKey>): map<string, nat> {
    map node | node in evicted.Keys + NodesOf(removed) :: Get(evicted, node) + |OnNode(removed, node)|
  }

  function AfterSweep(s: Store, now: nat, ttl: nat): Store {
    var stale := StaleKeys(s, now, ttl);
    var survivors := s.lastSeen.Keys - stale;
    Store(
      s.kills - stale,
      s.perNode,
      WithoutOrphans(s.memory, survivors, stale),
      s.lastTimestamp - stale,
      CountEvictions(s.evicted, stale),
      s.lastSeen - stale,
      map pod | pod in s.deletedAfter && now < s.deletedAfter[pod] :: s.deletedAfter[pod])
  }

  // ----- small facts used by every client -----

  lemma ReplayStep(h: seq<Op>, op: Op)
    ensures Replay(h + [op]) == Apply(Replay(h), op)
  {
    assert (h + [op])[..|h|] == h;
  }

  /** The pairwise field comparison is exactly equality of the shared four labels. */
  lemma SharesIffSameName(a: SeriesKey, b: SeriesKey)
    ensures a.SharesMemorySeriesWith(b) <==> a.Name() == b.Name()
  {
  }

  /** The two parallel lists agree: position i of the figures is the kind at position i. */
  lemma MemoryValuesMatchTypes(raw: OomKillEvent, i: nat)
    requires i < |MEMORY_TYPES|
    ensures |MemoryValues(raw)| == |MEMORY_TYPES|
    ensures MemoryValues(raw)[i] == MemoryValue(raw, MEMORY_TYPES[i])
  {
  }

  /** Which gauges a record touches and what each then holds, one key at a time. */
  lemma {:induction false} RaisedAt(memory: map<MemoryKey, nat>, name: ContainerName, raw: OomKillEvent,
                                    kinds: seq<MemoryType>, mk: MemoryKey)
    ensures var after := RaisePeaks(memory, name, raw, kinds);
            var touched := mk.name == name && mk.kind in kinds;
            && (mk in after <==> touched || mk in memory)
            && (touched ==> after[mk] == Max(Get(memory, mk), 1024 * MemoryValue(raw, mk.kind)))
            && (!touched && mk in memory ==> after[mk] == memory[mk])
  {
    if kinds != [] {
      var rest := kinds[..|kinds| - 1];
      assert kinds == rest + [kinds[|kinds| - 1]];
      RaisedAt(memory, name, raw, rest, mk);
    }
  }

  lemma AllKinds(kind: MemoryType)
    ensures kind in MEMORY_TYPES
  {
    assert kind == MEMORY_TYPES[0] || kind == MEMORY_TYPES[1] || kind == MEMORY_TYPES[2] || kind == MEMORY_TYPES[3];
  }

  lemma OnNodeGrows(keys: set<SeriesKey>, key: SeriesKey, node: string)
    requires key !in keys
    ensures |OnNode(keys + {key}, node)| == |OnNode(keys, node)| + (if key.node == node then 1 else 0)
  {
    if key.node == node {
      assert OnNode(keys + {key}, node) == OnNode(keys, node) + {key};
    } else {
      assert OnNode(keys + {key}, node) == OnNode(keys, node);
    }
  }

  lemma NodesGrow(keys: set<SeriesKey>, key: SeriesKey)
    ensures NodesOf(keys + {key}) == NodesOf(keys) + {key.node}
  {
    forall node | node in NodesOf(keys) + {key.node}
      ensures node in NodesOf(keys + {key})
    {
      if node != key.node {
        var other :| other in keys && other.node == node;
        assert other in keys + {key};
      } else {
        assert key in keys + {key};
      }
    }
  }

  lemma NoneOnForeignNode(keys: set<SeriesKey>, node: string)
    requires node !in NodesOf(keys)
    ensures OnNode(keys, node) == {}
  {
    forall key | key in keys
      ensures key.node != node
    {
      assert key.node in NodesOf(keys);
    }
  }

  lemma CountNone(evicted: map<string, nat>)
    ensures CountEvictions(evicted, {}) == evicted
  {
    assert NodesOf({}) == {};
    forall node
      ensures OnNode({}, node) == {}
    {
    }
  }

  /** Counting one more removed key bumps that key's node by one and nothing else. */
  lemma CountOneMore(evicted: map<string, nat>, removed: set<SeriesKey>, key: SeriesKey)
    requires key !in removed
    ensures var before := CountEvictions(evicted, removed);
            CountEvictions(evicted, removed + {key}) == before[key.node := Get(before, key.node) + 1]
  {
    var before, after := CountEvictions(evicted, removed), CountEvictions(evicted, removed + {key});
    NodesGrow(removed, key);
    if key.node !in NodesOf(removed) {
      NoneOnForeignNode(removed, key.node);
    }
    assert after.Keys == before.Keys + {key.node};
    forall node | node in after
      ensures after[node] == before[key.node := Get(before, key.node) + 1][node]
    {
      OnNodeGrows(removed, key, node);
    }
  }

  // ----- what recording shows, label by label and figure by figure -----

  /** What a label says of a value that may be missing. */
  function Label(value: Option<string>): string {
    match value
    case Some(text) => text
    case None => "unknown"
  }

  /** A gauge at its old value or at this many kilobytes, whichever is more. */
  predicate Peaked(before: map<MemoryKey, nat>, after: map<MemoryKey, nat>, mk: MemoryKey, kilobytes: nat) {
    mk in after && after[mk] == if mk in before && before[mk] > 1024 * kilobytes then before[mk] else 1024 * kilobytes
  }

  /** From `s` to `s'` exactly the event `e` was recorded: one more kill under its six labels and
      on its node, its time as the last one, and its four figures against the four gauges of its
      container. Everything else is as it was. */
  ghost predicate ShowsRecord(s: Store, s': Store, e: EnrichedOomEvent) {
    var node := Label(e.nodeName);
    var key := SeriesKey(node, Label(e.namespace), Label(e.podName), Label(e.containerName),
                         Label(e.containerId), Label(e.imageId));
    var name := ContainerName(node, Label(e.namespace), Label(e.podName), Label(e.containerName));
    && s'.kills == s.kills[key := (if key in s.kills then s.kills[key] else 0) + 1]
    && s'.perNode == s.perNode[node := (if node in s.perNode then s.perNode[node] else 0) + 1]
    && s'.lastTimestamp == s.lastTimestamp[key := e.timestamp]
    && s'.lastSeen == s.lastSeen[key := e.timestamp]
    && s'.evicted == s.evicted && s'.deletedAfter == s.deletedAfter
    && Peaked(s.memory, s'.memory, MemoryKey(name, TotalVm), e.raw.totalVm)
    && Peaked(s.memory, s'.memory, MemoryKey(name, AnonRss), e.raw.anonRss)
    && Peaked(s.memory, s'.memory, MemoryKey(name, FileRss), e.raw.fileRss)
    && Peaked(s.memory, s'.memory, MemoryKey(name, ShmemRss), e.raw.shmemRss)
    && (forall mk: MemoryKey :: mk.name != name ==> (mk in s'.memory <==> mk in s.memory))
    && (forall mk: MemoryKey :: mk.name != name && mk in s.memory ==> s'.memory[mk] == s.memory[mk])
  }

  lemma GaugePeaked(s: Store, e: EnrichedOomEvent, kind: MemoryType)
    ensures var mk := MemoryKey(KeyOf(e).Name(), kind);
            Peaked(s.memory, AfterRecord(s, e).memory, mk, MemoryValue(e.raw, kind))
  {
    AllKinds(kind);
    RaisedAt(s.memory, KeyOf(e).Name(), e.raw, MEMORY_TYPES, MemoryKey(KeyOf(e).Name(), kind));
  }

  lemma OtherGaugesKept(s: Store, e: EnrichedOomEvent, mk: MemoryKey)
    requires mk.name != KeyOf(e).Name()
    ensures mk in AfterRecord(s, e).memory <==> mk in s.memory
    ensures mk in s.memory ==> AfterRecord(s, e).memory[mk] == s.memory[mk]
  {
    RaisedAt(s.memory, KeyOf(e).Name(), e.raw, MEMORY_TYPES, mk);
  }

  /** The labels the code puts on an event are the event's own. */
  lemma KeyIsLabels(e: EnrichedOomEvent)
    ensures KeyOf(e) == SeriesKey(Label(e.nodeName), Label(e.namespace), Label(e.podName), Label(e.containerName),
                                  Label(e.containerId), Label(e.imageId))
  {
  }

  lemma RecordGauges(s: Store, e: EnrichedOomEvent)
    ensures var before, after, name := s.memory, AfterRecord(s, e).memory, KeyOf(e).Name();
            && Peaked(before, after, MemoryKey(name, TotalVm), e.raw.totalVm)
            && Peaked(before, after, MemoryKey(name, AnonRss), e.raw.anonRss)
            && Peaked(before, after, MemoryKey(name, FileRss), e.raw.fileRss)
            && Peaked(before, after, MemoryKey(name, ShmemRss), e.raw.shmemRss)
  {
    GaugePeaked(s, e, TotalVm);
    GaugePeaked(s, e, AnonRss);
    GaugePeaked(s, e, FileRss);
    GaugePeaked(s, e, ShmemRss);
  }

  lemma RecordMaps(s: Store, e: EnrichedOomEvent)
    ensures var s', key := AfterRecord(s, e), KeyOf(e);
            && s'.kills == s.kills[key := (if key in s.kills then s.kills[key] else 0) + 1]
            && s'.perNode == s.perNode[key.node := (if key.node in s.perNode then s.perNode[key.node] else 0) + 1]
            && s'.lastTimestamp == s.lastTimestamp[key := e.timestamp] && s'.lastSeen == s.lastSeen[key := e.timestamp]
            && s'.evicted == s.evicted && s'.deletedAfter == s.deletedAfter
  {
  }

  lemma RecordShows(s: Store, e: EnrichedOomEvent)
    ensures ShowsRecord(s, AfterRecord(s, e), e)
  {
    KeyIsLabels(e);
    RecordMaps(s, e);
    RecordGauges(s, e);
    forall mk: MemoryKey | mk.name != KeyOf(e).Name()
      ensures mk in AfterRecord(s, e).memory <==> mk in s.memory
      ensures mk in s.memory ==> AfterRecord(s, e).memory[mk] == s.memory[mk]
    {
      OtherGaugesKept(s, e, mk);
    }
  }

  /** After any calls, recording one more event shows that event and nothing else. */
  lemma RecordedEventShows(h: seq<Op>, e: EnrichedOomEvent)
    ensures ShowsRecord(Replay(h), Replay(h + [Record(e)]), e)
  {
    ReplayStep(h, Record(e));
    RecordShows(Replay(h), e);
  }

  // ----- removing a list of keys one at a time -----

  function Elements(keys: seq<SeriesKey>): set<SeriesKey> {
    set key | key in keys
  }

  predicate Distinct(keys: seq<SeriesKey>) {
    forall i, j :: 0 <= i < j < |keys| ==> keys[i] != keys[j]
  }

  function WithoutName(memory: map<MemoryKey, nat>, name: ContainerName): map<MemoryKey, nat> {
    map mk | mk in memory && mk.name != name :: memory[mk]
  }

  lemma ElementsGrow(keys: seq<SeriesKey>, i: nat)
    requires Distinct(keys) && i < |keys|
    ensures Elements(keys[..i + 1]) == Elements(keys[..i]) + {keys[i]}
    ensures keys[i] !in Elements(keys[..i])
  {
    assert keys[..i + 1] == keys[..i] + [keys[i]];
  }

  lemma {:induction false} ElementsCount(keys: seq<SeriesKey>)
    requires Distinct(keys)
    ensures |Elements(keys)| == |keys|
  {
    if keys != [] {
      var last := |keys| - 1;
      assert keys[..last + 1] == keys;
      ElementsGrow(keys, last);
      ElementsCount(keys[..last]);
    }
  }

  lemma OrphansOneMore(memory: map<MemoryKey, nat>, survivors: set<SeriesKey>, removed: set<SeriesKey>, key: SeriesKey)
    ensures var orphaned := !exists live :: live in survivors && live.SharesMemorySeriesWith(key);
            var before := WithoutOrphans(memory, survivors, removed);
            WithoutOrphans(memory, survivors, removed + {key}) ==
            if orphaned then WithoutName(before, key.Name()) else before
  {
    forall live: SeriesKey
      ensures live.SharesMemorySeriesWith(key) <==> live.Name() == key.Name()
    {
      SharesIffSameName(live, key);
    }
    forall name: ContainerName
      ensures Orphaned(survivors, removed + {key}, name) <==>
              Orphaned(survivors, removed, name) ||
              (name == key.Name() && forall live :: live in survivors ==> live.Name() != name)
    {
      assert key in removed + {key};
      if exists other :: other in removed && other.Name() == name {
        var other :| other in removed && other.Name() == name;
        assert other in removed + {key};
      }
    }
  }
}
