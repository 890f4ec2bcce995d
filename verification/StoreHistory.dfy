/** What every map of the collector holds, said directly of the history of calls: one label
    set at a time, with no maps and no bookkeeping. */
module StoreHistory {
  import opened Common
  import opened SeriesStore

  predicate RecordsKey(op: Op, key: SeriesKey) {
    op.Record? && KeyOf(op.event) == key
  }

  predicate RecordsName(op: Op, name: ContainerName) {
    op.Record? && KeyOf(op.event).Name() == name
  }

  predicate RecordsNode(op: Op, node: string) {
    op.Record? && KeyOf(op.event).node == node
  }

  /** How many events of `key` these calls recorded. */
  function CountKey(h: seq<Op>, key: SeriesKey): nat {
    if h == [] then 0
    else CountKey(h[..|h| - 1], key) + if RecordsKey(h[|h| - 1], key) then 1 else 0
  }

  function CountNode(h: seq<Op>, node: string): nat {
    if h == [] then 0
    else CountNode(h[..|h| - 1], node) + if RecordsNode(h[|h| - 1], node) then 1 else 0
  }

  /** The timestamp of the last event of `key` among these calls. */
  function LastTime(h: seq<Op>, key: SeriesKey): nat {
    if h == [] then 0
    else if RecordsKey(h[|h| - 1], key) then h[|h| - 1].event.timestamp
    else LastTime(h[..|h| - 1], key)
  }

  predicate AnyOfName(h: seq<Op>, name: ContainerName) {
    exists i :: 0 <= i < |h| && RecordsName(h[i], name)
  }

  /** The largest figure of this kind, in kilobytes, over every restart of the container. */
  function PeakKilobytes(h: seq<Op>, name: ContainerName, kind: MemoryType): nat {
    if h == [] then 0
    else
      var before := PeakKilobytes(h[..|h| - 1], name, kind);
      var op := h[|h| - 1];
      if RecordsName(op, name) then Max(before, MemoryValue(op.event.raw, kind)) else before
  }

  // ----- deletion notices -----

  predicate NoticeOf(op: Op, pod: PodName) {
    op.NotePodDeleted? && op.pod == pod
  }

  /** The position of the most recent notice that `pod` is gone. */
  function LatestNotice(h: seq<Op>, pod: PodName): (j: Option<nat>)
    ensures j.Some? ==> j.value < |h| && NoticeOf(h[j.value], pod)
  {
    if h == [] then None
    else if NoticeOf(h[|h| - 1], pod) then Some(|h| - 1)
    else LatestNotice(h[..|h| - 1], pod)
  }

  /** Some sweep after position `j` ran at or after `due`. */
  ghost predicate SweptBy(h: seq<Op>, j: nat, due: nat) {
    exists i :: j < i < |h| && h[i].Sweep? && due <= h[i].now
  }

  /** When `pod` is scheduled to go, if a notice is still waiting to be acted on. */
  ghost function PendingDue(h: seq<Op>, pod: PodName): Option<nat> {
    match LatestNotice(h, pod)
    case None => None
    case Some(j) => if SweptBy(h, j, DueTime(h[j].now)) then None else Some(DueTime(h[j].now))
  }

  ghost predicate DueBy(h: seq<Op>, pod: PodName, now: nat) {
    PendingDue(h, pod).Some? && PendingDue(h, pod).value <= now
  }

  // ----- epochs: where the last eviction of a key, and the last orphaning of a name, fell -----

  /** The position just after the last sweep that evicted `key`; 0 if none did. */
  ghost function Epoch(h: seq<Op>, key: SeriesKey): (n: nat)
    ensures n <= |h|
    decreases |h|, 0
  {
    if h == [] then 0
    else if Evicts(h[..|h| - 1], h[|h| - 1], key) then |h|
    else Epoch(h[..|h| - 1], key)
  }

  ghost function Since(h: seq<Op>, key: SeriesKey): seq<Op>
    decreases |h|, 1
  {
    h[Epoch(h, key)..]
  }

  /** Events of `key` since it was last evicted. */
  ghost function Kills(h: seq<Op>, key: SeriesKey): nat
    decreases |h|, 2
  {
    CountKey(Since(h, key), key)
  }

  ghost function LastSeen(h: seq<Op>, key: SeriesKey): nat
    decreases |h|, 2
  {
    LastTime(Since(h, key), key)
  }

  /** The call `op`, made after the calls `h`, evicts `key`. */
  ghost predicate Evicts(h: seq<Op>, op: Op, key: SeriesKey)
    decreases |h|, 3
  {
    && op.Sweep?
    && Kills(h, key) > 0
    && (SaturatingSub(op.now, LastSeen(h, key)) >= op.ttl || DueBy(h, key.Pod(), op.now))
  }

  /** `op` evicts some restart of `name` and leaves none. */
  ghost predicate Orphans(h: seq<Op>, op: Op, name: ContainerName) {
    && (exists key: SeriesKey :: key.Name() == name && Evicts(h, op, key))
    && (forall key: SeriesKey :: key.Name() == name ==> Kills(h + [op], key) == 0)
  }

  ghost function MemoryEpoch(h: seq<Op>, name: ContainerName): (n: nat)
    ensures n <= |h|
  {
    if h == [] then 0
    else if Orphans(h[..|h| - 1], h[|h| - 1], name) then |h|
    else MemoryEpoch(h[..|h| - 1], name)
  }

  ghost function MemorySince(h: seq<Op>, name: ContainerName): seq<Op> {
    h[MemoryEpoch(h, name)..]
  }

  // ----- evictions -----

  function KeysRecorded(h: seq<Op>): set<SeriesKey> {
    set op | op in h && op.Record? :: KeyOf(op.event)
  }

  ghost function EvictedBy(h: seq<Op>, op: Op): set<SeriesKey> {
    set key | key in KeysRecorded(h) && Evicts(h, op, key)
  }

  ghost function Evictions(h: seq<Op>, node: string): nat {
    if h == [] then 0
    else Evictions(h[..|h| - 1], node) + |OnNode(EvictedBy(h[..|h| - 1], h[|h| - 1]), node)|
  }

  // ----- the refinement relation -----

  ghost predicate KeyAgrees(s: Store, h: seq<Op>, key: SeriesKey) {
    && (key in s.kills <==> Kills(h, key) > 0)
    && (key in s.lastSeen <==> Kills(h, key) > 0)
    && (key in s.lastTimestamp <==> Kills(h, key) > 0)
    && (Kills(h, key) > 0 ==>
          && s.kills[key] == Kills(h, key)
          && s.lastSeen[key] == LastSeen(h, key)
          && s.lastTimestamp[key] == LastSeen(h, key))
  }

  ghost predicate GaugeAgrees(s: Store, h: seq<Op>, mk: MemoryKey) {
    var since := MemorySince(h, mk.name);
    && (mk in s.memory <==> AnyOfName(since, mk.name))
    && (mk in s.memory ==> s.memory[mk] == 1024 * PeakKilobytes(since, mk.name, mk.kind))
  }

  ghost predicate PodAgrees(s: Store, h: seq<Op>, pod: PodName) {
    && (pod in s.deletedAfter <==> PendingDue(h, pod).Some?)
    && (pod in s.deletedAfter ==> s.deletedAfter[pod] == PendingDue(h, pod).value)
  }

  ghost predicate NodeAgrees(s: Store, h: seq<Op>, node: string) {
    && (node in s.perNode <==> CountNode(h, node) > 0)
    && Get(s.perNode, node) == CountNode(h, node)
    && (node in s.evicted <==> Evictions(h, node) > 0)
    && Get(s.evicted, node) == Evictions(h, node)
  }

  // ----- one step -----

  lemma KeyStep(h: seq<Op>, op: Op, key: SeriesKey)
    ensures Evicts(h, op, key) ==> Kills(h + [op], key) == 0
    ensures !Evicts(h, op, key) ==>
              Kills(h + [op], key) == Kills(h, key) + if RecordsKey(op, key) then 1 else 0
    ensures !Evicts(h, op, key) ==>
              LastSeen(h + [op], key) == if RecordsKey(op, key) then op.event.timestamp else LastSeen(h, key)
  {
    var h' := h + [op];
    assert h'[..|h'| - 1] == h;
    if Evicts(h, op, key) {
      assert Since(h', key) == [];
    } else {
      var since := Since(h, key);
      assert Since(h', key) == since + [op];
      assert (since + [op])[..|since|] == since;
    }
  }

  lemma PodStep(h: seq<Op>, op: Op, pod: PodName)
    ensures PendingDue(h + [op], pod) ==
            if NoticeOf(op, pod) then Some(DueTime(op.now))
            else if op.Sweep? && DueBy(h, pod, op.now) then None
            else PendingDue(h, pod)
  {
    var h' := h + [op];
    assert h'[..|h'| - 1] == h;
    if !NoticeOf(op, pod) && LatestNotice(h, pod).Some? {
      var j := LatestNotice(h, pod).value;
      var due := DueTime(h[j].now);
      assert h'[j] == h[j] && h'[|h|] == op;
      if SweptBy(h, j, due) {
        var i :| j < i < |h| && h[i].Sweep? && due <= h[i].now;
        assert h'[i] == h[i];
      } else if op.Sweep? && due <= op.now {
        assert SweptBy(h', j, due);
      } else {
        forall i | j < i < |h'| && h'[i].Sweep?
          ensures h'[i].now < due
        {
          assert i < |h| ==> h'[i] == h[i];
        }
      }
    }
  }

  lemma MemoryStep(h: seq<Op>, op: Op, name: ContainerName, kind: MemoryType)
    ensures var h' := h + [op];
            if Orphans(h, op, name) then !AnyOfName(MemorySince(h', name), name)
            else
              && (AnyOfName(MemorySince(h', name), name) <==>
                    AnyOfName(MemorySince(h, name), name) || RecordsName(op, name))
              && PeakKilobytes(MemorySince(h', name), name, kind) ==
                 var before := PeakKilobytes(MemorySince(h, name), name, kind);
                 if RecordsName(op, name) then Max(before, MemoryValue(op.event.raw, kind)) else before
  {
    var h' := h + [op];
    assert h'[..|h'| - 1] == h;
    if !Orphans(h, op, name) {
      var since := MemorySince(h, name);
      var since' := MemorySince(h', name);
      assert since' == since + [op];
      assert since'[..|since|] == since;
      if AnyOfName(since, name) {
        var i :| 0 <= i < |since| && RecordsName(since[i], name);
        assert RecordsName(since'[i], name);
      }
      if RecordsName(op, name) {
        assert RecordsName(since'[|since|], name);
      }
    }
  }

  lemma {:induction false} CountedWasRecorded(h: seq<Op>, key: SeriesKey)
    requires CountKey(h, key) > 0
    ensures exists i :: 0 <= i < |h| && RecordsKey(h[i], key)
  {
    var last := |h| - 1;
    if !RecordsKey(h[last], key) {
      CountedWasRecorded(h[..last], key);
      var i :| 0 <= i < last && RecordsKey(h[..last][i], key);
      assert RecordsKey(h[i], key);
    }
  }

  lemma LiveWasRecorded(h: seq<Op>, key: SeriesKey)
    requires Kills(h, key) > 0
    ensures key in KeysRecorded(h)
  {
    var since := Since(h, key);
    CountedWasRecorded(since, key);
    var i :| 0 <= i < |since| && RecordsKey(since[i], key);
    assert since[i] in h;
  }

  // ----- the refinement theorem -----

  /** A sweep evicts exactly the keys the set-valued specification calls stale. */
  lemma EvictsIffStale(h: seq<Op>, now: U64, ttl: U64, key: SeriesKey)
    requires KeyAgrees(Replay(h), h, key) && PodAgrees(Replay(h), h, key.Pod())
    ensures Evicts(h, Sweep(now, ttl), key) <==> key in StaleKeys(Replay(h), now, ttl)
  {
  }

  lemma KeyAgreesStep(h: seq<Op>, op: Op, key: SeriesKey)
    requires KeyAgrees(Replay(h), h, key) && PodAgrees(Replay(h), h, key.Pod())
    ensures KeyAgrees(Apply(Replay(h), op), h + [op], key)
  {
    KeyStep(h, op, key);
    match op
    case Record(_) =>
    case NotePodDeleted(_, _) =>
    case Sweep(now, ttl) => EvictsIffStale(h, now, ttl, key);
  }

  lemma PodAgreesStep(h: seq<Op>, op: Op, pod: PodName)
    requires PodAgrees(Replay(h), h, pod)
    ensures PodAgrees(Apply(Replay(h), op), h + [op], pod)
  {
    PodStep(h, op, pod);
  }

  /** A sweep drops a container's gauges exactly when it evicts the last restart of it. */
  lemma OrphansIffOrphaned(h: seq<Op>, now: U64, ttl: U64, name: ContainerName)
    requires forall key :: KeyAgrees(Replay(h), h, key)
    requires forall pod :: PodAgrees(Replay(h), h, pod)
    ensures var s := Replay(h);
            var stale := StaleKeys(s, now, ttl);
            Orphans(h, Sweep(now, ttl), name) <==> Orphaned(s.lastSeen.Keys - stale, stale, name)
  {
    var s := Replay(h);
    var op := Sweep(now, ttl);
    var stale := StaleKeys(s, now, ttl);
    forall key
      ensures Evicts(h, op, key) <==> key in stale
      ensures Kills(h + [op], key) == 0 <==> key !in s.lastSeen.Keys - stale
    {
      assert KeyAgrees(s, h, key) && PodAgrees(s, h, key.Pod());
      EvictsIffStale(h, now, ttl, key);
      KeyStep(h, op, key);
    }
  }

  lemma GaugeAgreesStep(h: seq<Op>, op: Op, mk: MemoryKey)
    requires forall key :: KeyAgrees(Replay(h), h, key)
    requires forall pod :: PodAgrees(Replay(h), h, pod)
    requires GaugeAgrees(Replay(h), h, mk)
    ensures GaugeAgrees(Apply(Replay(h), op), h + [op], mk)
  {
    var s := Replay(h);
    MemoryStep(h, op, mk.name, mk.kind);
    match op
    case Record(e) =>
      AllKinds(mk.kind);
      RaisedAt(s.memory, KeyOf(e).Name(), e.raw, MEMORY_TYPES, mk);
      NoneRecordedNoPeak(MemorySince(h, mk.name), mk.name, mk.kind);
    case NotePodDeleted(_, _) =>
    case Sweep(now, ttl) => OrphansIffOrphaned(h, now, ttl, mk.name);
  }

  lemma {:induction false} NoneRecordedNoPeak(h: seq<Op>, name: ContainerName, kind: MemoryType)
    ensures !AnyOfName(h, name) ==> PeakKilobytes(h, name, kind) == 0
  {
    if h != [] && !AnyOfName(h, name) {
      NoneRecordedNoPeak(h[..|h| - 1], name, kind);
    }
  }

  lemma NodeAgreesStep(h: seq<Op>, op: Op, node: string)
    requires forall key :: KeyAgrees(Replay(h), h, key)
    requires forall pod :: PodAgrees(Replay(h), h, pod)
    requires NodeAgrees(Replay(h), h, node)
    ensures NodeAgrees(Apply(Replay(h), op), h + [op], node)
  {
    var h' := h + [op];
    assert h'[..|h'| - 1] == h;
    match op
    case Record(_) => assert EvictedBy(h, op) == {};
    case NotePodDeleted(_, _) => assert EvictedBy(h, op) == {};
    case Sweep(now, ttl) =>
      var stale := StaleKeys(Replay(h), now, ttl);
      SweepEvictsStale(h, now, ttl);
      if node in NodesOf(stale) {
        var key :| key in stale && key.node == node;
        assert key in OnNode(stale, node);
      } else {
        NoneOnForeignNode(stale, node);
      }
  }

  lemma SweepEvictsStale(h: seq<Op>, now: U64, ttl: U64)
    requires forall key :: KeyAgrees(Replay(h), h, key)
    requires forall pod :: PodAgrees(Replay(h), h, pod)
    ensures EvictedBy(h, Sweep(now, ttl)) == StaleKeys(Replay(h), now, ttl)
  {
    forall key
      ensures key in EvictedBy(h, Sweep(now, ttl)) <==> key in StaleKeys(Replay(h), now, ttl)
    {
      assert KeyAgrees(Replay(h), h, key) && PodAgrees(Replay(h), h, key.Pod());
      EvictsIffStale(h, now, ttl, key);
      if Evicts(h, Sweep(now, ttl), key) {
        LiveWasRecorded(h, key);
      }
    }
  }

  /** Each map of `s` is the per-label function of the history `h`. */
  ghost predicate Agrees(s: Store, h: seq<Op>) {
    && (forall key :: KeyAgrees(s, h, key))
    && (forall pod :: PodAgrees(s, h, pod))
    && (forall mk :: GaugeAgrees(s, h, mk))
    && (forall node :: NodeAgrees(s, h, node))
  }

  lemma AgreesAtStart()
    ensures Agrees(EMPTY, [])
  {
    forall key ensures KeyAgrees(EMPTY, [], key) { assert Since([], key) == []; }
  }

  lemma AgreesStep(h: seq<Op>, op: Op)
    requires Agrees(Replay(h), h)
    ensures Agrees(Apply(Replay(h), op), h + [op])
  {
    var s' := Apply(Replay(h), op);
    forall key ensures KeyAgrees(s', h + [op], key) { KeyAgreesStep(h, op, key); }
    forall pod ensures PodAgrees(s', h + [op], pod) { PodAgreesStep(h, op, pod); }
    forall mk ensures GaugeAgrees(s', h + [op], mk) { GaugeAgreesStep(h, op, mk); }
    forall node ensures NodeAgrees(s', h + [op], node) { NodeAgreesStep(h, op, node); }
  }

  /** History refinement: after any calls, each map is the per-label function of the history. */
  lemma {:induction false} HistoryRefinement(h: seq<Op>)
    ensures Agrees(Replay(h), h)
  {
    if h == [] {
      AgreesAtStart();
    } else {
      var p, op := h[..|h| - 1], h[|h| - 1];
      assert h == p + [op];
      HistoryRefinement(p);
      AgreesStep(p, op);
    }
  }

  /** After any calls a sweep takes a container's gauges exactly when, by the history alone, it
      evicts some restart of the container and leaves none. */
  lemma GaugesGoWithTheLastRestart(h: seq<Op>, now: U64, ttl: U64, mk: MemoryKey)
    requires mk in Replay(h).memory
    ensures mk !in Replay(h + [Sweep(now, ttl)]).memory <==> Orphans(h, Sweep(now, ttl), mk.name)
  {
    HistoryRefinement(h);
    OrphansIffOrphaned(h, now, ttl, mk.name);
    ReplayStep(h, Sweep(now, ttl));
  }
}
