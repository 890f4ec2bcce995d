/** When series go: never before their time, and not much after it. */
module StoreTiming {
  import opened Common
  import opened SeriesStore
  import StoreHistory
  import StoreSafety

  // ----- no premature eviction, for any clock -----

  /** Position `i` is the latest event of `key` in the history. */
  ghost predicate LatestEvent(h: seq<Op>, key: SeriesKey, i: nat) {
    && i < |h| && StoreHistory.RecordsKey(h[i], key)
    && (forall j :: i < j < |h| ==> !StoreHistory.RecordsKey(h[j], key))
  }

  /** A tracked key's stamp is the timestamp of the latest event that names it. */
  lemma {:induction false} StampIsLatestEvent(h: seq<Op>, key: SeriesKey) returns (i: nat)
    requires key in Replay(h).lastSeen
    ensures LatestEvent(h, key, i) && h[i].event.timestamp == Replay(h).lastSeen[key]
  {
    var p, op := h[..|h| - 1], h[|h| - 1];
    if StoreHistory.RecordsKey(op, key) {
      i := |h| - 1;
    } else {
      i := StampIsLatestEvent(p, key);
      StillLatest(h, key, i);
    }
  }

  lemma StillLatest(h: seq<Op>, key: SeriesKey, i: nat)
    requires h != [] && LatestEvent(h[..|h| - 1], key, i) && !StoreHistory.RecordsKey(h[|h| - 1], key)
    ensures LatestEvent(h, key, i) && h[i] == h[..|h| - 1][i]
  {
    forall j | i < j < |h|
      ensures !StoreHistory.RecordsKey(h[j], key)
    {
      assert j < |h| - 1 ==> h[j] == h[..|h| - 1][j];
    }
  }

  /** Position `j` is the latest notice for `pod`. */
  predicate IsLatestNotice(h: seq<Op>, pod: PodName, j: nat) {
    j < |h| && StoreHistory.NoticeOf(h[j], pod) && StoreHistory.LatestNotice(h, pod) == Some(j)
  }

  /** A scheduled deletion is due the grace after the latest notice for its pod. */
  lemma DueIsLatestNotice(h: seq<Op>, pod: PodName) returns (j: nat)
    requires pod in Replay(h).deletedAfter
    ensures IsLatestNotice(h, pod, j)
    ensures Replay(h).deletedAfter[pod] == DueTime(h[j].now)
  {
    StoreHistory.HistoryRefinement(h);
    assert StoreHistory.PodAgrees(Replay(h), h, pod);
    j := StoreHistory.LatestNotice(h, pod).value;
  }

  /** Whatever the clock did, a sweep that removes a key runs at least the TTL after the key's
      latest event, or at least the grace after the latest notice for its pod (less only when
      the due time would not fit the clock's 64 bits). */
  lemma NoPrematureEviction(h: seq<Op>, now: U64, ttl: U64, key: SeriesKey)
    requires key in Replay(h).lastSeen && key !in Replay(h + [Sweep(now, ttl)]).lastSeen
    ensures || (exists i: nat :: LatestEvent(h, key, i) && SaturatingSub(now, h[i].event.timestamp) >= ttl)
            || (exists j: nat :: IsLatestNotice(h, key.Pod(), j) && Min(U64_MAX, h[j].now + DELETED_POD_GRACE_SECONDS) <= now)
  {
    ReplayStep(h, Sweep(now, ttl));
    var i := StampIsLatestEvent(h, key);
    if PodDue(Replay(h).deletedAfter, key.Pod(), now) {
      var j := DueIsLatestNotice(h, key.Pod());
      assert Min(U64_MAX, h[j].now + DELETED_POD_GRACE_SECONDS) <= now;
    } else {
      assert SaturatingSub(now, h[i].event.timestamp) >= ttl;
    }
  }

  // ----- how long one recorded increment is safe, exactly -----

  function Time(op: Op): nat {
    match op
    case Record(e) => e.timestamp
    case NotePodDeleted(_, now) => now
    case Sweep(now, _) => now
  }

  /** Calls made on a clock that does not step back, from `from` until before `until`, with
      every sweep using the process's one TTL. */
  predicate Within(c: seq<Op>, from: nat, until: nat, ttl: nat) {
    && (forall i :: 0 <= i < |c| ==> from <= Time(c[i]) < until)
    && (forall i :: 0 < i < |c| ==> Time(c[i - 1]) <= Time(c[i]))
    && (forall i :: 0 <= i < |c| && c[i].Sweep? ==> c[i].ttl == ttl)
  }

  function SafeSpan(ttl: nat): nat {
    Min(ttl, DELETED_POD_GRACE_SECONDS)
  }

  /** No deletion of the pod is waiting that falls due before `until`. */
  predicate Unthreatened(s: Store, pod: PodName, until: nat) {
    pod in s.deletedAfter ==> until <= s.deletedAfter[pod]
  }

  /** `key` was stamped no earlier than `from`, has at least `count` kills, and its pod is
      not due to go before `until`. */
  ghost predicate Safe(s: Store, key: SeriesKey, from: nat, until: nat, count: nat) {
    && StoreSafety.Owned(s)
    && key in s.lastSeen && from <= s.lastSeen[key]
    && count <= s.kills[key]
    && Unthreatened(s, key.Pod(), until)
  }

  lemma SafeStep(s: Store, op: Op, key: SeriesKey, from: nat, ttl: nat, count: nat)
    requires Safe(s, key, from, from + SafeSpan(ttl), count)
    requires from + SafeSpan(ttl) <= U64_MAX
    requires from <= Time(op) < from + SafeSpan(ttl)
    requires op.Sweep? ==> op.ttl == ttl
    ensures Safe(Apply(s, op), key, from, from + SafeSpan(ttl), count)
  {
    StoreSafety.OwnedStep(s, op);
  }

  lemma {:induction false} SafeUntil(h: seq<Op>, c: seq<Op>, key: SeriesKey, from: nat, ttl: nat, count: nat)
    requires from + SafeSpan(ttl) <= U64_MAX
    requires Safe(Replay(h), key, from, from + SafeSpan(ttl), count)
    requires Within(c, from, from + SafeSpan(ttl), ttl)
    ensures Safe(Replay(h + c), key, from, from + SafeSpan(ttl), count)
  {
    if c == [] {
      assert h + c == h;
    } else {
      var p, op := c[..|c| - 1], c[|c| - 1];
      SafeUntil(h, p, key, from, ttl, count);
      assert h + c == (h + p) + [op];
      ReplayStep(h + p, op);
      SafeStep(Replay(h + p), op, key, from, ttl, count);
    }
  }

  /** A deletion already due inside the span: the next sweep takes the increment with it. */
  lemma AlreadyThreatened(h: seq<Op>, key: SeriesKey, from: U64, ttl: U64) returns (c: seq<Op>)
    requires ttl > 0 && key in Replay(h).lastSeen
    requires from + SafeSpan(ttl) <= U64_MAX
    requires !Unthreatened(Replay(h), key.Pod(), from + SafeSpan(ttl))
    ensures Within(c, from, from + SafeSpan(ttl), ttl) && key !in Replay(h + c).kills
  {
    var now: U64 := Max(from, Replay(h).deletedAfter[key.Pod()]);
    c := [Sweep(now, ttl)];
    ReplayStep(h, Sweep(now, ttl));
  }

  /** A span that runs off the clock: a saturated due time can fall inside it. */
  lemma OutOfRange(h: seq<Op>, key: SeriesKey, from: U64, ttl: U64) returns (c: seq<Op>)
    requires ttl > 0 && key in Replay(h).lastSeen
    requires from + SafeSpan(ttl) > U64_MAX
    ensures Within(c, from, from + SafeSpan(ttl), ttl) && key !in Replay(h + c).kills
  {
    var note, sweep := NotePodDeleted(key.Pod(), from), Sweep(U64_MAX, ttl);
    c := [note, sweep];
    ReplayStep(h, note);
    ReplayStep(h + [note], sweep);
    assert h + [note] + [sweep] == h + c;
  }

  lemma SafeWhile(h: seq<Op>, c: seq<Op>, key: SeriesKey, from: nat, ttl: nat)
    requires from + SafeSpan(ttl) <= U64_MAX
    requires key in Replay(h).lastSeen && from <= Replay(h).lastSeen[key]
    requires Unthreatened(Replay(h), key.Pod(), from + SafeSpan(ttl))
    requires Within(c, from, from + SafeSpan(ttl), ttl)
    ensures key in Replay(h).kills && key in Replay(h + c).kills && Replay(h).kills[key] <= Replay(h + c).kills[key]
  {
    StoreSafety.GaugesOwned(h);
    SafeUntil(h, c, key, from, ttl, Replay(h).kills[key]);
  }

  /** What `key` counted after `h` is still shown after `c` as well. */
  ghost predicate Kept(h: seq<Op>, key: SeriesKey, c: seq<Op>) {
    && key in Replay(h).kills && key in Replay(h + c).kills
    && Replay(h).kills[key] <= Replay(h + c).kills[key]
  }

  /** One way a span is not safe: it runs off the clock, or a deletion falls due inside it. */
  lemma LostWithin(h: seq<Op>, key: SeriesKey, from: U64, ttl: U64) returns (c: seq<Op>)
    requires ttl > 0 && key in Replay(h).lastSeen
    requires from + SafeSpan(ttl) > U64_MAX || !Unthreatened(Replay(h), key.Pod(), from + SafeSpan(ttl))
    ensures Within(c, from, from + SafeSpan(ttl), ttl) && !Kept(h, key, c)
  {
    if from + SafeSpan(ttl) > U64_MAX {
      c := OutOfRange(h, key, from, ttl);
    } else {
      c := AlreadyThreatened(h, key, from, ttl);
    }
  }

  /** The documented promise is that an increment stays visible for the grace (or the TTL,
      when that is shorter). Calls that do not overlap keep it, under every continuation on a
      steady clock, if and only if the span ends within the clock's range and the pod had no
      deletion already waiting that falls due inside it. A kill recorded late for a pod already
      reported deleted is the case that fails. The TTL is clamped to at least a second when it
      is read. */
  lemma IncrementSafeIff(h: seq<Op>, e: EnrichedOomEvent, ttl: U64)
    requires ttl > 0
    ensures (forall c :: Within(c, e.timestamp, e.timestamp + SafeSpan(ttl), ttl) ==> Kept(h + [Record(e)], KeyOf(e), c))
            <==> (e.timestamp + SafeSpan(ttl) <= U64_MAX
                  && Unthreatened(Replay(h), KeyOf(e).Pod(), e.timestamp + SafeSpan(ttl)))
  {
    var h' := h + [Record(e)];
    var until := e.timestamp + SafeSpan(ttl);
    ReplayStep(h, Record(e));
    assert Unthreatened(Replay(h'), KeyOf(e).Pod(), until) <==> Unthreatened(Replay(h), KeyOf(e).Pod(), until);
    if until <= U64_MAX && Unthreatened(Replay(h), KeyOf(e).Pod(), until) {
      forall c | Within(c, e.timestamp, until, ttl)
        ensures Kept(h', KeyOf(e), c)
      {
        SafeWhile(h', c, KeyOf(e), e.timestamp, ttl);
      }
    } else {
      var c := LostWithin(h', KeyOf(e), e.timestamp, ttl);
    }
  }

  // ----- what a deletion takes -----

  lemma GoneIffStale(s: Store, key: SeriesKey, now: nat, ttl: nat)
    requires key in s.lastSeen && key in s.kills
    ensures key !in AfterSweep(s, now, ttl).kills <==> IsStale(s, key, now, ttl)
  {
  }

  /** Which tracked keys a sweep finds stale after a notice, in plain arithmetic. */
  lemma StaleAfterNotice(s: Store, key: SeriesKey, namespace: string, pod: string, now: U64, sweptAt: U64, ttl: U64)
    requires key in s.lastSeen
    ensures IsStale(AfterNote(s, PodName(namespace, pod), now), key, sweptAt, ttl)
            <==> || ttl == 0 || s.lastSeen[key] + ttl <= sweptAt
                 || (if key.namespace == namespace && key.pod == pod
                     then now + 120 <= sweptAt || sweptAt == 0xFFFF_FFFF_FFFF_FFFF
                     else PodName(key.namespace, key.pod) in s.deletedAfter
                          && s.deletedAfter[PodName(key.namespace, key.pod)] <= sweptAt)
  {
  }

  /** After any calls, a deletion notice and then a sweep: whichever tracked series one asks
      about, it goes if it aged out, if it is of the named pod and the grace of this notice, which
      replaces any earlier one, is over, or if it is of another pod whose own deletion is due. So
      the notice takes every restart of the pod's containers and no pod that shares its name. */
  lemma DeletionTakesExactlyThePod(h: seq<Op>, key: SeriesKey, namespace: string, pod: string,
                                   now: U64, sweptAt: U64, ttl: U64)
    requires key in Replay(h).lastSeen
    ensures var s, note := Replay(h), NotePodDeleted(PodName(namespace, pod), now);
            key !in Replay(h + [note] + [Sweep(sweptAt, ttl)]).kills
            <==> || ttl == 0 || s.lastSeen[key] + ttl <= sweptAt
                 || (if key.namespace == namespace && key.pod == pod
                     then now + 120 <= sweptAt || sweptAt == 0xFFFF_FFFF_FFFF_FFFF
                     else PodName(key.namespace, key.pod) in s.deletedAfter
                          && s.deletedAfter[PodName(key.namespace, key.pod)] <= sweptAt)
  {
    var note := NotePodDeleted(PodName(namespace, pod), now);
    StoreSafety.GaugesOwned(h);
    ReplayStep(h, note);
    ReplayStep(h + [note], Sweep(sweptAt, ttl));
    StaleAfterNotice(Replay(h), key, namespace, pod, now, sweptAt, ttl);
    GoneIffStale(AfterNote(Replay(h), PodName(namespace, pod), now), key, sweptAt, ttl);
  }

  // ----- cardinality -----

  /** `times[i]` is when call `i` ran: the clock is steady, sweeps and notices carry the time
      they ran at, and an event's timestamp, read before its container was resolved, is at
      most `lag` old when it is recorded. */
  predicate Timed(h: seq<Op>, times: seq<nat>, lag: nat, ttl: nat) {
    && |times| == |h|
    && (forall i, j :: 0 <= i < j < |h| ==> times[i] <= times[j])
    && (forall i :: 0 <= i < |h| && h[i].Record? ==> Time(h[i]) <= times[i] <= Time(h[i]) + lag)
    && (forall i :: 0 <= i < |h| && !h[i].Record? ==> Time(h[i]) == times[i])
    && (forall i :: 0 <= i < |h| && h[i].Sweep? ==> h[i].ttl == ttl)
  }

  /** By time `t` a sweep ran within the last `interval`, or nothing at all is older. */
  predicate SweptLately(h: seq<Op>, times: seq<nat>, t: nat, interval: nat)
    requires |times| == |h|
  {
    || (exists i :: 0 <= i < |h| && h[i].Sweep? && t <= times[i] + interval)
    || (forall i :: 0 <= i < |h| ==> t <= times[i] + interval)
  }

  /** How far back the event behind a live series can lie. */
  function Window(ttl: nat, lag: nat, interval: nat): nat {
    Max(ttl, lag + 1) + interval
  }

  /** From position `n` on, everything tracked or scheduled is fresh as of `since`. */
  ghost predicate FreshAsOf(s: Store, since: nat, age: nat) {
    && (forall key :: key in s.lastSeen ==> since < s.lastSeen[key] + age)
    && (forall pod :: pod in s.deletedAfter ==> Min(U64_MAX, since + 1) <= s.deletedAfter[pod])
  }

  lemma FreshStep(s: Store, op: Op, time: nat, lag: nat, ttl: nat, since: nat)
    requires FreshAsOf(s, since, Max(ttl, lag + 1)) && since <= time
    requires if op.Record? then time <= Time(op) + lag else Time(op) == time
    ensures FreshAsOf(Apply(s, op), since, Max(ttl, lag + 1))
  {
  }

  lemma SweepFreshens(s: Store, op: Op, lag: nat)
    requires op.Sweep?
    ensures FreshAsOf(Apply(s, op), op.now, Max(op.ttl, lag + 1))
  {
  }

  lemma {:induction false} FreshAfter(h: seq<Op>, times: seq<nat>, lag: nat, ttl: nat, since: nat, n: nat)
    requires Timed(h, times, lag, ttl)
    requires n <= |h| && FreshAsOf(Replay(h[..n]), since, Max(ttl, lag + 1))
    requires forall i :: n <= i < |h| ==> since <= times[i]
    ensures FreshAsOf(Replay(h), since, Max(ttl, lag + 1))
    decreases |h| - n
  {
    if n == |h| {
      assert h[..n] == h;
    } else {
      assert h[..n + 1] == h[..n] + [h[n]];
      ReplayStep(h[..n], h[n]);
      FreshStep(Replay(h[..n]), h[n], times[n], lag, ttl, since);
      FreshAfter(h, times, lag, ttl, since, n + 1);
    }
  }

  lemma FreshNow(h: seq<Op>, times: seq<nat>, lag: nat, ttl: nat, t: nat, interval: nat) returns (since: nat)
    requires Timed(h, times, lag, ttl) && SweptLately(h, times, t, interval)
    ensures t <= since + interval && FreshAsOf(Replay(h), since, Max(ttl, lag + 1))
  {
    if i :| 0 <= i < |h| && h[i].Sweep? && t <= times[i] + interval {
      since := times[i];
      assert h[..i + 1] == h[..i] + [h[i]];
      ReplayStep(h[..i], h[i]);
      SweepFreshens(Replay(h[..i]), h[i], lag);
      FreshAfter(h, times, lag, ttl, since, i + 1);
    } else if h == [] {
      since := t;
    } else {
      since := times[0];
      assert h[..0] == [];
      FreshAfter(h, times, lag, ttl, since, 0);
    }
  }

  predicate InWindow(op: Op, t: nat, window: nat) {
    op.Record? && t < op.event.timestamp + window
  }

  function CountInWindow(h: seq<Op>, t: nat, window: nat): nat {
    if h == [] then 0
    else CountInWindow(h[..|h| - 1], t, window) + if InWindow(h[|h| - 1], t, window) then 1 else 0
  }

  function KeysInWindow(h: seq<Op>, t: nat, window: nat): set<SeriesKey> {
    set op | op in h && InWindow(op, t, window) :: KeyOf(op.event)
  }

  lemma {:induction false} KeysAtMostEvents(h: seq<Op>, t: nat, window: nat)
    ensures |KeysInWindow(h, t, window)| <= CountInWindow(h, t, window)
  {
    if h == [] {
      assert KeysInWindow(h, t, window) == {};
    } else {
      var p, op := h[..|h| - 1], h[|h| - 1];
      assert h == p + [op];
      KeysAtMostEvents(p, t, window);
      if InWindow(op, t, window) {
        assert KeysInWindow(h, t, window) == KeysInWindow(p, t, window) + {KeyOf(op.event)};
      } else {
        assert KeysInWindow(h, t, window) == KeysInWindow(p, t, window);
      }
    }
  }

  lemma SubsetCard<T>(a: set<T>, b: set<T>)
    requires a <= b
    ensures |a| <= |b|
  {
    assert b == a + (b - a);
  }

  function FourOf(name: ContainerName): (gauges: set<MemoryKey>)
    ensures |gauges| <= 4
  {
    {MemoryKey(name, TotalVm), MemoryKey(name, AnonRss), MemoryKey(name, FileRss), MemoryKey(name, ShmemRss)}
  }

  lemma AmongFour(mk: MemoryKey)
    ensures mk in FourOf(mk.name)
  {
    match mk.kind
    case TotalVm =>
    case AnonRss =>
    case FileRss =>
    case ShmemRss =>
  }

  lemma UnionCard<T>(a: set<T>, b: set<T>)
    ensures |a + b| <= |a| + |b|
  {
    assert a + b == a + (b - a);
    SubsetCard(b - a, b);
  }

  /** Four gauges per tracked label set at most. */
  lemma GaugesAtMostFour(memory: set<MemoryKey>, keys: set<SeriesKey>)
    requires forall mk :: mk in memory ==> StoreSafety.NamedBy(keys, mk.name)
    ensures |memory| <= 4 * |keys|
    decreases |keys|
  {
    if keys == {} {
      assert memory == {};
    } else {
      var key :| key in keys;
      var mine := FourOf(key.Name());
      forall mk | mk in memory - mine
        ensures StoreSafety.NamedBy(keys - {key}, mk.name)
      {
        AmongFour(mk);
        var other :| other in keys && other.Name() == mk.name;
        assert other in keys - {key};
      }
      GaugesAtMostFour(memory - mine, keys - {key});
      SubsetCard(memory, mine + (memory - mine));
      UnionCard(mine, memory - mine);
    }
  }

  /** The sweep bounds cardinality: with sweeps at most `interval` apart, live series number
      at most the events of the last `Window`, gauges at most four times that, and every
      scheduled deletion was noticed within the grace plus one interval. */
  lemma CardinalityBound(h: seq<Op>, times: seq<nat>, lag: nat, ttl: nat, t: nat, interval: nat)
    requires Timed(h, times, lag, ttl) && SweptLately(h, times, t, interval)
    requires t <= U64_MAX
    ensures var s := Replay(h);
            var events := CountInWindow(h, t, Window(ttl, lag, interval));
            && |s.kills| <= events && |s.lastTimestamp| <= events && |s.lastSeen| <= events
            && |s.memory| <= 4 * events
            && (forall pod :: pod in s.deletedAfter ==>
                  exists j: nat :: IsLatestNotice(h, pod, j) && t <= h[j].now + DELETED_POD_GRACE_SECONDS + interval)
  {
    var s, window := Replay(h), Window(ttl, lag, interval);
    var since := FreshNow(h, times, lag, ttl, t, interval);
    TrackedInWindow(h, since, t, Max(ttl, lag + 1), interval);
    KeysAtMostEvents(h, t, window);
    SubsetCard(s.lastSeen.Keys, KeysInWindow(h, t, window));
    StoreSafety.GaugesOwned(h);
    assert |s.kills| == |s.kills.Keys| && |s.lastTimestamp| == |s.lastTimestamp.Keys|;
    GaugesAtMostFour(s.memory.Keys, s.lastSeen.Keys);
    forall pod | pod in s.deletedAfter
      ensures exists j: nat :: IsLatestNotice(h, pod, j) && t <= h[j].now + DELETED_POD_GRACE_SECONDS + interval
    {
      var j := DueIsLatestNotice(h, pod);
      assert IsLatestNotice(h, pod, j);
    }
  }

  lemma TrackedInWindow(h: seq<Op>, since: nat, t: nat, age: nat, interval: nat)
    requires FreshAsOf(Replay(h), since, age) && t <= since + interval
    ensures Replay(h).lastSeen.Keys <= KeysInWindow(h, t, age + interval)
  {
    forall key | key in Replay(h).lastSeen
      ensures key in KeysInWindow(h, t, age + interval)
    {
      var i := StampIsLatestEvent(h, key);
      assert InWindow(h[i], t, age + interval) && h[i] in h;
    }
  }
}
