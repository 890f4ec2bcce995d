/** The watch loop: take an event or a tick, process the event, report drops, stamp the
    heartbeat. One `Wakeup` scripts what the world does during one turn of the loop. */
module WatchLoop {
  import opened Common
  import SeriesStore
  import StoreHistory
  import StoreSafety
  import MetricsCollector
  import EventSource
  import DropCounter
  import Health

  /** Firings that land during the turn; whether the ticker is polled first and is due; whether
      the readiness wait fails; what resolution finds for an event taken now; the clock at the
      event and at the stamp; whether the drop map can be read. */
  datatype Wakeup = Wakeup(
    arrivals: seq<seq<EventSource.Firing>>, tickFirst: bool, broken: bool,
    identity: Option<ContainerIdentity>, at: U64, readable: bool, beatAt: nat)

  function NodeLabel(node: Option<string>): string {
    node.GetOr("unknown")
  }

  /** The raw events a history recorded, oldest first. */
  function RawEvents(h: seq<SeriesStore.Op>): seq<OomKillEvent> {
    if h == [] then []
    else
      RawEvents(h[..|h| - 1]) + if h[|h| - 1].Record? then [h[|h| - 1].event.raw] else []
  }

  /** Everything recorded was labelled with this node. */
  predicate AllOnNode(h: seq<SeriesStore.Op>, nodeLabel: string) {
    forall i :: 0 <= i < |h| ==> h[i].Record? && SeriesStore.KeyOf(h[i].event).node == nodeLabel
  }

  lemma {:induction false} OneNodeCountsAll(h: seq<SeriesStore.Op>, nodeLabel: string)
    requires AllOnNode(h, nodeLabel)
    ensures StoreHistory.CountNode(h, nodeLabel) == |RawEvents(h)|
  {
    if h != [] {
      OneNodeCountsAll(h[..|h| - 1], nodeLabel);
    }
  }

  function Accepted(script: seq<Wakeup>, n: nat): seq<OomKillEvent>
    requires n <= |script|
  {
    if n == 0 then []
    else Accepted(script, n - 1) + EventSource.AllAccepted(script[n - 1].arrivals, |script[n - 1].arrivals|)
  }

  function Drops(script: seq<Wakeup>, n: nat): nat
    requires n <= |script|
  {
    if n == 0 then 0
    else Drops(script, n - 1) + EventSource.AllDrops(script[n - 1].arrivals, |script[n - 1].arrivals|)
  }

  predicate OnCpus(script: seq<Wakeup>, cpus: nat) {
    forall i :: 0 <= i < |script| ==> EventSource.AllOnCpus(script[i].arrivals, cpus)
  }

  /** The reports so far all went under `nodeLabel`, never moved back, and are no more than `drops`. */
  ghost predicate ReportsUpTo(readings: seq<DropCounter.Reading>, nodeLabel: string, drops: nat) {
    DropCounter.AllUnder(readings, nodeLabel) && DropCounter.NeverFell(readings) && DropCounter.Last(readings) <= drops
  }

  /** The call that records `raw` as taken at `at`: field by field, the node as given, and the
      container as resolved if there is a resolver and it found one, else no container at all. */
  predicate RecordedAs(op: SeriesStore.Op, raw: OomKillEvent, node: Option<string>,
                       identity: Option<ContainerIdentity>, at: U64)
  {
    && op.Record?
    && op.event.raw == raw && op.event.nodeName == node && op.event.timestamp == at
    && if node.Some? && identity.Some? then
         && op.event.namespace == Some(identity.value.namespace)
         && op.event.podName == Some(identity.value.podName)
         && op.event.containerName == Some(identity.value.containerName)
         && op.event.containerId == Some(identity.value.containerId)
         && op.event.imageId == Some(identity.value.imageId)
       else
         && op.event.namespace == None && op.event.podName == None && op.event.containerName == None
         && op.event.containerId == None && op.event.imageId == None
  }

  /** From `before` to `after` one call more: `raw` recorded as this wakeup has it. */
  predicate Took(before: seq<SeriesStore.Op>, after: seq<SeriesStore.Op>, raw: OomKillEvent, node: Option<string>, w: Wakeup) {
    && |after| == |before| + 1 && after[..|before|] == before
    && RecordedAs(after[|before|], raw, node, w.identity, w.at)
  }

  lemma TookRecords(before: seq<SeriesStore.Op>, after: seq<SeriesStore.Op>, raw: OomKillEvent, node: Option<string>, w: Wakeup)
    requires Took(before, after, raw, node, w)
    ensures RawEvents(after) == RawEvents(before) + [raw]
    ensures AllOnNode(before, NodeLabel(node)) ==> AllOnNode(after, NodeLabel(node))
  {
    assert after[..|after| - 1] == before;
    if AllOnNode(before, NodeLabel(node)) {
      forall i | 0 <= i < |after|
        ensures after[i].Record? && SeriesStore.KeyOf(after[i].event).node == NodeLabel(node)
      {
        assert i < |before| ==> after[i] == before[i];
      }
    }
  }

  /** Resolve, enrich, record: the node is known iff there is a resolver, the identity only if
      resolution also found one. */
  method ProcessEvent(raw: OomKillEvent, node: Option<string>, recorder: MetricsCollector.MetricsCollector, w: Wakeup)
    requires recorder.Valid()
    modifies recorder
    ensures recorder.Valid() && recorder.readings == old(recorder.readings)
    ensures Took(old(recorder.history), recorder.history, raw, node, w)
  {
    var identity := if node.Some? then w.identity else None;
    var enriched := Enrich(raw, node, identity, w.at);
    recorder.RecordOomEvent(enriched);
  }

  /** Process an event just taken, then report the drop total if it can be read. */
  method HandleEvent(source: EventSource.RingBufSource, raw: OomKillEvent, node: Option<string>,
                     recorder: MetricsCollector.MetricsCollector, w: Wakeup)
    requires recorder.Valid()
    modifies recorder
    ensures recorder.Valid()
    ensures Took(old(recorder.history), recorder.history, raw, node, w)
    ensures recorder.readings == old(recorder.readings) +
            if w.readable then [DropCounter.Reading(NodeLabel(node), source.DropCount())] else []
  {
    ProcessEvent(raw, node, recorder, w);
    var total := source.DroppedTotal(w.readable);
    if total.Some? {
      recorder.RecordDroppedTotal(NodeLabel(node), total.value);
    }
  }

  /** Handle what the source's turn came to. */
  method HandleOutcome(source: EventSource.RingBufSource, outcome: EventSource.Outcome, node: Option<string>,
                       recorder: MetricsCollector.MetricsCollector, w: Wakeup)
      returns (ended: bool)
    requires recorder.Valid()
    modifies recorder
    ensures recorder.Valid()
    ensures outcome.Yielded? ==> Took(old(recorder.history), recorder.history, outcome.event, node, w)
    ensures !outcome.Yielded? ==> recorder.history == old(recorder.history)
    ensures recorder.readings == old(recorder.readings) +
            if outcome.Yielded? && w.readable then [DropCounter.Reading(NodeLabel(node), source.DropCount())] else []
    ensures ended <==> outcome.Ended?
  {
    ended := outcome.Ended?;
    if outcome.Yielded? {
      HandleEvent(source, outcome.event, node, recorder, w);
    }
  }

  /** Does this wakeup end the loop? Only a broken wait does, and only with nothing pending. */
  predicate Ends(w: Wakeup, pending: seq<OomKillEvent>) {
    !w.tickFirst && w.broken && pending == []
  }

  /** Of what was in flight or lands during the turn, `waiting`, does the turn take the first? */
  predicate Takes(w: Wakeup, pending: seq<OomKillEvent>, waiting: seq<OomKillEvent>) {
    !w.tickFirst && !Ends(w, pending) && waiting != []
  }

  function Taken(w: Wakeup, pending: seq<OomKillEvent>, waiting: seq<OomKillEvent>): seq<OomKillEvent> {
    if Takes(w, pending, waiting) then [waiting[0]] else []
  }

  /** The source yields exactly when there is something to take, and then the first of it. */
  lemma YieldsTheFirst(outcome: EventSource.Outcome, inFlight: seq<OomKillEvent>, first: seq<OomKillEvent>,
                       w: Wakeup, pending: seq<OomKillEvent>, next: nat)
    requires next <= |w.arrivals| && !w.tickFirst
    requires EventSource.Handed(outcome) + inFlight == first + EventSource.AllAccepted(w.arrivals, next)
    requires outcome.Ended? <==> w.broken && pending == []
    requires outcome.Cancelled? ==> inFlight == [] && next == |w.arrivals|
    ensures var waiting := first + EventSource.AllAccepted(w.arrivals, |w.arrivals|);
            && (outcome.Yielded? <==> Takes(w, pending, waiting))
            && (outcome.Yielded? ==> outcome.event == waiting[0])
  {
    EventSource.AcceptedInOrder(w.arrivals, next, |w.arrivals|);
    if outcome.Yielded? {
      assert (EventSource.Handed(outcome) + inFlight)[0] == outcome.event;
    }
  }

  /** Poll the source: it yields the first event waiting or landing, exactly when the turn takes one. */
  method Poll(source: EventSource.RingBufSource, w: Wakeup) returns (outcome: EventSource.Outcome, next: nat)
    requires source.Valid() && EventSource.AllOnCpus(w.arrivals, source.dropped.Length) && !w.tickFirst
    modifies source, source.dropped
    ensures source.Valid() && next <= |w.arrivals|
    ensures source.DropCount() == old(source.DropCount()) + EventSource.AllDrops(w.arrivals, next)
    ensures outcome.Ended? <==> Ends(w, old(source.pending))
    ensures outcome.Ended? ==> next == 0
    ensures var waiting := old(source.InFlight()) + EventSource.AllAccepted(w.arrivals, |w.arrivals|);
            && (outcome.Yielded? <==> Takes(w, old(source.pending), waiting))
            && (outcome.Yielded? ==> outcome.event == waiting[0])
            && Taken(w, old(source.pending), waiting) + source.InFlight() ==
               old(source.InFlight()) + EventSource.AllAccepted(w.arrivals, next)
  {
    outcome, next := source.Next(w.arrivals, w.broken);
    YieldsTheFirst(outcome, source.InFlight(), old(source.InFlight()), w, old(source.pending), next);
  }

  /** Race the source against the ticker and handle an event if it yields one. */
  method TakeOne(source: EventSource.RingBufSource, node: Option<string>,
                 recorder: MetricsCollector.MetricsCollector, w: Wakeup)
      returns (next: nat, ended: bool)
    requires source.Valid() && recorder.Valid() && EventSource.AllOnCpus(w.arrivals, source.dropped.Length)
    modifies source, source.dropped, recorder
    ensures source.Valid() && recorder.Valid() && next <= |w.arrivals|
    ensures source.DropCount() == old(source.DropCount()) + EventSource.AllDrops(w.arrivals, next)
    ensures ended <==> Ends(w, old(source.pending))
    ensures w.tickFirst || ended ==> next == 0
    ensures var waiting := old(source.InFlight()) + EventSource.AllAccepted(w.arrivals, |w.arrivals|);
            if Takes(w, old(source.pending), waiting) then
              && Took(old(recorder.history), recorder.history, waiting[0], node, w)
              && recorder.readings == old(recorder.readings) +
                 (if w.readable then [DropCounter.Reading(NodeLabel(node), source.DropCount())] else [])
            else
              recorder.history == old(recorder.history) && recorder.readings == old(recorder.readings)
    ensures var waiting := old(source.InFlight()) + EventSource.AllAccepted(w.arrivals, |w.arrivals|);
            Taken(w, old(source.pending), waiting) + source.InFlight() ==
            old(source.InFlight()) + EventSource.AllAccepted(w.arrivals, next)
  {
    next, ended := 0, false;
    if !w.tickFirst {
      var outcome;
      outcome, next := Poll(source, w);
      ended := HandleOutcome(source, outcome, node, recorder, w);
    }
  }

  /** One turn: the first event waiting or landing is recorded, or nothing is; the heartbeat is
      stamped unless the source has ended. */
  method Turn(source: EventSource.RingBufSource, node: Option<string>,
              recorder: MetricsCollector.MetricsCollector, health: Health.Health, w: Wakeup)
      returns (ended: bool)
    requires source.Valid() && recorder.Valid() && EventSource.AllOnCpus(w.arrivals, source.dropped.Length)
    modifies source, source.dropped, recorder, health`lastBeatSeconds
    ensures source.Valid() && recorder.Valid()
    ensures source.DropCount() == old(source.DropCount()) + EventSource.AllDrops(w.arrivals, |w.arrivals|)
    ensures ended <==> Ends(w, old(source.pending))
    ensures health.lastBeatSeconds == if ended then old(health.lastBeatSeconds) else w.beatAt
    ensures var waiting := old(source.InFlight()) + EventSource.AllAccepted(w.arrivals, |w.arrivals|);
            if Takes(w, old(source.pending), waiting) then
              && Took(old(recorder.history), recorder.history, waiting[0], node, w)
              && Reported(old(recorder.readings), recorder.readings, w, NodeLabel(node), old(source.DropCount()), source.DropCount())
            else
              recorder.history == old(recorder.history) && recorder.readings == old(recorder.readings)
    ensures var waiting := old(source.InFlight()) + EventSource.AllAccepted(w.arrivals, |w.arrivals|);
            Taken(w, old(source.pending), waiting) + source.InFlight() == waiting
  {
    ghost var first, drops := source.InFlight(), source.DropCount();
    ghost var waiting := first + EventSource.AllAccepted(w.arrivals, |w.arrivals|);
    ghost var taken := Taken(w, source.pending, waiting);
    var next;
    next, ended := TakeOne(source, node, recorder, w);
    FireRemaining(source, w.arrivals, next, taken, first, drops);
    if !ended {
      health.Beat(w.beatAt);
    }
  }

  /** One report more, of a total between these two, if the map could be read. */
  predicate Reported(before: seq<DropCounter.Reading>, after: seq<DropCounter.Reading>, w: Wakeup, nodeLabel: string,
                     low: nat, high: nat)
  {
    if w.readable then
      && |after| == |before| + 1 && after[..|before|] == before
      && after[|before|].node == nodeLabel && low <= after[|before|].total <= high
    else after == before
  }

  method FireOneMore(source: EventSource.RingBufSource, batches: seq<seq<EventSource.Firing>>, i: nat,
                     ghost handed: seq<OomKillEvent>, ghost first: seq<OomKillEvent>)
    requires source.Valid() && EventSource.AllOnCpus(batches, source.dropped.Length) && i < |batches|
    requires handed + source.InFlight() == first + EventSource.AllAccepted(batches, i)
    modifies source`ring, source`ready, source.dropped
    ensures source.Valid()
    ensures handed + source.InFlight() == first + EventSource.AllAccepted(batches, i + 1)
    ensures source.DropCount() - EventSource.AllDrops(batches, i + 1) == old(source.DropCount()) - EventSource.AllDrops(batches, i)
    ensures source.DropCount() >= old(source.DropCount())
  {
    ghost var inFlight, accepted := source.InFlight(), EventSource.Accepted(batches[i], |batches[i]|);
    source.FireBatch(batches[i]);
    AcceptedAppends(handed, inFlight, accepted, first, batches, i);
  }

  lemma AcceptedAppends(handed: seq<OomKillEvent>, inFlight: seq<OomKillEvent>, accepted: seq<OomKillEvent>,
                        first: seq<OomKillEvent>, batches: seq<seq<EventSource.Firing>>, i: nat)
    requires i < |batches| && accepted == EventSource.Accepted(batches[i], |batches[i]|)
    requires handed + inFlight == first + EventSource.AllAccepted(batches, i)
    ensures handed + (inFlight + accepted) == first + EventSource.AllAccepted(batches, i + 1)
  {
    var before := EventSource.AllAccepted(batches, i);
    assert handed + (inFlight + accepted) == handed + inFlight + accepted;
    assert first + before + accepted == first + (before + accepted);
  }

  /** The firings of the turn that land after the source was polled. */
  method FireRemaining(source: EventSource.RingBufSource, batches: seq<seq<EventSource.Firing>>, from: nat,
                       ghost handed: seq<OomKillEvent>, ghost first: seq<OomKillEvent>, ghost drops: nat)
    requires source.Valid() && EventSource.AllOnCpus(batches, source.dropped.Length) && from <= |batches|
    requires handed + source.InFlight() == first + EventSource.AllAccepted(batches, from)
    requires source.DropCount() == drops + EventSource.AllDrops(batches, from)
    modifies source`ring, source`ready, source.dropped
    ensures source.Valid()
    ensures handed + source.InFlight() == first + EventSource.AllAccepted(batches, |batches|)
    ensures source.DropCount() == drops + EventSource.AllDrops(batches, |batches|)
    ensures source.DropCount() >= old(source.DropCount())
  {
    for i := from to |batches|
      invariant source.Valid()
      invariant handed + source.InFlight() == first + EventSource.AllAccepted(batches, i)
      invariant source.DropCount() == drops + EventSource.AllDrops(batches, i) >= old(source.DropCount())
    {
      FireOneMore(source, batches, i, handed, first);
    }
  }

  // ----- whole scripts -----

  /** The ledger of a run: what was recorded, in order, and what is in flight is what was in flight
      at first and what was accepted; reports never moved back. */
  ghost predicate Conserves(recorded: seq<OomKillEvent>, inFlight: seq<OomKillEvent>, first: seq<OomKillEvent>,
                            script: seq<Wakeup>, n: nat)
  {
    n <= |script| && recorded + inFlight == first + Accepted(script, n)
  }

  /** How many of `waiting` events and those a script brings its first `n` turns are sure to record:
      a turn that polls an unbroken source takes one whenever one is waiting or lands. */
  function SureToRecord(waiting: nat, script: seq<Wakeup>, n: nat): nat
    requires n <= |script|
  {
    if n == 0 then 0
    else
      var before := SureToRecord(waiting, script, n - 1);
      var w := script[n - 1];
      before + if !w.tickFirst && !w.broken && before < waiting + |Accepted(script, n)| then 1 else 0
  }

  /** The turns from `m` up to `n` that poll an unbroken source. */
  function Polls(script: seq<Wakeup>, m: nat, n: nat): nat
    requires m <= n <= |script|
  {
    if m == n then 0
    else Polls(script, m, n - 1) + if !script[n - 1].tickFirst && !script[n - 1].broken then 1 else 0
  }

  lemma AcceptedGrows(script: seq<Wakeup>, m: nat, n: nat)
    requires m <= n <= |script|
    ensures |Accepted(script, m)| <= |Accepted(script, n)|
  {
    if m < n {
      AcceptedGrows(script, m, n - 1);
    }
  }

  /** Each poll serves one: after as many polls as events were waiting at turn `m`, unrecorded ones
      of them are recorded, whatever else happens meanwhile. */
  lemma {:induction false} PollsServe(waiting: nat, script: seq<Wakeup>, m: nat, n: nat)
    requires m <= n <= |script|
    ensures SureToRecord(waiting, script, n) >=
            Min(waiting + |Accepted(script, m)|, SureToRecord(waiting, script, m) + Polls(script, m, n))
    decreases n - m
  {
    if m < n {
      PollsServe(waiting, script, m, n - 1);
      AcceptedGrows(script, m, n);
    }
  }

  /** One turn keeps the ledger. */
  lemma ConservesTurn(recorded: seq<OomKillEvent>, before: seq<OomKillEvent>, taken: seq<OomKillEvent>,
                      after: seq<OomKillEvent>, first: seq<OomKillEvent>, script: seq<Wakeup>, n: nat)
    requires n < |script| && Conserves(recorded, before, first, script, n)
    requires taken + after == before + EventSource.AllAccepted(script[n].arrivals, |script[n].arrivals|)
    ensures Conserves(recorded + taken, after, first, script, n + 1)
  {
    var accepted := EventSource.AllAccepted(script[n].arrivals, |script[n].arrivals|);
    assert recorded + taken + after == recorded + (taken + after);
    assert recorded + (before + accepted) == recorded + before + accepted;
    assert first + Accepted(script, n) + accepted == first + (Accepted(script, n) + accepted);
  }

  lemma SureTurn(waiting: nat, script: seq<Wakeup>, n: nat, recorded: nat, pending: seq<OomKillEvent>, all: seq<OomKillEvent>)
    requires n < |script| && SureToRecord(waiting, script, n) <= recorded
    requires recorded + |all| == waiting + |Accepted(script, n + 1)|
    ensures SureToRecord(waiting, script, n + 1) <= recorded + if Takes(script[n], pending, all) then 1 else 0
  {
  }

  lemma ReportedUpTo(before: seq<DropCounter.Reading>, after: seq<DropCounter.Reading>, w: Wakeup, nodeLabel: string,
                     low: nat, high: nat)
    requires ReportsUpTo(before, nodeLabel, low) && low <= high && Reported(before, after, w, nodeLabel, low, high)
    ensures ReportsUpTo(after, nodeLabel, high)
  {
    if w.readable {
      forall i | 0 < i < |after|
        ensures after[i - 1].total <= after[i].total
      {
        assert after[i - 1] == before[i - 1];
        assert i < |before| ==> after[i] == before[i];
      }
      forall r | r in after
        ensures r.node == nodeLabel
      {
        var i :| 0 <= i < |after| && after[i] == r;
        assert i < |before| ==> before[i] in before && after[i] == before[i];
      }
    }
  }

  /** What the loop keeps: after `n` turns, with these calls and reports made, these events in
      flight and this many dropped. */
  ghost predicate Going(history: seq<SeriesStore.Op>, readings: seq<DropCounter.Reading>, inFlight: seq<OomKillEvent>,
                        drops: nat, nodeLabel: string, first: seq<OomKillEvent>, script: seq<Wakeup>, n: nat)
  {
    && Conserves(RawEvents(history), inFlight, first, script, n)
    && ReportsUpTo(readings, nodeLabel, drops)
    && AllOnNode(history, nodeLabel)
    && SureToRecord(|first|, script, n) <= |RawEvents(history)|
  }

  lemma GoingOn(history: seq<SeriesStore.Op>, history': seq<SeriesStore.Op>,
                readings: seq<DropCounter.Reading>, readings': seq<DropCounter.Reading>,
                pending: seq<OomKillEvent>, inFlight: seq<OomKillEvent>, inFlight': seq<OomKillEvent>,
                drops: nat, drops': nat, node: Option<string>, first: seq<OomKillEvent>, script: seq<Wakeup>, n: nat)
    requires n < |script| && drops <= drops' && Going(history, readings, inFlight, drops, NodeLabel(node), first, script, n)
    requires var w := script[n];
             var waiting := inFlight + EventSource.AllAccepted(w.arrivals, |w.arrivals|);
             && Taken(w, pending, waiting) + inFlight' == waiting
             && if Takes(w, pending, waiting) then
                  && Took(history, history', waiting[0], node, w)
                  && Reported(readings, readings', w, NodeLabel(node), drops, drops')
                else history' == history && readings' == readings
    ensures Going(history', readings', inFlight', drops', NodeLabel(node), first, script, n + 1)
  {
    var w := script[n];
    var waiting := inFlight + EventSource.AllAccepted(w.arrivals, |w.arrivals|);
    ConservesTurn(RawEvents(history), inFlight, Taken(w, pending, waiting), inFlight', first, script, n);
    SureTurn(|first|, script, n, |RawEvents(history)|, pending, waiting);
    if Takes(w, pending, waiting) {
      TookRecords(history, history', waiting[0], node, w);
      ReportedUpTo(readings, readings', w, NodeLabel(node), drops, drops');
    } else {
      assert RawEvents(history) + [] == RawEvents(history);
    }
  }

  /** Turn `n` of a script, in terms of the whole script up to it. */
  method TurnOf(source: EventSource.RingBufSource, node: Option<string>, recorder: MetricsCollector.MetricsCollector,
                health: Health.Health, script: seq<Wakeup>, n: nat, ghost first: seq<OomKillEvent>)
      returns (ended: bool)
    requires source.Valid() && recorder.Valid() && OnCpus(script, source.dropped.Length) && n < |script|
    requires Going(recorder.history, recorder.readings, source.InFlight(), source.DropCount(), NodeLabel(node), first, script, n)
    modifies source, source.dropped, recorder, health`lastBeatSeconds
    ensures source.Valid() && recorder.Valid()
    ensures Going(recorder.history, recorder.readings, source.InFlight(), source.DropCount(), NodeLabel(node), first, script, n + 1)
    ensures source.DropCount() - Drops(script, n + 1) == old(source.DropCount()) - Drops(script, n)
    ensures ended <==> Ends(script[n], old(source.pending))
  {
    ghost var history, readings, pending := recorder.history, recorder.readings, source.pending;
    ghost var inFlight, drops := source.InFlight(), source.DropCount();
    ended := Turn(source, node, recorder, health, script[n]);
    GoingOn(history, recorder.history, readings, recorder.readings, pending, inFlight, source.InFlight(),
            drops, source.DropCount(), node, first, script, n);
  }

  /** The loop over any finite script, to its end or to the end of the source. Whatever the
      pattern of ticks, cancellations and arrivals, what was recorded is exactly what the ring
      accepted, in order, less what is still in flight; every turn that polled an unbroken source
      with something to take recorded it; all of it is on the node's counter; and the drop counter
      shows the last total reported, which the drop count has not fallen behind. */
  method Run(source: EventSource.RingBufSource, node: Option<string>,
             recorder: MetricsCollector.MetricsCollector, health: Health.Health, script: seq<Wakeup>)
      returns (turns: nat)
    requires source.Valid() && recorder.Valid() && OnCpus(script, source.dropped.Length)
    requires recorder.history == [] && recorder.readings == []
    modifies source, source.dropped, recorder, health`lastBeatSeconds
    ensures source.Valid() && recorder.Valid() && turns <= |script|
    ensures RawEvents(recorder.history) + source.InFlight() == old(source.InFlight()) + Accepted(script, turns)
    ensures SureToRecord(old(|source.InFlight()|), script, turns) <= |RawEvents(recorder.history)|
    ensures source.DropCount() == old(source.DropCount()) + Drops(script, turns)
    ensures Get(recorder.oomKillsPerNodeTotal, NodeLabel(node)) == |RawEvents(recorder.history)|
    ensures Get(recorder.oomEventsDroppedTotal, NodeLabel(node)) == DropCounter.Last(recorder.readings) <= source.DropCount()
    ensures turns < |script| ==> turns > 0 && script[turns - 1].broken && !script[turns - 1].tickFirst
  {
    turns := 0;
    var ended := false;
    while turns < |script| && !ended
      invariant source.Valid() && recorder.Valid() && turns <= |script|
      invariant Going(recorder.history, recorder.readings, source.InFlight(), source.DropCount(), NodeLabel(node),
                      old(source.InFlight()), script, turns)
      invariant source.DropCount() == old(source.DropCount()) + Drops(script, turns)
      invariant ended ==> turns > 0 && script[turns - 1].broken && !script[turns - 1].tickFirst
      decreases |script| - turns
    {
      ended := TurnOf(source, node, recorder, health, script, turns, old(source.InFlight()));
      turns := turns + 1;
    }
    OneNodeCountsAll(recorder.history, NodeLabel(node));
    StoreSafety.KillsConserved(recorder.history, NodeLabel(node));
    DropCounter.ExactIffNeverFell(recorder.readings, NodeLabel(node));
  }
}
