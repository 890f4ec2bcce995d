/** The path of one event as a step protocol: the probe enqueues it or counts a drop, the ring
    source drains it into its pending queue, the watch loop takes it, records it and reports
    drops. Kernel, reactor and loop take their steps in any order. */
module Pipeline {
  import opened Common
  import DropCounter

  /** Where the watch loop is. `Draining` and `Drained` hold the readiness guard, with the
      tick it was taken at; `InNext` is inside `next` with no await since it last looked. */
  datatype Loop =
    | Selecting
    | InNext
    | Parked
    | Draining(seen: nat)
    | Drained(seen: nat)
    | Processing(event: OomKillEvent)
    | Reporting
    | Beating

  datatype State = State(
    ring: seq<OomKillEvent>,
    dropped: seq<nat>,
    pending: seq<OomKillEvent>,
    loop: Loop,
    recorded: seq<OomKillEvent>,
    readings: seq<DropCounter.Reading>,
    // the reactor's view of the ring: a ready bit, how often it was set, an edge not yet seen
    ready: bool, tick: nat, edge: bool,
    // what the probe did: events it enqueued, in order, and how many firings it read
    accepted: seq<OomKillEvent>, fired: nat)

  function Init(cpus: nat): State {
    State([], seq(cpus, _ => 0), [], Selecting, [], [], false, 0, false, [], 0)
  }

  datatype Action =
    // the kernel: a firing that finds room, or one that does not; `wake` is whether the
    // push raises an edge, which it must when the consumer had caught up
    | Push(event: OomKillEvent, wake: bool)
    | Drop(cpu: nat)
    // the reactor learns of an edge
    | Deliver
    // the loop
    | PollSource
    | Take
    | Park
    | Wake
    | Read
    | SeeEmpty
    | ClearReady
    | Tick
    | Finish
    | Report(node: string)
    | ReportFailed
    | Beat

  predicate Enabled(s: State, a: Action) {
    match a
    case Push(_, wake) => s.ring == [] ==> wake
    case Drop(cpu) => cpu < |s.dropped|
    case Deliver => s.edge
    case PollSource => s.loop.Selecting?
    case Take => s.loop.InNext? && s.pending != []
    case Park => s.loop.InNext? && s.pending == []
    case Wake => s.loop.Parked? && s.ready
    case Read => s.loop.Draining? && s.ring != []
    case SeeEmpty => s.loop.Draining? && s.ring == []
    case ClearReady => s.loop.Drained?
    case Tick => s.loop.Selecting? || s.loop.Parked?
    case Finish => s.loop.Processing?
    case Report(_) => s.loop.Reporting?
    case ReportFailed => s.loop.Reporting?
    case Beat => s.loop.Beating?
  }

  function Total(dropped: seq<nat>): nat {
    if dropped == [] then 0 else dropped[0] + Total(dropped[1..])
  }

  function Do(s: State, a: Action): State
    requires Enabled(s, a)
  {
    match a
    case Push(e, wake) =>
      s.(ring := s.ring + [e], edge := s.edge || wake, accepted := s.accepted + [e], fired := s.fired + 1)
    case Drop(cpu) => s.(dropped := s.dropped[cpu := s.dropped[cpu] + 1], fired := s.fired + 1)
    case Deliver => s.(ready := true, tick := s.tick + 1, edge := false)
    case PollSource => s.(loop := InNext)
    case Take => s.(pending := s.pending[1..], loop := Processing(s.pending[0]))
    case Park => s.(loop := Parked)
    case Wake => s.(loop := Draining(s.tick))
    case Read => s.(ring := s.ring[1..], pending := s.pending + [s.ring[0]])
    case SeeEmpty => s.(loop := Drained(s.loop.seen))
    // The guard clears the edge it saw; a later one survives it.
    case ClearReady => s.(ready := s.ready && s.tick != s.loop.seen, loop := InNext)
    // The tick wins the race: whatever `next` was doing is dropped where it stands.
    case Tick => s.(loop := Beating)
    case Finish => s.(recorded := s.recorded + [s.loop.event], loop := Reporting)
    case Report(node) => s.(readings := s.readings + [DropCounter.Reading(node, Total(s.dropped))], loop := Beating)
    case ReportFailed => s.(loop := Beating)
    case Beat => s.(loop := Selecting)
  }

  predicate StepsTo(p: State, a: Action, s: State) {
    Enabled(p, a) && s == Do(p, a)
  }

  /** The actions can happen one after another from the start, leading to `s`. */
  ghost predicate Leads(cpus: nat, acts: seq<Action>, s: State) {
    if acts == [] then s == Init(cpus)
    else
      var before, a := acts[..|acts| - 1], acts[|acts| - 1];
      exists p :: Leads(cpus, before, p) && StepsTo(p, a, s)
  }

  lemma Extend(cpus: nat, acts: seq<Action>, s: State, a: Action)
    requires Leads(cpus, acts, s) && Enabled(s, a)
    ensures Leads(cpus, acts + [a], Do(s, a))
  {
    assert (acts + [a])[..|acts|] == acts;
    assert StepsTo(s, a, Do(s, a));
  }

  // ----- the invariants -----

  function InHand(s: State): seq<OomKillEvent> {
    if s.loop.Processing? then [s.loop.event] else []
  }

  predicate OrderKept(s: State) {
    s.accepted == s.recorded + InHand(s) + s.pending + s.ring
  }

  predicate EveryFiringCounted(s: State) {
    s.fired == |s.accepted| + Total(s.dropped)
  }

  predicate ParkedHoldsNothing(s: State) {
    s.loop.Parked? ==> s.pending == []
  }

  /** Records in the ring have an edge that is set, on its way, or about to be drained. */
  predicate NoLostWakeup(s: State) {
    match s.loop
    case Draining(seen) => s.ready && seen <= s.tick
    case Drained(seen) => s.ready && seen <= s.tick && (s.ring != [] ==> s.edge || seen < s.tick)
    case _ => s.ring != [] ==> s.ready || s.edge
  }

  predicate ReportsBehind(s: State) {
    DropCounter.NeverFell(s.readings) && DropCounter.Last(s.readings) <= Total(s.dropped)
  }

  predicate Good(s: State) {
    OrderKept(s) && EveryFiringCounted(s) && ParkedHoldsNothing(s) && NoLostWakeup(s) && ReportsBehind(s)
  }

  lemma {:induction false} TotalOfZeros(n: nat)
    ensures Total(seq(n, _ => 0)) == 0
  {
    if n > 0 {
      assert seq(n, _ => 0)[1..] == seq(n - 1, _ => 0);
      TotalOfZeros(n - 1);
    }
  }

  lemma {:induction false} TotalOneMore(dropped: seq<nat>, cpu: nat)
    requires cpu < |dropped|
    ensures Total(dropped[cpu := dropped[cpu] + 1]) == Total(dropped) + 1
  {
    if cpu > 0 {
      assert dropped[cpu := dropped[cpu] + 1][1..] == dropped[1..][cpu - 1 := dropped[1..][cpu - 1] + 1];
      TotalOneMore(dropped[1..], cpu - 1);
    }
  }

  lemma OrderStep(s: State, a: Action)
    requires OrderKept(s) && Enabled(s, a)
    ensures OrderKept(Do(s, a))
  {
  }

  lemma CountStep(s: State, a: Action)
    requires EveryFiringCounted(s) && Enabled(s, a)
    ensures EveryFiringCounted(Do(s, a))
  {
    if a.Drop? {
      TotalOneMore(s.dropped, a.cpu);
    }
  }

  lemma ParkedStep(s: State, a: Action)
    requires ParkedHoldsNothing(s) && Enabled(s, a)
    ensures ParkedHoldsNothing(Do(s, a))
  {
  }

  lemma WakeupStep(s: State, a: Action)
    requires NoLostWakeup(s) && Enabled(s, a)
    ensures NoLostWakeup(Do(s, a))
  {
  }

  lemma ReportsStep(s: State, a: Action)
    requires ReportsBehind(s) && Enabled(s, a)
    ensures ReportsBehind(Do(s, a))
  {
    if a.Drop? {
      TotalOneMore(s.dropped, a.cpu);
    }
  }

  lemma GoodStep(s: State, a: Action)
    requires Good(s) && Enabled(s, a)
    ensures Good(Do(s, a))
  {
    OrderStep(s, a);
    CountStep(s, a);
    ParkedStep(s, a);
    WakeupStep(s, a);
    ReportsStep(s, a);
  }

  lemma {:induction false} AlwaysGood(cpus: nat, acts: seq<Action>, s: State)
    requires Leads(cpus, acts, s)
    ensures Good(s)
  {
    if acts == [] {
      TotalOfZeros(cpus);
    } else {
      var p, a := acts[..|acts| - 1], acts[|acts| - 1];
      var before :| Leads(cpus, p, before) && StepsTo(before, a, s);
      AlwaysGood(cpus, p, before);
      GoodStep(before, a);
    }
  }

  /** Conservation over every interleaving: each firing read is recorded, in hand, pending, in
      the ring or counted as dropped; and events are recorded in the order they were enqueued,
      none lost or repeated by ticks, cancellations or partial drains. */
  lemma Conservation(cpus: nat, acts: seq<Action>, s: State)
    requires Leads(cpus, acts, s)
    ensures s.fired == |s.recorded| + |InHand(s)| + |s.pending| + |s.ring| + Total(s.dropped)
    ensures s.recorded + InHand(s) + s.pending + s.ring == s.accepted
  {
    AlwaysGood(cpus, acts, s);
  }

  /** Dropping the parked `next` loses nothing, and a parked loop with records waiting has its
      wakeup set or on the way. */
  lemma CancelSafe(cpus: nat, acts: seq<Action>, s: State)
    requires Leads(cpus, acts, s) && s.loop.Parked?
    ensures s.pending == [] && (s.ring != [] ==> s.ready || s.edge)
  {
    AlwaysGood(cpus, acts, s);
  }

  predicate AllReportsUnder(acts: seq<Action>, node: string) {
    forall a :: a in acts && a.Report? ==> a.node == node
  }

  lemma ReadingsGrow(s: State, a: Action)
    requires Enabled(s, a)
    ensures Do(s, a).readings ==
            s.readings + if a.Report? then [DropCounter.Reading(a.node, Total(s.dropped))] else []
  {
  }

  lemma {:induction false} ReadingsUnder(cpus: nat, acts: seq<Action>, s: State, node: string)
    requires Leads(cpus, acts, s) && AllReportsUnder(acts, node)
    ensures DropCounter.AllUnder(s.readings, node)
  {
    if acts != [] {
      var p, a := acts[..|acts| - 1], acts[|acts| - 1];
      var before :| Leads(cpus, p, before) && StepsTo(before, a, s);
      assert acts == p + [a];
      ReadingsUnder(cpus, p, before, node);
      ReadingsGrow(before, a);
      assert a.Report? ==> a.node == node;
    }
  }

  /** Drops are reported late but never wrongly: the counter is what the last report read, and
      what is missing from kills and drops together is exactly what is still in flight plus
      the drops since that report. */
  lemma NothingUnaccounted(cpus: nat, acts: seq<Action>, s: State, node: string)
    requires Leads(cpus, acts, s) && AllReportsUnder(acts, node)
    ensures var counter := DropCounter.Counter(s.readings, node);
            && counter == DropCounter.Last(s.readings) <= Total(s.dropped)
            && s.fired - (|s.recorded| + counter) ==
               |InHand(s)| + |s.pending| + |s.ring| + (Total(s.dropped) - counter)
  {
    AlwaysGood(cpus, acts, s);
    ReadingsUnder(cpus, acts, s, node);
    DropCounter.ExactIffNeverFell(s.readings, node);
  }

  // ----- progress -----

  /** A step of the loop or the reactor left to themselves: no firing, and no tick, which could
      be repeated for ever. */
  predicate Quiet(a: Action) {
    !a.Push? && !a.Drop? && !a.Tick?
  }

  predicate AllQuiet(acts: seq<Action>) {
    forall i :: 0 <= i < |acts| ==> Quiet(acts[i])
  }

  /** The way from here back to parking, were nothing pending or ready. */
  function ToPark(loop: Loop): nat {
    match loop
    case Parked => 0
    case InNext => 1
    case Selecting => 2
    case Drained(_) => 2
    case Beating => 3
    case Draining(_) => 3
    case Reporting => 4
    case Processing(_) => 5
  }

  /** The readiness a later wait, not the drain under way, will find. */
  predicate ReadyAgain(s: State) {
    && s.ready
    && match s.loop
       case Draining(seen) => seen != s.tick
       case Drained(seen) => seen != s.tick
       case _ => true
  }

  /** How many quiet steps can still happen, at most. */
  function Potential(s: State): nat {
    6 * |s.ring| + 5 * |s.pending| + (if s.edge then 5 else 0) + (if ReadyAgain(s) then 4 else 0) + ToPark(s.loop)
  }

  lemma QuietStep(s: State, a: Action)
    requires Enabled(s, a) && Quiet(a)
    ensures Potential(Do(s, a)) < Potential(s)
    ensures Do(s, a).accepted == s.accepted
  {
  }

  predicate Stuck(s: State) {
    s.loop.Parked? && !s.ready && !s.edge
  }

  /** Only a loop parked with no readiness set or on the way has no quiet step to take. */
  lemma StuckIff(s: State)
    requires Good(s)
    ensures Stuck(s) <==> forall a :: Quiet(a) ==> !Enabled(s, a)
  {
    if !Stuck(s) {
      assert exists a :: Quiet(a) && Enabled(s, a) by {
        var a := match s.loop
                 case Selecting => PollSource
                 case InNext => if s.pending != [] then Take else Park
                 case Parked => if s.ready then Wake else Deliver
                 case Draining(_) => if s.ring != [] then Read else SeeEmpty
                 case Drained(_) => ClearReady
                 case Processing(_) => Finish
                 case Reporting => ReportFailed
                 case Beating => Beat;
        assert Quiet(a) && Enabled(s, a);
      }
    }
  }

  lemma {:induction false} QuietRunsEnd(cpus: nat, acts: seq<Action>, s: State, quiet: seq<Action>, s': State)
    requires Leads(cpus, acts, s) && Leads(cpus, acts + quiet, s') && AllQuiet(quiet)
    ensures |quiet| + Potential(s') <= Potential(s) && s'.accepted == s.accepted
    decreases |quiet|
  {
    if quiet == [] {
      assert acts + quiet == acts;
      OneOutcome(cpus, acts, s, s');
    } else {
      var before, a := quiet[..|quiet| - 1], quiet[|quiet| - 1];
      assert (acts + quiet)[..|acts + quiet| - 1] == acts + before;
      var p :| Leads(cpus, acts + before, p) && StepsTo(p, a, s');
      QuietRunsEnd(cpus, acts, s, before, p);
      QuietStep(p, a);
    }
  }

  lemma {:induction false} OneOutcome(cpus: nat, acts: seq<Action>, s: State, s': State)
    requires Leads(cpus, acts, s) && Leads(cpus, acts, s')
    ensures s == s'
  {
    if acts != [] {
      var before, a := acts[..|acts| - 1], acts[|acts| - 1];
      var p :| Leads(cpus, before, p) && StepsTo(p, a, s);
      var p' :| Leads(cpus, before, p') && StepsTo(p', a, s');
      OneOutcome(cpus, before, p, p');
    }
  }

  /** Nothing is ever stranded: from every reachable state, however the loop and the reactor are
      scheduled, they come to rest within `Potential` steps, and at rest every event the ring
      accepted is recorded, in order, without another kill to wake the loop. */
  lemma NothingStranded(cpus: nat, acts: seq<Action>, s: State, quiet: seq<Action>, s': State)
    requires Leads(cpus, acts, s) && Leads(cpus, acts + quiet, s') && AllQuiet(quiet)
    ensures |quiet| <= Potential(s)
    ensures (forall a :: Quiet(a) ==> !Enabled(s', a)) ==> s'.recorded == s.accepted
  {
    QuietRunsEnd(cpus, acts, s, quiet, s');
    AlwaysGood(cpus, acts + quiet, s');
    StuckIff(s');
  }
}
