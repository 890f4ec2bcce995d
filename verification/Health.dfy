/** Liveness: two cells, one for whether the loop has started and one for its latest stamp. */
module Health {
  import opened Common

  const HEARTBEAT_INTERVAL_SECONDS: nat := 30
  const HEARTBEAT_STALE_AFTER_SECONDS: nat := 3 * HEARTBEAT_INTERVAL_SECONDS

  datatype Liveness =
    | Starting
    | Live(ageSeconds: nat)
    | Stale(ageSeconds: nat)

  /** What the probe concludes from the two cells it reads. */
  function Conclude(started: bool, lastBeat: nat, now: nat): Liveness {
    if !started then Starting
    else
      var age := SaturatingSub(now, lastBeat);
      if age > HEARTBEAT_STALE_AFTER_SECONDS then Stale(age) else Live(age)
  }

  class Health {
    var started: bool
    var lastBeatSeconds: nat

    constructor ()
      ensures !started
    {
      started, lastBeatSeconds := false, 0;
    }

    method MarkStarted(now: nat)
      modifies this
      ensures started && lastBeatSeconds == now
    {
      lastBeatSeconds := now;
      started := true;
    }

    method Beat(now: nat)
      modifies `lastBeatSeconds
      ensures lastBeatSeconds == now
    {
      lastBeatSeconds := now;
    }

    method CheckLiveness(now: nat) returns (l: Liveness)
      ensures l == Conclude(started, lastBeatSeconds, now)
      ensures l.Starting? <==> !started
      ensures l.Stale? <==> started && now > lastBeatSeconds + 90
      ensures l.Live? ==> l.ageSeconds == if now < lastBeatSeconds then 0 else now - lastBeatSeconds
      ensures l.Stale? ==> l.ageSeconds == now - lastBeatSeconds
    {
      if !started {
        return Starting;
      }
      var age := SaturatingSub(now, lastBeatSeconds);
      if age > HEARTBEAT_STALE_AFTER_SECONDS {
        l := Stale(age);
      } else {
        l := Live(age);
      }
    }
  }
}

/** The watch loop's wakeups on a real clock: a ticker that catches up on missed ticks, events
    at any moment, and processing that takes up to `limit` seconds. */
module Heartbeat {
  import opened Common
  import opened Health

  datatype Phase =
    | Unstarted
    | Seeded
    | Waiting
    | Processing(since: real)

  /** `beatAt` is the instant of the last stamp; the cell itself holds whole seconds. */
  datatype State = State(now: real, phase: Phase, tickAt: real, started: bool, lastBeat: nat, beatAt: real)

  const INTERVAL: real := HEARTBEAT_INTERVAL_SECONDS as real

  datatype Action =
    | Elapse(dt: real)
    | Seed
    | Start
    | Event
    | Finish
    | Tick

  function Seconds(t: real): (s: nat)
    requires t >= 0.0
    ensures s == t.Floor
  {
    t.Floor
  }

  const INIT := State(0.0, Unstarted, 0.0, false, 0, 0.0)

  /** Time passes only while the loop has nothing to do (the ticker is not due) or is busy with
      one event for no longer than `limit`. */
  predicate Enabled(s: State, a: Action, limit: real) {
    match a
    case Elapse(dt) =>
      && dt > 0.0
      && (match s.phase
          case Unstarted => true
          case Seeded => false
          case Waiting => s.now + dt <= s.tickAt
          case Processing(since) => s.now + dt <= since + limit)
    case Seed => s.phase.Unstarted?
    case Start => s.phase.Seeded?
    case Event => s.phase.Waiting?
    case Finish => s.phase.Processing?
    case Tick => s.phase.Waiting? && s.tickAt <= s.now
  }

  function Stamped(s: State): State
    requires s.now >= 0.0
  {
    s.(lastBeat := Seconds(s.now), beatAt := s.now)
  }

  function Do(s: State, a: Action): State
    requires s.now >= 0.0
  {
    match a
    case Elapse(dt) => s.(now := s.now + dt)
    case Seed => Stamped(s).(phase := Seeded)
    case Start => s.(started := true, tickAt := s.now + INTERVAL, phase := Waiting)
    case Event => s.(phase := Processing(s.now))
    case Finish => Stamped(s).(phase := Waiting)
    case Tick => Stamped(s).(tickAt := s.tickAt + INTERVAL)
  }

  predicate StepsTo(p: State, a: Action, limit: real, s: State) {
    p.now >= 0.0 && Enabled(p, a, limit) && s == Do(p, a)
  }

  ghost predicate Leads(acts: seq<Action>, limit: real, s: State) {
    if acts == [] then s == INIT
    else
      var before, a := acts[..|acts| - 1], acts[|acts| - 1];
      exists p :: Leads(before, limit, p) && StepsTo(p, a, limit, s)
  }

  predicate OnTime(s: State, limit: real) {
    && s.now >= 0.0
    && (s.started <==> s.phase.Waiting? || s.phase.Processing?)
    && (s.phase.Seeded? ==> s.beatAt == s.now && s.lastBeat == Seconds(s.now))
    && (s.started ==>
          && 0.0 <= s.beatAt <= s.now
          && s.lastBeat == Seconds(s.beatAt)
          && s.tickAt <= s.beatAt + INTERVAL
          && (s.phase.Waiting? ==> s.now <= s.beatAt || s.now <= s.tickAt)
          && (s.phase.Processing? ==>
                && s.beatAt <= s.phase.since <= s.beatAt + INTERVAL
                && s.phase.since <= s.now
                && (s.now <= s.phase.since || s.now <= s.phase.since + limit)))
  }

  lemma OnTimeStep(s: State, a: Action, limit: real)
    requires OnTime(s, limit) && Enabled(s, a, limit)
    ensures OnTime(Do(s, a), limit)
  {
  }

  lemma {:induction false} AlwaysOnTime(acts: seq<Action>, limit: real, s: State)
    requires Leads(acts, limit, s)
    ensures OnTime(s, limit)
  {
    if acts != [] {
      var p, a := acts[..|acts| - 1], acts[|acts| - 1];
      var before :| Leads(p, limit, before) && StepsTo(before, a, limit, s);
      AlwaysOnTime(p, limit, before);
      OnTimeStep(before, a, limit);
    }
  }

  lemma FloorsApart(a: real, b: real, n: int)
    requires b <= a + n as real
    ensures b.Floor <= a.Floor + n
  {
  }

  function Probe(s: State): Liveness
    requires s.now >= 0.0
  {
    Conclude(s.started, s.lastBeat, Seconds(s.now))
  }

  /** With any pattern of events and ticks, between the two stores of startup included, the
      probe sees Starting or a beat at most 90 seconds old, if one event takes at most 60. */
  lemma NeverStale(acts: seq<Action>, limit: real, s: State)
    requires Leads(acts, limit, s) && limit <= 60.0
    ensures s.now >= 0.0
    ensures Probe(s).Starting? || (Probe(s).Live? && Probe(s).ageSeconds <= HEARTBEAT_STALE_AFTER_SECONDS)
  {
    AlwaysOnTime(acts, limit, s);
    if s.started {
      FloorsApart(s.beatAt, s.now, 90);
    }
  }

  lemma Extend(acts: seq<Action>, limit: real, s: State, a: Action)
    requires Leads(acts, limit, s) && s.now >= 0.0 && Enabled(s, a, limit)
    ensures Leads(acts + [a], limit, Do(s, a))
  {
    assert (acts + [a])[..|acts|] == acts;
    assert StepsTo(s, a, limit, Do(s, a));
  }

  /** Started at an instant with fraction `f`. */
  lemma StartedAt(f: real, limit: real) returns (acts: seq<Action>, s: State)
    requires 0.0 <= f < 1.0
    ensures Leads(acts, limit, s) && s == State(f, Waiting, f + INTERVAL, true, 0, f)
  {
    acts, s := [], INIT;
    if f > 0.0 {
      Extend(acts, limit, s, Elapse(f));
      acts, s := acts + [Elapse(f)], Do(s, Elapse(f));
    }
    Extend(acts, limit, s, Seed);
    acts, s := acts + [Seed], Do(s, Seed);
    Extend(acts, limit, s, Start);
    acts, s := acts + [Start], Do(s, Start);
  }

  /** An event that arrives just as the first tick is due and then takes `limit`. */
  lemma SlowEventGoesStale(limit: real) returns (acts: seq<Action>, s: State)
    requires limit > 60.0
    ensures Leads(acts, limit, s) && s.now >= 0.0 && Probe(s).Stale?
  {
    var f := if limit >= 61.0 then 0.0 else 61.0 - limit;
    acts, s := StartedAt(f, limit);
    Extend(acts, limit, s, Elapse(INTERVAL));
    acts, s := acts + [Elapse(INTERVAL)], Do(s, Elapse(INTERVAL));
    Extend(acts, limit, s, Event);
    acts, s := acts + [Event], Do(s, Event);
    Extend(acts, limit, s, Elapse(limit));
    acts, s := acts + [Elapse(limit)], Do(s, Elapse(limit));
    assert s.now >= 91.0;
  }

  /** Sixty seconds is exactly what the three-interval limit leaves for one event. */
  lemma StalenessLimitIsTight(limit: real)
    ensures (forall acts, s :: Leads(acts, limit, s) ==> s.now >= 0.0 && !Probe(s).Stale?) <==> limit <= 60.0
  {
    if limit <= 60.0 {
      forall acts, s | Leads(acts, limit, s)
        ensures s.now >= 0.0 && !Probe(s).Stale?
      {
        NeverStale(acts, limit, s);
      }
    } else {
      var acts, s := SlowEventGoesStale(limit);
      assert Leads(acts, limit, s) && !(s.now >= 0.0 && !Probe(s).Stale?);
    }
  }
}
