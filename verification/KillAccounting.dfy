/** Where every kill went, under any interleaving: into a live series, away with a removed one, or
    lost in a write to a series removed under its handle. */
module KillAccounting {
  import opened Common
  import opened SeriesStore
  import opened SweepInterleaving
  import opened SeriesTearing
  import opened StoreSafety
  import opened Sums

  lemma LiveWithout(kills: map<SeriesKey, nat>, key: SeriesKey, node: string)
    ensures Live(kills, node) == Live(kills - {key}, node) + if key.node == node then Get(kills, key) else 0
  {
    var before, after := OnNode(kills.Keys, node), OnNode((kills - {key}).Keys, node);
    assert after == before - {key};
    SumAgree(kills, kills - {key}, after);
    if key in before {
      SumTakeOut(kills, before, key);
    } else {
      assert after == before;
    }
  }

  // ----- the ledger of a run -----

  /** Kills of `node` that this step takes away with a removed series. */
  function TakenBy(s: State, a: Action, node: string): nat {
    if a.SweepStep? && s.sweeper.Removing? && s.sweeper.todo != [] && s.sweeper.phase == 0 && s.sweeper.todo[0].node == node
    then Get(s.store.kills, s.sweeper.todo[0])
    else 0
  }

  predicate AtOn(s: State, at: Point, node: string) {
    s.recorder.Recording? && s.recorder.at == at && KeyOf(s.recorder.event).node == node
  }

  /** One if this step increments a series that a sweep removed after the record touched it. */
  function LostBy(s: State, a: Action, node: string): nat {
    if a.RecordStep? && AtOn(s, IncrementKills, node) && KeyOf(s.recorder.event) !in s.store.kills then 1 else 0
  }

  function BegunBy(a: Action, node: string): nat {
    if a.BeginRecord? && KeyOf(a.event).node == node then 1 else 0
  }

  datatype Ledger = Ledger(begun: nat, taken: nat, lost: nat)

  /** The totals of a run. */
  function LedgerOf(acts: seq<Action>, node: string): Ledger {
    if acts == [] then Ledger(0, 0, 0)
    else
      var before, a := acts[..|acts| - 1], acts[|acts| - 1];
      var l := LedgerOf(before, node);
      match After(before)
      case Some(s) => Ledger(l.begun + BegunBy(a, node), l.taken + TakenBy(s, a, node), l.lost + LostBy(s, a, node))
      case None => l
  }

  /** The event in flight, before its increment and between increment and node count. */
  function Unwritten(s: State, node: string): nat {
    if AtOn(s, TouchKills, node) || AtOn(s, IncrementKills, node) then 1 else 0
  }

  function Uncounted(s: State, node: string): nat {
    if AtOn(s, CountNode, node) then 1 else 0
  }

  ghost predicate Balanced(s: State, l: Ledger, node: string) {
    && l.begun == Unwritten(s, node) + Live(s.store.kills, node) + l.taken + l.lost
    && l.begun == Unwritten(s, node) + Uncounted(s, node) + Get(s.store.perNode, node)
  }

  lemma BalancedTouch(s: State, l: Ledger, node: string)
    requires WellFormed(s) && s.recorder.Recording? && s.recorder.at.TouchKills? && Balanced(s, l, node)
    ensures Balanced(Do(s, RecordStep), l, node)
  {
    var key := KeyOf(s.recorder.event);
    LiveSet(s.store.kills, key, Get(s.store.kills, key), node);
  }

  lemma BalancedIncrement(s: State, l: Ledger, node: string)
    requires WellFormed(s) && s.recorder.Recording? && s.recorder.at.IncrementKills? && Balanced(s, l, node)
    ensures Balanced(Do(s, RecordStep), l.(lost := l.lost + LostBy(s, RecordStep, node)), node)
  {
    var key := KeyOf(s.recorder.event);
    if key in s.store.kills {
      LiveSet(s.store.kills, key, s.store.kills[key] + 1, node);
    }
  }

  lemma BalancedCount(s: State, l: Ledger, node: string)
    requires WellFormed(s) && s.recorder.Recording? && s.recorder.at.CountNode? && Balanced(s, l, node)
    ensures Balanced(Do(s, RecordStep), l, node)
  {
    assert Do(s, RecordStep).store.kills == s.store.kills;
  }

  lemma OtherPointsKeepCounts(s: Store, e: EnrichedOomEvent, at: Point)
    requires IsPoint(at) && !at.TouchKills? && !at.IncrementKills? && !at.CountNode?
    ensures RecordAt(s, e, at).kills == s.kills && RecordAt(s, e, at).perNode == s.perNode
  {
  }

  lemma BalancedOtherStep(s: State, l: Ledger, node: string)
    requires WellFormed(s) && Enabled(s, RecordStep) && Balanced(s, l, node)
    requires !s.recorder.at.TouchKills? && !s.recorder.at.IncrementKills? && !s.recorder.at.CountNode?
    ensures Balanced(Do(s, RecordStep), l, node)
  {
    OtherPointsKeepCounts(s.store, s.recorder.event, s.recorder.at);
    assert Unwritten(Do(s, RecordStep), node) == 0 == Uncounted(Do(s, RecordStep), node);
  }

  lemma BalancedRecordStep(s: State, l: Ledger, node: string)
    requires WellFormed(s) && Enabled(s, RecordStep) && Balanced(s, l, node)
    ensures Balanced(Do(s, RecordStep), l.(lost := l.lost + LostBy(s, RecordStep, node)), node)
  {
    match s.recorder.at
    case TouchKills => BalancedTouch(s, l, node);
    case IncrementKills => BalancedIncrement(s, l, node);
    case CountNode => BalancedCount(s, l, node);
    case _ => BalancedOtherStep(s, l, node);
  }

  lemma BalancedSweepStep(s: State, l: Ledger, node: string)
    requires WellFormed(s) && Enabled(s, SweepStep) && Balanced(s, l, node)
    ensures Balanced(Do(s, SweepStep), l.(taken := l.taken + TakenBy(s, SweepStep, node)), node)
  {
    if s.sweeper.phase == 0 {
      LiveWithout(s.store.kills, s.sweeper.todo[0], node);
    }
  }

  lemma BalancedStep(s: State, a: Action, l: Ledger, node: string)
    requires WellFormed(s) && Enabled(s, a) && Balanced(s, l, node)
    ensures Balanced(Do(s, a), Ledger(l.begun + BegunBy(a, node), l.taken + TakenBy(s, a, node), l.lost + LostBy(s, a, node)), node)
  {
    match a
    case RecordStep => BalancedRecordStep(s, l, node);
    case SweepStep => BalancedSweepStep(s, l, node);
    case _ =>
  }

  lemma {:induction false} AlwaysBalanced(acts: seq<Action>, s: State, node: string)
    requires After(acts) == Some(s)
    ensures Balanced(s, LedgerOf(acts, node), node)
  {
    if acts == [] {
      assert OnNode(EMPTY.kills.Keys, node) == {};
    } else {
      var before, a := acts[..|acts| - 1], acts[|acts| - 1];
      var p := After(before).value;
      AlwaysBalanced(before, p, node);
      BalancedStep(p, a, LedgerOf(before, node), node);
    }
  }

  /** In every interleaving and at every point of it: each kill begun is not yet written, or shown
      by a live series, or was taken away by a sweep, or was lost in a write to a removed series;
      and all but the one in flight are on the node's counter, the lost ones too. */
  lemma EveryKillAccounted(acts: seq<Action>, s: State, node: string)
    requires Leads(acts, s)
    ensures var l := LedgerOf(acts, node);
            && l.begun == Unwritten(s, node) + Live(s.store.kills, node) + l.taken + l.lost
            && Get(s.store.perNode, node) + Uncounted(s, node) == Live(s.store.kills, node) + l.taken + l.lost
  {
    LeadsIsAfter(acts, s);
    AlwaysBalanced(acts, s, node);
  }
}
