/** Turning a sequence of absolute drop totals into a counter that only ever advances. */
module DropCounter {
  import opened Common

  /** One report from the source, labelled with the node it was reported under. */
  datatype Reading = Reading(node: string, total: nat)

  function Last(readings: seq<Reading>): nat {
    if readings == [] then 0 else readings[|readings| - 1].total
  }

  function Rise(previous: nat, total: nat): nat {
    if previous < total then total - previous else 0
  }

  /** The counter of `node` after these reports. */
  function Counter(readings: seq<Reading>, node: string): nat {
    if readings == [] then 0
    else
      var before := readings[..|readings| - 1];
      var latest := readings[|readings| - 1];
      Counter(before, node) + if latest.node == node then Rise(Last(before), latest.total) else 0
  }

  function Falls(readings: seq<Reading>): nat {
    if readings == [] then 0
    else
      var before := readings[..|readings| - 1];
      Falls(before) + Rise(readings[|readings| - 1].total, Last(before))
  }

  predicate AllUnder(readings: seq<Reading>, node: string) {
    forall r :: r in readings ==> r.node == node
  }

  predicate NeverFell(readings: seq<Reading>) {
    forall i :: 0 < i < |readings| ==> readings[i - 1].total <= readings[i].total
  }

  /** What the counter is worth: the last total plus everything the totals ever gave back. */
  lemma {:induction false} CounterIsLastPlusFalls(readings: seq<Reading>, node: string)
    requires AllUnder(readings, node)
    ensures Counter(readings, node) == Last(readings) + Falls(readings)
  {
    if readings != [] {
      CounterIsLastPlusFalls(readings[..|readings| - 1], node);
    }
  }

  /** A later report never lowers the counter. */
  lemma {:induction false} CounterNeverDecreases(readings: seq<Reading>, node: string, n: nat)
    requires n <= |readings|
    ensures Counter(readings[..n], node) <= Counter(readings, node)
    decreases |readings| - n
  {
    if n == |readings| {
      assert readings[..n] == readings;
    } else {
      assert readings[..n + 1][..n] == readings[..n];
      CounterNeverDecreases(readings, node, n + 1);
    }
  }

  /** It has counted at least as many drops as any single report ever showed. */
  lemma {:induction false} CounterCoversEveryReading(readings: seq<Reading>, node: string, i: nat)
    requires AllUnder(readings, node) && i < |readings|
    ensures readings[i].total <= Counter(readings, node)
  {
    CounterIsLastPlusFalls(readings[..i + 1], node);
    CounterNeverDecreases(readings, node, i + 1);
  }

  lemma {:induction false} NoFallsIffNeverFell(readings: seq<Reading>)
    ensures Falls(readings) == 0 <==> NeverFell(readings)
  {
    if readings != [] {
      var before := readings[..|readings| - 1];
      NoFallsIffNeverFell(before);
      if Falls(readings) == 0 {
        forall i | 0 < i < |readings|
          ensures readings[i - 1].total <= readings[i].total
        {
          if i < |before| {
            assert before[i - 1].total <= before[i].total;
          }
        }
      } else if Falls(before) != 0 {
        var i :| 0 < i < |before| && before[i - 1].total > before[i].total;
        assert readings[i - 1].total > readings[i].total;
      }
    }
  }

  /** The counter equals the source's own total exactly when that total never moved back. */
  lemma ExactIffNeverFell(readings: seq<Reading>, node: string)
    requires AllUnder(readings, node)
    ensures Counter(readings, node) == Last(readings) <==> NeverFell(readings)
  {
    CounterIsLastPlusFalls(readings, node);
    NoFallsIffNeverFell(readings);
  }
}
