/** Overlap exactly: which series a tracked container lacks, and where every kill went, after any
    interleaving of recording, sweeping and deletion notices. */
module SeriesTearing {
  import opened Common
  import opened SeriesStore
  import opened SweepInterleaving
  import opened Sums
  import SerialRefinement
  import StoreSafety

  // ----- runs as sequences of states -----

  /** Where a run leads; nothing if some action of it cannot happen. */
  function After(acts: seq<Action>): (r: Option<State>)
    ensures r.Some? ==> WellFormed(r.value)
  {
    if acts == [] then Some(INIT)
    else
      match After(acts[..|acts| - 1])
      case Some(p) => if Enabled(p, acts[|acts| - 1]) then Some(Do(p, acts[|acts| - 1])) else None
      case None => None
  }

  lemma {:induction false} LeadsIsAfter(acts: seq<Action>, s: State)
    ensures Leads(acts, s) <==> After(acts) == Some(s)
  {
    if acts != [] {
      var before, a := acts[..|acts| - 1], acts[|acts| - 1];
      forall p
        ensures Leads(before, p) <==> After(before) == Some(p)
      {
        LeadsIsAfter(before, p);
      }
    }
  }

  // ----- one series of one container -----

  datatype Series =
    | KillsOf(key: SeriesKey)
    | TimestampOf(key: SeriesKey)
    | GaugeOf(mk: MemoryKey)

  predicate Present(s: Store, x: Series) {
    match x
    case KillsOf(key) => key in s.kills
    case TimestampOf(key) => key in s.lastTimestamp
    case GaugeOf(mk) => mk in s.memory
  }

  /** The series belongs to a label set that is tracked. */
  predicate Tracked(s: Store, x: Series) {
    match x
    case KillsOf(key) => key in s.lastSeen
    case TimestampOf(key) => key in s.lastSeen
    case GaugeOf(mk) => StoreSafety.NamedBy(s.lastSeen.Keys, mk.name)
  }

  predicate WrittenBy(x: Series, e: EnrichedOomEvent) {
    match x
    case KillsOf(key) => KeyOf(e) == key
    case TimestampOf(key) => KeyOf(e) == key
    case GaugeOf(mk) => KeyOf(e).Name() == mk.name
  }

  function TouchPoint(x: Series): Point {
    match x
    case KillsOf(_) => TouchKills
    case TimestampOf(_) => TouchTimestamp
    case GaugeOf(mk) => TouchGauge(KindIndex(mk.kind))
  }

  /** This action gets or creates the series. */
  predicate Touches(s: State, a: Action, x: Series) {
    a.RecordStep? && s.recorder.Recording? && s.recorder.at == TouchPoint(x) && WrittenBy(x, s.recorder.event)
  }

  /** A record of the series is in flight: past its touch, and not yet stamped. */
  predicate Open(s: State, x: Series) {
    && s.recorder.Recording? && WrittenBy(x, s.recorder.event) && IsPoint(s.recorder.at)
    && SerialRefinement.Rank(s.recorder.at) < SerialRefinement.Rank(TouchPoint(x))
  }

  /** This action of the sweep removes the series, if it is there. */
  predicate Removes(s: State, a: Action, x: Series) {
    && a.SweepStep? && s.sweeper.Removing? && s.sweeper.todo != []
    && var key := s.sweeper.todo[0];
       match x
       case KillsOf(k) => k == key && s.sweeper.phase == 0
       case TimestampOf(k) => k == key && s.sweeper.phase == 1
       case GaugeOf(mk) => mk.name == key.Name() && s.sweeper.phase == 2 + KindIndex(mk.kind) && Alone(s.store, key)
  }

  /** Step `j` of the run removes the series from under a record in flight. */
  predicate TornAt(acts: seq<Action>, x: Series, j: nat) {
    && j < |acts| && After(acts[..j]).Some?
    && Open(After(acts[..j]).value, x) && Removes(After(acts[..j]).value, acts[j], x)
  }

  predicate TouchedAt(acts: seq<Action>, x: Series, k: nat) {
    k < |acts| && After(acts[..k]).Some? && Touches(After(acts[..k]).value, acts[k], x)
  }

  /** Between a touch of the series and the stamp of the same record a sweep removed it, and no
      record has touched it since. */
  ghost predicate Torn(acts: seq<Action>, x: Series) {
    exists j: nat :: TornAt(acts, x, j) && forall k: nat :: j < k ==> !TouchedAt(acts, x, k)
  }

  lemma SameBefore(acts: seq<Action>, a: Action, x: Series, j: nat)
    requires j < |acts|
    ensures TornAt(acts + [a], x, j) <==> TornAt(acts, x, j)
    ensures TouchedAt(acts + [a], x, j) <==> TouchedAt(acts, x, j)
  {
    assert (acts + [a])[..j] == acts[..j];
  }

  lemma LastStep(acts: seq<Action>, a: Action, x: Series, s: State)
    requires After(acts) == Some(s)
    ensures TornAt(acts + [a], x, |acts|) <==> Open(s, x) && Removes(s, a, x)
    ensures TouchedAt(acts + [a], x, |acts|) <==> Touches(s, a, x)
  {
    assert (acts + [a])[..|acts|] == acts;
  }

  lemma StillTorn(acts: seq<Action>, a: Action, x: Series, s: State)
    requires After(acts) == Some(s) && Torn(acts, x) && !Touches(s, a, x)
    ensures Torn(acts + [a], x)
  {
    var j: nat :| TornAt(acts, x, j) && forall k: nat :: j < k ==> !TouchedAt(acts, x, k);
    SameBefore(acts, a, x, j);
    LastStep(acts, a, x, s);
    forall k: nat | j < k
      ensures !TouchedAt(acts + [a], x, k)
    {
      if k < |acts| {
        SameBefore(acts, a, x, k);
      }
    }
  }

  lemma TornBefore(acts: seq<Action>, a: Action, x: Series, s: State)
    requires After(acts) == Some(s) && Torn(acts + [a], x) && !(Open(s, x) && Removes(s, a, x))
    ensures Torn(acts, x) && !Touches(s, a, x)
  {
    var j: nat :| TornAt(acts + [a], x, j) && forall k: nat :: j < k ==> !TouchedAt(acts + [a], x, k);
    LastStep(acts, a, x, s);
    SameBefore(acts, a, x, j);
    forall k: nat | j < k
      ensures !TouchedAt(acts, x, k)
    {
      if k < |acts| {
        SameBefore(acts, a, x, k);
      }
    }
  }

  lemma TornStep(acts: seq<Action>, a: Action, x: Series, s: State)
    requires After(acts) == Some(s)
    ensures Torn(acts + [a], x) <==> (Open(s, x) && Removes(s, a, x)) || (Torn(acts, x) && !Touches(s, a, x))
  {
    if Open(s, x) && Removes(s, a, x) {
      LastStep(acts, a, x, s);
    } else if Torn(acts + [a], x) {
      TornBefore(acts, a, x, s);
    } else if Torn(acts, x) && !Touches(s, a, x) {
      StillTorn(acts, a, x, s);
    }
  }

  // ----- a tracked series is there exactly when it was not torn -----

  /** What a sweep is removing is no longer tracked: nothing can be stamped meanwhile. */
  predicate Apart(s: State) {
    s.sweeper.Removing? ==> forall key :: key in s.sweeper.todo ==> key !in s.store.lastSeen
  }

  lemma ApartStep(s: State, a: Action)
    requires WellFormed(s) && Apart(s) && Enabled(s, a)
    ensures Apart(Do(s, a))
  {
  }

  predicate Whole(s: State, x: Series, torn: bool) {
    Tracked(s.store, x) || Open(s, x) ==> (Present(s.store, x) <==> !torn)
  }

  lemma WholeStamp(s: State, x: Series, torn: bool)
    requires WellFormed(s) && Enabled(s, RecordStep) && s.recorder.at.Stamp? && Whole(s, x, torn)
    ensures Whole(Do(s, RecordStep), x, torn)
  {
    var key := KeyOf(s.recorder.event);
    if x.GaugeOf? {
      assert Do(s, RecordStep).store.lastSeen.Keys == s.store.lastSeen.Keys + {key};
      StoreSafety.NamedByGrows(s.store.lastSeen.Keys, key, x.mk.name);
    }
  }

  /** A write other than the stamp adds at most the series it touches, and that one for certain. */
  lemma WriteAddsWhatItTouches(s: State, x: Series)
    requires WellFormed(s) && Enabled(s, RecordStep) && !s.recorder.at.Stamp?
    ensures Present(Do(s, RecordStep).store, x) <==> Present(s.store, x) || Touches(s, RecordStep, x)
  {
    match x
    case KillsOf(key) =>
    case TimestampOf(key) =>
    case GaugeOf(mk) =>
      assert forall i :: 0 <= i < |MEMORY_TYPES| ==> (KindIndex(mk.kind) == i <==> MEMORY_TYPES[i] == mk.kind);
  }

  lemma OpensByTouching(s: State, x: Series)
    requires WellFormed(s) && Enabled(s, RecordStep) && !s.recorder.at.Stamp?
    ensures Open(Do(s, RecordStep), x) <==> Open(s, x) || Touches(s, RecordStep, x)
  {
  }

  lemma WriteKeepsTracked(s: State, x: Series)
    requires WellFormed(s) && Enabled(s, RecordStep) && !s.recorder.at.Stamp?
    ensures Tracked(Do(s, RecordStep).store, x) <==> Tracked(s.store, x)
  {
    assert RecordAt(s.store, s.recorder.event, s.recorder.at).lastSeen == s.store.lastSeen;
  }

  lemma WholeAfterTouch(s: State, s': State, x: Series, torn: bool, touches: bool)
    requires Whole(s, x, torn) && (Tracked(s'.store, x) <==> Tracked(s.store, x))
    requires Open(s', x) <==> Open(s, x) || touches
    requires Present(s'.store, x) <==> Present(s.store, x) || touches
    ensures Whole(s', x, torn && !touches)
  {
  }

  lemma WholeWrite(s: State, x: Series, torn: bool)
    requires WellFormed(s) && Enabled(s, RecordStep) && !s.recorder.at.Stamp? && Whole(s, x, torn)
    ensures Whole(Do(s, RecordStep), x, torn && !Touches(s, RecordStep, x))
  {
    WriteKeepsTracked(s, x);
    WriteAddsWhatItTouches(s, x);
    OpensByTouching(s, x);
    WholeAfterTouch(s, Do(s, RecordStep), x, torn, Touches(s, RecordStep, x));
  }

  lemma WholeRecordStep(s: State, x: Series, torn: bool)
    requires WellFormed(s) && Enabled(s, RecordStep) && Whole(s, x, torn)
    ensures Whole(Do(s, RecordStep), x, torn && !Touches(s, RecordStep, x))
  {
    if s.recorder.at.Stamp? {
      WholeStamp(s, x, torn);
    } else {
      WholeWrite(s, x, torn);
    }
  }

  lemma WholeScan(s: State, todo: seq<SeriesKey>, x: Series, torn: bool)
    requires WellFormed(s) && Enabled(s, Scan(todo)) && Whole(s, x, torn)
    ensures Whole(Do(s, Scan(todo)), x, torn)
  {
  }

  lemma WholeSweepStep(s: State, x: Series, torn: bool)
    requires WellFormed(s) && Apart(s) && Enabled(s, SweepStep) && Whole(s, x, torn)
    ensures Whole(Do(s, SweepStep), x, torn || (Open(s, x) && Removes(s, SweepStep, x)))
  {
  }

  lemma WholeStep(s: State, a: Action, x: Series, torn: bool)
    requires WellFormed(s) && Apart(s) && Enabled(s, a) && Whole(s, x, torn)
    ensures Whole(Do(s, a), x, (Open(s, x) && Removes(s, a, x)) || (torn && !Touches(s, a, x)))
  {
    match a
    case RecordStep => WholeRecordStep(s, x, torn);
    case SweepStep => WholeSweepStep(s, x, torn);
    case Scan(todo) => WholeScan(s, todo, x, torn);
    case _ =>
  }

  lemma {:induction false} AlwaysWhole(acts: seq<Action>, s: State, x: Series)
    requires After(acts) == Some(s)
    ensures Apart(s) && Whole(s, x, Torn(acts, x))
  {
    if acts != [] {
      var before, a := acts[..|acts| - 1], acts[|acts| - 1];
      assert acts == before + [a];
      var p := After(before).value;
      AlwaysWhole(before, p, x);
      ApartStep(p, a);
      TornStep(before, a, x, p);
      WholeStep(p, a, x, Torn(before, x));
    }
  }

  /** In every interleaving, a series of a tracked label set, or of one whose record is past
      touching it, exists if and only if it was not torn. */
  lemma TrackedSeriesIff(acts: seq<Action>, s: State, x: Series)
    requires Leads(acts, s) && (Tracked(s.store, x) || Open(s, x))
    ensures Present(s.store, x) <==> !Torn(acts, x)
  {
    LeadsIsAfter(acts, s);
    AlwaysWhole(acts, s, x);
  }

  // ----- at rest -----

  /** At rest, exactly the tracked label sets have series, all of them, if and only if no series of
      theirs was torn. */
  lemma OwnedIffNothingTorn(acts: seq<Action>, s: State)
    requires Leads(acts, s) && s.recorder.Quiet? && s.sweeper.Resting?
    ensures StoreSafety.Owned(s.store) <==> forall x :: Tracked(s.store, x) ==> !Torn(acts, x)
  {
    QuiescentIsEvictable(acts, s, 0, 0);
    forall x | Tracked(s.store, x)
      ensures Present(s.store, x) <==> !Torn(acts, x)
    {
      TrackedSeriesIff(acts, s, x);
    }
    OwnedIffAllPresent(s.store);
  }

  lemma OwnedIffAllPresent(s: Store)
    requires s.kills.Keys <= s.lastSeen.Keys && s.lastTimestamp.Keys <= s.lastSeen.Keys
    requires forall mk :: mk in s.memory ==> StoreSafety.NamedBy(s.lastSeen.Keys, mk.name)
    ensures StoreSafety.Owned(s) <==> forall x :: Tracked(s, x) ==> Present(s, x)
  {
    if forall x :: Tracked(s, x) ==> Present(s, x) {
      forall key | key in s.lastSeen
        ensures key in s.kills && key in s.lastTimestamp
      {
        assert Tracked(s, KillsOf(key)) && Tracked(s, TimestampOf(key));
      }
      forall mk: MemoryKey | StoreSafety.NamedBy(s.lastSeen.Keys, mk.name)
        ensures mk in s.memory
      {
        assert Tracked(s, GaugeOf(mk));
      }
    }
  }

  /** Only an overlap tears: a run in which no record and sweep overlap tears nothing. */
  lemma {:induction false} SerialRunsTearNothing(acts: seq<Action>, s: State, x: Series)
    requires SerialRefinement.LeadsWithoutOverlap(acts, s)
    ensures After(acts) == Some(s) && !Torn(acts, x)
  {
    if acts != [] {
      var before, a := acts[..|acts| - 1], acts[|acts| - 1];
      assert acts == before + [a];
      var p :| SerialRefinement.LeadsWithoutOverlap(before, p) && WellFormed(p)
               && SerialRefinement.EnabledAlone(p, a) && s == Do(p, a);
      SerialRunsTearNothing(before, p, x);
      SerialRefinement.SerialRunsRefine(before, p);
      TornStep(before, a, x, p);
    }
  }
}
