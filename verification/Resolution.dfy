/** Matching a container id against the statuses the kubelet reports: a pass over the running
    containers, then one over those already replaced. */
module Resolution {
  import opened Common
  import opened Regex
  import ContainerId
  import CgroupLayouts

  // ----- pods as the API reports them -----

  datatype Terminated = Terminated(containerId: Option<string>)

  datatype ContainerState = ContainerState(terminated: Option<Terminated>)

  datatype ContainerStatus = ContainerStatus(
    name: string, containerId: Option<string>, imageId: string, lastState: Option<ContainerState>)

  datatype Pod = Pod(
    namespace: Option<string>, name: Option<string>, containerStatuses: Option<seq<ContainerStatus>>)

  datatype Pass = RunningPass | TerminatedPass

  /** The id a pass takes from a status. */
  function Candidate(pass: Pass, status: ContainerStatus): Option<string> {
    match pass
    case RunningPass => status.containerId
    case TerminatedPass =>
      match status.lastState
      case Some(ContainerState(Some(Terminated(id)))) => id
      case _ => None
  }

  predicate OccursAt(s: string, t: string, i: nat) {
    i + |t| <= |s| && s[i..i + |t|] == t
  }

  predicate Contains(s: string, t: string) {
    exists i :: 0 <= i <= |s| && OccursAt(s, t, i)
  }

  predicate EndsWith(s: string, t: string) {
    |t| <= |s| && s[|s| - |t|..] == t
  }

  predicate NamesContainer(reported: string, containerId: string) {
    EndsWith(reported, containerId) || Contains(reported, containerId)
  }

  function IdentityOf(pod: Pod, status: ContainerStatus, full: string): ContainerIdentity {
    ContainerIdentity(pod.namespace.GetOr("default"), pod.name.GetOr("unknown"), status.name, full, status.imageId)
  }

  function MatchStatus(pod: Pod, statuses: seq<ContainerStatus>, containerId: string, pass: Pass): Option<ContainerIdentity> {
    if statuses == [] then None
    else
      match Candidate(pass, statuses[0])
      case Some(full) =>
        if NamesContainer(full, containerId) then Some(IdentityOf(pod, statuses[0], full))
        else MatchStatus(pod, statuses[1..], containerId, pass)
      case None => MatchStatus(pod, statuses[1..], containerId, pass)
  }

  function MatchPod(pod: Pod, containerId: string, pass: Pass): Option<ContainerIdentity> {
    match pod.containerStatuses
    case None => None
    case Some(statuses) => MatchStatus(pod, statuses, containerId, pass)
  }

  function MatchContainer(pods: seq<Pod>, containerId: string, pass: Pass): Option<ContainerIdentity> {
    if pods == [] then None
    else
      match MatchPod(pods[0], containerId, pass)
      case Some(identity) => Some(identity)
      case None => MatchContainer(pods[1..], containerId, pass)
  }

  function IdentityFromPods(pods: seq<Pod>, containerId: string): Option<ContainerIdentity> {
    match MatchContainer(pods, containerId, RunningPass)
    case Some(identity) => Some(identity)
    case None => MatchContainer(pods, containerId, TerminatedPass)
  }

  // ----- when a reported id names a container -----

  predicate LongHexAt(s: string, i: nat) {
    i + ContainerId.ID_LENGTH <= |s| && AllHex(s, i, i + ContainerId.ID_LENGTH)
  }

  ghost predicate NoLongHex(s: string) {
    forall i: nat :: !LongHexAt(s, i)
  }

  lemma OccurrenceIsHex(s: string, id: string, i: nat)
    requires CgroupLayouts.IsId(id) && OccursAt(s, id, i)
    ensures LongHexAt(s, i)
  {
    forall k | i <= k < i + |id|
      ensures IsHex(s[k])
    {
      assert s[k] == s[i..i + |id|][k - i] == id[k - i];
    }
  }

  lemma LongHexOnlyAtTheEnd(scheme: string, reportedId: string, i: nat)
    requires CgroupLayouts.IsId(reportedId) && NoLongHex(scheme)
    requires LongHexAt(scheme + "://" + reportedId, i)
    ensures i == |scheme| + 3
  {
    var s := scheme + "://" + reportedId;
    assert s == scheme + ("://" + reportedId);
    assert s[|scheme|] == ':' && s[|scheme| + 2] == '/';
    assert !IsHex(s[|scheme|]) && !IsHex(s[|scheme| + 2]);
    if i + ContainerId.ID_LENGTH <= |scheme| {
      LongHexOfPrefix(scheme, "://" + reportedId, i);
    }
  }

  lemma LongHexOfPrefix(s: string, rest: string, i: nat)
    requires LongHexAt(s + rest, i) && i + ContainerId.ID_LENGTH <= |s|
    ensures LongHexAt(s, i)
  {
    forall k | i <= k < i + ContainerId.ID_LENGTH
      ensures IsHex(s[k])
    {
      assert (s + rest)[k] == s[k];
    }
  }

  /** Occurring anywhere in `scheme://<64 hex>` means being exactly the trailing id: sixty-four
      hex digits fit nowhere else. */
  lemma NamesIffTrailingId(scheme: string, reportedId: string, containerId: string)
    requires CgroupLayouts.IsId(reportedId) && CgroupLayouts.IsId(containerId) && NoLongHex(scheme)
    ensures NamesContainer(scheme + "://" + reportedId, containerId) <==> reportedId == containerId
  {
    var reported := scheme + "://" + reportedId;
    var start := |scheme| + 3;
    assert reported[start..] == reportedId == reported[start..start + |containerId|];
    assert EndsWith(reported, containerId) <==> OccursAt(reported, containerId, start);
    forall i | 0 <= i <= |reported| && OccursAt(reported, containerId, i)
      ensures i == start
    {
      OccurrenceIsHex(reported, containerId, i);
      LongHexOnlyAtTheEnd(scheme, reportedId, i);
    }
  }

  // ----- what the passes find -----

  /** `status`, one of the statuses of `pod`, is a match of this pass and yields `x`. */
  predicate Offers(pass: Pass, pod: Pod, status: ContainerStatus, containerId: string, x: ContainerIdentity) {
    && Candidate(pass, status).Some?
    && NamesContainer(Candidate(pass, status).value, containerId)
    && x.namespace == pod.namespace.GetOr("default")
    && x.podName == pod.name.GetOr("unknown")
    && x.containerName == status.name
    && x.containerId == Candidate(pass, status).value
    && x.imageId == status.imageId
  }

  ghost predicate OfferedBy(pass: Pass, pod: Pod, containerId: string, x: ContainerIdentity) {
    && pod.containerStatuses.Some?
    && exists status :: status in pod.containerStatuses.value && Offers(pass, pod, status, containerId, x)
  }

  ghost predicate Offered(pass: Pass, pods: seq<Pod>, containerId: string, x: ContainerIdentity) {
    exists i :: 0 <= i < |pods| && OfferedBy(pass, pods[i], containerId, x)
  }

  lemma {:induction false} StatusMatchIsOffer(pod: Pod, statuses: seq<ContainerStatus>, containerId: string, pass: Pass)
    ensures var r := MatchStatus(pod, statuses, containerId, pass);
            && (r.Some? ==> exists status :: status in statuses && Offers(pass, pod, status, containerId, r.value))
            && (r.None? ==> forall status, x :: status in statuses ==> !Offers(pass, pod, status, containerId, x))
  {
    if statuses != [] {
      var rest := statuses[1..];
      StatusMatchIsOffer(pod, rest, containerId, pass);
      assert statuses[0] in statuses;
      assert forall status :: status in statuses <==> status == statuses[0] || status in rest;
      var r := MatchStatus(pod, statuses, containerId, pass);
      if r.Some? && r == MatchStatus(pod, rest, containerId, pass) {
        var status :| status in rest && Offers(pass, pod, status, containerId, r.value);
        assert status in statuses;
      } else if r.Some? {
        assert Offers(pass, pod, statuses[0], containerId, r.value);
      }
    }
  }

  lemma PodMatchIsOffer(pod: Pod, containerId: string, pass: Pass)
    ensures var r := MatchPod(pod, containerId, pass);
            && (r.Some? ==> OfferedBy(pass, pod, containerId, r.value))
            && (r.None? ==> forall x :: !OfferedBy(pass, pod, containerId, x))
  {
    if pod.containerStatuses.Some? {
      StatusMatchIsOffer(pod, pod.containerStatuses.value, containerId, pass);
    }
  }

  /** A pass returns one of its matches, and nothing only when it has none. */
  lemma {:induction false} PassFindsAnOffer(pods: seq<Pod>, containerId: string, pass: Pass)
    ensures var r := MatchContainer(pods, containerId, pass);
            && (r.Some? ==> Offered(pass, pods, containerId, r.value))
            && (r.None? ==> forall x :: !Offered(pass, pods, containerId, x))
  {
    if pods != [] {
      PodMatchIsOffer(pods[0], containerId, pass);
      PassFindsAnOffer(pods[1..], containerId, pass);
      var r := MatchContainer(pods, containerId, pass);
      if r.Some? {
        if MatchPod(pods[0], containerId, pass).None? {
          var i :| 0 <= i < |pods[1..]| && OfferedBy(pass, pods[1..][i], containerId, r.value);
          assert OfferedBy(pass, pods[i + 1], containerId, r.value);
        }
      } else {
        forall x, i | 0 <= i < |pods|
          ensures !OfferedBy(pass, pods[i], containerId, x)
        {
          if i > 0 {
            assert pods[i] == pods[1..][i - 1];
            assert !Offered(pass, pods[1..], containerId, x);
          }
        }
      }
    }
  }

  /** The pass that decides: the running one if it matches anything at all. */
  ghost function Deciding(pods: seq<Pod>, containerId: string): Pass {
    if exists x :: Offered(RunningPass, pods, containerId, x) then RunningPass else TerminatedPass
  }

  /** Any running match beats every terminated one; what is returned is a match of the deciding
      pass, its container id verbatim the candidate that matched; nothing is returned exactly
      when neither pass matches. */
  lemma ResolvesFromDecidingPass(pods: seq<Pod>, containerId: string)
    ensures var r := IdentityFromPods(pods, containerId);
            && (r.Some? ==> Offered(Deciding(pods, containerId), pods, containerId, r.value))
            && (r.None? <==> forall x :: !Offered(RunningPass, pods, containerId, x) && !Offered(TerminatedPass, pods, containerId, x))
  {
    PassFindsAnOffer(pods, containerId, RunningPass);
    PassFindsAnOffer(pods, containerId, TerminatedPass);
  }

  // ----- the same, in the fields the kubelet reports -----

  ghost predicate NamesInside(full: string, id: string) {
    exists before, after :: full == before + id + after
  }

  lemma NamesIffInside(full: string, id: string)
    ensures NamesContainer(full, id) <==> NamesInside(full, id)
  {
    if EndsWith(full, id) {
      assert full == full[..|full| - |id|] + id + "";
    } else if i: nat :| 0 <= i <= |full| && OccursAt(full, id, i) {
      assert full == full[..i] + id + full[i + |id|..];
    }
    if before, after :| full == before + id + after {
      assert OccursAt(full, id, |before|);
    }
  }

  /** What `x` says of the pod and of the status it came from; the id is `full`. */
  predicate Describes(x: ContainerIdentity, pod: Pod, status: ContainerStatus, full: string) {
    && x.namespace == (if pod.namespace.Some? then pod.namespace.value else "default")
    && x.podName == (if pod.name.Some? then pod.name.value else "unknown")
    && x.containerName == status.name && x.containerId == full && x.imageId == status.imageId
  }

  predicate Lists(pods: seq<Pod>, pod: Pod, status: ContainerStatus) {
    pod in pods && pod.containerStatuses.Some? && status in pod.containerStatuses.value
  }

  /** A listed container is running under an id that names `id`. */
  ghost predicate RunsAs(pods: seq<Pod>, id: string, x: ContainerIdentity) {
    exists pod, status :: Lists(pods, pod, status) && RunsUnder(pod, status, id, x)
  }

  ghost predicate RunsUnder(pod: Pod, status: ContainerStatus, id: string, x: ContainerIdentity) {
    && status.containerId.Some? && NamesInside(status.containerId.value, id)
    && Describes(x, pod, status, status.containerId.value)
  }

  /** A listed container replaced one whose id names `id`. */
  ghost predicate ReplacedAs(pods: seq<Pod>, id: string, x: ContainerIdentity) {
    exists pod, status :: Lists(pods, pod, status) && ReplacedUnder(pod, status, id, x)
  }

  ghost predicate ReplacedUnder(pod: Pod, status: ContainerStatus, id: string, x: ContainerIdentity) {
    && status.lastState.Some? && status.lastState.value.terminated.Some?
    && status.lastState.value.terminated.value.containerId.Some?
    && NamesInside(status.lastState.value.terminated.value.containerId.value, id)
    && Describes(x, pod, status, status.lastState.value.terminated.value.containerId.value)
  }

  lemma OffersInFields(pod: Pod, status: ContainerStatus, id: string, x: ContainerIdentity)
    ensures Offers(RunningPass, pod, status, id, x) <==> RunsUnder(pod, status, id, x)
    ensures Offers(TerminatedPass, pod, status, id, x) <==> ReplacedUnder(pod, status, id, x)
  {
    if status.containerId.Some? {
      NamesIffInside(status.containerId.value, id);
    }
    if status.lastState.Some? && status.lastState.value.terminated.Some?
       && status.lastState.value.terminated.value.containerId.Some? {
      NamesIffInside(status.lastState.value.terminated.value.containerId.value, id);
    }
  }

  lemma OfferedIsListed(pass: Pass, pods: seq<Pod>, id: string, x: ContainerIdentity)
    ensures Offered(pass, pods, id, x) <==>
            exists pod, status :: Lists(pods, pod, status) && Offers(pass, pod, status, id, x)
  {
    if Offered(pass, pods, id, x) {
      var i :| 0 <= i < |pods| && OfferedBy(pass, pods[i], id, x);
      var status :| status in pods[i].containerStatuses.value && Offers(pass, pods[i], status, id, x);
      assert Lists(pods, pods[i], status);
    }
    if pod, status :| Lists(pods, pod, status) && Offers(pass, pod, status, id, x) {
      var i :| 0 <= i < |pods| && pods[i] == pod;
      assert OfferedBy(pass, pods[i], id, x);
    }
  }

  lemma OfferedInFields(pods: seq<Pod>, id: string, x: ContainerIdentity)
    ensures Offered(RunningPass, pods, id, x) <==> RunsAs(pods, id, x)
    ensures Offered(TerminatedPass, pods, id, x) <==> ReplacedAs(pods, id, x)
  {
    OfferedIsListed(RunningPass, pods, id, x);
    OfferedIsListed(TerminatedPass, pods, id, x);
    forall pod, status
      ensures Offers(RunningPass, pod, status, id, x) <==> RunsUnder(pod, status, id, x)
      ensures Offers(TerminatedPass, pod, status, id, x) <==> ReplacedUnder(pod, status, id, x)
    {
      OffersInFields(pod, status, id, x);
    }
  }

  /** For every list of pods and every id: a container running under an id that names it is found
      before any other; failing that, one that replaced a container of that id; failing that,
      nothing. The identity is that status's own fields and its pod's. */
  lemma ResolvesRunningThenReplaced(pods: seq<Pod>, id: string)
    ensures var r := IdentityFromPods(pods, id);
            if exists x :: RunsAs(pods, id, x) then r.Some? && RunsAs(pods, id, r.value)
            else if exists x :: ReplacedAs(pods, id, x) then r.Some? && ReplacedAs(pods, id, r.value)
            else r == None
  {
    ResolvesFromDecidingPass(pods, id);
    forall x
      ensures Offered(RunningPass, pods, id, x) <==> RunsAs(pods, id, x)
      ensures Offered(TerminatedPass, pods, id, x) <==> ReplacedAs(pods, id, x)
    {
      OfferedInFields(pods, id, x);
    }
  }

  // ----- which of several -----

  predicate NothingOffered(pass: Pass, pod: Pod, statuses: seq<ContainerStatus>, id: string) {
    forall status :: status in statuses ==>
      Candidate(pass, status).None? || !NamesContainer(Candidate(pass, status).value, id)
  }

  /** Within a pod the first status that matches is taken. */
  lemma {:induction false} FirstStatusTaken(pod: Pod, statuses: seq<ContainerStatus>, id: string, pass: Pass)
      returns (k: nat)
    requires MatchStatus(pod, statuses, id, pass).Some?
    ensures k < |statuses| && NothingOffered(pass, pod, statuses[..k], id)
    ensures Offers(pass, pod, statuses[k], id, MatchStatus(pod, statuses, id, pass).value)
  {
    if Candidate(pass, statuses[0]).Some? && NamesContainer(Candidate(pass, statuses[0]).value, id) {
      k := 0;
    } else {
      var j := FirstStatusTaken(pod, statuses[1..], id, pass);
      k := j + 1;
      assert statuses[..k] == [statuses[0]] + statuses[1..][..j];
    }
  }

  /** And of several pods the first that has one. */
  lemma {:induction false} FirstPodTaken(pods: seq<Pod>, id: string, pass: Pass) returns (i: nat)
    requires MatchContainer(pods, id, pass).Some?
    ensures i < |pods| && MatchPod(pods[i], id, pass) == MatchContainer(pods, id, pass)
    ensures forall j :: 0 <= j < i ==> MatchPod(pods[j], id, pass).None?
  {
    if MatchPod(pods[0], id, pass).Some? {
      i := 0;
    } else {
      var j := FirstPodTaken(pods[1..], id, pass);
      i := j + 1;
      assert forall m :: 0 < m < i ==> pods[m] == pods[1..][m - 1];
    }
  }

  // ----- order -----

  /** A pod with the order of its statuses forgotten. */
  datatype PodBag = PodBag(namespace: Option<string>, name: Option<string>, statuses: Option<multiset<ContainerStatus>>)

  ghost function BagOfPod(pod: Pod): PodBag {
    PodBag(pod.namespace, pod.name,
           match pod.containerStatuses case None => None case Some(statuses) => Some(multiset(statuses)))
  }

  /** The pods with both orders forgotten. */
  ghost function BagOf(pods: seq<Pod>): multiset<PodBag> {
    if pods == [] then multiset{} else multiset{BagOfPod(pods[0])} + BagOf(pods[1..])
  }

  ghost predicate Reordered(pods: seq<Pod>, pods': seq<Pod>) {
    BagOf(pods) == BagOf(pods')
  }

  ghost predicate OfferedByBag(pass: Pass, bag: PodBag, containerId: string, x: ContainerIdentity) {
    && bag.statuses.Some?
    && exists status :: status in bag.statuses.value && Offers(pass, Pod(bag.namespace, bag.name, None), status, containerId, x)
  }

  lemma BagOffersTheSame(pass: Pass, pod: Pod, containerId: string, x: ContainerIdentity)
    ensures OfferedBy(pass, pod, containerId, x) <==> OfferedByBag(pass, BagOfPod(pod), containerId, x)
  {
    if pod.containerStatuses.Some? {
      var statuses := pod.containerStatuses.value;
      forall status
        ensures status in statuses <==> status in multiset(statuses)
        ensures Offers(pass, pod, status, containerId, x) <==>
                Offers(pass, Pod(pod.namespace, pod.name, None), status, containerId, x)
      {
      }
    }
  }

  lemma {:induction false} InBagIff(pods: seq<Pod>, bag: PodBag)
    ensures bag in BagOf(pods) <==> exists i :: 0 <= i < |pods| && BagOfPod(pods[i]) == bag
  {
    if pods != [] {
      InBagIff(pods[1..], bag);
      if i :| 0 <= i < |pods| && BagOfPod(pods[i]) == bag {
        assert i > 0 ==> pods[i] == pods[1..][i - 1];
      }
      if j :| 0 <= j < |pods[1..]| && BagOfPod(pods[1..][j]) == bag {
        assert pods[j + 1] == pods[1..][j];
      }
    }
  }

  lemma OfferedSurvivesReordering(pass: Pass, pods: seq<Pod>, pods': seq<Pod>, containerId: string, x: ContainerIdentity)
    requires Reordered(pods, pods') && Offered(pass, pods, containerId, x)
    ensures Offered(pass, pods', containerId, x)
  {
    var i :| 0 <= i < |pods| && OfferedBy(pass, pods[i], containerId, x);
    var bag := BagOfPod(pods[i]);
    InBagIff(pods, bag);
    InBagIff(pods', bag);
    var j :| 0 <= j < |pods'| && BagOfPod(pods'[j]) == bag;
    BagOffersTheSame(pass, pods[i], containerId, x);
    BagOffersTheSame(pass, pods'[j], containerId, x);
  }

  lemma {:induction false} BagConcat(a: seq<Pod>, b: seq<Pod>)
    ensures BagOf(a + b) == BagOf(a) + BagOf(b)
  {
    if a == [] {
      assert a + b == b;
    } else {
      assert (a + b)[1..] == a[1..] + b;
      BagConcat(a[1..], b);
    }
  }

  lemma FrontStatus(statuses: seq<ContainerStatus>, status: ContainerStatus) returns (front: seq<ContainerStatus>)
    requires status in statuses
    ensures multiset(front) == multiset(statuses) && front != [] && front[0] == status
  {
    var k :| 0 <= k < |statuses| && statuses[k] == status;
    front := [status] + (statuses[..k] + statuses[k + 1..]);
    assert statuses == statuses[..k] + ([status] + statuses[k + 1..]);
  }

  lemma FrontPod(pods: seq<Pod>, i: nat, pod: Pod)
    requires i < |pods| && BagOfPod(pod) == BagOfPod(pods[i])
    ensures Reordered(pods, [pod] + (pods[..i] + pods[i + 1..]))
  {
    var rest := pods[i + 1..];
    assert pods == pods[..i] + ([pods[i]] + rest);
    BagConcat(pods[..i], [pods[i]] + rest);
    BagConcat([pods[i]], rest);
    BagConcat([pod], pods[..i] + rest);
    BagConcat(pods[..i], rest);
    assert BagOf([pod]) == BagOf([pods[i]]);
  }

  /** The same pods with the status of one match listed first of all. */
  lemma MovedToFront(pods: seq<Pod>, containerId: string, pass: Pass, x: ContainerIdentity) returns (pods': seq<Pod>)
    requires Offered(pass, pods, containerId, x)
    ensures Reordered(pods, pods') && MatchContainer(pods', containerId, pass) == Some(x)
  {
    var i :| 0 <= i < |pods| && OfferedBy(pass, pods[i], containerId, x);
    var pod := pods[i];
    var status :| status in pod.containerStatuses.value && Offers(pass, pod, status, containerId, x);
    var front := FrontStatus(pod.containerStatuses.value, status);
    var pod' := pod.(containerStatuses := Some(front));
    pods' := [pod'] + (pods[..i] + pods[i + 1..]);
    FrontPod(pods, i, pod');
    assert MatchPod(pod', containerId, pass) == Some(x);
  }

  ghost predicate AgreesInPass(pass: Pass, pods: seq<Pod>, containerId: string) {
    forall x, y :: Offered(pass, pods, containerId, x) && Offered(pass, pods, containerId, y) ==> x == y
  }

  lemma SameDecidingPass(pods: seq<Pod>, pods': seq<Pod>, containerId: string)
    requires Reordered(pods, pods')
    ensures Deciding(pods, containerId) == Deciding(pods', containerId)
  {
    forall x
      ensures Offered(RunningPass, pods, containerId, x) <==> Offered(RunningPass, pods', containerId, x)
    {
      if Offered(RunningPass, pods, containerId, x) {
        OfferedSurvivesReordering(RunningPass, pods, pods', containerId, x);
      }
      if Offered(RunningPass, pods', containerId, x) {
        OfferedSurvivesReordering(RunningPass, pods', pods, containerId, x);
      }
    }
  }

  lemma AgreeingOrderIsIrrelevant(pods: seq<Pod>, pods': seq<Pod>, containerId: string)
    requires Reordered(pods, pods') && AgreesInPass(Deciding(pods, containerId), pods, containerId)
    ensures IdentityFromPods(pods', containerId) == IdentityFromPods(pods, containerId)
  {
    var pass := Deciding(pods, containerId);
    SameDecidingPass(pods, pods', containerId);
    PassFindsAnOffer(pods, containerId, RunningPass);
    PassFindsAnOffer(pods', containerId, RunningPass);
    PassFindsAnOffer(pods, containerId, pass);
    PassFindsAnOffer(pods', containerId, pass);
    var r, r' := MatchContainer(pods, containerId, pass), MatchContainer(pods', containerId, pass);
    if r.Some? {
      OfferedSurvivesReordering(pass, pods, pods', containerId, r.value);
    }
    if r'.Some? {
      OfferedSurvivesReordering(pass, pods', pods, containerId, r'.value);
    }
  }

  lemma DecidedByPass(pods: seq<Pod>, containerId: string)
    ensures IdentityFromPods(pods, containerId) == MatchContainer(pods, containerId, Deciding(pods, containerId))
  {
    PassFindsAnOffer(pods, containerId, RunningPass);
  }

  /** The order of pods and of statuses decides nothing, exactly when the matches of the
      deciding pass all describe the same container. */
  lemma OrderIndependentIff(pods: seq<Pod>, containerId: string)
    ensures (forall pods' :: Reordered(pods, pods') ==>
               IdentityFromPods(pods', containerId) == IdentityFromPods(pods, containerId))
            <==> AgreesInPass(Deciding(pods, containerId), pods, containerId)
  {
    var pass := Deciding(pods, containerId);
    if AgreesInPass(pass, pods, containerId) {
      forall pods' | Reordered(pods, pods')
        ensures IdentityFromPods(pods', containerId) == IdentityFromPods(pods, containerId)
      {
        AgreeingOrderIsIrrelevant(pods, pods', containerId);
      }
    } else {
      var x, y :| Offered(pass, pods, containerId, x) && Offered(pass, pods, containerId, y) && x != y;
      var first := MovedToFront(pods, containerId, pass, x);
      var second := MovedToFront(pods, containerId, pass, y);
      SameDecidingPass(pods, first, containerId);
      SameDecidingPass(pods, second, containerId);
      DecidedByPass(first, containerId);
      DecidedByPass(second, containerId);
      assert IdentityFromPods(first, containerId) != IdentityFromPods(second, containerId);
    }
  }

  // ----- the kubelet's own ids -----

  ghost predicate SchemeAndId(reported: string, scheme: string, id: string) {
    reported == scheme + "://" + id && NoLongHex(scheme) && CgroupLayouts.IsId(id)
  }

  /** Every id reported has the kubelet's form. */
  ghost predicate KubeletIds(pods: seq<Pod>) {
    forall pod, status, pass ::
      pod in pods && pod.containerStatuses.Some? && status in pod.containerStatuses.value && Candidate(pass, status).Some? ==>
        exists scheme, id :: SchemeAndId(Candidate(pass, status).value, scheme, id)
  }

  /** End to end: with ids in the kubelet's form, whatever a cgroup file yields resolves, if at
      all, to a container whose reported id ends in exactly the id the file named. */
  lemma ResolvedContainerIsTheOneNamed(pods: seq<Pod>, cgroup: string)
    requires KubeletIds(pods) && ContainerId.ExtractContainerId(cgroup).Some?
    ensures var id := ContainerId.ExtractContainerId(cgroup).value;
            var r := IdentityFromPods(pods, id);
            r.Some? ==> exists scheme :: SchemeAndId(r.value.containerId, scheme, id)
  {
    var id := ContainerId.ExtractContainerId(cgroup).value;
    ExtractedIsId(cgroup);
    var r := IdentityFromPods(pods, id);
    if r.Some? {
      ResolvesFromDecidingPass(pods, id);
      var pass := Deciding(pods, id);
      var i :| 0 <= i < |pods| && OfferedBy(pass, pods[i], id, r.value);
      var status :| status in pods[i].containerStatuses.value && Offers(pass, pods[i], status, id, r.value);
      var scheme, reportedId :| SchemeAndId(Candidate(pass, status).value, scheme, reportedId);
      NamesIffTrailingId(scheme, reportedId, id);
      assert SchemeAndId(r.value.containerId, scheme, id);
    }
  }

  lemma ExtractedIsId(cgroup: string)
    requires ContainerId.ExtractContainerId(cgroup).Some?
    ensures CgroupLayouts.IsId(ContainerId.ExtractContainerId(cgroup).value)
  {
    ContainerId.ExtractsMaximalRun(cgroup);
    var p: nat :| ContainerId.MaximalRun(cgroup, p)
                  && ContainerId.ExtractContainerId(cgroup) == Some(ContainerId.TextAt(cgroup, p));
    CgroupLayouts.AllHexByText(cgroup, p);
  }
}
