/** Shared vocabulary: optional values, unsigned 64-bit clock readings and the events the
    probe hands to userspace. */
module Common {
  datatype Option<+T> = None | Some(value: T) {
    function GetOr(default: T): T {
      match this
      case Some(v) => v
      case None => default
    }
  }

  const U64_MAX: nat := 0xFFFF_FFFF_FFFF_FFFF

  /** A wall-clock reading in seconds. */
  type U64 = x: nat | x <= U64_MAX

  function SaturatingAdd(a: U64, b: U64): U64 {
    if a + b > U64_MAX then U64_MAX else a + b
  }

  function SaturatingSub(a: nat, b: nat): nat {
    if a < b then 0 else a - b
  }

  function Max(a: nat, b: nat): nat {
    if a < b then b else a
  }

  function Min(a: nat, b: nat): nat {
    if a < b then a else b
  }

  function Get<K>(m: map<K, nat>, k: K): nat {
    if k in m then m[k] else 0
  }

  /** The raw record of one kill; memory figures are kilobytes. */
  datatype OomKillEvent = OomKillEvent(
    pid: nat, comm: seq<bv8>,
    totalVm: nat, anonRss: nat, fileRss: nat, shmemRss: nat,
    uid: nat, pgtables: nat, oomScoreAdj: int)

  datatype ContainerIdentity = ContainerIdentity(
    namespace: string, podName: string, containerName: string,
    containerId: string, imageId: string)

  datatype EnrichedOomEvent = EnrichedOomEvent(
    raw: OomKillEvent,
    nodeName: Option<string>, namespace: Option<string>, podName: Option<string>,
    containerName: Option<string>, containerId: Option<string>, imageId: Option<string>,
    timestamp: U64)

  /** The node is known iff the caller has a resolver; the rest iff resolution succeeded. */
  function Enrich(raw: OomKillEvent, nodeName: Option<string>,
                  identity: Option<ContainerIdentity>, timestamp: U64): EnrichedOomEvent
  {
    match identity
    case Some(id) =>
      EnrichedOomEvent(raw, nodeName, Some(id.namespace), Some(id.podName),
                       Some(id.containerName), Some(id.containerId), Some(id.imageId), timestamp)
    case None =>
      EnrichedOomEvent(raw, nodeName, None, None, None, None, None, timestamp)
  }
}
