# OOM watcher: a verified model

A Dafny model of the OOM watcher: an eBPF probe on `oom:mark_victim`, a userspace loop that drains
its ring buffer, resolves each victim to a container, and keeps Prometheus series that a sweeper
later evicts. `dafny verify dfyconfig.toml` checks everything.

| file | what it holds |
|---|---|
| `SeriesStore.dfy` | the collector's seven keyed maps as a value, and what each call does to them |
| `MetricsCollector.dfy` | the collector as a class updated in place, proved to do exactly that |
| `StoreHistory.dfy` | every map as a function of the whole history of calls, one label set at a time |
| `Sums.dfy`, `StoreSafety.dfy` | ownership of the shared gauges; conservation of kills and evictions |
| `StoreTiming.dfy` | when series go: not too early, not too late, and how many there can be |
| `SweepInterleaving.dfy` | recorder, sweeper and pod watch interleaved between any two map touches |
| `SerialRefinement.dfy` | runs without overlap refine the whole-call store; runs that overlap and lose something |
| `SeriesTearing.dfy` | exactly when, after any interleaving, a tracked container lacks a series |
| `KillAccounting.dfy` | where every kill went, after any interleaving |
| `Pipeline.dfy` | probe, ring, reactor and loop as a step protocol |
| `EventSource.dfy`, `WatchLoop.dfy` | the ring source and the watch loop as imperative code |
| `DropCounter.dfy`, `Health.dfy` | the drop counter's arithmetic; the heartbeat and its timing bound |
| `Regex.dfy`, `ContainerId.dfy`, `CgroupLayouts.dfy` | the patterns' matcher, what extraction finds, and the layouts it is for |
| `PlainExtraction.dfy` | what extraction finds, in literal text |
| `Resolution.dfy` | matching an id against container statuses |
| `Text.dfy`, `TraceFormat.dfy`, `LayoutCheck.dfy` | the tracepoint format parser, and why passing the layout check is enough |
| `Common.dfy` | shared types |

## What the model shows about the code

- **Holding the sweep's lock does not protect increments.** The comment at
  `oom-watcher/src/metrics.rs:322-327` gives losing an increment as what the held lock rules out.
  `record_oom_event` updates the series before it takes that lock. So from any rest, a key a sweep
  finds stale can have its next kill overtaken: the sweep removes the series after the record has
  touched it, and the stamp then tracks a key with no kill series behind it
  (`OverlapCanLoseAnIncrement`). The gauges can go the same way, and from under a container that is
  alive: a stale restart is judged alone while the first kill of its sibling is being recorded, and
  takes the sibling's four gauges (`SiblingCanLoseItsGauges`).
- **What overlap does is known exactly.** A tracked series is missing if and only if a sweep removed
  it between its touch and the stamp of the same record, and no record has touched it since
  (`TrackedSeriesIff`); only a sweep and a record that overlap can do that
  (`SerialRunsTearNothing`). Every kill is in a live series, taken away by a sweep, or lost in a
  write to a removed series, and counted for its node in each case (`EveryKillAccounted`). No series
  leaks in any interleaving (`NoSeriesLeaks`).
- **The grace is a promise to kills recorded before the pod's deletion was due.** For calls that do
  not overlap, an increment stays for the shorter of TTL and 120 seconds if and only if the span fits
  the 64-bit clock and the pod had no deletion already waiting inside it (`IncrementSafeIff`). A kill
  recorded late, for a pod already reported deleted, can go at age zero. A record that overlaps a
  sweep has no such promise, as above.
- **The heartbeat limit leaves exactly 60 seconds for one event**: below or at it the probe never
  sees a stale loop, above it some run does (`StalenessLimitIsTight`).
- **Resolution depends on the order of pods and statuses exactly when two matches of the deciding
  pass describe different containers** (`OrderIndependentIff`); with the kubelet's own ids the
  substring test is equality of the trailing id (`NamesIffTrailingId`).

## Model

| member | source | states |
|---|---|---|
| MetricsCollector.MetricsCollector.RecordOomEvent | oom-watcher/src/metrics.rs:407-476 | In place, exactly what SeriesStore.RecordedEventShows says label by label and figure by figure; the maps stay the replay of the whole history |
| SeriesStore.RecordedEventShows | oom-watcher/src/metrics.rs:407-476 | After any calls, one event more: one more kill under the event's own six labels, each "unknown" when missing, and on its node; both timestamps its own; each of the four named gauges of its container at the larger of its old value and 1024 times that named figure; nothing else changes |
| MetricsCollector.MetricsCollector.NotePodDeleted | oom-watcher/src/metrics.rs:292-298 | Schedules the pod 120 seconds on, saturating, and touches nothing else |
| MetricsCollector.MetricsCollector.CollectStale | oom-watcher/src/metrics.rs:330-347 | Whatever order the map is walked in, moves out exactly the keys that aged out or whose pod is due, each once |
| MetricsCollector.MetricsCollector.DrainDue | oom-watcher/src/metrics.rs:306-320 | Takes out every due deletion and only those, whether or not any series matches |
| MetricsCollector.MetricsCollector.RemoveSeries | oom-watcher/src/metrics.rs:373-390 | Removes both id-keyed series, the four gauges only if orphaned, and counts one eviction on the key's node |
| MetricsCollector.MetricsCollector.EvictStale | oom-watcher/src/metrics.rs:300-359 | However the hash maps are ordered, the sweep has the one set-valued effect: stale keys gone, gauges gone exactly when no survivor shares them, evictions counted per node; it returns the number removed |
| MetricsCollector.MetricsCollector.RecordDroppedTotal | oom-watcher/src/metrics.rs:481-491 | Keeps the drop counter equal to the sum of rises over all readings |
| SeriesStore.OrphansOneMore | oom-watcher/src/metrics.rs:349-357 | Judging each stale key in turn against the survivors adds up to the set of orphaned containers |
| StoreHistory.HistoryRefinement | oom-watcher/src/metrics.rs:300-476 | After any calls each kill counter is the number of events since the key's last eviction, both timestamps the last event's, each gauge 1024 times the peak since the sweep that last took the container's last restart, each deletion the latest notice not yet acted on, each node counter and eviction counter its own count over the history |
| StoreHistory.GaugesGoWithTheLastRestart | oom-watcher/src/metrics.rs:349-385 | After any calls a sweep takes a container's gauges exactly when, by the history alone, it evicts some restart of it and leaves none |
| StoreSafety.GaugesOwned | oom-watcher/src/metrics.rs:349-385 | In every reachable state kills, timestamps and tracked keys have one key set, and a container has its four gauges exactly while some restart of it is tracked |
| StoreSafety.KillsConserved | oom-watcher/src/metrics.rs:416-420 | Per node, the node counter is the number of events and equals live kills plus those carried away by evictions |
| StoreSafety.EvictionsConserved | oom-watcher/src/metrics.rs:386-389 | Per node, label sets born are live or counted as evicted |
| StoreSafety.EvictionCounterMatchesReturns | oom-watcher/src/metrics.rs:358-390 | Over all nodes the eviction counter is the sum of every sweep's return value |
| StoreTiming.NoPrematureEviction | oom-watcher/src/metrics.rs:292-347 | Whatever the clock does, a removal comes at least the TTL after the key's latest event or at the due time of the latest notice for its pod |
| StoreTiming.IncrementSafeIff | oom-watcher/src/metrics.rs:20-27 | For calls that do not overlap, an increment survives the shorter of TTL and grace under every steady-clock continuation if and only if the span fits the clock and no deletion already waiting falls inside it |
| StoreTiming.DeletionTakesExactlyThePod | oom-watcher/src/metrics.rs:292-345 | After any calls, a notice and a sweep: each tracked series goes exactly if it aged out, or is of the named namespace and pod and this notice's grace is over, or is of another pod whose own deletion is due |
| StoreTiming.CardinalityBound | oom-watcher/src/main.rs:166-177 | With sweeps at most an interval apart, live series number at most the events of the window, gauges four times that, and every scheduled deletion is younger than the grace plus the interval |
| SweepInterleaving.NoSeriesLeaks | oom-watcher/src/metrics.rs:301-358 | In every interleaving every per-container series is tracked, in the record in flight, or still to be removed by the running sweep |
| SweepInterleaving.QuiescentIsEvictable | oom-watcher/src/metrics.rs:416-475 | At rest every series is tracked, and a sweep that finds all keys stale leaves none |
| SerialRefinement.FinishWholeRecord | oom-watcher/src/metrics.rs:407-476 | The fourteen touches of one record, uninterrupted, are the one-step record |
| SerialRefinement.FinishRemovingAll | oom-watcher/src/metrics.rs:349-358 | Removing the stale keys one map at a time, in any listed order, is the one-step removal of their set |
| SerialRefinement.SerialRunsRefine | oom-watcher/src/metrics.rs:300-476 | Without overlap of record and sweep, every point of every run is the replay of the calls begun |
| SeriesTearing.TrackedSeriesIff | oom-watcher/src/metrics.rs:416-475 | In every interleaving a kill, timestamp or gauge series of a tracked container, or of one being recorded and past its touch, exists if and only if no sweep removed it between the latest record's touch and stamp |
| SeriesTearing.OwnedIffNothingTorn | oom-watcher/src/metrics.rs:117-122 | At rest exactly the tracked label sets have series, and all of them, if and only if none of theirs was torn that way |
| SeriesTearing.SerialRunsTearNothing | oom-watcher/src/metrics.rs:322-329 | A run in which no record overlaps a sweep tears nothing |
| KillAccounting.EveryKillAccounted | oom-watcher/src/metrics.rs:416-420 | At every point of every interleaving, each node's kills are unwritten in flight, in live series, taken by sweeps, or lost in writes to removed series, and its counter has all but the one in flight |
| SerialRefinement.OverlapCanLoseAnIncrement | oom-watcher/src/metrics.rs:322-329 | From any reachable rest, for any event of a tracked key that a sweep with any TTL finds stale, a run that ends at rest with the key tracked and its kill and timestamp series gone |
| SerialRefinement.SiblingCanLoseItsGauges | oom-watcher/src/metrics.rs:349-357 | From any reachable rest whose restarts of a container are all stale, for the first event of another restart, a run that ends with that restart tracked, its kill series there, and every gauge of the container gone |
| SerialRefinement.AnyTwoKillsCanOverlap | oom-watcher/src/metrics.rs:416-475 | Both happen for any two events of one container and any TTL the clock has room for |
| DropCounter.CounterIsLastPlusFalls | oom-watcher/src/metrics.rs:477-491 | The sum of the rises is the last reading plus all falls |
| DropCounter.CounterNeverDecreases | oom-watcher/src/metrics.rs:477-491 | A later reading never lowers the counter |
| DropCounter.CounterCoversEveryReading | oom-watcher/src/metrics.rs:477-491 | The counter is at least every reading |
| DropCounter.ExactIffNeverFell | oom-watcher/src/metrics.rs:477-491 | It equals the last reading exactly when readings never fell |
| Pipeline.Conservation | oom-watcher/src/source.rs:106-136 | Over every interleaving, firings read are recorded, in hand, pending, in the ring or dropped, and events are recorded in ring order, none lost or repeated |
| Pipeline.CancelSafe | oom-watcher/src/watch.rs:72-81 | A parked `next` holds nothing pending, and records waiting behind it have their wakeup set or on the way |
| Pipeline.NothingUnaccounted | oom-watcher/src/watch.rs:84-91 | The drop counter is the last total reported, and what kills and drops do not yet show is exactly what is in flight plus drops since |
| Pipeline.NothingStranded | oom-watcher/src/source.rs:106-135 | From every reachable state, however loop and reactor are scheduled, they rest within a bounded number of steps, and at rest every accepted event is recorded, in order, without another kill or a tick |
| EventSource.RingBufSource.MarkVictim | oom-watcher-ebpf/src/main.rs:54-93 | One firing: nothing if unreadable, else the record is appended, or the drop is counted on that CPU when the ring is full |
| EventSource.RingBufSource.ReadOne | oom-watcher/src/source.rs:122-132 | A whole record moves to pending, a short one is passed over; nothing in flight is lost |
| EventSource.RingBufSource.Next | oom-watcher/src/source.rs:106-136 | With firings landing anywhere between its reads, what it hands out and what stays in flight is what was in flight plus what was accepted, in order; what is pending is handed out at once; cancelled, it leaves nothing pending; it ends exactly on a failed wait with nothing pending |
| EventSource.RingBufSource.DroppedTotal | oom-watcher/src/source.rs:138-146 | The sum over CPUs, or nothing when the map cannot be read |
| WatchLoop.ProcessEvent | oom-watcher/src/watch.rs:108-136 | Records one call more, field by field: the raw event, the node as given, this time, and the five container fields as resolved if there is a resolver that found them, none of them otherwise |
| WatchLoop.Turn | oom-watcher/src/watch.rs:72-96 | A turn that polls the source records the first event in flight or landing, whenever there is one, and reports drops after it; one the tick wins, or that finds none, records nothing; it ends exactly when the wait breaks with nothing pending, and otherwise stamps the heartbeat |
| WatchLoop.Run | oom-watcher/src/watch.rs:58-97 | Over any script of arrivals, ticks and failures, recorded plus in flight is what was accepted, in order; every turn that polls an unbroken source with something to take has recorded one; the node counter is the number recorded; the drop counter is the last total reported, at most the drops so far |
| WatchLoop.PollsServe | oom-watcher/src/watch.rs:72-96 | So after as many polls as there were events waiting, those are recorded, whatever else happens meanwhile |
| Health.Health.CheckLiveness | oom-watcher/src/health.rs:72-84 | Starting iff not started, Stale iff started and the beat is more than 90 seconds old, with the age reported; a clock stepped back reads as age zero |
| Heartbeat.NeverStale | oom-watcher/src/health.rs:23-27 | With any pattern of events and ticks, between the two start-up stores included, the probe sees Starting or an age of at most 90 if one event takes at most 60 |
| Heartbeat.StalenessLimitIsTight | oom-watcher/src/watch.rs:72-96 | That holds of every run if and only if one event takes at most 60 seconds |
| Regex.EitherThen | oom-watcher/src/kubernetes.rs:40-46 | Alternation keeps its preference order through what follows it |
| Regex.LazyNearest | oom-watcher/src/kubernetes.rs:40-46 | A lazy run followed by a pattern prefers the nearest place that pattern matches |
| ContainerId.ByRuntime | oom-watcher/src/kubernetes.rs:42 | The first pattern finds the first runtime-prefixed run, and nothing exactly when there is none |
| ContainerId.ByKubepods | oom-watcher/src/kubernetes.rs:43 | The second finds the first run with `/kubepods` earlier on its line, and nothing exactly when there is none |
| ContainerId.ByCatchAll | oom-watcher/src/kubernetes.rs:44 | The third finds the first delimited run, and nothing exactly when there is none |
| ContainerId.ExtractsChosen | oom-watcher/src/kubernetes.rs:55-61 | On every text extraction takes the run the three rules choose, and nothing exactly when no delimited run exists |
| ContainerId.ChosenIsUnique | oom-watcher/src/kubernetes.rs:32-35 | At most one position is chosen |
| ContainerId.ExtractsMaximalRun | oom-watcher/src/kubernetes.rs:36-39 | What is extracted is a maximal lower-case hex run of exactly 64 |
| PlainExtraction.ExtractsInPlainText | oom-watcher/src/kubernetes.rs:40-61 | The same rule with its own alphabet, lengths and literals: on every text the first 64 characters of 0123456789abcdef after a dash or slash that no further one follows, those after a runtime's name before those below `/kubepods` before the rest, and nothing exactly when there are none |
| PlainExtraction.ExtractedIsPlainId | oom-watcher/src/kubernetes.rs:42-44 | What is extracted is 64 characters of that alphabet |
| PlainExtraction.PlainLayoutRoundTrip | oom-watcher/src/kubernetes.rs:20-30 | Any 64 characters of it are extracted from every listed layout |
| CgroupLayouts.LayoutRoundTrip | oom-watcher/src/kubernetes.rs:20-30 | For each listed layout, any id and any surroundings without a delimited run, extraction gives back the id |
| CgroupLayouts.FileRoundTrip | oom-watcher/src/kubernetes.rs:478-485 | The multi-line file of a process yields its container's id if any line carries it, in whatever layouts, and otherwise nothing |
| Resolution.NamesIffTrailingId | oom-watcher/src/kubernetes.rs:109-111 | For ids of the form scheme://64-hex the substring test is equality of the trailing id |
| Resolution.PassFindsAnOffer | oom-watcher/src/kubernetes.rs:115-156 | A pass returns one of its matches, and nothing only when it has none |
| Resolution.ResolvesRunningThenReplaced | oom-watcher/src/kubernetes.rs:72-105 | In the statuses' own fields: a container whose `containerId` contains the id is found before any other, failing that one whose `lastState.terminated.containerId` does, failing that nothing; the identity is that status's and its pod's, the id verbatim |
| Resolution.FirstPodTaken | oom-watcher/src/kubernetes.rs:120-128 | Of several pods with a match a pass takes the first |
| Resolution.FirstStatusTaken | oom-watcher/src/kubernetes.rs:125-128 | And within it the first status that matches |
| Resolution.OrderIndependentIff | oom-watcher/src/kubernetes.rs:72-156 | The result is the same for every order of pods and statuses if and only if the deciding pass's matches agree |
| Resolution.ResolvedContainerIsTheOneNamed | oom-watcher/src/kubernetes.rs:361-377 | From cgroup text to identity: what resolves is a container whose reported id ends in the id the file named |
| Text.LinesAreTheLines | oom-watcher/src/tracepoint.rs:93 | Splitting text ended line by line, either way, gives the lines without their endings |
| Text.DecimalParses | oom-watcher/src/tracepoint.rs:116-125 | Printing and parsing a number is the identity exactly when it fits 64 bits |
| Text.ParsesIff | oom-watcher/src/tracepoint.rs:116-125 | A number is accepted exactly as an optional plus sign, any zeros and a decimal that fits 64 bits |
| TraceFormat.NameRoundTrip | oom-watcher/src/tracepoint.rs:97-107 | Any declaration, pointer stars, array suffix and padding reduce to the bare name |
| TraceFormat.AttributesRoundTrip | oom-watcher/src/tracepoint.rs:116-125 | Offset and size are read back from the attribute run, whatever follows them |
| TraceFormat.FirstThatGives | oom-watcher/src/tracepoint.rs:116-125 | The first part that holds a number for the key decides; parts that name it without one are passed over |
| TraceFormat.RoundTrip | oom-watcher/src/tracepoint.rs:92-113 | For every list of field lines mixed with other lines, parsing the printed text gives exactly the fields, in order |
| TraceFormat.UnendedRoundTrip | oom-watcher/src/tracepoint.rs:92-113 | The same when the last line is not ended |
| TraceFormat.KernelLineParses | oom-watcher/src/tracepoint.rs:87-91 | Every line as the kernel prints it, tab, words of a type, space, name, array suffix and attributes, is read as its field |
| TraceFormat.ReprintIsStable | oom-watcher/src/tracepoint.rs:92-113 | For every text, the fields read survive being printed and read again |
| LayoutCheck.CheckReportsExactly | oom-watcher/src/tracepoint.rs:128-146 | One report per required field whose first occurrence is absent or elsewhere, each telling what is wrong, in required order, and no others |
| LayoutCheck.CheckPassesIff | oom-watcher/src/tracepoint.rs:128-146 | No report exactly when every required field's first occurrence is in place |
| LayoutCheck.CheckAcceptsExactlySafeLayouts | oom-watcher/src/tracepoint.rs:14-15 | The check passes exactly when, for every entry, reading each required field at the probe's place and at the kernel's gives the same bytes |
| LayoutCheck.MembersApart | oom-watcher-ebpf/src/main.rs:35-51 | Under the C layout rules members are aligned, in order and never overlap |
| LayoutCheck.ArgsLayout | oom-watcher-ebpf/src/main.rs:35-51 | The probe's struct puts its members at the commented offsets and spans 72 bytes |
| LayoutCheck.EventSize | oom-watcher-common/src/lib.rs:17-30 | A ring record is 80 bytes, the length the source requires |
| LayoutCheck.AcceptedEntriesDecodeRight | oom-watcher-ebpf/src/main.rs:54-78 | On a kernel that passes, every figure of the event is the value of the field the kernel declares under the required name |
| LayoutCheck.FiguresAreWhatTheKernelWrote | oom-watcher-ebpf/src/main.rs:54-78 | And that value is the number whose bytes, lowest first, the kernel wrote there |
| LayoutCheck.AdjustmentIsWhatTheKernelWrote | oom-watcher-ebpf/src/main.rs:49-78 | And the signed adjustment the one written in two's complement |

## Left out

- The `kube` client, reflector and watch backoff, the pod cache's readiness latch (`oom-watcher/src/kubernetes.rs:182-316`) and `prune_for_cache`: library behaviour, and one-branch checks around it.
- `record_resolution_outcome` and log output: one branch each.
- Prometheus registration and text encoding, HTTP routes, environment parsing, signals and task supervision: plumbing.
- Loading and attaching the probe, `unsafe` reads and the copy of `comm`: foreign calls. Whether arguments can be read and whether the ring has room are choices of the environment; the command name is a parameter.
- `/proc` and tracefs reads: their contents are parameters.
- Wrap-around of `kilobytes * 1024` and rounding of gauges and counters held as `f64`: figures are natural numbers, which agrees with the code for figures below 2^53 / 1024 kilobytes.
- Counters and drop totals as unbounded numbers: 64-bit wrap-around of the sum over CPUs is not modelled; clocks are 64-bit and saturate as in the code.
- Memory orderings beyond the two stores of `mark_started` in sequence.
- Reading all per-CPU drop counts is one step; so are one touch of a series and one write through its handle.
- Removing a series and a write through a handle taken earlier: the write is lost, as the metric library's handles behave.
- Process shutdown, which aborts the tasks where they stand.
- WatchLoop.Run: the script fixes in advance what arrives in each turn, so fairness between source and ticker is a choice of the script; `Pipeline` leaves it open.
- Heartbeat.NeverStale: assumes the loop is scheduled promptly, so time passes only while it waits for a tick not yet due or processes one event.
- TraceFormat.RoundTrip: array suffixes contain no white space, since a suffix with a space makes the last token something other than the name.
- Unicode beyond the White_Space property: characters are scalar values and all matching here is on ASCII.
