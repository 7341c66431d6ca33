# Mitigador: the detection spine, modelled and proved

Mitigador counts flow records per host in a sliding window, judges every host once a second against a catalog of
thresholds, keeps one incident machine per (host, vector), and hands the machine's events over lossy channels to an
incident table and to alert senders. This project models that spine as Dafny classes with the fields, loops and
branches of the Go code, gives every class a specification on plain values, and proves what whole runs of it do.

`dafny verify dfyconfig.toml` checks everything.

How the pieces fit:

- **Counters.** `Traffic`, `Window`, `Hosts`, `Overview`, `Ranking` say what the sharded store means: one flat table
  of 60-slot rings, driven by a history of `Update` and `Tick` operations. `Store` holds the classes (`HostRing`,
  `Shard`, `Store`) that refine it, and `Locks` shows that ticking shard by shard is one tick. The reference they are
  compared with is the raw flow log, `Window.Logged`, with unbounded counts; a `uint64` counter is such a count modulo
  2^64.
- **Detection.** `Thresholds` is the catalog, `Judgement` what one tick decides about one host, `Lifecycle` the machine
  of one key over a whole run, `StateMachine` the object that implements it, `Detection` the engine's memory over runs
  that mix all keys, `Identity` incident names, `HostOrder` the irrelevance of the visiting order, `Visits` the real
  interleaving of evaluations with updates, and `Engine` the object.
- **After detection.** `Channels` are Go's buffered channels, `Bus` the fan-out, `Incidents` the two tables and the
  recorder, `Persistence` what the tables say about a run, `Pipeline` the wired system as interleaved moves on values, and
  `Daemon` the objects wired as at start-up, each step of which is one of those moves.
- **On their own.** `Health` (lazily cleared arrival ring), `Recent` (overwrite-oldest ring), `Telegram` (bounded queue
  with bounded retry), `NetFlow` (the v9 encoder and a decoder after sections 5.1 to 5.3 and 8 of RFC 3954), `Markdown` (the
  MarkdownV2 escaper), `Text` and `RouterOS` (the as-value and uptime parsers). `Sorting` is the repository's insertion
  sort and also stands for `sort.Slice`; its callers rely only on "sorted" and "a permutation".

Two hypotheses recur. A run is `Window.Disciplined` when ticks come every second and an update between `Tick(T)` and
`Tick(T+1)` has a second from T-58 to T+1; the code does not catch up missed ticks, so the window law needs this. The
catalog has `PositiveWindows`, which the schema's CHECK on `min_window_sec` gives; without it the averaging would divide
by zero.

Where code and comments disagree, the model follows the code:

- A snapshot taken at the tick's own second `T` has second `T+1`, not `T-59`, at index 59
  (`internal/aggregate/store.go:83-84` promises otherwise). `Window.DocumentedWindow` says exactly when the comment holds.
- `internal/alert/telegram/sender.go:134` speaks of a fourth attempt; the code sends a message at most three times.
- The arrival rate of an exporter covers the minute that ends at its last flow, while `internal/ingest/health.go:118`
  speaks of the last minute. `Health.RateIsCurrent` and `Health.RateIsAlwaysCurrent` say exactly when the two agree, and
  `Health.StaleRate` gives an exporter for which they do not.
- `2*x` on `uint64` wraps in the majority test and in the doubled-peak test. `Judgement.DominatingIsMajority`,
  `Judgement.JudgesExactly`, `Lifecycle.EscalationIsExactIfStartFits` and `Lifecycle.UpdatedWhenDoubled` say exactly when
  that matters; `Judgement.HugeFloodIsMissed` and `Lifecycle.HugeStartUpdatesAtOnce` are runs on which it does.
- The `int64` peak columns hold the greatest delivered peak exactly when all delivered peaks fit
  (`Persistence.DeliveredPeaks`); `Persistence.HugePeakIsStoredNegative` is an event for which it does not.
- The escaper does not escape backslashes; `Markdown.EscapingIsInverted` says exactly which texts survive, and
  `Markdown.BackslashIsLost` is one that does not.

## Model

| member | source | states |
|---|---|---|
| Window.SlotsCoincide | internal/aggregate/store.go:65-66 | Two seconds, before 1970 too, share a ring slot if and only if they are a multiple of 60 apart |
| Window.WindowLaw | internal/aggregate/store.go:51-142 | On every disciplined run, after `Tick(T)` the slot of every second from T-58 to T+1 holds, per protocol, exactly what the log recorded for that host and second; a host without a ring counts as all zeros |
| Window.Recency | internal/aggregate/store.go:61-63 | Every logged record is at most one second ahead of the clock, and is either covered by its host's last-seen second or older than the window |
| Window.AbsentHostsAreSilent | internal/aggregate/store.go:133-137 | Eviction loses nothing live: a host without a ring has no record logged in the last 60 seconds or later |
| Window.LastSecIsLastSeen | internal/aggregate/store.go:61-63 | On every disciplined run since the epoch, a host's last-seen second is the greatest second logged for it |
| Window.LiveExactly | internal/aggregate/store.go:134-152 | From the clock's second on, a host is in the table and live if and only if a record of it was logged at now-60 or later |
| Window.PresentExactly | internal/aggregate/store.go:129-142 | Right after Tick(T) a host is in the table if and only if a record of it was logged at T-60 or later: eviction takes neither more nor less |
| Hosts.LiveHostsFollowTheLog | internal/aggregate/store.go:146-158 | The hosts listed as active are exactly those with a record of the last 60 seconds, each with the last second logged for it |
| Window.LogAddsRecords | internal/aggregate/store.go:67-80 | The log of a host and second adds up the packets and bytes of its records, in all, of protocol 17, and of protocols 1 and 58 |
| Window.RingCountsTheLog | internal/aggregate/store.go:186-195 | On every disciplined run the sums over the sixty slots of a ring count the host's log of the seconds from T-58 to T+1 |
| Window.SnapshotAtTick | internal/aggregate/store.go:85-107 | Read at the tick's own second, bucket i counts the log of second T-i for i up to 58, and index 59 counts second T+1 |
| Window.SnapshotAfterTick | internal/aggregate/store.go:85-107 | Read one second later, all 60 buckets count the log of their seconds |
| Window.DocumentedWindow | internal/aggregate/store.go:83-84 | The comment's promise that bucket i is second now-i holds on all disciplined runs read at the tick's second if and only if the window is below 60 |
| Window.FullWindowMisreads | internal/aggregate/store.go:101-105 | A concrete run, one packet for 0.0.0.0 stamped one second ahead: index 59 of a full snapshot shows it, while the log of that index's second is empty |
| Window.ReachableBucketsBalance | internal/aggregate/store.go:67-80 | In every bucket reachable by any run, disciplined or not, totals equal UDP plus ICMP plus other on uint64 |
| Window.MergeBalances | internal/aggregate/bucket.go:19-28 | Merging keeps total = UDP + ICMP + other |
| Traffic.ChargeCounts | internal/aggregate/store.go:67-80 | Adding a record to the bucket that counts a tally gives the bucket that counts the tally with the record, for every protocol and across wrap-around |
| Traffic.MergeCounts | internal/aggregate/bucket.go:19-28 | Merging two buckets that count tallies counts the sum of the tallies, across wrap-around |
| Hosts.MergedAfterUpdate | internal/aggregate/store.go:42-52 | Updating the owning shard updates the flat table, for any shard count and any hash |
| Hosts.MergedTick | internal/aggregate/store.go:129-142 | Ticking the shards one by one ticks the flat table |
| Hosts.MergedLive | internal/aggregate/store.go:146-158 | Walking the shards meets every live host of the flat table, and no host in two shards |
| Store.HostRing.Record | internal/aggregate/store.go:61-80 | The ring object after one record: its slot charged, its last second raised and never lowered |
| Store.HostRing.Row | internal/aggregate/store.go:180-210 | A host gets a row if and only if it is live and has bytes; the row holds its ring's sums and dominant protocol |
| Store.HostRing.MergeInto | internal/aggregate/overview.go:27-30 | Every accumulator index gains exactly the bucket of its second |
| Store.Shard.Update | internal/aggregate/store.go:53-80 | A shard's table after one record, creating the ring of an unknown host |
| Store.Shard.Tick | internal/aggregate/store.go:132-140 | A shard's table after a tick: cold hosts gone, the next slot cleared for all others, nothing else changed |
| Store.Shard.Snapshot | internal/aggregate/store.go:93-106 | A shard's answer is the flat snapshot of its own table |
| Store.Shard.ActiveHosts | internal/aggregate/store.go:149-155 | Lists each live host of the shard exactly once with its last second, whatever the map order |
| Store.Shard.TopRows | internal/aggregate/store.go:178-212 | Lists the row of each live host with bytes exactly once, whatever the map order |
| Store.Shard.AddTo | internal/aggregate/overview.go:21-32 | Adds exactly the live hosts' buckets to the accumulator and counts those hosts, whatever the map order |
| Store.Store.constructor | internal/aggregate/store.go:26-38 | As many empty shards as asked for, or as there are cores, or one |
| Store.Store.Update | internal/aggregate/store.go:51-81 | The sharded store still stands for the flat table replayed from its history, which grew by this update |
| Store.Store.Tick | internal/aggregate/store.go:129-142 | The sharded store still stands for the flat table replayed from its history, which grew by this tick |
| Store.Store.Snapshot | internal/aggregate/store.go:85-107 | Equals the flat table's snapshot, with the clamping and both nil cases |
| Store.Store.ActiveHosts | internal/aggregate/store.go:146-158 | Lists every live host of the flat table exactly once with its last second |
| Store.Store.Top | internal/aggregate/store.go:172-228 | At most n rows, sorted, one per host, each with its host's sums; no omitted candidate ranks above a listed one |
| Store.Store.Overview | internal/aggregate/overview.go:17-35 | Each bucket is the sum over all live hosts of the flat table, and the count is their number |
| Store.Rank | internal/aggregate/store.go:213-228 | The end of Top, over shards visited at different moments: sorted, cut at n, no host twice, nothing better omitted |
| Ranking.InterleavedScan | internal/aggregate/store.go:177-213 | With any Updates and Ticks between the shard visits, the rows collected are one per host, with the sums of its ring at the moment its own shard was visited |
| Store.RankMet | internal/aggregate/store.go:172-228 | Top as a whole with any Updates and Ticks between the shard visits: a sorted, distinct, cut top-n of the table in which every host stands as it did when its own shard was visited |
| Locks.ShareReplays | internal/aggregate/store.go:42-47 | A shard's share of the flat table is the replay of the ticks and of its own hosts' updates alone |
| Locks.TickIsAtomic | internal/aggregate/store.go:129-142 | With any updates between the shards' turns of a tick, the shards together are the flat table of a history of the same operations, each shard's in its own order, in which the tick is one step |
| Ranking.ScanListsCandidates | internal/aggregate/store.go:177-213 | Rows collected shard by shard list every candidate of the merged table exactly once |
| Ranking.DominantIsLargest | internal/aggregate/store.go:196-204 | The protocol named has the most bytes; ties go to udp, then icmp, then other |
| Ranking.RankBeforeIsComparator | internal/aggregate/store.go:215-220 | Bytes descending, then address text ascending, is an order that a sort may use |
| Ranking.ListsPermuted | internal/aggregate/store.go:215-220 | Reordering rows neither loses nor repeats a host |
| Ranking.SortedPrefixIsTop | internal/aggregate/store.go:221-227 | The first n sorted rows are a top-n: nothing left out ranks above anything kept |
| Ranking.TopAddsRings | internal/aggregate/store.go:184-210 | Every row of a top list gives the packets and bytes added up over its host's buckets on uint64, and the protocol with the most bytes there, ties to udp, then icmp, then other |
| Ranking.TopReadsTheLog | internal/aggregate/store.go:172-228 | On every disciplined run the top list is a ranking of the flow log: hosts heard of in the last 60 seconds with bytes logged from T-58 to T+1, each once, with the bytes, packets and dominant protocol logged, by bytes and then address text; nobody is left out while there is room or while ranking above a listed host |
| Sorting.InsertionSort | internal/api/dashboard.go:435-442 | In-place insertion sort ends sorted and a permutation, for every comparator |
| Overview.PileTake | internal/aggregate/overview.go:20-31 | The sum over hosts does not depend on which host the map yields first |
| Overview.PileIsSnapshotSum | internal/aggregate/overview.go:17-35 | The overview bucket is the pointwise sum of the hosts' 60-bucket snapshots in whatever order they are listed |
| Overview.OverviewCountsTheNetwork | internal/aggregate/overview.go:17-35 | On a disciplined run each overview bucket counts the whole network's log of its second, evicted hosts included |
| Overview.PileBalances | internal/aggregate/overview.go:26-30 | Every overview bucket balances on every run |
| Thresholds.PrefixesNest | internal/detect/thresholds.go:95-116 | Prefixes that share an address are nested, and are one network when equally long |
| Thresholds.LookupIsLongestMatch | internal/detect/thresholds.go:92-116 | The lookup returns exactly the configured thresholds of the longest prefix that contains the address, each as often as configured |
| Thresholds.LookupNamesOneNetwork | internal/detect/thresholds.go:93-94 | All thresholds returned are for one and the same set of addresses |
| Thresholds.FirstForMembers | internal/detect/thresholds.go:120-127 | A first entry for the vector exists if and only if some entry is for it, and in a sorted list no entry for the vector ranks before it |
| Thresholds.MatchingIsSorted | internal/detect/thresholds.go:95-116 | What a lookup in a sorted catalog returns is sorted |
| Thresholds.FirstIsChosen | internal/detect/thresholds.go:118-127 | In a sorted catalog the first result for the vector is a threshold of the longest containing prefix, for that vector, with no earlier hostgroup name among those; and if there is no result, no such threshold exists |
| Thresholds.ChosenIsUnique | internal/detect/thresholds.go:118-127 | Under that uniqueness the threshold chosen for a host and vector is the same in every ordering of the catalog |
| Thresholds.BeforeIsComparator | internal/detect/thresholds.go:36-44 | The catalog's order is one that a sort may use |
| Thresholds.StopEarly | internal/detect/thresholds.go:109-112 | Stopping at the first shorter match changes nothing: no later entry can be a result |
| Thresholds.ScanStep | internal/detect/thresholds.go:100-114 | What each further entry of a sorted catalog does to the best length and the results so far |
| Thresholds.Catalog.constructor | internal/detect/thresholds.go:32-46 | The entries are a sorted permutation of the configured thresholds |
| Thresholds.Catalog.Lookup | internal/detect/thresholds.go:95-116 | The early-breaking scan equals the scan of the whole catalog |
| Thresholds.Catalog.LookupByVector | internal/detect/thresholds.go:120-127 | Returns a threshold of the longest containing prefix for the vector, with no earlier hostgroup name among those, or nothing if there is none |
| Lifecycle.PeaksAreMaxima | internal/detect/state.go:147-153 | The peaks are the maxima of the current rates of all steps since the start |
| Lifecycle.QuietIsTrailing | internal/detect/state.go:155-157 | The grace counter is the length of the unbroken non-violating stretch |
| Lifecycle.ActiveIsExplained | internal/detect/state.go:98-209 | Every field of an active incident, read off the inputs since the step that started it, on every run |
| Lifecycle.StateFollowsEvents | internal/detect/state.go:98-220 | The machine is active exactly while its last event was no end, and idle exactly if it has emitted nothing or some step came more than 60 s after its last end: every cooldown ends |
| Lifecycle.StartedExactly | internal/detect/state.go:113-144 | In terms of emitted events and inputs alone: a step starts an incident if and only if it violates for at least MinWindowSec and either nothing was emitted before or the last event was an end and some step since came more than 60 s later; with every field of the event |
| Lifecycle.UpdatedExactly | internal/detect/state.go:183-208 | Updated is emitted exactly if the last event was no end and this is the first violating step since the start at which five minutes have passed or a peak exceeds the uint64 double of its start; with every field of the event |
| Lifecycle.EndedExactly | internal/detect/state.go:155-181 | Ended is emitted exactly if the last event was no end and the quiet stretch reaches the grace of the step's threshold, 60 if that is not positive; with every field of the event |
| Lifecycle.EndsAtExactlyGrace | internal/detect/state.go:108-111 | With a fixed threshold, an incident ends at exactly the graceSec-th consecutive non-violating step since the start or the last violation, the 60th if graceSec is not positive |
| Lifecycle.DoublingIsExact | internal/detect/state.go:189-190 | The doubled-peak test agrees with exact doubling for all later peaks if and only if the initial peak is below 2^63 |
| Lifecycle.EscalationIsExactIfStartFits | internal/detect/state.go:189-191 | On all runs from a given start, escalation with wrapped doubles agrees with escalation in exact arithmetic if and only if both rates at the start are below 2^63 |
| Lifecycle.UpdatedWhenDoubled | internal/detect/state.go:183-208 | If both rates at the start are below 2^63, the update fires exactly at the first violating step at which five minutes have passed or a peak has truly more than doubled; if not, exactly at the first violating step |
| Lifecycle.HugeStartUpdatesAtOnce | internal/detect/state.go:187-193 | A concrete machine run: an incident that starts at 2^63 packets emits its update at the very next violating step, at the same rate and time |
| Lifecycle.StepKeepsShape | internal/detect/state.go:98-220 | One step of any state keeps the event stream in shape and the state in agreement with it |
| Lifecycle.StreamShape | internal/detect/state.go:98-220 | On every run with non-decreasing time a key emits (started updated? ended)* and perhaps an unfinished tail, one id and start time per incident, each start strictly more than 60 s after the last end |
| StateMachine.MachineEntry.Advance | internal/detect/state.go:108-219 | The in-place switch does what the value-level step says, and draws an id only for a start |
| StateMachine.StateMachine.Step | internal/detect/state.go:98-220 | One key's entry advances, created if missing; every other entry keeps its value |
| StateMachine.StateMachine.EntryFor | internal/detect/state.go:102-106 | An unknown key gets an idle entry, and no entry changes value |
| StateMachine.UlidSource.New | internal/detect/state.go:90-94 | Every id drawn is new |
| Judgement.Classify | internal/detect/classify.go:9-26 | The loop's answer is the majority vector of the window's sums |
| Judgement.DominatingIsMajority | internal/detect/classify.go:16-25 | While the counters do not wrap, the answer is the exact majority if and only if UDP and ICMP packets are both below 2^63; beyond that a majority exists and none is found |
| Judgement.MaxWindowBounds | internal/detect/engine.go:90-96 | The widest window bounds every threshold's and is one of them, or zero |
| Judgement.WidthIsWidest | internal/detect/engine.go:90-100 | The snapshot judged covers the widest window of the thresholds, cut at 60 |
| Judgement.WindowFits | internal/detect/engine.go:119-123 | The divisor is at least 1 and never exceeds the snapshot |
| Judgement.SnapshotTotals | internal/detect/engine.go:124-128 | Sums over the first n buckets of a snapshot count the log of their seconds |
| Judgement.SilentWindow | internal/detect/engine.go:100-103 | A host the store does not know has an empty log over the window |
| Judgement.JudgesTheLog | internal/detect/engine.go:83-138 | On every disciplined run the verdict from the ring equals the verdict from the raw flow log; clearing and eviction are invisible |
| Judgement.RatesReadTheLog | internal/detect/engine.go:119-143 | On every disciplined run, for windows of any length: a verdict's current rates are the packets and bytes logged for the tick's own second on uint64, and its averages the logged sums over the threshold's window divided by its length |
| Judgement.LogWindowIsLastSeconds | internal/detect/engine.go:124-128 | For windows up to 59 the seconds judged are exactly the last n, ending at the tick's second |
| Judgement.DecidesExactly | internal/detect/engine.go:129-131 | Violating means packets of at least n*(PPS+1) or bytes of at least n*(BPS+1) over the threshold's own window |
| Judgement.JudgesExactly | internal/detect/engine.go:83-138 | While the counters do not wrap, the verdict is what exact arithmetic on the log calls for (majority, threshold, n*(limit+1)) if and only if doubling does not wrap or the majority has no threshold |
| Judgement.RingJudgesLastSeconds | internal/detect/engine.go:83-138 | In one statement: with windows up to 59 and counters that do not wrap, on every disciplined run the verdict from the ring is what the last seconds of the log call for in exact arithmetic (majority over the widest window; current rates of the tick's second; averages and violation from the packets and bytes of the threshold's own last seconds) if and only if the doubles fit or the majority has no threshold |
| Judgement.CatalogOrderIsInvisible | internal/detect/thresholds.go:32-46 | With unique hostgroup names and one threshold per hostgroup and vector, neither the order of the configured rows nor the unstable sort can change a verdict |
| Judgement.HugeFloodIsMissed | internal/detect/classify.go:19-25 | A concrete disciplined run, one UDP record of 2^63 packets against one threshold: the log calls for a violating verdict and the engine reaches none |
| Detection.StreakCountsVerdicts | internal/detect/engine.go:133-138 | On every run the streak of a key is the length of the trailing run of its violating evaluations |
| Detection.TrailingIsTrailing | internal/detect/engine.go:133-138 | That length is the longest all-violating end of the evaluations |
| Detection.RunProjects | internal/detect/engine.go:133-152 | A run of all keys, seen through one key, is that key's machine run alone |
| Detection.KeyRunInputs | internal/detect/engine.go:133-150 | The i-th step of a key is handed its i-th verdict's time, rates and violation, the threshold's hostgroup, the streak of its own verdicts up to it, and the score of exactly these averages |
| Detection.KeyRunIsRegular | internal/detect/engine.go:112-117 | In every engine run a key keeps one threshold, and its time does not go back |
| Detection.StartNeedsStreak | internal/detect/state.go:114-120 | An incident starts exactly when the streak of violating evaluations reaches MinWindowSec on a key that has emitted nothing yet or has rested for more than 60 s since its last end |
| Identity.RunIsThreaded | internal/detect/state.go:113-219 | On every run over all keys: no two incidents share an id, every event follows its start, nothing follows an end, and the unfinished incidents are exactly those of the active entries |
| Identity.MatchedEvaluate | internal/detect/engine.go:133-152 | One evaluation keeps all of that |
| Identity.OneKeyPerIncident | internal/detect/state.go:121-144 | An id belongs to one key |
| HostOrder.ProjectVisits | internal/detect/engine.go:77-79 | One tick gives each key the verdict on its host once, wherever the host stands in the order |
| HostOrder.OrderKeepsProjections | internal/detect/engine.go:73-80 | Permuting the hosts of every tick leaves every key's verdicts unchanged |
| HostOrder.IdsDoNotMatter | internal/detect/state.go:121-144 | Machine runs that differ only in the ids on offer stay equal up to those ids |
| HostOrder.NamesAreUnique | internal/detect/state.go:90-94 | An id names one start of one key |
| HostOrder.RenamingIsOneToOne | internal/detect/state.go:90-94 | The renaming between two such runs is one to one |
| HostOrder.ProjectionsDetermine | internal/detect/engine.go:133-152 | Runs with the same verdicts per key have the same streaks, machine states and events per key, up to that renaming |
| Visits.LaterHistory | internal/detect/engine.go:82-110 | Verdicts already reached do not change when the store moves on |
| Visits.HostDecidesKey | internal/detect/engine.go:83-138 | The verdicts on a key are those of its own host's evaluations, whatever is evaluated in between |
| Visits.VisitOrderIsInvisible | internal/detect/engine.go:73-167 | Two engine runs over one history, with updates between evaluations, that evaluate a host at the same moments give each of its keys the same streak, machine state and events, up to a one-to-one renaming of incidents |
| Visits.TickOrderIsInvisible | internal/detect/engine.go:73-80 | Two engine runs over one history whose ticks differ only in the order of hosts are indistinguishable for every key, up to that renaming |
| Visits.TickVerdicts | internal/detect/engine.go:73-80 | A tick no update interrupts reaches the verdicts of its counters in its order |
| Visits.VerdictsReadTheLog | internal/detect/engine.go:73-138 | End to end: all verdicts of a disciplined run, with updates between evaluations, are those of the raw flow log |
| Visits.VerdictsAreRegular | internal/detect/engine.go:73-138 | Every verdict carries its visit's time and the catalog's threshold for its key |
| Visits.EveryKeysStream | internal/detect/engine.go:73-167 | Every key of every engine run with non-decreasing time emits the lifecycle stream, and its machine state agrees with it |
| Engine.Engine.constructor | internal/detect/engine.go:38-46 | A fresh engine: no evaluations, no events |
| Engine.Engine.Observe | internal/detect/engine.go:83-131 | The reading half of evalHost reaches the specified verdict, with every early return |
| Engine.Engine.Average | internal/detect/engine.go:119-131 | The averaging loop and the comparison give the specified verdict |
| Engine.Engine.EvalHost | internal/detect/engine.go:83-167 | One evaluation is added to the run; the engine still is the run of all its evaluations |
| Engine.Engine.Advance | internal/detect/engine.go:133-152 | Streak and machine advance together as one evaluation of the run |
| Engine.Engine.Send | internal/detect/engine.go:157-166 | The event is queued or counted as dropped, dropped only when the channel is full; queued and read events are an in-order subsequence of the emitted ones, and what is missing was counted |
| Engine.Engine.SlideWindow | internal/detect/engine.go:74-75 | A tick of the store keeps everything the engine relies on |
| Engine.Engine.Tick | internal/detect/engine.go:73-80 | The window slides, then every host in the table is evaluated exactly once, in the order returned |
| Engine.Engine.Ingest | cmd/mitigador/serve.go:264-271 | The writer's update of the shared store keeps everything the engine relies on |
| Channels.Channel.TrySend | internal/detect/engine.go:157-160 | A non-blocking send succeeds if and only if the buffer has room, appends in order, and else changes nothing |
| Channels.FullSubsequence | internal/alert/bus.go:76-85 | If as many events arrived as were sent, they are the events sent |
| Bus.OfferIsFaithful | internal/alert/bus.go:75-86 | Offering an event keeps buffered-plus-read an in-order subsequence of the published, and enqueued + dropped = published |
| Bus.ReadIsFaithful | internal/alert/bus.go:47-53 | So does a read |
| Bus.EveryInterleavingIsFaithful | internal/alert/bus.go:55-88 | Under every interleaving of publishes and reads, for every subscriber |
| Bus.DropsExactly | internal/alert/bus.go:75-86 | On every run a subscriber misses an event if and only if it has as many unread ones as its buffer holds |
| Bus.NothingDroppedWithRoom | internal/alert/bus.go:75-86 | A subscriber whose buffer holds all that is published misses nothing and gets everything in order, whenever it reads |
| Bus.SubscribersAreIndependent | internal/alert/bus.go:14-15 | A subscriber's state depends on the publishes and its own reads alone |
| Bus.Bus.Subscribe | internal/alert/bus.go:47-53 | A new subscriber starts empty with its own buffer; the others are as they were |
| Bus.Bus.Deliver | internal/alert/bus.go:75-86 | One event of the loop is one publish: each subscriber is offered it, none is waited for |
| Bus.Bus.ReadAt | internal/alert/bus.go:47-53 | A read takes that subscriber's oldest event and touches no other subscriber |
| Bus.Bus.Shutdown | internal/alert/bus.go:58-65 | All channels end closed and keep what they hold |
| Incidents.Store.Create | internal/incident/store.go:73-99 | Succeeds if and only if no statement failed and the vector passes the CHECK; then inserts the row unless present, and one update row (what these say: Persistence.PersistTells); else nothing changes |
| Incidents.Store.Update | internal/incident/store.go:102-129 | Succeeds if and only if nothing failed and the row exists (the foreign key); then raises the peaks; else nothing changes |
| Incidents.Store.End | internal/incident/store.go:132-160 | Likewise, and sets the end; else nothing changes |
| Incidents.Recorder.Handle | internal/incident/recorder.go:61-86 | The tables stay those of the events persisted so far; a failed transaction leaves them as if the event had not come |
| Persistence.SubsequenceInLifeOrder | internal/detect/engine.go:157-166 | Dropping any events of a run leaves every incident's events in life order |
| Persistence.HandledTells | internal/incident/recorder.go:61-76 | One more event keeps the account of every incident true |
| Persistence.PersistTells | internal/incident/store.go:73-160 | After any events in life order: a row if and only if its start came, naming its host, vector, start and hostgroup id; ended if and only if its end came too and at the time that event gave; peaks the greatest delivered; the score that of the last delivered event; and its attack_updates rows record its delivered events one to one and in order: time, packets and bytes as int64, score, kind |
| Persistence.ForeignKeyHolds | internal/storage/postgres/migrations/0009_create_attack_updates.up.sql:4 | No attack_updates row lacks its incident, after any events in any order |
| Persistence.VerdictVectors | internal/storage/postgres/migrations/0008_create_incidents.up.sql:4 | The engine only ever judges the two vectors the table's CHECK accepts |
| Persistence.EventsArePlausible | internal/detect/state.go:131-206 | Every event of a run has a known state and vector, and an end time if it ends |
| Persistence.DeliveredTells | internal/incident/recorder.go:61-76 | The account above holds for every delivered subset of every run's events |
| Persistence.OpenRowsAreActiveKeys | internal/detect/state.go:98-220 | With nothing dropped, open rows and active keys correspond one to one |
| Persistence.PeakColumnsCompareRight | internal/incident/store.go:109-115 | GREATEST on the int64 columns gives the greater uint64 peak if and only if both are below 2^63 |
| Persistence.RowPeaks | internal/incident/store.go:80-85 | A row that tells its incident holds the greatest delivered uint64 peak if and only if every delivered peak of the incident is below 2^63; packets and bytes alike |
| Persistence.DeliveredPeaks | internal/incident/store.go:80-146 | So it is in the tables after every delivered subset of every run's events |
| Persistence.HugePeakIsStoredNegative | internal/incident/store.go:80-85 | One start with 2^63 packets is stored with peak -2^63 |
| Pipeline.EveryInterleavingIsWired | cmd/mitigador/serve.go:176-195 | After every interleaving of ingest, window slides, evaluations, forwarded events, sink reads and recorded events with any faults: the engine is the run of its evaluations, its channel carries what it emitted, the recorder's sink was offered what left that channel, and the tables hold what was persisted |
| Pipeline.ReachedTablesTellTheTruth | cmd/mitigador/serve.go:176-195 | In every state so reached, with losses anywhere, the tables tell every incident as far as it was delivered, peaks are true exactly if they fit, no update row lacks its incident, and what was persisted is an in-order subsequence of what was emitted |
| Pipeline.ReachedNothingLost | cmd/mitigador/serve.go:176-195 | In every state so reached, everything emitted was persisted if and only if both drop counts are zero, both queues are empty and no transaction failed |
| Pipeline.ReachedOpenRowsFollowTheLog | cmd/mitigador/serve.go:176-195 | In every state so reached on a disciplined run with nothing lost, the open rows are the active keys that the raw flow log determines |
| Daemon.Serve | cmd/mitigador/serve.go:111-195 | The objects wired as at start-up, the incident sink last, all new but the store and the catalog, stand for the start of that system |
| Daemon.Daemon.Ingest | cmd/mitigador/serve.go:264-271 | The writer's step is one ingest move of the wired system; only the store's footprint grows, by new objects |
| Daemon.Daemon.Eval | internal/detect/engine.go:83-167 | Evaluating one host is one evaluation move, channel and drop count included; only the machines' footprint grows, by new objects |
| Daemon.Daemon.Tick | internal/detect/engine.go:73-80 | A tick is one slide and one evaluation per host of the table; only the machines' footprint grows, by new objects |
| Daemon.Daemon.Forward | internal/alert/bus.go:71-86 | Taking an event from the engine's channel and offering it to every sink is one forwarding move, all footprints unchanged |
| Daemon.Daemon.SinkReads | internal/alert/bus.go:14-15 | Another sink's read is one read move, all footprints unchanged |
| Daemon.Daemon.Record | internal/incident/recorder.go:26-39 | Taking an event from the incident sink and handling it, with any fault, is one recording move, all footprints unchanged |
| Daemon.Daemon.TablesTellTheTruth | cmd/mitigador/serve.go:176-195 | Whatever steps the objects have taken, the tables tell every incident as far as it was delivered |
| Daemon.Drive | cmd/mitigador/serve.go:176-195 | The objects can take the steps of any schedule, readers of empty channels waiting, and end in the state that the wired system reaches by it |
| Daemon.Session | cmd/mitigador/serve.go:111-195 | From start-up through any schedule, the tables tell every incident as far as it was delivered |
| Health.ExporterState.Count | internal/ingest/health.go:66-85 | One more arrival; the ring keeps counting the log of its last 60 seconds whenever the log's clock never went back |
| Health.ExporterState.ClearGap | internal/ingest/health.go:71-82 | Clears exactly the slots of the skipped seconds, for every gap |
| Health.SlidTo | internal/ingest/health.go:71-84 | After a gap is cleared, every slot of the new window counts its own second again |
| Health.SlotSumIsWindow | internal/ingest/health.go:118-122 | The slots' counts add up to the arrivals of the 60 seconds |
| Health.RingSumCountsTheLastMinute | internal/ingest/health.go:118-123 | Across arbitrary gaps, the ring's sum is the number of arrivals in the 60 seconds ending at the last observed one, modulo 2^32 |
| Health.HealthTracker.Observe | internal/ingest/health.go:56-86 | The arrival is logged for the unmapped exporter address and no other exporter changes |
| Health.UnmapsExactly | internal/ingest/health.go:57 | Unmapping takes an IPv4-mapped address (80 zero bits, 16 one bits) to its IPv4 address and leaves every other address alone |
| Health.HealthTracker.Snapshot | internal/ingest/health.go:90-127 | One row per exporter of the inventory in order: online below one minute of age, stale below five, else offline, and offline if never seen; the rate of the minute up to the last arrival, which is that of the minute before the query exactly if nothing in the ring is overdue, modulo 2^32 |
| Health.RateIsCurrent | internal/ingest/health.go:118-123 | The count of the minute up to the last arrival equals that of the minute before the query if and only if no counted arrival is 60 seconds old or older; and likewise as uint32 |
| Health.RateIsAlwaysCurrent | internal/ingest/health.go:118-123 | For every log of an exporter last seen at a given time, the two agree if and only if the query is in the same second or within a minute of the epoch |
| Health.StaleRate | internal/ingest/health.go:109-123 | One flow at second 0 and a query at second 240: the row says stale with a rate of 1/60, and the minute before the query is empty |
| Recent.RecentBuffer.constructor | internal/flow/recent.go:17-22 | An empty buffer of the given capacity, at least one |
| Recent.RecentBuffer.Push | internal/flow/recent.go:26-35 | The push is the newest record; the ring holds the last records that fit |
| Recent.RecentBuffer.Snapshot | internal/flow/recent.go:39-65 | Exactly the last min(n, retained) pushes, newest first, for every history and capacity |
| Telegram.SoundWithout | internal/alert/telegram/sender.go:135-184 | A message that leaves the queue was sent once more or never reached the API, and nothing else changes |
| Telegram.AnswerKeepsOrder | internal/alert/telegram/sender.go:145-183 | Every answer of the API keeps the bounds on attempts, sends and queue length |
| Telegram.EveryRunIsOrderly | internal/alert/telegram/sender.go:85-184 | For every interleaving of arrivals and answers: sent at most three times, pending with at most two attempts, pending at most once, queue within capacity, and none forgotten unsent unless the context ended |
| Telegram.RetriedExactly | internal/alert/telegram/sender.go:155-181 | On every run a message goes back to the end of the queue, for the same chat, if and only if the API answered 429, the back-off ran out, it had been sent less than twice before, and fewer than 1000 messages wait |
| Telegram.FannedExactly | internal/alert/telegram/sender.go:99-108 | A text goes to the chats in turn, one message each, until 1000 wait; the others are dropped |
| Telegram.AnswersUseBudget | internal/alert/telegram/sender.go:168-181 | The sum of (3 - attempts) over pending messages drops with every answer |
| Telegram.Sender.FanOut | internal/alert/telegram/sender.go:95-108 | One text is offered to every configured chat in turn; an empty text to none; a full queue drops |
| Telegram.Sender.TakeNext | internal/alert/telegram/sender.go:120-121 | The worker takes the oldest message |
| Telegram.Sender.Send | internal/alert/telegram/sender.go:135-184 | The end of an attempt: delivered, failed, dropped or re-queued with one more attempt |
| Telegram.Sender.Drain | internal/alert/telegram/sender.go:115-130 | Without new arrivals the worker finishes within the budget, every accepted message sent one to three times unless the context ended first |
| NetFlow.NumberOfBigEndian | cmd/flowgen/netflow.go:136-155 | Reading back a big-endian number that fits its width gives the number |
| NetFlow.FirstByteWeighsMost | cmd/flowgen/netflow.go:136-155 | Network byte order: a byte weighs 256 times the one after it |
| NetFlow.ReadBack | cmd/flowgen/netflow.go:136-155 | Reading back any fixed layout gives its values and leaves the rest |
| NetFlow.BuildTemplate | cmd/flowgen/netflow.go:72-101 | The packet built field by field is the specified layout |
| NetFlow.BuildDataRecord | cmd/flowgen/netflow.go:106-134 | The packet built field by field is the specified layout, for all values |
| NetFlow.OneFlowSetPacket | cmd/flowgen/netflow.go:89-91 | A packet whose FlowSet states its own byte length decodes to just that FlowSet |
| NetFlow.TemplatePacketDecodes | cmd/flowgen/netflow.go:72-101 | The template packet decodes to one Template FlowSet of the stated length that defines the five fields |
| NetFlow.TemplateBody | cmd/flowgen/netflow.go:95-98 | Any list of fields survives the Template FlowSet |
| NetFlow.RecordBack | cmd/flowgen/netflow.go:124-131 | A record laid out after any template comes back as its values |
| NetFlow.DataPacketDecodes | cmd/flowgen/netflow.go:106-134 | The data packet decodes to one FlowSet of the stated length under the template's id, whose record is the values |
| NetFlow.CollectRecovers | cmd/flowgen/netflow.go:61-134 | Round trip: a collector that reads the fields by the types which the template packet states recovers sequence, addresses, protocol, bytes and packets from the data packet, for all values |
| Markdown.OneMorePass | internal/alert/telegram/format.go:17-19 | A further replacement pass touches only its own character, not the backslashes put in before |
| Markdown.Mdv2Escape | internal/alert/telegram/format.go:15-21 | The 18 passes equal one simultaneous substitution |
| Markdown.SpecialIsReserved | internal/alert/telegram/format.go:16 | The characters escaped are exactly the eighteen that MarkdownV2 reserves |
| Markdown.ReadsBackClean | internal/alert/telegram/format.go:12-21 | Unescaping inverts escaping on every text in which no backslash stands before an escapable character |
| Markdown.ReadsBackNoLonger | internal/alert/telegram/format.go:15-21 | What is read back is never longer than the text, and as long only for such texts |
| Markdown.EscapingIsInverted | internal/alert/telegram/format.go:12-21 | Unescaping inverts escaping if and only if no backslash of the text stands before an escapable character |
| Markdown.BackslashIsLost | internal/alert/telegram/format.go:15-21 | A backslash before an underscore is escaped to something that is no MarkdownV2 text |
| Text.SplitJoin | internal/subscriber/mikrotik.go:304 | Splitting undoes joining, for any separator the pieces stay clear of |
| Text.ScanJoin | internal/subscriber/mikrotik.go:305-307 | Scanning lines undoes joining them by newlines |
| RouterOS.ParseAsValueLine | internal/subscriber/mikrotik.go:323-339 | The loop builds the record that the line's fields define, later keys winning, malformed fields skipped |
| RouterOS.ParseAsValue | internal/subscriber/mikrotik.go:301-320 | The nested loops return the records of all chunks and lines in order, empty ones skipped |
| RouterOS.FieldBack | internal/subscriber/mikrotik.go:325-336 | A printed clean field parses to its key and value |
| RouterOS.PaddedFieldBack | internal/subscriber/mikrotik.go:325-336 | Blanks around key, value and field, and quotes around the value, make no difference |
| RouterOS.FieldExactly | internal/subscriber/mikrotik.go:325-333 | A part is a field if and only if, blanks aside, it has an equals sign that is not its first character |
| RouterOS.LineBack | internal/subscriber/mikrotik.go:323-339 | A printed clean line parses to its record |
| RouterOS.LineLayoutReadsBack | internal/subscriber/mikrotik.go:301-320 | Printing clean records one per line and parsing returns the same list of maps |
| RouterOS.OneLineLayoutReadsBack | internal/subscriber/mikrotik.go:298-320 | Printing them on one line separated by `;;;` and parsing returns the same list of maps |
| RouterOS.SubtractUptime | internal/subscriber/mikrotik.go:357-390 | The loop returns the start that the text's duration defines, the zero time for an empty, malformed or zero one; with int64 wrap-around |
| RouterOS.UptimeReads | internal/subscriber/mikrotik.go:361-386 | Any sequence of numbered units reads as its total, while that fits an int64 of nanoseconds |
| RouterOS.UptimeSubtracts | internal/subscriber/mikrotik.go:355-390 | Printing any positive such duration and parsing it subtracts exactly that duration |
| RouterOS.WrittenUptimeSubtracts | internal/subscriber/mikrotik.go:355-390 | Any whole number of seconds in w/d/h/m/s form is subtracted exactly |

## Left out

- HTTP handlers, sessions, CSRF, the front end, DNS, net owners, exporters' decoders, listeners, SSH, SMTP and rate limiters: plumbing, or libraries whose code is not shown.
- `Confidence` and its tanh: floating point; it is a function parameter whose value events carry.
- Locks: each locked section is one step. `Store.Tick` takes all shards in one step, which `Locks.TickIsAtomic` justifies for updates between the shards' turns, and `Store.RankMet` covers a Top whose shards are visited at different moments; an ActiveHosts or Overview interrupted between shards is not modelled.
- Clocks, tickers and contexts: times are parameters, and the ticks and updates of a run form a history. `int64` overflow of seconds and times is not modelled; counters wrap as in Go.
- ULIDs: ids are fresh numbers; entropy, collisions and their text form are not modelled.
- The FNV hash: any function from addresses to numbers.
- `sort.Slice`: modelled by the repository's insertion sort; the contracts use only sortedness and permutation.
- SQL: the effect of Create, Update and End on two maps, with failure at any statement or at the commit. List, Get, the closing of orphans, `LoadCatalog`'s query and config.Sync are not modelled.
- A commit that succeeds on the server while its answer is lost: counted as a failure that changes nothing.
- The recorder's two-second drain: it handles further events one by one like the main loop, and may stop anywhere.
- The SSE broker and the DNS cache: they do not promise on all runs what their comments suggest.
- Fields of a flow record that no counter uses.
- RouterOS.ParseAsValueLine: strings are sequences of characters, not bytes; the scanner's limit of 1 MB counts characters.
- RouterOS.LineLayoutReadsBack: for records printed without separators, outer blanks or outer quotes in keys and values; that the parser strips those is `RouterOS.PaddedFieldBack`.
- Telegram.Sender.Send: the text of a message, its formatting and the wait before a retry are not modelled; `sends` and `uncalled` only record what happened.
- Judgement.JudgesExactly: for counters that do not wrap within the window, below 2^64 packets and bytes; wrap-around itself is covered by `Judgement.JudgesTheLog`.
- That an incident ends once traffic stops is not claimed: an evaluation returns before the machine when no vector dominates, so the grace counter stands still.
- That a streak counts consecutive seconds is not claimed: skipped seconds leave it untouched, so it counts consecutive evaluations of its key.
