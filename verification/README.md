# MRC emulator: a verified model

A Dafny model of the closed control loop of the MRC emulator and of the two places where its packets
are compiled: uSID addresses against the generated forwarding tables, and the byte-level fast path of
the data sender.

**EV health loop.** Every (plane, path) entropy value (EV) of a tenant runs a state machine fed by a
sliding probe window and by loss reports fused with the sender's own counters. `EvState` is that
machine on values; `EvInvariant`, `EvRuns`, `EvStreaks`, `EvCounts` (decisions from the run's own probe
events) and `EvBackoff` (the loss backoff from an EV's history) prove what holds over whole runs, and
`EvTable` is the table as the source has it: record objects updated in place, a cached weight grid and a tick count
replaced per step. Threads are atomic steps taken under the table's lock. `LossFusion` and `LossRuns`
add loss reports to the runs, `ReportRuns` says what one report does to every EV and counter, and
`LossReports` is the imperative side with the ring of sent windows.
`SentCounters` and `SentPipeline` follow the sent counts across processes, `LossWindows` and `Reorder`
are the receiver's books, `ProbeCodec` is the wire format of probes, reports and NACKs, and `ReportPath`
a loss report's way from the receiver's window to the sender's table.

**Pickers.** `Picker` is the weighted draw, `SpineSelect` the per-flow spine subset and the round-robin
spray, `Hashing` what the hashes behind both are worth, `Policy` the health-aware picker on the live
table, `SnapshotTwin` the picker that works from a snapshot file with its CDF cache, `TwinRuns` both of
them over whole runs, and `PickFairness` how often they pick each EV.

**Addressing.** `Addressing` holds the address plan, `Forwarding` what the generated files make of every
node (interfaces, SIDs, routes, cables) with one forwarding step, `FabricWriter` the generator's loops,
and `Delivery` the journeys. A step looks up the longest prefix and only succeeds when one entry is
the longest; identifiers are consumed by the NEXT-CSID shift of section 4.1 of RFC 9800, End.DT6
follows section 4.6 of RFC 8986, and a frame only crosses a cable whose far port owns the next-hop
address.

**Packets.** `Checksum`, `Crc32` and `Packets` give the layout of RFC 8200, RFC 768, RFC 1071 and
section 8 of RFC 1952 and the packet built from scratch, `CrcRemainder` what that CRC computes;
`Templates` is the cache of byte templates patched in place, `RoceCheck` the receiver's check of the
ICRC, and `FrameParser` the receiver's parser.

`Wrappers`, `Grids`, `Arith` and `ByteCodec` are shared helpers.

Reading order: the theorems that sum up each part are `EvInvariant.EveryRunKeepsFloorAndWeights`,
`EvRuns.BoundedRecovery`, `EvCounts.TickDecidesByCounts`, `EvBackoff.LevelCountsRelapses`,
`EvBackoff.RelapseHolds`, `LossRuns.NoPhantomLoss`, `LossRuns.BlackholeDetected`,
`ReportRuns.UnnamedVerdict`, `Policy.NeverPicksBad`, `PickFairness.LivePicksAreFair`,
`TwinRuns.TwinRefinesLive`, `SentPipeline.EveryPacketAccounted`, `LossWindows.ReportStatesArrivals`,
`LossWindows.NothingUnreported`, `Reorder.BinsCountDisplacements`, `Reorder.LossIsExact`,
`ProbeCodec.LossReportRoundTrip`, `Delivery.DataDelivered`, `Delivery.ProbeReturns`,
`Checksum.PatchedVerifiesIffFieldWasZero`, `Templates.FastPathIsSlowPath`,
`CrcRemainder.CrcIsRemainder`, `RoceCheck.CachedIsAccepted` and `FrameParser.DecodesWhatWasSent`.

Weights, distributions and ratios are exact reals. All sequence numbers, ids and fields have the
source's widths where the source wraps, caps or rejects.

### Where the code differs from what it says

- `udp6_checksum_inplace` assumes its checksum field to be zero and does not enforce it "because we
  overwrite anyway" (srv6_mrc/encap.py:236-239). The old field is part of the sum, so the packet verifies
  exactly if the field held 0x0000 or 0xFFFF before (`Checksum.PatchedVerifiesIffFieldWasZero`,
  `Checksum.StaleFieldFails`). Every caller in the repository passes a zero field.
- Loss fusion is documented to use the sender's counts only (srv6_mrc/mrc/loss_compute.py:28-40), but
  a record without any arrival is skipped when the receiver's `expected` is zero and counted as total
  loss when it is not (`LossFusion.ExpectedMattersWithoutArrivals`,
  `LossFusion.SameEffectIffSameEvidence`). The repository's receiver emits no such record
  (`LossWindows.ReceiverReportsActByArrivals`); one can only come from hand-made wire bytes.
- `max_gap <= expected - 1` fails in one corner, where `expected` is capped
  (`LossWindows.GapWithinExpected`, `LossWindows.GapBeyondExpected`).
- The template cache promises bytes identical to the slow path (srv6_mrc/runner.py:283-284); its key
  leaves out the underlay source, so that holds exactly when the source is a function of the key
  (`Templates.FastPathIsSlowPath`, `Templates.TwoSourcesOneKey`), as it is for the sender
  (`Templates.PlaneSourcesSuffice`).
- `probe_ev_from_inner_dst` is called the reverse of `probe_ev_addr` (srv6_mrc/topo.py:687-688), which
  holds for planes up to 14 (`Addressing.RoundTripIffNicFits`, `Addressing.SixteenthPlaneIsLost`); ports
  of a leaf clash from nine spines on (`Delivery.PortsClashAboveEightSpines`).
- The loss figure of a flow is documented as the packets never seen in the sequence range
  (srv6_mrc/reorder.py:81-85); `Reorder.LossIsExact` says exactly when it is, and
  `Reorder.LossMissesAnOldPacket` and `Reorder.LossMissesALateRepeat` are arrivals for which it is not.
- A restarted sender is recognised by a count that went backwards (srv6_mrc/mrc/sent_counters.py:132-137);
  one that has caught up is not, and its old count is lost once more (`SentPipeline.RestartHidesAPacket`).
  `SentPipeline.FusedIsSentIffCleanRestarts` is the exact condition under which the windows hold what was
  sent.
- "Consecutive" healthy and lossy windows (srv6_mrc/mrc/ev_state.py:103-110,
  srv6_mrc/mrc/ev_state.py:127-129) leave some out: a tick without probes and a window of loss between
  half the threshold and the threshold neither count nor end a streak
  (`EvStreaks.RecoversOverAnIdleTick`, `EvStreaks.DemotesOverAMiddlingWindow`);
  `EvStreaks.HealthyStreakIffNoIdleTick` and `EvStreaks.LossStreakIffNoMiddlingWindow` say when the
  streaks are truly consecutive.

## Model

| member | source | states |
|---|---|---|
| `EvInvariant.EveryRunKeepsFloorAndWeights` | srv6_mrc/mrc/ev_state.py:335-406 | over every run of probe, tick and loss events from a fresh table, at least `min_active >= 1` EVs stay usable and the published grid is exactly the normalised state weights, which sum to 1; the uniform fallback of the rebuild is unreachable |
| `EvInvariant.InitInv` | srv6_mrc/mrc/ev_state.py:228-272 | a new table satisfies the floor invariant for every configuration |
| `EvInvariant.RunInv` | srv6_mrc/mrc/ev_state.py:571-628 | every event keeps the floor and the bounds on streaks, windows and backoff levels |
| `EvInvariant.FlatWeightsNormalised` | srv6_mrc/mrc/ev_state.py:630-651 | with one usable EV the rebuilt weights are the normalised state weights and sum to 1 |
| `EvInvariant.TickIsOnePass` | srv6_mrc/mrc/ev_state.py:335-353 | a tick, which recounts the usable EVs before every demote, equals one row-major pass with a single running count |
| `EvInvariant.FabricWideFailure` | srv6_mrc/mrc/ev_state.py:571-599 | when every probe window fails at once, one tick demotes exactly the first `usable - min_active` non-bad EVs in row-major order |
| `EvInvariant.FloorIsReached` | srv6_mrc/mrc/ev_state.py:228-272 | the floor is the configured number clipped to 1 and all, half the EVs when none is set: no run leaves fewer usable, and when every window fails at once the next tick leaves exactly that many |
| `EvRuns.StepCell` | srv6_mrc/mrc/ev_state.py:335-449 | every event treats an EV as a function of its own record and one number about the rest of the table |
| `EvRuns.WindowIsRecentHistory` | srv6_mrc/mrc/ev_state.py:297-353 | over every run an EV's window holds exactly the last `probe_window_ticks` buckets of its history and the totals count its probe events |
| `EvRuns.BoundedRecovery` | srv6_mrc/mrc/ev_state.py:355-406 | from any state without loss streak, an EV whose ticks are healthy and whose loss windows stay within the threshold is GOOD after at most `(window_ticks - 1) + hold` ticks and stays GOOD, whatever the other EVs do |
| `EvRuns.DemoteClearsEvidence` | srv6_mrc/mrc/ev_state.py:585-625 | every demote leaves no healthy streak and no loss streak, so the recovery bound applies from any demote |
| `EvRuns.HoldIsCapped` | srv6_mrc/mrc/ev_state.py:355-406 | in every reachable state the recovery hold lies between the base and the base shifted by the level cap |
| `EvRuns.LevelMovesOnlyOnLossDemote` | srv6_mrc/mrc/ev_state.py:585-599 | the backoff level moves only on a loss demote, up by at most one or back to zero, and a probe demote recovers on the base hold |
| `EvRuns.NoEarlyRecovery` | srv6_mrc/mrc/ev_state.py:355-406 | an ASSUMED_BAD EV with at most n healthy evaluations stays so over every run of fewer than `hold - n` ticks, so the exponential hold really keeps a path out |
| `EvBackoff.LevelCountsRelapses` | srv6_mrc/mrc/ev_state.py:571-625 | over every run the backoff level is the capped number of relapses in a row, each a loss demote fewer than `loss_backoff_reset_ticks` ticks after a recovery from an earlier one, read off the EV's states alone; the hold is `recover_ticks << min(relapses, cap)` after a loss demote and `recover_ticks` after a probe demote |
| `EvBackoff.LossDemoteLevel` | srv6_mrc/mrc/ev_state.py:585-598 | at a loss demote the level goes up by one, capped, if the run shows a recovery from a loss demote fewer than `loss_backoff_reset_ticks` ticks back, and to zero otherwise |
| `EvBackoff.RelapseHolds` | srv6_mrc/mrc/ev_state.py:355-406 | the k-th relapse in a row keeps an EV out for `recover_ticks << min(k, cap)` ticks whatever happens, and that many healthy ticks behind a window bring it back |
| `EvBackoff.FirstFaultThenRelapse` | srv6_mrc/mrc/ev_state.py:585-598 | a first fault is no relapse; a second one is exactly when it comes fewer than the reset ticks after the recovery |
| `EvBackoff.RunFollows` | srv6_mrc/mrc/ev_state.py:571-625 | the recovery tick, the loss mark and the level of a record follow from its EV's history of going out and coming back |
| `EvCounts.TickDecidesByCounts` | srv6_mrc/mrc/ev_state.py:335-406 | over every run a tick decides about an EV by counting the run's own probe events of the last `probe_window_ticks` ticks: out for enough sent and too few back unless the floor stops it, in exactly for enough back, no open loss streak and the hold reached |
| `EvCounts.WindowSums` | srv6_mrc/mrc/ev_state.py:335-369 | the window sums a tick evaluates are the numbers of probes sent and received in the last `probe_window_ticks` ticks |
| `EvCounts.TransitionsCounted` | srv6_mrc/mrc/ev_state.py:601-609 | the transition counter is the number of events that changed the EV's state |
| `EvStreaks.HealthyStreakIffNoIdleTick` | srv6_mrc/mrc/ev_state.py:355-406 | over every run the healthy streak is at least the number of truly consecutive healthy ticks, and equals it if and only if no tick without probes came inside the streak |
| `EvStreaks.NoProbesNoChange` | srv6_mrc/mrc/ev_state.py:366-369 | a tick whose window holds no probes leaves the state and both streaks as they are |
| `EvStreaks.RecoversOverAnIdleTick` | srv6_mrc/mrc/ev_state.py:366-398 | a run in which an EV recovers on two healthy ticks with a tick without probes between them |
| `EvStreaks.LossStreakIffNoMiddlingWindow` | srv6_mrc/mrc/ev_state.py:436-449 | over every run the loss streak is at least the number of truly consecutive lossy windows, and equals it if and only if no window between half the threshold and the threshold came inside the streak |
| `EvStreaks.MiddlingLossNoChange` | srv6_mrc/mrc/ev_state.py:436-449 | a window with loss above half the threshold but not above it changes neither state nor streak |
| `EvStreaks.DemotesOverAMiddlingWindow` | srv6_mrc/mrc/ev_state.py:436-449 | a run in which two lossy windows demote an EV with a middling window between them |
| `EvStreaks.ConsecutiveIffNotBridged` | srv6_mrc/mrc/ev_state.py:366-398 | a counter that passes some windows over counts consecutive ones exactly when it passed none over since its first hit |
| `EvTable.EvStateTable.Create` | srv6_mrc/mrc/ev_state.py:228-272 | the constructor raises exactly for no tenant, no plane or no path, and else makes fresh records and uniform weights for every tenant |
| `EvTable.EvStateTable.RecordProbeSent` | srv6_mrc/mrc/ev_state.py:297-310 | raises exactly for an unknown EV; otherwise the new state is the sent event of the model |
| `EvTable.EvStateTable.RecordProbeRecv` | srv6_mrc/mrc/ev_state.py:312-333 | raises exactly for an unknown EV; otherwise the new state is the received event of the model |
| `EvTable.EvStateTable.Tick` | srv6_mrc/mrc/ev_state.py:335-353 | rotates and evaluates the tenant's EVs in place, ending in the state of the model's tick; other tenants' caches and tick counts keep their value |
| `EvTable.EvStateTable.Evaluate` | srv6_mrc/mrc/ev_state.py:355-406 | one EV's evaluation in place is the model's, and the cached grid stays the one its states call for |
| `EvTable.EvStateTable.RecordLossWindow` | srv6_mrc/mrc/ev_state.py:412-449 | raises exactly for an unknown EV or a negative count; otherwise the new state is the loss event of the model |
| `EvTable.EvStateTable.TryDemote` | srv6_mrc/mrc/ev_state.py:571-599 | the counting loop and the demote or suppression do what the model's demote attempt does |
| `EvTable.EvStateTable.Transition` | srv6_mrc/mrc/ev_state.py:601-628 | a transition in place, with the cache rebuilt only when the state changes |
| `EvTable.EvStateTable.RebuildWeights` | srv6_mrc/mrc/ev_state.py:630-651 | the rebuilt cache is the normalised or uniform grid of the record states |
| `EvTable.EvStateTable.WeightsEv` | srv6_mrc/mrc/ev_state.py:482-484 | the grid read without the lock is the one the current states call for |
| `EvTable.EvStateTable.StateOf` | srv6_mrc/mrc/ev_state.py:455-458 | raises exactly for an unknown EV, else returns the EV's state |
| `EvTable.EvStateTable.Snapshot` | srv6_mrc/mrc/ev_state.py:495-544 | lists every EV once in (plane, path) order with its state and its published weight |
| `Picker.BuildCdf` | srv6_mrc/policy.py:240-254 | the loop computes the running shares of the total; forcing the last entry to 1 changes nothing in exact arithmetic |
| `Picker.WeightedPick` | srv6_mrc/policy.py:257-269 | returns the first threshold above the draw, and the fallback return is unreachable |
| `Picker.PickIsShare` | srv6_mrc/policy.py:240-269 | slot p is drawn exactly when the draw falls into p's share of the unit interval |
| `Picker.PickCarriesWeight` | srv6_mrc/policy.py:257-269 | a slot of weight zero is never drawn |
| `Picker.DrawOfPacketOf` | srv6_mrc/policy.py:257-269 | every 64-bit value is the draw of a packet in any window of 2^64 sequence numbers |
| `Picker.PacketOfDraw` | srv6_mrc/policy.py:257-269 | and of only one packet there: the golden-ratio multiplication is a bijection |
| `Picker.FairWithinOne` | srv6_mrc/policy.py:237-269 | over any 2^64 consecutive packets of any flow each slot is drawn within one packet of its exact share, for every weight vector |
| `Policy.PickEvIsSafe` | srv6_mrc/policy.py:365-398 | on any grid the picked EV exists, is in the flow's subset, and has weight zero only when the whole subset has |
| `Policy.NeverPicksBad` | srv6_mrc/policy.py:365-398 | in every reachable table state the picked EV is ASSUMED_BAD exactly when the flow's whole subset is, so never with the full fan-out |
| `Policy.NeverPicksBadAmidReports` | srv6_mrc/policy.py:365-398 | the same over every interleaving of probes, ticks, loss windows and whole loss reports |
| `Policy.PickFromGrid` | srv6_mrc/policy.py:365-398 | flattening, CDF building, threshold search and index decoding together compute the specified pick |
| `Policy.HealthAwareMrc.PickEv` | srv6_mrc/policy.py:365-398 | the policy picks from the live table's published grid and changes nothing but its subset cache |
| `PickFairness.ChosenByDraw` | srv6_mrc/policy.py:240-269 | packet n of a flow with hash h goes to the EV in whose interval of the subset's weight the fraction (h + n * 0x9E3779B97F4A7C15 mod 2^64) / 2^64 of that weight falls, plane by plane and spine by spine |
| `PickFairness.PicksAreFair` | srv6_mrc/policy.py:365-398 | over any 2^64 consecutive packets of any flow every EV of the flow's subset is picked within one of its exact share of the subset's weight |
| `PickFairness.ZeroSubsetGoesRound` | srv6_mrc/policy.py:388-398 | of a subset without weight each EV is picked exactly once in as many consecutive packets as it has EVs |
| `PickFairness.LivePicksAreFair` | srv6_mrc/policy.py:271-398 | in every reachable table state the live policy picks a GOOD EV twice as often as an UNKNOWN one and a bad one never, within one packet of 2^64, and goes round a subset that is all bad |
| `PickFairness.LivePickByDraw` | srv6_mrc/policy.py:365-398 | the live pick follows from the FNV-1a hash of the flow's text, the packet number and the published weights in that way |
| `PickFairness.TwinPicksAreFair` | srv6_mrc/policy.py:598-642 | the snapshot twin is as fair: wherever in a run its picks for 2^64 consecutive packets come, if they used the grid of one table each EV gets its due on that table |
| `PickFairness.HashIsAnOffset` | srv6_mrc/policy.py:257-269 | two flows with one subset walk the same cycle of picks from different starting points, set by their hashes |
| `SpineSelect.SelectFromSeed` | srv6_mrc/topo.py:335-361 | the loop that pops from the pool computes the model's picks |
| `SpineSelect.Fnv1a` | srv6_mrc/topo.py:327-332 | the hashing loop computes the FNV-1a fold |
| `SpineSelect.PicksAreDistinct` | srv6_mrc/topo.py:335-361 | for any seed the picks are distinct members of the pool |
| `SpineSelect.SubsetsNest` | srv6_mrc/topo.py:335-361 | the n-subset is a prefix of the (n+1)-subset |
| `SpineSelect.FullPickIsPermutation` | srv6_mrc/topo.py:335-361 | picking every spine gives a permutation |
| `SpineSelect.SpineChoice` | srv6_mrc/topo.py:302-361 | for every address pair the choice is symmetric, in range, distinct, nested and complete at full size |
| `Hashing.DrawsAreFair` | srv6_mrc/topo.py:335-361 | for every step, pool size and index the number of 64-bit seeds that draw the index is within one of 2^64 / size |
| `Hashing.AvalancheOneToOne` | srv6_mrc/topo.py:355-358 | the SplitMix64 finaliser is one-to-one on 64-bit values |
| `Hashing.OneByteApart` | srv6_mrc/topo.py:327-332 | texts that differ in one byte never have the same FNV-1a hash |
| `Hashing.FlowTextNamesFlow` | srv6_mrc/topo.py:823-831 | the text behind a flow's hash determines both addresses and both ports |
| `Hashing.PairSeedNamesPair` | srv6_mrc/topo.py:302-317 | the seed text of an address pair determines the pair up to its order |
| `SpineSelect.SprayCoversOnce` | srv6_mrc/policy.py:161-175 | any planes * n consecutive packets visit every EV of the flow exactly once |
| `SpineSelect.SprayChangesPlane` | srv6_mrc/policy.py:161-175 | with two planes or more consecutive packets change plane |
| `SnapshotTwin.MrcSnapshot.PickEv` | srv6_mrc/policy.py:598-642 | picks from the loaded grid through the CDF cache exactly as the specification does |
| `SnapshotTwin.MrcSnapshot.Open` | srv6_mrc/policy.py:472-550 | starts on the uniform grid, loads the file at once when it is a snapshot, and passes on the errors a refresh does not catch |
| `SnapshotTwin.MrcSnapshot.PickOn` | srv6_mrc/policy.py:598-642 | a pick that read its grid before later refreshes still picks for the grid it read and leaves only right cache entries |
| `SnapshotTwin.MrcSnapshot.CdfFor` | srv6_mrc/policy.py:598-642 | the cached distribution always belongs to the grid and subset it is used for |
| `SnapshotTwin.MrcSnapshot.RefreshOnce` | srv6_mrc/policy.py:668-708 | swaps exactly when the file is newer and well formed, then holds the file's grid with an empty cache; raises exactly for a newer file whose JSON is no object or whose `tenants` is a list or text without the tenant; any other refresh keeps the grid, its time stamp and the cache and counts a missing file or an error |
| `SnapshotTwin.GridFromSnapshot` | srv6_mrc/policy.py:710-772 | accepts a flat or wrapped document exactly when every EV has a weight and the dimensions match, and returns the grid it holds |
| `SnapshotTwin.SnapshotRoundTrip` | srv6_mrc/mrc/ev_state.py:495-544 | a document written from a table holds exactly the table's published grid, in both shapes |
| `SnapshotTwin.HeldGridUnique` | srv6_mrc/policy.py:710-772 | a document holds at most one grid |
| `SnapshotTwin.ColdStartIsFreshTable` | srv6_mrc/policy.py:652-661 | the cold-start grid is what a fresh table publishes |
| `SnapshotTwin.LoadedIsPublished` | srv6_mrc/policy.py:710-772 | whatever grid a twin loads from a document written from a table is the grid that table publishes |
| `TwinRuns.TwinRefinesLive` | srv6_mrc/policy.py:598-772 | over every run of table events and reports, file writes, refreshes on missing, stale, broken or newer files, picks, and picks whose grid was read before later swaps, each twin pick is the live policy's on the table of the last snapshot loaded when the grid was read, a fresh table before any |
| `TwinRuns.TwinNeverPicksBad` | srv6_mrc/policy.py:598-642 | in every such run a pick is bad in the table it was made for only if the flow's whole subset was, and never with the full fan-out |
| `TwinRuns.LatePickNeverBad` | srv6_mrc/policy.py:598-642 | the same for a pick whose grid was read before later swaps, in the table behind that grid |
| `TwinRuns.FreshWorldStarts` | srv6_mrc/policy.py:472-550 | a new table with no file yet is a world the twin can start in |
| `TwinRuns.LoadsIffNewer` | srv6_mrc/policy.py:668-708 | in every such run a refresh loads exactly when the file is a newer snapshot, and then holds what its table published |
| `LossFusion.UnpairedChangesNothing` | srv6_mrc/mrc/loss_compute.py:263-331 | a report without a paired window leaves the table unchanged |
| `LossFusion.EveryRecordCounted` | srv6_mrc/mrc/loss_compute.py:271-327 | every record lands in exactly one of updated, skipped and fell-back, and no other counter moves |
| `LossFusion.OnlyArrivalsMatter` | srv6_mrc/mrc/loss_compute.py:277-340 | records with equal `seen + trimmed`, and agreeing on a zero `expected` when nothing arrived, have the same effect on every table |
| `LossFusion.SameEffectIffSameEvidence` | srv6_mrc/mrc/loss_compute.py:277-340 | the exact condition: reports with equal arrivals act alike on all tables and windows if and only if their arrival-less records agree on whether `expected` is zero |
| `LossFusion.ExpectedMattersWithoutArrivals` | srv6_mrc/mrc/loss_compute.py:277-279 | a concrete pair of empty records that differ only in `expected` and have different effects |
| `LossRuns.LoopKeepsFloor` | srv6_mrc/mrc/loss_compute.py:232-350 | the floor holds over every interleaving of probes, ticks, loss windows and whole reports |
| `LossRuns.NoPhantomLoss` | srv6_mrc/mrc/loss_compute.py:263-331 | over any run whose windows and reports leave an EV within the loss threshold by its sends and its arrivals, whole or trimmed, and whose half-covering reports name it, the EV gains no loss streak, no backoff level and no loss demote |
| `LossRuns.TolerableByCounts` | srv6_mrc/mrc/ev_state.py:412-449 | within the threshold means at least (1 - threshold) of the sends arrived |
| `LossRuns.AbsenceSparesBad` | srv6_mrc/mrc/loss_compute.py:333-350 | absence from a report never touches an EV that is already bad |
| `LossRuns.BlackholeDetected` | srv6_mrc/mrc/loss_compute.py:333-350 | `loss_demote_consecutive` paired reports of at least half of their window's packets that omit an EV with at least 2 sends, with no clean window of it between, make it ASSUMED_BAD or record a floor suppression, whatever comes between |
| `LossRuns.CoversIsHalf` | srv6_mrc/mrc/loss_compute.py:333-339 | the coverage test passes exactly when something was sent and twice the packets reported, whole or trimmed, are at least those sent on all planes and paths |
| `ReportRuns.UnnamedVerdict` | srv6_mrc/mrc/loss_compute.py:333-350 | an EV a paired report does not name is hit by one window of total loss if at least half of the window's packets arrived, at least 2 were sent on it and it is in use, and is left exactly as it was otherwise |
| `ReportRuns.SilenceCounted` | srv6_mrc/mrc/loss_compute.py:333-350 | a paired report below half coverage moves the low-coverage counter by one and the absent counter by none; any other moves the absent counter by the number of silent EVs |
| `ReportRuns.RecordsCounted` | srv6_mrc/mrc/loss_compute.py:271-327 | records without data are skipped, records of EVs the window sent on update, all others fall back, each counted so |
| `ReportRuns.LoopIsRun` | srv6_mrc/mrc/loss_compute.py:232-350 | a run with reports is a run of single events in which each report is some loss windows, so what holds of every run of the table holds with reports in it |
| `LossReports.SentWindowRing.Push` | srv6_mrc/mrc/loss_compute.py:139-152 | raises exactly for a window of another shape, else appends to the bounded ring |
| `LossReports.SentWindowRing.FindClosest` | srv6_mrc/mrc/loss_compute.py:154-171 | returns the oldest of the windows whose midpoint is nearest within the skew, and none exactly when none is within it |
| `LossReports.ApplyLossReport` | srv6_mrc/mrc/loss_compute.py:232-350 | the loops over records and window cells leave table and counters as the model's fusion with the paired window does |
| `ProbeCodec.ProbeRoundTrip` | srv6_mrc/mrc/probe.py:203-298 | every probe comes back as sent, whatever bytes follow |
| `ProbeCodec.NackRoundTrip` | srv6_mrc/mrc/probe.py:266-356 | every NACK comes back as sent, whatever bytes follow |
| `ProbeCodec.EncodeLossReport` | srv6_mrc/mrc/probe.py:231-263 | raises exactly for a field out of range or too many records, else produces the specified bytes |
| `ProbeCodec.DecodeLossReport` | srv6_mrc/mrc/probe.py:300-335 | decodes arbitrary bytes as specified, with every slice inside the payload |
| `ProbeCodec.LossReportRoundTrip` | srv6_mrc/mrc/probe.py:231-335 | a report comes back with the same id and records, trims capped at 65535; version 3 is used exactly when some record has trims |
| `ProbeCodec.DecodedReportsReencode` | srv6_mrc/mrc/probe.py:300-335 | whatever decodes can be re-encoded, and decodes to the same report again |
| `ProbeCodec.DecodedProbeReencodes` | srv6_mrc/mrc/probe.py:277-298 | only encoded probes decode: re-encoding gives the decoded bytes back but for the reserved one |
| `ProbeCodec.DecodedNackReencodes` | srv6_mrc/mrc/probe.py:337-356 | only encoded NACKs decode, and re-encoding gives the decoded bytes back |
| `ProbeCodec.DecodedReportIsItsBytes` | srv6_mrc/mrc/probe.py:300-335 | only reports decode, in version 2 or 3: header fields are the decoded ones, version 2 has no trims, version 3 records re-encode to the very bytes |
| `ProbeCodec.FusionSurvivesTheWire` | srv6_mrc/mrc/loss_compute.py:277-340 | while trims fit 16 bits, fusing the decoded report equals fusing the original |
| `ReportPath.EmittedFits` | srv6_mrc/mrc/loss_window.py:202-253 | every record a receiver of at most 256 planes and paths emits fits the record format |
| `ReportPath.EmitReport` | srv6_mrc/mrc/agent.py:680-717 | a flow's round closes its window and, unless the report is empty, produces bytes that decode to it |
| `ReportPath.MeasuredIsFused` | srv6_mrc/mrc/loss_compute.py:277-340 | what the receiver's table emits is always encodable and, while trims fit 16 bits, fusing what the sender decodes equals fusing what was measured |
| `ProbeCodec.KindsDoNotMix` | srv6_mrc/mrc/probe.py:277-356 | no encoded probe, report or NACK decodes as another kind |
| `SentCounters.SentCounterWriter.Record` | srv6_mrc/mrc/sent_counters.py:79-81 | counts a packet of a cell in the grid and ignores every other |
| `SentCounters.SentCounterWriter.Publish` | srv6_mrc/mrc/sent_counters.py:99-111 | replaces the file with the current counts, or leaves it and counts an error |
| `SentCounters.SentCounterReader.Read` | srv6_mrc/mrc/sent_counters.py:153-172 | a grid of the right shape or nothing, with an error counted exactly for an unreadable or misshapen file |
| `SentCounters.SentCounterReader.ReadDelta` | srv6_mrc/mrc/sent_counters.py:132-151 | hands out the per-cell difference to the last successful read, the whole count on the first read or after a restart, and remembers it |
| `SentCounters.WindowKeeper.RecordSent` | srv6_mrc/mrc/agent.py:302-305 | counts an in-process send of a cell in the grid |
| `SentCounters.WindowKeeper.RotateWindow` | srv6_mrc/mrc/agent.py:463-490 | folds the delta in, closes the window unless it is all zero, opens an empty one and advances the id modulo 2^16 |
| `SentPipeline.CountsConserved` | srv6_mrc/mrc/agent.py:463-490 | over every interleaving without a restart, closed windows plus the open one hold exactly the in-process sends plus the last count read, per EV |
| `SentPipeline.EveryPacketAccounted` | srv6_mrc/mrc/agent.py:463-490 | over every interleaving, restarts included, what was sent on an EV is exactly what its windows hold, what the current file and sender can still bring, and the packets lost at restarts |
| `SentPipeline.NeverOvercounts` | srv6_mrc/mrc/sent_counters.py:132-151 | from the start no EV's fused total exceeds what was really sent, and once all is published and read it falls short by exactly the packets lost |
| `SentPipeline.NothingLostIffCleanRestarts` | srv6_mrc/mrc/sent_counters.py:132-151 | nothing is lost if and only if at every restart all was published, and read before the new life publishes, and the new life's first count read is smaller than the old one or the old one zero |
| `SentPipeline.FusedIsSentIffCleanRestarts` | srv6_mrc/mrc/sent_counters.py:132-151 | from the start, once all is published and read, an EV's windows hold exactly what was sent on it by all lives of the sender if and only if every restart was clean for it |
| `SentPipeline.RestartHidesAPacket` | srv6_mrc/mrc/sent_counters.py:132-151 | a run in which a restarted sender catches up with its old count and a packet is lost |
| `SentPipeline.RunObjects` | srv6_mrc/mrc/sent_counters.py:50-172 | the writer, reader and window objects, driven by any sequence of events, end in the machine's state with the machine's windows closed |
| `SentPipeline.InitConserved` | srv6_mrc/mrc/agent.py:192-279 | a new pipeline satisfies both invariants, so they hold of every run from the start |
| `LossWindows.CountersMean` | srv6_mrc/mrc/loss_window.py:125-177 | after any arrivals the counters are their number, least, greatest and last sequence number |
| `LossWindows.GapMeans` | srv6_mrc/mrc/loss_window.py:125-177 | `max_gap` is the largest forward jump between consecutive arrivals |
| `LossWindows.SeenWithinExpected` | srv6_mrc/mrc/loss_window.py:202-253 | with distinct sequence numbers in a window the emitted `seen` is at most `expected` |
| `LossWindows.GapWithinExpected` | srv6_mrc/mrc/loss_window.py:202-253 | `max_gap <= expected - 1` if and only if the window has no jump from 0 straight to 2^32 - 1 |
| `LossWindows.GapBeyondExpected` | srv6_mrc/mrc/loss_window.py:202-253 | the jump from 0 to 2^32 - 1 makes `max_gap` equal the capped `expected` |
| `LossWindows.ReceiverReportsActByArrivals` | srv6_mrc/mrc/loss_compute.py:277-340 | reports closed by this table act through the EVs they name and `seen + trimmed` alone, whatever their `expected` |
| `LossWindows.OpenWindowIsItsArrivals` | srv6_mrc/mrc/loss_window.py:125-253 | over every run the open window's counters are those of the arrivals and trims since the last closing |
| `LossWindows.NothingUnreported` | srv6_mrc/mrc/loss_window.py:125-253 | of each kind, whole arrivals and trims, reported plus in-progress never exceeds what was recorded on an EV, and equals it if and only if no window closed with more than 2^32 - 1 of the kind |
| `LossWindows.ReportStatesArrivals` | srv6_mrc/mrc/loss_window.py:202-253 | after any run a closing report names exactly the EVs with arrivals or trims since the last closing, and states their number, trims, span and largest jump, each capped at 2^32 - 1 |
| `LossWindows.LossWindowTable.Record` | srv6_mrc/mrc/loss_window.py:125-177 | raises exactly for a plane, path or sequence number out of range, else updates that EV's counters and nothing else |
| `LossWindows.LossWindowTable.RecordTrimmed` | srv6_mrc/mrc/loss_window.py:179-200 | raises exactly for an EV out of range, else adds one trim to that EV |
| `LossWindows.LossWindowTable.SnapshotAndReset` | srv6_mrc/mrc/loss_window.py:202-253 | reports exactly the active EVs in (plane, path) order under the flow's window id, resets the counters and advances the id modulo 2^16 |
| `LossWindows.LossWindowTable.Forget` | srv6_mrc/mrc/loss_window.py:260-267 | drops the flow and keeps the others |
| `Reorder.WindowIsTop` | srv6_mrc/reorder.py:49-60 | for every order of arrivals the duplicate window holds exactly the `cap` largest distinct numbers seen |
| `Reorder.TopIsUnique` | srv6_mrc/reorder.py:49-60 | there is only one such window |
| `Reorder.DuplicateIffAmongLargest` | srv6_mrc/reorder.py:53-62 | an arrival is counted as a duplicate if and only if its number is among those largest, and as received otherwise |
| `Reorder.EveryArrivalCounted` | srv6_mrc/reorder.py:49-71 | received plus duplicates is the number of arrivals, and the histogram's mass is received |
| `Reorder.PlanesAddUp` | srv6_mrc/reorder.py:62-64 | the per-plane counts add up to received when every arrival names its plane |
| `Reorder.LastIsMax` | srv6_mrc/reorder.py:49-68 | `last_seq_seen` is the greatest number that arrived and `first_seq` the first |
| `Reorder.BinZeroIsNewMaxima` | srv6_mrc/reorder.py:66-71 | bin 0 counts exactly the arrivals above everything before them |
| `Reorder.BinsCountDisplacements` | srv6_mrc/reorder.py:49-71 | for every order of arrivals bin d counts exactly the received arrivals d behind the largest number before them, the per-plane counters those that name the plane, and received all of them |
| `Reorder.LossIsExact` | srv6_mrc/reorder.py:75-85 | the loss figure never exceeds the numbers really missing, and is exact if and only if nothing is missing, or nothing below the first number arrived and every repeat came while fewer than `cap` larger numbers had been seen |
| `Reorder.ReceivedCountsNumbers` | srv6_mrc/reorder.py:49-60 | received counts every number once if and only if every repeat came while fewer than `cap` larger numbers had been seen |
| `Reorder.LossMissesAnOldPacket` | srv6_mrc/reorder.py:81-85 | after 5, 3, 7 the figure is 0 while 6 is missing |
| `Reorder.LossMissesALateRepeat` | srv6_mrc/reorder.py:81-85 | a repeat outside the window hides a missing number |
| `Reorder.FlowStats.Record` | srv6_mrc/reorder.py:49-71 | the in-place updates keep the fields those of all arrivals recorded so far, this one included |
| `Reorder.FlowStats.Percentile` | srv6_mrc/reorder.py:99-115 | raises exactly for a percentage out of range, else returns the least displacement within which at least that percentage of the received arrivals lie |
| `FabricWriter.WriteLeafFrr` | generators/fabric.py:497-569 | the loops emit exactly the static SIDs and routes of a leaf that the forwarding model reads |
| `FabricWriter.WriteSpineFrr` | generators/fabric.py:610-629 | the loops emit exactly the SIDs and routes of a spine |
| `FabricWriter.WriteLeafConfigDb` | generators/fabric.py:356-393 | the loops emit exactly the interfaces of a leaf |
| `FabricWriter.WriteSpineConfigDb` | generators/fabric.py:428-442 | the loops emit exactly the interfaces of a spine |
| `FabricWriter.WriteHostAddrs` | generators/fabric.py:720-792 | the loops emit exactly the addresses of a host: anycast on every NIC and one probe address per EV on its plane's NIC |
| `FabricWriter.WriteHostRoutes` | generators/fabric.py:798-832 | the loops emit exactly the plane, tenant and decapsulation routes of a host |
| `FabricWriter.WriteLinks` | generators/fabric.py:875-903 | the loops emit exactly the cables of the lab |
| `Delivery.PortsClashAboveEightSpines` | generators/fabric.py:875-903 | no port gets two cables if and only if a plane has at most 8 spines |
| `Delivery.FabricPeers` | generators/fabric.py:879-886 | uplink and downlink ports face each other |
| `Delivery.HostPeers` | generators/fabric.py:888-903 | a host's NIC p + 1 faces its leaf in plane p |
| `Delivery.LeafFinds` | generators/fabric.py:497-569 | on a leaf the SID or route of the active identifier is the one longest match, whichever port the packet came in on |
| `Delivery.SpineFinds` | generators/fabric.py:610-629 | on a spine the SID or route of the active identifier is the one longest match |
| `Delivery.LeafResolves` | generators/fabric.py:371-378 | a leaf resolves each spine's next hop to the port of that link |
| `Delivery.SpineResolves` | generators/fabric.py:433-437 | a spine resolves each leaf's next hop to the port of that link |
| `Delivery.HostSends` | generators/fabric.py:798-817 | a host sends every address of a plane's block out of that plane's NIC, but for its own decapsulation SID |
| `Delivery.DataDelivered` | srv6_mrc/topo.py:767-806 | for every topology in the port budget, tenant, plane, spine, host pair and SID mode, a packet addressed by `usid_outer_dst` visits exactly source leaf, chosen spine and destination leaf of that plane and is taken in, decapsulated, by the destination host on that plane's NIC; both modes take the same path |
| `Delivery.ProbeReturns` | srv6_mrc/topo.py:626-684 | every probe addressed by `probe_outer_dst` comes back to its sender through the same spine both ways, on the NIC of its plane, with the inner address of its EV |
| `Delivery.OneEnd` | generators/fabric.py:497-629 | a journey through the tables has only one end and one path |
| `Delivery.EvAddressHasOneOwner` | srv6_mrc/topo.py:577-606 | a probe address is configured on its host's NIC of its plane and nowhere else |
| `Delivery.PlaceholderHasNoOwner` | srv6_mrc/topo.py:609-623 | the inner-source placeholders are configured nowhere |
| `Addressing.DecodesExactlyItsAddress` | srv6_mrc/topo.py:687-734 | an address decodes to an EV if and only if it is that EV's probe address (planes <= 15) |
| `Addressing.RoundTripIffNicFits` | srv6_mrc/topo.py:577-734 | a probe address decodes back to its EV if and only if the plane number is at most 14 |
| `Addressing.SixteenthPlaneIsLost` | srv6_mrc/topo.py:577-734 | the probe address of plane 15 decodes to nothing |
| `Addressing.OtherAddressesDecodeToNone` | srv6_mrc/topo.py:687-734 | anycast, gateway and placeholder addresses decode to nothing |
| `Checksum.FoldWord` | srv6_mrc/encap.py:274-278 | folding the carry after every word keeps the RFC 1071 one's-complement value of the whole sum |
| `Checksum.DeferredCarries` | srv6_mrc/encap.py:274-278 | folding all carries at the end gives the same value |
| `Checksum.SumWords` | srv6_mrc/encap.py:269-278 | the padding and folding loop computes the one's-complement sum for any length, odd included |
| `Checksum.Udp6ChecksumInplace` | srv6_mrc/encap.py:231-282 | writes the complement of the sum, never zero, into the two checksum bytes of the buffer |
| `Checksum.OnlyTheFieldChanges` | srv6_mrc/encap.py:279-282 | no other byte changes and the stored field is not zero |
| `Checksum.PatchedVerifiesIffFieldWasZero` | srv6_mrc/encap.py:231-282 | the patched packet passes the receiver's check of RFC 8200 section 8.1 if and only if the field held 0x0000 or 0xFFFF before |
| `Checksum.StaleFieldFails` | srv6_mrc/encap.py:231-282 | a blank packet whose field holds 1 is patched into one that fails the check |
| `Packets.PatchedFrame` | srv6_mrc/encap.py:180-228 | patching a template whose field is zero gives the packet built from scratch |
| `Packets.BuiltVerifies` | srv6_mrc/encap.py:53-112 | a packet built from scratch passes the receiver's check |
| `Packets.BuiltDatagramAccepted` | srv6_mrc/encap.py:53-112 | the datagram of every packet built from scratch passes the check of RFC 8200 section 8.1 written out over addresses, length, next header and datagram, and states its own length |
| `Packets.SpliceFrame` | srv6_mrc/runner.py:309-319 | writing into a frame's payload region is writing into its payload |
| `Crc32.Continued` | srv6_mrc/runner.py:316-319 | a CRC-32 can be continued from the CRC of a prefix |
| `CrcRemainder.CrcIsRemainder` | srv6_mrc/runner.py:316-319 | the CRC of any message is the complement of the remainder, by long division over GF(2), of the padded message with its first 32 bits turned over, by the generator of RFC 1952 section 8 |
| `CrcRemainder.Residue` | srv6_mrc/runner.py:316-319 | a message followed by its own CRC, lowest byte first, has CRC 0x2144DF1C |
| `RoceCheck.BuiltIsAccepted` | srv6_mrc/rdma.py:58-97 | every RoCEv2 packet built passes a receiver's ICRC check over masked headers, payload and ICRC |
| `RoceCheck.CachedIsAccepted` | srv6_mrc/runner.py:298-322 | so does every RoCEv2 packet that comes out of the template cache, over any sequence of builds |
| `RoceCheck.CoversAllButMasked` | srv6_mrc/runner.py:336-359 | the check tells two inner packets apart if and only if they differ in a byte other than traffic class, flow label, hop limit, UDP checksum and the reserved BTH byte |
| `RoceCheck.TransitKeepsAcceptance` | srv6_mrc/runner.py:336-359 | changing those bytes on the way does not change the verdict |
| `Templates.BuildOuterTemplate` | srv6_mrc/encap.py:180-228 | the template is the frame of a zero payload with a zero checksum |
| `Templates.IcrcContinues` | srv6_mrc/runner.py:312-359 | the CRC of PSN and payload continued from the cached prefix is the packet's ICRC |
| `Templates.PacketTemplates.Make` | srv6_mrc/runner.py:324-359 | a new cache entry holds the constant bytes and the ICRC prefix of its key |
| `Templates.PacketTemplates.PatchTemplate` | srv6_mrc/runner.py:305-322 | the in-place patches give the packet built from scratch, UDP or RoCEv2, trimmed or full |
| `Templates.PacketTemplates.Build` | srv6_mrc/runner.py:298-322 | every build returns the from-scratch packet for the underlay source its cache entry was made with, and records that source once per key |
| `Templates.FastPathIsSlowPath` | srv6_mrc/runner.py:270-322 | over any sequence of builds the packets made with each entry's first source equal the from-scratch ones if and only if calls with the same cache key name the same underlay source |
| `Templates.RunCalls` | srv6_mrc/runner.py:270-322 | driving a new template cache through any sequence of builds gives those outputs, and all of them equal the from-scratch packets if and only if every key keeps its source |
| `Templates.TwoSourcesOneKey` | srv6_mrc/runner.py:298-304 | of two calls with one key and two sources the second gets the first one's bytes |
| `Templates.PlaneSourcesSuffice` | srv6_mrc/runner.py:416-463 | one underlay source per plane, as the sender keeps, is enough for that |
| `FrameParser.ParseFrame` | srv6_mrc/runner.py:624-662 | the offset loop parses as specified and never reads past the frame |
| `FrameParser.ParsesWhatWasBuilt` | srv6_mrc/runner.py:624-662 | addresses, ports and payload come out of any frame, with any VLAN tags and padding, encapsulated or not |
| `FrameParser.PayloadRoundTrip` | srv6_mrc/runner.py:194-209 | payload framing and parsing give back seq, plane and path, in plain and RoCEv2 form |
| `FrameParser.DecodesWhatWasSent` | srv6_mrc/runner.py:737-796 | a packet built for (seq, plane, path) decodes at its destination to exactly that, with its trim state, and every other host drops it |
| `FrameParser.OnlyDataDecodes` | srv6_mrc/runner.py:624-662 | a frame that yields data carries UDP over IPv6 behind its tags, directly or one header deeper, to the host's own address and one of the two ports |
| `FrameParser.QpNumberNamesEv` | srv6_mrc/topo.py:214-230 | the queue pair number encodes plane and path invertibly and avoids the reserved numbers; the PSN is seq modulo 2^24 |

## Left out

- Float rounding: weights, CDF entries, loss ratios, the draw and percentiles are exact reals, so the effects of 64-bit floats near a threshold, such as the draw rounding up to 1.0, are not modelled.
- Threads, sockets, sleeps and clocks: each step is atomic; only the steps a thread triggers are modelled, with times as parameters.
- A publisher thread reading the sent grid in the middle of an update, and a send recorded while a rotation copies the grid: both are atomic here.
- `Templates.PacketTemplates.Build` and `FrameParser.DecodesWhatWasSent`: scapy is replaced by the RFC byte layouts with its defaults (hop limit 64, flow label 0, BTH flag byte 0, P_Key 0xffff); sequence numbers, planes and paths have the widths of `!QBB`, so the error `struct` raises for wider ones is not modelled.
- `FrameParser.ParseFrame`: addresses stay 16 bytes; their RFC 5952 text form is not modelled.
- `EvTable.EvStateTable.Snapshot`: the configuration block and the two rounded ratios of an entry are left out.
- `SentCounters.SentCounterReader.Read`: cells that are no natural numbers, which the source converts or raises on, are left out.
- `TwinRuns.TwinRefinesLive`: files come from the publisher or hold no grid; a refresh thread that dies on the uncaught error is a run with no refresh after it.
- `SnapshotTwin.MrcSnapshot.RefreshOnce`: numbers in a snapshot are finite; NaN, infinities and integers beyond a double's range, on which Python's conversions differ, are left out.
- `SnapshotTwin.GridFromSnapshot`: JSON is value-preserving, and the snapshot's counters and rounded ratios, which the twin never reads, are left out.
- `SnapshotTwin.MrcSnapshot.PickOn`: the identity of a grid object is a number never used again; CPython may reuse the address that `id()` returns after a grid is freed.
- `SpineSelect.Fnv1a`: hashed texts are bytes; the UTF-8 encoding of non-ASCII addresses is not modelled.
- `LossReports.ApplyLossReport`: the threshold for absent EVs is the default of 2 and not a parameter, and the counters are threaded as a value and stored once at the end.
- `EvRuns.BoundedRecovery`: needs that no loss window of the EV exceeds the threshold after the demote, because a straggler record re-arms the recovery gate; it also asks for ratios of at most 1 and a window of at least one tick in the configuration.
- `EvTable.EvStateTable.Transition`: the `on_transition` callback and the transition log are not modelled, nor are `inspect` and `good_evs`, which only read.
- `Delivery.DataDelivered` and `Delivery.ProbeReturns`: hop limits, neighbour discovery delays, the IPv4 loopbacks and faults injected into links are not modelled; a lookup that misses in a VRF goes on in the main table, as Linux rules do; seg6local entries are entries of the main table.
- Address texts: addresses are eight hextets, and plane, spine and leaf numbers are single hexadecimal digits, as the generator assumes; parsing and printing of address strings is left out.
- `config_db.json` device metadata and port tables, management addresses, images and the visibility stack of the generator.
- `Weighted`, `RoundRobin`, `Hash5Tuple`, `select_spines` by host id and `policy_from_spec`: simpler variants of the pickers modelled here.
- `reorder_mean`, `reorder_max` and report rendering; `NackListener` retransmission; the CLI, orchestrator, scenario validation, fault injection and scraper.
- Statistical quality of FNV and SplitMix beyond equal counts over all seeds and no collision of texts one byte apart.
