# Hotspot Governor, modelled and proved in Dafny

Hotspot Governor is a decision runtime for a network fabric. Publishers send it
fenced, generation-bound evidence (topology, capacity, signals, paths, traffic,
policy). It admits that evidence, finds connected saturated regions, tracks how
long they persist, plans bounded mitigation and commits its history crash-safely.
This project models those parts and proves what they keep over every input and
every run. `dafny verify dfyconfig.toml` checks all of it.

## How the model is laid out

| files | what they hold |
|---|---|
| `Base`, `Model`, `Ordering`, `Building`, `Totals` | machine integers as bounded integers, the evidence records and limits, sorting and lookup, sums exact and saturating |
| `Checked`, `Digest` | overflow-checked arithmetic; CRC-64 against polynomial division over GF(2) |
| `Codec`, `ByteIo`, `Frame`, `WireIo`, `IntegrityTheorems` | layouts and their codec, the byte writer and reader, frame header and the six stream payloads, the codecs as writer and reader loops, and exactly what readers accept |
| `Regions`, `Csr`, `Slots`, `Topology`, `PathIndex`, `Snapshots`, `BuildTheorems` | built snapshots, region chains, both compressed indexes, and exactly what each snapshot accepts |
| `Components`, `Search`, `Tracker`, `Classification`, `References`, `Attribution` | the parts of detection, each against its simple form |
| `Detection`, `DetectionTheorems`, `Detector`, `DetectionExamples` | what one evaluation concludes, what that guarantees, the loops that compute it, and a concrete evaluation |
| `ReadingTheorems`, `AttributionTheorems`, `EvidenceTheorems`, `AssessmentTheorems` | the same conclusions in terms of the records they rest on: readings, attribution, refusal, cause, eligibility, escalation |
| `Intervention`, `Planner`, `Locality`, `PlanTheorems` | planning, its loops, detection and planning together, and when each kind of intent is taken |
| `Governor`, `GovernorTheorems`, `PublisherTheorems`, `Heartbeats`, `GovernorRuntime`, `Publish`, `GovernorExamples` | the protocol as transitions, what holds over whole runs, the life of a publisher, heartbeats, the object that refines it, the way of a snapshot from publisher to governor, and a concrete run |
| `Ledger`, `LedgerTheorems` | the durable record of decisions and what it holds after any run |
| `Journal`, `DurableState`, `Store`, `StoreGrowth`, `StoreAdvance`, `StoreRuntime`, `StoreExamples` | the write-ahead journal, the durable snapshot, the crash-step machine over both, how the journal file grows, which epoch a restart runs at, the object that takes those steps, and concrete losing runs |
| `DurableGovernor` | the governor over its store |
| `Worker`, `Authority` | the worker pool under every interleaving; the authority vector and its sealing |

Conventions. Unsigned and signed 64-bit values are integers with their bounds;
saturation and wrap-around are written out. A content identity is the content
itself (present) or absent, so identities are injective and nonzero. The checksum
is an arbitrary function of the bytes everywhere except in `Digest`. Clocks, boot
ids, commit results and what a crash leaves on disk are inputs. Sorted vectors
used as dictionaries of publishers are maps.

## Where the code and its comments differ

The model follows the code.

- A snapshot is installed before its references are verified and is not rolled
  back when verification refuses the frame; `RefusedFrameStaysInstalled` states
  exactly what is left, `RefusedCapacityStays` is such a run, and the stamp stays
  sound regardless.
- Heartbeats are said to live under the same epoch fence as other frames and are
  not checked against the epoch. `StaleHeartbeatAccepted` is a run that accepts one
  from another epoch, `EpochFenceAgrees` says exactly when acceptance agrees with
  the fence, and `HeartbeatFencesStream` says what such a heartbeat does to later
  stream frames.
- The verdict starts from "none", so confirmed hotspots that all have an unknown
  scope give the verdict "none": `QuietVerdict` gives the exact condition and
  `ConfirmedAndQuiet` such an evaluation.
- `granted` treats a denial as final while `seal` keeps the last finding of each
  domain; `SealKeepsGrant` says exactly when sealing changes a grant.
- `ratio_ppm` loses the fraction when the scaled remainder overflows;
  `RatioPpmMeaning` says exactly when it equals the exact quotient.
- A path crossing k resources of a component is counted k times in attribution;
  `IncidencesWeighted` states it as a weighted sum. What the code calls distinct fresh
  paths is counted the same way, record by record (`DemandAccounted`).
- The snapshot writer bounds the body and the reader bounds body plus header;
  `SnapshotReadBack` gives the exact condition, `CrashSafety` asks for it, and
  `OversizeSnapshotRun` is an acknowledged commit that no restart sees.
- A failed append may leave bytes in the journal that the journal does not count,
  so the file can outgrow the bound that opening it enforces, and then no restart
  succeeds although a commit was acknowledged: `RestartRefusedAfterTornAppends` is
  such a run. `RestartSucceeds` gives the exact condition, `JournalGrowth` bounds
  the excess by the stray bytes of every run, and without stray bytes a restart
  always succeeds.
- Journal numbering restarts when an emptied journal is reopened, so an epoch
  advance that was journalled and synced can be skipped at recovery:
  `AdvanceSkippedAfterRestart` is such a run and `SyncedAdvanceSurvives` says exactly
  when an advance survives. Behind a stray byte it is lost whatever its number
  (`AdvanceLostBehindStrayByte`); `RestartEpochExactly` covers every run. Crash safety
  is stated for acknowledged commits.
- Suppression records are capped at 64, and `EveryHotspotAccountedFor` says so.
- With a history limit of zero, recording the first confirmed hotspot drops from an
  empty vector; `RecordingDefined` gives the exact condition.

## Model

| member | source | states |
|---|---|---|
| `Base.AgeExactly` | include/hgm/time.hpp:29-36 | an observation is within an age if and only if it has a time, is not from the future and is no older than that |
| `Model.ExpiredExactly` | include/hgm/policy.hpp:127-132 | a policy is live if and only if it has a lifetime and an issue time and now lies between issue and issue plus lifetime |
| `Checked.RatioPpmMeaning` | include/hgm/checked.hpp:59-83 | the ratio never exceeds the exact quotient clamped to 32 bits, and equals it if and only if the scaled remainder fits in 64 bits or the integer part alone reaches the clamp |
| `Checked.RatioPpmLosesHalf` | include/hgm/checked.hpp:72-78 | a concrete ratio of one half that is reported as zero |
| `Checked.MulFits` | include/hgm/checked.hpp:33-39 | the overflow test of the checked product is exact in both directions |
| `Checked.ShareAtMostScale` | include/hgm/checked.hpp:59-83 | a part within its whole reports at most one million |
| `Checked.RatioScaledBack` | include/hgm/checked.hpp:59-83 | rounding only loses: the ratio scaled back never exceeds the part |
| `Checked.PpmReaches` | include/hgm/checked.hpp:59-83 | for all inputs the ratio is at least a floor if and only if the part reaches it, cross-multiplied where the scaled remainder fits in 64 bits and by the integer quotient where it does not |
| `Totals.AccumulatedIsClampedTotal` | include/hgm/checked.hpp:41-47 | a left-to-right saturating accumulation is the true sum, clamped |
| `Digest.BuildTable` | src/digest.cpp:8-24 | the table holds, for every byte, eight division steps of that byte |
| `Digest.Crc64` | src/digest.cpp:41-49 | the table-driven loop computes the bit-at-a-time register for every byte string |
| `Digest.CrcIsPolynomialRemainder` | src/digest.cpp:8-49 | the checksum is the remainder of schoolbook long division of the message by the CRC-64 polynomial over GF(2), with all-ones preset and final inversion |
| `Digest.TableStep` | src/digest.cpp:41-49 | one table lookup and shift equals eight single-bit steps, for every register and byte |
| `ByteIo.ByteWriter.PutLe` | src/byteio.cpp:7-25 | the loop appends the little-endian bytes of the value |
| `ByteIo.ByteWriter.TextField` | src/byteio.cpp:43-46 | appends the length-prefixed text the codec defines |
| `ByteIo.ByteReader.GetLe` | src/byteio.cpp:48-100 | reads the little-endian value and advances past it, or refuses a short input and consumes nothing |
| `ByteIo.ByteReader.TextField` | src/byteio.cpp:124-132 | succeeds exactly when the bounded text decodes, and leaves the same rest |
| `Codec.RoundTrip` | src/frame.cpp:222-708 | whatever follows it, an encoded value of any layout decodes to itself and leaves what follows |
| `Codec.Canonical` | src/frame.cpp:222-708 | bytes that decode are exactly the encoding of the wire value read, so there is one encoding per wire value; one snapshot still has several, since flag bytes, unused time fields and record order are normalised only when it is built |
| `WireIo.WriteValue` | src/frame.cpp:222-637 | writing field by field and record by record appends exactly the encoding |
| `WireIo.ReadValue` | src/frame.cpp:252-708 | reading field by field gives the codec's value and rest, or the error of the first field that fails |
| `WireIo.WritePayload` | src/frame.cpp:36-49 | a payload is the stream kind followed by the stream's layout |
| `WireIo.ReadPayload` | src/frame.cpp:51-79 | a payload is refused unless its kind matches and nothing follows its records |
| `WireIo.MakeFrame` | src/frame.cpp:201-218 | a made frame names its sender, passes the receiver's integrity check within the frame bound, and its payload reads back |
| `Framing.HeaderRoundTrip` | src/frame.cpp:114-170 | an encoded header decodes to itself for every checksum function |
| `IntegrityTheorems.HeaderFormat` | src/frame.cpp:19-34 | the 88 bytes of a header hold every field at its place, least significant byte first, its checksum last |
| `Framing.FrameRoundTrip` | src/frame.cpp:126-199 | an encoded frame's header decodes and its payload verifies |
| `IntegrityTheorems.HeaderAcceptedExactly` | src/frame.cpp:126-170 | a header is accepted if and only if the bytes are the encoding of a header of this version with a bounded payload and its own checksum |
| `IntegrityTheorems.FrameAcceptedExactly` | src/frame.cpp:126-199 | a receiver accepts exactly the frames a sender with the same checksum makes |
| `Framing.PayloadRoundTrip` | src/frame.cpp:36-79 | every payload that fits its stream decodes to itself |
| `Framing.PayloadPrefixFree` | src/frame.cpp:67-72 | no proper extension of an accepted payload is accepted, so no strict prefix of one is |
| `Framing.TopologyRoundTrip` | src/frame.cpp:222-324 | decoding an encoded built topology rebuilds the same canonical content, generation and validity window |
| `Framing.CapacityRoundTrip` | src/frame.cpp:326-387 | the same for capacity |
| `Framing.SignalsRoundTrip` | src/frame.cpp:389-460 | the same for signals |
| `Framing.PathsRoundTrip` | src/frame.cpp:462-526 | the same for paths |
| `Framing.TrafficRoundTrip` | src/frame.cpp:528-587 | the same for traffic |
| `Framing.PolicyRoundTrip` | src/frame.cpp:589-708 | the same for policy |
| `Building.BuildSortedMeaning` | src/capacity.cpp:18-41 | sort-then-check building yields a strictly sorted rearrangement whose every entry passed, and building that again changes nothing |
| `BuildTheorems.BuildSortedExactly` | src/capacity.cpp:18-41 | comparing sorted neighbours accepts exactly the vectors whose entries each pass and differ pairwise, in whatever order they were added |
| `Ordering.AdjacentDistinctIsStrict` | src/topology.cpp:160-178 | in a sorted vector, comparing neighbours excludes every repetition |
| `Regions.CycleCheckExact` | src/topology.cpp:104-129 | the bounded parent walk runs too long if and only if the parent relation has a cycle |
| `Regions.RegionsCyclic` | src/topology.cpp:104-129 | the walking loop reports a cycle if and only if there is one |
| `TopologyIndex.BuildTopologyMeaning` | src/topology.cpp:41-180 | a topology that builds is valid, is a rearrangement of what was added, and builds to itself |
| `BuildTheorems.TopologyBuildsExactly` | src/topology.cpp:41-200 | a topology builds if and only if bounds, ids, names, parents, regions, links and degrees are in order and no region is its own ancestor; it then is what was added, sorted |
| `TopologyIndex.BuildContent` | src/topology.cpp:41-200 | building, with the cycle walk and the degree count as loops, gives the specified content or the first error |
| `TopologyIndex.ExceedsDegree` | src/topology.cpp:181-200 | the counting loop finds a resource with too many neighbours if and only if there is one |
| `TopologyIndex.PartnersMeaning` | src/topology.cpp:151-236 | neighbours are strictly ascending, exactly the link partners, symmetric, and all known resources |
| `TopologyIndex.BuildAdjacency` | src/topology.cpp:181-236 | the counting-sort index lists, slot by slot, exactly the ascending link partners: the in-place unique removes nothing |
| `Csr.Build` | src/topology.cpp:181-220 | counting, prefix sums and placing yield, for each slot, exactly the values filed under it, in filing order |
| `Slots.Compact` | src/topology.cpp:221-236 | compacting slots keeps every slot's list |
| `TopologyIndex.BuildChains` | src/topology.cpp:238-254 | the chain index lists each resource's walk up from its region |
| `TopologyIndex.Neighbors` | src/topology.cpp:283-292 | the slice of the index is the ascending list of link partners, empty for unknown ids |
| `TopologyIndex.RegionChain` | src/topology.cpp:294-303 | the slice of the chain index is that resource's chain |
| `TopologyIndex.ChainsComplete` | src/topology.cpp:238-254 | every chain is the resource's region followed by all its ancestors to a root, never cut by the step bound |
| `PathIndex.BuildPathsMeaning` | src/paths.cpp:19-49 | built paths are strictly sorted, bounded, free of reserved ids, and build to themselves |
| `BuildTheorems.PathsBuildExactly` | src/paths.cpp:19-49 | paths build if and only if they are bounded, properly and differently named, with one to 256 proper hops each |
| `PathIndex.ThroughMeaning` | src/paths.cpp:51-92 | the simple form: ascending positions of exactly the paths whose hops contain the resource |
| `PathIndex.BuildReverse` | src/paths.cpp:51-92 | gathering, counting, placing and sorting build an index that lists those positions for every resource |
| `PathIndex.PathsThrough` | src/paths.cpp:118-127 | the slice of the index equals the simple form, for known and unknown resources |
| `Snapshots.BuildCapacityMeaning` | src/capacity.cpp:18-41 | built capacity is strictly sorted by resource and builds to itself |
| `Snapshots.BuildSignalsMeaning` | src/signals.cpp:20-50 | built signals are strictly sorted by resource and build to themselves |
| `Snapshots.BuildTrafficMeaning` | src/traffic.cpp:18-45 | built traffic is strictly sorted by path and flow, hence sorted by path, and builds to itself |
| `BuildTheorems.CapacityBuildsExactly` | src/capacity.cpp:18-41 | capacity builds if and only if it is bounded, names proper, different resources and has units wherever usable |
| `BuildTheorems.SignalsBuildExactly` | src/signals.cpp:20-50 | telemetry builds if and only if it is bounded, names proper, different resources, claims at most full confidence and admits no more than was offered |
| `BuildTheorems.TrafficBuildsExactly` | src/traffic.cpp:18-45 | traffic builds if and only if it is bounded, names proper paths and has one record per path and flow |
| `SaturatedComponents.ComponentsAreClasses` | src/detection.cpp:551-576 | components are classes of mutually connected saturated resources covering every saturated resource |
| `SaturatedComponents.ComponentsApart` | src/detection.cpp:551-576 | two components share no resource and no link |
| `SaturatedComponents.SeedsAscend` | src/detection.cpp:551-576 | components come in the order of their first members |
| `SaturatedComponents.ComponentWeights` | src/detection.cpp:594-601 | weights of the components add up to the weight of everything saturated |
| `SaturationSearch.AdjacencyMeaning` | src/topology.cpp:181-236 | the neighbour index of a built topology is a symmetric graph over its resources |
| `SaturationSearch.StepIsLink` | src/detection.cpp:566-573 | one step of the search is exactly one link of the topology |
| `SaturationSearch.Explore` | src/detection.cpp:559-576 | the stack search from a seed collects exactly what is connected to it through saturated resources |
| `SaturationSearch.FindComponents` | src/detection.cpp:551-576 | the seed loop yields exactly the components, in seed order |
| `SaturationHistory.TrackerHoldsRuns` | src/detection.cpp:87-116 | over every run of observations the tracker holds exactly the resources of the latest one, with the start and the capped length of each unbroken run |
| `SaturationHistory.TrackerHoldsSpans` | src/detection.cpp:87-116 | the same for observations at any time or none: an observation without a time is counted and the next one starts over |
| `SaturationHistory.SaturationTracker.Find` | src/detection.cpp:107-114 | the sorted-vector lookup is the history's lookup |
| `SaturationHistory.SaturationTracker.Carried` | src/detection.cpp:87-93 | what is carried into an evaluation is the held entry, or none |
| `SaturationHistory.SaturationTracker.Replace` | src/detection.cpp:95-105 | after replacing, exactly the named resources are held, each with one of its given entries, in strict order |
| `Classification.Classify` | src/detection.cpp:379-500 | the classification loop computes every reading and every saturating total, count and pressure entry |
| `Classification.Sense` | src/detection.cpp:415-470 | a fresh sample is covered, saturation implies admissibility, and a contradictory sample is never admissible |
| `Classification.CoverageBounded` | src/detection.cpp:391-512 | saturated <= admissible <= covered <= fabric, saturating sums included, so no coverage figure exceeds one million |
| `ReadingTheorems.SenseExactly` | src/detection.cpp:416-460 | a sample is admissible if and only if its quality, confidence and coherence are in order, and saturated if and only if besides that utilization, queue or buffer reaches its threshold, by cross-multiplied record fields |
| `ReadingTheorems.GaugesExactly` | src/detection.cpp:416-428 | every gauge of a sample reaches a level if and only if the recorded ratio does; pressure is the worst of the three |
| `ReadingTheorems.ReadingExactly` | src/detection.cpp:391-460 | a resource is covered, believed and saturated if and only if a usable capacity entry and a fresh, present sample of it say so |
| `ReadingTheorems.UnitsExactly` | src/detection.cpp:391-398 | a resource counts with the units of its usable capacity entry, and with none without one |
| `ReadingTheorems.CensusOverEvidence` | src/detection.cpp:379-470 | fabric, covered, admissible and saturated capacity are the clamped sums of the units of the resources whose records show it |
| `ReadingTheorems.PressuresShown` | src/detection.cpp:470-500 | the pressure list shows a drop on a saturated resource only if there is one, and whenever there is one unless more than 8192 resources are remarkable |
| `References.MergeResolves` | src/detection.cpp:131-149 | the single-cursor merge accepts if and only if every record names a topology resource |
| `References.PathReferencesResolve` | src/detection.cpp:151-158 | accepts if and only if every hop of every path is a topology resource |
| `DemandAttribution.AttributionConserves` | src/detection.cpp:703-758 | absent 64-bit saturation, each flow has one accumulator holding exactly its fresh demand, and the total is their sum, also when the population bound is hit |
| `DemandAttribution.IncidencesWeighted` | src/detection.cpp:716-724 | the demand met by the join is the sum over paths of crossings times fresh demand |
| `DemandAttribution.Accumulate` | src/detection.cpp:710-758 | the nested loops with hash map and lower_bound accumulate exactly the join |
| `DemandAttribution.CollectMeaning` | src/detection.cpp:774-791 | counting, listing and truncating contributors agree, and listed shares scaled back stay within the demand held |
| `DemandAttribution.ContributorSharesBounded` | src/detection.cpp:769-797 | absent 64-bit saturation, contributor shares add up to at most one million |
| `DemandAttribution.DominantFirst` | src/detection.cpp:792-805 | the contributor whose share decides the cause is the one with the greatest share |
| `DemandAttribution.ContributorsBacked` | src/detection.cpp:703-797 | every contributor is a flow with fresh demand on a path through a member, and every such flow is a contributor unless a bound on their number was hit; 64-bit saturation included |
| `AttributionTheorems.FreshExactly` | src/detection.cpp:721-724 | a traffic record is fresh if and only if it is recent enough and healthy or degraded |
| `AttributionTheorems.DemandAccounted` | src/detection.cpp:709-768 | absent 64-bit saturation and refused flows, fresh and stale demand and the number of fresh records are the sums over paths of what is recorded, once per resource crossed; together they are all demand recorded |
| `AttributionTheorems.IncompleteExactly` | src/detection.cpp:727-731 | attribution is incomplete if and only if more than 4096 flows have records on paths through the component |
| `AttributionTheorems.ContributorContents` | src/detection.cpp:744-797 | a contributor holds its flow's fresh demand, its share of all fresh demand, the path of the flow's greatest fresh record and a time no fresh record of it exceeds |
| `AttributionTheorems.DominanceExactly` | src/detection.cpp:770-805 | the first contributor reaches a share if and only if some flow's fresh demand does |
| `DetectionTheorems.DetectFindsComponents` | src/detection.cpp:551-576 | for every scene: members saturated and joined along links through saturated resources, every saturated resource in exactly one component, no link between two |
| `ReadingTheorems.ComponentsOverEvidence` | src/detection.cpp:551-576 | a resource is in some component if and only if its capacity and telemetry show saturation |
| `ReadingTheorems.SaturationReported` | src/detection.cpp:894-907 | with no more components than may be reported, an admitted evaluation reports a resource's component if and only if its records show saturation |
| `ReadingTheorems.ObservedOverEvidence` | src/detection.cpp:594-630 | an evaluation tells the tracker of exactly the resources of the topology whose records show saturation, and of none when refused |
| `DetectionTheorems.ComponentCapacitiesAddUp` | src/detection.cpp:589-633 | absent 64-bit saturation, hotspot capacities add up to the saturated capacity |
| `DetectionTheorems.HotspotShareBounded` | src/detection.cpp:632-634 | no hotspot claims more capacity than the fabric or a share above one million |
| `DetectionTheorems.AssessmentSharesBounded` | src/detection.cpp:507-512 | every share an assessment reports is at most one million, refused or not |
| `DetectionTheorems.ReportSelects` | src/detection.cpp:894-907 | confirmed and candidate lists are in-order selections by persistence, within their bounds, and nothing vanishes uncounted |
| `DetectionTheorems.HistoryHoldsRuns` | src/detection.cpp:594-630 | over every run of evaluations sharing a tracker, it holds exactly the resources saturated in the latest one, with start and length of the unbroken run |
| `DetectionTheorems.ConfirmedMeansSustained` | src/detection.cpp:822-825 | every member of a confirmed hotspot was saturated in each of the last min_persistence_samples evaluations, in a run at least as long as the window |
| `DetectionTheorems.WidestMeaning` | src/detection.cpp:930-936 | the verdict is at least as wide as every confirmed hotspot and is attained or "none" |
| `DetectionTheorems.QuietVerdict` | src/detection.cpp:930-936 | the verdict is "none" if and only if every confirmed scope is unknown or none; it is global if and only if some confirmed hotspot is |
| `DetectionTheorems.AssessmentRestsOnEvidence` | src/detection.cpp:255-377 | hotspots and candidates appear only on fresh, bound evidence whose references were verified by detect or before it |
| `DetectionTheorems.HotspotAttribution` | src/detection.cpp:703-797 | attributed demand of a hotspot is the incidence-weighted fresh demand (a lower bound when the population bound was hit) |
| `DetectionTheorems.IdentitiesDiffer` | src/detection.cpp:869-892 | hotspots of one evaluation have different identities |
| `DetectionTheorems.HealthyNeighbour` | src/detection.cpp:639-659 | a healthy neighbour is linked to a member, admissible and not saturated |
| `DetectionTheorems.RegionsComplete` | src/detection.cpp:661-670 | below the region limit the listed regions are exactly those of the members |
| `DetectionTheorems.EligibleMeaning` | src/detection.cpp:672-686 | only a persistent Localized or Regional hotspot under a live policy and below the global thresholds is eligible |
| `DetectionTheorems.ScopeMeaning` | src/detection.cpp:672-686 | each scope if and only if: Global by share, regions or because nothing admissible is unsaturated; Regional by regions; Localized only with a healthy neighbour to compare with; Unknown otherwise |
| `DetectionTheorems.CauseMeaning` | src/detection.cpp:688-812 | each cause if and only if: a dominant contributor, converging records, or the first kind of pressure some member reached |
| `DetectionTheorems.HealthyCountMeaning` | src/detection.cpp:639-659 | the count is positive if and only if some member has an admissible, unsaturated neighbour |
| `ReadingTheorems.PeaksOverEvidence` | src/detection.cpp:600-630 | each peak of a hotspot reaches a level if and only if some member's records do |
| `DetectionExamples.ConfirmedAndQuiet` | src/detection.cpp:930-936 | a concrete evaluation that confirms a hotspot and whose verdict is "none" |
| `EvidenceTheorems.RefusedOverEvidence` | src/detection.cpp:255-537 | an evaluation is refused if and only if topology, capacity or telemetry is missing, outside its window or age, of another generation or names an unknown resource without having been verified, or too few resources have usable capacity, or too little of the capacity is believed, by cross-multiplied sums |
| `EvidenceTheorems.PersistentExactly` | src/detection.cpp:822-825 | a component is confirmed if and only if a tracker was given and every member has been saturated often and long enough |
| `EvidenceTheorems.EligibleExactly` | src/detection.cpp:672-867 | a component is eligible if and only if the policy is live, every member is ripe, locality holds, and it is regional within the per-intent share or confined with a healthy neighbour |
| `EvidenceTheorems.ContributorsExactly` | src/detection.cpp:703-797 | a hotspot names exactly the flows with fresh demand on paths through its members, up to the bounds, and none without bound traffic |
| `EvidenceTheorems.ConfirmedContributors` | src/detection.cpp:703-797 | contributors of a confirmed hotspot rest on paths and traffic bound to the topology |
| `EvidenceTheorems.AdmissionReductionExactly` | src/intervention.cpp:197-345 | through detect and plan, admission reduction is taken for a component if and only if it is allowed, the component is within the resource bounds and its share fits the intent and the rest of the plan |
| `AssessmentTheorems.UsableExactly` | src/detection.cpp:762-801 | absent 64-bit saturation, attributed plus unattributed demand is all demand on paths through a hotspot, and attribution is usable if and only if traffic is bound, no flow was left out and fresh demand reaches the floor of all demand |
| `AssessmentTheorems.CauseOverEvidence` | src/detection.cpp:688-812 | each cause if and only if: some flow dominates usable fresh demand, eight or more fresh records converge on an exhausted member, or the first kind of pressure a member's records reach |
| `AssessmentTheorems.HealthyOverEvidence` | src/detection.cpp:639-652 | a neighbour is healthy if and only if its records are believed and do not show saturation |
| `AssessmentTheorems.EligibleOverEvidence` | src/detection.cpp:672-867 | a component of an evaluation is eligible if and only if a policy is in force at that time, every member is ripe, locality holds and its size fits or a healthy neighbour exists |
| `AssessmentTheorems.EscalationExactly` | src/detection.cpp:923-973 | an evaluation escalates if and only if it is not refused and a confirmed hotspot is global, or something is confirmed and the saturated share reaches the global threshold, or more are confirmed than a plan serves with a total share a plan may not touch |
| `AssessmentTheorems.DecisionExactly` | src/intervention.cpp:66-145 | without topology or policy in force nothing is planned; with broken locality exactly the escalation intent if allowed, eligible hotspots being recorded; otherwise exactly the hotspot-by-hotspot plan |
| `AssessmentTheorems.PlanNeedsBinding` | src/intervention.cpp:77-95 | nothing is planned on a topology other than the one the assessment is bound to, nor without a policy in force |
| `AssessmentTheorems.RefusalReport` | src/detection.cpp:255-537 | a refused assessment reports nothing confirmed, the verdict none exactly for a topology without resources, and capacity figures exactly when it got as far as reading the resources |
| `AssessmentTheorems.AssessmentBound` | src/detection.cpp:162-245 | every assessment carries the topology and all six generations it was made from, and the saturated share of its figures |
| `AssessmentTheorems.IdentityExactly` | src/detection.cpp:869-892 | components of any two evaluations have the same identity if and only if generations, scope and cause agree and the members have the same number, first 32 and last listed; up to 33 members that means the same members |
| `Detector.Measure` | src/detection.cpp:589-630 | the member loop computes capacity, peaks, latest start, fewest samples and the next history entries |
| `Detector.GatherHealthy` | src/detection.cpp:639-652 | the neighbour loops gather exactly the healthy neighbours, ascending and once |
| `Detector.GatherRegions` | src/detection.cpp:661-670 | the region loop lists the members' regions up to its bound |
| `Detector.CollectContributors` | src/detection.cpp:769-797 | the contributor loop over sorted accumulators |
| `Detector.Examine` | src/detection.cpp:576-893 | everything done with one component yields the specified hotspot and history entries |
| `Detector.Verdict` | src/detection.cpp:923-973 | the verdict and escalation loops |
| `Detector.PairsWithinBound` | src/detection.cpp:909-915 | the history bound never truncates |
| `Detector.RunDetect` | src/detection.cpp:162-985 | detect returns the specified assessment and leaves the tracker exactly one tracking step further, emptied when refused |
| `Intervention.FitsWithinPlan` | src/intervention.cpp:276-327 | an intent that passes respects every per-intent and whole-plan bound |
| `Intervention.IntentContents` | src/intervention.cpp:203-256 | resources are exactly the hotspot's, with healthy neighbours only for relocation; flows and paths are exactly those of the contributors and only with usable attribution; a rate change is the measured excess up to its bound and only for rate pacing |
| `Intervention.HotspotHandled` | src/intervention.cpp:139-375 | each hotspot gets the first kind of its cause's list that passes all checks at the current plan share, or a record of why not |
| `Intervention.IntentsAreFirstFits` | src/intervention.cpp:139-375 | every intent belongs to one eligible hotspot, in order, and is that hotspot's first fitting kind |
| `Intervention.PlanWithinBudget` | src/intervention.cpp:139-375 | intents within max_intents_per_plan, plan share the sum of intent shares and within budget, rate deltas in [-max, 0], sizes and scopes bounded |
| `Intervention.EveryHotspotAccountedFor` | src/intervention.cpp:26-37 | every hotspot has an intent or a suppression record unless all 64 records are used |
| `Intervention.SuppressionsNeverRepeat` | src/intervention.cpp:26-37 | no plan records the same suppression twice |
| `Planner.NoteSuppression` | src/intervention.cpp:26-37 | the search loop appends a record unless it is there already or 64 are |
| `Planner.ComputeShare` | src/intervention.cpp:39-48 | the share of the listed resources |
| `Planner.MakeDraft` | src/intervention.cpp:203-274 | the loops that draft a kind, or refuse its precondition |
| `Planner.Attempted` | src/intervention.cpp:198-345 | drafting and validating one kind |
| `Planner.TryKinds` | src/intervention.cpp:187-373 | the candidate loop of one hotspot |
| `Planner.PlanHotspots` | src/intervention.cpp:139-375 | the hotspot loop |
| `Planner.PlanInterventions` | src/intervention.cpp:66-381 | plan_interventions with its missing-topology, policy and escalation paths |
| `Locality.IntentCoversHotspot` | src/intervention.cpp:203-299 | an intent's resources are the entire component and nothing beyond it and its healthy neighbours |
| `Locality.EscalationIsAlone` | src/intervention.cpp:99-135 | when escalation is required the plan holds at most the escalation intent, which touches no resource |
| `Locality.LocalIntentMeansLocality` | src/intervention.cpp:99-145 | a local intent implies a policy in force at that time, a persistent Localized or Regional hotspot within max_regional_regions which it covers, no confirmed Global hotspot and a saturated share below the global threshold |
| `Locality.OneIntentPerHotspot` | src/intervention.cpp:189-196 | the intents of one decision name different hotspots |
| `PlanTheorems.IntentPreferred` | src/intervention.cpp:147-200 | every intent is of a kind its policy enables, and a local one is the first kind its hotspot's cause considers that fits what the plan has left |
| `PlanTheorems.KindTakenExactly` | src/intervention.cpp:197-345 | each kind is taken for a component if and only if the policy enables it, the evidence warrants it (attribution, excess load, drops), what it touches and names is within the bounds, and its capacity fits the intent and the rest of the plan |
| `PlanTheorems.EveryKindAccountedFor` | src/intervention.cpp:188-200 | every kind a hotspot's cause considers is the one it was served with or has a suppression record, unless all 64 are used |
| `PlanTheorems.RejectedExactly` | src/intervention.cpp:147-376 | the count of rejections is one per hotspot left without an intent and one per kind refused for the whole plan's share before one fitted |
| `GovernorProtocol.AdmittedValid` | src/governor.cpp:493-583 | whatever frame arrives, the installed evidence stays built and valid |
| `GovernorTheorems.RunStampSound` | src/governor.cpp:577-587 | in every reachable state, what was stamped together resolves in the stamped topology |
| `GovernorTheorems.PreverifiedMeansResolved` | src/governor.cpp:618-625 | whenever references_preverified is true, every installed capacity, signal and path reference resolves |
| `GovernorTheorems.HotspotsRestOnResolvedEvidence` | src/governor.cpp:605-630 | in every reachable state every hotspot or candidate rests on resolving capacity and signals, and attribution on resolving paths |
| `GovernorTheorems.RefusedFrameStaysInstalled` | src/governor.cpp:577-583 | a frame refused for its references stays installed, unstamped |
| `GovernorTheorems.RunLive` | src/governor.cpp:120-240 | in every run in which recover, if called, comes first, a live publisher's epoch is the governor's |
| `GovernorTheorems.ResetUnreachable` | src/governor.cpp:443-448 | the in-place reset of a live publisher changes nothing in any such run |
| `GovernorTheorems.RunAdvances` | src/governor.cpp:120-240 | over such a run the epoch never decreases and a publisher's incarnation never decreases and fixes its boot id |
| `GovernorTheorems.AcceptedFramesOrdered` | src/governor.cpp:408-594 | accepted stream frames of one epoch and incarnation have strictly increasing sequences and per-stream generations, so none is accepted twice |
| `GovernorTheorems.AcceptedExactly` | src/governor.cpp:408-603 | a stream frame is accepted if and only if it is intact, passes the fences, is newer, decodes and leaves every reference resolving; then its snapshot is installed and vouched for, its publisher's sequence and that stream's generation become the frame's, and everything else stays |
| `GovernorTheorems.RunHistory` | src/governor.cpp:605-630 | in every run the history is what the tracker saw over the evaluations since history was last restored |
| `GovernorTheorems.ConfirmedInRunSustained` | src/governor.cpp:605-630 | in every run a confirmed hotspot was sustained over the last min_persistence_samples evaluations of that run |
| `PublisherTheorems.DeathExactly` | src/governor.cpp:242-300 | a death is accepted if and only if the publisher is known and the commit succeeded; it takes a live publisher's authority and, if configured, exactly the snapshots it owned, stream by stream |
| `PublisherTheorems.DeathStopsDecisions` | src/governor.cpp:273-300 | in every run, right after such a death evaluation is refused if topology, capacity or telemetry was that publisher's |
| `PublisherTheorems.DeadRefused` | src/governor.cpp:365-442 | no frame of an unknown or dead publisher is accepted, of any kind, and nothing changes |
| `PublisherTheorems.RegistrationExactly` | src/governor.cpp:171-240 | when registration is accepted, and that it gives live authority in the installed epoch with order starting over except for a known incarnation |
| `PublisherTheorems.EpochExactly` | src/governor.cpp:120-169 | when an epoch is installed, and that exactly the publishers of other epochs lose authority and order |
| `PublisherTheorems.StartsOver` | src/governor.cpp:158-240 | in every run, after a newer epoch a publisher of the same incarnation is refused until it registers again and may then start at sequence 1 and generation 1 on every stream |
| `PublisherTheorems.RestartExactly` | src/governor.cpp:70-118 | a restart from a store keeps no publisher, evidence or history and runs after the recovered epoch |
| `PublisherTheorems.RestartedRefuses` | src/governor.cpp:112-118 | after such a restart every frame is refused, and every evaluation |
| `PublisherTheorems.RefusalNamesFence` | src/governor.cpp:408-478 | the first fence an intact stream frame fails names the error |
| `Heartbeats.HeartbeatExactly` | src/governor.cpp:365-400 | a heartbeat is accepted if and only if it is undamaged and comes from a known, live publisher of that incarnation and boot with sequence 0 or a newer one; it moves that sequence and nothing else |
| `Heartbeats.EpochFenceAgrees` | src/governor.cpp:365-400 | acceptance agrees with the epoch fence if and only if the heartbeat names the installed epoch or is refused anyway |
| `Heartbeats.StaleHeartbeatAccepted` | src/governor.cpp:365-400 | a reachable governor that accepts a heartbeat from another epoch, which moves the publisher's sequence |
| `Heartbeats.HeartbeatFencesStream` | src/governor.cpp:388-455 | after an accepted heartbeat, every stream frame of that publisher accepted in the same epoch and incarnation carries a higher sequence |
| `GovernorExamples.RefusedCapacityStays` | src/governor.cpp:577-583 | a concrete run in which a refused capacity frame stays installed |
| `GovernorRuntime.VerifyReferences` | src/governor.cpp:302-322 | accepts if and only if everything installed resolves |
| `GovernorRuntime.DropOwned` | src/governor.cpp:273-300 | drops what a publisher owned, one stream after the other |
| `GovernorRuntime.Governor.RecoverFrom` | src/governor.cpp:70-118 | recovery moves past the recovered epoch and restores no live authority |
| `GovernorRuntime.Governor.FencePublishers` | src/governor.cpp:158-167 | the loop fences exactly the publishers of other epochs |
| `GovernorRuntime.Governor.InstallEpoch` | src/governor.cpp:120-169 | the new state and every refusal |
| `GovernorRuntime.Governor.RegisterPublisher` | src/governor.cpp:171-240 | the new state and every refusal |
| `GovernorRuntime.Governor.NotePublisherDeath` | src/governor.cpp:242-300 | the new state, dropping only what the publisher owned |
| `GovernorRuntime.Governor.CheckFences` | src/governor.cpp:408-442 | the epoch, registration, incarnation and liveness checks, in order |
| `GovernorRuntime.CheckOrder` | src/governor.cpp:449-478 | the sequence and generation checks, in order |
| `GovernorRuntime.Governor.InstallPayload` | src/governor.cpp:493-573 | a payload read field by field is rebuilt, installed and indexed, or nothing changes |
| `GovernorRuntime.Governor.AdmitStream` | src/governor.cpp:408-603 | the new state and every refusal of a stream frame, in order |
| `GovernorRuntime.Governor.AdmitFrame` | src/governor.cpp:350-603 | damaged frames, heartbeats, unknown types and streams |
| `GovernorRuntime.Governor.Evaluate` | src/governor.cpp:605-630 | evaluation returns the specified assessment and plan and moves only the history |
| `Publish.PublishedIsInstalled` | src/governor.cpp:493-573 | what a publisher built is what the governor installs, exactly, for all six streams; a topology only if newer |
| `Publish.Send` | src/frame.cpp:201-218 | encoding, framing and admitting a built snapshot installs it beside everything else as it was |
| `DecisionLedger.RecordingDefined` | src/governor.cpp:632-654 | recording is defined if and only if some history is allowed, something is recorded already, or nothing was confirmed |
| `DecisionLedger.RecordingValidated` | src/governor.cpp:632-672 | what is recorded passes commit's validation, keeps one entry per identity, and holds the last confirmed hotspot |
| `DecisionLedger.RunValidated` | src/governor.cpp:632-672 | over every run of decisions the recorded state stays one that commit accepts |
| `LedgerTheorems.RunHoldsLatest` | src/governor.cpp:632-672 | after every run of decisions the record holds the identities that entered last, in the order they entered, each with its latest entry, and the latest interventions |
| `LedgerTheorems.EntrySays` | src/governor.cpp:633-643 | an entry tells scope and cause apart and holds for how long all members had been saturated, at least the window for a confirmed hotspot |
| `LedgerTheorems.InterventionSays` | src/governor.cpp:654-663 | an intervention entry tells its kind, hotspot, share and time |
| `DecisionLedger.RecordDecision` | src/governor.cpp:632-672 | the recording loops |
| `JournalLog.RecordRoundTrip` | src/journal.cpp:32-82 | an encoded record decodes to itself, whatever follows |
| `IntegrityTheorems.RecordFormat` | src/journal.cpp:32-45 | a journal record holds every field at its place, its two checksums and its payload |
| `JournalLog.TornRecordRefused` | src/journal.cpp:47-82 | no strict prefix of a record decodes |
| `IntegrityTheorems.RecordAcceptedExactly` | src/journal.cpp:47-82 | a record is read if and only if the bytes begin with the encoding of a record append accepts |
| `IntegrityTheorems.ScanExactly` | src/journal.cpp:87-130 | for arbitrary bytes the scan keeps exactly the encoding of the records it returns, and no record follows |
| `JournalLog.TornTailExact` | src/journal.cpp:87-130 | for any records followed by a strict prefix of another, the scan finds exactly the records, cuts at their boundary, and a second open discards nothing |
| `JournalLog.ScanCut` | src/journal.cpp:119-126 | for arbitrary bytes, scanning what the scan kept keeps all of it |
| `JournalLog.ScanLoop` | src/journal.cpp:103-113 | the scanning loop |
| `JournalLog.Journal.Open` | src/journal.cpp:87-130 | opening keeps exactly the complete records and continues their numbering |
| `JournalLog.Journal.Append` | src/journal.cpp:138-159 | appends one numbered record, or says which bound or failure stopped it and what reached the file |
| `JournalLog.Journal.Replay` | src/journal.cpp:166-183 | the records in the file, up to a bound |
| `JournalLog.Journal.Reset` | src/journal.cpp:185-191 | empties the file and keeps the numbering of the open journal; if emptying fails, says what is left in the file |
| `DurableSnapshot.StateRoundTrip` | src/store.cpp:38-136 | every validated durable state decodes to itself |
| `DurableSnapshot.SnapshotReadBack` | src/store.cpp:169-250 | a written snapshot reads back if and only if body plus header is within the bound |
| `IntegrityTheorems.SnapshotAccepted` | src/store.cpp:189-250 | a snapshot is read only if the file is within its bound, its length and both checksums are right and the body decodes |
| `DurableSnapshot.StateBytesBounded` | src/store.cpp:21-36 | a validated state never exceeds a fixed size |
| `DurableSnapshot.RecoveredEpochAtLeast` | src/store.cpp:318-352 | recovery never returns an epoch below the snapshot's |
| `DurableSnapshot.RecoveredEpochSource` | src/store.cpp:318-352 | the recovered epoch is the snapshot's or a replayed advance's |
| `DurableSnapshot.ReplayOnTop` | src/store.cpp:318-352 | the replay loop over the journal |
| `DurableSnapshot.RecoveredEpochExactly` | src/store.cpp:318-352 | recovery reaches an epoch if and only if the snapshot has or some record of the journal that the snapshot does not cover advances to it |
| `DurableSnapshot.RecoveredSequenceExactly` | src/store.cpp:329-345 | the recovered sequence reaches a number if and only if the snapshot's does or a record of the journal has it or a higher one |
| `StoreCrash.RunSound` | src/store.cpp:252-274 | with a crash possible between any two steps of append, sync, temp write, rename and reset, disk and process stay sound |
| `StoreCrash.RunFlushed` | src/store.cpp:190-195 | in every run the temporary file is synced before it replaces the snapshot, so no crash tears the snapshot |
| `StoreCrash.CrashSafety` | src/store.cpp:252-367 | with files within their bounds a restart succeeds; it recovers the history of exactly one attempted commit, never older than the last acknowledged one (or none if nothing was acknowledged), at an epoch strictly above every acknowledged commit's |
| `StoreCrash.LargeBoundReadsBack` | src/store.cpp:169-210 | a bound that leaves room for the largest validated state reads back every commit of every run |
| `StoreGrowth.JournalGrowth` | src/journal.cpp:138-159 | in every run the journal file exceeds its bound by at most the bytes failed appends left since the store was opened |
| `StoreGrowth.RestartSucceeds` | src/journal.cpp:87-93 | a restart succeeds if and only if the journal file is within its bound, and always when no append failed part-way |
| `StoreGrowth.CrashSafetyWithoutStrayBytes` | src/store.cpp:252-367 | crash safety without looking at the file: room for every state and no append that failed part-way |
| `StoreExamples.RestartRefusedAfterTornAppends` | src/journal.cpp:138-159 | a concrete run with an acknowledged commit after which no restart succeeds |
| `StoreAdvance.RestartEpochExactly` | src/store.cpp:276-367 | after every run a restart runs above an epoch if and only if the snapshot has reached it or a readable record that the snapshot does not cover advances to it |
| `StoreAdvance.UndisturbedIntact` | src/journal.cpp:138-191 | in every run a journal without part-way failures or counter wrap since it was opened or emptied holds intact records only, none numbered above the counter |
| `StoreAdvance.SyncedAdvanceSurvives` | src/store.cpp:252-262 | whatever a crash leaves behind, an advance synced by a commit begun at a counter survives it if and only if the counter is not below the installed snapshot's filter or the installed epoch is already as high |
| `StoreAdvance.AcknowledgedRetires` | src/store.cpp:268-274 | in every run, whatever a crash leaves of the journal after a commit was acknowledged, it is empty |
| `StoreExamples.AdvanceLostBehindStrayByte` | src/journal.cpp:103-113 | a concrete synced advance that recovery does not read because a failed append left one byte before it |
| `StoreExamples.OversizeSnapshotRun` | src/store.cpp:172-203 | a concrete acknowledged commit that no restart sees |
| `StoreCrash.OversizeSnapshotForgotten` | src/store.cpp:197-210 | a snapshot the reader refuses is forgotten and the configured epoch is used |
| `StoreExamples.AdvanceSkippedAfterRestart` | src/store.cpp:329-345 | a concrete run whose synced advance to epoch 100 recovery skips |
| `StoreRuntime.Store.OpenAndRecover` | src/store.cpp:145-367 | opening, scanning, replaying and reading the snapshot is the restart of the crash machine |
| `StoreRuntime.Store.AppendStep` | src/journal.cpp:138-159 | appending through the journal object is one step of the crash machine, whatever part of it reached the file |
| `StoreRuntime.Store.ResetStep` | src/journal.cpp:185-191 | so is emptying the journal |
| `StoreRuntime.Store.Commit` | src/store.cpp:252-274 | commit is one Begin of the crash machine and its steps up to the first that fails; it succeeds if and only if the attempt is acknowledged |
| `DurableGovernor.InstallDurably` | src/governor.cpp:120-156 | an epoch becomes live only once a commit at that epoch is acknowledged; if the commit fails the governor is unchanged |
| `DurableGovernor.AcknowledgedEpochFenced` | src/governor.cpp:70-118 | however long a restarted governor runs, it refuses every stream frame of an epoch acknowledged before the crash |
| `WorkerQueue.PoolAccounting` | src/worker.cpp:32-141 | over every interleaving accepted equals completed plus dropped plus queued plus active, the queue stays within capacity, tasks start in FIFO order |
| `WorkerQueue.DrainCompletes` | src/worker.cpp:57-75 | once the workers have been joined with nothing dropped, every accepted task has completed |
| `WorkerQueue.CancelledNeverBegins` | src/worker.cpp:85-100 | once cancelled, no task still queued at that moment ever begins, whatever happens afterwards |
| `WorkerQueue.EverythingCounted` | src/worker.cpp:32-55 | over every interleaving each submission is accepted or counted as rejected, and each throw counted |
| `WorkerQueue.StoppedAcceptsNothing` | src/worker.cpp:49-62 | once a pool stops accepting it accepts nothing until it is started again |
| `WorkerQueue.WorkerPool.StartPool` | src/worker.cpp:19-30 | starting is one step of the machine, refused when already started |
| `WorkerQueue.WorkerPool.SubmitTask` | src/worker.cpp:32-47 | the critical section of submit is one step of the machine |
| `WorkerQueue.WorkerPool.WorkerTurn` | src/worker.cpp:110-122 | a worker takes the oldest task, or leaves when stopping |
| `WorkerQueue.WorkerPool.FinishTask` | src/worker.cpp:132-136 | completion is one step of the machine |
| `WorkerQueue.WorkerPool.DropQueued` | src/worker.cpp:77-83 | dropping is one step of the machine |
| `WorkerQueue.WorkerPool.BeginStopping` | src/worker.cpp:57-93 | the first critical section of draining or cancelling |
| `WorkerQueue.WorkerPool.JoinWorkers` | src/worker.cpp:63-73 | joining, once every worker has left, is one step of the machine |
| `Authority.SealKeepsGrant` | src/authority.cpp:37-83 | sealing leaves a domain's grant as it was if and only if it was not denied before a last finding that granted it |
| `Authority.SealTurnsDenialIntoGrant` | src/authority.cpp:37-83 | a concrete denied domain that sealing grants |
| `Authority.AuthorityVector.IsGranted` | src/authority.cpp:37-47 | granted means some finding and no denial |
| `Authority.AuthorityVector.Seal` | src/authority.cpp:56-83 | sealing yields one finding per domain, in domain order, each the last of its domain |

## Left out

- Snapshots are values: building one and building its index are separate operations here, and a snapshot object mutated after building is not modelled.
- The per-stream payload codecs are functions over a layout, and the order of fields within a record is the layout's; `WireIo` proves the writer and reader loops for every layout, but there is no separate loop per stream, and header encoding and the journal and snapshot framings are functions only.
- Validation of regions, resources, links, capacity, signals, paths and traffic entries is a recursive check over the sorted vector rather than a loop; the order of errors is the code's. The cycle walk and the degree count are loops.
- `detect` collects all components before it judges them, where the code judges each as soon as it is found; the results are the same.
- The registry of publishers is a map, so its sorted-vector insertion is not modelled; first-seen, last-seen and death times, the accepted and rejected counters and metrics are not modelled.
- Severity bands (an entry of the durable record carries an arbitrary severity), authority reasons, diagnostics and explanation text, and the `render` and `to_string` functions: no decision reads them.
- Hotspot and intervention keys: a hotspot's identity is the data its key is hashed from; hash collisions are not modelled. Above 33 members two components may share that data (`IdentityExactly`).
- `commit_durable` and the counters of the durable state: which fields are copied into a commit is written out only for epoch installation.
- The rounding of the `long double` fallback in `ratio_ppm` is taken over the reals; any rounding gives the same result because that value is then divided by the whole.
- Crash model: torn or lost writes, interrupted commits and files renamed before they were synced; arbitrary corruption of the snapshot and a rename that is lost after it returned are not modelled.
- Sockets, files, connection handling, worker threads as threads, clocks, boot-id generation, the synthetic generators and the command-line tools.
