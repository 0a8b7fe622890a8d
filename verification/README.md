# LINA core: verified model

LINA is a C++ program that keeps a language model's replies inside an "ethical polytope", keeps its
memories in tiers, and talks to a browser and to helper processes. This project models its self-contained
algorithms in Dafny and proves what they are for. One file models one component:

| files | component |
|---|---|
| Vectors, Projection, Convergence, Landing, EarlyExit, Rate, Lattice, Alignment, Walls, Violations, Polytope | the lattice of a season, projection onto it, the alignment score and the violation reports |
| Couple, CoupleNudges, Apart, Finish, Stall | how near the projection comes to the nearest point: one principle pair at a time, all seven together, and an input from which it does not |
| Clusters, Lloyd, Poles, Growth | home regions: seeding, clustering, projected centers, and season crossings |
| Frames, RingProtocol, RingProgress, Ring | the single-producer single-consumer ring, as interleaved byte steps and as one thread sees it |
| EditDistance | the two-row edit-distance table |
| Classifier, StreamParsing | the incremental classifier of the token stream |
| Reflection, Conversation, Orchestrator | the gate with its reflections, the turn loop, and whole sessions |
| Sweeping, Consolidation, MemoryKeeping, Maintenance | the tier sweep, long-term maintenance and review, one pass and whole runs |
| ByteOrder, Base64, Sha1, Sha1Vector, WebSocket | the wire codecs |
| Options, Sequences | a value that may be missing; what holds of all sequences |

Code that computes by changing things in place is a class or a method with loops, proved against a
function; the properties are lemmas about the functions and about all runs of a state machine.

## How the code is read

- Floating-point numbers and exact rationals are both `real`. Integers are unbounded except where their
  width matters: the decoder's accumulator, SHA-1's words, length prefixes.
- The driver, the value engine's verdicts, the tools, the stop button, the store's answers and the clock
  are parameters about which nothing is assumed. Time is whole seconds. Item identities never repeat.
- The ring's loads, stores and byte accesses are single steps that take turns in any order.
- `exp` is any positive function of the idle time that is 1 at zero and never rises.
- The SHA-1 model is written for any number of rounds from 16 on and the digest fixes 80 (`ROUNDS`); the
  length field is eight bytes (`LENGTH_BYTES`).

## Where code and documentation differ

- The header comment of the ring says the length prefix does not count itself
  (include/dragon_ring.h:37); the code counts it (lines 115 and 148). The model follows the code.
- The gate's comment says a violating draft is never delivered (src/lina_core.cpp:966-971). It is, exactly
  when the driver is not connected at that moment: `Reflection.ViolatingDraftLeaks`.
- The projection's comment says that its iterates converge to the nearest point (src/value_engine.cpp:779-783).
  They do (`Rate.SweepsConverge`), but the loop ends after 2000 sweeps. From inputs within 19 of the center in
  every coordinate it has arrived (`Finish.ProjectionIsNearest`), from all others it is near
  (`Finish.ProjectionIsNear`), and from some of them no more than that (`Stall.FarInputIsMissed`).
- The 48-hour grace is described as a second chance. An item's score does not change while it waits, so
  the chance is taken only if something else rescores the item; likewise an item formed below 5.0 never
  reaches long-term memory by sweeping alone: `Consolidation.OnlyRescoringRescues`.
- `must_keep` does not keep a row that fails its review: `Maintenance.MustKeepIsForgotten` is such a run and
  `Maintenance.MustKeepFallsIff` says exactly which runs are.
- The violation record of a bound below its minimum gives the negated minimum as the bound:
  `Violations.BoundReport`.
- A pong is sent unmasked and with at most two length bytes, so long ones do not read back:
  `WebSocket.PongRoundTripIff`.

## Model

| member | source | states |
|---|---|---|
| Projection.RunKeepsInvariant | src/value_engine.cpp:790-839 | Over any number of sweeps, the iterate plus all corrections is the starting point, and every correction is a non-negative multiple of its facet's normal. |
| Projection.StepIsTight | src/value_engine.cpp:792-838 | After a facet's step its correction is zero or the facet is exactly tight. |
| Projection.StepRaisesDual | src/value_engine.cpp:792-838 | Every facet step, active or inactive, raises the dual value by at least half the squared movement of the iterate. |
| Projection.WeakDuality | src/value_engine.cpp:790-839 | The dual value stays below half the squared distance to any point of P; the gap is at least half the squared distance still left. |
| Projection.TotalMovementBound | src/value_engine.cpp:790-839 | The squared movement of all sweeps together, plus the squared distance left, is at most the squared distance from the start to any point of P. |
| Projection.StillSweepIsNearest | src/value_engine.cpp:779-783 | If a sweep moves nothing and P is not empty, the iterate is in P and is the unique point of P nearest to the start. |
| Projection.ComplementaryIsNearest | src/value_engine.cpp:779-783 | A point of P whose corrections are non-zero only on tight facets is nearest to the start, with the squared-distance gap spelt out. |
| Convergence.SweepViolation | src/value_engine.cpp:790-839 | After a sweep the violation of a facet is bounded by the movement of the steps after it. |
| Convergence.SomeSweepIsNearlyInside | src/value_engine.cpp:786-839 | A rate: of any n sweeps one ends with every facet violated by at most a bound that shrinks with the root of n. |
| Convergence.QuietSweepIsNearStart | src/value_engine.cpp:788-839 | If the largest correction of a sweep is at most m, the iterate is within (number of facets) times m of the start in each coordinate. |
| Convergence.LargestCorrection | src/value_engine.cpp:786-831 | What the early exit compares with its limit is the largest coordinate of any correction after the sweep. |
| EarlyExit.EarlyExitIsNearlyInside | src/value_engine.cpp:786-839 | When the sweeps over a season's lattice stop early, neither the input nor the iterate violates any facet by more than 1e-8; from every other input all the sweeps are run. |
| EarlyExit.EarlyExitHasConverged | src/value_engine.cpp:831-839 | When they stop early they have converged: the iterate is within 1.25e-7 times the distance from the input to the center of the nearest point of the lattice. |
| Rate.SweepsConverge | src/value_engine.cpp:779-839 | The sweeps over a season's lattice converge to the nearest point from every start, at a rate: after n of them the squared distance d still left has n d^2 <= 52500 times the squared start-to-center distance squared times the squared distance to the nearest point. |
| Rate.LoopConverges | src/value_engine.cpp:779-839 | With the early exit: the loop ends next to the nearest point, or has run all its sweeps and is within that rate. |
| Growth.EveryProjectionIsInside | src/value_engine.cpp:841-894 | For every season, every further facets its center satisfies and every point, the projection lies in the lattice they make together, and projecting again changes nothing. |
| Landing.MembersAreKept | src/value_engine.cpp:774-894 | Points of P are projected to themselves. |
| Landing.ProjectedIsIdempotent | src/value_engine.cpp:774-894 | Projecting twice is projecting once. |
| Landing.ProjectedContracts | src/value_engine.cpp:790-847 | The sweeps never end farther from any point of P than they started, and when the exact check accepts their result the projection is that result. |
| Landing.ProjectionContracts | src/value_engine.cpp:774-894 | The whole projection, nudges included, ends no farther from a point that is clear of every facet than it started, unless it falls back to the center. |
| Growth.EveryProjectionNearsCenter | src/value_engine.cpp:774-894 | For every season, every further facets its center is clear of and every point, the projection is no farther from the center than the point was. |
| Finish.ProjectionIsNear | src/value_engine.cpp:774-894 | For every season and every input the point returned, nudges included, is next to the nearest point of the season's lattice: their squared distance is at most 1e-5 of the squared distance from the input to the center. |
| Finish.ProjectionIsNearest | src/value_engine.cpp:774-894 | From every input within 19 of the center in each coordinate it is at most 1e-12 of that. |
| Finish.NeverFallsBack | src/value_engine.cpp:849-892 | For every season and input the nudges end inside the lattice: the fallback to the center is never needed. |
| Stall.FarInputIsMissed | src/value_engine.cpp:779-839 | The bound of 1e-12 does not hold of every input: with integrity and deception at 110 in spring, two thousand sweeps still leave the projection farther from the nearest point than that. |
| Landing.ProjectionStopsAt | src/value_engine.cpp:784-892 | Exactly where a projection stops: after the first sweep whose largest correction is below 1e-12, or after 2000; then at the first point inside that at most 200 nudging passes lead to, or at the center when there is none. |
| Apart.SweepsAreApart | src/value_engine.cpp:786-839 | Sweeping the 42 facets does to each principle pair what sweeping its own six facets does: the seven pairs do not touch one another. |
| Landing.EarlyExitIsNearStart | src/value_engine.cpp:831-839 | When the loop stops early the iterate is within (facet count) times 1e-12 of the input in each coordinate. |
| Polytope.EthicalPolytope.constructor | src/value_engine.cpp:555-567 | A new lattice has the season's bounds, their midpoint as center and the 42 facets. |
| Polytope.EthicalPolytope.BuildLattice | src/value_engine.cpp:593-641 | The facet list is rebuilt: upper and lower bound of every dimension, then lead and sum of every pair. |
| Polytope.EthicalPolytope.AddFacet | src/value_engine.cpp:547-553 | A facet is appended and the others are kept. |
| Polytope.EthicalPolytope.Contains | src/value_engine.cpp:643-697 | A point is accepted exactly when it satisfies every facet, and the records returned are the reports of the violated ones. |
| Violations.ReportedIff | src/value_engine.cpp:655-694 | A facet is reported exactly when it is violated, each once and in the lattice's order. |
| Violations.BoundReport | src/value_engine.cpp:672-680 | A violated bound is reported with its dimension, side and excess; the bound given is the bound for a maximum and its negative for a minimum, so the right one exactly when the minimum is zero. |
| Violations.CouplingReport | src/value_engine.cpp:681-691 | A violated principle pair is reported without a dimension and with half of what the lead lacks or the sum is over. |
| Polytope.EthicalPolytope.LatticeMargins | src/value_engine.cpp:716-733 | The margins are those of the critical facets, in order. |
| Polytope.EthicalPolytope.AlignmentScore | src/value_engine.cpp:735-772 | The loops compute the score whose shape is proved below. |
| Polytope.EthicalPolytope.Project | src/value_engine.cpp:774-894 | The in-place loops, the exact check, the nudges and the fallback compute the projection, which lies inside whenever the center does. |
| Polytope.FacetStep | src/value_engine.cpp:792-838 | One facet step on the arrays is the step the projection lemmas speak of, in the active and in the inactive case. |
| Polytope.SweepLoop | src/value_engine.cpp:786-839 | The sweeps with their early exit do what repeated steps do. |
| Polytope.EthicalPolytope.VerifyAndNudge | src/value_engine.cpp:849-892 | The exact check with its nudges and the fallback ends in the landing the Landing lemmas speak of. |
| Lattice.InsideIff | src/value_engine.cpp:593-641 | A point satisfies the 42 facets exactly when it keeps all seasonal bounds and every pair keeps its lead and its sum. |
| Walls.InsideInNumbers | src/value_engine.cpp:50-94 | The four lattices in numbers: minima, maxima, leads and sums of the seven pairs. |
| Lattice.CenterIsDeep | src/value_engine.cpp:52-94 | In every season the center keeps at least 0.08 of room from every facet. |
| Lattice.SeasonsNest | src/value_engine.cpp:1654-1660 | Every point of a season's lattice is in the next season's. |
| Lattice.WiderContains | src/value_engine.cpp:139-163 | Wider bounds give a larger lattice. |
| Alignment.ScoreRange | src/value_engine.cpp:735-772 | The score lies in [0, 1], is 0 outside P and is 1 at a center that keeps clear of the walls. |
| Alignment.ScoreSign | src/value_engine.cpp:735-772 | A point scores above 0 exactly when it is in P and clear of every wall, and 1 exactly when it is at least as clear as the center. |
| Alignment.MarginsAreExcesses | src/value_engine.cpp:716-733 | All margins are at least m exactly when every wall leaves room m. |
| Walls.MarginIff | src/value_engine.cpp:716-733 | The least margin is at least m exactly when every virtue is m above its minimum, every shadow m below its maximum, and every pair keeps its lead and its sum with m to spare. |
| Walls.ScoreInNumbers | src/value_engine.cpp:735-772 | For every season, point and level t the score is at least t exactly when the point is inside and has t times 0.1 (spring, summer), 0.12 (fall) or 0.08 (winter) of room at every one of those walls. |
| Alignment.LeastMarginConcave | src/value_engine.cpp:752-762 | The least margin is a concave function of the point. |
| Alignment.ScoreConcave | src/value_engine.cpp:735-772 | The score is concave on P. |
| Alignment.LevelSetsConvex | src/value_engine.cpp:735-772 | For every level above zero, the points scoring at least the level form a convex set. |
| Alignment.InsideIsConvex | src/value_engine.cpp:643-697 | P is convex. |
| Clusters.GrowSpreads | src/value_engine.cpp:1008-1023 | Seeding ends with all seeds asked for or with every memory within 1e-12 of a seed, and each seed added is at least the final covering radius from all earlier ones. |
| Clusters.SpreadNeedsCenters | src/value_engine.cpp:1008-1023 | Points pairwise r apart (squared) cannot be covered within a quarter of r by fewer centers than points. |
| Clusters.SeedingIsNearOptimal | src/value_engine.cpp:994-1023 | Farthest-first seeding is within a factor four in squared distance of the best cover by k - 1 centers, whatever the first seed. |
| Poles.FirstSeedIsBest | src/value_engine.cpp:994-1007 | The first seed is the one point with the least sum of squared distances to all memories. |
| Poles.SeedsAreFew | src/value_engine.cpp:977-1023 | There are at least one and at most k, eight and the number of memories many seeds, and fewer only when every memory is within 1e-12 of a seed. |
| Poles.SeedsAreNearOptimal | src/value_engine.cpp:977-1023 | The same for the seeds of discover, for any number k of regions asked for: no fewer centers than k, than eight and than there are memories cover the memories within a quarter of the seeds' squared radius, unless that is below 1e-12. |
| Lloyd.CentroidIsBest | src/value_engine.cpp:1058-1062 | No point costs a cluster less than the mean of its members. |
| Lloyd.PassAssigns | src/value_engine.cpp:1029-1045 | In a pass every memory goes to its nearest center, the first of several. |
| Lloyd.ReseededIsFarthest | src/value_engine.cpp:1063-1078 | A center without members is moved to a memory, and no memory is farther from its nearest other center, as the centers stand then. |
| Lloyd.MovedOnce | src/value_engine.cpp:1057-1078 | Each center is moved once in a pass, and stays there. |
| Lloyd.PassLowersCost | src/value_engine.cpp:1029-1081 | A pass never raises the sum of squared distances, even when it re-seeds an empty cluster. |
| Lloyd.PassesLowerCost | src/value_engine.cpp:1028-1081 | Nor do any number of passes. |
| Lloyd.QuietIsStable | src/value_engine.cpp:1080 | A pass that changes and re-seeds nothing leaves every point with a nearest center and every center the mean of its members. |
| Lloyd.EarlyExitIsStable | src/value_engine.cpp:1028-1081 | So does any run of passes that stops before its limit. |
| Lloyd.CountsPartition | src/value_engine.cpp:1084-1093 | Every memory is counted in exactly one cluster. |
| Poles.SettledQuality | src/value_engine.cpp:1023-1081 | The final clustering costs no more than the one the passes start from, in which every memory belongs to the mean, and an early exit is stable. |
| Poles.SettledBeatsSeeds | src/value_engine.cpp:1008-1081 | The final clustering costs no more than the seeds do when every memory goes to its nearest seed. |
| Poles.DiscoverySettles | src/value_engine.cpp:1028-1081 | Discovery ends in a stable clustering, or in what exactly forty passes make of the seeds, none of them quiet. |
| Poles.SettledIsNearOptimal | src/value_engine.cpp:977-1081 | If fewer centers than k, than eight and than there are memories cover the memories within a squared radius, the final clustering costs at most four times that radius a memory, or at most 1e-12 a memory. |
| Poles.HomesAreCenters | src/value_engine.cpp:1084-1112 | There is one home for every cluster with members, in their order: the cluster's center, projected, with the number of its members. |
| Poles.DiscoveredHomes | src/value_engine.cpp:1084-1112 | Every discovered home lies in the lattice it was projected onto, and the member counts add up to the number of memories. |
| Poles.SeedLoop | src/value_engine.cpp:1008-1023 | The seeding loops choose the seeds of the specification. |
| Poles.PassOnce | src/value_engine.cpp:1029-1081 | One pass of the assignment and update loops is one pass of the specification. |
| Poles.RegionPoleEngine.Discover | src/value_engine.cpp:971-1113 | Discovery replaces the poles by the projected, counted ones of the specification. |
| Growth.HomesStayInside | src/lina_core.cpp:1329-1342 | Over every run of boot, discoveries and season crossings, every home lies in the current season's lattice although it is projected onto the boot season's, and the counts add up. |
| Growth.HomesSurviveCrossing | src/value_engine.cpp:1318-1326 | Between a crossing and the re-discovery the old homes already lie in the new lattice. |
| Growth.ValueEngine.SetMemoryPoles | src/value_engine.cpp:1311-1316 | Discovery changes the homes and nothing else. |
| Growth.ValueEngine.AdvanceSeason | src/value_engine.cpp:1318-1326 | The lattice is replaced and the pole engine keeps its own. |
| Growth.LandmarksTellTheWay | src/lina_core.cpp:1329-1354 | Over every run the remembered crossings lead from the boot season to the current one season by season, as many as it is later, so never more than three. |
| Growth.CrossingInNumbers | src/lina_core.cpp:1329-1342 | A crossing leads from spring to summer, fall and winter, and discovers three homes anew, with forty passes at most, in the boot season's lattice; in winter nothing happens. |
| Growth.SeasonKeeper.ApplySeasonAdvance | src/lina_core.cpp:1329-1354 | Identity and lattice move to the next season together, the homes are discovered anew and the must-keep identity memory of the crossing is stored: one step of the run, or nothing in the last season. |
| Growth.SeasonKeeper.DiscoverHomeRegions | src/lina_core.cpp:1215-1228 | Discovering the homes is one step of the run. |
| Frames.LittleEndianRoundTrip | include/dragon_ring.h:79-86 | The four-byte length prefix reads back as the length. |
| Frames.Layout | include/dragon_ring.h:111-130 | A frame is its whole length in four bytes, least significant first, its kind and its payload. |
| Frames.FrameAt | include/dragon_ring.h:111-130 | In the bytes of all frames, frame k stands at its offset. |
| RingProtocol.ProducerKeeps | include/dragon_ring.h:111-135 | Every byte-level producer step keeps the invariant. |
| RingProtocol.ConsumerKeeps | include/dragon_ring.h:139-167 | Every byte-level consumer step keeps it. |
| RingProtocol.RunKeepsInvariant | include/dragon_ring.h:111-167 | So does every interleaving of both. |
| RingProtocol.PopsArePrefixOfPushes | include/dragon_ring.h:111-167 | Under every interleaving the pops so far report the first frames pushed, in order and byte for byte whenever the caller's buffer has room, and the two defensive exits are never taken. |
| RingProtocol.UnreadBytesAreKept | include/dragon_ring.h:121-133 | No producer step changes the place of a committed byte that is not yet released. |
| RingProtocol.PushCompletes | include/dragon_ring.h:111-131 | An undisturbed push ends after its frame's length plus three steps, and commits the frame exactly when it is small enough and fits. |
| RingProtocol.PopCompletes | include/dragon_ring.h:139-167 | After any run an undisturbed pop ends, having popped one more frame exactly when there was one. |
| RingProgress.PushIsOver | include/dragon_ring.h:111-131 | Under every interleaving a push ends within its frame's bytes and three more producer steps, and commits exactly when the payload is within the limit and the frame fits when the tail is loaded; always, if it fitted when called. |
| RingProgress.PopIsOver | include/dragon_ring.h:139-167 | Under every interleaving a pop ends within a bounded number of consumer steps, and comes back empty exactly when the ring was empty when the head was loaded. |
| Ring.LayKeeps | include/dragon_ring.h:89-95 | Writing across the wrap leaves bytes behind the tail alone as long as the end is within a lap of it. |
| Ring.RingBuffer.WriteBytes | include/dragon_ring.h:89-95 | The bytes are laid down from the position on, wrapping, and nothing else changes. |
| Ring.RingBuffer.ReadBytes | include/dragon_ring.h:98-104 | The bytes at the position come back, across the wrap. |
| Ring.RingBuffer.ReadU32 | include/dragon_ring.h:79-86 | A length standing in the ring is read back. |
| Ring.RingBuffer.Push | include/dragon_ring.h:111-135 | A push succeeds exactly when the payload is within the limit and the frame fits beside the unread bytes; then it is the newest frame, and otherwise nothing changes. |
| Ring.RingBuffer.Pop | include/dragon_ring.h:139-167 | A pop reports the oldest frame and removes it, or reports 0 exactly on an empty ring. |
| EditDistance.SomeScript | src/lina_core.cpp:143-157 | There is a script of insertions, deletions and substitutions that costs exactly the computed distance. |
| EditDistance.NoCheaperScript | src/lina_core.cpp:143-157 | No script costs less. |
| EditDistance.Symmetric | src/lina_core.cpp:132-161 | The distance is symmetric. |
| EditDistance.ZeroIffEqual | src/lina_core.cpp:132-161 | It is zero exactly on equal texts. |
| EditDistance.Triangle | src/lina_core.cpp:132-161 | It satisfies the triangle inequality. |
| EditDistance.Bounds | src/lina_core.cpp:132-161 | It is at most the longer length and at least the difference of the lengths. |
| EditDistance.SimilarityMeaning | src/lina_core.cpp:132-161 | The similarity lies in [0, 1], is 1 exactly on equal texts, is symmetric, and exceeds 0.9 exactly when fewer than one character in ten has to be edited. |
| EditDistance.NextRow | src/lina_core.cpp:146-156 | One column of the table follows from the row before. |
| EditDistance.StringSimilarity | src/lina_core.cpp:132-161 | The two rows, swapped after each column, compute the similarity. |
| Classifier.FoundBlockIsEarliest | src/stream_parser.cpp:35-40 | The block found starts with the first opening marker and ends with the first closing one behind it, and one is found whenever there is one. |
| Classifier.SweepInTwo | src/stream_parser.cpp:34-45 | Sweeping a part early and the remainder with the rest later ends as sweeping all at once. |
| Classifier.SweepLeavesNoBlock | src/stream_parser.cpp:34-45 | After a sweep no complete block is left. |
| Classifier.SweepInOrder | src/stream_parser.cpp:34-45 | A sweep takes out the first block and goes on with what stands before and behind it, in that order; a text without a complete block is left as it is. |
| Classifier.SweepTwice | src/stream_parser.cpp:34-45 | Sweeping again changes nothing. |
| Classifier.SweepKeepsCharacters | src/stream_parser.cpp:34-45 | The text left, the blocks taken and their markers are together exactly the characters of the text. |
| Classifier.ChunkingDoesNotMatter | src/stream_parser.cpp:28-55 | However the text is cut and whenever thoughts are collected, buffer and thoughts are those of one sweep over the whole text. |
| Classifier.SameTextSameResult | src/stream_parser.cpp:28-87 | Two ways of feeding one text are classified alike. |
| Classifier.ResponseHoldsNoThought | src/stream_parser.cpp:72-87 | The response holds no complete thought block. |
| Classifier.ClassifiedInOrder | src/stream_parser.cpp:57-87 | The first tool call is taken out, and what stands before and behind it, in that order, is swept of thoughts. |
| Classifier.TurnKeepsCharacters | src/stream_parser.cpp:28-87 | Response, thoughts, tool call and markers are together exactly the characters fed. |
| Classifier.LengthsAddUp | src/stream_parser.cpp:11-14 | The lengths add up, with 19 for each thought and 23 for a tool call. |
| StreamParsing.StreamParser.Feed | src/stream_parser.cpp:28-45 | Feeding sweeps the buffer, queues the thoughts in order, and sets the tool-call flag exactly when a complete call stood in the unswept buffer. |
| StreamParsing.StreamParser.TakeCompletedThoughts | src/stream_parser.cpp:51-55 | The queue is handed over and emptied. |
| StreamParsing.StreamParser.Result | src/stream_parser.cpp:57-87 | The final loop computes the classification of the buffer without changing it. |
| StreamParsing.StreamParser.Reset | src/stream_parser.cpp:89-93 | Everything is emptied. |
| Reflection.IsFlagged | src/lina_core.cpp:165-187 | The loop answers exactly whether an attempt is too close to an earlier one or too far from the anchor. |
| Reflection.Reflect | src/lina_core.cpp:972-1040 | The reflection loop ends in the first acceptable of at most three passes, or in the refusal. |
| Reflection.GateIsDetermined | src/lina_core.cpp:972-1045 | For given answers of driver and engine the gate has one outcome. |
| Reflection.PassedTextWasJudged | src/lina_core.cpp:1007-1025 | A text that leaves the gate outside Violation was evaluated, and that evaluation put it there. |
| Reflection.ReflectionIsNew | src/lina_core.cpp:1010-1025 | A delivered reflection is unflagged against every earlier attempt: texts at most 0.9 alike, coordinates at least 0.1 apart, at most 0.5 from the anchor. |
| Reflection.ReflectionIsNoRepeat | src/lina_core.cpp:174-176 | It repeats no earlier attempt word for word. |
| Reflection.WithheldIff | src/lina_core.cpp:1029-1035 | The outcome is in Violation exactly when the draft was and no pass was acceptable, an absent driver counting as no pass. |
| Reflection.NewPassIsDelivered | src/lina_core.cpp:982-1025 | With a driver, when one of the first three passes is outside Violation, at most 0.9 like every earlier text, at least 0.1 from every earlier coordinate and at most 0.5 from the anchor, the outcome is the first such pass. |
| Reflection.RefusedIff | src/lina_core.cpp:1029-1045 | With a driver, a violating draft is refused after three passes exactly when none of the three is like that. |
| Reflection.FitDraftStands | src/lina_core.cpp:972-981 | A draft outside Violation is handed on as it is, without any reflection. |
| Reflection.ViolatingDraftLeaks | src/lina_core.cpp:979-981 | A violating draft is handed on word for word exactly when the driver is not connected; with a driver it is replaced or refused. |
| Reflection.LeakExample | src/lina_core.cpp:979-981 | An input for which a violating draft is handed on. |
| Conversation.TurnIsBounded | src/lina_core.cpp:518-608 | A turn ends after at most nine streams and eight tool runs, runs only named tools, and hands on the classified response of its last stream. |
| Conversation.TurnEndsAt | src/lina_core.cpp:518-608 | Exactly how a turn goes: it ends at the first stream that is stopped or brings no tool call, and at the ninth in any case; every stream before has brought a call, and the response is that of the last stream, unless the turn was stopped before it. |
| Conversation.UnreflectedTurnHoldsNoThought | src/lina_core.cpp:684-697 | What a turn hands on unreflected holds no complete thought. |
| Conversation.TurnSendsNoThoughtBack | src/lina_core.cpp:575-608 | Within a turn the driver is given the history and then every call and its answer; no call sent back holds a complete thought. |
| Conversation.AnswersRead | src/lina_core.cpp:577-608 | What the window and the driver are told of a tool's answer, word for word. |
| Conversation.SessionIsSafe | src/lina_core.cpp:684-727 | Over every session, memory is exactly the ledger's entries outside Violation, in order; each was put there by an evaluation of that very text; and the assistant's lines in the history are the last of them. |
| Conversation.EverythingEmittedIsFit | src/lina_core.cpp:966-1060 | Over every session in which the driver is always connected, everything that reaches the listener is the refusal or was put outside Violation by an evaluation of that very text. |
| Conversation.HeardThoughts | src/lina_core.cpp:536-553 | However a stream is cut into pieces, the thoughts the window is told of it are those of its whole text, in order. |
| Conversation.HeardScores | src/lina_core.cpp:536-553 | The scores it is told are those of the text after every eighth piece. |
| Conversation.EighthAt | src/lina_core.cpp:544-553 | There is one score for every eight pieces, and score k is that of the text up to piece 8 k + 8. |
| Conversation.HistoryIsRecent | src/lina_core.cpp:890-964 | While every chat of a session is answered outside Violation, the history is the last twenty lines of all that was said in it. |
| Conversation.EveryDraftIsAnswered | src/lina_core.cpp:684-727 | Over every session each draft is answered once and in order: the ledger has what the gate made of each, and the listener is told exactly those texts. |
| Conversation.SessionsAreNumbered | src/lina_core.cpp:1114-1134 | Sessions are numbered from one in the order in which they begin. |
| Conversation.GateKeepsSafe | src/lina_core.cpp:694-724 | Gating one draft and keeping what passes keeps a session safe. |
| Orchestrator.LinaCore.ApplyGate | src/lina_core.cpp:972-1045 | The gate returns the outcome and adds one ledger entry. |
| Orchestrator.LinaCore.FinalizeTurn | src/lina_core.cpp:684-727 | Blank responses end silently; others are gated, emitted, and kept exactly when they are not in Violation. |
| Orchestrator.LinaCore.Chat | src/lina_core.cpp:890-964 | A chat gates the raw reply; its effect on history, memory and ledger is that of the session step. |
| Orchestrator.LinaCore.BeginSession | src/lina_core.cpp:1114-1140 | A new session is entered under the next number and empties the history; memory and ledger stay. |
| Orchestrator.LinaCore.RunTurn | src/lina_core.cpp:509-615 | The turn loop ends as the turn specification says, with every stop, tool call and missing name; it tells the window every thought, score, call and answer in order and gives the driver the working history. |
| Orchestrator.LinaCore.RunVoluntaryTurn | src/lina_core.cpp:449-507 | A voluntary utterance is dropped when blank or a mere greeting and finalized otherwise. |
| Orchestrator.Listen | src/lina_core.cpp:536-554 | Feeding a stream piece by piece collects the thoughts of one sweep over the whole stream; the window is told of each as it completes, and of a score every eight pieces. |
| Sweeping.ProcessIsSweep | src/memory_module.cpp:516-598 | In whatever order the snapshot lists them, every item ends where its own old place sends it. |
| Sweeping.SweepKeepsDisjoint | src/memory_module.cpp:504-601 | A sweep leaves no item in two places. |
| Sweeping.NothingElseVanishes | src/memory_module.cpp:563-598 | An item that vanishes was purged from fallout below its failed gate and out of its 48 hours, or the store refused to make it permanent. |
| Sweeping.OneWayIn | src/memory_module.cpp:519-588 | Each tier has one way in: a cleared gate from the tier below, fallout for the first tier, a failed gate for fallout; text and score come along unchanged. |
| Sweeping.SweepInNumbers | src/memory_module.cpp:519-598 | Exactly where a sweep takes an item, by gates 3.0, 3.5 and 5.0 and by 48 hours of grace. |
| Sweeping.EveryEntryCounts | src/memory_module.cpp:504-601 | Every item of the snapshot is counted once or is still in grace. |
| Sweeping.CountsMeaning | src/memory_module.cpp:540-595 | Each count is the number of items with its verdict; the purged count includes items that became permanent but could not be logged. |
| Sweeping.CountsInNumbers | src/memory_module.cpp:540-595 | Each of the six counts is the number of entries that belong under it, each promotion under its own tier. |
| Sweeping.SnapshotSize | src/memory_module.cpp:510-515 | The snapshot has as many entries as the three tiers and fallout have items. |
| MemoryKeeping.MemoryModule.ScanTier | src/memory_module.cpp:510-515 | A scan lists a tier's items once each, in no particular order. |
| MemoryKeeping.MemoryModule.SweepItem | src/memory_module.cpp:524-570 | One tier item is promoted, made permanent, orphaned or dropped into fallout, and counted. |
| MemoryKeeping.MemoryModule.SweepFallen | src/memory_module.cpp:574-598 | One fallen item waits, goes back or is purged, and is counted. |
| MemoryKeeping.MemoryModule.RunSweep | src/memory_module.cpp:504-601 | The sweep moves every item by its old place alone, and counts plus items in grace add up to the snapshot. |
| Consolidation.NeverInTwoPlaces | src/memory_module.cpp:504-601 | Over every run no item is in two places. |
| Consolidation.FormedStands | src/memory_module.cpp:111-133 | A newly formed item stands in long-term memory from 5.0 on and in the first tier below, and nowhere else. |
| Consolidation.FellInRun | src/memory_module.cpp:563-570 | Whatever is in fallout has the stamps of a sweep of the run, before which it stood in a tier below that tier's gate, and has been in fallout ever since. |
| Consolidation.RemovedOnlyByPurge | src/memory_module.cpp:519-598 | Over every run an item is removed only by a sweep: by a purge at least 48 hours after the sweep that dropped it and still below the gate it failed then, or by a refused promotion. |
| Consolidation.OneTierPerSweep | src/memory_module.cpp:519-560 | An item climbs at most one tier a sweep, however it is rescored. |
| Consolidation.PermanenceTakesThreeSweeps | src/memory_module.cpp:519-560 | An item formed below 5.0 is not in long-term memory before its third sweep. |
| Consolidation.ClimbIsEarned | src/memory_module.cpp:519-560 | Between T1 and long-term memory lie three sweeps, in order, that met the item in T1 at 3.0 or more, in T2 at 3.5 or more and in T3 at 5.0 or more. |
| Consolidation.PermanenceIsEarned | src/memory_module.cpp:519-560 | So it is for every item formed below 5.0 that is in long-term memory. |
| Consolidation.RepurposedIff | src/memory_module.cpp:574-592 | A fallen item returns to the first tier exactly when its 48 hours are over and its score has been raised to the gate it failed. |
| Consolidation.OnlyRescoringRescues | src/memory_module.cpp:111-133 | In a run that rescores nothing no sweep ever returns an item from fallout or makes one permanent. |
| Maintenance.SlopeIsMonotone | src/memory_module.cpp:248-273 | A later pass leaves less, and what is gone stays gone. |
| Maintenance.SlopeOutcome | src/memory_module.cpp:248-273 | In any run, a row that a pass finds on the slope, subconscious already or falling in that very pass, stays exactly when the latest of its readable stamps is less than 730 days old and at least 0.5 is left of its score times the decay factor; and then it keeps exactly that, lifted to its floor. |
| Maintenance.HalfIsLost | src/memory_module.cpp:248-273 | Without a floor it keeps at most half its score once the decay factor is at most one half. |
| Maintenance.TimelessRowStays | src/memory_module.cpp:248-263 | A subconscious row without a readable stamp is left as it is. |
| Maintenance.ActiveOutcome | src/memory_module.cpp:212-246 | An active row that a pass leaves at 4.0 or more stays active, or becomes legacy from 9.5 on, at exactly its score and what it earned, lifted to its floor. |
| Maintenance.DialedExists | src/memory_module.cpp:178-243 | Every row comes out at such a score, so the outcomes below 4.0, from 4.0 and from 9.5 on cover all rows. |
| Maintenance.ReviewOutcome | src/memory_module.cpp:275-306 | A reviewed legacy row stays when it is protected or comes out at 8.0 or more and otherwise starts on the slope; floor and must-keep count for the protected alone. |
| Maintenance.EarnedIff | src/memory_module.cpp:178-210 | What a row earns, by references, by its last reference and by its age. |
| Maintenance.MustKeepFallsIff | src/memory_module.cpp:212-246 | A must-keep row that is active at 4.0 or more, or legacy, stays such a row exactly in the runs without a review that finds it legacy, unprotected and below 8.0; otherwise it ends subconscious or gone. |
| Maintenance.LosingMustKeep | src/memory_module.cpp:248-306 | It is lost only by such a review and a later pass that finds it subconscious and two years idle or with less than 0.5 left. |
| Maintenance.MustKeepIsForgotten | src/memory_module.cpp:248-306 | A run of one review and one pass that loses a must-keep legacy row. |
| Maintenance.LostInRun | src/memory_module.cpp:604-650 | A row a run loses is deleted by one of its maintenance passes, which finds it on the slope. |
| Maintenance.ActiveScoresAfterPass | src/memory_module.cpp:225-243 | After any run that ends in a maintenance pass active scores lie in [4.0, 9.5). |
| Maintenance.UnreferredNeverGains | src/memory_module.cpp:178-306 | Over every run in which the clock does not run back, a row nobody refers to never rises above its score and floor. |
| Maintenance.GainIsBounded | src/memory_module.cpp:178-306 | However often it is referred to, a row gains at most 2.5 a pass. |
| Maintenance.FewChanges | src/memory_module.cpp:604-681 | Every status change descends from active over legacy and subconscious to gone, so a row's status changes at most three times in any run. |
| Maintenance.ProtectedLegacyStays | src/memory_module.cpp:288-294 | A protected legacy row stays one in every run. |
| Maintenance.LongTermMemory.MonthlyPass | src/memory_module.cpp:613-631 | Every active row is re-evaluated in place; the counts are the numbers of rows and of status changes. |
| Maintenance.LongTermMemory.SlopePass | src/memory_module.cpp:634-647 | Every subconscious row is decayed or deleted; the counts add up. |
| Maintenance.LongTermMemory.RunMaintenance | src/memory_module.cpp:604-650 | The pass is the monthly half followed by the slope, which also takes rows that have only just fallen; no row is lost but the forgotten ones. |
| Maintenance.LongTermMemory.RunLegacyReview | src/memory_module.cpp:652-681 | Every legacy row is reviewed in place. |
| Base64.AlphabetIsExact | src/browser_driver.cpp:51-77 | Letters and values are inverse to each other, and padding and line breaks have no value. |
| Base64.ShiftIn | src/browser_driver.cpp:88-92 | What the 32-bit accumulator shows depends only on the bits still to be written, so its overflow never matters. |
| Base64.RoundTrip | src/browser_driver.cpp:54-95 | Decoding an encoding gives the bytes back. |
| Base64.RoundTripThroughNoise | src/browser_driver.cpp:79-95 | So does decoding any text with the same letters, with line breaks, padding or other characters put in or left out anywhere. |
| Base64.DecodeSkips | src/browser_driver.cpp:83-86 | The decoder ignores everything that is not a letter. |
| Base64.EncodedLength | src/browser_driver.cpp:54-68 | There are four characters for every three bytes or part of three. |
| Base64.StandardVector | src/browser_driver.cpp:54-68 | The bytes of "foo" encode to "Zm9v", as in section 10 of RFC 4648. |
| Base64.PaddedVectors | src/browser_driver.cpp:54-68 | So do those of "f" and "fo", with their padding. |
| Base64.AlphabetInNumbers | src/browser_driver.cpp:51-52 | The alphabet by character code. |
| Base64.EncodeBytes | src/browser_driver.cpp:54-68 | The encoder's loop computes the encoding. |
| Base64.DecodeText | src/browser_driver.cpp:79-95 | The decoder's loop computes the decoding. |
| Sha1.PaddedFillsBlocks | src/browser_driver.cpp:166-177 | The padded message is the shortest one with its 0x80 and eight length bytes that fills whole blocks. |
| Sha1.PaddingIsInjective | src/browser_driver.cpp:166-177 | Messages whose bit lengths fit the length field are told apart by their paddings. |
| Sha1.AbsorbBlock | src/browser_driver.cpp:112-152 | Absorbing one more block applies the block function once. |
| Sha1.Tabulate | src/browser_driver.cpp:113-122 | The word table is the message schedule. |
| Sha1.RunRounds | src/browser_driver.cpp:123-146 | The loop over the five variables computes the rounds. |
| Sha1.Hasher.ProcessBlock | src/browser_driver.cpp:112-152 | Processing a full block absorbs it. |
| Sha1.Hasher.Update | src/browser_driver.cpp:154-164 | Taking in data appends it to what was seen, for any amount and any fill of the block. |
| Sha1.Hasher.Finish | src/browser_driver.cpp:166-186 | The padding loop terminates, and the result is the state after absorbing the padded message. |
| Sha1.HashPieces | src/browser_driver.cpp:154-186 | For any split of the data into updates the digest is that of the whole message. |
| Sha1.HashMessage | src/browser_driver.cpp:105-186 | SHA-1 of a message in any pieces: 80 rounds over the message padded as in section 4 of RFC 3174. |
| Sha1Vector.DigestOfAbc | src/browser_driver.cpp:105-186 | The digest of "abc" is the one of section 7.3 of RFC 3174, byte by byte. |
| WebSocket.XorIsBitwise | src/browser_driver.cpp:334-336 | Masking is exclusive or, bit by bit. |
| WebSocket.MaskedTwice | src/browser_driver.cpp:334-336 | Masking twice with one key changes nothing. |
| WebSocket.FrameRoundTrip | src/browser_driver.cpp:352-384 | Every frame is read back as it was, for every mask and in each length form that can hold its length. |
| WebSocket.TextRoundTrip | src/browser_driver.cpp:311-338 | What send_text builds is read back as the text, for every mask key and length. |
| WebSocket.HelloFrame | src/browser_driver.cpp:311-338 | The masked frame of "Hello" is the one of section 5.7 of RFC 6455, byte by byte. |
| WebSocket.TextFrameStart | src/browser_driver.cpp:311-332 | How a text frame starts, for every length form. |
| WebSocket.PongRoundTripIff | src/browser_driver.cpp:425-436 | A pong reads back as the ping's payload exactly when that is shorter than 65536 bytes; what is read of it is never masked, whatever its length. |
| WebSocket.Reassembly | src/browser_driver.cpp:341-401 | Any fragmentation with pings and pongs in between is put together again, and the pings noted are those sent. |
| WebSocket.FragmentationDoesNotMatter | src/browser_driver.cpp:388-399 | Two fragmentations of one payload are received alike. |
| WebSocket.CloseEnds | src/browser_driver.cpp:388-391 | A close frame ends the message: what was gathered is kept, and the input is left right behind it. |
| WebSocket.InputEnds | src/browser_driver.cpp:352-384 | When the input ends within a frame nothing of it is left and the message stays incomplete. |
| WebSocket.MiniWebSocket.SendText | src/browser_driver.cpp:311-338 | On an open connection the socket is given the text's frame in the shortest length form, and the text is sent exactly when it takes all of it; on a closed one nothing is. |
| WebSocket.MiniWebSocket.RecvFrame | src/browser_driver.cpp:352-384 | Reading exactly so many bytes at a time reads one frame, or fails when the input ends. |
| WebSocket.MiniWebSocket.ReceiveMessage | src/browser_driver.cpp:341-408 | The receiving loop delivers the message, answers its pings in order, leaves the input right behind what it read and closes the connection on a close frame; a closed one is left alone. |

## Left out

- Floating-point rounding, the finiteness check inside the projection loop and the `DBL_MAX` start values of
  minimum searches; the center's room of 0.08 is far above any rounding.
- Polytope.EthicalPolytope.Contains: a record names its facet by its place in the lattice, not by a text.
- Poles.RegionPoleEngine.Discover: the compactness of a pole, a mean of square roots that nothing else in
  the discovery depends on, is not modelled.
- The distance to the boundary, the list of near walls and the zone classification, which need square roots
  or only compare two numbers; the gate takes zones as given.
- Text encoding, the wisdom filter, prompts and the sense lexicon: data.
- Reflection.ReflectionIsNew: distances are compared squared, which is the same for the constants involved.
- Conversation.UnreflectedTurnHoldsNoThought: says nothing about reflected texts and direct chats, which the
  source does not parse.
- Who may start a turn (the check and the later store of the active flag are not one step), the window
  thread's timing, telemetry, and the action log.
- Orchestrator.LinaCore.RunTurn: the pieces a stream brings are arbitrary, not a function of the working
  history the driver is given.
- Orchestrator.LinaCore.BeginSession: the session's identifier and creation time, which come from the clock.
- Growth.SeasonKeeper.ApplySeasonAdvance: the score of the landmark memory, and whether a crossing is earned,
  which the caller decides.
- StreamParsing.StreamParser.Feed: the tool-call flag depends on how the text is cut, so only its exact
  setting is stated, per call.
- The database behind the memory store, which does not keep the fallout fields, and failures of the store
  other than in making an item permanent.
- Sweeping: what a promotion log contains, and the routing fields (`kind`, `status`) an item carries along.
- Formation scores, recall and its ranking, and `ingest_trigger`.
- A closed form for decay over several passes; each single pass of a run is stated exactly.
- Opening sockets, the HTTP upgrade and its accept key, time-outs, and the browser commands.
- A bound on the conversation history: withheld turns append without trimming.
- Qt windows, model processes, file and terminal tools, the carve tool.
