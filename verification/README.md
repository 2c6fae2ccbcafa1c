# AtlasOS memory engine: a verified model

AtlasOS keeps an agent's memories twice, as rows in PostgreSQL and as points in a Qdrant
index, and lets background workers and API requests change both. This project models the
services that do so, and the bounded protocols around them, and proves what they keep over
whole runs. `dafny verify dfyconfig.toml` checks everything.

The model follows the code's own form. `MemoryModel.Stores` holds the committed rows, the
open session and the index; each service method works on it step by step and is proved equal
to a function from state to state; the theorems are about those functions, one event at a
time and then over every sequence of events. External calls can fail, before or after taking
effect (`Call`), and every event carries the faults it meets.

| files | what they hold |
|---|---|
| MemoryModel, VectorSearch, Contradiction, MemoryWrite, Retention, Compression, MemoryRead | the stores and the services on them |
| TextScoring, Decay, Rounding, Sorting, Strings, Regex, Wrappers | importance scoring, decay arithmetic, and the Python built-ins they use |
| Supersession, Engine, History | the state machine of all events; chains, conservation, what each policy leaves |
| StoreAgreement, ImportanceDrift | where rows and index can come apart, in their ids and in their importance, and that they agree otherwise |
| CompressionRestart, Persistence, Saturation | crash and restart; what lasts over runs: logs, deletions, full batches |
| KnowledgeGraph, TriplePatterns, GraphIngestion, Subgraph | the knowledge graph and how text becomes one |
| RateLimit, Tenants, WorkingMemory, Webhooks | the bounded protocols |

Conventions. Ids come from a counter: a new id is unused, and the larger of two was drawn
later. Importance is counted in thousandths, composite scores in ten-thousandths, and Python's
`round` is half-to-even on exact numbers. Memory timestamps are microseconds. Text is ASCII.
Where the database may return rows in any order, loops take them in any order; an ORDER BY
breaks ties by id. The similarity search returns any sequence of ids that pass its filters;
the inference service, the hash and the exponential are arbitrary functions (of the
exponential, only that it is increasing and in (0, 1] for non-positive arguments is used).

## Model

| member | source | states |
|---|---|---|
| `MemoryModel.Stores.Commit` | backend/app/core/dependencies.py:191-200 | the session's rows become the committed rows exactly when the commit takes effect, even when its reply is lost, and their foreign keys hold; otherwise the session falls back |
| `MemoryModel.Stores.UpsertPoint` | backend/app/repositories/vector.py:91-122 | a point is stored when the call lands, whether or not the caller hears of it |
| `VectorSearch.Search` | backend/app/repositories/vector.py:124-168 | at most `limit` ids, each once, every one a point of the tenant, user and (if given) type asked for |
| `VectorSearch.SearchKeepsMostSimilar` | backend/app/repositories/vector.py:124-168 | those ids are in order of similarity, and one that passes is left out only when `limit` more similar ones are there |
| `Contradiction.FirstClash` | backend/app/services/contradiction.py:85-117 | a clash is always a live fact of the tenant among the candidates |
| `Contradiction.FirstClashIsFirst` | backend/app/services/contradiction.py:85-117 | the check stops at the first live candidate the inference service does not clear, and is clear exactly when every live candidate is cleared |
| `Contradiction.ConflictIsNotMissed` | backend/app/services/contradiction.py:85-117 | a candidate of the tenant that nothing supersedes and that is found to conflict is never passed over |
| `Engine.ClashIsWithOwnFact` | backend/app/services/contradiction.py:63-90 | in every tidy state the fact clashed with is a live fact of the new one's own tenant and user |
| `MemoryWrite.FactsHeldAgainst` | backend/app/services/contradiction.py:63-70 | a new fact is held against the five most similar facts of its user |
| `Contradiction.ResolveContradiction` | backend/app/services/contradiction.py:119-180 | the step-by-step resolution sends the link and the log in that order and is refused with the first of them that is |
| `Contradiction.SentIfNameable` | backend/app/services/contradiction.py:135-180 | those statements go through, and then leave what the policy table prescribes, exactly when keys wait for the commit or the new fact's row is already there |
| `Contradiction.CheckForContradiction` | backend/app/services/contradiction.py:44-117 | the loop with early return finds that first clash and resolves it once; on any error, a refused key included, the session is untouched |
| `Contradiction.MarkSuperseded` | backend/app/repositories/memory.py:86-101 | one row gets its successor, all others stay; refused when the key may not be named yet |
| `History.PolicyDecides` | backend/app/services/contradiction.py:135-180 | whatever failed on the way, for each policy: which of the two facts is live after a committed conflicting write, one log with both texts, every other fact and log unchanged |
| `History.ClashCommitsIffDeferred` | backend/app/services/memory_write.py:162-195 | a write that meets a contradiction commits exactly when the keys are checked at commit and nothing else stands in its way; otherwise every row and log is as it was |
| `History.RowFirstIsNeverRefused` | backend/app/services/memory_write.py:162-195 | the order is what decides: with the row first, link and log would pass under either reading of the keys |
| `MemoryWrite.CheckedFactKeepsKeys` | backend/migrations/versions/001_initial_schema.py:492-497 | the keys checked at commit never refuse a write that got that far |
| `History.ImmediateKeysNeverSupersede` | backend/migrations/versions/001_initial_schema.py:559-570 | with those keys no run ever logs a contradiction or supersedes a fact |
| `History.ContradictionIsReached` | backend/app/services/memory_write.py:162-195 | three events from an empty store meet a contradiction: the second fact takes the first one's place under deferred keys, and changes no row under the migrated ones |
| `MemoryWrite.WriteEpisodic` | backend/app/services/memory_write.py:68-137 | dual write with compensation and commit, under any combination of faults; it succeeds exactly when no call and no constraint refuses, and then row and point are both there |
| `MemoryWrite.WriteSemantic` | backend/app/services/memory_write.py:139-216 | the same for facts, with the contradiction check first; exactly when it succeeds, and the flag returned says exactly whether a clash was found |
| `MemoryWrite.EpisodeIsStored` | backend/app/services/memory_write.py:68-137 | row and point of an episode, field by field, and exactly when each is there; nothing else changes |
| `MemoryWrite.FactIsStored` | backend/app/services/memory_write.py:139-216 | the same for a fact, of confidence 0.5 |
| `MemoryWrite.UncontestedFactAddsOneRow` | backend/app/services/memory_write.py:139-216 | a fact that meets no contradiction changes no other row and no log |
| `TextScoring.GreedyEnd` | backend/app/services/memory_write.py:234-235 | greedy matching with backtracking: a returned end is a match, and no end at all matches when none is returned |
| `TextScoring.MatchIsRun` | backend/app/services/memory_write.py:234-235 | a match of either bounded pattern is exactly a maximal word run of the right shape |
| `TextScoring.FindAllIsWordFilter` | backend/app/services/memory_write.py:234-235 | leftmost non-overlapping findall equals a filter over the words of the text |
| `TextScoring.KeywordSearchIsWordLookup` | backend/app/services/memory_write.py:230-230 | the case-insensitive bounded search succeeds exactly when the keyword is one of the words |
| `TextScoring.ImportanceCountsWords` | backend/app/services/memory_write.py:218-239 | the score depends only on length, keywords among the words, and capitalized or numeric words |
| `TextScoring.ImportanceFormula` | backend/app/services/memory_write.py:218-239 | 0.3, and 0.002 a character up to 0.2, 0.15 a keyword said up to 0.5, 0.05 a name or numeral up to 0.3, at most 1, to two places |
| `TextScoring.KeywordsAre` | backend/app/services/memory_write.py:226-230 | the fourteen keywords |
| `TextScoring.WordsStand` | backend/app/services/memory_write.py:225-235 | the words of a text are what stands in it as a whole between characters that are no letter, digit or underscore |
| `TextScoring.Importance` | backend/app/services/memory_write.py:218-239 | every score lies in [0.3, 1.0] and has two decimals |
| `TextScoring.JoiningNeverLowersImportance` | backend/app/services/memory_write.py:225-239 | importance(a + " " + b) is at least importance(a) and at least importance(b) |
| `Decay.DecayTracksCurve` | backend/app/worker/tasks/retention.py:94-122 | after any number of days the rounded score is within 0.01 of max(0.05, 0.95^n x) |
| `Decay.DecayedIsNearest` | backend/app/worker/tasks/retention.py:105-106 | one day leaves 95 percent to the nearest thousandth, and never less than 0.05 |
| `Decay.DecayKeepsOrder` | backend/app/worker/tasks/retention.py:105-106 | decay never reverses two memories |
| `Decay.DecayForDaysKeepsOrder` | backend/app/worker/tasks/retention.py:105-106 | nor does any number of days of it |
| `Decay.DecayMovesTowardsFloor` | backend/app/worker/tasks/retention.py:105-106 | strictly lower above 0.05, exactly 0.05 from below, and 0.05 is the only fixed point |
| `Decay.DecayEndsAtFloor` | backend/app/worker/tasks/retention.py:105-106 | every score reaches 0.05 after at most one day per thousandth above it, and stays |
| `Retention.SweepExpiredMemories` | backend/app/worker/tasks/retention.py:34-83 | the loop over tenants deletes exactly the rows past their tenant's retention, clears references to them, and deletes their points where the call lands; commit or rollback at the end |
| `Retention.SweepKeepsWhatIsDue` | backend/app/worker/tasks/retention.py:44-78 | a committed sweep keeps a memory exactly when its tenant has no row or no limit, or it is no more than that many days old; facts stay, losing only sources that are gone |
| `Retention.SweepDropsPointsDue` | backend/app/worker/tasks/retention.py:44-78 | the points deleted are exactly those of the memories due whose tenant's call landed, commit or not |
| `Retention.DecayImportanceScores` | backend/app/worker/tasks/retention.py:86-133 | the two loops age exactly the unflagged rows and send exactly those scores to the index, lost calls excepted |
| `Retention.DecayTouchesImportanceOnly` | backend/app/worker/tasks/retention.py:94-122 | a decay day changes the importance of unflagged rows and of their points, and nothing else |
| `Retention.UpdatePayloadImportance` | backend/app/worker/tasks/retention.py:148-160 | sets one existing point's importance, or nothing |
| `Compression.BatchIsOldest` | backend/app/worker/tasks/compression.py:65-74 | the batch is the tenant's oldest eligible memories in order of age, twenty or all there are, none left out before one taken |
| `Compression.GroupByUser` | backend/app/worker/tasks/compression.py:84-87 | the dictionary loop yields one entry per user, in order of first appearance, holding that user's memories in batch order |
| `Compression.GroupsPartitionBatch` | backend/app/worker/tasks/compression.py:84-87 | each memory is in its own user's group, as often as in the batch, and in no other |
| `Compression.GroupsKeepOrder` | backend/app/worker/tasks/compression.py:84-87 | each group is a subsequence of the batch |
| `Compression.CompressGroup` | backend/app/worker/tasks/compression.py:106-164 | one group's transaction: completed log, fact and point, or a rollback, according to the fault |
| `Compression.GroupIsWritten` | backend/app/worker/tasks/compression.py:106-164 | what a committed group adds, field by field: a fact that names every memory of the group in order, stripped of outer white space and trailing dots, and a completed log with the same text |
| `Compression.PartsCanBeReadBack` | backend/app/worker/tasks/compression.py:178-181 | parts without a semicolon and blank in them can be read back from the fact |
| `Compression.CompressTenantMemories` | backend/app/worker/tasks/compression.py:53-175 | the whole run over the groups, skipping groups done before and crashing as the worker does; and whether it completes |
| `CompressionRestart.RunWritesFacts` | backend/app/worker/tasks/compression.py:89-164 | a run without crashes leaves such a fact for every user whose group was to be worked on |
| `CompressionRestart.CompletesIff` | backend/app/worker/tasks/compression.py:89-175 | a run completes exactly when none of those groups crashes |
| `Saturation.WorkIff` | backend/app/worker/tasks/compression.py:65-104 | a user's group is worked on exactly when the tenant has three memories or more to compress, two or more of the batch are the user's, and their hash is new |
| `CompressionRestart.TodoExactly` | backend/app/worker/tasks/compression.py:89-104 | a group is compressed exactly when it has two memories or more and its hash is neither logged, by any tenant, nor that of an earlier group |
| `CompressionRestart.RestartEqualsOneRun` | backend/app/worker/tasks/compression.py:84-175 | crashes at any groups, any number of times, then one complete run: same logs and facts as one uninterrupted run, up to ids and times |
| `CompressionRestart.RerunAddsNothing` | backend/app/worker/tasks/compression.py:97-104 | a run after a complete one changes nothing at all |
| `Compression.SameTextIff` | backend/app/worker/tasks/compression.py:93-94 | two lists of contents are hashed as one text exactly when they are the same once split at every line break followed by a dash and a blank |
| `Compression.PlainTextIsUnique` | backend/app/worker/tasks/compression.py:93-94 | so contents without such a mark are told apart by their text |
| `Compression.MarkedTextIsShared` | backend/app/worker/tasks/compression.py:93-94 | and any content with one, wherever in the list, shares its text with the two contents it falls into |
| `Persistence.EqualTextIsCompressedOnce` | backend/app/worker/tasks/compression.py:97-104 | once one tenant's group is compressed, no group with the same texts, of any tenant and after any further events, is compressed again |
| `Persistence.LoggedTextIsNeverWork` | backend/app/worker/tasks/compression.py:97-104 | a logged hash keeps its group out of the work in every later state |
| `Saturation.FullBatchStaysIff` | backend/app/worker/tasks/compression.py:65-74 | over any run, a full batch is the same batch at the end exactly when no sweep deleted one of its members, however many newer memories arrive |
| `Saturation.FullBatchIsStuck` | backend/app/worker/tasks/compression.py:65-104 | once twenty memories fill the batch and their groups are logged, compression changes nothing more for the tenant over any run that sweeps none of them, however many newer memories arrive |
| `Saturation.NewMemoryReopensGroup` | backend/app/worker/tasks/compression.py:84-104 | while the batch has room, a new memory joins its user's group, old members and all, and puts it to work again exactly when its new hash is neither logged nor an earlier group's |
| `History.CompressionSurvivesCrashes` | backend/app/worker/tasks/compression.py:84-175 | the restart result in every reachable state of the engine |
| `Engine.Serve` | backend/app/services/memory_write.py:68-216 | each service method takes exactly one step of the state machine the run theorems are about |
| `Engine.StepKeepsInv` | backend/app/services/contradiction.py:85-161 | every event, with any faults, keeps rows, points, links and logs in order and takes nothing back |
| `Engine.RunKeepsInv` | backend/app/services/contradiction.py:85-161 | so does every run |
| `Supersession.LinkKeepsSound` | backend/app/services/contradiction.py:139-158 | a new link keeps links forward, injective, matched one to one with logs, and live facts conserved |
| `Supersession.SameEndSameChain` | backend/app/services/contradiction.py:139-158 | two facts with the same end lie on one chain: chains never merge |
| `Supersession.LogsAreLinks` | backend/app/services/contradiction.py:163-178 | automatic new-fact-kept logs and links correspond one to one |
| `History.LinksAreWrittenOnce` | backend/app/services/contradiction.py:139-158 | over any run a successor, once set, never changes; facts are never deleted and never change owner |
| `History.ChainsEndAtOneLiveFact` | backend/app/services/contradiction.py:85-161 | in every reachable state every fact leads to one live fact of the same tenant and user, drawn no earlier, and chains are disjoint |
| `History.LiveFactsAreConserved` | backend/app/services/contradiction.py:135-180 | live facts = facts less kept logs |
| `History.KeptLogsAreLinks` | backend/app/services/contradiction.py:135-180 | and those logs are the links, one to one |
| `History.CommittedKeysResolve` | backend/migrations/versions/001_initial_schema.py:559-570 | every committed link and log names committed rows; every committed compression log is completed |
| `History.DecayAgesEveryRow` | backend/app/worker/tasks/retention.py:111-122 | superseding never sets the flag the decay selects by, so superseded facts are aged as well |
| `History.SupersededFactIsAged` | backend/app/worker/tasks/retention.py:111-122 | and such a run in which a superseded fact is aged |
| `StoreAgreement.StepParts` | backend/app/services/memory_write.py:88-135 | for each event, compression included: exactly which ids become orphaned points or point-less rows, and under which faults |
| `StoreAgreement.GroupParts` | backend/app/worker/tasks/compression.py:130-164 | for one compression group: exactly which fault orphans its point and which leaves its fact without one |
| `StoreAgreement.WorkParts` | backend/app/worker/tasks/compression.py:89-164 | for a whole compression: exactly the ids drawn for groups it comes to with such a fault, no earlier group having crashed |
| `StoreAgreement.OrphansHaveACause` | backend/app/worker/tasks/retention.py:62-79 | a point is an orphan at the end of a run exactly when it was one at the start or one of those faults orphaned it: nothing removes orphans |
| `StoreAgreement.BareRowsHaveACause` | backend/app/worker/tasks/retention.py:62-79 | a row is point-less at the end exactly when it was so at the start or one of those faults stripped it, and no committed sweep has deleted it since |
| `StoreAgreement.RequestsNeverStripRows` | backend/app/services/memory_write.py:88-135 | API requests alone, with any faults, never commit a row without its point |
| `StoreAgreement.FaultFreeRunsAgree` | backend/app/worker/tasks/retention.py:94-122 | without faults, workers included, the index is exactly the one the rows call for |
| `ImportanceDrift.StepDrifts` | backend/app/worker/tasks/retention.py:94-122 | exactly which events, under which faults, set a row's importance and its point's apart, and which bring them together: only decay days and deletions matter |
| `ImportanceDrift.DriftHasACause` | backend/app/worker/tasks/retention.py:94-122 | the two differ at the end of a run exactly when they did at the start or such an event set them apart, and nothing has settled it since |
| `ImportanceDrift.DecayDayRealigns` | backend/app/worker/tasks/retention.py:94-122 | one decay day whose calls all land makes every point agree with its row, whatever failed before |
| `Persistence.LaterSweepRepairs` | backend/app/worker/tasks/retention.py:62-83 | rows stripped by a rolled-back sweep are gone after the next sweep that commits, whatever happens in between, unless retention was extended or switched off by then |
| `StoreAgreement.SearchSeesOwnMemoriesOnly` | backend/app/services/memory_read.py:111-121 | in every reachable state a search returns only rows of the asking tenant and user, though rows are fetched by tenant alone |
| `StoreAgreement.ReachableScoresInRange` | backend/app/services/memory_read.py:138-154 | in every reachable state every returned score lies in [0, 0.7164] |
| `MemoryRead.ScoreHits` | backend/app/services/memory_read.py:125-156 | the scoring loop builds one candidate per hydrated hit, in the index's order |
| `MemoryRead.CandidatesAreHydratedHits` | backend/app/services/memory_read.py:111-156 | candidates and hydrated hits are the same thing, ranks ascending, each scored from its row |
| `MemoryRead.Deliver` | backend/app/services/memory_read.py:162-183 | the results are the chosen rows, and each chosen row gains one access, no other row changes |
| `MemoryRead.SearchMemories` | backend/app/services/memory_read.py:54-197 | the whole search: results, access counts and commit |
| `MemoryRead.SearchContract` | backend/app/services/memory_read.py:111-183 | for any index: at most `limit` distinct hydrated rows of the tenant, best first, ties in index order, ahead of everything left out |
| `MemoryRead.HitsAreWhatIsAsked` | backend/app/services/memory_read.py:72-80 | the hits are the most similar points of tenant, user and type: three times the limit, a hundred at most |
| `MemoryRead.SearchReturnsBest` | backend/app/services/memory_read.py:111-160 | each result is a hit whose row may be returned, scored from what the row holds; such a hit is left out only for a full page of scores no lower |
| `MemoryRead.ResultHoldsRow` | backend/app/services/memory_read.py:162-183 | a result reads as its row does |
| `MemoryRead.SearchCountsAccesses` | backend/app/services/memory_read.py:162-183 | a committed search adds one access to each row returned and changes nothing else |
| `MemoryRead.RetrievabilityAtAge` | backend/app/services/memory_read.py:138-142 | retrievability is exp of minus the age over thirty days for the memory and for each access |
| `MemoryRead.RetrievabilityWhenFresh` | backend/app/services/memory_read.py:138-142 | a memory younger than 0.01 days counts as that old |
| `MemoryRead.OlderNeverScoresHigher` | backend/app/services/memory_read.py:138-154 | of two memories alike but for their age, the older never scores higher |
| `MemoryRead.ScoreIsNearest` | backend/app/services/memory_read.py:144-154 | the score is 1 / (61 + rank) + 0.4 retrievability + 0.3 importance, to four places |
| `MemoryRead.RetrievabilityWeighs` | backend/app/services/memory_read.py:144-154 | full retrievability is worth exactly 0.4 |
| `Sorting.SortIsStable` | backend/app/services/memory_read.py:159-159 | the sort orders by key and keeps the order of equal keys |
| `MemoryRead.CompositeInRange` | backend/app/services/memory_read.py:144-154 | a composite score lies in [0, 0.7164] |
| `MemoryRead.ImportanceGapDecides` | backend/app/services/memory_read.py:144-154 | with equal retrievability a gap of 0.035 in importance settles the order of any two fetched ranks, after rounding |
| `MemoryRead.ImportanceGapOrdersCandidates` | backend/app/services/memory_read.py:138-160 | the same in the ranking, for candidates equally retrievable: the more important one sorts first, and is returned whenever the other is |
| `MemoryRead.GapDecidesIff` | backend/app/services/memory_read.py:144-154 | of importances rows can hold, the gaps that settle the order at all fetched ranks are exactly those of 0.035 and more |
| `MemoryRead.AccessRaisesScore` | backend/app/services/memory_read.py:141-154 | an access never lowers a score |
| `MemoryRead.SelectionIsStable` | backend/app/services/memory_read.py:158-160 | a selection whose members can only have gained is selected again |
| `MemoryRead.RepeatedSearchFindsTheSame` | backend/app/services/memory_read.py:127-183 | any number of repetitions at one instant return the same ids |
| `Strings.SplitThenJoin` | backend/app/services/graph_service.py:104-104 | splitting at full stops loses nothing and leaves no full stop in a piece |
| `Strings.TitleForgetsCase` | backend/app/services/graph_service.py:111-113 | names that differ in case only are one name after title-casing |
| `Strings.StripAndTitleNormalize` | backend/app/services/graph_service.py:111-113 | a name once stripped and title-cased stays as it is under both |
| `Strings.StripParts` | backend/app/services/graph_service.py:105-113 | stripping takes white space off both ends and nothing else |
| `Strings.CaseOfTexts` | backend/app/services/graph_service.py:111-113 | lower, upper and title case, letter by letter |
| `TriplePatterns.PatternsFindKnownTriples` | backend/app/services/graph_service.py:96-113 | whatever the sentence: one of nine predicates, a subject of user, agent or client unless the predicate is IS_A, and names stripped and title-cased |
| `TriplePatterns.PatternsFindLeftmostMatch` | backend/app/services/graph_service.py:96-113 | each verb pattern yields the triple of the leftmost place where subject, verb and remainder stand, with any white space and in any case, and nothing exactly when there is none |
| `TriplePatterns.SubjectPhrases` | backend/app/services/graph_service.py:97-100 | the three subjects |
| `TriplePatterns.FeelingPhrases` | backend/app/services/graph_service.py:97-97 | the five feelings |
| `TriplePatterns.EmploymentPhrases` | backend/app/services/graph_service.py:98-98 | the three phrases of employment |
| `TriplePatterns.ResidencePhrases` | backend/app/services/graph_service.py:99-99 | the three phrases of residence |
| `TriplePatterns.UsePhrases` | backend/app/services/graph_service.py:100-100 | the three phrases of use |
| `TriplePatterns.MatchGivesTriple` | backend/app/services/graph_service.py:110-115 | which predicate each yields, with subject and remainder stripped and title-cased |
| `TriplePatterns.LastPatternFindsShortestMatch` | backend/app/services/graph_service.py:101-113 | the IS_A pattern yields the leftmost match with the shortest name |
| `TriplePatterns.LastPatternFindsMatches` | backend/app/services/graph_service.py:101-113 | and nothing exactly when there is none |
| `GraphIngestion.StatedTripleIsExtracted` | backend/app/services/graph_service.py:96-118 | a sentence yields the triple of its first usable verb pattern's leftmost match and nothing else, though later patterns may match |
| `GraphIngestion.ExtractHeuristicTriples` | backend/app/services/graph_service.py:85-118 | the nested loops with break compute the extraction |
| `GraphIngestion.FirstTripleIsFirst` | backend/app/services/graph_service.py:108-116 | a sentence's triple comes from the first pattern with both parts longer than one character |
| `GraphIngestion.LongNamesAreTaken` | backend/app/services/graph_service.py:108-116 | a pattern that yields two names longer than one character is not passed over for nothing |
| `GraphIngestion.ExtractedNamesAreLong` | backend/app/services/graph_service.py:114-116 | every name extracted has two characters or more |
| `GraphIngestion.SentenceYieldsOne` | backend/app/services/graph_service.py:104-118 | a sentence yields at most one triple, found in it stripped |
| `GraphIngestion.ExtractionDistributes` | backend/app/services/graph_service.py:104-118 | extract(a + "." + b) = extract(a) + extract(b) |
| `GraphIngestion.ExtractAndStoreTriples` | backend/app/services/graph_service.py:31-83 | the rows after ingestion, read by name, are the graph with the extracted triples added |
| `KnowledgeGraph.TripleIsStored` | backend/app/services/graph_service.py:46-68 | storing one triple: both names, the kinds of new ones, the relation's weight, and nothing else |
| `GraphIngestion.IngestionDistributes` | backend/app/services/graph_service.py:42-68 | ingesting "a.b" gives the graph of ingesting a, then b |
| `KnowledgeGraph.GraphStore.GetNodeByName` | backend/app/repositories/graph.py:32-54 | finds the one node of the key or none, never several |
| `KnowledgeGraph.GraphStore.FindRelation` | backend/app/repositories/graph.py:99-106 | the edge query finds the one edge or none, never several, though no constraint says so |
| `KnowledgeGraph.GraphStore.UpsertNode` | backend/app/repositories/graph.py:56-84 | creates the node or merges attributes into the one there; the kind given first stays |
| `KnowledgeGraph.GraphStore.AddRelation` | backend/app/repositories/graph.py:86-124 | adds the edge with its weight or raises the one there by 0.5 |
| `GraphIngestion.WeightsAreCounts` | backend/app/repositories/graph.py:108-124 | a relation weighs 1 + 0.5 (occurrences - 1), or its earlier weight plus 0.5 per occurrence |
| `GraphIngestion.KindsAreFirstMentions` | backend/app/services/graph_service.py:46-59 | one node per name mentioned, its kind fixed by the first mention |
| `GraphIngestion.OrderDoesNotMatter` | backend/app/repositories/graph.py:56-124 | names and weights depend on the multiset of triples only |
| `GraphIngestion.OrderDecidesKind` | backend/app/services/graph_service.py:52-59 | the kind of a node does depend on the order |
| `Subgraph.GetSubgraphForEntities` | backend/app/repositories/graph.py:126-200 | nodes are the seeds and their neighbours, each once; each edge is listed once per end that is a seed |
| `Subgraph.AroundIsOneEdgeAway` | backend/app/repositories/graph.py:147-200 | around the seeds are the seeds and whatever an edge joins to one of them, either way |
| `Subgraph.ListedEndsAreFound` | backend/app/repositories/graph.py:161-195 | both ends of every listed edge are among the nodes |
| `RateLimit.RateLimiter.Dispatch` | backend/app/api/middlewares.py:132-200 | count, expiry and response of one request |
| `RateLimit.AnswerTells` | backend/app/api/middlewares.py:132-200 | four paths pass uncounted; any other answer tells the limit and when the next minute begins |
| `RateLimit.RequestIsCounted` | backend/app/api/middlewares.py:142-163 | a request adds one to its identifier's count of the minute, for ninety seconds, and leaves other counters be |
| `RateLimit.CountersCount` | backend/app/api/middlewares.py:158-162 | the counter of the current window holds the requests made in it; its TTL never loses it mid-window |
| `RateLimit.AnswerIsByRank` | backend/app/api/middlewares.py:166-200 | a request passes exactly when it is among its identifier's first `limit` in the minute; the header says how many are left |
| `RateLimit.RefusalTellsWait` | backend/app/api/middlewares.py:191-191 | Retry-After ends just inside the next window, at most a minute away, and is positive exactly when the minute is not over as the refusal is written |
| `RateLimit.AdmissionsPerWindow` | backend/app/api/middlewares.py:144-199 | admissions per window are min(limit, requests) |
| `RateLimit.AnySixtySeconds` | backend/app/api/middlewares.py:144-199 | the exact number let through in any 60 seconds, at most twice the limit |
| `RateLimit.TwiceTheLimitWithinTwoSeconds` | backend/app/api/middlewares.py:105-117 | and can see twice the limit within two seconds, so the window does not slide |
| `Tenants.TenantService.CreateTenant` | backend/app/services/tenant.py:58-99 | slug check, tenant and founding admin |
| `Tenants.TenantService.CountAdmins` | backend/app/services/tenant.py:235-238 | counts the admins on the first page of members |
| `Tenants.TenantService.UpdateMemberRole` | backend/app/services/tenant.py:186-251 | the guards in order, then the role change |
| `Tenants.TenantService.RemoveMember` | backend/app/services/tenant.py:253-311 | the guards in order, then the removal |
| `Tenants.TenantService.InviteByEmail` | backend/app/services/tenant.py:317-385 | refused for a member or a pending address, else a pending invitation for seven days |
| `Tenants.TenantService.AcceptInvite` | backend/app/services/tenant.py:387-438 | the guards in order, then membership and acceptance; a refusal leaves no trace |
| `Tenants.RolesChangeByRight` | backend/app/services/tenant.py:186-438 | nobody's role changes unless an admin of the tenant says so, or the user leaves, takes up an open invitation with that role, or founds the tenant |
| `Tenants.RolesAreGranted` | backend/app/services/tenant.py:186-438 | over every run, whoever has a role was so entitled to it by some request |
| `Tenants.RoleUpdateTakesEffect` | backend/app/services/tenant.py:216-251 | exactly when a role is changed, and to what |
| `Tenants.RemovalTakesEffect` | backend/app/services/tenant.py:275-311 | exactly when a member goes |
| `Tenants.FoundingTakesEffect` | backend/app/services/tenant.py:58-99 | exactly when a tenant is founded, with its creator as admin |
| `Tenants.InvitationTakesEffect` | backend/app/services/tenant.py:340-385 | exactly when an address is invited, for seven days |
| `Tenants.AcceptanceTakesEffect` | backend/app/services/tenant.py:400-438 | exactly when an invitation makes a member, and in which role |
| `Tenants.RefusalsAreReasoned` | backend/app/services/tenant.py:216-438 | which refusal answers which fault |
| `Tenants.PageShowsSomeAdmins` | backend/app/repositories/tenant.py:134-160 | a page never shows more admins than there are, and all of them up to fifty members |
| `Tenants.EveryTenantKeepsAnAdmin` | backend/app/services/tenant.py:233-306 | over every run every tenant has an admin and nobody is twice a member of one tenant |
| `Tenants.NeedlessRefusalIff` | backend/app/services/tenant.py:233-304 | when exactly an admin may be neither removed nor demoted although another remains; never up to fifty members |
| `Tenants.SecondAdminGoesUnseen` | backend/app/services/tenant.py:295-304 | a run of invitations to a tenant of fifty-one with two admins where that happens |
| `Tenants.AcceptedAtMostOnce` | backend/app/services/tenant.py:409-430 | no invitation is accepted twice |
| `Tenants.ExpiryIsNeverRecorded` | backend/app/services/tenant.py:417-419 | no committed invitation has status `expired`: the update is rolled back with the error |
| `Tenants.ExpiredInviteBlocksReinviting` | backend/app/services/tenant.py:358-365 | an expired invitation stays pending and its address can never be invited again |
| `WorkingMemory.KeysCollideExactly` | backend/app/repositories/working_memory.py:41-47 | two sessions share a key exactly when the tenants agree and user and session ids joined by a colon read the same |
| `WorkingMemory.KeysAreInjective` | backend/app/repositories/working_memory.py:41-47 | for colon-free user ids the key builder is injective |
| `WorkingMemory.KeyKindsAreApart` | backend/app/repositories/working_memory.py:96-96 | a session's key is never an index key |
| `WorkingMemory.WorkingMemoryRepository.GetState` | backend/app/repositories/working_memory.py:49-68 | parses each stored field of an unexpired hash, or keeps its text |
| `WorkingMemory.WorkingMemoryRepository.UpdateState` | backend/app/repositories/working_memory.py:70-99 | serializes and writes the fields, lists the session, renews both expiries; an empty update does nothing |
| `WorkingMemory.WorkingMemoryRepository.DeleteState` | backend/app/repositories/working_memory.py:101-116 | deletes the hash and unlists the session |
| `WorkingMemory.IndexIsOwn` | backend/app/repositories/working_memory.py:92-116 | over every interleaving each user's index is exactly what that user's own requests make it, colons in user ids or not |
| `WorkingMemory.ActiveIsOwn` | backend/app/repositories/working_memory.py:118-128 | the sessions reported as active are the members of that index until it expires |
| `WorkingMemory.SessionsDoNotInterfere` | backend/app/repositories/working_memory.py:81-116 | over every interleaving each session's hash is what its own requests make it: the overlay since its last delete or expiry |
| `WorkingMemory.StateIsOwn` | backend/app/repositories/working_memory.py:49-68 | a reader gets that overlay, or nothing after expiry |
| `WorkingMemory.FieldsLastTwoHours` | backend/app/repositories/working_memory.py:70-99 | fields written read back for two hours and the session is listed; then neither |
| `WorkingMemory.DeletedSessionIsGone` | backend/app/repositories/working_memory.py:101-116 | a deleted session reads as empty and is listed no more |
| `WorkingMemory.FieldsReadBack` | backend/app/repositories/working_memory.py:59-85 | a field given is the field read back exactly when JSON reads what it wrote, or does not read the text as something else |
| `WorkingMemory.LiveSessionsAreListed` | backend/app/repositories/working_memory.py:92-99 | every unexpired session is in its user's index, which expires no earlier |
| `WorkingMemory.ColonsLetSessionsMeet` | backend/app/repositories/working_memory.py:41-47 | with a colon in a user id one user's write is another user's state |
| `WorkingMemory.StaleListingIff` | backend/app/repositories/working_memory.py:118-128 | exactly when a session reported as active has nothing left: written and not deleted since, expired, and still in an index that the user's other sessions keep alive; `IndexMayBeStale` is an example |
| `Webhooks.Worker.DeliverWebhook` | backend/app/worker/tasks/webhooks.py:29-97 | one attempt: record, counter, retry or end |
| `Webhooks.AttemptIsRecorded` | backend/app/worker/tasks/webhooks.py:38-97 | an answered attempt at an active webhook is recorded under the next number and counted; otherwise nothing is |
| `Webhooks.RejectedIsRetried` | backend/app/worker/tasks/webhooks.py:71-91 | a rejected attempt leaves the job queued until six are recorded |
| `Webhooks.NoTaskIsForgotten` | backend/app/worker/tasks/webhooks.py:28-97 | over every run, a job no longer queued was delivered, failed six times, or was cut short by the database or a webhook that was not there |
| `Webhooks.Worker.DispatchEvent` | backend/app/worker/tasks/webhooks.py:109-126 | exactly one new job for each active subscribed webhook of the tenant |
| `Webhooks.AttemptsAreBounded` | backend/app/worker/tasks/webhooks.py:28-97 | at most six attempts per job, numbered from 1, only the last delivered |
| `Webhooks.CounterCountsFailuresInARow` | backend/app/worker/tasks/webhooks.py:71-85 | the failure counter is the number of failed attempts since the last delivered one |

## Where the code and its own descriptions differ

The model follows the code.

- The foreign keys onto semantic_memories are immediate (backend/migrations/versions/001_initial_schema.py:492-497, 559-570), but the service writes the link and the log before the row they name (backend/app/services/memory_write.py:163, 195). `Tables.deferredKeys` says when they are checked: at commit, as the service intends, or at each statement, as migrated. Either check looks at the rows; everything about runs is proved for both, and `History.ClashCommitsIffDeferred` and `History.ImmediateKeysNeverSupersede` say what the second comes to.
- backend/app/models/memory.py:28-33 says a superseded memory has `superseded=True`; nothing sets it, and the decay selects by it (`History.DecayAgesEveryRow`).
- backend/app/api/middlewares.py:107 calls the limiter a sliding window (`RateLimit.TwiceTheLimitWithinTwoSeconds`).
- backend/app/services/tenant.py:418 marks an invitation expired and then raises, which rolls the mark back (`Tenants.ExpiryIsNeverRecorded`).
- backend/app/services/tenant.py:295-304 counts admins on one page of fifty members (`Tenants.NeedlessRefusalIff`), before a demotion as before a removal.
- backend/app/services/graph_service.py:90 announces WORKS_AT for a user who works somewhere; the pattern at line 98 yields WORKS_FOR (`TriplePatterns.PatternsFindLeftmostMatch`).
- The compression hash is looked up without the tenant (`Persistence.EqualTextIsCompressedOnce`).
- Compression never marks its sources, so they stay in the next batch (`Saturation.FullBatchIsStuck`, `Saturation.NewMemoryReopensGroup`).
- backend/tests/unit/test_memory_pipelines.py:63 describes an older ranking formula; the model has the one at backend/app/services/memory_read.py:146.
- backend/app/worker/tasks/webhooks.py:100 passes a method to `isinstance`; a retry is taken to be queued, as `self.retry` does before it raises.

## Left out

- Embeddings, similarity scores and the inference models: arbitrary results, as said above.
- The extractor's patterns on text that is not stripped, which the extractor never gives them; splitting, first match and ingestion are proved for any list of patterns.
- Swallowed failures inside triple ingestion and over-long names: every triple is taken to be stored; episodic and semantic writes do not carry their graph along in the engine's state.
- Python floats: exact numbers instead; a tie that a float rounds the other way is not captured.
- Non-ASCII letters and digits in the regular expressions.
- Equal creation times in a compression batch: ties are broken by id, so a database that returns tied rows in another order on a rerun, and with it another hash, is not captured.
- True concurrency: requests and workers run one at a time, with faults at every external call.
- The knowledge-graph part of a search response and query timing: read only.
- Row fields no step reads: metadata, embedding model, session context, `updated_at`, `superseded_at`.
- Redis failures in the rate limiter (it then lets requests through) and how identifiers are derived from headers.
- What JSON makes of a value: arbitrary functions; a value that is no dict or list is given as the text that `str` makes of it.
- A Redis command on a key of the wrong type: it has no effect here; `WorkingMemory.KeyKindsAreApart` shows it does not arise for UUID tenants.
- Deleting users, tenants or webhooks, revoking invitations, manual resolution of contradictions, and router permission checks.
- Authentication, OAuth, API keys, evaluation, notifications, audit, listing and counting queries: none of them changes a store modelled here.
- `Celery` beyond "a retry queues the next attempt until five retries are used up".
