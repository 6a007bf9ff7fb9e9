# Uru: verified models of the ranking kernels, the batch processor, the indexer and the stream proxy

Uru is a note-taking plugin with a local memory engine (khora) and a sidecar. This project models, in
Dafny, the parts whose correctness is hard to see by reading them, and proves what they are meant to do
for every input, every run and every interleaving.

| file | models |
|---|---|
| `RealSums.dfy`, `Lists.dfy`, `Vectors.dfy`, `Graphs.dfy`, `Wrappers.dfy` | sums of reals, selection from lists, dot products, weighted edge lists, optional values |
| `LinearSystems.dfy` | solvability of contracting linear systems by elimination |
| `PageRank.dfy` | personalized PageRank: mass, contraction, convergence to the one fixed point, the error at the early stop |
| `Communities.dfy`, `Louvain.dfy`, `LouvainKernel.dfy` | modularity, runs of Louvain moves, and the kernel with its incremental caches |
| `Levenshtein.dfy` | the row-by-row edit distance against shortest chains of single edits |
| `Mmr.dfy` | greedy diversity selection against its quadratic definition |
| `Blocking.dfy` | inverted-index pair scoring against all pairs, and the blocking-key scanner against its documentation |
| `Dedup.dfy` | near-duplicate marking as the lexicographically first dissimilar set |
| `BatchModel.dfy`, `BatchProcessor.dfy` | the deferred batch processor with its per-batch and chunk semaphores as one step system; exactly-once delivery and progress |
| `BatchRuns.dfy`, `BatchLimits.dfy` | whole runs of it: the results in order, the queue and the chunk windows; tokens held, who is blocked, what a submission settles |
| `SubmitBatch.dfy` | the classification done at submission |
| `ChunkSemaphore.dfy` | the chunk semaphore by itself, for any clients, under every interleaving |
| `HashStore.dfy` | crash-safe persistence of the index table |
| `Indexer.dfy` | the hash-gated indexer kept in step with its backend |
| `StreamProxy.dfy` | line reassembly in the streaming proxy |

Loops over lists and dictionaries are methods with loops; objects whose fields change are classes; the
concurrent processor and the semaphore are step systems over values, with the objects that carry their
counters beside them. Floating point is modelled over the reals. Nondeterministic choices (`*`) stand for
outcomes the program does not control: a backend call that fails, a stop request, how far a save gets.
Iteration over a set or dictionary takes its elements in an arbitrary order.

## What the proofs found

- **A recovered table can be lost.** `HashStore.load` may take the table from the temporary file and then
  removes that file without committing it. `HashStore.RecoveredOnceThenLost` gives the run,
  `HashStore.ReloadCondition` the exact condition on the two files.
- **One event can end a stream.** The proxy's per-line handler does not catch the exception raised when an
  event's `choices` is a non-zero number, `true` or a non-empty object, nor the one raised by decoding a
  line nested too deeply. What has been collected is still independent of the chunking, but what has been
  forwarded is not: `StreamProxy.ForwardingCondition` shows that every chunking forwards the whole stream
  exactly if no such line is followed by anything. A last line without a newline is never looked at.
- **A failed forget leaks a document.** A full index stops tracking a missing note even if the backend
  refuses to forget it; `Indexer.VaultIndexer.FullIndex` counts exactly one leaked document per failed call.
- **A full index may leave a stale saved table.** It saves only if it had something to send.
  `Indexer.VaultIndexer.FullIndexAndSavedTable`: the saved table equals the one in memory exactly if some
  note was not up to date or no tracked note had become ineligible.
  `Indexer.VaultIndexer.DroppedPathStaysSaved` gives the input: the vault emptied, a path stays in the saved
  table, and is tracked again after a crash before the next save, although the backend has forgotten it.
- **A submission without a running processor strands its batch.** `submit_batch` counts the batch, calls back
  for the results it already knows and then raises, returning no handle. `BatchProcessor.WaitReturnsExactly`:
  once the pool has done what it can, a batch is done exactly if the processor was running at its submission
  or nothing was pending; `BatchProcessor.StrandedNeverDone`: otherwise it is never done.
- **Blocking keys are not the documented ones.** The documentation lower-cases the name and then splits it;
  the code splits the name and lower-cases characters within its tokens, one by one. There are two families
  of names whose keys differ: `Blocking.DottedCapitalSplits` has a letter that lower-cases to several
  characters, `Blocking.FinalSigmaDiffers` one whose lower-casing depends on where it stands.
  `Blocking.DocumentedKeysCondition` gives the exact condition on the letters of the names, for any
  lower-casing of strings that goes letter by letter except at the latter kind of letter, and
  `Blocking.PythonKeysCondition` for Python's. The model follows the code.

## Model

| member | source | states |
|---|---|---|
| PageRank.Teleport | khora/src/khora/_accel.py:542-549 | for every seed vector, malformed ones included, the teleport vector is a probability distribution: proportional to the clipped seed if that has mass and the right length, uniform otherwise |
| PageRank.BuildLinks | khora/src/khora/_accel.py:551-557 | one pass yields, for every node, its in-range incoming edges in order and its summed out-weight |
| PageRank.Gather | khora/src/khora/_accel.py:566-569 | the inner loop adds up what every incoming edge carries, dangling sources carrying nothing |
| PageRank.Sweep | khora/src/khora/_accel.py:562-574 | one iteration applies the PageRank operator and `diff` is the L1 distance it moved |
| PageRank.StepMeaning | khora/src/khora/_accel.py:554-572 | the operator over the edge list alone: a node gets (1-damping) of its teleport share and, damped, from every node u the part of u's score that the summed weight of the edges from u to it bears to all of u's out-weight |
| PageRank.UnlinkedScore | khora/src/khora/_accel.py:554-572 | a node that no in-range edge ends in scores exactly (1-damping) times its teleport share |
| PageRank.MassAfterStep | khora/src/khora/_accel.py:565-572 | the total after one iteration is (1-damping) plus damping times the mass on nodes with positive out-degree, by counting every edge at both ends |
| PageRank.IterateMass | khora/src/khora/_accel.py:559-578 | after any number of iterations scores are non-negative and total at most 1, exactly 1 if no node dangles |
| PageRank.StepContracts | khora/src/khora/_accel.py:565-572 | the operator shrinks L1 distances by the damping factor |
| PageRank.DiffsDecay | khora/src/khora/_accel.py:561-576 | each iteration's `diff` is at most damping times the previous one |
| PageRank.EarlyStopError | khora/src/khora/_accel.py:574-578 | scores returned by the early stop are within damping*tol/(1-damping) of any fixed point |
| PageRank.EarlyStopStays | khora/src/khora/_accel.py:574-578 | after an early stop every later iterate, however many more iterations were made, stays within damping*tol/(1-damping) of the scores returned |
| PageRank.IterateError | khora/src/khora/_accel.py:561-578 | whatever ended the loop, k iterations leave at most damping^k of the initial distance to a fixed point |
| PageRank.FixedPointUnique | khora/src/khora/_accel.py:565-572 | below damping 1 there is at most one fixed point |
| PageRank.FixedPointExists | khora/src/khora/_accel.py:565-572 | below damping 1 there is a fixed point, non-negative if the teleport vector is, found by eliminating one score after the other |
| PageRank.Convergence | khora/src/khora/_accel.py:561-578 | the iteration converges: there is exactly one fixed point, it has total at most 1 and is a distribution if no node dangles, and k iterations come within 2*damping^k of it |
| PageRank.Rank | khora/src/khora/_accel.py:502-578 | the program returns the iterate after the first iteration that moved less than tol, or after max_iter; whenever the last iteration moved less than tol, the last permitted one included, all later iterates and the fixed point are within damping*tol/(1-damping); in every case there is a fixed point within 2*damping^iterations, and the scores are non-negative and of total at most 1 |
| Communities.FormAfterMove | khora/src/khora/_accel.py:1763-1785 | relabelling one node changes a symmetric pair sum by twice the difference of its pulls to the two communities |
| Communities.GainIsPull | khora/src/khora/_accel.py:1768-1777 | the gain formula over the cached weights is exactly twice the node's pull in the modularity double sum |
| Communities.MoveChangesModularity | khora/src/khora/_accel.py:1768-1785 | on a symmetric graph a move changes modularity by exactly gain(target) - gain(own) |
| Communities.ModularityMeaning | khora/src/khora/_accel.py:1734-1777 | modularity over the edge list alone: 2m times it is the double sum of A_ij - resolution*k_i*k_j/2m over pairs with equal labels, with A, k and 2m summed from the listed edges |
| Louvain.BestUnique | khora/src/khora/_accel.py:1774-1782 | the chosen community does not depend on the order in which candidates are tried |
| Louvain.SweepsUnique | khora/src/khora/_accel.py:1751-1791 | what k sweeps over nodes 0, 1, 2, ... make of the singletons is determined by the graph |
| Louvain.QuietSweepsOn | khora/src/khora/_accel.py:1787-1791 | stopping after a sweep that moved nothing is the same as sweeping on |
| Louvain.MoveClimbs | khora/src/khora/_accel.py:1774-1788 | every move raises modularity, or keeps it and lowers the sum of community ids |
| Louvain.RunNeverRecurs | khora/src/khora/_accel.py:1751-1791 | over a whole run modularity never falls and no labelling recurs |
| Louvain.RunBounded | khora/src/khora/_accel.py:1751-1791 | a run has at most n^n labellings, so the sweeps would stop without max_iter |
| Louvain.RunCohesive | khora/src/khora/_accel.py:1763-1785 | at every point of a run nodes with the same label are joined by a path in the input graph, for any weights |
| LouvainKernel.BuildAdjacency | khora/src/khora/_accel.py:1734-1744 | adjacency lists, strengths and half the total weight, self-loops and out-of-range edges dropped |
| LouvainKernel.Neighbourhood | khora/src/khora/_accel.py:1763-1766 | the dictionary has exactly the neighbouring communities, each with the summed weight into it |
| LouvainKernel.ChooseBest | khora/src/khora/_accel.py:1768-1782 | in any iteration order the scan ends with the highest gain, smallest id on ties, own community included |
| LouvainKernel.CacheWithout | khora/src/khora/_accel.py:1761-1761 | after the subtraction every cache entry is the strength of the community's other members |
| LouvainKernel.CacheWith | khora/src/khora/_accel.py:1784-1785 | after the addition the cache is exact for the new labelling |
| LouvainKernel.Visit | khora/src/khora/_accel.py:1758-1785 | a visit keeps `sigma_tot` equal to every community's summed strength and puts the node in its best community |
| LouvainKernel.Sweep | khora/src/khora/_accel.py:1752-1788 | a sweep visits every node once, in order: one without strength stays, any other goes to its best community; `moved` exactly if the labelling changed; if nothing moved, every active node is in its best community |
| LouvainKernel.Relabel | khora/src/khora/_accel.py:1793-1803 | labels are 0, 1, 2, ... in order of first appearance, equal exactly for equal communities, -1 exactly without positive strength |
| LouvainKernel.RelabelledUnique | khora/src/khora/_accel.py:1793-1803 | these conditions determine the dense labels |
| LouvainKernel.StrengthSigns | khora/src/khora/_accel.py:1734-1746 | with non-negative weights strengths are non-negative, and all zero when the total weight is |
| LouvainKernel.StableIsLocalOptimum | khora/src/khora/_accel.py:1787-1791 | after a sweep without moves no active node can raise modularity by joining a neighbour's community |
| LouvainKernel.Optimize | khora/src/khora/_accel.py:1748-1791 | the labelling is what max_iter full sweeps make of the singletons; the sweeps end stable, or have moved at least max_iter times |
| LouvainKernel.DetectCommunities | khora/src/khora/_accel.py:1730-1803 | the result densely relabels what max_iter full sweeps make of the singletons; same label implies joined; -1 exactly for zero strength if weights are non-negative; modularity ends no lower than it began; stable when max_iter is at least n^n |
| Levenshtein.DistanceZero | khora/src/khora/_accel.py:399-402 | the distance is zero exactly for equal strings |
| Levenshtein.DistanceSymmetric | khora/src/khora/_accel.py:408-417 | the distance is symmetric |
| Levenshtein.DistanceBounds | khora/src/khora/_accel.py:408-418 | the distance lies between the difference and the maximum of the lengths |
| Levenshtein.DistanceTriangle | khora/src/khora/_accel.py:408-417 | the triangle inequality |
| Levenshtein.DistanceIsMinimum | khora/src/khora/_accel.py:408-417 | the distance is the least number of single-character insertions, deletions and substitutions, over all chains of such edits |
| Levenshtein.NextRow | khora/src/khora/_accel.py:410-415 | one pass turns the row of a prefix into the row of the next prefix |
| Levenshtein.EditDistance | khora/src/khora/_accel.py:408-417 | the last cell of the last row is the distance |
| Levenshtein.LevenshteinSimilarity | khora/src/khora/_accel.py:398-418 | similarity is 1 - distance/max length on every path, early exits included, lies in [0,1] and is 1 exactly for equal lower-cased strings |
| Levenshtein.SimilarityMeaning | khora/src/khora/_accel.py:408-418 | one minus the similarity, times the longer length, is the length of a shortest chain of single-character edits |
| Levenshtein.SimilaritySymmetric | khora/src/khora/_accel.py:390-418 | similarity is symmetric |
| Mmr.MaxSimilarityIsMax | khora/src/khora/_accel.py:1890-1891 | the penalty is the highest similarity to anything selected, never below 0 |
| Mmr.PickMeaning | khora/src/khora/_accel.py:1884-1894 | nothing unselected has a higher lambda*score - (1-lambda)*similarity than the pick, and of equals the pick comes first |
| Mmr.PickNotDominated | khora/src/khora/_accel.py:1884-1894 | nothing unselected has a higher score and no higher similarity, or a lower similarity and no lower score, than the pick |
| Mmr.PickExtremes | khora/src/khora/_accel.py:1884-1894 | lambda 1 picks by score alone, lambda 0 by similarity alone |
| Mmr.GreedyDistinct | khora/src/khora/_accel.py:1883-1909 | no index is selected twice |
| Mmr.GreedyPrefix | khora/src/khora/_accel.py:1883-1909 | the selection for k is a prefix of the selection for any larger k |
| Mmr.PickBest | khora/src/khora/_accel.py:1884-1894 | the scan over cached similarities finds the lowest-numbered maximiser of the quadratic definition |
| Mmr.UpdateCache | khora/src/khora/_accel.py:1899-1907 | the cache stays the maximum similarity to the selection for every available candidate |
| Mmr.Select | khora/src/khora/_accel.py:1829-1909 | the incremental program makes exactly the greedy selection, of length min(k, n) |
| Blocking.KeysMeaning | khora/src/khora/_accel.py:269-280 | the scanner's state after the whole name holds exactly the prefix keys of the maximal alphanumeric runs of two or more characters |
| Blocking.NamePrefixKeys | khora/src/khora/_accel.py:262-280 | the one-pass program yields exactly those keys |
| Blocking.DocumentedKeysCondition | khora/src/khora/_accel.py:263-280 | for any set of letters and any lower-casing of strings that goes letter by letter except at contextual letters, all names over the letters get their documented keys exactly if no letter is contextual and lower-casing keeps each in its class (one alphanumeric character, or a separator); if no letter is alphanumeric, exactly if no two lower-case to adjacent alphanumeric characters |
| Blocking.SigmaIsContextual | khora/src/khora/_accel.py:263-274 | lower-casing a string in Python, with its final form of sigma, is of that kind, and the capital sigma is its one contextual letter |
| Blocking.PythonKeysCondition | khora/src/khora/_accel.py:263-280 | with it, the keys agree exactly if the capital sigma is not among the letters and the others keep their classes |
| Blocking.FinalSigmaDiffers | khora/src/khora/_accel.py:263-280 | a name ending in a capital sigma has another key as coded than as documented, although its letters keep their classes |
| Blocking.DottedCapitalSplits | khora/src/khora/_accel.py:263-280 | a name with a dotted capital I has one key as coded and two as documented |
| Blocking.RowsMeaning | khora/src/khora/_accel.py:373-382 | the all-pairs list holds every pair i < j at or above the threshold, once, in lexicographic order |
| Blocking.ScoreAllPairs | khora/src/khora/_accel.py:373-382 | the unblocked loops produce that list |
| Blocking.Invert | khora/src/khora/_accel.py:348-351 | the index lists a row under a key exactly when its name has that key |
| Blocking.Candidates | khora/src/khora/_accel.py:354-361 | the candidates of i are exactly the later rows that share a key with it |
| Blocking.ScoreCandidates | khora/src/khora/_accel.py:362-368 | scoring the sorted candidates gives the all-pairs row restricted to them |
| Blocking.ScoreBlocked | khora/src/khora/_accel.py:346-369 | the blocked path equals the all-pairs list filtered to pairs whose names share a key |
| Blocking.BlockAndScorePairs | khora/src/khora/_accel.py:341-382 | an error exactly for mismatched lengths, otherwise the list of the chosen path |
| Vectors.DotSymmetric | khora/src/khora/_accel.py:366-366 | the dot product is symmetric |
| Vectors.DotLinear | khora/src/khora/_accel.py:366-366 | and linear, by symmetry in each argument |
| Vectors.DotUnit | khora/src/khora/_accel.py:366-366 | and with a unit vector gives the coordinate, which determines it |
| Dedup.MatchesSymmetric | khora/src/khora/_accel.py:1988-1988 | signature agreement is symmetric |
| Dedup.SimilarMeaning | khora/src/khora/_accel.py:1988-1990 | two chunks are similar exactly if the number of positions at which their signatures agree is at least threshold*num_perm |
| Dedup.IdenticalSimilar | khora/src/khora/_accel.py:1988-1990 | identical full signatures are similar for every threshold up to 1 |
| Dedup.CanonicalDissimilar | khora/src/khora/_accel.py:1981-1993 | canonical chunks are pairwise below the threshold |
| Dedup.CanonicalMaximal | khora/src/khora/_accel.py:1981-1993 | no duplicate could be added to them |
| Dedup.CanonicalFirst | khora/src/khora/_accel.py:1981-1993 | of all pairwise dissimilar sets the canonical one is lexicographically first |
| Dedup.DeduplicatedUnique | khora/src/khora/_accel.py:1981-1993 | the marking is determined by: canonical exactly if no earlier canonical chunk is similar, otherwise pointing to the smallest such |
| Dedup.MarkDuplicates | khora/src/khora/_accel.py:1984-1991 | the inner loop marks the unmarked later chunks similar to i and nothing else |
| Dedup.Deduplicate | khora/src/khora/_accel.py:1979-1993 | the program computes that marking; every pointer goes to an earlier canonical chunk |
| BatchProcessor.Registration.FireResult | khora/src/khora/khora.py:453-462 | one delivery updates the counters, the callback log and the done flag exactly as the step system does |
| BatchProcessor.FireAccounts | khora/src/khora/khora.py:453-462 | a delivery to an open batch keeps its accounts and adds its document to the delivered ones |
| BatchProcessor.SubmittedAccounts | khora/src/khora/khora.py:2086-2150 | a new batch, early results delivered, still waits for exactly its pending documents |
| BatchProcessor.StepKeepsInv | khora/src/khora/khora.py:942-1033 | every step of every worker, failing or not, keeps each document in exactly one place |
| BatchProcessor.ExactlyOnce | khora/src/khora/khora.py:942-1317 | in every run: completed + remaining = total; the callback sees 1, 2, ... in order; done exactly at the last result; remaining = queued + in hand; every document accounted for once; at most max_concurrent in flight per batch |
| BatchProcessor.FailedCountsFailures | khora/src/khora/khora.py:942-1317 | the failure count is exactly the documents not stored at submission plus the load and processing failures delivered |
| BatchProcessor.TokensBounded | khora/src/khora/khora.py:155-180 | in every run of the processor the chunk tokens in flight are those held by workers inside a window, within capacity, and a release never underflows |
| BatchProcessor.TokensAvailable | khora/src/khora/engines/vectorcypher/engine.py:1215-1290 | if no worker is inside a window, a worker waiting for tokens can have them, whatever it asked for |
| BatchProcessor.NeverStuck | khora/src/khora/khora.py:942-1278 | a pool with a worker can always step until the queue is empty and all workers are idle, whatever the per-batch caps, the capacity of the chunk semaphore, the sizes of the windows and which documents are handed the semaphore |
| BatchProcessor.PoolRunBounded | khora/src/khora/khora.py:942-1033 | without new submissions the pool takes a bounded number of steps, chunk windows included |
| BatchProcessor.StrandedSinceSubmission | khora/src/khora/khora.py:2134-2150 | at every later point of every run what a batch has stranded is what its submission left unqueued |
| BatchProcessor.WaitReturns | khora/src/khora/khora.py:418-420 | in every run a batch submitted to a running processor, or with nothing pending, is done with one result per document once the pool cannot step |
| BatchProcessor.StrandedNeverDone | khora/src/khora/khora.py:2134-2150 | a batch submitted with documents pending to a processor that is not running, a submission that raises after its early callbacks, is not done at any later point of any run |
| BatchProcessor.WaitReturnsExactly | khora/src/khora/khora.py:2134-2150 | once the pool cannot step, a batch is done exactly if the processor was running at its submission or nothing was pending |
| BatchRuns.ResultsDelivered | khora/src/khora/khora.py:942-1317 | at every point of every run the callback of a batch has seen exactly these results in this order: a failure per document not stored at submission, a skip per one that needs no processing, then per document a failure, a skip if its row was gone, or a success |
| BatchRuns.QueueInOrder | khora/src/khora/khora.py:2146-2149 | first in, first out: what was enqueued is what workers took up, in order, followed by the queue |
| BatchRuns.WindowsInOrder | khora/src/khora/engines/vectorcypher/engine.py:1215-1290 | at every point of every run the windows a worker has left since it started the engine, in order, and those it still has to do make up its document's |
| BatchRuns.AllWindowsLeft | khora/src/khora/engines/vectorcypher/engine.py:1215-1295 | so a document is reported as processed only after all of its windows |
| BatchLimits.LimitedWindowsBounded | khora/src/khora/engines/vectorcypher/engine.py:1215-1222 | in every run whose submissions set a limit when they ask for one: a window of a document that limits its chunks holds exactly its size in tokens, capped at the capacity, any other none, and the limited windows of all batches together stay within the capacity |
| BatchLimits.FirstLimitWins | khora/src/khora/khora.py:2073-2084 | the capacity is the limit of the first submission that sets one |
| BatchLimits.SetupSinceSubmission | khora/src/khora/khora.py:2086-2109 | throughout a run a batch keeps the documents, the total and the cap it was submitted with |
| BatchLimits.BlockedExactly | khora/src/khora/khora.py:1162-1178 | a worker is blocked exactly if it is idle and the queue empty, waits for a permit while its batch has its cap in flight, or waits for tokens that do not fit |
| BatchLimits.PermitExactly | khora/src/khora/khora.py:1173-1178 | a permit is to be had exactly if the batch has fewer documents in flight than its cap |
| BatchLimits.FaultPermits | khora/src/khora/khora.py:1173-1178 | a failing document keeps its permit until its failure has been recorded; a fault outside the inner handler gives it back first |
| SubmitBatch.Classify | khora/src/khora/khora.py:1945-2071 | the loop fills the three lists with exactly the first occurrences that belong there, in order, and changes only the rows it queues |
| SubmitBatch.InMembers | khora/src/khora/khora.py:1948-2071 | a list holds a document exactly if it is a first occurrence with that placement, once |
| SubmitBatch.PlacesPartition | khora/src/khora/khora.py:2086-2089 | the three lists add up to the number of first occurrences, at least one for a non-empty submission |
| SubmitBatch.PlacedByStatus | khora/src/khora/khora.py:1963-2071 | by literal status: completed, in-progress and (unless asked for) archived documents need no processing; everything else is processed if it can be stored and has failed otherwise; failed and archived ones due again are cleared first |
| SubmitBatch.RepetitionsDropped | khora/src/khora/khora.py:1953-1961 | a repetition of an earlier external id is placed nowhere |
| SubmitBatch.RowsKeptByStatus | khora/src/khora/khora.py:1966-1993 | rows of completed, in-progress and (unless asked for) archived documents are unchanged whatever is submitted |
| SubmitBatch.UntouchableRowsKept | khora/src/khora/khora.py:1966-1993 | rows of completed, in-progress and (unless asked for) archived documents are unchanged |
| SubmitBatch.PendingRowsStored | khora/src/khora/khora.py:2023-2061 | every queued document has a pending row with the submitted content |
| SubmitBatch.ClearedMeaning | khora/src/khora/khora.py:1997-2038 | the documents whose earlier extraction is cleared first are exactly the ones due again that had failed or were archived, including those whose row then cannot be updated |
| SubmitBatch.SkippedNeverCleared | khora/src/khora/khora.py:1966-2002 | a skipped document is never among them |
| SubmitBatch.BatchCountsOnce | khora/src/khora/khora.py:1953-1961 | the batch counts each distinct document exactly once and its total is their number |
| ChunkSemaphore.TokensConserved | khora/src/khora/khora.py:155-180 | in every interleaving the tokens in flight are the sum of the outstanding grants and within capacity |
| ChunkSemaphore.ReleaseNeverUnderflows | khora/src/khora/khora.py:174-180 | giving back a grant never underflows |
| ChunkSemaphore.GrantMeaning | khora/src/khora/khora.py:164-172 | a waiter is let through exactly if what it asked for, capped at the capacity, is free, and is granted that |
| ChunkSemaphore.IdleEnablesAll | khora/src/khora/khora.py:164-172 | with nothing outstanding every waiter may proceed, whatever it asked for |
| ChunkSemaphore.BlockedMeansHeld | khora/src/khora/khora.py:164-180 | if no waiter may proceed, somebody holds tokens |
| ChunkSemaphore.Semaphore.Acquire | khora/src/khora/khora.py:164-172 | one pass of the wait loop grants the clamped request exactly when it fits |
| ChunkSemaphore.Semaphore.Release | khora/src/khora/khora.py:174-180 | an error, changing nothing, exactly when it would underflow; never for an outstanding grant |
| HashStore.FilesInvariant | src/indexing/hashStore.ts:84-98 | after any history the committed file is absent or holds the last committed table, and a readable temporary file holds the save cut short |
| HashStore.LoadIsAtomic | src/indexing/hashStore.ts:32-56 | with a crash between any two steps a load yields the last committed table or the one in flight, always the former once something was committed, and empty only if one of them is |
| HashStore.SavedIsLoaded | src/indexing/hashStore.ts:84-98 | a finished save is what every load yields until another save starts |
| HashStore.ReloadCondition | src/indexing/hashStore.ts:37-45 | loading twice yields the same table exactly if, before the first load, the committed file was readable, or the temporary file stays, does not parse or holds the empty table |
| HashStore.RecoveredOnceThenLost | src/indexing/hashStore.ts:37-45 | a first save cut short before its rename is recovered once and then gone |
| HashStore.Store.LoadFromDisk | src/indexing/hashStore.ts:32-47 | loads the recovered table and removes the temporary file if it can |
| HashStore.Store.SaveToDisk | src/indexing/hashStore.ts:84-98 | the file states after each prefix of the save's steps; nothing before the first load |
| Indexer.VaultIndexer.RememberWithRetry | src/indexing/indexer.ts:248-272 | at most three attempts, none if a stop was already requested; failure without a stop request means three refusals; the backend changes only on success |
| Indexer.VaultIndexer.ForgetMissing | src/indexing/indexer.ts:165-170 | exactly the tracked paths that are gone stop being tracked; the backend keeps one of them per failed call |
| Indexer.VaultIndexer.CollectChanged | src/indexing/indexer.ts:176-186 | collects the eligible, non-blank notes not tracked at their current hash, in order, unless a note cannot be read |
| Indexer.VaultIndexer.ChangedMembers | src/indexing/indexer.ts:176-186 | that list has exactly those notes and no path twice |
| Indexer.VaultIndexer.SendAll | src/indexing/indexer.ts:195-226 | all but the failed notes become tracked at their hash, nothing else changes, and the table stays in step with the backend; it stops only on request; without one every failed note was refused three times; if the saves succeed the saved table is the one in memory, after a stop too, and if one fails the committed table is at most ten notes behind |
| Indexer.VaultIndexer.FullIndex | src/indexing/indexer.ts:148-238 | whatever fails, every tracked hash matches the stored document and only eligible paths are tracked; the run completes unless a stop is requested, a note cannot be read or a save fails, and never in the latter two cases; a completed run tracks each eligible non-blank note at its current hash exactly if its sending did not fail, which without a stop takes three refusals; one leaked document per failed forget; the disk is untouched if every note was up to date, and a completed run otherwise leaves the table in memory saved |
| Indexer.VaultIndexer.FullIndexAndSavedTable | src/indexing/indexer.ts:165-190 | starting from a saved table, a completed run ends with memory and disk equal exactly if some note was not up to date or no tracked note had become ineligible |
| Indexer.VaultIndexer.DroppedPathStaysSaved | src/indexing/indexer.ts:165-190 | emptying the vault leaves a dropped path in the saved table, which is then out of step with the backend |
| Indexer.VaultIndexer.NothingChangedExactly | src/indexing/indexer.ts:176-190 | there is nothing to send exactly if every eligible non-blank note was tracked at its hash before ineligible paths were dropped |
| Indexer.VaultIndexer.AllTracked | src/indexing/indexer.ts:200-223 | after a complete pass the failed notes are exactly those not tracked at their current hash |
| Indexer.VaultIndexer.ReindexOne | src/indexing/indexer.ts:320-338 | one note is stored, tracked and, unless the save fails, saved together or not at all: exactly if the client is ready, the note is readable, not blank and not tracked at its hash, and the backend accepts it |
| Indexer.VaultIndexer.HandleDelete | src/indexing/indexer.ts:340-350 | the path is untracked whether or not the backend forgot it, and the table saved unless that fails |
| Indexer.VaultIndexer.HandleRename | src/indexing/indexer.ts:352-355 | the old path is untracked; an eligible, readable, non-blank note the backend accepts ends up tracked and stored under its new path; only the two paths are affected, and the table stays in step |
| StreamProxy.LinesRoundTrip | sidecar/uru_sidecar/proxy.py:201-203 | the newline-terminated lines and the tail make up the stream, and contain no newline |
| StreamProxy.LinesResume | sidecar/uru_sidecar/proxy.py:201-203 | splitting can be resumed from the buffered tail |
| StreamProxy.DrainLines | sidecar/uru_sidecar/proxy.py:202-217 | the buffer loop folds over the buffered lines and keeps the tail |
| StreamProxy.StripMeaning | sidecar/uru_sidecar/proxy.py:204-204 | stripping removes all white space at both ends of a line and nothing else |
| StreamProxy.TruthyMeaning | sidecar/uru_sidecar/proxy.py:208-214 | everything counts as true but null, false, zero and the empty string, list and object |
| StreamProxy.EventCollected | sidecar/uru_sidecar/proxy.py:204-215 | for literal bytes and keys: an event adds the non-empty string content of its first choice's delta and takes over its non-empty finish reason; empty, null or missing ones change nothing |
| StreamProxy.OtherLinesIgnored | sidecar/uru_sidecar/proxy.py:204-206 | a line without "data: " in front or with "[DONE]" at its end changes nothing |
| StreamProxy.NoChoicesIgnored | sidecar/uru_sidecar/proxy.py:208-215 | an event with missing, null or empty choices changes nothing |
| StreamProxy.OneTokenCollected | sidecar/uru_sidecar/proxy.py:198-215 | a stream of one token yields that token, down to a single character |
| StreamProxy.LineMeaning | sidecar/uru_sidecar/proxy.py:204-217 | a line adds its delta's content and replaces the finish reason if it has one |
| StreamProxy.CollectedMeaning | sidecar/uru_sidecar/proxy.py:198-217 | what is collected is the content of every event line in order and the finish reason of the last line with one |
| StreamProxy.FeedMeaning | sidecar/uru_sidecar/proxy.py:198-217 | buffering chunk by chunk yields the fold over the lines of the whole stream; all chunks are forwarded, or exactly those up to the first at which a complete line has raised |
| StreamProxy.Upstream | sidecar/uru_sidecar/proxy.py:198-217 | for every chunking the program makes those steps: its outcome is the fold over the lines of the whole stream, and all chunks are forwarded unless a line raises, then those up to it |
| StreamProxy.ChunkingIrrelevant | sidecar/uru_sidecar/proxy.py:198-217 | the chunk-by-chunk steps of two ways of cutting a stream collect the same and, unless a line raises, forward the same bytes and keep the same tail |
| StreamProxy.AbortExactly | sidecar/uru_sidecar/proxy.py:204-217 | the lines abort exactly if one of them is an event whose decoding raises past the handler, or an object whose choices is truthy and neither a list nor a string |
| StreamProxy.ForwardingCondition | sidecar/uru_sidecar/proxy.py:207-217 | every chunking forwards the whole stream exactly if no raising line is followed by another line or a tail |
| StreamProxy.NumericChoicesAbort | sidecar/uru_sidecar/proxy.py:208-217 | an event whose choices is a non-zero number aborts, and whatever follows it in a chunk of its own is not forwarded |

## Left out

- Rust and NumPy tiers of the kernels, and float rounding: only the pure-Python branches are modelled, over the reals.
- Reciprocal rank fusion, score normalisation, vector normalisation and the batch wrappers: they would only add easy members.
- MinHash signatures and shingling in chunk deduplication: signatures are inputs; a permutation count of zero, which divides by zero, is excluded.
- Lower-casing, character classes, JSON text decoding, content hashing, frontmatter stripping and glob matching: parameters of the models.
- Temporal keywords, entropy, recency and sequence-match scoring: table data, transcendental functions or library calls.
- Engines (but for the order in which chunk tokens are taken and given back), storage coordinator, orphan claiming and telemetry behind the batch processor: success or failure of each awaited call.
- Cancelling the worker pool: it ends a run; restarting after it is not modelled.
- Fairness of the semaphores: which waiter goes next is arbitrary, so starvation is not excluded.
- Forced re-index, overlapping vault operations, lost responses and what a restart does to the tracked-implies-stored relation: one session of unforced operations is modelled.
- Client disconnects and upstream errors in the middle of a stream, and the log record written at the end.
- PageRank.Rank: negative edge weights are accepted by the program, but the mass and error bounds are stated for non-negative ones.
- Plugin user interface, bootstrap, process management and HTTP serving.
