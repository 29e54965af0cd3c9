# A verified model of the exact-verification kernel and the comparison worker

The lab searches for counterexamples to the Erdős–Gyárfás conjecture: connected graphs of minimum degree at least
three with no cycle whose length is a power of two. This project models, in Dafny, the part of it whose answers have
to be exact, and proves what those answers mean.

* **Cycle engines.** Five programs look for simple cycles of an exact length: the reference search, the bounded
  enumeration, the score worker's explicit-stack counter over two shared buffers, the native checker's timed search,
  and the subset dynamic programming. All are proved against one definition (`Cycles.IsCycle`, and `IsCanonical` for
  the one list that stands for an undirected cycle), and so against each other.
* **Cutoff scoring.** The score worker's early exit, with its 32-bit sums written out, is pinned for every request it
  accepts: its verdict is the cutoff test on the full, uncut sums with the weighted one modulo 2^32, in either order of
  lengths; a dominated verdict is always right, and the exact case where the other one is not is given.
* **Frames and calls.** The lab's cached, packed request and the worker's field-by-field reader are proved inverse, the
  worker's response and the lab's validation likewise, and with the scoring in between this says what one call returns.
* **SAT refinement.** The edge variables, the cardinality clauses, the DPLL solver, the component splitter, the learned
  clauses and the loop around them, up to: unsatisfiable means there is no counterexample of that order, with a log of
  learned records that proves it, and a candidate is one.
* **graph6 and certification.** The encoder and both parsers, the decision over the reference verifier's and the
  untrusted native checker's answers, and the whole certificate of a graph from its encoding on.
* **Comparison worker.** Inference reservations under a hard cap, worker leases and crash recovery as steps over shared
  tables in any interleaving, one arm's execution on those tables with a possible fault at every step, the loop over
  arms, and the order a suite puts its arms in.

A row of a graph is the set of the positions of its one bits; `bits & -bits` is then the least member. Code that works
step by step is written as methods and classes over the same state (paths, buffers, clause lists, tables), each proved
against a function or predicate; what the program promises is proved about those as lemmas.

`dafny verify dfyconfig.toml` checks the whole project.

## Where the code does not do what it says

Each of these is kept as the code has it, with a concrete case and the exact condition under which the promise holds.

* A bounded enumeration with a limit of zero or less reports itself complete without looking
  (`src/sglab/model.py:281-282`). `complete` means "every cycle is listed" if and only if the limit is positive or there
  is no cycle to list (`Enumeration.CompleteMeansEveryCycle`; `ZeroLimitClaimsCompleteness` shows a triangle).
* A worker reads the clock for its lease before its transaction begins (`src/sglab/comparison_worker.py:867-871`) and
  then looks only at the latest unreleased lease of the suite. Letting it in keeps that row the one to look at if and
  only if its stamp is later than every open lease's (`Leases.AcquireKeepsGuardIff`). An acquirer that stalls can break
  it, and then two leases of one suite can count at once: from a guarded table exclusion survives a let-in if and only
  if its stamp is later (`StampDecidesExclusion`; `StalledAcquirerBreaksExclusion` is a run from an empty table with the
  default limits). Every run that meets the condition at each let-in is safe (`StampedLaterRunsAreSafe`), among them
  every run whose acquirers commit within the lease term of their stamp (`PromptRunsAreSafe`).
* A suite keys an ungrouped arm by `independent-` and its index (`src/sglab/comparisons.py:496`), which may be the name
  of a real conversation. A conversation's arms stay contiguous if and only if no such key collides with the name of a
  conversation that has arms on both sides of it (`SuiteOrder.ContiguousIffNoIntruder`; `CollidingNameSplits`).
* The lab allows a score request with limit 1 (`src/sglab/score_worker.py:335`), the worker requires 2
  (`cpp/sglab_score_worker.cpp:227`). The worker refuses such a request after its header, leaves the payload unread,
  and ends at its next turn (`Frames.LimitOneEndsWorker`); `Frames.CallDelivered` is the exact condition.
* The worker answers a refused request under the number 0, because reading fails before the number is kept
  (`cpp/sglab_score_worker.cpp:336-338`). The lab compares numbers before statuses (`src/sglab/score_worker.py:228-249`)
  and so reports an invalid header, never that the request was rejected (`Responses.RefusalReceived`).
* The worker's penalty sums are 32-bit. A dominated verdict is right all the same (`Scoring.DominatedIsTrue`); the other
  verdict is right if and only if it is not the case that the total ties the cutoff's while the weighted sum has passed
  2^32 to the wrong side (`Scoring.VerdictRightIff`; `CompleteGraphs.DenseGraphIsMissed` is a request and a graph of 84
  vertices). The search's own requests stay far below (`SearchRequestsFit`).
* The worker looks for its threshold with a 32-bit counter up to a limit that may be 2^32 - 1
  (`cpp/sglab_score_worker.cpp:377-379`). That loop never ends if and only if the greatest total a count can make does
  not reach the cutoff (`Scoring.HangsIff`), which needs a cutoff total of at least 2^32 - 2 (`ScoredAnswers`,
  `NeverAnswers`).
* A checker that runs out of memory says so and exits with 1 (`cpp/sglab_cyclecheck.cpp:231-242`); the lab reads the
  message and then lets the exit code overrule it (`src/sglab/certification.py:99-118`), so a memory failure is reported
  as a tool failure. It is reported as one of memory if and only if the run exits normally
  (`Certification.AllocationMessageIsMemoryIff`, `OutOfMemoryIsToolFailure`).
* An arm's reservation is made before the block that releases it on a fault
  (`src/sglab/comparison_worker.py:1083-1091`). With the steps of an execution numbered from 0, a fresh arm reserves at
  step 6 and a resumed one at step 7. The row stays outstanding after its arm has ended if and only if the arm gets
  there and is admitted, and the reserving step fails after its commit, or one of the next three fails, or the turn
  consumes nothing and the release after it fails before its commit (`ArmExecution.Stranded`, `Run.Execute`).
  `StrandOne` is such an execution: a fault at step 8 leaves an authorization for one start exhausted with nothing
  started. Each such row costs one arm (`Reservations.StrandedRowsCost`).
* The lab writes and reads graphs of up to 258047 vertices, the checker takes 128 (`cpp/sglab_cyclecheck.cpp:124`). Above
  that every admissible graph is certified a tool failure, and up to it certificates are exact unless a clock is late
  (`Certification.CertifyGraph`).
* The lab's graph6 reader does not range-check order bytes, so it takes texts the checker refuses
  (`Graph6Parsers.HighOrderIsAccepted`), and texts that do not encode back to themselves (`LongFormIsShortened`): an
  accepted text is its graph's encoding if and only if its order is in the shortest form with bytes in range
  (`ReencodesExactly`).

## Model

| member | source | states |
|---|---|---|
| Graphs.FromEdges | src/sglab/model.py:40-52 | An edge list is refused with the first complaint in list order (endpoint, loop, duplicate in either direction); otherwise the graph has exactly the listed edges, both ways. |
| Graphs.EdgeListAcceptedIff | src/sglab/model.py:40-52 | An edge list is accepted if and only if every endpoint is in range, no edge is a loop, and none is listed twice in either direction. |
| Graphs.Lowest | src/sglab/model.py:69-75 | The lowest set bit is a member, and no member is smaller. |
| Graphs.ClosedProperSetDisconnects | src/sglab/sat.py:100-104 | A vertex set with a vertex inside, one outside and no edge leaving it disconnects the graph. |
| Cycles.ExtendTrail | src/sglab/model.py:217-224 | The masked neighbour bits of the last vertex are exactly the vertices that extend a simple path through larger vertices than its start. |
| Cycles.NoLongCycle | src/sglab/model.py:210-211 | No cycle is shorter than three or longer than the order. |
| Cycles.RotateToLeast | src/sglab/model.py:206-214 | Every cycle rotates to one of the same edges that starts at its least vertex, so forcing the start loses none. |
| Cycles.Canonicalize | src/sglab/model.py:292-320 | Every cycle has a canonical list with the same edge set: least vertex first, second vertex below the last. |
| Cycles.CanonicalUnique | src/sglab/model.py:292-320 | Two canonical lists with the same edge set are the same list. |
| Preorder.AllTrailsCharacterized | src/sglab/model.py:288-312 | The depth-first order is the lexicographically ascending list of all simple paths of at most k vertices through larger vertices than their start. |
| Preorder.AllCyclesCharacterized | src/sglab/model.py:288-312 | The closing full-length paths of that order are exactly the canonical cycles of length k, ascending. |
| Preorder.AllCyclesOncePerCycle | src/sglab/model.py:268-322 | Every undirected cycle of length k is listed, and no two entries have the same edge set. |
| Preorder.HasCycleIffListed | src/sglab/model.py:268-322 | The list is nonempty exactly when the graph has a cycle of the length. |
| Preorder.ScanReadsPrefix | src/sglab/model.py:292-322 | A bounded scan reads a prefix of the order, and what stopped it (limit, budget, end) fixes which. |
| Preorder.BoundedMeaning | src/sglab/model.py:268-322 | The result is a prefix of the full list; without exhaustion its size is the smaller of limit and total; below the limit it is the full list; nodes never exceed budget + 1, and exhaustion means the budget really was too small. |
| Preorder.ScanThreshold | cpp/sglab_score_worker.cpp:111-198 | Lowering the limit to e cuts the list at e, and changes nothing at all when fewer than e are found. |
| Enumeration.BoundedSearch.Arrive | src/sglab/model.py:292-304 | The head of a recursive call does one visit of the order and descends exactly when the path is short and nothing has stopped the search. |
| Enumeration.BoundedSearch.Dfs | src/sglab/model.py:292-311 | One recursive call advances found list, node count and exhaustion flag by a scan of exactly the current path's subtree, and hands the path back unchanged. |
| Enumeration.FindCyclesBounded | src/sglab/model.py:268-322 | For every argument: an error exactly for a budget below one that is not preceded by an early return, and otherwise the report that the rest of the model speaks about: the early empty reports, or the scan of the whole order with complete set from limit and exhaustion. |
| Enumeration.ReportSound | src/sglab/model.py:268-322 | Listed cycles are real, canonical, of the right length and pairwise different as undirected cycles, within limit and budget. |
| Enumeration.CompleteMeansEveryCycle | src/sglab/model.py:281-322 | A report that says complete lists every cycle if and only if the limit was positive or there is none. |
| Enumeration.CompleteIff | src/sglab/model.py:281-322 | A search that is made at all ends complete if and only if there are fewer cycles than the limit and no more search paths than the budget; it then lists all of them and has visited every path, and otherwise limit or budget is used up. |
| Enumeration.ZeroLimitClaimsCompleteness | src/sglab/model.py:281-282 | A triangle enumerated with limit 0 is reported complete with the triangle missing. |
| CountCycles.PendingTake | cpp/sglab_score_worker.cpp:137-192 | Taking the least available vertex off the top level exposes the next path of the depth-first order, followed by the rest. |
| CountCycles.WorkTakes | cpp/sglab_score_worker.cpp:137-192 | One pass of the inner loop visits the next path, keeps stack and buffers in step, and shrinks the remaining work. |
| CountCycles.TakeVertex | cpp/sglab_score_worker.cpp:137-192 | The step on the shared buffers: the least available vertex is taken off and visited; the scan then ends there, stays on the level, or goes one level down with the buffers in step, and less work is left. |
| CountCycles.CountFrom | cpp/sglab_score_worker.cpp:125-194 | One start vertex advances count, nodes and exhaustion by the scan of its subtree, whatever the buffers held; every buffer index is below the length. |
| CountCycles.Count | cpp/sglab_score_worker.cpp:111-198 | The whole count is read off the bounded scan of the order, with the threshold as limit, for arbitrary stale buffers. |
| CountCycles.CountMatchesEnumeration | cpp/sglab_score_worker.cpp:111-198 | Without a threshold the iterative counter and the recursive enumeration report the same count, completeness and visited nodes. |
| CountCycles.CompleteCountIff | cpp/sglab_score_worker.cpp:154-198 | Without a threshold a count is complete if and only if there are fewer cycles than the limit and the search paths fit the node budget, 0 being none; it is then the number of all cycles of the length. |
| CountCycles.ThresholdIsExact | cpp/sglab_score_worker.cpp:154-176 | A threshold up to the limit is reported exactly when the unstopped count reaches it, with that count; otherwise the two results are equal. |
| CountCycles.CountIsBounded | cpp/sglab_score_worker.cpp:154-176 | Counts stay within the limit and nodes within budget + 1, so neither counter wraps around. |
| Existence.HopelessStartsMeanNoCycle | src/sglab/model.py:213-240 | When no path from a least start completes, there is no cycle of the length at all. |
| Existence.Search.Dfs | src/sglab/model.py:217-235 | A call returns a completion of the current path or proves there is none; path and visited set come back as they were. |
| Existence.FindCycleOfLength | src/sglab/model.py:203-240 | A returned list is a simple cycle of exactly that length, and None means there is none, for every length. |
| Existence.TimedSearch.Expired | cpp/sglab_cyclecheck.cpp:31-42 | Only a timed search counts nodes, and the timeout is set if and only if it was set before or the clock reading at a multiple of 1024 is past the limit. |
| Existence.TimedSearch.Dfs | cpp/sglab_cyclecheck.cpp:44-77 | Found carries a completion; not found without a timeout proves there is none; a timeout is a late clock reading at a multiple of 1024, and without one the nodes counted are exactly those the subtree needs, with no reading late. |
| Existence.TimedSearch.Run | cpp/sglab_cyclecheck.cpp:79-93 | Found is a real cycle of the target length; neither found nor timed out means there is none; it times out if and only if the clock is late at some multiple of 1024 within the nodes the search needs. |
| Existence.NodesNeededMeaning | cpp/sglab_cyclecheck.cpp:44-93 | The nodes a search needs: with no cycle of the length every search path there is, otherwise those up to the first full-length path that closes, which is such a cycle. |
| Existence.CheckLengths | cpp/sglab_cyclecheck.cpp:205-230 | Exact under any clocks: TIMEOUT for the first length whose clock is late, FOUND with a real cycle for the first that has one, ABSENT with neither. A timeout needs a late reading at a positive multiple of 1024 and no earlier cycle; clocks that never expire give a verdict that is right. |
| Existence.TimeoutIff | cpp/sglab_cyclecheck.cpp:205-230 | The verdict is a timeout if and only if some length has a late clock while no length before it has a cycle or a late clock. |
| SubsetDp.FirstTable | src/sglab/verification.py:13-21 | The first table has exactly the keys realised by single edges from the start. |
| SubsetDp.RoundTabulates | src/sglab/verification.py:22-33 | If the keys are exactly the (visited set, last vertex) pairs some path of m vertices realises, one round makes them so for m + 1. |
| SubsetDp.NextTable | src/sglab/verification.py:22-33 | One round does that, whatever order the dictionary is walked in. |
| SubsetDp.FindCycleDynamic | src/sglab/verification.py:10-37 | The same answer contract as the depth-first search: a simple cycle of the length, or proof there is none. |
| Verify.ForbiddenLengths | src/sglab/targets/erdos_gyarfas.py:27-33 | The list is exactly the powers of two from 4 to n, increasing, empty exactly below 4. |
| Verify.ForbiddenLengthIs | src/sglab/targets/erdos_gyarfas.py:27-33 | A length is forbidden if and only if it is 2^e for some e of at least 2 and at most n. |
| Verify.IsConnected | src/sglab/model.py:85-99 | True if and only if every two vertices are joined by a walk, the empty graph included. |
| Verify.MinimumDegree | src/sglab/model.py:63-64 | The least row size, attained by some vertex; 0 for the empty graph. |
| Verify.CounterexampleMeaning | README.md:7-8 | What the verifiers certify is the conjecture's own wording: no cycle whose length is a power of two. |
| Verify.VerifyReference | src/sglab/targets/erdos_gyarfas.py:233-280 | VERIFIED exactly for counterexamples, REJECTED with a real forbidden cycle, INVALID exactly for graphs that are empty, disconnected or of low degree. |
| Verify.VerifyDynamic | src/sglab/verification.py:40-65 | The same three-way verdict from the independent detector. |
| Verify.StatusesAgree | src/sglab/verification.py:40-65 | Two verdicts that are each right about a graph are of the same kind. |
| Scoring.CutoffReachedIsDominated | cpp/sglab_score_worker.cpp:268-290 | The nested comparison is lexicographic order on (total, weighted, simplicity), with equality when inclusive. |
| Scoring.CutoffMonotone | cpp/sglab_score_worker.cpp:353-354 | A reached cutoff stays reached as penalties grow. |
| Scoring.SearchRequestsFit | src/sglab/search.py:109-110 | Limits up to 10001 and at most 64 lengths keep every 32-bit sum exact. |
| Scoring.CountEdges | cpp/sglab_score_worker.cpp:342-349 | Half the 32-bit sum of the row sizes is the number of pairs u < v that are edges. |
| Scoring.DegreeSumIsTwiceSize | cpp/sglab_score_worker.cpp:342-349 | The row sizes add up to twice the number of edges: every edge is two arcs, and no arc is counted twice. |
| Scoring.WeightMeaning | cpp/sglab_score_worker.cpp:373-374 | The weight of a length is the greatest number of copies of it that 64 has room for, and at least 1. |
| Scoring.PenaltyMeaning | cpp/sglab_score_worker.cpp:401-403 | A penalty is below the limit and at most the number of cycles of its length; when the search paths fit the node budget it is that number, capped one below the limit. |
| Scoring.StopAtCount | cpp/sglab_score_worker.cpp:375-391 | The least count at which this length alone reaches the cutoff, 0 when none does, and none at all exactly when the loop is back at its top after any number of rounds of its 32-bit counter. |
| Scoring.LengthDecided | cpp/sglab_score_worker.cpp:364-391 | The threshold in terms of the true sums: with one found within the full count, the first count of all that reaches the cutoff modulo 2^32; with none, no count of this length does; with none to be found, the loop hangs. |
| Scoring.EvaluateLength | cpp/sglab_score_worker.cpp:364-408 | One loop pass with thresholds, shared buffers and 32-bit sums hangs, cuts the length at that first count, or adds its full record. |
| Scoring.Evaluate | cpp/sglab_score_worker.cpp:353-409 | For every accepted request the loop leaves the one evaluation there is: endless, every length in full with no count at the cutoff, or cut at the first length and count that reach it, with full records before. |
| Scoring.EvaluatedOnce | cpp/sglab_score_worker.cpp:353-409 | A graph, a request and an order of lengths have one evaluation: verdict and records, partial ones included, are determined. |
| Scoring.DominatedIsTrue | cpp/sglab_score_worker.cpp:353-409 | A dominated verdict is right, whatever has wrapped around: wrapped sums never exceed the true ones. |
| Scoring.VerdictIsTrip | cpp/sglab_score_worker.cpp:353-409 | Every answered request, none left out, is declared dominated exactly when at some count of some length the sums modulo 2^32 reach the cutoff. |
| Scoring.VerdictIsWrapped | cpp/sglab_score_worker.cpp:353-409 | For every answered request whose cutoff total is below 2^32 - 1 or whose total is below 2^32, the verdict is the cutoff test on the full sums with the weighted one modulo 2^32. |
| Scoring.VerdictRightIff | cpp/sglab_score_worker.cpp:353-409 | The verdict is that of the true key if and only if not both: the total equals the cutoff's, and the weighted sum reaches 2^32 and its remainder falls short of the cutoff. |
| Scoring.MissedCutoff | cpp/sglab_score_worker.cpp:401-403 | A request whose candidate is dominated and declared not to be, for any graph with that penalty: 357913942 cycles of length 5, of weight 12 each, count as 8. |
| CompleteGraphs.PathsWithin | cpp/sglab_score_worker.cpp:111-198 | A search of n vertices meets at most n + n^2 + ... + n^k paths of up to k vertices. |
| CompleteGraphs.FromStartHits | cpp/sglab_score_worker.cpp:125-194 | A lower bound on the five-cycles a search of a complete graph reports from a start on, summed over second vertices. |
| CompleteGraphs.DensePenalty | cpp/sglab_score_worker.cpp:401-403 | On the complete graph of 84 vertices the search finds the limit of 357913943 five-cycles within the node budget of 2^32 - 1. |
| CompleteGraphs.DenseGraphIsMissed | cpp/sglab_score_worker.cpp:353-409 | The worker accepts that request for that graph, the candidate is dominated, and every answer says it is not. |
| Scoring.HangsIff | cpp/sglab_score_worker.cpp:377-390 | The exact condition under which the search for a threshold never ends, as one test on the partial sums. |
| Scoring.ScoredAnswers | cpp/sglab_score_worker.cpp:377-390 | Below the limit 2^32 - 1, without a cutoff, or with a cutoff total below 2^32 - 2, every request is answered. |
| Scoring.NeverAnswers | cpp/sglab_score_worker.cpp:377-390 | With the greatest limit and the greatest cutoff total there are, no request that names a length is. |
| Scoring.RecordsAreCounts | cpp/sglab_score_worker.cpp:404-422 | Every answer's records stand in increasing order of length, each for a requested length, and each the full count of this graph or cut at its threshold; compact dominated answers are empty. |
| Scoring.RecordsAreTriedFirst | cpp/sglab_score_worker.cpp:351-422 | The lengths an answer has records for are the shortest ones asked for, or the longest ones when those are tried first. |
| Scoring.FullRecords | cpp/sglab_score_worker.cpp:404-422 | A candidate that is not declared dominated gets the full record of every requested length, whatever has wrapped around. |
| Scoring.SortAnswer | cpp/sglab_score_worker.cpp:410-421 | Sorting the records of either evaluation order gives increasing lengths. |
| Scoring.Score | cpp/sglab_score_worker.cpp:339-422 | The answer to every accepted request: the one evaluation of its lengths in the requested order, with the records sorted or, of a compact dominated answer, dropped. |
| Scoring.FittingAnswer | cpp/sglab_score_worker.cpp:339-422 | A request whose sums fit is answered: dominated exactly when the uncut evaluation's key is above the cutoff (or on an inclusive one), and otherwise with the full counts in increasing order of length. |
| Scoring.OrderDoesNotMatter | cpp/sglab_score_worker.cpp:351-363 | Requests that differ only in the order flag get the same verdict, and the same records when not dominated, whether or not the sums fit. |
| Frames.ReadBack | src/sglab/score_worker.py:26-29 | Reading the widths of any packed record gives its values back and stops right after it. |
| Frames.WordRow | cpp/sglab_score_worker.cpp:258-264 | The bits of a machine word are the members of the row in its range. |
| Frames.Worker.PreparePlan | src/sglab/score_worker.py:307-379 | Over any sequence of calls and flag changes the plan returned, cached or not, is the one a fresh build gives, errors included. |
| Frames.PutRows | src/sglab/score_worker.py:167-173 | The packing loop at a moving offset appends the rows' words in order and touches nothing after them. |
| Frames.PackPayload | src/sglab/score_worker.py:164-173 | The buffer ends as lengths, then rows, then zeros up to the announced size. |
| Frames.RequestFields | src/sglab/score_worker.py:171-193 | The request a call stands for has the call's own limit, budget and lengths, its cutoff in the order total, weighted, simplicity with the inclusive flag, and the cutoff, longest-first and compact flags exactly when a cutoff is given. |
| Frames.CallSentIff | src/sglab/score_worker.py:142-198 | Exactly which calls are sent: a process there or startable, bounds from 1 to 2^32 - 1, at most 64 increasing lengths from 3 to the order, cutoff fields that fit 32 bits, compact only with a cutoff, at most 65536 bytes in all. |
| Frames.Worker.Pack | src/sglab/score_worker.py:142-205 | Either the first complaint of plan, process and packing, or the frame of the graph and the request the call stands for; the request number advances, and the process is running, exactly when the plan was made and a process was there or could be started. |
| Frames.Stream.Fields | cpp/sglab_score_worker.cpp:49-83 | Reading fields in order gives their little-endian values and the rest of the stream; a short stream is left empty. |
| Frames.Stream.Lengths | cpp/sglab_score_worker.cpp:246-256 | The lengths loop follows the reading function, with its range and increase checks after each read. |
| Frames.Stream.Rows | cpp/sglab_score_worker.cpp:257-265 | The rows loop likewise, one or two words a row. |
| Frames.Stream.ReadRequest | cpp/sglab_score_worker.cpp:200-266 | The parsed request or the first refusal, and exactly what is left unread. |
| Frames.BodyFaultMeaning | cpp/sglab_score_worker.cpp:216-245 | Exactly which request bodies pass, and which refusal each other one meets, in terms of the twelve fields read. |
| Frames.Stream.Next | cpp/sglab_score_worker.cpp:317-341 | One turn of the serving loop: end, crash on a truncated prefix, refusal or request, and what is left unread. |
| Frames.EndsCleanlyIff | cpp/sglab_score_worker.cpp:317-333 | The worker ends cleanly if and only if its input is at its end, or it reads a quit request of the right version with no payload. |
| Frames.FrameRoundTrip | cpp/sglab_score_worker.cpp:200-266 | Every request the worker allows, of order 4 to 128, is read back from its frame with the same number, fields, lengths and rows, leaving the next frame. |
| Frames.CallDelivered | src/sglab/score_worker.py:335-356 | A call that passes the lab's own checks reaches the worker whole exactly when the order is 4 to 128 and the limit at least 2; otherwise it is refused with its payload unread. |
| Frames.PayloadIsNoFrame | cpp/sglab_score_worker.cpp:318-325 | No payload can be mistaken for the start of a frame. |
| Frames.LimitOneEndsWorker | cpp/sglab_score_worker.cpp:227-237 | After a request with limit 1 the worker's next turn ends it. |
| Responses.WriteResponse | cpp/sglab_score_worker.cpp:292-312 | The record loop writes magic, header and the 24 bytes of each record in order. |
| Responses.Receive | src/sglab/score_worker.py:211-286 | The first complaint of the check sequence (short read, header, status, record flags, lengths), or the response with every record's fields. |
| Responses.TakenResponse | src/sglab/score_worker.py:211-286 | The bytes of a response that is taken, field by field at their offsets: magic, version, status, the lab's own number, count, reserved field and size; and the lengths it may list. |
| Responses.ResponseReceived | src/sglab/score_worker.py:229-286 | Any response the worker writes is taken exactly when it carries the lab's own number, a known status and lengths the lab asked for, and then its records come back unchanged; otherwise the complaint is determined. |
| Responses.AnswerAllowed | src/sglab/score_worker.py:248-286 | Every answer the worker gives to a request it accepted passes that validation. |
| Responses.RefusalReceived | cpp/sglab_score_worker.cpp:336-338 | A refused request is answered under the number 0, so the lab sees an invalid header and not a rejection. |
| Responses.Serve | cpp/sglab_score_worker.cpp:318-425 | One turn of the worker: a refusal's error response, the response of the one evaluation of the graph that was sent, or nothing when the evaluation never ends. |
| Responses.Score | src/sglab/score_worker.py:130-299 | One call from end to end, for every graph and argument: its own complaint, an invalid header exactly for orders outside 4 to 128 or a limit of 1, no response when endless or late, otherwise the worker's answer unchanged, judged on the call's own fields (`Responses.ResponseJudges`). |
| Responses.ResponseJudges | src/sglab/score_worker.py:130-299 | On the call's own fields: dominated only if the key lies above the cutoff, or on an inclusive one, never without a cutoff, and always then when the sums fit; records counted under the call's limit and budget, for the lengths tried first; none when compact and dominated. |
| Responses.CallIsAnswered | src/sglab/score_worker.py:130-299 | A call in time, of order 4 to 128 and with a limit from 2 to below 2^32 - 1, is always answered. |
| Responses.ResponseIsTrue | src/sglab/score_worker.py:43-47 | What a returned response means: a record marked complete has the number of all cycles of its length; a candidate not declared dominated has a record for each length asked for; a dominated one has a key at or beyond the cutoff. |
| EdgeVariables.VariableInjective | src/sglab/sat.py:32-38 | Distinct pairs have distinct variables. |
| EdgeVariables.VariableSurjective | src/sglab/sat.py:32-41 | Every variable from 1 to n(n-1)/2 is some pair's. |
| EdgeVariables.EdgeOf | src/sglab/sat.py:43-48 | The inverse: it succeeds exactly in range, with the one pair of that variable. |
| EdgeVariables.DecodeModel | src/sglab/sat.py:107-117 | Decoding never fails, and the graph has exactly the edges whose variable is a positive literal of the model. |
| BaseCnf.SubsetsHit | src/sglab/sat.py:62-65 | Every k-subset of d literals holds a true one exactly when more than d - k are true (or there is no such subset). |
| BaseCnf.DegreeClausesMeaning | src/sglab/sat.py:58-65 | The degree clauses hold exactly when every row has at least three neighbours. |
| BaseCnf.BaseClausesMeaning | src/sglab/sat.py:51-68 | For every n at least 4 the base clauses hold of exactly the graphs of minimum degree three with the edge {0, 1}. |
| BaseCnf.BaseClausesInRange | src/sglab/sat.py:51-68 | Every literal is a nonzero variable in range. |
| BaseCnf.BuildCycleClause | src/sglab/sat.py:71-78 | A witness is refused exactly when it is too short or repeats a vertex. |
| BaseCnf.CycleClauseMeaning | src/sglab/sat.py:71-78 | A cycle clause holds of exactly the graphs that miss an edge of the cycle. |
| BaseCnf.ConnectednessClauseMeaning | src/sglab/sat.py:100-104 | A connectedness clause holds of exactly the graphs with an edge leaving the component. |
| Dpll.SimplifyMeaning | src/sglab/sat.py:158-165 | Under a valuation that makes the literal true, simplifying changes no clause list's truth. |
| Dpll.SimplifyShrinks | src/sglab/sat.py:158-165 | Simplifying never grows the total clause size and strictly shrinks it when the literal or its negation is struck. |
| Dpll.SimplifyUnassigned | src/sglab/sat.py:158-165 | Afterwards the variable is gone and no new literal has appeared. |
| Dpll.FirstUnit | src/sglab/sat.py:129-129 | The unit found is the first one-literal clause's, and none means there is no such clause. |
| Dpll.Shortest | src/sglab/sat.py:139-139 | The branching clause is the first of the shortest. |
| Dpll.UnitForced | src/sglab/sat.py:126-136 | A unit clause loses no model. |
| Dpll.BranchesCover | src/sglab/sat.py:139-147 | If both branches are unsatisfiable, so is the list. |
| Dpll.Recurse | src/sglab/sat.py:123-147 | A returned assignment extends the given one and satisfies the clauses under every completion; None means unsatisfiable; remaining clauses never mention an assigned variable, so the conflict test never fires; total size strictly decreases. |
| Dpll.Solve | src/sglab/sat.py:120-155 | For every clause list in range: a signed literal for each variable that satisfies it, or None exactly when it is unsatisfiable. |
| Components.Grow | src/sglab/sat.py:84-96 | One component is grown from the least remaining vertex: closed, joined to it, and what is left stays closed. |
| Components.Absorb | src/sglab/sat.py:89-95 | The inner loop moves exactly the still unvisited neighbours of the popped vertex into component and frontier. |
| Components.Split | src/sglab/sat.py:81-97 | The components partition the vertices in increasing order of least vertex. |
| Components.ComponentsDecideConnectedness | src/sglab/sat.py:184-189 | At most one component exactly when connected; otherwise the first is a nonempty, proper, closed set. |
| Relabel.SwapKeepsCounterexample | src/sglab/sat.py:66-67 | Exchanging two vertex names keeps a counterexample one. |
| Relabel.EdgeZeroOne | src/sglab/sat.py:66-67 | Every counterexample can be renamed so that {0, 1} is an edge: the symmetry break loses none. |
| Cegar.BaseKeepsCounterexamples | src/sglab/sat.py:51-68 | Every counterexample with the edge {0, 1} satisfies the base clauses. |
| Cegar.CutHolds | src/sglab/sat.py:185-189 | A learned connectedness clause is satisfied by every counterexample. |
| Cegar.CycleHolds | src/sglab/sat.py:198-207 | So is a learned cycle clause. |
| Cegar.LearningShrinks | src/sglab/sat.py:185-207 | A clause the current model breaks strictly shrinks the set of models: the loop terminates. |
| Cegar.LogGrows | src/sglab/sat.py:185-207 | Adding a record keeps the log: every record names its cycle or has its cut set, no counterexample breaks its clause, and it was learned from a model of the base clauses and the clauses logged before it. |
| Cegar.UnsatMeansNoCounterexample | src/sglab/sat.py:175-181 | Unsatisfiable clauses that keep every counterexample mean there is none of that order, with or without the edge {0, 1}. |
| Cegar.ModelIsAdmissible | src/sglab/sat.py:183-198 | Every model decodes to a graph of minimum degree three, so the verifier never answers INVALID for a connected one and there is a witness to learn from. |
| Cegar.Examine | src/sglab/sat.py:183-207 | A decoded model is a counterexample, or gives a record of what is wrong with it: the component of vertex 0, when disconnected, or one of its own forbidden cycles, with a clause that holds of exactly the graphs that leave that set or miss an edge of that cycle. |
| Cegar.Refine | src/sglab/sat.py:171-207 | For every order from 4 the loop terminates; the log proves the outcome: base and learned clauses together are unsatisfiable and there is no counterexample, or a counterexample is a model of them; each record is about a model of the clauses before it. |
| Cegar.TinyCegar | src/sglab/sat.py:168-207 | The entry point: too large and too small orders are refused with their own errors, and every order between gets that outcome with its log of records. |
| Graph6.TriangleClosedForm | src/sglab/model.py:180-181 | Columns 1 to n-1 hold n(n-1)/2 bits. |
| Graph6.ColumnsAt | src/sglab/model.py:139-143 | The bit of the pair u < v stands at position v(v-1)/2 + u. |
| Graph6.SameTriangleSameGraph | src/sglab/model.py:16-35 | A graph is its order and its upper triangle. |
| Graph6.PackedBit | src/sglab/model.py:190-195 | The test a reader makes for a position finds the bit that was packed there. |
| Graph6.PackedPadding | src/sglab/model.py:186-189 | Packed data has zero padding bits. |
| Graph6.Repack | src/sglab/model.py:139-151 | Unpacking bytes in range with clear padding and packing again gives the same bytes. |
| Graph6.OrIsSum | src/sglab/model.py:171-172 | Shifted bit ranges that do not overlap or together like a sum. |
| Graph6.FourByteOrderOfDigits | src/sglab/model.py:171-172 | Three bytes in range give the order in base 64. |
| Graph6.EncodeColumn | src/sglab/model.py:140-149 | The inner loop takes what is written and held from the columns before v to the columns up to v. |
| Graph6.EncodeGraph6 | src/sglab/model.py:122-151 | Refused exactly above 258047 vertices; otherwise the order bytes and the packed upper triangle. |
| Graph6Parsers.EdgesOf | src/sglab/model.py:190-195 | The double loop lists exactly the pairs whose bit is set, each once, in range. |
| Graph6Parsers.EdgesOfColumn | src/sglab/model.py:191-195 | The inner loop lists the pairs of one column whose bit is set. |
| Graph6Parsers.FromGraph6 | src/sglab/model.py:159-196 | The first complaint of the check sequence, or the one graph the text reads as; building it never fails. |
| Graph6Parsers.ReadOrder | cpp/sglab_cyclecheck.cpp:107-123 | The checker's order is the lab's, with every order byte range-checked. |
| Graph6Parsers.ReadColumn | cpp/sglab_cyclecheck.cpp:143-151 | The inner loop fills both rows of each set pair and stops at the first byte out of range. |
| Graph6Parsers.ReadRows | cpp/sglab_cyclecheck.cpp:141-152 | Every byte is checked as it is read; the rows filled form a symmetric, loop-free graph with the data's upper triangle. |
| Graph6Parsers.ParseGraph6 | cpp/sglab_cyclecheck.cpp:96-153 | The checker's first complaint, or the one graph the text reads as. |
| Graph6Parsers.OrderRoundTrip | src/sglab/model.py:126-137 | Below 2^18 the order bytes are read back exactly up to 258047, and refused as the eight-byte form above. |
| Graph6Parsers.RoundTrip | src/sglab/model.py:122-196 | Reading what was written gives the same graph, for every order up to 258047. |
| Graph6Parsers.Reread | src/sglab/search.py:777-812 | Encoding a graph and parsing the text, by the two programs, gives the graph back for every order up to 258047, and refuses every larger one. |
| Graph6Parsers.SendToChecker | src/sglab/certification.py:46-47 | The text the lab writes, parsed by the checker, is the graph exactly up to 128 vertices. |
| Graph6Parsers.EncodingInjective | src/sglab/model.py:122-157 | Different graphs have different encodings. |
| Graph6Parsers.ReencodesExactly | src/sglab/model.py:159-196 | An accepted text is the encoding of its graph if and only if its order is canonical. |
| Graph6Parsers.LongFormIsShortened | src/sglab/model.py:164-175 | One vertex in the four-byte form is accepted and written back as a single byte. |
| Graph6Parsers.HighOrderIsAccepted | src/sglab/model.py:164-175 | An order byte one above the range, with 64 vertices and no edge, is accepted by the lab and refused by the checker. |
| Graph6Parsers.SpelledOnce | src/sglab/model.py:159-196 | A text spells at most one graph. |
| Graph6Parsers.CheckerIsStricter | cpp/sglab_cyclecheck.cpp:96-140 | The checker accepts a text exactly when the lab does, only line ends surround it, all its bytes are in range and it has at most 128 vertices. |
| Graph6Parsers.ReadersAgree | cpp/sglab_cyclecheck.cpp:96-153 | What the checker reads, the lab reads as the same graph. |
| Graph6Parsers.LabTextIs | src/sglab/model.py:158-163 | The text the lab parses: what stands between the blanks around it, less the header if it has one. |
| Graph6Parsers.CheckerTextIs | cpp/sglab_cyclecheck.cpp:96-103 | The text the checker parses: the line without the line ends after it, less the header if it has one. |
| Graph6Parsers.WrittenGraphReachesChecker | cpp/sglab_cyclecheck.cpp:96-153 | Every graph the lab writes on at most 128 vertices reaches the checker unchanged. |
| Certification.AcceptedFoundIsReal | src/sglab/certification.py:121-176 | A FOUND answer that passes validation carries a real cycle of a requested length, whoever wrote it. |
| Certification.PayloadAcceptedIff | src/sglab/certification.py:121-176 | Exactly which answers the validator accepts: FOUND, marked complete, with a real cycle of its requested length; ABSENT, marked complete, for just the lengths asked about; TIMEOUT and ERROR when marked not complete. |
| Certification.VerifyCpp | src/sglab/certification.py:29-118 | FOUND or ABSENT survive only from a validated answer of a run that ended normally; the status of every other run is the one its fault belongs to (time, memory, tool failure), and none of those is complete. |
| Certification.AllocationMessageIsMemoryIff | src/sglab/certification.py:99-118 | An allocation message in the checker's answer is reported as a memory limit if and only if the run ended normally. |
| Certification.OutOfMemoryIsToolFailure | cpp/sglab_cyclecheck.cpp:231-242 | The checker that prints that message exits with 1, so its memory failure is reported as a tool failure. |
| Certification.VerifyReferenceBounded | src/sglab/certification.py:215-265 | A verdict is reported exactly when the worker finished, and then it is right; a killed worker is a timeout, memory is blamed exactly for an out-of-memory report or an abnormal exit under a limit, and anything else is a tool failure. |
| Certification.DecisionHolds | src/sglab/certification.py:314-338 | The decision chain turns any two reports into a certificate that holds: verified means a counterexample, an invalid candidate is not one, and timeouts, memory and tool failures never become a verdict of absence. |
| Certification.DecisionMeaning | src/sglab/certification.py:314-338 | The decision answer by answer: a timeout on either side outranks a memory limit, which outranks a failed tool, and two exact answers agree, reject or disagree. |
| Certification.HonestDecision | src/sglab/certification.py:314-338 | With exact verdicts on both sides the outcome is decided by the graph alone. |
| Certification.HonestVerdictAccepted | src/sglab/certification.py:121-176 | The object printed for a right verdict passes validation. |
| Certification.HonestRunAccepted | src/sglab/certification.py:29-176 | A fault-free run of an exact checker is accepted, ABSENT exactly for counterexamples among admissible graphs. |
| Certification.Certify | src/sglab/certification.py:268-338 | For any native checker and worker fate the certificate holds and is the decision over the fate's report and the checker report's status; orders below 4 and above 258047 are refused; with exact verifiers and no faults it is COUNTEREXAMPLE_VERIFIED exactly for counterexamples. |
| Certification.RunChecker | cpp/sglab_cyclecheck.cpp:168-243 | The checker from its arguments to its exit: an error run for lengths out of range or a line it refuses, otherwise the exact verdict, under its clocks, of the graph the line spells; it exits with 1 after an error, 2 after a timeout, 0 after an answer. |
| Certification.CertifyGraph | src/sglab/certification.py:268-338 | Encoder, checker, validator, reference verifier and decision together: invalid candidates are always found, above 128 vertices every admissible graph is a tool failure, a timeout if and only if a clock is late before a forbidden cycle is found, otherwise exact; so always exact with clocks that never expire. |
| Certification.PunctualIsExact | src/sglab/certification.py:268-338 | Clocks that never expire, or none, leave an exact certificate of every graph of 4 to 128 vertices. |
| Reservations.StepKeepsValid | src/sglab/comparison_worker.py:1589-1724 | Every transaction of every worker keeps consumed + outstanding within the maximum, consumed equal to the rows that reached inference, each suite's counter equal to its own such rows, and one row an arm; no maximum ever moves. |
| Reservations.RunStaysWithinCap | src/sglab/comparison_worker.py:1589-1724 | In every interleaved run the starts counted are the starts made, and with what is outstanding they stay within the authorised maximum. |
| Reservations.StepCountsStarts | src/sglab/comparison_worker.py:1653-1696 | The consumed counter moves by one exactly on a start under that authorization. |
| Reservations.StepCountsSuite | src/sglab/comparison_worker.py:1653-1696 | Every transaction keeps each suite's own counter equal to the number of its rows that reached inference. |
| Reservations.StepKeepsReached | src/sglab/comparison_worker.py:3255-3265 | What reached inference stays reached, and recovery leaves such rows untouched. |
| Reservations.StrandedRowsCost | src/sglab/comparison_worker.py:1609-1630 | Over any run that leaves rows outstanding, the starts stay within what the maximum leaves beside those rows: each costs one arm. |
| Reservations.StrandedRowsLowerCap | src/sglab/comparison_worker.py:1609-1630 | The next arm is refused for the cap exactly when the other outstanding rows and the starts reach a cap lower by the number of those rows. |
| Reservations.ConsumeIdempotent | src/sglab/comparison_worker.py:1653-1696 | Consuming twice is consuming once. |
| Reservations.SplitRelease | src/sglab/comparison_worker.py:1698-1724 | A consume between a release's read and its write leaves the row reached, released and counted once. |
| Reservations.ArmReservedOnce | src/sglab/db.py:793-807 | An arm reserved under an authorization is never reserved under it again, in any run. |
| Reservations.ReserveMeaning | src/sglab/comparison_worker.py:1597-1651 | Exactly when an arm may reserve and why not: a missing, revoked, completed or mismatched authorization first, then a cap without room, then a name or arm already taken. |
| Reservations.StartMeaning | src/sglab/comparison_worker.py:1589-1696 | A start from reservation to inference leaves one row, under the plan's authorization and suite and for its arm and attempt, and one more on both their counters. |
| Reservations.ClosedForGood | src/sglab/comparison_worker.py:1597-1608 | Once an authorization is revoked or completed, nothing is reserved under it again in any run. |
| Reservations.RecoveryFrees | src/sglab/comparison_worker.py:3255-3265 | Recovering an attempt releases exactly its unreached, unreleased rows, with their result written, frees their places under every cap, and touches nothing else. |
| Reservations.Database.ReserveInference | src/sglab/comparison_worker.py:1589-1651 | The transaction makes the abstract step, or reports the first error in the order of the checks and changes nothing. |
| Reservations.Database.ConsumeInference | src/sglab/comparison_worker.py:1653-1696 | The consuming transaction, both counters included; it fails exactly for a missing or released row. |
| Reservations.Database.ReadForRelease | src/sglab/comparison_worker.py:1698-1712 | The first half of a release: the row looked up and its flag remembered. |
| Reservations.Database.WriteRelease | src/sglab/comparison_worker.py:1712-1724 | The second half, after any other transactions. |
| Reservations.Database.RecoverAttempt | src/sglab/comparison_worker.py:3255-3265 | Recovery makes the abstract step, whose effect is `Reservations.RecoveryFrees`. |
| Leases.AcquireKeepsGuardIff | src/sglab/comparison_worker.py:865-930 | The exact condition: letting a worker in keeps the latest row guarding its suite if and only if its stamp is later than every open lease's. |
| Leases.StepKeepsGuardIff | src/sglab/comparison_worker.py:865-957 | The same for any step of the table: only letting in on a stamp that is not later can lose the guard. |
| Leases.StampDecidesExclusion | src/sglab/comparison_worker.py:865-957 | The exact condition for exclusion itself: once a worker is let in on a guarded suite, no second one can be let in right after it to count beside another if and only if the first one's stamp is later than every open lease's of the suite. |
| Leases.GuardsThroughoutIff | src/sglab/comparison_worker.py:865-957 | Over whole runs: the latest row guards its suite throughout if and only if every let-in's stamp is later. |
| Leases.StampedLaterRunsAreSafe | src/sglab/comparison_worker.py:865-957 | In every run whose let-ins are stamped later than the open leases of their suites, whatever the clocks do otherwise, at most one lease of a suite counts throughout and at most the configured number overall. |
| Leases.StaleStampAdmitsSecond | src/sglab/comparison_worker.py:865-930 | When the condition fails, the next worker can be let in beside the first. |
| Leases.PromptStampIsLater | src/sglab/comparison_worker.py:865-930 | An acquirer that commits within the lease term of its stamp meets the condition. |
| Leases.PromptRunsAreSafe | src/sglab/comparison_worker.py:865-957 | A corollary: so does every run whose acquirers commit within the lease term of their stamp. |
| Leases.HeartbeatExtends | src/sglab/comparison_worker.py:932-945 | After a heartbeat an unreleased lease counts for all but the last second of a new term, whether its process lives or dies. |
| Leases.ReleaseFrees | src/sglab/comparison_worker.py:947-957 | A release makes its own lease stop counting at once, and no other. |
| Leases.RecoverySpares | src/sglab/comparison_worker.py:3233-3241 | Recovery never ends a lease that counts: one whose process lives or whose term runs is left as it is, one with both over is released. |
| Leases.StalledAcquirerBreaksExclusion | src/sglab/comparison_worker.py:865-930 | A run from an empty table, with the default limits, that ends with two counting leases of one suite. |
| Leases.Table.AcquireLease | src/sglab/comparison_worker.py:865-930 | The acquiring transaction makes the abstract step; it grants exactly when the latest row is expired with a dead process and fewer than the configured number of other suites hold leases that count, and inserts the row with the old stamp and a full term. |
| Leases.Table.Heartbeat | src/sglab/comparison_worker.py:932-945 | A heartbeat sets an unreleased lease's end to a full term from now, changes no other row, and says whether it did. |
| Leases.Table.ReleaseLease | src/sglab/comparison_worker.py:947-957 | Releasing marks the row released and changes no other. |
| Leases.Table.RecoverLease | src/sglab/comparison_worker.py:3222-3276 | Recovery releases a lease exactly when it is unreleased, expired and its process dead; exactly then its attempt is interrupted if it was launching or running, and its suite failed if it was running. |
| Leases.Table.RecoverStaleWorkers | src/sglab/comparison_worker.py:3222-3276 | The whole sweep, in any order of the query: exactly the expired leases of dead processes are released, none is left, exactly their suites are listed; exactly their launching or running attempts are interrupted, and exactly their running suites failed. |
| ArmLoop.Worker.Transition | src/sglab/comparison_worker.py:1726-1783 | A transition is appended to its arm's history and to no other. |
| ArmExecution.Run.Turn | src/sglab/comparison_worker.py:1089-1161 | The turn's events in order, as a function of the faults: the first that announces inference consumes the reservation, counts one start and records it; the first fault ends the turn in error. |
| ArmExecution.Run.Book | src/sglab/comparison_worker.py:1081-1088 | The reservation in the shared tables, after the other workers' transactions, and the steps around it: where it ends is a function of the faults and of whether the tables admit the arm. |
| ArmExecution.Run.Conclude | src/sglab/comparison_worker.py:1172-1180 | Closing the turn writes the given result on the reservation and records the outcome last, exactly when its three steps work. |
| ArmExecution.Run.Prepare | src/sglab/comparison_worker.py:1017-1088 | Everything before the turn: the exit, if there is one, is a function of the faults and of whether the tables admit the arm; otherwise the row is reserved and the transitions are the arm's. |
| ArmExecution.Run.Interrupted | src/sglab/comparison_worker.py:1162-1210 | A turn that timed out, was stopped or failed releases a row the worker does not know to be reached, and ends with its own outcome and its own text on the row; the exit and whether the row stays outstanding are read off the faults. |
| ArmExecution.Run.Judge | src/sglab/comparison_worker.py:1211-1336 | An answered turn ends as its first objection or its validation says, verdict by verdict, with the verdict's text on the row, and only after inference was reached; the exit and whether the row stays outstanding are read off the faults. |
| ArmExecution.Run.Execute | src/sglab/comparison_worker.py:1011-1336 | Faults possible at every step, other workers in between: the exit is a function of the faults; a returned outcome and the row's text are spelled out by how the turn ended, whether inference was reached, and the verdict; the row stays outstanding if and only if the faults are those of `Stranded`. |
| ArmExecution.StrandOne | src/sglab/comparison_worker.py:1083-1091 | A fresh arm whose turn cannot be recorded, under an authorization for one start: nothing was started, its row stays outstanding, and the next arm is refused. |
| ArmExecution.LastOneTaken | src/sglab/comparison_worker.py:1609-1630 | A row left outstanding under a maximum of one shuts every later arm out, whatever other workers did. |
| ArmExecution.RunKeepsValid | src/sglab/comparison_worker.py:1589-1724 | Whatever other workers do between two steps keeps the cap and both counters, and moves no maximum. |
| ArmExecution.CalmExitIs | src/sglab/comparison_worker.py:1011-1336 | Without faults an admitted arm exits as its thread, its contract and its turn say. |
| ArmLoop.Worker.BlockRemaining | src/sglab/comparison_worker.py:3083-3099 | Exactly the later arms that have not ended are blocked, each once. |
| ArmLoop.Worker.ExecuteArm | src/sglab/comparison_worker.py:1011-1336 | The execution's transitions are recorded in order, with a returned outcome last; its row joins those left outstanding exactly under `Stranded`, and those started if the arm completed. |
| ArmLoop.BooksWithinCap | src/sglab/comparison_worker.py:1609-1630 | The rows a worker has started and those it has left outstanding stay within its authorization's maximum together. |
| ArmLoop.Worker.HandleFault | src/sglab/comparison_worker.py:592-605 | The fault handler fails the current arm unless it has ended, and blocks exactly the others that have not. |
| ArmLoop.Worker.Admit | src/sglab/comparison_worker.py:496-541 | An arm proceeds if and only if there is no fault before it, no stop request, usage below the cap and its dependency met; a stop without a fault leaves with the suite stopped, a fault, the cap or unknown usage with it raised; what each leaves in the journal is stated. |
| ArmLoop.Worker.BlockDependent | src/sglab/comparison_worker.py:522-541 | An arm whose required dependency did not complete is blocked; under a fail-closed plan without the independent policy so is everything after it, and otherwise the loop goes on. |
| ArmLoop.Worker.Settle | src/sglab/comparison_worker.py:542-568 | The arm is executed, its exit is the one its own faults give, and the loop goes on, stops or raises as the outcome says. |
| ArmLoop.Worker.Decide | src/sglab/comparison_worker.py:545-568 | By the outcome just recorded: a stop stops, a completion or a state the plan continues after goes on, anything else raises; on leaving, everything after the arm is blocked. |
| ArmLoop.Worker.Run | src/sglab/comparison_worker.py:482-647 | Each arm ends with one terminal transition; the log tells which passes executed their arm, with which exit, and how the run ended; starts and stranded rows stay within the cap; undisturbed under an authorization with room, a calm suite is executed whole and completes. |
| ArmLoop.LogMeaning | src/sglab/comparison_worker.py:482-647 | An arm is executed if and only if the loop went on after every earlier pass, nothing outside the plan keeps it and its dependency completed before; the suite is stopped if and only if a stop request or a stopped outcome ended the loop. |
| ArmLoop.CalmCompletes | src/sglab/comparison_worker.py:482-647 | With every arm admitted, no faults, stops or caps and valid answers, every arm is executed and the suite completes. |
| ArmLoop.RoomAdmits | src/sglab/comparison_worker.py:1597-1651 | With no other worker about and a start left for every arm still to come, the tables admit the next one, whatever step it reserves at. |
| ArmLoop.RoomStays | src/sglab/comparison_worker.py:1597-1651 | And after its execution there is still a start left for every arm after it. |
| SuiteOrder.GroupArms | src/sglab/comparisons.py:491-500 | Each key's indices in order, keys in order of first appearance, every arm covered. |
| SuiteOrder.ConcatenateGroups | src/sglab/comparisons.py:503-507 | The groups in shuffled key order, one after another. |
| SuiteOrder.FlattenIsPermutation | src/sglab/comparisons.py:503-507 | That order is a permutation of the arms. |
| SuiteOrder.FlattenKeepsTogether | src/sglab/comparisons.py:503-507 | Arms of one key stand next to each other in their given order. |
| SuiteOrder.ContiguousIffNoIntruder | src/sglab/comparisons.py:496-507 | Conversations stay contiguous if and only if no ungrouped arm's key collides with a conversation that has arms on both sides of it. |
| SuiteOrder.CollidingNameSplits | src/sglab/comparisons.py:496-507 | A three-arm suite the builder accepts whose conversation is split under every shuffle. |
| SuiteOrder.DependencyComesFirst | src/sglab/comparisons.py:503-535 | A resumed arm comes after the arm it depends on, in every shuffled order, colliding names or not. |
| SuiteOrder.DecimalInjective | src/sglab/comparisons.py:496-496 | Different indices are written differently, so two ungrouped arms never share a key (`SuiteOrder.AloneHasOwnKey`). |
| SuiteOrder.AloneHasOwnKey | src/sglab/comparisons.py:496-496 | Two arms outside every conversation have different keys. |
| SuiteOrder.ArmFaultMeaning | src/sglab/comparisons.py:516-525 | The complaint about one arm: resuming without being persistent, resuming as the first of its conversation, or not resuming as a later one. |
| SuiteOrder.AcceptedIff | src/sglab/comparisons.py:511-525 | Exactly which suites are accepted: an arm resumes if and only if an earlier arm names its conversation, and only persistent arms resume. |
| SuiteOrder.LinkArms | src/sglab/comparisons.py:511-540 | The first complaint in arm order, or for each arm the execution record: a resumed arm depends on the arm just before it in its conversation. |
| SuiteOrder.Invert | src/sglab/comparisons.py:508-508 | The effective positions invert the order. |
| SuiteOrder.SequenceIndex | src/sglab/comparisons.py:511-540 | The loop counts the arm's place among the arms of its conversation in the given order. |
| SuiteOrder.EarlierInGroupCounts | src/sglab/comparisons.py:530-533 | An arm's index in its conversation is the number of arms before it that name the same one. |
| SuiteOrder.CreateSuite | src/sglab/comparisons.py:488-540 | For every shuffle: a permutation that keeps keys together, its inverse, the execution records or the first complaint, and every dependency before its dependent. |

## Left out

- Scoring.VerdictIsWrapped: leaves out requests with the greatest cutoff total, 2^32 - 1, and more cycles than that; for them, as for all, `Scoring.VerdictIsTrip` says when the verdict is dominated, and a dominated one is right (`Scoring.DominatedIsTrue`).
- Scoring.VerdictRightIff: leaves out the same requests.
- Scoring.OrderDoesNotMatter: leaves out the same requests, whose sums at the crossing depend on the order.
- Leases.PromptRunsAreSafe: is the corollary for acquirers that commit within the lease term; the general theorem is `Leases.StampedLaterRunsAreSafe`.
- Leases.StalledAcquirerBreaksExclusion: a worker first checks that its suite is authorized (`src/sglab/comparison_worker.py:674`) and marks it running after its lease; the run needs the third worker to have passed that check early, or the second to have died before marking, and suite statuses are not in it.
- CountCycles.Count: node counters are unbounded numbers; with a budget they stay within budget + 1, and a budget of zero (no budget) is refused by the request reader.
- SubsetDp.NextTable: which path a key keeps is left open, while the dictionary keeps the first in insertion order; every choice gives a right answer.
- Cegar.Refine: has no upper order guard, which only limits cost; the entry point with the guards is `Cegar.TinyCegar`. The PySAT loop has the same shape around a foreign solver and is not modelled separately, nor are its proof files and resumption.
- BaseCnf.BuildCycleClause: takes witnesses inside the order, as the verifier's are; for another vertex the source computes a variable that is some other pair's or out of range.
- Frames.Worker.PreparePlan: lengths and bounds are whole numbers; the source compares cached keys with Python's equality, so a length of 4.0 hits a plan cached for 4 where a fresh build refuses it.
- Responses.Score: the worker's input is empty before the call, a response comes in time or not as a parameter says, and elapsed times are given by length; what a late response does to the next call is not modelled.
- ArmLoop.Worker.Transition: the transition's number, one more than the last of its arm, is its place in the history; the arm's status column, which blocked and stopped arms do not change, is not modelled.
- ArmExecution.Run.Execute: a step fails before or after its effect, or works; what a failed step leaves in tables other than the arm's transitions and its reservation is not modelled. Other workers leave the rows of the attempt alone, a release reads and writes in one step, and a new reservation's name is not one the attempt has.
- ArmLoop.Worker.Run: database errors in the loop's own transitions are not modelled.
- Reservations.StepCountsSuite: `record_turn` (`src/sglab/comparisons.py:1223-1230`) is a second writer of the suite's counter, for turns recorded by hand, and is not an event; neither is an authorization granted during a run.
- Certification.CertifyGraph: the wording of the checker's complaints is a parameter; orders above 128 reach its error through the lengths or the order, which are not told apart.
- Rows as machine words in the engines: a row is a set of positions there; machine words appear where they are packed and read (`Frames`).
- Bytes: graph6 text and frames are sequences of whole numbers, and the proofs do not use that they are below 256.
- Text decoding: `from_graph6` is modelled on bytes; the failure on text that is not ASCII is not.
- Clocks, processes and signals: a clock is a parameter that says when a reading is past its limit, a process is alive or dead, and a worker's end is one of its possible fates.
- JSON text: the native checker's output is modelled as the parsed object; parsing and printing are foreign code.
- Database errors in the lease table.
- The status changes of `prepare`, `authorize`, `start` and `invalidate_authorization`: single guarded assignments over hashes.
- Plan fingerprints and hashes are opaque numbers.
- Simulated annealing, seed generation, mutation, novelty scores, the HTTP server, the dashboard, the command line, resource accounting and the App Server client.
