# BinRadar verification

BinRadar runs thousands of candidate patches against a stream of inputs and
avoids most executions by grouping candidates whose branch vectors agree.  This
project models its Python layer in Dafny and proves what that layer relies on:

- **Predicates** (`Infix`, `Predicates`, `PrefixText`, `Words`).  Infix tokens to tree, tree to
  prefix string, prefix string to a signed 64-bit function with a trap value.
  The infix parser accepts exactly a grammar stated on its own.
  The prefix compiler accepts exactly the spellings of its terms.
  Lowering preserves meaning for exactly the trees whose emission has no merged
  `<=` or `>=`, and the others are always refused.
- **The streaming verifier** (`Equivalence`, `Sweep`, `Classification`,
  `Verdicts`, `Journal`, `Verifier`, `Stream`, `Schedule`, `RunJournal`,
  `Streaming`).  A
  minimizer appends rows, a consumer ingests to a frozen boundary, keeps a heap
  of resumable bitset sweeps and serves one quantum at a time.
  `Streaming.VerifyStream` is the whole of it, for every log, arrival order,
  score order, quantum cut and mode: a run that stops as exhausted, with no
  unusable attempt, verifies exactly the candidates that running every candidate
  on every admitted input would; one that stops as all-rejected is right about
  each; one that is cut off still has one verdict per candidate, explained by
  exact counts; one that fails does so at the first observation that is a failure;
  a replay of a stopped log serves its queue to the end; every turn serves the
  most novel of the inputs served least often; a marked log drains within inputs
  times candidates turns; and the capture journal of a run is what the verifier knows:
  every pair classified, lost or skipped is noted once, with the candidate's own
  execution.  `Streaming.VerifyLive` puts it beside every history of
  the minimizer.  `SetupFilter` is the same idea for the reference input.
- **The feedback bundle** (`BranchCodec`, `IdRanges`, `Members`, `MemberPool`,
  `BitCounts`, `Bundle`, `BundleMeaning`, `BundleWriter`, `Masks`, `Loader`, `Export`).  The
  writer streams evidence and keeps counters; the loader recomputes everything
  from interned interval sets, packed bitmaps and bit-sliced counters.
  `Loader.LoadBundle` decides exactly a specification over sets and counts,
  `Bundle.LoaderAcceptsWriter` says when it accepts what the writer emits, and
  `Export` shows that the journal of a verifier run always exports, and that the
  exported counts and exclusions are those of the verifier's records.
- **Evidence and small exact algorithms** (`Frames`, `Filter`, `Varints`,
  `Structs`, `Iterations`, `BinradarLog`, `IterationSpelling`, `Novelty`, `Scorer`, `CallJump`,
  `Intervals`).  Frame streams that tolerate a cut tail, ULEB128 deltas, novelty
  scoring, the call-to-jump re-encoding and address range normalization.

`Bits`, `Bitmaps`, `Sequences`, `Text` and `Options` are shared vocabulary: Python integers
as infinite bit strings, little-endian bytes, numerals and lists.

Modelling decisions:

- The target is a function from the branch decisions taken so far to the next
  patch-site state or the outcome; a candidate is a function from states to
  branches.  Offline evaluation may raise but, where it answers, answers as the
  candidate would.
- Clocks, quantum ends, the visible end of the log and the writer's liveness are
  arbitrary in every run.  A lab says whether a deadline exists at all
  (`deadline`) and whether every attempt yields a result with its branch vector
  (`reliable`); without `deadline` no run is cut.
- SHA-256 digests and CRC-32 are function parameters; nothing is assumed of them.
- Raised exceptions are result values.  An attempt to run a candidate may come
  back unusable, or without its branch vector, at any point; the theorems that
  equate verdicts with the candidates' own executions in both directions are
  about reliable labs, the others about all.
- Evidence is written in version 4 and read in versions 1 to 4.
- The source keeps a capture journal only in feedback mode.  The model notes in
  both modes; in ordinary mode the deadline may cut a group after it was
  classified and before its note, so what is said about cut stretches of work is
  said for feedback mode.
- Where the source mutates objects or buffers the model has classes, arrays and
  loops, each tied to a specification function or property.

Four properties hold only under a condition, which is stated as an equivalence:

- `Predicates.CompileEmitted`: a tree compiles iff no emitted `<` or `>` runs into
  an `=`; `Predicates.MergedTreeRejected` is an instance of the rest.
- `Classification.ExporterAgrees`: the exporter and the verifier classify alike
  iff the baseline's vector is as long as its hit count or the run is not a clean
  normal one; `Classification.LostVectorDisagrees` is an instance of the rest.
- `Bundle.LoaderAcceptsWriter`: the header's candidate list is decoded without a
  universe, so a run of more than 1,000,001 consecutive candidates is refused by
  the loader (`IdRanges.LongRunRefused`).  The row writer emits such a run, but
  `write_classification` around it decodes the capture headers the same way
  (`binradar/binradar_feedback_export.py:362` and `:375`) and so raises before
  writing whenever a capture header exists; only an export without captures
  reaches the loader with one.
- `Export.WitnessExactly`: a candidate that was rejected in feedback mode is
  exported as rejected without a witness iff no mutation failed it and every input
  that condemned it has a baseline that neither exited normally nor crashed at the
  fault of the proof of concept.  Such baselines are admitted (any run that did
  not crash is), but the exporter does not classify against them;
  `Export.TimedOutBaselineHides` is an instance.  Against other baselines it never
  happens (`Export.RunExports`).

Run `dafny verify dfyconfig.toml` to verify the project.

## Model

| member | source | states |
|---|---|---|
| `Infix.ParsePrinted` | binradar/binradar_taosc_predicates.py:257-347 | Every syntax tree is the parse of its own token text, written with only the parentheses its precedence and left associativity need. |
| `Infix.ParsesTheGrammar` | binradar/binradar_taosc_predicates.py:257-347 | Against the grammar stated on its own (eight binary rules with their operators, prefixes, parentheses, numerals, named constants and registers): a token list is accepted iff it is the text of some phrase, and the result is that phrase with its parentheses dropped and every constant at its own value. |
| `Infix.PhraseParses` | binradar/binradar_taosc_predicates.py:263-347 | At every precedence level and before any following tokens that cannot extend the operand, the text of a phrase of that rule parses to its tree and the rest goes to that level's loop. |
| `Infix.ParsedPhrase` | binradar/binradar_taosc_predicates.py:263-347 | The converse: whatever a level accepts is the text of a phrase of that rule, and the result is its tree. |
| `Infix.Parser.Parse` | binradar/binradar_taosc_predicates.py:257-261 | The position-advancing parser accepts exactly the token lists that are texts of phrases, returns their trees, and refuses everything else, trailing tokens included. |
| `Infix.Parser.AtLevel` | binradar/binradar_taosc_predicates.py:263-317 | One binary level with its loop: result and new position are those of the grammar function on the remaining tokens. |
| `Infix.Parser.Unary` | binradar/binradar_taosc_predicates.py:319-330 | Prefix operators, right to left, tied to the grammar function and the remaining tokens. |
| `Infix.Parser.Primary` | binradar/binradar_taosc_predicates.py:332-347 | Parentheses, numerals, named constants and registers, tied to the grammar function (which is the grammar, by `Infix.ParsesTheGrammar`) and the remaining tokens. |
| `Predicates.CompileEmitted` | binradar/binradar_taosc_predicates.py:350-397 | For every tree, compiling its emitted prefix string gives the tree's own lowering if no less-than or greater-than node is followed by an equals sign, and is refused otherwise; no tree compiles to anything else. |
| `PrefixText.CompilesExactly` | binradar/binradar_taosc_predicates.py:761-802 | A string compiles to a term iff it spells that term: numbers modulo 2^64, the complement, and every operator in front of two terms with no `<` or `>` running into an `=`; every other string is refused and none has two readings. |
| `Predicates.LoweringPreservesMeaning` | binradar/binradar_taosc_predicates.py:761-807 | Evaluating the compiled emission gives the tree's signed 64-bit meaning, traps included, on every environment of words, exactly for the trees with no merged operator. |
| `Predicates.BranchJumpsOnZero` | binradar/binradar_taosc_predicates.py:408-414 | The branch form of every tree, on any captured registers: 1 exactly when the predicate is zero, 0 when it is nonzero, 2 exactly when it traps; refused exactly when the emission merges two operators. |
| `Predicates.ComputeDenotes` | binradar/binradar_taosc_predicates.py:685-746 | Every generated operator on two words computes the mathematical operator reduced to 64 bits, and traps exactly on division or modulo by zero or of the minimum by minus one. |
| `Predicates.ScanNumeral` | binradar/binradar_taosc_predicates.py:691-699 | A decimal literal of any size decodes to its value modulo 2^64 as a signed word, leaving what follows it. |
| `Predicates.ParsedWeight` | binradar/binradar_taosc_predicates.py:765-795 | Operand counting: whatever parses as one prefix term consumes text of weight exactly one. |
| `Predicates.EmittedWeight` | binradar/binradar_taosc_predicates.py:374-397 | Operand counting: every merged operator costs the emitted text one, so a merged emission can never parse to its end. |
| `Predicates.MergedTreeRejected` | binradar/binradar_taosc_predicates.py:374-397 | A concrete tree of the excluded family, `(rax == rbx) < rcx`, is refused by the compiler. |
| `Predicates.LoweredRuns` | binradar/binradar_taosc_predicates.py:765-802 | The lowered term evaluates to the tree's meaning and every value on the way is a word. |
| `Predicates.IndexMeans` | binradar/binradar_taosc_predicates.py:774-775 | A register position counts modulo the environment's length within one turn to either side; any other has no register. |
| `Predicates.PatchReader.ParseInt` | binradar/binradar_taosc_predicates.py:691-699 | The digit loop returns the wrapped value and stops at the first non-digit. |
| `Predicates.PatchReader.Parse` | binradar/binradar_taosc_predicates.py:765-795 | The recursive prefix reader with a moving position accepts and returns what the functional parser does on the remaining text. |
| `Predicates.PatchReader.CompileText` | binradar/binradar_taosc_predicates.py:761-802 | Compilation accepts exactly the texts that are one prefix term with nothing after it. |
| `Words.Wrap64IsSigned` | binradar/binradar_taosc_predicates.py:685-688 | The wrap-around helper is the unique signed 64-bit representative modulo 2^64. |
| `Words.TruncDivIsCQuotient` | binradar/binradar_taosc_predicates.py:702-705 | The floor-based division helper is truncation toward zero. |
| `Words.CQuotientLaw` | binradar/binradar_taosc_predicates.py:733-746 | Quotient and remainder satisfy the law of section 6.5.5 of C11: quotient times divisor plus remainder is the dividend, and the remainder is smaller than the divisor with the sign of the dividend. |
| `Words.LeftShiftMeaning` | binradar/binradar_taosc_predicates.py:708-716 | Shifting left multiplies by the power of two modulo 2^64 for every count, however large. |
| `Words.RightShiftMeaning` | binradar/binradar_taosc_predicates.py:719-727 | Shifting right is the floor of the division by the power of two for every count. |
| `Equivalence.ExecutionUnique` | binradar/binradar_verifier.py:2016-2131 | On a deterministic target a candidate has at most one execution. |
| `Equivalence.GroupingSound` | binradar/binradar_verifier.py:2016-2131 | A candidate whose guard agrees with the representative at all captured states is exactly a candidate with the same branch vector, and then states, vector and outcome are the same execution. |
| `Equivalence.JoinsExactly` | binradar/binradar_verifier.py:2074-2131 | The first-branch table with the comparison from index one selects only candidates whose own execution is the representative's, and all such candidates whose guard evaluates on the captured states. |
| `Equivalence.CachedMatches` | binradar/binradar_taosc_predicates.py:1012-1046 | The early-exit comparison loop of a vector suffix equals the element-wise comparison, with raised evaluations and out-of-range starts kept apart. |
| `Equivalence.MatchMeansAgreement` | binradar/binradar_taosc_predicates.py:1012-1046 | A suffix match means agreement at every index from the start on, and nothing else. |
| `Equivalence.MatchedIsSame` | binradar/binradar_verifier.py:2105-2131 | A suffix match after a matching first branch, or a match from the start, means the candidate's own execution is the representative's. |
| `SetupFilter.FilterAll` | binradar/binradar_setup.py:1836-1938 | Every candidate, and no other id, ends with one decision: the policy applied to its own execution, or its individual run if no cached run vouches for it. |
| `SetupFilter.FindGroup` | binradar/binradar_setup.py:1874-1931 | The group taken for a representative holds only candidates with the same execution, and every remaining candidate whose offline evaluation reproduces the vector. |
| `SetupFilter.Eligible` | binradar/binradar_setup.py:1886-1904 | The pre-selection by first branch keeps the table right and drops no candidate that evaluates to the observed first branch. |
| `SetupFilter.Matching` | binradar/binradar_setup.py:1906-1926 | A candidate is matched iff it reproduces the rest of the vector. |
| `SetupFilter.UnusableMeans` | binradar/binradar_setup.py:1851-1875 | A cached run is unusable iff there is none or offline evaluation fails to give its branch at some captured state. |
| `SetupFilter.Decide` | binradar/binradar_setup.py:1851-1938 | One round: the representative is decided by the policy on its own execution if its cached run is vouched for, and individually otherwise; everyone who shares the decision has that execution, and everyone who reproduces it shares it. |
| `Sweep.ConcreteInputSweep.constructor` | binradar/binradar_verifier.py:90-100 | A fresh sweep holds exactly the indices below the count. |
| `Sweep.ConcreteInputSweep.Discard` | binradar/binradar_verifier.py:102-107 | Discarding removes exactly that index, once, and keeps the remaining count right. |
| `Sweep.ConcreteInputSweep.Pop` | binradar/binradar_verifier.py:118-128 | Popping returns and removes the minimum pending index and leaves every index below the cursor clear. |
| `Sweep.ConcreteInputSweep.PendingIndices` | binradar/binradar_verifier.py:109-116 | The listing is exactly the pending set in increasing order. |
| `Sweep.IsolateLowest` | binradar/binradar_verifier.py:118-128 | The lowest-set-bit expression finds the least set bit of any nonzero byte. |
| `Classification.HardMeansFailure` | binradar/binradar_verifier.py:1804-1912 | An observation condemns a candidate iff its patch trapped or it crashed at the fault of the proof of concept. |
| `Classification.ObservedIsWhatHappened` | binradar/binradar_verifier.py:1804-1912 | For every baseline, timed-out ones included, every candidate result and every vector: each of the twelve observations is the one recorded iff its facts hold (trap in the vector, baseline crashed or not, how the candidate ended, fault equal to that of the proof of concept, vectors equal). |
| `Verdicts.CompiledIsFaithful` | binradar/binradar_taosc_predicates.py:986-1009 | Offline evaluation of a compiled generic candidate is faithful: it answers exactly where the emission merged no operators and the registers are there, and for such emissions it is faithful iff the candidate jumps exactly when its predicate is zero and traps exactly when the predicate does. |
| `Verdicts.HardIsFailure` | binradar/binradar_verifier.py:1804-1912 | A condemning observation is never wrong, and none is missed on an execution whose branch vector was recorded. |
| `Verdicts.RejectionIsCondemned` | binradar/binradar_verifier.py:1804-1912 | An immediate rejection is a trap, or a crash at the fault of the proof of concept that in feedback mode the unpatched input did not have; with the vector at hand none is missed. |
| `Verdicts.TallyBalances` | binradar/binradar_verifier.py:1722-1730 | Any observation keeps every candidate's books balanced: totals are the six evidential counts, accepted ones are crash-pass plus same-branch, rejections follow the hard counts. |
| `Verdicts.ClassifyKeeps` | binradar/binradar_verifier.py:1804-1943 | Classifying one pending pair keeps every run invariant and removes that index from the input's work. |
| `Verdicts.VerdictsAreCounted` | binradar/binradar_verifier.py:1722-1802 | At every reachable state, cut off or not: the verdicts cover exactly the candidates, verified iff the three hard counts are zero, feedback-accepted iff the first and third are, and the evidence totals are the stated sums. |
| `Verdicts.VerdictsAreScheduleFree` | binradar/binradar_verifier.py:2439-2465 | With every admitted input complete and no unusable attempt, a candidate is verified iff no admitted input fails it, whatever the order of work. |
| `Verdicts.AllRejectedIsRight` | binradar/binradar_verifier.py:2389-2391 | If no candidate is active any more, none is verified and each really fails some admitted input, in both modes and whatever was unusable. |
| `Verdicts.ClassifyExact` | binradar/binradar_verifier.py:1722-1730 | Each pair is classified at most once: every count is the number of inputs that earned it. |
| `Verdicts.CountsAreSeen` | binradar/binradar_verifier.py:1722-1730 | At every reachable state, cut off or not, every count is the number of admitted inputs on which exactly those facts were seen of the candidate's own execution. |
| `Verdicts.SurvivorCounts` | binradar/binradar_verifier.py:1771-1802 | The counts of a candidate that was not rejected on the way are the same for every schedule: on how many admitted inputs each thing happens in its own execution. |
| `Verdicts.RejectedOnce` | binradar/binradar_verifier.py:2270-2274 | A candidate rejected on the way was condemned by one admitted input only, the one its verdict names. |
| `Verdicts.NamedIsCondemned` | binradar/binradar_verifier.py:2270-2274 | After a complete run of usable attempts a candidate was rejected on the way iff some admitted input condemns it. |
| `Verifier.ConcreteVerifier.TestResult` | binradar/binradar_verifier.py:1804-1912 | The branching classifier updates the ledger by exactly one observation, the one whose facts happened, and reports rejection by the mode's rule. |
| `Verifier.ConcreteVerifier.TestOne` | binradar/binradar_verifier.py:1928-1934 | Classifying an active candidate by an execution equal to its own, with or without its branch vector, applies one classification step to the whole state. |
| `Verifier.ConcreteVerifier.TestAlone` | binradar/binradar_verifier.py:1914-1943 | The uncached attempt, which may find no executable, no result or no vector, or pass the deadline: unless cut, the pair is settled and noted exactly once, as classified with the candidate's own outcome and vector, as unusable, or as not compiled, and the note is exactly what was learnt; cut before the run, nothing is noted and nothing learnt. |
| `Verifier.ConcreteVerifier.SelectMember` | binradar/binradar_verifier.py:2105-2122 | A pending candidate that joins has the representative's execution, and every candidate whose offline evaluation reproduces the vector joins; the first-branch table stays right. |
| `Verifier.ConcreteVerifier.GroupPending` | binradar/binradar_verifier.py:2085-2131 | Group members have the representative's execution, are classified by it and leave the sweep; nothing else is learnt; every other index that left was of a rejected candidate and has its skip note; unless cut off, which feedback mode excludes, no candidate that reproduces the vector is left pending. |
| `Verifier.ConcreteVerifier.RunGroup` | binradar/binradar_verifier.py:2074-2137 | A captured execution settles its representative and its whole group; unless cut, the notes name exactly the candidates whose indices left the sweep, each once, with the execution each member really has, and say exactly what was learnt. |
| `Verifier.ConcreteVerifier.ServeRepresentative` | binradar/binradar_verifier.py:2028-2137 | Serving one popped representative, cached or not, keeps the run invariant and settles that index unless the deadline cuts it; the notes name exactly what left the sweep and say exactly what was learnt, and in feedback mode a cut misses at most the index it was about to run. |
| `Verifier.ConcreteVerifier.NextRepresentative` | binradar/binradar_verifier.py:2022-2137 | Popping and serving or skipping one index strictly shrinks the sweep, and everything that left it is noted, truthfully and once. |
| `Verifier.ConcreteVerifier.Quantum` | binradar/binradar_verifier.py:1993-2143 | One quantum, cut anywhere, keeps every invariant.  Unless the deadline cuts it the sweep strictly shrinks, the input has tried everything it no longer holds, and the notes name exactly the candidates that left the sweep, each once and with its own execution, and say exactly which pairs were classified, blind or lost; in feedback mode a cut quantum misses at most the one index it was about to run and nothing that was classified. |
| `Verifier.ConcreteVerifier.LogResult` | binradar/binradar_verifier.py:1766-1769 | A candidate without a verdict gets it; a second verdict is refused and changes nothing. |
| `Verifier.ConcreteVerifier.LogRemaining` | binradar/binradar_verifier.py:2452-2465 | Every still active candidate gets its final verdict and no earlier verdict changes. |
| `Verifier.ConcreteVerifier.WriteResults` | binradar/binradar_verifier.py:1771-1802 | Refused, leaving the result file alone, iff the verdicts do not cover exactly the candidates; otherwise the file holds one record per candidate in order, with its counts, its observation counts and the input that condemned it, and the stop reason known by now. |
| `Verifier.ConcreteVerifier.MarkWallTimeReached` | binradar/binradar_verifier.py:1746-1764 | The first call records that the budget ran out and, if the verdicts are complete already, writes the same records again with that reason; a later call changes nothing. |
| `Verifier.RecordsFollowCounts` | binradar/binradar_verifier.py:1771-1802 | Every written record, of a complete run or a cut one, is of its candidate and mode and follows from its counts; it names a testcase iff the candidate was rejected on the way, and then the admitted input that alone condemned it; nothing uncounted is recorded. |
| `Verifier.RecordCounts` | binradar/binradar_verifier.py:1771-1802 | The observation counts of a written record are the numbers of admitted inputs on which each thing was seen to happen. |
| `Stream.ReadMeans` | binradar/binradar_verifier.py:2322-2375 | A log is accepted iff none of its lines offends against the lines before it (a foreign stream, a late header, a row after a marker, a score without header or a header without score, a sequence number that does not grow, an unsupported stop); otherwise the first offence is the error; the reader then knows exactly the header, the marks and the largest sequence number of the log. |
| `Stream.LogKeys` | binradar/binradar_verifier.py:2349-2357 | Each admission keeps the key of its own row: more new outcomes, then signatures, then edges come first, and rows without scores go in publication order. |
| `Stream.AdmitsAllEligible` | binradar/binradar_verifier.py:2322-2367 | Reading any accepted log admits exactly its eligible rows, each once, in order. |
| `Stream.ProduceKeepsLog` | binradar/binradar_minimizer.py:270-426 | Every line the minimizer can append leaves a log the verifier accepts: sequence numbers never decrease and nothing follows the terminal marker. |
| `Stream.PublishedInOrder` | binradar/binradar_minimizer.py:360-426 | After any history of the minimizer its published rows carry strictly increasing ids, so each appears once. |
| `Stream.PublishedFinishes` | binradar/binradar_minimizer.py:360-426 | A minimizer that publishes any rows and says it is done leaves a log the verifier accepts and finishes on. |
| `Stream.AnyRowsPublished` | binradar/binradar_minimizer.py:270-426 | Any list of rows can be published: a minimizer that begins, publishes and finishes leaves its header, if it scores, one row each with ids counting up, and the done mark. |
| `Stream.NothingFollows` | binradar/binradar_minimizer.py:290-316 | A log with a terminal marker is final: no further action of the minimizer changes it. |
| `Stream.MarkedPrefixHasAll` | binradar/binradar_verifier.py:2322-2375 | Reading an accepted log up to a terminal marker reads every eligible row of it. |
| `Stream.OnlyAbortFails` | binradar/binradar_verifier.py:2303-2391 | Whatever moments the verifier looks at, a history of the minimizer can only make it fail with a missing marker, and only if the minimizer aborted. |
| `Schedule.EnqueueKeeps` | binradar/binradar_verifier.py:2355-2361 | Admitting a row keeps the queue invariant: admitted is never-started plus resumable plus completed plus in flight. |
| `Schedule.TakeKeeps` | binradar/binradar_verifier.py:2392-2405 | Taking a job leaves exactly that input in flight and the accounting intact. |
| `Schedule.LandKeeps` | binradar/binradar_verifier.py:2412-2438 | Requeueing one round later or completing restores the queue invariant. |
| `Schedule.LandCounts` | binradar/binradar_verifier.py:2412-2438 | Landing a turn charges one turn to its input and none to any other, so the total grows by one. |
| `Schedule.TurnsAreBounded` | binradar/binradar_verifier.py:2392-2442 | In every state that keeps the queue invariant the turns charged are at most admitted inputs times candidates. |
| `Schedule.EmptyQueueIsComplete` | binradar/binradar_verifier.py:2439-2441 | An empty queue means every admitted input is complete. |
| `Schedule.PrecedesIsTotal` | binradar/binradar_input_schedule.py:61-64 | Different sequence numbers never tie: round and heap key order any two queued inputs strictly. |
| `Schedule.KeysMeanAhead` | binradar/binradar_input_schedule.py:61-64 | One key is less than another iff its row in the log goes first: most new outcomes, then most new signatures, then most new edges, then the smallest sequence number; unscored rows in publication order. |
| `Streaming.LeastIsFirst` | binradar/binradar_verifier.py:2359-2395 | The popped entry is strictly before every other entry. |
| `Streaming.StreamingRun.LeastIsServed` | binradar/binradar_verifier.py:2395-2395 | In every reachable state the popped entry is strictly before every other one. |
| `Streaming.StreamingRun.LeastIsForemost` | binradar/binradar_verifier.py:2357-2395 | In every reachable state the popped entry is, of the inputs served least often so far, the one whose row in the log goes first. |
| `Streaming.StreamingRun.ServeTurn` | binradar/binradar_verifier.py:2392-2438 | A turn serves the input that was served least often and, among those, whose row has the most new outcomes (then signatures, then edges, then the smallest sequence number), and works on that input alone; the turn is counted for it, or the deadline cut it and the input stays in flight with the books balanced and the journal right. |
| `Streaming.StreamingRun.ReadTo` | binradar/binradar_verifier.py:2303-2367 | Ingesting up to a frozen boundary, which the deadline may cut anywhere, keeps the run valid at the offset reached; an error is the ingestion error of what lies before the boundary. |
| `Streaming.StreamingRun.JudgeMeans` | binradar/binradar_verifier.py:2369-2442 | What follows a read: a failure exactly when there is one, another look exactly at a writer first seen dead without its marker, a stop for its reason only, a turn only with somebody active and something queued, and waiting only with an empty queue and no marker; beside a minimizer a stop mark ends the run at once, in a replay only once nobody is active or nothing is queued. |
| `Streaming.StreamingRun.Act` | binradar/binradar_verifier.py:2368-2442 | After a read the run fails exactly for a judged condition, serves one turn for the foremost input, waits or looks again, or stops settled; beside a minimizer a stop mark stops it as wall time with no turn taken and nothing learnt. |
| `Streaming.StreamingRun.Round` | binradar/binradar_verifier.py:2303-2442 | One iteration of the loop: it fails only for a refused line, a log that shrank or a judged condition, and, unless the deadline comes first, whenever there is one; otherwise everything the tick sees is read; a serving round counts exactly one turn; a live round that sees a stop mark ends the run with no turn taken and nothing learnt. |
| `Streaming.StreamingRun.Run` | binradar/binradar_verifier.py:2290-2446 | For any log and any observations of boundary and writer liveness: the run ends at the first observation that is a failure or, beside a minimizer, shows it stopped, and at no failure without failing, unless a deadline or a settled stop comes first; a log with a terminal marker that is seen whole more often than inputs times candidates ends the run. |
| `Streaming.StreamingRun.TurnsBounded` | binradar/binradar_verifier.py:2392-2442 | At every point of a run over a marked log the turns taken are at most published inputs times candidates. |
| `Streaming.StreamingRun.CloseJournal` | binradar/binradar_verifier.py:2466-2475 | After everything was rejected, what every resumable sweep has left is skipped: afterwards every candidate is noted for every input that was ever started, each once and truthfully, and the notes are exactly what the verifier knows. |
| `Streaming.StreamingRun.SettledRecords` | binradar/binradar_verifier.py:2439-2465 | What the records of a stop are: after an exhausted stop, or one for a replayed stop mark without deadline, right about every candidate in a reliable lab; after an all-rejected one, refutations of every candidate. |
| `Streaming.StreamingRun.Report` | binradar/binradar_verifier.py:2452-2477 | The records after a stop and the file they are written to, marked iff the budget ran out: a decided run in a lab without unusable attempts verifies exactly the candidates no admitted input fails, names an input that condemned each rejected one, and counts for the others on how many inputs each thing happened; an all-rejected run rightly verifies none. |
| `Streaming.StreamingRun.WindUp` | binradar/binradar_verifier.py:2452-2477 | Everything after the loop: the journal accounts for the verifier's knowledge at the stop, the records follow from it, and a budget that ends only afterwards marks the file and leaves the records as they are. |
| `Streaming.CompleteRecord` | binradar/binradar_verifier.py:1771-1802 | The record of a candidate once every admitted input was tried without unusable attempts: verified iff no input fails it, naming an input that condemned it iff one does, and otherwise counting on how many inputs each thing happens in its own execution. |
| `Streaming.VerifyStream` | binradar/binradar_verifier.py:2240-2477 | End to end from construction to records, for every log, arrival order, score order, quantum cut and mode.  It fails exactly at the first observation that is a failure, unless a deadline or a stop ends it first; a marked log seen whole often enough ends the run; a stop has one record per candidate, explained by exact counts, in a file marked iff the budget ran out in time or late.  Without a deadline a wall-time stop has read a stop mark, and an exhausted or all-rejected one has not; a replay of a stopped log serves its queue first, so its records are right about every candidate.  In every lab an exhausted stop has tried every still active candidate on every admitted input, classified or lost, and everybody is noted for every input; without unusable attempts its records are right about every candidate (verdict, condemning input, counts), and on an accepted log it has read every published row.  An all-rejected stop is right about every candidate and everybody is noted for every input that was started.  The journal notes no candidate twice for one input, tells of each its own execution, and, except after a cut in ordinary mode, its notes are exactly the pairs classified, blind and lost. |
| `Streaming.ExhaustedIsFinal` | binradar/binradar_verifier.py:2439-2442 | Beside a live minimizer an exhausted stop has read every row there will ever be. |
| `Streaming.FinishedIsDecided` | binradar/binradar_verifier.py:2290-2446 | A finished log, seen whole often enough without deadline and unusable attempts, ends exhausted or all-rejected, and either way its records are right about every candidate on all published inputs. |
| `Streaming.VerifyLive` | binradar/binradar_verifier.py:2240-2477 | The verifier beside a live minimizer, over every history of the minimizer and every choice of moments to read and look: it fails only if the minimizer aborted; an exhausted stop is final and, in a reliable lab, right about all published inputs; once the minimizer has finished well, enough rounds in a reliable lab without deadline decide every candidate as its executions on all published inputs call for.  A budget that ends after the verifier did marks its file and changes no record. |
| `Classification.ExporterAgrees` | binradar/binradar_feedback_export.py:20-60 | For every normal or target-crash baseline and every execution result, the bin recomputed from the packed journal record equals the verifier's canonical observation iff the baseline's vector is as long as its hit count or the run is not a clean normal one. |
| `Classification.RecomputedIsWhatHappened` | binradar/binradar_feedback_export.py:20-60 | For every published baseline and every attempt the journal can hold, each of the nine bins is the one recomputed from the packed records iff its facts hold. |
| `Classification.JournalKeeps` | binradar/binradar_feedback_capture.py:136-149 | A journal record keeps how the attempt ended, its proved fault address and its branch vector. |
| `Classification.LostVectorDisagrees` | binradar/binradar_feedback_export.py:227-254 | A concrete member of the excepted family: a normal baseline with one hit and no vector makes the two readings differ. |
| `Classification.LabelledRowsAreAdmitted` | binradar/binradar_verifier.py:173-178 | A baseline is labelled normal iff it exited normally, and target-crash iff it is a crash the admission gate lets through. |
| `Journal.NotedConcat` | binradar/binradar_verifier.py:2095-2137 | Stretches of work on disjoint indices add up: notes put one after the other are true, name nobody twice, cover the union and say exactly what was learnt over both; only the last stretch may be cut. |
| `Journal.GroupNoted` | binradar/binradar_verifier.py:2074-2137 | Skips on the way followed by the group's one note are the notes of the whole group: everybody who left is named once, and exactly the members were learnt. |
| `RunJournal.KeptWrites` | binradar/binradar_verifier.py:2392-2437 | Writing down a turn keeps the journal's invariant: every page is true, queued inputs have exactly what they no longer hold noted, other inputs everybody, and the notes are the verifier's knowledge; after a cut in feedback mode the last still holds. |
| `RunJournal.EmptyQueueIsNoted` | binradar/binradar_verifier.py:2439-2441 | With an empty queue every candidate is noted for every admitted input. |
| `RunJournal.CloseStarted` | binradar/binradar_verifier.py:2466-2475 | Skipping what a started input has left completes its page and keeps the rest of the journal. |
| `Export.NotesFit` | binradar/binradar_feedback_export.py:225-238 | Notes that name no candidate twice pass the exporter's guards one by one. |
| `Export.NotesAgree` | binradar/binradar_feedback_export.py:227-254 | The exporter's recomputed bin of a true note equals the journalled observation, for a normal or target-crash baseline, iff the baseline's vector was not lost. |
| `Export.JournalExports` | binradar/binradar_feedback_export.py:225-258 | What a run journals for one input never trips the exporter's duplicate or membership errors, and with a complete baseline vector never its classification error. |
| `Export.JournalLoads` | binradar/binradar_feedback_bundle.py:331-412 | The bundle exported from a whole run's journal is accepted by the loader iff the candidate list has no over-long run. |
| `Export.NobodyNotRun` | binradar/binradar_feedback_export.py:155-161 | After an exhausted stop the exported list of candidates not run is empty for every input; after an all-rejected stop it is for every input that was started. |
| `Export.ExportedCounts` | binradar/binradar_feedback_export.py:147-153 | Every exported concrete column is the number of inputs with a normal or target-crash baseline on which the verifier made that observation, never more than the verifier's own count, and equal to it when all baselines are such.  Only the two columns that compare vectors need complete baseline vectors. |
| `Export.WitnessExactly` | binradar/binradar_feedback_export.py:423-436 | In feedback mode a candidate is exported as rejected without a witness iff some input condemned it, none with a normal or target-crash baseline did, and no mutation failed it. |
| `Export.RunExports` | binradar/binradar_feedback_export.py:423-436 | Of any feedback-mode run, however it stopped, with normal and target-crash baselines only: a candidate is exported as a hard reject iff its record is not feedback-accepted, never as rejected without a witness, and with complete vectors every exported count is the count in its record. |
| `Export.TimedOutBaselineHides` | binradar/binradar_feedback_export.py:40-43 | A concrete member of the other family: against an admitted input whose own run timed out, a crash at the fault of the proof of concept rejects the candidate and is exported as unclassified. |
| `BranchCodec.BranchCodecRoundTrip` | binradar/binradar_feedback_capture.py:93-119 | Unpacking a packed vector, present or absent, returns it. |
| `BranchCodec.BranchCodecCanonical` | binradar/binradar_feedback_capture.py:104-119 | Whatever unpacks was packed: hit count and text are the packing of the result. |
| `BranchCodec.PackInPlace` | binradar/binradar_feedback_capture.py:93-101 | The in-place byte loop writes the two-bit packing of the vector. |
| `BranchCodec.UnpackPacked` | binradar/binradar_evidence.py:403-413 | The evidence reader's unpacking undoes packing. |
| `BranchCodec.PackUnpacked` | binradar/binradar_evidence.py:403-413 | The evidence reader accepts only packed vectors: size, values and padding are forced. |
| `IdRanges.EncodeIds` | binradar/binradar_feedback_capture.py:39-56 | The run loop over sorted ids emits the maximal runs, refusing a nonpositive id and a duplicate. |
| `IdRanges.RunsAreExact` | binradar/binradar_feedback_capture.py:39-56 | The runs of increasing ids are ordered and denote exactly those ids. |
| `IdRanges.ParseIdRanges` | binradar/binradar_feedback_capture.py:59-75 | The parser loop with its running end accepts exactly what the range grammar function accepts. |
| `IdRanges.RangesRoundTrip` | binradar/binradar_feedback_capture.py:59-75 | Parsing undoes printing for every valid list of ranges. |
| `IdRanges.ParsesExactly` | binradar/binradar_feedback_capture.py:59-75 | A text is accepted iff it is `none`, or names rising, disjoint ranges of positive 32-bit ids, without leading zeros, between commas; and then it is read as those ranges. |
| `IdRanges.IdsRoundTrip` | binradar/binradar_feedback_capture.py:78-90 | Decoding an encoded set against a universe returns the sorted ids iff all lie in the universe, and is refused otherwise. |
| `IdRanges.IdsRoundTripAlone` | binradar/binradar_feedback_capture.py:78-90 | Without a universe the round trip holds exactly when no run spans more than a million. |
| `IdRanges.LongRunRefused` | binradar/binradar_feedback_capture.py:78-90 | A family on which it fails: any list of more than 1,000,001 consecutive candidates from 1. |
| `Members.BoundsAccepted` | binradar/binradar_feedback_bundle.py:179-190 | A list of ranges is accepted iff every id it denotes is in the universe: the endpoint distance test suffices, by pigeonhole. |
| `Members.FitsMeansAll` | binradar/binradar_feedback_bundle.py:184-190 | Endpoints as far apart as their positions leave no hole between them. |
| `Members.BoundsCanonical` | binradar/binradar_feedback_bundle.py:179-202 | Index bounds are determined by the set they denote. |
| `MemberPool.Bitmap` | binradar/binradar_feedback_bundle.py:131-143 | The byte-wise bitmap has exactly the bits inside the half-open intervals. |
| `MemberPool.InternExact` | binradar/binradar_feedback_bundle.py:179-202 | A parsable text is accepted iff all its ids are candidates, and the bounds hold exactly their positions. |
| `MemberPool.KeyInjective` | binradar/binradar_feedback_bundle.py:193-199 | One stored key, bitmap or bounds, denotes one set. |
| `MemberPool.MemberSet.ContainsExactly` | binradar/binradar_feedback_bundle.py:156-164 | Bitmap and interval-parity membership, and truthiness, both agree with the denoted set for every index, negative ones included. |
| `MemberPool.MemberSet.Mask` | binradar/binradar_feedback_bundle.py:166-169 | The mask's bits are exactly the denoted indices, in either stored form. |
| `MemberPool.Pool.CollectBounds` | binradar/binradar_feedback_bundle.py:183-192 | The bound-collecting loop equals its specification, merging adjacent ranges and refusing a spanned hole. |
| `MemberPool.Pool.Intern` | binradar/binradar_feedback_bundle.py:179-202 | Interning succeeds iff the text denotes candidates, keeps earlier entries and the pool invariant; a refused text changes nothing. |
| `MemberPool.Pool.SharedIffEqual` | binradar/binradar_feedback_bundle.py:172-202 | Two interned texts share one object iff they denote the same set. |
| `BitCounts.AddMaskCounts` | binradar/binradar_feedback_bundle.py:210-221 | Adding a mask adds one to exactly the candidates in it. |
| `BitCounts.SlicedCountsArePlain` | binradar/binradar_feedback_bundle.py:205-234 | After any additions each candidate's weighted plane bits equal how many added masks contained it. |
| `BitCounts.Ripple` | binradar/binradar_feedback_bundle.py:210-221 | The carry loop over planes computes ripple-carry addition. |
| `BitCounts.Counters.Add` | binradar/binradar_feedback_bundle.py:210-221 | One bin takes one mask; the others are untouched. |
| `BitCounts.Counters.Validate` | binradar/binradar_feedback_bundle.py:223-234 | Validation accepts iff every stored row equals the counts of the added masks and the planes fit the candidates' bytes. |
| `BitCounts.AddAllWithin` | binradar/binradar_feedback_bundle.py:210-221 | Masks inside the universe keep every plane inside it. |
| `Bundle.EncodedSetDenotes` | binradar/binradar_feedback_export.py:155-161 | The loader reads an encoded set back as exactly its members' positions. |
| `Bundle.WrittenInputOk` | binradar/binradar_feedback_export.py:155-161 | The rows of one input satisfy the loader's join, disjointness, partition and status conditions. |
| `Bundle.WrittenTotalCount` | binradar/binradar_feedback_export.py:147-153 | The loader's recount of every candidate and bin equals what the writer counted. |
| `Bundle.LoaderAcceptsWriter` | binradar/binradar_feedback_bundle.py:331-412 | For any evidence passing the writer's guards the loader accepts the emitted bundle iff no run of the header's candidate list spans more than a million. |
| `BundleWriter.CountMembers` | binradar/binradar_feedback_export.py:150-153 | Counting adds one in one column for exactly the members. |
| `BundleWriter.FitExactly` | binradar/binradar_feedback_export.py:227-238 | The guards, applied record by record, pass iff the records name candidates only, none twice, and every group stands for one of its own members (or, for a mutation, the dropped baseline). |
| `BundleWriter.WriteInputRows` | binradar/binradar_feedback_export.py:225-258 | Streaming one input emits the rows and coverage of its records and adds exactly its share to the counters; it raises iff a guard is violated. |
| `BundleWriter.Writer.Input` | binradar/binradar_feedback_export.py:163-329 | Between inputs only rows and counters survive, and they are those of all evidence streamed. |
| `BundleWriter.Writer.LastRows` | binradar/binradar_feedback_export.py:423-435 | The candidate rows written from the counters alone are the classified rows, or the excluded rows with their reason, of all evidence streamed, and every class says exactly what the evidence shows. |
| `Bundle.ExclusionMeans` | binradar/binradar_feedback_export.py:427-435 | A candidate is excluded as a hard reject iff some executed group with it in it earned a failing bin in either domain, as witness-unavailable iff it is only known to fail otherwise, and as unsupported iff neither holds and it has no descriptor. |
| `BundleMeaning.CandidateMeans` | binradar/binradar_feedback_bundle.py:124-128 | A candidate is classified unless it was seen failing, is known to fail or has no descriptor; its row carries that descriptor, and in both domains its class is equivalent, subset, superset, mixed or insufficient exactly when crash-pass, crash-fail, same-branch and different-branch groups with it in it are recorded as the class says. |
| `BundleMeaning.RowTellsRecord` | binradar/binradar_feedback_export.py:147-153 | The observation rows of an input are its executed groups that stand for somebody, in order and nothing else, each with its own representative, bin and members. |
| `BundleMeaning.WrittenCoverageMeans` | binradar/binradar_feedback_export.py:155-161 | The coverage row lists exactly the candidates in no record, those executed without a usable bin, and those skipped, and is complete iff everybody has a usable observation, unavailable iff nobody was executed otherwise, and partial in between. |
| `BundleWriter.Writer.Finish` | binradar/binradar_feedback_export.py:332-436 | The finished bundle is the specified one, its classes say exactly what the evidence shows, and the loader accepts it iff the candidate list has no over-long run. |
| `Masks.MaskMeets` | binradar/binradar_feedback_bundle.py:394-410 | Masks overlap iff the sets do. |
| `Loader.JoinObservation` | binradar/binradar_feedback_bundle.py:331-340 | An observation row is accepted iff its text denotes a nonempty set of candidates containing the representative. |
| `Loader.JoinCoverage` | binradar/binradar_feedback_bundle.py:341-352 | The three coverage texts are accepted iff they denote pairwise disjoint sets of candidates. |
| `Loader.CountRows` | binradar/binradar_feedback_bundle.py:391-400 | The mask loop accepts iff no candidate is observed twice, and then holds the observed and usable sets and has counted every row. |
| `Loader.CoverageMasksExact` | binradar/binradar_feedback_bundle.py:401-410 | The mask equations decide exactly the partition and status conditions on sets. |
| `Loader.CountInput` | binradar/binradar_feedback_bundle.py:391-410 | One input is accepted iff its rows satisfy the specification, and then the counters grew by its rows. |
| `Loader.IndexRows` | binradar/binradar_feedback_bundle.py:353-370 | Candidate rows are accepted iff well formed with exactly one row per candidate. |
| `BundleMeaning.FormedExactly` | binradar/binradar_feedback_bundle.py:359-368 | A candidate row whose counters agree with the observation rows is accepted iff, when classified, it has a descriptor, was never seen failing, and its classes say what the observation rows show of it. |
| `BundleMeaning.AcceptedCoverage` | binradar/binradar_feedback_bundle.py:401-410 | Of an accepted input: the unusable list is exactly the candidates named without a usable bin, the other two together exactly those named by no row, and the status says how much was seen. |
| `BundleMeaning.DisjointMeans` | binradar/binradar_feedback_bundle.py:394-396 | The running check refuses an input iff two of its rows name the same candidate. |
| `Loader.CheckCounts` | binradar/binradar_feedback_bundle.py:411-412 | Sliced validation accepts iff every stored count is the total over the inputs. |
| `Loader.LoadBundle` | binradar/binradar_feedback_bundle.py:293-415 | Loading with interned sets, masks and sliced counters succeeds exactly on the bundles the set-and-count specification accepts, and every candidate row of a loaded bundle is as its observations show. |
| `Frames.FrameReadsBack` | binradar/binradar_evidence.py:143-150 | A written frame reads back whatever follows it, for any checksum function. |
| `Frames.CutReadsAsPrefix` | binradar/binradar_evidence.py:196-224 | A frame stream cut at any byte yields exactly the frames wholly present; tolerant reading raises nothing, strict reading raises iff the cut is inside a frame. |
| `Frames.WholeIsLargest` | binradar/binradar_evidence.py:196-224 | The number of frames wholly present is the largest number whose encoding fits the cut. |
| `Frames.ReadIsWritten` | binradar/binradar_evidence.py:196-224 | Whatever is yielded was written byte for byte with a matching checksum, and a strict reading without error consumed the whole file. |
| `Frames.WholeFrameReads` | binradar/binradar_evidence.py:205-224 | Of any whole frame the checksum decides first, then the record type, and otherwise the frame is read as it is. |
| `Frames.StopsWhereItMust` | binradar/binradar_evidence.py:196-224 | Reading stops only where no writable frame lies in full, and raises unless that is the end of the file or a tolerated cut. |
| `Frames.ReadAll` | binradar/binradar_evidence.py:196-224 | The reading loop over a stream position equals the specification. |
| `Frames.CutFileReadsAsPrefix` | binradar/binradar_evidence.py:176-224 | The same for a file with its header, cut anywhere after it. |
| `Frames.HeaderLayout` | binradar/binradar_evidence.py:139-140 | The sixteen header bytes of each kind of file. |
| `Frames.HeaderExactly` | binradar/binradar_evidence.py:176-195 | A file header is accepted iff it is the kind's own, up to the older versions of a BINRADAR log. |
| `Filter.WriteBitmap` | binradar/binradar_evidence.py:237-239 | The bit loop sets exactly the survivors' bits. |
| `Filter.WriteFilter` | binradar/binradar_evidence.py:227-243 | Each refusal happens under exactly its condition, and otherwise the payload encodes the set. |
| `Filter.WrittenReads` | binradar/binradar_evidence.py:246-265 | A written payload reads back as the count and the sorted survivors. |
| `Filter.ReadWasWritten` | binradar/binradar_evidence.py:246-265 | Every accepted payload is one the writer produces for the set returned. |
| `Varints.U32RoundTrip` | binradar/binradar_evidence.py:386-400 | Every 32-bit number reads back from its ULEB128 encoding (section 7.6 of DWARF 5), whatever follows. |
| `Varints.ReadSpells` | binradar/binradar_evidence.py:386-400 | A number is read iff one to five bytes, all but the last with their top bit set, spell a 32-bit number, padding allowed. |
| `Varints.Decode` | binradar/binradar_evidence.py:386-400 | The shift-and-or loop equals the positional value, with its five-byte and 32-bit limits. |
| `Structs.UnpackPacked` | binradar/binradar_evidence.py:60-61 | Fixed-width little-endian records unpack to what was packed. |
| `Iterations.MembersRoundTrip` | binradar/binradar_evidence.py:465-476 | Any increasing list of 32-bit ids reads back from its deltas. |
| `Iterations.ParsedMembers` | binradar/binradar_evidence.py:465-476 | Parsed members strictly increase, fit in 32 bits and were not seen before. |
| `Iterations.ParsedIteration` | binradar/binradar_evidence.py:416-493 | In versions 1 to 4, every accepted iteration has a positive id and groups that say about crashes only what the version allows, are strictly increasing, pairwise disjoint and contain their representative. |
| `Iterations.IterationRoundTrip` | binradar/binradar_evidence.py:416-493 | Every iteration well formed for a version reads back from its encoding in that version. |
| `IterationSpelling.ReadsExactly` | binradar/binradar_evidence.py:416-493 | A payload is read as an iteration, in any version, iff the iteration is well formed for the version and the payload spells it: heads, fault sites and branch vectors byte for byte, member deltas up to padding, nothing left over. |
| `BinradarLog.ReadMembers` | binradar/binradar_evidence.py:465-476 | The member loop over a payload offset equals its specification. |
| `BinradarLog.ReadIteration` | binradar/binradar_evidence.py:416-493 | The nested parsing loops, in every version, accept exactly the specified payloads and return well-formed iterations. |
| `BinradarLog.YieldedInSequence` | binradar/binradar_evidence.py:496-527 | Whatever frames a log of any version holds, the yielded ids follow that version's rule from the baseline on. |
| `BinradarLog.IdsIncrease` | binradar/binradar_evidence.py:510-526 | In every version ids in sequence strictly increase. |
| `BinradarLog.ContiguousIds` | binradar/binradar_evidence.py:510-518 | In version 1 the ids count up from the baseline without a gap. |
| `BinradarLog.LogIsSound` | binradar/binradar_evidence.py:496-527 | For any bytes at all, every yielded iteration is well formed and in sequence by the rules of the version its header names. |
| `IterationSpelling.SequenceMeans` | binradar/binradar_evidence.py:509-526 | Ids are in sequence iff the first is one and each later one counts up by one in version 1 and increases otherwise. |
| `IterationSpelling.YieldsUpToFault` | binradar/binradar_evidence.py:509-527 | One iteration is yielded for each frame up to the first that holds none that may follow; that frame, or an error of the frame reader, is the only failure. |
| `BinradarLog.CutLogReadsAsPrefix` | binradar/binradar_evidence.py:496-527 | A valid log cut at any byte after its header yields exactly the iterations wholly present, and no error. |
| `Novelty.MaskMeans` | binradar/binradar_input_schedule.py:164-194 | An outcome bit is set iff some state made the predicate yield that outcome. |
| `Novelty.BuildGroups` | binradar/binradar_input_schedule.py:151-162 | Grouping lists each distinct predicate once with exactly its positions. |
| `Novelty.SetSlot` | binradar/binradar_input_schedule.py:189-192 | Or-ing an outcome into a clear two-bit slot fills exactly that slot. |
| `Novelty.ReduceState` | binradar/binradar_input_schedule.py:178-193 | Evaluating each distinct predicate once fills the whole packed vector and every candidate's mask. |
| `Novelty.RepeatAddsNothing` | binradar/binradar_input_schedule.py:175-177 | A state equal to its neighbour adds no outcome and no signature. |
| `Novelty.Reduce` | binradar/binradar_input_schedule.py:164-194 | Skipping repeated neighbours and sharing predicates gives the same masks and signatures as every predicate on every state. |
| `Scorer.CountAdded` | binradar/binradar_input_schedule.py:328-329 | The new bits counted are exactly the growth of the seen bits. |
| `Scorer.ScoresAddUp` | binradar/binradar_input_schedule.py:328-348 | Over any run the scores issued add up to what all committed inputs showed: outcomes to the pairs of a candidate and an outcome it had in some state, signatures to the digests of the states' vectors, edges to the positions with a nonzero byte in some coverage. |
| `Scorer.NoveltyScorer.Score` | binradar/binradar_input_schedule.py:307-348 | A closed or busy scorer refuses, malformed arguments are invalid, and a deadline before or after the reduction or a failing reducer cancels, each under exactly its condition; a cancelled call closes the scorer and none of the three touches a history.  Histories stay the features of all committed captures, issued scores always sum to the history sizes, and what was not captured scores nothing. |
| `Scorer.NoveltyScorer.constructor` | binradar/binradar_input_schedule.py:199-215 | An empty history conserves. |
| `CallJump.JumpDecodes` | binradar/binradar_setup.py:576-612 | A nonempty result decodes as FF /4 with the call's prefixes, RSP base, index and scale, and the displacement plus eight. |
| `CallJump.AddressKept` | binradar/binradar_setup.py:576-612 | For all register values, with RSP lowered by eight, the jump's effective address (ModR/M and SIB rules, Intel SDM Volume 2 section 2.1.5) equals the call's, also under an address-size override. |
| `CallJump.HandledExactly` | binradar/binradar_setup.py:587-608 | A result is produced iff the bytes decode as FF /2 with memory at RSP and no REX.B byte occurs last among the REX prefixes; it is empty iff the displacement plus eight leaves 32 bits. |
| `CallJump.PrefixBytes` | binradar/binradar_setup.py:584-592 | The bytes skipped as prefixes are the REX bytes 0100WRXB and the eleven legacy prefixes. |
| `CallJump.JumpIsShortest` | binradar/binradar_setup.py:609-612 | No shorter bytes decode to the same jump. |
| `CallJump.RspCallJump` | binradar/binradar_setup.py:576-612 | The prefix scan and bit manipulation compute the specified bytes. |
| `Intervals.NormalExact` | binradar/binradar_setup.py:338-362 | Normalization keeps exactly the covered addresses, sorted with strict gaps. |
| `Intervals.MergeExact` | binradar/binradar_setup.py:354-362 | Merging sorted nonempty intervals yields the canonical form of their union. |
| `Intervals.NormalDependsOnUnion` | binradar/binradar_setup.py:338-362 | Two inputs normalize alike iff they cover the same addresses. |
| `Intervals.Normalize` | binradar/binradar_setup.py:338-362 | The validate, sort and merge loops refuse iff an interval is empty or reversed, and otherwise return the normal form. |
| `Intervals.ParseSerialized` | binradar/binradar_setup.py:365-391 | Parsing the serialization of a canonical list returns it unchanged. |
| `Intervals.ParsedIsCanonical` | binradar/binradar_setup.py:370-391 | Whatever parses is canonical. |
| `Intervals.ParsesExactly` | binradar/binradar_setup.py:370-391 | A text is accepted iff it is a comma-separated list of named nonempty ranges, and what comes back is the canonical list of exactly their addresses. |

## Left out

- CWE-805 predicates and the parsing of captured snapshots: the grouping theorems take any guard and any captured states; the closed grammar would only add easy members.
- The tokenizer of infix predicates: tokens are given; named constants carry their value.
- Unscored row versions other than the marker rules, and the VERIFIER record codec.
- Waiting for the row file to appear, polling sleeps, and exceptions of the workers themselves, which end a run without records.
- Bundle rows for traces, inputs and baselines, their file hashes and joins by key: the model groups each input's observations and coverage with the input.
- Mutation-domain labelling by image identity and offset: the bin of a mutation group is given; only concrete classification is recomputed.
- Torn lines and byte offsets of the row log: appends are atomic lines.
- Python's recursion limit and `compile`/`eval`: the compiled function is modelled as an evaluator over the parsed prefix term.
- Sorting by the library: `IdRanges.EncodeIds` takes the sorted ids, `Intervals.Normalize` uses an insertion sort with the same order.
- Process pools, pipes and worker chunking in the setup filter and the novelty scorer: one sequential evaluation.
- Capture journal files, atomic replacement, metadata digests and directory layout.
- Reporting, configuration, pipeline and run-record modules.
