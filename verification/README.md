# RegexKit: a model of its hard parts

RegexKit wraps PCRE for Objective-C. This project models the parts of it that do real work around the
matcher, and proves what they keep, deliver and fail to deliver. The matcher itself is left open: it is
given a range to search, and says that there is no match or gives the ranges of the captures, the first
of them inside the range searched.

The parts, and the files that hold them:

* **The thread pool** (`ThreadPool`, `ThreadPoolSteps`, `ThreadPoolSafety`, `ThreadPoolExecution`, `ThreadPoolProgress`): any number of
  callers hand functions with stack-allocated arguments to worker threads through job slots and a
  handshake over one lock per worker. A state machine, one step per access to shared state.
  Try locks and timed locks may fail at any time. The number of a call stands for its function and
  argument. History fields (who holds a slot, who is waking a worker, which call woke it) are read by no step.
* **The condition lock** below it (`ConditionLock`): a mutex and a condition variable, with waits, timeouts,
  signals and broadcasts as separate steps. The critical sections are methods of the lock object, and
  proved to be the steps of the machine.
* **The parallel search** (`ParallelSearch`, `ParallelSearchResults`, `ParallelSearchMisses`): workers claim slots
  of a sorted regex collection and publish a match by compare-and-swap. A state machine over any number of workers.
* **The self-reordering collection** (`HitOrder`, `HitCounts`, `MissTable`, `SortedCollection`): hit counts under a
  read/write lock, the lazy stable sort, the table of missed objects, and the collection as one
  thread uses it.
* **Search and replace** (`Instructions`, `CaseExpansion`, `CaseSpans`, `ReferenceCompiler`, `Applier`, `Expander`,
  `Matching`, `Replacer`, `Replacement`; and `TemplateTexts`, `TemplateExpansion`, `WrittenReplacement`, which say the
  same of templates letter by letter): a template is compiled to reference instructions, these are applied to every
  match and append copy instructions, which are evaluated into a buffer. All texts lie in one flat
  memory; adjacent pieces are joined by comparing addresses. Case mapping is a parameter.
* **The inline number reader** (`NumberReader`), **UTF-8 and UTF-16 ranges** (`Unicode`), **the enumerator**
  (`Enumerator`) and **array filtering** (`ArrayAction`).

`Base` holds what they share.

## What comes out

The thread pool meets its purpose: no call returns before a worker has executed it, every worker that joins a
call executes it (`ThreadPoolExecution.ReturnedCallWasExecuted`, `EveryJoinerExecutes`), an argument does not
outlive its call, workers call what they were woken for, and in every run the work done is bounded by a fixed amount for each call
(`ThreadPoolProgress.WorkIsBounded`). What is not bounded is waiting: rounds of polling and failed attempts to
take a lock, none of which is ever all that can happen (`ThreadPoolProgress.NoDeadlock`). In other places the
code does less than it intends, and the model says exactly when:

* A search by several workers can come back empty although a regex matches, if and only if there are more
  workers than regexes that the search could return (`ParallelSearchMisses.MissesIff`). A worker that has
  claimed a slot drops it when another one has marked the search as finished.
* For the same reason a lowest-index search can record an index that is not the least, if and only if it has
  two workers or more (`ParallelSearchMisses.RecordsOtherIff`).
* In lowest-index mode only the regex at index 0 is ever returned (`SortedCollection.PublishesIff`), and a call
  that finds nothing in that mode makes later calls on the same object return nothing
  (`MissTable.LowestMissPoisons`). `MissTable.WrongAnswerIff` says when the table changes an answer.
* An instruction buffer that grows past 64 instructions loses the first 64 (`Instructions.StoredTextIsWholeIff`);
  a template of more than 64 instructions expands to nothing. How many instructions a template has, and
  how many copies a replacement without case operations takes, can be computed from the arguments of the
  call, and `Expander.ExpandPlain` and `Replacement.ReplacePlain` say from that whether the string that is
  returned is the right one. Replacing each of 65 bytes by another one leaves a single byte
  (`Replacement.ReplaceEveryByte`).
* A template with one case operation comes out wrong, or ends in an exception, if and only if an empty copy
  takes effect: in the run of `\U` or `\L`, one beside a copy that is not empty; in the run of `\u` or `\l`, one that
  comes first with another one behind it that is not empty (`CaseSpans.OneCaseIsRightIff`).
* Replacing all matches goes on for ever if and only if the search gets to an empty match at its own
  position before the end of the range (`Matching.DivergesIff`). An enumerator also sticks on one at the very end
  (`Matching.EndlessIff`).
* The signed decimal conversion clamps above 2147483644, not above the largest integer
  (`NumberReader.ReadsBackIff`).
* An unlock that wakes one sleeper, or none, leaves a thread asleep whose condition holds exactly if that
  thread and, for one, another one sleep (`ConditionLock.WakeForgetsIff`). The thread pool wakes all.

## Model

| member | source | states |
|---|---|---|
| `ThreadPoolSafety.RunInv` | Source/RKThreadPool.m:231-360 | The invariant of slots, locks, handshakes and both kinds of threads holds in every reachable state, for any number of callers and workers |
| `ThreadPoolSafety.ArgumentDoesNotEscape` | Source/RKThreadPool.m:255-292 | Once a call has returned, no worker is inside its function or holds its argument, then or at any later time |
| `ThreadPoolSafety.CallsWhatItWasWokenFor` | Source/RKThreadPool.m:338-349 | A worker inside a job function is inside that of the very call that woke it, with that call's argument, while the caller still waits: never NULL, never a later job's |
| `ThreadPoolExecution.LeavesAfterExecuting` | Source/RKThreadPool.m:349-350 | In every run, a worker on its way out of a job has been inside the function of the call that woke it, with that call's argument |
| `ThreadPoolExecution.ReturnedCallWasExecuted` | Source/RKThreadPool.m:255-294 | No call returns unexecuted: some worker was inside its function, with its argument, before it returned |
| `ThreadPoolExecution.EveryJoinerExecutes` | Source/RKThreadPool.m:338-356 | Every worker that joins a call has been inside its function, with its argument, by the time the call returns |
| `ThreadPoolExecution.CompletedJobIsIdle` | Source/RKThreadPool.m:286-290 | When the caller goes on the asserted conditions hold: workers were started and all have left; and one has executed the call |
| `ThreadPoolExecution.StopsLookingWhenServed` | Source/RKThreadPool.m:259-275 | A caller stops looking for workers only when its job is no longer Executing or it has started as many as are live |
| `ThreadPoolSafety.ActiveCount` | Source/RKThreadPool.m:339-355 | activeThreadsCount is the number of workers that joined and have not left; zero when Available or Completed, positive when Finishing |
| `ThreadPoolSafety.ClosedAfterFirstLeave` | Source/RKThreadPool.m:341-354 | In every run, once a worker has left a job nobody joins it until the slot is given back |
| `ThreadPoolSafety.FirstWokenJoins` | Source/RKThreadPool.m:259-269 | The first worker woken for a call always finds the job Executing and joins it |
| `ThreadPoolSafety.OddIsUnreachable` | Source/RKThreadPool.m:277-284 | The branch for "no job threads were started" is never taken |
| `ThreadPoolSafety.WaiterHasWorker` | Source/RKThreadPool.m:286-286 | A caller waiting for Completed has it already, or some worker is still on its job |
| `ThreadPoolSafety.ClaimedSlotIsPristine` | Source/RKThreadPool.m:247-251 | The asserted conditions of a freshly claimed slot |
| `ThreadPoolSafety.LeavingWorkerIsCounted` | Source/RKThreadPool.m:350-352 | The asserted condition of a worker that leaves, and that its decrement does not underflow |
| `ThreadPoolSafety.HandshakeCycle` | Source/RKThreadPool.m:261-267 | A worker's lock goes Sleeping, Wakeup, Awake, RunningJob, Sleeping, each move made only by the one party entitled to it |
| `ThreadPoolSafety.QueueOnlyInHandshake` | Source/RKThreadPool.m:263-265 | threadQueue of a worker is set exactly while one caller is in a handshake with it; no second caller is; the worker has no other job meanwhile |
| `ThreadPoolProgress.NoDeadlock` | Source/RKThreadPool.m:259-360 | While a call is outstanding a step that counts can be taken, if need be after at most three rounds of polling by one caller in search of a worker |
| `ThreadPoolProgress.CountingStepLowersRank` | Source/RKThreadPool.m:231-294 | Every step that is no polling, no failed attempt and no new call lowers the rank |
| `ThreadPoolProgress.IdleStepKeepsRank` | Source/RKThreadPool.m:259-261 | Rounds of polling and failed attempts do not raise it |
| `ThreadPoolProgress.WorkIsBounded` | Source/RKThreadPool.m:231-360 | In every run, whatever attempts fail, the steps that count are at most three for each worker and a fixed number for each call begun |
| `ThreadPoolProgress.EveryCallCanReturn` | Source/RKThreadPool.m:286-294 | From every reachable state there is a way on, of bounded length, in which every outstanding call returns |
| `ConditionLock.RKConditionLock.Take` | Source/RKLock.m:681-705 | What the code does with the mutex is the machine's step: it takes the lock as the atomic lock would, exactly when that could be acquired and the time is not up, or leaves it as it is |
| `ConditionLock.TakesWhatItCan` | Source/RKLock.m:663-705 | A lock that could be acquired is taken and nobody goes to sleep on one; a call comes back without the lock only if it is a try that could not acquire it, or a timed one whose time was up |
| `ConditionLock.RKConditionLock.Release` | Source/RKLock.m:715-718 | The unlock is the machine's step: it gives the lock back as the atomic lock would, or raises for a thread that does not own it |
| `ConditionLock.StepKeepsInv` | Source/RKLock.m:674-723 | Every step of lock and unlock keeps the invariant, and none raises an exception for threads that lock and unlock in turn |
| `ConditionLock.RefinesAtomic` | Source/RKLock.m:674-723 | Every step is invisible, or takes the free lock with the condition asked for, or gives it back by its owner; success is reported exactly for the taker |
| `ConditionLock.RunInv` | Source/RKLock.m:674-723 | In every run of threads that lock and unlock in turn no exception is raised |
| `ConditionLock.NoLostWakeup` | Source/RKLock.m:685-691 | In every run whose wake-ups reach whoever needs them, as broadcasts do, no thread sleeps on a lock that it could acquire once the mutex is free |
| `ConditionLock.WakeForgetsIff` | Source/RKLock.m:720-721 | An unlock can leave a thread asleep that could have the lock: never if it wakes all; if it wakes one, exactly when such a thread and another one sleep; if none, when such a thread sleeps |
| `ParallelSearch.RunInv` | Source/RKSortedRegexCollection.m:352-398 | The invariant of claims, tests, drops and the published match in every reachable state |
| `ParallelSearchResults.ClaimedOnce` | Source/RKSortedRegexCollection.m:356-364 | A slot is claimed once, and what becomes of it is decided once, by the worker that claimed it: tested, skipped or dropped |
| `ParallelSearchResults.ClaimsAreDistinct` | Source/RKSortedRegexCollection.m:357-364 | No two workers hold the same slot |
| `ParallelSearchResults.PublishedRegexMatches` | Source/RKSortedRegexCollection.m:376-381 | When all workers are done a published regex matches the subject and is the one at the indexes recorded beside it |
| `ParallelSearchResults.PublishedOnce` | Source/RKSortedRegexCollection.m:377-377 | A published regex is never replaced |
| `ParallelSearchResults.EmptyMeansDropped` | Source/RKSortedRegexCollection.m:356-395 | When all workers are done the search is marked as finished; with nothing published, every slot is settled and every one that could answer was dropped |
| `ParallelSearchResults.RecordedIndexMatches` | Source/RKSortedRegexCollection.m:384-384 | In every state the recorded lowest index is none, or the index of a regex that matches |
| `ParallelSearchMisses.MissesIff` | Source/RKSortedRegexCollection.m:356-395 | A search that should return something can come back empty if and only if there are more workers than regexes it could return |
| `ParallelSearchMisses.RecordsOtherIff` | Source/RKSortedRegexCollection.m:356-395 | A complete search that can publish nothing can record an index that is not the least matching one if and only if it has more than one worker |
| `SortedCollection.SearchAlone` | Source/RKSortedRegexCollection.m:352-398 | A single worker publishes the first regex in sorted order that may be published, else records the least matching index of the slots |
| `SortedCollection.PublishesIff` | Source/RKSortedRegexCollection.m:376-376 | Something is published if and only if, in any mode or a set, some regex matches, and in lowest-index mode the one at index 0 |
| `SortedCollection.RecordsLeast` | Source/RKSortedRegexCollection.m:369-384 | With nothing published the recorded index is the least of all matching regexes, or none |
| `SortedCollection.RKSortedRegexCollection.constructor` | Source/RKSortedRegexCollection.m:133-208 | A new collection: no hits, the original order, an all-zero table, no re-sort due |
| `SortedCollection.RKSortedRegexCollection.Resort` | Source/RKSortedRegexCollection.m:280-282 | The elements are in the stable order by descending hits, and no re-sort is due |
| `SortedCollection.RKSortedRegexCollection.CountHit` | Source/RKSortedRegexCollection.m:338-341 | The element of the slot has one more hit, all others as many as before, the total is one more; a re-sort becomes due exactly if the slot now has more hits than the one before it |
| `SortedCollection.RKSortedRegexCollection.Search` | Source/RKSortedRegexCollection.m:318-341 | Returns the regex of the element that comes first, in the present order, among those that match and may be returned, and counts one hit for it |
| `SortedCollection.RKSortedRegexCollection.RegexMatching` | Source/RKSortedRegexCollection.m:269-350 | The order is by hits before the search; a regex is returned exactly if the table does not hold the hash and some regex matches that may be returned; the first one in order is, and its element has one hit more |
| `SortedCollection.CallAll` | Source/RKSortedRegexCollection.m:269-350 | In a sequence of calls on a new collection each answer is the first regex that may answer, in an order by the number of calls answered so far, ties as at the call before; the hit counts at the end are these numbers; which calls answer is as the specification of the table says, and for any-mode calls on objects with distinct non-zero hashes as uncached searches |
| `MissTable.BucketHoldsLastMiss` | Source/RKSortedRegexCollection.m:299-347 | A bucket holds the hash of its last miss, whether that was searched or answered from the table |
| `MissTable.WrongAnswerIff` | Source/RKSortedRegexCollection.m:299-299 | The table changes the answer of a call exactly if its search would find a regex and the bucket's last miss has the same hash, or there was none and the hash is zero |
| `MissTable.AnyModeAnswersRight` | Source/RKSortedRegexCollection.m:295-347 | Any-mode calls on objects with distinct non-zero hashes are all answered as without the table |
| `MissTable.LowestMissPoisons` | Source/RKSortedRegexCollection.m:347-347 | After any history, a call without result, be it of lowest-index mode, makes later calls on that object return nothing, until the bucket misses another hash |
| `HitOrder.SortIsSorted` | Source/RKSortedRegexCollection.m:417-421 | The sort by the comparator returns the same elements in descending order of hits |
| `HitOrder.SortIsStable` | Source/RKSortedRegexCollection.m:281-281 | Elements with equal hits keep their order |
| `HitOrder.SortPermutes` | Source/RKSortedRegexCollection.m:281-281 | After the sort every element still has exactly one slot |
| `HitOrder.StableSortIsUnique` | Source/RKSortedRegexCollection.m:281-281 | Any stable sort into descending order of hits gives the order of this one, so that the rows about it hold of mergesort(3) |
| `HitOrder.SortDecides` | Source/RKSortedRegexCollection.m:417-421 | After the sort an element comes before another exactly if it has more hits, or as many and came before it |
| `HitCounts.RunInv` | Source/RKSortedRegexCollection.m:270-344 | In every state with any number of concurrent callers: permutation, total of hits, exclusive writers, and every slot out of order is flagged or about to be |
| `HitCounts.QuietStateIsSorted` | Source/RKSortedRegexCollection.m:338-341 | Whenever nobody holds the lock: a permutation, hit counts that add up to the hits so far, and descending order unless a re-sort is due |
| `HitCounts.NoHitIsLost` | Source/RKSortedRegexCollection.m:339-339 | In every run of concurrent callers the hit count of an element is the number of times it was counted as the one found |
| `HitCounts.FoundSlotStays` | Source/RKSortedRegexCollection.m:278-283 | While a caller holds the lock nobody else changes the order |
| `Instructions.InstructionsBuffer.Push` | Source/NSString.m:1087-1107 | The buffer holds the instructions appended, or, past 64, cleared ones in place of the first 64 |
| `Instructions.AppendInstruction` | Source/NSString.m:1082-1114 | Appends one reference instruction; an empty range copy is left out |
| `Instructions.CopyInstructionsBuffer.Append` | Source/NSString.m:1116-1158 | Appends a piece, or lengthens the last instruction if the piece starts where that one ends; copiedLength stays the sum of the lengths |
| `Instructions.CoalescedKeepsText` | Source/NSString.m:1119-1129 | A coalescing append adds exactly the bytes of its piece |
| `Instructions.CoalescedLength` | Source/NSString.m:1126-1150 | A coalescing append adds exactly the length of its piece |
| `Instructions.StoredTextIsWholeIff` | Source/NSString.m:1134-1137 | The stored copy instructions stand for the whole text if and only if there are at most 64 |
| `Instructions.Evaluate` | Source/NSString.m:874-888 | The buffer of copiedLength + 1 bytes gets the text of the kept instructions and a terminator, without overrun; it is filled exactly if nothing was lost |
| `CaseExpansion.ApplyFollowsMeaning` | Source/NSString.m:898-982 | Where no empty copy takes effect in a case span, applying the instructions gives the direct expansion |
| `CaseExpansion.NextActsOnce` | Source/NSString.m:961-976 | In the direct expansion only the first character after \u or \l is converted, as the loop does by dropping the operation after its first piece |
| `CaseSpans.OneCaseIsRightIff` | Source/NSString.m:938-982 | Plain copies, a case operation, its run up to \E or the end, and plain copies come out right for every case mapping if and only if no empty copy takes effect in the run |
| `CaseSpans.RightByAccident` | Source/NSString.m:938-985 | A template of two spans in which an empty copy takes effect and that yet comes out right for every text and case mapping |
| `CaseSpans.EmptyAfterTextRaises` | Source/NSString.m:979-982 | An empty copy after some text of a span ends in the assertion on the conversion string |
| `CaseSpans.LostSpanIsPlain` | Source/NSString.m:978-979 | An empty copy before any text of a run leaves all its text unconverted |
| `ReferenceCompiler.ParseReference` | Source/NSString.m:1197-1257 | The capture index and length of a reference, or its error, as the grammar has them |
| `ReferenceCompiler.NumberIsDecimal` | Source/NSString.m:1211-1215 | A numeral below NSNotFound is read as its value; a word with another character is a name |
| `ReferenceCompiler.ParseEscape` | Source/NSString.m:1036-1057 | What it appends stands for the element that the grammar has at the backslash; it fails where the grammar does, and appends nothing for a backslash that is a byte |
| `ReferenceCompiler.CompileDollar` | Source/NSString.m:1013-1033 | $$ and references append the run before them and their instruction |
| `ReferenceCompiler.CompileBackslash` | Source/NSString.m:1035-1066 | Backslash captures and case operations append the run before them and their instruction; any other backslash is literal |
| `ReferenceCompiler.Compile` | Source/NSString.m:1004-1080 | Compiling fails exactly where the grammar does, with its error; else the instructions are a function of the template, decode to its elements, and end in one Stop |
| `TemplateTexts.ParseReadsBack` | Source/NSString.m:1004-1075 | Written as bytes, $$, $d, \d, ${digits} and ${name}, any list of elements is read back from its text, for each digit and name |
| `TemplateTexts.FirstFaultDecides` | Source/NSString.m:1197-1257 | The first thing in a template that looks like a reference and is none (a capture or name that the regex does not have, a lone $, a brace never or too late closed) decides the error, whatever comes behind |
| `Applier.EmitNext` | Source/NSString.m:961-976 | The first character of a piece is converted, the rest copied |
| `Applier.ApplyOne` | Source/NSString.m:924-979 | One instruction emits, collects or switches case as the specification of the loop does |
| `Applier.ApplyReferences` | Source/NSString.m:890-985 | The copy instructions after the loop stand for the old text and what the loop emits, no more than two for each instruction; it raises exactly where the specification does; without case operations they are an explicit function of addresses and ranges |
| `Expander.InstructionsMeanElements` | Source/NSString.m:1004-1075 | The compiled instructions mean what the elements of the template mean, for every match and case mapping |
| `Expander.CleanTemplatesApply` | Source/NSString.m:890-985 | Applying a clean template of at most 64 instructions emits its direct expansion |
| `Expander.StringFromCopyInstructions` | Source/NSString.m:842-872 | The new buffer is the text and a terminator, if no more than 64 instructions were appended |
| `Expander.StringFromReference` | Source/NSString.m:815-830 | Compile, apply and evaluate: rejected as the grammar says, raising as the loop does, else the text of what was applied |
| `Expander.ShortTemplatesExpand` | Source/NSString.m:815-830 | A clean template of at most 32 instructions always gives its direct expansion |
| `Expander.InstructionsAreFew` | Source/NSString.m:1004-1075 | A template has at most one instruction more than bytes |
| `Expander.ExpandPlain` | Source/NSString.m:815-872 | The string of a template without case operations is its direct expansion if and only if that has no NUL, the template has at most 64 instructions or expands to nothing, and its copies are at most 64 |
| `Expander.Utf8IsWhole` | Source/NSString.m:964-974 | Every well-formed UTF-8 template consists of whole characters, as the entry points ask |
| `TemplateExpansion.ExpandItems` | Source/NSString.m:815-985 | A template of bytes and captures, of at most 32 instructions, comes out as those bytes and the bytes of those captures in the subject |
| `TemplateExpansion.ExpandCase` | Source/NSString.m:1049-1054 | Text between \U and \E comes out as the upper-case mapping of it up to its first NUL, with \L the lower-case mapping; with \u and \l only the first UTF-8 character is mapped; what is before and behind stays as it is |
| `Expander.CleanWhenCapturesHaveText` | Source/NSString.m:938-943 | A template is clean for a match whose copied captures are non-empty |
| `Expander.CleanWithoutCaseOperations` | Source/NSString.m:933-936 | A template without case operations is clean for every match, and its expansion copies the elements one after the other |
| `Matching.FoundIsAscending` | Source/RKEnumerator.m:327-330 | Successive matches are disjoint, ascending and inside the search range |
| `Matching.TakenIsAscending` | Source/NSString.m:772-782 | The same for the matches of the replace loop, of which there are at most count |
| `Matching.TakenAreSuccessive` | Source/NSString.m:772-782 | Each match of the loop is what the matcher finds from the end of the one before; there are as many as asked for, unless the search is at the end or finds none |
| `Matching.FoundAreSuccessive` | Source/RKEnumerator.m:321-336 | The same for the enumerator, which searches at the end of the range as well |
| `Matching.NonEmptyMatchesAreFew` | Source/NSString.m:772-782 | Non-empty matches: at most one for each byte, and the same ones for the loop and the enumerator |
| `Matching.DivergesIff` | Source/NSString.m:772-779 | Replacing all matches goes on for ever if and only if, before the end, the loop reaches an empty match at its own position |
| `Matching.EndlessIff` | Source/RKEnumerator.m:321-336 | An enumerator has matches for ever if and only if it reaches an empty match at its own position, the end of the range included |
| `Replacer.ReplaceAll` | Source/NSString.m:772-782 | The loop takes the matches in turn, at most count; the copy instructions stand for prefix, gaps and expansions so far |
| `Replacer.Conclude` | Source/NSString.m:786-792 | The rest of the subject follows, and the instructions are evaluated; the search string itself is returned only for an empty subject |
| `Replacer.StringByMatchingAndExpanding` | Source/NSString.m:731-797 | The result is evaluated from the rendering of the matches taken, with prefix and rest when replacing; or it is the error of the template, or an exception for a match whose template raises. The copies are bounded by matches and instructions |
| `Replacement.CleanReplacementIsDirect` | Source/NSString.m:768-790 | For clean templates the rendering is exactly the unmatched gaps in order with the expansion of each match between them, and no match raises |
| `Replacement.ReplaceClean` | Source/NSString.m:731-797 | The buffer that is returned is prefix, gaps, expansions and rest, if the template is clean for the matches and matches and instructions are few enough that no buffer overflows |
| `Replacement.ReplacePlain` | Source/NSString.m:731-797 | For templates without case operations, with or without replacing, the string that is returned is prefix, gaps, expansions and rest if and only if that has no NUL, the template has at most 64 instructions or expands to nothing, and the copies are at most 64 |
| `WrittenReplacement.ReplaceItems` | Source/NSString.m:731-797 | For any template of bytes and captures, any range and count: the matches are taken in turn, at most count of them, and the string that comes back is the subject up to the range, each gap with what the template says of its match, and the rest (without replacing, only what it says of each match), if and only if that has no NUL, the template has at most 64 instructions or says nothing, and the copies are at most 64 |
| `Replacement.ReplaceEveryByte` | Source/NSString.m:1134-1137 | Replacing each byte of a subject by one other: up to 64 bytes all are replaced, of n more only n come back |
| `Replacement.ReplaceByWholeMatch` | Source/NSString.m:770-789 | Replacing matches by $0 gives the subject back, for any range and count, and takes a single copy instruction |
| `Replacement.WholeMatchesGiveSubject` | Source/NSString.m:778-780 | With $0 for each match, gaps and matches join to the subject up to the last match |
| `Enumerator.RKEnumerator.constructor` | Source/RKEnumerator.m:93-133 | A new enumerator is at the start of its range and has performed no match |
| `Enumerator.RKEnumerator.UpdateToNextMatch` | Source/RKEnumerator.m:321-336 | Takes the next match of the list, or becomes exhausted for good |
| `Enumerator.RKEnumerator.CurrentRange` | Source/RKEnumerator.m:165-171 | The converted range of the last match; NSNotFound when exhausted; an exception before the first match |
| `Enumerator.RKEnumerator.NextRange` | Source/RKEnumerator.m:227-232 | The next match, or NSNotFound at the end and ever after |
| `Enumerator.RKEnumerator.NextObject` | Source/RKEnumerator.m:217-225 | The ranges of all captures of the next match, or NULL |
| `Enumerator.EnumerateAll` | Source/RKEnumerator.m:321-336 | With non-empty matches an enumerator is exhausted after at most as many matches as the range has bytes, and enumerates exactly what the replace-all loop takes |
| `Enumerator.ExhaustedHasEnd` | Source/RKEnumerator.m:321-336 | An enumerator that reaches an empty match at its own position is never exhausted |
| `NumberReader.ReadPrefix` | Source/NSString.m:1298-1300 | Space, sign and base of a number |
| `NumberReader.Cutoff` | Source/NSString.m:1302-1303 | The limits the two variables stand for: exact but for signed decimal numbers |
| `NumberReader.Accumulate` | Source/NSString.m:1308-1309 | One more digit: the accumulator stays the value within the limit, inside 32 bits |
| `NumberReader.ReadInteger` | Source/NSString.m:1290-1315 | The word stored for a text: the value of its longest digit run in the base of its prefix, clamped above the limit |
| `NumberReader.StoredForText` | Source/NSString.m:1298-1312 | The word stored for spaces, a sign, decimal digits, 0 with octal or 0x with hexadecimal digits in small or capital letters, and anything else behind: the number with its sign, clamped above the limit of the conversion, each limit given |
| `NumberReader.ReadsBackIff` | Source/NSString.m:1303-1308 | The signed conversion gives a written 32-bit integer back if and only if its magnitude is at most 2147483644 or it is the largest or smallest integer |
| `NumberReader.UnsignedReadsBack` | Source/NSString.m:1302-1308 | The unsigned conversion gives every 32-bit number back from its decimal text |
| `NumberReader.OctalAndHexReadBack` | Source/NSString.m:1300-1308 | In octal and hexadecimal, small or capital, the unsigned conversion gives back every unsigned and the signed one every signed 32-bit number |
| `Unicode.Char8Decodes` | Source/RKUnicode.m:43-47 | A character in UTF-8 is the shortest sequence for its value, and its bits spell the value |
| `Unicode.Char16Decodes` | Source/RKUnicode.m:49-53 | A character in UTF-16 is one code unit of its value below 0x10000, and else a surrogate pair that spells it |
| `Unicode.TablesAreRight` | Source/RKUnicode.m:43-60 | The tables, read at a first byte, give the length of the character in UTF-8 and in UTF-16 |
| `Unicode.ConvertUTF8ToUTF16` | Source/RKUnicode.m:99-134 | Ranges aligned to characters convert exactly; NSNotFound is passed through; beyond the text is an exception; a start inside a character gives NSNotFound |
| `Unicode.ConvertUTF16ToUTF8` | Source/RKUnicode.m:142-178 | The same in the other direction |
| `Unicode.RoundTrip` | Source/RKUnicode.m:99-178 | Both conversions there and back are the identity on aligned ranges |
| `Unicode.ConversionIsAdditive` | Source/RKUnicode.m:113-129 | The converter takes adjacent ranges to adjacent ranges, and together to the range of the whole |
| `Unicode.ConversionBackIsAdditive` | Source/RKUnicode.m:157-173 | The same for the converter in the other direction |
| `Unicode.RangeForCharacterAtLocation` | Source/RKUnicode.m:79-91 | The range of the character that holds the byte; at the end of a text that of its last character; one byte at 0 of an empty text |
| `ArrayAction.MatchedIndexesAreAscending` | Source/NSArray.m:89-95 | The scan collects exactly the indexes of the matching objects, in ascending order, with the objects themselves |
| `ArrayAction.Scan` | Source/NSArray.m:89-95 | The first match, or all matching indexes and objects of the range |
| `ArrayAction.RemoveAll` | Source/NSArray.m:108-108 | Removing at each index less the removals before it stays in bounds and leaves the order-preserving filter of the array |
| `ArrayAction.DoArrayAction` | Source/NSArray.m:56-124 | What each of the six actions returns and does to the array, also when an array is added to itself; a range beyond the array changes nothing |
| `ArrayAction.KeptAt` | Source/NSArray.m:108-108 | Each object that stays moves to the front by as many places as matching objects of the range were before it |
| `ArrayAction.RemoveAgreesWithCount` | Source/NSArray.m:101-108 | After a removal no object matches any more, and the length fell by what counting says |

## Left out

- CaseExpansion.ApplyFollowsMeaning: states one direction for arbitrary templates; the converse is proved for templates of one case operation (`CaseSpans.OneCaseIsRightIff`), because with more of them it is false: leftover text of one span can be picked up by another and come out right (`CaseSpans.RightByAccident`).
- TemplateExpansion.ExpandCase: for templates of at most 32 instructions whose captures between the operation and its end are not empty; `CaseSpans.OneCaseIsRightIff` says which empty ones spoil the result, and `Instructions.StoredTextIsWholeIff` what more instructions do.
- ThreadPoolProgress.EveryCallCanReturn: says that a way to the end exists, and WorkIsBounded that the work is bounded, not that a scheduler takes it; lock attempts that fail for ever are not excluded by the code.
- Replacement.ReplaceClean: for templates with case operations one direction, with a bound on matches and instructions; where converted texts lie, and so how many copies are joined, depends on the allocator.
- PCRE and `RKRegex.m`: the matcher is a parameter with the range properties it documents; its errors other than "no match" are not modelled.
- Stopping and reaping worker threads, thread start-up failures, CPU counting, thread affinity, the delays of timed locks, and running a function in line when the pool has no live workers.
- A worker's decrement of activeThreadsCount and its unlock are one step, as are the writes of threadQueue and the unlock that follows them: both fields are touched only under the lock in question.
- The bypass of all locks in a process with a single thread, and errors of the pthread calls.
- The write to the table of missed objects outside the collection's lock: calls are one after the other in `MissTable` and `SortedCollection`.
- Caching of collections, and the failures of compiling their regexes.
- Retain counts, garbage collection, autorelease pools, `alloca` and allocation failure.
- Texts of error messages and exceptions; a failed assertion is an exception.
- Buffers in MacRoman or ASCII encoding, for which the conversions of ranges do nothing.
- Texts of 4 GB and more, whose byte offsets `RKUnicode.m` truncates to 32 bits.
- The length that the conversions compute for a range that starts inside a character.
- Conversions of captures with `%` and `@` other than the inline integers, and `RKParseReference` with the flags for strict references and conversions.
- `OP_COPY_CAPTURENAME`: the compiler resolves names to indexes and never emits it.
- The string object is the filled buffer up to its first NUL, as Core Foundation makes it; without Core Foundation it takes copiedLength bytes, past what was written when instructions were lost.
- Search ranges are taken in bytes; their conversion from UTF-16 is that of `Unicode`.
- Removal from one array of the matches of another, which no caller asks for.
- `RKCache`, `NSSet`, `NSDictionary`, `NSData`, `NSObject`, `RKPlaceholder`, `RKCoder`: thin wrappers that would only add easy members.
