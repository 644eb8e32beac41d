# Course projects: Banker's algorithm, TA office hours, threaded merge sort, class split

This Dafny project models the sequential logic of four small C++ programs and
proves properties of that logic.

1. **Resource manager (Banker's algorithm)**, `project_3/main.cpp`.
   - The state is four global tables for 5 customers and 4 resource types: `available`, `maximum`, `allocation` and `need`.
   - They become the arrays of the class `Banker.ResourceManager`.
   - The value-level `BankerSpec.Bank` states what a grant, a release and a safe state are.
   - The command-line validation and parsing are in `Commands`. The input is cut into whitespace-separated tokens, as `istringstream >>` does.
2. **TA office hours**, `main.cpp`, `helper.cpp` and `helper.h`.
   - The `TA` and `Student` records are the classes of `Helper`.
   - `OfficeSpec.World` holds the shared state between two critical sections of the threaded program.
   - Each critical section is one atomic step on that state:
     - a student's reaction to the current minute;
     - the TA's reaction;
     - the TA waking from its nap;
     - the clock tick;
     - the shutdown.
   - A minute is "advance the clock, then every thread that waited for it takes at most one turn, in some order". The order of turns is an input.
   - `Office.OfficeHours` keeps the globals as fields and changes the student objects through their setters. Each of its methods is proved to perform exactly the matching step of `OfficeSpec`.
   - The summary loop computes the counts and truncated integer averages.
   - Random draws are parameters whose only known property is the inclusive range that `getRandomTime` documents.
   - The `Student` getters are Dafny functions that only read the object, so they cannot change state. `id` and `question_time` are `const` fields, since they have no setters.
3. **Threaded merge sort**, `project1/p1_threads.cpp`.
   - `ThreadedSort.ParallelMergeSorter` keeps `sorted_list` as an array and sorts in place: `merge`, recursive `merge_sort`, the per-thread ranges of `thread_init` and the pairwise rounds of `merge_threads`.
   - The worker threads sort disjoint ranges, so they run one after the other.
   - `GradeSort` holds the value-level merge and merge sort, descending by grade with ties to the left run. An insertion sort serves as an independent reference definition.
4. **Class split**, `p1_process.cpp`.
   - `WorkSplit.CreateSublists` is the loop that cuts `class_names` into one consecutive slice per child process.
   - Each child receives `n / p` classes, or one more for the first `n % p` children. With fewer classes than processes, each of the first `n` children receives one class.
   - The slices are returned instead of being handed to forked children.

Where the code and its comments disagree, the model follows the code:
- The TA is sleeping in state 0 (main.cpp:91, helper.cpp:22). The comment at helper.h:13-14 says 2.
- The clock delivers only the minutes 1 to `Total_minutes` (main.cpp:291-294), so a student whose initial arrival is minute 0 (main.cpp:272) never reacts. It is never helped, as `OfficeSpec.ArrivalZeroNeverServed` shows.
- `release_resources` is documented as unable to cause deadlock (project_3/main.cpp:326-329).
  - `BankerSpec.ReleaseKeepsSafe` proves this for non-negative amounts.
  - The guard at project_3/main.cpp:332-338 also accepts negative amounts, which raise the customer's allocation and need. The model keeps that guard as written.
  - `BankerSpec.NegativeReleaseBreaksSafety` gives a safe state in which such a release is accepted and leaves the state unsafe.

## Model

| member | source | states |
|---|---|---|
| `WorkSplit.NormalisedWork` | p1_process.cpp:148-154 | the truncating C++ `n / p` is below 1 exactly when there are fewer classes than processes; `n % p` is the non-negative remainder |
| `WorkSplit.StartClosedForm` | p1_process.cpp:168-192 | with at least as many classes as processes, child k starts at `k * (n / p) + min(k, n % p)` |
| `WorkSplit.StartBelowCount` | p1_process.cpp:151-154 | with fewer classes than processes, child k starts at class k |
| `WorkSplit.StartGrows` | p1_process.cpp:187-192 | start indices strictly increase from child to child, by at least one per child |
| `WorkSplit.StartAtWorkers` | p1_process.cpp:168-192 | after `min(n, p)` children every class has been handed out |
| `WorkSplit.ShareBalanced` | p1_process.cpp:174-177 | shares differ by at most one, every share is at least 1, and no share exceeds `ceil(n / p)` |
| `WorkSplit.NextSlice` | p1_process.cpp:179-192 | each working child gets a non-empty share that stays inside the list, so the clip at line 179 never fires |
| `WorkSplit.AppendSlice` | p1_process.cpp:187-192 | appending the next slice keeps the concatenation equal to the prefix handed out so far |
| `WorkSplit.CreateSublists` | p1_process.cpp:168-192 | no sublists for a negative process count; otherwise exactly `min(n, p)` non-empty consecutive slices whose concatenation is `class_names`, slice k of size `Share(k)` |
| `GradeSort.MergePermutation` | project1/p1_threads.cpp:98-125 | the merge result is a permutation of the union of both runs |
| `GradeSort.MergeDescending` | project1/p1_threads.cpp:102-121 | merging two runs sorted descending by grade gives a run sorted descending |
| `GradeSort.MergeStable` | project1/p1_threads.cpp:107 | for every grade, the students with that grade come out in the order left run then right run |
| `GradeSort.MergeKeepsGradeOrder` | project1/p1_threads.cpp:102-121 | the merge of two sorted runs keeps the relative order of equal grades of their concatenation |
| `GradeSort.MergeSortShort` | project1/p1_threads.cpp:81-83 | a range of at most one element is left unchanged |
| `GradeSort.MergeSortCorrect` | project1/p1_threads.cpp:77-88 | merge sort gives a descending, stable permutation of its input |
| `GradeSort.DescendingUnique` | project1/p1_threads.cpp:77-88 | two descending sequences with the same students in the same per-grade order are equal |
| `GradeSort.InsertionSortCorrect` | project1/p1_threads.cpp:77-88 | the reference insertion sort is descending and stable |
| `GradeSort.IsTheStableSort` | project1/p1_threads.cpp:77-88 | any descending, stable rearrangement of a list is its insertion sort |
| `GradeSort.MergeSortIsInsertionSort` | project1/p1_threads.cpp:77-88 | merge sort and the reference sort agree on every input |
| `ThreadedSort.ThreadRangeInside` | project1/p1_threads.cpp:194-200 | each thread's range `[lower, upper)` lies inside the list |
| `ThreadedSort.ThreadRangesAdjacent` | project1/p1_threads.cpp:194-200 | thread i's range ends where thread i + 1's begins |
| `ThreadedSort.ThreadRangesDisjoint` | project1/p1_threads.cpp:194-200 | the ranges of two different threads do not overlap |
| `ThreadedSort.ThreadRangesCover` | project1/p1_threads.cpp:194-200 | every position of the list lies in some thread's range |
| `ThreadedSort.ThreadOf` | project1/p1_threads.cpp:194-200 | the thread whose range holds a given position, found from any earlier thread |
| `ThreadedSort.MergeFromIsMerge` | project1/p1_threads.cpp:102-121 | the three while loops over `i` and `j` compute the value-level merge of the two ranges |
| `ThreadedSort.SplitAtMiddle` | project1/p1_threads.cpp:84-87 | sorting a range is merging the sorted halves split at `lower + (upper - lower) / 2` |
| `ThreadedSort.MergeSortSteps` | project1/p1_threads.cpp:84-87 | sorting the left half, then the right half, then merging sorts the range and touches nothing else |
| `ThreadedSort.ThreadRuns` | project1/p1_threads.cpp:140-146 | after every thread sorted its range, the initial boundaries delimit sorted runs |
| `ThreadedSort.RoundMergePair` | project1/p1_threads.cpp:154-161 | merging segments i and i + 1 produces one sorted segment and keeps the grade order of the whole list |
| `ThreadedSort.RoundCarryLast` | project1/p1_threads.cpp:162-164 | an odd last segment is carried over unchanged |
| `ThreadedSort.PackOne` | project1/p1_threads.cpp:161-165 | writing `boundaries[new_segments]` overwrites only entries the round has already read |
| `ThreadedSort.CloseRound` | project1/p1_threads.cpp:168-169 | a round reduces `cs` sorted runs to `(cs + 1) / 2` sorted runs that still cover the list |
| `ThreadedSort.SingleRun` | project1/p1_threads.cpp:150 | one run covering the list means the list is sorted |
| `ThreadedSort.ParallelMergeSorter.constructor` | project1/p1_threads.cpp:29-33 | the sorter holds a fresh copy of the given list and the thread count |
| `ThreadedSort.ParallelMergeSorter.MergeRuns` | project1/p1_threads.cpp:98-121 | `temp` is the merge of the ranges `[lower, middle)` and `[middle, upper)` |
| `ThreadedSort.ParallelMergeSorter.CopyBack` | project1/p1_threads.cpp:123-125 | `temp` is copied to position `lower`, and the rest of the list is unchanged |
| `ThreadedSort.ParallelMergeSorter.Merge` | project1/p1_threads.cpp:92-127 | `[lower, upper)` becomes the merge of its two old halves, and nothing outside it changes |
| `ThreadedSort.ParallelMergeSorter.MergeSortRange` | project1/p1_threads.cpp:77-88 | `[lower, upper)` becomes the merge sort of its old contents, and nothing outside it changes |
| `ThreadedSort.ParallelMergeSorter.ThreadInit` | project1/p1_threads.cpp:176-218 | thread i sorts exactly its own range, and nothing else changes |
| `ThreadedSort.ParallelMergeSorter.ThreadBoundaries` | project1/p1_threads.cpp:136-146 | `boundaries[k] = k * work_per_thread` for each thread, and the last entry is the length |
| `ThreadedSort.ParallelMergeSorter.MergePair` | project1/p1_threads.cpp:154-161 | one merge step of a round, with the round invariant kept |
| `ThreadedSort.ParallelMergeSorter.RoundStep` | project1/p1_threads.cpp:153-166 | one iteration of the inner `for` loop, with the round invariant kept |
| `ThreadedSort.ParallelMergeSorter.MoveLastBoundary` | project1/p1_threads.cpp:168 | the closing boundary move leaves `(cs + 1) / 2` runs covering the list |
| `ThreadedSort.ParallelMergeSorter.MergeRound` | project1/p1_threads.cpp:151-169 | a round turns `cs` sorted runs into `(cs + 1) / 2` sorted runs and keeps the per-grade order |
| `ThreadedSort.ParallelMergeSorter.MergeThreads` | project1/p1_threads.cpp:130-173 | given sorted thread ranges, the whole list ends sorted descending with the per-grade order kept |
| `ThreadedSort.ParallelMergeSorter.RunSort` | project1/p1_threads.cpp:36-74 | the result is a descending, stable permutation of the list copied at construction, and it equals the reference sort |
| `Commands.WordEnd` | project_3/main.cpp:82 | the end of the token starting at `i`: every character before it is not blank, and the character at it is blank |
| `Commands.TokensAreWords` | project_3/main.cpp:82-84 | every token is non-empty and blank-free |
| `Commands.TokensOfUnwords` | project_3/main.cpp:82-84 | tokenizing words joined by single spaces gives back the words |
| `Commands.Tokenize` | project_3/main.cpp:77-84 | the loop produces exactly the whitespace-separated tokens of the command |
| `Commands.CheckAmount` | project_3/main.cpp:109-119 | a token passes exactly when it is an optional `-` followed by at least one digit |
| `Commands.CheckCommandValid` | project_3/main.cpp:76-126 | 0 for an empty line; 3 exactly for the lone token `*`; 4 exactly for the lone token `EXIT`; 1 and 2 exactly for `RQ` and `RL` with two plus four numeral tokens; 0 otherwise |
| `Commands.ShowNat` | project_3/main.cpp:133 | the decimal digits of a natural number form a digit string |
| `Commands.DigitsValueOfShowNat` | project_3/main.cpp:133 | reading back the decimal digits of `n` gives `n` |
| `Commands.ShowIsNumeral` | project_3/main.cpp:133-137 | the decimal form of any integer is a numeral whose value is that integer |
| `Commands.NumeralIsWord` | project_3/main.cpp:108-119 | a valid numeral is a single token |
| `Commands.CommandToArray` | project_3/main.cpp:129-141 | the customer is the second token's value, and `request[i]` is the value of token `i + 2`, or 0 when the token is missing |
| `Commands.FormatRoundTrip` | project_3/main.cpp:101-141 | a formatted `RQ` or `RL` command is accepted and parses back to its customer and amounts |
| `BankerSpec.Grant` | project_3/main.cpp:303-307 | a grant keeps the table shapes and leaves `maximum` alone |
| `BankerSpec.Release` | project_3/main.cpp:341-345 | a release keeps the table shapes and leaves `maximum` alone |
| `BankerSpec.ReleaseUndoesGrant` | project_3/main.cpp:316-320 | the rollback restores the state before the tentative allocation exactly |
| `BankerSpec.GrantKeepsNeedConsistent` | project_3/main.cpp:303-307 | a grant preserves `need = maximum - allocation` |
| `BankerSpec.ReleaseKeepsNeedConsistent` | project_3/main.cpp:341-345 | a release or rollback preserves `need = maximum - allocation` |
| `BankerSpec.UpdatesKeepAllocationNonNegative` | project_3/main.cpp:284-345 | a non-negative grant, and a release that passes the guard, keep every allocation non-negative |
| `BankerSpec.ColumnTotalUpdate` | project_3/main.cpp:305 | changing one customer's row changes a column total by the difference in that entry |
| `BankerSpec.UpdatesConserve` | project_3/main.cpp:303-345 | a grant and a release both conserve `available[j] + sum of allocation[.][j]` for every resource |
| `BankerSpec.WorkAppend` | project_3/main.cpp:231-233 | finishing a customer adds its allocation to the work vector |
| `BankerSpec.WorkMonotone` | project_3/main.cpp:231-233 | with non-negative allocations, more finished customers never mean less work |
| `BankerSpec.SafeUnblocks` | project_3/main.cpp:212-247 | in a safe state with non-negative allocations, some unfinished customer can always run, whichever customers have finished |
| `BankerSpec.ColumnSumUpdate` | project_3/main.cpp:342 | changing one customer's row changes the finished customers' column sum only when that customer is among them |
| `BankerSpec.ReleaseWork` | project_3/main.cpp:341-345 | after a release, the work left by any set of finished customers grows by the released amount exactly when the releasing customer is not among them |
| `BankerSpec.ReleaseKeepsSafe` | project_3/main.cpp:326-345 | releasing non-negative amounts keeps a safe state safe, with the same safe order |
| `BankerSpec.NegativeReleaseExampleIsSafe` | project_3/main.cpp:198-278 | the example state has the safe order 0, 1, 2, 3, 4 |
| `BankerSpec.NegativeReleaseExampleBlocks` | project_3/main.cpp:341-345 | after customer 1 "releases" -1 units of resource 0, no customer's need fits in what is available, so the state is unsafe |
| `BankerSpec.NegativeReleaseBreaksSafety` | project_3/main.cpp:332-338 | the guard accepts that release, from a need-consistent, non-negative, safe state, and it produces an unsafe state |
| `BankerSpec.CountOfList` | project_3/main.cpp:235 | a list of distinct customers has at most five entries |
| `BankerSpec.CountAll` | project_3/main.cpp:250-264 | when every customer is listed, all five are counted |
| `Banker.ResourceManager.constructor` | project_3/main.cpp:19-22 | the tables start with the given `available`, `maximum` and `allocation` and a zero `need`; a non-negative allocation table gives non-negative allocations |
| `Banker.ResourceManager.InitializeNeed` | project_3/main.cpp:377-381 | establishes `need = maximum - allocation` and changes nothing else |
| `Banker.ResourceManager.CanRun` | project_3/main.cpp:218-226 | true exactly when customer i's need fits in `work` for every resource |
| `Banker.ResourceManager.ReturnToWork` | project_3/main.cpp:231-233 | `work[j]` grows by customer i's allocation of resource j |
| `Banker.ResourceManager.RecordFinish` | project_3/main.cpp:229-236 | a customer that can run is finished and appended to the safe sequence |
| `Banker.ResourceManager.SearchRound` | project_3/main.cpp:213-246 | one pass of the `do` body; it reports progress exactly when it finished someone, and without progress every unfinished customer is blocked |
| `Banker.FirstUnfinished` | project_3/main.cpp:250-264 | the first customer not finished, or 5 when all are |
| `Banker.ResourceManager.SafetyCheck` | project_3/main.cpp:198-278 | changes nothing; a true result comes with a safe sequence that is a permutation of the customers; with non-negative allocations it is true exactly when the state is safe; at most six passes |
| `Banker.GrantFacts` | project_3/main.cpp:303-307 | an admissible grant keeps `need` consistent, allocations non-negative and resource totals conserved |
| `Banker.ReleaseFacts` | project_3/main.cpp:341-345 | a release keeps `need` consistent and resource totals conserved |
| `Banker.ResourceManager.Allocate` | project_3/main.cpp:303-307 | the state becomes the grant of the request |
| `Banker.ResourceManager.Deallocate` | project_3/main.cpp:316-320 | the state becomes the release of the amounts |
| `Banker.ResourceManager.RequestResources` | project_3/main.cpp:284-324 | -1 with the state unchanged for a negative, over-need or over-available request; otherwise 0 implies the granted state is safe and the state is the grant, and with non-negative allocations 0 is returned exactly when the granted state is safe; preserves `need` consistency and resource totals |
| `Banker.ResourceManager.ReleaseResources` | project_3/main.cpp:326-348 | nothing changes when some amount exceeds the allocation; otherwise the state is the release; preserves `need` consistency and resource totals; a release of non-negative amounts keeps a safe state safe |
| `Helper.TA.constructor` | helper.cpp:20 | stores the initial state, by default 1 (available) |
| `Helper.TA.SetStatement` | helper.cpp:28-30 | the getter returns the state just set |
| `Helper.Student.constructor` | helper.cpp:35-36 | stores id, state, question time and arrival; wait and turnaround are 0 and the student is not helped |
| `Helper.Student.ChangeArrivalTime` | helper.cpp:39-41 | the arrival becomes the drawn time, within `[now_time, end_time]`; no other field changes |
| `Helper.Student.SetArrivalTime` | helper.cpp:67-69 | the getter returns the new arrival; no other field changes |
| `Helper.Student.SetStatement` | helper.cpp:48-50 | the getter returns the new state; no other field changes |
| `Helper.Student.SetWaitTime` | helper.cpp:73-75 | the getter returns the new wait time; no other field changes |
| `Helper.Student.SetTurnaroundTime` | helper.cpp:84-86 | the getter returns the new turnaround; no other field changes |
| `Helper.Student.SetHelped` | helper.cpp:95-97 | the getter returns the new flag; no other field changes |
| `OfficeSpec.Initial` | main.cpp:270-279 | the set-up state satisfies the invariant; each student k is coding with its drawn question and arrival times and nothing recorded |
| `OfficeSpec.StudentTurnEffect` | main.cpp:201-248 | a student acts only at its arrival minute; with a free chair it queues at the back, its state becomes 2 and it posts a wake signal exactly when the TA is in state 0; with a full hall the hall is unchanged and the new arrival is `Total + 1` or in `[now + 1, Total]`, and the student continues exactly when it is at most `Total` |
| `OfficeSpec.StudentTurnKeepsInv` | main.cpp:201-248 | a student's turn preserves the invariant: at most `chairs` in the hall, at most one in the office, no student in two places |
| `OfficeSpec.TakeNextKeepsInv` | main.cpp:130-135 | the hall head moves to the office: FIFO, `wait = now - arrival >= 0`, `help_start_time = now` |
| `OfficeSpec.FinishKeepsInv` | main.cpp:148-153 | the finished student is helped, `turnaround = now - arrival >= wait + qtime`, and leaves the office |
| `OfficeSpec.TaTickCases` | main.cpp:88-178 | the TA step is a nap, a fetch from the hall, a finish with or without a refill, or no change |
| `OfficeSpec.TaTickKeepsInv` | main.cpp:88-178 | the TA step preserves the invariant and only changes students that were in the hall or office |
| `OfficeSpec.TaTickEffect` | main.cpp:88-178 | with both chairs empty the TA sleeps from now; with an empty office it fetches the hall head; with an occupant it finishes exactly when `help_start_time != -1 && now - help_start_time >= qtime`, then refills from the hall in the same step |
| `OfficeSpec.TaWakeKeepsInv` | main.cpp:101-124 | waking preserves the invariant |
| `OfficeSpec.TaWakeEffect` | main.cpp:101-124 | nap time grows by `now - nap_start_time` before the running check; after shutdown the TA returns, otherwise it becomes available and fetches the hall head with `wait = now - arrival` |
| `OfficeSpec.BeginTickEffect` | main.cpp:291-296 | the clock advances by one minute and every waiting thread may take a turn |
| `OfficeSpec.ShutdownEffect` | main.cpp:301-305 | the run stops and the TA semaphore is posted once more, with everything else unchanged |
| `OfficeSpec.ApplyKeepsInv` | main.cpp:88-248 | every enabled turn preserves the invariant |
| `OfficeSpec.RunTurnsKeepsInv` | main.cpp:291-296 | the turns of one minute, in any order, preserve the invariant and the clock |
| `OfficeSpec.RunTicksReachEnd` | main.cpp:291-296 | the tick loop ends at minute `Total_minutes` with the invariant kept |
| `OfficeSpec.SimulationEnds` | main.cpp:291-308 | a whole run ends stopped at minute `Total_minutes`, a live TA is available, and the nap total lies in `[0, Total_minutes]` |
| `OfficeSpec.ApplyKeepsNeverServed` | main.cpp:201 | no turn seats, serves or helps a student whose arrival is minute 0 |
| `OfficeSpec.RunTurnsNeverServe` | main.cpp:201 | no minute seats, serves or helps a student whose arrival is minute 0 |
| `OfficeSpec.RunTicksNeverServe` | main.cpp:291-294 | the whole tick loop never reaches a student whose arrival is minute 0 |
| `OfficeSpec.ArrivalZeroNeverServed` | main.cpp:270-296 | a student created with arrival 0 is never helped |
| `OfficeSpec.HelpedCountBounds` | main.cpp:312-320 | the helped count is at most the number of students; it equals it exactly when all were helped, and is 0 exactly when none were |
| `OfficeSpec.HelpedSumsOrdered` | main.cpp:312-320 | the summed waits are non-negative, the summed question times are at least the count, and wait plus question sums stay within the turnaround sum |
| `OfficeSpec.DivOfSum` | main.cpp:327-331 | truncated division by the helped count keeps `a + b <= c` |
| `OfficeSpec.AveragesOrdered` | main.cpp:327-331 | the average question time is at least 1, the average wait is non-negative, and average wait plus average question stay within the average turnaround |
| `OfficeSpec.ReportConsistent` | main.cpp:312-332 | helped plus not helped is the total; averages are reported exactly when someone was helped, and then they are ordered as above; the nap total is non-negative |
| `Office.OfficeHours.constructor` | main.cpp:270-279 | creates one `Student` object per drawn pair, and the state is the set-up state |
| `Office.OfficeHours.TakeSeat` | main.cpp:205-220 | queues the student at the back, sets its state to 2 and posts the semaphore exactly when the TA is in state 0 |
| `Office.OfficeHours.Reschedule` | main.cpp:225-227 | only the student's arrival changes |
| `Office.OfficeHours.StudentReacts` | main.cpp:200-248 | performs exactly the student's turn of the model |
| `Office.OfficeHours.StudentStep` | main.cpp:200-248 | performs exactly the student's turn of the model and keeps the invariant |
| `Office.OfficeHours.MoveHeadToOffice` | main.cpp:130-135 | performs exactly the move of the hall head to the office |
| `Office.OfficeHours.FinishOccupant` | main.cpp:148-153 | performs exactly the finish of the office occupant |
| `Office.OfficeHours.TaStep` | main.cpp:88-178 | performs exactly the TA step of the model and keeps the invariant |
| `Office.OfficeHours.TaWakesUp` | main.cpp:101-124 | performs exactly the wake step of the model |
| `Office.OfficeHours.TaWakeStep` | main.cpp:101-124 | performs exactly the wake step of the model and keeps the invariant |
| `Office.OfficeHours.ClockTick` | main.cpp:293-295 | performs exactly the clock tick |
| `Office.OfficeHours.StopSimulation` | main.cpp:301-305 | performs exactly the shutdown |
| `Office.OfficeHours.TakeTurn` | main.cpp:88-248 | one thread's turn, skipped when not enabled |
| `Office.OfficeHours.RunMinute` | main.cpp:291-296 | the turns of one minute, in the given order |
| `Office.OfficeHours.PlayMinute` | main.cpp:291-296 | one iteration of the tick loop |
| `Office.OfficeHours.Simulate` | main.cpp:291-308 | the run from minute 0 is the model's run for the given schedule; it ends stopped at `Total_minutes` |
| `Office.OfficeHours.Summary` | main.cpp:312-332 | the accumulation loop computes exactly the report of the model, whose properties are the ones proved in `ReportConsistent` |

## Left out

- Threads and synchronisation are not modelled directly. This covers `pthread_create`/`pthread_join`, the mutexes, the `tick_cond` broadcasts and `usleep` (main.cpp, project1/p1_threads.cpp).
  - Each critical section is one atomic step.
  - Interleavings are an input: the order of turns within a minute.
  - The `ta_sleeping` semaphore is a count of pending posts.
  - The sort's worker threads run one after the other, because their ranges are disjoint.
- The TA and student threads' loop heads are not modelled as code (main.cpp:74-84, 188-198). A thread whose student's new arrival lies past the end only reports `continues == false` and is not removed. Its arrival never matches a later minute, so its behaviour is the same.
- A thread still waiting when the shutdown broadcast arrives (main.cpp:301-304) is not modelled as taking one more turn. In the source such a thread does not recheck `simulation_running` after `pthread_cond_wait` and runs its step once more at minute `Total_minutes`, depending on timing. The model's run ends at the shutdown, plus the TA's final wake-up.
- `getRandomTime` is not implemented (helper.cpp:10-14). Random draws are parameters constrained to their inclusive range, and so is the random set-up loop (main.cpp:270-279).
- Console output is left out: `print_state`, `print_prompt`, the `printf`s in `safe_algorithm`, the per-minute state printer of main.cpp and all logging.
- The interactive command loop and `argv` handling of both programs are left out (project_3/main.cpp:355-447, main.cpp:254-268): they are input and output only.
- File I/O is left out: `initialize_matrices` (project_3/main.cpp:147-194) and the CSV reading and writing in `process_classes`. Matrices enter through the `Banker.ResourceManager` constructor.
- `fork`, `waitpid` and the child's `process_classes` call are left out (p1_process.cpp:194-209). The sublists are returned in creation order instead.
- Floating-point statistics in `process_classes` are left out. Grades are modelled as `real` and are only compared.
- C++ `int` overflow is not modelled anywhere. Integers are unbounded, so overflow of sums, times and resource counts is out of scope.
- Banker.ResourceManager.RequestResources: requires `0 <= customer_num < 5`. The source never checks the customer number, and an out-of-range one indexes outside the arrays.
- Banker.ResourceManager.RequestResources: "0 exactly when the granted state is safe" is stated only when the allocations before the request are non-negative. Without that premise only one direction is stated: a result of 0 means the granted state is safe. The reason is the one given for `SafetyCheck` below.
- Banker.ResourceManager.ReleaseResources: requires `0 <= customer_num < 5`, for the same reason.
- Banker.ResourceManager.SafetyCheck: the "true exactly when safe" direction is stated only for non-negative allocations. A negative allocation can only come from the allocation table given at start-up. Guarded releases and granted requests keep allocations non-negative (`BankerSpec.UpdatesKeepAllocationNonNegative`), and the constructor ensures non-negative allocations for a non-negative table. With a negative allocation, finishing a customer can shrink `work`. The greedy order then matters and the check may reject a state that has a safe order. Without that premise only the soundness direction is stated: a true result comes with a valid safe sequence.
- Banker.ResourceManager.SafetyCheck: "at most six passes" counts executions of the `do` body, including the final pass that makes no progress.
- Commands.CommandToArray: requires the numeral tokens that `check_command_valid` guarantees before every call (project_3/main.cpp:407-427). It does not model the stream-failure behaviour of `operator>>` on malformed numbers.
- ThreadedSort.ParallelMergeSorter.RunSort: requires `num_threads >= 1`, as the source's division by `num_threads` does.
- WorkSplit.CreateSublists: requires `num_processes != 0`, as the source's division does. A negative process count only yields no sublists; the unsigned arithmetic on line 144 is unused and not modelled.
