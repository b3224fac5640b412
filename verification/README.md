# Call Stack Logger: a verified model

Call Stack Logger records every call of an instrumented program as one line of a tree, per thread, while the
program runs: compiler-inserted hooks push and pop records, and lines already written are patched in place with
durations and marks. The real call stack can shrink without any hook running (`longjmp`, Clang's unwinding), so
the tracer reconciles its records with the stack from nothing but addresses. This project models that engine and
the parts around it that concurrent threads or untrusted files can upset, and proves what they keep.

- **Frame-stack reconciliation.** `FrameReconcile` has the loops of `include/frameReconcile.h`, each proved against
  a specification; `Hooks` says what an enter, an exit, a catch and an event line do to the thread's state, and
  `Tracer` does the same in place, with the source's fields, and is proved equal to it. `LiveStack` puts the true
  stack of live frames beside the tracer's state: calls, returns (also tail-called ones), jumps and catches.
  Soundness, exactness, pairing, shape and depth are theorems over every run of it (`LiveStack`, `Exactness`,
  `PhysicalExactness`, `NestedExactness`, `ProgramExactness`, `InlineReclaim`, `HookLemmas`); `Limits` has the stacks on
  which the rules fall short, each with the condition under which they do. `HookReach` says how far down one hook
  reaches, `LevelRule` how a hook finds its frame's level.
- **Lines and patches.** `LineFormat`, `EventFormat` and `DurationFormat` build lines and duration fields in buffers,
  `TraceFile` is the file with append and positioned overwrite, and `LinePatching` proves which bytes may ever change.
  `Traces` are runs of hooks and `Histories` runs of the traced program with all their states; every run has one, and its
  states are those of the run (`Traces.EveryRunHasItsTrace`, `Traces.TraceIsTheRun`, `Histories.EveryRunHasItsHistory`,
  `Histories.HistoryIsTheRun`). Over them `TrustedCursor` says how long the cursor is believed, `LiveLines` what the line
  of a live frame shows and what an exit makes of it, and `Unwinding` and `LeftByJump` what the lines of frames that left
  without their exit hook say from then on. `LineReader` reads lines back.
- **Concurrency.** `Resolver` is the two-phase lookup with its locks and its per-thread caches (`FrontCache`),
  `ObjectCache` the tables of object files, `Registry` the list of open files between lazy opens, thread exits and
  shutdown. The first and the last are step relations; the theorems hold in every interleaving.
- **Text and files.** `BaseName` scans demangled names and is proved to undo a printer of them; `ElfLayout` is the
  layout check of object files on 64-bit words and `ElfFields` writes the headers it reads; `EventText` puts a what()
  text on one line.
- **Exceptions.** `ExceptionMarks` runs call trees of throws, handlers, rethrows and destructors; `ExceptionEvents`
  is the state machine of the interposers.

Machine integers are unbounded where the source's values cannot wrap and 64-bit words where untrusted numbers are
added (`ElfLayout`) or wrapping is meant (`FrontCache`). A member of type `ghost predicate` or a world with ghost
truth is history the tracer does not have.

## Where the code and its comments part

The code is modelled as it is. These are the places where a promise in a comment needs a hypothesis or fails:

- The "contiguous run" of an exiting frame (`include/frameReconcile.h:161-163`) breaks after mutual recursion and a
  jump: `Limits.MutualRecursionHidesTheRecord`; when the answer is right is `FrameReconcile.ExitPairingCalled` and
  `FrameReconcile.ExitPairingTailCalled`.
- A dead record stays when an indirect call site calls another function, when an uninstrumented frame moves the next
  callee, and when a leaf inlined into the repeated frame hides it: three lemmas of `Limits`, with `SlotClearedIff`.
- Names may reach a live record: a recursion hidden behind an uninstrumented inline function, and an uninstrumented
  parent with a host's base name. `RepeatsReachLiveIff` and `AboveNameReachesLiveIff` say exactly when.
- The trusted cursor is the end of the file (`src/trace.cpp:299-308`) unless building the run header throws: then the
  stream and the patch descriptor are in place, the cursor is still 0 and still trusted, and the next frame's patches
  land in what an earlier run wrote. `LinePatching.OpenKeepsIsolationIff` is the exact condition and
  `LinePatching.ThrowingHeaderOverwritesTheEarlierRun` the bytes that are lost.
- A glyph is not where patches aim once a line is clamped: `LineFormat.GlyphOffsetExact` has the bound and
  `LinePatching.DeepMarkLeavesItsLine` a frame beyond it.
- A base name keeps its template arguments, although `include/frameReconcile.h:242-244` says it has none. A local entity
  of an enclosing function with a qualifier behind its parameters ("A::f() const::...") gets that function's base name,
  a function template at global scope keeps its return type, a return type with a parenthesis outside angle brackets
  ("decltype (x) ns::f()") is cut there and nothing behind it is looked at, and an operator is cut at a further
  parenthesis or a scope mark: `BaseName.BaseOfPrinted` is the law for all of them, and the lemmas behind it say exactly
  when each happens.
- Draining the overflow counter first pairs enters and exits (`src/trace.cpp:262-268`) until a jump skips overflowed
  frames: `Limits.JumpKeepsOverflowExactIff` and `Limits.ExcessSwallowsTheExitIff`. From then on nothing the surviving
  frame calls is recorded: `Limits.ExcessRecordsNothing`.
- A rule measured once is not good for every later call of its site when a register happened to hold the address, or
  when the frame realigns its stack pointer: `LevelRule.MeasuredIsSoundIff` has the condition, and
  `LevelRule.CoincidenceMisleads` and `LevelRule.RealignedFrameMisleads` the two cases. Frames inlined into a host share
  its level (`include/frameReconcile.h:230-231`) only if their two hook sites measure alike:
  `LevelRule.InlinedEstimateIsDeeperIff` and `LevelRule.HigherInlinedEstimatePopsTheHost`.
- "Already checked by the caller" (`src/backtraceExtension.c:157-158`) does not hold for a section-name section of type
  SHT_NULL, which the range check skips: `ElfLayout.MappedInsideIff`.
- A rethrow of an exception of another runtime is labelled by what was caught last, not by what is handled:
  `ExceptionEvents.RethrowLabelIff`.

## Model

| member | source | states |
|---|---|---|
| FrameReconcile.DeadRecordsOnEnter | include/frameReconcile.h:110-129 | counts the longest run of records on top that are on this thread's stack and deeper than the entering frame, or beside it with another caller |
| FrameReconcile.DeadRecordsOnCatch | include/frameReconcile.h:140-155 | counts the longest run on top strictly below the catcher |
| FrameReconcile.ExitingRecordIndex | include/frameReconcile.h:179-226 | the three searches of the exit rule answer the index its specification picks, for every non-empty stack |
| FrameReconcile.DeadRecordsAboveMatch | include/frameReconcile.h:341-351 | how many records of the top equal-level group stand above the topmost one that matches, none without a match |
| FrameReconcile.ExitPairingCalled | include/frameReconcile.h:157-178 | a called exit hook finds the frame's own record if and only if it lies in the topmost run of its site and none above it there repeats its level; otherwise an index above it |
| FrameReconcile.ExitPairingTailCalled | include/frameReconcile.h:157-178 | the same for a tail-called exit hook, by closeness to the caller's level |
| FrameReconcile.ExitReachesOwnSiteOnly | include/frameReconcile.h:179-226 | for every stack, key, bounds and kind of hook: an answer below the top is a record of the exiting frame's own function and call site, so a frame whose enter left no record, and one that runs on a foreign stack or finds one on top, pops the top record |
| FrameReconcile.ExitTakesTopmostOfSite | include/frameReconcile.h:195-225 | without a better match in the run below it, the answer is the topmost record of the site |
| FrameReconcile.ScansStayOnStack | include/frameReconcile.h:110-155 | no scan takes a record off the thread's stack, and none takes anything on behalf of a frame off it |
| FrameReconcile.ScansReachTheFirstAlive | include/frameReconcile.h:110-155 | on the thread's stack the scans answer a number if and only if that many records on top are dead by plain comparison of levels and callers and the next is not |
| Tracer.PerThreadTracer.ReclaimDeadRecords | src/trace.cpp:622-651 | pops, counts the depth down and marks, in place, exactly as the specification's reclaim |
| Tracer.PerThreadTracer.ReclaimDeadInlinedRecordsAboveParent | src/trace.cpp:670-688 | pops what stands above the named parent in the top physical frame, and nothing outside its guards |
| Tracer.PerThreadTracer.ReclaimDeadInlinedRecordsOnEnter | src/trace.cpp:704-728 | repeats of the entering frame first, then what stands above the host the chain names |
| Tracer.PerThreadTracer.ReclaimDeadInlinedRecordsOnCatch | src/trace.cpp:736-752 | what stands above the function the chain names as catching |
| Tracer.PerThreadTracer.OpenThisThreadFile | src/trace.cpp:868-904 | the file with its header and its cursor at the end, untrusted without a usable second descriptor; and, when the header throws, the stream and the descriptor in place and the cursor as it was |
| Tracer.PerThreadTracer.GetThreadFp | src/trace.cpp:930-943 | opens the file on first use, answers whether there is one to write to, and throws exactly when building the path, the header or the registration does |
| Tracer.PerThreadTracer.PatchLineBytes | src/trace.cpp:410-418 | overwrites at the line start plus offset, and does nothing without a descriptor or line start |
| Tracer.PerThreadTracer.MarkEnd | src/trace.cpp:444-459 | the field and the glyph byte of a marked frame, each under its own condition |
| Tracer.PerThreadTracer.OnEnter | src/trace.cpp:1447-1642 | the whole new state of an enter: overflow, reclaims in order, the lazy open, the line, the record, with a failure possible at every allocation |
| Tracer.PerThreadTracer.OnExit | src/trace.cpp:1648-1726 | the whole new state of an exit: overflow drained first, records above reclaimed, the frame's own record popped and its line finished |
| Tracer.PerThreadTracer.OnCatch | src/trace.cpp:1362-1428 | the whole new state of a catch or of the noexcept stub, its event line one level below the innermost logged survivor, and whether it answers that the program is terminating, which it does not when the lazy open throws |
| Tracer.PerThreadTracer.WriteEventLine | src/trace.cpp:1203-1245 | opens the file if it must, formats the event in the build's columns at the current depth plus one, appends it and moves the cursor by it, or stops trusting the cursor |
| HookLemmas.OpenFirst | src/trace.cpp:1516-1545 | a file opened between a hook's reclaims and its line comes to the same as one opened in front of the hook |
| HookLemmas.DropCompose | src/trace.cpp:622-651 | reclaiming in two steps is reclaiming at once |
| HookLemmas.DepthConserved | src/trace.cpp:1516-1641 | over every run of hooks, whatever throws, the depth plus one is the number of logged records |
| HookLemmas.ShapeHolds | include/frameReconcile.h:92-129 | over every run on one stack, levels never increase from bottom to top and neighbours at one level share their caller |
| HookReach.ForeignExitPopsOne | include/frameReconcile.h:157-191 | over every run, the exit of a frame without a record of its function and call site, or of one on a foreign stack, removes exactly the top record and counts it off the depth |
| HookReach.ForeignStackIsLeftAlone | src/trace.cpp:660-752 | over every run, whatever debug information says, a frame that enters or catches on a foreign stack, or finds one of such a stack on top, takes no record |
| HookReach.StubTakesItsOwnLevel | src/trace.cpp:1379-1391 | the noexcept stub leaves a record if and only if its level is above the stub's, or nothing is reclaimed because the byte above is off the stack |
| HookReach.CatchTakesWhatIsBelow | include/frameReconcile.h:131-155 | a catch in a handler takes every record below its level and none above it |
| HookReach.TerminateLineHangsFromTheLive | src/trace.cpp:1379-1428 | over every run, where everything live stands above the stub's level, no record at or below it is left, every live record is, and the terminate line is written at the number of logged records left |
| HookReach.CatchLinesHangFromTheRecords | src/trace.cpp:1362-1428 | over every run, a catch's line is what it appends, at the number of logged records it leaves |
| HookReach.EventLinesHangFromTheRecords | src/trace.cpp:1203-1245 | and a throw's at the number that is there |
| HookReach.EnterLogsIffThereIsAFile | src/trace.cpp:1516-1572 | a resolved frame is logged if and only if there is a file to write to: the trace is up, and the file open or opened now without a throw; otherwise its hook appends nothing |
| HookReach.CatchLogsIffThereIsAFile | src/trace.cpp:1203-1245 | a catch writes its line if and only if it gets that far and there is such a file |
| HookReach.OpensIfItAsks | src/trace.cpp:930-943 | a file is open behind a hook if and only if it was, or the hook got as far as opening it |
| LiveStack.StepSound | src/trace.cpp:1447-1726 | every possible step keeps the invariant that ties records to live frames |
| LiveStack.NoLiveRecordIsPopped | include/frameReconcile.h:92-226 | over every run of calls, returns, tail-called returns, jumps and catches no hook pops the record of a frame that lives on, and every live frame that did not overflow has its record |
| LiveStack.InvHolds | src/trace.cpp:1447-1726 | that invariant holds in every state of every run |
| Exactness.WellNestedRunsPairExactly | src/trace.cpp:262-268 | on well-nested runs with any allocation failures, records are the live frames that did not overflow, and records plus the overflow count are the call depth |
| Exactness.WellNestedExitsMeetTheirEnter | src/trace.cpp:1660-1691 | on such runs every exit finds the record on top, pushed by its own enter, or its overflow slot |
| Exactness.TidyHolds | include/frameReconcile.h:92-129 | with one entering level for all callees of a frame, what is recorded besides live frames only ever is their former callees |
| Exactness.StaleRecordsShareASlot | include/frameReconcile.h:92-129 | after every enter of such a run the entering record is on top and every stale record shares level and caller with a live neighbour |
| PhysicalExactness.EveryEnterRestoresTheTree | src/trace.cpp:704-728 | with one callee per call site, chains that name the function alone and no inlined frames, after every enter the records are exactly the live frames |
| NestedExactness.PhysicalEnterIsExactIff | src/trace.cpp:670-728 | however many frames are inlined, a physical enter with a known chain leaves exactly the live records if and only if its slot held calls of the same function only and inlined frames that vanished from its caller, if any, are told by its parent's name |
| NestedExactness.InlinedEnterIsExactIff | src/trace.cpp:704-728 | an inlined enter with a known chain does if and only if the chain names the recorded host or nothing but repeats was left |
| NestedExactness.EveryKnownEnterRestoresTheTree | src/trace.cpp:704-752 | over every run of such physical and inlined calls, returns, jumps and catches, with distinct base names in a physical frame, after every enter the records are exactly the live frames |
| ProgramExactness.ProgramRunIsKnown | src/trace.cpp:670-728 | the conditions those two exactness theorems put on records follow, over every run, from conditions on the program: one callee per physical call site, debug information that covers its calls, no jump that leaves a host together with a function inlined into it, no return of a frame above which a jump left a call from the same place |
| ProgramExactness.EveryProgramEnterRestoresTheTree | src/trace.cpp:1447-1726 | over every run of such a program, after every call and every return the records are exactly the live frames |
| InlineReclaim.CatchLandsOnTheCatcherIff | src/trace.cpp:736-752 | in every state of a run, a catch whose site names the innermost live function leaves exactly the live records if and only if no dead record of that physical frame carries the name |
| InlineReclaim.EnterLandsOnTheHostIff | src/trace.cpp:704-728 | the same for a frame inlined into the innermost live one |
| InlineReclaim.EnterLandsOnTheParentIff | src/trace.cpp:670-688 | the same for a physical call whose parent is named: exactly the live records are left if and only if everything left above the parent's record is in its physical frame and nothing carries its name |
| Limits.MutualRecursionHidesTheRecord | include/frameReconcile.h:161-163 | a possible run of calls and a jump after which the exit rule answers another activation's record |
| Limits.JumpKeepsOverflowExactIff | src/trace.cpp:262-268 | a jump leaves the overflow counter exact if and only if it skips no overflowed frame |
| Limits.ExcessSwallowsTheExitIff | src/trace.cpp:1667-1672 | a recorded frame's exit is taken for an overflowed one's, and its record stays, if and only if the counter is in excess |
| Limits.JumpLeavesTheCounterInExcess | src/trace.cpp:262-268 | a possible run of a call, a call without room and a jump that ends with the counter in excess over one recorded live frame |
| Limits.ExcessRecordsNothing | src/trace.cpp:1459-1464 | over every run, while the counter is in excess no call made from the surviving frame is recorded |
| Limits.SlotClearedIff | src/trace.cpp:704-728 | the reclaims clear everything above the live records if and only if what the scan leaves are calls of the entering function |
| Limits.IndirectCallKeepsTheDeadRecord | include/frameReconcile.h:92-109 | a dead record at the entering frame's site and level with another callee stays |
| Limits.UninstrumentedFrameKeepsTheDeadSibling | include/frameReconcile.h:92-109 | a dead sibling above the entering level stays |
| Limits.InlinedLeafHidesTheRepeatedFrame | src/trace.cpp:704-728 | a dead inlined record on top keeps the repeat check from the dead frame below it |
| Limits.RepeatsReachLiveIff | src/trace.cpp:704-728 | when the repeat check pops a live record |
| Limits.HiddenInlineRecursionPopsALiveRecord | src/trace.cpp:704-728 | a chain with an uninstrumented function in the middle on which it does |
| Limits.AboveNameReachesLiveIff | include/frameReconcile.h:336-351 | when the reclaim above a name pops a live record |
| Limits.ParentNameCollisionPopsALiveRecord | src/trace.cpp:670-688 | two records on which the parent's name picks the wrong function |
| Limits.FrameWithoutLevelPoppedIff | src/trace.cpp:1607-1609 | the record of a frame for which an allocation failed before its level was derived is taken for dead by the next enter if and only if the null address counts as on the stack |
| LevelRule.MeasuredIsSoundIff | src/trace.cpp:528-559 | for frames of every kind, a rule measured in one activation gives good levels in all of the site if and only if it follows a real frame pointer, is the distance of a frame of fixed size, or is the minimum distance |
| LevelRule.MeasuredIsExactIff | src/trace.cpp:528-559 | and exact levels if and only if it follows a real frame pointer or the site's one distance |
| LevelRule.MeasuredIsGoodHere | src/trace.cpp:598-611 | a level measured for the call itself, as at a catch, is good whatever the frame |
| LevelRule.LevelCache.FrameLevel | src/trace.cpp:573-597 | every level answered is above the frame's callees and not above the frame, the slot and the map agree, a site in the map keeps its rule, and the cache stays good if and only if what is measured fits the site's frames |
| LevelRule.LevelCache.constructor | src/trace.cpp:284-289 | the empty cache is valid |
| LevelRule.NearSitesPart | src/trace.cpp:573-580 | two sites in different words of the same kilobyte never share a slot of the level cache |
| LevelRule.CoincidenceMisleads | src/trace.cpp:545-551 | a register that happens to hold the address gives the next activation a level above its own address |
| LevelRule.RealignedFrameMisleads | src/trace.cpp:599-607 | so does a frame that realigns its stack pointer |
| LevelRule.CalleesBelow | src/trace.cpp:239-253 | along a live chain of good estimates every level lies above all deeper frames' addresses |
| LevelRule.EstimatesDecrease | include/frameReconcile.h:92-109 | good estimates make every physical call one of a deeper frame |
| LevelRule.ExitEstimateIsEnough | include/frameReconcile.h:157-178 | any level not above the frame's own address is good enough for a called exit hook |
| LevelRule.TailExitEstimateFollows | src/trace.cpp:1670-1681 | two exact measurements or two fallbacks in the caller are good enough for a tail-called one |
| LevelRule.InlinedEstimateIsDeeperIff | include/frameReconcile.h:228-234 | an inlined frame's level is not above its host's if and only if the host's measurement is exact, or both fell back and the inlined hook stands no higher |
| LevelRule.HigherInlinedEstimatePopsTheHost | include/frameReconcile.h:92-129 | otherwise, and only then, the scan takes the live host's record for dead |
| LineFormat.FormatInto | include/format.h:83-164 | the buffer holds the line of its specification, for every capacity, clamped piece by piece |
| LineFormat.GlyphOffsetExact | include/format.h:55-58 | the glyph stands at the predicted offset if and only if the depth is positive and 3 * depth < cap - 26 - extra |
| LineFormat.SpliceAtOffset | include/format.h:83-134 | the spliced column starts right behind the timestamp |
| LineReader.CallLineReadsBack | src/trace.cpp:1545-1572 | a line that an enter writes in full has its time, the pending field in timing builds, the called function's address in address builds, its depth in its tree, and its tail |
| LineReader.TailReadsBackIff | include/format.h:136-152 | a reader that looks for the words and the last colon gets function, file and line number back if and only if the name does not contain the words itself |
| LineReader.WholeLineReadsBack | include/format.h:83-164 | a line that is not clamped has its tail behind its tree and ends in its newline, and its depth can be counted off the tree whatever the name looks like |
| LineReader.ColumnsReadBack | include/format.h:94-122 | and its time, its splice and its address, digit for digit, stand in its columns |
| LineReader.TailIsCutAtItsEnd | include/format.h:136-161 | a line that is too long lacks nothing but the end of its tail, and then fills the buffer |
| DurationFormat.FormatDuration12Chars | include/durationFormat.h:98-142 | the buffer holds the specified field and a terminator for every count |
| DurationFormat.PrintedWidth | include/durationFormat.h:127-141 | the defensive width fallback is unreachable, and byte 1 is blank |
| DurationFormat.DecodeBound | include/durationFormat.h:76-97 | the decoded value is at most the count and loses less than a thousandth of it, below 10^12 |
| DurationFormat.DecodeMonotone | include/durationFormat.h:76-97 | decoding is monotone, across unit boundaries too |
| DurationFormat.FlagByteIsFree | include/durationFormat.h:64-74 | the flag replaces a blank and changes nothing a reader decodes |
| DurationFormat.SaturatedIff | include/durationFormat.h:98-126 | a field of a thousand seconds and more differs from that of every shorter duration |
| DurationFormat.FieldLooks | include/durationFormat.h:98-142 | below that every field has its brackets, its point, three digits of fraction and the unit of its size in their places |
| TraceFile.FieldsStayInside | src/trace.cpp:398-418 | the patchable fields of different lines never meet |
| TraceFile.PatchKeepsInv | src/trace.cpp:410-418 | a patch inside a field keeps the file the appended text outside fields |
| LinePatching.DropTouchesDeadLines | src/trace.cpp:622-651 | a reclaim changes only fields of the popped frames' lines, and they show the marks |
| LinePatching.EnterTouchesDeadLines | src/trace.cpp:1447-1642 | an enter changes no byte outside the lines of the frames it reclaims |
| LinePatching.ExitFinishesOwnLine | src/trace.cpp:1691-1722 | an exit changes only the popped frames' lines, and its own shows duration and mark |
| LinePatching.CatchTouchesDeadLines | src/trace.cpp:1362-1428 | a catch changes only the lines of the frames it reclaims |
| LinePatching.PatchIsolation | src/trace.cpp:410-460 | over every run without clamped glyphs and without a header that throws over earlier content, the file is the appended text except in fields, the trusted cursor of a file that can be patched is its length, and a call changes only the lines of records it pops |
| LinePatching.OpenKeepsIsolationIff | src/trace.cpp:868-904 | after every run the lazy open keeps those invariants if and only if the header was written, there is no descriptor to patch through, or the file was empty |
| LinePatching.ThrowingHeaderOverwritesTheEarlierRun | src/trace.cpp:880-903 | otherwise the next frame takes its line to start at 0, and its exit writes its duration over bytes 26 to 37 of the earlier run |
| LinePatching.NothingIsPatchedWithoutDescriptor | src/trace.cpp:843-862 | over every run of a file without a patch descriptor, what the file holds stays |
| LinePatching.UntrustedCursorIsFinal | src/trace.cpp:1558-1572 | a hook never makes an untrusted cursor trusted, and its record carries no line start |
| LinePatching.NoLaterFrameIsPatched | src/trace.cpp:1558-1572 | over every run from there on, every record that may still patch was pushed before and stands where it stood |
| TrustedCursor.TrustedUntilAWriteFails | src/trace.cpp:884-898 | over every run of a patching build, behind an open with a written header, a second descriptor and a seek, the file can be patched and the cursor is believed until the first write that fails |
| TrustedCursor.LoggedFramesKnowTheirLines | src/trace.cpp:1558-1641 | and every frame logged by then leaves a record whose line starts where the file ended |
| TrustedCursor.TrustedBehindOpenIff | src/trace.cpp:868-904 | the opens that leave a file that can be patched through a believed cursor are exactly those with a second descriptor and a seek, or a header that throws |
| TrustedCursor.UnusableOpenPlacesNothing | src/trace.cpp:843-904 | over every run, behind an open without a second descriptor or a seek no record ever knows its line |
| TrustedCursor.EarlierRunsStay | src/trace.cpp:868-904 | over every run, what earlier runs left, and this run's header behind it, stays at the front of the file |
| Unwinding.TheDeadSayHowTheyEnded | src/trace.cpp:622-651 | over every run, what a catch reclaims, and an enter while an exception is in flight, says '!' in its field and at its glyph from then on; what an enter reclaims while none is, and an exit above the record it answers, says '~' |
| Unwinding.OrphanForever | src/trace.cpp:410-460 | over every run, no byte of the line of a frame whose record is gone ever changes |
| LeftByJump.FramesLeftByJumpsSaySo | src/trace.cpp:1447-1726 | over every run of a program, the lines of frames that jumps leave say '~' from the next call or return on, or '!' if that is a call made while an exception is in flight |
| LeftByJump.FramesUnwoundToACatchSaySo | src/trace.cpp:1362-1428 | over every run, the records a catch finds below its level, or the noexcept stub not above it, are taken, and their lines say '!' from then on |
| LiveLines.LiveLinesAreAsWritten | src/trace.cpp:1447-1726 | over every possible run behind an open as above, whatever vanishes: as long as a frame lives that was logged before a write failed, its record is the one its enter pushed, and its line is byte for byte what its enter appended |
| LiveLines.ExitsTimeTheirOwnEnter | src/trace.cpp:1660-1722 | on well-nested runs behind such an open, the exit of a frame logged before a write failed puts the time since its own enter into its own line, and leaves the rest of it but the glyph as written |
| LinePatching.DeepMarkLeavesItsLine | src/trace.cpp:456-459 | beyond the depth bound a mark lands in the next line |
| FrontCache.SlotInTable | include/frontCache.h:59-72 | every key hashes into the table, and the bit count undoes the power of two |
| FrontCache.MixingIsUndone | include/frontCache.h:59-72 | the 64-bit multiplication that wraps loses nothing: every key can be computed back from its mixed form |
| FrontCache.NeighboursPart | include/frontCache.h:59-72 | in the tables the hooks use, neighbouring addresses, aligned ones, those as far apart as there are slots and the same place on the next page have different slots |
| FrontCache.StoreThenFind | include/frontCache.h:74-88 | after a store a key finds its value, a key of another slot what it found before, and any other key of the slot nothing |
| FrontCache.FrontCache.Lookup | include/frontCache.h:74-80 | the value stored for the key, or a miss |
| FrontCache.FrontCache.Remember | include/frontCache.h:82-88 | overwrites one slot and no other |
| Resolver.NeverRebinds | src/callStack.cpp:559-683 | over any stretch of any run the shared maps never rebind or lose a key |
| Resolver.CompletedLookupsAgree | src/callStack.cpp:559-683 | two completed lookups of any threads agree, on "filtered" too |
| Resolver.CachesAreTransparent | src/callStack.cpp:559-718 | in every interleaving a completed lookup returns what the resolver without caches would, call sites and event sites being different addresses |
| Resolver.SharedSiteTakesTheFirstKind | src/callStack.cpp:694-718 | without that, the first kind to insert decides for both |
| Resolver.NameOutlivesTheThrow | src/callStack.cpp:640-683 | a name looked up before resolving the location threw is in the map and in the thread's own front cache |
| Resolver.HoldersNeverWaitInACircle | src/callStack.cpp:614-641 | the mutex's holder waits for nothing, the loader's at most for the mutex |
| Resolver.NoDeadlock | src/callStack.cpp:614-641 | in every reachable state with anything to do some thread can take a step that brings it closer to idle |
| ObjectCache.Objects.EnsureObjectLoaded | src/callStack.cpp:168-238 | known objects are answered from the tables, unknown ones tried once, failures stick, the warning's condition, and what a failed insertion leaves |
| Registry.ListedFilesAreLiveAndOpen | src/trace.cpp:910-925 | each listed object is alive, listed once and open, but for the one whose owner is taking it off under the mutex |
| Registry.FlushesOnlyOpenStreams | src/trace.cpp:998-1006 | a shutdown never flushes a closed stream or a destroyed object |
| Registry.OpenedStreamsAreHeldOrClosedOnce | src/trace.cpp:1034-1079 | every stream ever opened is open in its opener's hands or was closed once, by its opener |
| Registry.DeadThreadsLeaveNothing | src/trace.cpp:1034-1079 | a thread whose destructor has ended leaves no open stream and no entry |
| Registry.RegistryStaysEmpty | src/trace.cpp:1008-1017 | once shutdown is complete the registry is empty and stays empty |
| Registry.ShutdownMissesNoListedFile | src/trace.cpp:1008-1017 | what is open when shutdown is complete was flushed, is about to be closed, or was never listed because listing threw |
| Registry.ClosedForGood | src/trace.cpp:930-1043 | over every run, a thread that calls the shutdown, whether first or not, one that exits, one that has opened its file, and once shutdown is complete every thread not in the middle of opening, never opens a file again |
| Registry.HolderCanMove | src/trace.cpp:987-1018 | whoever holds the registry's mutex can take its next step |
| ElfLayout.NotesFitSection | src/backtraceExtension.c:113-152 | ends on any bytes and accepts exactly the sections all of whose notes, header, padded name and descriptor, lie inside; no step of its 64-bit arithmetic wraps |
| ElfLayout.HasSectionNamed | src/backtraceExtension.c:157-180 | finds a name exactly if some section but the first has it |
| ElfLayout.LayoutFitsFile | src/backtraceExtension.c:202-287 | accepts exactly the files without section headers or with every table, section, string-table index and note in range, and reports a symbol table of their own exactly if there is one |
| ElfLayout.MappedInsideIff | src/backtraceExtension.c:256-280 | everything mapped of an accepted file lies inside it if and only if the names section is not one of type SHT_NULL behind the file |
| ElfLayout.NullNamesAreNotChecked | src/backtraceExtension.c:256-280 | such a file |
| ElfLayout.WalksAgree | src/backtraceExtension.c:129-149 | the notes a reader meets are determined by the bytes |
| ElfFields.AcceptedIffInRange | src/backtraceExtension.c:202-287 | a file that begins with these headers, perhaps cut short, is accepted if and only if the table is in it and of a sane size, the names' section is another section of it, and for every section: contents of a type but 0 and 8 end inside the file, a table of type 2 or 11 is linked to a section but the first, and notes fit |
| ElfFields.OwnSymbolsReadBack | src/backtraceExtension.c:157-280 | and what is reported of its symbols is whether a section of type 2 is written, or one whose name stands in the names' section |
| ElfFields.OldNumbersReadBackIff | src/backtraceExtension.c:224-243 | the correction for old binutils finds the names' section if and only if it lies in front of the reserved range or what is written is no index of the table |
| ElfFields.WrittenNotesOkIff | src/backtraceExtension.c:113-152 | a section in which these notes are written, perhaps cut short, is accepted if and only if it is empty, or has room for a header, can be mapped, and every note whose header is in it ends in it, its name padded to 8 where the section says so and to 4 elsewhere |
| BaseName.MatchingBracket | include/frameReconcile.h:247-257 | the index of the bracket that closes the first one, nesting counted |
| BaseName.FunctionBaseName | include/frameReconcile.h:268-334 | ends on every text with a contiguous piece of it, the one the two scans specify |
| BaseName.UnclosedBraceKeepsAll | include/frameReconcile.h:268-280 | a brace that nothing closes ends the first scan with the whole text kept |
| BaseName.UnclosedParenIsCut | include/frameReconcile.h:303-322 | a parenthesis that nothing closes is cut like a parameter list |
| BaseName.BaseOfPrinted | include/frameReconcile.h:259-334 | for every printed name, what remains is what the first scan keeps of the function it stops at, or what stands in front of a parenthesis in its return type that is no scope |
| BaseName.BaseNamesTheTargetIff | include/frameReconcile.h:259-334 | for plain functions that is their component with its template arguments if and only if no return type stands in front, or a scope stands between and no such parenthesis in it |
| BaseName.BaseUndoesThePrinterIff | include/frameReconcile.h:259-266 | behind scopes the scan gets past, the base name of a printed name is its last component under exactly that condition |
| BaseName.WordOfTheResultIsTheName | include/frameReconcile.h:313-322 | a return type of a word and a parenthesis, "decltype (x)", gives every function behind it that word as its name |
| BaseName.StoppedResultNamesNobody | include/frameReconcile.h:313-322 | with a blank or nothing in front of the parenthesis what is found is no plain function's name |
| BaseName.OperatorKeptIff | include/frameReconcile.h:281-297 | an operator keeps its whole symbol if and only if it has no further parenthesis and no scope mark outside angle brackets and brace blocks |
| BaseName.QualifiedHostTakesTheName | include/frameReconcile.h:303-311 | a lambda in a const member function gets that function's name |
| BaseName.ReturnTypeStays | include/frameReconcile.h:313-334 | with no scope behind it, and no parenthesis that stops the scan, a return type stays in front of the component, at most without its own scopes |
| ExceptionMarks.HigherCountIffLeftByException | src/trace.cpp:107-114 | over any call tree an exit sees a higher count than its enter if and only if an exception leaves that frame |
| ExceptionMarks.LineIsFlaggedIffLeftByException | src/trace.cpp:1694-1722 | the field is flagged and the glyph marked exactly then |
| ExceptionMarks.NoexceptEndsTheProgram | src/trace.cpp:1379-1391 | where an exception would leave a noexcept function the program ends, and its exit hook does not run |
| ExceptionMarks.RethrowNeedsAHandler | src/exceptions.cpp:315-334 | a rethrow outside every handler ends the program, and one in a handler sends the exception on as it came |
| ExceptionEvents.NothingAfterTerminate | src/exceptions.cpp:357-407 | at most one terminate line, last, and exactly when terminating if no line is lost |
| ExceptionEvents.TerminatingIsFinal | src/exceptions.cpp:292-407 | once terminating, no further line |
| ExceptionEvents.RethrowLabelIff | src/exceptions.cpp:315-334 | a rethrow carries its exception's label if and only if the last catch or rethrow noted was a catch labelled the same |
| ExceptionEvents.NestedCatchTakesTheLabel | src/exceptions.cpp:357-367 | a nested catch takes it away |
| ExceptionEvents.NativeRethrowNamesItsType | src/exceptions.cpp:315-334 | a rethrow of the runtime's own exception names its type, whatever was caught in between |
| ExceptionEvents.TerminatingIff | src/exceptions.cpp:357-407 | the program is taken to be terminating if and only if some call outside the tracer made it so |
| ExceptionEvents.LogTellsTheEvents | src/exceptions.cpp:292-407 | over every run until then, the log has one line for every throw, rethrow and catch outside the tracer that lost none, in order, with the type thrown, the type or label caught, and the type rethrown |
| EventText.SanitizeWhatInto | include/eventFormat.h:49-74 | the buffer holds the sanitized text and its terminator, and nothing behind it changes |
| EventText.ShownIsOneLine | include/eventFormat.h:44-47 | what is shown is one line that fits, character by character the text with its controls blanked, a fixed point, and ends in an ellipsis if and only if it was cut with room for one or what is shown of the text ended in one |
| EventFormat.FormatEventInto | include/eventFormat.h:103-174 | the buffer holds the event line of its specification, for every capacity, clamped piece by piece |
| EventFormat.OneEventOneLine | include/eventFormat.h:25-42 | if no part breaks the line its only newline is the one at its end, which is never clamped away |
| EventFormat.EventGlyphOffset | include/eventFormat.h:94-102 | where nothing is clamped its glyph stands where a call's at that depth would |
| LineReader.EventTextReadsBack | src/trace.cpp:1203-1245 | an event line written in full has its time, its word in the durations' column in timing builds, its site in address builds, as many bars as a call at its depth, its glyph and its tail |
| LineReader.EventReadsBack | include/eventFormat.h:139-170 | verb, type, text, label, file, line number and suffix of an event read back where none of them looks like what stands between them |

## Left out

- Exactness.WellNestedRunsPairExactly: as every theorem over runs, it is about one thread's own stack; fibers and foreign stacks are not modelled beyond "off-stack frames make the rules answer 0 or the top".
- LiveStack.NoLiveRecordIsPopped: hypotheses, in `Possible`: a callee is deeper than its caller or inlined into it; an exit's level is its frame's own, or lower than all others, or for a tail-called hook the caller's; debug information that is looked at, the parent's name for a physical call and the host's for an inlined one, names the innermost live function, nobody recorded, or nothing; no allocation fails before a frame's level is derived (`Limits.FrameWithoutLevelPoppedIff` is that case).
- Exactness.StaleRecordsShareASlot: assumes that all callees of one frame enter at one level, so fixed-size, fully instrumented frames; without that only soundness holds.
- ProgramExactness.EveryProgramEnterRestoresTheTree: a program whose hosts are left by jumps together with what is inlined into them is not covered; `Limits.InlinedLeafHidesTheRepeatedFrame` shows that it cannot be.
- LiveLines.LiveLinesAreAsWritten: about frames logged before the first write that fails; behind it the cursor is untrusted and no record knows its line (`LinePatching.NoLaterFrameIsPatched`). In builds that patch nothing no record knows its line either.
- LeftByJump.FramesLeftByJumpsSaySo: programs as in `ProgramExactness`; elsewhere `Unwinding.TheDeadSayHowTheyEnded` says what a reclaim marks, and `Limits` which records no reclaim may reach.
- LineReader.EventReadsBack: an event whose type has a quotation mark, or whose place has a parenthesis opened behind two blanks, can be read in two ways.
- LinePatching.PatchIsolation: assumes a 23-byte timestamp, a line whose glyph is not clamped and a lazy open as in `OpenKeepsIsolationIff`; what a patch writes past the end of the file, and a write that fails with an error, are not modelled.
- Tracer.PerThreadTracer.OnEnter: what resolve() answers is an input (nothing, a throw, or a view), and so is what the lazy open meets; over runs the open is a call of its own in front of the hook, which `HookLemmas.OpenFirst` shows to be the same; the records are a `seq` field that stands for the vector with its capacity; the clock and std::uncaught_exceptions() are inputs.
- Tracer.PerThreadTracer.OnCatch: the names and the site an event line shows are inputs.
- Tracer.PerThreadTracer.GetThreadFp: that an open is attempted once is left to its input; a file closed again because a shutdown completed meanwhile is one that was never open (the closing itself is in `Registry`).
- Resolver.CachesAreTransparent: the hooks' lookups and the events'; the physical frames' names, which have a map of their own and no front cache, are not modelled. What a cold lookup reads from object files is an input of the inserting step; the callees' and sites' object tables are `ObjectCache`, and the cache of inline chains, which runs the same steps with one map and no front cache, is not a separate model.
- Resolver.NoDeadlock: covers the resolver's mutex and the loader's lock, recursive for its holder; other locks of the C library are not modelled.
- ObjectCache.Objects.EnsureObjectLoaded: one call at a time, because every caller holds the resolver's mutex.
- Registry.OpenedStreamsAreHeldOrClosedOnce: the stream stands for both descriptors of a file; a close that fails is not modelled.
- LevelRule.LevelCache.FrameLevel: assumes that wrong unwind information gives an address the code's own guard refuses, at or below the hook's frame or off the stack.
- ElfLayout.LayoutFitsFile: 64-bit little-endian files that do not change while they are checked; the messages given to the error callback and the directory remembered for relative links are not modelled.
- BaseName.BaseUndoesThePrinterIff: no identifier, and no component inside template arguments or a return type, begins with the letters "operator", which the scan takes for the keyword; conversion operators are operators whose symbol is the type. A return type that is printed around the name, as of a function that returns a function pointer, is not in the grammar.
- ExceptionMarks.HigherCountIffLeftByException: exit hooks run on the unwind path, as GCC places them; forced unwinding is not in the trees.
- ExceptionEvents.NothingAfterTerminate: which return addresses mean that the runtime gives up is an input.
- libbacktrace, dladdr, the unwinder, demangling and DWARF reading: inputs of a step or functions of an address.
- Opening flags, /proc parsing, stdio buffering, thread ids, the environment and path helpers: plumbing around the model.
- Timestamps and locale (`include/prettyTime.h`): only their length matters here.
- `include/stdSymbolFilter.h`, the re-entrancy guard of `TracerScope` and the choice among names in function_name_of: single branches.
- Symbol interposition, weak aliases, sanitizer hooks and thread cancellation: behaviour of the linker and the runtime.
