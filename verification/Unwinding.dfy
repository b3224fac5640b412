/**
What the lines of frames that left without their exit hook say: over every run, which mark each reclaim leaves on them,
and that nothing ever changes such a line again.
*/
module Unwinding {
  import opened FrameReconcile
  import opened LineFormat
  import opened DurationFormat
  import opened TraceFile
  import opened Hooks
  import opened HookLemmas
  import opened LinePatching
  import opened Traces
  import opened LiveLines

  /** The line of this record says that its frame was unwound, in its duration field and at its glyph. */
  ghost predicate SaysUnwound(cfg: Config, file: string, r: FrameRecord, mark: char) {
    cfg.exceptions && r.logged && r.lineStart >= 0 ==>
      && (cfg.elapsed ==> Shows(file, r.lineStart + PLACEHOLDER_OFFSET, "[" + [mark] + " unwound ]"))
      && (r.depth >= 1 ==> Shows(file, r.lineStart + TreeGlyphOffset(r.depth, cfg.PrefixExtra()), [mark]))
  }

  lemma MarkedSays(cfg: Config, file: string, r: FrameRecord, how: char)
    requires MarkedDead(cfg, file, r, how)
    ensures SaysUnwound(cfg, file, r, how)
  {
    assert Flagged(DURATION_UNWOUND, how) == "[" + [how] + " unwound ]";
  }

  // ---------- the hooks ----------

  /** What is appended behind leaves a mark where it is. */
  lemma MarkBehindAppend(cfg: Config, marked: string, longer: string, r: FrameRecord, how: char)
    requires MarkedDead(cfg, marked, r, how) && marked <= longer
    ensures SaysUnwound(cfg, longer, r, how)
  {
    MarksSurvive(cfg, marked, longer, r, how);
    MarkedSays(cfg, longer, r, how);
  }

  /** What an enter reclaims: '!' while an exception is in flight, '~' when none is. */
  lemma EnterMarks(cfg: Config, e: Engine, x: EnterInput, i: nat)
    requires LineInv(cfg, e) && LineFits(cfg, e, x) && e.out.patchFd && e.overflow == 0 && !x.roomThrows
    requires EnterKeeps(cfg, e, x) <= i < |e.frames|
    ensures SaysUnwound(cfg, Enter(cfg, e, x).out.file, e.frames[i], if x.uncaught > 0 then '!' else '~')
  {
    var keep, how := EnterKeeps(cfg, e, x), DeathMark(AtEnter, x.uncaught);
    var e1 := DropTo(cfg, e, keep, how);
    DropTouchesDeadLines(cfg, e, keep, how);
    EnterAfterDrop(cfg, e, x, e1);
    MarkBehindAppend(cfg, e1.out.file, Enter(cfg, e, x).out.file, e.frames[i], how);
  }

  /** What a catch reclaims: '!'. */
  lemma CatchMarks(cfg: Config, e: Engine, x: CatchInput, i: nat)
    requires LineInv(cfg, e) && e.out.patchFd && CatchKeeps(cfg, e.frames, x) <= i < |e.frames|
    ensures SaysUnwound(cfg, Catch(cfg, e, x).out.file, e.frames[i], '!')
  {
    var keep, how := CatchKeeps(cfg, e.frames, x), DeathMark(AtCatch, 0);
    var e1 := DropTo(cfg, e, keep, how);
    DropTouchesDeadLines(cfg, e, keep, how);
    EventKeepsLineInv(cfg, e1, x.event, x.write);
    CatchParts(cfg, e, x, e1);
    MarkBehindAppend(cfg, e1.out.file, Catch(cfg, e, x).out.file, e.frames[i], how);
  }

  /** What an exit reclaims above the record it answers: '~'. */
  lemma ExitMarks(cfg: Config, e: Engine, x: ExitInput, i: nat)
    requires LineInv(cfg, e) && e.out.patchFd && e.overflow == 0 && e.frames != []
    requires ExitIndex(e.frames, x.key, x.tailCalled, cfg.bounds) < i < |e.frames|
    ensures SaysUnwound(cfg, Exit(cfg, e, x).out.file, e.frames[i], '~')
  {
    var index := ExitIndex(e.frames, x.key, x.tailCalled, cfg.bounds);
    var how := DeathMark(AtExit, x.uncaught);
    var e1 := DropTo(cfg, e, index + 1, how);
    DropTouchesDeadLines(cfg, e, index + 1, how);
    ExitIsFinished(cfg, e, x);
    FinishKeepsLineInv(cfg, e1, x, index);
    OthersFieldsStay(cfg, e, index, i, e1.out.file, Exit(cfg, e, x).out.file);
    MarksSurvive(cfg, e1.out.file, Exit(cfg, e, x).out.file, e.frames[i], how);
    MarkedSays(cfg, Exit(cfg, e, x).out.file, e.frames[i], how);
  }

  /** What changes in the fields of one record leaves those of another alone. */
  lemma OthersFieldsStay(cfg: Config, e: Engine, j: nat, i: nat, before: string, after: string)
    requires LineInv(cfg, e) && e.out.patchFd && j < |e.frames| && i < |e.frames| && i != j
    requires ChangesOnly(cfg, before, after, [e.frames[j]])
    ensures forall p | 0 <= p < |before| && RecordField(cfg, e.frames[i], p) :: after[p] == before[p]
  {
    forall p | 0 <= p < |before| && RecordField(cfg, e.frames[i], p)
      ensures after[p] == before[p]
    {
      FieldsApart(cfg, e, i, j, p);
      assert !FieldOfSome(cfg, [e.frames[j]], p);
    }
  }

  /** The mark a call leaves on the line of record `i`, if it takes that record for one of a frame long gone. */
  ghost predicate MarksAsUnwound(cfg: Config, e: Engine, call: HookCall, i: nat, mark: char)
    requires i < |e.frames|
  {
    match call
    case EnterCall(x) =>
      e.overflow == 0 && !x.roomThrows && i >= EnterKeeps(cfg, e, x) && mark == (if x.uncaught > 0 then '!' else '~')
    case ExitCall(x) => e.overflow == 0 && i > ExitIndex(e.frames, x.key, x.tailCalled, cfg.bounds) && mark == '~'
    case CatchCall(x) => i >= CatchKeeps(cfg, e.frames, x) && mark == '!'
    case _ => false
  }

  lemma CallMarks(cfg: Config, e: Engine, call: HookCall, i: nat, mark: char)
    requires LineInv(cfg, e) && CallFits(cfg, e, call) && e.out.patchFd && i < |e.frames|
    requires MarksAsUnwound(cfg, e, call, i, mark)
    ensures SaysUnwound(cfg, Apply(cfg, e, call).out.file, e.frames[i], mark)
    ensures i >= |e.frames| - |PoppedBy(cfg, e, call)|
  {
    match call
    case EnterCall(x) => EnterMarks(cfg, e, x, i);
    case ExitCall(x) => ExitMarks(cfg, e, x, i);
    case CatchCall(x) => CatchMarks(cfg, e, x, i);
  }

  // ---------- lines that nobody owns any more ----------

  /** Chunk `k` is the line of a frame whose record is gone. */
  ghost predicate Orphan(e: Engine, k: nat) {
    && e.out.patchFd && k < |e.out.chunks|
    && forall j | 0 <= j < |e.frames| :: e.frames[j].lineStart != e.out.chunks[k].start
  }

  /** Chunk `k` is such a line, and this is what it shows. */
  ghost predicate OrphanShows(e: Engine, k: nat, c: Chunk, line: string) {
    Orphan(e, k) && e.out.chunks[k] == c && |line| == |c.text| && Shows(e.out.file, c.start, line)
  }

  lemma OrphanIsNobodys(cfg: Config, e: Engine, k: nat, i: nat, p: int)
    requires LineInv(cfg, e) && Orphan(e, k) && i < |e.frames| && RecordField(cfg, e.frames[i], p)
    ensures !(e.out.chunks[k].start <= p < e.out.chunks[k].start + |e.out.chunks[k].text|)
  {
    var out := e.out;
    assert Placed(out, e.frames[i]);
    var l :| 0 <= l < |out.chunks| && out.chunks[l].start == e.frames[i].lineStart
             && out.chunks[l].depth == e.frames[i].depth;
    assert InField(cfg, out.chunks[l], p);
    FieldsStayInside(cfg, out, l, p);
  }

  lemma OrphanUnchanged(cfg: Config, e: Engine, k: nat, kept: nat, after: string, c: Chunk, line: string)
    requires LineInv(cfg, e) && OrphanShows(e, k, c, line) && kept <= |e.frames|
    requires ChangesOnly(cfg, e.out.file, after, e.frames[kept..])
    ensures Shows(after, c.start, line)
  {
    forall p | c.start <= p < c.start + |c.text|
      ensures after[p] == e.out.file[p]
    {
      OrphanIsNobody(cfg, e, k, kept, p);
    }
  }

  lemma OrphanIsNobody(cfg: Config, e: Engine, k: nat, kept: nat, p: int)
    requires LineInv(cfg, e) && Orphan(e, k) && kept <= |e.frames|
    requires e.out.chunks[k].start <= p < e.out.chunks[k].start + |e.out.chunks[k].text|
    ensures !FieldOfSome(cfg, e.frames[kept..], p)
  {
    forall i | kept <= i < |e.frames|
      ensures !RecordField(cfg, e.frames[i], p)
    {
      if RecordField(cfg, e.frames[i], p) {
        OrphanIsNobodys(cfg, e, k, i, p);
      }
    }
  }

  /** How many of the records it finds a call leaves. */
  function Leaves(cfg: Config, e: Engine, call: HookCall): int {
    if call.EnterCall? && (e.overflow > 0 || call.enter.roomThrows) then |e.frames| else KeptBy(cfg, e, call)
  }

  /** Records that know their line are the first `kept` of the old ones, and an entering frame's, whose line is new. */
  predicate NewLinesBehind(e: Engine, kept: int, after: seq<FrameRecord>) {
    forall j | 0 <= j < |after| && after[j].lineStart >= 0 ::
      (j < kept && j < |e.frames| && after[j] == e.frames[j]) || after[j].lineStart >= |e.out.file|
  }

  lemma PushedBehind(cfg: Config, e: Engine, x: EnterInput)
    requires LineInv(cfg, e) && e.out.patchFd && e.overflow == 0 && !x.roomThrows
    ensures NewLinesBehind(e, EnterKeeps(cfg, e, x), Enter(cfg, e, x).frames)
  {
    var keep, how := EnterKeeps(cfg, e, x), DeathMark(AtEnter, x.uncaught);
    var e1 := DropTo(cfg, e, keep, how);
    DropTouchesDeadLines(cfg, e, keep, how);
    RoomyEnter(cfg, e, x, e1);
    if EnterLogs(cfg, e, x) {
      var e2 := WithLine(cfg, e1, x);
      NewRecordIsBehind(cfg, e1, x, e2.out);
      OneBehind(e, keep, NewRecord(cfg, e1, x, e2.depth, e2.out));
    } else {
      OneBehind(e, keep, UnloggedRecord(x));
    }
  }

  lemma NewRecordIsBehind(cfg: Config, e1: Engine, x: EnterInput, out': Output)
    requires FileInv(cfg, e1.out) && e1.out.isOpen && e1.out.patchFd && x.resolution.Resolved?
    requires out' == WithLine(cfg, e1, x).out
    ensures var r := NewRecord(cfg, e1, x, e1.depth + 1, out'); r.lineStart < 0 || r.lineStart == |e1.out.file|
  {
  }

  lemma OneBehind(e: Engine, keep: nat, r: FrameRecord)
    requires keep <= |e.frames| && (r.lineStart >= 0 ==> r.lineStart >= |e.out.file|)
    ensures NewLinesBehind(e, keep, e.frames[..keep] + [r])
  {
  }

  lemma HookAddsBehind(cfg: Config, e: Engine, call: HookCall)
    requires LineInv(cfg, e) && e.out.patchFd
    ensures NewLinesBehind(e, Leaves(cfg, e, call), Apply(cfg, e, call).frames)
  {
    match call
    case EnterCall(x) =>
      if e.overflow == 0 && !x.roomThrows {
        PushedBehind(cfg, e, x);
      }
    case ExitCall(_) =>
    case CatchCall(_) =>
    case EventCall(_, _) =>
    case OpenCall(_, _, _, _) =>
  }

  lemma OrphanStays(cfg: Config, e: Engine, call: HookCall, e': Engine, k: nat, c: Chunk, line: string)
    requires LineInv(cfg, e) && CallFits(cfg, e, call) && OrphanShows(e, k, c, line) && e' == Apply(cfg, e, call)
    ensures OrphanShows(e', k, c, line)
  {
    assert ChunkFits(cfg, e.out.original, c);
    HookKeepsChunks(cfg, e, call);
    HookAddsBehind(cfg, e, call);
    HookChangesAbove(cfg, e, call, e'.out.file);
    OrphanUnchanged(cfg, e, k, KeptBy(cfg, e, call), e'.out.file, c, line);
  }

  // ---------- the line from then on ----------

  /** Over every run: from then on no byte of such a line ever changes. */
  lemma {:induction false} OrphanForever(cfg: Config, calls: seq<HookCall>, es: seq<Engine>, n: nat, m: nat, k: nat,
                                         c: Chunk, line: string)
    requires Trace(cfg, calls, es) && n <= m <= |calls| && OrphanShows(es[n], k, c, line)
    ensures OrphanShows(es[m], k, c, line)
    decreases m
  {
    if n < m {
      OrphanForever(cfg, calls, es, n, m - 1, k, c, line);
      LineInvInTrace(cfg, calls, es, m - 1);
      assert RunsTo(cfg, calls, es, m - 1);
      OrphanStays(cfg, es[m - 1], calls[m - 1], es[m], k, c, line);
    }
  }

  // ---------- the marks ----------

  /** A popped record's line is nobody's any more. */
  lemma PoppedLineIsOrphan(cfg: Config, e: Engine, call: HookCall, e': Engine, i: nat) returns (k: nat)
    requires LineInv(cfg, e) && CallFits(cfg, e, call) && e.out.patchFd && e' == Apply(cfg, e, call)
    requires Leaves(cfg, e, call) <= i < |e.frames| && e.frames[i].lineStart >= 0
    ensures Orphan(e', k) && e'.out.chunks[k].start == e.frames[i].lineStart
    ensures e'.out.chunks[k].depth == e.frames[i].depth
  {
    assert Placed(e.out, e.frames[i]);
    k :| 0 <= k < |e.out.chunks| && e.out.chunks[k].start == e.frames[i].lineStart
         && e.out.chunks[k].depth == e.frames[i].depth;
    assert ChunkFits(cfg, e.out.original, e.out.chunks[k]);
    HookKeepsChunks(cfg, e, call);
    HookAddsBehind(cfg, e, call);
  }

  /** The line of an orphan chunk, as it stands. */
  lemma WhatOrphanShows(cfg: Config, e: Engine, k: nat) returns (line: string)
    requires LineInv(cfg, e) && Orphan(e, k)
    ensures OrphanShows(e, k, e.out.chunks[k], line)
  {
    var c := e.out.chunks[k];
    assert ChunkFits(cfg, e.out.original, c);
    line := e.out.file[c.start..c.start + |c.text|];
  }

  /** Its marks, which lie inside it, are seen wherever the line is. */
  lemma MarksAreInTheLine(cfg: Config, e: Engine, k: nat, r: FrameRecord, mark: char, line: string, later: string)
    requires LineInv(cfg, e) && k < |e.out.chunks| && OrphanShows(e, k, e.out.chunks[k], line)
    requires e.out.chunks[k].start == r.lineStart && e.out.chunks[k].depth == r.depth
    requires SaysUnwound(cfg, e.out.file, r, mark) && Shows(later, r.lineStart, line)
    ensures SaysUnwound(cfg, later, r, mark)
  {
    var c := e.out.chunks[k];
    assert ChunkFits(cfg, e.out.original, c);
    forall at, bytes | c.start <= at && at + |bytes| <= c.start + |c.text| && Shows(e.out.file, at, bytes)
      ensures Shows(later, at, bytes)
    {
      SameInside(e.out.file, later, c.start, line, at, bytes);
    }
  }

  lemma SameInside(before: string, after: string, start: nat, line: string, at: nat, bytes: string)
    requires Shows(before, start, line) && Shows(after, start, line) && Shows(before, at, bytes)
    requires start <= at && at + |bytes| <= start + |line|
    ensures Shows(after, at, bytes)
  {
    forall p | at <= p < at + |bytes|
      ensures after[p] == before[p]
    {
      assert before[start..start + |line|][p - start] == after[start..start + |line|][p - start];
    }
  }

  /**
  Over every run, for every line of a frame long gone: what an enter reclaims while an exception is in flight, and what
  a catch reclaims, says '!' in both places; what an enter reclaims while none is, and what an exit reclaims above the
  record it answers, says '~'; and it says so forever.
  */
  lemma TheDeadSayHowTheyEnded(cfg: Config, calls: seq<HookCall>, es: seq<Engine>, n: nat, i: nat, mark: char, m: nat)
    requires Trace(cfg, calls, es) && n < m <= |calls| && es[n].out.patchFd && i < |es[n].frames|
    requires MarksAsUnwound(cfg, es[n], calls[n], i, mark)
    ensures SaysUnwound(cfg, es[m].out.file, es[n].frames[i], mark)
  {
    LineInvInTrace(cfg, calls, es, n);
    LineInvInTrace(cfg, calls, es, n + 1);
    assert RunsTo(cfg, calls, es, n);
    CallMarks(cfg, es[n], calls[n], i, mark);
    if es[n].frames[i].lineStart >= 0 {
      var k := PoppedLineIsOrphan(cfg, es[n], calls[n], es[n + 1], i);
      var line := WhatOrphanShows(cfg, es[n + 1], k);
      OrphanForever(cfg, calls, es, n + 1, m, k, es[n + 1].out.chunks[k], line);
      MarksAreInTheLine(cfg, es[n + 1], k, es[n].frames[i], mark, line, es[m].out.file);
    }
  }
}
