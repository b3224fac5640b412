/**
Which bytes of the trace file the hooks may change. Over whole runs the file stays the text the
appends wrote, except inside the 12-byte duration field and the one glyph byte of each line, and
those are only ever written by the hook that pops the record whose enter wrote that line.
*/
module LinePatching {
  import opened Common
  import opened FrameReconcile
  import opened EventFormat
  import opened LineFormat
  import opened DurationFormat
  import opened TraceFile
  import opened Hooks
  import opened HookLemmas

  /** Position p lies in a patchable field of the record's own line. */
  predicate RecordField(cfg: Config, r: FrameRecord, p: int) {
    r.lineStart >= 0 && InField(cfg, Chunk(r.lineStart, "", r.depth), p)
  }

  /** A record that may patch owns a line of the file. */
  predicate Placed(out: Output, r: FrameRecord) {
    out.patchFd && r.lineStart >= 0 ==> r.logged && OwnsChunk(out, r.lineStart, r.depth)
  }

  /** Lines of higher records start further back in the file. */
  ghost predicate Ascending(frames: seq<FrameRecord>) {
    forall i, j | 0 <= i < j < |frames| && frames[i].lineStart >= 0 && frames[j].lineStart >= 0 ::
      frames[i].lineStart < frames[j].lineStart
  }

  /** The file invariant, and every record that may patch owns its own line. */
  ghost predicate LineInv(cfg: Config, e: Engine) {
    && FileInv(cfg, e.out)
    && (forall i | 0 <= i < |e.frames| :: Placed(e.out, e.frames[i]))
    && (e.out.patchFd ==> Ascending(e.frames))
    && (!e.out.isOpen ==> NoLineStarts(e.frames))
  }

  /** From `before` to `after`, the bytes already in the file change only in fields of these records. */
  ghost predicate ChangesOnly(cfg: Config, before: string, after: string, records: seq<FrameRecord>) {
    && |before| <= |after|
    && forall p | 0 <= p < |before| && after[p] != before[p] :: FieldOfSome(cfg, records, p)
  }

  ghost predicate FieldOfSome(cfg: Config, records: seq<FrameRecord>, p: int) {
    exists i :: 0 <= i < |records| && RecordField(cfg, records[i], p)
  }

  // ---------- one mark ----------

  /** What a dead frame's line shows once it is marked. */
  ghost predicate MarkedDead(cfg: Config, file: string, r: FrameRecord, how: char) {
    cfg.exceptions && r.logged && r.lineStart >= 0 ==>
      && (cfg.elapsed ==> Shows(file, r.lineStart + PLACEHOLDER_OFFSET, Flagged(DURATION_UNWOUND, how)))
      && (r.depth >= 1 ==> Shows(file, r.lineStart + TreeGlyphOffset(r.depth, cfg.PrefixExtra()), [how]))
  }

  predicate Shows(file: string, at: nat, bytes: string) {
    at + |bytes| <= |file| && file[at..at + |bytes|] == bytes
  }

  /** A patch of the record's duration field. */
  lemma FieldPatch(cfg: Config, out: Output, r: FrameRecord, field: string)
    requires FileInv(cfg, out) && Placed(out, r) && r.lineStart >= 0 && cfg.elapsed
    requires |field| == DURATION_FIELD_WIDTH
    ensures var out' := PatchLine(out, r.lineStart, PLACEHOLDER_OFFSET, field);
            && FileInv(cfg, out') && out' == out.(file := out'.file) && |out'.file| == |out.file|
            && ChangesOnly(cfg, out.file, out'.file, [r])
            && (out.patchFd ==> Shows(out'.file, r.lineStart + PLACEHOLDER_OFFSET, field))
  {
    if !out.patchFd {
      return;
    }
    var k :| 0 <= k < |out.chunks| && out.chunks[k].start == r.lineStart && out.chunks[k].depth == r.depth;
    PatchKeepsInv(cfg, out, k, PLACEHOLDER_OFFSET, field);
    forall p | r.lineStart + PLACEHOLDER_OFFSET <= p < r.lineStart + PLACEHOLDER_OFFSET + |field|
      ensures FieldOfSome(cfg, [r], p)
    {
      assert RecordField(cfg, [r][0], p);
    }
  }

  /** A patch of the record's glyph byte, which leaves its duration field alone. */
  lemma GlyphPatch(cfg: Config, out: Output, r: FrameRecord, how: char)
    requires FileInv(cfg, out) && Placed(out, r) && r.lineStart >= 0 && cfg.exceptions && r.depth >= 1
    ensures var at := TreeGlyphOffset(r.depth, cfg.PrefixExtra());
            var out' := PatchLine(out, r.lineStart, at, [how]);
            && FileInv(cfg, out') && out' == out.(file := out'.file) && |out'.file| == |out.file|
            && ChangesOnly(cfg, out.file, out'.file, [r])
            && (out.patchFd ==> Shows(out'.file, r.lineStart + at, [how]))
            && (forall p | 0 <= p < |out.file| && p != r.lineStart + at :: out'.file[p] == out.file[p])
  {
    if !out.patchFd {
      return;
    }
    var k :| 0 <= k < |out.chunks| && out.chunks[k].start == r.lineStart && out.chunks[k].depth == r.depth;
    PatchKeepsInv(cfg, out, k, TreeGlyphOffset(r.depth, cfg.PrefixExtra()), [how]);
    assert RecordField(cfg, [r][0], r.lineStart + TreeGlyphOffset(r.depth, cfg.PrefixExtra()));
  }

  lemma ChangesTwice(cfg: Config, a: string, b: string, c: string, records: seq<FrameRecord>)
    requires ChangesOnly(cfg, a, b, records) && ChangesOnly(cfg, b, c, records)
    ensures ChangesOnly(cfg, a, c, records)
  {
    forall p | 0 <= p < |a| && c[p] != a[p]
      ensures FieldOfSome(cfg, records, p)
    {
      assert b[p] != a[p] || c[p] != b[p];
    }
  }

  /** mark_frame_end touches the marked frame's own line only, and the marks end up there. */
  lemma MarkTouchesOwnLine(cfg: Config, out: Output, r: FrameRecord, how: char, field: Option<string>)
    requires FileInv(cfg, out) && Placed(out, r)
    requires field.Some? ==> |field.value| == DURATION_FIELD_WIDTH
    ensures var out' := MarkFrameEnd(cfg, out, r, how, field);
            && FileInv(cfg, out') && out' == out.(file := out'.file) && |out'.file| == |out.file|
            && ChangesOnly(cfg, out.file, out'.file, [r])
    ensures var out' := MarkFrameEnd(cfg, out, r, how, field);
            out.patchFd && cfg.exceptions && r.logged && r.lineStart >= 0 ==>
              && (cfg.elapsed && field.Some? ==> Shows(out'.file, r.lineStart + PLACEHOLDER_OFFSET, field.value))
              && (r.depth >= 1 ==> Shows(out'.file, r.lineStart + TreeGlyphOffset(r.depth, cfg.PrefixExtra()), [how]))
              && (cfg.elapsed && field.None? ==>
                    forall bytes | |bytes| == DURATION_FIELD_WIDTH
                                   && Shows(out.file, r.lineStart + PLACEHOLDER_OFFSET, bytes) ::
                      Shows(out'.file, r.lineStart + PLACEHOLDER_OFFSET, bytes))
  {
    if cfg.exceptions && r.logged && r.lineStart >= 0 {
      var fielded := out;
      if cfg.elapsed && field.Some? {
        FieldPatch(cfg, out, r, field.value);
        fielded := PatchLine(out, r.lineStart, PLACEHOLDER_OFFSET, field.value);
      }
      if r.depth >= 1 {
        GlyphPatch(cfg, fielded, r, how);
        ChangesTwice(cfg, out.file, fielded.file, MarkFrameEnd(cfg, out, r, how, field).file, [r]);
        GlyphMissesField(cfg, fielded.file, MarkFrameEnd(cfg, out, r, how, field).file, r);
      }
    }
  }

  /** The glyph byte lies behind the duration field. */
  lemma GlyphMissesField(cfg: Config, before: string, after: string, r: FrameRecord)
    requires r.lineStart >= 0 && r.depth >= 1 && |before| == |after|
    requires forall p | 0 <= p < |before| && p != r.lineStart + TreeGlyphOffset(r.depth, cfg.PrefixExtra()) ::
               after[p] == before[p]
    ensures cfg.elapsed ==>
              forall bytes | |bytes| == DURATION_FIELD_WIDTH
                  && Shows(before, r.lineStart + PLACEHOLDER_OFFSET, bytes) ::
                Shows(after, r.lineStart + PLACEHOLDER_OFFSET, bytes)
  {
    if cfg.elapsed {
      var at := r.lineStart + PLACEHOLDER_OFFSET;
      forall bytes | |bytes| == DURATION_FIELD_WIDTH && Shows(before, at, bytes)
        ensures Shows(after, at, bytes)
      {
        assert after[at..at + DURATION_FIELD_WIDTH] == before[at..at + DURATION_FIELD_WIDTH];
      }
    }
  }

  // ---------- reclaims ----------

  /** Fields of different records never meet. */
  lemma FieldsApart(cfg: Config, e: Engine, i: nat, j: nat, p: int)
    requires LineInv(cfg, e) && e.out.patchFd && i < |e.frames| && j < |e.frames| && i != j
    requires RecordField(cfg, e.frames[i], p)
    ensures !RecordField(cfg, e.frames[j], p)
  {
    var out := e.out;
    assert Placed(out, e.frames[i]) && Placed(out, e.frames[j]);
    var k :| 0 <= k < |out.chunks| && out.chunks[k].start == e.frames[i].lineStart
             && out.chunks[k].depth == e.frames[i].depth;
    assert InField(cfg, out.chunks[k], p);
    FieldsStayInside(cfg, out, k, p);
    if e.frames[j].lineStart >= 0 {
      var l :| 0 <= l < |out.chunks| && out.chunks[l].start == e.frames[j].lineStart
               && out.chunks[l].depth == e.frames[j].depth;
      assert !InField(cfg, out.chunks[l], p);
    }
  }

  /** The line of a record whose fields are all left alone keeps its marks. */
  lemma MarksSurvive(cfg: Config, before: string, after: string, r: FrameRecord, how: char)
    requires MarkedDead(cfg, before, r, how) && |before| <= |after|
    requires forall p | 0 <= p < |before| && RecordField(cfg, r, p) :: after[p] == before[p]
    ensures MarkedDead(cfg, after, r, how)
  {
    if cfg.exceptions && r.logged && r.lineStart >= 0 {
      var at := r.lineStart + PLACEHOLDER_OFFSET;
      if cfg.elapsed {
        assert forall p | at <= p < at + DURATION_FIELD_WIDTH :: RecordField(cfg, r, p);
        assert after[at..at + DURATION_FIELD_WIDTH] == before[at..at + DURATION_FIELD_WIDTH];
      }
      if r.depth >= 1 {
        assert RecordField(cfg, r, r.lineStart + TreeGlyphOffset(r.depth, cfg.PrefixExtra()));
      }
    }
  }

  lemma PopKeepsLineInv(cfg: Config, e: Engine, how: char)
    requires LineInv(cfg, e) && e.frames != []
    ensures var e' := PopDead(cfg, e, how);
            && LineInv(cfg, e')
            && |e'.out.file| == |e.out.file| && e'.out == e.out.(file := e'.out.file)
            && ChangesOnly(cfg, e.out.file, e'.out.file, [e.frames[|e.frames| - 1]])
            && (e.out.patchFd ==> MarkedDead(cfg, e'.out.file, e.frames[|e.frames| - 1], how))
  {
    var r := e.frames[|e.frames| - 1];
    assert Placed(e.out, r);
    MarkTouchesOwnLine(cfg, e.out, r, how, Some(Flagged(DURATION_UNWOUND, how)));
    var e' := PopDead(cfg, e, how);
    forall i | 0 <= i < |e'.frames|
      ensures Placed(e'.out, e'.frames[i])
    {
      assert Placed(e.out, e.frames[i]);
    }
  }

  ghost predicate AllMarkedDead(cfg: Config, file: string, frames: seq<FrameRecord>, keep: nat, how: char) {
    forall i | keep <= i < |frames| :: MarkedDead(cfg, file, frames[i], how)
  }

  lemma OneMoreMarked(cfg: Config, file: string, frames: seq<FrameRecord>, keep: nat, how: char)
    requires frames != [] && AllMarkedDead(cfg, file, frames[..|frames| - 1], keep, how)
    requires MarkedDead(cfg, file, frames[|frames| - 1], how)
    ensures AllMarkedDead(cfg, file, frames, keep, how)
  {
    forall i | keep <= i < |frames|
      ensures MarkedDead(cfg, file, frames[i], how)
    {
      assert i < |frames| - 1 ==> frames[..|frames| - 1][i] == frames[i];
    }
  }

  /** From `e` to `e'` the lines of the records above the first `keep` are marked, and nothing else changes. */
  ghost predicate DeadLinesOnly(cfg: Config, e: Engine, e': Engine, keep: nat, how: char)
    requires keep <= |e.frames|
  {
    && LineInv(cfg, e')
    && |e'.out.file| == |e.out.file| && e'.out == e.out.(file := e'.out.file)
    && ChangesOnly(cfg, e.out.file, e'.out.file, e.frames[keep..])
    && (e.out.patchFd ==> AllMarkedDead(cfg, e'.out.file, e.frames, keep, how))
  }

  /** Reclaiming marks every popped frame's own line as dead and touches nothing else. */
  lemma {:induction false} DropTouchesDeadLines(cfg: Config, e: Engine, keep: nat, how: char)
    requires LineInv(cfg, e) && keep <= |e.frames|
    ensures DeadLinesOnly(cfg, e, DropTo(cfg, e, keep, how), keep, how)
    decreases |e.frames|
  {
    if |e.frames| > keep {
      var e1 := PopDead(cfg, e, how);
      PopKeepsLineInv(cfg, e, how);
      DropTouchesDeadLines(cfg, e1, keep, how);
      PopThenDrop(cfg, e, e1, DropTo(cfg, e1, keep, how), keep, how);
    }
  }

  /** First the top record, then those below it. */
  lemma PopThenDrop(cfg: Config, e: Engine, e1: Engine, e': Engine, keep: nat, how: char)
    requires LineInv(cfg, e) && keep < |e.frames| && e1.frames == e.frames[..|e.frames| - 1]
    requires |e1.out.file| == |e.out.file| && e1.out == e.out.(file := e1.out.file)
    requires ChangesOnly(cfg, e.out.file, e1.out.file, [e.frames[|e.frames| - 1]])
    requires e.out.patchFd ==> MarkedDead(cfg, e1.out.file, e.frames[|e.frames| - 1], how)
    requires DeadLinesOnly(cfg, e1, e', keep, how)
    ensures DeadLinesOnly(cfg, e, e', keep, how)
  {
    WiderChanges(cfg, e.out.file, e1.out.file, [e.frames[|e.frames| - 1]], e.frames[keep..]);
    WiderChanges(cfg, e1.out.file, e'.out.file, e1.frames[keep..], e.frames[keep..]);
    ChangesTwice(cfg, e.out.file, e1.out.file, e'.out.file, e.frames[keep..]);
    if e.out.patchFd {
      TopMarksSurvive(cfg, e, e1.out.file, e'.out.file, keep, how);
      OneMoreMarked(cfg, e'.out.file, e.frames, keep, how);
    }
  }

  lemma WiderChanges(cfg: Config, before: string, after: string, some: seq<FrameRecord>, more: seq<FrameRecord>)
    requires ChangesOnly(cfg, before, after, some)
    requires forall r :: r in some ==> r in more
    ensures ChangesOnly(cfg, before, after, more)
  {
    forall p | 0 <= p < |before| && after[p] != before[p]
      ensures FieldOfSome(cfg, more, p)
    {
      var i :| 0 <= i < |some| && RecordField(cfg, some[i], p);
      assert some[i] in more;
      var j :| 0 <= j < |more| && more[j] == some[i];
    }
  }

  lemma TopFieldIsNobodys(cfg: Config, e: Engine, keep: nat, p: int)
    requires LineInv(cfg, e) && e.out.patchFd && keep < |e.frames| && RecordField(cfg, e.frames[|e.frames| - 1], p)
    ensures !FieldOfSome(cfg, e.frames[..|e.frames| - 1][keep..], p)
  {
    var below := e.frames[..|e.frames| - 1][keep..];
    forall i | 0 <= i < |below|
      ensures !RecordField(cfg, below[i], p)
    {
      FieldsApart(cfg, e, |e.frames| - 1, keep + i, p);
    }
  }

  lemma TopMarksSurvive(cfg: Config, e: Engine, before: string, after: string, keep: nat, how: char)
    requires LineInv(cfg, e) && e.out.patchFd && keep < |e.frames|
    requires MarkedDead(cfg, before, e.frames[|e.frames| - 1], how)
    requires ChangesOnly(cfg, before, after, e.frames[..|e.frames| - 1][keep..])
    ensures MarkedDead(cfg, after, e.frames[|e.frames| - 1], how)
  {
    var top := |e.frames| - 1;
    forall p | 0 <= p < |before| && RecordField(cfg, e.frames[top], p)
      ensures after[p] == before[p]
    {
      TopFieldIsNobodys(cfg, e, keep, p);
    }
    MarksSurvive(cfg, before, after, e.frames[top], how);
  }

  // ---------- the hooks ----------

  /** The line an enter is about to write has a 23-byte timestamp and keeps its glyph in the buffer. */
  predicate LineFits(cfg: Config, e: Engine, x: EnterInput) {
    e.overflow == 0 && !x.roomThrows && EnterLogs(cfg, e, x) ==>
      && |x.resolution.view.timestamp| == PRETTY_TIME_LENGTH
      && var depth := DropTo(cfg, e, EnterKeeps(cfg, e, x), DeathMark(AtEnter, x.uncaught)).depth + 1;
         cfg.exceptions && depth >= 1 ==> GlyphFits(depth, cfg.PrefixExtra(), FORMAT_BUF_SIZE)
  }

  /** The columns in front of the tree always fit the hook's buffer, and are as wide as the patches assume. */
  lemma ColumnsFit(cfg: Config, view: FrameView, callee: Address)
    ensures var addressed := view.(calleeAddress := if cfg.addr then Some(callee) else None);
            && ExtraWidth(addressed, cfg.Splice()) == cfg.PrefixExtra()
            && TIMESTAMP_PREFIX_WIDTH + cfg.PrefixExtra() < FORMAT_BUF_SIZE
  {
  }

  lemma PlaceholderIsLaid(cfg: Config, line: string)
    requires cfg.elapsed && TIMESTAMP_PREFIX_WIDTH + |cfg.Splice()| <= |line|
    requires line[TIMESTAMP_PREFIX_WIDTH..TIMESTAMP_PREFIX_WIDTH + |cfg.Splice()|] == cfg.Splice()
    ensures Shows(line, PLACEHOLDER_OFFSET, DURATION_PLACEHOLDER)
  {
    assert line[PLACEHOLDER_OFFSET..PLACEHOLDER_OFFSET + DURATION_FIELD_WIDTH]
        == line[TIMESTAMP_PREFIX_WIDTH..TIMESTAMP_PREFIX_WIDTH + |cfg.Splice()|][..DURATION_FIELD_WIDTH];
  }

  /** Such a line shows the placeholder and the glyph where patches aim. */
  lemma CallLineIsLaid(cfg: Config, view: FrameView, callee: Address, depth: int, start: nat)
    requires |view.timestamp| == PRETTY_TIME_LENGTH
    requires cfg.exceptions && depth >= 1 ==> GlyphFits(depth, cfg.PrefixExtra(), FORMAT_BUF_SIZE)
    ensures Laid(cfg, Chunk(start, CallLine(cfg, view, callee, depth), depth))
  {
    var addressed := view.(calleeAddress := if cfg.addr then Some(callee) else None);
    ColumnsFit(cfg, view, callee);
    SpliceAtOffset(addressed, depth, cfg.Splice(), true, FORMAT_BUF_SIZE);
    if depth >= 1 {
      GlyphOffsetExact(addressed, depth, cfg.Splice(), true, FORMAT_BUF_SIZE);
    }
    if cfg.elapsed {
      PlaceholderIsLaid(cfg, CallLine(cfg, view, callee, depth));
    }
  }

  /** Writing the call line: nothing already in the file changes, and the new record owns the new line. */
  lemma AppendPlaces(cfg: Config, out: Output, line: string, depth: int, write: Write)
    requires FileInv(cfg, out) && out.isOpen && Laid(cfg, Chunk(|out.file|, line, depth))
    ensures var out' := AppendCallLine(cfg, out, line, depth, write);
            && FileInv(cfg, out') && out.file <= out'.file && out.chunks <= out'.chunks
            && out'.patchFd == out.patchFd
            && (cfg.Patching() && out'.cursorValid && out'.patchFd ==>
                  && out.cursor == |out.file|
                  && out'.chunks == out.chunks + [Chunk(out.cursor, line, depth)])
  {
    AppendKeepsInv(cfg, out, line, write);
    if cfg.Patching() && Append(cfg, out, line, write).cursorValid && out.patchFd {
      ChunkKeepsInv(cfg, out, line, depth);
    }
  }

  lemma MoreChunksKeepPlaced(out: Output, out': Output, r: FrameRecord)
    requires Placed(out, r) && out.chunks <= out'.chunks && out'.patchFd == out.patchFd
    ensures Placed(out', r)
  {
    if out.patchFd && r.lineStart >= 0 {
      var k :| 0 <= k < |out.chunks| && out.chunks[k].start == r.lineStart && out.chunks[k].depth == r.depth;
      assert out'.chunks[k] == out.chunks[k];
    }
  }

  /** Every placed record's line starts inside the file. */
  lemma PlacedInside(cfg: Config, out: Output, r: FrameRecord)
    requires FileInv(cfg, out) && Placed(out, r) && out.patchFd && r.lineStart >= 0
    ensures r.lineStart < |out.file|
  {
    var k :| 0 <= k < |out.chunks| && out.chunks[k].start == r.lineStart && out.chunks[k].depth == r.depth;
    assert ChunkFits(cfg, out.original, out.chunks[k]);
  }

  predicate LinesBefore(frames: seq<FrameRecord>, length: nat) {
    forall i | 0 <= i < |frames| && frames[i].lineStart >= 0 :: frames[i].lineStart < length
  }

  lemma OldRecordsStayPlaced(cfg: Config, e1: Engine, out': Output)
    requires LineInv(cfg, e1) && e1.out.chunks <= out'.chunks && out'.patchFd == e1.out.patchFd
    ensures forall i | 0 <= i < |e1.frames| :: Placed(out', e1.frames[i])
    ensures out'.patchFd ==> LinesBefore(e1.frames, |e1.out.file|)
  {
    forall i | 0 <= i < |e1.frames|
      ensures Placed(out', e1.frames[i])
      ensures out'.patchFd && e1.frames[i].lineStart >= 0 ==> e1.frames[i].lineStart < |e1.out.file|
    {
      MoreChunksKeepPlaced(e1.out, out', e1.frames[i]);
      if out'.patchFd && e1.frames[i].lineStart >= 0 {
        PlacedInside(cfg, e1.out, e1.frames[i]);
      }
    }
  }

  /** A record that starts no line, or one behind all others, joins them. */
  lemma PushedRecordJoins(cfg: Config, frames: seq<FrameRecord>, r: FrameRecord, depth: int, length: nat, out': Output)
    requires FileInv(cfg, out') && out'.isOpen && Placed(out', r)
    requires forall i | 0 <= i < |frames| :: Placed(out', frames[i])
    requires out'.patchFd ==> LinesBefore(frames, length) && Ascending(frames)
    requires out'.patchFd && r.lineStart >= 0 ==> r.lineStart == length
    ensures LineInv(cfg, Engine(frames + [r], depth, 0, out'))
  {
  }

  lemma PushKeepsLineInv(cfg: Config, e1: Engine, x: EnterInput)
    requires LineInv(cfg, e1) && e1.out.isOpen && x.resolution.Resolved?
    requires Laid(cfg, Chunk(|e1.out.file|, CallLine(cfg, x.resolution.view, x.key.callee, e1.depth + 1), e1.depth + 1))
    ensures var depth := e1.depth + 1;
            var out' := AppendCallLine(cfg, e1.out, CallLine(cfg, x.resolution.view, x.key.callee, depth), depth,
                                       x.write);
            && LineInv(cfg, Engine(e1.frames + [NewRecord(cfg, e1, x, depth, out')], depth, 0, out'))
            && e1.out.file <= out'.file
  {
    var depth := e1.depth + 1;
    var line := CallLine(cfg, x.resolution.view, x.key.callee, depth);
    var out' := AppendCallLine(cfg, e1.out, line, depth, x.write);
    AppendPlaces(cfg, e1.out, line, depth, x.write);
    var r := NewRecord(cfg, e1, x, depth, out');
    if out'.patchFd && r.lineStart >= 0 {
      assert out'.chunks[|e1.out.chunks|] == Chunk(r.lineStart, line, r.depth);
    }
    OldRecordsStayPlaced(cfg, e1, out');
    PushedRecordJoins(cfg, e1.frames, r, depth, |e1.out.file|, out');
  }

  lemma UnloggedPush(cfg: Config, e1: Engine, r: FrameRecord)
    requires LineInv(cfg, e1) && r.lineStart == -1
    ensures LineInv(cfg, e1.(frames := e1.frames + [r]))
  {
  }

  lemma AppendedChangesOnly(cfg: Config, before: string, after: string, longer: string, records: seq<FrameRecord>)
    requires ChangesOnly(cfg, before, after, records) && after <= longer
    ensures ChangesOnly(cfg, before, longer, records)
  {
    forall p | 0 <= p < |before| && longer[p] != before[p]
      ensures FieldOfSome(cfg, records, p)
    {
      assert after[p] != before[p];
    }
  }

  /** The enter hook changes no byte of the file outside the lines of the frames it reclaims. */
  lemma EnterTouchesDeadLines(cfg: Config, e: Engine, x: EnterInput)
    requires LineInv(cfg, e) && LineFits(cfg, e, x)
    ensures LineInv(cfg, Enter(cfg, e, x))
    ensures ChangesOnly(cfg, e.out.file, Enter(cfg, e, x).out.file, e.frames[EnterKeeps(cfg, e, x)..])
  {
    if e.overflow == 0 && !x.roomThrows {
      var keep := EnterKeeps(cfg, e, x);
      var e1 := DropTo(cfg, e, keep, DeathMark(AtEnter, x.uncaught));
      DropTouchesDeadLines(cfg, e, keep, DeathMark(AtEnter, x.uncaught));
      EnterAfterDrop(cfg, e, x, e1);
      AppendedChangesOnly(cfg, e.out.file, e1.out.file, Enter(cfg, e, x).out.file, e.frames[keep..]);
    }
  }

  lemma EnterAfterDrop(cfg: Config, e: Engine, x: EnterInput, e1: Engine)
    requires e.overflow == 0 && !x.roomThrows && LineFits(cfg, e, x)
    requires e1 == DropTo(cfg, e, EnterKeeps(cfg, e, x), DeathMark(AtEnter, x.uncaught)) && LineInv(cfg, e1)
    requires e1.out.isOpen == e.out.isOpen
    ensures LineInv(cfg, Enter(cfg, e, x)) && e1.out.file <= Enter(cfg, e, x).out.file
  {
    RoomyEnter(cfg, e, x, e1);
    if EnterLogs(cfg, e, x) {
      CallLineIsLaid(cfg, x.resolution.view, x.key.callee, e1.depth + 1, |e1.out.file|);
      LoggedPush(cfg, e1, x);
    } else {
      UnloggedPush(cfg, e1, UnloggedRecord(x));
    }
  }

  lemma LoggedPush(cfg: Config, e1: Engine, x: EnterInput)
    requires LineInv(cfg, e1) && e1.out.isOpen && x.resolution.Resolved? && e1.overflow == 0
    requires Laid(cfg, Chunk(|e1.out.file|, CallLine(cfg, x.resolution.view, x.key.callee, e1.depth + 1), e1.depth + 1))
    ensures var e2 := WithLine(cfg, e1, x);
            && LineInv(cfg, e2.(frames := e1.frames + [NewRecord(cfg, e1, x, e2.depth, e2.out)]))
            && e1.out.file <= e2.out.file
  {
    PushKeepsLineInv(cfg, e1, x);
  }

  /** What a finished frame's line shows: its duration, and its mark if an exception left it. */
  ghost predicate ShowsEnd(cfg: Config, file: string, r: FrameRecord, x: ExitInput) {
    r.lineStart >= 0 ==>
      && (cfg.elapsed ==> Shows(file, r.lineStart + PLACEHOLDER_OFFSET, ExitField(cfg, r, x)))
      && (cfg.exceptions && x.uncaught > r.uncaughtAtEnter && r.depth >= 1 ==>
            Shows(file, r.lineStart + TreeGlyphOffset(r.depth, cfg.PrefixExtra()), [FRAME_END_EXCEPTION]))
  }

  /** The exit hook's patches of the exiting frame's own line. */
  lemma FinishTouchesOwnLine(cfg: Config, out: Output, r: FrameRecord, x: ExitInput)
    requires FileInv(cfg, out) && Placed(out, r)
    ensures var out' := FinishLine(cfg, out, r, x);
            && FileInv(cfg, out') && out' == out.(file := out'.file) && |out'.file| == |out.file|
            && ChangesOnly(cfg, out.file, out'.file, [r])
            && (out.patchFd ==> ShowsEnd(cfg, out'.file, r, x))
  {
    var timed := if cfg.elapsed then PatchLine(out, r.lineStart, PLACEHOLDER_OFFSET, ExitField(cfg, r, x)) else out;
    if cfg.elapsed && r.lineStart >= 0 {
      FieldPatch(cfg, out, r, ExitField(cfg, r, x));
    }
    if cfg.exceptions && x.uncaught > r.uncaughtAtEnter {
      MarkTouchesOwnLine(cfg, timed, r, FRAME_END_EXCEPTION, None);
      ChangesTwice(cfg, out.file, timed.file, FinishLine(cfg, out, r, x).file, [r]);
    }
  }

  /**
  The exit hook changes only the lines of the records it pops: the frames above the answered record are
  marked dead, and the answered record's own line shows its duration and how it ended.
  */
  lemma ExitFinishesOwnLine(cfg: Config, e: Engine, x: ExitInput)
    requires LineInv(cfg, e)
    ensures LineInv(cfg, Exit(cfg, e, x))
    ensures e.overflow == 0 && e.frames != [] ==>
              var index := ExitIndex(e.frames, x.key, x.tailCalled, cfg.bounds);
              var r := e.frames[index];
              var file := Exit(cfg, e, x).out.file;
              && |file| == |e.out.file|
              && ChangesOnly(cfg, e.out.file, file, e.frames[index..])
              && (e.out.patchFd ==> ShowsEnd(cfg, file, r, x))
    ensures e.overflow > 0 || e.frames == [] ==> Exit(cfg, e, x).out == e.out
  {
    if e.overflow == 0 && e.frames != [] {
      var index := ExitIndex(e.frames, x.key, x.tailCalled, cfg.bounds);
      var e1 := DropTo(cfg, e, index + 1, DeathMark(AtExit, x.uncaught));
      DropTouchesDeadLines(cfg, e, index + 1, DeathMark(AtExit, x.uncaught));
      ExitIsFinished(cfg, e, x);
      FinishKeepsLineInv(cfg, e1, x, index);
      BothParts(cfg, e.out.file, e1.out.file, Exit(cfg, e, x).out.file, e.frames, index);
    }
  }

  /** First the lines of the records above, then the record's own. */
  lemma BothParts(cfg: Config, a: string, b: string, c: string, frames: seq<FrameRecord>, index: nat)
    requires index < |frames|
    requires ChangesOnly(cfg, a, b, frames[index + 1..]) && ChangesOnly(cfg, b, c, [frames[index]])
    ensures ChangesOnly(cfg, a, c, frames[index..])
  {
    WiderChanges(cfg, a, b, frames[index + 1..], frames[index..]);
    WiderChanges(cfg, b, c, [frames[index]], frames[index..]);
    ChangesTwice(cfg, a, b, c, frames[index..]);
  }

  lemma FinishKeepsLineInv(cfg: Config, e1: Engine, x: ExitInput, index: nat)
    requires LineInv(cfg, e1) && index < |e1.frames|
    ensures var e' := Finished(cfg, e1, x, index);
            var r := e1.frames[index];
            && LineInv(cfg, e') && |e'.out.file| == |e1.out.file|
            && ChangesOnly(cfg, e1.out.file, e'.out.file, [r])
            && (e1.out.patchFd ==> ShowsEnd(cfg, e'.out.file, r, x))
  {
    assert Placed(e1.out, e1.frames[index]);
    FinishTouchesOwnLine(cfg, e1.out, e1.frames[index], x);
    var e' := Finished(cfg, e1, x, index);
    forall i | 0 <= i < index
      ensures Placed(e'.out, e'.frames[i])
    {
      assert Placed(e1.out, e1.frames[i]);
    }
  }

  lemma EventKeepsLineInv(cfg: Config, e: Engine, event: EventView, write: Write)
    requires LineInv(cfg, e)
    ensures LineInv(cfg, EventLine(cfg, e, event, write)) && e.out.file <= EventLine(cfg, e, event, write).out.file
  {
    if e.out.isOpen {
      AppendKeepsInv(cfg, e.out, EventText(cfg, event, e.depth + 1), write);
      var e' := EventLine(cfg, e, event, write);
      forall i | 0 <= i < |e.frames|
        ensures Placed(e'.out, e'.frames[i])
      {
        MoreChunksKeepPlaced(e.out, e'.out, e.frames[i]);
      }
    }
  }

  /** A catch marks the frames the exception unwound and touches nothing else. */
  lemma CatchTouchesDeadLines(cfg: Config, e: Engine, x: CatchInput)
    requires LineInv(cfg, e)
    ensures LineInv(cfg, Catch(cfg, e, x))
    ensures ChangesOnly(cfg, e.out.file, Catch(cfg, e, x).out.file, e.frames[CatchKeeps(cfg, e.frames, x)..])
  {
    var keep := CatchKeeps(cfg, e.frames, x);
    DropTouchesDeadLines(cfg, e, keep, DeathMark(AtCatch, 0));
    EventKeepsLineInv(cfg, DropTo(cfg, e, keep, DeathMark(AtCatch, 0)), x.event, x.write);
  }

  lemma OpenKeepsLineInv(cfg: Config, e: Engine, existing: string, header: Header, reopens: bool, seeks: bool)
    requires LineInv(cfg, e) && !e.out.isOpen && CursorFits(cfg, existing, header, reopens)
    ensures LineInv(cfg, e.(out := Open(cfg, e.out, existing, header, reopens, seeks)))
  {
    OpenKeepsInvIff(cfg, e.out, existing, header, reopens, seeks);
  }

  // ---------- runs ----------

  /** The records a call pops. */
  function PoppedBy(cfg: Config, e: Engine, call: HookCall): seq<FrameRecord> {
    match call
    case EnterCall(x) => e.frames[EnterKeeps(cfg, e, x)..]
    case ExitCall(x) =>
      if e.overflow > 0 || e.frames == [] then []
      else e.frames[ExitIndex(e.frames, x.key, x.tailCalled, cfg.bounds)..]
    case CatchCall(x) => e.frames[CatchKeeps(cfg, e.frames, x)..]
    case EventCall(_, _) => []
    case OpenCall(_, _, _, _) => []
  }

  /** A line is not clamped, and a lazy open leaves the cursor where the file ends. */
  predicate CallFits(cfg: Config, e: Engine, call: HookCall) {
    && (call.EnterCall? ==> LineFits(cfg, e, call.enter))
    && (call.OpenCall? && !e.out.isOpen ==> CursorFits(cfg, call.existing, call.header, call.reopens))
  }

  lemma ApplyTouches(cfg: Config, e: Engine, call: HookCall)
    requires LineInv(cfg, e) && CallFits(cfg, e, call)
    ensures LineInv(cfg, Apply(cfg, e, call))
    ensures e.out.isOpen ==> ChangesOnly(cfg, e.out.file, Apply(cfg, e, call).out.file, PoppedBy(cfg, e, call))
  {
    match call
    case EnterCall(x) => EnterTouchesDeadLines(cfg, e, x);
    case ExitCall(x) => ExitFinishesOwnLine(cfg, e, x);
    case CatchCall(x) => CatchTouchesDeadLines(cfg, e, x);
    case EventCall(event, write) => EventKeepsLineInv(cfg, e, event, write);
    case OpenCall(existing, header, reopens, seeks) =>
      if !e.out.isOpen {
        OpenKeepsLineInv(cfg, e, existing, header, reopens, seeks);
      }
  }

  ghost predicate FittingRun(cfg: Config, calls: seq<HookCall>) {
    forall i | 0 <= i < |calls| :: CallFits(cfg, Run(cfg, calls[..i]), calls[i])
  }

  lemma FittingPrefix(cfg: Config, calls: seq<HookCall>, n: nat)
    requires FittingRun(cfg, calls) && n <= |calls|
    ensures FittingRun(cfg, calls[..n])
  {
    assert forall i | 0 <= i < n :: calls[..n][..i] == calls[..i];
  }

  lemma {:induction false} LineInvHolds(cfg: Config, calls: seq<HookCall>)
    requires FittingRun(cfg, calls)
    ensures LineInv(cfg, Run(cfg, calls))
  {
    if calls != [] {
      var n := |calls| - 1;
      FittingPrefix(cfg, calls, n);
      LineInvHolds(cfg, calls[..n]);
      ApplyTouches(cfg, Run(cfg, calls[..n]), calls[n]);
    }
  }

  /**
  Patch isolation over every run without clamped glyphs: the file is the appended text except inside the
  fields of its lines; the cursor is the end of the file while it is trusted; and each call changes, of
  what was already written, only fields of the lines of records it pops, so the line of a frame whose
  record stays is left exactly as it was.
  */
  lemma PatchIsolation(cfg: Config, calls: seq<HookCall>, n: nat)
    requires FittingRun(cfg, calls) && n < |calls|
    ensures var e, e' := Run(cfg, calls[..n]), Run(cfg, calls[..n + 1]);
            && DiffersOnlyInFields(cfg, e'.out.file, e'.out.original, e'.out.chunks)
            && ChunksFit(cfg, e'.out.original, e'.out.chunks)
            && CursorAtEnd(cfg, e'.out)
            && (e.out.isOpen ==> ChangesOnly(cfg, e.out.file, e'.out.file, PoppedBy(cfg, e, calls[n])))
            && (forall i, p | 0 <= i < |e.frames| && RecordField(cfg, e.frames[i], p) && StaysIn(e, calls[n], cfg, i)
                              && 0 <= p < |e.out.file| && p < |e'.out.file| ::
                  e'.out.file[p] == e.out.file[p])
  {
    var e := Run(cfg, calls[..n]);
    FittingPrefix(cfg, calls, n);
    FittingPrefix(cfg, calls, n + 1);
    assert calls[..n + 1][..n] == calls[..n];
    LineInvHolds(cfg, calls[..n]);
    LineInvHolds(cfg, calls[..n + 1]);
    ApplyTouches(cfg, e, calls[n]);
    KeptLinesUntouched(cfg, e, calls[n]);
  }

  // ---------- without a second descriptor ----------

  lemma {:induction false} DropWithoutDescriptor(cfg: Config, e: Engine, keep: nat, how: char)
    requires !e.out.patchFd
    ensures DropTo(cfg, e, keep, how).out == e.out
    decreases |e.frames|
  {
    if |e.frames| > keep {
      DropWithoutDescriptor(cfg, PopDead(cfg, e, how), keep, how);
    }
  }

  predicate OnlyGrows(out: Output, out': Output) {
    out'.isOpen && !out'.patchFd && out.file <= out'.file
  }

  lemma EnterOnlyAppends(cfg: Config, e: Engine, x: EnterInput)
    requires e.out.isOpen && !e.out.patchFd
    ensures OnlyGrows(e.out, Enter(cfg, e, x).out)
  {
    if e.overflow == 0 && !x.roomThrows {
      var e1 := DropTo(cfg, e, EnterKeeps(cfg, e, x), DeathMark(AtEnter, x.uncaught));
      DropWithoutDescriptor(cfg, e, EnterKeeps(cfg, e, x), DeathMark(AtEnter, x.uncaught));
      RoomyEnter(cfg, e, x, e1);
    }
  }

  lemma ExitChangesNothing(cfg: Config, e: Engine, x: ExitInput)
    requires e.out.isOpen && !e.out.patchFd
    ensures Exit(cfg, e, x).out == e.out
  {
    if e.overflow == 0 && e.frames != [] {
      DropWithoutDescriptor(cfg, e, ExitIndex(e.frames, x.key, x.tailCalled, cfg.bounds) + 1,
                            DeathMark(AtExit, x.uncaught));
      ExitIsFinished(cfg, e, x);
    }
  }

  /** Without a descriptor to patch through, a hook changes nothing that is already in the file. */
  lemma NoDescriptorOnlyAppends(cfg: Config, e: Engine, call: HookCall)
    requires e.out.isOpen && !e.out.patchFd
    ensures OnlyGrows(e.out, Apply(cfg, e, call).out)
  {
    match call
    case EnterCall(x) => EnterOnlyAppends(cfg, e, x);
    case ExitCall(x) => ExitChangesNothing(cfg, e, x);
    case CatchCall(x) =>
      DropWithoutDescriptor(cfg, e, CatchKeeps(cfg, e.frames, x), DeathMark(AtCatch, 0));
      CatchParts(cfg, e, x, DropTo(cfg, e, CatchKeeps(cfg, e.frames, x), DeathMark(AtCatch, 0)));
    case EventCall(_, _) =>
    case OpenCall(_, _, _, _) =>
  }

  /** Over every run: what such a file holds stays, wherever its cursor stands. */
  lemma {:induction false} NothingIsPatchedWithoutDescriptor(cfg: Config, calls: seq<HookCall>, n: nat, m: nat)
    requires n <= m <= |calls|
    requires Run(cfg, calls[..n]).out.isOpen && !Run(cfg, calls[..n]).out.patchFd
    ensures Run(cfg, calls[..m]).out.isOpen && !Run(cfg, calls[..m]).out.patchFd
    ensures Run(cfg, calls[..n]).out.file <= Run(cfg, calls[..m]).out.file
    decreases m
  {
    if n < m {
      NothingIsPatchedWithoutDescriptor(cfg, calls, n, m - 1);
      assert calls[..m][..m - 1] == calls[..m - 1];
      NoDescriptorOnlyAppends(cfg, Run(cfg, calls[..m - 1]), calls[m - 1]);
    }
  }

  // ---------- isolation ----------

  /** Record i is not among those the call pops. */
  predicate StaysIn(e: Engine, call: HookCall, cfg: Config, i: int) {
    i < |e.frames| - |PoppedBy(cfg, e, call)|
  }

  lemma KeptLinesUntouched(cfg: Config, e: Engine, call: HookCall)
    requires LineInv(cfg, e) && CallFits(cfg, e, call)
    ensures var file := Apply(cfg, e, call).out.file;
            forall i, p | 0 <= i < |e.frames| && RecordField(cfg, e.frames[i], p) && StaysIn(e, call, cfg, i)
                          && 0 <= p < |e.out.file| && p < |file| ::
              file[p] == e.out.file[p]
  {
    ApplyTouches(cfg, e, call);
    var file := Apply(cfg, e, call).out.file;
    var kept := |e.frames| - |PoppedBy(cfg, e, call)|;
    PoppedAreOnTop(cfg, e, call);
    forall i, p | 0 <= i < |e.frames| && RecordField(cfg, e.frames[i], p) && StaysIn(e, call, cfg, i)
                  && 0 <= p < |e.out.file| && p < |file|
      ensures file[p] == e.out.file[p]
    {
      assert e.out.isOpen;
      if e.out.patchFd {
        KeptFieldIsNobodys(cfg, e, kept, i, p);
      } else {
        NoDescriptorOnlyAppends(cfg, e, call);
      }
    }
  }

  lemma PoppedAreOnTop(cfg: Config, e: Engine, call: HookCall)
    ensures |PoppedBy(cfg, e, call)| <= |e.frames|
    ensures PoppedBy(cfg, e, call) == e.frames[|e.frames| - |PoppedBy(cfg, e, call)|..]
  {
  }

  lemma KeptFieldIsNobodys(cfg: Config, e: Engine, kept: nat, i: nat, p: int)
    requires LineInv(cfg, e) && e.out.patchFd && i < kept <= |e.frames| && RecordField(cfg, e.frames[i], p)
    ensures !FieldOfSome(cfg, e.frames[kept..], p)
  {
    var popped := e.frames[kept..];
    forall k | 0 <= k < |popped|
      ensures !RecordField(cfg, popped[k], p)
    {
      FieldsApart(cfg, e, i, kept + k, p);
    }
  }

  /**
  After a short write (or a header written without a usable second descriptor) no later frame is ever patched: the
  cursor stays untrusted, and every record pushed from then on carries no line start.
  */
  lemma UntrustedCursorIsFinal(cfg: Config, e: Engine, call: HookCall)
    requires cfg.Patching() && e.out.isOpen && !e.out.cursorValid
    ensures var e' := Apply(cfg, e, call);
            && e'.out.isOpen && !e'.out.cursorValid
            && (call.EnterCall? && e'.overflow == 0 ==>
                  e'.frames != [] && e'.frames[|e'.frames| - 1].lineStart == -1)
  {
    match call
    case EnterCall(x) => UntrustedEnter(cfg, e, x);
    case ExitCall(x) => UntrustedExit(cfg, e, x);
    case CatchCall(x) => UntrustedCatch(cfg, e, x);
    case EventCall(_, _) =>
    case OpenCall(_, _, _, _) =>
  }

  lemma UntrustedExit(cfg: Config, e: Engine, x: ExitInput)
    requires cfg.Patching() && e.out.isOpen && !e.out.cursorValid
    ensures Exit(cfg, e, x).out.isOpen && !Exit(cfg, e, x).out.cursorValid
  {
    if e.overflow == 0 && e.frames != [] {
      ExitIsFinished(cfg, e, x);
      DropKeepsOutputShape(cfg, e, ExitIndex(e.frames, x.key, x.tailCalled, cfg.bounds) + 1,
                            DeathMark(AtExit, x.uncaught));
    }
  }

  lemma UntrustedCatch(cfg: Config, e: Engine, x: CatchInput)
    requires cfg.Patching() && e.out.isOpen && !e.out.cursorValid
    ensures Catch(cfg, e, x).out.isOpen && !Catch(cfg, e, x).out.cursorValid
  {
    DropKeepsOutputShape(cfg, e, CatchKeeps(cfg, e.frames, x), DeathMark(AtCatch, 0));
  }

  lemma UntrustedEnter(cfg: Config, e: Engine, x: EnterInput)
    requires cfg.Patching() && e.out.isOpen && !e.out.cursorValid
    ensures var e' := Enter(cfg, e, x);
            && e'.out.isOpen && !e'.out.cursorValid
            && (e'.overflow == 0 ==> e'.frames != [] && e'.frames[|e'.frames| - 1].lineStart == -1)
  {
    if e.overflow == 0 && !x.roomThrows {
      var e1 := DropTo(cfg, e, EnterKeeps(cfg, e, x), DeathMark(AtEnter, x.uncaught));
      DropKeepsOutputShape(cfg, e, EnterKeeps(cfg, e, x), DeathMark(AtEnter, x.uncaught));
      RoomyEnter(cfg, e, x, e1);
      if EnterLogs(cfg, e, x) {
        var depth := e1.depth + 1;
        UntrustedAppend(cfg, e1.out, CallLine(cfg, x.resolution.view, x.key.callee, depth), depth, x.write);
      }
    }
  }

  lemma UntrustedAppend(cfg: Config, out: Output, line: string, depth: int, write: Write)
    requires cfg.Patching() && out.isOpen && !out.cursorValid
    ensures var out' := AppendCallLine(cfg, out, line, depth, write); out'.isOpen && !out'.cursorValid
  {
  }

  /** The records that may patch are old ones, in their old places. */
  predicate OldLinesOnly(before: seq<FrameRecord>, after: seq<FrameRecord>) {
    forall j | 0 <= j < |after| && after[j].lineStart >= 0 :: j < |before| && after[j] == before[j]
  }

  lemma UntrustedRecords(cfg: Config, e: Engine, call: HookCall)
    requires cfg.Patching() && e.out.isOpen && !e.out.cursorValid
    ensures OldLinesOnly(e.frames, Apply(cfg, e, call).frames)
  {
    match call
    case EnterCall(x) => UntrustedPush(cfg, e, x);
    case ExitCall(_) =>
    case CatchCall(_) =>
    case EventCall(_, _) =>
    case OpenCall(_, _, _, _) =>
  }

  lemma UntrustedPush(cfg: Config, e: Engine, x: EnterInput)
    requires cfg.Patching() && e.out.isOpen && !e.out.cursorValid
    ensures OldLinesOnly(e.frames, Enter(cfg, e, x).frames)
  {
    if e.overflow == 0 && !x.roomThrows {
      UntrustedEnter(cfg, e, x);
      RoomyEnter(cfg, e, x, DropTo(cfg, e, EnterKeeps(cfg, e, x), DeathMark(AtEnter, x.uncaught)));
    }
  }

  /**
  Over every run: once the cursor is untrusted it stays so, and whatever happens later, every record that may still
  patch was pushed before and stands where it stood.
  */
  lemma {:induction false} NoLaterFrameIsPatched(cfg: Config, calls: seq<HookCall>, n: nat, m: nat)
    requires cfg.Patching() && n <= m <= |calls|
    requires Run(cfg, calls[..n]).out.isOpen && !Run(cfg, calls[..n]).out.cursorValid
    ensures Run(cfg, calls[..m]).out.isOpen && !Run(cfg, calls[..m]).out.cursorValid
    ensures OldLinesOnly(Run(cfg, calls[..n]).frames, Run(cfg, calls[..m]).frames)
    decreases m
  {
    if n < m {
      NoLaterFrameIsPatched(cfg, calls, n, m - 1);
      assert calls[..m][..m - 1] == calls[..m - 1];
      UntrustedCursorIsFinal(cfg, Run(cfg, calls[..m - 1]), calls[m - 1]);
      UntrustedRecords(cfg, Run(cfg, calls[..m - 1]), calls[m - 1]);
    }
  }

  // ---------- why the glyph bound is needed ----------

  /**
  A frame logged at depth 676, in a build with exception marks only: whatever its name, its predicted
  glyph lies beyond its own line, so marking it overwrites a byte of a line appended after it.
  */
  lemma DeepMarkLeavesItsLine(view: FrameView, callee: Address, next: string)
    requires |view.timestamp| == PRETTY_TIME_LENGTH && |next| > FORMAT_BUF_SIZE
    ensures var cfg := Config(false, true, false, StackBounds(0, 0, false));
            var line := CallLine(cfg, view, callee, 676);
            var at := TreeGlyphOffset(676, cfg.PrefixExtra());
            && !GlyphFits(676, cfg.PrefixExtra(), FORMAT_BUF_SIZE)
            && |line| <= at < |line + next|
            && Pwrite(line + next, at, [FRAME_END_JUMP])
            == line + next[at - |line| := FRAME_END_JUMP]
  {
    var cfg := Config(false, true, false, StackBounds(0, 0, false));
    var line := CallLine(cfg, view, callee, 676);
    OverwriteBehind(line, next, TreeGlyphOffset(676, cfg.PrefixExtra()), FRAME_END_JUMP);
  }

  lemma OverwriteBehind(line: string, next: string, at: nat, c: char)
    requires |line| <= at < |line + next|
    ensures Pwrite(line + next, at, [c]) == line + next[at - |line| := c]
  {
  }

  // ---------- why the run header is needed ----------

  /**
  The exact condition, over every run: the lazy open leaves a cursor that tells the end of the file if and only if the
  header was written, nothing can be patched, or the file was empty.
  */
  lemma OpenKeepsIsolationIff(cfg: Config, calls: seq<HookCall>, open: HookCall)
    requires FittingRun(cfg, calls) && open.OpenCall? && !Run(cfg, calls).out.isOpen
    ensures LineInv(cfg, Run(cfg, calls + [open])) <==> CursorFits(cfg, open.existing, open.header, open.reopens)
  {
    LineInvHolds(cfg, calls);
    assert (calls + [open])[..|calls|] == calls;
    OpenKeepsInvIff(cfg, Run(cfg, calls).out, open.existing, open.header, open.reopens, open.seeks);
    if CursorFits(cfg, open.existing, open.header, open.reopens) {
      OpenKeepsLineInv(cfg, Run(cfg, calls), open.existing, open.header, open.reopens, open.seeks);
    }
  }

  /** The first line behind such an open: its record takes it to start at 0. */
  lemma UnseededEnter(cfg: Config, e: Engine, existing: string, seeks: bool, x: EnterInput)
    requires cfg.elapsed && e.out == Open(cfg, CLOSED, existing, HeaderThrows, true, seeks)
    requires NoLineStarts(e.frames) && e.overflow == 0
    requires EnterLogs(cfg, e, x) && !x.roomThrows && x.write.Full?
    ensures var e1 := Enter(cfg, e, x);
            && e1.frames != [] && e1.overflow == 0 && e1.out.cursorValid && e1.out.patchFd
            && var r := e1.frames[|e1.frames| - 1];
               && r.logged && r.lineStart == 0 && r.uncaughtAtEnter == x.uncaught
               && e1.out.cursor == |CallLine(cfg, x.resolution.view, x.key.callee, r.depth)|
               && e1.out.file == existing + CallLine(cfg, x.resolution.view, x.key.callee, r.depth)
  {
    var keep := EnterKeeps(cfg, e, x);
    OpenFirst(cfg, e, e.out, keep, DeathMark(AtEnter, x.uncaught));
    RoomyEnter(cfg, e, x, DropTo(cfg, e, keep, DeathMark(AtEnter, x.uncaught)));
  }

  /** The exit of a frame that takes its line to start at 0, when its record is on top. */
  lemma UnseededExit(cfg: Config, e1: Engine, y: ExitInput)
    requires cfg.elapsed && e1.overflow == 0 && e1.frames != [] && e1.out.patchFd
    requires ExitIndex(e1.frames, y.key, y.tailCalled, cfg.bounds) == |e1.frames| - 1
    requires var r := e1.frames[|e1.frames| - 1]; r.logged && r.lineStart == 0 && y.uncaught <= r.uncaughtAtEnter
    ensures Exit(cfg, e1, y).out.file
            == Pwrite(e1.out.file, PLACEHOLDER_OFFSET, ExitField(cfg, e1.frames[|e1.frames| - 1], y))
  {
    ExitIsFinished(cfg, e1, y);
  }

  /**
  The file holds an earlier run, and building the header threw once the stream was in place: the next frame takes its
  line to start at 0, and its exit writes its duration over bytes 26 to 37 of the earlier run.
  */
  lemma ThrowingHeaderOverwritesTheEarlierRun(cfg: Config, e: Engine, existing: string, seeks: bool, x: EnterInput,
                                              e1: Engine, y: ExitInput)
    requires cfg.elapsed && |existing| >= PLACEHOLDER_OFFSET + DURATION_FIELD_WIDTH
    requires e.out == Open(cfg, CLOSED, existing, HeaderThrows, true, seeks) && NoLineStarts(e.frames)
             && e.overflow == 0
    requires EnterLogs(cfg, e, x) && !x.roomThrows && x.write.Full? && e1 == Enter(cfg, e, x) && e1.frames != []
    requires ExitIndex(e1.frames, y.key, y.tailCalled, cfg.bounds) == |e1.frames| - 1 && y.uncaught <= x.uncaught
    ensures var r := e1.frames[|e1.frames| - 1];
            && r.lineStart == 0 && e1.out.cursorValid && e1.out.cursor != |e1.out.file|
            && Exit(cfg, e1, y).out.file
               == existing[..PLACEHOLDER_OFFSET] + ExitField(cfg, r, y)
                  + existing[PLACEHOLDER_OFFSET + DURATION_FIELD_WIDTH..]
                  + CallLine(cfg, x.resolution.view, x.key.callee, r.depth)
  {
    UnseededEnter(cfg, e, existing, seeks, x);
    UnseededExit(cfg, e1, y);
    var r := e1.frames[|e1.frames| - 1];
    OverwriteWithin(existing, CallLine(cfg, x.resolution.view, x.key.callee, r.depth), PLACEHOLDER_OFFSET,
                    ExitField(cfg, r, y));
  }

  lemma OverwriteWithin(before: string, behind: string, at: nat, bytes: string)
    requires at + |bytes| <= |before|
    ensures Pwrite(before + behind, at, bytes) == before[..at] + bytes + before[at + |bytes|..] + behind
  {
  }
}
