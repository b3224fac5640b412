/**
The records and the file together, over every possible run: the line of a frame that is still alive is byte for byte
what its enter wrote; and where no frame vanishes, the exit of a frame puts the time since its own enter into its own
line.
*/
module LiveLines {
  import opened Common
  import opened FrameReconcile
  import opened LineFormat
  import opened DurationFormat
  import opened TraceFile
  import opened Hooks
  import opened HookLemmas
  import opened LinePatching
  import opened TrustedCursor
  import opened LiveStack
  import opened Histories
  import opened Exactness

  // ---------- the line of a record that stays ----------

  /** Chunk `k` is the line of this record. */
  predicate LineOf(out: Output, r: FrameRecord, k: nat) {
    out.isOpen && out.patchFd && r.lineStart >= 0 && k < |out.chunks| && out.chunks[k].start == r.lineStart
  }

  /** No byte of the line is in a field of a record from index `kept` on. */
  lemma LineIsNobodys(cfg: Config, e: Engine, kept: nat, j: nat, k: nat, p: int)
    requires LineInv(cfg, e) && j < kept <= |e.frames| && LineOf(e.out, e.frames[j], k)
    requires e.out.chunks[k].start <= p < e.out.chunks[k].start + |e.out.chunks[k].text|
    ensures !FieldOfSome(cfg, e.frames[kept..], p)
  {
    var popped := e.frames[kept..];
    forall i | 0 <= i < |popped|
      ensures !RecordField(cfg, popped[i], p)
    {
      if RecordField(cfg, popped[i], p) {
        OtherLine(cfg, e, j, kept + i, k, p);
      }
    }
  }

  /** Fields lie in their own lines, and lines are disjoint. */
  lemma OtherLine(cfg: Config, e: Engine, j: nat, i: nat, k: nat, p: int)
    requires LineInv(cfg, e) && j < i < |e.frames| && LineOf(e.out, e.frames[j], k) && RecordField(cfg, e.frames[i], p)
    ensures !(e.out.chunks[k].start <= p < e.out.chunks[k].start + |e.out.chunks[k].text|)
  {
    var out := e.out;
    assert Placed(out, e.frames[i]);
    var l :| 0 <= l < |out.chunks| && out.chunks[l].start == e.frames[i].lineStart
             && out.chunks[l].depth == e.frames[i].depth;
    assert InField(cfg, out.chunks[l], p);
    FieldsStayInside(cfg, out, l, p);
    assert out.chunks[k].start < out.chunks[l].start;
  }

  /** Lines once written stay in their places. */
  predicate ChunksStay(out: Output, out': Output) {
    out'.isOpen && out'.patchFd == out.patchFd && out.chunks <= out'.chunks
  }

  lemma AppendKeepsChunks(cfg: Config, out: Output, line: string, depth: int, write: Write)
    requires out.isOpen
    ensures ChunksStay(out, AppendCallLine(cfg, out, line, depth, write))
  {
  }

  lemma EnterKeepsChunks(cfg: Config, e: Engine, x: EnterInput)
    requires e.out.isOpen
    ensures ChunksStay(e.out, Enter(cfg, e, x).out)
  {
    if e.overflow == 0 && !x.roomThrows {
      var e1 := DropTo(cfg, e, EnterKeeps(cfg, e, x), DeathMark(AtEnter, x.uncaught));
      DropKeepsOutputShape(cfg, e, EnterKeeps(cfg, e, x), DeathMark(AtEnter, x.uncaught));
      RoomyEnter(cfg, e, x, e1);
      if EnterLogs(cfg, e, x) {
        var depth := e1.depth + 1;
        AppendKeepsChunks(cfg, e1.out, CallLine(cfg, x.resolution.view, x.key.callee, depth), depth, x.write);
      }
    }
  }

  lemma ExitKeepsChunks(cfg: Config, e: Engine, x: ExitInput)
    requires e.out.isOpen
    ensures ChunksStay(e.out, Exit(cfg, e, x).out)
  {
    ExitKeepsShape(cfg, e, x);
  }

  lemma CatchKeepsChunks(cfg: Config, e: Engine, x: CatchInput)
    requires e.out.isOpen
    ensures ChunksStay(e.out, Catch(cfg, e, x).out)
  {
    DropKeepsOutputShape(cfg, e, CatchKeeps(cfg, e.frames, x), DeathMark(AtCatch, 0));
    CatchParts(cfg, e, x, DropTo(cfg, e, CatchKeeps(cfg, e.frames, x), DeathMark(AtCatch, 0)));
  }

  lemma HookKeepsChunks(cfg: Config, e: Engine, call: HookCall)
    requires e.out.isOpen
    ensures ChunksStay(e.out, Apply(cfg, e, call).out)
  {
    match call
    case EnterCall(x) => EnterKeepsChunks(cfg, e, x);
    case ExitCall(x) => ExitKeepsChunks(cfg, e, x);
    case CatchCall(x) => CatchKeepsChunks(cfg, e, x);
    case EventCall(_, _) =>
    case OpenCall(_, _, _, _) =>
  }

  lemma KeptBytes(cfg: Config, e: Engine, after: string, kept: nat, j: nat, k: nat)
    requires LineInv(cfg, e) && j < kept <= |e.frames| && LineOf(e.out, e.frames[j], k)
    requires ChangesOnly(cfg, e.out.file, after, e.frames[kept..])
    ensures var c := e.out.chunks[k];
            c.start + |c.text| <= |e.out.file| <= |after|
            && after[c.start..c.start + |c.text|] == e.out.file[c.start..c.start + |c.text|]
  {
    var c, before := e.out.chunks[k], e.out.file;
    assert ChunkFits(cfg, e.out.original, c);
    forall p | c.start <= p < c.start + |c.text|
      ensures after[p] == before[p]
    {
      LineIsNobodys(cfg, e, kept, j, k, p);
    }
  }

  /** How many records a hook keeps of those it found. */
  function KeptBy(cfg: Config, e: Engine, call: HookCall): int {
    |e.frames| - |PoppedBy(cfg, e, call)|
  }

  lemma HookChangesAbove(cfg: Config, e: Engine, call: HookCall, after: string)
    requires LineInv(cfg, e) && CallFits(cfg, e, call) && e.out.isOpen && after == Apply(cfg, e, call).out.file
    ensures 0 <= KeptBy(cfg, e, call) <= |e.frames|
    ensures ChangesOnly(cfg, e.out.file, after, e.frames[KeptBy(cfg, e, call)..])
  {
    ApplyTouches(cfg, e, call);
    PoppedAreOnTop(cfg, e, call);
  }

  /** A hook leaves the whole line of a record it does not pop as it was. */
  lemma KeptLineStays(cfg: Config, e: Engine, call: HookCall, j: nat, k: nat, after: string)
    requires LineInv(cfg, e) && CallFits(cfg, e, call) && after == Apply(cfg, e, call).out.file
    requires j < KeptBy(cfg, e, call) && j < |e.frames| && LineOf(e.out, e.frames[j], k)
    requires Shows(e.out.file, e.out.chunks[k].start, e.out.chunks[k].text)
    ensures Shows(after, e.out.chunks[k].start, e.out.chunks[k].text)
  {
    HookChangesAbove(cfg, e, call, after);
    KeptBytes(cfg, e, after, KeptBy(cfg, e, call), j, k);
  }

  // ---------- the line of a frame that lives on ----------

  lemma CallPopsNoLive(cfg: Config, w: World, f: Frame, x: EnterInput, i: nat, j: nat)
    requires Inv(cfg, w) && Possible(cfg, w, Call(f, x)) && w.engine.overflow == 0
    requires i < w.recorded && RecordAt(w.engine.frames, w.owners, w.live[i], j)
    ensures j < EnterKeeps(cfg, w.engine, x)
  {
    EnterKeepsInnermost(cfg, w, f, x);
    StandsBelow(w, |w.live| - 1, i, j, EnterKeeps(cfg, w.engine, x));
  }

  lemma ReturnPopsNoLive(cfg: Config, w: World, x: ExitInput, i: nat, j: nat)
    requires Inv(cfg, w) && Possible(cfg, w, Return(x)) && w.engine.overflow == 0
    requires i < w.recorded && i < |w.live| - 1 && RecordAt(w.engine.frames, w.owners, w.live[i], j)
    ensures w.engine.frames != []
    ensures j < ExitIndex(w.engine.frames, x.key, x.tailCalled, cfg.bounds)
  {
    assert StrictlyIncreasing(w.owners) && LiveStacked(w.live);
    ExitKeepsNext(cfg, w, x);
    StandsBelow(w, |w.live| - 2, i, j, ExitIndex(w.engine.frames, x.key, x.tailCalled, cfg.bounds));
  }

  lemma CatchPopsNoLive(cfg: Config, w: World, x: CatchInput, i: nat, j: nat)
    requires Inv(cfg, w) && Possible(cfg, w, Caught(x))
    requires i < w.recorded && RecordAt(w.engine.frames, w.owners, w.live[i], j)
    ensures j < CatchKeeps(cfg, w.engine.frames, x)
  {
    CatchKeepsRecorded(cfg, w, x);
    StandsBelow(w, w.recorded - 1, i, j, CatchKeeps(cfg, w.engine.frames, x));
  }

  /** The record of a frame that lives on is not among those a hook pops, unless the hook writes nothing. */
  lemma LiveIsNotPopped(cfg: Config, w: World, ev: Event, i: nat, j: nat)
    requires Inv(cfg, w) && Possible(cfg, w, ev) && Hook(ev).Some?
    requires i < w.recorded && RecordAt(w.engine.frames, w.owners, w.live[i], j)
    requires ev.Return? ==> i < |w.live| - 1
    ensures j < KeptBy(cfg, w.engine, Hook(ev).value)
            || Apply(cfg, w.engine, Hook(ev).value).out == w.engine.out
  {
    match ev
    case Call(f, x) =>
      if w.engine.overflow == 0 {
        CallPopsNoLive(cfg, w, f, x, i, j);
      }
    case Return(x) =>
      if w.engine.overflow == 0 {
        ReturnPopsNoLive(cfg, w, x, i, j);
      }
    case Caught(x) => CatchPopsNoLive(cfg, w, x, i, j);
    case Other(_) =>
  }

  /** Live frame `f` and the line its record stands for: chunk `k`, with these bytes. */
  datatype Line = Line(f: Frame, index: nat, record: FrameRecord, k: nat, start: nat, depth: int, text: string)

  /** Live frame `i` has that line. */
  ghost predicate LineShown(w: World, i: nat, l: Line) {
    && i < w.recorded <= |w.live| && w.live[i] == l.f
    && RecordAt(w.engine.frames, w.owners, l.f, l.index) && w.engine.frames[l.index] == l.record
    && LineOf(w.engine.out, l.record, l.k) && w.engine.out.chunks[l.k] == Chunk(l.start, l.text, l.depth)
    && Shows(w.engine.out.file, l.start, l.text)
  }

  lemma LineShownNext(cfg: Config, w: World, ev: Event, w': World, i: nat, l: Line)
    requires Sound(cfg, w) && Possible(cfg, w, ev) && EventFits(cfg, w, ev) && w' == Step(cfg, w, ev)
    requires LineShown(w, i, l) && i < |w'.live|
    ensures LineShown(w', i, l)
  {
    StepSound(cfg, w, ev);
    StepRunsHook(cfg, w, ev);
    RecordedStays(cfg, w, ev, w', i);
    if Hook(ev).Some? {
      LiveIsNotPopped(cfg, w, ev, i, l.index);
      HookKeepsChunks(cfg, w.engine, Hook(ev).value);
      if l.index < KeptBy(cfg, w.engine, Hook(ev).value) {
        KeptLineStays(cfg, w.engine, Hook(ev).value, l.index, l.k, w'.engine.out.file);
      }
    }
  }

  lemma RecordedStays(cfg: Config, w: World, ev: Event, w': World, i: nat)
    requires Inv(cfg, w) && Possible(cfg, w, ev) && w' == Step(cfg, w, ev) && i < w.recorded && i < |w'.live|
    ensures i < w'.recorded <= |w'.live|
    ensures ev.Return? ==> i < |w.live| - 1
  {
    StepSound(cfg, w, ev);
  }

  /** Live frame `i` lives from world `n` to world `m`. */
  predicate LivesOn(ws: seq<World>, i: nat, n: nat, m: nat)
    requires n <= m < |ws|
  {
    forall t | n <= t <= m :: i < |ws[t].live|
  }

  lemma {:induction false} LineShownOn(cfg: Config, events: seq<Event>, ws: seq<World>, n: nat, m: nat, i: nat, l: Line)
    requires FittingHistory(cfg, events, ws) && n <= m <= |events| && LivesOn(ws, i, n, m) && LineShown(ws[n], i, l)
    ensures LineShown(ws[m], i, l)
    decreases m
  {
    if n < m {
      LineShownOn(cfg, events, ws, n, m - 1, i, l);
      SoundInHistory(cfg, events, ws, m - 1);
      NextFits(cfg, events, ws, m - 1);
      LineShownNext(cfg, ws[m - 1], events[m - 1], ws[m], i, l);
    }
  }

  // ---------- what the enter wrote ----------

  /** A call whose record and line are both written, the line in full. */
  ghost predicate LoggedEnter(cfg: Config, w: World, ev: Event) {
    && ev.Call?
    && w.engine.overflow == 0 && !ev.enter.roomThrows && EnterLogs(cfg, w.engine, ev.enter) && ev.enter.write.Full?
  }

  /** The entering frame's record is on top and its line, whose start it knows, at the end of the file. */
  ghost predicate TopLine(cfg: Config, e': Engine, x: EnterInput, start: nat, line: string) {
    && e'.frames != [] && e'.out.chunks != []
    && var r := e'.frames[|e'.frames| - 1];
       && r.logged && r.lineStart == start && r.enterTime == (if cfg.elapsed then x.now else 0)
       && r.uncaughtAtEnter == x.uncaught
       && LineOf(e'.out, r, |e'.out.chunks| - 1)
       && e'.out.chunks[|e'.out.chunks| - 1] == Chunk(start, line, r.depth)
       && Shows(e'.out.file, start, line) && |e'.out.file| == start + |line|
  }

  lemma AppendedLine(cfg: Config, out: Output, line: string, depth: int)
    requires cfg.Patching() && out.isOpen && out.cursorValid && out.patchFd && out.cursor == |out.file|
    ensures var out' := AppendCallLine(cfg, out, line, depth, Full);
            && out'.isOpen && out'.patchFd && out'.cursorValid && Shows(out'.file, |out.file|, line)
            && |out'.file| == |out.file| + |line|
            && out'.chunks == out.chunks + [Chunk(|out.file|, line, depth)]
  {
    assert (out.file + line)[|out.file|..|out.file| + |line|] == line;
  }

  lemma WrittenLine(cfg: Config, e1: Engine, x: EnterInput)
    requires x.resolution.Resolved? && x.write.Full? && cfg.Patching()
    requires e1.out.isOpen && e1.out.cursorValid && e1.out.patchFd && e1.out.cursor == |e1.out.file|
    ensures var e2 := WithLine(cfg, e1, x);
            TopLine(cfg, e2.(frames := e1.frames + [NewRecord(cfg, e1, x, e2.depth, e2.out)]), x, |e1.out.file|,
                    CallLine(cfg, x.resolution.view, x.key.callee, e1.depth + 1))
  {
    AppendedLine(cfg, e1.out, CallLine(cfg, x.resolution.view, x.key.callee, e1.depth + 1), e1.depth + 1);
  }

  /** The line an enter writes. */
  function EnterLine(cfg: Config, e: Engine, x: EnterInput): string
    requires x.resolution.Resolved?
  {
    CallLine(cfg, x.resolution.view, x.key.callee,
             DropTo(cfg, e, EnterKeeps(cfg, e, x), DeathMark(AtEnter, x.uncaught)).depth + 1)
  }

  lemma EnterLeavesLine(cfg: Config, e: Engine, x: EnterInput)
    requires LineInv(cfg, e) && e.overflow == 0 && !x.roomThrows && EnterLogs(cfg, e, x)
    requires x.write.Full? && cfg.Patching() && e.out.cursorValid && e.out.patchFd
    ensures TopLine(cfg, Enter(cfg, e, x), x, |e.out.file|, EnterLine(cfg, e, x))
  {
    var e1 := DropTo(cfg, e, EnterKeeps(cfg, e, x), DeathMark(AtEnter, x.uncaught));
    DropTouchesDeadLines(cfg, e, EnterKeeps(cfg, e, x), DeathMark(AtEnter, x.uncaught));
    RoomyEnter(cfg, e, x, e1);
    WrittenLine(cfg, e1, x);
  }

  lemma CallIsOnTop(cfg: Config, w: World, f: Frame, x: EnterInput)
    requires Inv(cfg, w) && Possible(cfg, w, Call(f, x)) && w.engine.overflow == 0 && !x.roomThrows
    ensures OnTop(Step(cfg, w, Call(f, x)), f) && Step(cfg, w, Call(f, x)).live == w.live + [f]
  {
    StepPushes(cfg, w, f, x);
  }

  /** The innermost live frame is `f`, and the top record is its own. */
  ghost predicate OnTop(w: World, f: Frame) {
    && w.live != [] && w.live[|w.live| - 1] == f && w.recorded == |w.live|
    && w.engine.frames != [] && RecordAt(w.engine.frames, w.owners, f, |w.engine.frames| - 1)
  }

  /** The line of the top record. */
  function TopLineOf(w: World, start: nat, text: string): Line
    requires w.live != [] && w.engine.frames != [] && w.engine.out.chunks != []
  {
    var r := w.engine.frames[|w.engine.frames| - 1];
    Line(w.live[|w.live| - 1], |w.engine.frames| - 1, r, |w.engine.out.chunks| - 1, start, r.depth, text)
  }

  lemma TopIsShown(cfg: Config, w': World, x: EnterInput, start: nat, text: string)
    requires w'.live != [] && OnTop(w', w'.live[|w'.live| - 1]) && TopLine(cfg, w'.engine, x, start, text)
    ensures LineShown(w', |w'.live| - 1, TopLineOf(w', start, text))
    ensures TimedBy(cfg, TopLineOf(w', start, text).record, x)
  {
  }

  /** The record remembers when its frame was entered, and with how many exceptions in flight. */
  predicate TimedBy(cfg: Config, r: FrameRecord, x: EnterInput) {
    r.logged && r.enterTime == (if cfg.elapsed then x.now else 0) && r.uncaughtAtEnter == x.uncaught
  }

  /** `l` is what the call between these worlds leaves: what it appended to the file, and the frame's record. */
  ghost predicate WrittenBy(cfg: Config, w: World, w': World, call: Event, l: Line) {
    && call.Call? && l.f == call.frame && TimedBy(cfg, l.record, call.enter)
    && l.start == |w.engine.out.file| <= |w'.engine.out.file| && l.text == w'.engine.out.file[l.start..]
  }

  lemma CallWrites(cfg: Config, w: World, ev: Event, w': World) returns (l: Line)
    requires Inv(cfg, w) && Possible(cfg, w, ev) && LineInv(cfg, w.engine) && LoggedEnter(cfg, w, ev)
    requires cfg.Patching() && w.engine.out.cursorValid && w.engine.out.patchFd && w' == Step(cfg, w, ev)
    ensures WrittenBy(cfg, w, w', ev, l) && LineShown(w', |w.live|, l)
    ensures l.text == EnterLine(cfg, w.engine, ev.enter)
  {
    EnterLeavesLine(cfg, w.engine, ev.enter);
    CallIsOnTop(cfg, w, ev.frame, ev.enter);
    StepRunsHook(cfg, w, ev);
    l := ShownOnTop(cfg, w', ev.enter, |w.engine.out.file|, EnterLine(cfg, w.engine, ev.enter));
  }

  lemma ShownOnTop(cfg: Config, w': World, x: EnterInput, start: nat, text: string) returns (l: Line)
    requires w'.live != [] && OnTop(w', w'.live[|w'.live| - 1]) && TopLine(cfg, w'.engine, x, start, text)
    ensures LineShown(w', |w'.live| - 1, l) && TimedBy(cfg, l.record, x)
    ensures l.f == w'.live[|w'.live| - 1] && l.start == start <= |w'.engine.out.file|
    ensures l.text == text == w'.engine.out.file[start..]
  {
    TopIsShown(cfg, w', x, start, text);
    l := TopLineOf(w', start, text);
  }

  lemma EnterWrites(cfg: Config, events: seq<Event>, ws: seq<World>, o: nat, n: nat) returns (l: Line)
    requires cfg.Patching() && FittingHistory(cfg, events, ws) && o < n < |events|
    requires OpenedWell(events, ws, o, n) && LoggedEnter(cfg, ws[n], events[n])
    ensures WrittenBy(cfg, ws[n], ws[n + 1], events[n], l) && LineShown(ws[n + 1], |ws[n].live|, l)
  {
    TrustedInHistory(cfg, events, ws, o, n);
    SoundInHistory(cfg, events, ws, n);
    NextFits(cfg, events, ws, n);
    l := CallWrites(cfg, ws[n], events[n], ws[n + 1]);
  }

  // ---------- the theorems ----------

  /**
  Over every possible run of a patching build whose file was opened as the source hopes for, whatever vanishes: as long
  as a frame lives that was logged before the first failing write, its record is the one its enter pushed, and its line
  in the file is byte for byte what its enter wrote there.
  */
  lemma LiveLinesAreAsWritten(cfg: Config, events: seq<Event>, ws: seq<World>, o: nat, n: nat, m: nat)
    returns (l: Line)
    requires FittingHistory(cfg, events, ws) && cfg.Patching() && o < n < m <= |events|
    requires OpenedWell(events, ws, o, n) && LoggedEnter(cfg, ws[n], events[n])
    requires LivesOn(ws, |ws[n].live|, n + 1, m)
    ensures WrittenBy(cfg, ws[n], ws[n + 1], events[n], l) && LineShown(ws[m], |ws[n].live|, l)
  {
    l := EnterWrites(cfg, events, ws, o, n);
    LineShownOn(cfg, events, ws, n + 1, m, |ws[n].live|, l);
  }

  /** The duration field for a frame entered and left like this. */
  function TimeSince(cfg: Config, x: EnterInput, y: ExitInput): string {
    var text := DurationText(if y.now - x.now < 0 then 0 else y.now - x.now);
    if cfg.exceptions && y.uncaught > x.uncaught then text[..1] + "!" + text[2..] else text
  }

  /** Every byte of the line is what the enter wrote, but for the two fields. */
  ghost predicate LineBut(cfg: Config, file: string, l: Line) {
    && l.start + |l.text| <= |file|
    && forall p | 0 <= p < |l.text| && file[l.start + p] != l.text[p] :: RecordField(cfg, l.record, l.start + p)
  }

  /** An exit that finds its own record on top times its own line. */
  lemma TopExitTimes(cfg: Config, w: World, y: ExitInput, i: nat, l: Line)
    requires LineInv(cfg, w.engine) && w.engine.overflow == 0 && LineShown(w, i, l)
    requires l.index == |w.engine.frames| - 1 == ExitIndex(w.engine.frames, y.key, y.tailCalled, cfg.bounds)
    ensures var file := Exit(cfg, w.engine, y).out.file;
            && (cfg.elapsed ==> Shows(file, l.start + PLACEHOLDER_OFFSET, ExitField(cfg, l.record, y)))
            && LineBut(cfg, file, l)
  {
    ExitFinishesOwnLine(cfg, w.engine, y);
    assert w.engine.frames[l.index..] == [l.record];
    OwnFieldsOnly(cfg, w.engine.out.file, Exit(cfg, w.engine, y).out.file, l);
  }

  lemma OwnFieldsOnly(cfg: Config, before: string, after: string, l: Line)
    requires Shows(before, l.start, l.text) && ChangesOnly(cfg, before, after, [l.record])
    ensures LineBut(cfg, after, l)
  {
    forall p | 0 <= p < |l.text| && after[l.start + p] != l.text[p]
      ensures RecordField(cfg, l.record, l.start + p)
    {
      assert before[l.start..l.start + |l.text|][p] == before[l.start + p];
    }
  }

  /** On a well-nested stack the exiting frame's record is on top. */
  lemma OwnIsTop(cfg: Config, events: seq<Event>, w: World, y: ExitInput, l: Line)
    requires PossibleRun(cfg, events) && (forall i | 0 <= i < |events| :: !events[i].Jump?)
    requires w == Evolve(cfg, events) && Possible(cfg, w, Return(y)) && w.live != [] && LineShown(w, |w.live| - 1, l)
    ensures w.engine.overflow == 0
    ensures l.index == |w.engine.frames| - 1 == ExitIndex(w.engine.frames, y.key, y.tailCalled, cfg.bounds)
  {
    WellNestedExitsMeetTheirEnter(cfg, events, y);
    InvHolds(cfg, events);
  }

  /**
  On well-nested runs, whatever allocation fails, behind an open as the source hopes for and before a write fails: the
  exit of a frame puts the time since its own enter into its own line, and leaves every other byte of it outside the
  glyph as its enter wrote it.
  */
  lemma ExitsTimeTheirOwnEnter(cfg: Config, events: seq<Event>, ws: seq<World>, o: nat, n: nat, y: ExitInput)
    returns (l: Line)
    requires FittingHistory(cfg, events, ws) && cfg.elapsed && o < n < |events|
    requires forall i | 0 <= i < |events| :: !events[i].Jump?
    requires OpenedWell(events, ws, o, n) && LoggedEnter(cfg, ws[n], events[n])
    requires LivesOn(ws, |ws[n].live|, n + 1, |events|)
    requires var w := ws[|events|]; |w.live| == |ws[n].live| + 1 && Possible(cfg, w, Return(y))
    ensures WrittenBy(cfg, ws[n], ws[n + 1], events[n], l)
    ensures var file := Step(cfg, ws[|events|], Return(y)).engine.out.file;
            && Shows(file, l.start + PLACEHOLDER_OFFSET, TimeSince(cfg, events[n].enter, y))
            && LineBut(cfg, file, l)
  {
    var w := ws[|events|];
    l := LiveLinesAreAsWritten(cfg, events, ws, o, n, |events|);
    HistoryIsPossible(cfg, events, ws);
    OwnIsTop(cfg, events, w, y, l);
    SoundInHistory(cfg, events, ws, |events|);
    TopExitTimes(cfg, w, y, |w.live| - 1, l);
    FieldIsTimeSince(cfg, l.record, events[n].enter, y);
  }

  lemma FieldIsTimeSince(cfg: Config, r: FrameRecord, x: EnterInput, y: ExitInput)
    requires cfg.elapsed && TimedBy(cfg, r, x)
    ensures ExitField(cfg, r, y) == TimeSince(cfg, x, y)
  {
  }
}
