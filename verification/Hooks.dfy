/**
The hooks of src/trace.cpp as functions on one thread's state: what an enter, an exit, a
catch and an event line do to the record stack, the depth, the overflow counter and the
file. The class in Tracer.dfy runs the same steps in place and is proved equal to these.
*/
module Hooks {
  import opened Common
  import opened FrameReconcile
  import opened EventFormat
  import opened LineFormat
  import opened DurationFormat
  import opened TraceFile

  datatype Engine = Engine(
    frames: seq<FrameRecord>,
    depth: int,      // current_stack_depth
    overflow: nat,   // frame_overflow_count
    out: Output)

  const START := Engine([], -1, 0, CLOSED)

  // ---------- what the environment decides about one hook call ----------

  /** The answer of inline_chain_at: base names, innermost first, empty when nothing is known. */
  datatype Chain = ChainThrows | Chain(names: seq<string>)

  /** What get_thread_fp and resolve() come to. */
  datatype Resolution =
    | Untraced          // no file, or the frame is filtered
    | ResolveThrows     // an allocation failed on a cold path, the lazy open's included
    | Resolved(view: FrameView, base: string, parentBase: string)

  datatype EnterInput = EnterInput(
    key: FrameKey,
    roomThrows: bool,   // growing the record stack failed
    levelThrows: bool,  // the barrier was left before the level was derived
    chain: Chain,
    resolution: Resolution,
    write: Write,
    uncaught: nat,
    now: int)

  datatype ExitInput = ExitInput(key: FrameKey, tailCalled: bool, uncaught: nat, now: int)

  /** A catch at `level`; for the noexcept stub the records at the stub's own level are gone too. */
  datatype CatchInput = CatchInput(
    level: Address,
    resolveThrows: bool,
    isTerminateStub: bool,
    chain: Chain,
    lineLost: bool,     // no file for the event line, or the lazy open in front of it threw
    event: EventView,
    write: Write)

  datatype Reclaim = AtEnter | AtExit | AtCatch

  // ---------- marking and popping ----------

  /** How the lines of reclaimed frames are marked. */
  function DeathMark(where: Reclaim, uncaught: nat): char {
    if where.AtCatch? || (where.AtEnter? && uncaught > 0) then FRAME_END_EXCEPTION else FRAME_END_JUMP
  }

  /** mark_frame_end */
  function MarkFrameEnd(cfg: Config, out: Output, r: FrameRecord, how: char, field: Option<string>): Output {
    if !cfg.exceptions || !r.logged || r.lineStart < 0 then out
    else
      var fielded := if cfg.elapsed && field.Some? then PatchLine(out, r.lineStart, PLACEHOLDER_OFFSET, field.value)
                     else out;
      if r.depth >= 1 then PatchLine(fielded, r.lineStart, TreeGlyphOffset(r.depth, cfg.PrefixExtra()), [how])
      else fielded
  }

  /** One turn of the loop in reclaim_dead_records. */
  function PopDead(cfg: Config, e: Engine, how: char): Engine
    requires e.frames != []
  {
    var dead := e.frames[|e.frames| - 1];
    var popped := e.(frames := e.frames[..|e.frames| - 1]);
    if dead.logged then
      popped.(depth := e.depth - 1,
              out := MarkFrameEnd(cfg, e.out, dead, how, Some(Flagged(DURATION_UNWOUND, how))))
    else popped
  }

  /** reclaim_dead_records, down to `keep` records. */
  function DropTo(cfg: Config, e: Engine, keep: nat, how: char): (r: Engine)
    ensures r.frames == (if keep <= |e.frames| then e.frames[..keep] else e.frames)
    ensures r.overflow == e.overflow
    decreases |e.frames|
  {
    if |e.frames| <= keep then e else DropTo(cfg, PopDead(cfg, e, how), keep, how)
  }

  // ---------- how many records each reclaim keeps ----------

  /** record_has_base_name */
  function HasBaseName(base: string): FrameRecord -> bool {
    (r: FrameRecord) => r.nameBase.Some? && r.nameBase.value != "" && r.nameBase.value == base
  }

  function SameFrame(key: FrameKey): FrameRecord -> bool {
    (r: FrameRecord) => SameActivationSite(r, key) && r.level == key.level
  }

  function KeptByScan(cfg: Config, frames: seq<FrameRecord>, key: FrameKey): (n: nat)
    ensures n <= |frames|
  {
    |frames| - EnterDead(frames, key, cfg.bounds)
  }

  /** Only a top record at the entering frame's own level makes the inline chain worth asking for. */
  predicate ChainConsulted(cfg: Config, frames: seq<FrameRecord>, level: Address) {
    frames != [] && frames[|frames| - 1].level == level && OnThreadStack(cfg.bounds, level)
  }

  /** A repeated frame on top is dead, unless the chain shows the function inlined into itself. */
  function KeptAfterRepeats(frames: seq<FrameRecord>, key: FrameKey, names: seq<string>): (n: nat)
    ensures n <= |frames|
  {
    var recursiveInline := |names| >= 2 && names[0] == names[1];
    if recursiveInline then |frames| else |frames| - TopSegment(frames, SameFrame(key))
  }

  /** reclaim_dead_inlined_records_on_enter */
  function KeptByInlineChain(cfg: Config, frames: seq<FrameRecord>, key: FrameKey, names: seq<string>): (n: nat)
    ensures n <= |frames|
  {
    if !ChainConsulted(cfg, frames, key.level) || names == [] then |frames|
    else
      var kept := KeptAfterRepeats(frames, key, names);
      if |names| >= 2 then kept - AboveMatch(frames[..kept], key.level, HasBaseName(names[1])) else kept
  }

  /** reclaim_dead_inlined_records_above_parent */
  function KeptByParent(cfg: Config, frames: seq<FrameRecord>, key: FrameKey, parentBase: string): (n: nat)
    ensures n <= |frames|
  {
    if parentBase == "" || frames == [] then |frames|
    else
      var top := frames[|frames| - 1];
      if !(top.level > key.level) || !OnThreadStack(cfg.bounds, top.level) || !OnThreadStack(cfg.bounds, key.level)
      then |frames|
      else |frames| - AboveMatch(frames, top.level, HasBaseName(parentBase))
  }

  /** reclaim_dead_inlined_records_on_catch */
  function KeptByCatchChain(cfg: Config, frames: seq<FrameRecord>, level: Address, names: seq<string>): (n: nat)
    ensures n <= |frames|
  {
    if !ChainConsulted(cfg, frames, level) || names == [] then |frames|
    else |frames| - AboveMatch(frames, level, HasBaseName(names[0]))
  }

  // ---------- the enter hook ----------

  /** Asking for the inline chain threw. */
  predicate ChainThrew(cfg: Config, frames: seq<FrameRecord>, x: EnterInput) {
    ChainConsulted(cfg, frames[..KeptByScan(cfg, frames, x.key)], x.key.level) && x.chain.ChainThrows?
  }

  /** Records kept by the two reclaims that come before the frame is resolved. */
  function KeptBeforeResolve(cfg: Config, frames: seq<FrameRecord>, x: EnterInput): (n: nat)
    ensures n <= |frames|
  {
    var scan := KeptByScan(cfg, frames, x.key);
    if x.chain.ChainThrows? then scan else KeptByInlineChain(cfg, frames[..scan], x.key, x.chain.names)
  }

  /** Whether the enter hook gets as far as writing a line. */
  predicate EnterLogs(cfg: Config, e: Engine, x: EnterInput) {
    !x.levelThrows && !ChainThrew(cfg, e.frames, x) && x.resolution.Resolved? && e.out.isOpen
  }

  /** How many of the old records survive the enter hook. */
  function EnterKeeps(cfg: Config, e: Engine, x: EnterInput): (n: nat)
    ensures n <= |e.frames|
  {
    if x.levelThrows then |e.frames|
    else
      var kept := KeptBeforeResolve(cfg, e.frames, x);
      if EnterLogs(cfg, e, x) then KeptByParent(cfg, e.frames[..kept], x.key, x.resolution.parentBase) else kept
  }

  /** The line of a call at the given depth, as FormatInto builds it in the hook's buffer. */
  function CallLine(cfg: Config, view: FrameView, callee: Address, depth: int): string {
    Line(view.(calleeAddress := if cfg.addr then Some(callee) else None), depth, cfg.Splice(), true, FORMAT_BUF_SIZE)
  }

  /** Appending a call line; if its start is known and there is a descriptor to patch through, it becomes patchable. */
  function AppendCallLine(cfg: Config, out: Output, line: string, depth: int, write: Write): Output {
    var out' := Append(cfg, out, line, write);
    if cfg.Patching() && out'.cursorValid && out'.patchFd
    then out'.(chunks := out'.chunks + [Chunk(out.cursor, line, depth)])
    else out'
  }

  /** The record of a frame whose line has just been written. */
  function NewRecord(cfg: Config, e: Engine, x: EnterInput, depth: int, out': Output): FrameRecord
    requires x.resolution.Resolved?
  {
    var placed := cfg.Patching() && out'.cursorValid;
    FrameRecord(true, x.key.callee, x.key.caller, x.key.level, Some(x.resolution.base),
                x.uncaught, if cfg.elapsed then x.now else 0,
                if placed then e.out.cursor else -1, if placed then depth else 0)
  }

  function UnloggedRecord(x: EnterInput): FrameRecord {
    FrameRecord(false, x.key.callee, x.key.caller, if x.levelThrows then 0 else x.key.level, None,
                x.uncaught, 0, -1, 0)
  }

  /** __cyg_profile_func_enter */
  function Enter(cfg: Config, e: Engine, x: EnterInput): Engine {
    if e.overflow > 0 || x.roomThrows then e.(overflow := e.overflow + 1)
    else
      var e1 := DropTo(cfg, e, EnterKeeps(cfg, e, x), DeathMark(AtEnter, x.uncaught));
      if EnterLogs(cfg, e, x) then
        var depth := e1.depth + 1;
        var out' := AppendCallLine(cfg, e1.out, CallLine(cfg, x.resolution.view, x.key.callee, depth), depth, x.write);
        Engine(e1.frames + [NewRecord(cfg, e1, x, depth, out')], depth, 0, out')
      else e1.(frames := e1.frames + [UnloggedRecord(x)])
  }

  // ---------- the lazy open in the enter hook ----------

  /** The hook gets as far as asking for its file. */
  predicate EnterAsks(cfg: Config, e: Engine, x: EnterInput) {
    e.overflow == 0 && !x.roomThrows && !x.levelThrows && !ChainThrew(cfg, e.frames, x)
  }

  /** The state with the file this hook opens. */
  function EnterFile(cfg: Config, e: Engine, x: EnterInput, o: Opening): Engine {
    if EnterAsks(cfg, e, x) then e.(out := GetFile(cfg, e.out, o)) else e
  }

  /** Without a file nothing is resolved; a lazy open that throws leaves the barrier as a failed resolution does. */
  function EnterSeen(cfg: Config, e: Engine, x: EnterInput, o: Opening): EnterInput {
    if !EnterAsks(cfg, e, x) then x
    else if FileThrows(e.out, o) then x.(resolution := ResolveThrows)
    else if o.Unavailable? then x.(resolution := Untraced)
    else x
  }

  // ---------- the exit hook ----------

  /** The duration field the exit hook writes for a frame. */
  function ExitField(cfg: Config, r: FrameRecord, x: ExitInput): (field: string)
    ensures |field| == DURATION_FIELD_WIDTH
  {
    var ns := if x.now - r.enterTime < 0 then 0 else x.now - r.enterTime;
    if cfg.exceptions && x.uncaught > r.uncaughtAtEnter then Flagged(DurationText(ns), FRAME_END_EXCEPTION)
    else DurationText(ns)
  }

  /** The patches of the exiting frame's own line. */
  function FinishLine(cfg: Config, out: Output, r: FrameRecord, x: ExitInput): Output {
    var timed := if cfg.elapsed then PatchLine(out, r.lineStart, PLACEHOLDER_OFFSET, ExitField(cfg, r, x)) else out;
    if cfg.exceptions && x.uncaught > r.uncaughtAtEnter
    then MarkFrameEnd(cfg, timed, r, FRAME_END_EXCEPTION, None)
    else timed
  }

  /** __cyg_profile_func_exit */
  function Exit(cfg: Config, e: Engine, x: ExitInput): Engine {
    if e.overflow > 0 then e.(overflow := e.overflow - 1)
    else if e.frames == [] then e
    else
      var index := ExitIndex(e.frames, x.key, x.tailCalled, cfg.bounds);
      var e1 := DropTo(cfg, e, index + 1, DeathMark(AtExit, x.uncaught));
      var r := e.frames[index];
      var e2 := e1.(frames := e.frames[..index]);
      if r.logged then e2.(depth := e1.depth - 1, out := FinishLine(cfg, e1.out, r, x)) else e2
  }

  // ---------- the catch and the event lines ----------

  /** The text of an event line, in the build's columns, one level below the innermost logged frame. */
  function EventText(cfg: Config, event: EventView, depth: int): string {
    EventBytes(event.(address := if cfg.addr then event.address else None), depth,
               if cfg.elapsed then event.column + " " else "", true, FORMAT_BUF_SIZE)
  }

  /** write_event_line */
  function EventLine(cfg: Config, e: Engine, event: EventView, write: Write): Engine {
    if e.out.isOpen then e.(out := Append(cfg, e.out, EventText(cfg, event, e.depth + 1), write)) else e
  }

  /** The same with the file it opens, if there is one and opening it does not throw. */
  function EventLineOpening(cfg: Config, e: Engine, event: EventView, write: Write, o: Opening): Engine {
    var e' := e.(out := GetFile(cfg, e.out, o));
    if HasFile(cfg, e.out, o) then EventLine(cfg, e', event, write) else e'
  }

  /** The level below which a catch, or the noexcept stub, finds every record dead. */
  function CatchLevel(x: CatchInput): Address {
    if x.isTerminateStub then x.level + 1 else x.level
  }

  function KeptByCatch(cfg: Config, frames: seq<FrameRecord>, x: CatchInput): (n: nat)
    ensures n <= |frames|
  {
    |frames| - CatchDead(frames, CatchLevel(x), cfg.bounds)
  }

  /** How many records survive a catch. */
  function CatchKeeps(cfg: Config, frames: seq<FrameRecord>, x: CatchInput): (n: nat)
    ensures n <= |frames|
  {
    if x.resolveThrows then |frames|
    else
      var kept := KeptByCatch(cfg, frames, x);
      if x.isTerminateStub || x.chain.ChainThrows? then kept
      else KeptByCatchChain(cfg, frames[..kept], x.level, x.chain.names)
  }

  /** Whether the catch gets as far as asking for the file of its event line. */
  predicate CatchAsks(cfg: Config, frames: seq<FrameRecord>, x: CatchInput) {
    && !x.resolveThrows
    && !(!x.isTerminateStub && x.chain.ChainThrows?
         && ChainConsulted(cfg, frames[..KeptByCatch(cfg, frames, x)], x.level))
  }

  /** Whether it gets as far as its event line. */
  predicate CatchLogs(cfg: Config, frames: seq<FrameRecord>, x: CatchInput) {
    CatchAsks(cfg, frames, x) && !x.lineLost
  }

  /** on_catch, which exists in builds with LOG_EXCEPTIONS. */
  function Catch(cfg: Config, e: Engine, x: CatchInput): Engine {
    var e1 := DropTo(cfg, e, CatchKeeps(cfg, e.frames, x), DeathMark(AtCatch, 0));
    if CatchLogs(cfg, e.frames, x) then EventLine(cfg, e1, x.event, x.write) else e1
  }

  /** The state with the file a catch opens for its event line. */
  function CatchFile(cfg: Config, e: Engine, x: CatchInput, o: Opening): Engine {
    if CatchAsks(cfg, e.frames, x) then e.(out := GetFile(cfg, e.out, o)) else e
  }

  function CatchSeen(cfg: Config, e: Engine, x: CatchInput, o: Opening): CatchInput {
    x.(lineLost := CatchAsks(cfg, e.frames, x) && !HasFile(cfg, e.out, o))
  }
}
