/** What every hook keeps, whatever the traced program does. */
module HookLemmas {
  import opened EventFormat
  import opened FrameReconcile
  import opened TraceFile
  import opened Hooks

  /** Reclaiming in two steps is reclaiming at once. */
  lemma {:induction false} DropCompose(cfg: Config, e: Engine, keep: nat, less: nat, how: char)
    requires less <= keep
    ensures DropTo(cfg, DropTo(cfg, e, keep, how), less, how) == DropTo(cfg, e, less, how)
    decreases |e.frames|
  {
    if |e.frames| > keep {
      DropCompose(cfg, PopDead(cfg, e, how), keep, less, how);
    }
  }

  /** No record knows where its line starts, as before the file is open. */
  predicate NoLineStarts(frames: seq<FrameRecord>) {
    forall i | 0 <= i < |frames| :: frames[i].lineStart < 0
  }

  /**
  Reclaiming such records writes nothing, so a hook that opens the file between its reclaims and its line does what
  it would have done with the file opened first.
  */
  lemma {:induction false} OpenFirst(cfg: Config, e: Engine, out: Output, keep: nat, how: char)
    requires NoLineStarts(e.frames)
    ensures DropTo(cfg, e, keep, how).out == e.out
    ensures DropTo(cfg, e.(out := out), keep, how) == DropTo(cfg, e, keep, how).(out := out)
    decreases |e.frames|
  {
    if |e.frames| > keep {
      OpenFirst(cfg, PopDead(cfg, e, how), out, keep, how);
    }
  }

  /** Reclaiming only overwrites bytes of the file; it never moves the cursor or closes anything. */
  lemma {:induction false} DropKeepsOutputShape(cfg: Config, e: Engine, keep: nat, how: char)
    ensures DropTo(cfg, e, keep, how).out == e.out.(file := DropTo(cfg, e, keep, how).out.file)
    decreases |e.frames|
  {
    if |e.frames| > keep {
      DropKeepsOutputShape(cfg, PopDead(cfg, e, how), keep, how);
    }
  }

  /** Reclaims in front of the lazy open and behind it come to the same. */
  lemma DropBehindFile(cfg: Config, e: Engine, o: Opening, keep: nat, how: char, e1: Engine)
    requires e1 == DropTo(cfg, e, keep, how) && (!e.out.isOpen ==> NoLineStarts(e.frames))
    ensures DropTo(cfg, e.(out := GetFile(cfg, e.out, o)), keep, how) == e1.(out := GetFile(cfg, e1.out, o))
    ensures FileThrows(e1.out, o) == FileThrows(e.out, o) && HasFile(cfg, e1.out, o) == HasFile(cfg, e.out, o)
  {
    DropKeepsOutputShape(cfg, e, keep, how);
    if !e.out.isOpen {
      OpenFirst(cfg, e, GetFile(cfg, e.out, o), keep, how);
    }
  }

  /** What the enter hook's first reclaims leave when its file is opened behind them. */
  lemma EnterOpensBehind(cfg: Config, e: Engine, x: EnterInput, o: Opening, e1: Engine)
    requires e.overflow == 0 && !x.roomThrows && !x.levelThrows && (!e.out.isOpen ==> NoLineStarts(e.frames))
    requires e1 == DropTo(cfg, e, KeptBeforeResolve(cfg, e.frames, x), DeathMark(AtEnter, x.uncaught))
    ensures var eo, y := EnterFile(cfg, e, x, o), EnterSeen(cfg, e, x, o);
            DropTo(cfg, eo, KeptBeforeResolve(cfg, e.frames, y), DeathMark(AtEnter, y.uncaught))
            == if ChainThrew(cfg, e.frames, x) then e1 else e1.(out := GetFile(cfg, e1.out, o))
    ensures FileThrows(e1.out, o) == FileThrows(e.out, o) && HasFile(cfg, e1.out, o) == HasFile(cfg, e.out, o)
  {
    DropBehindFile(cfg, e, o, KeptBeforeResolve(cfg, e.frames, x), DeathMark(AtEnter, x.uncaught), e1);
  }

  /** What is seen of the lazy open at a catch changes nothing in front of it. */
  lemma CatchSeenKeeps(cfg: Config, e: Engine, x: CatchInput, o: Opening)
    ensures CatchKeeps(cfg, e.frames, CatchSeen(cfg, e, x, o)) == CatchKeeps(cfg, e.frames, x)
    ensures CatchLogs(cfg, e.frames, CatchSeen(cfg, e, x, o))
            == (CatchAsks(cfg, e.frames, x) && HasFile(cfg, e.out, o))
  {
  }

  /** A catch whose reclaims leave `e1`. */
  lemma CatchParts(cfg: Config, e: Engine, x: CatchInput, e1: Engine)
    requires e1 == DropTo(cfg, e, CatchKeeps(cfg, e.frames, x), DeathMark(AtCatch, 0))
    ensures Catch(cfg, e, x) == if CatchLogs(cfg, e.frames, x) then EventLine(cfg, e1, x.event, x.write) else e1
  {
  }

  /** A catch in two parts, its file opened behind the reclaims, which leave `e1`. */
  lemma CatchOpensBehind(cfg: Config, e: Engine, x: CatchInput, o: Opening, e1: Engine)
    requires !e.out.isOpen ==> NoLineStarts(e.frames)
    requires e1 == DropTo(cfg, e, CatchKeeps(cfg, e.frames, x), DeathMark(AtCatch, 0))
    ensures Catch(cfg, CatchFile(cfg, e, x, o), CatchSeen(cfg, e, x, o)) ==
            if CatchAsks(cfg, e.frames, x) then EventLineOpening(cfg, e1, x.event, x.write, o) else e1
    ensures FileThrows(e1.out, o) == FileThrows(e.out, o) && HasFile(cfg, e1.out, o) == HasFile(cfg, e.out, o)
  {
    var eo, y := CatchFile(cfg, e, x, o), CatchSeen(cfg, e, x, o);
    DropBehindFile(cfg, e, o, CatchKeeps(cfg, e.frames, x), DeathMark(AtCatch, 0), e1);
    CatchSeenKeeps(cfg, e, x, o);
    CatchParts(cfg, eo, y, if CatchAsks(cfg, e.frames, x) then e1.(out := GetFile(cfg, e1.out, o)) else e1);
  }

  /** Whether a line is written is settled by the reclaims before resolution; without one they are all there is. */
  lemma LogsAfterReclaim(cfg: Config, e: Engine, x: EnterInput, e1: Engine)
    requires !x.levelThrows && e1 == DropTo(cfg, e, KeptBeforeResolve(cfg, e.frames, x), DeathMark(AtEnter, x.uncaught))
    ensures EnterLogs(cfg, e, x) == (!ChainThrew(cfg, e.frames, x) && x.resolution.Resolved? && e1.out.isOpen)
    ensures !EnterLogs(cfg, e, x) ==> EnterKeeps(cfg, e, x) == KeptBeforeResolve(cfg, e.frames, x)
  {
    DropKeepsOutputShape(cfg, e, KeptBeforeResolve(cfg, e.frames, x), DeathMark(AtEnter, x.uncaught));
  }

  /** The state once an enter has written its line, before it pushes its record. */
  function WithLine(cfg: Config, e1: Engine, x: EnterInput): Engine
    requires x.resolution.Resolved?
  {
    var depth := e1.depth + 1;
    e1.(depth := depth,
        out := AppendCallLine(cfg, e1.out, CallLine(cfg, x.resolution.view, x.key.callee, depth), depth, x.write))
  }

  /** The enter hook that finds room, once it is known how many records it keeps. */
  lemma RoomyEnter(cfg: Config, e: Engine, x: EnterInput, e1: Engine)
    requires e.overflow == 0 && !x.roomThrows
    requires e1 == DropTo(cfg, e, EnterKeeps(cfg, e, x), DeathMark(AtEnter, x.uncaught))
    ensures Enter(cfg, e, x) ==
            if EnterLogs(cfg, e, x)
            then var e2 := WithLine(cfg, e1, x); e2.(frames := e1.frames + [NewRecord(cfg, e1, x, e2.depth, e2.out)])
            else e1.(frames := e1.frames + [UnloggedRecord(x)])
  {
  }

  /** What the exit hook does once its own record is on top. */
  function Finished(cfg: Config, e1: Engine, x: ExitInput, index: nat): Engine
    requires index < |e1.frames|
  {
    var r := e1.frames[index];
    var e2 := e1.(frames := e1.frames[..index]);
    if r.logged then e2.(depth := e1.depth - 1, out := FinishLine(cfg, e1.out, r, x)) else e2
  }

  lemma ExitIsFinished(cfg: Config, e: Engine, x: ExitInput)
    requires e.overflow == 0 && e.frames != []
    ensures var index := ExitIndex(e.frames, x.key, x.tailCalled, cfg.bounds);
            var e1 := DropTo(cfg, e, index + 1, DeathMark(AtExit, x.uncaught));
            e1.frames[index] == e.frames[index] && Exit(cfg, e, x) == Finished(cfg, e1, x, index)
  {
    var index := ExitIndex(e.frames, x.key, x.tailCalled, cfg.bounds);
    assert e.frames[..index + 1][..index] == e.frames[..index];
  }

  /** Everything from `n` on is a repeat of the frame. */
  predicate RepeatsDownTo(frames: seq<FrameRecord>, key: FrameKey, n: nat) {
    n <= |frames| && forall i | n <= i < |frames| :: SameFrame(key)(frames[i])
  }

  lemma RepeatOnTop(frames: seq<FrameRecord>, key: FrameKey, n: nat)
    requires RepeatsDownTo(frames, key, n) && 0 < n && SameFrame(key)(frames[n - 1])
    ensures RepeatsDownTo(frames, key, n - 1)
  {
  }

  lemma NoRepeatOnTop(frames: seq<FrameRecord>, key: FrameKey, n: nat)
    requires RepeatsDownTo(frames, key, n) && (0 < n ==> !SameFrame(key)(frames[n - 1]))
    ensures |frames| - TopSegment(frames, SameFrame(key)) == n
  {
    TopSegmentUnique(frames, SameFrame(key), |frames| - n);
  }

  lemma EventLineAppends(cfg: Config, e: Engine, event: EventView, write: Write, text: string)
    requires e.out.isOpen && text == EventText(cfg, event, e.depth + 1)
    ensures EventLine(cfg, e, event, write) == e.(out := Append(cfg, e.out, text, write))
  {
  }

  /** What an inline chain that is consulted keeps. */
  lemma ChainParts(cfg: Config, frames: seq<FrameRecord>, key: FrameKey, names: seq<string>)
    requires ChainConsulted(cfg, frames, key.level) && names != []
    ensures var kept := KeptAfterRepeats(frames, key, names);
            && (|names| < 2 ==> KeptByInlineChain(cfg, frames, key, names) == kept)
            && (|names| >= 2 ==>
                  KeptByInlineChain(cfg, frames, key, names)
                  == kept - AboveMatch(frames[..kept], key.level, HasBaseName(names[1])))
  {
  }

  // ---------- runs ----------

  /** One call of the traced program into the tracer. */
  datatype HookCall =
    | EnterCall(enter: EnterInput)
    | ExitCall(exit: ExitInput)
    | CatchCall(catching: CatchInput)
    | EventCall(event: EventView, write: Write)
    | OpenCall(existing: string, header: Header, reopens: bool, seeks: bool)

  function Apply(cfg: Config, e: Engine, call: HookCall): Engine {
    match call
    case EnterCall(x) => Enter(cfg, e, x)
    case ExitCall(x) => Exit(cfg, e, x)
    case CatchCall(x) => Catch(cfg, e, x)
    case EventCall(event, write) => EventLine(cfg, e, event, write)
    case OpenCall(existing, header, reopens, seeks) =>
      if e.out.isOpen then e else e.(out := Open(cfg, e.out, existing, header, reopens, seeks))
  }

  function Run(cfg: Config, calls: seq<HookCall>): Engine {
    if calls == [] then START else Apply(cfg, Run(cfg, calls[..|calls| - 1]), calls[|calls| - 1])
  }

  // ---------- depth conservation ----------

  function LoggedCount(frames: seq<FrameRecord>): nat {
    if frames == [] then 0
    else LoggedCount(frames[..|frames| - 1]) + (if frames[|frames| - 1].logged then 1 else 0)
  }

  /** The depth is the number of logged records, less one. */
  predicate DepthExact(e: Engine) {
    e.depth + 1 == LoggedCount(e.frames)
  }

  lemma {:induction false} DropDepth(cfg: Config, e: Engine, keep: nat, how: char)
    requires DepthExact(e)
    ensures DepthExact(DropTo(cfg, e, keep, how))
    decreases |e.frames|
  {
    if |e.frames| > keep {
      DropDepth(cfg, PopDead(cfg, e, how), keep, how);
    }
  }

  lemma PushDepth(frames: seq<FrameRecord>, r: FrameRecord)
    ensures LoggedCount(frames + [r]) == LoggedCount(frames) + (if r.logged then 1 else 0)
  {
    assert (frames + [r])[..|frames|] == frames;
  }

  /** Depth conservation, step by step: whatever throws, overflows, is reclaimed or is filtered. */
  lemma ApplyDepth(cfg: Config, e: Engine, call: HookCall)
    requires DepthExact(e)
    ensures DepthExact(Apply(cfg, e, call))
  {
    match call
    case EnterCall(x) =>
      if e.overflow == 0 && !x.roomThrows {
        var e1 := DropTo(cfg, e, EnterKeeps(cfg, e, x), DeathMark(AtEnter, x.uncaught));
        DropDepth(cfg, e, EnterKeeps(cfg, e, x), DeathMark(AtEnter, x.uncaught));
        var e2 := Enter(cfg, e, x);
        PushDepth(e1.frames, e2.frames[|e1.frames|]);
      }
    case ExitCall(x) =>
      if e.overflow == 0 && e.frames != [] {
        var index := ExitIndex(e.frames, x.key, x.tailCalled, cfg.bounds);
        DropDepth(cfg, e, index + 1, DeathMark(AtExit, x.uncaught));
        assert e.frames[..index + 1][..index] == e.frames[..index];
      }
    case CatchCall(x) =>
      DropDepth(cfg, e, CatchKeeps(cfg, e.frames, x), DeathMark(AtCatch, 0));
    case EventCall(_, _) =>
    case OpenCall(_, _, _, _) =>
  }

  /** Depth conservation over every run. */
  lemma {:induction false} DepthConserved(cfg: Config, calls: seq<HookCall>)
    ensures DepthExact(Run(cfg, calls))
    ensures Run(cfg, calls).depth >= -1
  {
    if calls != [] {
      DepthConserved(cfg, calls[..|calls| - 1]);
      ApplyDepth(cfg, Run(cfg, calls[..|calls| - 1]), calls[|calls| - 1]);
    }
  }

  // ---------- the shape of the record stack ----------

  /** Levels never increase from bottom to top, and records at one level share their caller. */
  ghost predicate Stacked(frames: seq<FrameRecord>) {
    forall i, j | 0 <= i < j < |frames| ::
      frames[i].level > frames[j].level || (frames[i].level == frames[j].level && frames[i].caller == frames[j].caller)
  }

  predicate AllOnStack(bounds: StackBounds, frames: seq<FrameRecord>) {
    forall i | 0 <= i < |frames| :: OnThreadStack(bounds, frames[i].level)
  }

  ghost predicate Shaped(cfg: Config, frames: seq<FrameRecord>) {
    Stacked(frames) && AllOnStack(cfg.bounds, frames)
  }

  /** What the enter scan leaves: every record is above the entering level, or beside it with the same caller. */
  lemma ScanLeaves(cfg: Config, frames: seq<FrameRecord>, key: FrameKey)
    requires Shaped(cfg, frames) && OnThreadStack(cfg.bounds, key.level)
    ensures forall i | 0 <= i < KeptByScan(cfg, frames, key) ::
              frames[i].level > key.level || (frames[i].level == key.level && frames[i].caller == key.caller)
  {
    var kept := KeptByScan(cfg, frames, key);
    if kept > 0 {
      assert !DeadOnEnter(key, cfg.bounds)(frames[kept - 1]);
    }
  }

  lemma KeptFitsScan(cfg: Config, e: Engine, x: EnterInput)
    requires !x.levelThrows
    ensures EnterKeeps(cfg, e, x) <= KeptByScan(cfg, e.frames, x.key)
  {
  }

  /** A record above all the others' levels' floor, or beside them, keeps the shape. */
  lemma PushShape(cfg: Config, frames: seq<FrameRecord>, r: FrameRecord)
    requires Shaped(cfg, frames) && OnThreadStack(cfg.bounds, r.level)
    requires forall i | 0 <= i < |frames| ::
               frames[i].level > r.level || (frames[i].level == r.level && frames[i].caller == r.caller)
    ensures Shaped(cfg, frames + [r])
  {
  }

  lemma EnterShape(cfg: Config, e: Engine, x: EnterInput)
    requires Shaped(cfg, e.frames) && OnThreadStack(cfg.bounds, x.key.level) && !x.levelThrows
    ensures Shaped(cfg, Enter(cfg, e, x).frames)
  {
    if e.overflow == 0 && !x.roomThrows {
      var keep := EnterKeeps(cfg, e, x);
      ScanLeaves(cfg, e.frames, x.key);
      KeptFitsScan(cfg, e, x);
      var r := Enter(cfg, e, x).frames[keep];
      assert Enter(cfg, e, x).frames == e.frames[..keep] + [r];
      PushShape(cfg, e.frames[..keep], r);
    }
  }

  lemma ShorterShape(cfg: Config, frames: seq<FrameRecord>, keep: nat)
    requires Shaped(cfg, frames) && keep <= |frames|
    ensures Shaped(cfg, frames[..keep])
  {
  }

  /** The shape is kept by every hook of a frame on the thread's own stack. */
  lemma ApplyShape(cfg: Config, e: Engine, call: HookCall)
    requires Shaped(cfg, e.frames)
    requires call.EnterCall? ==> OnThreadStack(cfg.bounds, call.enter.key.level) && !call.enter.levelThrows
    ensures Shaped(cfg, Apply(cfg, e, call).frames)
  {
    match call
    case EnterCall(x) => EnterShape(cfg, e, x);
    case ExitCall(x) =>
      if e.overflow == 0 && e.frames != [] {
        ShorterShape(cfg, e.frames, ExitIndex(e.frames, x.key, x.tailCalled, cfg.bounds));
      }
    case CatchCall(x) => ShorterShape(cfg, e.frames, CatchKeeps(cfg, e.frames, x));
    case EventCall(_, _) =>
    case OpenCall(_, _, _, _) =>
  }

  /** Over every run of frames on the thread's own stack. */
  lemma {:induction false} ShapeHolds(cfg: Config, calls: seq<HookCall>)
    requires forall i | 0 <= i < |calls| && calls[i].EnterCall? ::
               OnThreadStack(cfg.bounds, calls[i].enter.key.level) && !calls[i].enter.levelThrows
    ensures Shaped(cfg, Run(cfg, calls).frames)
  {
    if calls != [] {
      ShapeHolds(cfg, calls[..|calls| - 1]);
      ApplyShape(cfg, Run(cfg, calls[..|calls| - 1]), calls[|calls| - 1]);
    }
  }
}
