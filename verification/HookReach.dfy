/**
How far down one hook reaches, over every run: an exit without a record of its own takes one record; a catch takes what
is strictly below it, the noexcept stub what is at its own level too, and the terminate line hangs from what is left.
*/
module HookReach {
  import opened Common
  import opened FrameReconcile
  import opened EventFormat
  import opened TraceFile
  import opened Hooks
  import opened HookLemmas
  import opened LinePatching
  import opened Traces
  import opened LiveStack
  import opened Histories

  // ---------- an exit without a record of its own ----------

  /** The frame's enter left no record, or it or the frame on top runs on a foreign stack. */
  predicate Foreign(bounds: StackBounds, frames: seq<FrameRecord>, key: FrameKey)
    requires frames != []
  {
    || !RecordedFrom(frames, key.callee, key.caller)
    || OffStack(bounds, key.level) || OffStack(bounds, frames[|frames| - 1].level)
  }

  /** Over every run: the exit of such a frame removes exactly one record, the top one, and counts it off the depth. */
  lemma ForeignExitPopsOne(cfg: Config, calls: seq<HookCall>, n: nat, x: ExitInput)
    requires n < |calls| && calls[n] == ExitCall(x)
    requires var e := Run(cfg, calls[..n]); e.overflow == 0 && e.frames != [] && Foreign(cfg.bounds, e.frames, x.key)
    ensures var e, e' := Run(cfg, calls[..n]), Run(cfg, calls[..n + 1]);
            && e.frames == e'.frames + [e.frames[|e.frames| - 1]]
            && e'.depth == e.depth - (if e.frames[|e.frames| - 1].logged then 1 else 0)
            && e'.depth + 1 == LoggedCount(e'.frames)
  {
    RunStep(cfg, calls, n);
    ForeignExit(cfg, Run(cfg, calls[..n]), x);
    DepthConserved(cfg, calls[..n + 1]);
  }

  lemma ForeignExit(cfg: Config, e: Engine, x: ExitInput)
    requires e.overflow == 0 && e.frames != [] && Foreign(cfg.bounds, e.frames, x.key)
    ensures Exit(cfg, e, x).frames == e.frames[..|e.frames| - 1]
    ensures Exit(cfg, e, x).depth == e.depth - (if e.frames[|e.frames| - 1].logged then 1 else 0)
  {
    ExitReachesOwnSiteOnly(e.frames, x.key, x.tailCalled, cfg.bounds);
    ExitIsFinished(cfg, e, x);
  }

  // ---------- frames on a foreign stack ----------

  /** The hook is that of a frame on a foreign stack, or finds one on top. */
  predicate MeetsForeignStack(bounds: StackBounds, frames: seq<FrameRecord>, level: Address) {
    OffStack(bounds, level) || (frames != [] && OffStack(bounds, frames[|frames| - 1].level))
  }

  lemma ForeignEnterReclaimsNothing(cfg: Config, e: Engine, x: EnterInput)
    requires MeetsForeignStack(cfg.bounds, e.frames, x.key.level)
    ensures EnterKeeps(cfg, e, x) == |e.frames| && !ChainThrew(cfg, e.frames, x)
  {
    if e.frames != [] {
      ScansStayOnStack(e.frames, x.key, x.key.level, cfg.bounds, |e.frames| - 1);
    }
    assert KeptByScan(cfg, e.frames, x.key) == |e.frames|;
    assert e.frames[..|e.frames|] == e.frames;
  }

  lemma ForeignCatchReclaimsNothing(cfg: Config, frames: seq<FrameRecord>, x: CatchInput)
    requires MeetsForeignStack(cfg.bounds, frames, if x.isTerminateStub then x.level + 1 else x.level)
    ensures CatchKeeps(cfg, frames, x) == |frames|
  {
    if frames != [] {
      ScansStayOnStack(frames, FrameKey(0, 0, 0), CatchLevel(x), cfg.bounds, |frames| - 1);
    }
    assert frames[..|frames|] == frames;
  }

  /**
  Over every run, whatever debug information says: a frame that enters or catches on a foreign stack, or finds one of
  such a stack on top, takes no record at all.
  */
  lemma ForeignStackIsLeftAlone(cfg: Config, calls: seq<HookCall>, n: nat)
    requires n < |calls|
    ensures var e, e' := Run(cfg, calls[..n]), Run(cfg, calls[..n + 1]);
            match calls[n]
            case EnterCall(x) => MeetsForeignStack(cfg.bounds, e.frames, x.key.level) ==> e.frames <= e'.frames
            case CatchCall(x) =>
              MeetsForeignStack(cfg.bounds, e.frames, if x.isTerminateStub then x.level + 1 else x.level) ==>
                e'.frames == e.frames
            case _ => true
  {
    RunStep(cfg, calls, n);
    match calls[n]
    case EnterCall(x) =>
      if MeetsForeignStack(cfg.bounds, Run(cfg, calls[..n]).frames, x.key.level) {
        ForeignEnter(cfg, Run(cfg, calls[..n]), x);
      }
    case CatchCall(x) =>
      if MeetsForeignStack(cfg.bounds, Run(cfg, calls[..n]).frames,
                           if x.isTerminateStub then x.level + 1 else x.level) {
        ForeignCatch(cfg, Run(cfg, calls[..n]), x);
      }
    case _ =>
  }

  lemma ForeignEnter(cfg: Config, e: Engine, x: EnterInput)
    requires MeetsForeignStack(cfg.bounds, e.frames, x.key.level)
    ensures e.frames <= Enter(cfg, e, x).frames
  {
    ForeignEnterReclaimsNothing(cfg, e, x);
    if e.overflow == 0 && !x.roomThrows {
      RoomyEnter(cfg, e, x, DropTo(cfg, e, EnterKeeps(cfg, e, x), DeathMark(AtEnter, x.uncaught)));
    }
  }

  lemma ForeignCatch(cfg: Config, e: Engine, x: CatchInput)
    requires MeetsForeignStack(cfg.bounds, e.frames, if x.isTerminateStub then x.level + 1 else x.level)
    ensures Catch(cfg, e, x).frames == e.frames
  {
    ForeignCatchReclaimsNothing(cfg, e.frames, x);
    CatchParts(cfg, e, x, DropTo(cfg, e, CatchKeeps(cfg, e.frames, x), DeathMark(AtCatch, 0)));
  }

  // ---------- what a catch takes ----------

  /** The noexcept stub takes exactly the records that are not above its level, if it and the next byte are on stack. */
  lemma StubTakesItsOwnLevel(cfg: Config, frames: seq<FrameRecord>, x: CatchInput, j: nat)
    requires Shaped(cfg, frames) && x.isTerminateStub && !x.resolveThrows && j < |frames|
    ensures !OffStack(cfg.bounds, x.level + 1) ==> (j < CatchKeeps(cfg, frames, x) <==> frames[j].level > x.level)
    ensures OffStack(cfg.bounds, x.level + 1) ==> CatchKeeps(cfg, frames, x) == |frames|
  {
    if !OffStack(cfg.bounds, x.level + 1) {
      CatchScanSplits(cfg, frames, x.level + 1, j);
    }
  }

  /** Where levels never increase upwards, the scan splits the stack at the level it is given. */
  lemma CatchScanSplits(cfg: Config, frames: seq<FrameRecord>, level: Address, j: nat)
    requires Shaped(cfg, frames) && OnThreadStack(cfg.bounds, level) && j < |frames|
    ensures j < |frames| - CatchDead(frames, level, cfg.bounds) <==> frames[j].level >= level
  {
    var kept := |frames| - CatchDead(frames, level, cfg.bounds);
    assert forall i | kept <= i < |frames| :: DeadOnCatch(level, cfg.bounds)(frames[i]);
    if 0 < kept {
      assert !DeadOnCatch(level, cfg.bounds)(frames[kept - 1]);
    }
  }

  /**
  A catch in a handler takes every record strictly below it and none above its level; of those at its level only what
  the chain tells it.
  */
  lemma CatchTakesWhatIsBelow(cfg: Config, frames: seq<FrameRecord>, x: CatchInput, j: nat)
    requires Shaped(cfg, frames) && !x.isTerminateStub && !x.resolveThrows && j < |frames|
    requires !OffStack(cfg.bounds, x.level)
    ensures frames[j].level < x.level ==> j >= CatchKeeps(cfg, frames, x)
    ensures frames[j].level > x.level ==> j < CatchKeeps(cfg, frames, x)
    ensures frames[j].level == x.level && (x.chain.ChainThrows? || x.chain.names == []) ==>
              j < CatchKeeps(cfg, frames, x)
  {
    var kept := KeptByCatch(cfg, frames, x);
    CatchScanSplits(cfg, frames, x.level, j);
    if x.chain.Chain? && x.chain.names != [] && frames[j].level > x.level {
      HigherThanTheGroup(frames[..kept], x.level, x.chain.names, j);
    }
  }

  /** The reclaim by the catcher's name stays in its level. */
  lemma HigherThanTheGroup(rest: seq<FrameRecord>, level: Address, names: seq<string>, j: nat)
    requires j < |rest| && rest[j].level > level && names != []
    ensures j < |rest| - AboveMatch(rest, level, HasBaseName(names[0]))
  {
    var m := MatchInGroup(rest, level, HasBaseName(names[0]), |rest|);
    if 0 <= m {
      assert Group(rest, level, m, |rest|);
    }
  }

  /** A catch whose site cannot be resolved changes nothing at all. */
  lemma ThrowingCatchChangesNothing(cfg: Config, e: Engine, x: CatchInput)
    requires x.resolveThrows
    ensures Catch(cfg, e, x) == e
  {
  }

  // ---------- the noexcept stub over every history ----------

  /** What is left stands above the level; every record that stood above it is left. */
  predicate CutAt(before: seq<FrameRecord>, after: seq<FrameRecord>, level: Address) {
    && after <= before
    && (forall j | 0 <= j < |after| :: after[j].level > level)
    && (forall j | |after| <= j < |before| :: before[j].level <= level)
  }

  lemma StubCuts(cfg: Config, e: Engine, x: CatchInput)
    requires Shaped(cfg, e.frames) && x.isTerminateStub && !x.resolveThrows && !OffStack(cfg.bounds, x.level + 1)
    ensures CutAt(e.frames, Catch(cfg, e, x).frames, x.level)
  {
    forall j | 0 <= j < |e.frames|
      ensures j < CatchKeeps(cfg, e.frames, x) <==> e.frames[j].level > x.level
    {
      StubTakesItsOwnLevel(cfg, e.frames, x, j);
    }
  }

  /** The event line of a catch hangs from what is left: it is written at the number of logged records. */
  lemma CatchWrites(cfg: Config, e: Engine, x: CatchInput, e': Engine, text: string)
    requires LineInv(cfg, e) && DepthExact(e) && e.out.isOpen && CatchLogs(cfg, e.frames, x) && x.write.Full?
    requires e' == Catch(cfg, e, x) && text == EventText(cfg, x.event, LoggedCount(e'.frames))
    ensures |e.out.file| <= |e'.out.file| && e'.out.file[|e.out.file|..] == text
  {
    var keep, how := CatchKeeps(cfg, e.frames, x), DeathMark(AtCatch, 0);
    var e1 := DropTo(cfg, e, keep, how);
    DropTouchesDeadLines(cfg, e, keep, how);
    DropDepth(cfg, e, keep, how);
    CatchParts(cfg, e, x, e1);
    EventLineAppends(cfg, e1, x.event, x.write, text);
    AppendedInFull(cfg, e1.out, text);
  }

  lemma AppendedInFull(cfg: Config, out: Output, text: string)
    ensures Append(cfg, out, text, Full).file[|out.file|..] == text
  {
  }

  /** What the call between these two states appended, and nothing is behind it. */
  ghost predicate Appended(w: World, w': World, text: string) {
    |w.engine.out.file| <= |w'.engine.out.file| && w'.engine.out.file[|w.engine.out.file|..] == text
  }

  /**
  Over every history: where the noexcept stub is entered, with everything live above its level, no record at or below
  that level is left, every live frame keeps its record, and the terminate line is written at the number of logged
  records that are left.
  */
  lemma TerminateLineHangsFromTheLive(cfg: Config, events: seq<Event>, ws: seq<World>, n: nat, x: CatchInput)
    requires FittingHistory(cfg, events, ws) && n < |events| && events[n] == Caught(x)
    requires x.isTerminateStub && !x.resolveThrows && !OffStack(cfg.bounds, x.level + 1)
    ensures CutAt(ws[n].engine.frames, ws[n + 1].engine.frames, x.level)
    ensures forall i | 0 <= i < ws[n].recorded <= |ws[n].live| ::
              Recorded(ws[n + 1].engine.frames, ws[n + 1].owners, ws[n].live[i])
    ensures ws[n].engine.out.isOpen && !x.lineLost && x.write.Full? ==>
              Appended(ws[n], ws[n + 1], EventText(cfg, x.event, LoggedCount(ws[n + 1].engine.frames)))
  {
    SoundInHistory(cfg, events, ws, n);
    SoundInHistory(cfg, events, ws, n + 1);
    NextFits(cfg, events, ws, n);
    StubCuts(cfg, ws[n].engine, x);
    StubSpares(cfg, ws[n], x, ws[n + 1]);
    if ws[n].engine.out.isOpen && !x.lineLost && x.write.Full? {
      CatchWrites(cfg, ws[n].engine, x, ws[n + 1].engine,
                  EventText(cfg, x.event, LoggedCount(ws[n + 1].engine.frames)));
    }
  }

  lemma StubSpares(cfg: Config, w: World, x: CatchInput, w': World)
    requires Inv(cfg, w) && Possible(cfg, w, Caught(x)) && w' == Step(cfg, w, Caught(x))
    ensures w'.engine == Catch(cfg, w.engine, x)
    ensures forall i | 0 <= i < w.recorded :: Recorded(w'.engine.frames, w'.owners, w.live[i])
  {
    StepSound(cfg, w, Caught(x));
  }

  /** Over every history the line of a catch hangs from what the catch leaves. */
  lemma CatchLinesHangFromTheRecords(cfg: Config, events: seq<Event>, ws: seq<World>, n: nat, x: CatchInput)
    requires FittingHistory(cfg, events, ws) && n < |events| && ws[n].engine.out.isOpen && events[n] == Caught(x)
    requires CatchLogs(cfg, ws[n].engine.frames, x) && x.write.Full?
    ensures Appended(ws[n], ws[n + 1], EventText(cfg, x.event, LoggedCount(ws[n + 1].engine.frames)))
  {
    SoundInHistory(cfg, events, ws, n);
    NextFits(cfg, events, ws, n);
    StepRunsHook(cfg, ws[n], events[n]);
    CatchWrites(cfg, ws[n].engine, x, ws[n + 1].engine,
                EventText(cfg, x.event, LoggedCount(ws[n + 1].engine.frames)));
  }

  /** That of any other event hangs from what is there. */
  lemma EventLinesHangFromTheRecords(cfg: Config, events: seq<Event>, ws: seq<World>, n: nat, event: EventView)
    requires FittingHistory(cfg, events, ws) && n < |events| && ws[n].engine.out.isOpen
    requires events[n] == Other(EventCall(event, Full))
    ensures Appended(ws[n], ws[n + 1], EventText(cfg, event, LoggedCount(ws[n].engine.frames)))
  {
    SoundInHistory(cfg, events, ws, n);
    NextFits(cfg, events, ws, n);
    StepRunsHook(cfg, ws[n], events[n]);
    EventWrites(cfg, ws[n].engine, event, EventText(cfg, event, LoggedCount(ws[n].engine.frames)));
  }

  lemma EventWrites(cfg: Config, e: Engine, event: EventView, text: string)
    requires e.out.isOpen && DepthExact(e) && text == EventText(cfg, event, LoggedCount(e.frames))
    ensures var file := EventLine(cfg, e, event, Full).out.file; |e.out.file| <= |file| && file[|e.out.file|..] == text
  {
    EventLineAppends(cfg, e, event, Full, text);
    AppendedInFull(cfg, e.out, text);
  }

  // ---------- a line where there is a file ----------

  /** What get_thread_fp must meet for a hook to have a file to write to. */
  predicate FileToWrite(isOpen: bool, o: Opening) {
    !o.Unavailable? && (isOpen || (o.Lazy? && o.header.Written? && !o.listingThrows))
  }

  /** A frame that is resolved is logged if and only if there is a file to write to; without one nothing is appended. */
  lemma EnterLogsIffThereIsAFile(cfg: Config, e: Engine, x: EnterInput, o: Opening)
    requires EnterAsks(cfg, e, x) && x.resolution.Resolved?
    ensures var eo, y := EnterFile(cfg, e, x, o), EnterSeen(cfg, e, x, o);
            && (EnterLogs(cfg, eo, y) <==> FileToWrite(e.out.isOpen, o))
            && (!FileToWrite(e.out.isOpen, o) ==> Enter(cfg, eo, y).out.original == eo.out.original)
    ensures x.chain.ChainThrows? ==>
              !TopAt(cfg.bounds, e.frames[..|e.frames| - EnterDead(e.frames, x.key, cfg.bounds)], x.key.level)
  {
    EnterAsksIff(cfg, e, x);
    var eo, y := EnterFile(cfg, e, x, o), EnterSeen(cfg, e, x, o);
    assert ChainThrew(cfg, eo.frames, y) == ChainThrew(cfg, e.frames, x);
    if !FileToWrite(e.out.isOpen, o) {
      UnloggedAppendsNothing(cfg, eo, y);
    }
  }

  lemma UnloggedAppendsNothing(cfg: Config, e: Engine, x: EnterInput)
    requires !EnterLogs(cfg, e, x)
    ensures Enter(cfg, e, x).out.original == e.out.original
  {
    if e.overflow == 0 && !x.roomThrows {
      DropKeepsOutputShape(cfg, e, EnterKeeps(cfg, e, x), DeathMark(AtEnter, x.uncaught));
      RoomyEnter(cfg, e, x, DropTo(cfg, e, EnterKeeps(cfg, e, x), DeathMark(AtEnter, x.uncaught)));
    }
  }

  /** A catch writes its event line if and only if it gets that far and there is a file to write to. */
  lemma CatchLogsIffThereIsAFile(cfg: Config, e: Engine, x: CatchInput, o: Opening)
    ensures CatchLogs(cfg, e.frames, CatchSeen(cfg, e, x, o))
            <==> CatchAsks(cfg, e.frames, x) && FileToWrite(e.out.isOpen, o)
    ensures CatchAsks(cfg, e.frames, x) <==>
              && !x.resolveThrows
              && (x.isTerminateStub || x.chain.Chain?
                  || !TopAt(cfg.bounds, e.frames[..|e.frames| - CatchDead(e.frames, x.level, cfg.bounds)], x.level))
  {
    CatchSeenKeeps(cfg, e, x, o);
  }

  /** The record on top is at this level of the thread's own stack: only then does a hook ask for the inline chain. */
  predicate TopAt(bounds: StackBounds, frames: seq<FrameRecord>, level: Address) {
    frames != [] && frames[|frames| - 1].level == level && !OffStack(bounds, level)
  }

  /** How far an enter gets: a chain that throws stops it only if the chain is asked for. */
  lemma EnterAsksIff(cfg: Config, e: Engine, x: EnterInput)
    ensures EnterAsks(cfg, e, x) <==>
              && e.overflow == 0 && !x.roomThrows && !x.levelThrows
              && (x.chain.Chain?
                  || !TopAt(cfg.bounds, e.frames[..|e.frames| - EnterDead(e.frames, x.key, cfg.bounds)], x.key.level))
  {
  }

  /** The file is open behind a hook if it was, or if the hook got as far as opening it. */
  lemma OpensIfItAsks(cfg: Config, e: Engine, x: EnterInput, y: CatchInput, o: Opening)
    ensures EnterFile(cfg, e, x, o).out.isOpen <==> e.out.isOpen || (EnterAsks(cfg, e, x) && o.Lazy?)
    ensures CatchFile(cfg, e, y, o).out.isOpen <==> e.out.isOpen || (CatchAsks(cfg, e.frames, y) && o.Lazy?)
    ensures e.out.isOpen ==> EnterFile(cfg, e, x, o) == e && CatchFile(cfg, e, y, o) == e
  {
  }
}
