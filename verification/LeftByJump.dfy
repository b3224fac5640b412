/**
What becomes of the lines of frames that a jump leaves: over every history, until a hook takes their records they stay
as they are, and from then on they say for good how their frames ended. In a program the next call or return is that
hook.
*/
module LeftByJump {
  import opened Common
  import opened FrameReconcile
  import opened TraceFile
  import opened Hooks
  import opened HookLemmas
  import opened LinePatching
  import opened LiveStack
  import opened Exactness
  import opened ProgramExactness
  import opened Histories
  import opened LiveLines
  import opened Unwinding
  import opened HookReach

  // ---------- a record whose frame is gone ----------

  /** Since `w0`, where it was live frame `i`, the frame of `l` has gone, and its record is still where it was. */
  predicate Gone(w0: World, i: nat, l: Line, w: World) {
    && w.live <= w0.live && |w.live| <= i < |w0.live| && w0.live[i] == l.f
    && l.index < |w.engine.frames| && w.engine.frames[l.index] == l.record
    && l.index < |w.owners| && w.owners[l.index] == l.f.id
    && w.engine.out.patchFd && l.record.lineStart >= 0
  }

  /** Events that run no hook which pops. */
  predicate Idle(ev: Event) {
    ev.Jump? || ev.Other?
  }

  lemma JumpLeaves(cfg: Config, w: World, i: nat, l: Line, k: nat)
    requires LineShown(w, i, l) && k <= i
    ensures Gone(w, i, l, Step(cfg, w, Jump(k)))
  {
  }

  lemma IdleKeepsGone(cfg: Config, w0: World, i: nat, l: Line, w: World, ev: Event)
    requires Gone(w0, i, l, w) && Idle(ev) && LineInv(cfg, w.engine)
    ensures Gone(w0, i, l, Step(cfg, w, ev))
  {
  }

  lemma {:induction false} GoneAt(cfg: Config, events: seq<Event>, ws: seq<World>, n: nat, m: nat, i: nat, l: Line)
    requires FittingHistory(cfg, events, ws) && n < m <= |events| && LineShown(ws[n], i, l)
    requires events[n].Jump? && events[n].survivors <= i && forall t | n < t < m :: Idle(events[t])
    ensures Gone(ws[n], i, l, ws[m])
    decreases m
  {
    NextFits(cfg, events, ws, m - 1);
    if n == m - 1 {
      JumpLeaves(cfg, ws[n], i, l, events[n].survivors);
    } else {
      GoneAt(cfg, events, ws, n, m - 1, i, l);
      SoundInHistory(cfg, events, ws, m - 1);
      IdleKeepsGone(cfg, ws[n], i, l, ws[m - 1], events[m - 1]);
    }
  }

  // ---------- which records the next call and the next return take ----------

  /** Its index is that of no live frame's record. */
  lemma GoneIsAbove(cfg: Config, calleeOf: Address -> Address, w0: World, i: nat, l: Line, w: World, trail: seq<Frame>)
    requires Inv(cfg, w0) && Gone(w0, i, l, w) && OnTrail(calleeOf, w, trail)
    ensures |w.live| <= l.index
  {
    LiveOwners(w.owners, w.live, trail);
    forall j | 0 <= j < |w.live|
      ensures w.owners[j] != l.f.id
    {
      assert w.owners[j] == w.owners[..|w.live|][j] == w.live[j].id && w0.live[j] == w.live[j];
    }
  }

  lemma CallTakes(cfg: Config, w: World, f: Frame, x: EnterInput, w': World)
    requires Inv(cfg, w) && w.engine.overflow == 0 && Possible(cfg, w, Call(f, x)) && !x.roomThrows
    requires w' == Step(cfg, w, Call(f, x)) && w'.owners == Ids(w'.live)
    ensures EnterKeeps(cfg, w.engine, x) == |w.live|
  {
    StepPushes(cfg, w, f, x);
  }

  /** What the hook of a call or return says of a frame that was left by jumps. */
  function MarkOfJump(ev: Event): char {
    if ev.Call? && ev.enter.uncaught > 0 then '!' else '~'
  }

  lemma NextCallTakes(cfg: Config, ground: Address, calleeOf: Address -> Address, events: seq<Event>, m: nat,
                      w0: World, i: nat, l: Line, w: World)
    requires ProgramRun(cfg, ground, calleeOf, events) && m < |events| && events[m].Call?
    requires w == Evolve(cfg, events[..m]) && Inv(cfg, w0) && Gone(w0, i, l, w)
    ensures MarksAsUnwound(cfg, w.engine, Hook(events[m]).value, l.index, MarkOfJump(events[m]))
  {
    ProgramPrefix(cfg, ground, calleeOf, events, m);
    RecordsFollowTheTrail(cfg, ground, calleeOf, events[..m]);
    InvHolds(cfg, events[..m]);
    GoneIsAbove(cfg, calleeOf, w0, i, l, w, Trail(cfg, events[..m]));
    ExactBehindCall(cfg, ground, calleeOf, events, m);
    CallTakes(cfg, w, events[m].frame, events[m].enter, Step(cfg, w, events[m]));
  }

  lemma ExactBehindCall(cfg: Config, ground: Address, calleeOf: Address -> Address, events: seq<Event>, m: nat)
    requires ProgramRun(cfg, ground, calleeOf, events) && m < |events| && events[m].Call?
    ensures var w' := Step(cfg, Evolve(cfg, events[..m]), events[m]); w'.owners == Ids(w'.live)
  {
    ProgramPrefix(cfg, ground, calleeOf, events, m + 1);
    EvolveStep(cfg, events, m);
    EveryProgramEnterRestoresTheTree(cfg, ground, calleeOf, events[..m + 1]);
  }

  lemma NextReturnTakes(cfg: Config, ground: Address, calleeOf: Address -> Address, events: seq<Event>, m: nat,
                        w0: World, i: nat, l: Line, w: World)
    requires ProgramRun(cfg, ground, calleeOf, events) && m < |events| && events[m].Return?
    requires w == Evolve(cfg, events[..m]) && Inv(cfg, w0) && Gone(w0, i, l, w)
    ensures MarksAsUnwound(cfg, w.engine, Hook(events[m]).value, l.index, MarkOfJump(events[m]))
  {
    var trail := Trail(cfg, events[..m]);
    ProgramPrefix(cfg, ground, calleeOf, events, m);
    RecordsFollowTheTrail(cfg, ground, calleeOf, events[..m]);
    InvHolds(cfg, events[..m]);
    GoneIsAbove(cfg, calleeOf, w0, i, l, w, trail);
    ExitIsExact(cfg, calleeOf, w, trail, events[m].exit);
  }

  // ---------- the line from then on ----------

  lemma OrphanBehindEvent(cfg: Config, w: World, ev: Event, w': World, k: nat, c: Chunk, line: string)
    requires Sound(cfg, w) && Possible(cfg, w, ev) && EventFits(cfg, w, ev) && w' == Step(cfg, w, ev)
    requires OrphanShows(w.engine, k, c, line)
    ensures OrphanShows(w'.engine, k, c, line)
  {
    StepRunsHook(cfg, w, ev);
    if Hook(ev).Some? {
      OrphanStays(cfg, w.engine, Hook(ev).value, w'.engine, k, c, line);
    }
  }

  /** Over every history no byte of an orphan line ever changes. */
  lemma {:induction false} OrphanInHistory(cfg: Config, events: seq<Event>, ws: seq<World>, n: nat, m: nat, k: nat,
                                           c: Chunk, line: string)
    requires FittingHistory(cfg, events, ws) && n <= m <= |events| && OrphanShows(ws[n].engine, k, c, line)
    ensures OrphanShows(ws[m].engine, k, c, line)
    decreases m
  {
    if n < m {
      OrphanInHistory(cfg, events, ws, n, m - 1, k, c, line);
      SoundInHistory(cfg, events, ws, m - 1);
      NextFits(cfg, events, ws, m - 1);
      OrphanBehindEvent(cfg, ws[m - 1], events[m - 1], ws[m], k, c, line);
    }
  }

  /** The hook that takes the record leaves its line an orphan, marked. */
  lemma TakenIsMarked(cfg: Config, w: World, ev: Event, w': World, i: nat, mark: char) returns (k: nat, line: string)
    requires Sound(cfg, w) && Possible(cfg, w, ev) && EventFits(cfg, w, ev) && w' == Step(cfg, w, ev)
    requires Hook(ev).Some? && i < |w.engine.frames| && w.engine.frames[i].lineStart >= 0 && w.engine.out.patchFd
    requires MarksAsUnwound(cfg, w.engine, Hook(ev).value, i, mark) && LineInv(cfg, w'.engine)
    ensures SaysUnwound(cfg, w'.engine.out.file, w.engine.frames[i], mark)
    ensures k < |w'.engine.out.chunks| && OrphanShows(w'.engine, k, w'.engine.out.chunks[k], line)
    ensures w'.engine.out.chunks[k].start == w.engine.frames[i].lineStart
    ensures w'.engine.out.chunks[k].depth == w.engine.frames[i].depth
  {
    StepRunsHook(cfg, w, ev);
    CallMarks(cfg, w.engine, Hook(ev).value, i, mark);
    k := PoppedLineIsOrphan(cfg, w.engine, Hook(ev).value, w'.engine, i);
    line := WhatOrphanShows(cfg, w'.engine, k);
  }

  lemma TakenInHistory(cfg: Config, events: seq<Event>, ws: seq<World>, n: nat, i: nat, mark: char)
    returns (k: nat, line: string)
    requires FittingHistory(cfg, events, ws) && n < |events| && Hook(events[n]).Some?
    requires i < |ws[n].engine.frames| && ws[n].engine.frames[i].lineStart >= 0 && ws[n].engine.out.patchFd
    requires MarksAsUnwound(cfg, ws[n].engine, Hook(events[n]).value, i, mark)
    ensures SaysUnwound(cfg, ws[n + 1].engine.out.file, ws[n].engine.frames[i], mark)
    ensures k < |ws[n + 1].engine.out.chunks| && OrphanShows(ws[n + 1].engine, k, ws[n + 1].engine.out.chunks[k], line)
    ensures ws[n + 1].engine.out.chunks[k].start == ws[n].engine.frames[i].lineStart
    ensures ws[n + 1].engine.out.chunks[k].depth == ws[n].engine.frames[i].depth
  {
    SoundInHistory(cfg, events, ws, n);
    SoundInHistory(cfg, events, ws, n + 1);
    NextFits(cfg, events, ws, n);
    k, line := TakenIsMarked(cfg, ws[n], events[n], ws[n + 1], i, mark);
  }

  /** Over every history: a mark that a reclaim leaves stays. */
  lemma MarksStay(cfg: Config, events: seq<Event>, ws: seq<World>, n: nat, i: nat, mark: char, m: nat)
    requires FittingHistory(cfg, events, ws) && n < m <= |events| && Hook(events[n]).Some?
    requires i < |ws[n].engine.frames| && ws[n].engine.frames[i].lineStart >= 0 && ws[n].engine.out.patchFd
    requires MarksAsUnwound(cfg, ws[n].engine, Hook(events[n]).value, i, mark)
    ensures SaysUnwound(cfg, ws[m].engine.out.file, ws[n].engine.frames[i], mark)
  {
    var k, line := TakenInHistory(cfg, events, ws, n, i, mark);
    SoundInHistory(cfg, events, ws, n + 1);
    OrphanInHistory(cfg, events, ws, n + 1, m, k, ws[n + 1].engine.out.chunks[k], line);
    MarksAreInTheLine(cfg, ws[n + 1].engine, k, ws[n].engine.frames[i], mark, line, ws[m].engine.out.file);
  }

  /**
  Over every run of a program: the frames that jumps leave say so from the next call or return on. Their lines, if they
  have any, carry '~' in both places, or '!' if that is a call made while an exception is in flight.
  */
  lemma FramesLeftByJumpsSaySo(cfg: Config, ground: Address, calleeOf: Address -> Address, events: seq<Event>,
                               ws: seq<World>, n: nat, m: nat, i: nat, l: Line, later: nat)
    requires FittingHistory(cfg, events, ws) && ProgramRun(cfg, ground, calleeOf, events)
    requires n < m < later <= |events| && LineShown(ws[n], i, l)
    requires events[n].Jump? && events[n].survivors <= i && forall t | n < t < m :: Idle(events[t])
    requires events[m].Call? || events[m].Return?
    ensures events[m].Call? && events[m].enter.uncaught > 0 ==>
              SaysUnwound(cfg, ws[later].engine.out.file, l.record, '!')
    ensures events[m].Return? || events[m].enter.uncaught == 0 ==>
              SaysUnwound(cfg, ws[later].engine.out.file, l.record, '~')
  {
    GoneAt(cfg, events, ws, n, m, i, l);
    SoundInHistory(cfg, events, ws, n);
    HistoryIsTheRun(cfg, events, ws, m);
    if events[m].Call? {
      NextCallTakes(cfg, ground, calleeOf, events, m, ws[n], i, l, ws[m]);
    } else {
      NextReturnTakes(cfg, ground, calleeOf, events, m, ws[n], i, l, ws[m]);
    }
    MarksStay(cfg, events, ws, m, l.index, MarkOfJump(events[m]), later);
  }

  /**
  Over every history: the records that a catch finds strictly below it, and the noexcept stub not above it, are taken,
  and the lines of their frames say '!' from then on.
  */
  lemma FramesUnwoundToACatchSaySo(cfg: Config, events: seq<Event>, ws: seq<World>, n: nat, x: CatchInput, j: nat,
                                   later: nat)
    requires FittingHistory(cfg, events, ws) && n < later <= |events| && events[n] == Caught(x) && !x.resolveThrows
    requires ws[n].engine.out.patchFd && j < |ws[n].engine.frames| && ws[n].engine.frames[j].lineStart >= 0
    requires if x.isTerminateStub
             then !OffStack(cfg.bounds, x.level + 1) && ws[n].engine.frames[j].level <= x.level
             else !OffStack(cfg.bounds, x.level) && ws[n].engine.frames[j].level < x.level
    ensures j >= |ws[n + 1].engine.frames|
    ensures SaysUnwound(cfg, ws[later].engine.out.file, ws[n].engine.frames[j], '!')
  {
    SoundInHistory(cfg, events, ws, n);
    CatchTakes(cfg, ws[n].engine.frames, x, j);
    NextFits(cfg, events, ws, n);
    CatchCuts(cfg, ws[n], x);
    MarksStay(cfg, events, ws, n, j, '!', later);
  }

  lemma CatchTakes(cfg: Config, frames: seq<FrameRecord>, x: CatchInput, j: nat)
    requires Shaped(cfg, frames) && !x.resolveThrows && j < |frames|
    requires if x.isTerminateStub then !OffStack(cfg.bounds, x.level + 1) && frames[j].level <= x.level
             else !OffStack(cfg.bounds, x.level) && frames[j].level < x.level
    ensures j >= CatchKeeps(cfg, frames, x)
  {
    if x.isTerminateStub {
      StubTakesItsOwnLevel(cfg, frames, x, j);
    } else {
      CatchTakesWhatIsBelow(cfg, frames, x, j);
    }
  }
}
