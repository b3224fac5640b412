/**
Where the claims around the reconciliation rules stop being true: for each, a stack that shows it
and the exact condition under which the rule does what is claimed.
*/
module Limits {
  import opened Common
  import opened FrameReconcile
  import opened TraceFile
  import opened Hooks
  import opened HookLemmas
  import opened LiveStack
  import opened Histories

  const ONE_STACK := StackBounds(0, 0, false)
  const PLAIN := Config(false, false, false, ONE_STACK)

  /** A logged record of the function named `name`. */
  function Rec(callee: Address, caller: Address, level: Address, name: string): FrameRecord {
    FrameRecord(true, callee, caller, level, Some(name), 0, 0, -1, 0)
  }

  // ---------- exits: the run of a recursion need not be contiguous ----------

  /** A call without a line or debug information. */
  function PlainCall(f: Frame): Event {
    Call(f, EnterInput(FrameKey(f.callee, f.caller, f.level), false, false, Chain([]), Untraced, Full, 0, 0))
  }

  function PlainRecord(f: Frame): FrameRecord {
    FrameRecord(false, f.callee, f.caller, f.level, None, 0, 0, -1, 0)
  }

  /** g, called from 9, and f call each other from 10 and 20, four deep. */
  const RECURSION: seq<Frame> := [Frame(0, 2, 9, 110, 100), Frame(1, 1, 20, 100, 90), Frame(2, 2, 10, 90, 80),
                                  Frame(3, 1, 20, 80, 70), Frame(4, 2, 10, 70, 60)]

  function Calls(n: nat): seq<Event>
    requires n <= |RECURSION|
  {
    seq(n, i requires 0 <= i < n => PlainCall(RECURSION[i]))
  }

  function Records(n: nat): seq<FrameRecord>
    requires n <= |RECURSION|
  {
    seq(n, i requires 0 <= i < n => PlainRecord(RECURSION[i]))
  }

  function Recursing(n: nat): World
    requires n <= |RECURSION|
  {
    World(Engine(Records(n), -1, 0, CLOSED), seq(n, i => i), RECURSION[..n], n, n)
  }

  /** A call deeper than every record pops nothing. */
  lemma DeeperCallPushes(e: Engine, f: Frame)
    requires e.overflow == 0 && forall j | 0 <= j < |e.frames| :: e.frames[j].level > f.level
    ensures Enter(PLAIN, e, PlainCall(f).enter) == e.(frames := e.frames + [PlainRecord(f)])
  {
    var x := PlainCall(f).enter;
    ScanKeepsSlot(PLAIN, e.frames, x.key);
    assert KeptByScan(PLAIN, e.frames, x.key) == |e.frames| by {
      if e.frames != [] {
        assert e.frames[|e.frames| - 1].level > f.level;
      }
    }
    assert e.frames[..|e.frames|] == e.frames;
    RoomyEnter(PLAIN, e, x, e);
  }

  /** The run of these events is possible and ends in this world. */
  ghost predicate Reaches(cfg: Config, events: seq<Event>, w: World) {
    PossibleRun(cfg, events) && Evolve(cfg, events) == w
  }

  lemma OneMoreEvent(cfg: Config, events: seq<Event>, w: World, ev: Event)
    requires Reaches(cfg, events, w) && Possible(cfg, w, ev)
    ensures Reaches(cfg, events + [ev], Step(cfg, w, ev))
  {
    var more := events + [ev];
    assert more[..|events|] == events;
    assert forall i | 0 <= i < |events| :: more[..i] == events[..i] && more[i] == events[i];
  }

  lemma RecursionSteps(n: nat)
    requires n < |RECURSION|
    ensures Step(PLAIN, Recursing(n), PlainCall(RECURSION[n])) == Recursing(n + 1)
  {
    DeeperCallPushes(Recursing(n).engine, RECURSION[n]);
    PushToRecursion(n, Enter(PLAIN, Recursing(n).engine, PlainCall(RECURSION[n]).enter));
  }

  lemma PushToRecursion(n: nat, e: Engine)
    requires n < |RECURSION| && e == Recursing(n).engine.(frames := Records(n) + [PlainRecord(RECURSION[n])])
    ensures e == Recursing(n + 1).engine
    ensures Recursing(n).owners[..n] + [RECURSION[n].id] == Recursing(n + 1).owners
    ensures Recursing(n).live + [RECURSION[n]] == Recursing(n + 1).live
  {
    assert Records(n) + [PlainRecord(RECURSION[n])] == Records(n + 1);
    assert RECURSION[n].id == n;
  }

  lemma RecursionIsPossible(n: nat)
    requires n < |RECURSION|
    ensures Possible(PLAIN, Recursing(n), PlainCall(RECURSION[n]))
  {
  }

  lemma RecursionStarts()
    ensures Reaches(PLAIN, Calls(0), Recursing(0))
  {
    assert Records(0) == [] && RECURSION[..0] == [];
  }

  lemma {:induction false} RecursionRuns(n: nat)
    requires n <= |RECURSION|
    ensures Reaches(PLAIN, Calls(n), Recursing(n))
  {
    if n == 0 {
      RecursionStarts();
    } else {
      RecursionRuns(n - 1);
      RecursionIsPossible(n - 1);
      RecursionSteps(n - 1);
      OneMoreEvent(PLAIN, Calls(n - 1), Recursing(n - 1), PlainCall(RECURSION[n - 1]));
      assert Calls(n) == Calls(n - 1) + [PlainCall(RECURSION[n - 1])];
    }
  }

  /** The outer f has jumped back out of the recursion. */
  function Jumped(): World {
    Recursing(5).(live := RECURSION[..2], recorded := 2)
  }

  lemma RecursionJumps()
    ensures Reaches(PLAIN, Calls(5) + [Jump(2)], Jumped())
  {
    RecursionRuns(5);
    OneMoreEvent(PLAIN, Calls(5), Recursing(5), Jump(2));
    assert Recursing(5).live[..2] == RECURSION[..2];
  }

  /**
  The outer f jumps back out of the recursion and returns with its own level: its record is not in the topmost run
  of its site, and the rule answers the inner f's record. (ExitPairingCalled gives the exact condition.)
  */
  lemma MutualRecursionHidesTheRecord()
    ensures Reaches(PLAIN, Calls(5) + [Jump(2)], Jumped())
    ensures var w, x := Jumped(), ExitInput(FrameKey(1, 20, 100), false, 0, 0);
            && Possible(PLAIN, w, Return(x))
            && RecordAt(w.engine.frames, w.owners, w.live[|w.live| - 1], 1)
            && !InTopRun(w.engine.frames, x.key, 1)
            && ExitIndex(w.engine.frames, x.key, x.tailCalled, ONE_STACK) == 3
  {
    RecursionJumps();
    RecursionExit();
  }

  lemma RecursionExit()
    ensures !InTopRun(Records(5), FrameKey(1, 20, 100), 1)
    ensures ExitIndex(Records(5), FrameKey(1, 20, 100), false, ONE_STACK) == 3
  {
    var records, key := Records(5), FrameKey(1, 20, 100);
    assert !SameActivationSite(records[4], key) && !SameActivationSite(records[2], key);
    assert TopmostAtSite(records, key) == 3;
    assert ExactLevelInRun(records, key, 2) == -1;
  }

  // ---------- overflow: the counter does not know that overflowed frames were jumped over ----------

  /** How far the counter exceeds the live frames without a record. */
  function Excess(w: World): int {
    w.engine.overflow - (|w.live| - w.recorded)
  }

  /** A jump leaves the counter exact if and only if it skips no overflowed frame. */
  lemma JumpKeepsOverflowExactIff(cfg: Config, w: World, k: nat)
    requires Inv(cfg, w) && Excess(w) == 0 && k <= |w.live|
    ensures Excess(Step(cfg, w, Jump(k))) == 0 <==> w.recorded == |w.live| || k == |w.live|
  {
  }

  /**
  Draining the counter before popping pairs the exit of a recorded frame with its record if and only if the counter
  is not in excess: otherwise the exit is taken for an overflowed frame's, and the record stays.
  */
  lemma ExcessSwallowsTheExitIff(cfg: Config, w: World, x: ExitInput)
    requires Inv(cfg, w) && Possible(cfg, w, Return(x)) && w.recorded == |w.live|
    ensures Step(cfg, w, Return(x)).engine.frames == w.engine.frames <==> Excess(w) > 0
    ensures Excess(w) > 0 ==> w.live[|w.live| - 1].id in Step(cfg, w, Return(x)).owners
  {
    assert Recorded(w.engine.frames, w.owners, w.live[|w.live| - 1]);
    var j :| RecordAt(w.engine.frames, w.owners, w.live[|w.live| - 1], j);
    if Excess(w) > 0 {
      assert Step(cfg, w, Return(x)).owners == w.owners;
    } else {
      ExitIsFinished(cfg, w.engine, x);
    }
  }

  /** The second call of the recursion, when the record stack cannot grow. */
  function CrowdedCall(): Event {
    Call(RECURSION[1], PlainCall(RECURSION[1]).enter.(roomThrows := true))
  }

  /** The outer frame is alone again, and the counter still counts the frame it jumped over. */
  function Alone(): World {
    World(Recursing(1).engine.(overflow := 1), Recursing(1).owners, RECURSION[..1], 1, 2)
  }

  lemma CrowdedCallOverflows()
    ensures Possible(PLAIN, Recursing(1), CrowdedCall())
    ensures Step(PLAIN, Recursing(1), CrowdedCall()) == Alone().(live := RECURSION[..2])
  {
    RecursionIsPossible(1);
    assert Recursing(1).live + [RECURSION[1]] == RECURSION[..2];
  }

  /**
  A call, one in it that finds no room for its record, and a jump back: one live frame, which has a record, and a
  counter in excess.
  */
  lemma JumpLeavesTheCounterInExcess()
    ensures Reaches(PLAIN, Calls(1) + [CrowdedCall()] + [Jump(1)], Alone())
    ensures Alone().recorded == |Alone().live| == 1 && Excess(Alone()) == 1
  {
    RecursionRuns(1);
    CrowdedCallOverflows();
    OneMoreEvent(PLAIN, Calls(1), Recursing(1), CrowdedCall());
    OneMoreEvent(PLAIN, Calls(1) + [CrowdedCall()], Alone().(live := RECURSION[..2]), Jump(1));
    assert RECURSION[..2][..1] == RECURSION[..1];
  }

  lemma ExcessStep(cfg: Config, w: World, ev: Event)
    requires Possible(cfg, w, ev) && Excess(w) > 0 && w.recorded <= |w.live|
    requires w.recorded <= |Step(cfg, w, ev).live|
    ensures var w' := Step(cfg, w, ev);
            Excess(w') >= Excess(w) && w'.recorded == w.recorded && w'.owners <= w.owners
  {
    match ev
    case Call(_, _) =>
    case Return(_) =>
    case Jump(_) =>
    case Caught(_) =>
    case Other(_) =>
  }

  /**
  While the counter is in excess, nothing called from the surviving frame is ever recorded, however much room there
  is by then, as long as that frame lives.
  */
  lemma {:induction false} ExcessRecordsNothing(cfg: Config, events: seq<Event>, ws: seq<World>, n: nat, m: nat)
    requires History(cfg, events, ws) && n <= m <= |events|
    requires Excess(ws[n]) > 0 && ws[n].recorded == |ws[n].live|
    requires forall t | n <= t <= m :: |ws[t].live| >= |ws[n].live|
    ensures Excess(ws[m]) >= Excess(ws[n]) && ws[m].recorded == ws[n].recorded && ws[m].owners <= ws[n].owners
    decreases m
  {
    if n < m {
      ExcessRecordsNothing(cfg, events, ws, n, m - 1);
      NextWorld(cfg, events, ws, m - 1);
      ExcessStep(cfg, ws[m - 1], events[m - 1]);
    }
  }

  // ---------- enters: a reused slot is only recognized by its caller or its callee ----------

  /**
  With a known chain and every record above the live ones at or below the entering level, the reclaims
  clear them all if and only if every one left by the scan was a call of the same function.
  */
  lemma SlotClearedIff(cfg: Config, frames: seq<FrameRecord>, live: nat, x: EnterInput)
    requires Shaped(cfg, frames) && OnThreadStack(cfg.bounds, x.key.level) && live <= |frames|
    requires x.chain.Chain? && |x.chain.names| == 1
    requires forall j | 0 <= j < live :: frames[j].level > x.key.level
    requires forall j | live <= j < |frames| :: frames[j].level <= x.key.level
    ensures KeptBeforeResolve(cfg, frames, x) == live <==>
            forall j | live <= j < |frames| && frames[j].level == x.key.level && frames[j].caller == x.key.caller ::
              frames[j].callee == x.key.callee
  {
    ScanLeaves(cfg, frames, x.key);
    var scan := KeptByScan(cfg, frames, x.key);
    ScanKeepsSlot(cfg, frames, x.key);
    var scanned := frames[..scan];
    if live > 0 {
      assert frames[live - 1].level > x.key.level;
      assert live - 1 < scan;
    }
    if scan > live {
      assert scanned[scan - 1].level == x.key.level;
      var n := TopSegment(scanned, SameFrame(x.key));
      assert n < scan ==> !SameFrame(x.key)(scanned[scan - 1 - n]);
      assert live > 0 ==> !SameFrame(x.key)(scanned[live - 1]);
    }
  }

  /** Records above the level, or in the entering frame's slot, survive the scan. */
  lemma ScanKeepsSlot(cfg: Config, frames: seq<FrameRecord>, key: FrameKey)
    ensures forall j | 0 <= j < |frames| && (frames[j].level > key.level
                                             || (frames[j].level == key.level && frames[j].caller == key.caller)) ::
              j < KeptByScan(cfg, frames, key)
  {
    if OnThreadStack(cfg.bounds, key.level) {
      assert forall i | KeptByScan(cfg, frames, key) <= i < |frames| :: DeadOnEnter(key, cfg.bounds)(frames[i]);
    }
  }

  function Entering(key: FrameKey, names: seq<string>, resolution: Resolution): EnterInput {
    EnterInput(key, false, false, Chain(names), resolution, Full, 0, 0)
  }

  /** An indirect call site that calls another function after the first one jumped out: the dead record stays. */
  lemma IndirectCallKeepsTheDeadRecord()
    ensures var records := [Rec(1, 5, 100, "p"), Rec(2, 10, 80, "d")];
            KeptBeforeResolve(PLAIN, records, Entering(FrameKey(3, 10, 80), ["e"], Untraced)) == 2
  {
    var records := [Rec(1, 5, 100, "p"), Rec(2, 10, 80, "d")];
    SlotClearedIff(PLAIN, records, 1, Entering(FrameKey(3, 10, 80), ["e"], Untraced));
    assert records[1].callee != 3;
  }

  /**
  An uninstrumented frame between two instrumented ones moves the next callee deeper: the dead sibling
  is above the entering level and stays, sharing no slot with anyone.
  */
  lemma UninstrumentedFrameKeepsTheDeadSibling()
    ensures var records := [Rec(1, 5, 100, "p"), Rec(2, 10, 80, "d")];
            KeptBeforeResolve(PLAIN, records, Entering(FrameKey(3, 11, 60), ["e"], Untraced)) == 2
  {
    var records := [Rec(1, 5, 100, "p"), Rec(2, 10, 80, "d")];
    ScanKeepsSlot(PLAIN, records, FrameKey(3, 11, 60));
    assert records[..2] == records;
  }

  /**
  A retry loop whose physical frame f was left by a jump out of a function x inlined into it: x's record
  hides f's from the repeat check, and with the chain ["f"] nothing else is known. Both stay.
  */
  lemma InlinedLeafHidesTheRepeatedFrame()
    ensures var records := [Rec(1, 5, 100, "p"), Rec(2, 10, 80, "f"), Rec(3, 10, 80, "x")];
            KeptBeforeResolve(PLAIN, records, Entering(FrameKey(2, 10, 80), ["f"], Untraced)) == 3
  {
    var records := [Rec(1, 5, 100, "p"), Rec(2, 10, 80, "f"), Rec(3, 10, 80, "x")];
    ScanKeepsSlot(PLAIN, records, FrameKey(2, 10, 80));
    assert records[..3] == records;
    assert !SameFrame(FrameKey(2, 10, 80))(records[2]);
  }

  // ---------- inline reclaims: when they would pop a live record ----------

  /**
  The repeat check reaches the innermost live frame's record at index `j` exactly when the chain does not
  start with a recursion and everything from `j` up is the entering frame's own site and level.
  */
  lemma RepeatsReachLiveIff(frames: seq<FrameRecord>, key: FrameKey, names: seq<string>, j: nat)
    requires j < |frames|
    ensures KeptAfterRepeats(frames, key, names) <= j <==>
              && !(|names| >= 2 && names[0] == names[1])
              && forall i | j <= i < |frames| :: SameFrame(key)(frames[i])
  {
    var n := TopSegment(frames, SameFrame(key));
    if |frames| - n <= j {
      assert forall i | j <= i < |frames| :: SameFrame(key)(frames[i]);
    } else {
      assert !SameFrame(key)(frames[|frames| - 1 - n]);
    }
  }

  /**
  f inlined into an uninstrumented g inlined into a live f: the chain f, g, f does not look recursive, the
  entering copy repeats the live one's site and level, and the live record is popped.
  */
  lemma HiddenInlineRecursionPopsALiveRecord()
    ensures var records := [Rec(1, 5, 100, "p"), Rec(2, 10, 80, "f")];
            KeptBeforeResolve(PLAIN, records, Entering(FrameKey(2, 10, 80), ["f", "g", "f"], Untraced)) == 1
  {
    var records := [Rec(1, 5, 100, "p"), Rec(2, 10, 80, "f")];
    var key := FrameKey(2, 10, 80);
    ScanKeepsSlot(PLAIN, records, key);
    assert records[..2] == records;
    RepeatsReachLiveIff(records, key, ["f", "g", "f"], 1);
    assert !SameFrame(key)(records[0]);
    RepeatsReachLiveIff(records, key, ["f", "g", "f"], 0);
    assert records[..1] == [records[0]];
    assert MatchInGroup([records[0]], 80, HasBaseName("g"), 1) == -1;
  }

  /**
  The reclaim above a name reaches the innermost live frame's record at index `j` exactly when the topmost
  record of the group that carries the name stands strictly below it.
  */
  lemma AboveNameReachesLiveIff(frames: seq<FrameRecord>, level: Address, name: string, j: nat)
    requires j < |frames|
    ensures |frames| - AboveMatch(frames, level, HasBaseName(name)) <= j <==>
              exists m :: 0 <= m < j && TopmostNamed(frames, level, name, m)
  {
    var m := MatchInGroup(frames, level, HasBaseName(name), |frames|);
    if 0 <= m {
      assert TopmostNamed(frames, level, name, m);
    }
    forall k | TopmostNamed(frames, level, name, k)
      ensures k == m
    {
    }
  }

  /** Index m is the topmost record of the top equal-level group that carries the base name. */
  predicate TopmostNamed(frames: seq<FrameRecord>, level: Address, name: string, m: int) {
    && 0 <= m < |frames| && Group(frames, level, m, |frames|)
    && HasBaseName(name)(frames[m])
    && forall k | m < k < |frames| :: !HasBaseName(name)(frames[k])
  }

  /**
  p is inlined into a host called "q" and calls an uninstrumented function whose base name is also "q",
  which calls f: the parent's name picks the host, and p's record is popped while p is alive.
  */
  lemma ParentNameCollisionPopsALiveRecord()
    ensures var records := [Rec(1, 5, 100, "q"), Rec(2, 5, 100, "p")];
            KeptByParent(PLAIN, records, FrameKey(3, 11, 60), "q") == 1
  {
    var records := [Rec(1, 5, 100, "q"), Rec(2, 5, 100, "p")];
    assert MatchInGroup(records, 100, HasBaseName("q"), 1) == 0;
    assert MatchInGroup(records, 100, HasBaseName("q"), 2) == 0;
  }

  // ---------- a record whose level was never derived ----------

  /**
  If the enter barrier were left before the level was derived, the record would carry the null level. The
  next enter would take it for dead exactly when the null address counts as on the thread's stack, that
  is, when the stack's extent is unknown (or starts at address 0).
  */
  lemma NullLevelPoppedIff(bounds: StackBounds, records: seq<FrameRecord>, key: FrameKey)
    requires records != [] && records[|records| - 1].level == 0
    requires key.level > 0 && OnThreadStack(bounds, key.level)
    ensures EnterDead(records, key, bounds) > 0 <==> !bounds.known || bounds.lo == 0
  {
    var top := records[|records| - 1];
    assert DeadOnEnter(key, bounds)(top) <==> OnThreadStack(bounds, 0);
  }

  /** So it is with the record of a frame for which an allocation failed before its level was derived. */
  lemma FrameWithoutLevelPoppedIff(cfg: Config, e: Engine, x: EnterInput, key: FrameKey)
    requires x.levelThrows && !x.roomThrows && e.overflow == 0
    requires key.level > 0 && OnThreadStack(cfg.bounds, key.level)
    ensures var e' := Enter(cfg, e, x);
            && e.frames <= e'.frames && |e'.frames| == |e.frames| + 1
            && (KeptByScan(cfg, e'.frames, key) <= |e.frames| <==> !cfg.bounds.known || cfg.bounds.lo == 0)
  {
    NullLevelPoppedIff(cfg.bounds, Enter(cfg, e, x).frames, key);
  }
}
