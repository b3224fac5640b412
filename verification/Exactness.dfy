/**
How close the record stack comes to the live stack: exactly, when every frame leaves through its
hook; up to records that share a slot with a live neighbour, when frames vanish but the callees of
one frame all enter at one level; exactly again for physical frames with one callee per call site.
*/
module Exactness {
  import opened Common
  import opened FrameReconcile
  import opened TraceFile
  import opened Hooks
  import opened HookLemmas
  import opened LiveStack

  // ---------- runs in which no frame vanishes ----------

  function Ids(frames: seq<Frame>): (ids: seq<nat>)
    ensures |ids| == |frames| && forall i | 0 <= i < |ids| :: ids[i] == frames[i].id
  {
    if frames == [] then [] else Ids(frames[..|frames| - 1]) + [frames[|frames| - 1].id]
  }

  /** Records are the live frames in order; what is missing at the top is counted as overflow. */
  ghost predicate Paired(w: World) {
    && w.recorded <= |w.live| == w.recorded + w.engine.overflow
    && w.owners == Ids(w.live[..w.recorded])
    && |w.owners| == |w.engine.frames|
  }

  lemma PairedTop(cfg: Config, w: World)
    requires Inv(cfg, w) && Paired(w) && w.recorded > 0
    ensures RecordAt(w.engine.frames, w.owners, w.live[w.recorded - 1], w.recorded - 1)
  {
    var j :| RecordAt(w.engine.frames, w.owners, w.live[w.recorded - 1], j);
    assert w.owners[w.recorded - 1] == w.live[w.recorded - 1].id;
    assert j == w.recorded - 1;
  }

  lemma PairedCall(cfg: Config, w: World, f: Frame, x: EnterInput)
    requires Inv(cfg, w) && Possible(cfg, w, Call(f, x)) && Paired(w)
    ensures Paired(Step(cfg, w, Call(f, x)))
  {
    if w.engine.overflow == 0 && !x.roomThrows {
      PairedKeepsAll(cfg, w, f, x);
      StepPushes(cfg, w, f, x);
      PairedPush(w, Step(cfg, w, Call(f, x)), f);
    }
  }

  lemma PairedKeepsAll(cfg: Config, w: World, f: Frame, x: EnterInput)
    requires Inv(cfg, w) && Possible(cfg, w, Call(f, x)) && Paired(w) && w.engine.overflow == 0
    ensures EnterKeeps(cfg, w.engine, x) == |w.engine.frames|
  {
    if w.live != [] {
      PairedTop(cfg, w);
      EnterKeepsInnermost(cfg, w, f, x);
      PairedAt(w, w.recorded - 1);
    }
  }

  lemma PairedPush(w: World, w': World, f: Frame)
    requires Paired(w) && w.recorded == |w.live|
    requires |w'.engine.frames| == |w.engine.frames| + 1 && w'.owners == w.owners + [f.id] && w'.live == w.live + [f]
    requires w'.recorded == |w'.live| && w'.engine.overflow == 0
    ensures Paired(w')
  {
    assert w'.live[..w'.recorded] == w'.live && w.live[..w.recorded] == w.live;
  }

  /** On a paired stack, an exit finds the record on top. */
  lemma PairedExitIsTop(cfg: Config, w: World, x: ExitInput)
    requires Inv(cfg, w) && Possible(cfg, w, Return(x)) && Paired(w) && w.engine.overflow == 0
    ensures w.engine.frames != []
    ensures ExitIndex(w.engine.frames, x.key, x.tailCalled, cfg.bounds) == |w.engine.frames| - 1
  {
    ExitKeepsNext(cfg, w, x);
    if |w.live| >= 2 {
      PairedAt(w, |w.live| - 2);
    }
  }

  lemma PairedAt(w: World, n: nat)
    requires Paired(w) && n < w.recorded && StrictlyIncreasing(w.owners)
    ensures forall keep | RecordBelow(w.engine.frames, w.owners, w.live[n], keep) :: n < keep
  {
    assert w.owners[n] == w.live[n].id;
    forall keep | RecordBelow(w.engine.frames, w.owners, w.live[n], keep)
      ensures n < keep
    {
      var j :| RecordAt(w.engine.frames, w.owners, w.live[n], j) && j < keep;
      assert j == n;
    }
  }

  lemma PairedShorter(w: World, w': World, n: nat)
    requires Paired(w) && n <= w.recorded
    requires w'.owners == w.owners[..n] && w'.engine.frames == w.engine.frames[..n]
    requires |w'.live| <= |w.live| && w'.live == w.live[..|w'.live|] && w'.recorded == n
    requires |w'.live| == n + w'.engine.overflow
    ensures Paired(w')
  {
    assert w'.live[..n] == w.live[..n];
    assert Ids(w.live[..w.recorded])[..n] == Ids(w.live[..n]);
  }

  lemma PairedReturn(cfg: Config, w: World, x: ExitInput)
    requires Inv(cfg, w) && Possible(cfg, w, Return(x)) && Paired(w)
    ensures Paired(Step(cfg, w, Return(x)))
  {
    if w.engine.overflow == 0 {
      PairedExitIsTop(cfg, w, x);
      ReturnPops(cfg, w, x);
      PairedShorter(w, Step(cfg, w, Return(x)), w.recorded - 1);
    } else {
      PairedShorter(w, Step(cfg, w, Return(x)), w.recorded);
    }
  }

  lemma PairedCaught(cfg: Config, w: World, x: CatchInput)
    requires Inv(cfg, w) && Possible(cfg, w, Caught(x)) && Paired(w)
    ensures Paired(Step(cfg, w, Caught(x)))
  {
    CatchCuts(cfg, w, x);
    if w.recorded > 0 {
      CatchKeepsRecorded(cfg, w, x);
    }
    PairedCut(w, Step(cfg, w, Caught(x)), CatchKeeps(cfg, w.engine.frames, x));
  }

  lemma PairedCut(w: World, w': World, keep: nat)
    requires Paired(w) && StrictlyIncreasing(w.owners) && keep <= |w.engine.frames| && CutAbove(w, w', keep)
    requires w.recorded > 0 ==> RecordBelow(w.engine.frames, w.owners, w.live[w.recorded - 1], keep)
    ensures Paired(w')
  {
    if w.recorded > 0 {
      PairedAt(w, w.recorded - 1);
    }
    assert keep == |w.owners|;
  }

  /** A step in which no frame vanishes keeps the pairing. */
  lemma PairedStep(cfg: Config, w: World, ev: Event)
    requires Inv(cfg, w) && Possible(cfg, w, ev) && Paired(w) && !ev.Jump?
    ensures Paired(Step(cfg, w, ev))
  {
    match ev
    case Call(f, x) => PairedCall(cfg, w, f, x);
    case Return(x) => PairedReturn(cfg, w, x);
    case Caught(x) => PairedCaught(cfg, w, x);
    case Other(_) =>
  }

  /**
  Pairing over every well-nested run, with arbitrary allocation failures: the records are exactly the
  live frames that did not overflow, and records plus overflow count is the call depth.
  */
  lemma {:induction false} WellNestedRunsPairExactly(cfg: Config, events: seq<Event>)
    requires PossibleRun(cfg, events) && forall i | 0 <= i < |events| :: !events[i].Jump?
    ensures var w := Evolve(cfg, events);
            Paired(w) && |w.engine.frames| + w.engine.overflow == |w.live|
  {
    if events != [] {
      var n := |events| - 1;
      PossiblePrefix(cfg, events, n);
      InvHolds(cfg, events[..n]);
      WellNestedRunsPairExactly(cfg, events[..n]);
      PairedStep(cfg, Evolve(cfg, events[..n]), events[n]);
    }
  }

  /**
  Every exit of a well-nested run meets its own enter: the exit rule picks the top record, which the
  exiting frame pushed, or the exiting frame has no record and an overflow slot is counted down.
  */
  lemma WellNestedExitsMeetTheirEnter(cfg: Config, events: seq<Event>, x: ExitInput)
    requires PossibleRun(cfg, events) && forall i | 0 <= i < |events| :: !events[i].Jump?
    requires Possible(cfg, Evolve(cfg, events), Return(x))
    ensures var w := Evolve(cfg, events);
            if w.engine.overflow == 0 then
              && |w.owners| == |w.engine.frames| > 0
              && ExitIndex(w.engine.frames, x.key, x.tailCalled, cfg.bounds) == |w.engine.frames| - 1
              && w.owners[|w.engine.frames| - 1] == w.live[|w.live| - 1].id
            else w.live[|w.live| - 1].id !in w.owners
  {
    WellNestedRunsPairExactly(cfg, events);
    InvHolds(cfg, events);
    if Evolve(cfg, events).engine.overflow == 0 {
      PairedExitIsTop(cfg, Evolve(cfg, events), x);
    }
  }

  // ---------- frames vanish, but all callees of one frame enter at one level ----------

  /** A frame of fixed size, called directly by an instrumented frame (or at ground level), or inlined. */
  predicate UniformCall(ground: Address, live: seq<Frame>, f: Frame) {
    && f.calleeLevel < f.level
    && (if live == [] then f.level == ground
        else
          var p := live[|live| - 1];
          f.level == p.calleeLevel || (f.level == p.level && f.calleeLevel == p.calleeLevel))
  }

  predicate UniformLive(ground: Address, live: seq<Frame>) {
    forall i | 0 <= i < |live| :: UniformCall(ground, live[..i], live[i])
  }

  /** Record j was pushed after the first i live frames and before the next one. */
  predicate Between(w: World, j: int, i: int) {
    && 0 <= j < |w.owners| && 0 <= i <= |w.live|
    && (i > 0 ==> w.live[i - 1].id < w.owners[j])
    && (i < |w.live| ==> w.owners[j] < w.live[i].id)
  }

  /** Where a stale record may still be: beside a live neighbour, or, above all live frames, deeper. */
  predicate TidySpot(ground: Address, live: seq<Frame>, level: Address, i: int)
    requires 0 <= i <= |live|
  {
    || (i > 0 && level == live[i - 1].level)
    || (if i < |live| then level == live[i].level
        else level <= (if i > 0 then live[i - 1].calleeLevel else ground))
  }

  ghost predicate Tidy(ground: Address, w: World) {
    && |w.owners| == |w.engine.frames|
    && UniformLive(ground, w.live)
    && forall j, i | Between(w, j, i) :: TidySpot(ground, w.live, w.engine.frames[j].level, i)
  }

  lemma TidyTruncate(ground: Address, w: World, w': World, keep: nat)
    requires Tidy(ground, w) && keep <= |w.engine.frames|
    requires w'.engine.frames == w.engine.frames[..keep] && w'.owners == w.owners[..keep] && w'.live == w.live
    ensures Tidy(ground, w')
  {
    assert forall j, i | Between(w', j, i) :: Between(w, j, i);
  }

  lemma UniformShorter(ground: Address, live: seq<Frame>, k: nat)
    requires UniformLive(ground, live) && k <= |live|
    ensures UniformLive(ground, live[..k])
  {
    assert forall i | 0 <= i < k :: live[..k][..i] == live[..i];
  }

  /** The innermost live frame leaves; whatever is recorded above the next one is its descendant. */
  lemma TidyWithoutInnermost(ground: Address, w: World, w': World)
    requires Tidy(ground, w) && StrictlyIncreasing(w.owners)
    requires w.live != [] && Recorded(w.engine.frames, w.owners, w.live[|w.live| - 1])
    requires w'.engine.frames == w.engine.frames && w'.owners == w.owners && w'.live == w.live[..|w.live| - 1]
    ensures Tidy(ground, w')
  {
    var n := |w.live| - 1;
    UniformShorter(ground, w.live, n);
    var own :| RecordAt(w.engine.frames, w.owners, w.live[n], own);
    forall j, i | Between(w', j, i)
      ensures TidySpot(ground, w'.live, w.engine.frames[j].level, i)
    {
      if i < n {
        assert Between(w, j, i);
      } else {
        TidyDescendant(ground, w, j, own);
      }
    }
  }

  lemma TidyDescendant(ground: Address, w: World, j: int, own: int)
    requires Tidy(ground, w) && StrictlyIncreasing(w.owners)
    requires w.live != [] && RecordAt(w.engine.frames, w.owners, w.live[|w.live| - 1], own)
    requires 0 <= j < |w.owners| && (|w.live| >= 2 ==> w.live[|w.live| - 2].id < w.owners[j])
    ensures TidySpot(ground, w.live[..|w.live| - 1], w.engine.frames[j].level, |w.live| - 1)
  {
    var n := |w.live| - 1;
    var f := w.live[n];
    assert UniformCall(ground, w.live[..n], f);
    if w.owners[j] < f.id {
      assert Between(w, j, n);
    } else if w.owners[j] > f.id {
      assert Between(w, j, n + 1);
    } else {
      assert own == j;
    }
  }

  lemma {:induction false} TidyAfterJump(cfg: Config, ground: Address, w: World, k: nat)
    requires Tidy(ground, w) && Inv(cfg, w) && w.recorded == |w.live| && k <= |w.live|
    ensures Tidy(ground, Step(cfg, w, Jump(k)))
    decreases |w.live|
  {
    if k < |w.live| {
      var one := Step(cfg, w, Jump(|w.live| - 1));
      assert Recorded(w.engine.frames, w.owners, w.live[|w.live| - 1]);
      TidyWithoutInnermost(ground, w, one);
      StepSound(cfg, w, Jump(|w.live| - 1));
      TidyAfterJump(cfg, ground, one, k);
      JumpTwice(cfg, w, k);
    } else {
      assert w.live[..k] == w.live;
    }
  }

  lemma JumpTwice(cfg: Config, w: World, k: nat)
    requires k < |w.live| && w.recorded == |w.live|
    ensures Step(cfg, Step(cfg, w, Jump(|w.live| - 1)), Jump(k)) == Step(cfg, w, Jump(k))
  {
    assert w.live[..|w.live| - 1][..k] == w.live[..k];
  }

  lemma TidyCall(cfg: Config, ground: Address, w: World, f: Frame, x: EnterInput)
    requires Tidy(ground, w) && Inv(cfg, w) && Possible(cfg, w, Call(f, x)) && w.engine.overflow == 0 && !x.roomThrows
    requires UniformCall(ground, w.live, f)
    ensures Tidy(ground, Step(cfg, w, Call(f, x))) && Step(cfg, w, Call(f, x)).engine.overflow == 0
  {
    StepPushes(cfg, w, f, x);
    ScanLeaves(cfg, w.engine.frames, x.key);
    KeptFitsScan(cfg, w.engine, x);
    TidyPush(ground, w, Step(cfg, w, Call(f, x)), f, EnterKeeps(cfg, w.engine, x));
  }

  lemma TidyPush(ground: Address, w: World, w': World, f: Frame, keep: nat)
    requires Tidy(ground, w) && UniformCall(ground, w.live, f) && keep <= |w.engine.frames|
    requires forall i | 0 <= i < |w.live| :: w.live[i].id < f.id
    requires forall j | 0 <= j < |w.owners| :: w.owners[j] < f.id
    requires forall j | 0 <= j < keep :: w.engine.frames[j].level >= f.level
    requires |w'.engine.frames| == keep + 1 && w.engine.frames[..keep] <= w'.engine.frames
    requires w'.owners == w.owners[..keep] + [f.id] && w'.live == w.live + [f]
    ensures Tidy(ground, w')
  {
    UniformPush(ground, w.live, f);
    forall j, i | Between(w', j, i)
      ensures TidySpot(ground, w'.live, w'.engine.frames[j].level, i)
    {
      assert j != keep;
      assert Between(w, j, i);
      assert w'.engine.frames[j] == w.engine.frames[j];
    }
  }

  lemma UniformPush(ground: Address, live: seq<Frame>, f: Frame)
    requires UniformLive(ground, live) && UniformCall(ground, live, f)
    ensures UniformLive(ground, live + [f])
  {
    forall i | 0 <= i < |live| + 1
      ensures UniformCall(ground, (live + [f])[..i], (live + [f])[i])
    {
      if i < |live| {
        assert (live + [f])[..i] == live[..i];
      } else {
        assert (live + [f])[..i] == live;
      }
    }
  }

  /** A run of fixed-size, fully instrumented frames in which no allocation fails. */
  ghost predicate UniformRun(cfg: Config, ground: Address, events: seq<Event>) {
    && PossibleRun(cfg, events)
    && forall i | 0 <= i < |events| && events[i].Call? ::
         && !events[i].enter.roomThrows
         && UniformCall(ground, Evolve(cfg, events[..i]).live, events[i].frame)
  }

  lemma UniformPrefix(cfg: Config, ground: Address, events: seq<Event>, n: nat)
    requires UniformRun(cfg, ground, events) && n <= |events|
    ensures UniformRun(cfg, ground, events[..n])
  {
    PossiblePrefix(cfg, events, n);
    assert forall i | 0 <= i < n :: events[..n][..i] == events[..i];
  }

  lemma {:induction false} TidyHolds(cfg: Config, ground: Address, events: seq<Event>)
    requires UniformRun(cfg, ground, events)
    ensures Tidy(ground, Evolve(cfg, events)) && Evolve(cfg, events).engine.overflow == 0
  {
    if events != [] {
      var n := |events| - 1;
      UniformPrefix(cfg, ground, events, n);
      TidyHolds(cfg, ground, events[..n]);
      InvHolds(cfg, events[..n]);
      var w := Evolve(cfg, events[..n]);
      TidyStep(cfg, ground, w, events[n]);
    }
  }

  lemma TidyReturn(cfg: Config, ground: Address, w: World, x: ExitInput)
    requires Inv(cfg, w) && Tidy(ground, w) && Possible(cfg, w, Return(x)) && w.engine.overflow == 0
    ensures Tidy(ground, Step(cfg, w, Return(x))) && Step(cfg, w, Return(x)).engine.overflow == 0
  {
    var gone := w.(live := w.live[..|w.live| - 1]);
    assert Recorded(w.engine.frames, w.owners, w.live[|w.live| - 1]);
    TidyWithoutInnermost(ground, w, gone);
    ExitKeepsNext(cfg, w, x);
    ReturnPops(cfg, w, x);
    TidyTruncate(ground, gone, Step(cfg, w, Return(x)), ExitIndex(w.engine.frames, x.key, x.tailCalled, cfg.bounds));
  }

  lemma TidyStep(cfg: Config, ground: Address, w: World, ev: Event)
    requires Inv(cfg, w) && Tidy(ground, w) && Possible(cfg, w, ev) && w.engine.overflow == 0
    requires ev.Call? ==> !ev.enter.roomThrows && UniformCall(ground, w.live, ev.frame)
    ensures Tidy(ground, Step(cfg, w, ev)) && Step(cfg, w, ev).engine.overflow == 0
  {
    match ev
    case Call(f, x) => TidyCall(cfg, ground, w, f, x);
    case Return(x) => TidyReturn(cfg, ground, w, x);
    case Jump(k) => TidyAfterJump(cfg, ground, w, k);
    case Caught(x) => TidyCaught(cfg, ground, w, x);
    case Other(_) => TidyTruncate(ground, w, Step(cfg, w, ev), |w.engine.frames|);
  }

  lemma TidyCaught(cfg: Config, ground: Address, w: World, x: CatchInput)
    requires Tidy(ground, w) && w.engine.overflow == 0
    ensures Tidy(ground, Step(cfg, w, Caught(x))) && Step(cfg, w, Caught(x)).engine.overflow == 0
  {
    CatchCuts(cfg, w, x);
    TidyTruncate(ground, w, Step(cfg, w, Caught(x)), CatchKeeps(cfg, w.engine.frames, x));
  }

  /**
  Exactness of the tree: after every enter of such a run the entering frame's record is on top, every
  live frame has its record, and every other record shares its level and caller with the live frame
  just above it or the one just below it.
  */
  lemma StaleRecordsShareASlot(cfg: Config, ground: Address, events: seq<Event>)
    requires UniformRun(cfg, ground, events) && events != [] && events[|events| - 1].Call?
    ensures var w := Evolve(cfg, events);
            && |w.owners| == |w.engine.frames| > 0 && |w.live| > 0
            && w.owners[|w.owners| - 1] == w.live[|w.live| - 1].id
            && (forall i | 0 <= i < |w.live| :: Recorded(w.engine.frames, w.owners, w.live[i]))
            && StaleOnlyBesideLive(w)
  {
    var w := Evolve(cfg, events);
    TidyHolds(cfg, ground, events);
    InvHolds(cfg, events);
    EnteredIsOnTop(cfg, ground, events);
    TidyIsBesideLive(cfg, ground, w);
  }

  lemma TidyIsBesideLive(cfg: Config, ground: Address, w: World)
    requires Inv(cfg, w) && Tidy(ground, w) && w.recorded == |w.live| > 0
    requires w.owners != [] && w.owners[|w.owners| - 1] == w.live[|w.live| - 1].id
    ensures StaleOnlyBesideLive(w)
  {
    forall j, i | Between(w, j, i)
      ensures i < |w.live|
      ensures SameSlot(w.engine.frames[j], w.live[i]) || (i > 0 && SameSlot(w.engine.frames[j], w.live[i - 1]))
    {
      TidySlot(cfg, ground, w, j, i);
    }
  }

  predicate SameSlot(r: FrameRecord, f: Frame) {
    r.level == f.level && r.caller == f.caller
  }

  /** Every record of a frame that is not alive lies below some live frame's, in a live neighbour's slot. */
  ghost predicate StaleOnlyBesideLive(w: World)
    requires |w.owners| == |w.engine.frames|
  {
    forall j, i | Between(w, j, i) ::
      && i < |w.live|
      && (SameSlot(w.engine.frames[j], w.live[i]) || (i > 0 && SameSlot(w.engine.frames[j], w.live[i - 1])))
  }

  lemma EnteredIsOnTop(cfg: Config, ground: Address, events: seq<Event>)
    requires UniformRun(cfg, ground, events) && events != [] && events[|events| - 1].Call?
    ensures var w := Evolve(cfg, events);
            && |w.owners| > 0 && |w.live| > 0 && w.owners[|w.owners| - 1] == w.live[|w.live| - 1].id
  {
    var n := |events| - 1;
    UniformPrefix(cfg, ground, events, n);
    TidyHolds(cfg, ground, events[..n]);
    InvHolds(cfg, events[..n]);
    StepPushes(cfg, Evolve(cfg, events[..n]), events[n].frame, events[n].enter);
  }

  /** Below the entered frame, a tidy spot at a neighbour's level is that neighbour's slot. */
  lemma TidySlot(cfg: Config, ground: Address, w: World, j: int, i: int)
    requires Inv(cfg, w) && Tidy(ground, w) && w.recorded == |w.live| > 0 && Between(w, j, i)
    requires w.owners[|w.owners| - 1] == w.live[|w.live| - 1].id
    ensures i < |w.live|
    ensures SameSlot(w.engine.frames[j], w.live[i]) || (i > 0 && SameSlot(w.engine.frames[j], w.live[i - 1]))
  {
    assert w.owners[j] <= w.owners[|w.owners| - 1];
    var above :| RecordAt(w.engine.frames, w.owners, w.live[i], above);
    assert j < above;
    if i > 0 {
      var below :| RecordAt(w.engine.frames, w.owners, w.live[i - 1], below);
      assert below < j;
    }
  }
}
