/**
The strongest case: physical frames of fixed size, one callee per call site, and inline chains that
are known. Then every enter leaves records for exactly the live frames, however many frames
vanished before it.
*/
module PhysicalExactness {
  import opened Common
  import opened FrameReconcile
  import opened TraceFile
  import opened Hooks
  import opened HookLemmas
  import opened LiveStack
  import opened Exactness

  /** A physical call, from a site that always calls the same function, with a known chain. */
  predicate PhysicalCall(ground: Address, calleeOf: Address -> Address, live: seq<Frame>, f: Frame, x: EnterInput) {
    && f.calleeLevel < f.level
    && f.level == CalleeLevel(ground, live)
    && f.callee == calleeOf(f.caller)
    && !x.roomThrows
    && x.chain.Chain? && |x.chain.names| == 1
  }

  /** Where the next callee of the innermost frame enters. */
  function CalleeLevel(ground: Address, live: seq<Frame>): Address {
    if live == [] then ground else live[|live| - 1].calleeLevel
  }

  predicate PhysicalLive(ground: Address, live: seq<Frame>) {
    forall i | 0 <= i < |live| :: live[i].calleeLevel < live[i].level == CalleeLevel(ground, live[..i])
  }

  /** The live frames' records at the bottom; above them only deeper records, one callee per site. */
  ghost predicate ExactBelow(ground: Address, calleeOf: Address -> Address, w: World) {
    && |w.live| <= |w.owners| == |w.engine.frames|
    && w.owners[..|w.live|] == Ids(w.live)
    && PhysicalLive(ground, w.live)
    && (forall j | 0 <= j < |w.engine.frames| :: w.engine.frames[j].callee == calleeOf(w.engine.frames[j].caller))
    && (forall j | |w.live| <= j < |w.engine.frames| :: w.engine.frames[j].level <= CalleeLevel(ground, w.live))
  }

  lemma LiveRecordIndex(w: World, n: nat, keep: int)
    requires StrictlyIncreasing(w.owners) && n < |w.live| <= |w.owners|
    requires w.owners[..|w.live|] == Ids(w.live)
    requires RecordBelow(w.engine.frames, w.owners, w.live[n], keep)
    ensures n < keep
  {
    var j :| RecordAt(w.engine.frames, w.owners, w.live[n], j) && j < keep;
    assert w.owners[n] == w.owners[..|w.live|][n] == w.live[n].id;
    assert j == n;
  }

  /** What the scan leaves above the live records is the entering frame itself, entered before: all of it is popped. */
  lemma RepeatsAreAllPopped(cfg: Config, frames: seq<FrameRecord>, live: nat, x: EnterInput)
    requires Shaped(cfg, frames) && OnThreadStack(cfg.bounds, x.key.level)
    requires x.chain.Chain? && |x.chain.names| == 1
    requires forall j | live <= j < |frames| ::
               frames[j].level <= x.key.level && (frames[j].caller == x.key.caller ==> frames[j].callee == x.key.callee)
    ensures KeptBeforeResolve(cfg, frames, x) <= live || |frames| < live
  {
    ScanLeaves(cfg, frames, x.key);
    var scan := KeptByScan(cfg, frames, x.key);
    var scanned := frames[..scan];
    if scan > live {
      assert scanned[scan - 1].level == x.key.level;
      var n := TopSegment(scanned, SameFrame(x.key));
      assert forall j | live <= j < scan :: SameFrame(x.key)(scanned[j]);
      assert n >= scan - live;
    }
  }

  lemma ExactEnterKeeps(cfg: Config, ground: Address, calleeOf: Address -> Address, w: World, f: Frame, x: EnterInput)
    requires Inv(cfg, w) && ExactBelow(ground, calleeOf, w) && w.engine.overflow == 0
    requires Possible(cfg, w, Call(f, x)) && PhysicalCall(ground, calleeOf, w.live, f, x)
    ensures EnterKeeps(cfg, w.engine, x) == |w.live|
  {
    if w.live != [] {
      EnterKeepsInnermost(cfg, w, f, x);
      LiveRecordIndex(w, |w.live| - 1, EnterKeeps(cfg, w.engine, x));
    }
    RepeatsAreAllPopped(cfg, w.engine.frames, |w.live|, x);
  }

  lemma ExactPush(ground: Address, calleeOf: Address -> Address, w: World, w': World, f: Frame)
    requires ExactBelow(ground, calleeOf, w)
    requires f.calleeLevel < f.level == CalleeLevel(ground, w.live) && f.callee == calleeOf(f.caller)
    requires |w'.engine.frames| == |w.live| + 1 && w'.engine.frames[..|w.live|] == w.engine.frames[..|w.live|]
    requires Matches(w'.engine.frames[|w.live|], f)
    requires w'.owners == w.owners[..|w.live|] + [f.id] && w'.live == w.live + [f]
    ensures ExactBelow(ground, calleeOf, w') && w'.owners == Ids(w'.live)
  {
    forall i | 0 <= i < |w'.live|
      ensures w'.live[i].calleeLevel < w'.live[i].level == CalleeLevel(ground, w'.live[..i])
    {
      if i < |w.live| {
        assert w'.live[..i] == w.live[..i];
      } else {
        assert w'.live[..i] == w.live;
      }
    }
    forall j | 0 <= j < |w'.engine.frames|
      ensures w'.engine.frames[j].callee == calleeOf(w'.engine.frames[j].caller)
    {
      assert j < |w.live| ==> w'.engine.frames[j] == w'.engine.frames[..|w.live|][j];
    }
    assert w'.owners == Ids(w'.live);
  }

  lemma ExactCall(cfg: Config, ground: Address, calleeOf: Address -> Address, w: World, f: Frame, x: EnterInput)
    requires Inv(cfg, w) && ExactBelow(ground, calleeOf, w) && w.engine.overflow == 0
    requires Possible(cfg, w, Call(f, x)) && PhysicalCall(ground, calleeOf, w.live, f, x)
    ensures var w' := Step(cfg, w, Call(f, x));
            ExactBelow(ground, calleeOf, w') && w'.owners == Ids(w'.live) && w'.engine.overflow == 0
  {
    ExactEnterKeeps(cfg, ground, calleeOf, w, f, x);
    StepPushes(cfg, w, f, x);
    ExactPush(ground, calleeOf, w, Step(cfg, w, Call(f, x)), f);
  }

  /** Live frames leave from the top, records are truncated above the survivors. */
  lemma ExactShrink(ground: Address, calleeOf: Address -> Address, w: World, w': World, n: nat, keep: nat)
    requires ExactBelow(ground, calleeOf, w) && n <= |w.live| && n <= keep <= |w.engine.frames|
    requires forall i | 0 <= i < |w.live| :: RecordAt(w.engine.frames, w.owners, w.live[i], i)
    requires w'.engine.frames == w.engine.frames[..keep] && w'.owners == w.owners[..keep] && w'.live == w.live[..n]
    ensures ExactBelow(ground, calleeOf, w')
  {
    assert w'.owners[..n] == w.owners[..|w.live|][..n];
    assert Ids(w.live)[..n] == Ids(w.live[..n]);
    PhysicalShorter(ground, w.live, n);
    forall j | n <= j < keep
      ensures w.engine.frames[j].level <= CalleeLevel(ground, w'.live)
    {
      OthersBelow(ground, calleeOf, w, n, j);
    }
  }

  lemma OthersBelow(ground: Address, calleeOf: Address -> Address, w: World, n: nat, j: nat)
    requires ExactBelow(ground, calleeOf, w) && n <= |w.live| && n <= j < |w.engine.frames|
    requires forall i | 0 <= i < |w.live| :: RecordAt(w.engine.frames, w.owners, w.live[i], i)
    ensures w.engine.frames[j].level <= CalleeLevel(ground, w.live[..n])
  {
    LevelsDropFrom(ground, w.live, n, if j < |w.live| then j else |w.live|);
  }

  lemma PhysicalShorter(ground: Address, live: seq<Frame>, n: nat)
    requires PhysicalLive(ground, live) && n <= |live|
    ensures PhysicalLive(ground, live[..n])
  {
    assert forall i | 0 <= i < n :: live[..n][..i] == live[..i];
  }

  /** Everything from live frame n on is at or below the level where callees of frame n - 1 enter. */
  lemma {:induction false} LevelsDropFrom(ground: Address, live: seq<Frame>, n: nat, i: nat)
    requires PhysicalLive(ground, live) && n <= i <= |live|
    ensures i < |live| ==> live[i].level <= CalleeLevel(ground, live[..n])
    ensures i == |live| ==> CalleeLevel(ground, live) <= CalleeLevel(ground, live[..n])
    decreases i
  {
    assert live[..|live|] == live;
    if i > n {
      LevelsDropFrom(ground, live, n, i - 1);
      assert CalleeLevel(ground, live[..i]) == live[i - 1].calleeLevel < live[i - 1].level;
    }
  }

  lemma LiveRecordsInPlace(cfg: Config, w: World)
    requires Inv(cfg, w) && w.recorded == |w.live| <= |w.owners|
    requires w.owners[..|w.live|] == Ids(w.live)
    ensures forall i | 0 <= i < |w.live| :: RecordAt(w.engine.frames, w.owners, w.live[i], i)
  {
    forall i | 0 <= i < |w.live|
      ensures RecordAt(w.engine.frames, w.owners, w.live[i], i)
    {
      assert Recorded(w.engine.frames, w.owners, w.live[i]);
      var j :| RecordAt(w.engine.frames, w.owners, w.live[i], j);
      assert w.owners[i] == w.owners[..|w.live|][i] == w.live[i].id;
      assert j == i;
    }
  }

  lemma ReturnKeepsLive(cfg: Config, w: World, x: ExitInput)
    requires Inv(cfg, w) && Possible(cfg, w, Return(x)) && w.engine.overflow == 0
             && w.recorded == |w.live| <= |w.owners|
    requires w.owners[..|w.live|] == Ids(w.live)
    ensures w.engine.frames != [] && |w.live| - 1 <= ExitIndex(w.engine.frames, x.key, x.tailCalled, cfg.bounds)
  {
    ExitKeepsNext(cfg, w, x);
    if |w.live| > 1 {
      LiveRecordIndex(w, |w.live| - 2, ExitIndex(w.engine.frames, x.key, x.tailCalled, cfg.bounds));
    }
  }

  lemma ExactReturn(cfg: Config, ground: Address, calleeOf: Address -> Address, w: World, x: ExitInput)
    requires Inv(cfg, w) && ExactBelow(ground, calleeOf, w) && w.engine.overflow == 0
    requires Possible(cfg, w, Return(x))
    ensures ExactBelow(ground, calleeOf, Step(cfg, w, Return(x))) && Step(cfg, w, Return(x)).engine.overflow == 0
  {
    ReturnPops(cfg, w, x);
    ReturnKeepsLive(cfg, w, x);
    LiveRecordsInPlace(cfg, w);
    ExactShrink(ground, calleeOf, w, Step(cfg, w, Return(x)), |w.live| - 1,
                ExitIndex(w.engine.frames, x.key, x.tailCalled, cfg.bounds));
  }

  lemma CatchKeepsLive(cfg: Config, w: World, x: CatchInput)
    requires Inv(cfg, w) && Possible(cfg, w, Caught(x)) && w.recorded == |w.live| <= |w.owners|
    requires w.owners[..|w.live|] == Ids(w.live)
    ensures |w.live| <= CatchKeeps(cfg, w.engine.frames, x)
  {
    if w.live != [] {
      CatchKeepsRecorded(cfg, w, x);
      LiveRecordIndex(w, |w.live| - 1, CatchKeeps(cfg, w.engine.frames, x));
    }
  }

  lemma ExactCaught(cfg: Config, ground: Address, calleeOf: Address -> Address, w: World, x: CatchInput)
    requires Inv(cfg, w) && ExactBelow(ground, calleeOf, w) && w.engine.overflow == 0
    requires Possible(cfg, w, Caught(x))
    ensures ExactBelow(ground, calleeOf, Step(cfg, w, Caught(x))) && Step(cfg, w, Caught(x)).engine.overflow == 0
  {
    CatchCuts(cfg, w, x);
    CatchKeepsLive(cfg, w, x);
    ExactCut(cfg, ground, calleeOf, w, Step(cfg, w, Caught(x)), CatchKeeps(cfg, w.engine.frames, x));
  }

  lemma ExactCut(cfg: Config, ground: Address, calleeOf: Address -> Address, w: World, w': World, keep: nat)
    requires Inv(cfg, w) && ExactBelow(ground, calleeOf, w) && w.engine.overflow == 0
    requires |w.live| <= keep <= |w.engine.frames| && CutAbove(w, w', keep)
    ensures ExactBelow(ground, calleeOf, w')
  {
    LiveRecordsInPlace(cfg, w);
    assert w.live[..|w.live|] == w.live;
    ExactShrink(ground, calleeOf, w, w', |w.live|, keep);
  }

  lemma ExactJump(cfg: Config, ground: Address, calleeOf: Address -> Address, w: World, k: nat)
    requires Inv(cfg, w) && ExactBelow(ground, calleeOf, w) && w.engine.overflow == 0 && k <= |w.live|
    ensures ExactBelow(ground, calleeOf, Step(cfg, w, Jump(k)))
  {
    LiveRecordsInPlace(cfg, w);
    ExactShrink(ground, calleeOf, w, Step(cfg, w, Jump(k)), k, |w.engine.frames|);
  }

  lemma ExactOther(cfg: Config, ground: Address, calleeOf: Address -> Address, w: World, call: HookCall)
    requires ExactBelow(ground, calleeOf, w) && w.engine.overflow == 0
    ensures ExactBelow(ground, calleeOf, Step(cfg, w, Other(call))) && Step(cfg, w, Other(call)).engine.overflow == 0
  {
  }

  lemma ExactStep(cfg: Config, ground: Address, calleeOf: Address -> Address, w: World, ev: Event)
    requires Inv(cfg, w) && ExactBelow(ground, calleeOf, w) && w.engine.overflow == 0 && Possible(cfg, w, ev)
    requires ev.Call? ==> PhysicalCall(ground, calleeOf, w.live, ev.frame, ev.enter)
    ensures ExactBelow(ground, calleeOf, Step(cfg, w, ev)) && Step(cfg, w, ev).engine.overflow == 0
    ensures ev.Call? ==> Step(cfg, w, ev).owners == Ids(Step(cfg, w, ev).live)
  {
    match ev
    case Call(f, x) => ExactCall(cfg, ground, calleeOf, w, f, x);
    case Return(x) => ExactReturn(cfg, ground, calleeOf, w, x);
    case Jump(k) => ExactJump(cfg, ground, calleeOf, w, k);
    case Caught(x) => ExactCaught(cfg, ground, calleeOf, w, x);
    case Other(call) => ExactOther(cfg, ground, calleeOf, w, call);
  }

  ghost predicate PhysicalRun(cfg: Config, ground: Address, calleeOf: Address -> Address, events: seq<Event>) {
    && PossibleRun(cfg, events)
    && forall i | 0 <= i < |events| && events[i].Call? ::
         PhysicalCall(ground, calleeOf, Evolve(cfg, events[..i]).live, events[i].frame, events[i].enter)
  }

  lemma PhysicalPrefix(cfg: Config, ground: Address, calleeOf: Address -> Address, events: seq<Event>, n: nat)
    requires PhysicalRun(cfg, ground, calleeOf, events) && n <= |events|
    ensures PhysicalRun(cfg, ground, calleeOf, events[..n])
  {
    PossiblePrefix(cfg, events, n);
    assert forall i | 0 <= i < n :: events[..n][..i] == events[..i];
  }

  /** After every enter of such a run the records are exactly the live frames, whatever vanished before. */
  lemma {:induction false} EveryEnterRestoresTheTree(
    cfg: Config, ground: Address, calleeOf: Address -> Address, events: seq<Event>)
    requires PhysicalRun(cfg, ground, calleeOf, events)
    ensures var w := Evolve(cfg, events);
            && ExactBelow(ground, calleeOf, w) && w.engine.overflow == 0
            && (events != [] && events[|events| - 1].Call? ==> w.owners == Ids(w.live))
  {
    if events != [] {
      var n := |events| - 1;
      PhysicalPrefix(cfg, ground, calleeOf, events, n);
      EveryEnterRestoresTheTree(cfg, ground, calleeOf, events[..n]);
      InvHolds(cfg, events[..n]);
      ExactStep(cfg, ground, calleeOf, Evolve(cfg, events[..n]), events[n]);
    }
  }
}
