/**
Exactness from what a program does, without a word about records: one callee per physical call site, debug
information that covers its calls, no jump that leaves a host together with a function inlined into it, and no
return of a frame above which a jump left a call from the same place. Then every enter of the run restores the tree.
*/
module ProgramExactness {
  import opened Common
  import opened FrameReconcile
  import opened TraceFile
  import opened Hooks
  import opened HookLemmas
  import opened LiveStack
  import opened Exactness
  import opened PhysicalExactness
  import opened NestedExactness

  /**
  The live stack as the last call or return left it. The frames above the ones that are still alive have been left by
  jumps since.
  */
  function Trail(cfg: Config, events: seq<Event>): seq<Frame> {
    if events == [] then []
    else
      var last := events[|events| - 1];
      if last.Call? || last.Return? then Evolve(cfg, events).live else Trail(cfg, events[..|events| - 1])
  }

  // ---------- what the program is asked for ----------

  /** A jump down to `k` frames leaves no host of a function that it, or a jump before it, has left as well. */
  predicate SparesHosts(trail: seq<Frame>, k: nat) {
    forall j | k <= j < |trail| && InHost(trail[..j], trail[j]) :: k > 0 && trail[j].level == trail[k - 1].level
  }

  /** No jump has left a call from the returning frame's own call site since the last call or return. */
  predicate ReturnsAlone(live: seq<Frame>, trail: seq<Frame>) {
    live != [] ==> forall j | |live| <= j < |trail| ::
      !(trail[j].callee == live[|live| - 1].callee && trail[j].caller == live[|live| - 1].caller)
  }

  /** If jumps have left functions inlined into the calling frame, the call is logged and its parent is named. */
  ghost predicate ParentTold(cfg: Config, w: World, trail: seq<Frame>, x: EnterInput) {
    w.live != [] && |w.live| < |trail| && trail[|w.live|].level == w.live[|w.live| - 1].level ==>
      EnterLogs(cfg, w.engine, x) && InnermostNamed(w, x.resolution.parentBase)
  }

  /** A physical call from a site that always calls one function, or one inlined into the host its chain names. */
  ghost predicate ProgramCall(cfg: Config, ground: Address, calleeOf: Address -> Address, w: World, trail: seq<Frame>,
                              f: Frame, x: EnterInput) {
    && !x.roomThrows && x.chain.Chain? && NewName(cfg, w, f, x)
    && (|| (OwnFrame(ground, w.live, f) && |x.chain.names| == 1
            && f.callee == calleeOf(f.caller) && ParentTold(cfg, w, trail, x))
        || (InHost(w.live, f) && |x.chain.names| >= 2 && InnermostNamed(w, x.chain.names[1])))
  }

  ghost predicate ProgramEvent(cfg: Config, ground: Address, calleeOf: Address -> Address, w: World,
                               trail: seq<Frame>, ev: Event) {
    match ev
    case Call(f, x) => ProgramCall(cfg, ground, calleeOf, w, trail, f, x)
    case Return(x) => ReturnsAlone(w.live, trail) && OnThreadStack(cfg.bounds, x.key.level)
    case Jump(k) => SparesHosts(trail, k)
    case Caught(_) => true
    case Other(_) => true
  }

  ghost predicate ProgramRun(cfg: Config, ground: Address, calleeOf: Address -> Address, events: seq<Event>) {
    && PossibleRun(cfg, events)
    && forall i | 0 <= i < |events| ::
         ProgramEvent(cfg, ground, calleeOf, Evolve(cfg, events[..i]), Trail(cfg, events[..i]), events[i])
  }

  // ---------- what the records are then ----------

  /** Every frame of its own is the one function its call site calls. */
  predicate Rooted(calleeOf: Address -> Address, trail: seq<Frame>) {
    forall j | 0 <= j < |trail| :: InHost(trail[..j], trail[j]) || trail[j].callee == calleeOf(trail[j].caller)
  }

  /** What was inlined into a frame that is gone is gone from the records' top layer only. */
  predicate LeftClean(live: seq<Frame>, trail: seq<Frame>) {
    forall j | |live| <= j < |trail| && InHost(trail[..j], trail[j]) ::
      live != [] && trail[j].level == live[|live| - 1].level
  }

  /** Records are frames of the trail, in place, the live ones among them. */
  ghost predicate OnTrail(calleeOf: Address -> Address, w: World, trail: seq<Frame>) {
    && w.live <= trail && |w.live| <= |w.owners| == |w.engine.frames| <= |trail|
    && w.owners == Ids(trail)[..|w.owners|]
    && (forall j | 0 <= j < |w.engine.frames| :: Matches(w.engine.frames[j], trail[j]))
    && Rooted(calleeOf, trail) && LeftClean(w.live, trail)
  }

  /** So what vanished from the entering frame's slot were calls of the same function. */
  lemma TrailClearsSlot(cfg: Config, ground: Address, calleeOf: Address -> Address, w: World, trail: seq<Frame>,
                        f: Frame)
    requires OnTrail(calleeOf, w, trail) && NestedLive(ground, w.live)
    requires OwnFrame(ground, w.live, f) && f.callee == calleeOf(f.caller)
    ensures SlotClear(w.engine.frames, |w.live|, f)
  {
    InnermostIsHigher(ground, w.live, f);
  }

  /** The conditions on records that exactness of one call asks for follow. */
  lemma ProgramCallIsKnown(cfg: Config, ground: Address, calleeOf: Address -> Address, w: World, trail: seq<Frame>,
                           f: Frame, x: EnterInput)
    requires OnTrail(calleeOf, w, trail) && NestedLive(ground, w.live)
    requires ProgramCall(cfg, ground, calleeOf, w, trail, f, x)
    ensures KnownCall(cfg, ground, w, f, x)
  {
    if OwnFrame(ground, w.live, f) && f.callee == calleeOf(f.caller) {
      TrailClearsSlot(cfg, ground, calleeOf, w, trail, f);
    }
    if |w.live| < |w.engine.frames| {
      assert Matches(w.engine.frames[|w.live|], trail[|w.live|]);
    }
  }

  lemma RootedPush(calleeOf: Address -> Address, live: seq<Frame>, f: Frame)
    requires Rooted(calleeOf, live) && (InHost(live, f) || f.callee == calleeOf(f.caller))
    ensures Rooted(calleeOf, live + [f])
  {
    forall j | 0 <= j <= |live|
      ensures var more := live + [f]; InHost(more[..j], more[j]) || more[j].callee == calleeOf(more[j].caller)
    {
      assert (live + [f])[..j] == live[..j];
      assert live[..|live|] == live;
    }
  }

  lemma RootedShorter(calleeOf: Address -> Address, trail: seq<Frame>, live: seq<Frame>)
    requires Rooted(calleeOf, trail) && live <= trail
    ensures Rooted(calleeOf, live)
  {
    assert forall j | 0 <= j < |live| :: live[..j] == trail[..j];
  }

  /** Where the records are exactly the live frames, the live stack is its own trail. */
  lemma ExactIsOnTrail(cfg: Config, calleeOf: Address -> Address, w: World)
    requires Inv(cfg, w) && w.engine.overflow == 0 && w.owners == Ids(w.live) && Rooted(calleeOf, w.live)
    ensures OnTrail(calleeOf, w, w.live)
  {
    assert w.owners[..|w.live|] == Ids(w.live);
    InPlace(cfg, w);
  }

  lemma TrailCall(cfg: Config, ground: Address, calleeOf: Address -> Address, w: World, trail: seq<Frame>,
                  f: Frame, x: EnterInput)
    requires Inv(cfg, w) && w.engine.overflow == 0 && Nested(ground, w) && OnTrail(calleeOf, w, trail)
    requires Possible(cfg, w, Call(f, x)) && ProgramCall(cfg, ground, calleeOf, w, trail, f, x)
    ensures var w' := Step(cfg, w, Call(f, x)); OnTrail(calleeOf, w', w'.live)
  {
    ProgramCallIsKnown(cfg, ground, calleeOf, w, trail, f, x);
    NestedCall(cfg, ground, w, f, x);
    StepSound(cfg, w, Call(f, x));
    RootedShorter(calleeOf, trail, w.live);
    RootedPush(calleeOf, w.live, f);
    ExactIsOnTrail(cfg, calleeOf, Step(cfg, w, Call(f, x)));
  }

  /** The returning frame's record is the topmost one from its call site, so it is the one found. */
  lemma ExitIsExact(cfg: Config, calleeOf: Address -> Address, w: World, trail: seq<Frame>, x: ExitInput)
    requires Inv(cfg, w) && w.engine.overflow == 0 && OnTrail(calleeOf, w, trail)
    requires Possible(cfg, w, Return(x)) && ReturnsAlone(w.live, trail) && OnThreadStack(cfg.bounds, x.key.level)
    ensures w.engine.frames != [] && ExitIndex(w.engine.frames, x.key, x.tailCalled, cfg.bounds) == |w.live| - 1
  {
    var own := |w.live| - 1;
    InPlaceOnTrail(cfg, calleeOf, w, trail);
    assert RecordAt(w.engine.frames, w.owners, w.live[own], own);
    forall j | own < j < |w.engine.frames|
      ensures !SameActivationSite(w.engine.frames[j], x.key)
    {
      assert Matches(w.engine.frames[j], trail[j]);
    }
    assert TopmostAtSite(w.engine.frames, x.key) == own;
    LowerAreOthers(cfg, w, x, own);
  }

  lemma LiveOwners(owners: seq<nat>, live: seq<Frame>, trail: seq<Frame>)
    requires live <= trail && |live| <= |owners| <= |trail| && owners == Ids(trail)[..|owners|]
    ensures owners[..|live|] == Ids(live)
  {
  }

  lemma InPlaceOnTrail(cfg: Config, calleeOf: Address -> Address, w: World, trail: seq<Frame>)
    requires Inv(cfg, w) && w.engine.overflow == 0 && OnTrail(calleeOf, w, trail)
    ensures w.recorded == |w.live| && w.owners[..|w.live|] == Ids(w.live)
    ensures forall i | 0 <= i < |w.live| :: RecordAt(w.engine.frames, w.owners, w.live[i], i)
  {
    LiveOwners(w.owners, w.live, trail);
    LiveRecordsInPlace(cfg, w);
  }

  lemma LowerAreOthers(cfg: Config, w: World, x: ExitInput, own: nat)
    requires Possible(cfg, w, Return(x)) && own == |w.live| - 1 < |w.engine.frames|
    requires forall i | 0 <= i < |w.live| :: RecordAt(w.engine.frames, w.owners, w.live[i], i)
    requires TopmostAtSite(w.engine.frames, x.key) == own
    ensures ExitIndex(w.engine.frames, x.key, x.tailCalled, cfg.bounds) == own
            || !OnThreadStack(cfg.bounds, x.key.level)
            || !OnThreadStack(cfg.bounds, w.engine.frames[|w.engine.frames| - 1].level)
  {
    assert forall i | 0 <= i < own :: w.engine.frames[i].level == w.live[i].level;
    if x.tailCalled {
      assert SiteRun(w.engine.frames, x.key, own, own);
    }
  }

  lemma TrailReturn(cfg: Config, calleeOf: Address -> Address, w: World, trail: seq<Frame>, x: ExitInput)
    requires Inv(cfg, w) && w.engine.overflow == 0 && OnTrail(calleeOf, w, trail)
    requires Possible(cfg, w, Return(x)) && ReturnsAlone(w.live, trail) && OnThreadStack(cfg.bounds, x.key.level)
    ensures var w' := Step(cfg, w, Return(x)); OnTrail(calleeOf, w', w'.live)
  {
    ExitIsExact(cfg, calleeOf, w, trail, x);
    InPlaceOnTrail(cfg, calleeOf, w, trail);
    ReturnPops(cfg, w, x);
    StepSound(cfg, w, Return(x));
    ExactAfterReturn(cfg, calleeOf, w, trail, Step(cfg, w, Return(x)));
  }

  lemma IdsOfPrefix(owners: seq<nat>, live: seq<Frame>, n: nat)
    requires n <= |live| <= |owners| && owners[..|live|] == Ids(live)
    ensures owners[..n] == Ids(live[..n])
  {
    assert owners[..n] == owners[..|live|][..n];
  }

  lemma ExactAfterReturn(cfg: Config, calleeOf: Address -> Address, w: World, trail: seq<Frame>, w': World)
    requires w.live != [] && w.live <= trail && Rooted(calleeOf, trail)
    requires |w.live| <= |w.owners| && w.owners[..|w.live|] == Ids(w.live)
    requires Inv(cfg, w') && w'.engine.overflow == 0
    requires w'.live == w.live[..|w.live| - 1] && w'.owners == w.owners[..|w.live| - 1]
    ensures OnTrail(calleeOf, w', w'.live)
  {
    IdsOfPrefix(w.owners, w.live, |w.live| - 1);
    RootedButLast(calleeOf, trail, w.live);
    ExactIsOnTrail(cfg, calleeOf, w');
  }

  lemma RootedButLast(calleeOf: Address -> Address, trail: seq<Frame>, live: seq<Frame>)
    requires Rooted(calleeOf, trail) && live <= trail && live != []
    ensures Rooted(calleeOf, live[..|live| - 1])
  {
    assert live[..|live| - 1] <= trail;
    RootedShorter(calleeOf, trail, live[..|live| - 1]);
  }

  lemma TrailJump(cfg: Config, calleeOf: Address -> Address, w: World, trail: seq<Frame>, k: nat)
    requires OnTrail(calleeOf, w, trail) && k <= |w.live| && SparesHosts(trail, k)
    ensures OnTrail(calleeOf, Step(cfg, w, Jump(k)), trail)
  {
  }

  lemma TrailCaught(cfg: Config, calleeOf: Address -> Address, w: World, trail: seq<Frame>, x: CatchInput)
    requires Inv(cfg, w) && w.engine.overflow == 0 && OnTrail(calleeOf, w, trail) && Possible(cfg, w, Caught(x))
    ensures OnTrail(calleeOf, Step(cfg, w, Caught(x)), trail)
  {
    InPlaceOnTrail(cfg, calleeOf, w, trail);
    CatchCuts(cfg, w, x);
    CatchKeepsLive(cfg, w, x);
    TrailCut(calleeOf, w, Step(cfg, w, Caught(x)), trail, CatchKeeps(cfg, w.engine.frames, x));
  }

  lemma TrailCut(calleeOf: Address -> Address, w: World, w': World, trail: seq<Frame>, keep: nat)
    requires OnTrail(calleeOf, w, trail) && |w.live| <= keep <= |w.engine.frames| && CutAbove(w, w', keep)
    ensures OnTrail(calleeOf, w', trail)
  {
  }

  lemma TrailOther(cfg: Config, calleeOf: Address -> Address, w: World, trail: seq<Frame>, call: HookCall)
    requires OnTrail(calleeOf, w, trail)
    ensures OnTrail(calleeOf, Step(cfg, w, Other(call)), trail)
  {
  }

  /** The trail behind one more event. */
  function NextTrail(w': World, trail: seq<Frame>, ev: Event): seq<Frame> {
    if ev.Call? || ev.Return? then w'.live else trail
  }

  lemma TrailStep(cfg: Config, ground: Address, calleeOf: Address -> Address, w: World, trail: seq<Frame>, ev: Event)
    requires Inv(cfg, w) && w.engine.overflow == 0 && Nested(ground, w) && OnTrail(calleeOf, w, trail)
    requires Possible(cfg, w, ev) && ProgramEvent(cfg, ground, calleeOf, w, trail, ev)
    ensures OnTrail(calleeOf, Step(cfg, w, ev), NextTrail(Step(cfg, w, ev), trail, ev))
  {
    match ev
    case Call(f, x) => TrailCall(cfg, ground, calleeOf, w, trail, f, x);
    case Return(x) => TrailReturn(cfg, calleeOf, w, trail, x);
    case Jump(k) => TrailJump(cfg, calleeOf, w, trail, k);
    case Caught(x) => TrailCaught(cfg, calleeOf, w, trail, x);
    case Other(call) => TrailOther(cfg, calleeOf, w, trail, call);
  }

  lemma ProgramStepNested(cfg: Config, ground: Address, calleeOf: Address -> Address, w: World, trail: seq<Frame>,
                          ev: Event)
    requires Inv(cfg, w) && w.engine.overflow == 0 && Nested(ground, w) && OnTrail(calleeOf, w, trail)
    requires Possible(cfg, w, ev) && ProgramEvent(cfg, ground, calleeOf, w, trail, ev)
    ensures Nested(ground, Step(cfg, w, ev)) && Step(cfg, w, ev).engine.overflow == 0
  {
    if ev.Call? {
      ProgramCallIsKnown(cfg, ground, calleeOf, w, trail, ev.frame, ev.enter);
    }
    NestedStep(cfg, ground, w, ev);
  }

  lemma ProgramPrefix(cfg: Config, ground: Address, calleeOf: Address -> Address, events: seq<Event>, n: nat)
    requires ProgramRun(cfg, ground, calleeOf, events) && n <= |events|
    ensures ProgramRun(cfg, ground, calleeOf, events[..n])
  {
    PossiblePrefix(cfg, events, n);
    assert forall i | 0 <= i < n :: events[..n][..i] == events[..i];
  }

  /** After every event of such a program's run the records are on its trail. */
  lemma {:induction false} RecordsFollowTheTrail(cfg: Config, ground: Address, calleeOf: Address -> Address,
                                                 events: seq<Event>)
    requires ProgramRun(cfg, ground, calleeOf, events)
    ensures var w := Evolve(cfg, events);
            OnTrail(calleeOf, w, Trail(cfg, events)) && Nested(ground, w) && w.engine.overflow == 0
  {
    if events != [] {
      var n := |events| - 1;
      ProgramPrefix(cfg, ground, calleeOf, events, n);
      RecordsFollowTheTrail(cfg, ground, calleeOf, events[..n]);
      InvHolds(cfg, events[..n]);
      TrailStep(cfg, ground, calleeOf, Evolve(cfg, events[..n]), Trail(cfg, events[..n]), events[n]);
      ProgramStepNested(cfg, ground, calleeOf, Evolve(cfg, events[..n]), Trail(cfg, events[..n]), events[n]);
    }
  }

  lemma CallOfRunIsKnown(cfg: Config, ground: Address, calleeOf: Address -> Address, events: seq<Event>, i: nat)
    requires ProgramRun(cfg, ground, calleeOf, events) && i < |events| && events[i].Call?
    ensures KnownCall(cfg, ground, Evolve(cfg, events[..i]), events[i].frame, events[i].enter)
  {
    ProgramPrefix(cfg, ground, calleeOf, events, i);
    RecordsFollowTheTrail(cfg, ground, calleeOf, events[..i]);
    ProgramCallIsKnown(cfg, ground, calleeOf, Evolve(cfg, events[..i]), Trail(cfg, events[..i]),
                       events[i].frame, events[i].enter);
  }

  /** Nothing about records need be asked: each call is one the exactness of NestedExactness is about. */
  lemma ProgramRunIsKnown(cfg: Config, ground: Address, calleeOf: Address -> Address, events: seq<Event>)
    requires ProgramRun(cfg, ground, calleeOf, events)
    ensures KnownRun(cfg, ground, events)
  {
    forall i | 0 <= i < |events| && events[i].Call?
      ensures KnownCall(cfg, ground, Evolve(cfg, events[..i]), events[i].frame, events[i].enter)
    {
      CallOfRunIsKnown(cfg, ground, calleeOf, events, i);
    }
  }

  /**
  Over every run of such a program, whatever jumps and catches leave: after every call and every return the records
  are exactly the live frames.
  */
  lemma EveryProgramEnterRestoresTheTree(cfg: Config, ground: Address, calleeOf: Address -> Address, events: seq<Event>)
    requires ProgramRun(cfg, ground, calleeOf, events)
    requires events != [] && (events[|events| - 1].Call? || events[|events| - 1].Return?)
    ensures Evolve(cfg, events).owners == Ids(Evolve(cfg, events).live)
  {
    RecordsFollowTheTrail(cfg, ground, calleeOf, events);
  }
}
