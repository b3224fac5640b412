/**
The tracer's state beside the truth it cannot see: the stack of frames that are really alive.
Frames are called, return through their exit hook, or vanish without one (longjmp, and Clang's
unwinding). The theorems say, over every run, that no hook ever pops the record of a frame that
is still alive.

Everything below works on one thread stack: levels drop strictly from a frame to the physical
frames it calls, and an inlined frame has its host's level and caller.
*/
module LiveStack {
  import opened Common
  import opened FrameReconcile
  import opened TraceFile
  import opened Hooks
  import opened HookLemmas

  /** A frame of the traced program. `calleeLevel` is where its callees enter when its size is fixed. */
  datatype Frame = Frame(id: nat, callee: Address, caller: Address, level: Address, calleeLevel: Address)

  /**
  `owners[j]` is the frame whose enter pushed record j; `recorded` counts the live frames, from the
  bottom, that have a record (the others overflowed). Both are history the tracer does not have.
  */
  datatype World = World(engine: Engine, owners: seq<nat>, live: seq<Frame>, recorded: nat, nextId: nat)

  const DAWN := World(START, [], [], 0, 0)

  datatype Event =
    | Call(frame: Frame, enter: EnterInput)
    | Return(exit: ExitInput)
    | Jump(survivors: nat)
    | Caught(catching: CatchInput)
    | Other(call: HookCall)  // an event line or the opening of the file

  function Min(a: nat, b: nat): nat { if a <= b then a else b }

  function Step(cfg: Config, w: World, ev: Event): World {
    match ev
    case Call(f, x) =>
      var e := Enter(cfg, w.engine, x);
      var pushed := w.engine.overflow == 0 && !x.roomThrows;
      if pushed && 0 < |e.frames| <= |w.owners| + 1
      then World(e, w.owners[..|e.frames| - 1] + [f.id], w.live + [f], |w.live| + 1, w.nextId + 1)
      else World(e, w.owners, w.live + [f], w.recorded, w.nextId + 1)
    case Return(x) =>
      var e := Exit(cfg, w.engine, x);
      var n := if w.live == [] then 0 else |w.live| - 1;
      World(e, w.owners[..Min(|e.frames|, |w.owners|)], w.live[..n], Min(w.recorded, n), w.nextId)
    case Jump(k) =>
      w.(live := w.live[..Min(k, |w.live|)], recorded := Min(w.recorded, k))
    case Caught(x) =>
      var e := Catch(cfg, w.engine, x);
      w.(engine := e, owners := w.owners[..Min(|e.frames|, |w.owners|)])
    case Other(call) =>
      if call.EventCall? || call.OpenCall? then w.(engine := Apply(cfg, w.engine, call)) else w
  }

  function Evolve(cfg: Config, events: seq<Event>): World {
    if events == [] then DAWN else Step(cfg, Evolve(cfg, events[..|events| - 1]), events[|events| - 1])
  }

  // ---------- what a traced program can do ----------

  predicate Innermost(w: World, f: Frame) {
    w.live != [] && w.live[|w.live| - 1] == f
  }

  /** `below` runs deeper than `above`, or is inlined into its physical frame. */
  predicate Deeper(above: Frame, below: Frame) {
    above.level > below.level || (above.level == below.level && above.caller == below.caller)
  }

  /** The record of the innermost live frame carries this base name. */
  ghost predicate InnermostNamed(w: World, name: string) {
    w.live != [] && exists j | 0 <= j < |w.owners| && j < |w.engine.frames| ::
      w.owners[j] == w.live[|w.live| - 1].id && HasBaseName(name)(w.engine.frames[j])
  }

  /** No record at the innermost live frame's level carries this base name. */
  ghost predicate NobodyNamed(w: World, name: string) {
    w.live != [] && forall j | 0 <= j < |w.engine.frames| ::
      w.engine.frames[j].level == w.live[|w.live| - 1].level ==> !HasBaseName(name)(w.engine.frames[j])
  }

  /** Debug information may be missing, but when it names a recorded function, it is the innermost live one. */
  ghost predicate Honest(w: World, name: string) {
    w.live == [] || InnermostNamed(w, name) || NobodyNamed(w, name)
  }

  /** The chain at the entering frame's site: not a hidden recursion, and its host is the innermost frame. */
  ghost predicate HonestChain(w: World, f: Frame, names: seq<string>) {
    && (w.live != [] && names != [] && !(|names| >= 2 && names[0] == names[1]) ==>
          var top := w.live[|w.live| - 1];
          !(top.callee == f.callee && top.caller == f.caller && top.level == f.level))
    && (|names| >= 2 && w.live != [] && w.live[|w.live| - 1].level == f.level ==> Honest(w, names[1]))
  }

  ghost predicate Possible(cfg: Config, w: World, ev: Event) {
    match ev
    case Call(f, x) =>
      && f.id == w.nextId
      && x.key == FrameKey(f.callee, f.caller, f.level)
      && OnThreadStack(cfg.bounds, f.level) && !x.levelThrows
      && (w.live != [] ==> Deeper(w.live[|w.live| - 1], f))
      && (x.chain.Chain? ==> HonestChain(w, f, x.chain.names))
      && (x.resolution.Resolved? && w.live != [] && w.live[|w.live| - 1].level > f.level ==>
            Honest(w, x.resolution.parentBase))
    case Return(x) =>
      && w.live != []
      && var f := w.live[|w.live| - 1];
         && x.key.callee == f.callee && x.key.caller == f.caller
         && ExitLevelOk(w.live, x.key.level, x.tailCalled)
    case Jump(k) => k <= |w.live|
    case Caught(x) =>
      && (forall i | 0 <= i < |w.live| ::
            if x.isTerminateStub then w.live[i].level > x.level else w.live[i].level >= x.level)
      && ((!x.isTerminateStub && x.chain.Chain? && x.chain.names != [] && w.live != []
           && w.live[|w.live| - 1].level == x.level) ==> Honest(w, x.chain.names[0]))
    case Other(call) => call.EventCall? || call.OpenCall?
  }

  /**
  The level an exit hook resolves to: the frame's own, or at worst one that no other live frame
  reaches down to; for a tail-called hook, one above the frame and not above any other live frame.
  */
  predicate ExitLevelOk(live: seq<Frame>, level: Address, tailCalled: bool)
    requires live != []
  {
    var f := live[|live| - 1];
    if tailCalled then f.level < level && forall i | 0 <= i < |live| - 1 :: live[i].level >= level
    else f.level == level || forall i | 0 <= i < |live| - 1 :: live[i].level > level
  }

  ghost predicate PossibleRun(cfg: Config, events: seq<Event>) {
    forall i | 0 <= i < |events| :: Possible(cfg, Evolve(cfg, events[..i]), events[i])
  }

  // ---------- the invariant ----------

  predicate Matches(r: FrameRecord, f: Frame) {
    r.callee == f.callee && r.caller == f.caller && r.level == f.level
  }

  /** The record of frame `f` stands at index `j`. */
  predicate RecordAt(frames: seq<FrameRecord>, owners: seq<nat>, f: Frame, j: int) {
    0 <= j < |frames| && j < |owners| && owners[j] == f.id && Matches(frames[j], f)
  }

  ghost predicate Recorded(frames: seq<FrameRecord>, owners: seq<nat>, f: Frame) {
    exists j :: RecordAt(frames, owners, f, j)
  }

  predicate LiveStacked(live: seq<Frame>) {
    forall i, j | 0 <= i < j < |live| :: Deeper(live[i], live[j]) && live[i].id < live[j].id
  }

  ghost predicate Inv(cfg: Config, w: World) {
    && |w.owners| == |w.engine.frames|
    && StrictlyIncreasing(w.owners)
    && (forall j | 0 <= j < |w.owners| :: w.owners[j] < w.nextId)
    && (forall i | 0 <= i < |w.live| :: w.live[i].id < w.nextId)
    && LiveStacked(w.live)
    && w.recorded <= |w.live| <= w.recorded + w.engine.overflow
    && (forall i | 0 <= i < w.recorded :: Recorded(w.engine.frames, w.owners, w.live[i]))
    && (forall i | w.recorded <= i < |w.live| :: w.live[i].id !in w.owners)
    && Shaped(cfg, w.engine.frames)
  }

  // ---------- a hook that keeps the innermost record keeps every live record ----------

  /** The record of frame `f` is among the first `keep`. */
  ghost predicate RecordBelow(frames: seq<FrameRecord>, owners: seq<nat>, f: Frame, keep: int) {
    exists j :: RecordAt(frames, owners, f, j) && j < keep
  }

  /** Records of earlier live frames stand lower. */
  lemma EarlierStandsLower(w: World, i: nat, k: nat, a: int, b: int)
    requires StrictlyIncreasing(w.owners) && LiveStacked(w.live)
    requires i < k < |w.live|
    requires RecordAt(w.engine.frames, w.owners, w.live[i], a) && RecordAt(w.engine.frames, w.owners, w.live[k], b)
    ensures a < b
  {
  }

  /** A frame has one record. */
  lemma OneRecord(frames: seq<FrameRecord>, owners: seq<nat>, f: Frame, a: int, b: int)
    requires StrictlyIncreasing(owners)
    requires RecordAt(frames, owners, f, a) && RecordAt(frames, owners, f, b)
    ensures a == b
  {
  }

  // ---------- the reclaims spare the innermost live frame ----------

  lemma ScanSpares(cfg: Config, frames: seq<FrameRecord>, key: FrameKey, j: nat)
    requires j < |frames|
    requires frames[j].level > key.level || (frames[j].level == key.level && frames[j].caller == key.caller)
    ensures j < KeptByScan(cfg, frames, key)
  {
    if OnThreadStack(cfg.bounds, key.level) {
      assert forall i | KeptByScan(cfg, frames, key) <= i < |frames| :: DeadOnEnter(key, cfg.bounds)(frames[i]);
    }
  }

  /** The reclaim above a name spares index `j` when `j` carries the name or nobody at its level does. */
  lemma AboveNameSpares(frames: seq<FrameRecord>, level: Address, name: string, j: nat)
    requires Stacked(frames) && j < |frames| && frames[j].level >= level
    requires frames[j].level == level ==>
               || HasBaseName(name)(frames[j])
               || forall i | 0 <= i < |frames| && frames[i].level == level :: !HasBaseName(name)(frames[i])
    ensures j < |frames| - AboveMatch(frames, level, HasBaseName(name))
  {
    var m := MatchInGroup(frames, level, HasBaseName(name), |frames|);
    if 0 <= m && frames[j].level == level {
      assert frames[|frames| - 1].level == level;
      assert Group(frames, level, j, |frames|);
    }
  }

  lemma RepeatsSpare(frames: seq<FrameRecord>, key: FrameKey, names: seq<string>, j: nat)
    requires j < |frames|
    requires !(|names| >= 2 && names[0] == names[1]) ==> !SameFrame(key)(frames[j])
    ensures j < KeptAfterRepeats(frames, key, names)
  {
    assert forall i | |frames| - TopSegment(frames, SameFrame(key)) <= i < |frames| :: SameFrame(key)(frames[i]);
  }

  /** A live frame's record stands at `j`, and its base name is what an honest name refers to. */
  ghost predicate Stands(w: World, f: Frame, j: nat) {
    && RecordAt(w.engine.frames, w.owners, f, j)
    && (Innermost(w, f) ==> forall name :: InnermostNamed(w, name) ==> HasBaseName(name)(w.engine.frames[j]))
  }

  lemma WhereItStands(w: World, f: Frame) returns (j: nat)
    requires StrictlyIncreasing(w.owners) && Recorded(w.engine.frames, w.owners, f)
    ensures Stands(w, f, j)
  {
    j :| RecordAt(w.engine.frames, w.owners, f, j);
    if Innermost(w, f) {
      forall name | InnermostNamed(w, name)
        ensures HasBaseName(name)(w.engine.frames[j])
      {
        var i :| 0 <= i < |w.owners| && i < |w.engine.frames|
                 && w.owners[i] == f.id && HasBaseName(name)(w.engine.frames[i]);
        assert i == j;
      }
    }
  }

  /** The two reclaims before resolution spare the innermost live frame. */
  lemma BeforeResolveSpares(cfg: Config, w: World, f: Frame, x: EnterInput, j: nat)
    requires Inv(cfg, w) && Possible(cfg, w, Call(f, x)) && w.live != []
    requires Stands(w, w.live[|w.live| - 1], j)
    ensures j < KeptBeforeResolve(cfg, w.engine.frames, x)
  {
    var frames := w.engine.frames;
    ScanSpares(cfg, frames, x.key, j);
    if x.chain.Chain? && x.chain.names != [] {
      ChainSpares(cfg, w, f, x, frames[..KeptByScan(cfg, frames, x.key)], j);
    }
  }

  lemma ChainSpares(cfg: Config, w: World, f: Frame, x: EnterInput, scanned: seq<FrameRecord>, j: nat)
    requires Inv(cfg, w) && Possible(cfg, w, Call(f, x)) && w.live != []
    requires Stands(w, w.live[|w.live| - 1], j)
    requires x.chain.Chain? && x.chain.names != []
    requires scanned <= w.engine.frames && j < |scanned|
    ensures j < KeptByInlineChain(cfg, scanned, x.key, x.chain.names)
  {
    var names := x.chain.names;
    if ChainConsulted(cfg, scanned, x.key.level) {
      RepeatsSpare(scanned, x.key, names, j);
      if |names| >= 2 {
        AboveNameSpares(scanned[..KeptAfterRepeats(scanned, x.key, names)], x.key.level, names[1], j);
      }
    }
  }

  /** The parent's name: an inlined frame's names its host's caller, but then nothing is above the entering level. */
  lemma ParentSpares(cfg: Config, w: World, key: FrameKey, parentBase: string, rest: seq<FrameRecord>, j: nat)
    requires Inv(cfg, w) && w.live != []
    requires w.live[|w.live| - 1].level > key.level ==> Honest(w, parentBase)
    requires Stands(w, w.live[|w.live| - 1], j)
    requires rest <= w.engine.frames && j < |rest|
    ensures j < KeptByParent(cfg, rest, key, parentBase)
  {
    assert rest[|rest| - 1].level <= rest[j].level;
    if rest[|rest| - 1].level > key.level {
      AboveNameSpares(rest, rest[|rest| - 1].level, parentBase, j);
    }
  }

  lemma EnterSpares(cfg: Config, w: World, f: Frame, x: EnterInput, j: nat)
    requires Inv(cfg, w) && Possible(cfg, w, Call(f, x)) && w.live != []
    requires Stands(w, w.live[|w.live| - 1], j)
    ensures j < EnterKeeps(cfg, w.engine, x)
  {
    BeforeResolveSpares(cfg, w, f, x, j);
    if EnterLogs(cfg, w.engine, x) {
      var kept := KeptBeforeResolve(cfg, w.engine.frames, x);
      ParentSpares(cfg, w, x.key, x.resolution.parentBase, w.engine.frames[..kept], j);
    }
  }

  /** The reclaims of a catch spare every recorded live frame. */
  lemma CatchSpares(cfg: Config, w: World, x: CatchInput, j: nat)
    requires Inv(cfg, w) && Possible(cfg, w, Caught(x)) && w.recorded > 0
    requires Stands(w, w.live[w.recorded - 1], j)
    ensures j < CatchKeeps(cfg, w.engine.frames, x)
  {
    var frames := w.engine.frames;
    if !x.resolveThrows {
      var kept := KeptByCatch(cfg, frames, x);
      if OnThreadStack(cfg.bounds, CatchLevel(x)) {
        assert forall i | kept <= i < |frames| :: DeadOnCatch(CatchLevel(x), cfg.bounds)(frames[i]);
      }
      assert j < kept;
      if !x.isTerminateStub && x.chain.Chain? && x.chain.names != [] {
        CatchChainSpares(cfg, w, x, frames[..kept], j);
      }
    }
  }

  lemma CatchChainSpares(cfg: Config, w: World, x: CatchInput, rest: seq<FrameRecord>, j: nat)
    requires Inv(cfg, w) && Possible(cfg, w, Caught(x)) && w.recorded > 0
    requires Stands(w, w.live[w.recorded - 1], j)
    requires !x.isTerminateStub && x.chain.Chain? && x.chain.names != []
    requires rest <= w.engine.frames && j < |rest|
    ensures j < KeptByCatchChain(cfg, rest, x.level, x.chain.names)
  {
    var f, top := w.live[w.recorded - 1], w.live[|w.live| - 1];
    assert f != top ==> Deeper(f, top);
    if !Innermost(w, f) {
      // Only overflowed frames are alive above it, and those carry no name.
      assert top.id !in w.owners;
      assert !InnermostNamed(w, x.chain.names[0]);
    }
    AboveNameSpares(rest, x.level, x.chain.names[0], j);
  }

  /** The exit rule never reaches down to another live frame: `i` is the exiting frame's record, `j` the next one's. */
  lemma ExitSpares(cfg: Config, frames: seq<FrameRecord>, x: ExitInput, i: nat, j: nat)
    requires Shaped(cfg, frames) && j < i < |frames|
    requires SameActivationSite(frames[i], x.key)
    requires if x.tailCalled then frames[i].level < x.key.level <= frames[j].level
             else frames[i].level == x.key.level || frames[j].level > x.key.level
    ensures j < ExitIndex(frames, x.key, x.tailCalled, cfg.bounds)
  {
    var index := ExitIndex(frames, x.key, x.tailCalled, cfg.bounds);
    if !x.tailCalled && frames[i].level == x.key.level && OnThreadStack(cfg.bounds, x.key.level) {
      ExitPairingCalled(frames, x.key, cfg.bounds, i);
    }
  }

  // ---------- soundness ----------

  /** Every frame live before and after the step that had a record still has that very record. */
  ghost predicate KeepsLiveRecords(w: World, w': World) {
    forall i, j | 0 <= i < w.recorded && i < |w.live| && i < |w'.live|
                  && RecordAt(w.engine.frames, w.owners, w.live[i], j) ::
      && w'.live[i] == w.live[i]
      && RecordAt(w'.engine.frames, w'.owners, w.live[i], j)
      && w'.engine.frames[j] == w.engine.frames[j]
  }

  /** Records of live frames up to one that survives survive with it. */
  lemma StandsBelow(w: World, last: nat, i: nat, j: int, keep: int)
    requires StrictlyIncreasing(w.owners) && LiveStacked(w.live) && i <= last < |w.live|
    requires RecordBelow(w.engine.frames, w.owners, w.live[last], keep)
    requires RecordAt(w.engine.frames, w.owners, w.live[i], j)
    ensures j < keep
  {
    var b :| RecordAt(w.engine.frames, w.owners, w.live[last], b) && b < keep;
    if i < last {
      EarlierStandsLower(w, i, last, j, b);
    } else {
      OneRecord(w.engine.frames, w.owners, w.live[i], j, b);
    }
  }

  /** A step that truncates both stacks is sound when the innermost surviving recorded frame survives it. */
  lemma PrefixStep(cfg: Config, w: World, w': World, keep: nat)
    requires Inv(cfg, w) && keep <= |w.engine.frames|
    requires w'.engine.frames == w.engine.frames[..keep] && w'.owners == w.owners[..keep]
    requires |w'.live| <= |w.live| && w'.live == w.live[..|w'.live|]
    requires w'.recorded == Min(w.recorded, |w'.live|) && w'.nextId == w.nextId
    requires |w'.live| <= w'.recorded + w'.engine.overflow
    requires w'.recorded > 0 ==> RecordBelow(w.engine.frames, w.owners, w.live[w'.recorded - 1], keep)
    ensures Inv(cfg, w') && KeepsLiveRecords(w, w')
  {
    forall i, j | 0 <= i < w'.recorded && RecordAt(w.engine.frames, w.owners, w.live[i], j)
      ensures RecordAt(w'.engine.frames, w'.owners, w.live[i], j)
    {
      StandsBelow(w, w'.recorded - 1, i, j, keep);
    }
    forall i | 0 <= i < w'.recorded
      ensures Recorded(w'.engine.frames, w'.owners, w'.live[i])
    {
      var j :| RecordAt(w.engine.frames, w.owners, w.live[i], j);
      assert RecordAt(w'.engine.frames, w'.owners, w'.live[i], j);
    }
  }

  lemma CallStacks(cfg: Config, w: World, f: Frame, x: EnterInput)
    requires Inv(cfg, w) && Possible(cfg, w, Call(f, x))
    ensures LiveStacked(w.live + [f])
  {
    forall i | 0 <= i < |w.live|
      ensures Deeper(w.live[i], f)
    {
      assert i < |w.live| - 1 ==> Deeper(w.live[i], w.live[|w.live| - 1]);
    }
  }

  lemma CallSound(cfg: Config, w: World, f: Frame, x: EnterInput)
    requires Inv(cfg, w) && Possible(cfg, w, Call(f, x))
    ensures Inv(cfg, Step(cfg, w, Call(f, x))) && KeepsLiveRecords(w, Step(cfg, w, Call(f, x)))
  {
    CallStacks(cfg, w, f, x);
    if w.engine.overflow == 0 && !x.roomThrows {
      RecordedCallSound(cfg, w, f, x);
    }
  }

  lemma EnterKeepsInnermost(cfg: Config, w: World, f: Frame, x: EnterInput)
    requires Inv(cfg, w) && Possible(cfg, w, Call(f, x)) && w.live != [] && w.recorded == |w.live|
    ensures RecordBelow(w.engine.frames, w.owners, w.live[|w.live| - 1], EnterKeeps(cfg, w.engine, x))
  {
    var j := WhereItStands(w, w.live[|w.live| - 1]);
    EnterSpares(cfg, w, f, x, j);
  }

  /** What is left of the world when the enter hook has reclaimed and not yet pushed. */
  function Reclaimed(w: World, keep: nat): World
    requires keep <= |w.engine.frames| && keep <= |w.owners|
  {
    w.(engine := w.engine.(frames := w.engine.frames[..keep]), owners := w.owners[..keep])
  }

  /** Reclaim, then push. */
  lemma RecordedCallSound(cfg: Config, w: World, f: Frame, x: EnterInput)
    requires Inv(cfg, w) && Possible(cfg, w, Call(f, x)) && LiveStacked(w.live + [f])
    requires w.engine.overflow == 0 && !x.roomThrows
    ensures Inv(cfg, Step(cfg, w, Call(f, x))) && KeepsLiveRecords(w, Step(cfg, w, Call(f, x)))
  {
    var mid := Reclaimed(w, EnterKeeps(cfg, w.engine, x));
    ReclaimSound(cfg, w, f, x);
    EnterShape(cfg, w.engine, x);
    StepPushes(cfg, w, f, x);
    PushSound(cfg, mid, Step(cfg, w, Call(f, x)), f);
  }

  lemma ReclaimSound(cfg: Config, w: World, f: Frame, x: EnterInput)
    requires Inv(cfg, w) && Possible(cfg, w, Call(f, x)) && w.engine.overflow == 0
    ensures var mid := Reclaimed(w, EnterKeeps(cfg, w.engine, x)); Inv(cfg, mid) && KeepsLiveRecords(w, mid)
  {
    var keep := EnterKeeps(cfg, w.engine, x);
    if w.live != [] {
      EnterKeepsInnermost(cfg, w, f, x);
    }
    PrefixStep(cfg, w, Reclaimed(w, keep), keep);
  }

  lemma StepPushes(cfg: Config, w: World, f: Frame, x: EnterInput)
    requires |w.owners| == |w.engine.frames| && w.engine.overflow == 0 && !x.roomThrows && !x.levelThrows
    requires x.key == FrameKey(f.callee, f.caller, f.level)
    ensures var w' := Step(cfg, w, Call(f, x));
            var mid := Reclaimed(w, EnterKeeps(cfg, w.engine, x));
            && |w'.engine.frames| == |mid.engine.frames| + 1 && mid.engine.frames <= w'.engine.frames
            && Matches(w'.engine.frames[|mid.engine.frames|], f)
            && w'.owners == mid.owners + [f.id] && w'.live == mid.live + [f]
            && w'.recorded == |w'.live| && w'.nextId == mid.nextId + 1 && w'.engine.overflow == 0
  {
    EnterPushes(cfg, w.engine, x);
  }

  /** A recorded enter keeps a prefix and pushes the entering frame's record. */
  lemma EnterPushes(cfg: Config, e: Engine, x: EnterInput)
    requires e.overflow == 0 && !x.roomThrows && !x.levelThrows
    ensures var e' := Enter(cfg, e, x);
            var keep := EnterKeeps(cfg, e, x);
            && |e'.frames| == keep + 1 && e'.frames[..keep] == e.frames[..keep] && e'.overflow == 0
            && var r := e'.frames[keep];
               r.callee == x.key.callee && r.caller == x.key.caller && r.level == x.key.level
  {
  }

  /** Pushing the record of a newly called frame. */
  lemma PushSound(cfg: Config, mid: World, w': World, f: Frame)
    requires Inv(cfg, mid) && mid.recorded == |mid.live| && f.id == mid.nextId
    requires |w'.engine.frames| == |mid.engine.frames| + 1 && mid.engine.frames <= w'.engine.frames
    requires Matches(w'.engine.frames[|mid.engine.frames|], f)
    requires w'.owners == mid.owners + [f.id] && w'.live == mid.live + [f]
    requires w'.recorded == |w'.live| && w'.nextId == mid.nextId + 1
    requires LiveStacked(w'.live) && Shaped(cfg, w'.engine.frames)
    ensures Inv(cfg, w') && KeepsLiveRecords(mid, w')
  {
    assert RecordAt(w'.engine.frames, w'.owners, f, |mid.engine.frames|);
    forall i | 0 <= i < |mid.live|
      ensures Recorded(w'.engine.frames, w'.owners, w'.live[i])
    {
      var j :| RecordAt(mid.engine.frames, mid.owners, mid.live[i], j);
      assert RecordAt(w'.engine.frames, w'.owners, w'.live[i], j);
    }
  }

  /** An exit hook that only counts an overflow frame down. */
  lemma OverflowReturnSound(cfg: Config, w: World, x: ExitInput)
    requires Inv(cfg, w) && Possible(cfg, w, Return(x)) && w.engine.overflow > 0
    ensures Inv(cfg, Step(cfg, w, Return(x))) && KeepsLiveRecords(w, Step(cfg, w, Return(x)))
  {
    var last := Min(w.recorded, |w.live| - 1) - 1;
    if last >= 0 {
      assert Recorded(w.engine.frames, w.owners, w.live[last]);
      assert RecordBelow(w.engine.frames, w.owners, w.live[last], |w.engine.frames|);
    }
    PrefixStep(cfg, w, Step(cfg, w, Return(x)), |w.engine.frames|);
  }

  /** The exit rule pops nothing below the exiting frame's own record that is still alive. */
  lemma ExitKeepsNext(cfg: Config, w: World, x: ExitInput)
    requires Inv(cfg, w) && Possible(cfg, w, Return(x)) && w.engine.overflow == 0
    ensures w.engine.frames != []
    ensures |w.live| >= 2 ==>
              RecordBelow(w.engine.frames, w.owners, w.live[|w.live| - 2],
                          ExitIndex(w.engine.frames, x.key, x.tailCalled, cfg.bounds))
  {
    var n := |w.live| - 1;
    var i :| RecordAt(w.engine.frames, w.owners, w.live[n], i);
    if n > 0 {
      var j :| RecordAt(w.engine.frames, w.owners, w.live[n - 1], j);
      EarlierStandsLower(w, n - 1, n, j, i);
      ExitSpares(cfg, w.engine.frames, x, i, j);
    }
  }

  /** What an exit hook without overflow leaves. */
  lemma ReturnPops(cfg: Config, w: World, x: ExitInput)
    requires |w.owners| == |w.engine.frames| > 0 && w.engine.overflow == 0 && w.live != []
    ensures var w' := Step(cfg, w, Return(x));
            var index := ExitIndex(w.engine.frames, x.key, x.tailCalled, cfg.bounds);
            && w'.engine.frames == w.engine.frames[..index] && w'.owners == w.owners[..index]
            && w'.live == w.live[..|w.live| - 1] && w'.recorded == Min(w.recorded, |w.live| - 1)
            && w'.engine.overflow == 0 && w'.nextId == w.nextId
  {
  }

  lemma ReturnSound(cfg: Config, w: World, x: ExitInput)
    requires Inv(cfg, w) && Possible(cfg, w, Return(x))
    ensures Inv(cfg, Step(cfg, w, Return(x))) && KeepsLiveRecords(w, Step(cfg, w, Return(x)))
  {
    if w.engine.overflow > 0 {
      OverflowReturnSound(cfg, w, x);
    } else {
      ExitKeepsNext(cfg, w, x);
      PrefixStep(cfg, w, Step(cfg, w, Return(x)), ExitIndex(w.engine.frames, x.key, x.tailCalled, cfg.bounds));
    }
  }

  lemma CatchKeepsRecorded(cfg: Config, w: World, x: CatchInput)
    requires Inv(cfg, w) && Possible(cfg, w, Caught(x)) && w.recorded > 0
    ensures RecordBelow(w.engine.frames, w.owners, w.live[w.recorded - 1], CatchKeeps(cfg, w.engine.frames, x))
  {
    var j := WhereItStands(w, w.live[w.recorded - 1]);
    CatchSpares(cfg, w, x, j);
  }

  /** Records are cut off above the first `keep`; nothing else that is counted changes. */
  predicate CutAbove(w: World, w': World, keep: nat)
    requires keep <= |w.engine.frames| == |w.owners|
  {
    && w'.engine.frames == w.engine.frames[..keep] && w'.owners == w.owners[..keep] && w'.live == w.live
    && w'.recorded == w.recorded && w'.nextId == w.nextId && w'.engine.overflow == w.engine.overflow
  }

  lemma CatchCuts(cfg: Config, w: World, x: CatchInput)
    requires |w.engine.frames| == |w.owners|
    ensures CutAbove(w, Step(cfg, w, Caught(x)), CatchKeeps(cfg, w.engine.frames, x))
  {
  }

  lemma CaughtSound(cfg: Config, w: World, x: CatchInput)
    requires Inv(cfg, w) && Possible(cfg, w, Caught(x))
    ensures Inv(cfg, Step(cfg, w, Caught(x))) && KeepsLiveRecords(w, Step(cfg, w, Caught(x)))
  {
    CatchCuts(cfg, w, x);
    if w.recorded > 0 {
      CatchKeepsRecorded(cfg, w, x);
    }
    CutSound(cfg, w, Step(cfg, w, Caught(x)), CatchKeeps(cfg, w.engine.frames, x));
  }

  lemma CutSound(cfg: Config, w: World, w': World, keep: nat)
    requires Inv(cfg, w) && keep <= |w.engine.frames| && CutAbove(w, w', keep)
    requires w.recorded > 0 ==> RecordBelow(w.engine.frames, w.owners, w.live[w.recorded - 1], keep)
    ensures Inv(cfg, w') && KeepsLiveRecords(w, w')
  {
    PrefixStep(cfg, w, w', keep);
  }

  lemma StepSound(cfg: Config, w: World, ev: Event)
    requires Inv(cfg, w) && Possible(cfg, w, ev)
    ensures Inv(cfg, Step(cfg, w, ev)) && KeepsLiveRecords(w, Step(cfg, w, ev))
  {
    match ev
    case Call(f, x) => CallSound(cfg, w, f, x);
    case Return(x) => ReturnSound(cfg, w, x);
    case Jump(k) => JumpSound(cfg, w, k);
    case Caught(x) => CaughtSound(cfg, w, x);
    case Other(call) => OtherSound(cfg, w, call);
  }

  lemma JumpSound(cfg: Config, w: World, k: nat)
    requires Inv(cfg, w) && k <= |w.live|
    ensures Inv(cfg, Step(cfg, w, Jump(k))) && KeepsLiveRecords(w, Step(cfg, w, Jump(k)))
  {
    if Min(w.recorded, k) > 0 {
      assert Recorded(w.engine.frames, w.owners, w.live[Min(w.recorded, k) - 1]);
      assert RecordBelow(w.engine.frames, w.owners, w.live[Min(w.recorded, k) - 1], |w.engine.frames|);
    }
    PrefixStep(cfg, w, Step(cfg, w, Jump(k)), |w.engine.frames|);
  }

  /** Event lines and the opening of the file leave the records alone. */
  lemma OtherSound(cfg: Config, w: World, call: HookCall)
    requires Inv(cfg, w) && Possible(cfg, w, Other(call))
    ensures Inv(cfg, Step(cfg, w, Other(call))) && KeepsLiveRecords(w, Step(cfg, w, Other(call)))
  {
    assert Apply(cfg, w.engine, call).frames == w.engine.frames;
  }

  lemma PossiblePrefix(cfg: Config, events: seq<Event>, n: nat)
    requires PossibleRun(cfg, events) && n <= |events|
    ensures PossibleRun(cfg, events[..n])
  {
    assert forall i | 0 <= i < n :: events[..n][..i] == events[..i];
  }

  /** The invariant over every run. */
  lemma {:induction false} InvHolds(cfg: Config, events: seq<Event>)
    requires PossibleRun(cfg, events)
    ensures Inv(cfg, Evolve(cfg, events))
  {
    if events != [] {
      var n := |events| - 1;
      PossiblePrefix(cfg, events, n);
      InvHolds(cfg, events[..n]);
      StepSound(cfg, Evolve(cfg, events[..n]), events[n]);
    }
  }

  /**
  Soundness over every run: whatever mix of calls, returns, tail-called returns, jumps and catches
  occurs, with any allocation failing anywhere, no hook pops the record of a frame that is still
  alive after it, and every live frame that did not overflow has its record.
  */
  lemma NoLiveRecordIsPopped(cfg: Config, events: seq<Event>, n: nat)
    requires PossibleRun(cfg, events) && n < |events|
    ensures var w, w' := Evolve(cfg, events[..n]), Evolve(cfg, events[..n + 1]);
            && w' == Step(cfg, w, events[n])
            && KeepsLiveRecords(w, w')
            && w'.recorded <= |w'.live|
            && (forall i | 0 <= i < w'.recorded :: Recorded(w'.engine.frames, w'.owners, w'.live[i]))
            && (w'.engine.overflow == 0 ==> w'.recorded == |w'.live|)
  {
    PossiblePrefix(cfg, events, n);
    PossiblePrefix(cfg, events, n + 1);
    InvHolds(cfg, events[..n]);
    assert events[..n + 1][..n] == events[..n];
    StepSound(cfg, Evolve(cfg, events[..n]), events[n]);
  }
}
