/**
Exactness with inlined frames: several records may share one physical frame. A physical call leaves exactly the
live records if and only if two things a reader of the stack can check hold; an inlined call whose chain names its
host always does. Then every enter of a run restores the tree, whatever vanished before it.
*/
module NestedExactness {
  import opened Common
  import opened FrameReconcile
  import opened TraceFile
  import opened Hooks
  import opened HookLemmas
  import opened LiveStack
  import opened Exactness
  import opened PhysicalExactness
  import opened InlineReclaim
  import Limits

  /** `f` runs in a frame of its own, where the callees of the innermost frame enter. */
  predicate OwnFrame(ground: Address, live: seq<Frame>, f: Frame) {
    f.calleeLevel < f.level == CalleeLevel(ground, live)
  }

  /** `f` is inlined into the innermost frame. */
  predicate InHost(live: seq<Frame>, f: Frame) {
    && live != []
    && var host := live[|live| - 1];
       f.level == host.level && f.caller == host.caller && f.calleeLevel == host.calleeLevel < f.level
  }

  predicate NestedLive(ground: Address, live: seq<Frame>) {
    forall i | 0 <= i < |live| :: OwnFrame(ground, live[..i], live[i]) || InHost(live[..i], live[i])
  }

  /** Where a record above the live ones may be: deeper, or in the innermost frame itself. */
  predicate Above(ground: Address, live: seq<Frame>, level: Address) {
    level <= CalleeLevel(ground, live) || (live != [] && level == live[|live| - 1].level)
  }

  predicate SameName(a: FrameRecord, b: FrameRecord) {
    a.nameBase.Some? && a.nameBase.value != "" && a.nameBase == b.nameBase
  }

  /** No two records of one physical frame carry the same base name. */
  ghost predicate DistinctNames(frames: seq<FrameRecord>) {
    forall i, j | 0 <= i < j < |frames| && frames[i].level == frames[j].level :: !SameName(frames[i], frames[j])
  }

  ghost predicate Nested(ground: Address, w: World) {
    && |w.live| <= |w.owners| == |w.engine.frames|
    && w.owners[..|w.live|] == Ids(w.live)
    && NestedLive(ground, w.live)
    && (forall j | |w.live| <= j < |w.engine.frames| :: Above(ground, w.live, w.engine.frames[j].level))
    && DistinctNames(w.engine.frames)
  }

  // ---------- what one call leaves ----------

  /** Whatever vanished from the entering frame's slot was a call of the same function. */
  ghost predicate SlotClear(frames: seq<FrameRecord>, live: nat, f: Frame) {
    forall j | live <= j < |frames| && frames[j].level == f.level && frames[j].caller == f.caller ::
      frames[j].callee == f.callee
  }

  /** If inlined frames vanished from the calling frame, the call is logged and its parent is named. */
  ghost predicate ParentKnown(cfg: Config, w: World, x: EnterInput) {
    w.live != [] && |w.live| < |w.engine.frames| && w.engine.frames[|w.live|].level == w.live[|w.live| - 1].level ==>
      EnterLogs(cfg, w.engine, x) && InnermostNamed(w, x.resolution.parentBase)
  }

  /** The records are those of the live frames, in place, and the innermost one's is where names find it. */
  lemma InPlace(cfg: Config, w: World)
    requires Inv(cfg, w) && w.recorded == |w.live| <= |w.owners| && w.owners[..|w.live|] == Ids(w.live)
    ensures forall i | 0 <= i < |w.live| :: RecordAt(w.engine.frames, w.owners, w.live[i], i)
    ensures w.live != [] ==> Stands(w, w.live[|w.live| - 1], |w.live| - 1)
  {
    LiveRecordsInPlace(cfg, w);
    if w.live != [] {
      var j := WhereItStands(w, w.live[|w.live| - 1]);
      OneRecord(w.engine.frames, w.owners, w.live[|w.live| - 1], j, |w.live| - 1);
    }
  }

  /** Soundness keeps the live records; exactness is about the others. */
  lemma LiveAreKept(cfg: Config, w: World, f: Frame, x: EnterInput)
    requires Inv(cfg, w) && w.recorded == |w.live| <= |w.owners| && w.owners[..|w.live|] == Ids(w.live)
    requires Possible(cfg, w, Call(f, x))
    ensures |w.live| <= EnterKeeps(cfg, w.engine, x) && |w.live| <= KeptBeforeResolve(cfg, w.engine.frames, x)
  {
    InPlace(cfg, w);
    if w.live != [] {
      BeforeResolveSpares(cfg, w, f, x, |w.live| - 1);
      EnterSpares(cfg, w, f, x, |w.live| - 1);
    }
  }

  // ---------- a physical call ----------

  /** Levels never increase, so those above a level end somewhere. */
  lemma {:induction false} SplitAtLevel(frames: seq<FrameRecord>, level: Address) returns (m: nat)
    requires Stacked(frames)
    ensures m <= |frames|
    ensures forall j | 0 <= j < m :: frames[j].level > level
    ensures forall j | m <= j < |frames| :: frames[j].level <= level
    decreases |frames|
  {
    if frames == [] || frames[|frames| - 1].level > level {
      m := |frames|;
    } else {
      m := SplitAtLevel(frames[..|frames| - 1], level);
    }
  }

  /** Neither the scan nor the repeat check reaches a record above the entering level. */
  lemma HigherAreKept(cfg: Config, frames: seq<FrameRecord>, x: EnterInput, m: nat)
    requires x.chain.Chain? && |x.chain.names| == 1 && m <= |frames|
    requires forall j | 0 <= j < m :: frames[j].level > x.key.level
    ensures m <= KeptBeforeResolve(cfg, frames, x)
  {
    if m > 0 {
      Limits.ScanKeepsSlot(cfg, frames, x.key);
      var scanned := frames[..KeptByScan(cfg, frames, x.key)];
      assert frames[m - 1].level > x.key.level && m - 1 < |scanned|;
      RepeatsSpare(scanned, x.key, x.chain.names, m - 1);
    }
  }

  /** The live levels stay at or above the innermost one's. */
  lemma {:induction false} LiveAbove(ground: Address, live: seq<Frame>, i: nat)
    requires LiveStacked(live) && i < |live|
    ensures live[i].level >= live[|live| - 1].level
  {
    if i < |live| - 1 {
      assert Deeper(live[i], live[|live| - 1]);
    }
  }

  /** Where the records stand when a physical call enters: live ones, then the innermost frame's, then the slot's. */
  ghost predicate Layered(w: World, f: Frame, m: nat) {
    && |w.live| <= m <= |w.engine.frames|
    && (forall j | 0 <= j < m :: w.engine.frames[j].level > f.level)
    && (forall j | m <= j < |w.engine.frames| :: w.engine.frames[j].level <= f.level)
    && (m > |w.live| ==> w.live != [] && Group(w.engine.frames, w.live[|w.live| - 1].level, |w.live| - 1, m))
  }

  lemma Layers(cfg: Config, ground: Address, w: World, f: Frame) returns (m: nat)
    requires Inv(cfg, w) && w.recorded == |w.live| && Nested(ground, w)
    requires f.level == CalleeLevel(ground, w.live) && (w.live != [] ==> f.level < w.live[|w.live| - 1].level)
    ensures Layered(w, f, m)
  {
    m := SplitAtLevel(w.engine.frames, f.level);
    InPlace(cfg, w);
    if w.live != [] {
      LiveAbove(ground, w.live, 0);
      var top := w.live[|w.live| - 1];
      assert RecordAt(w.engine.frames, w.owners, top, |w.live| - 1);
      assert |w.live| <= m;
    }
    if m > |w.live| {
      InnermostLayer(ground, w, f, m);
    }
  }

  lemma InnermostLayer(ground: Address, w: World, f: Frame, m: nat)
    requires Nested(ground, w) && f.level == CalleeLevel(ground, w.live) && |w.live| < m <= |w.engine.frames|
    requires forall j | 0 <= j < m :: w.engine.frames[j].level > f.level
    requires w.live != [] ==> w.engine.frames[|w.live| - 1].level == w.live[|w.live| - 1].level
    ensures w.live != [] && Group(w.engine.frames, w.live[|w.live| - 1].level, |w.live| - 1, m)
  {
    assert Above(ground, w.live, w.engine.frames[|w.live|].level);
    forall j | |w.live| <= j < m
      ensures w.engine.frames[j].level == w.live[|w.live| - 1].level
    {
      assert Above(ground, w.live, w.engine.frames[j].level);
    }
  }

  /** The slot is cleared down to the layer above it, or something in it stays. */
  lemma SlotLayer(cfg: Config, w: World, f: Frame, x: EnterInput, m: nat)
    requires Inv(cfg, w) && Layered(w, f, m) && x.key == FrameKey(f.callee, f.caller, f.level)
    requires OnThreadStack(cfg.bounds, f.level) && x.chain.Chain? && |x.chain.names| == 1
    ensures m <= KeptBeforeResolve(cfg, w.engine.frames, x)
    ensures KeptBeforeResolve(cfg, w.engine.frames, x) == m <==> SlotClear(w.engine.frames, |w.live|, f)
  {
    HigherAreKept(cfg, w.engine.frames, x, m);
    Limits.SlotClearedIff(cfg, w.engine.frames, m, x);
  }

  /** Among distinct names the one at `j` stands there only. */
  lemma NamedAtInnermost(rest: seq<FrameRecord>, level: Address, name: string, j: nat)
    requires j < |rest| && DistinctNames(rest) && Group(rest, level, j, |rest|) && HasBaseName(name)(rest[j])
    ensures |rest| - AboveMatch(rest, level, HasBaseName(name)) == j + 1
  {
    forall k | j < k < |rest|
      ensures !HasBaseName(name)(rest[k])
    {
      assert !SameName(rest[j], rest[k]);
    }
    AboveNameIsExactIff(rest, level, name, j);
  }

  /** What the reclaim above the parent makes of the layer of the innermost frame. */
  lemma ParentLayer(cfg: Config, w: World, f: Frame, x: EnterInput, m: nat)
    requires Inv(cfg, w) && w.recorded == |w.live| && Layered(w, f, m) && |w.live| < m
    requires |w.live| <= |w.owners| && w.owners[..|w.live|] == Ids(w.live) && DistinctNames(w.engine.frames)
    requires x.key.level == f.level && OnThreadStack(cfg.bounds, f.level) && x.resolution.Resolved?
    requires Honest(w, x.resolution.parentBase)
    ensures KeptByParent(cfg, w.engine.frames[..m], x.key, x.resolution.parentBase) == |w.live|
            <==> InnermostNamed(w, x.resolution.parentBase)
  {
    var n, rest, parent := |w.live|, w.engine.frames[..m], x.resolution.parentBase;
    var level := w.live[n - 1].level;
    InPlace(cfg, w);
    assert Group(rest, level, n - 1, m) && rest[m - 1].level == level;
    if InnermostNamed(w, parent) {
      NamedAtInnermost(rest, level, parent, n - 1);
    } else {
      assert NobodyNamed(w, parent);
      assert MatchInGroup(rest, level, HasBaseName(parent), m) < 0;
    }
  }

  /**
  The exact condition for a physical call, whatever vanished before it and however many frames are inlined: it
  leaves exactly the live records if and only if its slot held calls of the same function only, and the inlined
  frames that vanished from its caller, if any, are told by the name of its parent.
  */
  lemma PhysicalEnterIsExactIff(cfg: Config, ground: Address, w: World, f: Frame, x: EnterInput)
    requires Inv(cfg, w) && w.engine.overflow == 0 && Nested(ground, w)
    requires Possible(cfg, w, Call(f, x)) && OwnFrame(ground, w.live, f) && x.chain.Chain? && |x.chain.names| == 1
    ensures EnterKeeps(cfg, w.engine, x) == |w.live|
            <==> SlotClear(w.engine.frames, |w.live|, f) && ParentKnown(cfg, w, x)
  {
    InnermostIsHigher(ground, w.live, f);
    var m := Layers(cfg, ground, w, f);
    LiveAreKept(cfg, w, f, x);
    SlotLayer(cfg, w, f, x, m);
    if SlotClear(w.engine.frames, |w.live|, f) {
      ClearSlotIsExactIff(cfg, w, f, x, m);
    } else {
      var kept := KeptBeforeResolve(cfg, w.engine.frames, x);
      assert kept > m && w.engine.frames[..kept][kept - 1].level <= f.level;
    }
  }

  /** With the slot cleared the rest is up to the parent's name. */
  lemma ClearSlotIsExactIff(cfg: Config, w: World, f: Frame, x: EnterInput, m: nat)
    requires Inv(cfg, w) && w.recorded == |w.live| && Layered(w, f, m) && Possible(cfg, w, Call(f, x))
    requires |w.live| <= |w.owners| && w.owners[..|w.live|] == Ids(w.live) && DistinctNames(w.engine.frames)
    requires w.live != [] ==> f.level < w.live[|w.live| - 1].level
    requires KeptBeforeResolve(cfg, w.engine.frames, x) == m && |w.live| <= EnterKeeps(cfg, w.engine, x)
    ensures EnterKeeps(cfg, w.engine, x) == |w.live| <==> ParentKnown(cfg, w, x)
  {
    if |w.live| < m && EnterLogs(cfg, w.engine, x) {
      ParentLayer(cfg, w, f, x, m);
    }
  }

  lemma InnermostIsHigher(ground: Address, live: seq<Frame>, f: Frame)
    requires OwnFrame(ground, live, f) && NestedLive(ground, live)
    ensures live != [] ==> f.level < live[|live| - 1].level
  {
    if live != [] {
      assert live[..|live|] == live;
      var i := |live| - 1;
      assert OwnFrame(ground, live[..i], live[i]) || InHost(live[..i], live[i]);
    }
  }

  // ---------- an inlined call ----------

  /** With the host named, nothing else in the physical frame carries its name. */
  lemma HostNamedOnce(cfg: Config, ground: Address, w: World, f: Frame, x: EnterInput)
    requires Inv(cfg, w) && w.engine.overflow == 0 && Nested(ground, w)
    requires Possible(cfg, w, Call(f, x)) && InHost(w.live, f)
    requires x.chain.Chain? && |x.chain.names| >= 2 && InnermostNamed(w, x.chain.names[1])
    ensures KeptBeforeResolve(cfg, w.engine.frames, x) == |w.live|
  {
    var n := |w.live|;
    InPlace(cfg, w);
    EnterLandsOnTheHostIff(cfg, w, f, x, n - 1);
    HostSpared(cfg, w, f, x, n - 1);
    var rest := AfterRepeats(cfg, w.engine.frames, x);
    forall k | n - 1 < k < |rest|
      ensures !HasBaseName(x.chain.names[1])(rest[k])
    {
      assert rest[k] == w.engine.frames[k] && w.engine.frames[k].level == f.level == w.engine.frames[n - 1].level;
      assert !SameName(w.engine.frames[n - 1], w.engine.frames[k]);
    }
  }

  /** With nobody named, only repeats of the entering frame are told. */
  lemma HostUnknown(cfg: Config, w: World, f: Frame, x: EnterInput)
    requires Inv(cfg, w) && Possible(cfg, w, Call(f, x)) && InHost(w.live, f)
    requires w.recorded == |w.live| <= |w.owners| && w.owners[..|w.live|] == Ids(w.live)
    requires x.chain.Chain? && |x.chain.names| >= 2 && NobodyNamed(w, x.chain.names[1])
    ensures KeptBeforeResolve(cfg, w.engine.frames, x) == |AfterRepeats(cfg, w.engine.frames, x)|
  {
    InPlace(cfg, w);
    HostSpared(cfg, w, f, x, |w.live| - 1);
    var scanned, rest := w.engine.frames[..KeptByScan(cfg, w.engine.frames, x.key)],
                         AfterRepeats(cfg, w.engine.frames, x);
    assert scanned[|scanned| - 1].level == f.level;
    assert MatchInGroup(rest, f.level, HasBaseName(x.chain.names[1]), |rest|) < 0;
  }

  /**
  The exact condition for an inlined call whose chain is known: it leaves exactly the live records if and only if
  the chain's second name is the recorded host's, or nothing but repeats of the entering frame was left.
  */
  lemma InlinedEnterIsExactIff(cfg: Config, ground: Address, w: World, f: Frame, x: EnterInput)
    requires Inv(cfg, w) && w.engine.overflow == 0 && Nested(ground, w)
    requires Possible(cfg, w, Call(f, x)) && InHost(w.live, f) && x.chain.Chain? && |x.chain.names| >= 2
    ensures EnterKeeps(cfg, w.engine, x) == |w.live|
            <==> InnermostNamed(w, x.chain.names[1]) || |AfterRepeats(cfg, w.engine.frames, x)| == |w.live|
  {
    LiveAreKept(cfg, w, f, x);
    NothingHigher(cfg, w, f, x);
    if InnermostNamed(w, x.chain.names[1]) {
      HostNamedOnce(cfg, ground, w, f, x);
    } else {
      HostUnknown(cfg, w, f, x);
    }
  }

  /** The parent's name is not looked at when an inlined frame enters. */
  lemma NothingHigher(cfg: Config, w: World, f: Frame, x: EnterInput)
    requires Inv(cfg, w) && Possible(cfg, w, Call(f, x)) && InHost(w.live, f)
    requires w.recorded == |w.live| <= |w.owners| && w.owners[..|w.live|] == Ids(w.live)
    ensures EnterKeeps(cfg, w.engine, x) == KeptBeforeResolve(cfg, w.engine.frames, x)
  {
    InPlace(cfg, w);
    BeforeResolveSpares(cfg, w, f, x, |w.live| - 1);
    var kept := KeptBeforeResolve(cfg, w.engine.frames, x);
    assert w.engine.frames[..kept][kept - 1].level <= w.engine.frames[|w.live| - 1].level;
  }

  // ---------- what every step keeps ----------

  /** The name an enter's record will carry differs from those of the live records of the same physical frame. */
  ghost predicate NewName(cfg: Config, w: World, f: Frame, x: EnterInput) {
    EnterLogs(cfg, w.engine, x) ==>
      forall i | 0 <= i < |w.live| && i < |w.engine.frames| && w.engine.frames[i].level == f.level ::
        !HasBaseName(x.resolution.base)(w.engine.frames[i])
  }

  /** A call debug information covers: physical with a clear slot and a known parent, or inlined into a named host. */
  ghost predicate KnownCall(cfg: Config, ground: Address, w: World, f: Frame, x: EnterInput) {
    && !x.roomThrows && x.chain.Chain? && NewName(cfg, w, f, x)
    && (|| (OwnFrame(ground, w.live, f) && |x.chain.names| == 1
            && SlotClear(w.engine.frames, |w.live|, f) && ParentKnown(cfg, w, x))
        || (InHost(w.live, f) && |x.chain.names| >= 2 && InnermostNamed(w, x.chain.names[1])))
  }

  lemma KnownCallIsExact(cfg: Config, ground: Address, w: World, f: Frame, x: EnterInput)
    requires Inv(cfg, w) && w.engine.overflow == 0 && Nested(ground, w)
    requires Possible(cfg, w, Call(f, x)) && KnownCall(cfg, ground, w, f, x)
    ensures EnterKeeps(cfg, w.engine, x) == |w.live|
  {
    if OwnFrame(ground, w.live, f) && |x.chain.names| == 1 {
      PhysicalEnterIsExactIff(cfg, ground, w, f, x);
    } else {
      InlinedEnterIsExactIff(cfg, ground, w, f, x);
    }
  }

  /** The record an enter pushes carries the entering frame's name or none. */
  lemma PushedName(cfg: Config, e: Engine, x: EnterInput, f: Frame)
    requires e.overflow == 0 && !x.roomThrows
    ensures var e' := Enter(cfg, e, x);
            && e'.frames != []
            && e'.frames[|e'.frames| - 1].nameBase == if EnterLogs(cfg, e, x) then Some(x.resolution.base) else None
  {
    RoomyEnter(cfg, e, x, DropTo(cfg, e, EnterKeeps(cfg, e, x), DeathMark(AtEnter, x.uncaught)));
  }

  lemma PushDistinct(frames: seq<FrameRecord>, r: FrameRecord)
    requires DistinctNames(frames)
    requires forall i | 0 <= i < |frames| && frames[i].level == r.level :: !SameName(frames[i], r)
    ensures DistinctNames(frames + [r])
  {
  }

  lemma PushNested(ground: Address, w: World, w': World, f: Frame)
    requires Nested(ground, w) && (OwnFrame(ground, w.live, f) || InHost(w.live, f))
    requires |w'.engine.frames| == |w.live| + 1 && w'.engine.frames[..|w.live|] == w.engine.frames[..|w.live|]
    requires DistinctNames(w'.engine.frames)
    requires w'.owners == w.owners[..|w.live|] + [f.id] && w'.live == w.live + [f]
    ensures Nested(ground, w') && w'.owners == Ids(w'.live)
  {
    forall i | 0 <= i < |w'.live|
      ensures OwnFrame(ground, w'.live[..i], w'.live[i]) || InHost(w'.live[..i], w'.live[i])
    {
      if i < |w.live| {
        assert w'.live[..i] == w.live[..i];
      } else {
        assert w'.live[..i] == w.live;
      }
    }
    assert w'.owners == Ids(w'.live);
  }

  lemma NestedCall(cfg: Config, ground: Address, w: World, f: Frame, x: EnterInput)
    requires Inv(cfg, w) && w.engine.overflow == 0 && Nested(ground, w)
    requires Possible(cfg, w, Call(f, x)) && KnownCall(cfg, ground, w, f, x)
    ensures var w' := Step(cfg, w, Call(f, x));
            Nested(ground, w') && w'.owners == Ids(w'.live) && w'.engine.overflow == 0
  {
    KnownCallIsExact(cfg, ground, w, f, x);
    StepPushes(cfg, w, f, x);
    PushedName(cfg, w.engine, x, f);
    var w' := Step(cfg, w, Call(f, x));
    NestedNames(cfg, ground, w, f, x, w'.engine.frames[|w.live|]);
    assert w'.engine.frames == w.engine.frames[..|w.live|] + [w'.engine.frames[|w.live|]];
    PushNested(ground, w, w', f);
  }

  lemma NestedNames(cfg: Config, ground: Address, w: World, f: Frame, x: EnterInput, r: FrameRecord)
    requires Nested(ground, w) && NewName(cfg, w, f, x) && r.level == f.level
    requires r.nameBase == if EnterLogs(cfg, w.engine, x) then Some(x.resolution.base) else None
    ensures DistinctNames(w.engine.frames[..|w.live|] + [r])
  {
    PushDistinct(w.engine.frames[..|w.live|], r);
  }

  /** Seen from live frame n - 1, everything from live frame n on is above it. */
  lemma {:induction false} LevelsFollow(ground: Address, live: seq<Frame>, n: nat, i: nat)
    requires NestedLive(ground, live) && n <= i <= |live|
    ensures CalleeLevel(ground, live[..i]) <= CalleeLevel(ground, live[..n])
    ensures i < |live| ==> Above(ground, live[..n], live[i].level)
    decreases i
  {
    if i > n {
      LevelsFollow(ground, live, n, i - 1);
      assert live[..i][..i - 1] == live[..i - 1];
      assert OwnFrame(ground, live[..i - 1], live[i - 1]) || InHost(live[..i - 1], live[i - 1]);
    }
    if i < |live| {
      assert OwnFrame(ground, live[..i], live[i]) || InHost(live[..i], live[i]);
    }
  }

  lemma AboveFollows(ground: Address, live: seq<Frame>, n: nat, level: Address)
    requires NestedLive(ground, live) && n <= |live| && Above(ground, live, level)
    ensures Above(ground, live[..n], level)
  {
    assert live[..|live|] == live;
    LevelsFollow(ground, live, n, |live|);
    if live != [] && n < |live| {
      LevelsFollow(ground, live, n, |live| - 1);
    }
  }

  lemma ShrinkNested(ground: Address, w: World, w': World, n: nat, keep: nat)
    requires Nested(ground, w) && n <= |w.live| && n <= keep <= |w.engine.frames|
    requires forall i | 0 <= i < |w.live| :: RecordAt(w.engine.frames, w.owners, w.live[i], i)
    requires w'.engine.frames == w.engine.frames[..keep] && w'.owners == w.owners[..keep] && w'.live == w.live[..n]
    ensures Nested(ground, w')
  {
    assert w'.owners[..n] == w.owners[..|w.live|][..n];
    assert Ids(w.live)[..n] == Ids(w.live[..n]);
    forall i | 0 <= i < n
      ensures OwnFrame(ground, w'.live[..i], w'.live[i]) || InHost(w'.live[..i], w'.live[i])
    {
      assert w'.live[..i] == w.live[..i];
    }
    forall j | n <= j < keep
      ensures Above(ground, w'.live, w.engine.frames[j].level)
    {
      if j < |w.live| {
        assert RecordAt(w.engine.frames, w.owners, w.live[j], j);
        LevelsFollow(ground, w.live, n, j);
      } else {
        AboveFollows(ground, w.live, n, w.engine.frames[j].level);
      }
    }
  }

  lemma NestedReturn(cfg: Config, ground: Address, w: World, x: ExitInput)
    requires Inv(cfg, w) && Nested(ground, w) && w.engine.overflow == 0 && Possible(cfg, w, Return(x))
    ensures Nested(ground, Step(cfg, w, Return(x))) && Step(cfg, w, Return(x)).engine.overflow == 0
  {
    ReturnPops(cfg, w, x);
    ReturnKeepsLive(cfg, w, x);
    InPlace(cfg, w);
    ShrinkNested(ground, w, Step(cfg, w, Return(x)), |w.live| - 1,
                 ExitIndex(w.engine.frames, x.key, x.tailCalled, cfg.bounds));
  }

  lemma NestedCaught(cfg: Config, ground: Address, w: World, x: CatchInput)
    requires Inv(cfg, w) && Nested(ground, w) && w.engine.overflow == 0 && Possible(cfg, w, Caught(x))
    ensures Nested(ground, Step(cfg, w, Caught(x))) && Step(cfg, w, Caught(x)).engine.overflow == 0
  {
    CatchCuts(cfg, w, x);
    CatchKeepsLive(cfg, w, x);
    NestedCut(cfg, ground, w, Step(cfg, w, Caught(x)), CatchKeeps(cfg, w.engine.frames, x));
  }

  lemma NestedCut(cfg: Config, ground: Address, w: World, w': World, keep: nat)
    requires Inv(cfg, w) && Nested(ground, w) && w.engine.overflow == 0
    requires |w.live| <= keep <= |w.engine.frames| && CutAbove(w, w', keep)
    ensures Nested(ground, w')
  {
    InPlace(cfg, w);
    assert w.live[..|w.live|] == w.live;
    ShrinkNested(ground, w, w', |w.live|, keep);
  }

  lemma NestedJump(cfg: Config, ground: Address, w: World, k: nat)
    requires Inv(cfg, w) && Nested(ground, w) && w.engine.overflow == 0 && k <= |w.live|
    ensures Nested(ground, Step(cfg, w, Jump(k)))
  {
    InPlace(cfg, w);
    ShrinkNested(ground, w, Step(cfg, w, Jump(k)), k, |w.engine.frames|);
  }

  lemma NestedOther(cfg: Config, ground: Address, w: World, call: HookCall)
    requires Nested(ground, w) && w.engine.overflow == 0
    ensures Nested(ground, Step(cfg, w, Other(call))) && Step(cfg, w, Other(call)).engine.overflow == 0
  {
  }

  lemma NestedStep(cfg: Config, ground: Address, w: World, ev: Event)
    requires Inv(cfg, w) && Nested(ground, w) && w.engine.overflow == 0 && Possible(cfg, w, ev)
    requires ev.Call? ==> KnownCall(cfg, ground, w, ev.frame, ev.enter)
    ensures Nested(ground, Step(cfg, w, ev)) && Step(cfg, w, ev).engine.overflow == 0
    ensures ev.Call? ==> Step(cfg, w, ev).owners == Ids(Step(cfg, w, ev).live)
  {
    match ev
    case Call(f, x) => NestedCall(cfg, ground, w, f, x);
    case Return(x) => NestedReturn(cfg, ground, w, x);
    case Jump(k) => NestedJump(cfg, ground, w, k);
    case Caught(x) => NestedCaught(cfg, ground, w, x);
    case Other(call) => NestedOther(cfg, ground, w, call);
  }

  ghost predicate KnownRun(cfg: Config, ground: Address, events: seq<Event>) {
    && PossibleRun(cfg, events)
    && forall i | 0 <= i < |events| && events[i].Call? ::
         KnownCall(cfg, ground, Evolve(cfg, events[..i]), events[i].frame, events[i].enter)
  }

  lemma KnownPrefix(cfg: Config, ground: Address, events: seq<Event>, n: nat)
    requires KnownRun(cfg, ground, events) && n <= |events|
    ensures KnownRun(cfg, ground, events[..n])
  {
    PossiblePrefix(cfg, events, n);
    assert forall i | 0 <= i < n :: events[..n][..i] == events[..i];
  }

  /**
  Over every run of physical and inlined calls the debug information covers, returns, jumps and catches: after
  every enter the records are exactly the live frames, whatever vanished before.
  */
  lemma {:induction false} EveryKnownEnterRestoresTheTree(cfg: Config, ground: Address, events: seq<Event>)
    requires KnownRun(cfg, ground, events)
    ensures var w := Evolve(cfg, events);
            && Nested(ground, w) && w.engine.overflow == 0
            && (events != [] && events[|events| - 1].Call? ==> w.owners == Ids(w.live))
  {
    if events != [] {
      var n := |events| - 1;
      KnownPrefix(cfg, ground, events, n);
      EveryKnownEnterRestoresTheTree(cfg, ground, events[..n]);
      InvHolds(cfg, events[..n]);
      NestedStep(cfg, ground, Evolve(cfg, events[..n]), events[n]);
    }
  }
}
