/**
How exact the reclaims by name are: when debug information names the innermost live function, the records left
are exactly up to its own, unless a dead record above it in the same physical frame carries the same name.
*/
module InlineReclaim {
  import opened Common
  import opened FrameReconcile
  import opened TraceFile
  import opened Hooks
  import opened HookLemmas
  import opened LiveStack

  /** No record above `j` carries the name. */
  predicate NamedOnlyBelow(frames: seq<FrameRecord>, j: int, name: string)
    requires 0 <= j < |frames|
  {
    forall k | j < k < |frames| :: !HasBaseName(name)(frames[k])
  }

  /** Cutting above a name that stands at `j`, with only records of its physical frame above it. */
  lemma AboveNameIsExactIff(frames: seq<FrameRecord>, level: Address, name: string, j: nat)
    requires j < |frames| && Group(frames, level, j, |frames|) && HasBaseName(name)(frames[j])
    ensures |frames| - AboveMatch(frames, level, HasBaseName(name)) == j + 1 <==> NamedOnlyBelow(frames, j, name)
  {
    var m := MatchInGroup(frames, level, HasBaseName(name), |frames|);
    assert m >= j;
    if m > j {
      assert HasBaseName(name)(frames[m]);
    } else {
      forall k | j < k < |frames|
        ensures !HasBaseName(name)(frames[k])
      {
        assert Group(frames, level, k, |frames|);
      }
    }
  }

  /** Records above that of the innermost live frame belong to no live frame. */
  lemma AboveInnermostIsDead(cfg: Config, w: World, j: nat)
    requires Inv(cfg, w) && w.live != [] && RecordAt(w.engine.frames, w.owners, w.live[|w.live| - 1], j)
    ensures forall k, i | j < k < |w.owners| && 0 <= i < |w.live| :: w.owners[k] != w.live[i].id
  {
    forall k, i | j < k < |w.owners| && 0 <= i < |w.live|
      ensures w.owners[k] != w.live[i].id
    {
      assert w.live[i].id <= w.live[|w.live| - 1].id;
    }
  }

  /** The level rule of a catch leaves the catcher's physical frame, and everything above it, in one group. */
  lemma CatchLeavesOneGroup(cfg: Config, frames: seq<FrameRecord>, x: CatchInput, j: nat)
    requires Shaped(cfg, frames) && j < |frames| && frames[j].level == x.level && !x.isTerminateStub
    ensures j < KeptByCatch(cfg, frames, x) && Group(frames, x.level, j, KeptByCatch(cfg, frames, x))
    ensures forall k | KeptByCatch(cfg, frames, x) <= k < |frames| :: frames[k].level < x.level
  {
    var kept := KeptByCatch(cfg, frames, x);
    assert forall k | kept <= k < |frames| :: DeadOnCatch(x.level, cfg.bounds)(frames[k]);
    if kept > 0 {
      assert !DeadOnCatch(x.level, cfg.bounds)(frames[kept - 1]);
    }
  }

  lemma CatchKeepsIff(cfg: Config, frames: seq<FrameRecord>, x: CatchInput, j: nat)
    requires Shaped(cfg, frames) && j < |frames| && frames[j].level == x.level
    requires !x.resolveThrows && !x.isTerminateStub && x.chain.Chain? && x.chain.names != []
    requires HasBaseName(x.chain.names[0])(frames[j])
    ensures CatchKeeps(cfg, frames, x) == j + 1 <==>
              forall k | j < k < |frames| && frames[k].level == x.level :: !HasBaseName(x.chain.names[0])(frames[k])
  {
    var kept := KeptByCatch(cfg, frames, x);
    CatchLeavesOneGroup(cfg, frames, x, j);
    var rest := frames[..kept];
    assert Group(rest, x.level, j, kept);
    AboveNameIsExactIff(rest, x.level, x.chain.names[0], j);
    assert ChainConsulted(cfg, rest, x.level);
  }

  /**
  In every state of a run (its invariant is InvHolds): a catch whose site names the innermost live function leaves
  exactly the live records, its own on top, if and only if no dead record of that physical frame carries the same
  base name.
  */
  lemma CatchLandsOnTheCatcherIff(cfg: Config, w: World, x: CatchInput, j: nat)
    requires Inv(cfg, w)
    requires !x.resolveThrows && !x.isTerminateStub && x.chain.Chain? && x.chain.names != []
    requires w.live != [] && w.live[|w.live| - 1].level == x.level
    requires RecordAt(w.engine.frames, w.owners, w.live[|w.live| - 1], j)
    requires HasBaseName(x.chain.names[0])(w.engine.frames[j])
    ensures CatchKeeps(cfg, w.engine.frames, x) == j + 1 <==>
              forall k | j < k < |w.engine.frames| && w.engine.frames[k].level == x.level ::
                !HasBaseName(x.chain.names[0])(w.engine.frames[k])
    ensures forall k, i | j < k < |w.owners| && 0 <= i < |w.live| :: w.owners[k] != w.live[i].id
  {
    CatchKeepsIff(cfg, w.engine.frames, x, j);
    AboveInnermostIsDead(cfg, w, j);
  }

  /** The enter scan leaves the host's physical frame, and everything above it, in one group. */
  lemma ScanLeavesOneGroup(cfg: Config, frames: seq<FrameRecord>, key: FrameKey, j: nat)
    requires Shaped(cfg, frames) && OnThreadStack(cfg.bounds, key.level)
    requires j < |frames| && frames[j].level == key.level && frames[j].caller == key.caller
    ensures j < KeptByScan(cfg, frames, key) && Group(frames, key.level, j, KeptByScan(cfg, frames, key))
  {
    ScanSpares(cfg, frames, key, j);
    ScanLeaves(cfg, frames, key);
  }

  /** What is left of the group when an inlined frame enters and its chain, without recursion, names its host. */
  function AfterRepeats(cfg: Config, frames: seq<FrameRecord>, x: EnterInput): seq<FrameRecord>
    requires x.chain.Chain?
  {
    var scanned := frames[..KeptByScan(cfg, frames, x.key)];
    scanned[..KeptAfterRepeats(scanned, x.key, x.chain.names)]
  }

  lemma HostKeepsIff(cfg: Config, frames: seq<FrameRecord>, x: EnterInput, j: nat)
    requires x.chain.Chain? && |x.chain.names| >= 2 && OnThreadStack(cfg.bounds, x.key.level)
    requires j < |AfterRepeats(cfg, frames, x)|
    requires Group(frames, x.key.level, j, KeptByScan(cfg, frames, x.key)) && HasBaseName(x.chain.names[1])(frames[j])
    ensures KeptBeforeResolve(cfg, frames, x) == j + 1
            <==> NamedOnlyBelow(AfterRepeats(cfg, frames, x), j, x.chain.names[1])
  {
    var scanned := frames[..KeptByScan(cfg, frames, x.key)];
    var rest := AfterRepeats(cfg, frames, x);
    assert Group(rest, x.key.level, j, |rest|);
    AboveNameIsExactIff(rest, x.key.level, x.chain.names[1], j);
    assert ChainConsulted(cfg, scanned, x.key.level);
  }

  /**
  In every state of a run: when a frame inlined into the innermost live one enters and the chain at its site names
  that host, the records left are exactly the live ones if and only if, repeats of the entering frame aside, no dead
  record of the group carries the host's name.
  */
  lemma EnterLandsOnTheHostIff(cfg: Config, w: World, f: Frame, x: EnterInput, j: nat)
    requires Inv(cfg, w) && Possible(cfg, w, Call(f, x))
    requires x.chain.Chain? && |x.chain.names| >= 2
    requires w.live != [] && w.live[|w.live| - 1].level == f.level
    requires RecordAt(w.engine.frames, w.owners, w.live[|w.live| - 1], j)
    requires HasBaseName(x.chain.names[1])(w.engine.frames[j])
    ensures j < |AfterRepeats(cfg, w.engine.frames, x)|
    ensures KeptBeforeResolve(cfg, w.engine.frames, x) == j + 1
            <==> NamedOnlyBelow(AfterRepeats(cfg, w.engine.frames, x), j, x.chain.names[1])
    ensures forall k, i | j < k < |w.owners| && 0 <= i < |w.live| :: w.owners[k] != w.live[i].id
  {
    HostSpared(cfg, w, f, x, j);
    HostKeepsIff(cfg, w.engine.frames, x, j);
    AboveInnermostIsDead(cfg, w, j);
  }

  lemma HostSpared(cfg: Config, w: World, f: Frame, x: EnterInput, j: nat)
    requires Inv(cfg, w) && Possible(cfg, w, Call(f, x)) && x.chain.Chain? && |x.chain.names| >= 2
    requires w.live != [] && w.live[|w.live| - 1].level == f.level
    requires RecordAt(w.engine.frames, w.owners, w.live[|w.live| - 1], j)
    ensures j < KeptByScan(cfg, w.engine.frames, x.key)
    ensures Group(w.engine.frames, f.level, j, KeptByScan(cfg, w.engine.frames, x.key))
    ensures j < |AfterRepeats(cfg, w.engine.frames, x)|
  {
    ScanLeavesOneGroup(cfg, w.engine.frames, x.key, j);
    var scanned := w.engine.frames[..KeptByScan(cfg, w.engine.frames, x.key)];
    RepeatsSpare(scanned, x.key, x.chain.names, j);
  }

  /**
  The reclaim above the parent leaves exactly up to the parent's record if and only if nothing but its own physical
  frame is left above it, and none of that carries its name.
  */
  lemma ParentKeepsIff(cfg: Config, rest: seq<FrameRecord>, key: FrameKey, parentBase: string, j: nat)
    requires Shaped(cfg, rest) && OnThreadStack(cfg.bounds, key.level)
    requires j < |rest| && rest[j].level > key.level && HasBaseName(parentBase)(rest[j])
    ensures KeptByParent(cfg, rest, key, parentBase) == j + 1
            <==> Group(rest, rest[j].level, j, |rest|) && NamedOnlyBelow(rest, j, parentBase)
  {
    var top := rest[|rest| - 1];
    if top.level == rest[j].level {
      assert Group(rest, top.level, j, |rest|);
      AboveNameIsExactIff(rest, top.level, parentBase, j);
    } else {
      var m := MatchInGroup(rest, top.level, HasBaseName(parentBase), |rest|);
      assert m >= 0 ==> rest[m].level == top.level && m > j;
    }
  }

  /**
  In every state of a run: when a physical frame enters, its line is logged and its parent is named as the innermost
  live function, the records left are exactly the live ones if and only if, of what the other reclaims left above
  that function's record, everything is in its physical frame and nothing carries its name.
  */
  lemma EnterLandsOnTheParentIff(cfg: Config, w: World, f: Frame, x: EnterInput, j: nat)
    requires Inv(cfg, w) && Possible(cfg, w, Call(f, x)) && EnterLogs(cfg, w.engine, x)
    requires w.live != [] && w.live[|w.live| - 1].level > f.level
    requires RecordAt(w.engine.frames, w.owners, w.live[|w.live| - 1], j)
    requires HasBaseName(x.resolution.parentBase)(w.engine.frames[j])
    ensures j < KeptBeforeResolve(cfg, w.engine.frames, x)
    ensures var rest := w.engine.frames[..KeptBeforeResolve(cfg, w.engine.frames, x)];
            EnterKeeps(cfg, w.engine, x) == j + 1
            <==> Group(rest, rest[j].level, j, |rest|) && NamedOnlyBelow(rest, j, x.resolution.parentBase)
    ensures forall k, i | j < k < |w.owners| && 0 <= i < |w.live| :: w.owners[k] != w.live[i].id
  {
    var top := w.live[|w.live| - 1];
    var own := WhereItStands(w, top);
    OneRecord(w.engine.frames, w.owners, top, own, j);
    BeforeResolveSpares(cfg, w, f, x, j);
    ParentKeepsIff(cfg, w.engine.frames[..KeptBeforeResolve(cfg, w.engine.frames, x)], x.key,
                   x.resolution.parentBase, j);
    AboveInnermostIsDead(cfg, w, j);
  }
}
