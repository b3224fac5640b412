/** Runs of hooks with all their states at hand. */
module Traces {
  import opened TraceFile
  import opened Hooks
  import opened HookLemmas
  import opened LinePatching

  lemma RunStep(cfg: Config, calls: seq<HookCall>, m: nat)
    requires m < |calls|
    ensures Run(cfg, calls[..m + 1]) == Apply(cfg, Run(cfg, calls[..m]), calls[m])
  {
    assert calls[..m + 1][..m] == calls[..m];
  }

  /** Call `t` fits the file, and leads from one state to the next. */
  predicate RunsTo(cfg: Config, calls: seq<HookCall>, es: seq<Engine>, t: nat)
    requires t < |calls| < |es|
  {
    CallFits(cfg, es[t], calls[t]) && es[t + 1] == Apply(cfg, es[t], calls[t])
  }

  /** `es[t]` is the state in front of call `t` of a run without clamped glyphs. */
  ghost predicate Trace(cfg: Config, calls: seq<HookCall>, es: seq<Engine>) {
    |es| == |calls| + 1 && es[0] == START && forall t | 0 <= t < |calls| :: RunsTo(cfg, calls, es, t)
  }

  function States(cfg: Config, calls: seq<HookCall>): (es: seq<Engine>)
    ensures |es| == |calls| + 1 && es[0] == START && es[|calls|] == Run(cfg, calls)
  {
    if calls == [] then [START] else States(cfg, calls[..|calls| - 1]) + [Run(cfg, calls)]
  }

  /** Every run without clamped glyphs has its states. */
  lemma {:induction false} EveryRunHasItsTrace(cfg: Config, calls: seq<HookCall>)
    requires FittingRun(cfg, calls)
    ensures Trace(cfg, calls, States(cfg, calls))
  {
    if calls != [] {
      var n := |calls| - 1;
      FittingPrefix(cfg, calls, n);
      EveryRunHasItsTrace(cfg, calls[..n]);
      OneMoreState(cfg, calls, States(cfg, calls[..n]), Run(cfg, calls));
    }
  }

  lemma OneMoreState(cfg: Config, calls: seq<HookCall>, es: seq<Engine>, e': Engine)
    requires calls != [] && Trace(cfg, calls[..|calls| - 1], es)
    requires var n := |calls| - 1; CallFits(cfg, es[n], calls[n]) && e' == Apply(cfg, es[n], calls[n])
    ensures Trace(cfg, calls, es + [e'])
  {
    forall t | 0 <= t < |calls|
      ensures RunsTo(cfg, calls, es + [e'], t)
    {
      assert t < |calls| - 1 ==> RunsTo(cfg, calls[..|calls| - 1], es, t);
    }
  }

  lemma {:induction false} TraceIsTheRun(cfg: Config, calls: seq<HookCall>, es: seq<Engine>, n: nat)
    requires Trace(cfg, calls, es) && n <= |calls|
    ensures es[n] == Run(cfg, calls[..n])
  {
    if n > 0 {
      TraceIsTheRun(cfg, calls, es, n - 1);
      RunStep(cfg, calls, n - 1);
      assert RunsTo(cfg, calls, es, n - 1);
    }
  }

  lemma {:induction false} LineInvInTrace(cfg: Config, calls: seq<HookCall>, es: seq<Engine>, n: nat)
    requires Trace(cfg, calls, es) && n <= |calls|
    ensures LineInv(cfg, es[n])
  {
    if n > 0 {
      LineInvInTrace(cfg, calls, es, n - 1);
      assert RunsTo(cfg, calls, es, n - 1);
      ApplyTouches(cfg, es[n - 1], calls[n - 1]);
    }
  }
}
