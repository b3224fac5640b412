/**
Runs of the traced program with all their worlds at hand, each event with the hook it runs, and what the file and the
records keep in every one of those worlds.
*/
module Histories {
  import opened Common
  import opened TraceFile
  import opened HookLemmas
  import opened LinePatching
  import opened TrustedCursor
  import opened LiveStack

  /** The hook an event runs; a jump runs none. */
  function Hook(ev: Event): Option<HookCall> {
    match ev
    case Call(_, x) => Some(EnterCall(x))
    case Return(x) => Some(ExitCall(x))
    case Jump(_) => None
    case Caught(x) => Some(CatchCall(x))
    case Other(call) => Some(call)
  }

  lemma StepRunsHook(cfg: Config, w: World, ev: Event)
    requires Possible(cfg, w, ev)
    ensures Step(cfg, w, ev).engine
            == match Hook(ev) case None => w.engine case Some(call) => Apply(cfg, w.engine, call)
  {
  }

  /** No line is clamped before its glyph, and a lazy open leaves the cursor where the file ends. */
  predicate EventFits(cfg: Config, w: World, ev: Event) {
    Hook(ev).Some? ==> CallFits(cfg, w.engine, Hook(ev).value)
  }

  // ---------- histories ----------

  /** Event `t` can happen in its world and leads to the next one. */
  ghost predicate Leads(cfg: Config, events: seq<Event>, ws: seq<World>, t: nat)
    requires t < |events| < |ws|
  {
    Possible(cfg, ws[t], events[t]) && ws[t + 1] == Step(cfg, ws[t], events[t])
  }

  /** `ws[t]` is the world in front of event `t` of a possible run. */
  ghost predicate History(cfg: Config, events: seq<Event>, ws: seq<World>) {
    |ws| == |events| + 1 && ws[0] == DAWN && forall t | 0 <= t < |events| :: Leads(cfg, events, ws, t)
  }

  /** The worlds of a run. */
  function Worlds(cfg: Config, events: seq<Event>): (ws: seq<World>)
    ensures |ws| == |events| + 1 && ws[0] == DAWN && ws[|events|] == Evolve(cfg, events)
  {
    if events == [] then [DAWN] else Worlds(cfg, events[..|events| - 1]) + [Evolve(cfg, events)]
  }

  /** Every possible run has its history. */
  lemma {:induction false} EveryRunHasItsHistory(cfg: Config, events: seq<Event>)
    requires PossibleRun(cfg, events)
    ensures History(cfg, events, Worlds(cfg, events))
  {
    if events != [] {
      var n := |events| - 1;
      PossiblePrefix(cfg, events, n);
      EveryRunHasItsHistory(cfg, events[..n]);
      OneMoreWorld(cfg, events, Worlds(cfg, events[..n]), Evolve(cfg, events));
    }
  }

  lemma OneMoreWorld(cfg: Config, events: seq<Event>, ws: seq<World>, w': World)
    requires events != [] && History(cfg, events[..|events| - 1], ws)
    requires var n := |events| - 1; Possible(cfg, ws[n], events[n]) && w' == Step(cfg, ws[n], events[n])
    ensures History(cfg, events, ws + [w'])
  {
    forall t | 0 <= t < |events|
      ensures Leads(cfg, events, ws + [w'], t)
    {
      assert t < |events| - 1 ==> Leads(cfg, events[..|events| - 1], ws, t);
    }
  }

  /** And no other: its worlds are those of the run. */
  lemma {:induction false} HistoryIsTheRun(cfg: Config, events: seq<Event>, ws: seq<World>, n: nat)
    requires History(cfg, events, ws) && n <= |events|
    ensures ws[n] == Evolve(cfg, events[..n])
  {
    if n > 0 {
      HistoryIsTheRun(cfg, events, ws, n - 1);
      EvolveStep(cfg, events, n - 1);
      assert Leads(cfg, events, ws, n - 1);
    }
  }

  lemma EvolveStep(cfg: Config, events: seq<Event>, n: nat)
    requires n < |events|
    ensures Evolve(cfg, events[..n + 1]) == Step(cfg, Evolve(cfg, events[..n]), events[n])
  {
    assert events[..n + 1][..n] == events[..n];
  }

  lemma HistoryIsPossible(cfg: Config, events: seq<Event>, ws: seq<World>)
    requires History(cfg, events, ws)
    ensures PossibleRun(cfg, events) && ws[|events|] == Evolve(cfg, events)
  {
    forall t | 0 <= t < |events|
      ensures Possible(cfg, Evolve(cfg, events[..t]), events[t])
    {
      HistoryIsTheRun(cfg, events, ws, t);
      assert Leads(cfg, events, ws, t);
    }
    HistoryIsTheRun(cfg, events, ws, |events|);
    assert events[..|events|] == events;
  }

  lemma NextWorld(cfg: Config, events: seq<Event>, ws: seq<World>, n: nat)
    requires History(cfg, events, ws) && n < |events|
    ensures Possible(cfg, ws[n], events[n]) && ws[n + 1] == Step(cfg, ws[n], events[n])
  {
    assert Leads(cfg, events, ws, n);
  }

  predicate Suits(cfg: Config, events: seq<Event>, ws: seq<World>, t: nat)
    requires t < |events| < |ws|
  {
    EventFits(cfg, ws[t], events[t])
  }

  /** A history whose every event fits the file. */
  ghost predicate FittingHistory(cfg: Config, events: seq<Event>, ws: seq<World>) {
    History(cfg, events, ws) && forall t | 0 <= t < |events| :: Suits(cfg, events, ws, t)
  }

  lemma NextFits(cfg: Config, events: seq<Event>, ws: seq<World>, n: nat)
    requires FittingHistory(cfg, events, ws) && n < |events|
    ensures Possible(cfg, ws[n], events[n]) && EventFits(cfg, ws[n], events[n])
    ensures ws[n + 1] == Step(cfg, ws[n], events[n])
  {
    assert Leads(cfg, events, ws, n) && Suits(cfg, events, ws, n);
  }

  // ---------- what holds in every world ----------

  /** Records and live frames, records and lines, the depth, and a file that was never opened. */
  ghost predicate Sound(cfg: Config, w: World) {
    Inv(cfg, w) && LineInv(cfg, w.engine) && Untouched(w.engine) && DepthExact(w.engine)
  }

  lemma SoundNext(cfg: Config, w: World, ev: Event, w': World)
    requires Sound(cfg, w) && Possible(cfg, w, ev) && EventFits(cfg, w, ev) && w' == Step(cfg, w, ev)
    ensures Sound(cfg, w')
  {
    StepSound(cfg, w, ev);
    StepRunsHook(cfg, w, ev);
    if Hook(ev).Some? {
      ApplyTouches(cfg, w.engine, Hook(ev).value);
      ApplyUntouched(cfg, w.engine, Hook(ev).value);
      ApplyDepth(cfg, w.engine, Hook(ev).value);
    }
  }

  /** Every world of a history is sound. */
  lemma {:induction false} SoundInHistory(cfg: Config, events: seq<Event>, ws: seq<World>, n: nat)
    requires FittingHistory(cfg, events, ws) && n <= |events|
    ensures Sound(cfg, ws[n])
  {
    if n > 0 {
      SoundInHistory(cfg, events, ws, n - 1);
      NextFits(cfg, events, ws, n - 1);
      SoundNext(cfg, ws[n - 1], events[n - 1], ws[n]);
    }
  }

  // ---------- the trusted cursor ----------

  predicate HookWrites(ev: Event) {
    Hook(ev).Some? ==> WritesFully(Hook(ev).value)
  }

  /** Event `o` opened the file as the source hopes for, and no write has failed between that and event `n`. */
  predicate OpenedWell(events: seq<Event>, ws: seq<World>, o: nat, n: nat)
    requires o < n <= |events| < |ws|
  {
    && Hook(events[o]).Some? && OpensWell(Hook(events[o]).value) && !ws[o].engine.out.isOpen
    && forall t {:trigger events[t]} | o < t < n :: HookWrites(events[t])
  }

  lemma OpeningIsTrusted(cfg: Config, w: World, ev: Event, w': World)
    requires cfg.Patching() && Possible(cfg, w, ev) && Hook(ev).Some? && OpensWell(Hook(ev).value)
    requires Untouched(w.engine) && !w.engine.out.isOpen && w' == Step(cfg, w, ev)
    ensures Trusted(w'.engine.out)
  {
    StepRunsHook(cfg, w, ev);
    WellOpenedIsTrusted(cfg, w.engine, Hook(ev).value);
  }

  lemma TrustedNext(cfg: Config, w: World, ev: Event, w': World)
    requires Possible(cfg, w, ev) && Trusted(w.engine.out) && HookWrites(ev) && w' == Step(cfg, w, ev)
    ensures Trusted(w'.engine.out)
  {
    StepRunsHook(cfg, w, ev);
    if Hook(ev).Some? {
      ApplyTrusted(cfg, w.engine, Hook(ev).value);
    }
  }

  lemma TrustedOnce(cfg: Config, events: seq<Event>, ws: seq<World>, o: nat)
    requires cfg.Patching() && FittingHistory(cfg, events, ws) && o < |events|
    requires Hook(events[o]).Some? && OpensWell(Hook(events[o]).value) && !ws[o].engine.out.isOpen
    ensures Trusted(ws[o + 1].engine.out)
  {
    SoundInHistory(cfg, events, ws, o);
    NextFits(cfg, events, ws, o);
    OpeningIsTrusted(cfg, ws[o], events[o], ws[o + 1]);
  }

  lemma TrustedStill(cfg: Config, events: seq<Event>, ws: seq<World>, n: nat)
    requires FittingHistory(cfg, events, ws) && n < |events|
    requires Trusted(ws[n].engine.out) && HookWrites(events[n])
    ensures Trusted(ws[n + 1].engine.out)
  {
    NextFits(cfg, events, ws, n);
    TrustedNext(cfg, ws[n], events[n], ws[n + 1]);
  }

  /** Behind such an open the cursor is believed. */
  lemma {:induction false} TrustedInHistory(cfg: Config, events: seq<Event>, ws: seq<World>, o: nat, n: nat)
    requires cfg.Patching() && FittingHistory(cfg, events, ws) && o < n <= |events| && OpenedWell(events, ws, o, n)
    ensures Trusted(ws[n].engine.out)
    decreases n
  {
    if o == n - 1 {
      TrustedOnce(cfg, events, ws, o);
    } else {
      TrustedInHistory(cfg, events, ws, o, n - 1);
      TrustedStill(cfg, events, ws, n - 1);
    }
  }
}
