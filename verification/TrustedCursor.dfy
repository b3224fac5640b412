/**
The trusted cursor: what an open as the source hopes for makes of a patching build, how long it lasts, and what it
gives the frames that are logged meanwhile.
*/
module TrustedCursor {
  import opened FrameReconcile
  import opened TraceFile
  import opened Hooks
  import opened HookLemmas
  import opened LinePatching
  import opened Traces

  /** The open that the source hopes for. */
  predicate OpensWell(call: HookCall) {
    call.OpenCall? && call.header.Written? && call.reopens && call.seeks
  }

  /** No byte of what the hook writes is lost on the way to the file. */
  predicate WritesFully(call: HookCall) {
    match call
    case EnterCall(x) => x.write.Full?
    case CatchCall(x) => x.write.Full?
    case EventCall(_, write) => write.Full?
    case _ => true
  }

  /** The file can be patched, and the cursor is believed. */
  predicate Trusted(out: Output) {
    out.isOpen && out.patchFd && out.cursorValid
  }

  /** A file that was never opened is as it was at the start, and no record knows of a line in it. */
  predicate Untouched(e: Engine) {
    !e.out.isOpen ==> e.out == CLOSED && NoLineStarts(e.frames)
  }

  lemma EnterUntouched(cfg: Config, e: Engine, x: EnterInput)
    requires Untouched(e)
    ensures Untouched(Enter(cfg, e, x))
  {
    if e.overflow == 0 && !x.roomThrows && !e.out.isOpen {
      var e1 := DropTo(cfg, e, EnterKeeps(cfg, e, x), DeathMark(AtEnter, x.uncaught));
      OpenFirst(cfg, e, e.out, EnterKeeps(cfg, e, x), DeathMark(AtEnter, x.uncaught));
      RoomyEnter(cfg, e, x, e1);
    } else if e.overflow == 0 && !x.roomThrows {
      EnterStaysOpen(cfg, e, x);
    }
  }

  lemma EnterStaysOpen(cfg: Config, e: Engine, x: EnterInput)
    requires e.out.isOpen
    ensures Enter(cfg, e, x).out.isOpen && Enter(cfg, e, x).out.patchFd == e.out.patchFd
    ensures e.out.cursorValid && x.write.Full? ==> Enter(cfg, e, x).out.cursorValid
  {
    if e.overflow == 0 && !x.roomThrows {
      var e1 := DropTo(cfg, e, EnterKeeps(cfg, e, x), DeathMark(AtEnter, x.uncaught));
      DropKeepsOutputShape(cfg, e, EnterKeeps(cfg, e, x), DeathMark(AtEnter, x.uncaught));
      RoomyEnter(cfg, e, x, e1);
    }
  }

  /** An exit changes nothing but bytes of the file. */
  lemma ExitKeepsShape(cfg: Config, e: Engine, x: ExitInput)
    ensures Exit(cfg, e, x).out == e.out.(file := Exit(cfg, e, x).out.file)
    ensures NoLineStarts(e.frames) ==> Exit(cfg, e, x).out == e.out && NoLineStarts(Exit(cfg, e, x).frames)
  {
    if e.overflow == 0 && e.frames != [] {
      var index := ExitIndex(e.frames, x.key, x.tailCalled, cfg.bounds);
      ExitIsFinished(cfg, e, x);
      DropKeepsOutputShape(cfg, e, index + 1, DeathMark(AtExit, x.uncaught));
      if NoLineStarts(e.frames) {
        OpenFirst(cfg, e, e.out, index + 1, DeathMark(AtExit, x.uncaught));
      }
    }
  }

  lemma CatchShape(cfg: Config, e: Engine, x: CatchInput)
    ensures Catch(cfg, e, x).out.isOpen == e.out.isOpen && Catch(cfg, e, x).out.patchFd == e.out.patchFd
    ensures e.out.cursorValid && x.write.Full? ==> Catch(cfg, e, x).out.cursorValid
    ensures Untouched(e) ==> Untouched(Catch(cfg, e, x))
  {
    var keep := CatchKeeps(cfg, e.frames, x);
    DropKeepsOutputShape(cfg, e, keep, DeathMark(AtCatch, 0));
    CatchParts(cfg, e, x, DropTo(cfg, e, keep, DeathMark(AtCatch, 0)));
    if !e.out.isOpen && Untouched(e) {
      OpenFirst(cfg, e, e.out, keep, DeathMark(AtCatch, 0));
    }
  }

  lemma ApplyUntouched(cfg: Config, e: Engine, call: HookCall)
    requires Untouched(e)
    ensures Untouched(Apply(cfg, e, call))
  {
    match call
    case EnterCall(x) => EnterUntouched(cfg, e, x);
    case ExitCall(x) => ExitKeepsShape(cfg, e, x);
    case CatchCall(x) => CatchShape(cfg, e, x);
    case EventCall(_, _) =>
    case OpenCall(_, _, _, _) =>
  }

  lemma ApplyTrusted(cfg: Config, e: Engine, call: HookCall)
    requires Trusted(e.out) && WritesFully(call)
    ensures Trusted(Apply(cfg, e, call).out)
  {
    match call
    case EnterCall(x) => EnterStaysOpen(cfg, e, x);
    case ExitCall(x) => ExitKeepsShape(cfg, e, x);
    case CatchCall(x) => CatchShape(cfg, e, x);
    case EventCall(_, _) =>
    case OpenCall(_, _, _, _) =>
  }

  lemma {:induction false} UntouchedHolds(cfg: Config, calls: seq<HookCall>)
    ensures Untouched(Run(cfg, calls))
  {
    if calls != [] {
      UntouchedHolds(cfg, calls[..|calls| - 1]);
      ApplyUntouched(cfg, Run(cfg, calls[..|calls| - 1]), calls[|calls| - 1]);
    }
  }

  lemma WellOpenedIsTrusted(cfg: Config, e: Engine, open: HookCall)
    requires cfg.Patching() && Untouched(e) && !e.out.isOpen && OpensWell(open)
    ensures Trusted(Apply(cfg, e, open).out)
  {
  }

  /**
  Over every run of a patching build: behind an open as the source hopes for, the file can be patched and the cursor is
  believed until the first write that fails.
  */
  lemma {:induction false} TrustedUntilAWriteFails(cfg: Config, calls: seq<HookCall>, n: nat, m: nat)
    requires cfg.Patching() && n < m <= |calls| && OpensWell(calls[n]) && !Run(cfg, calls[..n]).out.isOpen
    requires forall i | n < i < m :: WritesFully(calls[i])
    ensures Trusted(Run(cfg, calls[..m]).out)
    decreases m
  {
    assert calls[..m][..m - 1] == calls[..m - 1];
    if n == m - 1 {
      UntouchedHolds(cfg, calls[..n]);
      WellOpenedIsTrusted(cfg, Run(cfg, calls[..n]), calls[n]);
    } else {
      TrustedUntilAWriteFails(cfg, calls, n, m - 1);
      ApplyTrusted(cfg, Run(cfg, calls[..m - 1]), calls[m - 1]);
    }
  }

  /** Where no line is clamped, that cursor is where the file ends. */
  lemma TrustedCursorIsAtEnd(cfg: Config, calls: seq<HookCall>, n: nat, m: nat)
    requires cfg.Patching() && n < m <= |calls| && OpensWell(calls[n]) && !Run(cfg, calls[..n]).out.isOpen
    requires FittingRun(cfg, calls) && forall i | n < i < m :: WritesFully(calls[i])
    ensures var out := Run(cfg, calls[..m]).out; Trusted(out) && out.cursor == |out.file|
  {
    TrustedUntilAWriteFails(cfg, calls, n, m);
    FittingPrefix(cfg, calls, m);
    LineInvHolds(cfg, calls[..m]);
  }

  /** The record on top says where its line starts. */
  predicate KnowsItsLine(e: Engine, start: int) {
    e.frames != [] && e.frames[|e.frames| - 1].lineStart == start
  }

  lemma TrustedEnterPlaces(cfg: Config, e: Engine, x: EnterInput)
    requires cfg.Patching() && Trusted(e.out) && e.out.cursor == |e.out.file| && x.write.Full?
    requires e.overflow == 0 && !x.roomThrows && EnterLogs(cfg, e, x)
    ensures KnowsItsLine(Enter(cfg, e, x), |e.out.file|)
  {
    var e1 := DropTo(cfg, e, EnterKeeps(cfg, e, x), DeathMark(AtEnter, x.uncaught));
    DropKeepsOutputShape(cfg, e, EnterKeeps(cfg, e, x), DeathMark(AtEnter, x.uncaught));
    RoomyEnter(cfg, e, x, e1);
  }

  /** And every frame logged by then knows that its line starts where the file ended. */
  lemma LoggedFramesKnowTheirLines(cfg: Config, calls: seq<HookCall>, n: nat, m: nat, x: EnterInput)
    requires cfg.Patching() && n < m < |calls| && OpensWell(calls[n]) && !Run(cfg, calls[..n]).out.isOpen
    requires FittingRun(cfg, calls) && forall i | n < i < m :: WritesFully(calls[i])
    requires calls[m] == EnterCall(x) && x.write.Full? && !x.roomThrows
    requires Run(cfg, calls[..m]).overflow == 0 && EnterLogs(cfg, Run(cfg, calls[..m]), x)
    ensures KnowsItsLine(Run(cfg, calls[..m + 1]), |Run(cfg, calls[..m]).out.file|)
  {
    RunStep(cfg, calls, m);
    TrustedCursorIsAtEnd(cfg, calls, n, m);
    TrustedEnterPlaces(cfg, Run(cfg, calls[..m]), x);
  }

  // ---------- other opens ----------

  /** Exactly the opens that leave a file that can be patched through a cursor that is believed. */
  lemma TrustedBehindOpenIff(cfg: Config, e: Engine, open: HookCall)
    requires cfg.Patching() && Untouched(e) && !e.out.isOpen && open.OpenCall?
    ensures Trusted(Apply(cfg, e, open).out) <==> open.reopens && (open.header.HeaderThrows? || open.seeks)
    ensures Apply(cfg, e, open).out.isOpen && Apply(cfg, e, open).out.patchFd == open.reopens
  {
  }

  /** What earlier runs left in the file, and the header of this one. */
  function FirstText(open: HookCall): string
    requires open.OpenCall?
  {
    open.existing + match open.header case Written(text) => text case HeaderThrows => ""
  }

  /** The file begins with this text, and no line that may be patched starts in it. */
  ghost predicate BeginsWith(out: Output, text: string) {
    out.isOpen && text <= out.original && forall k | 0 <= k < |out.chunks| :: out.chunks[k].start >= |text|
  }

  lemma NoFieldInFront(cfg: Config, out: Output, text: string, p: int)
    requires FileInv(cfg, out) && BeginsWith(out, text) && p < |text|
    ensures !SomeField(cfg, out.chunks, p)
  {
    forall k | 0 <= k < |out.chunks|
      ensures !InField(cfg, out.chunks[k], p)
    {
    }
  }

  lemma BeginsInFile(cfg: Config, out: Output, text: string)
    requires FileInv(cfg, out) && BeginsWith(out, text)
    ensures text <= out.file
  {
    forall p | 0 <= p < |text|
      ensures out.file[p] == text[p]
    {
      NoFieldInFront(cfg, out, text, p);
    }
  }

  lemma EnterKeepsBeginning(cfg: Config, e: Engine, x: EnterInput, text: string)
    requires LineInv(cfg, e) && BeginsWith(e.out, text)
    ensures BeginsWith(Enter(cfg, e, x).out, text)
  {
    if e.overflow == 0 && !x.roomThrows {
      var keep, how := EnterKeeps(cfg, e, x), DeathMark(AtEnter, x.uncaught);
      var e1 := DropTo(cfg, e, keep, how);
      DropTouchesDeadLines(cfg, e, keep, how);
      RoomyEnter(cfg, e, x, e1);
      if EnterLogs(cfg, e, x) {
        var depth := e1.depth + 1;
        AppendKeepsBeginning(cfg, e1.out, CallLine(cfg, x.resolution.view, x.key.callee, depth), depth, x.write, text);
      }
    }
  }

  lemma AppendKeepsBeginning(cfg: Config, out: Output, line: string, depth: int, write: Write, text: string)
    requires FileInv(cfg, out) && BeginsWith(out, text)
    ensures BeginsWith(AppendCallLine(cfg, out, line, depth, write), text)
  {
  }

  lemma CatchKeepsBeginning(cfg: Config, e: Engine, x: CatchInput, text: string)
    requires BeginsWith(e.out, text)
    ensures BeginsWith(Catch(cfg, e, x).out, text)
  {
    var keep := CatchKeeps(cfg, e.frames, x);
    DropKeepsOutputShape(cfg, e, keep, DeathMark(AtCatch, 0));
    CatchParts(cfg, e, x, DropTo(cfg, e, keep, DeathMark(AtCatch, 0)));
  }

  lemma ApplyKeepsBeginning(cfg: Config, e: Engine, call: HookCall, text: string)
    requires LineInv(cfg, e) && BeginsWith(e.out, text)
    ensures BeginsWith(Apply(cfg, e, call).out, text)
  {
    match call
    case EnterCall(x) => EnterKeepsBeginning(cfg, e, x, text);
    case ExitCall(x) => ExitKeepsShape(cfg, e, x);
    case CatchCall(x) => CatchKeepsBeginning(cfg, e, x, text);
    case EventCall(_, _) =>
    case OpenCall(_, _, _, _) =>
  }

  lemma BeginningAtOpen(cfg: Config, e: Engine, open: HookCall)
    requires Untouched(e) && !e.out.isOpen && open.OpenCall?
    ensures BeginsWith(Apply(cfg, e, open).out, FirstText(open))
  {
  }

  lemma {:induction false} UntouchedInTrace(cfg: Config, calls: seq<HookCall>, es: seq<Engine>, n: nat)
    requires Trace(cfg, calls, es) && n <= |calls|
    ensures Untouched(es[n])
  {
    if n > 0 {
      UntouchedInTrace(cfg, calls, es, n - 1);
      assert RunsTo(cfg, calls, es, n - 1);
      ApplyUntouched(cfg, es[n - 1], calls[n - 1]);
    }
  }

  lemma {:induction false} BeginningStays(cfg: Config, calls: seq<HookCall>, es: seq<Engine>, n: nat, m: nat,
                                          text: string)
    requires Trace(cfg, calls, es) && n <= m <= |calls| && BeginsWith(es[n].out, text)
    ensures BeginsWith(es[m].out, text)
    decreases m
  {
    if n < m {
      BeginningStays(cfg, calls, es, n, m - 1, text);
      LineInvInTrace(cfg, calls, es, m - 1);
      assert RunsTo(cfg, calls, es, m - 1);
      ApplyKeepsBeginning(cfg, es[m - 1], calls[m - 1], text);
    }
  }

  /** Over every run: what earlier runs left, and behind it this run's header, is at the front of the file for good. */
  lemma EarlierRunsStay(cfg: Config, calls: seq<HookCall>, es: seq<Engine>, n: nat, m: nat)
    requires Trace(cfg, calls, es) && n < m <= |calls| && calls[n].OpenCall? && !es[n].out.isOpen
    ensures FirstText(calls[n]) <= es[m].out.file
  {
    UntouchedInTrace(cfg, calls, es, n);
    assert RunsTo(cfg, calls, es, n);
    BeginningAtOpen(cfg, es[n], calls[n]);
    BeginningStays(cfg, calls, es, n + 1, m, FirstText(calls[n]));
    LineInvInTrace(cfg, calls, es, m);
    BeginsInFile(cfg, es[m].out, FirstText(calls[n]));
  }

  // ---------- opens behind which nothing is patched ----------

  /** Without a descriptor to patch through, or without a seek to seed the cursor, no record ever knows its line. */
  lemma UnusableOpenPlacesNothing(cfg: Config, calls: seq<HookCall>, n: nat, m: nat)
    requires cfg.Patching() && n < m <= |calls| && calls[n].OpenCall? && !Run(cfg, calls[..n]).out.isOpen
    requires calls[n].header.Written? && !(calls[n].reopens && calls[n].seeks)
    ensures NoLineStarts(Run(cfg, calls[..m]).frames)
  {
    UntouchedHolds(cfg, calls[..n]);
    RunStep(cfg, calls, n);
    NoLaterFrameIsPatched(cfg, calls, n + 1, m);
  }
}
