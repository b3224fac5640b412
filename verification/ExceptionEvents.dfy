/**
The exception events of src/exceptions.cpp: what the five interposers log, with the two thread-local variables
they keep, beside the handlers the thread is really in. Over every run nothing is logged after the terminate
line, and a rethrow of an exception another runtime threw is labelled by what was caught last.
*/
module ExceptionEvents {
  import opened Common

  /** The runtime's own exceptions have a type; the others only a label. */
  datatype Kind = Native(typ: string) | ForcedUnwind | Foreign

  /** foreign_exception_label */
  function Label(k: Kind): Option<string> {
    match k
    case Native(_) => None
    case ForcedUnwind => Some("(forced unwind)")
    case Foreign => Some("(foreign exception)")
  }

  function TypeOf(k: Kind): Option<string> {
    match k case Native(t) => Some(t) case _ => None
  }

  /** Who called __cxa_begin_catch: a handler, the runtime giving up, or a noexcept stub the tracer knows by name. */
  datatype Catcher = Handler | GivingUp | Stub

  datatype Call =
    | ThrowCall(typ: string)
    | RethrowCall
    | RethrowPointer(typ: string)
    | BeginCatch(kind: Kind, catcher: Catcher)
    | EndCatch
    | TerminateCall

  /**
  One call of the runtime, perhaps from inside the tracer, whose own exceptions are no events. `lost` says that an
  allocation failed on the way to the line, which then goes unwritten.
  */
  datatype Step = Step(call: Call, insideTracer: bool, lost: bool)

  datatype Line =
    | Thrown(typ: string)
    | Rethrown(named: Option<string>, tag: Option<string>)
    | RethrownPointer(typ: string)
    | Caught(named: Option<string>, tag: Option<string>)
    | Terminated

  /** t_terminating, t_last_caught_label, the handlers entered and not left, innermost last, and the lines. */
  datatype World = World(terminating: bool, lastLabel: Option<string>, handled: seq<Kind>, log: seq<Line>)

  const DAWN := World(false, None, [], [])

  function Current(w: World): Option<Kind> {
    if w.handled == [] then None else Some(w.handled[|w.handled| - 1])
  }

  function CurrentType(w: World): Option<string> {
    match Current(w) case None => None case Some(k) => TypeOf(k)
  }

  /** The line a rethrow logs now, its label taken from the last catch when the runtime has no type to name. */
  function RethrowLine(w: World): Line {
    Rethrown(CurrentType(w), if CurrentType(w) == None then w.lastLabel else None)
  }

  predicate Logs(w: World, s: Step) { !s.insideTracer && !w.terminating }

  /** What the runtime does with its handlers. */
  function Forwarded(w: World, c: Call): World {
    match c
    case BeginCatch(kind, _) => w.(handled := w.handled + [kind])
    case EndCatch => w.(handled := if w.handled == [] then [] else w.handled[..|w.handled| - 1])
    case _ => w
  }

  function Next(w: World, s: Step): World {
    var f := Forwarded(w, s.call);
    if !Logs(w, s) then f
    else
      var line := LineOf(w, s.call);
      var logged := if s.lost || line == None then f.log else f.log + [line.value];
      match s.call
      case RethrowCall => f.(log := logged, lastLabel := None)
      case BeginCatch(kind, catcher) =>
        f.(log := logged, lastLabel := Label(kind), terminating := catcher.GivingUp? || (catcher.Stub? && !s.lost))
      case TerminateCall => f.(log := logged, terminating := true)
      case _ => f.(log := logged)
  }

  function LineOf(w: World, c: Call): Option<Line> {
    match c
    case ThrowCall(typ) => Some(Thrown(typ))
    case RethrowCall => Some(RethrowLine(w))
    case RethrowPointer(typ) => Some(RethrownPointer(typ))
    case BeginCatch(kind, catcher) => Some(if catcher.Handler? then Caught(TypeOf(kind), Label(kind)) else Terminated)
    case EndCatch => None
    case TerminateCall => Some(Terminated)
  }

  function Run(steps: seq<Step>): World {
    if steps == [] then DAWN else Next(Run(steps[..|steps| - 1]), steps[|steps| - 1])
  }

  // ---------- the terminate line ----------

  /** The terminate line is the last one, there is at most one, and the flag is set once it is there. */
  ghost predicate TerminatesOnce(w: World) {
    && (forall i | 0 <= i < |w.log| - 1 :: w.log[i] != Terminated)
    && (w.log != [] && w.log[|w.log| - 1] == Terminated ==> w.terminating)
  }

  /**
  Over every run: however the program comes to terminate, it says so at most once, and logs nothing behind it. If
  no line is lost, it says so exactly when it is terminating.
  */
  lemma {:induction false} NothingAfterTerminate(steps: seq<Step>)
    ensures TerminatesOnce(Run(steps))
    ensures (forall s | s in steps :: !s.lost) ==>
              (Run(steps).terminating <==> Run(steps).log != [] && Run(steps).log[|Run(steps).log| - 1] == Terminated)
  {
    if steps != [] {
      NothingAfterTerminate(steps[..|steps| - 1]);
    }
  }

  lemma {:induction false} TerminatingIsFinal(steps: seq<Step>, more: seq<Step>)
    requires Run(steps).terminating
    ensures Run(steps + more).log == Run(steps).log && Run(steps + more).terminating
    decreases |more|
  {
    if more == [] {
      assert steps + more == steps;
    } else {
      assert (steps + more)[..|steps + more| - 1] == steps + more[..|more| - 1];
      TerminatingIsFinal(steps, more[..|more| - 1]);
    }
  }

  // ---------- the label of a rethrow ----------

  /** The last catch or rethrow the interposers took note of before step `n`, if any. */
  function LastMark(steps: seq<Step>, n: nat): (i: int)
    requires n <= |steps|
    ensures -1 <= i < n
  {
    if n == 0 then -1
    else if Logs(Run(steps[..n - 1]), steps[n - 1]) && (steps[n - 1].call.BeginCatch? || steps[n - 1].call.RethrowCall?)
    then n - 1
    else LastMark(steps, n - 1)
  }

  function LabelOfMark(steps: seq<Step>, i: int): Option<string>
    requires -1 <= i < |steps|
  {
    if 0 <= i && steps[i].call.BeginCatch? then Label(steps[i].call.kind) else None
  }

  lemma {:induction false} LabelIsOfLastMark(steps: seq<Step>, n: nat)
    requires n <= |steps|
    ensures Run(steps[..n]).lastLabel == LabelOfMark(steps, LastMark(steps, n))
  {
    if n > 0 {
      assert steps[..n][..n - 1] == steps[..n - 1];
      LabelIsOfLastMark(steps, n - 1);
    }
  }

  /**
  A rethrow of an exception the runtime did not throw carries that exception's label if and only if the last
  catch or rethrow the interposers took note of was a catch of one labelled the same: a handler entered and left in
  between, or an earlier rethrow, takes the label away.
  */
  lemma RethrowLabelIff(steps: seq<Step>, w: World, k: Kind)
    requires w == Run(steps) && Current(w) == Some(k) && !k.Native?
    ensures RethrowLine(w) == Rethrown(None, Label(k)) <==> LastCaughtLike(steps, k)
  {
    ForeignRethrow(w, k);
    assert steps[..|steps|] == steps;
    LabelIsOfLastMark(steps, |steps|);
  }

  /** The last catch or rethrow taken note of is a catch of an exception labelled like `k`. */
  predicate LastCaughtLike(steps: seq<Step>, k: Kind) {
    var i := LastMark(steps, |steps|);
    i >= 0 && steps[i].call.BeginCatch? && Label(steps[i].call.kind) == Label(k)
  }

  lemma ForeignRethrow(w: World, k: Kind)
    requires Current(w) == Some(k) && !k.Native?
    ensures RethrowLine(w) == Rethrown(None, w.lastLabel)
  {
  }

  /** A rethrow of the runtime's own exception always names its type, whatever was caught in between. */
  lemma NativeRethrowNamesItsType(steps: seq<Step>, k: Kind)
    requires Current(Run(steps)) == Some(k) && k.Native?
    ensures RethrowLine(Run(steps)) == Rethrown(Some(k.typ), None)
  {
  }

  /** catch (...) of a forced unwind, a try block in the handler whose exception is caught, then `throw;`. */
  lemma NestedCatchTakesTheLabel()
    ensures var steps := [Step(BeginCatch(ForcedUnwind, Handler), false, false), Step(ThrowCall("int"), false, false),
                          Step(BeginCatch(Native("int"), Handler), false, false), Step(EndCatch, false, false)];
            Current(Run(steps)) == Some(ForcedUnwind) && RethrowLine(Run(steps)) == Rethrown(None, None)
  {
    var a := Step(BeginCatch(ForcedUnwind, Handler), false, false);
    var b, c, d := Step(ThrowCall("int"), false, false), Step(BeginCatch(Native("int"), Handler), false, false),
        Step(EndCatch, false, false);
    assert [a, b, c, d][..3] == [a, b, c] && [a, b, c][..2] == [a, b] && [a, b][..1] == [a] && [a][..0] == [];
    assert Run([a]) == Next(DAWN, a);
    assert Run([a, b]) == Next(Run([a]), b);
    assert Run([a, b, c]) == Next(Run([a, b]), c);
  }

  // ---------- what the log tells ----------

  /** The step makes the program terminate, as far as the interposers can tell. */
  predicate Terminates(s: Step) {
    && !s.insideTracer
    && match s.call
       case TerminateCall => true
       case BeginCatch(_, catcher) => catcher.GivingUp? || (catcher.Stub? && !s.lost)
       case _ => false
  }

  /** The program is taken to be terminating if and only if some step made it so. */
  lemma {:induction false} TerminatingIff(steps: seq<Step>)
    ensures Run(steps).terminating <==> exists i | 0 <= i < |steps| :: Terminates(steps[i])
  {
    if steps != [] {
      var n := |steps| - 1;
      TerminatingIff(steps[..n]);
      assert (exists i | 0 <= i < n :: Terminates(steps[..n][i])) <==> exists i | 0 <= i < n :: Terminates(steps[i]);
      assert Run(steps).terminating <==> Run(steps[..n]).terminating || Terminates(steps[n]);
    }
  }

  /** The step adds no line. */
  predicate Silent(s: Step) {
    s.insideTracer || s.lost || s.call.EndCatch?
  }

  /** The steps that are told, by their numbers, while the program is not terminating. */
  function Told(steps: seq<Step>): (told: seq<nat>)
    ensures forall k | 0 <= k < |told| :: told[k] < |steps|
  {
    if steps == [] then []
    else
      var n := |steps| - 1;
      Told(steps[..n])
      + if Silent(steps[n]) then [] else [n]
  }

  /** The line says what the call does: throws this type, catches an exception of this kind, or throws it again. */
  predicate TellsOf(line: Line, call: Call, before: seq<Step>) {
    match call
    case ThrowCall(typ) => line == Thrown(typ)
    case RethrowPointer(typ) => line == RethrownPointer(typ)
    case BeginCatch(Native(typ), Handler) => line == Caught(Some(typ), None)
    case BeginCatch(ForcedUnwind, Handler) => line == Caught(None, Some("(forced unwind)"))
    case BeginCatch(Foreign, Handler) => line == Caught(None, Some("(foreign exception)"))
    case RethrowCall => line.Rethrown? && TellsWhatIsHandled(line, before)
    case _ => false
  }

  predicate Tells(line: Line, steps: seq<Step>, n: nat)
    requires n < |steps|
  {
    TellsOf(line, steps[n].call, steps[..n])
  }

  /** A rethrow names the type that is handled; of an exception without one it has the label if that was caught last. */
  predicate TellsWhatIsHandled(line: Line, before: seq<Step>)
    requires line.Rethrown?
  {
    match Current(Run(before))
    case Some(Native(typ)) => line.named == Some(typ) && line.tag == None
    case Some(k) => line.named == None && (line.tag == Label(k) <==> LastCaughtLike(before, k))
    case None => line.named == None
  }

  lemma RethrowTells(steps: seq<Step>)
    ensures TellsWhatIsHandled(RethrowLine(Run(steps)), steps)
  {
    match Current(Run(steps))
    case Some(Native(typ)) => NativeRethrowNamesItsType(steps, Native(typ));
    case Some(k) => RethrowLabelIff(steps, Run(steps), k);
    case None =>
  }

  lemma TellsInPrefix(line: Line, steps: seq<Step>, n: nat)
    requires n < |steps| - 1 && Tells(line, steps[..|steps| - 1], n)
    ensures Tells(line, steps, n)
  {
    assert steps[..|steps| - 1][..n] == steps[..n];
  }

  lemma NextAdds(w: World, s: Step)
    requires !Next(w, s).terminating
    ensures !w.terminating
    ensures if Silent(s) then Next(w, s).log == w.log
            else && LineOf(w, s.call).Some? && LineOf(w, s.call) != Some(Terminated)
                 && Next(w, s).log == w.log + [LineOf(w, s.call).value]
  {
  }

  lemma LineTells(call: Call, w: World, before: seq<Step>)
    requires w == Run(before) && LineOf(w, call).Some? && LineOf(w, call) != Some(Terminated)
    ensures TellsOf(LineOf(w, call).value, call, before)
  {
    match call
    case RethrowCall => RethrowTells(before);
    case ThrowCall(_) =>
    case RethrowPointer(_) =>
    case BeginCatch(_, _) =>
  }

  /** A longer log over a longer run. */
  lemma OneMoreTold(log: seq<Line>, told: seq<nat>, steps: seq<Step>, line: Line)
    requires steps != [] && |log| == |told| && Tells(line, steps, |steps| - 1)
    requires forall k | 0 <= k < |told| :: told[k] < |steps| - 1 && Tells(log[k], steps, told[k])
    ensures var more, longer := told + [|steps| - 1], log + [line];
            |longer| == |more| && forall k | 0 <= k < |more| :: more[k] < |steps| && Tells(longer[k], steps, more[k])
  {
  }

  /**
  Over every run that is not terminating, the log has a line for every step that is told, in order, and each says what
  its step does.
  */
  lemma {:induction false} LogTellsTheEvents(steps: seq<Step>)
    requires !Run(steps).terminating
    ensures |Run(steps).log| == |Told(steps)|
    ensures forall k | 0 <= k < |Told(steps)| :: Tells(Run(steps).log[k], steps, Told(steps)[k])
  {
    if steps != [] {
      var n := |steps| - 1;
      var w := Run(steps[..n]);
      NextAdds(w, steps[n]);
      LogTellsTheEvents(steps[..n]);
      forall k | 0 <= k < |Told(steps[..n])|
        ensures Tells(w.log[k], steps, Told(steps[..n])[k])
      {
        TellsInPrefix(w.log[k], steps, Told(steps[..n])[k]);
      }
      if !Silent(steps[n]) {
        LineTells(steps[n].call, w, steps[..n]);
        OneMoreTold(w.log, Told(steps[..n]), steps, LineOf(w, steps[n].call).value);
      }
    }
  }
}
