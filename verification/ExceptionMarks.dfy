/**
Which frames the exit hook marks as ended by an exception (src/trace.cpp): the ones that see more exceptions in
flight at exit than at enter. Call trees of throws, handlers, rethrows and destructors run as section 2.2.2 of
the Itanium C++ ABI for exception handling counts them, with exit hooks on the unwind path.
*/
module ExceptionMarks {
  import opened Common
  import opened DurationFormat
  import opened LineFormat
  import opened FrameReconcile
  import opened TraceFile
  import opened Hooks

  /** An instrumented function. */
  datatype Func = Func(id: nat, isNoexcept: bool, body: Block)

  /** Statements in order; a local object's destructor runs whichever way the block behind it is left. */
  datatype Block = End | Then(first: Stmt, rest: Block) | Local(destructor: Func, rest: Block)

  datatype Stmt =
    | Call(f: Func)
    | Throw
    | Rethrow
    | Return
    | Try(body: Block, matches: bool, handler: Block)

  /** uncaughtExceptions of the thread, and how many handlers it is in. */
  datatype Flight = Flight(uncaught: nat, handling: nat)

  datatype Outcome = Normal | Returning | Leaving | Terminated

  /** What the hooks of one finished frame saw, and how it ended. */
  datatype Exited = Exited(id: nat, atEnter: nat, atExit: nat, byException: bool)

  datatype Result = Result(outcome: Outcome, now: Flight, exits: seq<Exited>)

  /** A throw or rethrow puts one exception in flight; entering a handler takes one out. */
  function Thrown(s: Flight): Flight { s.(uncaught := s.uncaught + 1) }

  function BeginCatch(s: Flight): Flight {
    Flight(if s.uncaught > 0 then s.uncaught - 1 else 0, s.handling + 1)
  }

  function EndCatch(s: Flight): Flight {
    s.(handling := if s.handling > 0 then s.handling - 1 else 0)
  }

  /** A frame: enter hook, body, exit hook; an exception at the edge of a noexcept function ends the program. */
  function RunFunc(f: Func, s: Flight): Result
    decreases f, 1
  {
    var r := RunBlock(f.body, s);
    if r.outcome.Terminated? || (r.outcome.Leaving? && f.isNoexcept) then r.(outcome := Terminated)
    else Result(if r.outcome.Leaving? then Leaving else Normal, r.now,
                r.exits + [Exited(f.id, s.uncaught, r.now.uncaught, r.outcome.Leaving?)])
  }

  function RunBlock(b: Block, s: Flight): Result
    decreases b, 0
  {
    match b
    case End => Result(Normal, s, [])
    case Then(first, rest) =>
      var r := RunStmt(first, s);
      if !r.outcome.Normal? then r
      else
        var q := RunBlock(rest, r.now);
        q.(exits := r.exits + q.exits)
    case Local(destructor, rest) =>
      var r := RunBlock(rest, s);
      if r.outcome.Terminated? then r
      else
        var d := RunFunc(destructor, r.now);
        Result(AfterDestructor(r.outcome, d.outcome), d.now, r.exits + d.exits)
  }

  /** A destructor that throws while an exception unwinds past it ends the program. */
  function AfterDestructor(left: Outcome, destructor: Outcome): Outcome {
    if destructor.Terminated? || (destructor.Leaving? && left.Leaving?) then Terminated
    else if destructor.Leaving? then Leaving
    else left
  }

  function RunStmt(t: Stmt, s: Flight): Result
    decreases t, 0
  {
    match t
    case Call(f) => RunFunc(f, s)
    case Throw => Result(Leaving, Thrown(s), [])
    case Rethrow => if s.handling == 0 then Result(Terminated, s, []) else Result(Leaving, Thrown(s), [])
    case Return => Result(Returning, s, [])
    case Try(body, matches, handler) =>
      var r := RunBlock(body, s);
      if !r.outcome.Leaving? || !matches then r
      else
        var h := RunBlock(handler, BeginCatch(r.now));
        Result(h.outcome, EndCatch(h.now), r.exits + h.exits)
  }

  /**
  One exception more is in flight exactly when one is leaving, every handler entered is left, and every frame
  that ended saw the difference exactly if an exception left it.
  */
  ghost predicate Counted(s: Flight, r: Result) {
    && (r.outcome.Normal? || r.outcome.Returning? ==> r.now == s)
    && (r.outcome.Leaving? ==> r.now == Thrown(s))
    && (forall e | e in r.exits :: e.atExit == e.atEnter + if e.byException then 1 else 0)
  }

  lemma {:induction false} FuncCounts(f: Func, s: Flight)
    ensures Counted(s, RunFunc(f, s))
    decreases f, 1
  {
    BlockCounts(f.body, s);
  }

  lemma {:induction false} BlockCounts(b: Block, s: Flight)
    ensures Counted(s, RunBlock(b, s))
    decreases b, 0
  {
    match b
    case End =>
    case Then(first, rest) =>
      StmtCounts(first, s);
      BlockCounts(rest, RunStmt(first, s).now);
    case Local(destructor, rest) =>
      BlockCounts(rest, s);
      FuncCounts(destructor, RunBlock(rest, s).now);
  }

  lemma {:induction false} StmtCounts(t: Stmt, s: Flight)
    ensures Counted(s, RunStmt(t, s))
    decreases t, 0
  {
    match t
    case Call(f) => FuncCounts(f, s);
    case Throw =>
    case Rethrow =>
    case Return =>
    case Try(body, matches, handler) =>
      BlockCounts(body, s);
      BlockCounts(handler, BeginCatch(RunBlock(body, s).now));
  }

  /**
  Over any call tree, from any number of exceptions already in flight: an exit hook sees a higher count than its
  enter hook if and only if an exception is leaving that very frame. A destructor run by the unwinding, and
  whatever it calls, sees the same count twice.
  */
  lemma HigherCountIffLeftByException(f: Func, s: Flight, e: Exited)
    requires e in RunFunc(f, s).exits
    ensures e.atExit > e.atEnter <==> e.byException
  {
    FuncCounts(f, s);
  }

  /** No exception leaves a noexcept function: where one would, the program ends, and the exit hook does not run. */
  lemma NoexceptEndsTheProgram(f: Func, s: Flight)
    requires f.isNoexcept
    ensures !RunFunc(f, s).outcome.Leaving?
    ensures RunBlock(f.body, s).outcome.Leaving? ==>
              RunFunc(f, s).outcome.Terminated? && RunFunc(f, s).exits == RunBlock(f.body, s).exits
  {
  }

  /** A rethrow outside every handler ends the program; one in a handler sends the exception on as it came. */
  lemma RethrowNeedsAHandler(s: Flight, more: Block)
    ensures s.handling == 0 ==> RunStmt(Rethrow, s).outcome.Terminated?
    ensures RunStmt(Try(Then(Throw, more), true, Then(Rethrow, End)), s) == Result(Leaving, Thrown(s), [])
  {
    assert RunBlock(Then(Throw, more), s) == Result(Leaving, Thrown(s), []);
    assert RunBlock(Then(Rethrow, End), BeginCatch(Thrown(s)))
        == Result(Leaving, Thrown(BeginCatch(Thrown(s))), []);
  }

  /** Byte 1 of the exit hook's field is the flag exactly if the count is higher. */
  lemma FieldFlag(cfg: Config, r: FrameRecord, x: ExitInput)
    requires cfg.exceptions
    ensures ExitField(cfg, r, x)[1] == FRAME_END_EXCEPTION <==> x.uncaught > r.uncaughtAtEnter
  {
    BlankByte(if x.now - r.enterTime < 0 then 0 else x.now - r.enterTime);
  }

  lemma BlankByte(ns: nat)
    ensures DurationText(ns)[1] != FRAME_END_EXCEPTION
            && Flagged(DurationText(ns), FRAME_END_EXCEPTION)[1] == FRAME_END_EXCEPTION
  {
    FlagByteIsFree(ns, 'x');
  }

  /**
  What that makes of the frame's line: the field the exit hook writes carries the exception flag exactly then, and
  its glyph is marked exactly then.
  */
  lemma LineIsFlaggedIffLeftByException(cfg: Config, out: Output, f: Func, s: Flight, e: Exited, r: FrameRecord,
                                       x: ExitInput)
    requires e in RunFunc(f, s).exits && cfg.exceptions
    requires r.uncaughtAtEnter == e.atEnter && x.uncaught == e.atExit
    ensures ExitField(cfg, r, x)[1] == FRAME_END_EXCEPTION <==> e.byException
    ensures var timed := if cfg.elapsed then PatchLine(out, r.lineStart, PLACEHOLDER_OFFSET, ExitField(cfg, r, x))
                         else out;
            FinishLine(cfg, out, r, x)
            == if e.byException then MarkFrameEnd(cfg, timed, r, FRAME_END_EXCEPTION, None) else timed
  {
    HigherCountIffLeftByException(f, s, e);
    FieldFlag(cfg, r, x);
  }
}
