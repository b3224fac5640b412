/**
The per-thread tracer of src/trace.cpp: the record stack, the depth and overflow counters and
the file, updated in place by the hooks. Every hook is proved to do exactly what the functions
of Hooks.dfy say, so every theorem about those functions is about this class.
*/
module Tracer {
  import opened Common
  import opened FrameReconcile
  import opened EventFormat
  import opened LineFormat
  import opened DurationFormat
  import opened TraceFile
  import opened Hooks
  import opened HookLemmas

  const INITIAL_FRAME_CAPACITY: nat := 2048

  class PerThreadTracer {
    const cfg: Config
    var frames: seq<FrameRecord>
    var capacity: nat
    var currentStackDepth: int
    var frameOverflowCount: nat
    var isOpen: bool
    var patchFd: bool
    var file: string
    var cursor: nat
    var cursorValid: bool
    ghost var original: string
    ghost var chunks: seq<Chunk>

    ghost predicate Valid()
      reads this
    {
      |frames| <= capacity && (!isOpen ==> NoLineStarts(frames))
    }

    ghost function Out(): Output
      reads this
    {
      Output(isOpen, patchFd, file, cursor, cursorValid, original, chunks)
    }

    ghost function View(): Engine
      reads this
    {
      Engine(frames, currentStackDepth, frameOverflowCount, Out())
    }

    constructor (cfg: Config)
      ensures Valid() && View() == START && this.cfg == cfg
    {
      this.cfg := cfg;
      frames, capacity, currentStackDepth, frameOverflowCount := [], 0, -1, 0;
      isOpen, patchFd, file, cursor, cursorValid := false, false, "", 0, true;
      original, chunks := "", [];
    }

    /** open_this_thread_file, once the file itself could be opened; `throws` when the header could not be built. */
    method OpenThisThreadFile(existing: string, header: Header, reopens: bool, seeks: bool) returns (throws: bool)
      requires Valid() && !isOpen
      modifies this`isOpen, this`file, this`original, this`patchFd, this`cursor, this`cursorValid
      ensures View() == old(View()).(out := Open(cfg, old(Out()), existing, header, reopens, seeks))
      ensures throws == header.HeaderThrows?
    {
      isOpen, file, original := true, existing, existing;
      if cfg.Patching() {
        patchFd := reopens;
      }
      if header.HeaderThrows? {
        return true;
      }
      file, original := existing + header.text, existing + header.text;
      if cfg.Patching() {
        if reopens {
          if seeks {
            cursor := |file|;
          } else {
            cursor, cursorValid := 0, false;
          }
        } else {
          cursorValid := false;
        }
      }
      return false;
    }

    /** get_thread_fp: opens the file on first use; whether there is one to write to, and whether it throws. */
    method GetThreadFp(o: Opening) returns (throws: bool, fp: bool)
      requires Valid()
      modifies this`isOpen, this`file, this`original, this`patchFd, this`cursor, this`cursorValid
      ensures Valid() && View() == old(View()).(out := GetFile(cfg, old(Out()), o))
      ensures throws == FileThrows(old(Out()), o) && fp == HasFile(cfg, old(Out()), o)
      ensures isOpen <==> old(isOpen) || o.Lazy?
      ensures fp <==> !o.Unavailable? && (old(isOpen) || (o.Lazy? && o.header.Written? && !o.listingThrows))
      ensures throws <==>
                && !old(isOpen)
                && ((o.NoFile? && o.pathThrows) || (o.Lazy? && (o.header.HeaderThrows? || o.listingThrows)))
    {
      throws := false;
      if !isOpen {
        match o
        case Unavailable =>
        case NoFile(pathThrows) => throws := pathThrows;
        case Lazy(existing, header, reopens, seeks, listingThrows) =>
          throws := OpenThisThreadFile(existing, header, reopens, seeks);
          throws := throws || listingThrows;
      }
      fp := !o.Unavailable? && !throws && isOpen;
    }

    method PatchLineBytes(lineStart: int, offset: nat, bytes: string)
      modifies this`file
      ensures Out() == PatchLine(old(Out()), lineStart, offset, bytes)
    {
      if !patchFd || lineStart < 0 {
        return;
      }
      file := Pwrite(file, lineStart + offset, bytes);
    }

    method MarkEnd(record: FrameRecord, how: char, field: Option<string>)
      modifies this`file
      ensures Out() == MarkFrameEnd(cfg, old(Out()), record, how, field)
    {
      if !cfg.exceptions || !record.logged || record.lineStart < 0 {
        return;
      }
      if cfg.elapsed && field.Some? {
        PatchLineBytes(record.lineStart, PLACEHOLDER_OFFSET, field.value);
      }
      if record.depth >= 1 {
        PatchLineBytes(record.lineStart, TreeGlyphOffset(record.depth, cfg.PrefixExtra()), [how]);
      }
    }

    method ReclaimDeadRecords(count: nat, where: Reclaim, uncaught: nat)
      requires Valid() && count <= |frames|
      modifies this`frames, this`currentStackDepth, this`file
      ensures Valid()
      ensures View() == DropTo(cfg, old(View()), old(|frames|) - count, DeathMark(where, uncaught))
    {
      var how := DeathMark(where, uncaught);
      var left := count;
      ghost var keep := |frames| - count;
      while left > 0
        invariant 0 <= left <= count && |frames| == keep + left && Valid()
        invariant DropTo(cfg, View(), keep, how) == DropTo(cfg, old(View()), keep, how)
      {
        left := left - 1;
        ghost var before := View();
        var dead := frames[|frames| - 1];
        frames := frames[..|frames| - 1];
        if dead.logged {
          currentStackDepth := currentStackDepth - 1;
          MarkEnd(dead, how, Some(Flagged(DURATION_UNWOUND, how)));
        }
        assert View() == PopDead(cfg, before, how);
      }
    }

    /** Pops the records of the top equal-level group above the one that carries the base name. */
    method ReclaimAboveName(level: Address, base: string, where: Reclaim, uncaught: nat)
      requires Valid()
      modifies this`frames, this`currentStackDepth, this`file
      ensures Valid()
      ensures View() == DropTo(cfg, old(View()), old(|frames| - AboveMatch(frames, level, HasBaseName(base))),
                               DeathMark(where, uncaught))
    {
      var dead := DeadRecordsAboveMatch(frames, level, HasBaseName(base));
      ReclaimDeadRecords(dead, where, uncaught);
    }

    method ReclaimDeadInlinedRecordsAboveParent(key: FrameKey, parentBase: string, uncaught: nat)
      requires Valid()
      modifies this`frames, this`currentStackDepth, this`file
      ensures Valid()
      ensures View() == DropTo(cfg, old(View()), KeptByParent(cfg, old(frames), key, parentBase),
                               DeathMark(AtEnter, uncaught))
    {
      if parentBase == "" || frames == [] {
        return;
      }
      var top := frames[|frames| - 1];
      if !(top.level > key.level) || !OnThreadStack(cfg.bounds, top.level) || !OnThreadStack(cfg.bounds, key.level) {
        return;
      }
      ReclaimAboveName(top.level, parentBase, AtEnter, uncaught);
    }

    /** One more record of the state `e0` goes. */
    method ReclaimOne(uncaught: nat, ghost e0: Engine)
      requires Valid() && frames != [] && View() == DropTo(cfg, e0, |frames|, DeathMark(AtEnter, uncaught))
      modifies this`frames, this`currentStackDepth, this`file
      ensures Valid() && |frames| == old(|frames|) - 1
      ensures View() == DropTo(cfg, e0, |frames|, DeathMark(AtEnter, uncaught))
    {
      DropCompose(cfg, e0, |frames|, |frames| - 1, DeathMark(AtEnter, uncaught));
      ReclaimDeadRecords(1, AtEnter, uncaught);
    }

    /** Pops records of the very frame that is entering again from the same place. */
    method ReclaimRepeatedFrame(key: FrameKey, uncaught: nat, ghost e0: Engine)
      requires Valid() && View() == e0
      modifies this`frames, this`currentStackDepth, this`file
      ensures Valid()
      ensures View() == DropTo(cfg, e0, |e0.frames| - TopSegment(e0.frames, SameFrame(key)),
                               DeathMark(AtEnter, uncaught))
    {
      ghost var n := |e0.frames|;
      while RepeatStands(key)
        invariant Valid() && n == |frames| && RepeatsDownTo(e0.frames, key, n)
        invariant View() == DropTo(cfg, e0, n, DeathMark(AtEnter, uncaught))
        decreases |frames|
      {
        RepeatOnTop(e0.frames, key, n);
        n := n - 1;
        ReclaimOne(uncaught, e0);
      }
      NoRepeatOnTop(e0.frames, key, n);
    }

    /** The top record is one of the very frame that is entering. */
    predicate RepeatStands(key: FrameKey)
      reads this
    {
      frames != [] && SameActivationSite(frames[|frames| - 1], key) && frames[|frames| - 1].level == key.level
    }

    /** Repeats are popped unless the chain begins with a recursion. */
    method ReclaimRepeats(key: FrameKey, chain: seq<string>, uncaught: nat, ghost e0: Engine)
      requires Valid() && View() == e0
      modifies this`frames, this`currentStackDepth, this`file
      ensures Valid()
      ensures View() == DropTo(cfg, e0, KeptAfterRepeats(e0.frames, key, chain), DeathMark(AtEnter, uncaught))
    {
      var recursiveInline := |chain| >= 2 && chain[0] == chain[1];
      if !recursiveInline {
        ReclaimRepeatedFrame(key, uncaught, e0);
      }
    }

    method ReclaimDeadInlinedRecordsOnEnter(key: FrameKey, chain: seq<string>, uncaught: nat)
      requires Valid()
      modifies this`frames, this`currentStackDepth, this`file
      ensures Valid()
      ensures View() == DropTo(cfg, old(View()), KeptByInlineChain(cfg, old(frames), key, chain),
                               DeathMark(AtEnter, uncaught))
    {
      if frames == [] || frames[|frames| - 1].level != key.level || !OnThreadStack(cfg.bounds, key.level) {
        return;
      }
      if chain == [] {
        return;
      }
      ReclaimInGroup(key, chain, uncaught, View());
    }

    /** Repeats of the entering frame, then what stands above its host. */
    method ReclaimInGroup(key: FrameKey, chain: seq<string>, uncaught: nat, ghost e0: Engine)
      requires Valid() && View() == e0 && ChainConsulted(cfg, e0.frames, key.level) && chain != []
      modifies this`frames, this`currentStackDepth, this`file
      ensures Valid()
      ensures View() == DropTo(cfg, e0, KeptByInlineChain(cfg, e0.frames, key, chain), DeathMark(AtEnter, uncaught))
    {
      ChainParts(cfg, e0.frames, key, chain);
      ReclaimRepeats(key, chain, uncaught, e0);
      if |chain| >= 2 {
        ReclaimAboveHost(key.level, chain[1], uncaught, e0, KeptAfterRepeats(e0.frames, key, chain));
      }
    }

    /** The host's name, once repeats are gone: `e0` is the state both reclaims started from. */
    method ReclaimAboveHost(level: Address, host: string, uncaught: nat, ghost e0: Engine, ghost kept: nat)
      requires Valid() && kept <= |e0.frames| && View() == DropTo(cfg, e0, kept, DeathMark(AtEnter, uncaught))
      modifies this`frames, this`currentStackDepth, this`file
      ensures Valid()
      ensures View() == DropTo(cfg, e0, kept - AboveMatch(e0.frames[..kept], level, HasBaseName(host)),
                               DeathMark(AtEnter, uncaught))
    {
      DropCompose(cfg, e0, kept, kept - AboveMatch(e0.frames[..kept], level, HasBaseName(host)),
                  DeathMark(AtEnter, uncaught));
      ReclaimAboveName(level, host, AtEnter, uncaught);
    }

    method ReclaimDeadInlinedRecordsOnCatch(catchLevel: Address, chain: seq<string>)
      requires Valid()
      modifies this`frames, this`currentStackDepth, this`file
      ensures Valid()
      ensures View() == DropTo(cfg, old(View()), KeptByCatchChain(cfg, old(frames), catchLevel, chain),
                               DeathMark(AtCatch, 0))
    {
      if frames == [] || frames[|frames| - 1].level != catchLevel || !OnThreadStack(cfg.bounds, catchLevel) {
        return;
      }
      if chain == [] {
        return;
      }
      ReclaimAboveName(catchLevel, chain[0], AtCatch, 0);
    }

    /** fwrite of a line, with the cursor bookkeeping. */
    method WriteLine(line: string, write: Write)
      modifies this`file, this`cursor, this`cursorValid, this`original
      ensures Out() == Append(cfg, old(Out()), line, write)
    {
      var bytes := match write case Full => line case Short(junk) => junk;
      file := file + bytes;
      original := original + bytes;
      if cfg.Patching() {
        if write.Full? {
          cursor := cursor + |line|;
        } else {
          cursorValid := false;
        }
      }
    }

    /** The call line in the build's columns. */
    method FormatCall(view: FrameView, callee: Address, depth: int) returns (line: string)
      ensures line == CallLine(cfg, view, callee, depth)
    {
      var buf := new char[FORMAT_BUF_SIZE];
      var addressed := view.(calleeAddress := if cfg.addr then Some(callee) else None);
      var size := FormatInto(buf, addressed, depth, cfg.Splice(), true);
      line := buf[..size];
    }

    /** The event line in the build's columns. */
    method FormatEvent(event: EventView, depth: int) returns (line: string)
      ensures line == EventText(cfg, event, depth)
    {
      var buf := new char[FORMAT_BUF_SIZE];
      var addressed := event.(address := if cfg.addr then event.address else None);
      var size := FormatEventInto(buf, addressed, depth, if cfg.elapsed then event.column + " " else "", true);
      line := buf[..size];
    }

    /** The logging part of the enter hook: format, count the depth, write. */
    method LogCall(view: FrameView, callee: Address, write: Write) returns (lineStart: nat)
      modifies this`currentStackDepth, this`file, this`cursor, this`cursorValid, this`original, this`chunks
      ensures currentStackDepth == old(currentStackDepth) + 1 && lineStart == old(cursor)
      ensures Out() == AppendCallLine(cfg, old(Out()), CallLine(cfg, view, callee, currentStackDepth),
                                      currentStackDepth, write)
    {
      var line := FormatCall(view, callee, currentStackDepth + 1);
      currentStackDepth := currentStackDepth + 1;
      lineStart := cursor;
      WriteLine(line, write);
      if cfg.Patching() && cursorValid && patchFd {
        chunks := chunks + [Chunk(lineStart, line, currentStackDepth)];
      }
    }

    /** The two reclaims of the enter hook that need no resolved frame. */
    method ReclaimBeforeResolve(x: EnterInput) returns (threw: bool)
      requires Valid()
      modifies this`frames, this`currentStackDepth, this`file
      ensures Valid() && threw == ChainThrew(cfg, old(frames), x)
      ensures View() == DropTo(cfg, old(View()), KeptBeforeResolve(cfg, old(frames), x),
                               DeathMark(AtEnter, x.uncaught))
    {
      var dead := DeadRecordsOnEnter(frames, x.key, cfg.bounds);
      ReclaimDeadRecords(dead, AtEnter, x.uncaught);
      threw := frames != [] && frames[|frames| - 1].level == x.key.level && OnThreadStack(cfg.bounds, x.key.level)
               && x.chain.ChainThrows?;
      if !x.chain.ChainThrows? {
        ReclaimByChain(x, old(View()));
      }
    }

    /** The inline chain, after the scan: `e0` is the state the scan started from. */
    method ReclaimByChain(x: EnterInput, ghost e0: Engine)
      requires Valid() && x.chain.Chain?
      requires View() == DropTo(cfg, e0, KeptByScan(cfg, e0.frames, x.key), DeathMark(AtEnter, x.uncaught))
      modifies this`frames, this`currentStackDepth, this`file
      ensures Valid()
      ensures View() == DropTo(cfg, e0, KeptBeforeResolve(cfg, e0.frames, x), DeathMark(AtEnter, x.uncaught))
    {
      ghost var scan := |frames|;
      ReclaimDeadInlinedRecordsOnEnter(x.key, x.chain.names, x.uncaught);
      DropCompose(cfg, e0, scan, |frames|, DeathMark(AtEnter, x.uncaught));
    }

    /**
    The first reclaims of the enter hook and its file: `eo` and `y` are the state and the input that come to. Whether
    there is a file to write to.
    */
    method ReclaimAndOpen(x: EnterInput, o: Opening, ghost eo: Engine, ghost y: EnterInput) returns (fp: bool)
      requires Valid() && frameOverflowCount == 0 && !x.roomThrows && !x.levelThrows
      requires eo == EnterFile(cfg, View(), x, o) && y == EnterSeen(cfg, View(), x, o)
      modifies this
      ensures Valid() && capacity == old(capacity)
      ensures fp == (!ChainThrew(cfg, old(frames), x) && HasFile(cfg, old(Out()), o))
      ensures View() == DropTo(cfg, eo, KeptBeforeResolve(cfg, eo.frames, y), DeathMark(AtEnter, y.uncaught))
    {
      ghost var e0 := View();
      var threw := ReclaimBeforeResolve(x);
      EnterOpensBehind(cfg, e0, x, o, View());
      fp := false;
      if !threw {
        threw, fp := GetThreadFp(o);
      }
    }

    /**
    The barrier of the enter hook once the level is known: everything else that can throw, in order. `e1` is what
    its reclaims come to.
    */
    method EnterBarrier(x: EnterInput, o: Opening, ghost eo: Engine, ghost y: EnterInput, ghost e1: Engine)
      returns (logged: bool, lineStart: nat)
      requires Valid() && frameOverflowCount == 0 && !x.roomThrows && !x.levelThrows
      requires eo == EnterFile(cfg, View(), x, o) && y == EnterSeen(cfg, View(), x, o)
      requires e1 == DropTo(cfg, eo, EnterKeeps(cfg, eo, y), DeathMark(AtEnter, y.uncaught))
      modifies this
      ensures Valid() && capacity == old(capacity) && |frames| <= old(|frames|)
      ensures logged == EnterLogs(cfg, eo, y) && (logged ==> y == x && x.resolution.Resolved? && isOpen)
      ensures y.(resolution := x.resolution) == x
      ensures logged ==> lineStart == e1.out.cursor && View() == WithLine(cfg, e1, y)
      ensures !logged ==> View() == e1
    {
      logged, lineStart := false, 0;
      var fp := ReclaimAndOpen(x, o, eo, y);
      LogsAfterReclaim(cfg, eo, y, View());
      if fp && x.resolution.Resolved? {
        ReclaimAboveParent(x, eo);
        lineStart := LogEnter(x);
        logged := true;
      }
    }

    /** The line of an entering frame. */
    method LogEnter(x: EnterInput) returns (lineStart: nat)
      requires Valid() && x.resolution.Resolved?
      modifies this`currentStackDepth, this`file, this`cursor, this`cursorValid, this`original, this`chunks
      ensures Valid() && lineStart == old(cursor) && View() == WithLine(cfg, old(View()), x)
    {
      lineStart := LogCall(x.resolution.view, x.key.callee, x.write);
    }

    /** The parent's name, after the reclaims that need no resolved frame: `e0` is the state they started from. */
    method ReclaimAboveParent(x: EnterInput, ghost e0: Engine)
      requires Valid() && EnterLogs(cfg, e0, x)
      requires View() == DropTo(cfg, e0, KeptBeforeResolve(cfg, e0.frames, x), DeathMark(AtEnter, x.uncaught))
      modifies this`frames, this`currentStackDepth, this`file
      ensures Valid()
      ensures View() == DropTo(cfg, e0, EnterKeeps(cfg, e0, x), DeathMark(AtEnter, x.uncaught))
    {
      ghost var kept := |frames|;
      ReclaimDeadInlinedRecordsAboveParent(x.key, x.resolution.parentBase, x.uncaught);
      DropCompose(cfg, e0, kept, |frames|, DeathMark(AtEnter, x.uncaught));
    }

    /** The push of the enter hook, which can no longer fail; `e1` is the state before the line was written. */
    method PushRecord(x: EnterInput, logged: bool, lineStart: nat, ghost e1: Engine)
      requires Valid() && |frames| < capacity
      requires logged ==> x.resolution.Resolved? && isOpen && !x.levelThrows && lineStart == e1.out.cursor
      modifies this`frames
      ensures Valid()
      ensures frames == old(frames)
                        + [if logged then NewRecord(cfg, e1, x, currentStackDepth, Out()) else UnloggedRecord(x)]
    {
      var record := FrameRecord(logged, x.key.callee, x.key.caller, if x.levelThrows then 0 else x.key.level,
                                if logged then Some(x.resolution.base) else None,
                                x.uncaught, if logged && cfg.elapsed then x.now else 0, -1, 0);
      if logged && cfg.Patching() && cursorValid {
        record := record.(lineStart := lineStart, depth := currentStackDepth);
      }
      frames := frames + [record];
    }

    /** The enter hook of a frame that has room for its record. */
    method EnterWithRoom(x: EnterInput, o: Opening)
      requires Valid() && |frames| < capacity && frameOverflowCount == 0 && !x.roomThrows
      modifies this
      ensures Valid()
      ensures View() == Enter(cfg, EnterFile(cfg, old(View()), x, o), EnterSeen(cfg, old(View()), x, o))
    {
      if x.levelThrows {
        RoomyEnter(cfg, View(), x, View());
        PushRecord(x, false, 0, View());
      } else {
        EnterAtLevel(x, o);
      }
    }

    /** The same once the frame's level is known. */
    method EnterAtLevel(x: EnterInput, o: Opening)
      requires Valid() && |frames| < capacity && frameOverflowCount == 0 && !x.roomThrows && !x.levelThrows
      modifies this
      ensures Valid()
      ensures View() == Enter(cfg, EnterFile(cfg, old(View()), x, o), EnterSeen(cfg, old(View()), x, o))
    {
      ghost var eo, y := EnterFile(cfg, View(), x, o), EnterSeen(cfg, View(), x, o);
      ghost var e1 := DropTo(cfg, eo, EnterKeeps(cfg, eo, y), DeathMark(AtEnter, y.uncaught));
      RoomyEnter(cfg, eo, y, e1);
      PushBehindBarrier(x, o, eo, y, e1);
    }

    /** The push, once the barrier has left `e1`, with the line or without. */
    method PushOnto(x: EnterInput, logged: bool, lineStart: nat, ghost y: EnterInput, ghost e1: Engine)
      requires Valid() && |frames| < capacity && !x.levelThrows && y.(resolution := x.resolution) == x
      requires logged ==> y == x && x.resolution.Resolved? && isOpen && lineStart == e1.out.cursor
      requires View() == if logged then WithLine(cfg, e1, y) else e1
      modifies this`frames
      ensures Valid()
      ensures logged ==>
                var e2 := WithLine(cfg, e1, y);
                View() == e2.(frames := e1.frames + [NewRecord(cfg, e1, y, e2.depth, e2.out)])
      ensures !logged ==> View() == e1.(frames := e1.frames + [UnloggedRecord(y)])
    {
      PushRecord(x, logged, lineStart, e1);
    }

    /** The barrier and the push. */
    method PushBehindBarrier(x: EnterInput, o: Opening, ghost eo: Engine, ghost y: EnterInput, ghost e1: Engine)
      requires Valid() && |frames| < capacity && frameOverflowCount == 0 && !x.roomThrows && !x.levelThrows
      requires eo == EnterFile(cfg, View(), x, o) && y == EnterSeen(cfg, View(), x, o)
      requires e1 == DropTo(cfg, eo, EnterKeeps(cfg, eo, y), DeathMark(AtEnter, y.uncaught))
      modifies this
      ensures Valid()
      ensures EnterLogs(cfg, eo, y) ==>
                var e2 := WithLine(cfg, e1, y);
                View() == e2.(frames := e1.frames + [NewRecord(cfg, e1, y, e2.depth, e2.out)])
      ensures !EnterLogs(cfg, eo, y) ==> View() == e1.(frames := e1.frames + [UnloggedRecord(y)])
    {
      var logged, lineStart := EnterBarrier(x, o, eo, y, e1);
      PushOnto(x, logged, lineStart, y, e1);
    }

    /**
    __cyg_profile_func_enter; the frame stack can only fail to grow when it is full. The lazy open of the file behind
    the first reclaims comes to the same as one in front of the hook.
    */
    method OnEnter(x: EnterInput, o: Opening)
      requires Valid()
      modifies this
      ensures Valid()
      ensures var e, z := old(View()), x.(roomThrows := x.roomThrows && old(|frames| == capacity));
              View() == Enter(cfg, EnterFile(cfg, e, z, o), EnterSeen(cfg, e, z, o))
    {
      if frameOverflowCount > 0 {
        frameOverflowCount := frameOverflowCount + 1;
        return;
      }
      if |frames| == capacity {
        if x.roomThrows {
          frameOverflowCount := frameOverflowCount + 1;
          return;
        }
        capacity := if frames == [] then INITIAL_FRAME_CAPACITY else capacity * 2;
      }
      EnterWithRoom(x.(roomThrows := false), o);
    }

    /** Popping the exiting frame's own record and finishing its line. */
    method FinishTop(x: ExitInput)
      requires Valid() && frames != []
      modifies this`frames, this`currentStackDepth, this`file
      ensures Valid() && View() == Finished(cfg, old(View()), x, |old(frames)| - 1)
    {
      var record := frames[|frames| - 1];
      frames := frames[..|frames| - 1];
      if record.logged {
        currentStackDepth := currentStackDepth - 1;
        FinishRecordLine(record, x);
      }
    }

    /** The duration field of a frame that exits, flagged if an exception is leaving it. */
    method FormatExitField(record: FrameRecord, x: ExitInput, byException: bool) returns (text: string)
      requires byException == (cfg.exceptions && x.uncaught > record.uncaughtAtEnter)
      ensures text == ExitField(cfg, record, x)
    {
      var elapsed := x.now - record.enterTime;
      var field := new char[DURATION_FIELD_WIDTH + 1];
      FormatDuration12Chars(if elapsed < 0 then 0 else elapsed, field);
      if byException {
        field[1] := FRAME_END_EXCEPTION;
      }
      text := field[..DURATION_FIELD_WIDTH];
    }

    /** The patches of a logged frame that exits: its duration, and its mark if an exception is leaving it. */
    method FinishRecordLine(record: FrameRecord, x: ExitInput)
      modifies this`file
      ensures Out() == FinishLine(cfg, old(Out()), record, x)
    {
      var byException := cfg.exceptions && x.uncaught > record.uncaughtAtEnter;
      if cfg.elapsed {
        var field := FormatExitField(record, x, byException);
        PatchLineBytes(record.lineStart, PLACEHOLDER_OFFSET, field);
      }
      if byException {
        MarkEnd(record, FRAME_END_EXCEPTION, None);
      }
    }

    /** __cyg_profile_func_exit */
    method OnExit(x: ExitInput)
      requires Valid()
      modifies this
      ensures Valid() && View() == Exit(cfg, old(View()), x)
    {
      if frameOverflowCount > 0 {
        frameOverflowCount := frameOverflowCount - 1;
        return;
      }
      if frames == [] {
        return;
      }
      var index := ExitingRecordIndex(frames, x.key, x.tailCalled, cfg.bounds);
      ExitIsFinished(cfg, View(), x);
      ReclaimDeadRecords(|frames| - 1 - index, AtExit, x.uncaught);
      FinishTop(x);
    }

    /** write_event_line: one level below the innermost logged frame, unless the lazy open in front of it throws. */
    method WriteEventLine(event: EventView, write: Write, o: Opening) returns (threw: bool)
      requires Valid()
      modifies this`isOpen, this`patchFd, this`file, this`cursor, this`cursorValid, this`original
      ensures Valid() && threw == FileThrows(old(Out()), o)
      ensures View() == EventLineOpening(cfg, old(View()), event, write, o)
    {
      var fp;
      threw, fp := GetThreadFp(o);
      if fp {
        var line := FormatEvent(event, currentStackDepth + 1);
        EventLineAppends(cfg, View(), event, write, line);
        WriteLine(line, write);
      }
    }

    /** The reclaims of on_catch. */
    method ReclaimAtCatch(x: CatchInput) returns (threw: bool)
      requires Valid() && !x.resolveThrows
      modifies this`frames, this`currentStackDepth, this`file
      ensures Valid() && threw == !CatchAsks(cfg, old(frames), x)
      ensures View() == DropTo(cfg, old(View()), CatchKeeps(cfg, old(frames), x), DeathMark(AtCatch, 0))
    {
      ghost var e0 := View();
      var level := if x.isTerminateStub then x.level + 1 else x.level;
      var dead := DeadRecordsOnCatch(frames, level, cfg.bounds);
      ReclaimDeadRecords(dead, AtCatch, 0);
      threw := false;
      if !x.isTerminateStub {
        threw := frames != [] && frames[|frames| - 1].level == x.level && OnThreadStack(cfg.bounds, x.level)
                 && x.chain.ChainThrows?;
        if !x.chain.ChainThrows? {
          ReclaimByCatchChain(x, e0);
        }
      }
    }

    /** The chain at the catch site, after the level rule: `e0` is the state that started from. */
    method ReclaimByCatchChain(x: CatchInput, ghost e0: Engine)
      requires Valid() && !x.resolveThrows && !x.isTerminateStub && x.chain.Chain?
      requires View() == DropTo(cfg, e0, KeptByCatch(cfg, e0.frames, x), DeathMark(AtCatch, 0))
      modifies this`frames, this`currentStackDepth, this`file
      ensures Valid() && View() == DropTo(cfg, e0, CatchKeeps(cfg, e0.frames, x), DeathMark(AtCatch, 0))
    {
      ghost var kept := |frames|;
      ReclaimDeadInlinedRecordsOnCatch(x.level, x.chain.names);
      DropCompose(cfg, e0, kept, |frames|, DeathMark(AtCatch, 0));
    }

    /** on_catch; it answers whether the program is terminating, the exception stopped at a noexcept boundary. */
    method OnCatch(x: CatchInput, o: Opening) returns (terminating: bool)
      requires Valid()
      modifies this
      ensures Valid()
      ensures var e := old(View()); View() == Catch(cfg, CatchFile(cfg, e, x, o), CatchSeen(cfg, e, x, o))
      ensures terminating == (x.isTerminateStub && !x.resolveThrows && !FileThrows(old(Out()), o))
    {
      terminating := false;
      if x.resolveThrows {
        return;
      }
      ghost var e := View();
      var threw := ReclaimAtCatch(x);
      CatchOpensBehind(cfg, e, x, o, View());
      if !threw {
        threw := WriteEventLine(x.event, x.write, o);
        terminating := x.isTerminateStub && !threw;
      }
    }
  }
}
