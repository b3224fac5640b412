/**
The registry of open trace files (src/trace.cpp): threads open their file on first use and list it, leave by
closing it and taking it off the list, and a shutdown flushes what is listed, clears the list and says so.
Every action below is one step another thread can come between; what happens under the registry's mutex is
several steps too.
*/
module Registry {
  import opened Common

  type Tid = nat
  type Stream = nat

  datatype Pc =
    | Running
    | Opening                 // saw no shutdown, not yet opened
    | WantListing | Listing   // the stream is installed; the registry's mutex is awaited, held
    | WantClosing | Closing | Unlisting
    | WantFlush | Flushing(next: nat) | Completing

  /**
  A thread and its file object: `alive` until the destructor has ended; `guarded` is the re-entrancy guard set
  for good; `unlisted` records that listing the file threw.
  */
  datatype Thread = Thread(
    pc: Pc, alive: bool, guarded: bool, attempted: bool, fp: Option<Stream>, registered: bool, unlisted: bool)

  /**
  `started` names the caller that won the shutdown. `owner` has every stream ever opened, `closes` counts the
  closings of each by each thread.
  */
  datatype State = State(
    threads: map<Tid, Thread>,
    registry: seq<Tid>,
    mutex: Option<Tid>,
    started: Option<Tid>,
    complete: bool,
    owner: map<Stream, Tid>,
    open: set<Stream>,
    closes: multiset<(Stream, Tid)>,
    flushed: set<Stream>)

  datatype Action =
    | LookIn                  // first use: shutdown not complete, no attempt yet
    | OpenFails
    | OpenStream(f: Stream)
    | OpenThrows(f: Stream)   // the header threw after the stream was installed
    | TakeMutex
    | List
    | ListThrows
    | CloseAtOnce             // a shutdown completed in between
    | ExitThread
    | CloseStream
    | Unlist
    | BeginShutdown
    | FlushNext
    | ClearRegistry
    | CompleteShutdown

  predicate InCritical(pc: Pc) {
    pc.Listing? || pc.Closing? || pc.Unlisting? || pc.Flushing? || pc.Completing?
  }

  predicate Shutting(pc: Pc) {
    pc.WantFlush? || pc.Flushing? || pc.Completing?
  }

  predicate Enabled(s: State, t: Tid, a: Action) {
    && t in s.threads
    && var th := s.threads[t];
       match a
       case LookIn => th.pc.Running? && !th.guarded && !s.complete && !th.attempted
       case OpenFails => th.pc.Opening?
       case OpenStream(f) => th.pc.Opening? && f !in s.owner
       case OpenThrows(f) => th.pc.Opening? && f !in s.owner
       case TakeMutex => (th.pc.WantListing? || th.pc.WantClosing? || th.pc.WantFlush?) && s.mutex.None?
       case List => th.pc.Listing? && !s.complete
       case ListThrows => th.pc.Listing? && !s.complete
       case CloseAtOnce => th.pc.Listing? && s.complete
       case ExitThread => th.pc.Running? && th.alive
       case CloseStream => th.pc.Closing?
       case Unlist => th.pc.Unlisting?
       case BeginShutdown => th.pc.Running?
       case FlushNext => th.pc.Flushing? && th.pc.next < |s.registry|
       case ClearRegistry => th.pc.Flushing? && th.pc.next >= |s.registry|
       case CompleteShutdown => th.pc.Completing?
  }

  /** `r` without the first `t` in it. */
  function Without(r: seq<Tid>, t: Tid): seq<Tid> {
    if r == [] then [] else if r[0] == t then r[1..] else [r[0]] + Without(r[1..], t)
  }

  function Entered(pc: Pc): Pc {
    match pc
    case WantListing => Listing
    case WantClosing => Closing
    case _ => Flushing(0)
  }

  // ---------- what a step of thread `t` does, one field at a time ----------

  function Moved(s: State, th: Thread, a: Action): Thread {
    match a
    case LookIn => th.(pc := Opening)
    case OpenFails => th.(pc := Running, attempted := true)
    case OpenStream(f) => th.(pc := WantListing, attempted := true, fp := Some(f))
    case OpenThrows(f) => th.(pc := Running, attempted := true, fp := Some(f), unlisted := true)
    case TakeMutex => th.(pc := Entered(th.pc))
    case List => th.(pc := Running, registered := true)
    case ListThrows => th.(pc := Running, unlisted := true)
    case CloseAtOnce => th.(pc := Running, fp := None)
    case ExitThread =>
      if th.fp.None? then th.(guarded := true, alive := false) else th.(guarded := true, pc := WantClosing)
    case CloseStream => th.(pc := Unlisting, fp := None)
    case Unlist => th.(pc := Running, alive := false, registered := false)
    case BeginShutdown => if s.started.Some? then th.(guarded := true) else th.(guarded := true, pc := WantFlush)
    case FlushNext => if th.pc.Flushing? then th.(pc := Flushing(th.pc.next + 1)) else th
    case ClearRegistry => th.(pc := Completing)
    case CompleteShutdown => th.(pc := Running)
  }

  function MutexAfter(s: State, t: Tid, a: Action): Option<Tid> {
    match a
    case TakeMutex => Some(t)
    case List | ListThrows | CloseAtOnce | Unlist | CompleteShutdown => None
    case _ => s.mutex
  }

  function StartedAfter(s: State, t: Tid, a: Action): Option<Tid> {
    if a.BeginShutdown? && s.started.None? then Some(t) else s.started
  }

  function RegistryAfter(s: State, t: Tid, th: Thread, a: Action): seq<Tid> {
    match a
    case List => s.registry + [t]
    case Unlist => if th.registered then Without(s.registry, t) else s.registry
    case ClearRegistry => []
    case _ => s.registry
  }

  function OwnerAfter(s: State, t: Tid, a: Action): map<Stream, Tid> {
    match a
    case OpenStream(f) => s.owner[f := t]
    case OpenThrows(f) => s.owner[f := t]
    case _ => s.owner
  }

  predicate Closes(a: Action) { a.CloseAtOnce? || a.CloseStream? }

  function OpenAfter(s: State, th: Thread, a: Action): set<Stream> {
    match a
    case OpenStream(f) => s.open + {f}
    case OpenThrows(f) => s.open + {f}
    case _ => if Closes(a) && th.fp.Some? then s.open - {th.fp.value} else s.open
  }

  function ClosesAfter(s: State, t: Tid, th: Thread, a: Action): multiset<(Stream, Tid)> {
    if Closes(a) && th.fp.Some? then s.closes + multiset{(th.fp.value, t)} else s.closes
  }

  /** The stream the next flush is for. */
  function NextFlush(s: State, th: Thread): Option<Stream> {
    if th.pc.Flushing? && th.pc.next < |s.registry| && s.registry[th.pc.next] in s.threads
    then s.threads[s.registry[th.pc.next]].fp else None
  }

  function FlushedAfter(s: State, th: Thread, a: Action): set<Stream> {
    if a.FlushNext? && NextFlush(s, th).Some? then s.flushed + {NextFlush(s, th).value} else s.flushed
  }

  function Do(s: State, t: Tid, a: Action): State
    requires Enabled(s, t, a)
  {
    var th := s.threads[t];
    State(s.threads[t := Moved(s, th, a)], RegistryAfter(s, t, th, a), MutexAfter(s, t, a),
          StartedAfter(s, t, a), s.complete || a.CompleteShutdown?,
          OwnerAfter(s, t, a), OpenAfter(s, th, a), ClosesAfter(s, t, th, a), FlushedAfter(s, th, a))
  }

  datatype Move = Move(t: Tid, a: Action)

  /** Any number of fresh threads, nothing open. */
  predicate Initial(s: State) {
    && s.registry == [] && s.mutex.None? && s.started.None? && !s.complete
    && s.owner == map[] && s.open == {} && s.closes == multiset{} && s.flushed == {}
    && forall t | t in s.threads :: s.threads[t] == Thread(Running, true, false, false, None, false, false)
  }

  ghost predicate NextBy(s: State, m: Move, s': State) {
    Enabled(s, m.t, m.a) && s' == Do(s, m.t, m.a)
  }

  ghost predicate Behaviour(states: seq<State>, moves: seq<Move>) {
    && |states| == |moves| + 1 && Initial(states[0])
    && forall i | 0 <= i < |moves| :: NextBy(states[i], moves[i], states[i + 1])
  }

  // ---------- the invariant ----------

  /** The list has been cleared for good. */
  predicate Cleared(s: State) {
    s.complete || (s.mutex.Some? && s.mutex.value in s.threads && s.threads[s.mutex.value].pc.Completing?)
  }

  /** What a thread's program counter says about its file object. */
  predicate Consistent(th: Thread) {
    && (!th.attempted ==> th.fp.None? && !th.registered && !th.unlisted)
    && (th.pc.Opening? ==> !th.attempted && !th.guarded)
    && (th.pc.WantListing? || th.pc.Listing? ==> th.fp.Some? && !th.registered && !th.unlisted && !th.guarded)
    && (th.pc.WantClosing? || th.pc.Closing? ==> th.fp.Some? && th.guarded && th.alive)
    && (th.pc.Unlisting? ==> th.fp.None? && th.guarded && th.alive)
    && (Shutting(th.pc) ==> th.guarded)
    && (!th.alive ==> th.guarded && th.fp.None? && !th.registered)
    && (th.registered ==> (th.fp.Some? <==> !th.pc.Unlisting?))
    && (th.fp.Some? && !th.registered && !th.unlisted ==> th.pc.WantListing? || th.pc.Listing?)
    && !(th.registered && th.unlisted)
    && (th.pc.WantClosing? || th.pc.Closing? || th.pc.Unlisting? ==> th.registered || th.unlisted)
  }

  /** A thread against the shared state. */
  ghost predicate ThreadOk(s: State, t: Tid, th: Thread) {
    && Consistent(th)
    && (InCritical(th.pc) <==> s.mutex == Some(t))
    && (Shutting(th.pc) ==> s.started == Some(t) && !s.complete)
    && (th.fp.Some? ==> th.fp.value in s.open && th.fp.value in s.owner && s.owner[th.fp.value] == t)
    && (th.registered && th.fp.Some? && Cleared(s) ==> th.fp.value in s.flushed)
    && (th.registered && !Cleared(s) ==> t in s.registry)
  }

  ghost predicate ThreadsOk(s: State) {
    forall t | t in s.threads :: ThreadOk(s, t, s.threads[t])
  }

  /** Every listed object is alive and listed once, and its owner knows. */
  ghost predicate RegistryOk(s: State) {
    && (Cleared(s) ==> s.registry == [])
    && (forall i | 0 <= i < |s.registry| :: s.registry[i] in s.threads && s.threads[s.registry[i]].registered)
    && (forall i, j | 0 <= i < j < |s.registry| :: s.registry[i] != s.registry[j])
  }

  /** A shutdown under way has flushed what it has passed. */
  ghost predicate FlushingOk(s: State) {
    s.mutex.Some? && s.mutex.value in s.threads && s.threads[s.mutex.value].pc.Flushing? ==>
      var next := s.threads[s.mutex.value].pc.next;
      && next <= |s.registry|
      && forall k | 0 <= k < next && s.registry[k] in s.threads && s.threads[s.registry[k]].fp.Some? ::
           s.threads[s.registry[k]].fp.value in s.flushed
  }

  /** Each stream is either held by the thread that opened it or closed by that thread, once. */
  ghost predicate StreamsOk(s: State) {
    && s.open <= s.owner.Keys
    && (forall f | f in s.open :: s.owner[f] in s.threads && s.threads[s.owner[f]].fp == Some(f))
    && (forall f, u :: s.closes[(f, u)] == if f in s.owner && s.owner[f] == u && f !in s.open then 1 else 0)
  }

  ghost predicate Inv(s: State) {
    && ThreadsOk(s) && RegistryOk(s) && FlushingOk(s) && StreamsOk(s)
    && (s.mutex.Some? ==> s.mutex.value in s.threads)
    && (s.complete ==> s.started.Some?)
  }

  lemma InitialInv(s: State)
    requires Initial(s)
    ensures Inv(s)
  {
  }

  predicate Distinct(r: seq<Tid>) {
    forall i, j | 0 <= i < j < |r| :: r[i] != r[j]
  }

  lemma {:induction false} WithoutMembers(r: seq<Tid>, t: Tid)
    requires Distinct(r)
    ensures Distinct(Without(r, t)) && |Without(r, t)| <= |r|
    ensures forall u :: u in Without(r, t) <==> u in r && u != t
  {
    if r != [] {
      assert r == [r[0]] + r[1..];
      WithoutMembers(r[1..], t);
      assert forall i | 0 <= i < |r[1..]| :: r[1..][i] == r[i + 1];
      assert Distinct(r[1..]) && r[0] !in r[1..];
    }
  }

  lemma OpenStreams(s: State, m: Move, s': State)
    requires Inv(s) && NextBy(s, m, s') && (m.a.OpenStream? || m.a.OpenThrows?)
    ensures StreamsOk(s')
  {
    assert ThreadOk(s, m.t, s.threads[m.t]);
  }

  lemma CloseStreams(s: State, m: Move, s': State)
    requires Inv(s) && NextBy(s, m, s') && (m.a.CloseAtOnce? || m.a.CloseStream?)
    ensures StreamsOk(s')
  {
    assert ThreadOk(s, m.t, s.threads[m.t]);
  }

  predicate TouchesStreams(a: Action) {
    a.OpenStream? || a.OpenThrows? || a.CloseAtOnce? || a.CloseStream?
  }

  /** No step touches another thread. */
  lemma OthersKept(s: State, m: Move, s': State)
    requires NextBy(s, m, s')
    ensures s'.threads.Keys == s.threads.Keys
    ensures forall u | u in s.threads && u != m.t :: s'.threads[u] == s.threads[u]
  {
  }

  lemma StreamHeld(s: State, th: Thread, a: Action)
    requires !TouchesStreams(a)
    ensures Moved(s, th, a).fp == th.fp
  {
    match a
    case OpenFails | TakeMutex | List | ListThrows | ExitThread | Unlist =>
    case _ =>
  }

  lemma StreamsKept(s: State, m: Move, s': State)
    requires NextBy(s, m, s') && !TouchesStreams(m.a)
    ensures s'.threads[m.t].fp == s.threads[m.t].fp
    ensures s'.owner == s.owner && s'.open == s.open && s'.closes == s.closes
  {
    StreamHeld(s, s.threads[m.t], m.a);
  }

  lemma StepStreams(s: State, m: Move, s': State)
    requires Inv(s) && NextBy(s, m, s')
    ensures StreamsOk(s')
  {
    if m.a.OpenStream? || m.a.OpenThrows? {
      OpenStreams(s, m, s');
    } else if m.a.CloseAtOnce? || m.a.CloseStream? {
      CloseStreams(s, m, s');
    } else {
      OthersKept(s, m, s');
      StreamsKept(s, m, s');
    }
  }

  // ---------- the registry ----------

  lemma ClearedStep(s: State, m: Move, s': State)
    requires Inv(s) && NextBy(s, m, s')
    ensures Cleared(s') <==> Cleared(s) || m.a.ClearRegistry?
    ensures s.complete ==> s'.complete
  {
    assert ThreadOk(s, m.t, s.threads[m.t]);
    assert s.mutex.Some? ==> ThreadOk(s, s.mutex.value, s.threads[s.mutex.value]);
  }

  lemma StepRegistry(s: State, m: Move, s': State)
    requires Inv(s) && NextBy(s, m, s')
    ensures RegistryOk(s')
  {
    assert ThreadOk(s, m.t, s.threads[m.t]);
    ClearedStep(s, m, s');
    OthersKept(s, m, s');
    if m.a.Unlist? {
      WithoutMembers(s.registry, m.t);
      assert forall i | 0 <= i < |s'.registry| :: s'.registry[i] in s'.registry;
    }
  }

  // ---------- the threads ----------

  lemma MoverConsistent(s: State, m: Move, s': State)
    requires NextBy(s, m, s') && Consistent(s.threads[m.t])
    ensures Consistent(s'.threads[m.t])
  {
    match m.a
    case LookIn | OpenFails | OpenStream(_) | OpenThrows(_) =>
    case TakeMutex | List | ListThrows | CloseAtOnce =>
    case ExitThread | CloseStream | Unlist =>
    case _ =>
  }

  /** A cleared registry leaves every listed file flushed. */
  lemma ListedIsFlushed(s: State, m: Move, s': State, t: Tid)
    requires Inv(s) && NextBy(s, m, s') && t in s.threads
    requires s.threads[t].registered && s.threads[t].fp.Some? && (Cleared(s) || m.a.ClearRegistry?)
    ensures s.threads[t].fp.value in s'.flushed
  {
    assert ThreadOk(s, t, s.threads[t]) && ThreadOk(s, m.t, s.threads[m.t]);
  }

  lemma MoverLock(s: State, t: Tid, a: Action)
    requires Enabled(s, t, a) && (InCritical(s.threads[t].pc) <==> s.mutex == Some(t))
    ensures InCritical(Moved(s, s.threads[t], a).pc) <==> MutexAfter(s, t, a) == Some(t)
  {
    match a
    case TakeMutex =>
    case List | ListThrows | CloseAtOnce | Unlist | CompleteShutdown =>
    case _ =>
  }

  lemma MoverShutdown(s: State, t: Tid, a: Action)
    requires Enabled(s, t, a) && (s.complete ==> s.started.Some?)
    requires Shutting(s.threads[t].pc) ==> s.started == Some(t) && !s.complete
    ensures Shutting(Moved(s, s.threads[t], a).pc) ==>
              StartedAfter(s, t, a) == Some(t) && !(s.complete || a.CompleteShutdown?)
  {
    match a
    case BeginShutdown | TakeMutex =>
    case FlushNext | ClearRegistry | CompleteShutdown =>
    case _ =>
  }

  lemma MoverOk(s: State, m: Move, s': State)
    requires Inv(s) && NextBy(s, m, s')
    ensures ThreadOk(s', m.t, s'.threads[m.t])
  {
    assert ThreadOk(s, m.t, s.threads[m.t]);
    MoverConsistent(s, m, s');
    MoverLock(s, m.t, m.a);
    MoverShutdown(s, m.t, m.a);
    MoverFile(s, m, s');
    MoverListed(s, m, s');
  }

  lemma MoverFile(s: State, m: Move, s': State)
    requires Inv(s) && NextBy(s, m, s')
    ensures var th := s'.threads[m.t];
            th.fp.Some? ==> th.fp.value in s'.open && th.fp.value in s'.owner && s'.owner[th.fp.value] == m.t
  {
    assert ThreadOk(s, m.t, s.threads[m.t]);
  }

  lemma MoverListed(s: State, m: Move, s': State)
    requires Inv(s) && NextBy(s, m, s')
    ensures var th := s'.threads[m.t];
            && (th.registered && th.fp.Some? && Cleared(s') ==> th.fp.value in s'.flushed)
            && (th.registered && !Cleared(s') ==> m.t in s'.registry)
  {
    var th := s.threads[m.t];
    assert ThreadOk(s, m.t, th);
    ClearedStep(s, m, s');
    if th.registered && th.fp.Some? && (Cleared(s) || m.a.ClearRegistry?) {
      ListedIsFlushed(s, m, s', m.t);
    }
    if m.a.List? {
      assert s'.registry[|s.registry|] == m.t;
    }
  }

  lemma OtherOk(s: State, m: Move, s': State, t: Tid)
    requires Inv(s) && NextBy(s, m, s') && t in s.threads && t != m.t
    ensures ThreadOk(s', t, s.threads[t])
  {
    var th := s.threads[t];
    assert ThreadOk(s, t, th) && ThreadOk(s, m.t, s.threads[m.t]);
    ClearedStep(s, m, s');
    if th.registered && th.fp.Some? && (Cleared(s) || m.a.ClearRegistry?) {
      ListedIsFlushed(s, m, s', t);
    }
    if th.registered && !Cleared(s') {
      WithoutMembers(s.registry, m.t);
    }
  }

  lemma StepThreads(s: State, m: Move, s': State)
    requires Inv(s) && NextBy(s, m, s')
    ensures ThreadsOk(s')
  {
    MoverOk(s, m, s');
    OthersKept(s, m, s');
    forall t | t in s'.threads && t != m.t
      ensures ThreadOk(s', t, s'.threads[t])
    {
      OtherOk(s, m, s', t);
    }
  }

  lemma StepFlushing(s: State, m: Move, s': State)
    requires Inv(s) && NextBy(s, m, s')
    ensures FlushingOk(s')
  {
    OthersKept(s, m, s');
    if m.a.FlushNext? {
      FlushAdvances(s, m, s');
    } else if m.a.TakeMutex? {
      assert MutexAfter(s, m.t, m.a) == Some(m.t);
    } else {
      FlushKept(s, m, s');
    }
  }

  /** One more entry is flushed. */
  lemma FlushAdvances(s: State, m: Move, s': State)
    requires Inv(s) && NextBy(s, m, s') && m.a.FlushNext?
    ensures FlushingOk(s')
  {
    assert ThreadOk(s, m.t, s.threads[m.t]);
    OthersKept(s, m, s');
  }

  /** While the flushing thread holds the mutex, no other thread changes the list or a listed object. */
  lemma FlushKept(s: State, m: Move, s': State)
    requires Inv(s) && NextBy(s, m, s') && !m.a.FlushNext? && !m.a.TakeMutex?
    ensures FlushingOk(s')
  {
    assert ThreadOk(s, m.t, s.threads[m.t]);
    OthersKept(s, m, s');
  }

  lemma StepInv(s: State, m: Move, s': State)
    requires Inv(s) && NextBy(s, m, s')
    ensures Inv(s')
  {
    StepThreads(s, m, s');
    StepRegistry(s, m, s');
    StepFlushing(s, m, s');
    StepStreams(s, m, s');
  }

  lemma {:induction false} AlwaysInv(states: seq<State>, moves: seq<Move>, i: nat)
    requires Behaviour(states, moves) && i < |states|
    ensures Inv(states[i])
  {
    if i == 0 {
      InitialInv(states[0]);
    } else {
      AlwaysInv(states, moves, i - 1);
      StepInv(states[i - 1], moves[i - 1], states[i]);
    }
  }

  // ---------- what every run keeps ----------

  /** The thread holding the registry's mutex is taking itself off the list, its stream just closed. */
  predicate UnlistingItself(s: State, t: Tid) {
    s.mutex == Some(t) && t in s.threads && s.threads[t].pc.Unlisting?
  }

  /**
  In every reachable state each listed file object is alive, listed once, and its stream is open: except, under
  the mutex, the one whose owner is between closing it and taking it off.
  */
  lemma ListedFilesAreLiveAndOpen(states: seq<State>, moves: seq<Move>, i: nat, k: nat)
    requires Behaviour(states, moves) && i < |states| && k < |states[i].registry|
    ensures var s, t := states[i], states[i].registry[k];
            && t in s.threads && s.threads[t].alive
            && ((s.threads[t].fp.Some? && s.threads[t].fp.value in s.open) || UnlistingItself(s, t))
            && forall j | 0 <= j < |s.registry| && j != k :: s.registry[j] != t
  {
    AlwaysInv(states, moves, i);
    var s, t := states[i], states[i].registry[k];
    assert ThreadOk(s, t, s.threads[t]);
  }

  /** A shutdown flushes only streams that are open, of objects that are alive: never one closed or destroyed. */
  lemma FlushesOnlyOpenStreams(states: seq<State>, moves: seq<Move>, i: nat)
    requires Behaviour(states, moves) && i < |moves| && moves[i].a.FlushNext?
    ensures moves[i].t in states[i].threads
    ensures var s := states[i];
            var th := s.threads[moves[i].t];
            && th.pc.Flushing? && th.pc.next < |s.registry|
            && var u := s.registry[th.pc.next];
               && u in s.threads && s.threads[u].alive && s.threads[u].fp.Some? && s.threads[u].fp.value in s.open
               && states[i + 1].flushed == s.flushed + {s.threads[u].fp.value}
  {
    AlwaysInv(states, moves, i);
    var s := states[i];
    assert NextBy(s, moves[i], states[i + 1]);
    ListedFilesAreLiveAndOpen(states, moves, i, s.threads[moves[i].t].pc.next);
    assert ThreadOk(s, moves[i].t, s.threads[moves[i].t]);
  }

  /**
  Conservation of streams: whatever was ever opened is either open and in the hands of the living thread that
  opened it, or was closed exactly once, by that thread. Nobody else ever closes it.
  */
  lemma OpenedStreamsAreHeldOrClosedOnce(states: seq<State>, moves: seq<Move>, i: nat, f: Stream, u: Tid)
    requires Behaviour(states, moves) && i < |states| && f in states[i].owner
    ensures var s := states[i];
            && (u != s.owner[f] ==> s.closes[(f, u)] == 0)
            && (if f in s.open
                then s.closes[(f, s.owner[f])] == 0 && s.owner[f] in s.threads
                     && s.threads[s.owner[f]].fp == Some(f) && s.threads[s.owner[f]].alive
                else s.closes[(f, s.owner[f])] == 1)
  {
    AlwaysInv(states, moves, i);
    var s := states[i];
    if f in s.open {
      assert ThreadOk(s, s.owner[f], s.threads[s.owner[f]]);
    }
  }

  /** A thread whose destructor has ended leaves no stream open, and its object is on no list. */
  lemma DeadThreadsLeaveNothing(states: seq<State>, moves: seq<Move>, i: nat, t: Tid)
    requires Behaviour(states, moves) && i < |states|
    requires t in states[i].threads && !states[i].threads[t].alive
    ensures t !in states[i].registry
    ensures forall f | f in states[i].owner && states[i].owner[f] == t :: f !in states[i].open
  {
    AlwaysInv(states, moves, i);
    assert ThreadOk(states[i], t, states[i].threads[t]);
  }

  /** Once shutdown is complete the registry is empty, and stays empty. */
  lemma {:induction false} RegistryStaysEmpty(states: seq<State>, moves: seq<Move>, i: nat, j: nat)
    requires Behaviour(states, moves) && i <= j < |states| && states[i].complete
    ensures states[j].complete && states[j].registry == []
    decreases j
  {
    AlwaysInv(states, moves, j);
    if i < j {
      RegistryStaysEmpty(states, moves, i, j - 1);
      AlwaysInv(states, moves, j - 1);
      ClearedStep(states[j - 1], moves[j - 1], states[j]);
    }
  }

  /**
  When shutdown is complete, every stream still open has been flushed by it, except those of a thread still
  about to list its file (it will close it instead) and those whose listing threw.
  */
  lemma ShutdownMissesNoListedFile(states: seq<State>, moves: seq<Move>, i: nat, f: Stream)
    requires Behaviour(states, moves) && i < |states| && states[i].complete && f in states[i].open
    ensures f in states[i].owner && states[i].owner[f] in states[i].threads
    ensures var th := states[i].threads[states[i].owner[f]];
            f in states[i].flushed || th.unlisted || th.pc.WantListing? || th.pc.Listing?
  {
    AlwaysInv(states, moves, i);
    var s := states[i];
    assert ThreadOk(s, s.owner[f], s.threads[s.owner[f]]);
  }

  /** Whoever holds the mutex can always take its next step, so nobody waits for good. */
  lemma HolderCanMove(states: seq<State>, moves: seq<Move>, i: nat) returns (a: Action)
    requires Behaviour(states, moves) && i < |states| && states[i].mutex.Some?
    ensures Enabled(states[i], states[i].mutex.value, a) && !a.TakeMutex?
  {
    AlwaysInv(states, moves, i);
    var s := states[i];
    var th := s.threads[s.mutex.value];
    assert ThreadOk(s, s.mutex.value, th);
    a := match th.pc
         case Listing => if s.complete then CloseAtOnce else List
         case Closing => CloseStream
         case Unlisting => Unlist
         case Flushing(next) => if next < |s.registry| then FlushNext else ClearRegistry
         case _ => CompleteShutdown;
  }

  // ---------- who opens no more ----------

  /** The thread's next look for its file, if it ever comes to one, finds a reason not to open it. */
  predicate OpensNoMore(s: State, t: Tid) {
    && t in s.threads && !s.threads[t].pc.Opening?
    && (s.complete || s.threads[t].guarded || s.threads[t].attempted)
  }

  /** Every stream of the thread was its own before. */
  predicate NoNewStream(s: State, s': State, t: Tid) {
    forall f | f in s'.owner && s'.owner[f] == t :: f in s.owner && s.owner[f] == t
  }

  lemma OpensNoMoreStep(s: State, m: Move, s': State, t: Tid)
    requires NextBy(s, m, s') && OpensNoMore(s, t)
    ensures OpensNoMore(s', t) && NoNewStream(s, s', t)
  {
  }

  lemma {:induction false} OpensNoMoreFrom(states: seq<State>, moves: seq<Move>, n: nat, m: nat, t: Tid)
    requires Behaviour(states, moves) && n <= m < |states| && OpensNoMore(states[n], t)
    ensures OpensNoMore(states[m], t) && NoNewStream(states[n], states[m], t)
    decreases m
  {
    if n < m {
      OpensNoMoreFrom(states, moves, n, m - 1, t);
      OpensNoMoreStep(states[m - 1], moves[m - 1], states[m], t);
    }
  }

  /**
  Over every run: a thread that calls the shutdown, the first or another, one that exits, one that has opened its file,
  and, once shutdown is complete, every thread that is not in the middle of opening, never opens a file again.
  */
  lemma ClosedForGood(states: seq<State>, moves: seq<Move>, n: nat, m: nat, t: Tid)
    requires Behaviour(states, moves) && n < m < |states| && t in states[n].threads
    requires || (moves[n].t == t && (moves[n].a.BeginShutdown? || moves[n].a.ExitThread? || moves[n].a.OpenStream?))
             || (states[n].complete && !states[n].threads[t].pc.Opening?)
    ensures NoNewStream(states[n + 1], states[m], t)
  {
    assert NextBy(states[n], moves[n], states[n + 1]);
    if states[n].complete && !states[n].threads[t].pc.Opening? {
      OpensNoMoreStep(states[n], moves[n], states[n + 1], t);
    }
    OpensNoMoreFrom(states, moves, n + 1, m, t);
  }
}
