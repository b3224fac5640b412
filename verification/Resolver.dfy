/**
The shared resolver of src/callStack.cpp under concurrency: per-thread front caches, two grow-only
maps behind one mutex, and the loader's lock that every cold lookup and every dlopen() takes. Each
lookup consults the caches, takes the mutex, lets it go to ask the loader, and takes it again to find
or insert.

What a cold lookup reads from the object files is an input of the inserting step: the theorems say
that whatever is inserted first is what everyone gets, for good, and that no interleaving blocks.
*/
module Resolver {
  import opened Common
  import opened FrontCache

  type Tid = nat
  const FRONT_BITS: nat := 10  // 1024 slots

  /** A cached name; nullopt means "filtered, not loggable". */
  type Name = Option<string>
  type Location = string

  /** The hooks resolve a callee and its call site; an event resolves its site only, without front caches. */
  datatype Query = HookQuery(callee: Address, caller: Address) | SiteQuery(site: Address)

  /** Where a thread stands in a lookup; `left` counts the loader queries still to make. */
  datatype Pc =
    | Idle
    | WantFirst | InFirst
    | WantLoader(left: nat) | InLoader(left: nat)
    | WantSecond | InSecond
    | Done

  /**
  One thread: its lookup, the nodes it has found so far (None: a null pointer), its front caches, and how
  many dlopen() calls it is inside of, their constructors running.
  */
  datatype Thread = Thread(
    pc: Pc,
    query: Query,
    name: Option<Name>,
    location: Option<Location>,
    nameFront: seq<Entry<Name>>,
    locationFront: seq<Entry<Location>>,
    dlopens: nat)

  datatype State = State(
    names: map<Address, Name>,
    locations: map<Address, Location>,
    mutex: Option<Tid>,
    loader: Option<Tid>,
    threads: map<Tid, Thread>)

  datatype Action =
    | Start(query: Query)
    | TakeMutex
    | FirstLook           // under the mutex: find in the maps, then let it go
    | TakeLoader
    | LeaveLoader         // dladdr() returned
    | SecondLook(freshName: Name, freshLocation: Location)  // under the mutex: find or emplace
    | SecondLookThrows    // an allocation failed at the name: the lock guard lets go
    | LocationThrows(freshName: Name)  // it failed at the location: the name, if looked up, stays
    | Finish
    | DlopenBegin         // takes the loader's lock and runs constructors under it
    | DlopenEnd

  function Site(q: Query): Address {
    match q case HookQuery(_, caller) => caller case SiteQuery(site) => site
  }

  function Get<V>(m: map<Address, V>, a: Address): Option<V> {
    if a in m then Some(m[a]) else None
  }

  /** A name that says "filtered" ends the lookup before the call site is looked at. */
  predicate Filtered(th: Thread) {
    th.query.HookQuery? && th.name == Some(None)
  }

  /** Everything the lookup needs has been found. */
  predicate Complete(th: Thread) {
    Filtered(th) || ((th.query.HookQuery? ==> th.name.Some?) && th.location.Some?)
  }

  function QueriesLeft(th: Thread): nat {
    (if th.query.HookQuery? && th.name.None? then 1 else 0) + (if th.location.None? then 1 else 0)
  }

  predicate Fronts(th: Thread) {
    Table(th.nameFront, FRONT_BITS) && Table(th.locationFront, FRONT_BITS)
  }

  // ---------- the steps ----------

  /** Looking into the front caches, without any lock. */
  function Started(th: Thread, q: Query): Thread
    requires Fronts(th)
  {
    match q
    case SiteQuery(_) => th.(pc := WantFirst, query := q, name := None, location := None)
    case HookQuery(callee, caller) =>
      var probed := th.(query := q, name := Find(th.nameFront, FRONT_BITS, callee),
                        location := Find(th.locationFront, FRONT_BITS, caller));
      probed.(pc := if Complete(probed) then Done else WantFirst)
  }

  /** Remembering found nodes in the front caches, which only the hooks use. */
  function WithName(th: Thread, n: Name): (r: Thread)
    requires Fronts(th) && th.query.HookQuery?
    ensures Fronts(r)
  {
    th.(name := Some(n), nameFront := Store(th.nameFront, FRONT_BITS, th.query.callee, n))
  }

  function WithLocation(th: Thread, l: Location): (r: Thread)
    requires Fronts(th)
    ensures Fronts(r)
  {
    if th.query.HookQuery?
    then th.(location := Some(l), locationFront := Store(th.locationFront, FRONT_BITS, th.query.caller, l))
    else th.(location := Some(l))
  }

  /** The first look under the mutex. */
  function FirstLooked(s: State, th: Thread): (r: Thread)
    requires Fronts(th)
    ensures Fronts(r)
  {
    var named := if th.query.HookQuery? && th.name.None? && th.query.callee in s.names
                 then WithName(th, s.names[th.query.callee]) else th;
    var placed := if !Filtered(named) && named.location.None? && Site(named.query) in s.locations
                  then WithLocation(named, s.locations[Site(named.query)]) else named;
    placed.(pc := if Complete(placed) then Done else WantLoader(QueriesLeft(placed)))
  }

  /** The name node the second look ends up with. */
  function FoundName(s: State, th: Thread, found: Name): Name
    requires th.query.HookQuery?
  {
    if th.query.callee in s.names then s.names[th.query.callee] else found
  }

  function FoundLocation(s: State, th: Thread, found: Location): Location {
    if Site(th.query) in s.locations then s.locations[Site(th.query)] else found
  }

  predicate NeedsName(th: Thread) { th.query.HookQuery? && th.name.None? }

  /** The thread after its second look. */
  function SecondLooked(s: State, th: Thread, freshName: Name, freshLocation: Location): (r: Thread)
    requires Fronts(th)
    ensures Fronts(r)
  {
    var named := if NeedsName(th) then WithName(th, FoundName(s, th, freshName)) else th;
    var placed := if !Filtered(named) && named.location.None?
                  then WithLocation(named, FoundLocation(s, th, freshLocation)) else named;
    placed.(pc := Done)
  }

  /** The thread whose second look got past the name only. */
  function NamedOnly(s: State, th: Thread, freshName: Name): (r: Thread)
    requires Fronts(th)
    ensures Fronts(r)
  {
    (if NeedsName(th) then WithName(th, FoundName(s, th, freshName)) else th).(pc := Idle)
  }

  /** What a look leaves alone, and where it leads. */
  lemma FirstLookShape(s: State, th: Thread)
    requires Fronts(th)
    ensures var r := FirstLooked(s, th);
            r.query == th.query && r.dlopens == th.dlopens && (r.pc.Done? || (r.pc.WantLoader? && r.pc.left > 0))
  {
  }

  /** One query of the loader for each of the two answers that neither cache nor map has. */
  lemma QueriesForWhatIsMissing(s: State, th: Thread)
    requires Fronts(th) && FirstLooked(s, th).pc.WantLoader?
    ensures FirstLooked(s, th).pc.left
            == (if th.query.HookQuery? && th.name.None? && th.query.callee !in s.names then 1 else 0)
               + (if th.location.None? && Site(th.query) !in s.locations then 1 else 0)
  {
  }

  lemma SecondLookShape(s: State, th: Thread, freshName: Name, freshLocation: Location)
    requires Fronts(th)
    ensures var r := SecondLooked(s, th, freshName, freshLocation);
            r.query == th.query && r.dlopens == th.dlopens && r.pc.Done?
  {
  }

  /** The maps after a second look: at most one new entry each, nothing replaced. */
  function GrownNames(s: State, th: Thread, freshName: Name): map<Address, Name> {
    if NeedsName(th) && th.query.callee !in s.names then s.names[th.query.callee := freshName] else s.names
  }

  function GrownLocations(s: State, th: Thread, freshName: Name, freshLocation: Location): map<Address, Location> {
    var filtered := th.query.HookQuery?
                    && (if th.name.None? then FoundName(s, th, freshName) else th.name.value) == None;
    if !filtered && th.location.None? && Site(th.query) !in s.locations
    then s.locations[Site(th.query) := freshLocation] else s.locations
  }

  /** A name that was looked up before the location threw is in the map, and in the thread's own front cache. */
  lemma NameOutlivesTheThrow(s: State, th: Thread, freshName: Name)
    requires Fronts(th) && NeedsName(th)
    ensures th.query.callee in GrownNames(s, th, freshName)
    ensures Find(NamedOnly(s, th, freshName).nameFront, FRONT_BITS, th.query.callee)
            == Some(GrownNames(s, th, freshName)[th.query.callee])
  {
    StoreThenFind(th.nameFront, FRONT_BITS, th.query.callee, FoundName(s, th, freshName), th.query.callee);
  }

  predicate Enabled(s: State, t: Tid, a: Action) {
    && t in s.threads
    && var th := s.threads[t];
       match a
       case Start(_) => th.pc.Idle?
       case TakeMutex => (th.pc.WantFirst? || th.pc.WantSecond?) && s.mutex.None?
       case FirstLook => th.pc.InFirst?
       case TakeLoader => th.pc.WantLoader? && th.pc.left > 0 && (s.loader.None? || s.loader == Some(t))
       case LeaveLoader => th.pc.InLoader? && th.pc.left > 0
       case SecondLook(_, _) => th.pc.InSecond?
       case SecondLookThrows => th.pc.InSecond?
       case LocationThrows(_) => th.pc.InSecond? && th.location.None?
       case Finish => th.pc.Done?
       case DlopenBegin => th.pc.Idle? && (s.loader.None? || s.loader == Some(t))
       case DlopenEnd => th.pc.Idle? && th.dlopens > 0
  }

  function Do(s: State, t: Tid, a: Action): State
    requires Enabled(s, t, a) && Fronts(s.threads[t])
  {
    var th := s.threads[t];
    match a
    case Start(q) => s.(threads := s.threads[t := Started(th, q)])
    case TakeMutex =>
      s.(mutex := Some(t), threads := s.threads[t := th.(pc := if th.pc.WantFirst? then InFirst else InSecond)])
    case FirstLook => s.(mutex := None, threads := s.threads[t := FirstLooked(s, th)])
    case TakeLoader => s.(loader := Some(t), threads := s.threads[t := th.(pc := InLoader(th.pc.left))])
    case LeaveLoader =>
      s.(loader := if th.dlopens > 0 then Some(t) else None,
         threads := s.threads[t := th.(pc := if th.pc.left == 1 then WantSecond else WantLoader(th.pc.left - 1))])
    case SecondLook(n, l) =>
      s.(names := GrownNames(s, th, n), locations := GrownLocations(s, th, n, l), mutex := None,
         threads := s.threads[t := SecondLooked(s, th, n, l)])
    case SecondLookThrows => s.(mutex := None, threads := s.threads[t := th.(pc := Idle)])
    case LocationThrows(n) =>
      s.(names := GrownNames(s, th, n), mutex := None, threads := s.threads[t := NamedOnly(s, th, n)])
    case Finish => s.(threads := s.threads[t := th.(pc := Idle)])
    case DlopenBegin => s.(loader := Some(t), threads := s.threads[t := th.(dlopens := th.dlopens + 1)])
    case DlopenEnd =>
      s.(loader := if th.dlopens == 1 then None else s.loader,
         threads := s.threads[t := th.(dlopens := th.dlopens - 1)])
  }

  datatype Move = Move(t: Tid, a: Action)

  /** Any number of fresh threads over empty maps. */
  predicate Initial(s: State) {
    && s.names == map[] && s.locations == map[] && s.mutex.None? && s.loader.None?
    && forall t | t in s.threads ::
         s.threads[t] == Thread(Idle, SiteQuery(0), None, None, Empty(FRONT_BITS), Empty(FRONT_BITS), 0)
  }

  /** The states of a run, first to last. */
  ghost predicate Behaviour(states: seq<State>, moves: seq<Move>) {
    && |states| == |moves| + 1
    && Initial(states[0])
    && forall i | 0 <= i < |moves| :: NextBy(states[i], moves[i], states[i + 1])
  }

  ghost predicate NextBy(s: State, m: Move, s': State) {
    Enabled(s, m.t, m.a) && Fronts(s.threads[m.t]) && s' == Do(s, m.t, m.a)
  }

  // ---------- cache coherence ----------

  /** Whatever a thread holds, in a front slot or in its hands, is what the shared maps say. */
  ghost predicate CoherentThread(s: State, th: Thread) {
    && Fronts(th)
    && (forall a | Find(th.nameFront, FRONT_BITS, a).Some? :: Get(s.names, a) == Find(th.nameFront, FRONT_BITS, a))
    && (forall a | Find(th.locationFront, FRONT_BITS, a).Some? ::
          Get(s.locations, a) == Find(th.locationFront, FRONT_BITS, a))
    && (!th.pc.Idle? && th.query.HookQuery? && th.name.Some? ==> Get(s.names, th.query.callee) == th.name)
    && (!th.pc.Idle? && th.location.Some? ==> Get(s.locations, Site(th.query)) == th.location)
    && (th.pc.Done? ==> Complete(th))
  }

  ghost predicate Coherent(s: State) {
    forall t | t in s.threads :: CoherentThread(s, s.threads[t])
  }

  /** The shared maps only grow: no key is ever rebound or removed. */
  ghost predicate Grows(s: State, s': State) {
    && (forall a | a in s.names :: a in s'.names && s'.names[a] == s.names[a])
    && (forall a | a in s.locations :: a in s'.locations && s'.locations[a] == s.locations[a])
  }

  lemma CoherentGrows(s: State, s': State, th: Thread)
    requires Grows(s, s') && CoherentThread(s, th)
    ensures CoherentThread(s', th)
  {
    forall a | Find(th.nameFront, FRONT_BITS, a).Some?
      ensures Get(s'.names, a) == Find(th.nameFront, FRONT_BITS, a)
    {
      assert Get(s.names, a) == Find(th.nameFront, FRONT_BITS, a);
    }
    forall a | Find(th.locationFront, FRONT_BITS, a).Some?
      ensures Get(s'.locations, a) == Find(th.locationFront, FRONT_BITS, a)
    {
      assert Get(s.locations, a) == Find(th.locationFront, FRONT_BITS, a);
    }
  }

  lemma WithNameCoherent(s: State, th: Thread, n: Name)
    requires CoherentThread(s, th) && !th.pc.Idle? && !th.pc.Done? && th.query.HookQuery?
    requires Get(s.names, th.query.callee) == Some(n)
    ensures CoherentThread(s, WithName(th, n))
  {
    var r := WithName(th, n);
    forall a | Find(r.nameFront, FRONT_BITS, a).Some?
      ensures Get(s.names, a) == Find(r.nameFront, FRONT_BITS, a)
    {
      StoreThenFind(th.nameFront, FRONT_BITS, th.query.callee, n, a);
    }
  }

  lemma WithLocationCoherent(s: State, th: Thread, l: Location)
    requires CoherentThread(s, th) && !th.pc.Idle? && !th.pc.Done?
    requires Get(s.locations, Site(th.query)) == Some(l)
    ensures CoherentThread(s, WithLocation(th, l))
  {
    var r := WithLocation(th, l);
    if th.query.HookQuery? {
      forall a | Find(r.locationFront, FRONT_BITS, a).Some?
        ensures Get(s.locations, a) == Find(r.locationFront, FRONT_BITS, a)
      {
        StoreThenFind(th.locationFront, FRONT_BITS, th.query.caller, l, a);
      }
    }
  }

  /** Only the program counter changed. */
  lemma PcCoherent(s: State, th: Thread, pc: Pc)
    requires CoherentThread(s, th) && (!th.pc.Idle? || pc.Idle?) && (pc.Done? ==> Complete(th))
    ensures CoherentThread(s, th.(pc := pc))
  {
  }

  lemma FirstLookCoherent(s: State, th: Thread)
    requires CoherentThread(s, th) && th.pc.InFirst?
    ensures CoherentThread(s, FirstLooked(s, th))
  {
    var named := th;
    if th.query.HookQuery? && th.name.None? && th.query.callee in s.names {
      WithNameCoherent(s, th, s.names[th.query.callee]);
      named := WithName(th, s.names[th.query.callee]);
    }
    var placed := named;
    if !Filtered(named) && named.location.None? && Site(named.query) in s.locations {
      WithLocationCoherent(s, named, s.locations[Site(named.query)]);
      placed := WithLocation(named, s.locations[Site(named.query)]);
    }
    PcCoherent(s, placed, if Complete(placed) then Done else WantLoader(QueriesLeft(placed)));
  }

  lemma SecondLookGrows(s: State, t: Tid, n: Name, l: Location)
    requires Enabled(s, t, SecondLook(n, l)) && Fronts(s.threads[t])
    ensures Grows(s, Do(s, t, SecondLook(n, l)))
  {
  }

  lemma SecondLookCoherent(s: State, t: Tid, n: Name, l: Location)
    requires Coherent(s) && Enabled(s, t, SecondLook(n, l)) && Fronts(s.threads[t])
    ensures CoherentThread(Do(s, t, SecondLook(n, l)), Do(s, t, SecondLook(n, l)).threads[t])
  {
    var s' := Do(s, t, SecondLook(n, l));
    var th := s.threads[t];
    SecondLookGrows(s, t, n, l);
    CoherentGrows(s, s', th);
    var named := th;
    if NeedsName(th) {
      assert Get(s'.names, th.query.callee) == Some(FoundName(s, th, n));
      WithNameCoherent(s', th, FoundName(s, th, n));
      named := WithName(th, FoundName(s, th, n));
    }
    var placed := named;
    if !Filtered(named) && named.location.None? {
      assert Get(s'.locations, Site(th.query)) == Some(FoundLocation(s, th, l));
      WithLocationCoherent(s', named, FoundLocation(s, th, l));
      placed := WithLocation(named, FoundLocation(s, th, l));
    }
    PcCoherent(s', placed, Done);
  }

  lemma LocationThrowsCoherent(s: State, m: Move, s': State)
    requires Coherent(s) && NextBy(s, m, s') && m.a.LocationThrows?
    ensures MovedCoherently(s, m, s')
  {
    var th, n := s.threads[m.t], m.a.freshName;
    assert Grows(s, s');
    CoherentGrows(s, s', th);
    var named := th;
    if NeedsName(th) {
      assert Get(s'.names, th.query.callee) == Some(FoundName(s, th, n));
      WithNameCoherent(s', th, FoundName(s, th, n));
      named := WithName(th, FoundName(s, th, n));
    }
    PcCoherent(s', named, Idle);
  }

  lemma StartCoherent(s: State, th: Thread, q: Query)
    requires CoherentThread(s, th) && th.pc.Idle?
    ensures CoherentThread(s, Started(th, q))
  {
  }

  /** A move that only changes the thread's program counter or dlopen() depth, and the locks. */
  predicate PlainMove(a: Action) {
    a.TakeMutex? || a.TakeLoader? || a.LeaveLoader? || a.SecondLookThrows? || a.Finish? || a.DlopenBegin?
        || a.DlopenEnd?
  }

  lemma PlainMoveKeeps(s: State, m: Move, s': State)
    requires NextBy(s, m, s') && PlainMove(m.a)
    ensures s'.names == s.names && s'.locations == s.locations
    ensures var th, th' := s.threads[m.t], s'.threads[m.t];
            && th' == th.(pc := th'.pc, dlopens := th'.dlopens)
            && (th'.pc.Done? ==> th.pc.Done?) && (!th.pc.Idle? || th'.pc.Idle?)
  {
  }

  lemma PlainCoherent(s: State, m: Move, s': State)
    requires Coherent(s) && NextBy(s, m, s') && PlainMove(m.a)
    ensures MovedCoherently(s, m, s')
  {
    PlainMoveKeeps(s, m, s');
    CoherentGrows(s, s', s.threads[m.t]);
  }

  lemma FirstLookMoverCoherent(s: State, m: Move, s': State)
    requires Coherent(s) && NextBy(s, m, s') && m.a.FirstLook?
    ensures MovedCoherently(s, m, s')
  {
    FirstLookCoherent(s, s.threads[m.t]);
    CoherentGrows(s, s', FirstLooked(s, s.threads[m.t]));
  }

  lemma StartMoverCoherent(s: State, m: Move, s': State)
    requires Coherent(s) && NextBy(s, m, s') && m.a.Start?
    ensures MovedCoherently(s, m, s')
  {
    StartCoherent(s, s.threads[m.t], m.a.query);
    CoherentGrows(s, s', Started(s.threads[m.t], m.a.query));
  }

  lemma SecondLookMoverCoherent(s: State, m: Move, s': State)
    requires Coherent(s) && NextBy(s, m, s') && m.a.SecondLook?
    ensures MovedCoherently(s, m, s')
  {
    SecondLookGrows(s, m.t, m.a.freshName, m.a.freshLocation);
    SecondLookCoherent(s, m.t, m.a.freshName, m.a.freshLocation);
  }

  /** The maps only grow, and the moving thread stays coherent with them. */
  ghost predicate MovedCoherently(s: State, m: Move, s': State) {
    m.t in s'.threads && Grows(s, s') && CoherentThread(s', s'.threads[m.t])
  }

  lemma MoverCoherent(s: State, m: Move, s': State)
    requires Coherent(s) && NextBy(s, m, s')
    ensures MovedCoherently(s, m, s')
  {
    match m.a
    case Start(_) => StartMoverCoherent(s, m, s');
    case FirstLook => FirstLookMoverCoherent(s, m, s');
    case SecondLook(_, _) => SecondLookMoverCoherent(s, m, s');
    case LocationThrows(_) => LocationThrowsCoherent(s, m, s');
    case _ => PlainCoherent(s, m, s');
  }

  lemma StepCoherent(s: State, m: Move, s': State)
    requires Coherent(s) && NextBy(s, m, s')
    ensures Coherent(s') && Grows(s, s')
  {
    MoverCoherent(s, m, s');
    forall t | t in s'.threads
      ensures CoherentThread(s', s'.threads[t])
    {
      if t != m.t {
        CoherentGrows(s, s', s.threads[t]);
      }
    }
  }

  lemma InitialCoherent(s: State)
    requires Initial(s)
    ensures Coherent(s)
  {
  }

  lemma {:induction false} AlwaysCoherent(states: seq<State>, moves: seq<Move>, i: nat)
    requires Behaviour(states, moves) && i < |states|
    ensures Coherent(states[i])
  {
    if i == 0 {
      InitialCoherent(states[0]);
    } else {
      AlwaysCoherent(states, moves, i - 1);
      StepCoherent(states[i - 1], moves[i - 1], states[i]);
    }
  }

  /** Over any stretch of a run the shared maps never rebind or lose a key. */
  lemma {:induction false} NeverRebinds(states: seq<State>, moves: seq<Move>, i: nat, j: nat)
    requires Behaviour(states, moves) && i <= j < |states|
    ensures Grows(states[i], states[j])
    decreases j
  {
    if i < j {
      NeverRebinds(states, moves, i, j - 1);
      AlwaysCoherent(states, moves, j - 1);
      StepCoherent(states[j - 1], moves[j - 1], states[j]);
    }
  }

  /**
  Any two lookups completed anywhere in a run, by any threads, agree: on the name (including "filtered")
  of one callee, and on the location of one site when both looked at it.
  */
  lemma CompletedLookupsAgree(states: seq<State>, moves: seq<Move>, i: nat, t: Tid, j: nat, u: Tid)
    requires Behaviour(states, moves) && i <= j < |states|
    requires t in states[i].threads && states[i].threads[t].pc.Done?
    requires u in states[j].threads && states[j].threads[u].pc.Done?
    ensures var a, b := states[i].threads[t], states[j].threads[u];
            && Complete(a) && Complete(b)
            && (a.query.HookQuery? && b.query.HookQuery? && a.query.callee == b.query.callee ==> a.name == b.name)
            && (Site(a.query) == Site(b.query) && a.location.Some? && b.location.Some? ==> a.location == b.location)
  {
    AlwaysCoherent(states, moves, i);
    AlwaysCoherent(states, moves, j);
    NeverRebinds(states, moves, i, j);
    assert CoherentThread(states[i], states[i].threads[t]) && CoherentThread(states[j], states[j].threads[u]);
  }

  // ---------- transparency ----------

  /** The resolver without caches: names, call sites and event sites. */
  datatype Oracle = Oracle(nameAt: Address -> Name, callAt: Address -> Location, eventAt: Address -> Location)

  /** What a cold second look reads from the object files. */
  predicate Faithful(o: Oracle, s: State, m: Move) {
    m.t in s.threads ==>
      && (m.a.SecondLook? ==>
            match s.threads[m.t].query
            case HookQuery(callee, caller) => m.a.freshName == o.nameAt(callee) && m.a.freshLocation == o.callAt(caller)
            case SiteQuery(site) => m.a.freshLocation == o.eventAt(site))
      && (m.a.LocationThrows? && s.threads[m.t].query.HookQuery? ==>
            m.a.freshName == o.nameAt(s.threads[m.t].query.callee))
  }

  /** Call sites and event sites are different addresses. */
  predicate Apart(isEvent: Address -> bool, m: Move) {
    m.a.Start? ==> (m.a.query.SiteQuery? <==> isEvent(Site(m.a.query)))
  }

  function SiteAnswer(o: Oracle, isEvent: Address -> bool, a: Address): Location {
    if isEvent(a) then o.eventAt(a) else o.callAt(a)
  }

  /** The shared maps hold exactly what the uncached resolver answers. */
  ghost predicate Truthful(o: Oracle, isEvent: Address -> bool, s: State) {
    && (forall a | a in s.names :: s.names[a] == o.nameAt(a))
    && (forall a | a in s.locations :: s.locations[a] == SiteAnswer(o, isEvent, a))
    && (forall t | t in s.threads && !s.threads[t].pc.Idle? ::
          s.threads[t].query.SiteQuery? <==> isEvent(Site(s.threads[t].query)))
  }

  lemma MapsStayTruthful(o: Oracle, isEvent: Address -> bool, s: State, m: Move, s': State)
    requires Truthful(o, isEvent, s) && NextBy(s, m, s') && Faithful(o, s, m)
             && (m.a.SecondLook? || m.a.LocationThrows?)
    ensures forall a | a in s'.names :: s'.names[a] == o.nameAt(a)
    ensures forall a | a in s'.locations :: s'.locations[a] == SiteAnswer(o, isEvent, a)
  {
  }

  lemma OthersKept(s: State, m: Move, s': State)
    requires NextBy(s, m, s')
    ensures s'.threads.Keys == s.threads.Keys
    ensures forall t | t in s.threads && t != m.t :: s'.threads[t] == s.threads[t]
  {
    match m.a
    case Start(_) | TakeMutex | FirstLook | TakeLoader | LeaveLoader =>
    case SecondLook(_, _) | SecondLookThrows | LocationThrows(_) =>
    case Finish | DlopenBegin | DlopenEnd =>
  }

  lemma MapsKept(s: State, m: Move, s': State)
    requires NextBy(s, m, s') && !m.a.SecondLook? && !m.a.LocationThrows?
    ensures s'.names == s.names && s'.locations == s.locations
  {
  }

  /** Only a start changes what a thread looks up. */
  lemma QueryKept(s: State, m: Move, s': State)
    requires NextBy(s, m, s')
    ensures m.a.Start? ==> s'.threads[m.t].query == m.a.query
    ensures !m.a.Start? ==> s'.threads[m.t].query == s.threads[m.t].query
                            && (s'.threads[m.t].pc.Idle? || !s.threads[m.t].pc.Idle?)
  {
    if PlainMove(m.a) {
      PlainMoveKeeps(s, m, s');
    } else if m.a.FirstLook? {
      FirstLookShape(s, s.threads[m.t]);
    } else if m.a.SecondLook? {
      SecondLookShape(s, s.threads[m.t], m.a.freshName, m.a.freshLocation);
    }
  }

  lemma StepTruthful(o: Oracle, isEvent: Address -> bool, s: State, m: Move, s': State)
    requires Truthful(o, isEvent, s) && NextBy(s, m, s') && Faithful(o, s, m) && Apart(isEvent, m)
    ensures Truthful(o, isEvent, s')
  {
    OthersKept(s, m, s');
    QueryKept(s, m, s');
    if m.a.SecondLook? || m.a.LocationThrows? {
      MapsStayTruthful(o, isEvent, s, m, s');
    } else {
      MapsKept(s, m, s');
    }
  }

  ghost predicate HonestRun(o: Oracle, isEvent: Address -> bool, states: seq<State>, moves: seq<Move>) {
    && Behaviour(states, moves)
    && forall i | 0 <= i < |moves| :: Faithful(o, states[i], moves[i]) && Apart(isEvent, moves[i])
  }

  lemma {:induction false} AlwaysTruthful(o: Oracle, isEvent: Address -> bool, states: seq<State>, moves: seq<Move>,
                                           i: nat)
    requires HonestRun(o, isEvent, states, moves) && i < |states|
    ensures Truthful(o, isEvent, states[i])
  {
    if i > 0 {
      AlwaysTruthful(o, isEvent, states, moves, i - 1);
      assert Faithful(o, states[i - 1], moves[i - 1]) && Apart(isEvent, moves[i - 1]);
      StepTruthful(o, isEvent, states[i - 1], moves[i - 1], states[i]);
    }
  }

  /**
  Transparency: under any interleaving, every completed lookup returns what the resolver without caches
  would: the filtered answer, or the name and the location.
  */
  lemma CachesAreTransparent(
    o: Oracle, isEvent: Address -> bool, states: seq<State>, moves: seq<Move>, i: nat, t: Tid)
    requires HonestRun(o, isEvent, states, moves) && i < |states|
    requires t in states[i].threads && states[i].threads[t].pc.Done?
    ensures match states[i].threads[t].query
            case HookQuery(callee, caller) =>
              && states[i].threads[t].name == Some(o.nameAt(callee))
              && (o.nameAt(callee) != None ==> states[i].threads[t].location == Some(o.callAt(caller)))
            case SiteQuery(site) => states[i].threads[t].location == Some(o.eventAt(site))
  {
    AlwaysCoherent(states, moves, i);
    AlwaysTruthful(o, isEvent, states, moves, i);
    assert CoherentThread(states[i], states[i].threads[t]);
  }

  /**
  Without that separation the answer depends on who comes first: two cold lookups of one address, one as a
  call site and one as an event site, both get the value of whichever inserts first.
  */
  lemma SharedSiteTakesTheFirstKind(s: State, t: Tid, u: Tid, n: Name, callLoc: Location, eventLoc: Location)
    requires t != u && t in s.threads && u in s.threads && Fronts(s.threads[t]) && Fronts(s.threads[u])
    requires s.threads[t].pc.InSecond? && s.threads[u].pc.InSecond?
    requires s.threads[t].query.HookQuery? && s.threads[u].query.SiteQuery?
    requires Site(s.threads[t].query) == Site(s.threads[u].query) && Site(s.threads[t].query) !in s.locations
    requires s.threads[t].name.Some? && s.threads[t].name != Some(None)
    requires s.threads[t].location.None? && s.threads[u].location.None?
    ensures var callFirst := Do(Do(s, t, SecondLook(n, callLoc)), u, SecondLook(n, eventLoc));
            var eventFirst := Do(Do(s, u, SecondLook(n, eventLoc)), t, SecondLook(n, callLoc));
            && callFirst.threads[t].location == callFirst.threads[u].location == Some(callLoc)
            && eventFirst.threads[t].location == eventFirst.threads[u].location == Some(eventLoc)
  {
  }

  // ---------- no circular wait ----------

  /** Which threads hold which lock, read off their program counters. */
  predicate HoldsMutex(th: Thread) { th.pc.InFirst? || th.pc.InSecond? }

  predicate HoldsLoader(th: Thread) { th.pc.InLoader? || th.dlopens > 0 }

  /** The locks name their holders, and a thread's count of outstanding queries is positive while it has some. */
  ghost predicate ThreadLocks(mutex: Option<Tid>, loader: Option<Tid>, t: Tid, th: Thread) {
    && (HoldsMutex(th) <==> mutex == Some(t))
    && (HoldsLoader(th) <==> loader == Some(t))
    && (th.pc.WantLoader? || th.pc.InLoader? ==> th.pc.left > 0)
    && Fronts(th)
  }

  ghost predicate LocksExact(s: State) {
    && (forall t | t in s.threads :: ThreadLocks(s.mutex, s.loader, t, s.threads[t]))
    && (s.mutex.Some? ==> s.mutex.value in s.threads)
    && (s.loader.Some? ==> s.loader.value in s.threads)
  }

  /** The moving thread's locks are exact again, and no other thread gained or lost one. */
  ghost predicate LocksMoved(s: State, t: Tid, s': State) {
    && t in s'.threads && ThreadLocks(s'.mutex, s'.loader, t, s'.threads[t])
    && (s'.mutex == s.mutex || (s.mutex.None? && s'.mutex == Some(t)) || (s.mutex == Some(t) && s'.mutex.None?))
    && (s'.loader == s.loader || (s.loader.None? && s'.loader == Some(t)) || (s.loader == Some(t) && s'.loader.None?))
  }

  lemma PlainLocks(s: State, m: Move, s': State)
    requires LocksExact(s) && NextBy(s, m, s') && PlainMove(m.a)
    ensures LocksMoved(s, m.t, s')
  {
    assert ThreadLocks(s.mutex, s.loader, m.t, s.threads[m.t]);
  }

  lemma MoverLocks(s: State, m: Move, s': State)
    requires LocksExact(s) && NextBy(s, m, s')
    ensures LocksMoved(s, m.t, s')
  {
    assert ThreadLocks(s.mutex, s.loader, m.t, s.threads[m.t]);
    if PlainMove(m.a) {
      PlainLocks(s, m, s');
    } else if m.a.FirstLook? {
      FirstLookShape(s, s.threads[m.t]);
    } else if m.a.SecondLook? {
      SecondLookShape(s, s.threads[m.t], m.a.freshName, m.a.freshLocation);
    }
  }

  lemma StepLocksExact(s: State, m: Move, s': State)
    requires LocksExact(s) && NextBy(s, m, s')
    ensures LocksExact(s')
  {
    MoverLocks(s, m, s');
    OthersKept(s, m, s');
    forall t | t in s'.threads && t != m.t
      ensures ThreadLocks(s'.mutex, s'.loader, t, s'.threads[t])
    {
      assert ThreadLocks(s.mutex, s.loader, t, s.threads[t]);
    }
  }

  lemma {:induction false} AlwaysLocksExact(states: seq<State>, moves: seq<Move>, i: nat)
    requires Behaviour(states, moves) && i < |states|
    ensures LocksExact(states[i])
  {
    if i > 0 {
      AlwaysLocksExact(states, moves, i - 1);
      StepLocksExact(states[i - 1], moves[i - 1], states[i]);
    }
  }

  /** A thread in the middle of a lookup, or inside dlopen(). */
  predicate Busy(th: Thread) {
    !th.pc.Idle? || th.dlopens > 0
  }

  /** How much a thread still has to do before it is idle outside every dlopen(). */
  function Work(th: Thread): nat {
    th.dlopens + match th.pc
      case Idle => 0
      case Done => 1
      case InSecond => 2
      case WantSecond => 3
      case InLoader(left) => 2 * left + 2
      case WantLoader(left) => 2 * left + 3
      case InFirst => 8
      case WantFirst => 9
  }

  /** The next step of a busy thread. */
  function NextAction(th: Thread, n: Name, l: Location): Action {
    match th.pc
    case Idle => DlopenEnd
    case WantFirst => TakeMutex
    case InFirst => FirstLook
    case WantLoader(_) => TakeLoader
    case InLoader(_) => LeaveLoader
    case WantSecond => TakeMutex
    case InSecond => SecondLook(n, l)
    case Done => Finish
  }

  /**
  Whoever holds the resolver's mutex waits for nothing, and whoever holds the loader's lock waits at most
  for the mutex: the order of the two locks never closes a circle.
  */
  lemma HoldersNeverWaitInACircle(s: State, t: Tid, n: Name, l: Location)
    requires LocksExact(s) && t in s.threads
    ensures s.mutex == Some(t) ==> Enabled(s, t, NextAction(s.threads[t], n, l))
    ensures s.loader == Some(t) && s.mutex.None? ==> Enabled(s, t, NextAction(s.threads[t], n, l))
  {
  }

  /**
  Deadlock freedom: in every reachable state, with any threads inside dlopen() constructors and any
  resolving cold addresses, some busy thread can take its next step, and taking it leaves it less to do.
  */
  lemma NoDeadlock(states: seq<State>, moves: seq<Move>, i: nat, busy: Tid, n: Name, l: Location) returns (t: Tid)
    requires Behaviour(states, moves) && i < |states|
    requires busy in states[i].threads && Busy(states[i].threads[busy])
    ensures t in states[i].threads && Busy(states[i].threads[t])
    ensures var a := NextAction(states[i].threads[t], n, l);
            && Enabled(states[i], t, a) && Fronts(states[i].threads[t])
            && Work(Do(states[i], t, a).threads[t]) < Work(states[i].threads[t])
  {
    var s := states[i];
    AlwaysLocksExact(states, moves, i);
    t := if s.mutex.Some? then s.mutex.value
         else if s.threads[busy].pc.WantLoader? && s.loader.Some? then s.loader.value
         else busy;
    HoldersNeverWaitInACircle(s, t, n, l);
    assert Enabled(s, t, NextAction(s.threads[t], n, l));
    StepAdvances(s, t, n, l);
  }

  lemma StepAdvances(s: State, t: Tid, n: Name, l: Location)
    requires t in s.threads && Busy(s.threads[t]) && Fronts(s.threads[t])
    requires Enabled(s, t, NextAction(s.threads[t], n, l))
    ensures Work(Do(s, t, NextAction(s.threads[t], n, l)).threads[t]) < Work(s.threads[t])
  {
  }
}
