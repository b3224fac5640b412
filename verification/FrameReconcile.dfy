/**
The reconciliation rules of include/frameReconcile.h: which records at the top of a
thread's record stack belong to frames that left without running their exit hook.

Records are ordered bottom (index 0) to top. A frame's level is its canonical frame
address: it drops strictly from a physical frame to its callee, and inlined frames share
the level and the caller of their host.

Each rule is a loop, proved equal to a specification function; the lemmas say what the
specification functions mean.
*/
module FrameReconcile {
  import opened Common

  /** One record per instrumented frame (the fields of every build option together). */
  datatype FrameRecord = FrameRecord(
    logged: bool,
    callee: Address,
    caller: Address,
    level: Address,
    nameBase: Option<string>,  // None: the null pointer of an unlogged frame
    uncaughtAtEnter: nat,
    enterTime: int,
    lineStart: int,            // -1: the cursor was untrustworthy at enter
    depth: int)

  datatype FrameKey = FrameKey(callee: Address, caller: Address, level: Address)

  /** Extent [lo, hi) of the thread's own stack. */
  datatype StackBounds = StackBounds(lo: Address, hi: Address, known: bool)

  predicate OnThreadStack(bounds: StackBounds, p: Address) {
    !bounds.known || bounds.lo <= p < bounds.hi
  }

  predicate SameActivationSite(record: FrameRecord, key: FrameKey) {
    record.callee == key.callee && record.caller == key.caller
  }

  // ---------- specification of the two level rules ----------

  /** Length of the longest top segment whose records all satisfy `dead`. */
  function TopSegment(records: seq<FrameRecord>, dead: FrameRecord -> bool): (n: nat)
    ensures n <= |records|
    ensures forall i | |records| - n <= i < |records| :: dead(records[i])
    ensures n < |records| ==> !dead(records[|records| - 1 - n])
  {
    if records == [] || !dead(records[|records| - 1]) then 0
    else 1 + TopSegment(records[..|records| - 1], dead)
  }

  /** The rule for one record when a frame enters: deeper, or reusing the same stack slot. */
  function DeadOnEnter(key: FrameKey, bounds: StackBounds): FrameRecord -> bool {
    (r: FrameRecord) =>
      OnThreadStack(bounds, r.level)
      && (r.level < key.level || (r.level == key.level && r.caller != key.caller))
  }

  /** The rule for one record when an exception is caught: strictly below the catcher. */
  function DeadOnCatch(catchLevel: Address, bounds: StackBounds): FrameRecord -> bool {
    (r: FrameRecord) => OnThreadStack(bounds, r.level) && r.level < catchLevel
  }

  function EnterDead(records: seq<FrameRecord>, key: FrameKey, bounds: StackBounds): (n: nat)
    ensures n <= |records|
  {
    if OnThreadStack(bounds, key.level) then TopSegment(records, DeadOnEnter(key, bounds)) else 0
  }

  function CatchDead(records: seq<FrameRecord>, catchLevel: Address, bounds: StackBounds): (n: nat)
    ensures n <= |records|
  {
    if OnThreadStack(bounds, catchLevel) then TopSegment(records, DeadOnCatch(catchLevel, bounds)) else 0
  }

  /** A number with the two properties of TopSegment's contract is TopSegment. */
  lemma {:induction false} TopSegmentUnique(records: seq<FrameRecord>, dead: FrameRecord -> bool, n: nat)
    requires n <= |records|
    requires forall i | |records| - n <= i < |records| :: dead(records[i])
    requires n < |records| ==> !dead(records[|records| - 1 - n])
    ensures TopSegment(records, dead) == n
  {
    var m := TopSegment(records, dead);
    assert !(n < m);
    assert !(m < n);
  }

  method DeadRecordsOnEnter(records: seq<FrameRecord>, key: FrameKey, bounds: StackBounds) returns (dead: nat)
    ensures dead == EnterDead(records, key, bounds)
  {
    if !OnThreadStack(bounds, key.level) {
      return 0;
    }
    dead := 0;
    while dead < |records|
      invariant dead <= |records|
      invariant forall i | |records| - dead <= i < |records| :: DeadOnEnter(key, bounds)(records[i])
    {
      var record := records[|records| - 1 - dead];
      if !OnThreadStack(bounds, record.level) {
        break;
      }
      var deeper := record.level < key.level;
      var reusedSlot := record.level == key.level && record.caller != key.caller;
      if !deeper && !reusedSlot {
        break;
      }
      dead := dead + 1;
    }
    TopSegmentUnique(records, DeadOnEnter(key, bounds), dead);
  }

  method DeadRecordsOnCatch(records: seq<FrameRecord>, catchLevel: Address, bounds: StackBounds) returns (dead: nat)
    ensures dead == CatchDead(records, catchLevel, bounds)
  {
    if !OnThreadStack(bounds, catchLevel) {
      return 0;
    }
    dead := 0;
    while dead < |records|
      invariant dead <= |records|
      invariant forall i | |records| - dead <= i < |records| :: DeadOnCatch(catchLevel, bounds)(records[i])
    {
      var record := records[|records| - 1 - dead];
      if !OnThreadStack(bounds, record.level) || !(record.level < catchLevel) {
        break;
      }
      dead := dead + 1;
    }
    TopSegmentUnique(records, DeadOnCatch(catchLevel, bounds), dead);
  }

  // ---------- specification of the exit rule ----------

  /** Index of the topmost record at the key's activation site, or -1. */
  function TopmostAtSite(records: seq<FrameRecord>, key: FrameKey): (r: int)
    ensures -1 <= r < |records|
    ensures 0 <= r ==> SameActivationSite(records[r], key)
    ensures forall i | r < i < |records| :: !SameActivationSite(records[i], key)
  {
    if records == [] then -1
    else if SameActivationSite(records[|records| - 1], key) then |records| - 1
    else TopmostAtSite(records[..|records| - 1], key)
  }

  /** Every record from index `lo` to index `hi` lies at the key's activation site. */
  predicate SiteRun(records: seq<FrameRecord>, key: FrameKey, lo: int, hi: int) {
    0 <= lo <= hi < |records| && forall i | lo <= i <= hi :: SameActivationSite(records[i], key)
  }

  /** Searching down the run that ends at `i`: the first record with exactly the key's level, or -1. */
  function ExactLevelInRun(records: seq<FrameRecord>, key: FrameKey, i: nat): (r: int)
    requires i < |records|
    ensures -1 <= r <= i
    ensures 0 <= r ==> SiteRun(records, key, r, i) && records[r].level == key.level
    ensures forall j | r < j <= i && SiteRun(records, key, j, i) :: records[j].level != key.level
  {
    if !SameActivationSite(records[i], key) then -1
    else if records[i].level == key.level then i
    else if i == 0 then -1
    else
      var r := ExactLevelInRun(records, key, i - 1);
      assert forall j | r < j < i && SiteRun(records, key, j, i) :: SiteRun(records, key, j, i - 1);
      r
  }

  /** Of two candidate indices (-1: none), the lower record wins only when it is strictly closer. */
  function Closer(records: seq<FrameRecord>, upper: int, lower: int): int
    requires upper < |records| && lower < |records|
  {
    if lower < 0 then upper
    else if upper < 0 || records[lower].level > records[upper].level then lower
    else upper
  }

  function Candidate(records: seq<FrameRecord>, key: FrameKey, i: nat): int
    requires i < |records|
  {
    if records[i].level < key.level then i else -1
  }

  /** Searching down the run that ends at `i`: the closest record below the key's level, or -1. */
  function ClosestBelowInRun(records: seq<FrameRecord>, key: FrameKey, i: nat): (r: int)
    requires i < |records|
    ensures -1 <= r <= i
    ensures 0 <= r ==> SiteRun(records, key, r, i) && records[r].level < key.level
    ensures forall j | 0 <= j <= i && SiteRun(records, key, j, i) && records[j].level < key.level ::
              && 0 <= r && records[j].level <= records[r].level
              && (r < j ==> records[j].level < records[r].level)
  {
    if !SameActivationSite(records[i], key) then -1
    else if i == 0 then Candidate(records, key, 0)
    else
      var r := ClosestBelowInRun(records, key, i - 1);
      assert forall j | 0 <= j < i && SiteRun(records, key, j, i) :: SiteRun(records, key, j, i - 1);
      Closer(records, Candidate(records, key, i), r)
  }

  function ExitIndex(records: seq<FrameRecord>, key: FrameKey, tailCalled: bool, bounds: StackBounds): (index: nat)
    requires records != []
    ensures index < |records|
  {
    var top := |records| - 1;
    if !OnThreadStack(bounds, key.level) || !OnThreadStack(bounds, records[top].level) then top
    else
      var first := TopmostAtSite(records, key);
      if first < 0 then top
      else
        var best := if tailCalled then ClosestBelowInRun(records, key, first)
                    else ExactLevelInRun(records, key, first);
        if best < 0 then first else best
  }

  /** One turn of the loop of the tail-called branch. */
  lemma ClosestStep(records: seq<FrameRecord>, key: FrameKey, best: int, i: nat)
    requires i < |records| && -1 <= best < |records|
    ensures !SameActivationSite(records[i], key) ==> Closer(records, best, ClosestBelowInRun(records, key, i)) == best
    ensures SameActivationSite(records[i], key) ==>
              var better := if records[i].level < key.level && (best < 0 || records[i].level > records[best].level)
                            then i else best;
              Closer(records, best, ClosestBelowInRun(records, key, i))
              == if i == 0 then better else Closer(records, better, ClosestBelowInRun(records, key, i - 1))
  {
  }

  /** The tail-called branch: walk the run down from `first`, keeping the closest record below the level. */
  method ScanClosestBelow(records: seq<FrameRecord>, key: FrameKey, first: nat) returns (best: int)
    requires first < |records| && SameActivationSite(records[first], key)
    ensures best == ClosestBelowInRun(records, key, first)
  {
    best := -1;
    var i := first;
    while true
      invariant 0 <= i <= first
      invariant -1 <= best <= first
      invariant ClosestBelowInRun(records, key, first) == Closer(records, best, ClosestBelowInRun(records, key, i))
      decreases i
    {
      ClosestStep(records, key, best, i);
      var record := records[i];
      if !SameActivationSite(record, key) {
        break;
      }
      var below := record.level < key.level;
      if below && (best < 0 || record.level > records[best].level) {
        best := i;
      }
      if i == 0 {
        break;
      }
      i := i - 1;
    }
  }

  /** The normally called branch: walk the run down from `first` to the record with exactly the level. */
  method ScanExactLevel(records: seq<FrameRecord>, key: FrameKey, first: nat) returns (best: int)
    requires first < |records|
    ensures best == ExactLevelInRun(records, key, first)
  {
    var i := first;
    while true
      invariant 0 <= i <= first
      invariant ExactLevelInRun(records, key, first) == ExactLevelInRun(records, key, i)
      decreases i
    {
      var record := records[i];
      if !SameActivationSite(record, key) {
        return -1;
      }
      if record.level == key.level {
        return i;
      }
      if i == 0 {
        return -1;
      }
      i := i - 1;
    }
  }

  method ExitingRecordIndex(records: seq<FrameRecord>, key: FrameKey, tailCalled: bool, bounds: StackBounds)
    returns (best: nat)
    requires records != []
    ensures best == ExitIndex(records, key, tailCalled, bounds)
  {
    var top := |records| - 1;
    if !OnThreadStack(bounds, key.level) || !OnThreadStack(bounds, records[top].level) {
      return top;
    }
    var first := top;
    while !SameActivationSite(records[first], key)
      invariant 0 <= first <= top
      invariant forall i | first < i <= top :: !SameActivationSite(records[i], key)
      decreases first
    {
      if first == 0 {
        return top;
      }
      first := first - 1;
    }
    assert first == TopmostAtSite(records, key);
    var found;
    if tailCalled {
      found := ScanClosestBelow(records, key, first);
    } else {
      found := ScanExactLevel(records, key, first);
    }
    return if found < 0 then first else found;
  }

  // ---------- inline chains ----------

  /** Records j .. i-1 all have the given level. */
  predicate Group(records: seq<FrameRecord>, level: Address, j: int, i: int) {
    0 <= j <= i <= |records| && forall k | j <= k < i :: records[k].level == level
  }

  /** Index of the topmost matching record of the equal-level group that ends below index `i`, or -1. */
  function MatchInGroup(records: seq<FrameRecord>, level: Address, matches: FrameRecord -> bool, i: nat): (m: int)
    requires i <= |records|
    ensures -1 <= m < i
    ensures 0 <= m ==> Group(records, level, m, i) && matches(records[m])
    ensures forall k | m < k < i && Group(records, level, k, i) :: !matches(records[k])
  {
    if i > 0 && records[i - 1].level == level then
      if matches(records[i - 1]) then i - 1
      else
        var m := MatchInGroup(records, level, matches, i - 1);
        assert forall k | m < k < i - 1 && Group(records, level, k, i) :: Group(records, level, k, i - 1);
        m
    else
      assert forall k | 0 <= k < i :: !Group(records, level, k, i);
      -1
  }

  /** Number of records above the topmost match of the top group; 0 when no record of the group matches. */
  function AboveMatch(records: seq<FrameRecord>, level: Address, matches: FrameRecord -> bool): (n: nat)
    ensures n == 0 || n < |records|
  {
    var m := MatchInGroup(records, level, matches, |records|);
    if m < 0 then 0 else |records| - 1 - m
  }

  method DeadRecordsAboveMatch(records: seq<FrameRecord>, level: Address, matches: FrameRecord -> bool)
    returns (dead: nat)
    ensures dead == AboveMatch(records, level, matches)
  {
    var i := |records|;
    while i > 0 && records[i - 1].level == level
      invariant 0 <= i <= |records|
      invariant MatchInGroup(records, level, matches, |records|) == MatchInGroup(records, level, matches, i)
    {
      i := i - 1;
      if matches(records[i]) {
        return |records| - 1 - i;
      }
    }
    return 0;
  }

  // ---------- what the exit rule means ----------

  /** The contiguous run of the site that starts at its topmost record reaches down to index `own`. */
  predicate InTopRun(records: seq<FrameRecord>, key: FrameKey, own: nat) {
    own < |records| && SiteRun(records, key, own, TopmostAtSite(records, key))
  }

  /**
  Exit pairing for a normally called exit hook, whose level is the frame's own: the index is
  the frame's own record exactly when that record lies in the topmost contiguous run of its
  site and no record above it in the run repeats its level; otherwise it lies above.
  */
  lemma ExitPairingCalled(records: seq<FrameRecord>, key: FrameKey, bounds: StackBounds, own: nat)
    requires own < |records|
    requires SameActivationSite(records[own], key) && records[own].level == key.level
    requires OnThreadStack(bounds, key.level) && OnThreadStack(bounds, records[|records| - 1].level)
    ensures own <= ExitIndex(records, key, false, bounds)
    ensures ExitIndex(records, key, false, bounds) == own <==>
              && InTopRun(records, key, own)
              && forall j | own < j <= TopmostAtSite(records, key) :: records[j].level != key.level
  {
    var first := TopmostAtSite(records, key);
    assert own <= first;
    var best := ExactLevelInRun(records, key, first);
    if InTopRun(records, key, own) {
      assert best >= own;
      assert forall j | own < j <= first :: SiteRun(records, key, j, first);
    }
  }

  /**
  Exit pairing for a tail-called exit hook, whose level is the caller's: the index is the
  frame's own record exactly when that record lies in the topmost run of its site, every
  lower record of the run that is still below the caller's level is no closer to it, and no
  higher one is as close.
  */
  lemma ExitPairingTailCalled(records: seq<FrameRecord>, key: FrameKey, bounds: StackBounds, own: nat)
    requires own < |records|
    requires SameActivationSite(records[own], key) && records[own].level < key.level
    requires OnThreadStack(bounds, key.level) && OnThreadStack(bounds, records[|records| - 1].level)
    ensures ExitIndex(records, key, true, bounds) == own <==>
              && InTopRun(records, key, own)
              && (forall j | own < j <= TopmostAtSite(records, key) ::
                    records[j].level >= key.level || records[j].level < records[own].level)
              && (forall j | 0 <= j < own && SiteRun(records, key, j, TopmostAtSite(records, key)) ::
                    records[j].level >= key.level || records[j].level <= records[own].level)
  {
    var first := TopmostAtSite(records, key);
    assert own <= first;
    var best := ClosestBelowInRun(records, key, first);
    if InTopRun(records, key, own) {
      assert SiteRun(records, key, own, first);
      assert 0 <= best;
      assert forall j | own < j <= first :: SiteRun(records, key, j, first);
    }
  }

  // ---------- frames without a record, and frames on another stack ----------

  /** Some record was pushed by a call of this function from this place. */
  predicate RecordedFrom(records: seq<FrameRecord>, callee: Address, caller: Address) {
    exists j | 0 <= j < |records| :: records[j].callee == callee && records[j].caller == caller
  }

  /** Known bounds that the address is not within. */
  predicate OffStack(bounds: StackBounds, p: Address) {
    bounds.known && (p < bounds.lo || p >= bounds.hi)
  }

  /**
  An exit reaches below the top only to a record of its own function and call site, and only on the thread's own
  stack: a frame whose enter was never recorded, and one that runs on a foreign stack or finds one on top, pops the
  top record.
  */
  lemma ExitReachesOwnSiteOnly(records: seq<FrameRecord>, key: FrameKey, tailCalled: bool, bounds: StackBounds)
    requires records != []
    ensures var index := ExitIndex(records, key, tailCalled, bounds);
            && (index < |records| - 1 ==> records[index].callee == key.callee && records[index].caller == key.caller)
            && (!RecordedFrom(records, key.callee, key.caller)
                || OffStack(bounds, key.level) || OffStack(bounds, records[|records| - 1].level) ==>
                  index == |records| - 1)
  {
    var first := TopmostAtSite(records, key);
    if first >= 0 {
      assert records[first].callee == key.callee;
    }
  }

  /**
  Of the frame's own function and call site it takes the topmost record, unless the contiguous run below that has one
  at the very level of a called hook, or one below the level of a tail-called one.
  */
  lemma ExitTakesTopmostOfSite(records: seq<FrameRecord>, key: FrameKey, tailCalled: bool, bounds: StackBounds,
                               top: nat)
    requires top < |records| && SameActivationSite(records[top], key)
    requires forall j | top < j < |records| :: !SameActivationSite(records[j], key)
    requires !OffStack(bounds, key.level) && !OffStack(bounds, records[|records| - 1].level)
    requires forall j | 0 <= j <= top && SiteRun(records, key, j, top) ::
               if tailCalled then records[j].level >= key.level else records[j].level != key.level
    ensures ExitIndex(records, key, tailCalled, bounds) == top
  {
    assert TopmostAtSite(records, key) == top;
  }

  /** Scans touch no record off the thread's own stack, and do nothing on behalf of a frame that runs off it. */
  lemma ScansStayOnStack(records: seq<FrameRecord>, key: FrameKey, catchLevel: Address, bounds: StackBounds, j: nat)
    requires j < |records|
    ensures OffStack(bounds, records[j].level) || OffStack(bounds, key.level) ==>
              j < |records| - EnterDead(records, key, bounds)
    ensures OffStack(bounds, records[j].level) || OffStack(bounds, catchLevel) ==>
              j < |records| - CatchDead(records, catchLevel, bounds)
  {
    if j >= |records| - EnterDead(records, key, bounds) {
      assert DeadOnEnter(key, bounds)(records[j]);
    }
    if j >= |records| - CatchDead(records, catchLevel, bounds) {
      assert DeadOnCatch(catchLevel, bounds)(records[j]);
    }
  }

  /** On the thread's own stack the scans stop at the first record that may be alive, and no sooner. */
  lemma ScansReachTheFirstAlive(records: seq<FrameRecord>, key: FrameKey, catchLevel: Address, bounds: StackBounds,
                                n: nat)
    requires n <= |records| && forall j | 0 <= j < |records| :: !OffStack(bounds, records[j].level)
    ensures !OffStack(bounds, key.level) ==>
              (EnterDead(records, key, bounds) == n <==>
                && (forall j | |records| - n <= j < |records| ::
                      records[j].level < key.level
                      || (records[j].level == key.level && records[j].caller != key.caller))
                && (n < |records| ==>
                      var r := records[|records| - n - 1];
                      r.level > key.level || (r.level == key.level && r.caller == key.caller)))
    ensures !OffStack(bounds, catchLevel) ==>
              (CatchDead(records, catchLevel, bounds) == n <==>
                && (forall j | |records| - n <= j < |records| :: records[j].level < catchLevel)
                && (n < |records| ==> records[|records| - n - 1].level >= catchLevel))
  {
    if !OffStack(bounds, key.level) {
      EnterScanIff(records, key, bounds, n);
    }
    if !OffStack(bounds, catchLevel) {
      CatchScanIff(records, catchLevel, bounds, n);
    }
  }

  lemma EnterScanIff(records: seq<FrameRecord>, key: FrameKey, bounds: StackBounds, n: nat)
    requires n <= |records| && OnThreadStack(bounds, key.level)
    requires forall j | 0 <= j < |records| :: OnThreadStack(bounds, records[j].level)
    ensures EnterDead(records, key, bounds) == n <==>
              && (forall j | |records| - n <= j < |records| :: DeadOnEnter(key, bounds)(records[j]))
              && (n < |records| ==> !DeadOnEnter(key, bounds)(records[|records| - n - 1]))
  {
    if (forall j | |records| - n <= j < |records| :: DeadOnEnter(key, bounds)(records[j]))
       && (n < |records| ==> !DeadOnEnter(key, bounds)(records[|records| - n - 1])) {
      TopSegmentUnique(records, DeadOnEnter(key, bounds), n);
    }
  }

  lemma CatchScanIff(records: seq<FrameRecord>, catchLevel: Address, bounds: StackBounds, n: nat)
    requires n <= |records| && OnThreadStack(bounds, catchLevel)
    ensures CatchDead(records, catchLevel, bounds) == n <==>
              && (forall j | |records| - n <= j < |records| :: DeadOnCatch(catchLevel, bounds)(records[j]))
              && (n < |records| ==> !DeadOnCatch(catchLevel, bounds)(records[|records| - n - 1]))
  {
    if (forall j | |records| - n <= j < |records| :: DeadOnCatch(catchLevel, bounds)(records[j]))
       && (n < |records| ==> !DeadOnCatch(catchLevel, bounds)(records[|records| - n - 1])) {
      TopSegmentUnique(records, DeadOnCatch(catchLevel, bounds), n);
    }
  }
}
