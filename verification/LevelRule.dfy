/**
How a hook finds the level of the frame that called it (src/trace.cpp): measured once per hook site with the
unwinder, remembered as a distance, and cached in a small table in front of a map. An estimate is good enough if
it lies above every callee's canonical frame address and not above the frame's own; the theorems say that every
level the cache ever answers is, and that such levels are all the record stack needs.
*/
module LevelRule {
  import opened Common
  import opened FrameReconcile
  import opened LiveStack

  const MIN_LEVEL_DISTANCE: nat := 24
  const TWO_WORDS: nat := 16
  const INT32_MAX: nat := 0x7fff_ffff
  const LEVEL_CACHE_SLOTS: nat := 256

  datatype Rule = Rule(distance: nat, fromSavedFramePointer: bool)

  const FALLBACK := Rule(MIN_LEVEL_DISTANCE, false)

  /**
  One call of a hook: the hook's frame address, the word saved there, and the canonical frame address of the
  calling frame.
  */
  datatype Activation = Activation(frame: Address, saved: Address, cfa: Address)

  /** What the unwinder finds for the site. */
  datatype Search = Search(found: bool, cfa: Address)

  /** apply_level_rule */
  function Apply(r: Rule, a: Activation): Address {
    (if r.fromSavedFramePointer then a.saved else a.frame) + r.distance
  }

  /** measure_level_rule; `usesSavedWord` says whether the architecture lets a rule use the saved frame pointer. */
  function Measured(search: Search, a: Activation, bounds: StackBounds, usesSavedWord: bool): Rule {
    if !search.found || search.cfa <= a.frame || !OnThreadStack(bounds, search.cfa) then FALLBACK
    else if usesSavedWord && search.cfa == a.saved + TWO_WORDS then Rule(TWO_WORDS, true)
    else if search.cfa - a.frame > INT32_MAX then FALLBACK
    else Rule(search.cfa - a.frame, false)
  }

  // ---------- what is known of a site's frame ----------

  /** The frames a hook site runs in: they keep a frame pointer or not, and have a fixed size or not. */
  datatype Layout = Layout(keepsFramePointer: bool, fixedSize: bool, size: nat)

  /**
  The frame's return address and the hook's own first two words lie between the hook's frame address and the
  calling frame's canonical one. A frame pointer, where one is kept, stands two words below the latter; any other
  word may stand there as well.
  */
  predicate Describes(l: Layout, a: Activation) {
    && a.frame + MIN_LEVEL_DISTANCE <= a.cfa
    && (l.keepsFramePointer ==> a.cfa == a.saved + TWO_WORDS)
    && (l.fixedSize ==> a.cfa == a.frame + l.size)
  }

  /** Wrong unwind information gives an address at or below the hook's frame, or off the thread's stack. */
  predicate HonestSearch(search: Search, a: Activation, bounds: StackBounds) {
    Passes(search, a, bounds) ==> search.cfa == a.cfa
  }

  predicate Passes(search: Search, a: Activation, bounds: StackBounds) {
    search.found && search.cfa > a.frame && OnThreadStack(bounds, search.cfa)
  }

  /** Never above the frame's own address, and above everything the frame calls. */
  predicate GoodEstimate(level: Address, a: Activation) {
    a.frame + MIN_LEVEL_DISTANCE <= level <= a.cfa
  }

  ghost predicate Sound(r: Rule, l: Layout) {
    forall a | Describes(l, a) :: GoodEstimate(Apply(r, a), a)
  }

  ghost predicate Exact(r: Rule, l: Layout) {
    forall a | Describes(l, a) :: Apply(r, a) == a.cfa
  }

  /** The search gave something a rule can express. */
  predicate Usable(search: Search, a: Activation, bounds: StackBounds, usesSavedWord: bool) {
    && Passes(search, a, bounds)
    && (FollowsSavedWord(search, a, usesSavedWord) || search.cfa <= a.frame + INT32_MAX)
  }

  predicate FollowsSavedWord(search: Search, a: Activation, usesSavedWord: bool) {
    usesSavedWord && search.cfa == a.saved + TWO_WORDS
  }

  /**
  What the site's frames must be like for the measurement to hold in all of them: a rule that follows the saved
  word needs a frame pointer there, and a distance above the least one needs a fixed size.
  */
  predicate Fits(search: Search, a: Activation, bounds: StackBounds, usesSavedWord: bool, l: Layout) {
    Usable(search, a, bounds, usesSavedWord) ==>
      if FollowsSavedWord(search, a, usesSavedWord) then l.keepsFramePointer
      else l.fixedSize || search.cfa == a.frame + MIN_LEVEL_DISTANCE
  }

  /** An activation of the layout whose saved word, where it means nothing, is far above the frame. */
  function Stray(l: Layout, cfa: Address): Activation
    requires cfa >= MIN_LEVEL_DISTANCE && (l.fixedSize ==> MIN_LEVEL_DISTANCE <= l.size <= cfa)
  {
    Activation(if l.fixedSize then cfa - l.size else cfa - MIN_LEVEL_DISTANCE,
               if l.keepsFramePointer then cfa - TWO_WORDS else cfa, cfa)
  }

  /**
  The exact condition, for every layout and every measurement the unwinder gets right: the rule gives good levels
  in every activation of the site if and only if the measurement fits it. Everything else misleads some of them.
  */
  lemma MeasuredIsSoundIff(search: Search, a: Activation, bounds: StackBounds, usesSavedWord: bool, l: Layout)
    requires Describes(l, a) && HonestSearch(search, a, bounds)
    ensures Sound(Measured(search, a, bounds, usesSavedWord), l) <==> Fits(search, a, bounds, usesSavedWord, l)
  {
    var r := Measured(search, a, bounds, usesSavedWord);
    if !Fits(search, a, bounds, usesSavedWord, l) {
      var stray := Stray(l, a.cfa);
      assert Describes(l, stray) && Apply(r, stray) > stray.cfa;
    }
  }

  /** And it is exact if and only if it follows a real frame pointer, or the site's one distance. */
  lemma MeasuredIsExactIff(search: Search, a: Activation, bounds: StackBounds, usesSavedWord: bool, l: Layout)
    requires Describes(l, a) && HonestSearch(search, a, bounds)
    ensures var r := Measured(search, a, bounds, usesSavedWord);
            Exact(r, l)
            <==> if r.fromSavedFramePointer then l.keepsFramePointer else l.fixedSize && r.distance == l.size
  {
    var r := Measured(search, a, bounds, usesSavedWord);
    var stray := Stray(l, a.cfa);
    if r.fromSavedFramePointer {
      assert l.keepsFramePointer || (Describes(l, stray) && Apply(r, stray) != stray.cfa);
    } else if !l.fixedSize {
      var far := a.cfa + r.distance + 1 + MIN_LEVEL_DISTANCE;
      var wider := Activation(a.cfa, if l.keepsFramePointer then far - TWO_WORDS else 0, far);
      assert Describes(l, wider) && Apply(r, wider) != wider.cfa;
    } else {
      assert Apply(r, a) == a.cfa <==> r.distance == l.size;
    }
  }

  /**
  How far a measured rule reaches: the distance found if it fits a signed 32-bit number, or the least one; and where the
  search gives nothing, or more than fits, it is the least one.
  */
  lemma MeasuredDistance(search: Search, a: Activation, bounds: StackBounds, usesSavedWord: bool)
    ensures var r := Measured(search, a, bounds, usesSavedWord);
            && r.distance < 0x8000_0000
            && (!r.fromSavedFramePointer && r.distance != 24 ==>
                  && search.found && search.cfa == a.frame + r.distance && !OffStack(bounds, search.cfa))
            && (search.found && search.cfa > a.frame && !OffStack(bounds, search.cfa) && !r.fromSavedFramePointer ==>
                  r.distance == if search.cfa - a.frame < 0x8000_0000 then search.cfa - a.frame else 24)
            && (!search.found || search.cfa <= a.frame || OffStack(bounds, search.cfa) ==> r == Rule(24, false))
  {
  }

  /** Whatever the frame, the level of the activation measured is good. */
  lemma MeasuredIsGoodHere(search: Search, a: Activation, bounds: StackBounds, usesSavedWord: bool)
    requires a.frame + MIN_LEVEL_DISTANCE <= a.cfa && HonestSearch(search, a, bounds)
    ensures GoodEstimate(Apply(Measured(search, a, bounds, usesSavedWord), a), a)
  {
  }

  /**
  A word that only happens to stand two words below the address makes the rule follow it: of a frame of fixed
  size without a frame pointer, the next activation then gets a level above its own address.
  */
  lemma CoincidenceMisleads(bounds: StackBounds)
    requires OnThreadStack(bounds, 1064)
    ensures var l := Layout(false, true, 64);
            var first, next := Activation(1000, 1048, 1064), Activation(1000, 2000, 1064);
            && Describes(l, first) && Describes(l, next) && !Fits(Search(true, 1064), first, bounds, true, l)
            && Apply(Measured(Search(true, 1064), first, bounds, true), next) > next.cfa
  {
  }

  /**
  A frame that realigns its stack pointer stands at a distance from its address that differs from call to call,
  and its frame pointer is not two words below it: the distance measured first is wrong for the next call.
  */
  lemma RealignedFrameMisleads(bounds: StackBounds, usesSavedWord: bool)
    requires OnThreadStack(bounds, 1088)
    ensures var l := Layout(false, false, 0);
            var first, next := Activation(1000, 1056, 1088), Activation(1000, 1040, 1072);
            && Describes(l, first) && Describes(l, next) && !Fits(Search(true, 1088), first, bounds, usesSavedWord, l)
            && Apply(Measured(Search(true, 1088), first, bounds, usesSavedWord), next) > next.cfa
  {
  }

  // ---------- the cache ----------

  datatype Slot = Slot(site: Address, rule: Rule)

  function SlotIndex(site: Address): (i: nat)
    ensures i < LEVEL_CACHE_SLOTS
  {
    site / 4 % LEVEL_CACHE_SLOTS
  }

  /** Two sites in different 4-byte words of the same kilobyte, wherever that starts, do not share a slot. */
  lemma NearSitesPart(a: Address, b: Address)
    requires a / 4 < b / 4 < a / 4 + 256
    ensures SlotIndex(a) != SlotIndex(b)
  {
    var i, j := a / 4, b / 4;
    assert 0 < j - i < 256;
  }

  /** What one front slot claims: it is in its place, its rule is sound, and the map does not contradict it. */
  ghost predicate SlotOk(s: Slot, i: nat, rules: map<Address, Rule>, layouts: Address -> Layout) {
    s.site != 0 ==>
      && SlotIndex(s.site) == i && Sound(s.rule, layouts(s.site))
      && (s.site in rules ==> rules[s.site] == s.rule)
  }

  class LevelCache {
    const slots: array<Slot>
    var rules: map<Address, Rule>

    /** Both levels of the cache hold sound rules and agree. */
    ghost predicate Valid(layouts: Address -> Layout)
      reads this, slots
    {
      && slots.Length == LEVEL_CACHE_SLOTS
      && (forall i | 0 <= i < slots.Length :: SlotOk(slots[i], i, rules, layouts))
      && (forall site | site in rules :: Sound(rules[site], layouts(site)))
    }

    constructor (ghost layouts: Address -> Layout)
      ensures Valid(layouts) && rules == map[] && fresh(slots)
    {
      slots := new Slot[LEVEL_CACHE_SLOTS](_ => Slot(0, Rule(0, false)));
      rules := map[];
    }

    /** Neither level of the cache knows the site: the rule is about to be measured. */
    predicate Unknown(site: Address)
      requires slots.Length == LEVEL_CACHE_SLOTS
      reads this, slots
    {
      slots[SlotIndex(site)].site != site && site !in rules
    }

    /**
    frame_level(): a known site is answered from the cache, which is good for this very call; an unknown one is
    measured, and the cache stays good if and only if the measurement fits the site's frames. A site in the map keeps
    its rule for good; only the slot of this site changes.
    */
    method FrameLevel(ghost layouts: Address -> Layout, site: Address, a: Activation, search: Search,
                      bounds: StackBounds, usesSavedWord: bool, insertThrows: bool)
      returns (level: Address)
      requires Valid(layouts) && site != 0
      requires Describes(layouts(site), a) && HonestSearch(search, a, bounds)
      modifies this`rules, slots
      ensures Valid(layouts) <==> !old(Unknown(site)) || Fits(search, a, bounds, usesSavedWord, layouts(site))
      ensures GoodEstimate(level, a)
      ensures slots[SlotIndex(site)].site == site && level == Apply(slots[SlotIndex(site)].rule, a)
      ensures forall i | 0 <= i < slots.Length && i != SlotIndex(site) :: slots[i] == old(slots[i])
      ensures site in old(rules) ==> rules == old(rules) && level == Apply(rules[site], a)
      ensures old(Unknown(site)) ==>
                && level == Apply(Measured(search, a, bounds, usesSavedWord), a)
                && rules == (if insertThrows then old(rules)
                             else old(rules)[site := Measured(search, a, bounds, usesSavedWord)])
      ensures !old(Unknown(site)) ==> rules == old(rules)
    {
      var i := SlotIndex(site);
      if slots[i].site == site {
        return Apply(slots[i].rule, a);
      }
      if site in rules {
        slots[i] := Slot(site, rules[site]);
        return Apply(rules[site], a);
      }
      var rule := Measured(search, a, bounds, usesSavedWord);
      MeasuredIsSoundIff(search, a, bounds, usesSavedWord, layouts(site));
      MeasuredIsGoodHere(search, a, bounds, usesSavedWord);
      if !insertThrows {
        rules := rules[site := rule];
      }
      slots[i] := Slot(site, rule);
      return Apply(rule, a);
    }
  }

  // ---------- good estimates are all the record stack needs ----------

  /** A live physical frame with the hook call that gave its level. */
  datatype Physical = Physical(f: Frame, a: Activation)

  /**
  Live frames from the outermost: each has a good estimate, and enters below where the hook of the frame that
  called it stood when that one entered.
  */
  predicate LiveChain(chain: seq<Physical>) {
    && (forall i | 0 <= i < |chain| :: GoodEstimate(chain[i].f.level, chain[i].a))
    && (forall i | 0 < i < |chain| :: chain[i].a.cfa <= chain[i - 1].a.frame + TWO_WORDS)
  }

  function Frames(chain: seq<Physical>): (live: seq<Frame>)
    ensures |live| == |chain| && forall i | 0 <= i < |live| :: live[i] == chain[i].f
  {
    seq(|chain|, i requires 0 <= i < |chain| => chain[i].f)
  }

  /** Along a live chain every level lies above the address of everything called from there, however deep. */
  lemma {:induction false} CalleesBelow(chain: seq<Physical>, i: nat, j: nat)
    requires LiveChain(chain) && i < j < |chain|
    ensures chain[i].f.level > chain[j].a.cfa >= chain[j].f.level
    decreases j
  {
    if i < j - 1 {
      CalleesBelow(chain, i, j - 1);
    }
  }

  /** So estimates make every call one of a deeper frame, which is what soundness over all runs asks of levels. */
  lemma EstimatesDecrease(chain: seq<Physical>, i: nat)
    requires LiveChain(chain) && i + 1 < |chain|
    ensures Deeper(Frames(chain)[i], Frames(chain)[i + 1]) && chain[i].f.level > chain[i + 1].f.level
  {
    CalleesBelow(chain, i, i + 1);
  }

  /** An exit hook may resolve to any level that is not above the frame's own address, not only to its enter's. */
  lemma ExitEstimateIsEnough(chain: seq<Physical>, level: Address)
    requires LiveChain(chain) && chain != [] && level <= chain[|chain| - 1].a.cfa
    ensures ExitLevelOk(Frames(chain), level, false)
  {
    forall i | 0 <= i < |chain| - 1
      ensures chain[i].f.level > level
    {
      CalleesBelow(chain, i, |chain| - 1);
    }
  }

  /**
  A tail-called exit hook stands where the frame's own call did and resolves to a level of the frame that called
  it: good enough if that level is above the leaving frame and not above what the caller's own enter gave.
  */
  lemma TailExitEstimateIsEnough(chain: seq<Physical>, hook: Activation, level: Address)
    requires LiveChain(chain) && |chain| >= 2
    requires hook.frame + TWO_WORDS == chain[|chain| - 1].a.cfa && hook.frame + MIN_LEVEL_DISTANCE <= level
    requires level <= chain[|chain| - 2].f.level
    ensures ExitLevelOk(Frames(chain), level, true)
  {
    forall i | 0 <= i < |chain| - 1
      ensures chain[i].f.level >= level
    {
      if i < |chain| - 2 {
        CalleesBelow(chain, i, |chain| - 2);
      }
    }
  }

  /** Either both of the caller's sites were measured exactly, or both fell back: the estimate is never too high. */
  lemma TailExitEstimateFollows(chain: seq<Physical>, hook: Activation, level: Address)
    requires LiveChain(chain) && |chain| >= 2
    requires hook.frame + TWO_WORDS == chain[|chain| - 1].a.cfa
    requires var caller := chain[|chain| - 2];
             (level == caller.a.cfa == caller.f.level)
             || (level == hook.frame + MIN_LEVEL_DISTANCE && caller.f.level == caller.a.frame + MIN_LEVEL_DISTANCE)
    ensures level <= chain[|chain| - 2].f.level && hook.frame + MIN_LEVEL_DISTANCE <= level
    ensures ExitLevelOk(Frames(chain), level, true)
  {
    CalleesBelow(chain, |chain| - 2, |chain| - 1);
    assert chain[|chain| - 1].a.cfa <= chain[|chain| - 2].a.frame + TWO_WORDS;
    TailExitEstimateIsEnough(chain, hook, level);
  }

  // ---------- two estimates in one physical frame ----------

  /** `inner` is inlined into `host`: its hook runs in the same physical frame, which was called from one place. */
  predicate InlinedInto(host: Physical, inner: Physical) {
    inner.f.caller == host.f.caller && inner.a.cfa == host.a.cfa
  }

  /** What a measurement comes to, for the activation measured. */
  lemma MeasuredLevel(search: Search, a: Activation, bounds: StackBounds, usesSavedWord: bool)
    requires a.frame + MIN_LEVEL_DISTANCE <= a.cfa && HonestSearch(search, a, bounds)
    ensures Apply(Measured(search, a, bounds, usesSavedWord), a)
            == if Usable(search, a, bounds, usesSavedWord) then a.cfa else a.frame + MIN_LEVEL_DISTANCE
  {
  }

  /**
  An inlined function and its host have hook sites of their own, so two measurements for one physical frame. The
  inlined one enters no higher than its host, as soundness over all runs asks, if and only if the host's is exact, or
  both fell back and the inlined function's hook stands no higher.
  */
  lemma InlinedEstimateIsDeeperIff(host: Physical, inner: Physical, hostSearch: Search, innerSearch: Search,
                                   bounds: StackBounds, usesSavedWord: bool)
    requires InlinedInto(host, inner)
    requires host.a.frame + MIN_LEVEL_DISTANCE <= host.a.cfa && inner.a.frame + MIN_LEVEL_DISTANCE <= inner.a.cfa
    requires HonestSearch(hostSearch, host.a, bounds) && HonestSearch(innerSearch, inner.a, bounds)
    requires host.f.level == Apply(Measured(hostSearch, host.a, bounds, usesSavedWord), host.a)
    requires inner.f.level == Apply(Measured(innerSearch, inner.a, bounds, usesSavedWord), inner.a)
    ensures Deeper(host.f, inner.f) <==>
            || Usable(hostSearch, host.a, bounds, usesSavedWord)
            || host.a.frame + MIN_LEVEL_DISTANCE == host.a.cfa
            || (!Usable(innerSearch, inner.a, bounds, usesSavedWord) && inner.a.frame <= host.a.frame)
  {
    MeasuredLevel(hostSearch, host.a, bounds, usesSavedWord);
    MeasuredLevel(innerSearch, inner.a, bounds, usesSavedWord);
  }

  /** Otherwise the scan of the inlined function's enter takes its live host's record for dead. */
  lemma HigherInlinedEstimatePopsTheHost(host: Physical, inner: Physical, r: FrameRecord, bounds: StackBounds)
    requires InlinedInto(host, inner) && r.level == host.f.level && r.caller == host.f.caller
    requires OnThreadStack(bounds, host.f.level) && OnThreadStack(bounds, inner.f.level)
    ensures EnterDead([r], FrameKey(inner.f.callee, inner.f.caller, inner.f.level), bounds)
            == if Deeper(host.f, inner.f) then 0 else 1
  {
    var key := FrameKey(inner.f.callee, inner.f.caller, inner.f.level);
    assert DeadOnEnter(key, bounds)([r][0]) <==> !Deeper(host.f, inner.f);
  }
}
