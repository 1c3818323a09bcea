/**
 * Selecting AUTO loads under a power cap: a worklist search over load combinations, expanded best first.
 * The order of expansion is a heuristic; what is proved is that the result is optimal whatever the order was.
 */
module BestFirstSearch {
  import opened Common
  import opened Loads

  const ACTIVE_SCHEDULE_PRIORITY_BOOST: nat := 5

  /**
   * An AUTO load as one search sees it: its schedule is evaluated once. Equal values stand for the same load object.
   */
  datatype AutoLoad = AutoLoad(id: LoadId, watts: real, priority: nat, scheduleActive: bool, isAuto: bool)

  type Combination = seq<AutoLoad>

  datatype Totals = Totals(power: real, configured: nat, effective: nat)

  function EffectivePriority(l: AutoLoad): nat {
    l.priority + if l.scheduleActive then ACTIVE_SCHEDULE_PRIORITY_BOOST else 0
  }

  function TotalsOf(c: Combination): Totals {
    if c == [] then Totals(0.0, 0, 0)
    else
      var t := TotalsOf(c[..|c| - 1]);
      var l := c[|c| - 1];
      Totals(t.power + l.watts, t.configured + l.priority, t.effective + EffectivePriority(l))
  }

  method CalculateTotalPowerWatts(c: Combination) returns (total: real)
    ensures total == TotalsOf(c).power
  {
    total := 0.0;
    for i := 0 to |c|
      invariant total == TotalsOf(c[..i]).power
    {
      assert c[..i + 1][..i] == c[..i];
      total := total + c[i].watts;
    }
    assert c[..|c|] == c;
  }

  method CalculateTotalConfiguredPriority(c: Combination) returns (total: nat)
    ensures total == TotalsOf(c).configured
  {
    total := 0;
    for i := 0 to |c|
      invariant total == TotalsOf(c[..i]).configured
    {
      assert c[..i + 1][..i] == c[..i];
      total := total + c[i].priority;
    }
    assert c[..|c|] == c;
  }

  method CalculateTotalEffectivePriority(c: Combination) returns (total: nat)
    ensures total == TotalsOf(c).effective
  {
    total := 0;
    for i := 0 to |c|
      invariant total == TotalsOf(c[..i]).effective
    {
      assert c[..i + 1][..i] == c[..i];
      var effective := c[i].priority;
      if c[i].scheduleActive {
        effective := effective + ACTIVE_SCHEDULE_PRIORITY_BOOST;
      }
      total := total + effective;
    }
    assert c[..|c|] == c;
  }

  function CostH(c: Combination): real {
    if c == [] then 0.0 else TotalsOf(c).power / (|c| as real)
  }

  function CostF(c: Combination): real {
    (|c| as real) + CostH(c)
  }

  method CalculateH(c: Combination) returns (h: real)
    ensures h == CostH(c)
  {
    if |c| == 0 {
      return 0.0;
    }
    var total := CalculateTotalPowerWatts(c);
    return total / (|c| as real);
  }

  datatype SearchState = SearchState(combination: Combination, power: real, f: real, configured: nat, effective: nat)

  function StateOf(c: Combination): SearchState {
    var t := TotalsOf(c);
    SearchState(c, t.power, CostF(c), t.configured, t.effective)
  }

  method BuildState(c: Combination) returns (s: SearchState)
    ensures s == StateOf(c)
  {
    var h := CalculateH(c);
    var power := CalculateTotalPowerWatts(c);
    var configured := CalculateTotalConfiguredPriority(c);
    var effective := CalculateTotalEffectivePriority(c);
    return SearchState(c, power, (|c| as real) + h, configured, effective);
  }

  // ---------------------------------------------------------------------------------------------------
  // The two orders
  // ---------------------------------------------------------------------------------------------------

  predicate HasBetterSearchMerit(a: SearchState, b: SearchState) {
    if a.effective != b.effective then a.effective > b.effective
    else if a.configured != b.configured then a.configured > b.configured
    else if a.f != b.f then a.f < b.f
    else if |a.combination| != |b.combination| then |a.combination| > |b.combination|
    else a.power < b.power
  }

  predicate IsBetterReturned(a: SearchState, b: SearchState) {
    if a.effective != b.effective then a.effective > b.effective
    else if a.configured != b.configured then a.configured > b.configured
    else if |a.combination| != |b.combination| then |a.combination| > |b.combination|
    else a.power < b.power
  }

  /** What the returned combination is judged by. */
  datatype Merit = Merit(effective: nat, configured: nat, size: nat, power: real)

  function MeritOf(c: Combination): Merit {
    Merit(TotalsOf(c).effective, TotalsOf(c).configured, |c|, TotalsOf(c).power)
  }

  predicate Better(a: Merit, b: Merit) {
    || a.effective > b.effective
    || (a.effective == b.effective && a.configured > b.configured)
    || (a.effective == b.effective && a.configured == b.configured && a.size > b.size)
    || (a.effective == b.effective && a.configured == b.configured && a.size == b.size && a.power < b.power)
  }

  /** Sorting by the search order is well defined: it is a strict weak order. */
  lemma SearchOrderIsStrictWeak(a: SearchState, b: SearchState, c: SearchState)
    ensures !HasBetterSearchMerit(a, a)
    ensures HasBetterSearchMerit(a, b) && HasBetterSearchMerit(b, c) ==> HasBetterSearchMerit(a, c)
    ensures !HasBetterSearchMerit(b, a) && !HasBetterSearchMerit(c, b) ==> !HasBetterSearchMerit(c, a)
  {
  }

  function Insert(x: SearchState, sorted: seq<SearchState>): seq<SearchState> {
    if sorted == [] then [x]
    else if HasBetterSearchMerit(sorted[0], x) then [sorted[0]] + Insert(x, sorted[1..])
    else [x] + sorted
  }

  /** The stable sort of the open states. */
  function StableSort(s: seq<SearchState>): seq<SearchState> {
    if s == [] then [] else Insert(s[0], StableSort(s[1..]))
  }

  lemma {:induction false} InsertKeeps(x: SearchState, sorted: seq<SearchState>)
    ensures multiset(Insert(x, sorted)) == multiset{x} + multiset(sorted)
    ensures |Insert(x, sorted)| == |sorted| + 1
  {
    if sorted != [] {
      assert sorted == [sorted[0]] + sorted[1..];
      if HasBetterSearchMerit(sorted[0], x) { InsertKeeps(x, sorted[1..]); }
    }
  }

  /** Sorting loses and invents nothing. */
  lemma {:induction false} StableSortKeeps(s: seq<SearchState>)
    ensures multiset(StableSort(s)) == multiset(s) && |StableSort(s)| == |s|
  {
    if s != [] {
      assert s == [s[0]] + s[1..];
      StableSortKeeps(s[1..]);
      InsertKeeps(s[0], StableSort(s[1..]));
    }
  }

  /** The first of the states that no other one is better than. */
  ghost predicate FirstBest(s: seq<SearchState>, k: nat) {
    && k < |s|
    && (forall i | 0 <= i < |s| :: !HasBetterSearchMerit(s[i], s[k]))
    && (forall i | 0 <= i < k :: HasBetterSearchMerit(s[k], s[i]))
  }

  /** A state put in front is the first best unless the first best of the rest is better. */
  lemma FirstBestOfLonger(x: SearchState, rest: seq<SearchState>, j: nat)
    requires FirstBest(rest, j)
    ensures FirstBest([x] + rest, if HasBetterSearchMerit(rest[j], x) then j + 1 else 0)
  {
    var s, best := [x] + rest, rest[j];
    forall i | 0 <= i < |rest| ensures s[i + 1] == rest[i] && !HasBetterSearchMerit(rest[i], best) {}
    if HasBetterSearchMerit(best, x) {
      SearchOrderIsStrictWeak(best, x, best);
      forall i | 0 < i < j + 1 ensures HasBetterSearchMerit(best, s[i]) { assert s[i] == rest[i - 1]; }
    } else {
      forall i | 0 < i < |s| ensures !HasBetterSearchMerit(s[i], x) {
        assert s[i] == rest[i - 1];
        SearchOrderIsStrictWeak(x, best, rest[i - 1]);
      }
    }
  }

  /** The state expanded next is the first of those none is better than. */
  lemma {:induction false} StableSortPicksFirstBest(s: seq<SearchState>) returns (k: nat)
    requires s != []
    ensures |StableSort(s)| > 0 && FirstBest(s, k) && StableSort(s)[0] == s[k]
  {
    StableSortKeeps(s);
    if |s| == 1 {
      k := 0;
    } else {
      var x, rest := s[0], s[1..];
      assert s == [x] + rest;
      var j := StableSortPicksFirstBest(rest);
      FirstBestOfLonger(x, rest, j);
      k := if HasBetterSearchMerit(rest[j], x) then j + 1 else 0;
    }
  }

  // ---------------------------------------------------------------------------------------------------
  // Combinations as sets
  // ---------------------------------------------------------------------------------------------------

  ghost function Members(c: Combination): set<AutoLoad> {
    set l | l in c
  }

  method RepresentsSameCombination(first: Combination, second: Combination) returns (same: bool)
    ensures same <==> |first| == |second| && forall l <- first :: l in second
  {
    if |first| != |second| {
      return false;
    }
    for i := 0 to |first|
      invariant forall j | 0 <= j < i :: first[j] in second
    {
      if first[i] !in second {
        return false;
      }
    }
    return true;
  }

  lemma {:induction false} MembersCount(c: Combination)
    ensures NoRepeats(c) <==> |Members(c)| == |c|
    ensures |Members(c)| <= |c|
  {
    if c != [] {
      var init, last := c[..|c| - 1], c[|c| - 1];
      MembersCount(init);
      assert Members(c) == Members(init) + {last};
      assert NoRepeats(c) <==> NoRepeats(init) && last !in init;
    }
  }

  lemma SubsetOfSameSize<T>(a: set<T>, b: set<T>)
    requires a <= b && |a| == |b|
    ensures a == b
  {
    assert b == a + (b - a);
  }

  /** Equal length and one-way inclusion decide set equality, because combinations repeat no load. */
  lemma SameTestIsSetEquality(first: Combination, second: Combination)
    requires NoRepeats(first) && NoRepeats(second)
    ensures (|first| == |second| && forall l <- first :: l in second) <==> Members(first) == Members(second)
  {
    MembersCount(first);
    MembersCount(second);
    if |first| == |second| && forall l <- first :: l in second {
      SubsetOfSameSize(Members(first), Members(second));
    }
    if Members(first) == Members(second) {
      forall l <- first ensures l in second { assert l in Members(first); }
    }
  }

  /** With a repeated load the same test would confuse different sets. */
  lemma SameTestNeedsNoRepeats(a: AutoLoad, b: AutoLoad)
    requires a != b
    ensures var first, second := [a, a], [a, b];
            |first| == |second| && (forall l <- first :: l in second) && Members(first) != Members(second)
  {
    assert b in Members([a, b]) && b !in Members([a, a]);
  }

  lemma {:induction false} TotalsWithout(c: Combination, k: nat)
    requires k < |c|
    ensures var t := TotalsOf(c[..k] + c[k + 1..]);
            TotalsOf(c) == Totals(t.power + c[k].watts, t.configured + c[k].priority,
                                  t.effective + EffectivePriority(c[k]))
  {
    var init := c[..|c| - 1];
    if k == |c| - 1 {
      assert c[..k] + c[k + 1..] == init;
    } else {
      TotalsWithout(init, k);
      var rest := c[..k] + c[k + 1..];
      assert rest[..|rest| - 1] == init[..k] + init[k + 1..];
      assert rest[|rest| - 1] == c[|c| - 1];
    }
  }

  /** Totals do not depend on the order in which a combination was built. */
  lemma {:induction false} TotalsOfSet(c: Combination, d: Combination)
    requires NoRepeats(c) && NoRepeats(d) && Members(c) == Members(d)
    ensures TotalsOf(c) == TotalsOf(d) && MeritOf(c) == MeritOf(d)
    decreases |c|
  {
    MembersCount(c);
    MembersCount(d);
    if c != [] {
      var init, x := c[..|c| - 1], c[|c| - 1];
      assert x in Members(c) && x in Members(d);
      var k :| 0 <= k < |d| && d[k] == x;
      var rest := d[..k] + d[k + 1..];
      forall i, j | 0 <= i < j < |rest| ensures rest[i] != rest[j] {
        assert rest[i] == d[if i < k then i else i + 1] && rest[j] == d[if j < k then j else j + 1];
      }
      assert Members(init) == Members(c) - {x};
      assert Members(rest) == Members(d) - {x};
      TotalsOfSet(init, rest);
      TotalsWithout(d, k);
    }
  }

  // ---------------------------------------------------------------------------------------------------
  // The search
  // ---------------------------------------------------------------------------------------------------

  ghost predicate Feasible(loads: seq<AutoLoad>, available: real, c: Combination) {
    && NoRepeats(c)
    && (forall l <- c :: l in loads && l.isAuto)
    && TotalsOf(c).power <= available
  }

  /** No feasible combination, of all subsets of the loads, has a better merit. */
  ghost predicate Optimal(loads: seq<AutoLoad>, available: real, best: Combination) {
    && Feasible(loads, available, best)
    && forall d | Feasible(loads, available, d) :: !Better(MeritOf(d), MeritOf(best))
  }

  ghost function SetsOf(cs: seq<Combination>): set<set<AutoLoad>> {
    set c | c in cs :: Members(c)
  }

  ghost function OpenSets(open: seq<SearchState>): set<set<AutoLoad>> {
    set s | s in open :: Members(s.combination)
  }

  ghost predicate GoodState(loads: seq<AutoLoad>, available: real, s: SearchState) {
    s == StateOf(s.combination) && Feasible(loads, available, s.combination)
  }

  /** Open and closed combinations are feasible and pairwise different as sets. */
  ghost predicate Worklist(loads: seq<AutoLoad>, available: real, open: seq<SearchState>, closed: seq<Combination>) {
    && (forall s <- open :: GoodState(loads, available, s))
    && (forall c <- closed :: Feasible(loads, available, c))
    && |OpenSets(open)| == |open| && |SetsOf(closed)| == |closed|
    && OpenSets(open) !! SetsOf(closed)
  }

  ghost predicate NoneBetter(open: seq<SearchState>, closed: seq<Combination>, best: SearchState) {
    && (forall s <- open :: !Better(MeritOf(s.combination), MeritOf(best.combination)))
    && (forall c <- closed :: !Better(MeritOf(c), MeritOf(best.combination)))
  }

  ghost predicate ExtendedBy(loads: seq<AutoLoad>, available: real, c: Combination, l: AutoLoad,
                             known: set<set<AutoLoad>>) {
    l.isAuto && l !in c && Feasible(loads, available, c + [l]) ==> Members(c + [l]) in known
  }

  /** Every feasible extension of an expanded combination by one load is known. */
  ghost predicate Extended(loads: seq<AutoLoad>, available: real, c: Combination, tried: seq<AutoLoad>,
                           known: set<set<AutoLoad>>) {
    forall l {:trigger ExtendedBy(loads, available, c, l, known)} | l in tried ::
        ExtendedBy(loads, available, c, l, known)
  }

  method CombinationAlreadyKnown(c: Combination, open: seq<SearchState>, closed: seq<Combination>) returns (known: bool)
    requires NoRepeats(c) && (forall s <- open :: NoRepeats(s.combination)) && (forall d <- closed :: NoRepeats(d))
    ensures known <==> Members(c) in OpenSets(open) + SetsOf(closed)
  {
    for i := 0 to |open|
      invariant forall j | 0 <= j < i :: Members(c) != Members(open[j].combination)
    {
      var same := RepresentsSameCombination(c, open[i].combination);
      SameTestIsSetEquality(c, open[i].combination);
      if same {
        assert open[i] in open;
        return true;
      }
    }
    for i := 0 to |closed|
      invariant forall j | 0 <= j < i :: Members(c) != Members(closed[j])
    {
      var same := RepresentsSameCombination(c, closed[i]);
      SameTestIsSetEquality(c, closed[i]);
      if same {
        assert closed[i] in closed;
        return true;
      }
    }
    return false;
  }

  lemma OpenAppend(open: seq<SearchState>, s: SearchState)
    ensures OpenSets(open + [s]) == OpenSets(open) + {Members(s.combination)}
  {
    assert forall x :: x in open + [s] <==> x in open || x == s;
  }

  lemma ClosedAppend(closed: seq<Combination>, c: Combination)
    ensures SetsOf(closed + [c]) == SetsOf(closed) + {Members(c)}
  {
    assert forall x :: x in closed + [c] <==> x in closed || x == c;
  }

  lemma ExtensionFeasible(loads: seq<AutoLoad>, available: real, c: Combination, l: AutoLoad)
    requires Feasible(loads, available, c) && l in loads && l.isAuto && l !in c
    ensures Feasible(loads, available, c + [l]) <==> TotalsOf(c + [l]).power <= available
    ensures NoRepeats(c + [l]) && Members(c + [l]) != Members(c)
  {
    assert l in Members(c + [l]) && l !in Members(c);
  }

  /** What holds while current is being expanded. */
  ghost predicate Expanding(loads: seq<AutoLoad>, available: real, current: Combination,
                            open: seq<SearchState>, closed: seq<Combination>, best: SearchState) {
    && Feasible(loads, available, current) && GoodState(loads, available, best)
    && Worklist(loads, available, open, closed)
    && Members(current) !in OpenSets(open) && Members(current) !in SetsOf(closed)
    && NoneBetter(open, closed, best) && !Better(MeritOf(current), MeritOf(best.combination))
  }

  lemma BetterTransitive(a: Merit, b: Merit, c: Merit)
    ensures !Better(a, b) && Better(c, b) ==> !Better(a, c)
    ensures !Better(a, b) && !Better(b, c) ==> !Better(a, c)
    ensures !Better(a, b) && !Better(b, a) <==> a == b
  {
  }

  lemma PushKeepsExpanding(loads: seq<AutoLoad>, available: real, current: Combination,
                           open: seq<SearchState>, closed: seq<Combination>, best: SearchState,
                           child: SearchState, best': SearchState)
    requires Expanding(loads, available, current, open, closed, best)
    requires GoodState(loads, available, child) && Members(child.combination) != Members(current)
    requires Members(child.combination) !in OpenSets(open) + SetsOf(closed)
    requires best' == if Better(MeritOf(child.combination), MeritOf(best.combination)) then child else best
    ensures Expanding(loads, available, current, open + [child], closed, best')
    ensures OpenSets(open + [child]) == OpenSets(open) + {Members(child.combination)}
  {
    OpenAppend(open, child);
    forall a: Merit ensures !Better(a, MeritOf(best.combination)) ==> !Better(a, MeritOf(best'.combination)) {
      BetterTransitive(a, MeritOf(best.combination), MeritOf(best'.combination));
    }
    assert forall s <- open + [child] :: s in open || s == child;
  }

  /** One turn of the inner loop: a feasible child that is not known yet is queued. */
  method TryLoad(loads: seq<AutoLoad>, available: real, current: Combination, load: AutoLoad,
                 open: seq<SearchState>, closed: seq<Combination>, best: SearchState)
    returns (open': seq<SearchState>, best': SearchState)
    requires Expanding(loads, available, current, open, closed, best) && load in loads
    ensures Expanding(loads, available, current, open', closed, best')
    ensures OpenSets(open) <= OpenSets(open')
    ensures ExtendedBy(loads, available, current, load, OpenSets(open') + SetsOf(closed))
  {
    open', best' := open, best;
    if !load.isAuto || load in current {
      return;
    }
    var child := current + [load];
    ExtensionFeasible(loads, available, current, load);
    var power := CalculateTotalPowerWatts(child);
    if power > available {
      return;
    }
    var known := CombinationAlreadyKnown(child, open, closed);
    if known {
      return;
    }
    var childState := BuildState(child);
    if IsBetterReturned(childState, best) {
      best' := childState;
    }
    PushKeepsExpanding(loads, available, current, open, closed, best, childState, best');
    open' := open + [childState];
  }

  method Expand(loads: seq<AutoLoad>, available: real, current: Combination,
                open: seq<SearchState>, closed: seq<Combination>, best: SearchState)
    returns (open': seq<SearchState>, best': SearchState)
    requires Expanding(loads, available, current, open, closed, best)
    ensures Expanding(loads, available, current, open', closed, best')
    ensures OpenSets(open) <= OpenSets(open')
    ensures Extended(loads, available, current, loads, OpenSets(open') + SetsOf(closed))
  {
    open', best' := open, best;
    for i := 0 to |loads|
      invariant Expanding(loads, available, current, open', closed, best')
      invariant OpenSets(open) <= OpenSets(open')
      invariant Extended(loads, available, current, loads[..i], OpenSets(open') + SetsOf(closed))
    {
      ghost var known := OpenSets(open') + SetsOf(closed);
      open', best' := TryLoad(loads, available, current, loads[i], open', closed, best');
      ExtendedGrows(loads, available, current, i, known, OpenSets(open') + SetsOf(closed));
    }
    assert loads[..|loads|] == loads;
  }

  lemma ExtendedGrows(loads: seq<AutoLoad>, available: real, c: Combination, i: nat, known: set<set<AutoLoad>>,
                      known': set<set<AutoLoad>>)
    requires i < |loads| && known <= known'
    requires Extended(loads, available, c, loads[..i], known) && ExtendedBy(loads, available, c, loads[i], known')
    ensures Extended(loads, available, c, loads[..i + 1], known')
  {
    forall l | l in loads[..i + 1] ensures ExtendedBy(loads, available, c, l, known') {
      if l in loads[..i] { assert ExtendedBy(loads, available, c, l, known); } else { assert l == loads[i]; }
    }
  }

  // ---------------------------------------------------------------------------------------------------
  // The outer loop
  // ---------------------------------------------------------------------------------------------------

  /** Everything reachable is known: the empty combination, and all feasible extensions of expanded ones. */
  ghost predicate Closure(loads: seq<AutoLoad>, available: real, open: seq<SearchState>, closed: seq<Combination>) {
    && {} in OpenSets(open) + SetsOf(closed)
    && forall c <- closed :: Extended(loads, available, c, loads, OpenSets(open) + SetsOf(closed))
  }

  lemma SortKeeps(open: seq<SearchState>)
    ensures OpenSets(StableSort(open)) == OpenSets(open) && |StableSort(open)| == |open|
    ensures forall s :: s in StableSort(open) <==> s in open
  {
    StableSortKeeps(open);
    forall s ensures s in StableSort(open) <==> s in open {
      assert s in multiset(StableSort(open)) <==> s in multiset(open);
    }
  }

  /** Taking the front state off the worklist separates it from all others. */
  lemma PopFront(loads: seq<AutoLoad>, available: real, open: seq<SearchState>, closed: seq<Combination>)
    requires Worklist(loads, available, open, closed) && open != []
    ensures Worklist(loads, available, open[1..], closed)
    ensures Members(open[0].combination) !in OpenSets(open[1..]) + SetsOf(closed)
    ensures OpenSets(open) == OpenSets(open[1..]) + {Members(open[0].combination)}
  {
    var rest := open[1..];
    assert forall s :: s in open <==> s == open[0] || s in rest;
    assert OpenSets(open) == OpenSets(rest) + {Members(open[0].combination)};
    OpenSetsCount(rest);
  }

  lemma {:induction false} OpenSetsCount(open: seq<SearchState>)
    ensures |OpenSets(open)| <= |open|
  {
    if open != [] {
      OpenSetsCount(open[1..]);
      assert forall s :: s in open <==> s == open[0] || s in open[1..];
      assert OpenSets(open) == OpenSets(open[1..]) + {Members(open[0].combination)};
    }
  }

  ghost function Subsets(loads: seq<AutoLoad>): set<set<AutoLoad>> {
    set s | s <= Members(loads)
  }

  lemma ClosedCount(loads: seq<AutoLoad>, available: real, open: seq<SearchState>, closed: seq<Combination>)
    requires Worklist(loads, available, open, closed)
    ensures |closed| + |open| <= |Subsets(loads)|
  {
    var all := SetsOf(closed) + OpenSets(open);
    forall s <- all ensures s <= Members(loads) {}
    assert Subsets(loads) == all + (Subsets(loads) - all);
  }

  lemma ShorterIsFeasible(loads: seq<AutoLoad>, available: real, d: Combination)
    requires (forall l <- loads :: l.watts >= 0.0) && Feasible(loads, available, d) && d != []
    ensures Feasible(loads, available, d[..|d| - 1])
  {
    var init := d[..|d| - 1];
    assert d[|d| - 1] in d && forall l <- init :: l in d;
  }

  /** Extending either of two equal sets by the same load gives equal sets, feasible together. */
  lemma SameExtension(loads: seq<AutoLoad>, available: real, c: Combination, init: Combination, x: AutoLoad)
    requires Feasible(loads, available, c) && Feasible(loads, available, init + [x])
    requires Members(c) == Members(init) && NoRepeats(init)
    ensures x !in c && Feasible(loads, available, c + [x]) && Members(c + [x]) == Members(init + [x])
  {
    var d := init + [x];
    assert d[|d| - 1] == x && forall i | 0 <= i < |init| :: d[i] == init[i];
    assert x !in Members(init) && x in d;
    ExtensionFeasible(loads, available, c, x);
    assert Members(c + [x]) == Members(c) + {x} && Members(d) == Members(init) + {x};
    TotalsOfSet(c + [x], d);
  }

  /** At the end every feasible combination has been expanded: the family is closed under removing a load. */
  lemma {:induction false} AllFeasibleClosed(loads: seq<AutoLoad>, available: real, closed: seq<Combination>,
                                             d: Combination)
    requires forall l <- loads :: l.watts >= 0.0
    requires forall c <- closed :: Feasible(loads, available, c)
    requires Closure(loads, available, [], closed)
    requires Feasible(loads, available, d)
    ensures Members(d) in SetsOf(closed)
  {
    assert OpenSets([]) == {};
    if d == [] {
      assert Members(d) == {};
    } else {
      var init, x := d[..|d| - 1], d[|d| - 1];
      assert init + [x] == d;
      ShorterIsFeasible(loads, available, d);
      AllFeasibleClosed(loads, available, closed, init);
      var c :| c in closed && Members(c) == Members(init);
      SameExtension(loads, available, c, init, x);
      assert x in d && x in loads && x.isAuto;
      assert ExtendedBy(loads, available, c, x, OpenSets([]) + SetsOf(closed));
      assert Extended(loads, available, c, loads, OpenSets([]) + SetsOf(closed));
    }
  }

  /** The state of the worklist between two expansions. */
  ghost predicate Searching(loads: seq<AutoLoad>, available: real, open: seq<SearchState>, closed: seq<Combination>,
                            best: SearchState) {
    && Worklist(loads, available, open, closed) && GoodState(loads, available, best)
    && NoneBetter(open, closed, best)
    && Closure(loads, available, open, closed)
  }

  lemma SortKeepsSearching(loads: seq<AutoLoad>, available: real, open: seq<SearchState>, closed: seq<Combination>,
                           best: SearchState)
    requires Searching(loads, available, open, closed, best)
    ensures Searching(loads, available, StableSort(open), closed, best)
  {
    SortKeeps(open);
  }

  lemma StartExpanding(loads: seq<AutoLoad>, available: real, open: seq<SearchState>, closed: seq<Combination>,
                       best: SearchState)
    requires Searching(loads, available, open, closed, best) && open != []
    ensures Expanding(loads, available, open[0].combination, open[1..], closed, best)
    ensures OpenSets(open) == OpenSets(open[1..]) + {Members(open[0].combination)}
  {
    PopFront(loads, available, open, closed);
  }

  lemma FinishExpanding(loads: seq<AutoLoad>, available: real, before: set<set<AutoLoad>>, current: Combination,
                        open: seq<SearchState>, closed: seq<Combination>, best: SearchState)
    requires Expanding(loads, available, current, open, closed, best)
    requires before <= OpenSets(open) + SetsOf(closed) + {Members(current)}
    requires {} in before && forall c <- closed :: Extended(loads, available, c, loads, before)
    requires Extended(loads, available, current, loads, OpenSets(open) + SetsOf(closed))
    ensures Searching(loads, available, open, closed + [current], best)
  {
    ClosedAppend(closed, current);
    ClosedStaysExtended(loads, available, before, current, open, closed);
    assert forall c <- closed + [current] :: c in closed || c == current;
  }

  lemma ClosedStaysExtended(loads: seq<AutoLoad>, available: real, before: set<set<AutoLoad>>, current: Combination,
                            open: seq<SearchState>, closed: seq<Combination>)
    requires before <= OpenSets(open) + SetsOf(closed) + {Members(current)}
    requires {} in before && forall c <- closed :: Extended(loads, available, c, loads, before)
    requires Extended(loads, available, current, loads, OpenSets(open) + SetsOf(closed))
    ensures Closure(loads, available, open, closed + [current])
  {
    ClosedAppend(closed, current);
    var known := OpenSets(open) + SetsOf(closed + [current]);
    forall c <- closed + [current] ensures Extended(loads, available, c, loads, known) {
      if c in closed {
        ExtendedStays(loads, available, c, before, known);
      } else {
        ExtendedStays(loads, available, c, OpenSets(open) + SetsOf(closed), known);
      }
    }
  }

  lemma ExtendedStays(loads: seq<AutoLoad>, available: real, c: Combination, known: set<set<AutoLoad>>,
                      known': set<set<AutoLoad>>)
    requires Extended(loads, available, c, loads, known) && known <= known'
    ensures Extended(loads, available, c, loads, known')
  {
    forall l <- loads ensures ExtendedBy(loads, available, c, l, known') {
      assert ExtendedBy(loads, available, c, l, known);
    }
  }

  /** One turn of the outer loop: the best open state is expanded and closed. */
  method ExpandBest(loads: seq<AutoLoad>, available: real, open: seq<SearchState>, closed: seq<Combination>,
                    best: SearchState)
    returns (open': seq<SearchState>, closed': seq<Combination>, best': SearchState)
    requires Searching(loads, available, open, closed, best) && open != []
    ensures Searching(loads, available, open', closed', best')
    ensures closed' == closed + [StableSort(open)[0].combination]
  {
    SortKeepsSearching(loads, available, open, closed, best);
    SortKeeps(open);
    open', closed', best' := ExpandFirst(loads, available, StableSort(open), closed, best);
  }

  /** The search asks again whether the state it expands is better than the best so far. It never is. */
  method ExpandFirst(loads: seq<AutoLoad>, available: real, sorted: seq<SearchState>, closed: seq<Combination>,
                     best: SearchState)
    returns (open': seq<SearchState>, closed': seq<Combination>, best': SearchState)
    requires Searching(loads, available, sorted, closed, best) && sorted != []
    ensures Searching(loads, available, open', closed', best')
    ensures closed' == closed + [sorted[0].combination]
    ensures !IsBetterReturned(sorted[0], best)
  {
    var current := sorted[0];
    best' := best;
    if IsBetterReturned(current, best) {
      best' := current;
    }
    assert best' == best;
    StartExpanding(loads, available, sorted, closed, best);
    open', best' := Expand(loads, available, current.combination, sorted[1..], closed, best');
    closed' := closed + [current.combination];
    FinishExpanding(loads, available, OpenSets(sorted) + SetsOf(closed), current.combination, open', closed, best');
  }

  lemma SearchIsOptimal(loads: seq<AutoLoad>, available: real, closed: seq<Combination>, best: SearchState)
    requires forall l <- loads :: l.watts >= 0.0
    requires Searching(loads, available, [], closed, best)
    ensures Optimal(loads, available, best.combination)
    ensures forall d | Feasible(loads, available, d) :: Members(d) in SetsOf(closed)
  {
    forall d | Feasible(loads, available, d)
      ensures Members(d) in SetsOf(closed) && !Better(MeritOf(d), MeritOf(best.combination))
    {
      AllFeasibleClosed(loads, available, closed, d);
      var c :| c in closed && Members(c) == Members(d);
      TotalsOfSet(c, d);
    }
  }

  lemma StartSearching(loads: seq<AutoLoad>, available: real, start: SearchState)
    requires available >= 0.0 && start == StateOf([])
    ensures Searching(loads, available, [start], [], start)
  {
    assert Members([]) == {};
    assert OpenSets([start]) == {{}} by { assert start in [start]; }
  }

  /**
   * The worklist search refines brute force over the power set: it ends with an optimal combination, having expanded
   * every feasible set exactly once.
   */
  method Explore(loads: seq<AutoLoad>, available: real) returns (best: Combination, closed: seq<Combination>)
    requires available >= 0.0 && forall l <- loads :: l.watts >= 0.0
    ensures Optimal(loads, available, best)
    ensures |SetsOf(closed)| == |closed|
    ensures forall c <- closed :: Feasible(loads, available, c)
    ensures forall d | Feasible(loads, available, d) :: Members(d) in SetsOf(closed)
  {
    var start := BuildState([]);
    StartSearching(loads, available, start);
    var open, bestState := [start], start;
    closed := [];
    while open != []
      invariant Searching(loads, available, open, closed, bestState)
      decreases |Subsets(loads)| - |closed|
    {
      ClosedCount(loads, available, open, closed);
      open, closed, bestState := ExpandBest(loads, available, open, closed, bestState);
      ClosedCount(loads, available, open, closed);
    }
    SearchIsOptimal(loads, available, closed, bestState);
    best := bestState.combination;
  }

  /** The search runs when the object is built; a negative cap selects nothing. */
  class Search {
    const availablePowerWatts: real
    const automaticLoads: seq<AutoLoad>
    var bestCombination: Combination

    constructor (available: real, loads: seq<AutoLoad>)
      requires forall l <- loads :: l.watts >= 0.0
      ensures available < 0.0 ==> bestCombination == []
      ensures available >= 0.0 ==> Optimal(loads, available, bestCombination)
    {
      availablePowerWatts, automaticLoads := available, loads;
      bestCombination := [];
      new;
      if available < 0.0 {
        return;
      }
      var best, closed := Explore(loads, available);
      bestCombination := best;
    }
  }

  // ---------------------------------------------------------------------------------------------------
  // What optimality gives the planner
  // ---------------------------------------------------------------------------------------------------

  /** Neither the expansion order nor the order of the list shows in the merit of the result. */
  lemma MeritIsUnique(loads: seq<AutoLoad>, loads': seq<AutoLoad>, available: real, a: Combination, b: Combination)
    requires multiset(loads) == multiset(loads')
    requires Optimal(loads, available, a) && Optimal(loads', available, b)
    ensures MeritOf(a) == MeritOf(b)
  {
    forall l ensures l in loads <==> l in loads' {
      assert l in multiset(loads) <==> l in multiset(loads');
    }
    assert Feasible(loads', available, a) && Feasible(loads, available, b);
    BetterTransitive(MeritOf(a), MeritOf(b), MeritOf(a));
  }

  /** More power, or more loads to choose from, never makes the result worse. */
  lemma MorePowerNeverWorse(loads: seq<AutoLoad>, loads': seq<AutoLoad>, available: real, available': real,
                            a: Combination, b: Combination)
    requires available <= available' && forall l <- loads :: l in loads'
    requires Optimal(loads, available, a) && Optimal(loads', available', b)
    ensures !Better(MeritOf(a), MeritOf(b))
  {
    assert Feasible(loads', available', a);
  }

  lemma TotalsAppend(c: Combination, l: AutoLoad)
    ensures TotalsOf(c + [l]) ==
            Totals(TotalsOf(c).power + l.watts, TotalsOf(c).configured + l.priority,
                   TotalsOf(c).effective + EffectivePriority(l))
  {
    assert (c + [l])[..|c|] == c;
  }

  /**
   * A load left out really does not fit beside the selected ones; in particular every load without demand is selected.
   */
  lemma LeftOutDoesNotFit(loads: seq<AutoLoad>, available: real, best: Combination, l: AutoLoad)
    requires Optimal(loads, available, best) && l in loads && l.isAuto && l !in best
    ensures TotalsOf(best).power + l.watts > available
    ensures l.watts > 0.0
  {
    TotalsAppend(best, l);
    ExtensionFeasible(loads, available, best, l);
    assert Better(MeritOf(best + [l]), MeritOf(best));
  }

  /** What a load counts for: its priority, and 5 more while its schedule is active. */
  function Worth(l: AutoLoad): nat { if l.scheduleActive then l.priority + 5 else l.priority }

  lemma SwappedTotals(c: Combination, k: nat, m: AutoLoad)
    requires k < |c|
    ensures var t, out := TotalsOf(c), TotalsOf(c[..k] + c[k + 1..] + [m]);
            && out.power == t.power - c[k].watts + m.watts
            && out.configured as int == t.configured - c[k].priority + m.priority
            && out.effective as int == t.effective - Worth(c[k]) + Worth(m)
  {
    TotalsWithout(c, k);
    TotalsAppend(c[..k] + c[k + 1..], m);
  }

  lemma SwapRepeatsNone(c: Combination, k: nat, m: AutoLoad)
    requires NoRepeats(c) && k < |c| && m !in c
    ensures NoRepeats(c[..k] + c[k + 1..] + [m])
    ensures forall l <- c[..k] + c[k + 1..] + [m] :: l in c || l == m
  {
    var out := c[..k] + c[k + 1..] + [m];
    forall i | 0 <= i < |c| - 1 ensures out[i] == c[if i < k then i else i + 1] {}
  }

  /**
   * The exchange law: a load left out that would fit in place of a selected one counts for less; or for as much with a
   * lower priority; or for as much, with the same priority, and draws no less.
   */
  lemma NoBetterSwap(loads: seq<AutoLoad>, available: real, best: Combination, k: nat, m: AutoLoad)
    requires Optimal(loads, available, best) && k < |best|
    requires m in loads && m.isAuto && m !in best && TotalsOf(best).power - best[k].watts + m.watts <= available
    ensures var x := best[k];
            || Worth(m) < Worth(x)
            || (Worth(m) == Worth(x) && m.priority < x.priority)
            || (Worth(m) == Worth(x) && m.priority == x.priority && x.watts <= m.watts)
  {
    var swapped := best[..k] + best[k + 1..] + [m];
    SwappedTotals(best, k, m);
    SwapRepeatsNone(best, k, m);
    assert Feasible(loads, available, swapped);
    assert |swapped| == |best| && !Better(MeritOf(swapped), MeritOf(best));
  }

  /** A state that promises no more than another: by worth, then priorities, then cost, then size, then power. */
  predicate PromisesNoMore(t: SearchState, s: SearchState) {
    && t.effective <= s.effective
    && (t.effective == s.effective ==>
          && t.configured <= s.configured
          && (t.configured == s.configured ==>
                && s.f <= t.f
                && (t.f == s.f ==>
                      && |t.combination| <= |s.combination|
                      && (|t.combination| == |s.combination| ==> s.power <= t.power))))
  }

  /** The search expands best first: no open state promises more than the one at the front. */
  lemma FrontPromisesMost(s: seq<SearchState>, t: SearchState)
    requires t in s
    ensures |StableSort(s)| > 0 && PromisesNoMore(t, StableSort(s)[0])
  {
    var k := StableSortPicksFirstBest(s);
    var i :| 0 <= i < |s| && s[i] == t;
    assert !HasBetterSearchMerit(s[i], s[k]);
  }

  /** The cost of a combination is its size and the mean power of its loads. */
  lemma CostIsSizeAndMean(c: Combination)
    ensures c == [] ==> CostF(c) == 0.0
    ensures (CostF(c) - (|c| as real)) * (|c| as real) == TotalsOf(c).power
  {
    if c != [] { MeanTimesSize(TotalsOf(c).power, |c| as real); }
  }

  lemma MeanTimesSize(power: real, size: real)
    requires size > 0.0
    ensures (power / size) * size == power
  {
  }
}
