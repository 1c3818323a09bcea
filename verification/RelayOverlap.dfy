/** Orders that overlap and commands left behind: exactly when they break an order's power bound, and how not to. */
module RelayOverlap {
  import opened Common
  import opened Loads
  import opened RelayDispatch
  import opened RelayExchange

  // ---------------------------------------------------------------------------------------------------
  // Exactly when the bound of an order that is alone holds of an order on the radio
  // ---------------------------------------------------------------------------------------------------

  ghost predicate Moves(x: Radio, e: RadioEvent, id: LoadId) {
    Enabled(x, e) && SwitchOf(x, e).Some? && SwitchOf(x, e).value.0 == id
  }

  /** Since order d was handed over, event j was the last to switch this relay, and it is not one of d's commands. */
  ghost predicate LastElsewhere(trace: seq<Radio>, events: seq<RadioEvent>, n: nat, d: nat, j: int, id: LoadId,
                                on: bool)
    requires |trace| == |events| + 1 && n <= |events|
  {
    && 0 <= j < n && d < |trace[j].activities| && !OwnStep(events[j], d)
    && Enabled(trace[j], events[j]) && SwitchOf(trace[j], events[j]) == Some((id, on))
    && forall m | j < m < n :: !Moves(trace[m], events[m], id)
  }

  lemma OwnStepOthers(x: Radio, e: RadioEvent, d: nat)
    requires Enabled(x, e) && OwnStep(e, d) && d < |x.activities|
    ensures d < |After(x, e).activities|
    ensures var s, v := SwitchOf(x, e), View(x, d);
            View(After(x, e), d).others == if s.None? then v.others else v.others - {s.value.0}
  {
  }

  lemma OthersAfter(x: Radio, e: RadioEvent, d: nat, id: LoadId, on: bool)
    requires Enabled(x, e) && d < |x.activities|
    ensures d < |After(x, e).activities|
    ensures HeldBy(View(After(x, e), d), id, on) <==>
            if Moves(x, e, id) then !OwnStep(e, d) && SwitchOf(x, e).value.1 == on else HeldBy(View(x, d), id, on)
  {
    if OwnStep(e, d) { OwnStepOthers(x, e, d); } else { OtherStepIsSwitch(x, e, d); }
  }

  /** The relays held from elsewhere are those that an event of something else was the last to switch. */
  lemma {:induction false} HeldExactly(trace: seq<Radio>, events: seq<RadioEvent>, n: nat, d: nat, id: LoadId, on: bool)
    requires History(trace, events) && n <= |events| && d < |trace[n].activities|
    ensures HeldBy(View(trace[n], d), id, on) <==> exists j :: LastElsewhere(trace, events, n, d, j, id, on)
  {
    assert n > 0 && RadioStep(trace, events, n - 1);
    var m := n - 1;
    if d < |trace[m].activities| {
      HeldExactly(trace, events, m, d, id, on);
      OthersAfter(trace[m], events[m], d, id, on);
      if Moves(trace[m], events[m], id) {
        if !OwnStep(events[m], d) && SwitchOf(trace[m], events[m]).value.1 == on {
          assert LastElsewhere(trace, events, n, d, m, id, on);
        }
      } else {
        if j :| LastElsewhere(trace, events, m, d, j, id, on) { assert LastElsewhere(trace, events, n, d, j, id, on); }
        if j :| LastElsewhere(trace, events, n, d, j, id, on) { assert LastElsewhere(trace, events, m, d, j, id, on); }
      }
    } else {
      HandedOver(trace[m], events[m], d);
      forall j ensures !LastElsewhere(trace, events, n, d, j, id, on) {
        if 0 <= j < n { OrdersGrow(trace, events, j, m); }
      }
    }
  }

  lemma {:induction false} OrdersGrow(trace: seq<Radio>, events: seq<RadioEvent>, i: nat, j: nat)
    requires History(trace, events) && i <= j <= |events|
    ensures |trace[i].activities| <= |trace[j].activities|
  {
    if i < j {
      OrdersGrow(trace, events, i, j - 1);
      assert RadioStep(trace, events, j - 1);
      if |trace[j - 1].activities| > 0 { OrdersStay(trace[j - 1], events[j - 1], 0); }
    }
  }

  /**
   * An order on the radio keeps the bound it would have alone, for every rating, exactly when, on no target that must
   * not conduct at this stage, the last event to switch it was an ON from elsewhere since the order was handed over.
   */
  lemma AloneBoundHoldsExactly(targets: seq<RelayTarget>, trace: seq<Radio>, events: seq<RadioEvent>, n: nat, d: nat)
    requires DistinctTargets(DispatchOrder(targets))
    requires History(trace, events) && n <= |events| && trace[n].top <= COMMAND_IDS
    requires d < |trace[n].activities| && trace[n].activities[d].order == DispatchOrder(targets)
    ensures var start, s := trace[n].activities[d].start, View(trace[n], d);
            (forall rating | NonNegative(rating) :: PowerBounded(targets, rating, start, s)) <==>
            forall k, j | 0 <= k < |DispatchOrder(targets)| &&
                          LastElsewhere(trace, events, n, d, j, DispatchOrder(targets)[k].id, true) ::
              Allowed(targets, start, s, k)
  {
    var order, start, s := DispatchOrder(targets), trace[n].activities[d].start, View(trace[n], d);
    var dispatch, steps := ExchangeIsDispatch(trace, events, n, d);
    CarriedIsConsistent(order, start, dispatch, steps, |steps|);
    HeldOnlyWhereAllowed(targets, start, s);
    forall k | 0 <= k < |order|
      ensures (exists j :: LastElsewhere(trace, events, n, d, j, order[k].id, true)) <==> HeldBy(s, order[k].id, true)
    {
      HeldExactly(trace, events, n, d, order[k].id, true);
    }
  }

  // ---------------------------------------------------------------------------------------------------
  // What Central can check beforehand
  // ---------------------------------------------------------------------------------------------------

  predicate Finished(a: Activity) { |a.reported| == |a.ids| == |a.order| }

  /**
   * The order handed over at event c has the relays to itself: no other is under way or handed over, nothing is
   * configured.
   */
  ghost predicate Alone(trace: seq<Radio>, events: seq<RadioEvent>, c: nat, n: nat)
    requires |trace| == |events| + 1 && c < n <= |events|
  {
    && events[c].Hand? && (forall a <- trace[c].activities :: Finished(a))
    && forall j | c < j < n :: !events[j].Hand? && !(events[j].Elsewhere? && events[j].state)
  }

  /** No ON command was given up: each one sent was reported as a success. */
  ghost predicate NoOnAbandoned(x: Radio) {
    forall p | p in x.sent && Known(x, p) && TargetOf(x, p).desiredOn ::
      p.k < |x.activities[p.d].reported| && x.activities[p.d].reported[p.k]
  }

  /** The radio brings no command to its Node twice. */
  ghost predicate NoCommandTwice(events: seq<RadioEvent>) {
    forall i, j | 0 <= i < j < |events| && events[i].Switch? && events[j].Switch? ::
      (events[i].d, events[i].k) != (events[j].d, events[j].k)
  }

  /** A command sent over the radio has acted only if it has reached its Node. */
  lemma {:induction false} ActedHasArrived(trace: seq<Radio>, events: seq<RadioEvent>, n: nat, p: Place)
    returns (j: nat)
    requires History(trace, events) && n <= |events| && trace[n].top <= COMMAND_IDS
    requires p in trace[n].sent && Known(trace[n], p) && p.k in trace[n].activities[p.d].acted
    ensures j < n && events[j] == RadioEvent.Switch(p.d, p.k, true)
  {
    assert n > 0 && RadioStep(trace, events, n - 1);
    TopGrows(trace, events, n - 1, n);
    HistoryKeepsInv(trace, events, n - 1);
    if events[n - 1] == RadioEvent.Switch(p.d, p.k, true) {
      j := n - 1;
    } else {
      ActsByArriving(trace[n - 1], events[n - 1], p);
      j := ActedHasArrived(trace, events, n - 1, p);
    }
  }

  lemma ActsByArriving(x: Radio, e: RadioEvent, p: Place)
    requires Inv(x) && Enabled(x, e) && e != RadioEvent.Switch(p.d, p.k, true)
    requires p in After(x, e).sent && Known(After(x, e), p) && p.k in After(x, e).activities[p.d].acted
    ensures p in x.sent && Known(x, p) && p.k in x.activities[p.d].acted
  {
    assert forall d | 0 <= d < |x.activities| :: Sound(x, d);
    if e.Send? { assert Sound(x, e.d); }
  }

  /** What orders before this one have sent, and done, since it was handed over: nothing new. */
  ghost predicate Settled(x: Radio, y: Radio) {
    && |x.activities| <= |y.activities|
    && (forall d | 0 <= d < |x.activities| ::
          Finished(y.activities[d]) && y.activities[d].order == x.activities[d].order &&
          y.activities[d].reported == x.activities[d].reported)
    && (forall p | p in y.sent && p.d < |x.activities| :: p in x.sent)
  }

  lemma SettledStays(x: Radio, y: Radio, e: RadioEvent)
    requires Settled(x, y) && Enabled(y, e)
    ensures Settled(x, After(y, e))
  {
    forall d | 0 <= d < |x.activities| ensures After(y, e).activities[d].reported == y.activities[d].reported {
      OrdersStay(y, e, d);
    }
  }

  lemma {:induction false} EarlierOrdersSettled(trace: seq<Radio>, events: seq<RadioEvent>, c: nat, n: nat)
    requires History(trace, events) && c < n <= |events| && Alone(trace, events, c, n)
    ensures Settled(trace[c], trace[n]) && |trace[n].activities| == |trace[c].activities| + 1
  {
    assert RadioStep(trace, events, n - 1);
    if c + 1 < n {
      EarlierOrdersSettled(trace, events, c, n - 1);
      OrdersStay(trace[n - 1], events[n - 1], 0);
    }
    SettledStays(trace[c], trace[n - 1], events[n - 1]);
  }

  /** Then nothing else switches a relay on while the order is carried out. */
  lemma NoForeignOn(trace: seq<Radio>, events: seq<RadioEvent>, c: nat, n: nat)
    requires History(trace, events) && c + 1 < n <= |events| && trace[n].top <= COMMAND_IDS
    requires Alone(trace, events, c, n) && NoOnAbandoned(trace[c]) && NoCommandTwice(events)
    ensures var x, e := trace[n - 1], events[n - 1];
            Enabled(x, e) && !OwnStep(e, |trace[c].activities|) && SwitchOf(x, e).Some? ==> !SwitchOf(x, e).value.1
  {
    var x, e, d := trace[n - 1], events[n - 1], |trace[c].activities|;
    assert RadioStep(trace, events, n - 1);
    EarlierOrdersSettled(trace, events, c, n - 1);
    TopGrows(trace, events, c, n);
    HistoryKeepsInv(trace, events, c);
    if e.Switch? && e.d != d && e.written && TargetOf(x, Place(e.d, e.k)).desiredOn {
      OldOnHasArrived(trace, events, c, Place(e.d, e.k), n - 1);
    }
  }

  lemma OldOnHasArrived(trace: seq<Radio>, events: seq<RadioEvent>, c: nat, p: Place, m: nat)
    requires History(trace, events) && c < m < |events| && trace[c].top <= COMMAND_IDS
    requires NoOnAbandoned(trace[c]) && Inv(trace[c])
    requires p in trace[c].sent && TargetOf(trace[c], p).desiredOn
    requires events[m].Switch? && events[m].d == p.d && events[m].k == p.k
    ensures !NoCommandTwice(events)
  {
    assert Sound(trace[c], p.d);
    var j := ActedHasArrived(trace, events, c, p);
    assert events[j].Switch? && (events[j].d, events[j].k) == (events[m].d, events[m].k);
  }

  lemma {:induction false} NothingHeldOn(trace: seq<Radio>, events: seq<RadioEvent>, c: nat, n: nat, id: LoadId)
    requires History(trace, events) && c < n <= |events| && trace[n].top <= COMMAND_IDS
    requires Alone(trace, events, c, n) && NoOnAbandoned(trace[c]) && NoCommandTwice(events)
    ensures |trace[n].activities| == |trace[c].activities| + 1
    ensures !HeldBy(View(trace[n], |trace[c].activities|), id, true)
  {
    var d := |trace[c].activities|;
    EarlierOrdersSettled(trace, events, c, n);
    assert RadioStep(trace, events, n - 1);
    if c + 1 < n {
      TopGrows(trace, events, n - 1, n);
      NothingHeldOn(trace, events, c, n - 1, id);
      NoForeignOn(trace, events, c, n);
      OthersAfter(trace[n - 1], events[n - 1], d, id, true);
    } else {
      HandedOver(trace[c], events[c], d);
    }
  }

  /**
   * If no order is under way when this one is handed over, no ON command has been given up, until it is done none is
   * handed over and no relay switched on by a configuration, and the radio repeats no command, then the order keeps
   * the bound it has alone.
   */
  lemma CarefulDispatchIsPowerSafe(targets: seq<RelayTarget>, trace: seq<Radio>, events: seq<RadioEvent>, c: nat,
                                   n: nat,
                                   rating: Rating)
    requires NonNegative(rating) && DistinctTargets(DispatchOrder(targets))
    requires History(trace, events) && c < n <= |events| && trace[n].top <= COMMAND_IDS
    requires events[c] == Hand(DispatchOrder(targets))
    requires Alone(trace, events, c, n) && NoOnAbandoned(trace[c]) && NoCommandTwice(events)
    ensures var d := |trace[c].activities|;
            && d < |trace[n].activities| && trace[n].activities[d].order == DispatchOrder(targets)
            && PowerBounded(targets, rating, trace[n].activities[d].start, View(trace[n], d))
  {
    var d := |trace[c].activities|;
    EarlierOrdersSettled(trace, events, c, n);
    HandedOrderStays(trace, events, c, n);
    var dispatch, steps := ExchangeIsDispatch(trace, events, n, d);
    var start, s := trace[n].activities[d].start, View(trace[n], d);
    CarriedIsConsistent(DispatchOrder(targets), start, dispatch, steps, |steps|);
    forall k | 0 <= k < |DispatchOrder(targets)| ensures !HeldBy(s, DispatchOrder(targets)[k].id, true) {
      NothingHeldOn(trace, events, c, n, DispatchOrder(targets)[k].id);
    }
    HeldOnlyWhereAllowed(targets, start, s);
  }

  lemma {:induction false} HandedOrderStays(trace: seq<Radio>, events: seq<RadioEvent>, c: nat, n: nat)
    requires History(trace, events) && c < n <= |events| && events[c].Hand?
    ensures |trace[c].activities| < |trace[n].activities|
    ensures trace[n].activities[|trace[c].activities|].order == events[c].order
  {
    assert RadioStep(trace, events, n - 1);
    if c + 1 < n {
      HandedOrderStays(trace, events, c, n - 1);
      OrdersStay(trace[n - 1], events[n - 1], |trace[c].activities|);
    }
  }

  // ---------------------------------------------------------------------------------------------------
  // Histories that break the bound although every command is reported as a success
  // ---------------------------------------------------------------------------------------------------

  lemma Extend(trace: seq<Radio>, events: seq<RadioEvent>, e: RadioEvent)
    returns (trace': seq<Radio>, events': seq<RadioEvent>)
    requires History(trace, events) && Enabled(trace[|events|], e)
    ensures events' == events + [e] && trace' == trace + [After(trace[|events|], e)] && History(trace', events')
  {
    trace', events' := trace + [After(trace[|events|], e)], events + [e];
    forall i | 0 <= i < |events'| ensures RadioStep(trace', events', i) {
      if i < |events| { assert RadioStep(trace, events, i); }
    }
  }

  function AllRated(watts: real): Rating { id => watts }

  /** Two cycles at once, on Central's own relays: one order switches b off and a on, the other a off and b on. */
  function Overlap(a: LoadId, b: LoadId): seq<RadioEvent> {
    [Hand([RelayTarget(b, false), RelayTarget(a, true)]), WriteLocal(0, true),
     Hand([RelayTarget(a, false), RelayTarget(b, true)]), WriteLocal(1, true), WriteLocal(0, true), WriteLocal(1, true)]
  }

  lemma FirstSwitchedOff(local: MacAddress, a: LoadId, b: LoadId) returns (trace: seq<Radio>, events: seq<RadioEvent>)
    requires a.mac == b.mac == local && a != b
    ensures History(trace, events) && events == Overlap(a, b)[..2]
    ensures var first := [RelayTarget(b, false), RelayTarget(a, true)];
            trace[|events|] ==
            Radio(local, {}, [Activity(first, {b}, [0], [true], {0}, map[])], NO_COMMANDS, {}, {}, 1)
  {
    var first := [RelayTarget(b, false), RelayTarget(a, true)];
    trace, events := [Radio(local, {b}, [], NO_COMMANDS, {}, {}, 1)], [];
    trace, events := Extend(trace, events, Hand(first));
    assert trace[|events|].activities == [Activity(first, {b}, [], [], {}, map[])];
    trace, events := Extend(trace, events, WriteLocal(0, true));
    var x := trace[|events|];
    assert x.on == {} && x.activities[0].acted == {0} && x.activities[0].others == map[];
    assert x.activities[0].ids == [0] && x.activities[0].reported == [true];
    assert x.activities == [Activity(first, {b}, [0], [true], {0}, map[])];
  }

  lemma FirstHalfOfOverlap(local: MacAddress, a: LoadId, b: LoadId)
    returns (trace: seq<Radio>, events: seq<RadioEvent>)
    requires a.mac == b.mac == local && a != b
    ensures History(trace, events) && events == Overlap(a, b)[..4]
    ensures var first, second := [RelayTarget(b, false), RelayTarget(a, true)],
                                 [RelayTarget(a, false), RelayTarget(b, true)];
            trace[|events|] ==
            Radio(local, {}, [Activity(first, {b}, [0], [true], {0}, map[a := false]),
                              Activity(second, {}, [0], [true], {0}, map[])], NO_COMMANDS, {}, {}, 1)
  {
    var first, second := [RelayTarget(b, false), RelayTarget(a, true)], [RelayTarget(a, false), RelayTarget(b, true)];
    trace, events := FirstSwitchedOff(local, a, b);
    var x := trace[|events|];
    trace, events := Extend(trace, events, Hand(second));
    assert trace[|events|].activities == [x.activities[0], Activity(second, {}, [], [], {}, map[])];
    trace, events := Extend(trace, events, WriteLocal(1, true));
    x := trace[|events|];
    assert x.on == {} && x.activities[0].others == map[a := false];
    assert x.activities[1].acted == {0} && x.activities[1].others == map[];
    assert x.activities[1].ids == [0] && x.activities[1].reported == [true];
    assert x.activities == [Activity(first, {b}, [0], [true], {0}, map[a := false]),
                            Activity(second, {}, [0], [true], {0}, map[])];
  }

  lemma OverlapEnds(local: MacAddress, a: LoadId, b: LoadId) returns (trace: seq<Radio>, events: seq<RadioEvent>)
    requires a.mac == b.mac == local && a != b
    ensures History(trace, events) && events == Overlap(a, b)
    ensures var x := trace[|events|];
            && x.on == {b, a} && |x.activities| == 2
            && x.activities[0].order == [RelayTarget(b, false), RelayTarget(a, true)]
            && x.activities[1].order == [RelayTarget(a, false), RelayTarget(b, true)]
            && forall d | 0 <= d < 2 :: x.activities[d].reported == [true, true] && |x.activities[d].ids| == 2
  {
    trace, events := FirstHalfOfOverlap(local, a, b);
    trace, events := Extend(trace, events, WriteLocal(0, true));
    var x := trace[|events|];
    assert x.on == {a} && x.activities[0].reported == [true, true] && x.activities[1].reported == [true];
    trace, events := Extend(trace, events, WriteLocal(1, true));
    x := trace[|events|];
    assert x.on == {b, a} && x.activities[0].reported == [true, true] && x.activities[1].reported == [true, true];
  }

  /** Both then conduct, both orders report every command as a success, and each draws twice what it planned. */
  lemma OverlappingOrdersExceed(local: MacAddress, a: LoadId, b: LoadId)
    returns (trace: seq<Radio>, events: seq<RadioEvent>)
    requires a.mac == b.mac == local && a != b
    ensures History(trace, events) && events == Overlap(a, b)
    ensures var x, first, second := trace[|events|], [RelayTarget(b, false), RelayTarget(a, true)],
                                    [RelayTarget(a, false), RelayTarget(b, true)];
            && x.on == {b, a} && |x.activities| == 2
            && x.activities[0].order == first == DispatchOrder(first) && x.activities[0].reported == [true, true]
            && x.activities[1].order == second == DispatchOrder(second) && x.activities[1].reported == [true, true]
            && OnPower(first, AllRated(600.0), x.on) == 1200.0 && TargetPower(first, AllRated(600.0)) == 600.0
            && !PowerBounded(first, AllRated(600.0), x.activities[0].start, View(x, 0))
            && !PowerBounded(second, AllRated(600.0), x.activities[1].start, View(x, 1))
  {
    trace, events := OverlapEnds(local, a, b);
    var x := trace[|events|];
    assert {a, b} == {b, a};
    TwoTargets(b, a);
    TwoTargets(a, b);
    BothOnExceeds(b, a, x.activities[0].start, View(x, 0));
    BothOnExceeds(a, b, x.activities[1].start, View(x, 1));
  }

  lemma BothOnExceeds(off: LoadId, on: LoadId, start: set<LoadId>, s: Dispatching)
    requires off != on && s.on == {off, on} && s.issued == 2 && s.reported == [true, true]
    ensures !PowerBounded([RelayTarget(off, false), RelayTarget(on, true)], AllRated(600.0), start, s)
  {
    TwoTargets(off, on);
  }

  /** The books of an order with one target. */
  lemma OneTarget(t: RelayTarget, on: set<LoadId>)
    ensures forall phase :: PhaseOf([t], phase) == if t.desiredOn == phase then [t] else []
    ensures OnPower([t], AllRated(600.0), on) == if t.id in on then 600.0 else 0.0
    ensures TargetPower([t], AllRated(600.0)) == if t.desiredOn then 600.0 else 0.0
    ensures forall start :: FailedOffPower([t], AllRated(600.0), start, [true, true]) == 0.0
  {
    assert [t][..|[t]| - 1] == [] && [t][|[t]| - 1] == t;
    assert forall phase :: PhaseOf([], phase) == [];
  }

  /** The books of an order that switches one relay off and one on. */
  lemma TwoTargets(off: LoadId, on: LoadId)
    requires off != on
    ensures var order := [RelayTarget(off, false), RelayTarget(on, true)];
            && DispatchOrder(order) == order && |PhaseOf(order, false)| == 1
            && OnPower(order, AllRated(600.0), {off, on}) == 1200.0 && TargetPower(order, AllRated(600.0)) == 600.0
            && forall start :: FailedOffPower(order, AllRated(600.0), start, [true, true]) == 0.0
  {
    var t, u := RelayTarget(off, false), RelayTarget(on, true);
    var order := [t, u];
    assert order[..|order| - 1] == [t] && order[|order| - 1] == u;
    OneTarget(t, {off, on});
    assert PhaseOf(order, false) == PhaseOf([t], false) && PhaseOf(order, true) == PhaseOf([t], true) + [u];
  }

  /** A command that was given up. */
  lemma GivenUp(local: MacAddress, t: RelayTarget) returns (trace: seq<Radio>, events: seq<RadioEvent>)
    requires t.id.mac != local
    ensures History(trace, events) && events == [Hand([t]), Send(0), GiveUp(0)]
    ensures trace[|events|] ==
            Radio(local, {}, [Activity([t], {}, [1], [false], {}, map[])], Commands([], 2, 1, false), {Place(0, 0)}, {},
                  2)
  {
    trace, events := [Radio(local, {}, [], NO_COMMANDS, {}, {}, 1)], [];
    trace, events := Extend(trace, events, Hand([t]));
    assert trace[|events|].activities == [Activity([t], {}, [], [], {}, map[])];
    trace, events := Extend(trace, events, Send(0));
    assert trace[|events|].commands == Commands([PendingCommand(1, t)], 2, 0, false);
    assert trace[|events|].activities[0].ids == [1];
    assert trace[|events|].activities == [Activity([t], {}, [1], [], {}, map[])];
    trace, events := Extend(trace, events, GiveUp(0));
    assert trace[|events|].commands == Commands([], 2, 1, false);
    assert trace[|events|].activities[0].reported == [false];
    assert trace[|events|].activities == [Activity([t], {}, [1], [false], {}, map[])];
  }

  /** The order to switch a on, given up, and the next order, to switch it off. */
  lemma AbandonedOn(local: MacAddress, a: LoadId) returns (trace: seq<Radio>, events: seq<RadioEvent>)
    requires a.mac != local
    ensures History(trace, events)
    ensures events == [Hand([RelayTarget(a, true)]), Send(0), GiveUp(0), Hand([RelayTarget(a, false)]), Send(1)]
    ensures trace[|events|] ==
            Radio(local, {},
                  [Activity([RelayTarget(a, true)], {}, [1], [false], {}, map[]),
                   Activity([RelayTarget(a, false)], {}, [2], [], {}, map[])],
                  Commands([PendingCommand(2, RelayTarget(a, false))], 3, 1, false),
                  {Place(0, 0), Place(1, 0)}, {}, 3)
  {
    var t, u := RelayTarget(a, true), RelayTarget(a, false);
    trace, events := GivenUp(local, t);
    trace, events := Extend(trace, events, Hand([u]));
    assert trace[|events|].activities ==
           [Activity([t], {}, [1], [false], {}, map[]), Activity([u], {}, [], [], {}, map[])];
    trace, events := Extend(trace, events, Send(1));
    assert trace[|events|].commands.pending == [PendingCommand(2, u)] && trace[|events|].activities[1].ids == [2];
    assert trace[|events|].activities ==
           [Activity([t], {}, [1], [false], {}, map[]), Activity([u], {}, [2], [], {}, map[])];
  }

  /** The second order's only command is reported as a success; then the first one's acts, and the relay conducts. */
  lemma AbandonedOnExceeds(local: MacAddress, a: LoadId) returns (trace: seq<Radio>, events: seq<RadioEvent>)
    requires a.mac != local
    ensures History(trace, events) && NoCommandTwice(events)
    ensures var x, order := trace[|events|], [RelayTarget(a, false)];
            && x.on == {a} && |x.activities| == 2 && Finished(x.activities[0])
            && x.activities[1].order == order == DispatchOrder(order) && x.activities[1].reported == [true]
            && !PowerBounded(order, AllRated(600.0), x.activities[1].start, View(x, 1))
  {
    trace, events := OffReported(local, a);
    trace, events := Extend(trace, events, RadioEvent.Switch(0, 0, true));
    assert trace[|events|].on == {a};
    LateOnExceeds(a, View(trace[|events|], 1));
  }

  lemma LateOnExceeds(a: LoadId, s: Dispatching)
    requires s.on == {a} && s.issued == 1
    ensures DispatchOrder([RelayTarget(a, false)]) == [RelayTarget(a, false)]
    ensures !PowerBounded([RelayTarget(a, false)], AllRated(600.0), {}, s)
  {
    var t := RelayTarget(a, false);
    OneTarget(t, {a});
    OneTarget(t, {});
    assert [t] + [] == [t];
  }

  lemma OffReported(local: MacAddress, a: LoadId) returns (trace: seq<Radio>, events: seq<RadioEvent>)
    requires a.mac != local
    ensures History(trace, events)
    ensures events == [Hand([RelayTarget(a, true)]), Send(0), GiveUp(0), Hand([RelayTarget(a, false)]), Send(1),
                       RadioEvent.Switch(1, 0, true), Acknowledge(RelayAck(2, RelayTarget(a, false), true)), Read(1)]
    ensures var x := trace[|events|];
            && x.on == {} && |x.activities| == 2 && x.sent == {Place(0, 0), Place(1, 0)}
            && x.activities[0].order == [RelayTarget(a, true)] && |x.activities[0].ids| == 1
            && |x.activities[0].reported| == 1
            && x.activities[1].order == [RelayTarget(a, false)] && x.activities[1].start == {}
            && |x.activities[1].ids| == 1 && x.activities[1].reported == [true]
  {
    var ack := RelayAck(2, RelayTarget(a, false), true);
    trace, events := AbandonedOn(local, a);
    trace, events := Extend(trace, events, RadioEvent.Switch(1, 0, true));
    assert ack in trace[|events|].acks && trace[|events|].on == {};
    trace, events := Extend(trace, events, Acknowledge(ack));
    assert trace[|events|].commands == Commands([], 3, 2, true);
    trace, events := Extend(trace, events, Read(1));
  }
}
