/**
 * Dispatching over the radio. Several tasks may hand over orders, so orders overlap; commands stay executable after
 * Central has given them up; acknowledgements are lost, repeated or late. One order's share of all this is one of the
 * abstract dispatches whose power is bounded.
 */
module RelayExchange {
  import opened Common
  import opened Loads
  import opened RelayDispatch

  /** The acknowledgement names the command, and its origin, pin and state name the target. */
  datatype RelayAck = RelayAck(id: CommandId, target: RelayTarget, success: bool)

  /**
   * One order being carried out: the relays that conducted when it was handed over, the identifier of each command
   * issued (0 if none was begun), and the outcomes reported. The last two are history: which of its commands have
   * acted, and the relays that something else was the last to switch.
   */
  datatype Activity = Activity(
    order: seq<RelayTarget>,
    start: set<LoadId>,
    ids: seq<CommandId>,
    reported: seq<bool>,
    acted: set<nat>,
    others: map<LoadId, bool>)

  /** A command by the number of its order and its place in it. */
  datatype Place = Place(d: nat, k: nat)

  /**
   * Central's address, the conducting relays, all orders ever handed over, Central's bookkeeping, every command that
   * may have gone on the air, and every acknowledgement ever sent. The last field is history: the counter, unwrapped.
   */
  datatype Radio = Radio(
    local: MacAddress,
    on: set<LoadId>,
    activities: seq<Activity>,
    commands: Commands,
    sent: set<Place>,
    acks: set<RelayAck>,
    top: nat)

  datatype RadioEvent =
    | Hand(order: seq<RelayTarget>)                  // a cycle ends: its order is handed over
    | WriteLocal(d: nat, written: bool)              // the next target of order d is one of Central's own relays
    | Unroutable(d: nat)                             // no route to the next target's Node
    | Send(d: nat)                                   // the next command of order d is begun and handed to the radio
    | Switch(d: nat, k: nat, written: bool)          // a command reaches its Node, which answers
    | Acknowledge(ack: RelayAck)                     // an acknowledgement reaches Central
    | Read(d: nat)                                   // the command is no longer pending: its outcome is read
    | GiveUp(d: nat)                                 // the send was reported as failed, or the deadline has passed
    | Elsewhere(id: LoadId, state: bool)             // a relay is configured or removed meanwhile

  predicate Free(x: Radio, d: nat) {
    d < |x.activities| &&
    var a := x.activities[d];
    |a.reported| == |a.ids| < |a.order|
  }

  predicate Waiting(x: Radio, d: nat) {
    d < |x.activities| && |x.activities[d].reported| + 1 == |x.activities[d].ids|
  }

  function NextTarget(x: Radio, d: nat): RelayTarget
    requires Free(x, d)
  {
    x.activities[d].order[|x.activities[d].ids|]
  }

  function NewestId(x: Radio, d: nat): CommandId
    requires Waiting(x, d)
  {
    x.activities[d].ids[|x.activities[d].ids| - 1]
  }

  predicate Known(x: Radio, p: Place) {
    p.d < |x.activities| && p.k < |x.activities[p.d].ids| && p.k < |x.activities[p.d].order|
  }

  function IdOf(x: Radio, p: Place): CommandId
    requires Known(x, p)
  {
    x.activities[p.d].ids[p.k]
  }

  function TargetOf(x: Radio, p: Place): RelayTarget
    requires Known(x, p)
  {
    x.activities[p.d].order[p.k]
  }

  predicate Enabled(x: Radio, e: RadioEvent) {
    match e
    case Hand(_) => true
    case WriteLocal(d, _) => Free(x, d) && NextTarget(x, d).id.mac == x.local
    case Unroutable(d) => Free(x, d) && NextTarget(x, d).id.mac != x.local
    case Send(d) => Free(x, d) && NextTarget(x, d).id.mac != x.local
    case Switch(d, k, _) => Place(d, k) in x.sent && Known(x, Place(d, k))
    case Acknowledge(a) => a in x.acks
    case Read(d) => Waiting(x, d) && !IsPending(x.commands, NewestId(x, d))
    case GiveUp(d) => Waiting(x, d)
    case Elsewhere(_, _) => true
  }

  function Reported(x: Radio, d: nat, success: bool): Radio
    requires d < |x.activities|
  {
    x.(activities := x.activities[d := x.activities[d].(reported := x.activities[d].reported + [success])])
  }

  function Issued(x: Radio, d: nat, id: CommandId): Radio
    requires d < |x.activities|
  {
    x.(activities := x.activities[d := x.activities[d].(ids := x.activities[d].ids + [id])])
  }

  /** The relay takes this state: by its own command for order d, from elsewhere for all the other orders. */
  function Switched(x: Radio, d: int, k: nat, id: LoadId, state: bool): Radio {
    x.(on := SwitchedTo(x.on, id, state),
       activities := seq(|x.activities|, i requires 0 <= i < |x.activities| =>
         var a := x.activities[i];
         if i == d then a.(acted := a.acted + {k}, others := a.others - {id}) else a.(others := a.others[id := state])))
  }

  /** An acknowledgement settles the pending command it names only if origin, pin and state match as well. */
  function Acknowledged(c: Commands, a: RelayAck): Commands {
    var k := IndexOfCommand(c.pending, a.id);
    if k < |c.pending| && c.pending[k].target == a.target then Completed(c, a.id, a.success) else c
  }

  method HandleRelayAcknowledgement(dispatcher: RelayCommandDispatcher, a: RelayAck)
    modifies dispatcher
    ensures dispatcher.State() == Acknowledged(old(dispatcher.State()), a)
  {
    var k := IndexOfCommand(dispatcher.pendingCommands, a.id);
    if k < |dispatcher.pendingCommands| && dispatcher.pendingCommands[k].target == a.target {
      var completed := dispatcher.CompleteCommand(a.id, a.success);
    }
  }

  lemma TakenOut(pending: seq<PendingCommand>, k: nat, p: PendingCommand)
    requires k < |pending| && forall i, j | 0 <= i < j < |pending| :: pending[i].commandId != pending[j].commandId
    ensures p in pending[..k] + pending[k + 1..] <==> p in pending && p != pending[k]
  {
    var out := pending[..k] + pending[k + 1..];
    assert pending == pending[..k] + [pending[k]] + pending[k + 1..];
    forall i | 0 <= i < |out| ensures out[i] != pending[k] { assert out[i] == pending[if i < k then i else i + 1]; }
  }

  /** An acknowledgement takes from the pending commands exactly the one it names, by identifier and by target. */
  lemma AcknowledgedExactly(c: Commands, top: nat, a: RelayAck, p: PendingCommand)
    requires FreshBelow(c, top)
    ensures p in Acknowledged(c, a).pending <==> p in c.pending && !(p.commandId == a.id && p.target == a.target)
    ensures !(PendingCommand(a.id, a.target) in c.pending) ==> Acknowledged(c, a) == c
    ensures PendingCommand(a.id, a.target) in c.pending ==>
              Acknowledged(c, a).lastCompleted == a.id && Acknowledged(c, a).lastSuccess == a.success
  {
    var k := IndexOfCommand(c.pending, a.id);
    if k < |c.pending| { TakenOut(c.pending, k, p); }
  }

  /** A command whose outcome is known at once. */
  function Immediate(x: Radio, d: nat, written: bool): Radio
    requires Free(x, d)
  {
    var t, k := NextTarget(x, d), |x.activities[d].ids|;
    var issued := Reported(Issued(x, d, 0), d, written);
    if written then Switched(issued, d, k, t.id, t.desiredOn) else issued
  }

  /** A command begun under identifier 0 is not sent; any other one may from now on reach its Node. */
  function Sent(x: Radio, d: nat): Radio
    requires Free(x, d)
  {
    var id, k := x.commands.nextId, |x.activities[d].ids|;
    var begun := Issued(x, d, id).(commands := Begun(x.commands, NextTarget(x, d)), top := x.top + 1);
    if id == 0 then Reported(begun, d, false) else begun.(sent := x.sent + {Place(d, k)})
  }

  function After(x: Radio, e: RadioEvent): Radio
    requires Enabled(x, e)
  {
    match e
    case Hand(order) => x.(activities := x.activities + [Activity(order, x.on, [], [], {}, map[])])
    case WriteLocal(d, written) => Immediate(x, d, written)
    case Unroutable(d) => Immediate(x, d, false)
    case Send(d) => Sent(x, d)
    case Switch(d, k, written) =>
      var t := TargetOf(x, Place(d, k));
      var answered := x.(acks := x.acks + {RelayAck(IdOf(x, Place(d, k)), t, written)});
      if written then Switched(answered, d, k, t.id, t.desiredOn) else answered
    case Acknowledge(a) => x.(commands := Acknowledged(x.commands, a))
    case Read(d) => Reported(x, d, WasSuccessful(x.commands, NewestId(x, d)))
    case GiveUp(d) => Reported(x, d, false).(commands := Completed(x.commands, NewestId(x, d), false))
    case Elsewhere(id, state) => Switched(x, -1, 0, id, state)
  }

  ghost predicate RadioStep(trace: seq<Radio>, events: seq<RadioEvent>, i: int)
    requires 0 <= i < |events| && |trace| == |events| + 1
  {
    Enabled(trace[i], events[i]) && trace[i + 1] == After(trace[i], events[i])
  }

  /** From boot: no order handed over yet, whatever relays conduct. */
  ghost predicate History(trace: seq<Radio>, events: seq<RadioEvent>) {
    && |trace| == |events| + 1
    && trace[0] == Radio(trace[0].local, trace[0].on, [], NO_COMMANDS, {}, {}, 1)
    && forall i | 0 <= i < |events| :: RadioStep(trace, events, i)
  }

  // ---------------------------------------------------------------------------------------------------
  // What every history keeps
  // ---------------------------------------------------------------------------------------------------

  /** The command this acknowledgement answers: only one that acted is acknowledged as a success. */
  ghost predicate AnswerTo(x: Radio, a: RelayAck, p: Place) {
    && p in x.sent && Known(x, p) && IdOf(x, p) == a.id && TargetOf(x, p) == a.target
    && (a.success ==> p.k in x.activities[p.d].acted)
  }

  ghost predicate Sound(x: Radio, d: nat)
    requires d < |x.activities|
  {
    var a := x.activities[d];
    && |a.reported| <= |a.ids| <= |a.reported| + 1 && |a.ids| <= |a.order|
    && (Waiting(x, d) ==> Place(d, |a.ids| - 1) in x.sent)
    && (forall k | 0 <= k < |a.reported| && a.reported[k] :: k in a.acted)
    && (forall k <- a.acted :: k < |a.ids|)
  }

  ghost predicate Numbered(x: Radio) {
    && FreshBelow(x.commands, x.top)
    && (forall p <- x.sent :: Known(x, p) && 0 < IdOf(x, p) < x.top)
    && (forall p, q | p in x.sent && q in x.sent && IdOf(x, p) == IdOf(x, q) :: p == q)
  }

  ghost predicate Inv(x: Radio) {
    && Numbered(x)
    && (forall d | 0 <= d < |x.activities| :: Sound(x, d))
    && (forall a <- x.acks :: exists p :: AnswerTo(x, a, p))
    && (forall p | p in x.sent && WasSuccessful(x.commands, IdOf(x, p)) :: p.k in x.activities[p.d].acted)
  }

  /** Orders keep what they are and what they have done. */
  ghost predicate Grows(x: Radio, y: Radio) {
    && |x.activities| <= |y.activities| && x.sent <= y.sent
    && forall d | 0 <= d < |x.activities| :: Older(x.activities[d], y.activities[d])
  }

  ghost predicate Older(a: Activity, b: Activity) {
    && a.order == b.order && a.start == b.start && a.acted <= b.acted
    && |a.ids| <= |b.ids| && b.ids[..|a.ids|] == a.ids
  }

  lemma OlderIds(a: Activity, b: Activity, k: nat)
    requires Older(a, b) && k < |a.ids|
    ensures k < |b.ids| && b.ids[k] == a.ids[k]
  {
    assert b.ids[..|a.ids|][k] == b.ids[k];
  }

  lemma PlacesKeep(x: Radio, y: Radio, p: Place)
    requires Grows(x, y) && Known(x, p)
    ensures Known(y, p) && IdOf(y, p) == IdOf(x, p) && TargetOf(y, p) == TargetOf(x, p)
  {
    assert Older(x.activities[p.d], y.activities[p.d]);
    OlderIds(x.activities[p.d], y.activities[p.d], p.k);
  }

  lemma AnswersKeep(x: Radio, y: Radio)
    requires Grows(x, y) && forall a <- x.acks :: exists p :: AnswerTo(x, a, p)
    ensures forall a <- x.acks :: exists p :: AnswerTo(y, a, p)
  {
    forall a | a in x.acks ensures exists p :: AnswerTo(y, a, p) {
      var p :| AnswerTo(x, a, p);
      PlacesKeep(x, y, p);
      assert Older(x.activities[p.d], y.activities[p.d]);
      assert AnswerTo(y, a, p);
    }
  }

  /** Nothing is sent and the bookkeeping stays: only what orders have done changes. */
  lemma QuietKeepsInv(x: Radio, y: Radio)
    requires Inv(x) && Grows(x, y) && y.sent == x.sent && y.commands == x.commands && y.top == x.top
    requires forall d | 0 <= d < |y.activities| :: Sound(y, d)
    requires forall a <- y.acks :: a in x.acks || exists p :: AnswerTo(y, a, p)
    ensures Inv(y)
  {
    AnswersKeep(x, y);
    forall p | p in x.sent
      ensures Known(y, p) && IdOf(y, p) == IdOf(x, p) && x.activities[p.d].acted <= y.activities[p.d].acted
    {
      PlacesKeep(x, y, p);
      assert Older(x.activities[p.d], y.activities[p.d]);
    }
  }

  lemma SwitchedGrows(x: Radio, d: int, k: nat, id: LoadId, state: bool)
    ensures Grows(x, Switched(x, d, k, id, state))
    ensures 0 <= d < |x.activities| ==> k in Switched(x, d, k, id, state).activities[d].acted
  {
    var y := Switched(x, d, k, id, state);
    forall i | 0 <= i < |x.activities| ensures Older(x.activities[i], y.activities[i]) {
      assert y.activities[i].ids[..|x.activities[i].ids|] == x.activities[i].ids;
    }
  }

  lemma SwitchedSound(x: Radio, d: int, k: nat, id: LoadId, state: bool, i: nat)
    requires i < |x.activities| && Sound(x, i) && (i == d ==> k < |x.activities[i].ids|)
    ensures Sound(Switched(x, d, k, id, state), i)
  {
  }

  lemma HandKeepsInv(x: Radio, order: seq<RelayTarget>)
    requires Inv(x)
    ensures Inv(After(x, Hand(order)))
  {
    var y := After(x, Hand(order));
    forall d | 0 <= d < |y.activities| ensures Sound(y, d) {
      if d < |x.activities| { assert y.activities[d] == x.activities[d] && Sound(x, d); }
    }
    forall d | 0 <= d < |x.activities| ensures Older(x.activities[d], y.activities[d]) {
      assert x.activities[d].ids[..|x.activities[d].ids|] == x.activities[d].ids;
    }
    QuietKeepsInv(x, y);
  }

  lemma ImmediateKeepsInv(x: Radio, d: nat, written: bool)
    requires Inv(x) && Free(x, d)
    ensures Inv(Immediate(x, d, written))
  {
    var y, a, k := Immediate(x, d, written), x.activities[d], |x.activities[d].ids|;
    forall i | 0 <= i < |x.activities| ensures Sound(y, i) && Older(x.activities[i], y.activities[i]) {
      assert Sound(x, i);
      assert y.activities[i].ids[..|x.activities[i].ids|] == x.activities[i].ids;
    }
    QuietKeepsInv(x, y);
  }

  lemma SwitchKeepsInv(x: Radio, d: nat, k: nat, written: bool)
    requires Inv(x) && Enabled(x, Switch(d, k, written))
    ensures Inv(After(x, Switch(d, k, written)))
  {
    var t, y := TargetOf(x, Place(d, k)), After(x, Switch(d, k, written));
    var answered := x.(acks := x.acks + {RelayAck(IdOf(x, Place(d, k)), t, written)});
    SwitchedGrows(answered, d, k, t.id, t.desiredOn);
    forall i | 0 <= i < |y.activities| ensures Sound(y, i) {
      assert Sound(x, i) && Sound(answered, i);
      SwitchedSound(answered, d, k, t.id, t.desiredOn, i);
    }
    SameGrows(x, answered);
    assert Grows(x, y);
    PlacesKeep(x, y, Place(d, k));
    assert AnswerTo(y, RelayAck(IdOf(x, Place(d, k)), t, written), Place(d, k));
    QuietKeepsInv(x, y);
  }

  lemma SameGrows(x: Radio, y: Radio)
    requires y.activities == x.activities && x.sent <= y.sent
    ensures Grows(x, y)
  {
    forall d | 0 <= d < |x.activities| ensures Older(x.activities[d], y.activities[d]) {
      assert x.activities[d].ids[..|x.activities[d].ids|] == x.activities[d].ids;
    }
  }

  lemma ElsewhereKeepsInv(x: Radio, id: LoadId, state: bool)
    requires Inv(x)
    ensures Inv(After(x, Elsewhere(id, state)))
  {
    var y := After(x, Elsewhere(id, state));
    SwitchedGrows(x, -1, 0, id, state);
    forall i | 0 <= i < |y.activities| ensures Sound(y, i) {
      assert Sound(x, i);
      SwitchedSound(x, -1, 0, id, state, i);
    }
    QuietKeepsInv(x, y);
  }

  /** Sending changes one order's identifiers, the bookkeeping and what is on the air. */
  lemma SendKeepsInv(x: Radio, d: nat)
    requires Inv(x) && Free(x, d) && x.top < COMMAND_IDS
    ensures Inv(Sent(x, d))
  {
    var y, k := Sent(x, d), |x.activities[d].ids|;
    assert x.commands.nextId == x.top;
    BegunKeeps(x.commands, x.top, NextTarget(x, d));
    forall i | 0 <= i < |x.activities| ensures Sound(y, i) && Older(x.activities[i], y.activities[i]) {
      assert Sound(x, i);
      assert y.activities[i].ids[..|x.activities[i].ids|] == x.activities[i].ids;
    }
    AnswersKeep(x, y);
    forall p | p in x.sent ensures Known(y, p) && IdOf(y, p) == IdOf(x, p) < x.top { PlacesKeep(x, y, p); }
    assert Known(y, Place(d, k)) && IdOf(y, Place(d, k)) == x.top;
  }

  lemma AcknowledgeKeepsInv(x: Radio, a: RelayAck)
    requires Inv(x) && a in x.acks
    ensures Inv(x.(commands := Acknowledged(x.commands, a)))
  {
    var y := x.(commands := Acknowledged(x.commands, a));
    CompletedKeeps(x.commands, x.top, a.id, a.success);
    SameGrows(x, y);
    AnswersKeep(x, y);
    var q :| AnswerTo(x, a, q);
    forall d | 0 <= d < |x.activities| ensures Sound(y, d) { assert Sound(x, d); }
    forall p | p in x.sent && WasSuccessful(y.commands, IdOf(x, p)) ensures p.k in x.activities[p.d].acted {
      if y.commands != x.commands { assert IdOf(x, p) == IdOf(x, q); }
    }
  }

  lemma ReadKeepsInv(x: Radio, d: nat)
    requires Inv(x) && Waiting(x, d)
    ensures Inv(Reported(x, d, WasSuccessful(x.commands, NewestId(x, d))))
  {
    var success := WasSuccessful(x.commands, NewestId(x, d));
    var y, newest := Reported(x, d, success), Place(d, |x.activities[d].ids| - 1);
    assert Sound(x, d);
    assert newest in x.sent && IdOf(x, newest) == NewestId(x, d);
    ReportedKeeps(x, d, success);
    QuietKeepsInv(x, y);
  }

  lemma ReportedKeeps(x: Radio, d: nat, success: bool)
    requires Waiting(x, d) && forall i | 0 <= i < |x.activities| :: Sound(x, i)
    requires success ==> |x.activities[d].ids| - 1 in x.activities[d].acted
    ensures Grows(x, Reported(x, d, success))
    ensures forall i | 0 <= i < |x.activities| :: Sound(Reported(x, d, success), i)
  {
    var y := Reported(x, d, success);
    forall i | 0 <= i < |x.activities| ensures Sound(y, i) && Older(x.activities[i], y.activities[i]) {
      assert Sound(x, i);
      assert y.activities[i].ids[..|x.activities[i].ids|] == x.activities[i].ids;
    }
  }

  lemma GiveUpKeepsInv(x: Radio, d: nat)
    requires Inv(x) && Waiting(x, d)
    ensures Inv(After(x, GiveUp(d)))
  {
    var y := Reported(x, d, false);
    ReportedKeeps(x, d, false);
    QuietKeepsInv(x, y);
    var z := y.(commands := Completed(x.commands, NewestId(x, d), false));
    CompletedKeeps(x.commands, x.top, NewestId(x, d), false);
    SameGrows(y, z);
    AnswersKeep(y, z);
    forall i | 0 <= i < |y.activities| ensures Sound(z, i) { assert Sound(y, i); }
  }

  lemma StepKeepsInv(x: Radio, e: RadioEvent)
    requires Inv(x) && Enabled(x, e) && After(x, e).top <= COMMAND_IDS
    ensures Inv(After(x, e))
  {
    match e
    case Hand(order) => HandKeepsInv(x, order);
    case WriteLocal(d, written) => ImmediateKeepsInv(x, d, written);
    case Unroutable(d) => ImmediateKeepsInv(x, d, false);
    case Send(d) => SendKeepsInv(x, d);
    case Switch(d, k, written) => SwitchKeepsInv(x, d, k, written);
    case Acknowledge(a) => AcknowledgeKeepsInv(x, a);
    case Read(d) => ReadKeepsInv(x, d);
    case GiveUp(d) => GiveUpKeepsInv(x, d);
    case Elsewhere(id, state) => ElsewhereKeepsInv(x, id, state);
  }

  lemma {:induction false} TopGrows(trace: seq<Radio>, events: seq<RadioEvent>, i: nat, j: nat)
    requires History(trace, events) && i <= j <= |events|
    ensures trace[i].top <= trace[j].top
  {
    if i < j {
      TopGrows(trace, events, i, j - 1);
      assert RadioStep(trace, events, j - 1);
    }
  }

  lemma {:induction false} HistoryKeepsInv(trace: seq<Radio>, events: seq<RadioEvent>, i: nat)
    requires History(trace, events) && i <= |events| && trace[i].top <= COMMAND_IDS
    ensures Inv(trace[i])
  {
    if i > 0 {
      TopGrows(trace, events, i - 1, i);
      HistoryKeepsInv(trace, events, i - 1);
      assert RadioStep(trace, events, i - 1);
      StepKeepsInv(trace[i - 1], events[i - 1]);
    }
  }

  /**
   * A command reported as a success has acted on its relay, whatever acknowledgements of this or other orders arrived
   * when, and however many orders overlap.
   */
  lemma SuccessMeansActed(trace: seq<Radio>, events: seq<RadioEvent>, i: nat, d: nat, k: nat)
    requires History(trace, events) && i <= |events| && trace[i].top <= COMMAND_IDS && d < |trace[i].activities|
    requires k < |trace[i].activities[d].reported| && trace[i].activities[d].reported[k]
    ensures k in trace[i].activities[d].acted
  {
    HistoryKeepsInv(trace, events, i);
    assert Sound(trace[i], d);
  }

  // ---------------------------------------------------------------------------------------------------
  // Each order's share is an abstract dispatch
  // ---------------------------------------------------------------------------------------------------

  /** What order d sees. */
  function View(x: Radio, d: nat): Dispatching
    requires d < |x.activities|
  {
    var a := x.activities[d];
    Dispatching(x.on, |a.ids|, a.reported, a.acted, a.others)
  }

  lemma Further(order: seq<RelayTarget>, start: set<LoadId>, trace: seq<Dispatching>, events: seq<DispatchEvent>,
                e: DispatchEvent)
    returns (trace': seq<Dispatching>, events': seq<DispatchEvent>)
    requires Carried(order, start, trace, events) && Possible(order, trace[|events|], e)
    ensures Carried(order, start, trace', events') && |events'| == |events| + 1
    ensures trace'[|events'|] == Advance(order, trace[|events|], e)
  {
    trace', events' := trace + [Advance(order, trace[|events|], e)], events + [e];
    forall i | 0 <= i < |events'| ensures StepAt(order, trace', events', i) {
      if i < |events| { assert StepAt(order, trace, events, i); }
    }
  }

  /** A step of order d itself. */
  predicate OwnStep(e: RadioEvent, d: nat) {
    match e
    case WriteLocal(i, _) => i == d
    case Unroutable(i) => i == d
    case Send(i) => i == d
    case Switch(i, _, _) => i == d
    case Read(i) => i == d
    case GiveUp(i) => i == d
    case _ => false
  }

  lemma OwnStepIsDispatch(x: Radio, e: RadioEvent, d: nat, trace: seq<Dispatching>, events: seq<DispatchEvent>)
    returns (trace': seq<Dispatching>, events': seq<DispatchEvent>)
    requires Inv(x) && Enabled(x, e) && OwnStep(e, d) && d < |x.activities|
    requires Carried(x.activities[d].order, x.activities[d].start, trace, events) && trace[|events|] == View(x, d)
    ensures Carried(x.activities[d].order, x.activities[d].start, trace', events')
    ensures trace'[|events'|] == View(After(x, e), d)
  {
    var order, start, k := x.activities[d].order, x.activities[d].start, |x.activities[d].ids|;
    assert Sound(x, d);
    trace', events' := trace, events;
    match e
    case WriteLocal(_, written) =>
      trace', events' := Further(order, start, trace', events', Issue);
      if written { trace', events' := Further(order, start, trace', events', Act(k)); }
      trace', events' := Further(order, start, trace', events', Report(written));
    case Unroutable(_) =>
      trace', events' := Further(order, start, trace', events', Issue);
      trace', events' := Further(order, start, trace', events', Report(false));
    case Send(_) =>
      trace', events' := Further(order, start, trace', events', Issue);
      if x.commands.nextId == 0 { trace', events' := Further(order, start, trace', events', Report(false)); }
    case Switch(_, i, written) =>
      if written { trace', events' := Further(order, start, trace', events', Act(i)); }
    case Read(_) =>
      assert Place(d, k - 1) in x.sent && IdOf(x, Place(d, k - 1)) == NewestId(x, d);
      trace', events' := Further(order, start, trace', events', Report(WasSuccessful(x.commands, NewestId(x, d))));
    case GiveUp(_) =>
      trace', events' := Further(order, start, trace', events', Report(false));
  }

  /** What another order, or something else, does to the relays. */
  function SwitchOf(x: Radio, e: RadioEvent): Option<(LoadId, bool)>
    requires Enabled(x, e)
  {
    match e
    case WriteLocal(d, true) => Some((NextTarget(x, d).id, NextTarget(x, d).desiredOn))
    case Switch(d, k, true) => Some((TargetOf(x, Place(d, k)).id, TargetOf(x, Place(d, k)).desiredOn))
    case Elsewhere(id, state) => Some((id, state))
    case _ => None
  }

  lemma OtherStepIsSwitch(x: Radio, e: RadioEvent, d: nat)
    requires Enabled(x, e) && !OwnStep(e, d) && d < |x.activities|
    ensures d < |After(x, e).activities| && After(x, e).activities[d].order == x.activities[d].order
    ensures After(x, e).activities[d].start == x.activities[d].start
    ensures var s, v := SwitchOf(x, e), View(x, d);
            View(After(x, e), d) ==
            if s.None? then v
            else v.(on := SwitchedTo(v.on, s.value.0, s.value.1), others := v.others[s.value.0 := s.value.1])
  {
  }

  lemma OtherStepIsDispatch(x: Radio, e: RadioEvent, d: nat, trace: seq<Dispatching>, events: seq<DispatchEvent>)
    returns (trace': seq<Dispatching>, events': seq<DispatchEvent>)
    requires Enabled(x, e) && !OwnStep(e, d) && d < |x.activities|
    requires Carried(x.activities[d].order, x.activities[d].start, trace, events) && trace[|events|] == View(x, d)
    ensures Carried(x.activities[d].order, x.activities[d].start, trace', events')
    ensures d < |After(x, e).activities| && trace'[|events'|] == View(After(x, e), d)
  {
    OtherStepIsSwitch(x, e, d);
    trace', events' := trace, events;
    var s := SwitchOf(x, e);
    if s.Some? {
      trace', events' := Further(x.activities[d].order, x.activities[d].start, trace, events,
                                 Other(s.value.0, s.value.1));
    }
  }

  lemma OrdersStay(x: Radio, e: RadioEvent, d: nat)
    requires Enabled(x, e) && d < |x.activities|
    ensures |After(x, e).activities| == |x.activities| + if e.Hand? then 1 else 0
    ensures After(x, e).activities[d].order == x.activities[d].order
    ensures After(x, e).activities[d].start == x.activities[d].start
  {
  }

  /** Refinement: whatever happens on the radio, each order's share of it is an abstract dispatch of that order. */
  lemma {:induction false} ExchangeIsDispatch(trace: seq<Radio>, events: seq<RadioEvent>, i: nat, d: nat)
    returns (dispatch: seq<Dispatching>, steps: seq<DispatchEvent>)
    requires History(trace, events) && i <= |events| && trace[i].top <= COMMAND_IDS && d < |trace[i].activities|
    ensures Carried(trace[i].activities[d].order, trace[i].activities[d].start, dispatch, steps)
    ensures dispatch[|steps|] == View(trace[i], d)
  {
    assert i > 0 && RadioStep(trace, events, i - 1);
    var x, e := trace[i - 1], events[i - 1];
    TopGrows(trace, events, i - 1, i);
    HistoryKeepsInv(trace, events, i - 1);
    if d < |x.activities| {
      dispatch, steps := ExchangeIsDispatch(trace, events, i - 1, d);
      OrdersStay(x, e, d);
      if OwnStep(e, d) {
        dispatch, steps := OwnStepIsDispatch(x, e, d, dispatch, steps);
      } else {
        dispatch, steps := OtherStepIsDispatch(x, e, d, dispatch, steps);
      }
    } else {
      HandedOver(x, e, d);
      dispatch, steps := [View(trace[i], d)], [];
    }
  }

  lemma HandedOver(x: Radio, e: RadioEvent, d: nat)
    requires Enabled(x, e) && |x.activities| <= d < |After(x, e).activities|
    ensures e.Hand? && d == |x.activities|
    ensures View(After(x, e), d) == Dispatching(After(x, e).activities[d].start, 0, [], {}, map[])
  {
    if !e.Hand? && |x.activities| > 0 { OrdersStay(x, e, 0); }
  }

  /** So the power bound, with what others have switched on, holds of each order at every moment of the exchange. */
  lemma ExchangeIsPowerSafe(targets: seq<RelayTarget>, trace: seq<Radio>, events: seq<RadioEvent>, i: nat, d: nat,
                            rating: Rating)
    requires NonNegative(rating) && DistinctTargets(DispatchOrder(targets))
    requires History(trace, events) && i <= |events| && trace[i].top <= COMMAND_IDS
    requires d < |trace[i].activities| && trace[i].activities[d].order == DispatchOrder(targets)
    ensures PowerBoundedWithOthers(targets, rating, trace[i].activities[d].start, View(trace[i], d))
  {
    var dispatch, steps := ExchangeIsDispatch(trace, events, i, d);
    PowerSafeThroughout(targets, trace[i].activities[d].start, dispatch, steps, |steps|, rating);
  }
}
