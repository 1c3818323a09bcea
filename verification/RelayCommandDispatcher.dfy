/** Carrying out a plan: OFF before ON, one command at a time, each acknowledged, refused or given up on. */
module RelayDispatch {
  import opened Common
  import opened Loads

  datatype RelayTarget = RelayTarget(id: LoadId, desiredOn: bool)

  // ---------------------------------------------------------------------------------------------------
  // The order
  // ---------------------------------------------------------------------------------------------------

  /** The targets of one phase, in their given order. */
  function PhaseOf(targets: seq<RelayTarget>, on: bool): (r: seq<RelayTarget>)
    ensures forall t <- r :: t.desiredOn == on && t in targets
  {
    if targets == [] then []
    else
      var init, t := targets[..|targets| - 1], targets[|targets| - 1];
      if t.desiredOn == on then PhaseOf(init, on) + [t] else PhaseOf(init, on)
  }

  function DispatchOrder(targets: seq<RelayTarget>): seq<RelayTarget> {
    PhaseOf(targets, false) + PhaseOf(targets, true)
  }

  ghost predicate OffBeforeOn(order: seq<RelayTarget>) {
    forall i, j | 0 <= i < j < |order| :: order[i].desiredOn ==> order[j].desiredOn
  }

  method BuildDispatchOrder(targets: seq<RelayTarget>) returns (order: seq<RelayTarget>)
    ensures order == DispatchOrder(targets)
  {
    var offPhase: seq<RelayTarget> := [];
    var onPhase: seq<RelayTarget> := [];
    for i := 0 to |targets|
      invariant offPhase == PhaseOf(targets[..i], false)
      invariant onPhase == PhaseOf(targets[..i], true)
    {
      assert targets[..i + 1][..i] == targets[..i];
      if targets[i].desiredOn {
        onPhase := onPhase + [targets[i]];
      } else {
        offPhase := offPhase + [targets[i]];
      }
    }
    assert targets[..|targets|] == targets;
    order := offPhase + onPhase;
  }

  lemma {:induction false} PhaseAppend(a: seq<RelayTarget>, b: seq<RelayTarget>, on: bool)
    ensures PhaseOf(a + b, on) == PhaseOf(a, on) + PhaseOf(b, on)
  {
    if b == [] {
      assert a + b == a;
    } else {
      assert (a + b)[..|a + b| - 1] == a + b[..|b| - 1];
      PhaseAppend(a, b[..|b| - 1], on);
    }
  }

  lemma {:induction false} PhaseOfPhase(targets: seq<RelayTarget>, on: bool, on': bool)
    ensures PhaseOf(PhaseOf(targets, on), on') == if on == on' then PhaseOf(targets, on) else []
  {
    if targets != [] { PhaseOfPhase(targets[..|targets| - 1], on, on'); }
  }

  lemma {:induction false} PhasesAreTheTargets(targets: seq<RelayTarget>)
    ensures multiset(PhaseOf(targets, false)) + multiset(PhaseOf(targets, true)) == multiset(targets)
  {
    if targets != [] {
      assert targets == targets[..|targets| - 1] + [targets[|targets| - 1]];
      PhasesAreTheTargets(targets[..|targets| - 1]);
    }
  }

  lemma OrderHasItsPhases(targets: seq<RelayTarget>, on: bool)
    ensures PhaseOf(DispatchOrder(targets), on) == PhaseOf(targets, on)
  {
    PhaseAppend(PhaseOf(targets, false), PhaseOf(targets, true), on);
    PhaseOfPhase(targets, false, on);
    PhaseOfPhase(targets, true, on);
  }

  lemma OrderIsOffBeforeOn(targets: seq<RelayTarget>)
    ensures OffBeforeOn(DispatchOrder(targets))
  {
    var off, on, order := PhaseOf(targets, false), PhaseOf(targets, true), DispatchOrder(targets);
    forall i, j | 0 <= i < j < |order| ensures order[i].desiredOn ==> order[j].desiredOn {
      if j < |off| { assert off[i] in off; } else { assert on[j - |off|] in on; }
    }
  }

  /** The order is the one arrangement of the targets that puts OFF before ON and keeps the order within each phase. */
  lemma DispatchOrderIsStable(targets: seq<RelayTarget>, order: seq<RelayTarget>)
    ensures multiset(DispatchOrder(targets)) == multiset(targets)
    ensures order == DispatchOrder(targets) <==>
            OffBeforeOn(order) && PhaseOf(order, false) == PhaseOf(targets, false) &&
                PhaseOf(order, true) == PhaseOf(targets, true)
  {
    PhasesAreTheTargets(targets);
    OrderHasItsPhases(targets, false);
    OrderHasItsPhases(targets, true);
    OrderIsOffBeforeOn(targets);
    if OffBeforeOn(order) { SortedIsItsPhases(order); }
  }

  lemma {:induction false} SortedIsItsPhases(order: seq<RelayTarget>)
    requires OffBeforeOn(order)
    ensures order == PhaseOf(order, false) + PhaseOf(order, true)
  {
    if order != [] {
      var init, t := order[..|order| - 1], order[|order| - 1];
      var off, on := PhaseOf(init, false), PhaseOf(init, true);
      SortedIsItsPhases(init);
      assert order == (off + on) + [t];
      if t.desiredOn {
        assert (off + on) + [t] == off + (on + [t]);
      } else {
        assert forall x <- init :: !x.desiredOn;
        NoneOn(init);
        assert (off + []) + [t] == (off + [t]) + [];
      }
    }
  }

  lemma {:induction false} NoneOn(order: seq<RelayTarget>)
    requires forall t <- order :: !t.desiredOn
    ensures PhaseOf(order, true) == []
  {
    if order != [] { NoneOn(order[..|order| - 1]); }
  }

  lemma OrderHasTheTargets(targets: seq<RelayTarget>, t: RelayTarget)
    ensures t in DispatchOrder(targets) <==> t in targets
  {
    PhasesAreTheTargets(targets);
    assert t in DispatchOrder(targets) <==> t in multiset(DispatchOrder(targets));
    assert t in targets <==> t in multiset(targets);
  }

  // ---------------------------------------------------------------------------------------------------
  // Command bookkeeping
  // ---------------------------------------------------------------------------------------------------

  datatype PendingCommand = PendingCommand(commandId: CommandId, target: RelayTarget)

  datatype Commands = Commands(pending: seq<PendingCommand>, nextId: CommandId, lastCompleted: CommandId,
                               lastSuccess: bool)

  const NO_COMMANDS := Commands([], 1, 0, false)

  function PendingId(p: PendingCommand): CommandId { p.commandId }

  function IndexOfCommand(pending: seq<PendingCommand>, id: CommandId): (k: nat)
    ensures k <= |pending|
    ensures k < |pending| ==> pending[k].commandId == id
    ensures forall i | 0 <= i < k :: pending[i].commandId != id
  {
    IndexBy(PendingId, pending, id)
  }

  predicate IsPending(c: Commands, id: CommandId) { IndexOfCommand(c.pending, id) < |c.pending| }

  function Begun(c: Commands, t: RelayTarget): Commands {
    c.(pending := c.pending + [PendingCommand(c.nextId, t)], nextId := (c.nextId + 1) % COMMAND_IDS)
  }

  function Completed(c: Commands, id: CommandId, success: bool): Commands {
    var k := IndexOfCommand(c.pending, id);
    if k < |c.pending|
    then c.(pending := c.pending[..k] + c.pending[k + 1..], lastCompleted := id, lastSuccess := success)
    else c
  }

  predicate WasSuccessful(c: Commands, id: CommandId) { id == c.lastCompleted && c.lastSuccess }

  class RelayCommandDispatcher {
    var pendingCommands: seq<PendingCommand>
    var nextCommandId: CommandId
    var lastCompletedCommandId: CommandId
    var lastCompletedCommandSuccess: bool

    function State(): Commands
      reads this
    {
      Commands(pendingCommands, nextCommandId, lastCompletedCommandId, lastCompletedCommandSuccess)
    }

    constructor ()
      ensures State() == NO_COMMANDS
    {
      pendingCommands, nextCommandId, lastCompletedCommandId, lastCompletedCommandSuccess := [], 1, 0, false;
    }

    method BeginCommand(t: RelayTarget) returns (id: CommandId)
      modifies this
      ensures id == old(nextCommandId) && State() == Begun(old(State()), t)
    {
      id := nextCommandId;
      nextCommandId := if nextCommandId + 1 < COMMAND_IDS then nextCommandId + 1 else 0;
      pendingCommands := pendingCommands + [PendingCommand(id, t)];
    }

    method CompleteCommand(id: CommandId, success: bool) returns (completed: bool)
      modifies this
      ensures completed <==> IsPending(old(State()), id)
      ensures State() == Completed(old(State()), id, success)
    {
      for i := 0 to |pendingCommands|
        invariant State() == old(State())
        invariant forall k | 0 <= k < i :: pendingCommands[k].commandId != id
      {
        if pendingCommands[i].commandId == id {
          pendingCommands := pendingCommands[..i] + pendingCommands[i + 1..];
          lastCompletedCommandId, lastCompletedCommandSuccess := id, success;
          return true;
        }
      }
      return false;
    }

    method ClearPendingCommands()
      modifies this`pendingCommands
      ensures State() == old(State()).(pending := [])
    {
      pendingCommands := [];
    }
  }

  datatype CommandEvent = Begin(target: RelayTarget) | Complete(id: CommandId, success: bool) | Clear

  function Happened(c: Commands, e: CommandEvent): Commands {
    match e
    case Begin(t) => Begun(c, t)
    case Complete(id, success) => Completed(c, id, success)
    case Clear => c.(pending := [])
  }

  function CommandRun(c: Commands, events: seq<CommandEvent>): Commands {
    if events == [] then c else Happened(CommandRun(c, events[..|events| - 1]), events[|events| - 1])
  }

  function Begins(events: seq<CommandEvent>): nat {
    if events == [] then 0 else Begins(events[..|events| - 1]) + if events[|events| - 1].Begin? then 1 else 0
  }

  // Which identifier a run hands out.

  ghost predicate BeginsAt(events: seq<CommandEvent>, i: int) { 0 <= i < |events| && events[i].Begin? }

  /** The identifier the command begun at position i gets, in a run of a new dispatcher. */
  ghost function IdGiven(events: seq<CommandEvent>, i: int): CommandId
    requires BeginsAt(events, i)
  {
    CommandRun(NO_COMMANDS, events[..i]).nextId
  }

  /** The counter counts the commands begun, modulo 2^32. */
  lemma {:induction false} CounterCounts(c: Commands, events: seq<CommandEvent>)
    ensures CommandRun(c, events).nextId == (c.nextId + Begins(events)) % COMMAND_IDS
  {
    if events != [] {
      var init, e := events[..|events| - 1], events[|events| - 1];
      var n := c.nextId + Begins(init);
      CounterCounts(c, init);
      assert CommandRun(c, init).nextId == n % COMMAND_IDS;
      if e.Begin? {
        NextModulo(n);
        assert CommandRun(c, events).nextId == (n % COMMAND_IDS + 1) % COMMAND_IDS &&
               Begins(events) == Begins(init) + 1;
      } else {
        assert CommandRun(c, events).nextId == CommandRun(c, init).nextId && Begins(events) == Begins(init);
      }
    }
  }

  lemma NextModulo(n: nat)
    ensures (n % COMMAND_IDS + 1) % COMMAND_IDS == (n + 1) % COMMAND_IDS
  {
  }

  lemma {:induction false} BeginsGrow(events: seq<CommandEvent>, i: nat)
    requires i <= |events|
    ensures Begins(events[..i]) <= Begins(events)
    ensures BeginsAt(events, i) ==> Begins(events[..i]) < Begins(events)
  {
    if i < |events| {
      var init := events[..|events| - 1];
      assert init[..i] == events[..i];
      BeginsGrow(init, i);
    } else {
      assert events[..i] == events;
    }
  }

  lemma BeginsBetween(events: seq<CommandEvent>, i: nat, j: nat)
    requires i < j <= |events| && BeginsAt(events, i)
    ensures Begins(events[..i]) < Begins(events[..j])
  {
    assert events[..j][..i] == events[..i];
    BeginsGrow(events[..j], i);
  }

  /** The position of the n-th command begun. */
  lemma {:induction false} NthBegin(events: seq<CommandEvent>, n: nat) returns (i: nat)
    requires n < Begins(events)
    ensures BeginsAt(events, i) && Begins(events[..i]) == n
  {
    var init := events[..|events| - 1];
    if n < Begins(init) {
      i := NthBegin(init, n);
      assert init[..i] == events[..i];
    } else {
      i := |init|;
    }
  }

  lemma IdOfNth(events: seq<CommandEvent>, i: nat)
    requires BeginsAt(events, i)
    ensures IdGiven(events, i) == (1 + Begins(events[..i])) % COMMAND_IDS
  {
    CounterCounts(NO_COMMANDS, events[..i]);
  }

  ghost predicate ZeroGiven(events: seq<CommandEvent>, i: int) { BeginsAt(events, i) && IdGiven(events, i) == 0 }

  /** Some command gets identifier 0, which its caller takes for a failure, exactly when 2^32 commands were begun. */
  lemma ZeroIdGivenExactly(events: seq<CommandEvent>)
    ensures (exists i :: ZeroGiven(events, i)) <==> Begins(events) >= COMMAND_IDS
  {
    if Begins(events) >= COMMAND_IDS {
      var i := NthBegin(events, COMMAND_IDS - 1);
      IdOfNth(events, i);
      assert ZeroGiven(events, i);
    }
    forall i | ZeroGiven(events, i) ensures Begins(events) >= COMMAND_IDS {
      IdOfNth(events, i);
      BeginsGrow(events, i);
      ZeroModulo(1 + Begins(events[..i]));
    }
  }

  lemma ZeroModulo(n: nat)
    requires n > 0 && n % COMMAND_IDS == 0
    ensures n >= COMMAND_IDS
  {
  }

  ghost predicate SharedGiven(events: seq<CommandEvent>, i: int, j: int) {
    BeginsAt(events, i) && BeginsAt(events, j) && i < j && IdGiven(events, i) == IdGiven(events, j)
  }

  /** Two commands of one dispatcher share an identifier exactly when more than 2^32 were begun. */
  lemma IdSharedExactly(events: seq<CommandEvent>)
    ensures (exists i, j :: SharedGiven(events, i, j)) <==> Begins(events) > COMMAND_IDS
  {
    if Begins(events) > COMMAND_IDS {
      var i := NthBegin(events, 0);
      var j := NthBegin(events, COMMAND_IDS);
      IdOfNth(events, i);
      IdOfNth(events, j);
      if j < i { BeginsBetween(events, j, i); }
      assert SharedGiven(events, i, j);
    }
    forall i, j | SharedGiven(events, i, j) ensures Begins(events) > COMMAND_IDS {
      IdOfNth(events, i);
      IdOfNth(events, j);
      BeginsBetween(events, i, j);
      BeginsGrow(events, j);
      SameModulo(1 + Begins(events[..i]), 1 + Begins(events[..j]));
    }
  }

  lemma SameModulo(m: nat, n: nat)
    requires m < n && m % COMMAND_IDS == n % COMMAND_IDS
    ensures n >= m + COMMAND_IDS
  {
  }

  /**
   * A command stays pending until it is completed or all are cleared; nobody completes a command that was never sent.
   */
  lemma {:induction false} PendingUntilSettled(c: Commands, events: seq<CommandEvent>, id: CommandId)
    requires IsPending(c, id)
    requires forall e <- events :: !e.Clear? && (e.Complete? ==> e.id != id)
    ensures IsPending(CommandRun(c, events), id)
  {
    if events != [] {
      var init, e := events[..|events| - 1], events[|events| - 1];
      PendingUntilSettled(c, init, id);
      OthersStayPending(CommandRun(c, init), e, id);
    }
  }

  lemma OthersStayPending(c: Commands, e: CommandEvent, id: CommandId)
    requires IsPending(c, id) && !e.Clear? && (e.Complete? ==> e.id != id)
    ensures IsPending(Happened(c, e), id)
  {
    var out, k := Happened(c, e).pending, IndexOfCommand(c.pending, id);
    if e.Begin? {
      assert out[k] == c.pending[k];
    } else if IsPending(c, e.id) {
      var gone := IndexOfCommand(c.pending, e.id);
      assert out[if k < gone then k else k - 1] == c.pending[k];
    }
  }

  // Runs in which the counter does not wrap past the last identifier.

  /**
   * The counter would read top if it did not wrap; every identifier handed out so far is below it, none is zero or
   * shared.
   */
  ghost predicate FreshBelow(c: Commands, top: nat) {
    && 0 < top <= COMMAND_IDS && c.nextId == top % COMMAND_IDS && c.lastCompleted < top
    && (forall p <- c.pending :: 0 < p.commandId < top)
    && (forall i, j | 0 <= i < j < |c.pending| :: c.pending[i].commandId != c.pending[j].commandId)
  }

  /** As long as identifiers last, none is zero or shared, and one that is settled never comes back. */
  lemma {:induction false} SettledStaysSettled(c: Commands, top: nat, events: seq<CommandEvent>, id: CommandId)
    requires FreshBelow(c, top) && top + Begins(events) <= COMMAND_IDS
    requires id < top && !IsPending(c, id)
    ensures FreshBelow(CommandRun(c, events), top + Begins(events)) && !IsPending(CommandRun(c, events), id)
  {
    if events != [] {
      var init, e := events[..|events| - 1], events[|events| - 1];
      SettledStaysSettled(c, top, init, id);
      HappenedKeeps(CommandRun(c, init), top + Begins(init), e, id);
    }
  }

  lemma HappenedKeeps(c: Commands, top: nat, e: CommandEvent, id: CommandId)
    requires FreshBelow(c, top) && (e.Begin? ==> top < COMMAND_IDS)
    requires id < top && !IsPending(c, id)
    ensures FreshBelow(Happened(c, e), if e.Begin? then top + 1 else top) && !IsPending(Happened(c, e), id)
  {
    assert forall p <- c.pending :: p.commandId != id;
    match e
    case Begin(t) => BegunKeeps(c, top, t);
    case Complete(other, success) => CompletedKeeps(c, top, other, success);
    case Clear =>
  }

  lemma BegunKeeps(c: Commands, top: nat, t: RelayTarget)
    requires FreshBelow(c, top) && top < COMMAND_IDS
    ensures FreshBelow(Begun(c, t), top + 1)
    ensures forall p <- Begun(c, t).pending :: p in c.pending || p == PendingCommand(top, t)
  {
    var out := Begun(c, t);
    assert c.nextId == top;
    assert forall i | 0 <= i < |c.pending| :: out.pending[i] == c.pending[i] && c.pending[i] in c.pending;
  }

  lemma CompletedKeeps(c: Commands, top: nat, other: CommandId, success: bool)
    requires FreshBelow(c, top)
    ensures FreshBelow(Completed(c, other, success), top)
    ensures forall p <- Completed(c, other, success).pending :: p in c.pending
  {
    var out := Completed(c, other, success);
    var k := IndexOfCommand(c.pending, other);
    if k < |c.pending| {
      assert c.pending[k] in c.pending;
      forall i | 0 <= i < |out.pending| ensures out.pending[i] in c.pending {
        assert out.pending[i] == c.pending[if i < k then i else i + 1];
      }
    }
  }

  /** Settling the newest command restores the list from before it. */
  lemma NewestSettled(pending: seq<PendingCommand>, p: PendingCommand)
    requires forall q <- pending :: q.commandId != p.commandId
    ensures var all, k := pending + [p], IndexOfCommand(pending + [p], p.commandId);
            k == |pending| && all[..k] + all[k + 1..] == pending
  {
    var all := pending + [p];
    assert all[|pending|] == p && forall i | 0 <= i < |pending| :: all[i] == pending[i] && pending[i] in pending;
    assert all[..|pending|] + all[|pending| + 1..] == pending;
  }

  lemma SettledAtOnce(c: Commands, top: nat, t: RelayTarget, success: bool)
    requires FreshBelow(c, top) && top < COMMAND_IDS
    ensures var settled := Completed(Begun(c, t), top, success);
            && settled == Commands(c.pending, (top + 1) % COMMAND_IDS, top, success)
            && FreshBelow(settled, top + 1) && !IsPending(settled, top)
  {
    NewestSettled(c.pending, PendingCommand(top, t));
    FreshStaysFresh(c, top, success);
  }

  lemma FreshStaysFresh(c: Commands, top: nat, success: bool)
    requires FreshBelow(c, top) && top < COMMAND_IDS
    ensures var settled := Commands(c.pending, (top + 1) % COMMAND_IDS, top, success);
            FreshBelow(settled, top + 1) && !IsPending(settled, top)
  {
    assert forall i | 0 <= i < |c.pending| :: c.pending[i] in c.pending;
  }

  /**
   * The outcome Central reads for a command, however much later, is never a success that was not reported for that
   * very command; a second answer changes nothing; and while no other command is open the outcome is exactly the
   * reported one.
   */
  lemma AnswerIsForTheCommand(c: Commands, top: nat, t: RelayTarget, success: bool, events: seq<CommandEvent>,
                              late: bool)
    requires FreshBelow(c, top) && top + 1 + Begins(events) <= COMMAND_IDS
    ensures var later := CommandRun(Completed(Begun(c, t), top, success), events);
            && Completed(later, top, late) == later
            && (WasSuccessful(later, top) ==> success)
            && (c.pending == [] && Begins(events) == 0 ==> WasSuccessful(later, top) == success)
  {
    SettledAtOnce(c, top, t, success);
    var settled := Completed(Begun(c, t), top, success);
    SettledStaysSettled(settled, top + 1, events, top);
    OutcomeStays(settled, top + 1, events, top, success);
  }

  lemma {:induction false} OutcomeStays(c: Commands, top: nat, events: seq<CommandEvent>, id: CommandId, success: bool)
    requires FreshBelow(c, top) && top + Begins(events) <= COMMAND_IDS
    requires id < top && !IsPending(c, id) && c.lastCompleted == id && c.lastSuccess == success
    ensures CommandRun(c, events).lastCompleted == id ==> CommandRun(c, events).lastSuccess == success
    ensures c.pending == [] && Begins(events) == 0 ==>
              CommandRun(c, events).pending == [] && CommandRun(c, events).lastCompleted == id
  {
    if events != [] {
      var init := events[..|events| - 1];
      OutcomeStays(c, top, init, id, success);
      SettledStaysSettled(c, top, init, id);
    }
  }

  // ---------------------------------------------------------------------------------------------------
  // The relays while the order is carried out, beside whatever else switches them
  // ---------------------------------------------------------------------------------------------------

  /**
   * The relays that conduct, how many commands were issued, which were reported how, which have acted on their relay,
   * and the relays last switched by something else (a command of another order, say), with the state it gave them.
   */
  datatype Dispatching = Dispatching(
    on: set<LoadId>,
    issued: nat,
    reported: seq<bool>,
    acted: set<nat>,
    others: map<LoadId, bool>)

  /**
   * A command may act at any time after it was issued, again, late, or never; only one that acted is reported as a
   * success. Anything else may switch any relay at any time.
   */
  datatype DispatchEvent = Issue | Act(k: nat) | Report(success: bool) | Other(id: LoadId, on: bool)

  predicate Possible(order: seq<RelayTarget>, s: Dispatching, e: DispatchEvent) {
    match e
    case Issue => s.issued < |order| && |s.reported| == s.issued
    case Act(k) => k < s.issued && k < |order|
    case Report(success) => |s.reported| + 1 == s.issued && (success ==> s.issued - 1 in s.acted)
    case Other(_, _) => true
  }

  function SwitchedTo(on: set<LoadId>, id: LoadId, state: bool): set<LoadId> {
    if state then on + {id} else on - {id}
  }

  function Advance(order: seq<RelayTarget>, s: Dispatching, e: DispatchEvent): Dispatching
    requires Possible(order, s, e)
  {
    match e
    case Issue => s.(issued := s.issued + 1)
    case Act(k) =>
      s.(on := SwitchedTo(s.on, order[k].id, order[k].desiredOn), acted := s.acted + {k},
         others := s.others - {order[k].id})
    case Report(success) => s.(reported := s.reported + [success])
    case Other(id, on) => s.(on := SwitchedTo(s.on, id, on), others := s.others[id := on])
  }

  ghost predicate StepAt(order: seq<RelayTarget>, trace: seq<Dispatching>, events: seq<DispatchEvent>, i: int)
    requires 0 <= i < |events| && |trace| == |events| + 1
  {
    Possible(order, trace[i], events[i]) && trace[i + 1] == Advance(order, trace[i], events[i])
  }

  ghost predicate Carried(order: seq<RelayTarget>, start: set<LoadId>, trace: seq<Dispatching>,
                          events: seq<DispatchEvent>) {
    && |trace| == |events| + 1 && trace[0] == Dispatching(start, 0, [], {}, map[])
    && forall i | 0 <= i < |events| :: StepAt(order, trace, events, i)
  }

  ghost predicate DistinctTargets(order: seq<RelayTarget>) {
    forall i, j | 0 <= i < j < |order| :: order[i].id != order[j].id
  }

  /** The relay of a target is as whatever acted on it last left it: something else, its own command, or nothing. */
  ghost predicate RelayAsTold(order: seq<RelayTarget>, start: set<LoadId>, s: Dispatching, k: nat)
    requires k < |order|
  {
    var t := order[k];
    t.id in s.on <==>
      if t.id in s.others then s.others[t.id] else if k in s.acted then t.desiredOn else t.id in start
  }

  ghost predicate Consistent(order: seq<RelayTarget>, start: set<LoadId>, s: Dispatching) {
    && |s.reported| <= s.issued <= |s.reported| + 1 && s.issued <= |order|
    && (forall k <- s.acted :: k < s.issued)
    && (forall k | 0 <= k < |s.reported| && s.reported[k] :: k in s.acted)
    && (forall k | 0 <= k < |order| :: RelayAsTold(order, start, s, k))
  }

  lemma AdvanceKeepsConsistent(order: seq<RelayTarget>, start: set<LoadId>, s: Dispatching, e: DispatchEvent)
    requires DistinctTargets(order) && Consistent(order, start, s) && Possible(order, s, e)
    ensures Consistent(order, start, Advance(order, s, e))
  {
    var out := Advance(order, s, e);
    forall k | 0 <= k < |order| ensures RelayAsTold(order, start, out, k) {
      assert RelayAsTold(order, start, s, k);
    }
  }

  lemma {:induction false} CarriedIsConsistent(order: seq<RelayTarget>, start: set<LoadId>, trace: seq<Dispatching>,
                                               events: seq<DispatchEvent>, i: nat)
    requires DistinctTargets(order) && Carried(order, start, trace, events) && i <= |events|
    ensures Consistent(order, start, trace[i])
  {
    if i > 0 {
      CarriedIsConsistent(order, start, trace, events, i - 1);
      assert StepAt(order, trace, events, i - 1);
      AdvanceKeepsConsistent(order, start, trace[i - 1], events[i - 1]);
    }
  }

  predicate Touches(order: seq<RelayTarget>, e: DispatchEvent, id: LoadId) {
    match e
    case Act(k) => k < |order| && order[k].id == id
    case Other(other, _) => other == id
    case _ => false
  }

  /** Event j switched the relay from elsewhere, and nothing has acted on it since. */
  ghost predicate LastOther(order: seq<RelayTarget>, events: seq<DispatchEvent>, n: nat, j: int, id: LoadId, on: bool)
    requires n <= |events|
  {
    0 <= j < n && events[j] == Other(id, on) && forall m | j < m < n :: !Touches(order, events[m], id)
  }

  predicate HeldBy(s: Dispatching, id: LoadId, on: bool) { id in s.others && s.others[id] == on }

  /** The relays something else holds are those on which, among all events, something else acted last. */
  lemma {:induction false} OthersActedLast(order: seq<RelayTarget>, start: set<LoadId>, trace: seq<Dispatching>,
                                           events: seq<DispatchEvent>, n: nat, id: LoadId, on: bool)
    requires Carried(order, start, trace, events) && n <= |events|
    ensures HeldBy(trace[n], id, on) <==> exists j :: LastOther(order, events, n, j, id, on)
  {
    if n > 0 {
      var m := n - 1;
      OthersActedLast(order, start, trace, events, m, id, on);
      assert StepAt(order, trace, events, m);
      if events[m] == Other(id, on) {
        assert LastOther(order, events, n, m, id, on);
      } else if !Touches(order, events[m], id) {
        if j :| LastOther(order, events, m, j, id, on) { assert LastOther(order, events, n, j, id, on); }
        if j :| LastOther(order, events, n, j, id, on) { assert LastOther(order, events, m, j, id, on); }
      }
    }
  }

  // Power over the targeted relays.

  type Rating = LoadId -> real

  ghost predicate NonNegative(rating: Rating) { forall id :: rating(id) >= 0.0 }

  function OnPower(order: seq<RelayTarget>, rating: Rating, on: set<LoadId>): real {
    if order == [] then 0.0
    else
      var t := order[|order| - 1];
      OnPower(order[..|order| - 1], rating, on) + if t.id in on then rating(t.id) else 0.0
  }

  /** What the plan itself draws. */
  function TargetPower(order: seq<RelayTarget>, rating: Rating): real {
    if order == [] then 0.0
    else
      var t := order[|order| - 1];
      TargetPower(order[..|order| - 1], rating) + if t.desiredOn then rating(t.id) else 0.0
  }

  /** An OFF target that conducted at the start and whose command was reported as failed (or timed out). */
  predicate Excused(order: seq<RelayTarget>, start: set<LoadId>, reported: seq<bool>, k: nat)
    requires k < |order|
  {
    !order[k].desiredOn && order[k].id in start && k < |reported| && !reported[k]
  }

  /** What stays on because an OFF command was reported as failed. */
  function FailedOffPower(order: seq<RelayTarget>, rating: Rating, start: set<LoadId>, reported: seq<bool>): real {
    if order == [] then 0.0
    else
      var k := |order| - 1;
      FailedOffPower(order[..k], rating, start, reported) +
      if Excused(order, start, reported, k) then rating(order[k].id) else 0.0
  }

  /** What something else has switched on, or on again, among the OFF targets. */
  function ForeignPower(order: seq<RelayTarget>, rating: Rating, start: set<LoadId>, s: Dispatching): real {
    if order == [] then 0.0
    else
      var k := |order| - 1;
      var t := order[k];
      ForeignPower(order[..k], rating, start, s) +
      if !t.desiredOn && HeldBy(s, t.id, true) && !Excused(order, start, s.reported, k) then rating(t.id) else 0.0
  }

  /** The targets that something else has switched on and that did not conduct at the start. */
  function Foreign(start: set<LoadId>, s: Dispatching): set<LoadId> {
    set id | id in s.others && s.others[id] && id !in start
  }

  lemma {:induction false} OffPhaseSum(order: seq<RelayTarget>, rating: Rating, start: set<LoadId>,
                                       more: set<LoadId>, on: set<LoadId>)
    requires NonNegative(rating)
    requires forall t <- order :: t.id in on ==> t.id in start || t.id in more
    ensures OnPower(order, rating, on) <= OnPower(order, rating, start) + OnPower(order, rating, more)
  {
    if order != [] {
      var t := order[|order| - 1];
      assert t in order;
      OffPhaseSum(order[..|order| - 1], rating, start, more, on);
    }
  }

  lemma {:induction false} OnPhaseSum(order: seq<RelayTarget>, rating: Rating, start: set<LoadId>, s: Dispatching)
    requires NonNegative(rating)
    requires forall k | 0 <= k < |order| && !order[k].desiredOn && order[k].id in s.on ::
               HeldBy(s, order[k].id, true) || Excused(order, start, s.reported, k)
    ensures OnPower(order, rating, s.on) <=
            TargetPower(order, rating) + FailedOffPower(order, rating, start, s.reported) +
            ForeignPower(order, rating, start, s)
  {
    if order != [] {
      var k := |order| - 1;
      var init := order[..k];
      forall j | 0 <= j < k && !init[j].desiredOn && init[j].id in s.on
        ensures HeldBy(s, init[j].id, true) || Excused(init, start, s.reported, j)
      {
        assert init[j] == order[j];
        assert HeldBy(s, order[j].id, true) || Excused(order, start, s.reported, j);
      }
      OnPhaseSum(init, rating, start, s);
    }
  }

  predicate InOffPhase(targets: seq<RelayTarget>, s: Dispatching) { s.issued <= |PhaseOf(targets, false)| }

  /**
   * The bound of an order that is alone with its relays. Until the first ON command is issued the targeted relays draw
   * no more than at the start; from then on no more than the plan plus what is left on by OFF commands reported as
   * failed.
   */
  predicate PowerBounded(targets: seq<RelayTarget>, rating: Rating, start: set<LoadId>, s: Dispatching) {
    var order := DispatchOrder(targets);
    var drawn := OnPower(order, rating, s.on);
    if InOffPhase(targets, s) then drawn <= OnPower(order, rating, start)
    else drawn <= TargetPower(order, rating) + FailedOffPower(order, rating, start, s.reported)
  }

  /** The same with what something else has meanwhile switched on. */
  predicate PowerBoundedWithOthers(targets: seq<RelayTarget>, rating: Rating, start: set<LoadId>, s: Dispatching) {
    var order := DispatchOrder(targets);
    var drawn := OnPower(order, rating, s.on);
    if InOffPhase(targets, s)
    then drawn <= OnPower(order, rating, start) + OnPower(order, rating, Foreign(start, s))
    else drawn <= TargetPower(order, rating) + FailedOffPower(order, rating, start, s.reported) +
                  ForeignPower(order, rating, start, s)
  }

  lemma PhaseOfOrder(targets: seq<RelayTarget>, k: nat)
    requires k < |DispatchOrder(targets)|
    ensures DispatchOrder(targets)[k].desiredOn <==> k >= |PhaseOf(targets, false)|
  {
    var off, on := PhaseOf(targets, false), PhaseOf(targets, true);
    if k < |off| { assert off[k] in off; } else { assert on[k - |off|] in on; }
  }

  /**
   * An OFF target that conducts in the ON phase is held on by something else, or its command was reported as failed.
   */
  lemma WhyStillOn(targets: seq<RelayTarget>, start: set<LoadId>, s: Dispatching, k: nat)
    requires Consistent(DispatchOrder(targets), start, s) && !InOffPhase(targets, s)
    requires k < |DispatchOrder(targets)| && !DispatchOrder(targets)[k].desiredOn
    ensures DispatchOrder(targets)[k].id in s.on ==>
            HeldBy(s, DispatchOrder(targets)[k].id, true) || Excused(DispatchOrder(targets), start, s.reported, k)
  {
    PhaseOfOrder(targets, k);
    assert RelayAsTold(DispatchOrder(targets), start, s, k);
  }

  /** A target that conducts in the OFF phase did so at the start, or something else has switched it on. */
  lemma WhyOnEarly(targets: seq<RelayTarget>, start: set<LoadId>, s: Dispatching, k: nat)
    requires Consistent(DispatchOrder(targets), start, s) && InOffPhase(targets, s) && k < |DispatchOrder(targets)|
    ensures DispatchOrder(targets)[k].id in s.on ==>
            DispatchOrder(targets)[k].id in start || DispatchOrder(targets)[k].id in Foreign(start, s)
  {
    assert RelayAsTold(DispatchOrder(targets), start, s, k);
    if k in s.acted { PhaseOfOrder(targets, k); }
  }

  /**
   * Power while relays are part-way switched: at every moment, whatever commands are late, lost or refused, and
   * whatever other orders overlap this one or have left commands behind.
   */
  lemma PowerSafeThroughout(targets: seq<RelayTarget>, start: set<LoadId>, trace: seq<Dispatching>,
                            events: seq<DispatchEvent>, i: nat, rating: Rating)
    requires NonNegative(rating) && DistinctTargets(DispatchOrder(targets))
    requires Carried(DispatchOrder(targets), start, trace, events) && i <= |events|
    ensures PowerBoundedWithOthers(targets, rating, start, trace[i])
  {
    var order, s := DispatchOrder(targets), trace[i];
    CarriedIsConsistent(order, start, trace, events, i);
    if InOffPhase(targets, s) {
      forall t | t in order && t.id in s.on ensures t.id in start || t.id in Foreign(start, s) {
        var k :| 0 <= k < |order| && order[k] == t;
        WhyOnEarly(targets, start, s, k);
      }
      OffPhaseSum(order, rating, start, Foreign(start, s), s.on);
    } else {
      forall k | 0 <= k < |order| && !order[k].desiredOn && order[k].id in s.on
        ensures HeldBy(s, order[k].id, true) || Excused(order, start, s.reported, k)
      {
        WhyStillOn(targets, start, s, k);
      }
      OnPhaseSum(order, rating, start, s);
    }
  }

  // When the bound of an order that is alone still holds.

  /**
   * In the OFF phase no target conducts that did not at the start; in the ON phase no OFF target conducts unless it
   * did at the start and its command was reported as failed.
   */
  ghost predicate NothingExtra(targets: seq<RelayTarget>, start: set<LoadId>, s: Dispatching) {
    var order := DispatchOrder(targets);
    if InOffPhase(targets, s) then forall k | 0 <= k < |order| && order[k].id in s.on :: order[k].id in start
    else forall k | 0 <= k < |order| && !order[k].desiredOn && order[k].id in s.on ::
           Excused(order, start, s.reported, k)
  }

  /** Only this relay has a rating. */
  function OnlyRated(id: LoadId): Rating { other => if other == id then 1.0 else 0.0 }

  lemma {:induction false} ConductingCounts(order: seq<RelayTarget>, rating: Rating, on: set<LoadId>, k: nat)
    requires NonNegative(rating) && k < |order| && order[k].id in on
    ensures OnPower(order, rating, on) >= rating(order[k].id)
  {
    if k < |order| - 1 {
      ConductingCounts(order[..|order| - 1], rating, on, k);
    } else {
      OnPowerNonNegative(order[..k], rating, on);
    }
  }

  lemma {:induction false} OnPowerNonNegative(order: seq<RelayTarget>, rating: Rating, on: set<LoadId>)
    requires NonNegative(rating)
    ensures OnPower(order, rating, on) >= 0.0
  {
    if order != [] { OnPowerNonNegative(order[..|order| - 1], rating, on); }
  }

  lemma {:induction false} UnratedOn(order: seq<RelayTarget>, id: LoadId, on: set<LoadId>)
    requires id !in on
    ensures OnPower(order, OnlyRated(id), on) == 0.0
  {
    if order != [] { UnratedOn(order[..|order| - 1], id, on); }
  }

  lemma {:induction false} UnratedPlan(order: seq<RelayTarget>, id: LoadId, start: set<LoadId>, reported: seq<bool>)
    requires forall k | 0 <= k < |order| && order[k].id == id ::
               !order[k].desiredOn && !Excused(order, start, reported, k)
    ensures TargetPower(order, OnlyRated(id)) == 0.0 && FailedOffPower(order, OnlyRated(id), start, reported) == 0.0
  {
    if order != [] {
      var init := order[..|order| - 1];
      forall k | 0 <= k < |init| && init[k].id == id
        ensures !init[k].desiredOn && !Excused(init, start, reported, k)
      {
        assert init[k] == order[k] && !Excused(order, start, reported, k);
      }
      UnratedPlan(init, id, start, reported);
    }
  }

  /** One relay that conducts beyond what the bound allows defeats it for some rating. */
  lemma ExtraDefeatsBound(targets: seq<RelayTarget>, start: set<LoadId>, s: Dispatching, k: nat)
    requires DistinctTargets(DispatchOrder(targets)) && k < |DispatchOrder(targets)|
    requires var order := DispatchOrder(targets);
             && order[k].id in s.on
             && if InOffPhase(targets, s) then order[k].id !in start
                else !order[k].desiredOn && !Excused(order, start, s.reported, k)
    ensures NonNegative(OnlyRated(DispatchOrder(targets)[k].id))
    ensures !PowerBounded(targets, OnlyRated(DispatchOrder(targets)[k].id), start, s)
  {
    var order := DispatchOrder(targets);
    var id := order[k].id;
    ConductingCounts(order, OnlyRated(id), s.on, k);
    if InOffPhase(targets, s) {
      UnratedOn(order, id, start);
    } else {
      forall j | 0 <= j < |order| && order[j].id == id
        ensures !order[j].desiredOn && !Excused(order, start, s.reported, j)
      {
        assert j == k;
      }
      UnratedPlan(order, id, start, s.reported);
    }
  }

  lemma NothingExtraIsBounded(targets: seq<RelayTarget>, start: set<LoadId>, s: Dispatching, rating: Rating)
    requires NonNegative(rating) && NothingExtra(targets, start, s)
    ensures PowerBounded(targets, rating, start, s)
  {
    var order := DispatchOrder(targets);
    if InOffPhase(targets, s) {
      forall t | t in order && t.id in s.on ensures t.id in start {
        var k :| 0 <= k < |order| && order[k] == t;
      }
      OffPhaseSum(order, rating, start, {}, s.on);
      NothingOn(order, rating);
    } else {
      var alone := s.(others := map[]);
      OnPhaseSum(order, rating, start, alone);
      NothingForeign(order, rating, start, alone);
    }
  }

  lemma {:induction false} NothingOn(order: seq<RelayTarget>, rating: Rating)
    ensures OnPower(order, rating, {}) == 0.0
  {
    if order != [] { NothingOn(order[..|order| - 1], rating); }
  }

  lemma {:induction false} NothingForeign(order: seq<RelayTarget>, rating: Rating, start: set<LoadId>, s: Dispatching)
    requires s.others == map[]
    ensures ForeignPower(order, rating, start, s) == 0.0
  {
    if order != [] { NothingForeign(order[..|order| - 1], rating, start, s); }
  }

  /** The bound of an order that is alone holds for every rating exactly when nothing extra conducts. */
  lemma BoundHoldsExactly(targets: seq<RelayTarget>, start: set<LoadId>, s: Dispatching)
    requires DistinctTargets(DispatchOrder(targets))
    ensures (forall rating | NonNegative(rating) :: PowerBounded(targets, rating, start, s)) <==>
            NothingExtra(targets, start, s)
  {
    var order := DispatchOrder(targets);
    if NothingExtra(targets, start, s) {
      forall rating | NonNegative(rating) ensures PowerBounded(targets, rating, start, s) {
        NothingExtraIsBounded(targets, start, s, rating);
      }
    } else if InOffPhase(targets, s) {
      var k :| 0 <= k < |order| && order[k].id in s.on && order[k].id !in start;
      ExtraDefeatsBound(targets, start, s, k);
    } else {
      var k :| 0 <= k < |order| && !order[k].desiredOn && order[k].id in s.on &&
               !Excused(order, start, s.reported, k);
      ExtraDefeatsBound(targets, start, s, k);
    }
  }

  /** The target may conduct at this stage whoever switched it on. */
  predicate Allowed(targets: seq<RelayTarget>, start: set<LoadId>, s: Dispatching, k: nat)
    requires k < |DispatchOrder(targets)|
  {
    var order := DispatchOrder(targets);
    if InOffPhase(targets, s) then order[k].id in start
    else order[k].desiredOn || Excused(order, start, s.reported, k)
  }

  /** The bound holds for every rating exactly when something else holds no target on that must not conduct. */
  lemma HeldOnlyWhereAllowed(targets: seq<RelayTarget>, start: set<LoadId>, s: Dispatching)
    requires DistinctTargets(DispatchOrder(targets)) && Consistent(DispatchOrder(targets), start, s)
    ensures (forall rating | NonNegative(rating) :: PowerBounded(targets, rating, start, s)) <==>
            forall k | 0 <= k < |DispatchOrder(targets)| && HeldBy(s, DispatchOrder(targets)[k].id, true) ::
              Allowed(targets, start, s, k)
  {
    var order := DispatchOrder(targets);
    BoundHoldsExactly(targets, start, s);
    forall k | 0 <= k < |order|
      ensures HeldBy(s, order[k].id, true) ==> order[k].id in s.on
      ensures order[k].id in s.on && !Allowed(targets, start, s, k) ==> HeldBy(s, order[k].id, true)
    {
      assert RelayAsTold(order, start, s, k);
      if InOffPhase(targets, s) {
        WhyOnEarly(targets, start, s, k);
      } else if !order[k].desiredOn {
        WhyStillOn(targets, start, s, k);
      }
    }
    assert NothingExtra(targets, start, s) <==>
           forall k | 0 <= k < |order| && order[k].id in s.on :: Allowed(targets, start, s, k);
  }

  /**
   * On events: exactly when, on no target that must not conduct, something else was the last to act and switched it
   * on.
   */
  lemma BoundHoldsExactlyOnEvents(targets: seq<RelayTarget>, start: set<LoadId>, trace: seq<Dispatching>,
                                  events: seq<DispatchEvent>, n: nat)
    requires DistinctTargets(DispatchOrder(targets))
    requires Carried(DispatchOrder(targets), start, trace, events) && n <= |events|
    ensures (forall rating | NonNegative(rating) :: PowerBounded(targets, rating, start, trace[n])) <==>
            forall k, j | 0 <= k < |DispatchOrder(targets)| &&
                          LastOther(DispatchOrder(targets), events, n, j, DispatchOrder(targets)[k].id, true) ::
              Allowed(targets, start, trace[n], k)
  {
    var order, s := DispatchOrder(targets), trace[n];
    CarriedIsConsistent(order, start, trace, events, n);
    HeldOnlyWhereAllowed(targets, start, s);
    forall k | 0 <= k < |order|
      ensures (exists j :: LastOther(order, events, n, j, order[k].id, true)) <==> HeldBy(s, order[k].id, true)
    {
      OthersActedLast(order, start, trace, events, n, order[k].id, true);
    }
  }

  /** Once every command was reported a success, each relay is as planned unless something else acted on it last. */
  lemma AllReportedMeansAsPlanned(order: seq<RelayTarget>, start: set<LoadId>, trace: seq<Dispatching>,
                                  events: seq<DispatchEvent>, i: nat)
    requires DistinctTargets(order) && Carried(order, start, trace, events) && i <= |events|
    requires |trace[i].reported| == |order| && forall k | 0 <= k < |order| :: trace[i].reported[k]
    ensures var s := trace[i];
            forall t <- order :: t.id in s.on <==> if t.id in s.others then s.others[t.id] else t.desiredOn
    ensures var s := trace[i];
            (forall t <- order :: t.id in s.on <==> t.desiredOn) <==>
            (forall t <- order :: !HeldBy(s, t.id, !t.desiredOn))
  {
    CarriedIsConsistent(order, start, trace, events, i);
    forall t | t in order
      ensures t.id in trace[i].on <==> if t.id in trace[i].others then trace[i].others[t.id] else t.desiredOn
    {
      var k :| 0 <= k < |order| && order[k] == t;
      assert RelayAsTold(order, start, trace[i], k);
    }
  }

  /** The plan's demand does not depend on how the targets are ordered. */
  lemma TargetPowerOfOrder(targets: seq<RelayTarget>, rating: Rating)
    ensures TargetPower(DispatchOrder(targets), rating) == TargetPower(targets, rating)
  {
    TargetPowerAppend(PhaseOf(targets, false), PhaseOf(targets, true), rating);
    TargetPowerOfPhases(targets, rating);
  }

  lemma {:induction false} TargetPowerAppend(a: seq<RelayTarget>, b: seq<RelayTarget>, rating: Rating)
    ensures TargetPower(a + b, rating) == TargetPower(a, rating) + TargetPower(b, rating)
  {
    if b == [] {
      assert a + b == a;
    } else {
      assert (a + b)[..|a + b| - 1] == a + b[..|b| - 1];
      TargetPowerAppend(a, b[..|b| - 1], rating);
    }
  }

  lemma {:induction false} TargetPowerOfPhases(targets: seq<RelayTarget>, rating: Rating)
    ensures TargetPower(PhaseOf(targets, false), rating) == 0.0
    ensures TargetPower(PhaseOf(targets, true), rating) == TargetPower(targets, rating)
  {
    if targets != [] {
      TargetPowerOfPhases(targets[..|targets| - 1], rating);
    }
  }
}
