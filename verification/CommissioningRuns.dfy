/** Central and one Node over a radio that loses, repeats, delays and reorders. */
module CommissioningRuns {
  import opened Common
  import opened Commissioning

  /** A command Central has sent. */
  datatype Command = Commission(id: CommandId, name: Text) | Decommission

  /**
   * Everything sent stays deliverable for ever. The last four fields are history and decide nothing: which commission
   * commands the Node has accepted, which command last changed its identity, which one Central's name was committed
   * from, and whether commands have so far reached the Node in the order they were sent.
   */
  datatype World = World(
    record: Option<Record>,
    node: Identity,
    commands: seq<Command>,
    acks: seq<Ack>,
    accepted: set<nat>,
    applied: Option<nat>,
    committed: Option<nat>,
    latest: nat,
    inOrder: bool)

  const START := World(None, NO_IDENTITY, [], [], {}, None, None, 0, true)

  datatype Event =
    | Report(mac: MacAddress, board: Board)          // the Node's identity report reaches Central
    | Request(name: Text, id: CommandId)             // a user commissions or renames the Node
    | Dismiss(routed: bool)                          // a user decommissions the Node
    | Arrive(k: nat, free: bool, stored: bool)       // command k reaches the Node (free: it could work on it)
    | Answer(k: nat)                                 // acknowledgement k reaches Central

  predicate Feasible(w: World, e: Event) {
    match e
    case Report(_, _) => true
    case Request(_, _) => w.record.Some?
    case Dismiss(_) => w.record.Some?
    case Arrive(k, _, _) => k < |w.commands|
    case Answer(k) => k < |w.acks|
  }

  ghost predicate UsedId(w: World, id: CommandId) {
    exists k :: 0 <= k < |w.commands| && w.commands[k].Commission? && w.commands[k].id == id
  }

  /** Users issue each command under an identifier of its own. */
  ghost predicate Possible(w: World, e: Event) {
    Feasible(w, e) && (e.Request? ==> !UsedId(w, e.id))
  }

  function Arrived(w: World, k: nat, free: bool, stored: bool): World
    requires k < |w.commands|
  {
    var seen := w.(inOrder := w.inOrder && w.latest <= k, latest := if w.latest <= k then k else w.latest);
    match w.commands[k]
    case Decommission => if free && stored then seen.(node := NO_IDENTITY, applied := Some(k)) else seen
    case Commission(id, name) =>
      var answered := seen.(acks := w.acks + [AckFor(w.node, name, id, free, stored)]);
      if Takes(w.node, name, free, stored)
      then answered.(node := Named(w.node, name), accepted := w.accepted + {k}, applied := Some(k))
      else answered
  }

  function Answered(w: World, a: Ack): World
    requires w.record.Some?
  {
    if !Awaited(w.record.value, a.id) then w
    else w.(record := Some(Acknowledged(w.record.value, a.id, a.success, a.state)),
            committed := if a.success && |w.commands| > 0 then Some(|w.commands| - 1) else w.committed)
  }

  function Next(w: World, e: Event): World
    requires Feasible(w, e)
  {
    match e
    case Report(mac, board) =>
      w.(record := Some(if w.record.Some? then Rediscovered(w.record.value, board) else NewRecord(mac, board)))
    case Request(name, id) =>
      if Requestable(w.record.value, name)
      then w.(record := Some(Requested(w.record.value, name, id)), commands := w.commands + [Commission(id, name)])
      else w
    case Dismiss(routed) =>
      if Dismissable(w.record.value)
      then w.(record := Some(Dismissed(w.record.value)), committed := None,
              commands := if routed then w.commands + [Decommission] else w.commands)
      else w
    case Arrive(k, free, stored) => Arrived(w, k, free, stored)
    case Answer(k) => if w.record.Some? then Answered(w, w.acks[k]) else w
  }

  /** The worlds these events lead through. */
  ghost predicate Leads(trace: seq<World>, events: seq<Event>) {
    && |trace| == |events| + 1
    && forall i | 0 <= i < |events| :: StepAt(trace, events, i)
  }

  ghost predicate StepAt(trace: seq<World>, events: seq<Event>, i: int)
    requires 0 <= i < |events| && |trace| == |events| + 1
  {
    Possible(trace[i], events[i]) && trace[i + 1] == Next(trace[i], events[i])
  }

  ghost predicate History(trace: seq<World>, events: seq<Event>) {
    Leads(trace, events) && trace[0] == START
  }

  // ---------------------------------------------------------------------------------------------------
  // What every reachable world satisfies
  // ---------------------------------------------------------------------------------------------------

  ghost predicate DistinctIds(w: World) {
    forall i, j | 0 <= i < j < |w.commands| && w.commands[i].Commission? && w.commands[j].Commission? ::
      w.commands[i].id != w.commands[j].id
  }

  ghost predicate NamedBy(w: World, name: Text, at: Option<nat>) {
    match at
    case None => name == ""
    case Some(k) =>
      k < |w.commands| && name == if w.commands[k].Commission? then w.commands[k].name else ""
  }

  ghost predicate Pended(w: World) {
    w.record.Some? && w.record.value.sync.Pending? ==>
      |w.commands| > 0 && w.commands[|w.commands| - 1] ==
          Commission(w.record.value.pendingId, w.record.value.pendingName)
  }

  ghost predicate AckedByNode(w: World, a: Ack) {
    exists k :: 0 <= k < |w.commands| && w.commands[k].Commission? && w.commands[k].id == a.id &&
        (a.success ==> k in w.accepted)
  }

  ghost predicate ValidNames(w: World) {
    forall k | 0 <= k < |w.commands| && w.commands[k].Commission? :: ValidName(w.commands[k].name)
  }

  ghost predicate Inv(w: World) {
    && DistinctIds(w) && ValidNames(w) && Pended(w)
    && (forall k <- w.accepted :: k < |w.commands| && w.commands[k].Commission? && k <= w.latest)
    && (forall a <- w.acks :: AckedByNode(w, a))
    && (w.commands == [] ==> w.latest == 0 && w.applied == None) && (w.commands != [] ==> w.latest < |w.commands|)
    && NamedBy(w, w.node.name, w.applied) && (w.node.lifecycle.Uncommissioned? || w.node.lifecycle.Commissioned?)
    && (match w.record
        case None => w.committed == None && w.commands == []
        case Some(r) => NamedBy(w, r.name, w.committed))
    && (w.committed.Some? ==> w.committed.value in w.accepted)
    && (w.inOrder && w.commands != [] && |w.commands| - 1 in w.accepted ==> w.applied == Some(|w.commands| - 1))
  }

  lemma OneCommandPerId(w: World, i: nat, j: nat)
    requires DistinctIds(w) && i < |w.commands| && j < |w.commands|
    requires w.commands[i].Commission? && w.commands[j].Commission? && w.commands[i].id == w.commands[j].id
    ensures i == j
  {
  }

  lemma RequestKeepsInv(w: World, name: Text, id: CommandId)
    requires Inv(w) && Possible(w, Request(name, id))
    ensures Inv(Next(w, Request(name, id)))
  {
    var out := Next(w, Request(name, id));
    if Requestable(w.record.value, name) {
      var n := |w.commands|;
      assert forall k | 0 <= k < n :: out.commands[k] == w.commands[k];
      forall i, j | 0 <= i < j < |out.commands| && out.commands[i].Commission? && out.commands[j].Commission?
        ensures out.commands[i].id != out.commands[j].id
      {
        if j == n { assert w.commands[i].Commission?; }
      }
      AcksKeep(w, out);
      assert n !in w.accepted;
    }
  }

  lemma AcksKeep(w: World, out: World)
    requires forall a <- w.acks :: AckedByNode(w, a)
    requires |w.commands| <= |out.commands| && forall k | 0 <= k < |w.commands| :: out.commands[k] == w.commands[k]
    requires w.accepted <= out.accepted
    ensures forall a <- w.acks :: AckedByNode(out, a)
  {
    forall a <- w.acks ensures AckedByNode(out, a) {
      assert AckedByNode(w, a);
      var k :| 0 <= k < |w.commands| && w.commands[k].Commission? && w.commands[k].id == a.id &&
          (a.success ==> k in w.accepted);
      assert out.commands[k] == w.commands[k];
    }
  }

  lemma DismissKeepsInv(w: World, routed: bool)
    requires Inv(w) && Possible(w, Dismiss(routed))
    ensures Inv(Next(w, Dismiss(routed)))
  {
    var out := Next(w, Dismiss(routed));
    if Dismissable(w.record.value) {
      assert forall k | 0 <= k < |w.commands| :: out.commands[k] == w.commands[k];
      AcksKeep(w, out);
    }
  }

  lemma ArriveKeepsInv(w: World, k: nat, free: bool, stored: bool)
    requires Inv(w) && k < |w.commands|
    ensures Inv(Arrived(w, k, free, stored))
  {
    match w.commands[k]
    case Decommission => AcksKeep(w, Arrived(w, k, free, stored));
    case Commission(_, _) => CommissionArrives(w, k, free, stored);
  }

  lemma CommissionArrives(w: World, k: nat, free: bool, stored: bool)
    requires Inv(w) && k < |w.commands| && w.commands[k].Commission?
    ensures Inv(Arrived(w, k, free, stored))
  {
    var out, c := Arrived(w, k, free, stored), w.commands[k];
    var a := AckFor(w.node, c.name, c.id, free, stored);
    AcksKeep(w, out);
    assert out.commands[k].id == a.id && AckedByNode(out, a);
    assert out.acks == w.acks + [a];
    assert NamedBy(out, out.node.name, out.applied);
  }

  /** The awaited success is for the newest command, and the Node has accepted it. */
  lemma AwaitedIsNewest(w: World, a: Ack)
    requires Inv(w) && a in w.acks && w.record.Some? && Awaited(w.record.value, a.id)
    ensures |w.commands| > 0 && w.commands[|w.commands| - 1] == Commission(a.id, w.record.value.pendingName)
    ensures a.success ==> |w.commands| - 1 in w.accepted
  {
    assert AckedByNode(w, a);
    var k :| 0 <= k < |w.commands| && w.commands[k].Commission? && w.commands[k].id == a.id &&
        (a.success ==> k in w.accepted);
    OneCommandPerId(w, k, |w.commands| - 1);
  }

  lemma AnswerKeepsInv(w: World, a: Ack)
    requires Inv(w) && a in w.acks && w.record.Some?
    ensures Inv(Answered(w, a))
  {
    if Awaited(w.record.value, a.id) {
      AwaitedIsNewest(w, a);
      AcksKeep(w, Answered(w, a));
    }
  }

  lemma NextKeepsInv(w: World, e: Event)
    requires Inv(w) && Possible(w, e)
    ensures Inv(Next(w, e))
  {
    match e
    case Report(_, _) => AcksKeep(w, Next(w, e));
    case Request(name, id) => RequestKeepsInv(w, name, id);
    case Dismiss(routed) => DismissKeepsInv(w, routed);
    case Arrive(k, free, stored) => ArriveKeepsInv(w, k, free, stored);
    case Answer(k) =>
      if w.record.Some? {
        assert w.acks[k] in w.acks;
        AnswerKeepsInv(w, w.acks[k]);
      }
  }

  lemma {:induction false} LeadsKeepsInv(trace: seq<World>, events: seq<Event>, i: nat)
    requires Leads(trace, events) && i <= |events| && Inv(trace[0])
    ensures Inv(trace[i])
  {
    if i > 0 {
      LeadsKeepsInv(trace, events, i - 1);
      assert StepAt(trace, events, i - 1);
      NextKeepsInv(trace[i - 1], events[i - 1]);
    }
  }

  lemma HistoryKeepsInv(trace: seq<World>, events: seq<Event>, i: nat)
    requires History(trace, events) && i <= |events|
    ensures Inv(trace[i])
  {
    LeadsKeepsInv(trace, events, i);
  }

  /** A longer history. */
  lemma Extend(trace: seq<World>, events: seq<Event>, e: Event) returns (trace': seq<World>, events': seq<Event>)
    requires Leads(trace, events) && Possible(trace[|events|], e)
    ensures trace' == trace + [Next(trace[|events|], e)] && events' == events + [e] && Leads(trace', events')
  {
    trace', events' := trace + [Next(trace[|events|], e)], events + [e];
    forall i | 0 <= i < |events'| ensures StepAt(trace', events', i) {
      if i < |events| { assert StepAt(trace, events, i); }
    }
  }

  // ---------------------------------------------------------------------------------------------------
  // What Central may conclude
  // ---------------------------------------------------------------------------------------------------

  /** Whatever was lost, repeated or late: a name Central shows is one the Node has accepted under a command for it. */
  lemma CommittedNameWasAccepted(trace: seq<World>, events: seq<Event>, i: nat)
    requires History(trace, events) && i <= |events|
    ensures var w := trace[i];
            w.record.Some? && w.record.value.name != "" ==>
            exists k :: k in w.accepted && k < |w.commands| && w.commands[k].Commission? &&
                w.commands[k].name == w.record.value.name
  {
    HistoryKeepsInv(trace, events, i);
  }

  /**
   * An acknowledgement changes something exactly when it is the awaited one; a name it commits is the one last asked
   * for, and the Node has accepted it under that very command.
   */
  lemma CommitsOnlyTheLatest(trace: seq<World>, events: seq<Event>, i: nat, k: nat)
    requires History(trace, events) && i <= |events| && k < |trace[i].acks|
    ensures var w, a := trace[i], trace[i].acks[k];
            var after := Next(w, Answer(k));
            && w.record.Some? && after.record.Some?
            && (after != w <==> Awaited(w.record.value, a.id))
            && (Awaited(w.record.value, a.id) ==>
                  var r, s := w.record.value, after.record.value;
                  && s.lifecycle == a.state && s.pendingName == "" && (a.success ==> s.name == r.pendingName)
                  && (!a.success ==> s.name == r.name && s.sync.SyncFailed?) && (a.success ==> s.sync.Synced?))
            && (Awaited(w.record.value, a.id) && a.success ==>
                  |w.commands| > 0 && |w.commands| - 1 in w.accepted &&
                  w.commands[|w.commands| - 1] == Commission(a.id, after.record.value.name))
  {
    HistoryKeepsInv(trace, events, i);
    var w, a := trace[i], trace[i].acks[k];
    assert a in w.acks && AckedByNode(w, a);
    if Awaited(w.record.value, a.id) { AwaitedIsNewest(w, a); }
  }

  /** An identifier whose acknowledgements can no longer matter. */
  ghost predicate Dead(w: World, id: CommandId) {
    UsedId(w, id) && w.record.Some? && !Awaited(w.record.value, id)
  }

  /** Superseding a command, decommissioning, or taking its answer makes it dead. */
  lemma WhatKills(w: World, e: Event, id: CommandId)
    requires Possible(w, e) && UsedId(w, id) && w.record.Some?
    requires (e.Request? && Requestable(w.record.value, e.name)) || (e.Dismiss? && Dismissable(w.record.value)) ||
             (e.Answer? && w.acks[e.k].id == id)
    ensures Dead(Next(w, e), id)
  {
    var k :| 0 <= k < |w.commands| && w.commands[k].Commission? && w.commands[k].id == id;
    assert Next(w, e).commands[k] == w.commands[k];
  }

  lemma DeadStaysDead(w: World, e: Event, id: CommandId)
    requires Dead(w, id) && Possible(w, e)
    ensures Dead(Next(w, e), id)
  {
    var k :| 0 <= k < |w.commands| && w.commands[k].Commission? && w.commands[k].id == id;
    assert Next(w, e).commands[k] == w.commands[k];
  }

  lemma {:induction false} DeadLater(trace: seq<World>, events: seq<Event>, i: nat, j: nat, id: CommandId)
    requires Leads(trace, events) && i <= j <= |events| && Dead(trace[i], id)
    ensures Dead(trace[j], id)
  {
    if i < j {
      DeadLater(trace, events, i, j - 1, id);
      assert StepAt(trace, events, j - 1);
      DeadStaysDead(trace[j - 1], events[j - 1], id);
    }
  }

  /**
   * From then on, in every later world, its acknowledgements change nothing at all: each answer takes effect at most
   * once, and none does after it was superseded or the Node decommissioned.
   */
  lemma DeadAnswersChangeNothing(trace: seq<World>, events: seq<Event>, i: nat, j: nat, id: CommandId, k: nat)
    requires History(trace, events) && i <= j <= |events| && Dead(trace[i], id)
    requires k < |trace[j].acks| && trace[j].acks[k].id == id
    ensures Next(trace[j], Answer(k)) == trace[j]
  {
    DeadLater(trace, events, i, j, id);
  }

  // ---------------------------------------------------------------------------------------------------
  // When both ends agree on the name
  // ---------------------------------------------------------------------------------------------------

  /** The event is a command the Node takes: it changes the Node's identity. */
  predicate Taken(w: World, e: Event) {
    e.Arrive? && e.k < |w.commands| &&
    match w.commands[e.k]
    case Decommission => e.free && e.stored
    case Commission(_, name) => Takes(w.node, name, e.free, e.stored)
  }

  predicate TakenFor(w: World, e: Event, name: Text) {
    Taken(w, e) && w.commands[e.k].Commission? && w.commands[e.k].name == name
  }

  /** Event j brought the Node this name, and no command the Node took since was a decommission or brought another. */
  ghost predicate LastBrought(trace: seq<World>, events: seq<Event>, n: nat, j: int, name: Text)
    requires |trace| == |events| + 1 && n <= |events|
  {
    && 0 <= j < n && TakenFor(trace[j], events[j], name)
    && forall i | j < i < n && Taken(trace[i], events[i]) :: TakenFor(trace[i], events[i], name)
  }

  /** The Node's name is the one some command brought it last. */
  lemma {:induction false} NameWasBrought(trace: seq<World>, events: seq<Event>, n: nat, name: Text)
    requires History(trace, events) && n <= |events| && name != ""
    ensures trace[n].node.name == name <==> exists j :: LastBrought(trace, events, n, j, name)
  {
    if n > 0 {
      var m := n - 1;
      NameWasBrought(trace, events, m, name);
      assert StepAt(trace, events, m);
      HistoryKeepsInv(trace, events, m);
      if Taken(trace[m], events[m]) {
        if TakenFor(trace[m], events[m], name) { assert LastBrought(trace, events, n, m, name); }
        BroughtName(trace[m], events[m], name);
      } else {
        NotTaken(trace[m], events[m]);
        if j :| LastBrought(trace, events, m, j, name) { assert LastBrought(trace, events, n, j, name); }
        if j :| LastBrought(trace, events, n, j, name) { assert LastBrought(trace, events, m, j, name); }
      }
    }
  }

  lemma BroughtName(w: World, e: Event, name: Text)
    requires Inv(w) && Taken(w, e) && name != ""
    ensures Next(w, e).node.name == name <==> TakenFor(w, e, name)
  {
  }

  lemma NotTaken(w: World, e: Event)
    requires Feasible(w, e) && !Taken(w, e)
    ensures Next(w, e).node == w.node
  {
  }

  /**
   * A committed newest name is the Node's own exactly when some arrival brought it to the Node and no later one that
   * the Node took was a decommission or brought another name.
   */
  lemma NamesAgree(trace: seq<World>, events: seq<Event>, n: nat)
    requires History(trace, events) && n <= |events|
    requires trace[n].commands != [] && trace[n].committed == Some(|trace[n].commands| - 1)
    ensures trace[n].record.Some? && trace[n].commands[|trace[n].commands| - 1].Commission?
    ensures trace[n].record.value.name == trace[n].commands[|trace[n].commands| - 1].name
    ensures trace[n].record.value.name == trace[n].node.name <==>
            exists j :: LastBrought(trace, events, n, j, trace[n].record.value.name)
  {
    HistoryKeepsInv(trace, events, n);
    NameWasBrought(trace, events, n, trace[n].record.value.name);
  }

  ghost predicate ArrivedBefore(events: seq<Event>, n: nat, k: nat)
    requires n <= |events|
  {
    exists j :: 0 <= j < n && events[j].Arrive? && events[j].k == k
  }

  /** The radio repeats no command. */
  ghost predicate NoCommandTwice(events: seq<Event>) {
    forall i, j | 0 <= i < j < |events| && events[i].Arrive? && events[j].Arrive? :: events[i].k != events[j].k
  }

  /** Central sends a command only when all it sent before have reached the Node. */
  ghost predicate OneAtATime(trace: seq<World>, events: seq<Event>)
    requires |trace| == |events| + 1
  {
    forall i, k | 0 <= i < |events| && 0 <= k < |trace[i].commands| && |trace[i].commands| < |trace[i + 1].commands| ::
      ArrivedBefore(events, i, k)
  }

  lemma {:induction false} AllButNewestArrived(trace: seq<World>, events: seq<Event>, n: nat, k: nat)
    requires History(trace, events) && OneAtATime(trace, events) && n <= |events|
    requires k + 1 < |trace[n].commands|
    ensures ArrivedBefore(events, n, k)
  {
    assert n > 0;
    assert StepAt(trace, events, n - 1);
    if k + 1 < |trace[n - 1].commands| {
      AllButNewestArrived(trace, events, n - 1, k);
    } else {
      assert |trace[n - 1].commands| < |trace[n].commands| && k < |trace[n - 1].commands|;
      assert ArrivedBefore(events, n - 1, k);
    }
  }

  lemma {:induction false} StaysInOrder(trace: seq<World>, events: seq<Event>, n: nat)
    requires History(trace, events) && OneAtATime(trace, events) && NoCommandTwice(events) && n <= |events|
    ensures trace[n].inOrder
  {
    if n > 0 {
      var w, e := trace[n - 1], events[n - 1];
      StaysInOrder(trace, events, n - 1);
      HistoryKeepsInv(trace, events, n - 1);
      assert StepAt(trace, events, n - 1);
      if e.Arrive? {
        ArrivesFirstTime(events, n - 1);
        if e.k + 1 < |w.commands| { AllButNewestArrived(trace, events, n - 1, e.k); }
      }
    }
  }

  lemma ArrivesFirstTime(events: seq<Event>, n: nat)
    requires NoCommandTwice(events) && n < |events| && events[n].Arrive?
    ensures !ArrivedBefore(events, n, events[n].k)
  {
  }

  /** What Central can do about it: one command at a time over a radio that repeats none keeps both names the same. */
  lemma CarefulNamesAgree(trace: seq<World>, events: seq<Event>, n: nat)
    requires History(trace, events) && OneAtATime(trace, events) && NoCommandTwice(events) && n <= |events|
    requires trace[n].commands != [] && trace[n].committed == Some(|trace[n].commands| - 1)
    ensures trace[n].record.Some? && trace[n].record.value.name == trace[n].node.name
  {
    StaysInOrder(trace, events, n);
    HistoryKeepsInv(trace, events, n);
  }

  // ---------------------------------------------------------------------------------------------------
  // What an acknowledgement says
  // ---------------------------------------------------------------------------------------------------

  /** Acknowledgement k was sent at event j. */
  ghost predicate AckedAt(trace: seq<World>, events: seq<Event>, j: int, k: nat)
    requires |trace| == |events| + 1
  {
    && 0 <= j < |events| && events[j].Arrive? && events[j].k < |trace[j].commands| && |trace[j].acks| == k
    && trace[j].commands[events[j].k].Commission?
  }

  lemma {:induction false} AckOrigin(trace: seq<World>, events: seq<Event>, n: nat, k: nat) returns (j: nat)
    requires History(trace, events) && n <= |events| && k < |trace[n].acks|
    ensures j < n && AckedAt(trace, events, j, k)
    ensures var c := trace[j].commands[events[j].k];
            trace[n].acks[k] == AckFor(trace[j].node, c.name, c.id, events[j].free, events[j].stored)
  {
    assert n > 0;
    assert StepAt(trace, events, n - 1);
    if k < |trace[n - 1].acks| {
      j := AckOrigin(trace, events, n - 1, k);
    } else {
      j := n - 1;
    }
  }

  /** So a commission command Central holds an answer to has reached the Node. */
  lemma AnsweredHasArrived(trace: seq<World>, events: seq<Event>, n: nat, c: nat, k: nat)
    requires History(trace, events) && n <= |events| && c < |trace[n].commands| && trace[n].commands[c].Commission?
    requires k < |trace[n].acks| && trace[n].acks[k].id == trace[n].commands[c].id
    ensures ArrivedBefore(events, n, c)
  {
    var j := AckOrigin(trace, events, n, k);
    HistoryKeepsInv(trace, events, n);
    CommandsStay(trace, events, j, n);
    OneCommandPerId(trace[n], events[j].k, c);
  }

  lemma {:induction false} CommandsStay(trace: seq<World>, events: seq<Event>, i: nat, j: nat)
    requires Leads(trace, events) && i <= j <= |events|
    ensures |trace[i].commands| <= |trace[j].commands|
    ensures forall k | 0 <= k < |trace[i].commands| :: trace[j].commands[k] == trace[i].commands[k]
  {
    if i < j {
      CommandsStay(trace, events, i, j - 1);
      assert StepAt(trace, events, j - 1);
    }
  }

  /** Event m is the last at which the Node took a command. */
  ghost predicate TookLast(trace: seq<World>, events: seq<Event>, n: nat, m: int)
    requires |trace| == |events| + 1 && n <= |events|
  {
    0 <= m < n && Taken(trace[m], events[m]) && forall i | m < i < n :: !Taken(trace[i], events[i])
  }

  predicate BroughtCommission(w: World, e: Event) {
    e.Arrive? && e.k < |w.commands| && w.commands[e.k].Commission?
  }

  lemma {:induction false} UntakenStays(trace: seq<World>, events: seq<Event>, i: nat, n: nat)
    requires Leads(trace, events) && i <= n <= |events|
    requires forall m | i <= m < n :: !Taken(trace[m], events[m])
    ensures trace[n].node == trace[i].node
  {
    if i < n {
      UntakenStays(trace, events, i, n - 1);
      assert StepAt(trace, events, n - 1);
      NotTaken(trace[n - 1], events[n - 1]);
    }
  }

  /** A Node is commissioned exactly if the last command it took was a commission. */
  lemma LastTakenDecides(trace: seq<World>, events: seq<Event>, n: nat, m: nat)
    requires History(trace, events) && n <= |events| && TookLast(trace, events, n, m)
    ensures trace[n].node.lifecycle.Commissioned? <==> BroughtCommission(trace[m], events[m])
  {
    assert StepAt(trace, events, m);
    HistoryKeepsInv(trace, events, m);
    UntakenStays(trace, events, m + 1, n);
  }

  lemma {:induction false} FindTookLast(trace: seq<World>, events: seq<Event>, i: nat, n: nat) returns (m: int)
    requires |trace| == |events| + 1 && i <= n <= |events|
    ensures m == -1 ==> forall l | i <= l < n :: !Taken(trace[l], events[l])
    ensures m != -1 ==> i <= m && TookLast(trace, events, n, m)
  {
    if i == n {
      m := -1;
    } else if Taken(trace[n - 1], events[n - 1]) {
      m := n - 1;
    } else {
      m := FindTookLast(trace, events, i, n - 1);
    }
  }

  /** Two events cannot both be the last. */
  lemma OneTookLast(trace: seq<World>, events: seq<Event>, n: nat, l: int, m: int)
    requires |trace| == |events| + 1 && n <= |events|
    requires TookLast(trace, events, n, l) && TookLast(trace, events, n, m)
    ensures l == m
  {
  }

  /**
   * The lifecycle Central takes over from an awaited answer is the Node's exactly when the last command the Node has
   * taken since, if any, is a commission just if the answer says commissioned; or, from a Node that was busy, when the
   * last command the Node ever took, if any, is a decommission.
   */
  lemma AppliedAnswerLifecycle(trace: seq<World>, events: seq<Event>, n: nat, k: nat) returns (j: nat)
    requires History(trace, events) && n < |events| && events[n] == Answer(k)
    requires trace[n].record.Some? && k < |trace[n].acks| && Awaited(trace[n].record.value, trace[n].acks[k].id)
    ensures j < n && AckedAt(trace, events, j, k)
    ensures trace[n + 1].record.Some?
    ensures trace[n + 1].record.value.lifecycle == trace[n + 1].node.lifecycle <==>
            if events[j].free
            then forall m | j < m < n && TookLast(trace, events, n, m) ::
                   BroughtCommission(trace[m], events[m]) <==> trace[n].acks[k].state.Commissioned?
            else forall m | 0 <= m < n && TookLast(trace, events, n, m) :: !BroughtCommission(trace[m], events[m])
  {
    j := AckOrigin(trace, events, n, k);
    assert StepAt(trace, events, n) && StepAt(trace, events, j);
    HistoryKeepsInv(trace, events, n);
    HistoryKeepsInv(trace, events, j + 1);
    assert events[j].free ==> trace[n].acks[k].state == trace[j + 1].node.lifecycle;
    var since := if events[j].free then j + 1 else 0;
    var m := FindTookLast(trace, events, since, n);
    if m != -1 {
      LastTakenDecides(trace, events, n, m);
      forall l | 0 <= l < n && TookLast(trace, events, n, l) ensures l == m { OneTookLast(trace, events, n, l, m); }
    } else {
      UntakenStays(trace, events, since, n);
    }
  }

  /** The state an acknowledgement reports is the Node's own exactly if it could answer freely or is uncommissioned. */
  lemma AckReportsTrueState(n: Identity, name: Text, id: CommandId, free: bool, stored: bool)
    ensures var after := if Takes(n, name, free, stored) then Named(n, name) else n;
            AckFor(n, name, id, free, stored).state == after.lifecycle <==> free || n.lifecycle.Uncommissioned?
  {
  }

  // ---------------------------------------------------------------------------------------------------
  // A commissioning that is never answered
  // ---------------------------------------------------------------------------------------------------

  predicate BeingConfigured(w: World) { w.record.Some? && w.record.value.lifecycle.Configuring? }

  /** Only a decommissioning or the awaited answer ends a first commissioning. */
  predicate Unblocks(w: World, e: Event)
    requires BeingConfigured(w)
  {
    e.Dismiss? || (e.Answer? && e.k < |w.acks| && Awaited(w.record.value, w.acks[e.k].id))
  }

  /** All of a record but what identity reports renew. */
  function Standing(r: Record): (Lifecycle, Text, Text, CommandId, Sync) {
    (r.lifecycle, r.name, r.pendingName, r.pendingId, r.sync)
  }

  lemma OnlyUnblockingChanges(w: World, e: Event)
    requires Feasible(w, e) && BeingConfigured(w)
    ensures Next(w, e).record.Some?
    ensures Standing(Next(w, e).record.value) != Standing(w.record.value) <==> Unblocks(w, e)
    ensures e.Request? ==> Next(w, e) == w
  {
  }

  /**
   * While a first commissioning is unanswered, each request is refused and the record stands still: in every history,
   * up to the first decommissioning or awaited answer, which does change it.
   */
  lemma {:induction false} UnansweredBlocks(trace: seq<World>, events: seq<Event>, i: nat, n: nat)
    requires Leads(trace, events) && i <= n <= |events| && BeingConfigured(trace[i])
    requires forall m | i <= m < n && BeingConfigured(trace[m]) :: !Unblocks(trace[m], events[m])
    ensures BeingConfigured(trace[n]) && Standing(trace[n].record.value) == Standing(trace[i].record.value)
    ensures n < |events| && events[n].Request? ==> trace[n + 1] == trace[n]
    ensures n < |events| ==>
              trace[n + 1].record.Some? &&
              (Unblocks(trace[n], events[n]) <==>
                  Standing(trace[n + 1].record.value) != Standing(trace[n].record.value))
  {
    if i < n {
      UnansweredBlocks(trace, events, i, n - 1);
      assert StepAt(trace, events, n - 1);
      OnlyUnblockingChanges(trace[n - 1], events[n - 1]);
    }
    if n < |events| {
      assert StepAt(trace, events, n);
      OnlyUnblockingChanges(trace[n], events[n]);
    }
  }

  /**
   * It does happen: after a first request whose command is lost, no sequence of reports and requests, however long,
   * gets the Node another command.
   */
  lemma LostFirstCommissioningBlocks(mac: MacAddress, board: Board, name: Text, id: CommandId, later: seq<Event>,
                                     trace: seq<World>)
    requires ValidName(name) && forall e <- later :: e.Report? || e.Request?
    requires History(trace, [Report(mac, board), Request(name, id)] + later)
    ensures trace[|trace| - 1].commands == [Commission(id, name)] && BeingConfigured(trace[|trace| - 1])
  {
    var events := [Report(mac, board), Request(name, id)] + later;
    assert StepAt(trace, events, 0) && StepAt(trace, events, 1);
    LaterBlocked(trace, events, |events|);
  }

  lemma {:induction false} LaterBlocked(trace: seq<World>, events: seq<Event>, n: nat)
    requires Leads(trace, events) && 2 <= n <= |events| && BeingConfigured(trace[2])
    requires forall m | 2 <= m < |events| :: events[m].Report? || events[m].Request?
    ensures BeingConfigured(trace[n]) && trace[n].commands == trace[2].commands
  {
    if n > 2 {
      LaterBlocked(trace, events, n - 1);
      assert StepAt(trace, events, n - 1);
      OnlyUnblockingChanges(trace[n - 1], events[n - 1]);
    }
  }

  /** The way out: decommissioning, and a new report of the Node. */
  lemma DismissalUnblocks(r: Record, board: Board, name: Text)
    requires r.lifecycle.Configuring?
    ensures Dismissable(r) && (Requestable(Rediscovered(Dismissed(r), board), name) <==> ValidName(name))
  {
  }

  // ---------------------------------------------------------------------------------------------------
  // Histories that go wrong
  // ---------------------------------------------------------------------------------------------------

  lemma CommissionedAsA(mac: MacAddress, board: Board) returns (trace: seq<World>, events: seq<Event>)
    ensures History(trace, events) && events == [Report(mac, board), Request("A", 1), Arrive(0, true, true), Answer(0)]
    ensures trace[|events|] ==
            World(Some(Record(mac, Commissioned, "A", "", 1, Synced, Kept(board))), Identity(Commissioned, "A"),
                  [Commission(1, "A")],
                  [Ack(1, true, Commissioned)], {0}, Some(0), Some(0), 0, true)
  {
    trace, events := [START], [];
    trace, events := Extend(trace, events, Report(mac, board));
    trace, events := Extend(trace, events, Request("A", 1));
    trace, events := Extend(trace, events, Arrive(0, true, true));
    assert trace[|events|].acks == [Ack(1, true, Commissioned)];
    trace, events := Extend(trace, events, Answer(0));
  }

  lemma TwoRenamesSent(mac: MacAddress, board: Board) returns (trace: seq<World>, events: seq<Event>)
    ensures History(trace, events)
    ensures events == [Report(mac, board), Request("A", 1), Arrive(0, true, true), Answer(0), Request("B", 2),
                       Request("C", 3)]
    ensures trace[|events|] ==
            World(Some(Record(mac, Commissioned, "A", "C", 3, Pending, Kept(board))), Identity(Commissioned, "A"),
                  [Commission(1, "A"), Commission(2, "B"), Commission(3, "C")],
                  [Ack(1, true, Commissioned)], {0}, Some(0), Some(0), 0, true)
  {
    trace, events := CommissionedAsA(mac, board);
    trace, events := Extend(trace, events, Request("B", 2));
    assert trace[|events|].commands == [Commission(1, "A"), Commission(2, "B")];
    trace, events := Extend(trace, events, Request("C", 3));
    assert trace[|events|].commands == [Commission(1, "A"), Commission(2, "B"), Commission(3, "C")];
  }

  /**
   * Two renames that reach the Node in the wrong order leave Central and the Node with different names, both ends idle:
   * the Node does not look at the order of commands.
   */
  lemma ReorderedRenamesDiverge(mac: MacAddress, board: Board) returns (trace: seq<World>, events: seq<Event>)
    ensures History(trace, events) && NoCommandTwice(events) && !OneAtATime(trace, events)
    ensures var w := trace[|events|];
            && w.record == Some(Record(mac, Commissioned, "C", "", 3, Synced, Kept(board))) &&
               w.node == Identity(Commissioned, "B")
            && w.committed == Some(|w.commands| - 1)
  {
    trace, events := RenamesReordered(mac, board);
    assert trace[|events|].acks[1] == Ack(3, true, Commissioned);
    trace, events := Extend(trace, events, Answer(1));
    if OneAtATime(trace, events) { CarefulNamesAgree(trace, events, |events|); }
  }

  lemma RenamesReordered(mac: MacAddress, board: Board) returns (trace: seq<World>, events: seq<Event>)
    ensures History(trace, events)
    ensures events == [Report(mac, board), Request("A", 1), Arrive(0, true, true), Answer(0), Request("B", 2),
                       Request("C", 3), Arrive(2, true, true), Arrive(1, true, true)]
    ensures trace[|events|] ==
            World(Some(Record(mac, Commissioned, "A", "C", 3, Pending, Kept(board))), Identity(Commissioned, "B"),
                  [Commission(1, "A"), Commission(2, "B"), Commission(3, "C")],
                  [Ack(1, true, Commissioned), Ack(3, true, Commissioned), Ack(2, true, Commissioned)],
                  {0, 2, 1}, Some(1), Some(0), 2, false)
  {
    trace, events := TwoRenamesSent(mac, board);
    trace, events := Extend(trace, events, Arrive(2, true, true));
    assert trace[|events|].acks == [Ack(1, true, Commissioned), Ack(3, true, Commissioned)];
    trace, events := Extend(trace, events, Arrive(1, true, true));
    assert trace[|events|].acks == [Ack(1, true, Commissioned), Ack(3, true, Commissioned), Ack(2, true, Commissioned)];
  }

  /** A rename of a Node whose identity is locked makes Central take the Node for uncommissioned. */
  lemma BusyNodeLooksUncommissioned(mac: MacAddress, board: Board) returns (trace: seq<World>, events: seq<Event>)
    ensures History(trace, events) && trace[|events|].inOrder
    ensures trace[|events|].record == Some(Record(mac, Uncommissioned, "A", "", 2, SyncFailed, Kept(board)))
    ensures trace[|events|].node == Identity(Commissioned, "A")
  {
    trace, events := CommissionedAsA(mac, board);
    trace, events := Extend(trace, events, Request("B", 2));
    assert trace[|events|].commands == [Commission(1, "A"), Commission(2, "B")];
    trace, events := Extend(trace, events, Arrive(1, false, true));
    assert trace[|events|].acks == [Ack(1, true, Commissioned), Ack(2, false, Uncommissioned)];
    trace, events := Extend(trace, events, Answer(1));
  }

  /**
   * After a request under this identifier, some course of events commits it although the Node never took that command.
   */
  ghost predicate MayMiscommit(w: World, name: Text, id: CommandId)
    requires w.record.Some?
  {
    exists trace, events :: Miscommits(w, name, id, trace, events)
  }

  ghost predicate Miscommits(w: World, name: Text, id: CommandId, trace: seq<World>, events: seq<Event>)
    requires w.record.Some?
  {
    && Leads(trace, events) && trace[0] == Next(w, Request(name, id))
    && trace[|events|].committed == Some(|w.commands|) && |w.commands| !in trace[|events|].accepted
    && trace[|events|].record.Some? && trace[|events|].record.value.name == name
  }

  /** That is so exactly when the identifier has been used before. */
  lemma ReusedIdMayMiscommit(trace: seq<World>, events: seq<Event>, n: nat, name: Text, id: CommandId)
    requires History(trace, events) && n <= |events|
    requires trace[n].record.Some? && Requestable(trace[n].record.value, name)
    ensures MayMiscommit(trace[n], name, id) <==> UsedId(trace[n], id)
  {
    HistoryKeepsInv(trace, events, n);
    var w := trace[n];
    if UsedId(w, id) {
      var t, e := ReplayedAnswer(w, name, id);
    } else {
      RequestKeepsInv(w, name, id);
      forall t, e | Miscommits(w, name, id, t, e) ensures false {
        LeadsKeepsInv(t, e, |e|);
      }
    }
  }

  /** The old command arrives once more, and its answer passes for the new one's. */
  lemma ReplayedAnswer(w: World, name: Text, id: CommandId) returns (trace: seq<World>, events: seq<Event>)
    requires Inv(w) && w.record.Some? && Requestable(w.record.value, name) && UsedId(w, id)
    ensures Miscommits(w, name, id, trace, events)
  {
    var k :| 0 <= k < |w.commands| && w.commands[k].Commission? && w.commands[k].id == id;
    var asked := Next(w, Request(name, id));
    assert asked.commands[k] == w.commands[k] && |w.commands| !in w.accepted;
    trace, events := Extend([asked], [], Arrive(k, true, true));
    assert trace[1].acks[|w.acks|] == Ack(id, true, Commissioned);
    trace, events := Extend(trace, events, Answer(|w.acks|));
  }

  // ---------------------------------------------------------------------------------------------------
  // What a user can do, and what comes of it when nothing is lost
  // ---------------------------------------------------------------------------------------------------

  /** A record is in one of four states, and waits for an answer in two of them; answers report one of two. */
  ghost predicate FewStates(w: World) {
    && (w.record.Some? ==>
          var r := w.record.value;
          && r.lifecycle in {Uncommissioned, Configuring, Commissioned, Decommissioned}
          && (r.sync.Pending? ==> r.lifecycle.Configuring? || r.lifecycle.Commissioned?))
    && forall k | 0 <= k < |w.acks| :: w.acks[k].state.Uncommissioned? || w.acks[k].state.Commissioned?
  }

  lemma FewStatesNext(w: World, e: Event)
    requires Inv(w) && Possible(w, e) && FewStates(w)
    ensures FewStates(Next(w, e))
  {
  }

  lemma {:induction false} FewLifecycles(trace: seq<World>, events: seq<Event>, n: nat)
    requires History(trace, events) && n <= |events|
    ensures FewStates(trace[n])
  {
    if n > 0 {
      FewLifecycles(trace, events, n - 1);
      HistoryKeepsInv(trace, events, n - 1);
      assert StepAt(trace, events, n - 1);
      FewStatesNext(trace[n - 1], events[n - 1]);
    }
  }

  /** In every history a Node can be decommissioned unless it is, and be asked for when it is not being configured. */
  lemma UserMayAct(trace: seq<World>, events: seq<Event>, n: nat, name: Text)
    requires History(trace, events) && n <= |events| && trace[n].record.Some?
    ensures var r := trace[n].record.value;
            && (Dismissable(r) <==> r.lifecycle != Decommissioned)
            && (Requestable(r, name) <==> 1 <= |name| <= 19 && r.lifecycle in {Uncommissioned, Commissioned})
  {
    FewLifecycles(trace, events, n);
  }

  /** How Central's record of a Node moves on, and by which events. */
  lemma LifecycleMoves(trace: seq<World>, events: seq<Event>, n: nat)
    requires History(trace, events) && n < |events| && trace[n].record.Some?
    ensures trace[n + 1].record.Some?
    ensures var from, to, e := trace[n].record.value.lifecycle, trace[n + 1].record.value.lifecycle, events[n];
            || to == from
            || (from == Uncommissioned && to == Configuring && e.Request?)
            || (from == Configuring && to in {Commissioned, Uncommissioned} && e.Answer?)
            || (from == Commissioned && to == Uncommissioned && e.Answer?)
            || (to == Decommissioned && e.Dismiss?)
            || (from == Decommissioned && to == Uncommissioned && e.Report?)
  {
    FewLifecycles(trace, events, n);
    assert StepAt(trace, events, n);
  }

  /** A request, the command's arrival and the answer, with nothing lost or busy: both ends then have the name. */
  lemma CommissioningEndToEnd(trace: seq<World>, events: seq<Event>, name: Text, id: CommandId)
    returns (trace': seq<World>, events': seq<Event>)
    requires History(trace, events) && !UsedId(trace[|events|], id) && 1 <= |name| <= 19
    requires trace[|events|].record.Some?
    requires trace[|events|].record.value.lifecycle in {Uncommissioned, Commissioned}
    ensures History(trace', events')
    ensures var w := trace[|events|];
            && events' == events + [Request(name, id)] + [Arrive(|w.commands|, true, true)] + [Answer(|w.acks|)]
            && trace'[|events'|].node == Identity(Commissioned, name)
            && trace'[|events'|].record == Some(w.record.value.(lifecycle := Commissioned, name := name,
                 pendingName := "", pendingId := id, sync := Synced))
  {
    var w := trace[|events|];
    HistoryKeepsInv(trace, events, |events|);
    trace', events' := Extend(trace, events, Request(name, id));
    assert trace'[|events'|].commands[|w.commands|] == Commission(id, name);
    trace', events' := Extend(trace', events', Arrive(|w.commands|, true, true));
    assert trace'[|events'|].acks[|w.acks|] == Ack(id, true, Commissioned);
    trace', events' := Extend(trace', events', Answer(|w.acks|));
  }

  /** A command changes the Node, and is answered as a success, exactly if the Node was free and could store it. */
  lemma TakenExactly(trace: seq<World>, events: seq<Event>, n: nat)
    requires History(trace, events) && n < |events| && events[n].Arrive?
    requires events[n].k < |trace[n].commands|
    ensures var w, out, e := trace[n], trace[n + 1], events[n];
            match w.commands[e.k]
            case Commission(id, name) =>
              && |out.acks| == |w.acks| + 1 && out.acks[|w.acks|].id == id
              && (out.acks[|w.acks|].success <==> e.free && e.stored)
              && out.node == if e.free && e.stored then Identity(Commissioned, name) else w.node
            case Decommission =>
              out.acks == w.acks && out.node == if e.free && e.stored then Identity(Uncommissioned, "") else w.node
  {
    HistoryKeepsInv(trace, events, n);
    assert StepAt(trace, events, n);
  }

  /** A name that is empty or too long is refused. */
  lemma BadNamesAreRefused(trace: seq<World>, events: seq<Event>, n: nat)
    requires History(trace, events) && n < |events| && events[n].Request? && !(1 <= |events[n].name| <= 19)
    ensures trace[n + 1] == trace[n]
  {
    assert StepAt(trace, events, n);
  }

  /** A decommissioning that reaches a Node free to store it: the Node forgets its name, and so has Central. */
  lemma DecommissioningEndToEnd(trace: seq<World>, events: seq<Event>)
    returns (trace': seq<World>, events': seq<Event>)
    requires History(trace, events) && trace[|events|].record.Some?
    requires trace[|events|].record.value.lifecycle != Decommissioned
    ensures History(trace', events')
    ensures var w := trace[|events|];
            && events' == events + [Dismiss(true)] + [Arrive(|w.commands|, true, true)]
            && trace'[|events'|].node == Identity(Uncommissioned, "")
            && trace'[|events'|].record == Some(w.record.value.(lifecycle := Decommissioned, name := "",
                                                                pendingName := "", sync := Synced))
  {
    var w := trace[|events|];
    UserMayAct(trace, events, |events|, "");
    trace', events' := Extend(trace, events, Dismiss(true));
    assert trace'[|events'|].commands[|w.commands|] == Decommission;
    trace', events' := Extend(trace', events', Arrive(|w.commands|, true, true));
  }

  // What a record says of the last command.

  /** Events that decide what a record says of its last command. */
  predicate Decides(w: World, e: Event) {
    w.record.Some? &&
    match e
    case Request(name, _) => Requestable(w.record.value, name)
    case Dismiss(_) => Dismissable(w.record.value)
    case Answer(k) => k < |w.acks| && Awaited(w.record.value, w.acks[k].id)
    case _ => false
  }

  predicate Refuses(w: World, e: Event) { Decides(w, e) && e.Answer? && !w.acks[e.k].success }

  predicate Asks(w: World, e: Event) { Decides(w, e) && e.Request? }

  ghost predicate LastDecided(trace: seq<World>, events: seq<Event>, n: nat, j: int)
    requires |trace| == |events| + 1 && n <= |events|
  {
    0 <= j < n && Decides(trace[j], events[j]) && forall m | j < m < n :: !Decides(trace[m], events[m])
  }

  lemma DecidedNext(w: World, e: Event)
    requires Feasible(w, e)
    ensures !Decides(w, e) && w.record.Some? ==>
              Next(w, e).record.Some? && Next(w, e).record.value.sync == w.record.value.sync
    ensures !Decides(w, e) && w.record.None? && Next(w, e).record.Some? ==> Next(w, e).record.value.sync.Synced?
    ensures Decides(w, e) ==>
              && Next(w, e).record.Some?
              && (Next(w, e).record.value.sync.SyncFailed? <==> Refuses(w, e))
              && (Next(w, e).record.value.sync.Pending? <==> Asks(w, e))
  {
  }

  ghost predicate Says(w: World, sync: Sync) { w.record.Some? && w.record.value.sync == sync }

  /** A record says failed exactly if the last that was decided is a refusal, and pending exactly if it is a request. */
  lemma {:induction false} SyncIsLastDecided(trace: seq<World>, events: seq<Event>, n: nat)
    requires History(trace, events) && n <= |events|
    ensures Says(trace[n], SyncFailed) <==>
            exists j :: LastDecided(trace, events, n, j) && Refuses(trace[j], events[j])
    ensures Says(trace[n], Pending) <==> exists j :: LastDecided(trace, events, n, j) && Asks(trace[j], events[j])
  {
    if n > 0 {
      var m := n - 1;
      SyncIsLastDecided(trace, events, m);
      assert StepAt(trace, events, m);
      DecidedNext(trace[m], events[m]);
      if Decides(trace[m], events[m]) {
        assert LastDecided(trace, events, n, m);
      } else {
        forall j | LastDecided(trace, events, n, j) ensures LastDecided(trace, events, m, j) {}
        forall j | LastDecided(trace, events, m, j) ensures LastDecided(trace, events, n, j) {}
      }
    }
  }

  // What a record says of the Node's board.

  ghost predicate FirstReport(events: seq<Event>, n: nat, j: int)
    requires n <= |events|
  {
    0 <= j < n && events[j].Report? && forall m | 0 <= m < j :: !events[m].Report?
  }

  ghost predicate LastReport(events: seq<Event>, n: nat, j: int)
    requires n <= |events|
  {
    0 <= j < n && events[j].Report? && forall m | j < m < n :: !events[m].Report?
  }

  /** As much of s as fits. */
  predicate Fitted<T(==)>(s: seq<T>, most: nat, out: seq<T>) { out == if |s| <= most then s else s[..most] }

  /** The record holds the board as reported last, cut to its buffers, and the address and role reported first. */
  lemma {:induction false} BoardIsLastReported(trace: seq<World>, events: seq<Event>, n: nat, f: nat, l: nat)
    requires History(trace, events) && n <= |events| && FirstReport(events, n, f) && LastReport(events, n, l)
    ensures trace[n].record.Some?
    ensures var r, last := trace[n].record.value, events[l].board;
            && r.mac == events[f].mac && r.board.role == events[f].board.role && r.board.seenAt == last.seenAt
            && Fitted(last.firmware, 11, r.board.firmware) && Fitted(last.chip, 15, r.board.chip)
            && Fitted(last.relayPins, 18, r.board.relayPins)
  {
    assert StepAt(trace, events, n - 1);
    if l < n - 1 {
      BoardIsLastReported(trace, events, n - 1, f, l);
    } else if f < n - 1 {
      var k := PreviousReport(events, n - 1, f);
      BoardIsLastReported(trace, events, n - 1, f, k);
    } else {
      NoReportNoRecord(trace, events, f);
    }
  }

  lemma {:induction false} PreviousReport(events: seq<Event>, n: nat, f: nat) returns (l: nat)
    requires f < n <= |events| && events[f].Report?
    ensures f <= l && LastReport(events, n, l)
  {
    if events[n - 1].Report? { l := n - 1; } else { l := PreviousReport(events, n - 1, f); }
  }

  lemma {:induction false} NoReportNoRecord(trace: seq<World>, events: seq<Event>, n: nat)
    requires History(trace, events) && n <= |events| && forall m | 0 <= m < n :: !events[m].Report?
    ensures trace[n].record.None?
  {
    if n > 0 {
      NoReportNoRecord(trace, events, n - 1);
      assert StepAt(trace, events, n - 1);
    }
  }
}
