/** What the registry hands to a planning cycle, and takes back from it. */
module RegistryPlanning {
  import opened Common
  import opened Loads
  import opened PinLists
  import opened PlanningNodes
  import opened NodeReports
  import opened CentralReports
  import opened ReportDelivery
  import opened ReportRoundTrip
  import opened LoadConfigurations
  import opened BestFirstSearch
  import opened Planning

  // ---------------------------------------------------------------------------------------------------
  // The loads of all entries
  // ---------------------------------------------------------------------------------------------------

  /** The loads a cycle works on: those of every entry, in registry order. */
  function AllLoads(nodes: seq<PlanningNode>): seq<LoadRecord> {
    if nodes == [] then [] else AllLoads(nodes[..|nodes| - 1]) + nodes[|nodes| - 1].loads
  }

  /** The registry after its loads have changed in place. */
  function WithLoads(nodes: seq<PlanningNode>, loads: seq<LoadRecord>): seq<PlanningNode>
    requires |loads| == |AllLoads(nodes)|
  {
    if nodes == [] then []
    else
      var n := nodes[|nodes| - 1];
      var k := |loads| - |n.loads|;
      WithLoads(nodes[..|nodes| - 1], loads[..k]) + [n.(loads := loads[k..])]
  }

  ghost predicate GoodEntry(n: PlanningNode) { OwnLoads(n.mac, n.loads) && forall l <- n.loads :: LoadInv(l) }

  ghost predicate GoodRegistry(nodes: seq<PlanningNode>) { DistinctMacs(nodes) && forall n <- nodes :: GoodEntry(n) }

  lemma {:induction false} LoadsOfEntries(nodes: seq<PlanningNode>, l: LoadRecord)
    ensures l in AllLoads(nodes) <==> exists k :: 0 <= k < |nodes| && l in nodes[k].loads
  {
    if nodes != [] {
      var n := |nodes| - 1;
      LoadsOfEntries(nodes[..n], l);
      if l in AllLoads(nodes[..n]) {
        var k :| 0 <= k < n && l in nodes[..n][k].loads;
        assert l in nodes[k].loads;
      }
      if k :| 0 <= k < n && l in nodes[k].loads { assert l in nodes[..n][k].loads; }
    }
  }

  lemma InitIsGood(nodes: seq<PlanningNode>)
    requires GoodRegistry(nodes) && nodes != []
    ensures GoodRegistry(nodes[..|nodes| - 1]) && GoodEntry(nodes[|nodes| - 1])
    ensures forall l, m | l in AllLoads(nodes[..|nodes| - 1]) && m in nodes[|nodes| - 1].loads :: l.id.mac != m.id.mac
  {
    var n := |nodes| - 1;
    forall l, m | l in AllLoads(nodes[..n]) && m in nodes[n].loads ensures l.id.mac != m.id.mac {
      LoadsOfEntries(nodes[..n], l);
      var k :| 0 <= k < n && l in nodes[..n][k].loads;
      assert GoodEntry(nodes[k]) && GoodEntry(nodes[n]);
    }
  }

  /** The loads of a good registry are what a cycle asks for: no two with one identity, each as its setters keep it. */
  lemma {:induction false} LoadsAreGood(nodes: seq<PlanningNode>)
    requires GoodRegistry(nodes)
    ensures GoodLoads(AllLoads(nodes))
  {
    if nodes != [] {
      var n := |nodes| - 1;
      var before, own := AllLoads(nodes[..n]), nodes[n].loads;
      InitIsGood(nodes);
      LoadsAreGood(nodes[..n]);
      var all := before + own;
      forall i, j | 0 <= i < j < |all| ensures all[i].id != all[j].id {
        if i < |before| <= j {
          assert before[i] in before && own[j - |before|] in own;
        } else if |before| <= i {
          assert PinOf(own[i - |before|]) != PinOf(own[j - |before|]);
        }
      }
    }
  }

  /** Where the registry finds a load by its identity. */
  function FindMutableLoad(nodes: seq<PlanningNode>, id: LoadId): Option<LoadRecord> {
    var k := IndexOfMac(nodes, id.mac);
    if k == |nodes| then None
    else
      var p := IndexBy(PinOf, nodes[k].loads, id.pin);
      if p == |nodes[k].loads| then None else Some(nodes[k].loads[p])
  }

  /** In a good registry that is the one load with this identity, if there is one. */
  lemma FoundByIdentity(nodes: seq<PlanningNode>, id: LoadId, l: LoadRecord)
    requires GoodRegistry(nodes)
    ensures FindMutableLoad(nodes, id) == Some(l) <==> l in AllLoads(nodes) && l.id == id
  {
    LoadsOfEntries(nodes, l);
    var k := IndexOfMac(nodes, id.mac);
    if l in AllLoads(nodes) && l.id == id {
      var j :| 0 <= j < |nodes| && l in nodes[j].loads;
      assert GoodEntry(nodes[j]) && j == k;
    }
    if FindMutableLoad(nodes, id) == Some(l) { assert GoodEntry(nodes[k]) && l in nodes[k].loads; }
  }

  /** What a cycle writes back is what the next one finds. */
  lemma {:induction false} ReadBack(nodes: seq<PlanningNode>, loads: seq<LoadRecord>)
    requires |loads| == |AllLoads(nodes)|
    ensures AllLoads(WithLoads(nodes, loads)) == loads
  {
    if nodes != [] {
      var n := |nodes| - 1;
      var k := |loads| - |nodes[n].loads|;
      ReadBack(nodes[..n], loads[..k]);
      assert WithLoads(nodes, loads)[..|WithLoads(nodes, loads)| - 1] == WithLoads(nodes[..n], loads[..k]);
      assert loads[..k] + loads[k..] == loads;
    }
  }

  /** Nothing but the entries' loads changes. */
  lemma {:induction false} OnlyLoadsChange(nodes: seq<PlanningNode>, loads: seq<LoadRecord>)
    requires |loads| == |AllLoads(nodes)|
    ensures |WithLoads(nodes, loads)| == |nodes|
    ensures forall i | 0 <= i < |nodes| ::
              WithLoads(nodes, loads)[i] == nodes[i].(loads := WithLoads(nodes, loads)[i].loads)
  {
    if nodes != [] {
      var n := |nodes| - 1;
      OnlyLoadsChange(nodes[..n], loads[..|loads| - |nodes[n].loads|]);
    }
  }

  lemma {:induction false} EntriesStayGood(nodes: seq<PlanningNode>, loads: seq<LoadRecord>)
    requires GoodRegistry(nodes) && SameIds(AllLoads(nodes), loads) && forall l <- loads :: LoadInv(l)
    ensures forall n <- WithLoads(nodes, loads) :: GoodEntry(n)
  {
    if nodes != [] {
      var n := |nodes| - 1;
      var k := |loads| - |nodes[n].loads|;
      InitIsGood(nodes);
      assert AllLoads(nodes)[..k] == AllLoads(nodes[..n]) && AllLoads(nodes)[k..] == nodes[n].loads;
      EntriesStayGood(nodes[..n], loads[..k]);
      OwnWrittenBack(nodes[n], loads[k..]);
    }
  }

  lemma WrittenBack(nodes: seq<PlanningNode>, loads: seq<LoadRecord>)
    requires GoodRegistry(nodes) && SameIds(AllLoads(nodes), loads) && forall l <- loads :: LoadInv(l)
    ensures GoodRegistry(WithLoads(nodes, loads)) && AllLoads(WithLoads(nodes, loads)) == loads
  {
    ReadBack(nodes, loads);
    OnlyLoadsChange(nodes, loads);
    EntriesStayGood(nodes, loads);
    assert forall i | 0 <= i < |nodes| :: WithLoads(nodes, loads)[i].mac == nodes[i].mac;
  }

  lemma OwnWrittenBack(n: PlanningNode, loads: seq<LoadRecord>)
    requires GoodEntry(n) && SameIds(n.loads, loads) && forall l <- loads :: LoadInv(l)
    ensures GoodEntry(n.(loads := loads))
  {
    forall i | 0 <= i < |loads| ensures loads[i].id == n.loads[i].id && n.loads[i] in n.loads {}
  }

  ghost predicate SameIds(a: seq<LoadRecord>, b: seq<LoadRecord>) {
    |a| == |b| && forall i | 0 <= i < |a| :: a[i].id == b[i].id
  }

  // ---------------------------------------------------------------------------------------------------
  // Runs of the registry
  // ---------------------------------------------------------------------------------------------------

  datatype RegistryEvent =
    | Hear(arrival: Arrival)                                                          // a packet of any Node
    | Local(name: string, mac: MacAddress, loads: seq<LoadRecord>, now: nat)          // Central's own loads
    | Forget(id: LoadId)                                                              // a removal was confirmed
    | Settings(id: LoadId, entries: seq<ConfigurationEntry>)                          // stored settings of one load
    | Cycle(loads: seq<LoadRecord>)                                                   // a planning cycle's decisions

  ghost predicate Takes(nodes: seq<PlanningNode>, e: RegistryEvent) {
    match e
    case Local(_, mac, loads, _) => OwnLoads(mac, loads) && forall l <- loads :: LoadInv(l)
    case Cycle(loads) => SameIds(AllLoads(nodes), loads) && forall l <- loads :: LoadInv(l)
    case _ => true
  }

  function WithSettings(nodes: seq<PlanningNode>, id: LoadId, entries: seq<ConfigurationEntry>): seq<PlanningNode> {
    var k := IndexOfMac(nodes, id.mac);
    if k == |nodes| then nodes
    else
      var loads := nodes[k].loads;
      var p := IndexBy(PinOf, loads, id.pin);
      if p == |loads| then nodes else nodes[k := nodes[k].(loads := loads[p := Applied(entries, loads[p])])]
  }

  function Next(nodes: seq<PlanningNode>, e: RegistryEvent): seq<PlanningNode>
    requires Takes(nodes, e)
  {
    match e
    case Hear(a) => ApplyReport(nodes, a.packet, a.now)
    case Local(name, mac, loads, now) => WithLocal(nodes, name, mac, loads, now)
    case Forget(id) => WithoutLoad(nodes, id)
    case Settings(id, entries) => WithSettings(nodes, id, entries)
    case Cycle(loads) => WithLoads(nodes, loads)
  }

  ghost predicate RunStep(trace: seq<seq<PlanningNode>>, events: seq<RegistryEvent>, i: int)
    requires 0 <= i < |events| && |trace| == |events| + 1
  {
    Takes(trace[i], events[i]) && trace[i + 1] == Next(trace[i], events[i])
  }

  /** A run of a new registry. */
  ghost predicate RegistryRun(trace: seq<seq<PlanningNode>>, events: seq<RegistryEvent>) {
    && |trace| == |events| + 1 && trace[0] == []
    && forall i | 0 <= i < |events| :: RunStep(trace, events, i)
  }

  // What a report keeps.

  lemma ReportedIsInv(mac: MacAddress, r: LoadReport, rejection: Byte)
    requires ValidLoadReport(r)
    ensures LoadInv(Reported(mac, r, rejection))
  {
  }

  lemma {:induction false} SlotsKeepInv(mac: MacAddress, loads: seq<LoadRecord>, slots: seq<LoadReport>)
    requires forall l <- loads :: LoadInv(l)
    ensures forall l <- ApplySlots(mac, loads, slots) :: LoadInv(l)
  {
    if slots != [] {
      var init, r := slots[..|slots| - 1], slots[|slots| - 1];
      var before := ApplySlots(mac, loads, init);
      SlotsKeepInv(mac, loads, init);
      if ValidLoadReport(r) {
        var k := IndexBy(PinOf, before, r.pin);
        ReportedIsInv(mac, r, 0);
        if k < |before| { ReportedIsInv(before[k].id.mac, r, before[k].rejection); }
        assert forall l <- Upsert(mac, before, r) :: l in before || l == Upsert(mac, before, r)[k];
      }
    }
  }

  lemma ReceiveKeepsGood(n: PlanningNode, a: Arrival)
    requires GoodEntry(n)
    ensures GoodEntry(Receive(n, a))
  {
    ReceiveKeepsOwnLoads(n, a);
    if Relevant(n, a) {
      var entered := ApplySlots(n.mac, n.loads, UsedSlots(a.packet));
      var pins := Prepare(n, a.packet, a.now).pending.pins + ListedPins(UsedSlots(a.packet));
      SlotsKeepInv(n.mac, n.loads, UsedSlots(a.packet));
      ErasedAreKept(entered, AbsentPins(entered, pins));
      var out := Receive(n, a).loads;
      assert out == n.loads || out == entered || out == EraseAll(entered, AbsentPins(entered, pins));
    }
  }

  /** Whatever packets arrive, an entry holds its own Node's loads, on distinct pins, as their setters keep them. */
  lemma {:induction false} StreamsKeepGood(n: PlanningNode, arrivals: seq<Arrival>)
    requires GoodEntry(n)
    ensures GoodEntry(ReceiveAll(n, arrivals))
  {
    if arrivals != [] {
      var init := arrivals[..|arrivals| - 1];
      StreamsKeepGood(n, init);
      ReceiveKeepsGood(ReceiveAll(n, init), arrivals[|arrivals| - 1]);
    }
  }

  // What every event keeps.

  lemma EntryKeepsGood(nodes: seq<PlanningNode>, k: nat, n: PlanningNode)
    requires GoodRegistry(nodes) && k < |nodes| && n.mac == nodes[k].mac && GoodEntry(n)
    ensures GoodRegistry(nodes[k := n])
  {
    assert forall m <- nodes[k := n] :: m == n || m in nodes;
  }

  lemma NewEntryKeepsGood(nodes: seq<PlanningNode>, n: PlanningNode)
    requires GoodRegistry(nodes) && !Registered(nodes, n.mac) && GoodEntry(n)
    ensures GoodRegistry(nodes + [n])
  {
    assert forall m <- nodes + [n] :: m == n || m in nodes;
  }

  lemma HearKeepsGood(nodes: seq<PlanningNode>, a: Arrival)
    requires GoodRegistry(nodes)
    ensures GoodRegistry(ApplyReport(nodes, a.packet, a.now))
  {
    if Accepted(a.packet) {
      var k := IndexOfMac(nodes, a.packet.mac);
      if k == |nodes| {
        var n := NewNode(a.packet.mac, a.now);
        ReceiveKeepsGood(n, a);
        NewEntryKeepsGood(nodes, Receive(n, a));
      } else {
        ReceiveKeepsGood(nodes[k], a);
        EntryKeepsGood(nodes, k, Receive(nodes[k], a));
      }
    }
  }

  lemma LocalKeepsGood(nodes: seq<PlanningNode>, name: string, mac: MacAddress, loads: seq<LoadRecord>, now: nat)
    requires GoodRegistry(nodes) && OwnLoads(mac, loads) && forall l <- loads :: LoadInv(l)
    ensures GoodRegistry(WithLocal(nodes, name, mac, loads, now))
  {
    var k := IndexOfMac(nodes, mac);
    if k == |nodes| {
      NewEntryKeepsGood(nodes, PlanningNode(mac, loads, name, mac, 0, true, now, NO_REPORT));
    } else {
      EntryKeepsGood(nodes, k, PlanningNode(mac, loads, name, mac, 0, true, now, nodes[k].pending));
    }
  }

  lemma ForgetKeepsGood(nodes: seq<PlanningNode>, id: LoadId)
    requires GoodRegistry(nodes)
    ensures GoodRegistry(WithoutLoad(nodes, id))
  {
    var k := IndexOfMac(nodes, id.mac);
    if k < |nodes| {
      assert GoodEntry(nodes[k]);
      ErasePinMembers(PinOf, nodes[k].loads, id.pin);
      ErasePinDistinct(PinOf, nodes[k].loads, id.pin);
      EntryKeepsGood(nodes, k, nodes[k].(loads := ErasePin(PinOf, nodes[k].loads, id.pin)));
    }
  }

  lemma SettingsKeepGood(nodes: seq<PlanningNode>, id: LoadId, entries: seq<ConfigurationEntry>)
    requires GoodRegistry(nodes)
    ensures GoodRegistry(WithSettings(nodes, id, entries))
  {
    var k := IndexOfMac(nodes, id.mac);
    if k < |nodes| {
      var loads := nodes[k].loads;
      var p := IndexBy(PinOf, loads, id.pin);
      if p < |loads| {
        assert GoodEntry(nodes[k]) && loads[p] in loads;
        AppliedTwice(entries, loads[p]);
        var after := loads[p := Applied(entries, loads[p])];
        assert forall l <- after :: l == after[p] || l in loads;
        OwnWrittenBack(nodes[k], after);
        EntryKeepsGood(nodes, k, nodes[k].(loads := after));
      }
    }
  }

  lemma NextKeepsGood(nodes: seq<PlanningNode>, e: RegistryEvent)
    requires GoodRegistry(nodes) && Takes(nodes, e)
    ensures GoodRegistry(Next(nodes, e))
  {
    match e
    case Hear(a) => HearKeepsGood(nodes, a);
    case Local(name, mac, loads, now) => LocalKeepsGood(nodes, name, mac, loads, now);
    case Forget(id) => ForgetKeepsGood(nodes, id);
    case Settings(id, entries) => SettingsKeepGood(nodes, id, entries);
    case Cycle(loads) => WrittenBack(nodes, loads);
  }

  /**
   * Whatever reports, removals, settings and planning cycles came before, the registry's loads are fit for the next
   * cycle.
   */
  lemma {:induction false} RunsFeedCycles(trace: seq<seq<PlanningNode>>, events: seq<RegistryEvent>, i: nat)
    requires RegistryRun(trace, events) && i <= |events|
    ensures GoodRegistry(trace[i]) && GoodLoads(AllLoads(trace[i]))
  {
    if i > 0 {
      RunsFeedCycles(trace, events, i - 1);
      assert RunStep(trace, events, i - 1);
      NextKeepsGood(trace[i - 1], events[i - 1]);
    }
    LoadsAreGood(trace[i]);
  }

  lemma DecidedKeeps(entries: seq<ConfigurationEntry>, l: LoadRecord, present: set<MacAddress>, selected: Combination)
    requires LoadInv(l)
    ensures var d := Decided(Applied(entries, l), present, selected); d.id == l.id && LoadInv(d)
  {
    AppliedTwice(entries, l);
    DecisionKeepsInv(Applied(entries, l), Chosen(selected, l.id));
  }

  lemma DecidedFits(loads: seq<LoadRecord>, entries: seq<ConfigurationEntry>, plan: Plan, present: set<MacAddress>)
    requires GoodLoads(loads) && SettingsApplied(entries, loads, plan.settled) && Consequent(plan, present)
    ensures SameIds(loads, plan.decided) && forall l <- plan.decided :: LoadInv(l)
  {
    forall i | 0 <= i < |loads| ensures plan.decided[i].id == loads[i].id && LoadInv(plan.decided[i]) {
      assert loads[i] in loads;
      DecidedKeeps(entries, loads[i], present, plan.selected);
    }
  }

  /** And what a cycle on them decides can be written back: the run goes on with exactly those loads. */
  lemma DecisionsAreTaken(trace: seq<seq<PlanningNode>>, events: seq<RegistryEvent>,
                          entries: seq<ConfigurationEntry>, plan: Plan, present: set<MacAddress>)
    requires RegistryRun(trace, events)
    requires SettingsApplied(entries, AllLoads(trace[|events|]), plan.settled) && Consequent(plan, present)
    ensures Takes(trace[|events|], Cycle(plan.decided))
    ensures AllLoads(Next(trace[|events|], Cycle(plan.decided))) == plan.decided && GoodLoads(plan.decided)
  {
    var nodes := trace[|events|];
    RunsFeedCycles(trace, events, |events|);
    DecidedFits(AllLoads(nodes), entries, plan, present);
    WrittenBack(nodes, plan.decided);
    LoadsAreGood(WithLoads(nodes, plan.decided));
  }

  // ---------------------------------------------------------------------------------------------------
  // What each event does to a load, and to no other
  // ---------------------------------------------------------------------------------------------------

  lemma SameMacsSameIndex(nodes: seq<PlanningNode>, out: seq<PlanningNode>, mac: MacAddress)
    requires |out| == |nodes| && forall i | 0 <= i < |nodes| :: out[i].mac == nodes[i].mac
    ensures IndexOfMac(out, mac) == IndexOfMac(nodes, mac)
  {
  }

  lemma AppendedIndex(nodes: seq<PlanningNode>, n: PlanningNode, mac: MacAddress)
    requires !Registered(nodes, n.mac)
    ensures IndexOfMac(nodes + [n], mac) ==
            if Registered(nodes, mac) then IndexOfMac(nodes, mac)
            else if mac == n.mac then |nodes| else |nodes| + 1
  {
    var out := nodes + [n];
    assert forall i | 0 <= i < |nodes| :: out[i] == nodes[i];
    assert out[|nodes|] == n;
  }

  /** A report leaves Central's notes alone: a load it knew keeps its note, a new one has none. */
  lemma {:induction false} NotesKept(mac: MacAddress, loads: seq<LoadRecord>, slots: seq<LoadReport>, l: LoadRecord)
    requires OwnLoads(mac, loads) && l in ApplySlots(mac, loads, slots)
    ensures if HasPin(PinOf, loads, l.id.pin) then exists m :: m in loads && m.id == l.id && m.rejection == l.rejection
            else l.rejection == 0
  {
    if slots != [] {
      var init, r := slots[..|slots| - 1], slots[|slots| - 1];
      var before := ApplySlots(mac, loads, init);
      SlotsKeepOwnLoads(mac, loads, init);
      if l in before {
        NotesKept(mac, loads, init, l);
      } else {
        NoteOfSlot(mac, before, r, l);
        if HasPin(PinOf, loads, l.id.pin) { PinsStay(mac, loads, init, l.id.pin); }
        if HasPin(PinOf, before, l.id.pin) {
          var m := before[IndexBy(PinOf, before, l.id.pin)];
          assert m in before;
          NotesKept(mac, loads, init, m);
        }
      }
    } else {
      assert PinOf(l) == l.id.pin;
    }
  }

  lemma NoteOfSlot(mac: MacAddress, before: seq<LoadRecord>, r: LoadReport, l: LoadRecord)
    requires OwnLoads(mac, before) && ValidLoadReport(r) && l in Upsert(mac, before, r) && l !in before
    ensures l.id == LoadId(mac, r.pin)
    ensures if HasPin(PinOf, before, r.pin)
            then before[IndexBy(PinOf, before, r.pin)].id == l.id &&
                 before[IndexBy(PinOf, before, r.pin)].rejection == l.rejection
            else l.rejection == 0
  {
    var k := IndexBy(PinOf, before, r.pin);
    if k < |before| { assert before[k] in before; }
  }

  lemma {:induction false} PinsStay(mac: MacAddress, loads: seq<LoadRecord>, slots: seq<LoadReport>, pin: Byte)
    requires HasPin(PinOf, loads, pin)
    ensures HasPin(PinOf, ApplySlots(mac, loads, slots), pin)
  {
    if slots != [] {
      var before, r := ApplySlots(mac, loads, slots[..|slots| - 1]), slots[|slots| - 1];
      PinsStay(mac, loads, slots[..|slots| - 1], pin);
      if ValidLoadReport(r) {
        var i :| 0 <= i < |before| && PinOf(before[i]) == pin;
        assert PinOf(Upsert(mac, before, r)[i]) == pin;
      }
    }
  }

  /** A confirmed removal: the load is gone, all others are as they were. */
  lemma ForgottenIsGone(nodes: seq<PlanningNode>, id: LoadId, l: LoadRecord)
    requires GoodRegistry(nodes)
    ensures l in AllLoads(WithoutLoad(nodes, id)) <==> l in AllLoads(nodes) && l.id != id
  {
    var k, out := IndexOfMac(nodes, id.mac), WithoutLoad(nodes, id);
    LoadsOfEntries(nodes, l);
    LoadsOfEntries(out, l);
    if k < |nodes| {
      assert GoodEntry(nodes[k]);
      ErasePinMembers(PinOf, nodes[k].loads, id.pin);
    }
    if i :| 0 <= i < |nodes| && l in nodes[i].loads {
      assert GoodEntry(nodes[i]);
      if l.id != id { assert l in out[i].loads; }
    }
    if i :| 0 <= i < |out| && l in out[i].loads { assert GoodEntry(nodes[i]) && l in nodes[i].loads; }
  }

  /** Stored settings: the load with this identity receives them, all others are as they were. */
  lemma SettledAlone(nodes: seq<PlanningNode>, id: LoadId, entries: seq<ConfigurationEntry>, other: LoadId)
    requires GoodRegistry(nodes)
    ensures var found := FindMutableLoad(nodes, other);
            FindMutableLoad(WithSettings(nodes, id, entries), other) ==
            if other == id && found.Some? then Some(Applied(entries, found.value)) else found
  {
    var k := IndexOfMac(nodes, id.mac);
    SettingsKeepGood(nodes, id, entries);
    if k < |nodes| {
      var loads := nodes[k].loads;
      var p := IndexBy(PinOf, loads, id.pin);
      SameMacsSameIndex(nodes, WithSettings(nodes, id, entries), other.mac);
      if p < |loads| {
        assert GoodEntry(nodes[k]) && loads[p] in loads;
        AppliedTwice(entries, loads[p]);
        SamePinsSameIndex(loads, loads[p := Applied(entries, loads[p])], other.pin);
      }
    }
  }

  lemma SamePinsSameIndex(loads: seq<LoadRecord>, out: seq<LoadRecord>, pin: Byte)
    requires |out| == |loads| && forall i | 0 <= i < |loads| :: PinOf(out[i]) == PinOf(loads[i])
    ensures IndexBy(PinOf, out, pin) == IndexBy(PinOf, loads, pin)
  {
  }

  /** Central's own loads: they are the loads of its entry from then on, beside those of all other Nodes. */
  lemma LocalIsEntered(nodes: seq<PlanningNode>, name: string, mac: MacAddress, loads: seq<LoadRecord>, now: nat,
                       l: LoadRecord)
    requires GoodRegistry(nodes) && OwnLoads(mac, loads)
    ensures l in AllLoads(WithLocal(nodes, name, mac, loads, now)) <==>
            if l.id.mac == mac then l in loads else l in AllLoads(nodes)
  {
    var k, out := IndexOfMac(nodes, mac), WithLocal(nodes, name, mac, loads, now);
    LoadsOfEntries(nodes, l);
    LoadsOfEntries(out, l);
    assert out[k].loads == loads && forall i | 0 <= i < |nodes| && i != k :: out[i] == nodes[i];
    forall i | 0 <= i < |nodes| && l in nodes[i].loads ensures l.id.mac == nodes[i].mac { assert GoodEntry(nodes[i]); }
    if i :| 0 <= i < |nodes| && l in nodes[i].loads && l.id.mac != mac { assert l in out[i].loads; }
  }

  // ---------------------------------------------------------------------------------------------------
  // What the registry knows of a Node is what it said last
  // ---------------------------------------------------------------------------------------------------

  /** The event is word from this Node: a page of its report, or Central's own entry. */
  predicate Speaks(e: RegistryEvent, mac: MacAddress) {
    match e
    case Hear(a) => Accepted(a.packet) && a.packet.mac == mac
    case Local(_, m, _, _) => m == mac
    case _ => false
  }

  /** The entry says what the event said. */
  predicate SaysAs(n: PlanningNode, e: RegistryEvent) {
    match e
    case Hear(a) =>
      n.parent == a.packet.header.upstream && n.hopCount == a.packet.header.hopCount &&
      n.name == a.packet.header.name && n.lastSeen == a.now
    case Local(name, mac, _, now) => n.parent == mac && n.hopCount == 0 && n.name == name && n.lastSeen == now
    case _ => false
  }

  predicate SameWords(n: PlanningNode, m: PlanningNode) {
    n.parent == m.parent && n.hopCount == m.hopCount && n.name == m.name && n.lastSeen == m.lastSeen
  }

  predicate EnteredAsCentral(nodes: seq<PlanningNode>, mac: MacAddress) {
    Registered(nodes, mac) && Lookup(nodes, mac).isCentral
  }

  lemma HeardWords(nodes: seq<PlanningNode>, a: Arrival, mac: MacAddress)
    ensures var out := ApplyReport(nodes, a.packet, a.now);
            && (Speaks(Hear(a), mac) ==> Registered(out, mac) && SaysAs(Lookup(out, mac), Hear(a)))
            && (!Speaks(Hear(a), mac) ==>
                 && (Registered(out, mac) <==> Registered(nodes, mac))
                 && (Registered(nodes, mac) ==> SameWords(Lookup(out, mac), Lookup(nodes, mac))))
            && (EnteredAsCentral(out, mac) <==> EnteredAsCentral(nodes, mac))
  {
    var p, out := a.packet, ApplyReport(nodes, a.packet, a.now);
    if Accepted(p) {
      var k := IndexOfMac(nodes, p.mac);
      if k == |nodes| {
        AppendedIndex(nodes, ApplyPage(NewNode(p.mac, a.now), p, a.now), mac);
      } else {
        SameMacsSameIndex(nodes, out, mac);
      }
    }
  }

  lemma LocalWords(nodes: seq<PlanningNode>, e: RegistryEvent, mac: MacAddress)
    requires e.Local?
    ensures var out := WithLocal(nodes, e.name, e.mac, e.loads, e.now);
            && (Speaks(e, mac) ==> Registered(out, mac) && SaysAs(Lookup(out, mac), e))
            && (!Speaks(e, mac) ==>
                 && (Registered(out, mac) <==> Registered(nodes, mac))
                 && (Registered(nodes, mac) ==> SameWords(Lookup(out, mac), Lookup(nodes, mac))))
            && (EnteredAsCentral(out, mac) <==> mac == e.mac || EnteredAsCentral(nodes, mac))
            && (Registered(nodes, mac) ==> Lookup(out, mac).pending == Lookup(nodes, mac).pending)
  {
    var k, out := IndexOfMac(nodes, e.mac), WithLocal(nodes, e.name, e.mac, e.loads, e.now);
    if k == |nodes| {
      AppendedIndex(nodes, out[k], mac);
    } else {
      SameMacsSameIndex(nodes, out, mac);
    }
  }

  lemma OtherWords(nodes: seq<PlanningNode>, e: RegistryEvent, mac: MacAddress)
    requires GoodRegistry(nodes) && Takes(nodes, e) && !e.Hear? && !e.Local?
    ensures Registered(Next(nodes, e), mac) <==> Registered(nodes, mac)
    ensures Registered(nodes, mac) ==> SameWords(Lookup(Next(nodes, e), mac), Lookup(nodes, mac))
    ensures EnteredAsCentral(Next(nodes, e), mac) <==> EnteredAsCentral(nodes, mac)
  {
    if e.Cycle? { OnlyLoadsChange(nodes, e.loads); }
    SameMacsSameIndex(nodes, Next(nodes, e), mac);
  }

  /** Exactly a page below its report's page count, of one to eight pages, is word from its Node. */
  lemma PageIsWord(nodes: seq<PlanningNode>, a: Arrival)
    ensures 0 < a.packet.totalPages <= 8 && a.packet.pageIndex < a.packet.totalPages <==>
            Speaks(Hear(a), a.packet.mac)
    ensures !Speaks(Hear(a), a.packet.mac) ==> ApplyReport(nodes, a.packet, a.now) == nodes
  {
  }

  /** The last word of this Node among the first n events. */
  ghost predicate LastWord(events: seq<RegistryEvent>, n: nat, j: int, mac: MacAddress)
    requires n <= |events|
  {
    0 <= j < n && Speaks(events[j], mac) && forall m | j < m < n :: !Speaks(events[m], mac)
  }

  lemma NextWords(nodes: seq<PlanningNode>, e: RegistryEvent, mac: MacAddress)
    requires GoodRegistry(nodes) && Takes(nodes, e)
    ensures Speaks(e, mac) ==> Registered(Next(nodes, e), mac) && SaysAs(Lookup(Next(nodes, e), mac), e)
    ensures !Speaks(e, mac) ==>
              && (Registered(Next(nodes, e), mac) <==> Registered(nodes, mac))
              && (Registered(nodes, mac) ==> SameWords(Lookup(Next(nodes, e), mac), Lookup(nodes, mac)))
    ensures EnteredAsCentral(Next(nodes, e), mac) <==>
            EnteredAsCentral(nodes, mac) || (e.Local? && e.mac == mac)
  {
    if e.Hear? {
      HeardWords(nodes, e.arrival, mac);
    } else if e.Local? {
      LocalWords(nodes, e, mac);
    } else {
      OtherWords(nodes, e, mac);
    }
  }

  /** In every run exactly a Node entered as Central counts as Central. */
  lemma {:induction false} CentralIsLocal(trace: seq<seq<PlanningNode>>, events: seq<RegistryEvent>, n: nat,
                                          mac: MacAddress)
    requires RegistryRun(trace, events) && n <= |events|
    ensures EnteredAsCentral(trace[n], mac) <==> exists j | 0 <= j < n :: events[j].Local? && events[j].mac == mac
  {
    if n > 0 {
      CentralIsLocal(trace, events, n - 1, mac);
      assert RunStep(trace, events, n - 1);
      RunsFeedCycles(trace, events, n - 1);
      NextWords(trace[n - 1], events[n - 1], mac);
    }
  }

  /** In every run an entry holds the upstream, the hop count, the name and the time of its Node's last word. */
  lemma {:induction false} EntryIsLastWord(trace: seq<seq<PlanningNode>>, events: seq<RegistryEvent>, n: nat, j: nat,
                                           mac: MacAddress)
    requires RegistryRun(trace, events) && n <= |events| && LastWord(events, n, j, mac)
    ensures Registered(trace[n], mac) && SaysAs(Lookup(trace[n], mac), events[j])
  {
    assert RunStep(trace, events, n - 1);
    RunsFeedCycles(trace, events, n - 1);
    NextWords(trace[n - 1], events[n - 1], mac);
    if j < n - 1 { EntryIsLastWord(trace, events, n - 1, j, mac); }
  }

  /** And a Node has an entry exactly if it has said something. */
  lemma {:induction false} RegisteredOnceHeard(trace: seq<seq<PlanningNode>>, events: seq<RegistryEvent>, n: nat,
                                               mac: MacAddress)
    requires RegistryRun(trace, events) && n <= |events|
    ensures Registered(trace[n], mac) <==> exists j | 0 <= j < n :: Speaks(events[j], mac)
  {
    if n > 0 {
      RegisteredOnceHeard(trace, events, n - 1, mac);
      assert RunStep(trace, events, n - 1);
      RunsFeedCycles(trace, events, n - 1);
      NextWords(trace[n - 1], events[n - 1], mac);
    }
  }
}
