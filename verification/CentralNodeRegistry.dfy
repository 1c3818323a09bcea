/** Central folds report pages, in whatever order they arrive, into its copy of a Node's loads. */
module CentralReports {
  import opened Common
  import opened Loads
  import opened PinLists
  import opened PlanningNodes
  import opened NodeReports

  // ---------------------------------------------------------------------------------------------------
  // One page, as a function
  // ---------------------------------------------------------------------------------------------------

  function ReportedSchedule(r: LoadReport): AutoSchedule {
    MakeSchedule(r.scheduleEnabled != 0, r.startHour, r.startMinute, r.endHour, r.endMinute)
  }

  /** What the registry holds for a load right after a valid report of it. */
  function Reported(mac: MacAddress, r: LoadReport, rejection: Byte): LoadRecord
    requires ValidLoadReport(r)
  {
    LoadRecord(LoadId(mac, r.pin), CString(r.name), r.watts.value, r.priority, PowerTypeOf(r.powerType), ModeOf(r.mode),
               if IsAuto(ModeOf(r.mode)) then ReportedSchedule(r) else NO_SCHEDULE, rejection)
  }

  function Upsert(mac: MacAddress, loads: seq<LoadRecord>, r: LoadReport): seq<LoadRecord>
    requires ValidLoadReport(r)
  {
    var k := IndexBy(PinOf, loads, r.pin);
    if k == |loads| then loads + [Reported(mac, r, 0)]
    else loads[k := Reported(loads[k].id.mac, r, loads[k].rejection)]
  }

  function ApplySlots(mac: MacAddress, loads: seq<LoadRecord>, slots: seq<LoadReport>): seq<LoadRecord> {
    if slots == [] then loads
    else
      var before := ApplySlots(mac, loads, slots[..|slots| - 1]);
      var r := slots[|slots| - 1];
      if ValidLoadReport(r) then Upsert(mac, before, r) else before
  }

  function ListedPins(slots: seq<LoadReport>): seq<Byte> {
    if slots == [] then []
    else
      var before := ListedPins(slots[..|slots| - 1]);
      var r := slots[|slots| - 1];
      if ValidLoadReport(r) then before + [r.pin] else before
  }

  /** The pins of loads the report did not list. */
  function AbsentPins(loads: seq<LoadRecord>, pins: seq<Byte>): seq<Byte> {
    if loads == [] then []
    else
      var before := AbsentPins(loads[..|loads| - 1], pins);
      var pin := PinOf(loads[|loads| - 1]);
      if pin in pins then before else before + [pin]
  }

  function EraseAll(loads: seq<LoadRecord>, pins: seq<Byte>): seq<LoadRecord> {
    ErasePins(PinOf, loads, pins)
  }

  predicate Accepted(p: NodeReport) {
    1 <= p.totalPages <= MAX_TRACKED_PAGES && p.pageIndex < p.totalPages
  }

  function UsedSlots(p: NodeReport): seq<LoadReport> {
    p.loads[..Min(p.numberOfLoads, MAX_LOADS_PER_PACKET)]
  }

  /** A page of another sequence, or of another page count, starts the collection afresh. */
  function Restart(pending: PendingReport, p: NodeReport): PendingReport {
    if pending.sequenceId != p.sequenceId || pending.totalPages != p.totalPages
    then PendingReport(p.sequenceId, p.totalPages, 0, [])
    else pending
  }

  /**
   * The collection after a new page; with the last missing page the unlisted loads go and the collection starts over.
   */
  function Settle(n: PlanningNode, loads: seq<LoadRecord>, pins: seq<Byte>, mask: bv8, complete: bool): PlanningNode {
    if complete
    then n.(loads := EraseAll(loads, AbsentPins(loads, pins)), pending := n.pending.(mask := 0, pins := []))
    else n.(loads := loads, pending := n.pending.(mask := mask, pins := pins))
  }

  function Intake(n: PlanningNode, p: NodeReport): PlanningNode
    requires Accepted(p)
  {
    var mask := n.pending.mask | PageBit(p.pageIndex);
    Settle(n, ApplySlots(n.mac, n.loads, UsedSlots(p)), n.pending.pins + ListedPins(UsedSlots(p)),
           mask, mask == AllPagesMask(p.totalPages))
  }

  function Prepare(n: PlanningNode, p: NodeReport, now: nat): PlanningNode {
    n.(name := p.header.name, parent := p.header.upstream, hopCount := p.header.hopCount, lastSeen := now,
       pending := Restart(n.pending, p))
  }

  function ApplyPage(n: PlanningNode, p: NodeReport, now: nat): PlanningNode
    requires Accepted(p)
  {
    var h := Prepare(n, p, now);
    if HasPage(h.pending.mask, p.pageIndex) then h else Intake(h, p)
  }

  function NewNode(mac: MacAddress, now: nat): PlanningNode {
    PlanningNode(mac, [], "", ZERO_MAC, 0, false, now, NO_REPORT)
  }

  /** The whole registry after one packet: only the reporting Node's entry changes, or a new one is appended. */
  function ApplyReport(nodes: seq<PlanningNode>, p: NodeReport, now: nat): seq<PlanningNode> {
    if !Accepted(p) then nodes
    else
      var k := IndexOfMac(nodes, p.mac);
      if k == |nodes| then nodes + [ApplyPage(NewNode(p.mac, now), p, now)]
      else nodes[k := ApplyPage(nodes[k], p, now)]
  }

  /** The whole registry after Central's own loads changed: its entry is overwritten but for a collection, or new. */
  function WithLocal(nodes: seq<PlanningNode>, name: string, mac: MacAddress, loads: seq<LoadRecord>,
                     now: nat): seq<PlanningNode> {
    var k := IndexOfMac(nodes, mac);
    if k == |nodes| then nodes + [PlanningNode(mac, loads, name, mac, 0, true, now, NO_REPORT)]
    else nodes[k := PlanningNode(mac, loads, name, mac, 0, true, now, nodes[k].pending)]
  }

  /** The whole registry after the removal of a load was confirmed. */
  function WithoutLoad(nodes: seq<PlanningNode>, id: LoadId): seq<PlanningNode> {
    var k := IndexOfMac(nodes, id.mac);
    if k == |nodes| then nodes else nodes[k := nodes[k].(loads := ErasePin(PinOf, nodes[k].loads, id.pin))]
  }

  // ---------------------------------------------------------------------------------------------------
  // The registry object
  // ---------------------------------------------------------------------------------------------------

  /** The setters Central calls on a load it already knows add up to the reported load. */
  method ApplyReportToLoad(load: Load, r: LoadReport)
    requires ValidLoadReport(r) && load.id.pin == r.pin
    modifies load
    ensures load.Record() == Reported(load.id.mac, r, old(load.rejection))
  {
    load.name := CString(r.name);
    load.SetMode(ModeOf(r.mode));
    var ok := load.SetPowerRatingWatts(r.watts);
    load.powerType := PowerTypeOf(r.powerType);
    load.priority := r.priority;
    ApplyReportedSchedule(load, r);
  }

  method ApplyReportedSchedule(load: Load, r: LoadReport)
    requires ValidLoadReport(r)
    modifies load`schedule
    ensures load.schedule == if IsAuto(load.mode) then ReportedSchedule(r) else NO_SCHEDULE
  {
    if IsAuto(load.mode) {
      var ok := load.SetSchedule(ReportedSchedule(r));
    } else {
      load.schedule := NO_SCHEDULE;
    }
  }

  method UpsertReported(mac: MacAddress, loads: seq<LoadRecord>, r: LoadReport) returns (out: seq<LoadRecord>)
    requires ValidLoadReport(r)
    ensures out == Upsert(mac, loads, r)
  {
    var k := IndexBy(PinOf, loads, r.pin);
    if k == |loads| {
      var created := new Load(LoadId(mac, r.pin), CString(r.name), r.watts, r.priority, PowerTypeOf(r.powerType),
                              ModeOf(r.mode));
      ApplyReportedSchedule(created, r);
      out := loads + [created.Record()];
    } else {
      var existing := new Load.At(loads[k]);
      ApplyReportToLoad(existing, r);
      out := loads[k := existing.Record()];
    }
  }

  /** Drops the loads whose pins were not reported: first the pins are collected, then erased one by one. */
  method PruneUnlisted(loads: seq<LoadRecord>, pins: seq<Byte>) returns (out: seq<LoadRecord>)
    ensures out == EraseAll(loads, AbsentPins(loads, pins))
  {
    var toRemove := CollectAbsentPins(loads, pins);
    out := loads;
    for i := 0 to |toRemove|
      invariant out == EraseAll(loads, toRemove[..i])
    {
      assert toRemove[..i + 1][..i] == toRemove[..i];
      out := ErasePin(PinOf, out, toRemove[i]);
    }
    assert toRemove[..|toRemove|] == toRemove;
  }

  method CollectAbsentPins(loads: seq<LoadRecord>, pins: seq<Byte>) returns (toRemove: seq<Byte>)
    ensures toRemove == AbsentPins(loads, pins)
  {
    toRemove := [];
    for i := 0 to |loads|
      invariant toRemove == AbsentPins(loads[..i], pins)
    {
      assert loads[..i + 1][..i] == loads[..i];
      if PinOf(loads[i]) !in pins {
        toRemove := toRemove + [PinOf(loads[i])];
      }
    }
    assert loads[..|loads|] == loads;
  }

  method ApplyReportedLoads(mac: MacAddress, loads: seq<LoadRecord>, pins: seq<Byte>, slots: seq<LoadReport>)
    returns (loads': seq<LoadRecord>, pins': seq<Byte>)
    ensures loads' == ApplySlots(mac, loads, slots)
    ensures pins' == pins + ListedPins(slots)
  {
    loads', pins' := loads, pins;
    for i := 0 to |slots|
      invariant loads' == ApplySlots(mac, loads, slots[..i])
      invariant pins' == pins + ListedPins(slots[..i])
    {
      assert slots[..i + 1][..i] == slots[..i];
      if ValidLoadReport(slots[i]) {
        pins' := pins' + [slots[i].pin];
        loads' := UpsertReported(mac, loads', slots[i]);
      }
    }
    assert slots[..|slots|] == slots;
  }

  method SettleReport(entry: PlanningNode, loads: seq<LoadRecord>, pins: seq<Byte>, mask: bv8, complete: bool)
    returns (node: PlanningNode)
    ensures node == Settle(entry, loads, pins, mask, complete)
  {
    if !complete {
      return entry.(loads := loads, pending := entry.pending.(mask := mask, pins := pins));
    }
    var kept := PruneUnlisted(loads, pins);
    return entry.(loads := kept, pending := entry.pending.(mask := 0, pins := []));
  }

  method IntakePage(entry: PlanningNode, p: NodeReport) returns (node: PlanningNode)
    requires Accepted(p)
    ensures node == Intake(entry, p)
  {
    var loads, pins := ApplyReportedLoads(entry.mac, entry.loads, entry.pending.pins, UsedSlots(p));
    var mask := entry.pending.mask | PageBit(p.pageIndex);
    node := SettleReport(entry, loads, pins, mask, mask == AllPagesMask(p.totalPages));
  }

  method PrepareEntry(entry: PlanningNode, p: NodeReport, now: nat) returns (node: PlanningNode)
    ensures node == Prepare(entry, p, now)
  {
    node := entry.(name := p.header.name, parent := p.header.upstream, hopCount := p.header.hopCount, lastSeen := now);
    if node.pending.sequenceId != p.sequenceId || node.pending.totalPages != p.totalPages {
      node := node.(pending := PendingReport(p.sequenceId, p.totalPages, 0, []));
    }
  }

  method ApplyPageToEntry(entry: PlanningNode, p: NodeReport, now: nat) returns (node: PlanningNode)
    requires Accepted(p)
    ensures node == ApplyPage(entry, p, now)
  {
    node := PrepareEntry(entry, p, now);
    if !HasPage(node.pending.mask, p.pageIndex) {
      node := IntakePage(node, p);
    }
  }

  class CentralNodeRegistry {
    var planningNodes: seq<PlanningNode>

    constructor ()
      ensures planningNodes == []
    {
      planningNodes := [];
    }

    method AddLocalCentralNode(name: string, mac: MacAddress, loads: seq<LoadRecord>, now: nat)
      modifies this
      ensures planningNodes == WithLocal(old(planningNodes), name, mac, loads, now)
    {
      var k := FindNodeByMacAddress(planningNodes, mac);
      if k == |planningNodes| {
        planningNodes := planningNodes + [PlanningNode(mac, loads, name, mac, 0, true, now, NO_REPORT)];
      } else {
        planningNodes := planningNodes[k :=
            PlanningNode(mac, loads, name, mac, 0, true, now, planningNodes[k].pending)];
      }
    }

    method ApplyNodeReport(p: NodeReport, now: nat)
      modifies this
      ensures planningNodes == ApplyReport(old(planningNodes), p, now)
    {
      if p.totalPages == 0 || p.totalPages > MAX_TRACKED_PAGES || p.pageIndex >= p.totalPages {
        return;
      }
      var k := FindNodeByMacAddress(planningNodes, p.mac);
      if k == |planningNodes| {
        planningNodes := planningNodes + [NewNode(p.mac, now)];
      }
      var node := ApplyPageToEntry(planningNodes[k], p, now);
      planningNodes := planningNodes[k := node];
    }

    method RemoveLoad(id: LoadId) returns (removed: bool)
      modifies this
      ensures planningNodes == WithoutLoad(old(planningNodes), id)
      ensures removed <==> var k := IndexOfMac(old(planningNodes), id.mac);
                           k < |old(planningNodes)| && HasPin(PinOf, old(planningNodes)[k].loads, id.pin)
    {
      var k := FindNodeByMacAddress(planningNodes, id.mac);
      if k == |planningNodes| {
        return false;
      }
      var n := planningNodes[k];
      planningNodes := planningNodes[k := n.(loads := ErasePin(PinOf, n.loads, id.pin))];
      return HasPin(PinOf, n.loads, id.pin);
    }
  }
}
