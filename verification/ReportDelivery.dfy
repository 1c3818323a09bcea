/** What Central's copy of a Node is worth when report pages are lost, repeated, reordered or interleaved. */
module ReportDelivery {
  import opened Common
  import opened Loads
  import opened PinLists
  import opened PlanningNodes
  import opened NodeReports
  import opened CentralReports

  /** A packet as it reaches Central, and when. */
  datatype Arrival = Arrival(packet: NodeReport, now: nat)

  predicate Relevant(n: PlanningNode, a: Arrival) {
    Accepted(a.packet) && a.packet.mac == n.mac
  }

  /** One Node's entry after one packet of any Node. */
  function Receive(n: PlanningNode, a: Arrival): PlanningNode {
    if Relevant(n, a) then ApplyPage(n, a.packet, a.now) else n
  }

  function ReceiveAll(n: PlanningNode, arrivals: seq<Arrival>): (r: PlanningNode)
    ensures r.mac == n.mac
  {
    if arrivals == [] then n
    else Receive(ReceiveAll(n, arrivals[..|arrivals| - 1]), arrivals[|arrivals| - 1])
  }

  /** The registry changes exactly like its entries: a packet touches the entry of the Node it names and no other. */
  lemma RegistryActsPerNode(nodes: seq<PlanningNode>, a: Arrival, i: nat)
    requires DistinctMacs(nodes) && i < |nodes|
    ensures DistinctMacs(ApplyReport(nodes, a.packet, a.now))
    ensures |ApplyReport(nodes, a.packet, a.now)| >= |nodes|
    ensures ApplyReport(nodes, a.packet, a.now)[i] == Receive(nodes[i], a)
  {
    IndexOfOwnMac(nodes, i);
  }

  // ---------------------------------------------------------------------------------------------------
  // The collection in progress, in terms of the packets that arrived
  // ---------------------------------------------------------------------------------------------------

  predicate SameKey(pending: PendingReport, p: NodeReport) {
    pending.sequenceId == p.sequenceId && pending.totalPages == p.totalPages
  }

  predicate Completes(n: PlanningNode, p: NodeReport)
    requires Accepted(p)
  {
    var mask := Restart(n.pending, p).mask;
    !HasPage(mask, p.pageIndex) && mask | PageBit(p.pageIndex) == AllPagesMask(p.totalPages)
  }

  /**
   * Where the current collection began: at the packet that changed the key, or after the one that completed the last
   * collection.
   */
  function WindowStart(n: PlanningNode, arrivals: seq<Arrival>): (s: nat)
    ensures s <= |arrivals|
  {
    if arrivals == [] then 0
    else
      var k := |arrivals| - 1;
      var before := ReceiveAll(n, arrivals[..k]);
      var a := arrivals[k];
      if !Relevant(n, a) then WindowStart(n, arrivals[..k])
      else if Completes(before, a.packet) then k + 1
      else if !SameKey(before.pending, a.packet) then k
      else WindowStart(n, arrivals[..k])
  }

  ghost predicate InWindow(n: PlanningNode, arrivals: seq<Arrival>, s: nat, i: int, page: nat) {
    s <= i < |arrivals| && Relevant(n, arrivals[i]) && arrivals[i].packet.pageIndex == page
  }

  /** The copy of a page that was entered: the first one in the window. */
  ghost predicate FirstCopy(n: PlanningNode, arrivals: seq<Arrival>, s: nat, i: int) {
    && s <= i < |arrivals| && Relevant(n, arrivals[i])
    && forall j | s <= j < i && Relevant(n, arrivals[j]) :: arrivals[j].packet.pageIndex != arrivals[i].packet.pageIndex
  }

  predicate Lists(a: Arrival, pin: Byte) {
    pin in ListedPins(UsedSlots(a.packet))
  }

  /**
   * The mask is exactly the set of pages that arrived in the window, and the pins are those their first copies listed.
   */
  ghost predicate Collects(n: PlanningNode, arrivals: seq<Arrival>, s: nat, pending: PendingReport) {
    && s <= |arrivals|
    && (forall i | s <= i < |arrivals| && Relevant(n, arrivals[i]) :: SameKey(pending, arrivals[i].packet))
    && (forall page: nat {:trigger HasPage(pending.mask, page)} | page < MAX_TRACKED_PAGES ::
          HasPage(pending.mask, page) <==> exists i :: InWindow(n, arrivals, s, i, page))
    && (forall pin: Byte ::
       pin in pending.pins <==> exists i :: FirstCopy(n, arrivals, s, i) && Lists(arrivals[i], pin))
  }

  lemma EmptyWindow(n: PlanningNode, arrivals: seq<Arrival>, pending: PendingReport)
    requires pending.mask == 0 && pending.pins == []
    ensures Collects(n, arrivals, |arrivals|, pending)
  {
    forall page: nat {:trigger HasPage(pending.mask, page)} | page < MAX_TRACKED_PAGES ensures !HasPage(pending.mask,
        page) {
      AddPage(0, page, page);
    }
  }

  lemma PrefixWindow(n: PlanningNode, arrivals: seq<Arrival>, s: nat, a: Arrival)
    ensures forall i: int, page: nat | i < |arrivals| ::
              InWindow(n, arrivals + [a], s, i, page) <==> InWindow(n, arrivals, s, i, page)
    ensures forall i: int | i < |arrivals| :: FirstCopy(n, arrivals + [a], s, i) <==> FirstCopy(n, arrivals, s, i)
    ensures forall i: int | 0 <= i < |arrivals| :: (arrivals + [a])[i] == arrivals[i]
  {
    var all := arrivals + [a];
    assert forall i: int | 0 <= i < |arrivals| :: all[i] == arrivals[i];
    forall i: int | i < |arrivals| ensures FirstCopy(n, all, s, i) <==> FirstCopy(n, arrivals, s, i) {
      if s <= i {
        assert (forall j | s <= j < i && Relevant(n, all[j]) :: all[j].packet.pageIndex != all[i].packet.pageIndex)
          <==> (forall j | s <= j < i && Relevant(n, arrivals[j]) ::
              arrivals[j].packet.pageIndex != arrivals[i].packet.pageIndex);
      }
    }
  }

  /** A packet that is irrelevant, or repeats a page of the window, leaves the collection as it is. */
  lemma RepeatKeepsCollection(n: PlanningNode, arrivals: seq<Arrival>, s: nat, pending: PendingReport, a: Arrival)
    requires Collects(n, arrivals, s, pending)
    requires Relevant(n, a) ==> SameKey(pending, a.packet) && HasPage(pending.mask, a.packet.pageIndex)
    ensures Collects(n, arrivals + [a], s, pending)
  {
    var all := arrivals + [a];
    var k := |arrivals|;
    PrefixWindow(n, arrivals, s, a);
    if Relevant(n, a) {
      var first :| InWindow(n, arrivals, s, first, a.packet.pageIndex);
      assert InWindow(n, all, s, first, a.packet.pageIndex);
    }
    assert !FirstCopy(n, all, s, k);
    forall pin: Byte ensures pin in pending.pins <==> exists i :: FirstCopy(n, all, s, i) && Lists(all[i], pin) {
      if i :| FirstCopy(n, arrivals, s, i) && Lists(arrivals[i], pin) {
        assert FirstCopy(n, all, s, i) && Lists(all[i], pin);
      }
    }
  }

  lemma NewPagePins(n: PlanningNode, arrivals: seq<Arrival>, s: nat, pins: seq<Byte>, a: Arrival, pin: Byte)
    requires s <= |arrivals| && FirstCopy(n, arrivals + [a], s, |arrivals|)
    requires pin in pins <==> exists i :: FirstCopy(n, arrivals, s, i) && Lists(arrivals[i], pin)
    ensures pin in pins + ListedPins(UsedSlots(a.packet)) <==>
            exists i :: FirstCopy(n, arrivals + [a], s, i) && Lists((arrivals + [a])[i], pin)
  {
    var all := arrivals + [a];
    PrefixWindow(n, arrivals, s, a);
    if pin in pins {
      var i :| FirstCopy(n, arrivals, s, i) && Lists(arrivals[i], pin);
      assert FirstCopy(n, all, s, i) && Lists(all[i], pin);
    } else if Lists(a, pin) {
      assert Lists(all[|arrivals|], pin);
    }
  }

  lemma NewPageMask(n: PlanningNode, arrivals: seq<Arrival>, s: nat, mask: bv8, a: Arrival, page: nat)
    requires s <= |arrivals| && Relevant(n, a) && page < MAX_TRACKED_PAGES
    requires HasPage(mask, page) <==> exists i :: InWindow(n, arrivals, s, i, page)
    ensures HasPage(mask | PageBit(a.packet.pageIndex), page) <==> exists i :: InWindow(n, arrivals + [a], s, i, page)
  {
    PrefixWindow(n, arrivals, s, a);
    AddPage(mask, a.packet.pageIndex, page);
    assert a.packet.pageIndex == page ==> InWindow(n, arrivals + [a], s, |arrivals|, page);
    if i :| InWindow(n, arrivals, s, i, page) { assert InWindow(n, arrivals + [a], s, i, page); }
  }

  /** A new page adds its bit and its pins. */
  lemma NewPageJoinsCollection(n: PlanningNode, arrivals: seq<Arrival>, s: nat, pending: PendingReport, a: Arrival)
    requires Collects(n, arrivals, s, pending)
    requires Relevant(n, a) && SameKey(pending, a.packet) && !HasPage(pending.mask, a.packet.pageIndex)
    ensures Collects(n, arrivals + [a], s,
                     pending.(mask := pending.mask | PageBit(a.packet.pageIndex),
                              pins := pending.pins + ListedPins(UsedSlots(a.packet))))
    ensures FirstCopy(n, arrivals + [a], s, |arrivals|)
  {
    var all := arrivals + [a];
    var p := a.packet.pageIndex;
    forall j | s <= j < |arrivals| && Relevant(n, arrivals[j]) ensures arrivals[j].packet.pageIndex != p {
      assert InWindow(n, arrivals, s, j, arrivals[j].packet.pageIndex);
    }
    assert FirstCopy(n, all, s, |arrivals|);
    var mask := pending.mask | PageBit(p);
    forall page: nat {:trigger HasPage(mask, page)} | page < MAX_TRACKED_PAGES
      ensures HasPage(mask, page) <==> exists i :: InWindow(n, all, s, i, page)
    {
      NewPageMask(n, arrivals, s, pending.mask, a, page);
    }
    forall pin: Byte
      ensures pin in pending.pins + ListedPins(UsedSlots(a.packet)) <==>
              exists i :: FirstCopy(n, all, s, i) && Lists(all[i], pin)
    {
      NewPagePins(n, arrivals, s, pending.pins, a, pin);
    }
  }

  /** The collection a relevant packet finds once a changed key has restarted it. */
  lemma RestartedCollection(n: PlanningNode, arrivals: seq<Arrival>, s: nat, pending: PendingReport, a: Arrival)
    returns (s': nat)
    requires Relevant(n, a) && Collects(n, arrivals, s, pending)
    ensures Collects(n, arrivals, s', Restart(pending, a.packet)) && SameKey(Restart(pending, a.packet), a.packet)
    ensures s' == if SameKey(pending, a.packet) then s else |arrivals|
  {
    if SameKey(pending, a.packet) {
      s' := s;
    } else {
      s' := |arrivals|;
      EmptyWindow(n, arrivals, Restart(pending, a.packet));
    }
  }

  /** The collection after a relevant packet. */
  function PendingAfter(n: PlanningNode, a: Arrival): PendingReport
    requires Relevant(n, a)
  {
    var pending, p := Restart(n.pending, a.packet), a.packet;
    if HasPage(pending.mask, p.pageIndex) then pending
    else if Completes(n, p) then pending.(mask := 0, pins := [])
    else pending.(mask := pending.mask | PageBit(p.pageIndex), pins := pending.pins + ListedPins(UsedSlots(p)))
  }

  lemma PendingAfterReceive(n: PlanningNode, a: Arrival)
    requires Relevant(n, a)
    ensures Receive(n, a).pending == PendingAfter(n, a)
  {
    NewPagePending(Prepare(n, a.packet, a.now), a.packet);
  }

  lemma NewPagePending(h: PlanningNode, p: NodeReport)
    requires Accepted(p)
    ensures var mask := h.pending.mask | PageBit(p.pageIndex);
            Intake(h, p).pending ==
            if mask == AllPagesMask(p.totalPages) then h.pending.(mask := 0, pins := [])
            else h.pending.(mask := mask, pins := h.pending.pins + ListedPins(UsedSlots(p)))
  {
  }

  lemma RelevantKeepsCollection(n: PlanningNode, init: seq<Arrival>, before: PlanningNode, s: nat, a: Arrival)
    requires Relevant(n, a) && before.mac == n.mac && Collects(n, init, s, before.pending)
    ensures var s' := if SameKey(before.pending, a.packet) then s else |init|;
            Collects(n, init + [a], if Completes(before, a.packet) then |init| + 1 else s', PendingAfter(before, a))
  {
    var s' := RestartedCollection(n, init, s, before.pending, a);
    var pending := Restart(before.pending, a.packet);
    if Completes(before, a.packet) {
      EmptyWindow(n, init + [a], PendingAfter(before, a));
    } else if HasPage(pending.mask, a.packet.pageIndex) {
      RepeatKeepsCollection(n, init, s', pending, a);
    } else {
      NewPageJoinsCollection(n, init, s', pending, a);
    }
  }

  /**
   * Over every stream: the eight-bit mask is exactly the set of pages received since the last reset, the pins exactly
   * those their first copies validly listed.
   */
  lemma {:induction false} MaskIsPagesReceived(n: PlanningNode, arrivals: seq<Arrival>)
    requires n.pending.mask == 0 && n.pending.pins == []
    ensures Collects(n, arrivals, WindowStart(n, arrivals), ReceiveAll(n, arrivals).pending)
  {
    if arrivals == [] {
      EmptyWindow(n, arrivals, n.pending);
    } else {
      var init, a := arrivals[..|arrivals| - 1], arrivals[|arrivals| - 1];
      assert arrivals == init + [a];
      var before, s := ReceiveAll(n, init), WindowStart(n, init);
      MaskIsPagesReceived(n, init);
      if Relevant(n, a) {
        RelevantKeepsCollection(n, init, before, s, a);
        PendingAfterReceive(before, a);
      } else {
        RepeatKeepsCollection(n, init, s, before.pending, a);
      }
    }
  }

  // ---------------------------------------------------------------------------------------------------
  // Loads leave only with a complete report
  // ---------------------------------------------------------------------------------------------------

  lemma ErasePinKeepsOthers(loads: seq<LoadRecord>, gone: Byte, pin: Byte)
    requires HasPin(PinOf, loads, pin) && pin != gone
    ensures HasPin(PinOf, ErasePin(PinOf, loads, gone), pin)
  {
    var i :| 0 <= i < |loads| && PinOf(loads[i]) == pin;
    var k := IndexBy(PinOf, loads, gone);
    if k < |loads| {
      var r, j := ErasePin(PinOf, loads, gone), if i < k then i else i - 1;
      assert r == loads[..k] + loads[k + 1..] && i != k;
      assert r[j] == loads[i] && PinOf(r[j]) == pin;
    }
  }

  lemma {:induction false} EraseAllKeepsOthers(loads: seq<LoadRecord>, gone: seq<Byte>, pin: Byte)
    requires HasPin(PinOf, loads, pin) && pin !in gone
    ensures HasPin(PinOf, EraseAll(loads, gone), pin)
  {
    if gone != [] {
      EraseAllKeepsOthers(loads, gone[..|gone| - 1], pin);
      assert gone[|gone| - 1] in gone;
      ErasePinKeepsOthers(EraseAll(loads, gone[..|gone| - 1]), gone[|gone| - 1], pin);
    }
  }

  lemma {:induction false} ListedIsNotAbsent(loads: seq<LoadRecord>, pins: seq<Byte>, pin: Byte)
    requires pin in pins
    ensures pin !in AbsentPins(loads, pins)
  {
    if loads != [] { ListedIsNotAbsent(loads[..|loads| - 1], pins, pin); }
  }

  lemma UpsertKeepsPins(mac: MacAddress, loads: seq<LoadRecord>, r: LoadReport, pin: Byte)
    requires ValidLoadReport(r) && HasPin(PinOf, loads, pin)
    ensures HasPin(PinOf, Upsert(mac, loads, r), pin)
  {
    var i :| 0 <= i < |loads| && PinOf(loads[i]) == pin;
    assert PinOf(Upsert(mac, loads, r)[i]) == pin;
  }

  lemma {:induction false} ApplySlotsKeepsPins(mac: MacAddress, loads: seq<LoadRecord>, slots: seq<LoadReport>,
                                               pin: Byte)
    requires HasPin(PinOf, loads, pin)
    ensures HasPin(PinOf, ApplySlots(mac, loads, slots), pin)
  {
    if slots != [] {
      var init, r := slots[..|slots| - 1], slots[|slots| - 1];
      ApplySlotsKeepsPins(mac, loads, init, pin);
      if ValidLoadReport(r) { UpsertKeepsPins(mac, ApplySlots(mac, loads, init), r, pin); }
    }
  }

  lemma {:induction false} FirstCopyOf(n: PlanningNode, arrivals: seq<Arrival>, s: nat, i: int) returns (f: int)
    requires s <= i < |arrivals| && Relevant(n, arrivals[i])
    ensures FirstCopy(n, arrivals, s, f) && arrivals[f].packet.pageIndex == arrivals[i].packet.pageIndex
    decreases i
  {
    if j :| s <= j < i && Relevant(n, arrivals[j]) && arrivals[j].packet.pageIndex == arrivals[i].packet.pageIndex {
      f := FirstCopyOf(n, arrivals, s, j);
    } else {
      f := i;
    }
  }

  /** A collection whose mask is full has a copy of every page. */
  lemma FullMaskHasEveryPage(n: PlanningNode, arrivals: seq<Arrival>, s: nat, pending: PendingReport, page: nat)
    returns (f: int)
    requires Collects(n, arrivals, s, pending)
    requires 1 <= pending.totalPages <= MAX_TRACKED_PAGES && pending.mask == AllPagesMask(pending.totalPages)
    requires page < pending.totalPages
    ensures FirstCopy(n, arrivals, s, f) && arrivals[f].packet.pageIndex == page
  {
    assert forall i: nat | pending.totalPages <= i < MAX_TRACKED_PAGES :: !HasPage(pending.mask, i);
    FullMask(pending.mask, pending.totalPages);
    assert HasPage(pending.mask, page);
    var i :| InWindow(n, arrivals, s, i, page);
    f := FirstCopyOf(n, arrivals, s, i);
  }

  /** The copy of this page that was entered did not list the pin. */
  ghost predicate EnteredWithout(n: PlanningNode, arrivals: seq<Arrival>, s: nat, page: nat, pin: Byte) {
    exists f :: FirstCopy(n, arrivals, s, f) && arrivals[f].packet.pageIndex == page && !Lists(arrivals[f], pin)
  }

  /**
   * A load disappears only at a packet that completes a report: every page of one sequence arrived since the last
   * reset, and the copy entered for no page listed its pin.
   */
  lemma RemovedOnlyByCompleteReport(n: PlanningNode, arrivals: seq<Arrival>, a: Arrival, pin: Byte) returns (s: nat)
    requires n.pending.mask == 0 && n.pending.pins == []
    requires HasPin(PinOf, ReceiveAll(n, arrivals).loads, pin)
    requires !HasPin(PinOf, Receive(ReceiveAll(n, arrivals), a).loads, pin)
    ensures s <= |arrivals| && Relevant(n, a)
    ensures var all := arrivals + [a];
            && (forall i | s <= i < |all| && Relevant(n, all[i]) ::
                  all[i].packet.sequenceId == a.packet.sequenceId && all[i].packet.totalPages == a.packet.totalPages)
            && (forall page: nat | page < a.packet.totalPages :: EnteredWithout(n, all, s, page, pin))
  {
    var before := ReceiveAll(n, arrivals);
    assert Relevant(n, a);
    MaskIsPagesReceived(n, arrivals);
    s := RestartedCollection(n, arrivals, WindowStart(n, arrivals), before.pending, a);
    var pending := Restart(before.pending, a.packet);
    var all := arrivals + [a];
    ApplySlotsKeepsPins(before.mac, before.loads, UsedSlots(a.packet), pin);
    assert !HasPage(pending.mask, a.packet.pageIndex) && Completes(before, a.packet);
    NewPageJoinsCollection(n, arrivals, s, pending, a);
    var full := pending.(mask := pending.mask | PageBit(a.packet.pageIndex), pins :=
        pending.pins + ListedPins(UsedSlots(a.packet)));
    assert pin !in full.pins by {
      if pin in full.pins {
        var loads := ApplySlots(before.mac, before.loads, UsedSlots(a.packet));
        ListedIsNotAbsent(loads, full.pins, pin);
        EraseAllKeepsOthers(loads, AbsentPins(loads, full.pins), pin);
      }
    }
    forall page: nat | page < a.packet.totalPages ensures EnteredWithout(n, all, s, page, pin)
    {
      var f := FullMaskHasEveryPage(n, all, s, full, page);
      assert FirstCopy(n, all, s, f) && all[f].packet.pageIndex == page && !Lists(all[f], pin);
    }
  }
}
