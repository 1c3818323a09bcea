/** End to end: what a Smart Node pages out is what Central ends up holding. */
module ReportRoundTrip {
  import opened Common
  import opened Loads
  import opened PinLists
  import opened PlanningNodes
  import opened NodeReports
  import opened CentralReports
  import opened ReportDelivery

  /** Central's own rejection note is not part of the report. */
  function View(l: LoadRecord): LoadRecord { l.(rejection := 0) }

  ghost function Views(loads: seq<LoadRecord>): set<LoadRecord> {
    set l | l in loads :: View(l)
  }

  ghost function PinSet(loads: seq<LoadRecord>): set<Byte> {
    set l | l in loads :: PinOf(l)
  }

  /**
   * A load a Smart Node can have configured: a C string that fits its buffer, a user priority, and a load Load's
   * setters keep.
   */
  ghost predicate Reportable(mac: MacAddress, l: LoadRecord) {
    && l.id.mac == mac
    && 0 < |l.name| < NAME_SIZE && '\0' !in l.name
    && l.priority <= 10
    && LoadInv(l)
  }

  ghost predicate AllReportable(mac: MacAddress, loads: seq<LoadRecord>) {
    (forall l <- loads :: Reportable(mac, l)) && DistinctPins(PinOf, loads)
  }

  /** One load survives encoding and decoding. */
  lemma LoadRoundTrip(mac: MacAddress, l: LoadRecord, rejection: Byte)
    requires Reportable(mac, l)
    ensures ValidLoadReport(ToReport(l))
    ensures Reported(mac, ToReport(l), rejection) == l.(rejection := rejection)
  {
    CStringOfPadded(l.name, []);
    assert l.name + [] == l.name;
    CStringOfPadded(l.name, seq(NAME_SIZE - |l.name|, _ => '\0'));
  }

  /** The other way round: a report that is accepted is, in every field that counts, the one of a load it decodes to. */
  lemma AcceptedIsReportable(mac: MacAddress, r: LoadReport, rejection: Byte)
    requires ValidLoadReport(r)
    ensures var l := Reported(mac, r, rejection);
            && Reportable(mac, l) && l.rejection == rejection
            && var again := ToReport(l);
               && again.pin == r.pin && again.mode == r.mode && again.powerType == r.powerType
               && again.priority == r.priority && again.watts == r.watts && CString(again.name) == CString(r.name)
               && (r.mode >= 2 ==> (again.scheduleEnabled != 0 <==> r.scheduleEnabled != 0))
               && (r.mode >= 2 && r.scheduleEnabled != 0 ==>
                     again.startHour == r.startHour && again.startMinute == r.startMinute &&
                     again.endHour == r.endHour && again.endMinute == r.endMinute)
  {
    BufferedName(CString(r.name));
  }

  /** A page lists the pins of its acceptable slots and no others. */
  lemma {:induction false} ListedExactly(slots: seq<LoadReport>, pin: Byte)
    ensures pin in ListedPins(slots) <==> exists r :: r in slots && ValidLoadReport(r) && r.pin == pin
  {
    if slots != [] {
      ListedExactly(slots[..|slots| - 1], pin);
      assert forall r :: r in slots <==> r in slots[..|slots| - 1] || r == slots[|slots| - 1];
    }
  }

  /** Whatever packets arrive, forged ones included, an entry's loads stay such as a Smart Node can have configured. */
  lemma {:induction false} StreamsKeepReportable(n: PlanningNode, arrivals: seq<Arrival>)
    requires forall l <- n.loads :: Reportable(n.mac, l)
    ensures forall l <- ReceiveAll(n, arrivals).loads :: Reportable(n.mac, l)
  {
    if arrivals != [] {
      var init, a := arrivals[..|arrivals| - 1], arrivals[|arrivals| - 1];
      var before := ReceiveAll(n, init);
      StreamsKeepReportable(n, init);
      if Relevant(before, a) {
        var entered := ApplySlots(n.mac, before.loads, UsedSlots(a.packet));
        var pins := Prepare(before, a.packet, a.now).pending.pins + ListedPins(UsedSlots(a.packet));
        SlotsKeepReportable(n.mac, before.loads, UsedSlots(a.packet));
        ErasedAreKept(entered, AbsentPins(entered, pins));
        var out := Receive(before, a).loads;
        assert out == before.loads || out == entered || out == EraseAll(entered, AbsentPins(entered, pins));
      }
    }
  }

  lemma {:induction false} SlotsKeepReportable(mac: MacAddress, loads: seq<LoadRecord>, slots: seq<LoadReport>)
    requires forall l <- loads :: Reportable(mac, l)
    ensures forall l <- ApplySlots(mac, loads, slots) :: Reportable(mac, l)
  {
    if slots != [] {
      var init, r := slots[..|slots| - 1], slots[|slots| - 1];
      var before := ApplySlots(mac, loads, init);
      SlotsKeepReportable(mac, loads, init);
      if ValidLoadReport(r) {
        var k := IndexBy(PinOf, before, r.pin);
        AcceptedIsReportable(mac, r, 0);
        if k < |before| {
          assert before[k] in before;
          AcceptedIsReportable(mac, r, before[k].rejection);
        }
        assert forall l <- Upsert(mac, before, r) :: l in before || l == Upsert(mac, before, r)[k];
      }
    }
  }

  lemma {:induction false} ErasedAreKept(loads: seq<LoadRecord>, gone: seq<Byte>)
    ensures forall l <- EraseAll(loads, gone) :: l in loads
  {
    if gone != [] { ErasedAreKept(loads, gone[..|gone| - 1]); }
  }

  ghost predicate OwnLoads(mac: MacAddress, loads: seq<LoadRecord>) {
    (forall l <- loads :: l.id.mac == mac) && DistinctPins(PinOf, loads)
  }

  lemma UpsertViews(mac: MacAddress, loads: seq<LoadRecord>, r: LoadReport)
    requires ValidLoadReport(r) && OwnLoads(mac, loads)
    ensures OwnLoads(mac, Upsert(mac, loads, r))
    ensures forall v :: v in Views(Upsert(mac, loads, r)) <==>
                        v == Reported(mac, r, 0) || (v in Views(loads) && PinOf(v) != r.pin)
  {
    var k := IndexBy(PinOf, loads, r.pin);
    var out := Upsert(mac, loads, r);
    assert forall i | 0 <= i < |loads| && i != k :: out[i] == loads[i];
    assert PinOf(out[k]) == r.pin && View(out[k]) == Reported(mac, r, 0) && out[k].id.mac == mac;
    assert forall l <- out :: l == out[k] || l in loads;
    forall i | 0 <= i < |loads| && i != k ensures PinOf(loads[i]) != r.pin {}
    forall v ensures v in Views(out) <==> v == Reported(mac, r, 0) || (v in Views(loads) && PinOf(v) != r.pin) {
      if v in Views(out) {
        var i :| 0 <= i < |out| && View(out[i]) == v;
        if i != k { assert loads[i] in loads; }
      }
      if v in Views(loads) && PinOf(v) != r.pin {
        var i :| 0 <= i < |loads| && View(loads[i]) == v;
        assert out[i] in out;
      }
      assert out[k] in out;
    }
  }

  /** out is loads with those on the page's pins replaced by the page. */
  ghost predicate Replaces(loads: seq<LoadRecord>, page: seq<LoadRecord>, out: seq<LoadRecord>) {
    forall v :: v in Views(out) <==> v in Views(page) || (v in Views(loads) && PinOf(v) !in PinSet(page))
  }

  /** Entering a page replaces exactly the loads on its pins. */
  lemma {:induction false} EnterPage(mac: MacAddress, loads: seq<LoadRecord>, page: seq<LoadRecord>)
    requires OwnLoads(mac, loads) && AllReportable(mac, page)
    ensures OwnLoads(mac, ApplySlots(mac, loads, ReportsOf(page)))
    ensures Replaces(loads, page, ApplySlots(mac, loads, ReportsOf(page)))
    ensures forall pin :: pin in ListedPins(ReportsOf(page)) <==> pin in PinSet(page)
  {
    if page != [] {
      var init, last := page[..|page| - 1], page[|page| - 1];
      var slots := ReportsOf(page);
      assert slots[..|slots| - 1] == ReportsOf(init) && slots[|slots| - 1] == ToReport(last);
      InitIsReportable(mac, page);
      EnterPage(mac, loads, init);
      LoadRoundTrip(mac, last, 0);
      EnterLast(mac, loads, page, ApplySlots(mac, loads, ReportsOf(init)));
    }
  }

  lemma EnterLast(mac: MacAddress, loads: seq<LoadRecord>, page: seq<LoadRecord>, before: seq<LoadRecord>)
    requires AllReportable(mac, page) && page != [] && OwnLoads(mac, before)
    requires Replaces(loads, page[..|page| - 1], before)
    requires ValidLoadReport(ToReport(page[|page| - 1]))
    ensures OwnLoads(mac, Upsert(mac, before, ToReport(page[|page| - 1])))
    ensures Replaces(loads, page, Upsert(mac, before, ToReport(page[|page| - 1])))
  {
    var last := page[|page| - 1];
    InitIsReportable(mac, page);
    LoadRoundTrip(mac, last, 0);
    UpsertViews(mac, before, ToReport(last));
    assert Reported(mac, ToReport(last), 0) == View(last);
  }

  lemma InitIsReportable(mac: MacAddress, page: seq<LoadRecord>)
    requires AllReportable(mac, page) && page != []
    ensures var init, last := page[..|page| - 1], page[|page| - 1];
            && AllReportable(mac, init) && Reportable(mac, last)
            && PinSet(page) == PinSet(init) + {PinOf(last)} && Views(page) == Views(init) + {View(last)}
            && forall v | v in Views(init) :: PinOf(v) != PinOf(last)
  {
    var init, last := page[..|page| - 1], page[|page| - 1];
    assert forall l :: l in page <==> l in init || l == last;
    forall v | v in Views(init) ensures PinOf(v) != PinOf(last) {
      var i :| 0 <= i < |init| && View(init[i]) == v;
      assert page[i] == init[i];
    }
  }

  lemma {:induction false} EraseAllViews(mac: MacAddress, loads: seq<LoadRecord>, gone: seq<Byte>)
    requires OwnLoads(mac, loads)
    ensures OwnLoads(mac, EraseAll(loads, gone))
    ensures forall v :: v in Views(EraseAll(loads, gone)) <==> v in Views(loads) && PinOf(v) !in gone
  {
    if gone != [] {
      var init, last := gone[..|gone| - 1], gone[|gone| - 1];
      EraseAllViews(mac, loads, init);
      ErasePinMembers(PinOf, EraseAll(loads, init), last);
      ErasePinDistinct(PinOf, EraseAll(loads, init), last);
      assert forall p :: p in gone <==> p in init || p == last;
    }
  }

  lemma {:induction false} AbsentPinsAre(loads: seq<LoadRecord>, pins: seq<Byte>)
    ensures forall p :: p in AbsentPins(loads, pins) <==> p in PinSet(loads) && p !in pins
  {
    if loads != [] {
      AbsentPinsAre(loads[..|loads| - 1], pins);
      assert PinSet(loads) == PinSet(loads[..|loads| - 1]) + {PinOf(loads[|loads| - 1])};
    }
  }

  /** Pruning keeps exactly the loads whose pins were listed. */
  lemma PruneViews(mac: MacAddress, loads: seq<LoadRecord>, pins: seq<Byte>)
    requires OwnLoads(mac, loads)
    ensures var out := EraseAll(loads, AbsentPins(loads, pins));
            OwnLoads(mac, out) && forall v :: v in Views(out) <==> v in Views(loads) && PinOf(v) in pins
  {
    EraseAllViews(mac, loads, AbsentPins(loads, pins));
    AbsentPinsAre(loads, pins);
  }

  // ---------------------------------------------------------------------------------------------------
  // Pages of one list
  // ---------------------------------------------------------------------------------------------------

  lemma PageIsReportable(mac: MacAddress, loads: seq<LoadRecord>, page: nat)
    requires AllReportable(mac, loads)
    ensures AllReportable(mac, PageLoads(loads, page))
    ensures Views(PageLoads(loads, page)) <= Views(loads) && PinSet(PageLoads(loads, page)) <= PinSet(loads)
  {
    assert forall l :: l in PageLoads(loads, page) ==> l in loads;
  }

  lemma PagesShareNoPin(mac: MacAddress, loads: seq<LoadRecord>, page: nat, other: nat)
    requires AllReportable(mac, loads) && page != other
    ensures forall v :: v in Views(PageLoads(loads, page)) ==> PinOf(v) !in PinSet(PageLoads(loads, other))
  {
    forall v | v in Views(PageLoads(loads, page)) ensures PinOf(v) !in PinSet(PageLoads(loads, other)) {
      var i :| 0 <= i < |PageLoads(loads, page)| && View(PageLoads(loads, page)[i]) == v;
      assert PageLoads(loads, page)[i] == loads[page * MAX_LOADS_PER_PACKET + i];
      forall j | 0 <= j < |PageLoads(loads, other)| ensures PinOf(PageLoads(loads, other)[j]) != PinOf(v) {
        assert PageLoads(loads, other)[j] == loads[other * MAX_LOADS_PER_PACKET + j];
      }
    }
  }

  /** The pages together carry the whole list. */
  lemma EveryLoadHasItsPage(loads: seq<LoadRecord>, i: nat)
    requires i < |loads| <= MAX_LOADS_PER_NODE
    ensures i / MAX_LOADS_PER_PACKET < PageCount(|loads|)
    ensures loads[i] in PageLoads(loads, i / MAX_LOADS_PER_PACKET)
  {
    var page := i / MAX_LOADS_PER_PACKET;
    assert PageLoads(loads, page)[i - page * MAX_LOADS_PER_PACKET] == loads[i];
  }

  // ---------------------------------------------------------------------------------------------------
  // Central's entry while the pages of one report arrive
  // ---------------------------------------------------------------------------------------------------

  /** What the Smart Node sent: its address, its list and the sequence number of this report. */
  datatype Report = Report(mac: MacAddress, loads: seq<LoadRecord>, sequenceId: Word)

  ghost predicate Sendable(r: Report) {
    AllReportable(r.mac, r.loads) && |r.loads| <= MAX_LOADS_PER_NODE
  }

  predicate Collecting(pending: PendingReport, r: Report) {
    pending.sequenceId == r.sequenceId && pending.totalPages == PageCount(|r.loads|)
  }

  /** Nothing is left over from an older report under the same sequence number and page count. */
  predicate NothingLeftOver(pending: PendingReport, r: Report) {
    Collecting(pending, r) ==> pending.mask == 0 && pending.pins == []
  }

  /**
   * Everything the stream says about this Node is a page of this report; pages of other Nodes and malformed packets
   * may be anywhere.
   */
  predicate CarriesOnly(a: Arrival, r: Report) {
    (Accepted(a.packet) && a.packet.mac == r.mac) ==> IsPage(a.packet, r.mac, r.loads, r.sequenceId)
  }

  predicate Brings(a: Arrival, r: Report, page: nat) {
    Accepted(a.packet) && a.packet.mac == r.mac && a.packet.pageIndex == page
  }

  ghost predicate Delivered(arrivals: seq<Arrival>, r: Report, page: nat) {
    exists i :: 0 <= i < |arrivals| && Brings(arrivals[i], r, page)
  }

  ghost predicate Holds(n: PlanningNode, r: Report, page: nat) {
    page < PageCount(|r.loads|) && Views(PageLoads(r.loads, page)) <= Views(n.loads)
  }

  /**
   * The collection: its pages were entered, its pins are listed ones, and before the first completion it has every
   * page entered so far.
   */
  ghost predicate Gathering(pending: PendingReport, r: Report, got: set<nat>, completed: bool) {
    && Gathered(pending, r, got, completed)
    && (!completed ==> pending.mask != AllPagesMask(PageCount(|r.loads|)))
  }

  ghost predicate Rebuilding(n: PlanningNode, r: Report, got: set<nat>, completed: bool) {
    && n.mac == r.mac && OwnLoads(r.mac, n.loads)
    && (forall page: nat | page in got :: Holds(n, r, page))
    && (completed ==> PinSet(n.loads) <= PinSet(r.loads))
    && (if Collecting(n.pending, r) then Gathering(n.pending, r, got, completed) else got == {} && !completed)
  }

  lemma EmptyGathering(pending: PendingReport, r: Report)
    requires pending.mask == 0 && pending.pins == []
    ensures Gathering(pending, r, {}, false)
  {
    forall page: nat {:trigger HasPage(pending.mask, page)} | page < MAX_TRACKED_PAGES ensures !HasPage(pending.mask,
        page) {
      AddPage(0, page, page);
    }
    MaskTable(PageCount(|r.loads|));
  }

  lemma PrepareKeepsRebuilding(n: PlanningNode, r: Report, got: set<nat>, completed: bool, p: NodeReport, now: nat)
    requires Rebuilding(n, r, got, completed)
    requires p.sequenceId == r.sequenceId && p.totalPages == PageCount(|r.loads|)
    ensures Rebuilding(Prepare(n, p, now), r, got, completed) && Collecting(Prepare(n, p, now).pending, r)
  {
    if !Collecting(n.pending, r) { EmptyGathering(Restart(n.pending, p), r); }
    assert forall page: nat | page in got :: Holds(n, r, page) ==> Holds(Prepare(n, p, now), r, page);
  }

  ghost predicate AddsPage(mask: bv8, page: nat, mask': bv8) {
    forall i: nat {:trigger HasPage(mask', i)} | i < MAX_TRACKED_PAGES ::
        HasPage(mask', i) <==> i == page || HasPage(mask, i)
  }

  lemma BitAddsPage(mask: bv8, page: nat)
    requires page < MAX_TRACKED_PAGES
    ensures AddsPage(mask, page, mask | PageBit(page))
  {
    forall i: nat {:trigger HasPage(mask | PageBit(page), i)} | i < MAX_TRACKED_PAGES
      ensures HasPage(mask | PageBit(page), i) <==> i == page || HasPage(mask, i)
    {
      AddPage(mask, page, i);
    }
  }

  /** What Gathering asks of a collection, whether or not its mask has just become full. */
  ghost predicate Gathered(pending: PendingReport, r: Report, got: set<nat>, completed: bool) {
    && (forall pin <- pending.pins :: pin in PinSet(r.loads))
    && (forall page: nat {:trigger HasPage(pending.mask, page)} | page < MAX_TRACKED_PAGES &&
       HasPage(pending.mask, page) ::
          page in got && forall pin :: pin in PinSet(PageLoads(r.loads, page)) ==> pin in pending.pins)
    && (!completed ==> forall page: nat {:trigger HasPage(pending.mask, page)} | page < MAX_TRACKED_PAGES &&
       page in got ::
          HasPage(pending.mask, page))
  }

  lemma GatherPage(pending: PendingReport, r: Report, got: set<nat>, completed: bool, page: nat,
                   pending': PendingReport)
    requires Sendable(r) && Gathered(pending, r, got, completed) && page < PageCount(|r.loads|)
    requires pending'.pins == pending.pins + ListedPins(ReportsOf(PageLoads(r.loads, page)))
    requires AddsPage(pending.mask, page, pending'.mask)
    ensures Gathered(pending', r, got + {page}, completed)
  {
    PageIsReportable(r.mac, r.loads, page);
    EnterPage(r.mac, [], PageLoads(r.loads, page));
  }

  /** Entering a page keeps the pages entered before, because pages share no pin. */
  lemma EnterKeepsPages(n: PlanningNode, r: Report, got: set<nat>, page: nat, out: PlanningNode)
    requires Sendable(r) && OwnLoads(r.mac, n.loads) && page < PageCount(|r.loads|)
    requires forall i: nat | i in got :: Holds(n, r, i)
    requires out.loads == ApplySlots(r.mac, n.loads, ReportsOf(PageLoads(r.loads, page)))
    ensures OwnLoads(r.mac, out.loads)
    ensures forall i: nat | i in got + {page} :: Holds(out, r, i)
    ensures PinSet(n.loads) <= PinSet(r.loads) ==> PinSet(out.loads) <= PinSet(r.loads)
  {
    PageIsReportable(r.mac, r.loads, page);
    EnterPage(r.mac, n.loads, PageLoads(r.loads, page));
    forall i: nat | i in got + {page} ensures Holds(out, r, i) {
      if i != page {
        PagesShareNoPin(r.mac, r.loads, i, page);
        assert Holds(n, r, i);
      }
    }
    PinsFromViews(n.loads);
    PinsFromViews(out.loads);
    PinsFromViews(PageLoads(r.loads, page));
  }

  lemma PinsFromViews(loads: seq<LoadRecord>)
    ensures forall pin :: pin in PinSet(loads) <==> exists v :: v in Views(loads) && PinOf(v) == pin
  {
    forall pin ensures pin in PinSet(loads) <==> exists v :: v in Views(loads) && PinOf(v) == pin {
      if pin in PinSet(loads) {
        var l :| l in loads && PinOf(l) == pin;
        assert View(l) in Views(loads) && PinOf(View(l)) == pin;
      }
    }
  }

  lemma AllPagesListAllPins(r: Report, pins: seq<Byte>)
    requires Sendable(r)
    requires forall page: nat | page < PageCount(|r.loads|) ::
             forall pin :: pin in PinSet(PageLoads(r.loads, page)) ==> pin in pins
    ensures forall pin :: pin in PinSet(r.loads) ==> pin in pins
  {
    forall pin | pin in PinSet(r.loads) ensures pin in pins {
      var i :| 0 <= i < |r.loads| && PinOf(r.loads[i]) == pin;
      EveryLoadHasItsPage(r.loads, i);
    }
  }

  /** A completed collection prunes to the pins of this report and so keeps every page. */
  lemma CompletionPrunes(n: PlanningNode, r: Report, got: set<nat>, pins: seq<Byte>, out: PlanningNode)
    requires Sendable(r) && OwnLoads(r.mac, n.loads)
    requires forall i: nat | i in got :: Holds(n, r, i)
    requires forall pin :: pin in pins <==> pin in PinSet(r.loads)
    requires out.loads == EraseAll(n.loads, AbsentPins(n.loads, pins))
    ensures OwnLoads(r.mac, out.loads) && PinSet(out.loads) <= PinSet(r.loads)
    ensures forall i: nat | i in got :: Holds(out, r, i)
  {
    PruneViews(r.mac, n.loads, pins);
    PinsFromViews(out.loads);
    forall i: nat | i in got ensures Holds(out, r, i) {
      assert Holds(n, r, i);
      PageIsReportable(r.mac, r.loads, i);
      PinsFromViews(PageLoads(r.loads, i));
    }
  }

  lemma FullMaskListsAllPins(pending: PendingReport, r: Report, got: set<nat>)
    requires Sendable(r) && pending.mask == AllPagesMask(PageCount(|r.loads|))
    requires exists completed :: Gathered(pending, r, got, completed)
    requires forall i: nat | i in got :: i < PageCount(|r.loads|)
    ensures forall pin :: pin in PinSet(r.loads) ==> pin in pending.pins
  {
    FullMask(pending.mask, PageCount(|r.loads|));
    forall page: nat | page < PageCount(|r.loads|)
      ensures forall pin :: pin in PinSet(PageLoads(r.loads, page)) ==> pin in pending.pins
    {
      assert HasPage(pending.mask, page);
    }
    AllPagesListAllPins(r, pending.pins);
  }

  /** The page that fills the mask settles the report. */
  lemma SettleCompletes(n: PlanningNode, r: Report, got: set<nat>, completed: bool, pending: PendingReport)
    requires Sendable(r) && n.mac == r.mac && OwnLoads(r.mac, n.loads) && Collecting(pending, r)
    requires forall i: nat | i in got :: Holds(n, r, i)
    requires Gathered(pending, r, got, completed) && pending.mask == AllPagesMask(PageCount(|r.loads|))
    ensures Rebuilding(n.(loads := EraseAll(n.loads, AbsentPins(n.loads, pending.pins)), pending :=
            pending.(mask := 0, pins := [])),
                       r, got, true)
  {
    var out := n.(loads := EraseAll(n.loads, AbsentPins(n.loads, pending.pins)), pending :=
        pending.(mask := 0, pins := []));
    FullMaskListsAllPins(pending, r, got);
    CompletionPrunes(n, r, got, pending.pins, out);
    EmptyCompleted(out.pending, r, got);
  }

  lemma EmptyCompleted(pending: PendingReport, r: Report, got: set<nat>)
    requires pending.mask == 0 && pending.pins == []
    ensures Gathering(pending, r, got, true)
  {
    forall page: nat {:trigger HasPage(pending.mask, page)} | page < MAX_TRACKED_PAGES ensures !HasPage(pending.mask,
        page) {
      AddPage(0, page, page);
    }
  }

  /** The entry with a page's loads, bit and pins added, before it is settled. */
  function Entered(n: PlanningNode, p: NodeReport): PlanningNode
    requires Accepted(p)
  {
    n.(loads := ApplySlots(n.mac, n.loads, UsedSlots(p)),
       pending := n.pending.(mask := n.pending.mask | PageBit(p.pageIndex), pins :=
           n.pending.pins + ListedPins(UsedSlots(p))))
  }

  lemma IntakeSettlesEntered(n: PlanningNode, p: NodeReport)
    requires Accepted(p)
    ensures var e := Entered(n, p);
            Intake(n, p) ==
            if e.pending.mask == AllPagesMask(p.totalPages)
            then e.(loads := EraseAll(e.loads, AbsentPins(e.loads, e.pending.pins)), pending :=
                e.pending.(mask := 0, pins := []))
            else e
  {
  }

  lemma EnteredKeepsRebuilding(n: PlanningNode, r: Report, got: set<nat>, completed: bool, p: NodeReport,
                               e: PlanningNode)
    requires Sendable(r) && Rebuilding(n, r, got, completed) && Collecting(n.pending, r)
    requires Accepted(p) && IsPage(p, r.mac, r.loads, r.sequenceId) && e == Entered(n, p)
    ensures e.mac == r.mac && OwnLoads(r.mac, e.loads) && Collecting(e.pending, r)
    ensures forall i: nat | i in got + {p.pageIndex} :: Holds(e, r, i)
    ensures completed ==> PinSet(e.loads) <= PinSet(r.loads)
    ensures Gathered(e.pending, r, got + {p.pageIndex}, completed)
  {
    assert UsedSlots(p) == ReportsOf(PageLoads(r.loads, p.pageIndex));
    EnterKeepsPages(n, r, got, p.pageIndex, e);
    BitAddsPage(n.pending.mask, p.pageIndex);
    GatherPage(n.pending, r, got, completed, p.pageIndex, e.pending);
  }

  lemma IntakeKeepsRebuilding(n: PlanningNode, r: Report, got: set<nat>, completed: bool, p: NodeReport)
    returns (completed': bool)
    requires Sendable(r) && Rebuilding(n, r, got, completed) && Collecting(n.pending, r)
    requires Accepted(p) && IsPage(p, r.mac, r.loads, r.sequenceId)
    ensures Rebuilding(Intake(n, p), r, got + {p.pageIndex}, completed')
  {
    var e := Entered(n, p);
    EnteredKeepsRebuilding(n, r, got, completed, p, e);
    IntakeSettlesEntered(n, p);
    if e.pending.mask == AllPagesMask(PageCount(|r.loads|)) {
      completed' := true;
      SettleCompletes(e, r, got + {p.pageIndex}, completed, e.pending);
    } else {
      completed' := completed;
      assert Gathering(e.pending, r, got + {p.pageIndex}, completed);
    }
  }

  ghost function PagesIn(arrivals: seq<Arrival>, r: Report): set<nat> {
    set page: nat | page < MAX_TRACKED_PAGES && Delivered(arrivals, r, page)
  }

  lemma PagesGrow(arrivals: seq<Arrival>, a: Arrival, r: Report)
    ensures PagesIn(arrivals + [a], r) ==
            PagesIn(arrivals, r) + if Accepted(a.packet) && a.packet.mac == r.mac then {a.packet.pageIndex} else {}
  {
    var all := arrivals + [a];
    assert forall i | 0 <= i < |arrivals| :: all[i] == arrivals[i];
    forall page: nat | page < MAX_TRACKED_PAGES
      ensures Delivered(all, r, page) <==> Delivered(arrivals, r, page) || Brings(a, r, page)
    {
      if Brings(a, r, page) { assert all[|arrivals|] == a; }
      if i :| 0 <= i < |arrivals| && Brings(arrivals[i], r, page) { assert Brings(all[i], r, page); }
    }
  }

  lemma {:induction false} ArrivalsKeepRebuilding(n: PlanningNode, r: Report, arrivals: seq<Arrival>)
    returns (completed: bool)
    requires Sendable(r) && n.mac == r.mac && OwnLoads(r.mac, n.loads) && NothingLeftOver(n.pending, r)
    requires forall a <- arrivals :: CarriesOnly(a, r)
    ensures Rebuilding(ReceiveAll(n, arrivals), r, PagesIn(arrivals, r), completed)
  {
    if arrivals == [] {
      completed := false;
      assert PagesIn(arrivals, r) == {};
      if Collecting(n.pending, r) { EmptyGathering(n.pending, r); }
    } else {
      var init, a := arrivals[..|arrivals| - 1], arrivals[|arrivals| - 1];
      assert arrivals == init + [a];
      completed := ArrivalsKeepRebuilding(n, r, init);
      PagesGrow(init, a, r);
      completed := ReceiveKeepsRebuilding(ReceiveAll(n, init), r, PagesIn(init, r), completed, a);
    }
  }

  lemma ReceiveKeepsRebuilding(n: PlanningNode, r: Report, got: set<nat>, completed: bool, a: Arrival)
    returns (completed': bool)
    requires Sendable(r) && Rebuilding(n, r, got, completed) && CarriesOnly(a, r)
    ensures Rebuilding(Receive(n, a), r, got + if Relevant(n, a) then {a.packet.pageIndex} else {}, completed')
  {
    completed' := completed;
    if Relevant(n, a) {
      PrepareKeepsRebuilding(n, r, got, completed, a.packet, a.now);
      var h := Prepare(n, a.packet, a.now);
      if HasPage(h.pending.mask, a.packet.pageIndex) {
        assert got + {a.packet.pageIndex} == got;
      } else {
        completed' := IntakeKeepsRebuilding(h, r, got, completed, a.packet);
      }
    } else {
      assert got + {} == got;
    }
  }

  /** Once every page is in, the entry is the report and nothing else. */
  lemma AllPagesMakeTheReport(n: PlanningNode, r: Report, got: set<nat>, completed: bool)
    requires Sendable(r) && Rebuilding(n, r, got, completed)
    requires forall page: nat | page < PageCount(|r.loads|) :: page in got
    ensures Views(n.loads) == Views(r.loads) && OwnLoads(r.mac, n.loads)
  {
    assert 0 in got;
    if !completed {
      assert forall page: nat {:trigger HasPage(n.pending.mask, page)} | page < MAX_TRACKED_PAGES &&
             HasPage(n.pending.mask, page) ::
        page in got && Holds(n, r, page);
      FullMask(n.pending.mask, PageCount(|r.loads|));
    }
    forall v | v in Views(r.loads) ensures v in Views(n.loads) {
      var i :| 0 <= i < |r.loads| && View(r.loads[i]) == v;
      EveryLoadHasItsPage(r.loads, i);
      assert Holds(n, r, i / MAX_LOADS_PER_PACKET);
    }
    forall v | v in Views(n.loads) ensures v in Views(r.loads) {
      var i :| 0 <= i < |n.loads| && View(n.loads[i]) == v;
      assert PinOf(n.loads[i]) in PinSet(n.loads);
      var l :| l in r.loads && PinOf(l) == PinOf(v);
      assert View(l) in Views(n.loads);
      var j :| 0 <= j < |n.loads| && View(n.loads[j]) == View(l);
      assert PinOf(n.loads[i]) == PinOf(View(n.loads[i])) == PinOf(View(n.loads[j])) == PinOf(n.loads[j]);
      assert i == j;
    }
  }

  /**
   * Delivery: whatever loads Central held for the Node before, once every page of one report has arrived at least
   * once, in any order and with any repetition, Central's map for the Node is the Node's own.
   */
  lemma DeliveredReportIsRebuilt(n: PlanningNode, r: Report, arrivals: seq<Arrival>)
    requires Sendable(r) && n.mac == r.mac && OwnLoads(r.mac, n.loads) && NothingLeftOver(n.pending, r)
    requires forall a <- arrivals :: CarriesOnly(a, r)
    requires forall page: nat | page < PageCount(|r.loads|) :: Delivered(arrivals, r, page)
    ensures var out := ReceiveAll(n, arrivals).loads;
            Views(out) == Views(r.loads) && DistinctPins(PinOf, out)
  {
    var completed := ArrivalsKeepRebuilding(n, r, arrivals);
    AllPagesMakeTheReport(ReceiveAll(n, arrivals), r, PagesIn(arrivals, r), completed);
  }

  // ---------------------------------------------------------------------------------------------------
  // The registry as a whole
  // ---------------------------------------------------------------------------------------------------

  function ReportAll(nodes: seq<PlanningNode>, arrivals: seq<Arrival>): seq<PlanningNode> {
    if arrivals == [] then nodes
    else
      var a := arrivals[|arrivals| - 1];
      ApplyReport(ReportAll(nodes, arrivals[..|arrivals| - 1]), a.packet, a.now)
  }

  /** The entry of a Node, or the blank one its first packet will create. */
  function EntryOf(nodes: seq<PlanningNode>, mac: MacAddress, now: nat): PlanningNode {
    if Registered(nodes, mac) then Lookup(nodes, mac) else NewNode(mac, now)
  }

  /** Two entries that agree on all but the time and route of the last packet keep agreeing. */
  predicate SameHoldings(a: PlanningNode, b: PlanningNode) {
    a.mac == b.mac && a.loads == b.loads && a.pending == b.pending
  }

  lemma AppliedReportKeepsMacs(nodes: seq<PlanningNode>, a: Arrival)
    requires DistinctMacs(nodes)
    ensures DistinctMacs(ApplyReport(nodes, a.packet, a.now))
  {
    if nodes != [] { RegistryActsPerNode(nodes, a, 0); }
  }

  lemma AppliedReportFollowsEntry(nodes: seq<PlanningNode>, mac: MacAddress, a: Arrival)
    requires DistinctMacs(nodes)
    ensures SameHoldings(EntryOf(ApplyReport(nodes, a.packet, a.now), mac, 0), Receive(EntryOf(nodes, mac, 0), a))
  {
    AppliedReportKeepsMacs(nodes, a);
    var after := ApplyReport(nodes, a.packet, a.now);
    var k := IndexOfMac(nodes, mac);
    if k < |nodes| {
      RegistryActsPerNode(nodes, a, k);
      IndexOfOwnMac(after, k);
    } else if Accepted(a.packet) {
      assert after == nodes + [ApplyPage(NewNode(a.packet.mac, a.now), a.packet, a.now)] || |after| == |nodes|;
      if a.packet.mac == mac {
        assert after[k].mac == mac;
        IndexOfOwnMac(after, k);
      } else {
        assert forall i | 0 <= i < |after| :: after[i].mac != mac;
      }
    }
  }

  lemma IntakeKeepsHoldings(x: PlanningNode, y: PlanningNode, p: NodeReport)
    requires SameHoldings(x, y) && Accepted(p)
    ensures SameHoldings(Intake(x, p), Intake(y, p))
  {
    var mask := x.pending.mask | PageBit(p.pageIndex);
    var loads, pins := ApplySlots(x.mac, x.loads, UsedSlots(p)), x.pending.pins + ListedPins(UsedSlots(p));
    SettleKeepsHoldings(x, y, loads, pins, mask, mask == AllPagesMask(p.totalPages));
  }

  lemma SettleKeepsHoldings(x: PlanningNode, y: PlanningNode, loads: seq<LoadRecord>, pins: seq<Byte>, mask: bv8,
                            complete: bool)
    requires SameHoldings(x, y)
    ensures SameHoldings(Settle(x, loads, pins, mask, complete), Settle(y, loads, pins, mask, complete))
  {
  }

  lemma ReceiveKeepsHoldings(x: PlanningNode, y: PlanningNode, a: Arrival)
    requires SameHoldings(x, y)
    ensures SameHoldings(Receive(x, a), Receive(y, a))
  {
    if Relevant(x, a) {
      var p, x', y' := a.packet, Prepare(x, a.packet, a.now), Prepare(y, a.packet, a.now);
      assert x'.pending == y'.pending && SameHoldings(x', y');
      if !HasPage(x'.pending.mask, p.pageIndex) { IntakeKeepsHoldings(x', y', p); }
    }
  }

  lemma {:induction false} RegistryFollowsEntry(nodes: seq<PlanningNode>, mac: MacAddress, arrivals: seq<Arrival>)
    requires DistinctMacs(nodes)
    ensures DistinctMacs(ReportAll(nodes, arrivals))
    ensures SameHoldings(EntryOf(ReportAll(nodes, arrivals), mac, 0), ReceiveAll(EntryOf(nodes, mac, 0), arrivals))
  {
    if arrivals != [] {
      var init, a := arrivals[..|arrivals| - 1], arrivals[|arrivals| - 1];
      RegistryFollowsEntry(nodes, mac, init);
      var before := ReportAll(nodes, init);
      AppliedReportKeepsMacs(before, a);
      AppliedReportFollowsEntry(before, mac, a);
      ReceiveKeepsHoldings(EntryOf(before, mac, 0), ReceiveAll(EntryOf(nodes, mac, 0), init), a);
    }
  }

  // ---------------------------------------------------------------------------------------------------
  // Exactly when an entry is ready for the report it is collecting
  // ---------------------------------------------------------------------------------------------------

  const MAX_REPORT_PAGES: nat := MAX_LOADS_PER_NODE / MAX_LOADS_PER_PACKET

  ghost predicate FullyDelivered(r: Report, arrivals: seq<Arrival>) {
    && (forall a <- arrivals :: CarriesOnly(a, r))
    && (forall page: nat | page < PageCount(|r.loads|) :: Delivered(arrivals, r, page))
  }

  /** Every report the Node can send next is rebuilt by every full delivery. */
  ghost predicate AlwaysRebuilt(n: PlanningNode) {
    forall r: Report, arrivals: seq<Arrival> | FullyDelivered(r, arrivals) && Sendable(r) && r.mac == n.mac ::
      Views(ReceiveAll(n, arrivals).loads) == Views(r.loads)
  }

  ghost predicate WellKept(pending: PendingReport) {
    && (pending.mask == 0 ==> pending.pins == [])
    && (forall page: nat {:trigger HasPage(pending.mask, page)} | page < MAX_TRACKED_PAGES &&
       HasPage(pending.mask, page) ::
          page < pending.totalPages)
  }

  /** Every collection a stream of packets can produce is well kept. */
  lemma StreamsKeepCollectionsWell(n: PlanningNode, arrivals: seq<Arrival>)
    requires n.pending.mask == 0 && n.pending.pins == []
    ensures WellKept(ReceiveAll(n, arrivals).pending)
  {
    MaskIsPagesReceived(n, arrivals);
    var pending, s := ReceiveAll(n, arrivals).pending, WindowStart(n, arrivals);
    forall page: nat {:trigger HasPage(pending.mask, page)} | page < MAX_TRACKED_PAGES && HasPage(pending.mask, page)
      ensures page < pending.totalPages
    {
      var i :| InWindow(n, arrivals, s, i, page);
      assert SameKey(pending, arrivals[i].packet);
    }
    if pending.mask == 0 && pending.pins != [] {
      assert pending.pins[0] in pending.pins;
      var i :| FirstCopy(n, arrivals, s, i) && Lists(arrivals[i], pending.pins[0]);
      var page := arrivals[i].packet.pageIndex;
      assert InWindow(n, arrivals, s, i, page) && HasPage(pending.mask, page);
      AddPage(0, page, page);
    }
  }

  /** What no page of the stream carries is never entered. */
  lemma {:induction false} OnlyPagesEnter(n: PlanningNode, r: Report, arrivals: seq<Arrival>, k: nat, v: LoadRecord)
    requires Sendable(r) && n.mac == r.mac && OwnLoads(r.mac, n.loads) && v !in Views(n.loads)
    requires forall a <- arrivals :: CarriesOnly(a, r) && !Brings(a, r, k)
    requires v in Views(PageLoads(r.loads, k))
    ensures OwnLoads(r.mac, ReceiveAll(n, arrivals).loads) && v !in Views(ReceiveAll(n, arrivals).loads)
  {
    if arrivals != [] {
      var init, a := arrivals[..|arrivals| - 1], arrivals[|arrivals| - 1];
      OnlyPagesEnter(n, r, init, k, v);
      var before := ReceiveAll(n, init);
      if Relevant(before, a) {
        assert CarriesOnly(a, r) && !Brings(a, r, k);
        var page := a.packet.pageIndex;
        PageIsReportable(r.mac, r.loads, page);
        PagesShareNoPin(r.mac, r.loads, k, page);
        PinsFromViews(PageLoads(r.loads, page));
        EnterPage(r.mac, before.loads, PageLoads(r.loads, page));
        assert UsedSlots(a.packet) == ReportsOf(PageLoads(r.loads, page));
        var entered := ApplySlots(r.mac, before.loads, UsedSlots(a.packet));
        SettledLoads(before, a, v);
      }
    }
  }

  lemma SettledLoads(n: PlanningNode, a: Arrival, v: LoadRecord)
    requires Relevant(n, a) && OwnLoads(n.mac, n.loads) && v !in Views(n.loads)
    requires OwnLoads(n.mac, ApplySlots(n.mac, n.loads, UsedSlots(a.packet)))
    requires v !in Views(ApplySlots(n.mac, n.loads, UsedSlots(a.packet)))
    ensures OwnLoads(n.mac, Receive(n, a).loads) && v !in Views(Receive(n, a).loads)
  {
    var entered := ApplySlots(n.mac, n.loads, UsedSlots(a.packet));
    var out := Receive(n, a);
    var pins := Prepare(n, a.packet, a.now).pending.pins + ListedPins(UsedSlots(a.packet));
    assert out.loads == n.loads || out.loads == entered || out.loads == EraseAll(entered, AbsentPins(entered, pins));
    PruneViews(n.mac, entered, pins);
  }

  /** A page the collection already has from an older report is dropped, so whatever is new on it is lost. */
  lemma {:induction false} LeftOverPageIsLost(n: PlanningNode, r: Report, a: Arrival, rest: seq<Arrival>, k: nat,
                                              v: LoadRecord)
    requires Sendable(r) && n.mac == r.mac && OwnLoads(r.mac, n.loads) && Collecting(n.pending, r)
    requires k < MAX_TRACKED_PAGES && HasPage(n.pending.mask, k) && Brings(a, r, k) && CarriesOnly(a, r)
    requires forall b <- rest :: CarriesOnly(b, r) && !Brings(b, r, k)
    requires v in Views(PageLoads(r.loads, k)) && v !in Views(n.loads)
    ensures v !in Views(ReceiveAll(n, [a] + rest).loads)
  {
    if rest != [] {
      LeftOverPageIsLost(n, r, a, rest[..|rest| - 1], k, v);
    }
    ReceiveAllFrom(n, [a], rest);
    assert ReceiveAll(n, [a]) == Receive(ReceiveAll(n, [a][..0]), a) == Receive(n, a);
    assert Restart(n.pending, a.packet) == n.pending;
    assert Receive(n, a).loads == n.loads;
    OnlyPagesEnter(Receive(n, a), r, rest, k, v);
  }

  lemma {:induction false} ReceiveAllFrom(n: PlanningNode, first: seq<Arrival>, rest: seq<Arrival>)
    ensures ReceiveAll(n, first + rest) == ReceiveAll(ReceiveAll(n, first), rest)
  {
    if rest == [] {
      assert first + rest == first;
    } else {
      assert (first + rest)[..|first + rest| - 1] == first + rest[..|rest| - 1];
      ReceiveAllFrom(n, first, rest[..|rest| - 1]);
    }
  }

  // A report made to measure: `pages` full pages of loads rated `watts`.

  function MadeLoads(mac: MacAddress, pages: nat, watts: real): (loads: seq<LoadRecord>)
    requires pages <= 4
    ensures |loads| == pages * MAX_LOADS_PER_PACKET
    ensures forall i | 0 <= i < |loads| ::
            loads[i] == LoadRecord(LoadId(mac, i), "x", watts, 0, AC, FixedOff, NO_SCHEDULE, 0)
  {
    seq(pages * MAX_LOADS_PER_PACKET, i requires 0 <= i < pages * MAX_LOADS_PER_PACKET =>
      LoadRecord(LoadId(mac, i), "x", watts, 0, AC, FixedOff, NO_SCHEDULE, 0))
  }

  function MadePage(mac: MacAddress, loads: seq<LoadRecord>, sequenceId: Word, page: Byte): NodeReport
    requires |PageLoads(loads, page)| == MAX_LOADS_PER_PACKET
  {
    NodeReport(Header("x", ZERO_MAC, 1), mac, MAX_LOADS_PER_PACKET, sequenceId, page, PageCount(|loads|),
               ReportsOf(PageLoads(loads, page)))
  }

  function HighestRating(loads: seq<LoadRecord>): (w: real)
    ensures w >= 0.0 && forall l <- loads :: l.watts <= w
  {
    if loads == [] then 0.0
    else
      var w := HighestRating(loads[1..]);
      if loads[0].watts > w then loads[0].watts else w
  }

  function MadeArrivals(r: Report, pages: nat): (arrivals: seq<Arrival>)
    requires pages <= 4 && |r.loads| == pages * MAX_LOADS_PER_PACKET
    ensures |arrivals| == pages
    ensures forall i | 0 <= i < pages :: Brings(arrivals[i], r, i) && CarriesOnly(arrivals[i], r)
  {
    seq(pages, i requires 0 <= i < pages => Arrival(MadePage(r.mac, r.loads, r.sequenceId, i), 0))
  }

  /** The same pages with page k brought forward. */
  lemma BroughtForward(r: Report, all: seq<Arrival>, k: nat) returns (others: seq<Arrival>)
    requires k < |all| == PageCount(|r.loads|)
    requires forall i | 0 <= i < |all| :: Brings(all[i], r, i) && CarriesOnly(all[i], r)
    ensures forall b <- others :: CarriesOnly(b, r) && !Brings(b, r, k)
    ensures FullyDelivered(r, [all[k]] + others)
  {
    others := all[..k] + all[k + 1..];
    var arrivals := [all[k]] + others;
    forall i | 0 <= i < |others| ensures CarriesOnly(others[i], r) && !Brings(others[i], r, k) {
      assert others[i] == all[if i < k then i else i + 1];
    }
    forall page: nat | page < |all| ensures Delivered(arrivals, r, page) {
      var i := if page == k then 0 else if page < k then page + 1 else page;
      assert arrivals[i] == all[page];
      assert 0 <= i < |arrivals| && Brings(arrivals[i], r, page);
    }
  }

  /** A report whose page k carries a load the entry does not hold. */
  lemma NewsOnPage(n: PlanningNode, pages: nat, k: nat) returns (r: Report, news: LoadRecord)
    requires k < pages <= 4
    ensures Sendable(r) && r.mac == n.mac && r.sequenceId == n.pending.sequenceId
    ensures |r.loads| == pages * MAX_LOADS_PER_PACKET
    ensures news in Views(PageLoads(r.loads, k)) && news in Views(r.loads) && news !in Views(n.loads)
  {
    var loads := MadeLoads(n.mac, pages, HighestRating(n.loads) + 1.0);
    r := Report(n.mac, loads, n.pending.sequenceId);
    news := loads[k * MAX_LOADS_PER_PACKET];
    EveryLoadHasItsPage(loads, k * MAX_LOADS_PER_PACKET);
    assert View(news) == news && news in loads;
  }

  /** Any page left over defeats some report: that page first, then all the others. */
  lemma LeftOverDefeatsAReport(n: PlanningNode, k: nat)
    requires OwnLoads(n.mac, n.loads) && WellKept(n.pending) && n.pending.totalPages <= MAX_REPORT_PAGES
    requires k < MAX_TRACKED_PAGES && HasPage(n.pending.mask, k)
    ensures !AlwaysRebuilt(n)
  {
    var pages := n.pending.totalPages;
    var r, news := NewsOnPage(n, pages, k);
    var all := MadeArrivals(r, pages);
    var others := BroughtForward(r, all, k);
    LeftOverPageIsLost(n, r, all[k], others, k, news);
    assert FullyDelivered(r, [all[k]] + others);
  }

  /**
   * An entry is sure to rebuild the next report exactly when its mask is empty or its collection has more pages than
   * a Smart Node ever sends.
   */
  lemma RebuiltExactlyWhenNothingLeftOver(n: PlanningNode)
    requires OwnLoads(n.mac, n.loads) && WellKept(n.pending)
    ensures AlwaysRebuilt(n) <==> n.pending.mask == 0 || n.pending.totalPages > MAX_REPORT_PAGES
  {
    if n.pending.mask == 0 || n.pending.totalPages > MAX_REPORT_PAGES {
      forall r: Report, arrivals: seq<Arrival> | FullyDelivered(r, arrivals) && Sendable(r) && r.mac == n.mac
        ensures Views(ReceiveAll(n, arrivals).loads) == Views(r.loads)
      {
        DeliveredReportIsRebuilt(n, r, arrivals);
      }
    } else {
      var page := SomePage(n.pending.mask);
      LeftOverDefeatsAReport(n, page);
    }
  }

  lemma SomePage(mask: bv8) returns (page: nat)
    requires mask != 0
    ensures page < MAX_TRACKED_PAGES && HasPage(mask, page)
  {
    if page' :| 0 <= page' < MAX_TRACKED_PAGES && HasPage(mask, page') {
      page := page';
    } else {
      forall i | 0 <= i < MAX_TRACKED_PAGES ensures HasPage(mask, i) <==> HasPage(0, i) { AddPage(0, i, i); }
      SameBits(mask, 0);
    }
  }

  // ---------------------------------------------------------------------------------------------------
  // After any past
  // ---------------------------------------------------------------------------------------------------

  /**
   * No report has been collected in this entry, and its loads are the Node's own on distinct pins: a new entry is
   * such.
   */
  ghost predicate Unreported(n: PlanningNode) {
    OwnLoads(n.mac, n.loads) && n.pending.mask == 0 && n.pending.pins == []
  }

  lemma {:induction false} SlotsKeepOwnLoads(mac: MacAddress, loads: seq<LoadRecord>, slots: seq<LoadReport>)
    requires OwnLoads(mac, loads)
    ensures OwnLoads(mac, ApplySlots(mac, loads, slots))
  {
    if slots != [] {
      var init, r := slots[..|slots| - 1], slots[|slots| - 1];
      SlotsKeepOwnLoads(mac, loads, init);
      if ValidLoadReport(r) { UpsertViews(mac, ApplySlots(mac, loads, init), r); }
    }
  }

  lemma ReceiveKeepsOwnLoads(n: PlanningNode, a: Arrival)
    requires OwnLoads(n.mac, n.loads)
    ensures OwnLoads(n.mac, Receive(n, a).loads)
  {
    if Relevant(n, a) {
      var entered := ApplySlots(n.mac, n.loads, UsedSlots(a.packet));
      var pins := Prepare(n, a.packet, a.now).pending.pins + ListedPins(UsedSlots(a.packet));
      var out := Receive(n, a);
      SlotsKeepOwnLoads(n.mac, n.loads, UsedSlots(a.packet));
      PruneViews(n.mac, entered, pins);
      assert out.loads == n.loads || out.loads == entered || out.loads == EraseAll(entered, AbsentPins(entered, pins));
    }
  }

  /** Whatever packets arrive, an entry holds loads of its own Node only, on distinct pins. */
  lemma {:induction false} StreamsKeepOwnLoads(n: PlanningNode, arrivals: seq<Arrival>)
    requires OwnLoads(n.mac, n.loads)
    ensures OwnLoads(n.mac, ReceiveAll(n, arrivals).loads)
  {
    if arrivals != [] {
      var init := arrivals[..|arrivals| - 1];
      StreamsKeepOwnLoads(n, init);
      ReceiveKeepsOwnLoads(ReceiveAll(n, init), arrivals[|arrivals| - 1]);
    }
  }

  /**
   * So after any past the next report is sure to be rebuilt exactly when that past left no page of a sendable report
   * over.
   */
  lemma RebuiltAfterAnyPast(n: PlanningNode, past: seq<Arrival>)
    requires Unreported(n)
    ensures var after := ReceiveAll(n, past);
            AlwaysRebuilt(after) <==> after.pending.mask == 0 || after.pending.totalPages > MAX_REPORT_PAGES
  {
    StreamsKeepOwnLoads(n, past);
    StreamsKeepCollectionsWell(n, past);
    RebuiltExactlyWhenNothingLeftOver(ReceiveAll(n, past));
  }

  /** Such pasts exist: one page of a report of several pages, received by an entry like a new one. */
  lemma OnePageLeavesOver(n: PlanningNode, a: Arrival)
    requires Unreported(n) && Relevant(n, a) && 2 <= a.packet.totalPages <= MAX_REPORT_PAGES
    ensures ReceiveAll(n, [a]).pending.mask != 0 && !AlwaysRebuilt(ReceiveAll(n, [a]))
  {
    assert ReceiveAll(n, [a]) == Receive(ReceiveAll(n, [a][..0]), a) == Receive(n, a);
    PendingAfterReceive(n, a);
    OneBit(a.packet.pageIndex, a.packet.totalPages);
    RebuiltAfterAnyPast(n, [a]);
  }

  lemma OneBit(page: nat, total: nat)
    requires page < MAX_TRACKED_PAGES && 2 <= total <= MAX_REPORT_PAGES
    ensures !HasPage(0, page) && 0 | PageBit(page) != 0 && 0 | PageBit(page) != AllPagesMask(total)
  {
    MaskTable(total);
  }

  /** For instance the first page of a new Node's two. */
  lemma FirstOfTwoPagesLeavesOver(mac: MacAddress, sequenceId: Word)
    ensures var r := Report(mac, MadeLoads(mac, 2, 0.0), sequenceId);
            && Sendable(r) && CarriesOnly(MadeArrivals(r, 2)[0], r)
            && !AlwaysRebuilt(ReceiveAll(NewNode(mac, 0), [MadeArrivals(r, 2)[0]]))
  {
    var r := Report(mac, MadeLoads(mac, 2, 0.0), sequenceId);
    var a := MadeArrivals(r, 2)[0];
    assert Brings(a, r, 0) && CarriesOnly(a, r);
    OnePageLeavesOver(NewNode(mac, 0), a);
  }

  /** And one report is rebuilt after any past that left nothing over under its own key. */
  lemma DeliveredAfterAnyPast(n: PlanningNode, past: seq<Arrival>, r: Report, arrivals: seq<Arrival>)
    requires Unreported(n) && Sendable(r) && r.mac == n.mac && FullyDelivered(r, arrivals)
    requires var pending := ReceiveAll(n, past).pending; Collecting(pending, r) ==> pending.mask == 0
    ensures var out := ReceiveAll(n, past + arrivals).loads; Views(out) == Views(r.loads) && DistinctPins(PinOf, out)
  {
    StreamsKeepOwnLoads(n, past);
    StreamsKeepCollectionsWell(n, past);
    ReceiveAllFrom(n, past, arrivals);
    DeliveredReportIsRebuilt(ReceiveAll(n, past), r, arrivals);
  }

  /** A registry before any report: empty, or with Central's own entry. */
  ghost predicate Unheard(nodes: seq<PlanningNode>) {
    DistinctMacs(nodes) && forall n <- nodes :: Unreported(n)
  }

  /**
   * The registry, from its beginning: after any past of packets of any Nodes that left nothing over under the report's
   * key, and with other Nodes' packets and malformed ones in between, the reporting Node ends up registered with
   * exactly its own loads.
   */
  lemma RegistryHoldsDeliveredReport(nodes: seq<PlanningNode>, past: seq<Arrival>, r: Report, arrivals: seq<Arrival>)
    requires Unheard(nodes) && Sendable(r) && FullyDelivered(r, arrivals)
    requires var pending :=
             EntryOf(ReportAll(nodes, past), r.mac, 0).pending; Collecting(pending, r) ==> pending.mask == 0
    ensures var out := EntryOf(ReportAll(nodes, past + arrivals), r.mac, 0).loads;
            Views(out) == Views(r.loads) && DistinctPins(PinOf, out)
  {
    RegistryFollowsEntry(nodes, r.mac, past);
    RegistryFollowsEntry(nodes, r.mac, past + arrivals);
    DeliveredAfterAnyPast(EntryOf(nodes, r.mac, 0), past, r, arrivals);
  }
}
