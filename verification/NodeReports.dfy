/** The paged load report of a Smart Node, and how Central folds one page into its registry. */
module NodeReports {
  import opened Common
  import opened Loads

  const MAX_LOADS_PER_PACKET: nat := 4
  const MAX_LOADS_PER_NODE: nat := 16
  const MAX_TRACKED_PAGES: nat := 8
  const NAME_SIZE: nat := 16

  // ---------------------------------------------------------------------------------------------------
  // Packets
  // ---------------------------------------------------------------------------------------------------

  type NameBuffer = s: seq<char> | |s| == NAME_SIZE witness seq(NAME_SIZE, _ => '\0')

  datatype LoadReport = LoadReport(
    name: NameBuffer, pin: Byte, mode: Byte, powerType: Byte, priority: Word, watts: Float,
    scheduleEnabled: Byte, startHour: Byte, startMinute: Byte, endHour: Byte, endMinute: Byte)

  const EMPTY_SLOT := LoadReport(seq(NAME_SIZE, _ => '\0'), 0, 0, 0, 0, Finite(0.0), 0, 0, 0, 0, 0)

  type Slots = s: seq<LoadReport> | |s| == MAX_LOADS_PER_PACKET witness [EMPTY_SLOT, EMPTY_SLOT, EMPTY_SLOT, EMPTY_SLOT]

  datatype Header = Header(name: string, upstream: MacAddress, hopCount: Word)

  datatype NodeReport = NodeReport(
    header: Header, mac: MacAddress, numberOfLoads: Byte, sequenceId: Word, pageIndex: Byte, totalPages: Byte,
        loads: Slots)

  /** The characters before the first NUL. */
  function CString(s: seq<char>): (r: string)
    ensures |r| <= |s| && r == s[..|r|] && '\0' !in r
    ensures |r| == |s| || s[|r|] == '\0'
  {
    if s == [] || s[0] == '\0' then [] else [s[0]] + CString(s[1..])
  }

  /** A name cut to the buffer and padded with NULs. */
  function ToBuffer(name: string): NameBuffer {
    var kept := CString(name);
    var cut := if |kept| < NAME_SIZE then kept else kept[..NAME_SIZE - 1];
    cut + seq(NAME_SIZE - |cut|, _ => '\0')
  }

  lemma {:induction false} CStringOfPadded(name: string, padding: seq<char>)
    requires '\0' !in name && (padding == [] || padding[0] == '\0')
    ensures CString(name + padding) == name
  {
    if name != [] {
      assert (name + padding)[1..] == name[1..] + padding;
      CStringOfPadded(name[1..], padding);
    } else {
      assert name + padding == padding;
    }
  }

  /** A buffer holds the first fifteen characters of a name, and so all of a shorter one. */
  lemma BufferedName(name: string)
    requires '\0' !in name
    ensures CString(ToBuffer(name)) == if |name| <= 15 then name else name[..15]
  {
    var cut := if |name| <= 15 then name else name[..15];
    CStringOfPadded(name, []);
    assert name + [] == name;
    CStringOfPadded(cut, seq(NAME_SIZE - |cut|, _ => '\0'));
  }

  function PowerTypeOf(b: Byte): PowerType { if b == 1 then DC else AC }

  function PowerTypeByte(t: PowerType): Byte { if t.DC? then 1 else 0 }

  /** The numbers of power types. */
  lemma PowerTypeNumbers(t: PowerType, b: Byte)
    ensures PowerTypeOf(PowerTypeByte(t)) == t && PowerTypeByte(DC) == 1 && PowerTypeByte(AC) == 0
    ensures b != 1 ==> PowerTypeOf(b) == AC
  {
  }

  predicate ValidLoadReport(r: LoadReport) {
    && 0 < |CString(r.name)| < NAME_SIZE
    && r.mode <= 3
    && r.powerType <= 1
    && r.priority <= 10
    && FiniteNonNegative(r.watts)
    && (r.scheduleEnabled != 0 ==> ValidWindow(r.startHour, r.startMinute, r.endHour, r.endMinute))
  }

  // ---------------------------------------------------------------------------------------------------
  // The Smart side
  // ---------------------------------------------------------------------------------------------------

  function ToReport(l: LoadRecord): LoadReport {
    LoadReport(ToBuffer(l.name), l.id.pin, ModeByte(l.mode), PowerTypeByte(l.powerType), l.priority, Finite(l.watts),
               if l.schedule.enabled then 1 else 0,
               l.schedule.startHour, l.schedule.startMinute, l.schedule.endHour, l.schedule.endMinute)
  }

  function Min(a: nat, b: nat): nat { if a <= b then a else b }

  function PageCount(loadCount: nat): (pages: nat)
    ensures 1 <= pages <= 4
    ensures Min(loadCount, MAX_LOADS_PER_NODE) <= pages * MAX_LOADS_PER_PACKET
    ensures pages == 1 || (pages - 1) * MAX_LOADS_PER_PACKET < Min(loadCount, MAX_LOADS_PER_NODE)
  {
    var pages := (Min(loadCount, MAX_LOADS_PER_NODE) + MAX_LOADS_PER_PACKET - 1) / MAX_LOADS_PER_PACKET;
    if pages == 0 then 1 else pages
  }

  /** The loads a page carries. */
  function PageLoads(loads: seq<LoadRecord>, page: nat): (r: seq<LoadRecord>)
    ensures |r| <= MAX_LOADS_PER_PACKET
  {
    var total := Min(|loads|, MAX_LOADS_PER_NODE);
    var start := page * MAX_LOADS_PER_PACKET;
    var end := Min(start + MAX_LOADS_PER_PACKET, total);
    if start < end then loads[start..end] else []
  }

  function ReportsOf(loads: seq<LoadRecord>): (r: seq<LoadReport>)
    ensures |r| == |loads| && forall i | 0 <= i < |loads| :: r[i] == ToReport(loads[i])
  {
    seq(|loads|, i requires 0 <= i < |loads| => ToReport(loads[i]))
  }

  /** p is a page of this report, whatever route the Node had when it sent it. */
  predicate IsPage(p: NodeReport, mac: MacAddress, loads: seq<LoadRecord>, sequenceId: Word) {
    && p.mac == mac && p.sequenceId == sequenceId
    && p.totalPages == PageCount(|loads|) && p.pageIndex < p.totalPages
    && p.numberOfLoads == |PageLoads(loads, p.pageIndex)|
    && p.loads[..p.numberOfLoads] == ReportsOf(PageLoads(loads, p.pageIndex))
  }

  method BuildNodeReportPacket(header: Header, mac: MacAddress, loads: seq<LoadRecord>, sequenceId: Word,
                               pageIndex: Byte)
    returns (packet: NodeReport)
    requires pageIndex < PageCount(|loads|)
    ensures IsPage(packet, mac, loads, sequenceId) && packet.pageIndex == pageIndex && packet.header == header
  {
    var totalLoads := if |loads| <= MAX_LOADS_PER_NODE then |loads| else MAX_LOADS_PER_NODE;
    var startIndex := pageIndex * MAX_LOADS_PER_PACKET;
    var endIndex := if startIndex + MAX_LOADS_PER_PACKET <= totalLoads then startIndex +
        MAX_LOADS_PER_PACKET else totalLoads;
    var numberOfLoads: Byte := if startIndex < endIndex then endIndex - startIndex else 0;
    var slots: Slots := [EMPTY_SLOT, EMPTY_SLOT, EMPTY_SLOT, EMPTY_SLOT];
    for i := 0 to numberOfLoads
      invariant forall k | 0 <= k < i :: slots[k] == ToReport(loads[startIndex + k])
    {
      slots := slots[i := ToReport(loads[startIndex + i])];
    }
    packet := NodeReport(header, mac, numberOfLoads, sequenceId, pageIndex, PageCount(|loads|), slots);
  }

  // ---------------------------------------------------------------------------------------------------
  // The page mask
  // ---------------------------------------------------------------------------------------------------

  function PageBit(i: nat): bv8
    requires i < MAX_TRACKED_PAGES
  {
    (1 as bv8) << i
  }

  function AllPagesMask(total: nat): bv8
    requires 1 <= total <= MAX_TRACKED_PAGES
  {
    (((1 as bv16) << total) - 1) as bv8
  }

  predicate HasPage(mask: bv8, i: nat)
    requires i < MAX_TRACKED_PAGES
  {
    mask & PageBit(i) != 0
  }

  lemma AddPage(mask: bv8, i: nat, j: nat)
    requires i < MAX_TRACKED_PAGES && j < MAX_TRACKED_PAGES
    ensures HasPage(mask | PageBit(i), j) <==> i == j || HasPage(mask, j)
    ensures !HasPage(0, j)
  {
  }

  /** A mask of pages below total is the full mask exactly when it has all of them. */
  lemma FullMask(mask: bv8, total: nat)
    requires 1 <= total <= MAX_TRACKED_PAGES
    requires forall i | total <= i < MAX_TRACKED_PAGES :: !HasPage(mask, i)
    ensures mask == AllPagesMask(total) <==> forall i | 0 <= i < total :: HasPage(mask, i)
  {
    assert forall i | 0 <= i < MAX_TRACKED_PAGES :: HasPage(AllPagesMask(total), i) <==> i < total by {
      MaskTable(total);
    }
    if forall i | 0 <= i < total :: HasPage(mask, i) { SameBits(mask, AllPagesMask(total)); }
  }

  lemma MaskTable(total: nat)
    requires 1 <= total <= MAX_TRACKED_PAGES
    ensures AllPagesMask(total) == [1, 3, 7, 15, 31, 63, 127, 255][total - 1]
  {
  }

  lemma SameBits(a: bv8, b: bv8)
    requires forall i | 0 <= i < MAX_TRACKED_PAGES :: HasPage(a, i) <==> HasPage(b, i)
    ensures a == b
  {
    assert HasPage(a, 0) <==> HasPage(b, 0);
    assert HasPage(a, 1) <==> HasPage(b, 1);
    assert HasPage(a, 2) <==> HasPage(b, 2);
    assert HasPage(a, 3) <==> HasPage(b, 3);
    assert HasPage(a, 4) <==> HasPage(b, 4);
    assert HasPage(a, 5) <==> HasPage(b, 5);
    assert HasPage(a, 6) <==> HasPage(b, 6);
    assert HasPage(a, 7) <==> HasPage(b, 7);
  }
}
