/** The user's priorities, modes and schedules, kept by load and persisted as packed records. */
module LoadConfigurations {
  import opened Common
  import opened Loads

  datatype ConfigurationEntry = ConfigurationEntry(id: LoadId, priority: Word, mode: Mode, schedule: AutoSchedule)

  // ---------------------------------------------------------------------------------------------------
  // The list of entries
  // ---------------------------------------------------------------------------------------------------

  function EntryId(e: ConfigurationEntry): LoadId { e.id }

  function IndexOfEntry(entries: seq<ConfigurationEntry>, id: LoadId): (k: nat)
    ensures k <= |entries|
    ensures k < |entries| ==> entries[k].id == id
    ensures forall i | 0 <= i < k :: entries[i].id != id
  {
    IndexBy(EntryId, entries, id)
  }

  function Find(entries: seq<ConfigurationEntry>, id: LoadId): Option<ConfigurationEntry> {
    var k := IndexOfEntry(entries, id);
    if k < |entries| then Some(entries[k]) else None
  }

  function Set(entries: seq<ConfigurationEntry>, e: ConfigurationEntry): seq<ConfigurationEntry> {
    var k := IndexOfEntry(entries, e.id);
    if !ValidSchedule(e.schedule) then entries
    else if k < |entries| then entries[k := e]
    else entries + [e]
  }

  function Removed(entries: seq<ConfigurationEntry>, id: LoadId): seq<ConfigurationEntry> {
    var k := IndexOfEntry(entries, id);
    if k < |entries| then entries[..k] + entries[k + 1..] else entries
  }

  /**
   * One entry per load, with a schedule a load accepts: what the constructor of a schedule and the setter guarantee.
   */
  ghost predicate WellFormed(entries: seq<ConfigurationEntry>) {
    && (forall i, j | 0 <= i < j < |entries| :: entries[i].id != entries[j].id)
    && (forall e <- entries :: Canonical(e.schedule) && ValidSchedule(e.schedule))
  }

  predicate Canonical(s: AutoSchedule) { s.enabled || s == NO_SCHEDULE }

  lemma FindUnique(entries: seq<ConfigurationEntry>, e: ConfigurationEntry)
    requires WellFormed(entries) && e in entries
    ensures Find(entries, e.id) == Some(e)
  {
    var i :| 0 <= i < |entries| && entries[i] == e;
  }

  /** The list behaves as a map: setting one load's configuration is visible for it and for no other. */
  lemma SetThenFind(entries: seq<ConfigurationEntry>, e: ConfigurationEntry, id: LoadId)
    requires WellFormed(entries) && Canonical(e.schedule)
    ensures WellFormed(Set(entries, e))
    ensures Find(Set(entries, e), id) == if id == e.id && ValidSchedule(e.schedule) then Some(e) else Find(entries, id)
  {
    var out := Set(entries, e);
    var k := IndexOfEntry(entries, e.id);
    if ValidSchedule(e.schedule) {
      assert out[k] == e && forall i | 0 <= i < |entries| && i != k :: out[i] == entries[i];
      assert forall x <- out :: x == e || x in entries;
      FindUnique(out, e);
      if id != e.id { FindElsewhere(entries, out, id); }
    }
  }

  /** Two well-formed lists with the same entries for a load find the same. */
  lemma FindElsewhere(entries: seq<ConfigurationEntry>, out: seq<ConfigurationEntry>, id: LoadId)
    requires WellFormed(entries) && WellFormed(out)
    requires forall e: ConfigurationEntry :: e.id == id ==> (e in entries <==> e in out)
    ensures Find(entries, id) == Find(out, id)
  {
    if e :| e in entries && e.id == id {
      FindUnique(entries, e);
      FindUnique(out, e);
    } else {
      assert forall e <- entries :: e.id != id;
      assert forall e <- out :: e.id != id;
    }
  }

  lemma RemovedEntries(entries: seq<ConfigurationEntry>, gone: LoadId)
    requires WellFormed(entries)
    ensures WellFormed(Removed(entries, gone))
    ensures forall e :: e in Removed(entries, gone) <==> e in entries && e.id != gone
  {
    var out := Removed(entries, gone);
    var k := IndexOfEntry(entries, gone);
    if k < |entries| {
      assert forall i | 0 <= i < |out| :: out[i] == entries[if i < k then i else i + 1];
      assert entries == entries[..k] + [entries[k]] + entries[k + 1..];
    } else {
      assert forall e <- entries :: e.id != gone;
    }
  }

  lemma RemoveThenFind(entries: seq<ConfigurationEntry>, gone: LoadId, id: LoadId)
    requires WellFormed(entries)
    ensures WellFormed(Removed(entries, gone))
    ensures Find(Removed(entries, gone), id) == if id == gone then None else Find(entries, id)
  {
    RemovedEntries(entries, gone);
    if id == gone {
      assert forall e <- Removed(entries, gone) :: e.id != gone;
    } else {
      FindElsewhere(entries, Removed(entries, gone), id);
    }
  }

  // ---------------------------------------------------------------------------------------------------
  // Applying an entry to a load
  // ---------------------------------------------------------------------------------------------------

  function Configured(e: ConfigurationEntry, l: LoadRecord): LoadRecord {
    WithSchedule(WithMode(l.(priority := e.priority), e.mode), e.schedule).0
  }

  function Applied(entries: seq<ConfigurationEntry>, l: LoadRecord): LoadRecord {
    match Find(entries, l.id)
    case None => l
    case Some(e) => Configured(e, l)
  }

  function EntryFor(l: LoadRecord): ConfigurationEntry { ConfigurationEntry(l.id, l.priority, l.mode, l.schedule) }

  /** A load with stored settings takes them over in full, and nothing else changes; one without stays as it is. */
  lemma SettingsTakenOver(entries: seq<ConfigurationEntry>, l: LoadRecord)
    requires WellFormed(entries) && LoadInv(l)
    ensures Find(entries, l.id).None? ==> Applied(entries, l) == l
    ensures forall e | Find(entries, l.id) == Some(e) ::
              var out := Applied(entries, l);
              && out.priority == e.priority && out.mode == e.mode
              && out.schedule == (if e.mode.FixedOff? || e.mode.FixedOn? then AutoSchedule(false, 0, 0, 0, 0)
                                  else e.schedule)
              && out.id == l.id && out.name == l.name && out.watts == l.watts && out.powerType == l.powerType
              && out.rejection == l.rejection
  {
    var k := IndexOfEntry(entries, l.id);
    if k < |entries| { assert entries[k] in entries; }
  }

  /** A load already carries its stored configuration, so applying it again changes nothing. */
  predicate InForce(entries: seq<ConfigurationEntry>, l: LoadRecord) {
    Find(entries, l.id) == Some(EntryFor(l))
  }

  lemma InForceIsStable(entries: seq<ConfigurationEntry>, l: LoadRecord)
    requires LoadInv(l) && InForce(entries, l)
    ensures Applied(entries, l) == l
  {
  }

  /** Applying is idempotent and keeps the load invariant, whatever the entries. */
  lemma AppliedTwice(entries: seq<ConfigurationEntry>, l: LoadRecord)
    requires LoadInv(l)
    ensures LoadInv(Applied(entries, l)) && Applied(entries, l).id == l.id
    ensures Applied(entries, Applied(entries, l)) == Applied(entries, l)
  {
  }

  // ---------------------------------------------------------------------------------------------------
  // Packed records
  // ---------------------------------------------------------------------------------------------------

  const RECORD_SIZE: nat := 15
  const LEGACY_RECORD_SIZE: nat := 13

  /** The packed record, low byte of the priority first. */
  function Record(e: ConfigurationEntry): (r: seq<Byte>)
    ensures |r| == RECORD_SIZE
  {
    var m, s := e.id.mac, e.schedule;
    [m.b0, m.b1, m.b2, m.b3, m.b4, m.b5, e.id.pin, e.priority % 0x100, e.priority / 0x100, ModeByte(e.mode),
     if s.enabled then 1 else 0, s.startHour, s.startMinute, s.endHour, s.endMinute]
  }

  function LittleEndian(low: Byte, high: Byte): Word { (low as nat) + 0x100 * (high as nat) }

  function Parse(r: seq<Byte>): ConfigurationEntry
    requires |r| == RECORD_SIZE
  {
    ConfigurationEntry(LoadId(MacAddress(r[0], r[1], r[2], r[3], r[4], r[5]), r[6]), LittleEndian(r[7], r[8]),
                       ModeOf(r[9]),
                       MakeSchedule(r[10] != 0, r[11], r[12], r[13], r[14]))
  }

  /** A version-1 record knew only a start time; its schedule is dropped. */
  function ParseLegacy(r: seq<Byte>): ConfigurationEntry
    requires |r| == LEGACY_RECORD_SIZE
  {
    ConfigurationEntry(LoadId(MacAddress(r[0], r[1], r[2], r[3], r[4], r[5]), r[6]), LittleEndian(r[7], r[8]),
                       ModeOf(r[9]), NO_SCHEDULE)
  }

  /** Where each field stands in a record, by an entry whose fields all differ. */
  lemma RecordLayout()
    ensures Record(ConfigurationEntry(LoadId(MacAddress(21, 22, 23, 24, 25, 26), 27), 0x0908, AutoOff,
                                      AutoSchedule(true, 10, 11, 12, 13))) ==
            [21, 22, 23, 24, 25, 26, 27, 8, 9, 2, 1, 10, 11, 12, 13]
  {
  }

  /** A version-1 record is a current one whose schedule is off. */
  lemma LegacyIsCurrentWithoutSchedule(r: seq<Byte>)
    requires |r| == LEGACY_RECORD_SIZE
    ensures ParseLegacy(r) == Parse(r[..10] + [0, 0, 0, 0, 0])
  {
  }

  function Encoded(entries: seq<ConfigurationEntry>): (blob: seq<Byte>)
    ensures |blob| == |entries| * RECORD_SIZE
  {
    if entries == [] then [] else Encoded(entries[..|entries| - 1]) + Record(entries[|entries| - 1])
  }

  function Slice(blob: seq<Byte>, i: nat, size: nat): seq<Byte>
    requires (i + 1) * size <= |blob|
  {
    assert i * size <= (i + 1) * size;
    blob[i * size..(i + 1) * size]
  }

  ghost predicate Decodes(blob: seq<Byte>, entries: seq<ConfigurationEntry>) {
    && |blob| == |entries| * RECORD_SIZE
    && forall i | 0 <= i < |entries| ::
       entries[i] == Parse(Slice(blob, i, RECORD_SIZE)) && ValidSchedule(entries[i].schedule)
  }

  ghost predicate DecodesLegacy(blob: seq<Byte>, entries: seq<ConfigurationEntry>) {
    && |blob| == |entries| * LEGACY_RECORD_SIZE
    && forall i | 0 <= i < |entries| :: entries[i] == ParseLegacy(Slice(blob, i, LEGACY_RECORD_SIZE))
  }

  lemma RecordRoundTrip(e: ConfigurationEntry)
    requires Canonical(e.schedule)
    ensures Parse(Record(e)) == e
  {
  }

  lemma {:induction false} EncodedSlices(entries: seq<ConfigurationEntry>, i: nat)
    requires i < |entries|
    ensures Slice(Encoded(entries), i, RECORD_SIZE) == Record(entries[i])
  {
    var init := entries[..|entries| - 1];
    if i < |init| {
      EncodedSlices(init, i);
      assert (i + 1) * RECORD_SIZE <= |init| * RECORD_SIZE;
      assert Slice(Encoded(entries), i, RECORD_SIZE) == Slice(Encoded(init), i, RECORD_SIZE);
    }
  }

  /** Decoding what was encoded gives the list back, and nothing else does. */
  lemma EncodedDecodes(entries: seq<ConfigurationEntry>, decoded: seq<ConfigurationEntry>)
    requires forall e <- entries :: Canonical(e.schedule) && ValidSchedule(e.schedule)
    ensures Decodes(Encoded(entries), decoded) <==> decoded == entries
  {
    forall i | 0 <= i < |entries| ensures Parse(Slice(Encoded(entries), i, RECORD_SIZE)) == entries[i] &&
        ValidSchedule(entries[i].schedule) {
      EncodedSlices(entries, i);
      assert entries[i] in entries;
      RecordRoundTrip(entries[i]);
    }
  }

  // ---------------------------------------------------------------------------------------------------
  // The store and its flash namespace
  // ---------------------------------------------------------------------------------------------------

  /** The two keys of the flash namespace. */
  datatype Flash = Flash(entries: Option<seq<Byte>>, legacy: Option<seq<Byte>>)

  predicate Usable(blob: Option<seq<Byte>>, size: nat)
    requires size > 0
  {
    blob.Some? && |blob.value| > 0 && |blob.value| % size == 0
  }

  class LoadConfigurationStore {
    var entries: seq<ConfigurationEntry>

    constructor ()
      ensures entries == []
    {
      entries := [];
    }

    method FindConfiguration(id: LoadId) returns (found: Option<ConfigurationEntry>)
      ensures found == Find(entries, id)
    {
      for i := 0 to |entries|
        invariant forall k | 0 <= k < i :: entries[k].id != id
      {
        if entries[i].id == id {
          return Some(entries[i]);
        }
      }
      return None;
    }

    method SetConfiguration(e: ConfigurationEntry) returns (accepted: bool)
      modifies this
      ensures accepted <==> ValidSchedule(e.schedule)
      ensures entries == Set(old(entries), e)
    {
      if !ValidSchedule(e.schedule) {
        return false;
      }
      var k := IndexOfEntry(entries, e.id);
      if k < |entries| {
        entries := entries[k := e];
      } else {
        entries := entries + [e];
      }
      return true;
    }

    method RemoveConfiguration(id: LoadId) returns (removed: bool)
      modifies this
      ensures removed <==> Find(old(entries), id).Some?
      ensures entries == Removed(old(entries), id)
    {
      var k := IndexOfEntry(entries, id);
      if k == |entries| {
        return false;
      }
      entries := entries[..k] + entries[k + 1..];
      return true;
    }

    method ApplyToLoad(load: Load) returns (applied: bool)
      modifies load
      ensures applied <==> Find(entries, old(load.Record()).id).Some?
      ensures load.Record() == Applied(entries, old(load.Record()))
    {
      var found := FindConfiguration(load.id);
      if found.None? {
        return false;
      }
      load.priority := found.value.priority;
      load.SetMode(found.value.mode);
      var scheduled := load.SetSchedule(found.value.schedule);
      return true;
    }

    /** The blob is written only if every step succeeds; otherwise flash keeps what it held. */
    method Persist(flash: Flash, reachable: bool, written: bool, committed: bool) returns (flash': Flash, ok: bool)
      ensures ok <==> reachable && written && committed
      ensures flash' == if ok then flash.(entries := Some(Encoded(entries))) else flash
    {
      if !reachable {
        return flash, false;
      }
      var blob: seq<Byte> := [];
      for i := 0 to |entries|
        invariant blob == Encoded(entries[..i])
      {
        assert entries[..i + 1][..i] == entries[..i];
        blob := blob + Record(entries[i]);
      }
      assert entries[..|entries|] == entries;
      if !written || !committed {
        return flash, false;
      }
      return flash.(entries := Some(blob)), true;
    }

    /** Restores the current records, or failing those the version-1 records; on failure the list stays as it is. */
    method LoadPersisted(flash: Flash, reachable: bool, readable: bool) returns (ok: bool)
      modifies this
      ensures !ok ==> entries == old(entries)
      ensures ok ==> reachable && readable
      ensures ok && Usable(flash.entries, RECORD_SIZE) ==> Decodes(flash.entries.value, entries)
      ensures ok && !Usable(flash.entries, RECORD_SIZE) ==>
                Usable(flash.legacy, LEGACY_RECORD_SIZE) && DecodesLegacy(flash.legacy.value, entries)
      ensures !ok && reachable && readable && Usable(flash.entries, RECORD_SIZE) ==>
              forall d :: !Decodes(flash.entries.value, d)
      ensures !ok && reachable && readable && !Usable(flash.entries, RECORD_SIZE) ==>
              !Usable(flash.legacy, LEGACY_RECORD_SIZE)
    {
      if !reachable {
        return false;
      }
      if Usable(flash.entries, RECORD_SIZE) {
        if !readable {
          return false;
        }
        var restored := DecodeRecords(flash.entries.value);
        if restored.None? {
          return false;
        }
        entries := restored.value;
        return true;
      }
      if !Usable(flash.legacy, LEGACY_RECORD_SIZE) || !readable {
        return false;
      }
      var legacy := DecodeLegacyRecords(flash.legacy.value);
      entries := legacy;
      return true;
    }
  }

  lemma DecodedAt(blob: seq<Byte>, entries: seq<ConfigurationEntry>, i: nat)
    requires Decodes(blob, entries) && i < |entries|
    ensures entries[i] == Parse(Slice(blob, i, RECORD_SIZE)) && ValidSchedule(entries[i].schedule)
  {
  }

  lemma OneBadRecordSpoilsAll(blob: seq<Byte>, i: nat)
    requires (i + 1) * RECORD_SIZE <= |blob| && !ValidSchedule(Parse(Slice(blob, i, RECORD_SIZE)).schedule)
    ensures forall d :: !Decodes(blob, d)
  {
    forall d ensures !Decodes(blob, d) {
      if Decodes(blob, d) { DecodedAt(blob, d, i); }
    }
  }

  method DecodeRecords(blob: seq<Byte>) returns (restored: Option<seq<ConfigurationEntry>>)
    requires |blob| % RECORD_SIZE == 0
    ensures restored.Some? ==> Decodes(blob, restored.value)
    ensures restored.None? ==> forall d :: !Decodes(blob, d)
  {
    var count := |blob| / RECORD_SIZE;
    var entries: seq<ConfigurationEntry> := [];
    for i := 0 to count
      invariant |entries| == i
      invariant forall k | 0 <= k < i ::
                entries[k] == Parse(Slice(blob, k, RECORD_SIZE)) && ValidSchedule(entries[k].schedule)
    {
      var e := Parse(Slice(blob, i, RECORD_SIZE));
      if !ValidSchedule(e.schedule) {
        OneBadRecordSpoilsAll(blob, i);
        return None;
      }
      entries := entries + [e];
    }
    return Some(entries);
  }

  method DecodeLegacyRecords(blob: seq<Byte>) returns (entries: seq<ConfigurationEntry>)
    requires |blob| % LEGACY_RECORD_SIZE == 0
    ensures DecodesLegacy(blob, entries)
  {
    entries := [];
    for i := 0 to |blob| / LEGACY_RECORD_SIZE
      invariant |entries| == i
      invariant forall k | 0 <= k < i :: entries[k] == ParseLegacy(Slice(blob, k, LEGACY_RECORD_SIZE))
    {
      entries := entries + [ParseLegacy(Slice(blob, i, LEGACY_RECORD_SIZE))];
    }
  }

  /**
   * A restart with a working flash: a fresh store gets back exactly what was persisted, unless the persisted list was
   * empty while version-1 records are still there to take its place.
   */
  method PersistThenRestart(store: LoadConfigurationStore, flash: Flash)
    returns (restored: LoadConfigurationStore, ok: bool)
    requires WellFormed(store.entries)
    ensures restored.entries == store.entries <==> store.entries != [] || !Usable(flash.legacy, LEGACY_RECORD_SIZE)
    ensures store.entries != [] ==> ok
    ensures store.entries == [] ==> (ok <==> Usable(flash.legacy, LEGACY_RECORD_SIZE))
  {
    var flash', written := store.Persist(flash, true, true, true);
    restored := new LoadConfigurationStore();
    ok := restored.LoadPersisted(flash', true, true);
    EncodedDecodes(store.entries, store.entries);
    EncodedDecodes(store.entries, restored.entries);
  }
}
