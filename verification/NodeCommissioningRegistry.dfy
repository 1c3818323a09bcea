/** Commissioning, both ends: Central asks and waits for one acknowledgement, the Node decides. */
module Commissioning {
  import opened Common

  const FRIENDLY_NAME_BUFFER_SIZE: nat := 20
  const FIRMWARE_VERSION_BUFFER_SIZE: nat := 12
  const CHIP_MODEL_BUFFER_SIZE: nat := 16
  const MAX_RELAY_GPIO_CAPABILITIES: nat := 18
  /** A C string. */
  type Text = s: string | '\0' !in s

  datatype Lifecycle = Factory | Uncommissioned | Discovered | Configuring | Commissioned | Operational | Decommissioned

  predicate ValidTransition(from: Lifecycle, to: Lifecycle) {
    match from
    case Factory => to.Uncommissioned?
    case Uncommissioned => to.Discovered? || to.Configuring? || to.Decommissioned?
    case Discovered => to.Configuring? || to.Decommissioned?
    case Configuring => to.Commissioned? || to.Uncommissioned? || to.Decommissioned?
    case Commissioned => to.Operational? || to.Decommissioned?
    case Operational => to.Decommissioned?
    case Decommissioned => to.Uncommissioned?
  }

  predicate ValidName(name: Text) { 0 < |name| < FRIENDLY_NAME_BUFFER_SIZE }

  /** A copy cut to a buffer of this size. */
  function CutTo(size: nat, s: Text): Text
    requires size > 0
  {
    if |s| < size then s else s[..size - 1]
  }

  function Copied(name: Text): Text { CutTo(FRIENDLY_NAME_BUFFER_SIZE, name) }

  // ---------------------------------------------------------------------------------------------------
  // Central's record of a Node
  // ---------------------------------------------------------------------------------------------------

  datatype Sync = Synced | Pending | SyncFailed

  datatype Role = CentralRole | SmartRole

  /** What a Node's identity report says about its hardware, and when it said so. */
  datatype Board = Board(role: Role, firmware: Text, chip: Text, relayPins: seq<Byte>, seenAt: nat)

  datatype Record = Record(
    mac: MacAddress,
    lifecycle: Lifecycle,
    name: Text,
    pendingName: Text,
    pendingId: CommandId,
    sync: Sync,
    board: Board)

  function RecordMac(r: Record): MacAddress { r.mac }

  function IndexOfRecord(records: seq<Record>, mac: MacAddress): (k: nat)
    ensures k <= |records|
    ensures k < |records| ==> records[k].mac == mac
    ensures forall i | 0 <= i < k :: records[i].mac != mac
  {
    IndexBy(RecordMac, records, mac)
  }

  /** As much of a report as a record keeps. */
  function Kept(b: Board): Board {
    Board(b.role, CutTo(FIRMWARE_VERSION_BUFFER_SIZE, b.firmware), CutTo(CHIP_MODEL_BUFFER_SIZE, b.chip),
          if |b.relayPins| <= MAX_RELAY_GPIO_CAPABILITIES then b.relayPins
          else b.relayPins[..MAX_RELAY_GPIO_CAPABILITIES],
          b.seenAt)
  }

  function NewRecord(mac: MacAddress, b: Board): Record {
    Record(mac, Uncommissioned, "", "", 0, Synced, Kept(b))
  }

  /** A known Node keeps its role, and a decommissioned one may be commissioned anew. */
  function Rediscovered(r: Record, b: Board): Record {
    r.(lifecycle := if r.lifecycle.Decommissioned? then Uncommissioned else r.lifecycle,
       board := Kept(b).(role := r.board.role))
  }

  predicate FirstCommissioning(l: Lifecycle) { l.Uncommissioned? || l.Discovered? }

  predicate Rename(l: Lifecycle) { l.Commissioned? || l.Operational? }

  predicate Requestable(r: Record, name: Text) {
    ValidName(name) && (FirstCommissioning(r.lifecycle) || Rename(r.lifecycle))
  }

  function Requested(r: Record, name: Text, id: CommandId): Record {
    r.(lifecycle := if FirstCommissioning(r.lifecycle) then Configuring else r.lifecycle,
       pendingName := Copied(name), pendingId := id, sync := Pending)
  }

  /** This acknowledgement is the one the record is waiting for. */
  predicate Awaited(r: Record, id: CommandId) { r.sync.Pending? && r.pendingId == id }

  function Acknowledged(r: Record, id: CommandId, success: bool, state: Lifecycle): Record {
    if !Awaited(r, id) then r
    else r.(lifecycle := state, name := if success then Copied(r.pendingName) else r.name,
            sync := if success then Synced else SyncFailed, pendingName := "")
  }

  predicate Dismissable(r: Record) { ValidTransition(r.lifecycle, Decommissioned) }

  function Dismissed(r: Record): Record {
    r.(lifecycle := Decommissioned, name := "", pendingName := "", sync := Synced)
  }

  class NodeCommissioningRegistry {
    var records: seq<Record>

    constructor ()
      ensures records == []
    {
      records := [];
    }

    method RecordDiscovered(mac: MacAddress, b: Board) returns (isNew: bool)
      modifies this
      ensures var k := IndexOfRecord(old(records), mac);
              && (isNew <==> k == |old(records)|)
              && records == if isNew then old(records) + [NewRecord(mac, b)]
                            else old(records)[k := Rediscovered(old(records)[k], b)]
    {
      var relayPins := b.relayPins;
      if |relayPins| > MAX_RELAY_GPIO_CAPABILITIES {
        relayPins := relayPins[..MAX_RELAY_GPIO_CAPABILITIES];
      }
      var firmware, chip := CutTo(FIRMWARE_VERSION_BUFFER_SIZE, b.firmware), CutTo(CHIP_MODEL_BUFFER_SIZE, b.chip);
      var k := IndexOfRecord(records, mac);
      if k == |records| {
        records := records +
            [Record(mac, Uncommissioned, "", "", 0, Synced, Board(b.role, firmware, chip, relayPins, b.seenAt))];
        return true;
      }
      var r := records[k];
      if r.lifecycle.Decommissioned? {
        r := r.(lifecycle := Uncommissioned);
      }
      records := records[k := r.(board := Board(r.board.role, firmware, chip, relayPins, b.seenAt))];
      return false;
    }

    method RequestCommissioning(mac: MacAddress, name: Text, id: CommandId) returns (accepted: bool)
      modifies this
      ensures var k := IndexOfRecord(old(records), mac);
              && (accepted <==> k < |old(records)| && Requestable(old(records)[k], name))
              && records == if accepted then old(records)[k := Requested(old(records)[k], name, id)] else old(records)
    {
      if !ValidName(name) {
        return false;
      }
      var k := IndexOfRecord(records, mac);
      if k == |records| {
        return false;
      }
      var r := records[k];
      if !FirstCommissioning(r.lifecycle) && !Rename(r.lifecycle) {
        return false;
      }
      if FirstCommissioning(r.lifecycle) && !ValidTransition(r.lifecycle, Configuring) {
        return false;
      }
      if FirstCommissioning(r.lifecycle) {
        r := r.(lifecycle := Configuring);
      }
      r := r.(pendingName := Copied(name), pendingId := id, sync := Pending);
      records := records[k := r];
      return true;
    }

    method ApplyCommissionResult(mac: MacAddress, id: CommandId, success: bool, state: Lifecycle)
      returns (applied: bool)
      modifies this
      ensures var k := IndexOfRecord(old(records), mac);
              && (applied <==> k < |old(records)| && Awaited(old(records)[k], id))
              && records == if k < |old(records)| then old(records)[k :=
                 Acknowledged(old(records)[k], id, success, state)] else old(records)
    {
      var k := IndexOfRecord(records, mac);
      if k == |records| {
        return false;
      }
      var r := records[k];
      if !r.sync.Pending? || r.pendingId != id {
        return false;
      }
      r := r.(lifecycle := state);
      if success {
        r := r.(name := Copied(r.pendingName), sync := Synced);
      } else {
        r := r.(sync := SyncFailed);
      }
      records := records[k := r.(pendingName := "")];
      return true;
    }

    method Decommission(mac: MacAddress) returns (decommissioned: bool)
      modifies this
      ensures var k := IndexOfRecord(old(records), mac);
              && (decommissioned <==> k < |old(records)| && Dismissable(old(records)[k]))
              && records == if decommissioned then old(records)[k := Dismissed(old(records)[k])] else old(records)
    {
      var k := IndexOfRecord(records, mac);
      if k == |records| || !ValidTransition(records[k].lifecycle, Decommissioned) {
        return false;
      }
      records := records[k := records[k].(lifecycle := Decommissioned, name := "", pendingName := "", sync := Synced)];
      return true;
    }
  }

  // ---------------------------------------------------------------------------------------------------
  // The Node's own identity
  // ---------------------------------------------------------------------------------------------------

  datatype Identity = Identity(lifecycle: Lifecycle, name: Text)

  const NO_IDENTITY := Identity(Uncommissioned, "")

  predicate Acceptable(n: Identity, name: Text) {
    ValidName(name) && (n.lifecycle.Uncommissioned? || Rename(n.lifecycle))
  }

  function Named(n: Identity, name: Text): Identity {
    Identity(if n.lifecycle.Uncommissioned? then Commissioned else n.lifecycle, Copied(name))
  }

  datatype Ack = Ack(id: CommandId, success: bool, state: Lifecycle)

  class NodeIdentityStore {
    var lifecycle: Lifecycle
    var name: Text

    function Value(): Identity
      reads this
    {
      Identity(lifecycle, name)
    }

    constructor ()
      ensures Value() == NO_IDENTITY
    {
      lifecycle, name := Uncommissioned, "";
    }

    method ApplyCommission(friendlyName: Text) returns (accepted: bool)
      modifies this
      ensures accepted <==> Acceptable(old(Value()), friendlyName)
      ensures Value() == if accepted then Named(old(Value()), friendlyName) else old(Value())
    {
      if !ValidName(friendlyName) {
        return false;
      }
      if !lifecycle.Uncommissioned? && !Rename(lifecycle) {
        return false;
      }
      if lifecycle.Uncommissioned? {
        lifecycle := Commissioned;
      }
      name := Copied(friendlyName);
      return true;
    }

    method ApplyDecommission()
      modifies this
      ensures Value() == NO_IDENTITY
    {
      lifecycle, name := Uncommissioned, "";
    }
  }

  /** What a Node makes of a commission command: it takes the name only if it can also store it. */
  predicate Takes(n: Identity, name: Text, free: bool, stored: bool) { free && stored && Acceptable(n, name) }

  /** A Node whose identity is busy answers with the default state. */
  function AckFor(n: Identity, name: Text, id: CommandId, free: bool, stored: bool): Ack {
    Ack(id, Takes(n, name, free, stored),
        if !free then Uncommissioned else if Takes(n, name, free, stored) then Named(n,
            name).lifecycle else n.lifecycle)
  }

  method HandleCommissionCommand(store: NodeIdentityStore, id: CommandId, friendlyName: Text, free: bool, stored: bool)
    returns (ack: Ack)
    modifies store
    ensures ack == AckFor(old(store.Value()), friendlyName, id, free, stored)
    ensures store.Value() == if ack.success then Named(old(store.Value()), friendlyName) else old(store.Value())
  {
    var accepted, resultingState := false, Uncommissioned;
    if free {
      var previousLifecycle, previousName := store.lifecycle, store.name;
      accepted := store.ApplyCommission(friendlyName);
      if accepted && !stored {
        store.lifecycle, store.name := previousLifecycle, previousName;
        accepted := false;
      }
      resultingState := store.lifecycle;
    }
    ack := Ack(id, accepted, resultingState);
  }

  /** The identity is cleared only after all loads were, and only if that can be stored. */
  method HandleDecommissionCommand(store: NodeIdentityStore, loadsCleared: bool, stored: bool) returns (success: bool)
    modifies store
    ensures success <==> loadsCleared && stored
    ensures store.Value() == if success then NO_IDENTITY else old(store.Value())
  {
    if !loadsCleared {
      return false;
    }
    var previousLifecycle, previousName := store.lifecycle, store.name;
    store.ApplyDecommission();
    if !stored {
      store.lifecycle, store.name := previousLifecycle, previousName;
    }
    return stored;
  }
}
