/** What a caller gets from each request, stated on the tables before and after it. */
module Guarantees {
  import opened Tables
  import opened Handlers
  import opened Memberships
  import Placement
  import Hierarchy
  import Signups
  import SubscriberDevices

  // ---------------------------------------------------------------- what always holds

  /** The invariants of the tables: placements, the entity tree and its operators, homes of venues, sign-ups, serial
      numbers and OLGs. */
  ghost predicate Sane(db: Db) {
    && Placement.Placed(db) && Hierarchy.Ordered(db) && Hierarchy.Housed(db.venues) && Signups.Sound(db)
    && SubscriberDevices.UniqueSerials(db) && SubscriberDevices.NoSecondOlg(db.subDevices)
  }

  /** Freeing a record is the one request that can take devices and inventory out of step. */
  ghost predicate StaysInStep(db: Db, r: Request) {
    r.RemoveSubscriberRequest? && RemoveSubscriberAllowed(db, r.id, r.subscriber) ==> SubscriberDevices.FreesCleanly(db, r.id, r.subscriber)
  }

  lemma StepSane(db: Db, r: Request)
    requires Sane(db) && Answered(db, r)
    ensures Sane(Step(db, r))
    ensures SubscriberDevices.InStep(db) && StaysInStep(db, r) ==> SubscriberDevices.InStep(Step(db, r))
  {
    Placement.StepPlaced(db, r);
    Hierarchy.StepOrdered(db, r);
    Hierarchy.StepHoused(db, r);
    Signups.StepSound(db, r);
    SubscriberDevices.StepUnique(db, r);
    SubscriberDevices.StepKeepsOlg(db, r);
    if SubscriberDevices.InStep(db) && StaysInStep(db, r) {
      SubscriberDevices.StepInStep(db, r);
    }
  }

  /** The tables of a new system: the root entity and the default operator on it. */
  function NewSystem(operatorId: Id): Db {
    Db(map[], map[], map[], map[ROOT := Entity(NONE, [], [], [], [], [], [], [], NONE, "off")],
       map[operatorId := Operator("", ROOT, true, "inherit")], map[], map[], {}, {}, {})
  }

  lemma NewSystemSane(operatorId: Id)
    requires operatorId != NONE
    ensures Sane(NewSystem(operatorId)) && SubscriberDevices.InStep(NewSystem(operatorId))
    ensures SubscriberDevices.ExactlyOneOlg(NewSystem(operatorId).subDevices)
  {
    assert ROOT != "id" && |ROOT| == 14;
  }

  /** So every run of requests on a new system keeps everything. */
  lemma {:induction false} RunSane(db: Db, rs: seq<Request>)
    requires Sane(db) && RunAnswered(db, rs)
    ensures Sane(Run(db, rs))
    ensures SubscriberDevices.InStep(db) && SubscriberDevices.CleanRun(db, rs) ==> SubscriberDevices.InStep(Run(db, rs))
    decreases |rs|
  {
    if rs != [] {
      StepSane(db, rs[0]);
      RunSane(Step(db, rs[0]), rs[1..]);
    }
  }

  lemma NewSystemStaysSane(operatorId: Id, rs: seq<Request>)
    requires operatorId != NONE && RunAnswered(NewSystem(operatorId), rs)
    ensures Sane(Run(NewSystem(operatorId), rs))
    ensures SubscriberDevices.CleanRun(NewSystem(operatorId), rs) ==> SubscriberDevices.InStep(Run(NewSystem(operatorId), rs))
  {
    NewSystemSane(operatorId);
    RunSane(NewSystem(operatorId), rs);
  }

  // ---------------------------------------------------------------- what a field takes from the body

  /** The new value is the one the body gives, or else the old one. */
  ghost predicate Takes<T(!new)>(before: T, field: Option<T>, after: T) {
    (field.Some? ==> after == field.value) && (field.None? ==> after == before)
  }

  // ---------------------------------------------------------------- inventory

  /** The record is listed by the places it names. */
  ghost predicate Listed(db: Db, id: Id)
    requires id in db.inventory
  {
    Placement.InVenue(db, id) && Placement.InEntity(db, id)
  }

  /** Every field comes from the body or stays; the serial always stays. */
  ghost predicate RecordTakes(before: InventoryTag, after: InventoryTag, b: InventoryBody) {
    && after.serialNumber == before.serialNumber
    && Takes(before.venue, b.venue, after.venue) && Takes(before.entity, b.entity, after.entity)
    && Takes(before.location, b.location, after.location) && Takes(before.contact, b.contact, after.contact)
    && Takes(before.subscriber, b.subscriber, after.subscriber) && Takes(before.rrm, b.rrm, after.rrm)
  }

  /** A record refers to the configuration given inline, which is stored under the new id, or to the one the body names, or to
      the one before. No other configuration changes. */
  ghost predicate ConfigurationTaken(db: Db, after: Db, before: Id, newConfig: Id, b: InventoryBody, reference: Id) {
    if b.created.Some? then
      && b.deviceConfiguration.None? && reference == newConfig
      && after.configurations == db.configurations[newConfig := b.created.value]
    else
      && Takes(before, b.deviceConfiguration, reference) && after.configurations == db.configurations
      && (b.deviceConfiguration.Some? ==> reference == NONE || reference in db.configurations)
  }

  /** A new record names what exists, and one place at most: neither the root nor a subscriber's venue. */
  ghost predicate Admitted(db: Db, tag: InventoryTag) {
    && (forall t :: t in db.inventory ==> db.inventory[t].serialNumber != tag.serialNumber)
    && (tag.venue == NONE || tag.entity == NONE)
    && tag.entity != ROOT && (tag.entity != NONE ==> tag.entity in db.entities)
    && (tag.venue != NONE ==> tag.venue in db.venues && db.venues[tag.venue].subscriber == NONE)
    && (tag.location != NONE ==> tag.location in db.locations) && (tag.contact != NONE ==> tag.contact in db.contacts)
  }

  const BLANK := InventoryTag("", NONE, NONE, NONE, NONE, NONE, NONE, "")

  /** A new record is what the body says. */
  ghost predicate RecordPosted(db: Db, after: Db, id: Id, newConfig: Id, serial: string, b: InventoryBody) {
    && id in after.inventory
    && after == db.(inventory := db.inventory[id := after.inventory[id]], configurations := after.configurations,
                    venues := after.venues, entities := after.entities)
    && var tag := after.inventory[id];
       && Admitted(db, tag) && RecordTakes(BLANK.(serialNumber := serial), tag, b)
       && ConfigurationTaken(db, after, NONE, newConfig, b, tag.deviceConfiguration)
  }

  /** It joins its place, and nothing else moves. */
  ghost predicate InventoryPosted(db: Db, after: Db, id: Id, newConfig: Id, serial: string, b: InventoryBody) {
    && RecordPosted(db, after, id, newConfig, serial, b) && Listed(after, id)
    && DevicesMoved(db.venues, after.venues, id, NONE, after.inventory[id].venue)
    && EntityDevicesMoved(db.entities, after.entities, id, NONE, after.inventory[id].entity)
  }

  lemma RecordPostGives(db: Db, id: Id, newConfig: Id, serial: string, b: InventoryBody)
    requires InventoryPostAllowed(db, serial, b)
    ensures RecordPosted(db, InventoryPost(db, id, newConfig, serial, b), id, newConfig, serial, b)
  {
  }

  lemma InventoryPostGives(db: Db, id: Id, newConfig: Id, serial: string, b: InventoryBody)
    requires id !in db.inventory && InventoryPostAllowed(db, serial, b)
    ensures InventoryPosted(db, InventoryPost(db, id, newConfig, serial, b), id, newConfig, serial, b)
  {
    RecordPostGives(db, id, newConfig, serial, b);
    Joins(db.venues, id, Update(NONE, b.venue));
    JoinsEntity(db.entities, id, Update(NONE, b.entity));
  }

  /** A changed record leaves its place and joins another only if the body names one. */
  ghost predicate RecordMoved(db: Db, after: Db, id: Id, b: InventoryBody)
    requires id in db.inventory
  {
    && (if b.venue.Some? then DevicesMoved(db.venues, after.venues, id, db.inventory[id].venue, b.venue.value) else after.venues == db.venues)
    && (if b.entity.Some? then EntityDevicesMoved(db.entities, after.entities, id, db.inventory[id].entity, b.entity.value)
        else after.entities == db.entities)
  }

  /** A changed record keeps its serial and takes the rest from the body; the device in step with it gets its configuration. */
  ghost predicate RecordChanged(db: Db, after: Db, id: Id, newConfig: Id, subRow: Id, b: InventoryBody) {
    && id in db.inventory && id in after.inventory
    && after == db.(inventory := db.inventory[id := after.inventory[id]], configurations := after.configurations,
                    venues := after.venues, entities := after.entities, subDevices := after.subDevices)
    && var tag := after.inventory[id];
       && RecordTakes(db.inventory[id], tag, b)
       && ConfigurationTaken(db, after, db.inventory[id].deviceConfiguration, newConfig, b, tag.deviceConfiguration)
       && after.subDevices == if subRow != NONE && subRow in db.subDevices
            then db.subDevices[subRow := db.subDevices[subRow].(deviceConfiguration := tag.deviceConfiguration)] else db.subDevices
  }

  ghost predicate InventoryChanged(db: Db, after: Db, id: Id, newConfig: Id, subRow: Id, b: InventoryBody) {
    RecordChanged(db, after, id, newConfig, subRow, b) && RecordMoved(db, after, id, b)
  }

  lemma RecordPutGives(db: Db, id: Id, newConfig: Id, subRow: Id, b: InventoryBody)
    requires InventoryPutAllowed(db, id, b)
    ensures RecordChanged(db, InventoryPut(db, id, newConfig, subRow, b), id, newConfig, subRow, b)
  {
  }

  lemma InventoryPutGives(db: Db, id: Id, newConfig: Id, subRow: Id, b: InventoryBody)
    requires InventoryPutAllowed(db, id, b)
    ensures InventoryChanged(db, InventoryPut(db, id, newConfig, subRow, b), id, newConfig, subRow, b)
  {
    RecordPutGives(db, id, newConfig, subRow, b);
    if b.venue.Some? {
      DevicesMove(db.venues, id, db.inventory[id].venue, b.venue.value);
    }
    if b.entity.Some? {
      EntityDevicesMove(db.entities, id, db.inventory[id].entity, b.entity.value);
    }
  }

  /** The place of the record forgets it, in its devices and in its configurations. */
  ghost predicate VenueForgets(vs: VenueTable, after: VenueTable, x: Id, from: Id) {
    && after.Keys == vs.Keys
    && forall v :: v in vs ==>
         if v == from && v != NONE then
           && after[v] == vs[v].(devices := after[v].devices, configurations := after[v].configurations)
           && ErasedFrom(vs[v].devices, x, after[v].devices) && ErasedFrom(vs[v].configurations, x, after[v].configurations)
         else after[v] == vs[v]
  }

  ghost predicate EntityForgets(es: EntityTable, after: EntityTable, x: Id, from: Id) {
    && after.Keys == es.Keys
    && forall e :: e in es ==>
         if e == from && e != NONE then
           && after[e] == es[e].(devices := after[e].devices, configurations := after[e].configurations)
           && ErasedFrom(es[e].devices, x, after[e].devices) && ErasedFrom(es[e].configurations, x, after[e].configurations)
         else after[e] == es[e]
  }

  /** A configuration that was made for one subscriber is gone, any other stays. */
  ghost predicate OwnDropped(db: Db, after: Db, c: Id) {
    && (c != NONE && c in db.configurations && db.configurations[c].subscriberOnly ==> after.configurations == db.configurations - {c})
    && (c == NONE || c !in db.configurations || !db.configurations[c].subscriberOnly ==> after.configurations == db.configurations)
  }

  /** A deleted record was nobody's, and nothing else goes with it but its listings and its own configuration. */
  ghost predicate InventoryDeleted(db: Db, after: Db, id: Id) {
    && id in db.inventory
    && after == db.(inventory := db.inventory - {id}, configurations := after.configurations, venues := after.venues, entities := after.entities)
    && var tag := db.inventory[id];
       && tag.subscriber == NONE && (forall d :: d in db.subDevices ==> db.subDevices[d].serialNumber != tag.serialNumber)
       && OwnDropped(db, after, tag.deviceConfiguration)
       && VenueForgets(db.venues, after.venues, id, tag.venue) && EntityForgets(db.entities, after.entities, id, tag.entity)
  }

  lemma InventoryDeleteGives(db: Db, id: Id)
    requires InventoryDeleteAllowed(db, id)
    ensures InventoryDeleted(db, InventoryDelete(db, id), id)
  {
    var tag, after := db.inventory[id], InventoryDelete(db, id);
    if tag.venue in db.venues {
      WithoutErases(db.venues[tag.venue].devices, id);
      WithoutErases(db.venues[tag.venue].configurations, id);
    }
    assert VenueForgets(db.venues, after.venues, id, tag.venue);
    if tag.entity in db.entities {
      WithoutErases(db.entities[tag.entity].devices, id);
      WithoutErases(db.entities[tag.entity].configurations, id);
    }
    assert EntityForgets(db.entities, after.entities, id, tag.entity);
  }

  /** What is left is exactly what belongs to other subscribers. */
  ghost predicate OnlyOthers(db: Db, after: Db, subscriber: Id) {
    && (forall d :: d in after.subDevices <==> d in db.subDevices && db.subDevices[d].subscriberId != subscriber)
    && (forall d :: d in after.subDevices ==> after.subDevices[d] == db.subDevices[d])
    && (forall s :: s in after.signups <==> s in db.signups && db.signups[s].userId != subscriber)
    && (forall s :: s in after.signups ==> after.signups[s] == db.signups[s])
  }

  /** A freed record stays in its place, without subscriber and, if it was known, without configuration; nothing of the
      subscriber is left but the venues. */
  ghost predicate SubscriberRemoved(db: Db, after: Db, id: Id, subscriber: Id) {
    && id in db.inventory && subscriber != NONE && db.inventory[id].subscriber == subscriber
    && var c := db.inventory[id].deviceConfiguration;
       && after == db.(inventory := db.inventory[id := db.inventory[id].(subscriber := NONE,
                         deviceConfiguration := if c in db.configurations then NONE else c)],
                       configurations := after.configurations, signups := after.signups, subDevices := after.subDevices)
       && after.configurations == (if c in db.configurations && db.configurations[c].subscriberOnly then db.configurations - {c} else db.configurations)
       && OnlyOthers(db, after, subscriber)
  }

  lemma RemoveSubscriberGives(db: Db, id: Id, subscriber: Id)
    requires RemoveSubscriberAllowed(db, id, subscriber) && "id" !in db.entities
    ensures SubscriberRemoved(db, RemoveSubscriber(db, id, subscriber), id, subscriber)
  {
  }

  // ---------------------------------------------------------------- subscriber devices

  ghost function RowOf(invRow: Id, newInv: Id): Id { if invRow != NONE then invRow else newInv }

  ghost function VenueOf(db: Db, invRow: Id): Id
    requires invRow != NONE ==> invRow in db.inventory
  {
    if invRow != NONE then db.inventory[invRow].venue else NONE
  }

  /** The record of the serial, an old or a new one, is what the device says, in the venue of the subscriber if there is one; no
      other record differs. */
  ghost predicate Synced(db: Db, after: Db, d: SubscriberDevice, invRow: Id, newInv: Id, venueRow: Id) {
    var row := RowOf(invRow, newInv);
    && (invRow != NONE ==> invRow in db.inventory)
    && row in after.inventory && after.inventory == db.inventory[row := after.inventory[row]] && after.entities == db.entities
    && var tag := after.inventory[row];
       && tag.serialNumber == d.serialNumber && tag.subscriber == d.subscriberId
       && tag.deviceConfiguration == d.deviceConfiguration && tag.rrm == d.rrm
       && (if invRow != NONE then tag == db.inventory[row].(subscriber := tag.subscriber, venue := tag.venue,
                                       deviceConfiguration := tag.deviceConfiguration, rrm := tag.rrm)
           else tag.entity == tag.location == tag.contact == NONE)
       && (if venueRow != NONE then tag.venue == venueRow else tag.venue == VenueOf(db, invRow))
       && DevicesMoved(db.venues, after.venues, row, VenueOf(db, invRow), tag.venue)
  }

  lemma SyncGives(db: Db, d: SubscriberDevice, invRow: Id, newInv: Id, venueRow: Id)
    requires InventoryRow(db, d.serialNumber, invRow)
    ensures var after := SyncInventory(db, d, invRow, newInv, venueRow);
      && Synced(db, after, d, invRow, newInv, venueRow) && SubscriberDevices.Backs(after, RowOf(invRow, newInv), d)
      && after == db.(inventory := after.inventory, venues := after.venues)
  {
    var before := VenueOf(db, invRow);
    DevicesMove(db.venues, RowOf(invRow, newInv), before, if venueRow != NONE then venueRow else before);
  }

  /** The new device is what the body says, with the configuration given inline under the new id, and its record is synced. */
  ghost predicate DevicePosted(db: Db, after: Db, id: Id, newConfig: Id, invRow: Id, newInv: Id, venueRow: Id, b: SubDeviceBody) {
    && b.group.Some? && id in after.subDevices
    && after == db.(subDevices := db.subDevices[id := after.subDevices[id]], configurations := after.configurations,
                    inventory := after.inventory, venues := after.venues)
    && var d := after.subDevices[id];
       && d.serialNumber == b.serial && d.group == b.group.value
       && Takes(NONE, b.subscriberId, d.subscriberId) && Takes("", b.rrm, d.rrm)
       && (forall e :: e in db.subDevices ==> db.subDevices[e].serialNumber != b.serial)
       && (b.configuration.Elements? ==>
             d.deviceConfiguration == newConfig && after.configurations == db.configurations[newConfig := b.configuration.record])
       && (!b.configuration.Elements? ==> Takes(NONE, b.deviceConfiguration, d.deviceConfiguration) && after.configurations == db.configurations)
       && Synced(db, after, d, invRow, newInv, venueRow)
  }

  lemma SubDevicePostGives(db: Db, id: Id, newConfig: Id, invRow: Id, newInv: Id, venueRow: Id, b: SubDeviceBody)
    requires Answered(db, SubDevicePostRequest(id, newConfig, invRow, newInv, venueRow, b)) && SubDevicePostAllowed(db, b)
    ensures DevicePosted(db, SubDevicePost(db, id, newConfig, invRow, newInv, venueRow, b), id, newConfig, invRow, newInv, venueRow, b)
  {
    SyncGives(PostStored(db, id, newConfig, b), PostedDevice(newConfig, b), invRow, newInv, venueRow);
  }

  /** The configuration a PUT with elements writes to: the one the body names, or else the one of the device. */
  ghost predicate Target(before: SubscriberDevice, b: SubDeviceBody, c: Id) {
    if b.deviceConfiguration.Some? && b.deviceConfiguration.value != NONE then c == b.deviceConfiguration.value
    else c == before.deviceConfiguration
  }

  /** Without the field the reference is the one the body names or stays, with an empty list it is cleared and the old record goes,
      and with elements it names a record that holds them: the target, or a new one when there is no such record. No other
      configuration changes. */
  ghost predicate ConfigurationPut(db: Db, after: Db, before: SubscriberDevice, newConfig: Id, b: SubDeviceBody, reference: Id) {
    && (b.configuration.Absent? ==> Takes(before.deviceConfiguration, b.deviceConfiguration, reference) && after.configurations == db.configurations)
    && (b.configuration.Empty? ==>
          && reference == NONE
          && after.configurations == if before.deviceConfiguration == NONE then db.configurations else db.configurations - {before.deviceConfiguration})
    && (b.configuration.Elements? ==>
          && reference in after.configurations && after.configurations == db.configurations[reference := after.configurations[reference]]
          && var written := after.configurations[reference];
             && written.elements == b.configuration.record.elements && written.deviceTypes == b.configuration.record.deviceTypes
             && (forall c :: Target(before, b, c) ==>
                   if c != NONE && c in db.configurations then
                     reference == c && written == db.configurations[c].(elements := written.elements, deviceTypes := written.deviceTypes)
                   else reference == newConfig && written == b.configuration.record))
  }

  /** The request says or changes something that the record has as well. */
  ghost predicate Concerns(db: Db, after: Db, id: Id, b: SubDeviceBody)
    requires id in db.subDevices && id in after.subDevices
  {
    || b.subscriberId.Some? || b.rrm.Some? || b.otherFields
    || after.subDevices[id].deviceConfiguration != db.subDevices[id].deviceConfiguration || after.configurations != db.configurations
    || (b.configuration.Elements? && !b.configuration.samePolicy)
    || (b.configuration.Empty? && b.deviceConfiguration.Some? && b.deviceConfiguration.value != NONE)
  }

  /** The device takes what the body says, its configuration too; its record is synced if the request concerns it. */
  ghost predicate DeviceChanged(db: Db, after: Db, id: Id, newConfig: Id, invRow: Id, newInv: Id, venueRow: Id, b: SubDeviceBody) {
    && DevicePut(db, after.(inventory := db.inventory, venues := db.venues), id, newConfig, b)
    && (if Concerns(db, after, id, b) then Synced(db, after, after.subDevices[id], invRow, newInv, venueRow)
        else after.inventory == db.inventory && after.venues == db.venues)
  }

  lemma PutWrites(db: Db, id: Id, newConfig: Id, b: SubDeviceBody)
    requires SubDevicePutAllowed(db, id, b) && newConfig != NONE
    ensures var after := PutStored(db, id, newConfig, b);
      ConfigurationPut(db, after, db.subDevices[id], newConfig, b, after.subDevices[id].deviceConfiguration)
  {
    if b.configuration.Elements? {
      PutWritesElements(db, id, newConfig, b);
    }
  }

  lemma PutWritesElements(db: Db, id: Id, newConfig: Id, b: SubDeviceBody)
    requires SubDevicePutAllowed(db, id, b) && newConfig != NONE && b.configuration.Elements?
    ensures var after := PutStored(db, id, newConfig, b);
      ConfigurationPut(db, after, db.subDevices[id], newConfig, b, after.subDevices[id].deviceConfiguration)
  {
    var before := db.subDevices[id];
    var reference := PutReference(db, before, newConfig, b);
    var after := PutStored(db, id, newConfig, b);
    assert reference.id != NONE && reference.written == db.configurations[reference.id := reference.written[reference.id]];
    assert after.configurations == reference.written && after.subDevices[id].deviceConfiguration == reference.id;
  }

  lemma PutConcerns(db: Db, id: Id, newConfig: Id, b: SubDeviceBody)
    requires SubDevicePutAllowed(db, id, b) && newConfig !in db.configurations && newConfig != NONE
    ensures PutSyncs(db, id, newConfig, b) <==> Concerns(db, PutStored(db, id, newConfig, b), id, b)
  {
    var before := db.subDevices[id];
    var after := PutStored(db, id, newConfig, b).configurations;
    var reference := PutReference(db, before, newConfig, b);
    if b.configuration.Elements? {
      assert after == reference.written;
      var stored := if reference.id in db.configurations then [db.configurations[reference.id]] else [];
      assert after != db.configurations <==> stored != [after[reference.id]];
    }
  }

  /** The device takes what the body says, and nothing but it and its configuration is stored. */
  ghost predicate DevicePut(db: Db, stored: Db, id: Id, newConfig: Id, b: SubDeviceBody) {
    && id in db.subDevices && id in stored.subDevices && b.group.Some?
    && stored == db.(subDevices := db.subDevices[id := stored.subDevices[id]], configurations := stored.configurations)
    && var before, d := db.subDevices[id], stored.subDevices[id];
       && d.serialNumber == before.serialNumber && d.group == b.group.value
       && Takes(before.subscriberId, b.subscriberId, d.subscriberId) && Takes(before.rrm, b.rrm, d.rrm)
       && ConfigurationPut(db, stored, before, newConfig, b, d.deviceConfiguration)
  }

  lemma PutGives(db: Db, id: Id, newConfig: Id, b: SubDeviceBody)
    requires SubDevicePutAllowed(db, id, b) && newConfig != NONE
    ensures DevicePut(db, PutStored(db, id, newConfig, b), id, newConfig, b)
  {
    PutWrites(db, id, newConfig, b);
  }

  lemma ChangedWhenSynced(db: Db, stored: Db, after: Db, id: Id, newConfig: Id, invRow: Id, newInv: Id, venueRow: Id, b: SubDeviceBody)
    requires DevicePut(db, stored, id, newConfig, b)
    requires Concerns(db, stored, id, b) ==>
               && after == stored.(inventory := after.inventory, venues := after.venues)
               && Synced(stored, after, stored.subDevices[id], invRow, newInv, venueRow)
    requires !Concerns(db, stored, id, b) ==> after == stored
    ensures DeviceChanged(db, after, id, newConfig, invRow, newInv, venueRow, b)
  {
  }

  lemma SubDevicePutGives(db: Db, id: Id, newConfig: Id, invRow: Id, newInv: Id, venueRow: Id, b: SubDeviceBody)
    requires Answered(db, SubDevicePutRequest(id, newConfig, invRow, newInv, venueRow, b)) && SubDevicePutAllowed(db, id, b)
    ensures DeviceChanged(db, SubDevicePut(db, id, newConfig, invRow, newInv, venueRow, b), id, newConfig, invRow, newInv, venueRow, b)
  {
    var stored := PutStored(db, id, newConfig, b);
    PutGives(db, id, newConfig, b);
    PutConcerns(db, id, newConfig, b);
    if PutSyncs(db, id, newConfig, b) {
      SyncGives(stored, stored.subDevices[id], invRow, newInv, venueRow);
    }
    ChangedWhenSynced(db, stored, SubDevicePut(db, id, newConfig, invRow, newInv, venueRow, b), id, newConfig, invRow, newInv, venueRow, b);
  }

  /** The device and its record are gone, and no other; the configurations of both go with them. */
  ghost predicate DeviceGone(db: Db, after: Db, id: Id, invRow: Id) {
    && id in db.subDevices && (invRow != NONE ==> invRow in db.inventory)
    && after == db.(subDevices := db.subDevices - {id}, inventory := if invRow != NONE then db.inventory - {invRow} else db.inventory,
                    configurations := after.configurations, venues := after.venues, entities := after.entities)
    && var gone := {db.subDevices[id].deviceConfiguration} + if invRow != NONE then {db.inventory[invRow].deviceConfiguration} else {};
       after.configurations == db.configurations - (gone - {NONE})
  }

  ghost predicate DeviceDeleted(db: Db, after: Db, id: Id, invRow: Id) {
    && DeviceGone(db, after, id, invRow)
    && !HasInventory(after.inventory, db.subDevices[id].serialNumber) && !HasSubDevice(after.subDevices, db.subDevices[id].serialNumber)
    && DevicesMoved(db.venues, after.venues, invRow, VenueOf(db, invRow), NONE)
    && EntityDevicesMoved(db.entities, after.entities, invRow, if invRow != NONE then db.inventory[invRow].entity else NONE, NONE)
  }

  lemma DeviceGoes(db: Db, id: Id, invRow: Id)
    requires SubDeviceDeleteAllowed(db, id, true) && InventoryRow(db, db.subDevices[id].serialNumber, invRow)
    ensures DeviceGone(db, SubDeviceDelete(db, id, invRow, true), id, invRow)
  {
    var gone := {db.subDevices[id].deviceConfiguration} + if invRow != NONE then {db.inventory[invRow].deviceConfiguration} else {};
    assert SubDeviceDelete(db, id, invRow, true).configurations == db.configurations - (gone - {NONE});
  }

  lemma DeviceLeaves(db: Db, id: Id, invRow: Id)
    requires SubDeviceDeleteAllowed(db, id, true) && InventoryRow(db, db.subDevices[id].serialNumber, invRow)
    ensures var after := SubDeviceDelete(db, id, invRow, true);
      && DevicesMoved(db.venues, after.venues, invRow, VenueOf(db, invRow), NONE)
      && EntityDevicesMoved(db.entities, after.entities, invRow, if invRow != NONE then db.inventory[invRow].entity else NONE, NONE)
  {
    Leaves(db.venues, invRow, VenueOf(db, invRow));
    LeavesEntity(db.entities, invRow, if invRow != NONE then db.inventory[invRow].entity else NONE);
  }

  lemma SubDeviceDeleteGives(db: Db, id: Id, invRow: Id)
    requires SubscriberDevices.UniqueSerials(db) && Answered(db, SubDeviceDeleteRequest(id, invRow, true))
    requires SubDeviceDeleteAllowed(db, id, true)
    ensures DeviceDeleted(db, SubDeviceDelete(db, id, invRow, true), id, invRow)
  {
    DeviceGoes(db, id, invRow);
    DeviceLeaves(db, id, invRow);
  }

  // ---------------------------------------------------------------- venues and entities

  ghost predicate OnlyPlaces(db: Db, after: Db) { after == db.(venues := after.venues, entities := after.entities) }

  /** A new venue is listed by its parent and by its entity, which for a child venue is that of the parent; no other had its name there. */
  ghost predicate VenuePosted(db: Db, after: Db, id: Id, v: Venue) {
    && OnlyPlaces(db, after)
    && (v.parent == NONE || v.parent in db.venues) && (v.parent == NONE) != (v.entity == NONE)
    && var record := v.(entity := if v.parent != NONE then db.venues[v.parent].entity else v.entity, children := []);
       && ChildrenMoved(db.venues[id := record], after.venues, id, NONE, v.parent)
       && id in after.venues && after.venues[id] == record
       && record.entity != ROOT && (record.entity != NONE ==> record.entity in db.entities)
       && EntityVenuesMoved(db.entities, after.entities, id, NONE, record.entity)
       && (forall x :: x in db.venues && Lower(db.venues[x].name) == Lower(v.name) ==>
             if record.entity != NONE then db.venues[x].entity != record.entity else db.venues[x].parent != v.parent)
  }

  lemma VenuePostGives(db: Db, id: Id, v: Venue)
    requires id !in db.venues && id != NONE && VenuePostAllowed(db, true, v)
    ensures VenuePosted(db, VenuePost(db, id, true, true, v), id, v)
  {
    var entity := PostedEntity(db, v);
    ChildrenMove(db.venues[id := v.(entity := entity, children := [])], id, NONE, v.parent);
    EntityVenuesMove(db.entities, id, NONE, entity);
  }

  /** When no role can be made the venue is gone again, but stays in the lists of its parent and its entity. */
  ghost predicate VenueUndone(db: Db, after: Db, id: Id, v: Venue) {
    && (v.parent == NONE || v.parent in db.venues)
    && ChildrenMoved(db.venues, after.venues, id, NONE, v.parent)
    && EntityVenuesMoved(db.entities, after.entities, id, NONE, if v.parent != NONE then db.venues[v.parent].entity else v.entity)
    && OnlyPlaces(db, after)
  }

  lemma VenuePostUndone(db: Db, id: Id, v: Venue)
    requires id !in db.venues && VenuePostAllowed(db, true, v)
    ensures VenueUndone(db, VenuePost(db, id, true, false, v), id, v)
  {
    var entity := PostedEntity(db, v);
    var record := v.(entity := entity, children := []);
    ChildrenMove(db.venues, id, NONE, v.parent);
    EntityVenuesMove(db.entities, id, NONE, entity);
    assert AddChildVenue(db.venues[id := record], v.parent, id) - {id} == AddChildVenue(db.venues, v.parent, id);
  }

  lemma VenuePostCases(db: Db, id: Id, valid: bool, roleCreated: bool, v: Venue)
    requires id !in db.venues && id != NONE && VenuePostAllowed(db, valid, v)
    ensures var after := VenuePost(db, id, valid, roleCreated, v);
      if roleCreated then VenuePosted(db, after, id, v) else VenueUndone(db, after, id, v)
  {
    if roleCreated {
      VenuePostGives(db, id, v);
    } else {
      VenuePostUndone(db, id, v);
    }
  }

  /** A moved venue leaves its old place, is listed by its new one and keeps everything else. */
  ghost predicate VenueMoved(db: Db, after: Db, id: Id, entity: Option<Id>, parent: Option<Id>, rrm: Option<string>) {
    && id in db.venues && id in after.venues && OnlyPlaces(db, after)
    && var before, v := db.venues[id], after.venues[id];
       && Takes(before.entity, entity, v.entity) && Takes(before.parent, parent, v.parent) && Takes(before.rrm, rrm, v.rrm)
       && (entity.Some? ==> entity.value in db.entities && EntityVenuesMoved(db.entities, after.entities, id, before.entity, entity.value))
       && (entity.None? ==> after.entities == db.entities)
       && var moved := db.venues[id := before.(entity := v.entity, parent := v.parent, rrm := v.rrm)];
          && (parent.Some? ==> parent.value in db.venues && ChildrenMoved(moved, after.venues, id, before.parent, parent.value))
          && (parent.None? ==> after.venues == moved)
  }

  lemma VenuePutGives(db: Db, id: Id, entity: Option<Id>, parent: Option<Id>, rrm: Option<string>)
    requires VenuePutAllowed(db, id, true, entity, parent)
    ensures VenueMoved(db, VenuePut(db, id, true, entity, parent, rrm), id, entity, parent, rrm)
  {
    var before := db.venues[id];
    var venues := db.venues[id := before.(entity := Update(before.entity, entity), parent := Update(before.parent, parent),
                                          rrm := Update(before.rrm, rrm))];
    if entity.Some? {
      EntityVenuesMove(db.entities, id, before.entity, entity.value);
    }
    if parent.Some? {
      ChildrenMove(venues, id, before.parent, parent.value);
    }
  }

  /** A deleted venue was nobody's place and leaves the lists of its own. */
  ghost predicate VenueDeleted(db: Db, after: Db, id: Id) {
    && id in db.venues && (forall t :: t in after.inventory ==> after.inventory[t].venue != id)
    && ChildrenMoved(db.venues - {id}, after.venues, id, db.venues[id].parent, NONE)
    && EntityVenuesMoved(db.entities, after.entities, id, db.venues[id].entity, NONE)
    && OnlyPlaces(db, after)
  }

  lemma VenueDeleteGives(db: Db, id: Id)
    requires Placement.Placed(db) && id != NONE && VenueDeleteAllowed(db, id)
    ensures VenueDeleted(db, VenueDelete(db, id), id)
  {
    forall t | t in db.inventory ensures db.inventory[t].venue != id {
      assert Placement.InVenue(db, t);
    }
    ChildrenMove(db.venues - {id}, id, db.venues[id].parent, NONE);
    EntityVenuesMove(db.entities, id, db.venues[id].entity, NONE);
  }

  /** A new entity hangs under its parent, without operator, children, venues, contacts and locations. */
  ghost predicate EntityPosted(db: Db, after: Db, id: Id, e: Entity) {
    && e.parent in db.entities && (e.parent == ROOT || db.entities[e.parent].operatorId != NONE)
    && EntityChildrenMoved(db.entities[id := e.(children := [], venues := [], contacts := [], locations := [], operatorId := NONE)],
                           after.entities, id, NONE, e.parent)
    && after == db.(entities := after.entities)
  }

  lemma EntityPostGives(db: Db, id: Id, e: Entity)
    requires NONE !in db.entities && id != NONE && EntityPostAllowed(db, true, e)
    ensures EntityPosted(db, EntityPost(db, id, true, true, e), id, e)
  {
    ChildJoins(db.entities[id := e.(children := [], venues := [], contacts := [], locations := [], operatorId := NONE)], id, e.parent);
  }

  /** Without a role the entity is gone again, but stays in the list of its parent. */
  ghost predicate EntityUndone(db: Db, after: Db, id: Id, e: Entity) {
    EntityChildrenMoved(db.entities, after.entities, id, NONE, e.parent) && after == db.(entities := after.entities)
  }

  lemma EntityPostUndone(db: Db, id: Id, e: Entity)
    requires NONE !in db.entities && id !in db.entities && EntityPostAllowed(db, true, e)
    ensures EntityUndone(db, EntityPost(db, id, true, false, e), id, e)
  {
    var record := e.(children := [], venues := [], contacts := [], locations := [], operatorId := NONE);
    ChildJoins(db.entities, id, e.parent);
    assert AddChildEntity(db.entities[id := record], e.parent, id) - {id} == AddChildEntity(db.entities, e.parent, id);
  }

  lemma EntityPostCases(db: Db, id: Id, valid: bool, roleCreated: bool, e: Entity)
    requires NONE !in db.entities && id != NONE && id !in db.entities && EntityPostAllowed(db, valid, e)
    ensures var after := EntityPost(db, id, valid, roleCreated, e);
      if roleCreated then EntityPosted(db, after, id, e) else EntityUndone(db, after, id, e)
  {
    if roleCreated {
      EntityPostGives(db, id, e);
    } else {
      EntityPostUndone(db, id, e);
    }
  }

  /** Only the policy of one entity, or one operator, differs. */
  ghost predicate EntityRuled(db: Db, after: Db, id: Id, rrm: Option<string>) {
    && id in db.entities && id in after.entities && Takes(db.entities[id].rrm, rrm, after.entities[id].rrm)
    && after == db.(entities := db.entities[id := db.entities[id].(rrm := after.entities[id].rrm)])
  }

  ghost predicate OperatorRuled(db: Db, after: Db, id: Id, rrm: Option<string>) {
    && id in db.operators && id in after.operators && Takes(db.operators[id].rrm, rrm, after.operators[id].rrm)
    && after == db.(operators := db.operators[id := db.operators[id].(rrm := after.operators[id].rrm)])
  }

  /** Nothing is in the entity any more: no device, no child, no operator. */
  ghost predicate Abandoned(db: Db, e: Id) {
    && e !in db.entities && (forall t :: t in db.inventory ==> db.inventory[t].entity != e)
    && (forall x :: x in db.entities ==> db.entities[x].parent != e)
    && (forall o :: o in db.operators ==> db.operators[o].entityId != e)
  }

  lemma NobodyPlaced(db: Db, e: Id)
    requires Placement.Placed(db) && e in db.entities && db.entities[e].devices == [] && e != NONE
    ensures forall t :: t in db.inventory ==> db.inventory[t].entity != e
  {
    forall t | t in db.inventory ensures db.inventory[t].entity != e {
      assert Placement.InEntity(db, t);
    }
  }

  lemma NoChildren(es: EntityTable, e: Id)
    requires Hierarchy.Tree(es) && e in es && es[e].children == []
    ensures forall x :: x in es ==> es[x].parent != e
  {
    forall x | x in es ensures es[x].parent != e {
      assert x == ROOT || Hierarchy.Hangs(es, x);
    }
  }

  /** An unused entity can go: nobody is left in it. */
  lemma RemovedIsAbandoned(db: Db, after: Db, e: Id)
    requires Sane(db) && e in db.entities && e != ROOT && Unused(db.entities[e])
    requires after.inventory == db.inventory && after.entities == RemoveChildEntity(db.entities - {e}, db.entities[e].parent, e)
    requires forall o :: o in after.operators ==> o in db.operators && after.operators[o] == db.operators[o] && after.operators[o].entityId != e
    ensures Abandoned(after, e) && EntityChildrenMoved(db.entities - {e}, after.entities, e, db.entities[e].parent, NONE)
  {
    NobodyPlaced(db, e);
    NoChildren(db.entities, e);
    ChildLeaves(db.entities - {e}, e, db.entities[e].parent);
    forall x | x in after.entities ensures after.entities[x].parent != e {
      assert x in db.entities && after.entities[x].parent == db.entities[x].parent;
    }
  }

  /** A deleted entity was in nobody's use and leaves the list of its parent. */
  ghost predicate EntityDeleted(db: Db, after: Db, id: Id) {
    && id in db.entities && Abandoned(after, id)
    && EntityChildrenMoved(db.entities - {id}, after.entities, id, db.entities[id].parent, NONE) && after == db.(entities := after.entities)
  }

  lemma EntityDeleteGives(db: Db, id: Id)
    requires Sane(db) && EntityDeleteAllowed(db, id)
    ensures EntityDeleted(db, EntityDelete(db, id), id)
  {
    RemovedIsAbandoned(db, EntityDelete(db, id), id);
  }

  /** A new operator, whose registration id no other has, and a new entity under the root refer to each other. */
  ghost predicate OperatorPosted(db: Db, after: Db, id: Id, entityId: Id, registrationId: string, rrm: string) {
    && registrationId != "" && (forall o :: o in db.operators ==> db.operators[o].registrationId != Lower(registrationId))
    && ROOT in db.entities
    && EntityChildrenMoved(db.entities[entityId := Entity(ROOT, [], [], [], [], [], [], [], id, "")], after.entities, entityId, NONE, ROOT)
    && after == db.(operators := db.operators[id := Operator(Lower(registrationId), entityId, false, rrm)], entities := after.entities)
  }

  lemma OperatorPostGives(db: Db, id: Id, entityId: Id, registrationId: string, rrm: string)
    requires Hierarchy.Ordered(db) && entityId != NONE && OperatorPostAllowed(db, true, registrationId)
    ensures OperatorPosted(db, OperatorPost(db, id, entityId, true, registrationId, rrm), id, entityId, registrationId, rrm)
  {
    ChildJoins(db.entities[entityId := Entity(ROOT, [], [], [], [], [], [], [], id, "")], entityId, ROOT);
  }

  /** An operator goes together with its entity, and leaves no sign-up behind. */
  ghost predicate OperatorDeleted(db: Db, after: Db, id: Id) {
    && id in db.operators && !db.operators[id].defaultOperator
    && (forall s :: s in after.signups ==> after.signups[s].operatorId != id)
    && var e := db.operators[id].entityId;
       && e in db.entities && Abandoned(after, e)
       && EntityChildrenMoved(db.entities - {e}, after.entities, e, db.entities[e].parent, NONE)
       && after == db.(operators := db.operators - {id}, entities := after.entities)
  }

  lemma OperatorDeleteGives(db: Db, id: Id, linkRow: Id)
    requires Sane(db) && OperatorDeleteAllowed(db, id, linkRow)
    ensures OperatorDeleted(db, OperatorDelete(db, id, linkRow), id)
  {
    var e := db.operators[id].entityId;
    assert LinkedEntity(db, db.operators[id], linkRow) == e && e in db.entities && db.entities[e].operatorId == id;
    RemovedIsAbandoned(db, OperatorDelete(db, id, linkRow), e);
  }

  // ---------------------------------------------------------------- sign-ups

  /** A row that waits for the e-mail. */
  ghost predicate Pending(row: SignupEntry, email: string, operatorId: Id) {
    row.email == email && row.operatorId == operatorId && row.statusCode == WAITING_FOR_EMAIL
  }

  /** A venue of that name is in the entity, and if there was none it is the subscriber's, new and empty. */
  ghost predicate Venued(db: Db, after: Db, entity: Id, email: string, userId: Id, newVenue: Id) {
    if VenueNameTaken(db, email, entity, NONE) then after.venues == db.venues && after.entities == db.entities
    else
      && after.venues == db.venues[newVenue := Venue(email, entity, NONE, [], [], [], userId, "")]
      && EntityVenuesMoved(db.entities, after.entities, newVenue, NONE, entity)
  }

  /** The one row of the e-mail is pending under the operator: a new one for the user, or the one that was there on a resend; and
      a venue of that name is in the entity of the operator. */
  ghost predicate SignupPosted(db: Db, after: Db, r: SignupRequest) {
    && r.opRow in db.operators && db.operators[r.opRow].entityId in db.entities
    && after == db.(signups := after.signups, venues := after.venues, entities := after.entities)
    && var email, entity, row := Normalise(r.email), db.operators[r.opRow].entityId, if r.emailRow == NONE then r.newSignup else r.emailRow;
       && db.operators[r.opRow].registrationId == Normalise(r.registrationId)
       && row in after.signups && Pending(after.signups[row], email, r.opRow)
       && (r.emailRow == NONE ==> after.signups == db.signups[row := after.signups[row]] && after.signups[row].userId == r.userId)
       && (r.emailRow != NONE ==> r.resend && after.signups == db.signups)
       && Venued(db, after, entity, email, after.signups[row].userId, r.newVenue)
       && VenueNameTaken(after, email, entity, NONE)
  }

  lemma VenueMade(db: Db, entity: Id, email: string, userId: Id, newVenue: Id)
    ensures Venued(db, SubscriberVenue(db, entity, email, userId, newVenue), entity, email, userId, newVenue)
  {
    EntityVenuesMove(db.entities, newVenue, NONE, entity);
  }

  lemma SignupPostGives(db: Db, r: SignupRequest)
    requires Answered(db, SignupPostRequest(r)) && (SignupNew(db, r) || SignupResent(db, r))
    ensures SignupPosted(db, SignupPost(db, r), r)
  {
    var email, entity := Normalise(r.email), db.operators[r.opRow].entityId;
    Signups.SignupPostEffect(db, r);
    Signups.PostMakesVenue(db, r);
    if SignupNew(db, r) {
      VenueMade(db.(signups := db.signups[r.newSignup := SignupEntry(email, r.userId, r.opRow, WAITING_FOR_EMAIL)]),
                entity, email, r.userId, r.newVenue);
    } else {
      VenueMade(db, entity, email, db.signups[r.emailRow].userId, r.newVenue);
    }
  }

  /** A pending row waits for a device once its e-mail is verified; no other row changes. */
  ghost predicate SignupMoved(db: Db, after: Db, row: Id, emailVerified: bool) {
    && after == db.(signups := after.signups) && after.signups.Keys == db.signups.Keys
    && forall s :: s in db.signups ==>
         after.signups[s] == if s == row && emailVerified && db.signups[s].statusCode == WAITING_FOR_EMAIL
                             then db.signups[s].(statusCode := WAITING_FOR_DEVICE) else db.signups[s]
  }

  /** The rows among the first that are in entity `e`. */
  ghost function RowsIn(vs: VenueTable, rows: seq<Id>, e: Id): set<Id> { set v | v in rows && v in vs && vs[v].entity == e }

  /** The venues are gone, each once from the list of its entity. */
  ghost predicate VenuesGone(db: Db, after: Db, rows: seq<Id>) {
    && after.venues == db.venues - (set v | v in rows)
    && after.entities.Keys == db.entities.Keys
    && forall e :: e in db.entities ==> ListShrinks(db, after, rows, e)
  }

  ghost predicate ListShrinks(db: Db, after: Db, rows: seq<Id>, e: Id)
    requires e in db.entities && e in after.entities
  {
    && after.entities[e] == db.entities[e].(venues := after.entities[e].venues)
    && multiset(after.entities[e].venues) == multiset(db.entities[e].venues) - multiset(if e == NONE then {} else RowsIn(db.venues, rows, e))
  }

  /** The sign-up and the venues of the subscriber are gone, and nothing else. */
  ghost predicate SignupDeleted(db: Db, after: Db, row: Id, rows: seq<Id>) {
    VenuesGone(db, after, rows) && after == db.(signups := db.signups - {row}, venues := after.venues, entities := after.entities)
  }

  /** The sign-up stays, and of its venues those from the first that still has devices; all of them are gone when only the security
      service refused. */
  ghost predicate SignupHalted(db: Db, after: Db, rows: seq<Id>) {
    && (exists k :: 0 <= k <= |rows| && VenuesGone(db, after, rows[..k])
          && (forall i :: 0 <= i < k ==> rows[i] in db.venues && db.venues[rows[i]].devices == [])
          && (k < |rows| ==> rows[k] in db.venues && db.venues[rows[k]].devices != []))
    && after == db.(venues := after.venues, entities := after.entities)
  }

  lemma {:induction false} ErasedCount(s: seq<Id>, x: Id)
    ensures multiset(Without(s, x)) == multiset(s) - multiset{x}
  {
    if s != [] {
      assert s == [s[0]] + s[1..];
      ErasedCount(s[1..], x);
    }
  }

  ghost function WithoutVenue(db: Db, v: Id): Db
    requires v in db.venues
  {
    db.(entities := RemoveVenueFrom(db.entities, db.venues[v].entity, v), venues := db.venues - {v})
  }

  lemma VenuesGoneStep(db: Db, v: Id, rest: seq<Id>, after: Db)
    requires v in db.venues && v !in rest && VenuesGone(WithoutVenue(db, v), after, rest)
    ensures VenuesGone(db, after, [v] + rest)
  {
    assert (set x | x in [v] + rest) == {v} + (set x | x in rest);
    assert db.venues - {v} - (set x | x in rest) == db.venues - ({v} + (set x | x in rest));
    forall e | e in db.entities ensures ListShrinks(db, after, [v] + rest, e) {
      assert ListShrinks(WithoutVenue(db, v), after, rest, e);
      ListShrinksStep(db, v, rest, after, e);
    }
  }

  lemma RowsInStep(vs: VenueTable, v: Id, rest: seq<Id>, e: Id)
    requires v in vs && v !in rest
    ensures v !in RowsIn(vs - {v}, rest, e)
    ensures RowsIn(vs, [v] + rest, e) == RowsIn(vs - {v}, rest, e) + if vs[v].entity == e then {v} else {}
  {
    assert forall x :: x in [v] + rest <==> x == v || x in rest;
  }

  lemma OneLess(m: multiset<Id>, s: set<Id>, v: Id)
    requires v !in s
    ensures m - multiset{v} - multiset(s) == m - multiset(s + {v})
  {
    assert multiset(s + {v}) == multiset(s) + multiset{v};
  }

  lemma ListShrinksStep(db: Db, v: Id, rest: seq<Id>, after: Db, e: Id)
    requires v in db.venues && v !in rest && e in db.entities && e in after.entities
    requires ListShrinks(WithoutVenue(db, v), after, rest, e)
    ensures ListShrinks(db, after, [v] + rest, e)
  {
    RowsInStep(db.venues, v, rest, e);
    if e != NONE && db.venues[v].entity == e {
      ErasedCount(db.entities[e].venues, v);
      OneLess(multiset(db.entities[e].venues), RowsIn(db.venues - {v}, rest, e), v);
    }
  }

  lemma NothingGone(db: Db)
    ensures VenuesGone(db, db, [])
  {
    assert db.venues - (set v | v in []) == db.venues;
    forall e | e in db.entities ensures ListShrinks(db, db, [], e) {
      assert RowsIn(db.venues, [], e) == {};
    }
  }

  /** Venues go up to the first that has devices. */
  lemma {:induction false} DropVenuesGives(db: Db, rows: seq<Id>) returns (k: nat)
    requires forall i :: 0 <= i < |rows| ==> rows[i] in db.venues
    requires forall i, j :: 0 <= i < j < |rows| ==> rows[i] != rows[j]
    ensures k <= |rows| && VenuesGone(db, DropVenues(db, rows), rows[..k])
    ensures forall i :: 0 <= i < k ==> db.venues[rows[i]].devices == []
    ensures k < |rows| ==> db.venues[rows[k]].devices != []
    decreases |rows|
  {
    if rows == [] || db.venues[rows[0]].devices != [] {
      k := 0;
      NothingGone(db);
      assert rows[..0] == [];
    } else {
      var rest := DropVenuesGives(WithoutVenue(db, rows[0]), rows[1..]);
      VenuesGoneStep(db, rows[0], rows[1..][..rest], DropVenues(db, rows));
      k := rest + 1;
      assert rows[..k] == [rows[0]] + rows[1..][..rest];
    }
  }

  ghost predicate AllEmpty(db: Db, rows: seq<Id>) {
    forall i :: 0 <= i < |rows| ==> rows[i] in db.venues && db.venues[rows[i]].devices == []
  }

  lemma SignupDeleteGives(db: Db, subscriber: Id, row: Id, rows: seq<Id>, securityOk: bool)
    requires SubscriberVenues(db, subscriber, rows) && SignupDeleteAllowed(db, subscriber, row)
    ensures var after := SignupDelete(db, subscriber, row, rows, securityOk);
      if securityOk && AllEmpty(db, rows) then SignupDeleted(db, after, row, rows) else SignupHalted(db, after, rows)
  {
    var k := DropVenuesGives(db, rows);
    SubscriberDevices.DropVenuesFrame(db, rows);
    if AllEmpty(db, rows) {
      assert k == |rows| && rows[..k] == rows;
    }
  }

  // ---------------------------------------------------------------- new venues and entities

  lemma VenuePostSane(db: Db, id: Id, valid: bool, roleCreated: bool, v: Venue)
    requires Sane(db) && Answered(db, VenuePostRequest(id, valid, roleCreated, v))
    ensures Sane(VenuePost(db, id, valid, roleCreated, v))
    ensures SubscriberDevices.InStep(db) ==> SubscriberDevices.InStep(VenuePost(db, id, valid, roleCreated, v))
    ensures VenuePostAllowed(db, valid, v) ==>
              if roleCreated then VenuePosted(db, VenuePost(db, id, valid, roleCreated, v), id, v)
              else VenueUndone(db, VenuePost(db, id, valid, roleCreated, v), id, v)
  {
    StepSane(db, VenuePostRequest(id, valid, roleCreated, v));
    if VenuePostAllowed(db, valid, v) {
      VenuePostCases(db, id, valid, roleCreated, v);
    }
  }

  lemma EntityPostSane(db: Db, id: Id, valid: bool, roleCreated: bool, e: Entity)
    requires Sane(db) && Answered(db, EntityPostRequest(id, valid, roleCreated, e))
    ensures Sane(EntityPost(db, id, valid, roleCreated, e))
    ensures SubscriberDevices.InStep(db) ==> SubscriberDevices.InStep(EntityPost(db, id, valid, roleCreated, e))
    ensures EntityPostAllowed(db, valid, e) ==>
              if roleCreated then EntityPosted(db, EntityPost(db, id, valid, roleCreated, e), id, e)
              else EntityUndone(db, EntityPost(db, id, valid, roleCreated, e), id, e)
  {
    StepSane(db, EntityPostRequest(id, valid, roleCreated, e));
    if EntityPostAllowed(db, valid, e) {
      EntityPostCases(db, id, valid, roleCreated, e);
    }
  }

  // ---------------------------------------------------------------- deletions

  lemma SubDeviceDeleteSane(db: Db, id: Id, invRow: Id, stopped: bool)
    requires Sane(db) && Answered(db, SubDeviceDeleteRequest(id, invRow, stopped))
    ensures Sane(SubDeviceDelete(db, id, invRow, stopped))
    ensures SubscriberDevices.InStep(db) ==> SubscriberDevices.InStep(SubDeviceDelete(db, id, invRow, stopped))
    ensures SubDeviceDeleteAllowed(db, id, stopped) ==> DeviceDeleted(db, SubDeviceDelete(db, id, invRow, stopped), id, invRow)
  {
    StepSane(db, SubDeviceDeleteRequest(id, invRow, stopped));
    if SubDeviceDeleteAllowed(db, id, stopped) {
      SubDeviceDeleteGives(db, id, invRow);
    }
  }

  lemma EntityDeleteSane(db: Db, id: Id)
    requires Sane(db)
    ensures Sane(EntityDelete(db, id))
    ensures SubscriberDevices.InStep(db) ==> SubscriberDevices.InStep(EntityDelete(db, id))
    ensures EntityDeleteAllowed(db, id) ==> EntityDeleted(db, EntityDelete(db, id), id)
  {
    StepSane(db, EntityDeleteRequest(id));
    if EntityDeleteAllowed(db, id) {
      EntityDeleteGives(db, id);
    }
  }

  lemma SignupPutSane(db: Db, row: Id, emailVerified: bool)
    requires Sane(db)
    ensures Sane(SignupPut(db, row, emailVerified))
    ensures SubscriberDevices.InStep(db) ==> SubscriberDevices.InStep(SignupPut(db, row, emailVerified))
    ensures SignupMoved(db, SignupPut(db, row, emailVerified), row, emailVerified)
  {
    StepSane(db, SignupPutRequest(row, emailVerified));
    SignupPutGives(db, row, emailVerified);
  }

  lemma SignupPutGives(db: Db, row: Id, emailVerified: bool)
    ensures SignupMoved(db, SignupPut(db, row, emailVerified), row, emailVerified)
  {
  }

  lemma MovedIsForward(db: Db, after: Db, row: Id, emailVerified: bool)
    requires SignupMoved(db, after, row, emailVerified)
    ensures forall s :: s in db.signups ==> s in after.signups && Signups.Forward(db.signups[s], after.signups[s])
  {
  }

  lemma SignupDeleteSane(db: Db, subscriber: Id, row: Id, rows: seq<Id>, securityOk: bool)
    requires Sane(db) && Answered(db, SignupDeleteRequest(subscriber, row, rows, securityOk))
    ensures var after := SignupDelete(db, subscriber, row, rows, securityOk);
      && Sane(after) && (SubscriberDevices.InStep(db) ==> SubscriberDevices.InStep(after))
      && (SignupDeleteAllowed(db, subscriber, row) ==>
            if securityOk && AllEmpty(db, rows) then SignupDeleted(db, after, row, rows) else SignupHalted(db, after, rows))
  {
    StepSane(db, SignupDeleteRequest(subscriber, row, rows, securityOk));
    if SignupDeleteAllowed(db, subscriber, row) {
      SignupDeleteGives(db, subscriber, row, rows, securityOk);
    }
  }
}
