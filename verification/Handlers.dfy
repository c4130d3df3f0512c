/** The request handlers as steps on the tables.

A request carries what the handler reads from outside the tables: its body, the ids it
generates, and the answers of other services. `valid` collects the checks on the body that
concern no modelled table. Where a handler looks up one row by a field, the request names the
row the database returns (`NONE` when there is none), and `Answered` says that this is right.
A refused request leaves the tables as they were. */
module Handlers {
  import opened Tables

  // ---------------------------------------------------------------- rows and memberships

  ghost predicate InventoryRow(db: Db, serial: string, row: Id) {
    if row == NONE then forall t :: t in db.inventory ==> db.inventory[t].serialNumber != serial
    else row in db.inventory && db.inventory[row].serialNumber == serial
  }

  ghost predicate SubDeviceRow(db: Db, serial: string, row: Id) {
    if row == NONE then forall d :: d in db.subDevices ==> db.subDevices[d].serialNumber != serial
    else row in db.subDevices && db.subDevices[row].serialNumber == serial
  }

  ghost predicate VenueRow(db: Db, subscriber: Id, row: Id) {
    if row == NONE then forall v :: v in db.venues ==> db.venues[v].subscriber != subscriber
    else row in db.venues && db.venues[row].subscriber == subscriber
  }

  type Devices = map<Id, SubscriberDevice>

  predicate HasSubDevice(ds: Devices, serial: string) {
    exists d :: d in ds && ds[d].serialNumber == serial
  }

  predicate HasInventory(inventory: map<Id, InventoryTag>, serial: string) {
    exists t :: t in inventory && inventory[t].serialNumber == serial
  }

  /** The subscriber has a device. */
  predicate HasDevices(ds: Devices, subscriber: Id) {
    exists d :: d in ds && ds[d].subscriberId == subscriber
  }

  /** The subscriber has a device besides `except`. */
  predicate HasOtherDevices(ds: Devices, subscriber: Id, except: Id) {
    exists d :: d in ds && d != except && ds[d].subscriberId == subscriber
  }

  predicate HasOtherOlg(ds: Devices, subscriber: Id, except: Id) {
    exists d :: d in ds && d != except && ds[d].subscriberId == subscriber && ds[d].group == Olg
  }

  function JoinVenue(venues: map<Id, Venue>, v: Id, device: Id): map<Id, Venue> {
    if v != NONE && v in venues then venues[v := venues[v].(devices := With(venues[v].devices, device))] else venues
  }

  function LeaveVenue(venues: map<Id, Venue>, v: Id, device: Id): map<Id, Venue> {
    if v != NONE && v in venues then venues[v := venues[v].(devices := Without(venues[v].devices, device))] else venues
  }

  function JoinEntity(entities: map<Id, Entity>, e: Id, device: Id): map<Id, Entity> {
    if e != NONE && e in entities then entities[e := entities[e].(devices := With(entities[e].devices, device))] else entities
  }

  function LeaveEntity(entities: map<Id, Entity>, e: Id, device: Id): map<Id, Entity> {
    if e != NONE && e in entities then entities[e := entities[e].(devices := Without(entities[e].devices, device))] else entities
  }

  function AddVenueTo(entities: map<Id, Entity>, e: Id, venue: Id): map<Id, Entity> {
    if e != NONE && e in entities then entities[e := entities[e].(venues := With(entities[e].venues, venue))] else entities
  }

  function RemoveVenueFrom(entities: map<Id, Entity>, e: Id, venue: Id): map<Id, Entity> {
    if e != NONE && e in entities then entities[e := entities[e].(venues := Without(entities[e].venues, venue))] else entities
  }

  function AddChildVenue(venues: map<Id, Venue>, v: Id, child: Id): map<Id, Venue> {
    if v != NONE && v in venues then venues[v := venues[v].(children := With(venues[v].children, child))] else venues
  }

  function RemoveChildVenue(venues: map<Id, Venue>, v: Id, child: Id): map<Id, Venue> {
    if v != NONE && v in venues then venues[v := venues[v].(children := Without(venues[v].children, child))] else venues
  }

  function AddChildEntity(entities: map<Id, Entity>, e: Id, child: Id): map<Id, Entity> {
    if e in entities then entities[e := entities[e].(children := With(entities[e].children, child))] else entities
  }

  function RemoveChildEntity(entities: map<Id, Entity>, e: Id, child: Id): map<Id, Entity> {
    if e in entities then entities[e := entities[e].(children := Without(entities[e].children, child))] else entities
  }

  /** Set by a body field when it is present. */
  function Update<T>(old': T, field: Option<T>): T { if field.Some? then field.value else old' }

  /** Devices move only when the body names a new place: leave the old one, join the new one. */
  function MoveVenue(venues: map<Id, Venue>, from: Id, to: Option<Id>, device: Id): map<Id, Venue> {
    if to.Some? then JoinVenue(LeaveVenue(venues, from, device), to.value, device) else venues
  }

  function MoveEntity(entities: map<Id, Entity>, from: Id, to: Option<Id>, device: Id): map<Id, Entity> {
    if to.Some? then JoinEntity(LeaveEntity(entities, from, device), to.value, device) else entities
  }

  predicate NoneOrIn<T>(id: Id, table: map<Id, T>) { id == NONE || id in table }

  predicate AbsentOrIn<T>(id: Option<Id>, table: map<Id, T>) { id.Some? ==> NoneOrIn(id.value, table) }

  // ---------------------------------------------------------------- inventory

  datatype InventoryBody = InventoryBody(
    valid: bool, entity: Option<Id>, venue: Option<Id>, location: Option<Id>, contact: Option<Id>,
    deviceConfiguration: Option<Id>, subscriber: Option<Id>, rrm: Option<string>, created: Option<Configuration>)

  /** A configuration given inline gets the generated id; naming one as well is refused. */
  predicate InlineAllowed(b: InventoryBody) { b.created.Some? ==> b.deviceConfiguration.None? }

  function WithInline(db: Db, b: InventoryBody, newConfig: Id): map<Id, Configuration> {
    if b.created.Some? then db.configurations[newConfig := b.created.value] else db.configurations
  }

  predicate InventoryPostAllowed(db: Db, serial: string, b: InventoryBody) {
    var entity, venue := Update(NONE, b.entity), Update(NONE, b.venue);
    && b.valid && InlineAllowed(b)
    && !HasInventory(db.inventory, serial)
    && entity != ROOT && NoneOrIn(entity, db.entities)
    && NoneOrIn(venue, db.venues) && (venue != NONE ==> db.venues[venue].subscriber == NONE)
    && (entity == NONE || venue == NONE)
    && (Update(NONE, b.location) == NONE || Update(NONE, b.location) in db.locations)
    && (Update(NONE, b.contact) == NONE || Update(NONE, b.contact) in db.contacts)
    && AbsentOrIn(b.deviceConfiguration, db.configurations)
  }

  function InventoryPost(db: Db, id: Id, newConfig: Id, serial: string, b: InventoryBody): Db {
    if !InventoryPostAllowed(db, serial, b) then db
    else
      var tag := InventoryTag(serial, Update(NONE, b.venue), Update(NONE, b.entity), Update(NONE, b.subscriber),
                   if b.created.Some? then newConfig else Update(NONE, b.deviceConfiguration),
                   Update(NONE, b.location), Update(NONE, b.contact), Update("", b.rrm));
      db.(inventory := db.inventory[id := tag],
          configurations := WithInline(db, b, newConfig),
          entities := JoinEntity(db.entities, tag.entity, id),
          venues := JoinVenue(db.venues, tag.venue, id))
  }

  predicate InventoryPutAllowed(db: Db, id: Id, b: InventoryBody) {
    && id in db.inventory && b.valid && InlineAllowed(b)
    && AbsentOrIn(b.entity, db.entities) && AbsentOrIn(b.venue, db.venues)
    && (b.location.Some? ==> b.location.value == NONE || b.location.value in db.locations)
    && (b.contact.Some? ==> b.contact.value == NONE || b.contact.value in db.contacts)
    && AbsentOrIn(b.deviceConfiguration, db.configurations)
  }

  /** The record after a body PUT. */
  function PutTag(old': InventoryTag, newConfig: Id, b: InventoryBody): InventoryTag {
    old'.(entity := Update(old'.entity, b.entity), venue := Update(old'.venue, b.venue),
          location := Update(old'.location, b.location), contact := Update(old'.contact, b.contact),
          subscriber := Update(old'.subscriber, b.subscriber), rrm := Update(old'.rrm, b.rrm),
          deviceConfiguration := if b.created.Some? then newConfig else Update(old'.deviceConfiguration, b.deviceConfiguration))
  }

  /** A body PUT; `subRow` is the subscriber device with the same serial, kept in step. */
  function InventoryPut(db: Db, id: Id, newConfig: Id, subRow: Id, b: InventoryBody): Db {
    if !InventoryPutAllowed(db, id, b) then db
    else
      var before := db.inventory[id];
      var after := PutTag(before, newConfig, b);
      db.(inventory := db.inventory[id := after],
          configurations := WithInline(db, b, newConfig),
          entities := MoveEntity(db.entities, before.entity, b.entity, id),
          venues := MoveVenue(db.venues, before.venue, b.venue, id),
          subDevices := if subRow != NONE && subRow in db.subDevices
                        then db.subDevices[subRow := db.subDevices[subRow].(deviceConfiguration := after.deviceConfiguration)]
                        else db.subDevices)
  }

  predicate InventoryDeleteAllowed(db: Db, id: Id) {
    && id in db.inventory && db.inventory[id].subscriber == NONE
    && !HasSubDevice(db.subDevices, db.inventory[id].serialNumber)
  }

  /** The id of the record is also erased from the configuration lists of its place, and a
      configuration made for one subscriber goes with the record. */
  function InventoryDelete(db: Db, id: Id): Db {
    if !InventoryDeleteAllowed(db, id) then db
    else
      var tag := db.inventory[id];
      var venues := if tag.venue != NONE && tag.venue in db.venues
        then db.venues[tag.venue := db.venues[tag.venue].(configurations := Without(db.venues[tag.venue].configurations, id))]
        else db.venues;
      var entities := if tag.entity != NONE && tag.entity in db.entities
        then db.entities[tag.entity := db.entities[tag.entity].(configurations := Without(db.entities[tag.entity].configurations, id))]
        else db.entities;
      db.(venues := LeaveVenue(venues, tag.venue, id),
          entities := LeaveEntity(entities, tag.entity, id),
          configurations := DropOwn(db, tag.deviceConfiguration),
          inventory := db.inventory - {id})
  }

  /** A configuration made for one subscriber is deleted with its only user. */
  function DropOwn(db: Db, c: Id): map<Id, Configuration> {
    if c != NONE && c in db.configurations && db.configurations[c].subscriberOnly then db.configurations - {c}
    else db.configurations
  }

  predicate RemoveSubscriberAllowed(db: Db, id: Id, subscriber: Id) {
    id in db.inventory && subscriber != NONE && db.inventory[id].subscriber == subscriber
  }

  /** The `removeSubscriber` form of PUT: the record is freed, the sign-ups and all devices of the subscriber
      are deleted. The membership is removed from an entity whose id is the word `id`, which is none. */
  function RemoveSubscriber(db: Db, id: Id, subscriber: Id): Db {
    if !RemoveSubscriberAllowed(db, id, subscriber) then db
    else
      var tag := db.inventory[id];
      var known := tag.deviceConfiguration in db.configurations;
      db.(inventory := db.inventory[id := tag.(subscriber := NONE,
                         deviceConfiguration := if known then NONE else tag.deviceConfiguration)],
          configurations := if known && db.configurations[tag.deviceConfiguration].subscriberOnly
                            then db.configurations - {tag.deviceConfiguration} else db.configurations,
          entities := LeaveEntity(db.entities, "id", id),
          signups := map s | s in db.signups && db.signups[s].userId != subscriber :: db.signups[s],
          subDevices := map d | d in db.subDevices && db.subDevices[d].subscriberId != subscriber :: db.subDevices[d])
  }

  // ---------------------------------------------------------------- subscriber devices

  /** `CreateInventoryRecord`: create the inventory record of a subscriber device or bring it in step. */
  function SyncInventory(db: Db, d: SubscriberDevice, invRow: Id, newInv: Id, venueRow: Id): Db {
    if invRow != NONE && invRow in db.inventory then
      var before := db.inventory[invRow];
      var venue := if venueRow != NONE then venueRow else before.venue;
      db.(inventory := db.inventory[invRow := before.(subscriber := d.subscriberId, venue := venue,
                         deviceConfiguration := d.deviceConfiguration, rrm := d.rrm)],
          venues := JoinVenue(LeaveVenue(db.venues, before.venue, invRow), venue, invRow))
    else
      db.(inventory := db.inventory[newInv := InventoryTag(d.serialNumber, venueRow, NONE, d.subscriberId,
                         d.deviceConfiguration, NONE, NONE, d.rrm)],
          venues := JoinVenue(db.venues, venueRow, newInv))
  }

  datatype SubDeviceBody = SubDeviceBody(
    valid: bool, serial: string, subscriberId: Option<Id>, group: Option<Group>, deviceConfiguration: Option<Id>,
    configuration: ConfigurationField, rrm: Option<string>, otherFields: bool)

  /** The `configuration` field: absent, the empty list, or elements; for elements, the record they
      make and whether its management policy is that of the stored record it would replace. */
  datatype ConfigurationField = Absent | Empty | Elements(record: Configuration, samePolicy: bool)

  predicate SubDevicePostAllowed(db: Db, b: SubDeviceBody) {
    var subscriber := Update(NONE, b.subscriberId);
    && b.valid && !HasSubDevice(db.subDevices, b.serial)
    && AbsentOrIn(b.deviceConfiguration, db.configurations)
    && b.group.Some?
    && (b.group.value == Olg <==> !HasDevices(db.subDevices, subscriber))
  }

  function PostedDevice(newConfig: Id, b: SubDeviceBody): SubscriberDevice
    requires b.group.Some?
  {
    SubscriberDevice(b.serial, Update(NONE, b.subscriberId), b.group.value,
      if b.configuration.Elements? then newConfig else Update(NONE, b.deviceConfiguration), Update("", b.rrm))
  }

  /** The configuration given inline and the device are stored before the inventory is synced. */
  function PostStored(db: Db, id: Id, newConfig: Id, b: SubDeviceBody): Db
    requires b.group.Some?
  {
    db.(configurations := if b.configuration.Elements? then db.configurations[newConfig := b.configuration.record] else db.configurations,
        subDevices := db.subDevices[id := PostedDevice(newConfig, b)])
  }

  function SubDevicePost(db: Db, id: Id, newConfig: Id, invRow: Id, newInv: Id, venueRow: Id, b: SubDeviceBody): Db {
    if !SubDevicePostAllowed(db, b) then db
    else SyncInventory(PostStored(db, id, newConfig, b), PostedDevice(newConfig, b), invRow, newInv, venueRow)
  }

  /** What a PUT does to the configuration reference: the reference after it, the record it writes,
      and whether the configuration counts as updated. */
  datatype Reference = Reference(id: Id, written: map<Id, Configuration>, updated: bool)

  function PutReference(db: Db, old': SubscriberDevice, newConfig: Id, b: SubDeviceBody): Reference {
    var named := Update(NONE, b.deviceConfiguration);
    var effective := if named != NONE then named else old'.deviceConfiguration;
    match b.configuration
    case Absent => Reference(Update(old'.deviceConfiguration, b.deviceConfiguration), db.configurations, false)
    case Empty => Reference(NONE, db.configurations, effective != NONE)
    case Elements(record, samePolicy) =>
      if effective != NONE && effective in db.configurations then
        var stored := db.configurations[effective];
        var written := stored.(elements := record.elements, deviceTypes := record.deviceTypes);
        Reference(effective, db.configurations[effective := written], written != stored || !samePolicy)
      else Reference(newConfig, db.configurations[newConfig := record], true)
  }

  predicate SubDevicePutAllowed(db: Db, id: Id, b: SubDeviceBody) {
    && b.valid && id in db.subDevices
    && AbsentOrIn(b.deviceConfiguration, db.configurations)
    && (forall d :: d in db.subDevices && d != id ==> db.subDevices[d].serialNumber != b.serial)
    && b.group.Some?
    && (b.group.value == Olg ==>
          var named := Update(NONE, b.subscriberId);
          !HasOtherOlg(db.subDevices, if named == NONE then db.subDevices[id].subscriberId else named, id))
  }

  /** The device after a PUT; the serial number never changes. */
  function PutDevice(old': SubscriberDevice, reference: Id, b: SubDeviceBody): SubscriberDevice {
    old'.(subscriberId := Update(old'.subscriberId, b.subscriberId), group := Update(old'.group, b.group),
          deviceConfiguration := reference, rrm := Update(old'.rrm, b.rrm))
  }

  /** The device and its configuration after a PUT; a cleared reference takes the old configuration with it. */
  function PutStored(db: Db, id: Id, newConfig: Id, b: SubDeviceBody): Db
    requires id in db.subDevices
  {
    var before := db.subDevices[id];
    var reference := PutReference(db, before, newConfig, b);
    var cleared := !b.configuration.Absent? && before.deviceConfiguration != NONE && reference.id == NONE;
    db.(subDevices := db.subDevices[id := PutDevice(before, reference.id, b)],
        configurations := if cleared then reference.written - {before.deviceConfiguration} else reference.written)
  }

  /** Whether a PUT brings the inventory record in step. */
  predicate PutSyncs(db: Db, id: Id, newConfig: Id, b: SubDeviceBody)
    requires id in db.subDevices
  {
    var before := db.subDevices[id];
    var reference := PutReference(db, before, newConfig, b);
    || reference.updated
    || (b.deviceConfiguration.Some? && before.deviceConfiguration != reference.id)
    || b.subscriberId.Some? || b.rrm.Some? || b.otherFields
  }

  function SubDevicePut(db: Db, id: Id, newConfig: Id, invRow: Id, newInv: Id, venueRow: Id, b: SubDeviceBody): Db {
    if !SubDevicePutAllowed(db, id, b) then db
    else
      var stored := PutStored(db, id, newConfig, b);
      if PutSyncs(db, id, newConfig, b) then SyncInventory(stored, stored.subDevices[id], invRow, newInv, venueRow)
      else stored
  }

  predicate SubDeviceDeleteAllowed(db: Db, id: Id, monitoringStopped: bool) {
    && id in db.subDevices
    && (db.subDevices[id].group == Olg ==> !HasOtherDevices(db.subDevices, db.subDevices[id].subscriberId, id))
    && monitoringStopped
  }

  function DropNamed(configurations: map<Id, Configuration>, c: Id): map<Id, Configuration> {
    if c != NONE then configurations - {c} else configurations
  }

  function SubDeviceDelete(db: Db, id: Id, invRow: Id, monitoringStopped: bool): Db {
    if !SubDeviceDeleteAllowed(db, id, monitoringStopped) then db
    else
      var d := db.subDevices[id];
      var stored := db.(subDevices := db.subDevices - {id});
      if invRow != NONE && invRow in db.inventory then
        var tag := db.inventory[invRow];
        stored.(entities := LeaveEntity(db.entities, tag.entity, invRow),
                venues := LeaveVenue(db.venues, tag.venue, invRow),
                configurations := DropNamed(DropNamed(db.configurations, d.deviceConfiguration), tag.deviceConfiguration),
                inventory := db.inventory - {invRow})
      else stored.(configurations := DropNamed(db.configurations, d.deviceConfiguration))
  }

  // ---------------------------------------------------------------- venues

  /** Names are compared without regard to case, within the entity or else within the parent. */
  predicate VenueNameTaken(db: Db, name: string, entity: Id, parent: Id) {
    exists v :: v in db.venues && Lower(db.venues[v].name) == Lower(name)
                && (if entity != NONE then db.venues[v].entity == entity else db.venues[v].parent == parent)
  }

  /** The entity of a child venue is its parent's. */
  function PostedEntity(db: Db, v: Venue): Id {
    if v.parent != NONE && v.parent in db.venues then db.venues[v.parent].entity else v.entity
  }

  predicate VenuePostAllowed(db: Db, valid: bool, v: Venue) {
    && valid
    && ((v.parent == NONE) != (v.entity == NONE))
    && NoneOrIn(v.parent, db.venues)
    && PostedEntity(db, v) != ROOT && NoneOrIn(PostedEntity(db, v), db.entities)
    && !VenueNameTaken(db, v.name, PostedEntity(db, v), v.parent)
  }

  /** `v` is the body: its device and configuration lists are stored as they come, its children are
      cleared. When no role can be made for the creator the record is deleted again, the list entries stay. */
  function VenuePost(db: Db, id: Id, valid: bool, roleCreated: bool, v: Venue): Db {
    if !VenuePostAllowed(db, valid, v) then db
    else
      var entity := PostedEntity(db, v);
      var venues := AddChildVenue(db.venues[id := v.(entity := entity, children := [])], v.parent, id);
      db.(entities := AddVenueTo(db.entities, entity, id),
          venues := if roleCreated then venues else venues - {id})
  }

  predicate VenuePutAllowed(db: Db, id: Id, valid: bool, entity: Option<Id>, parent: Option<Id>) {
    && valid && id in db.venues
    && (entity.Some? ==> entity.value != NONE && entity.value in db.entities)
    && (parent.Some? ==> parent.value != NONE && parent.value in db.venues)
  }

  /** A body PUT can move a venue to another entity or parent; nothing is checked about cycles. */
  function VenuePut(db: Db, id: Id, valid: bool, entity: Option<Id>, parent: Option<Id>, rrm: Option<string>): Db {
    if !VenuePutAllowed(db, id, valid, entity, parent) then db
    else
      var before := db.venues[id];
      var venues := db.venues[id := before.(entity := Update(before.entity, entity), parent := Update(before.parent, parent),
                                            rrm := Update(before.rrm, rrm))];
      db.(entities := if entity.Some? then AddVenueTo(RemoveVenueFrom(db.entities, before.entity, id), entity.value, id)
                      else db.entities,
          venues := if parent.Some? then AddChildVenue(RemoveChildVenue(venues, before.parent, id), parent.value, id)
                    else venues)
  }

  predicate VenueDeleteAllowed(db: Db, id: Id) {
    id in db.venues && db.venues[id].children == [] && db.venues[id].devices == [] && db.venues[id].subscriber == NONE
  }

  function VenueDelete(db: Db, id: Id): Db {
    if !VenueDeleteAllowed(db, id) then db
    else
      db.(entities := RemoveVenueFrom(db.entities, db.venues[id].entity, id),
          venues := RemoveChildVenue(db.venues, db.venues[id].parent, id) - {id})
  }

  // ---------------------------------------------------------------- entities

  predicate EntityPostAllowed(db: Db, valid: bool, e: Entity) {
    valid && e.parent != NONE && e.parent in db.entities && (e.parent == ROOT || db.entities[e.parent].operatorId != NONE)
  }

  /** `e` is the body: most relations are cleared, the device, variable and configuration lists are not. */
  function EntityPost(db: Db, id: Id, valid: bool, roleCreated: bool, e: Entity): Db {
    if !EntityPostAllowed(db, valid, e) then db
    else
      var record := e.(children := [], venues := [], contacts := [], locations := [], operatorId := NONE);
      var entities := AddChildEntity(db.entities[id := record], e.parent, id);
      db.(entities := if roleCreated then entities else entities - {id})
  }

  function EntityPut(db: Db, id: Id, valid: bool, rrm: Option<string>): Db {
    if valid && id in db.entities then
      db.(entities := db.entities[id := db.entities[id].(rrm := Update(db.entities[id].rrm, rrm))])
    else db
  }

  predicate Unused(e: Entity) {
    e.children == [] && e.devices == [] && e.venues == [] && e.locations == [] && e.contacts == [] && e.configurations == []
  }

  predicate EntityDeleteAllowed(db: Db, id: Id) {
    id in db.entities && id != ROOT && db.entities[id].operatorId == NONE && Unused(db.entities[id])
  }

  function EntityDelete(db: Db, id: Id): Db {
    if !EntityDeleteAllowed(db, id) then db
    else db.(entities := RemoveChildEntity(db.entities - {id}, db.entities[id].parent, id))
  }

  // ---------------------------------------------------------------- operators

  predicate OperatorPostAllowed(db: Db, valid: bool, registrationId: string) {
    && valid && registrationId != ""
    && forall o :: o in db.operators ==> db.operators[o].registrationId != Lower(registrationId)
  }

  /** An operator is created together with its entity under the root. */
  function OperatorPost(db: Db, id: Id, entityId: Id, valid: bool, registrationId: string, rrm: string): Db {
    if !OperatorPostAllowed(db, valid, registrationId) then db
    else
      var entity := Entity(ROOT, [], [], [], [], [], [], [], id, "");
      db.(entities := AddChildEntity(db.entities[entityId := entity], ROOT, entityId),
          operators := db.operators[id := Operator(Lower(registrationId), entityId, false, rrm)])
  }

  function OperatorPut(db: Db, id: Id, valid: bool, rrm: Option<string>): Db {
    if valid && id in db.operators then
      db.(operators := db.operators[id := db.operators[id].(rrm := Update(db.operators[id].rrm, rrm))])
    else db
  }

  /** The entity of an operator: by its own reference, or else the row that refers to it. */
  function LinkedEntity(db: Db, o: Operator, linkRow: Id): Id {
    if o.entityId != NONE && o.entityId in db.entities then o.entityId else linkRow
  }

  ghost predicate LinkRow(db: Db, operatorId: Id, row: Id) {
    if row == NONE then forall e :: e in db.entities ==> db.entities[e].operatorId != operatorId
    else row in db.entities && db.entities[row].operatorId == operatorId
  }

  predicate OperatorDeleteAllowed(db: Db, id: Id, linkRow: Id) {
    && id in db.operators && !db.operators[id].defaultOperator
    && (forall s :: s in db.signups ==> db.signups[s].operatorId != id)
    && var e := LinkedEntity(db, db.operators[id], linkRow);
       e != NONE && e in db.entities ==>
         && e != ROOT
         && (db.entities[e].operatorId == NONE || db.entities[e].operatorId == id)
         && Unused(db.entities[e])
  }

  function OperatorDelete(db: Db, id: Id, linkRow: Id): Db {
    if !OperatorDeleteAllowed(db, id, linkRow) then db
    else
      var e := LinkedEntity(db, db.operators[id], linkRow);
      db.(operators := db.operators - {id},
          entities := if e != NONE && e in db.entities then RemoveChildEntity(db.entities - {e}, db.entities[e].parent, e)
                      else db.entities)
  }

  // ---------------------------------------------------------------- sign-ups

  ghost predicate OperatorRow(db: Db, registrationId: string, row: Id) {
    if row == NONE then forall o :: o in db.operators ==> db.operators[o].registrationId != registrationId
    else row in db.operators && db.operators[row].registrationId == registrationId
  }

  ghost predicate EmailRow(db: Db, email: string, row: Id) {
    if row == NONE then forall s :: s in db.signups ==> db.signups[s].email != email
    else row in db.signups && db.signups[row].email == email
  }

  ghost predicate UserRow(db: Db, userId: Id, row: Id) {
    if row == NONE then forall s :: s in db.signups ==> db.signups[s].userId != userId
    else row in db.signups && db.signups[row].userId == userId
  }

  /** A sign-up request: the parameters, the rows found, the user the security service answers with. */
  datatype SignupRequest = SignupRequest(
    email: string, registrationId: string, resend: bool, valid: bool, opRow: Id, emailRow: Id,
    securityOk: bool, userId: Id, userRow: Id, newSignup: Id, newVenue: Id)

  /** The request passes the checks that come before the state machine. */
  predicate SignupPossible(db: Db, r: SignupRequest) {
    && r.valid && Normalise(r.email) != "" && Normalise(r.registrationId) != ""
    && r.opRow != NONE && r.opRow in db.operators
    && db.operators[r.opRow].entityId != NONE && db.operators[r.opRow].entityId in db.entities
  }

  predicate SignupNew(db: Db, r: SignupRequest) {
    SignupPossible(db, r) && r.emailRow == NONE && r.securityOk && r.userRow == NONE
  }

  /** Resending for a pending sign-up of the same operator reuses its row. */
  predicate SignupResent(db: Db, r: SignupRequest) {
    && SignupPossible(db, r) && r.emailRow != NONE && r.emailRow in db.signups && r.resend && r.securityOk
    && db.signups[r.emailRow].operatorId == r.opRow && db.signups[r.emailRow].statusCode == WAITING_FOR_EMAIL
  }

  /** A venue for the subscriber under the operator's entity, unless one has that name. */
  function SubscriberVenue(db: Db, entity: Id, email: string, userId: Id, newVenue: Id): Db {
    if VenueNameTaken(db, email, entity, NONE) then db
    else db.(venues := db.venues[newVenue := Venue(email, entity, NONE, [], [], [], userId, "")],
             entities := AddVenueTo(db.entities, entity, newVenue))
  }

  function SignupPost(db: Db, r: SignupRequest): Db {
    var email := Normalise(r.email);
    if SignupNew(db, r) then
      SubscriberVenue(
        db.(signups := db.signups[r.newSignup := SignupEntry(email, r.userId, r.opRow, WAITING_FOR_EMAIL)]),
        db.operators[r.opRow].entityId, email, r.userId, r.newVenue)
    else if SignupResent(db, r) then
      SubscriberVenue(db, db.operators[r.opRow].entityId, email, db.signups[r.emailRow].userId, r.newVenue)
    else db
  }

  /** `operation=emailVerified` moves a pending sign-up on; other operations change no modelled field. */
  function SignupPut(db: Db, row: Id, emailVerified: bool): Db {
    if row in db.signups && emailVerified && db.signups[row].statusCode == WAITING_FOR_EMAIL then
      db.(signups := db.signups[row := db.signups[row].(statusCode := WAITING_FOR_DEVICE)])
    else db
  }

  predicate SignupDeleteAllowed(db: Db, subscriber: Id, row: Id) {
    && subscriber != NONE && row != NONE && row in db.signups
    && (forall t :: t in db.inventory ==> db.inventory[t].subscriber != subscriber)
    && !HasDevices(db.subDevices, subscriber)
  }

  /** Deletes the subscriber's venues one by one, up to the first that still has devices. */
  function DropVenues(db: Db, rows: seq<Id>): Db
    decreases |rows|
  {
    if rows == [] || rows[0] !in db.venues || db.venues[rows[0]].devices != [] then db
    else
      DropVenues(db.(entities := RemoveVenueFrom(db.entities, db.venues[rows[0]].entity, rows[0]),
                     venues := db.venues - {rows[0]}), rows[1..])
  }

  ghost predicate SubscriberVenues(db: Db, subscriber: Id, rows: seq<Id>) {
    && (forall i :: 0 <= i < |rows| ==> rows[i] in db.venues && db.venues[rows[i]].subscriber == subscriber)
    && (forall i, j :: 0 <= i < j < |rows| ==> rows[i] != rows[j])
  }

  /** A venue with devices stops the request half-way: the venues before it are gone, the sign-up stays. */
  function SignupDelete(db: Db, subscriber: Id, row: Id, rows: seq<Id>, securityOk: bool): Db {
    if !SignupDeleteAllowed(db, subscriber, row) then db
    else
      var dropped := DropVenues(db, rows);
      if securityOk && forall i :: 0 <= i < |rows| ==> rows[i] in db.venues && db.venues[rows[i]].devices == [] then
        dropped.(signups := db.signups - {row})
      else dropped
  }

  // ---------------------------------------------------------------- requests and runs

  datatype Request =
    | InventoryPostRequest(id: Id, newConfig: Id, serial: string, inventory: InventoryBody)
    | InventoryPutRequest(id: Id, newConfig: Id, subRow: Id, inventory: InventoryBody)
    | InventoryDeleteRequest(id: Id)
    | RemoveSubscriberRequest(id: Id, subscriber: Id)
    | SubDevicePostRequest(id: Id, newConfig: Id, invRow: Id, newInv: Id, venueRow: Id, device: SubDeviceBody)
    | SubDevicePutRequest(id: Id, newConfig: Id, invRow: Id, newInv: Id, venueRow: Id, device: SubDeviceBody)
    | SubDeviceDeleteRequest(id: Id, invRow: Id, monitoringStopped: bool)
    | VenuePostRequest(id: Id, valid: bool, roleCreated: bool, venue: Venue)
    | VenuePutRequest(id: Id, valid: bool, toEntity: Option<Id>, toParent: Option<Id>, rrm: Option<string>)
    | VenueDeleteRequest(id: Id)
    | EntityPostRequest(id: Id, valid: bool, roleCreated: bool, entity: Entity)
    | EntityPutRequest(id: Id, valid: bool, rrm: Option<string>)
    | EntityDeleteRequest(id: Id)
    | OperatorPostRequest(id: Id, entityId: Id, valid: bool, registrationId: string, opRrm: string)
    | OperatorPutRequest(id: Id, valid: bool, rrm: Option<string>)
    | OperatorDeleteRequest(id: Id, linkRow: Id)
    | SignupPostRequest(signup: SignupRequest)
    | SignupPutRequest(row: Id, emailVerified: bool)
    | SignupDeleteRequest(subscriber: Id, row: Id, rows: seq<Id>, securityOk: bool)

  function Step(db: Db, r: Request): Db {
    match r
    case InventoryPostRequest(id, newConfig, serial, b) => InventoryPost(db, id, newConfig, serial, b)
    case InventoryPutRequest(id, newConfig, subRow, b) => InventoryPut(db, id, newConfig, subRow, b)
    case InventoryDeleteRequest(id) => InventoryDelete(db, id)
    case RemoveSubscriberRequest(id, subscriber) => RemoveSubscriber(db, id, subscriber)
    case SubDevicePostRequest(id, newConfig, invRow, newInv, venueRow, b) => SubDevicePost(db, id, newConfig, invRow, newInv, venueRow, b)
    case SubDevicePutRequest(id, newConfig, invRow, newInv, venueRow, b) => SubDevicePut(db, id, newConfig, invRow, newInv, venueRow, b)
    case SubDeviceDeleteRequest(id, invRow, stopped) => SubDeviceDelete(db, id, invRow, stopped)
    case VenuePostRequest(id, valid, roleCreated, v) => VenuePost(db, id, valid, roleCreated, v)
    case VenuePutRequest(id, valid, e, p, rrm) => VenuePut(db, id, valid, e, p, rrm)
    case VenueDeleteRequest(id) => VenueDelete(db, id)
    case EntityPostRequest(id, valid, roleCreated, e) => EntityPost(db, id, valid, roleCreated, e)
    case EntityPutRequest(id, valid, rrm) => EntityPut(db, id, valid, rrm)
    case EntityDeleteRequest(id) => EntityDelete(db, id)
    case OperatorPostRequest(id, e, valid, registrationId, rrm) => OperatorPost(db, id, e, valid, registrationId, rrm)
    case OperatorPutRequest(id, valid, rrm) => OperatorPut(db, id, valid, rrm)
    case OperatorDeleteRequest(id, linkRow) => OperatorDelete(db, id, linkRow)
    case SignupPostRequest(s) => SignupPost(db, s)
    case SignupPutRequest(row, verified) => SignupPut(db, row, verified)
    case SignupDeleteRequest(subscriber, row, rows, ok) => SignupDelete(db, subscriber, row, rows, ok)
  }

  /** A generated id is in no table. */
  predicate Fresh(db: Db, id: Id) {
    && id != NONE && id != ROOT && id != "id"
    && id !in db.inventory && id !in db.subDevices && id !in db.venues && id !in db.entities
    && id !in db.operators && id !in db.signups && id !in db.configurations
  }

  /** The generated ids are fresh and the rows named are those the database returns. */
  ghost predicate Answered(db: Db, r: Request) {
    match r
    case InventoryPostRequest(id, newConfig, serial, b) => Fresh(db, id) && Fresh(db, newConfig)
    case InventoryPutRequest(id, newConfig, subRow, b) =>
      Fresh(db, newConfig) && (id in db.inventory ==> SubDeviceRow(db, db.inventory[id].serialNumber, subRow))
    case SubDevicePostRequest(id, newConfig, invRow, newInv, venueRow, b) =>
      && Fresh(db, id) && Fresh(db, newConfig) && Fresh(db, newInv)
      && InventoryRow(db, b.serial, invRow) && VenueRow(db, Update(NONE, b.subscriberId), venueRow)
    case SubDevicePutRequest(id, newConfig, invRow, newInv, venueRow, b) =>
      && Fresh(db, newConfig) && Fresh(db, newInv)
      && (id in db.subDevices ==>
            && InventoryRow(db, db.subDevices[id].serialNumber, invRow)
            && VenueRow(db, Update(db.subDevices[id].subscriberId, b.subscriberId), venueRow))
    case SubDeviceDeleteRequest(id, invRow, stopped) =>
      id in db.subDevices ==> InventoryRow(db, db.subDevices[id].serialNumber, invRow)
    case VenuePostRequest(id, valid, roleCreated, v) => Fresh(db, id)
    case EntityPostRequest(id, valid, roleCreated, e) => Fresh(db, id)
    case OperatorPostRequest(id, e, valid, registrationId, rrm) => Fresh(db, id) && Fresh(db, e)
    case OperatorDeleteRequest(id, linkRow) => LinkRow(db, id, linkRow)
    case SignupPostRequest(s) =>
      && Fresh(db, s.newSignup) && Fresh(db, s.newVenue)
      && OperatorRow(db, Normalise(s.registrationId), s.opRow) && EmailRow(db, Normalise(s.email), s.emailRow)
      && UserRow(db, s.userId, s.userRow)
    case SignupDeleteRequest(subscriber, row, rows, ok) =>
      UserRow(db, subscriber, row) && SubscriberVenues(db, subscriber, rows)
    case _ => true
  }

  /** The state after each request of a run; every request is answered in the state it meets. */
  function Run(db: Db, rs: seq<Request>): Db
    decreases |rs|
  {
    if rs == [] then db else Run(Step(db, rs[0]), rs[1..])
  }

  ghost predicate RunAnswered(db: Db, rs: seq<Request>)
    decreases |rs|
  {
    rs == [] || (Answered(db, rs[0]) && RunAnswered(Step(db, rs[0]), rs[1..]))
  }
}
