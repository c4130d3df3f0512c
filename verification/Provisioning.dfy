/** The tables as the handlers change them: each method runs one request and is tied to its step in `Handlers`.

A method answers whether the request was accepted. The ids it would generate, the rows a look-up by field returns and
the answers of other services are parameters, as in the steps. */
module Provisioning {
  import opened Tables
  import opened Handlers
  import opened Guarantees
  import Signups
  import SubscriberDevices

  class Provisioning {
    var inventory: map<Id, InventoryTag>
    var subDevices: map<Id, SubscriberDevice>
    var venues: map<Id, Venue>
    var entities: map<Id, Entity>
    var operators: map<Id, Operator>
    var signups: map<Id, SignupEntry>
    var configurations: map<Id, Configuration>
    var locations: set<Id>
    var contacts: set<Id>
    var variables: set<Id>

    function State(): Db
      reads this
    {
      Db(inventory, subDevices, venues, entities, operators, signups, configurations, locations, contacts, variables)
    }

    /** What every request keeps. */
    ghost predicate Valid()
      reads this
    {
      Sane(State())
    }

    ghost predicate InStep()
      reads this
    {
      SubscriberDevices.InStep(State())
    }

    constructor (db: Db)
      requires Sane(db)
      ensures Valid() && State() == db
    {
      inventory, subDevices, venues, entities, operators := db.inventory, db.subDevices, db.venues, db.entities, db.operators;
      signups, configurations, locations, contacts, variables := db.signups, db.configurations, db.locations, db.contacts, db.variables;
    }

    // ---------------------------------------------------------------- memberships

    method AddToVenue(v: Id, device: Id)
      modifies this`venues
      ensures venues == JoinVenue(old(venues), v, device)
    {
      if v != NONE && v in venues {
        venues := venues[v := venues[v].(devices := With(venues[v].devices, device))];
      }
    }

    method RemoveFromVenue(v: Id, device: Id)
      modifies this`venues
      ensures venues == LeaveVenue(old(venues), v, device)
    {
      if v != NONE && v in venues {
        venues := venues[v := venues[v].(devices := Without(venues[v].devices, device))];
      }
    }

    method AddToEntity(e: Id, device: Id)
      modifies this`entities
      ensures entities == JoinEntity(old(entities), e, device)
    {
      if e != NONE && e in entities {
        entities := entities[e := entities[e].(devices := With(entities[e].devices, device))];
      }
    }

    method RemoveFromEntity(e: Id, device: Id)
      modifies this`entities
      ensures entities == LeaveEntity(old(entities), e, device)
    {
      if e != NONE && e in entities {
        entities := entities[e := entities[e].(devices := Without(entities[e].devices, device))];
      }
    }

    /** A move leaves the old place and joins the new one, if the body names one at all. */
    method MoveToVenue(from: Id, to: Option<Id>, device: Id)
      modifies this`venues
      ensures venues == MoveVenue(old(venues), from, to, device)
    {
      if to.Some? {
        RemoveFromVenue(from, device);
        AddToVenue(to.value, device);
      }
    }

    method MoveToEntity(from: Id, to: Option<Id>, device: Id)
      modifies this`entities
      ensures entities == MoveEntity(old(entities), from, to, device)
    {
      if to.Some? {
        RemoveFromEntity(from, device);
        AddToEntity(to.value, device);
      }
    }

    // ---------------------------------------------------------------- inventory

    method PostInventory(id: Id, newConfig: Id, serial: string, b: InventoryBody) returns (ok: bool)
      requires Valid() && Answered(State(), InventoryPostRequest(id, newConfig, serial, b))
      modifies this
      ensures Valid() && (old(InStep()) ==> InStep())
      ensures State() == InventoryPost(old(State()), id, newConfig, serial, b)
      ensures ok <==> InventoryPostAllowed(old(State()), serial, b)
      ensures ok ==> InventoryPosted(old(State()), State(), id, newConfig, serial, b)
    {
      StepSane(State(), InventoryPostRequest(id, newConfig, serial, b));
      if InventoryPostAllowed(State(), serial, b) {
        InventoryPostGives(State(), id, newConfig, serial, b);
      }
      if !InventoryPostAllowed(State(), serial, b) {
        return false;
      }
      StoreInventory(id, newConfig, serial, b);
      return true;
    }

    method StoreInventory(id: Id, newConfig: Id, serial: string, b: InventoryBody)
      requires InventoryPostAllowed(State(), serial, b)
      modifies this`configurations, this`inventory, this`entities, this`venues
      ensures State() == InventoryPost(old(State()), id, newConfig, serial, b)
    {
      var tag := InventoryTag(serial, Update(NONE, b.venue), Update(NONE, b.entity), Update(NONE, b.subscriber),
                   Update(NONE, b.deviceConfiguration), Update(NONE, b.location), Update(NONE, b.contact), Update("", b.rrm));
      if b.created.Some? {
        configurations := configurations[newConfig := b.created.value];
        tag := tag.(deviceConfiguration := newConfig);
      }
      inventory := inventory[id := tag];
      AddToEntity(tag.entity, id);
      AddToVenue(tag.venue, id);
    }

    method PutInventory(id: Id, newConfig: Id, subRow: Id, b: InventoryBody) returns (ok: bool)
      requires Valid() && Answered(State(), InventoryPutRequest(id, newConfig, subRow, b))
      modifies this
      ensures Valid() && (old(InStep()) ==> InStep())
      ensures State() == InventoryPut(old(State()), id, newConfig, subRow, b)
      ensures ok <==> InventoryPutAllowed(old(State()), id, b)
      ensures ok ==> InventoryChanged(old(State()), State(), id, newConfig, subRow, b)
    {
      StepSane(State(), InventoryPutRequest(id, newConfig, subRow, b));
      if InventoryPutAllowed(State(), id, b) {
        InventoryPutGives(State(), id, newConfig, subRow, b);
      }
      if !InventoryPutAllowed(State(), id, b) {
        return false;
      }
      UpdateInventory(id, newConfig, subRow, b);
      return true;
    }

    method UpdateInventory(id: Id, newConfig: Id, subRow: Id, b: InventoryBody)
      requires InventoryPutAllowed(State(), id, b)
      modifies this`configurations, this`inventory, this`entities, this`venues, this`subDevices
      ensures State() == InventoryPut(old(State()), id, newConfig, subRow, b)
    {
      var existing := inventory[id];
      var fromEntity, fromVenue := existing.entity, existing.venue;
      existing := PutTag(existing, newConfig, b);
      if b.created.Some? {
        configurations := configurations[newConfig := b.created.value];
      }
      inventory := inventory[id := existing];
      MoveToEntity(fromEntity, b.entity, id);
      MoveToVenue(fromVenue, b.venue, id);
      if subRow != NONE && subRow in subDevices && subDevices[subRow].deviceConfiguration != existing.deviceConfiguration {
        subDevices := subDevices[subRow := subDevices[subRow].(deviceConfiguration := existing.deviceConfiguration)];
      }
    }

    method DeleteInventory(id: Id) returns (ok: bool)
      requires Valid() && Answered(State(), InventoryDeleteRequest(id))
      modifies this
      ensures Valid() && (old(InStep()) ==> InStep())
      ensures State() == InventoryDelete(old(State()), id)
      ensures ok <==> InventoryDeleteAllowed(old(State()), id)
      ensures ok ==> InventoryDeleted(old(State()), State(), id)
    {
      StepSane(State(), InventoryDeleteRequest(id));
      if InventoryDeleteAllowed(State(), id) {
        InventoryDeleteGives(State(), id);
      }
      if id !in inventory {
        return false;
      }
      var tag := inventory[id];
      if tag.subscriber != NONE || HasSubDevice(subDevices, tag.serialNumber) {
        return false;
      }
      EraseInventory(id);
      return true;
    }

    method DropOwnConfiguration(c: Id)
      modifies this`configurations
      ensures configurations == DropOwn(old(State()), c)
    {
      if c != NONE && c in configurations && configurations[c].subscriberOnly {
        configurations := configurations - {c};
      }
    }

    method EraseFromConfigurations(tag: InventoryTag, id: Id)
      modifies this`venues, this`entities
      ensures venues == if tag.venue != NONE && tag.venue in old(venues)
                then old(venues)[tag.venue := old(venues)[tag.venue].(configurations := Without(old(venues)[tag.venue].configurations, id))]
                else old(venues)
      ensures entities == if tag.entity != NONE && tag.entity in old(entities)
                then old(entities)[tag.entity := old(entities)[tag.entity].(configurations := Without(old(entities)[tag.entity].configurations, id))]
                else old(entities)
    {
      if tag.venue != NONE && tag.venue in venues {
        venues := venues[tag.venue := venues[tag.venue].(configurations := Without(venues[tag.venue].configurations, id))];
      }
      if tag.entity != NONE && tag.entity in entities {
        entities := entities[tag.entity := entities[tag.entity].(configurations := Without(entities[tag.entity].configurations, id))];
      }
    }

    method EraseInventory(id: Id)
      requires InventoryDeleteAllowed(State(), id)
      modifies this`configurations, this`inventory, this`entities, this`venues
      ensures State() == InventoryDelete(old(State()), id)
    {
      var tag := inventory[id];
      EraseFromConfigurations(tag, id);
      DropOwnConfiguration(tag.deviceConfiguration);
      RemoveFromEntity(tag.entity, id);
      RemoveFromVenue(tag.venue, id);
      inventory := inventory - {id};
    }

    method FreeInventory(id: Id, subscriber: Id) returns (ok: bool)
      requires Valid() && Answered(State(), RemoveSubscriberRequest(id, subscriber))
      modifies this
      ensures Valid() && (old(InStep()) ==> (InStep() <==> StaysInStep(old(State()), RemoveSubscriberRequest(id, subscriber))))
      ensures State() == RemoveSubscriber(old(State()), id, subscriber)
      ensures ok <==> RemoveSubscriberAllowed(old(State()), id, subscriber)
      ensures ok ==> SubscriberRemoved(old(State()), State(), id, subscriber)
    {
      StepSane(State(), RemoveSubscriberRequest(id, subscriber));
      if RemoveSubscriberAllowed(State(), id, subscriber) {
        RemoveSubscriberGives(State(), id, subscriber);
        if InStep() {
          SubscriberDevices.RemoveSubscriberInStep(State(), id, subscriber);
        }
      }
      if id !in inventory || subscriber == NONE || inventory[id].subscriber != subscriber {
        return false;
      }
      ReleaseInventory(id, subscriber);
      return true;
    }

    method DeleteAllOf(subscriber: Id)
      modifies this`signups, this`subDevices
      ensures signups == map s | s in old(signups) && old(signups)[s].userId != subscriber :: old(signups)[s]
      ensures subDevices == map d | d in old(subDevices) && old(subDevices)[d].subscriberId != subscriber :: old(subDevices)[d]
    {
      signups := map s | s in signups && signups[s].userId != subscriber :: signups[s];
      subDevices := map d | d in subDevices && subDevices[d].subscriberId != subscriber :: subDevices[d];
    }

    method ReleaseInventory(id: Id, subscriber: Id)
      requires RemoveSubscriberAllowed(State(), id, subscriber)
      modifies this`configurations, this`inventory, this`entities, this`signups, this`subDevices
      ensures State() == RemoveSubscriber(old(State()), id, subscriber)
    {
      var existing := inventory[id];
      var c := existing.deviceConfiguration;
      if c in configurations {
        if configurations[c].subscriberOnly {
          configurations := configurations - {c};
        }
        existing := existing.(deviceConfiguration := NONE);
      }
      inventory := inventory[id := existing.(subscriber := NONE)];
      DeleteAllOf(subscriber);
      RemoveFromEntity("id", id);
    }

    // ---------------------------------------------------------------- subscriber devices

    method CreateInventoryRecord(d: SubscriberDevice, invRow: Id, newInv: Id, venueRow: Id)
      modifies this`inventory, this`venues
      ensures State() == SyncInventory(old(State()), d, invRow, newInv, venueRow)
    {
      if invRow != NONE && invRow in inventory {
        var record := inventory[invRow];
        var fromVenue := record.venue;
        record := record.(subscriber := d.subscriberId, deviceConfiguration := d.deviceConfiguration, rrm := d.rrm);
        if venueRow != NONE {
          record := record.(venue := venueRow);
        }
        inventory := inventory[invRow := record];
        RemoveFromVenue(fromVenue, invRow);
        AddToVenue(record.venue, invRow);
      } else {
        var record := InventoryTag(d.serialNumber, venueRow, NONE, d.subscriberId, d.deviceConfiguration, NONE, NONE, d.rrm);
        inventory := inventory[newInv := record];
        AddToVenue(record.venue, newInv);
      }
    }

    method PostSubDevice(id: Id, newConfig: Id, invRow: Id, newInv: Id, venueRow: Id, b: SubDeviceBody) returns (ok: bool)
      requires Valid() && Answered(State(), SubDevicePostRequest(id, newConfig, invRow, newInv, venueRow, b))
      modifies this
      ensures Valid() && (old(InStep()) ==> InStep())
      ensures State() == SubDevicePost(old(State()), id, newConfig, invRow, newInv, venueRow, b)
      ensures ok <==> SubDevicePostAllowed(old(State()), b)
      ensures ok ==> DevicePosted(old(State()), State(), id, newConfig, invRow, newInv, venueRow, b)
    {
      StepSane(State(), SubDevicePostRequest(id, newConfig, invRow, newInv, venueRow, b));
      if SubDevicePostAllowed(State(), b) {
        SubDevicePostGives(State(), id, newConfig, invRow, newInv, venueRow, b);
      }
      ok := DoPostSubDevice(id, newConfig, invRow, newInv, venueRow, b);
    }

    method DoPostSubDevice(id: Id, newConfig: Id, invRow: Id, newInv: Id, venueRow: Id, b: SubDeviceBody) returns (ok: bool)
      modifies this
      ensures State() == SubDevicePost(old(State()), id, newConfig, invRow, newInv, venueRow, b)
      ensures ok <==> SubDevicePostAllowed(old(State()), b)
    {
      if !SubDevicePostAllowed(State(), b) {
        return false;
      }
      var device := SubscriberDevice(b.serial, Update(NONE, b.subscriberId), b.group.value, Update(NONE, b.deviceConfiguration), Update("", b.rrm));
      if b.configuration.Elements? {
        configurations := configurations[newConfig := b.configuration.record];
        device := device.(deviceConfiguration := newConfig);
      }
      subDevices := subDevices[id := device];
      CreateInventoryRecord(device, invRow, newInv, venueRow);
      return true;
    }

    /** `UpdateConfiguration`: the configuration record first, then the device, then a configuration left behind. */
    method UpdateConfiguration(id: Id, newConfig: Id, b: SubDeviceBody) returns (updated: bool)
      requires id in subDevices
      modifies this`configurations, this`subDevices
      ensures State() == PutStored(old(State()), id, newConfig, b)
      ensures updated <==>
        var reference := PutReference(old(State()), old(subDevices[id]), newConfig, b);
        reference.updated || (b.deviceConfiguration.Some? && old(subDevices[id]).deviceConfiguration != reference.id)
    {
      var before := subDevices[id];
      var reference := Update(before.deviceConfiguration, b.deviceConfiguration);
      updated := false;
      if !b.configuration.Absent? {
        var effective := Update(NONE, b.deviceConfiguration);
        if effective == NONE {
          effective := before.deviceConfiguration;
        }
        if b.configuration.Empty? {
          updated := effective != NONE;
          reference := NONE;
        } else if effective != NONE && effective in configurations {
          var stored := configurations[effective];
          var written := stored.(elements := b.configuration.record.elements, deviceTypes := b.configuration.record.deviceTypes);
          if written != stored || !b.configuration.samePolicy {
            configurations := configurations[effective := written];
            updated := true;
          }
          reference := effective;
        } else {
          configurations := configurations[newConfig := b.configuration.record];
          reference := newConfig;
          updated := true;
        }
      }
      subDevices := subDevices[id := PutDevice(before, reference, b)];
      if !b.configuration.Absent? && before.deviceConfiguration != NONE && reference == NONE {
        configurations := configurations - {before.deviceConfiguration};
      }
      if b.deviceConfiguration.Some? && before.deviceConfiguration != reference {
        updated := true;
      }
    }

    method PutSubDevice(id: Id, newConfig: Id, invRow: Id, newInv: Id, venueRow: Id, b: SubDeviceBody) returns (ok: bool)
      requires Valid() && Answered(State(), SubDevicePutRequest(id, newConfig, invRow, newInv, venueRow, b))
      modifies this
      ensures Valid() && (old(InStep()) ==> InStep())
      ensures State() == SubDevicePut(old(State()), id, newConfig, invRow, newInv, venueRow, b)
      ensures ok <==> SubDevicePutAllowed(old(State()), id, b)
      ensures ok ==> DeviceChanged(old(State()), State(), id, newConfig, invRow, newInv, venueRow, b)
    {
      StepSane(State(), SubDevicePutRequest(id, newConfig, invRow, newInv, venueRow, b));
      if SubDevicePutAllowed(State(), id, b) {
        SubDevicePutGives(State(), id, newConfig, invRow, newInv, venueRow, b);
      }
      ok := DoPutSubDevice(id, newConfig, invRow, newInv, venueRow, b);
    }

    method DoPutSubDevice(id: Id, newConfig: Id, invRow: Id, newInv: Id, venueRow: Id, b: SubDeviceBody) returns (ok: bool)
      modifies this
      ensures State() == SubDevicePut(old(State()), id, newConfig, invRow, newInv, venueRow, b)
      ensures ok <==> SubDevicePutAllowed(old(State()), id, b)
    {
      if !SubDevicePutAllowed(State(), id, b) {
        return false;
      }
      var updated := UpdateConfiguration(id, newConfig, b);
      if updated || b.subscriberId.Some? || b.rrm.Some? || b.otherFields {
        CreateInventoryRecord(subDevices[id], invRow, newInv, venueRow);
      }
      return true;
    }

    method DeleteSubDevice(id: Id, invRow: Id, monitoringStopped: bool) returns (ok: bool)
      requires Valid() && Answered(State(), SubDeviceDeleteRequest(id, invRow, monitoringStopped))
      modifies this
      ensures Valid() && (old(InStep()) ==> InStep())
      ensures State() == SubDeviceDelete(old(State()), id, invRow, monitoringStopped)
      ensures ok <==> SubDeviceDeleteAllowed(old(State()), id, monitoringStopped)
      ensures ok ==> DeviceDeleted(old(State()), State(), id, invRow)
    {
      SubDeviceDeleteSane(State(), id, invRow, monitoringStopped);
      ok := DoDeleteSubDevice(id, invRow, monitoringStopped);
    }

    method DoDeleteSubDevice(id: Id, invRow: Id, monitoringStopped: bool) returns (ok: bool)
      modifies this
      ensures State() == SubDeviceDelete(old(State()), id, invRow, monitoringStopped)
      ensures ok <==> SubDeviceDeleteAllowed(old(State()), id, monitoringStopped)
    {
      if id !in subDevices {
        return false;
      }
      var device := subDevices[id];
      if device.group == Olg && HasOtherDevices(subDevices, device.subscriberId, id) {
        return false;
      }
      if !monitoringStopped {
        return false;
      }
      EraseSubDevice(id, invRow);
      return true;
    }

    method CleanupConfiguration(c: Id)
      modifies this`configurations
      ensures configurations == DropNamed(old(configurations), c)
    {
      if c == NONE {
        return;
      }
      configurations := configurations - {c};
    }

    method EraseSubDevice(id: Id, invRow: Id)
      requires SubDeviceDeleteAllowed(State(), id, true)
      modifies this`configurations, this`inventory, this`entities, this`venues, this`subDevices
      ensures State() == SubDeviceDelete(old(State()), id, invRow, true)
    {
      var device := subDevices[id];
      subDevices := subDevices - {id};
      CleanupConfiguration(device.deviceConfiguration);
      if invRow != NONE && invRow in inventory {
        var tag := inventory[invRow];
        RemoveFromEntity(tag.entity, invRow);
        RemoveFromVenue(tag.venue, invRow);
        CleanupConfiguration(tag.deviceConfiguration);
        inventory := inventory - {invRow};
      }
    }

    // ---------------------------------------------------------------- venues

    method PostVenue(id: Id, valid: bool, roleCreated: bool, v: Venue) returns (ok: bool)
      requires Valid() && Answered(State(), VenuePostRequest(id, valid, roleCreated, v))
      modifies this
      ensures Valid() && (old(InStep()) ==> InStep())
      ensures State() == VenuePost(old(State()), id, valid, roleCreated, v)
      ensures ok <==> VenuePostAllowed(old(State()), valid, v) && roleCreated
      ensures VenuePostAllowed(old(State()), valid, v) ==>
                if ok then VenuePosted(old(State()), State(), id, v) else VenueUndone(old(State()), State(), id, v)
    {
      VenuePostSane(State(), id, valid, roleCreated, v);
      ok := DoPostVenue(id, valid, roleCreated, v);
    }

    method DoPostVenue(id: Id, valid: bool, roleCreated: bool, v: Venue) returns (ok: bool)
      modifies this
      ensures State() == VenuePost(old(State()), id, valid, roleCreated, v)
      ensures ok <==> VenuePostAllowed(old(State()), valid, v) && roleCreated
    {
      if !valid || (v.parent == NONE && v.entity == NONE) || (v.parent != NONE && v.entity != NONE) {
        return false;
      }
      var record := v;
      if v.parent != NONE {
        if v.parent !in venues {
          return false;
        }
        record := record.(entity := venues[v.parent].entity);
      }
      if record.entity == ROOT || (record.entity != NONE && record.entity !in entities) {
        return false;
      }
      if VenueNameTaken(State(), v.name, record.entity, v.parent) {
        return false;
      }
      record := record.(children := []);
      venues := venues[id := record];
      entities := AddVenueTo(entities, record.entity, id);
      venues := AddChildVenue(venues, v.parent, id);
      if !roleCreated {
        venues := venues - {id};
        return false;
      }
      return true;
    }

    method PutVenue(id: Id, valid: bool, toEntity: Option<Id>, toParent: Option<Id>, rrm: Option<string>) returns (ok: bool)
      requires Valid() && Answered(State(), VenuePutRequest(id, valid, toEntity, toParent, rrm))
      modifies this
      ensures Valid() && (old(InStep()) ==> InStep())
      ensures State() == VenuePut(old(State()), id, valid, toEntity, toParent, rrm)
      ensures ok <==> VenuePutAllowed(old(State()), id, valid, toEntity, toParent)
      ensures ok ==> VenueMoved(old(State()), State(), id, toEntity, toParent, rrm)
    {
      StepSane(State(), VenuePutRequest(id, valid, toEntity, toParent, rrm));
      if VenuePutAllowed(State(), id, valid, toEntity, toParent) {
        VenuePutGives(State(), id, toEntity, toParent, rrm);
      }
      ok := DoPutVenue(id, valid, toEntity, toParent, rrm);
    }

    method DoPutVenue(id: Id, valid: bool, toEntity: Option<Id>, toParent: Option<Id>, rrm: Option<string>) returns (ok: bool)
      modifies this
      ensures State() == VenuePut(old(State()), id, valid, toEntity, toParent, rrm)
      ensures ok <==> VenuePutAllowed(old(State()), id, valid, toEntity, toParent)
    {
      if !valid || id !in venues {
        return false;
      }
      var existing := venues[id];
      var before := existing;
      existing := existing.(rrm := Update(existing.rrm, rrm));
      if toEntity.Some? {
        if toEntity.value == NONE || toEntity.value !in entities {
          return false;
        }
        existing := existing.(entity := toEntity.value);
      }
      if toParent.Some? {
        if toParent.value == NONE || toParent.value !in venues {
          return false;
        }
        existing := existing.(parent := toParent.value);
      }
      venues := venues[id := existing];
      if toEntity.Some? {
        entities := RemoveVenueFrom(entities, before.entity, id);
        entities := AddVenueTo(entities, toEntity.value, id);
      }
      if toParent.Some? {
        venues := RemoveChildVenue(venues, before.parent, id);
        venues := AddChildVenue(venues, toParent.value, id);
      }
      return true;
    }

    method DeleteVenue(id: Id) returns (ok: bool)
      requires Valid() && Answered(State(), VenueDeleteRequest(id))
      modifies this
      ensures Valid() && (old(InStep()) ==> InStep())
      ensures State() == VenueDelete(old(State()), id)
      ensures ok <==> VenueDeleteAllowed(old(State()), id)
      ensures ok && id != NONE ==> VenueDeleted(old(State()), State(), id)
    {
      StepSane(State(), VenueDeleteRequest(id));
      if id != NONE && VenueDeleteAllowed(State(), id) {
        VenueDeleteGives(State(), id);
      }
      ok := DoDeleteVenue(id);
    }

    method DoDeleteVenue(id: Id) returns (ok: bool)
      modifies this
      ensures State() == VenueDelete(old(State()), id)
      ensures ok <==> VenueDeleteAllowed(old(State()), id)
    {
      if id !in venues {
        return false;
      }
      var existing := venues[id];
      if existing.children != [] || existing.devices != [] {
        return false;
      }
      if existing.subscriber != NONE {
        return false;
      }
      venues := RemoveChildVenue(venues, existing.parent, id);
      entities := RemoveVenueFrom(entities, existing.entity, id);
      venues := venues - {id};
      return true;
    }

    // ---------------------------------------------------------------- entities and operators

    method PostEntity(id: Id, valid: bool, roleCreated: bool, e: Entity) returns (ok: bool)
      requires Valid() && Answered(State(), EntityPostRequest(id, valid, roleCreated, e))
      modifies this
      ensures Valid() && (old(InStep()) ==> InStep())
      ensures State() == EntityPost(old(State()), id, valid, roleCreated, e)
      ensures ok <==> EntityPostAllowed(old(State()), valid, e) && roleCreated
      ensures EntityPostAllowed(old(State()), valid, e) ==>
                if ok then EntityPosted(old(State()), State(), id, e) else EntityUndone(old(State()), State(), id, e)
    {
      EntityPostSane(State(), id, valid, roleCreated, e);
      ok := DoPostEntity(id, valid, roleCreated, e);
    }

    method DoPostEntity(id: Id, valid: bool, roleCreated: bool, e: Entity) returns (ok: bool)
      modifies this
      ensures State() == EntityPost(old(State()), id, valid, roleCreated, e)
      ensures ok <==> EntityPostAllowed(old(State()), valid, e) && roleCreated
    {
      if !valid || e.parent == NONE || e.parent !in entities {
        return false;
      }
      if e.parent != ROOT && entities[e.parent].operatorId == NONE {
        return false;
      }
      entities := entities[id := e.(venues := [], children := [], contacts := [], locations := [], operatorId := NONE)];
      entities := AddChildEntity(entities, e.parent, id);
      if !roleCreated {
        entities := entities - {id};
        return false;
      }
      return true;
    }

    method PutEntity(id: Id, valid: bool, rrm: Option<string>) returns (ok: bool)
      requires Valid() && Answered(State(), EntityPutRequest(id, valid, rrm))
      modifies this
      ensures Valid() && (old(InStep()) ==> InStep())
      ensures State() == EntityPut(old(State()), id, valid, rrm)
      ensures ok <==> valid && id in old(entities)
      ensures ok ==> EntityRuled(old(State()), State(), id, rrm)
    {
      StepSane(State(), EntityPutRequest(id, valid, rrm));
      if !valid || id !in entities {
        return false;
      }
      entities := entities[id := entities[id].(rrm := Update(entities[id].rrm, rrm))];
      return true;
    }

    method DeleteEntity(id: Id) returns (ok: bool)
      requires Valid() && Answered(State(), EntityDeleteRequest(id))
      modifies this
      ensures Valid() && (old(InStep()) ==> InStep())
      ensures State() == EntityDelete(old(State()), id)
      ensures ok <==> EntityDeleteAllowed(old(State()), id)
      ensures ok ==> EntityDeleted(old(State()), State(), id)
    {
      EntityDeleteSane(State(), id);
      ok := DoDeleteEntity(id);
    }

    method DoDeleteEntity(id: Id) returns (ok: bool)
      modifies this
      ensures State() == EntityDelete(old(State()), id)
      ensures ok <==> EntityDeleteAllowed(old(State()), id)
    {
      if id !in entities || id == ROOT || entities[id].operatorId != NONE || !Unused(entities[id]) {
        return false;
      }
      var parent := entities[id].parent;
      entities := entities - {id};
      entities := RemoveChildEntity(entities, parent, id);
      return true;
    }

    method PostOperator(id: Id, entityId: Id, valid: bool, registrationId: string, rrm: string) returns (ok: bool)
      requires Valid() && Answered(State(), OperatorPostRequest(id, entityId, valid, registrationId, rrm))
      modifies this
      ensures Valid() && (old(InStep()) ==> InStep())
      ensures State() == OperatorPost(old(State()), id, entityId, valid, registrationId, rrm)
      ensures ok <==> OperatorPostAllowed(old(State()), valid, registrationId)
      ensures ok ==> OperatorPosted(old(State()), State(), id, entityId, registrationId, rrm)
    {
      StepSane(State(), OperatorPostRequest(id, entityId, valid, registrationId, rrm));
      if OperatorPostAllowed(State(), valid, registrationId) {
        OperatorPostGives(State(), id, entityId, registrationId, rrm);
      }
      ok := DoPostOperator(id, entityId, valid, registrationId, rrm);
    }

    method DoPostOperator(id: Id, entityId: Id, valid: bool, registrationId: string, rrm: string) returns (ok: bool)
      modifies this
      ensures State() == OperatorPost(old(State()), id, entityId, valid, registrationId, rrm)
      ensures ok <==> OperatorPostAllowed(old(State()), valid, registrationId)
    {
      if !OperatorPostAllowed(State(), valid, registrationId) {
        return false;
      }
      entities := entities[entityId := Entity(ROOT, [], [], [], [], [], [], [], id, "")];
      entities := AddChildEntity(entities, ROOT, entityId);
      operators := operators[id := Operator(Lower(registrationId), entityId, false, rrm)];
      return true;
    }

    method PutOperator(id: Id, valid: bool, rrm: Option<string>) returns (ok: bool)
      requires Valid() && Answered(State(), OperatorPutRequest(id, valid, rrm))
      modifies this
      ensures Valid() && (old(InStep()) ==> InStep())
      ensures State() == OperatorPut(old(State()), id, valid, rrm)
      ensures ok <==> valid && id in old(operators)
      ensures ok ==> OperatorRuled(old(State()), State(), id, rrm)
    {
      StepSane(State(), OperatorPutRequest(id, valid, rrm));
      if !valid || id !in operators {
        return false;
      }
      operators := operators[id := operators[id].(rrm := Update(operators[id].rrm, rrm))];
      return true;
    }

    method DeleteOperator(id: Id, linkRow: Id) returns (ok: bool)
      requires Valid() && Answered(State(), OperatorDeleteRequest(id, linkRow))
      modifies this
      ensures Valid() && (old(InStep()) ==> InStep())
      ensures State() == OperatorDelete(old(State()), id, linkRow)
      ensures ok <==> OperatorDeleteAllowed(old(State()), id, linkRow)
      ensures ok ==> OperatorDeleted(old(State()), State(), id)
    {
      StepSane(State(), OperatorDeleteRequest(id, linkRow));
      if OperatorDeleteAllowed(State(), id, linkRow) {
        OperatorDeleteGives(State(), id, linkRow);
      }
      ok := DoDeleteOperator(id, linkRow);
    }

    method DoDeleteOperator(id: Id, linkRow: Id) returns (ok: bool)
      modifies this
      ensures State() == OperatorDelete(old(State()), id, linkRow)
      ensures ok <==> OperatorDeleteAllowed(old(State()), id, linkRow)
    {
      if id !in operators || operators[id].defaultOperator {
        return false;
      }
      if exists s :: s in signups && signups[s].operatorId == id {
        return false;
      }
      var e := LinkedEntity(State(), operators[id], linkRow);
      if e != NONE && e in entities {
        var linked := entities[e];
        if e == ROOT || (linked.operatorId != NONE && linked.operatorId != id) || !Unused(linked) {
          return false;
        }
        entities := entities - {e};
        entities := RemoveChildEntity(entities, linked.parent, e);
      }
      operators := operators - {id};
      return true;
    }

    // ---------------------------------------------------------------- sign-ups

    method CreateSubscriberVenue(entity: Id, email: string, userId: Id, newVenue: Id)
      modifies this`venues, this`entities
      ensures State() == SubscriberVenue(old(State()), entity, email, userId, newVenue)
    {
      if !VenueNameTaken(State(), email, entity, NONE) {
        venues := venues[newVenue := Venue(email, entity, NONE, [], [], [], userId, "")];
        entities := AddVenueTo(entities, entity, newVenue);
      }
    }

    /** The answer says whether a row was made or reused. */
    method PostSignup(r: SignupRequest) returns (ok: bool)
      requires Valid() && Answered(State(), SignupPostRequest(r))
      modifies this
      ensures Valid() && (old(InStep()) ==> InStep())
      ensures State() == SignupPost(old(State()), r)
      ensures ok <==> SignupNew(old(State()), r) || SignupResent(old(State()), r)
      ensures ok ==> SignupPosted(old(State()), State(), r)
    {
      StepSane(State(), SignupPostRequest(r));
      if SignupNew(State(), r) || SignupResent(State(), r) {
        SignupPostGives(State(), r);
      }
      ok := DoPostSignup(r);
    }

    method DoPostSignup(r: SignupRequest) returns (ok: bool)
      requires r.emailRow != NONE ==> r.emailRow in signups
      modifies this
      ensures State() == SignupPost(old(State()), r)
      ensures ok <==> SignupNew(old(State()), r) || SignupResent(old(State()), r)
    {
      if !SignupPossible(State(), r) {
        return false;
      }
      var email, entity := Normalise(r.email), operators[r.opRow].entityId;
      if r.emailRow != NONE {
        var existing := signups[r.emailRow];
        if existing.operatorId != r.opRow || existing.statusCode != WAITING_FOR_EMAIL || !r.resend || !r.securityOk {
          return false;
        }
        CreateSubscriberVenue(entity, email, existing.userId, r.newVenue);
        return true;
      }
      if !r.securityOk || r.userRow != NONE {
        return false;
      }
      signups := signups[r.newSignup := SignupEntry(email, r.userId, r.opRow, WAITING_FOR_EMAIL)];
      CreateSubscriberVenue(entity, email, r.userId, r.newVenue);
      return true;
    }

    method PutSignup(row: Id, emailVerified: bool)
      requires Valid() && Answered(State(), SignupPutRequest(row, emailVerified))
      modifies this
      ensures Valid() && (old(InStep()) ==> InStep())
      ensures State() == SignupPut(old(State()), row, emailVerified)
      ensures SignupMoved(old(State()), State(), row, emailVerified)
      ensures forall s :: s in old(signups) ==> s in signups && Signups.Forward(old(signups)[s], signups[s])
    {
      SignupPutSane(State(), row, emailVerified);
      MovedIsForward(State(), SignupPut(State(), row, emailVerified), row, emailVerified);
      DoPutSignup(row, emailVerified);
    }

    method DoPutSignup(row: Id, emailVerified: bool)
      modifies this
      ensures State() == SignupPut(old(State()), row, emailVerified)
    {
      if row in signups && emailVerified && signups[row].statusCode == WAITING_FOR_EMAIL {
        signups := signups[row := signups[row].(statusCode := WAITING_FOR_DEVICE)];
      }
    }

    /** The venues go one by one; the first with devices ends the request. */
    method DeleteSignup(subscriber: Id, row: Id, rows: seq<Id>, securityOk: bool) returns (ok: bool)
      requires Valid() && Answered(State(), SignupDeleteRequest(subscriber, row, rows, securityOk))
      modifies this
      ensures Valid() && (old(InStep()) ==> InStep())
      ensures State() == SignupDelete(old(State()), subscriber, row, rows, securityOk)
      ensures ok <==> SignupDeleteAllowed(old(State()), subscriber, row) && securityOk && AllEmpty(old(State()), rows)
      ensures SignupDeleteAllowed(old(State()), subscriber, row) ==>
                if ok then SignupDeleted(old(State()), State(), row, rows) else SignupHalted(old(State()), State(), rows)
    {
      SignupDeleteSane(State(), subscriber, row, rows, securityOk);
      ok := DoDeleteSignup(subscriber, row, rows, securityOk);
    }

    method DoDeleteSignup(subscriber: Id, row: Id, rows: seq<Id>, securityOk: bool) returns (ok: bool)
      requires forall i :: 0 <= i < |rows| ==> rows[i] in venues
      requires forall i, j :: 0 <= i < j < |rows| ==> rows[i] != rows[j]
      modifies this
      ensures State() == SignupDelete(old(State()), subscriber, row, rows, securityOk)
      ensures ok <==> SignupDeleteAllowed(old(State()), subscriber, row) && securityOk && AllEmpty(old(State()), rows)
    {
      if !SignupDeleteAllowed(State(), subscriber, row) {
        return false;
      }
      ghost var goal := DropVenues(State(), rows);
      for i := 0 to |rows|
        invariant DropVenues(State(), rows[i..]) == goal
        invariant forall k :: i <= k < |rows| ==> rows[k] in venues && venues[rows[k]] == old(venues)[rows[k]]
        invariant forall k :: 0 <= k < i ==> old(venues)[rows[k]].devices == []
        invariant signups == old(signups)
      {
        assert rows[i..][1..] == rows[i + 1..];
        if venues[rows[i]].devices != [] {
          return false;
        }
        entities := RemoveVenueFrom(entities, venues[rows[i]].entity, rows[i]);
        venues := venues - {rows[i]};
      }
      if !securityOk {
        return false;
      }
      signups := signups - {row};
      return true;
    }

    // ---------------------------------------------------------------- requests

    method HandleDevices(r: Request)
      requires Valid() && Answered(State(), r)
      requires r.InventoryPostRequest? || r.InventoryPutRequest? || r.InventoryDeleteRequest?
               || r.RemoveSubscriberRequest? || r.SubDevicePostRequest? || r.SubDevicePutRequest?
               || r.SubDeviceDeleteRequest?
      modifies this
      ensures Valid() && (old(InStep()) && StaysInStep(old(State()), r) ==> InStep())
      ensures State() == Step(old(State()), r)
    {
      if r.InventoryPostRequest? {
        var _ := PostInventory(r.id, r.newConfig, r.serial, r.inventory);
      } else if r.InventoryPutRequest? {
        var _ := PutInventory(r.id, r.newConfig, r.subRow, r.inventory);
      } else if r.InventoryDeleteRequest? {
        var _ := DeleteInventory(r.id);
      } else if r.RemoveSubscriberRequest? {
        var _ := FreeInventory(r.id, r.subscriber);
      } else if r.SubDevicePostRequest? {
        var _ := PostSubDevice(r.id, r.newConfig, r.invRow, r.newInv, r.venueRow, r.device);
      } else if r.SubDevicePutRequest? {
        var _ := PutSubDevice(r.id, r.newConfig, r.invRow, r.newInv, r.venueRow, r.device);
      } else if r.SubDeviceDeleteRequest? {
        var _ := DeleteSubDevice(r.id, r.invRow, r.monitoringStopped);
      }
    }

    method HandleVenues(r: Request)
      requires Valid() && Answered(State(), r)
      requires r.VenuePostRequest? || r.VenuePutRequest? || r.VenueDeleteRequest?
      modifies this
      ensures Valid() && (old(InStep()) && StaysInStep(old(State()), r) ==> InStep())
      ensures State() == Step(old(State()), r)
    {
      if r.VenuePostRequest? {
        var _ := PostVenue(r.id, r.valid, r.roleCreated, r.venue);
      } else if r.VenuePutRequest? {
        var _ := PutVenue(r.id, r.valid, r.toEntity, r.toParent, r.rrm);
      } else if r.VenueDeleteRequest? {
        var _ := DeleteVenue(r.id);
      }
    }

    method HandleEntities(r: Request)
      requires Valid() && Answered(State(), r)
      requires r.EntityPostRequest? || r.EntityPutRequest? || r.EntityDeleteRequest?
      modifies this
      ensures Valid() && (old(InStep()) && StaysInStep(old(State()), r) ==> InStep())
      ensures State() == Step(old(State()), r)
    {
      if r.EntityPostRequest? {
        var _ := PostEntity(r.id, r.valid, r.roleCreated, r.entity);
      } else if r.EntityPutRequest? {
        var _ := PutEntity(r.id, r.valid, r.rrm);
      } else if r.EntityDeleteRequest? {
        var _ := DeleteEntity(r.id);
      }
    }

    method HandleOperators(r: Request)
      requires Valid() && Answered(State(), r)
      requires r.OperatorPostRequest? || r.OperatorPutRequest? || r.OperatorDeleteRequest?
      modifies this
      ensures Valid() && (old(InStep()) && StaysInStep(old(State()), r) ==> InStep())
      ensures State() == Step(old(State()), r)
    {
      if r.OperatorPostRequest? {
        var _ := PostOperator(r.id, r.entityId, r.valid, r.registrationId, r.opRrm);
      } else if r.OperatorPutRequest? {
        var _ := PutOperator(r.id, r.valid, r.rrm);
      } else if r.OperatorDeleteRequest? {
        var _ := DeleteOperator(r.id, r.linkRow);
      }
    }

    method HandleSignups(r: Request)
      requires Valid() && Answered(State(), r)
      requires r.SignupPostRequest? || r.SignupPutRequest?
      modifies this
      ensures Valid() && (old(InStep()) && StaysInStep(old(State()), r) ==> InStep())
      ensures State() == Step(old(State()), r)
    {
      if r.SignupPostRequest? {
        var _ := PostSignup(r.signup);
      } else if r.SignupPutRequest? {
        PutSignup(r.row, r.emailVerified);
      }
    }

    method HandleSignupDelete(r: Request)
      requires Valid() && Answered(State(), r) && r.SignupDeleteRequest?
      modifies this
      ensures Valid() && (old(InStep()) && StaysInStep(old(State()), r) ==> InStep())
      ensures State() == Step(old(State()), r)
    {
      var _ := DeleteSignup(r.subscriber, r.row, r.rows, r.securityOk);
    }

    method Handle(r: Request)
      requires Valid() && Answered(State(), r)
      modifies this
      ensures Valid() && (old(InStep()) && StaysInStep(old(State()), r) ==> InStep())
      ensures State() == Step(old(State()), r)
    {
      if r.InventoryPostRequest? || r.InventoryPutRequest? || r.InventoryDeleteRequest?
               || r.RemoveSubscriberRequest? || r.SubDevicePostRequest? || r.SubDevicePutRequest?
               || r.SubDeviceDeleteRequest? {
        HandleDevices(r);
      } else if r.SignupPostRequest? || r.SignupPutRequest? {
        HandleSignups(r);
      } else if r.SignupDeleteRequest? {
        HandleSignupDelete(r);
      } else if r.VenuePostRequest? || r.VenuePutRequest? || r.VenueDeleteRequest? {
        HandleVenues(r);
      } else if r.EntityPostRequest? || r.EntityPutRequest? || r.EntityDeleteRequest? {
        HandleEntities(r);
      } else {
        HandleOperators(r);
      }
    }

    /** Requests run one at a time; whatever they are, the invariants stay, and devices and inventory stay in step as long as
        records are freed cleanly. */
    method Serve(rs: seq<Request>)
      requires Valid() && RunAnswered(State(), rs)
      modifies this
      ensures Valid() && State() == Run(old(State()), rs)
      ensures old(InStep()) && SubscriberDevices.CleanRun(old(State()), rs) ==> InStep()
    {
      ghost var start := State();
      RunSane(start, rs);
      for i := 0 to |rs|
        invariant Valid() && RunAnswered(State(), rs[i..]) && Run(State(), rs[i..]) == Run(start, rs)
      {
        assert rs[i..][0] == rs[i] && rs[i..][1..] == rs[i + 1..];
        Handle(rs[i]);
      }
    }
  }
}
