/** No request leaves a device placement dangling: a record that names a venue or an entity
names an existing one whose list of devices has the record. */
module Placement {
  import opened Tables
  import opened Handlers

  ghost predicate InVenue(db: Db, t: Id)
    requires t in db.inventory
  {
    var v := db.inventory[t].venue;
    v != NONE ==> v in db.venues && t in db.venues[v].devices
  }

  ghost predicate InEntity(db: Db, t: Id)
    requires t in db.inventory
  {
    var e := db.inventory[t].entity;
    e != NONE ==> e in db.entities && t in db.entities[e].devices
  }

  ghost predicate Placed(db: Db) {
    && "id" !in db.entities
    && forall t :: t in db.inventory ==> InVenue(db, t) && InEntity(db, t)
  }

  lemma InventoryPostPlaced(db: Db, id: Id, newConfig: Id, serial: string, b: InventoryBody)
    requires Placed(db) && Fresh(db, id)
    ensures Placed(InventoryPost(db, id, newConfig, serial, b))
  {
  }

  /** Leaving one venue and joining another keeps the membership of every other device. */
  lemma MoveVenueMembers(venues: map<Id, Venue>, from: Id, to: Id, device: Id)
    ensures var r := JoinVenue(LeaveVenue(venues, from, device), to, device);
      && r.Keys == venues.Keys
      && (forall v, t :: v in venues && t in venues[v].devices && t != device ==> t in r[v].devices)
      && (to != NONE && to in venues ==> device in r[to].devices)
  {
    var left := LeaveVenue(venues, from, device);
    assert forall v, t :: v in venues && t in venues[v].devices && t != device ==> t in left[v].devices;
  }

  lemma MoveEntityMembers(entities: map<Id, Entity>, from: Id, to: Id, device: Id)
    ensures var r := JoinEntity(LeaveEntity(entities, from, device), to, device);
      && r.Keys == entities.Keys
      && (forall e, t :: e in entities && t in entities[e].devices && t != device ==> t in r[e].devices)
      && (to != NONE && to in entities ==> device in r[to].devices)
  {
    var left := LeaveEntity(entities, from, device);
    assert forall e, t :: e in entities && t in entities[e].devices && t != device ==> t in left[e].devices;
  }

  lemma InventoryPutPlaced(db: Db, id: Id, newConfig: Id, subRow: Id, b: InventoryBody)
    requires Placed(db)
    ensures Placed(InventoryPut(db, id, newConfig, subRow, b))
  {
    if InventoryPutAllowed(db, id, b) {
      var before, after := db.inventory[id], InventoryPut(db, id, newConfig, subRow, b);
      MoveVenueMembers(db.venues, before.venue, Update(NONE, b.venue), id);
      MoveEntityMembers(db.entities, before.entity, Update(NONE, b.entity), id);
      forall t | t in after.inventory ensures InVenue(after, t) && InEntity(after, t) {
        assert InVenue(db, t) && InEntity(db, t);
      }
    }
  }

  lemma InventoryDeletePlaced(db: Db, id: Id)
    requires Placed(db)
    ensures Placed(InventoryDelete(db, id))
  {
  }

  lemma RemoveSubscriberPlaced(db: Db, id: Id, subscriber: Id)
    requires Placed(db)
    ensures Placed(RemoveSubscriber(db, id, subscriber))
  {
  }

  lemma SyncInventoryPlaced(db: Db, d: SubscriberDevice, invRow: Id, newInv: Id, venueRow: Id)
    requires Placed(db) && VenueRow(db, d.subscriberId, venueRow) && newInv !in db.inventory
    ensures Placed(SyncInventory(db, d, invRow, newInv, venueRow))
  {
    var after := SyncInventory(db, d, invRow, newInv, venueRow);
    if invRow != NONE && invRow in db.inventory {
      var before := db.inventory[invRow];
      assert InVenue(db, invRow);
      MoveVenueMembers(db.venues, before.venue, if venueRow != NONE then venueRow else before.venue, invRow);
    } else {
      MoveVenueMembers(db.venues, NONE, venueRow, newInv);
    }
    forall t | t in after.inventory ensures InVenue(after, t) && InEntity(after, t) {
      assert t in db.inventory ==> InVenue(db, t) && InEntity(db, t);
    }
  }

  lemma SubDevicePostPlaced(db: Db, id: Id, newConfig: Id, invRow: Id, newInv: Id, venueRow: Id, b: SubDeviceBody)
    requires Placed(db) && Answered(db, SubDevicePostRequest(id, newConfig, invRow, newInv, venueRow, b))
    ensures Placed(SubDevicePost(db, id, newConfig, invRow, newInv, venueRow, b))
  {
    if SubDevicePostAllowed(db, b) {
      SyncInventoryPlaced(PostStored(db, id, newConfig, b), PostedDevice(newConfig, b), invRow, newInv, venueRow);
    }
  }

  lemma SubDevicePutPlaced(db: Db, id: Id, newConfig: Id, invRow: Id, newInv: Id, venueRow: Id, b: SubDeviceBody)
    requires Placed(db) && Answered(db, SubDevicePutRequest(id, newConfig, invRow, newInv, venueRow, b))
    ensures Placed(SubDevicePut(db, id, newConfig, invRow, newInv, venueRow, b))
  {
    if SubDevicePutAllowed(db, id, b) {
      var stored := PutStored(db, id, newConfig, b);
      SyncInventoryPlaced(stored, stored.subDevices[id], invRow, newInv, venueRow);
    }
  }

  lemma SubDeviceDeletePlaced(db: Db, id: Id, invRow: Id, stopped: bool)
    requires Placed(db)
    ensures Placed(SubDeviceDelete(db, id, invRow, stopped))
  {
  }

  lemma VenuePostPlaced(db: Db, id: Id, valid: bool, roleCreated: bool, v: Venue)
    requires Placed(db) && Fresh(db, id)
    ensures Placed(VenuePost(db, id, valid, roleCreated, v))
  {
  }

  lemma VenuePutPlaced(db: Db, id: Id, valid: bool, entity: Option<Id>, parent: Option<Id>, rrm: Option<string>)
    requires Placed(db)
    ensures Placed(VenuePut(db, id, valid, entity, parent, rrm))
  {
    VenuePutVenues(db, id, valid, entity, parent, rrm);
    VenuePutEntities(db, id, valid, entity, parent, rrm);
    SameListsPlaced(db, VenuePut(db, id, valid, entity, parent, rrm));
  }

  lemma VenuePutVenues(db: Db, id: Id, valid: bool, entity: Option<Id>, parent: Option<Id>, rrm: Option<string>)
    ensures var after := VenuePut(db, id, valid, entity, parent, rrm);
      && after.inventory == db.inventory
      && forall v :: v in db.venues ==> v in after.venues && after.venues[v].devices == db.venues[v].devices
  {
  }

  lemma VenuePutEntities(db: Db, id: Id, valid: bool, entity: Option<Id>, parent: Option<Id>, rrm: Option<string>)
    ensures var after := VenuePut(db, id, valid, entity, parent, rrm);
      && after.entities.Keys == db.entities.Keys
      && forall e :: e in db.entities ==> after.entities[e].devices == db.entities[e].devices
  {
  }

  /** Where no list of devices changes, nothing loses its place. */
  lemma SameListsPlaced(db: Db, after: Db)
    requires Placed(db) && after.inventory == db.inventory && "id" !in after.entities
    requires forall v :: v in db.venues ==> v in after.venues && after.venues[v].devices == db.venues[v].devices
    requires forall e :: e in db.entities ==> e in after.entities && after.entities[e].devices == db.entities[e].devices
    ensures Placed(after)
  {
    forall t | t in after.inventory ensures InVenue(after, t) && InEntity(after, t) {
      assert InVenue(db, t) && InEntity(db, t);
    }
  }

  lemma VenueDeletePlaced(db: Db, id: Id)
    requires Placed(db)
    ensures Placed(VenueDelete(db, id))
  {
  }

  lemma EntityStepsPlaced(db: Db, id: Id, valid: bool, roleCreated: bool, e: Entity)
    requires Placed(db)
    ensures Fresh(db, id) ==> Placed(EntityPost(db, id, valid, roleCreated, e))
    ensures Placed(EntityDelete(db, id))
  {
  }

  lemma OperatorStepsPlaced(db: Db, id: Id, entityId: Id, valid: bool, registrationId: string, rrm: string, linkRow: Id)
    requires Placed(db)
    ensures Fresh(db, entityId) ==> Placed(OperatorPost(db, id, entityId, valid, registrationId, rrm))
    ensures Placed(OperatorDelete(db, id, linkRow))
  {
  }

  lemma SignupPostPlaced(db: Db, r: SignupRequest)
    requires Placed(db) && Fresh(db, r.newVenue)
    ensures Placed(SignupPost(db, r))
  {
    var email := Normalise(r.email);
    if SignupNew(db, r) {
      var stored := db.(signups := db.signups[r.newSignup := SignupEntry(email, r.userId, r.opRow, WAITING_FOR_EMAIL)]);
      SubscriberVenuePlaced(stored, db.operators[r.opRow].entityId, email, r.userId, r.newVenue);
    } else if SignupResent(db, r) {
      SubscriberVenuePlaced(db, db.operators[r.opRow].entityId, email, db.signups[r.emailRow].userId, r.newVenue);
    }
  }

  lemma SubscriberVenuePlaced(db: Db, entity: Id, email: string, userId: Id, newVenue: Id)
    requires Placed(db) && newVenue !in db.venues
    ensures Placed(SubscriberVenue(db, entity, email, userId, newVenue))
  {
    SameListsPlaced(db, SubscriberVenue(db, entity, email, userId, newVenue));
  }

  lemma {:induction false} DropVenuesPlaced(db: Db, rows: seq<Id>)
    requires Placed(db)
    ensures Placed(DropVenues(db, rows))
    decreases |rows|
  {
    if rows != [] && rows[0] in db.venues && db.venues[rows[0]].devices == [] {
      DropVenuesPlaced(db.(entities := RemoveVenueFrom(db.entities, db.venues[rows[0]].entity, rows[0]),
                           venues := db.venues - {rows[0]}), rows[1..]);
    }
  }

  lemma DeviceStepPlaced(db: Db, r: Request)
    requires Placed(db) && Answered(db, r)
    requires r.InventoryPostRequest? || r.InventoryPutRequest? || r.InventoryDeleteRequest? || r.RemoveSubscriberRequest?
             || r.SubDevicePostRequest? || r.SubDevicePutRequest? || r.SubDeviceDeleteRequest?
    ensures Placed(Step(db, r))
  {
    if r.InventoryPostRequest? {
      InventoryPostPlaced(db, r.id, r.newConfig, r.serial, r.inventory);
    } else if r.InventoryPutRequest? {
      InventoryPutPlaced(db, r.id, r.newConfig, r.subRow, r.inventory);
    } else if r.InventoryDeleteRequest? {
      InventoryDeletePlaced(db, r.id);
    } else if r.RemoveSubscriberRequest? {
      RemoveSubscriberPlaced(db, r.id, r.subscriber);
    } else if r.SubDevicePostRequest? {
      SubDevicePostPlaced(db, r.id, r.newConfig, r.invRow, r.newInv, r.venueRow, r.device);
    } else if r.SubDevicePutRequest? {
      SubDevicePutPlaced(db, r.id, r.newConfig, r.invRow, r.newInv, r.venueRow, r.device);
    } else {
      SubDeviceDeletePlaced(db, r.id, r.invRow, r.monitoringStopped);
    }
  }

  /** Every request keeps all placements. */
  lemma StepPlaced(db: Db, r: Request)
    requires Placed(db) && Answered(db, r)
    ensures Placed(Step(db, r))
  {
    if r.InventoryPostRequest? || r.InventoryPutRequest? || r.InventoryDeleteRequest? || r.RemoveSubscriberRequest?
       || r.SubDevicePostRequest? || r.SubDevicePutRequest? || r.SubDeviceDeleteRequest? {
      DeviceStepPlaced(db, r);
    } else if r.VenuePostRequest? {
      VenuePostPlaced(db, r.id, r.valid, r.roleCreated, r.venue);
    } else if r.VenuePutRequest? {
      VenuePutPlaced(db, r.id, r.valid, r.toEntity, r.toParent, r.rrm);
    } else if r.VenueDeleteRequest? {
      VenueDeletePlaced(db, r.id);
    } else if r.EntityPostRequest? {
      EntityStepsPlaced(db, r.id, r.valid, r.roleCreated, r.entity);
    } else if r.EntityDeleteRequest? {
      EntityStepsPlaced(db, r.id, true, true, Entity(NONE, [], [], [], [], [], [], [], NONE, ""));
    } else if r.OperatorPostRequest? {
      OperatorStepsPlaced(db, r.id, r.entityId, r.valid, r.registrationId, r.opRrm, NONE);
    } else if r.OperatorDeleteRequest? {
      OperatorStepsPlaced(db, r.id, ROOT, false, "", "", r.linkRow);
    } else if r.SignupPostRequest? {
      SignupPostPlaced(db, r.signup);
    } else if r.SignupDeleteRequest? {
      DropVenuesPlaced(db, r.rows);
    }
  }

  /** Over every run of requests, no placement dangles. */
  lemma {:induction false} RunPlaced(db: Db, rs: seq<Request>)
    requires Placed(db) && RunAnswered(db, rs)
    ensures Placed(Run(db, rs))
    decreases |rs|
  {
    if rs != [] {
      StepPlaced(db, rs[0]);
      RunPlaced(Step(db, rs[0]), rs[1..]);
    }
  }
}
