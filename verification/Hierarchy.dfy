/** The entity tree stays two levels deep, and operators and their entities stay paired. */
module Hierarchy {
  import opened Tables
  import opened Handlers
  import ApConfig
  import SubscriberDevices

  type Entities = map<Id, Entity>
  type Operators = map<Id, Operator>

  /** Entity `e` hangs under the root or under an operator's entity, and its parent lists it. */
  ghost predicate Hangs(es: Entities, e: Id)
    requires e in es
  {
    var p := es[e].parent;
    && p in es && e in es[p].children
    && (p == ROOT || (es[p].operatorId != NONE && es[e].operatorId == NONE))
  }

  ghost predicate Tree(es: Entities) {
    && NONE !in es && ROOT in es && es[ROOT].parent == NONE && es[ROOT].operatorId == NONE
    && forall e :: e in es && e != ROOT ==> Hangs(es, e)
  }

  /** Non-default operators and entities with an operator refer to each other; default ones to the root. */
  ghost predicate Paired(es: Entities, ops: Operators) {
    && NONE !in ops
    && (forall o :: o in ops && !ops[o].defaultOperator ==> ops[o].entityId in es && es[ops[o].entityId].operatorId == o)
    && (forall o :: o in ops && ops[o].defaultOperator ==> ops[o].entityId == ROOT)
    && (forall e :: e in es && es[e].operatorId != NONE ==>
          es[e].operatorId in ops && !ops[es[e].operatorId].defaultOperator && ops[es[e].operatorId].entityId == e)
  }

  ghost predicate Ordered(db: Db) { Tree(db.entities) && Paired(db.entities, db.operators) }

  datatype Link = Link(parent: Id, children: seq<Id>, operatorId: Id)

  function LinkOf(e: Entity): Link { Link(e.parent, e.children, e.operatorId) }

  /** The parents, children and operators of all entities. */
  function Shape(es: Entities): (r: map<Id, Link>) { map e | e in es :: LinkOf(es[e]) }

  lemma SameShapeOrdered(es: Entities, after: Entities, ops: Operators)
    requires Tree(es) && Paired(es, ops) && Shape(es) == Shape(after)
    ensures Tree(after) && Paired(after, ops)
  {
    SameLinks(es, after);
    forall e | e in after && e != ROOT ensures Hangs(after, e) {
      assert Hangs(es, e);
    }
  }

  lemma SameLinks(es: Entities, after: Entities)
    requires Shape(es) == Shape(after)
    ensures es.Keys == after.Keys && forall e :: e in es ==> LinkOf(es[e]) == LinkOf(after[e])
  {
    assert Shape(es).Keys == es.Keys && Shape(after).Keys == after.Keys;
    forall e | e in es ensures LinkOf(es[e]) == LinkOf(after[e]) {
      assert Shape(es)[e] == Shape(after)[e];
    }
  }

  /** Writing a record with the same links changes no link. */
  lemma Rewritten(es: Entities, e: Id, record: Entity)
    requires e in es && LinkOf(record) == LinkOf(es[e])
    ensures Shape(es[e := record]) == Shape(es)
  {
  }

  /** What an entity joins as: listed by its parent, with or without an operator. */
  lemma AddedEntity(es: Entities, id: Id, e: Entity)
    requires Tree(es) && id !in es && id != NONE && e.parent in es && e.children == []
    requires e.parent == ROOT || (es[e.parent].operatorId != NONE && e.operatorId == NONE)
    ensures Tree(AddChildEntity(es[id := e], e.parent, id))
  {
    var after := AddChildEntity(es[id := e], e.parent, id);
    forall x | x in after && x != ROOT ensures Hangs(after, x) {
      assert x != id ==> Hangs(es, x);
    }
  }

  /** A rolled-back creation leaves only a list entry behind. */
  lemma RolledBackEntity(es: Entities, id: Id, e: Entity)
    requires Tree(es) && id !in es && id != NONE && e.parent in es
    ensures Tree(AddChildEntity(es[id := e], e.parent, id) - {id})
  {
    var after := AddChildEntity(es[id := e], e.parent, id) - {id};
    forall x | x in after && x != ROOT ensures Hangs(after, x) {
      assert Hangs(es, x);
    }
  }

  /** An entity without children can go: nothing hangs under it. */
  lemma RemovedEntity(es: Entities, id: Id)
    requires Tree(es) && id in es && id != ROOT && es[id].children == []
    ensures Tree(RemoveChildEntity(es - {id}, es[id].parent, id))
  {
    var after := RemoveChildEntity(es - {id}, es[id].parent, id);
    forall x | x in after && x != ROOT ensures Hangs(after, x) {
      assert Hangs(es, x);
    }
  }

  lemma EntityPostOrdered(db: Db, id: Id, valid: bool, roleCreated: bool, e: Entity)
    requires Ordered(db) && Fresh(db, id)
    ensures Ordered(EntityPost(db, id, valid, roleCreated, e))
  {
    if EntityPostAllowed(db, valid, e) {
      var record := e.(children := [], venues := [], contacts := [], locations := [], operatorId := NONE);
      AddedEntity(db.entities, id, record);
      RolledBackEntity(db.entities, id, record);
    }
  }

  lemma EntityDeleteOrdered(db: Db, id: Id)
    requires Ordered(db)
    ensures Ordered(EntityDelete(db, id))
  {
    if EntityDeleteAllowed(db, id) {
      RemovedEntity(db.entities, id);
    }
  }

  lemma OperatorPostOrdered(db: Db, id: Id, entityId: Id, valid: bool, registrationId: string, rrm: string)
    requires Ordered(db) && Fresh(db, id) && Fresh(db, entityId)
    ensures Ordered(OperatorPost(db, id, entityId, valid, registrationId, rrm))
  {
    if OperatorPostAllowed(db, valid, registrationId) {
      AddedEntity(db.entities, entityId, Entity(ROOT, [], [], [], [], [], [], [], id, ""));
    }
  }

  lemma RemovedPair(es: Entities, ops: Operators, o: Id)
    requires Paired(es, ops) && o in ops && !ops[o].defaultOperator
    ensures var e := ops[o].entityId; Paired(RemoveChildEntity(es - {e}, es[e].parent, e), ops - {o})
  {
  }

  lemma OperatorDeleteOrdered(db: Db, id: Id, linkRow: Id)
    requires Ordered(db)
    ensures Ordered(OperatorDelete(db, id, linkRow))
  {
    if OperatorDeleteAllowed(db, id, linkRow) {
      var e := db.operators[id].entityId;
      assert LinkedEntity(db, db.operators[id], linkRow) == e && e in db.entities;
      RemovedEntity(db.entities, e);
      RemovedPair(db.entities, db.operators, id);
    }
  }

  lemma {:induction false} DropVenuesTree(db: Db, rows: seq<Id>)
    ensures Shape(DropVenues(db, rows).entities) == Shape(db.entities)
    decreases |rows|
  {
    if rows != [] && rows[0] in db.venues && db.venues[rows[0]].devices == [] {
      ListsOnly(db.entities, db.venues[rows[0]].entity, rows[0]);
      DropVenuesTree(db.(entities := RemoveVenueFrom(db.entities, db.venues[rows[0]].entity, rows[0]),
                         venues := db.venues - {rows[0]}), rows[1..]);
    }
  }

  lemma ListsOnly(es: Entities, e: Id, x: Id)
    ensures Shape(JoinEntity(es, e, x)) == Shape(es) && Shape(LeaveEntity(es, e, x)) == Shape(es)
    ensures Shape(AddVenueTo(es, e, x)) == Shape(es) && Shape(RemoveVenueFrom(es, e, x)) == Shape(es)
  {
    if e in es {
      Rewritten(es, e, es[e].(devices := With(es[e].devices, x)));
      Rewritten(es, e, es[e].(devices := Without(es[e].devices, x)));
      Rewritten(es, e, es[e].(venues := With(es[e].venues, x)));
      Rewritten(es, e, es[e].(venues := Without(es[e].venues, x)));
    }
  }

  lemma MovesOnly(es: Entities, from: Id, to: Id, x: Id)
    ensures Shape(JoinEntity(LeaveEntity(es, from, x), to, x)) == Shape(es)
    ensures Shape(AddVenueTo(RemoveVenueFrom(es, from, x), to, x)) == Shape(es)
  {
    ListsOnly(es, from, x);
    ListsOnly(LeaveEntity(es, from, x), to, x);
    ListsOnly(RemoveVenueFrom(es, from, x), to, x);
  }

  /** The other requests change lists of devices, venues and configurations at most. */
  ghost predicate Untouched(db: Db, after: Db) { Shape(after.entities) == Shape(db.entities) && after.operators == db.operators }

  lemma InventoryPostTree(db: Db, id: Id, newConfig: Id, serial: string, b: InventoryBody)
    ensures Untouched(db, InventoryPost(db, id, newConfig, serial, b))
  {
    ListsOnly(db.entities, Update(NONE, b.entity), id);
  }

  lemma InventoryPutTree(db: Db, id: Id, newConfig: Id, subRow: Id, b: InventoryBody)
    ensures Untouched(db, InventoryPut(db, id, newConfig, subRow, b))
  {
    if InventoryPutAllowed(db, id, b) && b.entity.Some? {
      MovesOnly(db.entities, db.inventory[id].entity, b.entity.value, id);
    }
  }

  lemma InventoryDeleteTree(db: Db, id: Id)
    ensures Untouched(db, InventoryDelete(db, id))
  {
    if InventoryDeleteAllowed(db, id) {
      var e := db.inventory[id].entity;
      if e != NONE && e in db.entities {
        var es := db.entities[e := db.entities[e].(configurations := Without(db.entities[e].configurations, id))];
        Rewritten(db.entities, e, es[e]);
        ListsOnly(es, e, id);
      }
    }
  }

  lemma RemoveSubscriberTree(db: Db, id: Id, subscriber: Id)
    ensures Untouched(db, RemoveSubscriber(db, id, subscriber))
  {
    ListsOnly(db.entities, "id", id);
  }

  lemma SyncInventoryTree(db: Db, d: SubscriberDevice, invRow: Id, newInv: Id, venueRow: Id)
    ensures SyncInventory(db, d, invRow, newInv, venueRow).entities == db.entities
    ensures SyncInventory(db, d, invRow, newInv, venueRow).operators == db.operators
  {
  }

  lemma SubDevicePostTree(db: Db, id: Id, newConfig: Id, invRow: Id, newInv: Id, venueRow: Id, b: SubDeviceBody)
    ensures Untouched(db, SubDevicePost(db, id, newConfig, invRow, newInv, venueRow, b))
  {
    if SubDevicePostAllowed(db, b) {
      SyncInventoryTree(PostStored(db, id, newConfig, b), PostedDevice(newConfig, b), invRow, newInv, venueRow);
    }
  }

  lemma SubDevicePutTree(db: Db, id: Id, newConfig: Id, invRow: Id, newInv: Id, venueRow: Id, b: SubDeviceBody)
    ensures Untouched(db, SubDevicePut(db, id, newConfig, invRow, newInv, venueRow, b))
  {
    if SubDevicePutAllowed(db, id, b) {
      var stored := PutStored(db, id, newConfig, b);
      SyncInventoryTree(stored, stored.subDevices[id], invRow, newInv, venueRow);
    }
  }

  lemma SubDeviceDeleteTree(db: Db, id: Id, invRow: Id, stopped: bool)
    ensures Untouched(db, SubDeviceDelete(db, id, invRow, stopped))
  {
    if SubDeviceDeleteAllowed(db, id, stopped) && invRow != NONE && invRow in db.inventory {
      ListsOnly(db.entities, db.inventory[invRow].entity, invRow);
    } else {
      assert SubDeviceDelete(db, id, invRow, stopped).entities == db.entities;
    }
  }

  lemma VenuePostTree(db: Db, id: Id, valid: bool, roleCreated: bool, v: Venue)
    ensures Untouched(db, VenuePost(db, id, valid, roleCreated, v))
  {
    ListsOnly(db.entities, PostedEntity(db, v), id);
  }

  lemma VenuePutTree(db: Db, id: Id, valid: bool, entity: Option<Id>, parent: Option<Id>, rrm: Option<string>)
    ensures Untouched(db, VenuePut(db, id, valid, entity, parent, rrm))
  {
    if id in db.venues && entity.Some? {
      MovesOnly(db.entities, db.venues[id].entity, entity.value, id);
    }
  }

  lemma VenueDeleteTree(db: Db, id: Id)
    ensures Untouched(db, VenueDelete(db, id))
  {
    if id in db.venues {
      ListsOnly(db.entities, db.venues[id].entity, id);
    }
  }

  lemma EntityPutTree(db: Db, id: Id, valid: bool, rrm: Option<string>)
    ensures Untouched(db, EntityPut(db, id, valid, rrm))
  {
    if id in db.entities {
      Rewritten(db.entities, id, db.entities[id].(rrm := Update(db.entities[id].rrm, rrm)));
    }
  }

  lemma SignupPostTree(db: Db, r: SignupRequest)
    ensures Untouched(db, SignupPost(db, r))
  {
    var email := Normalise(r.email);
    if SignupNew(db, r) {
      var stored := db.(signups := db.signups[r.newSignup := SignupEntry(email, r.userId, r.opRow, WAITING_FOR_EMAIL)]);
      SubscriberVenueTree(stored, db.operators[r.opRow].entityId, email, r.userId, r.newVenue);
    } else if SignupResent(db, r) {
      SubscriberVenueTree(db, db.operators[r.opRow].entityId, email, db.signups[r.emailRow].userId, r.newVenue);
    }
  }

  lemma SubscriberVenueTree(db: Db, entity: Id, email: string, userId: Id, newVenue: Id)
    ensures Untouched(db, SubscriberVenue(db, entity, email, userId, newVenue))
  {
    ListsOnly(db.entities, entity, newVenue);
  }

  lemma SignupDeleteTree(db: Db, subscriber: Id, row: Id, rows: seq<Id>, ok: bool)
    ensures Untouched(db, SignupDelete(db, subscriber, row, rows, ok))
  {
    DropVenuesTree(db, rows);
    SubscriberDevices.DropVenuesFrame(db, rows);
  }

  lemma OtherStepsUntouched(db: Db, r: Request)
    requires !r.EntityPostRequest? && !r.EntityDeleteRequest?
    requires !r.OperatorPostRequest? && !r.OperatorPutRequest? && !r.OperatorDeleteRequest?
    ensures Untouched(db, Step(db, r))
  {
    if r.InventoryPostRequest? {
      InventoryPostTree(db, r.id, r.newConfig, r.serial, r.inventory);
    } else if r.InventoryPutRequest? {
      InventoryPutTree(db, r.id, r.newConfig, r.subRow, r.inventory);
    } else if r.InventoryDeleteRequest? {
      InventoryDeleteTree(db, r.id);
    } else if r.RemoveSubscriberRequest? {
      RemoveSubscriberTree(db, r.id, r.subscriber);
    } else if r.SubDevicePostRequest? {
      SubDevicePostTree(db, r.id, r.newConfig, r.invRow, r.newInv, r.venueRow, r.device);
    } else if r.SubDevicePutRequest? {
      SubDevicePutTree(db, r.id, r.newConfig, r.invRow, r.newInv, r.venueRow, r.device);
    } else if r.SubDeviceDeleteRequest? {
      SubDeviceDeleteTree(db, r.id, r.invRow, r.monitoringStopped);
    } else if r.VenuePostRequest? {
      VenuePostTree(db, r.id, r.valid, r.roleCreated, r.venue);
    } else if r.VenuePutRequest? {
      VenuePutTree(db, r.id, r.valid, r.toEntity, r.toParent, r.rrm);
    } else if r.VenueDeleteRequest? {
      VenueDeleteTree(db, r.id);
    } else if r.EntityPutRequest? {
      EntityPutTree(db, r.id, r.valid, r.rrm);
    } else if r.SignupPostRequest? {
      SignupPostTree(db, r.signup);
    } else if r.SignupPutRequest? {
    } else if r.SignupDeleteRequest? {
      SignupDeleteTree(db, r.subscriber, r.row, r.rows, r.securityOk);
    }
  }

  lemma UntouchedOrdered(db: Db, after: Db)
    requires Ordered(db) && Untouched(db, after)
    ensures Ordered(after)
  {
    SameShapeOrdered(db.entities, after.entities, db.operators);
  }

  lemma OperatorPutOrdered(db: Db, id: Id, valid: bool, rrm: Option<string>)
    requires Ordered(db)
    ensures Ordered(OperatorPut(db, id, valid, rrm))
  {
  }

  lemma TreeRequestOrdered(db: Db, r: Request)
    requires Ordered(db) && Answered(db, r)
    requires r.EntityPostRequest? || r.EntityDeleteRequest? || r.OperatorPostRequest? || r.OperatorPutRequest? || r.OperatorDeleteRequest?
    ensures Ordered(Step(db, r))
  {
    if r.EntityPostRequest? {
      EntityPostOrdered(db, r.id, r.valid, r.roleCreated, r.entity);
    } else if r.EntityDeleteRequest? {
      EntityDeleteOrdered(db, r.id);
    } else if r.OperatorPostRequest? {
      OperatorPostOrdered(db, r.id, r.entityId, r.valid, r.registrationId, r.opRrm);
    } else if r.OperatorPutRequest? {
      OperatorPutOrdered(db, r.id, r.valid, r.rrm);
    } else if r.OperatorDeleteRequest? {
      OperatorDeleteOrdered(db, r.id, r.linkRow);
    }
  }

  lemma StepOrdered(db: Db, r: Request)
    requires Ordered(db) && Answered(db, r)
    ensures Ordered(Step(db, r))
  {
    if r.EntityPostRequest? || r.EntityDeleteRequest? || r.OperatorPostRequest? || r.OperatorPutRequest? || r.OperatorDeleteRequest? {
      TreeRequestOrdered(db, r);
    } else {
      OtherStepsUntouched(db, r);
      UntouchedOrdered(db, Step(db, r));
    }
  }

  /** Every entity reaches the root in at most two parent steps. */
  lemma TwoSteps(es: Entities, e: Id)
    requires Tree(es) && e in es
    ensures e == ROOT || es[e].parent == ROOT || (es[e].parent in es && es[es[e].parent].parent == ROOT)
    ensures ApConfig.EntityChainEnds(es, e, 2)
  {
    if e != ROOT {
      assert Hangs(es, e);
      var p := es[e].parent;
      if p != ROOT {
        assert Hangs(es, p);
        assert ApConfig.EntityChainEnds(es, ROOT, 0);
        assert ApConfig.EntityChainEnds(es, p, 1);
      } else {
        assert ApConfig.EntityChainEnds(es, ROOT, 1);
      }
    }
  }

  /** The entity tree and the pairing hold over every run, so the walk to the root ends from every entity. */
  lemma {:induction false} RunOrdered(db: Db, rs: seq<Request>)
    requires Ordered(db) && RunAnswered(db, rs)
    ensures Ordered(Run(db, rs))
    ensures forall e :: e in Run(db, rs).entities ==> ApConfig.EntityChainEnds(Run(db, rs).entities, e, 2)
    decreases |rs|
  {
    if rs != [] {
      StepOrdered(db, rs[0]);
      RunOrdered(Step(db, rs[0]), rs[1..]);
    } else {
      forall e | e in db.entities ensures ApConfig.EntityChainEnds(db.entities, e, 2) {
        TwoSteps(db.entities, e);
      }
    }
  }

  /** The references pair operators and entities one to one, so there are equally many of both. */
  lemma OperatorsAndEntitiesCorrespond(es: Entities, ops: Operators)
    requires Paired(es, ops)
    ensures |set o | o in ops && !ops[o].defaultOperator| == |set e | e in es && es[e].operatorId != NONE|
  {
    CountPaired(es, ops, set o | o in ops && !ops[o].defaultOperator, set e | e in es && es[e].operatorId != NONE);
  }

  /** Sets of operators and of entities that refer to each other have equal size. */
  lemma {:induction false} CountPaired(es: Entities, ops: Operators, os: set<Id>, linked: set<Id>)
    requires Paired(es, ops)
    requires forall o :: o in os ==> o in ops && !ops[o].defaultOperator && ops[o].entityId in linked
    requires forall e :: e in linked ==> e in es && es[e].operatorId != NONE && es[e].operatorId in os
    ensures |os| == |linked|
  {
    if os != {} {
      var o :| o in os;
      var e := ops[o].entityId;
      CountPaired(es, ops, os - {o}, linked - {e});
    }
  }

  // ---------------------------------------------------------------- venues

  type VenueTable = map<Id, Venue>

  /** Every venue has an entity: a child venue gets that of its parent. */
  ghost predicate Housed(vs: VenueTable) { forall v :: v in vs ==> vs[v].entity != NONE }

  lemma DevicesKeepHoused(vs: VenueTable, v: Id, x: Id)
    requires Housed(vs)
    ensures Housed(JoinVenue(vs, v, x)) && Housed(LeaveVenue(vs, v, x))
  {
  }

  lemma ChildrenKeepHoused(vs: VenueTable, v: Id, x: Id)
    requires Housed(vs)
    ensures Housed(AddChildVenue(vs, v, x)) && Housed(RemoveChildVenue(vs, v, x))
  {
  }

  lemma MovesKeepHoused(vs: VenueTable, from: Id, to: Id, x: Id)
    requires Housed(vs)
    ensures Housed(JoinVenue(LeaveVenue(vs, from, x), to, x))
  {
    DevicesKeepHoused(vs, from, x);
    DevicesKeepHoused(LeaveVenue(vs, from, x), to, x);
  }

  lemma InventoryPostHoused(db: Db, id: Id, newConfig: Id, serial: string, b: InventoryBody)
    requires Housed(db.venues)
    ensures Housed(InventoryPost(db, id, newConfig, serial, b).venues)
  {
    DevicesKeepHoused(db.venues, Update(NONE, b.venue), id);
  }

  lemma InventoryPutHoused(db: Db, id: Id, newConfig: Id, subRow: Id, b: InventoryBody)
    requires Housed(db.venues)
    ensures Housed(InventoryPut(db, id, newConfig, subRow, b).venues)
  {
    if InventoryPutAllowed(db, id, b) && b.venue.Some? {
      MovesKeepHoused(db.venues, db.inventory[id].venue, b.venue.value, id);
    }
  }

  lemma InventoryDeleteHoused(db: Db, id: Id)
    requires Housed(db.venues)
    ensures Housed(InventoryDelete(db, id).venues)
  {
    if InventoryDeleteAllowed(db, id) {
      var v := db.inventory[id].venue;
      if v != NONE && v in db.venues {
        DevicesKeepHoused(db.venues[v := db.venues[v].(configurations := Without(db.venues[v].configurations, id))], v, id);
      }
    }
  }

  lemma SyncInventoryHoused(db: Db, d: SubscriberDevice, invRow: Id, newInv: Id, venueRow: Id)
    requires Housed(db.venues)
    ensures Housed(SyncInventory(db, d, invRow, newInv, venueRow).venues)
  {
    if invRow != NONE && invRow in db.inventory {
      var before := db.inventory[invRow].venue;
      MovesKeepHoused(db.venues, before, if venueRow != NONE then venueRow else before, invRow);
    } else {
      DevicesKeepHoused(db.venues, venueRow, newInv);
    }
  }

  lemma SubDevicePostHoused(db: Db, id: Id, newConfig: Id, invRow: Id, newInv: Id, venueRow: Id, b: SubDeviceBody)
    requires Housed(db.venues)
    ensures Housed(SubDevicePost(db, id, newConfig, invRow, newInv, venueRow, b).venues)
  {
    if SubDevicePostAllowed(db, b) {
      SyncInventoryHoused(PostStored(db, id, newConfig, b), PostedDevice(newConfig, b), invRow, newInv, venueRow);
    }
  }

  lemma SubDevicePutHoused(db: Db, id: Id, newConfig: Id, invRow: Id, newInv: Id, venueRow: Id, b: SubDeviceBody)
    requires Housed(db.venues)
    ensures Housed(SubDevicePut(db, id, newConfig, invRow, newInv, venueRow, b).venues)
  {
    if SubDevicePutAllowed(db, id, b) {
      var stored := PutStored(db, id, newConfig, b);
      SyncInventoryHoused(stored, stored.subDevices[id], invRow, newInv, venueRow);
    }
  }

  lemma SubDeviceDeleteHoused(db: Db, id: Id, invRow: Id, stopped: bool)
    requires Housed(db.venues)
    ensures Housed(SubDeviceDelete(db, id, invRow, stopped).venues)
  {
    if invRow in db.inventory {
      DevicesKeepHoused(db.venues, db.inventory[invRow].venue, invRow);
    }
  }

  lemma VenuePostHoused(db: Db, id: Id, valid: bool, roleCreated: bool, v: Venue)
    requires Housed(db.venues)
    ensures Housed(VenuePost(db, id, valid, roleCreated, v).venues)
  {
    if VenuePostAllowed(db, valid, v) {
      ChildrenKeepHoused(db.venues[id := v.(entity := PostedEntity(db, v), children := [])], v.parent, id);
    }
  }

  lemma VenuePutHoused(db: Db, id: Id, valid: bool, entity: Option<Id>, parent: Option<Id>, rrm: Option<string>)
    requires Housed(db.venues)
    ensures Housed(VenuePut(db, id, valid, entity, parent, rrm).venues)
  {
    if VenuePutAllowed(db, id, valid, entity, parent) {
      var before := db.venues[id];
      var vs := db.venues[id := before.(entity := Update(before.entity, entity), parent := Update(before.parent, parent),
                                        rrm := Update(before.rrm, rrm))];
      ChildrenKeepHoused(vs, before.parent, id);
      if parent.Some? {
        ChildrenKeepHoused(RemoveChildVenue(vs, before.parent, id), parent.value, id);
      }
    }
  }

  lemma VenueDeleteHoused(db: Db, id: Id)
    requires Housed(db.venues)
    ensures Housed(VenueDelete(db, id).venues)
  {
    if id in db.venues {
      ChildrenKeepHoused(db.venues, db.venues[id].parent, id);
    }
  }

  lemma SignupPostHoused(db: Db, r: SignupRequest)
    requires Housed(db.venues)
    ensures Housed(SignupPost(db, r).venues)
  {
  }

  lemma {:induction false} DropVenuesHoused(db: Db, rows: seq<Id>)
    requires Housed(db.venues)
    ensures Housed(DropVenues(db, rows).venues)
    decreases |rows|
  {
    if rows != [] && rows[0] in db.venues && db.venues[rows[0]].devices == [] {
      DropVenuesHoused(db.(entities := RemoveVenueFrom(db.entities, db.venues[rows[0]].entity, rows[0]),
                           venues := db.venues - {rows[0]}), rows[1..]);
    }
  }

  lemma StepHoused(db: Db, r: Request)
    requires Housed(db.venues)
    ensures Housed(Step(db, r).venues)
  {
    if r.InventoryPostRequest? {
      InventoryPostHoused(db, r.id, r.newConfig, r.serial, r.inventory);
    } else if r.InventoryPutRequest? {
      InventoryPutHoused(db, r.id, r.newConfig, r.subRow, r.inventory);
    } else if r.InventoryDeleteRequest? {
      InventoryDeleteHoused(db, r.id);
    } else if r.SubDevicePostRequest? {
      SubDevicePostHoused(db, r.id, r.newConfig, r.invRow, r.newInv, r.venueRow, r.device);
    } else if r.SubDevicePutRequest? {
      SubDevicePutHoused(db, r.id, r.newConfig, r.invRow, r.newInv, r.venueRow, r.device);
    } else if r.SubDeviceDeleteRequest? {
      SubDeviceDeleteHoused(db, r.id, r.invRow, r.monitoringStopped);
    } else if r.VenuePostRequest? {
      VenuePostHoused(db, r.id, r.valid, r.roleCreated, r.venue);
    } else if r.VenuePutRequest? {
      VenuePutHoused(db, r.id, r.valid, r.toEntity, r.toParent, r.rrm);
    } else if r.VenueDeleteRequest? {
      VenueDeleteHoused(db, r.id);
    } else if r.SignupPostRequest? {
      SignupPostHoused(db, r.signup);
    } else if r.SignupDeleteRequest? {
      DropVenuesHoused(db, r.rows);
    } else {
      SameVenues(db, r);
    }
  }

  lemma SameVenues(db: Db, r: Request)
    requires r.EntityPostRequest? || r.EntityPutRequest? || r.EntityDeleteRequest? || r.OperatorPostRequest? || r.OperatorPutRequest?
             || r.OperatorDeleteRequest? || r.RemoveSubscriberRequest? || r.SignupPutRequest?
    ensures Step(db, r).venues == db.venues
  {
  }

  lemma {:induction false} RunHoused(db: Db, rs: seq<Request>)
    requires Housed(db.venues)
    ensures Housed(Run(db, rs).venues)
    decreases |rs|
  {
    if rs != [] {
      StepHoused(db, rs[0]);
      RunHoused(Step(db, rs[0]), rs[1..]);
    }
  }

  /** Over every run the resolution of a configuration ends from every venue, although a PUT may make venues each
      other's parents: the walk leaves the venues at the first one. */
  lemma VenueWalkEnds(db: Db, rs: seq<Request>, v: Id)
    requires Ordered(db) && Housed(db.venues) && RunAnswered(db, rs)
    ensures ApConfig.VenueChainEnds(Run(db, rs).entities, Run(db, rs).venues, v, 2)
  {
    RunOrdered(db, rs);
    RunHoused(db, rs);
  }
}
