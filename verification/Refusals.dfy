/** When a request is refused: the errors of the handlers, each with the fact about body and tables that raises it. */
module Refusals {
  import opened Tables
  import opened Handlers

  datatype Error =
    | InvalidBody | NotFound | SerialNumberExists | NameExists | RegistrationExists | UserExists | AlreadyPending
    | NonRootMustExist | EntityMustExist | VenueMustExist | ParentMustExist | ParentOrEntityMustBeSet | NotBoth | InvalidEntityType
    | LocationMustExist | ContactMustExist | ConfigurationMustExist | OperatorMustExist | InvalidCreateObjects
    | RequiresSubscriberApi | WrongSubscriber | InvalidGroup | FirstMustBeOlg | OnlyFirstCanBeOlg | ApsMustGoFirst
    | CannotDeleteRoot | CannotDeleteDefault | StillInUse | ServiceFailed

  /** The body names an id. */
  ghost predicate Gives(field: Option<Id>) { field.Some? && field.value != NONE }

  ghost predicate GivesUnknown<T>(field: Option<Id>, table: map<Id, T>) { Gives(field) && field.value !in table }

  // ---------------------------------------------------------------- inventory

  ghost predicate InventoryPostFails(db: Db, serial: string, b: InventoryBody, e: Error) {
    match e
    case InvalidBody => !b.valid
    case SerialNumberExists => exists t :: t in db.inventory && db.inventory[t].serialNumber == serial
    case NonRootMustExist => Gives(b.entity) && (b.entity.value == ROOT || b.entity.value !in db.entities)
    case VenueMustExist => GivesUnknown(b.venue, db.venues)
    case RequiresSubscriberApi => Gives(b.venue) && b.venue.value in db.venues && db.venues[b.venue.value].subscriber != NONE
    case NotBoth => Gives(b.venue) && Gives(b.entity)
    case LocationMustExist => Gives(b.location) && b.location.value !in db.locations
    case ContactMustExist => Gives(b.contact) && b.contact.value !in db.contacts
    case ConfigurationMustExist => GivesUnknown(b.deviceConfiguration, db.configurations)
    case InvalidCreateObjects => b.created.Some? && b.deviceConfiguration.Some?
    case _ => false
  }

  lemma InventoryPostRefused(db: Db, serial: string, b: InventoryBody)
    ensures InventoryPostAllowed(db, serial, b) <==> forall e :: !InventoryPostFails(db, serial, b, e)
  {
    if forall e :: !InventoryPostFails(db, serial, b, e) {
      assert !InventoryPostFails(db, serial, b, InvalidBody) && !InventoryPostFails(db, serial, b, SerialNumberExists);
      assert !InventoryPostFails(db, serial, b, NonRootMustExist) && !InventoryPostFails(db, serial, b, VenueMustExist);
      assert !InventoryPostFails(db, serial, b, RequiresSubscriberApi) && !InventoryPostFails(db, serial, b, NotBoth);
      assert !InventoryPostFails(db, serial, b, LocationMustExist) && !InventoryPostFails(db, serial, b, ContactMustExist);
      assert !InventoryPostFails(db, serial, b, ConfigurationMustExist) && !InventoryPostFails(db, serial, b, InvalidCreateObjects);
    }
  }

  ghost predicate InventoryPutFails(db: Db, id: Id, b: InventoryBody, e: Error) {
    match e
    case NotFound => id !in db.inventory
    case InvalidBody => !b.valid
    case EntityMustExist => GivesUnknown(b.entity, db.entities)
    case VenueMustExist => GivesUnknown(b.venue, db.venues)
    case LocationMustExist => Gives(b.location) && b.location.value !in db.locations
    case ContactMustExist => Gives(b.contact) && b.contact.value !in db.contacts
    case ConfigurationMustExist => GivesUnknown(b.deviceConfiguration, db.configurations)
    case InvalidCreateObjects => b.created.Some? && b.deviceConfiguration.Some?
    case _ => false
  }

  lemma InventoryPutRefused(db: Db, id: Id, b: InventoryBody)
    ensures InventoryPutAllowed(db, id, b) <==> forall e :: !InventoryPutFails(db, id, b, e)
  {
    if forall e :: !InventoryPutFails(db, id, b, e) {
      assert !InventoryPutFails(db, id, b, NotFound) && !InventoryPutFails(db, id, b, InvalidBody);
      assert !InventoryPutFails(db, id, b, EntityMustExist) && !InventoryPutFails(db, id, b, VenueMustExist);
      assert !InventoryPutFails(db, id, b, LocationMustExist) && !InventoryPutFails(db, id, b, ContactMustExist);
      assert !InventoryPutFails(db, id, b, ConfigurationMustExist) && !InventoryPutFails(db, id, b, InvalidCreateObjects);
    }
  }

  ghost predicate InventoryDeleteFails(db: Db, id: Id, e: Error) {
    match e
    case NotFound => id !in db.inventory
    case RequiresSubscriberApi =>
      id in db.inventory
      && (db.inventory[id].subscriber != NONE
          || exists d :: d in db.subDevices && db.subDevices[d].serialNumber == db.inventory[id].serialNumber)
    case _ => false
  }

  lemma InventoryDeleteRefused(db: Db, id: Id)
    ensures InventoryDeleteAllowed(db, id) <==> forall e :: !InventoryDeleteFails(db, id, e)
  {
    if forall e :: !InventoryDeleteFails(db, id, e) {
      assert !InventoryDeleteFails(db, id, NotFound) && !InventoryDeleteFails(db, id, RequiresSubscriberApi);
    }
  }

  ghost predicate RemoveSubscriberFails(db: Db, id: Id, subscriber: Id, e: Error) {
    match e
    case NotFound => id !in db.inventory
    case InvalidBody => subscriber == NONE
    case WrongSubscriber => id in db.inventory && db.inventory[id].subscriber != subscriber
    case _ => false
  }

  lemma RemoveSubscriberRefused(db: Db, id: Id, subscriber: Id)
    ensures RemoveSubscriberAllowed(db, id, subscriber) <==> forall e :: !RemoveSubscriberFails(db, id, subscriber, e)
  {
    if forall e :: !RemoveSubscriberFails(db, id, subscriber, e) {
      assert !RemoveSubscriberFails(db, id, subscriber, NotFound) && !RemoveSubscriberFails(db, id, subscriber, InvalidBody);
      assert !RemoveSubscriberFails(db, id, subscriber, WrongSubscriber);
    }
  }

  // ---------------------------------------------------------------- subscriber devices

  ghost predicate HasDevice(db: Db, subscriber: Id) { exists d :: d in db.subDevices && db.subDevices[d].subscriberId == subscriber }

  ghost predicate SubDevicePostFails(db: Db, b: SubDeviceBody, e: Error) {
    var subscriber := if b.subscriberId.Some? then b.subscriberId.value else NONE;
    match e
    case InvalidBody => !b.valid
    case SerialNumberExists => exists d :: d in db.subDevices && db.subDevices[d].serialNumber == b.serial
    case ConfigurationMustExist => GivesUnknown(b.deviceConfiguration, db.configurations)
    case InvalidGroup => b.group.None?
    case FirstMustBeOlg => b.group == Some(Ap) && !HasDevice(db, subscriber)
    case OnlyFirstCanBeOlg => b.group == Some(Olg) && HasDevice(db, subscriber)
    case _ => false
  }

  lemma SubDevicePostRefused(db: Db, b: SubDeviceBody)
    ensures SubDevicePostAllowed(db, b) <==> forall e :: !SubDevicePostFails(db, b, e)
  {
    assert HasDevice(db, Update(NONE, b.subscriberId)) <==> HasDevices(db.subDevices, Update(NONE, b.subscriberId));
    if forall e :: !SubDevicePostFails(db, b, e) {
      assert !SubDevicePostFails(db, b, InvalidBody) && !SubDevicePostFails(db, b, SerialNumberExists);
      assert !SubDevicePostFails(db, b, ConfigurationMustExist) && !SubDevicePostFails(db, b, InvalidGroup);
      assert !SubDevicePostFails(db, b, FirstMustBeOlg) && !SubDevicePostFails(db, b, OnlyFirstCanBeOlg);
    }
  }

  /** Another OLG of the subscriber the device will belong to. */
  ghost predicate AnotherOlg(db: Db, id: Id, b: SubDeviceBody)
    requires id in db.subDevices
  {
    var subscriber := if Gives(b.subscriberId) then b.subscriberId.value else db.subDevices[id].subscriberId;
    exists d :: d in db.subDevices && d != id && db.subDevices[d].subscriberId == subscriber && db.subDevices[d].group == Olg
  }

  ghost predicate SubDevicePutFails(db: Db, id: Id, b: SubDeviceBody, e: Error) {
    match e
    case NotFound => id !in db.subDevices
    case InvalidBody => !b.valid
    case SerialNumberExists => exists d :: d in db.subDevices && d != id && db.subDevices[d].serialNumber == b.serial
    case ConfigurationMustExist => GivesUnknown(b.deviceConfiguration, db.configurations)
    case InvalidGroup => b.group.None?
    case OnlyFirstCanBeOlg => id in db.subDevices && b.group == Some(Olg) && AnotherOlg(db, id, b)
    case _ => false
  }

  lemma SubDevicePutRefused(db: Db, id: Id, b: SubDeviceBody)
    ensures SubDevicePutAllowed(db, id, b) <==> forall e :: !SubDevicePutFails(db, id, b, e)
  {
    if id in db.subDevices {
      var named := Update(NONE, b.subscriberId);
      assert AnotherOlg(db, id, b) <==>
             HasOtherOlg(db.subDevices, if named == NONE then db.subDevices[id].subscriberId else named, id);
    }
    if forall e :: !SubDevicePutFails(db, id, b, e) {
      assert !SubDevicePutFails(db, id, b, NotFound) && !SubDevicePutFails(db, id, b, InvalidBody);
      assert !SubDevicePutFails(db, id, b, SerialNumberExists) && !SubDevicePutFails(db, id, b, ConfigurationMustExist);
      assert !SubDevicePutFails(db, id, b, InvalidGroup) && !SubDevicePutFails(db, id, b, OnlyFirstCanBeOlg);
    }
  }

  ghost predicate SubDeviceDeleteFails(db: Db, id: Id, stopped: bool, e: Error) {
    match e
    case NotFound => id !in db.subDevices
    case ApsMustGoFirst =>
      && id in db.subDevices && db.subDevices[id].group == Olg
      && exists d :: d in db.subDevices && d != id && db.subDevices[d].subscriberId == db.subDevices[id].subscriberId
    case ServiceFailed => !stopped
    case _ => false
  }

  lemma SubDeviceDeleteRefused(db: Db, id: Id, stopped: bool)
    ensures SubDeviceDeleteAllowed(db, id, stopped) <==> forall e :: !SubDeviceDeleteFails(db, id, stopped, e)
  {
    if forall e :: !SubDeviceDeleteFails(db, id, stopped, e) {
      assert !SubDeviceDeleteFails(db, id, stopped, NotFound) && !SubDeviceDeleteFails(db, id, stopped, ApsMustGoFirst);
      assert !SubDeviceDeleteFails(db, id, stopped, ServiceFailed);
    }
  }

  // ---------------------------------------------------------------- venues

  /** The entity a new venue would be in: that of its parent, or else the one the body names. */
  ghost function HomeOf(db: Db, v: Venue): Id {
    if v.parent != NONE && v.parent in db.venues then db.venues[v.parent].entity else v.entity
  }

  ghost predicate VenuePostFails(db: Db, valid: bool, v: Venue, e: Error) {
    match e
    case InvalidBody => !valid
    case ParentOrEntityMustBeSet => v.parent == NONE && v.entity == NONE
    case NotBoth => v.parent != NONE && v.entity != NONE
    case VenueMustExist => v.parent != NONE && v.parent !in db.venues
    case NonRootMustExist => HomeOf(db, v) == ROOT
    case EntityMustExist => HomeOf(db, v) != NONE && HomeOf(db, v) !in db.entities
    case NameExists =>
      exists x :: x in db.venues && SameIgnoringCase(db.venues[x].name, v.name)
                  && (if HomeOf(db, v) != NONE then db.venues[x].entity == HomeOf(db, v) else db.venues[x].parent == v.parent)
    case _ => false
  }

  lemma VenuePostRefused(db: Db, valid: bool, v: Venue)
    ensures VenuePostAllowed(db, valid, v) <==> forall e :: !VenuePostFails(db, valid, v, e)
  {
    forall x | x in db.venues ensures Lower(db.venues[x].name) == Lower(v.name) <==> SameIgnoringCase(db.venues[x].name, v.name) {
      LowerComparesLetters(db.venues[x].name, v.name);
    }
    assert VenueNameTaken(db, v.name, PostedEntity(db, v), v.parent) <==> VenuePostFails(db, valid, v, NameExists);
    if forall e :: !VenuePostFails(db, valid, v, e) {
      assert !VenuePostFails(db, valid, v, InvalidBody) && !VenuePostFails(db, valid, v, ParentOrEntityMustBeSet);
      assert !VenuePostFails(db, valid, v, NotBoth) && !VenuePostFails(db, valid, v, VenueMustExist);
      assert !VenuePostFails(db, valid, v, NonRootMustExist) && !VenuePostFails(db, valid, v, EntityMustExist);
    }
  }

  ghost predicate VenuePutFails(db: Db, id: Id, valid: bool, entity: Option<Id>, parent: Option<Id>, e: Error) {
    match e
    case NotFound => id !in db.venues
    case InvalidBody => !valid
    case EntityMustExist => entity.Some? && (entity.value == NONE || entity.value !in db.entities)
    case VenueMustExist => parent.Some? && (parent.value == NONE || parent.value !in db.venues)
    case _ => false
  }

  lemma VenuePutRefused(db: Db, id: Id, valid: bool, entity: Option<Id>, parent: Option<Id>)
    ensures VenuePutAllowed(db, id, valid, entity, parent) <==> forall e :: !VenuePutFails(db, id, valid, entity, parent, e)
  {
    if forall e :: !VenuePutFails(db, id, valid, entity, parent, e) {
      assert !VenuePutFails(db, id, valid, entity, parent, NotFound) && !VenuePutFails(db, id, valid, entity, parent, InvalidBody);
      assert !VenuePutFails(db, id, valid, entity, parent, EntityMustExist) && !VenuePutFails(db, id, valid, entity, parent, VenueMustExist);
    }
  }

  ghost predicate VenueDeleteFails(db: Db, id: Id, e: Error) {
    match e
    case NotFound => id !in db.venues
    case StillInUse => id in db.venues && (db.venues[id].children != [] || db.venues[id].devices != [])
    case RequiresSubscriberApi => id in db.venues && db.venues[id].subscriber != NONE
    case _ => false
  }

  lemma VenueDeleteRefused(db: Db, id: Id)
    ensures VenueDeleteAllowed(db, id) <==> forall e :: !VenueDeleteFails(db, id, e)
  {
    if forall e :: !VenueDeleteFails(db, id, e) {
      assert !VenueDeleteFails(db, id, NotFound) && !VenueDeleteFails(db, id, StillInUse) && !VenueDeleteFails(db, id, RequiresSubscriberApi);
    }
  }

  // ---------------------------------------------------------------- entities and operators

  ghost predicate EntityPostFails(db: Db, valid: bool, x: Entity, e: Error) {
    match e
    case InvalidBody => !valid
    case ParentMustExist => x.parent == NONE || x.parent !in db.entities
    case InvalidEntityType => x.parent in db.entities && x.parent != ROOT && db.entities[x.parent].operatorId == NONE
    case _ => false
  }

  lemma EntityPostRefused(db: Db, valid: bool, x: Entity)
    ensures EntityPostAllowed(db, valid, x) <==> forall e :: !EntityPostFails(db, valid, x, e)
  {
    if forall e :: !EntityPostFails(db, valid, x, e) {
      assert !EntityPostFails(db, valid, x, InvalidBody) && !EntityPostFails(db, valid, x, ParentMustExist);
      assert !EntityPostFails(db, valid, x, InvalidEntityType);
    }
  }

  /** Something is in the entity. */
  ghost predicate InUse(x: Entity) {
    |x.children| + |x.devices| + |x.venues| + |x.locations| + |x.contacts| + |x.configurations| > 0
  }

  ghost predicate EntityDeleteFails(db: Db, id: Id, e: Error) {
    match e
    case NotFound => id !in db.entities
    case CannotDeleteRoot => id == ROOT
    case StillInUse => id in db.entities && (db.entities[id].operatorId != NONE || InUse(db.entities[id]))
    case _ => false
  }

  lemma EntityDeleteRefused(db: Db, id: Id)
    ensures EntityDeleteAllowed(db, id) <==> forall e :: !EntityDeleteFails(db, id, e)
  {
    if forall e :: !EntityDeleteFails(db, id, e) {
      assert !EntityDeleteFails(db, id, NotFound) && !EntityDeleteFails(db, id, CannotDeleteRoot) && !EntityDeleteFails(db, id, StillInUse);
    }
  }

  ghost predicate OperatorPostFails(db: Db, valid: bool, registrationId: string, e: Error) {
    match e
    case InvalidBody => !valid
    case RegistrationExists => registrationId == "" || exists o :: o in db.operators && db.operators[o].registrationId == Lower(registrationId)
    case _ => false
  }

  lemma OperatorPostRefused(db: Db, valid: bool, registrationId: string)
    ensures OperatorPostAllowed(db, valid, registrationId) <==> forall e :: !OperatorPostFails(db, valid, registrationId, e)
  {
    if forall e :: !OperatorPostFails(db, valid, registrationId, e) {
      assert !OperatorPostFails(db, valid, registrationId, InvalidBody) && !OperatorPostFails(db, valid, registrationId, RegistrationExists);
    }
  }

  /** The entity of the operator, or else one that refers to it. */
  ghost predicate IsLinked(db: Db, id: Id, linkRow: Id, e: Id)
    requires id in db.operators
  {
    var own := db.operators[id].entityId;
    e != NONE && e in db.entities && if own != NONE && own in db.entities then e == own else e == linkRow
  }

  /** The entity is not to be deleted with the operator. */
  ghost predicate Holds(db: Db, id: Id, e: Id)
    requires e in db.entities
  {
    e == ROOT || InUse(db.entities[e]) || (db.entities[e].operatorId != NONE && db.entities[e].operatorId != id)
  }

  ghost predicate OperatorDeleteFails(db: Db, id: Id, linkRow: Id, e: Error) {
    match e
    case NotFound => id !in db.operators
    case CannotDeleteDefault => id in db.operators && db.operators[id].defaultOperator
    case StillInUse =>
      || (exists s :: s in db.signups && db.signups[s].operatorId == id)
      || (id in db.operators && exists x :: IsLinked(db, id, linkRow, x) && Holds(db, id, x))
    case _ => false
  }

  lemma OperatorDeleteRefused(db: Db, id: Id, linkRow: Id)
    ensures OperatorDeleteAllowed(db, id, linkRow) <==> forall e :: !OperatorDeleteFails(db, id, linkRow, e)
  {
    if id in db.operators {
      var e := LinkedEntity(db, db.operators[id], linkRow);
      assert forall x :: IsLinked(db, id, linkRow, x) <==> x == e && e != NONE && e in db.entities;
      assert (exists x :: IsLinked(db, id, linkRow, x) && Holds(db, id, x)) <==> e != NONE && e in db.entities && Holds(db, id, e);
    }
    if forall e :: !OperatorDeleteFails(db, id, linkRow, e) {
      assert !OperatorDeleteFails(db, id, linkRow, NotFound) && !OperatorDeleteFails(db, id, linkRow, CannotDeleteDefault);
      assert !OperatorDeleteFails(db, id, linkRow, StillInUse);
    }
  }

  // ---------------------------------------------------------------- sign-ups

  /** A row of the e-mail that a repeated request may use: pending, under the same operator. */
  ghost predicate Usable(db: Db, r: SignupRequest)
    requires r.emailRow in db.signups
  {
    db.signups[r.emailRow].operatorId == r.opRow && db.signups[r.emailRow].statusCode == WAITING_FOR_EMAIL
  }

  ghost predicate SignupPostFails(db: Db, r: SignupRequest, e: Error) {
    match e
    case InvalidBody => !r.valid || Normalise(r.email) == "" || Normalise(r.registrationId) == ""
    case OperatorMustExist => r.opRow == NONE || r.opRow !in db.operators
    case EntityMustExist =>
      r.opRow in db.operators && (db.operators[r.opRow].entityId == NONE || db.operators[r.opRow].entityId !in db.entities)
    case UserExists =>
      || (r.emailRow != NONE && r.emailRow in db.signups && !Usable(db, r))
      || (r.emailRow == NONE && r.userRow != NONE)
    case AlreadyPending => r.emailRow != NONE && !r.resend
    case ServiceFailed => !r.securityOk
    case _ => false
  }

  lemma SignupPostRefused(db: Db, r: SignupRequest)
    requires EmailRow(db, Normalise(r.email), r.emailRow)
    ensures SignupNew(db, r) || SignupResent(db, r) <==> forall e :: !SignupPostFails(db, r, e)
  {
    if forall e :: !SignupPostFails(db, r, e) {
      assert !SignupPostFails(db, r, InvalidBody) && !SignupPostFails(db, r, OperatorMustExist) && !SignupPostFails(db, r, EntityMustExist);
      assert !SignupPostFails(db, r, UserExists) && !SignupPostFails(db, r, AlreadyPending) && !SignupPostFails(db, r, ServiceFailed);
    }
  }

  ghost predicate SignupDeleteFails(db: Db, subscriber: Id, row: Id, e: Error) {
    match e
    case InvalidBody => subscriber == NONE
    case NotFound => row == NONE || row !in db.signups
    case StillInUse => (exists t :: t in db.inventory && db.inventory[t].subscriber == subscriber) || HasDevice(db, subscriber)
    case _ => false
  }

  lemma SignupDeleteRefused(db: Db, subscriber: Id, row: Id)
    ensures SignupDeleteAllowed(db, subscriber, row) <==> forall e :: !SignupDeleteFails(db, subscriber, row, e)
  {
    assert HasDevice(db, subscriber) <==> HasDevices(db.subDevices, subscriber);
    if forall e :: !SignupDeleteFails(db, subscriber, row, e) {
      assert !SignupDeleteFails(db, subscriber, row, InvalidBody) && !SignupDeleteFails(db, subscriber, row, NotFound);
      assert !SignupDeleteFails(db, subscriber, row, StillInUse);
    }
  }

  // ---------------------------------------------------------------- all requests

  ghost predicate Fails(db: Db, r: Request, e: Error) {
    match r
    case InventoryPostRequest(id, newConfig, serial, b) => InventoryPostFails(db, serial, b, e)
    case InventoryPutRequest(id, newConfig, subRow, b) => InventoryPutFails(db, id, b, e)
    case InventoryDeleteRequest(id) => InventoryDeleteFails(db, id, e)
    case RemoveSubscriberRequest(id, subscriber) => RemoveSubscriberFails(db, id, subscriber, e)
    case SubDevicePostRequest(id, newConfig, invRow, newInv, venueRow, b) => SubDevicePostFails(db, b, e)
    case SubDevicePutRequest(id, newConfig, invRow, newInv, venueRow, b) => SubDevicePutFails(db, id, b, e)
    case SubDeviceDeleteRequest(id, invRow, stopped) => SubDeviceDeleteFails(db, id, stopped, e)
    case VenuePostRequest(id, valid, roleCreated, v) => VenuePostFails(db, valid, v, e)
    case VenuePutRequest(id, valid, entity, parent, rrm) => VenuePutFails(db, id, valid, entity, parent, e)
    case VenueDeleteRequest(id) => VenueDeleteFails(db, id, e)
    case EntityPostRequest(id, valid, roleCreated, x) => EntityPostFails(db, valid, x, e)
    case EntityPutRequest(id, valid, rrm) => (e == InvalidBody && !valid) || (e == NotFound && id !in db.entities)
    case EntityDeleteRequest(id) => EntityDeleteFails(db, id, e)
    case OperatorPostRequest(id, entityId, valid, registrationId, rrm) => OperatorPostFails(db, valid, registrationId, e)
    case OperatorPutRequest(id, valid, rrm) => (e == InvalidBody && !valid) || (e == NotFound && id !in db.operators)
    case OperatorDeleteRequest(id, linkRow) => OperatorDeleteFails(db, id, linkRow, e)
    case SignupPostRequest(s) => SignupPostFails(db, s, e)
    case SignupPutRequest(row, emailVerified) =>
      (e == NotFound && row !in db.signups)
      || (e == InvalidBody && row in db.signups && !(emailVerified && db.signups[row].statusCode == WAITING_FOR_EMAIL))
    case SignupDeleteRequest(subscriber, row, rows, ok) => SignupDeleteFails(db, subscriber, row, e)
  }

  lemma RefusedDevices(db: Db, r: Request, e: Error)
    requires r.InventoryPostRequest? || r.InventoryPutRequest? || r.InventoryDeleteRequest? || r.RemoveSubscriberRequest?
             || r.SubDevicePostRequest? || r.SubDevicePutRequest? || r.SubDeviceDeleteRequest?
    requires Fails(db, r, e)
    ensures Step(db, r) == db
  {
    if r.InventoryPostRequest? {
      InventoryPostRefused(db, r.serial, r.inventory);
    } else if r.InventoryPutRequest? {
      InventoryPutRefused(db, r.id, r.inventory);
    } else if r.InventoryDeleteRequest? {
      InventoryDeleteRefused(db, r.id);
    } else if r.RemoveSubscriberRequest? {
      RemoveSubscriberRefused(db, r.id, r.subscriber);
    } else if r.SubDevicePostRequest? {
      SubDevicePostRefused(db, r.device);
    } else if r.SubDevicePutRequest? {
      SubDevicePutRefused(db, r.id, r.device);
    } else {
      SubDeviceDeleteRefused(db, r.id, r.monitoringStopped);
    }
  }

  lemma RefusedPlaces(db: Db, r: Request, e: Error)
    requires r.VenuePostRequest? || r.VenuePutRequest? || r.VenueDeleteRequest? || r.EntityPostRequest? || r.EntityPutRequest?
             || r.EntityDeleteRequest?
    requires Fails(db, r, e)
    ensures Step(db, r) == db
  {
    if r.VenuePostRequest? {
      VenuePostRefused(db, r.valid, r.venue);
    } else if r.VenuePutRequest? {
      VenuePutRefused(db, r.id, r.valid, r.toEntity, r.toParent);
    } else if r.VenueDeleteRequest? {
      VenueDeleteRefused(db, r.id);
    } else if r.EntityPostRequest? {
      EntityPostRefused(db, r.valid, r.entity);
    } else if r.EntityDeleteRequest? {
      EntityDeleteRefused(db, r.id);
    }
  }

  lemma RefusedAccounts(db: Db, r: Request, e: Error)
    requires r.OperatorPostRequest? || r.OperatorPutRequest? || r.OperatorDeleteRequest? || r.SignupPostRequest? || r.SignupPutRequest?
             || r.SignupDeleteRequest?
    requires Answered(db, r) && Fails(db, r, e)
    ensures Step(db, r) == db
  {
    if r.OperatorPostRequest? {
      OperatorPostRefused(db, r.valid, r.registrationId);
    } else if r.OperatorDeleteRequest? {
      OperatorDeleteRefused(db, r.id, r.linkRow);
    } else if r.SignupPostRequest? {
      SignupPostRefused(db, r.signup);
    } else if r.SignupDeleteRequest? {
      SignupDeleteRefused(db, r.subscriber, r.row);
    }
  }

  /** A request that meets any of its errors changes nothing at all. */
  lemma RefusedChangesNothing(db: Db, r: Request, e: Error)
    requires Answered(db, r) && Fails(db, r, e)
    ensures Step(db, r) == db
  {
    if r.VenuePostRequest? || r.VenuePutRequest? || r.VenueDeleteRequest? || r.EntityPostRequest? || r.EntityPutRequest? || r.EntityDeleteRequest? {
      RefusedPlaces(db, r, e);
    } else if r.OperatorPostRequest? || r.OperatorPutRequest? || r.OperatorDeleteRequest? || r.SignupPostRequest? || r.SignupPutRequest?
              || r.SignupDeleteRequest? {
      RefusedAccounts(db, r, e);
    } else {
      RefusedDevices(db, r, e);
    }
  }
}
