/** The sign-up table: one row per e-mail and per user, moving forward only, under an operator that exists. */
module Signups {
  import opened Tables
  import opened Handlers
  import SubscriberDevices

  type Rows = map<Id, SignupEntry>

  ghost predicate OnePerEmail(rows: Rows) {
    forall s, t :: s in rows && t in rows && rows[s].email == rows[t].email ==> s == t
  }

  ghost predicate OnePerUser(rows: Rows) {
    forall s, t :: s in rows && t in rows && rows[s].userId == rows[t].userId ==> s == t
  }

  /** The operator of every row exists. */
  ghost predicate Grounded(rows: Rows, operators: map<Id, Operator>) {
    forall s :: s in rows ==> rows[s].operatorId in operators
  }

  ghost predicate Sound(db: Db) {
    NONE !in db.signups && OnePerEmail(db.signups) && OnePerUser(db.signups) && Grounded(db.signups, db.operators)
  }

  /** A row that is still there belongs to the same user, e-mail and operator and did not move backwards. */
  ghost predicate Forward(before: SignupEntry, after: SignupEntry) {
    && after.email == before.email && after.userId == before.userId && after.operatorId == before.operatorId
    && before.statusCode <= after.statusCode
  }

  ghost predicate AllForward(rows: Rows, after: Rows) {
    forall s :: s in rows && s in after ==> Forward(rows[s], after[s])
  }

  ghost predicate Advances(db: Db, after: Db) { Sound(after) && AllForward(db.signups, after.signups) }

  // ---------------------------------------------------------------- single requests

  lemma SubscriberVenueFrame(db: Db, entity: Id, email: string, userId: Id, newVenue: Id)
    ensures SubscriberVenue(db, entity, email, userId, newVenue).signups == db.signups
    ensures SubscriberVenue(db, entity, email, userId, newVenue).operators == db.operators
  {
  }

  lemma SignupPostEffect(db: Db, r: SignupRequest)
    ensures SignupPost(db, r).operators == db.operators
    ensures SignupPost(db, r).signups ==
              if SignupNew(db, r) then db.signups[r.newSignup := SignupEntry(Normalise(r.email), r.userId, r.opRow, WAITING_FOR_EMAIL)]
              else db.signups
  {
    if SignupNew(db, r) {
      SubscriberVenueFrame(
        db.(signups := db.signups[r.newSignup := SignupEntry(Normalise(r.email), r.userId, r.opRow, WAITING_FOR_EMAIL)]),
        db.operators[r.opRow].entityId, Normalise(r.email), r.userId, r.newVenue);
    } else if SignupResent(db, r) {
      SubscriberVenueFrame(db, db.operators[r.opRow].entityId, Normalise(r.email), db.signups[r.emailRow].userId, r.newVenue);
    }
  }

  lemma SignupPostSound(db: Db, r: SignupRequest)
    requires Sound(db) && Answered(db, SignupPostRequest(r))
    ensures Advances(db, SignupPost(db, r))
  {
    SignupPostEffect(db, r);
  }

  lemma SignupPutSound(db: Db, row: Id, emailVerified: bool)
    requires Sound(db)
    ensures Advances(db, SignupPut(db, row, emailVerified))
  {
  }

  lemma FewerRows(db: Db, after: Db)
    requires Sound(db) && db.operators.Keys <= after.operators.Keys
    requires forall s :: s in after.signups ==> s in db.signups && after.signups[s] == db.signups[s]
    ensures Advances(db, after)
  {
  }

  lemma SignupDeleteSound(db: Db, subscriber: Id, row: Id, rows: seq<Id>, ok: bool)
    requires Sound(db)
    ensures Advances(db, SignupDelete(db, subscriber, row, rows, ok))
  {
    SubscriberDevices.DropVenuesFrame(db, rows);
    FewerRows(db, SignupDelete(db, subscriber, row, rows, ok));
  }

  lemma RemoveSubscriberSound(db: Db, id: Id, subscriber: Id)
    requires Sound(db)
    ensures Advances(db, RemoveSubscriber(db, id, subscriber))
  {
    FewerRows(db, RemoveSubscriber(db, id, subscriber));
  }

  /** An operator with sign-ups cannot be deleted. */
  lemma OperatorDeleteSound(db: Db, id: Id, linkRow: Id)
    requires Sound(db)
    ensures Advances(db, OperatorDelete(db, id, linkRow))
  {
  }

  lemma InventoryFrame(db: Db, r: Request)
    requires r.InventoryPostRequest? || r.InventoryPutRequest? || r.InventoryDeleteRequest?
    ensures Step(db, r).signups == db.signups && db.operators.Keys <= Step(db, r).operators.Keys
  {
  }

  lemma SyncFrame(db: Db, d: SubscriberDevice, invRow: Id, newInv: Id, venueRow: Id)
    ensures SyncInventory(db, d, invRow, newInv, venueRow).signups == db.signups
    ensures SyncInventory(db, d, invRow, newInv, venueRow).operators == db.operators
  {
  }

  lemma DevicePutFrame(db: Db, id: Id, newConfig: Id, invRow: Id, newInv: Id, venueRow: Id, b: SubDeviceBody)
    ensures var after := SubDevicePut(db, id, newConfig, invRow, newInv, venueRow, b);
      after.signups == db.signups && after.operators == db.operators
  {
    if SubDevicePutAllowed(db, id, b) {
      var stored := PutStored(db, id, newConfig, b);
      SyncFrame(stored, stored.subDevices[id], invRow, newInv, venueRow);
    }
  }

  lemma DevicePostFrame(db: Db, id: Id, newConfig: Id, invRow: Id, newInv: Id, venueRow: Id, b: SubDeviceBody)
    ensures var after := SubDevicePost(db, id, newConfig, invRow, newInv, venueRow, b);
      after.signups == db.signups && after.operators == db.operators
  {
    if SubDevicePostAllowed(db, b) {
      SyncFrame(PostStored(db, id, newConfig, b), PostedDevice(newConfig, b), invRow, newInv, venueRow);
    }
  }

  lemma DeviceDeleteFrame(db: Db, id: Id, invRow: Id, stopped: bool)
    ensures var after := SubDeviceDelete(db, id, invRow, stopped);
      after.signups == db.signups && after.operators == db.operators
  {
  }

  lemma TreeFrame(db: Db, r: Request)
    requires r.VenuePostRequest? || r.VenuePutRequest? || r.VenueDeleteRequest? || r.EntityPostRequest? || r.EntityPutRequest?
             || r.EntityDeleteRequest? || r.OperatorPostRequest? || r.OperatorPutRequest?
    ensures Step(db, r).signups == db.signups && db.operators.Keys <= Step(db, r).operators.Keys
  {
  }

  /** The other requests touch no sign-up and delete no operator. */
  lemma OtherFrame(db: Db, r: Request)
    requires !r.SignupPostRequest? && !r.SignupPutRequest? && !r.SignupDeleteRequest?
    requires !r.RemoveSubscriberRequest? && !r.OperatorDeleteRequest?
    ensures Step(db, r).signups == db.signups && db.operators.Keys <= Step(db, r).operators.Keys
  {
    if r.SubDevicePostRequest? {
      DevicePostFrame(db, r.id, r.newConfig, r.invRow, r.newInv, r.venueRow, r.device);
    } else if r.SubDevicePutRequest? {
      DevicePutFrame(db, r.id, r.newConfig, r.invRow, r.newInv, r.venueRow, r.device);
    } else if r.SubDeviceDeleteRequest? {
      DeviceDeleteFrame(db, r.id, r.invRow, r.monitoringStopped);
    } else {
      if r.InventoryPostRequest? || r.InventoryPutRequest? || r.InventoryDeleteRequest? {
        InventoryFrame(db, r);
      } else {
        TreeFrame(db, r);
      }
    }
  }

  lemma OtherSound(db: Db, r: Request)
    requires Sound(db)
    requires !r.SignupPostRequest? && !r.SignupPutRequest? && !r.SignupDeleteRequest?
    requires !r.RemoveSubscriberRequest? && !r.OperatorDeleteRequest?
    ensures Advances(db, Step(db, r))
  {
    OtherFrame(db, r);
    FewerRows(db, Step(db, r));
  }

  lemma StepSound(db: Db, r: Request)
    requires Sound(db) && Answered(db, r)
    ensures Advances(db, Step(db, r))
  {
    if r.SignupPostRequest? {
      SignupPostSound(db, r.signup);
    } else if r.SignupPutRequest? {
      SignupPutSound(db, r.row, r.emailVerified);
    } else if r.SignupDeleteRequest? {
      SignupDeleteSound(db, r.subscriber, r.row, r.rows, r.securityOk);
    } else if r.RemoveSubscriberRequest? {
      RemoveSubscriberSound(db, r.id, r.subscriber);
    } else if r.OperatorDeleteRequest? {
      OperatorDeleteSound(db, r.id, r.linkRow);
    } else {
      OtherSound(db, r);
    }
  }

  // ---------------------------------------------------------------- whole runs

  /** The row is in the table at every moment of the run. */
  ghost predicate Stays(db: Db, rs: seq<Request>, s: Id)
    decreases |rs|
  {
    s in db.signups && (rs == [] || Stays(Step(db, rs[0]), rs[1..], s))
  }

  /** Over every run the table stays sound and no row that stays ever moves backwards. */
  lemma {:induction false} RunSound(db: Db, rs: seq<Request>)
    requires Sound(db) && RunAnswered(db, rs)
    ensures Sound(Run(db, rs))
    ensures forall s :: Stays(db, rs, s) ==> s in Run(db, rs).signups && Forward(db.signups[s], Run(db, rs).signups[s])
    decreases |rs|
  {
    if rs != [] {
      StepSound(db, rs[0]);
      RunSound(Step(db, rs[0]), rs[1..]);
    }
  }

  // ---------------------------------------------------------------- repeated requests

  /** A POST without resend for an e-mail that has a row changes nothing. */
  lemma KnownEmailChangesNothing(db: Db, r: SignupRequest)
    requires Answered(db, SignupPostRequest(r)) && !r.resend
    requires exists s :: s in db.signups && db.signups[s].email == Normalise(r.email)
    ensures SignupPost(db, r) == db
  {
  }

  lemma VenueIsThere(db: Db, entity: Id, email: string, userId: Id, newVenue: Id)
    requires entity != NONE
    ensures VenueNameTaken(SubscriberVenue(db, entity, email, userId, newVenue), email, entity, NONE)
  {
    var after := SubscriberVenue(db, entity, email, userId, newVenue);
    if !VenueNameTaken(db, email, entity, NONE) {
      assert newVenue in after.venues && after.venues[newVenue].name == email && after.venues[newVenue].entity == entity;
    }
  }

  /** Right after a POST that did something, a second one for the same e-mail changes nothing, resend or not. */
  lemma RepeatChangesNothing(db: Db, r: SignupRequest, again: SignupRequest)
    requires Sound(db) && Answered(db, SignupPostRequest(r)) && Answered(SignupPost(db, r), SignupPostRequest(again))
    requires Normalise(again.email) == Normalise(r.email)
    requires SignupNew(db, r) || SignupResent(db, r)
    ensures SignupPost(SignupPost(db, r), again) == SignupPost(db, r)
  {
    var after, email := SignupPost(db, r), Normalise(r.email);
    var row := if SignupNew(db, r) then r.newSignup else r.emailRow;
    var entity := db.operators[r.opRow].entityId;
    SignupPostEffect(db, r);
    SignupPostSound(db, r);
    assert row in after.signups && after.signups[row].email == email && after.signups[row].operatorId == r.opRow;
    assert again.emailRow == row;
    if SignupResent(after, again) {
      PostMakesVenue(db, r);
      assert again.opRow == r.opRow;
    }
  }

  lemma PostMakesVenue(db: Db, r: SignupRequest)
    requires SignupNew(db, r) || SignupResent(db, r)
    ensures VenueNameTaken(SignupPost(db, r), Normalise(r.email), db.operators[r.opRow].entityId, NONE)
  {
    var email, entity := Normalise(r.email), db.operators[r.opRow].entityId;
    if SignupNew(db, r) {
      VenueIsThere(db.(signups := db.signups[r.newSignup := SignupEntry(email, r.userId, r.opRow, WAITING_FOR_EMAIL)]),
                   entity, email, r.userId, r.newVenue);
    } else {
      VenueIsThere(db, entity, email, db.signups[r.emailRow].userId, r.newVenue);
    }
  }
}
