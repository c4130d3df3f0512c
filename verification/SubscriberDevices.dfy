/** Subscriber devices and the inventory stay in step, and each subscriber has one OLG. */
module SubscriberDevices {
  import opened Tables
  import opened Handlers

  // ---------------------------------------------------------------- devices and inventory

  ghost predicate UniqueSerials(db: Db) {
    && (forall t, u :: t in db.inventory && u in db.inventory && db.inventory[t].serialNumber == db.inventory[u].serialNumber ==> t == u)
    && (forall d, e :: d in db.subDevices && e in db.subDevices && db.subDevices[d].serialNumber == db.subDevices[e].serialNumber ==> d == e)
  }

  /** Record `t` has the serial and the configuration of device `d`. */
  ghost predicate Backs(db: Db, t: Id, d: SubscriberDevice) {
    && t in db.inventory && db.inventory[t].serialNumber == d.serialNumber
    && db.inventory[t].deviceConfiguration == d.deviceConfiguration
  }

  ghost predicate Backed(db: Db, d: SubscriberDevice) { exists t :: Backs(db, t, d) }

  ghost predicate InStep(db: Db) {
    UniqueSerials(db) && forall d :: d in db.subDevices ==> Backed(db, db.subDevices[d])
  }

  /** A record that is still there with the same serial and configuration still backs its device. */
  lemma StillBacked(db: Db, after: Db, d: SubscriberDevice)
    requires Backed(db, d)
    requires forall t :: t in db.inventory && db.inventory[t].serialNumber == d.serialNumber ==>
               t in after.inventory && after.inventory[t].serialNumber == d.serialNumber
               && after.inventory[t].deviceConfiguration == db.inventory[t].deviceConfiguration
    ensures Backed(after, d)
  {
    var t :| Backs(db, t, d);
    assert Backs(after, t, d);
  }

  lemma InventoryPostInStep(db: Db, id: Id, newConfig: Id, serial: string, b: InventoryBody)
    requires InStep(db) && Fresh(db, id)
    ensures InStep(InventoryPost(db, id, newConfig, serial, b))
  {
    var after := InventoryPost(db, id, newConfig, serial, b);
    forall d | d in after.subDevices ensures Backed(after, after.subDevices[d]) {
      StillBacked(db, after, db.subDevices[d]);
    }
  }

  /** A body PUT writes one record, whose serial stays, and gives the device in its row the configuration of the record. */
  lemma InventoryPutEffect(db: Db, id: Id, newConfig: Id, subRow: Id, b: InventoryBody)
    requires InventoryPutAllowed(db, id, b)
    ensures var after := InventoryPut(db, id, newConfig, subRow, b);
      && id in after.inventory && after.inventory == db.inventory[id := after.inventory[id]]
      && after.inventory[id].serialNumber == db.inventory[id].serialNumber
      && after.subDevices == (if subRow != NONE && subRow in db.subDevices
           then db.subDevices[subRow := db.subDevices[subRow].(deviceConfiguration := after.inventory[id].deviceConfiguration)]
           else db.subDevices)
  {
  }

  lemma RecordChangedInStep(db: Db, after: Db, id: Id, subRow: Id)
    requires InStep(db) && id in db.inventory && SubDeviceRow(db, db.inventory[id].serialNumber, subRow)
    requires id in after.inventory && after.inventory == db.inventory[id := after.inventory[id]]
    requires after.inventory[id].serialNumber == db.inventory[id].serialNumber
    requires after.subDevices == if subRow != NONE && subRow in db.subDevices
               then db.subDevices[subRow := db.subDevices[subRow].(deviceConfiguration := after.inventory[id].deviceConfiguration)]
               else db.subDevices
    ensures InStep(after)
  {
    forall d | d in after.subDevices ensures Backed(after, after.subDevices[d]) {
      if d == subRow && d != NONE {
        assert Backs(after, id, after.subDevices[d]);
      } else {
        StillBacked(db, after, db.subDevices[d]);
      }
    }
  }

  lemma InventoryPutInStep(db: Db, id: Id, newConfig: Id, subRow: Id, b: InventoryBody)
    requires InStep(db) && Answered(db, InventoryPutRequest(id, newConfig, subRow, b))
    ensures InStep(InventoryPut(db, id, newConfig, subRow, b))
  {
    if InventoryPutAllowed(db, id, b) {
      InventoryPutEffect(db, id, newConfig, subRow, b);
      RecordChangedInStep(db, InventoryPut(db, id, newConfig, subRow, b), id, subRow);
    }
  }

  lemma InventoryDeleteInStep(db: Db, id: Id)
    requires InStep(db)
    ensures InStep(InventoryDelete(db, id))
  {
    var after := InventoryDelete(db, id);
    forall d | d in after.subDevices ensures Backed(after, after.subDevices[d]) {
      StillBacked(db, after, db.subDevices[d]);
    }
  }

  /** Syncing writes one inventory row, with the serial and the configuration of the device. */
  lemma SyncEffect(db: Db, d: SubscriberDevice, invRow: Id, newInv: Id, venueRow: Id) returns (row: Id)
    requires InventoryRow(db, d.serialNumber, invRow) && newInv !in db.inventory
    ensures var after := SyncInventory(db, d, invRow, newInv, venueRow);
      && after.subDevices == db.subDevices
      && row in after.inventory && after.inventory == db.inventory[row := after.inventory[row]]
      && after.inventory[row].serialNumber == d.serialNumber
      && after.inventory[row].deviceConfiguration == d.deviceConfiguration
    ensures row in db.inventory ==> db.inventory[row].serialNumber == d.serialNumber
    ensures row !in db.inventory ==> !HasInventory(db.inventory, d.serialNumber)
  {
    row := if invRow != NONE && invRow in db.inventory then invRow else newInv;
  }

  /** Syncing brings one device into step and leaves the records of other serials alone. */
  lemma SyncInventoryInStep(db: Db, id: Id, invRow: Id, newInv: Id, venueRow: Id)
    requires UniqueSerials(db) && id in db.subDevices && newInv !in db.inventory
    requires InventoryRow(db, db.subDevices[id].serialNumber, invRow)
    requires forall d :: d in db.subDevices && d != id ==> Backed(db, db.subDevices[d])
    ensures InStep(SyncInventory(db, db.subDevices[id], invRow, newInv, venueRow))
  {
    var after := SyncInventory(db, db.subDevices[id], invRow, newInv, venueRow);
    var row := SyncEffect(db, db.subDevices[id], invRow, newInv, venueRow);
    RowInStep(db, after, id, row);
  }

  lemma RowInStep(db: Db, after: Db, id: Id, row: Id)
    requires UniqueSerials(db) && id in db.subDevices && after.subDevices == db.subDevices
    requires forall d :: d in db.subDevices && d != id ==> Backed(db, db.subDevices[d])
    requires row in after.inventory && after.inventory == db.inventory[row := after.inventory[row]]
    requires Backs(after, row, db.subDevices[id])
    requires row in db.inventory ==> db.inventory[row].serialNumber == db.subDevices[id].serialNumber
    requires row !in db.inventory ==> !HasInventory(db.inventory, db.subDevices[id].serialNumber)
    ensures InStep(after)
  {
    forall d | d in after.subDevices ensures Backed(after, after.subDevices[d]) {
      if d != id {
        StillBacked(db, after, db.subDevices[d]);
      }
    }
  }

  lemma SubDevicePostInStep(db: Db, id: Id, newConfig: Id, invRow: Id, newInv: Id, venueRow: Id, b: SubDeviceBody)
    requires InStep(db) && Answered(db, SubDevicePostRequest(id, newConfig, invRow, newInv, venueRow, b))
    ensures InStep(SubDevicePost(db, id, newConfig, invRow, newInv, venueRow, b))
  {
    if SubDevicePostAllowed(db, b) {
      var stored := PostStored(db, id, newConfig, b);
      forall e | e in stored.subDevices && e != id ensures Backed(stored, stored.subDevices[e]) {
        StillBacked(db, stored, db.subDevices[e]);
      }
      SyncInventoryInStep(stored, id, invRow, newInv, venueRow);
    }
  }

  /** A PUT that changes the reference of the device always syncs. */
  lemma ReferenceChangeIsSynced(db: Db, id: Id, newConfig: Id, b: SubDeviceBody)
    requires id in db.subDevices
    ensures PutStored(db, id, newConfig, b).subDevices[id].deviceConfiguration != db.subDevices[id].deviceConfiguration ==>
              PutSyncs(db, id, newConfig, b)
  {
  }

  lemma SubDevicePutInStep(db: Db, id: Id, newConfig: Id, invRow: Id, newInv: Id, venueRow: Id, b: SubDeviceBody)
    requires InStep(db) && Answered(db, SubDevicePutRequest(id, newConfig, invRow, newInv, venueRow, b))
    ensures InStep(SubDevicePut(db, id, newConfig, invRow, newInv, venueRow, b))
  {
    if SubDevicePutAllowed(db, id, b) {
      var stored := PutStored(db, id, newConfig, b);
      ReferenceChangeIsSynced(db, id, newConfig, b);
      forall e | e in stored.subDevices && (e != id || !PutSyncs(db, id, newConfig, b))
        ensures Backed(stored, stored.subDevices[e])
      {
        var t :| Backs(db, t, db.subDevices[e]);
        assert Backs(stored, t, stored.subDevices[e]);
      }
      if PutSyncs(db, id, newConfig, b) {
        SyncInventoryInStep(stored, id, invRow, newInv, venueRow);
      }
    }
  }

  /** Deleting a device takes its own record with it, if it has one, and no other. */
  lemma DeleteEffect(db: Db, id: Id, invRow: Id, stopped: bool)
    requires SubDeviceDeleteAllowed(db, id, stopped)
    ensures var after := SubDeviceDelete(db, id, invRow, stopped);
      && after.subDevices == db.subDevices - {id}
      && (InventoryRow(db, db.subDevices[id].serialNumber, invRow) ==>
            forall t :: t in db.inventory && db.inventory[t].serialNumber != db.subDevices[id].serialNumber ==>
              t in after.inventory)
      && (forall t :: t in after.inventory ==> t in db.inventory && after.inventory[t] == db.inventory[t])
  {
  }

  lemma FewerInStep(db: Db, after: Db, id: Id)
    requires InStep(db) && id in db.subDevices && after.subDevices == db.subDevices - {id}
    requires forall t :: t in after.inventory ==> t in db.inventory && after.inventory[t] == db.inventory[t]
    requires forall t :: t in db.inventory && db.inventory[t].serialNumber != db.subDevices[id].serialNumber ==> t in after.inventory
    ensures InStep(after)
  {
    forall d | d in after.subDevices ensures Backed(after, after.subDevices[d]) {
      StillBacked(db, after, db.subDevices[d]);
    }
  }

  lemma SubDeviceDeleteInStep(db: Db, id: Id, invRow: Id, stopped: bool)
    requires InStep(db) && Answered(db, SubDeviceDeleteRequest(id, invRow, stopped))
    ensures InStep(SubDeviceDelete(db, id, invRow, stopped))
  {
    if SubDeviceDeleteAllowed(db, id, stopped) {
      DeleteEffect(db, id, invRow, stopped);
      FewerInStep(db, SubDeviceDelete(db, id, invRow, stopped), id);
    }
  }

  lemma Unrelated(db: Db, after: Db)
    requires InStep(db) && after.inventory == db.inventory && after.subDevices == db.subDevices
    ensures InStep(after)
  {
    forall d | d in after.subDevices ensures Backed(after, after.subDevices[d]) {
      StillBacked(db, after, db.subDevices[d]);
    }
  }

  /** The exact condition under which freeing a record keeps devices and inventory in step: no device
      with its serial stays behind with a reference that was cleared in the record. */
  ghost predicate FreesCleanly(db: Db, id: Id, subscriber: Id)
    requires id in db.inventory
  {
    var tag := db.inventory[id];
    tag.deviceConfiguration in db.configurations && tag.deviceConfiguration != NONE ==>
      forall d :: d in db.subDevices && db.subDevices[d].serialNumber == tag.serialNumber ==>
        db.subDevices[d].subscriberId == subscriber
  }

  lemma CleanlyFreed(db: Db, id: Id, subscriber: Id)
    requires InStep(db) && RemoveSubscriberAllowed(db, id, subscriber) && FreesCleanly(db, id, subscriber)
    ensures InStep(RemoveSubscriber(db, id, subscriber))
  {
    var after := RemoveSubscriber(db, id, subscriber);
    forall d | d in after.subDevices ensures Backed(after, after.subDevices[d]) {
      StillBacked(db, after, db.subDevices[d]);
    }
  }

  lemma LeftBehind(db: Db, id: Id, subscriber: Id)
    requires InStep(db) && RemoveSubscriberAllowed(db, id, subscriber) && !FreesCleanly(db, id, subscriber)
    ensures !InStep(RemoveSubscriber(db, id, subscriber))
  {
    var after, tag := RemoveSubscriber(db, id, subscriber), db.inventory[id];
    var d :| d in db.subDevices && db.subDevices[d].serialNumber == tag.serialNumber && db.subDevices[d].subscriberId != subscriber;
    var t :| Backs(db, t, db.subDevices[d]);
    assert t == id && after.inventory[id].deviceConfiguration == NONE;
    assert d in after.subDevices && !Backed(after, after.subDevices[d]);
  }

  lemma RemoveSubscriberInStep(db: Db, id: Id, subscriber: Id)
    requires InStep(db) && RemoveSubscriberAllowed(db, id, subscriber)
    ensures InStep(RemoveSubscriber(db, id, subscriber)) <==> FreesCleanly(db, id, subscriber)
  {
    if FreesCleanly(db, id, subscriber) {
      CleanlyFreed(db, id, subscriber);
    } else {
      LeftBehind(db, id, subscriber);
    }
  }

  /** For instance, give the record of a device to another subscriber and then remove that one: the device keeps a reference its
      record has lost. */
  lemma FreedRecordFallsOutOfStep()
    ensures var db := Db(
        map["t" := InventoryTag("001122334455", NONE, NONE, "first", "c", NONE, NONE, "")],
        map["d" := SubscriberDevice("001122334455", "first", Olg, "c", "")],
        map[], map[], map[], map[], map["c" := Configuration([], [], false, "")], {}, {}, {});
      var rs := [InventoryPutRequest("t", "new", "d", InventoryBody(true, None, None, None, None, None, Some("second"), None, None)),
                 RemoveSubscriberRequest("t", "second")];
      InStep(db) && RunAnswered(db, rs) && !InStep(Run(db, rs))
  {
    var d := SubscriberDevice("001122334455", "first", Olg, "c", "");
    var db := Db(
      map["t" := InventoryTag("001122334455", NONE, NONE, "first", "c", NONE, NONE, "")],
      map["d" := d],
      map[], map[], map[], map[], map["c" := Configuration([], [], false, "")], {}, {}, {});
    assert Backs(db, "t", d);
    FreedRun(db, InventoryBody(true, None, None, None, None, None, Some("second"), None, None));
  }

  lemma FreedRun(db: Db, b: InventoryBody)
    requires b == InventoryBody(true, None, None, None, None, None, Some("second"), None, None)
    requires InStep(db) && db.inventory.Keys == {"t"} && "d" in db.subDevices && Fresh(db, "new")
    requires db.inventory["t"].deviceConfiguration == "c" && "c" in db.configurations && db.subDevices["d"].deviceConfiguration == "c"
    requires db.subDevices["d"].serialNumber == db.inventory["t"].serialNumber && db.subDevices["d"].subscriberId == "first"
    ensures var rs := [InventoryPutRequest("t", "new", "d", b), RemoveSubscriberRequest("t", "second")];
      RunAnswered(db, rs) && !InStep(Run(db, rs))
  {
    var put, free := InventoryPutRequest("t", "new", "d", b), RemoveSubscriberRequest("t", "second");
    GivenAway(db, b);
    InventoryPutInStep(db, "t", "new", "d", b);
    FreedOutOfStep(Step(db, put));
    TwoRequests(db, put, free);
  }

  lemma GivenAway(db: Db, b: InventoryBody)
    requires b == InventoryBody(true, None, None, None, None, None, Some("second"), None, None)
    requires "t" in db.inventory && db.inventory.Keys == {"t"} && "d" in db.subDevices
    requires db.subDevices["d"].deviceConfiguration == db.inventory["t"].deviceConfiguration
    ensures InventoryPut(db, "t", "new", "d", b) == db.(inventory := map["t" := db.inventory["t"].(subscriber := "second")])
  {
    var after := InventoryPut(db, "t", "new", "d", b);
    assert after.subDevices == db.subDevices;
    assert after.inventory == map["t" := db.inventory["t"].(subscriber := "second")];
  }

  lemma FreedOutOfStep(given: Db)
    requires InStep(given) && "t" in given.inventory && given.inventory["t"].subscriber == "second" && "d" in given.subDevices
    requires given.inventory["t"].deviceConfiguration == "c" && "c" in given.configurations
    requires given.subDevices["d"].serialNumber == given.inventory["t"].serialNumber && given.subDevices["d"].subscriberId == "first"
    ensures !InStep(RemoveSubscriber(given, "t", "second"))
  {
    assert !FreesCleanly(given, "t", "second");
    RemoveSubscriberInStep(given, "t", "second");
  }

  lemma TwoRequests(db: Db, r: Request, s: Request)
    ensures Run(db, [r, s]) == Step(Step(db, r), s)
    ensures RunAnswered(db, [r, s]) <==> Answered(db, r) && Answered(Step(db, r), s)
  {
    assert [r, s][1..] == [s] && [s][1..] == [];
    assert Run(Step(db, r), [s]) == Run(Step(Step(db, r), s), []);
    assert RunAnswered(Step(db, r), [s]) <==> Answered(Step(db, r), s) && RunAnswered(Step(Step(db, r), s), []);
  }

  /** Every request keeps devices and inventory in step; freeing a record does so when it frees it cleanly. */
  lemma StepInStep(db: Db, r: Request)
    requires InStep(db) && Answered(db, r)
    requires r.RemoveSubscriberRequest? && RemoveSubscriberAllowed(db, r.id, r.subscriber) ==> FreesCleanly(db, r.id, r.subscriber)
    ensures InStep(Step(db, r))
  {
    if r.InventoryPostRequest? {
      InventoryPostInStep(db, r.id, r.newConfig, r.serial, r.inventory);
    } else if r.InventoryPutRequest? {
      InventoryPutInStep(db, r.id, r.newConfig, r.subRow, r.inventory);
    } else if r.InventoryDeleteRequest? {
      InventoryDeleteInStep(db, r.id);
    } else if r.RemoveSubscriberRequest? {
      if RemoveSubscriberAllowed(db, r.id, r.subscriber) {
        RemoveSubscriberInStep(db, r.id, r.subscriber);
      }
    } else if r.SubDevicePostRequest? {
      SubDevicePostInStep(db, r.id, r.newConfig, r.invRow, r.newInv, r.venueRow, r.device);
    } else if r.SubDevicePutRequest? {
      SubDevicePutInStep(db, r.id, r.newConfig, r.invRow, r.newInv, r.venueRow, r.device);
    } else if r.SubDeviceDeleteRequest? {
      SubDeviceDeleteInStep(db, r.id, r.invRow, r.monitoringStopped);
    } else {
      OtherTables(db, r);
      Unrelated(db, Step(db, r));
    }
  }

  /** Requests of the other handlers touch neither table. */
  lemma OtherTables(db: Db, r: Request)
    requires !r.InventoryPostRequest? && !r.InventoryPutRequest? && !r.InventoryDeleteRequest? && !r.RemoveSubscriberRequest?
    requires !r.SubDevicePostRequest? && !r.SubDevicePutRequest? && !r.SubDeviceDeleteRequest?
    ensures Step(db, r).inventory == db.inventory && Step(db, r).subDevices == db.subDevices
  {
    if r.SignupDeleteRequest? {
      SignupDeleteFrame(db, r.subscriber, r.row, r.rows, r.securityOk);
    } else if r.SignupPostRequest? {
      SignupPostFrame(db, r.signup);
    } else if r.VenuePostRequest? || r.VenuePutRequest? || r.VenueDeleteRequest? {
      VenueFrame(db, r);
    } else {
      EntityFrame(db, r);
    }
  }

  lemma VenueFrame(db: Db, r: Request)
    requires r.VenuePostRequest? || r.VenuePutRequest? || r.VenueDeleteRequest?
    ensures Step(db, r).inventory == db.inventory && Step(db, r).subDevices == db.subDevices
  {
  }

  lemma EntityFrame(db: Db, r: Request)
    requires r.EntityPostRequest? || r.EntityPutRequest? || r.EntityDeleteRequest? || r.OperatorPostRequest? || r.OperatorPutRequest?
             || r.OperatorDeleteRequest? || r.SignupPutRequest?
    ensures Step(db, r).inventory == db.inventory && Step(db, r).subDevices == db.subDevices
  {
  }

  lemma SignupPostFrame(db: Db, s: SignupRequest)
    ensures SignupPost(db, s).inventory == db.inventory && SignupPost(db, s).subDevices == db.subDevices
  {
  }

  lemma SignupDeleteFrame(db: Db, subscriber: Id, row: Id, rows: seq<Id>, ok: bool)
    ensures SignupDelete(db, subscriber, row, rows, ok).inventory == db.inventory
    ensures SignupDelete(db, subscriber, row, rows, ok).subDevices == db.subDevices
  {
    DropVenuesFrame(db, rows);
  }

  lemma {:induction false} DropVenuesFrame(db: Db, rows: seq<Id>)
    ensures var after := DropVenues(db, rows); after == db.(venues := after.venues, entities := after.entities)
    decreases |rows|
  {
    if rows != [] && rows[0] in db.venues && db.venues[rows[0]].devices == [] {
      DropVenuesFrame(db.(entities := RemoveVenueFrom(db.entities, db.venues[rows[0]].entity, rows[0]),
                          venues := db.venues - {rows[0]}), rows[1..]);
    }
  }

  /** A run in which every record is freed cleanly. */
  ghost predicate CleanRun(db: Db, rs: seq<Request>)
    decreases |rs|
  {
    rs == [] ||
    (var r := rs[0];
     && (r.RemoveSubscriberRequest? && RemoveSubscriberAllowed(db, r.id, r.subscriber) ==> FreesCleanly(db, r.id, r.subscriber))
     && CleanRun(Step(db, r), rs[1..]))
  }

  /** Over every run, each subscriber device has a record with the same serial and configuration. */
  lemma {:induction false} RunInStep(db: Db, rs: seq<Request>)
    requires InStep(db) && RunAnswered(db, rs) && CleanRun(db, rs)
    ensures InStep(Run(db, rs))
    decreases |rs|
  {
    if rs != [] {
      StepInStep(db, rs[0]);
      RunInStep(Step(db, rs[0]), rs[1..]);
    }
  }

  /** A run that frees no record is clean. */
  lemma {:induction false} RunWithoutReleaseIsClean(db: Db, rs: seq<Request>)
    requires forall i :: 0 <= i < |rs| ==> !rs[i].RemoveSubscriberRequest?
    ensures CleanRun(db, rs)
    decreases |rs|
  {
    if rs != [] {
      RunWithoutReleaseIsClean(Step(db, rs[0]), rs[1..]);
    }
  }

  // ---------------------------------------------------------------- one OLG per subscriber

  ghost predicate IsOlg(ds: Devices, d: Id, subscriber: Id) {
    d in ds && ds[d].subscriberId == subscriber && ds[d].group == Olg
  }

  ghost predicate AtMostOneOlg(ds: Devices, subscriber: Id) {
    forall d, e :: IsOlg(ds, d, subscriber) && IsOlg(ds, e, subscriber) ==> d == e
  }

  ghost predicate HasOlg(ds: Devices, subscriber: Id) { exists d :: IsOlg(ds, d, subscriber) }

  /** The subscriber has no device, or exactly one OLG. */
  ghost predicate Served(ds: Devices, subscriber: Id) {
    AtMostOneOlg(ds, subscriber) && (HasDevices(ds, subscriber) ==> HasOlg(ds, subscriber))
  }

  /** Each subscriber with devices has exactly one OLG. */
  ghost predicate ExactlyOneOlg(ds: Devices) { forall s :: Served(ds, s) }

  /** Each subscriber other than the empty one has at most one OLG. */
  ghost predicate NoSecondOlg(ds: Devices) { forall s :: s != NONE ==> AtMostOneOlg(ds, s) }

  /** The devices of one subscriber are what they were. */
  ghost predicate SameFor(ds: Devices, after: Devices, s: Id) {
    forall d :: (d in ds && ds[d].subscriberId == s <==> d in after && after[d].subscriberId == s)
                && (d in ds && ds[d].subscriberId == s ==> after[d].group == ds[d].group)
  }

  lemma SameForKeeps(ds: Devices, after: Devices, s: Id)
    requires SameFor(ds, after, s)
    ensures AtMostOneOlg(ds, s) <==> AtMostOneOlg(after, s)
    ensures Served(ds, s) <==> Served(after, s)
  {
    assert forall d :: IsOlg(ds, d, s) <==> IsOlg(after, d, s);
    assert HasOlg(ds, s) <==> HasOlg(after, s);
    assert HasDevices(ds, s) <==> HasDevices(after, s) by {
      if HasDevices(ds, s) {
        var d :| d in ds && ds[d].subscriberId == s;
        assert d in after && after[d].subscriberId == s;
      }
      if HasDevices(after, s) {
        var d :| d in after && after[d].subscriberId == s;
        assert d in ds && ds[d].subscriberId == s;
      }
    }
  }

  lemma SameForAllKeeps(ds: Devices, after: Devices)
    requires forall s :: SameFor(ds, after, s)
    ensures ExactlyOneOlg(ds) ==> ExactlyOneOlg(after)
    ensures NoSecondOlg(ds) ==> NoSecondOlg(after)
  {
    forall s ensures (AtMostOneOlg(ds, s) <==> AtMostOneOlg(after, s)) && (Served(ds, s) <==> Served(after, s)) {
      SameForKeeps(ds, after, s);
    }
  }

  /** A device added to a served subscriber keeps it served exactly when it is an OLG for a subscriber
      without devices and an AP otherwise. */
  lemma AddedDevice(ds: Devices, id: Id, d: SubscriberDevice)
    requires id !in ds
    ensures Served(ds, d.subscriberId) ==>
              (Served(ds[id := d], d.subscriberId) <==> (d.group == Olg <==> !HasDevices(ds, d.subscriberId)))
    ensures (d.group == Olg ==> !HasOlg(ds, d.subscriberId)) && AtMostOneOlg(ds, d.subscriberId) ==> AtMostOneOlg(ds[id := d], d.subscriberId)
  {
    var s, after := d.subscriberId, ds[id := d];
    assert after[id] == d && HasDevices(after, s);
    assert forall e :: IsOlg(after, e, s) <==> IsOlg(ds, e, s) || (e == id && d.group == Olg);
    if d.group == Olg {
      assert IsOlg(after, id, s);
    }
    if HasOlg(ds, s) {
      var o :| IsOlg(ds, o, s);
      assert IsOlg(after, o, s) && o in ds && HasDevices(ds, s);
    }
  }

  /** A device taken from a served subscriber keeps it served exactly when it is an AP or the last device. */
  lemma RemovedDevice(ds: Devices, id: Id)
    requires id in ds
    ensures var s := ds[id].subscriberId;
      && (Served(ds, s) ==> (Served(ds - {id}, s) <==> (ds[id].group == Olg ==> !HasOtherDevices(ds, s, id))))
      && (AtMostOneOlg(ds, s) ==> AtMostOneOlg(ds - {id}, s))
  {
    var s, after := ds[id].subscriberId, ds - {id};
    assert forall e :: IsOlg(after, e, s) <==> IsOlg(ds, e, s) && e != id;
    assert HasDevices(after, s) <==> HasOtherDevices(ds, s, id) by {
      if HasDevices(after, s) {
        var e :| e in after && after[e].subscriberId == s;
        assert e in ds && e != id;
      }
      if HasOtherDevices(ds, s, id) {
        var e :| e in ds && e != id && ds[e].subscriberId == s;
        assert e in after;
      }
    }
    if Served(ds, s) {
      assert HasDevices(ds, s);
      var o :| IsOlg(ds, o, s);
      if ds[id].group == Olg {
        assert IsOlg(ds, id, s) && o == id;
      } else {
        assert IsOlg(after, o, s);
      }
    }
  }

  lemma OthersSame(ds: Devices, after: Devices, id: Id, s: Id)
    requires forall d :: d != id ==> (d in ds <==> d in after) && (d in ds ==> after[d] == ds[d])
    requires id in ds ==> ds[id].subscriberId != s
    requires id in after ==> after[id].subscriberId != s
    ensures SameFor(ds, after, s)
  {
  }

  lemma PostKeepsOlg(ds: Devices, after: Devices, id: Id, d: SubscriberDevice)
    requires id !in ds && after == ds[id := d] && (d.group == Olg <==> !HasDevices(ds, d.subscriberId))
    ensures ExactlyOneOlg(ds) ==> ExactlyOneOlg(after)
    ensures NoSecondOlg(ds) ==> NoSecondOlg(after)
  {
    forall s
      ensures Served(ds, s) ==> Served(after, s)
      ensures AtMostOneOlg(ds, s) ==> AtMostOneOlg(after, s)
    {
      if s == d.subscriberId {
        AddedDevice(ds, id, d);
        if HasOlg(ds, s) {
          var o :| IsOlg(ds, o, s);
          assert o in ds && ds[o].subscriberId == s;
        }
      } else {
        OthersSame(ds, after, id, s);
        SameForKeeps(ds, after, s);
      }
    }
  }

  lemma DeleteKeepsOlg(ds: Devices, id: Id)
    requires id in ds && (ds[id].group == Olg ==> !HasOtherDevices(ds, ds[id].subscriberId, id))
    ensures ExactlyOneOlg(ds) ==> ExactlyOneOlg(ds - {id})
    ensures NoSecondOlg(ds) ==> NoSecondOlg(ds - {id})
  {
    forall s
      ensures Served(ds, s) ==> Served(ds - {id}, s)
      ensures AtMostOneOlg(ds, s) ==> AtMostOneOlg(ds - {id}, s)
    {
      if s == ds[id].subscriberId {
        RemovedDevice(ds, id);
      } else {
        OthersSame(ds, ds - {id}, id, s);
        SameForKeeps(ds, ds - {id}, s);
      }
    }
  }

  /** Deleting all devices of one subscriber. */
  lemma ClearKeepsOlg(ds: Devices, after: Devices, subscriber: Id)
    requires after == map d | d in ds && ds[d].subscriberId != subscriber :: ds[d]
    ensures ExactlyOneOlg(ds) ==> ExactlyOneOlg(after)
    ensures NoSecondOlg(ds) ==> NoSecondOlg(after)
  {
    forall s
      ensures Served(ds, s) ==> Served(after, s)
      ensures AtMostOneOlg(ds, s) ==> AtMostOneOlg(after, s)
    {
      if s == subscriber {
        assert forall d :: !IsOlg(after, d, s);
        assert !HasDevices(after, s);
      } else {
        assert SameFor(ds, after, s);
        SameForKeeps(ds, after, s);
      }
    }
  }

  lemma InventoryStepGroups(db: Db, r: Request)
    requires r.InventoryPostRequest? || r.InventoryPutRequest? || r.InventoryDeleteRequest?
    ensures forall s :: SameFor(db.subDevices, Step(db, r).subDevices, s)
  {
  }

  lemma PostEffect(db: Db, id: Id, newConfig: Id, invRow: Id, newInv: Id, venueRow: Id, b: SubDeviceBody)
    requires SubDevicePostAllowed(db, b)
    ensures var after := SubDevicePost(db, id, newConfig, invRow, newInv, venueRow, b).subDevices;
      && id in after && after == db.subDevices[id := after[id]]
      && after[id].subscriberId == Update(NONE, b.subscriberId) && after[id].group == b.group.value
  {
  }

  /** The device table after an accepted PUT. */
  lemma PutEffect(db: Db, id: Id, newConfig: Id, invRow: Id, newInv: Id, venueRow: Id, b: SubDeviceBody)
    requires SubDevicePutAllowed(db, id, b)
    ensures var after := SubDevicePut(db, id, newConfig, invRow, newInv, venueRow, b).subDevices;
      && id in after && after == db.subDevices[id := after[id]]
      && after[id].subscriberId == Update(db.subDevices[id].subscriberId, b.subscriberId)
      && after[id].group == b.group.value
  {
  }

  /** Every request but a device PUT keeps exactly one OLG, and every request keeps at most one. */
  lemma StepKeepsOlg(db: Db, r: Request)
    requires Answered(db, r)
    ensures ExactlyOneOlg(db.subDevices) && !r.SubDevicePutRequest? ==> ExactlyOneOlg(Step(db, r).subDevices)
    ensures NoSecondOlg(db.subDevices) ==> NoSecondOlg(Step(db, r).subDevices)
  {
    var ds, after := db.subDevices, Step(db, r).subDevices;
    if r.SubDevicePostRequest? {
      if SubDevicePostAllowed(db, r.device) {
        PostEffect(db, r.id, r.newConfig, r.invRow, r.newInv, r.venueRow, r.device);
        PostKeepsOlg(ds, after, r.id, after[r.id]);
      }
    } else if r.SubDevicePutRequest? {
      if SubDevicePutAllowed(db, r.id, r.device) && NoSecondOlg(ds) {
        PutEffect(db, r.id, r.newConfig, r.invRow, r.newInv, r.venueRow, r.device);
        PutKeepsAtMostOne(ds, r.id, after[r.id], Update(NONE, r.device.subscriberId));
      }
    } else if r.SubDeviceDeleteRequest? {
      if SubDeviceDeleteAllowed(db, r.id, r.monitoringStopped) {
        DeleteEffect(db, r.id, r.invRow, r.monitoringStopped);
        DeleteKeepsOlg(ds, r.id);
      }
    } else if r.RemoveSubscriberRequest? {
      if RemoveSubscriberAllowed(db, r.id, r.subscriber) {
        ClearKeepsOlg(ds, after, r.subscriber);
      }
    } else {
      if r.InventoryPostRequest? || r.InventoryPutRequest? || r.InventoryDeleteRequest? {
        InventoryStepGroups(db, r);
        SameForAllKeeps(ds, after);
      } else {
        OtherTables(db, r);
      }
    }
  }

  lemma SubDevicePostUnique(db: Db, id: Id, newConfig: Id, invRow: Id, newInv: Id, venueRow: Id, b: SubDeviceBody)
    requires UniqueSerials(db) && Answered(db, SubDevicePostRequest(id, newConfig, invRow, newInv, venueRow, b))
    ensures UniqueSerials(SubDevicePost(db, id, newConfig, invRow, newInv, venueRow, b))
  {
    if SubDevicePostAllowed(db, b) {
      var stored := PostStored(db, id, newConfig, b);
      var row := SyncEffect(stored, stored.subDevices[id], invRow, newInv, venueRow);
      RowUnique(stored, SubDevicePost(db, id, newConfig, invRow, newInv, venueRow, b), row);
    }
  }

  lemma SubDevicePutUnique(db: Db, id: Id, newConfig: Id, invRow: Id, newInv: Id, venueRow: Id, b: SubDeviceBody)
    requires UniqueSerials(db) && Answered(db, SubDevicePutRequest(id, newConfig, invRow, newInv, venueRow, b))
    ensures UniqueSerials(SubDevicePut(db, id, newConfig, invRow, newInv, venueRow, b))
  {
    if SubDevicePutAllowed(db, id, b) {
      var stored := PutStored(db, id, newConfig, b);
      assert UniqueSerials(stored);
      if PutSyncs(db, id, newConfig, b) {
        var row := SyncEffect(stored, stored.subDevices[id], invRow, newInv, venueRow);
        RowUnique(stored, SubDevicePut(db, id, newConfig, invRow, newInv, venueRow, b), row);
      }
    }
  }

  lemma SubDeviceDeleteUnique(db: Db, id: Id, invRow: Id, stopped: bool)
    requires UniqueSerials(db)
    ensures UniqueSerials(SubDeviceDelete(db, id, invRow, stopped))
  {
    if SubDeviceDeleteAllowed(db, id, stopped) {
      DeleteEffect(db, id, invRow, stopped);
    }
  }

  lemma InventoryPostUnique(db: Db, id: Id, newConfig: Id, serial: string, b: InventoryBody)
    requires UniqueSerials(db) && Fresh(db, id)
    ensures UniqueSerials(InventoryPost(db, id, newConfig, serial, b))
  {
  }

  lemma InventoryPutUnique(db: Db, id: Id, newConfig: Id, subRow: Id, b: InventoryBody)
    requires UniqueSerials(db)
    ensures UniqueSerials(InventoryPut(db, id, newConfig, subRow, b))
  {
  }

  lemma FreedUnique(db: Db, id: Id, subscriber: Id)
    requires UniqueSerials(db)
    ensures UniqueSerials(InventoryDelete(db, id)) && UniqueSerials(RemoveSubscriber(db, id, subscriber))
  {
  }

  /** Serial numbers stay unique in both tables whatever the request, freeing a record included. */
  lemma StepUnique(db: Db, r: Request)
    requires UniqueSerials(db) && Answered(db, r)
    ensures UniqueSerials(Step(db, r))
  {
    if r.SubDevicePostRequest? {
      SubDevicePostUnique(db, r.id, r.newConfig, r.invRow, r.newInv, r.venueRow, r.device);
    } else if r.SubDevicePutRequest? {
      SubDevicePutUnique(db, r.id, r.newConfig, r.invRow, r.newInv, r.venueRow, r.device);
    } else if r.SubDeviceDeleteRequest? {
      SubDeviceDeleteUnique(db, r.id, r.invRow, r.monitoringStopped);
    } else if r.InventoryPostRequest? {
      InventoryPostUnique(db, r.id, r.newConfig, r.serial, r.inventory);
    } else if r.InventoryPutRequest? {
      InventoryPutUnique(db, r.id, r.newConfig, r.subRow, r.inventory);
    } else if r.InventoryDeleteRequest? {
      FreedUnique(db, r.id, NONE);
    } else if r.RemoveSubscriberRequest? {
      FreedUnique(db, r.id, r.subscriber);
    } else {
      OtherTables(db, r);
    }
  }

  lemma RowUnique(db: Db, after: Db, row: Id)
    requires UniqueSerials(db) && after.subDevices == db.subDevices
    requires row in after.inventory && after.inventory == db.inventory[row := after.inventory[row]]
    requires row in db.inventory ==> db.inventory[row].serialNumber == after.inventory[row].serialNumber
    requires row !in db.inventory ==> !HasInventory(db.inventory, after.inventory[row].serialNumber)
    ensures UniqueSerials(after)
  {
  }

  /** `named` is the subscriber in the body; when it is empty the check looks at the old subscriber. */
  lemma PutKeepsAtMostOne(ds: Devices, id: Id, d: SubscriberDevice, named: Id)
    requires NoSecondOlg(ds) && id in ds
    requires d.group == Olg ==> !HasOtherOlg(ds, if named == NONE then ds[id].subscriberId else named, id)
    requires d.subscriberId == named || (named == NONE && d.subscriberId == ds[id].subscriberId)
    ensures NoSecondOlg(ds[id := d])
  {
    var after := ds[id := d];
    forall s | s != NONE ensures AtMostOneOlg(after, s) {
      assert AtMostOneOlg(ds, s);
      assert forall e :: e != id && IsOlg(after, e, s) ==> IsOlg(ds, e, s);
    }
  }

  /** When a PUT keeps exactly one OLG: the device keeps its subscriber and its group, or it moves so that
      neither the subscriber it leaves loses its OLG nor the one it joins misses or doubles it. */
  ghost predicate Balanced(ds: Devices, id: Id, d: SubscriberDevice)
    requires id in ds
  {
    var before := ds[id];
    if d.subscriberId == before.subscriberId then d.group == before.group
    else
      && (before.group == Olg ==> !HasOtherDevices(ds, before.subscriberId, id))
      && (d.group == Olg <==> !HasDevices(ds, d.subscriberId))
  }

  lemma ReplacedDevice(ds: Devices, id: Id, d: SubscriberDevice)
    requires ExactlyOneOlg(ds) && id in ds
    ensures ExactlyOneOlg(ds[id := d]) <==> Balanced(ds, id, d)
  {
    if d.subscriberId == ds[id].subscriberId {
      ReplacedInPlace(ds, id, d);
    } else {
      ReplacedElsewhere(ds, id, d);
    }
  }

  lemma ReplacedInPlace(ds: Devices, id: Id, d: SubscriberDevice)
    requires ExactlyOneOlg(ds) && id in ds && d.subscriberId == ds[id].subscriberId
    ensures ExactlyOneOlg(ds[id := d]) <==> d.group == ds[id].group
  {
    var after, s := ds[id := d], d.subscriberId;
    if d.group == ds[id].group {
      forall s' ensures SameFor(ds, after, s') {
      }
      SameForAllKeeps(ds, after);
    } else {
      assert Served(ds, s) && HasDevices(ds, s);
      var o :| IsOlg(ds, o, s);
      assert forall e :: e != id ==> (IsOlg(after, e, s) <==> IsOlg(ds, e, s));
      if d.group == Olg {
        assert IsOlg(after, id, s) && IsOlg(after, o, s) && o != id;
        assert !AtMostOneOlg(after, s);
      } else {
        assert IsOlg(ds, id, s) && o == id;
        assert after[id].subscriberId == s && HasDevices(after, s);
        assert forall e :: !IsOlg(after, e, s);
      }
      assert !Served(after, s);
    }
  }

  lemma ReplacedElsewhere(ds: Devices, id: Id, d: SubscriberDevice)
    requires ExactlyOneOlg(ds) && id in ds && d.subscriberId != ds[id].subscriberId
    ensures ExactlyOneOlg(ds[id := d]) <==>
              (ds[id].group == Olg ==> !HasOtherDevices(ds, ds[id].subscriberId, id)) && (d.group == Olg <==> !HasDevices(ds, d.subscriberId))
  {
    var after, without := ds[id := d], ds - {id};
    var s, s' := ds[id].subscriberId, d.subscriberId;
    assert Served(ds, s) && Served(ds, s');
    RemovedDevice(ds, id);
    OthersSame(without, after, id, s);
    SameForKeeps(without, after, s);
    OthersSame(ds, without, id, s');
    SameForKeeps(ds, without, s');
    AddedDevice(without, id, d);
    assert without[id := d] == after;
    SameDevices(ds, without, s');
    forall x | x != s && x != s' ensures Served(after, x) {
      assert Served(ds, x);
      OthersSame(ds, after, id, x);
      SameForKeeps(ds, after, x);
    }
  }

  lemma SameDevices(ds: Devices, after: Devices, s: Id)
    requires SameFor(ds, after, s)
    ensures HasDevices(ds, s) <==> HasDevices(after, s)
  {
    if HasDevices(ds, s) {
      var d :| d in ds && ds[d].subscriberId == s;
      assert d in after && after[d].subscriberId == s;
    }
    if HasDevices(after, s) {
      var d :| d in after && after[d].subscriberId == s;
      assert d in ds && ds[d].subscriberId == s;
    }
  }

  /** The exact condition for a PUT to keep exactly one OLG: turning the only OLG into an AP, for one, fails it. */
  lemma PutKeepsExactlyOne(db: Db, id: Id, newConfig: Id, invRow: Id, newInv: Id, venueRow: Id, b: SubDeviceBody)
    requires ExactlyOneOlg(db.subDevices) && SubDevicePutAllowed(db, id, b)
    ensures var d := db.subDevices[id].(subscriberId := Update(db.subDevices[id].subscriberId, b.subscriberId), group := b.group.value);
      ExactlyOneOlg(SubDevicePut(db, id, newConfig, invRow, newInv, venueRow, b).subDevices) <==> Balanced(db.subDevices, id, d)
  {
    PutEffect(db, id, newConfig, invRow, newInv, venueRow, b);
    ReplacedDevice(db.subDevices, id, SubDevicePut(db, id, newConfig, invRow, newInv, venueRow, b).subDevices[id]);
  }

  /** For instance, a PUT that turns the only device of a subscriber from an OLG into an AP is accepted. */
  lemma OnlyOlgTurnsIntoAp()
    ensures var d := SubscriberDevice("001122334455", "subscriber", Olg, NONE, "");
      var db := Db(map[], map["d" := d], map[], map[], map[], map[], map[], {}, {}, {});
      var b := SubDeviceBody(true, "001122334455", None, Some(Ap), None, Absent, None, false);
      && ExactlyOneOlg(db.subDevices) && SubDevicePutAllowed(db, "d", b)
      && !ExactlyOneOlg(SubDevicePut(db, "d", "c", NONE, "t", NONE, b).subDevices)
  {
    var d := SubscriberDevice("001122334455", "subscriber", Olg, NONE, "");
    var ds: Devices := map["d" := d];
    var db := Db(map[], ds, map[], map[], map[], map[], map[], {}, {}, {});
    var b := SubDeviceBody(true, "001122334455", None, Some(Ap), None, Absent, None, false);
    forall s ensures Served(ds, s) {
      if s == "subscriber" {
        assert IsOlg(ds, "d", s);
      } else {
        assert !HasDevices(ds, s);
      }
    }
    PutKeepsExactlyOne(db, "d", "c", NONE, "t", NONE, b);
  }

  /** Over every run serial numbers stay unique, there is never a second OLG, and over every run without device PUTs exactly one. */
  lemma {:induction false} RunKeepsOlg(db: Db, rs: seq<Request>)
    requires RunAnswered(db, rs)
    ensures UniqueSerials(db) ==> UniqueSerials(Run(db, rs))
    ensures NoSecondOlg(db.subDevices) ==> NoSecondOlg(Run(db, rs).subDevices)
    ensures ExactlyOneOlg(db.subDevices) && (forall i :: 0 <= i < |rs| ==> !rs[i].SubDevicePutRequest?) ==>
              ExactlyOneOlg(Run(db, rs).subDevices)
    decreases |rs|
  {
    if rs != [] {
      StepKeepsOlg(db, rs[0]);
      if UniqueSerials(db) {
        StepUnique(db, rs[0]);
      }
      RunKeepsOlg(Step(db, rs[0]), rs[1..]);
    }
  }
}
