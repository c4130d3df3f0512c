/** Cycles among the parents of venues: which requests make them, and what they do to the walk up and to the tree. */
module VenueCycles {
  import opened Tables
  import opened Handlers
  import opened ScopedTree
  import opened Visibility
  import Guarantees
  import Memberships
  import Hierarchy
  import SubscriberDevices

  // ---------------------------------------------------------------- walks

  /** The walk up from the venue ends. */
  ghost predicate Ends(vs: Venues, v: Id) { exists d: nat :: ParentsEnd(vs, v, d) }

  ghost predicate AllEnd(vs: Venues) { forall v :: v in vs ==> Ends(vs, v) }

  /** Venue `a` is above venue `v`, whose walk ends. */
  ghost predicate IsAbove(vs: Venues, v: Id, a: Id) { exists d: nat :: ParentsEnd(vs, v, d) && Above(vs, v, a, d) }

  lemma {:induction false} MoreDepth(vs: Venues, v: Id, d: nat, more: nat)
    requires ParentsEnd(vs, v, d) && d <= more
    ensures ParentsEnd(vs, v, more)
    decreases d
  {
    if v in vs && vs[v].parent != NONE && vs[v].parent != v {
      MoreDepth(vs, vs[v].parent, d - 1, more - 1);
    }
  }

  /** What is above does not depend on the depth. */
  lemma {:induction false} AboveAtDepth(vs: Venues, v: Id, a: Id, d: nat, d': nat)
    requires ParentsEnd(vs, v, d) && ParentsEnd(vs, v, d') && Above(vs, v, a, d)
    ensures Above(vs, v, a, d')
    decreases d
  {
    if a != vs[v].parent {
      AboveAtDepth(vs, vs[v].parent, a, d - 1, d' - 1);
    }
  }

  // ---------------------------------------------------------------- giving a venue a parent

  function Reparent(vs: Venues, id: Id, p: Id): Venues
    requires id in vs
  {
    vs[id := vs[id].(parent := p)]
  }

  /** A walk that does not meet the venue stays as it was. */
  lemma {:induction false} AvoidingWalk(vs: Venues, id: Id, p: Id, v: Id, d: nat)
    requires id in vs && v != id && ParentsEnd(vs, v, d) && !Above(vs, v, id, d)
    ensures ParentsEnd(Reparent(vs, id, p), v, d)
    decreases d
  {
    if v in vs && vs[v].parent != NONE && vs[v].parent != v {
      AvoidingWalk(vs, id, p, vs[v].parent, d - 1);
    }
  }

  /** A walk that meets the venue goes on from there. */
  lemma {:induction false} ContinuedWalk(vs: Venues, id: Id, p: Id, v: Id, d: nat, k: nat)
    requires id in vs && ParentsEnd(vs, v, d) && ParentsEnd(Reparent(vs, id, p), id, k)
    ensures ParentsEnd(Reparent(vs, id, p), v, d + k)
    decreases d
  {
    var after := Reparent(vs, id, p);
    if v == id {
      MoreDepth(after, id, k, d + k);
    } else if v in vs && vs[v].parent != NONE && vs[v].parent != v {
      ContinuedWalk(vs, id, p, vs[v].parent, d - 1, k);
    }
  }

  /** On the way from `p` round to `id` and back to `p`. */
  ghost predicate OnLoop(vs: Venues, id: Id, x: Id) { x == id || IsAbove(vs, x, id) }

  lemma {:induction false} LoopHasNoEnd(vs: Venues, id: Id, p: Id, x: Id, n: nat)
    requires id in vs && p != NONE && p != id && IsAbove(vs, p, id) && OnLoop(vs, id, x)
    ensures !ParentsEnd(Reparent(vs, id, p), x, n)
    decreases n
  {
    if x == id {
      if n > 0 {
        LoopHasNoEnd(vs, id, p, p, n - 1);
      }
    } else {
      var d: nat :| ParentsEnd(vs, x, d) && Above(vs, x, id, d);
      if n > 0 {
        assert vs[x].parent == id || (ParentsEnd(vs, vs[x].parent, d - 1) && Above(vs, vs[x].parent, id, d - 1));
        LoopHasNoEnd(vs, id, p, vs[x].parent, n - 1);
      }
    }
  }

  /** The guard the handler lacks: every walk still ends if and only if the new parent is the venue itself or not below it. */
  lemma ReparentEndsExactly(vs: Venues, id: Id, p: Id)
    requires AllEnd(vs) && id in vs && p != NONE && p in vs
    ensures AllEnd(Reparent(vs, id, p)) <==> p == id || !IsAbove(vs, p, id)
  {
    var after := Reparent(vs, id, p);
    if p == id || !IsAbove(vs, p, id) {
      ghost var k: nat := 0;
      if p != id {
        assert Ends(vs, p);
        var d: nat :| ParentsEnd(vs, p, d);
        AvoidingWalk(vs, id, p, p, d);
        k := d + 1;
      }
      assert ParentsEnd(after, id, k);
      forall v | v in after ensures Ends(after, v) {
        assert Ends(vs, v);
        var d: nat :| ParentsEnd(vs, v, d);
        ContinuedWalk(vs, id, p, v, d, k);
      }
    } else {
      forall n: nat ensures !ParentsEnd(after, id, n) {
        LoopHasNoEnd(vs, id, p, id, n);
      }
      assert !Ends(after, id);
    }
  }

  // ---------------------------------------------------------------- requests

  /** No venue comes or gets another parent. */
  ghost predicate NoNewParents(vs: Venues, after: Venues) {
    forall v :: v in after ==> v in vs && after[v].parent == vs[v].parent
  }

  lemma {:induction false} FewerWalk(vs: Venues, after: Venues, v: Id, d: nat)
    requires NoNewParents(vs, after) && ParentsEnd(vs, v, d)
    ensures ParentsEnd(after, v, d)
    decreases d
  {
    if v in after && vs[v].parent != NONE && vs[v].parent != v {
      FewerWalk(vs, after, vs[v].parent, d - 1);
    }
  }

  lemma NoNewParentsEnd(vs: Venues, after: Venues)
    requires NoNewParents(vs, after) && AllEnd(vs)
    ensures AllEnd(after)
  {
    forall v | v in after ensures Ends(after, v) {
      assert Ends(vs, v);
      var d: nat :| ParentsEnd(vs, v, d);
      FewerWalk(vs, after, v, d);
    }
  }

  lemma {:induction false} WalkWithNew(vs: Venues, after: Venues, id: Id, v: Id, d: nat)
    requires id in after && NoNewParents(vs, after - {id}) && v != id && ParentsEnd(vs, v, d)
    requires after[id].parent == NONE || forall x :: x in vs ==> vs[x].parent != id
    ensures ParentsEnd(after, v, d)
    decreases d
  {
    if v in after {
      assert v in after - {id};
      if vs[v].parent != NONE && vs[v].parent != v && vs[v].parent != id {
        WalkWithNew(vs, after, id, vs[v].parent, d - 1);
      }
    }
  }

  /** A new venue without a parent, or one that nobody names as a parent yet. */
  lemma NewVenueEnds(vs: Venues, after: Venues, id: Id)
    requires AllEnd(vs) && id !in vs && id in after && NoNewParents(vs, after - {id})
    requires after[id].parent == NONE || after[id].parent in vs
    requires after[id].parent == NONE || forall x :: x in vs ==> vs[x].parent != id
    ensures AllEnd(after)
  {
    forall v | v in after ensures Ends(after, v) {
      if v != id {
        assert v in after - {id} && Ends(vs, v);
        var d: nat :| ParentsEnd(vs, v, d);
        WalkWithNew(vs, after, id, v, d);
      } else if after[id].parent == NONE {
        assert ParentsEnd(after, id, 0);
      } else {
        assert Ends(vs, after[id].parent);
        var d: nat :| ParentsEnd(vs, after[id].parent, d);
        WalkWithNew(vs, after, id, after[id].parent, d);
        assert ParentsEnd(after, id, d + 1);
      }
    }
  }

  /** A PUT with a parent keeps every walk ending if and only if it meets the guard. */
  lemma VenuePutEndsExactly(db: Db, id: Id, valid: bool, entity: Option<Id>, parent: Option<Id>, rrm: Option<string>)
    requires AllEnd(db.venues) && VenuePutAllowed(db, id, valid, entity, parent)
    ensures AllEnd(VenuePut(db, id, valid, entity, parent, rrm).venues) <==>
              parent.None? || parent.value == id || !IsAbove(db.venues, parent.value, id)
  {
    var vs, after := db.venues, VenuePut(db, id, valid, entity, parent, rrm).venues;
    if parent.None? {
      NoNewParentsEnd(vs, after);
    } else {
      ReparentEndsExactly(vs, id, parent.value);
      PutParents(db, id, valid, entity, parent, rrm);
      var moved := Reparent(vs, id, parent.value);
      if AllEnd(moved) {
        NoNewParentsEnd(moved, after);
      }
      if AllEnd(after) {
        NoNewParentsEnd(after, moved);
      }
    }
  }

  lemma PutParents(db: Db, id: Id, valid: bool, entity: Option<Id>, parent: Option<Id>, rrm: Option<string>)
    requires VenuePutAllowed(db, id, valid, entity, parent) && parent.Some?
    ensures var moved, after := Reparent(db.venues, id, parent.value), VenuePut(db, id, valid, entity, parent, rrm).venues;
      NoNewParents(moved, after) && NoNewParents(after, moved)
  {
    Guarantees.VenuePutGives(db, id, entity, parent, rrm);
  }

  lemma MovedParents(vs: Venues, after: Venues, x: Id, from: Id, to: Id)
    requires Memberships.DevicesMoved(vs, after, x, from, to)
    ensures NoNewParents(vs, after)
  {
  }

  lemma InventoryRequestParents(db: Db, r: Request)
    requires Answered(db, r) && (r.InventoryPostRequest? || r.InventoryPutRequest? || r.InventoryDeleteRequest?)
    ensures NoNewParents(db.venues, Step(db, r).venues)
  {
    var after := Step(db, r).venues;
    if r.InventoryPostRequest? {
      if InventoryPostAllowed(db, r.serial, r.inventory) {
        Memberships.Joins(db.venues, r.id, Update(NONE, r.inventory.venue));
        MovedParents(db.venues, after, r.id, NONE, Update(NONE, r.inventory.venue));
      }
    } else if r.InventoryPutRequest? {
      if InventoryPutAllowed(db, r.id, r.inventory) && r.inventory.venue.Some? {
        Memberships.DevicesMove(db.venues, r.id, db.inventory[r.id].venue, r.inventory.venue.value);
        MovedParents(db.venues, after, r.id, db.inventory[r.id].venue, r.inventory.venue.value);
      }
    } else if InventoryDeleteAllowed(db, r.id) {
      Guarantees.InventoryDeleteGives(db, r.id);
    }
  }

  lemma SyncParents(db: Db, d: SubscriberDevice, invRow: Id, newInv: Id, venueRow: Id)
    requires InventoryRow(db, d.serialNumber, invRow)
    ensures NoNewParents(db.venues, SyncInventory(db, d, invRow, newInv, venueRow).venues)
  {
    var after := SyncInventory(db, d, invRow, newInv, venueRow);
    var row := Guarantees.RowOf(invRow, newInv);
    Guarantees.SyncGives(db, d, invRow, newInv, venueRow);
    MovedParents(db.venues, after.venues, row, Guarantees.VenueOf(db, invRow), after.inventory[row].venue);
  }

  /** Requests on devices and inventory change no parent. */
  lemma DeviceRequestParents(db: Db, r: Request)
    requires Answered(db, r)
    requires r.InventoryPostRequest? || r.InventoryPutRequest? || r.InventoryDeleteRequest? || r.SubDevicePostRequest? || r.SubDevicePutRequest?
    ensures NoNewParents(db.venues, Step(db, r).venues)
  {
    if r.SubDevicePostRequest? {
      if SubDevicePostAllowed(db, r.device) {
        SyncParents(PostStored(db, r.id, r.newConfig, r.device), PostedDevice(r.newConfig, r.device), r.invRow, r.newInv, r.venueRow);
      }
    } else if r.SubDevicePutRequest? {
      if SubDevicePutAllowed(db, r.id, r.device) {
        var stored := PutStored(db, r.id, r.newConfig, r.device);
        SyncParents(stored, stored.subDevices[r.id], r.invRow, r.newInv, r.venueRow);
      }
    } else {
      InventoryRequestParents(db, r);
    }
  }

  lemma DeviceDeleteParents(db: Db, id: Id, invRow: Id, stopped: bool)
    ensures NoNewParents(db.venues, SubDeviceDelete(db, id, invRow, stopped).venues)
  {
    if invRow in db.inventory {
      Memberships.Leaves(db.venues, invRow, db.inventory[invRow].venue);
    }
  }

  lemma {:induction false} DropVenuesParents(db: Db, rows: seq<Id>)
    ensures NoNewParents(db.venues, DropVenues(db, rows).venues)
    decreases |rows|
  {
    if rows != [] && rows[0] in db.venues && db.venues[rows[0]].devices == [] {
      DropVenuesParents(db.(entities := RemoveVenueFrom(db.entities, db.venues[rows[0]].entity, rows[0]),
                            venues := db.venues - {rows[0]}), rows[1..]);
    }
  }

  lemma VenueDeleteParents(db: Db, id: Id)
    ensures NoNewParents(db.venues, VenueDelete(db, id).venues)
  {
  }

  lemma VenuePostEnds(db: Db, id: Id, valid: bool, roleCreated: bool, v: Venue)
    requires AllEnd(db.venues) && Fresh(db, id) && forall x :: x in db.venues ==> db.venues[x].parent != id
    ensures AllEnd(VenuePost(db, id, valid, roleCreated, v).venues)
  {
    if VenuePostAllowed(db, valid, v) {
      var after := VenuePost(db, id, valid, roleCreated, v).venues;
      Guarantees.VenuePostCases(db, id, valid, roleCreated, v);
      if roleCreated {
        NewVenueEnds(db.venues, after, id);
      } else {
        NoNewParentsEnd(db.venues, after);
      }
    }
  }

  lemma SignupPostEnds(db: Db, r: SignupRequest)
    requires AllEnd(db.venues) && Fresh(db, r.newVenue)
    ensures AllEnd(SignupPost(db, r).venues)
  {
    var after := SignupPost(db, r).venues;
    if r.newVenue in after {
      NewVenueEnds(db.venues, after, r.newVenue);
    } else {
      assert after == db.venues;
    }
  }

  /** What a request must meet: a PUT the guard, and a POST an id that no venue names as its parent. */
  ghost predicate Guarded(db: Db, r: Request) {
    match r
    case VenuePutRequest(id, valid, entity, parent, rrm) =>
      VenuePutAllowed(db, id, valid, entity, parent) && parent.Some? ==> parent.value == id || !IsAbove(db.venues, parent.value, id)
    case VenuePostRequest(id, valid, roleCreated, v) => forall x :: x in db.venues ==> db.venues[x].parent != id
    case _ => true
  }

  lemma VenuePutEnds(db: Db, id: Id, valid: bool, entity: Option<Id>, parent: Option<Id>, rrm: Option<string>)
    requires AllEnd(db.venues) && Guarded(db, VenuePutRequest(id, valid, entity, parent, rrm))
    ensures AllEnd(VenuePut(db, id, valid, entity, parent, rrm).venues)
  {
    if VenuePutAllowed(db, id, valid, entity, parent) {
      VenuePutEndsExactly(db, id, valid, entity, parent, rrm);
    }
  }

  lemma StepEnds(db: Db, r: Request)
    requires AllEnd(db.venues) && Answered(db, r) && Guarded(db, r)
    ensures AllEnd(Step(db, r).venues)
  {
    if r.VenuePostRequest? {
      VenuePostEnds(db, r.id, r.valid, r.roleCreated, r.venue);
    } else if r.VenuePutRequest? {
      VenuePutEnds(db, r.id, r.valid, r.toEntity, r.toParent, r.rrm);
    } else if r.SignupPostRequest? {
      SignupPostEnds(db, r.signup);
    } else {
      OtherStepEnds(db, r);
    }
  }

  lemma DeleteRequestParents(db: Db, r: Request)
    requires r.VenueDeleteRequest? || r.SubDeviceDeleteRequest? || r.SignupDeleteRequest?
    ensures NoNewParents(db.venues, Step(db, r).venues)
  {
    if r.VenueDeleteRequest? {
      VenueDeleteParents(db, r.id);
    } else if r.SubDeviceDeleteRequest? {
      DeviceDeleteParents(db, r.id, r.invRow, r.monitoringStopped);
    } else if r.SignupDeleteRequest? {
      DropVenuesParents(db, r.rows);
    }
  }

  lemma OtherStepEnds(db: Db, r: Request)
    requires AllEnd(db.venues) && Answered(db, r)
    requires !r.VenuePostRequest? && !r.VenuePutRequest? && !r.SignupPostRequest?
    ensures AllEnd(Step(db, r).venues)
  {
    if r.InventoryPostRequest? || r.InventoryPutRequest? || r.InventoryDeleteRequest? || r.SubDevicePostRequest? || r.SubDevicePutRequest? {
      DeviceRequestParents(db, r);
      NoNewParentsEnd(db.venues, Step(db, r).venues);
    } else if r.VenueDeleteRequest? || r.SubDeviceDeleteRequest? || r.SignupDeleteRequest? {
      DeleteRequestParents(db, r);
      NoNewParentsEnd(db.venues, Step(db, r).venues);
    } else {
      Hierarchy.SameVenues(db, r);
    }
  }

  ghost predicate GuardedRun(db: Db, rs: seq<Request>)
    decreases |rs|
  {
    rs == [] || (Guarded(db, rs[0]) && GuardedRun(Step(db, rs[0]), rs[1..]))
  }

  /** Over every run whose requests meet the guard, every walk up ends. */
  lemma {:induction false} RunEnds(db: Db, rs: seq<Request>)
    requires AllEnd(db.venues) && RunAnswered(db, rs) && GuardedRun(db, rs)
    ensures AllEnd(Run(db, rs).venues)
    decreases |rs|
  {
    if rs != [] {
      StepEnds(db, rs[0]);
      RunEnds(Step(db, rs[0]), rs[1..]);
    }
  }

  // ---------------------------------------------------------------- what cycles do

  function InEntity(parent: Id, children: seq<Id>): Venue { Venue("", "e", parent, children, [], [], NONE, "") }

  /** An entity with the given venues. */
  function OneEntity(venues: Venues, listed: seq<Id>): Db {
    Db(map[], map[], venues, map["e" := Entity(ROOT, [], listed, [], [], [], [], [], NONE, "")], map[], map[], map[], {}, {}, {})
  }

  /** Two accepted PUTs make two venues each other's parents; from then on the walk up from either has no end. */
  lemma TwoPutsMakeACycle()
    ensures var db := OneEntity(map["a" := InEntity(NONE, []), "b" := InEntity(NONE, [])], ["a", "b"]);
      var rs := [VenuePutRequest("a", true, None, Some("b"), None), VenuePutRequest("b", true, None, Some("a"), None)];
      && AllEnd(db.venues) && RunAnswered(db, rs)
      && VenuePutAllowed(db, "a", true, None, Some("b")) && VenuePutAllowed(Step(db, rs[0]), "b", true, None, Some("a"))
      && !Ends(Run(db, rs).venues, "a")
  {
    var db := OneEntity(map["a" := InEntity(NONE, []), "b" := InEntity(NONE, [])], ["a", "b"]);
    var first, second := VenuePutRequest("a", true, None, Some("b"), None), VenuePutRequest("b", true, None, Some("a"), None);
    var mid := Step(db, first);
    assert ParentsEnd(db.venues, "a", 0) && ParentsEnd(db.venues, "b", 0);
    assert mid.venues["a"].parent == "b" && mid.venues["b"].parent == NONE;
    assert ParentsEnd(mid.venues, "b", 0) && ParentsEnd(mid.venues, "a", 1) && Above(mid.venues, "a", "b", 1);
    PutParents(mid, "b", true, None, Some("a"), None);
    var after := Step(mid, second).venues;
    forall n: nat ensures !ParentsEnd(after, "a", n) {
      LoopHasNoEnd(mid.venues, "b", "a", "a", n);
      if ParentsEnd(after, "a", n) {
        FewerWalk(after, Reparent(mid.venues, "b", "a"), "a", n);
      }
    }
    SubscriberDevices.TwoRequests(db, first, second);
  }

  /** One accepted PUT makes a venue its own parent: lists and fields still agree and every visible place has a record, yet the
      venue, which a role on its entity shows, is in no tree. */
  lemma SelfParentDropsOut()
    ensures var db := OneEntity(map["a" := InEntity(NONE, [])], ["a"]);
      var after := VenuePut(db, "a", true, None, Some("a"), None);
      var es, vs, seen := after.entities, after.venues, Seen({"e"}, {"a"});
      && VenuePutAllowed(db, "a", true, None, Some("a"))
      && Coherent(es, vs) && Within(es, vs, seen) && Recorded(es, vs, seen)
      && Visible(es, vs, [Role(NONE, "e", true)], 0).venues == {"a"}
      && Occurrences(es, vs, seen, ["e"], ["a"], "a") == 0
  {
    var db := OneEntity(map["a" := InEntity(NONE, [])], ["a"]);
    var after := VenuePut(db, "a", true, None, Some("a"), None);
    var es, vs, seen := after.entities, after.venues, Seen({"e"}, {"a"});
    assert es == db.entities;
    WithOne("a");
    assert vs["a"] == InEntity("a", ["a"]) && vs.Keys == {"a"};
    assert vs == map["a" := InEntity("a", ["a"])];
    forall d: nat ensures !VenueShown(es, vs, seen, "a", d) {
      OwnParentNeverShows(es, vs, seen, "a", d);
    }
    VenueOnce(es, vs, seen, ["e"], ["a"], "a");
    RoleShowsSelfParent(es, vs);
  }

  lemma {:induction false} OwnParentNeverShows(es: Entities, vs: Venues, seen: Seen, v: Id, d: nat)
    requires v in vs && v != NONE && vs[v].parent == v && v in seen.venues
    ensures !VenueShown(es, vs, seen, v, d)
    decreases d
  {
    if d > 0 {
      OwnParentNeverShows(es, vs, seen, v, d - 1);
    }
  }

  lemma RoleShowsSelfParent(es: Entities, vs: Venues)
    requires "e" in es && es["e"].venues == ["a"] && vs == map["a" := InEntity("a", ["a"])]
    ensures Visible(es, vs, [Role(NONE, "e", true)], 0).venues == {"a"}
  {
    var role := Role(NONE, "e", true);
    assert [role][1..] == [] && ["a"][1..] == [];
    var all := FromRoles(es, vs, Seen({}, {}), [role], 0);
    assert all == FromRoles(es, vs, FromRole(es, vs, Seen({}, {}), role, 0), [], 0);
    AddVenuesAreLeast(vs, {}, ["a"], {"a"});
    assert "a" in AddVenues(vs, {}, ["a"]);
    assert Denied(vs, [role]) == {};
  }

  /** Where every walk ends and no venue is its own parent, walking up over visible parents ends too, whatever part of the table
      is visible. */
  lemma {:induction false} VisibleWalkEnds(all: Venues, vs: Venues, v: Id, d: nat)
    requires NoNewParents(all, vs) && v in vs && ParentsEnd(all, v, d) && NONE !in vs
    requires forall x :: x in all ==> all[x].parent != x
    ensures exists k: nat :: VenueDepth(vs, v, k)
    decreases d
  {
    if vs[v].parent in vs {
      VisibleWalkEnds(all, vs, vs[v].parent, d - 1);
      var k: nat :| VenueDepth(vs, vs[v].parent, k);
      assert VenueDepth(vs, v, k + 1);
    } else {
      assert VenueDepth(vs, v, 0);
    }
  }
}
