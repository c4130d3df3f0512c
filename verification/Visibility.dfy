/** What a user may see: the ids the roles of the user open up.

A role on an entity opens the entity, its venues and all venues below them; a role on a venue opens the venue and everything
above it. Whether the policy of a role allows reading is part of the role. */
module Visibility {
  import opened Tables
  import opened ScopedTree

  datatype Role = Role(venue: Id, entity: Id, allows: bool)

  // ---------------------------------------------------------------- downwards

  lemma Fewer(table: set<Id>, seen: set<Id>, more: set<Id>)
    requires seen <= more
    ensures |table - more| <= |table - seen|
  {
    SubsetSize(table - more, table - seen);
  }

  lemma OneFewer(table: set<Id>, seen: set<Id>, id: Id)
    requires id in table && id !in seen
    ensures |table - (seen + {id})| < |table - seen|
  {
    assert table - seen == (table - (seen + {id})) + {id};
  }

  /** A venue and all venues below it; one that was seen before is not entered again, so cycles do no harm. */
  function AddVenue(vs: Venues, seen: set<Id>, id: Id): (r: set<Id>)
    ensures seen <= r && id in r
    decreases |vs.Keys - seen|, 0
  {
    if id in seen then seen
    else if id in vs then
      OneFewer(vs.Keys, seen, id);
      AddVenues(vs, seen + {id}, vs[id].children)
    else seen + {id}
  }

  function AddVenues(vs: Venues, seen: set<Id>, ids: seq<Id>): (r: set<Id>)
    ensures seen <= r && forall i :: i in ids ==> i in r
    decreases |vs.Keys - seen|, |ids|
  {
    if ids == [] then seen
    else
      var next := AddVenue(vs, seen, ids[0]);
      Fewer(vs.Keys, seen, next);
      AddVenues(vs, next, ids[1..])
  }

  /** Whoever sees a venue that is not in `except` sees its children. */
  ghost predicate ClosedBut(vs: Venues, seen: set<Id>, except: set<Id>) {
    forall v, c :: v in seen && v !in except && v in vs && c in vs[v].children ==> c in seen
  }

  lemma {:induction false} AddVenueCloses(vs: Venues, seen: set<Id>, id: Id)
    ensures ClosedBut(vs, AddVenue(vs, seen, id), seen)
    decreases |vs.Keys - seen|, 0
  {
    if id !in seen && id in vs {
      OneFewer(vs.Keys, seen, id);
      AddVenuesClose(vs, seen + {id}, vs[id].children);
    }
  }

  lemma {:induction false} AddVenuesClose(vs: Venues, seen: set<Id>, ids: seq<Id>)
    ensures ClosedBut(vs, AddVenues(vs, seen, ids), seen)
    decreases |vs.Keys - seen|, |ids|
  {
    if ids != [] {
      var next := AddVenue(vs, seen, ids[0]);
      AddVenueCloses(vs, seen, ids[0]);
      Fewer(vs.Keys, seen, next);
      AddVenuesClose(vs, next, ids[1..]);
    }
  }

  lemma {:induction false} AddVenueIsLeast(vs: Venues, seen: set<Id>, id: Id, s: set<Id>)
    requires seen <= s && id in s && ClosedBut(vs, s, seen)
    ensures AddVenue(vs, seen, id) <= s
    decreases |vs.Keys - seen|, 0
  {
    if id !in seen && id in vs {
      OneFewer(vs.Keys, seen, id);
      AddVenuesAreLeast(vs, seen + {id}, vs[id].children, s);
    }
  }

  /** Nothing is added but what has to be: the result is the least closed set with the given ids. */
  lemma {:induction false} AddVenuesAreLeast(vs: Venues, seen: set<Id>, ids: seq<Id>, s: set<Id>)
    requires seen <= s && (forall i :: i in ids ==> i in s) && ClosedBut(vs, s, seen)
    ensures AddVenues(vs, seen, ids) <= s
    decreases |vs.Keys - seen|, |ids|
  {
    if ids != [] {
      var next := AddVenue(vs, seen, ids[0]);
      AddVenueIsLeast(vs, seen, ids[0], s);
      Fewer(vs.Keys, seen, next);
      AddVenuesAreLeast(vs, next, ids[1..], s);
    }
  }

  // ---------------------------------------------------------------- upwards

  /** The parents of a venue end after at most `depth` steps; only a venue that is its own parent is guarded against. */
  predicate ParentsEnd(vs: Venues, id: Id, depth: nat)
    decreases depth
  {
    id !in vs || vs[id].parent == NONE || vs[id].parent == id || (depth > 0 && ParentsEnd(vs, vs[id].parent, depth - 1))
  }

  function AddAncestors(vs: Venues, seen: Seen, id: Id, depth: nat): Seen
    requires ParentsEnd(vs, id, depth)
    decreases depth
  {
    if id !in vs then seen
    else
      var v := vs[id];
      var next := if v.entity != NONE then seen.(entities := seen.entities + {v.entity}) else seen;
      if v.parent != NONE && v.parent != id then
        AddAncestors(vs, next.(venues := next.venues + {v.parent}), v.parent, depth - 1)
      else next
  }

  /** `a` is above `id`. */
  ghost predicate Above(vs: Venues, id: Id, a: Id, depth: nat)
    requires ParentsEnd(vs, id, depth)
    decreases depth
  {
    && id in vs && vs[id].parent != NONE && vs[id].parent != id
    && (a == vs[id].parent || Above(vs, vs[id].parent, a, depth - 1))
  }

  /** The entity of the venue or of one above it. */
  ghost predicate Houses(vs: Venues, id: Id, e: Id, depth: nat)
    requires ParentsEnd(vs, id, depth)
    decreases depth
  {
    && id in vs && e != NONE
    && (e == vs[id].entity || (vs[id].parent != NONE && vs[id].parent != id && Houses(vs, vs[id].parent, e, depth - 1)))
  }

  /** The walk up adds exactly the venues above and their entities. */
  lemma {:induction false} AncestorsExactly(vs: Venues, seen: Seen, id: Id, depth: nat)
    requires ParentsEnd(vs, id, depth)
    ensures forall a :: a in AddAncestors(vs, seen, id, depth).venues <==> a in seen.venues || Above(vs, id, a, depth)
    ensures forall e :: e in AddAncestors(vs, seen, id, depth).entities <==> e in seen.entities || Houses(vs, id, e, depth)
    decreases depth
  {
    if id in vs && vs[id].parent != NONE && vs[id].parent != id {
      var v := vs[id];
      var next := if v.entity != NONE then seen.(entities := seen.entities + {v.entity}) else seen;
      AncestorsExactly(vs, next.(venues := next.venues + {v.parent}), v.parent, depth - 1);
    }
  }

  // ---------------------------------------------------------------- roles

  /** An entity that was seen before is not entered again. */
  function FromEntity(es: Entities, vs: Venues, seen: Seen, e: Id): Seen {
    if e in seen.entities then seen
    else
      var venues := if e in es then AddVenues(vs, seen.venues, es[e].venues) else seen.venues;
      Seen(seen.entities + {e}, venues)
  }

  ghost predicate RolesEnd(vs: Venues, roles: seq<Role>, depth: nat) {
    forall r :: r in roles && r.venue != NONE && r.allows ==> ParentsEnd(vs, r.venue, depth)
  }

  function FromRole(es: Entities, vs: Venues, seen: Seen, r: Role, depth: nat): Seen
    requires r.venue != NONE && r.allows ==> ParentsEnd(vs, r.venue, depth)
  {
    if r.venue != NONE then
      if r.allows then AddAncestors(vs, seen.(venues := seen.venues + {r.venue}), r.venue, depth) else seen
    else if r.entity != NONE && r.allows then FromEntity(es, vs, seen, r.entity)
    else seen
  }

  function FromRoles(es: Entities, vs: Venues, seen: Seen, roles: seq<Role>, depth: nat): Seen
    requires RolesEnd(vs, roles, depth)
    decreases |roles|
  {
    if roles == [] then seen else FromRoles(es, vs, FromRole(es, vs, seen, roles[0], depth), roles[1..], depth)
  }

  /** Venues with a role that forbids reading. */
  function Denied(vs: Venues, roles: seq<Role>): set<Id> {
    set r | r in roles && r.venue != NONE && !r.allows && r.venue in vs :: r.venue
  }

  function Visible(es: Entities, vs: Venues, roles: seq<Role>, depth: nat): Seen
    requires RolesEnd(vs, roles, depth)
  {
    var all := FromRoles(es, vs, Seen({}, {}), roles, depth);
    all.(venues := all.venues - Denied(vs, roles))
  }

  // ---------------------------------------------------------------- roles on venues

  /** A role on the venue, or on one below it, allows it. */
  ghost predicate Lifted(vs: Venues, roles: seq<Role>, v: Id, depth: nat)
    requires RolesEnd(vs, roles, depth)
  {
    exists r :: r in roles && r.venue != NONE && r.allows && (v == r.venue || Above(vs, r.venue, v, depth))
  }

  /** A role on a venue shows the entity. */
  ghost predicate Shown(vs: Venues, roles: seq<Role>, e: Id, depth: nat)
    requires RolesEnd(vs, roles, depth)
  {
    exists r :: r in roles && r.venue != NONE && r.allows && Houses(vs, r.venue, e, depth)
  }

  /** There is a role on the entity. */
  ghost predicate Entered(roles: seq<Role>, e: Id) {
    exists r :: r in roles && r.venue == NONE && r.entity == e && e != NONE && r.allows
  }

  lemma LiftedStep(vs: Venues, roles: seq<Role>, v: Id, depth: nat)
    requires RolesEnd(vs, roles, depth) && roles != []
    ensures Lifted(vs, roles, v, depth) <==>
              (roles[0].venue != NONE && roles[0].allows && (v == roles[0].venue || Above(vs, roles[0].venue, v, depth)))
              || Lifted(vs, roles[1..], v, depth)
  {
    assert forall r :: r in roles <==> r == roles[0] || r in roles[1..];
  }

  lemma ShownStep(vs: Venues, roles: seq<Role>, e: Id, depth: nat)
    requires RolesEnd(vs, roles, depth) && roles != []
    ensures Shown(vs, roles, e, depth) <==>
              (roles[0].venue != NONE && roles[0].allows && Houses(vs, roles[0].venue, e, depth)) || Shown(vs, roles[1..], e, depth)
  {
    assert forall r :: r in roles <==> r == roles[0] || r in roles[1..];
  }

  lemma EnteredStep(roles: seq<Role>, e: Id)
    requires roles != []
    ensures Entered(roles, e) <==>
              (roles[0].venue == NONE && roles[0].entity == e && e != NONE && roles[0].allows) || Entered(roles[1..], e)
  {
    assert forall r :: r in roles <==> r == roles[0] || r in roles[1..];
  }

  /** The entities that end up visible are those with a role and those shown by a venue, in whatever order the roles come. */
  lemma {:induction false} EntitiesExactly(es: Entities, vs: Venues, seen: Seen, roles: seq<Role>, depth: nat, e: Id)
    requires RolesEnd(vs, roles, depth)
    ensures e in FromRoles(es, vs, seen, roles, depth).entities <==>
              e in seen.entities || Entered(roles, e) || Shown(vs, roles, e, depth)
    decreases |roles|
  {
    if roles != [] {
      var r := roles[0];
      EntitiesExactly(es, vs, FromRole(es, vs, seen, r, depth), roles[1..], depth, e);
      EnteredStep(roles, e);
      ShownStep(vs, roles, e, depth);
      if r.venue != NONE && r.allows {
        AncestorsExactly(vs, seen.(venues := seen.venues + {r.venue}), r.venue, depth);
      }
    }
  }

  ghost predicate OnVenues(roles: seq<Role>) { forall r :: r in roles ==> r.venue != NONE }

  /** Roles on venues add exactly the venues and what is above them, whatever was visible before. */
  lemma {:induction false} VenueRolesExactly(es: Entities, vs: Venues, seen: Seen, roles: seq<Role>, depth: nat)
    requires OnVenues(roles) && RolesEnd(vs, roles, depth)
    ensures forall v :: v in FromRoles(es, vs, seen, roles, depth).venues <==> v in seen.venues || Lifted(vs, roles, v, depth)
    ensures forall e :: e in FromRoles(es, vs, seen, roles, depth).entities <==> e in seen.entities || Shown(vs, roles, e, depth)
    decreases |roles|
  {
    forall e ensures e in FromRoles(es, vs, seen, roles, depth).entities <==> e in seen.entities || Shown(vs, roles, e, depth) {
      EntitiesExactly(es, vs, seen, roles, depth, e);
    }
    if roles != [] {
      var r := roles[0];
      VenueRolesExactly(es, vs, FromRole(es, vs, seen, r, depth), roles[1..], depth);
      if r.allows {
        AncestorsExactly(vs, seen.(venues := seen.venues + {r.venue}), r.venue, depth);
      }
      forall v ensures Lifted(vs, roles, v, depth) <==>
        (r.allows && (v == r.venue || Above(vs, r.venue, v, depth))) || Lifted(vs, roles[1..], v, depth)
      {
        LiftedStep(vs, roles, v, depth);
      }
    }
  }

  // ---------------------------------------------------------------- roles on entities

  ghost predicate OnEntities(roles: seq<Role>) { forall r :: r in roles ==> r.venue == NONE && r.entity != NONE && r.allows }

  /** The set has the venues of all opened entities and is closed. */
  ghost predicate Covers(es: Entities, vs: Venues, roles: seq<Role>, s: set<Id>) {
    ClosedBut(vs, s, {}) && forall e, v :: Entered(roles, e) && e in es && v in es[e].venues ==> v in s
  }

  lemma {:induction false} EntityRolesCover(es: Entities, vs: Venues, seen: Seen, roles: seq<Role>, depth: nat)
    requires OnEntities(roles) && ClosedBut(vs, seen.venues, {})
    requires forall e, v :: e in seen.entities && e in es && v in es[e].venues ==> v in seen.venues
    ensures var r := FromRoles(es, vs, seen, roles, depth);
      && seen.venues <= r.venues && Covers(es, vs, roles, r.venues)
      && (forall e :: e in r.entities <==> e in seen.entities || Entered(roles, e))
    decreases |roles|
  {
    if roles != [] {
      var next := FromEntity(es, vs, seen, roles[0].entity);
      if roles[0].entity !in seen.entities && roles[0].entity in es {
        AddVenuesClose(vs, seen.venues, es[roles[0].entity].venues);
      }
      EntityRolesCover(es, vs, next, roles[1..], depth);
      EnteredSteps(roles);
    }
  }

  lemma {:induction false} EntityRolesAreLeast(es: Entities, vs: Venues, seen: Seen, roles: seq<Role>, depth: nat, s: set<Id>)
    requires OnEntities(roles) && Covers(es, vs, roles, s) && seen.venues <= s
    ensures FromRoles(es, vs, seen, roles, depth).venues <= s
    decreases |roles|
  {
    if roles != [] {
      var e := roles[0].entity;
      EnteredSteps(roles);
      if e !in seen.entities && e in es {
        AddVenuesAreLeast(vs, seen.venues, es[e].venues, s);
      }
      EntityRolesAreLeast(es, vs, FromEntity(es, vs, seen, e), roles[1..], depth, s);
    }
  }

  /** Roles on entities open the least closed set of venues that has theirs, so their order does not matter. */
  lemma EntityRolesCommute(es: Entities, vs: Venues, roles: seq<Role>, roles': seq<Role>, depth: nat)
    requires OnEntities(roles) && OnEntities(roles') && forall e :: Entered(roles, e) <==> Entered(roles', e)
    ensures FromRoles(es, vs, Seen({}, {}), roles, depth) == FromRoles(es, vs, Seen({}, {}), roles', depth)
  {
    var r, r' := FromRoles(es, vs, Seen({}, {}), roles, depth), FromRoles(es, vs, Seen({}, {}), roles', depth);
    EntityRolesCover(es, vs, Seen({}, {}), roles, depth);
    EntityRolesCover(es, vs, Seen({}, {}), roles', depth);
    EntityRolesAreLeast(es, vs, Seen({}, {}), roles, depth, r'.venues);
    EntityRolesAreLeast(es, vs, Seen({}, {}), roles', depth, r.venues);
    assert r.entities == r'.entities;
  }

  lemma EnteredSteps(roles: seq<Role>)
    requires OnEntities(roles) && roles != []
    ensures forall e :: Entered(roles, e) <==> e == roles[0].entity || Entered(roles[1..], e)
  {
    assert roles[0] in roles;
    forall e ensures Entered(roles, e) <==> e == roles[0].entity || Entered(roles[1..], e) {
      EnteredStep(roles, e);
    }
  }

  // ---------------------------------------------------------------- what one role on an entity opens

  /** The venues of an entity and all venues below them. */
  function Under(es: Entities, vs: Venues, e: Id): set<Id> {
    if e in es then AddVenues(vs, {}, es[e].venues) else {}
  }

  /** Lists agree with fields: an entity lists venues in it, a venue lists venues whose parent it is. */
  ghost predicate Agree(es: Entities, vs: Venues) {
    && NONE !in vs
    && (forall e, v :: e in es && v in es[e].venues && v in vs ==> vs[v].entity == e)
    && (forall p, c :: p in vs && c in vs[p].children && c in vs ==> vs[c].parent == p)
  }

  lemma UnderIsClosed(es: Entities, vs: Venues, e: Id)
    ensures ClosedBut(vs, Under(es, vs, e), {})
  {
    if e in es {
      AddVenuesClose(vs, {}, es[e].venues);
    }
  }

  /** What is under an entity is listed by it, or a child of something else under it. */
  lemma UnderHasSource(es: Entities, vs: Venues, e: Id, x: Id)
    requires e in es && x in Under(es, vs, e) && x !in es[e].venues
    ensures exists y :: y in Under(es, vs, e) && y != x && y in vs && x in vs[y].children
  {
    var c := Under(es, vs, e);
    if !exists y :: y in c && y != x && y in vs && x in vs[y].children {
      UnderIsClosed(es, vs, e);
      AddVenuesAreLeast(vs, {}, es[e].venues, c - {x});
    }
  }

  /** Walking up from a venue under an entity shows that entity. */
  lemma {:induction false} UnderIsHoused(es: Entities, vs: Venues, e: Id, x: Id, depth: nat)
    requires Agree(es, vs) && e in es && e != NONE && x in Under(es, vs, e) && x in vs && ParentsEnd(vs, x, depth)
    ensures Houses(vs, x, e, depth)
    decreases depth
  {
    if x !in es[e].venues {
      UnderHasSource(es, vs, e, x);
      var y :| y in Under(es, vs, e) && y != x && y in vs && x in vs[y].children;
      UnderIsHoused(es, vs, e, y, depth - 1);
    }
  }

  lemma {:induction false} LiftedUnderIsHoused(es: Entities, vs: Venues, e: Id, v: Id, x: Id, depth: nat)
    requires Agree(es, vs) && e in es && e != NONE && x in Under(es, vs, e) && x in vs && ParentsEnd(vs, v, depth)
    requires x == v || Above(vs, v, x, depth)
    ensures Houses(vs, v, e, depth)
    decreases depth
  {
    if x == v {
      UnderIsHoused(es, vs, e, x, depth);
    } else {
      LiftedUnderIsHoused(es, vs, e, vs[v].parent, x, depth - 1);
    }
  }

  /** Opening adds everything under the entity when what was visible before is closed wherever the two meet. */
  lemma OpeningIsUnion(vs: Venues, seen: set<Id>, upper: set<Id>, ids: seq<Id>)
    requires ClosedBut(vs, seen, upper) && forall x :: x in upper && x in vs ==> x !in AddVenues(vs, {}, ids)
    ensures AddVenues(vs, seen, ids) == seen + AddVenues(vs, {}, ids)
  {
    var c, r := AddVenues(vs, {}, ids), AddVenues(vs, seen, ids);
    AddVenuesClose(vs, {}, ids);
    AddVenuesClose(vs, seen, ids);
    AddVenuesAreLeast(vs, seen, ids, seen + c);
    AddVenuesAreLeast(vs, {}, ids, c * r);
  }

  /** What an allowed role on an entity adds at its turn: if the entity is not visible yet, its venues and all below them
      that are new; otherwise nothing at all. */
  lemma EntityRoleAdds(es: Entities, vs: Venues, seen: Seen, e: Id)
    requires e in es
    ensures var r := FromEntity(es, vs, seen, e);
      && (e in seen.entities ==> r == seen)
      && (e !in seen.entities ==>
            && (forall v :: v in es[e].venues ==> v in r.venues) && ClosedBut(vs, r.venues, seen.venues)
            && (forall s :: seen.venues <= s && (forall v :: v in es[e].venues ==> v in s) && ClosedBut(vs, s, seen.venues) ==> r.venues <= s))
  {
    if e !in seen.entities {
      AddVenuesClose(vs, seen.venues, es[e].venues);
      forall s | seen.venues <= s && (forall v :: v in es[e].venues ==> v in s) && ClosedBut(vs, s, seen.venues)
        ensures FromEntity(es, vs, seen, e).venues <= s
      {
        AddVenuesAreLeast(vs, seen.venues, es[e].venues, s);
      }
    }
  }

  // ---------------------------------------------------------------- all roles

  /** What a role shows of the entities. */
  ghost function Showing(vs: Venues, r: Role, depth: nat): set<Id>
    requires r.venue != NONE && r.allows ==> ParentsEnd(vs, r.venue, depth)
  {
    if r.venue != NONE then if r.allows then AddAncestors(vs, Seen({}, {}), r.venue, depth).entities else {}
    else if r.entity != NONE && r.allows then {r.entity} else {}
  }

  /** The entities that are opened at the turn of their role: nothing has shown them before. */
  ghost function OpenedIn(vs: Venues, shown: set<Id>, roles: seq<Role>, depth: nat): set<Id>
    requires RolesEnd(vs, roles, depth)
    decreases |roles|
  {
    if roles == [] then {}
    else
      var r := roles[0];
      (if r.venue == NONE && r.entity != NONE && r.allows && r.entity !in shown then {r.entity} else {})
      + OpenedIn(vs, shown + Showing(vs, r, depth), roles[1..], depth)
  }

  /** The venue is under an entity of the set. */
  ghost predicate UnderSome(es: Entities, vs: Venues, entered: set<Id>, v: Id) {
    exists e :: e in entered && v in Under(es, vs, e)
  }

  /** Where the venues shown by roles on venues and those under an entity meet, the entity is visible. */
  ghost predicate Guarded(es: Entities, vs: Venues, seen: Seen, upper: set<Id>) {
    && ClosedBut(vs, seen.venues, upper)
    && forall x, e :: x in upper && x in vs && e != NONE && x in Under(es, vs, e) ==> e in seen.entities
  }

  lemma VenueRoleGuarded(es: Entities, vs: Venues, seen: Seen, upper: set<Id>, r: Role, depth: nat) returns (upper': set<Id>)
    requires Agree(es, vs) && Guarded(es, vs, seen, upper) && r.venue != NONE && r.allows && ParentsEnd(vs, r.venue, depth)
    ensures Guarded(es, vs, FromRole(es, vs, seen, r, depth), upper')
  {
    var next := FromRole(es, vs, seen, r, depth);
    AncestorsExactly(vs, seen.(venues := seen.venues + {r.venue}), r.venue, depth);
    upper' := upper + (next.venues - seen.venues);
    upper' := upper' + (set x | x in next.venues && (x == r.venue || Above(vs, r.venue, x, depth)));
    forall x, e | x in upper' && x in vs && e != NONE && x in Under(es, vs, e) ensures e in next.entities {
      if x !in upper {
        LiftedUnderIsHoused(es, vs, e, r.venue, x, depth);
      }
    }
  }

  lemma EntityRoleGuarded(es: Entities, vs: Venues, seen: Seen, upper: set<Id>, e: Id)
    requires Guarded(es, vs, seen, upper) && e != NONE && e !in seen.entities
    ensures FromEntity(es, vs, seen, e) == Seen(seen.entities + {e}, seen.venues + Under(es, vs, e))
    ensures Guarded(es, vs, FromEntity(es, vs, seen, e), upper)
  {
    UnderIsClosed(es, vs, e);
    if e in es {
      OpeningIsUnion(vs, seen.venues, upper, es[e].venues);
    }
  }

  /** Main result: the roles make visible the venues they name, those above them, and what is under the entities that
      are opened. */
  lemma {:induction false} VenuesExactly(es: Entities, vs: Venues, seen: Seen, upper: set<Id>, roles: seq<Role>, depth: nat, v: Id)
    requires Agree(es, vs) && RolesEnd(vs, roles, depth) && Guarded(es, vs, seen, upper)
    ensures v in FromRoles(es, vs, seen, roles, depth).venues <==>
              v in seen.venues || Lifted(vs, roles, v, depth) || UnderSome(es, vs, OpenedIn(vs, seen.entities, roles, depth), v)
    decreases |roles|
  {
    if roles != [] {
      var r := roles[0];
      var next := FromRole(es, vs, seen, r, depth);
      LiftedStep(vs, roles, v, depth);
      var upper' := upper;
      if r.venue != NONE && r.allows {
        upper' := VenueRoleGuarded(es, vs, seen, upper, r, depth);
        AncestorsExactly(vs, seen.(venues := seen.venues + {r.venue}), r.venue, depth);
        AncestorsExactly(vs, Seen({}, {}), r.venue, depth);
      } else if r.venue == NONE && r.entity != NONE && r.allows && r.entity !in seen.entities {
        EntityRoleGuarded(es, vs, seen, upper, r.entity);
      }
      assert next.entities == seen.entities + Showing(vs, r, depth);
      VenuesExactly(es, vs, next, upper', roles[1..], depth, v);
    }
  }

  // ---------------------------------------------------------------- the order of roles

  ghost predicate SameRoles(roles: seq<Role>, roles': seq<Role>) { forall r :: r in roles <==> r in roles' }

  lemma {:induction false} OpenedAreEntered(vs: Venues, shown: set<Id>, roles: seq<Role>, depth: nat, e: Id)
    requires RolesEnd(vs, roles, depth)
    ensures e in OpenedIn(vs, shown, roles, depth) ==> Entered(roles, e) && e !in shown
    ensures Entered(roles, e) && !Shown(vs, roles, e, depth) && e !in shown ==> e in OpenedIn(vs, shown, roles, depth)
    decreases |roles|
  {
    if roles != [] {
      var r := roles[0];
      EnteredStep(roles, e);
      ShownStep(vs, roles, e, depth);
      if r.venue != NONE && r.allows {
        AncestorsExactly(vs, Seen({}, {}), r.venue, depth);
      }
      OpenedAreEntered(vs, shown + Showing(vs, r, depth), roles[1..], depth, e);
    }
  }

  /** With the roles on venues first, only entities that none of them shows are opened; with them last, all that have a role. */
  lemma {:induction false} OpenedAfterVenues(vs: Venues, shown: set<Id>, first: seq<Role>, rest: seq<Role>, depth: nat, e: Id)
    requires RolesEnd(vs, first + rest, depth) && OnVenues(first) && RolesEnd(vs, first, depth)
    ensures e in OpenedIn(vs, shown, first + rest, depth) ==> !Shown(vs, first, e, depth)
    decreases |first|
  {
    if first == [] {
      assert !Shown(vs, first, e, depth);
    } else {
      assert (first + rest)[1..] == first[1..] + rest && (first + rest)[0] == first[0];
      var shown' := shown + Showing(vs, first[0], depth);
      OpenedAfterVenues(vs, shown', first[1..], rest, depth, e);
      OpenedAreEntered(vs, shown', first[1..] + rest, depth, e);
      ShownStep(vs, first, e, depth);
      if first[0].allows {
        AncestorsExactly(vs, Seen({}, {}), first[0].venue, depth);
      }
    }
  }

  ghost predicate OffVenues(roles: seq<Role>) { forall r :: r in roles ==> r.venue == NONE }

  lemma {:induction false} OpenedBeforeVenues(vs: Venues, shown: set<Id>, first: seq<Role>, rest: seq<Role>, depth: nat, e: Id)
    requires RolesEnd(vs, first + rest, depth) && OffVenues(first) && Entered(first, e) && e !in shown
    ensures e in OpenedIn(vs, shown, first + rest, depth)
    decreases |first|
  {
    assert (first + rest)[1..] == first[1..] + rest && (first + rest)[0] == first[0];
    EnteredStep(first, e);
    if first[0].entity != e || !first[0].allows {
      OpenedBeforeVenues(vs, shown + Showing(vs, first[0], depth), first[1..], rest, depth, e);
    }
  }

  function OnlyVenues(roles: seq<Role>): (r: seq<Role>)
    ensures forall x :: x in r <==> x in roles && x.venue != NONE
  {
    if roles == [] then []
    else (if roles[0].venue != NONE then [roles[0]] else []) + OnlyVenues(roles[1..])
  }

  function OnlyEntities(roles: seq<Role>): (r: seq<Role>)
    ensures forall x :: x in r <==> x in roles && x.venue == NONE
  {
    if roles == [] then []
    else (if roles[0].venue == NONE then [roles[0]] else []) + OnlyEntities(roles[1..])
  }

  /** Whatever is under an entity that both has a role and is shown by a venue is visible otherwise, or denied. */
  ghost predicate Redundant(es: Entities, vs: Venues, roles: seq<Role>, depth: nat)
    requires RolesEnd(vs, roles, depth)
  {
    forall e, x :: Entered(roles, e) && Shown(vs, roles, e, depth) && x in Under(es, vs, e) ==>
      x in Denied(vs, roles) || Lifted(vs, roles, x, depth) || UnderUnshown(es, vs, roles, x, depth)
  }

  ghost predicate UnderUnshown(es: Entities, vs: Venues, roles: seq<Role>, x: Id, depth: nat)
    requires RolesEnd(vs, roles, depth)
  {
    exists e :: Entered(roles, e) && !Shown(vs, roles, e, depth) && x in Under(es, vs, e)
  }

  /** Which venues are visible, in terms of the entities the order lets open. */
  lemma VisibleVenues(es: Entities, vs: Venues, roles: seq<Role>, depth: nat, v: Id)
    requires Agree(es, vs) && RolesEnd(vs, roles, depth)
    ensures v in Visible(es, vs, roles, depth).venues <==>
              v !in Denied(vs, roles) && (Lifted(vs, roles, v, depth) || UnderSome(es, vs, OpenedIn(vs, {}, roles, depth), v))
  {
    VenuesExactly(es, vs, Seen({}, {}), {}, roles, depth, v);
  }

  lemma SameRolesSame(vs: Venues, roles: seq<Role>, roles': seq<Role>, depth: nat)
    requires SameRoles(roles, roles') && RolesEnd(vs, roles, depth)
    ensures RolesEnd(vs, roles', depth) && Denied(vs, roles) == Denied(vs, roles')
    ensures forall v :: Lifted(vs, roles, v, depth) <==> Lifted(vs, roles', v, depth)
    ensures forall e :: Shown(vs, roles, e, depth) <==> Shown(vs, roles', e, depth)
    ensures forall e :: Entered(roles, e) <==> Entered(roles', e)
  {
  }

  /** If the condition holds, all orders give the same as the condition says. */
  lemma RedundantVenues(es: Entities, vs: Venues, roles: seq<Role>, depth: nat, v: Id)
    requires Agree(es, vs) && RolesEnd(vs, roles, depth) && Redundant(es, vs, roles, depth)
    ensures v in Visible(es, vs, roles, depth).venues <==>
              v !in Denied(vs, roles) && (Lifted(vs, roles, v, depth) || UnderUnshown(es, vs, roles, v, depth))
  {
    VisibleVenues(es, vs, roles, depth, v);
    var entered := OpenedIn(vs, {}, roles, depth);
    if UnderSome(es, vs, entered, v) {
      var e :| e in entered && v in Under(es, vs, e);
      OpenedAreEntered(vs, {}, roles, depth, e);
    }
    if UnderUnshown(es, vs, roles, v, depth) {
      var e :| Entered(roles, e) && !Shown(vs, roles, e, depth) && v in Under(es, vs, e);
      OpenedAreEntered(vs, {}, roles, depth, e);
    }
  }

  ghost predicate OrderIrrelevant(es: Entities, vs: Venues, roles: seq<Role>, depth: nat)
    requires RolesEnd(vs, roles, depth)
  {
    forall roles' :: SameRoles(roles, roles') && RolesEnd(vs, roles', depth) ==>
      Visible(es, vs, roles', depth) == Visible(es, vs, roles, depth)
  }

  /** The order of roles makes no difference if and only if the condition holds. */
  lemma OrderExactly(es: Entities, vs: Venues, roles: seq<Role>, depth: nat)
    requires Agree(es, vs) && RolesEnd(vs, roles, depth)
    ensures OrderIrrelevant(es, vs, roles, depth) <==> Redundant(es, vs, roles, depth)
  {
    if Redundant(es, vs, roles, depth) {
      forall roles' | SameRoles(roles, roles') && RolesEnd(vs, roles', depth)
        ensures Visible(es, vs, roles', depth) == Visible(es, vs, roles, depth)
      {
        RedundantIsSame(es, vs, roles, roles', depth);
      }
    }
    if OrderIrrelevant(es, vs, roles, depth) {
      forall e, x | Entered(roles, e) && Shown(vs, roles, e, depth) && x in Under(es, vs, e)
        ensures x in Denied(vs, roles) || Lifted(vs, roles, x, depth) || UnderUnshown(es, vs, roles, x, depth)
      {
        IrrelevantIsRedundant(es, vs, roles, depth, e, x);
      }
    }
  }

  lemma RedundantIsSame(es: Entities, vs: Venues, roles: seq<Role>, roles': seq<Role>, depth: nat)
    requires Agree(es, vs) && RolesEnd(vs, roles, depth) && Redundant(es, vs, roles, depth) && SameRoles(roles, roles')
    ensures RolesEnd(vs, roles', depth) && Visible(es, vs, roles', depth) == Visible(es, vs, roles, depth)
  {
    SameRolesSame(vs, roles, roles', depth);
    assert forall x :: UnderUnshown(es, vs, roles, x, depth) <==> UnderUnshown(es, vs, roles', x, depth);
    assert Redundant(es, vs, roles', depth);
    var s, s' := Visible(es, vs, roles, depth), Visible(es, vs, roles', depth);
    forall v ensures v in s.venues <==> v in s'.venues {
      RedundantVenues(es, vs, roles, depth, v);
      RedundantVenues(es, vs, roles', depth, v);
    }
    forall e ensures e in s.entities <==> e in s'.entities {
      EntitiesExactly(es, vs, Seen({}, {}), roles, depth, e);
      EntitiesExactly(es, vs, Seen({}, {}), roles', depth, e);
    }
  }

  /** The two extreme orders: roles on entities first, and roles on venues first. */
  lemma IrrelevantIsRedundant(es: Entities, vs: Venues, roles: seq<Role>, depth: nat, e: Id, x: Id)
    requires Agree(es, vs) && RolesEnd(vs, roles, depth) && OrderIrrelevant(es, vs, roles, depth)
    requires Entered(roles, e) && Shown(vs, roles, e, depth) && x in Under(es, vs, e)
    ensures x in Denied(vs, roles) || Lifted(vs, roles, x, depth) || UnderUnshown(es, vs, roles, x, depth)
  {
    var down, up := OnlyEntities(roles) + OnlyVenues(roles), OnlyVenues(roles) + OnlyEntities(roles);
    assert SameRoles(roles, down) && SameRoles(roles, up);
    SameRolesSame(vs, roles, down, depth);
    SameRolesSame(vs, roles, up, depth);
    assert Visible(es, vs, down, depth) == Visible(es, vs, roles, depth) == Visible(es, vs, up, depth);
    OpenedBeforeVenues(vs, {}, OnlyEntities(roles), OnlyVenues(roles), depth, e);
    VisibleVenues(es, vs, down, depth, x);
    VisibleVenues(es, vs, up, depth, x);
    if x !in Denied(vs, roles) && !Lifted(vs, roles, x, depth) {
      var f :| f in OpenedIn(vs, {}, up, depth) && x in Under(es, vs, f);
      OpenedAreEntered(vs, {}, up, depth, f);
      OpenedAfterVenues(vs, {}, OnlyVenues(roles), OnlyEntities(roles), depth, f);
      assert !Shown(vs, roles, f, depth);
    }
  }

  lemma TwoRoles(es: Entities, vs: Venues, seen: Seen, a: Role, b: Role, depth: nat)
    requires RolesEnd(vs, [a, b], depth)
    ensures a.venue != NONE && a.allows ==> ParentsEnd(vs, a.venue, depth)
    ensures b.venue != NONE && b.allows ==> ParentsEnd(vs, b.venue, depth)
    ensures FromRoles(es, vs, seen, [a, b], depth) == FromRole(es, vs, FromRole(es, vs, seen, a, depth), b, depth)
  {
    var rest := [a, b][1..];
    assert [a, b][0] == a && [a, b][1] == b && rest == [b] && rest[1..] == [];
    var next := FromRole(es, vs, seen, a, depth);
    assert FromRoles(es, vs, seen, [a, b], depth) == FromRoles(es, vs, next, rest, depth);
    assert FromRoles(es, vs, next, rest, depth) == FromRoles(es, vs, FromRole(es, vs, next, rest[0], depth), rest[1..], depth);
  }

  /** For one role of each kind. When the venue shows the entity, the two orders agree if and only if everything under the entity is the
      venue or above it; when it does not, and lists agree with fields, they always agree. */
  lemma TwoRolesExactly(es: Entities, vs: Venues, v: Id, e: Id, depth: nat)
    requires v != NONE && e != NONE && ParentsEnd(vs, v, depth)
    ensures var onVenue, onEntity := Role(v, NONE, true), Role(NONE, e, true);
      && (Houses(vs, v, e, depth) ==>
            (FromRoles(es, vs, Seen({}, {}), [onVenue, onEntity], depth) == FromRoles(es, vs, Seen({}, {}), [onEntity, onVenue], depth) <==>
               forall x :: x in Under(es, vs, e) ==> x == v || Above(vs, v, x, depth)))
      && (!Houses(vs, v, e, depth) && Agree(es, vs) ==>
            FromRoles(es, vs, Seen({}, {}), [onVenue, onEntity], depth) == FromRoles(es, vs, Seen({}, {}), [onEntity, onVenue], depth))
  {
    var onVenue, onEntity, none := Role(v, NONE, true), Role(NONE, e, true), Seen({}, {});
    TwoRoles(es, vs, none, onVenue, onEntity, depth);
    TwoRoles(es, vs, none, onEntity, onVenue, depth);
    var up, down := FromRole(es, vs, none, onVenue, depth), FromEntity(es, vs, none, e);
    AncestorsExactly(vs, none.(venues := none.venues + {v}), v, depth);
    AncestorsExactly(vs, down.(venues := down.venues + {v}), v, depth);
    assert down == Seen({e}, Under(es, vs, e));
    var upDown, downUp := FromRole(es, vs, up, onEntity, depth), FromRole(es, vs, down, onVenue, depth);
    if Houses(vs, v, e, depth) {
      assert upDown == up;
      assert upDown.entities == downUp.entities;
    } else if Agree(es, vs) {
      var upper := VenueRoleGuarded(es, vs, none, {}, onVenue, depth);
      EntityRoleGuarded(es, vs, up, upper, e);
      assert upDown.entities == downUp.entities;
      assert upDown.venues == downUp.venues;
    }
  }

  /** A role on a venue shows its entity, and a later role on that entity then opens nothing: the order matters. */
  lemma OrderMatters()
    ensures var v := Venue("a", "e", NONE, [], [], [], NONE, "");
      var es := map["e" := Entity(ROOT, [], ["v", "w"], [], [], [], [], [], NONE, "")];
      var vs := map["v" := v, "w" := v];
      var onVenue, onEntity := Role("v", NONE, true), Role(NONE, "e", true);
      && Agree(es, vs)
      && "w" in Visible(es, vs, [onEntity, onVenue], 0).venues
      && "w" !in Visible(es, vs, [onVenue, onEntity], 0).venues
  {
    var v := Venue("a", "e", NONE, [], [], [], NONE, "");
    var es := map["e" := Entity(ROOT, [], ["v", "w"], [], [], [], [], [], NONE, "")];
    var vs := map["v" := v, "w" := v];
    var onVenue, onEntity := Role("v", NONE, true), Role(NONE, "e", true);
    var none := Seen({}, {});
    TwoRoles(es, vs, none, onEntity, onVenue, 0);
    TwoRoles(es, vs, none, onVenue, onEntity, 0);
    var first := FromEntity(es, vs, none, "e");
    assert "w" in es["e"].venues && "w" in first.venues;
    AncestorsExactly(vs, first.(venues := first.venues + {"v"}), "v", 0);
    assert FromRole(es, vs, none, onVenue, 0) == Seen({"e"}, {"v"});
    assert FromRole(es, vs, Seen({"e"}, {"v"}), onEntity, 0) == Seen({"e"}, {"v"});
    assert Denied(vs, [onEntity, onVenue]) == {};
  }

  // ---------------------------------------------------------------- the closures that fill the sets

  class Collector {
    var entities: set<Id>
    var venues: set<Id>

    ghost function State(): Seen
      reads this
    {
      Seen(entities, venues)
    }

    constructor ()
      ensures State() == Seen({}, {})
    {
      entities, venues := {}, {};
    }

    method AddVenueAndDescendants(vs: Venues, id: Id)
      modifies this`venues
      ensures venues == AddVenue(vs, old(venues), id)
      decreases |vs.Keys - venues|
    {
      if id in venues {
        return;
      }
      ghost var before := venues;
      venues := venues + {id};
      if id in vs {
        OneFewer(vs.Keys, before, id);
        var children := vs[id].children;
        for i := 0 to |children|
          invariant before + {id} <= venues
          invariant AddVenues(vs, venues, children[i..]) == AddVenues(vs, before + {id}, children)
        {
          Fewer(vs.Keys, before + {id}, venues);
          assert children[i..][1..] == children[i + 1..];
          AddVenueAndDescendants(vs, children[i]);
        }
      }
    }

    method AddEntityAndDescendants(es: Entities, vs: Venues, e: Id)
      modifies this
      ensures State() == FromEntity(es, vs, old(State()), e)
    {
      if e in entities {
        return;
      }
      entities := entities + {e};
      if e in es {
        var ids := es[e].venues;
        for i := 0 to |ids|
          invariant entities == old(entities) + {e}
          invariant AddVenues(vs, venues, ids[i..]) == AddVenues(vs, old(venues), ids)
        {
          assert ids[i..][1..] == ids[i + 1..];
          AddVenueAndDescendants(vs, ids[i]);
        }
      }
    }

    method AddVenueAncestors(vs: Venues, id: Id, ghost depth: nat)
      requires ParentsEnd(vs, id, depth)
      modifies this
      ensures State() == AddAncestors(vs, old(State()), id, depth)
      decreases depth
    {
      if id in vs {
        if vs[id].entity != NONE {
          entities := entities + {vs[id].entity};
        }
        if vs[id].parent != NONE && vs[id].parent != id {
          venues := venues + {vs[id].parent};
          AddVenueAncestors(vs, vs[id].parent, depth - 1);
        }
      }
    }

    /** The loop over the roles; venues a role forbids are taken out at the end. */
    method AddRoles(es: Entities, vs: Venues, roles: seq<Role>, ghost depth: nat)
      requires State() == Seen({}, {}) && RolesEnd(vs, roles, depth)
      modifies this
      ensures State() == Visible(es, vs, roles, depth)
    {
      var denied: set<Id> := {};
      for i := 0 to |roles|
        invariant FromRoles(es, vs, State(), roles[i..], depth) == FromRoles(es, vs, Seen({}, {}), roles, depth)
        invariant denied == Denied(vs, roles[..i])
      {
        var r := roles[i];
        assert roles[i..][1..] == roles[i + 1..];
        DeniedStep(vs, roles, i);
        if r.venue != NONE {
          if r.allows {
            venues := venues + {r.venue};
            AddVenueAncestors(vs, r.venue, depth);
          } else if r.venue in vs {
            denied := denied + {r.venue};
          }
        } else if r.entity != NONE && r.allows {
          AddEntityAndDescendants(es, vs, r.entity);
        }
      }
      assert roles[..|roles|] == roles;
      venues := venues - denied;
    }
  }

  lemma DeniedStep(vs: Venues, roles: seq<Role>, i: nat)
    requires i < |roles|
    ensures Denied(vs, roles[..i + 1]) == Denied(vs, roles[..i])
              + (if roles[i].venue != NONE && !roles[i].allows && roles[i].venue in vs then {roles[i].venue} else {})
  {
    assert roles[..i + 1] == roles[..i] + [roles[i]];
  }
}
