/** How the lists of venues and entities change when something moves from one place to another. */
module Memberships {
  import opened Tables
  import opened Handlers

  type VenueTable = map<Id, Venue>
  type EntityTable = map<Id, Entity>

  // ---------------------------------------------------------------- one list

  /** The first occurrence is gone and everything else in its order. */
  ghost predicate ErasedFrom(s: seq<Id>, x: Id, after: seq<Id>) {
    if x !in s then after == s
    else exists i :: 0 <= i < |s| && s[i] == x && x !in s[..i] && after == s[..i] + s[i + 1..]
  }

  /** If it was there nothing changes, and otherwise the list is sorted with it. */
  ghost predicate AddedTo(s: seq<Id>, x: Id, after: seq<Id>) {
    if x in s then after == s else multiset(after) == multiset(s) + multiset{x} && Ascends(after)
  }

  ghost predicate SameBut(s: seq<Id>, after: seq<Id>, x: Id) { forall t :: t != x ==> (t in after <==> t in s) }

  /** The list of a place that `x` leaves, joins, leaves and joins again, or has nothing to do with. */
  ghost predicate ListMoved(s: seq<Id>, after: seq<Id>, x: Id, from: bool, to: bool) {
    && (from && !to ==> ErasedFrom(s, x, after))
    && (to && !from ==> AddedTo(s, x, after))
    && (from && to ==> x in after && SameBut(s, after, x))
    && (!from && !to ==> after == s)
  }

  lemma {:induction false} WithoutErases(s: seq<Id>, x: Id)
    ensures ErasedFrom(s, x, Without(s, x))
  {
    if s == [] {
    } else if s[0] == x {
      assert s[..0] == [] && Without(s, x) == s[..0] + s[1..];
    } else {
      var rest := s[1..];
      assert s == [s[0]] + rest;
      WithoutErases(rest, x);
      if x in rest {
        var i :| 0 <= i < |rest| && rest[i] == x && x !in rest[..i] && Without(rest, x) == rest[..i] + rest[i + 1..];
        ErasedLater(s, x, i);
      }
    }
  }

  lemma ErasedLater(s: seq<Id>, x: Id, i: nat)
    requires i + 1 < |s| && s[0] != x && s[i + 1] == x && x !in s[1..][..i]
    requires Without(s[1..], x) == s[1..][..i] + s[1..][i + 1..]
    ensures x !in s[..i + 1] && Without(s, x) == s[..i + 1] + s[i + 2..]
  {
    var rest := s[1..];
    assert s[..i + 1] == [s[0]] + rest[..i];
    assert s[i + 2..] == rest[i + 1..];
  }

  lemma ListMoves(s: seq<Id>, x: Id, from: bool, to: bool)
    ensures var left := if from then Without(s, x) else s;
      ListMoved(s, if to then With(left, x) else left, x, from, to)
  {
    WithoutErases(s, x);
    InOrderCounts(s + [x]);
    InOrderAscends(s + [x]);
  }

  // ---------------------------------------------------------------- the tables

  /** `x` left the devices of venue `from` and joined those of `to`; either may be no venue. */
  ghost predicate DevicesMoved(vs: VenueTable, after: VenueTable, x: Id, from: Id, to: Id) {
    && after.Keys == vs.Keys
    && forall v :: v in vs ==>
         && after[v] == vs[v].(devices := after[v].devices)
         && ListMoved(vs[v].devices, after[v].devices, x, v == from && v != NONE, v == to && v != NONE)
  }

  ghost predicate EntityDevicesMoved(es: EntityTable, after: EntityTable, x: Id, from: Id, to: Id) {
    && after.Keys == es.Keys
    && forall e :: e in es ==>
         && after[e] == es[e].(devices := after[e].devices)
         && ListMoved(es[e].devices, after[e].devices, x, e == from && e != NONE, e == to && e != NONE)
  }

  ghost predicate EntityVenuesMoved(es: EntityTable, after: EntityTable, x: Id, from: Id, to: Id) {
    && after.Keys == es.Keys
    && forall e :: e in es ==>
         && after[e] == es[e].(venues := after[e].venues)
         && ListMoved(es[e].venues, after[e].venues, x, e == from && e != NONE, e == to && e != NONE)
  }

  ghost predicate ChildrenMoved(vs: VenueTable, after: VenueTable, x: Id, from: Id, to: Id) {
    && after.Keys == vs.Keys
    && forall v :: v in vs ==>
         && after[v] == vs[v].(children := after[v].children)
         && ListMoved(vs[v].children, after[v].children, x, v == from && v != NONE, v == to && v != NONE)
  }

  lemma DevicesMove(vs: VenueTable, x: Id, from: Id, to: Id)
    ensures DevicesMoved(vs, JoinVenue(LeaveVenue(vs, from, x), to, x), x, from, to)
  {
    forall v | v in vs {
      ListMoves(vs[v].devices, x, v == from && v != NONE, v == to && v != NONE);
    }
  }

  lemma EntityDevicesMove(es: EntityTable, x: Id, from: Id, to: Id)
    ensures EntityDevicesMoved(es, JoinEntity(LeaveEntity(es, from, x), to, x), x, from, to)
  {
    forall e | e in es {
      ListMoves(es[e].devices, x, e == from && e != NONE, e == to && e != NONE);
    }
  }

  lemma EntityVenuesMove(es: EntityTable, x: Id, from: Id, to: Id)
    ensures EntityVenuesMoved(es, AddVenueTo(RemoveVenueFrom(es, from, x), to, x), x, from, to)
  {
    forall e | e in es {
      ListMoves(es[e].venues, x, e == from && e != NONE, e == to && e != NONE);
    }
  }

  lemma ChildrenMove(vs: VenueTable, x: Id, from: Id, to: Id)
    ensures ChildrenMoved(vs, AddChildVenue(RemoveChildVenue(vs, from, x), to, x), x, from, to)
  {
    forall v | v in vs {
      ListMoves(vs[v].children, x, v == from && v != NONE, v == to && v != NONE);
    }
  }

  // ---------------------------------------------------------------- one way only

  lemma Joins(vs: VenueTable, x: Id, to: Id)
    ensures DevicesMoved(vs, JoinVenue(vs, to, x), x, NONE, to)
  {
    DevicesMove(vs, x, NONE, to);
  }

  lemma Leaves(vs: VenueTable, x: Id, from: Id)
    ensures DevicesMoved(vs, LeaveVenue(vs, from, x), x, from, NONE)
  {
    DevicesMove(vs, x, from, NONE);
  }

  lemma JoinsEntity(es: EntityTable, x: Id, to: Id)
    ensures EntityDevicesMoved(es, JoinEntity(es, to, x), x, NONE, to)
  {
    EntityDevicesMove(es, x, NONE, to);
  }

  lemma LeavesEntity(es: EntityTable, x: Id, from: Id)
    ensures EntityDevicesMoved(es, LeaveEntity(es, from, x), x, from, NONE)
  {
    EntityDevicesMove(es, x, from, NONE);
  }

  /** `x` left the children of entity `from` and joined those of `to`; either may be none. */
  ghost predicate EntityChildrenMoved(es: EntityTable, after: EntityTable, x: Id, from: Id, to: Id) {
    && after.Keys == es.Keys
    && forall e :: e in es ==>
         && after[e] == es[e].(children := after[e].children)
         && ListMoved(es[e].children, after[e].children, x, e == from, e == to)
  }

  lemma ChildJoins(es: EntityTable, x: Id, to: Id)
    requires NONE !in es
    ensures EntityChildrenMoved(es, AddChildEntity(es, to, x), x, NONE, to)
  {
    forall e | e in es {
      ListMoves(es[e].children, x, false, e == to);
    }
  }

  lemma ChildLeaves(es: EntityTable, x: Id, from: Id)
    requires NONE !in es
    ensures EntityChildrenMoved(es, RemoveChildEntity(es, from, x), x, from, NONE)
  {
    forall e | e in es {
      ListMoves(es[e].children, x, e == from, false);
    }
  }
}
