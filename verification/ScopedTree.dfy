/** The tree of the entities and venues a user may see.

The visible records form a forest in which some inner nodes may be missing; the builder hangs every record under its
visible parent and collects what has none as roots. Records whose parents form a cycle have no root above them: the builder
never meets them. */
module ScopedTree {
  import opened Tables
  import opened Basics

  type Entities = map<Id, Entity>
  type Venues = map<Id, Venue>

  datatype Node =
    | VenueNode(uuid: Id, children: seq<Node>)
    | EntityNode(uuid: Id, children: seq<Node>, venues: seq<Node>)

  // ---------------------------------------------------------------- coherence

  /** Child lists name only children. */
  ghost predicate VenuesListed(vs: Venues) {
    forall p, c :: p in vs && c in vs && c in vs[p].children ==> vs[c].parent == p
  }

  ghost predicate EntitiesListed(es: Entities) {
    forall p, c :: p in es && c in es && c in es[p].children ==> es[c].parent == p
  }

  /** Child lists and parent fields of visible records agree, and no list names a record twice. */
  ghost predicate Coherent(es: Entities, vs: Venues) {
    && NONE !in es && NONE !in vs && EntitiesListed(es) && VenuesListed(vs)
    && (forall c :: c in es && es[c].parent in es ==> multiset(es[es[c].parent].children)[c] == 1)
    && (forall c :: c in vs && vs[c].parent in vs ==> multiset(vs[vs[c].parent].children)[c] == 1)
    && (forall e, v :: e in es && v in vs && vs[v].parent == NONE ==>
          multiset(es[e].venues)[v] == if vs[v].entity == e then 1 else 0)
  }

  lemma ListedOnce(es: Entities, vs: Venues, p: Id, c: Id)
    requires Coherent(es, vs)
    ensures p in es && c in es ==> multiset(es[p].children)[c] == if es[c].parent == p then 1 else 0
    ensures p in vs && c in vs ==> multiset(vs[p].children)[c] == if vs[c].parent == p then 1 else 0
  {
    if p in es && c in es && es[c].parent != p {
      assert c !in es[p].children;
    }
    if p in vs && c in vs && vs[c].parent != p {
      assert c !in vs[p].children;
    }
  }

  // ---------------------------------------------------------------- walking up

  /** Walking up over visible parents takes `d` steps. */
  ghost predicate VenueDepth(vs: Venues, id: Id, d: nat)
    decreases d
  {
    id in vs && if d == 0 then vs[id].parent !in vs else vs[id].parent in vs && VenueDepth(vs, vs[id].parent, d - 1)
  }

  ghost predicate EntityDepth(es: Entities, id: Id, d: nat)
    decreases d
  {
    id in es && if d == 0 then es[id].parent !in es else es[id].parent in es && EntityDepth(es, es[id].parent, d - 1)
  }

  lemma {:induction false} OneVenueDepth(vs: Venues, id: Id, d: nat, d': nat)
    requires VenueDepth(vs, id, d) && VenueDepth(vs, id, d')
    ensures d == d'
    decreases d
  {
    if d > 0 && d' > 0 {
      OneVenueDepth(vs, vs[id].parent, d - 1, d' - 1);
    }
  }

  lemma {:induction false} OneEntityDepth(es: Entities, id: Id, d: nat, d': nat)
    requires EntityDepth(es, id, d) && EntityDepth(es, id, d')
    ensures d == d'
    decreases d
  {
    if d > 0 && d' > 0 {
      OneEntityDepth(es, es[id].parent, d - 1, d' - 1);
    }
  }

  ghost predicate VenueUpTo(vs: Venues, id: Id, d: nat) { exists k: nat :: k <= d && VenueDepth(vs, id, k) }

  /** The venues met on the way up are all different, so the walk is shorter than the table. */
  lemma {:induction false} VenuePath(vs: Venues, id: Id, d: nat) returns (path: set<Id>)
    requires VenueDepth(vs, id, d)
    ensures path <= vs.Keys && |path| == d + 1
    ensures forall x :: x in path ==> VenueUpTo(vs, x, d)
    decreases d
  {
    path := {id};
    assert VenueUpTo(vs, id, d);
    if d > 0 {
      var above := VenuePath(vs, vs[id].parent, d - 1);
      if id in above {
        var k: nat :| k <= d - 1 && VenueDepth(vs, id, k);
        OneVenueDepth(vs, id, d, k);
        assert false;
      }
      path := {id} + above;
      forall x | x in above ensures VenueUpTo(vs, x, d) {
        var k: nat :| k <= d - 1 && VenueDepth(vs, x, k);
        assert k <= d && VenueDepth(vs, x, k);
      }
    }
  }

  ghost predicate EntityUpTo(es: Entities, id: Id, d: nat) { exists k: nat :: k <= d && EntityDepth(es, id, k) }

  lemma {:induction false} EntityPath(es: Entities, id: Id, d: nat) returns (path: set<Id>)
    requires EntityDepth(es, id, d)
    ensures path <= es.Keys && |path| == d + 1
    ensures forall x :: x in path ==> EntityUpTo(es, x, d)
    decreases d
  {
    path := {id};
    assert EntityUpTo(es, id, d);
    if d > 0 {
      var above := EntityPath(es, es[id].parent, d - 1);
      if id in above {
        var k: nat :| k <= d - 1 && EntityDepth(es, id, k);
        OneEntityDepth(es, id, d, k);
        assert false;
      }
      path := {id} + above;
      forall x | x in above ensures EntityUpTo(es, x, d) {
        var k: nat :| k <= d - 1 && EntityDepth(es, x, k);
        assert k <= d && EntityDepth(es, x, k);
      }
    }
  }

  lemma {:induction false} SubsetSize(a: set<Id>, b: set<Id>)
    requires a <= b
    ensures |a| <= |b|
  {
    if a != {} {
      var x :| x in a;
      SubsetSize(a - {x}, b - {x});
    }
  }

  lemma VenueDepthShort(vs: Venues, id: Id, d: nat)
    requires VenueDepth(vs, id, d)
    ensures d < |vs|
  {
    var path := VenuePath(vs, id, d);
    SubsetSize(path, vs.Keys);
    assert |vs| == |vs.Keys|;
  }

  lemma EntityDepthShort(es: Entities, id: Id, d: nat)
    requires EntityDepth(es, id, d)
    ensures d < |es|
  {
    var path := EntityPath(es, id, d);
    SubsetSize(path, es.Keys);
    assert |es| == |es.Keys|;
  }

  ghost predicate VenuesAt(vs: Venues, ids: seq<Id>, d: nat) { forall i :: i in ids && i in vs ==> VenueDepth(vs, i, d) }

  ghost predicate EntitiesAt(es: Entities, ids: seq<Id>, d: nat) { forall i :: i in ids && i in es ==> EntityDepth(es, i, d) }

  // ---------------------------------------------------------------- building

  /** The node of a visible venue `d` steps below a root; its children are one step further down. */
  function BuildVenue(vs: Venues, id: Id, ghost d: nat): Node
    requires VenuesListed(vs) && VenueDepth(vs, id, d)
    decreases |vs| - d, 0
  {
    VenueDepthShort(vs, id, d);
    VenueNode(id, VenueNodes(vs, vs[id].children, d + 1))
  }

  /** The nodes of the visible ones among the given venues. */
  function VenueNodes(vs: Venues, ids: seq<Id>, ghost d: nat): seq<Node>
    requires VenuesListed(vs) && VenuesAt(vs, ids, d)
    decreases |vs| - d, |ids|
  {
    if ids == [] then []
    else if ids[0] in vs then [BuildVenue(vs, ids[0], d)] + VenueNodes(vs, ids[1..], d)
    else VenueNodes(vs, ids[1..], d)
  }

  /** An entity lists its visible venues that have no parent. */
  function TopVenues(vs: Venues, ids: seq<Id>): (r: seq<Id>)
    ensures forall i :: i in r ==> i in ids && i in vs && vs[i].parent == NONE
  {
    if ids == [] then []
    else if ids[0] in vs && vs[ids[0]].parent == NONE then [ids[0]] + TopVenues(vs, ids[1..])
    else TopVenues(vs, ids[1..])
  }

  function BuildEntity(es: Entities, vs: Venues, id: Id, ghost d: nat): Node
    requires Coherent(es, vs) && EntityDepth(es, id, d)
    decreases |es| - d, 0
  {
    EntityDepthShort(es, id, d);
    EntityNode(id, EntityNodes(es, vs, es[id].children, d + 1), VenueNodes(vs, TopVenues(vs, es[id].venues), 0))
  }

  function EntityNodes(es: Entities, vs: Venues, ids: seq<Id>, ghost d: nat): seq<Node>
    requires Coherent(es, vs) && EntitiesAt(es, ids, d)
    decreases |es| - d, |ids|
  {
    if ids == [] then []
    else if ids[0] in es then [BuildEntity(es, vs, ids[0], d)] + EntityNodes(es, vs, ids[1..], d)
    else EntityNodes(es, vs, ids[1..], d)
  }

  /** The ids the user may see, whether or not there is a record. */
  datatype Seen = Seen(entities: set<Id>, venues: set<Id>)

  predicate EntityIsRoot(es: Entities, seen: Seen, id: Id)
    requires id in es
  {
    !(es[id].parent != NONE && es[id].parent in seen.entities)
  }

  predicate VenueIsRoot(vs: Venues, seen: Seen, id: Id)
    requires id in vs
  {
    !(vs[id].parent != NONE && vs[id].parent in seen.venues) && !(vs[id].parent == NONE && vs[id].entity in seen.entities)
  }

  /** The place of every record, if it may be seen, has a record itself. */
  ghost predicate Recorded(es: Entities, vs: Venues, seen: Seen) {
    && (forall e :: e in es && !EntityIsRoot(es, seen, e) ==> es[e].parent in es)
    && (forall v :: v in vs && !VenueIsRoot(vs, seen, v) ==> if vs[v].parent != NONE then vs[v].parent in vs else vs[v].entity in es)
  }

  /** Records are only read for ids that may be seen. */
  ghost predicate Within(es: Entities, vs: Venues, seen: Seen) { es.Keys <= seen.entities && vs.Keys <= seen.venues }

  // ---------------------------------------------------------------- counting

  datatype Kind = EntityKind | VenueKind

  /** How often a record occurs in a tree. */
  function Count(n: Node, kind: Kind, id: Id): nat
    decreases n
  {
    match n
    case VenueNode(uuid, children) => (if kind.VenueKind? && uuid == id then 1 else 0) + CountAll(children, kind, id)
    case EntityNode(uuid, children, venues) =>
      (if kind.EntityKind? && uuid == id then 1 else 0) + CountAll(children, kind, id) + CountAll(venues, kind, id)
  }

  function CountAll(ns: seq<Node>, kind: Kind, id: Id): nat
    decreases ns
  {
    if ns == [] then 0 else Count(ns[0], kind, id) + CountAll(ns[1..], kind, id)
  }

  /** The occurrences in a list of ids. */
  function Times(ids: seq<Id>, id: Id): (r: nat)
    ensures r == multiset(ids)[id]
  {
    if ids == [] then 0
    else
      assert ids == [ids[0]] + ids[1..];
      (if ids[0] == id then 1 else 0) + Times(ids[1..], id)
  }

  // ---------------------------------------------------------------- venues under venues

  /** The occurrences of a venue's visible parent, none if it has no visible parent. */
  function AtParent(vs: Venues, ns: seq<Node>, v: Id): nat
    requires v in vs
  {
    if vs[v].parent in vs then CountAll(ns, VenueKind, vs[v].parent) else 0
  }

  lemma {:induction false} VenueNodesCount(es: Entities, vs: Venues, ids: seq<Id>, d: nat, v: Id)
    requires Coherent(es, vs) && v in vs && VenuesAt(vs, ids, d)
    ensures var ns := VenueNodes(vs, ids, d);
      CountAll(ns, VenueKind, v) == Times(ids, v) + AtParent(vs, ns, v)
    decreases |vs| - d, |ids|
  {
    if ids != [] {
      VenueNodesCount(es, vs, ids[1..], d, v);
      if ids[0] in vs {
        VenueCount(es, vs, ids[0], d, v);
      }
    }
  }

  /** A venue occurs in a tree as its root, or below each occurrence of its parent. */
  lemma {:induction false} VenueCount(es: Entities, vs: Venues, w: Id, d: nat, v: Id)
    requires Coherent(es, vs) && v in vs && VenueDepth(vs, w, d)
    ensures var n := BuildVenue(vs, w, d);
      Count(n, VenueKind, v) == (if w == v then 1 else 0) + (if vs[v].parent in vs then Count(n, VenueKind, vs[v].parent) else 0)
    decreases |vs| - d, 0
  {
    VenueDepthShort(vs, w, d);
    VenueNodesCount(es, vs, vs[w].children, d + 1, v);
    ListedOnce(es, vs, w, v);
  }

  /** Trees of venues hold nothing else. */
  lemma {:induction false} VenueNodesForeign(vs: Venues, ids: seq<Id>, d: nat, kind: Kind, x: Id)
    requires VenuesListed(vs) && (kind.EntityKind? || x !in vs) && VenuesAt(vs, ids, d)
    ensures CountAll(VenueNodes(vs, ids, d), kind, x) == 0
    decreases |vs| - d, |ids|
  {
    if ids != [] {
      VenueNodesForeign(vs, ids[1..], d, kind, x);
      if ids[0] in vs {
        VenueDepthShort(vs, ids[0], d);
        VenueNodesForeign(vs, vs[ids[0]].children, d + 1, kind, x);
      }
    }
  }

  // ---------------------------------------------------------------- entities

  lemma {:induction false} TopVenuesTimes(vs: Venues, ids: seq<Id>, v: Id)
    requires v in vs
    ensures Times(TopVenues(vs, ids), v) == if vs[v].parent == NONE then Times(ids, v) else 0
  {
    if ids != [] {
      TopVenuesTimes(vs, ids[1..], v);
    }
  }

  function AtParentEntity(es: Entities, ns: seq<Node>, e: Id): nat
    requires e in es
  {
    if es[e].parent in es then CountAll(ns, EntityKind, es[e].parent) else 0
  }

  lemma {:induction false} EntityNodesCount(es: Entities, vs: Venues, ids: seq<Id>, d: nat, e: Id)
    requires Coherent(es, vs) && e in es && EntitiesAt(es, ids, d)
    ensures var ns := EntityNodes(es, vs, ids, d);
      CountAll(ns, EntityKind, e) == Times(ids, e) + AtParentEntity(es, ns, e)
    decreases |es| - d, |ids|
  {
    if ids != [] {
      EntityNodesCount(es, vs, ids[1..], d, e);
      if ids[0] in es {
        EntityCount(es, vs, ids[0], d, e);
      }
    }
  }

  /** An entity occurs in a tree as its root, or below each occurrence of its parent. */
  lemma {:induction false} EntityCount(es: Entities, vs: Venues, w: Id, d: nat, e: Id)
    requires Coherent(es, vs) && e in es && EntityDepth(es, w, d)
    ensures var n := BuildEntity(es, vs, w, d);
      Count(n, EntityKind, e) == (if w == e then 1 else 0) + (if es[e].parent in es then Count(n, EntityKind, es[e].parent) else 0)
    decreases |es| - d, 0
  {
    EntityDepthShort(es, w, d);
    EntityNodesCount(es, vs, es[w].children, d + 1, e);
    ListedOnce(es, vs, w, e);
    VenueNodesForeign(vs, TopVenues(vs, es[w].venues), 0, EntityKind, e);
    VenueNodesForeign(vs, TopVenues(vs, es[w].venues), 0, EntityKind, es[e].parent);
  }

  /** Where a venue hangs in the trees of entities: below its visible parent, or else, without a parent, below its
      visible entity. */
  function AtPlace(es: Entities, vs: Venues, ns: seq<Node>, v: Id): nat
    requires v in vs
  {
    if vs[v].parent in vs then CountAll(ns, VenueKind, vs[v].parent)
    else if vs[v].parent == NONE && vs[v].entity in es then CountAll(ns, EntityKind, vs[v].entity)
    else 0
  }

  lemma {:induction false} VenuesInEntities(es: Entities, vs: Venues, ids: seq<Id>, d: nat, v: Id)
    requires Coherent(es, vs) && v in vs && EntitiesAt(es, ids, d)
    ensures var ns := EntityNodes(es, vs, ids, d);
      CountAll(ns, VenueKind, v) == AtPlace(es, vs, ns, v)
    decreases |es| - d, |ids|
  {
    if ids != [] {
      VenuesInEntities(es, vs, ids[1..], d, v);
      if ids[0] in es {
        VenuesInEntity(es, vs, ids[0], d, v);
      }
    }
  }

  /** A venue is below an entity's own venues as its parent is, or is one of them. */
  lemma TopVenueCount(es: Entities, vs: Venues, w: Id, v: Id)
    requires Coherent(es, vs) && v in vs && w in es
    ensures var tops := VenueNodes(vs, TopVenues(vs, es[w].venues), 0);
      && CountAll(tops, EntityKind, vs[v].entity) == 0
      && CountAll(tops, VenueKind, v) ==
           (if vs[v].parent in vs then CountAll(tops, VenueKind, vs[v].parent) else if vs[v].parent == NONE && vs[v].entity == w then 1 else 0)
  {
    var top := TopVenues(vs, es[w].venues);
    VenueNodesCount(es, vs, top, 0, v);
    TopVenuesTimes(vs, es[w].venues, v);
    VenueNodesForeign(vs, top, 0, EntityKind, vs[v].entity);
  }

  lemma InEntityNode(es: Entities, vs: Venues, n: Node, v: Id)
    requires n.EntityNode? && v in vs && CountAll(n.children, VenueKind, v) == AtPlace(es, vs, n.children, v)
    requires vs[v].entity == n.uuid ==> n.uuid in es
    requires CountAll(n.venues, EntityKind, vs[v].entity) == 0
    requires CountAll(n.venues, VenueKind, v) ==
               if vs[v].parent in vs then CountAll(n.venues, VenueKind, vs[v].parent)
               else if vs[v].parent == NONE && vs[v].entity == n.uuid then 1 else 0
    ensures Count(n, VenueKind, v) ==
              if vs[v].parent in vs then Count(n, VenueKind, vs[v].parent)
              else if vs[v].parent == NONE && vs[v].entity in es then Count(n, EntityKind, vs[v].entity)
              else 0
  {
  }

  lemma {:induction false} VenuesInEntity(es: Entities, vs: Venues, w: Id, d: nat, v: Id)
    requires Coherent(es, vs) && v in vs && EntityDepth(es, w, d)
    ensures var n := BuildEntity(es, vs, w, d);
      Count(n, VenueKind, v) ==
        if vs[v].parent in vs then Count(n, VenueKind, vs[v].parent)
        else if vs[v].parent == NONE && vs[v].entity in es then Count(n, EntityKind, vs[v].entity)
        else 0
    decreases |es| - d, 0
  {
    var top := TopVenues(vs, es[w].venues);
    EntityDepthShort(es, w, d);
    var ns, tops := EntityNodes(es, vs, es[w].children, d + 1), VenueNodes(vs, top, 0);
    assert BuildEntity(es, vs, w, d) == EntityNode(w, ns, tops);
    VenuesInEntities(es, vs, es[w].children, d + 1, v);
    TopVenueCount(es, vs, w, v);
    InEntityNode(es, vs, EntityNode(w, ns, tops), v);
  }

  // ---------------------------------------------------------------- the forest

  function RootEntityIds(es: Entities, seen: Seen, order: seq<Id>): (r: seq<Id>)
    requires forall i :: i in order ==> i in es
    ensures forall i :: i in r ==> i in es && EntityIsRoot(es, seen, i)
  {
    if order == [] then []
    else (if EntityIsRoot(es, seen, order[0]) then [order[0]] else []) + RootEntityIds(es, seen, order[1..])
  }

  function RootVenueIds(vs: Venues, seen: Seen, order: seq<Id>): (r: seq<Id>)
    requires forall i :: i in order ==> i in vs
    ensures forall i :: i in r ==> i in vs && VenueIsRoot(vs, seen, i)
  {
    if order == [] then []
    else (if VenueIsRoot(vs, seen, order[0]) then [order[0]] else []) + RootVenueIds(vs, seen, order[1..])
  }

  lemma {:induction false} TimesInEnumeration(order: seq<Id>, x: Id)
    requires forall i, j :: 0 <= i < j < |order| ==> order[i] != order[j]
    ensures Times(order, x) == if x in order then 1 else 0
  {
    if order != [] {
      TimesInEnumeration(order[1..], x);
    }
  }

  lemma {:induction false} RootEntityTimes(es: Entities, seen: Seen, order: seq<Id>, e: Id)
    requires (forall i :: i in order ==> i in es) && e in es
    ensures Times(RootEntityIds(es, seen, order), e) == if EntityIsRoot(es, seen, e) then Times(order, e) else 0
  {
    if order != [] {
      RootEntityTimes(es, seen, order[1..], e);
    }
  }

  lemma {:induction false} RootVenueTimes(es: Entities, vs: Venues, seen: Seen, order: seq<Id>, v: Id)
    requires (forall i :: i in order ==> i in vs) && v in vs
    ensures Times(RootVenueIds(vs, seen, order), v) == if VenueIsRoot(vs, seen, v) then Times(order, v) else 0
  {
    if order != [] {
      RootVenueTimes(es, vs, seen, order[1..], v);
    }
  }

  /** Roots have no visible parent. */
  lemma RootsAtTop(es: Entities, vs: Venues, seen: Seen, eOrder: seq<Id>, vOrder: seq<Id>)
    requires Coherent(es, vs) && Within(es, vs, seen)
    ensures (forall i :: i in eOrder ==> i in es) ==> EntitiesAt(es, RootEntityIds(es, seen, eOrder), 0)
    ensures (forall i :: i in vOrder ==> i in vs) ==> VenuesAt(vs, RootVenueIds(vs, seen, vOrder), 0)
  {
  }

  function RootEntities(es: Entities, vs: Venues, seen: Seen, order: seq<Id>): seq<Node>
    requires Coherent(es, vs) && Within(es, vs, seen) && forall i :: i in order ==> i in es
  {
    RootsAtTop(es, vs, seen, order, []);
    EntityNodes(es, vs, RootEntityIds(es, seen, order), 0)
  }

  function RootVenues(es: Entities, vs: Venues, seen: Seen, order: seq<Id>): seq<Node>
    requires Coherent(es, vs) && Within(es, vs, seen) && forall i :: i in order ==> i in vs
  {
    RootsAtTop(es, vs, seen, [], order);
    VenueNodes(vs, RootVenueIds(vs, seen, order), 0)
  }

  // ---------------------------------------------------------------- what is shown

  /** Walking up from the entity arrives at a root in at most `d` steps. */
  ghost predicate EntityShown(es: Entities, seen: Seen, e: Id, d: nat)
    decreases d
  {
    e in es && (EntityIsRoot(es, seen, e) || (d > 0 && EntityShown(es, seen, es[e].parent, d - 1)))
  }

  /** Walking up from the venue, over its parents and then its entity, arrives at a root. */
  ghost predicate VenueShown(es: Entities, vs: Venues, seen: Seen, v: Id, d: nat)
    decreases d
  {
    v in vs
    && (VenueIsRoot(vs, seen, v)
        || (vs[v].parent == NONE && EntityShows(es, seen, vs[v].entity))
        || (d > 0 && vs[v].parent != NONE && VenueShown(es, vs, seen, vs[v].parent, d - 1)))
  }

  ghost predicate EntityShows(es: Entities, seen: Seen, e: Id) { exists d: nat :: EntityShown(es, seen, e, d) }

  ghost predicate VenueShows(es: Entities, vs: Venues, seen: Seen, v: Id) { exists d: nat :: VenueShown(es, vs, seen, v, d) }

  lemma {:induction false} ShownEntityOnce(es: Entities, vs: Venues, seen: Seen, order: seq<Id>, e: Id, d: nat)
    requires Coherent(es, vs) && Within(es, vs, seen) && Enumerates(order, es.Keys) && EntityShown(es, seen, e, d)
    ensures CountAll(RootEntities(es, vs, seen, order), EntityKind, e) == 1
    decreases d
  {
    RootsAtTop(es, vs, seen, order, []);
    EntityNodesCount(es, vs, RootEntityIds(es, seen, order), 0, e);
    RootEntityTimes(es, seen, order, e);
    TimesInEnumeration(order, e);
    if !EntityIsRoot(es, seen, e) {
      ShownEntityOnce(es, vs, seen, order, es[e].parent, d - 1);
    }
  }

  /** How often a venue occurs below all roots. */
  ghost function Occurrences(es: Entities, vs: Venues, seen: Seen, eOrder: seq<Id>, vOrder: seq<Id>, v: Id): nat
    requires Coherent(es, vs) && Within(es, vs, seen) && Enumerates(eOrder, es.Keys) && Enumerates(vOrder, vs.Keys)
  {
    CountAll(RootEntities(es, vs, seen, eOrder), VenueKind, v) + CountAll(RootVenues(es, vs, seen, vOrder), VenueKind, v)
  }

  /** A venue is a root, or occurs where its place does. */
  lemma RootsCount(es: Entities, vs: Venues, seen: Seen, eOrder: seq<Id>, vOrder: seq<Id>, v: Id)
    requires Coherent(es, vs) && Within(es, vs, seen) && Enumerates(eOrder, es.Keys) && Enumerates(vOrder, vs.Keys) && v in vs
    ensures Occurrences(es, vs, seen, eOrder, vOrder, v) ==
              if VenueIsRoot(vs, seen, v) then 1
              else if vs[v].parent in vs then Occurrences(es, vs, seen, eOrder, vOrder, vs[v].parent)
              else if vs[v].parent == NONE && vs[v].entity in es then CountAll(RootEntities(es, vs, seen, eOrder), EntityKind, vs[v].entity)
              else 0
  {
    RootsAtTop(es, vs, seen, eOrder, vOrder);
    VenuesInEntities(es, vs, RootEntityIds(es, seen, eOrder), 0, v);
    VenueNodesCount(es, vs, RootVenueIds(vs, seen, vOrder), 0, v);
    RootVenueTimes(es, vs, seen, vOrder, v);
    TimesInEnumeration(vOrder, v);
  }

  lemma {:induction false} ShownVenueOnce(es: Entities, vs: Venues, seen: Seen, eOrder: seq<Id>, vOrder: seq<Id>, v: Id, d: nat)
    requires Coherent(es, vs) && Within(es, vs, seen) && Enumerates(eOrder, es.Keys) && Enumerates(vOrder, vs.Keys) && VenueShown(es, vs, seen, v, d)
    ensures Occurrences(es, vs, seen, eOrder, vOrder, v) == 1
    decreases d
  {
    RootsCount(es, vs, seen, eOrder, vOrder, v);
    if !VenueIsRoot(vs, seen, v) {
      if vs[v].parent == NONE {
        var k: nat :| EntityShown(es, seen, vs[v].entity, k);
        ShownEntityOnce(es, vs, seen, eOrder, vs[v].entity, k);
      } else {
        ShownVenueOnce(es, vs, seen, eOrder, vOrder, vs[v].parent, d - 1);
      }
    }
  }

  /** Descents from what is shown meet only what is shown. */
  ghost predicate EntitiesShow(es: Entities, seen: Seen, ids: seq<Id>) { forall i :: i in ids && i in es ==> EntityShows(es, seen, i) }

  ghost predicate VenuesShow(es: Entities, vs: Venues, seen: Seen, ids: seq<Id>) { forall i :: i in ids && i in vs ==> VenueShows(es, vs, seen, i) }

  lemma EntityBelow(es: Entities, vs: Venues, seen: Seen, p: Id, c: Id)
    requires Coherent(es, vs) && p in es && c in es && c in es[p].children && EntityShows(es, seen, p)
    ensures EntityShows(es, seen, c)
  {
    var d: nat :| EntityShown(es, seen, p, d);
    assert EntityShown(es, seen, c, d + 1);
  }

  lemma VenueBelow(es: Entities, vs: Venues, seen: Seen, p: Id, c: Id)
    requires Coherent(es, vs) && p in vs && c in vs && c in vs[p].children && VenueShows(es, vs, seen, p)
    ensures VenueShows(es, vs, seen, c)
  {
    var d: nat :| VenueShown(es, vs, seen, p, d);
    assert VenueShown(es, vs, seen, c, d + 1);
  }

  lemma {:induction false} VenueNodesShow(es: Entities, vs: Venues, seen: Seen, ids: seq<Id>, d: nat, v: Id)
    requires Coherent(es, vs) && VenuesAt(vs, ids, d) && VenuesShow(es, vs, seen, ids)
    ensures CountAll(VenueNodes(vs, ids, d), VenueKind, v) > 0 ==> VenueShows(es, vs, seen, v)
    decreases |vs| - d, |ids|
  {
    if ids != [] {
      VenueNodesShow(es, vs, seen, ids[1..], d, v);
      if ids[0] in vs {
        assert ids[0] in ids && VenueShows(es, vs, seen, ids[0]);
        VenueDepthShort(vs, ids[0], d);
        forall c | c in vs[ids[0]].children && c in vs ensures VenueShows(es, vs, seen, c) {
          VenueBelow(es, vs, seen, ids[0], c);
        }
        VenueNodesShow(es, vs, seen, vs[ids[0]].children, d + 1, v);
        var n := BuildVenue(vs, ids[0], d);
        assert Count(n, VenueKind, v) == (if ids[0] == v then 1 else 0) + CountAll(n.children, VenueKind, v);
        assert VenueNodes(vs, ids, d) == [n] + VenueNodes(vs, ids[1..], d);
      }
    }
  }

  lemma TopVenuesShow(es: Entities, vs: Venues, seen: Seen, e: Id)
    requires Coherent(es, vs) && e in es && EntityShows(es, seen, e)
    ensures VenuesShow(es, vs, seen, TopVenues(vs, es[e].venues))
  {
    forall i | i in TopVenues(vs, es[e].venues) ensures VenueShows(es, vs, seen, i) {
      assert multiset(es[e].venues)[i] > 0;
      assert VenueShown(es, vs, seen, i, 0);
    }
  }

  lemma {:induction false} EntityNodesShow(es: Entities, vs: Venues, seen: Seen, ids: seq<Id>, d: nat, x: Id)
    requires Coherent(es, vs) && EntitiesAt(es, ids, d) && EntitiesShow(es, seen, ids)
    ensures CountAll(EntityNodes(es, vs, ids, d), EntityKind, x) > 0 ==> EntityShows(es, seen, x)
    ensures CountAll(EntityNodes(es, vs, ids, d), VenueKind, x) > 0 ==> VenueShows(es, vs, seen, x)
    decreases |es| - d, |ids|
  {
    if ids != [] {
      EntityNodesShow(es, vs, seen, ids[1..], d, x);
      if ids[0] in es {
        assert ids[0] in ids;
        EntityNodeShows(es, vs, seen, ids[0], d, x);
      }
    }
  }

  lemma {:induction false} EntityNodeShows(es: Entities, vs: Venues, seen: Seen, id: Id, d: nat, x: Id)
    requires Coherent(es, vs) && EntityDepth(es, id, d) && EntityShows(es, seen, id)
    ensures Count(BuildEntity(es, vs, id, d), EntityKind, x) > 0 ==> EntityShows(es, seen, x)
    ensures Count(BuildEntity(es, vs, id, d), VenueKind, x) > 0 ==> VenueShows(es, vs, seen, x)
    decreases |es| - d, 0
  {
    var top := TopVenues(vs, es[id].venues);
    EntityDepthShort(es, id, d);
    forall c | c in es[id].children && c in es ensures EntityShows(es, seen, c) {
      EntityBelow(es, vs, seen, id, c);
    }
    EntityNodesShow(es, vs, seen, es[id].children, d + 1, x);
    TopVenuesShow(es, vs, seen, id);
    VenueNodesShow(es, vs, seen, top, 0, x);
    VenueNodesForeign(vs, top, 0, EntityKind, x);
    assert BuildEntity(es, vs, id, d) == EntityNode(id, EntityNodes(es, vs, es[id].children, d + 1), VenueNodes(vs, top, 0));
  }

  lemma RootsShow(es: Entities, vs: Venues, seen: Seen, eOrder: seq<Id>, vOrder: seq<Id>)
    requires Coherent(es, vs) && Within(es, vs, seen) && Enumerates(eOrder, es.Keys) && Enumerates(vOrder, vs.Keys)
    ensures EntitiesShow(es, seen, RootEntityIds(es, seen, eOrder)) && VenuesShow(es, vs, seen, RootVenueIds(vs, seen, vOrder))
  {
    forall i | i in RootEntityIds(es, seen, eOrder) ensures EntityShows(es, seen, i) {
      assert EntityShown(es, seen, i, 0);
    }
    forall i | i in RootVenueIds(vs, seen, vOrder) ensures VenueShows(es, vs, seen, i) {
      assert VenueShown(es, vs, seen, i, 0);
    }
  }

  /** An entity occurs once in the trees of the root entities if walking up from it arrives at a root, and otherwise not at all. */
  lemma EntityOnce(es: Entities, vs: Venues, seen: Seen, eOrder: seq<Id>, vOrder: seq<Id>, e: Id)
    requires Coherent(es, vs) && Within(es, vs, seen) && Enumerates(eOrder, es.Keys) && Enumerates(vOrder, vs.Keys)
    ensures CountAll(RootEntities(es, vs, seen, eOrder), EntityKind, e) == if EntityShows(es, seen, e) then 1 else 0
  {
    if EntityShows(es, seen, e) {
      var d: nat :| EntityShown(es, seen, e, d);
      ShownEntityOnce(es, vs, seen, eOrder, e, d);
    } else {
      RootsAtTop(es, vs, seen, eOrder, vOrder);
      RootsShow(es, vs, seen, eOrder, vOrder);
      EntityNodesShow(es, vs, seen, RootEntityIds(es, seen, eOrder), 0, e);
    }
  }

  /** A venue occurs once, under a root entity or under a root venue, if walking up from it arrives at a root, and otherwise not
      at all. */
  lemma VenueOnce(es: Entities, vs: Venues, seen: Seen, eOrder: seq<Id>, vOrder: seq<Id>, v: Id)
    requires Coherent(es, vs) && Within(es, vs, seen) && Enumerates(eOrder, es.Keys) && Enumerates(vOrder, vs.Keys)
    ensures Occurrences(es, vs, seen, eOrder, vOrder, v) == if VenueShows(es, vs, seen, v) then 1 else 0
  {
    if VenueShows(es, vs, seen, v) {
      var d: nat :| VenueShown(es, vs, seen, v, d);
      ShownVenueOnce(es, vs, seen, eOrder, vOrder, v, d);
    } else {
      RootsAtTop(es, vs, seen, eOrder, vOrder);
      RootsShow(es, vs, seen, eOrder, vOrder);
      EntityNodesShow(es, vs, seen, RootEntityIds(es, seen, eOrder), 0, v);
      VenueNodesShow(es, vs, seen, RootVenueIds(vs, seen, vOrder), 0, v);
    }
  }

  // ---------------------------------------------------------------- the exact condition

  /** Walking up over visible parents ends for every record; a record that is its own parent does not let it. */
  ghost predicate WalksEnd(es: Entities, vs: Venues) {
    && (forall e :: e in es ==> exists d: nat :: EntityDepth(es, e, d))
    && (forall v :: v in vs ==> exists d: nat :: VenueDepth(vs, v, d))
  }

  lemma {:induction false} RecordedEntityShows(es: Entities, vs: Venues, seen: Seen, e: Id, d: nat)
    requires Recorded(es, vs, seen) && EntityDepth(es, e, d)
    ensures EntityShown(es, seen, e, d)
    decreases d
  {
    if d > 0 {
      RecordedEntityShows(es, vs, seen, es[e].parent, d - 1);
    }
  }

  lemma {:induction false} RecordedVenueShows(es: Entities, vs: Venues, seen: Seen, v: Id, d: nat)
    requires Recorded(es, vs, seen) && WalksEnd(es, vs) && NONE !in vs && VenueDepth(vs, v, d)
    ensures VenueShown(es, vs, seen, v, d)
    decreases d
  {
    if d > 0 {
      RecordedVenueShows(es, vs, seen, vs[v].parent, d - 1);
    } else if !VenueIsRoot(vs, seen, v) {
      var k: nat :| EntityDepth(es, vs[v].entity, k);
      RecordedEntityShows(es, vs, seen, vs[v].entity, k);
    }
  }

  lemma {:induction false} ShownEntityEnds(es: Entities, vs: Venues, seen: Seen, e: Id, d: nat)
    requires Coherent(es, vs) && Within(es, vs, seen) && EntityShown(es, seen, e, d)
    ensures exists k: nat :: EntityDepth(es, e, k)
    decreases d
  {
    if EntityIsRoot(es, seen, e) {
      assert EntityDepth(es, e, 0);
    } else {
      ShownEntityEnds(es, vs, seen, es[e].parent, d - 1);
      var k: nat :| EntityDepth(es, es[e].parent, k);
      assert EntityDepth(es, e, k + 1);
    }
  }

  lemma {:induction false} ShownVenueEnds(es: Entities, vs: Venues, seen: Seen, v: Id, d: nat)
    requires Coherent(es, vs) && Within(es, vs, seen) && VenueShown(es, vs, seen, v, d)
    ensures exists k: nat :: VenueDepth(vs, v, k)
    decreases d
  {
    if VenueIsRoot(vs, seen, v) || vs[v].parent == NONE {
      assert VenueDepth(vs, v, 0);
    } else {
      ShownVenueEnds(es, vs, seen, vs[v].parent, d - 1);
      var k: nat :| VenueDepth(vs, vs[v].parent, k);
      assert VenueDepth(vs, v, k + 1);
    }
  }

  /** Every record is shown if and only if the place of every record, if it may be seen, has a record, and every walk ends. */
  lemma AllShowExactly(es: Entities, vs: Venues, seen: Seen)
    requires Coherent(es, vs) && Within(es, vs, seen)
    ensures Recorded(es, vs, seen) && WalksEnd(es, vs) <==>
              (forall e :: e in es ==> EntityShows(es, seen, e)) && (forall v :: v in vs ==> VenueShows(es, vs, seen, v))
  {
    if Recorded(es, vs, seen) && WalksEnd(es, vs) {
      forall e | e in es ensures EntityShows(es, seen, e) {
        var d: nat :| EntityDepth(es, e, d);
        RecordedEntityShows(es, vs, seen, e, d);
      }
      forall v | v in vs ensures VenueShows(es, vs, seen, v) {
        var d: nat :| VenueDepth(vs, v, d);
        RecordedVenueShows(es, vs, seen, v, d);
      }
    }
    if (forall e :: e in es ==> EntityShows(es, seen, e)) && (forall v :: v in vs ==> VenueShows(es, vs, seen, v)) {
      forall e | e in es ensures exists d: nat :: EntityDepth(es, e, d) {
        var d: nat :| EntityShown(es, seen, e, d);
        ShownEntityEnds(es, vs, seen, e, d);
      }
      forall v | v in vs ensures exists d: nat :: VenueDepth(vs, v, d) {
        var d: nat :| VenueShown(es, vs, seen, v, d);
        ShownVenueEnds(es, vs, seen, v, d);
      }
      ShownIsRecorded(es, vs, seen);
    }
  }

  lemma ShownIsRecorded(es: Entities, vs: Venues, seen: Seen)
    requires forall e :: e in es ==> EntityShows(es, seen, e)
    requires forall v :: v in vs ==> VenueShows(es, vs, seen, v)
    ensures Recorded(es, vs, seen)
  {
    forall e | e in es && !EntityIsRoot(es, seen, e) ensures es[e].parent in es {
      assert EntityShows(es, seen, e);
      var d: nat :| EntityShown(es, seen, e, d);
      assert EntityShown(es, seen, es[e].parent, d - 1);
    }
    forall v | v in vs && !VenueIsRoot(vs, seen, v)
      ensures if vs[v].parent != NONE then vs[v].parent in vs else vs[v].entity in es
    {
      assert VenueShows(es, vs, seen, v);
      var d: nat :| VenueShown(es, vs, seen, v, d);
      if vs[v].parent == NONE {
        var k: nat :| EntityShown(es, seen, vs[v].entity, k);
      } else {
        assert VenueShown(es, vs, seen, vs[v].parent, d - 1);
      }
    }
  }

  /** Every record occurs exactly once if and only if the place of every record, if it may be seen, has a record, and walking up
      over parents ends from every record. */
  lemma OnceExactly(es: Entities, vs: Venues, seen: Seen, eOrder: seq<Id>, vOrder: seq<Id>)
    requires Coherent(es, vs) && Within(es, vs, seen) && Enumerates(eOrder, es.Keys) && Enumerates(vOrder, vs.Keys)
    ensures Recorded(es, vs, seen) && WalksEnd(es, vs) <==>
              && (forall e :: e in es ==> CountAll(RootEntities(es, vs, seen, eOrder), EntityKind, e) == 1)
              && (forall v :: v in vs ==> Occurrences(es, vs, seen, eOrder, vOrder, v) == 1)
  {
    AllShowExactly(es, vs, seen);
    forall e | e in es ensures CountAll(RootEntities(es, vs, seen, eOrder), EntityKind, e) == 1 <==> EntityShows(es, seen, e) {
      EntityOnce(es, vs, seen, eOrder, vOrder, e);
    }
    forall v | v in vs ensures Occurrences(es, vs, seen, eOrder, vOrder, v) == 1 <==> VenueShows(es, vs, seen, v) {
      VenueOnce(es, vs, seen, eOrder, vOrder, v);
    }
  }

  /** For instance, a venue whose visible parent has no record is in no tree, although it may be seen. */
  lemma OrphanIsHidden()
    ensures var vs := map["w" := Venue("", "e", "p", [], [], [], NONE, "")];
      var seen := Seen({}, {"p", "w"});
      && Coherent(map[], vs) && Within(map[], vs, seen) && WalksEnd(map[], vs)
      && Occurrences(map[], vs, seen, [], ["w"], "w") == 0
  {
    var vs := map["w" := Venue("", "e", "p", [], [], [], NONE, "")];
    var seen := Seen({}, {"p", "w"});
    assert VenueDepth(vs, "w", 0);
    VenueOnce(map[], vs, seen, [], ["w"], "w");
  }

  // ---------------------------------------------------------------- where the nodes hang

  /** Below the node of a venue are nodes of venues whose parent it is. */
  ghost predicate HungVenue(vs: Venues, n: Node) {
    && n.VenueNode? && n.uuid in vs
    && forall i :: 0 <= i < |n.children| ==> HungVenue(vs, n.children[i]) && vs[n.children[i].uuid].parent == n.uuid
  }

  /** Below the node of an entity are nodes of entities whose parent it is, and of venues without a parent in it. */
  ghost predicate HungEntity(es: Entities, vs: Venues, n: Node) {
    && n.EntityNode? && n.uuid in es
    && (forall i :: 0 <= i < |n.children| ==> HungEntity(es, vs, n.children[i]) && es[n.children[i].uuid].parent == n.uuid)
    && (forall i :: 0 <= i < |n.venues| ==>
          HungVenue(vs, n.venues[i]) && vs[n.venues[i].uuid].parent == NONE && vs[n.venues[i].uuid].entity == n.uuid)
  }

  ghost predicate VenuesHang(vs: Venues, ns: seq<Node>, ids: seq<Id>) {
    forall i :: 0 <= i < |ns| ==> HungVenue(vs, ns[i]) && ns[i].uuid in ids
  }

  ghost predicate EntitiesHang(es: Entities, vs: Venues, ns: seq<Node>, ids: seq<Id>) {
    forall i :: 0 <= i < |ns| ==> HungEntity(es, vs, ns[i]) && ns[i].uuid in ids
  }

  lemma {:induction false} VenueNodesHang(vs: Venues, ids: seq<Id>, d: nat)
    requires VenuesListed(vs) && VenuesAt(vs, ids, d)
    ensures VenuesHang(vs, VenueNodes(vs, ids, d), ids)
    decreases |vs| - d, |ids|
  {
    if ids != [] {
      VenueNodesHang(vs, ids[1..], d);
      if ids[0] in vs {
        VenueHangs(vs, ids[0], d);
      }
    }
  }

  lemma {:induction false} VenueHangs(vs: Venues, id: Id, d: nat)
    requires VenuesListed(vs) && VenueDepth(vs, id, d)
    ensures HungVenue(vs, BuildVenue(vs, id, d))
    decreases |vs| - d, 0
  {
    VenueDepthShort(vs, id, d);
    var ns := VenueNodes(vs, vs[id].children, d + 1);
    VenueNodesHang(vs, vs[id].children, d + 1);
    forall i | 0 <= i < |ns| ensures ns[i].uuid in vs && vs[ns[i].uuid].parent == id {
      assert HungVenue(vs, ns[i]);
    }
    assert BuildVenue(vs, id, d) == VenueNode(id, ns);
  }

  lemma {:induction false} EntityNodesHang(es: Entities, vs: Venues, ids: seq<Id>, d: nat)
    requires Coherent(es, vs) && EntitiesAt(es, ids, d)
    ensures EntitiesHang(es, vs, EntityNodes(es, vs, ids, d), ids)
    decreases |es| - d, |ids|
  {
    if ids != [] {
      EntityNodesHang(es, vs, ids[1..], d);
      if ids[0] in es {
        EntityHangs(es, vs, ids[0], d);
      }
    }
  }

  lemma {:induction false} EntityHangs(es: Entities, vs: Venues, id: Id, d: nat)
    requires Coherent(es, vs) && EntityDepth(es, id, d)
    ensures HungEntity(es, vs, BuildEntity(es, vs, id, d))
    decreases |es| - d, 0
  {
    EntityDepthShort(es, id, d);
    var ns := EntityNodes(es, vs, es[id].children, d + 1);
    EntityNodesHang(es, vs, es[id].children, d + 1);
    forall i | 0 <= i < |ns| ensures ns[i].uuid in es && es[ns[i].uuid].parent == id {
      assert HungEntity(es, vs, ns[i]);
    }
    var tops := VenueNodes(vs, TopVenues(vs, es[id].venues), 0);
    TopVenuesHang(es, vs, id, tops);
    assert BuildEntity(es, vs, id, d) == EntityNode(id, ns, tops);
  }

  lemma TopVenuesHang(es: Entities, vs: Venues, id: Id, ns: seq<Node>)
    requires Coherent(es, vs) && id in es && ns == VenueNodes(vs, TopVenues(vs, es[id].venues), 0)
    ensures forall i :: 0 <= i < |ns| ==> HungVenue(vs, ns[i]) && vs[ns[i].uuid].parent == NONE && vs[ns[i].uuid].entity == id
  {
    var top := TopVenues(vs, es[id].venues);
    VenueNodesHang(vs, top, 0);
    forall i | 0 <= i < |ns|
      ensures HungVenue(vs, ns[i]) && vs[ns[i].uuid].parent == NONE && vs[ns[i].uuid].entity == id
    {
      assert HungVenue(vs, ns[i]) && ns[i].uuid in top;
      assert multiset(es[id].venues)[ns[i].uuid] > 0;
    }
  }

  /** Every node hangs under its own parent, and the roots are the records without a visible one. */
  lemma EveryNodeHangs(es: Entities, vs: Venues, seen: Seen, eOrder: seq<Id>, vOrder: seq<Id>)
    requires Coherent(es, vs) && Within(es, vs, seen) && Enumerates(eOrder, es.Keys) && Enumerates(vOrder, vs.Keys)
    ensures var entities := RootEntities(es, vs, seen, eOrder);
      forall i :: 0 <= i < |entities| ==> HungEntity(es, vs, entities[i]) && EntityIsRoot(es, seen, entities[i].uuid)
    ensures var venues := RootVenues(es, vs, seen, vOrder);
      forall i :: 0 <= i < |venues| ==> HungVenue(vs, venues[i]) && VenueIsRoot(vs, seen, venues[i].uuid)
  {
    RootsAtTop(es, vs, seen, eOrder, vOrder);
    EntityNodesHang(es, vs, RootEntityIds(es, seen, eOrder), 0);
    VenueNodesHang(vs, RootVenueIds(vs, seen, vOrder), 0);
  }

  // ---------------------------------------------------------------- the order of siblings

  function Uuids(ns: seq<Node>): (r: seq<Id>)
    ensures |r| == |ns|
  {
    if ns == [] then [] else [ns[0].uuid] + Uuids(ns[1..])
  }

  lemma {:induction false} UuidsConcat(a: seq<Node>, b: seq<Node>)
    ensures Uuids(a + b) == Uuids(a) + Uuids(b)
  {
    if a == [] {
      assert a + b == b;
    } else {
      assert (a + b)[1..] == a[1..] + b;
      UuidsConcat(a[1..], b);
    }
  }

  lemma {:induction false} VenueNodesConcat(vs: Venues, a: seq<Id>, last: Id, d: nat)
    requires VenuesListed(vs) && VenuesAt(vs, a, d) && VenuesAt(vs, a + [last], d) && (last in vs ==> VenueDepth(vs, last, d))
    ensures VenueNodes(vs, a + [last], d) == VenueNodes(vs, a, d) + if last in vs then [BuildVenue(vs, last, d)] else []
    decreases |a|
  {
    var more := if last in vs then [BuildVenue(vs, last, d)] else [];
    if a == [] {
      assert (a + [last])[1..] == [];
      assert VenueNodes(vs, [last], d) == more + VenueNodes(vs, [], d);
      assert more + [] == more;
    } else {
      assert (a + [last])[1..] == a[1..] + [last];
      VenueNodesConcat(vs, a[1..], last, d);
      if a[0] in vs {
        Regroup([BuildVenue(vs, a[0], d)], VenueNodes(vs, a[1..], d), more);
      }
    }
  }

  lemma {:induction false} VenueNodesInOrder(vs: Venues, ids: seq<Id>, d: nat)
    requires VenuesListed(vs) && VenuesAt(vs, ids, d)
    ensures KeepsKnown(ids, vs.Keys, Uuids(VenueNodes(vs, ids, d)))
    decreases |ids|
  {
    if ids != [] {
      var front, last := ids[..|ids| - 1], ids[|ids| - 1];
      assert ids == front + [last];
      assert last in ids;
      var more := if last in vs then [BuildVenue(vs, last, d)] else [];
      VenueNodesInOrder(vs, front, d);
      VenueNodesConcat(vs, front, last, d);
      UuidsConcat(VenueNodes(vs, front, d), more);
      assert Uuids(more) == if last in vs then [last] else [];
      KeepsOneMore(front, vs.Keys, Uuids(VenueNodes(vs, front, d)), last);
    }
  }

  lemma {:induction false} OneEntityNode(es: Entities, vs: Venues, id: Id, d: nat)
    requires Coherent(es, vs) && EntitiesAt(es, [id], d) && (id in es ==> EntityDepth(es, id, d))
    ensures EntityNodes(es, vs, [id], d) == if id in es then [BuildEntity(es, vs, id, d)] else []
  {
    assert [id][1..] == [] && EntityNodes(es, vs, [], d) == [];
  }

  lemma {:induction false} EntityNodesConcat(es: Entities, vs: Venues, a: seq<Id>, last: Id, d: nat)
    requires Coherent(es, vs) && EntitiesAt(es, a, d) && EntitiesAt(es, a + [last], d) && (last in es ==> EntityDepth(es, last, d))
    ensures EntityNodes(es, vs, a + [last], d) == EntityNodes(es, vs, a, d) + if last in es then [BuildEntity(es, vs, last, d)] else []
    decreases |a|
  {
    var more := if last in es then [BuildEntity(es, vs, last, d)] else [];
    if a == [] {
      assert (a + [last])[1..] == [];
      assert a + [last] == [last];
      OneEntityNode(es, vs, last, d);
    } else {
      assert (a + [last])[1..] == a[1..] + [last];
      EntityNodesConcat(es, vs, a[1..], last, d);
      if a[0] in es {
        Regroup([BuildEntity(es, vs, a[0], d)], EntityNodes(es, vs, a[1..], d), more);
      }
    }
  }

  lemma {:induction false} EntityNodesInOrder(es: Entities, vs: Venues, ids: seq<Id>, d: nat)
    requires Coherent(es, vs) && EntitiesAt(es, ids, d)
    ensures KeepsKnown(ids, es.Keys, Uuids(EntityNodes(es, vs, ids, d)))
    decreases |ids|
  {
    if ids != [] {
      var front, last := ids[..|ids| - 1], ids[|ids| - 1];
      assert ids == front + [last];
      assert last in ids;
      var more := if last in es then [BuildEntity(es, vs, last, d)] else [];
      EntityNodesInOrder(es, vs, front, d);
      EntityNodesConcat(es, vs, front, last, d);
      UuidsConcat(EntityNodes(es, vs, front, d), more);
      assert Uuids(more) == if last in es then [last] else [];
      KeepsOneMore(front, es.Keys, Uuids(EntityNodes(es, vs, front, d)), last);
    }
  }

  /** The visible venues without a parent. */
  ghost function Tops(vs: Venues): set<Id> { set v | v in vs && vs[v].parent == NONE }

  lemma {:induction false} TopVenuesConcat(vs: Venues, a: seq<Id>, last: Id)
    ensures TopVenues(vs, a + [last]) == TopVenues(vs, a) + if last in Tops(vs) then [last] else []
  {
    if a == [] {
      assert (a + [last])[1..] == [] && a + [last] == [last];
    } else {
      assert (a + [last])[1..] == a[1..] + [last];
      TopVenuesConcat(vs, a[1..], last);
    }
  }

  lemma {:induction false} TopVenuesInOrder(vs: Venues, ids: seq<Id>)
    ensures KeepsKnown(ids, Tops(vs), TopVenues(vs, ids))
    decreases |ids|
  {
    if ids != [] {
      var front, last := ids[..|ids| - 1], ids[|ids| - 1];
      assert ids == front + [last];
      TopVenuesInOrder(vs, front);
      TopVenuesConcat(vs, front, last);
      KeepsOneMore(front, Tops(vs), TopVenues(vs, front), last);
    }
  }

  lemma EntityVenuesInOrder(es: Entities, vs: Venues, e: Id, d: nat)
    requires Coherent(es, vs) && EntityDepth(es, e, d)
    ensures KeepsKnown(es[e].venues, Tops(vs), Uuids(BuildEntity(es, vs, e, d).venues))
  {
    var tops := TopVenues(vs, es[e].venues);
    TopVenuesInOrder(vs, es[e].venues);
    VenueNodesInOrder(vs, tops, 0);
    KeepsAll(tops, vs.Keys, Uuids(VenueNodes(vs, tops, 0)));
  }

  /** Siblings come in the order of the list of their place: the children of a venue and of an entity, and the venues of an entity
      that have no parent, as far as they may be seen. */
  lemma SiblingsInOrder(es: Entities, vs: Venues, id: Id, d: nat)
    requires Coherent(es, vs)
    ensures VenueDepth(vs, id, d) ==> KeepsKnown(vs[id].children, vs.Keys, Uuids(BuildVenue(vs, id, d).children))
    ensures EntityDepth(es, id, d) ==> KeepsKnown(es[id].children, es.Keys, Uuids(BuildEntity(es, vs, id, d).children))
    ensures EntityDepth(es, id, d) ==> KeepsKnown(es[id].venues, Tops(vs), Uuids(BuildEntity(es, vs, id, d).venues))
  {
    if VenueDepth(vs, id, d) {
      VenueNodesInOrder(vs, vs[id].children, d + 1);
    }
    if EntityDepth(es, id, d) {
      EntityNodesInOrder(es, vs, es[id].children, d + 1);
      EntityVenuesInOrder(es, vs, id, d);
    }
  }

  // ---------------------------------------------------------------- the answer

  /** Nothing, the only root, or all roots under a node of their own. */
  function Answer(entities: seq<Node>, venues: seq<Node>): Option<Node> {
    if |entities| == 0 && |venues| == 0 then None
    else if |entities| == 1 && |venues| == 0 then Some(entities[0])
    else if |entities| == 0 && |venues| == 1 then Some(venues[0])
    else Some(EntityNode(ROOT, entities, venues))
  }

  lemma RootEntitiesStep(es: Entities, vs: Venues, seen: Seen, order: seq<Id>)
    requires Coherent(es, vs) && Within(es, vs, seen) && order != [] && forall i :: i in order ==> i in es
    ensures EntityIsRoot(es, seen, order[0]) ==> EntityDepth(es, order[0], 0)
    ensures RootEntities(es, vs, seen, order) ==
              (if EntityIsRoot(es, seen, order[0]) then [BuildEntity(es, vs, order[0], 0)] else []) + RootEntities(es, vs, seen, order[1..])
  {
    if EntityIsRoot(es, seen, order[0]) {
      assert ([order[0]] + RootEntityIds(es, seen, order[1..]))[1..] == RootEntityIds(es, seen, order[1..]);
    } else {
      assert RootEntityIds(es, seen, order) == RootEntityIds(es, seen, order[1..]);
    }
  }

  lemma RootVenuesStep(es: Entities, vs: Venues, seen: Seen, order: seq<Id>)
    requires Coherent(es, vs) && Within(es, vs, seen) && order != [] && forall i :: i in order ==> i in vs
    ensures VenueIsRoot(vs, seen, order[0]) ==> VenueDepth(vs, order[0], 0)
    ensures RootVenues(es, vs, seen, order) ==
              (if VenueIsRoot(vs, seen, order[0]) then [BuildVenue(vs, order[0], 0)] else []) + RootVenues(es, vs, seen, order[1..])
  {
    if VenueIsRoot(vs, seen, order[0]) {
      assert ([order[0]] + RootVenueIds(vs, seen, order[1..]))[1..] == RootVenueIds(vs, seen, order[1..]);
    } else {
      assert RootVenueIds(vs, seen, order) == RootVenueIds(vs, seen, order[1..]);
    }
  }

  /** One turn of the loop over entities, seen from the list so far. */
  lemma RootEntitiesAt(es: Entities, vs: Venues, seen: Seen, order: seq<Id>, i: nat, so: seq<Node>)
    requires Coherent(es, vs) && Within(es, vs, seen) && i < |order| && forall x :: x in order ==> x in es
    ensures order[i] in es && (EntityIsRoot(es, seen, order[i]) ==> EntityDepth(es, order[i], 0))
    ensures so + RootEntities(es, vs, seen, order[i..]) ==
              (if EntityIsRoot(es, seen, order[i]) then so + [BuildEntity(es, vs, order[i], 0)] else so)
              + RootEntities(es, vs, seen, order[i + 1..])
  {
    RootEntitiesStep(es, vs, seen, order[i..]);
    assert order[i..][1..] == order[i + 1..];
  }

  lemma RootVenuesAt(es: Entities, vs: Venues, seen: Seen, order: seq<Id>, i: nat, so: seq<Node>)
    requires Coherent(es, vs) && Within(es, vs, seen) && i < |order| && forall x :: x in order ==> x in vs
    ensures order[i] in vs && (VenueIsRoot(vs, seen, order[i]) ==> VenueDepth(vs, order[i], 0))
    ensures so + RootVenues(es, vs, seen, order[i..]) ==
              (if VenueIsRoot(vs, seen, order[i]) then so + [BuildVenue(vs, order[i], 0)] else so)
              + RootVenues(es, vs, seen, order[i + 1..])
  {
    RootVenuesStep(es, vs, seen, order[i..]);
    assert order[i..][1..] == order[i + 1..];
  }

  method CollectEntities(es: Entities, vs: Venues, seen: Seen, order: seq<Id>) returns (entities: seq<Node>)
    requires Coherent(es, vs) && Within(es, vs, seen) && forall i :: i in order ==> i in es
    ensures entities == RootEntities(es, vs, seen, order)
  {
    entities := [];
    ghost var all := RootEntities(es, vs, seen, order);
    for i := 0 to |order|
      invariant entities + RootEntities(es, vs, seen, order[i..]) == all
    {
      RootEntitiesAt(es, vs, seen, order, i, entities);
      if es[order[i]].parent != NONE && es[order[i]].parent in seen.entities {
        continue;
      }
      entities := entities + [BuildEntity(es, vs, order[i], 0)];
    }
  }

  method CollectVenues(es: Entities, vs: Venues, seen: Seen, order: seq<Id>) returns (venues: seq<Node>)
    requires Coherent(es, vs) && Within(es, vs, seen) && forall i :: i in order ==> i in vs
    ensures venues == RootVenues(es, vs, seen, order)
  {
    venues := [];
    ghost var all := RootVenues(es, vs, seen, order);
    for i := 0 to |order|
      invariant venues + RootVenues(es, vs, seen, order[i..]) == all
    {
      RootVenuesAt(es, vs, seen, order, i, venues);
      var v := vs[order[i]];
      if v.parent != NONE && v.parent in seen.venues {
        continue;
      }
      if v.parent == NONE && v.entity in seen.entities {
        continue;
      }
      venues := venues + [BuildVenue(vs, order[i], 0)];
    }
  }

  /** The answer for the visible records; the loops go over them in the order of their ids. */
  method Build(es: Entities, vs: Venues, seen: Seen, eOrder: seq<Id>, vOrder: seq<Id>) returns (answer: Option<Node>)
    requires Coherent(es, vs) && Within(es, vs, seen) && Enumerates(eOrder, es.Keys) && Enumerates(vOrder, vs.Keys)
    ensures answer == Answer(RootEntities(es, vs, seen, eOrder), RootVenues(es, vs, seen, vOrder))
    ensures forall v :: CountIn(answer, VenueKind, v) == if VenueShows(es, vs, seen, v) then 1 else 0
    ensures forall e :: e != ROOT ==> CountIn(answer, EntityKind, e) == if EntityShows(es, seen, e) then 1 else 0
  {
    var entities := CollectEntities(es, vs, seen, eOrder);
    var venues := CollectVenues(es, vs, seen, vOrder);
    answer := Answer(entities, venues);
    EveryRecordOnce(es, vs, seen, eOrder, vOrder);
  }

  function CountIn(answer: Option<Node>, kind: Kind, id: Id): nat {
    if answer.None? then 0 else Count(answer.value, kind, id)
  }

  lemma AnswerCount(entities: seq<Node>, venues: seq<Node>, kind: Kind, id: Id)
    ensures CountIn(Answer(entities, venues), kind, id) ==
              CountAll(entities, kind, id) + CountAll(venues, kind, id)
              + (if kind.EntityKind? && id == ROOT && |entities| + |venues| > 1 then 1 else 0)
  {
  }

  /** The answer holds every entity and every venue from which walking up arrives at a root exactly once and nothing else, besides
      the node that collects several roots. If every record is shown it is empty only if there is none. */
  lemma EveryRecordOnce(es: Entities, vs: Venues, seen: Seen, eOrder: seq<Id>, vOrder: seq<Id>)
    requires Coherent(es, vs) && Within(es, vs, seen) && Enumerates(eOrder, es.Keys) && Enumerates(vOrder, vs.Keys)
    ensures var entities, venues := RootEntities(es, vs, seen, eOrder), RootVenues(es, vs, seen, vOrder);
      var answer := Answer(entities, venues);
      && (forall v :: CountIn(answer, VenueKind, v) == if VenueShows(es, vs, seen, v) then 1 else 0)
      && (forall e :: CountIn(answer, EntityKind, e) ==
            (if EntityShows(es, seen, e) then 1 else 0) + (if e == ROOT && |entities| + |venues| > 1 then 1 else 0))
      && (Recorded(es, vs, seen) && WalksEnd(es, vs) ==> (answer.None? <==> es == map[] && vs == map[]))
  {
    var entities, venues := RootEntities(es, vs, seen, eOrder), RootVenues(es, vs, seen, vOrder);
    forall v ensures CountIn(Answer(entities, venues), VenueKind, v) == if VenueShows(es, vs, seen, v) then 1 else 0 {
      VenueTotal(es, vs, seen, eOrder, vOrder, v);
    }
    forall e ensures CountIn(Answer(entities, venues), EntityKind, e) ==
        (if EntityShows(es, seen, e) then 1 else 0) + (if e == ROOT && |entities| + |venues| > 1 then 1 else 0) {
      EntityTotal(es, vs, seen, eOrder, vOrder, e);
    }
    if Recorded(es, vs, seen) && WalksEnd(es, vs) {
      SomethingShows(es, vs, seen, eOrder, vOrder);
    }
  }

  lemma SomethingShows(es: Entities, vs: Venues, seen: Seen, eOrder: seq<Id>, vOrder: seq<Id>)
    requires Coherent(es, vs) && Within(es, vs, seen) && Enumerates(eOrder, es.Keys) && Enumerates(vOrder, vs.Keys) && Recorded(es, vs, seen) && WalksEnd(es, vs)
    ensures Answer(RootEntities(es, vs, seen, eOrder), RootVenues(es, vs, seen, vOrder)).None? <==> es == map[] && vs == map[]
  {
    AllShowExactly(es, vs, seen);
    if es != map[] {
      var e :| e in es;
      EntityTotal(es, vs, seen, eOrder, vOrder, e);
    } else if vs != map[] {
      var v :| v in vs;
      VenueTotal(es, vs, seen, eOrder, vOrder, v);
    } else {
      EnumeratesSome(eOrder, es.Keys);
      EnumeratesSome(vOrder, vs.Keys);
    }
  }

  lemma EnumeratesSome(order: seq<Id>, keys: set<Id>)
    requires Enumerates(order, keys)
    ensures order != [] ==> keys != {}
  {
    if order != [] {
      assert order[0] in order;
    }
  }

  lemma VenueTotal(es: Entities, vs: Venues, seen: Seen, eOrder: seq<Id>, vOrder: seq<Id>, v: Id)
    requires Coherent(es, vs) && Within(es, vs, seen) && Enumerates(eOrder, es.Keys) && Enumerates(vOrder, vs.Keys)
    ensures CountIn(Answer(RootEntities(es, vs, seen, eOrder), RootVenues(es, vs, seen, vOrder)), VenueKind, v)
            == if VenueShows(es, vs, seen, v) then 1 else 0
  {
    AnswerCount(RootEntities(es, vs, seen, eOrder), RootVenues(es, vs, seen, vOrder), VenueKind, v);
    VenueOnce(es, vs, seen, eOrder, vOrder, v);
  }

  lemma EntityTotal(es: Entities, vs: Venues, seen: Seen, eOrder: seq<Id>, vOrder: seq<Id>, e: Id)
    requires Coherent(es, vs) && Within(es, vs, seen) && Enumerates(eOrder, es.Keys) && Enumerates(vOrder, vs.Keys)
    ensures var entities, venues := RootEntities(es, vs, seen, eOrder), RootVenues(es, vs, seen, vOrder);
      CountIn(Answer(entities, venues), EntityKind, e)
      == (if EntityShows(es, seen, e) then 1 else 0) + (if e == ROOT && |entities| + |venues| > 1 then 1 else 0)
  {
    AnswerCount(RootEntities(es, vs, seen, eOrder), RootVenues(es, vs, seen, vOrder), EntityKind, e);
    RootsAtTop(es, vs, seen, eOrder, vOrder);
    VenueNodesForeign(vs, RootVenueIds(vs, seen, vOrder), 0, EntityKind, e);
    EntityOnce(es, vs, seen, eOrder, vOrder, e);
  }
}
