/** The repair of the tables at start-up: six passes, each over one table. */
module ConsistencyCheck {
  import opened Tables
  import opened Placement

  // ---------------------------------------------------------------- repaired records

  /** The ids of a list that are in a table. */
  function Known(ids: seq<Id>, table: set<Id>): seq<Id> {
    if ids == [] then [] else if ids[0] in table then [ids[0]] + Known(ids[1..], table) else Known(ids[1..], table)
  }

  lemma {:induction false} KnownMembers(ids: seq<Id>, table: set<Id>)
    ensures forall i :: i in Known(ids, table) <==> i in ids && i in table
  {
    if ids != [] {
      KnownMembers(ids[1..], table);
    }
  }

  lemma {:induction false} KnownIsWhole(ids: seq<Id>, table: set<Id>)
    ensures Known(ids, table) == ids <==> forall i :: i in ids ==> i in table
  {
    if ids != [] {
      KnownIsWhole(ids[1..], table);
      assert ids == [ids[0]] + ids[1..];
      if ids[0] !in table {
        KnownMembers(ids, table);
        assert ids[0] !in Known(ids, table);
      }
    }
  }

  /** Every id is kept or dropped by itself, in order. */
  lemma {:induction false} KnownConcat(a: seq<Id>, b: seq<Id>, table: set<Id>)
    ensures Known(a + b, table) == Known(a, table) + Known(b, table)
  {
    if a == [] {
      assert a + b == b;
    } else {
      assert (a + b)[1..] == a[1..] + b;
      KnownConcat(a[1..], b, table);
    }
  }

  lemma {:induction false} KnownKeeps(ids: seq<Id>, table: set<Id>)
    ensures KeepsKnown(ids, table, Known(ids, table))
  {
    if ids != [] {
      var front, last := ids[..|ids| - 1], ids[|ids| - 1];
      assert ids == front + [last] && [last][1..] == [];
      KnownConcat(front, [last], table);
      KnownKeeps(front, table);
      KeepsOneMore(front, table, Known(front, table), last);
    }
  }

  lemma KnownTwice(ids: seq<Id>, table: set<Id>)
    ensures Known(Known(ids, table), table) == Known(ids, table)
  {
    KnownMembers(ids, table);
    KnownIsWhole(Known(ids, table), table);
  }

  function Rrm(rrm: string): string { if rrm == "yes" then "inherit" else rrm }

  function Existing(id: Id, table: set<Id>): Id { if id != NONE && id !in table then NONE else id }

  /** The ids of the rows a reference may name. */
  datatype Rows = Rows(
    inventory: set<Id>, venues: set<Id>, entities: set<Id>, operators: set<Id>,
    contacts: set<Id>, locations: set<Id>, variables: set<Id>)

  function RowsOf(db: Db): Rows {
    Rows(db.inventory.Keys, db.venues.Keys, db.entities.Keys, db.operators.Keys, db.contacts, db.locations, db.variables)
  }

  function VenueFixed(v: Venue, rows: Rows): Venue {
    v.(devices := Known(v.devices, rows.inventory), rrm := Rrm(v.rrm))
  }

  function EntityFixed(e: Entity, rows: Rows): Entity {
    e.(devices := Known(e.devices, rows.inventory), contacts := Known(e.contacts, rows.contacts),
       locations := Known(e.locations, rows.locations), venues := Known(e.venues, rows.venues),
       variables := Known(e.variables, rows.variables), rrm := Rrm(e.rrm))
  }

  function TagFixed(t: InventoryTag, rows: Rows): InventoryTag {
    t.(venue := Existing(t.venue, rows.venues), entity := Existing(t.entity, rows.entities),
       location := Existing(t.location, rows.locations), contact := Existing(t.contact, rows.contacts), rrm := Rrm(t.rrm))
  }

  function VenuesFixed(vs: map<Id, Venue>, rows: Rows): map<Id, Venue> { map v | v in vs :: VenueFixed(vs[v], rows) }

  function EntitiesFixed(es: map<Id, Entity>, rows: Rows): map<Id, Entity> { map e | e in es :: EntityFixed(es[e], rows) }

  function TagsFixed(ts: map<Id, InventoryTag>, rows: Rows): map<Id, InventoryTag> { map t | t in ts :: TagFixed(ts[t], rows) }

  function ConfigurationsFixed(cs: map<Id, Configuration>): map<Id, Configuration> {
    map c | c in cs :: cs[c].(rrm := Rrm(cs[c].rrm))
  }

  function DevicesFixed(ds: map<Id, SubscriberDevice>): map<Id, SubscriberDevice> {
    map d | d in ds :: ds[d].(rrm := Rrm(ds[d].rrm))
  }

  // ---------------------------------------------------------------- operators and their entities

  type Entities = map<Id, Entity>
  type Operators = map<Id, Operator>

  /** The first entity, in row order, that refers to an operator. */
  function Referring(es: Entities, rows: seq<Id>, o: Id): (e: Id)
    ensures e != NONE ==> e in rows && e in es && es[e].operatorId == o
    ensures e == NONE ==> forall x :: x in rows && x in es && x != NONE ==> es[x].operatorId != o
  {
    if rows == [] then NONE
    else if rows[0] in es && rows[0] != NONE && es[rows[0]].operatorId == o then rows[0]
    else Referring(es, rows[1..], o)
  }

  /** The entity of a non-default operator: its own reference, or else the first entity that refers to it. */
  function Linked(es: Entities, rows: seq<Id>, o: Id, op: Operator): (e: Id)
    ensures e != NONE ==> e in es
  {
    if op.entityId != NONE && op.entityId in es then op.entityId else Referring(es, rows, o)
  }

  function OperatorFixed(es: Entities, rows: seq<Id>, o: Id, op: Operator): Operator {
    var fixed := op.(rrm := Rrm(op.rrm));
    if op.defaultOperator then fixed.(entityId := ROOT)
    else if Linked(es, rows, o, op) != NONE then fixed.(entityId := Linked(es, rows, o, op))
    else fixed
  }

  /** The linked entity refers back, except the root. */
  function EntitiesLinked(es: Entities, rows: seq<Id>, o: Id, op: Operator): (r: Entities)
    ensures r.Keys == es.Keys
  {
    var e := Linked(es, rows, o, op);
    if !op.defaultOperator && e != NONE && e != ROOT then es[e := es[e].(operatorId := o)] else es
  }

  datatype Links = Links(entities: Entities, operators: Operators)

  /** One operator. */
  function FixOperator(l: Links, rows: seq<Id>, o: Id): (r: Links)
    ensures r.entities.Keys == l.entities.Keys && r.operators.Keys == l.operators.Keys
  {
    if o !in l.operators then l
    else
      var op := l.operators[o];
      Links(EntitiesLinked(l.entities, rows, o, op), l.operators[o := OperatorFixed(l.entities, rows, o, op)])
  }

  /** What repairing operator `o` gives: it is on the root if it is a default one; otherwise its entity, unless that is missing or the
      root, refers back to it. Nothing else changes in either table. */
  ghost predicate LinkedBothWays(before: Links, after: Links, rows: seq<Id>, o: Id)
    requires o in before.operators
  {
    && o in after.operators && after.operators == before.operators[o := after.operators[o]]
    && after.entities.Keys == before.entities.Keys
    && var op := after.operators[o];
       && op.rrm != "yes" && op.registrationId == before.operators[o].registrationId && op.defaultOperator == before.operators[o].defaultOperator
       && (op.defaultOperator ==> op.entityId == ROOT && after.entities == before.entities)
       && (!op.defaultOperator && op.entityId in after.entities && op.entityId != ROOT && op.entityId != NONE ==>
             after.entities[op.entityId] == before.entities[op.entityId].(operatorId := o))
       && (forall e :: e in before.entities && e != op.entityId ==> after.entities[e] == before.entities[e])
       && (ROOT in before.entities ==> after.entities[ROOT] == before.entities[ROOT])
       && RrmKept(before.operators[o].rrm, op.rrm)
       && (!op.defaultOperator ==> RightEntity(before.entities, rows, o, before.operators[o].entityId, op.entityId))
  }

  /** A policy stays as it is, except that "yes" becomes "inherit". */
  ghost predicate RrmKept(before: string, after: string) {
    (before == "yes" ==> after == "inherit") && (before != "yes" ==> after == before)
  }

  /** An entity that has a row and the reference to the operator. */
  ghost predicate RefersTo(es: Entities, e: Id, o: Id) { e != NONE && e in es && es[e].operatorId == o }

  /** An operator on an existing entity stays there; any other goes to the first entity that refers to it, if there is one. */
  ghost predicate RightEntity(es: Entities, rows: seq<Id>, o: Id, before: Id, after: Id) {
    if before != NONE && before in es then after == before
    else
      && (forall i :: 0 <= i < |rows| && RefersTo(es, rows[i], o) && (forall j :: 0 <= j < i ==> !RefersTo(es, rows[j], o)) ==>
            after == rows[i])
      && ((forall i :: 0 <= i < |rows| ==> !RefersTo(es, rows[i], o)) ==> after == before)
  }

  lemma {:induction false} FirstReferring(es: Entities, rows: seq<Id>, o: Id)
    ensures forall i :: 0 <= i < |rows| && RefersTo(es, rows[i], o) && (forall j :: 0 <= j < i ==> !RefersTo(es, rows[j], o)) ==>
              Referring(es, rows, o) == rows[i]
    ensures (forall i :: 0 <= i < |rows| ==> !RefersTo(es, rows[i], o)) ==> Referring(es, rows, o) == NONE
  {
    if rows != [] && !RefersTo(es, rows[0], o) {
      FirstReferring(es, rows[1..], o);
      forall i | 0 <= i < |rows| && RefersTo(es, rows[i], o) && (forall j :: 0 <= j < i ==> !RefersTo(es, rows[j], o))
        ensures Referring(es, rows, o) == rows[i]
      {
        assert rows[1..][i - 1] == rows[i];
        assert forall j :: 0 <= j < i - 1 ==> rows[1..][j] == rows[j + 1];
      }
    }
  }

  lemma FixOperatorLinks(l: Links, rows: seq<Id>, o: Id)
    requires o in l.operators
    ensures LinkedBothWays(l, FixOperator(l, rows, o), rows, o)
    ensures (forall e :: e in l.entities ==> e in rows) ==> Settled(FixOperator(l, rows, o), o)
  {
    FirstReferring(l.entities, rows, o);
    var op, after := l.operators[o], FixOperator(l, rows, o);
    if !op.defaultOperator {
      assert RightEntity(l.entities, rows, o, op.entityId, after.operators[o].entityId);
    }
  }

  /** All operators, one after the other. */
  function FixOperators(l: Links, rows: seq<Id>, order: seq<Id>): (r: Links)
    ensures r.entities.Keys == l.entities.Keys && r.operators.Keys == l.operators.Keys
    decreases |order|
  {
    if order == [] then l else FixOperators(FixOperator(l, rows, order[0]), rows, order[1..])
  }

  // ---------------------------------------------------------------- the check

  function WithVenues(db: Db): Db { db.(venues := VenuesFixed(db.venues, RowsOf(db))) }

  function WithEntities(db: Db): Db { db.(entities := EntitiesFixed(db.entities, RowsOf(db))) }

  function WithInventory(db: Db): Db { db.(inventory := TagsFixed(db.inventory, RowsOf(db))) }

  function WithConfigurations(db: Db): Db { db.(configurations := ConfigurationsFixed(db.configurations)) }

  function WithOperators(db: Db, rows: seq<Id>, order: seq<Id>): Db {
    var l := FixOperators(Links(db.entities, db.operators), rows, order);
    db.(entities := l.entities, operators := l.operators)
  }

  function WithSubscribers(db: Db): Db { db.(subDevices := DevicesFixed(db.subDevices)) }

  /** The six passes; `rows` and `order` are the row orders of the entity and operator tables. */
  function Checked(db: Db, rows: seq<Id>, order: seq<Id>): Db {
    WithSubscribers(WithOperators(WithConfigurations(WithInventory(WithEntities(WithVenues(db)))), rows, order))
  }

  // ---------------------------------------------------------------- operators: what one pass leaves

  /** A pass leaves the operators outside its order alone. */
  lemma {:induction false} OthersKept(l: Links, rows: seq<Id>, order: seq<Id>, o: Id)
    requires o !in order
    ensures var r := FixOperators(l, rows, order);
      o in l.operators ==> r.operators[o] == l.operators[o]
    decreases |order|
  {
    if order != [] {
      OthersKept(FixOperator(l, rows, order[0]), rows, order[1..], o);
    }
  }

  /** The operator refers to the entity and is not a default one. */
  predicate Claims(ops: Operators, o: Id, e: Id) {
    o in ops && !ops[o].defaultOperator && ops[o].entityId == e
  }

  /** The last in the order that claims an entity. */
  function LastClaimant(ops: Operators, order: seq<Id>, e: Id): Option<Id> {
    if order == [] then None
    else if LastClaimant(ops, order[1..], e).Some? then LastClaimant(ops, order[1..], e)
    else if Claims(ops, order[0], e) then Some(order[0])
    else None
  }

  /** Only operators that end up claiming an entity change what it refers to. */
  lemma {:induction false} UnclaimedKept(l: Links, rows: seq<Id>, order: seq<Id>, e: Id)
    requires forall i, j :: 0 <= i < j < |order| ==> order[i] != order[j]
    requires e in l.entities && LastClaimant(FixOperators(l, rows, order).operators, order, e).None?
    ensures FixOperators(l, rows, order).entities[e] == l.entities[e]
    decreases |order|
  {
    if order != [] {
      var next := FixOperator(l, rows, order[0]);
      OthersKept(next, rows, order[1..], order[0]);
      UnclaimedKept(next, rows, order[1..], e);
    }
  }

  /** After a pass an entity other than the root refers to the last operator that claims it. */
  lemma {:induction false} LastClaimantWins(l: Links, rows: seq<Id>, order: seq<Id>, e: Id)
    requires forall i, j :: 0 <= i < j < |order| ==> order[i] != order[j]
    requires e in l.entities && e != ROOT && e != NONE
    ensures var r := FixOperators(l, rows, order);
      var last := LastClaimant(r.operators, order, e);
      last.Some? ==> r.entities[e].operatorId == last.value
    decreases |order|
  {
    if order != [] {
      var next, r := FixOperator(l, rows, order[0]), FixOperators(l, rows, order);
      OthersKept(next, rows, order[1..], order[0]);
      LastClaimantWins(next, rows, order[1..], e);
      if LastClaimant(r.operators, order[1..], e).None? {
        UnclaimedKept(next, rows, order[1..], e);
      }
    }
  }

  ghost predicate Unreferred(es: Entities, o: Id) { forall e :: e in es && e != NONE ==> es[e].operatorId != o }

  /** An operator that no entity refers to gains no reference from the others. */
  lemma {:induction false} StaysUnreferred(l: Links, rows: seq<Id>, order: seq<Id>, o: Id)
    requires Unreferred(l.entities, o) && o !in order
    ensures Unreferred(FixOperators(l, rows, order).entities, o)
    decreases |order|
  {
    if order != [] {
      StaysUnreferred(FixOperator(l, rows, order[0]), rows, order[1..], o);
    }
  }

  /** An operator the pass is done with: default on the root; otherwise linked, or nothing refers to it. */
  ghost predicate Settled(l: Links, o: Id) {
    o in l.operators ==>
      var op := l.operators[o];
      && op.rrm != "yes"
      && (op.defaultOperator ==> op.entityId == ROOT)
      && (!op.defaultOperator ==> (op.entityId != NONE && op.entityId in l.entities) || Unreferred(l.entities, o))
  }

  lemma {:induction false} PassSettles(l: Links, rows: seq<Id>, order: seq<Id>, o: Id)
    requires forall i, j :: 0 <= i < j < |order| ==> order[i] != order[j]
    requires o in order && forall e :: e in l.entities ==> e in rows
    ensures Settled(FixOperators(l, rows, order), o)
    decreases |order|
  {
    var next := FixOperator(l, rows, order[0]);
    if o == order[0] {
      OthersKept(next, rows, order[1..], o);
      if o in l.operators && !l.operators[o].defaultOperator && Linked(l.entities, rows, o, l.operators[o]) == NONE {
        StaysUnreferred(next, rows, order[1..], o);
      }
    } else {
      PassSettles(next, rows, order[1..], o);
    }
  }

  /** An entity once a claimant, if any, has set its reference. */
  function Relinked(es: Entities, e: Id, claimant: Option<Id>): Entity
    requires e in es
  {
    if claimant.Some? && e != ROOT && e != NONE then es[e].(operatorId := claimant.value) else es[e]
  }

  /** A pass over settled operators changes no operator and lets the last claimant of each entity win again. */
  lemma {:induction false} SettledPass(l: Links, rows: seq<Id>, order: seq<Id>)
    requires forall i, j :: 0 <= i < j < |order| ==> order[i] != order[j]
    requires forall o :: o in order ==> Settled(l, o)
    ensures FixOperators(l, rows, order).operators == l.operators
    ensures forall e :: e in l.entities ==>
              FixOperators(l, rows, order).entities[e] == Relinked(l.entities, e, LastClaimant(l.operators, order, e))
    decreases |order|
  {
    if order != [] {
      var next := FixOperator(l, rows, order[0]);
      SettledStep(l, rows, order[0]);
      forall o | o in order[1..] ensures Settled(next, o) {
        StillSettled(l, rows, order[0], o);
      }
      SettledPass(next, rows, order[1..]);
    }
  }

  lemma SettledStep(l: Links, rows: seq<Id>, o: Id)
    requires Settled(l, o)
    ensures FixOperator(l, rows, o).operators == l.operators
    ensures forall e :: e in l.entities ==>
              FixOperator(l, rows, o).entities[e] == Relinked(l.entities, e, if Claims(l.operators, o, e) then Some(o) else None)
  {
  }

  lemma StillSettled(l: Links, rows: seq<Id>, o: Id, other: Id)
    requires Settled(l, o) && Settled(l, other) && o != other
    ensures Settled(FixOperator(l, rows, o), other)
  {
    SettledStep(l, rows, o);
  }

  /** Each entity refers to the last operator of the order that claims it. */
  ghost predicate LastHeld(l: Links, order: seq<Id>) {
    forall e :: e in l.entities && e != ROOT && e != NONE ==>
      var last := LastClaimant(l.operators, order, e);
      last.Some? ==> l.entities[e].operatorId == last.value
  }

  /** A pass over settled operators, in whatever order, changes nothing if and only if each entity already refers to the last
      operator of that order that claims it. */
  lemma SettledPassExactly(l: Links, rows: seq<Id>, order: seq<Id>)
    requires forall i, j :: 0 <= i < j < |order| ==> order[i] != order[j]
    requires forall o :: o in order ==> Settled(l, o)
    ensures FixOperators(l, rows, order) == l <==> LastHeld(l, order)
  {
    SettledPass(l, rows, order);
    var r := FixOperators(l, rows, order);
    if LastHeld(l, order) {
      assert r.entities == l.entities;
    } else {
      var e :| e in l.entities && e != ROOT && e != NONE && LastClaimant(l.operators, order, e).Some?
        && l.entities[e].operatorId != LastClaimant(l.operators, order, e).value;
      assert r.entities[e].operatorId != l.entities[e].operatorId;
    }
  }

  /** The last claimants are the same in two orders. */
  ghost predicate SameLast(es: Entities, ops: Operators, order: seq<Id>, order': seq<Id>) {
    forall e :: e in es && e != ROOT && e != NONE ==> LastClaimant(ops, order, e) == LastClaimant(ops, order', e)
  }

  lemma {:induction false} LastClaimantExists(ops: Operators, order: seq<Id>, e: Id)
    ensures LastClaimant(ops, order, e).Some? <==> exists o :: o in order && Claims(ops, o, e)
    ensures LastClaimant(ops, order, e).Some? ==> LastClaimant(ops, order, e).value in order && Claims(ops, LastClaimant(ops, order, e).value, e)
  {
    if order != [] {
      LastClaimantExists(ops, order[1..], e);
      assert forall o :: o in order <==> o == order[0] || o in order[1..];
    }
  }

  /** A second pass in another order ends in the same state if and only if each entity has the same last claimant in both
      orders; how the operators look up an entity by row does not matter any more. */
  lemma SecondPass(l: Links, rows: seq<Id>, order: seq<Id>, rows': seq<Id>, order': seq<Id>)
    requires Enumerates(order, l.operators.Keys) && Enumerates(order', l.operators.Keys) && forall e :: e in l.entities ==> e in rows
    ensures var r := FixOperators(l, rows, order);
      FixOperators(r, rows', order') == r <==> SameLast(r.entities, r.operators, order, order')
  {
    var r := FixOperators(l, rows, order);
    forall o | o in order' ensures Settled(r, o) {
      PassSettles(l, rows, order, o);
    }
    SettledPassExactly(r, rows', order');
    forall e | e in r.entities && e != ROOT && e != NONE
      ensures LastClaimant(r.operators, order', e) == LastClaimant(r.operators, order, e) <==>
                (LastClaimant(r.operators, order', e).Some? ==> r.entities[e].operatorId == LastClaimant(r.operators, order', e).value)
    {
      LastClaimantWins(l, rows, order, e);
      SameClaimants(r.operators, order, order', e);
    }
  }

  lemma SameClaimants(ops: Operators, order: seq<Id>, order': seq<Id>, e: Id)
    requires forall o :: o in order <==> o in order'
    ensures LastClaimant(ops, order, e).Some? <==> LastClaimant(ops, order', e).Some?
  {
    LastClaimantExists(ops, order, e);
    LastClaimantExists(ops, order', e);
  }

  /** Where no entity has two claimants the order does not matter. */
  lemma SingleClaimants(es: Entities, ops: Operators, order: seq<Id>, order': seq<Id>)
    requires forall o :: o in order <==> o in order'
    requires forall o, p, e :: e in es && e != ROOT && Claims(ops, o, e) && Claims(ops, p, e) ==> o == p
    ensures SameLast(es, ops, order, order')
  {
    forall e | e in es && e != ROOT ensures LastClaimant(ops, order, e) == LastClaimant(ops, order', e) {
      LastClaimantExists(ops, order, e);
      LastClaimantExists(ops, order', e);
    }
  }

  lemma LastOfTwo(ops: Operators, o: Id, p: Id, e: Id)
    ensures LastClaimant(ops, [o, p], e) == if Claims(ops, p, e) then Some(p) else if Claims(ops, o, e) then Some(o) else None
  {
    assert [o, p][1..] == [p] && [p][1..] == [];
    assert LastClaimant(ops, [], e) == None;
    assert LastClaimant(ops, [p], e) == if Claims(ops, p, e) then Some(p) else None;
  }

  /** Two operators that claim one entity take it from each other when the rows come in another order. */
  lemma TwoClaimantsAlternate()
    ensures var entity := Entity(ROOT, [], [], [], [], [], [], [], NONE, "");
      var op := Operator("acme", "e", false, "");
      var l := Links(map["e" := entity], map["a" := op, "b" := op]);
      var once := FixOperators(l, ["e"], ["a", "b"]);
      && once.entities["e"].operatorId == "b"
      && FixOperators(once, ["e"], ["a", "b"]) == once
      && FixOperators(once, ["e"], ["b", "a"]) != once
  {
    var entity := Entity(ROOT, [], [], [], [], [], [], [], NONE, "");
    var op := Operator("acme", "e", false, "");
    var l := Links(map["e" := entity], map["a" := op, "b" := op]);
    var once := FixOperators(l, ["e"], ["a", "b"]);
    assert ["a", "b"][1..] == ["b"] && ["b", "a"][1..] == ["a"] && ["a"][1..] == [] && ["b"][1..] == [];
    assert FixOperator(l, ["e"], "a") == Links(map["e" := entity.(operatorId := "a")], l.operators);
    assert once == FixOperators(FixOperator(FixOperator(l, ["e"], "a"), ["e"], "b"), ["e"], []);
    assert once == Links(map["e" := entity.(operatorId := "b")], l.operators);
    LastOfTwo(l.operators, "a", "b", "e");
    LastOfTwo(l.operators, "b", "a", "e");
    SettledPassExactly(once, ["e"], ["a", "b"]);
    SettledPassExactly(once, ["e"], ["b", "a"]);
  }

  // ---------------------------------------------------------------- operators that stay without an entity

  /** An operator before `o` in the order refers to the entity and takes it. */
  ghost predicate TakenBefore(l: Links, order: seq<Id>, o: Id, e: Id) {
    exists i, j :: 0 <= i < j < |order| && order[j] == o && e != ROOT && Claims(l.operators, order[i], e)
  }

  /** Some entity refers to the operator and is not taken by an earlier one. */
  ghost predicate Findable(l: Links, order: seq<Id>, o: Id) {
    exists e :: e in l.entities && e != NONE && l.entities[e].operatorId == o && !TakenBefore(l, order, o, e)
  }

  /** Whether the operator has an entity that exists. */
  ghost predicate HasEntity(l: Links, o: Id)
    requires o in l.operators
  {
    l.operators[o].entityId != NONE && l.operators[o].entityId in l.entities
  }

  /** A non-default operator ends with an existing entity exactly when it had one or an entity that nobody takes
      first refers to it. Otherwise the pass leaves its reference as it was, dangling or empty. */
  lemma {:induction false} EndsWithEntity(l: Links, rows: seq<Id>, order: seq<Id>, o: Id)
    requires forall i, j :: 0 <= i < j < |order| ==> order[i] != order[j]
    requires o in order && o in l.operators && !l.operators[o].defaultOperator && forall e :: e in l.entities ==> e in rows
    ensures HasEntity(FixOperators(l, rows, order), o) <==> HasEntity(l, o) || Findable(l, order, o)
    ensures !HasEntity(FixOperators(l, rows, order), o) ==>
              FixOperators(l, rows, order).operators[o].entityId == l.operators[o].entityId
    decreases |order|
  {
    var next, rest := FixOperator(l, rows, order[0]), order[1..];
    if o == order[0] {
      OthersKept(next, rows, rest, o);
      FirstIsNotTaken(l, order);
    } else {
      EndsWithEntity(next, rows, rest, o);
      FindableStep(l, rows, order, o);
    }
  }

  /** An operator whose entity is gone keeps the dangling reference when no entity refers back to it. */
  lemma DanglingReferenceStays()
    ensures var root := Entity(NONE, [], [], [], [], [], [], [], NONE, "");
      var l := Links(map[ROOT := root], map["op" := Operator("acme", "gone", false, "")]);
      FixOperators(l, [ROOT], ["op"]) == l
  {
    var root := Entity(NONE, [], [], [], [], [], [], [], NONE, "");
    var l := Links(map[ROOT := root], map["op" := Operator("acme", "gone", false, "")]);
    assert Referring(l.entities, [ROOT], "op") == NONE;
    assert FixOperator(l, [ROOT], "op") == l;
    assert ["op"][1..] == [];
    assert FixOperators(l, [ROOT], ["op"]) == FixOperators(l, [ROOT], []);
  }

  lemma FirstIsNotTaken(l: Links, order: seq<Id>)
    requires order != [] && forall i, j :: 0 <= i < j < |order| ==> order[i] != order[j]
    ensures forall e :: !TakenBefore(l, order, order[0], e)
  {
  }

  /** Fixing one operator takes an entity it claims from the others, and changes nothing else for them. */
  lemma FindableStep(l: Links, rows: seq<Id>, order: seq<Id>, o: Id)
    requires order != [] && o in order[1..] && forall i, j :: 0 <= i < j < |order| ==> order[i] != order[j]
    ensures Findable(FixOperator(l, rows, order[0]), order[1..], o) <==> Findable(l, order, o)
  {
    var first, next, rest := order[0], FixOperator(l, rows, order[0]), order[1..];
    forall e | e in l.entities && e != NONE
      ensures next.entities[e].operatorId == o && !TakenBefore(next, rest, o, e)
              <==> l.entities[e].operatorId == o && !TakenBefore(l, order, o, e)
    {
      TakenStep(l, rows, order, o, e);
    }
  }

  lemma TakenStep(l: Links, rows: seq<Id>, order: seq<Id>, o: Id, e: Id)
    requires order != [] && o in order[1..] && forall i, j :: 0 <= i < j < |order| ==> order[i] != order[j]
    ensures TakenBefore(l, order, o, e) <==>
              TakenBefore(FixOperator(l, rows, order[0]), order[1..], o, e) || (e != ROOT && Claims(l.operators, order[0], e))
  {
    var next, rest := FixOperator(l, rows, order[0]), order[1..];
    var j :| 0 <= j < |rest| && rest[j] == o;
    assert order[j + 1] == o;
    assert forall i :: 0 <= i < |rest| ==> Claims(next.operators, rest[i], e) == Claims(l.operators, order[i + 1], e);
    if TakenBefore(l, order, o, e) {
      var i, k :| 0 <= i < k < |order| && order[k] == o && e != ROOT && Claims(l.operators, order[i], e);
      if i > 0 {
        assert Claims(next.operators, rest[i - 1], e);
      }
    }
    if TakenBefore(next, rest, o, e) {
      var i, k :| 0 <= i < k < |rest| && rest[k] == o && e != ROOT && Claims(next.operators, rest[i], e);
      assert order[k + 1] == o && Claims(l.operators, order[i + 1], e);
    }
  }

  // ---------------------------------------------------------------- the whole check

  lemma VenuesFixedTwice(vs: map<Id, Venue>, rows: Rows)
    ensures VenuesFixed(vs, rows).Keys == vs.Keys && VenuesFixed(VenuesFixed(vs, rows), rows) == VenuesFixed(vs, rows)
  {
    forall v | v in vs ensures VenueFixed(VenueFixed(vs[v], rows), rows) == VenueFixed(vs[v], rows) {
      KnownTwice(vs[v].devices, rows.inventory);
    }
  }

  lemma EntityFixedTwice(e: Entity, rows: Rows)
    ensures EntityFixed(EntityFixed(e, rows), rows) == EntityFixed(e, rows)
  {
    KnownTwice(e.devices, rows.inventory);
    KnownTwice(e.contacts, rows.contacts);
    KnownTwice(e.locations, rows.locations);
    KnownTwice(e.venues, rows.venues);
    KnownTwice(e.variables, rows.variables);
  }

  lemma EntitiesFixedTwice(es: map<Id, Entity>, rows: Rows)
    ensures EntitiesFixed(es, rows).Keys == es.Keys && EntitiesFixed(EntitiesFixed(es, rows), rows) == EntitiesFixed(es, rows)
  {
    forall e | e in es ensures EntityFixed(EntityFixed(es[e], rows), rows) == EntityFixed(es[e], rows) {
      EntityFixedTwice(es[e], rows);
    }
  }

  lemma TagsFixedTwice(ts: map<Id, InventoryTag>, rows: Rows)
    ensures TagsFixed(ts, rows).Keys == ts.Keys && TagsFixed(TagsFixed(ts, rows), rows) == TagsFixed(ts, rows)
  {
  }

  lemma RulesFixedTwice(cs: map<Id, Configuration>, ds: map<Id, SubscriberDevice>)
    ensures ConfigurationsFixed(ConfigurationsFixed(cs)) == ConfigurationsFixed(cs)
    ensures DevicesFixed(DevicesFixed(ds)) == DevicesFixed(ds)
  {
  }

  /** Repairing an operator changes no list of an entity. */
  lemma {:induction false} ListsKept(l: Links, rows: seq<Id>, order: seq<Id>, e: Id)
    requires e in l.entities
    ensures var r := FixOperators(l, rows, order).entities[e]; r == l.entities[e].(operatorId := r.operatorId)
    decreases |order|
  {
    if order != [] {
      ListsKept(FixOperator(l, rows, order[0]), rows, order[1..], e);
    }
  }

  ghost predicate IsFixed(e: Entity, rows: Rows) { EntityFixed(e, rows) == e }

  lemma FixedPointwise(es: map<Id, Entity>, rows: Rows)
    ensures EntitiesFixed(es, rows) == es <==> forall e :: e in es ==> IsFixed(es[e], rows)
  {
    if EntitiesFixed(es, rows) == es {
      forall e | e in es ensures IsFixed(es[e], rows) {
        assert EntitiesFixed(es, rows)[e] == es[e];
      }
    }
  }

  lemma OnlyReference(e: Entity, after: Entity, rows: Rows)
    requires IsFixed(e, rows) && after == e.(operatorId := after.operatorId)
    ensures IsFixed(after, rows)
  {
  }

  /** Entities stay repaired when their operators are linked. */
  lemma LinkedStayFixed(l: Links, rows: Rows, rowOrder: seq<Id>, order: seq<Id>)
    requires EntitiesFixed(l.entities, rows) == l.entities
    ensures var es := FixOperators(l, rowOrder, order).entities; EntitiesFixed(es, rows) == es
  {
    var es := FixOperators(l, rowOrder, order).entities;
    FixedPointwise(l.entities, rows);
    AllStayFixed(l, rows, rowOrder, order);
    FixedPointwise(es, rows);
  }

  lemma AllStayFixed(l: Links, rows: Rows, rowOrder: seq<Id>, order: seq<Id>)
    requires forall e :: e in l.entities ==> IsFixed(l.entities[e], rows)
    ensures var es := FixOperators(l, rowOrder, order).entities; forall e :: e in es ==> IsFixed(es[e], rows)
  {
    var es := FixOperators(l, rowOrder, order).entities;
    forall e | e in es ensures IsFixed(es[e], rows) {
      ListsKept(l, rowOrder, order, e);
      OnlyReference(l.entities[e], es[e], rows);
    }
  }

  /** What the check leaves behind: every table as its pass would leave it, every operator settled. */
  ghost predicate Consistent(db: Db) {
    && VenuesFixed(db.venues, RowsOf(db)) == db.venues && EntitiesFixed(db.entities, RowsOf(db)) == db.entities
    && TagsFixed(db.inventory, RowsOf(db)) == db.inventory && ConfigurationsFixed(db.configurations) == db.configurations
    && DevicesFixed(db.subDevices) == db.subDevices
    && forall o :: o in db.operators ==> Settled(Links(db.entities, db.operators), o)
  }

  /** The tables after the check, each as a function of the tables before it. */
  lemma CheckedTables(db: Db, rows: seq<Id>, order: seq<Id>)
    ensures var after, r := Checked(db, rows, order), RowsOf(db);
      var l := FixOperators(Links(EntitiesFixed(db.entities, r), db.operators), rows, order);
      && after == db.(venues := VenuesFixed(db.venues, r), entities := l.entities, operators := l.operators,
                      inventory := TagsFixed(db.inventory, r), configurations := ConfigurationsFixed(db.configurations),
                      subDevices := DevicesFixed(db.subDevices))
      && RowsOf(after) == r
  {
    var r := RowsOf(db);
    VenuesFixedTwice(db.venues, r);
    EntitiesFixedTwice(db.entities, r);
    TagsFixedTwice(db.inventory, r);
    var a := WithVenues(db);
    assert RowsOf(a) == r;
    var b := WithEntities(a);
    assert RowsOf(b) == r;
    var c := WithInventory(b);
    assert RowsOf(c) == r;
  }

  lemma CheckedIsConsistent(db: Db, rows: seq<Id>, order: seq<Id>)
    requires Enumerates(rows, db.entities.Keys) && Enumerates(order, db.operators.Keys)
    ensures Consistent(Checked(db, rows, order)) && RowsOf(Checked(db, rows, order)) == RowsOf(db)
  {
    var r := RowsOf(db);
    var l := Links(EntitiesFixed(db.entities, r), db.operators);
    CheckedTables(db, rows, order);
    VenuesFixedTwice(db.venues, r);
    EntitiesFixedTwice(db.entities, r);
    LinkedStayFixed(l, r, rows, order);
    TagsFixedTwice(db.inventory, r);
    RulesFixedTwice(db.configurations, db.subDevices);
    forall o | o in l.operators ensures Settled(FixOperators(l, rows, order), o) {
      PassSettles(l, rows, order, o);
    }
  }

  /** The check changes nothing on tables it has repaired if and only if each entity refers to the last operator, in the order of
      this run, that claims it. */
  lemma RecheckExactly(db: Db, rows: seq<Id>, order: seq<Id>)
    requires Consistent(db) && Enumerates(order, db.operators.Keys)
    ensures Checked(db, rows, order) == db <==> LastHeld(Links(db.entities, db.operators), order)
  {
    CheckedTables(db, rows, order);
    SettledPassExactly(Links(db.entities, db.operators), rows, order);
  }

  /** A second check, which may visit the rows in other orders, ends in the same state if and only if each entity has the same
      last claimant in both orders of operators. */
  lemma CheckedTwice(db: Db, rows: seq<Id>, order: seq<Id>, rows': seq<Id>, order': seq<Id>)
    requires Enumerates(rows, db.entities.Keys)
    requires Enumerates(order, db.operators.Keys) && Enumerates(order', db.operators.Keys)
    ensures var once := Checked(db, rows, order);
      Checked(once, rows', order') == once <==> SameLast(once.entities, once.operators, order, order')
  {
    var once, r := Checked(db, rows, order), RowsOf(db);
    var l := Links(EntitiesFixed(db.entities, r), db.operators);
    CheckedIsConsistent(db, rows, order);
    CheckedTables(db, rows, order);
    CheckedTables(once, rows', order');
    EntitiesFixedTwice(db.entities, r);
    SecondPass(l, rows, order, rows', order');
  }

  /** In particular no list or field of a venue, an entity or an inventory record dangles, no rule says "yes" and
      every default operator is on the root. */
  lemma NothingDangles(db: Db)
    requires Consistent(db)
    ensures forall v :: v in db.venues ==> (forall i :: i in db.venues[v].devices ==> i in db.inventory) && db.venues[v].rrm != "yes"
    ensures forall e :: e in db.entities ==>
              && (forall i :: i in db.entities[e].devices ==> i in db.inventory)
              && (forall i :: i in db.entities[e].venues ==> i in db.venues)
              && (forall i :: i in db.entities[e].contacts ==> i in db.contacts)
              && (forall i :: i in db.entities[e].locations ==> i in db.locations)
              && (forall i :: i in db.entities[e].variables ==> i in db.variables)
              && db.entities[e].rrm != "yes"
    ensures forall t :: t in db.inventory ==>
              var tag := db.inventory[t];
              && (tag.venue == NONE || tag.venue in db.venues) && (tag.entity == NONE || tag.entity in db.entities)
              && (tag.location == NONE || tag.location in db.locations) && (tag.contact == NONE || tag.contact in db.contacts)
              && tag.rrm != "yes"
    ensures forall c :: c in db.configurations ==> db.configurations[c].rrm != "yes"
    ensures forall d :: d in db.subDevices ==> db.subDevices[d].rrm != "yes"
    ensures forall o :: o in db.operators ==> db.operators[o].rrm != "yes" && (db.operators[o].defaultOperator ==> db.operators[o].entityId == ROOT)
  {
    forall v | v in db.venues ensures (forall i :: i in db.venues[v].devices ==> i in db.inventory) && db.venues[v].rrm != "yes" {
      assert VenuesFixed(db.venues, RowsOf(db))[v] == db.venues[v];
      KnownIsWhole(db.venues[v].devices, db.inventory.Keys);
    }
    forall e | e in db.entities
      ensures (forall i :: i in db.entities[e].devices ==> i in db.inventory) && (forall i :: i in db.entities[e].venues ==> i in db.venues)
              && (forall i :: i in db.entities[e].contacts ==> i in db.contacts) && (forall i :: i in db.entities[e].locations ==> i in db.locations)
              && (forall i :: i in db.entities[e].variables ==> i in db.variables) && db.entities[e].rrm != "yes"
    {
      assert EntitiesFixed(db.entities, RowsOf(db))[e] == db.entities[e];
      EntityListsKnown(db.entities[e], RowsOf(db));
    }
    forall t | t in db.inventory ensures TagFixed(db.inventory[t], RowsOf(db)) == db.inventory[t] {
      assert TagsFixed(db.inventory, RowsOf(db))[t] == db.inventory[t];
    }
    forall c | c in db.configurations ensures db.configurations[c].rrm != "yes" {
      assert ConfigurationsFixed(db.configurations)[c] == db.configurations[c];
    }
    forall d | d in db.subDevices ensures db.subDevices[d].rrm != "yes" {
      assert DevicesFixed(db.subDevices)[d] == db.subDevices[d];
    }
  }

  // ---------------------------------------------------------------- what the check keeps

  /** A reference to a row stays, any other is cleared. */
  ghost predicate FieldKept(before: Id, table: set<Id>, after: Id) {
    after == if before in table then before else NONE
  }

  ghost predicate VenueKept(before: Venue, after: Venue, db: Db) {
    && after == before.(devices := after.devices, rrm := after.rrm)
    && KeepsKnown(before.devices, db.inventory.Keys, after.devices) && RrmKept(before.rrm, after.rrm)
  }

  ghost predicate EntityKept(before: Entity, after: Entity, db: Db) {
    && after == before.(devices := after.devices, contacts := after.contacts, locations := after.locations, venues := after.venues,
                        variables := after.variables, operatorId := after.operatorId, rrm := after.rrm)
    && KeepsKnown(before.devices, db.inventory.Keys, after.devices) && KeepsKnown(before.venues, db.venues.Keys, after.venues)
    && KeepsKnown(before.contacts, db.contacts, after.contacts) && KeepsKnown(before.locations, db.locations, after.locations)
    && KeepsKnown(before.variables, db.variables, after.variables) && RrmKept(before.rrm, after.rrm)
  }

  ghost predicate TagKept(before: InventoryTag, after: InventoryTag, db: Db) {
    && after == before.(venue := after.venue, entity := after.entity, location := after.location, contact := after.contact, rrm := after.rrm)
    && FieldKept(before.venue, db.venues.Keys, after.venue) && FieldKept(before.entity, db.entities.Keys, after.entity)
    && FieldKept(before.location, db.locations, after.location) && FieldKept(before.contact, db.contacts, after.contact)
    && RrmKept(before.rrm, after.rrm)
  }

  ghost predicate OperatorKept(before: Operator, after: Operator, db: Db) {
    && after == before.(entityId := after.entityId, rrm := after.rrm) && RrmKept(before.rrm, after.rrm)
    && (before.defaultOperator ==> after.entityId == ROOT)
    && (!before.defaultOperator && before.entityId != NONE && before.entityId in db.entities ==> after.entityId == before.entityId)
    && (!before.defaultOperator && after.entityId != before.entityId ==> after.entityId in db.entities)
  }

  /** The check keeps every row and, in it, everything that refers to an existing row. */
  ghost predicate KeptBy(db: Db, after: Db) {
    && VenuesKept(db, after.venues) && EntitiesKept(db, after.entities) && TagsKept(db, after.inventory) && OperatorsKept(db, after.operators)
    && RulesKept(db, after.configurations, after.subDevices)
    && after.signups == db.signups && after.locations == db.locations && after.contacts == db.contacts && after.variables == db.variables
  }

  ghost predicate VenuesKept(db: Db, after: map<Id, Venue>) {
    after.Keys == db.venues.Keys && forall v :: v in db.venues ==> VenueKept(db.venues[v], after[v], db)
  }

  ghost predicate EntitiesKept(db: Db, after: Entities) {
    after.Keys == db.entities.Keys && forall e :: e in db.entities ==> EntityKept(db.entities[e], after[e], db)
  }

  ghost predicate TagsKept(db: Db, after: map<Id, InventoryTag>) {
    after.Keys == db.inventory.Keys && forall t :: t in db.inventory ==> TagKept(db.inventory[t], after[t], db)
  }

  ghost predicate OperatorsKept(db: Db, after: Operators) {
    after.Keys == db.operators.Keys && forall o :: o in db.operators ==> OperatorKept(db.operators[o], after[o], db)
  }

  ghost predicate RulesKept(db: Db, configurations: map<Id, Configuration>, devices: map<Id, SubscriberDevice>) {
    && configurations.Keys == db.configurations.Keys && devices.Keys == db.subDevices.Keys
    && (forall c :: c in db.configurations ==>
          && configurations[c] == db.configurations[c].(rrm := configurations[c].rrm)
          && RrmKept(db.configurations[c].rrm, configurations[c].rrm))
    && (forall d :: d in db.subDevices ==>
          && devices[d] == db.subDevices[d].(rrm := devices[d].rrm)
          && RrmKept(db.subDevices[d].rrm, devices[d].rrm))
  }

  lemma EntityFixedKeeps(e: Entity, linked: Entity, db: Db)
    requires linked == EntityFixed(e, RowsOf(db)).(operatorId := linked.operatorId)
    ensures EntityKept(e, linked, db)
  {
    KnownKeeps(e.devices, db.inventory.Keys);
    KnownKeeps(e.venues, db.venues.Keys);
    KnownKeeps(e.contacts, db.contacts);
    KnownKeeps(e.locations, db.locations);
    KnownKeeps(e.variables, db.variables);
  }

  /** A pass over the operators, each visited once. */
  lemma {:induction false} OperatorPassKeeps(l: Links, rows: seq<Id>, order: seq<Id>, o: Id, db: Db)
    requires forall i, j :: 0 <= i < j < |order| ==> order[i] != order[j]
    requires o in order && o in l.operators && l.entities.Keys == db.entities.Keys
    ensures OperatorKept(l.operators[o], FixOperators(l, rows, order).operators[o], db)
    decreases |order|
  {
    var next := FixOperator(l, rows, order[0]);
    if o == order[0] {
      OthersKept(next, rows, order[1..], o);
    } else {
      OperatorPassKeeps(next, rows, order[1..], o, db);
    }
  }

  lemma VenuePassKeeps(db: Db)
    ensures VenuesKept(db, VenuesFixed(db.venues, RowsOf(db)))
  {
    var after := VenuesFixed(db.venues, RowsOf(db));
    forall v | v in db.venues ensures VenueKept(db.venues[v], after[v], db) {
      KnownKeeps(db.venues[v].devices, db.inventory.Keys);
    }
  }

  lemma EntityPassesKeep(db: Db, rows: seq<Id>, order: seq<Id>)
    ensures EntitiesKept(db, FixOperators(Links(EntitiesFixed(db.entities, RowsOf(db)), db.operators), rows, order).entities)
  {
    var l := Links(EntitiesFixed(db.entities, RowsOf(db)), db.operators);
    var after := FixOperators(l, rows, order).entities;
    forall e | e in db.entities ensures EntityKept(db.entities[e], after[e], db) {
      ListsKept(l, rows, order, e);
      EntityFixedKeeps(db.entities[e], after[e], db);
    }
  }

  lemma OperatorPassesKeep(db: Db, rows: seq<Id>, order: seq<Id>)
    requires Enumerates(order, db.operators.Keys)
    ensures OperatorsKept(db, FixOperators(Links(EntitiesFixed(db.entities, RowsOf(db)), db.operators), rows, order).operators)
  {
    var l := Links(EntitiesFixed(db.entities, RowsOf(db)), db.operators);
    var after := FixOperators(l, rows, order).operators;
    forall o | o in db.operators ensures OperatorKept(db.operators[o], after[o], db) {
      OperatorPassKeeps(l, rows, order, o, db);
    }
  }

  lemma TagPassKeeps(db: Db)
    ensures TagsKept(db, TagsFixed(db.inventory, RowsOf(db)))
    ensures RulesKept(db, ConfigurationsFixed(db.configurations), DevicesFixed(db.subDevices))
  {
  }

  /** No row is lost; lists keep exactly their known ids, fields every id that has a row, and operators an existing entity. */
  lemma CheckKeeps(db: Db, rows: seq<Id>, order: seq<Id>)
    requires Enumerates(order, db.operators.Keys)
    ensures KeptBy(db, Checked(db, rows, order))
  {
    CheckedTables(db, rows, order);
    VenuePassKeeps(db);
    EntityPassesKeep(db, rows, order);
    TagPassKeeps(db);
    OperatorPassesKeep(db, rows, order);
  }

  lemma {:induction false} KeptMembers(ids: seq<Id>, table: set<Id>, kept: seq<Id>)
    requires KeepsKnown(ids, table, kept)
    ensures forall i :: i in kept <==> i in ids && i in table
  {
    if ids != [] {
      var front, last := ids[..|ids| - 1], ids[|ids| - 1];
      assert ids == front + [last];
      if last in table {
        KeptMembers(front, table, kept[..|kept| - 1]);
        assert kept == kept[..|kept| - 1] + [last];
      } else {
        KeptMembers(front, table, kept);
      }
    }
  }

  /** The places that list a record are the same before and after. */
  lemma ListedStays(db: Db, after: Db)
    requires KeptBy(db, after)
    ensures forall v, t :: v in db.venues && t in db.inventory ==> (t in db.venues[v].devices <==> t in after.venues[v].devices)
    ensures forall e, t :: e in db.entities && t in db.inventory ==> (t in db.entities[e].devices <==> t in after.entities[e].devices)
  {
    forall v | v in db.venues ensures forall t :: t in db.inventory ==> (t in db.venues[v].devices <==> t in after.venues[v].devices) {
      assert VenueKept(db.venues[v], after.venues[v], db);
      KeptMembers(db.venues[v].devices, db.inventory.Keys, after.venues[v].devices);
    }
    forall e | e in db.entities ensures forall t :: t in db.inventory ==> (t in db.entities[e].devices <==> t in after.entities[e].devices) {
      assert EntityKept(db.entities[e], after.entities[e], db);
      KeptMembers(db.entities[e].devices, db.inventory.Keys, after.entities[e].devices);
    }
  }

  /** The check never unplaces a device. */
  lemma CheckKeepsPlaced(db: Db, after: Db)
    requires KeptBy(db, after) && Placed(db)
    ensures Placed(after)
  {
    ListedStays(db, after);
    forall t | t in after.inventory ensures InVenue(after, t) && InEntity(after, t) {
      assert TagKept(db.inventory[t], after.inventory[t], db);
      assert InVenue(db, t) && InEntity(db, t);
    }
  }

  lemma EntityListsKnown(e: Entity, rows: Rows)
    requires EntityFixed(e, rows) == e
    ensures (forall i :: i in e.devices ==> i in rows.inventory) && (forall i :: i in e.venues ==> i in rows.venues)
    ensures (forall i :: i in e.contacts ==> i in rows.contacts) && (forall i :: i in e.locations ==> i in rows.locations)
    ensures (forall i :: i in e.variables ==> i in rows.variables) && e.rrm != "yes"
  {
    KnownIsWhole(e.devices, rows.inventory);
    KnownIsWhole(e.venues, rows.venues);
    KnownIsWhole(e.contacts, rows.contacts);
    KnownIsWhole(e.locations, rows.locations);
    KnownIsWhole(e.variables, rows.variables);
  }

  // ---------------------------------------------------------------- the passes as they run

  lemma KnownStep(ids: seq<Id>, i: nat, table: set<Id>)
    requires i < |ids|
    ensures Known(ids[i..], table) == (if ids[i] in table then [ids[i]] else []) + Known(ids[i + 1..], table)
  {
    assert ids[i..][1..] == ids[i + 1..];
  }

  /** The loop all repairs of lists share. */
  method KeepKnown(ids: seq<Id>, table: set<Id>) returns (kept: seq<Id>, modified: bool)
    ensures kept == Known(ids, table) && (modified <==> kept != ids)
  {
    kept, modified := [], false;
    for i := 0 to |ids|
      invariant kept + Known(ids[i..], table) == Known(ids, table)
      invariant modified <==> exists k :: 0 <= k < i && ids[k] !in table
    {
      KnownStep(ids, i, table);
      if ids[i] in table {
        kept := kept + [ids[i]];
      } else {
        modified := true;
      }
    }
    KnownIsWhole(ids, table);
  }

  method FixVenue(v: Venue, rows: Rows) returns (fixed: Venue)
    ensures fixed == VenueFixed(v, rows)
  {
    var devices, modified := KeepKnown(v.devices, rows.inventory);
    fixed := v;
    if v.rrm == "yes" {
      fixed := fixed.(rrm := "inherit");
      modified := true;
    }
    if modified {
      fixed := fixed.(devices := devices);
    }
  }

  method FixEntity(e: Entity, rows: Rows) returns (fixed: Entity)
    ensures fixed == EntityFixed(e, rows)
  {
    var devices, m1 := KeepKnown(e.devices, rows.inventory);
    var contacts, m2 := KeepKnown(e.contacts, rows.contacts);
    var locations, m3 := KeepKnown(e.locations, rows.locations);
    var venues, m4 := KeepKnown(e.venues, rows.venues);
    var variables, m5 := KeepKnown(e.variables, rows.variables);
    var modified := m1 || m2 || m3 || m4 || m5;
    fixed := e;
    if e.rrm == "yes" {
      fixed := fixed.(rrm := "inherit");
      modified := true;
    }
    if modified {
      fixed := fixed.(devices := devices, contacts := contacts, locations := locations, venues := venues, variables := variables);
    }
  }

  method FixTag(t: InventoryTag, rows: Rows) returns (fixed: InventoryTag)
    ensures fixed == TagFixed(t, rows)
  {
    fixed := t;
    if t.venue != NONE && t.venue !in rows.venues {
      fixed := fixed.(venue := NONE);
    }
    if t.entity != NONE && t.entity !in rows.entities {
      fixed := fixed.(entity := NONE);
    }
    if t.location != NONE && t.location !in rows.locations {
      fixed := fixed.(location := NONE);
    }
    if t.contact != NONE && t.contact !in rows.contacts {
      fixed := fixed.(contact := NONE);
    }
    if t.rrm == "yes" {
      fixed := fixed.(rrm := "inherit");
    }
  }

  method VenuePass(vs: map<Id, Venue>, rows: Rows, order: seq<Id>) returns (r: map<Id, Venue>)
    requires Enumerates(order, vs.Keys)
    ensures r == VenuesFixed(vs, rows)
  {
    r := vs;
    ghost var done: set<Id> := {};
    for i := 0 to |order|
      invariant r.Keys == vs.Keys
      invariant forall k :: 0 <= k < |order| ==> (order[k] in done <==> k < i)
      invariant forall v :: v in vs ==> r[v] == if v in done then VenueFixed(vs[v], rows) else vs[v]
    {
      assert order[i] in vs;
      done := done + {order[i]};
      var fixed := FixVenue(r[order[i]], rows);
      r := r[order[i] := fixed];
    }
  }

  method EntityPass(es: map<Id, Entity>, rows: Rows, order: seq<Id>) returns (r: map<Id, Entity>)
    requires Enumerates(order, es.Keys)
    ensures r == EntitiesFixed(es, rows)
  {
    r := es;
    ghost var done: set<Id> := {};
    for i := 0 to |order|
      invariant r.Keys == es.Keys
      invariant forall k :: 0 <= k < |order| ==> (order[k] in done <==> k < i)
      invariant forall e :: e in es ==> r[e] == if e in done then EntityFixed(es[e], rows) else es[e]
    {
      assert order[i] in es;
      done := done + {order[i]};
      var fixed := FixEntity(r[order[i]], rows);
      r := r[order[i] := fixed];
    }
  }

  method InventoryPass(ts: map<Id, InventoryTag>, rows: Rows, order: seq<Id>) returns (r: map<Id, InventoryTag>)
    requires Enumerates(order, ts.Keys)
    ensures r == TagsFixed(ts, rows)
  {
    r := ts;
    ghost var done: set<Id> := {};
    for i := 0 to |order|
      invariant r.Keys == ts.Keys
      invariant forall k :: 0 <= k < |order| ==> (order[k] in done <==> k < i)
      invariant forall t :: t in ts ==> r[t] == if t in done then TagFixed(ts[t], rows) else ts[t]
    {
      assert order[i] in ts;
      done := done + {order[i]};
      var fixed := FixTag(r[order[i]], rows);
      r := r[order[i] := fixed];
    }
  }

  method ConfigurationPass(cs: map<Id, Configuration>, order: seq<Id>) returns (r: map<Id, Configuration>)
    requires Enumerates(order, cs.Keys)
    ensures r == ConfigurationsFixed(cs)
  {
    r := cs;
    ghost var done: set<Id> := {};
    for i := 0 to |order|
      invariant r.Keys == cs.Keys
      invariant forall k :: 0 <= k < |order| ==> (order[k] in done <==> k < i)
      invariant forall c :: c in cs ==> r[c] == if c in done then cs[c].(rrm := Rrm(cs[c].rrm)) else cs[c]
    {
      assert order[i] in cs;
      done := done + {order[i]};
      if r[order[i]].rrm == "yes" {
        r := r[order[i] := r[order[i]].(rrm := "inherit")];
      }
    }
  }

  method SubscriberPass(ds: map<Id, SubscriberDevice>, order: seq<Id>) returns (r: map<Id, SubscriberDevice>)
    requires Enumerates(order, ds.Keys)
    ensures r == DevicesFixed(ds)
  {
    r := ds;
    ghost var done: set<Id> := {};
    for i := 0 to |order|
      invariant r.Keys == ds.Keys
      invariant forall k :: 0 <= k < |order| ==> (order[k] in done <==> k < i)
      invariant forall d :: d in ds ==> r[d] == if d in done then ds[d].(rrm := Rrm(ds[d].rrm)) else ds[d]
    {
      assert order[i] in ds;
      done := done + {order[i]};
      if r[order[i]].rrm == "yes" {
        r := r[order[i] := r[order[i]].(rrm := "inherit")];
      }
    }
  }

  /** One operator: the default one goes to the root, another one and its entity are linked both ways. */
  method LinkOperator(l: Links, rows: seq<Id>, o: Id) returns (r: Links)
    requires o in l.operators
    ensures r == FixOperator(l, rows, o) && LinkedBothWays(l, r, rows, o)
    ensures (forall e :: e in l.entities ==> e in rows) ==> Settled(r, o)
  {
    FixOperatorLinks(l, rows, o);
    var op := l.operators[o];
    var fixed := op;
    if op.rrm == "yes" {
      fixed := fixed.(rrm := "inherit");
    }
    if op.defaultOperator {
      return l.(operators := l.operators[o := fixed.(entityId := ROOT)]);
    }
    var e := NONE;
    if op.entityId != NONE && op.entityId in l.entities {
      e := op.entityId;
    }
    if e == NONE {
      e := Referring(l.entities, rows, o);
    }
    r := l;
    if e != NONE {
      fixed := fixed.(entityId := e);
      if e != ROOT && l.entities[e].operatorId != o {
        r := r.(entities := r.entities[e := r.entities[e].(operatorId := o)]);
      }
    }
    r := r.(operators := r.operators[o := fixed]);
  }

  class Storage {
    var db: Db

    constructor (db: Db)
      ensures this.db == db
    {
      this.db := db;
    }

    method CheckOperators(rows: seq<Id>, order: seq<Id>)
      requires Enumerates(order, db.operators.Keys)
      modifies this
      ensures db == WithOperators(old(db), rows, order)
    {
      ghost var goal := FixOperators(Links(db.entities, db.operators), rows, order);
      for i := 0 to |order|
        invariant db == old(db).(entities := db.entities, operators := db.operators) && db.operators.Keys == old(db).operators.Keys
        invariant FixOperators(Links(db.entities, db.operators), rows, order[i..]) == goal
      {
        assert order[i] in db.operators;
        assert order[i..][1..] == order[i + 1..];
        var l := LinkOperator(Links(db.entities, db.operators), rows, order[i]);
        db := db.(entities := l.entities, operators := l.operators);
      }
    }

    /** All passes, each over the rows of its table in some order. */
    method Check(venues: seq<Id>, entities: seq<Id>, inventory: seq<Id>, configurations: seq<Id>, operators: seq<Id>, devices: seq<Id>)
      requires Enumerates(venues, db.venues.Keys) && Enumerates(entities, db.entities.Keys) && Enumerates(inventory, db.inventory.Keys)
      requires Enumerates(configurations, db.configurations.Keys) && Enumerates(operators, db.operators.Keys)
      requires Enumerates(devices, db.subDevices.Keys)
      modifies this
      ensures db == Checked(old(db), entities, operators)
      ensures Consistent(db) && KeptBy(old(db), db)
      ensures Placed(old(db)) ==> Placed(db)
    {
      CheckedIsConsistent(db, entities, operators);
      CheckKeeps(db, entities, operators);
      if Placed(db) {
        CheckKeepsPlaced(db, Checked(db, entities, operators));
      }
      RunPasses(venues, entities, inventory, configurations, operators, devices);
    }

    method RunPasses(venues: seq<Id>, entities: seq<Id>, inventory: seq<Id>, configurations: seq<Id>, operators: seq<Id>, devices: seq<Id>)
      requires Enumerates(venues, db.venues.Keys) && Enumerates(entities, db.entities.Keys) && Enumerates(inventory, db.inventory.Keys)
      requires Enumerates(configurations, db.configurations.Keys) && Enumerates(operators, db.operators.Keys)
      requires Enumerates(devices, db.subDevices.Keys)
      modifies this
      ensures db == Checked(old(db), entities, operators)
    {
      var vs := VenuePass(db.venues, RowsOf(db), venues);
      db := db.(venues := vs);
      var es := EntityPass(db.entities, RowsOf(db), entities);
      db := db.(entities := es);
      var ts := InventoryPass(db.inventory, RowsOf(db), inventory);
      db := db.(inventory := ts);
      var cs := ConfigurationPass(db.configurations, configurations);
      db := db.(configurations := cs);
      CheckOperators(entities, operators);
      var ds := SubscriberPass(db.subDevices, devices);
      db := db.(subDevices := ds);
    }
  }
}
