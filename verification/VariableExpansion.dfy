/** Expansion of `__variableBlock` and `__radiusEndpoint` references.

The three mutually recursive routines of src/APConfig.cpp fill a result object or
array step by step. The functions `Expand...` say what they compute; the methods
`Replace...` at the end of the module are the loops, proved against the functions.

A run that the source leaves by an exception is the outcome `Threw`. Expansion
only terminates on stores without reference cycles, so every routine carries a
rank of the variable blocks and a bound on the ranks it may still visit. */
module VariableExpansion {
  import opened Json
  import opened Basics

  const VARIABLE_BLOCK := "__variableBlock"
  const RADIUS_ENDPOINT := "__radiusEndpoint"

  predicate Reserved(key: string) { key == VARIABLE_BLOCK || key == RADIUS_ENDPOINT }

  datatype Outcome<+T> = Done(value: T) | Threw {
    predicate IsFailure() { Threw? }
    function PropagateFailure<U>(): Outcome<U> requires Threw? { Threw }
    function Extract(): T requires Done? { value }
  }

  /** The stores the expansion reads. A block is the list of its variables. An endpoint is the members its `Render` sets. With
      error logging on, reporting an unknown endpoint throws: its message lacks an argument. */
  datatype Store = Store(
    blocks: map<string, seq<Document>>,
    endpoints: map<string, seq<Member>>,
    errorLogging: bool)

  // ---------------------------------------------------------------- references

  /** The text a reference converts to. The printed form of an array or object names no record. */
  function ReferenceText(v: Value): Outcome<seq<string>> {
    match v
    case Text(s) => Done([s])
    case Number(s) => Done([s])
    case Bool(on) => Done([if on then "true" else "false"])
    case Null => Threw
    case _ => Done([])
  }

  function ReferenceTexts(items: seq<Value>): Outcome<seq<string>> {
    if items == [] then Done([])
    else
      var first :- ReferenceText(items[0]);
      var rest :- ReferenceTexts(items[1..]);
      Done(first + rest)
  }

  /** The block ids a `__variableBlock` member names. */
  function BlockIds(v: Value): Outcome<seq<string>> {
    if v.Array? then ReferenceTexts(v.items) else ReferenceText(v)
  }

  // ---------------------------------------------------------------- acyclic stores

  predicate IdsBelow(store: Store, rank: map<string, nat>, n: nat, ids: seq<string>) {
    forall id :: id in ids && id in store.blocks ==> id in rank && rank[id] < n
  }

  /** Every block that expanding `v` may visit has a rank below `n`. */
  predicate Below(store: Store, rank: map<string, nat>, n: nat, v: Value)
    decreases v
  {
    match v
    case Array(items) => forall x :: x in items ==> Below(store, rank, n, x)
    case Object(ms) => forall m :: m in ms ==> MemberBelow(store, rank, n, m)
    case _ => true
  }

  predicate MemberBelow(store: Store, rank: map<string, nat>, n: nat, m: Member)
    decreases m
  {
    if m.key == VARIABLE_BLOCK then
      BlockIds(m.value).Done? ==> IdsBelow(store, rank, n, BlockIds(m.value).value)
    else m.key == RADIUS_ENDPOINT || Below(store, rank, n, m.value)
  }

  predicate MembersBelow(store: Store, rank: map<string, nat>, n: nat, ms: seq<Member>) {
    forall m :: m in ms ==> MemberBelow(store, rank, n, m)
  }

  predicate ItemsBelow(store: Store, rank: map<string, nat>, n: nat, items: seq<Value>) {
    forall x :: x in items ==> Below(store, rank, n, x)
  }

  /** The values inside a variable block are expanded, whatever their names. */
  predicate RawBelow(store: Store, rank: map<string, nat>, n: nat, ms: seq<Member>) {
    forall m :: m in ms ==> Below(store, rank, n, m.value)
  }

  predicate VariablesBelow(store: Store, rank: map<string, nat>, n: nat, vars: seq<Document>) {
    forall x :: x in vars && x.Parsed? ==> RawBelow(store, rank, n, x.members)
  }

  /** `rank` orders the blocks so that each one only refers to blocks of a smaller rank. */
  predicate Acyclic(store: Store, rank: map<string, nat>) {
    forall id :: id in store.blocks ==> id in rank && VariablesBelow(store, rank, rank[id], store.blocks[id])
  }

  // ---------------------------------------------------------------- what the routines compute

  function PutAll(acc: seq<Member>, ms: seq<Member>): (r: seq<Member>)
    ensures forall m :: m in r ==> m in acc || m in ms
    decreases |ms|
  {
    if ms == [] then acc else PutAll(Put(acc, ms[0].key, ms[0].value), ms[1..])
  }

  /** Members of an object, added one by one to the result `acc`. */
  function ExpandMembers(store: Store, rank: map<string, nat>, n: nat, ms: seq<Member>, acc: seq<Member>)
    : Outcome<seq<Member>>
    requires Acyclic(store, rank) && MembersBelow(store, rank, n, ms)
    decreases n, 1, ms
  {
    if ms == [] then Done(acc)
    else
      var next :- ExpandHead(store, rank, n, ms[0], acc);
      if next.stop then Done(next.members)
      else ExpandMembers(store, rank, n, ms[1..], next.members)
  }

  /** The result after one member, and whether the members after it are skipped. */
  datatype Progress = Progress(members: seq<Member>, stop: bool)

  function ExpandHead(store: Store, rank: map<string, nat>, n: nat, m: Member, acc: seq<Member>): Outcome<Progress>
    requires Acyclic(store, rank) && MemberBelow(store, rank, n, m)
    decreases n, 1, m, 1
  {
    if m.key == VARIABLE_BLOCK then
      var ids :- BlockIds(m.value);
      var next :- ExpandBlocks(store, rank, n, ids, acc);
      Done(Progress(next, false))
    else if m.key == RADIUS_ENDPOINT then
      var id :- ReferenceText(m.value);
      if id != [] && id[0] in store.endpoints then Done(Progress(PutAll(acc, store.endpoints[id[0]]), false))
      else if store.errorLogging then Threw
      else Done(Progress(acc, true))
    else
      var next :- ExpandMember(store, rank, n, m, acc);
      Done(Progress(next, false))
  }

  /** A member that is copied under its own name; an empty array is dropped. */
  function ExpandMember(store: Store, rank: map<string, nat>, n: nat, m: Member, acc: seq<Member>)
    : Outcome<seq<Member>>
    requires Acyclic(store, rank) && Below(store, rank, n, m.value)
    decreases n, 1, m, 0
  {
    if m.value == EMPTY_ARRAY then Done(acc)
    else
      var v :- ExpandValue(store, rank, n, m.value);
      Done(Put(acc, m.key, v))
  }

  /** An array or object is expanded, anything else copied. */
  function ExpandValue(store: Store, rank: map<string, nat>, n: nat, v: Value): Outcome<Value>
    requires Acyclic(store, rank) && Below(store, rank, n, v)
    decreases n, 1, v
  {
    match v
    case Array(items) =>
      var r :- ExpandItems(store, rank, n, items, []);
      Done(Array(r))
    case Object(ms) =>
      var r :- ExpandMembers(store, rank, n, ms, []);
      Done(Object(r))
    case _ => Done(v)
  }

  /** Items of an array: an empty inner array is dropped and a null throws. */
  function ExpandItems(store: Store, rank: map<string, nat>, n: nat, items: seq<Value>, acc: seq<Value>)
    : Outcome<seq<Value>>
    requires Acyclic(store, rank) && ItemsBelow(store, rank, n, items)
    decreases n, 1, items
  {
    if items == [] then Done(acc)
    else if items[0] == EMPTY_ARRAY then ExpandItems(store, rank, n, items[1..], acc)
    else if items[0] == Null then Threw
    else
      var v :- ExpandValue(store, rank, n, items[0]);
      ExpandItems(store, rank, n, items[1..], acc + [v])
  }

  /** Variable blocks, in the order they are named; an unknown id adds nothing. */
  function ExpandBlocks(store: Store, rank: map<string, nat>, n: nat, ids: seq<string>, acc: seq<Member>)
    : Outcome<seq<Member>>
    requires Acyclic(store, rank) && IdsBelow(store, rank, n, ids)
    decreases n, 0, ids
  {
    if ids == [] then Done(acc)
    else if ids[0] in store.blocks then
      var next :- ExpandVariables(store, rank, rank[ids[0]], store.blocks[ids[0]], acc);
      ExpandBlocks(store, rank, n, ids[1..], next)
    else ExpandBlocks(store, rank, n, ids[1..], acc)
  }

  function ExpandVariables(store: Store, rank: map<string, nat>, n: nat, vars: seq<Document>, acc: seq<Member>)
    : Outcome<seq<Member>>
    requires Acyclic(store, rank) && VariablesBelow(store, rank, n, vars)
    decreases n, 1, vars
  {
    if vars == [] then Done(acc)
    else if vars[0].Malformed? then Threw
    else
      var next :- ExpandRaw(store, rank, n, vars[0].members, acc);
      ExpandVariables(store, rank, n, vars[1..], next)
  }

  /** Members of a variable's own object: their names are not examined. */
  function ExpandRaw(store: Store, rank: map<string, nat>, n: nat, ms: seq<Member>, acc: seq<Member>)
    : Outcome<seq<Member>>
    requires Acyclic(store, rank) && RawBelow(store, rank, n, ms)
    decreases n, 1, ms
  {
    if ms == [] then Done(acc)
    else
      var next :- ExpandMember(store, rank, n, ms[0], acc);
      ExpandRaw(store, rank, n, ms[1..], next)
  }

  // ---------------------------------------------------------------- ranks do not matter

  lemma {:induction false} SameMembers(store: Store, rank: map<string, nat>, n: nat, rank': map<string, nat>, n': nat, ms: seq<Member>, acc: seq<Member>)
    requires Acyclic(store, rank) && MembersBelow(store, rank, n, ms)
    requires Acyclic(store, rank') && MembersBelow(store, rank', n', ms)
    ensures ExpandMembers(store, rank, n, ms, acc) == ExpandMembers(store, rank', n', ms, acc)
    decreases n, 1, ms
  {
    if ms != [] {
      assert MemberBelow(store, rank, n, ms[0]) && MemberBelow(store, rank', n', ms[0]);
      SameHead(store, rank, n, rank', n', ms[0], acc);
      var next := ExpandHead(store, rank, n, ms[0], acc);
      if next.Done? && !next.value.stop {
        SameMembers(store, rank, n, rank', n', ms[1..], next.value.members);
      }
    }
  }

  lemma {:induction false} SameHead(store: Store, rank: map<string, nat>, n: nat, rank': map<string, nat>, n': nat, m: Member, acc: seq<Member>)
    requires Acyclic(store, rank) && MemberBelow(store, rank, n, m)
    requires Acyclic(store, rank') && MemberBelow(store, rank', n', m)
    ensures ExpandHead(store, rank, n, m, acc) == ExpandHead(store, rank', n', m, acc)
    decreases n, 1, m, 1
  {
    if m.key == VARIABLE_BLOCK {
      if BlockIds(m.value).Done? {
        SameBlocks(store, rank, n, rank', n', BlockIds(m.value).value, acc);
      }
    } else if m.key != RADIUS_ENDPOINT {
      SameMember(store, rank, n, rank', n', m, acc);
    }
  }

  lemma {:induction false} SameMember(store: Store, rank: map<string, nat>, n: nat, rank': map<string, nat>, n': nat, m: Member, acc: seq<Member>)
    requires Acyclic(store, rank) && Below(store, rank, n, m.value)
    requires Acyclic(store, rank') && Below(store, rank', n', m.value)
    ensures ExpandMember(store, rank, n, m, acc) == ExpandMember(store, rank', n', m, acc)
    decreases n, 1, m, 0
  {
    if m.value != EMPTY_ARRAY {
      SameOutcome(store, rank, n, rank', n', m.value);
    }
  }

  /** The outcome of expansion does not depend on the ranks that show the store to be free of cycles. */
  lemma {:induction false} SameOutcome(store: Store, rank: map<string, nat>, n: nat, rank': map<string, nat>, n': nat, v: Value)
    requires Acyclic(store, rank) && Below(store, rank, n, v)
    requires Acyclic(store, rank') && Below(store, rank', n', v)
    ensures ExpandValue(store, rank, n, v) == ExpandValue(store, rank', n', v)
    decreases n, 1, v
  {
    match v
    case Array(items) => SameItems(store, rank, n, rank', n', items, []);
    case Object(ms) => SameMembers(store, rank, n, rank', n', ms, []);
    case _ =>
  }

  lemma {:induction false} SameItems(store: Store, rank: map<string, nat>, n: nat, rank': map<string, nat>, n': nat, items: seq<Value>, acc: seq<Value>)
    requires Acyclic(store, rank) && ItemsBelow(store, rank, n, items)
    requires Acyclic(store, rank') && ItemsBelow(store, rank', n', items)
    ensures ExpandItems(store, rank, n, items, acc) == ExpandItems(store, rank', n', items, acc)
    decreases n, 1, items
  {
    if items != [] {
      assert items[0] in items;
      if items[0] == EMPTY_ARRAY {
        SameItems(store, rank, n, rank', n', items[1..], acc);
      } else if items[0] != Null {
        SameOutcome(store, rank, n, rank', n', items[0]);
        var v := ExpandValue(store, rank, n, items[0]);
        if v.Done? {
          SameItems(store, rank, n, rank', n', items[1..], acc + [v.value]);
        }
      }
    }
  }

  lemma {:induction false} SameBlocks(store: Store, rank: map<string, nat>, n: nat, rank': map<string, nat>, n': nat, ids: seq<string>, acc: seq<Member>)
    requires Acyclic(store, rank) && IdsBelow(store, rank, n, ids)
    requires Acyclic(store, rank') && IdsBelow(store, rank', n', ids)
    ensures ExpandBlocks(store, rank, n, ids, acc) == ExpandBlocks(store, rank', n', ids, acc)
    decreases n, 0, ids
  {
    if ids != [] {
      assert ids[0] in ids;
      if ids[0] in store.blocks {
        var vars := store.blocks[ids[0]];
        SameVariables(store, rank, rank[ids[0]], rank', rank'[ids[0]], vars, acc);
        var next := ExpandVariables(store, rank, rank[ids[0]], vars, acc);
        if next.Done? {
          SameBlocks(store, rank, n, rank', n', ids[1..], next.value);
        }
      } else {
        SameBlocks(store, rank, n, rank', n', ids[1..], acc);
      }
    }
  }

  lemma {:induction false} SameVariables(store: Store, rank: map<string, nat>, n: nat, rank': map<string, nat>, n': nat, vars: seq<Document>, acc: seq<Member>)
    requires Acyclic(store, rank) && VariablesBelow(store, rank, n, vars)
    requires Acyclic(store, rank') && VariablesBelow(store, rank', n', vars)
    ensures ExpandVariables(store, rank, n, vars, acc) == ExpandVariables(store, rank', n', vars, acc)
    decreases n, 1, vars
  {
    if vars != [] && vars[0].Parsed? {
      SameRaw(store, rank, n, rank', n', vars[0].members, acc);
      var next := ExpandRaw(store, rank, n, vars[0].members, acc);
      if next.Done? {
        SameVariables(store, rank, n, rank', n', vars[1..], next.value);
      }
    }
  }

  lemma {:induction false} SameRaw(store: Store, rank: map<string, nat>, n: nat, rank': map<string, nat>, n': nat, ms: seq<Member>, acc: seq<Member>)
    requires Acyclic(store, rank) && RawBelow(store, rank, n, ms)
    requires Acyclic(store, rank') && RawBelow(store, rank', n', ms)
    ensures ExpandRaw(store, rank, n, ms, acc) == ExpandRaw(store, rank', n', ms, acc)
    decreases n, 1, ms
  {
    if ms != [] {
      SameMember(store, rank, n, rank', n', ms[0], acc);
      var next := ExpandMember(store, rank, n, ms[0], acc);
      if next.Done? {
        SameRaw(store, rank, n, rank', n', ms[1..], next.value);
      }
    }
  }

  // ---------------------------------------------------------------- shapes of documents

  /** No reserved name at any depth. */
  ghost predicate Clean(v: Value) {
    match v
    case Array(items) => forall x :: x in items ==> Clean(x)
    case Object(ms) => forall m :: m in ms ==> !Reserved(m.key) && Clean(m.value)
    case _ => true
  }

  /** No empty array and no null item below the top. */
  ghost predicate Dense(v: Value) {
    match v
    case Array(items) => forall x :: x in items ==> x != Null && x != EMPTY_ARRAY && Dense(x)
    case Object(ms) => forall m :: m in ms ==> m.value != EMPTY_ARRAY && Dense(m.value)
    case _ => true
  }

  /** No array anywhere holds a null, and every reference is a value that converts to text. */
  ghost predicate NullFree(v: Value) {
    match v
    case Array(items) => forall x :: x in items ==> x != Null && NullFree(x)
    case Object(ms) => forall m :: m in ms ==> NullFree(m.value) && (Reserved(m.key) ==> m.value != Null)
    case _ => true
  }

  /** An array that expansion empties although it holds something: all its items are empty arrays. */
  predicate Hollow(v: Value) { v.Array? && v.items != [] && forall x :: x in v.items ==> x == EMPTY_ARRAY }

  /** No array below the top is hollow. */
  ghost predicate HollowFree(v: Value) {
    match v
    case Array(items) => forall x :: x in items ==> !Hollow(x) && HollowFree(x)
    case Object(ms) => forall m :: m in ms ==> !Hollow(m.value) && HollowFree(m.value)
    case _ => true
  }

  predicate KnownEndpoint(store: Store, v: Value) {
    var id := ReferenceText(v);
    id.Done? && id.value != [] && id.value[0] in store.endpoints
  }

  /** Every `__radiusEndpoint` at any depth names an endpoint of the store. */
  ghost predicate EndpointsKnown(store: Store, v: Value) {
    match v
    case Array(items) => forall x :: x in items ==> EndpointsKnown(store, x)
    case Object(ms) => forall m :: m in ms ==>
      EndpointsKnown(store, m.value) && (m.key == RADIUS_ENDPOINT ==> KnownEndpoint(store, m.value))
    case _ => true
  }

  /** Nothing in the document makes expansion throw. An unknown endpoint only does so when the error is logged. */
  ghost predicate Safe(store: Store, v: Value) {
    NullFree(v) && (store.errorLogging ==> EndpointsKnown(store, v))
  }

  /** The same for the members of a variable's own object, whose names are not examined. */
  ghost predicate RawSafe(store: Store, ms: seq<Member>) { forall m :: m in ms ==> Safe(store, m.value) }

  ghost predicate Holds(p: Value -> bool, vars: seq<Document>) {
    forall x :: x in vars && x.Parsed? ==> p(Object(x.members))
  }

  /** No variable puts a reserved name into the result: a member with such a name is an
      empty array, which is dropped. Below its own top level a value is not restricted. */
  ghost predicate TopClean(store: Store) {
    forall id, x, m :: id in store.blocks && x in store.blocks[id] && x.Parsed? && m in x.members ==>
      Reserved(m.key) ==> m.value == EMPTY_ARRAY
  }

  ghost predicate EndpointsPlain(store: Store) {
    forall id :: id in store.endpoints ==>
      && Clean(Object(store.endpoints[id]))
      && Dense(Object(store.endpoints[id]))
      && Canonical(Object(store.endpoints[id]))
  }

  ghost predicate HollowFreeStore(store: Store) {
    forall id :: id in store.blocks ==> Holds(HollowFree, store.blocks[id])
  }

  ghost predicate VariablesSafe(store: Store, vars: seq<Document>) {
    Malformed !in vars && forall x :: x in vars && x.Parsed? ==> RawSafe(store, x.members)
  }

  /** Nothing in the store makes expansion throw. */
  ghost predicate SafeStore(store: Store) {
    forall id :: id in store.blocks ==> VariablesSafe(store, store.blocks[id])
  }

  // ---------------------------------------------------------------- the guarantees of every routine

  /** What expansion turns the part `given` plus the partial result `acc` into. */
  ghost predicate Sound(store: Store, given: Value, acc: Value, r: Outcome<Value>) {
    && (r.Done? && TopClean(store) && EndpointsPlain(store) && Clean(acc) ==> Clean(r.value))
    && (r.Done? && HollowFreeStore(store) && EndpointsPlain(store) && HollowFree(given) && Dense(acc) ==> Dense(r.value))
    && (r.Done? && EndpointsPlain(store) && Canonical(acc) ==> Canonical(r.value))
    && (SafeStore(store) && Safe(store, given) ==> r.Done?)
  }

  ghost function AsObject(r: Outcome<seq<Member>>): Outcome<Value> {
    if r.Threw? then Threw else Done(Object(r.value))
  }

  ghost function AsArray(r: Outcome<seq<Value>>): Outcome<Value> {
    if r.Threw? then Threw else Done(Array(r.value))
  }

  lemma Split(ms: seq<Member>)
    requires ms != []
    ensures Dense(Object(ms)) <==> Dense(Object([ms[0]])) && Dense(Object(ms[1..]))
    ensures NullFree(Object(ms)) <==> NullFree(Object([ms[0]])) && NullFree(Object(ms[1..]))
  {
    assert ms == [ms[0]] + ms[1..];
    assert forall m :: m in ms <==> m in [ms[0]] || m in ms[1..];
  }

  lemma SplitHollow(ms: seq<Member>)
    requires ms != []
    ensures HollowFree(Object(ms)) <==> HollowFree(Object([ms[0]])) && HollowFree(Object(ms[1..]))
  {
    assert ms == [ms[0]] + ms[1..];
  }

  lemma SplitEndpoints(store: Store, ms: seq<Member>)
    requires ms != []
    ensures EndpointsKnown(store, Object(ms)) <==> EndpointsKnown(store, Object([ms[0]])) && EndpointsKnown(store, Object(ms[1..]))
  {
    assert ms == [ms[0]] + ms[1..];
  }

  lemma SplitGiven(store: Store, ms: seq<Member>)
    requires ms != []
    ensures HollowFree(Object(ms)) <==> HollowFree(Object([ms[0]])) && HollowFree(Object(ms[1..]))
    ensures Safe(store, Object(ms)) <==> Safe(store, Object([ms[0]])) && Safe(store, Object(ms[1..]))
  {
    Split(ms);
    SplitHollow(ms);
    SplitEndpoints(store, ms);
  }

  lemma SplitItems(items: seq<Value>)
    requires items != []
    ensures Dense(Array(items)) <==> Dense(Array([items[0]])) && Dense(Array(items[1..]))
    ensures NullFree(Array(items)) <==> NullFree(Array([items[0]])) && NullFree(Array(items[1..]))
  {
    assert items == [items[0]] + items[1..];
    assert forall x :: x in items <==> x in [items[0]] || x in items[1..];
  }

  lemma SplitHollowItems(items: seq<Value>)
    requires items != []
    ensures HollowFree(Array(items)) <==> HollowFree(Array([items[0]])) && HollowFree(Array(items[1..]))
  {
    assert items == [items[0]] + items[1..];
  }

  lemma SplitEndpointItems(store: Store, items: seq<Value>)
    requires items != []
    ensures EndpointsKnown(store, Array(items)) <==> EndpointsKnown(store, Array([items[0]])) && EndpointsKnown(store, Array(items[1..]))
  {
    assert items == [items[0]] + items[1..];
  }

  lemma SplitGivenItems(store: Store, items: seq<Value>)
    requires items != []
    ensures HollowFree(Array(items)) <==> HollowFree(Array([items[0]])) && HollowFree(Array(items[1..]))
    ensures Safe(store, Array(items)) <==> Safe(store, Array([items[0]])) && Safe(store, Array(items[1..]))
  {
    SplitItems(items);
    SplitHollowItems(items);
    SplitEndpointItems(store, items);
  }

  /** Soundness of one member and of the rest of an object is soundness of the object. */
  lemma SoundThen(store: Store, ms: seq<Member>, acc: Value, next: Outcome<Value>, r: Outcome<Value>)
    requires ms != [] && Sound(store, Object([ms[0]]), acc, next)
    requires next.Threw? ==> r.Threw?
    requires next.Done? ==> Sound(store, Object(ms[1..]), next.value, r) || r == next
    ensures Sound(store, Object(ms), acc, r)
  {
    SplitGiven(store, ms);
  }

  lemma PutCanonical(acc: seq<Member>, key: string, v: Value)
    requires Canonical(Object(acc)) && Canonical(v)
    ensures Canonical(Object(Put(acc, key, v)))
  {
    PutAscending(acc, key, v);
  }

  lemma {:induction false} PutAllCanonical(acc: seq<Member>, ms: seq<Member>)
    requires Canonical(Object(acc)) && forall m :: m in ms ==> Canonical(m.value)
    ensures Canonical(Object(PutAll(acc, ms)))
    decreases |ms|
  {
    if ms != [] {
      PutCanonical(acc, ms[0].key, ms[0].value);
      PutAllCanonical(Put(acc, ms[0].key, ms[0].value), ms[1..]);
    }
  }

  lemma SoundPutAll(store: Store, m: Member, acc: seq<Member>, id: string)
    requires id in store.endpoints
    ensures Sound(store, Object([m]), Object(acc), Done(Object(PutAll(acc, store.endpoints[id]))))
  {
    if EndpointsPlain(store) && Canonical(Object(acc)) {
      PutAllCanonical(acc, store.endpoints[id]);
    }
  }

  lemma {:induction false} SoundMembers(store: Store, rank: map<string, nat>, n: nat, ms: seq<Member>, acc: seq<Member>)
    requires Acyclic(store, rank) && MembersBelow(store, rank, n, ms)
    ensures Sound(store, Object(ms), Object(acc), AsObject(ExpandMembers(store, rank, n, ms, acc)))
    decreases n, 1, ms
  {
    if ms != [] {
      assert MemberBelow(store, rank, n, ms[0]);
      SoundHead(store, rank, n, ms[0], acc);
      var next := ExpandHead(store, rank, n, ms[0], acc);
      if next.Done? {
        SoundMembers(store, rank, n, ms[1..], next.value.members);
      }
      SoundThen(store, ms, Object(acc), HeadValue(next), AsObject(ExpandMembers(store, rank, n, ms, acc)));
    }
  }

  ghost function HeadValue(r: Outcome<Progress>): Outcome<Value> {
    if r.Threw? then Threw else Done(Object(r.value.members))
  }

  lemma {:induction false} SoundHead(store: Store, rank: map<string, nat>, n: nat, m: Member, acc: seq<Member>)
    requires Acyclic(store, rank) && MemberBelow(store, rank, n, m)
    ensures Sound(store, Object([m]), Object(acc), HeadValue(ExpandHead(store, rank, n, m, acc)))
    decreases n, 1, m, 1
  {
    assert m in [m];
    if m.key == VARIABLE_BLOCK {
      if m.value != Null && NullFree(m.value) {
        BlockIdsDone(m.value);
      }
      if BlockIds(m.value).Done? {
        SoundBlocks(store, rank, n, BlockIds(m.value).value, acc);
      }
    } else if m.key == RADIUS_ENDPOINT {
      var id := ReferenceText(m.value);
      if id.Done? && id.value != [] && id.value[0] in store.endpoints {
        SoundPutAll(store, m, acc, id.value[0]);
      }
    } else {
      SoundMember(store, rank, n, m, acc);
    }
  }

  lemma {:induction false} BlockIdsDone(v: Value)
    requires v != Null && NullFree(v)
    ensures BlockIds(v).Done?
  {
    if v.Array? {
      ReferenceTextsDone(v.items);
    }
  }

  lemma {:induction false} ReferenceTextsDone(items: seq<Value>)
    requires Null !in items
    ensures ReferenceTexts(items).Done?
  {
    if items != [] {
      assert items[0] in items;
      ReferenceTextsDone(items[1..]);
    }
  }

  /** What setting one member keeps. */
  lemma PutShapes(acc: seq<Member>, key: string, v: Value)
    ensures Clean(Object(acc)) && !Reserved(key) && Clean(v) ==> Clean(Object(Put(acc, key, v)))
    ensures Dense(Object(acc)) && v != EMPTY_ARRAY && Dense(v) ==> Dense(Object(Put(acc, key, v)))
    ensures Canonical(Object(acc)) && Canonical(v) ==> Canonical(Object(Put(acc, key, v)))
  {
    if Canonical(Object(acc)) && Canonical(v) {
      PutCanonical(acc, key, v);
    }
  }

  lemma {:induction false} SoundMember(store: Store, rank: map<string, nat>, n: nat, m: Member, acc: seq<Member>)
    requires Acyclic(store, rank) && Below(store, rank, n, m.value)
    ensures var r := AsObject(ExpandMember(store, rank, n, m, acc));
      && ((Reserved(m.key) ==> m.value == EMPTY_ARRAY) ==> Sound(store, Object([m]), Object(acc), r))
      && (SafeStore(store) && Safe(store, m.value) ==> r.Done?)
      && (r.Done? && HollowFreeStore(store) && EndpointsPlain(store) && HollowFree(Object([m])) && Dense(Object(acc)) ==>
           Dense(r.value))
      && (r.Done? && EndpointsPlain(store) && Canonical(Object(acc)) ==> Canonical(r.value))
    decreases n, 1, m, 0
  {
    assert m in [m];
    if m.value != EMPTY_ARRAY {
      SoundValue(store, rank, n, m.value);
      var v := ExpandValue(store, rank, n, m.value);
      if v.Done? {
        PutShapes(acc, m.key, v.value);
      }
    }
  }

  lemma {:induction false} SoundValue(store: Store, rank: map<string, nat>, n: nat, v: Value)
    requires Acyclic(store, rank) && Below(store, rank, n, v)
    ensures Sound(store, v, Object([]), ExpandValue(store, rank, n, v))
    ensures ExpandValue(store, rank, n, v).Done? && !Hollow(v) && v != EMPTY_ARRAY ==>
              ExpandValue(store, rank, n, v).value != EMPTY_ARRAY
    ensures ExpandValue(store, rank, n, v).Done? && v != Null ==> ExpandValue(store, rank, n, v).value != Null
    decreases n, 1, v
  {
    match v
    case Array(items) =>
      SoundItems(store, rank, n, items, []);
      if items != [] && !Hollow(v) && ExpandValue(store, rank, n, v).Done? {
        ItemsStay(store, rank, n, items, []);
      }
    case Object(ms) => SoundMembers(store, rank, n, ms, []);
    case _ =>
  }

  lemma SoundAppend(store: Store, item: Value, acc: seq<Value>, v: Value)
    requires item != Null && item != EMPTY_ARRAY
    requires Sound(store, item, Object([]), Done(v))
    requires v != Null && (!Hollow(item) ==> v != EMPTY_ARRAY)
    ensures Sound(store, Array([item]), Array(acc), Done(Array(acc + [v])))
  {
    assert item in [item];
    assert forall x :: x in acc + [v] <==> x in acc || x == v;
  }

  lemma SoundItemThen(store: Store, items: seq<Value>, acc: Value, next: Value, r: Outcome<Value>)
    requires items != []
    requires Sound(store, Array([items[0]]), acc, Done(next)) && Sound(store, Array(items[1..]), next, r)
    ensures Sound(store, Array(items), acc, r)
  {
    SplitGivenItems(store, items);
  }

  lemma {:induction false} SoundItems(store: Store, rank: map<string, nat>, n: nat, items: seq<Value>, acc: seq<Value>)
    requires Acyclic(store, rank) && ItemsBelow(store, rank, n, items)
    ensures Sound(store, Array(items), Array(acc), AsArray(ExpandItems(store, rank, n, items, acc)))
    decreases n, 1, items
  {
    if items == [] {
      return;
    }
    SplitGivenItems(store, items);
    assert items[0] in [items[0]];
    var r := AsArray(ExpandItems(store, rank, n, items, acc));
    if items[0] == EMPTY_ARRAY {
      SoundItems(store, rank, n, items[1..], acc);
    } else if items[0] != Null {
      SoundValue(store, rank, n, items[0]);
      var v := ExpandValue(store, rank, n, items[0]);
      if v.Done? {
        SoundAppend(store, items[0], acc, v.value);
        SoundItems(store, rank, n, items[1..], acc + [v.value]);
        SoundItemThen(store, items, Array(acc), Array(acc + [v.value]), r);
      }
    }
  }

  /** An array that holds something expandable does not become empty. */
  lemma {:induction false} ItemsStay(store: Store, rank: map<string, nat>, n: nat, items: seq<Value>, acc: seq<Value>)
    requires Acyclic(store, rank) && ItemsBelow(store, rank, n, items)
    requires ExpandItems(store, rank, n, items, acc).Done?
    requires acc != [] || exists x :: x in items && x != EMPTY_ARRAY
    ensures ExpandItems(store, rank, n, items, acc).value != []
    decreases items
  {
    if items != [] {
      if items[0] == EMPTY_ARRAY {
        assert acc == [] ==> exists x :: x in items[1..] && x != EMPTY_ARRAY by {
          if acc == [] {
            var x :| x in items && x != EMPTY_ARRAY;
            assert x in items[1..];
          }
        }
        ItemsStay(store, rank, n, items[1..], acc);
      } else {
        ItemsStay(store, rank, n, items[1..], acc + [ExpandValue(store, rank, n, items[0]).value]);
      }
    }
  }

  lemma {:induction false} SoundBlocks(store: Store, rank: map<string, nat>, n: nat, ids: seq<string>, acc: seq<Member>)
    requires Acyclic(store, rank) && IdsBelow(store, rank, n, ids)
    ensures Sound(store, Object([]), Object(acc), AsObject(ExpandBlocks(store, rank, n, ids, acc)))
    decreases n, 0, ids
  {
    if ids == [] {
    } else if ids[0] in store.blocks {
      var vars := store.blocks[ids[0]];
      SoundVariables(store, rank, rank[ids[0]], vars, acc);
      var next := ExpandVariables(store, rank, rank[ids[0]], vars, acc);
      if next.Done? {
        SoundBlocks(store, rank, n, ids[1..], next.value);
      }
    } else {
      SoundBlocks(store, rank, n, ids[1..], acc);
    }
  }

  ghost predicate NamesClean(ms: seq<Member>) {
    forall m :: m in ms ==> Reserved(m.key) ==> m.value == EMPTY_ARRAY
  }

  ghost predicate VariablesClean(vars: seq<Document>) {
    forall x :: x in vars && x.Parsed? ==> NamesClean(x.members)
  }

  lemma {:induction false} SoundVariables(store: Store, rank: map<string, nat>, n: nat, vars: seq<Document>, acc: seq<Member>)
    requires Acyclic(store, rank) && VariablesBelow(store, rank, n, vars)
    ensures var r := ExpandVariables(store, rank, n, vars, acc);
      && (r.Done? && TopClean(store) && EndpointsPlain(store) && Clean(Object(acc)) && VariablesClean(vars) ==>
           Clean(Object(r.value)))
      && (r.Done? && HollowFreeStore(store) && EndpointsPlain(store) && Dense(Object(acc)) && Holds(HollowFree, vars) ==>
           Dense(Object(r.value)))
      && (r.Done? && EndpointsPlain(store) && Canonical(Object(acc)) ==> Canonical(Object(r.value)))
      && (SafeStore(store) && VariablesSafe(store, vars) ==> r.Done?)
    decreases n, 1, vars
  {
    if vars != [] && vars[0].Parsed? {
      SoundRaw(store, rank, n, vars[0].members, acc);
      var next := ExpandRaw(store, rank, n, vars[0].members, acc);
      if next.Done? {
        SoundVariables(store, rank, n, vars[1..], next.value);
      }
    }
  }

  lemma {:induction false} SoundRaw(store: Store, rank: map<string, nat>, n: nat, ms: seq<Member>, acc: seq<Member>)
    requires Acyclic(store, rank) && RawBelow(store, rank, n, ms)
    ensures var r := AsObject(ExpandRaw(store, rank, n, ms, acc));
      && (NamesClean(ms) ==> Sound(store, Object(ms), Object(acc), r))
      && (SafeStore(store) && RawSafe(store, ms) ==> r.Done?)
      && (r.Done? && HollowFreeStore(store) && EndpointsPlain(store) && HollowFree(Object(ms)) && Dense(Object(acc)) ==>
           Dense(r.value))
      && (r.Done? && EndpointsPlain(store) && Canonical(Object(acc)) ==> Canonical(r.value))
    decreases n, 1, ms
  {
    if ms != [] {
      SplitGiven(store, ms);
      assert ms[0] in [ms[0]];
      SoundMember(store, rank, n, ms[0], acc);
      var next := ExpandMember(store, rank, n, ms[0], acc);
      if next.Done? {
        SoundRaw(store, rank, n, ms[1..], next.value);
      }
    }
  }

  // ---------------------------------------------------------------- documents without references

  /** What is left of a document when its empty inner arrays are dropped. */
  function Prune(v: Value): Value {
    match v
    case Array(items) => Array(PruneItems(items))
    case Object(ms) => Object(PruneMembers(ms))
    case _ => v
  }

  function PruneItems(items: seq<Value>): (r: seq<Value>)
    ensures |r| <= |items|
  {
    if items == [] then []
    else if items[0] == EMPTY_ARRAY then PruneItems(items[1..])
    else [Prune(items[0])] + PruneItems(items[1..])
  }

  function PruneMembers(ms: seq<Member>): (r: seq<Member>)
    ensures |r| <= |ms|
  {
    if ms == [] then []
    else if ms[0].value == EMPTY_ARRAY then PruneMembers(ms[1..])
    else [Member(ms[0].key, Prune(ms[0].value))] + PruneMembers(ms[1..])
  }

  lemma {:induction false} CleanIsBelow(store: Store, rank: map<string, nat>, n: nat, v: Value)
    requires Clean(v)
    ensures Below(store, rank, n, v)
  {
    match v
    case Array(items) =>
      forall x | x in items ensures Below(store, rank, n, x) {
        CleanIsBelow(store, rank, n, x);
      }
    case Object(ms) =>
      forall m | m in ms ensures MemberBelow(store, rank, n, m) {
        CleanIsBelow(store, rank, n, m.value);
      }
    case _ =>
  }

  /** On a document without reserved names expansion only drops the empty inner arrays,
      and throws exactly when an array holds a null. */
  lemma {:induction false} CleanIsPruned(store: Store, rank: map<string, nat>, n: nat, v: Value)
    requires Acyclic(store, rank) && Below(store, rank, n, v)
    requires Clean(v) && Canonical(v)
    ensures ExpandValue(store, rank, n, v) == if NullFree(v) then Done(Prune(v)) else Threw
    decreases v
  {
    match v
    case Array(items) =>
      ItemsArePruned(store, rank, n, items, []);
      assert [] + PruneItems(items) == PruneItems(items);
    case Object(ms) =>
      MembersArePruned(store, rank, n, ms, []);
      assert [] + PruneMembers(ms) == PruneMembers(ms);
    case _ =>
  }

  lemma {:induction false} DenseItems(items: seq<Value>)
    requires items != []
    ensures Dense(Array(items)) <==>
              items[0] != Null && items[0] != EMPTY_ARRAY && Dense(items[0]) && Dense(Array(items[1..]))
    ensures NullFree(Array(items)) <==> items[0] != Null && NullFree(items[0]) && NullFree(Array(items[1..]))
  {
    SplitItems(items);
    var x := items[0];
    assert x in [x] && forall y :: y in [x] ==> y == x;
    assert Dense(Array([x])) <==> x != Null && x != EMPTY_ARRAY && Dense(x);
    assert NullFree(Array([x])) <==> x != Null && NullFree(x);
  }

  lemma {:induction false} ItemsArePruned(store: Store, rank: map<string, nat>, n: nat, items: seq<Value>, acc: seq<Value>)
    requires Acyclic(store, rank) && ItemsBelow(store, rank, n, items)
    requires Clean(Array(items)) && Canonical(Array(items))
    ensures ExpandItems(store, rank, n, items, acc)
         == if NullFree(Array(items)) then Done(acc + PruneItems(items)) else Threw
    decreases items
  {
    if items == [] {
      assert acc + [] == acc;
    } else {
      DenseItems(items);
      assert items[0] in items;
      if items[0] == EMPTY_ARRAY {
        ItemsArePruned(store, rank, n, items[1..], acc);
      } else if items[0] != Null {
        CleanIsPruned(store, rank, n, items[0]);
        ItemsArePruned(store, rank, n, items[1..], acc + [Prune(items[0])]);
        Regroup(acc, [Prune(items[0])], PruneItems(items[1..]));
      }
    }
  }

  lemma TailFits(ms: seq<Member>)
    requires ms != [] && Clean(Object(ms)) && Canonical(Object(ms))
    ensures Clean(Object(ms[1..])) && Canonical(Object(ms[1..]))
    ensures ms[0] in ms && !Reserved(ms[0].key) && Clean(ms[0].value) && Canonical(ms[0].value)
    ensures NullFree(Object([ms[0]])) <==> NullFree(ms[0].value)
    ensures forall m :: m in ms[1..] ==> Before(ms[0].key, m.key)
  {
    assert ms[0] in [ms[0]];
    forall m | m in ms[1..] ensures Before(ms[0].key, m.key) {
      var j :| 0 <= j < |ms[1..]| && ms[1..][j] == m;
      assert ms[j + 1] == m;
    }
  }

  lemma {:induction false} HeadIsPruned(store: Store, rank: map<string, nat>, n: nat, m: Member, acc: seq<Member>)
    requires Acyclic(store, rank) && MemberBelow(store, rank, n, m)
    requires !Reserved(m.key) && Clean(m.value) && Canonical(m.value) && AllBefore(acc, m.key)
    ensures ExpandHead(store, rank, n, m, acc)
         == if NullFree(m.value) then Done(Progress(acc + PruneMembers([m]), false)) else Threw
    decreases m
  {
    assert [m][1..] == [];
    if m.value == EMPTY_ARRAY {
      assert acc + [] == acc;
    } else {
      CleanIsPruned(store, rank, n, m.value);
      PutAtEnd(acc, m.key, Prune(m.value));
      assert PruneMembers([m]) == [Member(m.key, Prune(m.value))];
    }
  }

  ghost predicate Precedes(acc: seq<Member>, ms: seq<Member>) {
    forall a, m :: a in acc && m in ms ==> Before(a.key, m.key)
  }

  lemma {:induction false} PrecedesTail(acc: seq<Member>, ms: seq<Member>)
    requires ms != [] && Precedes(acc, ms) && forall m :: m in ms[1..] ==> Before(ms[0].key, m.key)
    ensures Precedes(acc + PruneMembers([ms[0]]), ms[1..])
  {
    assert [ms[0]][1..] == [];
    assert PruneMembers([ms[0]][1..]) == [];
  }

  lemma {:induction false} PruneSplit(ms: seq<Member>, acc: seq<Member>)
    requires ms != []
    ensures acc + PruneMembers(ms) == acc + PruneMembers([ms[0]]) + PruneMembers(ms[1..])
  {
    var rest := PruneMembers(ms[1..]);
    assert [ms[0]][1..] == [];
    if ms[0].value == EMPTY_ARRAY {
      assert PruneMembers([ms[0]]) == [];
      assert acc + [] == acc;
    } else {
      var m := Member(ms[0].key, Prune(ms[0].value));
      assert PruneMembers([ms[0]]) == [m] + [] == [m];
      assert acc + ([m] + rest) == acc + [m] + rest;
    }
  }

  lemma {:induction false} MembersArePruned(store: Store, rank: map<string, nat>, n: nat, ms: seq<Member>, acc: seq<Member>)
    requires Acyclic(store, rank) && MembersBelow(store, rank, n, ms)
    requires Clean(Object(ms)) && Canonical(Object(ms))
    requires Precedes(acc, ms)
    ensures ExpandMembers(store, rank, n, ms, acc)
         == if NullFree(Object(ms)) then Done(acc + PruneMembers(ms)) else Threw
    decreases ms
  {
    if ms == [] {
      assert acc + [] == acc;
    } else {
      Split(ms);
      TailFits(ms);
      assert AllBefore(acc, ms[0].key);
      HeadIsPruned(store, rank, n, ms[0], acc);
      var head := PruneMembers([ms[0]]);
      PruneSplit(ms, acc);
      if NullFree(ms[0].value) {
        PrecedesTail(acc, ms);
        MembersArePruned(store, rank, n, ms[1..], acc + head);
      }
    }
  }

  /** Pruning changes nothing exactly when there is nothing to drop. */
  lemma {:induction false} PruneFixpoint(v: Value)
    requires NullFree(v)
    ensures Prune(v) == v <==> Dense(v)
  {
    match v
    case Array(items) => PruneItemsFixpoint(items);
    case Object(ms) => PruneMembersFixpoint(ms);
    case _ =>
  }

  lemma ConsEqual<T>(a: T, xs: seq<T>, b: T, ys: seq<T>)
    ensures [a] + xs == [b] + ys <==> a == b && xs == ys
  {
    if [a] + xs == [b] + ys {
      assert ([a] + xs)[0] == ([b] + ys)[0];
      assert ([a] + xs)[1..] == ([b] + ys)[1..];
    }
  }

  lemma {:induction false} PruneItemsFixpoint(items: seq<Value>)
    requires NullFree(Array(items))
    ensures PruneItems(items) == items <==> Dense(Array(items))
  {
    if items != [] {
      DenseItems(items);
      assert items == [items[0]] + items[1..];
      if items[0] == EMPTY_ARRAY {
        assert |PruneItems(items)| < |items|;
      } else {
        PruneFixpoint(items[0]);
        PruneItemsFixpoint(items[1..]);
        ConsEqual(Prune(items[0]), PruneItems(items[1..]), items[0], items[1..]);
      }
    }
  }

  lemma {:induction false} PruneMembersFixpoint(ms: seq<Member>)
    requires NullFree(Object(ms))
    ensures PruneMembers(ms) == ms <==> Dense(Object(ms))
  {
    if ms != [] {
      Split(ms);
      assert ms[0] in ms && ms[0] in [ms[0]];
      assert ms == [ms[0]] + ms[1..];
      if ms[0].value == EMPTY_ARRAY {
        assert |PruneMembers(ms)| < |ms|;
      } else {
        PruneFixpoint(ms[0].value);
        PruneMembersFixpoint(ms[1..]);
        ConsEqual(Member(ms[0].key, Prune(ms[0].value)), PruneMembers(ms[1..]), ms[0], ms[1..]);
      }
    }
  }

  lemma {:induction false} CleanDenseIsNullFree(v: Value)
    requires Clean(v) && Dense(v)
    ensures NullFree(v)
  {
    match v
    case Array(items) =>
      forall x | x in items ensures NullFree(x) {
        CleanDenseIsNullFree(x);
      }
    case Object(ms) =>
      forall m | m in ms ensures NullFree(m.value) {
        CleanDenseIsNullFree(m.value);
      }
    case _ =>
  }

  // ---------------------------------------------------------------- main results

  /** Expansion leaves no reserved name at any depth. It does not throw on a store and document free of nulls and malformed
      variables whose endpoints all exist; missing endpoints do no harm as long as errors are not logged. */
  lemma ExpansionIsClean(store: Store, rank: map<string, nat>, n: nat, v: Value)
    requires Acyclic(store, rank) && Below(store, rank, n, v)
    requires TopClean(store) && EndpointsPlain(store)
    ensures ExpandValue(store, rank, n, v).Done? ==> Clean(ExpandValue(store, rank, n, v).value)
    ensures SafeStore(store) && Safe(store, v) ==> ExpandValue(store, rank, n, v).Done?
  {
    SoundValue(store, rank, n, v);
  }

  /** A document expands to itself exactly when it has no reserved name, no empty inner
      array and no null item. */
  lemma ExpansionFixpoint(store: Store, rank: map<string, nat>, n: nat, v: Value)
    requires Acyclic(store, rank) && Below(store, rank, n, v)
    requires TopClean(store) && EndpointsPlain(store) && Canonical(v)
    ensures ExpandValue(store, rank, n, v) == Done(v) <==> Clean(v) && Dense(v)
  {
    SoundValue(store, rank, n, v);
    if Clean(v) {
      CleanIsPruned(store, rank, n, v);
      if NullFree(v) {
        PruneFixpoint(v);
      } else if Dense(v) {
        CleanDenseIsNullFree(v);
      }
    }
  }

  /** Expanding a second time changes nothing exactly when the first result has no empty
      inner array, which holds whenever no inner array of document and store is hollow. */
  lemma ExpandTwice(store: Store, rank: map<string, nat>, n: nat, v: Value, n': nat)
    requires Acyclic(store, rank) && Below(store, rank, n, v)
    requires TopClean(store) && EndpointsPlain(store)
    requires ExpandValue(store, rank, n, v).Done?
    ensures var r := ExpandValue(store, rank, n, v).value;
      && Below(store, rank, n', r)
      && (ExpandValue(store, rank, n', r) == Done(r) <==> Dense(r))
      && (HollowFreeStore(store) && HollowFree(v) ==> ExpandValue(store, rank, n', r) == Done(r))
  {
    var r := ExpandValue(store, rank, n, v).value;
    SoundValue(store, rank, n, v);
    CleanIsBelow(store, rank, n', r);
    ExpansionFixpoint(store, rank, n', r);
  }

  /** An array is emptied exactly when it was empty or hollow. */
  lemma {:induction false} PruneEmpties(items: seq<Value>)
    ensures PruneItems(items) == [] <==> forall x :: x in items ==> x == EMPTY_ARRAY
  {
    if items != [] {
      PruneEmpties(items[1..]);
      assert items[0] in items && forall x :: x in items <==> x == items[0] || x in items[1..];
      if items[0] == EMPTY_ARRAY {
        assert PruneItems(items) == PruneItems(items[1..]);
      } else {
        assert |PruneItems(items)| > 0;
      }
    }
  }

  lemma {:induction false} PruneValue(v: Value)
    ensures Prune(v) == EMPTY_ARRAY <==> v == EMPTY_ARRAY || Hollow(v)
    ensures Prune(v) == Null <==> v == Null
  {
    if v.Array? {
      PruneEmpties(v.items);
    }
  }

  /** Dropping empty arrays leaves new ones exactly where an inner array was hollow. */
  lemma {:induction false} PruneLeavesDense(v: Value)
    requires NullFree(v)
    ensures Dense(Prune(v)) <==> HollowFree(v)
  {
    match v
    case Array(items) => PruneItemsLeaveDense(items);
    case Object(ms) => PruneMembersLeaveDense(ms);
    case _ =>
  }

  lemma {:induction false} PruneItemsLeaveDense(items: seq<Value>)
    requires NullFree(Array(items))
    ensures Dense(Array(PruneItems(items))) <==> HollowFree(Array(items))
  {
    if items != [] {
      var x, rest := items[0], PruneItems(items[1..]);
      DenseItems(items);
      HollowFreeItems(items);
      PruneItemsLeaveDense(items[1..]);
      if x != EMPTY_ARRAY {
        PruneLeavesDense(x);
        PruneValue(x);
        DenseItems([Prune(x)] + rest);
        assert ([Prune(x)] + rest)[1..] == rest;
      }
    }
  }

  lemma HollowFreeItems(items: seq<Value>)
    requires items != []
    ensures HollowFree(Array(items)) <==> !Hollow(items[0]) && HollowFree(items[0]) && HollowFree(Array(items[1..]))
  {
    assert items == [items[0]] + items[1..];
    assert forall x :: x in items <==> x == items[0] || x in items[1..];
  }

  lemma {:induction false} PruneMembersLeaveDense(ms: seq<Member>)
    requires NullFree(Object(ms))
    ensures Dense(Object(PruneMembers(ms))) <==> HollowFree(Object(ms))
  {
    if ms != [] {
      var m, rest := ms[0], PruneMembers(ms[1..]);
      Split(ms);
      HollowFreeMembers(ms);
      assert m in [m];
      PruneMembersLeaveDense(ms[1..]);
      if m.value != EMPTY_ARRAY {
        PruneLeavesDense(m.value);
        PruneValue(m.value);
        DenseMembers(Member(m.key, Prune(m.value)), rest);
      }
    }
  }

  lemma HollowFreeMembers(ms: seq<Member>)
    requires ms != []
    ensures HollowFree(Object(ms)) <==> !Hollow(ms[0].value) && HollowFree(ms[0].value) && HollowFree(Object(ms[1..]))
  {
    assert ms == [ms[0]] + ms[1..];
    assert forall m :: m in ms <==> m == ms[0] || m in ms[1..];
  }

  lemma DenseMembers(m: Member, rest: seq<Member>)
    ensures Dense(Object([m] + rest)) <==> m.value != EMPTY_ARRAY && Dense(m.value) && Dense(Object(rest))
  {
    assert forall x :: x in [m] + rest <==> x == m || x in rest;
  }

  /** The exact condition on the input: expanding a document without references twice is expanding it once if and only if
      none of its inner arrays is hollow. */
  lemma ExpandTwiceExactly(store: Store, rank: map<string, nat>, n: nat, v: Value)
    requires Acyclic(store, rank) && Below(store, rank, n, v) && EndpointsPlain(store)
    requires Clean(v) && Canonical(v) && NullFree(v)
    ensures ExpandValue(store, rank, n, v) == Done(Prune(v)) && Below(store, rank, n, Prune(v))
    ensures ExpandValue(store, rank, n, Prune(v)) == Done(Prune(v)) <==> HollowFree(v)
  {
    var r := Prune(v);
    CleanIsPruned(store, rank, n, v);
    CleanPrunes(v);
    CleanIsBelow(store, rank, n, r);
    SoundValue(store, rank, n, v);
    PruneLeavesDense(v);
    CleanIsPruned(store, rank, n, r);
    if NullFree(r) {
      PruneFixpoint(r);
    } else if Dense(r) {
      CleanDenseIsNullFree(r);
    }
  }

  lemma {:induction false} CleanPrunes(v: Value)
    requires Clean(v)
    ensures Clean(Prune(v))
  {
    match v
    case Array(items) => CleanPrunesItems(items);
    case Object(ms) => CleanPrunesMembers(ms);
    case _ =>
  }

  lemma {:induction false} CleanPrunesItems(items: seq<Value>)
    requires Clean(Array(items))
    ensures Clean(Array(PruneItems(items)))
  {
    if items != [] {
      assert items[0] in items;
      CleanPrunes(items[0]);
      CleanPrunesItems(items[1..]);
    }
  }

  lemma {:induction false} CleanPrunesMembers(ms: seq<Member>)
    requires Clean(Object(ms))
    ensures Clean(Object(PruneMembers(ms)))
  {
    if ms != [] {
      assert ms[0] in ms;
      CleanPrunes(ms[0].value);
      CleanPrunesMembers(ms[1..]);
    }
  }

  // ---------------------------------------------------------------- the exact condition

  ghost predicate AlwaysClean(store: Store, rank: map<string, nat>)
    requires Acyclic(store, rank)
  {
    forall n: nat, v {:trigger ExpandValue(store, rank, n, v)} ::
      Below(store, rank, n, v) && ExpandValue(store, rank, n, v).Done? ==> Clean(ExpandValue(store, rank, n, v).value)
  }

  /** Every document expands to one without reserved names exactly when no variable carries
      such a name at its own top level (with a value that is not dropped). */
  lemma CleanExactly(store: Store, rank: map<string, nat>)
    requires Acyclic(store, rank) && SafeStore(store) && EndpointsPlain(store)
    ensures AlwaysClean(store, rank) <==> TopClean(store)
  {
    if TopClean(store) {
      forall n: nat, v | Below(store, rank, n, v) && ExpandValue(store, rank, n, v).Done?
        ensures Clean(ExpandValue(store, rank, n, v).value)
      {
        ExpansionIsClean(store, rank, n, v);
      }
    } else {
      var id, x, m :| id in store.blocks && x in store.blocks[id] && x.Parsed? && m in x.members
        && Reserved(m.key) && m.value != EMPTY_ARRAY;
      LeakyBlock(store, rank, id, x, m);
    }
  }

  lemma {:induction false} LeakyBlock(store: Store, rank: map<string, nat>, id: string, x: Document, m: Member)
    requires Acyclic(store, rank) && SafeStore(store)
    requires id in store.blocks && x in store.blocks[id] && x.Parsed? && m in x.members
    requires Reserved(m.key) && m.value != EMPTY_ARRAY
    ensures !AlwaysClean(store, rank)
  {
    SoundVariables(store, rank, rank[id], store.blocks[id], []);
    var r := ExpandVariables(store, rank, rank[id], store.blocks[id], []).value;
    VariablesKeepKey(store, rank, rank[id], store.blocks[id], [], x, m);
    SingleReference(store, rank, id);
    var leaked :| leaked in r && leaked.key == m.key;
    assert !Clean(Object(r));
  }

  lemma {:induction false} SingleReference(store: Store, rank: map<string, nat>, id: string)
    requires Acyclic(store, rank) && id in store.blocks
    requires ExpandVariables(store, rank, rank[id], store.blocks[id], []).Done?
    ensures var v := Object([Member(VARIABLE_BLOCK, Text(id))]);
      && Below(store, rank, rank[id] + 1, v)
      && ExpandValue(store, rank, rank[id] + 1, v)
         == Done(Object(ExpandVariables(store, rank, rank[id], store.blocks[id], []).value))
  {
    var n := rank[id] + 1;
    var m := Member(VARIABLE_BLOCK, Text(id));
    var r := ExpandVariables(store, rank, rank[id], store.blocks[id], []);
    assert [id][1..] == [] && [m][1..] == [];
    assert ExpandBlocks(store, rank, n, [id], []) == ExpandBlocks(store, rank, n, [], r.value);
    assert BlockIds(m.value) == Done([id]);
    assert MembersBelow(store, rank, n, [m]);
    assert ExpandHead(store, rank, n, m, []) == Done(Progress(r.value, false));
    assert ExpandMembers(store, rank, n, [m], []) == ExpandMembers(store, rank, n, [], r.value);
  }

  lemma {:induction false} RawKeepsKey(store: Store, rank: map<string, nat>, n: nat, ms: seq<Member>, acc: seq<Member>, key: string)
    requires Acyclic(store, rank) && RawBelow(store, rank, n, ms)
    requires ExpandRaw(store, rank, n, ms, acc).Done?
    requires HasKey(acc, key) || exists m :: m in ms && m.key == key && m.value != EMPTY_ARRAY
    ensures HasKey(ExpandRaw(store, rank, n, ms, acc).value, key)
    decreases |ms|
  {
    if ms != [] {
      var next := ExpandMember(store, rank, n, ms[0], acc).value;
      if HasKey(acc, key) && ms[0].value != EMPTY_ARRAY {
        PutKeepsKeys(acc, ms[0].key, ExpandValue(store, rank, n, ms[0].value).value, key);
      }
      RawKeepsKey(store, rank, n, ms[1..], next, key);
    }
  }

  lemma {:induction false} VariablesKeepKey(store: Store, rank: map<string, nat>, n: nat, vars: seq<Document>, acc: seq<Member>,
                                            x: Document, m: Member)
    requires Acyclic(store, rank) && VariablesBelow(store, rank, n, vars)
    requires ExpandVariables(store, rank, n, vars, acc).Done?
    requires HasKey(acc, m.key) || (x in vars && x.Parsed? && m in x.members && m.value != EMPTY_ARRAY)
    ensures HasKey(ExpandVariables(store, rank, n, vars, acc).value, m.key)
    decreases |vars|
  {
    if vars != [] {
      var next := ExpandRaw(store, rank, n, vars[0].members, acc).value;
      if HasKey(acc, m.key) || x == vars[0] {
        RawKeepsKey(store, rank, n, vars[0].members, acc, m.key);
      }
      VariablesKeepKey(store, rank, n, vars[1..], next, x, m);
    }
  }

  /** The variable `{"__variableBlock": "other"}` puts its name into the result. */
  lemma TopLevelReferenceSurvives()
    ensures var store := Store(map["id" := [Parsed([Member(VARIABLE_BLOCK, Text("other"))])]], map[], false);
      Acyclic(store, map["id" := 0]) && EndpointsPlain(store) && !AlwaysClean(store, map["id" := 0])
  {
    var leak := Member(VARIABLE_BLOCK, Text("other"));
    var store := Store(map["id" := [Parsed([leak])]], map[], false);
    LeakyBlock(store, map["id" := 0], "id", Parsed([leak]), leak);
  }

  /** `{"a": [[]]}` becomes `{"a": []}`, which becomes `{}`. */
  lemma NestedEmptyArrayIsNotStable(rank: map<string, nat>, n: nat)
    ensures var store := Store(map[], map[], false);
      var twice := Object([Member("a", Array([EMPTY_ARRAY]))]);
      var once := Object([Member("a", EMPTY_ARRAY)]);
      && Acyclic(store, rank) && Below(store, rank, n, twice) && Below(store, rank, n, once)
      && ExpandValue(store, rank, n, twice) == Done(once)
      && ExpandValue(store, rank, n, once) == Done(Object([]))
  {
    var store := Store(map[], map[], false);
    var twice := Object([Member("a", Array([EMPTY_ARRAY]))]);
    var once := Object([Member("a", EMPTY_ARRAY)]);
    assert |VARIABLE_BLOCK| == |RADIUS_ENDPOINT| - 1 == 15;
    assert Clean(twice) && Canonical(twice) && NullFree(twice);
    CleanIsBelow(store, rank, n, twice);
    CleanIsBelow(store, rank, n, once);
    CleanIsPruned(store, rank, n, twice);
    CleanIsPruned(store, rank, n, once);
    assert [EMPTY_ARRAY][1..] == [] && twice.members[1..] == [] && once.members[1..] == [];
    assert PruneItems([EMPTY_ARRAY]) == [];
    assert PruneMembers(twice.members) == [Member("a", Prune(Array([EMPTY_ARRAY])))] + PruneMembers(twice.members[1..]);
    assert Prune(twice) == once && Prune(once) == Object([]);
  }

  // ---------------------------------------------------------------- own members override block members

  /** Members visited after the references win over what the references put in `acc`: under each
      name the result holds the object's own expanded value, if it has one that is not dropped,
      and otherwise what was there. */
  lemma {:induction false} OwnMembersOverride(store: Store, rank: map<string, nat>, n: nat, ms: seq<Member>, acc: seq<Member>, key: string)
    requires Acyclic(store, rank) && MembersBelow(store, rank, n, ms)
    requires Ascending(ms) && Ascending(acc) && forall m :: m in ms ==> !Reserved(m.key)
    requires ExpandMembers(store, rank, n, ms, acc).Done?
    ensures var r := ExpandMembers(store, rank, n, ms, acc).value;
      var own := Find(ms, key);
      if own == [] || own[0] == EMPTY_ARRAY then Find(r, key) == Find(acc, key)
      else
        && Below(store, rank, n, own[0])
        && ExpandValue(store, rank, n, own[0]).Done?
        && Find(r, key) == [ExpandValue(store, rank, n, own[0]).value]
    decreases |ms|
  {
    if ms != [] {
      var m := ms[0];
      assert MemberBelow(store, rank, n, m);
      var next := ExpandMember(store, rank, n, m, acc).value;
      if m.value != EMPTY_ARRAY {
        PutFind(acc, m.key, ExpandValue(store, rank, n, m.value).value, key);
        PutAscending(acc, m.key, ExpandValue(store, rank, n, m.value).value);
      }
      OwnMembersOverride(store, rank, n, ms[1..], next, key);
      if m.key == key && HasKey(ms[1..], key) {
        var later :| later in ms[1..] && later.key == key;
        var j :| 0 <= j < |ms[1..]| && ms[1..][j] == later;
        BeforeIsStrict(m.key, ms[j + 1].key);
      }
    }
  }

  // ---------------------------------------------------------------- the loops of the source

  method ReplaceVariablesInArray(store: Store, ghost rank: map<string, nat>, ghost n: nat, original: seq<Value>)
    returns (result: Outcome<seq<Value>>)
    requires Acyclic(store, rank) && ItemsBelow(store, rank, n, original)
    ensures result == ExpandItems(store, rank, n, original, [])
    decreases n, 1, original
  {
    var acc: seq<Value> := [];
    for i := 0 to |original|
      invariant ExpandItems(store, rank, n, original, []) == ExpandItems(store, rank, n, original[i..], acc)
    {
      var element := original[i];
      assert element in original && Below(store, rank, n, element);
      if element.Array? {
        if |element.items| > 0 {
          var expanded := ReplaceVariablesInArray(store, rank, n, element.items);
          if expanded.Threw? { return Threw; }
          acc := acc + [Array(expanded.value)];
        }
      } else if element.Object? {
        var expanded := ReplaceVariablesInObject(store, rank, n, element.members);
        if expanded.Threw? { return Threw; }
        acc := acc + [Object(expanded.value)];
      } else if element.Null? {
        return Threw;
      } else {
        acc := acc + [element];
      }
      assert original[i..][1..] == original[i + 1..];
    }
    return Done(acc);
  }

  /** One array, object or scalar, set under its name unless it is an empty array. */
  method SetExpanded(store: Store, ghost rank: map<string, nat>, ghost n: nat, m: Member, acc: seq<Member>)
    returns (result: Outcome<seq<Member>>)
    requires Acyclic(store, rank) && Below(store, rank, n, m.value)
    ensures result == ExpandMember(store, rank, n, m, acc)
    decreases n, 1, m, 0
  {
    match m.value
    case Array(items) =>
      if |items| == 0 { return Done(acc); }
      var expanded := ReplaceVariablesInArray(store, rank, n, items);
      if expanded.Threw? { return Threw; }
      return Done(Put(acc, m.key, Array(expanded.value)));
    case Object(ms) =>
      var expanded := ReplaceVariablesInObject(store, rank, n, ms);
      if expanded.Threw? { return Threw; }
      return Done(Put(acc, m.key, Object(expanded.value)));
    case _ =>
      return Done(Put(acc, m.key, m.value));
  }

  method ReplaceVariablesInObject(store: Store, ghost rank: map<string, nat>, ghost n: nat, original: seq<Member>)
    returns (result: Outcome<seq<Member>>)
    requires Acyclic(store, rank) && MembersBelow(store, rank, n, original)
    ensures result == ExpandMembers(store, rank, n, original, [])
    decreases n, 1, original
  {
    var acc: seq<Member> := [];
    for i := 0 to |original|
      invariant ExpandMembers(store, rank, n, original, []) == ExpandMembers(store, rank, n, original[i..], acc)
    {
      var m := original[i];
      assert original[i..][0] == m && original[i..][1..] == original[i + 1..];
      assert MemberBelow(store, rank, n, m);
      var next: Outcome<seq<Member>>;
      if m.key == VARIABLE_BLOCK {
        var ids := BlockIds(m.value);
        if ids.Threw? { return Threw; }
        next := ReplaceBlocks(store, rank, n, ids.value, acc);
      } else if m.key == RADIUS_ENDPOINT {
        var id := ReferenceText(m.value);
        if id.Threw? { return Threw; }
        if id.value == [] || id.value[0] !in store.endpoints {
          if store.errorLogging { return Threw; }
          return Done(acc);
        }
        next := Done(PutAll(acc, store.endpoints[id.value[0]]));
      } else {
        next := SetExpanded(store, rank, n, m, acc);
      }
      if next.Threw? { return Threw; }
      acc := next.value;
    }
    return Done(acc);
  }

  method ReplaceBlocks(store: Store, ghost rank: map<string, nat>, ghost n: nat, ids: seq<string>, start: seq<Member>)
    returns (result: Outcome<seq<Member>>)
    requires Acyclic(store, rank) && IdsBelow(store, rank, n, ids)
    ensures result == ExpandBlocks(store, rank, n, ids, start)
    decreases n, 0, ids
  {
    var acc := start;
    for i := 0 to |ids|
      invariant ExpandBlocks(store, rank, n, ids, start) == ExpandBlocks(store, rank, n, ids[i..], acc)
    {
      assert ids[i..][1..] == ids[i + 1..];
      if ids[i] in store.blocks {
        var next := ReplaceNestedVariables(store, rank, rank[ids[i]], store.blocks[ids[i]], acc);
        if next.Threw? { return Threw; }
        acc := next.value;
      }
    }
    return Done(acc);
  }

  method ReplaceNestedVariables(store: Store, ghost rank: map<string, nat>, ghost n: nat, vars: seq<Document>, start: seq<Member>)
    returns (result: Outcome<seq<Member>>)
    requires Acyclic(store, rank) && VariablesBelow(store, rank, n, vars)
    ensures result == ExpandVariables(store, rank, n, vars, start)
    decreases n, 1, vars
  {
    var acc := start;
    for i := 0 to |vars|
      invariant ExpandVariables(store, rank, n, vars, start) == ExpandVariables(store, rank, n, vars[i..], acc)
    {
      assert vars[i..][1..] == vars[i + 1..];
      if vars[i].Malformed? { return Threw; }
      var ms := vars[i].members;
      ghost var before := acc;
      for k := 0 to |ms|
        invariant ExpandRaw(store, rank, n, ms, before) == ExpandRaw(store, rank, n, ms[k..], acc)
      {
        assert ms[k..][1..] == ms[k + 1..];
        var next := SetExpanded(store, rank, n, ms[k], acc);
        if next.Threw? { return Threw; }
        acc := next.value;
      }
    }
    return Done(acc);
  }
}
