/** What an expanded document holds under each name (src/APConfig.cpp:85-222).

Expanding an object sets names of the result one after another. The functions `...Writes` list what
is set, in order and without setting anything; the lemmas show that the routines of
`VariableExpansion` leave under each name the last value written there. */
module ExpansionMeaning {
  import opened Json
  import opened Basics
  import opened VariableExpansion

  /** A value that a document or variable sets under a name, expanded first, or a member an endpoint
      sets as it is. `bound` is above the ranks of the blocks the value refers to. */
  datatype Write = Own(key: string, value: Value, bound: nat) | Given(key: string, value: Value)

  /** The last write under a name. */
  ghost function Last(ws: seq<Write>, key: string): (r: seq<Write>)
    ensures |r| <= 1
    ensures r != [] ==> r[0] in ws && r[0].key == key
  {
    if ws == [] then []
    else if Last(ws[1..], key) != [] then Last(ws[1..], key)
    else if ws[0].key == key then [ws[0]]
    else []
  }

  lemma {:induction false} LastIsLast(ws: seq<Write>, key: string, i: nat)
    requires i < |ws| && ws[i].key == key && forall j :: i < j < |ws| ==> ws[j].key != key
    ensures Last(ws, key) == [ws[i]]
  {
    if i > 0 {
      LastIsLast(ws[1..], key, i - 1);
    } else {
      assert Last(ws[1..], key) == [];
    }
  }

  // ---------------------------------------------------------------- what is set, in order

  /** Every member but the empty arrays. */
  ghost function ValueWrites(ms: seq<Member>, n: nat): seq<Write> {
    if ms == [] then []
    else (if ms[0].value == EMPTY_ARRAY then [] else [Own(ms[0].key, ms[0].value, n)]) + ValueWrites(ms[1..], n)
  }

  ghost function Copies(ms: seq<Member>): (r: seq<Write>)
    ensures forall w :: w in r ==> w.Given?
  {
    if ms == [] then [] else [Given(ms[0].key, ms[0].value)] + Copies(ms[1..])
  }

  ghost function VariableWrites(vars: seq<Document>, n: nat): Outcome<seq<Write>> {
    if vars == [] then Done([])
    else if vars[0].Malformed? then Threw
    else
      var rest :- VariableWrites(vars[1..], n);
      Done(ValueWrites(vars[0].members, n) + rest)
  }

  ghost function BlockWrites(store: Store, rank: map<string, nat>, ids: seq<string>): Outcome<seq<Write>>
    requires Acyclic(store, rank)
  {
    if ids == [] then Done([])
    else
      var here :- if ids[0] in store.blocks then VariableWrites(store.blocks[ids[0]], rank[ids[0]]) else Done([]);
      var rest :- BlockWrites(store, rank, ids[1..]);
      Done(here + rest)
  }

  ghost predicate UnknownEndpoint(store: Store, m: Member) {
    m.key == RADIUS_ENDPOINT && !KnownEndpoint(store, m.value)
  }

  ghost function HeadWrites(store: Store, rank: map<string, nat>, n: nat, m: Member): Outcome<seq<Write>>
    requires Acyclic(store, rank)
  {
    if m.key == VARIABLE_BLOCK then
      var ids :- BlockIds(m.value);
      BlockWrites(store, rank, ids)
    else if m.key == RADIUS_ENDPOINT then
      if KnownEndpoint(store, m.value) then Done(Copies(store.endpoints[ReferenceText(m.value).value[0]]))
      else if m.value == Null || store.errorLogging then Threw
      else Done([])
    else Done(ValueWrites([m], n))
  }

  /** An unknown endpoint ends the object: what follows it is neither set nor looked at. */
  ghost function MemberWrites(store: Store, rank: map<string, nat>, n: nat, ms: seq<Member>): Outcome<seq<Write>>
    requires Acyclic(store, rank)
  {
    if ms == [] then Done([])
    else
      var here :- HeadWrites(store, rank, n, ms[0]);
      if UnknownEndpoint(store, ms[0]) then Done(here)
      else
        var rest :- MemberWrites(store, rank, n, ms[1..]);
        Done(here + rest)
  }

  // ---------------------------------------------------------------- performing the writes

  ghost predicate Fits(store: Store, rank: map<string, nat>, ws: seq<Write>) {
    forall w :: w in ws && w.Own? ==> Below(store, rank, w.bound, w.value)
  }

  ghost function Written(store: Store, rank: map<string, nat>, w: Write): Outcome<Value>
    requires Acyclic(store, rank) && (w.Own? ==> Below(store, rank, w.bound, w.value))
  {
    if w.Given? then Done(w.value) else ExpandValue(store, rank, w.bound, w.value)
  }

  ghost predicate Finish(store: Store, rank: map<string, nat>, ws: seq<Write>)
    requires Acyclic(store, rank) && Fits(store, rank, ws)
  {
    forall w :: w in ws ==> Written(store, rank, w).Done?
  }

  /** `r` is `acc` after the writes: they end by an exception if the list of them or one of their values does, and otherwise
      leave the last value written under `key`, or what `acc` held there. */
  ghost predicate Performed(store: Store, rank: map<string, nat>, acc: seq<Member>, ws: Outcome<seq<Write>>, r: Outcome<seq<Member>>,
                            key: string)
    requires Acyclic(store, rank)
  {
    && (ws.Done? ==> Fits(store, rank, ws.value))
    && (r.Done? <==> ws.Done? && Finish(store, rank, ws.value))
    && (r.Done? ==>
          var last := Last(ws.value, key);
          Find(r.value, key) == if last == [] then Find(acc, key) else [Written(store, rank, last[0]).value])
  }

  lemma {:induction false} LastConcat(a: seq<Write>, b: seq<Write>, key: string)
    ensures Last(a + b, key) == if Last(b, key) != [] then Last(b, key) else Last(a, key)
  {
    if a == [] {
      assert a + b == b;
    } else {
      assert (a + b)[1..] == a[1..] + b;
      LastConcat(a[1..], b, key);
    }
  }

  lemma PerformedThen(store: Store, rank: map<string, nat>, acc: seq<Member>, a: seq<Write>, next: seq<Member>,
                      b: Outcome<seq<Write>>, r: Outcome<seq<Member>>, key: string)
    requires Acyclic(store, rank)
    requires Performed(store, rank, acc, Done(a), Done(next), key) && Performed(store, rank, next, b, r, key)
    ensures Performed(store, rank, acc, if b.Threw? then Threw else Done(a + b.value), r, key)
  {
    if b.Done? {
      LastConcat(a, b.value, key);
    }
  }

  /** Nothing comes of writes that end by an exception, whatever was to follow. */
  lemma PerformedThrew(store: Store, rank: map<string, nat>, acc: seq<Member>, a: seq<Write>, b: seq<Write>, key: string)
    requires Acyclic(store, rank) && Performed(store, rank, acc, Done(a), Threw, key) && Fits(store, rank, b)
    ensures Performed(store, rank, acc, Done(a + b), Threw, key)
  {
    var w :| w in a && Written(store, rank, w).Threw?;
    assert w in a + b;
  }

  // ---------------------------------------------------------------- the writes fit

  lemma {:induction false} ValueWritesFit(store: Store, rank: map<string, nat>, n: nat, ms: seq<Member>)
    requires RawBelow(store, rank, n, ms)
    ensures Fits(store, rank, ValueWrites(ms, n))
  {
    if ms != [] {
      ValueWritesFit(store, rank, n, ms[1..]);
    }
  }

  lemma {:induction false} VariableWritesFit(store: Store, rank: map<string, nat>, n: nat, vars: seq<Document>)
    requires VariablesBelow(store, rank, n, vars)
    ensures VariableWrites(vars, n).Done? ==> Fits(store, rank, VariableWrites(vars, n).value)
  {
    if vars != [] && vars[0].Parsed? {
      ValueWritesFit(store, rank, n, vars[0].members);
      VariableWritesFit(store, rank, n, vars[1..]);
    }
  }

  lemma {:induction false} BlockWritesFit(store: Store, rank: map<string, nat>, ids: seq<string>)
    requires Acyclic(store, rank)
    ensures var ws := BlockWrites(store, rank, ids); ws.Done? ==> Fits(store, rank, ws.value)
  {
    if ids != [] {
      if ids[0] in store.blocks {
        VariableWritesFit(store, rank, rank[ids[0]], store.blocks[ids[0]]);
      }
      BlockWritesFit(store, rank, ids[1..]);
    }
  }

  lemma HeadWritesFit(store: Store, rank: map<string, nat>, n: nat, m: Member)
    requires Acyclic(store, rank) && MemberBelow(store, rank, n, m)
    ensures var ws := HeadWrites(store, rank, n, m); ws.Done? ==> Fits(store, rank, ws.value)
  {
    if m.key == VARIABLE_BLOCK {
      if BlockIds(m.value).Done? {
        BlockWritesFit(store, rank, BlockIds(m.value).value);
      }
    } else if m.key != RADIUS_ENDPOINT {
      ValueWritesFit(store, rank, n, [m]);
    }
  }

  lemma {:induction false} MemberWritesFit(store: Store, rank: map<string, nat>, n: nat, ms: seq<Member>)
    requires Acyclic(store, rank) && MembersBelow(store, rank, n, ms)
    ensures var ws := MemberWrites(store, rank, n, ms); ws.Done? ==> Fits(store, rank, ws.value)
  {
    if ms != [] {
      HeadWritesFit(store, rank, n, ms[0]);
      MemberWritesFit(store, rank, n, ms[1..]);
    }
  }

  // ---------------------------------------------------------------- the routines perform them

  lemma {:induction false} LastOfOne(w: Write, key: string)
    ensures Last([w], key) == if w.key == key then [w] else []
  {
    assert [w][1..] == [];
  }

  lemma MemberPerformed(store: Store, rank: map<string, nat>, n: nat, m: Member, acc: seq<Member>, key: string)
    requires Acyclic(store, rank) && Below(store, rank, n, m.value)
    ensures Performed(store, rank, acc, Done(ValueWrites([m], n)), ExpandMember(store, rank, n, m, acc), key)
  {
    assert [m][1..] == [] && ValueWrites([], n) == [];
    if m.value != EMPTY_ARRAY {
      var w := Own(m.key, m.value, n);
      assert ValueWrites([m], n) == [w];
      assert w in [w];
      LastOfOne(w, key);
      var v := ExpandValue(store, rank, n, m.value);
      if v.Done? {
        PutFind(acc, m.key, v.value, key);
      }
    }
  }

  lemma PutPerformed(store: Store, rank: map<string, nat>, w: Write, acc: seq<Member>, key: string)
    requires Acyclic(store, rank) && w.Given?
    ensures Performed(store, rank, acc, Done([w]), Done(Put(acc, w.key, w.value)), key)
  {
    LastOfOne(w, key);
    PutFind(acc, w.key, w.value, key);
  }

  lemma {:induction false} PutAllPerformed(store: Store, rank: map<string, nat>, ms: seq<Member>, acc: seq<Member>, key: string)
    requires Acyclic(store, rank)
    ensures Performed(store, rank, acc, Done(Copies(ms)), Done(PutAll(acc, ms)), key)
    decreases |ms|
  {
    if ms != [] {
      var w := Given(ms[0].key, ms[0].value);
      var next := Put(acc, ms[0].key, ms[0].value);
      PutPerformed(store, rank, w, acc, key);
      PutAllPerformed(store, rank, ms[1..], next, key);
      PerformedThen(store, rank, acc, [w], next, Done(Copies(ms[1..])), Done(PutAll(next, ms[1..])), key);
    }
  }

  /** The members of a variable: under each name the last value that is no empty array. */
  lemma {:induction false} RawPerformed(store: Store, rank: map<string, nat>, n: nat, ms: seq<Member>, acc: seq<Member>, key: string)
    requires Acyclic(store, rank) && RawBelow(store, rank, n, ms)
    ensures Performed(store, rank, acc, Done(ValueWrites(ms, n)), ExpandRaw(store, rank, n, ms, acc), key)
    decreases |ms|
  {
    if ms != [] {
      var rest := ValueWrites(ms[1..], n);
      ValueWritesSplit(ms, n);
      MemberPerformed(store, rank, n, ms[0], acc, key);
      var next := ExpandMember(store, rank, n, ms[0], acc);
      if next.Done? {
        RawPerformed(store, rank, n, ms[1..], next.value, key);
        PerformedThen(store, rank, acc, ValueWrites([ms[0]], n), next.value, Done(rest), ExpandRaw(store, rank, n, ms, acc), key);
      } else {
        ValueWritesFit(store, rank, n, ms[1..]);
        PerformedThrew(store, rank, acc, ValueWrites([ms[0]], n), rest, key);
      }
    }
  }

  lemma ValueWritesSplit(ms: seq<Member>, n: nat)
    requires ms != []
    ensures ValueWrites(ms, n) == ValueWrites([ms[0]], n) + ValueWrites(ms[1..], n)
  {
    assert [ms[0]][1..] == [];
  }

  /** The variables of a block: each name holds the last value any of them gives it. */
  lemma {:induction false} VariablesPerformed(store: Store, rank: map<string, nat>, n: nat, vars: seq<Document>, acc: seq<Member>, key: string)
    requires Acyclic(store, rank) && VariablesBelow(store, rank, n, vars)
    ensures Performed(store, rank, acc, VariableWrites(vars, n), ExpandVariables(store, rank, n, vars, acc), key)
    decreases |vars|
  {
    if vars != [] && vars[0].Parsed? {
      var here, rest := ValueWrites(vars[0].members, n), VariableWrites(vars[1..], n);
      RawPerformed(store, rank, n, vars[0].members, acc, key);
      var next := ExpandRaw(store, rank, n, vars[0].members, acc);
      if next.Done? {
        VariablesPerformed(store, rank, n, vars[1..], next.value, key);
        PerformedThen(store, rank, acc, here, next.value, rest, ExpandVariables(store, rank, n, vars, acc), key);
      } else if rest.Done? {
        VariableWritesFit(store, rank, n, vars[1..]);
        PerformedThrew(store, rank, acc, here, rest.value, key);
      }
    }
  }

  /** Several blocks: a later one wins over an earlier one, and an unknown id sets nothing. */
  lemma {:induction false} BlocksPerformed(store: Store, rank: map<string, nat>, n: nat, ids: seq<string>, acc: seq<Member>, key: string)
    requires Acyclic(store, rank) && IdsBelow(store, rank, n, ids)
    ensures Performed(store, rank, acc, BlockWrites(store, rank, ids), ExpandBlocks(store, rank, n, ids, acc), key)
    decreases |ids|
  {
    if ids != [] {
      var rest := BlockWrites(store, rank, ids[1..]);
      if ids[0] in store.blocks {
        var vars := store.blocks[ids[0]];
        var here := VariableWrites(vars, rank[ids[0]]);
        VariablesPerformed(store, rank, rank[ids[0]], vars, acc, key);
        var next := ExpandVariables(store, rank, rank[ids[0]], vars, acc);
        if next.Done? {
          BlocksPerformed(store, rank, n, ids[1..], next.value, key);
          PerformedThen(store, rank, acc, here.value, next.value, rest, ExpandBlocks(store, rank, n, ids, acc), key);
        } else if here.Done? && rest.Done? {
          BlockWritesFit(store, rank, ids[1..]);
          PerformedThrew(store, rank, acc, here.value, rest.value, key);
        }
      } else {
        BlocksPerformed(store, rank, n, ids[1..], acc, key);
        if rest.Done? {
          assert [] + rest.value == rest.value;
        }
      }
    }
  }

  lemma HeadPerformed(store: Store, rank: map<string, nat>, n: nat, m: Member, acc: seq<Member>, key: string)
    requires Acyclic(store, rank) && MemberBelow(store, rank, n, m)
    ensures var r := ExpandHead(store, rank, n, m, acc);
      && Performed(store, rank, acc, HeadWrites(store, rank, n, m), if r.Threw? then Threw else Done(r.value.members), key)
      && (r.Done? ==> (r.value.stop <==> UnknownEndpoint(store, m)))
  {
    if m.key == VARIABLE_BLOCK {
      if BlockIds(m.value).Done? {
        BlocksPerformed(store, rank, n, BlockIds(m.value).value, acc, key);
      }
    } else if m.key == RADIUS_ENDPOINT {
      if KnownEndpoint(store, m.value) {
        PutAllPerformed(store, rank, store.endpoints[ReferenceText(m.value).value[0]], acc, key);
      }
    } else {
      MemberPerformed(store, rank, n, m, acc, key);
    }
  }

  /** The members of an object: its own values, its blocks and its endpoints, each name holding the last value written. */
  lemma {:induction false} MembersPerformed(store: Store, rank: map<string, nat>, n: nat, ms: seq<Member>, acc: seq<Member>, key: string)
    requires Acyclic(store, rank) && MembersBelow(store, rank, n, ms)
    ensures Performed(store, rank, acc, MemberWrites(store, rank, n, ms), ExpandMembers(store, rank, n, ms, acc), key)
    decreases |ms|
  {
    if ms != [] {
      assert MemberBelow(store, rank, n, ms[0]);
      var here, rest := HeadWrites(store, rank, n, ms[0]), MemberWrites(store, rank, n, ms[1..]);
      HeadPerformed(store, rank, n, ms[0], acc, key);
      var next := ExpandHead(store, rank, n, ms[0], acc);
      if next.Done? && !next.value.stop {
        MembersPerformed(store, rank, n, ms[1..], next.value.members, key);
        PerformedThen(store, rank, acc, here.value, next.value.members, rest, ExpandMembers(store, rank, n, ms, acc), key);
      } else if next.Threw? && here.Done? && !UnknownEndpoint(store, ms[0]) && rest.Done? {
        MemberWritesFit(store, rank, n, ms[1..]);
        PerformedThrew(store, rank, acc, here.value, rest.value, key);
      }
    }
  }

  // ---------------------------------------------------------------- main results

  /** An object expands to an object that holds under each name the last value written there, and
      ends by an exception exactly when a reference cannot be read or one of the values written ends so. */
  lemma ObjectMeans(store: Store, rank: map<string, nat>, n: nat, ms: seq<Member>, key: string)
    requires Acyclic(store, rank) && Below(store, rank, n, Object(ms))
    ensures var ws := MemberWrites(store, rank, n, ms);
      var r := ExpandValue(store, rank, n, Object(ms));
      && (ws.Done? ==> Fits(store, rank, ws.value))
      && (r.Done? <==> ws.Done? && Finish(store, rank, ws.value))
      && (r.Done? ==>
            && r.value.Object?
            && var last := Last(ws.value, key);
               Find(r.value.members, key) == if last == [] then [] else [Written(store, rank, last[0]).value])
  {
    MembersPerformed(store, rank, n, ms, [], key);
  }

  /** The items of an array that are not dropped. */
  ghost function Kept(items: seq<Value>): (r: seq<Value>)
    ensures forall x :: x in r <==> x in items && x != EMPTY_ARRAY
  {
    if items == [] then []
    else if items[0] == EMPTY_ARRAY then Kept(items[1..])
    else [items[0]] + Kept(items[1..])
  }

  /** An array expands item by item, in order and without the empty arrays, and ends by an
      exception exactly when it holds a null or one of the items ends so. */
  lemma ArrayMeans(store: Store, rank: map<string, nat>, n: nat, items: seq<Value>)
    requires Acyclic(store, rank) && Below(store, rank, n, Array(items))
    ensures var kept := Kept(items);
      var r := ExpandValue(store, rank, n, Array(items));
      && (r.Done? <==> Null !in items && forall x :: x in kept ==> ExpandValue(store, rank, n, x).Done?)
      && (r.Done? ==>
            && r.value.Array? && |r.value.items| == |kept|
            && forall i :: 0 <= i < |kept| ==> r.value.items[i] == ExpandValue(store, rank, n, kept[i]).value)
  {
    ItemsMean(store, rank, n, items, []);
  }

  lemma {:induction false} ItemsMean(store: Store, rank: map<string, nat>, n: nat, items: seq<Value>, acc: seq<Value>)
    requires Acyclic(store, rank) && ItemsBelow(store, rank, n, items)
    ensures var kept := Kept(items);
      var r := ExpandItems(store, rank, n, items, acc);
      && (r.Done? <==> Null !in items && forall x :: x in kept ==> ExpandValue(store, rank, n, x).Done?)
      && (r.Done? ==>
            && |r.value| == |acc| + |kept| && r.value[..|acc|] == acc
            && forall i :: 0 <= i < |kept| ==> r.value[|acc| + i] == ExpandValue(store, rank, n, kept[i]).value)
    decreases |items|
  {
    if items != [] {
      var x := items[0];
      assert items == [x] + items[1..];
      if x == EMPTY_ARRAY {
        ItemsMean(store, rank, n, items[1..], acc);
      } else if x != Null {
        var v := ExpandValue(store, rank, n, x);
        assert x in Kept(items);
        if v.Done? {
          ItemsMean(store, rank, n, items[1..], acc + [v.value]);
          var r := ExpandItems(store, rank, n, items, acc);
          if r.Done? {
            assert r.value[..|acc|] == r.value[..|acc| + 1][..|acc|];
            assert r.value[|acc|] == r.value[..|acc| + 1][|acc|];
          }
        }
      }
    }
  }

  // ---------------------------------------------------------------- references

  /** The values that convert to the text `id`. */
  ghost predicate Names(v: Value, id: string) {
    v == Text(id) || v == Number(id) || (v == Bool(true) && id == "true") || (v == Bool(false) && id == "false")
  }

  /** A list of such values names the ids in order; a single value names one; a null cannot be read. */
  lemma {:induction false} ListNamesBlocks(items: seq<Value>, ids: seq<string>)
    requires |items| == |ids| && forall i :: 0 <= i < |ids| ==> Names(items[i], ids[i])
    ensures BlockIds(Array(items)) == Done(ids)
  {
    if items != [] {
      ListNamesBlocks(items[1..], ids[1..]);
      assert ids == [ids[0]] + ids[1..];
    }
  }

  lemma {:induction false} NullNamesNoBlock(items: seq<Value>)
    requires Null in items
    ensures BlockIds(Array(items)).Threw?
  {
    if items[0] != Null {
      NullNamesNoBlock(items[1..]);
    }
  }

  lemma BlocksOf(store: Store, rank: map<string, nat>, n: nat, m: Member)
    requires Acyclic(store, rank) && m.key == VARIABLE_BLOCK && BlockIds(m.value).Done?
    ensures MemberWrites(store, rank, n, [m]) == BlockWrites(store, rank, BlockIds(m.value).value)
  {
    var here := HeadWrites(store, rank, n, m);
    assert [m][1..] == [] && MemberWrites(store, rank, n, []) == Done([]);
    if here.Done? {
      assert here.value + [] == here.value;
    }
  }

  lemma {:induction false} LastBlock(store: Store, rank: map<string, nat>, ids: seq<string>, id: string, key: string)
    requires Acyclic(store, rank) && id in store.blocks && BlockWrites(store, rank, ids + [id]).Done?
    requires var here := VariableWrites(store.blocks[id], rank[id]); here.Done? && Last(here.value, key) != []
    ensures Last(BlockWrites(store, rank, ids + [id]).value, key) == Last(VariableWrites(store.blocks[id], rank[id]).value, key)
  {
    var all := ids + [id];
    if ids == [] {
      assert all[1..] == [];
      var here := VariableWrites(store.blocks[id], rank[id]).value;
      assert here + [] == here;
    } else {
      assert all[1..] == ids[1..] + [id];
      LastBlock(store, rank, ids[1..], id, key);
      var here := if ids[0] in store.blocks then VariableWrites(store.blocks[ids[0]], rank[ids[0]]).value else [];
      LastConcat(here, BlockWrites(store, rank, all[1..]).value, key);
    }
  }

  /** A document that only refers to blocks holds, under each name that the last of them gives a
      value without references, that value with its empty inner arrays dropped. */
  lemma LastBlockShows(store: Store, rank: map<string, nat>, n: nat, items: seq<Value>, ids: seq<string>, id: string, key: string)
    requires Acyclic(store, rank) && id in store.blocks
    requires |items| == |ids| + 1 && forall i :: 0 <= i < |items| ==> Names(items[i], (ids + [id])[i])
    requires var here := VariableWrites(store.blocks[id], rank[id]);
      here.Done? && Last(here.value, key) != [] && var v := Last(here.value, key)[0].value; Clean(v) && Canonical(v)
    requires var v := Object([Member(VARIABLE_BLOCK, Array(items))]);
      Below(store, rank, n, v) && ExpandValue(store, rank, n, v).Done?
    ensures var v := Object([Member(VARIABLE_BLOCK, Array(items))]);
      && ExpandValue(store, rank, n, v).value.Object?
      && Find(ExpandValue(store, rank, n, v).value.members, key)
         == [Prune(Last(VariableWrites(store.blocks[id], rank[id]).value, key)[0].value)]
  {
    var m := Member(VARIABLE_BLOCK, Array(items));
    ListNamesBlocks(items, ids + [id]);
    BlocksOf(store, rank, n, m);
    ObjectMeans(store, rank, n, [m], key);
    LastBlock(store, rank, ids, id, key);
    VariableWritesFit(store, rank, rank[id], store.blocks[id]);
    VariableWritesAreOwn(store.blocks[id], rank[id]);
    var w := Last(VariableWrites(store.blocks[id], rank[id]).value, key)[0];
    CleanIsPruned(store, rank, w.bound, w.value);
  }

  lemma {:induction false} VariableWritesAreOwn(vars: seq<Document>, n: nat)
    requires VariableWrites(vars, n).Done?
    ensures forall w :: w in VariableWrites(vars, n).value ==> w.Own?
  {
    if vars != [] {
      ValueWritesAreOwn(vars[0].members, n);
      VariableWritesAreOwn(vars[1..], n);
    }
  }

  lemma {:induction false} ValueWritesAreOwn(ms: seq<Member>, n: nat)
    ensures forall w :: w in ValueWrites(ms, n) ==> w.Own?
  {
    if ms != [] {
      ValueWritesAreOwn(ms[1..], n);
    }
  }

  /** A document that refers to one block of one variable expands to that variable, when the
      variable has no references itself. */
  lemma BlockReplacesDocument(store: Store, rank: map<string, nat>, id: string, ref: Value, ms: seq<Member>)
    requires Acyclic(store, rank) && id in store.blocks && store.blocks[id] == [Parsed(ms)] && Names(ref, id)
    requires Clean(Object(ms)) && Canonical(Object(ms)) && NullFree(Object(ms))
    ensures var v := Object([Member(VARIABLE_BLOCK, ref)]);
      && Below(store, rank, rank[id] + 1, v)
      && ExpandValue(store, rank, rank[id] + 1, v) == Done(Object(PruneMembers(ms)))
  {
    OneVariable(store, rank, rank[id], ms);
    OneReference(store, rank, id, ref, PruneMembers(ms));
  }

  lemma OneVariable(store: Store, rank: map<string, nat>, n: nat, ms: seq<Member>)
    requires Acyclic(store, rank) && Clean(Object(ms)) && Canonical(Object(ms)) && NullFree(Object(ms))
    ensures VariablesBelow(store, rank, n, [Parsed(ms)])
    ensures ExpandVariables(store, rank, n, [Parsed(ms)], []) == Done(PruneMembers(ms))
  {
    CleanIsBelow(store, rank, n, Object(ms));
    RawIsMembers(store, rank, n, ms, []);
    MembersArePruned(store, rank, n, ms, []);
    assert [] + PruneMembers(ms) == PruneMembers(ms);
    assert [Parsed(ms)][1..] == [];
    assert ExpandVariables(store, rank, n, [], PruneMembers(ms)) == Done(PruneMembers(ms));
  }

  lemma {:induction false} OneReference(store: Store, rank: map<string, nat>, id: string, ref: Value, r: seq<Member>)
    requires Acyclic(store, rank) && id in store.blocks && Names(ref, id)
    requires ExpandVariables(store, rank, rank[id], store.blocks[id], []) == Done(r)
    ensures var v := Object([Member(VARIABLE_BLOCK, ref)]);
      Below(store, rank, rank[id] + 1, v) && ExpandValue(store, rank, rank[id] + 1, v) == Done(Object(r))
  {
    var n := rank[id] + 1;
    var m := Member(VARIABLE_BLOCK, ref);
    assert BlockIds(ref) == Done([id]) && [id][1..] == [] && [m][1..] == [];
    assert IdsBelow(store, rank, n, [id]) && MemberBelow(store, rank, n, m);
    assert MembersBelow(store, rank, n, [m]) && Below(store, rank, n, Object([m]));
    assert ExpandBlocks(store, rank, n, [id], []) == ExpandBlocks(store, rank, n, [], r) == Done(r);
    assert ExpandHead(store, rank, n, m, []) == Done(Progress(r, false));
    assert ExpandMembers(store, rank, n, [m], []) == ExpandMembers(store, rank, n, [], r) == Done(r);
  }

  lemma {:induction false} RawIsMembers(store: Store, rank: map<string, nat>, n: nat, ms: seq<Member>, acc: seq<Member>)
    requires Acyclic(store, rank) && RawBelow(store, rank, n, ms) && MembersBelow(store, rank, n, ms)
    requires forall m :: m in ms ==> !Reserved(m.key)
    ensures ExpandRaw(store, rank, n, ms, acc) == ExpandMembers(store, rank, n, ms, acc)
    decreases |ms|
  {
    if ms != [] {
      var next := ExpandMember(store, rank, n, ms[0], acc);
      assert MemberBelow(store, rank, n, ms[0]);
      if next.Done? {
        RawIsMembers(store, rank, n, ms[1..], next.value);
      }
    }
  }
}
