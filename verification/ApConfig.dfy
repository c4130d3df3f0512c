/** Resolution of the configuration of one device (src/APConfig.cpp).

Configuration elements are collected along device, venue, entity and parents,
kept by weight, and the heaviest element that defines a section supplies it. */
module ApConfig {
  import opened Basics
  import opened Json
  import opened Tables
  import opened VariableExpansion

  // ---------------------------------------------------------------- stable order by weight

  ghost predicate Sorted(s: seq<Element>) {
    forall i, j :: 0 <= i < j < |s| ==> s[i].weight >= s[j].weight
  }

  ghost function ByWeight(s: seq<Element>, w: nat): seq<Element> {
    if s == [] then []
    else if s[0].weight == w then [s[0]] + ByWeight(s[1..], w)
    else ByWeight(s[1..], w)
  }

  lemma {:induction false} ByWeightMembers(s: seq<Element>, w: nat)
    ensures forall e :: e in ByWeight(s, w) <==> e in s && e.weight == w
  {
    if s != [] {
      ByWeightMembers(s[1..], w);
    }
  }

  /** `s` is `added` in non-increasing order of weight, equal weights in the order added. */
  ghost predicate IsStableSort(s: seq<Element>, added: seq<Element>) {
    Sorted(s) && forall w: nat :: ByWeight(s, w) == ByWeight(added, w)
  }

  lemma {:induction false} ByWeightConcat(a: seq<Element>, b: seq<Element>, w: nat)
    ensures ByWeight(a + b, w) == ByWeight(a, w) + ByWeight(b, w)
  {
    if a == [] {
      assert a + b == b;
    } else {
      ByWeightConcat(a[1..], b, w);
      assert (a + b)[1..] == a[1..] + b;
      var x, y, z := [a[0]], ByWeight(a[1..], w), ByWeight(b, w);
      assert x + (y + z) == x + y + z;
    }
  }

  lemma {:induction false} NoneOfWeight(s: seq<Element>, w: nat)
    requires forall i :: 0 <= i < |s| ==> s[i].weight != w
    ensures ByWeight(s, w) == []
  {
    if s != [] {
      NoneOfWeight(s[1..], w);
    }
  }

  /** The place `lower_bound` finds: after every element at least as heavy. */
  ghost predicate IsInsertPoint(s: seq<Element>, w: nat, p: nat) {
    && p <= |s|
    && (forall i :: 0 <= i < p ==> s[i].weight >= w)
    && (forall i :: p <= i < |s| ==> s[i].weight < w)
  }

  lemma {:induction false} InsertByWeight(s: seq<Element>, e: Element, p: nat, w: nat)
    requires IsInsertPoint(s, e.weight, p)
    ensures ByWeight(s[..p] + [e] + s[p..], w) == ByWeight(s, w) + if w == e.weight then [e] else []
  {
    var front, back := s[..p], s[p..];
    ByWeightConcat(front + [e], back, w);
    ByWeightConcat(front, [e], w);
    ByWeightConcat(front, back, w);
    assert front + back == s;
    assert [e][1..] == [];
    if w == e.weight {
      NoneOfWeight(back, w);
      assert ByWeight([e], w) == [e] + [];
    }
  }

  /** Inserting at that place extends the stable order by one element. */
  lemma {:induction false} InsertKeepsStable(s: seq<Element>, added: seq<Element>, e: Element, p: nat)
    requires IsStableSort(s, added) && IsInsertPoint(s, e.weight, p)
    ensures IsStableSort(s[..p] + [e] + s[p..], added + [e])
  {
    forall w: nat ensures ByWeight(s[..p] + [e] + s[p..], w) == ByWeight(added + [e], w) {
      InsertByWeight(s, e, p, w);
      ByWeightConcat(added, [e], w);
      assert [e][1..] == [];
      assert ByWeight([e], w) == if w == e.weight then [e] else [];
    }
  }

  // ---------------------------------------------------------------- which element claims a section

  predicate Defines(e: Element, name: string) {
    e.document.Parsed? && Find(e.document.members, name) != []
  }

  /** The first element of a list that defines a section. */
  function First(s: seq<Element>, name: string): (r: seq<Element>)
    ensures |r| <= 1
    ensures r == [] <==> forall e :: e in s ==> !Defines(e, name)
    ensures r != [] ==> r[0] in s && Defines(r[0], name)
  {
    if s == [] then []
    else if Defines(s[0], name) then [s[0]]
    else First(s[1..], name)
  }

  /** The element that should claim a section, read off the order of addition: the heaviest
      one that defines it, and the earliest of those. */
  function Claimant(added: seq<Element>, name: string): (r: seq<Element>)
    ensures |r| <= 1
    ensures r == [] <==> forall e :: e in added ==> !Defines(e, name)
    ensures r != [] ==> r[0] in added && Defines(r[0], name)
    ensures r != [] ==> forall e :: e in added && Defines(e, name) ==> e.weight <= r[0].weight
  {
    if added == [] then []
    else
      var before := added[..|added| - 1];
      var last := added[|added| - 1];
      assert added == before + [last];
      var best := Claimant(before, name);
      if Defines(last, name) && (best == [] || last.weight > best[0].weight) then [last] else best
  }

  lemma {:induction false} ClaimantIsEarliest(added: seq<Element>, name: string)
    requires Claimant(added, name) != []
    ensures Claimant(added, name) == First(ByWeight(added, Claimant(added, name)[0].weight), name)
  {
    var before := added[..|added| - 1];
    var last := added[|added| - 1];
    assert added == before + [last];
    var best := Claimant(before, name);
    var w := Claimant(added, name)[0].weight;
    ByWeightMembers(before, w);
    ByWeightConcat(before, [last], w);
    if Claimant(added, name) == best {
      ClaimantIsEarliest(before, name);
      FirstConcat(ByWeight(before, w), ByWeight([last], w), name);
    } else {
      assert First(ByWeight(before, w), name) == [];
      FirstConcat(ByWeight(before, w), ByWeight([last], w), name);
      assert [last][1..] == [] && ByWeight([last], w) == [last];
    }
  }

  lemma {:induction false} FirstConcat(a: seq<Element>, b: seq<Element>, name: string)
    ensures First(a + b, name) == if First(a, name) != [] then First(a, name) else First(b, name)
  {
    if a == [] {
      assert a + b == b;
    } else {
      assert (a + b)[1..] == a[1..] + b;
      FirstConcat(a[1..], b, name);
    }
  }

  lemma {:induction false} FirstIsHeaviest(s: seq<Element>, name: string)
    requires Sorted(s) && First(s, name) != []
    ensures forall e :: e in s && Defines(e, name) ==> e.weight <= First(s, name)[0].weight
    ensures First(s, name) == First(ByWeight(s, First(s, name)[0].weight), name)
  {
    var w := First(s, name)[0].weight;
    if Defines(s[0], name) {
      assert ByWeight(s, w)[0] == s[0];
    } else {
      FirstIsHeaviest(s[1..], name);
      if s[0].weight == w {
        assert ByWeight(s, w)[1..] == ByWeight(s[1..], w);
      }
    }
  }

  /** The first definer in the stable order is the heaviest, earliest added one. */
  lemma {:induction false} FirstIsClaimant(s: seq<Element>, added: seq<Element>, name: string)
    requires IsStableSort(s, added)
    ensures First(s, name) == Claimant(added, name)
  {
    forall e ensures e in s <==> e in added {
      ByWeightMembers(s, e.weight);
      ByWeightMembers(added, e.weight);
      assert e in ByWeight(s, e.weight) <==> e in ByWeight(added, e.weight);
    }
    if First(s, name) != [] && Claimant(added, name) != [] {
      FirstIsHeaviest(s, name);
      ClaimantIsEarliest(added, name);
    }
  }

  // ---------------------------------------------------------------- assembling the sections

  /** The sections emitted so far, the names seen, and whether an exception ended the run. */
  datatype Assembly = Assembly(configuration: seq<Member>, seen: set<string>, stopped: bool)

  /** Where the documents of the elements may be expanded. */
  ghost predicate Expandable(store: Store, rank: map<string, nat>, n: nat, s: seq<Element>) {
    forall e :: e in s && e.document.Parsed? ==> RawBelow(store, rank, n, e.document.members)
  }

  /** What a claimed section contributes: arrays and objects are emitted expanded, a scalar
      emits nothing. */
  function Emit(store: Store, rank: map<string, nat>, n: nat, v: Value): Outcome<seq<Value>>
    requires Acyclic(store, rank) && Below(store, rank, n, v)
  {
    if v.Array? || v.Object? then
      var r :- ExpandValue(store, rank, n, v);
      Done([r])
    else Done([])
  }

  /** Sections of one element: a name that was seen before is ignored. */
  function AssembleMembers(store: Store, rank: map<string, nat>, n: nat, ms: seq<Member>, a: Assembly): Assembly
    requires Acyclic(store, rank) && RawBelow(store, rank, n, ms)
    decreases |ms|
  {
    if ms == [] then a
    else if ms[0].key in a.seen then AssembleMembers(store, rank, n, ms[1..], a)
    else
      var emitted := Emit(store, rank, n, ms[0].value);
      if emitted.Threw? then a.(seen := a.seen + {ms[0].key}, stopped := true)
      else
        var configuration := if emitted.value == [] then a.configuration
                             else Put(a.configuration, ms[0].key, emitted.value[0]);
        AssembleMembers(store, rank, n, ms[1..], a.(configuration := configuration, seen := a.seen + {ms[0].key}))
  }

  function Assemble(store: Store, rank: map<string, nat>, n: nat, s: seq<Element>, a: Assembly): Assembly
    requires Acyclic(store, rank) && Expandable(store, rank, n, s)
    decreases |s|
  {
    if s == [] || a.stopped then a
    else if s[0].document.Malformed? then a.(stopped := true)
    else Assemble(store, rank, n, s[1..], AssembleMembers(store, rank, n, s[0].document.members, a))
  }

  /** The section `name` as a run over `s` has to leave it, given what was there before. */
  ghost function Expected(store: Store, rank: map<string, nat>, n: nat, s: seq<Element>, a: Assembly, name: string)
    : Outcome<seq<Value>>
    requires Acyclic(store, rank) && Expandable(store, rank, n, s)
  {
    if name in a.seen || First(s, name) == [] then Done(Find(a.configuration, name))
    else
      var v := Find(First(s, name)[0].document.members, name)[0];
      if v.Array? || v.Object? then
        var r :- ExpandValue(store, rank, n, v);
        Done([r])
      else Done(Find(a.configuration, name))
  }

  /** Either the section is untouched (the run stopped first), or it is what the first definer gives. */
  ghost predicate Settled(before: Assembly, after: Assembly, expected: Outcome<seq<Value>>, name: string) {
    && (Find(after.configuration, name) == Find(before.configuration, name)
        || expected == Done(Find(after.configuration, name)))
    && (!after.stopped ==> expected == Done(Find(after.configuration, name)))
  }

  ghost predicate UniqueNames(ms: seq<Member>) {
    forall i, j :: 0 <= i < j < |ms| ==> ms[i].key != ms[j].key
  }

  lemma {:induction false} MembersSettle(store: Store, rank: map<string, nat>, n: nat, ms: seq<Member>, a: Assembly, name: string)
    requires Acyclic(store, rank) && RawBelow(store, rank, n, ms) && UniqueNames(ms) && !a.stopped
    ensures var r := AssembleMembers(store, rank, n, ms, a);
      && a.seen <= r.seen
      && (name in r.seen ==> name in a.seen || HasKey(ms, name))
      && (!r.stopped && HasKey(ms, name) ==> name in r.seen)
      && (name in a.seen || !HasKey(ms, name) ==> Find(r.configuration, name) == Find(a.configuration, name))
      && (name !in a.seen && HasKey(ms, name) ==>
            var emitted := Emit(store, rank, n, Find(ms, name)[0]);
            Settled(a, r, if emitted == Done([]) then Done(Find(a.configuration, name)) else emitted, name))
    decreases |ms|
  {
    if ms != [] {
      var m := ms[0];
      assert forall x :: x in ms[1..] ==> x.key != m.key;
      if m.key in a.seen {
        MembersSettle(store, rank, n, ms[1..], a, name);
      } else {
        var emitted := Emit(store, rank, n, m.value);
        if emitted.Done? {
          var configuration := if emitted.value == [] then a.configuration
                               else Put(a.configuration, m.key, emitted.value[0]);
          if emitted.value != [] {
            PutFind(a.configuration, m.key, emitted.value[0], name);
          }
          MembersSettle(store, rank, n, ms[1..], a.(configuration := configuration, seen := a.seen + {m.key}), name);
        }
      }
    }
  }

  /** A run over the elements gives each section the value of the first element that defines it. */
  lemma {:induction false} AssembleSettles(store: Store, rank: map<string, nat>, n: nat, s: seq<Element>, a: Assembly, name: string)
    requires Acyclic(store, rank) && Expandable(store, rank, n, s) && !a.stopped
    requires forall e :: e in s && e.document.Parsed? ==> UniqueNames(e.document.members)
    ensures Settled(a, Assemble(store, rank, n, s, a), Expected(store, rank, n, s, a, name), name)
    decreases |s|
  {
    if s != [] && s[0].document.Parsed? {
      var ms := s[0].document.members;
      MembersSettle(store, rank, n, ms, a, name);
      var next := AssembleMembers(store, rank, n, ms, a);
      assert Assemble(store, rank, n, s, a) == Assemble(store, rank, n, s[1..], next);
      if !next.stopped {
        AssembleSettles(store, rank, n, s[1..], next, name);
      }
      if !Defines(s[0], name) {
        assert First(s, name) == First(s[1..], name);
      } else {
        assert First(s, name) == [s[0]];
      }
    }
  }

  /** What the section `name` may hold when its claimant is known: the expanded array or object, or nothing if the
      run stopped first. A scalar shows nothing, and keeps lighter elements from showing. */
  ghost predicate Claimed(store: Store, rank: map<string, nat>, n: nat, claimant: seq<Element>, name: string, found: seq<Value>,
                          stopped: bool)
    requires Acyclic(store, rank)
    requires |claimant| <= 1 && (claimant != [] ==> Defines(claimant[0], name))
  {
    if claimant == [] then found == []
    else
      var v := Find(claimant[0].document.members, name)[0];
      && Below(store, rank, n, v)
      && (v.Array? || v.Object? ==>
            && (!stopped ==> ExpandValue(store, rank, n, v).Done? && found == [ExpandValue(store, rank, n, v).value])
            && (found != [] ==> ExpandValue(store, rank, n, v).Done? && found == [ExpandValue(store, rank, n, v).value]))
      && (!v.Array? && !v.Object? ==> found == [])
  }

  /** Main result on selection: over the elements in the order added, each section comes from the
      heaviest element defining it, ties to the earliest; nothing lighter shows through, even when
      the claiming value is a scalar and emits nothing. */
  lemma SectionComesFromClaimant(store: Store, rank: map<string, nat>, n: nat, s: seq<Element>, added: seq<Element>, name: string)
    requires Acyclic(store, rank) && Expandable(store, rank, n, s) && IsStableSort(s, added)
    requires forall e :: e in s && e.document.Parsed? ==> UniqueNames(e.document.members)
    ensures var r := Assemble(store, rank, n, s, Assembly([], {}, false));
      Claimed(store, rank, n, Claimant(added, name), name, Find(r.configuration, name), r.stopped)
  {
    FirstIsClaimant(s, added, name);
    AssembleSettles(store, rank, n, s, Assembly([], {}, false), name);
    if Claimant(added, name) != [] {
      var e := First(s, name)[0];
      assert Member(name, Find(e.document.members, name)[0]) in e.document.members;
    }
  }

  // ---------------------------------------------------------------- where the run stops

  /** The sections in the order they are visited, up to the first element whose text is no object. */
  ghost function Visited(s: seq<Element>): seq<Member> {
    if s == [] || s[0].document.Malformed? then [] else s[0].document.members + Visited(s[1..])
  }

  /** The first section of its name. */
  ghost predicate Fresh(ms: seq<Member>, i: nat)
    requires i < |ms|
  {
    forall j :: 0 <= j < i ==> ms[j].key != ms[i].key
  }

  ghost predicate Fails(store: Store, rank: map<string, nat>, n: nat, v: Value)
    requires Acyclic(store, rank) && Below(store, rank, n, v)
  {
    (v.Array? || v.Object?) && ExpandValue(store, rank, n, v).Threw?
  }

  /** No section before place `k` that is the first of its name ended the run. */
  ghost predicate Reached(store: Store, rank: map<string, nat>, n: nat, ms: seq<Member>, k: nat)
    requires Acyclic(store, rank) && RawBelow(store, rank, n, ms) && k <= |ms|
  {
    forall i :: 0 <= i < k && Fresh(ms, i) ==> !Fails(store, rank, n, ms[i].value)
  }

  /** What the first section of its name leaves in the result. */
  ghost function Shown(store: Store, rank: map<string, nat>, n: nat, ms: seq<Member>, i: nat): seq<Value>
    requires Acyclic(store, rank) && RawBelow(store, rank, n, ms) && i < |ms| && Fresh(ms, i)
  {
    var v := ms[i].value;
    if (v.Array? || v.Object?) && Reached(store, rank, n, ms, i + 1) then [ExpandValue(store, rank, n, v).value] else []
  }

  ghost predicate KeyBefore(ms: seq<Member>, k: nat, key: string)
    requires k <= |ms|
  {
    exists i :: 0 <= i < k && ms[i].key == key
  }

  /** What the first `k` visited sections leave under a name. */
  ghost predicate ShowsUnder(store: Store, rank: map<string, nat>, n: nat, ms: seq<Member>, k: nat, configuration: seq<Member>, key: string)
    requires Acyclic(store, rank) && RawBelow(store, rank, n, ms) && k <= |ms|
  {
    && (forall i :: 0 <= i < k && ms[i].key == key && Fresh(ms, i) ==> Find(configuration, key) == Shown(store, rank, n, ms, i))
    && (!KeyBefore(ms, k, key) ==> Find(configuration, key) == [])
  }

  /** The result holds exactly what the visited sections show. */
  ghost predicate ShowsExactly(store: Store, rank: map<string, nat>, n: nat, ms: seq<Member>, configuration: seq<Member>)
    requires Acyclic(store, rank) && RawBelow(store, rank, n, ms)
  {
    forall key :: ShowsUnder(store, rank, n, ms, |ms|, configuration, key)
  }

  lemma {:induction false} MembersThen(store: Store, rank: map<string, nat>, n: nat, ms: seq<Member>, more: seq<Member>, a: Assembly)
    requires Acyclic(store, rank) && RawBelow(store, rank, n, ms) && RawBelow(store, rank, n, more) && !a.stopped
    ensures RawBelow(store, rank, n, ms + more)
    ensures var r := AssembleMembers(store, rank, n, ms, a);
      AssembleMembers(store, rank, n, ms + more, a) == if r.stopped then r else AssembleMembers(store, rank, n, more, r)
    decreases |ms|
  {
    if ms == [] {
      assert ms + more == more;
    } else {
      var m := ms[0];
      assert (ms + more)[1..] == ms[1..] + more;
      if m.key in a.seen {
        MembersThen(store, rank, n, ms[1..], more, a);
      } else {
        var emitted := Emit(store, rank, n, m.value);
        if emitted.Done? {
          var configuration := if emitted.value == [] then a.configuration
                               else Put(a.configuration, m.key, emitted.value[0]);
          MembersThen(store, rank, n, ms[1..], more, a.(configuration := configuration, seen := a.seen + {m.key}));
        }
      }
    }
  }

  lemma {:induction false} VisitedBelow(store: Store, rank: map<string, nat>, n: nat, s: seq<Element>)
    requires Acyclic(store, rank) && Expandable(store, rank, n, s)
    ensures RawBelow(store, rank, n, Visited(s))
  {
    if s != [] && s[0].document.Parsed? {
      VisitedBelow(store, rank, n, s[1..]);
    }
  }

  /** The run over the elements is the run over the sections visited. */
  lemma {:induction false} AssembleVisits(store: Store, rank: map<string, nat>, n: nat, s: seq<Element>, a: Assembly)
    requires Acyclic(store, rank) && Expandable(store, rank, n, s) && RawBelow(store, rank, n, Visited(s)) && !a.stopped
    ensures Assemble(store, rank, n, s, a).configuration == AssembleMembers(store, rank, n, Visited(s), a).configuration
    decreases |s|
  {
    if s != [] && s[0].document.Parsed? {
      var ms := s[0].document.members;
      VisitedBelow(store, rank, n, s[1..]);
      MembersThen(store, rank, n, ms, Visited(s[1..]), a);
      var next := AssembleMembers(store, rank, n, ms, a);
      if !next.stopped {
        AssembleVisits(store, rank, n, s[1..], next);
      }
    }
  }

  ghost predicate SeenExactly(ms: seq<Member>, k: nat, seen: set<string>)
    requires k <= |ms|
  {
    forall key :: key in seen <==> KeyBefore(ms, k, key)
  }

  ghost function RunOf(store: Store, rank: map<string, nat>, n: nat, ms: seq<Member>, k: nat): Assembly
    requires Acyclic(store, rank) && RawBelow(store, rank, n, ms) && k <= |ms|
  {
    AssembleMembers(store, rank, n, ms[..k], Assembly([], {}, false))
  }

  /** One more section. */
  lemma NextSection(store: Store, rank: map<string, nat>, n: nat, ms: seq<Member>, k: nat)
    requires Acyclic(store, rank) && RawBelow(store, rank, n, ms) && k < |ms|
    ensures var r, next := RunOf(store, rank, n, ms, k), RunOf(store, rank, n, ms, k + 1);
      if r.stopped || ms[k].key in r.seen then next == r
      else
        var emitted := Emit(store, rank, n, ms[k].value);
        && next.seen == r.seen + {ms[k].key}
        && next.stopped == emitted.Threw?
        && next.configuration == if emitted.Threw? || emitted.value == [] then r.configuration
                                 else Put(r.configuration, ms[k].key, emitted.value[0])
  {
    var m := ms[k];
    assert ms[..k + 1] == ms[..k] + [m] && [m][1..] == [];
    MembersThen(store, rank, n, ms[..k], [m], Assembly([], {}, false));
  }

  lemma FreshIsUnseen(ms: seq<Member>, k: nat, seen: set<string>)
    requires k < |ms| && SeenExactly(ms, k, seen)
    ensures Fresh(ms, k) <==> ms[k].key !in seen
    ensures SeenExactly(ms, k + 1, seen + {ms[k].key})
  {
    assert Fresh(ms, k) <==> !KeyBefore(ms, k, ms[k].key);
    forall key ensures KeyBefore(ms, k + 1, key) <==> key == ms[k].key || KeyBefore(ms, k, key) {
      if KeyBefore(ms, k, key) {
        var i :| 0 <= i < k && ms[i].key == key;
      }
    }
  }

  lemma ReachedNext(store: Store, rank: map<string, nat>, n: nat, ms: seq<Member>, k: nat)
    requires Acyclic(store, rank) && RawBelow(store, rank, n, ms) && k < |ms|
    ensures Reached(store, rank, n, ms, k + 1) <==>
            Reached(store, rank, n, ms, k) && (Fresh(ms, k) ==> !Fails(store, rank, n, ms[k].value))
  {
  }

  ghost predicate RunReached(store: Store, rank: map<string, nat>, n: nat, ms: seq<Member>, k: nat, r: Assembly)
    requires Acyclic(store, rank) && RawBelow(store, rank, n, ms) && k <= |ms|
  {
    && (r.stopped <==> !Reached(store, rank, n, ms, k))
    && (!r.stopped ==> SeenExactly(ms, k, r.seen))
  }

  lemma NextReached(store: Store, rank: map<string, nat>, n: nat, ms: seq<Member>, k: nat, r: Assembly, next: Assembly)
    requires Acyclic(store, rank) && RawBelow(store, rank, n, ms) && k < |ms| && RunReached(store, rank, n, ms, k, r)
    requires if r.stopped || ms[k].key in r.seen then next == r
             else next.seen == r.seen + {ms[k].key} && next.stopped == Fails(store, rank, n, ms[k].value)
    ensures RunReached(store, rank, n, ms, k + 1, next)
  {
    ReachedNext(store, rank, n, ms, k);
    if !r.stopped {
      FreshIsUnseen(ms, k, r.seen);
      assert ms[k].key in r.seen ==> r.seen + {ms[k].key} == r.seen;
    }
  }

  lemma {:induction false} PrefixReached(store: Store, rank: map<string, nat>, n: nat, ms: seq<Member>, k: nat)
    requires Acyclic(store, rank) && RawBelow(store, rank, n, ms) && k <= |ms|
    ensures RunReached(store, rank, n, ms, k, RunOf(store, rank, n, ms, k))
    decreases k
  {
    if k > 0 {
      PrefixReached(store, rank, n, ms, k - 1);
      NextSection(store, rank, n, ms, k - 1);
      NextReached(store, rank, n, ms, k - 1, RunOf(store, rank, n, ms, k - 1), RunOf(store, rank, n, ms, k));
    }
  }

  lemma {:induction false} PrefixShows(store: Store, rank: map<string, nat>, n: nat, ms: seq<Member>, k: nat, key: string)
    requires Acyclic(store, rank) && RawBelow(store, rank, n, ms) && k <= |ms|
    ensures ShowsUnder(store, rank, n, ms, k, RunOf(store, rank, n, ms, k).configuration, key)
    decreases k
  {
    if k > 0 {
      PrefixShows(store, rank, n, ms, k - 1, key);
      NextSection(store, rank, n, ms, k - 1);
      if ms[k - 1].key == key {
        PrefixReached(store, rank, n, ms, k - 1);
        SameName(store, rank, n, ms, k - 1);
      } else {
        OtherName(store, rank, n, ms, k - 1, key);
      }
    }
  }

  lemma OtherName(store: Store, rank: map<string, nat>, n: nat, ms: seq<Member>, k: nat, key: string)
    requires Acyclic(store, rank) && RawBelow(store, rank, n, ms) && k < |ms| && ms[k].key != key
    requires ShowsUnder(store, rank, n, ms, k, RunOf(store, rank, n, ms, k).configuration, key)
    ensures ShowsUnder(store, rank, n, ms, k + 1, RunOf(store, rank, n, ms, k + 1).configuration, key)
  {
    var r, next := RunOf(store, rank, n, ms, k), RunOf(store, rank, n, ms, k + 1);
    NextSection(store, rank, n, ms, k);
    var emitted := Emit(store, rank, n, ms[k].value);
    if emitted.Done? && emitted.value != [] {
      PutFind(r.configuration, ms[k].key, emitted.value[0], key);
    }
    assert Find(next.configuration, key) == Find(r.configuration, key);
  }

  lemma SameName(store: Store, rank: map<string, nat>, n: nat, ms: seq<Member>, k: nat)
    requires Acyclic(store, rank) && RawBelow(store, rank, n, ms) && k < |ms|
    requires var r := RunOf(store, rank, n, ms, k);
      && ShowsUnder(store, rank, n, ms, k, r.configuration, ms[k].key)
      && RunReached(store, rank, n, ms, k, r)
    ensures ShowsUnder(store, rank, n, ms, k + 1, RunOf(store, rank, n, ms, k + 1).configuration, ms[k].key)
  {
    var key := ms[k].key;
    var r, next := RunOf(store, rank, n, ms, k), RunOf(store, rank, n, ms, k + 1);
    NextSection(store, rank, n, ms, k);
    ReachedNext(store, rank, n, ms, k);
    assert KeyBefore(ms, k + 1, key);
    if !r.stopped {
      FreshIsUnseen(ms, k, r.seen);
    }
    if Fresh(ms, k) {
      assert !KeyBefore(ms, k, key);
      var emitted := Emit(store, rank, n, ms[k].value);
      if !r.stopped && emitted.Done? && emitted.value != [] {
        PutFind(r.configuration, key, emitted.value[0], key);
      }
      assert Find(next.configuration, key) == Shown(store, rank, n, ms, k);
    } else {
      assert next.configuration == r.configuration;
    }
  }

  /** Which sections a run shows, also when it ends early: the first section of each name, expanded, if it is an array or
      object and no earlier first section failed to expand. */
  lemma AssembleShows(store: Store, rank: map<string, nat>, n: nat, s: seq<Element>)
    requires Acyclic(store, rank) && Expandable(store, rank, n, s)
    ensures var ms := Visited(s);
      && RawBelow(store, rank, n, ms)
      && ShowsExactly(store, rank, n, ms, Assemble(store, rank, n, s, Assembly([], {}, false)).configuration)
  {
    var ms := Visited(s);
    VisitedBelow(store, rank, n, s);
    AssembleVisits(store, rank, n, s, Assembly([], {}, false));
    assert ms[..|ms|] == ms;
    var r := RunOf(store, rank, n, ms, |ms|).configuration;
    forall key ensures ShowsUnder(store, rank, n, ms, |ms|, r, key) {
      PrefixShows(store, rank, n, ms, |ms|, key);
    }
  }

  /** The run ends early: an element that would be visited holds no object, or a section fails to expand. */
  ghost predicate Stops(store: Store, rank: map<string, nat>, n: nat, s: seq<Element>)
    requires Acyclic(store, rank)
  {
    || (exists e :: e in s && e.document.Malformed?)
    || (RawBelow(store, rank, n, Visited(s)) && !Reached(store, rank, n, Visited(s), |Visited(s)|))
  }

  lemma {:induction false} AssembleStopsWith(store: Store, rank: map<string, nat>, n: nat, s: seq<Element>, a: Assembly)
    requires Acyclic(store, rank) && Expandable(store, rank, n, s) && RawBelow(store, rank, n, Visited(s)) && !a.stopped
    ensures Assemble(store, rank, n, s, a).stopped <==>
            AssembleMembers(store, rank, n, Visited(s), a).stopped || exists e :: e in s && e.document.Malformed?
    decreases |s|
  {
    if s != [] {
      assert s == [s[0]] + s[1..];
      if s[0].document.Parsed? {
        var ms := s[0].document.members;
        VisitedBelow(store, rank, n, s[1..]);
        MembersThen(store, rank, n, ms, Visited(s[1..]), a);
        var next := AssembleMembers(store, rank, n, ms, a);
        if !next.stopped {
          AssembleStopsWith(store, rank, n, s[1..], next);
        }
      }
    }
  }

  lemma AssembleStops(store: Store, rank: map<string, nat>, n: nat, s: seq<Element>)
    requires Acyclic(store, rank) && Expandable(store, rank, n, s)
    ensures Assemble(store, rank, n, s, Assembly([], {}, false)).stopped <==> Stops(store, rank, n, s)
  {
    var ms := Visited(s);
    VisitedBelow(store, rank, n, s);
    AssembleStopsWith(store, rank, n, s, Assembly([], {}, false));
    PrefixReached(store, rank, n, ms, |ms|);
    assert ms[..|ms|] == ms;
  }

  // ---------------------------------------------------------------- what every section looks like

  /** The sections hold no reserved name and are ordered by name at every depth. */
  ghost predicate Presentable(store: Store, configuration: seq<Member>) {
    && (TopClean(store) && EndpointsPlain(store) ==> forall m :: m in configuration ==> Clean(m.value))
    && (EndpointsPlain(store) ==> Canonical(Object(configuration)))
  }

  lemma {:induction false} MembersPresentable(store: Store, rank: map<string, nat>, n: nat, ms: seq<Member>, a: Assembly)
    requires Acyclic(store, rank) && RawBelow(store, rank, n, ms) && Presentable(store, a.configuration)
    ensures Presentable(store, AssembleMembers(store, rank, n, ms, a).configuration)
    decreases |ms|
  {
    if ms != [] {
      var m := ms[0];
      if m.key in a.seen {
        MembersPresentable(store, rank, n, ms[1..], a);
      } else {
        var emitted := Emit(store, rank, n, m.value);
        if emitted.Done? {
          var configuration := a.configuration;
          if emitted.value != [] {
            configuration := Put(a.configuration, m.key, emitted.value[0]);
            SoundValue(store, rank, n, m.value);
            PutPresentable(store, a.configuration, m.key, emitted.value[0]);
          }
          MembersPresentable(store, rank, n, ms[1..], a.(configuration := configuration, seen := a.seen + {m.key}));
        }
      }
    }
  }

  lemma PutPresentable(store: Store, configuration: seq<Member>, key: string, v: Value)
    requires Presentable(store, configuration)
    requires TopClean(store) && EndpointsPlain(store) ==> Clean(v)
    requires EndpointsPlain(store) ==> Canonical(v)
    ensures Presentable(store, Put(configuration, key, v))
  {
    if EndpointsPlain(store) {
      PutCanonical(configuration, key, v);
    }
  }

  lemma {:induction false} AssemblePresentable(store: Store, rank: map<string, nat>, n: nat, s: seq<Element>, a: Assembly)
    requires Acyclic(store, rank) && Expandable(store, rank, n, s) && Presentable(store, a.configuration)
    ensures Presentable(store, Assemble(store, rank, n, s, a).configuration)
    decreases |s|
  {
    if s != [] && !a.stopped && s[0].document.Parsed? {
      var ms := s[0].document.members;
      MembersPresentable(store, rank, n, ms, a);
      AssemblePresentable(store, rank, n, s[1..], AssembleMembers(store, rank, n, ms, a));
    }
  }

  // ---------------------------------------------------------------- what is collected, in order

  predicate DeviceTypeMatch(deviceType: string, types: seq<string>) {
    exists i :: 0 <= i < |types| && (types[i] == "*" || Lower(deviceType) == Lower(types[i]))
  }

  type Configurations = map<Id, Configuration>

  /** Elements of one configuration record; an unknown record or a type mismatch gives none. */
  function FromConfiguration(db: Configurations, deviceType: string, id: Id): seq<Element> {
    if id != NONE && id in db && DeviceTypeMatch(deviceType, db[id].deviceTypes) then db[id].elements else []
  }

  function FromConfigurations(db: Configurations, deviceType: string, ids: seq<Id>): seq<Element> {
    if ids == [] then []
    else FromConfiguration(db, deviceType, ids[0]) + FromConfigurations(db, deviceType, ids[1..])
  }

  /** The parents of an entity end after at most `depth` steps. */
  predicate EntityChainEnds(entities: map<Id, Entity>, id: Id, depth: nat)
    decreases depth
  {
    id !in entities || entities[id].parent == NONE
    || (depth > 0 && EntityChainEnds(entities, entities[id].parent, depth - 1))
  }

  function FromEntity(db: Configurations, deviceType: string, entities: map<Id, Entity>, id: Id, depth: nat): seq<Element>
    requires EntityChainEnds(entities, id, depth)
    decreases depth
  {
    if id !in entities then []
    else
      var own := FromConfigurations(db, deviceType, entities[id].configurations);
      if entities[id].parent == NONE then own
      else own + FromEntity(db, deviceType, entities, entities[id].parent, depth - 1)
  }

  /** A venue continues with its entity if it has one, and otherwise with its parent. */
  predicate VenueChainEnds(entities: map<Id, Entity>, venues: map<Id, Venue>, id: Id, depth: nat)
    decreases depth
  {
    id !in venues
    || (venues[id].entity != NONE && EntityChainEnds(entities, venues[id].entity, depth))
    || (venues[id].entity == NONE && (venues[id].parent == NONE
        || (depth > 0 && VenueChainEnds(entities, venues, venues[id].parent, depth - 1))))
  }

  function FromVenue(db: Configurations, deviceType: string, entities: map<Id, Entity>, venues: map<Id, Venue>, id: Id, depth: nat)
    : seq<Element>
    requires VenueChainEnds(entities, venues, id, depth)
    decreases depth
  {
    if id !in venues then []
    else
      var own := FromConfigurations(db, deviceType, venues[id].configurations);
      if venues[id].entity != NONE then own + FromEntity(db, deviceType, entities, venues[id].entity, depth)
      else if venues[id].parent != NONE then own + FromVenue(db, deviceType, entities, venues, venues[id].parent, depth - 1)
      else own
  }

  // ---------------------------------------------------------------- the places on the way up

  type Entities = map<Id, Entity>
  type Venues = map<Id, Venue>

  datatype Place = AtEntity(id: Id) | AtVenue(id: Id)

  /** The place above: an entity is below its parent; a venue is below its entity or, without one, below its parent. */
  ghost function Above(entities: Entities, venues: Venues, p: Place): (r: seq<Place>)
    ensures |r| <= 1
  {
    match p
    case AtEntity(id) => if id in entities && entities[id].parent != NONE then [AtEntity(entities[id].parent)] else []
    case AtVenue(id) =>
      if id !in venues then []
      else if venues[id].entity != NONE then [AtEntity(venues[id].entity)]
      else if venues[id].parent != NONE then [AtVenue(venues[id].parent)]
      else []
  }

  /** The places from `start` up to one with nothing above it. */
  ghost predicate IsPath(entities: Entities, venues: Venues, start: Place, path: seq<Place>)
    decreases |path|
  {
    && path != [] && path[0] == start
    && (Above(entities, venues, start) == [] ==> |path| == 1)
    && (Above(entities, venues, start) != [] ==> IsPath(entities, venues, Above(entities, venues, start)[0], path[1..]))
  }

  /** The configurations a place lists. */
  ghost function Listing(entities: Entities, venues: Venues, p: Place): seq<Id> {
    match p
    case AtEntity(id) => if id in entities then entities[id].configurations else []
    case AtVenue(id) => if id in venues then venues[id].configurations else []
  }

  /** What the configurations of the places hold for the device type, place by place. */
  ghost function Gather(db: Configurations, deviceType: string, entities: Entities, venues: Venues, path: seq<Place>): seq<Element> {
    if path == [] then []
    else FromConfigurations(db, deviceType, Listing(entities, venues, path[0])) + Gather(db, deviceType, entities, venues, path[1..])
  }

  ghost function EntityPath(entities: Entities, venues: Venues, id: Id, depth: nat): (path: seq<Place>)
    requires EntityChainEnds(entities, id, depth)
    ensures IsPath(entities, venues, AtEntity(id), path)
    decreases depth
  {
    [AtEntity(id)] + if id !in entities || entities[id].parent == NONE then []
                     else EntityPath(entities, venues, entities[id].parent, depth - 1)
  }

  ghost function VenuePath(entities: Entities, venues: Venues, id: Id, depth: nat): (path: seq<Place>)
    requires VenueChainEnds(entities, venues, id, depth)
    ensures IsPath(entities, venues, AtVenue(id), path)
    decreases depth
  {
    [AtVenue(id)] + if id !in venues then []
                    else if venues[id].entity != NONE then EntityPath(entities, venues, venues[id].entity, depth)
                    else if venues[id].parent != NONE then VenuePath(entities, venues, venues[id].parent, depth - 1)
                    else []
  }

  /** Nothing but the places on the way up contributes, and a place before those above it. */
  lemma {:induction false} EntityGathers(db: Configurations, deviceType: string, entities: Entities, venues: Venues, id: Id, depth: nat, path: seq<Place>)
    requires EntityChainEnds(entities, id, depth) && IsPath(entities, venues, AtEntity(id), path)
    ensures FromEntity(db, deviceType, entities, id, depth) == Gather(db, deviceType, entities, venues, path)
    decreases depth
  {
    if id in entities && entities[id].parent != NONE {
      EntityGathers(db, deviceType, entities, venues, entities[id].parent, depth - 1, path[1..]);
    } else {
      assert path[1..] == [];
    }
  }

  lemma {:induction false} VenueGathers(db: Configurations, deviceType: string, entities: Entities, venues: Venues, id: Id, depth: nat, path: seq<Place>)
    requires VenueChainEnds(entities, venues, id, depth) && IsPath(entities, venues, AtVenue(id), path)
    ensures FromVenue(db, deviceType, entities, venues, id, depth) == Gather(db, deviceType, entities, venues, path)
    decreases depth
  {
    if id in venues && venues[id].entity != NONE {
      EntityGathers(db, deviceType, entities, venues, venues[id].entity, depth, path[1..]);
    } else if id in venues && venues[id].parent != NONE {
      VenueGathers(db, deviceType, entities, venues, venues[id].parent, depth - 1, path[1..]);
    } else {
      assert path[1..] == [];
    }
  }

  /** A record contributes its elements if it exists and one of its device types is "*" or the device's, in any case. */
  ghost predicate Contributes(db: Configurations, deviceType: string, id: Id, e: Element) {
    && id != NONE && id in db && e in db[id].elements
    && exists t :: t in db[id].deviceTypes && (t == "*" || Lower(t) == Lower(deviceType))
  }

  lemma {:induction false} ListContributes(db: Configurations, deviceType: string, ids: seq<Id>, e: Element)
    ensures e in FromConfigurations(db, deviceType, ids) <==> exists id :: id in ids && Contributes(db, deviceType, id, e)
  {
    if ids != [] {
      ListContributes(db, deviceType, ids[1..], e);
      RecordContributes(db, deviceType, ids[0], e);
      assert ids == [ids[0]] + ids[1..];
    }
  }

  lemma RecordContributes(db: Configurations, deviceType: string, id: Id, e: Element)
    ensures e in FromConfiguration(db, deviceType, id) <==> Contributes(db, deviceType, id, e)
  {
    if id in db {
      MatchesType(deviceType, db[id].deviceTypes);
    }
  }

  lemma MatchesType(deviceType: string, types: seq<string>)
    ensures DeviceTypeMatch(deviceType, types) <==> exists t :: t in types && (t == "*" || Lower(t) == Lower(deviceType))
  {
    if DeviceTypeMatch(deviceType, types) {
      var i :| 0 <= i < |types| && (types[i] == "*" || Lower(deviceType) == Lower(types[i]));
      assert types[i] in types && (types[i] == "*" || Lower(types[i]) == Lower(deviceType));
    }
  }

  /** A record that applies gives its elements in their order, and any other none. */
  lemma RecordWhole(db: Configurations, deviceType: string, id: Id)
    ensures FromConfiguration(db, deviceType, id) ==
              if id != NONE && id in db && (exists t :: t in db[id].deviceTypes && (t == "*" || Lower(t) == Lower(deviceType)))
              then db[id].elements else []
  {
    if id in db {
      MatchesType(deviceType, db[id].deviceTypes);
    }
  }

  /** Listed records give their elements in the order of the list. */
  lemma {:induction false} ListingInOrder(db: Configurations, deviceType: string, ids: seq<Id>, k: nat)
    requires k < |ids|
    ensures FromConfigurations(db, deviceType, ids)
         == FromConfigurations(db, deviceType, ids[..k]) + FromConfiguration(db, deviceType, ids[k]) + FromConfigurations(db, deviceType, ids[k + 1..])
  {
    var front, back := ids[..k], FromConfigurations(db, deviceType, ids[k + 1..]);
    if k == 0 {
      assert ids[1..] == ids[k + 1..];
    } else {
      ListingInOrder(db, deviceType, ids[1..], k - 1);
      assert front[1..] == ids[1..][..k - 1] && ids[1..][k..] == ids[k + 1..] && ids[1..][k - 1] == ids[k];
      var first, inner, here := FromConfiguration(db, deviceType, ids[0]), FromConfigurations(db, deviceType, front[1..]), FromConfiguration(db, deviceType, ids[k]);
      Regroup(first, inner, here);
      Regroup(first, inner + here, back);
    }
  }

  ghost predicate ListedOn(db: Configurations, deviceType: string, ids: seq<Id>, e: Element) {
    exists id :: id in ids && Contributes(db, deviceType, id, e)
  }

  /** An element is gathered exactly when a matching configuration holds it that a place on the way lists. */
  lemma {:induction false} GatheredExactly(db: Configurations, deviceType: string, entities: Entities, venues: Venues, path: seq<Place>, e: Element)
    ensures e in Gather(db, deviceType, entities, venues, path) <==>
            exists p :: p in path && ListedOn(db, deviceType, Listing(entities, venues, p), e)
  {
    if path != [] {
      ListContributes(db, deviceType, Listing(entities, venues, path[0]), e);
      GatheredExactly(db, deviceType, entities, venues, path[1..], e);
      assert path == [path[0]] + path[1..];
    }
  }

  /** Elements of the places before `k` come before those of the places from `k` on. */
  lemma {:induction false} GatheredInOrder(db: Configurations, deviceType: string, entities: Entities, venues: Venues, path: seq<Place>, k: nat)
    requires k <= |path|
    ensures Gather(db, deviceType, entities, venues, path)
         == Gather(db, deviceType, entities, venues, path[..k]) + Gather(db, deviceType, entities, venues, path[k..])
  {
    if k == 0 {
      assert path[0..] == path;
    } else {
      var front, back := path[..k], path[k..];
      GatheredInOrder(db, deviceType, entities, venues, path[1..], k - 1);
      assert front[1..] == path[1..][..k - 1] && path[1..][k - 1..] == back;
      Regroup(FromConfigurations(db, deviceType, Listing(entities, venues, path[0])),
              Gather(db, deviceType, entities, venues, front[1..]), Gather(db, deviceType, entities, venues, back));
    }
  }

  /** The device's own configuration holds the element, or one that is listed by a place on the way. */
  ghost predicate Offered(db: Configurations, deviceType: string, entities: Entities, venues: Venues, tag: InventoryTag, path: seq<Place>, e: Element) {
    || Contributes(db, deviceType, tag.deviceConfiguration, e)
    || exists p :: p in path && ListedOn(db, deviceType, Listing(entities, venues, p), e)
  }

  /** The place where a device starts, if it has one: its entity, or else its venue. */
  ghost function StartOf(tag: InventoryTag): (r: seq<Place>)
    ensures |r| <= 1
  {
    if tag.entity != NONE then [AtEntity(tag.entity)] else if tag.venue != NONE then [AtVenue(tag.venue)] else []
  }

  /** The places of a device: none, or all those on the way up from the place where it starts. */
  ghost predicate IsWay(entities: Entities, venues: Venues, tag: InventoryTag, path: seq<Place>) {
    if StartOf(tag) == [] then path == [] else IsPath(entities, venues, StartOf(tag)[0], path)
  }

  // ---------------------------------------------------------------- the resolver

  class Resolver {
    var config: seq<Element>
    var deviceType: string
    /** The elements in the order they were added. */
    ghost var added: seq<Element>

    ghost predicate Valid()
      reads this
    {
      IsStableSort(config, added)
    }

    constructor (deviceType: string)
      ensures Valid() && added == [] && config == [] && this.deviceType == deviceType
    {
      config, this.deviceType, added := [], deviceType, [];
    }

    /** `std::lower_bound` on the weights. */
    method LowerBound(w: nat) returns (p: nat)
      requires Sorted(config)
      ensures IsInsertPoint(config, w, p)
    {
      var first, count := 0, |config|;
      while count > 0
        invariant 0 <= first && 0 <= count && first + count <= |config|
        invariant forall i :: 0 <= i < first ==> config[i].weight >= w
        invariant forall i :: first + count <= i < |config| ==> config[i].weight < w
      {
        var step := count / 2;
        if config[first + step].weight >= w {
          first, count := first + step + 1, count - step - 1;
        } else {
          count := step;
        }
      }
      p := first;
    }

    method AddElements(elements: seq<Element>)
      requires Valid()
      modifies this`config, this`added
      ensures Valid() && added == old(added) + elements
    {
      for i := 0 to |elements|
        invariant Valid() && added == old(added) + elements[..i]
      {
        var e := elements[i];
        var p := |config|;
        if e.weight != 0 {
          p := LowerBound(e.weight);
        }
        InsertKeepsStable(config, added, e, p);
        config := config[..p] + [e] + config[p..];
        added := added + [e];
      }
      assert elements[..|elements|] == elements;
    }

    method AddConfiguration(db: Configurations, id: Id)
      requires Valid()
      modifies this`config, this`added
      ensures Valid() && added == old(added) + FromConfiguration(db, deviceType, id)
    {
      if id == NONE {
        return;
      }
      if id in db && db[id].elements != [] && DeviceTypeMatch(deviceType, db[id].deviceTypes) {
        AddElements(db[id].elements);
      }
    }

    method AddConfigurations(db: Configurations, ids: seq<Id>)
      requires Valid()
      modifies this`config, this`added
      ensures Valid() && added == old(added) + FromConfigurations(db, deviceType, ids)
    {
      ghost var all := old(added) + FromConfigurations(db, deviceType, ids);
      assert ids[0..] == ids;
      for i := 0 to |ids|
        invariant Valid()
        invariant added + FromConfigurations(db, deviceType, ids[i..]) == all
      {
        assert ids[i..][1..] == ids[i + 1..];
        Regroup(added, FromConfiguration(db, deviceType, ids[i]), FromConfigurations(db, deviceType, ids[i + 1..]));
        AddConfiguration(db, ids[i]);
      }
      assert added + [] == added;
    }

    method AddEntityConfig(db: Configurations, entities: map<Id, Entity>, id: Id, ghost depth: nat)
      requires Valid() && EntityChainEnds(entities, id, depth)
      modifies this`config, this`added
      ensures Valid() && added == old(added) + FromEntity(db, deviceType, entities, id, depth)
      ensures forall venues, path :: IsPath(entities, venues, AtEntity(id), path) ==>
                added == old(added) + Gather(db, deviceType, entities, venues, path)
      decreases depth
    {
      if id in entities {
        ghost var own := FromConfigurations(db, deviceType, entities[id].configurations);
        AddConfigurations(db, entities[id].configurations);
        if entities[id].parent != NONE {
          Regroup(old(added), own, FromEntity(db, deviceType, entities, entities[id].parent, depth - 1));
          AddEntityConfig(db, entities, entities[id].parent, depth - 1);
        }
      }
      forall venues, path | IsPath(entities, venues, AtEntity(id), path)
        ensures FromEntity(db, deviceType, entities, id, depth) == Gather(db, deviceType, entities, venues, path)
      {
        EntityGathers(db, deviceType, entities, venues, id, depth, path);
      }
    }

    method AddVenueConfig(db: Configurations, entities: map<Id, Entity>, venues: map<Id, Venue>, id: Id, ghost depth: nat)
      requires Valid() && VenueChainEnds(entities, venues, id, depth)
      modifies this`config, this`added
      ensures Valid() && added == old(added) + FromVenue(db, deviceType, entities, venues, id, depth)
      ensures forall path :: IsPath(entities, venues, AtVenue(id), path) ==>
                added == old(added) + Gather(db, deviceType, entities, venues, path)
      decreases depth
    {
      if id in venues {
        ghost var own := FromConfigurations(db, deviceType, venues[id].configurations);
        AddConfigurations(db, venues[id].configurations);
        if venues[id].entity != NONE {
          Regroup(old(added), own, FromEntity(db, deviceType, entities, venues[id].entity, depth));
          AddEntityConfig(db, entities, venues[id].entity, depth);
        } else if venues[id].parent != NONE {
          Regroup(old(added), own, FromVenue(db, deviceType, entities, venues, venues[id].parent, depth - 1));
          AddVenueConfig(db, entities, venues, venues[id].parent, depth - 1);
        }
      }
      forall path | IsPath(entities, venues, AtVenue(id), path)
        ensures FromVenue(db, deviceType, entities, venues, id, depth) == Gather(db, deviceType, entities, venues, path)
      {
        VenueGathers(db, deviceType, entities, venues, id, depth, path);
      }
    }

    /** The collection step of `Get` for an inventory device: own configuration first, then the
        entity chain, or the venue chain when there is no entity. */
    method Collect(db: Configurations, entities: map<Id, Entity>, venues: map<Id, Venue>, tag: InventoryTag, ghost depth: nat)
      returns (ghost path: seq<Place>)
      requires Valid() && EntityChainEnds(entities, tag.entity, depth) && VenueChainEnds(entities, venues, tag.venue, depth)
      modifies this`config, this`added
      ensures Valid() && IsWay(entities, venues, tag, path)
      ensures added == old(added) + FromConfiguration(db, deviceType, tag.deviceConfiguration)
                       + Gather(db, deviceType, entities, venues, path)
      ensures forall e :: e in added <==> e in old(added) || Offered(db, deviceType, entities, venues, tag, path, e)
    {
      AddConfiguration(db, tag.deviceConfiguration);
      path := [];
      if tag.entity != NONE {
        AddEntityConfig(db, entities, tag.entity, depth);
        path := EntityPath(entities, venues, tag.entity, depth);
      } else if tag.venue != NONE {
        AddVenueConfig(db, entities, venues, tag.venue, depth);
        path := VenuePath(entities, venues, tag.venue, depth);
      }
      forall e
        ensures e in FromConfiguration(db, deviceType, tag.deviceConfiguration) + Gather(db, deviceType, entities, venues, path) <==>
                Offered(db, deviceType, entities, venues, tag, path, e)
      {
        RecordContributes(db, deviceType, tag.deviceConfiguration, e);
        GatheredExactly(db, deviceType, entities, venues, path, e);
      }
    }

    /** The section loop of `Get`: an exception ends it and keeps what was emitted. */
    method Get(store: Store, ghost rank: map<string, nat>, ghost n: nat)
      returns (configuration: seq<Member>, found: bool, ghost stopped: bool)
      requires Valid() && Acyclic(store, rank) && Expandable(store, rank, n, config)
      ensures found <==> added != []
      ensures var ms := Visited(config);
        && RawBelow(store, rank, n, ms)
        && ShowsExactly(store, rank, n, ms, configuration)
      ensures (forall e :: e in config && e.document.Parsed? ==> UniqueNames(e.document.members)) ==>
                forall name :: Claimed(store, rank, n, Claimant(added, name), name, Find(configuration, name), stopped)
      ensures stopped <==> Stops(store, rank, n, config)
      ensures Presentable(store, configuration)
    {
      var state := GetAll(store, rank, n);
      StableLength(config, added);
      found := config != [];
      configuration, stopped := state.configuration, state.stopped;
      AssembleShows(store, rank, n, config);
      AssemblePresentable(store, rank, n, config, Assembly([], {}, false));
      AssembleStops(store, rank, n, config);
      if forall e :: e in config && e.document.Parsed? ==> UniqueNames(e.document.members) {
        forall name
          ensures Claimed(store, rank, n, Claimant(added, name), name, Find(configuration, name), stopped)
        {
          SectionComesFromClaimant(store, rank, n, config, added, name);
        }
      }
    }

    method GetAll(store: Store, ghost rank: map<string, nat>, ghost n: nat) returns (state: Assembly)
      requires Acyclic(store, rank) && Expandable(store, rank, n, config)
      ensures state == Assemble(store, rank, n, config, Assembly([], {}, false))
    {
      state := Assembly([], {}, false);
      ghost var all := Assemble(store, rank, n, config, state);
      for i := 0 to |config|
        invariant !state.stopped && all == Assemble(store, rank, n, config[i..], state)
      {
        assert config[i..][1..] == config[i + 1..];
        assert config[i] in config;
        if config[i].document.Malformed? {
          return state.(stopped := true);
        }
        state := GetSections(store, rank, n, config[i].document.members, state);
        if state.stopped {
          return;
        }
      }
    }
  }

  /** The sections of one element. */
  method GetSections(store: Store, ghost rank: map<string, nat>, ghost n: nat, ms: seq<Member>, start: Assembly)
    returns (state: Assembly)
    requires Acyclic(store, rank) && RawBelow(store, rank, n, ms)
    ensures state == AssembleMembers(store, rank, n, ms, start)
  {
    state := start;
    for k := 0 to |ms|
      invariant AssembleMembers(store, rank, n, ms, start) == AssembleMembers(store, rank, n, ms[k..], state)
    {
      assert ms[k..][1..] == ms[k + 1..];
      var m := ms[k];
      assert m in ms && Below(store, rank, n, m.value);
      if m.key !in state.seen {
        state := state.(seen := state.seen + {m.key});
        if m.value.Array? {
          var expanded := ReplaceVariablesInArray(store, rank, n, m.value.items);
          if expanded.Threw? {
            return state.(stopped := true);
          }
          state := state.(configuration := Put(state.configuration, m.key, Array(expanded.value)));
        } else if m.value.Object? {
          var expanded := ReplaceVariablesInObject(store, rank, n, m.value.members);
          if expanded.Threw? {
            return state.(stopped := true);
          }
          state := state.(configuration := Put(state.configuration, m.key, Object(expanded.value)));
        }
      }
    }
  }

  lemma StableLength(s: seq<Element>, added: seq<Element>)
    requires IsStableSort(s, added)
    ensures s != [] <==> added != []
  {
    if s != [] {
      assert ByWeight(s, s[0].weight)[0] == s[0];
      assert ByWeight(added, s[0].weight) != [];
    }
    if added != [] {
      assert ByWeight(added, added[0].weight)[0] == added[0];
      assert ByWeight(s, added[0].weight) != [];
    }
  }
}
