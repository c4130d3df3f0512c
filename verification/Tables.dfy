/** The records of the provisioning database and the list operation all handlers share.

Ids are strings; the empty string stands for "none", as in the stored records. */
module Tables {
  import opened Json

  type Id = string

  const NONE: Id := ""
  const ROOT: Id := "0000-0000-0000"

  datatype Entity = Entity(
    parent: Id, children: seq<Id>, venues: seq<Id>, devices: seq<Id>, locations: seq<Id>, contacts: seq<Id>,
    variables: seq<Id>, configurations: seq<Id>, operatorId: Id, rrm: string)

  datatype Venue = Venue(
    name: string, entity: Id, parent: Id, children: seq<Id>, devices: seq<Id>, configurations: seq<Id>,
    subscriber: Id, rrm: string)

  datatype InventoryTag = InventoryTag(
    serialNumber: string, venue: Id, entity: Id, subscriber: Id, deviceConfiguration: Id,
    location: Id, contact: Id, rrm: string)

  /** Every reader lower-cases the group first, so only its lower-case value is kept. */
  datatype Group = Olg | Ap

  datatype SubscriberDevice = SubscriberDevice(
    serialNumber: string, subscriberId: Id, group: Group, deviceConfiguration: Id, rrm: string)

  datatype Operator = Operator(registrationId: string, entityId: Id, defaultOperator: bool, rrm: string)

  datatype Element = Element(weight: nat, document: Document)

  datatype Configuration = Configuration(
    deviceTypes: seq<string>, elements: seq<Element>, subscriberOnly: bool, rrm: string)

  datatype SignupEntry = SignupEntry(email: string, userId: Id, operatorId: Id, statusCode: nat)

  const WAITING_FOR_EMAIL: nat := 1
  const WAITING_FOR_DEVICE: nat := 2

  datatype Option<+T> = None | Some(value: T)

  /** All tables, as maps from id to record. */
  datatype Db = Db(
    inventory: map<Id, InventoryTag>,
    subDevices: map<Id, SubscriberDevice>,
    venues: map<Id, Venue>,
    entities: map<Id, Entity>,
    operators: map<Id, Operator>,
    signups: map<Id, SignupEntry>,
    configurations: map<Id, Configuration>,
    locations: set<Id>,
    contacts: set<Id>,
    variables: set<Id>)

  // ---------------------------------------------------------------- text

  function LowerChar(c: char): char {
    if 'A' <= c <= 'Z' then c - 'A' + 'a' else c
  }

  function Lower(s: string): (r: string)
    ensures |r| == |s|
  {
    seq(|s|, i requires 0 <= i < |s| => LowerChar(s[i]))
  }

  predicate IsSpace(c: char) { c == ' ' || '\t' <= c <= '\r' }

  function TrimLeft(s: string): string {
    if s != [] && IsSpace(s[0]) then TrimLeft(s[1..]) else s
  }

  function TrimRight(s: string): string {
    if s != [] && IsSpace(s[|s| - 1]) then TrimRight(s[..|s| - 1]) else s
  }

  /** Lower-cased and trimmed, as e-mail addresses and registration ids are compared. */
  function Normalise(s: string): string { TrimRight(TrimLeft(Lower(s))) }

  /** The same text but for the case of letters. */
  ghost predicate SameIgnoringCase(a: string, b: string) {
    |a| == |b| && forall i :: 0 <= i < |a| ==> SameLetter(a[i], b[i])
  }

  ghost predicate SameLetter(c: char, d: char) {
    || c == d
    || ('A' <= c <= 'Z' && d as int == c as int + 32)
    || ('A' <= d <= 'Z' && c as int == d as int + 32)
  }

  /** Comparing lower-cased text is comparing without regard to case; no capital is left in it. */
  lemma LowerComparesLetters(a: string, b: string)
    ensures Lower(a) == Lower(b) <==> SameIgnoringCase(a, b)
    ensures SameIgnoringCase(a, Lower(a)) && forall c :: c in Lower(a) ==> !('A' <= c <= 'Z')
  {
    if SameIgnoringCase(a, b) {
      assert forall i :: 0 <= i < |a| ==> LowerChar(a[i]) == LowerChar(b[i]);
    }
    if Lower(a) == Lower(b) {
      assert |a| == |Lower(a)| == |b|;
      forall i | 0 <= i < |a| ensures SameLetter(a[i], b[i]) {
        assert Lower(a)[i] == LowerChar(a[i]) && Lower(b)[i] == LowerChar(b[i]);
      }
    }
  }

  ghost predicate AllSpace(s: string) { forall c :: c in s ==> IsSpace(c) }

  lemma {:induction false} LeftTrimmed(s: string) returns (k: nat)
    ensures k <= |s| && AllSpace(s[..k]) && TrimLeft(s) == s[k..]
    ensures k < |s| ==> !IsSpace(s[k])
  {
    k := 0;
    if s != [] && IsSpace(s[0]) {
      var rest := LeftTrimmed(s[1..]);
      k := rest + 1;
      assert s[..k] == [s[0]] + s[1..][..rest];
    }
  }

  lemma {:induction false} RightTrimmed(s: string) returns (k: nat)
    ensures k <= |s| && AllSpace(s[k..]) && TrimRight(s) == s[..k]
    ensures k > 0 ==> !IsSpace(s[k - 1])
  {
    k := |s|;
    if s != [] && IsSpace(s[|s| - 1]) {
      var front := s[..|s| - 1];
      k := RightTrimmed(front);
      assert s[k..] == front[k..] + [s[|s| - 1]];
    } else {
      assert s[..|s|] == s;
    }
  }

  /** `middle` is `s` without the white space around it. */
  ghost predicate Trimmed(s: string, middle: string) {
    && (middle == [] || (!IsSpace(middle[0]) && !IsSpace(middle[|middle| - 1])))
    && exists i, j :: 0 <= i <= j <= |s| && middle == s[i..j] && AllSpace(s[..i]) && AllSpace(s[j..])
  }

  lemma NormaliseTrims(s: string)
    ensures Trimmed(Lower(s), Normalise(s))
  {
    var t := Lower(s);
    var i := LeftTrimmed(t);
    var rest := t[i..];
    var k := RightTrimmed(rest);
    assert rest[..k] == t[i..i + k] && rest[k..] == t[i + k..];
  }

  // ---------------------------------------------------------------- id lists

  /** Before the first id that comes after it. */
  function Filed(s: seq<Id>, x: Id): (r: seq<Id>)
    ensures forall y :: y in r <==> y in s || y == x
  {
    if s == [] || Before(x, s[0]) then [x] + s else [s[0]] + Filed(s[1..], x)
  }

  lemma {:induction false} FiledCounts(s: seq<Id>, x: Id)
    ensures multiset(Filed(s, x)) == multiset(s) + multiset{x}
  {
    if s != [] && !Before(x, s[0]) {
      FiledCounts(s[1..], x);
      assert s == [s[0]] + s[1..];
    }
  }

  /** `std::sort` on ids. */
  function InOrder(s: seq<Id>): (r: seq<Id>)
    ensures forall y :: y in r <==> y in s
  {
    if s == [] then []
    else
      assert s == [s[0]] + s[1..];
      Filed(InOrder(s[1..]), s[0])
  }

  lemma {:induction false} InOrderCounts(s: seq<Id>)
    ensures multiset(InOrder(s)) == multiset(s)
  {
    if s != [] {
      InOrderCounts(s[1..]);
      FiledCounts(InOrder(s[1..]), s[0]);
      assert s == [s[0]] + s[1..];
    }
  }

  /** Adds an id unless it is there, and sorts the list when it does. */
  function With(s: seq<Id>, x: Id): (r: seq<Id>)
    ensures forall y :: y in r <==> y in s || y == x
  {
    if x in s then s else InOrder(s + [x])
  }

  lemma {:induction false} WithOne(x: Id)
    ensures With([], x) == [x]
  {
    assert [] + [x] == [x] && [x][1..] == [];
    assert InOrder([x]) == Filed(InOrder([]), x);
  }

  ghost predicate Ascends(s: seq<Id>) { forall i, j :: 0 <= i < j < |s| ==> s[i] == s[j] || Before(s[i], s[j]) }

  lemma {:induction false} FiledAscends(s: seq<Id>, x: Id)
    requires Ascends(s)
    ensures Ascends(Filed(s, x))
  {
    if s == [] {
    } else if Before(x, s[0]) {
      forall j | 0 <= j < |s| ensures Before(x, s[j]) {
        if j > 0 && s[0] != s[j] {
          BeforeIsTransitive(x, s[0], s[j]);
        }
      }
    } else {
      var rest := Filed(s[1..], x);
      FiledAscends(s[1..], x);
      BeforeIsStrict(s[0], x);
      forall j | 0 <= j < |rest| ensures s[0] == rest[j] || Before(s[0], rest[j]) {
        assert rest[j] in rest;
        if rest[j] != x {
          assert rest[j] in s[1..];
        }
      }
    }
  }

  lemma {:induction false} InOrderAscends(s: seq<Id>)
    ensures Ascends(InOrder(s))
  {
    if s != [] {
      InOrderAscends(s[1..]);
      FiledAscends(InOrder(s[1..]), s[0]);
    }
  }

  /** `kept` is `ids` without the ids that are not in the table, in the same order. */
  ghost predicate KeepsKnown(ids: seq<Id>, table: set<Id>, kept: seq<Id>) {
    if ids == [] then kept == []
    else
      var front, last := ids[..|ids| - 1], ids[|ids| - 1];
      if last in table then kept != [] && kept[|kept| - 1] == last && KeepsKnown(front, table, kept[..|kept| - 1])
      else KeepsKnown(front, table, kept)
  }

  lemma {:induction false} KeepsAll(ids: seq<Id>, table: set<Id>, kept: seq<Id>)
    requires KeepsKnown(ids, table, kept) && forall i :: i in ids ==> i in table
    ensures kept == ids
  {
    if ids != [] {
      var front, last := ids[..|ids| - 1], ids[|ids| - 1];
      assert ids == front + [last] && last in ids;
      KeepsAll(front, table, kept[..|kept| - 1]);
      assert kept == kept[..|kept| - 1] + [last];
    }
  }

  lemma KeepsOneMore(ids: seq<Id>, table: set<Id>, kept: seq<Id>, last: Id)
    requires KeepsKnown(ids, table, kept)
    ensures KeepsKnown(ids + [last], table, kept + if last in table then [last] else [])
  {
    assert (ids + [last])[..|ids|] == ids && (kept + [last])[..|kept|] == kept && kept + [] == kept;
  }

  /** Erases the first occurrence of an id. */
  function Without(s: seq<Id>, x: Id): (r: seq<Id>)
    ensures forall y :: y in r ==> y in s
    ensures forall y :: y in s && y != x ==> y in r
  {
    if s == [] then [] else if s[0] == x then s[1..] else [s[0]] + Without(s[1..], x)
  }

  /** An enumeration of a table without repetitions, as its rows are visited. */
  ghost predicate Enumerates(order: seq<Id>, keys: set<Id>) {
    && (forall i :: i in order <==> i in keys)
    && (forall i, j :: 0 <= i < j < |order| ==> order[i] != order[j])
  }
}
