/** JSON documents as the configuration code sees them.

An object is the list of its members in the order the code visits them, which
is ascending order of the names; `Put` is the update that keeps that order. */
module Json {

  datatype Value =
    | Null
    | Bool(on: bool)
    | Number(digits: string)
    | Text(text: string)
    | Array(items: seq<Value>)
    | Object(members: seq<Member>)

  datatype Member = Member(key: string, value: Value)

  /** Stored text that should hold an object: the object it parses to, or text that is none. */
  datatype Document = Parsed(members: seq<Member>) | Malformed

  const EMPTY_ARRAY: Value := Array([])

  /** Byte order on names. */
  predicate Before(a: string, b: string) {
    b != [] && (a == [] || a[0] < b[0] || (a[0] == b[0] && Before(a[1..], b[1..])))
  }

  lemma {:induction false} BeforeIsStrict(a: string, b: string)
    ensures !(Before(a, b) && Before(b, a))
    ensures a == b ==> !Before(a, b)
    ensures a != b ==> Before(a, b) || Before(b, a)
  {
    if a != [] && b != [] && a[0] == b[0] {
      BeforeIsStrict(a[1..], b[1..]);
      assert a == [a[0]] + a[1..] && b == [b[0]] + b[1..];
    }
  }

  lemma {:induction false} BeforeIsTransitive(a: string, b: string, c: string)
    requires Before(a, b) && Before(b, c)
    ensures Before(a, c)
  {
    if a != [] && a[0] == b[0] == c[0] {
      BeforeIsTransitive(a[1..], b[1..], c[1..]);
    }
  }

  ghost predicate Ascending(ms: seq<Member>) {
    forall i, j :: 0 <= i < j < |ms| ==> Before(ms[i].key, ms[j].key)
  }

  /** Every name of `ms` comes before `key`. */
  ghost predicate AllBefore(ms: seq<Member>, key: string) {
    forall m :: m in ms ==> Before(m.key, key)
  }

  ghost predicate Canonical(v: Value) {
    match v
    case Array(items) => forall x :: x in items ==> Canonical(x)
    case Object(ms) => Ascending(ms) && forall m :: m in ms ==> Canonical(m.value)
    case _ => true
  }

  ghost predicate HasKey(ms: seq<Member>, key: string) {
    exists m :: m in ms && m.key == key
  }

  /** The value stored under `key`, if any. */
  function Find(ms: seq<Member>, key: string): (r: seq<Value>)
    ensures |r| <= 1
    ensures r == [] <==> !HasKey(ms, key)
    ensures r != [] ==> Member(key, r[0]) in ms
  {
    if ms == [] then []
    else if ms[0].key == key then
      assert ms[0] in ms;
      [ms[0].value]
    else Find(ms[1..], key)
  }

  /** Sets `key` in an object. */
  function Put(ms: seq<Member>, key: string, v: Value): (r: seq<Member>)
    ensures forall m :: m in r ==> m == Member(key, v) || m in ms
    ensures Member(key, v) in r
  {
    if ms == [] || Before(key, ms[0].key) then [Member(key, v)] + ms
    else if ms[0].key == key then [Member(key, v)] + ms[1..]
    else [ms[0]] + Put(ms[1..], key, v)
  }

  lemma {:induction false} PutKeepsKeys(ms: seq<Member>, key: string, v: Value, other: string)
    requires HasKey(ms, other)
    ensures HasKey(Put(ms, key, v), other)
  {
    var m :| m in ms && m.key == other;
    if ms[0].key != key && !Before(key, ms[0].key) && m != ms[0] {
      assert m in ms[1..];
      PutKeepsKeys(ms[1..], key, v, other);
      var kept :| kept in Put(ms[1..], key, v) && kept.key == other;
      assert kept in Put(ms, key, v);
    } else if ms[0].key == key && m == ms[0] {
      assert Member(key, v) in Put(ms, key, v);
    } else {
      assert m in Put(ms, key, v);
    }
  }

  lemma {:induction false} PutAtEnd(ms: seq<Member>, key: string, v: Value)
    requires AllBefore(ms, key)
    ensures Put(ms, key, v) == ms + [Member(key, v)]
  {
    if ms != [] {
      BeforeIsStrict(ms[0].key, key);
      PutAtEnd(ms[1..], key, v);
    }
  }

  lemma {:induction false} PutAscending(ms: seq<Member>, key: string, v: Value)
    requires Ascending(ms)
    ensures Ascending(Put(ms, key, v))
  {
    if ms == [] {
    } else if Before(key, ms[0].key) {
      forall j | 0 < j < |ms| ensures Before(key, ms[j].key) {
        BeforeIsTransitive(key, ms[0].key, ms[j].key);
      }
    } else if ms[0].key != key {
      BeforeIsStrict(key, ms[0].key);
      var rest := Put(ms[1..], key, v);
      PutAscending(ms[1..], key, v);
      forall j | 0 <= j < |rest| ensures Before(ms[0].key, rest[j].key) {
        assert rest[j] in rest;
      }
    }
  }

  /** An update is seen under its own name and under no other. */
  lemma {:induction false} PutFind(ms: seq<Member>, key: string, v: Value, other: string)
    ensures Find(Put(ms, key, v), other) == if other == key then [v] else Find(ms, other)
  {
    var r := Put(ms, key, v);
    if ms == [] || Before(key, ms[0].key) {
      assert r[1..] == ms;
    } else if ms[0].key == key {
      assert r[1..] == ms[1..];
    } else {
      assert r[1..] == Put(ms[1..], key, v);
      PutFind(ms[1..], key, v, other);
    }
  }
}
