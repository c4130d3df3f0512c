/** The index of serial numbers (src/SerialNumberCache.cpp): the numbers in ascending order,
and beside them their twelve-digit reversals in ascending order for `*suffix` queries. */
module SerialNumberCache {
  import opened HexText

  const WORD: nat := 0x1_0000_0000_0000_0000

  /** `std::stoull(s, nullptr, 16)` on hexadecimal digits: it throws on empty and on too large text. */
  predicate Parses(s: string)
    requires IsHex(s)
  {
    s != "" && HexValue(s) < WORD
  }

  /** A serial number has this many digits. */
  const SERIAL_DIGITS: nat := 12

  datatype Parse = Thrown | Parsed(number: nat)

  predicate IsSpace(c: char) { c == ' ' || '\t' <= c <= '\r' }

  function SkipSpaces(s: string): string {
    if s != "" && IsSpace(s[0]) then SkipSpaces(s[1..]) else s
  }

  /** The longest prefix of hexadecimal digits. */
  function HexPrefix(s: string): (r: string)
    ensures IsHex(r)
  {
    if s != "" && IsHexChar(s[0]) then [s[0]] + HexPrefix(s[1..]) else ""
  }

  function Signless(t: string): string { if t != "" && (t[0] == '-' || t[0] == '+') then t[1..] else t }

  function Bare(u: string): string {
    if |u| > 2 && u[0] == '0' && (u[1] == 'x' || u[1] == 'X') && IsHexChar(u[2]) then u[2..] else u
  }

  /** `std::stoull(s, nullptr, 16)` on any text: space, a sign and `0x` are skipped, what follows the digits is ignored. */
  function Stoull(s: string): Parse {
    var t := SkipSpaces(s);
    var d := HexPrefix(Bare(Signless(t)));
    if !Parses(d) then Thrown
    else Parsed(if t[0] == '-' then (WORD - HexValue(d)) % WORD else HexValue(d))
  }

  lemma {:induction false} HexPrefixOfHex(s: string)
    requires IsHex(s)
    ensures HexPrefix(s) == s
  {
    if s != "" {
      HexPrefixOfHex(s[1..]);
    }
  }

  lemma StoullOfHex(s: string)
    requires IsHex(s)
    ensures Stoull(s) == if Parses(s) then Parsed(HexValue(s)) else Thrown
  {
    HexPrefixOfHex(s);
    assert SkipSpaces(s) == s;
  }

  /** How the parser cuts a text: white space, a sign, `0x` before a digit, all the digits that follow, and what it ignores. */
  datatype Cut = Cut(space: string, sign: string, prefix: string, digits: string, rest: string)

  function Joined(c: Cut): string { c.space + c.sign + c.prefix + c.digits + c.rest }

  ghost predicate CutRight(c: Cut) {
    && (forall x :: x in c.space ==> IsSpace(x)) && SignRight(c.sign, c.prefix + c.digits + c.rest)
    && PrefixRight(c.prefix, c.digits + c.rest) && (c.prefix != "" ==> c.digits != "")
    && IsHex(c.digits) && (c.rest != "" ==> !IsHexChar(c.rest[0]))
  }

  ghost predicate SignRight(sign: string, word: string) {
    && (sign == "" || sign == "+" || sign == "-")
    && (sign == "" && word != "" ==> !IsSpace(word[0]) && word[0] != '+' && word[0] != '-')
  }

  ghost predicate PrefixRight(prefix: string, word: string) {
    && (prefix == "" || prefix == "0x" || prefix == "0X")
    && (prefix == "" && |word| > 2 && word[0] == '0' && (word[1] == 'x' || word[1] == 'X') ==> !IsHexChar(word[2]))
  }

  lemma {:induction false} SpacesSkipped(s: string) returns (space: string)
    ensures s == space + SkipSpaces(s) && forall x :: x in space ==> IsSpace(x)
    ensures SkipSpaces(s) != "" ==> !IsSpace(SkipSpaces(s)[0])
  {
    space := "";
    if s != "" && IsSpace(s[0]) {
      var more := SpacesSkipped(s[1..]);
      space := [s[0]] + more;
      assert s == [s[0]] + s[1..];
    }
  }

  lemma {:induction false} DigitsTaken(s: string) returns (rest: string)
    ensures s == HexPrefix(s) + rest && (rest != "" ==> !IsHexChar(rest[0]))
  {
    rest := s;
    if s != "" && IsHexChar(s[0]) {
      rest := DigitsTaken(s[1..]);
      assert s == [s[0]] + s[1..];
    }
  }

  /** What is read from a text: the number its digits spell, modulo the word size below zero after a minus sign, and an exception
      when there are no digits or too many. */
  ghost predicate Reads(c: Cut, p: Parse)
    requires IsHex(c.digits)
  {
    p == if c.digits == "" || HexValue(c.digits) >= WORD then Thrown
         else Parsed(if c.sign == "-" then (WORD - HexValue(c.digits)) % WORD else HexValue(c.digits))
  }

  lemma SignCut(t: string) returns (sign: string)
    requires t != "" ==> !IsSpace(t[0])
    ensures t == sign + Signless(t) && SignRight(sign, Signless(t)) && (sign == "-" <==> t != "" && t[0] == '-')
  {
    sign := if Signless(t) == t then "" else t[..1];
  }

  lemma PrefixCut(u: string) returns (prefix: string)
    ensures u == prefix + Bare(u) && PrefixRight(prefix, Bare(u)) && (prefix != "" ==> HexPrefix(Bare(u)) != "")
  {
    prefix := if Bare(u) == u then "" else u[..2];
  }

  lemma PartsJoin(c: Cut, t: string, u: string, word: string)
    requires t == c.sign + u && u == c.prefix + word && word == c.digits + c.rest
    requires (forall x :: x in c.space ==> IsSpace(x)) && SignRight(c.sign, u) && PrefixRight(c.prefix, word)
    requires (c.prefix != "" ==> c.digits != "") && IsHex(c.digits) && (c.rest != "" ==> !IsHexChar(c.rest[0]))
    ensures Joined(c) == c.space + t && CutRight(c)
  {
    assert c.prefix + c.digits + c.rest == u;
    assert Joined(c) == c.space + (c.sign + (c.prefix + (c.digits + c.rest)));
  }

  lemma StoullReads(s: string) returns (c: Cut)
    ensures Joined(c) == s && CutRight(c) && Reads(c, Stoull(s))
  {
    var t := SkipSpaces(s);
    var u := Signless(t);
    var word := Bare(u);
    var space := SpacesSkipped(s);
    var sign := SignCut(t);
    var prefix := PrefixCut(u);
    var rest := DigitsTaken(word);
    c := Cut(space, sign, prefix, HexPrefix(word), rest);
    PartsJoin(c, t, u, word);
    PartsRead(s, c);
  }

  lemma PartsRead(s: string, c: Cut)
    requires var t := SkipSpaces(s); c.digits == HexPrefix(Bare(Signless(t))) && (c.sign == "-" <==> t != "" && t[0] == '-')
    ensures IsHex(c.digits) && Reads(c, Stoull(s))
  {
  }

  // ---------------------------------------------------------------- ordered lists

  ghost predicate Strict(s: seq<nat>) { forall i, j :: 0 <= i < j < |s| ==> s[i] < s[j] }

  ghost predicate Weak(s: seq<nat>) { forall i, j :: 0 <= i < j < |s| ==> s[i] <= s[j] }

  /** The place of `std::lower_bound`. */
  ghost predicate IsLowerBound(s: seq<nat>, x: nat, p: nat) {
    p <= |s| && (forall i :: 0 <= i < p ==> s[i] < x) && (forall i :: p <= i < |s| ==> s[i] >= x)
  }

  function LowerBound(s: seq<nat>, x: nat): (p: nat)
    ensures p <= |s|
  {
    if s == [] || s[0] >= x then 0 else 1 + LowerBound(s[1..], x)
  }

  lemma {:induction false} LowerBoundUnique(s: seq<nat>, x: nat, p: nat)
    requires IsLowerBound(s, x, p)
    ensures LowerBound(s, x) == p
  {
    if p > 0 {
      LowerBoundUnique(s[1..], x, p - 1);
    }
  }

  lemma {:induction false} LowerBoundCorrect(s: seq<nat>, x: nat)
    requires Weak(s)
    ensures IsLowerBound(s, x, LowerBound(s, x))
  {
    if s != [] && s[0] < x {
      LowerBoundCorrect(s[1..], x);
    }
  }

  function Insert(s: seq<nat>, x: nat): seq<nat> {
    s[..LowerBound(s, x)] + [x] + s[LowerBound(s, x)..]
  }

  /** Where each element of the list goes, and what is at the insertion place. */
  lemma InsertPlaces(s: seq<nat>, x: nat)
    requires Weak(s)
    ensures IsLowerBound(s, x, LowerBound(s, x)) && IsInsertion(s, x, LowerBound(s, x), Insert(s, x))
  {
    LowerBoundCorrect(s, x);
  }

  lemma InsertMembers(s: seq<nat>, x: nat)
    ensures forall y :: y in Insert(s, x) <==> y in s || y == x
  {
    var p := LowerBound(s, x);
    assert s == s[..p] + s[p..];
    assert forall y :: y in s <==> y in s[..p] || y in s[p..];
  }

  /** `r` is `s` with `x` put in at place `p`. */
  ghost predicate IsInsertion(s: seq<nat>, x: nat, p: nat, r: seq<nat>) {
    && p <= |s| && |r| == |s| + 1 && r[p] == x
    && (forall i :: 0 <= i < p ==> r[i] == s[i])
    && (forall i :: p < i < |r| ==> r[i] == s[i - 1])
  }

  lemma InsertionOrder(s: seq<nat>, x: nat, p: nat, r: seq<nat>)
    requires Weak(s) && IsLowerBound(s, x, p) && IsInsertion(s, x, p, r)
    ensures Weak(r)
    ensures Strict(s) && x !in s ==> Strict(r)
  {
  }

  lemma InsertionStrict(s: seq<nat>, x: nat, p: nat, r: seq<nat>)
    requires Weak(s) && IsLowerBound(s, x, p) && IsInsertion(s, x, p, r) && Strict(r)
    ensures Strict(s) && x !in s
  {
    forall i, j | 0 <= i < j < |s| ensures s[i] < s[j] {
      var i', j' := if i < p then i else i + 1, if j < p then j else j + 1;
      assert s[i] == r[i'] && s[j] == r[j'] && r[i'] < r[j'];
    }
    forall i | 0 <= i < |s| ensures s[i] != x {
      if i >= p {
        assert s[i] == r[i + 1] && r[p] < r[i + 1];
      }
    }
  }

  lemma InsertSpec(s: seq<nat>, x: nat)
    requires Weak(s)
    ensures Weak(Insert(s, x))
    ensures forall y :: y in Insert(s, x) <==> y in s || y == x
    ensures Strict(Insert(s, x)) <==> Strict(s) && x !in s
  {
    InsertMembers(s, x);
    InsertPlaces(s, x);
    InsertionOrder(s, x, LowerBound(s, x), Insert(s, x));
    if Strict(Insert(s, x)) {
      InsertionStrict(s, x, LowerBound(s, x), Insert(s, x));
    }
  }

  /** Erases the first occurrence. */
  function Erase(s: seq<nat>, x: nat): seq<nat> {
    if s == [] then [] else if s[0] == x then s[1..] else [s[0]] + Erase(s[1..], x)
  }

  lemma {:induction false} EraseMembers(s: seq<nat>, x: nat)
    ensures forall y :: y in Erase(s, x) ==> y in s
    ensures forall y :: y in s && y != x ==> y in Erase(s, x)
  {
    if s != [] && s[0] != x {
      EraseMembers(s[1..], x);
    }
  }

  lemma {:induction false} EraseWeak(s: seq<nat>, x: nat)
    requires Weak(s)
    ensures Weak(Erase(s, x))
  {
    if s != [] && s[0] != x {
      EraseWeak(s[1..], x);
      EraseMembers(s[1..], x);
      ConsOrder(s[0], s[1..], Erase(s[1..], x));
      assert s == [s[0]] + s[1..];
    }
  }

  lemma {:induction false} EraseStrict(s: seq<nat>, x: nat)
    requires Strict(s)
    ensures Strict(Erase(s, x)) && x !in Erase(s, x)
  {
    if s != [] {
      assert forall i :: 0 <= i < |s[1..]| ==> s[1..][i] > s[0];
      if s[0] != x {
        EraseStrict(s[1..], x);
        EraseMembers(s[1..], x);
        ConsOrder(s[0], s[1..], Erase(s[1..], x));
        assert s == [s[0]] + s[1..];
      }
    }
  }

  lemma EraseSpec(s: seq<nat>, x: nat)
    requires Weak(s)
    ensures Weak(Erase(s, x)) && (Strict(s) ==> Strict(Erase(s, x)) && x !in Erase(s, x))
    ensures forall y :: y in Erase(s, x) ==> y in s
    ensures forall y :: y in s && y != x ==> y in Erase(s, x)
  {
    EraseWeak(s, x);
    EraseMembers(s, x);
    if Strict(s) {
      EraseStrict(s, x);
    }
  }

  lemma ConsOrder(a: nat, s: seq<nat>, rest: seq<nat>)
    requires forall y :: y in rest ==> y in s
    ensures Weak([a] + s) && Weak(rest) ==> Weak([a] + rest)
    ensures Strict([a] + s) && Strict(rest) ==> Strict([a] + rest)
  {
    forall i | 0 <= i < |rest|
      ensures Weak([a] + s) ==> a <= rest[i]
      ensures Strict([a] + s) ==> a < rest[i]
    {
      assert rest[i] in rest;
      var k :| 0 <= k < |s| && s[k] == rest[i];
      assert ([a] + s)[0] == a && ([a] + s)[k + 1] == rest[i];
    }
  }

  lemma {:induction false} EraseAt(s: seq<nat>, x: nat, k: nat)
    requires k < |s| && s[k] == x && forall i :: 0 <= i < k ==> s[i] != x
    ensures Erase(s, x) == s[..k] + s[k + 1..]
  {
    if k > 0 {
      EraseAt(s[1..], x, k - 1);
      assert s[..k] == [s[0]] + s[1..][..k - 1];
      assert s[1..][k..] == s[k + 1..];
    }
  }

  // ---------------------------------------------------------------- the two vectors

  datatype Index = Index(numbers: seq<nat>, reversed: seq<nat>)

  /** What every operation keeps, whatever the length of the serials. */
  ghost predicate Ordered(i: Index) { Strict(i.numbers) && Weak(i.reversed) }

  /** The second vector is exactly the image of the first under `f`, and both ascend. */
  ghost predicate LockstepBy(i: Index, f: nat -> nat, bound: nat) {
    && Strict(i.numbers) && Strict(i.reversed)
    && (forall x :: x in i.numbers ==> x < bound)
    && (set r | r in i.reversed) == (set x | x in i.numbers :: f(x))
  }

  ghost function Reversal(k: nat): nat -> nat { (x: nat) => ReverseDigits(x, k) }

  /** The vectors are in lockstep under reversal of `k` digits. */
  ghost predicate Lockstep(i: Index, k: nat) { LockstepBy(i, Reversal(k), Pow16(k)) }

  ghost predicate Involution(f: nat -> nat, bound: nat) {
    forall x: nat :: x < bound ==> f(x) < bound && f(f(x)) == x
  }

  lemma ReversalIsInvolution(k: nat)
    ensures Involution(Reversal(k), Pow16(k))
  {
    forall x: nat | x < Pow16(k) ensures Reversal(k)(x) < Pow16(k) && Reversal(k)(Reversal(k)(x)) == x {
      DigitsOfReverse(x, k);
      ReverseDigitsTwice(x, k);
    }
  }

  /** Reading of the image that avoids the comprehension. */
  ghost predicate Mirrored(i: Index, f: nat -> nat, bound: nat) {
    && (forall x :: x in i.numbers ==> x < bound && f(x) in i.reversed)
    && (forall r :: r in i.reversed ==> r < bound && f(r) in i.numbers)
  }

  lemma LockstepIsMirrored(i: Index, f: nat -> nat, bound: nat)
    requires Involution(f, bound)
    ensures LockstepBy(i, f, bound) <==> Strict(i.numbers) && Strict(i.reversed) && Mirrored(i, f, bound)
  {
    var left, right := (set r | r in i.reversed), (set x | x in i.numbers :: f(x));
    if LockstepBy(i, f, bound) {
      forall x | x in i.numbers ensures f(x) in i.reversed {
        assert f(x) in right;
      }
      forall r | r in i.reversed ensures r < bound && f(r) in i.numbers {
        assert r in left && r in right;
      }
    }
    if Mirrored(i, f, bound) {
      forall r | r in left ensures r in right {
        assert f(f(r)) == r;
      }
      assert left == right;
    }
  }

  /** Inserting `v` on one side and perhaps `r` on the other. */
  lemma InsertLockstep(i: Index, f: nat -> nat, bound: nat, v: nat, r: nat, parsed: bool)
    requires Involution(f, bound) && LockstepBy(i, f, bound) && v !in i.numbers
    ensures var after := Index(Insert(i.numbers, v), if parsed then Insert(i.reversed, r) else i.reversed);
      LockstepBy(after, f, bound) <==> v < bound && parsed && r == f(v)
  {
    var after := Index(Insert(i.numbers, v), if parsed then Insert(i.reversed, r) else i.reversed);
    LockstepIsMirrored(i, f, bound);
    LockstepIsMirrored(after, f, bound);
    InsertSpec(i.numbers, v);
    InsertSpec(i.reversed, r);
    assert v in after.numbers;
    if v < bound {
      assert f(v) !in i.reversed;
    }
  }

  lemma EraseLockstep(i: Index, f: nat -> nat, bound: nat, v: nat, r: nat, parsed: bool)
    requires Involution(f, bound) && LockstepBy(i, f, bound) && v in i.numbers
    ensures var after := Index(Erase(i.numbers, v), if parsed then Erase(i.reversed, r) else i.reversed);
      LockstepBy(after, f, bound) <==> v < bound && parsed && r == f(v)
  {
    var after := Index(Erase(i.numbers, v), if parsed then Erase(i.reversed, r) else i.reversed);
    LockstepIsMirrored(i, f, bound);
    LockstepIsMirrored(after, f, bound);
    EraseSpec(i.numbers, v);
    EraseSpec(i.reversed, r);
    assert f(v) in i.reversed;
    if parsed && r == f(v) {
      assert forall x :: x in after.reversed ==> f(x) != v;
      assert forall x :: x in after.numbers ==> f(x) != r;
    } else {
      assert f(v) in after.reversed;
    }
  }

  /** `AddSerialNumber`. Parsing the reversed text may throw after the number was inserted. */
  function Added(i: Index, s: string): Index
    requires IsHex(s)
  {
    ReversedText(s);
    if !Parses(s) || HexValue(s) in i.numbers then i
    else
      var numbers := Insert(i.numbers, HexValue(s));
      if Parses(Reversed(s)) then Index(numbers, Insert(i.reversed, HexValue(Reversed(s))))
      else Index(numbers, i.reversed)
  }

  /** `DeleteSerialNumber`. */
  function Deleted(i: Index, s: string): Index
    requires IsHex(s)
  {
    ReversedText(s);
    if !Parses(s) || HexValue(s) !in i.numbers then i
    else
      var numbers := Erase(i.numbers, HexValue(s));
      if Parses(Reversed(s)) then Index(numbers, Erase(i.reversed, HexValue(Reversed(s))))
      else Index(numbers, i.reversed)
  }

  // ---------------------------------------------------------------- when text and number agree

  predicate AllZero(s: string) { forall i :: 0 <= i < |s| ==> s[i] == '0' }

  /** Reversing the text of `s` and reversing its number as `k` digits is the same. */
  predicate Agrees(s: string, k: nat)
    requires IsHex(s)
  {
    ReversedText(s);
    HexValue(s) < Pow16(k) && Parses(Reversed(s)) && HexValue(Reversed(s)) == ReverseDigits(HexValue(s), k)
  }

  function Zeros(k: nat): (d: seq<Nibble>)
    ensures |d| == k && forall i :: 0 <= i < k ==> d[i] == 0
  {
    if k == 0 then [] else Zeros(k - 1) + [0]
  }

  lemma {:induction false} ValueZero(d: seq<Nibble>)
    ensures Value(d) == 0 <==> forall i :: 0 <= i < |d| ==> d[i] == 0
  {
    if d != [] {
      ValueZero(d[..|d| - 1]);
    }
  }

  lemma PadWithZeros(d: seq<Nibble>, n: nat)
    requires n >= |d|
    ensures Digits(Value(d), n) == Zeros(n - |d|) + d
  {
    var z := Zeros(n - |d|);
    ValueConcat(z, d);
    ValueZero(z);
    assert Value(z + d) == Value(d);
    DigitsOfValue(z + d);
  }

  lemma ReversedZeros(k: nat, d: seq<Nibble>)
    ensures Value(Reversed(Zeros(k) + d)) == Value(Reversed(d)) * Pow16(k)
  {
    ReversedConcat(Zeros(k), d);
    var z := Reversed(Zeros(k));
    ValueConcat(Reversed(d), z);
    ReversedAt(Zeros(k));
    ValueZero(z);
    assert |z| == k && Value(z) == 0;
  }

  lemma TimesPow16(w: nat, k: nat)
    requires k > 0
    ensures w * Pow16(k) == w <==> w == 0
  {
    var p := Pow16(k - 1);
    assert w * Pow16(k) == 16 * (w * p);
    assert w * p >= w;
  }

  lemma ReversedIsZero(d: seq<Nibble>)
    ensures Value(Reversed(d)) == 0 <==> Value(d) == 0
  {
    ValueZero(d);
    ValueZero(Reversed(d));
    ReversedAt(d);
    if Value(Reversed(d)) == 0 {
      forall i | 0 <= i < |d| ensures d[i] == 0 {
        assert Reversed(d)[|d| - 1 - i] == d[i];
      }
    }
  }

  lemma ZeroText(s: string)
    requires IsHex(s)
    ensures AllZero(s) <==> HexValue(s) == 0
  {
    ValueZero(Nibbles(s));
    assert forall i :: 0 <= i < |s| ==> (s[i] == '0' <==> Nibbles(s)[i] == 0);
  }

  /** A shorter text, padded on the left by the number and on the right by the reversal. */
  lemma ShortReversal(d: seq<Nibble>, n: nat)
    requires |d| < n
    ensures Value(d) < Pow16(n)
    ensures ReverseDigits(Value(d), n) == Value(Reversed(d)) <==> Value(d) == 0
  {
    PadWithZeros(d, n);
    ReversedZeros(n - |d|, d);
    TimesPow16(Value(Reversed(d)), n - |d|);
    ReversedIsZero(d);
    ValueBound(d);
    PowMonotone(|d|, n);
  }

  lemma LongReversal(d: seq<Nibble>, n: nat)
    requires |d| > n && Value(d) < Pow16(n)
    ensures ReverseDigits(Value(d), n) == Value(Reversed(d)) <==> Value(d) == 0
  {
    var v := Value(d);
    var low := Digits(v, n);
    ValueOfDigits(v, n);
    PadWithZeros(low, |d|);
    DigitsOfValue(d);
    assert d == Zeros(|d| - n) + low;
    ReversedZeros(|d| - n, low);
    var w := Value(Reversed(low));
    assert Value(Reversed(d)) == w * Pow16(|d| - n);
    TimesPow16(w, |d| - n);
    ReversedIsZero(low);
  }

  lemma SameLengthReversal(d: seq<Nibble>)
    ensures ReverseDigits(Value(d), |d|) == Value(Reversed(d)) && Value(d) < Pow16(|d|) && Value(Reversed(d)) < Pow16(|d|)
  {
    DigitsOfValue(d);
    ValueBound(d);
    ValueBound(Reversed(d));
  }

  lemma WordBound(k: nat)
    requires k <= 16
    ensures Pow16(k) <= WORD
  {
    PowMonotone(k, 16);
    Pow16Values();
  }

  lemma DigitsAgree(d: seq<Nibble>, k: nat, v: nat, w: nat)
    requires v == Value(d) && w == Value(Reversed(d))
    ensures v < Pow16(k) && w == ReverseDigits(v, k) <==> |d| == k || v == 0
    ensures |d| == k ==> w < Pow16(k)
    ensures v == 0 ==> w == 0
  {
    ReversedIsZero(d);
    if |d| == k {
      SameLengthReversal(d);
    } else if |d| < k {
      ShortReversal(d, k);
    } else if v < Pow16(k) {
      LongReversal(d, k);
    }
  }

  /** They agree exactly on serials of `k` digits and on zero. */
  lemma AgreesExactly(s: string, k: nat)
    requires IsHex(s) && Parses(s) && k <= 16
    ensures Agrees(s, k) <==> |s| == k || AllZero(s)
  {
    ReversedText(s);
    DigitsAgree(Nibbles(s), k, HexValue(s), HexValue(Reversed(s)));
    ZeroText(s);
    WordBound(k);
  }

  lemma {:induction false} PowMonotone(j: nat, k: nat)
    requires j <= k
    ensures Pow16(j) <= Pow16(k)
  {
    if j < k {
      PowMonotone(j, k - 1);
    }
  }

  // ---------------------------------------------------------------- what additions and deletions keep

  lemma OrderedKept(i: Index, s: string)
    requires Ordered(i) && IsHex(s)
    ensures Ordered(Added(i, s)) && Ordered(Deleted(i, s))
  {
    ReversedText(s);
    InsertSpec(i.numbers, HexValue(s));
    InsertSpec(i.reversed, HexValue(Reversed(s)));
    EraseSpec(i.numbers, HexValue(s));
    EraseSpec(i.reversed, HexValue(Reversed(s)));
  }

  /** Adding a new serial keeps the two vectors in lockstep exactly when it has `k` digits or is zero. */
  lemma AddKeepsLockstep(i: Index, s: string, k: nat)
    requires Lockstep(i, k) && k <= 16 && IsHex(s) && Parses(s) && HexValue(s) !in i.numbers
    ensures Lockstep(Added(i, s), k) <==> |s| == k || AllZero(s)
  {
    AgreesExactly(s, k);
    ReversedText(s);
    ReversalIsInvolution(k);
    InsertLockstep(i, Reversal(k), Pow16(k), HexValue(s), HexValue(Reversed(s)), Parses(Reversed(s)));
  }

  /** For instance, the serial `1` is filed as `1` on both sides, but its twelve digits reversed are `100000000000`. */
  lemma ShortSerialBreaksLockstep()
    ensures Lockstep(Index([], []), 12) && !Lockstep(Added(Index([], []), "1"), 12)
  {
    var s := "1";
    assert HexValue(s) == 1 by {
      assert s[..0] == "" && Nibbles(s) == [1] && [1][..0] == [];
    }
    assert s[0] == '1';
    AddKeepsLockstep(Index([], []), s, 12);
  }

  /** Deleting a live serial keeps the lockstep exactly under the same condition. */
  lemma DeleteKeepsLockstep(i: Index, s: string, k: nat)
    requires Lockstep(i, k) && k <= 16 && IsHex(s) && Parses(s) && HexValue(s) in i.numbers
    ensures Lockstep(Deleted(i, s), k) <==> |s| == k || AllZero(s)
  {
    AgreesExactly(s, k);
    ReversedText(s);
    ReversalIsInvolution(k);
    EraseLockstep(i, Reversal(k), Pow16(k), HexValue(s), HexValue(Reversed(s)), Parses(Reversed(s)));
  }

  /** The serial has a number, and it is `v`. */
  ghost predicate Spells(s: string, v: nat) { IsHex(s) && Parses(s) && HexValue(s) == v }

  lemma AddedContents(i: Index, s: string, v: nat)
    requires Ordered(i) && IsHex(s)
    ensures v in Added(i, s).numbers <==> v in i.numbers || Spells(s, v)
  {
    InsertSpec(i.numbers, HexValue(s));
  }

  lemma DeletedContents(i: Index, s: string, v: nat)
    requires Ordered(i) && IsHex(s)
    ensures v in Deleted(i, s).numbers <==> v in i.numbers && !Spells(s, v)
  {
    EraseSpec(i.numbers, HexValue(s));
  }

  datatype Operation = Add(serial: string) | Delete(serial: string)

  /** The last operation on `v` added it, or there is none and it was there. */
  ghost predicate LiveAfter(before: bool, ops: seq<Operation>, v: nat) {
    || (before && forall j :: 0 <= j < |ops| ==> !Spells(ops[j].serial, v))
    || exists j :: 0 <= j < |ops| && ops[j].Add? && Spells(ops[j].serial, v) && forall l :: j < l < |ops| ==> !Spells(ops[l].serial, v)
  }

  lemma LiveStep(before: bool, ops: seq<Operation>, v: nat)
    requires ops != []
    ensures var next := if Spells(ops[0].serial, v) then ops[0].Add? else before;
      LiveAfter(before, ops, v) <==> LiveAfter(next, ops[1..], v)
  {
    var next := if Spells(ops[0].serial, v) then ops[0].Add? else before;
    var rest := ops[1..];
    assert forall j :: 0 <= j < |rest| ==> rest[j] == ops[j + 1];
    if LiveAfter(before, ops, v) {
      if j :| 0 <= j < |ops| && ops[j].Add? && Spells(ops[j].serial, v) && forall l :: j < l < |ops| ==> !Spells(ops[l].serial, v) {
        if j > 0 {
          assert rest[j - 1] == ops[j];
        }
      }
    }
    if LiveAfter(next, rest, v) {
      if j :| 0 <= j < |rest| && rest[j].Add? && Spells(rest[j].serial, v) && forall l :: j < l < |rest| ==> !Spells(rest[l].serial, v) {
        assert forall l :: j + 1 < l < |ops| ==> ops[l] == rest[l - 1];
        assert ops[j + 1] == rest[j];
      } else {
        assert forall l :: 0 < l < |ops| ==> ops[l] == rest[l - 1];
      }
    }
  }

  /** After every sequence of additions and deletions exactly the serials whose last operation added them are there, besides those that
      were and were not touched. */
  lemma {:induction false} RunContents(i: Index, ops: seq<Operation>, v: nat)
    requires Ordered(i) && forall j :: 0 <= j < |ops| ==> IsHex(ops[j].serial)
    ensures v in Run(i, ops).numbers <==> LiveAfter(v in i.numbers, ops, v)
    decreases |ops|
  {
    if ops != [] {
      var s := ops[0].serial;
      OrderedKept(i, s);
      AddedContents(i, s, v);
      DeletedContents(i, s, v);
      LiveStep(v in i.numbers, ops, v);
      RunContents(match ops[0] case Add(s) => Added(i, s) case Delete(s) => Deleted(i, s), ops[1..], v);
    }
  }

  function Run(i: Index, ops: seq<Operation>): Index
    requires forall k :: 0 <= k < |ops| ==> IsHex(ops[k].serial)
    decreases |ops|
  {
    if ops == [] then i
    else Run(match ops[0] case Add(s) => Added(i, s) case Delete(s) => Deleted(i, s), ops[1..])
  }

  /** Every sequence of additions and deletions of serials of `k` digits keeps the lockstep. */
  lemma {:induction false} RunKeepsLockstep(i: Index, ops: seq<Operation>, k: nat)
    requires Lockstep(i, k) && 0 < k <= 16
    requires forall j :: 0 <= j < |ops| ==> IsHex(ops[j].serial) && |ops[j].serial| == k
    ensures Lockstep(Run(i, ops), k)
    decreases |ops|
  {
    if ops != [] {
      var s := ops[0].serial;
      ValueBound(Nibbles(s));
      WordBound(k);
      if HexValue(s) in i.numbers {
        DeleteKeepsLockstep(i, s, k);
      } else {
        AddKeepsLockstep(i, s, k);
      }
      RunKeepsLockstep(match ops[0] case Add(s) => Added(i, s) case Delete(s) => Deleted(i, s), ops[1..], k);
    }
  }

  // ---------------------------------------------------------------- queries

  predicate EndsWith(text: string, q: string) {
    |q| <= |text| && text[|text| - |q|..] == q
  }

  /** `found` is the first `n` of the wanted live serials, in strictly ascending order of the key. */
  ghost predicate FirstOf(found: seq<nat>, n: nat, live: seq<nat>, wanted: nat -> bool, key: nat -> nat) {
    && |found| <= n
    && (forall i :: 0 <= i < |found| ==> found[i] in live && wanted(found[i]))
    && (forall i, j :: 0 <= i < j < |found| ==> key(found[i]) < key(found[j]))
    && (forall x :: x in live && wanted(x) && x !in found ==>
          |found| == n && forall i :: 0 <= i < |found| ==> key(found[i]) < key(x))
  }

  ghost function StartsIn(q: string, k: nat): nat -> bool { (x: nat) => q <= TextOf(x, k) }

  ghost function EndsIn(q: string, k: nat): nat -> bool { (x: nat) => EndsWith(TextOf(x, k), q) }

  /** The first serials, in ascending order, whose text starts with `q`. */
  ghost predicate FirstByPrefix(found: seq<nat>, n: nat, live: seq<nat>, q: string, k: nat) {
    FirstOf(found, n, live, StartsIn(q, k), (x: nat) => x)
  }

  /** The first serials, in ascending order of their reversal, whose text ends with `q`. */
  ghost predicate FirstBySuffix(found: seq<nat>, n: nat, live: seq<nat>, q: string, k: nat) {
    FirstOf(found, n, live, EndsIn(q, k), Reversal(k))
  }

  /** The list holds exactly the keys of the live serials, and a key matches when its serial is wanted. */
  ghost predicate Keyed(arr: seq<nat>, live: seq<nat>, match': nat -> bool, back: nat -> nat, wanted: nat -> bool, key: nat -> nat) {
    && (forall r :: r in arr ==> back(r) in live && key(back(r)) == r && (wanted(back(r)) <==> match'(r)))
    && (forall x :: x in live ==> key(x) in arr && back(key(x)) == x)
  }

  /** A stretch of an ascending list of keys gives the first serials: it holds all matching keys up to
      its end, and more only if it is full; `back` leads from keys to serials. */
  lemma StretchIsFirst(arr: seq<nat>, found: seq<nat>, n: nat, live: seq<nat>, lo: nat, hi: nat,
                       match': nat -> bool, back: nat -> nat, wanted: nat -> bool, key: nat -> nat)
    requires Strict(arr) && Window(arr, match', n, lo, hi) && Copied(found, arr, lo, hi, back)
    requires Keyed(arr, live, match', back, wanted, key)
    ensures FirstOf(found, n, live, wanted, key)
  {
    forall i | 0 <= i < |found| ensures found[i] in live && wanted(found[i]) && key(found[i]) == arr[lo + i] {
      assert arr[lo + i] in arr;
    }
    forall j | lo <= j < hi ensures back(arr[j]) in found {
      assert found[j - lo] == back(arr[lo + (j - lo)]);
    }
    forall x | x in live && wanted(x) && x !in found
      ensures |found| == n && forall i :: 0 <= i < |found| ==> key(found[i]) < key(x)
    {
      var j :| 0 <= j < |arr| && arr[j] == key(x);
      assert match'(arr[j]) && back(arr[j]) == x;
    }
  }

  lemma EndIsReversedStart(t: string, q: string)
    requires |q| <= |t|
    ensures EndsWith(t, q) <==> Reversed(q) <= Reversed(t)
  {
    var m := |t| - |q|;
    assert t == t[..m] + t[m..];
    ReversedConcat(t[..m], t[m..]);
    ReversedTwice(t[m..]);
    ReversedTwice(q);
    assert Reversed(t)[..|q|] == Reversed(t[m..]);
    PrefixIsSlice(Reversed(q), Reversed(t));
  }

  lemma SuffixIsReversedPrefix(x: nat, q: string, k: nat)
    requires |q| <= k
    ensures EndsWith(TextOf(x, k), q) <==> Reversed(q) <= TextOf(ReverseDigits(x, k), k)
  {
    TextOfReverse(x, k);
    EndIsReversedStart(TextOf(x, k), q);
  }

  /** The matches in an ascending list are consecutive: `arr[lo..hi]` are the first `n` of them. */
  ghost predicate Window(arr: seq<nat>, match': nat -> bool, n: nat, lo: nat, hi: nat) {
    && lo <= hi <= |arr| && hi - lo <= n
    && (forall i :: 0 <= i < lo ==> !match'(arr[i]))
    && (forall i :: lo <= i < hi ==> match'(arr[i]))
    && (hi - lo < n ==> forall i :: hi <= i < |arr| ==> !match'(arr[i]))
  }

  /** `found` is a stretch of a vector, led back to the live serials. */
  ghost predicate Copied(found: seq<nat>, arr: seq<nat>, lo: nat, hi: nat, back: nat -> nat) {
    && lo <= hi <= |arr| && |found| == hi - lo
    && forall i :: 0 <= i < hi - lo ==> found[i] == back(arr[lo + i])
  }

  /** The first `n` matches of a vector, led back to the live serials. */
  ghost predicate Stretch(found: seq<nat>, arr: seq<nat>, match': nat -> bool, n: nat, back: nat -> nat) {
    exists lo: nat, hi: nat :: Copied(found, arr, lo, hi, back) && Window(arr, match', n, lo, hi)
  }

  /** A vector of reversals leads back by reversal, the vector of numbers by identity. */
  ghost function Back(reverseResult: bool, k: nat): nat -> nat {
    if reverseResult then Reversal(k) else (x: nat) => x
  }

  /** Numbers below the padded query do not match; above it, one that fails rules out all larger ones. */
  lemma MatchesAreConsecutive(p: string, k: nat, target: nat, x: nat, y: nat)
    requires IsHex(p) && |p| <= k && target == HexValue(p) * Pow16(k - |p|) && x < Pow16(k) && y < Pow16(k)
    ensures x < target ==> !(p <= TextOf(x, k))
    ensures target <= x <= y && !(p <= TextOf(x, k)) ==> !(p <= TextOf(y, k))
  {
    PrefixIsInterval(x, p, k);
    PrefixIsInterval(y, p, k);
    DropIsFloor(x, HexValue(p), k - |p|);
    DropIsFloor(x, HexValue(p) + 1, k - |p|);
    DropIsFloor(y, HexValue(p) + 1, k - |p|);
  }

  function Padded(p: string, k: nat): (r: string)
    requires |p| <= k
    ensures |r| == k
  {
    p + seq(k - |p|, _ => '0')
  }

  lemma PaddedValue(p: string, k: nat)
    requires IsHex(p) && |p| <= k
    ensures IsHex(Padded(p, k)) && HexValue(Padded(p, k)) == HexValue(p) * Pow16(k - |p|)
  {
    var z := seq(k - |p|, _ => '0');
    assert Nibbles(p + z) == Nibbles(p) + Nibbles(z);
    ValueConcat(Nibbles(p), Nibbles(z));
    ValueZero(Nibbles(z));
  }

  /** `std::lower_bound` by halving. */
  method FindLowerBound(s: seq<nat>, x: nat) returns (p: nat)
    requires Weak(s)
    ensures IsLowerBound(s, x, p) && p == LowerBound(s, x)
  {
    var first, count := 0, |s|;
    while count > 0
      invariant 0 <= first && 0 <= count && first + count <= |s|
      invariant forall i :: 0 <= i < first ==> s[i] < x
      invariant forall i :: first + count <= i < |s| ==> s[i] >= x
    {
      var step := count / 2;
      if s[first + step] < x {
        first, count := first + step + 1, count - step - 1;
      } else {
        count := step;
      }
    }
    p := first;
    LowerBoundUnique(s, x, p);
  }

  /** The digits of a serial, as a number the proofs need not know. */
  predicate SerialLength(k: nat) { k == SERIAL_DIGITS }

  /** The 64-bit shift loop: sixteen digits are turned round, then the low four are dropped. */
  method Reverse(n: nat, ghost k: nat) returns (r: nat)
    requires n < WORD && SerialLength(k)
    ensures r == ReverseDigits(n, k)
  {
    var res, rest := 0, n;
    ghost var done: seq<Nibble> := [];
    for i := 0 to 16
      invariant |done| == i && Digits(n, 16) == Digits(rest, 16 - i) + done
      invariant res == Value(Reversed(done)) < WORD
    {
      ghost var digit: Nibble := rest % 16;
      ghost var next := [digit] + done;
      ReverseStep(rest, digit, 16 - i, done);
      WordBound(i + 1);
      ValueBound(Reversed(next));
      res := res * 16 % WORD + rest % 16;
      rest := rest / 16;
      done := next;
    }
    assert Digits(n, 16) == done;
    r := res / 0x1_0000;
    DropFour(res);
    DropReversed(n, 4, k);
  }

  lemma ReverseStep(rest: nat, digit: Nibble, k: nat, done: seq<Nibble>)
    requires k > 0 && digit == rest % 16
    ensures Digits(rest, k) + done == Digits(rest / 16, k - 1) + ([digit] + done)
    ensures Value(Reversed([digit] + done)) == Value(Reversed(done)) * 16 + digit
  {
    assert ([digit] + done)[1..] == done;
    AppendValue(Reversed(done), digit);
  }

  lemma AppendValue(d: seq<Nibble>, x: Nibble)
    ensures Value(d + [x]) == Value(d) * 16 + x
  {
    assert (d + [x])[..|d|] == d;
  }

  lemma DropFour(x: nat)
    ensures DropDigits(x, 4) == x / 0x1_0000
  {
    assert DropDigits(x, 4) == DropDigits(x / 16, 3) == DropDigits(x / 16 / 16, 2) == DropDigits(x / 16 / 16 / 16, 1);
  }

  // ---------------------------------------------------------------- the cache

  /** The branch of `ReturnNumbers` for a query of all `k` digits. */
  method ReturnExact(p: string, arr: seq<nat>, reverseResult: bool, k: nat) returns (ok: bool, found: seq<nat>)
    requires |p| == k && SerialLength(k) && forall x :: x in arr ==> x < Pow16(k)
    ensures ok <==> Stoull(p).Parsed?
    ensures found == if ok && Stoull(p).number in arr then [Back(reverseResult, k)(Stoull(p).number)] else []
  {
    if Stoull(p).Thrown? {
      return false, [];
    }
    var at := IndexOf(arr, Stoull(p).number);
    if at < |arr| {
      var x := arr[at];
      if reverseResult {
        assert arr[at] in arr;
        WordBound(k);
        x := Reverse(arr[at], k);
      }
      return true, [x];
    }
    return true, [];
  }

  /** One comparison of the scan; over the reversed vector it goes through the text of the live serial. */
  method MatchOne(p: string, x: nat, reverseResult: bool, k: nat) returns (value: nat, matches: bool)
    requires |p| <= k && SerialLength(k) && x < Pow16(k)
    ensures value == Back(reverseResult, k)(x)
    ensures matches <==> StartsIn(p, k)(x)
  {
    WordBound(k);
    value := x;
    var text := TextOf(x, k);
    if reverseResult {
      value := Reverse(x, k);
      text := Reversed(TextOf(value, k));
      TextOfReverse(value, k);
      ReverseDigitsTwice(x, k);
    }
    matches := p == text[..|p|];
    PrefixIsSlice(p, text);
  }

  lemma NoneBefore(arr: seq<nat>, p: string, k: nat, target: nat, at: nat)
    requires IsHex(p) && |p| <= k && target == HexValue(p) * Pow16(k - |p|) && at <= |arr|
    requires forall i :: 0 <= i < |arr| ==> arr[i] < Pow16(k)
    requires forall i :: 0 <= i < at ==> arr[i] < target
    ensures forall i :: 0 <= i < at ==> !StartsIn(p, k)(arr[i])
  {
    forall i | 0 <= i < at ensures !StartsIn(p, k)(arr[i]) {
      MatchesAreConsecutive(p, k, target, arr[i], arr[i]);
    }
  }

  lemma NoneAfter(arr: seq<nat>, p: string, k: nat, target: nat, at: nat)
    requires IsHex(p) && |p| <= k && target == HexValue(p) * Pow16(k - |p|) && at < |arr| && Strict(arr)
    requires forall i :: 0 <= i < |arr| ==> arr[i] < Pow16(k)
    requires arr[at] >= target && !StartsIn(p, k)(arr[at])
    ensures forall i :: at <= i < |arr| ==> !StartsIn(p, k)(arr[i])
  {
    forall i | at <= i < |arr| ensures !StartsIn(p, k)(arr[i]) {
      MatchesAreConsecutive(p, k, target, arr[at], arr[i]);
    }
  }

  lemma ScanStep(arr: seq<nat>, match': nat -> bool, back: nat -> nat, lo: nat, at: nat, found: seq<nat>, value: nat)
    requires lo <= at < |arr| && (forall i :: lo <= i < at ==> match'(arr[i])) && match'(arr[at])
    requires Copied(found, arr, lo, at, back) && value == back(arr[at])
    ensures (forall i :: lo <= i < at + 1 ==> match'(arr[i])) && Copied(found + [value], arr, lo, at + 1, back)
  {
  }

  /** Only lower-case digits can match. */
  lemma NothingStartsWith(p: string, k: nat, x: nat)
    requires !IsLowerHex(p)
    ensures !StartsIn(p, k)(x)
  {
    TextIsHex(x, k);
  }

  lemma NoneMatch(arr: seq<nat>, p: string, k: nat)
    requires !IsLowerHex(p)
    ensures forall i :: 0 <= i < |arr| ==> !StartsIn(p, k)(arr[i])
  {
    forall i | 0 <= i < |arr| ensures !StartsIn(p, k)(arr[i]) {
      NothingStartsWith(p, k, arr[i]);
    }
  }

  /** What the padded query says about the vector: no match before its place, and after a miss none any more. */
  lemma ScanBounds(arr: seq<nat>, p: string, k: nat, target: nat, lo: nat, at: nat)
    requires |p| <= k && Strict(arr) && (forall i :: 0 <= i < |arr| ==> arr[i] < Pow16(k)) && lo <= at <= |arr|
    requires IsHex(p) ==> target == HexValue(p) * Pow16(k - |p|)
    requires (forall i :: 0 <= i < lo ==> arr[i] < target) && forall i :: lo <= i < |arr| ==> arr[i] >= target
    ensures forall i :: 0 <= i < lo ==> !StartsIn(p, k)(arr[i])
    ensures at < |arr| && !StartsIn(p, k)(arr[at]) ==> forall i :: at <= i < |arr| ==> !StartsIn(p, k)(arr[i])
  {
    if IsLowerHex(p) {
      NoneBefore(arr, p, k, target, lo);
      if at < |arr| && !StartsIn(p, k)(arr[at]) {
        NoneAfter(arr, p, k, target, at);
      }
    } else {
      NoneMatch(arr, p, k);
    }
  }

  /** The branch for a shorter query: a scan from the padded query while the text matches. */
  method ReturnPrefix(p: string, howMany: nat, arr: seq<nat>, reverseResult: bool, k: nat) returns (ok: bool, found: seq<nat>)
    requires |p| < k && SerialLength(k) && Strict(arr) && forall x :: x in arr ==> x < Pow16(k)
    ensures ok <==> Stoull(Padded(p, k)).Parsed?
    ensures ok ==> Stretch(found, arr, StartsIn(p, k), howMany, Back(reverseResult, k))
    ensures !ok ==> found == []
  {
    if Stoull(Padded(p, k)).Thrown? {
      return false, [];
    }
    if IsHex(p) {
      PaddedValue(p, k);
      StoullOfHex(Padded(p, k));
    }
    assert forall i :: 0 <= i < |arr| ==> arr[i] in arr;
    var target := Stoull(Padded(p, k)).number;
    var at := FindLowerBound(arr, target);
    ghost var lo := at;
    ok, found := true, [];
    ScanBounds(arr, p, k, target, lo, at);
    var left := howMany;
    while at < |arr| && left > 0
      invariant lo <= at <= |arr| && left == howMany - (at - lo) && left >= 0
      invariant Copied(found, arr, lo, at, Back(reverseResult, k))
      invariant forall i :: lo <= i < at ==> StartsIn(p, k)(arr[i])
    {
      assert arr[at] in arr;
      var value, matches := MatchOne(p, arr[at], reverseResult, k);
      if !matches {
        ScanBounds(arr, p, k, target, lo, at);
        break;
      }
      ScanStep(arr, StartsIn(p, k), Back(reverseResult, k), lo, at, found, value);
      found := found + [value];
      at, left := at + 1, left - 1;
    }
    assert Copied(found, arr, lo, at, Back(reverseResult, k)) && Window(arr, StartsIn(p, k), howMany, lo, at);
  }

  /** The text whose parse may throw. */
  function Sought(p: string, k: nat): string { if |p| < k then Padded(p, k) else p }

  /** What any text is answered with: an exception when it cannot be parsed, its number when it has all the digits and the number is
      there, and nothing when it is longer, or shorter and not in lower-case digits. */
  ghost predicate Answers(ok: bool, found: seq<nat>, p: string, arr: seq<nat>, back: nat -> nat, k: nat) {
    && (ok <==> |p| > k || Stoull(Sought(p, k)).Parsed?)
    && (|p| == k && ok ==> found == if Stoull(p).number in arr then [back(Stoull(p).number)] else [])
    && (|p| > k || !ok || (|p| < k && !IsLowerHex(p)) ==> found == [])
  }

  lemma StretchMatches(found: seq<nat>, arr: seq<nat>, match': nat -> bool, n: nat, back: nat -> nat)
    requires Stretch(found, arr, match', n, back)
    ensures found == [] || exists i :: 0 <= i < |arr| && match'(arr[i])
  {
    var lo: nat, hi: nat :| Copied(found, arr, lo, hi, back) && Window(arr, match', n, lo, hi);
    if lo < hi {
      assert match'(arr[lo]);
    }
  }

  lemma NoStretch(found: seq<nat>, arr: seq<nat>, p: string, n: nat, back: nat -> nat, k: nat)
    requires !IsLowerHex(p) && Stretch(found, arr, StartsIn(p, k), n, back)
    ensures found == []
  {
    NoneMatch(arr, p, k);
    StretchMatches(found, arr, StartsIn(p, k), n, back);
  }

  /** `ok` is false when an exception leaves the call. */
  method ReturnNumbers(p: string, howMany: nat, arr: seq<nat>, reverseResult: bool, k: nat) returns (ok: bool, found: seq<nat>)
    requires Strict(arr) && SerialLength(k) && forall x :: x in arr ==> x < Pow16(k)
    ensures ok <==> |p| > k || Stoull(Sought(p, k)).Parsed?
    ensures |p| < k && ok ==> Stretch(found, arr, StartsIn(p, k), howMany, Back(reverseResult, k))
    ensures |p| == k && ok ==> found == if Stoull(p).number in arr then [Back(reverseResult, k)(Stoull(p).number)] else []
    ensures |p| > k || !ok ==> found == []
    ensures Answers(ok, found, p, arr, Back(reverseResult, k), k)
  {
    if |p| == k {
      ok, found := ReturnExact(p, arr, reverseResult, k);
    } else if |p| < k {
      ok, found := ReturnPrefix(p, howMany, arr, reverseResult, k);
      if ok && !IsLowerHex(p) {
        NoStretch(found, arr, p, howMany, Back(reverseResult, k), k);
      }
    } else {
      ok, found := true, [];
    }
  }

  /** A window over the live numbers is the first matches of a prefix. */
  lemma WindowIsFirstByPrefix(live: seq<nat>, found: seq<nat>, q: string, n: nat, k: nat)
    requires Strict(live) && Stretch(found, live, StartsIn(q, k), n, Back(false, k))
    ensures FirstByPrefix(found, n, live, q, k)
  {
    var lo: nat, hi: nat :| Copied(found, live, lo, hi, Back(false, k)) && Window(live, StartsIn(q, k), n, lo, hi);
    StretchIsFirst(live, found, n, live, lo, hi, StartsIn(q, k), Back(false, k), StartsIn(q, k), (x: nat) => x);
  }

  /** The reversals are keys of the live serials, and the suffix of one is the prefix of the other. */
  lemma ReversalsAreKeys(i: Index, q: string, k: nat)
    requires Lockstep(i, k) && |q| <= k
    ensures Keyed(i.reversed, i.numbers, StartsIn(Reversed(q), k), Reversal(k), EndsIn(q, k), Reversal(k))
  {
    var f := Reversal(k);
    ReversalIsInvolution(k);
    LockstepIsMirrored(i, f, Pow16(k));
    forall r | r in i.reversed ensures EndsIn(q, k)(f(r)) <==> StartsIn(Reversed(q), k)(r) {
      assert f(f(r)) == r;
      SuffixIsReversedPrefix(f(r), q, k);
    }
  }

  /** A window over the reversals is the first matches of a suffix. */
  lemma WindowIsFirstBySuffix(arr: seq<nat>, live: seq<nat>, found: seq<nat>, q: string, n: nat, k: nat)
    requires Strict(arr) && Stretch(found, arr, StartsIn(Reversed(q), k), n, Reversal(k))
    requires Keyed(arr, live, StartsIn(Reversed(q), k), Reversal(k), EndsIn(q, k), Reversal(k))
    ensures FirstBySuffix(found, n, live, q, k)
  {
    var lo: nat, hi: nat :| Copied(found, arr, lo, hi, Reversal(k)) && Window(arr, StartsIn(Reversed(q), k), n, lo, hi);
    StretchIsFirst(arr, found, n, live, lo, hi, StartsIn(Reversed(q), k), Reversal(k), EndsIn(q, k), Reversal(k));
  }

  /** A full serial matches itself only. */
  lemma FullSerialWindow(arr: seq<nat>, p: string, n: nat, k: nat, back: nat -> nat)
    requires Strict(arr) && IsLowerHex(p) && IsHex(p) && |p| == k && n >= 1
    requires forall x :: x in arr ==> x < Pow16(k)
    ensures Stretch(if HexValue(p) in arr then [back(HexValue(p))] else [], arr, StartsIn(p, k), n, back)
  {
    forall i | 0 <= i < |arr| ensures StartsIn(p, k)(arr[i]) <==> arr[i] == HexValue(p) {
      assert arr[i] in arr;
      TextIsNumber(arr[i], p);
      PrefixIsSlice(p, TextOf(arr[i], k));
    }
    if HexValue(p) in arr {
      var at :| 0 <= at < |arr| && arr[at] == HexValue(p);
      assert Copied([back(HexValue(p))], arr, at, at + 1, back) && Window(arr, StartsIn(p, k), n, at, at + 1);
    } else {
      assert Copied([], arr, 0, 0, back) && Window(arr, StartsIn(p, k), n, 0, 0);
    }
  }

  lemma LowerIsHex(p: string)
    requires IsLowerHex(p)
    ensures IsHex(p)
  {
  }

  lemma LockstepBounds(i: Index, k: nat)
    requires Lockstep(i, k)
    ensures Strict(i.numbers) && Strict(i.reversed)
    ensures (forall x :: x in i.numbers ==> x < Pow16(k)) && forall x :: x in i.reversed ==> x < Pow16(k)
  {
    ReversalIsInvolution(k);
    LockstepIsMirrored(i, Reversal(k), Pow16(k));
  }

  lemma ShortTextParses(p: string, k: nat)
    requires IsHex(p) && p != "" && |p| <= k <= 16
    ensures IsHex(Sought(p, k)) && Stoull(Sought(p, k)) == Parsed(HexValue(Sought(p, k)))
  {
    PaddedValue(p, k);
    StoullOfHex(Sought(p, k));
    ValueBound(Nibbles(Sought(p, k)));
    WordBound(k);
  }

  lemma PlainPrefix(i: Index, q: string, n: nat, k: nat, found: seq<nat>)
    requires Lockstep(i, k) && IsLowerHex(q) && 0 < |q| <= k <= 16 && (n >= 1 || |q| < k)
    requires |q| < k && Stoull(Sought(q, k)).Parsed? ==> Stretch(found, i.numbers, StartsIn(q, k), n, Back(false, k))
    requires |q| == k && Stoull(q).Parsed? ==>
               found == if Stoull(q).number in i.numbers then [Back(false, k)(Stoull(q).number)] else []
    ensures Stoull(Sought(q, k)).Parsed? && FirstByPrefix(found, n, i.numbers, q, k)
  {
    LowerIsHex(q);
    ShortTextParses(q, k);
    LockstepBounds(i, k);
    if |q| == k {
      FullSerialWindow(i.numbers, q, n, k, Back(false, k));
    }
    WindowIsFirstByPrefix(i.numbers, found, q, n, k);
  }

  lemma ReversedLowerHex(q: string)
    requires IsLowerHex(q)
    ensures IsLowerHex(Reversed(q)) && IsHex(Reversed(q))
  {
    ReversedAt(q);
    LowerIsHex(Reversed(q));
  }

  /** The window of the reversed text, whichever way it was found. */
  lemma SuffixStretch(reversed: seq<nat>, r: string, n: nat, k: nat, found: seq<nat>)
    requires Strict(reversed) && IsLowerHex(r) && IsHex(r) && 0 < |r| <= k <= 16 && (n >= 1 || |r| < k)
    requires forall x :: x in reversed ==> x < Pow16(k)
    requires |r| < k && Stoull(Sought(r, k)).Parsed? ==> Stretch(found, reversed, StartsIn(r, k), n, Back(true, k))
    requires |r| == k && Stoull(r).Parsed? ==> found == if Stoull(r).number in reversed then [Back(true, k)(Stoull(r).number)] else []
    ensures Stoull(Sought(r, k)).Parsed? && Stretch(found, reversed, StartsIn(r, k), n, Back(true, k))
  {
    ShortTextParses(r, k);
    if |r| == k {
      FullSerialWindow(reversed, r, n, k, Back(true, k));
    }
  }

  lemma PlainSuffix(i: Index, q: string, n: nat, k: nat, found: seq<nat>)
    requires Lockstep(i, k) && IsLowerHex(q) && 0 < |q| <= k <= 16 && (n >= 1 || |q| < k)
    requires |q| < k && Stoull(Sought(Reversed(q), k)).Parsed? ==> Stretch(found, i.reversed, StartsIn(Reversed(q), k), n, Back(true, k))
    requires |q| == k && Stoull(Reversed(q)).Parsed? ==>
               found == if Stoull(Reversed(q)).number in i.reversed then [Back(true, k)(Stoull(Reversed(q)).number)] else []
    ensures Stoull(Sought(Reversed(q), k)).Parsed? && FirstBySuffix(found, n, i.numbers, q, k)
  {
    ReversedLowerHex(q);
    LockstepBounds(i, k);
    SuffixStretch(i.reversed, Reversed(q), n, k, found);
    ReversalsAreKeys(i, q, k);
    WindowIsFirstBySuffix(i.reversed, i.numbers, found, q, n, k);
  }

  class Cache {
    var numbers: seq<nat>
    var reversed: seq<nat>

    ghost function State(): Index
      reads this
    {
      Index(numbers, reversed)
    }

    ghost predicate Valid()
      reads this
    {
      Ordered(State())
    }

    constructor ()
      ensures State() == Index([], []) && Lockstep(State(), SERIAL_DIGITS)
    {
      numbers, reversed := [], [];
    }

    method AddSerialNumber(s: string)
      requires Valid() && IsHex(s)
      modifies this
      ensures Valid() && State() == Added(old(State()), s)
      ensures forall v :: v in numbers <==> v in old(numbers) || Spells(s, v)
    {
      OrderedKept(State(), s);
      forall v ensures v in Added(State(), s).numbers <==> v in numbers || Spells(s, v) {
        AddedContents(State(), s, v);
      }
      ReversedText(s);
      if !Parses(s) {
        return;
      }
      var n := HexValue(s);
      var exists' := NumberExists(n);
      if !exists' {
        var p := FindLowerBound(numbers, n);
        numbers := numbers[..p] + [n] + numbers[p..];
        if !Parses(Reversed(s)) {
          return;
        }
        var r := HexValue(Reversed(s));
        p := FindLowerBound(reversed, r);
        reversed := reversed[..p] + [r] + reversed[p..];
      }
    }

    method DeleteSerialNumber(s: string)
      requires Valid() && IsHex(s)
      modifies this
      ensures Valid() && State() == Deleted(old(State()), s)
      ensures forall v :: v in numbers <==> v in old(numbers) && !Spells(s, v)
    {
      forall v ensures v in Deleted(State(), s).numbers <==> v in numbers && !Spells(s, v) {
        DeletedContents(State(), s, v);
      }
      ReversedText(s);
      if Parses(s) {
        var at := IndexOf(numbers, HexValue(s));
        if at < |numbers| {
          numbers := numbers[..at] + numbers[at + 1..];
          if Parses(Reversed(s)) {
            at := IndexOf(reversed, HexValue(Reversed(s)));
            if at < |reversed| {
              reversed := reversed[..at] + reversed[at + 1..];
            }
          }
        }
      }
      assert State() == Deleted(old(State()), s);
      OrderedKept(old(State()), s);
    }

    method NumberExists(n: nat) returns (found: bool)
      ensures found <==> n in numbers
    {
      var at := IndexOf(numbers, n);
      found := at < |numbers|;
    }

    /** A query `*suffix`, or a prefix, of any text; `ok` is false when it cannot be parsed and an exception leaves the call. */
    method FindNumbers(q: string, howMany: nat) returns (ok: bool, found: seq<nat>)
      requires Lockstep(State(), SERIAL_DIGITS)
      ensures q == "" || q == "*" ==> ok && found == []
      ensures !ok ==> found == []
      ensures q != "" && q[0] != '*' ==> Answers(ok, found, q, numbers, Back(false, SERIAL_DIGITS), SERIAL_DIGITS)
      ensures q != "" && q[0] != '*' && Plain(q, howMany) ==> ok && FirstByPrefix(found, howMany, numbers, q, SERIAL_DIGITS)
      ensures |q| > 1 && q[0] == '*' ==> Answers(ok, found, Reversed(q[1..]), reversed, Back(true, SERIAL_DIGITS), SERIAL_DIGITS)
      ensures |q| > 1 && q[0] == '*' && Plain(q[1..], howMany) ==> ok && FirstBySuffix(found, howMany, numbers, q[1..], SERIAL_DIGITS)
    {
      if q == "" {
        return true, [];
      }
      LockstepBounds(State(), SERIAL_DIGITS);
      if q[0] == '*' {
        var r := Reversed(q[1..]);
        if r == "" {
          return true, [];
        }
        ok, found := ReturnNumbers(r, howMany, reversed, true, SERIAL_DIGITS);
        if Plain(q[1..], howMany) {
          PlainSuffix(State(), q[1..], howMany, SERIAL_DIGITS, found);
        }
      } else {
        ok, found := ReturnNumbers(q, howMany, numbers, false, SERIAL_DIGITS);
        if Plain(q, howMany) {
          PlainPrefix(State(), q, howMany, SERIAL_DIGITS, found);
        }
      }
    }
  }

  /** A query of one to twelve lower-case digits; with all twelve the limit of zero is not honoured. */
  predicate Plain(q: string, howMany: nat) {
    q != "" && IsLowerHex(q) && |q| <= SERIAL_DIGITS && (howMany >= 1 || |q| < SERIAL_DIGITS)
  }

  /** `std::find`: the first place of `x`, or the length. */
  method IndexOf(s: seq<nat>, x: nat) returns (k: nat)
    ensures k <= |s| && (k < |s| <==> x in s) && (k < |s| ==> s[k] == x)
    ensures Erase(s, x) == if k < |s| then s[..k] + s[k + 1..] else s
  {
    k := 0;
    while k < |s| && s[k] != x
      invariant k <= |s| && forall i :: 0 <= i < k ==> s[i] != x
    {
      k := k + 1;
    }
    if k < |s| {
      EraseAt(s, x, k);
    } else {
      EraseAbsent(s, x);
    }
  }

  lemma {:induction false} EraseAbsent(s: seq<nat>, x: nat)
    requires x !in s
    ensures Erase(s, x) == s
  {
    if s != [] {
      EraseAbsent(s[1..], x);
    }
  }
}
