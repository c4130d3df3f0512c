/** Numbers, their hexadecimal digits and the text of serial numbers. */
module HexText {

  type Nibble = n: nat | n < 16

  function Pow16(k: nat): (r: nat)
    ensures r > 0
  {
    if k == 0 then 1 else 16 * Pow16(k - 1)
  }

  lemma {:induction false} Pow16Sum(j: nat, k: nat)
    ensures Pow16(j + k) == Pow16(j) * Pow16(k)
  {
    if j > 0 {
      Pow16Sum(j - 1, k);
      assert Pow16(j + k) == 16 * Pow16(j + k - 1);
    }
  }

  lemma Pow16Values()
    ensures Pow16(4) == 0x1_0000 && Pow16(12) == 0x1_0000_0000_0000 && Pow16(16) == 0x1_0000_0000_0000_0000
  {
    assert Pow16(4) == 16 * Pow16(3) == 256 * Pow16(2) == 4096 * Pow16(1);
    Pow16Sum(4, 4);
    Pow16Sum(8, 4);
    Pow16Sum(12, 4);
  }

  /** The number that digits spell, most significant first. */
  function Value(d: seq<Nibble>): nat {
    if d == [] then 0 else Value(d[..|d| - 1]) * 16 + d[|d| - 1]
  }

  /** The low `k` digits of a number, most significant first. */
  function Digits(x: nat, k: nat): (d: seq<Nibble>)
    ensures |d| == k
  {
    if k == 0 then [] else Digits(x / 16, k - 1) + [x % 16]
  }

  function Reversed<T>(s: seq<T>): (r: seq<T>)
    ensures |r| == |s|
  {
    if s == [] then [] else Reversed(s[1..]) + [s[0]]
  }

  lemma {:induction false} ReversedAt<T>(s: seq<T>)
    ensures forall i :: 0 <= i < |s| ==> Reversed(s)[i] == s[|s| - 1 - i]
  {
    if s != [] {
      ReversedAt(s[1..]);
    }
  }

  lemma ReversedTwice<T>(s: seq<T>)
    ensures Reversed(Reversed(s)) == s
  {
    var r := Reversed(s);
    ReversedAt(s);
    ReversedAt(r);
    assert forall i :: 0 <= i < |s| ==> Reversed(r)[i] == r[|s| - 1 - i] == s[i];
  }

  lemma ReversedConcat<T>(a: seq<T>, b: seq<T>)
    ensures Reversed(a + b) == Reversed(b) + Reversed(a)
  {
    var n := |a + b|;
    ReversedAt(a);
    ReversedAt(b);
    ReversedAt(a + b);
    assert forall i :: 0 <= i < n ==> Reversed(a + b)[i] == (a + b)[n - 1 - i] == (Reversed(b) + Reversed(a))[i];
  }

  // ---------------------------------------------------------------- digits and values

  lemma {:induction false} ValueBound(d: seq<Nibble>)
    ensures Value(d) < Pow16(|d|)
  {
    if d != [] {
      ValueBound(d[..|d| - 1]);
    }
  }

  lemma {:induction false} DigitsOfValue(d: seq<Nibble>)
    ensures Digits(Value(d), |d|) == d
  {
    if d != [] {
      DigitsOfValue(d[..|d| - 1]);
      assert Value(d) / 16 == Value(d[..|d| - 1]) && Value(d) % 16 == d[|d| - 1];
      assert d == d[..|d| - 1] + [d[|d| - 1]];
    }
  }

  lemma {:induction false} ValueOfDigits(x: nat, k: nat)
    requires x < Pow16(k)
    ensures Value(Digits(x, k)) == x
  {
    if k > 0 {
      ValueOfDigits(x / 16, k - 1);
      assert Digits(x, k)[..k - 1] == Digits(x / 16, k - 1);
    }
  }

  lemma {:induction false} ValueConcat(a: seq<Nibble>, b: seq<Nibble>)
    ensures Value(a + b) == Value(a) * Pow16(|b|) + Value(b)
  {
    if b == [] {
      assert a + b == a;
    } else {
      var c, x := b[..|b| - 1], b[|b| - 1];
      ValueConcat(a, c);
      assert (a + b)[..|a + b| - 1] == a + c;
      assert Value(a + b) == (Value(a) * Pow16(|c|) + Value(c)) * 16 + x;
      assert Value(a) * Pow16(|c|) * 16 == Value(a) * (16 * Pow16(|c|));
    }
  }

  /** A number without its low `k` digits. */
  function DropDigits(x: nat, k: nat): nat {
    if k == 0 then x else DropDigits(x / 16, k - 1)
  }

  lemma {:induction false} DigitsSplit(x: nat, j: nat, k: nat)
    ensures Digits(x, j + k) == Digits(DropDigits(x, k), j) + Digits(x, k)
  {
    if k == 0 {
      assert Digits(x, j) + [] == Digits(x, j);
    } else {
      DigitsSplit(x / 16, j, k - 1);
      var a, b, c := Digits(DropDigits(x, k), j), Digits(x / 16, k - 1), [x % 16];
      assert a + b + c == a + (b + c);
    }
  }

  /** Dropping digits is division by a power of sixteen. */
  lemma {:induction false} DropIsFloor(x: nat, q: nat, k: nat)
    ensures q * Pow16(k) <= x <==> q <= DropDigits(x, k)
  {
    if k > 0 {
      var t := q * Pow16(k - 1);
      assert q * Pow16(k) == 16 * t;
      DropIsFloor(x / 16, q, k - 1);
    }
  }

  // ---------------------------------------------------------------- reversal of twelve digits

  /** The number whose `k` digits are the low `k` digits of `x` in reverse order. */
  function ReverseDigits(x: nat, k: nat): nat {
    Value(Reversed(Digits(x, k)))
  }

  lemma DigitsOfReverse(x: nat, k: nat)
    ensures ReverseDigits(x, k) < Pow16(k)
    ensures Digits(ReverseDigits(x, k), k) == Reversed(Digits(x, k))
  {
    ValueBound(Reversed(Digits(x, k)));
    DigitsOfValue(Reversed(Digits(x, k)));
  }

  lemma ReverseDigitsTwice(x: nat, k: nat)
    requires x < Pow16(k)
    ensures ReverseDigits(ReverseDigits(x, k), k) == x
  {
    DigitsOfReverse(x, k);
    ReversedTwice(Digits(x, k));
    ValueOfDigits(x, k);
  }

  lemma {:induction false} DropConcat(a: seq<Nibble>, b: seq<Nibble>)
    ensures DropDigits(Value(a + b), |b|) == Value(a)
  {
    if b == [] {
      assert a + b == a;
    } else {
      assert (a + b)[..|a + b| - 1] == a + b[..|b| - 1];
      DropConcat(a, b[..|b| - 1]);
    }
  }

  /** Reversing more digits than wanted and dropping the extra ones from the result. */
  lemma DropReversed(x: nat, j: nat, k: nat)
    ensures DropDigits(ReverseDigits(x, j + k), j) == ReverseDigits(x, k)
  {
    var high, low := Digits(DropDigits(x, k), j), Digits(x, k);
    DigitsSplit(x, j, k);
    ReversedConcat(high, low);
    DropConcat(Reversed(low), Reversed(high));
  }

  // ---------------------------------------------------------------- text

  predicate IsHexChar(c: char) { '0' <= c <= '9' || 'a' <= c <= 'f' || 'A' <= c <= 'F' }

  predicate IsHex(s: string) { forall i :: 0 <= i < |s| ==> IsHexChar(s[i]) }

  predicate IsLowerHex(s: string) { forall i :: 0 <= i < |s| ==> '0' <= s[i] <= '9' || 'a' <= s[i] <= 'f' }

  function CharValue(c: char): Nibble
    requires IsHexChar(c)
  {
    if c <= '9' then c as int - '0' as int
    else if c <= 'F' then c as int - 'A' as int + 10
    else c as int - 'a' as int + 10
  }

  function NibbleChar(n: Nibble): (c: char)
    ensures IsHexChar(c) && ('0' <= c <= '9' || 'a' <= c <= 'f') && CharValue(c) == n
  {
    if n < 10 then '0' + n as char else 'a' + (n - 10) as char
  }

  function Nibbles(s: string): (d: seq<Nibble>)
    requires IsHex(s)
    ensures |d| == |s|
  {
    seq(|s|, i requires 0 <= i < |s| => CharValue(s[i]))
  }

  function Chars(d: seq<Nibble>): (s: string)
    ensures |s| == |d|
  {
    seq(|d|, i requires 0 <= i < |d| => NibbleChar(d[i]))
  }

  lemma NibblesOfChars(d: seq<Nibble>)
    ensures IsLowerHex(Chars(d)) && IsHex(Chars(d)) && Nibbles(Chars(d)) == d
  {
    assert forall i :: 0 <= i < |d| ==> Chars(d)[i] == NibbleChar(d[i]);
  }

  lemma CharsOfNibbles(s: string)
    requires IsHex(s)
    ensures IsLowerHex(s) <==> Chars(Nibbles(s)) == s
  {
    NibblesOfChars(Nibbles(s));
    if IsLowerHex(s) {
      assert forall i :: 0 <= i < |s| ==> NibbleChar(CharValue(s[i])) == s[i];
    }
  }

  /** The number a hexadecimal text spells. */
  function HexValue(s: string): nat
    requires IsHex(s)
  {
    Value(Nibbles(s))
  }

  /** The `k` lower-case digits of a number. */
  function TextOf(x: nat, k: nat): (s: string)
    ensures |s| == k
  {
    Chars(Digits(x, k))
  }

  lemma TextIsHex(x: nat, k: nat)
    ensures IsLowerHex(TextOf(x, k)) && IsHex(TextOf(x, k)) && Nibbles(TextOf(x, k)) == Digits(x, k)
  {
    NibblesOfChars(Digits(x, k));
  }

  /** Printing and parsing are inverse to each other. */
  lemma TextRoundTrip(x: nat, s: string, k: nat)
    requires IsHex(s) && |s| == k
    ensures IsHex(TextOf(x, k)) && (x < Pow16(k) ==> HexValue(TextOf(x, k)) == x)
    ensures IsLowerHex(s) ==> TextOf(HexValue(s), k) == s
    ensures HexValue(s) < Pow16(k)
  {
    TextIsHex(x, k);
    if x < Pow16(k) {
      ValueOfDigits(x, k);
    }
    DigitsOfValue(Nibbles(s));
    CharsOfNibbles(s);
    ValueBound(Nibbles(s));
  }

  lemma ReversedText(s: string)
    requires IsHex(s)
    ensures IsHex(Reversed(s)) && Nibbles(Reversed(s)) == Reversed(Nibbles(s))
  {
    ReversedAt(s);
    ReversedAt(Nibbles(s));
  }

  /** Reversing the number agrees with reversing the characters and parsing them. */
  lemma ReverseAgreesWithText(s: string)
    requires IsHex(s)
    ensures IsHex(Reversed(s)) && HexValue(Reversed(s)) == ReverseDigits(HexValue(s), |s|)
  {
    ReversedText(s);
    DigitsOfValue(Nibbles(s));
  }

  lemma TextOfReverse(x: nat, k: nat)
    ensures TextOf(ReverseDigits(x, k), k) == Reversed(TextOf(x, k))
  {
    DigitsOfReverse(x, k);
    TextIsHex(x, k);
    var t := Reversed(TextOf(x, k));
    ReversedText(TextOf(x, k));
    ReversedAt(TextOf(x, k));
    CharsOfNibbles(t);
  }

  // ---------------------------------------------------------------- prefixes

  lemma PrefixDigits(x: nat, j: nat, k: nat)
    requires j <= k
    ensures TextOf(x, k)[..j] == TextOf(DropDigits(x, k - j), j)
  {
    DigitsSplit(x, j, k - j);
    TextIsHex(x, k);
    var t := TextOf(x, k)[..j];
    assert Nibbles(t) == Digits(x, k)[..j] == Digits(DropDigits(x, k - j), j);
    CharsOfNibbles(t);
  }

  lemma TextIsNumber(y: nat, p: string)
    requires IsHex(p) && y < Pow16(|p|)
    ensures p == TextOf(y, |p|) ==> IsLowerHex(p)
    ensures IsLowerHex(p) ==> (p == TextOf(y, |p|) <==> y == HexValue(p))
  {
    TextRoundTrip(y, p, |p|);
    TextIsHex(y, |p|);
  }

  lemma TopDigits(x: nat, j: nat, k: nat)
    requires j <= k && x < Pow16(k)
    ensures DropDigits(x, k - j) < Pow16(j)
  {
    Pow16Sum(j, k - j);
    DropIsFloor(x, Pow16(j), k - j);
  }

  /** The text of a number starts with `p` exactly when the number lies in the block of `p`. */
  lemma PrefixIsInterval(x: nat, p: string, k: nat)
    requires x < Pow16(k) && IsHex(p) && |p| <= k
    ensures p <= TextOf(x, k) ==> IsLowerHex(p)
    ensures IsLowerHex(p) ==> (p <= TextOf(x, k) <==> DropDigits(x, k - |p|) == HexValue(p))
  {
    TopDigits(x, |p|, k);
    TextIsNumber(DropDigits(x, k - |p|), p);
    PrefixDigits(x, |p|, k);
    PrefixIsSlice(p, TextOf(x, k));
  }

  lemma PrefixIsSlice(p: string, t: string)
    requires |p| <= |t|
    ensures p <= t <==> p == t[..|p|]
  {
  }
}
