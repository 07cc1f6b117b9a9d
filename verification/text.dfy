/** String operations the dashboard relies on, stated for `seq<char>`:
    `String.prototype.trim`, ASCII case folding for `toLowerCase` and
    `toUpperCase`, `includes`, the decimal rendering of a price held in
    integer cents (`Number.prototype.toString`), and a lexicographic order
    standing for `localeCompare`. */
module Text {
  import opened Collections

  /** The characters `String.prototype.trim` removes: the ECMAScript
      WhiteSpace and LineTerminator code points. */
  predicate IsWhitespace(c: char)
  {
    var n := c as int;
    || n == 0x09 || n == 0x0A || n == 0x0B || n == 0x0C || n == 0x0D || n == 0x20
    || n == 0xA0 || n == 0x1680 || (0x2000 <= n <= 0x200A)
    || n == 0x2028 || n == 0x2029 || n == 0x202F || n == 0x205F || n == 0x3000 || n == 0xFEFF
  }

  /** Index of the first non-whitespace character at or after `from`. */
  function SkipLeading(s: string, from: nat): (i: nat)
    requires from <= |s|
    ensures from <= i <= |s|
    ensures forall k :: from <= k < i ==> IsWhitespace(s[k])
    ensures i < |s| ==> !IsWhitespace(s[i])
    decreases |s| - from
  {
    if from < |s| && IsWhitespace(s[from]) then SkipLeading(s, from + 1) else from
  }

  /** Index one past the last non-whitespace character before `upto`, not below `low`. */
  function SkipTrailing(s: string, low: nat, upto: nat): (j: nat)
    requires low <= upto <= |s|
    ensures low <= j <= upto
    ensures forall k :: j <= k < upto ==> IsWhitespace(s[k])
    ensures j > low ==> !IsWhitespace(s[j - 1])
    decreases upto
  {
    if upto > low && IsWhitespace(s[upto - 1]) then SkipTrailing(s, low, upto - 1) else upto
  }

  /** `needle` occurs in `s` starting at offset `i`. */
  predicate OccursAt(s: string, needle: string, i: int)
  {
    0 <= i <= |s| - |needle| && s[i..i + |needle|] == needle
  }

  /** `r` is the part of `s` at offset `i` with only whitespace around it. */
  predicate SurroundedByWhitespace(s: string, r: string, i: int)
  {
    && OccursAt(s, r, i)
    && (forall k :: 0 <= k < i ==> IsWhitespace(s[k]))
    && (forall k :: i + |r| <= k < |s| ==> IsWhitespace(s[k]))
  }

  /** `s.trim()`: `s` without its leading and trailing whitespace. */
  function Trim(s: string): (r: string)
    ensures |r| == 0 || (!IsWhitespace(r[0]) && !IsWhitespace(r[|r| - 1]))
    ensures exists i :: SurroundedByWhitespace(s, r, i)
  {
    var i := SkipLeading(s, 0);
    var j := SkipTrailing(s, i, |s|);
    assert j > i ==> !IsWhitespace(s[i]);
    assert SurroundedByWhitespace(s, s[i..j], i);
    s[i..j]
  }

  /** A string without whitespace at either end is its own trim, so trimming
      twice is trimming once. */
  lemma {:induction false} TrimIdempotent(s: string)
    ensures |s| == 0 || (!IsWhitespace(s[0]) && !IsWhitespace(s[|s| - 1])) ==> Trim(s) == s
    ensures Trim(Trim(s)) == Trim(s)
  {
    var r := Trim(s);
    assert SkipLeading(r, 0) == 0;
    assert SkipTrailing(r, 0, |r|) == |r|;
    assert r[0..|r|] == r;
    if |s| > 0 && !IsWhitespace(s[0]) && !IsWhitespace(s[|s| - 1]) {
      assert SkipLeading(s, 0) == 0;
      assert SkipTrailing(s, 0, |s|) == |s|;
      assert s[0..|s|] == s;
    }
  }

  /** `!s.trim()`: the string is empty or whitespace only. */
  predicate IsBlank(s: string)
  {
    Trim(s) == ""
  }

  lemma {:induction false} BlankIffAllWhitespace(s: string)
    ensures IsBlank(s) <==> forall k :: 0 <= k < |s| ==> IsWhitespace(s[k])
  {
    var r := Trim(s);
    var i :| SurroundedByWhitespace(s, r, i);
    if !IsBlank(s) {
      assert s[i] == r[0];
    }
  }

  function LowerChar(c: char): char
  {
    if 'A' <= c <= 'Z' then (c as int + 32) as char else c
  }

  function UpperChar(c: char): char
  {
    if 'a' <= c <= 'z' then (c as int - 32) as char else c
  }

  /** Upper-casing a character gives the same whether or not it was lower-cased first. */
  lemma UpperOfLower(c: char)
    ensures UpperChar(LowerChar(c)) == UpperChar(c)
  {
  }

  lemma UpperCharIsNotLower(c: char)
    ensures !('a' <= UpperChar(c) <= 'z')
  {
  }

  lemma LowerCharIsNotUpper(c: char)
    ensures !('A' <= LowerChar(c) <= 'Z')
  {
  }

  /** `s.toLowerCase()`, folding the ASCII letters. */
  function ToLower(s: string): (r: string)
    ensures |r| == |s|
    ensures forall k :: 0 <= k < |s| ==> r[k] == LowerChar(s[k])
  {
    seq(|s|, k requires 0 <= k < |s| => LowerChar(s[k]))
  }

  /** `s.toUpperCase()`, folding the ASCII letters. */
  function ToUpper(s: string): (r: string)
    ensures |r| == |s|
    ensures forall k :: 0 <= k < |s| ==> r[k] == UpperChar(s[k])
  {
    seq(|s|, k requires 0 <= k < |s| => UpperChar(s[k]))
  }

  /** No upper-case ASCII letter survives lower-casing, so folding twice is folding once. */
  lemma {:induction false} ToLowerIdempotent(s: string)
    ensures ToLower(ToLower(s)) == ToLower(s)
    ensures forall k :: 0 <= k < |s| ==> !('A' <= ToLower(s)[k] <= 'Z')
  {
  }

  /** Upper-casing first loses nothing that lower-casing keeps. */
  lemma {:induction false} LowerOfUpper(s: string)
    ensures ToLower(ToUpper(s)) == ToLower(s)
  {
  }

  /** Lower-casing commutes with trimming: case folding never turns a
      whitespace character into a non-whitespace one or back. */
  lemma {:induction false} LowerPreservesWhitespace(c: char)
    ensures IsWhitespace(LowerChar(c)) <==> IsWhitespace(c)
  {
  }

  predicate IsPrefix(p: string, s: string)
  {
    |p| <= |s| && s[..|p|] == p
  }

  /** `s.includes(needle)`. */
  predicate Contains(s: string, needle: string)
    decreases |s|
  {
    IsPrefix(needle, s) || (|s| > 0 && Contains(s[1..], needle))
  }

  /** `includes` holds exactly when the needle occurs at some offset. */
  lemma {:induction false} ContainsIffOccurs(s: string, needle: string)
    ensures Contains(s, needle) <==> exists i :: OccursAt(s, needle, i)
    decreases |s|
  {
    if IsPrefix(needle, s) {
      assert OccursAt(s, needle, 0);
    }
    if |s| > 0 {
      ContainsIffOccurs(s[1..], needle);
      if Contains(s[1..], needle) && !IsPrefix(needle, s) {
        var i :| OccursAt(s[1..], needle, i);
        assert OccursAt(s, needle, i + 1);
      }
      if exists i :: OccursAt(s, needle, i) {
        var i :| OccursAt(s, needle, i);
        if i > 0 {
          assert OccursAt(s[1..], needle, i - 1);
        }
      }
    } else {
      if exists i :: OccursAt(s, needle, i) {
        var i :| OccursAt(s, needle, i);
        assert IsPrefix(needle, s);
      }
    }
  }

  /** Every string contains its own suffixes. */
  lemma {:induction false} ContainsSuffix(a: string, b: string)
    ensures Contains(a + b, b)
    decreases |a|
  {
    if |a| == 0 {
      assert (a + b)[..|b|] == b;
    } else {
      assert (a + b)[1..] == a[1..] + b;
      ContainsSuffix(a[1..], b);
    }
  }

  function DigitChar(d: nat): (c: char)
    requires d < 10
    ensures '0' <= c <= '9' && c as int - '0' as int == d
  {
    ('0' as int + d) as char
  }

  predicate IsDigit(c: char)
  {
    '0' <= c <= '9'
  }

  function DigitValue(c: char): nat
    requires IsDigit(c)
  {
    c as int - '0' as int
  }

  /** The decimal numeral of `n`, most significant digit first, without leading zeros. */
  function Digits(n: nat): (r: string)
    ensures |r| >= 1
    ensures forall k :: 0 <= k < |r| ==> IsDigit(r[k])
    ensures r[0] == '0' ==> n == 0
  {
    if n < 10 then [DigitChar(n)] else Digits(n / 10) + [DigitChar(n % 10)]
  }

  /** The value denoted by a string of decimal digits. */
  function DigitsValue(s: string): nat
    requires forall k :: 0 <= k < |s| ==> IsDigit(s[k])
  {
    if |s| == 0 then 0 else 10 * DigitsValue(s[..|s| - 1]) + DigitValue(s[|s| - 1])
  }

  /** Reading back a rendered numeral gives the number it was rendered from. */
  lemma {:induction false} DigitsRoundTrip(n: nat)
    ensures DigitsValue(Digits(n)) == n
  {
    if n >= 10 {
      var d := Digits(n);
      assert d[..|d| - 1] == Digits(n / 10);
      DigitsRoundTrip(n / 10);
    }
  }

  /** `(cents / 100).toString()` for an amount of whole cents: the integer part,
      then a point and the cents with a trailing zero dropped, or nothing when
      the amount is a whole number of dollars. */
  function PriceString(cents: int): (r: string)
    ensures |r| > 0
    ensures r[0] == '-' <==> cents < 0
    ensures forall k :: 1 <= k < |r| ==> r[k] != '-'
  {
    if cents < 0 then "-" + UnsignedPriceString(-cents) else UnsignedPriceString(cents)
  }

  function UnsignedPriceString(cents: nat): (r: string)
    ensures |r| > 0 && IsDigit(r[0])
    ensures forall k :: 0 <= k < |r| ==> IsDigit(r[k]) || r[k] == '.'
  {
    Digits(cents / 100) + CentsSuffix(cents % 100)
  }

  /** What follows the dollars: nothing for a whole amount, otherwise a
      point and the cents with a trailing zero dropped. */
  function CentsSuffix(frac: nat): (r: string)
    requires frac < 100
    ensures |r| == 0 <==> frac == 0
    ensures |r| > 0 ==> r[0] == '.'
    ensures forall k :: 1 <= k < |r| ==> IsDigit(r[k])
  {
    if frac == 0 then ""
    else if frac % 10 == 0 then "." + [DigitChar(frac / 10)]
    else "." + [DigitChar(frac / 10), DigitChar(frac % 10)]
  }

  /** A price ending in 99 cents renders with the substring "99". */
  lemma {:induction false} PriceEndingIn99(cents: nat)
    requires cents % 100 == 99
    ensures Contains(PriceString(cents), "99")
  {
    var u := UnsignedPriceString(cents);
    assert [DigitChar(9), DigitChar(9)] == "99";
    assert CentsSuffix(99) == ".99";
    assert u == (Digits(cents / 100) + ".") + "99";
    ContainsSuffix(Digits(cents / 100) + ".", "99");
  }

  /** Index of the first '.' in `s`, or `|s|` when there is none. */
  function DotIndex(s: string): (i: nat)
    ensures i <= |s|
    ensures forall k :: 0 <= k < i ==> s[k] != '.'
    ensures i < |s| ==> s[i] == '.'
  {
    if |s| == 0 || s[0] == '.' then 0 else 1 + DotIndex(s[1..])
  }

  predicate AllDigits(s: string)
  {
    forall k :: 0 <= k < |s| ==> IsDigit(s[k])
  }

  /** Reads what follows the dollars: nothing, or a point and one or two
      digits, as a number of cents. */
  function ReadCents(rest: string): (r: Option<nat>)
    ensures r.Some? ==> r.value < 100
  {
    if |rest| == 0 then Some(0)
    else if |rest| == 2 && IsDigit(rest[1]) then Some(10 * DigitValue(rest[1]))
    else if |rest| == 3 && IsDigit(rest[1]) && IsDigit(rest[2]) then
      Some(10 * DigitValue(rest[1]) + DigitValue(rest[2]))
    else None
  }

  /** Reads a non-negative amount written as digits, optionally followed by a
      point and one or two more digits, as a number of cents. */
  function ReadUnsignedPrice(s: string): Option<nat>
  {
    var i := DotIndex(s);
    var whole := s[..i];
    if |whole| == 0 || !AllDigits(whole) then None
    else match ReadCents(s[i..])
      case None => None
      case Some(f) => Some(100 * DigitsValue(whole) + f)
  }

  /** Reads a price text, with an optional leading minus, as cents. */
  function ReadPrice(s: string): Option<int>
  {
    var negative := |s| > 0 && s[0] == '-';
    var amount := ReadUnsignedPrice(if negative then s[1..] else s);
    if amount.None? then None
    else if negative then Some(0 - amount.value)
    else Some(amount.value as int)
  }

  /** The first '.' after a run of digits is right behind it. */
  lemma {:induction false} DotAfterDigits(d: string, rest: string)
    requires AllDigits(d)
    requires |rest| == 0 || rest[0] == '.'
    ensures DotIndex(d + rest) == |d|
  {
    var s := d + rest;
    assert forall k :: 0 <= k < |d| ==> s[k] == d[k];
    assert |rest| > 0 ==> s[|d|] == '.';
  }

  /** The cents suffix reads back as the cents it was rendered from. */
  lemma {:induction false} CentsRoundTrip(frac: nat)
    requires frac < 100
    ensures ReadCents(CentsSuffix(frac)) == Some(frac)
  {
  }

  /** Digits followed by a readable suffix read as dollars and cents. */
  lemma {:induction false} ReadDollarsAndCents(d: string, rest: string, f: nat)
    requires |d| > 0 && AllDigits(d)
    requires |rest| == 0 || rest[0] == '.'
    requires ReadCents(rest) == Some(f)
    ensures ReadUnsignedPrice(d + rest) == Some(100 * DigitsValue(d) + f)
  {
    var s := d + rest;
    DotAfterDigits(d, rest);
    assert s[..|d|] == d;
    assert s[|d|..] == rest;
  }

  /** Reading back the text of an amount of cents gives the amount. */
  lemma {:induction false} UnsignedPriceRoundTrip(cents: nat)
    ensures ReadUnsignedPrice(UnsignedPriceString(cents)) == Some(cents)
  {
    var d := Digits(cents / 100);
    var rest := CentsSuffix(cents % 100);
    assert ReadCents(rest) == Some(cents % 100) by {
      CentsRoundTrip(cents % 100);
    }
    assert DigitsValue(d) == cents / 100 by {
      DigitsRoundTrip(cents / 100);
    }
    ReadDollarsAndCents(d, rest, cents % 100);
  }

  /** Reading back a rendered price gives the price, so different prices
      always render differently. */
  lemma {:induction false} PriceRoundTrip(cents: int)
    ensures ReadPrice(PriceString(cents)) == Some(cents)
  {
    var s := PriceString(cents);
    if cents < 0 {
      assert |s| > 0 && s[0] == '-' && ReadUnsignedPrice(s[1..]) == Some(-cents) by {
        assert s[1..] == UnsignedPriceString(-cents);
        UnsignedPriceRoundTrip(-cents);
      }
      ReadNegative(s, -cents);
    } else {
      assert |s| > 0 && s[0] != '-' && ReadUnsignedPrice(s) == Some(cents) by {
        UnsignedPriceRoundTrip(cents);
      }
      ReadNonNegative(s, cents);
    }
  }

  lemma {:induction false} ReadNegative(s: string, c: nat)
    requires |s| > 0 && s[0] == '-' && ReadUnsignedPrice(s[1..]) == Some(c)
    ensures ReadPrice(s) == Some(-(c as int))
  {
  }

  lemma {:induction false} ReadNonNegative(s: string, c: nat)
    requires |s| > 0 && s[0] != '-' && ReadUnsignedPrice(s) == Some(c)
    ensures ReadPrice(s) == Some(c)
  {
  }

  /** `a.localeCompare(b) <= 0`, modelled as lexicographic order on code points. */
  predicate StrLe(a: string, b: string)
    decreases |a|
  {
    |a| == 0 || (|b| > 0 && (a[0] < b[0] || (a[0] == b[0] && StrLe(a[1..], b[1..]))))
  }

  lemma {:induction false} StrLeReflexive(a: string)
    ensures StrLe(a, a)
    decreases |a|
  {
    if |a| > 0 {
      StrLeReflexive(a[1..]);
    }
  }

  lemma {:induction false} StrLeTotal(a: string, b: string)
    ensures StrLe(a, b) || StrLe(b, a)
    decreases |a|
  {
    if |a| > 0 && |b| > 0 && a[0] == b[0] {
      StrLeTotal(a[1..], b[1..]);
    }
  }

  lemma {:induction false} StrLeTransitive(a: string, b: string, c: string)
    requires StrLe(a, b) && StrLe(b, c)
    ensures StrLe(a, c)
    decreases |a|
  {
    if |a| > 0 && a[0] == b[0] && b[0] == c[0] {
      StrLeTransitive(a[1..], b[1..], c[1..]);
    }
  }

  lemma {:induction false} StrLeAntisymmetric(a: string, b: string)
    requires StrLe(a, b) && StrLe(b, a)
    ensures a == b
    decreases |a|
  {
    if |a| > 0 {
      StrLeAntisymmetric(a[1..], b[1..]);
      assert a == [a[0]] + a[1..] && b == [b[0]] + b[1..];
    }
  }
}
