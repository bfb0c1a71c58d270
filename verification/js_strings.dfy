/** The few JavaScript string and array primitives the plugin relies on,
    written out with the semantics the runtime gives them:
    `String.prototype.slice(0, n)`, `toLowerCase`, `split`, `Array.prototype.join`,
    `Array.prototype.indexOf` and `Number.prototype.toString()` on integers. */
module JsStrings {

  /** `s.slice(0, n)`: the first `n` characters, or all of `s` when it is shorter. */
  function Take(s: string, n: nat): (r: string)
    ensures |r| == if |s| < n then |s| else n
    ensures r <= s
  {
    if |s| < n then s else s[..n]
  }

  // ---------------------------------------------------------------- case

  predicate IsUpper(c: char) {
    'A' <= c <= 'Z'
  }

  /** Lower-cases one character; only the ASCII letters `A`..`Z` change. */
  function LowerChar(c: char): (d: char)
    ensures !IsUpper(d)
    ensures IsUpper(c) ==> d as int == c as int + 32
    ensures !IsUpper(c) ==> d == c
  {
    if IsUpper(c) then (c as int + 32) as char else c
  }

  /** `s.toLowerCase()`, restricted to ASCII letters. */
  function Lower(s: string): (r: string)
    ensures |r| == |s|
    ensures forall i :: 0 <= i < |s| ==> r[i] == LowerChar(s[i])
  {
    seq(|s|, i requires 0 <= i < |s| => LowerChar(s[i]))
  }

  /** Lower-casing leaves no upper-case letter, and doing it twice changes nothing. */
  lemma LowerIsIdempotent(s: string)
    ensures forall i :: 0 <= i < |Lower(s)| ==> !IsUpper(Lower(s)[i])
    ensures Lower(Lower(s)) == Lower(s)
  {
  }

  /** Lower-casing never introduces or removes a character that is not a letter. */
  lemma LowerKeepsOtherChars(s: string, c: char)
    requires !IsUpper(c) && !('a' <= c <= 'z')
    ensures c in Lower(s) <==> c in s
  {
    if c in s {
      var i :| 0 <= i < |s| && s[i] == c;
      assert Lower(s)[i] == c;
    }
    if c in Lower(s) {
      var i :| 0 <= i < |Lower(s)| && Lower(s)[i] == c;
      assert s[i] == c;
    }
  }

  // ---------------------------------------------------------- split/join

  /** `s.split(sep)` for a one-character separator: always at least one
      part, and an empty string gives `[""]`. */
  function Split(s: string, sep: char): (parts: seq<string>)
    ensures |parts| >= 1
  {
    if |s| == 0 then [""]
    else
      var rest := Split(s[1..], sep);
      if s[0] == sep then [""] + rest
      else [[s[0]] + rest[0]] + rest[1..]
  }

  /** `parts.join(sep)`: the parts with one separator between neighbours. */
  function Join(parts: seq<string>, sep: char): string
  {
    if |parts| == 0 then ""
    else if |parts| == 1 then parts[0]
    else parts[0] + [sep] + Join(parts[1..], sep)
  }

  /** Joining the parts of a split gives back the original string. */
  lemma {:induction false} JoinSplit(s: string, sep: char)
    ensures Join(Split(s, sep), sep) == s
  {
    if |s| > 0 {
      var rest := Split(s[1..], sep);
      JoinSplit(s[1..], sep);
      if s[0] == sep {
        assert Split(s, sep) == [""] + rest;
        assert ([""] + rest)[1..] == rest;
      } else if |rest| > 1 {
        assert Join(rest, sep) == rest[0] + [sep] + Join(rest[1..], sep);
        var parts := [[s[0]] + rest[0]] + rest[1..];
        assert parts[1..] == rest[1..];
        assert s == [s[0]] + s[1..];
      } else {
        assert s == [s[0]] + s[1..];
      }
    }
  }

  /** A string without the separator splits into itself. */
  lemma {:induction false} SplitWithoutSeparator(s: string, sep: char)
    requires sep !in s
    ensures Split(s, sep) == [s]
  {
    if |s| > 0 {
      SplitWithoutSeparator(s[1..], sep);
      assert s == [s[0]] + s[1..];
    }
  }

  /** Splitting at a separator that follows a separator-free head yields
      the head followed by the split of the tail. */
  lemma {:induction false} SplitAfterHead(head: string, sep: char, tail: string)
    requires sep !in head
    ensures Split(head + [sep] + tail, sep) == [head] + Split(tail, sep)
  {
    var s := head + [sep] + tail;
    if |head| == 0 {
      assert s == [sep] + tail;
      assert s[1..] == tail;
    } else {
      assert s[1..] == head[1..] + [sep] + tail;
      SplitAfterHead(head[1..], sep, tail);
      assert head == [head[0]] + head[1..];
    }
  }

  /** No part of a split contains the separator. */
  lemma {:induction false} SplitPartsAreSeparatorFree(s: string, sep: char)
    ensures forall i :: 0 <= i < |Split(s, sep)| ==> sep !in Split(s, sep)[i]
  {
    if |s| > 0 {
      SplitPartsAreSeparatorFree(s[1..], sep);
      var rest := Split(s[1..], sep);
      var parts := Split(s, sep);
      if s[0] != sep {
        assert parts[0] == [s[0]] + rest[0];
        assert forall i :: 1 <= i < |parts| ==> parts[i] == rest[i];
      } else {
        assert forall i :: 1 <= i < |parts| ==> parts[i] == rest[i - 1];
      }
    }
  }

  /** One step of `Split`: the first character either starts a new part or
      joins the first part of the rest. */
  lemma SplitCons(c: char, t: string, sep: char)
    ensures var r := Split(t, sep);
      Split([c] + t, sep) == if c == sep then [""] + r else [[c] + r[0]] + r[1..]
  {
    assert ([c] + t)[0] == c && ([c] + t)[1..] == t;
  }

  /** Splitting at a separator splits the two sides independently. */
  lemma {:induction false} SplitConcat(x: string, sep: char, y: string)
    ensures Split(x + [sep] + y, sep) == Split(x, sep) + Split(y, sep)
  {
    if |x| == 0 {
      assert x + [sep] + y == [sep] + y;
      SplitCons(sep, y, sep);
    } else {
      var t := x[1..] + [sep] + y;
      assert x + [sep] + y == [x[0]] + t;
      assert x == [x[0]] + x[1..];
      SplitConcat(x[1..], sep, y);
      SplitCons(x[0], t, sep);
      SplitCons(x[0], x[1..], sep);
      ConsPartsAppend(x[0], sep, Split(x[1..], sep), Split(y, sep));
    }
  }

  lemma ConsPartsAppend(c: char, sep: char, r1: seq<string>, r2: seq<string>)
    requires |r1| >= 1
    ensures var r := r1 + r2;
      (if c == sep then [""] + r else [[c] + r[0]] + r[1..]) ==
      (if c == sep then [""] + r1 else [[c] + r1[0]] + r1[1..]) + r2
  {
    var r := r1 + r2;
    assert r[0] == r1[0];
    assert r[1..] == r1[1..] + r2;
  }

  /** Splitting a join of separator-free parts recovers the parts. */
  lemma {:induction false} SplitJoin(parts: seq<string>, sep: char)
    requires |parts| >= 1
    requires forall i :: 0 <= i < |parts| ==> sep !in parts[i]
    ensures Split(Join(parts, sep), sep) == parts
  {
    if |parts| == 1 {
      SplitWithoutSeparator(parts[0], sep);
    } else {
      SplitJoin(parts[1..], sep);
      SplitAfterHead(parts[0], sep, Join(parts[1..], sep));
    }
  }

  /** Joining a leading run of the parts gives a prefix of joining them all. */
  lemma {:induction false} JoinPrefix(parts: seq<string>, sep: char, k: nat)
    requires k <= |parts|
    ensures Join(parts[..k], sep) <= Join(parts, sep)
  {
    if k > 0 && |parts| > 1 {
      if k == 1 {
        assert parts[..1] == [parts[0]];
      } else {
        JoinPrefix(parts[1..], sep, k - 1);
        assert parts[..k][1..] == parts[1..][..k - 1];
      }
    }
  }

  /** `Array.prototype.indexOf`: the first position holding `x`, or -1. */
  function IndexOf<T(==)>(s: seq<T>, x: T): (r: int)
    ensures -1 <= r < |s|
    ensures r == -1 <==> x !in s
    ensures 0 <= r ==> s[r] == x
    ensures forall j :: 0 <= j < |s| && j < r ==> s[j] != x
  {
    if |s| == 0 then -1
    else if s[0] == x then 0
    else
      var k := IndexOf(s[1..], x);
      if k == -1 then -1 else k + 1
  }

  // ------------------------------------------------------------- numbers

  predicate IsDigit(c: char) {
    '0' <= c <= '9'
  }

  function DigitChar(d: nat): (c: char)
    requires d < 10
    ensures IsDigit(c)
  {
    ('0' as int + d) as char
  }

  function DigitValue(c: char): (d: nat)
    requires IsDigit(c)
    ensures d < 10 && DigitChar(d) == c
  {
    c as int - '0' as int
  }

  predicate AllDigits(s: string) {
    forall i :: 0 <= i < |s| ==> IsDigit(s[i])
  }

  /** The decimal digits of a natural number, most significant first,
      without leading zeros. */
  function Digits(n: nat): (s: string)
    ensures |s| >= 1 && AllDigits(s)
    ensures s[0] == '0' ==> n == 0
    ensures |s| > 1 ==> s[0] != '0'
    decreases n
  {
    if n < 10 then [DigitChar(n)] else Digits(n / 10) + [DigitChar(n % 10)]
  }

  /** The value of a string of decimal digits. */
  function ParseDigits(s: string): nat
    requires AllDigits(s)
  {
    if |s| == 0 then 0 else 10 * ParseDigits(s[..|s| - 1]) + DigitValue(s[|s| - 1])
  }

  /** Reading the digits back gives the number: `Digits` is the decimal rendering. */
  lemma {:induction false} DigitsRoundTrip(n: nat)
    ensures ParseDigits(Digits(n)) == n
    decreases n
  {
    if n >= 10 {
      DigitsRoundTrip(n / 10);
      var s := Digits(n);
      assert s[..|s| - 1] == Digits(n / 10);
    }
  }

  /** `n.toString()` for an integer `n` (non-integral numbers are not modelled). */
  function NumberToString(n: int): string
  {
    if n < 0 then "-" + Digits(-n) else Digits(n)
  }

  /** The inverse of `NumberToString`, for strings it produces. */
  function ParseNumber(s: string): int
  {
    if |s| > 0 && s[0] == '-' && AllDigits(s[1..]) then 0 - ParseDigits(s[1..])
    else if AllDigits(s) then ParseDigits(s)
    else 0
  }

  /** Number rendering round-trips, and only negative numbers get a sign. */
  lemma NumberToStringRoundTrip(n: int)
    ensures ParseNumber(NumberToString(n)) == n
    ensures (NumberToString(n)[0] == '-') <==> n < 0
  {
    var s := NumberToString(n);
    if n < 0 {
      var d := Digits(-n);
      assert s == "-" + d;
      assert s[1..] == d;
      DigitsRoundTrip(-n);
      assert ParseNumber(s) == 0 - ParseDigits(d);
    } else {
      var d := Digits(n);
      assert s == d;
      assert IsDigit(d[0]);
      DigitsRoundTrip(n);
      assert ParseNumber(s) == ParseDigits(d);
    }
  }

  /** A three-digit number has three digits. */
  lemma ThreeDigits(m: nat)
    requires 100 <= m < 1000
    ensures |Digits(m)| == 3
  {
    assert Digits(m) == Digits(m / 10) + [DigitChar(m % 10)];
    assert Digits(m / 10) == Digits(m / 100) + [DigitChar((m / 10) % 10)];
  }

  /** Removing the last digit of a number of two or more digits leaves
      a prefix of its rendering. */
  lemma DropLastDigit(n: nat)
    requires n >= 10
    ensures Digits(n / 10) <= Digits(n)
  {
    assert Digits(n) == Digits(n / 10) + [DigitChar(n % 10)];
  }

  /** The first three digits of a nine-digit number are the digits of
      `n / 1000000`. */
  lemma {:induction false} LeadingThreeOfNine(n: nat)
    requires 100000000 <= n < 1000000000
    ensures Take(Digits(n), 3) == Digits(n / 1000000)
  {
    var n1 := n / 10;
    var n2 := n1 / 10;
    var n3 := n2 / 10;
    var n4 := n3 / 10;
    var n5 := n4 / 10;
    var n6 := n5 / 10;
    assert 10000000 <= n1 < 100000000;
    assert 1000000 <= n2 < 10000000;
    assert 100000 <= n3 < 1000000;
    assert 10000 <= n4 < 100000;
    assert 1000 <= n5 < 10000;
    assert 100 <= n6 < 1000;
    assert n6 == n / 1000000;
    DropLastDigit(n);
    DropLastDigit(n1);
    DropLastDigit(n2);
    DropLastDigit(n3);
    DropLastDigit(n4);
    DropLastDigit(n5);
    ThreeDigits(n6);
  }
}
