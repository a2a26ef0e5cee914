/** Decimal printing and parsing as Go's strconv does it, and strings.Split on ':'. */
module Decimal {
  import opened Common

  predicate IsDigit(c: char) { '0' <= c <= '9' }

  function DigitOf(d: nat): (c: char)
    requires d < 10
    ensures IsDigit(c)
  {
    '0' + d as char
  }

  function DigitValue(c: char): (d: nat)
    requires IsDigit(c)
    ensures d < 10
  {
    c as int - '0' as int
  }

  predicate AllDigits(s: string) {
    s != [] && forall i :: 0 <= i < |s| ==> IsDigit(s[i])
  }

  function Digits(n: nat): string {
    if n < 10 then [DigitOf(n)] else Digits(n / 10) + [DigitOf(n % 10)]
  }

  function Value(s: string): nat
    requires forall i :: 0 <= i < |s| ==> IsDigit(s[i])
  {
    if s == [] then 0 else Value(s[..|s| - 1]) * 10 + DigitValue(s[|s| - 1])
  }

  /** strconv.FormatInt(n, 10), also fmt's %d. */
  function FormatInt(n: int): string {
    if n < 0 then "-" + Digits(-n) else Digits(n)
  }

  /** strconv.ParseInt(s, 10, 64): an optional sign, at least one digit, in range.
      Leading zeros and a plus sign are admitted. */
  function ParseInt(s: string): Option<int64> {
    var signed := s != [] && (s[0] == '+' || s[0] == '-');
    var body := if signed then s[1..] else s;
    if !AllDigits(body) then None
    else
      var v: int := if signed && s[0] == '-' then 0 - Value(body) else Value(body);
      if INT64_MIN <= v <= INT64_MAX then Some(v) else None
  }

  /** strconv.ParseUint(s, 10, 64): no sign at all. */
  function ParseUint(s: string): Option<nat> {
    if AllDigits(s) && Value(s) <= UINT64_MAX then Some(Value(s)) else None
  }

  lemma {:induction false} DigitsRoundTrip(n: nat)
    ensures AllDigits(Digits(n)) && Value(Digits(n)) == n
  {
    if n < 10 {
      assert Digits(n)[..0] == [];
    } else {
      DigitsRoundTrip(n / 10);
      var s := Digits(n);
      assert s[..|s| - 1] == Digits(n / 10);
    }
  }

  lemma ParseSigned(s: string)
    requires AllDigits(s)
    ensures Value(s) <= INT64_MAX ==> ParseInt(s) == Some(Value(s))
    ensures var v: int := Value(s); -v >= INT64_MIN ==> ParseInt("-" + s) == Some(-v)
  {
    hide Value;
    assert IsDigit(s[0]);
    assert ("-" + s)[1..] == s;
  }

  lemma ParseFormat(n: int64)
    ensures ParseInt(FormatInt(n)) == Some(n)
  {
    var v: int := n;
    var k: nat := if v < 0 then -v else v;
    DigitsRoundTrip(k);
    hide Digits;
    hide Value;
    hide AllDigits;
    hide ParseInt;
    ParseSigned(Digits(k));
  }

  lemma ParseUintFormat(n: nat)
    requires n <= UINT64_MAX
    ensures ParseUint(FormatInt(n)) == Some(n)
  {
    DigitsRoundTrip(n);
  }

  lemma FormatIntHasNoColon(n: int)
    ensures ':' !in FormatInt(n)
  {
    DigitsRoundTrip(if n < 0 then -n else n);
  }

  lemma FormatIntInjective(a: int64, b: int64)
    requires FormatInt(a) == FormatInt(b)
    ensures a == b
  {
    ParseFormat(a);
    ParseFormat(b);
  }

  /** Position of the first ':' of s. */
  function FirstColon(s: string): (i: nat)
    requires ':' in s
    ensures i < |s| && s[i] == ':' && ':' !in s[..i]
  {
    if s[0] == ':' then 0
    else
      assert ':' in s[1..];
      var j := FirstColon(s[1..]);
      assert s[..j + 1] == [s[0]] + s[1..][..j];
      j + 1
  }

  /** strings.Split(s, ":"). */
  function Split(s: string): seq<string> {
    if ':' !in s then [s]
    else var i := FirstColon(s); [s[..i]] + Split(s[i + 1..])
  }

  /** After a colon-free head the first colon is the one that ends it, whatever the tail holds. */
  lemma {:induction false} FirstColonOf(head: string, tail: string)
    requires ':' !in head
    ensures ':' in head + ":" + tail && FirstColon(head + ":" + tail) == |head|
  {
    var s := head + ":" + tail;
    assert s[|head|] == ':';
    if head != [] {
      FirstColonOf(head[1..], tail);
      assert s[0] == head[0] && s[1..] == head[1..] + ":" + tail;
    }
  }

  lemma SplitCons(head: string, tail: string)
    requires ':' !in head
    ensures Split(head + ":" + tail) == [head] + Split(tail)
  {
    var s := head + ":" + tail;
    FirstColonOf(head, tail);
    assert s[..|head|] == head && s[|head| + 1..] == tail;
  }

  /** A key "head:tail" with a colon-free head determines both parts. */
  lemma ColonKeyInjective(h1: string, t1: string, h2: string, t2: string)
    requires ':' !in h1 && ':' !in h2
    requires h1 + ":" + t1 == h2 + ":" + t2
    ensures h1 == h2 && t1 == t2
  {
    var s1, s2 := h1 + ":" + t1, h2 + ":" + t2;
    FirstColonOf(h1, t1);
    FirstColonOf(h2, t2);
    assert s1[..|h1|] == h1 && s2[..|h2|] == h2;
    assert s1[|h1| + 1..] == t1 && s2[|h2| + 1..] == t2;
  }
}
