/**
 * The pieces of the C++ standard library that the modelled code leans on
 * for text: `std::string::find`/`rfind` on one character, prefix tests,
 * the decimal form that `operator<<` writes for an integer, and C's `atoi`.
 */
module Text {

  /** `s.find(c)` converted to `int`, as the source stores it: -1 stands for `npos`. */
  function IndexOf(s: string, c: char): (r: int)
    ensures r == -1 <==> c !in s
    ensures r != -1 ==> 0 <= r < |s| && s[r] == c && c !in s[..r]
  {
    if s == [] then -1
    else if s[0] == c then 0
    else
      var k := IndexOf(s[1..], c);
      if k == -1 then -1
      else
        assert s[..k + 1] == [s[0]] + s[1..][..k];
        k + 1
  }

  /** `s.rfind(c)` converted to `int`: -1 stands for `npos`. */
  function LastIndexOf(s: string, c: char): (r: int)
    ensures r == -1 <==> c !in s
    ensures r != -1 ==> 0 <= r < |s| && s[r] == c && c !in s[r + 1..]
  {
    if s == [] then -1
    else if s[|s| - 1] == c then |s| - 1
    else
      var k := LastIndexOf(s[..|s| - 1], c);
      assert k != -1 ==> s[k + 1..] == s[..|s| - 1][k + 1..] + [s[|s| - 1]];
      assert s == s[..|s| - 1] + [s[|s| - 1]];
      k
  }

  /**
   * The `std::string` built from a `char *`: the characters before the first
   * NUL, or the whole buffer when it holds none.
   */
  function CString(buffer: string): (s: string)
    ensures '\0' !in s
    ensures s <= buffer
    ensures |s| < |buffer| ==> buffer[|s|] == '\0'
  {
    var end := IndexOf(buffer, '\0');
    if end == -1 then buffer else buffer[..end]
  }

  /** Whatever follows the first NUL is lost, and a NUL-free buffer is copied whole. */
  lemma CStringStopsAtNul(prefix: string, rest: string)
    requires '\0' !in prefix
    ensures CString(prefix) == prefix
    ensures CString(prefix + "\0" + rest) == prefix
  {
    var buffer := prefix + "\0" + rest;
    assert buffer[|prefix|] == '\0';
    assert buffer[..|prefix|] == prefix;
  }

  /** The copy is the only NUL-free prefix that reaches a NUL or the end of the buffer. */
  lemma CStringIsUnique(buffer: string, s: string)
    requires '\0' !in s && s <= buffer
    requires |s| < |buffer| ==> buffer[|s|] == '\0'
    ensures CString(buffer) == s
  {
    var c := CString(buffer);
    assert c == buffer[..|c|] && s == buffer[..|s|];
  }

  /** A NUL-free head of a buffer is kept, and the copy goes on as the copy of the rest. */
  lemma CStringOfConcat(head: string, rest: string)
    requires '\0' !in head
    ensures CString(head + rest) == head + CString(rest)
  {
    var buffer, s := head + rest, head + CString(rest);
    assert s <= buffer by {
      assert buffer[..|head|] == head && buffer[|head|..] == rest;
    }
    if |s| < |buffer| {
      assert buffer[|s|] == rest[|CString(rest)|];
    }
    CStringIsUnique(buffer, s);
  }

  /** `input.rfind(prefix, 0) == 0`: the idiom the source uses for "starts with". */
  predicate StartsWith(s: string, prefix: string) {
    |prefix| <= |s| && s[..|prefix|] == prefix
  }

  predicate IsDigit(c: char) {
    '0' <= c <= '9'
  }

  predicate AllDigits(s: string) {
    forall i :: 0 <= i < |s| ==> IsDigit(s[i])
  }

  /** The white space that `atoi` skips (C's `isspace` in the "C" locale). */
  predicate IsSpace(c: char) {
    c == ' ' || c == '\t' || c == '\n' || c == '\r' || c == '\U{B}' || c == '\U{C}'
  }

  function DigitValue(c: char): (d: nat)
    requires IsDigit(c)
    ensures d < 10
  {
    c as int - '0' as int
  }

  function DigitChar(d: nat): (c: char)
    requires d < 10
    ensures IsDigit(c) && DigitValue(c) == d
  {
    ('0' as int + d) as char
  }

  /** The decimal digits of `n`, without leading zeros. */
  function NatToString(n: nat): (s: string)
    ensures s != [] && AllDigits(s)
  {
    if n < 10 then [DigitChar(n)] else NatToString(n / 10) + [DigitChar(n % 10)]
  }

  /** What `stream << n` writes for an integer `n`. */
  function IntToString(n: int): (s: string)
    ensures s != [] && ':' !in s && '\0' !in s
    ensures n >= 0 ==> AllDigits(s)
  {
    var digits := NatToString(if n < 0 then -n else n);
    assert forall i :: 0 <= i < |digits| ==> digits[i] != ':' && digits[i] != '\0';
    if n < 0 then "-" + digits else digits
  }

  /** The value of a string of decimal digits. */
  function DigitsValue(s: string): nat
    requires AllDigits(s)
  {
    if s == [] then 0 else DigitsValue(s[..|s| - 1]) * 10 + DigitValue(s[|s| - 1])
  }

  /** The longest prefix of `s` made of decimal digits. */
  function LeadingDigits(s: string): (p: string)
    ensures AllDigits(p) && |p| <= |s| && p == s[..|p|]
    ensures |p| < |s| ==> !IsDigit(s[|p|])
  {
    if s != [] && IsDigit(s[0]) then [s[0]] + LeadingDigits(s[1..]) else []
  }

  /**
   * C's `atoi`: skip leading white space, read an optional sign and then as
   * many decimal digits as follow; no digits read gives 0.  The model's
   * integers are unbounded, so the overflow `atoi` leaves undefined does not arise.
   */
  function Atoi(s: string): int {
    if s != [] && IsSpace(s[0]) then Atoi(s[1..])
    else if s != [] && s[0] == '-' then 0 - DigitsValue(LeadingDigits(s[1..]))
    else if s != [] && s[0] == '+' then DigitsValue(LeadingDigits(s[1..]))
    else DigitsValue(LeadingDigits(s))
  }

  lemma {:induction false} DigitsValueOfNatToString(n: nat)
    ensures DigitsValue(NatToString(n)) == n
  {
    if n >= 10 {
      var s := NatToString(n);
      var prefix := NatToString(n / 10);
      assert s[..|s| - 1] == prefix;
      DigitsValueOfNatToString(n / 10);
    }
  }

  lemma {:induction false} LeadingDigitsOfDigitsThen(d: string, rest: string)
    requires AllDigits(d)
    requires rest == [] || !IsDigit(rest[0])
    ensures LeadingDigits(d + rest) == d
  {
    if d != [] {
      assert (d + rest)[1..] == d[1..] + rest;
      LeadingDigitsOfDigitsThen(d[1..], rest);
    } else {
      assert d + rest == rest;
    }
  }

  lemma AtoiOfDigitsThen(d: string, rest: string)
    requires d != [] && AllDigits(d)
    requires rest == [] || !IsDigit(rest[0])
    ensures Atoi(d + rest) == DigitsValue(d)
  {
    var s := d + rest;
    assert s[0] == d[0];
    assert !IsSpace(s[0]) && s[0] != '-' && s[0] != '+';
    assert Atoi(s) == DigitsValue(LeadingDigits(s));
    LeadingDigitsOfDigitsThen(d, rest);
  }

  lemma AtoiOfNegatedDigitsThen(d: string, rest: string)
    requires d != [] && AllDigits(d)
    requires rest == [] || !IsDigit(rest[0])
    ensures Atoi("-" + d + rest) == 0 - DigitsValue(d)
  {
    var t := "-" + (d + rest);
    assert "-" + d + rest == t;
    assert t[0] == '-' && !IsSpace(t[0]) && t[1..] == d + rest;
    LeadingDigitsOfDigitsThen(d, rest);
    assert Atoi(t) == 0 - DigitsValue(LeadingDigits(t[1..]));
  }

  /**
   * `atoi` reads back what `operator<<` wrote for an integer, whatever
   * follows the number as long as it does not start with a digit.
   */
  lemma AtoiOfIntToString(n: int, rest: string)
    requires rest == [] || !IsDigit(rest[0])
    ensures Atoi(IntToString(n) + rest) == n
  {
    var magnitude: nat := if n < 0 then -n else n;
    DigitsValueOfNatToString(magnitude);
    if n < 0 {
      AtoiOfNegatedDigitsThen(NatToString(magnitude), rest);
    } else {
      AtoiOfDigitsThen(NatToString(magnitude), rest);
    }
  }
}
