/**
 * The Python string operations the contact sheet relies on: str.strip(),
 * ", ".join(...), int(...) on a decimal string, the "{:02}" format
 * specification and the ordering of str values that sort_values uses.
 */
module Strings {
  import opened Wrappers

  /** The characters for which Python's str.isspace() holds; str.strip() with no argument removes these. */
  predicate IsSpace(c: char) {
    || ('\t' <= c <= '\r')
    || ('\U{1c}' <= c <= ' ')
    || c == '\U{85}'
    || c == '\U{a0}'
    || c == '\U{1680}'
    || ('\U{2000}' <= c <= '\U{200a}')
    || c == '\U{2028}'
    || c == '\U{2029}'
    || c == '\U{202f}'
    || c == '\U{205f}'
    || c == '\U{3000}'
  }

  /** str.lstrip(): drops the leading white space and nothing else. */
  function StripLeft(s: string): (r: string)
    ensures |r| <= |s| && r == s[|s| - |r|..]
    ensures forall k :: 0 <= k < |s| - |r| ==> IsSpace(s[k])
    ensures r != [] ==> !IsSpace(r[0])
  {
    if s != [] && IsSpace(s[0]) then StripLeft(s[1..]) else s
  }

  /** str.rstrip(): drops the trailing white space and nothing else. */
  function StripRight(s: string): (r: string)
    ensures |r| <= |s| && r == s[..|r|]
    ensures forall k :: |r| <= k < |s| ==> IsSpace(s[k])
    ensures r != [] ==> !IsSpace(r[|r| - 1])
  {
    if s != [] && IsSpace(s[|s| - 1]) then StripRight(s[..|s| - 1]) else s
  }

  /** Neither starts nor ends with white space. */
  predicate Trimmed(s: string) {
    s == [] || (!IsSpace(s[0]) && !IsSpace(s[|s| - 1]))
  }

  /** `r` is what is left of `s` once a white-space prefix and a white-space suffix are cut off. */
  predicate InfixAfterTrim(s: string, r: string, i: int) {
    && 0 <= i <= i + |r| <= |s|
    && r == s[i..i + |r|]
    && (forall k :: 0 <= k < i ==> IsSpace(s[k]))
    && (forall k :: i + |r| <= k < |s| ==> IsSpace(s[k]))
  }

  /** str.strip(): the longest infix of `s` that starts and ends with a non-space character. */
  function Strip(s: string): (r: string)
    ensures Trimmed(r)
    ensures exists i :: InfixAfterTrim(s, r, i)
  {
    var l := StripLeft(s);
    var r := StripRight(l);
    assert InfixAfterTrim(s, r, |s| - |l|);
    r
  }

  /** Stripping a string that is already trimmed changes nothing; in particular Strip is idempotent. */
  lemma StripTrimmed(s: string)
    requires Trimmed(s)
    ensures Strip(s) == s
  {
  }

  lemma StripIdempotent(s: string)
    ensures Strip(Strip(s)) == Strip(s)
  {
    StripTrimmed(Strip(s));
  }

  /** A string joined from trimmed, non-empty parts around one space is itself trimmed. */
  lemma StripSpacedPair(a: string, b: string)
    requires a != "" && b != "" && Trimmed(a) && Trimmed(b)
    ensures Strip(a + " " + b) == a + " " + b
  {
    var s := a + " " + b;
    assert s[0] == a[0] && s[|s| - 1] == b[|b| - 1];
    StripTrimmed(s);
  }

  /** sep.join(parts). */
  function Join(sep: string, parts: seq<string>): string
  {
    if parts == [] then ""
    else if |parts| == 1 then parts[0]
    else parts[0] + sep + Join(sep, parts[1..])
  }

  /** Total length of the parts. */
  function Length(parts: seq<string>): nat
  {
    if parts == [] then 0 else |parts[0]| + Length(parts[1..])
  }

  /** Joining puts exactly one separator between neighbouring parts, and nothing else. */
  lemma {:induction false} JoinLength(sep: string, parts: seq<string>)
    requires parts != []
    ensures |Join(sep, parts)| == Length(parts) + |sep| * (|parts| - 1)
  {
    if |parts| > 1 {
      JoinLength(sep, parts[1..]);
    }
  }

  /** Joining two non-empty lists of parts is joining each and putting one separator between. */
  lemma {:induction false} JoinAppend(sep: string, a: seq<string>, b: seq<string>)
    requires a != [] && b != []
    ensures Join(sep, a + b) == Join(sep, a) + sep + Join(sep, b)
  {
    if |a| == 1 {
      assert (a + b)[1..] == b;
    } else {
      assert (a + b)[1..] == a[1..] + b;
      JoinAppend(sep, a[1..], b);
    }
  }

  /** When no part is empty the joined string is empty exactly when there are no parts. */
  lemma JoinEmptyIff(sep: string, parts: seq<string>)
    requires forall p :: p in parts ==> p != ""
    ensures Join(sep, parts) == "" <==> parts == []
  {
    if parts != [] {
      JoinLength(sep, parts);
      assert parts[0] in parts;
    }
  }

  predicate IsDigit(c: char) {
    '0' <= c <= '9'
  }

  /** A non-empty run of ASCII decimal digits. */
  predicate IsDigits(s: string) {
    s != [] && forall k :: 0 <= k < |s| ==> IsDigit(s[k])
  }

  function DigitChar(d: nat): (c: char)
    requires d < 10
    ensures IsDigit(c) && DigitValue(c) == d
  {
    (('0' as int) + d) as char
  }

  function DigitValue(c: char): (d: nat)
    requires IsDigit(c)
    ensures d < 10
  {
    (c as int) - ('0' as int)
  }

  /** The value of a string of decimal digits, most significant digit first. */
  function Value(s: string): nat
    requires forall k :: 0 <= k < |s| ==> IsDigit(s[k])
  {
    if s == [] then 0
    else 10 * Value(s[..|s| - 1]) + DigitValue(s[|s| - 1])
  }

  /** Python's int(s) on a decimal string; None stands for the ValueError int raises. */
  function ParseInt(s: string): (r: Option<nat>)
    ensures r.Some? <==> IsDigits(s)
  {
    if IsDigits(s) then Some(Value(s)) else None
  }

  /** str(n): decimal digits without leading zeros. */
  function NatToString(n: nat): (r: string)
    ensures IsDigits(r)
    ensures |r| == 1 || r[0] != '0'
    ensures n < 10 <==> |r| == 1
  {
    if n < 10 then [DigitChar(n)] else NatToString(n / 10) + [DigitChar(n % 10)]
  }

  /** Numbers from 1000 to 9999 have four digits. */
  lemma NatToStringLength(n: nat)
    ensures 1000 <= n < 10000 ==> |NatToString(n)| == 4
  {
    if 1000 <= n < 10000 {
      assert 100 <= n / 10 < 1000 && 10 <= n / 100 < 100 && 1 <= n / 1000 < 10;
      assert (n / 10) / 10 == n / 100 && (n / 100) / 10 == n / 1000;
      assert |NatToString(n / 1000)| == 1;
      assert |NatToString(n / 100)| == 2;
      assert |NatToString(n / 10)| == 3;
    }
  }

  lemma {:induction false} NatToStringRoundTrip(n: nat)
    ensures ParseInt(NatToString(n)) == Some(n)
  {
    var s := NatToString(n);
    if n >= 10 {
      NatToStringRoundTrip(n / 10);
      assert s[..|s| - 1] == NatToString(n / 10);
      assert Value(s) == 10 * (n / 10) + n % 10;
    }
  }

  /** A leading zero does not change the value of a digit string. */
  lemma {:induction false} LeadingZero(s: string)
    requires forall k :: 0 <= k < |s| ==> IsDigit(s[k])
    ensures Value("0" + s) == Value(s)
  {
    if s != [] {
      assert ("0" + s)[..|s|] == "0" + s[..|s| - 1];
      LeadingZero(s[..|s| - 1]);
    }
  }

  /** f"{n:02}": the decimal digits of n, zero-padded on the left to at least two characters. */
  function Format2(n: nat): (r: string)
    ensures IsDigits(r)
    ensures n < 100 <==> |r| == 2
    ensures n >= 10 ==> r[0] != '0'
  {
    if n < 10 then "0" + NatToString(n) else NatToString(n)
  }

  /** The padding keeps the value: int(f"{n:02}") == n. */
  lemma Format2RoundTrip(n: nat)
    ensures ParseInt(Format2(n)) == Some(n)
  {
    NatToStringRoundTrip(n);
    if n < 10 {
      LeadingZero(NatToString(n));
    }
  }

  /** Python's `a <= b` on str: lexicographic order on code points. */
  predicate StrLe(a: string, b: string) {
    a == [] || (b != [] && (a[0] < b[0] || (a[0] == b[0] && StrLe(a[1..], b[1..]))))
  }

  lemma {:induction false} StrLeTotal(a: string, b: string)
    ensures StrLe(a, b) || StrLe(b, a)
  {
    if a != [] && b != [] && a[0] == b[0] {
      StrLeTotal(a[1..], b[1..]);
    }
  }

  lemma {:induction false} StrLeTransitive(a: string, b: string, c: string)
    requires StrLe(a, b) && StrLe(b, c)
    ensures StrLe(a, c)
  {
    if a != [] && b != [] && c != [] && a[0] == b[0] == c[0] {
      StrLeTransitive(a[1..], b[1..], c[1..]);
    }
  }

  lemma {:induction false} StrLeAntisymmetric(a: string, b: string)
    requires StrLe(a, b) && StrLe(b, a)
    ensures a == b
  {
    if a != [] && b != [] {
      StrLeAntisymmetric(a[1..], b[1..]);
      assert a == [a[0]] + a[1..];
      assert b == [b[0]] + b[1..];
    }
  }
}
