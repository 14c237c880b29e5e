/** The few Python string operations the planner relies on, over `string` (a sequence of
    Unicode characters): `str.strip()`, the substring test `sub in s`, `s.split(c, 1)`,
    `', '.join(parts)` and the integer conversion `int(s)`. */
module Text {
  import opened Results

  /** The characters for which Python's `str.isspace()` holds, i.e. what `str.strip()` removes. */
  predicate IsSpace(c: char) {
    || c == ' '
    || '\t' <= c <= '\r'
    || '\U{1C}' <= c <= '\U{1F}'
    || c == '\U{85}' || c == '\U{A0}' || c == '\U{1680}'
    || '\U{2000}' <= c <= '\U{200A}'
    || c == '\U{2028}' || c == '\U{2029}' || c == '\U{202F}' || c == '\U{205F}'
    || c == '\U{3000}'
  }

  /** `s.lstrip()`: drops exactly the leading white space. */
  function TrimStart(s: string): (r: string)
    ensures |r| <= |s| && r == s[|s| - |r|..]
    ensures forall i :: 0 <= i < |s| - |r| ==> IsSpace(s[i])
    ensures r == [] || !IsSpace(r[0])
  {
    if s != [] && IsSpace(s[0]) then TrimStart(s[1..]) else s
  }

  /** `s.rstrip()`: drops exactly the trailing white space. */
  function TrimEnd(s: string): (r: string)
    ensures |r| <= |s| && r == s[..|r|]
    ensures forall i :: |r| <= i < |s| ==> IsSpace(s[i])
    ensures r == [] || !IsSpace(r[|r| - 1])
  {
    if s != [] && IsSpace(s[|s| - 1]) then TrimEnd(s[..|s| - 1]) else s
  }

  /** `s.strip()`. */
  function Strip(s: string): string {
    TrimEnd(TrimStart(s))
  }

  /** A string with no white space at either end is its own strip, and stripping is idempotent. */
  lemma StripFixed(s: string)
    ensures (s == [] || (!IsSpace(s[0]) && !IsSpace(s[|s| - 1]))) ==> Strip(s) == s
    ensures Strip(Strip(s)) == Strip(s)
  {
    var t := TrimStart(s);
    var r := TrimEnd(t);
    if r != [] {
      assert r[0] == t[0];
      assert TrimStart(r) == r;
    }
  }

  /** `sub` occurs in `s` at offset `i`. */
  predicate OccursAt(s: string, sub: string, i: int) {
    0 <= i <= |s| - |sub| && s[i..i + |sub|] == sub
  }

  /** Python's `sub in s` on strings, scanning left to right. */
  predicate Contains(s: string, sub: string)
    decreases |s|
  {
    |sub| <= |s| && (s[..|sub|] == sub || Contains(s[1..], sub))
  }

  /** The scan agrees with the textbook definition of a substring. */
  lemma {:induction false} ContainsOccurs(s: string, sub: string)
    ensures Contains(s, sub) <==> exists i :: OccursAt(s, sub, i)
    decreases |s|
  {
    if |sub| <= |s| {
      if s[..|sub|] == sub {
        assert OccursAt(s, sub, 0);
      } else {
        ContainsOccurs(s[1..], sub);
        if Contains(s[1..], sub) {
          var i :| OccursAt(s[1..], sub, i);
          assert s[1..][i..i + |sub|] == s[i + 1..i + 1 + |sub|];
          assert OccursAt(s, sub, i + 1);
        }
        if exists i :: OccursAt(s, sub, i) {
          var i :| OccursAt(s, sub, i);
          assert i != 0;
          assert s[1..][i - 1..i - 1 + |sub|] == s[i..i + |sub|];
          assert OccursAt(s[1..], sub, i - 1);
        }
      }
    }
  }

  /** Position of the first occurrence of `c`, the split point of `s.split(c, 1)`. */
  function IndexOf(s: string, c: char): (r: Option<nat>)
    ensures r.None? <==> c !in s
    ensures r.Some? ==> r.value < |s| && s[r.value] == c && c !in s[..r.value]
  {
    if s == [] then None
    else if s[0] == c then Some(0)
    else match IndexOf(s[1..], c)
      case None => None
      case Some(k) =>
        assert s[1..][..k] == s[1..k + 1];
        Some(k + 1)
  }

  /** `s.split(c)[0]`: the text before the first `c`, or all of `s`. */
  function FirstField(s: string, c: char): (r: string)
    ensures c !in r && r <= s
    ensures c in s ==> |r| < |s| && s[|r|] == c
    ensures c !in s ==> r == s
  {
    match IndexOf(s, c)
    case None => s
    case Some(k) => s[..k]
  }

  /** `sep.join(parts)`. */
  function Join(parts: seq<string>, sep: string): string {
    if parts == [] then ""
    else if |parts| == 1 then parts[0]
    else parts[0] + sep + Join(parts[1..], sep)
  }

  predicate IsDigit(c: char) {
    '0' <= c <= '9'
  }

  function DigitValue(c: char): nat
    requires IsDigit(c)
  {
    c as int - '0' as int
  }

  function DigitChar(d: nat): (c: char)
    requires d < 10
    ensures IsDigit(c) && DigitValue(c) == d
  {
    ('0' as int + d) as char
  }

  /** The digit part `int()` accepts: ASCII digits, with single underscores only between digits. */
  predicate ValidDigits(s: string) {
    && |s| > 0 && IsDigit(s[0]) && IsDigit(s[|s| - 1])
    && (forall i :: 0 <= i < |s| ==> IsDigit(s[i]) || s[i] == '_')
    && (forall i :: 0 <= i < |s| - 1 && s[i] == '_' ==> s[i + 1] != '_')
  }

  /** Decimal value of a digit string, underscores ignored. */
  function DigitsValue(s: string): nat {
    if s == [] then 0
    else if IsDigit(s[|s| - 1]) then DigitsValue(s[..|s| - 1]) * 10 + DigitValue(s[|s| - 1])
    else DigitsValue(s[..|s| - 1])
  }

  /** `int(s)` on an already stripped string; `None` where Python raises ValueError. */
  function ParseInt(s: string): (r: Option<int>)
    ensures r.Some? ==> |s| > 0
  {
    if |s| > 0 && (s[0] == '+' || s[0] == '-') then
      if ValidDigits(s[1..]) then
        var v: int := DigitsValue(s[1..]);
        Some(if s[0] == '-' then -v else v)
      else None
    else if ValidDigits(s) then Some(DigitsValue(s))
    else None
  }

  /** `str(n)` for a natural number. */
  function NatToString(n: nat): (r: string)
    ensures |r| > 0 && forall i :: 0 <= i < |r| ==> IsDigit(r[i])
  {
    if n < 10 then [DigitChar(n)] else NatToString(n / 10) + [DigitChar(n % 10)]
  }

  /** `str(k)` for an integer. */
  function IntToString(k: int): string {
    if k < 0 then "-" + NatToString(-k) else NatToString(k)
  }

  lemma {:induction false} NatToStringValue(n: nat)
    ensures ValidDigits(NatToString(n)) && DigitsValue(NatToString(n)) == n
  {
    var r := NatToString(n);
    if n >= 10 {
      NatToStringValue(n / 10);
      assert r[..|r| - 1] == NatToString(n / 10);
    }
  }

  /** `int(str(k)) == k`: printing an integer and reading it back is the identity. */
  lemma IntRoundTrip(k: int)
    ensures ParseInt(IntToString(k)) == Some(k)
  {
    if k < 0 {
      NatToStringValue(-k);
      assert IntToString(k)[1..] == NatToString(-k);
    } else {
      NatToStringValue(k);
    }
  }

  /** Decimal text has no white space and no `/`, so it survives `strip()` and a split at `/`. */
  lemma IntToStringPlain(k: int)
    ensures var t := IntToString(k); |t| > 0 && '/' !in t && !IsSpace(t[0]) && !IsSpace(t[|t| - 1])
  {
    var t := IntToString(k);
    var u := NatToString(if k < 0 then -k else k);
    assert forall i :: 0 <= i < |u| ==> IsDigit(u[i]);
    assert k < 0 ==> t == "-" + u;
  }
}
