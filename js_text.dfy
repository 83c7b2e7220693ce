/**
 * The handful of JavaScript string operations the front-end relies on,
 * written out with the semantics ECMAScript gives them: `trim`, `split`
 * on a one-character separator, `join`, `includes`, `startsWith`, the
 * decimal rendering of a non-negative integer (template literals) and
 * `Number.parseInt` with no radix.
 */
module JsText {

  datatype Option<+T> = None | Some(value: T)

  /** ECMAScript WhiteSpace and LineTerminator code points: what `trim` removes. */
  predicate IsWhitespace(c: char) {
    c == '\t' || c == '\n' || c == '\U{000B}' || c == '\U{000C}' || c == '\r' || c == ' '
    || c == '\U{00A0}' || c == '\U{1680}' || ('\U{2000}' <= c <= '\U{200A}')
    || c == '\U{2028}' || c == '\U{2029}' || c == '\U{202F}' || c == '\U{205F}'
    || c == '\U{3000}' || c == '\U{FEFF}'
  }

  predicate AllWhitespace(s: string) {
    forall k :: 0 <= k < |s| ==> IsWhitespace(s[k])
  }

  /** Neither end of `s` is whitespace: what a trimmed string looks like. */
  predicate NoEdgeWhitespace(s: string) {
    s == [] || (!IsWhitespace(s[0]) && !IsWhitespace(s[|s| - 1]))
  }

  /** `s.trimStart()`: the suffix left after dropping leading whitespace. */
  function TrimStart(s: string): (r: string)
    ensures |r| <= |s| && r == s[|s| - |r|..]
    ensures AllWhitespace(s[..|s| - |r|])
    ensures r == [] || !IsWhitespace(r[0])
  {
    if s != [] && IsWhitespace(s[0]) then TrimStart(s[1..]) else s
  }

  /** `s.trimEnd()`: the prefix left after dropping trailing whitespace. */
  function TrimEnd(s: string): (r: string)
    ensures |r| <= |s| && r == s[..|r|]
    ensures AllWhitespace(s[|r|..])
    ensures r == [] || !IsWhitespace(r[|r| - 1])
  {
    if s != [] && IsWhitespace(s[|s| - 1]) then TrimEnd(s[..|s| - 1]) else s
  }

  /** `r` is `s` with whitespace removed from both ends and nothing else changed. */
  ghost predicate TrimmedFrom(s: string, r: string) {
    exists i, j :: 0 <= i <= j <= |s| && r == s[i..j] && AllWhitespace(s[..i]) && AllWhitespace(s[j..])
  }

  /** `s.trim()`. */
  function Trim(s: string): (r: string)
    ensures NoEdgeWhitespace(r)
    ensures TrimmedFrom(s, r)
  {
    var t := TrimStart(s);
    var r := TrimEnd(t);
    var i := |s| - |t|;
    assert s[i..i + |r|] == r;
    assert s[..i] == s[..|s| - |t|];
    assert s[i + |r|..] == t[|r|..];
    r
  }

  /** A string with no whitespace at either end is its own trim. */
  lemma TrimOfTrimmed(s: string)
    requires NoEdgeWhitespace(s)
    ensures Trim(s) == s
  {
  }

  /** A string made only of whitespace trims to the empty string. */
  lemma {:induction false} TrimOfWhitespace(s: string)
    requires AllWhitespace(s)
    ensures Trim(s) == []
  {
    if s != [] {
      assert IsWhitespace(s[0]);
      TrimStartOfWhitespace(s[1..]);
    }
  }

  lemma {:induction false} TrimStartOfWhitespace(s: string)
    requires AllWhitespace(s)
    ensures TrimStart(s) == []
  {
    if s != [] {
      assert IsWhitespace(s[0]);
      TrimStartOfWhitespace(s[1..]);
    }
  }

  /** How often `c` occurs in `s`. */
  function Count(s: string, c: char): nat {
    if s == [] then 0 else (if s[0] == c then 1 else 0) + Count(s[1..], c)
  }

  /** `s.split(sep)` for a one-character separator: `"".split(",")` is `[""]`. */
  function Split(s: string, sep: char): (parts: seq<string>)
    ensures |parts| == Count(s, sep) + 1
    ensures forall k :: 0 <= k < |parts| ==> sep !in parts[k]
  {
    if s == [] then [[]]
    else
      var rest := Split(s[1..], sep);
      if s[0] == sep then [[]] + rest else [[s[0]] + rest[0]] + rest[1..]
  }

  /** `parts.join(sep)` for a one-character separator. */
  function Join(parts: seq<string>, sep: char): string {
    if parts == [] then []
    else if |parts| == 1 then parts[0]
    else parts[0] + [sep] + Join(parts[1..], sep)
  }

  /** Joining the pieces of a split gives back the original string. */
  lemma {:induction false} JoinSplit(s: string, sep: char)
    ensures Join(Split(s, sep), sep) == s
  {
    if s != [] {
      var rest := Split(s[1..], sep);
      JoinSplit(s[1..], sep);
      if s[0] == sep {
        assert Split(s, sep) == [[]] + rest;
      } else {
        var p := Split(s, sep);
        assert p == [[s[0]] + rest[0]] + rest[1..];
        if |rest| == 1 {
          assert rest == [rest[0]];
        } else {
          assert p[1..] == rest[1..];
          assert Join(rest, sep) == rest[0] + [sep] + Join(rest[1..], sep);
        }
        assert s == [s[0]] + s[1..];
      }
    }
  }

  /** Splitting a join of separator-free pieces gives back the pieces. */
  lemma {:induction false} SplitJoin(parts: seq<string>, sep: char)
    requires |parts| >= 1
    requires forall k :: 0 <= k < |parts| ==> sep !in parts[k]
    ensures Split(Join(parts, sep), sep) == parts
  {
    if |parts| == 1 {
      SplitFree(parts[0], sep);
    } else {
      SplitJoin(parts[1..], sep);
      SplitAppend(parts[0], Join(parts[1..], sep), sep);
      SplitFree(parts[0], sep);
      assert parts == [parts[0]] + parts[1..];
    }
  }

  /** A string without the separator splits into itself alone. */
  lemma {:induction false} SplitFree(s: string, sep: char)
    requires sep !in s
    ensures Split(s, sep) == [s]
  {
    if s != [] {
      SplitFree(s[1..], sep);
      assert s == [s[0]] + s[1..];
    }
  }

  /** One step of `Split`: how the first character extends the pieces of the rest. */
  lemma SplitCons(c: char, t: string, sep: char)
    ensures Split([c] + t, sep) ==
      if c == sep then [[]] + Split(t, sep) else [[c] + Split(t, sep)[0]] + Split(t, sep)[1..]
  {
    assert ([c] + t)[0] == c && ([c] + t)[1..] == t;
  }

  /** Splitting `a + sep + b` splits `a` and `b` separately, in that order. */
  lemma {:induction false} SplitAppend(a: string, b: string, sep: char)
    ensures Split(a + [sep] + b, sep) == Split(a, sep) + Split(b, sep)
  {
    if a == [] {
      assert a + [sep] + b == [sep] + b;
      SplitCons(sep, b, sep);
    } else {
      var c, t := a[0], a[1..];
      assert a == [c] + t;
      SplitAppend(t, b, sep);
      if c == sep {
        SplitAppendSep(t, b, sep);
      } else {
        SplitAppendChar(c, t, b, sep);
      }
    }
  }

  /** The step of `SplitAppend` for a leading separator: it opens an empty first piece. */
  lemma SplitAppendSep(t: string, b: string, sep: char)
    requires Split(t + [sep] + b, sep) == Split(t, sep) + Split(b, sep)
    ensures Split([sep] + t + [sep] + b, sep) == Split([sep] + t, sep) + Split(b, sep)
  {
    assert [sep] + t + [sep] + b == [sep] + (t + [sep] + b);
    SplitCons(sep, t + [sep] + b, sep);
    SplitCons(sep, t, sep);
  }

  /** The step of `SplitAppend` for a leading ordinary character: it extends the first piece. */
  lemma SplitAppendChar(c: char, t: string, b: string, sep: char)
    requires c != sep
    requires Split(t + [sep] + b, sep) == Split(t, sep) + Split(b, sep)
    ensures Split([c] + t + [sep] + b, sep) == Split([c] + t, sep) + Split(b, sep)
  {
    assert [c] + t + [sep] + b == [c] + (t + [sep] + b);
    SplitCons(c, t + [sep] + b, sep);
    SplitCons(c, t, sep);
    ExtendFirst([c], Split(t, sep), Split(b, sep));
  }

  /** Extending the first piece commutes with appending further pieces. */
  lemma ExtendFirst(c: string, p: seq<string>, q: seq<string>)
    requires |p| >= 1
    ensures [c + (p + q)[0]] + (p + q)[1..] == ([c + p[0]] + p[1..]) + q
  {
    assert (p + q)[0] == p[0];
    assert (p + q)[1..] == p[1..] + q;
  }

  /** `s.startsWith(prefix)`. */
  predicate StartsWith(s: string, prefix: string) {
    |prefix| <= |s| && s[..|prefix|] == prefix
  }

  /** `s.includes(sub)`. */
  predicate Includes(s: string, sub: string)
    decreases |s|
  {
    StartsWith(s, sub) || (s != [] && Includes(s[1..], sub))
  }

  /** `sub` occurs in `s` starting at index `i`. */
  predicate OccursAt(s: string, sub: string, i: int) {
    0 <= i && i + |sub| <= |s| && s[i..i + |sub|] == sub
  }

  /** `includes` holds exactly when `sub` occurs at some position of `s`. */
  lemma {:induction false} IncludesAt(s: string, sub: string)
    ensures Includes(s, sub) <==> exists i :: OccursAt(s, sub, i)
  {
    if StartsWith(s, sub) {
      assert OccursAt(s, sub, 0);
    }
    if s != [] {
      IncludesAt(s[1..], sub);
      if Includes(s[1..], sub) {
        var i :| OccursAt(s[1..], sub, i);
        assert s[i + 1..i + 1 + |sub|] == s[1..][i..i + |sub|];
        assert OccursAt(s, sub, i + 1);
      }
      if exists i :: OccursAt(s, sub, i) {
        var i :| OccursAt(s, sub, i);
        if i > 0 {
          assert s[1..][i - 1..i - 1 + |sub|] == s[i..i + |sub|];
          assert OccursAt(s[1..], sub, i - 1);
        }
      }
    } else if exists i :: OccursAt(s, sub, i) {
      var i :| OccursAt(s, sub, i);
      assert i == 0;
    }
  }

  predicate IsDecimalDigit(c: char) {
    '0' <= c <= '9'
  }

  /**
   * The value of a digit in radix up to 36: '0'-'9' are 0-9, and the letters
   * 'a'-'z' and 'A'-'Z' are 10-35 in either case; any other character is 36,
   * which no radix admits.
   */
  function DigitValue(c: char): (v: nat)
    ensures v <= 36
    ensures IsDecimalDigit(c) <==> v < 10
    ensures IsDecimalDigit(c) ==> v == (c - '0') as nat
    ensures 'a' <= c <= 'z' ==> v == (c - 'a') as nat + 10
    ensures 'A' <= c <= 'Z' ==> v == (c - 'A') as nat + 10
    ensures v < 16 <==> IsDecimalDigit(c) || 'a' <= c <= 'f' || 'A' <= c <= 'F'
    ensures v < 36 <==> IsDecimalDigit(c) || 'a' <= c <= 'z' || 'A' <= c <= 'Z'
  {
    if '0' <= c <= '9' then (c - '0') as nat
    else if 'a' <= c <= 'z' then (c - 'a') as nat + 10
    else if 'A' <= c <= 'Z' then (c - 'A') as nat + 10
    else 36
  }

  /** The numeric value of a string of radix-`radix` digits, most significant first. */
  function DigitsValue(s: string, radix: nat): nat {
    if s == [] then 0 else DigitsValue(s[..|s| - 1], radix) * radix + DigitValue(s[|s| - 1])
  }

  /** The character for a decimal digit. */
  function DigitChar(d: nat): (c: char)
    requires d < 10
    ensures IsDecimalDigit(c) && DigitValue(c) == d
  {
    ('0' as int + d) as char
  }

  /** A non-negative integer in decimal, as `${n}` renders it: no sign, no leading zeros. */
  function NatToString(n: nat): (s: string)
    ensures s != []
    ensures forall k :: 0 <= k < |s| ==> IsDecimalDigit(s[k])
    ensures |s| > 1 ==> s[0] != '0'
    ensures DigitsValue(s, 10) == n
  {
    if n < 10 then [DigitChar(n)]
    else
      var prefix := NatToString(n / 10);
      var s := prefix + [DigitChar(n % 10)];
      assert s[..|s| - 1] == prefix;
      s
  }

  /** The longest prefix of `s` made of radix-`radix` digits. */
  function LeadingDigits(s: string, radix: nat): (z: string)
    ensures |z| <= |s| && z == s[..|z|]
    ensures forall k :: 0 <= k < |z| ==> DigitValue(z[k]) < radix
    ensures |z| < |s| ==> DigitValue(s[|z|]) >= radix
  {
    if s != [] && DigitValue(s[0]) < radix then [s[0]] + LeadingDigits(s[1..], radix) else []
  }

  /** The digits after a sign: a `0x`/`0X` prefix selects radix 16, anything else radix 10. */
  function ParseMagnitude(u: string): (r: Option<nat>)
  {
    if |u| >= 2 && u[0] == '0' && (u[1] == 'x' || u[1] == 'X') then
      var digits := LeadingDigits(u[2..], 16);
      if digits == [] then None else Some(DigitsValue(digits, 16))
    else
      var digits := LeadingDigits(u, 10);
      if digits == [] then None else Some(DigitsValue(digits, 10))
  }

  /**
   * `Number.parseInt(s)` with no radix: leading whitespace is skipped, one sign is
   * accepted, a `0x`/`0X` prefix switches to radix 16, and the longest run of
   * digits that follows is read. None stands for NaN (no digits at all).
   */
  function ParseInt(s: string): (r: Option<int>)
    ensures r.Some? ==> TrimStart(s) != []
    ensures r.Some? && r.value < 0 ==> TrimStart(s)[0] == '-'
  {
    var t := TrimStart(s);
    if t != [] && (t[0] == '-' || t[0] == '+') then
      match ParseMagnitude(t[1..])
      case None => None
      case Some(m) => if t[0] == '-' then Some(-(m as int)) else Some(m)
    else
      match ParseMagnitude(t)
      case None => None
      case Some(m) => Some(m)
  }

  /** `parseInt` reads back the decimal rendering of every non-negative integer. */
  lemma ParseIntOfDecimal(n: nat)
    ensures ParseInt(NatToString(n)) == Some(n)
  {
    ParseIntOfDigits(NatToString(n));
  }

  /** A string of decimal digits parses to its decimal value. */
  lemma ParseIntOfDigits(s: string)
    requires s != []
    requires forall k :: 0 <= k < |s| ==> IsDecimalDigit(s[k])
    ensures ParseInt(s) == Some(DigitsValue(s, 10))
  {
    TrimStartOfDigits(s);
    MagnitudeOfDigits(s);
    ParseIntUnsigned(s);
  }

  lemma TrimStartOfDigits(s: string)
    requires s != []
    requires forall k :: 0 <= k < |s| ==> IsDecimalDigit(s[k])
    ensures TrimStart(s) == s
  {
    assert !IsWhitespace(s[0]);
  }

  lemma MagnitudeOfDigits(s: string)
    requires s != []
    requires forall k :: 0 <= k < |s| ==> IsDecimalDigit(s[k])
    ensures ParseMagnitude(s) == Some(DigitsValue(s, 10))
  {
    assert |s| >= 2 ==> s[1] != 'x' && s[1] != 'X';
    LeadingDigitsOfDigits(s, 10);
  }

  /** Without leading whitespace or a sign, `parseInt` is just the magnitude. */
  lemma ParseIntUnsigned(s: string)
    requires s != [] && TrimStart(s) == s
    requires s[0] != '-' && s[0] != '+'
    ensures ParseInt(s) == ParseMagnitude(s)
  {
  }

  lemma {:induction false} LeadingDigitsOfDigits(s: string, radix: nat)
    requires forall k :: 0 <= k < |s| ==> DigitValue(s[k]) < radix
    ensures LeadingDigits(s, radix) == s
  {
    if s != [] {
      LeadingDigitsOfDigits(s[1..], radix);
      assert s == [s[0]] + s[1..];
    }
  }

  /**
   * When the first character after leading whitespace is neither a sign nor a
   * decimal digit, `parseInt` gives NaN.
   */
  lemma ParseIntOfNonNumeric(s: string)
    requires var t := TrimStart(s); t == [] || (!IsDecimalDigit(t[0]) && t[0] != '-' && t[0] != '+')
    ensures ParseInt(s) == None
  {
  }
}
