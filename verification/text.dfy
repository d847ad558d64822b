/** The pieces of Python's string handling the palette parser relies on:
    `str.strip()`, `str.split(' ')` and `int()` on a decimal token. */
module Text {
  import opened Outcome

  /** The characters `str.isspace()` accepts, which `str.strip()` removes. */
  predicate IsSpace(c: char)
  {
    || c == ' ' || c == '\t' || c == '\n' || c == '\r' || c == '\U{B}' || c == '\U{C}'
    || ('\U{1C}' <= c <= '\U{1F}')
    || c == '\U{85}' || c == '\U{A0}' || c == '\U{1680}'
    || ('\U{2000}' <= c <= '\U{200A}')
    || c == '\U{2028}' || c == '\U{2029}' || c == '\U{202F}' || c == '\U{205F}' || c == '\U{3000}'
  }

  /** Which whitespace a strip removes. `str.strip()` removes every `str.isspace()`
      character. `int()` maps non-ASCII whitespace to ' ' and then skips only ASCII
      whitespace, so the separators U+001C..U+001F stay and make the token invalid. */
  datatype Blanks = StrBlanks | IntBlanks

  predicate IsBlank(kind: Blanks, c: char)
  {
    IsSpace(c) && (kind == IntBlanks ==> !('\U{1C}' <= c <= '\U{1F}'))
  }

  /** Drops leading blanks: what remains is a suffix that starts with a non-blank. */
  function StripLeft(s: string, kind: Blanks): (t: string)
    ensures |t| <= |s| && t == s[|s| - |t|..]
    ensures forall i :: 0 <= i < |s| - |t| ==> IsBlank(kind, s[i])
    ensures |t| > 0 ==> !IsBlank(kind, t[0])
    decreases |s|
  {
    if |s| > 0 && IsBlank(kind, s[0]) then StripLeft(s[1..], kind) else s
  }

  /** Drops trailing blanks: what remains is a prefix that ends with a non-blank. */
  function StripRight(s: string, kind: Blanks): (t: string)
    ensures |t| <= |s| && t == s[..|t|]
    ensures forall i :: |t| <= i < |s| ==> IsBlank(kind, s[i])
    ensures |t| > 0 ==> !IsBlank(kind, t[|t| - 1])
    decreases |s|
  {
    if |s| > 0 && IsBlank(kind, s[|s| - 1]) then StripRight(s[..|s| - 1], kind) else s
  }

  /** `str.strip()` with no argument (`StrBlanks`), or the whitespace `int()` ignores
      around its argument (`IntBlanks`): the leading blanks are dropped, then the
      trailing ones, and what remains starts and ends with a non-blank. */
  function Strip(s: string, kind: Blanks): (t: string)
    ensures |t| <= |s|
    ensures |t| > 0 ==> !IsBlank(kind, t[0]) && !IsBlank(kind, t[|t| - 1])
  {
    var u := StripLeft(s, kind);
    var t := StripRight(u, kind);
    assert |t| > 0 ==> t[0] == u[0];
    t
  }

  /** How many leading blanks `strip()` drops. */
  function LeadingBlanks(s: string, kind: Blanks): (a: nat)
    ensures a <= |s|
    ensures forall i :: 0 <= i < a ==> IsBlank(kind, s[i])
    ensures a < |s| ==> !IsBlank(kind, s[a])
  {
    |s| - |StripLeft(s, kind)|
  }

  /** `strip()` keeps the middle of the line: an infix of it, after only blanks. */
  lemma StripInfix(s: string, kind: Blanks)
    ensures LeadingBlanks(s, kind) + |Strip(s, kind)| <= |s|
    ensures Strip(s, kind) == s[LeadingBlanks(s, kind)..LeadingBlanks(s, kind) + |Strip(s, kind)|]
  {
    var u := StripLeft(s, kind);
    var t := StripRight(u, kind);
    assert Strip(s, kind) == t;
    assert u == s[|s| - |u|..];
    assert t == u[..|t|];
  }

  /** Only blanks follow the part `strip()` keeps. */
  lemma StripTrailing(s: string, kind: Blanks)
    ensures LeadingBlanks(s, kind) + |Strip(s, kind)| <= |s|
    ensures forall i :: LeadingBlanks(s, kind) + |Strip(s, kind)| <= i < |s| ==> IsBlank(kind, s[i])
  {
    var u := StripLeft(s, kind);
    var t := StripRight(u, kind);
    var a := |s| - |u|;
    assert Strip(s, kind) == t;
    forall i | a + |t| <= i < |s|
      ensures IsBlank(kind, s[i])
    {
      assert s[i] == u[i - a];
    }
  }

  /** A string that neither starts nor ends with a blank is its own strip. */
  lemma StripUnchanged(s: string, kind: Blanks)
    requires |s| > 0 ==> !IsBlank(kind, s[0]) && !IsBlank(kind, s[|s| - 1])
    ensures Strip(s, kind) == s
  {
  }

  /** A string of blanks only strips to the empty string. */
  lemma StripAllSpace(s: string, kind: Blanks)
    requires forall i :: 0 <= i < |s| ==> IsBlank(kind, s[i])
    ensures Strip(s, kind) == ""
  {
  }

  /** Index of the first ' ' in `s`. */
  function FirstSpace(s: string): (i: nat)
    requires ' ' in s
    ensures i < |s| && s[i] == ' '
    ensures forall j :: 0 <= j < i ==> s[j] != ' '
  {
    if s[0] == ' ' then 0 else 1 + FirstSpace(s[1..])
  }

  /** The first space is the only space with no space before it. */
  lemma FirstSpaceAt(s: string, k: nat)
    requires k < |s| && s[k] == ' '
    requires forall j :: 0 <= j < k ==> s[j] != ' '
    ensures FirstSpace(s) == k
  {
  }

  /** Inverse of `Split`: the parts glued back together with single spaces. */
  function Join(parts: seq<string>): string
    requires |parts| > 0
    decreases |parts|
  {
    if |parts| == 1 then parts[0] else parts[0] + " " + Join(parts[1..])
  }

  /** The joined text starts with the first part. */
  lemma JoinStart(parts: seq<string>)
    requires |parts| > 0
    ensures |Join(parts)| >= |parts[0]| && Join(parts)[..|parts[0]|] == parts[0]
  {
    if |parts| > 1 {
      var rest := " " + Join(parts[1..]);
      assert Join(parts) == parts[0] + rest;
      assert (parts[0] + rest)[..|parts[0]|] == parts[0];
    }
  }

  /** A single-space join of non-empty parts starts with the first part's first
      character and ends with the last part's last character. */
  lemma {:induction false} JoinEnds(parts: seq<string>)
    requires |parts| > 0
    requires forall i :: 0 <= i < |parts| ==> |parts[i]| > 0
    ensures var s := Join(parts); |s| > 0 && s[0] == parts[0][0]
    ensures var s := Join(parts); var last := parts[|parts| - 1]; |s| > 0 && s[|s| - 1] == last[|last| - 1]
    decreases |parts|
  {
    if |parts| > 1 {
      JoinEnds(parts[1..]);
    }
  }

  /** A character other than the space that no part holds is not in the joined text. */
  lemma {:induction false} JoinAvoids(parts: seq<string>, ch: char)
    requires |parts| > 0 && ch != ' '
    requires forall i :: 0 <= i < |parts| ==> ch !in parts[i]
    ensures ch !in Join(parts)
    decreases |parts|
  {
    if |parts| > 1 {
      JoinAvoids(parts[1..], ch);
      assert ch !in parts[0] + " " + Join(parts[1..]);
    }
  }

  /** `s.split(' ')`: cut at every single space, keeping empty parts. */
  function Split(s: string): (parts: seq<string>)
    ensures |parts| > 0
    ensures forall i :: 0 <= i < |parts| ==> ' ' !in parts[i]
    ensures Join(parts) == s
    decreases |s|
  {
    if ' ' !in s then [s]
    else
      var i := FirstSpace(s);
      var rest := Split(s[i + 1..]);
      assert s == s[..i] + " " + s[i + 1..];
      assert ' ' !in s[..i] by {
        assert forall j :: 0 <= j < i ==> s[..i][j] == s[j];
      }
      [s[..i]] + rest
  }

  /** Splitting a join of space-free parts gives the parts back. */
  lemma {:induction false} SplitJoin(parts: seq<string>)
    requires |parts| > 0
    requires forall i :: 0 <= i < |parts| ==> ' ' !in parts[i]
    ensures Split(Join(parts)) == parts
    decreases |parts|
  {
    if |parts| > 1 {
      var p := parts[0];
      var tail := Join(parts[1..]);
      var s := p + " " + tail;
      assert Join(parts) == s;
      assert s[|p|] == ' ';
      assert forall j :: 0 <= j < |p| ==> s[j] == p[j] && p[j] in p;
      FirstSpaceAt(s, |p|);
      assert s[..|p|] == p;
      assert s[|p| + 1..] == tail;
      SplitJoin(parts[1..]);
      assert Split(s) == [p] + Split(tail);
      assert parts == [p] + parts[1..];
    }
  }

  predicate IsDigit(c: char)
  {
    '0' <= c <= '9'
  }

  predicate AllDigits(s: string)
  {
    forall i :: 0 <= i < |s| ==> IsDigit(s[i])
  }

  function DigitChar(d: nat): (c: char)
    requires d < 10
    ensures IsDigit(c)
  {
    ('0' as int + d) as char
  }

  function DigitValue(c: char): (d: nat)
    requires IsDigit(c)
    ensures d < 10
  {
    c as int - '0' as int
  }

  /** Decimal value of a string of ASCII digits, most significant first. */
  function DigitsValue(s: string): nat
    requires AllDigits(s)
    decreases |s|
  {
    if |s| == 0 then 0 else DigitsValue(s[..|s| - 1]) * 10 + DigitValue(s[|s| - 1])
  }

  /** Shortest decimal rendering of a natural number, as `str()` writes it. */
  function NatToDigits(n: nat): (s: string)
    ensures |s| > 0 && AllDigits(s)
    decreases n
  {
    if n < 10 then [DigitChar(n)] else NatToDigits(n / 10) + [DigitChar(n % 10)]
  }

  lemma {:induction false} DigitsRoundTrip(n: nat)
    ensures DigitsValue(NatToDigits(n)) == n
    decreases n
  {
    var s := NatToDigits(n);
    if n >= 10 {
      assert s[..|s| - 1] == NatToDigits(n / 10);
      DigitsRoundTrip(n / 10);
    }
  }

  /** `str()` of an integer: a '-' for negatives, then the decimal digits. */
  function IntToString(x: int): (s: string)
    ensures |s| > 0 && ' ' !in s
    ensures !IsSpace(s[0]) && !IsSpace(s[|s| - 1])
    ensures '\n' !in s && '\r' !in s
  {
    var digits := if x < 0 then NatToDigits(-x) else NatToDigits(x);
    assert IsDigit(digits[|digits| - 1]);
    if x < 0 then "-" + digits else digits
  }

  /** Digits separated by single underscores, starting and ending with a digit:
      the body Python's `int()` accepts after an optional sign. */
  predicate IsDigitGroups(d: string)
  {
    && |d| > 0
    && IsDigit(d[0])
    && forall i :: 0 <= i < |d| ==> GroupChar(d, i)
  }

  /** Position `i` holds a digit, or an underscore directly followed by a digit. */
  predicate GroupChar(d: string, i: int)
    requires 0 <= i < |d|
  {
    IsDigit(d[i]) || (d[i] == '_' && i + 1 < |d| && IsDigit(d[i + 1]))
  }

  lemma DigitGroupsChars(d: string)
    requires IsDigitGroups(d)
    ensures forall i :: 0 <= i < |d| ==> IsDigit(d[i]) || d[i] == '_'
  {
    forall i | 0 <= i < |d|
      ensures IsDigit(d[i]) || d[i] == '_'
    {
      assert GroupChar(d, i);
    }
  }

  /** The digits of `d` in order, with every underscore removed. */
  function DropUnderscores(d: string): (r: string)
    ensures |r| <= |d| && '_' !in r
    ensures (forall i :: 0 <= i < |d| ==> IsDigit(d[i]) || d[i] == '_') ==> AllDigits(r)
    ensures AllDigits(d) ==> r == d
    decreases |d|
  {
    if |d| == 0 then ""
    else if d[0] == '_' then DropUnderscores(d[1..])
    else [d[0]] + DropUnderscores(d[1..])
  }

  /** Removing underscores works piecewise: the kept characters stay in order. */
  lemma {:induction false} DropUnderscoresConcat(a: string, b: string)
    ensures DropUnderscores(a + b) == DropUnderscores(a) + DropUnderscores(b)
    decreases |a|
  {
    if |a| == 0 {
      assert a + b == b;
    } else {
      assert (a + b)[0] == a[0];
      assert (a + b)[1..] == a[1..] + b;
      DropUnderscoresConcat(a[1..], b);
      if a[0] != '_' {
        assert DropUnderscores(a + b) == [a[0]] + (DropUnderscores(a[1..]) + DropUnderscores(b));
      }
    }
  }

  /** The unsigned part of `int()`: digit groups joined by single underscores, whose
      value is that of their digits read without the underscores. */
  function ParseMagnitude(d: string): (r: Option<nat>)
    ensures r.Some? <==> IsDigitGroups(d)
    ensures r.Some? ==> AllDigits(DropUnderscores(d)) && r.value == DigitsValue(DropUnderscores(d))
  {
    if IsDigitGroups(d) then
      DigitGroupsChars(d);
      Some(DigitsValue(DropUnderscores(d)))
    else None
  }

  lemma AllDigitsConcat(a: string, b: string)
    requires AllDigits(a) && AllDigits(b)
    ensures AllDigits(a + b)
  {
    forall i | 0 <= i < |a + b|
      ensures IsDigit((a + b)[i])
    {
      if i < |a| { assert (a + b)[i] == a[i]; } else { assert (a + b)[i] == b[i - |a|]; }
    }
  }

  /** Two non-empty digit runs joined by one underscore form digit groups. */
  lemma UnderscoreGroups(a: string, b: string)
    requires |a| > 0 && |b| > 0 && AllDigits(a) && AllDigits(b)
    ensures IsDigitGroups(a + "_" + b)
  {
    var d := a + "_" + b;
    forall i | 0 <= i < |d|
      ensures GroupChar(d, i)
    {
      if i < |a| {
        assert d[i] == a[i];
      } else if i == |a| {
        assert d[i] == '_' && d[i + 1] == b[0];
      } else {
        assert d[i] == b[i - |a| - 1];
      }
    }
    assert d[0] == a[0];
  }

  lemma DropOneUnderscore(a: string, b: string)
    requires AllDigits(a) && AllDigits(b)
    ensures DropUnderscores(a + "_" + b) == a + b
  {
    var u := "_";
    assert u[0] == '_' && u[1..] == "";
    assert DropUnderscores(u) == "";
    DropUnderscoresConcat(a, u);
    assert DropUnderscores(a + u) == a;
    DropUnderscoresConcat(a + u, b);
  }

  /** An underscore between two digit runs is accepted and ignored: `int("1_0") == 10`. */
  lemma ParseMagnitudeUnderscore(a: string, b: string)
    requires |a| > 0 && |b| > 0 && AllDigits(a) && AllDigits(b)
    ensures AllDigits(a + b)
    ensures ParseMagnitude(a + "_" + b) == Some(DigitsValue(a + b))
  {
    var d := a + "_" + b;
    AllDigitsConcat(a, b);
    UnderscoreGroups(a, b);
    DropOneUnderscore(a, b);
    var m := ParseMagnitude(d);
    assert m.Some?;
    assert m.value == DigitsValue(DropUnderscores(d));
  }

  /** What `int()` accepts once surrounding whitespace is gone: an optional sign,
      then digit groups. */
  predicate IsIntLiteral(t: string)
  {
    || IsDigitGroups(t)
    || (|t| > 0 && (t[0] == '+' || t[0] == '-') && IsDigitGroups(t[1..]))
  }

  /** `int(token)` in base 10: surrounding whitespace is ignored, then an optional
      sign and a digit body; anything else is a `ValueError`, here `None`. */
  function ParseInt(token: string): (r: Option<int>)
    ensures r.Some? <==> IsIntLiteral(Strip(token, IntBlanks))
    ensures |Strip(token, IntBlanks)| == 0 ==> r.None?
  {
    var t := Strip(token, IntBlanks);
    if |t| > 0 && (t[0] == '+' || t[0] == '-') then
      match ParseMagnitude(t[1..])
      case None => None
      case Some(n) =>
        var v: int := if t[0] == '-' then -(n as int) else n;
        Some(v)
    else
      match ParseMagnitude(t)
      case None => None
      case Some(n) => Some(n)
  }

  /** `int()` ignores the whitespace around its argument: a padded token reads
      as its stripped form, e.g. `int("1\t") == int("1")`. */
  lemma ParseIntStrip(token: string)
    ensures ParseInt(token) == ParseInt(Strip(token, IntBlanks))
  {
    StripUnchanged(Strip(token, IntBlanks), IntBlanks);
  }

  /** The last character of accepted digit groups is a digit. */
  lemma DigitGroupsEnd(d: string)
    requires IsDigitGroups(d)
    ensures IsDigit(d[0]) && IsDigit(d[|d| - 1])
  {
    assert GroupChar(d, |d| - 1);
  }

  /** A bare magnitude is read as its value. */
  lemma ParseIntUnsigned(d: string)
    requires ParseMagnitude(d).Some?
    ensures ParseInt(d) == Some(ParseMagnitude(d).value as int)
  {
    DigitGroupsEnd(d);
    StripUnchanged(d, IntBlanks);
  }

  /** A sign followed by digit groups has no whitespace to strip. */
  lemma SignedUnstripped(d: string, sign: char)
    requires IsDigitGroups(d)
    requires sign == '+' || sign == '-'
    ensures Strip([sign] + d, IntBlanks) == [sign] + d
  {
    var t := [sign] + d;
    DigitGroupsEnd(d);
    assert t[0] == sign && t[|t| - 1] == d[|d| - 1];
    StripUnchanged(t, IntBlanks);
  }

  /** After '+' a magnitude keeps its value; after '-' it is negated. */
  lemma ParseIntSigned(d: string, sign: char)
    requires ParseMagnitude(d).Some?
    requires sign == '+' || sign == '-'
    ensures ParseInt([sign] + d) == Some(if sign == '-' then -(ParseMagnitude(d).value as int) else ParseMagnitude(d).value)
  {
    var t := [sign] + d;
    SignedUnstripped(d, sign);
    assert t[1..] == d;
  }

  /** `int(str(x)) == x` for every integer. */
  lemma ParseIntRoundTrip(x: int)
    ensures ParseInt(IntToString(x)) == Some(x)
  {
    var s := IntToString(x);
    StripUnchanged(s, IntBlanks);
    var n: nat := if x < 0 then -x else x;
    var digits := NatToDigits(n);
    DigitsRoundTrip(n);
    assert IsDigitGroups(digits);
    if x < 0 {
      assert s[1..] == digits;
    } else {
      assert s == digits;
    }
  }
}
