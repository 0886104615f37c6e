/** The string operations the routers rely on, stated over `string`
    (a sequence of Unicode scalar values, like Python's `str`): `str(n)`,
    `int(s)`, `str.strip`, `str.lower`, `str.split`, `os.path.splitext`,
    `str` ordering and the `:.2f` rendering of money held in cents. */
module Text {
  import opened Wrappers

  // ---------------------------------------------------------------------
  // Decimal integers: str(n) and int(s)
  // ---------------------------------------------------------------------

  predicate IsDigit(c: char) { '0' <= c <= '9' }

  predicate AllDigits(s: string) { forall i :: 0 <= i < |s| ==> IsDigit(s[i]) }

  function DigitChar(d: nat): (c: char)
    requires d < 10
    ensures IsDigit(c) && c as int - '0' as int == d
  {
    ('0' as int + d) as char
  }

  /** Python's `str(n)` for `n >= 0`: at least one digit and no leading zero. */
  function NatToString(n: nat): (s: string)
    ensures |s| >= 1 && AllDigits(s)
    ensures n > 0 ==> s[0] != '0'
  {
    if n < 10 then [DigitChar(n)] else NatToString(n / 10) + [DigitChar(n % 10)]
  }

  /** The value of a run of decimal digits (leading zeros allowed, as `int()` allows). */
  function DigitsValue(s: string): nat
    requires AllDigits(s)
  {
    if s == [] then 0 else DigitsValue(s[..|s| - 1]) * 10 + (s[|s| - 1] as int - '0' as int)
  }

  /** Reading back the digits written by `str(n)` gives `n`. */
  lemma {:induction false} NatToStringValue(n: nat)
    ensures DigitsValue(NatToString(n)) == n
  {
    if n >= 10 {
      var s := NatToString(n / 10);
      NatToStringValue(n / 10);
      var t := s + [DigitChar(n % 10)];
      assert t[..|t| - 1] == s;
    } else {
      var t := [DigitChar(n)];
      assert t[..0] == [];
    }
  }

  /** Python's `str(i)` for any integer. */
  function IntToString(i: int): (s: string)
    ensures |s| >= 1
  {
    if i < 0 then "-" + NatToString(-i) else NatToString(i)
  }

  /** Python's `int(s)` on a `str`: surrounding whitespace, an optional sign and
      at least one decimal digit. `None` stands for the `ValueError` it raises. */
  function ParseInt(s: string): Option<int>
  {
    ParseSigned(Strip(s))
  }

  /** `int()` once the surrounding whitespace is gone. */
  function ParseSigned(t: string): Option<int>
  {
    if |t| > 1 && (t[0] == '+' || t[0] == '-') && AllDigits(t[1..]) then
      Some(if t[0] == '-' then -(DigitsValue(t[1..]) as int) else DigitsValue(t[1..]))
    else if |t| > 0 && AllDigits(t) then
      Some(DigitsValue(t))
    else
      None
  }

  /** `int(str(i)) == i`: the decimal rendering of an integer parses back to it. */
  lemma IntToStringParses(i: int)
    ensures ParseInt(IntToString(i)) == Some(i)
  {
    if i < 0 {
      NegativeRendering(-i);
    } else {
      NonNegativeRendering(i);
    }
  }

  lemma NegativeRendering(n: nat)
    requires n > 0
    ensures ParseInt("-" + NatToString(n)) == Some(-(n as int))
  {
    NatToStringValue(n);
    SignedDigitsParse(NatToString(n));
  }

  lemma NonNegativeRendering(n: nat)
    ensures ParseInt(NatToString(n)) == Some(n as int)
  {
    NatToStringValue(n);
    DigitsParse(NatToString(n));
  }

  /** A run of digits with no surrounding space parses as its value. */
  lemma DigitsParse(t: string)
    requires |t| >= 1 && AllDigits(t)
    ensures ParseInt(t) == Some(DigitsValue(t))
  {
    assert IsDigit(t[0]) && IsDigit(t[|t| - 1]);
    StripUnchanged(t);
    assert ParseSigned(t) == Some(DigitsValue(t));
  }

  /** '-' followed by digits parses as the negated value. */
  lemma SignedDigitsParse(d: string)
    requires |d| >= 1 && AllDigits(d)
    ensures ParseInt("-" + d) == Some(-(DigitsValue(d) as int))
  {
    var t := "-" + d;
    assert t[0] == '-' && t[|t| - 1] == d[|d| - 1];
    StripUnchanged(t);
    NegatedDigits(d);
  }

  lemma NegatedDigits(d: string)
    requires |d| >= 1 && AllDigits(d)
    ensures ParseSigned("-" + d) == Some(-(DigitsValue(d) as int))
  {
    var t := "-" + d;
    assert t[0] == '-' && t[1..] == d;
  }

  /** Distinct integers have distinct decimal renderings. */
  lemma IntToStringInjective(i: int, j: int)
    requires IntToString(i) == IntToString(j)
    ensures i == j
  {
    IntToStringParses(i);
    IntToStringParses(j);
  }

  // ---------------------------------------------------------------------
  // Whitespace and case: str.strip() and str.lower()
  // ---------------------------------------------------------------------

  /** The characters for which Python's `str.isspace()` holds. */
  predicate IsSpace(c: char)
  {
    var k := c as int;
    k == 0x20 || 0x09 <= k <= 0x0D || 0x1C <= k <= 0x1F || k == 0x85 || k == 0xA0
    || k == 0x1680 || 0x2000 <= k <= 0x200A || k == 0x2028 || k == 0x2029
    || k == 0x202F || k == 0x205F || k == 0x3000
  }

  /** `str.lstrip()`: drops the leading whitespace and nothing else. */
  function TrimStart(s: string): (r: string)
    ensures |r| <= |s| && r == s[|s| - |r|..]
    ensures r == [] || !IsSpace(r[0])
    ensures forall i :: 0 <= i < |s| - |r| ==> IsSpace(s[i])
  {
    if |s| > 0 && IsSpace(s[0]) then TrimStart(s[1..]) else s
  }

  /** `str.rstrip()`: drops the trailing whitespace and nothing else. */
  function TrimEnd(s: string): (r: string)
    ensures |r| <= |s| && r == s[..|r|]
    ensures r == [] || !IsSpace(r[|r| - 1])
    ensures forall i :: |r| <= i < |s| ==> IsSpace(s[i])
  {
    if |s| > 0 && IsSpace(s[|s| - 1]) then TrimEnd(s[..|s| - 1]) else s
  }

  /** `str.strip()`: the middle part of `s` between its leading and trailing whitespace. */
  function Strip(s: string): (r: string)
    ensures |r| <= |s|
    ensures r == [] || (!IsSpace(r[0]) && !IsSpace(r[|r| - 1]))
    ensures exists i :: StrippedAt(s, r, i)
  {
    var t := TrimStart(s);
    var i := |s| - |t|;
    var r := TrimEnd(t);
    assert r == s[i..i + |r|];
    assert forall k :: i + |r| <= k < |s| ==> IsSpace(s[k]) by {
      forall k | i + |r| <= k < |s|
        ensures IsSpace(s[k])
      {
        assert s[k] == t[k - i];
      }
    }
    assert StrippedAt(s, r, i);
    r
  }

  /** `r` is the slice of `s` starting at `i`, and everything of `s`
      before and after that slice is whitespace. */
  predicate StrippedAt(s: string, r: string, i: int)
  {
    && 0 <= i <= |s| - |r| && r == s[i..i + |r|]
    && (forall k :: 0 <= k < i ==> IsSpace(s[k]))
    && (forall k :: i + |r| <= k < |s| ==> IsSpace(s[k]))
  }

  /** A string that neither starts nor ends with whitespace is its own strip. */
  lemma StripUnchanged(s: string)
    requires |s| > 0 && !IsSpace(s[0]) && !IsSpace(s[|s| - 1])
    ensures Strip(s) == s
  {
  }

  function LowerChar(c: char): char
  {
    if 'A' <= c <= 'Z' then (c as int + 32) as char else c
  }

  /** `str.lower()` on ASCII letters. */
  function Lower(s: string): (r: string)
    ensures |r| == |s| && forall i :: 0 <= i < |s| ==> r[i] == LowerChar(s[i])
  {
    if s == [] then [] else [LowerChar(s[0])] + Lower(s[1..])
  }

  /** `str.startswith`. */
  predicate HasPrefix(s: string, prefix: string)
  {
    |prefix| <= |s| && s[..|prefix|] == prefix
  }

  /** `str.endswith`. */
  predicate HasSuffix(s: string, suffix: string)
  {
    |suffix| <= |s| && s[|s| - |suffix|..] == suffix
  }

  /** Case-insensitive equality, as SQL `ILIKE` without wildcards. */
  predicate EqualsIgnoreCase(a: string, b: string) { Lower(a) == Lower(b) }

  // ---------------------------------------------------------------------
  // Splitting: str.split(sep) and os.path.splitext
  // ---------------------------------------------------------------------

  /** `s.find(c)`: the first index of `c`, or -1. */
  function IndexOf(s: string, c: char): (k: int)
    ensures -1 <= k < |s|
    ensures k >= 0 ==> s[k] == c
    ensures forall j :: 0 <= j < |s| && (k == -1 || j < k) ==> s[j] != c
  {
    if s == [] then -1
    else if s[0] == c then 0
    else
      var k := IndexOf(s[1..], c);
      if k == -1 then -1 else k + 1
  }

  /** `s.rfind(c)`: the last index of `c`, or -1. */
  function LastIndexOf(s: string, c: char): (k: int)
    ensures -1 <= k < |s|
    ensures k >= 0 ==> s[k] == c
    ensures forall j :: k < j < |s| ==> s[j] != c
  {
    if s == [] then -1
    else if s[|s| - 1] == c then |s| - 1
    else LastIndexOf(s[..|s| - 1], c)
  }

  /** `s.split(sep)` with an explicit one-character separator: never empty,
      and no part contains the separator. */
  function Split(s: string, sep: char): (parts: seq<string>)
    ensures |parts| >= 1
    ensures forall i :: 0 <= i < |parts| ==> sep !in parts[i]
    decreases |s|
  {
    var k := IndexOf(s, sep);
    if k == -1 then [s] else [s[..k]] + Split(s[k + 1..], sep)
  }

  /** `sep.join(parts)`. */
  function JoinWith(parts: seq<string>, sep: char): string
  {
    if parts == [] then ""
    else if |parts| == 1 then parts[0]
    else parts[0] + [sep] + JoinWith(parts[1..], sep)
  }

  /** Splitting and re-joining on the same separator gives back the string. */
  lemma {:induction false} JoinSplit(s: string, sep: char)
    ensures JoinWith(Split(s, sep), sep) == s
    decreases |s|
  {
    var k := IndexOf(s, sep);
    if k != -1 {
      SplitAtFirst(s, sep);
      JoinCons(s[..k], Split(s[k + 1..], sep), sep);
      JoinSplit(s[k + 1..], sep);
    }
  }

  lemma SplitAtFirst(s: string, sep: char)
    requires IndexOf(s, sep) != -1
    ensures var k := IndexOf(s, sep);
      s == s[..k] + [sep] + s[k + 1..] && Split(s, sep) == [s[..k]] + Split(s[k + 1..], sep)
  {
    var k := IndexOf(s, sep);
    assert s[k] == sep;
  }

  lemma JoinCons(a: string, rest: seq<string>, sep: char)
    requires |rest| >= 1
    ensures JoinWith([a] + rest, sep) == a + [sep] + JoinWith(rest, sep)
  {
    var parts := [a] + rest;
    assert parts[0] == a && parts[1..] == rest;
  }

  /** A first part free of the separator is split off as it is. */
  lemma SplitAfter(a: string, sep: char, b: string)
    requires sep !in a
    ensures Split(a + [sep] + b, sep) == [a] + Split(b, sep)
  {
    var s := a + [sep] + b;
    assert s[|a|] == sep;
    assert s[..|a|] == a;
    assert s[|a| + 1..] == b;
  }

  /** Joining parts free of the separator and splitting again gives the parts. */
  lemma {:induction false} SplitJoin(parts: seq<string>, sep: char)
    requires |parts| >= 1
    requires forall i :: 0 <= i < |parts| ==> sep !in parts[i]
    ensures Split(JoinWith(parts, sep), sep) == parts
  {
    if |parts| > 1 {
      SplitJoin(parts[1..], sep);
      SplitAfter(parts[0], sep, JoinWith(parts[1..], sep));
    }
  }

  /** `os.path.splitext` on a name without '/': the extension starts at the
      last '.', unless every character before that dot is a dot too. */
  function SplitExt(name: string): (r: (string, string))
    ensures r.0 + r.1 == name
    ensures r.1 == [] || (r.1[0] == '.' && '.' !in r.1[1..])
  {
    var dot := LastIndexOf(name, '.');
    if dot >= 0 && exists i :: 0 <= i < dot && name[i] != '.' then
      (name[..dot], name[dot..])
    else
      (name, "")
  }

  /** The extension of `stem + ext` is `ext` when `ext` is one dot followed by
      dot-free text and the stem holds a character other than '.'. */
  lemma SplitExtOf(stem: string, ext: string)
    requires |ext| >= 1 && ext[0] == '.' && '.' !in ext[1..]
    requires exists i :: 0 <= i < |stem| && stem[i] != '.'
    ensures SplitExt(stem + ext) == (stem, ext)
  {
    var name := stem + ext;
    var dot := LastIndexOf(name, '.');
    assert name[|stem|] == '.';
    assert name[|stem| + 1..] == ext[1..];
    assert dot == |stem|;
    var i :| 0 <= i < |stem| && stem[i] != '.';
    assert name[i] != '.';
  }

  // ---------------------------------------------------------------------
  // Ordering: Python's comparison of two str values
  // ---------------------------------------------------------------------

  /** `a <= b` on `str`: lexicographic by code point, a prefix first. */
  predicate StrLe(a: string, b: string)
  {
    a == [] || (b != [] && (a[0] < b[0] || (a[0] == b[0] && StrLe(a[1..], b[1..]))))
  }

  lemma {:induction false} StrLeTotal(a: string, b: string)
    ensures StrLe(a, b) || StrLe(b, a)
  {
    if a != [] && b != [] && a[0] == b[0] {
      StrLeTotal(a[1..], b[1..]);
    }
  }

  lemma {:induction false} StrLeTransitive(a: string, b: string, c: string)
    requires StrLe(a, b) && StrLe(b, c)
    ensures StrLe(a, c)
  {
    if a != [] && a[0] == b[0] && b[0] == c[0] {
      StrLeTransitive(a[1..], b[1..], c[1..]);
    }
  }

  lemma {:induction false} StrLeAntisymmetric(a: string, b: string)
    requires StrLe(a, b) && StrLe(b, a)
    ensures a == b
  {
    if a != [] {
      StrLeAntisymmetric(a[1..], b[1..]);
      assert a == [a[0]] + a[1..] && b == [b[0]] + b[1..];
    }
  }

  // ---------------------------------------------------------------------
  // Money: f"{x:.2f}" on an amount held in cents
  // ---------------------------------------------------------------------

  /** `f"{cents / 100:.2f}"`: an optional '-', the whole units, '.', two digits. */
  function FormatCents(cents: int): string
  {
    (if cents < 0 then "-" else "") + CentsBody(if cents < 0 then -cents else cents)
  }

  /** The unsigned part of the rendering: "units.dd". */
  function CentsBody(a: nat): string
  {
    var r := a % 100;
    NatToString(a / 100) + "." + [DigitChar(r / 10), DigitChar(r % 10)]
  }

  /** Reads a rendering "[-]units.dd" back into cents; `None` for any other text. */
  function ParseCents(s: string): Option<int>
  {
    if |s| > 0 && s[0] == '-' then
      match ParseUnsignedCents(s[1..])
      case None => None
      case Some(v) => Some(-v)
    else
      ParseUnsignedCents(s)
  }

  /** "units.dd" with at least one digit of units, read as cents. */
  function ParseUnsignedCents(body: string): Option<int>
  {
    if |body| >= 4 && body[|body| - 3] == '.' then UnitsAndHundredths(body[..|body| - 3], body[|body| - 2..])
    else None
  }

  /** The units and the two decimals on either side of the point, read as cents. */
  function UnitsAndHundredths(units: string, frac: string): Option<int>
  {
    if AllDigits(units) && AllDigits(frac) then Some(DigitsValue(units) * 100 + DigitsValue(frac)) else None
  }

  /** The two-decimal rendering loses nothing: it reads back to the same cents. */
  lemma FormatCentsRoundTrip(cents: int)
    ensures ParseCents(FormatCents(cents)) == Some(cents)
  {
    var a := if cents < 0 then -cents else cents;
    var body := CentsBody(a);
    CentsBodyReads(a);
    if cents < 0 {
      assert ("-" + body)[1..] == body;
    } else {
      assert FormatCents(cents) == body;
    }
  }

  /** "units.dd" reads back as the amount it renders, and starts with a digit. */
  lemma CentsBodyReads(a: nat)
    ensures ParseUnsignedCents(CentsBody(a)) == Some(a as int)
    ensures CentsBody(a)[0] != '-'
  {
    var r := a % 100;
    var units := NatToString(a / 100);
    NatToStringValue(a / 100);
    TwoDigitsValue(r / 10, r % 10);
    UnsignedCentsOf(units, [DigitChar(r / 10), DigitChar(r % 10)]);
    assert IsDigit(units[0]);
  }

  /** Two digit characters read as a two-digit number. */
  lemma TwoDigitsValue(d1: nat, d2: nat)
    requires d1 < 10 && d2 < 10
    ensures DigitsValue([DigitChar(d1), DigitChar(d2)]) == d1 * 10 + d2
  {
    var t := [DigitChar(d1), DigitChar(d2)];
    assert t[..1] == [DigitChar(d1)] && t[..1][..0] == [];
    assert DigitsValue(t[..1]) == d1;
  }

  /** "units.dd" reads back as units * 100 + dd. */
  lemma UnsignedCentsOf(units: string, frac: string)
    requires AllDigits(units) && |units| >= 1 && |frac| == 2 && AllDigits(frac)
    ensures ParseUnsignedCents(units + "." + frac) == Some(DigitsValue(units) * 100 + DigitsValue(frac))
  {
    CentsBodySplit(units, frac);
  }

  lemma CentsBodySplit(units: string, frac: string)
    requires |units| >= 1 && |frac| == 2
    ensures var body := units + "." + frac;
      |body| >= 4 && body[|body| - 3] == '.' && body[..|body| - 3] == units && body[|body| - 2..] == frac
  {
  }
}
