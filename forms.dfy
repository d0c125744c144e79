/** Form fields as the request handlers see them, and Python's `int()` applied
    to a form string.  A field is `None` when the form does not carry it. */
module Forms {

  import opened Wrappers

  /** Python truthiness of `request.form.get(name)`: a missing field and the
      empty string are both falsy; any other string (even "  ") is truthy. */
  predicate Blank(field: Option<string>)
  {
    field.None? || field.value == ""
  }

  /** The characters `int()` strips from both ends of its argument: among
      ASCII, only the C-locale white space (space and `\t` to `\r`); beyond
      ASCII, every character `str.isspace()` accepts. */
  predicate IsSpace(c: char)
  {
    c == ' ' || ('\t' <= c <= '\r')
    || c == '\U{85}' || c == '\U{A0}' || c == '\U{1680}'
    || ('\U{2000}' <= c <= '\U{200A}') || c == '\U{2028}' || c == '\U{2029}'
    || c == '\U{202F}' || c == '\U{205F}' || c == '\U{3000}'
  }

  predicate IsDigit(c: char)
  {
    '0' <= c <= '9'
  }

  function TrimLeft(s: string): (r: string)
    ensures |r| <= |s| && r == s[|s| - |r|..]
    ensures forall i :: 0 <= i < |s| - |r| ==> IsSpace(s[i])
    ensures r == [] || !IsSpace(r[0])
  {
    if |s| > 0 && IsSpace(s[0]) then TrimLeft(s[1..]) else s
  }

  function TrimRight(s: string): (r: string)
    ensures |r| <= |s| && r == s[..|r|]
    ensures forall i :: |r| <= i < |s| ==> IsSpace(s[i])
    ensures r == [] || !IsSpace(r[|r| - 1])
  {
    if |s| > 0 && IsSpace(s[|s| - 1]) then TrimRight(s[..|s| - 1]) else s
  }

  /** The stripping `int()` does at both ends of its argument (`IsSpace`, which
      differs from `str.strip()` on U+001C to U+001F). */
  function Strip(s: string): (r: string)
    ensures r == [] || (!IsSpace(r[0]) && !IsSpace(r[|r| - 1]))
  {
    TrimRight(TrimLeft(s))
  }

  /** Python's grammar for the digits of a base-10 integer: digits, where a
      single underscore may separate two digits. */
  predicate DigitGroups(t: string)
  {
    && |t| > 0
    && (forall i :: 0 <= i < |t| ==> IsDigit(t[i]) || t[i] == '_')
    && (forall i :: 0 <= i < |t| && t[i] == '_' ==> 0 < i < |t| - 1 && IsDigit(t[i - 1]) && IsDigit(t[i + 1]))
  }

  function DropUnderscores(t: string): (r: string)
    ensures (forall i :: 0 <= i < |t| ==> IsDigit(t[i]) || t[i] == '_') ==> forall i :: 0 <= i < |r| ==> IsDigit(r[i])
  {
    if t == [] then []
    else if t[|t| - 1] == '_' then DropUnderscores(t[..|t| - 1])
    else DropUnderscores(t[..|t| - 1]) + [t[|t| - 1]]
  }

  /** The number a string of decimal digits denotes, most significant first. */
  function DigitsValue(d: string): nat
    requires forall i :: 0 <= i < |d| ==> IsDigit(d[i])
  {
    if d == [] then 0
    else
      var c := d[|d| - 1];
      assert IsDigit(c);
      10 * DigitsValue(d[..|d| - 1]) + (c as int - '0' as int)
  }

  /** The digits of an unsigned integer, as `int()` reads them after the sign. */
  function ParseUnsigned(t: string): (r: Option<nat>)
    ensures r.Some? ==> |t| > 0 && IsDigit(t[0])
  {
    if DigitGroups(t) then
      assert IsDigit(t[0]);
      Some(DigitsValue(DropUnderscores(t)))
    else None
  }

  /** Python's `int(s)` for a string `s`: surrounding white space is ignored,
      then one optional sign and digit groups; anything else raises, which is `None` here. */
  function ParseInt(s: string): Option<int>
  {
    ParseSigned(Strip(s))
  }

  /** What `int()` reads from its stripped argument: one optional sign, then digit groups. */
  function ParseSigned(t: string): Option<int>
  {
    if |t| > 0 && (t[0] == '+' || t[0] == '-') then
      match ParseUnsigned(t[1..])
      case None => None
      case Some(n) =>
        var v: int := if t[0] == '-' then -(n as int) else n;
        Some(v)
    else ParseUnsigned(t)
  }

  /** `str(n)` for a natural number: its canonical decimal digits. */
  function ShowNat(n: nat): (r: string)
    ensures |r| > 0
    ensures forall i :: 0 <= i < |r| ==> IsDigit(r[i])
  {
    if n < 10 then [('0' as int + n) as char]
    else ShowNat(n / 10) + [('0' as int + n % 10) as char]
  }

  /** `str(n)` for any integer. */
  function ShowInt(n: int): string
  {
    if n < 0 then "-" + ShowNat(-n) else ShowNat(n)
  }

  lemma {:induction false} DigitsOfShowNat(n: nat)
    ensures DigitsValue(ShowNat(n)) == n
  {
    if n >= 10 {
      var d := ShowNat(n);
      assert d[..|d| - 1] == ShowNat(n / 10);
      DigitsOfShowNat(n / 10);
    }
  }

  lemma {:induction false} DropUnderscoresOfDigits(d: string)
    requires forall i :: 0 <= i < |d| ==> IsDigit(d[i])
    ensures DropUnderscores(d) == d
  {
    if d != [] {
      DropUnderscoresOfDigits(d[..|d| - 1]);
    }
  }

  /** A run of plain digits is read as the number it denotes. */
  lemma {:induction false} ParseUnsignedDigits(d: string)
    requires |d| > 0 && forall i :: 0 <= i < |d| ==> IsDigit(d[i])
    ensures ParseUnsigned(d) == Some(DigitsValue(d))
  {
    DropUnderscoresOfDigits(d);
  }

  /** A string with no white space at either end is its own strip. */
  lemma {:induction false} StripUnpadded(s: string)
    requires s == [] || (!IsSpace(s[0]) && !IsSpace(s[|s| - 1]))
    ensures Strip(s) == s
  {
  }

  /** A decimal rendering parses back: `int(str(n)) == n`. */
  lemma {:induction false} ParseShowInt(n: int)
    ensures ParseInt(ShowInt(n)) == Some(n)
  {
    if n < 0 {
      ParseShowNegative(n);
    } else {
      ParseShowNat(n);
    }
  }

  lemma {:induction false} ParseShowNat(n: nat)
    ensures ParseInt(ShowNat(n)) == Some(n)
  {
    var d := ShowNat(n);
    assert !IsSpace(d[0]) && !IsSpace(d[|d| - 1]);
    StripUnpadded(d);
    ParseUnsignedDigits(d);
    DigitsOfShowNat(n);
    assert IsDigit(d[0]);
  }

  lemma {:induction false} ParseShowNegative(n: int)
    requires n < 0
    ensures ParseInt(ShowInt(n)) == Some(n)
  {
    var d := ShowNat(-n);
    var s := ShowInt(n);
    assert s == "-" + d;
    assert s[1..] == d;
    assert Strip(s) == s by {
      assert !IsSpace(s[0]) && !IsSpace(s[|s| - 1]) by {
        assert s[|s| - 1] == d[|d| - 1];
        assert IsDigit(d[|d| - 1]);
      }
      StripUnpadded(s);
    }
    assert ParseUnsigned(d) == Some(-n) by {
      ParseUnsignedDigits(d);
      DigitsOfShowNat(-n);
    }
    assert ParseSigned(s) == Some(n);
  }

  /** Surrounding white space, however much and of whatever kind, does not
      change the result of `int()`. */
  lemma {:induction false} ParseIgnoresPadding(p: string, s: string, q: string)
    requires forall i :: 0 <= i < |p| ==> IsSpace(p[i])
    requires forall i :: 0 <= i < |q| ==> IsSpace(q[i])
    ensures ParseInt(p + s + q) == ParseInt(s)
  {
    StripIgnoresPadding(p, s, q);
  }

  lemma {:induction false} StripIgnoresPadding(p: string, s: string, q: string)
    requires forall i :: 0 <= i < |p| ==> IsSpace(p[i])
    requires forall i :: 0 <= i < |q| ==> IsSpace(q[i])
    ensures Strip(p + s + q) == Strip(s)
  {
    assert p + s + q == p + (s + q);
    TrimLeftSpaces(p, s + q);
    TrimLeftSuffix(s, q);
    if TrimLeft(s) == [] {
      TrimLeftSpaces(q, []);
      assert q + [] == q;
    } else {
      TrimRightSpaces(TrimLeft(s), q);
    }
  }

  /** Leading white space is stripped whatever follows it. */
  lemma {:induction false} TrimLeftSpaces(p: string, x: string)
    requires forall i :: 0 <= i < |p| ==> IsSpace(p[i])
    ensures TrimLeft(p + x) == TrimLeft(x)
  {
    if p == [] {
      assert p + x == x;
    } else {
      assert (p + x)[0] == p[0];
      assert (p + x)[1..] == p[1..] + x;
      TrimLeftSpaces(p[1..], x);
    }
  }

  /** Trailing white space is stripped whatever precedes it. */
  lemma {:induction false} TrimRightSpaces(y: string, q: string)
    requires forall i :: 0 <= i < |q| ==> IsSpace(q[i])
    ensures TrimRight(y + q) == TrimRight(y)
  {
    if q == [] {
      assert y + q == y;
    } else {
      var l := y + q;
      assert l[|l| - 1] == q[|q| - 1];
      assert l[..|l| - 1] == y + q[..|q| - 1];
      TrimRightSpaces(y, q[..|q| - 1]);
    }
  }

  /** Stripping the left end of `s + q` stops inside `s` unless `s` is all white space. */
  lemma {:induction false} TrimLeftSuffix(s: string, q: string)
    ensures TrimLeft(s + q) == if TrimLeft(s) == [] then TrimLeft(q) else TrimLeft(s) + q
  {
    if s == [] {
      assert s + q == q;
    } else if IsSpace(s[0]) {
      assert (s + q)[0] == s[0];
      assert (s + q)[1..] == s[1..] + q;
      TrimLeftSuffix(s[1..], q);
    } else {
      assert (s + q)[0] == s[0];
    }
  }
}
