/**
 The few Python value semantics the spreadsheet reader relies on: the kinds of
 value a worksheet cell holds, their truthiness, their `str()` rendering, and
 the string methods `strip()` and `lower()`.
 */
module PyValues {

  /** A cell value as the spreadsheet library hands it over: None, a string,
      an int or a bool. */
  datatype Cell = Null | Text(s: string) | Int(i: int) | Bool(b: bool)

  /** Python truthiness of a cell value. */
  predicate Truthy(c: Cell)
  {
    match c
    case Null => false
    case Text(s) => s != ""
    case Int(i) => i != 0
    case Bool(b) => b
  }

  /** Python's `str.isspace()` for one character: the ASCII controls tab to
      carriage return, the separators 0x1C-0x1F, space, and the Unicode
      space characters. */
  predicate IsSpace(c: char)
  {
    ('\t' <= c <= '\r') || ('\U{1C}' <= c <= '\U{1F}') || c == ' ' ||
    c == '\U{85}' || c == '\U{A0}' || c == '\U{1680}' ||
    ('\U{2000}' <= c <= '\U{200A}') || c == '\U{2028}' || c == '\U{2029}' ||
    c == '\U{202F}' || c == '\U{205F}' || c == '\U{3000}'
  }

  predicate AllSpace(s: string)
  {
    forall i :: 0 <= i < |s| ==> IsSpace(s[i])
  }

  /** No whitespace at either end: what `strip()` leaves. */
  predicate IsStripped(s: string)
  {
    s == [] || (!IsSpace(s[0]) && !IsSpace(s[|s| - 1]))
  }

  /** Python's `lstrip()`: drops the longest whitespace prefix. */
  function TrimLeft(s: string): (r: string)
    ensures |r| <= |s| && r == s[|s| - |r|..]
    ensures AllSpace(s[..|s| - |r|])
    ensures r == [] || !IsSpace(r[0])
  {
    if |s| > 0 && IsSpace(s[0]) then
      var t := s[1..];
      var r := TrimLeft(t);
      assert t[|t| - |r|..] == s[|s| - |r|..];
      assert s[..|s| - |r|] == [s[0]] + t[..|t| - |r|];
      r
    else
      s
  }

  /** Python's `rstrip()`: drops the longest whitespace suffix. */
  function TrimRight(s: string): (r: string)
    ensures |r| <= |s| && r == s[..|r|]
    ensures AllSpace(s[|r|..])
    ensures r == [] || !IsSpace(r[|r| - 1])
  {
    if |s| > 0 && IsSpace(s[|s| - 1]) then
      var r := TrimRight(s[..|s| - 1]);
      assert s[..|s| - 1][|r|..] + [s[|s| - 1]] == s[|r|..];
      r
    else
      s
  }

  /** Python's `strip()`. The result is a contiguous piece of `s`, has no
      whitespace at its ends, is empty exactly when `s` is all whitespace,
      and leaves an already stripped string alone. */
  function Strip(s: string): (r: string)
    ensures IsStripped(r)
    ensures |r| <= |s|
    ensures r == [] <==> AllSpace(s)
    ensures IsStripped(s) ==> r == s
  {
    var l := TrimLeft(s);
    var r := TrimRight(l);
    assert r != [] ==> r[0] == l[0];
    StripEmptyIff(s, l, r);
    r
  }

  lemma StripEmptyIff(s: string, l: string, r: string)
    requires l == TrimLeft(s) && r == TrimRight(l)
    ensures r == [] <==> AllSpace(s)
    ensures IsStripped(s) ==> r == s
  {
    if r == [] {
      assert l[|r|..] == l;
      assert s == s[..|s| - |l|] + l;
      AllSpaceConcat(s[..|s| - |l|], l);
    }
    if AllSpace(s) {
      TrimLeftAllSpace(s);
    }
  }

  lemma AllSpaceConcat(a: string, b: string)
    requires AllSpace(a) && AllSpace(b)
    ensures AllSpace(a + b)
  {
  }

  lemma {:induction false} TrimLeftAllSpace(s: string)
    requires AllSpace(s)
    ensures TrimLeft(s) == []
    decreases |s|
  {
    if s != [] {
      TrimLeftAllSpace(s[1..]);
    }
  }

  /** Python's `lower()` on one character, for the characters whose lower
      case is ASCII: the ASCII capitals and U+212A KELVIN SIGN. */
  function LowerChar(c: char): (r: char)
    ensures 'A' <= c <= 'Z' ==> r as int == c as int + 32
    ensures !('A' <= c <= 'Z') && c != '\U{212A}' ==> r == c
  {
    if 'A' <= c <= 'Z' then (c as int + 32) as char
    else if c == '\U{212A}' then 'k'
    else c
  }

  /** Python's `lower()`, character by character. */
  function Lower(s: string): (r: string)
    ensures |r| == |s|
    ensures forall i :: 0 <= i < |s| ==> r[i] == LowerChar(s[i])
    ensures forall i :: 0 <= i < |r| ==> !('A' <= r[i] <= 'Z')
  {
    seq(|s|, i requires 0 <= i < |s| => LowerChar(s[i]))
  }

  function DigitChar(d: nat): (c: char)
    requires d < 10
    ensures '0' <= c <= '9'
  {
    ('0' as int + d) as char
  }

  function DigitValue(c: char): int
  {
    c as int - '0' as int
  }

  predicate IsDigits(s: string)
  {
    forall i :: 0 <= i < |s| ==> '0' <= s[i] <= '9'
  }

  /** Decimal digits of a natural number, as `str()` writes them: at least one
      digit and no leading zero. */
  function NatToDecimal(n: nat): (r: string)
    ensures |r| >= 1 && IsDigits(r)
    ensures r[0] == '0' <==> n == 0
    decreases n
  {
    if n < 10 then [DigitChar(n)] else NatToDecimal(n / 10) + [DigitChar(n % 10)]
  }

  /** `str()` of a Python int: a minus sign for negatives, then the digits. */
  function IntToDecimal(n: int): (r: string)
  {
    if n < 0 then "-" + NatToDecimal(-n) else NatToDecimal(n)
  }

  /** Reading decimal digits back, the inverse of `NatToDecimal`. */
  function ParseDigits(s: string): int
  {
    if s == [] then 0 else ParseDigits(s[..|s| - 1]) * 10 + DigitValue(s[|s| - 1])
  }

  /** Reading an optionally signed decimal back, the inverse of `IntToDecimal`. */
  function ParseDecimal(s: string): int
  {
    if |s| > 0 && s[0] == '-' then -ParseDigits(s[1..]) else ParseDigits(s)
  }

  lemma {:induction false} NatDecimalRoundTrip(n: nat)
    ensures ParseDigits(NatToDecimal(n)) == n
    decreases n
  {
    if n >= 10 {
      NatDecimalRoundTrip(n / 10);
      var s := NatToDecimal(n);
      assert s[..|s| - 1] == NatToDecimal(n / 10);
    }
  }

  /** `str()` on an int never loses information: the text reads back as the
      same number. */
  lemma IntDecimalRoundTrip(n: int)
    ensures ParseDecimal(IntToDecimal(n)) == n
  {
    if n < 0 {
      NatDecimalRoundTrip(-n);
      assert IntToDecimal(n)[1..] == NatToDecimal(-n);
    } else {
      NatDecimalRoundTrip(n);
    }
  }

  /** Python's `str()` of a cell value. */
  function Str(c: Cell): (r: string)
  {
    match c
    case Null => "None"
    case Text(s) => s
    case Int(i) => IntToDecimal(i)
    case Bool(b) => if b then "True" else "False"
  }

  /** Only a string cell can render with whitespace at its ends or as the
      empty string; every other kind renders as non-empty stripped text. */
  lemma NonTextRendersStripped(c: Cell)
    requires !c.Text?
    ensures Str(c) != [] && IsStripped(Str(c)) && Strip(Str(c)) == Str(c)
  {
    match c
    case Null => VisibleEnds("None");
    case Bool(b) => VisibleEnds(if b then "True" else "False");
    case Int(i) =>
      var d := NatToDecimal(if i < 0 then -i else i);
      var r := Str(c);
      assert r[|r| - 1] == d[|d| - 1];
      assert r[0] == (if i < 0 then '-' else d[0]);
      VisibleEnds(r);
  }

  /** A printable ASCII character other than the space. */
  predicate Visible(c: char)
  {
    '!' <= c <= '~'
  }

  /** Text that starts and ends with a visible character is left alone by
      `strip()`. */
  lemma VisibleEnds(s: string)
    requires s != [] && Visible(s[0]) && Visible(s[|s| - 1])
    ensures IsStripped(s) && Strip(s) == s
  {
  }

  /** `strip()` removes exactly the whitespace padding around a stripped
      core: whatever pads a word, the word comes back. */
  lemma StripPadded(pre: string, u: string, post: string)
    requires AllSpace(pre) && AllSpace(post) && IsStripped(u)
    ensures Strip(pre + u + post) == u
  {
    var s := pre + u + post;
    if u == [] {
      assert s == pre + post;
      AllSpaceConcat(pre, post);
    } else {
      assert s == pre + (u + post);
      TrimLeftPadded(pre, u + post);
      TrimRightPadded(u, post);
    }
  }

  lemma {:induction false} TrimLeftPadded(pre: string, t: string)
    requires AllSpace(pre)
    requires t == [] || !IsSpace(t[0])
    ensures TrimLeft(pre + t) == t
    decreases |pre|
  {
    if pre != [] {
      assert (pre + t)[1..] == pre[1..] + t;
      TrimLeftPadded(pre[1..], t);
    } else {
      assert pre + t == t;
    }
  }

  lemma {:induction false} TrimRightPadded(t: string, post: string)
    requires AllSpace(post)
    requires t == [] || !IsSpace(t[|t| - 1])
    ensures TrimRight(t + post) == t
    decreases |post|
  {
    if post != [] {
      assert (t + post)[..|t + post| - 1] == t + post[..|post| - 1];
      TrimRightPadded(t, post[..|post| - 1]);
    } else {
      assert t + post == t;
    }
  }
}
