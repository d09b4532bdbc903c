/** Decimal integers as Python reads and writes them:
    - `Show` is `str(n)` (used when a player id is put into a message);
    - `ParseInt` is `int(s)` for a base-10 string: surrounding whitespace is
      skipped, one optional sign, then digits with single underscores
      allowed between them. Anything else is a ValueError, here `None`. */
module Decimal {
  import opened Wrappers

  predicate IsDigit(c: char) {
    '0' <= c <= '9'
  }

  predicate AllDigits(s: string) {
    forall i | 0 <= i < |s| :: IsDigit(s[i])
  }

  function DigitValue(c: char): nat
    requires IsDigit(c)
  {
    c as int - '0' as int
  }

  function DigitChar(d: nat): (c: char)
    requires d < 10
    ensures IsDigit(c) && DigitValue(c) == d
  {
    ('0' as int + d) as char
  }

  /** The number a run of digits denotes, most significant digit first. */
  function ValueOf(s: string): nat
    requires AllDigits(s)
  {
    if |s| == 0 then 0 else ValueOf(s[..|s| - 1]) * 10 + DigitValue(s[|s| - 1])
  }

  /** `str(n)` for a natural number: no sign, no leading zero. */
  function ShowNat(n: nat): (s: string)
    ensures 0 < |s| && AllDigits(s)
  {
    if n < 10 then [DigitChar(n)] else ShowNat(n / 10) + [DigitChar(n % 10)]
  }

  /** `str(n)` for any integer. */
  function Show(n: int): (s: string)
    ensures 0 < |s|
    ensures n < 0 <==> s[0] == '-'
  {
    if n < 0 then "-" + ShowNat(-n) else ShowNat(n)
  }

  /** Apart from a leading minus sign, `str(n)` is all digits. */
  lemma ShowChars(n: int, i: nat)
    requires i < |Show(n)|
    ensures IsDigit(Show(n)[i]) || (i == 0 && n < 0)
  {
  }

  lemma {:induction false} ValueOfShowNat(n: nat)
    ensures ValueOf(ShowNat(n)) == n
  {
    if 10 <= n {
      var s := ShowNat(n);
      assert s[..|s| - 1] == ShowNat(n / 10);
      ValueOfShowNat(n / 10);
    }
  }

  /** The whitespace Python's int() skips around a number: space, \t, \n,
      vertical tab, form feed and \r. */
  predicate IsSpace(c: char) {
    c == ' ' || c == '\t' || c == '\n' || c == '\r' || c as int == 0x0B || c as int == 0x0C
  }

  function TrimStart(s: string): string {
    if 0 < |s| && IsSpace(s[0]) then TrimStart(s[1..]) else s
  }

  function TrimEnd(s: string): string {
    if 0 < |s| && IsSpace(s[|s| - 1]) then TrimEnd(s[..|s| - 1]) else s
  }

  function Strip(s: string): string {
    TrimEnd(TrimStart(s))
  }

  /** Only whitespace is removed, from either end. */
  lemma {:induction false} TrimStartSkipsSpace(s: string)
    ensures |TrimStart(s)| <= |s| && TrimStart(s) == s[|s| - |TrimStart(s)|..]
    ensures forall i | 0 <= i < |s| - |TrimStart(s)| :: IsSpace(s[i])
  {
    if 0 < |s| && IsSpace(s[0]) {
      TrimStartSkipsSpace(s[1..]);
    }
  }

  lemma {:induction false} TrimEndSkipsSpace(s: string)
    ensures |TrimEnd(s)| <= |s| && TrimEnd(s) == s[..|TrimEnd(s)|]
    ensures forall i | |TrimEnd(s)| <= i < |s| :: IsSpace(s[i])
  {
    if 0 < |s| && IsSpace(s[|s| - 1]) {
      TrimEndSkipsSpace(s[..|s| - 1]);
    }
  }

  lemma StripUnpadded(s: string)
    requires 0 < |s| && !IsSpace(s[0]) && !IsSpace(s[|s| - 1])
    ensures Strip(s) == s
  {
    assert TrimStart(s) == s;
  }

  /** Digits where a single underscore may stand between two digits, read
      from the last digit backwards; `None` for anything else, including an
      empty text and a leading, trailing or doubled underscore. */
  function ParseUnsigned(s: string): (r: Option<nat>)
  {
    if |s| == 0 || !IsDigit(s[|s| - 1]) then None
    else if |s| == 1 then Some(DigitValue(s[0]))
    else
      var rest := if s[|s| - 2] == '_' then s[..|s| - 2] else s[..|s| - 1];
      match ParseUnsigned(rest)
      case None => None
      case Some(v) => Some(v * 10 + DigitValue(s[|s| - 1]))
  }

  /** `int(s)`; `None` where Python raises ValueError. */
  function ParseInt(s: string): Option<int> {
    ParseSigned(Strip(s))
  }

  /** An optional sign followed by digits. */
  function ParseSigned(t: string): Option<int> {
    var negative := 0 < |t| && t[0] == '-';
    var digits := if 0 < |t| && (t[0] == '-' || t[0] == '+') then t[1..] else t;
    match ParseUnsigned(digits)
    case None => None
    case Some(n) => var v: int := n; Some(if negative then -v else v)
  }

  lemma {:induction false} ParseUnsignedDigits(d: string)
    requires 0 < |d| && AllDigits(d)
    ensures ParseUnsigned(d) == Some(ValueOf(d))
  {
    if 1 < |d| {
      var rest := d[..|d| - 1];
      assert AllDigits(rest);
      ParseUnsignedDigits(rest);
    } else {
      assert d[..0] == [];
    }
  }

  /** A plain run of digits parses to the number it denotes. */
  lemma ParseIntDigits(s: string)
    requires 0 < |s| && AllDigits(s)
    ensures ParseInt(s) == Some(ValueOf(s))
  {
    StripUnpadded(s);
    ParseUnsignedDigits(s);
  }


  /** Reading back what `str` wrote gives the number again: `int(str(n)) == n`. */
  lemma ParseShow(n: int)
    ensures ParseInt(Show(n)) == Some(n)
  {
    if n < 0 {
      ParseShowNegative(n);
    } else {
      ParseIntDigits(ShowNat(n));
      ValueOfShowNat(n);
    }
  }

  lemma ParseShowNegative(n: int)
    requires n < 0
    ensures ParseInt(Show(n)) == Some(n)
  {
    var d := ShowNat(-n);
    var s := Show(n);
    assert s == ['-'] + d;
    assert s[0] == '-' && s[1..] == d && s[|s| - 1] == d[|d| - 1];
    StripUnpadded(s);
    ParseUnsignedDigits(d);
    ValueOfShowNat(-n);
    assert ParseSigned(s) == Some(n);
  }

  /** Two integers with the same rendering are the same integer. */
  lemma ShowInjective(m: int, n: int)
    requires Show(m) == Show(n)
    ensures m == n
  {
    ParseShow(m);
    ParseShow(n);
  }

  /** Only digits and underscores survive `ParseUnsigned`. */
  lemma {:induction false} ParseUnsignedRejects(s: string, i: nat)
    requires i < |s| && !IsDigit(s[i]) && s[i] != '_'
    ensures ParseUnsigned(s) == None
  {
    if |s| != 0 && IsDigit(s[|s| - 1]) && |s| != 1 {
      var rest := if s[|s| - 2] == '_' then s[..|s| - 2] else s[..|s| - 1];
      assert i < |rest| && rest[i] == s[i];
      ParseUnsignedRejects(rest, i);
    }
  }

  /** A text holding any character other than a digit, an underscore, a
      sign or whitespace is not an integer. */
  lemma ParseIntRejects(s: string, i: nat)
    requires i < |s|
    requires !(IsDigit(s[i]) || s[i] == '_' || s[i] == '+' || s[i] == '-' || IsSpace(s[i]))
    ensures ParseInt(s) == None
  {
    var u := TrimStart(s);
    var t := TrimEnd(u);
    TrimStartSkipsSpace(s);
    TrimEndSkipsSpace(u);
    var k := i - (|s| - |u|);
    assert 0 <= k < |t| && t[k] == s[i];
    if 0 < |t| && (t[0] == '-' || t[0] == '+') {
      assert 0 < k && t[1..][k - 1] == s[i];
      ParseUnsignedRejects(t[1..], k - 1);
    } else {
      ParseUnsignedRejects(t, k);
    }
  }
}
