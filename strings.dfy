/** The fragment of JavaScript's string handling the timetable code relies on:
    `String.prototype.trim`, `Number.parseInt` with the default radix on decimal
    input, and `Number.prototype.toString` on non-negative integers. */
module Strings {
  import opened Wrappers

  /** The characters ECMAScript counts as WhiteSpace or LineTerminator; these are
      what `trim` removes and what `parseInt` skips at the front. */
  predicate IsWhiteSpace(c: char) {
    if c < '\U{00A0}' then c == ' ' || ('\t' <= c <= '\r')
    else
      || c == '\U{00A0}' || c == '\U{1680}' || ('\U{2000}' <= c <= '\U{200A}')
      || c == '\U{2028}' || c == '\U{2029}' || c == '\U{202F}' || c == '\U{205F}'
      || c == '\U{3000}' || c == '\U{FEFF}'
  }

  predicate IsDigit(c: char) {
    '0' <= c <= '9'
  }

  predicate AllDigits(s: string) {
    forall i :: 0 <= i < |s| ==> IsDigit(s[i])
  }

  /** `s.trimStart()`: the suffix of `s` left after dropping leading white space. */
  function TrimStart(s: string): (r: string) {
    if |s| > 0 && IsWhiteSpace(s[0]) then TrimStart(s[1..]) else s
  }

  /** What `trimStart` removes is white space, and what it keeps does not start with any. */
  lemma {:induction false} TrimStartStrips(s: string)
    ensures var r := TrimStart(s);
      && |r| <= |s| && r == s[|s| - |r|..]
      && (forall i :: 0 <= i < |s| - |r| ==> IsWhiteSpace(s[i])) && (r == [] || !IsWhiteSpace(r[0]))
  {
    if |s| > 0 && IsWhiteSpace(s[0]) {
      TrimStartStrips(s[1..]);
      var r := TrimStart(s);
      forall i | 0 < i < |s| - |r| ensures IsWhiteSpace(s[i]) {
        assert s[i] == s[1..][i - 1];
      }
      assert s[1..][|s| - 1 - |r|..] == s[|s| - |r|..];
    }
  }

  /** `s.trimEnd()`: the prefix of `s` left after dropping trailing white space. */
  function TrimEnd(s: string): (r: string) {
    if |s| > 0 && IsWhiteSpace(s[|s| - 1]) then TrimEnd(s[..|s| - 1]) else s
  }

  /** What `trimEnd` removes is white space, and what it keeps does not end with any. */
  lemma {:induction false} TrimEndStrips(s: string)
    ensures var r := TrimEnd(s);
      && |r| <= |s| && r == s[..|r|]
      && (forall i :: |r| <= i < |s| ==> IsWhiteSpace(s[i])) && (r == [] || !IsWhiteSpace(r[|r| - 1]))
  {
    if |s| > 0 && IsWhiteSpace(s[|s| - 1]) {
      TrimEndStrips(s[..|s| - 1]);
      var r := TrimEnd(s);
      assert s[..|s| - 1][..|r|] == s[..|r|];
    }
  }

  /** `s.trim()`. */
  function Trim(s: string): string {
    TrimEnd(TrimStart(s))
  }

  /** The longest prefix of `s` made of decimal digits. */
  function DigitPrefix(s: string): (r: string) {
    if |s| > 0 && IsDigit(s[0]) then [s[0]] + DigitPrefix(s[1..]) else []
  }

  /** It is a prefix, it is all digits, and it stops at the first non-digit. */
  lemma {:induction false} DigitPrefixSpec(s: string)
    ensures var r := DigitPrefix(s);
      |r| <= |s| && r == s[..|r|] && AllDigits(r) && (|r| == |s| || !IsDigit(s[|r|]))
  {
    if |s| > 0 && IsDigit(s[0]) {
      DigitPrefixSpec(s[1..]);
      var r := DigitPrefix(s);
      assert r == [s[0]] + DigitPrefix(s[1..]);
      forall i | 1 <= i < |r| ensures IsDigit(r[i]) {
        assert r[i] == DigitPrefix(s[1..])[i - 1];
      }
    }
  }

  function DigitValue(c: char): int {
    (c as int) - ('0' as int)
  }

  function DigitChar(d: nat): (c: char)
    requires d < 10
    ensures IsDigit(c) && DigitValue(c) == d
  {
    ('0' as int + d) as char
  }

  /** The number a string of decimal digits denotes (most significant first). */
  function DigitsValue(s: string): int {
    if s == [] then 0 else 10 * DigitsValue(s[..|s| - 1]) + DigitValue(s[|s| - 1])
  }

  /** `Number.parseInt(s)` with the default radix on input without a hexadecimal
      prefix: leading white space is skipped, one optional sign is read, then the
      longest run of decimal digits; `None` is `NaN` (no digit at all). */
  function ParseInt(s: string): Option<int> {
    var t := TrimStart(s);
    var signed := |t| > 0 && (t[0] == '-' || t[0] == '+');
    var digits := DigitPrefix(if signed then t[1..] else t);
    if digits == [] then None
    else
      var v: int := DigitsValue(digits);
      if signed && t[0] == '-' then Some(-v) else Some(v)
  }

  /** `n.toString()` for a non-negative integer: canonical decimal, no leading zero. */
  function NatToString(n: nat): (r: string)
    ensures |r| >= 1 && AllDigits(r)
    ensures r[0] == '0' ==> n == 0
    ensures (n < 10 <==> |r| == 1) && (10 <= n < 100 <==> |r| == 2)
  {
    if n < 10 then [DigitChar(n)] else NatToString(n / 10) + [DigitChar(n % 10)]
  }

  /** Reading back what `toString` wrote gives the number again. */
  lemma {:induction false} DigitsValueOfNatToString(n: nat)
    ensures DigitsValue(NatToString(n)) == n
  {
    if n >= 10 {
      var a := NatToString(n / 10);
      DigitsValueOfNatToString(n / 10);
      assert (a + [DigitChar(n % 10)])[..|a|] == a;
    }
  }

  /** `Number.parseInt(n.toString()) === n` for every non-negative integer `n`. */
  lemma ParseIntOfNatToString(n: nat)
    ensures ParseInt(NatToString(n)) == Some(n)
  {
    ParseIntOfDigits(NatToString(n));
    DigitsValueOfNatToString(n);
  }

  lemma DigitIsNotWhiteSpace(c: char)
    requires IsDigit(c)
    ensures !IsWhiteSpace(c) && c != '-' && c != '+'
  {
  }

  lemma DigitPrefixOfDigits(s: string)
    requires AllDigits(s)
    ensures DigitPrefix(s) == s
  {
  }

  /** `toString` is one-to-one: different numbers are written differently. */
  lemma NatToStringInjective(m: nat, n: nat)
    requires NatToString(m) == NatToString(n)
    ensures m == n
  {
    DigitsValueOfNatToString(m);
    DigitsValueOfNatToString(n);
  }

  /** `parseInt` reads a string of digits as the number it denotes. */
  lemma ParseIntOfDigits(s: string)
    requires s != [] && AllDigits(s)
    ensures ParseInt(s) == Some(DigitsValue(s) as int)
  {
    DigitIsNotWhiteSpace(s[0]);
    assert TrimStart(s) == s;
    DigitPrefixOfDigits(s);
  }

  /** A white-space-padded minute token is read as its number after `trim`. */
  lemma TrimmedPaddedToken()
    ensures Trim(" 05 ") == "05"
    ensures ParseInt(Trim(" 05 ")) == Some(5)
  {
    assert TrimStart(" 05 ") == TrimStart("05 ");
    DigitIsNotWhiteSpace('0');
    assert TrimStart("05 ") == "05 ";
    assert TrimEnd("05 ") == TrimEnd("05");
    DigitIsNotWhiteSpace('5');
    assert TrimEnd("05") == "05";
    ParseIntOfDigits("05");
    assert DigitsValue("05") == 5 by {
      assert "05"[..1] == "0";
      var z: string := "0";
      assert z[..0] == [];
    }
  }
}
