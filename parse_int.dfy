/** JavaScript's global `parseInt` called with one argument, as the update
    handler applies it to the id text of its draft. The radix is not given,
    so a leading `0x`/`0X` selects base 16 and anything else base 10; a text
    with no digit where the number should start yields `NaN`, written `None`. */
module JsParseInt {
  import opened Wrappers

  /** The code points JavaScript's `parseInt` skips before the number:
      white space (tab, vertical tab, form feed, the byte order mark and the
      Unicode space separators) and the line terminators. */
  predicate IsJsSpace(c: char) {
    var n := c as int;
    n == 0x09 || n == 0x0A || n == 0x0B || n == 0x0C || n == 0x0D || n == 0x20 ||
    n == 0xA0 || n == 0x1680 || (0x2000 <= n <= 0x200A) || n == 0x2028 || n == 0x2029 ||
    n == 0x202F || n == 0x205F || n == 0x3000 || n == 0xFEFF
  }

  /** The value of `c` as a digit in bases up to 36 (`0`-`9`, then `a`-`z`
      or `A`-`Z` for 10 to 35), or 36 when `c` is no digit at all. */
  function DigitValue(c: char): (d: nat)
    ensures d <= 36
    ensures d < 10 <==> '0' <= c <= '9'
  {
    if '0' <= c <= '9' then c as int - '0' as int
    else if 'a' <= c <= 'z' then c as int - 'a' as int + 10
    else if 'A' <= c <= 'Z' then c as int - 'A' as int + 10
    else 36
  }

  /** `s` with its leading white space removed. */
  function TrimStart(s: string): (r: string)
    ensures |r| <= |s| && r == s[|s| - |r|..]
    ensures forall i :: 0 <= i < |s| - |r| ==> IsJsSpace(s[i])
    ensures r != [] ==> !IsJsSpace(r[0])
  {
    if s != [] && IsJsSpace(s[0]) then TrimStart(s[1..]) else s
  }

  /** The length of the longest prefix of `s` made of digits of `radix`. */
  function DigitRun(s: string, radix: nat): (n: nat)
    ensures n <= |s|
    ensures forall i :: 0 <= i < n ==> DigitValue(s[i]) < radix
    ensures n < |s| ==> DigitValue(s[n]) >= radix
  {
    if s != [] && DigitValue(s[0]) < radix then 1 + DigitRun(s[1..], radix) else 0
  }

  /** The number the digit string `ds` denotes in base `radix`, most
      significant digit first. */
  function ValueOf(ds: string, radix: nat): nat {
    if ds == [] then 0 else ValueOf(ds[..|ds| - 1], radix) * radix + DigitValue(ds[|ds| - 1])
  }

  /** The unsigned part of `parseInt`: a `0x`/`0X` prefix selects base 16,
      anything else base 10, and then as many digits of the base as follow
      are read; no digit there gives `None`. */
  function ParseUnsigned(u: string): (r: Option<int>)
    ensures r.Some? ==> r.value >= 0
  {
    var hex := |u| >= 2 && u[0] == '0' && (u[1] == 'x' || u[1] == 'X');
    var radix := if hex then 16 else 10;
    var body := if hex then u[2..] else u;
    var n := DigitRun(body, radix);
    if n == 0 then None else Some(ValueOf(body[..n], radix))
  }

  /** `parseInt(s)`: skip leading white space, take one optional sign, then
      read the unsigned part. A minus sign negates (minus zero equals zero
      under the `===` the handler compares with, so it is plain zero here). */
  function ParseInt(s: string): (r: Option<int>)
    ensures TrimStart(s) == [] ==> r == None
    ensures r.Some? && TrimStart(s)[0] == '-' ==> r.value <= 0
    ensures r.Some? && TrimStart(s)[0] != '-' ==> r.value >= 0
  {
    var t := TrimStart(s);
    if t == [] then None
    else if t[0] == '-' then
      match ParseUnsigned(t[1..])
      case Some(m) => Some(-m)
      case None => None
    else if t[0] == '+' then ParseUnsigned(t[1..])
    else ParseUnsigned(t)
  }

  /** The decimal digit character for `d`. */
  function DigitChar(d: nat): (c: char)
    requires d < 10
    ensures DigitValue(c) == d
  {
    ('0' as int + d) as char
  }

  /** The decimal text of a natural number, as JavaScript prints it. */
  function NatToText(n: nat): (s: string)
    ensures s != [] && forall i :: 0 <= i < |s| ==> '0' <= s[i] <= '9'
    ensures |s| > 1 ==> s[0] != '0'
  {
    if n < 10 then [DigitChar(n)] else NatToText(n / 10) + [DigitChar(n % 10)]
  }

  /** The decimal text of an integer id, with a leading minus when negative. */
  function IntToText(i: int): string {
    if i < 0 then ['-'] + NatToText(-i) else NatToText(i)
  }

  /** Reading the decimal text of `n` back gives `n`. */
  lemma {:induction false} ValueOfNatToText(n: nat)
    ensures ValueOf(NatToText(n), 10) == n
  {
    if n >= 10 {
      var s := NatToText(n);
      ValueOfNatToText(n / 10);
      assert s[..|s| - 1] == NatToText(n / 10);
    }
  }

  /** The digit run of `d + rest` is exactly `d` when `d` is all digits and
      `rest` does not start with one. */
  lemma {:induction false} DigitRunStopsAfter(d: string, rest: string, radix: nat)
    requires forall i :: 0 <= i < |d| ==> DigitValue(d[i]) < radix
    requires rest == [] || DigitValue(rest[0]) >= radix
    ensures DigitRun(d + rest, radix) == |d|
  {
    if d != [] {
      DigitRunStopsAfter(d[1..], rest, radix);
      assert (d + rest)[1..] == d[1..] + rest;
    } else {
      assert d + rest == rest;
    }
  }

  /** The decimal text of `n`, followed by anything that cannot continue a
      number, reads back as `n`. */
  lemma ParseUnsignedOfText(n: nat, rest: string)
    requires rest == [] || (DigitValue(rest[0]) >= 10 && (n > 0 || (rest[0] != 'x' && rest[0] != 'X')))
    ensures ParseUnsigned(NatToText(n) + rest) == Some(n)
  {
    var d := NatToText(n);
    var s := d + rest;
    assert !(|s| >= 2 && s[0] == '0' && (s[1] == 'x' || s[1] == 'X')) by {
      if |d| == 1 {
        assert d[0] == '0' ==> n == 0;
        assert rest != [] ==> s[1] == rest[0];
      } else {
        assert s[1] == d[1];
      }
    }
    DigitRunStopsAfter(d, rest, 10);
    assert s[..|d|] == d;
    ValueOfNatToText(n);
  }

  /** Text that starts with a decimal digit is read as it stands: no white
      space to skip and no sign. */
  lemma ParseIntOfDigitStart(s: string)
    requires s != [] && '0' <= s[0] <= '9'
    ensures ParseInt(s) == ParseUnsigned(s)
  {
    assert !IsJsSpace(s[0]);
  }

  /** Text that starts with a minus sign reads as the negated unsigned part. */
  lemma ParseIntOfMinusStart(s: string, m: int)
    requires s != [] && s[0] == '-' && ParseUnsigned(s[1..]) == Some(m)
    ensures ParseInt(s) == Some(-m)
  {
  }

  /** Text after the number is ignored: `parseInt("12abc")` is 12. */
  lemma ParseIntIgnoresTrailing(n: nat, rest: string)
    requires rest == [] || (DigitValue(rest[0]) >= 10 && (n > 0 || (rest[0] != 'x' && rest[0] != 'X')))
    ensures ParseInt(NatToText(n) + rest) == Some(n)
  {
    var s := NatToText(n) + rest;
    assert s[0] == NatToText(n)[0];
    ParseIntOfDigitStart(s);
    ParseUnsignedOfText(n, rest);
  }

  /** Typing the decimal text of an id into the update form makes `parseInt`
      return that very id: the text round-trips. */
  lemma ParseIntOfText(i: int)
    ensures ParseInt(IntToText(i)) == Some(i)
  {
    if i >= 0 {
      ParseIntOfNaturalText(i);
    } else {
      ParseIntOfNegativeText(i);
    }
  }

  /** The decimal text of a non-negative id reads back as that id. */
  lemma ParseIntOfNaturalText(i: int)
    requires i >= 0
    ensures ParseInt(IntToText(i)) == Some(i)
  {
    var d := NatToText(i);
    assert d + [] == d;
    ParseIntIgnoresTrailing(i, []);
  }

  /** A minus sign in front of the decimal text of `-i` reads back as `i`. */
  lemma ParseIntOfNegativeText(i: int)
    requires i < 0
    ensures ParseInt(IntToText(i)) == Some(i)
  {
    var d := NatToText(-i);
    var s := ['-'] + d;
    assert s[1..] == d + [];
    ParseUnsignedOfText(-i, []);
    ParseIntOfMinusStart(s, -i);
  }

  /** Text with no decimal digit anywhere (an empty box, a name typed by
      mistake) parses to `NaN`: a number needs at least one decimal digit,
      since even a hexadecimal one starts with `0x`. */
  lemma ParseIntWithoutDigits(s: string)
    requires forall i :: 0 <= i < |s| ==> !('0' <= s[i] <= '9')
    ensures ParseInt(s) == None
  {
  }
}
