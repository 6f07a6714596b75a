/**
 * The JavaScript string built-ins that the core calls: `parseInt(s, 10)`, the decimal
 * rendering of an integer (`${n}`), `toString(16).toUpperCase()`, `padStart`,
 * `startsWith` and `split`. A `char` stands for one UTF-16 code unit.
 */
module JsText {
  import opened Exceptions

  /** The white space and line terminators that `parseInt` skips (StrWhiteSpaceChar). */
  predicate IsWhiteSpace(c: char) {
    || c == '\t' || c == '\n' || c == '\U{000B}' || c == '\U{000C}' || c == '\r' || c == ' '
    || c == '\U{00A0}' || c == '\U{1680}' || ('\U{2000}' <= c <= '\U{200A}')
    || c == '\U{2028}' || c == '\U{2029}' || c == '\U{202F}' || c == '\U{205F}'
    || c == '\U{3000}' || c == '\U{FEFF}'
  }

  function TrimStart(s: string): (r: string)
    ensures |r| <= |s| && r == s[|s| - |r|..]
    ensures |r| > 0 ==> !IsWhiteSpace(r[0])
    ensures forall i :: 0 <= i < |s| - |r| ==> IsWhiteSpace(s[i])
  {
    if |s| > 0 && IsWhiteSpace(s[0]) then TrimStart(s[1..]) else s
  }

  predicate IsDigit(c: char) { '0' <= c <= '9' }

  predicate AllDigits(d: string) { forall i :: 0 <= i < |d| ==> IsDigit(d[i]) }

  function DigitValue(c: char): nat
    requires IsDigit(c)
  {
    c as int - '0' as int
  }

  function DigitChar(d: nat): (c: char)
    requires d < 10
    ensures IsDigit(c) && DigitValue(c) == d
  {
    ('0' as int + d) as char
  }

  /** The length of the run of decimal digits at the front of `s`. */
  function DigitRun(s: string): (k: nat)
    ensures k <= |s|
    ensures AllDigits(s[..k])
    ensures k < |s| ==> !IsDigit(s[k])
  {
    if |s| > 0 && IsDigit(s[0]) then 1 + DigitRun(s[1..]) else 0
  }

  /** The number a string of decimal digits denotes, most significant digit first. */
  function DigitsValue(d: string): nat
    requires AllDigits(d)
  {
    if d == [] then 0 else 10 * DigitsValue(d[..|d| - 1]) + DigitValue(d[|d| - 1])
  }

  /** What follows an optional leading sign. */
  function Unsigned(t: string): string {
    if |t| > 0 && (t[0] == '-' || t[0] == '+') then t[1..] else t
  }

  /**
   * `parseInt(s, 10)`: skip leading white space, take an optional sign, then the longest
   * run of decimal digits; `None` (NaN) when that run is empty. Trailing text is ignored.
   */
  function ParseInt10(s: string): (r: Option<int>)
    ensures r.None? <==> DigitRun(Unsigned(TrimStart(s))) == 0
    ensures r.Some? ==> var t := TrimStart(s); var b := Unsigned(t);
              r.value == (if |t| > 0 && t[0] == '-' then -1 else 1) * DigitsValue(b[..DigitRun(b)])
  {
    var t := TrimStart(s);
    var body := Unsigned(t);
    var k := DigitRun(body);
    if k == 0 then None
    else
      var v: int := DigitsValue(body[..k]);
      Some(if |t| > 0 && t[0] == '-' then -v else v)
  }

  /** The decimal digits of a natural number, without leading zeros. */
  function NatDecimal(n: nat): (r: string)
    ensures |r| > 0 && AllDigits(r)
    ensures |r| > 1 ==> r[0] != '0'
  {
    if n < 10 then [DigitChar(n)] else NatDecimal(n / 10) + [DigitChar(n % 10)]
  }

  /** `${n}` for an integer `n`: a minus sign for negatives, then the decimal digits. */
  function Decimal(n: int): (r: string)
    ensures |r| > 0
    ensures r[0] == '-' <==> n < 0
    ensures n < 0 ==> AllDigits(r[1..])
    ensures n >= 0 ==> AllDigits(r)
  {
    if n < 0 then "-" + NatDecimal(-n) else NatDecimal(n)
  }

  lemma {:induction false} NatDecimalValue(n: nat)
    ensures DigitsValue(NatDecimal(n)) == n
  {
    if n >= 10 {
      var r := NatDecimal(n);
      assert r[..|r| - 1] == NatDecimal(n / 10);
      NatDecimalValue(n / 10);
    }
  }

  lemma DigitRunOfDigits(d: string)
    requires AllDigits(d)
    ensures DigitRun(d) == |d|
  {
    if |d| > 0 {
      assert AllDigits(d[1..]);
      DigitRunOfDigits(d[1..]);
    }
  }

  /** A number rendered as text parses back to itself: the round trip of `${n}` through `parseInt`. */
  lemma ParseDecimal(n: int)
    ensures ParseInt10(Decimal(n)) == Some(n)
  {
    var s := Decimal(n);
    assert !IsWhiteSpace(s[0]);
    assert TrimStart(s) == s;
    var m := if n < 0 then -n else n;
    assert Unsigned(s) == NatDecimal(m);
    DigitRunOfDigits(NatDecimal(m));
    assert NatDecimal(m)[..|NatDecimal(m)|] == NatDecimal(m);
    NatDecimalValue(m);
  }

  function HexDigit(d: nat): char
    requires d < 16
  {
    "0123456789ABCDEF"[d]
  }

  predicate IsHexDigit(c: char) { ('0' <= c <= '9') || ('A' <= c <= 'F') }

  function HexDigitValue(c: char): nat
    requires IsHexDigit(c)
  {
    if '0' <= c <= '9' then c as int - '0' as int else c as int - 'A' as int + 10
  }

  /** `n.toString(16).toUpperCase()`: upper-case hexadecimal digits without leading zeros. */
  function HexUpper(n: nat): (r: string)
    ensures |r| > 0
    ensures forall i :: 0 <= i < |r| ==> IsHexDigit(r[i])
    ensures n < 16 <==> |r| == 1
  {
    if n < 16 then [HexDigit(n)] else HexUpper(n / 16) + [HexDigit(n % 16)]
  }

  /** The number a string of hexadecimal digits denotes. */
  function HexValue(s: string): nat
    requires forall i :: 0 <= i < |s| ==> IsHexDigit(s[i])
  {
    if s == [] then 0 else 16 * HexValue(s[..|s| - 1]) + HexDigitValue(s[|s| - 1])
  }

  lemma {:induction false} HexUpperValue(n: nat)
    ensures HexValue(HexUpper(n)) == n
    ensures n < 0x1_0000 ==> |HexUpper(n)| <= 4
  {
    var r := HexUpper(n);
    if n >= 16 {
      assert r[..|r| - 1] == HexUpper(n / 16);
      HexUpperValue(n / 16);
      assert HexDigitValue(HexDigit(n % 16)) == n % 16;
    } else {
      assert HexDigitValue(HexDigit(n)) == n;
    }
  }

  /** `s.padStart(len, fill)`: prefix copies of `fill` until the length reaches `len`. */
  function PadStart(s: string, len: nat, fill: char): (r: string)
    ensures |r| == if |s| >= len then |s| else len
    ensures r[|r| - |s|..] == s
    ensures forall i :: 0 <= i < |r| - |s| ==> r[i] == fill
  {
    if |s| >= len then s else seq(len - |s|, _ => fill) + s
  }

  /** Leading zeros do not change the value of a hexadecimal numeral. */
  lemma {:induction false} HexLeadingZero(s: string)
    requires forall i :: 0 <= i < |s| ==> IsHexDigit(s[i])
    ensures HexValue("0" + s) == HexValue(s)
    decreases |s|
  {
    if s != [] {
      var z := "0" + s;
      assert z[..|z| - 1] == "0" + s[..|s| - 1];
      HexLeadingZero(s[..|s| - 1]);
    }
  }

  lemma {:induction false} HexPadValue(s: string, len: nat)
    requires forall i :: 0 <= i < |s| ==> IsHexDigit(s[i])
    ensures forall i :: 0 <= i < |PadStart(s, len, '0')| ==> IsHexDigit(PadStart(s, len, '0')[i])
    ensures HexValue(PadStart(s, len, '0')) == HexValue(s)
    decreases len - |s|
  {
    if |s| < len {
      var p := "0" + s;
      HexPadValue(p, len);
      assert PadStart(p, len, '0') == PadStart(s, len, '0');
      HexLeadingZero(s);
    }
  }

  /** `s.startsWith(p)`. */
  predicate StartsWith(s: string, p: string)
    ensures StartsWith(s, p) <==> |p| <= |s| && forall i :: 0 <= i < |p| ==> s[i] == p[i]
  {
    |p| <= |s| && s[..|p|] == p
  }

  /** `s.split(sep)` for a one-character separator: the pieces between separators. */
  function Split(s: string, sep: char): (r: seq<string>)
    ensures |r| >= 1
    ensures forall i, j :: 0 <= i < |r| && 0 <= j < |r[i]| ==> r[i][j] != sep
  {
    if s == [] then [""]
    else
      var rest := Split(s[1..], sep);
      if s[0] == sep then [""] + rest else [[s[0]] + rest[0]] + rest[1..]
  }

  /** `parts.join(sep)`. */
  function Join(parts: seq<string>, sep: char): string
    requires |parts| >= 1
  {
    if |parts| == 1 then parts[0] else parts[0] + [sep] + Join(parts[1..], sep)
  }

  /** Joining the pieces of a split with the same separator gives the string back. */
  lemma {:induction false} SplitJoin(s: string, sep: char)
    ensures Join(Split(s, sep), sep) == s
  {
    if s != [] {
      var rest := Split(s[1..], sep);
      SplitJoin(s[1..], sep);
      if s[0] != sep {
        if |rest| == 1 {
          assert Split(s, sep) == [[s[0]] + rest[0]];
        } else {
          var r := Split(s, sep);
          assert r[1..] == rest[1..];
          assert Join(rest, sep) == rest[0] + [sep] + Join(rest[1..], sep);
          assert Join(r, sep) == ([s[0]] + rest[0]) + [sep] + Join(rest[1..], sep);
        }
      }
    }
  }

  /** Joining two non-empty lists of pieces puts one separator between their joins. */
  lemma {:induction false} JoinAppend(p: seq<string>, q: seq<string>, sep: char)
    requires |p| >= 1 && |q| >= 1
    decreases |p|
    ensures Join(p + q, sep) == Join(p, sep) + [sep] + Join(q, sep)
  {
    assert (p + q)[0] == p[0];
    if |p| > 1 {
      assert (p + q)[1..] == p[1..] + q;
      JoinAppend(p[1..], q, sep);
    } else {
      assert (p + q)[1..] == q;
    }
  }

  /** A string without a separator is a single piece. */
  lemma {:induction false} SplitWithoutSeparator(s: string, sep: char)
    requires forall j :: 0 <= j < |s| ==> s[j] != sep
    ensures Split(s, sep) == [s]
  {
    if s != [] {
      SplitWithoutSeparator(s[1..], sep);
      assert [s[0]] + s[1..] == s;
    }
  }
}
