/** Numbers in positional notation: what the printers write and the parsers read back. */
module Numerals {

  const U64_MAX: nat := 0xFFFF_FFFF_FFFF_FFFF

  type Base = b: nat | b == 2 || b == 8 || b == 10 || b == 16 witness 2

  function Pow(b: nat, e: nat): nat {
    if e == 0 then 1 else b * Pow(b, e - 1)
  }

  predicate IsDigits(ds: seq<nat>, base: nat) {
    forall d | d in ds :: d < base
  }

  lemma PrefixDigits(ds: seq<nat>, n: nat, base: nat)
    requires IsDigits(ds, base) && n <= |ds|
    ensures IsDigits(ds[..n], base) && IsDigits(ds[n..], base)
  {
    forall d | d in ds[..n] || d in ds[n..] ensures d < base { assert d in ds; }
  }

  /** The number that digits denote, the most significant one first. */
  function FromDigits(ds: seq<nat>, base: nat): nat {
    if ds == [] then 0 else FromDigits(ds[..|ds| - 1], base) * base + ds[|ds| - 1]
  }

  /** The digits of a number without leading zeroes. */
  function ToDigits(n: nat, base: Base): (ds: seq<nat>)
    ensures |ds| >= 1
  {
    if n < base then [n] else ToDigits(n / base, base) + [n % base]
  }

  lemma {:induction false} ToDigitsAreDigits(n: nat, base: Base)
    ensures IsDigits(ToDigits(n, base), base)
  {
    if n >= base { ToDigitsAreDigits(n / base, base); }
  }

  /** Reading the digits of a number gives the number. */
  lemma {:induction false} FromToDigits(n: nat, base: Base)
    ensures FromDigits(ToDigits(n, base), base) == n
  {
    if n < base {
      assert FromDigits([n], base) == FromDigits([], base) * base + n;
    } else {
      FromToDigits(n / base, base);
      var ds := ToDigits(n / base, base);
      assert (ds + [n % base])[..|ds|] == ds;
      DivModOf(n, base);
    }
  }

  lemma DivModOf(n: nat, b: Base)
    ensures n == n / b * b + n % b
  {
    if b == 2 {} else if b == 8 {} else if b == 10 {} else {}
  }

  lemma {:induction false} NoLeadingZero(n: nat, base: Base)
    ensures n > 0 ==> ToDigits(n, base)[0] > 0
    ensures n == 0 ==> ToDigits(n, base) == [0]
  {
    if n >= base { NoLeadingZero(n / base, base); }
  }

  /** A number has at most `k` digits exactly if it is below the `k`-th power of the base. */
  lemma {:induction false} DigitCount(n: nat, base: Base, k: nat)
    requires k >= 1
    ensures |ToDigits(n, base)| <= k <==> n < Pow(base, k)
    decreases k
  {
    if n < base {
      PowAtLeast(base, k);
    } else if k == 1 {
      assert Pow(base, 1) == base * Pow(base, 0);
    } else {
      DigitCount(n / base, base, k - 1);
      DivBelow(n, base, Pow(base, k - 1));
    }
  }

  lemma DivBelow(n: nat, b: Base, p: nat)
    ensures n / b < p <==> n < b * p
  {
    DivModOf(n, b);
    if n / b < p {
      assert (n / b + 1) * b <= p * b;
    } else {
      assert p * b <= n / b * b;
    }
  }

  lemma {:induction false} PowAtLeast(b: nat, k: nat)
    requires b >= 2 && k >= 1
    ensures Pow(b, k) >= b
  {
    if k > 1 {
      PowAtLeast(b, k - 1);
      assert b * Pow(b, k - 1) >= b * 1;
    }
  }

  lemma {:induction false} FromDigitsBound(ds: seq<nat>, base: Base)
    requires IsDigits(ds, base)
    ensures FromDigits(ds, base) < Pow(base, |ds|)
  {
    if ds != [] {
      var n := |ds| - 1;
      PrefixDigits(ds, n, base);
      FromDigitsBound(ds[..n], base);
      assert ds[n] in ds;
      BelowNext(FromDigits(ds[..n], base), ds[n], base, Pow(base, n));
    }
  }

  lemma BelowNext(v: nat, d: nat, b: nat, p: nat)
    requires v < p && d < b
    ensures v * b + d < b * p
  {
    assert (v + 1) * b <= p * b;
  }

  /** Leading zeroes do not count. */
  lemma {:induction false} LeadingZeros(zs: seq<nat>, ds: seq<nat>, base: nat)
    requires IsDigits(zs, 1)
    ensures FromDigits(zs + ds, base) == FromDigits(ds, base)
    decreases |ds|, |zs|
  {
    if ds != [] {
      assert (zs + ds)[..|zs + ds| - 1] == zs + ds[..|ds| - 1];
      LeadingZeros(zs, ds[..|ds| - 1], base);
    } else if zs != [] {
      assert zs + ds == zs && zs[..|zs| - 1] + [] == zs[..|zs| - 1];
      assert zs[|zs| - 1] in zs;
      PrefixDigits(zs, |zs| - 1, 1);
      LeadingZeros(zs[..|zs| - 1], [], base);
    }
  }

  /** Digits without a leading zero are the digits of the number they denote. */
  lemma {:induction false} ToFromDigits(ds: seq<nat>, base: Base)
    requires IsDigits(ds, base) && ds != [] && (|ds| > 1 ==> ds[0] > 0)
    ensures ToDigits(FromDigits(ds, base), base) == ds
  {
    var n := |ds| - 1;
    assert ds[n] in ds;
    if n == 0 {
      assert ds[..0] == [] && FromDigits(ds, base) == ds[0] && ds == [ds[0]];
    } else {
      assert ds[0] == ds[..n][0];
      PrefixDigits(ds, n, base);
      ToFromDigits(ds[..n], base);
      var v := FromDigits(ds[..n], base);
      if v == 0 { NoLeadingZero(v, base); }
      assert v >= 1;
      DivMod(v, base, ds[n]);
      assert ds == ds[..n] + [ds[n]];
    }
  }

  lemma DivMod(q: nat, b: Base, r: nat)
    requires r < b && q >= 1
    ensures (q * b + r) / b == q && (q * b + r) % b == r && q * b + r >= b
  {
    if b == 2 {} else if b == 8 {} else if b == 10 {} else {}
  }

  // ---------------------------------------------------------------- characters

  /** The character of a digit; letters are printed in upper case. */
  function DigitChar(d: nat): (c: char)
    requires d < 16
  {
    if d < 10 then '0' + d as char else 'A' + (d - 10) as char
  }

  predicate IsDigitChar(c: char, base: Base) {
    || ('0' <= c <= '9' && (c - '0') as nat < base)
    || (base == 16 && ('a' <= c <= 'f' || 'A' <= c <= 'F'))
  }

  /** `hex_to_dec`, which reads decimal digits as well. */
  function DigitValue(c: char): nat
    requires IsDigitChar(c, 16)
  {
    if c <= '9' then (c - '0') as nat
    else if c <= 'F' then 10 + (c - 'A') as nat
    else 10 + (c - 'a') as nat
  }

  lemma CharOfDigit(d: nat, base: Base)
    requires d < base
    ensures IsDigitChar(DigitChar(d), base) && IsDigitChar(DigitChar(d), 16) && DigitValue(DigitChar(d)) == d
  {
    if d < 10 {
      assert (DigitChar(d) - '0') as nat == d;
    } else {
      assert base == 16 && 'A' <= DigitChar(d) <= 'F' && (DigitChar(d) - 'A') as nat == d - 10;
    }
  }

  function DigitChars(ds: seq<nat>): (s: string)
    requires IsDigits(ds, 16)
    ensures |s| == |ds|
  {
    seq(|ds|, i requires 0 <= i < |ds| => assert ds[i] in ds; DigitChar(ds[i]))
  }

  predicate AllDigitChars(s: string, base: Base) {
    forall c | c in s :: IsDigitChar(c, base)
  }

  function DigitValues(s: string): (ds: seq<nat>)
    requires AllDigitChars(s, 16)
    ensures |ds| == |s|
  {
    seq(|s|, i requires 0 <= i < |s| => assert s[i] in s; DigitValue(s[i]))
  }

  lemma HexDigits(s: string, base: Base)
    requires AllDigitChars(s, base)
    ensures AllDigitChars(s, 16) && IsDigits(DigitValues(s), base)
  {
    assert AllDigitChars(s, 16);
    forall i | 0 <= i < |s| ensures DigitValues(s)[i] < base { assert s[i] in s; }
  }

  lemma CharsOfDigits(ds: seq<nat>, base: Base)
    requires IsDigits(ds, base)
    ensures IsDigits(ds, 16) && AllDigitChars(DigitChars(ds), base) && AllDigitChars(DigitChars(ds), 16)
    ensures DigitValues(DigitChars(ds)) == ds
  {
    assert IsDigits(ds, 16);
    forall i | 0 <= i < |ds| ensures IsDigitChar(DigitChars(ds)[i], base) && DigitValue(DigitChars(ds)[i]) == ds[i] {
      assert ds[i] in ds;
      CharOfDigit(ds[i], base);
    }
  }

  /** `std::to_chars` of a natural number. */
  function ToText(n: nat, base: Base): (s: string)
    ensures |s| >= 1
  {
    ToDigitsAreDigits(n, base);
    CharsOfDigits(ToDigits(n, base), base);
    DigitChars(ToDigits(n, base))
  }

  /** The number that a text of digits denotes. */
  function FromText(s: string, base: Base): nat
    requires AllDigitChars(s, base)
  {
    HexDigits(s, base);
    FromDigits(DigitValues(s), base)
  }

  lemma TextRoundTrip(n: nat, base: Base)
    ensures AllDigitChars(ToText(n, base), base) && FromText(ToText(n, base), base) == n
  {
    ToDigitsAreDigits(n, base);
    CharsOfDigits(ToDigits(n, base), base);
    FromToDigits(n, base);
  }

  // ---------------------------------------------------------------- numbers of a fixed width

  function Zeros(n: nat): (s: string)
    ensures |s| == n && forall c | c in s :: c == '0'
  {
    seq(n, _ => '0')
  }

  /** `print_integer_to_stream` with a minimum number of digits. */
  function Padded(v: nat, width: nat, base: Base): string {
    (if |ToText(v, base)| < width then Zeros(width - |ToText(v, base)|) else "") + ToText(v, base)
  }

  method PrintPadded(v: nat, width: nat, base: Base) returns (os: string)
    requires width >= 1
    ensures os == Padded(v, width, base)
  {
    os := "";
    if v == 0 {
      for i := 0 to width
        invariant os == Zeros(i)
      {
        os := os + ['0'];
      }
      NoLeadingZero(0, base);
      assert ToText(0, base) == "0";
      assert Zeros(width) == Zeros(width - 1) + "0";
      if width == 1 { assert Zeros(0) == ""; }
      return;
    }
    var digits := ToText(v, base);
    for i := |digits| to (if width < |digits| then |digits| else width)
      invariant os == Zeros(i - |digits|)
    {
      os := os + ['0'];
    }
    os := os + digits;
  }

  lemma ZerosAreDigits(n: nat, base: Base)
    ensures AllDigitChars(Zeros(n), base) && AllDigitChars(Zeros(n), 16) && IsDigits(DigitValues(Zeros(n)), 1)
  {
    assert DigitValues(Zeros(n)) == seq(n, i => 0);
  }

  /** A padded number has the width it is padded to and still denotes the number. */
  lemma PaddedText(v: nat, width: nat, base: Base)
    requires width >= 1 && v < Pow(base, width)
    ensures |Padded(v, width, base)| == width && AllDigitChars(Padded(v, width, base), base)
    ensures FromText(Padded(v, width, base), base) == v
  {
    DigitCount(v, base, width);
    TextRoundTrip(v, base);
    var ds := ToText(v, base);
    var zs := Zeros(width - |ds|);
    assert Padded(v, width, base) == zs + ds;
    ZerosAreDigits(|zs|, base);
    HexDigits(ds, base);
    hide ToText, Pow, FromDigits, IsDigits;
    assert AllDigitChars(zs + ds, base);
    HexDigits(zs + ds, base);
    assert DigitValues(zs + ds) == DigitValues(zs) + DigitValues(ds);
    LeadingZeros(DigitValues(zs), DigitValues(ds), base);
  }
}
