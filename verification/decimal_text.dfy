/**
 * Decimal text shared by both sides of the protocol: ASCII digits, the
 * canonical and zero-padded renderings Go's `fmt` produces (`%d`, `%02d`,
 * `%04d`), Go's `strconv.ParseInt(s, 10, 64)` / `strconv.Atoi`, and C++'s
 * `std::stoi`. Characters stand for bytes throughout the model.
 */
module DecimalText {
  import opened Wrappers

  const INT64_MAX: int := 0x7FFF_FFFF_FFFF_FFFF
  const INT64_MIN: int := -0x8000_0000_0000_0000
  const INT32_MAX: int := 0x7FFF_FFFF
  const INT32_MIN: int := -0x8000_0000

  /** Go's `int` on a 64-bit target. */
  type Int64 = x: int | INT64_MIN <= x <= INT64_MAX

  predicate IsDigit(c: char) {
    '0' <= c <= '9'
  }

  function DigitValue(c: char): (d: nat)
    requires IsDigit(c)
    ensures d < 10
  {
    c as int - '0' as int
  }

  function DigitChar(d: nat): (c: char)
    requires d < 10
    ensures IsDigit(c) && DigitValue(c) == d
  {
    ('0' as int + d) as char
  }

  predicate AllDigits(s: string) {
    forall i | 0 <= i < |s| :: IsDigit(s[i])
  }

  /** The value of a digit string, accumulated left to right as `v = v*10 + d`. */
  function DigitsValue(s: string): nat
    requires AllDigits(s)
  {
    if |s| == 0 then 0 else DigitsValue(s[..|s| - 1]) * 10 + DigitValue(s[|s| - 1])
  }

  function Pow10(k: nat): (p: nat)
    ensures p >= 1
  {
    if k == 0 then 1 else 10 * Pow10(k - 1)
  }

  /** A string of `k` digits denotes a value below `10^k`. */
  lemma {:induction false} DigitsValueBound(s: string)
    requires AllDigits(s)
    ensures DigitsValue(s) < Pow10(|s|)
  {
    if |s| > 0 {
      DigitsValueBound(s[..|s| - 1]);
    }
  }

  lemma {:induction false} Pow10Add(i: nat, j: nat)
    ensures Pow10(i + j) == Pow10(i) * Pow10(j)
  {
    if i > 0 {
      Pow10Add(i - 1, j);
    }
  }

  /** A natural below `10^k` has at most `k` digits. */
  lemma {:induction false} NumDigitsAtMost(n: nat, k: nat)
    requires n < Pow10(k) && k >= 1
    ensures NumDigits(n) <= k
  {
    if n >= 10 && k > 1 {
      NumDigitsAtMost(n / 10, k - 1);
    }
  }

  /** Go's `%d` of a 64-bit value is at most 20 characters long. */
  lemma Int64DecimalLength(n: Int64)
    ensures DecimalLength(n) <= 20
  {
    assert Pow10(3) == 1000 && Pow10(4) == 10000;
    Pow10Add(4, 4);
    Pow10Add(8, 8);
    Pow10Add(16, 3);
    var m: int := n;
    NumDigitsAtMost(if m < 0 then -m else m, 19);
  }

  /** The value of a two-digit string. */
  lemma DigitsValue2(s: string)
    requires |s| == 2 && AllDigits(s)
    ensures DigitsValue(s) == 10 * DigitValue(s[0]) + DigitValue(s[1])
  {
    var p := s[..1];
    assert p[..0] == [] && p[0] == s[0];
    assert DigitsValue(p) == DigitValue(s[0]);
  }

  /** The value of a four-digit string. */
  lemma DigitsValue4(s: string)
    requires |s| == 4 && AllDigits(s)
    ensures DigitsValue(s) == 1000 * DigitValue(s[0]) + 100 * DigitValue(s[1]) + 10 * DigitValue(s[2]) + DigitValue(s[3])
  {
    assert s[..3][..2] == s[..2];
    DigitsValue2(s[..2]);
  }

  function Zeros(k: nat): (z: string)
    ensures |z| == k && AllDigits(z)
    ensures forall i | 0 <= i < k :: z[i] == '0'
  {
    seq(k, _ => '0')
  }

  /** Leading zeros do not change the value of a digit string. */
  lemma {:induction false} LeadingZerosValue(k: nat, s: string)
    requires AllDigits(s)
    ensures AllDigits(Zeros(k) + s)
    ensures DigitsValue(Zeros(k) + s) == DigitsValue(s)
  {
    var t := Zeros(k) + s;
    if |s| == 0 {
      assert t == Zeros(k);
      ZerosValue(k);
    } else {
      var s' := s[..|s| - 1];
      assert t[..|t| - 1] == Zeros(k) + s';
      LeadingZerosValue(k, s');
    }
  }

  lemma {:induction false} ZerosValue(k: nat)
    ensures DigitsValue(Zeros(k)) == 0
  {
    if k > 0 {
      assert Zeros(k)[..k - 1] == Zeros(k - 1);
      ZerosValue(k - 1);
    }
  }

  /** Number of decimal digits of `n`, computed with integers only. */
  function NumDigits(n: nat): (k: nat)
    ensures k >= 1
  {
    if n < 10 then 1 else 1 + NumDigits(n / 10)
  }

  /** `NumDigits(n)` is `floor(log10(n)) + 1`: the unique `k` with `10^(k-1) <= n < 10^k`. */
  lemma {:induction false} NumDigitsBounds(n: nat)
    requires n >= 1
    ensures Pow10(NumDigits(n) - 1) <= n < Pow10(NumDigits(n))
  {
    if n >= 10 {
      NumDigitsBounds(n / 10);
    }
  }

  /** Canonical decimal rendering of a natural number (Go's `%d`). */
  function NatDigits(n: nat): (s: string)
    ensures |s| == NumDigits(n) && AllDigits(s)
    ensures DigitsValue(s) == n
    ensures s[0] == '0' ==> n == 0
  {
    if n < 10 then
      [DigitChar(n)]
    else
      var p := NatDigits(n / 10);
      var s := p + [DigitChar(n % 10)];
      assert s[..|s| - 1] == p;
      s
  }

  /** Go's `%0wd` for a natural number: zero-padded on the left to at least `width` digits. */
  function ZeroPad(n: nat, width: nat): (s: string)
    ensures |s| == if NumDigits(n) >= width then NumDigits(n) else width
    ensures AllDigits(s) && DigitsValue(s) == n
  {
    var d := NatDigits(n);
    if |d| >= width then d
    else
      LeadingZerosValue(width - |d|, d);
      Zeros(width - |d|) + d
  }

  /** Go's `%0wd` for any int: the sign counts towards the width. */
  function GoPadded(n: int, width: nat): string {
    if n < 0 then "-" + ZeroPad(-n, if width >= 1 then width - 1 else 0)
    else ZeroPad(n, width)
  }

  /** Go's `%d`. */
  function GoItoa(n: int): string {
    GoPadded(n, 0)
  }

  /** Length of Go's `%d` rendering: digits of `|n|`, plus one for a minus sign. */
  function DecimalLength(n: int): (k: nat)
    ensures k == |GoItoa(n)|
  {
    if n < 0 then NumDigits(-n) + 1 else NumDigits(n)
  }

  /**
   * Go's `strconv.ParseInt(s, 10, 64)` (and `strconv.Atoi` on a 64-bit
   * target): an optional sign, at least one digit and nothing else; values
   * outside the 64-bit range are errors.
   */
  function ParseInt64(s: string): (r: Option<Int64>)
    ensures r.Some? ==> |s| >= 1
  {
    if |s| == 0 then None
    else
      var neg := s[0] == '-';
      var body := if s[0] == '-' || s[0] == '+' then s[1..] else s;
      if |body| == 0 || !AllDigits(body) then None
      else
        var v: int := DigitsValue(body);
        if neg then (if v > -INT64_MIN then None else Some(-v))
        else (if v > INT64_MAX then None else Some(v))
  }

  /** `ParseInt64` accepts exactly a signed digit string whose value fits in 64 bits. */
  lemma ParseInt64Accepts(s: string)
    ensures ParseInt64(s).Some? <==>
      (exists k: nat | k <= 1 && k < |s| ::
         (k == 1 <==> (s[0] == '-' || s[0] == '+')) && AllDigits(s[k..]) &&
         (if s[0] == '-' then DigitsValue(s[k..]) <= -INT64_MIN else DigitsValue(s[k..]) <= INT64_MAX))
  {
    if ParseInt64(s).Some? {
      var k := if s[0] == '-' || s[0] == '+' then 1 else 0;
      assert s[k..] == (if k == 1 then s[1..] else s);
    }
  }

  /** Go's `strconv.ParseInt` inverts Go's `%d` on 64-bit values. */
  lemma ParseItoaRoundTrip(n: Int64)
    ensures ParseInt64(GoItoa(n)) == Some(n)
  {
    var m: int := n;
    var s := GoItoa(m);
    if m < 0 {
      var d := NatDigits(-m);
      assert ZeroPad(-m, 0) == d;
      assert s == "-" + d;
      assert s[1..] == d;
      assert s[0] == '-';
      assert DigitsValue(d) == -m;
    } else {
      var d := NatDigits(m);
      assert ZeroPad(m, 0) == d;
      assert s == d;
      assert IsDigit(s[0]);
      assert DigitsValue(d) == m;
    }
  }

  const UINT64_MAX: int := 0xFFFF_FFFF_FFFF_FFFF

  /** What is left of a string once its sign, if any, is dropped. */
  function Unsigned(s: string): (u: string)
    ensures |u| <= |s|
  {
    if |s| > 0 && (s[0] == '-' || s[0] == '+') then s[1..] else s
  }

  /** How the digit loop of `strconv.ParseUint(s, 10, 64)` ends. */
  datatype UintScan = SyntaxError | RangeError | UintValue(n: nat)

  /**
   * `ParseUint`'s loop from the value `n` read so far: it stops at the first
   * byte that is not a digit (a syntax error) or at the first digit that
   * takes the value past 64 bits (a range error), whichever comes first.
   */
  function ScanUint(s: string, n: nat): (r: UintScan)
    requires n <= UINT64_MAX
    ensures r.UintValue? ==> r.n <= UINT64_MAX
    decreases |s|
  {
    if |s| == 0 then UintValue(n)
    else if !IsDigit(s[0]) then SyntaxError
    else if n * 10 + DigitValue(s[0]) > UINT64_MAX then RangeError
    else ScanUint(s[1..], n * 10 + DigitValue(s[0]))
  }

  /** The value of `n` followed by the digits of `t`. */
  function Shifted(n: nat, t: string): nat
    requires AllDigits(t)
  {
    n * Pow10(|t|) + DigitsValue(t)
  }

  /** A digit string's value, split after its first digit. */
  lemma {:induction false} DigitsValueFront(t: string)
    requires |t| > 0 && AllDigits(t)
    ensures DigitsValue(t) == DigitValue(t[0]) * Pow10(|t| - 1) + DigitsValue(t[1..])
  {
    if |t| > 1 {
      var p, q := t[..|t| - 1], t[1..];
      var d, e := DigitValue(t[0]), DigitValue(t[|t| - 1]);
      DigitsValueFront(p);
      assert p[1..] == q[..|q| - 1] && q[|q| - 1] == t[|t| - 1];
      ShiftDigit(d, Pow10(|p| - 1), DigitsValue(p[1..]), e);
    } else {
      assert t[..0] == [] && t[1..] == [];
    }
  }

  /** Reading the first digit of `t` moves it from `t` into the value read so far. */
  lemma ShiftedFront(n: nat, t: string)
    requires |t| > 0 && AllDigits(t)
    ensures Shifted(n, t) == Shifted(n * 10 + DigitValue(t[0]), t[1..])
  {
    var p := Pow10(|t| - 1);
    DigitsValueFront(t);
    Pow10Add(1, |t| - 1);
    assert Pow10(|t|) == 10 * p;
    assert n * (10 * p) == (n * 10) * p;
    assert (n * 10 + DigitValue(t[0])) * p == (n * 10) * p + DigitValue(t[0]) * p;
  }

  lemma ShiftedAtLeast(n: nat, t: string)
    requires AllDigits(t)
    ensures Shifted(n, t) >= n
  {
    assert n * Pow10(|t|) >= n * 1;
  }

  lemma ShiftDigit(d: int, p: int, x: int, e: int)
    ensures (d * p + x) * 10 + e == d * (10 * p) + (x * 10 + e)
  {
  }

  /**
   * Over `j` leading digits the loop either carries their value on, or
   * stops with a range error when that value does not fit in 64 bits.
   */
  lemma {:induction false} ScanDigitPrefix(s: string, n: nat, j: nat)
    requires n <= UINT64_MAX && j <= |s| && AllDigits(s[..j])
    ensures Shifted(n, s[..j]) <= UINT64_MAX ==> ScanUint(s, n) == ScanUint(s[j..], Shifted(n, s[..j]))
    ensures Shifted(n, s[..j]) > UINT64_MAX ==> ScanUint(s, n) == RangeError
  {
    if j == 0 {
      assert s[..0] == [] && s[0..] == s;
    } else {
      var n1 := n * 10 + DigitValue(s[0]);
      ShiftedFront(n, s[..j]);
      assert s[..j][1..] == s[1..][..j - 1];
      if n1 > UINT64_MAX {
        ShiftedAtLeast(n1, s[1..][..j - 1]);
      } else {
        ScanDigitPrefix(s[1..], n1, j - 1);
        assert s[1..][j - 1..] == s[j..];
      }
    }
  }

  /** A whole digit string is read to its value, or is a range error when it does not fit in 64 bits. */
  lemma ScanAllDigits(s: string)
    ensures AllDigits(s) && DigitsValue(s) <= UINT64_MAX ==> ScanUint(s, 0) == UintValue(DigitsValue(s))
    ensures AllDigits(s) && DigitsValue(s) > UINT64_MAX ==> ScanUint(s, 0) == RangeError
  {
    if AllDigits(s) {
      assert s[..|s|] == s && s[|s|..] == [];
      ScanDigitPrefix(s, 0, |s|);
    }
  }

  /**
   * `v, _ := strconv.Atoi(s)` on a 64-bit target, the error dropped: the
   * value when it parses; the nearest 64-bit bound, with the sign of `s`,
   * when the digits run past 64 bits; zero on a syntax error.
   */
  function GoAtoi(s: string): (v: Int64)
    ensures ParseInt64(s).Some? ==> v == ParseInt64(s).value
    ensures ParseInt64(s).None? && |Unsigned(s)| > 0 && AllDigits(Unsigned(s)) ==>
      v == (if s[0] == '-' then INT64_MIN else INT64_MAX)
    ensures |Unsigned(s)| == 0 ==> v == 0
  {
    var u := Unsigned(s);
    if |u| == 0 then 0
    else
      var neg := s[0] == '-';
      ScanAllDigits(u);
      match ScanUint(u, 0)
      case SyntaxError => 0
      case RangeError => if neg then INT64_MIN else INT64_MAX
      case UintValue(m) =>
        var k: int := m;
        if neg then (if k > -INT64_MIN then INT64_MIN else -k)
        else (if k > INT64_MAX then INT64_MAX else k)
  }

  /**
   * Where the first non-digit comes before the digits overflow, `Atoi`
   * fails with a syntax error and gives zero; where the digits before it
   * already overflow, the range error wins and the bound is returned.
   */
  lemma AtoiFirstStop(s: string, j: nat)
    requires j < |Unsigned(s)| && AllDigits(Unsigned(s)[..j]) && !IsDigit(Unsigned(s)[j])
    ensures DigitsValue(Unsigned(s)[..j]) <= UINT64_MAX ==> GoAtoi(s) == 0
    ensures DigitsValue(Unsigned(s)[..j]) > UINT64_MAX ==> GoAtoi(s) == (if s[0] == '-' then INT64_MIN else INT64_MAX)
  {
    var u := Unsigned(s);
    ScanDigitPrefix(u, 0, j);
    assert u[j..][0] == u[j];
  }

  /** C's `isspace` in the "C" locale. */
  predicate IsCSpace(c: char) {
    c == ' ' || c == '\t' || c == '\n' || c == '\r' || c as int == 11 || c as int == 12
  }

  function DropSpaces(s: string): (t: string)
    ensures |t| <= |s| && t == s[|s| - |t|..]
    ensures |t| > 0 ==> !IsCSpace(t[0])
  {
    if |s| > 0 && IsCSpace(s[0]) then DropSpaces(s[1..]) else s
  }

  /** The longest all-digit prefix of `s`. */
  function LeadingDigits(s: string): (d: string)
    ensures d <= s && AllDigits(d)
    ensures |d| < |s| ==> !IsDigit(s[|d|])
  {
    if |s| > 0 && IsDigit(s[0]) then [s[0]] + LeadingDigits(s[1..]) else []
  }

  /**
   * C++'s `std::stoi` (base 10): skips leading white space, takes an
   * optional sign and the longest run of digits, ignores the rest. `None`
   * stands for the thrown `invalid_argument` (no digits) or `out_of_range`.
   */
  function CStoi(s: string): (r: Option<int>)
    ensures r.Some? ==> INT32_MIN <= r.value <= INT32_MAX
  {
    var t := DropSpaces(s);
    var neg := |t| > 0 && t[0] == '-';
    var body := if |t| > 0 && (t[0] == '-' || t[0] == '+') then t[1..] else t;
    var digits := LeadingDigits(body);
    if |digits| == 0 then None
    else
      var m: int := DigitsValue(digits);
      var v := if neg then -m else m;
      if v < INT32_MIN || v > INT32_MAX then None else Some(v)
  }

  /** `std::stoi` reads back Go/C++ canonical renderings of 32-bit values, with any suffix. */
  lemma StoiOfItoa(n: int, rest: string)
    requires INT32_MIN <= n <= INT32_MAX
    requires |rest| > 0 ==> !IsDigit(rest[0])
    ensures CStoi(GoItoa(n) + rest) == Some(n)
  {
    if n < 0 {
      var d := NatDigits(-n);
      LeadingDigitsOfDigits(d, rest);
      assert GoItoa(n) == "-" + d;
      assert GoItoa(n) + rest == "-" + (d + rest);
      StoiSigned(d, rest);
    } else {
      var d := NatDigits(n);
      LeadingDigitsOfDigits(d, rest);
      assert GoItoa(n) == d;
      StoiUnsigned(d, rest);
    }
  }

  lemma StoiSigned(d: string, rest: string)
    requires |d| > 0 && AllDigits(d) && DigitsValue(d) <= -INT32_MIN
    requires LeadingDigits(d + rest) == d
    ensures CStoi("-" + (d + rest)) == Some(-(DigitsValue(d) as int))
  {
    var s := "-" + (d + rest);
    assert !IsCSpace(s[0]);
    assert DropSpaces(s) == s;
    assert s[1..] == d + rest;
  }

  lemma StoiUnsigned(d: string, rest: string)
    requires |d| > 0 && AllDigits(d) && DigitsValue(d) <= INT32_MAX
    requires LeadingDigits(d + rest) == d
    ensures CStoi(d + rest) == Some(DigitsValue(d))
  {
    var s := d + rest;
    assert IsDigit(s[0]);
    assert DropSpaces(s) == s;
  }

  lemma {:induction false} LeadingDigitsOfDigits(d: string, rest: string)
    requires AllDigits(d)
    requires |rest| > 0 ==> !IsDigit(rest[0])
    ensures LeadingDigits(d + rest) == d
  {
    if |d| > 0 {
      assert (d + rest)[1..] == d[1..] + rest;
      LeadingDigitsOfDigits(d[1..], rest);
    } else {
      assert d + rest == rest;
    }
  }
}
