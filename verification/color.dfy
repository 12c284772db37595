/** `stringToColor` (script.js:78-85): a 32-bit rolling hash over the UTF-16
    code units of a string, of which the low 24 bits are written as a CSS
    colour `#RRGGBB` in upper-case hexadecimal. */
module Color {

  const Two24 := 0x100_0000
  const Two32 := 0x1_0000_0000

  // ---------------------------------------------------------------------
  // Code units

  /** The UTF-16 encoding of one character. */
  function Utf16(c: char): seq<int> {
    var v := c as int;
    if v < 0x1_0000 then [v]
    else [0xD800 + (v - 0x1_0000) / 0x400, 0xDC00 + (v - 0x1_0000) % 0x400]
  }

  /** The code units `str.charCodeAt(0)`, ..., `str.charCodeAt(str.length - 1)`. */
  function CodeUnits(s: string): (u: seq<int>)
    ensures |u| >= |s|
    ensures forall i :: 0 <= i < |u| ==> 0 <= u[i] < 0x1_0000
  {
    if s == [] then [] else Utf16(s[0]) + CodeUnits(s[1..])
  }

  // ---------------------------------------------------------------------
  // The hash

  /** ToInt32: the integer in [-2^31, 2^31) congruent to `x` modulo 2^32. */
  function Int32(x: int): (r: int)
    ensures -0x8000_0000 <= r < 0x8000_0000
  {
    (x + 0x8000_0000) % Two32 - 0x8000_0000
  }

  /** `h << 5`: the operand and the result are both taken to 32 bits. */
  function ShiftLeft5(h: int): int {
    Int32(Int32(h) * 32)
  }

  /** One turn of the loop body: `hash = c + ((hash << 5) - hash)`. */
  function HashStep(h: int, c: int): int {
    c + (ShiftLeft5(h) - h)
  }

  /** The polynomial hash in Horner form: c0*31^(n-1) + ... + c(n-1). */
  function PolyHash(u: seq<int>): int {
    if u == [] then 0 else 31 * PolyHash(u[..|u| - 1]) + u[|u| - 1]
  }

  function Pow(b: int, n: nat): int {
    if n == 0 then 1 else b * Pow(b, n - 1)
  }

  /** The same polynomial written as a sum: the sum of u[i] * 31^(n-1-i). */
  function PowerSum(u: seq<int>): int {
    if u == [] then 0 else u[0] * Pow(31, |u| - 1) + PowerSum(u[1..])
  }

  lemma {:induction false} PowerSumSnoc(u: seq<int>, c: int)
    ensures PowerSum(u + [c]) == 31 * PowerSum(u) + c
    decreases |u|
  {
    if u == [] {
      assert u + [c] == [c];
    } else {
      assert (u + [c])[1..] == u[1..] + [c];
      PowerSumSnoc(u[1..], c);
      var p := Pow(31, |u| - 1);
      assert Pow(31, |u|) == 31 * p;
      assert u[0] * (31 * p) == 31 * (u[0] * p);
    }
  }

  /** Horner form and power-sum form of the hash agree. */
  lemma {:induction false} PolyHashIsPowerSum(u: seq<int>)
    ensures PolyHash(u) == PowerSum(u)
    decreases |u|
  {
    if u != [] {
      var init := u[..|u| - 1];
      PolyHashIsPowerSum(init);
      PowerSumSnoc(init, u[|u| - 1]);
      assert init + [u[|u| - 1]] == u;
    }
  }

  lemma Int32Congruent(x: int)
    ensures exists q :: Int32(x) == x - Two32 * q
  {
    var q := (x + 0x8000_0000) / Two32;
    assert Int32(x) == x - Two32 * q;
  }

  /** One loop step agrees with the polynomial step modulo 2^32. */
  lemma HashStepCongruent(h: int, c: int) returns (q: int)
    ensures HashStep(h, c) == 31 * h + c - Two32 * q
  {
    var q1 := (h + 0x8000_0000) / Two32;
    assert Int32(h) == h - Two32 * q1;
    var y := Int32(h) * 32;
    var q2 := (y + 0x8000_0000) / Two32;
    assert Int32(y) == y - Two32 * q2;
    q := 32 * q1 + q2;
  }

  lemma LowBits(a: int, k: int)
    ensures (a + Two32 * k) % Two24 == a % Two24
  {
    assert a + Two32 * k == a + Two24 * (256 * k);
  }

  /** The number `stringToColor` encodes: the polynomial hash of the code units
      taken modulo 2^24. */
  function HashValue(s: string): (v: nat)
    ensures v < Two24
  {
    PolyHash(CodeUnits(s)) % Two24
  }

  // ---------------------------------------------------------------------
  // Formatting

  /** The digit `toString(16)` writes for `d`. */
  function LowerHexDigit(d: int): (c: char)
    requires 0 <= d < 16
  {
    if d < 10 then ('0' as int + d) as char else ('a' as int + d - 10) as char
  }

  predicate IsLowerHexDigit(c: char) { '0' <= c <= '9' || 'a' <= c <= 'f' }

  predicate IsUpperHexDigit(c: char) { '0' <= c <= '9' || 'A' <= c <= 'F' }

  /** The value of an upper-case hexadecimal digit. */
  function UpperDigitValue(c: char): int
    requires IsUpperHexDigit(c)
  {
    if c <= '9' then c as int - '0' as int else c as int - 'A' as int + 10
  }

  /** `v.toString(16)`: lower-case hexadecimal without leading zeros. */
  function ToHexString(v: nat): (s: string)
    ensures 1 <= |s|
    ensures forall i :: 0 <= i < |s| ==> IsLowerHexDigit(s[i])
  {
    if v < 16 then [LowerHexDigit(v)] else ToHexString(v / 16) + [LowerHexDigit(v % 16)]
  }

  function UpperChar(c: char): char {
    if 'a' <= c <= 'z' then (c as int - 32) as char else c
  }

  /** `toUpperCase` on ASCII letters. */
  function ToUpperCase(s: string): (r: string)
    ensures |r| == |s|
    ensures forall i :: 0 <= i < |s| ==> r[i] == UpperChar(s[i])
  {
    if s == [] then [] else [UpperChar(s[0])] + ToUpperCase(s[1..])
  }

  lemma {:induction false} HexLength(v: nat, n: nat)
    requires v < Pow(16, n) && n > 0
    ensures |ToHexString(v)| <= n
    decreases n
  {
    if v >= 16 {
      assert n > 1;
      assert v / 16 < Pow(16, n - 1);
      HexLength(v / 16, n - 1);
    }
  }

  predicate AllUpperHex(s: string) { forall i :: 0 <= i < |s| ==> IsUpperHexDigit(s[i]) }

  /** The value of a string of upper-case hexadecimal digits. */
  function HexValue(s: string): nat
    requires AllUpperHex(s)
  {
    if s == [] then 0 else 16 * HexValue(s[..|s| - 1]) + UpperDigitValue(s[|s| - 1])
  }

  lemma DigitRoundTrip(d: int)
    requires 0 <= d < 16
    ensures IsUpperHexDigit(UpperChar(LowerHexDigit(d)))
    ensures UpperDigitValue(UpperChar(LowerHexDigit(d))) == d
  {
  }

  lemma {:induction false} UpperHexRoundTrip(v: nat)
    ensures AllUpperHex(ToUpperCase(ToHexString(v)))
    ensures HexValue(ToUpperCase(ToHexString(v))) == v
    decreases v
  {
    var h := ToHexString(v);
    var r := ToUpperCase(h);
    forall i | 0 <= i < |r| ensures IsUpperHexDigit(r[i]) {
      assert IsLowerHexDigit(h[i]);
    }
    if v < 16 {
      DigitRoundTrip(v);
      assert r[..0] == [];
    } else {
      UpperHexRoundTrip(v / 16);
      DigitRoundTrip(v % 16);
      var r' := ToUpperCase(ToHexString(v / 16));
      assert r[..|r| - 1] == r';
    }
  }

  lemma Pow16Six()
    ensures Pow(16, 6) == Two24
  {
    assert Pow(16, 2) == 256;
    assert Pow(16, 4) == 256 * 256 by {
      assert Pow(16, 4) == 16 * (16 * Pow(16, 2));
    }
  }

  lemma {:induction false} HexValueLeadingZeros(z: nat, s: string)
    requires AllUpperHex(s)
    ensures var t := seq(z, _ => '0') + s;
            AllUpperHex(t) && HexValue(t) == HexValue(s)
    decreases |s|
  {
    var t := seq(z, _ => '0') + s;
    if s == [] {
      assert t == seq(z, _ => '0');
      ZerosValue(z);
    } else {
      HexValueLeadingZeros(z, s[..|s| - 1]);
      assert t[..|t| - 1] == seq(z, _ => '0') + s[..|s| - 1];
    }
  }

  lemma {:induction false} ZerosValue(z: nat)
    ensures AllUpperHex(seq(z, _ => '0')) && HexValue(seq(z, _ => '0')) == 0
  {
    if z > 0 {
      ZerosValue(z - 1);
      assert seq(z, _ => '0')[..z - 1] == seq(z - 1, _ => '0');
    }
  }

  /** `'#' + '00000'.substring(0, 6 - c.length) + c` with `c` the upper-case
      hexadecimal of `v`: always `#` and six upper-case hexadecimal digits,
      whose value is `v`. */
  function ColorOf(v: nat): (r: string)
    requires v < Two24
    ensures |r| == 7 && r[0] == '#'
    ensures AllUpperHex(r[1..])
    ensures HexValue(r[1..]) == v
  {
    var c := ToUpperCase(ToHexString(v));
    PaddedHex(v, c);
    "#" + "00000"[..6 - |c|] + c
  }

  lemma PaddedHex(v: nat, c: string)
    requires v < Two24 && c == ToUpperCase(ToHexString(v))
    ensures 1 <= |c| <= 6
    ensures |"#" + "00000"[..6 - |c|] + c| == 7
    ensures ("#" + "00000"[..6 - |c|] + c)[0] == '#'
    ensures AllUpperHex(("#" + "00000"[..6 - |c|] + c)[1..])
    ensures HexValue(("#" + "00000"[..6 - |c|] + c)[1..]) == v
  {
    Pow16Six();
    HexLength(v, 6);
    UpperHexRoundTrip(v);
    PadZeros(c);
  }

  /** Zero padding to six digits keeps the value. */
  lemma PadZeros(c: string)
    requires 1 <= |c| <= 6 && AllUpperHex(c)
    ensures var r := "#" + "00000"[..6 - |c|] + c;
            |r| == 7 && r[0] == '#' && AllUpperHex(r[1..]) && HexValue(r[1..]) == HexValue(c)
  {
    var pad := "00000"[..6 - |c|];
    assert pad == seq(6 - |c|, _ => '0');
    HexValueLeadingZeros(6 - |c|, c);
    var r := "#" + pad + c;
    assert r[1..] == pad + c;
  }

  /** The colour `stringToColor(s)` returns. */
  function ColorFor(s: string): (r: string)
    ensures |r| == 7 && r[0] == '#'
    ensures AllUpperHex(r[1..])
    ensures HexValue(r[1..]) == PowerSum(CodeUnits(s)) % Two24
  {
    PolyHashIsPowerSum(CodeUnits(s));
    ColorOf(HashValue(s))
  }

  lemma DigitValueRange(c: char)
    requires IsUpperHexDigit(c)
    ensures 0 <= UpperDigitValue(c) < 16
  {
  }

  /** Distinct upper-case digits have distinct values. */
  lemma DigitInjective(c: char, d: char)
    requires IsUpperHexDigit(c) && IsUpperHexDigit(d)
    requires UpperDigitValue(c) == UpperDigitValue(d)
    ensures c == d
  {
    assert c as int == d as int;
  }

  /** Two upper-case hexadecimal strings of one length with the same value
      are the same string. */
  lemma {:induction false} HexValueInjective(s: string, t: string)
    requires |s| == |t| && AllUpperHex(s) && AllUpperHex(t)
    requires HexValue(s) == HexValue(t)
    ensures s == t
    decreases |s|
  {
    if s != [] {
      var n := |s| - 1;
      var x, y := HexValue(s[..n]), HexValue(t[..n]);
      var a, b := UpperDigitValue(s[n]), UpperDigitValue(t[n]);
      DigitValueRange(s[n]);
      DigitValueRange(t[n]);
      assert 16 * x + a == 16 * y + b;
      HexValueInjective(s[..n], t[..n]);
      DigitInjective(s[n], t[n]);
      assert s == s[..n] + [s[n]] && t == t[..n] + [t[n]];
    }
  }

  /** A colour is fixed by its value: two strings that are each `#` and six
      upper-case hexadecimal digits, with the same value, are equal. So the
      contract of `ColorOf` determines its result. */
  lemma ColorUnique(r: string, s: string)
    requires |r| == 7 && r[0] == '#' && AllUpperHex(r[1..])
    requires |s| == 7 && s[0] == '#' && AllUpperHex(s[1..])
    requires HexValue(r[1..]) == HexValue(s[1..])
    ensures r == s
  {
    HexValueInjective(r[1..], s[1..]);
    assert r == [r[0]] + r[1..] && s == [s[0]] + s[1..];
  }

  /** The low 24 bits of the final `hash` are those of the polynomial hash. */
  lemma MaskedHash(hash: int, p: int, k: int)
    requires hash == p + Two32 * k
    ensures Int32(hash) % Two24 == p % Two24
  {
    Int32Congruent(hash);
    var q :| Int32(hash) == hash - Two32 * q;
    LowBits(p, k - q);
  }

  /** `stringToColor(str)`. The loop keeps `hash` congruent, modulo 2^32, to
      the polynomial hash of the code units read so far. */
  method StringToColor(str: string) returns (color: string)
    ensures color == ColorFor(str)
  {
    var units := CodeUnits(str);
    var hash := 0;
    ghost var k := 0;
    for i := 0 to |units|
      invariant hash == PolyHash(units[..i]) + Two32 * k
    {
      ghost var q := HashStepCongruent(hash, units[i]);
      assert units[..i + 1][..i] == units[..i];
      hash := units[i] + (ShiftLeft5(hash) - hash);
      k := 31 * k - q;
    }
    assert units[..|units|] == units;
    MaskedHash(hash, PolyHash(units), k);
    color := FormatColor(Int32(hash) % Two24);
    PolyHashIsPowerSum(units);
    ColorUnique(color, ColorFor(str));
  }

  /** Lines 83-84 for the masked value `v`, as the statements the loop's
      caller executes: `#` and six upper-case hexadecimal digits whose value
      is `v`. `ColorOf` is the specification of the same text; `ColorUnique`
      shows the two agree. */
  method FormatColor(v: nat) returns (color: string)
    requires v < Two24
    ensures |color| == 7 && color[0] == '#'
    ensures AllUpperHex(color[1..])
    ensures HexValue(color[1..]) == v
  {
    var c := ToUpperCase(ToHexString(v));
    PaddedHex(v, c);
    color := "#" + "00000"[..6 - |c|] + c;
  }
}
