/** JavaScript values as they occur in Cytoscape node and edge data: primitive
    values, the truthiness used by `||`, the `Number()` and `String()`
    coercions, and plain objects with their key order and object spread. */
module JsValues {

  datatype Option<+T> = None | Some(value: T)

  /** A primitive value stored under a data key. `undefined` is the absence
      of the key (an `Option`), so it has no constructor of its own. */
  datatype JsVal = JStr(s: string) | JNum(n: real) | JBool(b: bool)

  /** JavaScript truthiness, `None` standing for `undefined`: the falsy
      values are `undefined`, the empty string, zero and `false`. */
  predicate Truthy(v: Option<JsVal>)
    ensures !Truthy(v) <==> v == None || v == Some(JStr("")) || v == Some(JNum(0.0)) || v == Some(JBool(false))
  {
    match v
    case None => false
    case Some(JStr(s)) => s != ""
    case Some(JNum(n)) => n != 0.0
    case Some(JBool(b)) => b
  }

  /** The value of `a || b`: one of the two operands, `a` itself when it is
      truthy, and truthy exactly when either operand is. */
  function Or(a: Option<JsVal>, b: Option<JsVal>): (r: Option<JsVal>)
    ensures r == a || r == b
    ensures Truthy(a) ==> r == a
    ensures Truthy(r) <==> Truthy(a) || Truthy(b)
  {
    if Truthy(a) then a else b
  }

  // ---------------------------------------------------------------------
  // Number(v)

  /** `Number(v)`, with `None` standing for NaN. */
  function ToNumber(v: Option<JsVal>): Option<real> {
    match v
    case None => None
    case Some(JNum(n)) => Some(n)
    case Some(JBool(b)) => Some(if b then 1.0 else 0.0)
    case Some(JStr(s)) => ParseNumber(s)
  }

  /** White space and line terminators, which `Number()` trims: tab,
      vertical tab, form feed, the space separators, the byte order mark and
      the four line terminators. */
  predicate IsSpace(c: char) {
    c == ' ' || c == '\t' || c == '\n' || c == '\r'
    || c as int == 0x0B || c as int == 0x0C || c as int == 0xA0
    || c as int == 0x2028 || c as int == 0x2029 || c as int == 0xFEFF
    || c as int == 0x1680 || 0x2000 <= c as int <= 0x200A
    || c as int == 0x202F || c as int == 0x205F || c as int == 0x3000
  }

  function TrimStart(s: string): string {
    if s != [] && IsSpace(s[0]) then TrimStart(s[1..]) else s
  }

  function TrimEnd(s: string): string {
    if s != [] && IsSpace(s[|s| - 1]) then TrimEnd(s[..|s| - 1]) else s
  }

  predicate IsDigit(c: char) { '0' <= c <= '9' }

  predicate AllDigits(s: string) { forall i :: 0 <= i < |s| ==> IsDigit(s[i]) }

  /** The number of leading decimal digits of `s`. */
  function DigitRun(s: string): (k: nat)
    ensures k <= |s| && AllDigits(s[..k])
    ensures k < |s| ==> !IsDigit(s[k])
  {
    if s != [] && IsDigit(s[0]) then
      var k := 1 + DigitRun(s[1..]);
      assert s[..k] == [s[0]] + s[1..][..k - 1];
      k
    else 0
  }

  /** The value of a string of decimal digits. */
  function DecimalValue(s: string): nat
    requires AllDigits(s)
  {
    if s == [] then 0 else 10 * DecimalValue(s[..|s| - 1]) + (s[|s| - 1] as int - '0' as int)
  }

  function Pow10(n: nat): (p: nat)
    ensures p > 0
  {
    if n == 0 then 1 else 10 * Pow10(n - 1)
  }

  /** `Number(s)` on the decimal subset of the grammar: surrounding white space
      is ignored, the empty string is 0, then an optional sign and digits with
      an optional fraction. Anything else is NaN. */
  function ParseNumber(s: string): Option<real> {
    var t := TrimEnd(TrimStart(s));
    if t == [] then Some(0.0)
    else if t[0] == '-' then
      match ParseUnsigned(t[1..])
      case Some(x) => Some(-x)
      case None => None
    else if t[0] == '+' then ParseUnsigned(t[1..])
    else ParseUnsigned(t)
  }

  /** digits [ "." digits? ] | "." digits */
  function ParseUnsigned(t: string): Option<real> {
    var k := DigitRun(t);
    var whole := DecimalValue(t[..k]) as real;
    if k == |t| then (if k > 0 then Some(whole) else None)
    else if t[k] != '.' then None
    else
      var frac := t[k + 1..];
      if !AllDigits(frac) || (k == 0 && frac == []) then None
      else Some(whole + DecimalValue(frac) as real / Pow10(|frac|) as real)
  }

  // ---------------------------------------------------------------------
  // String(v)

  const Digits := "0123456789"

  /** Decimal numeral of a natural number, without leading zeros. */
  function NatToDecimal(n: nat): (s: string)
    ensures s != [] && AllDigits(s)
    ensures n > 0 ==> s[0] != '0'
  {
    if n < 10 then [Digits[n]] else NatToDecimal(n / 10) + [Digits[n % 10]]
  }

  /** Digits after the decimal point of a fraction in (0, 1), at most
      `fuel + 1` of them. */
  function FractionDigits(f: real, fuel: nat): string
    requires 0.0 < f < 1.0
    decreases fuel
  {
    var t := f * 10.0;
    var d := t.Floor;
    var rest := t - d as real;
    [Digits[d]] + (if rest == 0.0 || fuel == 0 then [] else FractionDigits(rest, fuel - 1))
  }

  function NonNegativeToString(x: real): string
    requires x >= 0.0
  {
    var w := x.Floor;
    var frac := x - w as real;
    NatToDecimal(w) + (if frac == 0.0 then "" else "." + FractionDigits(frac, 19))
  }

  /** `String(n)` for a number. */
  function NumberToString(n: real): string {
    if n < 0.0 then "-" + NonNegativeToString(-n) else NonNegativeToString(n)
  }

  /** `String(v)` for a primitive value. */
  function ToJsString(v: JsVal): string {
    match v
    case JStr(s) => s
    case JNum(n) => NumberToString(n)
    case JBool(b) => if b then "true" else "false"
  }

  /** Trimming the start of `s + [c]`, `c` white space. */
  lemma {:induction false} TrimStartSnoc(s: string, c: char)
    requires IsSpace(c)
    ensures TrimStart(s + [c]) == if TrimStart(s) == [] then [] else TrimStart(s) + [c]
    decreases |s|
  {
    if s == [] {
      assert s + [c] == [c];
      assert [c][1..] == [];
    } else if IsSpace(s[0]) {
      assert (s + [c])[1..] == s[1..] + [c];
      TrimStartSnoc(s[1..], c);
    }
  }

  /** `Number()` ignores white space before and after the text. */
  lemma SpaceIgnored(s: string, c: char)
    requires IsSpace(c)
    ensures ParseNumber([c] + s) == ParseNumber(s)
    ensures ParseNumber(s + [c]) == ParseNumber(s)
  {
    assert ([c] + s)[1..] == s;
    TrimStartSnoc(s, c);
    var t := TrimStart(s);
    if t != [] {
      assert (t + [c])[..|t|] == t;
    }
  }

  lemma {:induction false} DecimalValueOfNatToDecimal(n: nat)
    ensures DecimalValue(NatToDecimal(n)) == n
  {
    var s := NatToDecimal(n);
    if n >= 10 {
      DecimalValueOfNatToDecimal(n / 10);
      assert s[..|s| - 1] == NatToDecimal(n / 10);
    }
  }

  lemma {:induction false} DigitRunAll(s: string)
    requires AllDigits(s)
    ensures DigitRun(s) == |s|
    decreases |s|
  {
    if s != [] {
      DigitRunAll(s[1..]);
    }
  }

  lemma ParseDigits(digits: string)
    requires digits != [] && AllDigits(digits)
    ensures ParseUnsigned(digits) == Some(DecimalValue(digits) as real)
  {
    DigitRunAll(digits);
    assert digits[..|digits|] == digits;
  }

  lemma TrimNothing(t: string)
    requires t != [] && !IsSpace(t[0]) && !IsSpace(t[|t| - 1])
    ensures TrimEnd(TrimStart(t)) == t
  {
  }

  lemma NumberOfDigits(digits: string)
    requires digits != [] && AllDigits(digits)
    ensures ParseNumber(digits) == Some(DecimalValue(digits) as real)
    ensures ParseNumber("-" + digits) == Some(-(DecimalValue(digits) as real))
  {
    PositiveDigits(digits);
    NegativeDigits(digits);
  }

  lemma PositiveDigits(digits: string)
    requires digits != [] && AllDigits(digits)
    ensures ParseNumber(digits) == Some(DecimalValue(digits) as real)
  {
    ParseDigits(digits);
    TrimNothing(digits);
  }

  lemma NegativeDigits(digits: string)
    requires digits != [] && AllDigits(digits)
    ensures ParseNumber("-" + digits) == Some(-(DecimalValue(digits) as real))
  {
    ParseDigits(digits);
    var t := "-" + digits;
    TrimNothing(t);
    assert t[0] == '-' && t[1..] == digits;
  }

  lemma NumberToStringOfInt(n: int)
    ensures n >= 0 ==> NumberToString(n as real) == NatToDecimal(n)
    ensures n < 0 ==> NumberToString(n as real) == "-" + NatToDecimal(-n)
  {
    if n < 0 {
      assert -(n as real) == (-n) as real;
      NonNegativeOfNat(-n);
    } else {
      NonNegativeOfNat(n);
    }
  }

  lemma NonNegativeOfNat(m: nat)
    ensures NonNegativeToString(m as real) == NatToDecimal(m)
  {
    assert (m as real).Floor == m;
  }

  /** `Number(String(n))` gives `n` back for every integral number. */
  lemma IntegerStringRoundTrip(n: int)
    ensures ToNumber(Some(JStr(ToJsString(JNum(n as real))))) == Some(n as real)
  {
    var m: nat := if n < 0 then -n else n;
    NumberToStringOfInt(n);
    DecimalValueOfNatToDecimal(m);
    NumberOfDigits(NatToDecimal(m));
  }

  // ---------------------------------------------------------------------
  // Plain objects

  predicate Distinct<T(==)>(s: seq<T>) {
    forall i, j :: 0 <= i < j < |s| ==> s[i] != s[j]
  }

  /** An object: its own keys in `Object.keys` order and the value of each.
      Objects built here are `WellFormed`; the lemmas below say which
      operations keep that. */
  datatype JsObject = Obj(keys: seq<string>, vals: map<string, JsVal>)

  /** Every key listed once, and exactly the keys that have a value. */
  predicate WellFormed(o: JsObject) {
    Distinct(o.keys)
    && (forall k :: k in o.keys ==> k in o.vals)
    && (forall k :: k in o.vals ==> k in o.keys)
  }

  /** `o[k]`, `None` standing for `undefined`. */
  function Lookup(o: JsObject, k: string): Option<JsVal> {
    if k in o.vals then Some(o.vals[k]) else None
  }

  /** `o[k] = v`: an existing key keeps its place, a new one goes last. */
  function Assign(o: JsObject, k: string, v: JsVal): JsObject {
    Obj(if k in o.keys then o.keys else o.keys + [k], o.vals[k := v])
  }

  /** After `o[k] = v`, `k` reads `v` and every other key reads as before;
      the key order only grows by `k` at the end when `k` is new. */
  lemma AssignSpec(o: JsObject, k: string, v: JsVal, k': string)
    ensures Lookup(Assign(o, k, v), k') == if k' == k then Some(v) else Lookup(o, k')
    ensures Assign(o, k, v).keys == if k in o.keys then o.keys else o.keys + [k]
  {
  }

  /** The keys of `ks` that are not in `keys`, in order. */
  function NewKeys(keys: seq<string>, ks: seq<string>): seq<string>
    decreases |ks|
  {
    if ks == [] then []
    else if ks[0] in keys then NewKeys(keys, ks[1..])
    else [ks[0]] + NewKeys(keys + [ks[0]], ks[1..])
  }

  /** Copies the properties `ks` of `src` into `o`, one after the other. */
  function AssignAll(o: JsObject, src: JsObject, ks: seq<string>): (r: JsObject)
    requires forall k :: k in ks ==> k in src.vals
    decreases |ks|
  {
    if ks == [] then o else AssignAll(Assign(o, ks[0], src.vals[ks[0]]), src, ks[1..])
  }

  lemma {:induction false} NewKeysSpec(keys: seq<string>, ks: seq<string>)
    requires Distinct(keys)
    ensures Distinct(keys + NewKeys(keys, ks))
    ensures forall k :: k in keys + NewKeys(keys, ks) <==> k in keys || k in ks
    decreases |ks|
  {
    if ks != [] {
      if ks[0] in keys {
        NewKeysSpec(keys, ks[1..]);
      } else {
        var keys' := keys + [ks[0]];
        NewKeysSpec(keys', ks[1..]);
        NewKeysStep(keys, ks);
      }
    }
  }

  /** `{...o, ...src}`: the object `o` with the own properties of `src`
      spread over it. */
  function Spread(o: JsObject, src: JsObject): JsObject {
    Obj(o.keys + NewKeys(o.keys, src.keys), o.vals + src.vals)
  }

  lemma {:induction false} AssignAllLookup(o: JsObject, src: JsObject, ks: seq<string>, k: string)
    requires forall k' :: k' in ks ==> k' in src.vals
    ensures Lookup(AssignAll(o, src, ks), k) == if k in ks then Some(src.vals[k]) else Lookup(o, k)
    decreases |ks|
  {
    if ks != [] {
      var o' := Assign(o, ks[0], src.vals[ks[0]]);
      AssignAllLookup(o', src, ks[1..], k);
      AssignSpec(o, ks[0], src.vals[ks[0]], k);
      assert k in ks <==> k == ks[0] || k in ks[1..];
    }
  }

  lemma NewKeysStep(keys: seq<string>, ks: seq<string>)
    requires ks != []
    ensures var keys' := if ks[0] in keys then keys else keys + [ks[0]];
            keys + NewKeys(keys, ks) == keys' + NewKeys(keys', ks[1..])
  {
  }

  lemma {:induction false} AssignAllKeys(o: JsObject, src: JsObject, ks: seq<string>)
    requires forall k' :: k' in ks ==> k' in src.vals
    ensures AssignAll(o, src, ks).keys == o.keys + NewKeys(o.keys, ks)
    decreases |ks|
  {
    if ks != [] {
      var o' := Assign(o, ks[0], src.vals[ks[0]]);
      AssignAllKeys(o', src, ks[1..]);
      AssignSpec(o, ks[0], src.vals[ks[0]], ks[0]);
      NewKeysStep(o.keys, ks);
    }
  }

  /** Spread properties override the base; other keys keep the base value.
      The base keys come first, in their order, then the new keys of `src`. */
  lemma SpreadLookup(o: JsObject, src: JsObject, k: string)
    ensures Lookup(Spread(o, src), k) == if k in src.vals then Some(src.vals[k]) else Lookup(o, k)
    ensures Spread(o, src).keys == o.keys + NewKeys(o.keys, src.keys)
  {
  }

  /** Spreading one object over another yields an object again. */
  lemma SpreadWellFormed(o: JsObject, src: JsObject)
    requires WellFormed(o) && WellFormed(src)
    ensures WellFormed(Spread(o, src))
  {
    NewKeysSpec(o.keys, src.keys);
  }

  /** Spreading is copying the properties of `src` one by one, in key order. */
  lemma SpreadIsAssignAll(o: JsObject, src: JsObject)
    requires WellFormed(src)
    ensures Spread(o, src) == AssignAll(o, src, src.keys)
  {
    var r := AssignAll(o, src, src.keys);
    AssignAllKeys(o, src, src.keys);
    forall k | true
      ensures (k in r.vals <==> k in (o.vals + src.vals))
      ensures k in r.vals ==> r.vals[k] == (o.vals + src.vals)[k]
    {
      AssignAllLookup(o, src, src.keys, k);
    }
    assert r.vals == o.vals + src.vals;
  }
}
