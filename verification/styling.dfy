/** The per-node style `updateNodeStyle` (script.js:88-141) computes: defaults,
    a hashed colour from the colour attribute, and a size normalised to
    [20, 80] over the nodes whose size attribute is numeric. */
module Styling {
  import opened JsValues
  import Color

  /** The six style properties written for every node. */
  datatype Style = Style(
    background: string,   // 'background-color'
    width: real,
    height: real,
    caption: Option<JsVal>, // 'label'; None when both data.label and data.id are undefined
    outline: string,      // 'text-outline-color'
    fontSize: string)     // 'font-size'

  const BaseGray := "#666"
  const DefaultSize := 30.0
  const SmallestSize := 20.0
  const SizeSpan := 60.0
  const FontSize := "12px"

  /** The reset of lines 96-102: gray, 30 by 30, `data.label || data.id`. */
  function DefaultStyle(d: JsObject): Style {
    Style(BaseGray, DefaultSize, DefaultSize, Or(Lookup(d, "label"), Lookup(d, "id")), BaseGray, FontSize)
  }

  /** `Number(data[attr])`, `None` standing for NaN. */
  function NumericValue(d: JsObject, attr: string): Option<real> {
    ToNumber(Lookup(d, attr))
  }

  /** The numeric values of `attr` over the nodes `ds`, in node order; nodes
      whose value is missing or not a number contribute nothing. */
  function NumericValues(ds: seq<JsObject>, attr: string): seq<real> {
    if ds == [] then []
    else
      var rest := NumericValues(ds[..|ds| - 1], attr);
      match NumericValue(ds[|ds| - 1], attr)
      case Some(v) => rest + [v]
      case None => rest
  }

  function MinOf(xs: seq<real>): (m: real)
    requires xs != []
    ensures m in xs
    ensures forall i :: 0 <= i < |xs| ==> m <= xs[i]
  {
    if |xs| == 1 then xs[0]
    else
      var m := MinOf(xs[..|xs| - 1]);
      assert forall i :: 0 <= i < |xs| - 1 ==> xs[i] == xs[..|xs| - 1][i];
      if xs[|xs| - 1] < m then xs[|xs| - 1] else m
  }

  function MaxOf(xs: seq<real>): (m: real)
    requires xs != []
    ensures m in xs
    ensures forall i :: 0 <= i < |xs| ==> xs[i] <= m
  {
    if |xs| == 1 then xs[0]
    else
      var m := MaxOf(xs[..|xs| - 1]);
      assert forall i :: 0 <= i < |xs| - 1 ==> xs[i] == xs[..|xs| - 1][i];
      if xs[|xs| - 1] > m then xs[|xs| - 1] else m
  }

  /** Lines 128-135: 30 when all values agree, else a linear map of
      [lo, hi] onto [20, 80]. */
  function SizeFor(v: real, lo: real, hi: real): (size: real)
    ensures lo <= v <= hi ==> SmallestSize <= size <= SmallestSize + SizeSpan
    ensures hi == lo ==> size == DefaultSize
  {
    if hi == lo then DefaultSize
    else
      var t := (v - lo) / (hi - lo);
      assert lo <= v <= hi ==> 0.0 <= t <= 1.0 by {
        if lo <= v <= hi {
          assert t * (hi - lo) == v - lo;
          PositiveFactor(t, hi - lo);
          PositiveFactor(1.0 - t, hi - lo);
        }
      }
      SmallestSize + t * SizeSpan
  }

  /** A product with a positive factor has the sign of the other factor. */
  lemma PositiveFactor(p: real, w: real)
    requires w > 0.0
    ensures p * w >= 0.0 ==> p >= 0.0
    ensures p * w > 0.0 ==> p > 0.0
  {
    if p < 0.0 {
      assert p * w < 0.0;
    }
  }

  /** The style after the colour step (lines 104-110). */
  function ColoredStyle(d: JsObject, colorAttr: string): (s: Style)
    ensures s.caption == Or(Lookup(d, "label"), Lookup(d, "id")) && s.fontSize == FontSize
    ensures s.width == DefaultSize && s.height == DefaultSize
    ensures s.background == s.outline
    ensures s.background == BaseGray || (|s.background| == 7 && s.background[0] == '#')
  {
    var s := DefaultStyle(d);
    if colorAttr != "" && Lookup(d, colorAttr).Some? then
      var c := Color.ColorFor(ToJsString(Lookup(d, colorAttr).value));
      s.(background := c, outline := c)
    else s
  }

  /** The style `updateNodeStyle` gives the node `d` among the nodes `ds`:
      whatever the data, the label is `data.label || data.id`, the font is
      12px, background and outline agree, and the node is a square whose side
      lies in [20, 80]. */
  function StyleFor(ds: seq<JsObject>, d: JsObject, colorAttr: string, sizeAttr: string): (s: Style)
    requires d in ds
    ensures s.caption == Or(Lookup(d, "label"), Lookup(d, "id")) && s.fontSize == FontSize
    ensures s.background == s.outline
    ensures s.width == s.height && SmallestSize <= s.width <= SmallestSize + SizeSpan
  {
    var s := ColoredStyle(d, colorAttr);
    var v := NumericValue(d, sizeAttr);
    if sizeAttr != "" && v.Some? then
      NumericValuesContains(ds, d, sizeAttr);
      var vals := NumericValues(ds, sizeAttr);
      var size := SizeFor(v.value, MinOf(vals), MaxOf(vals));
      s.(width := size, height := size)
    else s
  }

  // ---------------------------------------------------------------------
  // Properties

  /** Every node whose value is numeric takes part in the range. */
  lemma {:induction false} NumericValuesContains(ds: seq<JsObject>, d: JsObject, attr: string)
    requires d in ds && NumericValue(d, attr).Some?
    ensures NumericValue(d, attr).value in NumericValues(ds, attr)
    decreases |ds|
  {
    var last := ds[|ds| - 1];
    var init := ds[..|ds| - 1];
    if d != last {
      assert ds == init + [last];
      NumericValuesContains(init, d, attr);
    }
  }

  /** A number is among the numeric values iff some node's value is that
      number. */
  lemma {:induction false} NumericValuesMembers(ds: seq<JsObject>, attr: string, x: real)
    ensures x in NumericValues(ds, attr) <==> exists n :: 0 <= n < |ds| && NumericValue(ds[n], attr) == Some(x)
    decreases |ds|
  {
    if ds != [] {
      var init := ds[..|ds| - 1];
      NumericValuesMembers(init, attr, x);
      if x in NumericValues(init, attr) {
        var n :| 0 <= n < |init| && NumericValue(init[n], attr) == Some(x);
        assert ds[n] == init[n];
      }
      if exists n :: 0 <= n < |ds| && NumericValue(ds[n], attr) == Some(x) {
        var n :| 0 <= n < |ds| && NumericValue(ds[n], attr) == Some(x);
        if n < |ds| - 1 {
          assert init[n] == ds[n];
        }
      }
    }
  }

  lemma {:induction false} NumericValuesAppend(a: seq<JsObject>, b: seq<JsObject>, attr: string)
    ensures NumericValues(a + b, attr) == NumericValues(a, attr) + NumericValues(b, attr)
    decreases |b|
  {
    if b == [] {
      assert a + b == a;
    } else {
      var init := b[..|b| - 1];
      NumericValuesAppend(a, init, attr);
      assert (a + b)[..|a + b| - 1] == a + init;
    }
  }

  /** A node whose size attribute is missing or not numeric does not move the
      range, so it changes no other node's style. */
  lemma NonNumericIgnored(ds1: seq<JsObject>, e: JsObject, ds2: seq<JsObject>,
                          d: JsObject, colorAttr: string, sizeAttr: string)
    requires NumericValue(e, sizeAttr).None?
    requires d in ds1 + ds2
    ensures NumericValues(ds1 + [e] + ds2, sizeAttr) == NumericValues(ds1 + ds2, sizeAttr)
    ensures StyleFor(ds1 + [e] + ds2, d, colorAttr, sizeAttr) == StyleFor(ds1 + ds2, d, colorAttr, sizeAttr)
  {
    NumericValuesAppend(ds1 + [e], ds2, sizeAttr);
    NumericValuesAppend(ds1, [e], sizeAttr);
    NumericValuesAppend(ds1, ds2, sizeAttr);
    assert NumericValues([e], sizeAttr) == [] by {
      assert [e][..0] == [];
    }
  }

  /** Without a usable colour attribute the node is gray; with one, background
      and outline both carry the hash colour of the value's string form. The
      label is `data.label || data.id` and the font 12px in every case. */
  lemma ColorRule(ds: seq<JsObject>, d: JsObject, colorAttr: string, sizeAttr: string)
    requires d in ds
    ensures var s := StyleFor(ds, d, colorAttr, sizeAttr);
            s.caption == Or(Lookup(d, "label"), Lookup(d, "id")) && s.fontSize == FontSize
            && (colorAttr == "" || Lookup(d, colorAttr).None? ==>
                  s.background == BaseGray && s.outline == BaseGray)
            && (colorAttr != "" && Lookup(d, colorAttr).Some? ==>
                  s.background == s.outline == Color.ColorFor(ToJsString(Lookup(d, colorAttr).value)))
  {
  }

  /** Without a numeric size value the node keeps 30 by 30. */
  lemma DefaultSizeRule(ds: seq<JsObject>, d: JsObject, colorAttr: string, sizeAttr: string)
    requires d in ds
    requires sizeAttr == "" || NumericValue(d, sizeAttr).None?
    ensures StyleFor(ds, d, colorAttr, sizeAttr).width == DefaultSize
    ensures StyleFor(ds, d, colorAttr, sizeAttr).height == DefaultSize
  {
  }

  lemma ScaleBounds(v: real, lo: real, hi: real)
    requires lo <= v <= hi
    ensures SmallestSize <= SizeFor(v, lo, hi) <= SmallestSize + SizeSpan
    ensures lo < hi && v == lo ==> SizeFor(v, lo, hi) == SmallestSize
    ensures lo < hi && v == hi ==> SizeFor(v, lo, hi) == SmallestSize + SizeSpan
  {
    if lo < hi {
      var t := (v - lo) / (hi - lo);
      assert t * (hi - lo) == v - lo;
      assert 0.0 <= t <= 1.0;
    }
  }

  lemma ScaleMonotone(a: real, b: real, lo: real, hi: real)
    requires lo <= a <= b <= hi
    ensures SizeFor(a, lo, hi) <= SizeFor(b, lo, hi)
    ensures lo < hi && a < b ==> SizeFor(a, lo, hi) < SizeFor(b, lo, hi)
  {
    if lo < hi {
      var ta := (a - lo) / (hi - lo);
      var tb := (b - lo) / (hi - lo);
      assert ta * (hi - lo) == a - lo;
      assert tb * (hi - lo) == b - lo;
      assert (tb - ta) * (hi - lo) == b - a;
      PositiveFactor(tb - ta, hi - lo);
      assert SizeFor(a, lo, hi) == SmallestSize + ta * SizeSpan;
      assert SizeFor(b, lo, hi) == SmallestSize + tb * SizeSpan;
    }
  }

  /** A numeric node lies between the minimum and maximum of all numeric
      values; its width and height are equal and lie in [20, 80]; they are 30
      when all values agree, 20 at the minimum and 80 at the maximum. */
  lemma SizeRule(ds: seq<JsObject>, d: JsObject, colorAttr: string, sizeAttr: string)
    requires d in ds && sizeAttr != "" && NumericValue(d, sizeAttr).Some?
    ensures var vals := NumericValues(ds, sizeAttr);
            var v := NumericValue(d, sizeAttr).value;
            var s := StyleFor(ds, d, colorAttr, sizeAttr);
            vals != [] && MinOf(vals) <= v <= MaxOf(vals)
            && s.width == s.height && SmallestSize <= s.width <= SmallestSize + SizeSpan
            && (MinOf(vals) == MaxOf(vals) ==> s.width == DefaultSize)
            && (MinOf(vals) < MaxOf(vals) && v == MinOf(vals) ==> s.width == SmallestSize)
            && (MinOf(vals) < MaxOf(vals) && v == MaxOf(vals) ==> s.width == SmallestSize + SizeSpan)
  {
    NumericValuesContains(ds, d, sizeAttr);
    var vals := NumericValues(ds, sizeAttr);
    ScaleBounds(NumericValue(d, sizeAttr).value, MinOf(vals), MaxOf(vals));
  }

  /** The size grows with the value, strictly unless all values agree. */
  lemma SizeMonotone(ds: seq<JsObject>, d1: JsObject, d2: JsObject, colorAttr: string, sizeAttr: string)
    requires d1 in ds && d2 in ds && sizeAttr != ""
    requires NumericValue(d1, sizeAttr).Some? && NumericValue(d2, sizeAttr).Some?
    requires NumericValue(d1, sizeAttr).value <= NumericValue(d2, sizeAttr).value
    ensures StyleFor(ds, d1, colorAttr, sizeAttr).width <= StyleFor(ds, d2, colorAttr, sizeAttr).width
    ensures var vals := NumericValues(ds, sizeAttr);
            vals != [] && MinOf(vals) < MaxOf(vals)
            && NumericValue(d1, sizeAttr).value < NumericValue(d2, sizeAttr).value ==>
              StyleFor(ds, d1, colorAttr, sizeAttr).width < StyleFor(ds, d2, colorAttr, sizeAttr).width
  {
    NumericValuesContains(ds, d1, sizeAttr);
    NumericValuesContains(ds, d2, sizeAttr);
    var vals := NumericValues(ds, sizeAttr);
    ScaleMonotone(NumericValue(d1, sizeAttr).value, NumericValue(d2, sizeAttr).value, MinOf(vals), MaxOf(vals));
  }

  // ---------------------------------------------------------------------
  // The loops

  /** The inner `forEach` of lines 117-125: `min` and `max` over the numeric
      values, `None` standing for the initial `Infinity` and `-Infinity`. */
  method ScanRange(ds: seq<JsObject>, attr: string) returns (lo: Option<real>, hi: Option<real>)
    ensures var vals := NumericValues(ds, attr);
            if vals == [] then lo.None? && hi.None?
            else lo == Some(MinOf(vals)) && hi == Some(MaxOf(vals))
  {
    lo, hi := None, None;
    for n := 0 to |ds|
      invariant var vals := NumericValues(ds[..n], attr);
                if vals == [] then lo.None? && hi.None?
                else lo == Some(MinOf(vals)) && hi == Some(MaxOf(vals))
    {
      assert ds[..n + 1][..n] == ds[..n];
      var v := ToNumber(Lookup(ds[n], attr));
      if v.Some? {
        if lo.None? || v.value < lo.value {
          lo := v;
        }
        if hi.None? || v.value > hi.value {
          hi := v;
        }
      }
    }
    assert ds[..|ds|] == ds;
  }

  /** Lines 96-110 for the node `d`: the reset to the defaults, then the
      colour. */
  method ResetAndColor(d: JsObject, colorAttr: string) returns (style: Style)
    ensures style == ColoredStyle(d, colorAttr)
  {
    style := Style(BaseGray, 30.0, 30.0, Or(Lookup(d, "label"), Lookup(d, "id")), BaseGray, FontSize);
    if colorAttr != "" && Lookup(d, colorAttr).Some? {
      var val := Lookup(d, colorAttr).value;
      var color := Color.StringToColor(ToJsString(val));
      style := style.(background := color, outline := color);
    }
  }

  /** The body of the outer `forEach` (lines 93-139) for the node `d`. */
  method ComputeStyle(ds: seq<JsObject>, d: JsObject, colorAttr: string, sizeAttr: string)
    returns (style: Style)
    requires d in ds
    ensures style == StyleFor(ds, d, colorAttr, sizeAttr)
  {
    style := ResetAndColor(d, colorAttr);
    StyleForSize(ds, d, colorAttr, sizeAttr);
    if sizeAttr != "" && Lookup(d, sizeAttr).Some? {
      var val := ToNumber(Lookup(d, sizeAttr));
      if val.Some? {
        var lo, hi := ScanRange(ds, sizeAttr);
        assert lo.value == MinOf(NumericValues(ds, sizeAttr)) && hi.value == MaxOf(NumericValues(ds, sizeAttr));
        var size := Normalize(val.value, lo.value, hi.value);
        style := style.(width := size, height := size);
      }
    }
  }

  /** Lines 128-135 as the statements `ComputeStyle` executes, proved
      against the specification `SizeFor`: the size of the value `v` in the
      range [lo, hi]. A
      value in the range is drawn between 20 and 80, the ends of the range at
      20 and 80, and every value at 30 when the range is a single point. */
  method Normalize(v: real, lo: real, hi: real) returns (size: real)
    ensures size == SizeFor(v, lo, hi)
    ensures lo <= v <= hi ==> SmallestSize <= size <= SmallestSize + SizeSpan
    ensures hi == lo ==> size == DefaultSize
    ensures lo < hi && v == lo ==> size == SmallestSize
    ensures lo < hi && v == hi ==> size == SmallestSize + SizeSpan
  {
    if hi == lo {
      size := 30.0;
    } else {
      size := 20.0 + (v - lo) / (hi - lo) * 60.0;
    }
    if lo <= v <= hi {
      ScaleBounds(v, lo, hi);
    }
  }

  /** `StyleFor` as the colour step followed by the size step. */
  lemma StyleForSize(ds: seq<JsObject>, d: JsObject, colorAttr: string, sizeAttr: string)
    requires d in ds
    ensures sizeAttr == "" || NumericValue(d, sizeAttr).None? ==>
              StyleFor(ds, d, colorAttr, sizeAttr) == ColoredStyle(d, colorAttr)
    ensures sizeAttr != "" && NumericValue(d, sizeAttr).Some? ==> NumericValues(ds, sizeAttr) != []
    ensures sizeAttr != "" && NumericValue(d, sizeAttr).Some? ==>
              var vals := NumericValues(ds, sizeAttr);
              var size := SizeFor(NumericValue(d, sizeAttr).value, MinOf(vals), MaxOf(vals));
              StyleFor(ds, d, colorAttr, sizeAttr) == ColoredStyle(d, colorAttr).(width := size, height := size)
  {
    if sizeAttr != "" && NumericValue(d, sizeAttr).Some? {
      NumericValuesContains(ds, d, sizeAttr);
    }
  }

  /** A node whose `attr` is the number `v`. */
  function ValuedNode(id: string, attr: string, v: real): JsObject {
    Obj(["id", attr], map["id" := JStr(id), attr := JNum(v)])
  }

  /** Three nodes whose `value` is 10, 20 and 70. */
  function ExampleNodes(): seq<JsObject> {
    [ValuedNode("p", "value", 10.0), ValuedNode("q", "value", 20.0), ValuedNode("r", "value", 70.0)]
  }

  /** Over the three example nodes the range is [10, 70], so the node at 20
      is drawn 30 wide, the one at 10 20 wide and the one at 70 80 wide. */
  lemma SizeExample(colorAttr: string, i: nat)
    requires i < 3
    ensures StyleFor(ExampleNodes(), ExampleNodes()[i], colorAttr, "value").width == [20.0, 30.0, 80.0][i]
  {
    var ds := ExampleNodes();
    ExampleRange();
    StyleForSize(ds, ds[i], colorAttr, "value");
    var v := [10.0, 20.0, 70.0][i];
    assert NumericValue(ds[i], "value") == Some(v);
    assert SizeFor(v, 10.0, 70.0) == 20.0 + (v - 10.0) / 60.0 * 60.0;
  }

  lemma ExampleRange()
    ensures var vals := NumericValues(ExampleNodes(), "value");
            vals == [10.0, 20.0, 70.0] && MinOf(vals) == 10.0 && MaxOf(vals) == 70.0
  {
    var ds := ExampleNodes();
    var vals := [10.0, 20.0, 70.0];
    assert ds[..2][..1] == [ds[0]] && [ds[0]][..0] == [] && ds[..2] == [ds[0], ds[1]];
    assert NumericValues([ds[0]], "value") == [10.0];
    assert NumericValues(ds[..2], "value") == [10.0, 20.0];
    assert NumericValues(ds, "value") == vals;
    assert vals[..2][..1] == [10.0] && vals[..2] == [10.0, 20.0];
  }
}
