/**
 * Hover and pressed shades of the desktop client's buttons (windows.py,
 * `ModernQPushButton._adjust_color`): strip leading '#', read the three
 * two-character slices as base-16 integers, scale each by `factor`, truncate,
 * clamp to 0..255 and print as "#rrggbb" in lower-case hex.
 */
module ButtonColors {
  import opened Wrappers
  import opened Strings

  /** The float factor as a rational `num / den`. */
  datatype Factor = Factor(num: int, den: int)

  predicate ValidFactor(f: Factor) {
    f.den > 0
  }

  predicate IsHexDigit(c: char) {
    ('0' <= c <= '9') || ('a' <= c <= 'f') || ('A' <= c <= 'F')
  }

  function HexDigitValue(c: char): (v: nat)
    requires IsHexDigit(c)
    ensures v < 16
  {
    if '0' <= c <= '9' then c as int - '0' as int
    else if 'a' <= c <= 'f' then c as int - 'a' as int + 10
    else c as int - 'A' as int + 10
  }

  /** The lower-case digit Python's `x` format prints for `v`. */
  function LowerHexDigit(v: nat): (c: char)
    requires v < 16
    ensures IsHexDigit(c) && HexDigitValue(c) == v && !('A' <= c <= 'F')
  {
    if v < 10 then ('0' as int + v) as char else ('a' as int + v - 10) as char
  }

  /** Value of a string of hex digits, most significant first. */
  function DigitsValue(s: string): nat
    requires forall k :: 0 <= k < |s| ==> IsHexDigit(s[k])
  {
    if s == [] then 0 else DigitsValue(s[..|s| - 1]) * 16 + HexDigitValue(s[|s| - 1])
  }

  /** Python's `int(t, 16)` for the short slices it is given here: surrounding
      whitespace, an optional sign and at least one hex digit; otherwise `ValueError`.
      A negative value needs a leading '-', and a slice of at most two characters reads
      as a value in -15..255. */
  function ParseHex(t: string): (r: Option<int>)
    ensures r.Some? ==> Strip(t) != ""
    ensures r.Some? && r.value < 0 ==> Strip(t)[0] == '-'
    ensures r.Some? && |t| <= 2 ==> -15 <= r.value <= 255
  {
    var u := Strip(t);
    var neg := |u| > 0 && u[0] == '-';
    var digits := if |u| > 0 && (u[0] == '-' || u[0] == '+') then u[1..] else u;
    if digits != [] && forall k :: 0 <= k < |digits| ==> IsHexDigit(digits[k]) then
      DropLeadingSuffix(t, IsPySpace);
      DropTrailingPrefix(DropLeading(t, IsPySpace), IsPySpace);
      DigitsBound(digits);
      var v: int := DigitsValue(digits);
      Some(if neg then -v else v)
    else None
  }

  /** One hex digit is at most 15, two are at most 255. */
  lemma DigitsBound(s: string)
    requires forall k :: 0 <= k < |s| ==> IsHexDigit(s[k])
    ensures |s| <= 1 ==> DigitsValue(s) <= 15
    ensures |s| <= 2 ==> DigitsValue(s) <= 255
  {
    if |s| == 2 {
      assert DigitsValue(s[..1]) == DigitsValue(s[..1][..0]) * 16 + HexDigitValue(s[0]);
    }
  }

  /** Python's `hex_color[i:i+2]`, clipped to the string. */
  function Slice2(s: string, i: nat): string {
    if i >= |s| then "" else if i + 2 <= |s| then s[i..i + 2] else s[i..]
  }

  /** Python's `int(x * factor)`: truncation toward zero. */
  function Scale(x: int, f: Factor): (r: int)
    requires ValidFactor(f)
    ensures 0 <= x * f.num ==> 0 <= r && r * f.den <= x * f.num < (r + 1) * f.den
    ensures x * f.num < 0 ==> r <= 0 && -r * f.den <= -(x * f.num) < (-r + 1) * f.den
    ensures f.num == f.den ==> r == x
  {
    var p := x * f.num;
    DivBounds(if p >= 0 then p else -p, f.den);
    UnitScale(x, f.den);
    if p >= 0 then p / f.den else -((-p) / f.den)
  }

  /** The quotient of Euclidean division brackets the dividend. */
  lemma DivBounds(p: nat, d: int)
    requires d > 0
    ensures 0 <= p / d && (p / d) * d <= p < (p / d + 1) * d
  {
    assert p == (p / d) * d + p % d;
  }

  /** Scaling by `d / d` truncates nothing. */
  lemma UnitScale(x: int, d: int)
    requires d > 0
    ensures (if x * d >= 0 then (x * d) / d else -((-(x * d)) / d)) == x
  {
    if x >= 0 {
      MulDivCancel(x, d);
    } else {
      assert -(x * d) == (-x) * d;
      MulDivCancel(-x, d);
    }
  }

  /** Multiplying and then dividing by the same positive number gives the start back. */
  lemma MulDivCancel(x: nat, d: int)
    requires d > 0
    ensures (x * d) / d == x
  {
    var q := (x * d) / d;
    DivBounds(x * d, d);
    if q < x {
      MulMonotone(q + 1, x, d);
    } else if q > x {
      MulMonotone(x + 1, q, d);
    }
  }

  lemma MulMonotone(a: int, b: int, d: int)
    requires a <= b && d > 0
    ensures a * d <= b * d
  {
    assert b * d - a * d == (b - a) * d;
  }

  /** `min(255, max(0, v))`. */
  function Clamp(v: int): (c: nat)
    ensures c <= 255
    ensures 0 <= v <= 255 ==> c == v
    ensures v < 0 ==> c == 0
    ensures v > 255 ==> c == 255
  {
    if v < 0 then 0 else if v > 255 then 255 else v
  }

  /** Python's `f"{v:02x}"` for a byte. */
  function Hex2(v: nat): (s: string)
    requires v <= 255
    ensures |s| == 2
    ensures forall k :: 0 <= k < 2 ==> IsHexDigit(s[k]) && !('A' <= s[k] <= 'F')
  {
    [LowerHexDigit(v / 16), LowerHexDigit(v % 16)]
  }

  /** `_adjust_color(hex_color, factor)`; `None` where Python raises. */
  function AdjustColor(hexColor: string, f: Factor): (r: Option<string>)
    requires ValidFactor(f)
    ensures r.Some? ==> LowerHexColor(r.value)
    ensures var s := DropLeading(hexColor, c => c == '#');
      r.None? <==> ParseHex(Slice2(s, 0)).None? || ParseHex(Slice2(s, 2)).None? || ParseHex(Slice2(s, 4)).None?
  {
    var s := DropLeading(hexColor, c => c == '#');
    var r, g, b := ParseHex(Slice2(s, 0)), ParseHex(Slice2(s, 2)), ParseHex(Slice2(s, 4));
    if r.None? || g.None? || b.None? then None
    else Some("#" + Hex2(Clamp(Scale(r.value, f))) + Hex2(Clamp(Scale(g.value, f))) + Hex2(Clamp(Scale(b.value, f))))
  }

  /** Printing a byte as two hex digits and reading them back gives the byte. */
  lemma Hex2RoundTrip(v: nat)
    requires v <= 255
    ensures forall k :: 0 <= k < 2 ==> IsHexDigit(Hex2(v)[k])
    ensures ParseHex(Hex2(v)) == Some(v)
  {
    var s := Hex2(v);
    assert !IsPySpace(s[0]) && !IsPySpace(s[1]);
    assert DropLeading(s, IsPySpace) == s;
    assert DropTrailing(s, IsPySpace) == s;
    assert s[..1] == [s[0]];
    assert DigitsValue(s) == DigitsValue([s[0]]) * 16 + HexDigitValue(s[1]);
    assert DigitsValue([s[0]]) == HexDigitValue(s[0]);
  }

  /** Every successful result is '#' followed by six digits that encode the three scaled,
      clamped channels. */
  lemma AdjustColorEncodesChannels(hexColor: string, f: Factor)
    requires ValidFactor(f) && AdjustColor(hexColor, f).Some?
    ensures var out := AdjustColor(hexColor, f).value;
      var s := DropLeading(hexColor, c => c == '#');
      |out| == 7 && out[0] == '#' &&
      ParseHex(out[1..3]) == Some(Clamp(Scale(ParseHex(Slice2(s, 0)).value, f))) &&
      ParseHex(out[3..5]) == Some(Clamp(Scale(ParseHex(Slice2(s, 2)).value, f))) &&
      ParseHex(out[5..7]) == Some(Clamp(Scale(ParseHex(Slice2(s, 4)).value, f)))
  {
    var s := DropLeading(hexColor, c => c == '#');
    var r := Clamp(Scale(ParseHex(Slice2(s, 0)).value, f));
    var g := Clamp(Scale(ParseHex(Slice2(s, 2)).value, f));
    var b := Clamp(Scale(ParseHex(Slice2(s, 4)).value, f));
    var out := AdjustColor(hexColor, f).value;
    assert out == "#" + Hex2(r) + Hex2(g) + Hex2(b);
    assert out[1..3] == Hex2(r) && out[3..5] == Hex2(g) && out[5..7] == Hex2(b);
    Hex2RoundTrip(r);
    Hex2RoundTrip(g);
    Hex2RoundTrip(b);
  }

  /** A two-digit lower-case hex byte reads back to the same two characters. */
  lemma LowerPairRoundTrip(p: string)
    requires |p| == 2 && IsHexDigit(p[0]) && IsHexDigit(p[1])
    requires !('A' <= p[0] <= 'F') && !('A' <= p[1] <= 'F')
    ensures ParseHex(p).Some? && 0 <= ParseHex(p).value <= 255 && Hex2(ParseHex(p).value) == p
  {
    assert !IsPySpace(p[0]) && !IsPySpace(p[1]);
    assert DropLeading(p, IsPySpace) == p;
    assert DropTrailing(p, IsPySpace) == p;
    assert p[..1] == [p[0]];
    var v := HexDigitValue(p[0]) * 16 + HexDigitValue(p[1]);
    assert DigitsValue(p) == DigitsValue(p[..1]) * 16 + HexDigitValue(p[1]);
    assert DigitsValue(p[..1]) == HexDigitValue(p[0]);
    assert DigitsValue(p) == v;
    assert v / 16 == HexDigitValue(p[0]) && v % 16 == HexDigitValue(p[1]);
  }

  /** Is `c` a lower-case "#rrggbb" colour? */
  predicate LowerHexColor(c: string) {
    |c| == 7 && c[0] == '#' &&
    forall k :: 1 <= k < 7 ==> IsHexDigit(c[k]) && !('A' <= c[k] <= 'F')
  }

  /** A factor of exactly 1 leaves a lower-case "#rrggbb" colour unchanged. */
  lemma UnitFactorIdentity(c: string)
    requires LowerHexColor(c)
    ensures AdjustColor(c, Factor(1, 1)) == Some(c)
  {
    var one := Factor(1, 1);
    var s := c[1..];
    LeadingHashDropped(c);
    assert Slice2(s, 0) == c[1..3];
    assert Slice2(s, 2) == c[3..5];
    assert Slice2(s, 4) == c[5..7];
    UnitChannel(c[1..3]);
    UnitChannel(c[3..5]);
    UnitChannel(c[5..7]);
    var r, g, b := ParseHex(c[1..3]).value, ParseHex(c[3..5]).value, ParseHex(c[5..7]).value;
    calc {
      AdjustColor(c, one);
      Some("#" + Hex2(Clamp(Scale(r, one))) + Hex2(Clamp(Scale(g, one))) + Hex2(Clamp(Scale(b, one))));
      Some("#" + c[1..3] + c[3..5] + c[5..7]);
      { assert c == "#" + c[1..3] + c[3..5] + c[5..7]; }
      Some(c);
    }
  }

  /** The single leading '#' of a "#rrggbb" colour is what `lstrip('#')` removes. */
  lemma LeadingHashDropped(c: string)
    requires LowerHexColor(c)
    ensures DropLeading(c, d => d == '#') == c[1..]
  {
    assert c[1] != '#';
    assert DropLeading(c[1..], d => d == '#') == c[1..];
  }

  /** One lower-case channel scaled by 1 prints back as itself. */
  lemma UnitChannel(p: string)
    requires |p| == 2 && IsHexDigit(p[0]) && IsHexDigit(p[1])
    requires !('A' <= p[0] <= 'F') && !('A' <= p[1] <= 'F')
    ensures ParseHex(p).Some? && Hex2(Clamp(Scale(ParseHex(p).value, Factor(1, 1)))) == p
  {
    LowerPairRoundTrip(p);
    var v := ParseHex(p).value;
    assert Scale(v, Factor(1, 1)) == v;
  }

  /** A colour with fewer than five characters after the '#' is rejected: the last slice is empty. */
  lemma ShortColorRejected(hexColor: string, f: Factor)
    requires ValidFactor(f) && |DropLeading(hexColor, c => c == '#')| <= 4
    ensures AdjustColor(hexColor, f) == None
  {
    assert Slice2(DropLeading(hexColor, c => c == '#'), 4) == "";
    assert Strip("") == "";
  }
}
