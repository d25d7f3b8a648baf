/** `ColorTranslator`: hexadecimal colour strings to byte triples and to
    normalised shader colours. `parseInt` is modelled as ECMAScript
    defines it for radix 16, with `None` for its `NaN` result. */
module ColorTranslator {
  import opened Wrappers

  /** A three-element colour array `[r, g, b]`. */
  datatype Triple<T> = Triple(r: T, g: T, b: T)

  type Byte = n: nat | n < 256

  /** The characters `parseInt` skips before the number: white space and
      line terminators. */
  predicate IsStrWhiteSpace(c: char)
  {
    var k := c as int;
    || k == 0x09 || k == 0x0A || k == 0x0B || k == 0x0C || k == 0x0D || k == 0x20
    || k == 0xA0 || k == 0x1680 || (0x2000 <= k <= 0x200A) || k == 0x2028 || k == 0x2029
    || k == 0x202F || k == 0x205F || k == 0x3000 || k == 0xFEFF
  }

  predicate IsHexDigit(c: char)
  {
    ('0' <= c <= '9') || ('a' <= c <= 'f') || ('A' <= c <= 'F')
  }

  function HexDigitValue(c: char): (v: nat)
    requires IsHexDigit(c)
    ensures v < 16
  {
    if '0' <= c <= '9' then c as int - '0' as int
    else if 'a' <= c <= 'f' then c as int - 'a' as int + 10
    else c as int - 'A' as int + 10
  }

  /** The lower-case digit `toString(16)` writes for a value below 16. */
  function HexDigit(v: nat): (c: char)
    requires v < 16
    ensures IsHexDigit(c) && HexDigitValue(c) == v
  {
    if v < 10 then ('0' as int + v) as char else ('a' as int + v - 10) as char
  }

  function TrimStart(s: string): (t: string)
    ensures |t| <= |s|
  {
    if |s| > 0 && IsStrWhiteSpace(s[0]) then TrimStart(s[1..]) else s
  }

  /** Length of the longest prefix made of hexadecimal digits. */
  function HexDigitRun(s: string): (k: nat)
    ensures k <= |s|
  {
    if |s| > 0 && IsHexDigit(s[0]) then 1 + HexDigitRun(s[1..]) else 0
  }

  /** `TrimStart` drops exactly the leading white space. */
  lemma {:induction false} TrimStartDropsWhiteSpace(s: string)
    ensures var t := TrimStart(s);
            && t == s[|s| - |t|..]
            && (|t| > 0 ==> !IsStrWhiteSpace(t[0]))
            && (forall i | 0 <= i < |s| - |t| :: IsStrWhiteSpace(s[i]))
  {
    if |s| > 0 && IsStrWhiteSpace(s[0]) {
      TrimStartDropsWhiteSpace(s[1..]);
      var t := TrimStart(s);
      assert s[1..][|s| - 1 - |t|..] == s[|s| - |t|..];
      forall i | 0 <= i < |s| - |t|
        ensures IsStrWhiteSpace(s[i])
      {
        if i > 0 { assert s[i] == s[1..][i - 1]; }
      }
    }
  }

  /** `HexDigitRun` is the longest all-digit prefix. */
  lemma {:induction false} HexDigitRunIsDigits(s: string)
    ensures var k := HexDigitRun(s);
            && (forall i | 0 <= i < k :: IsHexDigit(s[i]))
            && (k < |s| ==> !IsHexDigit(s[k]))
  {
    if |s| > 0 && IsHexDigit(s[0]) {
      HexDigitRunIsDigits(s[1..]);
      var k := HexDigitRun(s);
      forall i | 0 <= i < k
        ensures IsHexDigit(s[i])
      {
        if i > 0 { assert s[i] == s[1..][i - 1]; }
      }
      if k < |s| { assert s[k] == s[1..][k - 1]; }
    }
  }

  /** The number a run of hexadecimal digits denotes, most significant first. */
  function HexValue(ds: string): nat
    requires forall i | 0 <= i < |ds| :: IsHexDigit(ds[i])
  {
    if |ds| == 0 then 0 else 16 * HexValue(ds[..|ds| - 1]) + HexDigitValue(ds[|ds| - 1])
  }

  /** `parseInt(s, 16)`: skip leading white space, take an optional sign,
      drop a `0x`/`0X` prefix, then read the longest run of hexadecimal
      digits; no digits gives `NaN`. */
  function ParseHexInt(s: string): (r: Option<int>)
    ensures r.None? <==> HexDigitRun(HexBody(s)) == 0
    ensures r.Some? && r.value < 0 ==> |TrimStart(s)| > 0 && TrimStart(s)[0] == '-'
  {
    var t := TrimStart(s);
    var negative := |t| > 0 && t[0] == '-';
    var body := HexBody(s);
    var k := HexDigitRun(body);
    if k == 0 then None
    else
      HexDigitRunIsDigits(body);
      var v: int := HexValue(body[..k]);
      Some(if negative then -v else v)
  }

  /** A sign followed by one digit: `-` negates, `+` does not. */
  lemma {:induction false} ParseSignedDigit(c: char, d: char)
    requires c == '-' || c == '+'
    requires IsHexDigit(d)
    ensures ParseHexInt([c, d]) == Some(if c == '-' then 0 - HexDigitValue(d) as int else HexDigitValue(d))
  {
    var s := [c, d];
    assert TrimStart(s) == s;
    assert s[1..] == [d];
    assert HexBody(s) == [d];
    assert HexDigitRun([d]) == 1 by {
      assert [d][1..] == [];
    }
    assert [d][..1] == [d];
    assert HexValue([d]) == HexDigitValue(d) by {
      assert [d][..0] == [];
    }
  }

  /** A bare `0x` or `0X` prefix has no digits after it: `NaN`. */
  lemma {:induction false} ParseBarePrefix(s: string)
    requires s == "0x" || s == "0X"
    ensures ParseHexInt(s) == None
  {
    assert TrimStart(s) == s;
    assert HexBody(s) == [];
  }

  /** A digit followed by a character that is not a digit (and does not
      form a `0x` prefix with it) reads as that one digit. */
  lemma {:induction false} ParseDigitThenOther(d: char, e: char)
    requires IsHexDigit(d) && !IsHexDigit(e)
    requires !(d == '0' && (e == 'x' || e == 'X'))
    ensures ParseHexInt([d, e]) == Some(HexDigitValue(d))
  {
    var s := [d, e];
    assert TrimStart(s) == s;
    assert HexBody(s) == s;
    assert HexDigitRun(s) == 1 by {
      assert s[1..] == [e];
    }
    assert s[..1] == [d];
    assert HexValue([d]) == HexDigitValue(d) by {
      assert [d][..0] == [];
    }
  }

  /** A string that starts with neither white space, a sign nor a digit
      has no digits to read: `NaN`. */
  lemma {:induction false} ParseNoLeadingDigit(s: string)
    requires |s| > 0 && !IsStrWhiteSpace(s[0]) && !IsHexDigit(s[0])
    requires s[0] != '-' && s[0] != '+'
    ensures ParseHexInt(s) == None
  {
    assert TrimStart(s) == s;
    assert HexBody(s) == s;
  }

  /** What `parseInt` reads digits from: `s` without leading white space,
      sign and `0x` prefix. */
  function HexBody(s: string): string
  {
    var t := TrimStart(s);
    var u := if |t| > 0 && (t[0] == '-' || t[0] == '+') then t[1..] else t;
    if |u| >= 2 && u[0] == '0' && (u[1] == 'x' || u[1] == 'X') then u[2..] else u
  }

  /** `String.prototype.slice(from, to)` with non-negative bounds: clamped
      to the string. */
  function Slice(s: string, from: nat, to: nat): (t: string)
    requires from <= to
    ensures |t| <= to - from
    ensures to <= |s| ==> t == s[from..to]
    ensures from <= |s| < to ==> t == s[from..]
    ensures |s| < from ==> t == []
  {
    var a := if from <= |s| then from else |s|;
    var b := if to <= |s| then to else |s|;
    s[a..b]
  }

  /** `hexToRgb`: positions 1-2, 3-4 and 5-6 parsed as base-16 numbers. */
  function HexToRgb(hex: string): (c: Triple<Option<int>>)
    ensures |hex| >= 7 ==> c == Triple(ParseHexInt(hex[1..3]), ParseHexInt(hex[3..5]), ParseHexInt(hex[5..7]))
  {
    Triple(ParseHexInt(Slice(hex, 1, 3)), ParseHexInt(Slice(hex, 3, 5)), ParseHexInt(Slice(hex, 5, 7)))
  }

  /** A colour string whose six positions after the first are hexadecimal
      digits, in either case; the first position and any tail are free. */
  predicate WellFormedHex(hex: string)
  {
    |hex| >= 7 && forall i | 1 <= i < 7 :: IsHexDigit(hex[i])
  }

  function ByteAt(hex: string, i: nat): (v: nat)
    requires i + 1 < |hex| && IsHexDigit(hex[i]) && IsHexDigit(hex[i + 1])
    ensures v <= 255
  {
    16 * HexDigitValue(hex[i]) + HexDigitValue(hex[i + 1])
  }

  /** Two hexadecimal digits parse to the byte they denote. */
  lemma {:induction false} ParseTwoDigits(s: string)
    requires |s| == 2 && IsHexDigit(s[0]) && IsHexDigit(s[1])
    ensures ParseHexInt(s) == Some(16 * HexDigitValue(s[0]) + HexDigitValue(s[1]))
  {
    assert TrimStart(s) == s;
    assert HexBody(s) == s;
    assert HexDigitRun(s[1..]) == 1 by {
      assert HexDigitRun(s[1..][1..]) == 0;
    }
    assert s[..2] == s;
    assert s[..2][..1] == [s[0]];
    assert HexValue([s[0]]) == HexDigitValue(s[0]) by {
      assert [s[0]][..0] == [];
    }
  }

  /** A well-formed colour string gives three bytes, each the value of its
      two digits. */
  lemma {:induction false} HexToRgbWellFormed(hex: string)
    requires WellFormedHex(hex)
    ensures HexToRgb(hex) == Triple(Some(ByteAt(hex, 1)), Some(ByteAt(hex, 3)), Some(ByteAt(hex, 5)))
    ensures 0 <= ByteAt(hex, 1) <= 255 && 0 <= ByteAt(hex, 3) <= 255 && 0 <= ByteAt(hex, 5) <= 255
  {
    ParseByteAt(hex, 1);
    ParseByteAt(hex, 3);
    ParseByteAt(hex, 5);
  }

  lemma {:induction false} ParseByteAt(hex: string, i: nat)
    requires i + 1 < |hex| && IsHexDigit(hex[i]) && IsHexDigit(hex[i + 1])
    ensures ParseHexInt(hex[i..i + 2]) == Some(ByteAt(hex, i))
  {
    var s := hex[i..i + 2];
    assert s[0] == hex[i] && s[1] == hex[i + 1];
    ParseTwoDigits(s);
  }

  /** Only positions 1 to 6 matter: strings agreeing there parse alike. */
  lemma HexToRgbReadsOnlyDigits(hex: string, other: string)
    requires |hex| >= 7 && |other| >= 7
    requires hex[1..7] == other[1..7]
    ensures HexToRgb(hex) == HexToRgb(other)
  {
    assert forall i | 1 <= i < 7 :: hex[i] == hex[1..7][i - 1] == other[i];
    assert hex[1..3] == other[1..3];
    assert hex[3..5] == other[3..5];
    assert hex[5..7] == other[5..7];
  }

  /** The `#rrggbb` string of three bytes, as the colour input writes it. */
  function RgbToHex(c: Triple<Byte>): (hex: string)
    ensures WellFormedHex(hex) && |hex| == 7 && hex[0] == '#'
  {
    ['#', HexDigit(c.r / 16), HexDigit(c.r % 16), HexDigit(c.g / 16), HexDigit(c.g % 16),
     HexDigit(c.b / 16), HexDigit(c.b % 16)]
  }

  /** Writing three bytes as `#rrggbb` and parsing gives them back. */
  lemma {:induction false} HexRoundTrip(c: Triple<Byte>)
    ensures HexToRgb(RgbToHex(c)) == Triple(Some(c.r as int), Some(c.g as int), Some(c.b as int))
  {
    HexToRgbWellFormed(RgbToHex(c));
  }

  /** `rgbToShaderColor`: each component divided by 255, `NaN` staying `NaN`. */
  function RgbToShaderColor(c: Triple<Option<int>>): (s: Triple<Option<real>>)
    ensures s.r.Some? <==> c.r.Some?
    ensures s.g.Some? <==> c.g.Some?
    ensures s.b.Some? <==> c.b.Some?
    ensures c.r.Some? ==> s.r.value * 255.0 == c.r.value as real
    ensures c.g.Some? ==> s.g.value * 255.0 == c.g.value as real
    ensures c.b.Some? ==> s.b.value * 255.0 == c.b.value as real
  {
    Triple(Normalise(c.r), Normalise(c.g), Normalise(c.b))
  }

  function Normalise(v: Option<int>): (s: Option<real>)
    ensures s.Some? <==> v.Some?
    ensures v.Some? ==> s.value * 255.0 == v.value as real
    ensures v.Some? && 0 <= v.value <= 255 ==> 0.0 <= s.value <= 1.0
  {
    if v.Some? then Some(v.value as real / 255.0) else None
  }

  /** Byte components land in the unit interval, with 0 and 255 at its ends. */
  lemma ShaderColorInUnitRange(c: Triple<Option<int>>)
    requires c.r.Some? && c.g.Some? && c.b.Some?
    requires 0 <= c.r.value <= 255 && 0 <= c.g.value <= 255 && 0 <= c.b.value <= 255
    ensures var s := RgbToShaderColor(c);
            && 0.0 <= s.r.value <= 1.0 && 0.0 <= s.g.value <= 1.0 && 0.0 <= s.b.value <= 1.0
            && (c.r.value == 0 <==> s.r.value == 0.0)
            && (c.r.value == 255 <==> s.r.value == 1.0)
            && (c.g.value == 0 <==> s.g.value == 0.0)
            && (c.g.value == 255 <==> s.g.value == 1.0)
            && (c.b.value == 0 <==> s.b.value == 0.0)
            && (c.b.value == 255 <==> s.b.value == 1.0)
  {
  }

  /** `hexToShaderColor`: `hexToRgb` then `rgbToShaderColor`. */
  function HexToShaderColor(hex: string): (s: Triple<Option<real>>)
    ensures s == RgbToShaderColor(HexToRgb(hex))
    ensures WellFormedHex(hex) ==> s.r.Some? && 0.0 <= s.r.value <= 1.0
    ensures WellFormedHex(hex) ==> s.g.Some? && 0.0 <= s.g.value <= 1.0
    ensures WellFormedHex(hex) ==> s.b.Some? && 0.0 <= s.b.value <= 1.0
  {
    if WellFormedHex(hex) then HexToRgbWellFormed(hex); RgbToShaderColor(HexToRgb(hex))
    else RgbToShaderColor(HexToRgb(hex))
  }

  /** The default character colour, white, is full intensity. */
  lemma {:induction false} WhiteIsOne()
    ensures HexToRgb("#ffffff") == Triple(Some(255), Some(255), Some(255))
    ensures HexToShaderColor("#ffffff") == Triple(Some(1.0), Some(1.0), Some(1.0))
  {
    HexToRgbWellFormed("#ffffff");
    assert ByteAt("#ffffff", 1) == 255;
  }

  /** The default background colour, black, is zero intensity. */
  lemma {:induction false} BlackIsZero()
    ensures HexToRgb("#000000") == Triple(Some(0), Some(0), Some(0))
    ensures HexToShaderColor("#000000") == Triple(Some(0.0), Some(0.0), Some(0.0))
  {
    HexToRgbWellFormed("#000000");
    assert ByteAt("#000000", 1) == 0;
  }

  /** The three-digit shorthand is not understood: "#fff" reads as
      `[255, 15, NaN]`. */
  lemma {:induction false} ShorthandNotExpanded()
    ensures HexToRgb("#fff") == Triple(Some(255), Some(15), None)
  {
    ParseTwoDigits("ff");
    assert Slice("#fff", 3, 5) == "f";
    assert TrimStart("f") == "f";
    assert HexBody("f") == "f";
    assert HexDigitRun("f") == 1 by { assert HexDigitRun("f"[1..]) == 0; }
    assert "f"[..1] == "f";
    assert HexValue("f") == 15 by { assert "f"[..0] == ""; }
    assert Slice("#fff", 5, 7) == "";
  }
}
