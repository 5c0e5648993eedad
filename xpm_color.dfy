/**
 * `stringToColor` (xpm/xpm.go:183-213): the colour value of one `c` entry of
 * a colour line, written as "none", as `#rgb` or `#rrggbb`, or as an X11
 * colour name.
 */
module XpmColor {
  import opened Wrappers
  import opened XpmTypes

  predicate IsHexDigit(c: char) {
    '0' <= c <= '9' || 'a' <= c <= 'f' || 'A' <= c <= 'F'
  }

  predicate AllHex(s: string) {
    forall k :: 0 <= k < |s| ==> IsHexDigit(s[k])
  }

  function HexValue(c: char): (v: nat)
    requires IsHexDigit(c)
    ensures v < 16
  {
    if '0' <= c <= '9' then c as int - '0' as int
    else if 'a' <= c <= 'f' then c as int - 'a' as int + 10
    else c as int - 'A' as int + 10
  }

  function LowerAscii(c: char): char {
    if 'A' <= c <= 'Z' then (c as int - 'A' as int + 'a' as int) as char else c
  }

  /** `strings.EqualFold` restricted to ASCII letters, which is exact when one side is "none". */
  predicate EqualFold(s: string, t: string) {
    |s| == |t| && forall k :: 0 <= k < |s| ==> LowerAscii(s[k]) == LowerAscii(t[k])
  }

  /**
   * The colour denoted by `data`, given the X11 colour-name table `names`.
   * Go indexes `data[0]` without a length check, and its only caller never
   * passes an empty value, hence the precondition.
   */
  function StringToColor(data: string, names: map<string, Color>): (r: Result<Color, Error>)
    requires data != []
    ensures EqualFold(data, "none") ==> r == Ok(Transparent)
    ensures r.Ok? && data[0] == '#' && !EqualFold(data, "none") ==> r.value.a == 255 && (|data| == 4 || |data| == 7)
    ensures data[0] == '#' && |data| != 4 && |data| != 7 && !EqualFold(data, "none") ==> r == Err(InvalidHexColor)
    ensures data[0] != '#' && !EqualFold(data, "none") ==> (r.Ok? <==> data in names)
    ensures data[0] != '#' && r.Ok? && !EqualFold(data, "none") ==> r.value == names[data]
  {
    if EqualFold("none", data) then Ok(Transparent)
    else if data[0] == '#' then
      if |data| == 7 then
        if AllHex(data[1..]) then
          Ok(Color(16 * HexValue(data[1]) + HexValue(data[2]),
                   16 * HexValue(data[3]) + HexValue(data[4]),
                   16 * HexValue(data[5]) + HexValue(data[6]), 0xff))
        else Err(HexScan)
      else if |data| == 4 then
        // One hex digit per channel, multiplied by 16: X11 reads #fff as #f0f0f0.
        if AllHex(data[1..]) then
          Ok(Color(0x10 * HexValue(data[1]), 0x10 * HexValue(data[2]), 0x10 * HexValue(data[3]), 0xff))
        else Err(HexScan)
      else Err(InvalidHexColor)
    else if data in names then Ok(names[data])
    else Err(InvalidColorName)
  }

  function HexDigitChar(d: nat): (c: char)
    requires d < 16
    ensures IsHexDigit(c) && HexValue(c) == d
  {
    if d < 10 then (d + '0' as int) as char else (d - 10 + 'a' as int) as char
  }

  /** Two hex digits of a byte, high nibble first. */
  function HexByte(b: byte): string {
    [HexDigitChar(b / 16), HexDigitChar(b % 16)]
  }

  /** The `#rrggbb` text of an opaque colour's red, green and blue. */
  function HexText(c: Color): string {
    "#" + HexByte(c.r) + HexByte(c.g) + HexByte(c.b)
  }

  /** `#rrggbb` reads back as exactly those three bytes with alpha 0xff. */
  lemma LongHexRoundTrip(c: Color, names: map<string, Color>)
    ensures StringToColor(HexText(c), names) == Ok(Color(c.r, c.g, c.b, 0xff))
  {
    var t := HexText(c);
    assert |t| == 7 && t[0] == '#';
    assert !EqualFold("none", t);
    assert t[1..] == HexByte(c.r) + HexByte(c.g) + HexByte(c.b);
    assert AllHex(t[1..]);
  }

  /** `#rrggbb` with hex digits in either letter case is those three bytes, high digit first, with alpha 0xff. */
  lemma LongHexValue(x1: char, x2: char, y1: char, y2: char, z1: char, z2: char, names: map<string, Color>)
    requires IsHexDigit(x1) && IsHexDigit(x2) && IsHexDigit(y1) && IsHexDigit(y2) && IsHexDigit(z1) && IsHexDigit(z2)
    ensures StringToColor(['#', x1, x2, y1, y2, z1, z2], names) ==
              Ok(Color(16 * HexValue(x1) + HexValue(x2), 16 * HexValue(y1) + HexValue(y2),
                       16 * HexValue(z1) + HexValue(z2), 0xff))
  {
    var t := ['#', x1, x2, y1, y2, z1, z2];
    assert !EqualFold("none", t) by { assert LowerAscii(t[0]) != LowerAscii("none"[0]); }
    assert AllHex(t[1..]);
  }

  /** `#rgb` is the same colour as `#r0g0b0`, not `#rrggbb`. */
  lemma ShortHexIsTimesSixteen(x: char, y: char, z: char, names: map<string, Color>)
    requires IsHexDigit(x) && IsHexDigit(y) && IsHexDigit(z)
    ensures StringToColor(['#', x, y, z], names) == StringToColor(['#', x, '0', y, '0', z, '0'], names)
    ensures StringToColor(['#', x, y, z], names).Ok?
  {
    var short, long := ['#', x, y, z], ['#', x, '0', y, '0', z, '0'];
    assert !EqualFold("none", short) by { assert LowerAscii(short[0]) != LowerAscii("none"[0]); }
    assert !EqualFold("none", long);
    assert AllHex(short[1..]) && AllHex(long[1..]);
  }

  /** "none" in any mix of letter cases is the transparent colour. */
  lemma NoneAnyCase(data: string, names: map<string, Color>)
    requires |data| == 4
    requires data[0] in "nN" && data[1] in "oO" && data[2] in "nN" && data[3] in "eE"
    ensures StringToColor(data, names) == Ok(Transparent)
  {
    assert EqualFold("none", data);
  }

  /** The values of xpm/xpm_test.go:60-64 and the `#fff` case of the X11 rule. */
  lemma StringToColorExamples(names: map<string, Color>)
    ensures StringToColor("None", names) == Ok(Transparent)
    ensures StringToColor("#000000", names) == Ok(Color(0, 0, 0, 0xff))
    ensures StringToColor("#ffffff", names) == Ok(Color(0xff, 0xff, 0xff, 0xff))
    ensures StringToColor("#fff", names) == Ok(Color(0xf0, 0xf0, 0xf0, 0xff))
    ensures StringToColor("#FFFFFF", names) == Ok(Color(0xff, 0xff, 0xff, 0xff))
  {
    LongHexValue('F', 'F', 'F', 'F', 'F', 'F', names);
    assert "#FFFFFF" == ['#', 'F', 'F', 'F', 'F', 'F', 'F'];
    assert EqualFold("none", "None");
    BlackExample(names);
    assert !EqualFold("none", "#ffffff") && AllHex("#ffffff"[1..]);
    assert !EqualFold("none", "#fff") by { assert LowerAscii("#fff"[0]) != LowerAscii("none"[0]); }
    assert AllHex("#fff"[1..]);
  }

  /** `#000000` is opaque black. */
  lemma BlackExample(names: map<string, Color>)
    ensures StringToColor("#000000", names) == Ok(Color(0, 0, 0, 0xff))
  {
    assert !EqualFold("none", "#000000") && AllHex("#000000"[1..]);
  }
}
