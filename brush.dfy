/**
 * Colour strings for solid brushes: `#` followed by 3, 4, 6 or 8 hexadecimal
 * digits, or one of five colour names compared without regard to ASCII case.
 * Components are the integers 0..255 that `strtol` yields for the two-character
 * buffers the parser fills; the final division by 255 is not modelled.
 */
module Brush {

  datatype Option<T> = None | Some(value: T)

  /** A colour with its components in the order of the `Color` constructor. */
  datatype Color = Color(r: int, g: int, b: int, a: int)

  predicate InByteRange(c: Color) {
    0 <= c.r < 256 && 0 <= c.g < 256 && 0 <= c.b < 256 && 0 <= c.a < 256
  }

  const Opaque := 0xFF
  const White := Color(0xFF, 0xFF, 0xFF, 0xFF)

  predicate IsHexDigit(c: char) {
    ('0' <= c <= '9') || ('a' <= c <= 'f') || ('A' <= c <= 'F')
  }

  function HexValue(c: char): (v: nat)
    requires IsHexDigit(c)
    ensures v < 16
  {
    if '0' <= c <= '9' then (c as int) - ('0' as int)
    else if 'a' <= c <= 'f' then (c as int) - ('a' as int) + 10
    else (c as int) - ('A' as int) + 10
  }

  /** A two-character component buffer, as the parser fills `a`, `r`, `g` and `b`. */
  predicate IsHexBuffer(buf: seq<char>) {
    |buf| == 2 && IsHexDigit(buf[0]) && IsHexDigit(buf[1])
  }

  /** The value `strtol (buf, NULL, 16)` gives for a buffer of two hex digits. */
  function Strtol16(buf: seq<char>): (v: nat)
    requires IsHexBuffer(buf)
    ensures v < 256
  {
    16 * HexValue(buf[0]) + HexValue(buf[1])
  }

  /** Number of characters after the `#`, as `strlen (name + 1)` counts them. */
  function DigitCount(s: seq<char>): nat
    requires |s| > 0
  {
    |s| - 1
  }

  predicate HexLength(n: nat) {
    n == 3 || n == 4 || n == 6 || n == 8
  }

  /**
   * What the parser demands of its argument: a C string (no NUL inside it) and,
   * in the `#` form with a recognised length, hexadecimal digits only
   * (`strtol`'s handling of other characters is not modelled).
   */
  predicate WellFormedName(s: seq<char>) {
    (forall i :: 0 <= i < |s| ==> s[i] != '\0') &&
    (|s| > 0 && s[0] == '#' && HexLength(DigitCount(s)) ==>
       forall i :: 1 <= i < |s| ==> IsHexDigit(s[i]))
  }

  /** The four buffers `a`, `r`, `g`, `b` after the switch on the digit count. */
  function HexBuffers(s: seq<char>): (bufs: seq<seq<char>>)
    requires WellFormedName(s) && |s| > 0 && s[0] == '#'
    ensures |bufs| == 4 && forall k :: 0 <= k < 4 ==> IsHexBuffer(bufs[k])
  {
    var ff := ['F', 'F'];
    match DigitCount(s)
    case 3 => [ff, ['0', s[1]], ['0', s[2]], ['0', s[3]]]
    case 4 => [['0', s[1]], ['0', s[2]], ['0', s[3]], ['0', s[4]]]
    case 6 => [ff, [s[1], s[2]], [s[3], s[4]], [s[5], s[6]]]
    case 8 => [[s[1], s[2]], [s[3], s[4]], [s[5], s[6]], [s[7], s[8]]]
    case _ => [ff, ff, ff, ff]
  }

  function HexColor(s: seq<char>): (c: Color)
    requires WellFormedName(s) && |s| > 0 && s[0] == '#'
    ensures InByteRange(c)
  {
    var bufs := HexBuffers(s);
    Color(Strtol16(bufs[1]), Strtol16(bufs[2]), Strtol16(bufs[3]), Strtol16(bufs[0]))
  }

  /** One entry of the table of named brushes. */
  datatype NamedBrush = NamedBrush(name: string, color: bv64)

  /** The table of named brushes, without its NULL terminator. */
  const NamedBrushes: seq<NamedBrush> := [
    NamedBrush("red", 0xFFFF0000),
    NamedBrush("green", 0xFF00FF00),
    NamedBrush("blue", 0xFF0000FF),
    NamedBrush("black", 0xFF000000),
    NamedBrush("white", 0xFFFFFFFF)
  ]

  function ToLowerAscii(c: char): char {
    if 'A' <= c <= 'Z' then ((c as int) + 32) as char else c
  }

  /** `g_strcasecmp (x, y) == 0`: equal after ASCII lower-casing. */
  predicate EqualIgnoringCase(x: seq<char>, y: seq<char>) {
    |x| == |y| && forall i :: 0 <= i < |x| ==> ToLowerAscii(x[i]) == ToLowerAscii(y[i])
  }

  /** The components unpacked from a table constant by shifts of 16, 8, 0 and 24. */
  function Unpack(color: bv64): (c: Color)
    ensures InByteRange(c)
  {
    Color(((color >> 16) & 0xFF) as int, ((color >> 8) & 0xFF) as int,
          (color & 0xFF) as int, ((color >> 24) & 0xFF) as int)
  }

  /** The linear search of the table from index `i` on. */
  function LookupNamed(s: seq<char>, i: nat): (res: Option<Color>)
    requires i <= |NamedBrushes|
    ensures res.Some? ==>
      exists j :: i <= j < |NamedBrushes| && EqualIgnoringCase(NamedBrushes[j].name, s) && res.value == Unpack(NamedBrushes[j].color)
    ensures res.None? <==> forall j :: i <= j < |NamedBrushes| ==> !EqualIgnoringCase(NamedBrushes[j].name, s)
    decreases |NamedBrushes| - i
  {
    if i == |NamedBrushes| then None
    else if EqualIgnoringCase(NamedBrushes[i].name, s) then Some(Unpack(NamedBrushes[i].color))
    else LookupNamed(s, i + 1)
  }

  /**
   * `solid_brush_from_str`: `None` for a NULL name. A name starting with `#`
   * always gives a colour; the `sc#` form is not implemented and falls through
   * to the table search, which it cannot match.
   */
  function SolidBrushFromStr(name: Option<seq<char>>): (res: Option<Color>)
    requires name.Some? ==> WellFormedName(name.value)
    ensures res.Some? ==> InByteRange(res.value)
    ensures name.None? ==> res.None?
  {
    match name
    case None => None
    case Some(s) =>
      if |s| > 0 && s[0] == '#' then Some(HexColor(s))
      else LookupNamed(s, 0)
  }

  // ---------------------------------------------------------------------
  // Properties of the parser

  predicate AllHex(s: seq<char>) {
    forall i :: 1 <= i < |s| ==> IsHexDigit(s[i])
  }

  lemma NoNulInHex(s: seq<char>)
    requires |s| > 0 && s[0] == '#' && AllHex(s)
    ensures forall i :: 0 <= i < |s| ==> s[i] != '\0'
  {
    forall i | 0 <= i < |s| ensures s[i] != '\0' {
      if i > 0 { assert IsHexDigit(s[i]); }
    }
  }

  /** `#RRGGBB`: the three digit pairs in order, alpha fully opaque. */
  lemma SixDigits(s: seq<char>)
    requires |s| == 7 && s[0] == '#' && AllHex(s)
    ensures WellFormedName(s)
    ensures SolidBrushFromStr(Some(s)) == Some(Color(
      16 * HexValue(s[1]) + HexValue(s[2]), 16 * HexValue(s[3]) + HexValue(s[4]),
      16 * HexValue(s[5]) + HexValue(s[6]), Opaque))
  {
    NoNulInHex(s);
  }

  /** `#AARRGGBB`: alpha from the first pair, then red, green and blue. */
  lemma EightDigits(s: seq<char>)
    requires |s| == 9 && s[0] == '#' && AllHex(s)
    ensures WellFormedName(s)
    ensures SolidBrushFromStr(Some(s)) == Some(Color(
      16 * HexValue(s[3]) + HexValue(s[4]), 16 * HexValue(s[5]) + HexValue(s[6]),
      16 * HexValue(s[7]) + HexValue(s[8]), 16 * HexValue(s[1]) + HexValue(s[2])))
  {
    NoNulInHex(s);
  }

  /** `#RGB`: each component is the value of its single digit, not the digit doubled. */
  lemma ThreeDigits(s: seq<char>)
    requires |s| == 4 && s[0] == '#' && AllHex(s)
    ensures WellFormedName(s)
    ensures SolidBrushFromStr(Some(s)) == Some(Color(HexValue(s[1]), HexValue(s[2]), HexValue(s[3]), Opaque))
  {
    NoNulInHex(s);
  }

  /** `#ARGB`: alpha then red, green and blue, each the value of one digit. */
  lemma FourDigits(s: seq<char>)
    requires |s| == 5 && s[0] == '#' && AllHex(s)
    ensures WellFormedName(s)
    ensures SolidBrushFromStr(Some(s)) == Some(Color(HexValue(s[2]), HexValue(s[3]), HexValue(s[4]), HexValue(s[1])))
  {
    NoNulInHex(s);
  }

  /** A `#` followed by any other number of characters is opaque white. */
  lemma OtherLengthIsWhite(s: seq<char>)
    requires WellFormedName(s) && |s| > 0 && s[0] == '#' && !HexLength(|s| - 1)
    ensures SolidBrushFromStr(Some(s)) == Some(White)
  {
  }

  /** The ASCII lower-case form of a string. */
  function Lower(s: seq<char>): (l: seq<char>)
    ensures |l| == |s| && forall k :: 0 <= k < |s| ==> l[k] == ToLowerAscii(s[k])
  {
    if s == [] then [] else [ToLowerAscii(s[0])] + Lower(s[1..])
  }

  predicate IsLowerCase(x: seq<char>) {
    forall k :: 0 <= k < |x| ==> ToLowerAscii(x[k]) == x[k]
  }

  /** A lower-case string matches `s` ignoring case exactly when it is `s` lower-cased. */
  lemma MatchIsLower(x: seq<char>, s: seq<char>)
    requires IsLowerCase(x) && EqualIgnoringCase(x, s)
    ensures x == Lower(s)
  {
  }

  /** A name matches at most one entry of the table, whatever its letter case. */
  lemma TableNamesDistinct(i: nat, j: nat, s: seq<char>)
    requires i < |NamedBrushes| && j < |NamedBrushes| && i != j
    requires EqualIgnoringCase(NamedBrushes[i].name, s)
    ensures !EqualIgnoringCase(NamedBrushes[j].name, s)
  {
    var x, y := NamedBrushes[i].name, NamedBrushes[j].name;
    assert IsLowerCase(x) && IsLowerCase(y) && x != y;
    MatchIsLower(x, s);
    if EqualIgnoringCase(y, s) {
      MatchIsLower(y, s);
      assert false;
    }
  }

  /** A name matching table entry `i` in any letter case gives that entry's colour. */
  lemma NamedColor(s: seq<char>, i: nat)
    requires WellFormedName(s) && i < |NamedBrushes|
    requires EqualIgnoringCase(NamedBrushes[i].name, s)
    ensures SolidBrushFromStr(Some(s)) == Some(Unpack(NamedBrushes[i].color))
  {
    assert ToLowerAscii(s[0]) == NamedBrushes[i].name[0];
    var res := LookupNamed(s, 0);
    assert res.Some?;
    var j :| 0 <= j < |NamedBrushes| && EqualIgnoringCase(NamedBrushes[j].name, s) && res.value == Unpack(NamedBrushes[j].color);
    if j != i {
      TableNamesDistinct(i, j, s);
      assert false;
    }
  }

  /** The colours the five table constants unpack to. */
  lemma TableColors()
    ensures Unpack(NamedBrushes[0].color) == Color(0xFF, 0, 0, 0xFF)
    ensures Unpack(NamedBrushes[1].color) == Color(0, 0xFF, 0, 0xFF)
    ensures Unpack(NamedBrushes[2].color) == Color(0, 0, 0xFF, 0xFF)
    ensures Unpack(NamedBrushes[3].color) == Color(0, 0, 0, 0xFF)
    ensures Unpack(NamedBrushes[4].color) == Color(0xFF, 0xFF, 0xFF, 0xFF)
  {
  }

  /** Any name that matches no table entry, and does not start with `#`, gives NULL. */
  lemma UnknownNameIsNull(s: seq<char>)
    requires WellFormedName(s) && !(|s| > 0 && s[0] == '#')
    requires forall j :: 0 <= j < |NamedBrushes| ==> !EqualIgnoringCase(NamedBrushes[j].name, s)
    ensures SolidBrushFromStr(Some(s)) == None
  {
  }

  /** The `sc#` form is not implemented: it always gives NULL. */
  lemma ScRgbIsNull(s: seq<char>)
    requires WellFormedName(s) && |s| >= 3 && s[0] == 's' && s[1] == 'c' && s[2] == '#'
    ensures SolidBrushFromStr(Some(s)) == None
  {
    NoHashInNames();
    forall j | 0 <= j < |NamedBrushes| ensures !EqualIgnoringCase(NamedBrushes[j].name, s) {
      var x := NamedBrushes[j].name;
      if |x| == |s| {
        assert ToLowerAscii(x[2]) != ToLowerAscii(s[2]);
      }
    }
  }

  /** The third letter of every table name lower-cases to something other than `#`. */
  lemma NoHashInNames()
    ensures forall j :: 0 <= j < |NamedBrushes| ==> |NamedBrushes[j].name| > 2 && ToLowerAscii(NamedBrushes[j].name[2]) != '#'
  {
  }

  // ---------------------------------------------------------------------
  // A formatter, the parser's inverse on the 8- and 6-digit forms

  function HexDigitChar(n: nat): (c: char)
    requires n < 16
    ensures IsHexDigit(c) && HexValue(c) == n
  {
    if n < 10 then ((n + '0' as int) as char) else ((n - 10 + 'A' as int) as char)
  }

  function HexPair(v: nat): (p: seq<char>)
    requires v < 256
    ensures IsHexBuffer(p) && Strtol16(p) == v
  {
    [HexDigitChar(v / 16), HexDigitChar(v % 16)]
  }

  /** `#AARRGGBB` for a colour with byte-sized components. */
  function FormatArgb(c: Color): (s: seq<char>)
    requires InByteRange(c)
    ensures |s| == 9 && s[0] == '#' && AllHex(s)
  {
    ['#'] + HexPair(c.a) + HexPair(c.r) + HexPair(c.g) + HexPair(c.b)
  }

  /** `#RRGGBB` for a colour with byte-sized components; alpha is dropped. */
  function FormatRgb(c: Color): (s: seq<char>)
    requires InByteRange(c)
    ensures |s| == 7 && s[0] == '#' && AllHex(s)
  {
    ['#'] + HexPair(c.r) + HexPair(c.g) + HexPair(c.b)
  }

  /** Parsing the 8-digit form of a colour gives that colour back. */
  lemma ArgbRoundTrip(c: Color)
    requires InByteRange(c)
    ensures WellFormedName(FormatArgb(c))
    ensures SolidBrushFromStr(Some(FormatArgb(c))) == Some(c)
  {
    var s := FormatArgb(c);
    EightDigits(s);
    var pa, pr, pg, pb := HexPair(c.a), HexPair(c.r), HexPair(c.g), HexPair(c.b);
    assert s[1..3] == pa && s[3..5] == pr && s[5..7] == pg && s[7..9] == pb;
    assert [s[1], s[2]] == pa && [s[3], s[4]] == pr && [s[5], s[6]] == pg && [s[7], s[8]] == pb;
  }

  /** Parsing the 6-digit form gives the colour with alpha forced to opaque. */
  lemma RgbRoundTrip(c: Color)
    requires InByteRange(c)
    ensures WellFormedName(FormatRgb(c))
    ensures SolidBrushFromStr(Some(FormatRgb(c))) == Some(c.(a := Opaque))
  {
    var s := FormatRgb(c);
    SixDigits(s);
    var pr, pg, pb := HexPair(c.r), HexPair(c.g), HexPair(c.b);
    assert [s[1], s[2]] == pr && [s[3], s[4]] == pg && [s[5], s[6]] == pb;
  }
}
