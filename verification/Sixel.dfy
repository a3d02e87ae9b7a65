/**
  What a Sixel byte stream means: `parse_sixel_params` and `decode_sixel` of kernel/src/fb_console.rs.
  The format is chapter 14 of the VT330/VT340 Programmer Reference Manual.

  A stream is a list of commands. Each command moves a pen and paints some columns of six pixels. The
  picture is what these column events leave on an infinite black canvas.
 */
module Sixel {
  import opened Basics
  import opened Wrappers

  /** A 32-bit XRGB8888 value. */
  type Color = nat

  const BLACK: Color := 0xFF000000
  const U32_MAX: nat := 0xFFFF_FFFF

  // ---------------------------------------------------------------------------
  // Parameters
  // ---------------------------------------------------------------------------

  predicate IsDigit(b: Byte) { 48 <= b <= 57 }

  const SEMICOLON: Byte := 59

  predicate IsParam(b: Byte) { IsDigit(b) || b == SEMICOLON }

  /** The length of the longest prefix made of digits and semicolons. */
  function ParamSpan(data: seq<Byte>): (n: nat)
    ensures n <= |data|
    ensures forall i | 0 <= i < n :: IsParam(data[i])
    ensures n < |data| ==> !IsParam(data[n])
  {
    if data == [] || !IsParam(data[0]) then 0 else 1 + ParamSpan(data[1..])
  }

  function DigitValue(b: Byte): nat {
    if IsDigit(b) then b - 48 else 0
  }

  function Decimal(digits: seq<Byte>): nat {
    if digits == [] then 0 else 10 * Decimal(digits[..|digits| - 1]) + DigitValue(digits[|digits| - 1])
  }

  lemma {:induction false} DecimalOfNext(digits: seq<Byte>, b: Byte)
    ensures Decimal(digits + [b]) == 10 * Decimal(digits) + DigitValue(b)
  {
    assert (digits + [b])[..|digits|] == digits;
  }

  /** A number as the kernel holds it: 32 bits, saturating. */
  function Saturated(n: nat): nat {
    if n > U32_MAX then U32_MAX else n
  }

  function FirstSemicolon(s: seq<Byte>): (k: nat)
    ensures k <= |s|
    ensures forall i | 0 <= i < k :: s[i] != SEMICOLON
    ensures k < |s| ==> s[k] == SEMICOLON
  {
    if s == [] || s[0] == SEMICOLON then 0 else 1 + FirstSemicolon(s[1..])
  }

  /** The numbers between the semicolons; an empty field counts as 0, except at the very end. */
  function Fields(s: seq<Byte>): seq<nat> {
    var k := FirstSemicolon(s);
    if k < |s| then [Saturated(Decimal(s[..k]))] + Fields(s[k + 1..])
    else if s == [] then []
    else [Saturated(Decimal(s))]
  }

  function Params(data: seq<Byte>): seq<nat> {
    Fields(data[..ParamSpan(data)])
  }

  // ---------------------------------------------------------------------------
  // Printing and reading back parameters
  // ---------------------------------------------------------------------------

  function Printed(n: nat): (digits: seq<Byte>)
    ensures |digits| > 0 && forall i | 0 <= i < |digits| :: IsDigit(digits[i])
  {
    if n < 10 then [48 + n] else Printed(n / 10) + [48 + n % 10]
  }

  function PrintedList(ns: seq<nat>): (s: seq<Byte>)
    ensures forall i | 0 <= i < |s| :: IsParam(s[i])
  {
    if ns == [] then []
    else if |ns| == 1 then Printed(ns[0])
    else Printed(ns[0]) + [SEMICOLON] + PrintedList(ns[1..])
  }

  lemma {:induction false} DecimalOfPrinted(n: nat)
    ensures Decimal(Printed(n)) == n
  {
    if n < 10 {
      assert Decimal([48 + n]) == 10 * Decimal([]) + n by {
        assert [48 + n][..0] == [];
      }
    } else {
      DecimalOfPrinted(n / 10);
      var s := Printed(n);
      assert s[..|s| - 1] == Printed(n / 10);
    }
  }

  lemma {:induction false} FirstSemicolonAfter(a: seq<Byte>, b: seq<Byte>)
    requires forall i | 0 <= i < |a| :: IsDigit(a[i])
    ensures FirstSemicolon(a + [SEMICOLON] + b) == |a|
  {
    var s := a + [SEMICOLON] + b;
    if a != [] {
      FirstSemicolonAfter(a[1..], b);
      assert s[1..] == a[1..] + [SEMICOLON] + b;
    }
  }

  lemma {:induction false} FirstSemicolonNowhere(a: seq<Byte>)
    requires forall i | 0 <= i < |a| :: IsDigit(a[i])
    ensures FirstSemicolon(a) == |a|
  {
    if a != [] {
      FirstSemicolonNowhere(a[1..]);
    }
  }

  /** A field ends at its semicolon; an empty one counts as 0. */
  lemma {:induction false} FieldsSplit(head: seq<Byte>, tail: seq<Byte>)
    requires forall i | 0 <= i < |head| :: IsDigit(head[i])
    ensures Fields(head + [SEMICOLON] + tail) == [Saturated(Decimal(head))] + Fields(tail)
  {
    var s := head + [SEMICOLON] + tail;
    FirstSemicolonAfter(head, tail);
    assert s[..|head|] == head && s[|head| + 1..] == tail;
  }

  function Capped(ns: seq<nat>): (r: seq<nat>)
    ensures |r| == |ns| && forall i | 0 <= i < |ns| :: r[i] == Min(ns[i], U32_MAX)
  {
    seq(|ns|, i requires 0 <= i < |ns| => Min(ns[i], U32_MAX))
  }

  /** Reading back a printed list of numbers gives the list, with numbers that do not fit in 32 bits cut down. */
  lemma {:induction false} FieldsOfPrinted(ns: seq<nat>)
    ensures Fields(PrintedList(ns)) == Capped(ns)
  {
    if |ns| == 1 {
      DecimalOfPrinted(ns[0]);
      FirstSemicolonNowhere(Printed(ns[0]));
    } else if |ns| > 1 {
      var head, tail := Printed(ns[0]), PrintedList(ns[1..]);
      FieldsSplit(head, tail);
      DecimalOfPrinted(ns[0]);
      FieldsOfPrinted(ns[1..]);
      CappedFirst(ns);
    }
  }

  lemma CappedFirst(ns: seq<nat>)
    requires ns != []
    ensures Capped(ns) == [Saturated(ns[0])] + Capped(ns[1..])
  {
  }

  /** Appending something that is no parameter byte does not change the span. */
  lemma {:induction false} SpanStopsAt(params: seq<Byte>, rest: seq<Byte>)
    requires forall i | 0 <= i < |params| :: IsParam(params[i])
    requires rest == [] || !IsParam(rest[0])
    ensures ParamSpan(params + rest) == |params|
  {
    if params != [] {
      SpanStopsAt(params[1..], rest);
      assert (params + rest)[1..] == params[1..] + rest;
    } else {
      assert params + rest == rest;
    }
  }

  /** Parameters followed by any other byte are read back exactly. */
  lemma {:induction false} ParamsReadBack(ns: seq<nat>, rest: seq<Byte>)
    requires forall i | 0 <= i < |ns| :: ns[i] <= U32_MAX
    requires rest == [] || !IsParam(rest[0])
    ensures ParamSpan(PrintedList(ns) + rest) == |PrintedList(ns)|
    ensures Params(PrintedList(ns) + rest) == ns
  {
    var s := PrintedList(ns);
    SpanStopsAt(s, rest);
    assert (s + rest)[..|s|] == s;
    FieldsOfPrinted(ns);
    assert Capped(ns) == ns;
  }

  // ---------------------------------------------------------------------------
  // Commands
  // ---------------------------------------------------------------------------

  /** One painted column: six pixels from row `6 * band` down, those whose bit is set get the colour. */
  datatype Column = Column(x: nat, band: nat, bits: nat, color: Color)

  /** `checked` tells whether the kernel was built to panic on arithmetic overflow instead of wrapping around. */
  datatype Pen = Pen(palette: seq<Color>, register: nat, x: nat, band: nat, checked: bool)

  /** What one command does, or that it stops the decoder: an index out of bounds, or an overflow in a checked build. */
  datatype Turn = Turned(length: nat, pen: Pen, columns: seq<Column>) | Panicked

  const HASH: Byte := 35
  const BANG: Byte := 33
  const DOLLAR: Byte := 36
  const MINUS: Byte := 45

  predicate IsSixel(b: Byte) { 0x3f <= b <= 0x7e }

  function Pow2(n: nat): (p: nat)
    ensures p > 0
  {
    if n == 0 then 1 else 2 * Pow2(n - 1)
  }

  /** Bitwise or. */
  function Or(a: nat, b: nat): nat {
    if a == 0 && b == 0 then 0
    else 2 * Or(a / 2, b / 2) + if a % 2 == 1 || b % 2 == 1 then 1 else 0
  }

  /** Redefining a register multiplies each percentage by 255 in 32 bits. */
  predicate Overflows(params: seq<nat>) {
    |params| >= 5 && (params[2] * 255 > U32_MAX || params[3] * 255 > U32_MAX || params[4] * 255 > U32_MAX)
  }

  /** A percentage scaled to 0..255, in 32-bit arithmetic that wraps around. */
  function Scaled(percent: nat): nat {
    percent * 255 % 0x1_0000_0000 / 100
  }

  /** Three values shifted into place, in 32-bit arithmetic, below an opaque alpha. */
  function Packed(red: nat, green: nat, blue: nat): Color {
    Or(Or(Or(0xFF00_0000, red * 0x1_0000 % 0x1_0000_0000), green * 0x100 % 0x1_0000_0000), blue)
  }

  function Rgb(r: nat, g: nat, b: nat): Color {
    Packed(Scaled(r), Scaled(g), Scaled(b))
  }

  lemma {:induction false} OrOfDisjoint(a: nat, b: nat, k: nat)
    requires b < Pow2(k)
    ensures Or(a * Pow2(k), b) == a * Pow2(k) + b
  {
    if k == 0 {
      OrWithZero(a);
    } else {
      OrOfDisjoint(a, b / 2, k - 1);
      assert a * Pow2(k) == 2 * (a * Pow2(k - 1));
    }
  }

  lemma {:induction false} OrWithZero(a: nat)
    ensures Or(a, 0) == a
  {
    if a > 0 {
      OrWithZero(a / 2);
    }
  }

  lemma {:induction false} Pow2Doubles(k: nat, n: nat)
    ensures Pow2(k + n) == Pow2(k) * Pow2(n)
  {
    if n > 0 {
      Pow2Doubles(k, n - 1);
      DoubledFactor(Pow2(k), Pow2(n - 1));
    }
  }

  lemma DoubledFactor(a: nat, b: nat)
    ensures a * (2 * b) == 2 * (a * b)
  {
  }

  lemma PowersOfTwo()
    ensures Pow2(8) == 0x100 && Pow2(16) == 0x1_0000 && Pow2(24) == 0x100_0000
  {
    assert Pow2(4) == 16;
    Pow2Doubles(4, 4);
    Pow2Doubles(8, 8);
    Pow2Doubles(16, 8);
  }

  lemma OrOfBytes(alpha: nat, red: nat, green: nat, blue: nat)
    requires red <= 255 && green <= 255 && blue <= 255
    ensures Or(Or(Or(alpha * 0x100_0000, red * 0x1_0000), green * 0x100), blue)
            == alpha * 0x100_0000 + red * 0x1_0000 + green * 0x100 + blue
  {
    PowersOfTwo();
    OrOfDisjoint(alpha, red * 0x1_0000, 24);
    OrOfDisjoint(alpha * 0x100 + red, green * 0x100, 16);
    OrOfDisjoint(alpha * 0x1_0000 + red * 0x100 + green, blue, 8);
  }

  lemma PackedBytes(red: nat, green: nat, blue: nat)
    requires red <= 255 && green <= 255 && blue <= 255
    ensures Packed(red, green, blue) == 0xFF00_0000 + red * 0x1_0000 + green * 0x100 + blue
  {
    OrOfBytes(0xFF, red, green, blue);
    assert red * 0x1_0000 % 0x1_0000_0000 == red * 0x1_0000;
    assert green * 0x100 % 0x1_0000_0000 == green * 0x100;
  }

  lemma ScaledInByte(percent: nat)
    requires percent <= 100
    ensures Scaled(percent) == percent * 255 / 100 <= 255
  {
  }

  /** Percentages up to 100 fill their own byte: red, green and blue do not run into each other. */
  lemma RgbOfPercentages(r: nat, g: nat, b: nat)
    requires r <= 100 && g <= 100 && b <= 100
    ensures Rgb(r, g, b) == 0xFF00_0000 + Scaled(r) * 0x1_0000 + Scaled(g) * 0x100 + Scaled(b)
    ensures Scaled(r) == r * 255 / 100 <= 255
    ensures Scaled(g) == g * 255 / 100 <= 255
    ensures Scaled(b) == b * 255 / 100 <= 255
  {
    ScaledInByte(r);
    ScaledInByte(g);
    ScaledInByte(b);
    PackedBytes(Scaled(r), Scaled(g), Scaled(b));
  }

  /** `#N` selects a register; `#N;Co;R;G;B` also redefines it. */
  function Select(pen: Pen, params: seq<nat>): (after: Pen)
    ensures |after.palette| == |pen.palette| && after.x == pen.x && after.band == pen.band
    ensures after.checked == pen.checked
    ensures after.register == if params == [] then 0 else params[0]
  {
    if |params| >= 5 then
      var color := Rgb(params[2], params[3], params[4]);
      pen.(register := params[0],
           palette := if params[0] < |pen.palette| then pen.palette[params[0] := color] else pen.palette)
    else if params != [] then pen.(register := params[0])
    else pen.(register := 0)
  }

  function Columns(pen: Pen, count: nat, bits: nat, color: Color): (cs: seq<Column>)
    ensures |cs| == count
    ensures forall k | 0 <= k < count :: cs[k] == Column(pen.x + k, pen.band, bits, color)
  {
    seq(count, (k: nat) => Column(pen.x + k, pen.band, bits, color))
  }

  /** `!N` and the byte after it. */
  function Repeat(data: seq<Byte>, pen: Pen): (t: Turn)
    requires data != [] && |pen.palette| == 256
    ensures t.Turned? && t.length > 0 && |t.pen.palette| == 256 && t.pen.checked == pen.checked
  {
    var params := Params(data[1..]);
    var at := 1 + ParamSpan(data[1..]);
    var count := if params == [] then 1 else params[0];
    if at < |data| && IsSixel(data[at]) then
      var color := pen.palette[if pen.register > 255 then 255 else pen.register];
      Turned(at + 1, pen.(x := pen.x + count), Columns(pen, count, data[at] - 0x3f, color))
    else Turned(at + 1, pen, [])
  }

  /** The first command of `data`. Its length may pass the end of the data by one. */
  function Command(data: seq<Byte>, pen: Pen): (t: Turn)
    requires data != [] && |pen.palette| == 256
    ensures t.Turned? ==> t.length > 0 && |t.pen.palette| == 256 && t.pen.checked == pen.checked
  {
    var c := data[0];
    if c == HASH then
      if pen.checked && Overflows(Params(data[1..])) then Panicked
      else Turned(1 + ParamSpan(data[1..]), Select(pen, Params(data[1..])), [])
    else if c == BANG then Repeat(data, pen)
    else if c == DOLLAR then Turned(1, pen.(x := 0), [])
    else if c == MINUS then Turned(1, pen.(x := 0, band := pen.band + 1), [])
    else if IsSixel(c) then
      if pen.register < 256 then
        Turned(1, pen.(x := pen.x + 1), Columns(pen, 1, c - 0x3f, pen.palette[pen.register]))
      else Panicked
    else Turned(1, pen, [])
  }

  /** What is left of `data` after `n` bytes, if anything. */
  function Drop(data: seq<Byte>, n: nat): seq<Byte> {
    if n <= |data| then data[n..] else []
  }

  /** The columns painted by a whole stream, in order; `None` when the decoder panics. */
  function Painted(data: seq<Byte>, pen: Pen): Option<seq<Column>>
    requires |pen.palette| == 256
    decreases |data|
  {
    if data == [] then Some([])
    else
      match Command(data, pen)
      case Panicked => None
      case Turned(length, after, columns) =>
        Then(columns, Painted(Drop(data, length), after))
  }

  /** What the columns painted so far and the rest of the stream give together. */
  function Then(cs: seq<Column>, rest: Option<seq<Column>>): Option<seq<Column>> {
    if rest.None? then None else Some(cs + rest.value)
  }

  lemma ThenTwice(a: seq<Column>, b: seq<Column>, rest: Option<seq<Column>>)
    ensures Then(a, Then(b, rest)) == Then(a + b, rest)
  {
    if rest.Some? {
      assert a + (b + rest.value) == a + b + rest.value;
    }
  }

  lemma {:induction false} PaintedUnfolds(rest: seq<Byte>, pen: Pen, t: Turn)
    requires rest != [] && |pen.palette| == 256 && t == Command(rest, pen)
    ensures Painted(rest, pen) == if t.Panicked? then None else Then(t.columns, Painted(Drop(rest, t.length), t.pen))
  {
  }

  lemma {:induction false} PaintedAfterTurn(rest: seq<Byte>, pen: Pen, cs: seq<Column>)
    requires rest != [] && |pen.palette| == 256
    ensures var t := Command(rest, pen);
      Then(cs, Painted(rest, pen)) ==
        if t.Panicked? then None else Then(cs + t.columns, Painted(Drop(rest, t.length), t.pen))
  {
    var t := Command(rest, pen);
    PaintedUnfolds(rest, pen, t);
    if t.Turned? {
      ThenTwice(cs, t.columns, Painted(Drop(rest, t.length), t.pen));
    }
  }

  // ---------------------------------------------------------------------------
  // The picture
  // ---------------------------------------------------------------------------

  predicate Bit(bits: nat, n: nat) {
    bits / Pow2(n) % 2 == 1
  }

  predicate Covers(c: Column, x: nat, y: nat) {
    x == c.x && y / 6 == c.band && Bit(c.bits, y % 6)
  }

  /** The colour at `(x, y)` after painting the columns in order on an infinite black canvas. */
  function PixelAt(cs: seq<Column>, x: nat, y: nat): Color {
    if cs == [] then BLACK
    else if Covers(cs[|cs| - 1], x, y) then cs[|cs| - 1].color
    else PixelAt(cs[..|cs| - 1], x, y)
  }

  /** One more than the rightmost column painted. */
  function Width(cs: seq<Column>): nat {
    if cs == [] then 0
    else if cs[|cs| - 1].x + 1 > Width(cs[..|cs| - 1]) then cs[|cs| - 1].x + 1
    else Width(cs[..|cs| - 1])
  }

  /** Six times one more than the lowest band painted. */
  function Height(cs: seq<Column>): nat {
    if cs == [] then 0
    else if (cs[|cs| - 1].band + 1) * 6 > Height(cs[..|cs| - 1]) then (cs[|cs| - 1].band + 1) * 6
    else Height(cs[..|cs| - 1])
  }

  datatype Decoded = NoImage | Image(width: nat, height: nat, pixels: seq<Color>) | Panic

  function Row(cs: seq<Column>, width: nat, y: nat): seq<Color> {
    seq(width, (x: nat) => PixelAt(cs, x, y))
  }

  /** The first `height` rows of the canvas, each `width` wide, one after the other. */
  function RowMajor(cs: seq<Column>, width: nat, height: nat): seq<Color> {
    if height == 0 then [] else RowMajor(cs, width, height - 1) + Row(cs, width, height - 1)
  }

  /** Where each pixel of the canvas ends up. */
  lemma {:induction false} RowMajorAt(cs: seq<Column>, width: nat, height: nat, x: nat, y: nat)
    requires x < width && y < height
    ensures |RowMajor(cs, width, height)| == height * width
    ensures y * width + x < height * width
    ensures RowMajor(cs, width, height)[y * width + x] == PixelAt(cs, x, y)
  {
    RowMajorSize(cs, width, height - 1);
    RowMajorSize(cs, width, height);
    if y < height - 1 {
      RowMajorAt(cs, width, height - 1, x, y);
    } else {
      assert y == height - 1;
    }
  }

  lemma {:induction false} RowMajorSize(cs: seq<Column>, width: nat, height: nat)
    ensures |RowMajor(cs, width, height)| == height * width
  {
    if height > 0 {
      RowMajorSize(cs, width, height - 1);
    }
  }

  /** The meaning of a stream: the painted canvas, cropped to the painted width and height. */
  function PictureFrom(data: seq<Byte>, pen: Pen): Decoded
    requires |pen.palette| == 256
  {
    match Painted(data, pen)
    case None => Panic
    case Some(cs) =>
      if cs == [] then NoImage else Image(Width(cs), Height(cs), RowMajor(cs, Width(cs), Height(cs)))
  }

  function Picture(data: seq<Byte>, checked: bool): Decoded {
    PictureFrom(data, Start(checked))
  }

  const VT_PALETTE: seq<Color> := [
    0xFF000000, 0xFF3333CC, 0xFFCC3333, 0xFF33CC33, 0xFFCC33CC, 0xFF33CCCC, 0xFFCCCC33, 0xFFCCCCCC,
    0xFF333333, 0xFF3333FF, 0xFFFF3333, 0xFF33FF33, 0xFFFF33FF, 0xFF33FFFF, 0xFFFFFF33, 0xFFFFFFFF]

  function Blacks(n: nat): (cs: seq<Color>)
    ensures |cs| == n
  {
    seq(n, i => BLACK)
  }

  /** The default palette, padded with black to 256 registers, and the pen at the top left. */
  function Start(checked: bool): (pen: Pen)
    ensures |pen.palette| == 256 && pen.register == 0 && pen.x == 0 && pen.band == 0 && pen.checked == checked
  {
    Pen(VT_PALETTE + Blacks(240), 0, 0, 0, checked)
  }
}
