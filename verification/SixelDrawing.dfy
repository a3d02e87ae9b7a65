/**
  What a drawing looks like, said without a pen: the position, register and colour of each item are
  read off the items before it. Printing a drawing as a Sixel stream and decoding it gives exactly
  these pixels.
 */
module SixelDrawings {
  import opened Basics
  import opened Wrappers
  import opened Sixel
  import opened SixelLaws
  import opened SixelCarriage

  // ---------------------------------------------------------------------------
  // Drawings and their bytes
  // ---------------------------------------------------------------------------

  /**
    `Dots` are six pixels from top to bottom. `Repeated` is `!` with its parameters and such pixels;
    `Swallowed` is `!` before a byte that is no sixel, which has no effect of its own then. `Register`
    is `#` with its parameters. Any other byte is `Ignored`.
   */
  datatype Item =
    | Dots(on: seq<bool>)
    | Repeated(params: seq<nat>, on: seq<bool>)
    | Swallowed(params: seq<nat>, byte: Byte)
    | Return
    | NewLine
    | Register(params: seq<nat>)
    | Ignored(byte: Byte)

  predicate AreParams(params: seq<nat>) {
    forall i | 0 <= i < |params| :: params[i] <= U32_MAX
  }

  predicate IsItem(item: Item) {
    match item
    case Dots(on) => |on| == 6
    case Repeated(params, on) => AreParams(params) && |on| == 6
    case Swallowed(params, byte) => AreParams(params) && !IsParam(byte) && !IsSixel(byte)
    case Return => true
    case NewLine => true
    case Register(params) => AreParams(params)
    case Ignored(byte) => !IsParam(byte) && !IsSixel(byte) && byte !in [HASH, BANG, DOLLAR, MINUS]
  }

  ghost predicate IsDrawing(items: seq<Item>) {
    forall k | 0 <= k < |items| :: IsItem(items[k])
  }

  /** The topmost pixel is the least significant of six bits. */
  function Weight(on: seq<bool>): (w: nat)
    requires |on| == 6
    ensures w < 64
  {
    (if on[0] then 1 else 0) + (if on[1] then 2 else 0) + (if on[2] then 4 else 0)
    + (if on[3] then 8 else 0) + (if on[4] then 16 else 0) + (if on[5] then 32 else 0)
  }

  function SixelByte(on: seq<bool>): (b: Byte)
    requires |on| == 6
    ensures IsSixel(b)
  {
    0x3f + Weight(on)
  }

  function BytesOf(item: Item): (s: seq<Byte>)
    requires IsItem(item)
    ensures s != [] && !IsParam(s[0])
  {
    match item
    case Dots(on) => [SixelByte(on)]
    case Repeated(params, on) => [BANG] + PrintedList(params) + [SixelByte(on)]
    case Swallowed(params, byte) => [BANG] + PrintedList(params) + [byte]
    case Return => [DOLLAR]
    case NewLine => [MINUS]
    case Register(params) => [HASH] + PrintedList(params)
    case Ignored(byte) => [byte]
  }

  /** The bytes of the items from `k` on. */
  function Encode(items: seq<Item>, k: nat): (s: seq<Byte>)
    requires IsDrawing(items) && k <= |items|
    ensures s == [] || !IsParam(s[0])
    decreases |items| - k
  {
    if k == |items| then [] else BytesOf(items[k]) + Encode(items, k + 1)
  }

  // ---------------------------------------------------------------------------
  // Where each item goes, and in which colour
  // ---------------------------------------------------------------------------

  /** The number of columns an item paints. */
  function Count(item: Item): nat {
    match item
    case Dots(_) => 1
    case Repeated(params, _) => if params == [] then 1 else params[0]
    case _ => 0
  }

  /** The columns painted since the last return to the margin. */
  function XAt(items: seq<Item>, k: nat): nat
    requires k <= |items|
  {
    if k == 0 || items[k - 1].Return? || items[k - 1].NewLine? then 0
    else XAt(items, k - 1) + Count(items[k - 1])
  }

  /** The new lines so far. */
  function BandAt(items: seq<Item>, k: nat): nat
    requires k <= |items|
  {
    if k == 0 then 0 else BandAt(items, k - 1) + if items[k - 1].NewLine? then 1 else 0
  }

  /** The register named last; a bare `#` names register 0. */
  function RegisterAt(items: seq<Item>, k: nat): nat
    requires k <= |items|
  {
    if k == 0 then 0
    else if items[k - 1].Register? then if items[k - 1].params == [] then 0 else items[k - 1].params[0]
    else RegisterAt(items, k - 1)
  }

  /** The item gives register `r` a new colour. */
  predicate Defines(item: Item, r: nat) {
    item.Register? && |item.params| >= 5 && item.params[0] == r
  }

  /** Red, green and blue in percent. Percentages above 100 run over into the other bytes. */
  function ColorOf(red: nat, green: nat, blue: nat): Color {
    if red <= 100 && green <= 100 && blue <= 100
    then 0xFF00_0000 + red * 255 / 100 * 0x1_0000 + green * 255 / 100 * 0x100 + blue * 255 / 100
    else Rgb(red, green, blue)
  }

  /** The colour of a register: as defined last, else as at the start. */
  function ColorAt(items: seq<Item>, k: nat, r: nat): Color
    requires k <= |items|
  {
    if k == 0 then if r < 16 then VT_PALETTE[r] else BLACK
    else if Defines(items[k - 1], r) then
      ColorOf(items[k - 1].params[2], items[k - 1].params[3], items[k - 1].params[4])
    else ColorAt(items, k - 1, r)
  }

  /** The colour an item paints in; a repeated sixel makes do with register 255. */
  function InkAt(items: seq<Item>, k: nat): Color
    requires k <= |items|
  {
    ColorAt(items, k, Min(255, RegisterAt(items, k)))
  }

  /** The item panics: pixels in a register that does not exist or, in a checked build, an overflow. */
  predicate Fails(items: seq<Item>, k: nat, checked: bool)
    requires k < |items|
  {
    || (items[k].Dots? && RegisterAt(items, k) >= 256)
    || (checked && items[k].Register? && |items[k].params| >= 5
        && exists i :: 2 <= i <= 4 && items[k].params[i] * 255 > U32_MAX)
  }

  /** The item paints the pixel. */
  ghost predicate Sets(items: seq<Item>, k: nat, x: nat, y: nat)
    requires IsDrawing(items) && k < |items|
  {
    && (items[k].Dots? || items[k].Repeated?)
    && XAt(items, k) <= x < XAt(items, k) + Count(items[k])
    && 6 * BandAt(items, k) <= y < 6 * BandAt(items, k) + 6
    && items[k].on[y - 6 * BandAt(items, k)]
  }

  // ---------------------------------------------------------------------------
  // Decoding a drawing
  // ---------------------------------------------------------------------------

  function PaletteAt(items: seq<Item>, k: nat): (palette: seq<Color>)
    requires k <= |items|
    ensures |palette| == 256 && forall r | 0 <= r < 256 :: palette[r] == ColorAt(items, k, r)
  {
    seq(256, r requires 0 <= r => ColorAt(items, k, r))
  }

  function PenAt(items: seq<Item>, k: nat, checked: bool): (pen: Pen)
    requires k <= |items|
    ensures |pen.palette| == 256
  {
    Pen(PaletteAt(items, k), RegisterAt(items, k), XAt(items, k), BandAt(items, k), checked)
  }

  function ColumnsAt(items: seq<Item>, k: nat): (cs: seq<Column>)
    requires IsDrawing(items) && k < |items|
    ensures |cs| == Count(items[k])
  {
    if items[k].Dots? || items[k].Repeated? then
      Columns(PenAt(items, k, false), Count(items[k]), Weight(items[k].on), InkAt(items, k))
    else []
  }

  /** The columns of the items from `k` on. */
  function ColumnsFrom(items: seq<Item>, k: nat): seq<Column>
    requires IsDrawing(items) && k <= |items|
    decreases |items| - k
  {
    if k == |items| then [] else ColumnsAt(items, k) + ColumnsFrom(items, k + 1)
  }

  /** The state of the decoder before the first item. */
  lemma PenAtStart(items: seq<Item>, checked: bool)
    ensures PenAt(items, 0, checked) == Start(checked)
  {
    assert PaletteAt(items, 0) == Start(checked).palette;
  }

  lemma SamePalette(items: seq<Item>, k: nat)
    requires k < |items| && !(items[k].Register? && |items[k].params| >= 5)
    ensures PaletteAt(items, k + 1) == PaletteAt(items, k)
  {
  }

  /** What the command of an item does. */
  ghost predicate TurnsAs(items: seq<Item>, k: nat, checked: bool, t: Turn)
    requires IsDrawing(items) && k < |items|
  {
    if Fails(items, k, checked) then t == Panicked
    else t == Turned(|BytesOf(items[k])|, PenAt(items, k + 1, checked), ColumnsAt(items, k))
  }

  lemma {:induction false} DotsTurn(items: seq<Item>, k: nat, checked: bool, rest: seq<Byte>)
    requires IsDrawing(items) && k < |items| && items[k].Dots?
    ensures TurnsAs(items, k, checked, Command(BytesOf(items[k]) + rest, PenAt(items, k, checked)))
  {
    SamePalette(items, k);
  }

  /** A `!` with printed parameters and the byte after them. */
  lemma {:induction false} BangReads(params: seq<nat>, last: Byte, rest: seq<Byte>, pen: Pen, data: seq<Byte>)
    requires AreParams(params) && !IsParam(last) && |pen.palette| == 256
    requires data == [BANG] + PrintedList(params) + [last] + rest
    ensures var count := if params == [] then 1 else params[0];
      var length := 2 + |PrintedList(params)|;
      Command(data, pen) ==
        if IsSixel(last)
        then Turned(length, pen.(x := pen.x + count), Columns(pen, count, last - 0x3f, RunColor(pen)))
        else Turned(length, pen, [])
  {
    BangParams(params, last, rest, data);
  }

  lemma {:induction false} BangParams(params: seq<nat>, last: Byte, rest: seq<Byte>, data: seq<Byte>)
    requires AreParams(params) && !IsParam(last) && data == [BANG] + PrintedList(params) + [last] + rest
    ensures |PrintedList(params)| + 1 < |data| && data[0] == BANG && data[1 + |PrintedList(params)|] == last
    ensures Params(data[1..]) == params && ParamSpan(data[1..]) == |PrintedList(params)|
  {
    BangSplits(PrintedList(params), last, rest, data);
    ParamsReadBack(params, [last] + rest);
  }

  lemma BangSplits(s: seq<Byte>, last: Byte, rest: seq<Byte>, data: seq<Byte>)
    requires data == [BANG] + s + [last] + rest
    ensures data != [] && data[0] == BANG && data[1..] == s + ([last] + rest) && |s| + 1 < |data|
    ensures data[1 + |s|] == last
  {
  }

  lemma {:induction false} RepeatedTurn(items: seq<Item>, k: nat, checked: bool, rest: seq<Byte>)
    requires IsDrawing(items) && k < |items| && items[k].Repeated?
    ensures TurnsAs(items, k, checked, Command(BytesOf(items[k]) + rest, PenAt(items, k, checked)))
  {
    var last := SixelByte(items[k].on);
    BangReads(items[k].params, last, rest, PenAt(items, k, checked), BytesOf(items[k]) + rest);
    SamePalette(items, k);
  }

  lemma {:induction false} SwallowedTurn(items: seq<Item>, k: nat, checked: bool, rest: seq<Byte>)
    requires IsDrawing(items) && k < |items| && items[k].Swallowed?
    ensures TurnsAs(items, k, checked, Command(BytesOf(items[k]) + rest, PenAt(items, k, checked)))
  {
    BangReads(items[k].params, items[k].byte, rest, PenAt(items, k, checked), BytesOf(items[k]) + rest);
    SamePalette(items, k);
  }

  /** A `#` with printed parameters. */
  lemma {:induction false} HashReads(params: seq<nat>, rest: seq<Byte>, pen: Pen, data: seq<Byte>)
    requires AreParams(params) && (rest == [] || !IsParam(rest[0])) && |pen.palette| == 256
    requires data == [HASH] + PrintedList(params) + rest
    ensures Command(data, pen) == if pen.checked && Overflows(params) then Panicked
                                  else Turned(1 + |PrintedList(params)|, Select(pen, params), [])
  {
    HashParams(params, rest, data);
  }

  lemma {:induction false} HashParams(params: seq<nat>, rest: seq<Byte>, data: seq<Byte>)
    requires AreParams(params) && (rest == [] || !IsParam(rest[0])) && data == [HASH] + PrintedList(params) + rest
    ensures data != [] && data[0] == HASH
    ensures Params(data[1..]) == params && ParamSpan(data[1..]) == |PrintedList(params)|
  {
    ParamsReadBack(params, rest);
    assert data[1..] == PrintedList(params) + rest;
  }

  lemma {:induction false} RegisterTurn(items: seq<Item>, k: nat, checked: bool, rest: seq<Byte>)
    requires IsDrawing(items) && k < |items| && items[k].Register? && (rest == [] || !IsParam(rest[0]))
    ensures TurnsAs(items, k, checked, Command(BytesOf(items[k]) + rest, PenAt(items, k, checked)))
  {
    HashReads(items[k].params, rest, PenAt(items, k, checked), BytesOf(items[k]) + rest);
    OverflowsAsSaid(items[k].params);
    PenSelected(items, k, checked);
  }

  lemma OverflowsAsSaid(params: seq<nat>)
    ensures Overflows(params) <==> |params| >= 5 && exists i :: 2 <= i <= 4 && params[i] * 255 > U32_MAX
  {
    if Overflows(params) {
      var i := if params[2] * 255 > U32_MAX then 2 else if params[3] * 255 > U32_MAX then 3 else 4;
      assert params[i] * 255 > U32_MAX;
    }
  }

  lemma PenSelected(items: seq<Item>, k: nat, checked: bool)
    requires k < |items| && items[k].Register?
    ensures PenAt(items, k + 1, checked) == Select(PenAt(items, k, checked), items[k].params)
  {
    var params := items[k].params;
    if |params| >= 5 {
      var color := Rgb(params[2], params[3], params[4]);
      if params[2] <= 100 && params[3] <= 100 && params[4] <= 100 {
        RgbOfPercentages(params[2], params[3], params[4]);
      }
      assert ColorOf(params[2], params[3], params[4]) == color;
      var before, after := PaletteAt(items, k), PaletteAt(items, k + 1);
      forall r | 0 <= r < 256
        ensures after[r] == if r == params[0] then color else before[r]
      {
      }
      assert after == Select(PenAt(items, k, checked), params).palette;
    } else {
      SamePalette(items, k);
    }
  }

  lemma {:induction false} OtherTurn(items: seq<Item>, k: nat, checked: bool, rest: seq<Byte>)
    requires IsDrawing(items) && k < |items| && (items[k].Return? || items[k].NewLine? || items[k].Ignored?)
    ensures TurnsAs(items, k, checked, Command(BytesOf(items[k]) + rest, PenAt(items, k, checked)))
  {
    SamePalette(items, k);
  }

  lemma {:induction false} ItemTurn(items: seq<Item>, k: nat, checked: bool, rest: seq<Byte>)
    requires IsDrawing(items) && k < |items| && (rest == [] || !IsParam(rest[0]))
    ensures TurnsAs(items, k, checked, Command(BytesOf(items[k]) + rest, PenAt(items, k, checked)))
  {
    match items[k] {
      case Dots(_) => DotsTurn(items, k, checked, rest);
      case Repeated(_, _) => RepeatedTurn(items, k, checked, rest);
      case Swallowed(_, _) => SwallowedTurn(items, k, checked, rest);
      case Register(_) => RegisterTurn(items, k, checked, rest);
      case _ => OtherTurn(items, k, checked, rest);
    }
  }

  ghost predicate FailsFrom(items: seq<Item>, k: nat, checked: bool) {
    exists j :: k <= j < |items| && Fails(items, j, checked)
  }

  /** What the items from `k` on paint: nothing at all if one of them fails. */
  ghost predicate PaintsFrom(items: seq<Item>, k: nat, checked: bool, painted: Option<seq<Column>>)
    requires IsDrawing(items) && k <= |items|
  {
    painted == if FailsFrom(items, k, checked) then None else Some(ColumnsFrom(items, k))
  }

  lemma PaintsOneMore(
      items: seq<Item>, k: nat, checked: bool, later: Option<seq<Column>>, painted: Option<seq<Column>>)
    requires IsDrawing(items) && k < |items| && PaintsFrom(items, k + 1, checked, later)
    requires painted == if Fails(items, k, checked) then None else Then(ColumnsAt(items, k), later)
    ensures PaintsFrom(items, k, checked, painted)
  {
    if FailsFrom(items, k, checked) && !Fails(items, k, checked) {
      var j :| k <= j < |items| && Fails(items, j, checked);
      assert k + 1 <= j;
    }
  }

  lemma {:induction false} DecodedFrom(items: seq<Item>, k: nat, checked: bool, pen: Pen, data: seq<Byte>)
    requires IsDrawing(items) && k <= |items| && pen == PenAt(items, k, checked) && data == Encode(items, k)
    ensures PaintsFrom(items, k, checked, Painted(data, pen))
    decreases |items| - k
  {
    if k < |items| {
      var after, rest := PenAt(items, k + 1, checked), Encode(items, k + 1);
      DecodedFrom(items, k + 1, checked, after, rest);
      ItemPaints(items, k, checked, rest);
      PaintsOneMore(items, k, checked, Painted(rest, after), Painted(data, pen));
    }
  }

  lemma {:induction false} ItemPaints(items: seq<Item>, k: nat, checked: bool, rest: seq<Byte>)
    requires IsDrawing(items) && k < |items| && (rest == [] || !IsParam(rest[0]))
    ensures Painted(BytesOf(items[k]) + rest, PenAt(items, k, checked)) ==
            if Fails(items, k, checked) then None
            else Then(ColumnsAt(items, k), Painted(rest, PenAt(items, k + 1, checked)))
  {
    ItemTurn(items, k, checked, rest);
    PaintedItem(BytesOf(items[k]), rest, PenAt(items, k, checked), PenAt(items, k + 1, checked),
                ColumnsAt(items, k), Fails(items, k, checked));
  }

  lemma {:induction false} PaintedItem(
      head: seq<Byte>, rest: seq<Byte>, pen: Pen, after: Pen, cs: seq<Column>, fails: bool)
    requires head != [] && |pen.palette| == |after.palette| == 256
    requires Command(head + rest, pen) == if fails then Panicked else Turned(|head|, after, cs)
    ensures Painted(head + rest, pen) == if fails then None else Then(cs, Painted(rest, after))
  {
    PaintedUnfolds(head + rest, pen, Command(head + rest, pen));
    DropConcat(head, rest, |head|);
    assert Drop(head, |head|) + rest == rest;
  }

  // ---------------------------------------------------------------------------
  // The picture
  // ---------------------------------------------------------------------------

  lemma WeightHasBits(on: seq<bool>, i: nat)
    requires |on| == 6 && i < 6
    ensures Bit(Weight(on), i) == on[i]
  {
    assert Pow2(1) == 2 && Pow2(2) == 4 && Pow2(3) == 8;
    assert Pow2(4) == 16 && Pow2(5) == 32;
    var w := Weight(on);
    assert i == 0 || i == 1 || i == 2 || i == 3 || i == 4 || i == 5;
  }

  lemma ItemTouches(items: seq<Item>, k: nat, x: nat, y: nat)
    requires IsDrawing(items) && k < |items|
    ensures Touches(ColumnsAt(items, k), x, y) <==> Sets(items, k, x, y)
    ensures Sets(items, k, x, y) ==> PixelAt(ColumnsAt(items, k), x, y) == InkAt(items, k)
  {
    var cs := ColumnsAt(items, k);
    if items[k].Dots? || items[k].Repeated? {
      WeightHasBits(items[k].on, y % 6);
      forall i | 0 <= i < |cs|
        ensures Covers(cs[i], x, y) <==> x == XAt(items, k) + i && Sets(items, k, x, y)
      {
        assert cs[i] == Column(XAt(items, k) + i, BandAt(items, k), Weight(items[k].on), InkAt(items, k));
        RowInBand(y, BandAt(items, k));
      }
      if Sets(items, k, x, y) {
        var i := x - XAt(items, k);
        assert Covers(cs[i], x, y);
        PixelIsLast(cs, i, x, y);
      }
    }
  }

  lemma RowInBand(y: nat, band: nat)
    ensures y / 6 == band <==> 6 * band <= y < 6 * band + 6
    ensures y / 6 == band ==> y % 6 == y - 6 * band
  {
  }

  /** A pixel has the colour of the last item that paints it. */
  lemma {:induction false} PixelFrom(items: seq<Item>, k: nat, x: nat, y: nat, last: nat)
    requires IsDrawing(items) && k <= last < |items| && Sets(items, last, x, y)
    requires forall j | last < j < |items| :: !Sets(items, j, x, y)
    ensures Touches(ColumnsFrom(items, k), x, y) && PixelAt(ColumnsFrom(items, k), x, y) == InkAt(items, last)
    decreases |items| - k
  {
    if k < last {
      PixelFrom(items, k + 1, x, y, last);
    } else {
      NoneFrom(items, k + 1, x, y);
      ItemTouches(items, k, x, y);
    }
    PixelOfBoth(ColumnsAt(items, k), ColumnsFrom(items, k + 1), x, y);
    TouchesBoth(ColumnsAt(items, k), ColumnsFrom(items, k + 1), x, y);
  }

  lemma TouchesBoth(a: seq<Column>, b: seq<Column>, x: nat, y: nat)
    ensures Touches(a + b, x, y) <==> Touches(a, x, y) || Touches(b, x, y)
  {
    if i :| 0 <= i < |a| && Covers(a[i], x, y) {
      assert Covers((a + b)[i], x, y);
    }
    if i :| 0 <= i < |b| && Covers(b[i], x, y) {
      assert Covers((a + b)[|a| + i], x, y);
    }
  }

  lemma {:induction false} NoneFrom(items: seq<Item>, k: nat, x: nat, y: nat)
    requires IsDrawing(items) && k <= |items| && forall j | k <= j < |items| :: !Sets(items, j, x, y)
    ensures !Touches(ColumnsFrom(items, k), x, y)
    decreases |items| - k
  {
    if k < |items| {
      ItemTouches(items, k, x, y);
      NoneFrom(items, k + 1, x, y);
      TouchesBoth(ColumnsAt(items, k), ColumnsFrom(items, k + 1), x, y);
    }
  }

  /** The largest extent of an item that paints anything. */
  function WidthFrom(items: seq<Item>, k: nat): nat
    requires k <= |items|
    decreases |items| - k
  {
    if k == |items| then 0
    else Max(if Count(items[k]) == 0 then 0 else XAt(items, k) + Count(items[k]), WidthFrom(items, k + 1))
  }

  function HeightFrom(items: seq<Item>, k: nat): nat
    requires k <= |items|
    decreases |items| - k
  {
    if k == |items| then 0
    else Max(if Count(items[k]) == 0 then 0 else 6 * BandAt(items, k) + 6, HeightFrom(items, k + 1))
  }

  lemma {:induction false} ExtentOfColumns(pen: Pen, n: nat, bits: nat, color: Color)
    ensures Width(Columns(pen, n, bits, color)) == if n == 0 then 0 else pen.x + n
    ensures Height(Columns(pen, n, bits, color)) == if n == 0 then 0 else 6 * pen.band + 6
  {
    if n > 0 {
      assert Columns(pen, n, bits, color)[..n - 1] == Columns(pen, n - 1, bits, color);
      ExtentOfColumns(pen, n - 1, bits, color);
    }
  }

  lemma {:induction false} ExtentFrom(items: seq<Item>, k: nat)
    requires IsDrawing(items) && k <= |items|
    ensures Width(ColumnsFrom(items, k)) == WidthFrom(items, k)
    ensures Height(ColumnsFrom(items, k)) == HeightFrom(items, k)
    decreases |items| - k
  {
    if k < |items| {
      ExtentFrom(items, k + 1);
      ExtentOfBoth(ColumnsAt(items, k), ColumnsFrom(items, k + 1));
      if items[k].Dots? || items[k].Repeated? {
        ExtentOfColumns(PenAt(items, k, false), Count(items[k]), Weight(items[k].on), InkAt(items, k));
      }
    }
  }

  /** The picture has the size of the drawing and, at every pixel, the colour of the last item that paints it. */
  ghost predicate Depicts(d: Decoded, items: seq<Item>)
    requires IsDrawing(items)
  {
    && d.Image? && d.width == WidthFrom(items, 0) && d.height == HeightFrom(items, 0)
    && |d.pixels| == d.height * d.width
    && (forall x: nat, y: nat, k: nat | x < d.width && y < d.height && k < |items| ::
          Sets(items, k, x, y) && (forall j | k < j < |items| :: !Sets(items, j, x, y)) ==>
            PixelOf(d, x, y) == InkAt(items, k))
    && (forall x: nat, y: nat | x < d.width && y < d.height ::
          (forall k | 0 <= k < |items| :: !Sets(items, k, x, y)) ==> PixelOf(d, x, y) == BLACK)
  }

  /**
    Printing any drawing and decoding it: a panic exactly when some item fails, nothing when no item
    paints a column, and else the picture that the drawing describes.
   */
  lemma {:induction false} DrawingDecodes(items: seq<Item>, checked: bool, d: Decoded)
    requires IsDrawing(items) && d == Picture(Encode(items, 0), checked)
    ensures d == Panic <==> FailsFrom(items, 0, checked)
    ensures d == NoImage <==> !FailsFrom(items, 0, checked) && forall k | 0 <= k < |items| :: Count(items[k]) == 0
    ensures d.Image? ==> Depicts(d, items)
  {
    PenAtStart(items, checked);
    DecodedFrom(items, 0, checked, Start(checked), Encode(items, 0));
    var cs := ColumnsFrom(items, 0);
    NothingFrom(items, 0);
    if d.Image? {
      ImageDepicts(items, d, cs);
    }
  }

  lemma {:induction false} NothingFrom(items: seq<Item>, k: nat)
    requires IsDrawing(items) && k <= |items|
    ensures ColumnsFrom(items, k) == [] <==> forall j | k <= j < |items| :: Count(items[j]) == 0
    decreases |items| - k
  {
    if k < |items| {
      NothingFrom(items, k + 1);
      assert |ColumnsFrom(items, k)| == Count(items[k]) + |ColumnsFrom(items, k + 1)|;
    }
  }

  lemma {:induction false} ImageDepicts(items: seq<Item>, d: Decoded, cs: seq<Column>)
    requires IsDrawing(items) && cs == ColumnsFrom(items, 0)
    requires d == Image(Width(cs), Height(cs), RowMajor(cs, Width(cs), Height(cs)))
    ensures Depicts(d, items)
  {
    ExtentFrom(items, 0);
    RowMajorSize(cs, d.width, d.height);
    forall x: nat, y: nat | x < d.width && y < d.height
      ensures PixelOf(d, x, y) == PixelAt(cs, x, y)
    {
      RowMajorAt(cs, d.width, d.height, x, y);
    }
    forall x: nat, y: nat, k: nat | x < d.width && y < d.height && k < |items|
      ensures Sets(items, k, x, y) && (forall j | k < j < |items| :: !Sets(items, j, x, y)) ==>
                PixelOf(d, x, y) == InkAt(items, k)
    {
      if Sets(items, k, x, y) && forall j | k < j < |items| :: !Sets(items, j, x, y) {
        PixelFrom(items, 0, x, y, k);
      }
    }
    forall x: nat, y: nat | x < d.width && y < d.height
      ensures (forall k | 0 <= k < |items| :: !Sets(items, k, x, y)) ==> PixelOf(d, x, y) == BLACK
    {
      if forall k | 0 <= k < |items| :: !Sets(items, k, x, y) {
        NoneFrom(items, 0, x, y);
        PixelUntouched(cs, x, y);
      }
    }
  }
}
