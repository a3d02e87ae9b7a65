/** The decoder loops of kernel/src/fb_console.rs, proved to draw the picture that `Sixel` defines. */
module SixelDecoder {
  import opened Basics
  import opened Wrappers
  import opened Sixel

  // ---------------------------------------------------------------------------
  // parse_sixel_params
  // ---------------------------------------------------------------------------

  function SaturatingMul(a: nat, b: nat): nat { Saturated(a * b) }

  function SaturatingAdd(a: nat, b: nat): nat { Saturated(a + b) }

  lemma SaturationCommutes(n: nat, d: nat)
    requires d < 10
    ensures SaturatingAdd(SaturatingMul(Saturated(n), 10), d) == Saturated(10 * n + d)
  {
  }

  /** The loop of the parser: `start` is where the current field began, `at` how far it has read. */
  ghost predicate Parsing(data: seq<Byte>, params: seq<nat>, current: nat, start: nat, at: nat) {
    && start <= at <= ParamSpan(data)
    && (forall i | start <= i < at :: IsDigit(data[i]))
    && params + Fields(data[start..ParamSpan(data)]) == Params(data)
    && current == Saturated(Decimal(data[start..at]))
  }

  lemma {:induction false} ReadDigit(data: seq<Byte>, params: seq<nat>, current: nat, start: nat, at: nat)
    requires Parsing(data, params, current, start, at) && at < |data| && IsDigit(data[at])
    ensures Parsing(data, params, SaturatingAdd(SaturatingMul(current, 10), data[at] - 48), start, at + 1)
  {
    var before := data[start..at];
    ExtendSlice(data, start, at);
    DecimalOfNext(before, data[at]);
    SaturationCommutes(Decimal(before), data[at] - 48);
  }

  lemma {:induction false} ReadSemicolon(data: seq<Byte>, params: seq<nat>, current: nat, start: nat, at: nat)
    requires Parsing(data, params, current, start, at) && at < |data| && data[at] == SEMICOLON
    ensures Parsing(data, params + [current], 0, at + 1, at + 1)
  {
    var span := ParamSpan(data);
    SplitAround(data, start, at, span);
    FieldsSplit(data[start..at], data[at + 1..span]);
    MoveOver(params, current, Fields(data[at + 1..span]));
    DecimalOfNothing(data[at + 1..at + 1]);
  }

  lemma SplitAround<T>(s: seq<T>, start: nat, at: nat, end: nat)
    requires start <= at < end <= |s|
    ensures s[start..end] == s[start..at] + [s[at]] + s[at + 1..end]
  {
  }

  lemma ExtendSlice<T>(s: seq<T>, start: nat, at: nat)
    requires start <= at < |s|
    ensures s[start..at + 1] == s[start..at] + [s[at]]
  {
  }

  lemma MoveOver<T>(s: seq<T>, x: T, rest: seq<T>)
    ensures s + ([x] + rest) == s + [x] + rest
  {
  }

  lemma {:induction false} DecimalOfNothing(digits: seq<Byte>)
    requires digits == []
    ensures Decimal(digits) == 0
  {
  }

  lemma {:induction false} ReadEnd(data: seq<Byte>, params: seq<nat>, current: nat, start: nat, at: nat)
    requires Parsing(data, params, current, start, at) && (at >= |data| || !IsParam(data[at]))
    ensures at == ParamSpan(data)
    ensures Params(data) == if start < at then params + [current] else params
  {
    FirstSemicolonNowhere(data[start..at]);
  }

  lemma {:induction false} ReadStart(data: seq<Byte>)
    ensures Parsing(data, [], 0, 0, 0)
  {
    assert data[0..ParamSpan(data)] == data[..ParamSpan(data)];
  }

  /** One turn of the parser loop, at a parameter byte. */
  method ParseByte(data: seq<Byte>, params: seq<nat>, current: nat, hasDigit: bool, ghost start: nat, at: nat)
    returns (params': seq<nat>, current': nat, hasDigit': bool, ghost start': nat)
    requires Parsing(data, params, current, start, at) && at < |data| && IsParam(data[at])
    requires hasDigit == (start < at) && (!hasDigit ==> current == 0)
    ensures Parsing(data, params', current', start', at + 1)
    ensures hasDigit' == (start' < at + 1) && (!hasDigit' ==> current' == 0)
  {
    var b := data[at];
    params', current', hasDigit', start' := params, current, hasDigit, start;
    if IsDigit(b) {
      ReadDigit(data, params, current, start, at);
      current' := SaturatingAdd(SaturatingMul(current, 10), b - 48);
      hasDigit' := true;
    } else {
      var field := if hasDigit then current else 0;
      ReadSemicolon(data, params, field, start, at);
      params' := params + [field];
      current', hasDigit', start' := 0, false, at + 1;
    }
  }

  method ParseSixelParams(data: seq<Byte>) returns (params: seq<nat>, consumed: nat)
    ensures consumed == ParamSpan(data)
    ensures params == Params(data)
  {
    params, consumed := [], 0;
    var current: nat := 0;
    var hasDigit := false;
    ghost var start: nat := 0;
    ReadStart(data);
    while consumed < |data| && IsParam(data[consumed])
      invariant consumed <= |data| && Parsing(data, params, current, start, consumed)
      invariant hasDigit == (start < consumed) && (!hasDigit ==> current == 0)
      decreases |data| - consumed
    {
      params, current, hasDigit, start := ParseByte(data, params, current, hasDigit, start, consumed);
      consumed := consumed + 1;
    }
    ReadEnd(data, params, current, start, consumed);
    if hasDigit {
      params := params + [current];
    }
  }

  // ---------------------------------------------------------------------------
  // The grid
  // ---------------------------------------------------------------------------

  type Grid = seq<seq<Color>>

  ghost predicate Rectangular(grid: Grid, width: nat) {
    forall y | 0 <= y < |grid| :: |grid[y]| == width
  }

  /** The pixel of the grid, black outside. */
  function GridAt(grid: Grid, x: nat, y: nat): Color {
    if y < |grid| && x < |grid[y]| then grid[y][x] else BLACK
  }

  /** Widens all rows, then adds rows, so that the grid is at least `needW` by `needH`. */
  method EnsureGrid(grid: Grid, gridW: nat, needW: nat, needH: nat) returns (grown: Grid, width: nat)
    requires Rectangular(grid, gridW)
    ensures width == Max(gridW, needW) && |grown| == Max(|grid|, needH) && Rectangular(grown, width)
    ensures forall x: nat, y: nat :: GridAt(grown, x, y) == GridAt(grid, x, y)
  {
    grown, width := grid, gridW;
    if needW > gridW {
      grown := [];
      while |grown| < |grid|
        invariant |grown| <= |grid| && Rectangular(grown, needW)
        invariant forall x: nat, y: nat | y < |grown| :: GridAt(grown, x, y) == GridAt(grid, x, y)
        decreases |grid| - |grown|
      {
        grown := grown + [grid[|grown|] + seq(needW - gridW, i => BLACK)];
      }
      width := needW;
    }
    while |grown| < needH
      invariant |grid| <= |grown| <= Max(|grid|, needH) && Rectangular(grown, width)
      invariant forall x: nat, y: nat :: GridAt(grown, x, y) == GridAt(grid, x, y)
      decreases needH - |grown|
    {
      grown := grown + [seq(width, i => BLACK)];
    }
  }

  /** Writes the set bits of one column, as far as they lie inside the grid. */
  method WriteSixelCol(grid: Grid, gridW: nat, c: Column) returns (painted: Grid)
    requires Rectangular(grid, gridW)
    ensures |painted| == |grid| && Rectangular(painted, gridW)
    ensures forall x: nat, y: nat | x < gridW && y < |grid| ::
              GridAt(painted, x, y) == if Covers(c, x, y) then c.color else GridAt(grid, x, y)
  {
    painted := grid;
    if c.x >= gridW {
      return;
    }
    var bit := 0;
    while bit < 6
      invariant 0 <= bit <= 6 && |painted| == |grid| && Rectangular(painted, gridW)
      invariant forall x: nat, y: nat | x < gridW && y < |grid| ::
                  GridAt(painted, x, y) ==
                    if Covers(c, x, y) && y % 6 < bit then c.color else GridAt(grid, x, y)
    {
      var py := c.band * 6 + bit;
      if Bit(c.bits, bit) && py < |grid| {
        var row: seq<Color> := painted[py][c.x := c.color];
        painted := painted[py := row];
      }
      bit := bit + 1;
    }
  }

  /** The grid holds exactly the canvas, cropped to what has been painted. */
  ghost predicate GridShows(grid: Grid, gridW: nat, cs: seq<Column>) {
    && gridW == Width(cs) && |grid| == Height(cs) && Rectangular(grid, gridW)
    && forall x: nat, y: nat | x < gridW && y < |grid| :: GridAt(grid, x, y) == PixelAt(cs, x, y)
  }

  /** Nothing is painted outside the painted width and height. */
  lemma {:induction false} BlackOutside(cs: seq<Column>, x: nat, y: nat)
    requires x >= Width(cs) || y >= Height(cs)
    ensures PixelAt(cs, x, y) == BLACK
  {
    if cs != [] {
      BlackOutside(cs[..|cs| - 1], x, y);
    }
  }

  /** Grows the grid as far as needed and paints one column. */
  method PaintColumn(grid: Grid, gridW: nat, c: Column, ghost cs: seq<Column>) returns (painted: Grid, width: nat)
    requires GridShows(grid, gridW, cs)
    ensures GridShows(painted, width, cs + [c])
  {
    var grown: Grid;
    grown, width := EnsureGrid(grid, gridW, c.x + 1, (c.band + 1) * 6);
    painted := WriteSixelCol(grown, width, c);
    ghost var after := cs + [c];
    assert after[..|after| - 1] == cs;
    forall x: nat, y: nat | x < width && y < |painted|
      ensures GridAt(painted, x, y) == PixelAt(after, x, y)
    {
      if x >= gridW || y >= |grid| {
        BlackOutside(cs, x, y);
      }
    }
  }

  // ---------------------------------------------------------------------------
  // decode_sixel
  // ---------------------------------------------------------------------------

  /** With the pen as it is, `cs` painted and `rest` still to come, the stream paints `goal`. */
  ghost predicate Decoding(goal: Option<seq<Column>>, rest: seq<Byte>, pen: Pen, cs: seq<Column>) {
    |pen.palette| == 256 && goal == Then(cs, Painted(rest, pen))
  }

  lemma {:induction false} DecodingStarts(data: seq<Byte>, pen: Pen)
    requires |pen.palette| == 256
    ensures Decoding(Painted(data, pen), data, pen, [])
  {
    var rest := Painted(data, pen);
    if rest.Some? {
      assert [] + rest.value == rest.value;
    }
  }

  lemma {:induction false} TurnTaken(goal: Option<seq<Column>>, rest: seq<Byte>, pen: Pen, cs: seq<Column>)
    returns (t: Turn)
    requires Decoding(goal, rest, pen, cs) && rest != []
    ensures |pen.palette| == 256 && t == Command(rest, pen)
    ensures t.Panicked? ==> goal == None
    ensures t.Turned? ==> t.length > 0 && Decoding(goal, Drop(rest, t.length), t.pen, cs + t.columns)
  {
    t := Command(rest, pen);
    PaintedAfterTurn(rest, pen, cs);
  }

  lemma {:induction false} PaintedHasSize(cs: seq<Column>)
    ensures (Width(cs) == 0 <==> cs == []) && (Height(cs) == 0 <==> cs == [])
  {
  }

  /** Paints `count` columns next to each other. */
  method PaintRun(grid: Grid, gridW: nat, pen: Pen, count: nat, bits: nat, color: Color, ghost cs: seq<Column>)
    returns (painted: Grid, width: nat)
    requires GridShows(grid, gridW, cs)
    ensures GridShows(painted, width, cs + Columns(pen, count, bits, color))
  {
    painted, width := grid, gridW;
    ghost var all := Columns(pen, count, bits, color);
    assert cs + all[..0] == cs;
    var k := 0;
    while k < count
      invariant 0 <= k <= count
      invariant GridShows(painted, width, cs + all[..k])
    {
      assert cs + all[..k + 1] == cs + all[..k] + [all[k]];
      painted, width := PaintColumn(painted, width, Column(pen.x + k, pen.band, bits, color), cs + all[..k]);
      k := k + 1;
    }
    assert all[..count] == all;
  }

  /** Writes the grid out row by row. */
  method Flatten(grid: Grid, gridW: nat, ghost cs: seq<Column>) returns (pixels: seq<Color>)
    requires GridShows(grid, gridW, cs)
    ensures pixels == RowMajor(cs, Width(cs), Height(cs))
  {
    pixels := [];
    var y := 0;
    while y < |grid|
      invariant 0 <= y <= |grid|
      invariant pixels == RowMajor(cs, gridW, y)
    {
      ghost var before := pixels;
      var x := 0;
      while x < gridW
        invariant 0 <= x <= gridW
        invariant pixels == before + Row(cs, gridW, y)[..x]
      {
        pixels := pixels + [if x < |grid[y]| then grid[y][x] else BLACK];
        assert GridAt(grid, x, y) == PixelAt(cs, x, y);
        assert Row(cs, gridW, y)[..x + 1] == Row(cs, gridW, y)[..x] + [PixelAt(cs, x, y)];
        x := x + 1;
      }
      assert Row(cs, gridW, y)[..gridW] == Row(cs, gridW, y);
      y := y + 1;
    }
  }

  /** `#` and its parameters: selects a register and perhaps redefines it. */
  method SelectRegister(pen: Pen, params: seq<nat>) returns (after: Pen)
    ensures after == Select(pen, params)
  {
    after := pen;
    if |params| >= 5 {
      var color := Rgb(params[2], params[3], params[4]);
      if params[0] < |pen.palette| {
        after := after.(palette := pen.palette[params[0] := color]);
      }
      after := after.(register := params[0]);
    } else if params != [] {
      after := after.(register := params[0]);
    } else {
      after := after.(register := 0);
    }
  }

  /** `!` with its parameters and the byte after them. */
  method RepeatSixel(data: seq<Byte>, pen: Pen, grid: Grid, gridW: nat, ghost cs: seq<Column>)
    returns (length: nat, after: Pen, painted: Grid, width: nat)
    requires data != [] && |pen.palette| == 256 && GridShows(grid, gridW, cs)
    ensures var t := Repeat(data, pen);
      length == t.length && after == t.pen && GridShows(painted, width, cs + t.columns)
  {
    after, painted, width := pen, grid, gridW;
    assert cs + [] == cs;
    var params, consumed := ParseSixelParams(data[1..]);
    var count := if params == [] then 1 else params[0];
    var at := 1 + consumed;
    if at < |data| && IsSixel(data[at]) {
      var color := pen.palette[if pen.register > 255 then 255 else pen.register];
      painted, width := PaintRun(grid, gridW, pen, count, data[at] - 0x3f, color, cs);
      after := after.(x := pen.x + count);
    }
    length := at + 1;
  }

  /** One turn of the decoder loop, at the start of `data`. */
  method TakeTurn(data: seq<Byte>, pen: Pen, grid: Grid, gridW: nat, ghost cs: seq<Column>, ghost t: Turn)
    returns (panicked: bool, length: nat, after: Pen, painted: Grid, width: nat)
    requires data != [] && |pen.palette| == 256 && GridShows(grid, gridW, cs) && t == Command(data, pen)
    ensures panicked == t.Panicked?
    ensures t.Turned? ==> length == t.length && after == t.pen && GridShows(painted, width, cs + t.columns)
  {
    panicked, length, after, painted, width := false, 1, pen, grid, gridW;
    assert cs + [] == cs;
    var c := data[0];
    if c == HASH {
      var params, consumed := ParseSixelParams(data[1..]);
      if pen.checked && Overflows(params) {
        return true, length, after, painted, width;
      }
      after := SelectRegister(pen, params);
      length := 1 + consumed;
    } else if c == BANG {
      length, after, painted, width := RepeatSixel(data, pen, grid, gridW, cs);
    } else if c == DOLLAR {
      after := after.(x := 0);
    } else if c == MINUS {
      after := after.(x := 0, band := pen.band + 1);
    } else if IsSixel(c) {
      if pen.register >= |pen.palette| {
        return true, length, after, painted, width;
      }
      painted, width := PaintRun(grid, gridW, pen, 1, c - 0x3f, pen.palette[pen.register], cs);
      after := after.(x := pen.x + 1);
    }
  }

  lemma {:induction false} DecodingEnds(goal: Option<seq<Column>>, pen: Pen, cs: seq<Column>)
    requires Decoding(goal, [], pen, cs)
    ensures goal == Some(cs)
  {
    assert cs + [] == cs;
  }

  /** One turn of the loop, on the way to `goal`. */
  method Advance(
      ghost goal: Option<seq<Column>>, rest: seq<Byte>, pen: Pen, grid: Grid, gridW: nat, ghost cs: seq<Column>)
    returns (panicked: bool, length: nat, after: Pen, painted: Grid, width: nat, ghost more: seq<Column>)
    requires Decoding(goal, rest, pen, cs) && rest != [] && GridShows(grid, gridW, cs)
    ensures panicked ==> goal == None
    ensures !panicked ==>
              length > 0 && Decoding(goal, Drop(rest, length), after, more) && GridShows(painted, width, more)
  {
    ghost var t := TurnTaken(goal, rest, pen, cs);
    panicked, length, after, painted, width := TakeTurn(rest, pen, grid, gridW, cs, t);
    more := cs;
    if panicked {
      return;
    }
    more := cs + t.columns;
    assert length == t.length && after == t.pen;
  }

  lemma DropTwice(data: seq<Byte>, i: nat, n: nat)
    requires i <= |data|
    ensures Drop(data[i..], n) == Drop(data, i + n)
  {
  }

  /** The loop over the stream. */
  method DecodeAll(data: seq<Byte>, start: Pen) returns (panicked: bool, grid: Grid, gridW: nat, ghost cs: seq<Column>)
    requires |start.palette| == 256
    ensures Painted(data, start) == if panicked then None else Some(cs)
    ensures !panicked ==> GridShows(grid, gridW, cs)
  {
    var pen := start;
    panicked, grid, gridW, cs := false, [], 0, [];
    ghost var goal, rest := Painted(data, start), data;
    DecodingStarts(data, start);
    assert GridShows(grid, gridW, cs);
    var i := 0;
    while i < |data|
      invariant rest == Drop(data, i)
      invariant !panicked && Decoding(goal, rest, pen, cs) && GridShows(grid, gridW, cs)
      decreases |data| - i
    {
      var length;
      panicked, length, pen, grid, gridW, cs := Advance(goal, data[i..], pen, grid, gridW, cs);
      if panicked {
        return;
      }
      DropTwice(data, i, length);
      rest := Drop(rest, length);
      i := i + length;
    }
    DecodingEnds(goal, pen, cs);
  }

  method DecodeFrom(data: seq<Byte>, start: Pen) returns (image: Decoded)
    requires |start.palette| == 256
    ensures image == PictureFrom(data, start)
  {
    var panicked, grid, gridW;
    ghost var cs;
    panicked, grid, gridW, cs := DecodeAll(data, start);
    if panicked {
      return Panic;
    }
    PaintedHasSize(cs);
    if gridW == 0 || |grid| == 0 {
      return NoImage;
    }
    var pixels := Flatten(grid, gridW, cs);
    return Image(gridW, |grid|, pixels);
  }

  /** The decoder draws exactly the picture its input means, on every input and in either build. */
  method DecodeSixel(data: seq<Byte>, checked: bool) returns (image: Decoded)
    ensures image == Picture(data, checked)
  {
    image := DecodeFrom(data, Start(checked));
  }
}
