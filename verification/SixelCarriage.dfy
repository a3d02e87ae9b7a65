/**
  How pictures compose: what is painted later covers what was painted before, and what `$` and `-` do
  to the part of a stream that comes after them.
 */
module SixelCarriage {
  import opened Basics
  import opened Wrappers
  import opened Sixel
  import opened SixelLaws

  // ---------------------------------------------------------------------------
  // Pixels and extents of columns
  // ---------------------------------------------------------------------------

  /** Some column paints the pixel. */
  ghost predicate Touches(cs: seq<Column>, x: nat, y: nat) {
    exists i :: 0 <= i < |cs| && Covers(cs[i], x, y)
  }

  /** A pixel has the colour of the last column that covers it. */
  lemma {:induction false} PixelIsLast(cs: seq<Column>, i: nat, x: nat, y: nat)
    requires i < |cs| && Covers(cs[i], x, y) && forall j | i < j < |cs| :: !Covers(cs[j], x, y)
    ensures PixelAt(cs, x, y) == cs[i].color
  {
    if i < |cs| - 1 {
      PixelIsLast(cs[..|cs| - 1], i, x, y);
    }
  }

  /** It is black if no column does. */
  lemma {:induction false} PixelUntouched(cs: seq<Column>, x: nat, y: nat)
    requires !Touches(cs, x, y)
    ensures PixelAt(cs, x, y) == BLACK
  {
    if cs != [] {
      assert !Covers(cs[|cs| - 1], x, y);
      SameTouched(cs, |cs| - 1, x, y);
      PixelUntouched(cs[..|cs| - 1], x, y);
    }
  }

  lemma {:induction false} PixelOfBoth(a: seq<Column>, b: seq<Column>, x: nat, y: nat)
    ensures PixelAt(a + b, x, y) == if Touches(b, x, y) then PixelAt(b, x, y) else PixelAt(a, x, y)
  {
    if b == [] {
      assert a + b == a;
    } else {
      var n := |b| - 1;
      assert (a + b)[..|a + b| - 1] == a + b[..n];
      PixelOfBoth(a, b[..n], x, y);
      if !Covers(b[n], x, y) {
        SameTouched(b, n, x, y);
      }
    }
  }

  lemma SameTouched(b: seq<Column>, n: nat, x: nat, y: nat)
    requires n < |b| && n + 1 == |b| && !Covers(b[n], x, y)
    ensures Touches(b, x, y) <==> Touches(b[..n], x, y)
  {
    assert forall i | 0 <= i < n :: b[..n][i] == b[i];
  }

  lemma {:induction false} ExtentOfBoth(a: seq<Column>, b: seq<Column>)
    ensures Width(a + b) == Max(Width(a), Width(b)) && Height(a + b) == Max(Height(a), Height(b))
  {
    if b == [] {
      assert a + b == a;
    } else {
      assert (a + b)[..|a + b| - 1] == a + b[..|b| - 1];
      ExtentOfBoth(a, b[..|b| - 1]);
    }
  }

  /** The extent is large enough for every column, and no larger. */
  lemma {:induction false} ExtentIsTight(cs: seq<Column>)
    ensures forall i | 0 <= i < |cs| :: cs[i].x < Width(cs) && 6 * cs[i].band + 6 <= Height(cs)
    ensures cs != [] ==> exists i :: 0 <= i < |cs| && cs[i].x + 1 == Width(cs)
    ensures cs != [] ==> exists i :: 0 <= i < |cs| && 6 * cs[i].band + 6 == Height(cs)
  {
    if cs != [] {
      var n := |cs| - 1;
      ExtentIsTight(cs[..n]);
      assert forall i | 0 <= i < n :: cs[..n][i] == cs[i];
      if cs[n].x + 1 == Width(cs) {
        assert cs[n].x + 1 == Width(cs);
      } else {
        var i :| 0 <= i < n && cs[..n][i].x + 1 == Width(cs[..n]);
        assert cs[i].x + 1 == Width(cs);
      }
      if 6 * cs[n].band + 6 == Height(cs) {
        assert 6 * cs[n].band + 6 == Height(cs);
      } else {
        var i :| 0 <= i < n && 6 * cs[..n][i].band + 6 == Height(cs[..n]);
        assert 6 * cs[i].band + 6 == Height(cs);
      }
    }
  }

  // ---------------------------------------------------------------------------
  // Moving columns down
  // ---------------------------------------------------------------------------

  function Lowered(cs: seq<Column>, bands: nat): (low: seq<Column>)
    ensures |low| == |cs| && forall i | 0 <= i < |cs| :: low[i] == cs[i].(band := cs[i].band + bands)
  {
    seq(|cs|, i requires 0 <= i < |cs| => cs[i].(band := cs[i].band + bands))
  }

  function LoweredAll(painted: Option<seq<Column>>, bands: nat): Option<seq<Column>> {
    if painted.None? then None else Some(Lowered(painted.value, bands))
  }

  lemma CoversLower(c: Column, bands: nat, x: nat, y: nat)
    ensures Covers(c.(band := c.band + bands), x, y) <==> y >= 6 * bands && Covers(c, x, y - 6 * bands)
  {
    if y >= 6 * bands {
      assert (y - 6 * bands) / 6 == y / 6 - bands && (y - 6 * bands) % 6 == y % 6;
    }
  }

  /** Six rows for each band. */
  lemma {:induction false} PixelLower(cs: seq<Column>, bands: nat, x: nat, y: nat)
    ensures Touches(Lowered(cs, bands), x, y) <==> y >= 6 * bands && Touches(cs, x, y - 6 * bands)
    ensures Touches(Lowered(cs, bands), x, y) ==>
              PixelAt(Lowered(cs, bands), x, y) == PixelAt(cs, x, y - 6 * bands)
  {
    var low := Lowered(cs, bands);
    forall i | 0 <= i < |cs|
      ensures Covers(low[i], x, y) <==> y >= 6 * bands && Covers(cs[i], x, y - 6 * bands)
    {
      CoversLower(cs[i], bands, x, y);
    }
    if cs != [] && y >= 6 * bands {
      var n := |cs| - 1;
      assert low[..n] == Lowered(cs[..n], bands);
      PixelLower(cs[..n], bands, x, y);
      if !Covers(low[n], x, y) {
        SameTouched(low, n, x, y);
      }
    }
  }

  lemma {:induction false} ExtentLower(cs: seq<Column>, bands: nat)
    ensures Width(Lowered(cs, bands)) == Width(cs)
    ensures Height(Lowered(cs, bands)) == if cs == [] then 0 else Height(cs) + 6 * bands
  {
    if cs != [] {
      var n := |cs| - 1;
      assert Lowered(cs, bands)[..n] == Lowered(cs[..n], bands);
      ExtentLower(cs[..n], bands);
    }
  }

  lemma CommandLower(data: seq<Byte>, pen: Pen, low: Pen, bands: nat)
    requires data != [] && |pen.palette| == 256 && low == pen.(band := pen.band + bands)
    ensures var t, u := Command(data, pen), Command(data, low);
      && (t.Panicked? <==> u.Panicked?)
      && (t.Turned? ==>
            u == Turned(t.length, t.pen.(band := t.pen.band + bands), Lowered(t.columns, bands)))
  {
    var t, u := Command(data, pen), Command(data, low);
    if t.Turned? {
      assert u.columns == Lowered(t.columns, bands);
    }
  }

  /** A stream that starts further down paints the same columns further down. */
  lemma {:induction false} PaintedLower(data: seq<Byte>, pen: Pen, low: Pen, bands: nat)
    requires |pen.palette| == 256 && low == pen.(band := pen.band + bands)
    ensures Painted(data, low) == LoweredAll(Painted(data, pen), bands)
    decreases |data|
  {
    if data != [] {
      var t, u := Command(data, pen), Command(data, low);
      CommandLower(data, pen, low, bands);
      PaintedUnfolds(data, pen, t);
      PaintedUnfolds(data, low, u);
      if t.Turned? {
        PaintedLower(Drop(data, t.length), t.pen, u.pen, bands);
        ThenLower(t.columns, Painted(Drop(data, t.length), t.pen), bands);
      }
    }
  }

  lemma ThenLower(cs: seq<Column>, rest: Option<seq<Column>>, bands: nat)
    ensures LoweredAll(Then(cs, rest), bands) == Then(Lowered(cs, bands), LoweredAll(rest, bands))
  {
    if rest.Some? {
      assert Lowered(cs + rest.value, bands) == Lowered(cs, bands) + Lowered(rest.value, bands);
    }
  }

  // ---------------------------------------------------------------------------
  // `$` and `-`
  // ---------------------------------------------------------------------------

  /** The number of `-` commands. */
  function NewLines(a: seq<Byte>): nat
    decreases |a|
  {
    if a == [] then 0
    else (if a[0] == MINUS then 1 else 0) + NewLines(Drop(a, CommandLength(a)))
  }

  /** The band only depends on how many `-` commands there were. */
  lemma {:induction false} BandCounts(a: seq<Byte>, pen: Pen)
    requires |pen.palette| == 256
    ensures Run(a, pen).Some? ==> Run(a, pen).value.0.band == pen.band + NewLines(a)
    decreases |a|
  {
    if a != [] {
      var t := Command(a, pen);
      BandStep(a, pen);
      if t.Turned? {
        RunUnfolds(a, pen, t);
        BandCounts(Drop(a, t.length), t.pen);
      }
    }
  }

  lemma {:induction false} BandStep(a: seq<Byte>, pen: Pen)
    requires a != [] && |pen.palette| == 256
    ensures var t := Command(a, pen);
      t.Turned? ==> t.pen.band + NewLines(Drop(a, t.length)) == pen.band + NewLines(a)
  {
    LengthOfCommand(a, pen);
  }

  /** The bands to go down for the byte `c`: one for `-`, none for `$`. */
  function LineFeeds(c: Byte): nat {
    if c == MINUS then 1 else 0
  }

  lemma {:induction false} AtCarriage(rest: seq<Byte>, last: Pen, home: Pen)
    requires rest != [] && (rest[0] == MINUS || rest[0] == DOLLAR)
    requires |last.palette| == 256 && home == last.(x := 0, band := 0)
    ensures Painted(rest, last) == LoweredAll(Painted(rest[1..], home), last.band + LineFeeds(rest[0]))
  {
    var bands := last.band + LineFeeds(rest[0]);
    var next := home.(band := bands);
    PaintedUnfolds(rest, last, Turned(1, next, []));
    PaintedLower(rest[1..], home, next, bands);
    NothingFirst(Painted(rest[1..], next));
  }

  lemma {:induction false} SplitOnto(
      a: seq<Byte>, rest: seq<Byte>, pen: Pen, last: Pen, above: seq<Column>, below: Option<seq<Column>>)
    requires |pen.palette| == 256 && Boundary(a + rest, |a|)
    requires Run(a, pen) == Some((last, above)) && |last.palette| == 256 && Painted(rest, last) == below
    ensures Painted(a + rest, pen) == Then(above, below)
  {
    SplitAtBoundary(a, rest, pen);
  }

  /**
    What comes after a `$` or `-` at a command boundary is painted from the left margin on with the
    colours that are selected by then, in the band reached before or one further down.
   */
  lemma {:induction false} CarriageReturns(
      a: seq<Byte>, rest: seq<Byte>, pen: Pen, last: Pen, above: seq<Column>, home: Pen)
    requires rest != [] && (rest[0] == MINUS || rest[0] == DOLLAR) && Boundary(a + rest, |a|)
    requires |pen.palette| == 256 && Run(a, pen) == Some((last, above)) && |last.palette| == 256
    requires home == last.(x := 0, band := 0)
    ensures Painted(a + rest, pen) ==
            Then(above, LoweredAll(Painted(rest[1..], home), last.band + LineFeeds(rest[0])))
  {
    AtCarriage(rest, last, home);
    SplitOnto(a, rest, pen, last, above, LoweredAll(Painted(rest[1..], home), last.band + LineFeeds(rest[0])));
  }

  lemma NothingFirst(rest: Option<seq<Column>>)
    ensures Then([], rest) == rest
  {
    if rest.Some? {
      assert [] + rest.value == rest.value;
    }
  }

  /** The picture in pixels: `below` over `above`, moved down `6 * bands` rows. */
  ghost predicate Stacked(d: Decoded, above: seq<Column>, below: seq<Column>, bands: nat) {
    && d.Image?
    && d.width == Max(Width(above), Width(below))
    && d.height == Max(Height(above), if below == [] then 0 else Height(below) + 6 * bands)
    && |d.pixels| == d.height * d.width
    && forall x: nat, y: nat | x < d.width && y < d.height ::
         PixelOf(d, x, y) == if y >= 6 * bands && Touches(below, x, y - 6 * bands) then PixelAt(below, x, y - 6 * bands)
                             else PixelAt(above, x, y)
  }

  /** The pixel of an image. */
  ghost function PixelOf(d: Decoded, x: nat, y: nat): Color
    requires d.Image? && x < d.width && y < d.height && |d.pixels| == d.height * d.width
  {
    RowFits(x, y, d.width, d.height);
    d.pixels[y * d.width + x]
  }

  lemma RowFits(x: nat, y: nat, width: nat, height: nat)
    requires x < width && y < height
    ensures y * width + x < height * width
  {
    assert (y + 1) * width <= height * width;
  }

  lemma StackShows(d: Decoded, above: seq<Column>, below: seq<Column>, bands: nat)
    requires above + below != []
    requires var cs := above + Lowered(below, bands);
      d == Image(Width(cs), Height(cs), RowMajor(cs, Width(cs), Height(cs)))
    ensures Stacked(d, above, below, bands)
  {
    var low := Lowered(below, bands);
    var cs := above + low;
    ExtentOfBoth(above, low);
    ExtentLower(below, bands);
    RowMajorSize(cs, d.width, d.height);
    forall x: nat, y: nat | x < d.width && y < d.height
      ensures PixelOf(d, x, y) == PixelAt(cs, x, y)
      ensures PixelAt(cs, x, y) == if y >= 6 * bands && Touches(below, x, y - 6 * bands)
                                   then PixelAt(below, x, y - 6 * bands) else PixelAt(above, x, y)
    {
      RowMajorAt(cs, d.width, d.height, x, y);
      PixelOfBoth(above, low, x, y);
      PixelLower(below, bands, x, y);
    }
  }

  /**
    A `-` at a command boundary: the picture of what comes before it, with that of what comes after it
    on top, from the left margin on and six rows below the band reached before. A `$` does the same in
    the band reached before.
   */
  lemma {:induction false} CarriageShows(
      a: seq<Byte>, rest: seq<Byte>, pen: Pen, last: Pen, above: seq<Column>, home: Pen, below: seq<Column>,
      bands: nat)
    requires rest != [] && (rest[0] == MINUS || rest[0] == DOLLAR) && Boundary(a + rest, |a|)
    requires |pen.palette| == 256 && pen.band == 0 && Run(a, pen) == Some((last, above)) && |last.palette| == 256
    requires home == last.(x := 0, band := 0) && Painted(rest[1..], home) == Some(below) && above + below != []
    requires bands == NewLines(a) + if rest[0] == MINUS then 1 else 0
    ensures Stacked(PictureFrom(a + rest, pen), above, below, bands)
  {
    BandCounts(a, pen);
    CarriageShowsAt(a, rest, pen, last, above, home, below, bands);
  }

  lemma {:induction false} CarriageShowsAt(
      a: seq<Byte>, rest: seq<Byte>, pen: Pen, last: Pen, above: seq<Column>, home: Pen, below: seq<Column>,
      bands: nat)
    requires rest != [] && (rest[0] == MINUS || rest[0] == DOLLAR) && Boundary(a + rest, |a|)
    requires |pen.palette| == 256 && Run(a, pen) == Some((last, above)) && |last.palette| == 256
    requires home == last.(x := 0, band := 0) && Painted(rest[1..], home) == Some(below) && above + below != []
    requires bands == last.band + LineFeeds(rest[0])
    ensures Stacked(PictureFrom(a + rest, pen), above, below, bands)
  {
    CarriageReturns(a, rest, pen, last, above, home);
    StackPictured(a + rest, pen, above, below, bands);
  }

  lemma StackPictured(data: seq<Byte>, pen: Pen, above: seq<Column>, below: seq<Column>, bands: nat)
    requires |pen.palette| == 256 && above + below != []
    requires Painted(data, pen) == Some(above + Lowered(below, bands))
    ensures Stacked(PictureFrom(data, pen), above, below, bands)
  {
    assert |above + Lowered(below, bands)| == |above + below|;
    StackShows(PictureFrom(data, pen), above, below, bands);
  }
}
