/** Laws of the Sixel stream: run-length encoding does not change the picture, and when decoding panics. */
module SixelLaws {
  import opened Basics
  import opened Wrappers
  import opened Sixel

  // ---------------------------------------------------------------------------
  // One run
  // ---------------------------------------------------------------------------

  function Copies(n: nat, c: Byte): seq<Byte> {
    if n == 0 then [] else [c] + Copies(n - 1, c)
  }

  /** `!N` followed by the sixel. */
  function Encoded(n: nat, c: Byte): seq<Byte> {
    [BANG] + Printed(n) + [c]
  }

  function RunColor(pen: Pen): Color
    requires |pen.palette| == 256
  {
    pen.palette[if pen.register > 255 then 255 else pen.register]
  }

  lemma {:induction false} CommandOfRun(n: nat, c: Byte, suffix: seq<Byte>, pen: Pen)
    requires n <= U32_MAX && IsSixel(c) && |pen.palette| == 256
    ensures Command(Encoded(n, c) + suffix, pen) ==
            Turned(|Encoded(n, c)|, pen.(x := pen.x + n), Columns(pen, n, c - 0x3f, RunColor(pen)))
  {
    var data := Encoded(n, c) + suffix;
    ParamsReadBack([n], [c] + suffix);
    assert PrintedList([n]) == Printed(n);
    assert data[1..] == Printed(n) + ([c] + suffix);
  }

  lemma {:induction false} EncodedPaints(n: nat, c: Byte, suffix: seq<Byte>, pen: Pen)
    requires n <= U32_MAX && IsSixel(c) && |pen.palette| == 256
    ensures Painted(Encoded(n, c) + suffix, pen) ==
            Then(Columns(pen, n, c - 0x3f, RunColor(pen)), Painted(suffix, pen.(x := pen.x + n)))
  {
    CommandOfRun(n, c, suffix, pen);
    assert Drop(Encoded(n, c) + suffix, |Encoded(n, c)|) == suffix;
  }

  lemma {:induction false} CopiesStep(n: nat, c: Byte, suffix: seq<Byte>, pen: Pen)
    requires IsSixel(c) && |pen.palette| == 256 && pen.register < 256 && n > 0
    ensures Painted(Copies(n, c) + suffix, pen) ==
            Then(Columns(pen, 1, c - 0x3f, RunColor(pen)), Painted(Copies(n - 1, c) + suffix, pen.(x := pen.x + 1)))
  {
    var data := Copies(n, c) + suffix;
    assert data[0] == c;
    PaintedUnfolds(data, pen, Turned(1, pen.(x := pen.x + 1), Columns(pen, 1, c - 0x3f, RunColor(pen))));
    assert Drop(data, 1) == Copies(n - 1, c) + suffix;
  }

  lemma {:induction false} CopiesPaint(n: nat, c: Byte, suffix: seq<Byte>, pen: Pen, last: Pen)
    requires IsSixel(c) && |pen.palette| == 256 && pen.register < 256 && last == pen.(x := pen.x + n)
    ensures Painted(Copies(n, c) + suffix, pen) ==
            Then(Columns(pen, n, c - 0x3f, RunColor(pen)), Painted(suffix, last))
    decreases n
  {
    if n == 0 {
      NoColumns(c, suffix, pen);
    } else {
      var after := pen.(x := pen.x + 1);
      CopiesStep(n, c, suffix, pen);
      CopiesPaint(n - 1, c, suffix, after, last);
      ColumnsSplit(pen, n, c - 0x3f, RunColor(pen), Painted(suffix, last));
    }
  }

  lemma {:induction false} NoColumns(c: Byte, suffix: seq<Byte>, pen: Pen)
    requires |pen.palette| == 256 && IsSixel(c)
    ensures Copies(0, c) + suffix == suffix
    ensures Painted(suffix, pen) ==
            Then(Columns(pen, 0, c - 0x3f, RunColor(pen)), Painted(suffix, pen.(x := pen.x + 0)))
  {
    var rest := Painted(suffix, pen);
    assert pen.(x := pen.x + 0) == pen;
    if rest.Some? {
      assert Columns(pen, 0, c - 0x3f, RunColor(pen)) + rest.value == rest.value;
    }
  }

  lemma ColumnsSplit(pen: Pen, n: nat, bits: nat, color: Color, rest: Option<seq<Column>>)
    requires n > 0
    ensures Then(Columns(pen, 1, bits, color), Then(Columns(pen.(x := pen.x + 1), n - 1, bits, color), rest))
            == Then(Columns(pen, n, bits, color), rest)
  {
    if rest.Some? {
      assert Columns(pen, 1, bits, color) + (Columns(pen.(x := pen.x + 1), n - 1, bits, color) + rest.value)
             == Columns(pen, n, bits, color) + rest.value;
    }
  }

  lemma CopiesPanic(n: nat, c: Byte, suffix: seq<Byte>, pen: Pen)
    requires IsSixel(c) && |pen.palette| == 256 && pen.register >= 256 && n > 0
    ensures Painted(Copies(n, c) + suffix, pen) == None
  {
    assert (Copies(n, c) + suffix)[0] == c;
  }

  // ---------------------------------------------------------------------------
  // When the decoder panics
  // ---------------------------------------------------------------------------

  /** The length of the first command, whatever the pen. */
  function CommandLength(data: seq<Byte>): (n: nat)
    requires data != []
    ensures n > 0
  {
    if data[0] == HASH then 1 + ParamSpan(data[1..])
    else if data[0] == BANG then 2 + ParamSpan(data[1..])
    else 1
  }

  lemma LengthOfCommand(data: seq<Byte>, pen: Pen)
    requires data != [] && |pen.palette| == 256
    ensures Command(data, pen).Turned? ==> Command(data, pen).length == CommandLength(data)
  {
  }

  /**
    A plain sixel is met while a register outside the palette is selected or, in a checked build, a
    register is given a percentage that overflows.
   */
  predicate Exposed(data: seq<Byte>, register: nat, checked: bool)
    decreases |data|
  {
    if data == [] then false
    else if data[0] == HASH then
      var params := Params(data[1..]);
      || (checked && Overflows(params))
      || Exposed(Drop(data, CommandLength(data)), if params == [] then 0 else params[0], checked)
    else
      || (data[0] != BANG && data[0] != DOLLAR && data[0] != MINUS && IsSixel(data[0]) && register >= 256)
      || Exposed(Drop(data, CommandLength(data)), register, checked)
  }

  /** Decoding panics exactly when the stream is exposed, which its bytes and the register decide. */
  lemma {:induction false} PanicsExactlyWhen(data: seq<Byte>, pen: Pen)
    requires |pen.palette| == 256
    ensures Painted(data, pen).None? <==> Exposed(data, pen.register, pen.checked)
    decreases |data|
  {
    if data != [] {
      LengthOfCommand(data, pen);
      var t := Command(data, pen);
      if t.Turned? {
        PanicsExactlyWhen(Drop(data, t.length), t.pen);
      }
    }
  }

  lemma PicturePanicsExactlyWhen(data: seq<Byte>, checked: bool)
    ensures Picture(data, checked) == Panic <==> Exposed(data, 0, checked)
  {
    PanicsExactlyWhen(data, Start(checked));
  }

  lemma {:induction false} CheckedCommand(data: seq<Byte>, pen: Pen, unchecked: Pen)
    requires data != [] && |pen.palette| == 256 && unchecked == pen.(checked := false)
    ensures var t, u := Command(data, pen), Command(data, unchecked);
      t.Turned? ==> u == t.(pen := t.pen.(checked := false))
  {
  }

  lemma {:induction false} CheckedPaintsTheSame(data: seq<Byte>, pen: Pen, unchecked: Pen)
    requires |pen.palette| == 256 && unchecked == pen.(checked := false)
    ensures Painted(data, pen).None? || Painted(data, pen) == Painted(data, unchecked)
    decreases |data|
  {
    if data != [] {
      var t, u := Command(data, pen), Command(data, unchecked);
      PaintedUnfolds(data, pen, t);
      PaintedUnfolds(data, unchecked, u);
      CheckedCommand(data, pen, unchecked);
      if t.Turned? {
        CheckedPaintsTheSame(Drop(data, t.length), t.pen, u.pen);
      }
    }
  }

  /** The two builds draw the same picture exactly when overflow checks do not add a panic. */
  lemma BuildsAgreeExactlyWhen(data: seq<Byte>)
    ensures Picture(data, true) == Picture(data, false) <==> (Exposed(data, 0, true) ==> Exposed(data, 0, false))
  {
    CheckedPaintsTheSame(data, Start(true), Start(false));
    PicturePanicsExactlyWhen(data, true);
    PicturePanicsExactlyWhen(data, false);
  }

  /** A register definition that overflows, such as `#0;2;16843010;0;0`, makes only a checked build panic. */
  lemma {:induction false} BuildsDiffer(ns: seq<nat>)
    requires |ns| >= 5 && (exists i :: 2 <= i <= 4 && ns[i] * 255 > U32_MAX)
    requires forall i | 0 <= i < |ns| :: ns[i] <= U32_MAX
    ensures Picture([HASH] + PrintedList(ns), true) == Panic && Picture([HASH] + PrintedList(ns), false) == NoImage
  {
    var params, data := PrintedList(ns), [HASH] + PrintedList(ns);
    ParamsReadBack(ns, []);
    assert params + [] == params && data[1..] == params && Drop(data, |data|) == [];
    PicturePanicsExactlyWhen(data, true);
    PaintedUnfolds(data, Start(false), Command(data, Start(false)));
  }

  /** `#256?` panics. */
  lemma PlainSixelPanics(checked: bool)
    ensures Picture([HASH, 50, 53, 54, 0x3f], checked) == Panic
  {
    var data: seq<Byte> := [HASH, 50, 53, 54, 0x3f];
    Read256(data);
    var rest: seq<Byte> := [0x3f];
    assert Drop(data, 4) == rest;
    assert Exposed(rest, 256, checked);
    PicturePanicsExactlyWhen(data, checked);
  }

  /** `#256!1?` does not: the repeat path uses register 255 instead. */
  lemma RepeatedSixelDraws(checked: bool)
    ensures Picture([HASH, 50, 53, 54, BANG, 49, 0x3f], checked).Image?
  {
    var data: seq<Byte> := [HASH, 50, 53, 54, BANG, 49, 0x3f];
    var rest: seq<Byte> := [BANG, 49, 0x3f];
    Read256(data);
    assert Drop(data, 4) == rest;
    var pen := Start(checked);
    var selected := Select(pen, [256]);
    PaintedUnfolds(data, pen, Command(data, pen));
    assert rest == Encoded(1, 0x3f) + [] by {
      assert Encoded(1, 0x3f) == rest;
    }
    EncodedPaints(1, 0x3f, [], selected);
  }

  /** The parameter of a stream that starts with `#256` and goes on with no parameter byte. */
  lemma Read256(data: seq<Byte>)
    requires |data| > 4 && data[..4] == [HASH, 50, 53, 54] && !IsParam(data[4])
    ensures Params(data[1..]) == [256] && ParamSpan(data[1..]) == 3
  {
    assert Printed(25) == [50, 53];
    assert PrintedList([256]) == [50, 53, 54];
    ParamsReadBack([256], data[4..]);
    assert data[1..] == PrintedList([256]) + data[4..];
  }

  // ---------------------------------------------------------------------------
  // Run-length encoding
  // ---------------------------------------------------------------------------

  /**
    A run and its copies paint the same, exactly when there is nothing to repeat, or the register is
    one the palette has, or the rest of the stream panics in any case. The plain path indexes the
    palette without the clamp of the repeat path.
   */
  lemma {:induction false} RunLengthExactlyWhen(n: nat, c: Byte, suffix: seq<Byte>, pen: Pen)
    requires n <= U32_MAX && IsSixel(c) && |pen.palette| == 256
    ensures Painted(Encoded(n, c) + suffix, pen) == Painted(Copies(n, c) + suffix, pen) <==>
            n == 0 || pen.register < 256 || Exposed(suffix, pen.register, pen.checked)
  {
    EncodedPaints(n, c, suffix, pen);
    PanicsExactlyWhen(suffix, pen.(x := pen.x + n));
    if pen.register < 256 {
      CopiesPaint(n, c, suffix, pen, pen.(x := pen.x + n));
    } else if n > 0 {
      CopiesPanic(n, c, suffix, pen);
    } else {
      NoColumns(c, suffix, pen);
    }
  }

  // ---------------------------------------------------------------------------
  // Runs inside a stream
  // ---------------------------------------------------------------------------

  /** Position `k` is a command boundary of `data`. */
  predicate Boundary(data: seq<Byte>, k: nat) {
    k == 0 ||
    (data != [] && CommandLength(data) <= k && CommandLength(data) <= |data|
     && Boundary(data[CommandLength(data)..], k - CommandLength(data)))
  }

  /** The pen and the columns after running all commands of `a`, or `None` if one of them panics. */
  function Run(a: seq<Byte>, pen: Pen): (r: Option<(Pen, seq<Column>)>)
    requires |pen.palette| == 256
    ensures r.Some? ==> |r.value.0.palette| == 256
    decreases |a|
  {
    if a == [] then Some((pen, []))
    else
      match Command(a, pen)
      case Panicked => None
      case Turned(length, after, columns) =>
        var rest := Run(Drop(a, length), after);
        if rest.None? then None else Some((rest.value.0, columns + rest.value.1))
  }

  lemma {:induction false} SpanInPrefix(a: seq<Byte>, s: seq<Byte>)
    requires ParamSpan(a + s) <= |a|
    ensures ParamSpan(a) == ParamSpan(a + s)
  {
    if a != [] && IsParam(a[0]) {
      assert (a + s)[1..] == a[1..] + s;
      SpanInPrefix(a[1..], s);
    }
  }

  /** A command that ends inside `a` is decided by `a` alone. */
  lemma {:induction false} CommandInPrefix(a: seq<Byte>, s: seq<Byte>, pen: Pen)
    requires a != [] && |pen.palette| == 256 && CommandLength(a + s) <= |a|
    ensures CommandLength(a) == CommandLength(a + s)
    ensures Command(a, pen) == Command(a + s, pen)
  {
    assert (a + s)[1..] == a[1..] + s;
    if a[0] == HASH || a[0] == BANG {
      SpanInPrefix(a[1..], s);
      var n := ParamSpan(a[1..]);
      assert (a[1..] + s)[..n] == a[1..][..n];
    }
  }

  /** Up to a boundary a stream behaves like its prefix, and from there on like its suffix. */
  lemma {:induction false} SplitAtBoundary(a: seq<Byte>, s: seq<Byte>, pen: Pen)
    requires |pen.palette| == 256 && Boundary(a + s, |a|)
    ensures Painted(a + s, pen) ==
            if Run(a, pen).None? then None else Then(Run(a, pen).value.1, Painted(s, Run(a, pen).value.0))
    decreases |a|
  {
    if a == [] {
      assert a + s == s;
      var rest := Painted(s, pen);
      if rest.Some? {
        assert [] + rest.value == rest.value;
      }
    } else {
      CommandInPrefix(a, s, pen);
      LengthOfCommand(a, pen);
      var t := Command(a, pen);
      if t.Turned? {
        SplitStep(a, s, pen);
      }
    }
  }

  lemma {:induction false} RunUnfolds(a: seq<Byte>, pen: Pen, t: Turn)
    requires a != [] && |pen.palette| == 256 && t == Command(a, pen) && t.Turned?
    ensures var rest := Run(Drop(a, t.length), t.pen);
      Run(a, pen) == if rest.None? then None else Some((rest.value.0, t.columns + rest.value.1))
  {
  }

  lemma DropConcat(a: seq<Byte>, s: seq<Byte>, n: nat)
    requires n <= |a|
    ensures Drop(a + s, n) == (a + s)[n..] == Drop(a, n) + s
  {
  }

  lemma {:induction false} SplitStep(a: seq<Byte>, s: seq<Byte>, pen: Pen)
    requires a != [] && |pen.palette| == 256 && Boundary(a + s, |a|)
    requires Command(a, pen) == Command(a + s, pen) && Command(a, pen).Turned?
    requires Command(a, pen).length == CommandLength(a + s)
    ensures Painted(a + s, pen) ==
            if Run(a, pen).None? then None else Then(Run(a, pen).value.1, Painted(s, Run(a, pen).value.0))
    decreases |a|, 0
  {
    var t := Command(a, pen);
    var rest := Drop(a, t.length);
    PaintedUnfolds(a + s, pen, t);
    RunUnfolds(a, pen, t);
    DropConcat(a, s, t.length);
    SplitAtBoundary(rest, s, t.pen);
    var run := Run(rest, t.pen);
    if run.Some? {
      ThenTwice(t.columns, run.value.1, Painted(s, run.value.0));
    }
  }

  lemma {:induction false} SpanOfConcat(a: seq<Byte>, rest: seq<Byte>)
    requires rest == [] || !IsParam(rest[0])
    ensures ParamSpan(a + rest) == ParamSpan(a)
  {
    if a == [] {
      assert a + rest == rest;
    } else if IsParam(a[0]) {
      SpanOfConcat(a[1..], rest);
      assert (a + rest)[1..] == a[1..] + rest;
    }
  }

  lemma {:induction false} LengthKept(a: seq<Byte>, s: seq<Byte>)
    requires a != [] && s != [] && !IsParam(s[0])
    ensures CommandLength(a + s) == CommandLength(a)
  {
    var data := a + s;
    assert data[0] == a[0];
    assert data[1..] == a[1..] + s;
    SpanOfConcat(a[1..], s);
  }

  lemma {:induction false} BoundaryStep(a: seq<Byte>, s: seq<Byte>, n: nat)
    requires a != [] && n == CommandLength(a + s)
    ensures Boundary(a + s, |a|) <==> n <= |a| && Boundary(a[n..] + s, |a| - n)
  {
    if n <= |a| {
      assert (a + s)[n..] == a[n..] + s;
    }
  }

  /** Whether a prefix ends at a boundary does not depend on which non-parameter byte follows it. */
  lemma {:induction false} BoundaryKept(a: seq<Byte>, s: seq<Byte>, s': seq<Byte>)
    requires s != [] && !IsParam(s[0]) && s' != [] && !IsParam(s'[0])
    requires Boundary(a + s, |a|)
    ensures Boundary(a + s', |a|)
  {
    if a != [] {
      var n := CommandLength(a);
      LengthKept(a, s);
      LengthKept(a, s');
      BoundaryStep(a, s, n);
      BoundaryStep(a, s', n);
      BoundaryKept(a[n..], s, s');
    }
  }

  /**
    Replacing a run by its copies at a command boundary leaves the picture as it is, for every stream
    before and after it, exactly when the stream before it panics, or there is nothing to repeat, or
    the register selected there is one the palette has, or the stream after it panics in any case.
    For an empty run the boundary must remain one once the run is gone.
   */
  lemma {:induction false} RunLengthPreservesPicture(
      prefix: seq<Byte>, n: nat, c: Byte, suffix: seq<Byte>, checked: bool)
    requires n <= U32_MAX && IsSixel(c)
    requires Boundary(prefix + (Encoded(n, c) + suffix), |prefix|)
    requires n == 0 ==> Boundary(prefix + suffix, |prefix|)
    ensures var run := Run(prefix, Start(checked));
      Picture(prefix + (Encoded(n, c) + suffix), checked) == Picture(prefix + (Copies(n, c) + suffix), checked) <==>
        || run.None? || n == 0 || run.value.0.register < 256
        || Exposed(suffix, run.value.0.register, checked)
  {
    var encoded, copies, pen := Encoded(n, c) + suffix, Copies(n, c) + suffix, Start(checked);
    if n == 0 {
      assert copies == suffix;
    } else {
      BoundaryKept(prefix, encoded, copies);
    }
    SplitAtBoundary(prefix, encoded, pen);
    SplitAtBoundary(prefix, copies, pen);
    var run := Run(prefix, pen);
    if run.Some? {
      RunKeepsBuild(prefix, pen);
      RunLengthExactlyWhen(n, c, suffix, run.value.0);
      if n > 0 && run.value.0.register >= 256 {
        CopiesPanic(n, c, suffix, run.value.0);
        PicturesDiffer(prefix + encoded, prefix + copies, pen);
      }
    }
  }

  /** A stream that panics and one that does not have different pictures. */
  lemma PicturesDiffer(data: seq<Byte>, other: seq<Byte>, pen: Pen)
    requires |pen.palette| == 256 && Painted(other, pen).None?
    ensures PictureFrom(data, pen) == PictureFrom(other, pen) <==> Painted(data, pen) == Painted(other, pen)
  {
  }

  lemma {:induction false} RunKeepsBuild(a: seq<Byte>, pen: Pen)
    requires |pen.palette| == 256
    ensures Run(a, pen).Some? ==> Run(a, pen).value.0.checked == pen.checked
    decreases |a|
  {
    if a != [] {
      var t := Command(a, pen);
      if t.Turned? {
        RunUnfolds(a, pen, t);
        RunKeepsBuild(Drop(a, t.length), t.pen);
      }
    }
  }
}
