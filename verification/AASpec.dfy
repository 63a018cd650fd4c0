/** The anti-aliasing scaler as functions: which source column and row each output takes its
    pixels from, and how they are blended. */
module AASpec {
  import opened Arith
  import opened Pixels
  import opened Rows

  function Avg(a: Pixel, b: Pixel): Pixel {
    Average16Small(a, b);
    Average16(a, b)
  }

  // ---- the reduced ratios ----

  function Gcd(a: nat, b: nat): nat
    decreases b
  {
    if b == 0 then a else Gcd(b, a % b)
  }

  predicate Divides(d: nat, n: nat) { d > 0 && n % d == 0 }

  lemma MultipleDivides(k: nat, d: nat)
    requires d > 0
    ensures Divides(d, k * d) && k * d / d == k
  {
    DivUnique(k * d, d, k);
  }

  lemma DividesCombination(d: nat, a: nat, b: nat, q: nat)
    requires Divides(d, a) && Divides(d, b)
    ensures Divides(d, q * a + b)
  {
    var x, y := a / d, b / d;
    assert a == x * d && b == y * d;
    assert q * (x * d) == (q * x) * d;
    assert q * a + b == (q * x) * d + y * d;
    assert (q * x) * d + y * d == (q * x + y) * d;
    MultipleDivides(q * x + y, d);
  }

  lemma DividesRemainder(d: nat, a: nat, b: nat)
    requires Divides(d, a) && Divides(d, b) && b > 0
    ensures Divides(d, a % b)
  {
    var x, y, q := a / d, b / d, a / b;
    assert a == x * d && b == y * d && a == q * b + a % b;
    assert q * (y * d) == (q * y) * d;
    assert a % b == x * d - (q * y) * d;
    assert x * d - (q * y) * d == (x - q * y) * d;
    if x - q * y < 0 {
      MulLe(x - q * y, -1, d);
    }
    MultipleDivides(x - q * y, d);
  }

  /** Euclid's recursion yields the greatest common divisor. */
  lemma {:induction false} GcdIsGreatest(a: nat, b: nat)
    requires a > 0 || b > 0
    ensures Divides(Gcd(a, b), a) && Divides(Gcd(a, b), b)
    ensures forall d :: Divides(d, a) && Divides(d, b) ==> Divides(d, Gcd(a, b))
    decreases b
  {
    if b > 0 {
      GcdIsGreatest(b, a % b);
      var g := Gcd(b, a % b);
      DividesCombination(g, b, a % b, a / b);
      assert a / b * b + a % b == a;
      forall d | Divides(d, a) && Divides(d, b) ensures Divides(d, g) { DividesRemainder(d, a, b); }
    }
  }

  /** One direction of the scaler: reduced source and target sizes and the two blend bounds. */
  datatype Axis = Axis(rin: nat, rout: nat, bp0: nat, bp1: nat)

  /** Rounding n / 5 or n / 2.5 to the nearest integer (ties cannot occur). */
  function BlendBound(n: nat, shrinking: bool): nat {
    if shrinking then (2 * n + 5) / 10 else (4 * n + 5) / 10
  }

  /** The ratios GFX_getAAScaler sets up; the width decides the denominator for both axes. */
  function MakeAxis(src: nat, dst: nat, shrinking: bool): Axis
    requires src > 0 && dst > 0
  {
    var g := Gcd(src, dst);
    GcdIsGreatest(src, dst);
    Axis(src / g, dst / g, BlendBound(dst / g, shrinking), dst / g / 2)
  }

  ghost predicate Fits(x: Axis, src: nat, dst: nat) {
    x.rin > 0 && x.rout > 0 && x.rin * dst == x.rout * src
  }

  lemma AxisFits(src: nat, dst: nat, shrinking: bool)
    requires src > 0 && dst > 0
    ensures Fits(MakeAxis(src, dst, shrinking), src, dst)
  {
    GcdIsGreatest(src, dst);
    var g := Gcd(src, dst);
    var x, y := src / g, dst / g;
    assert src == x * g && dst == y * g;
    assert x * (y * g) == y * (x * g);
  }

  // ---- one axis: output k starts in cell k * rin / rout ----

  /** The source cell of output k. */
  function Cell(x: Axis, k: nat): nat
    requires x.rout > 0
  {
    k * x.rin / x.rout
  }

  /** How far into its cell output k lies, in units of which a cell has rout. */
  function Offset(x: Axis, k: nat): nat
    requires x.rout > 0
  {
    k * x.rin % x.rout
  }

  /** The source column (or row) that output k of dst shows: the floor of the exact position. */
  function Source(n: nat, dst: nat, k: nat): nat
    requires dst > 0
  {
    k * n / dst
  }

  lemma Positive(x: Axis, src: nat, dst: nat)
    requires Fits(x, src, dst) && dst > 0
    ensures src > 0
  {
    assert x.rin * dst > 0;
  }

  /** With reduced ratios the cell is the floor of k * src / dst. */
  lemma CellIsFloor(x: Axis, src: nat, dst: nat, k: nat)
    requires Fits(x, src, dst) && dst > 0
    ensures Cell(x, k) == Source(src, dst, k)
    ensures k < dst ==> Cell(x, k) < src
  {
    assert (k * x.rin) * dst == (k * src) * x.rout by {
      assert (k * x.rin) * dst == k * (x.rin * dst);
      assert (k * src) * x.rout == k * (x.rout * src);
    }
    EqualFloors(k * x.rin, x.rout, k * src, dst);
    if k < dst {
      Positive(x, src, dst);
      MulLt(k, dst, src);
      DivBound(k * src, dst, src);
    }
  }

  // ---- the outputs of one column ----

  /** One output between pixels a and b, and what the code leaves in its variables a and b. */
  function Tap(x: Axis, a: Pixel, b: Pixel, dx: nat): (Pixel, Pixel, Pixel) {
    if a == b then (a, a, b)
    else if dx as int > x.rout - x.bp0 then (b, a, b)
    else if dx <= x.bp0 then (a, a, b)
    else
      var a' := if dx as int > x.rout - x.bp1 then Avg(a, b) else a;
      var b' := if dx as int > x.rout - x.bp1 then b else if dx <= x.bp1 then Avg(a, b) else b;
      (Avg(a', b'), a', b')
  }

  /** All outputs of a column from offset dx on. */
  function Taps(x: Axis, a: Pixel, b: Pixel, dx: nat): seq<Pixel>
    requires x.rin > 0
    decreases if dx < x.rout then x.rout - dx else 0
  {
    if dx >= x.rout then []
    else var (out, a', b') := Tap(x, a, b, dx); [out] + Taps(x, a', b', dx + x.rin)
  }

  /** A column has exactly the outputs whose offset is below rout. */
  lemma {:induction false} TapsLength(x: Axis, a: Pixel, b: Pixel, dx: nat, n: nat)
    requires x.rin > 0
    ensures n < |Taps(x, a, b, dx)| <==> dx + n * x.rin < x.rout
    decreases n
  {
    if dx < x.rout && n > 0 {
      var (_, a', b') := Tap(x, a, b, dx);
      TapsLength(x, a', b', dx + x.rin, n - 1);
      assert (n - 1) * x.rin + x.rin == n * x.rin;
    } else if dx >= x.rout {
      assert n * x.rin >= 0;
    }
  }

  /** The output at offset dx of the column between a and b: the code reaches it after dx / rin
      earlier outputs of the same column. */
  function At(x: Axis, a: Pixel, b: Pixel, dx: nat): Pixel
    requires x.rin > 0 && dx < x.rout
  {
    TapsLength(x, a, b, dx % x.rin, dx / x.rin);
    Taps(x, a, b, dx % x.rin)[dx / x.rin]
  }

  lemma TapWithin(x: Axis, a: Pixel, b: Pixel, dx: nat, r: Range)
    requires Within(a, r) && Within(b, r)
    ensures var (out, a', b') := Tap(x, a, b, dx); Within(out, r) && Within(a', r) && Within(b', r)
  {
    AverageWithin(a, b, r);
    hide Within, Average16;
    var (_, a', b') := Tap(x, a, b, dx);
    AverageWithin(a', b', r);
  }

  /** However often the code overwrites a and b, every output of a column stays within the
      channel ranges of the column's two pixels. */
  lemma {:induction false} TapsWithin(x: Axis, a: Pixel, b: Pixel, dx: nat, r: Range)
    requires x.rin > 0 && Within(a, r) && Within(b, r)
    ensures forall i :: 0 <= i < |Taps(x, a, b, dx)| ==> Within(Taps(x, a, b, dx)[i], r)
    decreases if dx < x.rout then x.rout - dx else 0
  {
    hide Within, Tap;
    if dx < x.rout {
      var (out, a', b') := Tap(x, a, b, dx);
      TapWithin(x, a, b, dx, r);
      TapsWithin(x, a', b', dx + x.rin, r);
    }
  }

  lemma {:induction false} TapsLeft(x: Axis, a: Pixel, b: Pixel, dx: nat, i: nat)
    requires x.rin > 0
    requires var d := dx + i * x.rin; d < x.rout && d <= x.bp0 && d as int <= x.rout - x.bp0
    ensures i < |Taps(x, a, b, dx)| && Taps(x, a, b, dx)[i] == a
    decreases i
  {
    assert i * x.rin >= 0;
    if i > 0 {
      assert (i - 1) * x.rin + x.rin == i * x.rin;
      assert (i - 1) * x.rin >= 0;
      TapsLeft(x, a, b, dx + x.rin, i - 1);
    }
  }

  /** Outputs near the left edge of their column are the column's own pixel, untouched by the
      blending; so is every output at offset 0. */
  lemma LeftIsSource(x: Axis, a: Pixel, b: Pixel, dx: nat)
    requires x.rin > 0 && dx < x.rout && dx <= x.bp0 && dx as int <= x.rout - x.bp0
    ensures At(x, a, b, dx) == a
  {
    TapsLength(x, a, b, dx % x.rin, dx / x.rin);
    TapsLeft(x, a, b, dx % x.rin, dx / x.rin);
  }

  /** The bounds GFX_getAAScaler sets leave offset 0 to the source pixel. */
  lemma BoundsFit(src: nat, dst: nat, shrinking: bool)
    requires src > 0 && dst > 0
    ensures var x := MakeAxis(src, dst, shrinking); x.rout > 0 && x.bp0 <= x.rout
  {
    AxisFits(src, dst, shrinking);
  }

  // ---- one output row ----

  /** The accumulator after a column: it has grown by rin per output and drops by rout. */
  function After(x: Axis, taps: seq<Pixel>, dx: nat): nat {
    var d := dx + |taps| * x.rin - x.rout;
    if d < 0 then 0 else d
  }

  /** The outputs of columns c and up; the first starts at offset dx. */
  function RowFrom(x: Axis, line: seq<Pixel>, c: nat, dx: nat): seq<Pixel>
    requires x.rin > 0 && c < |line|
    decreases |line| - c
  {
    if c + 1 == |line| then []
    else
      var taps := Taps(x, line[c], line[c + 1], dx);
      taps + RowFrom(x, line, c + 1, After(x, taps, dx))
  }

  lemma AfterSmall(x: Axis, a: Pixel, b: Pixel, dx: nat)
    requires x.rin > 0 && dx < x.rin && x.rout > 0
    ensures var taps := Taps(x, a, b, dx);
            After(x, taps, dx) == dx + |taps| * x.rin - x.rout < x.rin
  {
    var n := |Taps(x, a, b, dx)|;
    TapsLength(x, a, b, dx, n);
    if n > 0 {
      TapsLength(x, a, b, dx, n - 1);
      assert (n - 1) * x.rin + x.rin == n * x.rin;
    }
  }

  lemma Advance(x: Axis, c: nat, dx: nat, k: nat, n: nat)
    requires k * x.rin == c * x.rout + dx
    ensures (k + n) * x.rin == (c + 1) * x.rout + (dx + n * x.rin - x.rout)
  {
  }

  lemma InCell(x: Axis, c: nat, dx: nat, k: nat, i: nat)
    requires x.rin > 0 && x.rout > 0 && dx < x.rin && k * x.rin == c * x.rout + dx && dx + i * x.rin < x.rout
    ensures Cell(x, k + i) == c && Offset(x, k + i) == dx + i * x.rin
    ensures Offset(x, k + i) / x.rin == i && Offset(x, k + i) % x.rin == dx
  {
    var o := dx + i * x.rin;
    assert (k + i) * x.rin == c * x.rout + o;
    DivUnique((k + i) * x.rin, x.rout, c);
    DivUnique(o, x.rin, i);
  }

  /** Output k + i of a row whose column c starts at output k: it lies in column Cell(k + i), at
      offset Offset(k + i). */
  lemma {:induction false} RowFromAt(x: Axis, line: seq<Pixel>, c: nat, dx: nat, k: nat, i: nat)
    requires x.rin > 0 && x.rout > 0 && c < |line| && dx < x.rin && k * x.rin == c * x.rout + dx
    requires i < |RowFrom(x, line, c, dx)|
    ensures var c' := Cell(x, k + i);
            c' + 1 < |line| && RowFrom(x, line, c, dx)[i] == At(x, line[c'], line[c' + 1], Offset(x, k + i))
    decreases |line| - c
  {
    var a, b := line[c], line[c + 1];
    var taps := Taps(x, a, b, dx);
    AfterSmall(x, a, b, dx);
    var n := |taps|;
    if i < n {
      TapsLength(x, a, b, dx, i);
      InCell(x, c, dx, k, i);
    } else {
      Advance(x, c, dx, k, n);
      hide Taps, At, Cell, Offset;
      RowFromAt(x, line, c + 1, After(x, taps, dx), k + n, i - n);
    }
  }

  /** At the far edge the outputs are used up exactly and the accumulator is zero. */
  lemma EndsAt(x: Axis, w: nat, dst: nat, k: nat, dx: nat)
    requires Fits(x, w, dst) && dx < x.rin && k * x.rin == w * x.rout + dx
    ensures k == dst && dx == 0
  {
    assert w * x.rout == x.rin * dst;
    if k <= dst {
      MulLe(k, dst, x.rin);
    } else {
      MulLe(dst + 1, k, x.rin);
    }
    if k < dst { MulLt(k, dst, x.rin); }
  }

  /** A row over w columns has exactly dst outputs and its accumulator ends at zero. */
  lemma {:induction false} RowFromLength(x: Axis, line: seq<Pixel>, c: nat, dx: nat, k: nat, dst: nat)
    requires x.rin > 0 && x.rout > 0 && c < |line| && dx < x.rin && k * x.rin == c * x.rout + dx
    requires Fits(x, |line| - 1, dst)
    ensures k + |RowFrom(x, line, c, dx)| == dst
    decreases |line| - c
  {
    hide Taps;
    if c + 1 == |line| {
      EndsAt(x, c, dst, k, dx);
    } else {
      var taps := Taps(x, line[c], line[c + 1], dx);
      AfterSmall(x, line[c], line[c + 1], dx);
      Advance(x, c, dx, k, |taps|);
      RowFromLength(x, line, c + 1, After(x, taps, dx), k + |taps|, dst);
    }
  }

  function Row(x: Axis, line: seq<Pixel>): seq<Pixel>
    requires x.rin > 0 && |line| > 0
  {
    RowFrom(x, line, 0, 0)
  }

  /** A whole row: dst outputs, output k from column Source(w, dst, k) and its successor. */
  lemma RowExact(x: Axis, line: seq<Pixel>, dst: nat, k: nat)
    requires |line| > 0 && Fits(x, |line| - 1, dst)
    ensures |Row(x, line)| == dst
    ensures k < dst ==>
              var c := Source(|line| - 1, dst, k);
              c + 1 < |line| && Row(x, line)[k] == At(x, line[c], line[c + 1], Offset(x, k))
  {
    RowFromLength(x, line, 0, 0, 0, dst);
    if k < dst {
      RowFromAt(x, line, 0, 0, 0, k);
      CellIsFloor(x, |line| - 1, dst, k);
    }
  }

  // ---- rows in between: blending two source rows ----

  /** AVERAGE32_1_3 on one pixel: a quarter of a and three quarters of b. */
  function Quarter(a: Pixel, b: Pixel): Pixel {
    if a == b then a else Avg(Avg(a, b), b)
  }

  function Half(a: Pixel, b: Pixel): Pixel {
    if a == b then a else Avg(a, b)
  }

  /** The pixel between the row above and the row below at vertical offset dy. */
  function Mix(x: Axis, above: Pixel, below: Pixel, dy: nat): Pixel {
    if dy as int > x.rout - x.bp0 then below
    else if dy <= x.bp0 then above
    else if dy <= x.bp1 then Quarter(below, above)
    else if dy as int > x.rout - x.bp1 then Quarter(above, below)
    else Half(above, below)
  }

  /** An output that falls exactly on a source pixel shows that pixel. */
  lemma AlignedIsSource(h: Axis, w: Axis, p00: Pixel, p01: Pixel, p10: Pixel, p11: Pixel)
    requires w.rin > 0 && w.rout > 0 && w.bp0 <= w.rout && h.bp0 <= h.rout
    ensures At(w, Mix(h, p00, p10, 0), Mix(h, p01, p11, 0), 0) == p00
  {
    LeftIsSource(w, Mix(h, p00, p10, 0), Mix(h, p01, p11, 0), 0);
  }

  lemma MixWithin(x: Axis, above: Pixel, below: Pixel, dy: nat, r: Range)
    requires Within(above, r) && Within(below, r)
    ensures Within(Mix(x, above, below, dy), r)
  {
    AverageWithin(above, below, r);
    AverageWithin(below, above, r);
    hide Within, Average16;
    AverageWithin(Avg(above, below), below, r);
    AverageWithin(Avg(below, above), above, r);
  }

  lemma AtWithin(x: Axis, a: Pixel, b: Pixel, dx: nat, r: Range)
    requires x.rin > 0 && dx < x.rout && Within(a, r) && Within(b, r)
    ensures Within(At(x, a, b, dx), r)
  {
    hide Within, Taps;
    TapsLength(x, a, b, dx % x.rin, dx / x.rin);
    TapsWithin(x, a, b, dx % x.rin, r);
  }

  /** Every channel of the output at offset dx between two blended pixels stays within the
      range of that channel over the four source pixels. */
  lemma OutputWithin(h: Axis, w: Axis, p00: Pixel, p01: Pixel, p10: Pixel, p11: Pixel, dy: nat, dx: nat, r: Range)
    requires w.rin > 0 && dx < w.rout
    requires Within(p00, r) && Within(p01, r) && Within(p10, r) && Within(p11, r)
    ensures Within(At(w, Mix(h, p00, p10, dy), Mix(h, p01, p11, dy), dx), r)
  {
    hide *;
    MixWithin(h, p00, p10, dy, r);
    MixWithin(h, p01, p11, dy, r);
    AtWithin(w, Mix(h, p00, p10, dy), Mix(h, p01, p11, dy), dx, r);
  }

  lemma {:induction false} TapsOfOne(x: Axis, p: Pixel, dx: nat)
    requires x.rin > 0
    ensures forall i :: 0 <= i < |Taps(x, p, p, dx)| ==> Taps(x, p, p, dx)[i] == p
    decreases if dx < x.rout then x.rout - dx else 0
  {
    if dx < x.rout { TapsOfOne(x, p, dx + x.rin); }
  }

  /** In particular a uniform region keeps its colour. */
  lemma UniformStaysUniform(h: Axis, w: Axis, p: Pixel, dy: nat, dx: nat)
    requires w.rin > 0 && dx < w.rout
    ensures At(w, Mix(h, p, p, dy), Mix(h, p, p, dy), dx) == p
  {
    TapsLength(w, p, p, dx % w.rin, dx / w.rin);
    TapsOfOne(w, p, dx % w.rin);
  }
}
