/** How the anti-aliasing scaler blends, told channel by channel with rounded-up means and
    without the variables the code overwrites on its way along a column. */
module AABlend {
  import opened Arith
  import opened Pixels
  import opened Rows
  import opened AASpec

  // ---- the bounds ----

  /** The first bound is the integer nearest to a fifth of the target size where the width
      shrinks, and to two fifths where it does not. */
  lemma BoundIsNearest(n: nat, shrinking: bool)
    ensures var b := BlendBound(n, shrinking);
            var exact := if shrinking then n else 2 * n; // in fifths
            5 * b - 2 <= exact <= 5 * b + 2
  {
  }

  /** The bounds cut a column into zones that lie in order: both halves are equally long, and no
      zone of a plain pixel reaches beyond its half. */
  ghost predicate Zoned(x: Axis) {
    x.rin > 0 && x.bp1 == x.rout / 2 && 2 * x.bp0 <= x.rout
  }

  lemma AxisZoned(src: nat, dst: nat, shrinking: bool)
    requires src > 0 && dst > 0
    ensures Zoned(MakeAxis(src, dst, shrinking))
  {
    AxisFits(src, dst, shrinking);
    var n := MakeAxis(src, dst, shrinking).rout;
    BoundIsNearest(n, shrinking);
    hide Gcd, BlendBound;
  }

  // ---- moving halfway, again and again ----

  /** A channel that starts at far and is n times replaced by its mean with near. */
  function Toward(near: bv32, far: bv32, n: nat): bv32 {
    if n == 0 then far else Mean(near, Toward(near, far, n - 1))
  }

  /** The same on whole pixels. */
  function TowardPixel(near: Pixel, far: Pixel, n: nat): Pixel {
    if n == 0 then far else Avg(near, TowardPixel(near, far, n - 1))
  }

  datatype Hue = OfRed | OfGreen | OfBlue

  function Level(h: Hue, p: Pixel): bv32 {
    match h
    case OfRed => Red(p)
    case OfGreen => Green(p)
    case OfBlue => Blue(p)
  }

  lemma AvgLevel(h: Hue, a: Pixel, b: Pixel)
    ensures Level(h, Avg(a, b)) == Mean(Level(h, a), Level(h, b))
  {
    hide Red, Green, Blue, Mean, Average16;
    Average16IsMean(a, b);
  }

  lemma {:induction false} TowardLevel(h: Hue, near: Pixel, far: Pixel, n: nat)
    ensures Level(h, TowardPixel(near, far, n)) == Toward(Level(h, near), Level(h, far), n)
  {
    hide Level, Mean, Average16;
    if n > 0 {
      TowardLevel(h, near, far, n - 1);
      AvgLevel(h, near, TowardPixel(near, far, n - 1));
    }
  }

  lemma AvgCommutes(a: Pixel, b: Pixel)
    ensures Avg(a, b) == Avg(b, a)
  {
  }

  lemma AvgSelf(a: Pixel)
    ensures Avg(a, a) == a
  {
    hide Average16;
    AverageSelf(a);
  }

  // ---- what the code leaves in its variables ----

  /** How many outputs of the column before the one at offset dx lie in (lo, hi]. */
  function Before(rin: nat, dx: nat, lo: int, hi: int): nat
    requires rin > 0
    decreases dx
  {
    if dx < rin then 0 else (if lo < dx - rin <= hi then 1 else 0) + Before(rin, dx - rin, lo, hi)
  }

  lemma {:induction false} NoneBefore(rin: nat, dx: nat, lo: int, hi: int)
    requires rin > 0 && dx - rin <= lo
    ensures Before(rin, dx, lo, hi) == 0
    decreases dx
  {
    if dx >= rin { NoneBefore(rin, dx - rin, lo, hi); }
  }

  /** Earlier outputs that leaned left, and that leaned right. */
  function Lefts(x: Axis, dx: nat): nat
    requires x.rin > 0
  {
    Before(x.rin, dx, x.bp0, x.bp1)
  }

  function Rights(x: Axis, dx: nat): nat
    requires x.rin > 0
  {
    Before(x.rin, dx, x.rout - x.bp1, x.rout - x.bp0)
  }

  /** The code's a and b when it has emitted i outputs of a column that starts at offset d. */
  function Vars(x: Axis, a: Pixel, b: Pixel, d: nat, i: nat): (Pixel, Pixel)
    requires x.rin > 0
    decreases i
  {
    if i == 0 then (a, b) else var (_, a', b') := Tap(x, a, b, d); Vars(x, a', b', d + x.rin, i - 1)
  }

  lemma {:induction false} TapsAre(x: Axis, a: Pixel, b: Pixel, d: nat, i: nat)
    requires x.rin > 0 && i < |Taps(x, a, b, d)|
    ensures var (a', b') := Vars(x, a, b, d, i); Taps(x, a, b, d)[i] == Tap(x, a', b', d + i * x.rin).0
    decreases i
  {
    hide Tap;
    if i > 0 {
      var (_, a', b') := Tap(x, a, b, d);
      TapsAre(x, a', b', d + x.rin, i - 1);
      assert d + x.rin + (i - 1) * x.rin == d + i * x.rin;
    }
  }

  lemma {:induction false} VarsNext(x: Axis, a: Pixel, b: Pixel, d: nat, i: nat)
    requires x.rin > 0
    ensures var (a', b') := Vars(x, a, b, d, i);
            var (_, a'', b'') := Tap(x, a', b', d + i * x.rin);
            Vars(x, a, b, d, i + 1) == (a'', b'')
    decreases i
  {
    hide Tap;
    if i > 0 {
      var (_, a', b') := Tap(x, a, b, d);
      VarsNext(x, a', b', d + x.rin, i - 1);
      assert d + x.rin + (i - 1) * x.rin == d + i * x.rin;
    }
  }

  /** b has moved toward the left pixel once for each output that leaned left, and a toward that
      once for each that leaned right. */
  ghost predicate Leaves(x: Axis, a: Pixel, b: Pixel, dx: nat, v: (Pixel, Pixel))
    requires x.rin > 0
  {
    v.1 == TowardPixel(a, b, Lefts(x, dx)) && v.0 == TowardPixel(v.1, a, Rights(x, dx))
  }

  predicate LeansLeft(x: Axis, dx: nat) { x.bp0 < dx <= x.bp1 }

  predicate LeansRight(x: Axis, dx: nat) { x.rout - x.bp1 < dx <= x.rout - x.bp0 }

  lemma TapLeaves(x: Axis, a: Pixel, b: Pixel, dx: nat)
    requires Zoned(x)
    ensures var (_, a', b') := Tap(x, a, b, dx);
            && a' == (if LeansRight(x, dx) then Avg(b, a) else a)
            && b' == (if LeansLeft(x, dx) then Avg(a, b) else b)
  {
    AvgCommutes(a, b);
    AvgSelf(a);
    hide Average16;
  }

  lemma LeftsNext(x: Axis, dx: nat)
    requires x.rin > 0
    ensures Lefts(x, dx + x.rin) == Lefts(x, dx) + if LeansLeft(x, dx) then 1 else 0
    ensures Rights(x, dx + x.rin) == Rights(x, dx) + if LeansRight(x, dx) then 1 else 0
  {
  }

  /** An output leans right only after all that lean left. */
  lemma LeftsComeFirst(x: Axis, dx: nat)
    requires Zoned(x) && dx <= x.rout - x.bp1
    ensures Rights(x, dx) == 0 && !LeansRight(x, dx)
    ensures LeansLeft(x, dx) ==> dx <= x.rout - x.bp1
  {
    NoneBefore(x.rin, dx, x.rout - x.bp1, x.rout - x.bp0);
  }

  lemma TowardNext(near: Pixel, far: Pixel, n: nat)
    ensures TowardPixel(near, far, 0) == far
    ensures TowardPixel(near, far, n + 1) == Avg(near, TowardPixel(near, far, n))
  {
    hide Average16;
  }

  lemma StepLeaves(x: Axis, a: Pixel, b: Pixel, dx: nat, v: (Pixel, Pixel))
    requires Zoned(x) && Leaves(x, a, b, dx, v)
    ensures var t := Tap(x, v.0, v.1, dx); Leaves(x, a, b, dx + x.rin, (t.1, t.2))
  {
    hide Average16, TowardPixel, Tap, Before, Lefts, Rights;
    TapLeaves(x, v.0, v.1, dx);
    LeftsNext(x, dx);
    TowardNext(a, b, Lefts(x, dx));
    TowardNext(v.1, a, Rights(x, dx));
    if LeansLeft(x, dx) {
      LeftsComeFirst(x, dx);
      TowardNext(Avg(a, v.1), a, 0);
    }
  }

  lemma {:induction false} VarsLeave(x: Axis, a: Pixel, b: Pixel, d: nat, i: nat)
    requires Zoned(x) && d < x.rin
    ensures Leaves(x, a, b, d + i * x.rin, Vars(x, a, b, d, i))
    decreases i
  {
    hide Tap, Average16, LeansLeft, LeansRight;
    if i > 0 {
      var dx := d + (i - 1) * x.rin;
      VarsLeave(x, a, b, d, i - 1);
      VarsNext(x, a, b, d, i - 1);
      hide Vars, Leaves;
      StepLeaves(x, a, b, dx, Vars(x, a, b, d, i - 1));
      assert dx + x.rin == d + i * x.rin;
    }
  }

  lemma Steps(dx: nat, rin: nat)
    requires rin > 0
    ensures dx % rin + dx / rin * rin == dx && dx % rin < rin
  {
  }

  lemma AtIs(x: Axis, a: Pixel, b: Pixel, dx: nat)
    requires x.rin > 0 && dx < x.rout
    ensures var d, i := dx % x.rin, dx / x.rin;
            i < |Taps(x, a, b, d)| && At(x, a, b, dx) == Taps(x, a, b, d)[i]
  {
    TapsLength(x, a, b, dx % x.rin, dx / x.rin);
    hide Taps;
  }

  lemma AtIsTap(x: Axis, a: Pixel, b: Pixel, dx: nat) returns (v: (Pixel, Pixel))
    requires Zoned(x) && dx < x.rout
    ensures Leaves(x, a, b, dx, v) && At(x, a, b, dx) == Tap(x, v.0, v.1, dx).0
  {
    hide Taps, Tap, Vars, Leaves, At;
    var d, i := dx % x.rin, dx / x.rin;
    v := Vars(x, a, b, d, i);
    Steps(dx, x.rin);
    AtIs(x, a, b, dx);
    TapsAre(x, a, b, d, i);
    VarsLeave(x, a, b, d, i);
  }

  /** What a tap shows of its two variables. */
  lemma TapShows(x: Axis, a: Pixel, b: Pixel, dx: nat)
    requires Zoned(x)
    ensures var (out, a', b') := Tap(x, a, b, dx);
            out == if dx <= x.bp0 then a else if dx <= x.rout - x.bp0 then Avg(b', a') else b
  {
    AvgCommutes(a, b);
    AvgSelf(a);
    hide Average16;
    var (_, a', b') := Tap(x, a, b, dx);
    AvgCommutes(a', b');
  }

  // ---- channel by channel ----

  /** One channel of the output at offset dx of a column between the channels left and right. Up
      to the first bound it is the left one. Every output that leans left has moved the right
      channel halfway to the left one, every output that leans right has moved the left channel
      halfway to what the right one is then; past the far bound that is all there is to see. */
  function Shade(x: Axis, dx: nat, left: bv32, right: bv32): bv32
    requires x.rin > 0
  {
    var right' := Toward(left, right, Lefts(x, dx));
    if dx <= x.bp0 then left
    else if dx <= x.bp1 then Toward(left, right, Lefts(x, dx) + 2)
    else if dx <= x.rout - x.bp1 then Toward(left, right, Lefts(x, dx) + 1)
    else if dx <= x.rout - x.bp0 then Toward(right', left, Rights(x, dx) + 2)
    else right'
  }

  /** The same on whole pixels. */
  function ShadePixel(x: Axis, dx: nat, a: Pixel, b: Pixel): Pixel
    requires x.rin > 0
  {
    var b' := TowardPixel(a, b, Lefts(x, dx));
    if dx <= x.bp0 then a
    else if dx <= x.bp1 then TowardPixel(a, b, Lefts(x, dx) + 2)
    else if dx <= x.rout - x.bp1 then TowardPixel(a, b, Lefts(x, dx) + 1)
    else if dx <= x.rout - x.bp0 then TowardPixel(b', a, Rights(x, dx) + 2)
    else b'
  }

  lemma PixelShaded(h: Hue, x: Axis, dx: nat, a: Pixel, b: Pixel)
    requires x.rin > 0
    ensures Level(h, ShadePixel(x, dx, a, b)) == Shade(x, dx, Level(h, a), Level(h, b))
  {
    hide Level, Toward, TowardPixel, Lefts, Rights;
    TowardLevel(h, a, b, Lefts(x, dx));
    TowardLevel(h, a, b, Lefts(x, dx) + 1);
    TowardLevel(h, a, b, Lefts(x, dx) + 2);
    TowardLevel(h, TowardPixel(a, b, Lefts(x, dx)), a, Rights(x, dx) + 2);
  }

  /** A left-leaning or middle output, and one that leans right, from the variables before it. */
  lemma BlendOf(x: Axis, a: Pixel, b: Pixel, dx: nat, v: (Pixel, Pixel))
    requires Zoned(x) && Leaves(x, a, b, dx, v)
    ensures dx <= x.rout - x.bp1 ==> v.0 == a
    ensures Avg(a, v.1) == TowardPixel(a, b, Lefts(x, dx) + 1)
    ensures Avg(a, Avg(a, v.1)) == TowardPixel(a, b, Lefts(x, dx) + 2)
    ensures Avg(v.1, Avg(v.1, v.0)) == TowardPixel(v.1, a, Rights(x, dx) + 2)
  {
    hide Average16, TowardPixel, Lefts, Rights;
    if dx <= x.rout - x.bp1 { LeftsComeFirst(x, dx); }
    TowardNext(v.1, a, 0);
    TowardNext(a, b, Lefts(x, dx));
    TowardNext(a, b, Lefts(x, dx) + 1);
    TowardNext(v.1, a, Rights(x, dx));
    TowardNext(v.1, a, Rights(x, dx) + 1);
  }

  /** Every output of a column. */
  lemma OutputPixel(x: Axis, a: Pixel, b: Pixel, dx: nat)
    requires Zoned(x) && dx < x.rout
    ensures At(x, a, b, dx) == ShadePixel(x, dx, a, b)
  {
    var v := AtIsTap(x, a, b, dx);
    TapShows(x, v.0, v.1, dx);
    TapLeaves(x, v.0, v.1, dx);
    BlendOf(x, a, b, dx, v);
    hide Average16, TowardPixel, Tap, At, Lefts, Rights;
    AvgCommutes(a, v.1);
    AvgCommutes(a, Avg(a, v.1));
  }

  lemma OutputShaded(h: Hue, x: Axis, a: Pixel, b: Pixel, dx: nat)
    requires Zoned(x) && dx < x.rout
    ensures Level(h, At(x, a, b, dx)) == Shade(x, dx, Level(h, a), Level(h, b))
  {
    hide Level, At, Shade, ShadePixel;
    OutputPixel(x, a, b, dx);
    PixelShaded(h, x, dx, a, b);
  }

  lemma TowardTwice(near: bv32, far: bv32)
    ensures Toward(near, far, 0) == far && Toward(near, far, 1) == Mean(near, far)
    ensures Toward(near, far, 2) == Mean(near, Mean(near, far))
  {
    hide Mean;
    assert Toward(near, far, 1) == Mean(near, far);
  }

  /** What the first blended output of a column shows: in the middle the mean of the two pixels,
      to the left and to the right of it the mean of that mean and the nearer pixel. */
  lemma FirstBlendShades(x: Axis, dx: nat, left: bv32, right: bv32)
    requires Zoned(x) && x.bp0 < dx && dx - x.rin <= x.bp0
    ensures LeansLeft(x, dx) ==> Shade(x, dx, left, right) == Mean(left, Mean(left, right))
    ensures x.bp1 < dx <= x.rout - x.bp1 ==> Shade(x, dx, left, right) == Mean(left, right)
    ensures LeansRight(x, dx) ==> Shade(x, dx, left, right) == Mean(right, Mean(right, left))
    ensures dx > x.rout - x.bp0 ==> Shade(x, dx, left, right) == right
  {
    hide Mean, Toward, Before;
    TowardTwice(left, right);
    TowardTwice(right, left);
    NoneBefore(x.rin, dx, x.bp0, x.bp1);
    NoneBefore(x.rin, dx, x.rout - x.bp1, x.rout - x.bp0);
  }

  predicate Channel(c: bv32) { c <= 0x3F }

  /** The mean of p and q is q. */
  predicate Fixed(p: bv32, q: bv32) { p == q || p + 1 == q }

  predicate Under(p: bv32, q: bv32) { p < q }

  /** t is where q was, if p leaves it there, and otherwise nearer to p. */
  predicate Nearer(p: bv32, q: bv32, t: bv32) {
    Channel(t) && if Fixed(p, q) then t == q else if Under(p, q) then Under(t, q) else Under(q, t)
  }

  lemma NearerStays(p: bv32, q: bv32, t: bv32)
    requires Nearer(p, q, t)
    ensures t == q <==> p == q || p + 1 == q
  {
  }

  lemma MeanStays(p: bv32, t: bv32)
    requires Channel(p) && Channel(t)
    ensures Channel(Mean(p, t)) && (Fixed(p, t) ==> Mean(p, t) == t)
  {
  }

  lemma MeanFalls(p: bv32, q: bv32, t: bv32)
    requires Channel(p) && Channel(q) && Channel(t) && !Fixed(p, q) && Under(p, q) && (t == q || Under(t, q))
    ensures Under(Mean(p, t), q)
  {
  }

  lemma MeanRises(p: bv32, q: bv32, t: bv32)
    requires Channel(p) && Channel(q) && Channel(t) && !Fixed(p, q) && !Under(p, q) && (t == q || Under(q, t))
    ensures Under(q, Mean(p, t))
  {
  }

  lemma MeanNearer(p: bv32, q: bv32, t: bv32)
    requires Channel(p) && Channel(q) && (t == q || Nearer(p, q, t))
    ensures Nearer(p, q, Mean(p, t))
  {
    hide Mean, Channel, Fixed, Under;
    MeanStays(p, t);
    if Fixed(p, q) {
    } else if Under(p, q) {
      MeanFalls(p, q, t);
    } else {
      MeanRises(p, q, t);
    }
  }

  /** A channel that a mean has moved never comes back to where it was. */
  lemma {:induction false} TowardMoves(p: bv32, q: bv32, n: nat)
    requires Channel(p) && Channel(q) && n > 0
    ensures Nearer(p, q, Toward(p, q, n))
  {
    hide Mean, Channel, Nearer;
    var t := Toward(p, q, n - 1);
    if n > 1 { TowardMoves(p, q, n - 1); }
    MeanNearer(p, q, t);
  }

  /** Past the far bound the output is the right pixel exactly when no output of its column has
      leaned left before, or each channel is one that rounding leaves in place. */
  lemma FarShowsRightIff(x: Axis, dx: nat, left: bv32, right: bv32)
    requires Zoned(x) && dx > x.rout - x.bp0 && Channel(left) && Channel(right)
    ensures Shade(x, dx, left, right) == right <==>
            Lefts(x, dx) == 0 || left == right || left + 1 == right
  {
    var n := Lefts(x, dx);
    assert Shade(x, dx, left, right) == Toward(left, right, n) by { hide Toward, Lefts, Rights, Channel; }
    TowardTwice(left, right);
    hide *;
    if n > 0 {
      TowardMoves(left, right, n);
      NearerStays(left, right, Toward(left, right, n));
    }
  }

  // ---- from row to row ----

  /** One channel between the row above and the row below: every target row starts afresh. */
  function RowShade(x: Axis, dy: nat, above: bv32, below: bv32): bv32 {
    if dy <= x.bp0 then above
    else if dy <= x.bp1 then Mean(above, Mean(above, below))
    else if dy <= x.rout - x.bp1 then Mean(above, below)
    else if dy <= x.rout - x.bp0 then Mean(below, Mean(below, above))
    else below
  }

  /** What Mix shows, without its tests for equal pixels. */
  lemma MixShows(x: Axis, above: Pixel, below: Pixel, dy: nat)
    requires Zoned(x)
    ensures Mix(x, above, below, dy) ==
            if dy <= x.bp0 then above
            else if dy <= x.bp1 then Avg(above, Avg(above, below))
            else if dy <= x.rout - x.bp1 then Avg(above, below)
            else if dy <= x.rout - x.bp0 then Avg(below, Avg(below, above))
            else below
  {
    AvgSelf(above);
    AvgCommutes(above, below);
    AvgCommutes(Avg(above, below), above);
    AvgCommutes(Avg(above, below), below);
    hide Average16;
  }

  lemma RowShaded(h: Hue, x: Axis, above: Pixel, below: Pixel, dy: nat)
    requires Zoned(x)
    ensures Level(h, Mix(x, above, below, dy)) == RowShade(x, dy, Level(h, above), Level(h, below))
  {
    hide Level, Mean, Average16, Mix;
    MixShows(x, above, below, dy);
    AvgLevel(h, above, below);
    AvgLevel(h, below, above);
    AvgLevel(h, above, Avg(above, below));
    AvgLevel(h, below, Avg(below, above));
  }

  // ---- two ratios ----

  lemma Axis240To360()
    ensures MakeAxis(240, 360, false) == Axis(2, 3, 1, 1)
  {
    assert Gcd(240, 360) == Gcd(360, 240) == Gcd(240, 120) == Gcd(120, 0) == 120;
  }

  lemma Axis30To240()
    ensures MakeAxis(30, 240, false) == Axis(1, 8, 3, 4)
  {
    assert Gcd(30, 240) == Gcd(240, 30) == Gcd(30, 0) == 30;
  }

  /** From 240 to 360 columns, between a black and a white pixel, the second output is grey. */
  lemma GreyBetween()
    ensures At(MakeAxis(240, 360, false), 0, 0xFFFF, Offset(MakeAxis(240, 360, false), 1)) == 0x8410
  {
    Axis240To360();
    var x := Axis(2, 3, 1, 1);
    hide Gcd, MakeAxis;
    OutputPixel(x, 0, 0xFFFF, 2);
    NoneBefore(2, 2, 1, 1);
    TowardNext(0, 0xFFFF, 0);
    hide At, TowardPixel;
  }

  /** From 30 to 240 columns the output at offset 6 lies past the far bound, and yet it shows
      grey: the output at offset 4 has left its blend in the place of the right pixel. */
  lemma FarShowsBlend()
    ensures var x := MakeAxis(30, 240, false); 6 > x.rout - x.bp0 && At(x, 0, 0xFFFF, 6) == 0x8410
  {
    Axis30To240();
    var x := Axis(1, 8, 3, 4);
    hide Gcd, MakeAxis;
    OutputPixel(x, 0, 0xFFFF, 6);
    assert Lefts(x, 6) == 1 by {
      NoneBefore(1, 4, 3, 4);
      assert Before(1, 5, 3, 4) == 1;
    }
    TowardNext(0, 0xFFFF, 0);
    hide At, TowardPixel;
  }
}
