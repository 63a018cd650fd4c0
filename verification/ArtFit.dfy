/** Lodor_artFit of minui.c: bring a decoded surface to the size of its slot. */
module ArtFit {
  import opened Arith
  import opened Rows
  import opened FixedWalk
  import IntScaler

  datatype Plan = Keep | Resize(tw: nat, th: nat)

  function AtLeastOne(n: nat): nat { if n < 1 then 1 else n }

  /** a * b / c in the 64-bit arithmetic of the source. */
  function Ratio(a: nat, b: nat, c: nat): nat
    requires c > 0
  {
    a * b / c
  }

  lemma RatioBound(a: nat, b: nat, c: nat, q: nat)
    requires c > 0
    ensures q <= Ratio(a, b, c) <==> q * c <= a * b
  {
    DivBound(a * b, c, q);
  }

  /** The scaler's factors stop at 6. */
  function Factor(w: nat, h: nat, maxW: nat, maxH: nat): nat
    requires w > 0 && h > 0
  {
    Min(Min(maxW / w, maxH / h), 6)
  }

  /** The size arithmetic, including the early returns. */
  function FitPlan(w: nat, h: nat, maxW: nat, maxH: nat, grow: bool): Plan {
    if w == 0 || h == 0 || maxW == 0 || maxH == 0 then Keep
    else if w > maxW || h > maxH then
      if Ratio(h, maxW, w) > maxH then Resize(AtLeastOne(Ratio(w, maxH, h)), AtLeastOne(maxH))
      else Resize(AtLeastOne(maxW), AtLeastOne(Ratio(h, maxW, w)))
    else if grow && w * 2 <= maxW && h * 2 <= maxH then
      var k := Factor(w, h, maxW, maxH);
      if k >= 2 then Resize(w * k, h * k) else Keep
    else Keep
  }

  // ---- shrinking ----

  lemma TallProducts(w: nat, h: nat, maxW: nat, maxH: nat)
    requires w > 0 && h > 0 && (w > maxW || h > maxH) && (maxH + 1) * w <= h * maxW
    ensures maxH <= h && w * maxH < (w + 1) * h && w * maxH < (maxW + 1) * h
  {
    assert (maxH + 1) * w == w * maxH + w && (maxW + 1) * h == h * maxW + h && (w + 1) * h == h * w + h;
    if maxH > h {
      MulLe(h, maxH, maxW);
      MulLe(maxW, w, maxH);
    } else {
      MulLe(maxH, h, w);
    }
  }

  lemma TallFits(w: nat, h: nat, maxW: nat, maxH: nat)
    requires w > 0 && h > 0 && (w > maxW || h > maxH) && Ratio(h, maxW, w) > maxH
    ensures Ratio(w, maxH, h) <= maxW && maxH <= h && Ratio(w, maxH, h) <= w
  {
    RatioBound(h, maxW, w, maxH + 1);
    RatioBound(w, maxH, h, maxW + 1);
    RatioBound(w, maxH, h, w + 1);
    hide Ratio;
    TallProducts(w, h, maxW, maxH);
  }

  lemma WideFits(w: nat, h: nat, maxW: nat, maxH: nat)
    requires w > 0 && h > 0 && (w > maxW || h > maxH) && Ratio(h, maxW, w) <= maxH
    ensures maxW <= w && Ratio(h, maxW, w) <= h
  {
    RatioBound(h, maxW, w, maxH + 1);
    RatioBound(h, maxW, w, h + 1);
    hide Ratio;
    if maxW > w {
      MulLe(w, maxW, h);
      MulLe(maxH + 1, h, w);
    } else {
      MulLe(maxW, w, h);
    }
  }

  // ---- growing ----

  /** An integer upscale: the same factor both ways, the largest up to 6 that fits. */
  predicate IsUpscale(w: nat, h: nat, maxW: nat, maxH: nat, p: Plan, k: nat) {
    && p == Resize(w * k, h * k) && 2 <= k <= 6 && w * k <= maxW && h * k <= maxH
    && (k < 6 ==> w * (k + 1) > maxW || h * (k + 1) > maxH)
  }

  lemma QuotientBound(a: nat, n: nat, k: nat)
    requires n > 0
    ensures k <= a / n <==> n * k <= a
  {
    DivBound(a, n, k);
    assert n * k == k * n;
  }

  lemma FactorRange(w: nat, h: nat, maxW: nat, maxH: nat)
    requires w > 0 && h > 0 && w * 2 <= maxW && h * 2 <= maxH
    ensures var k := Factor(w, h, maxW, maxH);
            2 <= k <= 6 && k <= maxW / w && k <= maxH / h && (k < 6 ==> k == maxW / w || k == maxH / h)
  {
    QuotientBound(maxW, w, 2);
    QuotientBound(maxH, h, 2);
  }

  lemma MulDiv(n: nat, k: nat)
    requires n > 0
    ensures n * k / n == k && (k >= 2 ==> n * k > n)
  {
    assert n * k == k * n;
    DivUnique(n * k, n, k);
    if k >= 2 { MulLe(2, k, n); }
  }

  lemma FactorFits(w: nat, h: nat, maxW: nat, maxH: nat)
    requires w > 0 && h > 0 && w * 2 <= maxW && h * 2 <= maxH
    ensures var k := Factor(w, h, maxW, maxH);
            IsUpscale(w, h, maxW, maxH, Resize(w * k, h * k), k) && w * k > w && w * k / w == k && h * k / h == k
  {
    var k := Factor(w, h, maxW, maxH);
    FactorRange(w, h, maxW, maxH);
    hide Factor;
    QuotientBound(maxW, w, k);
    QuotientBound(maxH, h, k);
    QuotientBound(maxW, w, k + 1);
    QuotientBound(maxH, h, k + 1);
    MulDiv(w, k);
    MulDiv(h, k);
  }

  /** A result fits the slot. It is wider than the input exactly when it is an integer upscale,
      which only grow asks for and for which the scaler has a kernel; otherwise neither side
      grows. */
  lemma PlanFits(w: nat, h: nat, maxW: nat, maxH: nat, grow: bool)
    ensures var p := FitPlan(w, h, maxW, maxH, grow);
            p.Resize? ==>
              && 1 <= p.tw <= maxW && 1 <= p.th <= maxH && w > 0 && h > 0
              && (p.tw > w <==> exists k: nat :: IsUpscale(w, h, maxW, maxH, p, k))
              && (p.tw > w ==> grow && IsUpscale(w, h, maxW, maxH, p, p.tw / w) && p.tw / w == p.th / h)
              && (p.tw <= w ==> p.th <= h)
  {
    var p := FitPlan(w, h, maxW, maxH, grow);
    if p.Resize? {
      if w > maxW || h > maxH {
        if Ratio(h, maxW, w) > maxH { TallFits(w, h, maxW, maxH); } else { WideFits(w, h, maxW, maxH); }
        hide Ratio;
        forall k: nat | IsUpscale(w, h, maxW, maxH, p, k) ensures false { MulLe(1, k, w); MulLe(1, k, h); }
      } else {
        FactorFits(w, h, maxW, maxH);
        hide Factor, IsUpscale;
      }
    }
  }

  /** tw : th is w : h up to less than one pixel of the longer side. */
  predicate NearAspect(w: int, h: int, tw: int, th: int) {
    tw * h - th * w < Max(w, h) && th * w - tw * h < Max(w, h)
  }

  predicate ExactAspect(w: int, h: int, tw: int, th: int) { tw * h == th * w }

  lemma TallAspect(w: nat, h: nat, maxH: nat)
    requires h > 0
    ensures NearAspect(w, h, Ratio(w, maxH, h), maxH)
  {
    var q := w * maxH / h;
    assert q * h + w * maxH % h == w * maxH == maxH * w;
  }

  lemma WideAspect(w: nat, h: nat, maxW: nat)
    requires w > 0
    ensures NearAspect(w, h, maxW, Ratio(h, maxW, w))
  {
    var q := h * maxW / w;
    assert q * w + h * maxW % w == h * maxW == maxW * h;
  }

  lemma SameFactor(w: nat, h: nat, k: nat)
    ensures ExactAspect(w, h, w * k, h * k)
  {
    assert w * k * h == h * k * w;
  }

  /** A resized surface keeps its aspect: exactly when it grows, and otherwise it fills the slot
      along one side and the other side is off by less than one pixel, unless that side has
      vanished and counts as one. */
  lemma AspectKept(w: nat, h: nat, maxW: nat, maxH: nat, grow: bool)
    ensures var p := FitPlan(w, h, maxW, maxH, grow);
            p.Resize? ==>
              && (p.tw > w ==> ExactAspect(w, h, p.tw, p.th))
              && (p.tw <= w ==> p.tw == maxW || p.th == maxH)
              && (p.tw <= w && p.tw > 1 && p.th > 1 ==> NearAspect(w, h, p.tw, p.th))
  {
    hide NearAspect, ExactAspect, Ratio, Factor;
    if w > 0 && h > 0 && maxW > 0 && maxH > 0 {
      if w > maxW || h > maxH {
        if Ratio(h, maxW, w) > maxH {
          TallFits(w, h, maxW, maxH);
          TallAspect(w, h, maxH);
        } else {
          WideFits(w, h, maxW, maxH);
          WideAspect(w, h, maxW);
        }
      } else if w * 2 <= maxW && h * 2 <= maxH {
        FactorFits(w, h, maxW, maxH);
        SameFactor(w, h, Factor(w, h, maxW, maxH));
      }
    }
  }

  /** q is a / c rounded down, except that nothing vanishes. */
  predicate Floor(q: int, a: int, c: int) {
    q >= 1 && a < (q + 1) * c && (q * c <= a || q == 1)
  }

  lemma RatioFloors(a: nat, b: nat, c: nat)
    requires c > 0
    ensures Floor(AtLeastOne(Ratio(a, b, c)), a * b, c)
  {
    RatioBound(a, b, c, Ratio(a, b, c));
    RatioBound(a, b, c, Ratio(a, b, c) + 1);
    RatioBound(a, b, c, 2);
    hide Ratio;
  }

  /** The exact size of a shrunk surface: as wide as the slot unless that is too high by a whole
      pixel, and then as high as the slot; the other side follows from the aspect and never rounds
      up. */
  lemma ShrunkExactly(w: nat, h: nat, maxW: nat, maxH: nat, grow: bool)
    requires w > 0 && h > 0 && maxW > 0 && maxH > 0 && (w > maxW || h > maxH)
    ensures var p := FitPlan(w, h, maxW, maxH, grow);
            && p.Resize?
            && if h * maxW < (maxH + 1) * w then p.tw == maxW && Floor(p.th, h * maxW, w)
               else p.th == maxH && Floor(p.tw, w * maxH, h)
  {
    RatioBound(h, maxW, w, maxH + 1);
    RatioFloors(h, maxW, w);
    RatioFloors(w, maxH, h);
    hide Ratio, Floor;
  }

  /** It is kept exactly when it lacks an area or a slot, or lies within the slot and may not or
      cannot be doubled. */
  lemma KeptIff(w: nat, h: nat, maxW: nat, maxH: nat, grow: bool)
    ensures FitPlan(w, h, maxW, maxH, grow) == Keep <==>
      w == 0 || h == 0 || maxW == 0 || maxH == 0
      || (w <= maxW && h <= maxH && (!grow || w * 2 > maxW || h * 2 > maxH))
  {
    if w > 0 && h > 0 && w * 2 <= maxW && h * 2 <= maxH { FactorFits(w, h, maxW, maxH); }
    hide Ratio, Factor;
  }

  // ---- drawing ----

  /** What an upscaled or a shrunk surface shows. */
  ghost predicate Drawn(d: seq<Pixel>, s: seq<Pixel>, g: Grid, t: Grid)
    requires Holds(|s|, g) && Holds(|d|, t) && g.width > 0 && g.height > 0 && t.width > 0
  {
    if t.width > g.width then
      var k := t.width / g.width;
      k > 0 && t.height == g.height * k && IntScaler.Shows(d, s, g, t, k, k, t.height)
    else
      forall y :: 0 <= y < t.height ==> RowWalked(d, s, g, t, y)
  }

  lemma WalkedRow(d: seq<Pixel>, e: seq<Pixel>, s: seq<Pixel>, g: Grid, t: Grid, y: nat)
    requires Holds(|s|, g) && Holds(|d|, t) && g.width > 0 && g.height > 0 && y < t.height && t.width <= t.pitch
    requires t.width > 0 && Walk(g.height, t.height, y) < g.height
    requires Wrote(d, e, y * t.pitch, Walked(RowAt(s, g, Walk(g.height, t.height, y)), t.width))
    ensures |d| == |e| && RowWalked(e, s, g, t, y)
    ensures forall r :: 0 <= r < y && RowWalked(d, s, g, t, r) ==> RowWalked(e, s, g, t, r)
  {
    WroteRow(d, e, t, y, Walked(RowAt(s, g, Walk(g.height, t.height, y)), t.width));
    forall r | 0 <= r < y && RowWalked(d, s, g, t, r) ensures RowWalked(e, s, g, t, r) {
      RowsApart(d, e, t, r, y);
    }
  }

  /** The downscale walk. */
  method Shrink(src: array<Pixel>, g: Grid, dst: array<Pixel>, t: Grid)
    requires src != dst && g.width > 0 && g.height > 0 && t.width > 0 && t.height > 0 && t.width <= t.pitch
    requires Holds(src.Length, g) && Holds(dst.Length, t)
    modifies dst
    ensures forall y :: 0 <= y < t.height ==> RowWalked(dst[..], src[..], g, t, y)
  {
    var my := Increment(g.height, t.height);
    var sy := 0;
    for y := 0 to t.height
      invariant sy == y * my
      invariant forall r :: 0 <= r < y ==> RowWalked(dst[..], src[..], g, t, r)
    {
      WalkInRange(g.height, t.height, y);
      RowInside(src.Length, g, sy / ONE);
      RowInside(dst.Length, t, y);
      ghost var before := dst[..];
      WalkRow(src, sy / ONE * g.pitch, 0, g.width, dst, y * t.pitch, t.width);
      WalkedRow(before, dst[..], src[..], g, t, y);
      sy := sy + my;
    }
  }

  // ---- the whole fit ----

  /** The surfaces Lodor_artFit handles: its input, the RGB565 copy, and the result. */
  datatype Image = In | Conv | Out

  function Mapped<T>(r: seq<T>, convert: T -> Pixel): (m: seq<Pixel>)
    ensures |m| == |r| && forall x :: 0 <= x < |m| ==> m[x] == convert(r[x])
  {
    seq<Pixel>(|r|, x requires 0 <= x < |r| => convert(r[x]))
  }

  /** Row y of an image of any pixel format, in RGB565. */
  function RowIn565<T>(s: seq<T>, g: Grid, convert: T -> Pixel, y: nat): (r: seq<Pixel>)
    requires Holds(|s|, g) && y < g.height
    ensures |r| == g.width
  {
    RowInside(|s|, g, y);
    Mapped(s[y * g.pitch..y * g.pitch + g.width], convert)
  }

  lemma MappedRow<T>(s: seq<T>, g: Grid, convert: T -> Pixel, y: nat)
    requires Holds(|s|, g) && y < g.height
    ensures var from := y * g.pitch;
            from + g.width <= |s| && RowIn565(s, g, convert, y) == Mapped(s[from..from + g.width], convert)
  {
    RowInside(|s|, g, y);
  }

  /** Row by row, conv is the input in RGB565. */
  ghost predicate Converted<T>(conv: seq<Pixel>, c: Grid, s: seq<T>, g: Grid, convert: T -> Pixel, n: nat)
    requires Holds(|conv|, c) && Holds(|s|, g) && n <= c.height == g.height
  {
    forall y :: 0 <= y < n ==> RowAt(conv, c, y) == RowIn565(s, g, convert, y)
  }

  lemma RowConverted<T>(d: seq<Pixel>, e: seq<Pixel>, c: Grid, s: seq<T>, g: Grid, convert: T -> Pixel, y: nat)
    requires Holds(|d|, c) && Holds(|s|, g) && y < c.height == g.height && c.width == g.width && c.width <= c.pitch
    requires Converted(d, c, s, g, convert, y) && Wrote(d, e, y * c.pitch, RowIn565(s, g, convert, y))
    ensures |d| == |e| && Converted(e, c, s, g, convert, y + 1)
  {
    WroteRow(d, e, c, y, RowIn565(s, g, convert, y));
    hide RowIn565, RowAt;
    forall r | 0 <= r < y ensures RowAt(e, c, r) == RowIn565(s, g, convert, r) { RowsApart(d, e, c, r, y); }
  }

  lemma AllRows(t: Grid)
    requires t.height > 0 && t.width <= t.pitch
    ensures Holds(t.height * t.pitch, t)
  {
    assert (t.height - 1) * t.pitch + t.pitch == t.height * t.pitch;
  }

  lemma UpscaleCall(g: Grid, t: Grid, k: nat)
    requires g.width > 0 && g.height > 0 && 2 <= k <= 6 && t.width == g.width * k && t.height == g.height * k
    requires g.width <= g.pitch && t.width <= t.pitch
    ensures IntScaler.Supported(k, k)
    ensures IntScaler.Source(k, g.width, g.height, g.pitch, t.pitch) == g
    ensures IntScaler.Target(k, k, g.width, g.height, g.pitch, t.pitch) == t
  {
    MulLe(1, k, g.width);
  }

  method BlitRow<T>(input: array<T>, from: nat, width: nat, convert: T -> Pixel, conv: array<Pixel>, to: nat)
    requires from + width <= input.Length && to + width <= conv.Length && input as object != conv
    modifies conv
    ensures input[..] == old(input[..])
    ensures Wrote(old(conv[..]), conv[..], to, Mapped(input[..][from..from + width], convert))
  {
    ghost var row := Mapped(input[..][from..from + width], convert);
    for x := 0 to width
      invariant input[..] == old(input[..])
      invariant forall k :: 0 <= k < x ==> conv[to + k] == row[k]
      invariant forall k :: 0 <= k < conv.Length && !(to <= k < to + x) ==> conv[k] == old(conv[k])
    {
      conv[to + x] := convert(input[from + x]);
    }
  }

  /** SDL_BlitSurface into a fresh surface: the visible pixels, in RGB565. */
  method Blit<T>(input: array<T>, g: Grid, c: Grid, convert: T -> Pixel) returns (conv: array<Pixel>)
    requires Holds(input.Length, g) && c.width == g.width && c.height == g.height > 0 && c.width <= c.pitch
    ensures fresh(conv) && Holds(conv.Length, c) && Converted(conv[..], c, input[..], g, convert, g.height)
  {
    AllRows(c);
    conv := new Pixel[c.height * c.pitch](_ => 0);
    ghost var s := input[..];
    for y := 0 to g.height
      invariant input[..] == s && Converted(conv[..], c, s, g, convert, y)
    {
      hide *;
      MappedRow(s, g, convert, y);
      RowInside(conv.Length, c, y);
      ghost var before := conv[..];
      BlitRow(input, y * g.pitch, g.width, convert, conv, y * c.pitch);
      RowConverted(before, conv[..], c, s, g, convert, y);
    }
  }

  /** The upscale or the downscale. */
  method Draw(conv: array<Pixel>, c: Grid, t: Grid) returns (out: array<Pixel>)
    requires c.width > 0 && c.height > 0 && c.width <= c.pitch && Holds(conv.Length, c)
    requires t.width > 0 && t.height > 0 && t.width <= t.pitch
    requires t.width > c.width ==>
               var k := t.width / c.width; 2 <= k <= 6 && t.width == c.width * k && t.height == c.height * k
    requires t.width > c.width ==> t.width / c.width == t.height / c.height
    ensures fresh(out) && Holds(out.Length, t) && Drawn(out[..], conv[..], c, t)
  {
    out := new Pixel[t.height * t.pitch](_ => 0);
    AllRows(t);
    if t.width > c.width {
      UpscaleCall(c, t, t.width / c.width);
      IntScaler.Scaler(t.width / c.width, t.height / c.height, conv, out, c.width, c.height, c.pitch, t.pitch);
    } else {
      Shrink(conv, c, out, t);
    }
  }

  /** Lodor_artFit. convert is what SDL's blit makes of a pixel; convOk and outOk say whether the
      two surfaces could be created, pad and outPad how many unused pixels SDL leaves at the end
      of their rows. */
  method Fit<T>(input: array<T>, g: Grid, convert: T -> Pixel, maxW: nat, maxH: nat, grow: bool, convOk: bool,
                      outOk: bool, pad: nat, outPad: nat)
    returns (p: Plan, out: array<Pixel>, result: Image, freed: seq<Image>, ghost conv: seq<Pixel>)
    requires g.width <= g.pitch && Holds(input.Length, g)
    ensures p == FitPlan(g.width, g.height, maxW, maxH, grow)
    ensures result == if p.Resize? && convOk && outOk then Out else In
    // every surface there ever was is returned or has been freed, once
    ensures multiset(freed + [result]) ==
            multiset{In} + (if p.Resize? && convOk then multiset{Conv} else multiset{})
            + (if p.Resize? && outOk then multiset{Out} else multiset{})
    ensures result == Out ==>
              && g.width > 0 && g.height > 0 && p.Resize?
              && var c, t := Grid(g.width, g.height, g.width + pad), Grid(p.tw, p.th, p.tw + outPad);
                 && Holds(|conv|, c) && Converted(conv, c, input[..], g, convert, g.height)
                 && Holds(out.Length, t) && Drawn(out[..], conv, c, t)
  {
    p, result, freed, conv := FitPlan(g.width, g.height, maxW, maxH, grow), In, [], [];
    out := new Pixel[0];
    if p == Keep { return; }
    if !convOk || !outOk {
      if convOk { freed := freed + [Conv]; }
      if outOk { freed := freed + [Out]; }
      return;
    }
    PlanFits(g.width, g.height, maxW, maxH, grow);
    hide FitPlan, Converted, Drawn;
    var c, t := Grid(g.width, g.height, g.width + pad), Grid(p.tw, p.th, p.tw + outPad);
    var copy := Blit(input, g, c, convert);
    conv := copy[..];
    out := Draw(copy, c, t);
    result, freed := Out, [Conv, In];
  }

  // ---- pixel by pixel ----

  lemma WalkedPixel(d: seq<Pixel>, s: seq<Pixel>, g: Grid, t: Grid, x: nat, y: nat)
    requires Holds(|s|, g) && Holds(|d|, t) && g.width > 0 && g.height > 0 && x < t.width && y < t.height
    requires RowWalked(d, s, g, t, y)
    ensures Walk(g.width, t.width, x) < g.width && Walk(g.height, t.height, y) < g.height
    ensures RowAt(d, t, y)[x] == RowAt(s, g, Walk(g.height, t.height, y))[Walk(g.width, t.width, x)]
  {
    WalkInRange(g.width, t.width, x);
    WalkInRange(g.height, t.height, y);
    hide RowAt, Walk;
  }

  /** The source column or row of target index i: a k-th part where the surface grew k times, and
      else where the fixed-point walk has come to. */
  function From(n: nat, t: nat, i: nat): nat
    requires n > 0 && t > 0
  {
    if t > n then i / (t / n) else Walk(n, t, i)
  }

  /** Where a growing surface grows both ways by the same whole factor. */
  predicate Growing(g: Grid, t: Grid) {
    && g.width > 0 && g.height > 0
    && var k := t.width / g.width;
       k > 1 && t.width == g.width * k && t.height == g.height * k && t.height / g.height == k
       && t.width > g.width && t.height > g.height
  }

  lemma ResultShape(g: Grid, maxW: nat, maxH: nat, grow: bool, t: Grid)
    requires FitPlan(g.width, g.height, maxW, maxH, grow) == Resize(t.width, t.height)
    ensures g.width > 0 && g.height > 0
    ensures Growing(g, t) || (t.width <= g.width && t.height <= g.height)
  {
    hide FitPlan;
    PlanFits(g.width, g.height, maxW, maxH, grow);
    if t.width > g.width {
      var k := t.width / g.width;
      assert IsUpscale(g.width, g.height, maxW, maxH, Resize(t.width, t.height), k);
      MulDiv(g.height, k);
    }
  }

  lemma GrownPixel(d: seq<Pixel>, s: seq<Pixel>, g: Grid, t: Grid, x: nat, y: nat)
    requires Holds(|s|, g) && Holds(|d|, t) && x < t.width && y < t.height
    requires Growing(g, t) && Drawn(d, s, g, t)
    ensures From(g.width, t.width, x) < g.width && From(g.height, t.height, y) < g.height
    ensures RowAt(d, t, y)[x] == RowAt(s, g, From(g.height, t.height, y))[From(g.width, t.width, x)]
  {
    hide RowAt, IntScaler.Shows;
    IntScaler.PixelReplicated(d, s, g, t, t.width / g.width, t.width / g.width, y, x);
  }

  /** The pixel at (i, j) of an image. */
  predicate PixelIs<T(==)>(s: seq<T>, g: Grid, i: nat, j: nat, p: T) {
    i < g.width && j < g.height && j * g.pitch + i < |s| && s[j * g.pitch + i] == p
  }

  lemma ConvertedPixel<T>(conv: seq<Pixel>, c: Grid, s: seq<T>, g: Grid, convert: T -> Pixel, x: nat, y: nat)
    returns (p: T)
    requires Holds(|conv|, c) && Holds(|s|, g) && c.width == g.width && c.height == g.height
    requires x < g.width && y < g.height && Converted(conv, c, s, g, convert, g.height)
    ensures PixelIs(s, g, x, y, p) && RowAt(conv, c, y)[x] == convert(p)
  {
    RowInside(|s|, g, y);
    MappedRow(s, g, convert, y);
    assert RowAt(conv, c, y) == RowIn565(s, g, convert, y);
    hide RowAt, RowIn565;
    p := s[y * g.pitch + x];
  }

  /** Of the picture Fit returns: pixel (x, y) of the result is the converted input pixel it comes
      from. */
  lemma FittedPixel<T>(out: seq<Pixel>, t: Grid, conv: seq<Pixel>, c: Grid, s: seq<T>, g: Grid, convert: T -> Pixel,
                       maxW: nat, maxH: nat, grow: bool, x: nat, y: nat) returns (p: T)
    requires Holds(|s|, g) && Holds(|conv|, c) && Holds(|out|, t) && c.width == g.width && c.height == g.height
    requires FitPlan(g.width, g.height, maxW, maxH, grow) == Resize(t.width, t.height)
    requires g.width > 0 && g.height > 0 && x < t.width && y < t.height
    requires Converted(conv, c, s, g, convert, g.height) && Drawn(out, conv, c, t)
    ensures PixelIs(s, g, From(g.width, t.width, x), From(g.height, t.height, y), p)
    ensures RowAt(out, t, y)[x] == convert(p)
  {
    ResultShape(c, maxW, maxH, grow, t);
    hide FitPlan;
    if t.width > g.width {
      hide RowAt, Converted, Drawn, Walk;
      GrownPixel(out, conv, c, t, x, y);
    } else {
      hide RowAt, Converted, RowWalked, Walk;
      assert RowWalked(out, conv, c, t, y);
      WalkedPixel(out, conv, c, t, x, y);
    }
    p := ConvertedPixel(conv, c, s, g, convert, From(g.width, t.width, x), From(g.height, t.height, y));
  }
}
