/** scaleAA of api.c: two nested error accumulators walk the source while rows and columns of
    the target are written in place. */
module AAScaler {
  import opened Arith
  import opened Pixels
  import opened Rows
  import opened AASpec

  /** Source and target, sizes and pitches in pixels. */
  datatype Geo = Geo(src: Grid, dst: Grid)

  ghost predicate Sizes(g: Geo, w: Axis, h: Axis) {
    && Fits(w, g.src.width, g.dst.width) && Fits(h, g.src.height, g.dst.height)
    && g.src.width > 0 && g.dst.width > 0 && g.src.width <= g.src.pitch && g.dst.width <= g.dst.pitch
  }

  // ---- what the target must hold ----

  /** Two rows of pixels blended at vertical offset dy. */
  function MixRow(x: Axis, above: seq<Pixel>, below: seq<Pixel>, dy: nat): (r: seq<Pixel>)
    requires |above| == |below|
    ensures |r| == |above| && forall c :: 0 <= c < |r| ==> r[c] == Mix(x, above[c], below[c], dy)
  {
    seq(|above|, c requires 0 <= c < |above| => Mix(x, above[c], below[c], dy))
  }

  /** The line drawn from source row i and its successor, the last row being its own. */
  function Line(s: seq<Pixel>, g: Geo, h: Axis, i: nat, dy: nat): (l: seq<Pixel>)
    requires i < g.src.height && Holds(|s|, g.src)
    ensures |l| == g.src.width
  {
    MixRow(h, RowAt(s, g.src, i), RowAt(s, g.src, if i + 1 < g.src.height then i + 1 else i), dy)
  }

  /** What the word loops make of two pixels. */
  function BlendOne(a: Pixel, b: Pixel, third: bool): Pixel { if third then Quarter(a, b) else Half(a, b) }

  /** AVERAGE32_1_3, or AVERAGE32. */
  function Blend32(c1: bv32, c2: bv32, third: bool): bv32 {
    if c1 == c2 then c1 else if third then Average32(Average32(c1, c2), c2) else Average32(c1, c2)
  }

  /** A word operation is the pixel operation on both halves. */
  lemma BlendWord(l1: Pixel, h1: Pixel, l2: Pixel, h2: Pixel, third: bool)
    ensures var r := Blend32(Word(l1, h1), Word(l2, h2), third);
            Lo(r) == BlendOne(l1, l2, third) && Hi(r) == BlendOne(h1, h2, third)
  {
    var c1, c2 := Word(l1, h1), Word(l2, h2);
    hide Average16, Average32, Word, Lo, Hi;
    WordHalves(l1, h1);
    WordHalves(l2, h2);
    Average32IsTwo(c1, c2);
    Average32IsTwo(Average32(c1, c2), c2);
    AverageSelf(l1);
    AverageSelf(h1);
  }

  /** What the word loops make of two rows. */
  function Blended(a: seq<Pixel>, b: seq<Pixel>, third: bool): (r: seq<Pixel>)
    requires |a| == |b|
    ensures |r| == |a| && forall c :: 0 <= c < |r| ==> r[c] == BlendOne(a[c], b[c], third)
  {
    seq(|a|, c requires 0 <= c < |a| => BlendOne(a[c], b[c], third))
  }

  /** The choice of the row below, the row above or a blend of both, up to pixel n. */
  function Chosen(x: Axis, above: seq<Pixel>, below: seq<Pixel>, dy: nat, n: nat): seq<Pixel>
    requires n <= |above| == |below|
  {
    if dy as int > x.rout - x.bp0 then below[..n]
    else if dy <= x.bp0 then above[..n]
    else if dy <= x.bp1 then Blended(below[..n], above[..n], true)
    else Blended(above[..n], below[..n], dy as int > x.rout - x.bp1)
  }

  lemma ChosenIsMix(x: Axis, above: seq<Pixel>, below: seq<Pixel>, dy: nat, n: nat)
    requires n <= |above| == |below|
    ensures Chosen(x, above, below, dy, n) == MixRow(x, above, below, dy)[..n]
  {
    hide Quarter, Half;
    var l := Chosen(x, above, below, dy, n);
    assert |l| == n;
    forall c | 0 <= c < n ensures l[c] == MixRow(x, above, below, dy)[c] {}
  }

  lemma FrontOf(s: seq<Pixel>, at: nat, width: nat, n: nat)
    requires at + width <= |s| && n <= width
    ensures s[at..at + width][..n] == s[at..at + n]
  {
  }

  /** How far the line goes: blending two rows works on words of two pixels, and leaves the last
      pixel of an odd width as it was. */
  function Reach(g: Geo, h: Axis, dy: nat): (n: nat)
    ensures n <= g.src.width
  {
    if dy as int > h.rout - h.bp0 || dy <= h.bp0 then g.src.width else g.src.width - g.src.width % 2
  }

  /** l starts with the line; the code also reads one pixel past its end, whatever lies there. */
  predicate Begins(l: seq<Pixel>, line: seq<Pixel>, n: nat) {
    n <= |line| && |l| == |line| + 1 && l[..n] == line[..n]
  }

  /** The same choice, by where the rows start. */
  function Choice(x: Axis, s: seq<Pixel>, above: nat, below: nat, dy: nat, n: nat): seq<Pixel>
    requires above + n <= |s| && below + n <= |s|
  {
    if dy as int > x.rout - x.bp0 then s[below..below + n]
    else if dy <= x.bp0 then s[above..above + n]
    else if dy <= x.bp1 then Blended(s[below..below + n], s[above..above + n], true)
    else Blended(s[above..above + n], s[below..below + n], dy as int > x.rout - x.bp1)
  }

  lemma LineIs(s: seq<Pixel>, g: Geo, h: Axis, i: nat, dy: nat, n: nat, above: nat, below: nat)
    requires i < g.src.height && Holds(|s|, g.src) && n <= g.src.width
    requires above + g.src.width <= |s| && below + g.src.width <= |s|
    requires RowAt(s, g.src, i) == s[above..above + g.src.width]
    requires RowAt(s, g.src, if i + 1 < g.src.height then i + 1 else i) == s[below..below + g.src.width]
    ensures Line(s, g, h, i, dy)[..n] == Choice(h, s, above, below, dy, n)
  {
    hide MixRow, Blended, Holds, RowAt;
    FrontOf(s, above, g.src.width, n);
    FrontOf(s, below, g.src.width, n);
    ChosenIsMix(h, s[above..above + g.src.width], s[below..below + g.src.width], dy, n);
  }

  lemma RowIs(s: seq<Pixel>, g: Grid, j: nat)
    requires Holds(|s|, g) && j < g.height
    ensures j * g.pitch + g.width <= |s| && RowAt(s, g, j) == s[j * g.pitch..j * g.pitch + g.width]
  {
    RowInside(|s|, g, j);
  }

  lemma OneMore(s: seq<Pixel>, off: nat, edge: Pixel, line: seq<Pixel>, n: nat)
    requires n <= |line| && off + |line| <= |s| && s[off..off + n] == line[..n]
    ensures Begins(s[off..off + |line|] + [edge], line, n)
  {
    var l := s[off..off + |line|];
    FrontOf(s, off, |line|, n);
    assert (l + [edge])[..n] == l[..n];
  }

  /** Target row j holds the line drawn from source row i at vertical offset dy. */
  ghost predicate Drawn(d: seq<Pixel>, s: seq<Pixel>, g: Geo, w: Axis, h: Axis, j: nat, i: nat, dy: nat)
    requires w.rin > 0 && Holds(|s|, g.src) && i < g.src.height
    requires Holds(|d|, g.dst) && j < g.dst.height
  {
    exists l: seq<Pixel> ::
      Begins(l, Line(s, g, h, i, dy), Reach(g, h, dy)) && RowAt(d, g.dst, j) == Row(w, l)
  }

  lemma DrawnBy(d: seq<Pixel>, s: seq<Pixel>, g: Geo, w: Axis, h: Axis, j: nat, i: nat, dy: nat, l: seq<Pixel>)
    requires w.rin > 0 && Holds(|s|, g.src) && i < g.src.height
    requires Holds(|d|, g.dst) && j < g.dst.height
    requires Begins(l, Line(s, g, h, i, dy), Reach(g, h, dy)) && RowAt(d, g.dst, j) == Row(w, l)
    ensures Drawn(d, s, g, w, h, j, i, dy)
  {
  }

  /** Target row j shows source row Cell(h, j) and its successor. */
  ghost predicate RowDone(d: seq<Pixel>, s: seq<Pixel>, g: Geo, w: Axis, h: Axis, j: nat)
    requires Sizes(g, w, h) && Holds(|s|, g.src)
    requires Holds(|d|, g.dst) && j < g.dst.height
  {
    CellIsFloor(h, g.src.height, g.dst.height, j);
    Drawn(d, s, g, w, h, j, Cell(h, j), Offset(h, j))
  }

  ghost predicate RowsDone(d: seq<Pixel>, s: seq<Pixel>, g: Geo, w: Axis, h: Axis, n: nat)
    requires Sizes(g, w, h) && Holds(|s|, g.src)
    requires Holds(|d|, g.dst) && n <= g.dst.height
  {
    forall j :: 0 <= j < n ==> RowDone(d, s, g, w, h, j)
  }

  lemma RowEnds(w: Axis, l: seq<Pixel>, line: seq<Pixel>, n: nat, dst: nat, k: nat)
    requires |line| > 0 && Fits(w, |line|, dst) && k < dst && Begins(l, line, n)
    ensures |Row(w, l)| == dst
    ensures var c := Source(|line|, dst, k);
            c + 1 < n ==> Row(w, l)[k] == At(w, line[c], line[c + 1], Offset(w, k))
  {
    hide Row, At, Cell, Offset, Source;
    RowExact(w, l, dst, k);
    var c := Source(|line|, dst, k);
    if c + 1 < n { assert l[c] == l[..n][c] == line[c] && l[c + 1] == l[..n][c + 1] == line[c + 1]; }
  }

  /** Every pixel of a finished row up to the reach of its line, in closed form: for even widths
      and for rows that are not blended, all but those of the last source column. */
  lemma PixelExact(d: seq<Pixel>, s: seq<Pixel>, g: Geo, w: Axis, h: Axis, j: nat, k: nat)
    requires Sizes(g, w, h) && Holds(|s|, g.src)
    requires Holds(|d|, g.dst) && j < g.dst.height && k < g.dst.width
    requires RowDone(d, s, g, w, h, j)
    ensures Cell(h, j) == Source(g.src.height, g.dst.height, j) < g.src.height
    ensures var c := Source(g.src.width, g.dst.width, k);
            c + 1 < Reach(g, h, Offset(h, j)) ==>
              RowAt(d, g.dst, j)[k] == At(w, Line(s, g, h, Cell(h, j), Offset(h, j))[c],
                                         Line(s, g, h, Cell(h, j), Offset(h, j))[c + 1], Offset(w, k))
  {
    CellIsFloor(h, g.src.height, g.dst.height, j);
    var line := Line(s, g, h, Cell(h, j), Offset(h, j));
    var n := Reach(g, h, Offset(h, j));
    var l: seq<Pixel> :| Begins(l, line, n) && RowAt(d, g.dst, j) == Row(w, l);
    hide Row, At, Cell, Offset, Source, Line, Begins, Reach;
    RowEnds(w, l, line, n, g.dst.width, k);
  }

  /** The source pixel (c, i), rows past the last one repeating it. */
  function SourcePixel(s: seq<Pixel>, g: Geo, i: nat, c: nat): Pixel
    requires Holds(|s|, g.src) && i <= g.src.height && g.src.height > 0 && c < g.src.width
  {
    var row := if i < g.src.height then i else g.src.height - 1;
    RowInside(|s|, g.src, row);
    s[row * g.src.pitch + c]
  }

  lemma OffsetInside(g: Geo, w: Axis, h: Axis, k: nat)
    requires Sizes(g, w, h)
    ensures w.rin > 0 && h.rout > 0 && g.src.width > 0 && g.dst.width > 0 && Offset(w, k) < w.rout
  {
  }

  lemma LineAt(s: seq<Pixel>, g: Geo, h: Axis, i: nat, dy: nat, c: nat)
    requires i < g.src.height && Holds(|s|, g.src) && c < g.src.width
    ensures Line(s, g, h, i, dy)[c] == Mix(h, SourcePixel(s, g, i, c), SourcePixel(s, g, i + 1, c), dy)
  {
    RowInside(|s|, g.src, i);
    RowInside(|s|, g.src, if i + 1 < g.src.height then i + 1 else i);
    hide Mix, Holds;
  }

  /** Up to the reach of its line, every channel of output (k, j) lies between the smallest and
      the largest value of that channel over its four source pixels. */
  lemma ScaledWithin(d: seq<Pixel>, s: seq<Pixel>, g: Geo, w: Axis, h: Axis, j: nat, k: nat, r: Range)
    requires Sizes(g, w, h) && Holds(|s|, g.src)
    requires Holds(|d|, g.dst) && j < g.dst.height && k < g.dst.width
    requires RowDone(d, s, g, w, h, j)
    requires var i, c := Source(g.src.height, g.dst.height, j), Source(g.src.width, g.dst.width, k);
             && i < g.src.height && c + 1 < Reach(g, h, Offset(h, j))
             && Within(SourcePixel(s, g, i, c), r) && Within(SourcePixel(s, g, i, c + 1), r)
             && Within(SourcePixel(s, g, i + 1, c), r) && Within(SourcePixel(s, g, i + 1, c + 1), r)
    ensures Within(RowAt(d, g.dst, j)[k], r)
  {
    hide *;
    OffsetInside(g, w, h, k);
    var i, c, dy := Source(g.src.height, g.dst.height, j), Source(g.src.width, g.dst.width, k), Offset(h, j);
    PixelExact(d, s, g, w, h, j, k);
    LineAt(s, g, h, i, dy, c);
    LineAt(s, g, h, i, dy, c + 1);
    OutputWithin(h, w, SourcePixel(s, g, i, c), SourcePixel(s, g, i, c + 1),
                 SourcePixel(s, g, i + 1, c), SourcePixel(s, g, i + 1, c + 1), dy, Offset(w, k), r);
  }

  // ---- the steps of the loops ----

  /** While source rows remain to be drawn from, target rows remain to be drawn. */
  lemma RowExists(g: Geo, h: Axis, i: nat, j: nat, dy: nat)
    requires Fits(h, g.src.height, g.dst.height) && i < g.src.height && dy < h.rout && j * h.rin == i * h.rout + dy
    ensures j < g.dst.height
  {
    MulLe(i + 1, g.src.height, h.rout);
    assert (i + 1) * h.rout == i * h.rout + h.rout;
    CancelLt(j, g.dst.height, h.rin);
  }

  lemma CellOf(x: Axis, i: nat, dy: nat, j: nat)
    requires x.rout > 0 && dy < x.rout && j * x.rin == i * x.rout + dy
    ensures Cell(x, j) == i && Offset(x, j) == dy
  {
    DivUnique(j * x.rin, x.rout, i);
  }

  lemma DoneStays(d: seq<Pixel>, e: seq<Pixel>, s: seq<Pixel>, g: Geo, w: Axis, h: Axis, r: nat, j: nat)
    requires Sizes(g, w, h) && Holds(|s|, g.src)
    requires |d| == |e| && Holds(|d|, g.dst) && r < j < g.dst.height
    requires RowDone(d, s, g, w, h, r) && OnlyRow(d, e, g.dst, j)
    ensures RowDone(e, s, g, w, h, r)
  {
    CellIsFloor(h, g.src.height, g.dst.height, r);
    RowsApart(d, e, g.dst, r, j);
    hide Row, Line, RowAt, Cell, Offset;
  }

  /** Drawing row j finishes it and leaves the rows before it finished. */
  lemma RowFinished(first: seq<Pixel>, d: seq<Pixel>, e: seq<Pixel>, s: seq<Pixel>, g: Geo, w: Axis, h: Axis, j: nat)
    requires Sizes(g, w, h) && Holds(|s|, g.src)
    requires |first| == |d| == |e| && Holds(|d|, g.dst) && j < g.dst.height
    requires Cell(h, j) < g.src.height && Drawn(e, s, g, w, h, j, Cell(h, j), Offset(h, j)) && OnlyRow(d, e, g.dst, j)
    requires RowsDone(d, s, g, w, h, j) && OnlyRows(first, d, g.dst, j)
    ensures RowsDone(e, s, g, w, h, j + 1) && OnlyRows(first, e, g.dst, j + 1)
  {
    hide Drawn, RowAt, InRows, Cell, Offset;
    forall r | 0 <= r < j ensures RowDone(e, s, g, w, h, r) {
      assert RowDone(d, s, g, w, h, r);
      DoneStays(d, e, s, g, w, h, r, j);
    }
    OneMoreRow(first, d, e, g.dst, j);
  }

  lemma Cut(row: seq<Pixel>, n: nat, taps: seq<Pixel>, rest: seq<Pixel>)
    requires n <= |row| && row[n..] == taps + rest
    ensures n + |taps| <= |row| && row[n + |taps|..] == rest
    ensures row[..n] + taps == row[..n + |taps|]
  {
    assert row[n + |taps|..] == row[n..][|taps|..];
    assert row[n..][..|taps|] == taps;
  }

  lemma RowOver(x: Axis, line: seq<Pixel>, dx: nat)
    requires x.rin > 0 && |line| > 0
    ensures RowFrom(x, line, |line| - 1, dx) == []
  {
  }

  /** RowFrom, unrolled once. */
  lemma RowStep(x: Axis, line: seq<Pixel>, c: nat, dx: nat)
    requires x.rin > 0 && x.rout > 0 && c + 1 < |line| && dx < x.rin
    ensures var taps := Taps(x, line[c], line[c + 1], dx);
            && dx + |taps| * x.rin - x.rout < x.rin && dx + |taps| * x.rin >= x.rout
            && RowFrom(x, line, c, dx) == taps + RowFrom(x, line, c + 1, dx + |taps| * x.rin - x.rout)
  {
    AfterSmall(x, line[c], line[c + 1], dx);
  }

  lemma TapsStep(x: Axis, a: Pixel, b: Pixel, dx: nat)
    requires x.rin > 0 && dx < x.rout
    ensures var (out, a', b') := Tap(x, a, b, dx);
            var t := Taps(x, a, b, dx);
            |t| > 0 && t[0] == out && t[1..] == Taps(x, a', b', dx + x.rin)
  {
  }

  // ---- the scaler, working in place ----

  class Blend {
    var w: Axis
    var h: Axis
    var blendLine: array<Pixel>

    constructor ()
      ensures fresh(blendLine)
    {
      blendLine := new Pixel[0];
      w, h := Axis(1, 1, 0, 0), Axis(1, 1, 0, 0);
    }

    /** GFX_getAAScaler: reduce the ratios and allocate the line. */
    method GetAAScaler(srcW: nat, srcH: nat, dstW: nat, dstH: nat)
      requires srcW > 0 && srcH > 0 && dstW > 0 && dstH > 0
      modifies this
      ensures fresh(blendLine) && blendLine.Length == srcW
      ensures w == MakeAxis(srcW, dstW, srcW > dstW) && h == MakeAxis(srcH, dstH, srcW > dstW)
      ensures Fits(w, srcW, dstW) && Fits(h, srcH, dstH)
    {
      blendLine := new Pixel[srcW](_ => 0);
      AxisFits(srcW, dstW, srcW > dstW);
      AxisFits(srcH, dstH, srcW > dstW);
      w := MakeAxis(srcW, dstW, srcW > dstW);
      h := MakeAxis(srcH, dstH, srcW > dstW);
    }

    /** One word of each row. */
    method BlendPair(src: array<Pixel>, a: nat, b: nat, i: nat, third: bool)
      requires a + 2 <= src.Length && b + 2 <= src.Length && 2 * i + 2 <= blendLine.Length && blendLine != src
      modifies blendLine
      ensures blendLine[2 * i] == BlendOne(src[a], src[b], third)
      ensures blendLine[2 * i + 1] == BlendOne(src[a + 1], src[b + 1], third)
      ensures forall k :: 0 <= k < blendLine.Length && !(2 * i <= k < 2 * i + 2) ==> blendLine[k] == old(blendLine[k])
    {
      hide *;
      BlendWord(src[a], src[a + 1], src[b], src[b + 1], third);
      var r := Blend32(Word(src[a], src[a + 1]), Word(src[b], src[b + 1]), third);
      blendLine[2 * i] := Lo(r);
      blendLine[2 * i + 1] := Hi(r);
    }

    /** The word loops: blend two source rows into the line, two pixels at a time. */
    method BlendRows(src: array<Pixel>, a: nat, b: nat, words: nat, third: bool)
      requires a + 2 * words <= src.Length && b + 2 * words <= src.Length
      requires 2 * words <= blendLine.Length && blendLine != src
      modifies blendLine
      ensures blendLine[..2 * words] == Blended(src[..][a..a + 2 * words], src[..][b..b + 2 * words], third)
    {
      hide BlendOne;
      for i := 0 to words
        invariant forall c :: 0 <= c < 2 * i ==> blendLine[c] == BlendOne(src[a + c], src[b + c], third)
      {
        BlendPair(src, a + 2 * i, b + 2 * i, i, third);
      }
    }

    /** The body of the innermost loop. */
    method EmitTap(a0: Pixel, b0: Pixel, dx: nat) returns (out: Pixel, a: Pixel, b: Pixel)
      ensures (out, a, b) == Tap(w, a0, b0, dx)
    {
      a, b := a0, b0;
      if a == b {
        out := a;
      } else if dx as int > w.rout - w.bp0 {
        out := b;
      } else if dx <= w.bp0 {
        out := a;
      } else {
        if dx as int > w.rout - w.bp1 {
          a := Avg(a, b);
        } else if dx <= w.bp1 {
          b := Avg(a, b);
        }
        out := Avg(a, b);
      }
    }

    /** One source column: outputs until the accumulator passes rout. */
    method EmitColumn(dst: array<Pixel>, at: nat, a0: Pixel, b0: Pixel, dx0: nat) returns (dx: nat, n: nat)
      requires w.rin > 0 && at + |Taps(w, a0, b0, dx0)| <= dst.Length
      modifies dst
      ensures n == |Taps(w, a0, b0, dx0)| && dx == dx0 + n * w.rin >= w.rout
      ensures Wrote(old(dst[..]), dst[..], at, Taps(w, a0, b0, dx0))
    {
      var a, b := a0, b0;
      dx, n := dx0, 0;
      ghost var all := Taps(w, a0, b0, dx0);
      while dx < w.rout
        invariant n <= |all| && dx == dx0 + n * w.rin
        invariant Taps(w, a, b, dx) == all[n..]
        invariant forall i :: 0 <= i < n ==> dst[at + i] == all[i]
        invariant forall p :: 0 <= p < dst.Length && !(at <= p < at + n) ==> dst[p] == old(dst[p])
        decreases if dx < w.rout then w.rout - dx else 0
      {
        TapsStep(w, a, b, dx);
        hide Taps, Tap, Average16;
        var out;
        out, a, b := EmitTap(a, b, dx);
        dst[at + n] := out;
        dx := dx + w.rin;
        n := n + 1;
      }
    }

    /** Column col of a row, from the row's output n on. */
    method NextColumn(dst: array<Pixel>, at: nat, n0: nat, a: Pixel, b: Pixel, dx0: nat,
                      ghost first: seq<Pixel>, ghost row: seq<Pixel>, ghost l: seq<Pixel>, ghost col: nat)
      returns (dx: nat, n: nat)
      requires w.rin > 0 && w.rout > 0 && dx0 < w.rin && n0 <= |row| && at + |row| <= dst.Length
      requires col + 1 < |l| && a == l[col] && b == l[col + 1] && RowFrom(w, l, col, dx0) == row[n0..]
      requires Wrote(first, dst[..], at, row[..n0])
      modifies dst
      ensures dx < w.rin && n <= |row| && RowFrom(w, l, col + 1, dx) == row[n..]
      ensures Wrote(first, dst[..], at, row[..n])
    {
      hide *;
      RowStep(w, l, col, dx0);
      ghost var taps := Taps(w, a, b, dx0);
      Cut(row, n0, taps, RowFrom(w, l, col + 1, dx0 + |taps| * w.rin - w.rout));
      ghost var before := dst[..];
      dx, n := EmitColumn(dst, at + n0, a, b, dx0);
      WroteMore(first, before, dst[..], at, row[..n0], taps);
      dx := dx - w.rout;
      n := n0 + n;
    }

    /** One target row from a line of pixels. The last column's right neighbour is read from one
        place past the line; edge stands for what is there. */
    method EmitRow(dst: array<Pixel>, at: nat, line: array<Pixel>, off: nat, width: nat, edge: Pixel)
      requires w.rin > 0 && w.rout > 0 && off + width <= line.Length && line != dst
      requires at + |Row(w, line[off..off + width] + [edge])| <= dst.Length
      modifies dst
      ensures Wrote(old(dst[..]), dst[..], at, Row(w, line[off..off + width] + [edge]))
    {
      ghost var l: seq<Pixel> := line[off..off + width] + [edge];
      ghost var row := Row(w, l);
      var dx: nat, n: nat := 0, 0;
      assert Wrote(dst[..], dst[..], at, []);
      assert RowFrom(w, l, 0, 0) == row && row[..0] == [];
      hide Taps, RowFrom, Row, Average16, Wrote;
      for col := 0 to width
        invariant n <= |row| && dx < w.rin
        invariant RowFrom(w, l, col, dx) == row[n..]
        invariant l == line[off..off + width] + [edge]
        invariant Wrote(old(dst[..]), dst[..], at, row[..n])
      {
        var a := line[off + col];
        var b := if col + 1 < width then line[off + col + 1] else edge;
        assert a == l[col] && b == l[col + 1];
        dx, n := NextColumn(dst, at, n, a, b, dx, old(dst[..]), row, l, col);
      }
      assert row[..n] == row by { assert |row[n..]| == |RowFrom(w, l, width, dx)| == 0 by { RowOver(w, l, dx); } }
    }

    lemma Prefix(a: array<Pixel>, n: nat)
      requires n <= a.Length
      ensures a[..][0..n] == a[..n]
    {
    }

    method ChooseAt(src: array<Pixel>, g: Geo, above: nat, below: nat, dy: nat, ghost goal: seq<Pixel>)
      returns (line: array<Pixel>, off: nat)
      requires above + g.src.width <= src.Length && below + g.src.width <= src.Length
      requires blendLine != src && blendLine.Length >= g.src.width
      requires goal == Choice(h, src[..], above, below, dy, Reach(g, h, dy))
      modifies blendLine
      ensures (line == src || line == blendLine) && off + g.src.width <= line.Length
      ensures line[..][off..off + Reach(g, h, dy)] == goal
    {
      ghost var n := Reach(g, h, dy);
      line, off := blendLine, 0;
      hide Blended;
      if dy as int > h.rout - h.bp0 {
        line, off := src, below;
      } else if dy <= h.bp0 {
        line, off := src, above;
      } else {
        assert n == 2 * (g.src.width / 2);
        if dy <= h.bp1 {
          BlendRows(src, below, above, g.src.width / 2, true);
        } else {
          BlendRows(src, above, below, g.src.width / 2, dy as int > h.rout - h.bp1);
        }
        Prefix(blendLine, n);
      }
    }

    /** The row above, the row below, or the two blended two pixels at a time. */
    method ChooseLine(src: array<Pixel>, g: Geo, i: nat, dy: nat) returns (line: array<Pixel>, off: nat)
      requires i < g.src.height
      requires Holds(src.Length, g.src)
      requires blendLine != src && blendLine.Length >= g.src.width
      modifies blendLine
      ensures (line == src || line == blendLine) && off + g.src.width <= line.Length
      ensures line[..][off..off + Reach(g, h, dy)] == Line(src[..], g, h, i, dy)[..Reach(g, h, dy)]
    {
      hide *;
      var next := if i + 1 < g.src.height then i + 1 else i;
      RowIs(src[..], g.src, i);
      RowIs(src[..], g.src, next);
      var above, below := i * g.src.pitch, next * g.src.pitch;
      LineIs(src[..], g, h, i, dy, Reach(g, h, dy), above, below);
      ghost var goal := Line(src[..], g, h, i, dy)[..Reach(g, h, dy)];
      line, off := ChooseAt(src, g, above, below, dy, goal);
    }

    method EmitWhole(dst: array<Pixel>, g: Geo, j: nat, line: array<Pixel>, off: nat, ghost l: seq<Pixel>, edge: Pixel)
      requires g.src.width > 0 && Fits(w, g.src.width, g.dst.width) && off + g.src.width <= line.Length && line != dst
      requires Holds(dst.Length, g.dst) && j < g.dst.height
      requires l == line[off..off + g.src.width] + [edge]
      modifies dst
      ensures RowAt(dst[..], g.dst, j) == Row(w, l)
      ensures OnlyRow(old(dst[..]), dst[..], g.dst, j)
    {
      RowInside(dst.Length, g.dst, j);
      hide Row;
      RowExact(w, l, g.dst.width, 0);
      ghost var before := dst[..];
      EmitRow(dst, j * g.dst.pitch, line, off, g.src.width, edge);
      WroteRow(before, dst[..], g.dst, j, Row(w, l));
    }

    /** One target row: choose or blend its line, then emit it. */
    method DrawRow(src: array<Pixel>, dst: array<Pixel>, g: Geo, i: nat, j: nat, dy: nat)
      requires i < g.src.height && j < g.dst.height
      requires g.src.width > 0 && Fits(w, g.src.width, g.dst.width)
      requires Holds(src.Length, g.src) && Holds(dst.Length, g.dst)
      requires src != dst && blendLine != src && blendLine != dst && blendLine.Length >= g.src.width
      modifies dst, blendLine
      ensures Drawn(dst[..], src[..], g, w, h, j, i, dy)
      ensures OnlyRow(old(dst[..]), dst[..], g.dst, j)
    {
      hide Row, Line, RowAt, OnlyRow, Drawn, Holds, Reach, Begins;
      var line, off := ChooseLine(src, g, i, dy);
      var edge: Pixel := *;
      ghost var l: seq<Pixel> := line[..][off..off + g.src.width] + [edge];
      OneMore(line[..], off, edge, Line(src[..], g, h, i, dy), Reach(g, h, dy));
      assert line[off..off + g.src.width] == line[..][off..off + g.src.width];
      EmitWhole(dst, g, j, line, off, l, edge);
      DrawnBy(dst[..], src[..], g, w, h, j, i, dy, l);
    }

    /** All target rows drawn from one source row. */
    method DrawRows(src: array<Pixel>, dst: array<Pixel>, g: Geo, i: nat, j0: nat, dy0: nat, ghost first: seq<Pixel>)
      returns (dy: nat, j: nat)
      requires Sizes(g, w, h) && i < g.src.height
      requires Holds(src.Length, g.src) && Holds(dst.Length, g.dst)
      requires src != dst && blendLine != src && blendLine != dst && blendLine.Length >= g.src.width
      requires dy0 < h.rin && j0 <= g.dst.height && j0 * h.rin == i * h.rout + dy0 && |first| == dst.Length
      requires RowsDone(dst[..], src[..], g, w, h, j0) && OnlyRows(first, dst[..], g.dst, j0)
      modifies dst, blendLine
      ensures h.rout <= dy < h.rout + h.rin && j <= g.dst.height && j * h.rin == i * h.rout + dy
      ensures RowsDone(dst[..], src[..], g, w, h, j) && OnlyRows(first, dst[..], g.dst, j)
    {
      hide RowsDone, OnlyRows, Holds, Drawn, OnlyRow;
      dy, j := dy0, j0;
      while dy < h.rout
        invariant dy < h.rout + h.rin
        invariant j <= g.dst.height && j * h.rin == i * h.rout + dy
        invariant RowsDone(dst[..], src[..], g, w, h, j) && OnlyRows(first, dst[..], g.dst, j)
        decreases if dy < h.rout then h.rout - dy else 0
      {
        RowExists(g, h, i, j, dy);
        CellOf(h, i, dy, j);
        assert (j + 1) * h.rin == j * h.rin + h.rin;
        hide Cell, Offset;
        ghost var before := dst[..];
        DrawRow(src, dst, g, i, j, dy);
        RowFinished(first, before, dst[..], src[..], g, w, h, j);
        dy := dy + h.rin;
        j := j + 1;
      }
    }

    /** scaleAA, with h_ratio_in / h_ratio_out in h and w_ratio_in / w_ratio_out in w. */
    method ScaleAA(src: array<Pixel>, dst: array<Pixel>, g: Geo)
      requires Sizes(g, w, h)
      requires Holds(src.Length, g.src) && Holds(dst.Length, g.dst)
      requires src != dst && blendLine != src && blendLine != dst && blendLine.Length >= g.src.width
      modifies dst, blendLine
      ensures RowsDone(dst[..], src[..], g, w, h, g.dst.height)
      ensures OnlyRows(old(dst[..]), dst[..], g.dst, g.dst.height)
    {
      var dy: nat, j: nat := 0, 0;
      assert RowsDone(dst[..], src[..], g, w, h, 0) && OnlyRows(dst[..], dst[..], g.dst, 0);
      hide RowsDone, OnlyRows, Holds;
      for i := 0 to g.src.height
        invariant dy < h.rin && j <= g.dst.height && j * h.rin == i * h.rout + dy
        invariant RowsDone(dst[..], src[..], g, w, h, j)
        invariant OnlyRows(old(dst[..]), dst[..], g.dst, j)
      {
        dy, j := DrawRows(src, dst, g, i, j, dy, old(dst[..]));
        dy := dy - h.rout;
        assert (i + 1) * h.rout == i * h.rout + h.rout;
      }
      EndsAt(h, g.src.height, g.dst.height, j, dy);
    }
  }
}
