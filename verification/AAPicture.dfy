/** The picture scaleAA leaves in its target, as a formula for every channel of every pixel. */
module AAPicture {
  import opened Rows
  import opened AASpec
  import opened AABlend
  import opened AAScaler

  /** One channel of the source between rows i and i + 1 of column c, as target row j sees it. */
  function Between(e: Hue, s: seq<Pixel>, g: Geo, h: Axis, i: nat, c: nat, dy: nat): bv32
    requires Holds(|s|, g.src) && i < g.src.height && c < g.src.width
  {
    RowShade(h, dy, Level(e, SourcePixel(s, g, i, c)), Level(e, SourcePixel(s, g, i + 1, c)))
  }

  lemma LineShaded(e: Hue, s: seq<Pixel>, g: Geo, h: Axis, i: nat, c: nat, dy: nat)
    requires Zoned(h) && Holds(|s|, g.src) && i < g.src.height && c < g.src.width
    ensures Level(e, Line(s, g, h, i, dy)[c]) == Between(e, s, g, h, i, c, dy)
  {
    hide Line, Mix, Level, RowShade, Holds, SourcePixel;
    LineAt(s, g, h, i, dy, c);
    RowShaded(e, h, SourcePixel(s, g, i, c), SourcePixel(s, g, i + 1, c), dy);
  }

  /** Pixel (k, j) lies in source cell (c, i). Up to the reach of its line each of its channels is
      the shade, at its offset within the cell, of the two columns c and c + 1, each shaded between
      the rows i and i + 1. */
  lemma PictureShaded(e: Hue, d: seq<Pixel>, s: seq<Pixel>, g: Geo, w: Axis, h: Axis, j: nat, k: nat)
    requires Sizes(g, w, h) && Zoned(w) && Zoned(h) && Holds(|s|, g.src)
    requires Holds(|d|, g.dst) && j < g.dst.height && k < g.dst.width
    requires RowDone(d, s, g, w, h, j)
    requires var i, c := Source(g.src.height, g.dst.height, j), Source(g.src.width, g.dst.width, k);
             i < g.src.height && c + 1 < Reach(g, h, Offset(h, j))
    ensures var i, c, dy := Source(g.src.height, g.dst.height, j), Source(g.src.width, g.dst.width, k), Offset(h, j);
            Level(e, RowAt(d, g.dst, j)[k]) ==
            Shade(w, Offset(w, k), Between(e, s, g, h, i, c, dy), Between(e, s, g, h, i, c + 1, dy))
  {
    hide *;
    OffsetInside(g, w, h, k);
    var i, c, dy := Source(g.src.height, g.dst.height, j), Source(g.src.width, g.dst.width, k), Offset(h, j);
    PixelExact(d, s, g, w, h, j, k);
    LineShaded(e, s, g, h, i, c, dy);
    LineShaded(e, s, g, h, i, c + 1, dy);
    OutputShaded(e, w, Line(s, g, h, i, dy)[c], Line(s, g, h, i, dy)[c + 1], Offset(w, k));
  }

  lemma ColumnStart(w: Axis, l: seq<Pixel>, line: seq<Pixel>, n: nat, dst: nat, k: nat)
    requires |line| > 0 && Fits(w, |line|, dst) && Zoned(w) && k < dst && Begins(l, line, n)
    requires Source(|line|, dst, k) < n && Offset(w, k) <= w.bp0
    ensures |Row(w, l)| == dst && Row(w, l)[k] == line[Source(|line|, dst, k)]
  {
    hide Row, At, Cell, Offset, Source;
    RowExact(w, l, dst, k);
    var c := Source(|line|, dst, k);
    assert l[c] == l[..n][c] == line[c];
    LeftIsSource(w, l[c], l[c + 1], Offset(w, k));
  }

  /** Outputs up to the first bound of their column show the column itself, and the last column
      of the line is no exception: what lies behind it in memory does not matter to them. */
  lemma ColumnStartShaded(e: Hue, d: seq<Pixel>, s: seq<Pixel>, g: Geo, w: Axis, h: Axis, j: nat, k: nat)
    requires Sizes(g, w, h) && Zoned(w) && Zoned(h) && Holds(|s|, g.src)
    requires Holds(|d|, g.dst) && j < g.dst.height && k < g.dst.width
    requires RowDone(d, s, g, w, h, j) && Offset(w, k) <= w.bp0
    requires var i, c := Source(g.src.height, g.dst.height, j), Source(g.src.width, g.dst.width, k);
             i < g.src.height && c < Reach(g, h, Offset(h, j))
    ensures var i, c, dy := Source(g.src.height, g.dst.height, j), Source(g.src.width, g.dst.width, k), Offset(h, j);
            Level(e, RowAt(d, g.dst, j)[k]) == Between(e, s, g, h, i, c, dy)
  {
    var i, c, dy := Source(g.src.height, g.dst.height, j), Source(g.src.width, g.dst.width, k), Offset(h, j);
    CellIsFloor(h, g.src.height, g.dst.height, j);
    var line := Line(s, g, h, i, dy);
    var n := Reach(g, h, dy);
    var l: seq<Pixel> :| Begins(l, line, n) && RowAt(d, g.dst, j) == Row(w, l);
    hide *;
    OffsetInside(g, w, h, k);
    ColumnStart(w, l, line, n, g.dst.width, k);
    LineShaded(e, s, g, h, i, c, dy);
  }
}
