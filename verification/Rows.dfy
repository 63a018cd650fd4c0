/** Images as rows of pixels in one array: width pixels of every pitch are in use. */
module Rows {
  import opened Arith

  type Pixel = c: bv32 | c <= 0xFFFF witness 0

  datatype Grid = Grid(width: nat, height: nat, pitch: nat)

  /** n places are enough for every row of the grid. */
  predicate Holds(n: nat, g: Grid) {
    g.height > 0 ==> (g.height - 1) * g.pitch + g.width <= n
  }

  lemma RowInside(n: nat, g: Grid, j: nat)
    requires Holds(n, g) && j < g.height
    ensures j * g.pitch + g.width <= n
  {
    MulLe(j, g.height - 1, g.pitch);
  }

  function RowAt(d: seq<Pixel>, g: Grid, j: nat): (r: seq<Pixel>)
    requires Holds(|d|, g) && j < g.height
    ensures |r| == g.width
  {
    RowInside(|d|, g, j);
    d[j * g.pitch..j * g.pitch + g.width]
  }

  /** Does index p lie in one of the first n rows? */
  predicate InRows(g: Grid, p: nat, n: nat)
    requires g.pitch > 0
  {
    p / g.pitch < n && p % g.pitch < g.width
  }

  ghost predicate OnlyRow(d: seq<Pixel>, e: seq<Pixel>, g: Grid, j: nat)
    requires |d| == |e|
  {
    forall p :: 0 <= p < |d| && !(j * g.pitch <= p < j * g.pitch + g.width) ==> e[p] == d[p]
  }

  /** Nothing but the first n rows has changed. */
  ghost predicate OnlyRows(d: seq<Pixel>, e: seq<Pixel>, g: Grid, n: nat)
    requires |d| == |e| && g.pitch > 0
  {
    forall p :: 0 <= p < |d| && !InRows(g, p, n) ==> e[p] == d[p]
  }

  lemma OutsideMore(g: Grid, p: nat, j: nat)
    requires g.pitch > 0 && !InRows(g, p, j + 1) && g.width <= g.pitch
    ensures !InRows(g, p, j) && !(j * g.pitch <= p < j * g.pitch + g.width)
  {
    if j * g.pitch <= p < j * g.pitch + g.width { DivUnique(p, g.pitch, j); }
  }

  lemma OneMoreRow(first: seq<Pixel>, d: seq<Pixel>, e: seq<Pixel>, g: Grid, j: nat)
    requires |first| == |d| == |e| && g.pitch > 0 && g.width <= g.pitch
    requires OnlyRows(first, d, g, j) && OnlyRow(d, e, g, j)
    ensures OnlyRows(first, e, g, j + 1)
  {
    hide InRows;
    forall p | 0 <= p < |d| && !InRows(g, p, j + 1) ensures e[p] == first[p] { OutsideMore(g, p, j); }
  }

  lemma RowsApart(d: seq<Pixel>, e: seq<Pixel>, g: Grid, r: nat, j: nat)
    requires |d| == |e| && Holds(|d|, g) && r < j < g.height && g.width <= g.pitch
    requires OnlyRow(d, e, g, j)
    ensures RowAt(d, g, r) == RowAt(e, g, r)
  {
    RowInside(|d|, g, r);
    MulLe(r + 1, j, g.pitch);
    assert r * g.pitch + g.pitch == (r + 1) * g.pitch;
  }

  /** Exactly the stretch from at on has been overwritten, by row. */
  ghost predicate Wrote(d: seq<Pixel>, e: seq<Pixel>, at: nat, row: seq<Pixel>) {
    && |d| == |e| && at + |row| <= |d|
    && (forall i :: 0 <= i < |row| ==> e[at + i] == row[i])
    && (forall p :: 0 <= p < |d| && !(at <= p < at + |row|) ==> e[p] == d[p])
  }

  lemma WroteNothing(d: seq<Pixel>, at: nat)
    requires at <= |d|
    ensures Wrote(d, d, at, [])
  {
  }

  lemma WroteMore(d: seq<Pixel>, e: seq<Pixel>, f: seq<Pixel>, at: nat, x: seq<Pixel>, y: seq<Pixel>)
    requires Wrote(d, e, at, x) && Wrote(e, f, at + |x|, y)
    ensures Wrote(d, f, at, x + y)
  {
    forall i | 0 <= i < |x + y| ensures f[at + i] == (x + y)[i] {
      if i >= |x| { assert f[at + |x| + (i - |x|)] == y[i - |x|]; }
    }
  }

  /** Overwriting row j of a grid. */
  lemma WroteRow(d: seq<Pixel>, e: seq<Pixel>, g: Grid, j: nat, row: seq<Pixel>)
    requires Holds(|d|, g) && j < g.height && |row| == g.width && Wrote(d, e, j * g.pitch, row)
    ensures |d| == |e| && RowAt(e, g, j) == row && OnlyRow(d, e, g, j)
  {
  }
}
