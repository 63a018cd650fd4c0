/** Menu_scale of minarch.c: the nearest-neighbour preview, which copies the row above whenever
    the vertical walk stays on the same source row. */
module MenuScale {
  import opened Arith
  import opened Rows
  import opened FixedWalk
  import IntScaler

  /** The source rectangle at (srcX, srcY) of size sw x sh, shown at (rx, ry) of size rw x rh. */
  datatype View = View(srcX: nat, srcY: nat, sw: nat, sh: nat, rx: nat, ry: nat, rw: nat, rh: nat)

  /** Sizes whose 16.16 values an int holds, both rectangles inside their surfaces. */
  predicate Fits(v: View, sp: nat, slen: nat, f: Grid) {
    && 0 < v.sw && 0 < v.sh && 0 < v.rw && 0 < v.rh
    && v.srcX + v.sw < 0x8000 && v.srcY + v.sh < 0x8000 && v.srcX + v.sw <= sp
    && Holds(slen, Grid(v.srcX + v.sw, v.srcY + v.sh, sp))
    && f.width == f.pitch && v.rx + v.rw <= f.width && v.ry + v.rh <= f.height
  }

  /** The source row shown by row j of the view. */
  function SourceRow(v: View, j: nat): nat
    requires v.rh > 0
  {
    v.srcY + Walk(v.sh, v.rh, j)
  }

  /** The pixels of source row r that the view shows. */
  function Slice(s: seq<Pixel>, v: View, sp: nat, f: Grid, r: nat): (l: seq<Pixel>)
    requires Fits(v, sp, |s|, f) && r < v.srcY + v.sh
    ensures |l| == v.sw
  {
    RowInside(|s|, Grid(v.srcX + v.sw, v.srcY + v.sh, sp), r);
    s[r * sp + v.srcX..r * sp + v.srcX + v.sw]
  }

  /** What row j of the view must show. */
  function Content(s: seq<Pixel>, v: View, sp: nat, f: Grid, j: nat): (r: seq<Pixel>)
    requires Fits(v, sp, |s|, f) && j < v.rh
    ensures |r| == v.rw
  {
    WalkInRange(v.sh, v.rh, j);
    Walked(Slice(s, v, sp, f, SourceRow(v, j)), v.rw)
  }

  /** The first row of the run that shows the same source row as row j. */
  function RunStart(v: View, j: nat): (r: nat)
    requires v.rh > 0
    ensures r <= j && SourceRow(v, r) == SourceRow(v, j)
  {
    if j > 0 && SourceRow(v, j) == SourceRow(v, j - 1) then RunStart(v, j - 1) else j
  }

  function Painted(row: seq<Pixel>, v: View, content: seq<Pixel>): seq<Pixel>
    requires v.rx + |content| <= |row|
  {
    row[..v.rx] + content + row[v.rx + |content|..]
  }

  /** Row j of the view is drawn, and its margins are those the run's first row had. */
  predicate Shown(d0: seq<Pixel>, d: seq<Pixel>, s: seq<Pixel>, v: View, sp: nat, f: Grid, j: nat)
    requires Fits(v, sp, |s|, f) && Holds(|d0|, f) && Holds(|d|, f) && j < v.rh
  {
    RowAt(d, f, v.ry + j) == Painted(RowAt(d0, f, v.ry + RunStart(v, j)), v, Content(s, v, sp, f, j))
  }

  /** Rows outside the first n of the view are as they were. */
  predicate Outside(d0: seq<Pixel>, d: seq<Pixel>, v: View, f: Grid, n: nat)
    requires |d0| == |d| && Holds(|d|, f)
  {
    forall r :: 0 <= r < f.height && !(v.ry <= r < v.ry + n) ==> RowAt(d, f, r) == RowAt(d0, f, r)
  }

  predicate AllShown(d0: seq<Pixel>, d: seq<Pixel>, s: seq<Pixel>, v: View, sp: nat, f: Grid, n: nat)
    requires Fits(v, sp, |s|, f) && Holds(|d0|, f) && Holds(|d|, f) && n <= v.rh
  {
    forall j :: 0 <= j < n ==> Shown(d0, d, s, v, sp, f, j)
  }

  /** lr: the offset of the source row drawn last, -1 before the first. */
  predicate LastRow(v: View, sp: nat, j: nat, lr: int)
    requires v.rh > 0
  {
    lr == if j == 0 then -1 else SourceRow(v, j - 1) * sp
  }

  lemma SameRow(a: nat, b: nat, sp: nat)
    requires sp > 0
    ensures a * sp == b * sp <==> a == b
  {
    if a < b { MulLt(a, b, sp); }
    if b < a { MulLt(b, a, sp); }
  }

  /** The shortcut: copy the row above, margins and all. */
  method RepeatRow(dst: array<Pixel>, f: Grid, r: nat, dr: nat)
    requires Holds(dst.Length, f) && 0 < r < f.height && f.width == f.pitch && dr == r * f.pitch
    modifies dst
    ensures RowAt(dst[..], f, r) == old(RowAt(dst[..], f, r - 1)) && OnlyRow(old(dst[..]), dst[..], f, r)
  {
    RowInside(dst.Length, f, r);
    RowInside(dst.Length, f, r - 1);
    assert (r - 1) * f.pitch + f.pitch == dr;
    ghost var before := dst[..];
    assert before[dr - f.pitch..dr] == RowAt(before, f, r - 1);
    hide Wrote, OnlyRow, RowAt;
    IntScaler.Copy(dst, dr - f.pitch, dst, dr, f.pitch);
    WroteRow(before, dst[..], f, r, RowAt(before, f, r - 1));
  }

  lemma RepeatedIsShown(d0: seq<Pixel>, d: seq<Pixel>, e: seq<Pixel>, s: seq<Pixel>, v: View, sp: nat, f: Grid, j: nat)
    requires Fits(v, sp, |s|, f) && Holds(|d0|, f) && Holds(|d|, f) && |d| == |e| && 0 < j < v.rh
    requires SourceRow(v, j) == SourceRow(v, j - 1) && Shown(d0, d, s, v, sp, f, j - 1)
    requires RowAt(e, f, v.ry + j) == RowAt(d, f, v.ry + j - 1)
    ensures Shown(d0, e, s, v, sp, f, j)
  {
    assert RunStart(v, j) == RunStart(v, j - 1);
    assert Content(s, v, sp, f, j) == Content(s, v, sp, f, j - 1);
    hide RunStart, SourceRow, Content, RowAt, Painted;
  }

  /** Overwriting part of row r. */
  lemma WrotePart(d: seq<Pixel>, e: seq<Pixel>, f: Grid, v: View, r: nat, content: seq<Pixel>)
    requires Holds(|d|, f) && r < f.height && v.rx + |content| <= f.width
    requires Wrote(d, e, r * f.pitch + v.rx, content)
    ensures |d| == |e| && RowAt(e, f, r) == Painted(RowAt(d, f, r), v, content) && OnlyRow(d, e, f, r)
  {
    RowInside(|d|, f, r);
  }

  /** The inner loop: the view's part of target row r, from source row row. */
  method DrawRow(src: array<Pixel>, sp: nat, dst: array<Pixel>, f: Grid, v: View, row: nat, r: nat, dr: nat)
    requires src != dst && Fits(v, sp, src.Length, f) && Holds(dst.Length, f)
    requires row < v.srcY + v.sh && r < f.height && dr == r * f.pitch
    modifies dst
    ensures RowAt(dst[..], f, r) == Painted(old(RowAt(dst[..], f, r)), v, Walked(Slice(src[..], v, sp, f, row), v.rw))
    ensures OnlyRow(old(dst[..]), dst[..], f, r)
  {
    RowInside(dst.Length, f, r);
    RowInside(src.Length, Grid(v.srcX + v.sw, v.srcY + v.sh, sp), row);
    ghost var before := dst[..];
    var sr := row * sp;
    ghost var slice := Slice(src[..], v, sp, f, row);
    assert src[sr + v.srcX..sr + v.srcX + v.sw] == slice;
    hide Slice, RowAt, Walked, Holds, Wrote, OnlyRow, Painted;
    WalkRow(src, sr, v.srcX, v.sw, dst, dr + v.rx, v.rw);
    WrotePart(before, dst[..], f, v, r, Walked(slice, v.rw));
  }

  lemma DrawnIsShown(d0: seq<Pixel>, d: seq<Pixel>, e: seq<Pixel>, s: seq<Pixel>, v: View, sp: nat, f: Grid, j: nat)
    requires Fits(v, sp, |s|, f) && |d0| == |d| == |e| && Holds(|d|, f) && j < v.rh && SourceRow(v, j) < v.srcY + v.sh
    requires j > 0 ==> SourceRow(v, j) != SourceRow(v, j - 1)
    requires Outside(d0, d, v, f, j)
    requires RowAt(e, f, v.ry + j) ==
             Painted(RowAt(d, f, v.ry + j), v, Walked(Slice(s, v, sp, f, SourceRow(v, j)), v.rw))
    ensures Shown(d0, e, s, v, sp, f, j)
  {
    assert RowAt(d, f, v.ry + j) == RowAt(d0, f, v.ry + j) && RunStart(v, j) == j;
    hide RunStart, SourceRow, RowAt, Painted, Walked, Slice, Outside;
  }

  lemma OtherRow(d: seq<Pixel>, e: seq<Pixel>, f: Grid, r: nat, j: nat)
    requires |d| == |e| && Holds(|d|, f) && r < f.height && j < f.height && r != j && f.width <= f.pitch
    requires OnlyRow(d, e, f, j)
    ensures RowAt(e, f, r) == RowAt(d, f, r)
  {
    RowInside(|d|, f, r);
    if r < j { RowsApart(d, e, f, r, j); } else {
      MulLe(j + 1, r, f.pitch);
      assert j * f.pitch + f.pitch == (j + 1) * f.pitch;
    }
  }

  lemma RowKept(d0: seq<Pixel>, d: seq<Pixel>, e: seq<Pixel>, s: seq<Pixel>, sp: nat, f: Grid, v: View, j: nat)
    requires Fits(v, sp, |s|, f) && |d0| == |d| == |e| && Holds(|d|, f) && j < v.rh
    requires OnlyRow(d, e, f, v.ry + j) && Shown(d0, e, s, v, sp, f, j)
    requires Outside(d0, d, v, f, j)
    requires AllShown(d0, d, s, v, sp, f, j)
    ensures Outside(d0, e, v, f, j + 1) && AllShown(d0, e, s, v, sp, f, j + 1)
  {
    forall r | 0 <= r < f.height && r != v.ry + j ensures RowAt(e, f, r) == RowAt(d, f, r) {
      OtherRow(d, e, f, r, v.ry + j);
    }
    hide RowAt, Content, OnlyRow, RunStart, Painted;
    forall q | 0 <= q < j ensures Shown(d0, e, s, v, sp, f, q) { assert Shown(d0, d, s, v, sp, f, q); }
  }

  /** One round of the loop. */
  method NextRow(src: array<Pixel>, sp: nat, dst: array<Pixel>, f: Grid, v: View, j: nat, row: nat, lr: int, dr: nat,
                 ghost d0: seq<Pixel>) returns (sr: int)
    requires src != dst && Fits(v, sp, src.Length, f) && Holds(dst.Length, f) && |d0| == dst.Length
    requires j < v.rh && row == SourceRow(v, j) && dr == (v.ry + j) * f.pitch && LastRow(v, sp, j, lr)
    requires AllShown(d0, dst[..], src[..], v, sp, f, j) && Outside(d0, dst[..], v, f, j)
    modifies dst
    ensures LastRow(v, sp, j + 1, sr)
    ensures AllShown(d0, dst[..], src[..], v, sp, f, j + 1) && Outside(d0, dst[..], v, f, j + 1)
  {
    sr := row * sp;
    ghost var before := dst[..];
    if j > 0 {
      SameRow(row, SourceRow(v, j - 1), sp);
      assert Shown(d0, dst[..], src[..], v, sp, f, j - 1);
    }
    WalkInRange(v.sh, v.rh, j);
    assert row < v.srcY + v.sh;
    hide Shown, SourceRow, Outside, RowAt, OnlyRow, Painted, Walked, Slice, AllShown, Holds, Walk;
    if sr == lr {
      RepeatRow(dst, f, v.ry + j, dr);
      RepeatedIsShown(d0, before, dst[..], src[..], v, sp, f, j);
    } else {
      DrawRow(src, sp, dst, f, v, row, v.ry + j, dr);
      DrawnIsShown(d0, before, dst[..], src[..], v, sp, f, j);
    }
    RowKept(d0, before, dst[..], src[..], sp, f, v, j);
  }

  method Scale(src: array<Pixel>, sp: nat, dst: array<Pixel>, f: Grid, v: View)
    requires src != dst && Fits(v, sp, src.Length, f) && Holds(dst.Length, f)
    modifies dst
    ensures AllShown(old(dst[..]), dst[..], src[..], v, sp, f, v.rh)
    ensures Outside(old(dst[..]), dst[..], v, f, v.rh)
  {
    var my := Increment(v.sh, v.rh);
    var sy, lr, dr := v.srcY * ONE, -1, v.ry * f.pitch;
    for j := 0 to v.rh
      invariant sy == v.srcY * ONE + j * my && dr == (v.ry + j) * f.pitch
      invariant LastRow(v, sp, j, lr)
      invariant AllShown(old(dst[..]), dst[..], src[..], v, sp, f, j)
      invariant Outside(old(dst[..]), dst[..], v, f, j)
    {
      assert sy / ONE == SourceRow(v, j);
      assert (v.ry + j + 1) * f.pitch == dr + f.pitch;
      hide AllShown, Outside, SourceRow, LastRow, Holds;
      lr := NextRow(src, sp, dst, f, v, j, sy / ONE, lr, dr, old(dst[..]));
      sy := sy + my;
      dr := dr + f.pitch;
    }
  }

  lemma PaintedAt(row: seq<Pixel>, v: View, content: seq<Pixel>, i: nat)
    requires v.rx + |content| <= |row| && i < |content|
    ensures Painted(row, v, content)[v.rx + i] == content[i]
  {
  }

  /** The shortcut shows what recomputing would: pixel (i, j) of the view is the source pixel the
      two walks reach, whichever branch drew its row. */
  lemma ShortcutExact(d0: seq<Pixel>, d: seq<Pixel>, s: seq<Pixel>, v: View, sp: nat, f: Grid, i: nat, j: nat)
    requires Fits(v, sp, |s|, f) && Holds(|d0|, f) && Holds(|d|, f) && i < v.rw && j < v.rh
    requires Shown(d0, d, s, v, sp, f, j)
    ensures Walk(v.sw, v.rw, i) < v.sw && SourceRow(v, j) < v.srcY + v.sh
    ensures RowAt(d, f, v.ry + j)[v.rx + i] == Slice(s, v, sp, f, SourceRow(v, j))[Walk(v.sw, v.rw, i)]
  {
    WalkInRange(v.sw, v.rw, i);
    WalkInRange(v.sh, v.rh, j);
    var row := Content(s, v, sp, f, j);
    assert row[i] == Slice(s, v, sp, f, SourceRow(v, j))[Walk(v.sw, v.rw, i)];
    hide RowAt, Content, Walk, SourceRow, RunStart, Slice;
    PaintedAt(RowAt(d0, f, v.ry + RunStart(v, j)), v, row, i);
  }
}
