/** The C integer scalers of scaler.c: packed 32-bit kernels that must amount to plain pixel
    replication. Words are little-endian pairs of 16-bit pixels. */
module IntScaler {
  import opened Arith
  import opened Pixels
  import opened Rows
  import opened Seqs

  // ---- what replication means ----

  function Copies(p: Pixel, n: nat): seq<Pixel> {
    seq<Pixel>(n, i => p)
  }

  /** Every pixel of a row, n times. */
  function Stretch(row: seq<Pixel>, n: nat): seq<Pixel> {
    if row == [] then [] else Copies(row[0], n) + Stretch(row[1..], n)
  }

  lemma {:induction false} StretchLength(row: seq<Pixel>, n: nat)
    ensures |Stretch(row, n)| == |row| * n
  {
    if row != [] {
      StretchLength(row[1..], n);
      assert (|row| - 1) * n + n == |row| * n;
    }
  }

  /** Place i of a stretched row shows pixel i / n. */
  lemma {:induction false} StretchAt(row: seq<Pixel>, n: nat, i: nat)
    requires n > 0 && i < |row| * n
    ensures |Stretch(row, n)| == |row| * n && i / n < |row| && Stretch(row, n)[i] == row[i / n]
  {
    StretchLength(row, n);
    StretchLength(row[1..], n);
    if i < n {
      DivUnique(i, n, 0);
    } else {
      DivShift(i, n);
      assert (|row| - 1) * n + n == |row| * n;
      StretchAt(row[1..], n, i - n);
      assert Stretch(row, n)[i] == Stretch(row[1..], n)[i - n];
    }
  }

  lemma StretchHead(row: seq<Pixel>, n: nat)
    requires row != []
    ensures Stretch(row, n) == Copies(row[0], n) + Stretch(row[1..], n)
  {
  }

  lemma StretchPair(p: Pixel, q: Pixel, n: nat)
    ensures Stretch([p, q], n) == Copies(p, n) + Copies(q, n)
  {
    StretchHead([p, q], n);
    StretchHead([q], n);
    assert [p, q][1..] == [q] && [q][1..] == [];
    assert Stretch([], n) == [];
    hide *;
    assert Copies(q, n) + [] == Copies(q, n);
  }

  lemma StretchTwo(row: seq<Pixel>, n: nat)
    requires |row| >= 2
    ensures Stretch(row, n) == Stretch([row[0], row[1]], n) + Stretch(row[2..], n)
    ensures Stretch([row[0], row[1]], n) == Copies(row[0], n) + Copies(row[1], n)
  {
    hide *;
    StretchPair(row[0], row[1], n);
    StretchHead(row, n);
    StretchHead(row[1..], n);
    assert row[1..][1..] == row[2..];
    AppendAssoc(Copies(row[0], n), Copies(row[1], n), Stretch(row[2..], n));
  }

  // ---- kernels on packed words ----

  function Lefts(pix: bv32): bv32 { (pix & 0x0000_FFFF) | (pix << 16) }

  function Rights(pix: bv32): bv32 { (pix & 0xFFFF_0000) | (pix >> 16) }

  /** The words scale2x_c16 to scale6x_c16 store for one word of two source pixels. */
  function PairWords(n: nat, pix: bv32): seq<bv32>
    requires 2 <= n <= 6
  {
    var dpix1, dpix2 := Lefts(pix), Rights(pix);
    match n
    case 2 => [dpix1, dpix2]
    case 3 => [dpix1, pix, dpix2]
    case 4 => [dpix1, dpix1, dpix2, dpix2]
    case 5 => [dpix1, dpix1, pix, dpix2, dpix2]
    case 6 => [dpix1, dpix1, dpix1, dpix2, dpix2, dpix2]
  }

  /** The words they store for a last pixel without a partner; odd kernels add one pixel. */
  function TailWords(n: nat, p: Pixel): seq<bv32>
    requires 2 <= n <= 6
  {
    var dpix1 := Word(p, p);
    match n
    case 2 => [dpix1]
    case 3 => [dpix1]
    case 4 => [dpix1, dpix1]
    case 5 => [dpix1, dpix1]
    case 6 => [dpix1, dpix1, dpix1]
  }

  function Half(words: seq<bv32>, i: nat): Pixel
    requires i < 2 * |words|
  {
    HalvesSmall(words[i / 2]);
    if i % 2 == 0 then Lo(words[i / 2]) else Hi(words[i / 2])
  }

  /** Words as the pixels they are in memory. */
  function Unpack(words: seq<bv32>): (r: seq<Pixel>)
    ensures |r| == 2 * |words|
  {
    seq<Pixel>(2 * |words|, i requires 0 <= i < 2 * |words| => Half(words, i))
  }

  lemma LeftsTwice(pix: bv32)
    ensures Lo(Lefts(pix)) == Lo(pix) && Hi(Lefts(pix)) == Lo(pix)
  {
  }

  lemma RightsTwice(pix: bv32)
    ensures Lo(Rights(pix)) == Hi(pix) && Hi(Rights(pix)) == Hi(pix)
  {
  }

  /** Every kernel stores n copies of the left pixel, then n copies of the right one. */
  lemma PairIsStretch(n: nat, lo: Pixel, hi: Pixel)
    requires 2 <= n <= 6
    ensures Unpack(PairWords(n, Word(lo, hi))) == Copies(lo, n) + Copies(hi, n)
  {
    var pix := Word(lo, hi);
    LeftsTwice(pix);
    RightsTwice(pix);
    WordHalves(lo, hi);
    hide Lefts, Rights, Lo, Hi, Word;
  }

  /** The pixels of an odd tail. */
  function Tail(n: nat, p: Pixel): seq<Pixel>
    requires 2 <= n <= 6
  {
    Unpack(TailWords(n, p)) + if n % 2 == 1 then [p] else []
  }

  lemma TailIsStretch(n: nat, p: Pixel)
    requires 2 <= n <= 6
    ensures Tail(n, p) == Copies(p, n)
  {
    WordHalves(p, p);
    hide Lo, Hi, Word;
  }

  // ---- rows ----

  method StoreWords(dst: array<Pixel>, at: nat, words: seq<bv32>)
    requires at + 2 * |words| <= dst.Length
    modifies dst
    ensures Wrote(old(dst[..]), dst[..], at, Unpack(words))
  {
    ghost var row := Unpack(words);
    for k := 0 to |words|
      invariant forall i :: 0 <= i < 2 * k ==> dst[at + i] == row[i]
      invariant forall p :: 0 <= p < dst.Length && !(at <= p < at + 2 * k) ==> dst[p] == old(dst[p])
    {
      HalvesSmall(words[k]);
      assert row[2 * k] == Lo(words[k]) && row[2 * k + 1] == Hi(words[k]);
      hide Lo, Hi, Unpack;
      dst[at + 2 * k] := Lo(words[k]);
      dst[at + 2 * k + 1] := Hi(words[k]);
    }
  }

  /** memcpy of len pixels. */
  method Copy(from: array<Pixel>, off: nat, dst: array<Pixel>, at: nat, len: nat)
    requires off + len <= from.Length && at + len <= dst.Length && (from == dst ==> off + len <= at)
    modifies dst
    ensures Wrote(old(dst[..]), dst[..], at, old(from[off..off + len]))
  {
    ghost var row := from[off..off + len];
    for i := 0 to len
      invariant forall j :: 0 <= j < i ==> dst[at + j] == row[j]
      invariant forall j :: i <= j < len ==> from[off + j] == row[j]
      invariant forall p :: 0 <= p < dst.Length && !(at <= p < at + i) ==> dst[p] == old(dst[p])
    {
      dst[at + i] := from[off + i];
    }
  }

  lemma PairFits(n: nat, pix: bv32)
    requires 2 <= n <= 6
    ensures |PairWords(n, pix)| == n
  {
  }

  method StorePair(n: nat, lo: Pixel, hi: Pixel, dst: array<Pixel>, at: nat)
    requires 2 <= n <= 6 && at + 2 * n <= dst.Length
    modifies dst
    ensures Wrote(old(dst[..]), dst[..], at, Stretch([lo, hi], n))
  {
    var pix := Word(lo, hi);
    PairFits(n, pix);
    PairIsStretch(n, lo, hi);
    StretchTwo([lo, hi], n);
    hide *;
    StoreWords(dst, at, PairWords(n, pix));
  }

  method StoreTail(n: nat, p: Pixel, dst: array<Pixel>, at: nat)
    requires 2 <= n <= 6 && at + n <= dst.Length
    modifies dst
    ensures Wrote(old(dst[..]), dst[..], at, Stretch([p], n))
  {
    TailIsStretch(n, p);
    assert Stretch([p], n) == Copies(p, n);
    StoreWords(dst, at, TailWords(n, p));
    hide Unpack, Stretch, Copies;
    if n % 2 == 1 {
      dst[at + n - 1] := p;
    }
  }

  lemma StretchNone(row: seq<Pixel>, n: nat)
    requires |row| == 0
    ensures Stretch(row, n) == []
  {
  }

  /** m pixels further along a row. */
  lemma Onward(done: seq<Pixel>, rest: seq<Pixel>, m: nat, n: nat, all: seq<Pixel>)
    requires 1 <= m <= 2 && m <= |rest| && (m == 1 ==> |rest| == 1) && done + Stretch(rest, n) == all
    ensures done + Stretch(rest[..m], n) + Stretch(rest[m..], n) == all
    ensures m == 2 ==> rest[..m] == [rest[0], rest[1]]
    ensures |Stretch(rest[..m], n)| == m * n && |done| + m * n <= |all|
  {
    StretchLength(rest[..m], n);
    if m == 2 {
      StretchTwo(rest, n);
      assert rest[..m] == [rest[0], rest[1]];
      hide *;
      AppendAssoc(done, Stretch(rest[..m], n), Stretch(rest[m..], n));
    } else {
      StretchNone(rest[1..], n);
      hide *;
      assert rest[..1] == rest;
    }
  }

  method NextPair(n: nat, lo: Pixel, hi: Pixel, dst: array<Pixel>, at: nat, dx: nat, ghost done: seq<Pixel>,
                  ghost rest: seq<Pixel>, ghost all: seq<Pixel>, ghost first: seq<Pixel>)
    returns (ghost done': seq<Pixel>, ghost rest': seq<Pixel>)
    requires 2 <= n <= 6 && |rest| >= 2 && lo == rest[0] && hi == rest[1]
    requires |done| == 2 * dx && done + Stretch(rest, n) == all && at + |all| <= dst.Length
    requires Wrote(first, dst[..], at, done)
    modifies dst
    ensures |done'| == 2 * (dx + n) && rest' == rest[2..] && done' + Stretch(rest', n) == all
    ensures Wrote(first, dst[..], at, done')
  {
    hide *;
    ghost var before := dst[..];
    ghost var two := [lo, hi];
    Onward(done, rest, 2, n, all);
    StorePair(n, lo, hi, dst, at + 2 * dx);
    WroteMore(first, before, dst[..], at, done, Stretch(two, n));
    done', rest' := done + Stretch(two, n), rest[2..];
  }

  method LastPixel(n: nat, p: Pixel, dst: array<Pixel>, at: nat, dx: nat, ghost done: seq<Pixel>,
                   ghost rest: seq<Pixel>, ghost all: seq<Pixel>, ghost first: seq<Pixel>)
    requires 2 <= n <= 6 && rest == [p]
    requires |done| == 2 * dx && done + Stretch(rest, n) == all && at + |all| <= dst.Length
    requires Wrote(first, dst[..], at, done)
    modifies dst
    ensures Wrote(first, dst[..], at, all)
  {
    hide *;
    ghost var before := dst[..];
    Onward(done, rest, 1, n, all);
    assert rest[..1] == rest;
    StoreTail(n, p, dst, at + 2 * dx);
    WroteMore(first, before, dst[..], at, done, Stretch(rest, n));
  }

  lemma NextTwo(row: seq<Pixel>, i: nat)
    requires i + 2 <= |row|
    ensures row[i..][0] == row[i] && row[i..][1] == row[i + 1] && row[i..][2..] == row[i + 2..]
  {
  }

  /** One row of scale2x_c16 to scale6x_c16, the odd last pixel included. */
  method ScaleRow(n: nat, src: array<Pixel>, off: nat, sw: nat, dst: array<Pixel>, at: nat)
    requires 2 <= n <= 6 && off + sw <= src.Length && src != dst
    requires at + |Stretch(src[off..off + sw], n)| <= dst.Length
    modifies dst
    ensures Wrote(old(dst[..]), dst[..], at, Stretch(src[off..off + sw], n))
  {
    hide *;
    var x, dx := 0, 0;
    ghost var row := src[off..off + sw];
    ghost var all, done, rest := Stretch(row, n), [], row;
    assert [] + all == all && row[0..] == row;
    WroteNothing(dst[..], at);
    while x < sw / 2
      invariant x <= sw / 2 && |done| == 2 * dx
      invariant rest == row[2 * x..] && done + Stretch(rest, n) == all
      invariant Wrote(old(dst[..]), dst[..], at, done)
    {
      NextTwo(row, 2 * x);
      done, rest := NextPair(n, src[off + 2 * x], src[off + 2 * x + 1], dst, at, dx, done, rest, all, old(dst[..]));
      x, dx := x + 1, dx + n;
    }
    if sw % 2 == 1 {
      LastPixel(n, src[off + 2 * x], dst, at, dx, done, rest, all, old(dst[..]));
    } else {
      StretchNone(rest, n);
      assert done + [] == done;
    }
  }

  // ---- images ----

  ghost predicate ShowsRow(d: seq<Pixel>, s: seq<Pixel>, g: Grid, t: Grid, xmul: nat, ymul: nat, r: nat)
    requires Holds(|s|, g) && Holds(|d|, t) && ymul > 0 && r < t.height <= g.height * ymul
  {
    DivBound(r, ymul, g.height);
    RowAt(d, t, r) == Stretch(RowAt(s, g, r / ymul), xmul)
  }

  /** The first n target rows show the source rows, each ymul times and stretched by xmul. */
  ghost predicate Shows(d: seq<Pixel>, s: seq<Pixel>, g: Grid, t: Grid, xmul: nat, ymul: nat, n: nat)
    requires Holds(|s|, g) && Holds(|d|, t) && ymul > 0 && n <= t.height <= g.height * ymul
  {
    forall r :: 0 <= r < n ==> ShowsRow(d, s, g, t, xmul, ymul, r)
  }

  /** Then target pixel (c, r) is source pixel (c / xmul, r / ymul). */
  lemma PixelReplicated(d: seq<Pixel>, s: seq<Pixel>, g: Grid, t: Grid, xmul: nat, ymul: nat, r: nat, c: nat)
    requires Holds(|s|, g) && Holds(|d|, t) && xmul > 0 && ymul > 0
    requires r < t.height == g.height * ymul && c < t.width == g.width * xmul
    requires Shows(d, s, g, t, xmul, ymul, t.height)
    ensures r / ymul < g.height && c / xmul < g.width
    ensures RowAt(d, t, r)[c] == RowAt(s, g, r / ymul)[c / xmul]
  {
    DivBound(r, ymul, g.height);
    assert ShowsRow(d, s, g, t, xmul, ymul, r);
    hide RowAt;
    StretchAt(RowAt(s, g, r / ymul), xmul, c);
  }

  /** One more row shown, the rows before it untouched. */
  lemma RowShown(d: seq<Pixel>, e: seq<Pixel>, s: seq<Pixel>, g: Grid, t: Grid, xmul: nat, ymul: nat, r: nat)
    requires Holds(|s|, g) && Holds(|d|, t) && |d| == |e| && ymul > 0 && r < t.height <= g.height * ymul
    requires t.width <= t.pitch && Shows(d, s, g, t, xmul, ymul, r)
    requires OnlyRow(d, e, t, r) && ShowsRow(e, s, g, t, xmul, ymul, r)
    ensures Shows(e, s, g, t, xmul, ymul, r + 1)
  {
    forall q | 0 <= q < r ensures ShowsRow(e, s, g, t, xmul, ymul, q) {
      assert ShowsRow(d, s, g, t, xmul, ymul, q);
      hide RowAt, OnlyRow, Stretch;
      RowsApart(d, e, t, q, r);
    }
  }

  /** The part of a source row that is copied, and where it goes: the target pitch defaults to
      the scaled width, the source pitch to the width, and 1x copies clip to the target pitch. */
  function Source(xmul: nat, sw: nat, sh: nat, sp: nat, dp: nat): Grid {
    Grid(if xmul == 1 && dp != 0 && sw > dp then dp else sw, sh, if sp == 0 then sw else sp)
  }

  function Target(xmul: nat, ymul: nat, sw: nat, sh: nat, sp: nat, dp: nat): Grid {
    Grid(Source(xmul, sw, sh, sp, dp).width * xmul, sh * ymul, if dp == 0 then sw * xmul else dp)
  }

  /** The functions of the dispatch table that are not the dummy. */
  predicate Supported(xmul: nat, ymul: nat) {
    1 <= xmul <= 6 && 1 <= ymul <= (if xmul <= 4 then 4 else xmul)
  }

  /** The outcome of a supported call. */
  ghost predicate Scaled(before: seq<Pixel>, d: seq<Pixel>, s: seq<Pixel>, g: Grid, t: Grid, xmul: nat, ymul: nat)
    requires Holds(|s|, g) && Holds(|d|, t) && ymul > 0 && t.height == g.height * ymul
  {
    && |before| == |d|
    && Shows(d, s, g, t, xmul, ymul, t.height)
    && (t.pitch > 0 ==> OnlyRows(before, d, t, t.height))
  }

  function RowStart(g: Grid, r: nat): nat { r * g.pitch }

  /** Writing target row r + i, where r is the first one that shows source row y. */
  lemma Extend(first: seq<Pixel>, d: seq<Pixel>, e: seq<Pixel>, s: seq<Pixel>, g: Grid, t: Grid,
               xmul: nat, ymul: nat, y: nat, r: nat, i: nat)
    requires Holds(|s|, g) && Holds(|d|, t) && |first| == |d| && i < ymul && y < g.height && r == y * ymul
    requires t.height == g.height * ymul && t.width == g.width * xmul && t.width <= t.pitch && t.pitch > 0
    requires r + i < t.height && Shows(d, s, g, t, xmul, ymul, r + i) && OnlyRows(first, d, t, r + i)
    requires Wrote(d, e, RowStart(t, r + i), Stretch(RowAt(s, g, y), xmul))
    ensures |d| == |e| && Shows(e, s, g, t, xmul, ymul, r + i + 1) && OnlyRows(first, e, t, r + i + 1)
  {
    DivUnique(r + i, ymul, y);
    StretchLength(RowAt(s, g, y), xmul);
    WroteRow(d, e, t, r + i, Stretch(RowAt(s, g, y), xmul));
    assert ShowsRow(e, s, g, t, xmul, ymul, r + i);
    hide *;
    RowShown(d, e, s, g, t, xmul, ymul, r + i);
    OneMoreRow(first, d, e, t, r + i);
  }

  lemma RowExists(y: nat, i: nat, sh: nat, ymul: nat)
    requires y < sh && i < ymul
    ensures y * ymul + i < sh * ymul && (y + 1) * ymul == y * ymul + ymul
  {
    MulLe(y + 1, sh, ymul);
  }

  lemma NextRow(g: Grid, r: nat)
    ensures RowStart(g, r + 1) == RowStart(g, r) + g.pitch
  {
  }

  lemma Finished(before: seq<Pixel>, d: seq<Pixel>, s: seq<Pixel>, g: Grid, t: Grid, xmul: nat, ymul: nat)
    requires Holds(|s|, g) && Holds(|d|, t) && ymul > 0 && t.height == g.height * ymul
    requires |before| == |d| && t.pitch > 0
    requires Shows(d, s, g, t, xmul, ymul, t.height) && OnlyRows(before, d, t, t.height)
    ensures Scaled(before, d, s, g, t, xmul, ymul)
  {
  }

  lemma DrawnRow(d: seq<Pixel>, e: seq<Pixel>, at: nat, row: seq<Pixel>)
    requires Wrote(d, e, at, row)
    ensures at + |row| <= |e| && e[at..at + |row|] == row
  {
  }

  lemma Untouched(d: seq<Pixel>, e: seq<Pixel>, at: nat, row: seq<Pixel>, from: nat, len: nat)
    requires Wrote(d, e, at, row) && from + len <= at && from + len <= |d|
    ensures e[from..from + len] == d[from..from + len]
  {
  }

  method CopyRow(n: nat, ymul: nat, src: array<Pixel>, dst: array<Pixel>, d0: nat, d: nat, g: Grid, t: Grid,
                 y: nat, ghost r: nat, ghost i: nat, ghost row: seq<Pixel>, ghost first: seq<Pixel>) returns (next: nat)
    requires src != dst && y < g.height && i < ymul && |first| == dst.Length && n > 0
    requires t.height == g.height * ymul && t.width == g.width * n && t.width <= t.pitch && t.pitch > 0
    requires Holds(src.Length, g) && Holds(dst.Length, t) && row == RowAt(src[..], g, y)
    requires r == y * ymul && r + i < t.height && d == RowStart(t, r + i)
    requires d0 + t.width <= d && d0 + t.width <= dst.Length && dst[d0..d0 + t.width] == Stretch(row, n)
    requires Shows(dst[..], src[..], g, t, n, ymul, r + i) && OnlyRows(first, dst[..], t, r + i)
    modifies dst
    ensures next == RowStart(t, r + i + 1)
    ensures d0 + t.width <= next && dst[d0..d0 + t.width] == Stretch(row, n)
    ensures Shows(dst[..], src[..], g, t, n, ymul, r + i + 1) && OnlyRows(first, dst[..], t, r + i + 1)
  {
    RowInside(dst.Length, t, r + i);
    NextRow(t, r + i);
    hide *;
    ghost var before := dst[..];
    Copy(dst, d0, dst, d, t.width);
    Extend(first, before, dst[..], src[..], g, t, n, ymul, y, r, i);
    Untouched(before, dst[..], d, Stretch(row, n), d0, t.width);
    next := d + t.pitch;
  }

  /** One source row: the kernel, then ymul - 1 copies of the row it drew. */
  method ReplicateRow(n: nat, ymul: nat, src: array<Pixel>, s: nat, dst: array<Pixel>, d0: nat, g: Grid, t: Grid,
                      y: nat, ghost r: nat, ghost first: seq<Pixel>) returns (d: nat)
    requires 2 <= n <= 6 && ymul > 0 && src != dst && y < g.height && |first| == dst.Length
    requires t.height == g.height * ymul && t.width == g.width * n && t.width <= t.pitch && t.pitch > 0
    requires Holds(src.Length, g) && Holds(dst.Length, t) && s == RowStart(g, y)
    requires r == y * ymul && r + ymul <= t.height && d0 == RowStart(t, r)
    requires Shows(dst[..], src[..], g, t, n, ymul, r) && OnlyRows(first, dst[..], t, r)
    modifies dst
    ensures d == RowStart(t, r + ymul)
    ensures Shows(dst[..], src[..], g, t, n, ymul, r + ymul) && OnlyRows(first, dst[..], t, r + ymul)
  {
    RowInside(src.Length, g, y);
    RowInside(dst.Length, t, r);
    ghost var row := src[s..s + g.width];
    assert row == RowAt(src[..], g, y);
    StretchLength(row, n);
    hide *;
    ghost var before := dst[..];
    ScaleRow(n, src, s, g.width, dst, d0);
    Extend(first, before, dst[..], src[..], g, t, n, ymul, y, r, 0);
    DrawnRow(before, dst[..], d0, Stretch(row, n));
    NextRow(t, r);
    d := d0 + t.pitch;
    for i := 1 to ymul
      invariant d == RowStart(t, r + i) && d0 + t.width <= d && d0 + t.width <= dst.Length
      invariant dst[d0..d0 + t.width] == Stretch(row, n)
      invariant Shows(dst[..], src[..], g, t, n, ymul, r + i) && OnlyRows(first, dst[..], t, r + i)
    {
      d := CopyRow(n, ymul, src, dst, d0, d, g, t, y, r, i, row, first);
    }
  }

  method ReplicateRows(n: nat, ymul: nat, src: array<Pixel>, dst: array<Pixel>, g: Grid, t: Grid)
    requires 2 <= n <= 6 && ymul > 0 && src != dst && Holds(src.Length, g) && Holds(dst.Length, t)
    requires t.height == g.height * ymul && t.width == g.width * n && t.width <= t.pitch && t.pitch > 0
    modifies dst
    ensures Shows(dst[..], src[..], g, t, n, ymul, t.height) && OnlyRows(old(dst[..]), dst[..], t, t.height)
  {
    assert RowStart(g, 0) == RowStart(t, 0) == 0;
    hide *;
    var s, d := 0, 0;
    ghost var r := 0;
    for y := 0 to g.height
      invariant s == RowStart(g, y) && r == y * ymul && d == RowStart(t, r) && r <= t.height
      invariant Shows(dst[..], src[..], g, t, n, ymul, r) && OnlyRows(old(dst[..]), dst[..], t, r)
    {
      RowExists(y, 0, g.height, ymul);
      d := ReplicateRow(n, ymul, src, s, dst, d, g, t, y, r, old(dst[..]));
      NextRow(g, y);
      s := s + g.pitch;
      r := r + ymul;
    }
  }

  /** scale2x_c16 to scale6x_c16. */
  method ScaleNx(n: nat, ymul: nat, src: array<Pixel>, dst: array<Pixel>, sw: nat, sh: nat, sp0: nat, dp0: nat)
    requires 2 <= n <= 6 && ymul > 0 && sw > 0 && sh > 0 && src != dst
    requires Holds(src.Length, Source(n, sw, sh, sp0, dp0))
    requires var t := Target(n, ymul, sw, sh, sp0, dp0); Holds(dst.Length, t) && t.width <= t.pitch
    modifies dst
    ensures Scaled(old(dst[..]), dst[..], src[..],
                   Source(n, sw, sh, sp0, dp0), Target(n, ymul, sw, sh, sp0, dp0), n, ymul)
  {
    var sp := if sp0 == 0 then sw else sp0;
    var dp := if dp0 == 0 then sw * n else dp0;
    var g, t := Grid(sw, sh, sp), Grid(sw * n, sh * ymul, dp);
    assert g == Source(n, sw, sh, sp0, dp0) && t == Target(n, ymul, sw, sh, sp0, dp0) && t.pitch > 0;
    hide *;
    ReplicateRows(n, ymul, src, dst, g, t);
    Finished(old(dst[..]), dst[..], src[..], g, t, n, ymul);
  }

  // ---- scale1x_c16 ----

  lemma {:induction false} StretchOnce(row: seq<Pixel>)
    ensures Stretch(row, 1) == row
  {
    if row != [] {
      StretchOnce(row[1..]);
      assert Copies(row[0], 1) == [row[0]];
      hide *;
      assert row == [row[0]] + row[1..];
    }
  }

  lemma AllShown(d: seq<Pixel>, s: seq<Pixel>, g: Grid)
    requires Holds(|s|, g) && Holds(|d|, g)
    requires forall r :: 0 <= r < g.height ==> ShowsRow(d, s, g, g, 1, 1, r)
    ensures Shows(d, s, g, g, 1, 1, g.height)
  {
  }

  lemma SameSlice(before: seq<Pixel>, d: seq<Pixel>, s: seq<Pixel>, n: nat, at: nat, w: nat)
    requires n <= |s| && Wrote(before, d, 0, s[0..n]) && at + w <= n
    ensures at + w <= |d| == |before| && d[at..at + w] == s[at..at + w]
  {
  }

  lemma CopiedRow(before: seq<Pixel>, d: seq<Pixel>, s: seq<Pixel>, g: Grid, r: nat)
    requires g.width == g.pitch && r < g.height && Holds(|s|, g) && Holds(|before|, g)
    requires g.pitch * g.height <= |s| && Wrote(before, d, 0, s[0..g.pitch * g.height])
    ensures |d| == |before| && ShowsRow(d, s, g, g, 1, 1, r)
  {
    RowInside(|s|, g, r);
    MulLe(r + 1, g.height, g.pitch);
    assert (r + 1) * g.pitch == r * g.pitch + g.pitch && r / 1 == r;
    SameSlice(before, d, s, g.pitch * g.height, r * g.pitch, g.width);
    StretchOnce(RowAt(s, g, r));
    hide Stretch, Wrote;
  }

  /** One memcpy of all rows, when they lie side by side in source and target alike. */
  lemma CopiedWhole(before: seq<Pixel>, d: seq<Pixel>, s: seq<Pixel>, g: Grid)
    requires g.width == g.pitch > 0 && g.height > 0 && Holds(|s|, g) && Holds(|before|, g)
    requires g.pitch * g.height <= |s| && Wrote(before, d, 0, s[0..g.pitch * g.height])
    ensures |d| == |before| && Scaled(before, d, s, g, g, 1, 1)
  {
    forall r | 0 <= r < g.height ensures ShowsRow(d, s, g, g, 1, 1, r) { CopiedRow(before, d, s, g, r); }
    forall p | 0 <= p < |d| && !InRows(g, p, g.height) ensures d[p] == before[p] {
      DivBound(p, g.pitch, g.height);
    }
    assert OnlyRows(before, d, g, g.height);
    hide *;
    Finished(before, d, s, g, g, 1, 1) by { AllShown(d, s, g); }
  }

  lemma RowFits(n: nat, t: Grid, r: nat)
    requires Holds(n, t) && r < t.height
    ensures RowStart(t, r) + t.width <= n
  {
    RowInside(n, t, r);
  }

  /** One source row, copied ymul times. */
  method CopyTimes(ymul: nat, src: array<Pixel>, s: nat, dst: array<Pixel>, d0: nat, g: Grid, t: Grid,
                   y: nat, ghost r: nat, ghost first: seq<Pixel>) returns (d: nat)
    requires ymul > 0 && src != dst && y < g.height && |first| == dst.Length
    requires t.height == g.height * ymul && t.width == g.width && t.width <= t.pitch && t.pitch > 0
    requires Holds(src.Length, g) && Holds(dst.Length, t) && s == RowStart(g, y)
    requires r == y * ymul && r + ymul <= t.height && d0 == RowStart(t, r)
    requires Shows(dst[..], src[..], g, t, 1, ymul, r) && OnlyRows(first, dst[..], t, r)
    modifies dst
    ensures d == RowStart(t, r + ymul)
    ensures Shows(dst[..], src[..], g, t, 1, ymul, r + ymul) && OnlyRows(first, dst[..], t, r + ymul)
  {
    RowInside(src.Length, g, y);
    assert src[s..s + g.width] == RowAt(src[..], g, y);
    StretchOnce(src[s..s + g.width]);
    d := d0;
    for i := 0 to ymul
      invariant d == RowStart(t, r + i)
      invariant Shows(dst[..], src[..], g, t, 1, ymul, r + i) && OnlyRows(first, dst[..], t, r + i)
    {
      RowFits(dst.Length, t, r + i);
      hide *;
      ghost var before := dst[..];
      Copy(src, s, dst, d, g.width);
      Extend(first, before, dst[..], src[..], g, t, 1, ymul, y, r, i);
      NextRow(t, r + i);
      d := d + t.pitch;
    }
  }

  method CopyAll(ymul: nat, src: array<Pixel>, dst: array<Pixel>, g: Grid, t: Grid)
    requires ymul > 0 && src != dst && Holds(src.Length, g) && Holds(dst.Length, t)
    requires t.height == g.height * ymul && t.width == g.width && t.width <= t.pitch && t.pitch > 0
    modifies dst
    ensures Shows(dst[..], src[..], g, t, 1, ymul, t.height) && OnlyRows(old(dst[..]), dst[..], t, t.height)
  {
    assert RowStart(g, 0) == RowStart(t, 0) == 0;
    hide *;
    var s, d := 0, 0;
    ghost var r := 0;
    for y := 0 to g.height
      invariant s == RowStart(g, y) && r == y * ymul && d == RowStart(t, r) && r <= t.height
      invariant Shows(dst[..], src[..], g, t, 1, ymul, r) && OnlyRows(old(dst[..]), dst[..], t, r)
    {
      RowExists(y, 0, g.height, ymul);
      d := CopyTimes(ymul, src, s, dst, d, g, t, y, r, old(dst[..]));
      NextRow(g, y);
      s := s + g.pitch;
      r := r + ymul;
    }
  }

  method Scale1x(ymul: nat, src: array<Pixel>, dst: array<Pixel>, sw: nat, sh: nat, sp0: nat, dp0: nat)
    requires ymul > 0 && sw > 0 && sh > 0 && src != dst
    requires Holds(src.Length, Source(1, sw, sh, sp0, dp0)) && Holds(dst.Length, Target(1, ymul, sw, sh, sp0, dp0))
    modifies dst
    ensures Scaled(old(dst[..]), dst[..], src[..],
                   Source(1, sw, sh, sp0, dp0), Target(1, ymul, sw, sh, sp0, dp0), 1, ymul)
  {
    var sp := if sp0 == 0 then sw else sp0;
    var dp := if dp0 == 0 then sw else dp0;
    var swl := if sw > dp then dp else sw;
    var g, t := Grid(swl, sh, sp), Grid(swl, sh * ymul, dp);
    assert g == Source(1, sw, sh, sp0, dp0) && t == Target(1, ymul, sw, sh, sp0, dp0) && t.pitch > 0;
    if ymul == 1 && sw == sp && sp == dp {
      hide Source, Target, Scaled;
      assert sh * ymul == sh && (sh - 1) * sp + sp == sp * sh;
      ghost var before := dst[..];
      Copy(src, 0, dst, 0, sp * sh);
      CopiedWhole(before, dst[..], src[..], g);
      return;
    }
    hide *;
    CopyAll(ymul, src, dst, g, t);
    Finished(old(dst[..]), dst[..], src[..], g, t, 1, ymul);
  }

  // ---- the dispatch ----

  /** Decrement of a uint32_t. */
  function Decrement(n: nat): (r: nat)
    ensures n < 0x1_0000_0000 ==> r < 0x1_0000_0000 && (r + 1) % 0x1_0000_0000 == n
  {
    if n == 0 then 0xFFFF_FFFF else n - 1
  }

  /** scaler_c16: multipliers outside the table, or empty sources, leave the target unchanged. */
  method Scaler(xmul: nat, ymul: nat, src: array<Pixel>, dst: array<Pixel>, sw: nat, sh: nat, sp: nat, dp: nat)
    requires src != dst
    requires Supported(xmul, ymul) && sw > 0 && sh > 0 ==>
               && Holds(src.Length, Source(xmul, sw, sh, sp, dp))
               && Holds(dst.Length, Target(xmul, ymul, sw, sh, sp, dp))
               && Target(xmul, ymul, sw, sh, sp, dp).width <= Target(xmul, ymul, sw, sh, sp, dp).pitch
    modifies dst
    ensures if Supported(xmul, ymul) && sw > 0 && sh > 0
            then Scaled(old(dst[..]), dst[..], src[..],
                        Source(xmul, sw, sh, sp, dp), Target(xmul, ymul, sw, sh, sp, dp), xmul, ymul)
            else dst[..] == old(dst[..])
  {
    var x, y := Decrement(xmul), Decrement(ymul);
    if x < 6 && y < 6 {
      // four real entries in the rows of 1x to 4x, five in that of 5x, six in that of 6x
      var entries := if x < 4 then 4 else x + 1;
      if y < entries && sw != 0 && sh != 0 {
        hide Source, Target, Scaled, Holds;
        if x == 0 {
          Scale1x(ymul, src, dst, sw, sh, sp, dp);
        } else {
          ScaleNx(xmul, ymul, src, dst, sw, sh, sp, dp);
        }
      }
    }
  }
}
