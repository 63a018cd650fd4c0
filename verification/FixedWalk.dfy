/** The 16.16 fixed-point nearest-neighbour walk that the art fitter and the menu preview share. */
module FixedWalk {
  import opened Arith
  import opened Rows

  const ONE: nat := 0x1_0000

  /** The increment per target pixel, in 32-bit unsigned arithmetic. */
  function Increment(n: nat, t: nat): nat
    requires t > 0
  {
    n * ONE % 0x1_0000_0000 / t
  }

  /** The source index of target index i of t, over n source pixels. */
  function Walk(n: nat, t: nat, i: nat): nat
    requires t > 0
  {
    i * Increment(n, t) / ONE
  }

  lemma IncrementBounds(n: nat, t: nat)
    requires t > 0
    ensures Increment(n, t) * t <= n * ONE && Increment(n, t) * t < 0x1_0000_0000
    ensures n < ONE ==> n * ONE < Increment(n, t) * t + t
  {
    var m := n * ONE % 0x1_0000_0000;
    assert m / t * t <= m < m / t * t + t;
    assert m <= n * ONE;
  }

  lemma Commute(a: int, b: int)
    ensures a * b == b * a
  {
  }

  lemma BelowCell(a: nat, n: nat)
    requires a < n * ONE
    ensures a / ONE < n
  {
  }

  /** The accumulator never wraps and the index never leaves the source, whatever the sizes. */
  lemma WalkInRange(n: nat, t: nat, i: nat)
    requires t > 0 && i <= t
    ensures i * Increment(n, t) < 0x1_0000_0000
    ensures i < t && n > 0 ==> Walk(n, t, i) < n
  {
    var m := Increment(n, t);
    IncrementBounds(n, t);
    MulLe(i, t, m);
    Commute(t, m);
    if i < t && n > 0 {
      if m > 0 { MulLt(i, t, m); }
      BelowCell(i * m, n);
    }
  }

  /** How far n * ONE exceeds a multiple of t. */
  function Rest(n: nat, t: nat): nat
    requires t > 0
  {
    n * ONE % t
  }

  lemma Decompose(n: nat, t: nat, i: nat)
    requires t > 0 && n < ONE
    ensures Increment(n, t) * t == n * ONE - Rest(n, t) && Rest(n, t) < t
    ensures i * n == i * n / t * t + i * n % t
  {
    assert n * ONE / t * t + n * ONE % t == n * ONE;
  }

  lemma Assoc(a: int, b: int, c: int)
    ensures a * b * c == a * (b * c)
  {
  }

  lemma Distribute(a: int, b: int, c: int)
    ensures a * (b - c) == a * b - a * c
  {
  }

  lemma Excess(n: nat, t: nat, i: nat, ir: nat)
    requires t > 0 && n < ONE && ir == i * Rest(n, t)
    ensures i * Increment(n, t) * t == i * n / t * ONE * t + (i * n % t * ONE - ir)
  {
    var m, f, g := Increment(n, t), i * n / t, i * n % t;
    Decompose(n, t, i);
    calc {
      i * m * t;
      { Assoc(i, m, t); }
      i * (n * ONE - Rest(n, t));
      { Distribute(i, n * ONE, Rest(n, t)); Assoc(i, n, ONE); }
      i * n * ONE - ir;
      (f * t + g) * ONE - ir;
      { assert (f * t + g) * ONE == f * t * ONE + g * ONE; Swap(f, t, ONE); }
      f * ONE * t + (g * ONE - ir);
    }
  }

  /** d / ONE lies at f or just below it, by the sign and size of e, where d * t == f * ONE * t + e. */
  lemma BelowCell2(d: nat, f: nat, t: nat, e: int)
    requires t > 0 && d * t == f * ONE * t + e && -(t * ONE) < e < t * ONE
    ensures d / ONE <= f <= d / ONE + 1
    ensures d / ONE == f <==> e >= 0
  {
    assert (f * ONE + ONE) * t == f * ONE * t + ONE * t;
    CancelLt(d, f * ONE + ONE, t);
    assert (f * ONE - ONE) * t == f * ONE * t - ONE * t;
    CancelLt(f * ONE - ONE, d, t);
    if e >= 0 {
      CancelLe(f * ONE, d, t);
    } else {
      CancelLt(d, f * ONE, t);
    }
  }

  lemma ExcessBounds(t: nat, i: nat, r: nat, g: nat)
    requires i < t <= ONE && r < t && g < t
    ensures -(t * ONE) < g * ONE - i * r < t * ONE
  {
    MulLe(i, ONE, r);
    MulLe(0, i, r);
    Commute(r, ONE);
  }

  lemma WalkIs(n: nat, t: nat, i: nat)
    requires t > 0
    ensures i * Increment(n, t) / ONE == Walk(n, t, i) && i * Increment(n, t) >= 0
    ensures 0 <= i * n / t && 0 <= i * n % t < t && Rest(n, t) < t
  {
  }

  /** Where the walk stands, where it should, and by how much the fraction exceeds what the i
      truncated increments have lost. */
  lemma Losses(n: nat, t: nat, i: nat) returns (d: nat, f: nat, e: int)
    requires 0 < t <= ONE && n < ONE && i < t
    ensures d / ONE == Walk(n, t, i) && f == i * n / t && (e >= 0 <==> i * Rest(n, t) <= i * n % t * ONE)
    ensures d * t == f * ONE * t + e && -(t * ONE) < e < t * ONE
  {
    WalkIs(n, t, i);
    Excess(n, t, i, i * Rest(n, t));
    hide *;
    var r, g := Rest(n, t), i * n % t;
    d, f, e := i * Increment(n, t), i * n / t, g * ONE - i * r;
    ExcessBounds(t, i, r, g);
  }

  /** For sizes below 2^16 the index is the exact floor or one less; it is exact where the fraction
      of i * n / t covers what the i truncated increments have lost. */
  lemma WalkNear(n: nat, t: nat, i: nat)
    requires 0 < t <= ONE && n < ONE && i < t
    ensures Walk(n, t, i) <= i * n / t <= Walk(n, t, i) + 1
    ensures Walk(n, t, i) == i * n / t <==> i * Rest(n, t) <= i * n % t * ONE
  {
    hide *;
    var d, f, e := Losses(n, t, i);
    BelowCell2(d, f, t, e);
  }

  /** The shift into 16.16 keeps only the lower 16 bits of a size. */
  lemma Truncated(n: nat, t: nat)
    requires t > 0
    ensures Increment(n, t) == Increment(n % ONE, t)
  {
    var q, m := n / ONE, n % ONE;
    assert n * ONE == q * 0x1_0000_0000 + m * ONE;
    DivUnique(n * ONE, 0x1_0000_0000, q);
    assert n * ONE % 0x1_0000_0000 == m * ONE;
  }

  /** What is lost above those bits amounts to a whole index at least. */
  lemma TooWide(m: nat, n: nat, t: nat, i: nat)
    requires m + ONE <= n && 0 < t <= ONE && 0 < i
    ensures i * m / t < i * n / t
  {
    MulLe(1, i, ONE);
    MulLe(m + ONE, n, i);
    assert (m + ONE) * i == m * i + ONE * i;
    assert i * n >= i * m + t by { Commute(i, n); Commute(i, m); Commute(i, ONE); }
    var q := i * m / t;
    assert q * t <= i * m;
    assert (q + 1) * t == q * t + t;
    DivBound(i * n, t, q + 1);
  }

  lemma AtZero(n: nat, t: nat)
    requires t > 0
    ensures Walk(n, t, 0) == 0 && 0 * n / t == 0
  {
  }

  /** Exactly when the walk shows the exact column, for sources of any width: always at the first
      target pixel; at any other only if the source is narrower than 2^16 and the fraction of
      i * n / t covers what the i truncated increments have lost. */
  lemma WalkExactIff(n: nat, t: nat, i: nat)
    requires 0 < t <= ONE && i < t
    ensures Walk(n, t, i) == i * n / t <==> i == 0 || (n < ONE && i * Rest(n, t) <= i * n % t * ONE)
  {
    if i == 0 {
      AtZero(n, t);
    } else if n < ONE {
      hide *;
      WalkNear(n, t, i);
    } else {
      Truncated(n, t);
      hide Increment, Rest;
      WalkNear(n % ONE, t, i);
      TooWide(n % ONE, n, t, i);
    }
  }

  /** It can fall one short of the floor, and a source 2^16 wide only ever shows its first
      column. */
  lemma WalkFallsShort()
    ensures Walk(10, 6, 3) == 4 && 3 * 10 / 6 == 5
    ensures Walk(0x1_0000, 2, 1) == 0 && 1 * 0x1_0000 / 2 == 0x8000
  {
  }

  // ---- walking along a row ----

  function WalkedAt(row: seq<Pixel>, t: nat, i: nat): Pixel
    requires |row| > 0 && i < t
  {
    WalkInRange(|row|, t, i);
    row[Walk(|row|, t, i)]
  }

  /** A row shown t pixels wide. */
  function Walked(row: seq<Pixel>, t: nat): (r: seq<Pixel>)
    requires |row| > 0 && t > 0
    ensures |r| == t
  {
    seq<Pixel>(t, i requires 0 <= i < t => WalkedAt(row, t, i))
  }

  /** Row y of a target shows the source row the vertical walk has reached. */
  ghost predicate RowWalked(d: seq<Pixel>, s: seq<Pixel>, g: Grid, t: Grid, y: nat)
    requires Holds(|s|, g) && Holds(|d|, t) && g.width > 0 && g.height > 0 && t.width > 0 && y < t.height
  {
    WalkInRange(g.height, t.height, y);
    RowAt(d, t, y) == Walked(RowAt(s, g, Walk(g.height, t.height, y)), t.width)
  }

  /** The inner loop: n source pixels from off + x0 on, shown t pixels wide from at on. */
  method WalkRow(src: array<Pixel>, off: nat, x0: nat, n: nat, dst: array<Pixel>, at: nat, t: nat)
    requires src != dst && n > 0 && t > 0 && off + x0 + n <= src.Length && at + t <= dst.Length
    modifies dst
    ensures Wrote(old(dst[..]), dst[..], at, Walked(src[off + x0..off + x0 + n], t))
  {
    var mx := Increment(n, t);
    var sx := x0 * ONE;
    ghost var row := Walked(src[off + x0..off + x0 + n], t);
    for i := 0 to t
      invariant sx == x0 * ONE + i * mx
      invariant forall j :: 0 <= j < i ==> dst[at + j] == row[j]
      invariant forall p :: 0 <= p < dst.Length && !(at <= p < at + i) ==> dst[p] == old(dst[p])
    {
      WalkInRange(n, t, i);
      assert sx / ONE == x0 + Walk(n, t, i) && row[i] == src[off + sx / ONE];
      hide Walked;
      dst[at + i] := src[off + sx / ONE];
      sx := sx + mx;
    }
  }
}
