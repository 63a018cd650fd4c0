/** The sample ring as a value: what one resampler call and one audio callback do to it. */
module AudioSpec {
  import opened Arith
  import opened Resampler
  import opened Seqs

  datatype Snd = Snd(
    buffer: seq<Frame>,   // its length is the source's frame_count
    frameIn: nat,
    frameOut: nat,
    frameFilled: nat,
    rateIn: nat,
    rateOut: nat,
    diff: nat)

  /** Indices step cyclically; every argument stays below twice the capacity. */
  function Wrap(i: nat, n: nat): nat { if i >= n then i - n else i }

  function Pred(i: nat, n: nat): int { if i == 0 then n - 1 else i - 1 }

  ghost predicate Ok(s: Snd) {
    var n := |s.buffer|;
    && n > 0 && s.frameIn < n && s.frameOut < n
    && s.frameFilled == Pred(s.frameOut, n)
    && Rates(s.rateIn, s.rateOut)
  }

  /** Number of frames written and not yet read. */
  function Count(s: Snd): nat
    requires Ok(s)
  {
    if s.frameIn >= s.frameOut then s.frameIn - s.frameOut else s.frameIn + |s.buffer| - s.frameOut
  }

  function Unread(s: Snd): (u: seq<Frame>)
    requires Ok(s)
    ensures |u| == Count(s) < |s.buffer|
    ensures forall k :: 0 <= k < |u| ==> u[k] == s.buffer[Wrap(s.frameOut + k, |s.buffer|)]
  {
    seq(Count(s), k requires 0 <= k < Count(s) => s.buffer[Wrap(s.frameOut + k, |s.buffer|)])
  }

  // ---- the producer ----

  predicate Full(s: Snd) { s.frameIn == s.frameFilled }

  function Write(s: Snd, f: Frame): Snd
    requires s.frameIn < |s.buffer|
  {
    s.(buffer := s.buffer[s.frameIn := f], frameIn := Wrap(s.frameIn + 1, |s.buffer|))
  }

  /** One resampler call on frame f. */
  function Feed(s: Snd, f: Frame): Snd
    requires s.frameIn < |s.buffer|
  {
    var c := Step(s.diff, s.rateIn, s.rateOut);
    (if c.writes then Write(s, f) else s).(diff := c.diff)
  }

  /** The ring is full exactly when one slot is left, and a write appends one frame: no frame
      that is still unread is overwritten. */
  lemma WriteAppends(s: Snd, f: Frame)
    requires Ok(s) && !Full(s)
    ensures Ok(Write(s, f)) && Unread(Write(s, f)) == Unread(s) + [f]
  {
    var t := Write(s, f);
    forall k | 0 <= k < Count(t) ensures Unread(t)[k] == (Unread(s) + [f])[k] {
    }
  }

  lemma FullIffOneLeft(s: Snd)
    requires Ok(s)
    ensures Full(s) <==> Count(s) == |s.buffer| - 1
  {
  }

  // ---- the consumer ----

  function Pop(s: Snd): Snd
    requires s.frameOut < |s.buffer|
  {
    s.(frameFilled := s.frameOut, frameOut := Wrap(s.frameOut + 1, |s.buffer|))
  }

  lemma PopTakesFirst(s: Snd)
    requires Ok(s) && s.frameOut != s.frameIn
    ensures Ok(Pop(s)) && Unread(s) == [s.buffer[s.frameOut]] + Unread(Pop(s))
    ensures Count(Pop(s)) + 1 == Count(s)
  {
    var t := Pop(s);
    forall k | 0 <= k < Count(s) ensures Unread(s)[k] == ([s.buffer[s.frameOut]] + Unread(t))[k] {
      if k > 0 { assert Unread(t)[k - 1] == t.buffer[Wrap(t.frameOut + (k - 1), |t.buffer|)]; }
    }
  }

  /** Read up to n frames: the new ring and the frames read. */
  function Read(s: Snd, n: nat): (r: (Snd, seq<Frame>))
    requires s.frameOut < |s.buffer|
    ensures r.0.frameOut < |r.0.buffer|
    decreases n
  {
    if n == 0 || s.frameOut == s.frameIn then (s, [])
    else var (t, fs) := Read(Pop(s), n - 1); (t, [s.buffer[s.frameOut]] + fs)
  }

  lemma EmptyIff(s: Snd)
    requires Ok(s)
    ensures s.frameOut < |s.buffer| && (s.frameOut == s.frameIn <==> Count(s) == 0)
  {
  }

  /** Reading delivers the oldest unread frames, in order, and leaves the others. */
  lemma {:induction false} ReadIsPrefix(s: Snd, n: nat)
    requires Ok(s)
    ensures var (t, fs) := Read(s, n);
            && Ok(t) && Unread(s) == fs + Unread(t) && |fs| == Min(n, Count(s))
            && t.diff == s.diff && t.rateIn == s.rateIn && t.rateOut == s.rateOut && t.buffer == s.buffer
    decreases n
  {
    hide Unread, Ok, Count;
    EmptyIff(s);
    if n > 0 && s.frameOut != s.frameIn {
      PopTakesFirst(s);
      ReadIsPrefix(Pop(s), n - 1);
      var (t, fs) := Read(Pop(s), n - 1);
      AppendAssoc([s.buffer[s.frameOut]], fs, Unread(t));
    } else {
      assert [] + Unread(s) == Unread(s);
    }
  }

  // ---- what the callback writes ----

  /** Interleaved left and right samples. */
  function Samples(fs: seq<Frame>): (r: seq<int>)
    ensures |r| == 2 * |fs|
  {
    if fs == [] then [] else [fs[0].left, fs[0].right] + Samples(fs[1..])
  }

  /** Sample q of the echo: played backwards from its last sample but one, then silence. */
  function Echo(played: seq<int>, q: nat): int {
    if q < |played| - 1 then played[|played| - 2 - q] else 0
  }

  /** Underrun fill after the samples `played`: silence when exactly a block is missing (SAMPLES
      frames, which each platform sets), and otherwise their echo. */
  function Fill(played: seq<int>, missing: nat, block: nat): (r: seq<int>)
    ensures |r| == 2 * missing
  {
    if missing == block then seq(2 * missing, _ => 0)
    else seq(2 * missing, q requires 0 <= q < 2 * missing => Echo(played, q))
  }

  /** One callback asking for n frames: the new ring and the samples it writes. */
  function Callback(s: Snd, n: nat, block: nat): (Snd, seq<int>)
    requires s.frameOut < |s.buffer|
  {
    var (t, fs) := Read(s, n);
    var played := Samples(fs);
    (t, played + Fill(played, Max(n - |fs|, 0), block))
  }

  /** A callback writes exactly its n frames: first the oldest unread ones, then fill that
      repeats only samples it has already written itself. */
  lemma CallbackWritesAll(s: Snd, n: nat, block: nat)
    requires Ok(s)
    ensures var (t, out) := Callback(s, n, block);
            var m := Min(n, Count(s));
            && |out| == 2 * n
            && out[..2 * m] == Samples(Unread(s)[..m])
            && forall q :: 2 * m <= q < 2 * n ==>
                 out[q] == 0 || exists p :: 0 <= p < 2 * m && out[q] == out[p]
  {
    var (t, fs) := Read(s, n);
    ReadIsPrefix(s, n);
    hide Unread, Read, Samples, Ok;
    assert Unread(s)[..|fs|] == fs;
    var (_, out) := Callback(s, n, block);
    var played := Samples(fs);
    assert out[..|played|] == played;
    forall q | 2 * |fs| <= q < 2 * n && out[q] != 0 ensures exists p :: 0 <= p < 2 * |fs| && out[q] == out[p] {
      var p := |played| - 2 - (q - |played|);
      assert out[q] == Fill(played, n - |fs|, block)[q - |played|] == played[p] == out[p];
    }
  }

  lemma FillAt(played: seq<int>, missing: nat, block: nat, k: nat)
    requires |played| <= k < |played| + 2 * missing
    ensures var out, last := played + Fill(played, missing, block), 2 * |played| - 2;
            out[k] == if missing != block && k <= last then out[last - k] else 0
  {
    assert (played + Fill(played, missing, block))[k] == Fill(played, missing, block)[k - |played|];
  }

  /** An underrun after m frames plays on backwards, from the last sample but one to the first,
      and then falls silent; where exactly a block of frames is missing it is silent at once. */
  lemma UnderrunPlaysBackwards(s: Snd, n: nat, block: nat, k: nat)
    requires Ok(s) && 2 * Min(n, Count(s)) <= k < 2 * n
    ensures var (_, out) := Callback(s, n, block);
            var m := Min(n, Count(s));
            && |out| == 2 * n
            && out[k] == if n - m != block && k <= 4 * m - 2 then out[4 * m - 2 - k] else 0
  {
    var (t, fs) := Read(s, n);
    ReadIsPrefix(s, n);
    hide Unread, Read, Samples, Ok, Echo, Fill, Count;
    FillAt(Samples(fs), n - |fs|, block, k);
  }

  lemma {:induction false} SamplesAt(fs: seq<Frame>, k: nat)
    requires k < |fs|
    ensures Samples(fs)[2 * k] == fs[k].left && Samples(fs)[2 * k + 1] == fs[k].right
  {
    if k > 0 {
      SamplesAt(fs[1..], k - 1);
      assert Samples(fs)[2..] == Samples(fs[1..]);
      assert Samples(fs)[2 * k] == Samples(fs)[2..][2 * k - 2];
      assert Samples(fs)[2 * k + 1] == Samples(fs)[2..][2 * k - 1];
    }
  }

  lemma FirstPart(fs: seq<Frame>, fill: seq<int>, k: nat)
    requires k < |fs|
    ensures var out := Samples(fs) + fill; out[2 * k] == fs[k].left && out[2 * k + 1] == fs[k].right
  {
    SamplesAt(fs, k);
    hide Samples;
  }

  /** The samples of the k-th oldest unread frame, the left one first. */
  lemma PlaysInOrder(s: Snd, n: nat, block: nat, k: nat)
    requires Ok(s) && k < Min(n, Count(s))
    ensures var (_, out) := Callback(s, n, block);
            |out| == 2 * n && out[2 * k] == Unread(s)[k].left && out[2 * k + 1] == Unread(s)[k].right
  {
    var (t, fs) := Read(s, n);
    ReadIsPrefix(s, n);
    hide Unread, Read, Samples, Ok, Echo, Fill, Count;
    FirstPart(fs, Fill(Samples(fs), n - |fs|, block), k);
    assert (fs + Unread(t))[k] == fs[k];
  }
}
