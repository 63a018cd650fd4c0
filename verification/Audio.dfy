/** The audio context of api.c: a ring buffer updated in place by a producer (SND_batchSamples)
    and a consumer (SND_audioCallback), proved against AudioSpec. */
module Audio {
  import opened Arith
  import opened Resampler
  import opened Seqs
  import opened AudioSpec
  import opened AudioProtocol

  const BATCH_SIZE: nat := 100

  lemma FilledIs(stream: seq<int>, played: seq<int>, missing: nat, block: nat)
    requires var end := |played| + 2 * missing;
             && end <= |stream| && stream[..|played|] == played
             && forall j :: |played| <= j < end ==>
                  stream[j] == if missing == block then 0 else Echo(played, j - |played|)
    ensures stream[..|played| + 2 * missing] == played + Fill(played, missing, block)
  {
    hide Echo;
  }

  lemma TwoMore(s: seq<int>, i: nat)
    requires i + 2 <= |s|
    ensures s[..i + 2] == s[..i] + [s[i], s[i + 1]]
  {
  }

  lemma Behind(a: seq<int>, b: seq<int>, i: nat, j: nat)
    requires i <= j <= |a| == |b| && a[i..] == b[i..]
    ensures a[j..] == b[j..]
  {
    assert a[j..] == a[i..][j - i..] && b[j..] == b[i..][j - i..];
  }

  lemma {:induction false} SamplesAppend(fs: seq<Frame>, f: Frame)
    ensures Samples(fs + [f]) == Samples(fs) + [f.left, f.right]
  {
    if fs != [] {
      assert (fs + [f])[1..] == fs[1..] + [f];
      SamplesAppend(fs[1..], f);
    }
  }

  /** One frame more at the front of the stream, the rest as it was. */
  lemma FrameWritten(now: seq<int>, was: seq<int>, start: seq<int>, done: seq<Frame>, f: Frame)
    requires var out := 2 * |done|;
             && out + 2 <= |now| == |was| == |start| && was[..out] == Samples(done) && was[out..] == start[out..]
             && now[..out] == was[..out] && now[out] == f.left && now[out + 1] == f.right
             && now[out + 2..] == was[out + 2..]
    ensures now[..2 * |done| + 2] == Samples(done + [f]) && now[2 * |done| + 2..] == start[2 * |done| + 2..]
  {
    var out := 2 * |done|;
    hide Samples;
    SamplesAppend(done, f);
    TwoMore(now, out);
    Behind(was, start, out, out + 2);
  }

  lemma CallbackIs(s: Snd, n: nat, block: nat, t: Snd, fs: seq<Frame>, out: seq<int>)
    requires s.frameOut < |s.buffer| && Read(s, n) == (t, fs) && |fs| <= n
    requires out == Samples(fs) + Fill(Samples(fs), n - |fs|, block)
    ensures Callback(s, n, block) == (t, out)
  {
    hide Read, Samples, Fill;
  }

  /** A call that does not consume its frame has written it once more. */
  lemma FeedCount(s: Snd, f: Frame)
    requires Ok(s) && !Full(s)
    ensures var t := Feed(s, f);
            Ok(t) && (!Step(s.diff, s.rateIn, s.rateOut).consumes ==> Count(t) == Count(s) + 1)
            && Count(t) < |t.buffer| == |s.buffer|
  {
  }

  lemma FeedOne(s: Snd, frames: seq<Frame>, i: nat)
    requires Ok(s) && !Full(s) && i < |frames|
    ensures var t, c := Feed(s, frames[i]), Step(s.diff, s.rateIn, s.rateOut).consumes;
            && Ok(t) && |t.buffer| == |s.buffer| && Count(t) < |s.buffer|
            && Pending(s, frames[i..]) == Pending(t, frames[if c then i + 1 else i..])
            && (!c ==> Count(t) == Count(s) + 1)
  {
    hide Pending, Ok, Count;
    FeedKeepsPending(s, frames[i..]);
    FeedCount(s, frames[i]);
    assert frames[i..][1..] == frames[i + 1..];
  }

  lemma ReadStart(s: Snd, n: nat)
    requires s.frameOut < |s.buffer|
    ensures [] + Read(s, n).1 == Read(s, n).1 && Samples([]) == []
  {
  }

  lemma ReadEnd(s: Snd, left: nat, done: seq<Frame>)
    requires s.frameOut < |s.buffer| && (left == 0 || s.frameOut == s.frameIn)
    ensures Read(s, left).0 == s && done + Read(s, left).1 == done
  {
  }

  lemma ReadStep(s: Snd, left: nat, done: seq<Frame>)
    requires s.frameOut < |s.buffer| && left > 0 && s.frameOut != s.frameIn
    ensures Read(s, left).0 == Read(Pop(s), left - 1).0
    ensures done + Read(s, left).1 == (done + [s.buffer[s.frameOut]]) + Read(Pop(s), left - 1).1
  {
  }

  class Context {
    var buffer: array<Frame>
    var frameIn: nat
    var frameOut: nat
    var frameFilled: nat
    var rateIn: nat
    var rateOut: nat
    var diff: nat // the static of SND_resampleNear; never reset
    const block: nat // SAMPLES

    ghost function Abs(): Snd
      reads this, buffer
    {
      Snd(buffer[..], frameIn, frameOut, frameFilled, rateIn, rateOut, diff)
    }

    ghost predicate Valid()
      reads this, buffer
    {
      Ok(Abs())
    }

    constructor (rateIn: nat, rateOut: nat, diff: nat, block: nat)
      ensures fresh(buffer) && this.block == block && Abs() == Snd([], 0, 0, 0, rateIn, rateOut, diff)
    {
      buffer := new Frame[0];
      frameIn, frameOut, frameFilled := 0, 0, 0;
      this.rateIn, this.rateOut, this.diff, this.block := rateIn, rateOut, diff, block;
    }

    /** SND_resizeBuffer: a zeroed ring of as many frames as the quotient of buffered seconds
        times input rate by frame rate comes to, however that is rounded; none, no change. */
    method ResizeBuffer(quotient: real)
      requires quotient >= 0.0
      modifies this
      ensures var n := quotient.Floor;
              if n == 0 then Abs() == old(Abs())
              else
                && fresh(buffer)
                && Abs() == Snd(seq(n, _ => Frame(0, 0)), 0, 0, n - 1, old(rateIn), old(rateOut), old(diff))
                && (Rates(old(rateIn), old(rateOut)) ==> Valid() && Unread(Abs()) == [])
    {
      var n := quotient.Floor;
      if n != 0 {
        buffer := new Frame[n](_ => Frame(0, 0));
        assert buffer[..] == seq(n, _ => Frame(0, 0));
        frameIn, frameOut, frameFilled := 0, 0, n - 1;
      }
    }

    /** One call through snd.resample: SND_resampleNone for equal rates, else SND_resampleNear. */
    method Resample(frame: Frame) returns (consumed: nat)
      requires Valid()
      modifies this`frameIn, this`diff, buffer
      ensures Abs() == Feed(old(Abs()), frame)
      ensures consumed == if Step(old(diff), rateIn, rateOut).consumes then 1 else 0
    {
      consumed := 0;
      if rateIn == rateOut {
        buffer[frameIn] := frame;
        frameIn := frameIn + 1;
        if frameIn >= buffer.Length { frameIn := 0; }
        consumed := 1;
        return;
      }
      if diff < rateOut {
        buffer[frameIn] := frame;
        frameIn := frameIn + 1;
        if frameIn >= buffer.Length { frameIn := 0; }
        diff := diff + rateIn;
      }
      if diff >= rateOut {
        consumed := consumed + 1;
        diff := diff - rateOut;
      }
    }

    /** One round of the callback's first loop. */
    method ReadFrame(stream: array<int>, out: nat) returns (ghost f: Frame)
      requires Valid() && frameOut != frameIn && out + 2 <= stream.Length
      modifies this`frameOut, this`frameFilled, stream
      ensures f == old(buffer[frameOut]) && Valid() && Abs() == Pop(old(Abs()))
      ensures stream[..out] == old(stream[..out]) && stream[out] == f.left && stream[out + 1] == f.right
      ensures stream[out + 2..] == old(stream[out + 2..])
    {
      f := buffer[frameOut];
      stream[out] := buffer[frameOut].left;
      stream[out + 1] := buffer[frameOut].right;
      frameFilled := frameOut;
      frameOut := frameOut + 1;
      if frameOut >= buffer.Length { frameOut := 0; }
    }

    /** The callback's first loop: copy out unread frames while there are any. */
    method ReadFrames(stream: array<int>, n: nat) returns (left: nat, ghost done: seq<Frame>)
      requires Valid() && stream.Length >= 2 * n
      modifies this`frameOut, this`frameFilled, stream
      ensures Valid() && (Abs(), done) == Read(old(Abs()), n)
      ensures |done| <= n && left == n - |done|
      ensures stream[..2 * |done|] == Samples(done)
      ensures stream[2 * |done|..] == old(stream[2 * |done|..])
    {
      left, done := n, [];
      var out: nat := 0;
      ghost var s := Abs();
      ReadStart(s, n);
      hide Read, Samples;
      while frameOut != frameIn && left > 0
        invariant |done| + left == n && out == 2 * |done|
        invariant Valid()
        invariant Read(s, n) == (Read(Abs(), left).0, done + Read(Abs(), left).1)
        invariant stream[..out] == Samples(done)
        invariant stream[out..] == old(stream[..])[out..]
        decreases left
      {
        ReadStep(Abs(), left, done);
        ghost var was := stream[..];
        ghost var f := ReadFrame(stream, out);
        FrameWritten(stream[..], was, old(stream[..]), done, f);
        out := out + 2;
        done := done + [f];
        left := left - 1;
      }
      ReadEnd(Abs(), left, done);
    }

    /** memset. */
    method Silence(stream: array<int>, start: nat, end: nat)
      requires start <= end <= stream.Length
      modifies stream
      ensures stream[..start] == old(stream[..start]) && stream[end..] == old(stream[end..])
      ensures forall j :: start <= j < end ==> stream[j] == 0
    {
      for i := start to end
        invariant stream[..start] == old(stream[..start]) && stream[end..] == old(stream[end..])
        invariant forall j :: start <= j < i ==> stream[j] == 0
      {
        stream[i] := 0;
      }
    }

    /** The backwards fill from the last sample but one. */
    method FillBackwards(stream: array<int>, start: nat, missing: nat, ghost played: seq<int>)
      requires start + 2 * missing <= stream.Length && stream[..start] == played
      modifies stream
      ensures stream[..start] == played
      ensures stream[start + 2 * missing..] == old(stream[start + 2 * missing..])
      ensures forall j :: start <= j < start + 2 * missing ==> stream[j] == Echo(played, j - start)
    {
      var left: nat, out: nat := missing, start;
      var from := out - 1;
      while left > 0
        invariant left <= missing && out == start + 2 * (missing - left)
        invariant from == if start == 0 then -1 else if out - start < start - 1 then start - 1 - (out - start) else 0
        invariant stream[..start] == played
        invariant forall j :: start <= j < out ==> stream[j] == Echo(played, j - start)
        invariant stream[start + 2 * missing..] == old(stream[start + 2 * missing..])
        decreases left
      {
        if from > 0 { from := from - 1; stream[out] := stream[from]; } else { stream[out] := 0; }
        out := out + 1;
        if from > 0 { from := from - 1; stream[out] := stream[from]; } else { stream[out] := 0; }
        out := out + 1;
        left := left - 1;
      }
    }

    /** The tail of the callback: silence or the backwards fill. */
    method FillRest(stream: array<int>, start: nat, missing: nat, ghost n: nat)
      requires start == 2 * (n - missing) && missing <= n && stream.Length >= 2 * n
      modifies stream
      ensures var played := old(stream[..start]);
              stream[..2 * n] == played + Fill(played, missing, block)
      ensures stream[2 * n..] == old(stream[2 * n..])
    {
      ghost var played := stream[..start];
      if missing > 0 && missing == block {
        Silence(stream, start, start + 2 * missing);
      } else {
        FillBackwards(stream, start, missing, played);
      }
      FilledIs(stream[..], played, missing, block);
    }

    /** SND_audioCallback: len is in bytes, four to a frame. */
    method AudioCallback(stream: array<int>, len: nat)
      requires buffer.Length > 0 ==> Valid()
      requires stream.Length >= 2 * (len / 4)
      modifies this`frameOut, this`frameFilled, stream
      ensures buffer.Length == 0 ==> Abs() == old(Abs()) && stream[..] == old(stream[..])
      ensures buffer.Length > 0 ==>
                var n := len / 4;
                Valid() && (Abs(), stream[..2 * n]) == Callback(old(Abs()), n, block)
                && stream[2 * n..] == old(stream[2 * n..])
    {
      if buffer.Length == 0 { return; }
      hide Read, Samples, Unread, Fill, Ok, Callback;
      var n := len / 4;
      ghost var s, before := Abs(), stream[..];
      var left;
      ghost var done;
      left, done := ReadFrames(stream, n);
      Behind(stream[..], before, 2 * |done|, 2 * n);
      FillRest(stream, 2 * (n - left), left, n);
      CallbackIs(s, n, block, Abs(), done, stream[..2 * n]);
    }

    /** One sleep of the waiting loop, during which one callback fires. */
    method Sleep(len: nat, ghost rest: seq<Frame>) returns (ghost fs: seq<Frame>)
      requires Valid()
      modifies this`frameOut, this`frameFilled
      ensures Valid() && Pending(old(Abs()), rest) == fs + Pending(Abs(), rest)
    {
      ghost var s := Abs();
      ReadTakesPending(s, len / 4, rest);
      hide Read, Pending, Samples, Fill, Ok;
      fs := Read(s, len / 4).1;
      var stream := new int[2 * (len / 4)];
      AudioCallback(stream, len);
    }

    /** The inner loop: resample until amount frames are consumed or the ring is full. */
    method FillRing(frames: seq<Frame>, start: nat, amount: nat) returns (consumed: nat)
      requires Valid() && start + amount <= |frames|
      modifies this`frameIn, this`diff, buffer
      ensures Valid() && start <= consumed <= start + amount
      ensures Pending(old(Abs()), frames[start..]) == Pending(Abs(), frames[consumed..])
      ensures consumed == start + amount || Full(Abs())
    {
      hide Pending, Ok, Count, Feed, Step;
      var left := amount;
      consumed := start;
      while left > 0 && frameIn != frameFilled
        invariant Valid() && start <= consumed && consumed + left == start + amount
        invariant Pending(old(Abs()), frames[start..]) == Pending(Abs(), frames[consumed..])
        decreases left, buffer.Length - Count(Abs())
      {
        FeedOne(Abs(), frames, consumed);
        var c := Resample(frames[consumed]);
        consumed := consumed + c;
        left := left - c;
      }
    }

    /** SND_batchSamples. windows lists the callbacks (in bytes) that fire while it sleeps with
        the audio lock released, one per sleep; the source keeps waiting where the list ends. */
    method BatchSamples(frames: seq<Frame>, windows: seq<nat>)
      returns (consumed: nat, used: nat, ghost heard: seq<Frame>)
      requires buffer.Length > 0 ==> Valid()
      modifies this`frameIn, this`frameOut, this`frameFilled, this`diff, buffer
      ensures buffer.Length == 0 ==> consumed == 0 && Abs() == old(Abs())
      ensures buffer.Length > 0 ==>
                && Valid() && consumed <= |frames| && used <= |windows|
                && Pending(old(Abs()), frames) == heard + Pending(Abs(), frames[consumed..])
                && (consumed == |frames| || (used == |windows| && Full(Abs())))
    {
      consumed, used, heard := 0, 0, [];
      if buffer.Length == 0 { return; }
      ghost var s := Abs();
      assert frames[0..] == frames && [] + Pending(s, frames) == Pending(s, frames);
      while consumed < |frames|
        invariant Valid() && consumed <= |frames| && used <= |windows|
        invariant Pending(s, frames) == heard + Pending(Abs(), frames[consumed..])
        decreases |frames| - consumed, |windows| - used, if Full(Abs()) then 0 else 1
      {
        hide Pending, Ok;
        var tries := 0;
        var amount := Min(BATCH_SIZE, |frames| - consumed);
        ghost var full, used0 := Full(Abs()), used;
        while tries < 10 && frameIn == frameFilled && used < |windows|
          invariant Valid() && used <= |windows| && tries == used - used0
          invariant Pending(s, frames) == heard + Pending(Abs(), frames[consumed..])
          invariant used == used0 ==> Full(Abs()) == full
          decreases |windows| - used
        {
          tries := tries + 1;
          ghost var fs := Sleep(windows[used], frames[consumed..]);
          AppendAssoc(heard, fs, Pending(Abs(), frames[consumed..]));
          heard := heard + fs;
          used := used + 1;
        }
        if frameIn == frameFilled && used == |windows| { return; }
        consumed := FillRing(frames, consumed, amount);
      }
    }
  }
}
