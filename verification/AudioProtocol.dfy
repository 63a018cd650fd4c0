/** Producer and callback interleaved: what is heard is a prefix of the resampled input. */
module AudioProtocol {
  import opened Resampler
  import opened AudioSpec

  /** Everything still to be heard: the unread frames, then what the rest of the input becomes. */
  function Pending(s: Snd, input: seq<Frame>): seq<Frame>
    requires Ok(s)
  {
    Unread(s) + Output(s.diff, s.rateIn, s.rateOut, input)
  }

  function Rest(s: Snd, input: seq<Frame>): seq<Frame>
    requires input != []
  {
    if Step(s.diff, s.rateIn, s.rateOut).consumes then input[1..] else input
  }

  lemma UnreadIgnoresDiff(s: Snd, d: nat)
    requires Ok(s)
    ensures Ok(s.(diff := d)) && Unread(s.(diff := d)) == Unread(s)
  {
  }

  /** A resampler call into a ring that is not full loses and invents nothing. */
  lemma FeedKeepsPending(s: Snd, input: seq<Frame>)
    requires Ok(s) && !Full(s) && input != []
    ensures Ok(Feed(s, input[0]))
    ensures Pending(Feed(s, input[0]), Rest(s, input)) == Pending(s, input)
  {
    WriteAppends(s, input[0]);
    var c := Step(s.diff, s.rateIn, s.rateOut);
    var rest := Output(c.diff, s.rateIn, s.rateOut, Rest(s, input));
    var t := if c.writes then Write(s, input[0]) else s;
    UnreadIgnoresDiff(t, c.diff);
    hide Unread, Write, Step;
    if c.writes {
      assert (Unread(s) + [input[0]]) + rest == Unread(s) + ([input[0]] + rest);
    }
  }

  /** A callback takes what it delivers off the front. */
  lemma ReadTakesPending(s: Snd, n: nat, input: seq<Frame>)
    requires Ok(s)
    ensures var (t, fs) := Read(s, n); Ok(t) && Pending(s, input) == fs + Pending(t, input)
  {
    ReadIsPrefix(s, n);
    hide Unread, Read, Output;
    var (t, fs) := Read(s, n);
    var out := Output(s.diff, s.rateIn, s.rateOut, input);
    assert (fs + Unread(t)) + out == fs + (Unread(t) + out);
  }

  /** Producer and consumer are never both stuck, except in a ring of a single frame, which is
      full although it holds nothing. */
  lemma BothStuckIffOneFrame(s: Snd)
    requires Ok(s)
    ensures (Full(s) && Read(s, 1).1 == []) <==> |s.buffer| == 1
  {
  }

  // ---- every interleaving ----

  /** The input is what all batches together supply; pos frames of it have been consumed. */
  datatype System = System(snd: Snd, pos: nat, heard: seq<Frame>)

  /** One resampler call, or one callback for n frames; the audio lock makes each atomic. */
  datatype Action = Produce | Interrupt(n: nat)

  predicate Enabled(y: System, input: seq<Frame>, a: Action) {
    && y.snd.frameIn < |y.snd.buffer| && y.snd.frameOut < |y.snd.buffer|
    && (a.Produce? ==> y.pos < |input| && !Full(y.snd))
  }

  function Next(y: System, input: seq<Frame>, a: Action): System
    requires Enabled(y, input, a)
  {
    match a
    case Produce =>
      System(Feed(y.snd, input[y.pos]),
             if Step(y.snd.diff, y.snd.rateIn, y.snd.rateOut).consumes then y.pos + 1 else y.pos,
             y.heard)
    case Interrupt(n) =>
      var (t, fs) := Read(y.snd, n);
      System(t, y.pos, y.heard + fs)
  }

  predicate Legal(y: System, input: seq<Frame>, run: seq<Action>)
    decreases |run|
  {
    run == [] || (Enabled(y, input, run[0]) && Legal(Next(y, input, run[0]), input, run[1..]))
  }

  function Exec(y: System, input: seq<Frame>, run: seq<Action>): System
    requires Legal(y, input, run)
    decreases |run|
  {
    if run == [] then y else Exec(Next(y, input, run[0]), input, run[1..])
  }

  /** Heard so far plus still to be heard is the whole resampled stream. */
  ghost predicate Inv(y: System, input: seq<Frame>, stream: seq<Frame>) {
    && Ok(y.snd) && y.pos <= |input|
    && y.heard + Pending(y.snd, input[y.pos..]) == stream
  }

  lemma StepKeepsInv(y: System, input: seq<Frame>, stream: seq<Frame>, a: Action)
    requires Inv(y, input, stream) && Enabled(y, input, a)
    ensures Inv(Next(y, input, a), input, stream)
  {
    var rest := input[y.pos..];
    match a
    case Produce =>
      FeedKeepsPending(y.snd, rest);
      assert rest[0] == input[y.pos] && rest[1..] == input[y.pos + 1..];
    case Interrupt(n) =>
      ReadTakesPending(y.snd, n, rest);
      hide Read, Pending, Ok;
      var (t, fs) := Read(y.snd, n);
      assert (y.heard + fs) + Pending(t, rest) == y.heard + (fs + Pending(t, rest));
  }

  lemma {:induction false} RunKeepsInv(y: System, input: seq<Frame>, stream: seq<Frame>, run: seq<Action>)
    requires Inv(y, input, stream) && Legal(y, input, run)
    ensures Inv(Exec(y, input, run), input, stream)
    decreases |run|
  {
    if run != [] {
      StepKeepsInv(y, input, stream, run[0]);
      RunKeepsInv(Next(y, input, run[0]), input, stream, run[1..]);
    }
  }

  function Start(n: nat, rateIn: nat, rateOut: nat, diff: nat): Snd
    requires n > 0
  {
    Snd(seq(n, _ => Frame(0, 0)), 0, 0, n - 1, rateIn, rateOut, diff)
  }

  /** For every interleaving of producer and callback from a fresh ring: the frames heard are a
      prefix of the resampled input, and they are all of it once the input is consumed and the
      ring is empty. */
  lemma HeardIsPrefix(n: nat, rateIn: nat, rateOut: nat, diff: nat, input: seq<Frame>, run: seq<Action>)
    requires n > 0 && Rates(rateIn, rateOut)
    requires Legal(System(Start(n, rateIn, rateOut, diff), 0, []), input, run)
    ensures var y := Exec(System(Start(n, rateIn, rateOut, diff), 0, []), input, run);
            var stream := Output(diff, rateIn, rateOut, input);
            && Ok(y.snd) && y.heard <= stream
            && (y.pos == |input| && y.snd.frameIn == y.snd.frameOut ==> y.heard == stream)
  {
    var y0 := System(Start(n, rateIn, rateOut, diff), 0, []);
    var stream := Output(diff, rateIn, rateOut, input);
    assert input[0..] == input;
    assert Unread(y0.snd) == [];
    assert Inv(y0, input, stream);
    RunKeepsInv(y0, input, stream, run);
  }
}
