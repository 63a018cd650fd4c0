/** The two resamplers as functions: what one call does, and what a whole input becomes. */
module Resampler {
  import opened Arith

  datatype Frame = Frame(left: int, right: int)

  /** The effect of one resampler call on the remainder. */
  datatype Call = Call(writes: bool, consumes: bool, diff: nat)

  predicate Rates(rateIn: nat, rateOut: nat) { rateIn > 0 && rateOut > 0 }

  /** Equal rates pass frames through and leave the remainder alone; otherwise a frame is
      written while the remainder is below the output rate, and consumed once it reaches it. */
  function Step(diff: nat, rateIn: nat, rateOut: nat): Call {
    if rateIn == rateOut then Call(true, true, diff)
    else
      var d := if diff < rateOut then diff + rateIn else diff;
      if d >= rateOut then Call(diff < rateOut, true, d - rateOut) else Call(diff < rateOut, false, d)
  }

  lemma EveryCallWorks(diff: nat, rateIn: nat, rateOut: nat)
    ensures var c := Step(diff, rateIn, rateOut); c.writes || c.consumes
  {
  }

  /** Calls needed before the remainder lets the current frame go. */
  function Patience(diff: nat, rateOut: nat): nat { if diff < rateOut then rateOut - diff else 0 }

  /** The frames written while the whole input is consumed. */
  function Output(diff: nat, rateIn: nat, rateOut: nat, input: seq<Frame>): seq<Frame>
    requires Rates(rateIn, rateOut)
    decreases |input|, Patience(diff, rateOut)
  {
    if input == [] then []
    else
      var c := Step(diff, rateIn, rateOut);
      var rest := Output(c.diff, rateIn, rateOut, if c.consumes then input[1..] else input);
      if c.writes then [input[0]] + rest else rest
  }

  /** The remainder after the whole input has been consumed. */
  function Remainder(diff: nat, rateIn: nat, rateOut: nat, input: seq<Frame>): nat
    requires Rates(rateIn, rateOut)
    decreases |input|, Patience(diff, rateOut)
  {
    if input == [] then diff
    else
      var c := Step(diff, rateIn, rateOut);
      Remainder(c.diff, rateIn, rateOut, if c.consumes then input[1..] else input)
  }

  // ---- batches ----

  /** Splitting the input into batches changes neither the output nor the final remainder. */
  lemma {:induction false} BatchesDoNotMatter(diff: nat, rateIn: nat, rateOut: nat, a: seq<Frame>, b: seq<Frame>)
    requires Rates(rateIn, rateOut)
    ensures var mid := Remainder(diff, rateIn, rateOut, a);
            && Output(diff, rateIn, rateOut, a + b)
               == Output(diff, rateIn, rateOut, a) + Output(mid, rateIn, rateOut, b)
            && Remainder(diff, rateIn, rateOut, a + b) == Remainder(mid, rateIn, rateOut, b)
    decreases |a|, Patience(diff, rateOut)
  {
    if a == [] {
      assert a + b == b;
    } else {
      var c := Step(diff, rateIn, rateOut);
      assert (a + b)[1..] == a[1..] + b;
      BatchesDoNotMatter(c.diff, rateIn, rateOut, if c.consumes then a[1..] else a, b);
    }
  }

  // ---- the closed form ----

  /** Which input frame the w-th output frame repeats. */
  function Source(diff: nat, rateIn: nat, rateOut: nat, w: nat): nat
    requires rateOut > 0
  {
    (diff + w * rateIn) / rateOut
  }

  /** How one call shifts the source index. */
  lemma SourceStep(diff: nat, rateIn: nat, rateOut: nat, w: nat)
    requires Rates(rateIn, rateOut) && rateIn != rateOut
    ensures var c := Step(diff, rateIn, rateOut);
            var shift := if c.consumes then 1 else 0;
            && (c.writes && w == 0 ==> Source(diff, rateIn, rateOut, w) == 0)
            && (c.writes && w > 0 ==>
                  Source(diff, rateIn, rateOut, w) == Source(c.diff, rateIn, rateOut, w - 1) + shift)
            && (!c.writes ==> Source(diff, rateIn, rateOut, w) == Source(c.diff, rateIn, rateOut, w) + shift)
  {
    var c := Step(diff, rateIn, rateOut);
    DivShift(diff + w * rateIn, rateOut);
    if c.writes && w > 0 {
      assert (w - 1) * rateIn + rateIn == w * rateIn;
    }
  }

  lemma CountStep(diff: nat, rateIn: nat, rateOut: nat, written: nat, consumed: nat)
    ensures (written + 1) * rateIn == written * rateIn + rateIn
    ensures (consumed + 1) * rateOut == consumed * rateOut + rateOut
  {
  }

  /** Every output frame w is input frame floor((diff + w * rateIn) / rateOut); the output stops
      exactly where that index leaves the input, and the remainder accounts for both counts. */
  lemma {:induction false} NearestClosedForm(diff: nat, rateIn: nat, rateOut: nat, input: seq<Frame>)
    requires Rates(rateIn, rateOut) && rateIn != rateOut
    ensures var out := Output(diff, rateIn, rateOut, input);
            && (forall w :: 0 <= w < |out| ==>
                  Source(diff, rateIn, rateOut, w) < |input|
                  && out[w] == input[Source(diff, rateIn, rateOut, w)])
            && diff + |out| * rateIn == |input| * rateOut + Remainder(diff, rateIn, rateOut, input)
    decreases |input|, Patience(diff, rateOut)
  {
    if input != [] {
      var c := Step(diff, rateIn, rateOut);
      var rest := if c.consumes then input[1..] else input;
      NearestClosedForm(c.diff, rateIn, rateOut, rest);
      var out := Output(diff, rateIn, rateOut, input);
      var out' := Output(c.diff, rateIn, rateOut, rest);
      CountStep(diff, rateIn, rateOut, |out'|, |rest|);
      hide Output;
      forall w | 0 <= w < |out|
        ensures Source(diff, rateIn, rateOut, w) < |input| && out[w] == input[Source(diff, rateIn, rateOut, w)]
      {
        SourceStep(diff, rateIn, rateOut, w);
        if !c.writes || w > 0 {
          var w' := if c.writes then w - 1 else w;
          assert out[w] == out'[w'];
        }
      }
    }
  }

  /** The length of the output: the least W with diff + W * rateIn >= |input| * rateOut. */
  lemma OutputLength(diff: nat, rateIn: nat, rateOut: nat, input: seq<Frame>, w: nat)
    requires Rates(rateIn, rateOut) && rateIn != rateOut
    ensures w < |Output(diff, rateIn, rateOut, input)| <==> diff + w * rateIn < |input| * rateOut
  {
    NearestClosedForm(diff, rateIn, rateOut, input);
    hide Output, Remainder;
    var n := |Output(diff, rateIn, rateOut, input)|;
    if w < n {
      assert Source(diff, rateIn, rateOut, w) < |input|;
      DivBound(diff + w * rateIn, rateOut, |input|);
    } else {
      MulLe(n, w, rateIn);
    }
  }

  /** Equal rates: the output is the input, and the remainder is untouched. */
  lemma {:induction false} PassThrough(diff: nat, rate: nat, input: seq<Frame>)
    requires rate > 0
    ensures Output(diff, rate, rate, input) == input && Remainder(diff, rate, rate, input) == diff
  {
    if input != [] {
      PassThrough(diff, rate, input[1..]);
      assert input == [input[0]] + input[1..];
    }
  }

  // ---- any number of calls ----

  /** Frames written and consumed, and the remainder, after n calls. */
  datatype Tally = Tally(written: nat, consumed: nat, diff: nat)

  function Calls(diff: nat, rateIn: nat, rateOut: nat, n: nat): Tally {
    if n == 0 then Tally(0, 0, diff)
    else
      var t := Calls(diff, rateIn, rateOut, n - 1);
      var c := Step(t.diff, rateIn, rateOut);
      Tally(t.written + (if c.writes then 1 else 0), t.consumed + (if c.consumes then 1 else 0), c.diff)
  }

  /** After any number of calls the two counts stay within one rate of each other, and the
      calls have written or consumed at least once each. */
  lemma {:induction false} DriftBounded(diff: nat, rateIn: nat, rateOut: nat, n: nat)
    requires Rates(rateIn, rateOut) && rateIn != rateOut
    requires diff < rateIn || diff < rateOut
    ensures var t := Calls(diff, rateIn, rateOut, n);
            && t.diff == diff + t.written * rateIn - t.consumed * rateOut
            && t.diff < (if rateIn < rateOut then rateOut else rateIn)
            && t.written + t.consumed >= n
  {
    if n > 0 {
      DriftBounded(diff, rateIn, rateOut, n - 1);
      var t := Calls(diff, rateIn, rateOut, n - 1);
      CountStep(diff, rateIn, rateOut, t.written, t.consumed);
    }
  }
}
