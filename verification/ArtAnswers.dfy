/** What each request of the UI and each turn of the worker does to the whole system, in every
    state that a run from start-up reaches. */
module ArtAnswers {
  import opened Options
  import opened ArtSpec
  import opened ArtProtocol

  /** Entry i of the list comes to the front, and the others keep their order. */
  ghost predicate MovedUp(l: seq<Entry>, i: nat, m: seq<Entry>)
    requires i < |l|
  {
    m == [l[i]] + (l[..i] + l[i + 1..])
  }

  lemma WithoutIs(l: seq<Entry>, v: nat)
    requires v < |l|
    ensures Without(l, v) == l[..v] + l[v + 1..]
  {
    hide Without;
    var w := l[..v] + l[v + 1..];
    forall k | 0 <= k < |w| ensures Without(l, v)[k] == w[k] { WithoutAt(l, v, k); }
  }

  lemma FoundAt(l: seq<Entry>, i: nat)
    requires Distinct(l) && i < |l|
    ensures IndexOf(l, l[i].path) == i
  {
    IndexOfIsFirst(l, l[i].path);
    hide IndexOf;
  }

  lemma TouchMovesUp(l: seq<Entry>, i: nat)
    requires Distinct(l) && i < |l|
    ensures Cached(l, l[i].path) && IndexOf(l, l[i].path) == i
    ensures MovedUp(l, i, Touch(l, l[i].path))
  {
    hide IndexOf, Without, Distinct;
    FoundAt(l, i);
    WithoutIs(l, i);
  }

  lemma NotListed(l: seq<Entry>, p: string)
    requires forall e :: e in l ==> e.path != p
    ensures !Cached(l, p)
  {
    IndexOfIsFirst(l, p);
  }

  // ---- the UI asks for a surface ----

  lemma HitStep(s: System, a: Action, i: nat)
    requires Inv(s) && Enabled(s, a) && a.AskFor? && i < |s.sh.list| && a.path == s.sh.list[i].path
    ensures var t := Next(s, a);
            && t.held == Some(s.sh.list[i]) && t.sh.pin == a.path && MovedUp(s.sh.list, i, t.sh.list)
            && t == s.(sh := s.sh.(list := t.sh.list, pin := t.sh.pin), held := t.held)
  {
    TouchMovesUp(s.sh.list, i);
    assert s.sh.list[i] in s.sh.list;
    hide IndexOf, Touch, MovedUp, Conserved, QueueOk;
  }

  /** A request for a listed path hands out exactly that entry, pins its path and moves it to the
      front; nothing else changes. */
  lemma HitHandsOutEntry(budget: nat, run: seq<Action>, a: Action, i: nat)
    requires Legal(Init(budget), run) && Enabled(Exec(Init(budget), run), a) && a.AskFor?
    requires var l := Exec(Init(budget), run).sh.list; i < |l| && a.path == l[i].path
    ensures var s := Exec(Init(budget), run);
            var t := Next(s, a);
            && t.held == Some(s.sh.list[i]) && t.sh.pin == a.path && MovedUp(s.sh.list, i, t.sh.list)
            && t == s.(sh := s.sh.(list := t.sh.list, pin := t.sh.pin), held := t.held)
  {
    hide *;
    InitInv(budget);
    EveryRunKeepsInv(Init(budget), run);
    HitStep(Exec(Init(budget), run), a, i);
  }

  /** The name a path is stored under: what fits its buffer. */
  predicate StoredAs(name: string, path: string) {
    if |path| < MAX_PATH then name == path else name == path[..MAX_PATH - 1]
  }

  /** A request for a path that is not listed leaves list, pin and the UI's surface alone. It
      becomes the current request, newer than all before it, and wakes the worker; but where the
      current slot still holds the same path, and for the empty path, nothing changes at all. */
  lemma MissBecomesCurrent(s: System, a: Action)
    requires Enabled(s, a) && a.AskFor? && forall e :: e in s.sh.list ==> e.path != a.path
    ensures var t := Next(s, a);
            && t.sh.list == s.sh.list && t.sh.pin == s.sh.pin && t.held == s.held
            && (a.path == "" || s.sh.queue[0].path == a.path ==> t == s)
            && (a.path != "" && s.sh.queue[0].path != a.path ==>
                  var r := t.sh.queue[0];
                  && StoredAs(r.path, a.path) && r.maxW == a.maxW && r.maxH == a.maxH && r.grow == a.grow
                  && r.seqNo == t.sh.seqNo == s.sh.seqNo + 1 && t.sh.queue[1..] == s.sh.queue[1..]
                  && t.newest == Some(r) && t.worker == (if s.worker.Asleep? then Worker.Ready else s.worker)
                  && t.freed == s.freed && t.created == s.created && t.ui == s.ui)
  {
    NotListed(s.sh.list, a.path);
    hide IndexOf, Cached, Touch;
  }

  lemma EveryPathShort(budget: nat, run: seq<Action>, e: Entry)
    requires Legal(Init(budget), run) && e in Exec(Init(budget), run).sh.list
    ensures 0 < |e.path| < MAX_PATH
  {
    InitInv(budget);
    EveryRunKeepsInv(Init(budget), run);
    hide Legal, Exec, Conserved;
  }

  /** A path that does not fit the buffer is never found, and every request for it is queued
      anew, however often it was asked for before. */
  lemma LongPathNeverHits(budget: nat, run: seq<Action>, a: Action)
    requires Legal(Init(budget), run) && Enabled(Exec(Init(budget), run), a) && a.AskFor? && |a.path| >= MAX_PATH
    ensures var s := Exec(Init(budget), run);
            Next(s, a).held == s.held && Next(s, a).sh.seqNo == s.sh.seqNo + 1
  {
    var s := Exec(Init(budget), run);
    forall e | e in s.sh.list ensures e.path != a.path { EveryPathShort(budget, run, e); }
    InitInv(budget);
    EveryRunKeepsInv(Init(budget), run);
    assert s.sh.queue[0].path != a.path;
    hide Exec, Legal, Inv;
    MissBecomesCurrent(s, a);
  }

  // ---- the UI asks ahead ----

  /** A prefetch of a listed path only moves its entry to the front. */
  lemma AheadHit(s: System, a: Action, i: nat)
    requires Inv(s) && Enabled(s, a) && a.Ahead? && i < |s.sh.list| && a.path == s.sh.list[i].path
    ensures var t := Next(s, a);
            MovedUp(s.sh.list, i, t.sh.list) && t == s.(sh := s.sh.(list := t.sh.list))
  {
    TouchMovesUp(s.sh.list, i);
    assert s.sh.list[i] in s.sh.list;
    hide IndexOf, Touch, MovedUp, Conserved, QueueOk;
  }

  /** The slot a prefetch may take: the first free one behind the current request. */
  predicate Slot(q: seq<Req>, k: nat) {
    |q| == QUEUE && 1 <= k < QUEUE && q[k].path == "" && forall i :: 1 <= i < k ==> q[i].path != ""
  }

  /** A prefetch of a path that is neither listed nor queued takes the first free slot behind the
      current request and wakes the worker; it never becomes outdated. */
  lemma AheadQueued(s: System, a: Action, k: nat)
    requires Enabled(s, a) && a.Ahead? && a.path != "" && forall e :: e in s.sh.list ==> e.path != a.path
    requires forall r :: r in s.sh.queue ==> r.path != a.path
    requires Slot(s.sh.queue, k)
    ensures var t := Next(s, a);
            var r := t.sh.queue[k];
            && StoredAs(r.path, a.path) && r.maxW == a.maxW && r.maxH == a.maxH && r.grow == a.grow && r.seqNo == -1
            && t.sh == s.sh.(queue := s.sh.queue[k := r])
            && t == s.(sh := t.sh, worker := if s.worker.Asleep? then Worker.Ready else s.worker)
  {
    NotListed(s.sh.list, a.path);
    hide IndexOf, Cached, Touch;
    assert FirstFree(s.sh.queue, 1) == k;
    forall i | 0 <= i < QUEUE ensures s.sh.queue[i].path != a.path { assert s.sh.queue[i] in s.sh.queue; }
    assert PrefetchFills(s.sh, a.path);
  }

  /** Where it is queued already, or no slot is free, a prefetch is dropped without a trace. */
  lemma AheadDropped(s: System, a: Action)
    requires Enabled(s, a) && a.Ahead? && forall e :: e in s.sh.list ==> e.path != a.path
    requires || a.path == "" || (exists r :: r in s.sh.queue && r.path == a.path)
             || forall i :: 1 <= i < QUEUE ==> s.sh.queue[i].path != ""
    ensures Next(s, a) == s
  {
    NotListed(s.sh.list, a.path);
    hide IndexOf, Cached, Touch;
    if r :| r in s.sh.queue && r.path == a.path {
      var i :| 0 <= i < QUEUE && s.sh.queue[i] == r;
      assert !PrefetchFills(s.sh, a.path);
    }
  }

  // ---- the worker's turn ----

  /** The worker takes the current request before any prefetch, and the older prefetch slot
      before the newer; it empties the slot it takes. */
  lemma WorkerTakesFirstFilled(s: System, k: nat)
    requires Enabled(s, WorkerLock) && !s.sh.shutdown && k < QUEUE
    requires s.sh.queue[k].path != "" && forall i :: 0 <= i < k ==> s.sh.queue[i].path == ""
    ensures var t := Next(s, WorkerLock);
            && t.worker == Decoding(s.sh.queue[k]) && |t.sh.queue| == QUEUE && t.sh.queue[k].path == ""
            && t == s.(worker := t.worker, sh := s.sh.(queue := s.sh.queue[k := t.sh.queue[k]]))
  {
    assert FirstFilled(s.sh.queue, 0) == k;
  }

  /** With nothing queued it sleeps, and after a shutdown request it leaves whatever is queued. */
  lemma WorkerSleepsOrLeaves(s: System)
    requires Enabled(s, WorkerLock)
    requires s.sh.shutdown || forall i :: 0 <= i < QUEUE ==> s.sh.queue[i].path == ""
    ensures Next(s, WorkerLock) == s.(worker := if s.sh.shutdown then Exited else Asleep)
  {
    var k := FirstFilled(s.sh.queue, 0);
  }

  /** A worker that comes back without an image changes nothing. */
  lemma NoImageNoChange(s: System, oom: bool)
    requires Enabled(s, WorkerFinish(oom)) && s.worker.img.None?
    ensures Next(s, WorkerFinish(oom)) == s.(worker := Worker.Ready)
  {
    assert s.freed + [] == s.freed;
    hide Insert, Cached;
  }

  /** A decode that a newer request has overtaken is freed, and that is all. */
  lemma OutdatedIsFreed(s: System, oom: bool)
    requires Enabled(s, WorkerFinish(oom)) && s.worker.img.Some?
    requires s.worker.req.seqNo >= 0 && s.worker.req.seqNo != s.sh.seqNo
    ensures Next(s, WorkerFinish(oom)) == s.(worker := Worker.Ready, freed := s.freed + [s.worker.img.value])
  {
    hide Insert, Cached;
  }

  /** A decode whose path has been cached in the meantime is freed too; the entry moves up. */
  lemma TooLateIsFreed(s: System, oom: bool, i: nat)
    requires Inv(s) && Enabled(s, WorkerFinish(oom)) && s.worker.img.Some?
    requires s.worker.req.seqNo < 0 || s.worker.req.seqNo == s.sh.seqNo
    requires i < |s.sh.list| && s.worker.req.path == s.sh.list[i].path
    ensures var t := Next(s, WorkerFinish(oom));
            && MovedUp(s.sh.list, i, t.sh.list) && t.sh == s.sh.(list := t.sh.list)
            && t == s.(sh := t.sh, worker := Worker.Ready, freed := s.freed + [s.worker.img.value])
  {
    TouchMovesUp(s.sh.list, i);
    hide IndexOf, Touch, MovedUp, Insert, CacheOk, Conserved, QueueOk, HeldOk, NoLostSignal, PhasesOk;
  }

  /** A decode for which no entry can be allocated is freed and evicts nothing, but is announced. */
  lemma NoMemoryIsFreed(s: System)
    requires Enabled(s, WorkerFinish(true)) && Delivers(s)
    ensures var t := Next(s, WorkerFinish(true));
            && t.sh == s.sh.(ready := true)
            && t == s.(sh := t.sh, worker := Worker.Ready, freed := s.freed + [s.worker.img.value])
  {
    hide Insert, Cached;
  }

  // ---- the repaint flag ----

  lemma OnlyFinishRaises(s: System, a: Action)
    requires Enabled(s, a) && !a.WorkerFinish? && !PollReturns(s)
    ensures !PollReturns(Next(s, a))
  {
    hide IndexOf, Touch, Cached;
  }

  lemma {:induction false} QuietWithoutFinish(s: System, run: seq<Action>)
    requires Legal(s, run) && !PollReturns(s) && forall a :: a in run ==> !a.WorkerFinish?
    ensures !PollReturns(Exec(s, run))
    decreases |run|
  {
    hide Next, Enabled, PollReturns;
    if run != [] {
      OnlyFinishRaises(s, run[0]);
      QuietWithoutFinish(Next(s, run[0]), run[1..]);
    }
  }

  /** A delivery is announced once: after a poll, no poll returns true again before the worker
      has finished another decode. */
  lemma AnnouncedOnce(s: System, run: seq<Action>)
    requires Enabled(s, Poll) && Legal(Next(s, Poll), run) && forall a :: a in run ==> !a.WorkerFinish?
    ensures !PollReturns(Exec(Next(s, Poll), run))
  {
    QuietWithoutFinish(Next(s, Poll), run);
  }
}
