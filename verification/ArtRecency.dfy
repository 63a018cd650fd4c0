/** The order of the box-art cache over whole runs: list position is time of last use, so what an
    insertion evicts is what has not been used for longest. */
module ArtRecency {
  import opened Options
  import opened ArtSpec
  import opened ArtProtocol

  /** The path an action uses: it is found in the cache, or inserted. */
  function Used(s: System, a: Action): Option<string>
    requires Enabled(s, a)
  {
    match a
    case AskFor(p, _, _, _) => if p != "" && Cached(s.sh.list, p) then Some(p) else None
    case Ahead(p, _, _, _) => if p != "" && Cached(s.sh.list, p) then Some(p) else None
    case WorkerFinish(oom) =>
      var req := s.worker.req;
      if s.worker.img.None? || (req.seqNo >= 0 && req.seqNo != s.sh.seqNo) then None
      else if Cached(s.sh.list, req.path) || !oom then Some(req.path)
      else None
    case _ => None
  }

  /** When each path was last used, counting actions. */
  datatype Log = Log(clock: nat, last: map<string, nat>)

  function Note(log: Log, used: Option<string>): Log {
    Log(log.clock + 1, if used.Some? then log.last[used.value := log.clock] else log.last)
  }

  function Noted(log: Log, s: System, run: seq<Action>): Log
    requires Legal(s, run)
    decreases |run|
  {
    if run == [] then log else Noted(Note(log, Used(s, run[0])), Next(s, run[0]), run[1..])
  }

  predicate Unused(s: System, run: seq<Action>, p: string)
    requires Legal(s, run)
    decreases |run|
  {
    run == [] || (Used(s, run[0]) != Some(p) && Unused(Next(s, run[0]), run[1..], p))
  }

  /** Action k of the run is the last that uses p. */
  predicate LastUse(s: System, run: seq<Action>, p: string, k: nat)
    requires Legal(s, run)
    decreases |run|
  {
    && k < |run|
    && if k == 0 then Used(s, run[0]) == Some(p) && Unused(Next(s, run[0]), run[1..], p)
       else LastUse(Next(s, run[0]), run[1..], p, k - 1)
  }

  lemma {:induction false} UnusedKeeps(log: Log, s: System, run: seq<Action>, p: string)
    requires Legal(s, run) && Unused(s, run, p)
    ensures p in Noted(log, s, run).last <==> p in log.last
    ensures p in log.last ==> Noted(log, s, run).last[p] == log.last[p]
    decreases |run|
  {
    hide Used, Enabled;
    if run != [] { UnusedKeeps(Note(log, Used(s, run[0])), Next(s, run[0]), run[1..], p); }
  }

  /** The log holds the time of the last use. */
  lemma {:induction false} NotedIsLastUse(log: Log, s: System, run: seq<Action>, p: string, k: nat)
    requires Legal(s, run) && LastUse(s, run, p, k)
    ensures p in Noted(log, s, run).last && Noted(log, s, run).last[p] == log.clock + k
    decreases |run|
  {
    hide Used, Enabled;
    var more := Note(log, Used(s, run[0]));
    if k == 0 {
      UnusedKeeps(more, Next(s, run[0]), run[1..], p);
    } else {
      NotedIsLastUse(more, Next(s, run[0]), run[1..], p, k - 1);
    }
  }

  // ---- the list is in the order of last use ----

  predicate Newer(log: Log, e: Entry, f: Entry) {
    e.path in log.last && f.path in log.last && log.last[f.path] < log.last[e.path]
  }

  ghost predicate Ordered(l: seq<Entry>, log: Log) {
    && (forall i :: 0 <= i < |l| ==> l[i].path in log.last && log.last[l[i].path] < log.clock)
    && (forall i, j :: 0 <= i < j < |l| ==> Newer(log, l[i], l[j]))
  }

  lemma OrderedWithout(l: seq<Entry>, v: nat, log: Log)
    requires v < |l| && Ordered(l, log)
    ensures Ordered(Without(l, v), log)
  {
    hide Without, Newer;
    forall k | 0 <= k < |l| - 1 ensures Without(l, v)[k] == l[if k < v then k else k + 1] { WithoutAt(l, v, k); }
  }

  /** Using a path that is not in the rest of the list puts it in front. */
  lemma OrderedFront(e: Entry, l: seq<Entry>, log: Log)
    requires Ordered(l, log) && forall i :: 0 <= i < |l| ==> l[i].path != e.path
    ensures Ordered([e] + l, Note(log, Some(e.path)))
  {
    var m, more := [e] + l, Note(log, Some(e.path));
    forall i, j | 0 <= i < j < |m| ensures Newer(more, m[i], m[j]) {
      if i > 0 { assert Newer(log, l[i - 1], l[j - 1]); }
    }
  }

  lemma OrderedTouch(l: seq<Entry>, p: string, log: Log)
    requires Ordered(l, log) && Distinct(l) && Cached(l, p)
    ensures Ordered(Touch(l, p), Note(log, Some(p)))
  {
    var i := IndexOf(l, p);
    IndexOfIsFirst(l, p);
    DistinctWithout(l, i);
    OrderedWithout(l, i, log);
    OrderedFront(l[i], Without(l, i), log);
  }

  lemma {:induction false} OrderedEvict(l: seq<Entry>, budget: nat, pin: string, log: Log)
    requires Ordered(l, log)
    ensures Ordered(Evict(l, budget, pin), log)
    decreases |l|
  {
    hide Ordered, LastVictim, Without, Sum;
    var v := LastVictim(l, pin);
    if Sum(l) > budget && v >= 0 {
      OrderedWithout(l, v, log);
      OrderedEvict(Without(l, v), budget, pin, log);
    }
  }

  lemma Tick(l: seq<Entry>, log: Log)
    requires Ordered(l, log)
    ensures Ordered(l, Note(log, None))
  {
    forall i, j | 0 <= i < j < |l| ensures Newer(Note(log, None), l[i], l[j]) { assert Newer(log, l[i], l[j]); }
  }

  lemma AskOrdered(s: System, a: Action, log: Log)
    requires Inv(s) && Enabled(s, a) && Ordered(s.sh.list, log) && (a.AskFor? || a.Ahead?)
    ensures Ordered(Next(s, a).sh.list, Note(log, Used(s, a)))
  {
    Tick(s.sh.list, log);
    if Used(s, a).Some? { OrderedTouch(s.sh.list, a.path, log); }
    hide Ordered, Touch, IndexOf;
  }

  lemma FinishOrdered(s: System, oom: bool, log: Log)
    requires Inv(s) && Enabled(s, WorkerFinish(oom)) && Ordered(s.sh.list, log)
    ensures Ordered(Next(s, WorkerFinish(oom)).sh.list, Note(log, Used(s, WorkerFinish(oom))))
  {
    var l, req := s.sh.list, s.worker.req;
    Tick(l, log);
    hide Ordered, Touch, Evict, Evicted, IndexOf;
    if Used(s, WorkerFinish(oom)).Some? {
      if Cached(l, req.path) {
        OrderedTouch(l, req.path, log);
      } else {
        var e := Entry(Clip(req.path), s.worker.img.value);
        IndexOfIsFirst(l, req.path);
        OrderedFront(e, l, log);
        OrderedEvict([e] + l, s.sh.budget, s.sh.pin, Note(log, Some(e.path)));
      }
    }
  }

  lemma StepKeepsOrder(s: System, a: Action, log: Log)
    requires Inv(s) && Enabled(s, a) && Ordered(s.sh.list, log)
    ensures Ordered(Next(s, a).sh.list, Note(log, Used(s, a)))
  {
    match a
    case AskFor(_, _, _, _) => AskOrdered(s, a, log);
    case Ahead(_, _, _, _) => AskOrdered(s, a, log);
    case WorkerFinish(oom) => FinishOrdered(s, oom, log);
    case Drain =>
    case _ => Tick(s.sh.list, log);
  }

  lemma {:induction false} RunKeepsOrder(s: System, run: seq<Action>, log: Log)
    requires Inv(s) && Legal(s, run) && Ordered(s.sh.list, log)
    ensures Ordered(Exec(s, run).sh.list, Noted(log, s, run))
    decreases |run|
  {
    hide Inv, Ordered, Used, Enabled;
    if run != [] {
      StepKeepsInv(s, run[0]);
      StepKeepsOrder(s, run[0], log);
      RunKeepsOrder(Next(s, run[0]), run[1..], Note(log, Used(s, run[0])));
    }
  }

  const START := Log(0, map[])

  /** From start-up, in every interleaving, the cache lists its entries in the order of their
      last use. */
  lemma ListedByLastUse(budget: nat, run: seq<Action>)
    requires Legal(Init(budget), run)
    ensures Ordered(Exec(Init(budget), run).sh.list, Noted(START, Init(budget), run))
  {
    InitInv(budget);
    RunKeepsOrder(Init(budget), run, START);
  }

  // ---- what eviction means then ----

  lemma {:induction false} KeepIs(l: seq<Entry>, t: nat, pin: string, e: Entry)
    requires t <= |l|
    ensures e in Keep(l, t, pin) <==> e in l[..t] || (e in l[t..] && e.path == pin)
  {
    if l != [] {
      KeepIs(l[1..], if t == 0 then 0 else t - 1, pin, e);
      assert l == [l[0]] + l[1..];
      if t > 0 {
        assert l[..t] == [l[0]] + l[1..][..t - 1] && l[t..] == l[1..][t - 1..];
      } else {
        assert l[..0] == [] && l[1..][..0] == [] && l[0..] == l && l[1..][0..] == l[1..];
      }
    }
  }

  lemma InOne(l: seq<Entry>, t: nat, f: Entry)
    requires t <= |l| && f in l
    ensures f in l[..t] || f in l[t..]
  {
    assert l == l[..t] + l[t..];
  }

  /** Of a list in the order of last use, everything evicted was last used before everything
      unpinned that stays. */
  lemma EvictsLeastRecentlyUsed(l: seq<Entry>, budget: nat, pin: string, log: Log, e: Entry, f: Entry)
    requires |l| > 0 && Ordered(l, log)
    requires e in Evict(l, budget, pin) && e.path != pin && f in l && f !in Evict(l, budget, pin)
    ensures f.path != pin && Newer(log, e, f)
  {
    var t := EvictIsCut(l, budget, pin);
    KeepIs(l, t, pin, e);
    KeepIs(l, t, pin, f);
    hide Keep, Evict, IsCut, Newer;
    InOne(l, t, f);
    var i :| 0 <= i < t && l[..t][i] == e;
    var j :| 0 <= j < |l| - t && l[t..][j] == f;
    assert l[i] == e && l[t + j] == f;
  }

  lemma DeliveryEvictsOldest(s: System, log: Log, e: Entry, f: Entry)
    requires Inv(s) && Delivers(s) && Enabled(s, WorkerFinish(false)) && Ordered(s.sh.list, log)
    requires var l := Next(s, WorkerFinish(false)).sh.list;
             e in l && e.path != s.sh.pin && f in s.sh.list && f !in l
    ensures f.path != s.sh.pin && Newer(Note(log, Used(s, WorkerFinish(false))), e, f)
  {
    var head := Entry(Clip(s.worker.req.path), s.worker.img.value);
    var l := [head] + s.sh.list;
    IndexOfIsFirst(s.sh.list, s.worker.req.path);
    OrderedFront(head, s.sh.list, log);
    assert f in l by {
      var i :| 0 <= i < |s.sh.list| && s.sh.list[i] == f;
      assert l[i + 1] == f;
    }
    hide Ordered, Evict, Evicted, IndexOf, Newer;
    EvictsLeastRecentlyUsed(l, s.sh.budget, s.sh.pin, Note(log, Some(head.path)), e, f);
  }

  /** From start-up, in every interleaving: what a delivered decode evicts was last used before
      every unpinned entry it leaves. */
  lemma InsertionEvictsOldest(budget: nat, run: seq<Action>, e: Entry, f: Entry)
    requires Legal(Init(budget), run) && Delivers(Exec(Init(budget), run))
    requires Enabled(Exec(Init(budget), run), WorkerFinish(false))
    requires var s := Exec(Init(budget), run);
             var l := Next(s, WorkerFinish(false)).sh.list;
             e in l && e.path != s.sh.pin && f in s.sh.list && f !in l
    ensures var s := Exec(Init(budget), run);
            var log := Note(Noted(START, Init(budget), run), Used(s, WorkerFinish(false)));
            f.path != s.sh.pin && Newer(log, e, f)
  {
    InitInv(budget);
    EveryRunKeepsInv(Init(budget), run);
    ListedByLastUse(budget, run);
    hide Exec, Legal, Noted;
    DeliveryEvictsOldest(Exec(Init(budget), run), Noted(START, Init(budget), run), e, f);
  }
}
