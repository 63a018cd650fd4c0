/** The UI thread and the decode worker as one state machine. Every region under the mutex is
    one atomic step (ArtCache proves the code against these functions), the decode itself is a
    step of its own, and an action list is any interleaving of the two threads. */
module ArtProtocol {
  import opened Options
  import opened ArtSpec

  /** Where the worker stands between two regions. */
  datatype Worker =
    | Ready                                   // about to lock the mutex and dequeue
    | Asleep                                  // waiting on the condition variable
    | Decoding(req: Req)
    | Holding(req: Req, img: Option<Surface>) // decoded, about to lock the mutex
    | Exited

  datatype Ui = Running | Joining | Closed

  /** What a decode yields. A rescale allocates two more surfaces and frees all but the result;
      where only one of the two can be had it is freed again. */
  datatype Outcome =
    | NoImage
    | AsDecoded(bytes: nat)
    | Rescaled(raw: nat, conv: nat, bytes: nat)
    | Unscaled(bytes: nat, spare: nat)

  datatype System = System(
    sh: Shared,
    worker: Worker,
    ui: Ui,
    created: nat,            // surfaces are numbered as they are created
    freed: seq<Surface>,     // every surface freed so far
    held: Option<Entry>,     // the entry the last hit handed to the UI
    newest: Option<Req>)     // the newest current request that was queued

  datatype Action =
    | WorkerLock
    | SpuriousWake
    | Decode(outcome: Outcome)
    | WorkerFinish(oom: bool)
    | AskFor(path: string, maxW: int, maxH: int, grow: bool)
    | Ahead(path: string, maxW: int, maxH: int, grow: bool)
    | Poll
    | QuitSignal
    | Drain

  function Init(budget: nat): System {
    System(Shared([], 0, budget, [EMPTY_REQ, EMPTY_REQ, EMPTY_REQ], 0, "", false, false),
           Ready, Running, 0, [], None, None)
  }

  predicate Enabled(s: System, a: Action) {
    && |s.sh.queue| == QUEUE
    && match a
       case WorkerLock => s.worker.Ready?
       case SpuriousWake => s.worker.Asleep?
       case Decode(_) => s.worker.Decoding?
       case WorkerFinish(_) => s.worker.Holding?
       case AskFor(_, _, _, _) => s.ui.Running?
       case Ahead(_, _, _, _) => s.ui.Running?
       case Poll => s.ui.Running?
       case QuitSignal => s.ui.Running?
       case Drain => s.ui.Joining? && s.worker.Exited?
  }

  /** SDL_CondSignal: wakes the worker if it sleeps, and is lost otherwise. */
  function Signal(w: Worker): Worker { if w.Asleep? then Ready else w }

  function Next(s: System, a: Action): System
    requires Enabled(s, a)
  {
    match a
    case WorkerLock =>
      var (sh, t) := Take(s.sh);
      s.(sh := sh, worker := match t case Exit => Exited case Sleep => Asleep case Got(r) => Decoding(r))
    case SpuriousWake => s.(worker := Ready)
    case Decode(NoImage) => s.(worker := Holding(s.worker.req, None))
    case Decode(AsDecoded(b)) =>
      s.(worker := Holding(s.worker.req, Some(Surface(s.created, b))), created := s.created + 1)
    case Decode(Rescaled(raw, conv, b)) =>
      s.(worker := Holding(s.worker.req, Some(Surface(s.created + 2, b))), created := s.created + 3,
         freed := s.freed + [Surface(s.created + 1, conv), Surface(s.created, raw)])
    case Decode(Unscaled(b, spare)) =>
      s.(worker := Holding(s.worker.req, Some(Surface(s.created, b))), created := s.created + 2,
         freed := s.freed + [Surface(s.created + 1, spare)])
    case WorkerFinish(oom) =>
      var (sh, f) := Finish(s.sh, s.worker.req, s.worker.img, oom);
      s.(sh := sh, worker := Ready, freed := s.freed + f)
    case AskFor(p, w, h, g) =>
      var (sh, r) := Request(s.sh, p, w, h, g);
      var q := Enqueues(s.sh, p);
      s.(sh := sh,
         worker := if q then Signal(s.worker) else s.worker,
         held := if r.Some? then Some(Entry(p, r.value)) else s.held,
         newest := if q then Some(sh.queue[0]) else s.newest)
    case Ahead(p, w, h, g) =>
      s.(sh := Prefetch(s.sh, p, w, h, g),
         worker := if PrefetchFills(s.sh, p) then Signal(s.worker) else s.worker)
    case Poll => s.(sh := s.sh.(ready := false))
    case QuitSignal => s.(sh := s.sh.(shutdown := true), worker := Signal(s.worker), ui := Joining)
    case Drain =>
      s.(sh := s.sh.(list := [], bytes := 0), freed := s.freed + Surfaces(s.sh.list),
         ui := Closed, held := None)
  }

  predicate Legal(s: System, run: seq<Action>)
    decreases |run|
  {
    run == [] || (Enabled(s, run[0]) && Legal(Next(s, run[0]), run[1..]))
  }

  function Exec(s: System, run: seq<Action>): System
    requires Legal(s, run)
    decreases |run|
  {
    if run == [] then s else Exec(Next(s, run[0]), run[1..])
  }

  // ---- the invariant ----

  function InHand(w: Worker, id: nat): nat {
    if w.Holding? && w.img.Some? && w.img.value.id == id then 1 else 0
  }

  /** In how many places the surface is: cache entries, the worker's hand, or freed. */
  function Places(s: System, id: nat): nat {
    Held(s.sh.list, id) + InHand(s.worker, id) + Freed(s.freed, id)
  }

  /** Every surface ever created is in exactly one place. */
  ghost predicate Conserved(s: System) {
    forall id: nat :: Places(s, id) == if id < s.created then 1 else 0
  }

  ghost predicate CacheOk(sh: Shared) {
    && Distinct(sh.list)
    && (forall e :: e in sh.list ==> 0 < |e.path| < MAX_PATH)
    && sh.bytes == Sum(sh.list)
    && (sh.bytes <= sh.budget || |sh.list| <= 2)
  }

  /** Until quitting has freed the cache, the UI's surface is cached and pinned. */
  ghost predicate HeldOk(s: System) {
    s.held.Some? ==> s.held.value in s.sh.list && s.sh.pin == s.held.value.path
  }

  /** A sleeping worker has nothing to do: no filled slot and no shutdown request. */
  ghost predicate NoLostSignal(s: System) {
    s.worker.Asleep? ==> !s.sh.shutdown && forall i :: 0 <= i < |s.sh.queue| ==> s.sh.queue[i].path == ""
  }

  ghost predicate RequestOk(s: System, r: Req) {
    && 0 < |r.path| < MAX_PATH
    && (r.seqNo == -1 || 1 <= r.seqNo <= s.sh.seqNo)
    && (r.seqNo == s.sh.seqNo ==> s.newest == Some(r))
  }

  ghost predicate QueueOk(s: System) {
    && |s.sh.queue| == QUEUE
    && s.sh.seqNo >= 0
    && (s.sh.queue[0].path != "" ==> s.sh.queue[0].seqNo == s.sh.seqNo && RequestOk(s, s.sh.queue[0]))
    && (forall i :: 1 <= i < QUEUE && s.sh.queue[i].path != "" ==>
          s.sh.queue[i].seqNo == -1 && RequestOk(s, s.sh.queue[i]))
    && (s.worker.Decoding? || s.worker.Holding? ==> RequestOk(s, s.worker.req))
  }

  ghost predicate PhasesOk(s: System) {
    && (s.sh.shutdown <==> !s.ui.Running?)
    && (s.ui.Closed? ==> s.sh.list == [] && s.worker.Exited?)
    && (s.worker.Exited? ==> s.sh.shutdown)
  }

  ghost predicate Inv(s: System) {
    && CacheOk(s.sh) && Conserved(s) && HeldOk(s) && NoLostSignal(s) && QueueOk(s) && PhasesOk(s)
  }

  lemma InitInv(budget: nat)
    ensures Inv(Init(budget))
  {
  }

  // ---- each region keeps the cache well formed ----

  lemma TouchKeepsCache(sh: Shared, p: string)
    requires CacheOk(sh)
    ensures CacheOk(sh.(list := Touch(sh.list, p)))
  {
    hide Touch, Sum;
    TouchKeeps(sh.list, p);
    TouchDistinct(sh.list, p);
  }

  lemma InsertKeepsCache(sh: Shared, e: Entry)
    requires CacheOk(sh) && 0 < |e.path| < MAX_PATH && !Cached(sh.list, e.path)
    ensures CacheOk(Insert(sh, e).0)
  {
    var l := [e] + sh.list;
    IndexOfIsFirst(sh.list, e.path);
    assert l[1..] == sh.list;
    assert Sum(l) == e.surf.bytes + Sum(sh.list);
    hide Sum, Evict, Evicted, Payload;
    EvictDistinct(l, sh.budget, sh.pin);
    EvictBound(l, sh.budget, sh.pin);
    EvictPayload(l, sh.budget, sh.pin);
  }

  lemma FinishKeepsCache(sh: Shared, req: Req, img: Option<Surface>, oom: bool)
    requires CacheOk(sh) && 0 < |req.path| < MAX_PATH
    ensures CacheOk(Finish(sh, req, img, oom).0)
  {
    if img.Some? && !(req.seqNo >= 0 && req.seqNo != sh.seqNo) {
      if Cached(sh.list, req.path) {
        TouchKeepsCache(sh, req.path);
      } else if !oom {
        InsertKeepsCache(sh, Entry(Clip(req.path), img.value));
      }
    }
  }

  // ---- each step conserves surfaces ----

  lemma FinishConserves(sh: Shared, req: Req, img: Option<Surface>, oom: bool, id: nat)
    ensures var (sh', f) := Finish(sh, req, img, oom);
            Held(sh'.list, id) + Freed(f, id)
              == Held(sh.list, id) + if img.Some? && img.value.id == id then 1 else 0
  {
    hide Touch, Evict, Evicted, Sum;
    if img.Some? {
      TouchHeld(sh.list, req.path, id);
      var l := [Entry(Clip(req.path), img.value)] + sh.list;
      assert l[1..] == sh.list;
      EvictConserves(l, sh.budget, sh.pin, id);
    }
  }

  lemma DecodeConserves(s: System, o: Outcome, id: nat)
    requires Enabled(s, Decode(o)) && Conserved(s)
    ensures var s' := Next(s, Decode(o)); Places(s', id) == if id < s'.created then 1 else 0
  {
    assert Places(s, id) == if id < s.created then 1 else 0;
    hide Held;
    if o.Rescaled? {
      var more := [Surface(s.created + 1, o.conv), Surface(s.created, o.raw)];
      var last := [Surface(s.created, o.raw)];
      assert more[1..] == last && last[1..] == [];
      assert Freed(last, id) == if id == s.created then 1 else 0;
      assert Freed(more, id) == if id == s.created || id == s.created + 1 then 1 else 0;
      FreedAppend(s.freed, more, id);
    }
    if o.Unscaled? {
      var spare := [Surface(s.created + 1, o.spare)];
      assert spare[1..] == [];
      FreedAppend(s.freed, spare, id);
    }
  }

  lemma OtherStepConserves(s: System, a: Action, id: nat)
    requires Enabled(s, a) && !a.Decode?
    ensures Next(s, a).created == s.created && Places(Next(s, a), id) == Places(s, id)
  {
    match a
    case WorkerFinish(oom) =>
      FinishConserves(s.sh, s.worker.req, s.worker.img, oom, id);
      FreedAppend(s.freed, Finish(s.sh, s.worker.req, s.worker.img, oom).1, id);
      hide Finish, Held, Freed;
    case AskFor(p, _, _, _) =>
      TouchHeld(s.sh.list, p, id);
      hide Touch, Held, Freed;
    case Ahead(p, _, _, _) =>
      TouchHeld(s.sh.list, p, id);
      hide Touch, Held, Freed;
    case Drain =>
      SurfacesFreed(s.sh.list, id);
      FreedAppend(s.freed, Surfaces(s.sh.list), id);
      hide Surfaces, Freed;
    case _ =>
  }

  lemma StepConserves(s: System, a: Action)
    requires Enabled(s, a) && Conserved(s)
    ensures Conserved(Next(s, a))
  {
    forall id: nat ensures Places(Next(s, a), id) == if id < Next(s, a).created then 1 else 0 {
      hide Next, Places;
      if a.Decode? {
        DecodeConserves(s, a.outcome, id);
      } else {
        OtherStepConserves(s, a, id);
      }
    }
  }

  // ---- the remaining parts of the invariant ----

  lemma StepKeepsCache(s: System, a: Action)
    requires Enabled(s, a) && CacheOk(s.sh) && QueueOk(s)
    ensures CacheOk(Next(s, a).sh)
  {
    hide Touch, Evict, Evicted, Finish;
    match a
    case WorkerFinish(oom) => FinishKeepsCache(s.sh, s.worker.req, s.worker.img, oom);
    case AskFor(p, _, _, _) => TouchKeepsCache(s.sh, p);
    case Ahead(p, _, _, _) => TouchKeepsCache(s.sh, p);
    case _ =>
  }

  lemma FinishKeepsHeld(sh: Shared, req: Req, img: Option<Surface>, oom: bool, h: Entry)
    requires Distinct(sh.list) && h in sh.list && h.path == sh.pin && 0 < |req.path| < MAX_PATH
    ensures var sh' := Finish(sh, req, img, oom).0; h in sh'.list && sh'.pin == sh.pin
  {
    if img.Some? && !(req.seqNo >= 0 && req.seqNo != sh.seqNo) {
      if Cached(sh.list, req.path) {
        TouchDistinct(sh.list, req.path);
      } else if !oom {
        var l := [Entry(req.path, img.value)] + sh.list;
        IndexOfIsFirst(sh.list, req.path);
        assert h in l;
        hide Evict, Evicted;
        assert Distinct(l);
        EvictDistinct(l, sh.budget, sh.pin);
      }
    }
  }

  lemma FinishPin(sh: Shared, req: Req, img: Option<Surface>, oom: bool)
    ensures var sh' := Finish(sh, req, img, oom).0;
            sh'.pin == sh.pin && sh'.queue == sh.queue && sh'.seqNo == sh.seqNo && sh'.shutdown == sh.shutdown
  {
  }

  lemma StepKeepsHeld(s: System, a: Action)
    requires Enabled(s, a) && CacheOk(s.sh) && QueueOk(s) && HeldOk(s)
    ensures HeldOk(Next(s, a))
  {
    hide Touch, Evict, Evicted, Finish, IndexOf;
    match a
    case WorkerFinish(oom) =>
      if s.held.Some? { FinishKeepsHeld(s.sh, s.worker.req, s.worker.img, oom, s.held.value); }
      FinishPin(s.sh, s.worker.req, s.worker.img, oom);
    case AskFor(p, _, _, _) =>
      TouchDistinct(s.sh.list, p);
      IndexOfIsFirst(s.sh.list, p);
    case Ahead(p, _, _, _) => TouchDistinct(s.sh.list, p);
    case _ =>
  }

  lemma TakeKeepsQueue(s: System)
    requires Enabled(s, WorkerLock) && QueueOk(s)
    ensures QueueOk(Next(s, WorkerLock))
  {
    var k := FirstFilled(s.sh.queue, 0);
    hide FirstFilled;
    if k < QUEUE && !s.sh.shutdown {
      var q := s.sh.queue[k := s.sh.queue[k].(path := "")];
      assert forall i :: 0 <= i < QUEUE ==> q[i].path != "" ==> q[i] == s.sh.queue[i];
    }
  }

  lemma AskKeepsQueue(s: System, a: Action)
    requires Enabled(s, a) && QueueOk(s) && CacheOk(s.sh) && a.AskFor?
    ensures QueueOk(Next(s, a))
  {
    hide Touch, IndexOf;
    var q := s.sh.queue[0 := Req(Clip(a.path), a.maxW, a.maxH, a.grow, s.sh.seqNo + 1)];
    assert forall i :: 1 <= i < QUEUE ==> q[i] == s.sh.queue[i];
  }

  lemma AheadKeepsQueue(s: System, a: Action)
    requires Enabled(s, a) && QueueOk(s) && a.Ahead?
    ensures QueueOk(Next(s, a))
  {
    hide Touch, IndexOf;
    var k := FirstFree(s.sh.queue, 1);
    hide FirstFree;
    if PrefetchFills(s.sh, a.path) {
      var q := s.sh.queue[k := Req(Clip(a.path), a.maxW, a.maxH, a.grow, -1)];
      assert forall i :: 0 <= i < QUEUE && i != k ==> q[i] == s.sh.queue[i];
    }
  }

  lemma StepKeepsQueue(s: System, a: Action)
    requires Enabled(s, a) && CacheOk(s.sh) && QueueOk(s)
    ensures QueueOk(Next(s, a))
  {
    match a
    case WorkerLock => TakeKeepsQueue(s);
    case AskFor(_, _, _, _) => AskKeepsQueue(s, a);
    case Ahead(_, _, _, _) => AheadKeepsQueue(s, a);
    case WorkerFinish(oom) =>
      FinishPin(s.sh, s.worker.req, s.worker.img, oom);
      hide Finish;
    case _ =>
  }

  lemma StepKeepsPhases(s: System, a: Action)
    requires Enabled(s, a) && PhasesOk(s) && NoLostSignal(s)
    ensures PhasesOk(Next(s, a)) && NoLostSignal(Next(s, a))
  {
    hide Touch, Evict, Evicted, Finish, IndexOf;
    if a.WorkerFinish? { FinishPin(s.sh, s.worker.req, s.worker.img, a.oom); }
  }

  lemma StepKeepsInv(s: System, a: Action)
    requires Enabled(s, a) && Inv(s)
    ensures Inv(Next(s, a))
  {
    StepKeepsCache(s, a);
    StepConserves(s, a);
    StepKeepsHeld(s, a);
    StepKeepsQueue(s, a);
    StepKeepsPhases(s, a);
  }

  /** Every interleaving of requests, prefetches, polls, worker steps and quitting keeps it. */
  lemma {:induction false} EveryRunKeepsInv(s: System, run: seq<Action>)
    requires Inv(s) && Legal(s, run)
    ensures Inv(Exec(s, run))
    decreases |run|
  {
    if run != [] {
      StepKeepsInv(s, run[0]);
      EveryRunKeepsInv(Next(s, run[0]), run[1..]);
    }
  }

  // ---- what the invariant gives over whole runs ----

  lemma {:induction false} BudgetFixed(s: System, run: seq<Action>)
    requires Legal(s, run)
    ensures Exec(s, run).sh.budget == s.sh.budget
    decreases |run|
  {
    if run != [] { BudgetFixed(Next(s, run[0]), run[1..]); }
  }

  /** From start-up, in every interleaving: cached paths are distinct, the byte counter is the
      sum over the list, the payload is within budget unless at most two entries are left, and
      every surface created so far is in exactly one place. */
  lemma CacheSafety(budget: nat, run: seq<Action>)
    requires Legal(Init(budget), run)
    ensures var s := Exec(Init(budget), run);
            && Distinct(s.sh.list)
            && s.sh.bytes == Sum(s.sh.list)
            && (s.sh.bytes <= budget || |s.sh.list| <= 2)
            && forall id: nat :: Places(s, id) == if id < s.created then 1 else 0
  {
    hide Exec, Legal;
    InitInv(budget);
    EveryRunKeepsInv(Init(budget), run);
    BudgetFixed(Init(budget), run);
  }

  lemma {:induction false} HeldOfMember(l: seq<Entry>, e: Entry)
    requires e in l
    ensures Held(l, e.surf.id) >= 1
  {
    if l[0] != e {
      assert e in l[1..];
      HeldOfMember(l[1..], e);
    }
  }

  /** The surface the UI got from its last hit is never freed before the cache is drained. */
  lemma HeldSurfaceSafe(budget: nat, run: seq<Action>)
    requires Legal(Init(budget), run) && Exec(Init(budget), run).held.Some?
    ensures var s := Exec(Init(budget), run);
            s.held.value in s.sh.list && Freed(s.freed, s.held.value.surf.id) == 0
  {
    hide Exec, Legal;
    InitInv(budget);
    EveryRunKeepsInv(Init(budget), run);
    var s := Exec(Init(budget), run);
    HeldOfMember(s.sh.list, s.held.value);
    assert Places(s, s.held.value.surf.id) <= 1;
  }

  /** When the UI has quit, every surface ever created has been freed exactly once. */
  lemma NoLeakAfterQuit(budget: nat, run: seq<Action>, id: nat)
    requires Legal(Init(budget), run) && Exec(Init(budget), run).ui.Closed?
    ensures var s := Exec(Init(budget), run);
            Freed(s.freed, id) == if id < s.created then 1 else 0
  {
    hide Exec, Legal;
    InitInv(budget);
    EveryRunKeepsInv(Init(budget), run);
    var s := Exec(Init(budget), run);
    assert Places(s, id) == Freed(s.freed, id);
  }

  /** A sleeping worker never overlooks work or a shutdown request. */
  lemma SleeperHasNothingToDo(budget: nat, run: seq<Action>)
    requires Legal(Init(budget), run) && Exec(Init(budget), run).worker.Asleep?
    ensures var s := Exec(Init(budget), run);
            !s.sh.shutdown && |s.sh.queue| == QUEUE && forall i :: 0 <= i < QUEUE ==> s.sh.queue[i].path == ""
  {
    hide Exec, Legal;
    InitInv(budget);
    EveryRunKeepsInv(Init(budget), run);
  }

  // ---- which decodes are delivered ----

  predicate Lists(l: seq<Entry>, img: Surface) { exists e :: e in l && e.surf == img }

  /** Does finishing now put the decoded image into the cache? */
  predicate Delivers(s: System) {
    && s.worker.Holding? && s.worker.img.Some?
    && (s.worker.req.seqNo < 0 || s.worker.req.seqNo == s.sh.seqNo)
    && !Cached(s.sh.list, s.worker.req.path)
  }

  /** A decode ends up in the cache exactly when Delivers says so (and memory suffices); a
      current-slot decode that does answers the newest current request that was queued. */
  lemma InsertedIffDelivers(s: System)
    requires Inv(s) && Enabled(s, WorkerFinish(false)) && s.worker.img.Some?
    ensures var s' := Next(s, WorkerFinish(false));
            && (Lists(s'.sh.list, s.worker.img.value) <==> Delivers(s))
            && (Delivers(s) ==> s'.sh.ready && s'.sh.list[0] == Entry(s.worker.req.path, s.worker.img.value))
            && (Delivers(s) && s.worker.req.seqNo >= 0 ==> s.newest == Some(s.worker.req))
  {
    var img, req := s.worker.img.value, s.worker.req;
    var s' := Next(s, WorkerFinish(false));
    assert Places(s, img.id) <= 1;
    if Lists(s.sh.list, img) {
      var e :| e in s.sh.list && e.surf == img;
      HeldOfMember(s.sh.list, e);
    }
    hide Evict, Evicted, Touch, Sum, Conserved;
    if Delivers(s) {
      var l := [Entry(req.path, img)] + s.sh.list;
      IndexOfIsFirst(s.sh.list, req.path);
      assert Distinct(l);
      EvictDistinct(l, s.sh.budget, s.sh.pin);
      assert s'.sh.list[0] in s'.sh.list;
    } else {
      TouchDistinct(s.sh.list, req.path);
    }
  }

  /** How many requests of a run queue a new current decode. */
  function NewRequests(s: System, run: seq<Action>): nat
    requires Legal(s, run)
    decreases |run|
  {
    if run == [] then 0
    else (if run[0].AskFor? && Enqueues(s.sh, run[0].path) then 1 else 0)
         + NewRequests(Next(s, run[0]), run[1..])
  }

  /** While a decode is in flight only a new request moves the sequence number. */
  lemma OneRequest(s: System, a: Action)
    requires Enabled(s, a) && !a.WorkerFinish? && (s.worker.Decoding? || s.worker.Holding?)
    ensures var t := Next(s, a);
            && t.sh.seqNo == s.sh.seqNo + (if a.AskFor? && Enqueues(s.sh, a.path) then 1 else 0)
            && (t.worker.Decoding? || t.worker.Holding?) && t.worker.req == s.worker.req
  {
    hide Touch, IndexOf;
  }

  lemma {:induction false} RequestsCount(s: System, run: seq<Action>)
    requires Legal(s, run) && forall a :: a in run ==> !a.WorkerFinish?
    requires s.worker.Decoding? || s.worker.Holding?
    ensures var t := Exec(s, run);
            && t.sh.seqNo == s.sh.seqNo + NewRequests(s, run)
            && (t.worker.Decoding? || t.worker.Holding?) && t.worker.req == s.worker.req
    decreases |run|
  {
    hide Next, Enabled, Enqueues;
    if run != [] {
      OneRequest(s, run[0]);
      RequestsCount(Next(s, run[0]), run[1..]);
    }
  }

  /** A current decode that was up to date when it was dequeued is delivered exactly when no
      request queued a new current decode in the meantime, not even for the same path. */
  lemma DeliveredIffNotSuperseded(s: System, run: seq<Action>)
    requires Inv(s) && Legal(s, run) && forall a :: a in run ==> !a.WorkerFinish?
    requires s.worker.Decoding? && s.worker.req.seqNo == s.sh.seqNo
    requires var t := Exec(s, run);
             t.worker.Holding? && t.worker.img.Some? && !Cached(t.sh.list, s.worker.req.path)
    ensures Delivers(Exec(s, run)) <==> NewRequests(s, run) == 0
  {
    RequestsCount(s, run);
  }

  /** One round: dequeue, ask for the path again while it decodes, decode, finish. */
  function Round(p: string, bytes: nat): seq<Action> {
    [WorkerLock, AskFor(p, 0, 0, false), Decode(AsDecoded(bytes)), WorkerFinish(false)]
  }

  function Rounds(p: string, bytes: nat, n: nat): seq<Action> {
    if n == 0 then [] else Round(p, bytes) + Rounds(p, bytes, n - 1)
  }

  ghost predicate Waiting(s: System, p: string) {
    && |s.sh.queue| == QUEUE && s.worker.Ready? && s.ui.Running? && !s.sh.shutdown
    && s.sh.queue[0].path == p && s.sh.queue[0].seqNo == s.sh.seqNo && s.sh.seqNo >= 0
    && !Cached(s.sh.list, p)
  }

  /** Asking for a path in a new system leaves it waiting. */
  lemma FirstRequestWaits(budget: nat, p: string)
    requires 0 < |p| < MAX_PATH
    ensures Waiting(Next(Init(budget), AskFor(p, 0, 0, false)), p)
  {
  }

  lemma OneRound(s: System, p: string, bytes: nat, rest: seq<Action>) returns (t: System)
    requires 0 < |p| < MAX_PATH && Waiting(s, p)
    ensures Waiting(t, p) && t.created == s.created + 1 && |t.freed| == |s.freed| + 1
    ensures t.sh.list == s.sh.list
    ensures Legal(t, rest) ==>
              Legal(s, Round(p, bytes) + rest) && Exec(s, Round(p, bytes) + rest) == Exec(t, rest)
  {
    hide IndexOf, Cached, Evict;
    var r := Round(p, bytes) + rest;
    var s1 := Next(s, r[0]);
    assert FirstFilled(s.sh.queue, 0) == 0;
    assert s1.worker == Decoding(s.sh.queue[0]);
    var s2 := Next(s1, r[1]);
    assert s2.sh.queue[0].path == p && s2.sh.seqNo == s.sh.seqNo + 1;
    var s3 := Next(s2, r[2]);
    t := Next(s3, r[3]);
    assert r[1..][0] == r[1] && r[1..][1..][0] == r[2] && r[1..][1..][1..][0] == r[3];
    assert r[1..][1..][1..][1..] == rest;
    if Legal(t, rest) {
      assert Legal(s3, r[1..][1..][1..]) && Exec(s3, r[1..][1..][1..]) == Exec(t, rest);
      assert Legal(s2, r[1..][1..]) && Exec(s2, r[1..][1..]) == Exec(t, rest);
      assert Legal(s1, r[1..]) && Exec(s1, r[1..]) == Exec(t, rest);
    }
  }

  /** If the UI asks for a path again during each of its decodes, the path is decoded n times,
      every result is dropped, and the path is still not cached: for every n. */
  lemma {:induction false} RepeatedRequestStarves(s: System, p: string, bytes: nat, n: nat)
    requires 0 < |p| < MAX_PATH && Waiting(s, p)
    ensures Legal(s, Rounds(p, bytes, n))
    ensures var t := Exec(s, Rounds(p, bytes, n));
            && Waiting(t, p) && t.sh.list == s.sh.list
            && t.created == s.created + n && |t.freed| == |s.freed| + n
    decreases n
  {
    if n > 0 {
      var t := OneRound(s, p, bytes, Rounds(p, bytes, n - 1));
      hide Round, Legal, Exec, Waiting;
      RepeatedRequestStarves(t, p, bytes, n - 1);
    }
  }

  // ---- a decode that lands is announced ----

  /** What a poll in this state returns. */
  predicate PollReturns(s: System) { s.sh.ready }

  /** The state before action k of a run. */
  function At(s: System, run: seq<Action>, k: nat): System
    requires Legal(s, run) && k <= |run|
    decreases |run|
  {
    if k == 0 then s else At(Next(s, run[0]), run[1..], k - 1)
  }

  /** A path cached in one list only is there with an entry of its own. */
  lemma NewEntry(l: seq<Entry>, l': seq<Entry>, p: string)
    requires !Cached(l, p)
    ensures Cached(l', p) ==> exists e :: e in l' && e !in l && e.path == p
  {
    IndexOfIsFirst(l, p);
    IndexOfIsFirst(l', p);
    if Cached(l', p) {
      var e := l'[IndexOf(l', p)];
      assert e in l' && e !in l;
    }
  }

  lemma TouchLandsNothing(l: seq<Entry>, q: string, p: string)
    requires Distinct(l) && !Cached(l, p)
    ensures !Cached(Touch(l, q), p)
  {
    TouchDistinct(l, q);
    hide Touch;
    NewEntry(l, Touch(l, q), p);
  }

  /** What the worker's second region adds to the list is the path it decoded, announced. */
  lemma FinishAdds(sh: Shared, req: Req, img: Option<Surface>, oom: bool, e: Entry)
    requires Distinct(sh.list) && 0 < |req.path| < MAX_PATH
    requires e in Finish(sh, req, img, oom).0.list && e !in sh.list
    ensures e.path == req.path && Finish(sh, req, img, oom).0.ready
  {
    hide IndexOf, Evict, Evicted, Touch, Payload;
    if img.Some? && !(req.seqNo >= 0 && req.seqNo != sh.seqNo) {
      if Cached(sh.list, req.path) {
        TouchDistinct(sh.list, req.path);
      } else if !oom {
        var l := [Entry(req.path, img.value)] + sh.list;
        IndexOfIsFirst(sh.list, req.path);
        assert Distinct(l);
        EvictDistinct(l, sh.budget, sh.pin);
      }
    }
  }

  lemma FinishLands(s: System, oom: bool, p: string)
    requires Inv(s) && Enabled(s, WorkerFinish(oom))
    requires !Cached(s.sh.list, p) && Cached(Next(s, WorkerFinish(oom)).sh.list, p)
    ensures s.worker.req.path == p && Next(s, WorkerFinish(oom)).sh.ready
  {
    hide Finish, Cached, Conserved;
    NewEntry(s.sh.list, Next(s, WorkerFinish(oom)).sh.list, p);
    var e :| e in Next(s, WorkerFinish(oom)).sh.list && e !in s.sh.list && e.path == p;
    FinishAdds(s.sh, s.worker.req, s.worker.img, oom, e);
  }

  lemma LandingRaisesReady(s: System, a: Action, p: string)
    requires Inv(s) && Enabled(s, a)
    requires !Cached(s.sh.list, p) && Cached(Next(s, a).sh.list, p)
    ensures a.WorkerFinish? && s.worker.req.path == p && Next(s, a).sh.ready
  {
    match a
    case AskFor(q, _, _, _) => TouchLandsNothing(s.sh.list, q, p);
    case Ahead(q, _, _, _) => TouchLandsNothing(s.sh.list, q, p);
    case WorkerFinish(oom) => FinishLands(s, oom, p);
    case _ =>
  }

  lemma FlagKept(s: System, a: Action)
    requires Enabled(s, a) && !a.Poll? && s.sh.ready
    ensures Next(s, a).sh.ready
  {
    hide IndexOf, Evict, Touch, Cached;
  }

  /** Only a poll that returns true takes the flag down. */
  lemma {:induction false} FlagClearedByPoll(s: System, run: seq<Action>) returns (m: nat)
    requires Legal(s, run) && s.sh.ready && !Exec(s, run).sh.ready
    ensures m < |run| && run[m].Poll? && PollReturns(At(s, run, m))
    decreases |run|
  {
    if run[0].Poll? {
      m := 0;
    } else {
      assert Next(s, run[0]).sh.ready by { FlagKept(s, run[0]); }
      var j := FlagClearedByPoll(Next(s, run[0]), run[1..]);
      m := j + 1;
    }
  }

  /** A path that was missing and is cached later landed in between, and its landing is still
      announced or has been: the flag is up now, or a poll since then returned true. */
  lemma {:induction false} LandedIsAnnounced(s: System, run: seq<Action>, p: string) returns (k: nat)
    requires Inv(s) && Legal(s, run)
    requires !Cached(s.sh.list, p) && Cached(Exec(s, run).sh.list, p)
    ensures k < |run| && run[k].WorkerFinish? && At(s, run, k + 1).sh.ready
    ensures !Cached(At(s, run, k).sh.list, p) && Cached(At(s, run, k + 1).sh.list, p)
    ensures Exec(s, run).sh.ready
            || exists m :: k < m < |run| && run[m].Poll? && PollReturns(At(s, run, m))
    decreases |run|
  {
    var s1 := Next(s, run[0]);
    StepKeepsInv(s, run[0]);
    if Cached(s1.sh.list, p) {
      LandingRaisesReady(s, run[0], p);
      k := 0;
      assert At(s, run, 1) == s1 by { assert At(s1, run[1..], 0) == s1; }
      if !Exec(s, run).sh.ready {
        var m := FlagClearedByPoll(s1, run[1..]);
        assert run[m + 1] == run[1..][m] && At(s, run, m + 1) == At(s1, run[1..], m);
      }
    } else {
      var j := LandedIsAnnounced(s1, run[1..], p);
      k := j + 1;
      assert At(s, run, k) == At(s1, run[1..], j) && At(s, run, k + 1) == At(s1, run[1..], j + 1);
      if !Exec(s, run).sh.ready {
        var m :| j < m < |run[1..]| && run[1..][m].Poll? && PollReturns(At(s1, run[1..], m));
        assert run[m + 1] == run[1..][m] && At(s, run, m + 1) == At(s1, run[1..], m);
      }
    }
  }

  // ---- progress once the UI stops asking ----

  predicate WorkerAction(a: Action) { a.WorkerLock? || a.Decode? || a.WorkerFinish? }

  function Filled(q: seq<Req>): nat
    requires |q| == QUEUE
  {
    (if q[0].path != "" then 1 else 0) + (if q[1].path != "" then 1 else 0) + (if q[2].path != "" then 1 else 0)
  }

  /** Worker steps still to come: three for each queued request, and those of its own phase. */
  function Work(s: System): nat
    requires |s.sh.queue| == QUEUE
  {
    3 * Filled(s.sh.queue)
    + match s.worker
      case Ready => 1
      case Asleep => 0
      case Decoding(_) => 3
      case Holding(_, _) => 2
      case Exited => 0
  }

  lemma WorkerStepProgress(s: System, a: Action)
    requires Enabled(s, a) && WorkerAction(a)
    ensures |Next(s, a).sh.queue| == QUEUE && Work(Next(s, a)) < Work(s)
  {
    hide Evict, Touch, Cached;
    if a.WorkerLock? {
      var k := FirstFilled(s.sh.queue, 0);
    }
  }

  /** With only the worker running, it stops after at most Work(s) <= 12 steps, and where it
      can go no further the queue is empty or it has left on request. */
  lemma {:induction false} QueueDrains(s: System, run: seq<Action>)
    requires Inv(s) && Legal(s, run) && forall a :: a in run ==> WorkerAction(a)
    ensures |run| <= Work(s) <= 12
    ensures var t := Exec(s, run);
            || (t.worker.Asleep? && |t.sh.queue| == QUEUE && Filled(t.sh.queue) == 0 && !t.sh.shutdown)
            || (t.worker.Exited? && t.sh.shutdown)
            || exists a :: WorkerAction(a) && Enabled(t, a)
    decreases |run|
  {
    if run == [] {
      match s.worker
      case Ready => assert WorkerAction(WorkerLock) && Enabled(s, WorkerLock);
      case Decoding(_) => assert WorkerAction(Decode(NoImage)) && Enabled(s, Decode(NoImage));
      case Holding(_, _) => assert WorkerAction(WorkerFinish(false)) && Enabled(s, WorkerFinish(false));
      case _ =>
    } else {
      WorkerStepProgress(s, run[0]);
      StepKeepsInv(s, run[0]);
      QueueDrains(Next(s, run[0]), run[1..]);
    }
  }
}
