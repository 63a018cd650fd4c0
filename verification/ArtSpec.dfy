/** What one locked region of the box-art cache does, as functions on values.
    A cache is its list of entries, most recently used first. */
module ArtSpec {
  import opened Options

  const MAX_PATH: nat := 512

  const QUEUE: nat := 3 // slot 0 is the current request, slots 1 and 2 are prefetches

  /** A decoded surface: an identity and its pixel payload in bytes (height times pitch). */
  datatype Surface = Surface(id: nat, bytes: nat)

  datatype Entry = Entry(path: string, surf: Surface)

  /** One queue slot; the empty path marks an empty slot. */
  datatype Req = Req(path: string, maxW: int, maxH: int, grow: bool, seqNo: int)

  const EMPTY_REQ := Req("", 0, 0, false, 0)

  /** strncpy into a MAX_PATH buffer whose last byte stays NUL. */
  function Clip(p: string): string {
    if |p| < MAX_PATH then p else p[..MAX_PATH - 1]
  }

  // ---- the list ----

  function Sum(l: seq<Entry>): nat {
    if l == [] then 0 else l[0].surf.bytes + Sum(l[1..])
  }

  /** Position of the first entry for path p, or -1. */
  function IndexOf(l: seq<Entry>, p: string): (i: int)
    ensures -1 <= i < |l|
  {
    if l == [] then -1
    else if l[0].path == p then 0
    else var k := IndexOf(l[1..], p); if k < 0 then -1 else k + 1
  }

  lemma {:induction false} IndexOfIsFirst(l: seq<Entry>, p: string)
    ensures var i := IndexOf(l, p);
            && (i >= 0 ==> l[i].path == p)
            && forall j :: 0 <= j < (if i < 0 then |l| else i) ==> l[j].path != p
  {
    if l != [] && l[0].path != p {
      IndexOfIsFirst(l[1..], p);
    }
  }

  predicate Cached(l: seq<Entry>, p: string) { IndexOf(l, p) >= 0 }

  /** The list without its element v. */
  function Without<T>(l: seq<T>, v: nat): (w: seq<T>)
    requires v < |l|
    ensures |w| == |l| - 1
  {
    if v == 0 then l[1..] else [l[0]] + Without(l[1..], v - 1)
  }

  lemma {:induction false} WithoutAt<T>(l: seq<T>, v: nat, k: nat)
    requires v < |l| && k < |l| - 1
    ensures Without(l, v)[k] == l[if k < v then k else k + 1]
  {
    if v > 0 && k > 0 { WithoutAt(l[1..], v - 1, k - 1); }
  }

  /** A lookup moves the entry it hits to the front. */
  function Touch(l: seq<Entry>, p: string): seq<Entry> {
    var i := IndexOf(l, p);
    if i < 0 then l else [l[i]] + Without(l, i)
  }

  /** The last entry that is not pinned, or -1. */
  function LastUnpinned(l: seq<Entry>, pin: string): (v: int)
    ensures -1 <= v < |l|
  {
    if l == [] then -1
    else
      var k := LastUnpinned(l[1..], pin);
      if k >= 0 then k + 1 else if l[0].path != pin then 0 else -1
  }

  /** The eviction victim: the last entry that is neither the head nor pinned, or -1. */
  function LastVictim(l: seq<Entry>, pin: string): (v: int)
    ensures -1 <= v < |l| && v != 0
  {
    if l == [] then -1
    else var k := LastUnpinned(l[1..], pin); if k < 0 then -1 else k + 1
  }

  lemma {:induction false} LastUnpinnedIsLast(l: seq<Entry>, pin: string)
    ensures var v := LastUnpinned(l, pin);
            && (v >= 0 ==> l[v].path != pin)
            && forall j :: v < j < |l| ==> l[j].path == pin
  {
    if l != [] {
      LastUnpinnedIsLast(l[1..], pin);
    }
  }

  lemma LastVictimIsLast(l: seq<Entry>, pin: string)
    ensures var v := LastVictim(l, pin);
            && (v >= 0 ==> l[v].path != pin)
            && forall j :: 1 <= j < |l| && v < j ==> l[j].path == pin
  {
    if l != [] {
      LastUnpinnedIsLast(l[1..], pin);
    }
  }

  /** Evict victims one at a time while the payload exceeds the budget. */
  function Evict(l: seq<Entry>, budget: nat, pin: string): seq<Entry>
    decreases |l|
  {
    var v := LastVictim(l, pin);
    if Sum(l) <= budget || v < 0 then l else Evict(Without(l, v), budget, pin)
  }

  /** The surfaces that Evict frees, in the order it frees them. */
  function Evicted(l: seq<Entry>, budget: nat, pin: string): seq<Surface>
    decreases |l|
  {
    var v := LastVictim(l, pin);
    if Sum(l) <= budget || v < 0 then [] else [l[v].surf] + Evicted(Without(l, v), budget, pin)
  }

  // ---- what eviction means, independently of how it proceeds ----

  function Pinned(l: seq<Entry>, pin: string): seq<Entry> {
    if l == [] then []
    else if l[0].path == pin then [l[0]] + Pinned(l[1..], pin)
    else Pinned(l[1..], pin)
  }

  /** The t most recent entries, and of the older ones only the pinned. */
  function Keep(l: seq<Entry>, t: nat, pin: string): seq<Entry>
    requires t <= |l|
  {
    if t == 0 then Pinned(l, pin) else [l[0]] + Keep(l[1..], t - 1, pin)
  }

  lemma {:induction false} SumWithout(l: seq<Entry>, v: nat)
    requires v < |l|
    ensures Sum(Without(l, v)) == Sum(l) - l[v].surf.bytes
  {
    if v > 0 {
      SumWithout(l[1..], v - 1);
      assert Without(l, v)[1..] == Without(l[1..], v - 1);
    }
  }

  /** Keeping past the last unpinned entry keeps everything. */
  lemma {:induction false} KeepAll(l: seq<Entry>, t: nat, pin: string)
    requires t <= |l|
    requires forall j :: t <= j < |l| ==> l[j].path == pin
    ensures Keep(l, t, pin) == l
  {
    if l != [] {
      KeepAll(l[1..], if t == 0 then 0 else t - 1, pin);
      assert l == [l[0]] + l[1..];
    }
  }

  /** Dropping an unpinned entry at or after the threshold does not change what is kept. */
  lemma {:induction false} KeepWithout(l: seq<Entry>, v: nat, t: nat, pin: string)
    requires t <= v < |l| && l[v].path != pin
    ensures Keep(Without(l, v), t, pin) == Keep(l, t, pin)
  {
    if v > 0 {
      KeepWithout(l[1..], v - 1, if t == 0 then 0 else t - 1, pin);
      assert Without(l, v)[1..] == Without(l[1..], v - 1);
    }
  }

  /** t cuts the list l at a recency threshold: the entries evicted are exactly the unpinned
      ones at or past t, one victim fewer would still be over budget, and what is left is
      within budget or holds nothing more to evict. */
  ghost predicate IsCut(l: seq<Entry>, budget: nat, pin: string, t: nat) {
    && t <= |l|
    && (t < |l| ==> l[t].path != pin && Sum(Keep(l, t + 1, pin)) > budget)
    && (Sum(Keep(l, t, pin)) <= budget || forall i :: 1 <= i < t ==> l[i].path == pin)
  }

  lemma CutBefore(l: seq<Entry>, v: nat, budget: nat, pin: string, t: nat)
    requires t < v < |l| && l[v].path != pin
    requires IsCut(Without(l, v), budget, pin, t)
    ensures IsCut(l, budget, pin, t) && Keep(l, t, pin) == Keep(Without(l, v), t, pin)
  {
    hide Keep, Without, Sum;
    KeepWithout(l, v, t, pin);
    KeepWithout(l, v, t + 1, pin);
    WithoutAt(l, v, t);
    forall i | 1 <= i < t ensures Without(l, v)[i] == l[i] { WithoutAt(l, v, i); }
  }

  lemma CutAt(l: seq<Entry>, v: nat, budget: nat, pin: string, t: nat)
    requires 1 <= v <= t < |l| && l[v].path != pin && Sum(l) > budget
    requires forall j :: v < j < |l| ==> l[j].path == pin
    requires IsCut(Without(l, v), budget, pin, t)
    ensures IsCut(l, budget, pin, v) && Keep(l, v, pin) == Keep(Without(l, v), t, pin)
  {
    hide Keep, Without, Sum;
    var w := Without(l, v);
    assert Keep(w, v, pin) == w && Keep(w, t, pin) == w by {
      forall j | v <= j < |w| ensures w[j].path == pin { WithoutAt(l, v, j); }
      KeepAll(w, v, pin);
      KeepAll(w, t, pin);
    }
    KeepWithout(l, v, v, pin);
    KeepAll(l, v + 1, pin);
    forall i | 1 <= i < v && w[i].path == pin ensures l[i].path == pin { WithoutAt(l, v, i); }
  }

  lemma {:induction false} EvictIsCut(l: seq<Entry>, budget: nat, pin: string) returns (t: nat)
    requires |l| > 0
    ensures 1 <= t && IsCut(l, budget, pin, t) && Evict(l, budget, pin) == Keep(l, t, pin)
    decreases |l|
  {
    var v := LastVictim(l, pin);
    LastVictimIsLast(l, pin);
    hide LastVictim, Keep, Without, Sum;
    if Sum(l) <= budget || v < 0 {
      t := |l|;
      KeepAll(l, t, pin);
    } else {
      t := EvictIsCut(Without(l, v), budget, pin);
      if t < v {
        CutBefore(l, v, budget, pin, t);
      } else {
        CutAt(l, v, budget, pin, t);
        t := v;
      }
    }
  }

  /** Eviction is exactly least-recently-used among the unpinned entries behind the head. */
  lemma EvictIsLeastRecentlyUsed(l: seq<Entry>, budget: nat, pin: string)
    requires |l| > 0
    ensures exists t: nat :: 1 <= t && IsCut(l, budget, pin, t) && Evict(l, budget, pin) == Keep(l, t, pin)
  {
    var t := EvictIsCut(l, budget, pin);
  }

  // ---- identity of the surfaces ----

  /** How many entries hold the surface with this identity. */
  function Held(l: seq<Entry>, id: nat): nat {
    if l == [] then 0 else (if l[0].surf.id == id then 1 else 0) + Held(l[1..], id)
  }

  /** How often the surface with this identity occurs in a list of freed surfaces. */
  function Freed(f: seq<Surface>, id: nat): nat {
    if f == [] then 0 else (if f[0].id == id then 1 else 0) + Freed(f[1..], id)
  }

  lemma {:induction false} FreedAppend(a: seq<Surface>, b: seq<Surface>, id: nat)
    ensures Freed(a + b, id) == Freed(a, id) + Freed(b, id)
  {
    if a == [] {
      assert a + b == b;
    } else {
      assert (a + b)[1..] == a[1..] + b;
      FreedAppend(a[1..], b, id);
    }
  }

  lemma {:induction false} HeldWithout(l: seq<Entry>, v: nat, id: nat)
    requires v < |l|
    ensures Held(l, id) == Held(Without(l, v), id) + if l[v].surf.id == id then 1 else 0
  {
    if v > 0 {
      HeldWithout(l[1..], v - 1, id);
      assert Without(l, v)[1..] == Without(l[1..], v - 1);
    }
  }

  /** Every surface of the list is afterwards either still listed or freed, as often as before. */
  lemma {:induction false} EvictConserves(l: seq<Entry>, budget: nat, pin: string, id: nat)
    ensures Held(Evict(l, budget, pin), id) + Freed(Evicted(l, budget, pin), id) == Held(l, id)
    decreases |l|
  {
    hide LastVictim, Without, Sum, Held;
    var v := LastVictim(l, pin);
    if Sum(l) > budget && v >= 0 {
      var w := Without(l, v);
      EvictConserves(w, budget, pin, id);
      HeldWithout(l, v, id);
      FreedAppend([l[v].surf], Evicted(w, budget, pin), id);
    }
  }

  lemma TouchKeeps(l: seq<Entry>, p: string)
    ensures Sum(Touch(l, p)) == Sum(l) && |Touch(l, p)| == |l|
  {
    var i := IndexOf(l, p);
    if i >= 0 {
      assert ([l[i]] + Without(l, i))[1..] == Without(l, i);
      SumWithout(l, i);
    }
  }

  lemma TouchHeld(l: seq<Entry>, p: string, id: nat)
    ensures Held(Touch(l, p), id) == Held(l, id)
  {
    var i := IndexOf(l, p);
    if i >= 0 {
      assert ([l[i]] + Without(l, i))[1..] == Without(l, i);
      HeldWithout(l, i, id);
    }
  }

  // ---- membership and distinct paths ----

  predicate Distinct(l: seq<Entry>) {
    forall i, j :: 0 <= i < j < |l| ==> l[i].path != l[j].path
  }

  lemma {:induction false} InWithout<T>(l: seq<T>, v: nat, e: T)
    requires v < |l|
    ensures e in Without(l, v) ==> e in l
    ensures e in l && e != l[v] ==> e in Without(l, v)
  {
    if v > 0 { InWithout(l[1..], v - 1, e); }
  }

  lemma DistinctWithout(l: seq<Entry>, v: nat)
    requires v < |l| && Distinct(l)
    ensures Distinct(Without(l, v))
    ensures forall k :: 0 <= k < |l| - 1 ==> Without(l, v)[k].path != l[v].path
  {
    hide Without;
    forall k | 0 <= k < |l| - 1 ensures Without(l, v)[k] == l[if k < v then k else k + 1] {
      WithoutAt(l, v, k);
    }
  }

  lemma TouchDistinct(l: seq<Entry>, p: string)
    requires Distinct(l)
    ensures Distinct(Touch(l, p))
    ensures forall e :: e in Touch(l, p) <==> e in l
  {
    var i := IndexOf(l, p);
    if i >= 0 {
      DistinctWithout(l, i);
      forall e ensures e in Touch(l, p) <==> e in l { InWithout(l, i, e); }
    }
  }

  lemma {:induction false} EvictDistinct(l: seq<Entry>, budget: nat, pin: string)
    requires Distinct(l)
    ensures Distinct(Evict(l, budget, pin))
    ensures forall e :: e in Evict(l, budget, pin) ==> e in l
    ensures forall e :: e in l && e.path == pin ==> e in Evict(l, budget, pin)
    ensures |l| > 0 ==> |Evict(l, budget, pin)| > 0 && Evict(l, budget, pin)[0] == l[0]
    decreases |l|
  {
    var v := LastVictim(l, pin);
    LastVictimIsLast(l, pin);
    hide LastVictim, Sum, Without, Distinct;
    if Sum(l) > budget && v >= 0 {
      var w := Without(l, v);
      DistinctWithout(l, v);
      EvictDistinct(w, budget, pin);
      forall e ensures (e in w ==> e in l) && (e in l && e.path == pin ==> e in w) { InWithout(l, v, e); }
      WithoutAt(l, v, 0);
    }
  }

  lemma {:induction false} EvictStops(l: seq<Entry>, budget: nat, pin: string)
    ensures var r := Evict(l, budget, pin); Sum(r) <= budget || LastVictim(r, pin) < 0
    decreases |l|
  {
    hide LastVictim, Sum, Without;
    var v := LastVictim(l, pin);
    if Sum(l) > budget && v >= 0 {
      EvictStops(Without(l, v), budget, pin);
    }
  }

  /** With distinct paths, an eviction that stays over budget leaves at most head and pin. */
  lemma EvictBound(l: seq<Entry>, budget: nat, pin: string)
    requires Distinct(l) && |l| > 0
    ensures var r := Evict(l, budget, pin);
            Sum(r) <= budget || |r| == 1 || (|r| == 2 && r[1].path == pin)
  {
    var r := Evict(l, budget, pin);
    EvictDistinct(l, budget, pin);
    EvictStops(l, budget, pin);
    LastVictimIsLast(r, pin);
    hide LastVictim, Sum, Evict;
    if Sum(r) > budget && |r| >= 2 {
      var k := if |r| > 2 then 2 else 1;
      assert r[1].path == pin && r[k].path == pin;
    }
  }

  // ---- the locked regions ----

  /** Everything the mutex guards. */
  datatype Shared = Shared(
    list: seq<Entry>,
    bytes: int,
    budget: nat,
    queue: seq<Req>,
    seqNo: int,
    pin: string,
    ready: bool,
    shutdown: bool)

  function Payload(f: seq<Surface>): nat {
    if f == [] then 0 else f[0].bytes + Payload(f[1..])
  }

  datatype Taken = Exit | Sleep | Got(req: Req)

  /** First filled slot at or after i, or QUEUE. */
  function FirstFilled(q: seq<Req>, i: nat): (k: nat)
    requires |q| == QUEUE && i <= QUEUE
    ensures i <= k <= QUEUE
    ensures k < QUEUE ==> q[k].path != ""
    ensures forall j :: i <= j < k ==> q[j].path == ""
    decreases QUEUE - i
  {
    if i == QUEUE then QUEUE else if q[i].path != "" then i else FirstFilled(q, i + 1)
  }

  function FirstFree(q: seq<Req>, i: nat): (k: nat)
    requires |q| == QUEUE && i <= QUEUE
    ensures i <= k <= QUEUE
    ensures k < QUEUE ==> q[k].path == ""
    ensures forall j :: i <= j < k ==> q[j].path != ""
    decreases QUEUE - i
  {
    if i == QUEUE then QUEUE else if q[i].path == "" then i else FirstFree(q, i + 1)
  }

  /** The worker's dequeue: leave, sleep on the condition, or take the first filled slot. */
  function Take(s: Shared): (Shared, Taken)
    requires |s.queue| == QUEUE
  {
    var k := FirstFilled(s.queue, 0);
    if s.shutdown then (s, Exit)
    else if k == QUEUE then (s, Sleep)
    else (s.(queue := s.queue[k := s.queue[k].(path := "")]), Got(s.queue[k]))
  }

  /** Linking a new head entry and evicting down to the budget. */
  function Insert(s: Shared, e: Entry): (Shared, seq<Surface>) {
    var l := [e] + s.list;
    var f := Evicted(l, s.budget, s.pin);
    (s.(list := Evict(l, s.budget, s.pin), bytes := s.bytes + e.surf.bytes - Payload(f)), f)
  }

  /** The worker's hand-over of a decode; the second result is what it frees. */
  function Finish(s: Shared, req: Req, img: Option<Surface>, oom: bool): (Shared, seq<Surface>) {
    if img.None? then (s, [])
    else if req.seqNo >= 0 && req.seqNo != s.seqNo then (s, [img.value])
    else if Cached(s.list, req.path) then (s.(list := Touch(s.list, req.path)), [img.value])
    else if oom then (s.(ready := true), [img.value])
    else
      var (s', f) := Insert(s, Entry(Clip(req.path), img.value));
      (s'.(ready := true), f)
  }

  /** The UI asks for a surface: a hit pins and returns it, a miss queues it as current. */
  function Request(s: Shared, path: string, maxW: int, maxH: int, grow: bool): (Shared, Option<Surface>)
    requires |s.queue| == QUEUE
  {
    if path == "" then (s, None)
    else if Cached(s.list, path) then
      (s.(list := Touch(s.list, path), pin := Clip(path)), Some(s.list[IndexOf(s.list, path)].surf))
    else if s.queue[0].path != path then
      (s.(seqNo := s.seqNo + 1, queue := s.queue[0 := Req(Clip(path), maxW, maxH, grow, s.seqNo + 1)]), None)
    else (s, None)
  }

  /** Does this request queue a new current decode (and so signal the worker)? */
  predicate Enqueues(s: Shared, path: string)
    requires |s.queue| == QUEUE
  {
    path != "" && !Cached(s.list, path) && s.queue[0].path != path
  }

  /** Does this prefetch fill a slot (and so signal the worker)? */
  predicate PrefetchFills(s: Shared, path: string)
    requires |s.queue| == QUEUE
  {
    && path != "" && !Cached(s.list, path)
    && (forall i :: 0 <= i < QUEUE ==> s.queue[i].path != path)
    && FirstFree(s.queue, 1) < QUEUE
  }

  function Prefetch(s: Shared, path: string, maxW: int, maxH: int, grow: bool): Shared
    requires |s.queue| == QUEUE
  {
    if path == "" then s
    else if Cached(s.list, path) then s.(list := Touch(s.list, path))
    else if PrefetchFills(s, path) then
      s.(queue := s.queue[FirstFree(s.queue, 1) := Req(Clip(path), maxW, maxH, grow, -1)])
    else s
  }

  function Surfaces(l: seq<Entry>): seq<Surface> {
    if l == [] then [] else [l[0].surf] + Surfaces(l[1..])
  }

  lemma {:induction false} EvictPayload(l: seq<Entry>, budget: nat, pin: string)
    ensures Sum(Evict(l, budget, pin)) + Payload(Evicted(l, budget, pin)) == Sum(l)
    decreases |l|
  {
    var v := LastVictim(l, pin);
    if Sum(l) > budget && v >= 0 {
      EvictPayload(Without(l, v), budget, pin);
      SumWithout(l, v);
      var rest := Evicted(Without(l, v), budget, pin);
      assert ([l[v].surf] + rest)[1..] == rest;
    }
  }

  lemma {:induction false} SurfacesFreed(l: seq<Entry>, id: nat)
    ensures Freed(Surfaces(l), id) == Held(l, id)
  {
    if l != [] {
      SurfacesFreed(l[1..], id);
      assert ([l[0].surf] + Surfaces(l[1..]))[1..] == Surfaces(l[1..]);
    }
  }
}
