/** The box-art cache as it is held in memory: a singly linked list updated in place, a byte
    counter, and a fixed array of queue slots. Each method is one region under the mutex and
    is proved against the function of the same name in ArtSpec. */
module ArtCache {
  import opened Options
  import opened ArtSpec

  class Node {
    const path: string
    const surf: Surface
    var next: Node?

    constructor (path: string, surf: Surface, next: Node?)
      ensures this.path == path && this.surf == surf && this.next == next
    {
      this.path, this.surf, this.next := path, surf, next;
    }
  }

  function ToEntry(n: Node): Entry { Entry(n.path, n.surf) }

  function ToList(ns: seq<Node>): (l: seq<Entry>)
    ensures |l| == |ns| && forall i :: 0 <= i < |ns| ==> l[i] == ToEntry(ns[i])
  {
    if ns == [] then [] else [ToEntry(ns[0])] + ToList(ns[1..])
  }

  lemma {:induction false} ToListWithout(ns: seq<Node>, v: nat)
    requires v < |ns|
    ensures ToList(Without(ns, v)) == Without(ToList(ns), v)
  {
    if v > 0 {
      ToListWithout(ns[1..], v - 1);
      assert Without(ns, v)[1..] == Without(ns[1..], v - 1);
    }
  }

  lemma ToListCons(n: Node, ns: seq<Node>)
    ensures ToList([n] + ns) == [ToEntry(n)] + ToList(ns)
  {
    assert ([n] + ns)[1..] == ns;
  }

  lemma NoMove(ns: seq<Node>)
    requires |ns| > 0
    ensures [ns[0]] + Without(ns, 0) == ns
  {
  }

  function NodeAt(ns: seq<Node>, i: nat): Node? {
    if i < |ns| then ns[i] else null
  }

  /** One round of eviction, with f already freed. */
  lemma EvictStep(l: seq<Entry>, f: seq<Surface>, budget: nat, pin: string)
    requires Sum(l) > budget && LastVictim(l, pin) >= 0
    ensures var v := LastVictim(l, pin);
            && Evict(l, budget, pin) == Evict(Without(l, v), budget, pin)
            && f + Evicted(l, budget, pin) == (f + [l[v].surf]) + Evicted(Without(l, v), budget, pin)
  {
  }

  lemma EvictDone(l: seq<Entry>, f: seq<Surface>, budget: nat, pin: string)
    requires Sum(l) <= budget || LastVictim(l, pin) < 0
    ensures Evict(l, budget, pin) == l && f + Evicted(l, budget, pin) == f
  {
  }

  /** One round of draining, with f already freed. */
  lemma DrainStep(ns: seq<Node>, f: seq<Surface>)
    requires ns != []
    ensures f + Surfaces(ToList(ns)) == (f + [ns[0].surf]) + Surfaces(ToList(ns[1..]))
  {
    assert ToList(ns)[1..] == ToList(ns[1..]);
  }

  lemma DrainDone(f: seq<Surface>)
    ensures ToList([]) == [] && f + Surfaces([]) == f && Sum([]) == 0
  {
  }

  class Cache {
    var head: Node?
    var bytes: int
    const budget: nat
    const queue: array<Req>
    var seqNo: int
    var pin: string
    var ready: bool
    var shutdown: bool
    ghost var nodes: seq<Node>      // the list, most recently used first
    ghost var repr: set<Node>       // every node allocated so far
    ghost var freed: seq<Surface>   // every surface freed so far, oldest first

    /** The node list follows the next pointers from head and repeats no node. */
    ghost predicate Linked()
      reads `head, `nodes, `repr, repr`next
    {
      && head == NodeAt(nodes, 0)
      && (forall i {:trigger nodes[i]} :: 0 <= i < |nodes| ==> nodes[i] in repr)
      && (forall i, j :: 0 <= i < j < |nodes| ==> nodes[i] != nodes[j])
      && (forall i {:trigger nodes[i].next} :: 0 <= i < |nodes| ==> nodes[i].next == NodeAt(nodes, i + 1))
    }

    ghost predicate Valid()
      reads `head, `nodes, `repr, `bytes, repr`next
    {
      && queue.Length == QUEUE
      && Linked()
      && bytes == Sum(ToList(nodes))
    }

    ghost function Abs(): Shared
      reads this, queue
    {
      Shared(ToList(nodes), bytes, budget, queue[..], seqNo, pin, ready, shutdown)
    }

    constructor (budget: nat)
      ensures Valid() && nodes == [] && repr == {} && freed == [] && fresh(queue)
      ensures Abs() == Shared([], 0, budget, [EMPTY_REQ, EMPTY_REQ, EMPTY_REQ], 0, "", false, false)
    {
      head, bytes, nodes, repr, freed := null, 0, [], {}, [];
      this.budget := budget;
      queue := new Req[QUEUE](_ => EMPTY_REQ);
      seqNo, pin, ready, shutdown := 0, "", false, false;
      new;
      assert queue[..] == [EMPTY_REQ, EMPTY_REQ, EMPTY_REQ];
    }

    // ---- pointer operations ----

    /** Walk to the first node for a path, remembering the one before it. */
    method Search(path: string) returns (e: Node?, prev: Node?, ghost i: nat)
      requires Linked()
      ensures i <= |nodes| && e == NodeAt(nodes, i) && prev == if i == 0 then null else nodes[i - 1]
      ensures IndexOf(ToList(nodes), path) == if e == null then -1 else i
    {
      ghost var l := ToList(nodes);
      e, prev, i := head, null, 0;
      while e != null && e.path != path
        invariant i <= |nodes|
        invariant e == NodeAt(nodes, i) && prev == if i == 0 then null else nodes[i - 1]
        invariant forall j :: 0 <= j < i ==> l[j].path != path
        decreases |nodes| - i
      {
        prev := e;
        e := e.next;
        i := i + 1;
      }
      IndexOfIsFirst(l, path);
    }

    /** Relink the node at position i > 0 to the front of the list. */
    method MoveToFront(prev: Node, e: Node, ghost i: nat)
      requires Linked() && 0 < i < |nodes| && nodes[i] == e && nodes[i - 1] == prev
      modifies this`head, this`nodes, prev`next, e`next
      ensures nodes == [e] + Without(old(nodes), i) && Linked()
    {
      hide Without;
      ghost var ns := nodes;
      prev.next := e.next;
      e.next := head;
      head := e;
      nodes := [e] + Without(ns, i);
      forall k | 0 < k < |ns| ensures nodes[k] == ns[if k <= i then k - 1 else k] { WithoutAt(ns, i, k - 1); }
      forall k | 0 <= k < |nodes| ensures nodes[k].next == NodeAt(nodes, k + 1) {
        var k' := if k == 0 then i else if k <= i then k - 1 else k;
        assert nodes[k] == ns[k'];
      }
    }

    /** Unlink the node at position v > 0. */
    method Unlink(victim: Node, vprev: Node, ghost v: nat)
      requires Linked() && 0 < v < |nodes| && nodes[v] == victim && nodes[v - 1] == vprev
      modifies this`nodes, vprev`next
      ensures nodes == Without(old(nodes), v) && Linked()
    {
      hide Without;
      ghost var ns := nodes;
      vprev.next := victim.next;
      nodes := Without(ns, v);
      forall k | 0 <= k < |ns| - 1 ensures nodes[k] == ns[if k < v then k else k + 1] { WithoutAt(ns, v, k); }
      WithoutAt(ns, v, 0);
    }

    /** Allocate a node and put it at the head. */
    method Link(surf: Surface, path: string)
      requires Linked()
      modifies this`head, this`nodes, this`repr
      ensures Linked() && fresh(repr - old(repr))
      ensures |nodes| > 0 && ToEntry(nodes[0]) == Entry(path, surf) && nodes == [nodes[0]] + old(nodes)
    {
      var e := new Node(path, surf, head);
      head := e;
      nodes := [e] + nodes;
      repr := repr + {e};
    }

    /** The walk that looks for the next victim: last node that is neither head nor pinned. */
    method FindVictim() returns (victim: Node?, vprev: Node?)
      requires Linked()
      ensures var v := LastVictim(ToList(nodes), pin);
              if v < 0 then victim == null else victim == nodes[v] && vprev == nodes[v - 1]
    {
      victim, vprev := null, null;
      var it, prev := head, null;
      ghost var i, v := 0, -1;
      while it != null
        invariant 0 <= i <= |nodes| && -1 <= v < i && v != 0
        invariant it == NodeAt(nodes, i) && prev == if i == 0 then null else nodes[i - 1]
        invariant if v < 0 then victim == null
                  else victim == nodes[v] && vprev == nodes[v - 1] && nodes[v].path != pin
        invariant forall j :: 1 <= j < i && v < j ==> nodes[j].path == pin
        decreases |nodes| - i
      {
        if it != head && it.path != pin {
          victim, vprev := it, prev;
          v := i;
        }
        prev := it;
        it := it.next;
        i := i + 1;
      }
      LastVictimIsLast(ToList(nodes), pin);
    }

    // ---- cache operations; the caller holds the mutex ----

    /** Look a path up and move its entry to the front. */
    method Find(path: string) returns (e: Node?)
      requires Valid()
      modifies this`head, this`nodes, repr
      ensures Valid()
      ensures ToList(nodes) == Touch(old(ToList(nodes)), path)
      ensures (e == null) <==> !Cached(old(ToList(nodes)), path)
      ensures e != null ==> e.surf == old(ToList(nodes))[IndexOf(old(ToList(nodes)), path)].surf
    {
      hide Without, Sum, ToList, IndexOf;
      ghost var l := ToList(nodes);
      var prev;
      ghost var i;
      e, prev, i := Search(path);
      if e != null {
        TouchKeeps(l, path);
        ToListWithout(nodes, i);
        ToListCons(e, Without(nodes, i));
        if prev == null {
          NoMove(nodes);
        } else {
          MoveToFront(prev, e, i);
        }
      }
    }

    /** Free the next victim, if there is one. */
    method EvictOne() returns (more: bool)
      requires Valid()
      modifies this`bytes, this`nodes, this`freed, repr
      ensures Valid()
      ensures var l := old(ToList(nodes));
              var v := LastVictim(l, pin);
              && (more <==> v >= 0) && |nodes| == |old(nodes)| - (if more then 1 else 0)
              && ToList(nodes) == (if more then Without(l, v) else l)
              && freed == old(freed) + (if more then [l[v].surf] else [])
    {
      hide Sum, ToList, LastVictim, Without;
      var victim, vprev := FindVictim();
      more := victim != null;
      if more {
        ghost var v := LastVictim(ToList(nodes), pin);
        ToListWithout(nodes, v);
        SumWithout(ToList(nodes), v);
        Unlink(victim, vprev, v);
        bytes := bytes - victim.surf.bytes;
        freed := freed + [victim.surf];
      }
    }

    /** Evict least recently used entries until within budget or nothing is left to evict. */
    method EvictLoop()
      requires Valid()
      modifies this`bytes, this`nodes, this`freed, repr
      ensures Valid()
      ensures ToList(nodes) == Evict(old(ToList(nodes)), budget, pin)
      ensures freed == old(freed) + Evicted(old(ToList(nodes)), budget, pin)
    {
      hide Sum, Without, ToList, Evict, Evicted, LastVictim;
      ghost var l := ToList(nodes);
      while bytes > budget
        invariant Valid()
        invariant Evict(l, budget, pin) == Evict(ToList(nodes), budget, pin)
        invariant old(freed) + Evicted(l, budget, pin) == freed + Evicted(ToList(nodes), budget, pin)
        decreases |nodes|
      {
        if LastVictim(ToList(nodes), pin) >= 0 { EvictStep(ToList(nodes), freed, budget, pin); }
        var more := EvictOne();
        if !more { break; }
      }
      EvictDone(ToList(nodes), freed, budget, pin);
    }

    /** Link a freshly decoded surface at the head and evict while over budget. */
    method Insert(surf: Surface, path: string, oom: bool)
      requires Valid()
      modifies this`head, this`bytes, this`nodes, this`freed, this`repr, repr
      ensures Valid() && fresh(repr - old(repr))
      ensures oom ==> Abs() == old(Abs()) && freed == old(freed) + [surf]
      ensures !oom ==>
                var (s, f) := ArtSpec.Insert(old(Abs()), Entry(Clip(path), surf));
                Abs() == s && freed == old(freed) + f
    {
      hide Evict, Evicted, Payload, ToList;
      if oom {
        freed := freed + [surf];
      } else {
        ghost var l := [Entry(Clip(path), surf)] + ToList(nodes);
        Link(surf, Clip(path));
        bytes := bytes + surf.bytes;
        assert ToList(nodes) == l && l[1..] == old(ToList(nodes));
        EvictPayload(l, budget, pin);
        assert Valid();
        hide Sum;
        EvictLoop();
      }
    }

    /** The worker's first region: dequeue, or report that it leaves or sleeps. */
    method Take() returns (r: Taken)
      requires Valid()
      modifies queue
      ensures Valid()
      ensures ArtSpec.Take(old(Abs())) == (Abs(), r)
    {
      if shutdown { return Exit; }
      for i := 0 to QUEUE
        invariant queue[..] == old(queue[..])
        invariant forall j :: 0 <= j < i ==> queue[j].path == ""
      {
        if queue[i].path != "" {
          assert FirstFilled(queue[..], 0) == i;
          r := Got(queue[i]);
          queue[i] := queue[i].(path := "");
          assert queue[..] == old(queue[..])[i := old(queue[i]).(path := "")];
          return;
        }
      }
      return Sleep;
    }

    /** The worker's second region: drop a superseded or duplicate decode, insert the rest. */
    method Finish(req: Req, img: Option<Surface>, oom: bool)
      requires Valid()
      modifies this`head, this`bytes, this`nodes, this`freed, this`repr, this`ready, repr
      ensures Valid() && fresh(repr - old(repr))
      ensures var (s, f) := ArtSpec.Finish(old(Abs()), req, img, oom);
              Abs() == s && freed == old(freed) + f
    {
      hide ArtSpec.Insert, Sum, IndexOf, ToList, Valid, Linked, Clip;
      if img.Some? {
        if req.seqNo >= 0 && req.seqNo != seqNo {
          freed := freed + [img.value];
        } else {
          ghost var l := ToList(nodes);
          var e := Find(req.path);
          if e != null {
            freed := freed + [img.value];
          } else {
            assert Touch(l, req.path) == l;
            assert Abs() == old(Abs());
            hide Touch, Cached;
            Insert(img.value, req.path, oom);
            ready := true;
          }
        }
      }
    }

    method Request(path: string, maxW: int, maxH: int, grow: bool) returns (r: Option<Surface>, signal: bool)
      requires Valid()
      modifies this`head, this`nodes, this`pin, this`seqNo, queue, repr
      ensures Valid()
      ensures ArtSpec.Request(old(Abs()), path, maxW, maxH, grow) == (Abs(), r)
      ensures signal <==> Enqueues(old(Abs()), path)
    {
      assert queue.Length == QUEUE;
      assert !Cached(ToList(nodes), path) ==> Touch(ToList(nodes), path) == ToList(nodes);
      hide Sum, IndexOf, ToList, Valid, Linked, Clip, Touch, Cached;
      r, signal := None, false;
      if path == "" { return; }
      var e := Find(path);
      if e != null {
        r := Some(e.surf);
        pin := Clip(path);
      } else if queue[0].path != path {
        seqNo := seqNo + 1;
        queue[0] := Req(Clip(path), maxW, maxH, grow, seqNo);
        assert queue[..] == old(queue[..])[0 := queue[0]];
        signal := true;
      }
    }

    method Prefetch(path: string, maxW: int, maxH: int, grow: bool) returns (signal: bool)
      requires Valid()
      modifies this`head, this`nodes, queue, repr
      ensures Valid()
      ensures Abs() == ArtSpec.Prefetch(old(Abs()), path, maxW, maxH, grow)
      ensures signal <==> PrefetchFills(old(Abs()), path)
    {
      signal := false;
      if path == "" { return; }
      var e := Find(path);
      if e == null && queue[0].path != path {
        var have := false;
        for i := 1 to QUEUE
          invariant have <==> exists j :: 1 <= j < i && queue[j].path == path
        {
          if queue[i].path == path { have := true; }
        }
        if !have {
          for i := 1 to QUEUE
            invariant queue[..] == old(queue[..])
            invariant forall j :: 1 <= j < i ==> queue[j].path != ""
          {
            if queue[i].path == "" {
              assert FirstFree(queue[..], 1) == i;
              queue[i] := Req(Clip(path), maxW, maxH, grow, -1);
              assert queue[..] == old(queue[..])[i := queue[i]];
              signal := true;
              return;
            }
          }
        }
      }
    }

    /** Poll and clear: true once after each decode that landed. */
    method PollReady() returns (r: bool)
      requires Valid()
      modifies this`ready
      ensures Valid() && r == old(ready) && Abs() == old(Abs()).(ready := false)
    {
      r := ready;
      ready := false;
    }

    /** First half of quitting: raise the flag (the caller then signals and joins). */
    method RequestShutdown()
      requires Valid()
      modifies this`shutdown
      ensures Valid() && Abs() == old(Abs()).(shutdown := true)
    {
      shutdown := true;
    }

    /** Second half of quitting, after the worker has been joined: free every entry. */
    method Drain()
      requires Valid()
      modifies this`head, this`bytes, this`nodes, this`freed
      ensures Valid()
      ensures Abs() == old(Abs()).(list := [], bytes := 0)
      ensures freed == old(freed) + Surfaces(old(Abs()).list)
    {
      hide Surfaces, ToList, Sum;
      while head != null
        invariant Linked()
        invariant freed + Surfaces(ToList(nodes)) == old(freed) + Surfaces(old(ToList(nodes)))
        decreases |nodes|
      {
        var e := head;
        DrainStep(nodes, freed);
        head := e.next;
        freed := freed + [e.surf];
        nodes := nodes[1..];
      }
      DrainDone(freed);
      bytes := 0;
    }
  }
}
