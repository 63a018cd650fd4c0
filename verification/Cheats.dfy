/** The cheat table of minarch.c: compaction after parsing, and the sidecar that remembers which
    cheats are on. Strings live on a heap and belong to the slot that points to them. */
module Cheats {
  import opened Options
  import opened Seqs
  import opened SidecarText

  const CHEAT_MAX: nat := 128

  /** One slot; a pointer is the address of a string on the heap. */
  datatype Cheat = Cheat(desc: Option<nat>, code: Option<nat>, enabled: bool)

  const EMPTY: Cheat := Cheat(None, None, false)

  function Pointers(c: Cheat): set<nat> {
    (if c.desc.Some? then {c.desc.value} else {}) + (if c.code.Some? then {c.code.value} else {})
  }

  /** Every string on the heap is pointed to from exactly one place, and no pointer dangles. */
  ghost predicate Owned(items: seq<Cheat>, heap: map<nat, string>) {
    && (forall i :: 0 <= i < |items| ==> (items[i].desc.Some? ==> items[i].desc != items[i].code))
    && (forall i, j :: 0 <= i < j < |items| ==> Pointers(items[i]) !! Pointers(items[j]))
    && (forall i, p :: 0 <= i < |items| && p in Pointers(items[i]) ==> p in heap)
    && (forall p :: p in heap ==> exists i :: 0 <= i < |items| && p in Pointers(items[i]))
  }

  // ---- what compaction must leave ----

  function Decimal(n: nat): string {
    if n < 10 then [('0' as int + n) as char] else Decimal(n / 10) + [('0' as int + n % 10) as char]
  }

  function Fallback(r: nat): string { "Cheat " + Decimal(r + 1) }

  predicate Digits(s: string) { s != [] && forall i :: 0 <= i < |s| ==> '0' <= s[i] <= '9' }

  /** The number that digits denote. */
  function Number(s: string): nat
    requires Digits(s)
  {
    var n := |s| - 1;
    (if n == 0 then 0 else 10 * Number(s[..n])) + (s[n] as int - '0' as int)
  }

  lemma {:induction false} DecimalReads(n: nat)
    ensures var s := Decimal(n); Digits(s) && Number(s) == n && (s[0] == '0' ==> n == 0)
  {
    if n >= 10 {
      var front, s := Decimal(n / 10), Decimal(n);
      DecimalReads(n / 10);
      assert s[..|s| - 1] == front;
      hide Decimal;
    }
  }

  /** The name of the entry in slot r is "Cheat " and the number r + 1 without leading zeros, so
      that no two slots get the same name. */
  lemma FallbackNumbers(r: nat, q: nat)
    ensures var s := Fallback(r);
            |s| > 6 && s[..6] == "Cheat " && Digits(s[6..]) && Number(s[6..]) == r + 1 && s[6] != '0'
    ensures Fallback(q) == Fallback(r) ==> q == r
  {
    DecimalReads(r + 1);
    DecimalReads(q + 1);
    assert Fallback(r)[6..] == Decimal(r + 1) && Fallback(q)[6..] == Decimal(q + 1);
    hide Decimal, Number;
  }

  function Read(heap: map<nat, string>, p: Option<nat>): string {
    if p.Some? && p.value in heap then heap[p.value] else ""
  }

  /** The entries from slot r on that have a code, in index order; fails lists the slots whose
      fallback name could not be allocated. */
  function Coded(items: seq<Cheat>, heap: map<nat, string>, r: nat, fails: set<nat>): seq<Loaded>
    requires r <= |items|
    decreases |items| - r
  {
    if r == |items| then []
    else
      var rest := Coded(items, heap, r + 1, fails);
      if items[r].code == None || (items[r].desc == None && r in fails) then rest
      else
        var desc := if items[r].desc == None then Fallback(r) else Read(heap, items[r].desc);
        [Loaded(desc, Read(heap, items[r].code), items[r].enabled)] + rest
  }

  predicate Keeps(items: seq<Cheat>, r: nat, fails: set<nat>)
    requires r < |items|
  {
    items[r].code.Some? && (items[r].desc == None ==> r !in fails)
  }

  /** How many slots from s up to r are kept. */
  function Before(items: seq<Cheat>, s: nat, r: nat, fails: set<nat>): nat
    requires s <= r <= |items|
    decreases r - s
  {
    if s == r then 0 else (if Keeps(items, s, fails) then 1 else 0) + Before(items, s + 1, r, fails)
  }

  /** A kept slot ends up behind exactly the kept slots before it, under its name or, failing
      that, the number it had in the file; there is nothing else in the table. */
  lemma {:induction false} CodedInOrder(items: seq<Cheat>, heap: map<nat, string>, s: nat, r: nat, fails: set<nat>)
    requires s <= r <= |items|
    ensures var all := Coded(items, heap, s, fails);
            && |all| == Before(items, s, |items|, fails)
            && (r < |items| && Keeps(items, r, fails) ==>
                  var k, name := Before(items, s, r, fails),
                                 if items[r].desc == None then Fallback(r) else Read(heap, items[r].desc);
                  k < |all| && all[k] == Loaded(name, Read(heap, items[r].code), items[r].enabled))
    decreases |items| - s
  {
    hide Fallback, Read;
    if s < |items| { CodedInOrder(items, heap, s + 1, if r == s then s + 1 else r, fails); }
  }

  /** The first n slots, read through their pointers. */
  function Contents(items: seq<Cheat>, heap: map<nat, string>, n: nat): seq<Loaded>
    requires n <= |items|
  {
    if n == 0 then []
    else
      var c := items[n - 1];
      Contents(items, heap, n - 1) + [Loaded(Read(heap, c.desc), Read(heap, c.code), c.enabled)]
  }

  // ---- the steps, as values ----

  function Drop(items: seq<Cheat>, heap: map<nat, string>, r: nat): (seq<Cheat>, map<nat, string>)
    requires r < |items|
  {
    (items[r := EMPTY], heap - Pointers(items[r]))
  }

  function Name(items: seq<Cheat>, heap: map<nat, string>, r: nat, p: nat, text: string): (seq<Cheat>, map<nat, string>)
    requires r < |items|
  {
    (items[r := items[r].(desc := Some(p))], heap[p := text])
  }

  function Move(items: seq<Cheat>, r: nat, w: nat): seq<Cheat>
    requires w < |items| && r < |items|
  {
    if w == r then items else items[w := items[r]][r := EMPTY]
  }

  lemma DropOwned(items: seq<Cheat>, heap: map<nat, string>, r: nat)
    requires Owned(items, heap) && r < |items|
    ensures var (i, h) := Drop(items, heap, r); Owned(i, h)
  {
    var (next, h) := Drop(items, heap, r);
    forall p | p in h ensures exists i :: 0 <= i < |next| && p in Pointers(next[i]) {
      var i :| 0 <= i < |items| && p in Pointers(items[i]);
      assert next[i] == items[i];
    }
  }

  lemma NameOwned(items: seq<Cheat>, heap: map<nat, string>, r: nat, p: nat, text: string)
    requires Owned(items, heap) && r < |items| && items[r].desc == None && p !in heap
    ensures var (i, h) := Name(items, heap, r, p, text); Owned(i, h)
  {
    var (next, h) := Name(items, heap, r, p, text);
    assert Pointers(next[r]) == Pointers(items[r]) + {p};
    forall q | q in h ensures exists i :: 0 <= i < |next| && q in Pointers(next[i]) {
      if q == p {
        assert q in Pointers(next[r]);
      } else {
        var i :| 0 <= i < |items| && q in Pointers(items[i]);
        assert q in Pointers(next[i]);
      }
    }
  }

  lemma MoveOwned(items: seq<Cheat>, heap: map<nat, string>, r: nat, w: nat)
    requires Owned(items, heap) && w <= r < |items| && (w < r ==> items[w] == EMPTY)
    ensures Owned(Move(items, r, w), heap)
  {
    var next := Move(items, r, w);
    if w < r {
      assert Pointers(EMPTY) == {};
      assert forall i :: 0 <= i < |next| ==> next[i] == if i == w then items[r] else if i == r then EMPTY else items[i];
      forall p | p in heap ensures exists i :: 0 <= i < |next| && p in Pointers(next[i]) {
        var i :| 0 <= i < |items| && p in Pointers(items[i]);
        assert p in Pointers(next[if i == r then w else i]);
      }
    }
  }

  // ---- how the steps change what can be read ----

  /** w slots finished, the slots up to r empty, the rest as they were. */
  predicate Shape(items0: seq<Cheat>, items: seq<Cheat>, w: nat, r: nat) {
    && |items| == |items0| && w <= r <= |items|
    && (forall i :: 0 <= i < w ==> items[i].desc.Some? && items[i].code.Some?)
    && (forall i :: w <= i < r ==> items[i] == EMPTY)
    && (forall i :: r <= i < |items| ==> items[i] == items0[i])
  }

  /** The strings of the slots from r on are the original ones. */
  ghost predicate Unread(items0: seq<Cheat>, heap0: map<nat, string>, heap: map<nat, string>, r: nat) {
    forall i, p :: r <= i < |items0| && p in Pointers(items0[i]) ==> p in heap && p in heap0 && heap[p] == heap0[p]
  }

  /** The state between two rounds. */
  ghost predicate Halfway(items0: seq<Cheat>, heap0: map<nat, string>, items: seq<Cheat>, heap: map<nat, string>,
                          w: nat, r: nat, fails: set<nat>) {
    && Shape(items0, items, w, r) && Owned(items, heap) && Unread(items0, heap0, heap, r)
    && Contents(items, heap, w) + Coded(items0, heap0, r, fails) == Coded(items0, heap0, 0, fails)
  }

  /** The first n slots point to what they pointed to. */
  ghost predicate Stay(items: seq<Cheat>, heap: map<nat, string>, next: seq<Cheat>, h: map<nat, string>, n: nat) {
    && n <= |items| && n <= |next|
    && (forall i :: 0 <= i < n ==> next[i] == items[i])
    && (forall i, p :: 0 <= i < n && p in Pointers(items[i]) ==> p in heap && p in h && h[p] == heap[p])
  }

  lemma {:induction false} SameContents(items: seq<Cheat>, heap: map<nat, string>, next: seq<Cheat>,
                                        h: map<nat, string>, n: nat)
    requires Stay(items, heap, next, h, n)
    ensures n <= |items| && n <= |next| && Contents(next, h, n) == Contents(items, heap, n)
  {
    if n > 0 {
      SameContents(items, heap, next, h, n - 1);
      var c := items[n - 1];
      assert c.desc.Some? ==> c.desc.value in Pointers(c);
      assert c.code.Some? ==> c.code.value in Pointers(c);
      assert Read(h, c.desc) == Read(heap, c.desc) && Read(h, c.code) == Read(heap, c.code);
    }
  }

  // -- dropping

  /** Freeing a slot's strings leaves those of the others alone. */
  lemma OthersStay(items: seq<Cheat>, heap: map<nat, string>, r: nat)
    requires Owned(items, heap) && r < |items|
    ensures var h := heap - Pointers(items[r]);
            forall i, p :: 0 <= i < |items| && i != r && p in Pointers(items[i]) ==>
              p in heap && p in h && h[p] == heap[p]
  {
    forall i, p | 0 <= i < |items| && i != r && p in Pointers(items[i])
      ensures p in heap && p in heap - Pointers(items[r]) {
      assert Pointers(items[i]) !! Pointers(items[r]);
    }
  }

  lemma DropShape(items0: seq<Cheat>, items: seq<Cheat>, w: nat, r: nat)
    requires Shape(items0, items, w, r) && r < |items|
    ensures w <= r && |items| == |items0| && Shape(items0, items[r := EMPTY], w, r + 1)
  {
  }

  lemma DropFront(items: seq<Cheat>, heap: map<nat, string>, w: nat, r: nat)
    requires w <= r < |items|
    requires var h := heap - Pointers(items[r]);
             forall i, p :: 0 <= i < |items| && i != r && p in Pointers(items[i]) ==>
               p in heap && p in h && h[p] == heap[p]
    ensures var (next, h) := Drop(items, heap, r); Stay(items, heap, next, h, w)
  {
    hide Pointers;
  }

  lemma DropRest(items0: seq<Cheat>, heap0: map<nat, string>, items: seq<Cheat>, heap: map<nat, string>, w: nat,
                 r: nat)
    requires Shape(items0, items, w, r) && Unread(items0, heap0, heap, r) && r < |items|
    requires var h := heap - Pointers(items[r]);
             forall i, p :: 0 <= i < |items| && i != r && p in Pointers(items[i]) ==>
               p in heap && p in h && h[p] == heap[p]
    ensures Unread(items0, heap0, heap - Pointers(items[r]), r + 1)
  {
    hide Pointers;
    var h := heap - Pointers(items[r]);
    forall i, p | r + 1 <= i < |items0| && p in Pointers(items0[i]) ensures p in h && p in heap0 && h[p] == heap0[p] {
      assert items[i] == items0[i];
    }
  }

  lemma DropStays(items0: seq<Cheat>, heap0: map<nat, string>, items: seq<Cheat>, heap: map<nat, string>, w: nat,
                  r: nat)
    requires Shape(items0, items, w, r) && Owned(items, heap) && Unread(items0, heap0, heap, r) && r < |items|
    ensures var (next, h) := Drop(items, heap, r);
            Shape(items0, next, w, r + 1) && Stay(items, heap, next, h, w) && Unread(items0, heap0, h, r + 1)
  {
    hide Pointers, Owned, Shape, Unread, Stay;
    OthersStay(items, heap, r);
    DropShape(items0, items, w, r);
    DropFront(items, heap, w, r);
    DropRest(items0, heap0, items, heap, w, r);
  }

  /** A slot that is not kept. */
  lemma DropRound(items0: seq<Cheat>, heap0: map<nat, string>, items: seq<Cheat>, heap: map<nat, string>, w: nat,
                  r: nat, fails: set<nat>)
    requires Halfway(items0, heap0, items, heap, w, r, fails) && r < |items|
    requires items[r].code == None || (items[r].desc == None && r in fails)
    ensures var (next, h) := Drop(items, heap, r); Halfway(items0, heap0, next, h, w, r + 1, fails)
  {
    var (next, h) := Drop(items, heap, r);
    assert Coded(items0, heap0, r, fails) == Coded(items0, heap0, r + 1, fails);
    hide Owned, Shape, Unread, Stay, Coded, Contents, Pointers;
    DropStays(items0, heap0, items, heap, w, r);
    DropOwned(items, heap, r);
    SameContents(items, heap, next, h, w);
  }

  // -- keeping

  /** A slot without a name gets one. */
  lemma NameStays(items0: seq<Cheat>, heap0: map<nat, string>, items: seq<Cheat>, heap: map<nat, string>, w: nat,
                  r: nat, p: nat, text: string)
    requires Shape(items0, items, w, r) && Owned(items, heap) && Unread(items0, heap0, heap, r)
    requires r < |items| && items[r].desc == None && p !in heap
    ensures var (next, h) := Name(items, heap, r, p, text);
            Unread(items0, heap0, h, r) && Stay(items, heap, next, h, w)
  {
    hide Pointers;
  }

  /** Everything MoveRound needs to know about the slots. */
  ghost predicate Ready(items0: seq<Cheat>, items: seq<Cheat>, w: nat, r: nat) {
    && |items| == |items0| && w <= r < |items|
    && (forall i :: 0 <= i < w || i == r ==> items[i].desc.Some? && items[i].code.Some?)
    && (forall i :: w <= i < r ==> items[i] == EMPTY)
    && (forall i :: r < i < |items| ==> items[i] == items0[i])
  }

  lemma MoveStays(items0: seq<Cheat>, items: seq<Cheat>, heap: map<nat, string>, w: nat, r: nat)
    requires Ready(items0, items, w, r) && Owned(items, heap)
    ensures var next := Move(items, r, w);
            Shape(items0, next, w + 1, r + 1) && Stay(items, heap, next, heap, w) && next[w] == items[r]
  {
    hide Pointers;
  }

  /** A kept slot moves to place w. */
  lemma MoveRound(items0: seq<Cheat>, items: seq<Cheat>, heap: map<nat, string>, w: nat, r: nat)
    requires Ready(items0, items, w, r) && Owned(items, heap)
    ensures var next := Move(items, r, w);
            && Shape(items0, next, w + 1, r + 1) && Owned(next, heap)
            && Contents(next, heap, w + 1) == Contents(items, heap, w)
               + [Loaded(Read(heap, items[r].desc), Read(heap, items[r].code), items[r].enabled)]
  {
    var next := Move(items, r, w);
    MoveOwned(items, heap, r, w);
    MoveStays(items0, items, heap, w, r);
    hide Owned, Read, Stay, Ready, Move;
    SameContents(items, heap, next, heap, w);
  }

  /** The kept entry, as the original table describes it. */
  lemma Entry(items0: seq<Cheat>, heap0: map<nat, string>, h: map<nat, string>, r: nat, fails: set<nat>, c: Cheat)
    requires Unread(items0, heap0, h, r) && r < |items0| && items0[r].code.Some?
    requires items0[r].desc.Some? ==> c == items0[r]
    requires items0[r].desc == None ==> r !in fails && c == items0[r].(desc := c.desc) && Read(h, c.desc) == Fallback(r)
    ensures Coded(items0, heap0, r, fails) ==
            [Loaded(Read(h, c.desc), Read(h, c.code), c.enabled)] + Coded(items0, heap0, r + 1, fails)
  {
    var o := items0[r];
    assert o.desc.Some? ==> o.desc.value in Pointers(o);
    assert o.code.value in Pointers(o);
    hide Fallback;
  }

  lemma UnreadLess(items0: seq<Cheat>, heap0: map<nat, string>, h: map<nat, string>, r: nat)
    requires Unread(items0, heap0, h, r)
    ensures Unread(items0, heap0, h, r + 1)
  {
    hide Pointers;
  }

  lemma Joined<T>(a: seq<T>, e: T, b: seq<T>, eb: seq<T>, all: seq<T>)
    requires eb == [e] + b && a + eb == all
    ensures (a + [e]) + b == all
  {
  }

  lemma Kept(items0: seq<Cheat>, heap0: map<nat, string>, items: seq<Cheat>, heap: map<nat, string>,
             named: seq<Cheat>, h: map<nat, string>, w: nat, r: nat, fails: set<nat>)
    requires Halfway(items0, heap0, items, heap, w, r, fails) && r < |items| && items[r] == items0[r]
    requires items[r].code.Some? && Ready(items0, named, w, r) && Owned(named, h) && Unread(items0, heap0, h, r)
    requires Contents(named, h, w) == Contents(items, heap, w)
    requires items[r].desc.Some? ==> named[r] == items[r]
    requires items[r].desc == None ==>
               && r !in fails && named[r] == items[r].(desc := named[r].desc)
               && Read(h, named[r].desc) == Fallback(r)
    ensures Halfway(items0, heap0, Move(named, r, w), h, w + 1, r + 1, fails)
  {
    var entry := Loaded(Read(h, named[r].desc), Read(h, named[r].code), named[r].enabled);
    Entry(items0, heap0, h, r, fails, named[r]);
    hide Owned, Shape, Unread, Contents, Coded, Read, Fallback, Pointers, Move, Ready;
    UnreadLess(items0, heap0, h, r);
    MoveRound(items0, named, h, w, r);
    Joined(Contents(items, heap, w), entry, Coded(items0, heap0, r + 1, fails),
           Coded(items0, heap0, r, fails), Coded(items0, heap0, 0, fails));
  }

  /** A kept slot, in all: p is where its name is put if it has none. */
  lemma KeepRound(items0: seq<Cheat>, heap0: map<nat, string>, items: seq<Cheat>, heap: map<nat, string>,
                  w: nat, r: nat, p: nat, fails: set<nat>)
    requires Halfway(items0, heap0, items, heap, w, r, fails) && r < |items| && items[r].code.Some?
    requires items[r].desc == None ==> r !in fails && p !in heap
    ensures w <= r
    ensures var (named, h) := if items[r].desc == None then Name(items, heap, r, p, Fallback(r)) else (items, heap);
            Halfway(items0, heap0, Move(named, r, w), h, w + 1, r + 1, fails)
  {
    hide Fallback, Owned, Contents, Coded, Pointers, Unread;
    var (named, h) := if items[r].desc == None then Name(items, heap, r, p, Fallback(r)) else (items, heap);
    assert items[r] == items0[r] && Ready(items0, named, w, r);
    if items[r].desc == None {
      assert Read(h, named[r].desc) == Fallback(r);
      NameOwned(items, heap, r, p, Fallback(r));
      NameStays(items0, heap0, items, heap, w, r, p, Fallback(r));
      SameContents(items, heap, named, h, w);
    }
    Kept(items0, heap0, items, heap, named, h, w, r, fails);
  }

  /** Nothing in the slots from r on. */
  predicate Behind(items: seq<Cheat>, r: nat) {
    forall i :: r <= i < |items| ==> items[i] == EMPTY
  }

  lemma {:induction false} CodedEmpty(items: seq<Cheat>, heap: map<nat, string>, r: nat, fails: set<nat>)
    requires r <= |items| && Behind(items, r)
    ensures Coded(items, heap, r, fails) == []
    decreases |items| - r
  {
    if r < |items| { CodedEmpty(items, heap, r + 1, fails); }
  }

  lemma {:induction false} ContentsLength(items: seq<Cheat>, heap: map<nat, string>, n: nat)
    requires n <= |items|
    ensures |Contents(items, heap, n)| == n
  {
    if n > 0 { ContentsLength(items, heap, n - 1); }
  }

  lemma {:induction false} ContentsAt(items: seq<Cheat>, heap: map<nat, string>, n: nat, i: nat)
    requires i < n <= |items|
    ensures |Contents(items, heap, n)| == n
    ensures Contents(items, heap, n)[i]
        == Loaded(Read(heap, items[i].desc), Read(heap, items[i].code), items[i].enabled)
  {
    ContentsLength(items, heap, n - 1);
    if i < n - 1 { ContentsAt(items, heap, n - 1, i); }
  }

  /** n whole entries, nothing behind them. */
  predicate Whole(items: seq<Cheat>, n: nat) {
    && n <= |items|
    && (forall i :: 0 <= i < n ==> items[i].desc.Some? && items[i].code.Some?)
    && (forall i :: n <= i < |items| ==> items[i] == EMPTY)
  }

  // ---- the front of the table ----

  lemma Halves(items0: seq<Cheat>, heap0: map<nat, string>, items: seq<Cheat>, heap: map<nat, string>, w: nat,
               r: nat, fails: set<nat>)
    requires Halfway(items0, heap0, items, heap, w, r, fails)
    ensures Owned(items, heap) && Shape(items0, items, w, r)
  {
  }

  lemma PointersIn(items: seq<Cheat>, heap: map<nat, string>, r: nat)
    requires Owned(items, heap) && r < |items|
    ensures items[r].desc.Some? ==> items[r].desc.value in heap
    ensures items[r].code.Some? ==> items[r].code.value in heap
  {
    assert items[r].desc.Some? ==> items[r].desc.value in Pointers(items[r]);
    assert items[r].code.Some? ==> items[r].code.value in Pointers(items[r]);
  }

  lemma Start(items0: seq<Cheat>, heap0: map<nat, string>, fails: set<nat>)
    requires Owned(items0, heap0)
    ensures Halfway(items0, heap0, items0, heap0, 0, 0, fails)
  {
  }

  lemma Finish(items0: seq<Cheat>, heap0: map<nat, string>, items: seq<Cheat>, heap: map<nat, string>, w: nat,
               r: nat, fails: set<nat>)
    requires Halfway(items0, heap0, items, heap, w, r, fails)
    requires Behind(items0, r)
    ensures w <= |items| == |items0| && Owned(items, heap) && Whole(items, w)
    ensures Contents(items, heap, w) == Coded(items0, heap0, 0, fails)
  {
    CodedEmpty(items0, heap0, r, fails);
  }

  // ---- saving and loading, entry by entry ----

  lemma SavedNothing(items: seq<Cheat>, heap: map<nat, string>)
    ensures Saved(Contents(items, heap, 0)) == ""
  {
  }

  lemma {:induction false} SavedAppend(a: seq<Loaded>, x: Loaded)
    ensures Saved(a + [x]) == Saved(a) + if x.enabled then x.desc + ['\n'] else []
  {
    if a == [] {
      assert a + [x] == [x] && [x][1..] == [];
    } else {
      assert (a + [x])[1..] == a[1..] + [x];
      SavedAppend(a[1..], x);
      AppendAssoc(if a[0].enabled then a[0].desc + ['\n'] else [], Saved(a[1..]),
                  if x.enabled then x.desc + ['\n'] else []);
    }
  }

  lemma SavedMore(items: seq<Cheat>, heap: map<nat, string>, i: nat)
    requires i < |items|
    ensures Saved(Contents(items, heap, i + 1)) == Saved(Contents(items, heap, i))
            + if items[i].enabled then Read(heap, items[i].desc) + ['\n'] else []
  {
    var more := Loaded(Read(heap, items[i].desc), Read(heap, items[i].code), items[i].enabled);
    SavedAppend(Contents(items, heap, i), more);
  }

  ghost function FlaggedAt(items0: seq<Cheat>, heap: map<nat, string>, i: nat, done: seq<string>): Cheat
    requires i < |items0|
  {
    var desc := Read(heap, items0[i].desc);
    items0[i].(enabled := desc != [] && HasName(done, desc))
  }

  /** After the lines in done: the first n flags tell whether one of them names the entry. */
  ghost predicate Flagged(items0: seq<Cheat>, items: seq<Cheat>, heap: map<nat, string>, n: nat, done: seq<string>) {
    && |items| == |items0| && n <= |items|
    && (forall i :: 0 <= i < n ==> items[i] == FlaggedAt(items0, heap, i, done))
    && (forall i :: n <= i < |items| ==> items[i] == items0[i])
  }

  /** The first n entries have names on the heap. */
  predicate Named(items: seq<Cheat>, heap: map<nat, string>, n: nat) {
    n <= |items| && forall i :: 0 <= i < n ==> items[i].desc.Some? && items[i].desc.value in heap
  }

  lemma NamedOf(items: seq<Cheat>, heap: map<nat, string>, n: nat)
    requires Owned(items, heap) && Whole(items, n)
    ensures Named(items, heap, n)
  {
    forall i | 0 <= i < n ensures items[i].desc.value in heap { PointersIn(items, heap, i); }
  }

  lemma FlagKeepsDesc(items0: seq<Cheat>, heap: map<nat, string>, i: nat, done: seq<string>)
    requires i < |items0|
    ensures FlaggedAt(items0, heap, i, done).desc == items0[i].desc
  {
  }

  lemma NameMore(done: seq<string>, raw: string, desc: string)
    ensures HasName(done + [raw], desc) <==> HasName(done, desc) || Clean(raw) == desc
  {
    hide Clean;
    var all := done + [raw];
    if k :| 0 <= k < |done| && Clean(done[k]) == desc { assert Clean(all[k]) == desc; }
    assert all[|done|] == raw;
  }

  lemma LinesStep(rest: string, done: seq<string>)
    requires rest != []
    ensures var k := Taken(rest, LINE - 1);
            0 < k <= |rest| && done + Lines(rest) == done + [rest[..k]] + Lines(rest[k..])
  {
    var k := Taken(rest, LINE - 1);
    assert Lines(rest) == [rest[..k]] + Lines(rest[k..]);
    hide *;
    Joined(done, rest[..k], Lines(rest[k..]), Lines(rest), done + Lines(rest));
  }

  lemma FlagsOnly(items0: seq<Cheat>, items: seq<Cheat>, heap: map<nat, string>, n: nat, done: seq<string>)
    requires Flagged(items0, items, heap, n, done) && Whole(items0, n)
    ensures |items| == |items0| && Whole(items, n)
    ensures forall i :: 0 <= i < |items| ==> items[i] == items0[i].(enabled := items[i].enabled)
  {
    hide HasName;
  }

  lemma FlagsOwned(items0: seq<Cheat>, items: seq<Cheat>, heap: map<nat, string>)
    requires Owned(items0, heap) && |items| == |items0|
    requires forall i :: 0 <= i < |items| ==> items[i] == items0[i].(enabled := items[i].enabled)
    ensures Owned(items, heap)
  {
    assert forall i :: 0 <= i < |items| ==> Pointers(items[i]) == Pointers(items0[i]);
    hide Pointers;
    forall p | p in heap ensures exists i :: 0 <= i < |items| && p in Pointers(items[i]) {
      var i :| 0 <= i < |items0| && p in Pointers(items0[i]);
      assert p in Pointers(items[i]);
    }
  }

  /** What the finished load means for the table. */
  lemma LoadedAll(items0: seq<Cheat>, items: seq<Cheat>, heap: map<nat, string>, n: nat, text: string)
    requires Owned(items0, heap) && Whole(items0, n) && Flagged(items0, items, heap, n, Lines(text))
    ensures Owned(items, heap) && Whole(items, n) && Contents(items, heap, n)
        == Restored(Contents(items0, heap, n), text)
    ensures forall i :: 0 <= i < |items| ==> items[i] == items0[i].(enabled := items[i].enabled)
  {
    FlagsOnly(items0, items, heap, n, Lines(text));
    FlagsOwned(items0, items, heap);
    hide Owned, Whole, Lines;
    ContentsLength(items0, heap, n);
    ContentsLength(items, heap, n);
    forall i | 0 <= i < n ensures Contents(items, heap, n)[i] == Restored(Contents(items0, heap, n), text)[i] {
      ContentsAt(items0, heap, n, i);
      ContentsAt(items, heap, n, i);
      hide Contents, Read, HasName;
    }
  }

  // ---- the table, updated in place ----

  class Table {
    var item: array<Cheat>
    var count: nat
    var heap: map<nat, string>
    var next: nat // every address handed out so far is below

    ghost predicate Below()
      reads this
    {
      forall p :: p in heap ==> p < next
    }

    ghost predicate Owns()
      reads this, item
    {
      item.Length == CHEAT_MAX && Owned(item[..], heap) && Below()
    }

    /** A finished table: count whole entries, nothing behind them. */
    ghost predicate Valid()
      reads this, item
    {
      Owns() && Whole(item[..], count)
    }

    ghost function Value(): seq<Loaded>
      reads this, item
      requires count <= item.Length
    {
      Contents(item[..], heap, count)
    }

    constructor ()
      ensures Valid() && count == 0 && heap == map[]
    {
      item := new Cheat[CHEAT_MAX](_ => EMPTY);
      count, heap, next := 0, map[], 0;
    }

    /** free, which takes a null pointer too. */
    method Free(p: Option<nat>)
      requires p.Some? ==> p.value in heap
      modifies this`heap
      ensures heap == old(heap) - (if p.Some? then {p.value} else {})
    {
      if p.Some? { heap := heap - {p.value}; }
    }

    method Malloc(text: string) returns (p: nat)
      modifies this`heap, this`next
      ensures p == old(next) && next == old(next) + 1 && heap == old(heap)[p := text]
    {
      p := next;
      heap, next := heap[p := text], next + 1;
    }

    /** Without a code, or without a name: what the slot has is freed. */
    method DropSlot(r: nat)
      requires r < item.Length && (item[r].code == None || item[r].desc == None) && Below()
      requires item[r].desc.Some? ==> item[r].desc.value in heap
      requires item[r].code.Some? ==> item[r].code.value in heap
      modifies this`heap, item
      ensures (item[..], heap) == old(Drop(item[..], heap, r)) && Below()
    {
      var c := item[r];
      ghost var freed := if c.code == None then c.desc else c.code;
      assert Pointers(c) == if freed.Some? then {freed.value} else {};
      if c.code == None { Free(c.desc); } else { Free(c.code); }
      item[r] := EMPTY;
    }

    /** The name if it is missing, and the move to the front. */
    method KeepSlot(w: nat, r: nat)
      requires w <= r < item.Length && Below()
      modifies this`heap, this`next, item
      ensures var (named, h) := if old(item[r]).desc == None
          then Name(old(item[..]), old(heap), r, old(next), Fallback(r))
                                else (old(item[..]), old(heap));
              (item[..], heap) == (Move(named, r, w), h) && Below()
    {
      hide Fallback;
      if item[r].desc == None {
        var p := Malloc(Fallback(r));
        item[r] := item[r].(desc := Some(p));
      }
      if w != r {
        item[w] := item[r];
        item[r] := EMPTY;
      }
    }

    /** One slot. */
    method Round(w: nat, r: nat, ghost items0: seq<Cheat>, ghost heap0: map<nat, string>,
                 fails: set<nat>) returns (kept: bool)
      requires item.Length == CHEAT_MAX && w <= r < CHEAT_MAX
      requires Halfway(items0, heap0, item[..], heap, w, r, fails) && Below()
      modifies this`heap, this`next, item
      ensures Halfway(items0, heap0, item[..], heap, if kept then w + 1 else w, r + 1, fails) && Below()
    {
      Halves(items0, heap0, item[..], heap, w, r, fails);
      PointersIn(item[..], heap, r);
      kept := !(item[r].code == None || (item[r].desc == None && r in fails));
      assert next !in heap;
      if kept {
        KeepRound(items0, heap0, item[..], heap, w, r, next, fails);
        hide *;
        KeepSlot(w, r);
      } else {
        DropRound(items0, heap0, item[..], heap, w, r, fails);
        hide *;
        DropSlot(r);
      }
    }

    method Rounds(maxSeen: int, fails: set<nat>) returns (w: nat)
      requires item.Length == CHEAT_MAX && Owned(item[..], heap) && Below() && -1 <= maxSeen < CHEAT_MAX
      modifies this`heap, this`next, item
      ensures w <= CHEAT_MAX && Below()
      ensures Halfway(old(item[..]), old(heap), item[..], heap, w, maxSeen + 1, fails)
    {
      hide *;
      ghost var items0, heap0 := item[..], heap;
      w := 0;
      Start(items0, heap0, fails);
      for r := 0 to maxSeen + 1
        invariant w <= r && Halfway(items0, heap0, item[..], heap, w, r, fails) && Below()
      {
        var kept := Round(w, r, items0, heap0, fails);
        if kept { w := w + 1; }
      }
    }

    /** The end of Lodor_cheatsParse: exactly the coded entries stay, in index order, at the
        front; every string then has one owner, and what nobody owns has been freed. fails: the
        slots for which the fallback name cannot be allocated. */
    method Compact(maxSeen: int, fails: set<nat>) returns (n: nat)
      requires Owns() && -1 <= maxSeen < CHEAT_MAX && Behind(item[..], maxSeen + 1)
      modifies this`count, this`heap, this`next, item
      ensures Valid() && n == count
      ensures Value() == Coded(old(item[..]), old(heap), 0, fails)
    {
      ghost var items0, heap0 := item[..], heap;
      hide Owned, Halfway, Whole, Behind, Contents, Coded;
      n := Rounds(maxSeen, fails);
      count := n;
      Finish(items0, heap0, item[..], heap, n, maxSeen + 1, fails);
    }

    // ---- the sidecar ----

    /** Lodor_cheatsSidecarSave, up to the file it writes to. */
    method SidecarSave() returns (text: string)
      requires Valid()
      ensures text == Saved(Value())
    {
      text := "";
      hide Saved, Contents, Owned;
      SavedNothing(item[..], heap);
      for i := 0 to count
        invariant text == Saved(Contents(item[..], heap, i))
      {
        PointersIn(item[..], heap, i);
        if item[i].enabled { text := text + (heap[item[i].desc.value] + ['\n']); }
        SavedMore(item[..], heap, i);
      }
    }

    method ClearAll(ghost items0: seq<Cheat>)
      requires count <= item.Length && item[..] == items0
      modifies item
      ensures Flagged(items0, item[..], heap, count, [])
    {
      for i := 0 to count
        invariant forall j :: 0 <= j < i ==> item[j] == items0[j].(enabled := false)
        invariant forall j :: i <= j < item.Length ==> item[j] == items0[j]
      {
        item[i] := item[i].(enabled := false);
      }
    }

    /** One line of the file. */
    method Mark(raw: string, ghost items0: seq<Cheat>, ghost done: seq<string>)
      requires count <= item.Length && Flagged(items0, item[..], heap, count, done) && Named(items0, heap, count)
      modifies item
      ensures Flagged(items0, item[..], heap, count, done + [raw])
    {
      var line := Clean(raw);
      hide Clean, HasName;
      forall i | 0 <= i < count
        ensures var c, desc := FlaggedAt(items0, heap, i, done), Read(heap, items0[i].desc);
                FlaggedAt(items0, heap, i, done + [raw]) == c.(enabled := c.enabled || (line != [] && line == desc))
      {
        NameMore(done, raw, Read(heap, items0[i].desc));
      }
      if line == [] { return; }
      hide FlaggedAt;
      for i := 0 to count
        invariant forall j :: 0 <= j < i ==> item[j] == FlaggedAt(items0, heap, j, done + [raw])
        invariant forall j :: i <= j < count ==> item[j] == FlaggedAt(items0, heap, j, done)
        invariant forall j :: count <= j < item.Length ==> item[j] == items0[j]
      {
        FlagKeepsDesc(items0, heap, i, done);
        if line == heap[item[i].desc.value] { item[i] := item[i].(enabled := true); }
      }
    }

    /** All flags off, then one line after the other. */
    method LoadLines(text: string, ghost items0: seq<Cheat>)
      requires count <= item.Length && item[..] == items0 && Named(items0, heap, count)
      modifies item
      ensures Flagged(items0, item[..], heap, count, Lines(text))
    {
      ClearAll(items0);
      var rest := text;
      ghost var done: seq<string> := [];
      assert done + Lines(rest) == Lines(text);
      hide Flagged, Named;
      while rest != []
        invariant done + Lines(rest) == Lines(text)
        invariant Flagged(items0, item[..], heap, count, done)
        decreases |rest|
      {
        LinesStep(rest, done);
        var k := Taken(rest, LINE - 1);
        Mark(rest[..k], items0, done);
        done, rest := done + [rest[..k]], rest[k..];
      }
      assert done == Lines(text);
    }

    /** Lodor_cheatsSidecarLoad: without a file the flags stay as they are. */
    method SidecarLoad(file: Option<string>)
      requires Valid()
      modifies item
      ensures Valid() && Value() == if file.None? then old(Value()) else Restored(old(Value()), file.value)
      ensures forall i :: 0 <= i < CHEAT_MAX ==> item[i] == old(item[i]).(enabled := item[i].enabled)
    {
      if file.None? { return; }
      ghost var items0 := item[..];
      NamedOf(items0, heap, count);
      hide Owned, Whole, Contents, Restored, Flagged, Named;
      LoadLines(file.value, items0);
      LoadedAll(items0, item[..], heap, count, file.value);
      assert forall i :: 0 <= i < CHEAT_MAX ==> item[..][i] == items0[i].(enabled := item[..][i].enabled);
    }
  }
}
