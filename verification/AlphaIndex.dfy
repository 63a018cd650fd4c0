/** Directory_index of minui.c: the alphabetical groups that L1 and R1 jump between. */
module AlphaIndex {

  const CAPACITY: nat := 27

  // ---- letters ----

  function ToLower(c: char): char {
    if 'A' <= c <= 'Z' then (c as int + 32) as char else c
  }

  /** The first character as the sort sees it; an empty name has only its NUL. */
  function First(name: string): char {
    if name == [] then '\0' else ToLower(name[0])
  }

  /** getIndexChar: 1 to 26 for a letter, 0 for anything else. */
  function IndexChar(name: string): nat {
    var c := First(name);
    if 'a' <= c <= 'z' then c as int - 'a' as int + 1 else 0
  }

  function Letters(names: seq<string>): (l: seq<nat>)
    ensures |l| == |names| && forall i :: 0 <= i < |l| ==> l[i] == IndexChar(names[i])
  {
    if names == [] then [] else [IndexChar(names[0])] + Letters(names[1..])
  }

  // ---- groups ----

  predicate InGroup(letters: seq<nat>, starts: seq<nat>, i: nat, g: nat) {
    && i < |letters| && g < |starts| && starts[g] <= i && (g + 1 < |starts| ==> i < starts[g + 1])
    && letters[i] == letters[starts[g]]
  }

  predicate Differs(letters: seq<nat>, starts: seq<nat>, g: nat) {
    0 < g < |starts| && starts[g - 1] < |letters| && starts[g] < |letters|
    && letters[starts[g - 1]] != letters[starts[g]]
  }

  /** Group starts increase strictly from 0, neighbours differ in their letter, and every
      entry's group is the run that contains it. */
  ghost predicate Indexed(letters: seq<nat>, starts: seq<nat>, alpha: seq<nat>) {
    && |alpha| == |letters|
    && (starts == [] <==> letters == [])
    && (starts != [] ==> starts[0] == 0 && starts[|starts| - 1] < |letters|)
    && (forall g, h :: 0 <= g < h < |starts| ==> starts[g] < starts[h])
    && (forall i :: 0 <= i < |alpha| ==> InGroup(letters, starts, i, alpha[i]))
    && (forall g :: 0 < g < |starts| ==> Differs(letters, starts, g))
  }

  /** The number of maximal runs of equal elements. */
  function Runs(l: seq<nat>): nat {
    if |l| <= 1 then |l|
    else Runs(l[..|l| - 1]) + if l[|l| - 1] != l[|l| - 2] then 1 else 0
  }

  lemma RunsGrow(l: seq<nat>, i: nat)
    requires i < |l|
    ensures Runs(l[..i + 1]) == Runs(l[..i]) + if i == 0 || l[i] != l[i - 1] then 1 else 0
  {
    assert l[..i + 1][..i] == l[..i];
  }

  /** The groups with one more entry: it starts one of its own if it opens. */
  function Starts(letters: seq<nat>, starts: seq<nat>, opens: bool): seq<nat> {
    if opens then starts + [|letters|] else starts
  }

  lemma InGroupMore(letters: seq<nat>, starts: seq<nat>, a: nat, opens: bool, i: nat, g: nat)
    requires InGroup(letters, starts, i, g)
    ensures InGroup(letters + [a], Starts(letters, starts, opens), i, g)
  {
  }

  lemma DiffersMore(letters: seq<nat>, starts: seq<nat>, a: nat, opens: bool, h: nat)
    requires Differs(letters, starts, h)
    ensures Differs(letters + [a], Starts(letters, starts, opens), h)
  {
  }

  /** Where the last entry belongs. */
  lemma LastGroup(letters: seq<nat>, starts: seq<nat>, alpha: seq<nat>)
    requires Indexed(letters, starts, alpha) && letters != []
    ensures alpha[|letters| - 1] == |starts| - 1 && starts[|starts| - 1] < |letters|
    ensures letters[starts[|starts| - 1]] == letters[|letters| - 1]
  {
    assert InGroup(letters, starts, |letters| - 1, alpha[|letters| - 1]);
  }

  lemma StartsRise(letters: seq<nat>, starts: seq<nat>, alpha: seq<nat>, opens: bool)
    requires Indexed(letters, starts, alpha) && (letters == [] ==> opens)
    ensures var s := Starts(letters, starts, opens);
            && s != [] && s[0] == 0 && s[|s| - 1] <= |letters| && |s| == |starts| + (if opens then 1 else 0)
            && forall g, h :: 0 <= g < h < |s| ==> s[g] < s[h]
  {
    forall g | 0 <= g < |starts| ensures starts[g] < |letters| {
      assert g < |starts| - 1 ==> starts[g] < starts[|starts| - 1];
    }
  }

  lemma NewEntry(letters: seq<nat>, starts: seq<nat>, alpha: seq<nat>, a: nat, g: nat)
    requires Indexed(letters, starts, alpha)
    requires var opens := letters == [] || a != letters[|letters| - 1];
             g == if opens then |starts| else |starts| - 1
    ensures var opens := letters == [] || a != letters[|letters| - 1];
            var s := Starts(letters, starts, opens);
            && InGroup(letters + [a], s, |letters|, g)
            && (opens && letters != [] ==> Differs(letters + [a], s, |starts|))
  {
    if letters != [] { LastGroup(letters, starts, alpha); }
    hide Indexed;
  }

  /** One more entry: it starts a group exactly when its letter differs from its predecessor's. */
  lemma IndexedMore(letters: seq<nat>, starts: seq<nat>, alpha: seq<nat>, a: nat, g: nat)
    requires Indexed(letters, starts, alpha)
    requires var opens := letters == [] || a != letters[|letters| - 1];
             g == if opens then |starts| else |starts| - 1
    ensures var opens := letters == [] || a != letters[|letters| - 1];
            Indexed(letters + [a], Starts(letters, starts, opens), alpha + [g])
  {
    var n := |letters|;
    var opens := n == 0 || a != letters[n - 1];
    var s := Starts(letters, starts, opens);
    NewEntry(letters, starts, alpha, a, g);
    StartsRise(letters, starts, alpha, opens);
    hide InGroup, Differs, Starts;
    forall i | 0 <= i < n ensures InGroup(letters + [a], s, i, (alpha + [g])[i]) {
      InGroupMore(letters, starts, a, opens, i, alpha[i]);
    }
    forall h | 0 < h < |s| ensures Differs(letters + [a], s, h) {
      if h < |starts| { DiffersMore(letters, starts, a, opens, h); }
    }
  }

  // ---- the index, built in place ----

  /** The source's array of 27. pushed is everything ever pushed; the array holds as much of it
      as fits, and a push behind its end writes over memory that is not part of this model. */
  class IntArray {
    var count: nat
    var items: array<nat>
    ghost var pushed: seq<nat>

    ghost predicate Valid()
      reads this, items
    {
      && items.Length == CAPACITY && count == |pushed|
      && forall i :: 0 <= i < count && i < CAPACITY ==> items[i] == pushed[i]
    }

    constructor ()
      ensures Valid() && pushed == [] && fresh(items)
    {
      count, pushed := 0, [];
      items := new nat[CAPACITY](_ => 0);
    }

    method Push(i: nat)
      requires Valid()
      modifies this`count, this`pushed, items
      ensures Valid() && pushed == old(pushed) + [i]
    {
      if count < CAPACITY { items[count] := i; }
      count := count + 1;
      pushed := pushed + [i];
    }
  }

  /** The loop before entry i: current is the letter of the entry before, index its group. */
  ghost predicate IndexedTo(letters: seq<nat>, i: nat, starts: seq<nat>, current: int, index: nat, alpha: seq<nat>) {
    && i <= |letters| && |alpha| == i
    && Indexed(letters[..i], starts, alpha) && |starts| == Runs(letters[..i])
    && if i == 0 then current == -1 else current == letters[i - 1] && index == |starts| - 1
  }

  lemma NothingIndexed(letters: seq<nat>)
    ensures IndexedTo(letters, 0, [], -1, 0, [])
  {
    assert letters[..0] == [];
  }

  lemma AllIndexed(letters: seq<nat>, starts: seq<nat>, current: int, index: nat, alpha: seq<nat>)
    requires IndexedTo(letters, |letters|, starts, current, index, alpha)
    ensures Indexed(letters, starts, alpha) && |starts| == Runs(letters)
  {
    assert letters[..|letters|] == letters;
    hide Indexed, Runs;
  }

  lemma StartsIs(letters: seq<nat>, starts: seq<nat>, opens: bool)
    ensures Starts(letters, starts, opens) == if opens then starts + [|letters|] else starts
  {
  }

  lemma OneIndexed(letters: seq<nat>, i: nat, starts: seq<nat>, current: int, index: nat, alpha: seq<nat>)
    requires IndexedTo(letters, i, starts, current, index, alpha) && i < |letters|
    ensures var opens := letters[i] != current;
            var g := if opens then |starts| else index;
            IndexedTo(letters, i + 1, if opens then starts + [i] else starts, letters[i], g, alpha + [g])
  {
    hide Indexed, Runs, Starts;
    RunsGrow(letters, i);
    IndexedMore(letters[..i], starts, alpha, letters[i], if letters[i] != current then |starts| else index);
    StartsIs(letters[..i], starts, letters[i] != current);
    assert letters[..i + 1] == letters[..i] + [letters[i]];
  }

  /** One entry: open a group when its letter is new. */
  method Group(alphas: IntArray, i: nat, a: nat, current: int, index: nat, ghost letters: seq<nat>,
               ghost done: seq<nat>)
    returns (alpha: int, g: nat)
    requires alphas.Valid() && i < |letters| && a == letters[i]
    requires IndexedTo(letters, i, alphas.pushed, current, index, done)
    modifies alphas`count, alphas`pushed, alphas.items
    ensures alphas.Valid() && IndexedTo(letters, i + 1, alphas.pushed, alpha, g, done + [g])
    ensures alpha == a && alphas.pushed == old(alphas.pushed) + if a != current then [i] else []
  {
    hide IndexedTo;
    OneIndexed(letters, i, alphas.pushed, current, index, done);
    alpha, g := current, index;
    if a != alpha {
      g := alphas.count;
      alphas.Push(i);
      alpha := a;
    }
  }

  /** The indexing loop; alphas is the directory's fresh array. */
  method Index(names: seq<string>, alphas: IntArray) returns (alpha: array<nat>)
    requires alphas.Valid() && alphas.pushed == []
    modifies alphas`count, alphas`pushed, alphas.items
    ensures alphas.Valid() && alphas.count == |alphas.pushed| == Runs(Letters(names))
    ensures fresh(alpha) && Indexed(Letters(names), alphas.pushed, alpha[..])
  {
    hide Indexed, IndexedTo, Runs, Letters, IndexChar;
    alpha := new nat[|names|](_ => 0);
    ghost var letters := Letters(names);
    var current: int, index: nat := -1, 0;
    ghost var done := [];
    NothingIndexed(letters);
    for i := 0 to |names|
      invariant alphas.Valid() && IndexedTo(letters, i, alphas.pushed, current, index, done)
      invariant |done| == i && forall j :: 0 <= j < i ==> alpha[j] == done[j]
    {
      current, index := Group(alphas, i, IndexChar(names[i]), current, index, letters, done);
      alpha[i] := index;
      done := done + [index];
    }
    AllIndexed(letters, alphas.pushed, current, index, done);
    assert alpha[..] == done;
  }

  // ---- when the capacity is enough ----

  /** The order of strcasecmp, on which the entries are sorted. */
  predicate SortedPair(a: string, b: string) {
    || a == []
    || (b != [] && ToLower(a[0]) < ToLower(b[0]))
    || (b != [] && ToLower(a[0]) == ToLower(b[0]) && SortedPair(a[1..], b[1..]))
  }

  predicate Sorted(names: seq<string>) {
    forall i, j :: 0 <= i < j < |names| ==> SortedPair(names[i], names[j])
  }

  /** Before the letters, a letter, or after the letters. */
  function Rank(name: string): nat {
    var c := First(name);
    if c < 'a' then 0 else if c <= 'z' then c as int - 'a' as int + 1 else 27
  }

  function Ranks(names: seq<string>): (l: seq<nat>)
    ensures |l| == |names| && forall i :: 0 <= i < |l| ==> l[i] == Rank(names[i])
  {
    if names == [] then [] else [Rank(names[0])] + Ranks(names[1..])
  }

  lemma RankIsIndex(name: string)
    ensures Rank(name) <= 27 && IndexChar(name) == if Rank(name) == 27 then 0 else Rank(name)
  {
  }

  lemma SortedFirst(a: string, b: string)
    requires SortedPair(a, b)
    ensures First(a) <= First(b) && Rank(a) <= Rank(b)
  {
  }

  predicate Ascending(l: seq<nat>) {
    forall i, j :: 0 <= i < j < |l| ==> l[i] <= l[j]
  }

  /** No value of its range is missing. */
  predicate Covers(l: seq<nat>)
    requires l != []
  {
    forall v :: l[0] <= v <= l[|l| - 1] ==> v in l
  }

  lemma CoversGrow(l: seq<nat>)
    requires |l| > 1 && Ascending(l)
    ensures var n := |l| - 1; Covers(l) <==> Covers(l[..n]) && l[n] <= l[n - 1] + 1
  {
    var n := |l| - 1;
    var p := l[..n];
    assert l[n - 1] <= l[n];
    assert forall v :: v in l <==> v in p || v == l[n];
    if l[n] > l[n - 1] + 1 {
      var v := l[n - 1] + 1;
      assert l[0] <= l[n - 1];
      assert forall i :: 0 <= i < n ==> l[i] <= l[n - 1];
      assert v !in l;
    } else {
      if Covers(l) {
        forall v | l[0] <= v <= l[n - 1] ensures v in p {
          assert v in l;
          if v == l[n] { assert p[n - 1] == v; }
        }
      }
    }
  }

  /** A rising sequence has as many runs as values; they fill its range exactly when none is
      missing. */
  lemma {:induction false} RunsOfAscending(l: seq<nat>)
    requires Ascending(l) && l != []
    ensures 1 <= Runs(l) <= l[|l| - 1] - l[0] + 1
    ensures Runs(l) == l[|l| - 1] - l[0] + 1 <==> Covers(l)
  {
    var n := |l| - 1;
    if n > 0 {
      RunsOfAscending(l[..n]);
      CoversGrow(l);
      assert l[n - 1] <= l[n];
    } else {
      assert l[0] in l;
    }
  }

  predicate Changes(l: seq<nat>, i: nat)
    requires 0 < i < |l|
  {
    l[i] != l[i - 1]
  }

  /** Runs count changes. */
  lemma {:induction false} RunsByChanges(l: seq<nat>, m: seq<nat>)
    requires |l| == |m| && forall i :: 0 < i < |l| && Changes(l, i) ==> Changes(m, i)
    ensures Runs(l) <= Runs(m)
    ensures (forall i :: 0 < i < |l| ==> (Changes(l, i) <==> Changes(m, i))) ==> Runs(l) == Runs(m)
  {
    var n := |l| - 1;
    if n > 0 {
      var p, q := l[..n], m[..n];
      forall i | 0 < i < n ensures Changes(p, i) <==> Changes(l, i) {}
      forall i | 0 < i < n ensures Changes(q, i) <==> Changes(m, i) {}
      RunsByChanges(p, q);
      assert Changes(l, n) ==> Changes(m, n);
    }
  }

  lemma RanksAscend(names: seq<string>)
    requires Sorted(names)
    ensures Ascending(Ranks(names))
  {
    forall i, j | 0 <= i < j < |names| ensures Ranks(names)[i] <= Ranks(names)[j] { SortedFirst(names[i], names[j]); }
  }

  lemma LetterOfRank(names: seq<string>, i: nat)
    requires i < |names|
    ensures var r := Ranks(names)[i]; r <= 27 && Letters(names)[i] == if r == 27 then 0 else r
  {
    RankIsIndex(names[i]);
  }

  /** Letters change only where ranks do. */
  lemma LetterRuns(names: seq<string>)
    ensures Runs(Letters(names)) <= Runs(Ranks(names))
  {
    hide Runs, Letters, Ranks;
    var ls, rs := Letters(names), Ranks(names);
    forall i | 0 < i < |ls| && Changes(ls, i) ensures Changes(rs, i) {
      LetterOfRank(names, i - 1);
      LetterOfRank(names, i);
    }
    RunsByChanges(ls, rs);
  }

  lemma NoGap(rs: seq<nat>, r: nat, i: nat)
    requires Ascending(rs) && r in rs && 0 < i < |rs|
    ensures !(rs[i - 1] < r < rs[i])
  {
    var k :| 0 <= k < |rs| && rs[k] == r;
    if k < i - 1 { assert rs[k] <= rs[i - 1]; }
    if k > i { assert rs[i] <= rs[k]; }
  }

  /** They change together, except from before the letters to after them. */
  lemma LetterRunsEqual(names: seq<string>, r: nat)
    requires Sorted(names) && 1 <= r <= 26 && r in Ranks(names)
    ensures Runs(Letters(names)) == Runs(Ranks(names))
  {
    RanksAscend(names);
    hide Runs, Letters, Ranks, Sorted;
    var ls, rs := Letters(names), Ranks(names);
    forall i | 0 < i < |ls| ensures Changes(ls, i) <==> Changes(rs, i) {
      LetterOfRank(names, i - 1);
      LetterOfRank(names, i);
      NoGap(rs, r, i);
    }
    RunsByChanges(ls, rs);
  }

  /** Something before the letters, every letter, and something after them. */
  predicate AllPresent(rs: seq<nat>) { forall r :: 0 <= r <= 27 ==> r in rs }

  lemma AllPresentEnds(rs: seq<nat>)
    requires Ascending(rs) && (forall i :: 0 <= i < |rs| ==> rs[i] <= 27) && AllPresent(rs)
    ensures rs != [] && rs[0] == 0 && rs[|rs| - 1] == 27
  {
    assert 0 in rs && 27 in rs;
    var k :| 0 <= k < |rs| && rs[k] == 27;
    assert rs[k] <= rs[|rs| - 1];
  }

  lemma RankRuns(rs: seq<nat>)
    requires Ascending(rs) && forall i :: 0 <= i < |rs| ==> rs[i] <= 27
    ensures Runs(rs) <= 28 && (Runs(rs) == 28 <==> AllPresent(rs))
  {
    if AllPresent(rs) { AllPresentEnds(rs); }
    hide Runs, Ascending;
    if rs != [] { RunsOfAscending(rs); }
  }

  lemma HasA(rs: seq<nat>)
    requires AllPresent(rs)
    ensures 1 in rs
  {
  }

  /** Sorted names form at most 28 groups, and overflow the array exactly when something sorts
      before a, every letter occurs, and something sorts after z. */
  lemma OverflowIff(names: seq<string>)
    requires Sorted(names)
    ensures Runs(Letters(names)) <= 28
    ensures Runs(Letters(names)) > CAPACITY <==> AllPresent(Ranks(names))
  {
    hide Runs, Letters, Ranks, Sorted, Ascending, AllPresent;
    var rs := Ranks(names);
    RanksAscend(names);
    forall i | 0 <= i < |rs| ensures rs[i] <= 27 { LetterOfRank(names, i); }
    RankRuns(rs);
    LetterRuns(names);
    if AllPresent(rs) {
      HasA(rs);
      LetterRunsEqual(names, 1);
    }
  }

  /** Twenty-eight one-character names: 1, a to z, and a tilde. */
  function AlphabetName(i: nat): (name: string)
    requires i < 28
    ensures |name| == 1
  {
    if i == 0 then "1" else if i <= 26 then [(96 + i) as char] else "~"
  }

  function Alphabet(): (names: seq<string>)
    ensures |names| == 28 && forall i :: 0 <= i < 28 ==> names[i] == AlphabetName(i)
  {
    seq(28, i requires 0 <= i < 28 => AlphabetName(i))
  }

  lemma AlphabetRank(i: nat)
    requires i < 28
    ensures Rank(AlphabetName(i)) == i
  {
  }

  lemma RankSorts(a: string, b: string)
    requires |a| == |b| == 1 && Rank(a) < Rank(b)
    ensures SortedPair(a, b)
  {
  }

  lemma AlphabetSorted()
    ensures Sorted(Alphabet())
  {
    hide Rank, AlphabetName, SortedPair, Alphabet;
    var names := Alphabet();
    forall i, j | 0 <= i < j < 28 ensures SortedPair(names[i], names[j]) {
      AlphabetRank(i);
      AlphabetRank(j);
      RankSorts(AlphabetName(i), AlphabetName(j));
    }
  }

  lemma AlphabetPresent()
    ensures AllPresent(Ranks(Alphabet()))
  {
    hide Rank, AlphabetName, Alphabet, Ranks;
    var rs := Ranks(Alphabet());
    forall r | 0 <= r <= 27 ensures r in rs {
      AlphabetRank(r);
      assert rs[r] == r;
    }
  }

  /** They are sorted, and their 28 groups do not fit the array. */
  lemma AlphabetOverflows()
    ensures Sorted(Alphabet()) && Runs(Letters(Alphabet())) == 28 > CAPACITY
  {
    hide Runs, Letters, Ranks, Sorted, AllPresent, Alphabet;
    AlphabetSorted();
    AlphabetPresent();
    OverflowIff(Alphabet());
  }

  // ---- the root, which is not sorted as a whole ----

  lemma NoRuns()
    ensures Runs([]) == 0
  {
  }

  /** Runs of two lists in a row; a run may go on from one into the other. */
  lemma {:induction false} RunsJoin(a: seq<nat>, b: seq<nat>)
    ensures Runs(a + b) ==
            Runs(a) + Runs(b) - if a != [] && b != [] && a[|a| - 1] == b[0] then 1 else 0
  {
    hide Runs;
    NoRuns();
    if b == [] {
      assert a + b == a;
    } else {
      var n := |b| - 1;
      RunsJoin(a, b[..n]);
      RunsGrow(b, n);
      RunsGrow(a + b, |a| + n);
      assert b[..n + 1] == b && (a + b)[..|a| + n + 1] == a + b && (a + b)[..|a| + n] == a + b[..n];
    }
  }

  lemma LettersJoin(a: seq<string>, b: seq<string>)
    ensures Letters(a + b) == Letters(a) + Letters(b)
  {
  }

  /** The rows around the systems: the Continue tile, Collections and Recently Played in front,
      Sync and Tools behind, each of which may be missing. */
  datatype RootRows = RootRows(tile: bool, collections: bool, recents: bool, sync: bool, tools: bool)

  function Optional(present: bool, name: string): seq<string> { if present then [name] else [] }

  function Front(r: RootRows): seq<string> {
    var collections, recents := Optional(r.collections, "Collections"), Optional(r.recents, "Recently Played");
    Optional(r.tile, "\U{25B6}  Continue") + (collections + recents)
  }

  function Back(r: RootRows): seq<string> { Optional(r.sync, "Sync") + Optional(r.tools, "Tools") }

  /** getRoot. */
  function Root(r: RootRows, systems: seq<string>): seq<string> { Front(r) + (systems + Back(r)) }

  lemma RowLetters()
    ensures IndexChar("\U{25B6}  Continue") == 0 && IndexChar("Collections") == 3
    ensures IndexChar("Recently Played") == 18 && IndexChar("Sync") == 19 && IndexChar("Tools") == 20
  {
    assert "\U{25B6}  Continue"[0] == '\U{25B6}' && "Collections"[0] == 'C' && "Recently Played"[0] == 'R';
    assert "Sync"[0] == 'S' && "Tools"[0] == 'T';
  }

  lemma OptionalRuns(present: bool, name: string)
    ensures var l := Letters(Optional(present, name));
            Runs(l) == |l| == (if present then 1 else 0) && (present ==> l[0] == IndexChar(name))
  {
  }

  lemma FrontRuns(r: RootRows)
    ensures var l := Letters(Front(r));
            && Runs(l) == |l|
            && |l| == (if r.tile then 1 else 0) + (if r.collections then 1 else 0) + (if r.recents then 1 else 0)
            && (l != [] ==> l[|l| - 1] == if r.recents then 18 else if r.collections then 3 else 0)
  {
    hide Runs, Letters, IndexChar, Optional;
    RowLetters();
    var a, b := Optional(r.tile, "\U{25B6}  Continue"), Optional(r.collections, "Collections");
    var c := Optional(r.recents, "Recently Played");
    OptionalRuns(r.tile, "\U{25B6}  Continue");
    OptionalRuns(r.collections, "Collections");
    OptionalRuns(r.recents, "Recently Played");
    LettersJoin(b, c);
    LettersJoin(a, b + c);
    RunsJoin(Letters(b), Letters(c));
    RunsJoin(Letters(a), Letters(b) + Letters(c));
  }

  lemma BackRuns(r: RootRows)
    ensures var l := Letters(Back(r));
            && Runs(l) == |l| == (if r.sync then 1 else 0) + (if r.tools then 1 else 0)
            && (l != [] ==> l[0] == if r.sync then 19 else 20)
  {
    hide Runs, Letters, IndexChar, Optional;
    RowLetters();
    OptionalRuns(r.sync, "Sync");
    OptionalRuns(r.tools, "Tools");
    LettersJoin(Optional(r.sync, "Sync"), Optional(r.tools, "Tools"));
    RunsJoin(Letters(Optional(r.sync, "Sync")), Letters(Optional(r.tools, "Tools")));
  }

  /** How many of the systems' groups are no groups of their own, because they go on from the row
      in front of them or into the row behind. */
  function Merged(r: RootRows, systems: seq<string>): nat
    requires systems != []
  {
    var front, back := Front(r), Back(r);
    (if front != [] && IndexChar(front[|front| - 1]) == IndexChar(systems[0]) then 1 else 0)
    + (if back != [] && IndexChar(systems[|systems| - 1]) == IndexChar(back[0]) then 1 else 0)
  }

  /** The root has a group for each row around the systems, and overflows the array exactly when
      the groups of the systems, but for those that merge, and these rows exceed it. */
  lemma RootOverflowIff(r: RootRows, systems: seq<string>)
    requires systems != []
    ensures Runs(Letters(Root(r, systems))) ==
            |Front(r)| + Runs(Letters(systems)) + |Back(r)| - Merged(r, systems)
    ensures Runs(Letters(Root(r, systems))) > CAPACITY
            <==> |Front(r)| + Runs(Letters(systems)) + |Back(r)| > CAPACITY + Merged(r, systems)
  {
    hide Runs, Letters, IndexChar, Front, Back;
    FrontRuns(r);
    BackRuns(r);
    LettersJoin(systems, Back(r));
    LettersJoin(Front(r), systems + Back(r));
    RunsJoin(Letters(systems), Letters(Back(r)));
    RunsJoin(Letters(Front(r)), Letters(systems) + Letters(Back(r)));
  }

  /** Without systems and collections in their place it cannot. */
  lemma BareRootFits(r: RootRows)
    ensures Runs(Letters(Root(r, []))) == |Front(r)| + |Back(r)| <= 5
  {
    hide Runs, Letters, IndexChar, Front, Back;
    FrontRuns(r);
    BackRuns(r);
    assert [] + Back(r) == Back(r);
    LettersJoin(Front(r), Back(r));
    RunsJoin(Letters(Front(r)), Letters(Back(r)));
  }

  /** Twenty-three one-letter systems, A to W. */
  function Systems(): (names: seq<string>)
    ensures |names| == 23 && forall i :: 0 <= i < 23 ==> names[i] == AlphabetName(i + 1)
  {
    seq(23, i requires 0 <= i < 23 => AlphabetName(i + 1))
  }

  lemma SystemLetters(i: nat)
    requires i < 23
    ensures IndexChar(Systems()[i]) == i + 1
  {
    AlphabetRank(i + 1);
    RankIsIndex(AlphabetName(i + 1));
  }

  lemma SystemsSorted()
    ensures Sorted(Systems())
  {
    hide Rank, AlphabetName, SortedPair, Systems;
    var names := Systems();
    forall i, j | 0 <= i < j < 23 ensures SortedPair(names[i], names[j]) {
      AlphabetRank(i + 1);
      AlphabetRank(j + 1);
      RankSorts(AlphabetName(i + 1), AlphabetName(j + 1));
    }
  }

  lemma SystemsRuns()
    ensures Runs(Letters(Systems())) == 23
  {
    hide Runs, IndexChar, AlphabetName, Systems, Letters;
    var l := Letters(Systems());
    forall i | 0 <= i < 23 ensures l[i] == i + 1 { SystemLetters(i); }
    forall v | 1 <= v <= 23 ensures v in l { assert l[v - 1] == v; }
    RunsOfAscending(l);
  }

  const ALL_ROWS := RootRows(true, true, true, true, true)

  lemma NothingMerged()
    ensures |Front(ALL_ROWS)| == 3 && |Back(ALL_ROWS)| == 2 && Merged(ALL_ROWS, Systems()) == 0
  {
    hide IndexChar, AlphabetName, Systems;
    RowLetters();
    SystemLetters(0);
    SystemLetters(22);
  }

  /** They are sorted, and with all five rows around them 28 groups are reached. */
  lemma RootOverflows()
    ensures Sorted(Systems()) && Runs(Letters(Root(ALL_ROWS, Systems()))) == 28 > CAPACITY
  {
    hide Runs, Letters, Sorted, Systems, Front, Back, Merged, Root;
    SystemsSorted();
    SystemsRuns();
    NothingMerged();
    RootOverflowIff(ALL_ROWS, Systems());
  }

  // ---- jumping ----

  /** L1 and R1 land on the first entry of the neighbouring group, whose letter differs. */
  lemma JumpTarget(letters: seq<nat>, starts: seq<nat>, alpha: seq<nat>, selected: nat, next: bool)
    requires Indexed(letters, starts, alpha) && selected < |letters|
    requires if next then alpha[selected] + 1 < |starts| else alpha[selected] > 0
    ensures var g := if next then alpha[selected] + 1 else alpha[selected] - 1;
            && starts[g] < |letters| && alpha[starts[g]] == g && letters[starts[g]] != letters[selected]
            && (if next then starts[g] > selected else starts[g] < selected)
  {
    assert InGroup(letters, starts, selected, alpha[selected]);
    var g := if next then alpha[selected] + 1 else alpha[selected] - 1;
    assert g < |starts| - 1 ==> starts[g] < starts[|starts| - 1];
    var i := starts[g];
    assert InGroup(letters, starts, i, alpha[i]);
    assert Differs(letters, starts, if next then g else g + 1);
  }
}
