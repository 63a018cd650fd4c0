/** A directory of the launcher: its window, and the group starts that L1 and R1 jump to. The
    starts are computed when the directory is scanned; the Continue tile and the banner come and
    go without a scan, and shift the entries under them. */
module Directory {
  import opened Arith
  import opened ListWindow
  import AlphaIndex

  /** starts holds the first entry of each group, alpha the group of each entry. */
  datatype Dir = Dir(window: Window, starts: seq<nat>, alpha: seq<nat>)

  datatype Step =
    | Move(move: Action)
    | GroupJump(next: bool)                        // R1, or L1
    | Remove(at: nat)                              // the banner or the Continue tile goes
    | Tile                                         // the Continue tile comes
    | Rescan(starts: seq<nat>, alpha: seq<nat>)    // the directory is read and indexed again

  // ---- what each step means ----

  /** The group L1 or R1 asks for, if there is one. */
  predicate HasTarget(d: Dir, next: bool) {
    && 0 <= d.window.selected < |d.alpha|
    && if next then d.alpha[d.window.selected] + 1 < |d.starts|
       else 0 < d.alpha[d.window.selected] <= |d.starts|
  }

  function Group(d: Dir, next: bool): (g: nat)
    requires HasTarget(d, next)
    ensures g < |d.starts|
  {
    if next then d.alpha[d.window.selected] + 1 else d.alpha[d.window.selected] - 1
  }

  function Apply(d: Dir, s: Step): Dir {
    match s
    case Move(move) => d.(window := Next(d.window, move))
    case GroupJump(next) =>
      if HasTarget(d, next) then d.(window := Next(d.window, Action.Jump(d.starts[Group(d, next)]))) else d
    case Remove(at) =>
      if at < |d.alpha| then
        d.(window := Next(d.window, Reload(|d.alpha| - 1)), alpha := d.alpha[..at] + d.alpha[at + 1..])
      else d
    case Tile => d.(window := Next(d.window, Insert), alpha := [0] + d.alpha)
    case Rescan(starts, alpha) => Dir(Next(d.window, Reload(|alpha|)), starts, alpha)
  }

  // ---- counting groups ----

  /** How many entries belong to a group before g. */
  function Below(groups: seq<nat>, g: nat): (n: nat)
    ensures n <= |groups|
  {
    if groups == [] then 0 else (if groups[0] < g then 1 else 0) + Below(groups[1..], g)
  }

  lemma {:induction false} BelowOfSum(a: seq<nat>, b: seq<nat>, g: nat)
    ensures Below(a + b, g) == Below(a, g) + Below(b, g)
  {
    if a == [] {
      assert a + b == b;
    } else {
      assert (a + b)[1..] == a[1..] + b;
      BelowOfSum(a[1..], b, g);
    }
  }

  lemma BelowWithout(a: seq<nat>, at: nat, g: nat)
    requires at < |a|
    ensures Below(a[..at] + a[at + 1..], g) == Below(a, g) - if a[at] < g then 1 else 0
  {
    BelowOfSum(a[..at], a[at + 1..], g);
    BelowOfSum(a[..at], a[at..], g);
    assert a[..at] + a[at..] == a && a[at..][1..] == a[at + 1..];
  }

  /** Where the entries of earlier groups are exactly the first k, there are k of them. */
  lemma {:induction false} BelowIs(a: seq<nat>, g: nat, k: nat)
    requires k <= |a| && forall i :: 0 <= i < |a| ==> (a[i] < g <==> i < k)
    ensures Below(a, g) == k
  {
    if a == [] {
    } else {
      forall i | 0 <= i < |a[1..]| ensures a[1..][i] < g <==> i < k - 1 {
        assert a[1..][i] == a[i + 1];
      }
      if k == 0 {
        assert !(a[0] < g);
        BelowIs(a[1..], g, 0);
      } else {
        assert a[0] < g;
        BelowIs(a[1..], g, k - 1);
      }
    }
  }

  /** In ascending groups the entries of earlier groups come first. */
  lemma {:induction false} BelowSplits(a: seq<nat>, g: nat, i: nat)
    requires AlphaIndex.Ascending(a) && i < |a|
    ensures a[i] < g <==> i < Below(a, g)
  {
    var rest := a[1..];
    assert forall j :: 0 <= j < |rest| ==> rest[j] == a[j + 1];
    if i > 0 {
      assert a[0] <= a[i];
      BelowSplits(rest, g, i - 1);
    } else if a[0] >= g {
      BelowIs(a, g, 0);
    }
  }

  /** The first entry of its group. */
  predicate FirstOf(alpha: seq<nat>, i: nat, g: nat) {
    i < |alpha| && alpha[i] == g && (i == 0 || alpha[i - 1] < g)
  }

  lemma FirstIsBelow(alpha: seq<nat>, i: nat, g: nat)
    requires AlphaIndex.Ascending(alpha)
    ensures FirstOf(alpha, i, g) <==> g in alpha && i == Below(alpha, g)
  {
    if FirstOf(alpha, i, g) {
      BelowSplits(alpha, g, i);
      if i > 0 { BelowSplits(alpha, g, i - 1); }
    }
    if g in alpha && i == Below(alpha, g) {
      var k :| 0 <= k < |alpha| && alpha[k] == g;
      BelowSplits(alpha, g, k);
      BelowSplits(alpha, g, i);
      assert alpha[i] <= alpha[k];
      if i > 0 { BelowSplits(alpha, g, i - 1); }
    }
  }

  // ---- what happened since the scan ----

  /** The entries found by the last scan, the tiles inserted since, and the groups of the entries
      removed since. */
  datatype Since = Since(scanned: nat, inserted: nat, removed: seq<nat>)

  function Log(since: Since, d: Dir, s: Step): Since {
    match s
    case Remove(at) =>
      if at < |d.alpha| then since.(removed := since.removed + [d.alpha[at]]) else since
    case Tile => since.(inserted := since.inserted + 1)
    case Rescan(_, alpha) => Since(|alpha|, 0, [])
    case _ => since
  }

  predicate Start(d: Dir, since: Since, g: nat)
    requires g < |d.starts|
  {
    && (g in d.alpha || g in since.removed)
    && Below(d.alpha, g) + Below(since.removed, g) == d.starts[g] + if g > 0 then since.inserted else 0
  }

  /** Entries stay in the order of their groups, and the entries of earlier groups are as many as
      the group's start says, but for those inserted and removed. */
  ghost predicate Kept(d: Dir, since: Since) {
    && |d.alpha| == d.window.count
    && |d.alpha| + |since.removed| == since.scanned + since.inserted
    && AlphaIndex.Ascending(d.alpha)
    && (forall i :: 0 <= i < |d.alpha| ==> d.alpha[i] < Max(1, |d.starts|))
    && (forall g :: 0 <= g < |d.starts| ==> Start(d, since, g))
  }

  /** What a scan yields: an index of some letters, or none for recents and collections. */
  ghost predicate Scanned(starts: seq<nat>, alpha: seq<nat>) {
    || (exists letters :: AlphaIndex.Indexed(letters, starts, alpha))
    || (starts == [] && forall i :: 0 <= i < |alpha| ==> alpha[i] == 0)
  }

  /** Which steps the input loop can take. */
  ghost predicate Possible(d: Dir, s: Step) {
    match s
    case Move(Reveal(target)) => d.window.start <= target < d.window.count
    case Move(move) => d.window.count > 0 && (move.Up? || move.Down? || move.PageUp? || move.PageDown?)
    case GroupJump(next) => HasTarget(d, next)
    case Remove(at) => at < |d.alpha|
    case Tile => true
    case Rescan(starts, alpha) => Scanned(starts, alpha)
  }

  // ---- scanning ----

  lemma IndexedAt(letters: seq<nat>, starts: seq<nat>, alpha: seq<nat>, i: nat, g: nat)
    requires AlphaIndex.Indexed(letters, starts, alpha) && i < |alpha| && g < |starts|
    ensures alpha[i] < |starts|
    ensures alpha[i] < g <==> i < starts[g]
  {
    assert AlphaIndex.InGroup(letters, starts, i, alpha[i]);
    if alpha[i] + 1 < g { assert starts[alpha[i] + 1] < starts[g]; }
    if g < alpha[i] { assert starts[g] < starts[alpha[i]]; }
  }

  lemma IndexedAscends(letters: seq<nat>, starts: seq<nat>, alpha: seq<nat>, i: nat, j: nat)
    requires AlphaIndex.Indexed(letters, starts, alpha) && i < j < |alpha|
    ensures alpha[i] <= alpha[j]
  {
    IndexedAt(letters, starts, alpha, j, 0);
    IndexedAt(letters, starts, alpha, i, alpha[j]);
    IndexedAt(letters, starts, alpha, j, alpha[j]);
    IndexedAt(letters, starts, alpha, i, 0);
    IndexedAt(letters, starts, alpha, j, alpha[i]);
    IndexedAt(letters, starts, alpha, i, alpha[i]);
  }

  lemma ScanKept(w: Window, starts: seq<nat>, alpha: seq<nat>)
    requires Scanned(starts, alpha) && w.count == |alpha|
    ensures Kept(Dir(w, starts, alpha), Since(|alpha|, 0, []))
  {
    var d := Dir(w, starts, alpha);
    if letters :| AlphaIndex.Indexed(letters, starts, alpha) {
      forall i, j | 0 <= i < j < |alpha| ensures alpha[i] <= alpha[j] {
        IndexedAscends(letters, starts, alpha, i, j);
      }
      forall i | 0 <= i < |alpha| ensures alpha[i] < |starts| {
        assert AlphaIndex.InGroup(letters, starts, i, alpha[i]);
      }
      forall g | 0 <= g < |starts| ensures Start(d, Since(|alpha|, 0, []), g) {
        forall i | 0 <= i < |alpha| ensures alpha[i] < g <==> i < starts[g] {
          IndexedAt(letters, starts, alpha, i, g);
        }
        var i := starts[g];
        assert g < |starts| - 1 ==> starts[g] < starts[|starts| - 1];
        BelowIs(alpha, g, i);
        assert AlphaIndex.InGroup(letters, starts, i, alpha[i]);
        IndexedAt(letters, starts, alpha, i, g);
      }
    }
  }

  // ---- every step keeps the books ----

  /** An entry of a group is still there, or has been removed. */
  lemma StillThere(a: seq<nat>, removed: seq<nat>, at: nat, g: nat)
    requires at < |a| && (g in a || g in removed)
    ensures g in a[..at] + a[at + 1..] || g in removed + [a[at]]
  {
    if g in a && a[at] != g {
      var k :| 0 <= k < |a| && a[k] == g;
      assert if k < at then g in a[..at] else g in a[at + 1..];
    }
  }

  lemma RemoveKept(d: Dir, since: Since, at: nat)
    requires Kept(d, since) && at < |d.alpha|
    ensures Kept(Apply(d, Remove(at)), Log(since, d, Remove(at)))
  {
    var e, log := Apply(d, Remove(at)), Log(since, d, Remove(at));
    forall g | 0 <= g < |e.starts| ensures Start(e, log, g) {
      assert Start(d, since, g);
      StillThere(d.alpha, since.removed, at, g);
      BelowWithout(d.alpha, at, g);
      BelowOfSum(since.removed, [d.alpha[at]], g);
    }
    hide Start, Below, Next;
  }

  lemma TileKept(d: Dir, since: Since)
    requires Kept(d, since)
    ensures Kept(Apply(d, Tile), Log(since, d, Tile))
  {
    var e, log := Apply(d, Tile), Log(since, d, Tile);
    forall g | 0 <= g < |e.starts| ensures Start(e, log, g) {
      assert Start(d, since, g);
      BelowOfSum([0], d.alpha, g);
      assert Below([0], g) == if 0 < g then 1 else 0;
    }
  }

  lemma StepKept(d: Dir, since: Since, s: Step)
    requires Kept(d, since) && Possible(d, s)
    ensures Kept(Apply(d, s), Log(since, d, s))
  {
    match s
    case Remove(at) => RemoveKept(d, since, at);
    case Tile => TileKept(d, since);
    case Rescan(starts, alpha) => ScanKept(Apply(d, s).window, starts, alpha);
    case _ =>
      var e := Apply(d, s);
      assert e.alpha == d.alpha && e.starts == d.starts;
      forall g | 0 <= g < |e.starts| ensures Start(e, since, g) { assert Start(d, since, g); }
  }

  // ---- when a step keeps the window ----

  /** A jump is safe while fewer entries have been removed than the scan found from the target's
      start on and tiles were inserted; the tile is safe at the top of an unscrolled list with
      room below the selection. Everything else is. */
  predicate Safe(d: Dir, since: Since, s: Step) {
    match s
    case GroupJump(next) =>
      HasTarget(d, next) && d.starts[Group(d, next)] + |since.removed| < since.scanned + since.inserted
    case Tile => d.window.count > 0 && d.window.start == 0 && d.window.selected + 1 < d.window.rows
    case _ => true
  }

  lemma StepKeepsIff(d: Dir, since: Since, s: Step)
    requires Ok(d.window) && Kept(d, since) && Possible(d, s)
    ensures Ok(Apply(d, s).window) <==> Safe(d, since, s)
  {
    match s
    case Move(Reveal(target)) => RevealKeepsIff(d.window, target);
    case Move(move) => MoveKeepsWindow(d.window, move);
    case GroupJump(next) => JumpKeepsIff(d.window, d.starts[Group(d, next)]);
    case Remove(at) => ReloadKeepsWindow(d.window, |d.alpha| - 1);
    case Tile => InsertKeepsIff(d.window);
    case Rescan(_, alpha) => ReloadKeepsWindow(d.window, |alpha|);
  }

  /** A jump lands on the first entry of the group it asks for exactly when the group still has
      an entry and, unless it is the first, as many tiles came as entries of earlier groups went. */
  lemma JumpLandsIff(d: Dir, since: Since, next: bool)
    requires Ok(d.window) && Kept(d, since) && HasTarget(d, next)
    ensures var g := Group(d, next);
            FirstOf(d.alpha, Apply(d, GroupJump(next)).window.selected, g)
            <==> g in d.alpha && (g == 0 || since.inserted == Below(since.removed, g))
  {
    var g := Group(d, next);
    assert Start(d, since, g);
    FirstIsBelow(d.alpha, d.starts[g], g);
    if g == 0 && 0 in d.alpha {
      BelowIs(d.alpha, 0, 0);
      BelowIs(since.removed, 0, 0);
    }
  }

  /** Right after a scan every jump is safe and lands. */
  lemma FreshJumpLands(d: Dir, next: bool)
    requires Ok(d.window) && Kept(d, Since(|d.alpha|, 0, [])) && HasTarget(d, next)
    ensures Safe(d, Since(|d.alpha|, 0, []), GroupJump(next))
    ensures FirstOf(d.alpha, Apply(d, GroupJump(next)).window.selected, Group(d, next))
  {
    var since, g := Since(|d.alpha|, 0, []), Group(d, next);
    JumpLandsIff(d, since, next);
    assert Start(d, since, g);
  }

  /** After a scan every group has an entry. */
  lemma GroupsPresent(d: Dir, g: nat)
    requires Kept(d, Since(|d.alpha|, 0, [])) && g < |d.starts|
    ensures g in d.alpha
  {
    assert Start(d, Since(|d.alpha|, 0, []), g);
  }

  /** Entry i is the first of the next later group that has entries. */
  predicate StartsNext(alpha: seq<nat>, s: nat, i: int)
    requires s < |alpha|
  {
    0 <= i < |alpha| && alpha[i] > alpha[s] && forall j :: 0 <= j < i ==> alpha[j] <= alpha[s]
  }

  /** Entry i is the first of the last earlier group that has entries. */
  predicate StartsPrevious(alpha: seq<nat>, s: nat, i: int)
    requires s < |alpha|
  {
    && 0 <= i < |alpha| && alpha[i] < alpha[s] && (forall j :: 0 <= j < i ==> alpha[j] < alpha[i])
    && forall j :: 0 <= j < |alpha| && alpha[j] < alpha[s] ==> alpha[j] <= alpha[i]
  }

  /** What R1 does right after a scan, in terms of the entries' groups alone: it selects the first
      entry of the next group, and behind the last group nothing happens. */
  lemma NextGroupKey(d: Dir)
    requires Ok(d.window) && d.window.count > 0 && Kept(d, Since(|d.alpha|, 0, []))
    ensures var s, e := d.window.selected, Apply(d, GroupJump(true));
            if exists i :: 0 <= i < |d.alpha| && d.alpha[i] > d.alpha[s]
            then StartsNext(d.alpha, s, e.window.selected) && Ok(e.window) else e == d
  {
    var s := d.window.selected;
    if HasTarget(d, true) {
      GroupsPresent(d, d.alpha[s] + 1);
      FreshJumpLands(d, true);
      StepKeepsIff(d, Since(|d.alpha|, 0, []), GroupJump(true));
      var i := Apply(d, GroupJump(true)).window.selected;
      forall j | 0 <= j < i ensures d.alpha[j] <= d.alpha[s] { assert d.alpha[j] <= d.alpha[i - 1]; }
      assert d.alpha[i] > d.alpha[s];
    }
    hide Next, Start, Below;
  }

  /** And L1: the first entry of the previous group, and nothing before the first group. */
  lemma PreviousGroupKey(d: Dir)
    requires Ok(d.window) && d.window.count > 0 && Kept(d, Since(|d.alpha|, 0, []))
    ensures var s, e := d.window.selected, Apply(d, GroupJump(false));
            if exists i :: 0 <= i < |d.alpha| && d.alpha[i] < d.alpha[s]
            then StartsPrevious(d.alpha, s, e.window.selected) && Ok(e.window) else e == d
  {
    var s := d.window.selected;
    if HasTarget(d, false) {
      GroupsPresent(d, d.alpha[s] - 1);
      FreshJumpLands(d, false);
      StepKeepsIff(d, Since(|d.alpha|, 0, []), GroupJump(false));
      var i := Apply(d, GroupJump(false)).window.selected;
      forall j | 0 <= j < i ensures d.alpha[j] < d.alpha[i] { assert d.alpha[j] <= d.alpha[i - 1]; }
      assert d.alpha[i] < d.alpha[s];
    }
    hide Next, Start, Below;
  }

  // ---- runs ----

  ghost predicate AllPossible(d: Dir, steps: seq<Step>)
    decreases |steps|
  {
    steps == [] || (Possible(d, steps[0]) && AllPossible(Apply(d, steps[0]), steps[1..]))
  }

  predicate AllSafe(d: Dir, since: Since, steps: seq<Step>)
    decreases |steps|
  {
    || steps == []
    || (Safe(d, since, steps[0]) && AllSafe(Apply(d, steps[0]), Log(since, d, steps[0]), steps[1..]))
  }

  /** The window is in order after every step. */
  predicate StaysOk(d: Dir, steps: seq<Step>)
    decreases |steps|
  {
    Ok(d.window) && (steps == [] || StaysOk(Apply(d, steps[0]), steps[1..]))
  }

  function End(d: Dir, steps: seq<Step>): Dir
    decreases |steps|
  {
    if steps == [] then d else End(Apply(d, steps[0]), steps[1..])
  }

  function Logged(since: Since, d: Dir, steps: seq<Step>): Since
    decreases |steps|
  {
    if steps == [] then since else Logged(Log(since, d, steps[0]), Apply(d, steps[0]), steps[1..])
  }

  /** A run keeps the selection inside a full window throughout exactly when each of its jumps and
      tiles is safe. */
  lemma {:induction false} RunKeepsIff(d: Dir, since: Since, steps: seq<Step>)
    requires Ok(d.window) && Kept(d, since) && AllPossible(d, steps)
    ensures StaysOk(d, steps) <==> AllSafe(d, since, steps)
    decreases |steps|
  {
    if steps != [] {
      var e := Apply(d, steps[0]);
      StepKeepsIff(d, since, steps[0]);
      StepKept(d, since, steps[0]);
      if Ok(e.window) { RunKeepsIff(e, Log(since, d, steps[0]), steps[1..]); }
    }
  }

  lemma {:induction false} RunKept(d: Dir, since: Since, steps: seq<Step>)
    requires Kept(d, since) && AllPossible(d, steps)
    ensures Kept(End(d, steps), Logged(since, d, steps))
    decreases |steps|
  {
    if steps != [] {
      StepKept(d, since, steps[0]);
      RunKept(Apply(d, steps[0]), Log(since, d, steps[0]), steps[1..]);
    }
  }

  lemma {:induction false} RunEndsOk(d: Dir, steps: seq<Step>)
    requires StaysOk(d, steps)
    ensures Ok(End(d, steps).window)
    decreases |steps|
  {
    if steps != [] { RunEndsOk(Apply(d, steps[0]), steps[1..]); }
  }

  /** From a scan on, whatever ran in between in good order: when the next jump keeps the window,
      and when it lands on its group. */
  lemma JumpAfterRun(w: Window, starts: seq<nat>, alpha: seq<nat>, steps: seq<Step>, next: bool)
    requires Ok(w) && w.count == |alpha| && Scanned(starts, alpha)
    requires var d := Dir(w, starts, alpha);
             AllPossible(d, steps) && StaysOk(d, steps) && HasTarget(End(d, steps), next)
    ensures var d := Dir(w, starts, alpha);
            var e, log := End(d, steps), Logged(Since(|alpha|, 0, []), d, steps);
            var g, v := Group(e, next), Apply(e, GroupJump(next)).window;
            && (Ok(v) <==> e.starts[g] + |log.removed| < log.scanned + log.inserted)
            && (FirstOf(e.alpha, v.selected, g)
                <==> g in e.alpha && (g == 0 || log.inserted == Below(log.removed, g)))
  {
    var d, since := Dir(w, starts, alpha), Since(|alpha|, 0, []);
    ScanKept(w, starts, alpha);
    RunKept(d, since, steps);
    RunEndsOk(d, steps);
    var e, log := End(d, steps), Logged(since, d, steps);
    StepKeepsIff(e, log, GroupJump(next));
    JumpLandsIff(e, log, next);
  }

  // ---- an input that fails ----

  const ROOT: seq<string> := AlphaIndex.Root(AlphaIndex.RootRows(true, false, false, true, true), [])

  lemma RootLetters()
    ensures var l := AlphaIndex.Letters(ROOT);
            |l| == 3 && l[0] == 0 && l[1] == 19 && l[2] == 20
  {
    AlphaIndex.RowLetters();
    hide AlphaIndex.IndexChar;
  }

  /** Three entries in three groups. */
  lemma ThreeGroups(letters: seq<nat>, groups: seq<nat>)
    requires |letters| == |groups| == 3 && letters[0] != letters[1] && letters[1] != letters[2]
    requires forall i :: 0 <= i < 3 ==> groups[i] == i
    ensures AlphaIndex.Indexed(letters, groups, groups)
  {
    assert forall i :: 0 <= i < 3 ==> AlphaIndex.InGroup(letters, groups, i, groups[i]);
    assert AlphaIndex.Differs(letters, groups, 1) && AlphaIndex.Differs(letters, groups, 2);
  }

  /** The root lists a Continue tile, Sync and Tools. The tile goes, Sync is selected, and R1
      selects an entry that is not there. */
  lemma JumpLeavesTheList(groups: seq<nat>, rows: nat)
    requires groups == [0, 1, 2] && rows >= 3
    ensures AlphaIndex.Indexed(AlphaIndex.Letters(ROOT), groups, groups)
    ensures var d := Dir(Window(0, 0, 3, |ROOT|, rows), groups, groups);
            var e := Apply(d, Remove(0));
            && Ok(d.window) && Ok(e.window) && e.window.selected == 0
            && HasTarget(e, true) && Apply(e, GroupJump(true)).window == Window(2, 0, 2, 2, rows)
            && !Ok(Apply(e, GroupJump(true)).window)
  {
    RootLetters();
    ThreeGroups(AlphaIndex.Letters(ROOT), groups);
    hide AlphaIndex.Indexed, AlphaIndex.Letters;
    var d := Dir(Window(0, 0, 3, |ROOT|, rows), groups, groups);
    var e := Apply(d, Remove(0));
    ReloadKeepsWindow(d.window, 2);
    assert e.window == Window(0, 0, 2, 2, rows);
    assert |e.alpha| == 2 && e.alpha[0] == 1;
  }

  // ---- the directory, updated in place ----

  class Directory {
    var selected: int
    var start: int
    var end: int
    var alphas: seq<nat>     // IntArray, filled by the scan
    var entries: seq<nat>    // the alpha of each entry
    const rows: nat          // MAIN_ROW_COUNT

    ghost function Value(): Dir
      reads this
    {
      Dir(Window(selected, start, end, |entries|, rows), alphas, entries)
    }

    constructor (alphas: seq<nat>, entries: seq<nat>, rows: nat)
      requires rows > 0 && Scanned(alphas, entries)
      ensures Value() == Dir(Window(0, 0, Min(|entries|, rows), |entries|, rows), alphas, entries)
      ensures Ok(Value().window) && Kept(Value(), Since(|entries|, 0, []))
    {
      this.alphas, this.entries, this.rows := alphas, entries, rows;
      selected, start, end := 0, 0, if |entries| < rows then |entries| else rows;
      new;
      ScanKept(Value().window, alphas, entries);
    }

    /** Directory_new and the window openDirectory puts over it; an end of zero stands for the
        first rows. */
    constructor Placed(alphas: seq<nat>, entries: seq<nat>, rows: nat, selected: int, start: int, end: int)
      requires rows > 0 && Scanned(alphas, entries)
      ensures this.rows == rows
      ensures var last := if end != 0 then end else Min(|entries|, rows);
              Value() == Dir(Window(selected, start, last, |entries|, rows), alphas, entries)
      ensures Kept(Value(), Since(|entries|, 0, []))
    {
      this.alphas, this.entries, this.rows := alphas, entries, rows;
      this.selected, this.start := selected, start;
      this.end := if end != 0 then end else if |entries| < rows then |entries| else rows;
      new;
      ScanKept(Value().window, alphas, entries);
    }

    /** BTN_UP: justPressed tells a fresh press from a repeat. */
    method Up(justPressed: bool)
      requires Ok(Value().window) && |entries| > 0
      modifies this
      ensures Value() == Apply(old(Value()), Move(Action.Up(justPressed)))
    {
      var total := |entries|;
      if selected == 0 && !justPressed {
        // stop at top
      } else {
        selected := selected - 1;
        if selected < 0 {
          selected := total - 1;
          var s := total - rows;
          start := if s < 0 then 0 else s;
          end := total;
        } else if selected < start {
          start := start - 1;
          end := end - 1;
        }
      }
    }

    method Down(justPressed: bool)
      requires Ok(Value().window) && |entries| > 0
      modifies this
      ensures Value() == Apply(old(Value()), Move(Action.Down(justPressed)))
    {
      var total := |entries|;
      if selected == total - 1 && !justPressed {
        // stop at bottom
      } else {
        selected := selected + 1;
        if selected >= total {
          selected := 0;
          start := 0;
          end := if total < rows then total else rows;
        } else if selected >= end {
          start := start + 1;
          end := end + 1;
        }
      }
    }

    method PageUp()
      requires Ok(Value().window) && |entries| > 0
      modifies this
      ensures Value() == Apply(old(Value()), Move(Action.PageUp))
    {
      selected := selected - rows;
      if selected < 0 {
        selected := 0;
        start := 0;
        end := if |entries| < rows then |entries| else rows;
      } else if selected < start {
        start := start - rows;
        if start < 0 { start := 0; }
        end := start + rows;
      }
    }

    method PageDown()
      requires Ok(Value().window) && |entries| > 0
      modifies this
      ensures Value() == Apply(old(Value()), Move(Action.PageDown))
    {
      var total := |entries|;
      selected := selected + rows;
      if selected >= total {
        selected := total - 1;
        var s := total - rows;
        start := if s < 0 then 0 else s;
        end := total;
      } else if selected >= end {
        end := end + rows;
        if end > total { end := total; }
        start := end - rows;
      }
    }

    /** The target becomes the first row, as far as the list allows. */
    method Show(target: nat)
      requires Ok(Value().window) && |entries| > 0
      modifies this`selected, this`start, this`end
      ensures Value() == old(Value()).(window := Next(old(Value()).window, Action.Jump(target)))
    {
      var total := |entries|;
      selected := target;
      if total > rows {
        start := selected;
        end := start + rows;
        if end > total { end := total; }
        start := end - rows;
      }
    }

    /** L1. */
    method PreviousGroup()
      requires Ok(Value().window) && |entries| > 0 && entries[selected] <= |alphas|
      modifies this
      ensures Value() == Apply(old(Value()), GroupJump(false))
    {
      var i := entries[selected] as int - 1;
      if i >= 0 { Show(alphas[i]); }
    }

    /** R1. */
    method NextGroup()
      requires Ok(Value().window) && |entries| > 0
      modifies this
      ensures Value() == Apply(old(Value()), GroupJump(true))
    {
      var i := entries[selected] + 1;
      if i < |alphas| { Show(alphas[i]); }
    }

    /** loadLast finds the entry to select. */
    method Reveal(i: nat)
      requires Ok(Value().window) && i < |entries|
      modifies this
      ensures Value() == Apply(old(Value()), Move(Action.Reveal(i)))
    {
      selected := i;
      if i >= end {
        start := i;
        end := start + rows;
        if end > |entries| {
          end := |entries|;
          start := end - rows;
        }
      }
    }

    /** The window over a changed list, in Lodor_rescanTop and in both removals. */
    method Clamp()
      requires rows > 0
      modifies this`selected, this`start, this`end
      ensures Value() == old(Value()).(window := Next(old(Value()).window, Reload(|entries|)))
    {
      var count := |entries|;
      if selected >= count { selected := if count > 0 then count - 1 else 0; }
      selected := if selected < 0 then 0 else selected;
      start := 0;
      end := if count < rows then count else rows;
      if selected >= end {
        end := selected + 1;
        start := end - rows;
        if start < 0 { start := 0; }
        end := if start + rows < count then start + rows else count;
      }
    }

    /** Lodor_rescanTop: a fresh directory with the old selection. */
    method RescanTop(freshAlphas: seq<nat>, freshEntries: seq<nat>)
      requires Ok(Value().window)
      modifies this
      ensures Value() == Apply(old(Value()), Rescan(freshAlphas, freshEntries))
    {
      alphas, entries := freshAlphas, freshEntries;
      Clamp();
    }

    /** Lodor_refreshBanner and Lodor_refreshContinue: the entry goes, the index stays. */
    method RemoveEntry(at: nat)
      requires Ok(Value().window) && at < |entries|
      modifies this
      ensures Value() == Apply(old(Value()), Remove(at))
    {
      var count := |entries|;
      ghost var was := entries;
      for i := at to count - 1
        invariant |entries| == count
        invariant forall j :: 0 <= j < at || i <= j < count ==> entries[j] == was[j]
        invariant forall j :: at <= j < i ==> entries[j] == was[j + 1]
        modifies this`entries
      {
        entries := entries[i := entries[i + 1]];
      }
      entries := entries[..count - 1];
      assert entries == was[..at] + was[at + 1..];
      Clamp();
    }

    /** Lodor_refreshContinue: the tile comes, in group 0. */
    method InsertTile()
      requires Ok(Value().window)
      modifies this
      ensures Value() == Apply(old(Value()), Tile)
    {
      entries := [0] + entries;
      selected := selected + 1;
      end := if |entries| < rows then |entries| else rows;
    }
  }
}
