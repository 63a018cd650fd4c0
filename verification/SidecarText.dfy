/** The cheat sidecar as text: one description of an enabled cheat per line. */
module SidecarText {

  /** A cheat of the finished table. */
  datatype Loaded = Loaded(desc: string, code: string, enabled: bool)

  const DESC_MAX: nat := 256

  const LINE: nat := DESC_MAX + 16

  // ---- lines ----

  /** How much fgets takes with room for n characters. */
  function Taken(s: string, n: nat): (k: nat)
    ensures k <= |s| && k <= n && (s != [] && n > 0 ==> k > 0)
  {
    if s == [] || n == 0 then 0 else if s[0] == '\n' then 1 else 1 + Taken(s[1..], n - 1)
  }

  function Lines(s: string): seq<string> {
    if s == [] then [] else var k := Taken(s, LINE - 1); [s[..k]] + Lines(s[k..])
  }

  lemma {:induction false} TakenIs(s: string, n: nat)
    ensures var k := Taken(s, n);
            && (forall i :: 0 <= i < k - 1 ==> s[i] != '\n')
            && (k < |s| ==> k == n || (k > 0 && s[k - 1] == '\n'))
  {
    if s != [] && n > 0 && s[0] != '\n' { TakenIs(s[1..], n - 1); }
  }

  /** The pieces in a row. */
  function Concat(ls: seq<string>): string { if ls == [] then [] else ls[0] + Concat(ls[1..]) }

  /** A line break only ends a piece; a piece that ends without one fills the buffer or is the
      last. */
  predicate Piece(l: string, last: bool) {
    && 0 < |l| < LINE && (forall j :: 0 <= j < |l| - 1 ==> l[j] != '\n')
    && (l[|l| - 1] == '\n' || |l| == LINE - 1 || last)
  }

  lemma TakenPiece(s: string)
    requires s != []
    ensures var k := Taken(s, LINE - 1); 0 < k <= |s| && Piece(s[..k], k == |s|)
  {
    TakenIs(s, LINE - 1);
    hide Taken;
  }

  lemma LinesOnce(s: string)
    requires s != []
    ensures var k := Taken(s, LINE - 1); 0 < k <= |s| && Lines(s) == [s[..k]] + Lines(s[k..])
  {
  }

  lemma TwoParts(s: string, k: nat)
    requires k <= |s|
    ensures s[..k] + s[k..] == s
  {
  }

  /** What fgets makes of a text: nothing is lost. */
  lemma {:induction false} LinesSplit(s: string)
    ensures Concat(Lines(s)) == s && (s != [] ==> Lines(s) != [])
    ensures forall i :: 0 <= i < |Lines(s)| ==> Piece(Lines(s)[i], i == |Lines(s)| - 1)
    decreases |s|
  {
    if s == [] {
      assert Lines(s) == [];
    } else {
      var k := Taken(s, LINE - 1);
      hide Taken, Piece, Lines;
      TakenPiece(s);
      LinesOnce(s);
      TwoParts(s, k);
      LinesSplit(s[k..]);
      assert Lines(s)[1..] == Lines(s[k..]);
    }
  }

  function Normalized(l: string): string {
    if |l| > 1 && l[|l| - 1] == '\n' && l[|l| - 2] == '\r' then l[..|l| - 2] + ['\n'] else l
  }

  function Trimmed(l: string): string {
    if l != [] && l[|l| - 1] == '\n' then Trimmed(l[..|l| - 1]) else l
  }

  /** normalizeNewline and trimTrailingNewlines. */
  function Clean(l: string): string { Trimmed(Normalized(l)) }

  // ---- saving and loading ----

  function Saved(ls: seq<Loaded>): string {
    if ls == [] then [] else (if ls[0].enabled then ls[0].desc + ['\n'] else []) + Saved(ls[1..])
  }

  ghost predicate HasName(lines: seq<string>, desc: string) {
    exists k :: 0 <= k < |lines| && Clean(lines[k]) == desc
  }

  /** Some line of the file, cleaned and not empty, is this description. */
  ghost predicate Names(text: string, desc: string) {
    desc != [] && HasName(Lines(text), desc)
  }

  /** Some enabled cheat has this description. */
  ghost predicate On(ls: seq<Loaded>, desc: string) {
    exists j :: 0 <= j < |ls| && ls[j].enabled && ls[j].desc == desc
  }

  ghost function Restored(ls: seq<Loaded>, text: string): (r: seq<Loaded>)
    ensures |r| == |ls| && forall i :: 0 <= i < |ls| ==> r[i] == ls[i].(enabled := Names(text, ls[i].desc))
  {
    if ls == [] then [] else [ls[0].(enabled := Names(text, ls[0].desc))] + Restored(ls[1..], text)
  }

  // ---- which descriptions survive ----

  predicate GoodDesc(d: string) {
    d != [] && |d| < DESC_MAX && '\n' !in d && d[|d| - 1] != '\r'
  }

  lemma {:induction false} TakenLine(d: string, rest: string, n: nat)
    requires '\n' !in d && |d| < n
    ensures Taken(d + (['\n'] + rest), n) == |d| + 1
  {
    if d == [] {
      assert d + (['\n'] + rest) == ['\n'] + rest;
    } else {
      assert (d + (['\n'] + rest))[1..] == d[1..] + (['\n'] + rest);
      TakenLine(d[1..], rest, n - 1);
    }
  }

  lemma {:induction false} TakenBreak(d: string, rest: string, n: nat)
    requires '\n' in d && |d| < n
    ensures var k := Taken(d + rest, n); 0 < k <= |d| && d[k - 1] == '\n'
  {
    if d[0] != '\n' {
      assert (d + rest)[1..] == d[1..] + rest;
      TakenBreak(d[1..], rest, n - 1);
    }
  }

  lemma TrimmedNoBreak(l: string)
    requires '\n' !in l
    ensures Trimmed(l) == l && Trimmed(l + ['\n']) == l
  {
    assert (l + ['\n'])[..|l + ['\n']| - 1] == l;
  }

  lemma {:induction false} TrimmedShorter(l: string)
    ensures |Trimmed(l)| <= |l| && (l != [] && l[|l| - 1] == '\n' ==> |Trimmed(l)| < |l|)
  {
    if l != [] && l[|l| - 1] == '\n' { TrimmedShorter(l[..|l| - 1]); }
  }

  /** Cleaning a line without an inner break. */
  lemma CleanLine(d: string)
    requires d != [] && '\n' !in d
    ensures Clean(d + ['\n']) == if d[|d| - 1] == '\r' then d[..|d| - 1] else d
  {
    var l, n := d + ['\n'], |d| - 1;
    TrimmedNoBreak(d);
    TrimmedNoBreak(d[..n]);
    assert l[|l| - 2] == d[n] && l[..|l| - 2] == d[..n];
    hide Trimmed;
  }

  /** A line written for a description of at most 255 characters is read back as that
      description exactly when it holds no line break and does not end in a carriage return. */
  lemma LineSurvivesIff(d: string, rest: string)
    requires d != [] && |d| < DESC_MAX
    ensures var s := d + (['\n'] + rest);
            Clean(s[..Taken(s, LINE - 1)]) == d <==> GoodDesc(d)
  {
    var s := d + (['\n'] + rest);
    if '\n' in d {
      TakenBreak(d, ['\n'] + rest, LINE - 1);
      var l := s[..Taken(s, LINE - 1)];
      assert l[|l| - 1] == '\n';
      TrimmedShorter(l);
      TrimmedShorter(Normalized(l));
      hide Taken, Trimmed;
    } else {
      TakenLine(d, rest, LINE - 1);
      assert s[..|d| + 1] == d + ['\n'];
      CleanLine(d);
      hide Taken, Clean;
    }
  }

  // ---- saving, then loading ----

  lemma LinesOfLine(d: string, rest: string)
    requires GoodDesc(d)
    ensures Lines(d + (['\n'] + rest)) == [d + ['\n']] + Lines(rest)
  {
    var s := d + (['\n'] + rest);
    TakenLine(d, rest, LINE - 1);
    assert s[..|d| + 1] == d + ['\n'] && s[|d| + 1..] == rest;
    hide Taken;
  }

  lemma SavedOne(ls: seq<Loaded>)
    requires ls != []
    ensures var rest := Saved(ls[1..]);
            Saved(ls) == if ls[0].enabled then ls[0].desc + (['\n'] + rest) else rest
  {
  }

  lemma OneMoreName(ls: seq<Loaded>, rest: seq<string>, desc: string)
    requires ls != [] && Clean(ls[0].desc + ['\n']) == ls[0].desc
    requires HasName(rest, desc) <==> On(ls[1..], desc)
    ensures HasName(if ls[0].enabled then [ls[0].desc + ['\n']] + rest else rest, desc) <==> On(ls, desc)
  {
    hide Clean;
    var lines := if ls[0].enabled then [ls[0].desc + ['\n']] + rest else rest;
    if k :| 0 <= k < |rest| && Clean(rest[k]) == desc {
      assert Clean(lines[if ls[0].enabled then k + 1 else k]) == desc;
      var i :| 0 <= i < |ls[1..]| && ls[1..][i].enabled && ls[1..][i].desc == desc;
      assert ls[i + 1] == ls[1..][i];
    } else if ls[0].enabled && ls[0].desc == desc {
      assert Clean(lines[0]) == desc;
    } else {
      forall k | 0 <= k < |lines| ensures Clean(lines[k]) != desc {
        if ls[0].enabled && k > 0 { assert lines[k] == rest[k - 1]; }
      }
      forall i | 0 <= i < |ls| ensures !(ls[i].enabled && ls[i].desc == desc) {
        if i > 0 { assert ls[i] == ls[1..][i - 1]; }
      }
    }
  }

  lemma GoodIsClean(d: string)
    requires GoodDesc(d)
    ensures Clean(d + ['\n']) == d
  {
    CleanLine(d);
    hide Clean;
  }

  lemma NothingSaved(desc: string)
    ensures !HasName(Lines(Saved([])), desc) && !On([], desc)
  {
  }

  /** The lines of a saved file are the descriptions of the enabled cheats. */
  lemma {:induction false} SavedLines(ls: seq<Loaded>, desc: string)
    requires forall i :: 0 <= i < |ls| ==> GoodDesc(ls[i].desc)
    ensures HasName(Lines(Saved(ls)), desc) <==> On(ls, desc)
  {
    hide *;
    if ls == [] {
      NothingSaved(desc);
    } else {
      var d, rest := ls[0].desc, Saved(ls[1..]);
      SavedLines(ls[1..], desc);
      GoodIsClean(d);
      LinesOfLine(d, rest);
      SavedOne(ls);
      OneMoreName(ls, Lines(rest), desc);
    }
  }

  /** Loading what was saved enables a cheat exactly when an enabled one has its description. */
  lemma SavedThenRestored(ls: seq<Loaded>, i: nat)
    requires i < |ls| && forall j :: 0 <= j < |ls| ==> GoodDesc(ls[j].desc)
    ensures Restored(ls, Saved(ls))[i].enabled <==> On(ls, ls[i].desc)
  {
    SavedLines(ls, ls[i].desc);
    hide Lines, Saved, HasName;
  }

  /** Descriptions enabled after restoring are those enabled before. */
  lemma SameOn(ls: seq<Loaded>, once: seq<Loaded>, i: nat)
    requires |once| == |ls| && i < |ls|
    requires forall j :: 0 <= j < |ls| ==>
               once[j].desc == ls[j].desc && (once[j].enabled <==> On(ls, ls[j].desc))
    ensures On(once, ls[i].desc) <==> On(ls, ls[i].desc)
  {
    if On(ls, ls[i].desc) { assert once[i].enabled && once[i].desc == ls[i].desc; }
    if j :| 0 <= j < |once| && once[j].enabled && once[j].desc == ls[i].desc { assert ls[j].desc == ls[i].desc; }
  }

  /** Doing it again changes nothing, whether the same file is loaded or the result is saved
      first. */
  lemma RestoringTwice(ls: seq<Loaded>)
    requires forall j :: 0 <= j < |ls| ==> GoodDesc(ls[j].desc)
    ensures var once := Restored(ls, Saved(ls));
            Restored(once, Saved(ls)) == once && Restored(once, Saved(once)) == once
  {
    hide *;
    var once := Restored(ls, Saved(ls));
    var again, same := Restored(once, Saved(once)), Restored(once, Saved(ls));
    forall j | 0 <= j < |ls| ensures once[j].enabled <==> On(ls, ls[j].desc) { SavedThenRestored(ls, j); }
    forall i | 0 <= i < |ls| ensures again[i] == once[i] && same[i] == once[i] {
      SavedThenRestored(once, i);
      SameOn(ls, once, i);
    }
  }
}
