/** Lodor_firstHost on a file that was read only in part: its callers read up to a fixed number of
    bytes, and an object cut in two must not pass for a host. */
module HostCut {
  import opened Options
  import opened CStrings
  import opened Json
  import opened FirstHost

  // ---- the scan ----

  lemma TakeRest(s: string, n: nat)
    requires 0 < n <= |s|
    ensures s[..n] != [] && s[..n][0] == s[0] && s[..n][1..] == s[1..][..n - 1]
  {
  }

  lemma DepthStays(st: State, c: char)
    requires st.depth > 0 && !Closes(st, c)
    ensures Step(st, c).depth > 0
  {
  }

  /** Inside an object the scan of a text cut before the closing brace ends without it: in a
      string, behind a backslash or in whatever nested value the cut falls. */
  lemma {:induction false} CutShort(s: string, st: State, n: nat)
    requires st.depth > 0 && n <= |s| && (n < Scan(s, st).0 || !Scan(s, st).1)
    ensures Scan(s[..n], st) == (n, false)
    decreases n
  {
    if n > 0 {
      TakeRest(s, n);
      hide Step, Closes;
      DepthStays(st, s[0]);
      CutShort(s[1..], Step(st, s[0]), n - 1);
    }
  }

  /** A cut behind it makes no difference. */
  lemma {:induction false} CutBehind(s: string, st: State, n: nat)
    requires n <= |s| && Scan(s, st).1 && Scan(s, st).0 <= n && s != []
    ensures Scan(s[..n], st) == Scan(s, st)
    decreases n
  {
    hide Step, Closes;
    TakeRest(s, n);
    if !Closes(st, s[0]) && s[1..] != [] { CutBehind(s[1..], Step(st, s[0]), n - 1); }
  }

  // ---- the way to the object ----

  lemma AtCut(s: string, i: nat, key: string, m: nat)
    requires m <= |s|
    ensures At(s[..m], i, key) <==> At(s, i, key) && i + |key| <= m
  {
    if i + |key| <= m { assert s[..m][i..i + |key|] == s[i..i + |key|]; }
  }

  /** The first occurrence is found while it is there as a whole; no other comes before it. */
  lemma {:induction false} FindCut(s: string, i: nat, key: string, m: nat)
    requires i <= m <= |s|
    ensures Find(s[..m], i, key) == match Find(s, i, key)
                                    case Some(k) => if k + |key| <= m then Some(k) else None
                                    case None => None
    decreases m - i
  {
    hide At;
    AtCut(s, i, key, m);
    if i < m {
      FindCut(s, i + 1, key, m);
    } else if i < |s| && Find(s, i + 1, key).Some? {
      assert Find(s, i + 1, key).value + |key| > m;
    }
  }

  lemma {:induction false} BracketCut(s: string, i: nat, m: nat)
    requires i <= m <= |s|
    ensures ToBracket(s[..m], i) == match ToBracket(s, i)
                                    case Some(b) => if b < m then Some(b) else None
                                    case None => None
    decreases m - i
  {
    if i < m { BracketCut(s, i + 1, m); }
  }

  lemma {:induction false} SpaceCut(s: string, i: nat, m: nat)
    requires i <= m <= |s|
    ensures SkipSpace(s[..m], i) == if SkipSpace(s, i) < m then SkipSpace(s, i) else m
    decreases m - i
  {
    if i < m && IsSpace(s[i]) { SpaceCut(s, i + 1, m); }
  }

  lemma LocateVia(s: string, k: nat)
    requires Find(s, 0, KEY) == Some(k)
    ensures k + |KEY| <= |s|
    ensures Locate(s) == match ToBracket(s, k + |KEY|)
                         case None => None
                         case Some(b) =>
                           var start := SkipSpace(s, b + 1);
                           if start < |s| && s[start] == '{' then Some(start) else None
  {
    hide Find, ToBracket, SkipSpace, KEY;
  }

  lemma CharCut(s: string, m: nat, i: nat)
    requires i < m <= |s|
    ensures s[..m][i] == s[i]
  {
  }

  lemma LocateFrom(s: string, m: nat, k: nat)
    requires k + |KEY| <= m <= |s| && Find(s, 0, KEY) == Some(k) && Find(s[..m], 0, KEY) == Some(k)
    ensures Locate(s[..m]) == if Locate(s).Some? && Locate(s).value < m then Locate(s) else None
  {
    hide *;
    LocateVia(s, k);
    LocateVia(s[..m], k);
    BracketCut(s, k + |KEY|, m);
    var b := ToBracket(s, k + |KEY|);
    if b.Some? && b.value < m {
      var start := SkipSpace(s, b.value + 1);
      SpaceCut(s, b.value + 1, m);
      if start < m { CharCut(s, m, start); }
    }
  }

  /** Of a file cut at m the object is located that is located in the whole file, if its brace
      lies before the cut; and none otherwise. */
  lemma LocateCut(s: string, m: nat)
    requires m <= |s|
    ensures Locate(s[..m]) == if Locate(s).Some? && Locate(s).value < m then Locate(s) else None
  {
    FindCut(s, 0, KEY, m);
    var k := Find(s, 0, KEY);
    if k.Some? && k.value + |KEY| <= m {
      hide *;
      LocateFrom(s, m, k.value);
    } else {
      hide Find, ToBracket, SkipSpace, KEY;
      assert Locate(s[..m]) == None;
    }
  }

  // ---- the whole function ----

  lemma RestCut(s: string, start: nat, m: nat)
    requires start <= m <= |s|
    ensures s[..m][start..] == s[start..][..m - start]
  {
  }

  lemma ObjectCut(s: string, start: nat, m: nat)
    requires start < m <= |s| && s[start] == '{'
    ensures var (n, ok) := Scan(s[start..], State(0, false, false));
            Scan(s[..m][start..], State(0, false, false)) ==
            if ok && start + n <= m then (n, true) else (m - start, false)
  {
    var st, t := State(0, false, false), s[start..];
    RestCut(s, start, m);
    TakeRest(t, m - start);
    assert Step(st, t[0]) == State(1, false, false);
    assert t[..m - start][0] == '{';
    hide Step;
    var (n, ok) := Scan(t[1..], State(1, false, false));
    if ok && start + 1 + n <= m {
      if t[1..] != [] { CutBehind(t[1..], State(1, false, false), m - start - 1); }
    } else {
      CutShort(t[1..], State(1, false, false), m - start - 1);
    }
  }

  lemma SameText(s: string, start: nat, n: nat, m: nat)
    requires start + n <= m <= |s|
    ensures s[..m][start..start + n] == s[start..start + n]
  {
  }

  lemma ScanMoves(s: string, st: State)
    requires s != []
    ensures Scan(s, st).0 > 0
  {
  }

  lemma ExtractVia(s: string, start: nat)
    requires Locate(s) == Some(start)
    ensures start < |s| && s[start] == '{'
    ensures var (n, ok) := Scan(s[start..], State(0, false, false));
            0 < n <= |s| - start && Extract(s) == if ok then Some(s[start..start + n]) else None
  {
    hide Locate, Scan;
    ScanMoves(s[start..], State(0, false, false));
  }

  lemma NothingCut(s: string)
    requires Locate(s) == None
    ensures Extract(s) == None
  {
  }

  /** Cutting a file leaves the answer as it is if the cut comes behind the object that is cut
      out, and otherwise leaves nothing to be found. */
  lemma ExtractCut(s: string, m: nat)
    requires m <= |s|
    ensures Extract(s[..m]) ==
            if Extract(s).Some? && Locate(s).value + |Extract(s).value| <= m then Extract(s) else None
  {
    hide *;
    LocateCut(s, m);
    if Locate(s).Some? {
      var start := Locate(s).value;
      ExtractVia(s, start);
      if start < m {
        ExtractVia(s[..m], start);
        ObjectCut(s, start, m);
        var (n, ok) := Scan(s[start..], State(0, false, false));
        if ok && start + n <= m { SameText(s, start, n, m); }
      } else {
        NothingCut(s[..m]);
      }
    } else {
      NothingCut(s);
      NothingCut(s[..m]);
    }
  }

  /** A configuration whose first text "hosts" is the key of the array: cut anywhere before the
      end of the first host, inside its strings, escapes and nested values too, it yields no host,
      and cut anywhere else it yields the whole host. */
  lemma HalfReadHost(before: string, gap: string, ws: string, host: Value, after: string, m: nat)
    requires Good(host) && host.Object? && Space(ws) && forall c :: c in gap ==> !Stops(c)
    requires var json := before + KEY + gap + ['['] + ws + Print(host) + after;
             Find(json, 0, KEY) == Some(|before|) && m <= |json|
    ensures Extract((before + KEY + gap + ['['] + ws + Print(host) + after)[..m]) ==
            if |before + KEY + gap + ['['] + ws + Print(host)| <= m then Some(Print(host)) else None
  {
    hide *;
    var head := before + KEY + gap + ['['];
    var json := head + ws + Print(host) + after;
    FirstHostFound(before, gap, ws, host, after);
    ExtractCut(json, m);
    assert |head + ws + Print(host)| == |head| + |ws| + |Print(host)|;
  }
}
