/** Lodor_chtValue of minarch.c: trim a value and strip its quotes, in the line's own buffer. */
module ChtValue {
  import opened Seqs

  /** isspace in the C locale. */
  predicate IsSpace(c: char) { c == ' ' || '\t' <= c <= '\r' }

  function TrimLeft(s: string): string {
    if s != [] && IsSpace(s[0]) then TrimLeft(s[1..]) else s
  }

  function TrimRight(s: string): string {
    if s != [] && IsSpace(s[|s| - 1]) then TrimRight(s[..|s| - 1]) else s
  }

  /** Up to the closing quote, a backslash standing for the character after it. */
  function Inside(s: string): string {
    if s == [] || s[0] == '"' then []
    else if s[0] == '\\' && |s| > 1 then [s[1]] + Inside(s[2..])
    else [s[0]] + Inside(s[1..])
  }

  function Value(s: string): string {
    var t := TrimRight(TrimLeft(s));
    if t != [] && t[0] == '"' then Inside(t[1..]) else t
  }

  // ---- what it undoes ----

  /** A text as a .cht file quotes it. */
  function Escaped(t: string): string {
    if t == [] then [] else (if t[0] == '"' || t[0] == '\\' then ['\\', t[0]] else [t[0]]) + Escaped(t[1..])
  }

  predicate Spaces(s: string) { forall c :: c in s ==> IsSpace(c) }

  lemma {:induction false} TrimLeftOf(ws: string, s: string)
    requires Spaces(ws) && (s == [] || !IsSpace(s[0]))
    ensures TrimLeft(ws + s) == s
  {
    if ws == [] {
      assert ws + s == s;
    } else {
      assert IsSpace(ws[0]) && (ws + s)[1..] == ws[1..] + s;
      assert Spaces(ws[1..]);
      TrimLeftOf(ws[1..], s);
    }
  }

  lemma {:induction false} TrimRightOf(s: string, ws: string)
    requires Spaces(ws) && (s == [] || !IsSpace(s[|s| - 1]))
    ensures TrimRight(s + ws) == s
  {
    if ws == [] {
      assert s + ws == s;
    } else {
      var n := |ws| - 1;
      assert IsSpace(ws[n]) && (s + ws)[..|s + ws| - 1] == s + ws[..n];
      assert Spaces(ws[..n]);
      TrimRightOf(s, ws[..n]);
    }
  }

  lemma InsideEscape(c: char, tail: string)
    ensures Inside(['\\', c] + tail) == [c] + Inside(tail)
    ensures c != '"' && c != '\\' ==> Inside([c] + tail) == [c] + Inside(tail)
  {
    assert (['\\', c] + tail)[2..] == tail && ([c] + tail)[1..] == tail;
  }

  lemma {:induction false} InsideStops(t: string, rest: string)
    ensures Inside(Escaped(t) + (['"'] + rest)) == t
  {
    var quote := ['"'] + rest;
    if t == [] {
      assert Escaped(t) + quote == quote;
    } else {
      var c := if t[0] == '"' || t[0] == '\\' then ['\\', t[0]] else [t[0]];
      assert Escaped(t) == c + Escaped(t[1..]);
      InsideStops(t[1..], rest);
      hide Inside, Escaped;
      AppendAssoc(c, Escaped(t[1..]), quote);
      InsideEscape(t[0], Escaped(t[1..]) + quote);
    }
  }

  /** Trimming stops at the last character that is no whitespace. */
  lemma {:induction false} TrimRightKeeps(s: string, rest: string)
    requires s != [] && !IsSpace(s[|s| - 1])
    ensures |s| <= |TrimRight(s + rest)| <= |s| + |rest|
    ensures TrimRight(s + rest) == s + rest[..|TrimRight(s + rest)| - |s|]
    decreases |rest|
  {
    var all := s + rest;
    if rest == [] {
      assert all == s;
    } else if IsSpace(rest[|rest| - 1]) {
      assert all[..|all| - 1] == s + rest[..|rest| - 1];
      TrimRightKeeps(s, rest[..|rest| - 1]);
    }
  }

  lemma TrimmedQuote(before: string, q: string, rest: string)
    requires Spaces(before) && q != [] && !IsSpace(q[0]) && !IsSpace(q[|q| - 1])
    ensures var t := TrimRight(q + rest);
            TrimRight(TrimLeft(before + q + rest)) == t && |t| >= |q| && t == q + t[|q|..]
  {
    AppendAssoc(before, q, rest);
    TrimLeftOf(before, q + rest);
    TrimRightKeeps(q, rest);
  }

  lemma QuoteIsDark()
    ensures !IsSpace('"')
  {
  }

  lemma TailOfQuote(text: string, kept: string)
    ensures var u := ['"'] + text + kept; u != [] && u[0] == '"' && u[1..] == text + kept
  {
  }

  lemma ValueFromQuote(s: string, u: string)
    requires TrimRight(TrimLeft(s)) == u && u != [] && u[0] == '"'
    ensures Value(s) == Inside(u[1..])
  {
    hide TrimLeft, TrimRight, Inside;
  }

  /** Whatever a text holds, its quoted form reads back as that text, and what follows the
      closing quote is ignored. */
  lemma ValueUndoesQuoting(before: string, t: string, rest: string)
    requires Spaces(before)
    ensures Value(before + (['"'] + (Escaped(t) + ['"'])) + rest) == t
  {
    hide *;
    var q := ['"'] + (Escaped(t) + ['"']);
    QuoteIsDark();
    TrimmedQuote(before, q, rest);
    var kept := TrimRight(q + rest)[|q|..];
    TailOfQuote(Escaped(t) + ['"'], kept);
    ValueFromQuote(before + q + rest, ['"'] + (Escaped(t) + ['"']) + kept);
    AppendAssoc(Escaped(t), ['"'], kept);
    InsideStops(t, kept);
  }

  /** An unquoted value only loses the whitespace around it. */
  lemma ValueOfPlain(before: string, t: string, after: string)
    requires Spaces(before) && Spaces(after) && t != [] && t[0] != '"' && !IsSpace(t[0]) && !IsSpace(t[|t| - 1])
    ensures Value(before + t + after) == t
  {
    assert (before + t) + after == before + (t + after);
    TrimLeftOf(before, t + after);
    TrimRightOf(t, after);
    hide TrimLeft, TrimRight, Inside;
  }

  // ---- in place ----

  /** The string that starts at place v of a buffer. */
  predicate Holds(a: seq<char>, v: nat, s: string) {
    v + |s| < |a| && a[v + |s|] == '\0' && forall p :: v <= p < v + |s| ==> a[p] == s[p - v] && a[p] != '\0'
  }

  /** What is behind the first k characters. */
  lemma HoldsTail(a: seq<char>, from: nat, s: string, k: nat)
    requires Holds(a, from, s) && k <= |s|
    ensures from + k < |a| && Holds(a, from + k, s[k..])
    ensures a[from + k] == if k < |s| then s[k] else '\0'
  {
  }

  lemma TrimLeftStep(s: string, k: nat)
    requires k <= |s|
    ensures TrimLeft(s[k..]) == if k < |s| && IsSpace(s[k]) then TrimLeft(s[k + 1..]) else s[k..]
  {
    if k < |s| { assert s[k..][0] == s[k] && s[k..][1..] == s[k + 1..]; }
  }

  /** The leading whitespace. */
  method SkipSpace(a: array<char>, from: nat, ghost s: string) returns (v: nat)
    requires Holds(a[..], from, s)
    ensures from <= v <= from + |s| && Holds(a[..], v, TrimLeft(s))
  {
    hide TrimLeft, Holds;
    v := from;
    assert s[0..] == s;
    HoldsTail(a[..], from, s, 0);
    while IsSpace(a[v])
      invariant from <= v <= from + |s| && TrimLeft(s) == TrimLeft(s[v - from..])
      invariant Holds(a[..], v, s[v - from..]) && v < a.Length
      invariant a[v] == if v - from < |s| then s[v - from] else '\0'
      decreases from + |s| - v
    {
      TrimLeftStep(s, v - from);
      v := v + 1;
      HoldsTail(a[..], from, s, v - from);
    }
    TrimLeftStep(s, v - from);
  }

  method Strlen(a: array<char>, v: nat, ghost s: string) returns (n: nat)
    requires Holds(a[..], v, s)
    ensures n == |s|
  {
    n := 0;
    while a[v + n] != '\0'
      invariant n <= |s|
      decreases |s| - n
    {
      n := n + 1;
    }
  }

  lemma TrimStep(s: string, n: nat)
    requires 0 < n <= |s| && IsSpace(s[n - 1])
    ensures TrimRight(s[..n]) == TrimRight(s[..n - 1])
  {
    assert s[..n][..n - 1] == s[..n - 1];
  }

  /** The trailing whitespace. */
  method TrimEnd(a: array<char>, v: nat, ghost s: string) returns (n: nat)
    requires Holds(a[..], v, s)
    modifies a
    ensures n == |TrimRight(s)| && Holds(a[..], v, TrimRight(s)) && a[..v] == old(a[..v])
  {
    n := Strlen(a, v, s);
    assert s[..|s|] == s;
    while n > 0 && IsSpace(a[v + n - 1])
      invariant n <= |s| && TrimRight(s) == TrimRight(s[..n]) && Holds(a[..], v, s[..n]) && a[..v] == old(a[..v])
    {
      TrimStep(s, n);
      assert a[v + n - 1] == s[n - 1];
      hide TrimRight;
      n := n - 1;
      a[v + n] := '\0';
    }
    assert n > 0 ==> a[v + n - 1] == s[..n][n - 1];
    assert TrimRight(s[..n]) == s[..n];
  }

  predicate Copied(a: seq<char>, v: nat, done: string) {
    v + |done| <= |a| && forall p :: v <= p < v + |done| ==> a[p] == done[p - v] && a[p] != '\0'
  }

  method Terminate(a: array<char>, v: nat, w: nat, ghost done: string)
    requires w == v + |done| < a.Length && Copied(a[..], v, done)
    modifies a
    ensures Holds(a[..], v, done) && a[..v] == old(a[..v])
  {
    a[w] := '\0';
  }

  lemma InsideOne(u: string)
    requires u != [] && u[0] != '"'
    ensures Inside(u) == if u[0] == '\\' && |u| > 1 then [u[1]] + Inside(u[2..]) else [u[0]] + Inside(u[1..])
  {
  }

  /** One round of the unescape on the text that is left. */
  lemma InsideStep(u: string, done: string, all: string)
    requires u != [] && u[0] != '"' && done + Inside(u) == all
    ensures if u[0] == '\\' && |u| > 1 then done + [u[1]] + Inside(u[1..][1..]) == all
            else done + [u[0]] + Inside(u[1..]) == all
  {
    InsideOne(u);
    hide *;
    if u[0] == '\\' && |u| > 1 {
      assert u[1..][1..] == u[2..];
      AppendAssoc(done, [u[1]], Inside(u[2..]));
    } else {
      AppendAssoc(done, [u[0]], Inside(u[1..]));
    }
  }

  /** One round of the unescape. */
  method CopyOne(a: array<char>, v: nat, w: nat, r: nat, ghost rest: string, ghost done: string, ghost all: string)
    returns (r': nat, ghost rest': string, ghost done': string)
    requires v <= w < r && w == v + |done| && Holds(a[..], r, rest) && Copied(a[..], v, done)
    requires done + Inside(rest) == all && a[r] != '\0' && a[r] != '"'
    modifies a
    ensures r < r' && |done'| == |done| + 1 && |rest'| < |rest| && Holds(a[..], r', rest')
    ensures done' + Inside(rest') == all && Copied(a[..], v, done')
    ensures a[..v] == old(a[..v])
  {
    assert rest != [] && a[r] == rest[0];
    assert |rest| > 1 ==> a[r + 1] == rest[1];
    InsideStep(rest, done, all);
    hide Inside;
    r', rest' := r, rest;
    if a[r] == '\\' && a[r + 1] != '\0' {
      r' := r + 1;
      rest' := rest[1..];
    }
    done' := done + [a[r']];
    a[w] := a[r'];
    r', rest' := r' + 1, rest'[1..];
  }

  lemma InsideOver(u: string, done: string, all: string)
    requires (u == [] || u[0] == '"') && done + Inside(u) == all
    ensures done == all
  {
  }

  /** The quotes and escapes; the write position stays behind the read position. */
  method Unquote(a: array<char>, v: nat, ghost t: string)
    requires Holds(a[..], v, t) && t != [] && t[0] == '"'
    modifies a
    ensures Holds(a[..], v, Inside(t[1..])) && a[..v] == old(a[..v])
  {
    var w, r := v, v + 1;
    ghost var done, all, rest := [], Inside(t[1..]), t[1..];
    assert done + Inside(rest) == all;
    hide Inside;
    while a[r] != '\0' && a[r] != '"'
      invariant v <= w < r && w == v + |done| && Holds(a[..], r, rest)
      invariant done + Inside(rest) == all
      invariant Copied(a[..], v, done)
      invariant a[..v] == old(a[..v])
      decreases |rest|
    {
      r, rest, done := CopyOne(a, v, w, r, rest, done, all);
      w := w + 1;
    }
    assert rest != [] ==> a[r] == rest[0];
    InsideOver(rest, done, all);
    hide *;
    Terminate(a, v, w, done);
  }

  method ChtValue(a: array<char>, from: nat, ghost s: string) returns (v: nat)
    requires Holds(a[..], from, s)
    modifies a
    ensures from <= v && Holds(a[..], v, Value(s))
    ensures a[..from] == old(a[..from])
  {
    v := SkipSpace(a, from, s);
    ghost var t := TrimLeft(s);
    var n := TrimEnd(a, v, t);
    t := TrimRight(t);
    hide TrimLeft, TrimRight, Inside;
    assert a[..from] == a[..v][..from] == old(a[..from]);
    if a[v] == '"' {
      assert t != [] && t[0] == '"';
      Unquote(a, v, t);
      assert a[..from] == a[..v][..from];
    }
  }
}
