/** Lodor_firstHost of minui.c: cut hosts[0] out of a configuration by matching braces. */
module FirstHost {
  import opened Options
  import opened CStrings
  import opened Json

  // ---- the scan for the matching brace ----

  datatype State = State(depth: int, instr: bool, esc: bool)

  function Step(st: State, c: char): State {
    if st.instr then
      if st.esc then st.(esc := false)
      else if c == '\\' then st.(esc := true)
      else if c == '"' then st.(instr := false)
      else st
    else if c == '"' then st.(instr := true)
    else if c == '{' then st.(depth := st.depth + 1)
    else if c == '}' then st.(depth := st.depth - 1)
    else st
  }

  predicate Closes(st: State, c: char) { !st.instr && c == '}' && st.depth == 1 }

  /** How many characters the loop passes, and whether it ends at depth zero. */
  function Scan(s: string, st: State): (r: (nat, bool))
    ensures r.0 <= |s|
  {
    if s == [] then (0, st.depth == 0)
    else if Closes(st, s[0]) then (1, true)
    else var (n, ok) := Scan(s[1..], Step(st, s[0])); (n + 1, ok)
  }

  predicate Passes(s: string, rest: string, st: State) {
    Scan(s + rest, st) == (|s| + Scan(rest, st).0, Scan(rest, st).1)
  }

  /** s is passed without stopping and without a lasting effect, at any depth. */
  ghost predicate Neutral(s: string) {
    forall d: nat, rest: string :: d > 0 ==> Passes(s, rest, State(d, false, false))
  }

  lemma NeutralAppend(a: string, b: string)
    requires Neutral(a) && Neutral(b)
    ensures Neutral(a + b)
  {
    forall d: nat, rest: string | d > 0 ensures Passes(a + b, rest, State(d, false, false)) {
      assert (a + b) + rest == a + (b + rest);
      assert Passes(a, b + rest, State(d, false, false)) && Passes(b, rest, State(d, false, false));
      hide Scan;
    }
  }

  predicate Inert(c: char) { c != '"' && c != '{' && c != '}' }

  lemma NeutralChar(c: char)
    requires Inert(c)
    ensures Neutral([c])
  {
    forall d: nat, rest: string | d > 0 ensures Passes([c], rest, State(d, false, false)) {
      assert ([c] + rest)[1..] == rest;
    }
  }

  lemma NeutralEmpty()
    ensures Neutral([])
  {
    forall d: nat, rest: string | d > 0 ensures Passes([], rest, State(d, false, false)) {
      assert [] + rest == rest;
    }
  }

  lemma {:induction false} NeutralText(s: string)
    requires forall c :: c in s ==> Inert(c)
    ensures Neutral(s)
  {
    if s == [] {
      NeutralEmpty();
    } else {
      NeutralChar(s[0]);
      NeutralText(s[1..]);
      NeutralAppend([s[0]], s[1..]);
      assert s == [s[0]] + s[1..];
    }
  }

  // ---- strings ----

  lemma OnePlain(c: char, tail: string, d: nat)
    requires c != '"' && c != '\\'
    ensures var (n, ok) := Scan(tail, State(d, true, false));
            Scan([c] + tail, State(d, true, false)) == (1 + n, ok)
  {
    assert ([c] + tail)[1..] == tail;
  }

  lemma OneEscape(c: char, tail: string, d: nat)
    ensures var (n, ok) := Scan(tail, State(d, true, false));
            Scan(['\\', c] + tail, State(d, true, false)) == (2 + n, ok)
  {
    var s := ['\\', c] + tail;
    assert s[1..] == [c] + tail && s[1..][1..] == tail;
    var (n, ok) := Scan(tail, State(d, true, false));
    assert Scan(s[1..], State(d, true, true)) == (1 + n, ok);
  }

  lemma UnicodePasses(a: char, b: char, c: char, e: char, tail: string, d: nat)
    requires Hex(a) && Hex(b) && Hex(c) && Hex(e)
    ensures var (n, ok) := Scan(tail, State(d, true, false));
            Scan(['\\', 'u', a, b, c, e] + tail, State(d, true, false)) == (6 + n, ok)
  {
    hide Scan;
    var t3 := [e] + tail;
    var t2 := [c] + t3;
    var t1 := [b] + t2;
    var t0 := [a] + t1;
    OneEscape('u', t0, d);
    OnePlain(a, t1, d);
    OnePlain(b, t2, d);
    OnePlain(c, t3, d);
    OnePlain(e, tail, d);
    assert ['\\', 'u', a, b, c, e] + tail == ['\\', 'u'] + t0;
  }

  lemma PartPasses(p: Part, tail: string, d: nat)
    requires GoodPart(p)
    ensures var (n, ok) := Scan(tail, State(d, true, false));
            Scan(PrintPart(p) + tail, State(d, true, false)) == (|PrintPart(p)| + n, ok)
  {
    match p
    case Plain(c) => OnePlain(c, tail, d);
    case Escaped(c) => OneEscape(c, tail, d);
    case Unicode(a, b, c, e) => UnicodePasses(a, b, c, e, tail, d);
  }

  /** Inside a string the parts up to the closing quote are passed. */
  lemma {:induction false} PartsPass(ps: seq<Part>, rest: string, d: nat)
    requires GoodString(ps)
    ensures var s := PrintParts(ps) + (['"'] + rest);
            var (n, ok) := Scan(rest, State(d, false, false));
            Scan(s, State(d, true, false)) == (|PrintParts(ps)| + 1 + n, ok)
  {
    if ps == [] {
      assert PrintParts(ps) + (['"'] + rest) == ['"'] + rest;
      assert (['"'] + rest)[1..] == rest;
    } else {
      var tail := PrintParts(ps[1..]) + (['"'] + rest);
      assert PrintParts(ps) + (['"'] + rest) == PrintPart(ps[0]) + tail;
      assert GoodPart(ps[0]);
      assert |PrintParts(ps)| == |PrintPart(ps[0])| + |PrintParts(ps[1..])|;
      PartsPass(ps[1..], rest, d);
      hide PrintParts;
      PartPasses(ps[0], tail, d);
    }
  }

  lemma NeutralString(ps: seq<Part>)
    requires GoodString(ps)
    ensures Neutral(PrintString(ps))
  {
    forall d: nat, rest: string | d > 0 ensures Passes(PrintString(ps), rest, State(d, false, false)) {
      PartsPass(ps, rest, d);
      assert PrintString(ps) + rest == ['"'] + (PrintParts(ps) + (['"'] + rest));
      assert (PrintString(ps) + rest)[1..] == PrintParts(ps) + (['"'] + rest);
    }
  }

  // ---- values ----

  lemma NeutralSpace(ws: string)
    requires Space(ws)
    ensures Neutral(ws)
  {
    forall c | c in ws ensures Inert(c) { assert IsSpace(c); }
    NeutralText(ws);
  }

  lemma {:induction false} NeutralItems(l: Items)
    requires GoodItems(l)
    ensures Neutral(PrintItems(l))
  {
    hide Neutral;
    match l
    case NoItems => NeutralEmpty();
    case Item(before, value, after, rest) =>
      NeutralSpace(before);
      NeutralValue(value);
      NeutralSpace(after);
      var tail := if rest == NoItems then [] else [','] + PrintItems(rest);
      NeutralItems(rest);
      NeutralEmpty();
      NeutralChar(',');
      NeutralAppend([','], PrintItems(rest));
      NeutralAppend(after, tail);
      NeutralAppend(Print(value), after + tail);
      NeutralAppend(before, Print(value) + (after + tail));
  }

  lemma NeutralTail(rest: Members, tail: string)
    requires Neutral(PrintMembers(rest)) && tail == if rest == NoMembers then [] else [','] + PrintMembers(rest)
    ensures Neutral(tail)
  {
    hide Neutral;
    NeutralEmpty();
    NeutralChar(',');
    NeutralAppend([','], PrintMembers(rest));
  }

  lemma NeutralColon(a: string, b: string, t: string)
    requires Space(a) && Space(b) && Neutral(t)
    ensures Neutral(a + ([':'] + (b + t)))
  {
    hide Neutral;
    NeutralSpace(a);
    NeutralSpace(b);
    NeutralChar(':');
    NeutralAppend(b, t);
    NeutralAppend([':'], b + t);
    NeutralAppend(a, [':'] + (b + t));
  }

  lemma {:induction false} NeutralMembers(l: Members)
    requires GoodMembers(l)
    ensures Neutral(PrintMembers(l))
  {
    hide Neutral;
    match l
    case NoMembers => NeutralEmpty();
    case Member(before, key, beforeColon, afterColon, value, after, rest) =>
      NeutralValue(value);
      var tail := if rest == NoMembers then [] else [','] + PrintMembers(rest);
      NeutralMembers(rest);
      NeutralTail(rest, tail);
      var t1 := Print(value) + (after + tail);
      NeutralSpace(after);
      NeutralAppend(after, tail);
      NeutralAppend(Print(value), after + tail);
      NeutralColon(beforeColon, afterColon, t1);
      var t2 := beforeColon + ([':'] + (afterColon + t1));
      NeutralString(key);
      NeutralSpace(before);
      NeutralAppend(PrintString(key), t2);
      NeutralAppend(before, PrintString(key) + t2);
  }

  lemma CloseBrace(rest: string, d: nat)
    ensures Scan(['}'] + rest, State(d + 1, false, false)) ==
            if d == 0 then (1, true)
            else (1 + Scan(rest, State(d, false, false)).0, Scan(rest, State(d, false, false)).1)
  {
    assert (['}'] + rest)[1..] == rest;
  }

  lemma OpenBrace(rest: string, d: nat)
    ensures var (n, ok) := Scan(rest, State(d + 1, false, false));
            Scan(['{'] + rest, State(d, false, false)) == (n + 1, ok)
  {
    assert (['{'] + rest)[1..] == rest;
  }

  lemma Regroup(t: string, rest: string)
    ensures (['{'] + (t + ['}'])) + rest == ['{'] + (t + (['}'] + rest))
  {
  }

  /** Braces around a neutral text: neutral inside an outer object, and the end of the scan at
      depth zero. */
  lemma BracesPass(t: string, rest: string, d: nat)
    requires Neutral(t)
    ensures var s := ['{'] + (t + ['}']);
            Scan(s + rest, State(d, false, false)) ==
            if d == 0 then (|s|, true)
            else (|s| + Scan(rest, State(d, false, false)).0, Scan(rest, State(d, false, false)).1)
  {
    var s := ['{'] + (t + ['}']);
    var tail := ['}'] + rest;
    assert Passes(t, tail, State(d + 1, false, false));
    assert Scan(t + tail, State(d + 1, false, false)) ==
           (|t| + Scan(tail, State(d + 1, false, false)).0, Scan(tail, State(d + 1, false, false)).1);
    hide *;
    CloseBrace(rest, d);
    OpenBrace(t + tail, d);
    Regroup(t, rest);
    assert |s| == |t| + 2;
  }

  lemma NeutralBraces(t: string)
    requires Neutral(t)
    ensures Neutral(['{'] + (t + ['}']))
  {
    forall d: nat, rest: string | d > 0 ensures Passes(['{'] + (t + ['}']), rest, State(d, false, false)) {
      BracesPass(t, rest, d);
    }
  }

  /** A value inside an object is passed whatever its strings hold. */
  lemma {:induction false} NeutralValue(v: Value)
    requires Good(v)
    ensures Neutral(Print(v))
  {
    hide Neutral;
    match v
    case Literal(t) => NeutralText(t);
    case Str(ps) => NeutralString(ps);
    case Array(ws, items) =>
      NeutralChar('[');
      NeutralSpace(ws);
      NeutralItems(items);
      NeutralChar(']');
      NeutralAppend(PrintItems(items), [']']);
      NeutralAppend(ws, PrintItems(items) + [']']);
      NeutralAppend(['['], ws + (PrintItems(items) + [']']));
    case Object(ws, members) =>
      NeutralSpace(ws);
      NeutralMembers(members);
      NeutralAppend(ws, PrintMembers(members));
      NeutralBraces(ws + PrintMembers(members));
      assert Print(v) == ['{'] + ((ws + PrintMembers(members)) + ['}']);
  }

  /** The scan of an object ends at exactly its closing brace, whatever follows. */
  lemma ObjectScanned(v: Value, rest: string)
    requires Good(v) && v.Object?
    ensures Scan(Print(v) + rest, State(0, false, false)) == (|Print(v)|, true)
  {
    var t := v.ws + PrintMembers(v.members);
    NeutralSpace(v.ws);
    NeutralMembers(v.members);
    NeutralAppend(v.ws, PrintMembers(v.members));
    BracesPass(t, rest, 0);
    assert Print(v) == ['{'] + (t + ['}']);
  }

  // ---- the whole function ----

  const KEY: string := "\"hosts\""

  /** Past the key, up to the array: no brace may come first. */
  function ToBracket(s: string, i: nat): (r: Option<nat>)
    requires i <= |s|
    ensures r.Some? ==> i <= r.value < |s| && s[r.value] == '['
    decreases |s| - i
  {
    if i == |s| || s[i] == '{' || s[i] == '}' then None
    else if s[i] == '[' then Some(i)
    else ToBracket(s, i + 1)
  }

  function SkipSpace(s: string, i: nat): (r: nat)
    requires i <= |s|
    ensures i <= r <= |s|
    decreases |s| - i
  {
    if i < |s| && IsSpace(s[i]) then SkipSpace(s, i + 1) else i
  }

  /** Where the first element of the array starts, if it is an object. */
  function Locate(json: string): (r: Option<nat>)
    ensures r.Some? ==> r.value < |json| && json[r.value] == '{'
  {
    match Find(json, 0, KEY)
    case None => None
    case Some(k) =>
      match ToBracket(json, k + |KEY|)
      case None => None
      case Some(b) =>
        var start := SkipSpace(json, b + 1);
        if start == |json| || json[start] != '{' then None else Some(start)
  }

  /** The text that is cut out, if any. */
  function Extract(json: string): Option<string> {
    match Locate(json)
    case None => None
    case Some(start) =>
      var (n, ok) := Scan(json[start..], State(0, false, false));
      if ok then Some(json[start..start + n]) else None
  }

  /** The first half: from the key to the opening brace. */
  method FindObject(json: string) returns (start: Option<nat>)
    ensures start == Locate(json)
  {
    var key := Find(json, 0, KEY);
    if key.None? { return None; }
    var p := key.value + |KEY|;
    ghost var p0 := p;
    while p < |json| && json[p] != '['
      invariant p0 <= p <= |json| && ToBracket(json, p0) == ToBracket(json, p)
    {
      if json[p] == '{' || json[p] == '}' { return None; }
      p := p + 1;
    }
    if p == |json| { return None; }
    p := p + 1;
    ghost var p1 := p;
    while p < |json| && IsSpace(json[p])
      invariant p1 <= p <= |json| && SkipSpace(json, p1) == SkipSpace(json, p)
    {
      p := p + 1;
    }
    if p == |json| || json[p] != '{' { return None; }
    assert p == SkipSpace(json, p1);
    start := Some(p);
  }

  /** The bounded copy. */
  method CopyBounded(text: string, out: array<char>)
    requires out.Length > 0
    modifies out
    ensures var len := if |text| < out.Length then |text| else out.Length - 1;
            out[..len] == text[..len] && out[len] == '\0'
  {
    var len := |text|;
    if len >= out.Length { len := out.Length - 1; }
    for i := 0 to len
      invariant forall j :: 0 <= j < i ==> out[j] == text[j]
    {
      out[i] := text[i];
    }
    out[len] := '\0';
  }

  /** The loop over the object. */
  method MatchBrace(json: string, start: nat) returns (end: nat, ok: bool)
    requires start <= |json|
    ensures start <= end <= |json| && (end - start, ok) == Scan(json[start..], State(0, false, false))
  {
    var p, depth, instr, esc := start, 0, false, false;
    ghost var whole := Scan(json[start..], State(0, false, false));
    while p < |json|
      invariant start <= p <= |json|
      invariant var (n, o) := Scan(json[p..], State(depth, instr, esc)); whole == (p - start + n, o)
    {
      var c := json[p];
      assert json[p..][0] == c && json[p..][1..] == json[p + 1..];
      if instr {
        if esc { esc := false; } else if c == '\\' { esc := true; } else if c == '"' { instr := false; }
      } else if c == '"' {
        instr := true;
      } else if c == '{' {
        depth := depth + 1;
      } else if c == '}' {
        depth := depth - 1;
        if depth == 0 { return p + 1, true; }
      }
      p := p + 1;
    }
    end, ok := p, depth == 0;
  }

  /** out is the caller's buffer; longer texts are cut to fit it. */
  method FirstHost(json: string, out: array<char>) returns (found: bool)
    requires out.Length > 0
    modifies out
    ensures found <==> Extract(json).Some?
    ensures !found ==> out[0] == '\0'
    ensures found ==>
              var text := Extract(json).value;
              var len := if |text| < out.Length then |text| else out.Length - 1;
              out[..len] == text[..len] && out[len] == '\0'
  {
    out[0] := '\0';
    var p := FindObject(json);
    if p.None? { return false; }
    var end, ok := MatchBrace(json, p.value);
    if !ok { return false; }
    hide Locate, Scan;
    CopyBounded(json[p.value..end], out);
    found := true;
  }

  predicate Stops(c: char) { c == '[' || c == '{' || c == '}' }

  /** No bracket and no brace in s[i..b). */
  predicate Clear(s: string, i: nat, b: nat)
    requires b <= |s|
  {
    forall j :: i <= j < b ==> !Stops(s[j])
  }

  /** The walk reaches a bracket exactly when nothing stops it before. */
  lemma {:induction false} ToBracketIff(s: string, i: nat, b: nat)
    requires i <= b < |s| && s[b] == '['
    ensures ToBracket(s, i) == Some(b) <==> Clear(s, i, b)
    decreases b - i
  {
    if i < b { ToBracketIff(s, i + 1, b); }
  }

  lemma {:induction false} ToBracketBlocked(s: string, i: nat, b: nat)
    requires i <= b < |s| && (s[b] == '{' || s[b] == '}') && forall j :: i <= j < b ==> s[j] != '['
    ensures ToBracket(s, i) == None
    decreases b - i
  {
    if i < b { ToBracketBlocked(s, i + 1, b); }
  }

  lemma {:induction false} SkipSpaceTo(s: string, i: nat, b: nat)
    requires i <= b <= |s| && (b < |s| ==> !IsSpace(s[b])) && forall j :: i <= j < b ==> IsSpace(s[j])
    ensures SkipSpace(s, i) == b
    decreases b - i
  {
    if i < b { SkipSpaceTo(s, i + 1, b); }
  }

  // ---- which object is cut out ----

  lemma {:induction false} SkipSpaceStops(s: string, i: nat)
    requires i <= |s|
    ensures forall j :: i <= j < SkipSpace(s, i) ==> IsSpace(s[j])
    decreases |s| - i
  {
    if i < |s| && IsSpace(s[i]) { SkipSpaceStops(s, i + 1); }
  }

  /** Spaces lead from two brackets to the same place only if they are the same bracket. */
  lemma SameBracket(s: string, b: nat, c: nat)
    requires b < |s| && c < |s| && s[b] == '[' && s[c] == '['
    requires SkipSpace(s, b + 1) == SkipSpace(s, c + 1)
    ensures b == c
  {
    SkipSpaceStops(s, b + 1);
    SkipSpaceStops(s, c + 1);
  }

  /** Of a configuration whose first text "hosts" stands at k, the first element of the array
      at b is found exactly when neither bracket nor brace stands between the two. */
  lemma LocateIff(json: string, k: nat, b: nat)
    requires Find(json, 0, KEY) == Some(k) && k + |KEY| <= b < |json| && json[b] == '['
    requires var start := SkipSpace(json, b + 1); start < |json| && json[start] == '{'
    ensures Locate(json) == Some(SkipSpace(json, b + 1)) <==> Clear(json, k + |KEY|, b)
  {
    hide Find, Clear;
    ToBracketIff(json, k + |KEY|, b);
    var hit := ToBracket(json, k + |KEY|);
    hide ToBracket;
    if hit.Some? && SkipSpace(json, hit.value + 1) == SkipSpace(json, b + 1) { SameBracket(json, hit.value, b); }
  }

  /** An array opens at b, and text is what follows the spaces ws. */
  predicate ElementAt(json: string, b: nat, ws: string, text: string) {
    && b < |json| && json[b] == '[' && At(json, b + 1, ws) && Space(ws)
    && At(json, b + 1 + |ws|, text) && text != [] && text[0] == '{'
  }

  lemma ElementStarts(json: string, b: nat, ws: string, text: string)
    requires ElementAt(json, b, ws, text)
    ensures var start := b + 1 + |ws|;
            json[b] == '[' && SkipSpace(json, b + 1) == start < |json| && json[start] == '{'
  {
    var start := b + 1 + |ws|;
    forall j | b + 1 <= j < start ensures IsSpace(json[j]) {
      assert json[j] == json[b + 1..start][j - b - 1] && ws[j - b - 1] in ws;
    }
    assert json[start] == json[start..start + |text|][0];
    SkipSpaceTo(json, b + 1, start);
  }

  lemma Cut(json: string, b: nat, ws: string, text: string)
    requires ElementAt(json, b, ws, text)
    ensures var start := b + 1 + |ws|;
            && start + |text| <= |json| && json[start..start + |text|] == text
            && json[start..] == text + json[start + |text|..]
  {
  }

  lemma ExtractIs(json: string, start: nat, text: string)
    requires Locate(json) == Some(start) && start + |text| <= |json| && json[start..start + |text|] == text
    requires Scan(json[start..], State(0, false, false)) == (|text|, true)
    ensures Extract(json) == Some(text)
  {
    hide Locate, Scan;
  }

  /** An array of hosts at b: its first element is cut out, verbatim and whatever its strings
      hold and whatever follows, exactly when neither bracket nor brace stands between the first
      text "hosts" and the array. */
  lemma FirstHostIff(json: string, k: nat, b: nat, ws: string, host: Value)
    requires Find(json, 0, KEY) == Some(k) && k + |KEY| <= b
    requires Good(host) && host.Object? && ElementAt(json, b, ws, Print(host))
    ensures Locate(json) == Some(b + 1 + |ws|) <==> Clear(json, k + |KEY|, b)
    ensures Clear(json, k + |KEY|, b) ==> Extract(json) == Some(Print(host))
  {
    hide *;
    var start, text := b + 1 + |ws|, Print(host);
    ElementStarts(json, b, ws, text);
    LocateIff(json, k, b);
    Cut(json, b, ws, text);
    ObjectScanned(host, json[start + |text|..]);
    if Clear(json, k + |KEY|, b) { ExtractIs(json, start, text); }
  }

  lemma Concatenated(head: string, ws: string, text: string, after: string)
    requires head != [] && head[|head| - 1] == '[' && Space(ws) && text != [] && text[0] == '{'
    ensures var json := head + ws + text + after;
            json[..|head|] == head && ElementAt(json, |head| - 1, ws, text)
  {
    hide Space;
  }

  lemma ObjectText(host: Value)
    requires host.Object?
    ensures Print(host) != [] && Print(host)[0] == '{'
  {
  }

  lemma ClearGap(before: string, gap: string)
    requires forall c :: c in gap ==> !Stops(c)
    ensures var head := before + KEY + gap + ['['];
            head[|head| - 1] == '[' && Clear(head, |before| + |KEY|, |head| - 1)
  {
    var head, k := before + KEY + gap + ['['], |before| + |KEY|;
    forall j | k <= j < |head| - 1 ensures !Stops(head[j]) { assert head[j] == gap[j - k] && gap[j - k] in gap; }
  }

  lemma ClearHead(head: string, json: string, i: nat)
    requires head != [] && |head| <= |json| && json[..|head|] == head
    requires Clear(head, i, |head| - 1)
    ensures Clear(json, i, |head| - 1)
  {
    forall j | i <= j < |head| - 1 ensures !Stops(json[j]) { assert json[j] == json[..|head|][j]; }
  }

  /** In particular where the first text "hosts" is the array's own key. */
  lemma FirstHostFound(before: string, gap: string, ws: string, host: Value, after: string)
    requires Good(host) && host.Object? && Space(ws)
    requires forall c :: c in gap ==> !Stops(c)
    requires var json := before + KEY + gap + ['['] + ws + Print(host) + after;
             Find(json, 0, KEY) == Some(|before|)
    ensures var json := before + KEY + gap + ['['] + ws + Print(host) + after;
            Locate(json) == Some(|before + KEY + gap + ['[']| + |ws|) && Extract(json) == Some(Print(host))
  {
    hide *;
    var head := before + KEY + gap + ['['];
    var json := head + ws + Print(host) + after;
    ClearGap(before, gap);
    ObjectText(host);
    Concatenated(head, ws, Print(host), after);
    ClearHead(head, json, |before| + |KEY|);
    FirstHostIff(json, |before|, |head| - 1, ws, host);
  }

  /** Where a brace stands first, nothing is found, whatever the configuration holds later. */
  lemma FirstHostHidden(before: string, gap: string, brace: char, after: string)
    requires brace == '{' || brace == '}'
    requires '[' !in gap && Find(before + KEY + gap + [brace] + after, 0, KEY) == Some(|before|)
    ensures Extract(before + KEY + gap + [brace] + after) == None
  {
    var json := before + KEY + gap + [brace] + after;
    var b := |before| + |KEY| + |gap|;
    forall j | |before| + |KEY| <= j < b ensures json[j] != '[' { assert json[j] == gap[j - |before| - |KEY|]; }
    assert json[b] == brace;
    hide Find;
    ToBracketBlocked(json, |before| + |KEY|, b);
  }

  // ---- inputs that fail ----

  lemma {:induction false} FindIs(s: string, i: nat, k: nat, key: string)
    requires i <= k <= |s| && At(s, k, key) && forall j :: i <= j < k ==> !At(s, j, key)
    ensures Find(s, i, key) == Some(k)
    decreases k - i
  {
    hide At;
    if i < k { FindIs(s, i + 1, k, key); }
  }

  /** Text without an h in front does not hold the key. */
  lemma KeyBehind(before: string, after: string)
    requires 'h' !in before
    ensures Find(before + KEY + after, 0, KEY) == Some(|before|)
  {
    var s := before + KEY + after;
    assert s[|before|..|before| + |KEY|] == KEY;
    forall j | 0 <= j < |before| ensures !At(s, j, KEY) {
      assert s[j + 1] == if j + 1 < |before| then before[j + 1] else '"';
      assert KEY[1] == 'h' && (j + |KEY| <= |s| ==> s[j..j + |KEY|][1] == s[j + 1]);
    }
    hide KEY;
    FindIs(s, 0, |before|, KEY);
  }

  /** A platform folder named hosts among the directory mappings, which precede the hosts in the
      file: whatever hosts follow, none is found. */
  lemma FolderNamedHosts(rest: string)
    ensures Extract("{\"directory_mappings\":{" + KEY + ":" + ['{'] + rest) == None
  {
    var before := "{\"directory_mappings\":{";
    assert before + KEY + ":" + ['{'] + rest == before + KEY + (":" + ['{'] + rest);
    KeyBehind(before, ":" + ['{'] + rest);
    hide Find, Extract;
    FirstHostHidden(before, ":", '{', rest);
  }

  /** An array of hosts inside an earlier member: its first element is cut out, whatever hosts
      follow. */
  lemma OlderHosts(host: Value, rest: string)
    requires Good(host) && host.Object?
    ensures Extract("{\"old\":{" + KEY + ":" + ['['] + "" + Print(host) + rest) == Some(Print(host))
  {
    var before := "{\"old\":{";
    var json := before + KEY + ":" + ['['] + "" + Print(host) + rest;
    assert json == before + KEY + (":" + ['['] + "" + Print(host) + rest);
    KeyBehind(before, ":" + ['['] + "" + Print(host) + rest);
    hide Find, Extract, Print;
    FirstHostFound(before, ":", "", host, rest);
  }
}
