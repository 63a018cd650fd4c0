/** minarch.cfg as text: Config_getValue of minarch.c searches for substrings, and the lines
    Config_write prints must survive that. */
module ConfigText {
  import opened Options
  import opened CStrings

  const SEPARATOR: string := " = "

  const VALUE_MAX: nat := 256

  // ---- reading ----

  /** Where the value of key starts: after the first "key = " the search meets. It goes on
      behind every occurrence of the key that no separator follows. */
  function Search(s: string, i: nat, key: string): (r: Option<nat>)
    requires key != [] && i <= |s|
    ensures r.Some? ==> i < r.value <= |s|
    decreases |s| - i
  {
    match Find(s, i, key)
    case None => None
    case Some(k) =>
      if At(s, k + |key|, SEPARATOR) then Some(k + |key| + 3) else Search(s, k + |key|, key)
  }

  /** A dash before any occurrence the search meets marks the option as locked. */
  predicate Locks(s: string, i: nat, key: string)
    requires key != [] && i <= |s|
    decreases |s| - i
  {
    match Find(s, i, key)
    case None => false
    case Some(k) =>
      (k > 0 && s[k - 1] == '-') || (!At(s, k + |key|, SEPARATOR) && Locks(s, k + |key|, key))
  }

  /** The first c and what follows it, cut off. */
  function CutAt(s: string, c: char): string {
    if s == [] || s[0] == c then [] else [s[0]] + CutAt(s[1..], c)
  }

  /** The copy into 256 bytes, ended at the line break. */
  function FirstLine(s: string): string {
    var v := if |s| < VALUE_MAX then s else s[..VALUE_MAX - 1];
    if '\n' in v then CutAt(v, '\n') else CutAt(v, '\r')
  }

  function GetValue(cfg: string, key: string): Option<string>
    requires key != []
  {
    match Search(cfg, 0, key)
    case None => None
    case Some(p) => Some(FirstLine(cfg[p..]))
  }

  /** One round of the search. */
  lemma SearchStep(s: string, i: nat, key: string)
    requires i <= |s| && key != []
    ensures match Find(s, i, key)
            case None => Search(s, i, key) == None && !Locks(s, i, key)
            case Some(k) =>
              var j, dash := k + |key|, k > 0 && s[k - 1] == '-';
              if At(s, j, SEPARATOR) then Search(s, i, key) == Some(j + 3) && (Locks(s, i, key) <==> dash)
              else Search(s, i, key) == Search(s, j, key) && (Locks(s, i, key) <==> dash || Locks(s, j, key))
  {
    hide Find;
  }

  /** The search loop. */
  method FindValue(cfg: string, key: string, lock: bool) returns (p: Option<nat>, locked: bool)
    requires key != []
    ensures p == Search(cfg, 0, key) && locked == (lock || Locks(cfg, 0, key))
  {
    hide Search, Locks, Find;
    locked := lock;
    var tmp := 0;
    while true
      invariant tmp <= |cfg|
      invariant Search(cfg, 0, key) == Search(cfg, tmp, key)
      invariant (lock || Locks(cfg, 0, key)) == (locked || Locks(cfg, tmp, key))
      decreases |cfg| - tmp
    {
      SearchStep(cfg, tmp, key);
      var hit := Find(cfg, tmp, key);
      if hit.None? { return None, locked; }
      tmp := hit.value;
      if tmp > 0 && cfg[tmp - 1] == '-' { locked := true; }
      tmp := tmp + |key|;
      if At(cfg, tmp, SEPARATOR) { return Some(tmp + 3), locked; }
    }
  }

  lemma NoNul(s: string, i: nat)
    requires i <= |s| && '\0' !in s
    ensures '\0' !in s[i..]
  {
  }

  method Strncpy(text: string, out: array<char>) returns (n: nat)
    requires out.Length == VALUE_MAX
    modifies out
    ensures n == if |text| < VALUE_MAX then |text| else VALUE_MAX - 1
    ensures out[..n] == text[..n] && out[n] == '\0'
  {
    for i := 0 to VALUE_MAX
      invariant forall j :: 0 <= j < i ==> out[j] == if j < |text| then text[j] else '\0'
    {
      out[i] := if i < |text| then text[i] else '\0';
    }
    out[VALUE_MAX - 1] := '\0';
    n := if |text| < VALUE_MAX then |text| else VALUE_MAX - 1;
  }

  lemma FirstLineIs(text: string)
    ensures var v := text[..if |text| < VALUE_MAX then |text| else VALUE_MAX - 1];
            FirstLine(text) == CutAt(v, if '\n' in v then '\n' else '\r')
  {
    if |text| < VALUE_MAX { assert text[..|text|] == text; }
  }

  lemma {:induction false} CutIs(s: string, c: char)
    ensures |CutAt(s, c)| <= |s| && CutAt(s, c) == s[..|CutAt(s, c)|] && c !in CutAt(s, c)
    ensures if c in s then |CutAt(s, c)| < |s| && s[|CutAt(s, c)|] == c else CutAt(s, c) == s
  {
    if s != [] && s[0] != c { CutIs(s[1..], c); }
  }

  /** The copy is the longest front of the text that ends before a line break and fits the
      buffer; only where no line feed stands in the buffer does a carriage return end it. */
  lemma FirstLineStops(text: string)
    ensures var r, n := FirstLine(text), if |text| < 256 then |text| else 255;
            && |r| <= n && r == text[..|r|]
            && if '\n' in text[..n] then |r| < n && text[|r|] == '\n' && '\n' !in r
               else '\r' !in r && (|r| < n ==> text[|r|] == '\r')
  {
    FirstLineIs(text);
    var n := if |text| < 256 then |text| else 255;
    var v := text[..n];
    CutIs(v, '\n');
    CutIs(v, '\r');
    hide CutAt, FirstLine;
  }

  /** strncpy, the last byte, and the end of the line. */
  method CopyLine(text: string, out: array<char>)
    requires out.Length == VALUE_MAX && '\0' !in text
    modifies out
    ensures CString(out[..]) == FirstLine(text)
  {
    var n := Strncpy(text, out);
    var v := text[..n];
    var c := if '\n' in v then '\n' else '\r';
    CutIs(v, c);
    FirstLineIs(text);
    var end := |CutAt(v, c)|;
    hide CutAt, FirstLine;
    if c in v { out[end] := '\0'; }
    assert out[..][..end] == v[..end];
    CStringOf(v[..end], out[..]);
  }

  /** Config_getValue. cfg has no NUL; out is the caller's 256-byte buffer. An empty key would
      match where it stands for ever. */
  method ConfigGetValue(cfg: string, key: string, out: array<char>, lock: bool) returns (found: bool, locked: bool)
    requires key != [] && '\0' !in cfg && out.Length == VALUE_MAX
    modifies out
    ensures locked == (lock || Locks(cfg, 0, key))
    ensures found <==> GetValue(cfg, key).Some?
    ensures found ==> CString(out[..]) == GetValue(cfg, key).value
    ensures !found ==> out[..] == old(out[..])
  {
    var p;
    p, locked := FindValue(cfg, key, lock);
    if p.None? { return false, locked; }
    NoNul(cfg, p.value);
    hide FirstLine;
    CopyLine(cfg[p.value..], out);
    found := true;
  }

  // ---- writing ----

  function Line(key: string, value: string): string { key + (SEPARATOR + (value + ['\n'])) }

  function Text(entries: seq<(string, string)>): string {
    if entries == [] then [] else Line(entries[0].0, entries[0].1) + Text(entries[1..])
  }

  // ---- what makes a file readable again ----

  predicate GoodKey(key: string) {
    key != [] && key[0] != ' ' && '=' !in key && '\n' !in key
  }

  /** What a line must hold to be read back whole. */
  predicate GoodValue(value: string) {
    '\n' !in value && |value| < VALUE_MAX && (|value| == VALUE_MAX - 1 ==> '\r' !in value)
  }

  /** A line that gives a reader of key a value, its own or not. */
  predicate Answers(k: string, v: string, key: string)
    requires key != []
  {
    Search(Line(k, v), 0, key).Some?
  }

  predicate Unanswered(entries: seq<(string, string)>, key: string) {
    key != [] && forall j :: 0 <= j < |entries| ==> !Answers(entries[j].0, entries[j].1, key)
  }

  /** Lines that can be read, with no line answering for the key of a later one. */
  ghost predicate Unambiguous(entries: seq<(string, string)>) {
    && (forall i :: 0 <= i < |entries| ==> GoodKey(entries[i].0) && GoodValue(entries[i].1))
    && (forall i :: 0 <= i < |entries| ==> Unanswered(entries[..i], entries[i].0))
  }

  // ---- reading what was written ----

  /** The cut is at the first c. */
  lemma {:induction false} CutFirst(s: string, c: char, k: nat)
    requires k < |s| && s[k] == c
    ensures |CutAt(s, c)| <= k && (|CutAt(s, c)| == k <==> c !in s[..k])
  {
    if k > 0 {
      if s[0] == c {
        assert s[..k][0] == c;
      } else {
        CutFirst(s[1..], c, k - 1);
        assert s[1..][..k - 1] == s[1..k];
        assert s[..k] == [s[0]] + s[1..k];
      }
    }
  }

  /** A written value comes back exactly when it has no line break and is not too long. */
  lemma LineReadsBackIff(value: string, rest: string)
    ensures FirstLine(value + (['\n'] + rest)) == value <==> GoodValue(value)
  {
    var s := value + (['\n'] + rest);
    FirstLineIs(s);
    var n := if |s| < VALUE_MAX then |s| else VALUE_MAX - 1;
    var v := s[..n];
    CutIs(v, '\n');
    CutIs(v, '\r');
    if |value| < n {
      assert v[|value|] == '\n';
      CutFirst(v, '\n', |value|);
      assert v[..|value|] == value;
    } else {
      assert v == value[..n];
    }
  }

  // ---- searching one text after another ----

  lemma SameFind(s: string, i: nat, j: nat, key: string)
    requires key != [] && i <= |s| && j <= |s| && Find(s, i, key) == Find(s, j, key)
    ensures Search(s, i, key) == Search(s, j, key)
  {
    hide Search, Find, At;
    SearchStep(s, i, key);
    SearchStep(s, j, key);
  }

  lemma NoChar(s: string, k: nat, key: string, c: char)
    requires At(s, k, key) && c !in key
    ensures forall q :: k <= q < k + |key| ==> s[q] != c
  {
    forall q | k <= q < k + |key| ensures s[q] != c {
      assert s[k..k + |key|][q - k] == s[q] && key[q - k] in key;
    }
  }

  /** p ends a line, or is empty. */
  predicate EndsLine(p: string) { p == [] || p[|p| - 1] == '\n' }

  /** What has no line break does not reach past the end of a line. */
  lemma AtInPrefix(p: string, q: string, i: nat, word: string)
    requires EndsLine(p) && i < |p| && '\n' !in word && word != []
    ensures At(p + q, i, word) <==> At(p, i, word)
  {
    if At(p + q, i, word) {
      NoChar(p + q, i, word, '\n');
      assert (p + q)[|p| - 1] == '\n';
    }
    if i + |word| <= |p| { assert (p + q)[i..i + |word|] == p[i..i + |word|]; }
  }

  lemma NotAtEnd(p: string, word: string)
    requires word != []
    ensures !At(p, |p|, word)
  {
  }

  lemma {:induction false} FindInPrefix(p: string, q: string, i: nat, key: string)
    requires i <= |p| && EndsLine(p) && '\n' !in key && key != []
    ensures Find(p + q, i, key) == if Find(p, i, key).Some? then Find(p, i, key) else Find(p + q, |p|, key)
    decreases |p| - i
  {
    hide At, EndsLine;
    if i < |p| {
      AtInPrefix(p, q, i, key);
      FindInPrefix(p, q, i + 1, key);
    } else {
      NotAtEnd(p, key);
    }
  }

  lemma HitEnds(p: string, k: nat, key: string)
    requires EndsLine(p) && At(p, k, key) && '\n' !in key && key != []
    ensures k + |key| < |p|
  {
    NoChar(p, k, key, '\n');
  }

  /** The search answers from the first text if it can, and otherwise starts afresh behind it. */
  lemma {:induction false} SearchInPrefix(p: string, q: string, i: nat, key: string)
    requires i <= |p| && EndsLine(p) && GoodKey(key)
    ensures key != []
    ensures Search(p + q, i, key) == if Search(p, i, key).Some? then Search(p, i, key) else Search(p + q, |p|, key)
    decreases |p| - i
  {
    hide Search, Find, At, Locks;
    FindInPrefix(p, q, i, key);
    SearchStep(p, i, key);
    SearchStep(p + q, i, key);
    var hit := Find(p, i, key);
    if hit.Some? {
      var j := hit.value + |key|;
      HitEnds(p, hit.value, key);
      AtInPrefix(p, q, j, SEPARATOR);
      if !At(p, j, SEPARATOR) { SearchInPrefix(p, q, j, key); }
    } else {
      SameFind(p + q, i, |p|, key);
    }
  }

  function Shift(r: Option<nat>, n: nat): Option<nat> {
    if r.None? then None else Some(r.value + n)
  }

  lemma AtBound(s: string, i: nat, word: string)
    requires At(s, i, word)
    ensures i + |word| <= |s|
  {
  }

  lemma AtBehind(p: string, q: string, i: nat, word: string)
    requires i <= |q|
    ensures At(p + q, |p| + i, word) <==> At(q, i, word)
  {
    if i + |word| <= |q| { assert (p + q)[|p| + i..|p| + i + |word|] == q[i..i + |word|]; }
  }

  lemma {:induction false} FindBehind(p: string, q: string, i: nat, key: string)
    requires i <= |q|
    ensures Find(p + q, |p| + i, key) == Shift(Find(q, i, key), |p|)
    decreases |q| - i
  {
    hide At;
    AtBehind(p, q, i, key);
    if i < |q| { FindBehind(p, q, i + 1, key); }
  }

  lemma {:induction false} SearchBehind(p: string, q: string, i: nat, key: string)
    requires i <= |q| && key != []
    ensures Search(p + q, |p| + i, key) == Shift(Search(q, i, key), |p|)
    decreases |q| - i
  {
    hide Search, Find, At, Locks;
    FindBehind(p, q, i, key);
    SearchStep(p + q, |p| + i, key);
    SearchStep(q, i, key);
    var hit := Find(q, i, key);
    if hit.Some? {
      var j := hit.value + |key|;
      AtBound(q, hit.value, key);
      AtBehind(p, q, j, SEPARATOR);
      if !At(q, j, SEPARATOR) { SearchBehind(p, q, j, key); }
    }
  }

  lemma NotEmpty(key: string)
    requires GoodKey(key)
    ensures key != [] && '\n' !in key
  {
  }

  /** Two texts answer for a key exactly when one of them does. */
  lemma BothAnswerIff(p: string, q: string, key: string)
    requires EndsLine(p) && GoodKey(key)
    ensures key != []
    ensures Search(p + q, 0, key) == None <==> Search(p, 0, key) == None && Search(q, 0, key) == None
  {
    hide Search, GoodKey;
    NotEmpty(key);
    SearchInPrefix(p, q, 0, key);
    SearchBehind(p, q, 0, key);
  }

  lemma LineEnds(k: string, v: string)
    ensures Line(k, v) != [] && EndsLine(Line(k, v))
  {
  }

  lemma EndsAfter(p: string, q: string)
    requires EndsLine(p) && EndsLine(q)
    ensures EndsLine(p + q)
  {
    if q == [] { assert p + q == p; }
  }

  lemma NoLine()
    ensures EndsLine([])
  {
  }

  lemma {:induction false} TextEnds(entries: seq<(string, string)>)
    ensures EndsLine(Text(entries))
  {
    hide EndsLine, Line;
    if entries == [] {
      assert EndsLine([]) by { NoLine(); }
    } else {
      LineEnds(entries[0].0, entries[0].1);
      TextEnds(entries[1..]);
      EndsAfter(Line(entries[0].0, entries[0].1), Text(entries[1..]));
    }
  }

  lemma NothingFound(key: string)
    requires key != []
    ensures Search([], 0, key) == None
  {
    assert Find([], 0, key) == None;
  }

  lemma NoneToAsk(key: string)
    requires key != []
    ensures Unanswered([], key)
  {
  }

  lemma OneOrTheRest(entries: seq<(string, string)>, key: string)
    requires entries != [] && key != []
    ensures Unanswered(entries, key)
            <==> Search(Line(entries[0].0, entries[0].1), 0, key) == None && Unanswered(entries[1..], key)
  {
    hide Search, Line;
    forall j | 0 < j < |entries| ensures entries[j] == entries[1..][j - 1] {}
    if Unanswered(entries, key) {
      forall j | 0 <= j < |entries[1..]| ensures !Answers(entries[1..][j].0, entries[1..][j].1, key) {
        assert entries[1..][j] == entries[j + 1];
      }
    }
  }

  /** A file answers for a key exactly when one of its lines does. */
  lemma {:induction false} TextAnswersIff(entries: seq<(string, string)>, key: string)
    requires GoodKey(key)
    ensures key != []
    ensures Search(Text(entries), 0, key) == None <==> Unanswered(entries, key)
  {
    hide Search, GoodKey, Line, Unanswered, EndsLine;
    NotEmpty(key);
    if entries == [] {
      NothingFound(key);
      NoneToAsk(key);
    } else {
      TextAnswersIff(entries[1..], key);
      LineEnds(entries[0].0, entries[0].1);
      BothAnswerIff(Line(entries[0].0, entries[0].1), Text(entries[1..]), key);
      OneOrTheRest(entries, key);
    }
  }

  // ---- which lines answer ----

  predicate Suffix(a: string, b: string) { |a| <= |b| && b[|b| - |a|..] == a }

  predicate Embeds(s: string, key: string) {
    exists i :: 0 <= i <= |s| && At(s, i, key + SEPARATOR)
  }

  /** A key no two occurrences of which overlap. */
  predicate Borderless(key: string) {
    forall n :: 0 < n < |key| ==> key[n..] != key[..|key| - n]
  }

  lemma AtAppend(s: string, i: nat, a: string, b: string)
    ensures At(s, i, a + b) <==> At(s, i, a) && At(s, i + |a|, b)
  {
    if i + |a| + |b| <= |s| {
      var w := s[i..i + |a| + |b|];
      assert w[..|a|] == s[i..i + |a|] && w[|a|..] == s[i + |a|..i + |a| + |b|];
      assert w == w[..|a|] + w[|a|..];
      assert (a + b)[..|a|] == a && (a + b)[|a|..] == b;
    }
  }

  /** Not before the end of the line's own key. */
  lemma HitNotBefore(k: string, v: string, key: string, i: nat)
    requires GoodKey(k) && At(Line(k, v), i, key + SEPARATOR)
    ensures i + |key| >= |k|
  {
    var line := Line(k, v);
    AtAppend(line, i, key, SEPARATOR);
    assert line[i + |key|..i + |key| + 3][1] == '=';
    assert forall j :: 0 <= j < |k| ==> line[j] == k[j];
    assert line[|k|] == ' ';
  }

  lemma LineChars(k: string, v: string)
    ensures var line := Line(k, v);
            && |line| > |k| + 3 && line[..|k|] == k
            && line[|k|] == ' ' && line[|k| + 1] == '=' && line[|k| + 2] == ' '
  {
  }

  lemma HitInValue(k: string, v: string, i: nat, target: string)
    requires At(Line(k, v), i, target) && i >= |k| + 3 && target != [] && target[|target| - 1] != '\n'
    ensures At(v, i - |k| - 3, target)
  {
    var line, j := Line(k, v), i - |k| - 3;
    var tail := v + ['\n'];
    assert line[|k| + 3..] == tail;
    assert tail[j..j + |target|] == line[i..i + |target|];
    assert tail[j..j + |target|][|target| - 1] != '\n';
    assert v[j..j + |target|] == tail[j..j + |target|];
  }

  /** A line holds "key = " only behind the end of its own key or inside its value. */
  lemma HitInLine(k: string, v: string, key: string, i: nat)
    requires GoodKey(key) && GoodKey(k) && '\n' !in v && At(Line(k, v), i, key + SEPARATOR)
    ensures Suffix(key, k) || Embeds(v, key)
  {
    var line := Line(k, v);
    HitNotBefore(k, v, key, i);
    AtAppend(line, i, key, SEPARATOR);
    NoChar(line, i, key, '=');
    LineChars(k, v);
    hide Line;
    assert line[i] == line[i..i + |key|][0] && line[i + |key|] == line[i + |key|..i + |key| + 3][0];
    if i + |key| == |k| {
      assert line[..|k|][i..] == line[i..|k|];
    } else {
      HitInValue(k, v, i, key + SEPARATOR);
    }
  }

  /** An answer stands behind the key and a separator. */
  lemma {:induction false} AnswerHolds(s: string, i: nat, key: string)
    requires key != [] && i <= |s| && Search(s, i, key).Some?
    ensures var p := Search(s, i, key).value - 3 - |key|; p >= i && At(s, p, key + SEPARATOR)
    decreases |s| - i
  {
    hide Search, Find, At, Locks;
    SearchStep(s, i, key);
    var k := Find(s, i, key).value;
    if At(s, k + |key|, SEPARATOR) {
      AtAppend(s, k, key, SEPARATOR);
    } else {
      AnswerHolds(s, k + |key|, key);
    }
  }

  lemma Overlapping(s: string, k: nat, j: nat, key: string)
    requires At(s, k, key) && At(s, j, key) && k < j < k + |key|
    ensures !Borderless(key)
  {
    var n := j - k;
    assert key[n..] == s[j..k + |key|] == key[..|key| - n];
  }

  /** The search misses no answer unless it skips over the front of one. */
  lemma {:induction false} AnswerFound(s: string, i: nat, j: nat, key: string)
    requires key != [] && Borderless(key) && i <= j <= |s| && At(s, j, key + SEPARATOR)
    ensures Search(s, i, key).Some? && Search(s, i, key).value <= j + |key| + 3
    decreases |s| - i
  {
    hide Search, Find, At, Locks, Borderless;
    AtAppend(s, j, key, SEPARATOR);
    FindFirst(s, i, key);
    SearchStep(s, i, key);
    var k := Find(s, i, key).value;
    if k < j {
      if j < k + |key| { Overlapping(s, k, j, key); }
      if !At(s, k + |key|, SEPARATOR) { AnswerFound(s, k + |key|, j, key); }
    }
  }

  lemma SuffixInLine(k: string, v: string, key: string)
    requires Suffix(key, k)
    ensures At(Line(k, v), |k| - |key|, key + SEPARATOR)
  {
    var line, i := Line(k, v), |k| - |key|;
    assert line[i..|k|] == k[i..] == key;
    assert line[|k|..|k| + 3] == SEPARATOR;
    AtAppend(line, i, key, SEPARATOR);
  }

  lemma ValueInLine(k: string, v: string, i: nat, word: string)
    requires i <= |v| && At(v, i, word)
    ensures |k| + 3 + i <= |Line(k, v)| && At(Line(k, v), |k| + 3 + i, word)
  {
    var head := k + SEPARATOR;
    assert Line(k, v) == head + (v + ['\n']);
    assert (v + ['\n'])[i..i + |word|] == v[i..i + |word|];
    AtBehind(head, v + ['\n'], i, word);
  }

  /** A line answers only for keys its own key ends with or its value embeds, and for all of
      them that cannot overlap themselves. */
  lemma AnswersIff(k: string, v: string, key: string)
    requires GoodKey(key) && GoodKey(k) && '\n' !in v
    ensures key != []
    ensures Answers(k, v, key) ==> Suffix(key, k) || Embeds(v, key)
    ensures Borderless(key) ==> (Answers(k, v, key) <==> Suffix(key, k) || Embeds(v, key))
  {
    var line := Line(k, v);
    hide Search, Line, Borderless;
    if Answers(k, v, key) {
      AnswerHolds(line, 0, key);
      HitInLine(k, v, key, Search(line, 0, key).value - 3 - |key|);
    }
    if Borderless(key) && Suffix(key, k) {
      SuffixInLine(k, v, key);
      AnswerFound(line, 0, |k| - |key|, key);
    }
    if Borderless(key) && Embeds(v, key) {
      var i :| 0 <= i <= |v| && At(v, i, key + SEPARATOR);
      ValueInLine(k, v, i, key + SEPARATOR);
      AnswerFound(line, 0, |k| + 3 + i, key);
    }
  }

  // ---- reading what was written: the file ----

  lemma {:induction false} TextAppend(a: seq<(string, string)>, b: seq<(string, string)>)
    ensures Text(a + b) == Text(a) + Text(b)
  {
    if a == [] {
      assert a + b == b;
    } else {
      assert (a + b)[1..] == a[1..] + b;
      TextAppend(a[1..], b);
      hide Line;
    }
  }

  /** Entry i stands in the file at position k with after behind it. */
  predicate EntryAt(s: string, k: nat, key: string, value: string, after: string) {
    && k <= |s| && At(s, k, key) && At(s, k + |key|, SEPARATOR)
    && s[k + |key| + 3..] == value + (['\n'] + after)
  }

  lemma OwnSlices(before: string, key: string, value: string, after: string)
    ensures EntryAt(before + (Line(key, value) + after), |before|, key, value, after)
    ensures (before + (Line(key, value) + after))[..|before|] == before
  {
    var line := Line(key, value);
    var s, k := before + (line + after), |before|;
    assert s[k..] == line + after;
    assert (line + after)[..|key|] == key;
    assert (line + after)[|key|..|key| + 3] == SEPARATOR;
    assert (line + after)[|key| + 3..] == value + (['\n'] + after);
    assert s[k..k + |key|] == s[k..][..|key|] && s[k + |key|..k + |key| + 3] == s[k..][|key|..|key| + 3];
    assert s[k + |key| + 3..] == s[k..][|key| + 3..];
  }

  lemma TextAround(entries: seq<(string, string)>, i: nat)
    requires i < |entries|
    ensures var s, before := Text(entries), Text(entries[..i]);
            EntryAt(s, |before|, entries[i].0, entries[i].1, Text(entries[i + 1..])) && s[..|before|] == before
  {
    var rest := [entries[i]] + entries[i + 1..];
    assert entries == entries[..i] + rest;
    TextAppend(entries[..i], rest);
    assert rest[1..] == entries[i + 1..];
    assert Text(rest) == Line(entries[i].0, entries[i].1) + Text(entries[i + 1..]);
    OwnSlices(Text(entries[..i]), entries[i].0, entries[i].1, Text(entries[i + 1..]));
    hide Text, Line, EntryAt;
  }

  lemma BoundAt(s: string, k: nat, key: string, value: string, after: string)
    requires EntryAt(s, k, key, value, after)
    ensures k <= |s|
  {
  }

  lemma InBounds(s: string, key: string)
    requires key != []
    ensures Search(s, 0, key).Some? ==> Search(s, 0, key).value <= |s|
  {
    hide *;
  }

  lemma OwnOrEarlier(s: string, n: nat, key: string)
    requires n <= |s| && GoodKey(key) && EndsLine(s[..n]) && key != []
    requires Search(s, n, key) == Some(n + |key| + 3)
    ensures Search(s, 0, key) == Some(n + |key| + 3) <==> Search(s[..n], 0, key) == None
  {
    hide *;
    assert s == s[..n] + s[n..];
    SearchInPrefix(s[..n], s[n..], 0, key);
    InBounds(s[..n], key);
  }

  lemma OwnHit(s: string, k: nat, key: string, value: string, after: string)
    requires GoodKey(key) && EntryAt(s, k, key, value, after)
    ensures key != [] && k + |key| + 3 <= |s| && Search(s, k, key) == Some(k + |key| + 3)
  {
    SearchStep(s, k, key);
    assert Find(s, k, key) == Some(k);
    hide Search, Find;
  }

  /** The reader finds an entry's own line exactly when no earlier line answers for its key. */
  lemma OwnLineIff(entries: seq<(string, string)>, i: nat)
    requires i < |entries| && GoodKey(entries[i].0)
    ensures entries[i].0 != []
    ensures Search(Text(entries), 0, entries[i].0) == Some(|Text(entries[..i])| + |entries[i].0| + 3)
            <==> Unanswered(entries[..i], entries[i].0)
  {
    hide *;
    var key, before, s := entries[i].0, Text(entries[..i]), Text(entries);
    TextAround(entries, i);
    TextAnswersIff(entries[..i], key);
    TextEnds(entries[..i]);
    BoundAt(s, |before|, key, entries[i].1, Text(entries[i + 1..]));
    OwnHit(s, |before|, key, entries[i].1, Text(entries[i + 1..]));
    OwnOrEarlier(s, |before|, key);
  }

  lemma UnambiguousAt(entries: seq<(string, string)>, i: nat)
    requires Unambiguous(entries) && i < |entries|
    ensures GoodKey(entries[i].0) && GoodValue(entries[i].1) && Unanswered(entries[..i], entries[i].0)
  {
    hide GoodKey, GoodValue, Unanswered;
  }

  lemma GetValueIs(s: string, key: string, p: nat)
    requires key != [] && p <= |s| && Search(s, 0, key) == Some(p)
    ensures GetValue(s, key) == Some(FirstLine(s[p..]))
  {
  }

  lemma OwnValue(s: string, k: nat, key: string, value: string, after: string)
    requires GoodValue(value) && EntryAt(s, k, key, value, after)
    ensures k + |key| + 3 <= |s| && FirstLine(s[k + |key| + 3..]) == value
  {
    hide FirstLine;
    LineReadsBackIff(value, after);
  }

  /** Every entry of an unambiguous file is read back. */
  lemma ReadBack(entries: seq<(string, string)>, i: nat)
    requires Unambiguous(entries) && i < |entries|
    ensures entries[i].0 != [] && GetValue(Text(entries), entries[i].0) == Some(entries[i].1)
  {
    hide *;
    var key, value := entries[i].0, entries[i].1;
    UnambiguousAt(entries, i);
    OwnLineIff(entries, i);
    TextAround(entries, i);
    var s, k := Text(entries), |Text(entries[..i])|;
    OwnValue(s, k, key, value, Text(entries[i + 1..]));
    GetValueIs(s, key, k + |key| + 3);
  }

  // ---- keys that end other keys ----

  lemma TwoLines(a: (string, string), b: (string, string))
    ensures Text([a, b]) == Line(a.0, a.1) + Text([b])
    ensures EntryAt(Line(a.0, a.1) + Text([b]), 0, a.0, a.1, Text([b]))
  {
    assert [a, b][1..] == [b];
    var s := Line(a.0, a.1) + Text([b]);
    OwnSlices([], a.0, a.1, Text([b]));
    assert [] + s == s;
    hide EntryAt, Line, Text;
  }

  lemma ShorterInLine(start: string, key: string, longer: string)
    ensures |start| <= |Line(start + key, longer)| && At(Line(start + key, longer), |start|, key + SEPARATOR)
  {
    assert (start + key)[|start|..] == key;
    SuffixInLine(start + key, longer, key);
    hide At;
  }

  /** The line of a longer key answers for the key it ends with. */
  lemma LineAnswersShorter(start: string, key: string, longer: string)
    requires key != [] && GoodKey(start + key) && Borderless(key)
    ensures Search(Line(start + key, longer), 0, key) == Some(|start| + |key| + 3)
  {
    hide *;
    var line, k := Line(start + key, longer), |start|;
    ShorterInLine(start, key, longer);
    AnswerFound(line, 0, k, key);
    AnswerHolds(line, 0, key);
    HitNotBefore(start + key, longer, key, Search(line, 0, key).value - 3 - |key|);
  }

  lemma ShadowedBy(start: string, key: string, longer: string, own: string)
    requires key != [] && GoodKey(key) && GoodKey(start + key) && GoodValue(longer) && Borderless(key)
    ensures GetValue(Text([(start + key, longer), (key, own)]), key) == Some(longer)
  {
    hide *;
    var line, rest := Line(start + key, longer), Text([(key, own)]);
    TwoLines((start + key, longer), (key, own));
    LineEnds(start + key, longer);
    LineAnswersShorter(start, key, longer);
    SearchInPrefix(line, rest, 0, key);
    OwnValue(line + rest, 0, start + key, longer, rest);
    GetValueIs(line + rest, key, |start| + |key| + 3);
  }

  lemma LongerBehind(start: string, key: string, longer: string, own: string)
    requires start != [] && key != [] && GoodKey(key) && GoodKey(start + key) && GoodValue(longer) && GoodValue(own)
    requires !Embeds(own, start + key)
    ensures Unambiguous([(key, own), (start + key, longer)])
  {
    var entries := [(key, own), (start + key, longer)];
    AnswersIff(key, own, start + key);
    assert entries[..0] == [] && entries[..1] == [(key, own)];
  }

  /** A key that a longer key ends with gets the longer key's value where that line stands
      first, and its own where it does. */
  lemma SuffixShadows(start: string, key: string, longer: string, own: string)
    requires start != [] && GoodKey(key) && GoodKey(start + key) && GoodValue(longer) && GoodValue(own)
    requires Borderless(key) && !Embeds(own, start + key)
    ensures key != [] && GetValue(Text([(start + key, longer), (key, own)]), key) == Some(longer)
    ensures Unambiguous([(key, own), (start + key, longer)])
  {
    hide Search, Line, Borderless, GetValue, GoodKey, GoodValue, Embeds, Answers;
    NotEmpty(key);
    ShadowedBy(start, key, longer, own);
    LongerBehind(start, key, longer, own);
  }

  // ---- locks ----

  /** A dash stands before the occurrence of key at k, which is no later than the one that gives
      the value. */
  predicate Dashed(s: string, key: string, k: nat)
    requires key != []
  {
    && 0 < k && At(s, k, key) && s[k - 1] == '-'
    && match Search(s, 0, key)
       case None => true
       case Some(p) => k + |key| + 3 <= p
  }

  lemma DashedIs(s: string, key: string, k: nat)
    requires key != [] && At(s, k, key)
    ensures k + |key| <= |s|
    ensures Search(s, 0, key).Some? ==> Search(s, 0, key).value <= |s|
    ensures Dashed(s, key, k) <==>
            k > 0 && s[k - 1] == '-' && (Search(s, 0, key).None? || k + |key| + 3 <= Search(s, 0, key).value)
  {
    hide Search;
  }

  lemma NextHit(s: string, i: nat, k: nat, key: string)
    requires key != [] && i <= |s| && Find(s, i, key) == Some(k) && Search(s, i, key) == Search(s, 0, key)
    ensures k + |key| <= |s| && At(s, k, key)
    ensures Dashed(s, key, k) <==> k > 0 && s[k - 1] == '-'
    ensures !At(s, k + |key|, SEPARATOR) ==> Search(s, k + |key|, key) == Search(s, 0, key)
  {
    hide *;
    SearchStep(s, i, key);
    DashedIs(s, key, k);
    if !At(s, k + |key|, SEPARATOR) && Search(s, k + |key|, key).Some? { AnswerHolds(s, k + |key|, key); }
  }

  lemma OnlyHit(s: string, i: nat, k0: nat, key: string)
    requires key != [] && Borderless(key) && i <= |s| && Find(s, i, key) == Some(k0)
    ensures forall k: nat :: i <= k < k0 + |key| && Dashed(s, key, k) ==> k == k0
  {
    hide Search, Find, At, Borderless;
    FindFirst(s, i, key);
    forall k: nat | i <= k < k0 + |key| && Dashed(s, key, k) ensures k == k0 {
      if k > k0 { Overlapping(s, k0, k, key); }
    }
  }

  lemma NoHit(s: string, i: nat, key: string)
    requires key != [] && i <= |s| && Find(s, i, key) == None
    ensures forall k: nat :: i <= k ==> !Dashed(s, key, k)
  {
    hide Search, Find;
    FindFirst(s, i, key);
  }

  lemma LastHit(s: string, i: nat, k0: nat, key: string)
    requires key != [] && i <= |s| && Find(s, i, key) == Some(k0) && At(s, k0 + |key|, SEPARATOR)
    requires Search(s, i, key) == Search(s, 0, key)
    ensures forall k: nat :: k > k0 ==> !Dashed(s, key, k)
  {
    SearchStep(s, i, key);
    hide Search, Find, At, Locks;
  }

  ghost predicate DashedFrom(s: string, key: string, i: nat)
    requires key != []
  {
    exists k: nat :: i <= k && Dashed(s, key, k)
  }

  lemma NoneFrom(s: string, key: string, i: nat)
    requires key != [] && forall k: nat :: i <= k ==> !Dashed(s, key, k)
    ensures !DashedFrom(s, key, i)
  {
    hide Dashed;
  }

  lemma OneFrom(s: string, key: string, i: nat, k0: nat, j: nat)
    requires key != [] && i <= k0 < j && forall k: nat :: i <= k < j && Dashed(s, key, k) ==> k == k0
    ensures DashedFrom(s, key, i) <==> Dashed(s, key, k0) || DashedFrom(s, key, j)
  {
    hide Dashed;
    if k: nat :| i <= k && Dashed(s, key, k) {
      assert k == k0 || j <= k;
    }
  }

  /** From i on, where the search up to there has met nothing that answers. */
  lemma {:induction false} LocksFrom(s: string, i: nat, key: string)
    requires key != [] && i <= |s| && Borderless(key) && Search(s, i, key) == Search(s, 0, key)
    ensures Locks(s, i, key) <==> DashedFrom(s, key, i)
    decreases |s| - i
  {
    hide *;
    SearchStep(s, i, key);
    var hit := Find(s, i, key);
    if hit.None? {
      NoHit(s, i, key);
      NoneFrom(s, key, i);
    } else {
      var k0, j := hit.value, hit.value + |key|;
      NextHit(s, i, k0, key);
      OnlyHit(s, i, k0, key);
      OneFrom(s, key, i, k0, j);
      if At(s, j, SEPARATOR) {
        LastHit(s, i, k0, key);
        NoneFrom(s, key, j);
      } else {
        LocksFrom(s, j, key);
      }
    }
  }

  /** An option is locked exactly when a dash stands before its key, in the line that answers or
      anywhere before it (for a key two occurrences of which cannot overlap). */
  lemma LocksIff(s: string, key: string)
    requires key != [] && Borderless(key)
    ensures Locks(s, 0, key) <==> exists k: nat :: Dashed(s, key, k)
  {
    hide Locks, Dashed, Borderless, Search;
    LocksFrom(s, 0, key);
  }
}
