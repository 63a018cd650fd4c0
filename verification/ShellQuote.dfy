/** Launch commands of minui.c: every field is single-quoted, and the POSIX shell reads the
    command back as exactly those fields. */
module ShellQuote {
  import opened Options
  import opened CStrings
  import opened PosixShell
  import opened Seqs

  // ---- escapeSingleQuotes ----

  /** A quote becomes '\'': close, a quoted quote, open again. */
  function Piece(c: char): string {
    if c == '\'' then ['\'', '\\', '\'', '\''] else [c]
  }

  function Escape(s: string): string {
    if s == [] then [] else Piece(s[0]) + Escape(s[1..])
  }

  lemma EscapeStep(s: string)
    requires s != []
    ensures Escape(s) == Piece(s[0]) + Escape(s[1..])
  {
  }

  /** One more character escaped. */
  lemma EscapeNext(done: string, rest: string, all: string)
    requires rest != [] && done + Escape(rest) == all
    ensures done + Piece(rest[0]) + Escape(rest[1..]) == all && |done| + |Piece(rest[0])| <= |all|
  {
    EscapeStep(rest);
    hide Escape, Piece;
  }

  lemma EscapeOver(done: string, rest: string, all: string)
    requires rest == [] && done + Escape(rest) == all
    ensures done == all
  {
  }

  /** Fails exactly when the escaped text and its NUL do not fit, and then leaves an empty
      string; the source is not touched. */
  method EscapeSingleQuotes(dst: array<char>, src: string) returns (ok: bool)
    modifies dst
    ensures ok <==> |Escape(src)| + 1 <= dst.Length
    ensures ok ==> dst[..|Escape(src)|] == Escape(src) && dst[|Escape(src)|] == '\0'
    ensures !ok && dst.Length > 0 ==> dst[0] == '\0'
  {
    if dst.Length == 0 { return false; }
    var di := 0;
    ghost var done, rest, all := "", src, Escape(src);
    assert done + Escape(rest) == all;
    hide Escape;
    for s := 0 to |src|
      invariant di == |done| < dst.Length && rest == src[s..] && done + Escape(rest) == all
      invariant forall k :: 0 <= k < di ==> dst[k] == done[k]
    {
      EscapeNext(done, rest, all);
      done, rest := done + Piece(src[s]), rest[1..];
      if src[s] == '\'' {
        if di + 4 >= dst.Length { dst[0] := '\0'; return false; }
        dst[di], dst[di + 1], dst[di + 2], dst[di + 3] := '\'', '\\', '\'', '\'';
        di := di + 4;
      } else {
        if di + 1 >= dst.Length { dst[0] := '\0'; return false; }
        dst[di] := src[s];
        di := di + 1;
      }
    }
    EscapeOver(done, rest, all);
    dst[di] := '\0';
    ok := true;
  }

  // ---- the commands ----

  const TAG: string := "LODOR_ROM_TAG"

  const CORE: string := "LODOR_CORE_OVERRIDE"

  function InQuotes(q: string): string { ['\''] + q + ['\''] }

  function Quoted(s: string): string { InQuotes(Escape(s)) }

  function Assignment(name: string, value: string): string { name + ['='] + Quoted(value) }

  /** The two formats; the core assignment is there when a core is named. */
  function Format(tagQ: string, coreQ: Option<string>, pakQ: string, romQ: string): string {
    var words := InQuotes(pakQ) + [' '] + InQuotes(romQ);
    var rest := if coreQ == None then words else CORE + ['='] + InQuotes(coreQ.value) + ([' '] + words);
    TAG + ['='] + InQuotes(tagQ) + ([' '] + rest)
  }

  /** The text that goes to /tmp/next. */
  function CommandText(tag: string, core: string, pak: string, rom: string): string {
    Format(Escape(tag), if core == [] then None else Some(Escape(core)), Escape(pak), Escape(rom))
  }

  lemma {:induction false} EscapeKeepsNulOut(s: string)
    requires '\0' !in s
    ensures '\0' !in Escape(s)
  {
    if s != [] { EscapeKeepsNulOut(s[1..]); }
  }

  /** One field: escaped into its own buffer, or refused. */
  method EscapeField(field: string) returns (q: Option<string>)
    requires '\0' !in field
    ensures q == if |Escape(field)| < 1024 then Some(Escape(field)) else None
  {
    var buffer := new char[1024](_ => '\0');
    var ok := EscapeSingleQuotes(buffer, field);
    if !ok { return None; }
    EscapeKeepsNulOut(field);
    CStringOf(Escape(field), buffer[..]);
    q := Some(CString(buffer[..]));
  }

  lemma FormatLonger(tagQ: string, coreQ: string, pakQ: string, romQ: string)
    ensures |Format(tagQ, None, pakQ, romQ)| > |tagQ|
    ensures |Format(tagQ, None, pakQ, romQ)| > |pakQ| && |Format(tagQ, None, pakQ, romQ)| > |romQ|
    ensures |Format(tagQ, Some(coreQ), pakQ, romQ)| > |Format(tagQ, None, pakQ, romQ)|
    ensures |Format(tagQ, Some(coreQ), pakQ, romQ)| > |coreQ|
  {
  }

  /** The command building of openRom and autoResume: refused exactly when the command does not
      fit its 1024 bytes. */
  method LaunchCommand(tag: string, core: string, pak: string, rom: string) returns (cmd: Option<string>)
    requires '\0' !in tag && '\0' !in core && '\0' !in pak && '\0' !in rom
    ensures var text := CommandText(tag, core, pak, rom);
            cmd == if |text| < 1024 then Some(text) else None
  {
    var tagQ := EscapeField(tag);
    var pakQ := EscapeField(pak);
    var romQ := EscapeField(rom);
    hide Escape, Format;
    if tagQ == None || pakQ == None || romQ == None {
      FormatLonger(Escape(tag), Escape(core), Escape(pak), Escape(rom));
      return None;
    }
    var coreQ: Option<string> := None;
    if core != [] {
      coreQ := EscapeField(core);
      if coreQ == None { FormatLonger(tagQ.value, Escape(core), pakQ.value, romQ.value); return None; }
    }
    var text := Format(tagQ.value, coreQ, pakQ.value, romQ.value);
    if |text| >= 1024 { return None; }
    cmd := Some(text);
  }

  const LAUNCHER: string := "/launch.sh"

  /** openPak's command. */
  method PakCommand(path: string) returns (cmd: Option<string>)
    requires '\0' !in path
    ensures cmd == if |Escape(path)| < 1024 then Some(['\''] + Escape(path) + LAUNCHER + ['\'']) else None
  {
    var pathQ := EscapeField(path);
    if pathQ == None { return None; }
    var text := ['\''] + pathQ.value + LAUNCHER + ['\''];
    if |text| >= 1024 + 32 { return None; }
    cmd := Some(text);
  }

  // ---- reading them back ----

  function AllQuoted(s: string): Word {
    if s == [] then [] else [Char(s[0], true)] + AllQuoted(s[1..])
  }

  function Unquoted(s: string): Word {
    if s == [] then [] else [Char(s[0], false)] + Unquoted(s[1..])
  }

  lemma ReadPlain(c: char, tail: string, cur: Word)
    requires c != '\''
    ensures Tokens([c] + tail, true, cur, true) == Tokens(tail, true, cur + [Char(c, true)], true)
  {
    assert ([c] + tail)[1..] == tail;
  }

  lemma ReadQuoteQuote(tail: string, cur: Word)
    ensures Tokens(['\'', '\\', '\'', '\''] + tail, true, cur, true) ==
            Tokens(tail, true, cur + [Char('\'', true)], true)
  {
    var s0 := ['\'', '\\', '\'', '\''] + tail;
    var s1, s3 := ['\\', '\'', '\''] + tail, ['\''] + tail;
    var next := cur + [Char('\'', true)];
    assert s0[1..] == s1 && s1[2..] == s3 && s3[1..] == tail;
    assert Tokens(s0, true, cur, true) == Tokens(s1, false, cur, true);
    assert s1[0] == '\\' && s1[1] == '\'';
    assert Tokens(s1, false, cur, true) == Tokens(s3, false, next, true);
  }

  /** Inside single quotes, escaped text and the closing quote are read as the quoted original. */
  lemma {:induction false} ReadEscaped(v: string, rest: string, cur: Word)
    ensures Tokens(Escape(v) + (['\''] + rest), true, cur, true) == Tokens(rest, false, cur + AllQuoted(v), true)
  {
    if v == [] {
      assert Escape(v) + (['\''] + rest) == ['\''] + rest;
      assert (['\''] + rest)[1..] == rest;
      assert cur + AllQuoted(v) == cur;
    } else {
      var tail, next := Escape(v[1..]) + (['\''] + rest), cur + [Char(v[0], true)];
      EscapeStep(v);
      assert AllQuoted(v) == [Char(v[0], true)] + AllQuoted(v[1..]);
      hide Tokens, Escape, AllQuoted;
      assert next + AllQuoted(v[1..]) == cur + AllQuoted(v);
      ReadEscaped(v[1..], rest, next);
      if v[0] == '\'' {
        assert Escape(v) + (['\''] + rest) == ['\'', '\\', '\'', '\''] + tail;
        ReadQuoteQuote(tail, cur);
      } else {
        assert Escape(v) + (['\''] + rest) == [v[0]] + tail;
        ReadPlain(v[0], tail, cur);
      }
    }
  }

  /** A quoted field continues the word with its characters, all of them quoted. */
  lemma ReadQuoted(v: string, rest: string, cur: Word, started: bool)
    ensures Tokens(Quoted(v) + rest, false, cur, started) == Tokens(rest, false, cur + AllQuoted(v), true)
  {
    ReadEscaped(v, rest, cur);
    assert (Quoted(v) + rest)[1..] == Escape(v) + (['\''] + rest);
  }

  predicate Ordinary(c: char) { !Blank(c) && !Special(c) && c != '\'' && c != '\\' }

  lemma ReadOrdinary(c: char, tail: string, cur: Word)
    requires Ordinary(c)
    ensures Tokens([c] + tail, false, cur, cur != []) == Tokens(tail, false, cur + [Char(c, false)], true)
  {
    assert ([c] + tail)[1..] == tail;
  }

  lemma {:induction false} ReadName(name: string, rest: string, cur: Word)
    requires forall c :: c in name ==> Ordinary(c)
    requires name != []
    ensures Tokens(name + rest, false, cur, cur != []) == Tokens(rest, false, cur + Unquoted(name), true)
  {
    var c := Char(name[0], false);
    assert Ordinary(name[0]) && Unquoted(name) == [c] + Unquoted(name[1..]);
    ReadOrdinary(name[0], name[1..] + rest, cur);
    assert |name| == 1 ==> Unquoted(name[1..]) == [];
    hide *;
    assert name + rest == [name[0]] + (name[1..] + rest);
    if |name| == 1 {
      assert name[1..] + rest == rest && [c] + [] == [c];
    } else {
      ReadName(name[1..], rest, cur + [c]);
      assert cur + [c] + Unquoted(name[1..]) == cur + ([c] + Unquoted(name[1..]));
    }
  }

  function AssignmentWord(name: string, value: string): Word {
    Unquoted(name + ['=']) + AllQuoted(value)
  }

  lemma EndWord(rest: string, cur: Word)
    ensures Tokens([' '] + rest, false, cur, true) == Cons(cur, Tokens(rest, false, [], false))
  {
    assert ([' '] + rest)[1..] == rest;
  }

  lemma ReadAssignment(name: string, value: string, rest: string)
    requires name != [] && forall c :: c in name ==> NameChar(c)
    ensures Tokens(Assignment(name, value) + ([' '] + rest), false, [], false)
            == Cons(AssignmentWord(name, value), Tokens(rest, false, [], false))
  {
    var left := name + ['='];
    assert forall c :: c in left ==> Ordinary(c);
    assert Assignment(name, value) + ([' '] + rest) == left + (Quoted(value) + ([' '] + rest));
    ReadName(left, Quoted(value) + ([' '] + rest), []);
    assert [] + Unquoted(left) == Unquoted(left);
    hide Unquoted, Quoted, Escape;
    ReadQuoted(value, [' '] + rest, Unquoted(left), true);
    EndWord(rest, AssignmentWord(name, value));
  }

  lemma ReadWords(pak: string, rom: string)
    ensures Tokens(Quoted(pak) + [' '] + Quoted(rom), false, [], false) == Some([AllQuoted(pak), AllQuoted(rom)])
  {
    var p, r := AllQuoted(pak), AllQuoted(rom);
    assert Tokens([], false, r, true) == Some([r]);
    hide Quoted, AllQuoted, Tokens;
    assert Quoted(pak) + [' '] + Quoted(rom) == Quoted(pak) + ([' '] + Quoted(rom));
    ReadQuoted(pak, [' '] + Quoted(rom), [], false);
    assert [] + p == p && [] + r == r;
    EndWord(Quoted(rom), p);
    assert Quoted(rom) + [] == Quoted(rom);
    ReadQuoted(rom, [], [], false);
    assert [p] + [r] == [p, r];
  }

  /** The shell recognises exactly these words, and every character of a field in them is
      quoted: nothing in a field is expanded, split or taken for an operator. */
  lemma CommandTokens(tag: string, core: string, pak: string, rom: string)
    ensures Tokens(CommandText(tag, core, pak, rom), false, [], false)
            == Some([AssignmentWord(TAG, tag)] + (if core == [] then [] else [AssignmentWord(CORE, core)])
                    + [AllQuoted(pak), AllQuoted(rom)])
  {
    var words := Quoted(pak) + [' '] + Quoted(rom);
    var p, r, t, c := AllQuoted(pak), AllQuoted(rom), AssignmentWord(TAG, tag), AssignmentWord(CORE, core);
    ReadWords(pak, rom);
    assert forall c :: c in TAG ==> NameChar(c);
    assert forall c :: c in CORE ==> NameChar(c);
    hide Quoted, AssignmentWord, Tokens, AllQuoted;
    if core == [] {
      assert CommandText(tag, core, pak, rom) == Assignment(TAG, tag) + ([' '] + words);
      ReadAssignment(TAG, tag, words);
      assert [t] + [] + [p, r] == [t] + [p, r];
    } else {
      var rest := Assignment(CORE, core) + ([' '] + words);
      assert CommandText(tag, core, pak, rom) == Assignment(TAG, tag) + ([' '] + rest);
      ReadAssignment(CORE, core, words);
      ReadAssignment(TAG, tag, rest);
      assert [t] + [c] + [p, r] == [t] + ([c] + [p, r]);
    }
  }

  // ---- assignments and words ----

  lemma {:induction false} TextOfQuoted(s: string)
    ensures Text(AllQuoted(s)) == s && |AllQuoted(s)| == |s|
  {
    if s != [] {
      TextOfQuoted(s[1..]);
      assert AllQuoted(s)[1..] == AllQuoted(s[1..]);
    }
  }

  lemma {:induction false} TextOfUnquoted(s: string)
    ensures Text(Unquoted(s)) == s && |Unquoted(s)| == |s|
  {
    if s != [] {
      TextOfUnquoted(s[1..]);
      assert Unquoted(s)[1..] == Unquoted(s[1..]);
    }
  }

  lemma NotAssignment(s: string)
    ensures !IsAssignment(AllQuoted(s))
  {
  }

  lemma {:induction false} NameOf(name: string, rest: Word)
    requires forall c :: c in name ==> NameChar(c)
    requires rest == [] || rest[0].quoted || !NameChar(rest[0].c)
    ensures NameLength(Unquoted(name) + rest) == |name|
    ensures (Unquoted(name) + rest)[..|name|] == Unquoted(name) && (Unquoted(name) + rest)[|name|..] == rest
  {
    TextOfUnquoted(name);
    if name == [] {
      assert Unquoted(name) + rest == rest;
    } else {
      assert (Unquoted(name) + rest)[1..] == Unquoted(name[1..]) + rest;
      NameOf(name[1..], rest);
    }
  }

  lemma {:induction false} UnquotedAppend(a: string, c: char)
    ensures Unquoted(a + [c]) == Unquoted(a) + [Char(c, false)]
  {
    if a != [] {
      assert (a + [c])[1..] == a[1..] + [c];
      UnquotedAppend(a[1..], c);
    }
  }

  lemma AssignmentIs(name: string, value: string)
    requires name != [] && NameStart(name[0]) && forall c :: c in name ==> NameChar(c)
    ensures var w, n := AssignmentWord(name, value), |name|;
            IsAssignment(w) && NameLength(w) == n && Text(w[..n]) == name && Text(w[n + 1..]) == value
  {
    var rest := [Char('=', false)] + AllQuoted(value);
    UnquotedAppend(name, '=');
    assert AssignmentWord(name, value) == Unquoted(name) + rest;
    NameOf(name, rest);
    TextOfUnquoted(name);
    TextOfQuoted(value);
    assert rest[1..] == AllQuoted(value);
    assert (Unquoted(name) + rest)[|name| + 1..] == (Unquoted(name) + rest)[|name|..][1..];
  }

  lemma TwoTexts(v: Word, w: Word)
    ensures Texts([v, w]) == [Text(v), Text(w)]
  {
    hide Text;
    assert [v, w][1..] == [w] && [w][1..] == [];
    assert Texts([w]) == [Text(w)] + Texts([]);
    assert Texts([v, w]) == [Text(v)] + Texts([w]);
  }

  lemma SplitWords(pak: string, rom: string)
    ensures Split([AllQuoted(pak), AllQuoted(rom)]) == Command([], [pak, rom])
  {
    NotAssignment(pak);
    TextOfQuoted(pak);
    TextOfQuoted(rom);
    hide IsAssignment, AllQuoted, Text;
    TwoTexts(AllQuoted(pak), AllQuoted(rom));
  }

  lemma SplitAssignment(name: string, value: string, ws: seq<Word>)
    requires name != [] && NameStart(name[0]) && forall c :: c in name ==> NameChar(c)
    ensures Split([AssignmentWord(name, value)] + ws) ==
            var rest := Split(ws); Command([(name, value)] + rest.assignments, rest.words)
  {
    AssignmentIs(name, value);
    hide IsAssignment, AssignmentWord, Text, NameLength;
    assert ([AssignmentWord(name, value)] + ws)[1..] == ws;
  }

  lemma ParseIs(s: string, ws: seq<Word>)
    requires Tokens(s, false, [], false) == Some(ws)
    ensures Parse(s) == Some(Split(ws))
  {
  }

  lemma GoodNames()
    ensures TAG != [] && NameStart(TAG[0]) && forall c :: c in TAG ==> NameChar(c)
    ensures CORE != [] && NameStart(CORE[0]) && forall c :: c in CORE ==> NameChar(c)
  {
  }

  lemma InARow<T>(t: T, c: T, words: seq<T>)
    ensures [c] + [] == [c]
    ensures [t] + [] + words == [t] + words && [t] + [c] + words == [t] + ([c] + words)
  {
  }

  /** The shell runs the pak with the rom as its one argument and exactly the intended
      assignments, whatever characters the fields hold. */
  lemma CommandParses(tag: string, core: string, pak: string, rom: string)
    ensures Parse(CommandText(tag, core, pak, rom)) ==
            Some(Command([(TAG, tag)] + (if core == [] then [] else [(CORE, core)]), [pak, rom]))
  {
    CommandTokens(tag, core, pak, rom);
    hide *;
    GoodNames();
    SplitWords(pak, rom);
    var words := [AllQuoted(pak), AllQuoted(rom)];
    var t, c := AssignmentWord(TAG, tag), AssignmentWord(CORE, core);
    InARow(t, c, words);
    InARow((TAG, tag), (CORE, core), []);
    if core == [] {
      SplitAssignment(TAG, tag, words);
      ParseIs(CommandText(tag, core, pak, rom), [t] + words);
    } else {
      SplitAssignment(CORE, core, words);
      SplitAssignment(TAG, tag, [c] + words);
      ParseIs(CommandText(tag, core, pak, rom), [t] + ([c] + words));
    }
  }

  lemma {:induction false} EscapeAppend(a: string, b: string)
    ensures Escape(a + b) == Escape(a) + Escape(b)
  {
    if a == [] {
      assert a + b == b;
    } else {
      assert (a + b)[1..] == a[1..] + b;
      EscapeAppend(a[1..], b);
    }
  }

  lemma {:induction false} NothingToEscape(s: string)
    requires '\'' !in s
    ensures Escape(s) == s
  {
    if s != [] { NothingToEscape(s[1..]); }
  }

  lemma PakQuoted(path: string, suffix: string)
    requires '\'' !in suffix
    ensures ['\''] + Escape(path) + suffix + ['\''] == Quoted(path + suffix)
  {
    EscapeAppend(path, suffix);
    NothingToEscape(suffix);
    hide Escape;
    AppendAssoc(['\''], Escape(path), suffix);
  }

  lemma OneWord(w: Word)
    requires !IsAssignment(w)
    ensures Split([w]) == Command([], [Text(w)])
  {
    assert Texts([]) == [] && [w][1..] == [];
    assert Texts([w]) == [Text(w)] + [];
  }

  /** openPak's command is one word: the path and the name of its launcher. */
  lemma PakCommandParses(path: string)
    ensures Parse(['\''] + Escape(path) + LAUNCHER + ['\'']) == Some(Command([], [path + LAUNCHER]))
  {
    var word := path + LAUNCHER;
    var w := AllQuoted(word);
    PakQuoted(path, LAUNCHER);
    assert Tokens([], false, w, true) == Some([w]);
    hide *;
    NotAssignment(word);
    TextOfQuoted(word);
    OneWord(w);
    ReadQuoted(word, [], [], false);
    assert Quoted(word) + [] == Quoted(word) && [] + w == w;
    ParseIs(Quoted(word), [w]);
  }
}
