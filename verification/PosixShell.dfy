/** How a POSIX shell reads one simple command: POSIX.1-2017 Shell Command Language, sections
    2.2.1 (escape character), 2.2.2 (single quotes), 2.3 (token recognition) and 2.9.1 (leading
    assignments). Input that needs any other rule is refused rather than guessed at. */
module PosixShell {
  import opened Options

  /** A character of a word, and whether it was quoted. */
  datatype Char = Char(c: char, quoted: bool)

  type Word = seq<Char>

  predicate Blank(c: char) { c == ' ' || c == '\t' }

  /** Unquoted, these start an operator, an expansion, a comment or another kind of quote. */
  predicate Special(c: char) { c in "|&;<>()$`\"#*?[~\n" }

  function Cons(w: Word, rest: Option<seq<Word>>): Option<seq<Word>> {
    match rest
    case None => None
    case Some(ws) => Some([w] + ws)
  }

  /** Token recognition. single: inside single quotes; cur: the word so far, if started. */
  function Tokens(s: string, single: bool, cur: Word, started: bool): Option<seq<Word>> {
    if s == [] then
      if single then None else if started then Some([cur]) else Some([])
    else if single then
      if s[0] == '\'' then Tokens(s[1..], false, cur, true)
      else Tokens(s[1..], true, cur + [Char(s[0], true)], true)
    else if s[0] == '\'' then Tokens(s[1..], true, cur, true)
    else if s[0] == '\\' then
      if |s| == 1 then None
      else if s[1] == '\n' then Tokens(s[2..], false, cur, started)
      else Tokens(s[2..], false, cur + [Char(s[1], true)], true)
    else if Blank(s[0]) then
      if started then Cons(cur, Tokens(s[1..], false, [], false)) else Tokens(s[1..], false, [], false)
    else if Special(s[0]) then None
    else Tokens(s[1..], false, cur + [Char(s[0], false)], true)
  }

  /** Quote removal. */
  function Text(w: Word): string {
    if w == [] then "" else [w[0].c] + Text(w[1..])
  }

  predicate NameStart(c: char) { 'a' <= c <= 'z' || 'A' <= c <= 'Z' || c == '_' }

  predicate NameChar(c: char) { NameStart(c) || '0' <= c <= '9' }

  /** The length of the unquoted name at the start of a word. */
  function NameLength(w: Word): (n: nat)
    ensures n <= |w|
  {
    if w != [] && !w[0].quoted && NameChar(w[0].c) then 1 + NameLength(w[1..]) else 0
  }

  /** A word is an assignment when an unquoted name and an unquoted = begin it. */
  predicate IsAssignment(w: Word) {
    var n := NameLength(w);
    n > 0 && NameStart(w[0].c) && n < |w| && w[n] == Char('=', false)
  }

  datatype Command = Command(assignments: seq<(string, string)>, words: seq<string>)

  function Texts(ws: seq<Word>): seq<string> {
    if ws == [] then [] else [Text(ws[0])] + Texts(ws[1..])
  }

  /** Leading assignments, then the command name and its arguments. */
  function Split(ws: seq<Word>): Command {
    if ws == [] then Command([], [])
    else if IsAssignment(ws[0]) then
      var n, rest := NameLength(ws[0]), Split(ws[1..]);
      rest.(assignments := [(Text(ws[0][..n]), Text(ws[0][n + 1..]))] + rest.assignments)
    else Command([], Texts(ws))
  }

  function Parse(s: string): Option<Command> {
    match Tokens(s, false, [], false)
    case None => None
    case Some(ws) => Some(Split(ws))
  }
}
