/** JSON texts by the grammar of RFC 8259: section 2 (whitespace and literals), 4 (objects),
    5 (arrays) and 7 (strings). Print gives the text; every choice of whitespace, of escapes
    and of nesting is one syntax tree. */
module Json {

  /** A piece of a string between its quotes. */
  datatype Part = Plain(c: char) | Escaped(c: char) | Unicode(a: char, b: char, c': char, d: char)

  datatype Value =
    | Literal(text: string) // a number, true, false or null
    | Str(parts: seq<Part>)
    | Array(ws: string, items: Items)
    | Object(ws: string, members: Members)

  datatype Items = NoItems | Item(before: string, value: Value, after: string, rest: Items)

  datatype Members =
    | NoMembers
    | Member(before: string, key: seq<Part>, beforeColon: string, afterColon: string, value: Value, after: string,
        rest: Members)

  predicate IsSpace(c: char) { c == ' ' || c == '\t' || c == '\n' || c == '\r' }

  predicate Space(s: string) { forall c :: c in s ==> IsSpace(c) }

  predicate Hex(c: char) { '0' <= c <= '9' || 'a' <= c <= 'f' || 'A' <= c <= 'F' }

  predicate GoodPart(p: Part) {
    match p
    case Plain(c) => c >= ' ' && c != '"' && c != '\\'
    case Escaped(c) => c in "\"\\/bfnrt"
    case Unicode(a, b, c, d) => Hex(a) && Hex(b) && Hex(c) && Hex(d)
  }

  predicate GoodString(ps: seq<Part>) { forall p :: p in ps ==> GoodPart(p) }

  /** Letters, digits, sign, point: what numbers and the three names are made of. */
  predicate LiteralChar(c: char) {
    'a' <= c <= 'z' || 'A' <= c <= 'Z' || '0' <= c <= '9' || c == '-' || c == '+' || c == '.'
  }

  predicate GoodItems(l: Items) {
    l.Item? ==> Space(l.before) && Good(l.value) && Space(l.after) && GoodItems(l.rest)
  }

  predicate GoodMembers(l: Members) {
    l.Member? ==> Space(l.before) && GoodString(l.key) && Space(l.beforeColon) && Space(l.afterColon)
                  && Good(l.value) && Space(l.after) && GoodMembers(l.rest)
  }

  predicate Good(v: Value) {
    match v
    case Literal(t) => t != [] && forall c :: c in t ==> LiteralChar(c)
    case Str(ps) => GoodString(ps)
    case Array(ws, items) => Space(ws) && GoodItems(items)
    case Object(ws, members) => Space(ws) && GoodMembers(members)
  }

  function PrintPart(p: Part): string {
    match p
    case Plain(c) => [c]
    case Escaped(c) => ['\\', c]
    case Unicode(a, b, c, d) => ['\\', 'u', a, b, c, d]
  }

  function PrintParts(ps: seq<Part>): string {
    if ps == [] then [] else PrintPart(ps[0]) + PrintParts(ps[1..])
  }

  function PrintString(ps: seq<Part>): string { ['"'] + (PrintParts(ps) + ['"']) }

  function PrintItems(l: Items): string {
    match l
    case NoItems => []
    case Item(before, value, after, rest) =>
      before + (Print(value) + (after + (if rest == NoItems then [] else [','] + PrintItems(rest))))
  }

  function PrintMembers(l: Members): string {
    match l
    case NoMembers => []
    case Member(before, key, beforeColon, afterColon, value, after, rest) =>
      var tail := if rest == NoMembers then [] else [','] + PrintMembers(rest);
      before + (PrintString(key) + (beforeColon + ([':'] + (afterColon + (Print(value) + (after + tail))))))
  }

  function Print(v: Value): string {
    match v
    case Literal(t) => t
    case Str(ps) => PrintString(ps)
    case Array(ws, items) => ['['] + (ws + (PrintItems(items) + [']']))
    case Object(ws, members) => ['{'] + (ws + (PrintMembers(members) + ['}']))
  }
}
