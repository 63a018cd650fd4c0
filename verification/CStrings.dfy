/** The parts of the C string library the text formats rest on. */
module CStrings {
  import opened Options

  predicate At(s: string, i: nat, key: string) {
    i + |key| <= |s| && s[i..i + |key|] == key
  }

  /** strstr from position i on. */
  function Find(s: string, i: nat, key: string): (r: Option<nat>)
    requires i <= |s|
    ensures r.Some? ==> i <= r.value && At(s, r.value, key)
    decreases |s| - i
  {
    if At(s, i, key) then Some(i) else if i == |s| then None else Find(s, i + 1, key)
  }

  /** It finds the first occurrence, if there is one. */
  lemma {:induction false} FindFirst(s: string, i: nat, key: string)
    requires i <= |s|
    ensures match Find(s, i, key)
            case Some(k) => forall j :: i <= j < k ==> !At(s, j, key)
            case None => forall j :: i <= j <= |s| ==> !At(s, j, key)
    decreases |s| - i
  {
    if !At(s, i, key) && i < |s| { FindFirst(s, i + 1, key); }
  }

  /** The string a C program sees in a buffer: up to the first NUL. */
  function CString(s: seq<char>): string {
    if s == [] || s[0] == '\0' then [] else [s[0]] + CString(s[1..])
  }

  lemma {:induction false} CStringOf(t: string, s: seq<char>)
    requires '\0' !in t && |t| < |s| && s[..|t|] == t && s[|t|] == '\0'
    ensures CString(s) == t
  {
    if t != [] {
      assert s[0] == t[0];
      assert s[1..][..|t| - 1] == s[..|t|][1..] == t[1..];
      CStringOf(t[1..], s[1..]);
    }
  }
}
