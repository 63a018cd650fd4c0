/** The open directories of the launcher: closing one remembers its window, and opening one may
    put that window over what is read then. */
module DirectoryStack {
  import opened Arith
  import opened ListWindow
  import Directory

  /** The selection and window of the directory closed last, the depth it was closed to, and the
      selection there. */
  datatype Saved = Saved(depth: int, relative: int, selected: int, start: int, end: int)

  const NOTHING_SAVED := Saved(-1, -1, 0, 0, 0)

  /** The open directories, the shown one last. */
  datatype Nav = Nav(stack: seq<Directory.Dir>, saved: Saved)

  function Top(n: Nav): Directory.Dir
    requires n.stack != []
  {
    n.stack[|n.stack| - 1]
  }

  // ---- opening and closing, as values ----

  /** closeDirectory. */
  function Closed(n: Nav): Nav
    requires |n.stack| >= 2
  {
    var k, w := |n.stack| - 1, Top(n).window;
    Nav(n.stack[..k], Saved(k, n.stack[k - 1].window.selected, w.selected, w.start, w.end))
  }

  /** Is the saved window put over the directory that opens? The code asks for the depth and the
      selection it was closed to, not for the directory. */
  predicate Hits(n: Nav) {
    && n.stack != [] && Top(n).window.count > 0
    && n.saved.depth == |n.stack| && n.saved.relative == Top(n).window.selected
  }

  /** A window as it is put over count entries; an end of zero counts as none. */
  function Over(saved: Saved, count: nat, rows: nat): Window {
    Window(saved.selected, saved.start, if saved.end != 0 then saved.end else Min(count, rows), count, rows)
  }

  /** openDirectory, for a directory with these groups. */
  function Opened(n: Nav, starts: seq<nat>, alpha: seq<nat>, rows: nat): Nav {
    var w := Over(if Hits(n) then n.saved else NOTHING_SAVED, |alpha|, rows);
    n.(stack := n.stack + [Directory.Dir(w, starts, alpha)])
  }

  // ---- when the window fits ----

  /** A window over old entries still fits count entries: none were shown, or as many are shown
      as then and they end inside the list. */
  predicate StillFits(was: Window, count: nat) {
    || was.count == 0
    || (Min(was.count, was.rows) == Min(count, was.rows) && was.end <= count)
  }

  /** Whatever happened since it was closed: a directory opens in good order exactly when no
      window is put over it or the window that was saved still fits. */
  lemma OpensOkIff(n: Nav, w: Window, starts: seq<nat>, alpha: seq<nat>)
    requires Ok(w) && (n.saved.selected, n.saved.start, n.saved.end) == (w.selected, w.start, w.end)
    ensures Ok(Top(Opened(n, starts, alpha, w.rows)).window) <==> !Hits(n) || StillFits(w, |alpha|)
  {
  }

  /** A directory that is closed and opened again with as many entries is as it was. */
  lemma ReopenedIsTheSame(n: Nav)
    requires |n.stack| >= 2 && Ok(Top(n).window) && n.stack[|n.stack| - 2].window.count > 0
    requires |Top(n).alpha| == Top(n).window.count
    ensures Opened(Closed(n), Top(n).starts, Top(n).alpha, Top(n).window.rows).stack == n.stack
  {
    var d := Top(n);
    assert n.stack == n.stack[..|n.stack| - 1] + [d];
  }

  /** Below another entry, or at another depth than the one closed to, a directory opens at its
      first entry. */
  lemma ElsewhereOpensAtTop(n: Nav, starts: seq<nat>, alpha: seq<nat>, rows: nat)
    requires n.stack == [] || n.saved.depth != |n.stack| || n.saved.relative != Top(n).window.selected
    ensures var m := Opened(n, starts, alpha, rows);
            && m.stack[..|n.stack|] == n.stack && m.saved == n.saved
            && Top(m) == Directory.Dir(Window(0, 0, Min(|alpha|, rows), |alpha|, rows), starts, alpha)
  {
    assert (n.stack + [Top(Opened(n, starts, alpha, rows))])[..|n.stack|] == n.stack;
  }

  /** Three games, the last one selected; one is gone when the directory is opened again: the
      selection lies behind the last entry. */
  lemma ShrunkDirectory(parent: Directory.Dir, rows: nat)
    requires rows >= 3 && parent.window.count > 0
    ensures var n := Nav([parent, Directory.Dir(Window(2, 0, 3, 3, rows), [], [0, 0, 0])], NOTHING_SAVED);
            var w := Top(Opened(Closed(n), [], [0, 0], rows)).window;
            Ok(Top(n).window) && w == Window(2, 0, 3, 2, rows) && !Ok(w)
  {
  }

  // ---- the stack, updated in place ----

  ghost function Values(ds: seq<Directory.Directory>): (r: seq<Directory.Dir>)
    reads ds
    ensures |r| == |ds| && forall i :: 0 <= i < |ds| ==> r[i] == ds[i].Value()
  {
    if ds == [] then [] else Values(ds[..|ds| - 1]) + [ds[|ds| - 1].Value()]
  }

  class Launcher {
    var stack: seq<Directory.Directory>
    var depth: int     // restore_depth and its companions
    var relative: int
    var selected: int
    var start: int
    var end: int
    const rows: nat    // MAIN_ROW_COUNT

    ghost function Value(): Nav
      reads this, stack
    {
      Nav(Values(stack), Saved(depth, relative, selected, start, end))
    }

    ghost predicate Valid()
      reads this
    {
      rows > 0 && forall i :: 0 <= i < |stack| ==> stack[i].rows == rows
    }

    constructor (rows: nat)
      requires rows > 0
      ensures Valid() && this.rows == rows && Value() == Nav([], NOTHING_SAVED)
    {
      stack, this.rows := [], rows;
      depth, relative, selected, start, end := -1, -1, 0, 0, 0;
    }

    /** openDirectory, once it is clear that nothing is launched; alphas and entries are what the
        scan finds. */
    method OpenDirectory(alphas: seq<nat>, entries: seq<nat>)
      requires Valid() && Directory.Scanned(alphas, entries)
      modifies this`stack
      ensures Valid() && Value() == Opened(old(Value()), alphas, entries, rows)
    {
      hide Directory.Kept, Directory.Scanned;
      var sel, from, to := 0, 0, 0;
      if stack != [] && |stack[|stack| - 1].entries| > 0 {
        if depth == |stack| && stack[|stack| - 1].selected == relative {
          sel, from, to := selected, start, end;
        }
      }
      var d := new Directory.Directory.Placed(alphas, entries, rows, sel, from, to);
      stack := stack + [d];
    }

    method CloseDirectory()
      requires Valid() && |stack| >= 2
      modifies this
      ensures Valid() && Value() == Closed(old(Value()))
    {
      var top := stack[|stack| - 1];
      selected, start, end := top.selected, top.start, top.end;
      stack := stack[..|stack| - 1];
      depth := |stack|;
      relative := stack[|stack| - 1].selected;
    }
  }
}
