/** The scrolling list of minui.c and the option lists of minarch.c: a selection and the window
    of rows shown around it. */
module ListWindow {
  import opened Arith

  // ---- windows ----

  /** count entries, of which [start, end) are shown; at most rows fit the screen. */
  datatype Window = Window(selected: int, start: int, end: int, count: nat, rows: nat)

  function Visible(w: Window): int { Min(w.count, w.rows) }

  /** The selection is shown, and the window is as full as the list allows. */
  predicate Ok(w: Window) {
    && w.rows > 0
    && if w.count == 0 then w.selected == 0 && w.start == 0 && w.end == 0
       else 0 <= w.start <= w.selected < w.end <= w.count && w.end - w.start == Visible(w)
  }

  datatype Action =
    | Up(pressed: bool)      // pressed: a fresh press wraps around, a repeat stops
    | Down(pressed: bool)
    | PageUp
    | PageDown
    | Jump(target: nat)      // to another alphabetical group
    | Reveal(target: nat)    // restoring the last selection
    | Reload(newCount: nat)  // a rescan, or the removal of an entry
    | Insert                 // the Continue tile appears at the top

  // ---- what each action means ----

  /** The start of the smallest scroll that shows entry sel. */
  function Scroll(start: int, visible: int, sel: int): int {
    if sel < start then sel else if sel >= start + visible then sel + 1 - visible else start
  }

  function At(w: Window, sel: int, start: int): Window {
    w.(selected := sel, start := start, end := start + Visible(w))
  }

  function Next(w: Window, a: Action): Window {
    var n, v := w.count, Visible(w);
    match a
    case Up(pressed) =>
      var sel := if w.selected > 0 then w.selected - 1 else if pressed then n - 1 else 0;
      At(w, sel, Scroll(w.start, v, sel))
    case Down(pressed) =>
      var sel := if w.selected < n - 1 then w.selected + 1 else if pressed then 0 else n - 1;
      At(w, sel, Scroll(w.start, v, sel))
    case PageUp =>
      var sel := Max(w.selected - w.rows, 0);
      At(w, sel, if sel >= w.start then w.start else Max(w.start - w.rows, 0))
    case PageDown =>
      var sel := Min(w.selected + w.rows, n - 1);
      At(w, sel, if sel < w.end then w.start else Min(w.end + w.rows, n) - v)
    case Jump(target) => At(w, target, Min(target, n - v))
    case Reveal(target) => At(w, target, if target < w.end then w.start else Min(target, n - v))
    case Reload(m) =>
      var u := w.(count := m);
      var sel := Max(Min(w.selected, m - 1), 0);
      At(u, sel, Scroll(0, u.rows, sel))
    case Insert => w.(selected := w.selected + 1, end := Min(n + 1, w.rows), count := n + 1)
  }

  lemma MoveKeepsWindow(w: Window, a: Action)
    requires Ok(w) && w.count > 0 && (a.Up? || a.Down? || a.PageUp? || a.PageDown?)
    ensures Ok(Next(w, a)) && Next(w, a).count == w.count
  {
  }

  lemma ReloadKeepsWindow(w: Window, m: nat)
    requires Ok(w)
    ensures Ok(Next(w, Reload(m))) && Next(w, Reload(m)).count == m
  {
  }

  /** A jump keeps the window in order exactly when it stays inside the list. */
  lemma JumpKeepsIff(w: Window, target: nat)
    requires Ok(w) && w.count > 0
    ensures Ok(Next(w, Jump(target))) <==> target < w.count
  {
  }

  /** Revealing scrolls down only, so an entry above the window stays hidden. */
  lemma RevealKeepsIff(w: Window, target: nat)
    requires Ok(w) && w.count > 0
    ensures Ok(Next(w, Reveal(target))) <==> w.start <= target < w.count
  {
  }

  /** The insertion moves the selection but not the start: it keeps the window in order exactly
      when there was an entry, the list was unscrolled, and the selection has room to move. */
  lemma InsertKeepsIff(w: Window)
    requires Ok(w)
    ensures Ok(Next(w, Insert)) <==> w.count > 0 && w.start == 0 && w.selected + 1 < w.rows
  {
  }

  /** With the last visible row selected the new selection lies below the window, and in an
      empty list it lies behind the only entry. */
  lemma InsertLosesSelection(w: Window)
    requires Ok(w) && w.start == 0
    requires w.count == 0 || (w.count >= w.rows && w.selected == w.rows - 1)
    ensures var v := Next(w, Insert); v.selected == v.end && !Ok(v)
  {
  }

  // ---- how far the keys move ----

  /** The same key n times. */
  function Repeated(w: Window, a: Action, n: nat): Window
    decreases n
  {
    if n == 0 then w else Repeated(Next(w, a), a, n - 1)
  }

  lemma Around(n: nat, m: nat)
    requires m > 0
    ensures (m + n) % m == n % m
  {
    var q := n / m;
    assert n == q * m + n % m && (1 + q) * m == m + q * m;
    DivUnique(m + n, m, 1 + q);
  }

  /** As many presses of Down as there are entries lead back to the same selection. */
  lemma {:induction false} DownGoesRound(w: Window, n: nat)
    requires Ok(w) && w.count > 0
    ensures var v := Repeated(w, Down(true), n);
            Ok(v) && v.count == w.count && v.rows == w.rows && v.selected == (w.selected + n) % w.count
    decreases n
  {
    if n > 0 {
      MoveKeepsWindow(w, Down(true));
      DownGoesRound(Next(w, Down(true)), n - 1);
      if w.selected == w.count - 1 { Around(n - 1, w.count); }
    }
  }

  /** Up undoes Down, and Down undoes Up, all the way round. */
  lemma UpUndoesDown(w: Window)
    requires Ok(w) && w.count > 0
    ensures Next(Next(w, Down(true)), Up(true)).selected == w.selected
    ensures Next(Next(w, Up(true)), Down(true)).selected == w.selected
  {
  }

  lemma OneMove(w: Window, a: Action)
    requires Ok(w) && w.count > 0 && (a.Up? || a.Down? || a.PageUp? || a.PageDown?)
    ensures var v := Next(w, a);
            && Ok(v) && v.count == w.count && v.rows == w.rows
            && (a == Up(false) ==> v.selected == Max(w.selected - 1, 0))
            && (a == Down(false) ==> v.selected == Min(w.selected + 1, w.count - 1))
            && (a == PageUp ==> v.selected == Max(w.selected - w.rows, 0))
            && (a == PageDown ==> v.selected == Min(w.selected + w.rows, w.count - 1))
  {
    MoveKeepsWindow(w, a);
    hide Ok;
  }

  lemma SelectionInside(w: Window)
    requires Ok(w) && w.count > 0
    ensures 0 <= w.selected < w.count && w.rows > 0
  {
  }

  /** A key that is held down stops at the end of the list. */
  lemma {:induction false} HeldDownStops(w: Window, n: nat)
    requires Ok(w) && w.count > 0
    ensures Repeated(w, Down(false), n).selected == Min(w.selected + n, w.count - 1)
    decreases n
  {
    hide Next, Ok;
    SelectionInside(w);
    if n > 0 {
      OneMove(w, Down(false));
      HeldDownStops(Next(w, Down(false)), n - 1);
    }
  }

  lemma {:induction false} HeldUpStops(w: Window, n: nat)
    requires Ok(w) && w.count > 0
    ensures Repeated(w, Up(false), n).selected == Max(w.selected - n, 0)
    decreases n
  {
    hide Next, Ok;
    SelectionInside(w);
    if n > 0 {
      OneMove(w, Up(false));
      HeldUpStops(Next(w, Up(false)), n - 1);
    }
  }

  lemma OneLess(n: nat, m: nat)
    requires n > 0
    ensures (n - 1) * m >= 0 && (n - 1) * m + m == n * m
  {
  }

  /** Every page key moves by the rows of a screen, up to the end of the list. */
  lemma {:induction false} PagesDown(w: Window, n: nat)
    requires Ok(w) && w.count > 0
    ensures Repeated(w, PageDown, n).selected == Min(w.selected + n * w.rows, w.count - 1)
    decreases n
  {
    hide Next, Ok;
    SelectionInside(w);
    if n > 0 {
      OneMove(w, PageDown);
      OneLess(n, w.rows);
      PagesDown(Next(w, PageDown), n - 1);
    }
  }

  lemma {:induction false} PagesUp(w: Window, n: nat)
    requires Ok(w) && w.count > 0
    ensures Repeated(w, PageUp, n).selected == Max(w.selected - n * w.rows, 0)
    decreases n
  {
    hide Next, Ok;
    SelectionInside(w);
    if n > 0 {
      OneMove(w, PageUp);
      OneLess(n, w.rows);
      PagesUp(Next(w, PageUp), n - 1);
    }
  }

  /** Down and Up scroll no further than they must to show the new selection. */
  lemma ScrollIsSmallest(w: Window, a: Action, start: int)
    requires Ok(w) && w.count > 0 && (a.Up? || a.Down?)
    requires start <= Next(w, a).selected < start + Visible(w)
    ensures var far := if start < w.start then w.start - start else start - w.start;
            -far <= Next(w, a).start - w.start <= far
  {
  }

  /** A page key that leaves the window shows the neighbouring page, or what there is of it. */
  lemma PageShown(w: Window)
    requires Ok(w) && w.count > 0
    ensures var v := Next(w, PageDown);
            if v.selected < w.end then v.start == w.start
            else v.end == Min(w.end + w.rows, w.count) && v.end - v.start == w.rows
    ensures var v := Next(w, PageUp);
            if v.selected >= w.start then v.start == w.start
            else v.start == Max(w.start - w.rows, 0) && v.end - v.start == w.rows
  {
  }

  /** Away from the end of the list PageUp undoes PageDown; the window too comes back exactly
      when another page fits below it, or it stood at the top. */
  lemma PageUpUndoesPageDown(w: Window)
    requires Ok(w) && w.selected + w.rows < w.count
    ensures Next(Next(w, PageDown), PageUp).selected == w.selected
    ensures Next(Next(w, PageDown), PageUp) == w <==> w.start + 2 * w.rows <= w.count || w.start == 0
  {
  }

  /** A rescan keeps a selection that still exists and otherwise takes the last entry. The list
      is shown from its top, or scrolled just so far that the selection is the last row. */
  lemma ReloadSelects(w: Window, m: nat)
    requires Ok(w)
    ensures var v := Next(w, Reload(m));
            && v.selected == (if w.selected < m then w.selected else if m > 0 then m - 1 else 0)
            && (if v.selected < w.rows then v.start == 0 else v.end == v.selected + 1)
  {
  }

  /** A jump selects its target and shows it in the first row, or shows the end of the list. */
  lemma JumpShows(w: Window, target: nat)
    requires Ok(w) && target < w.count
    ensures var v := Next(w, Jump(target));
            v.selected == target && (v.start == target || (v.start < target && v.end == w.count))
  {
  }

  /** Revealing an entry that is shown only selects it; one below the window is shown as after a
      jump. */
  lemma RevealShows(w: Window, target: nat)
    requires Ok(w) && w.start <= target < w.count
    ensures Next(w, Reveal(target)) == if target < w.end then w.(selected := target) else Next(w, Jump(target))
  {
  }

  // ---- the option lists, updated in place ----

  /** The window of Menu_options of minarch.c. */
  class OptionList {
    var selected: int
    var start: int
    var end: int
    const count: nat
    const rows: nat

    ghost function Value(): Window
      reads this
    {
      Window(selected, start, end, count, rows)
    }

    constructor (count: nat, rows: nat)
      requires rows > 0
      ensures Ok(Value()) && Value() == Window(0, 0, Min(count, rows), count, rows)
    {
      this.count, this.rows := count, rows;
      selected, start, end := 0, 0, Min(count, rows);
    }

    /** A repeat wraps too. */
    method Up()
      requires Ok(Value()) && count > 0
      modifies this
      ensures Value() == Next(old(Value()), Action.Up(true))
    {
      selected := selected - 1;
      if selected < 0 {
        selected := count - 1;
        start := Max(0, count - rows);
        end := count;
      } else if selected < start {
        start := start - 1;
        end := end - 1;
      }
    }

    /** Also after a confirmed input binding. visibleRows is the window's size, fixed on entry. */
    method Down(visibleRows: nat)
      requires Ok(Value()) && count > 0 && visibleRows == Min(count, rows)
      modifies this
      ensures Value() == Next(old(Value()), Action.Down(true))
    {
      selected := selected + 1;
      if selected >= count {
        selected := 0;
        start := 0;
        end := visibleRows;
      } else if selected >= end {
        start := start + 1;
        end := end + 1;
      }
    }
  }
}
