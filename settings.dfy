/** The settings application's navigation history (hideo-settings/reduce.cpp):
    a browser-style list of visited pages with a cursor. Going to a new page
    drops everything after the cursor and appends the page; going back and
    forward only move the cursor. */
module Settings {
  /** `usize` holds values below this bound; arithmetic on it wraps. */
  const USIZE_LIMIT: int := 0x1_0000_0000_0000_0000

  /** The pages the application navigates between. */
  datatype Page = Home | Account | Personalization | Applications | System
                | Network | Security | Updates | About

  /** `Action`: the three messages the reducer handles. */
  datatype Action = GoTo(page: Page) | GoBack | GoForward

  /** The navigation state as a value: the visited pages and the cursor. */
  datatype Nav = Nav(history: seq<Page>, index: nat)

  /** The cursor points at a visited page, so the history is never empty. */
  predicate WellFormed(n: Nav)
  {
    n.index < |n.history|
  }

  /** `State::page`: the page under the cursor. */
  function Current(n: Nav): Page
    requires WellFormed(n)
  {
    n.history[n.index]
  }

  /** The cursor after `GoBack`, clamped at the first page. */
  function BackIndex(i: nat): (j: nat)
    ensures i > 0 ==> j == i - 1
    ensures i == 0 ==> j == 0
  {
    if i > 0 then i - 1 else 0
  }

  /** The cursor after `GoBack` as the source computes it: the `usize`
      subtraction `i - 1` wraps at zero before `max` with zero is taken,
      so the clamp never applies. */
  function BackIndexAsWritten(i: nat): (j: nat)
    requires i < USIZE_LIMIT
    ensures j < USIZE_LIMIT
  {
    var dec := (i - 1) % USIZE_LIMIT;
    if dec > 0 then dec else 0
  }

  /** Away from the first page the written code and the clamped one agree. */
  lemma BackIndexAgrees(i: nat)
    requires 0 < i < USIZE_LIMIT
    ensures BackIndexAsWritten(i) == BackIndex(i)
  {
  }

  /** At the first page the written code moves the cursor to the largest
      `usize`, past the end of any history that fits in memory. */
  lemma BackAtFirstPageEscapes(h: seq<Page>)
    requires 1 <= |h| < USIZE_LIMIT
    ensures BackIndexAsWritten(0) == USIZE_LIMIT - 1
    ensures !WellFormed(Nav(h, BackIndexAsWritten(0)))
  {
  }

  function Min(a: nat, b: nat): nat
  {
    if a < b then a else b
  }

  /** `reduce`: one action applied to the state. */
  function Next(n: Nav, a: Action): (r: Nav)
    requires WellFormed(n)
    ensures WellFormed(r)
  {
    match a
    case GoTo(p) =>
      if Current(n) == p then n
      else
        var h := n.history[..n.index + 1] + [p];
        Nav(h, |h| - 1)
    case GoBack => Nav(n.history, BackIndex(n.index))
    case GoForward =>
      Nav(n.history, Min(n.index + 1, |n.history| - 1))
  }

  /** Going to the page already shown changes nothing. */
  lemma GoToSamePage(n: Nav, p: Page)
    requires WellFormed(n) && Current(n) == p
    ensures Next(n, GoTo(p)) == n
  {
  }

  /** Going to another page keeps the pages up to the cursor, forgets the
      ones after it, and leaves the cursor on the new last entry, which
      is `p`. */
  lemma GoToNewPage(n: Nav, p: Page)
    requires WellFormed(n) && Current(n) != p
    ensures var r := Next(n, GoTo(p));
      |r.history| == n.index + 2 && r.index == |r.history| - 1 && Current(r) == p
      && r.history[..n.index + 1] == n.history[..n.index + 1]
  {
  }

  /** Back and forward only move the cursor: forward by one unless at
      the last entry, back by one unless at the first. */
  lemma MovesKeepHistory(n: Nav)
    requires WellFormed(n)
    ensures Next(n, GoBack).history == n.history && Next(n, GoForward).history == n.history
    ensures Next(n, GoForward).index == (if n.index == |n.history| - 1 then n.index else n.index + 1)
    ensures Next(n, GoBack).index == (if n.index == 0 then 0 else n.index - 1)
  {
  }

  /** Back undoes a visit: after going to a new page, going back shows
      the page that was shown before, at the same place. */
  lemma BackUndoesGoTo(n: Nav, p: Page)
    requires WellFormed(n) && Current(n) != p
    ensures var r := Next(Next(n, GoTo(p)), GoBack);
      r.index == n.index && Current(r) == Current(n)
  {
    GoToNewPage(n, p);
    var g := Next(n, GoTo(p));
    assert g.history[n.index] == g.history[..n.index + 1][n.index];
  }

  /** Forward undoes back, away from the first page, and back undoes
      forward, away from the last page. */
  lemma ForwardUndoesBack(n: Nav)
    requires WellFormed(n)
    ensures n.index > 0 ==> Next(Next(n, GoBack), GoForward) == n
    ensures n.index < |n.history| - 1 ==> Next(Next(n, GoForward), GoBack) == n
  {
  }

  /** After a visit there is nothing to go forward to. */
  lemma GoToClearsForward(n: Nav, p: Page)
    requires WellFormed(n) && Current(n) != p
    ensures var g := Next(n, GoTo(p)); Next(g, GoForward) == g
  {
  }

  /** The state after a series of actions, in order. */
  function Run(n: Nav, actions: seq<Action>): (r: Nav)
    requires WellFormed(n)
    ensures WellFormed(r)
    decreases |actions|
  {
    if actions == [] then n else Next(Run(n, actions[..|actions| - 1]), actions[|actions| - 1])
  }

  /** The first page is never forgotten, and without a visit the history
      never changes. */
  lemma {:induction false} RunKeepsFirstPage(n: Nav, actions: seq<Action>)
    requires WellFormed(n)
    ensures Run(n, actions).history[0] == n.history[0]
    ensures (forall i :: 0 <= i < |actions| ==> !actions[i].GoTo?) ==> Run(n, actions).history == n.history
    decreases |actions|
  {
    if actions != [] {
      var init := actions[..|actions| - 1];
      RunKeepsFirstPage(n, init);
      var m := Run(n, init);
      var a := actions[|actions| - 1];
      if a.GoTo? && Current(m) != a.page {
        assert Next(m, a).history[0] == m.history[..m.index + 1][0];
      }
      if forall i :: 0 <= i < |actions| ==> !actions[i].GoTo? {
        assert forall i :: 0 <= i < |init| ==> init[i] == actions[i];
      }
    }
  }

  /** `State` (its declaration is not part of this model): the history
      and the cursor, updated in place by `reduce`. */
  class State {
    var history: seq<Page>
    var historyIndex: nat

    /** The initial state: the home page alone. */
    constructor()
      ensures history == [Home] && historyIndex == 0
    {
      history := [Home];
      historyIndex := 0;
    }

    /** The state as a value. */
    function Value(): Nav
      reads this
    {
      Nav(history, historyIndex)
    }

    predicate Valid()
      reads this
    {
      WellFormed(Value())
    }

    /** `reduce`: applies `action` in place. */
    method Reduce(action: Action)
      requires Valid()
      modifies this
      ensures Valid()
      ensures Value() == Next(old(Value()), action)
    {
      match action
      case GoTo(p) =>
        if history[historyIndex] == p {
          return;
        }
        history := history[..historyIndex + 1];
        history := history + [p];
        historyIndex := |history| - 1;
      case GoBack =>
        historyIndex := BackIndex(historyIndex);
      case GoForward =>
        historyIndex := Min(historyIndex + 1, |history| - 1);
    }
  }
}
