/**
 * The penalty controller of the current `StopwatchManager`
 * (Timer/StopwatchManager/StopwatchManager+PenaltyController.swift): changing
 * the penalty of a solve moves it within the time-sorted `solves` list and in
 * or out of the two lists that leave DNFs out.
 */
module PenaltyController {
  import opened Wrappers
  import opened Models

  /** `remove(object:)`: drops the first occurrence, if there is one. */
  function RemoveObject(s: seq<Solve>, x: Solve): (r: seq<Solve>)
    ensures |r| == if x in s then |s| - 1 else |s|
  {
    if s == [] then []
    else if s[0] == x then s[1..]
    else [s[0]] + RemoveObject(s[1..], x)
  }

  /** One copy of `x` fewer, or the list itself when `x` is not in it. */
  lemma {:induction false} RemoveObjectContents(s: seq<Solve>, x: Solve)
    ensures x in s ==> multiset(RemoveObject(s, x)) == multiset(s) - multiset{x}
    ensures x !in s ==> RemoveObject(s, x) == s
  {
    if s != [] {
      assert s == [s[0]] + s[1..];
      RemoveObjectContents(s[1..], x);
    }
  }

  /** `insert(_:at:)`. */
  function InsertAt(s: seq<Solve>, i: nat, x: Solve): (r: seq<Solve>)
    requires i <= |s|
    ensures |r| == |s| + 1
  {
    s[..i] + [x] + s[i..]
  }

  /** The list with `x` at position `i` and everything else shifted behind it. */
  lemma InsertAtContents(s: seq<Solve>, i: nat, x: Solve)
    requires i <= |s|
    ensures var r := InsertAt(s, i, x);
            r[i] == x && r[..i] == s[..i] && r[i + 1..] == s[i..]
            && multiset(r) == multiset(s) + multiset{x}
  {
    assert s == s[..i] + s[i..];
  }

  /**
   * Taking a solve out of a list and putting it back at any position keeps the
   * length and the contents of the list.
   */
  lemma ReinsertKeepsContents(s: seq<Solve>, x: Solve, i: nat)
    requires x in s && i < |s|
    ensures var r := InsertAt(RemoveObject(s, x), i, x);
            |r| == |s| && multiset(r) == multiset(s) && r[i] == x
  {
    RemoveObjectContents(s, x);
    InsertAtContents(RemoveObject(s, x), i, x);
  }

  /** `solves` order: ascending by `Solve <`. */
  predicate SortedByTime(s: seq<Solve>)
    reads s
  {
    forall i, j :: 0 <= i < j < |s| ==> !SolveLess(s[j], s[i])
  }

  /** What `insertionIndex(of:)` is taken to return: a place between smaller and larger solves. */
  predicate InsertionPoint(s: seq<Solve>, i: nat, x: Solve)
    reads s, x
  {
    i <= |s| && (forall k :: 0 <= k < i ==> !SolveLess(x, s[k])) && (forall k :: i <= k < |s| ==> !SolveLess(s[k], x))
  }

  /** Inserting at such a place keeps a sorted list sorted. */
  lemma InsertKeepsSorted(s: seq<Solve>, i: nat, x: Solve)
    requires i <= |s|
    ensures SortedByTime(s) && InsertionPoint(s, i, x) ==> SortedByTime(InsertAt(s, i, x))
  {
    if !(SortedByTime(s) && InsertionPoint(s, i, x)) {
      return;
    }
    var r := InsertAt(s, i, x);
    InsertAtContents(s, i, x);
    forall a, b | 0 <= a < b < |r|
      ensures !SolveLess(r[b], r[a])
    {
      if b < i {
        assert r[a] == s[a] && r[b] == s[b];
      } else if b == i {
        assert r[a] == s[a];
      } else if a == i {
        assert r[b] == s[b - 1];
      } else if a < i {
        assert r[a] == s[a] && r[b] == s[b - 1];
        assert !SolveLess(x, s[a]) && !SolveLess(s[b - 1], x);
      } else {
        assert r[a] == s[a - 1] && r[b] == s[b - 1];
      }
    }
  }

  /**
   * How a no-DNF list should follow a penalty change: a solve turning into a
   * DNF leaves it, a DNF turning into a finished solve enters it, and a change
   * between two finished penalties leaves it alone.
   */
  function NoDnfListAfterChange(list: seq<Solve>, s: Solve, oldPen: Penalty, newPen: Penalty, at: nat): (r: seq<Solve>)
    requires oldPen == Dnf && newPen != Dnf ==> at <= |list|
  {
    if newPen == Dnf then RemoveObject(list, s)
    else if oldPen == Dnf then InsertAt(list, at, s)
    else list
  }

  /** A no-DNF list that holds a solve once exactly when it is finished keeps doing so. */
  lemma NoDnfListKeepsOneCopy(list: seq<Solve>, s: Solve, oldPen: Penalty, newPen: Penalty, at: nat)
    requires oldPen == Dnf && newPen != Dnf ==> at <= |list|
    requires multiset(list)[s] == if oldPen == Dnf then 0 else 1
    ensures multiset(NoDnfListAfterChange(list, s, oldPen, newPen, at))[s] == if newPen == Dnf then 0 else 1
  {
    RemoveObjectContents(list, s);
    if newPen == Dnf && oldPen != Dnf {
      assert s in multiset(list);
    } else if newPen != Dnf && oldPen == Dnf {
      InsertAtContents(list, at, s);
    }
  }

  /** How `changePen(solve:pen:)` updates a no-DNF list: it never looks at the old penalty. */
  function NoDnfListAsWritten(list: seq<Solve>, s: Solve, newPen: Penalty, at: nat): (r: seq<Solve>)
    requires newPen != Dnf ==> at <= |list|
  {
    if newPen != Dnf then InsertAt(list, at, s) else RemoveObject(list, s)
  }

  /**
   * As written, a change between two finished penalties (none to +2 or back)
   * inserts the solve again, so a list that held it once now holds it twice.
   */
  lemma NoDnfListAsWrittenDuplicates(list: seq<Solve>, s: Solve, oldPen: Penalty, newPen: Penalty, at: nat)
    requires oldPen != Dnf && newPen != Dnf && oldPen != newPen && at <= |list|
    requires multiset(list)[s] == 1
    ensures multiset(NoDnfListAsWritten(list, s, newPen, at))[s] == 2
    ensures multiset(NoDnfListAfterChange(list, s, oldPen, newPen, at))[s] == 1
  {
    InsertAtContents(list, at, s);
  }

  class StopwatchManager {
    /** The solve the timer screen shows and the penalty buttons edit. */
    var solveItem: Solve?
    /** The session's solves, sorted by `Solve <`. */
    var solves: seq<Solve>
    /** The session's solves in date order. */
    var solvesByDate: seq<Solve>
    /** The non-DNF solves, sorted by `Solve <`. */
    var solvesNoDNFs: seq<Solve>
    /** The non-DNF solves in date order. */
    var solvesNoDNFsbyDate: seq<Solve>
    /** `timerController.secondsElapsed`. */
    var secondsElapsed: real
    var showPenOptions: bool
    var showDeleteSolveConfirmation: bool

    constructor (solves: seq<Solve>, solvesByDate: seq<Solve>, solvesNoDNFs: seq<Solve>, solvesNoDNFsbyDate: seq<Solve>)
      ensures this.solves == solves && this.solvesByDate == solvesByDate
      ensures this.solvesNoDNFs == solvesNoDNFs && this.solvesNoDNFsbyDate == solvesNoDNFsbyDate
      ensures solveItem == null && secondsElapsed == 0.0 && !showPenOptions && !showDeleteSolveConfirmation
    {
      this.solves := solves;
      this.solvesByDate := solvesByDate;
      this.solvesNoDNFs := solvesNoDNFs;
      this.solvesNoDNFsbyDate := solvesNoDNFsbyDate;
      solveItem := null;
      secondsElapsed := 0.0;
      showPenOptions := false;
      showDeleteSolveConfirmation := false;
    }

    /**
     * `changePen(to:)`: nothing without a shown solve; otherwise the shown
     * solve takes the new penalty and `changedPen` follows it up.
     */
    method ChangePenTo(penalty: Penalty, at: nat, noDnfAt: nat)
      requires solveItem != null && solveItem.penalty != penalty && penalty == Dnf ==>
                 |solvesNoDNFsbyDate| > 0 && solvesNoDNFsbyDate[|solvesNoDNFsbyDate| - 1] == solveItem
      requires solveItem != null ==> at <= |RemoveObject(solves, solveItem)|
      requires solveItem != null && solveItem.penalty == Dnf ==> noDnfAt <= |solvesNoDNFs|
      modifies this, solveItem
      ensures solveItem == old(solveItem)
      ensures old(solveItem) == null ==> unchanged(this)
      ensures old(solveItem) != null ==>
                solveItem.penalty == penalty
                && (old(solveItem.penalty) == penalty ==> unchanged(this))
                && (old(solveItem.penalty) != penalty ==> ChangedPenState(old(solves), old(solvesNoDNFs),
                      old(solvesNoDNFsbyDate), old(solveItem.penalty), at, noDnfAt))
      ensures solvesByDate == old(solvesByDate) && secondsElapsed == old(secondsElapsed)
      ensures showPenOptions == old(showPenOptions) && showDeleteSolveConfirmation == old(showDeleteSolveConfirmation)
    {
      if solveItem == null {
        return;
      }
      var oldPen := solveItem.penalty;
      solveItem.penalty := penalty;
      ChangedPen(oldPen, at, noDnfAt);
    }

    /** The lists after `changedPen` with a real change, in terms of the lists before it. */
    ghost predicate ChangedPenState(solves0: seq<Solve>, noDnfs0: seq<Solve>, noDnfsByDate0: seq<Solve>,
                                    oldPen: Penalty, at: nat, noDnfAt: nat)
      requires solveItem != null
      reads this, solveItem
    {
      var s := solveItem;
      && at <= |RemoveObject(solves0, s)|
      && solves == InsertAt(RemoveObject(solves0, s), at, s)
      && (oldPen == Dnf && s.penalty != Dnf ==> noDnfAt <= |noDnfs0|)
      && solvesNoDNFs == NoDnfListAfterChange(noDnfs0, s, oldPen, s.penalty, noDnfAt)
      && (s.penalty == Dnf ==> |noDnfsByDate0| > 0)
      && solvesNoDNFsbyDate == (if s.penalty == Dnf && |noDnfsByDate0| > 0 then noDnfsByDate0[..|noDnfsByDate0| - 1]
                                else if oldPen == Dnf then noDnfsByDate0 + [s]
                                else noDnfsByDate0)
    }

    /**
     * `changedPen(_:)`, run after the shown solve took its new penalty: nothing
     * if the penalty is the old one; otherwise the solve moves to its new place
     * in `solves`, and leaves or enters the no-DNF lists. The `assert` that the
     * last by-date no-DNF solve is the shown one is a demand on the caller.
     */
    method ChangedPen(oldPen: Penalty, at: nat, noDnfAt: nat)
      requires solveItem != null
      requires oldPen != solveItem.penalty && solveItem.penalty == Dnf ==>
                 |solvesNoDNFsbyDate| > 0 && solvesNoDNFsbyDate[|solvesNoDNFsbyDate| - 1] == solveItem
      requires at <= |RemoveObject(solves, solveItem)|
      requires oldPen == Dnf ==> noDnfAt <= |solvesNoDNFs|
      modifies this
      ensures solveItem == old(solveItem) && solvesByDate == old(solvesByDate)
      ensures oldPen == solveItem.penalty ==> unchanged(this)
      ensures oldPen != solveItem.penalty ==>
                ChangedPenState(old(solves), old(solvesNoDNFs), old(solvesNoDNFsbyDate), oldPen, at, noDnfAt)
      ensures secondsElapsed == old(secondsElapsed) && showPenOptions == old(showPenOptions)
      ensures showDeleteSolveConfirmation == old(showDeleteSolveConfirmation)
      ensures oldPen != solveItem.penalty && SortedByTime(RemoveObject(old(solves), solveItem))
              && InsertionPoint(RemoveObject(old(solves), solveItem), at, solveItem)
              ==> SortedByTime(solves)
    {
      var s := solveItem;
      if oldPen == s.penalty {
        return;
      }
      ghost var rest := RemoveObject(solves, s);
      solves := RemoveObject(solves, s);
      solves := InsertAt(solves, at, s);
      InsertKeepsSorted(rest, at, s);
      if s.penalty == Dnf {
        solvesNoDNFsbyDate := solvesNoDNFsbyDate[..|solvesNoDNFsbyDate| - 1];
        solvesNoDNFs := RemoveObject(solvesNoDNFs, s);
      } else if oldPen == Dnf {
        solvesNoDNFsbyDate := solvesNoDNFsbyDate + [s];
        solvesNoDNFs := InsertAt(solvesNoDNFs, noDnfAt, s);
      }
    }

    /**
     * `changePen(solve:pen:)`, as written: nothing if the solve has that
     * penalty already; otherwise it takes it, moves to its new place in
     * `solves`, and is inserted into both no-DNF lists unless it became a DNF,
     * in which case it is removed from both.
     */
    method ChangePenSolve(solve: Solve, pen: Penalty, at: nat, dateAt: nat, noDnfAt: nat)
      requires at <= |RemoveObject(solves, solve)|
      requires pen != Dnf ==> dateAt <= |solvesNoDNFsbyDate| && noDnfAt <= |solvesNoDNFs|
      modifies this, solve
      ensures solve.penalty == pen
      ensures old(solve.penalty) == pen ==> solves == old(solves) && solvesNoDNFs == old(solvesNoDNFs)
                                            && solvesNoDNFsbyDate == old(solvesNoDNFsbyDate)
      ensures old(solve.penalty) != pen ==>
                && solves == InsertAt(RemoveObject(old(solves), solve), at, solve)
                && solvesNoDNFsbyDate == NoDnfListAsWritten(old(solvesNoDNFsbyDate), solve, pen, dateAt)
                && solvesNoDNFs == NoDnfListAsWritten(old(solvesNoDNFs), solve, pen, noDnfAt)
      ensures solveItem == old(solveItem) && solvesByDate == old(solvesByDate)
      ensures secondsElapsed == old(secondsElapsed) && showPenOptions == old(showPenOptions)
      ensures showDeleteSolveConfirmation == old(showDeleteSolveConfirmation)
    {
      if solve.penalty == pen {
        return;
      }
      solve.penalty := pen;
      solves := RemoveObject(solves, solve);
      solves := InsertAt(solves, at, solve);
      if pen != Dnf {
        solvesNoDNFsbyDate := InsertAt(solvesNoDNFsbyDate, dateAt, solve);
        solvesNoDNFs := InsertAt(solvesNoDNFs, noDnfAt, solve);
      } else {
        solvesNoDNFsbyDate := RemoveObject(solvesNoDNFsbyDate, solve);
        solvesNoDNFs := RemoveObject(solvesNoDNFs, solve);
      }
    }

    /**
     * `deleteLastSolve()`: nothing without a shown solve. Otherwise the solve is
     * deleted by `delete(solve:updateStats:)`, which is not part of this model:
     * the four lists are given as that call leaves them. The elapsed time is
     * zeroed, and the screen shows no solve, or the latest remaining one when
     * previous times are shown outside a comp-sim session.
     */
    method DeleteLastSolve(showPrevTime: bool, isCompSim: bool, remainingSolves: seq<Solve>,
                           remainingByDate: seq<Solve>, remainingNoDNFs: seq<Solve>,
                           remainingNoDNFsbyDate: seq<Solve>)
      modifies this
      ensures old(solveItem) == null ==> unchanged(this)
      ensures old(solveItem) != null ==>
                && solves == remainingSolves && solvesByDate == remainingByDate
                && solvesNoDNFs == remainingNoDNFs && solvesNoDNFsbyDate == remainingNoDNFsbyDate
                && secondsElapsed == 0.0
                && solveItem == (if !showPrevTime || isCompSim || remainingByDate == [] then null
                                 else remainingByDate[|remainingByDate| - 1])
      ensures showPenOptions == old(showPenOptions) && showDeleteSolveConfirmation == old(showDeleteSolveConfirmation)
    {
      if solveItem == null {
        return;
      }
      solves := remainingSolves;
      solvesByDate := remainingByDate;
      solvesNoDNFs := remainingNoDNFs;
      solvesNoDNFsbyDate := remainingNoDNFsbyDate;
      secondsElapsed := 0.0;
      if !showPrevTime || isCompSim {
        solveItem := null;
      } else {
        solveItem := if remainingByDate == [] then null else remainingByDate[|remainingByDate| - 1];
      }
    }

    /** `askToDelete()`: the penalty options close; the confirmation opens only for a shown solve. */
    method AskToDelete()
      modifies this
      ensures !showPenOptions
      ensures showDeleteSolveConfirmation == (old(showDeleteSolveConfirmation) || solveItem != null)
      ensures solveItem == old(solveItem) && solves == old(solves) && solvesByDate == old(solvesByDate)
      ensures solvesNoDNFs == old(solvesNoDNFs) && solvesNoDNFsbyDate == old(solvesNoDNFsbyDate)
      ensures secondsElapsed == old(secondsElapsed)
    {
      showPenOptions := false;
      if solveItem != null {
        showDeleteSolveConfirmation := true;
      }
    }
  }
}
