/**
 * `TimeListManager` (TimeList/TimeListView.swift): all the solves of a session,
 * sorted by date or by time, and the sublist of them whose formatted time starts
 * with the text typed into the search field.
 */
module TimeList {
  import opened Wrappers
  import opened Helper

  /**
   * The comparator `resort` passes to `sorted`: by date when `sortBy` is 0,
   * otherwise by the +2-adjusted time within DNFs and within non-DNFs, with
   * DNFs after the rest when ascending and before them when descending.
   */
  predicate Precedes(a: Solves, b: Solves, sortBy: int, ascending: bool, plusTwo: Solves -> real) {
    if sortBy == 0 then
      if ascending then a.date < b.date else a.date > b.date
    else if (a.penalty != Dnf && b.penalty != Dnf) || (a.penalty == Dnf && b.penalty == Dnf) then
      if ascending then plusTwo(a) < plusTwo(b) else plusTwo(a) > plusTwo(b)
    else if a.penalty == Dnf && b.penalty != Dnf then !ascending
    else ascending
  }

  /** What `sorted(by:)` promises: no solve is preceded by one placed after it. */
  predicate InOrder(s: seq<Solves>, sortBy: int, ascending: bool, plusTwo: Solves -> real) {
    forall i, j :: 0 <= i < j < |s| ==> !Precedes(s[j], s[i], sortBy, ascending, plusTwo)
  }

  /** A sort position: compared by `group` first, then by `value`. */
  datatype Rank = Rank(group: int, value: real)

  predicate RankLess(a: Rank, b: Rank) {
    a.group < b.group || (a.group == b.group && a.value < b.value)
  }

  /** Where the comparator puts a solve: dates or times, negated when descending. */
  function SortRank(s: Solves, sortBy: int, ascending: bool, plusTwo: Solves -> real): Rank {
    if sortBy == 0 then Rank(0, if ascending then s.date as real else -(s.date as real))
    else Rank(if (s.penalty == Dnf) == ascending then 1 else 0, if ascending then plusTwo(s) else -plusTwo(s))
  }

  /** The comparator is exactly the order of the ranks, hence a strict weak order. */
  lemma PrecedesIsRankOrder(a: Solves, b: Solves, sortBy: int, ascending: bool, plusTwo: Solves -> real)
    ensures Precedes(a, b, sortBy, ascending, plusTwo)
            <==> RankLess(SortRank(a, sortBy, ascending, plusTwo), SortRank(b, sortBy, ascending, plusTwo))
  {
  }

  predicate RankSorted(s: seq<Solves>, rank: Solves -> Rank) {
    forall i, j :: 0 <= i < j < |s| ==> !RankLess(rank(s[j]), rank(s[i]))
  }

  /** Places `x` before the first solve of higher rank. */
  function InsertByRank(x: Solves, s: seq<Solves>, rank: Solves -> Rank): (r: seq<Solves>)
    requires RankSorted(s, rank)
    ensures RankSorted(r, rank)
    ensures multiset(r) == multiset(s) + multiset{x}
  {
    if s == [] || RankLess(rank(x), rank(s[0])) then
      SmallestFirstSorted(x, s, rank);
      [x] + s
    else
      var rest := InsertByRank(x, s[1..], rank);
      NoneBelowHead(x, s, rest, rank);
      ConsSorted(s[0], rest, rank);
      assert s == [s[0]] + s[1..];
      [s[0]] + rest
  }

  lemma ConsSorted(h: Solves, rest: seq<Solves>, rank: Solves -> Rank)
    requires RankSorted(rest, rank)
    requires forall i :: 0 <= i < |rest| ==> !RankLess(rank(rest[i]), rank(h))
    ensures RankSorted([h] + rest, rank)
  {
    var r := [h] + rest;
    forall i, j | 0 <= i < j < |r|
      ensures !RankLess(rank(r[j]), rank(r[i]))
    {
      assert r[j] == rest[j - 1];
      if i > 0 {
        assert r[i] == rest[i - 1];
      }
    }
  }

  lemma SmallestFirstSorted(x: Solves, s: seq<Solves>, rank: Solves -> Rank)
    requires RankSorted(s, rank)
    requires s == [] || RankLess(rank(x), rank(s[0]))
    ensures RankSorted([x] + s, rank)
  {
    forall i | 0 <= i < |s|
      ensures !RankLess(rank(s[i]), rank(x))
    {
      if i > 0 {
        assert !RankLess(rank(s[i]), rank(s[0]));
      }
    }
    ConsSorted(x, s, rank);
  }

  lemma NoneBelowHead(x: Solves, s: seq<Solves>, rest: seq<Solves>, rank: Solves -> Rank)
    requires s != [] && RankSorted(s, rank) && !RankLess(rank(x), rank(s[0]))
    requires multiset(rest) == multiset(s[1..]) + multiset{x}
    ensures forall i :: 0 <= i < |rest| ==> !RankLess(rank(rest[i]), rank(s[0]))
  {
    forall i | 0 <= i < |rest|
      ensures !RankLess(rank(rest[i]), rank(s[0]))
    {
      assert rest[i] in multiset(rest);
      if rest[i] != x {
        assert rest[i] in multiset(s[1..]);
        var k :| 0 <= k < |s[1..]| && s[1..][k] == rest[i];
        assert s[k + 1] == rest[i];
      }
    }
  }

  /** One permutation that `sorted(by:)` may return: an insertion sort by rank. */
  function SortByRank(s: seq<Solves>, rank: Solves -> Rank): (r: seq<Solves>)
    ensures RankSorted(r, rank)
    ensures multiset(r) == multiset(s)
  {
    if s == [] then []
    else
      assert s == [s[0]] + s[1..];
      InsertByRank(s[0], SortByRank(s[1..], rank), rank)
  }

  /** A list sorted by rank is in the comparator's order. */
  lemma RankSortedIsInOrder(s: seq<Solves>, sortBy: int, ascending: bool, plusTwo: Solves -> real)
    requires RankSorted(s, x => SortRank(x, sortBy, ascending, plusTwo))
    ensures InOrder(s, sortBy, ascending, plusTwo)
  {
    forall i, j | 0 <= i < j < |s|
      ensures !Precedes(s[j], s[i], sortBy, ascending, plusTwo)
    {
      PrecedesIsRankOrder(s[j], s[i], sortBy, ascending, plusTwo);
    }
  }

  /** Sorted by date: oldest first when ascending, newest first otherwise. */
  lemma DateOrder(s: seq<Solves>, ascending: bool, plusTwo: Solves -> real)
    requires InOrder(s, 0, ascending, plusTwo)
    ensures forall i, j :: 0 <= i < j < |s| ==> if ascending then s[i].date <= s[j].date else s[i].date >= s[j].date
  {
    forall i, j | 0 <= i < j < |s|
      ensures if ascending then s[i].date <= s[j].date else s[i].date >= s[j].date
    {
      assert !Precedes(s[j], s[i], 0, ascending, plusTwo);
    }
  }

  /** Sorted by time ascending: every DNF comes after every non-DNF. */
  lemma DnfsLastWhenAscending(s: seq<Solves>, sortBy: int, plusTwo: Solves -> real)
    requires sortBy != 0 && InOrder(s, sortBy, true, plusTwo)
    ensures forall i, j :: 0 <= i < j < |s| && s[i].penalty == Dnf ==> s[j].penalty == Dnf
  {
    forall i, j | 0 <= i < j < |s| && s[i].penalty == Dnf
      ensures s[j].penalty == Dnf
    {
      assert !Precedes(s[j], s[i], sortBy, true, plusTwo);
    }
  }

  /** Sorted by time descending: every DNF comes before every non-DNF. */
  lemma DnfsFirstWhenDescending(s: seq<Solves>, sortBy: int, plusTwo: Solves -> real)
    requires sortBy != 0 && InOrder(s, sortBy, false, plusTwo)
    ensures forall i, j :: 0 <= i < j < |s| && s[j].penalty == Dnf ==> s[i].penalty == Dnf
  {
    forall i, j | 0 <= i < j < |s| && s[j].penalty == Dnf
      ensures s[i].penalty == Dnf
    {
      assert !Precedes(s[j], s[i], sortBy, false, plusTwo);
    }
  }

  /** Sorted by time: two DNFs, or two non-DNFs, are in +2-adjusted time order. */
  lemma TimeOrderWithinClass(s: seq<Solves>, sortBy: int, ascending: bool, plusTwo: Solves -> real)
    requires sortBy != 0 && InOrder(s, sortBy, ascending, plusTwo)
    ensures forall i, j :: 0 <= i < j < |s| && (s[i].penalty == Dnf <==> s[j].penalty == Dnf) ==>
              if ascending then plusTwo(s[i]) <= plusTwo(s[j]) else plusTwo(s[i]) >= plusTwo(s[j])
  {
    forall i, j | 0 <= i < j < |s| && (s[i].penalty == Dnf <==> s[j].penalty == Dnf)
      ensures if ascending then plusTwo(s[i]) <= plusTwo(s[j]) else plusTwo(s[i]) >= plusTwo(s[j])
    {
      assert !Precedes(s[j], s[i], sortBy, ascending, plusTwo);
    }
  }

  /** `formatSolveTime(secs: $0.time).hasPrefix(filter)`. */
  predicate Matches(s: Solves, filter: string, format: real -> string) {
    filter <= format(s.time)
  }

  /** `allsolves.filter { ... }`: the matching solves, in their order. */
  function Filtered(s: seq<Solves>, filter: string, format: real -> string): (r: seq<Solves>)
    ensures |r| <= |s|
  {
    if s == [] then []
    else (if Matches(s[0], filter, format) then [s[0]] else []) + Filtered(s[1..], filter, format)
  }

  /** The filtered list holds exactly the matching solves. */
  lemma {:induction false} FilteredMembers(s: seq<Solves>, filter: string, format: real -> string, x: Solves)
    ensures x in Filtered(s, filter, format) <==> x in s && Matches(x, filter, format)
  {
    if s != [] {
      FilteredMembers(s[1..], filter, format, x);
      assert x in s <==> x == s[0] || x in s[1..];
    }
  }

  /** Filtering distributes over concatenation, so it keeps the relative order. */
  lemma {:induction false} FilteredConcat(a: seq<Solves>, b: seq<Solves>, filter: string, format: real -> string)
    ensures Filtered(a + b, filter, format) == Filtered(a, filter, format) + Filtered(b, filter, format)
  {
    if a == [] {
      assert a + b == b;
    } else {
      var head := if Matches(a[0], filter, format) then [a[0]] else [];
      var rest, fb := Filtered(a[1..], filter, format), Filtered(b, filter, format);
      assert Filtered(a + b, filter, format) == head + Filtered(a[1..] + b, filter, format) by {
        assert (a + b)[0] == a[0];
        assert (a + b)[1..] == a[1..] + b;
      }
      FilteredConcat(a[1..], b, filter, format);
      assert head + (rest + fb) == (head + rest) + fb;
    }
  }

  /** The empty filter is a prefix of every formatted time, so it keeps everything. */
  lemma {:induction false} EmptyFilterKeepsAll(s: seq<Solves>, format: real -> string)
    ensures Filtered(s, "", format) == s
  {
    if s != [] {
      EmptyFilterKeepsAll(s[1..], format);
    }
  }

  /** Filtering twice with the same text is filtering once. */
  lemma {:induction false} FilteredIdempotent(s: seq<Solves>, filter: string, format: real -> string)
    ensures Filtered(Filtered(s, filter, format), filter, format) == Filtered(s, filter, format)
  {
    if s != [] {
      var head := if Matches(s[0], filter, format) then [s[0]] else [];
      FilteredConcat(head, Filtered(s[1..], filter, format), filter, format);
      FilteredIdempotent(s[1..], filter, format);
      if Matches(s[0], filter, format) {
        assert Filtered(head, filter, format) == head by {
          assert head[1..] == [];
        }
      }
    }
  }

  /** `firstIndex(of:)`. */
  function FirstIndex(s: seq<Solves>, x: Solves): (r: Option<nat>)
    ensures r.None? <==> x !in s
    ensures r.Some? ==> r.value < |s| && s[r.value] == x && x !in s[..r.value]
  {
    if s == [] then None
    else if s[0] == x then Some(0)
    else
      var r := FirstIndex(s[1..], x);
      if r.None? then None
      else
        assert s[..r.value + 1] == [s[0]] + s[1..][..r.value];
        Some(r.value + 1)
  }

  /** `remove(at: firstIndex(of: x))`, or `s` itself when `x` is absent. */
  function RemoveFirst(s: seq<Solves>, x: Solves): (r: seq<Solves>)
    ensures x in s ==> multiset(r) == multiset(s) - multiset{x} && |r| == |s| - 1
    ensures x !in s ==> r == s
  {
    match FirstIndex(s, x)
    case None => s
    case Some(i) =>
      assert s == s[..i] + [x] + s[i + 1..];
      s[..i] + s[i + 1..]
  }

  /**
   * Deleting a solve from both lists keeps the shown list the filtered view of
   * all solves: the first occurrence in the view is the first in the whole.
   */
  lemma FilteredRemoveFirst(s: seq<Solves>, x: Solves, filter: string, format: real -> string)
    ensures Filtered(RemoveFirst(s, x), filter, format)
            == if x in Filtered(s, filter, format) then RemoveFirst(Filtered(s, filter, format), x)
               else Filtered(s, filter, format)
  {
    FilteredMembers(s, filter, format, x);
    if x in s {
      var i := FirstIndex(s, x).value;
      assert s == s[..i] + [x] + s[i + 1..];
      FilteredRemoveAround(s[..i], x, s[i + 1..], filter, format);
    }
  }

  /** The same statement for a list already split at the first occurrence of `x`. */
  lemma FilteredRemoveAround(pre: seq<Solves>, x: Solves, post: seq<Solves>, filter: string, format: real -> string)
    requires x !in pre
    ensures var fs := Filtered(pre + [x] + post, filter, format);
            Filtered(RemoveFirst(pre + [x] + post, x), filter, format)
            == if Matches(x, filter, format) then RemoveFirst(fs, x) else fs
  {
    var fpre, fpost := Filtered(pre, filter, format), Filtered(post, filter, format);
    FirstIndexAfter(pre, x, post);
    FilteredAround(pre, x, post, filter, format);
    FilteredConcat(pre, post, filter, format);
    if Matches(x, filter, format) {
      FilteredMembers(pre, filter, format, x);
      FirstIndexAfter(fpre, x, fpost);
    } else {
      assert fpre + [] + fpost == fpre + fpost;
    }
  }

  /** Filtering splits around one element: that element stays exactly when it matches. */
  lemma FilteredAround(pre: seq<Solves>, x: Solves, post: seq<Solves>, filter: string, format: real -> string)
    ensures Filtered(pre + [x] + post, filter, format)
            == Filtered(pre, filter, format) + (if Matches(x, filter, format) then [x] else [])
               + Filtered(post, filter, format)
  {
    var fx := if Matches(x, filter, format) then [x] else [];
    assert Filtered([x], filter, format) == fx by {
      assert [x][1..] == [];
    }
    calc {
      Filtered(pre + [x] + post, filter, format);
    == { FilteredConcat(pre + [x], post, filter, format); }
      Filtered(pre + [x], filter, format) + Filtered(post, filter, format);
    == { FilteredConcat(pre, [x], filter, format); }
      Filtered(pre, filter, format) + fx + Filtered(post, filter, format);
    }
  }

  lemma FirstIndexAfter(pre: seq<Solves>, x: Solves, post: seq<Solves>)
    requires x !in pre
    ensures RemoveFirst(pre + [x] + post, x) == pre + post
  {
    var s := pre + [x] + post;
    var i := FirstIndex(s, x).value;
    assert s[|pre|] == x;
    assert s[..i] == pre && s[i + 1..] == post;
  }

  class TimeListManager {
    /** The list shown: the solves whose formatted time starts with `filter`. */
    var solves: seq<Solves>
    /** Every solve of the session, in the current sort order. */
    var allsolves: seq<Solves>
    /** 0 sorts by date, anything else by time. */
    var sortBy: int
    /** The text typed into the search field. */
    var filter: string
    var ascending: bool
    /** `timeWithPlusTwoForSolve`, defined outside this file. */
    const plusTwo: Solves -> real
    /** `formatSolveTime(secs:)`, defined outside this file. */
    const format: real -> string

    /** The shown list is the filtered view of all solves. */
    predicate Valid()
      reads this
    {
      solves == Filtered(allsolves, filter, format)
    }

    /** `init(currentSession:)`: the session's solves, newest first. */
    constructor (sessionSolves: seq<Solves>, plusTwo: Solves -> real, format: real -> string)
      ensures this.plusTwo == plusTwo && this.format == format
      ensures sortBy == 0 && filter == "" && !ascending
      ensures multiset(allsolves) == multiset(sessionSolves)
      ensures InOrder(allsolves, 0, false, plusTwo)
      ensures solves == allsolves && Valid()
    {
      this.plusTwo := plusTwo;
      this.format := format;
      sortBy := 0;
      filter := "";
      ascending := false;
      allsolves := sessionSolves;
      solves := sessionSolves;
      new;
      Resort();
      EmptyFilterKeepsAll(allsolves, format);
    }

    /** `delete(_:)`: the first occurrence leaves `allsolves`, then `solves`. */
    method Delete(solve: Solves)
      modifies this
      ensures solve !in old(allsolves) ==> allsolves == old(allsolves) && solves == old(solves)
      ensures solve in old(allsolves) ==> allsolves == RemoveFirst(old(allsolves), solve)
                                          && solves == RemoveFirst(old(solves), solve)
      ensures sortBy == old(sortBy) && filter == old(filter) && ascending == old(ascending)
      ensures old(Valid()) ==> Valid()
    {
      var index := FirstIndex(allsolves, solve);
      if index.None? {
        return;
      }
      ghost var before := allsolves;
      allsolves := allsolves[..index.value] + allsolves[index.value + 1..];
      if old(Valid()) {
        FilteredRemoveFirst(before, solve, filter, format);
      }
      var shownIndex := FirstIndex(solves, solve);
      if shownIndex.None? {
        return;
      }
      solves := solves[..shownIndex.value] + solves[shownIndex.value + 1..];
    }

    /** `resort()`: all solves reordered by the comparator, then filtered again. */
    method Resort()
      modifies this
      ensures multiset(allsolves) == multiset(old(allsolves))
      ensures InOrder(allsolves, sortBy, ascending, plusTwo)
      ensures Valid()
      ensures sortBy == old(sortBy) && filter == old(filter) && ascending == old(ascending)
    {
      var order, up, key := sortBy, ascending, plusTwo;
      allsolves := SortByRank(allsolves, x => SortRank(x, order, up, key));
      RankSortedIsInOrder(allsolves, sortBy, ascending, plusTwo);
      solves := allsolves;
      Refilter();
    }

    /** `refilter()`: all solves when the filter is empty, else the matching ones. */
    method Refilter()
      modifies this
      ensures solves == Filtered(allsolves, filter, format)
      ensures filter == "" ==> solves == allsolves
      ensures allsolves == old(allsolves) && sortBy == old(sortBy) && filter == old(filter)
      ensures ascending == old(ascending)
    {
      if filter == "" {
        solves := allsolves;
        EmptyFilterKeepsAll(allsolves, format);
      } else {
        solves := Filtered(allsolves, filter, format);
      }
    }

    /** Assigning `sortBy` runs its `didSet`, which resorts. */
    method SetSortBy(value: int)
      modifies this
      ensures sortBy == value
      ensures multiset(allsolves) == multiset(old(allsolves))
      ensures InOrder(allsolves, value, ascending, plusTwo)
      ensures Valid()
      ensures filter == old(filter) && ascending == old(ascending)
    {
      sortBy := value;
      Resort();
    }

    /** Assigning `filter` runs its `didSet`, which refilters. */
    method SetFilter(value: string)
      modifies this
      ensures filter == value && solves == Filtered(allsolves, value, format) && Valid()
      ensures allsolves == old(allsolves) && sortBy == old(sortBy) && ascending == old(ascending)
    {
      filter := value;
      Refilter();
    }
  }
}
