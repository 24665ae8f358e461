/**
 * The histogram behind the time distribution chart (Stats/TimeDistribution.swift):
 * `getDivisions` cuts the solve times, less a tenth at each end, into at most
 * eight bars and counts the times in each; `getMaxHeight` and
 * `getTruncatedMinMax` read the chart's scale off the result.
 */
module TimeDistribution {
  import opened Wrappers

  /** A chart entry: the lower edge of a bar and how many times fall in it. */
  type Division = (real, int)

  predicate Sorted(data: seq<real>) {
    forall i, j :: 0 <= i < j < |data| ==> data[i] <= data[j]
  }

  /** `Int(ceil(Double(cnt) * 0.1))`, taken as the exact ceiling of a tenth. */
  function Trim(cnt: nat): (t: nat)
    ensures 10 * t >= cnt && (t == 0 || 10 * (t - 1) < cnt)
  {
    (cnt + 9) / 10
  }

  /** `bars`: one bar per time, at most eight. */
  function BarCount(cnt: nat): nat {
    if cnt < 8 then cnt else 8
  }

  /** `div_incr`: the width of each of `bars` bars spanning `lo` to `hi`. */
  function BarWidth(lo: real, hi: real, bars: nat): real
    requires bars > 0
  {
    (hi - lo) / bars as real
  }

  /** `(ild - ld) / 2`: half the gap from the largest kept time up to the next time. */
  function HalfGap(ld: real, ild: real): real {
    (ild - ld) / 2.0
  }

  /**
   * How the bars are cut: the kept times `tc_data`, the lower edge of the first
   * bar `fd`, the bar width `div_incr`, the number of bars, how far the last bar
   * reaches past the largest kept time (`(ild - ld) / 2`), and whether that last
   * bar includes its upper edge (the chart as written does not).
   */
  datatype Layout = Layout(kept: seq<real>, first: real, incr: real, bars: nat, extra: real, closedLast: bool)

  function LayoutOf(data: seq<real>, closedLast: bool): (L: Layout)
    requires |data| >= 4
    ensures 4 <= L.bars <= 8 && |L.kept| >= 2 && L.closedLast == closedLast
    ensures 1 <= Trim(|data|) && |L.kept| == |data| - 2 * Trim(|data|)
    ensures L.kept == data[Trim(|data|)..|data| - Trim(|data|)] && L.first == L.kept[0]
  {
    var cnt := |data|;
    var trim := Trim(cnt);
    var kept := data[trim..cnt - trim];
    var ld := kept[|kept| - 1];
    Layout(kept, kept[0], BarWidth(kept[0], ld, BarCount(cnt)), BarCount(cnt), HalfGap(ld, data[cnt - trim]), closedLast)
  }

  /** The lower edge of bar `k`: `fd` after `k` steps of `div_incr`. */
  function Lower(L: Layout, k: nat): real {
    if k == 0 then L.first else Lower(L, k - 1) + L.incr
  }

  /** The upper edge of bar `k`; only the last bar reaches past the next edge. */
  function Upper(L: Layout, k: nat): real {
    Lower(L, k) + L.incr + (if k == L.bars - 1 then L.extra else 0.0)
  }

  /** `range ~= datum` for `lo ..< hi`, or for `lo ... hi` when `closed`. */
  predicate InBar(x: real, lo: real, hi: real, closed: bool) {
    lo <= x && (x < hi || (closed && x <= hi))
  }

  /** How many of `s` fall in the bar from `lo` to `hi`. */
  function CountIn(s: seq<real>, lo: real, hi: real, closed: bool): (n: nat)
    ensures n <= |s|
  {
    if s == [] then 0
    else CountIn(s[..|s| - 1], lo, hi, closed) + (if InBar(s[|s| - 1], lo, hi, closed) then 1 else 0)
  }

  /** `tmpocc` of bar `k`. */
  function BarTally(L: Layout, k: nat): nat {
    CountIn(L.kept, Lower(L, k), Upper(L, k), L.closedLast && k == L.bars - 1)
  }

  /** Swift traps building a range whose upper bound is below its lower bound. */
  predicate Traps(L: Layout) {
    exists k :: 0 <= k < L.bars && Upper(L, k) < Lower(L, k)
  }

  /** `increments` after `n` bars: the tally of each bar stored under its lower edge. */
  function Increments(L: Layout, n: nat): map<real, int> {
    if n == 0 then map[] else Increments(L, n - 1)[Lower(L, n - 1) := BarTally(L, n - 1)]
  }

  /** The bars one to `n` as chart entries, edge and tally. */
  function Bars(L: Layout, n: nat): (r: seq<Division>)
    ensures |r| == n
    ensures forall i :: 0 <= i < n ==> r[i] == (Lower(L, i), BarTally(L, i) as int)
  {
    if n == 0 then [] else Bars(L, n - 1) + [(Lower(L, n - 1), BarTally(L, n - 1) as int)]
  }

  lemma MinKeyExists(keys: set<real>)
    requires keys != {}
    ensures exists k :: k in keys && forall j :: j in keys ==> k <= j
  {
    if forall x :: x !in keys {
      assert false;
    }
    var x :| x in keys;
    var rest := keys - {x};
    if rest == {} {
      assert keys == {x};
    } else {
      MinKeyExists(rest);
      var m :| m in rest && forall j :: j in rest ==> m <= j;
      var least := if x < m then x else m;
      forall j | j in keys
        ensures least <= j
      {
        if j != x {
          assert j in rest;
        }
      }
    }
  }

  /** The smallest key of a non-empty dictionary. */
  function LeastKey(m: map<real, int>): (k: real)
    requires |m| > 0
    ensures k in m && forall j :: j in m ==> k <= j
  {
    assert |m.Keys| == |m|;
    MinKeyExists(m.Keys);
    var k :| k in m && forall j :: j in m ==> k <= j;
    k
  }

  /** `r` lists every entry of `m` once, in ascending key order. */
  ghost predicate ListsAscending(r: seq<Division>, m: map<real, int>) {
    && |r| == |m|
    && (forall i :: 0 <= i < |r| ==> r[i].0 in m && m[r[i].0] == r[i].1)
    && (forall i, j :: 0 <= i < j < |r| ==> r[i].0 < r[j].0)
  }

  lemma PrependLeast(m: map<real, int>, k: real, tail: seq<Division>)
    requires k in m && forall j :: j in m ==> k <= j
    requires ListsAscending(tail, m - {k})
    ensures ListsAscending([(k, m[k])] + tail, m)
  {
    var rest := m - {k};
    var r := [(k, m[k])] + tail;
    assert |r| == |m| by {
      assert rest.Keys == m.Keys - {k};
      assert |rest.Keys| == |rest| && |m.Keys| == |m|;
    }
    assert forall i :: 0 <= i < |r| ==> r[i].0 in m && m[r[i].0] == r[i].1 by {
      forall i | 1 <= i < |r|
        ensures r[i].0 in m && m[r[i].0] == r[i].1
      {
        assert r[i] == tail[i - 1];
      }
    }
    assert forall i, j :: 0 <= i < j < |r| ==> r[i].0 < r[j].0 by {
      forall i, j | 0 <= i < j < |r|
        ensures r[i].0 < r[j].0
      {
        assert r[j] == tail[j - 1];
        if i == 0 {
          assert tail[j - 1].0 in rest;
        } else {
          assert r[i] == tail[i - 1];
        }
      }
    }
  }

  /** `increments.sorted(by: { $0.key < $1.key })`: every entry of `m`, by ascending key. */
  function SortedEntries(m: map<real, int>): (r: seq<Division>)
    ensures ListsAscending(r, m)
    decreases |m|
  {
    if |m| == 0 then []
    else
      var k := LeastKey(m);
      var rest := m - {k};
      assert |rest| < |m| by {
        assert rest.Keys == m.Keys - {k};
        assert |rest.Keys| == |rest| && |m.Keys| == |m|;
      }
      var tail := SortedEntries(rest);
      PrependLeast(m, k, tail);
      [(k, m[k])] + tail
  }

  /** Every entry of `m` is listed. */
  lemma {:induction false} SortedEntriesCoverAll(m: map<real, int>)
    ensures forall k :: k in m ==> (k, m[k]) in SortedEntries(m)
    decreases |m|
  {
    if |m| > 0 {
      var k := LeastKey(m);
      var rest := m - {k};
      assert |rest| < |m| by {
        assert rest.Keys == m.Keys - {k};
        assert |rest.Keys| == |rest| && |m.Keys| == |m|;
      }
      SortedEntriesCoverAll(rest);
      assert SortedEntries(m) == [(k, m[k])] + SortedEntries(rest);
      forall key | key in m
        ensures (key, m[key]) in SortedEntries(m)
      {
        if key != k {
          assert key in rest;
          assert (key, rest[key]) in SortedEntries(rest);
        }
      }
    }
  }

  /** The chart entries `getDivisions` returns, with the last bar open or closed. */
  function Divisions(data: seq<real>, closedLast: bool): Outcome<seq<Division>> {
    if |data| < 4 then Done([(0.0, 0)]) else BarDivisions(data, closedLast)
  }

  /** Four or more times: the two trimmed neighbours around the bars, unless a bar traps. */
  function BarDivisions(data: seq<real>, closedLast: bool): Outcome<seq<Division>>
    requires |data| >= 4
  {
    var L := LayoutOf(data, closedLast);
    var trim := Trim(|data|);
    if Traps(L) then Trap
    else Done([(data[trim - 1], trim as int)] + SortedEntries(Increments(L, L.bars))
              + [(data[|data| - trim], trim as int)])
  }

  lemma SameLayout(data: seq<real>, L: Layout)
    requires |data| >= 4
    requires var trim := Trim(|data|);
             var kept := data[trim..|data| - trim];
             L == Layout(kept, kept[0], BarWidth(kept[0], kept[|kept| - 1], BarCount(|data|)), BarCount(|data|),
                         HalfGap(kept[|kept| - 1], data[|data| - trim]), false)
    ensures LayoutOf(data, false) == L
  {
  }

  lemma DivisionsWhenTrapped(data: seq<real>)
    requires |data| >= 4 && Traps(LayoutOf(data, false))
    ensures Divisions(data, false) == Trap
  {
  }

  lemma DivisionsWhenNotTrapped(data: seq<real>, increments: map<real, int>)
    requires |data| >= 4
    requires var L := LayoutOf(data, false);
             !Traps(L) && increments == Increments(L, L.bars)
    ensures var trim := Trim(|data|);
            Divisions(data, false)
            == Done([(data[trim - 1], trim as int)] + SortedEntries(increments) + [(data[|data| - trim], trim as int)])
  {
  }

  /**
   * `getDivisions(data:)`: the first time trimmed off the bottom with the trim
   * count, one entry per distinct bar edge in ascending order, and the first
   * time trimmed off the top with the trim count.
   */
  method GetDivisions(data: seq<real>) returns (r: Outcome<seq<Division>>)
    ensures r == Divisions(data, false)
  {
    var cnt := |data|;
    if cnt >= 4 {
      var bars := BarCount(cnt);
      var trim := Trim(cnt);
      var tcData := data[trim..cnt - trim];
      var fd := tcData[0];
      var ld := tcData[|tcData| - 1];
      var ifd := data[trim - 1];
      var ild := data[cnt - trim];
      var divIncr := BarWidth(fd, ld, bars);
      ghost var L := Layout(tcData, fd, divIncr, bars, HalfGap(ld, ild), false);
      SameLayout(data, L);
      var tallied := TallyBars(tcData, fd, divIncr, bars, HalfGap(ld, ild));
      if tallied.Trap? {
        DivisionsWhenTrapped(data);
        return Trap;
      }
      var sorted := SortedEntries(tallied.value);
      sorted := [(ifd, trim)] + sorted;
      sorted := sorted + [(ild, trim)];
      DivisionsWhenNotTrapped(data, tallied.value);
      return Done(sorted);
    }
    return Done([(0.0, 0)]);
  }

  /**
   * The outer loop of `getDivisions`: walk the bars from `fd` in steps of
   * `div_incr`, storing each bar's tally under its lower edge, and trap at the
   * first bar whose upper edge lies below its lower edge.
   */
  method TallyBars(tcData: seq<real>, first: real, divIncr: real, bars: nat, extra: real)
    returns (r: Outcome<map<real, int>>)
    ensures var L := Layout(tcData, first, divIncr, bars, extra, false);
            r == if Traps(L) then Trap else Done(Increments(L, bars))
  {
    ghost var L := Layout(tcData, first, divIncr, bars, extra, false);
    var increments: map<real, int> := map[];
    var fd := first;
    var i := 0;
    while i < bars
      invariant 0 <= i <= bars
      invariant fd == Lower(L, i)
      invariant increments == Increments(L, i)
      invariant forall k :: 0 <= k < i ==> Lower(L, k) <= Upper(L, k)
    {
      var upper := fd + divIncr + (if i == bars - 1 then extra else 0.0);
      assert upper == Upper(L, i);
      if upper < fd {
        assert Upper(L, i) < Lower(L, i);
        return Trap;
      }
      var tmpocc := CountOccurrences(tcData, fd, upper);
      assert tmpocc == BarTally(L, i);
      increments := increments[fd := tmpocc];
      fd := fd + divIncr;
      i := i + 1;
    }
    return Done(increments);
  }

  /** The inner loop of the chart: how many times fall in `[lo, hi)`. */
  method CountOccurrences(times: seq<real>, lo: real, hi: real) returns (n: int)
    ensures n == CountIn(times, lo, hi, false)
  {
    n := 0;
    var j := 0;
    while j < |times|
      invariant 0 <= j <= |times|
      invariant n == CountIn(times[..j], lo, hi, false)
    {
      if lo <= times[j] < hi {
        n := n + 1;
      }
      assert times[..j + 1][..j] == times[..j];
      j := j + 1;
    }
    assert times[..j] == times;
  }

  /** The chart traps exactly when the bars would run backwards or the last bar would. */
  lemma TrapsExactly(L: Layout)
    requires L.bars >= 2
    ensures Traps(L) <==> L.incr < 0.0 || L.incr + L.extra < 0.0
  {
    if L.incr < 0.0 {
      assert Upper(L, 0) < Lower(L, 0);
    } else if L.incr + L.extra < 0.0 {
      assert Upper(L, L.bars - 1) < Lower(L, L.bars - 1);
    }
  }

  /** Times in ascending order never make the chart trap. */
  lemma SortedDataNeverTraps(data: seq<real>, closedLast: bool)
    requires |data| >= 4 && Sorted(data)
    ensures Divisions(data, closedLast).Done?
  {
    var L := LayoutOf(data, closedLast);
    var cnt, trim := |data|, Trim(|data|);
    assert L.kept[0] <= L.kept[|L.kept| - 1];
    assert data[cnt - trim - 1] <= data[cnt - trim];
    DivisionsNonNegative(L.kept[|L.kept| - 1] - L.kept[0], L.bars as real);
    TrapsExactly(L);
  }

  lemma DivisionsNonNegative(x: real, y: real)
    requires x >= 0.0 && y > 0.0
    ensures x / y >= 0.0
  {
  }

  lemma {:induction false} LowerRises(L: Layout, i: nat, j: nat)
    requires i < j && L.incr > 0.0
    ensures Lower(L, i) < Lower(L, j)
    decreases j
  {
    if i < j - 1 {
      LowerRises(L, i, j - 1);
    }
  }

  lemma {:induction false} LowerClimbs(L: Layout, i: nat, j: nat)
    requires i <= j && L.incr >= 0.0
    ensures Lower(L, i) <= Lower(L, j)
    decreases j
  {
    if i < j {
      LowerClimbs(L, i, j - 1);
    }
  }

  lemma {:induction false} LowerSteps(L: Layout, k: nat)
    ensures Lower(L, k) == L.first + k as real * L.incr
  {
    if k > 0 {
      LowerSteps(L, k - 1);
    }
  }

  /** With rising edges the increments hold the bars, one entry per bar. */
  lemma {:induction false} IncrementsOfRisingBars(L: Layout, n: nat)
    requires L.incr > 0.0
    ensures forall x :: x in Bars(L, n) <==> x.0 in Increments(L, n) && Increments(L, n)[x.0] == x.1
    ensures forall key :: key in Increments(L, n) ==> (key, Increments(L, n)[key]) in Bars(L, n)
  {
    if n > 0 {
      IncrementsOfRisingBars(L, n - 1);
      var prev, bars := Increments(L, n - 1), Bars(L, n - 1);
      var edge := Lower(L, n - 1);
      forall i | 0 <= i < n - 1
        ensures bars[i].0 < edge
      {
        LowerRises(L, i, n - 1);
      }
      forall key | key in prev
        ensures key < edge
      {
        var i :| 0 <= i < |bars| && bars[i] == (key, prev[key]);
      }
      assert Bars(L, n) == bars + [(edge, BarTally(L, n - 1) as int)];
    }
  }

  lemma HeadIsElement(s: seq<Division>)
    ensures s != [] ==> s[0] in s
  {
  }

  /** Two listings in strictly ascending key order with the same entries are the same. */
  lemma {:induction false} AscendingListingUnique(a: seq<Division>, b: seq<Division>)
    requires forall i, j :: 0 <= i < j < |a| ==> a[i].0 < a[j].0
    requires forall i, j :: 0 <= i < j < |b| ==> b[i].0 < b[j].0
    requires forall x :: x in a <==> x in b
    ensures a == b
    decreases |a|
  {
    if a == [] || b == [] {
      HeadIsElement(a);
      HeadIsElement(b);
    } else {
      assert a[0] in b && b[0] in a;
      assert a[0] == b[0];
      forall x
        ensures x in a[1..] <==> x in b[1..]
      {
        if x in a[1..] {
          assert x in b && x != b[0];
        }
        if x in b[1..] {
          assert x in a && x != a[0];
        }
      }
      AscendingListingUnique(a[1..], b[1..]);
    }
  }

  /** With rising edges the chart lists every bar, in order, between the two trimmed times. */
  lemma DivisionsOfRisingBars(data: seq<real>, closedLast: bool)
    requires |data| >= 4 && LayoutOf(data, closedLast).incr > 0.0 && Divisions(data, closedLast).Done?
    ensures var L, trim := LayoutOf(data, closedLast), Trim(|data|);
            Divisions(data, closedLast).value
            == [(data[trim - 1], trim as int)] + Bars(L, L.bars) + [(data[|data| - trim], trim as int)]
  {
    var L := LayoutOf(data, closedLast);
    var m := Increments(L, L.bars);
    IncrementsOfRisingBars(L, L.bars);
    var bars := Bars(L, L.bars);
    forall i, j | 0 <= i < j < |bars|
      ensures bars[i].0 < bars[j].0
    {
      LowerRises(L, i, j);
    }
    SortedEntriesCoverAll(m);
    AscendingListingUnique(SortedEntries(m), bars);
  }

  /** With flat edges (all kept times equal) the dictionary keeps one entry: the last bar's. */
  lemma {:induction false} IncrementsOfFlatBars(L: Layout, n: nat)
    requires L.incr == 0.0 && n >= 1
    ensures Increments(L, n) == map[L.first := BarTally(L, n - 1) as int]
  {
    assert Lower(L, n - 1) == L.first by {
      LowerSteps(L, n - 1);
    }
    if n > 1 {
      IncrementsOfFlatBars(L, n - 1);
    }
  }

  lemma DivisionsOfFlatBars(data: seq<real>, closedLast: bool)
    requires |data| >= 4 && LayoutOf(data, closedLast).incr == 0.0 && Divisions(data, closedLast).Done?
    ensures var L, trim := LayoutOf(data, closedLast), Trim(|data|);
            Divisions(data, closedLast).value
            == [(data[trim - 1], trim as int), (L.first, BarTally(L, L.bars - 1) as int),
                (data[|data| - trim], trim as int)]
  {
    var L := LayoutOf(data, closedLast);
    IncrementsOfFlatBars(L, L.bars);
    var m := Increments(L, L.bars);
    var r := SortedEntries(m);
    assert |r| == 1 && r[0].0 in m;
  }

  /** Splitting a bar at `mid` splits its count. */
  lemma {:induction false} CountInSplit(s: seq<real>, lo: real, mid: real, hi: real, closed: bool)
    requires lo <= mid <= hi
    ensures CountIn(s, lo, mid, false) + CountIn(s, mid, hi, closed) == CountIn(s, lo, hi, closed)
  {
    if s != [] {
      CountInSplit(s[..|s| - 1], lo, mid, hi, closed);
    }
  }

  lemma {:induction false} CountInAll(s: seq<real>, lo: real, hi: real, closed: bool)
    requires forall i :: 0 <= i < |s| ==> InBar(s[i], lo, hi, closed)
    ensures CountIn(s, lo, hi, closed) == |s|
  {
    if s != [] {
      CountInAll(s[..|s| - 1], lo, hi, closed);
    }
  }

  lemma {:induction false} CountInNone(s: seq<real>, lo: real)
    ensures CountIn(s, lo, lo, false) == 0
  {
    if s != [] {
      CountInNone(s[..|s| - 1], lo);
    }
  }

  /** The number of times the chart entries `s` count. */
  function SumCounts(s: seq<Division>): int {
    if s == [] then 0 else SumCounts(s[..|s| - 1]) + s[|s| - 1].1
  }

  lemma SumCountsOfBars(L: Layout, n: nat)
    requires n >= 1
    ensures SumCounts(Bars(L, n)) == SumCounts(Bars(L, n - 1)) + BarTally(L, n - 1)
  {
    assert Bars(L, n)[..n - 1] == Bars(L, n - 1);
  }

  /** Every bar but the last stops where the next one starts. */
  lemma TallyBeforeLast(L: Layout, k: nat)
    requires k + 1 < L.bars
    ensures BarTally(L, k) == CountIn(L.kept, Lower(L, k), Lower(L, k + 1), false)
  {
  }

  /** The bars before the last cover the kept times from the first edge up to the last bar's edge. */
  lemma {:induction false} BarsTelescope(L: Layout, n: nat)
    requires L.incr >= 0.0 && n <= L.bars - 1
    ensures SumCounts(Bars(L, n)) == CountIn(L.kept, L.first, Lower(L, n), false)
  {
    if n == 0 {
      CountInNone(L.kept, L.first);
    } else {
      BarsTelescope(L, n - 1);
      TelescopeStep(L, n);
    }
  }

  /** One more bar before the last extends the covered range to the next edge. */
  lemma TelescopeStep(L: Layout, n: nat)
    requires L.incr >= 0.0 && 1 <= n <= L.bars - 1
    requires SumCounts(Bars(L, n - 1)) == CountIn(L.kept, L.first, Lower(L, n - 1), false)
    ensures SumCounts(Bars(L, n)) == CountIn(L.kept, L.first, Lower(L, n), false)
  {
    var lo, hi := Lower(L, n - 1), Lower(L, n);
    SumCountsOfBars(L, n);
    TallyBeforeLast(L, n - 1);
    LowerClimbs(L, 0, n - 1);
    CountInSplit(L.kept, L.first, lo, hi, false);
  }

  /** The last bar's upper edge: half way from the largest kept time to the next one. */
  lemma LastUpperEdge(data: seq<real>, closedLast: bool)
    requires |data| >= 4
    ensures var L := LayoutOf(data, closedLast);
            Upper(L, L.bars - 1) == L.kept[|L.kept| - 1] + L.extra
  {
    var L := LayoutOf(data, closedLast);
    LowerSteps(L, L.bars);
    var b := L.bars as real;
    var span := L.kept[|L.kept| - 1] - L.first;
    assert b * (span / b) == span;
  }

  /** All the bars together count the kept times from the first edge to the last bar's upper edge. */
  lemma AllBarsCount(L: Layout)
    requires L.incr >= 0.0 && L.extra >= 0.0 && L.bars >= 1
    ensures SumCounts(Bars(L, L.bars)) == CountIn(L.kept, L.first, Upper(L, L.bars - 1), L.closedLast)
  {
    var last := L.bars - 1;
    var lo, hi := Lower(L, last), Upper(L, last);
    var before, tally := SumCounts(Bars(L, last)), BarTally(L, last);
    assert before == CountIn(L.kept, L.first, lo, false) by {
      BarsTelescope(L, last);
    }
    assert SumCounts(Bars(L, L.bars)) == before + tally by {
      SumCountsOfBars(L, L.bars);
    }
    assert tally == CountIn(L.kept, lo, hi, L.closedLast);
    assert L.first <= lo <= hi by {
      LowerClimbs(L, 0, last);
    }
    CountInSplit(L.kept, L.first, lo, hi, L.closedLast);
  }

  /**
   * With the times ascending, every kept time lies between the first edge and
   * the last bar's upper edge, and on that edge only when it equals the first
   * time trimmed off the top.
   */
  lemma KeptTimesInRange(data: seq<real>, closedLast: bool)
    requires |data| >= 4 && Sorted(data)
    requires closedLast || data[|data| - Trim(|data|)] > data[|data| - Trim(|data|) - 1]
    ensures var L := LayoutOf(data, closedLast);
            L.incr >= 0.0 && L.extra >= 0.0
            && CountIn(L.kept, L.first, Upper(L, L.bars - 1), closedLast) == |L.kept|
  {
    var L := LayoutOf(data, closedLast);
    var trim := Trim(|data|);
    var ld := L.kept[|L.kept| - 1];
    assert data[|data| - trim - 1] == ld;
    assert L.extra >= 0.0;
    assert L.incr >= 0.0 by {
      assert L.first <= ld;
      DivisionsNonNegative(ld - L.first, L.bars as real);
    }
    LastUpperEdge(data, closedLast);
    var top := Upper(L, L.bars - 1);
    forall i | 0 <= i < |L.kept|
      ensures InBar(L.kept[i], L.first, top, closedLast)
    {
      assert L.first <= L.kept[i] <= ld;
    }
    CountInAll(L.kept, L.first, top, closedLast);
  }

  /**
   * With the times ascending, the bars count every kept time once when the last
   * bar includes its upper edge, or when the first time trimmed off the top is
   * above the largest kept time.
   */
  lemma BarsCountEveryTime(data: seq<real>, closedLast: bool)
    requires |data| >= 4 && Sorted(data)
    requires closedLast || data[|data| - Trim(|data|)] > data[|data| - Trim(|data|) - 1]
    ensures Divisions(data, closedLast).Done?
    ensures var r := Divisions(data, closedLast).value;
            SumCounts(r[1..|r| - 1]) == |data| - 2 * Trim(|data|)
  {
    SortedDataNeverTraps(data, closedLast);
    var L := LayoutOf(data, closedLast);
    var r := Divisions(data, closedLast).value;
    var covered := CountIn(L.kept, L.first, Upper(L, L.bars - 1), closedLast);
    assert L.incr >= 0.0 && L.extra >= 0.0 && covered == |L.kept| by {
      KeptTimesInRange(data, closedLast);
    }
    if L.incr > 0.0 {
      assert r[1..|r| - 1] == Bars(L, L.bars) by {
        DivisionsOfRisingBars(data, closedLast);
      }
      AllBarsCount(L);
    } else {
      assert r[1..|r| - 1] == [(L.first, BarTally(L, L.bars - 1) as int)] by {
        DivisionsOfFlatBars(data, closedLast);
      }
      FlatLastBar(L);
    }
  }

  /**
   * With the times ascending, the bars never count more than the kept times,
   * whichever way the last bar ends; as written a repeated top time can make
   * them count fewer.
   */
  lemma BarsCountAtMostKept(data: seq<real>, closedLast: bool)
    requires |data| >= 4 && Sorted(data)
    ensures Divisions(data, closedLast).Done?
    ensures var r := Divisions(data, closedLast).value;
            SumCounts(r[1..|r| - 1]) <= |data| - 2 * Trim(|data|)
  {
    SortedDataNeverTraps(data, closedLast);
    var L := LayoutOf(data, closedLast);
    var r := Divisions(data, closedLast).value;
    var trim := Trim(|data|);
    var ld := L.kept[|L.kept| - 1];
    assert L.extra >= 0.0 by {
      assert data[|data| - trim - 1] == ld;
      assert ld <= data[|data| - trim];
    }
    assert L.incr >= 0.0 by {
      assert L.first <= ld;
      DivisionsNonNegative(ld - L.first, L.bars as real);
    }
    var covered := CountIn(L.kept, L.first, Upper(L, L.bars - 1), closedLast);
    assert covered <= |L.kept|;
    if L.incr > 0.0 {
      assert r[1..|r| - 1] == Bars(L, L.bars) by {
        DivisionsOfRisingBars(data, closedLast);
      }
      AllBarsCount(L);
    } else {
      assert r[1..|r| - 1] == [(L.first, BarTally(L, L.bars - 1) as int)] by {
        DivisionsOfFlatBars(data, closedLast);
      }
      FlatLastBar(L);
    }
  }

  /** With no width, the single distinct bar is the last one, reaching from the first edge. */
  lemma FlatLastBar(L: Layout)
    requires L.incr == 0.0 && L.bars >= 1
    ensures SumCounts([(L.first, BarTally(L, L.bars - 1) as int)])
            == CountIn(L.kept, L.first, Upper(L, L.bars - 1), L.closedLast)
  {
    LowerSteps(L, L.bars - 1);
    assert SumCounts([(L.first, BarTally(L, L.bars - 1) as int)]) == BarTally(L, L.bars - 1) as int;
  }

  /**
   * As written, the last bar stops short of its upper edge, so a largest kept
   * time equal to the first time trimmed off the top falls in no bar: of the two
   * times kept from 1, 2, 3, 3 the chart counts one.
   */
  lemma RepeatedTopTimeDropped()
    ensures Divisions([1.0, 2.0, 3.0, 3.0], false)
            == Done([(1.0, 1), (2.0, 1), (2.25, 0), (2.5, 0), (2.75, 0), (3.0, 1)])
    ensures Divisions([1.0, 2.0, 3.0, 3.0], true)
            == Done([(1.0, 1), (2.0, 1), (2.25, 0), (2.5, 0), (2.75, 1), (3.0, 1)])
  {
    ExampleDivisions(false);
    ExampleDivisions(true);
  }

  lemma ExampleDivisions(closedLast: bool)
    ensures Divisions([1.0, 2.0, 3.0, 3.0], closedLast)
            == Done([(1.0, 1), (2.0, 1), (2.25, 0), (2.5, 0), (2.75, if closedLast then 1 else 0), (3.0, 1)])
  {
    var data := [1.0, 2.0, 3.0, 3.0];
    var L := Layout([2.0, 3.0], 2.0, 0.25, 4, 0.0, closedLast);
    assert LayoutOf(data, closedLast) == L by {
      assert Trim(4) == 1;
      assert data[1..3] == [2.0, 3.0];
    }
    assert Divisions(data, closedLast).Done? by {
      SortedDataNeverTraps(data, closedLast);
    }
    DivisionsOfRisingBars(data, closedLast);
    ExampleBars(L);
    assert Trim(|data|) == 1 && data[0] == 1.0 && data[3] == 3.0;
    var last := if closedLast then 1 else 0;
    assert Divisions(data, closedLast).value == [(1.0, 1)] + Bars(L, 4) + [(3.0, 1)];
    assert [(1.0, 1)] + [(2.0, 1), (2.25, 0), (2.5, 0), (2.75, last)] + [(3.0, 1)]
           == [(1.0, 1), (2.0, 1), (2.25, 0), (2.5, 0), (2.75, last), (3.0, 1)];
  }

  lemma ExampleBars(L: Layout)
    requires L == Layout([2.0, 3.0], 2.0, 0.25, 4, 0.0, L.closedLast)
    ensures Bars(L, 4) == [(2.0, 1), (2.25, 0), (2.5, 0), (2.75, if L.closedLast then 1 else 0)]
  {
    var kept := [2.0, 3.0];
    assert kept[..1] == [2.0];
    assert Lower(L, 1) == 2.25 && Lower(L, 2) == 2.5 && Lower(L, 3) == 2.75;
    assert BarTally(L, 0) == 1 by {
      assert CountIn(kept, 2.0, 2.25, false) == 1;
    }
    assert BarTally(L, 1) == 0 by {
      assert CountIn(kept, 2.25, 2.5, false) == 0;
    }
    assert BarTally(L, 2) == 0 by {
      assert CountIn(kept, 2.5, 2.75, false) == 0;
    }
    assert BarTally(L, 3) == if L.closedLast then 1 else 0 by {
      assert Upper(L, 3) == 3.0;
      assert CountIn(kept, 2.75, 3.0, L.closedLast) == if L.closedLast then 1 else 0;
    }
  }

  /** The largest of a non-empty list of counts (`max()`). */
  function MaxOf(s: seq<int>): (m: int)
    requires s != []
    ensures m in s && forall x :: x in s ==> x <= m
  {
    if |s| == 1 then s[0]
    else
      var rest := MaxOf(s[1..]);
      assert forall x :: x in s ==> x == s[0] || x in s[1..];
      if s[0] >= rest then s[0] else rest
  }

  /**
   * `getMaxHeight(occurences:)`: the tallest bar once there are four or more,
   * otherwise 1. The list is never empty when `max()` is taken, so no nil comes out.
   */
  function GetMaxHeight(occurrences: seq<int>): (r: Option<int>)
    ensures |occurrences| >= 4 ==> r.Some? && r.value in occurrences
                                   && forall x :: x in occurrences ==> x <= r.value
    ensures |occurrences| < 4 ==> r == Some(1)
  {
    if |occurrences| >= 4 then Some(MaxOf(occurrences)) else Some(1)
  }

  /** `getTruncatedMinMax(numbers:)`: the second and second-to-last edges of six or more entries. */
  function GetTruncatedMinMax(numbers: seq<Division>): (r: (Option<real>, Option<real>))
    ensures |numbers| >= 6 ==> r.0 == Some(numbers[1].0) && r.1 == Some(numbers[|numbers| - 2].0)
    ensures |numbers| < 6 ==> r == (None, None)
  {
    if |numbers| >= 6 then
      var truncated := numbers[1..|numbers| - 1];
      (Some(truncated[0].0), Some(truncated[|truncated| - 1].0))
    else (None, None)
  }

  /**
   * On the chart's own entries, the truncated minimum and maximum are the lower
   * edges of the first and last bars when the edges rise, and absent when they
   * are flat.
   */
  lemma TruncatedMinMaxOfDivisions(data: seq<real>)
    requires |data| >= 4 && Divisions(data, false).Done?
    ensures var L, r := LayoutOf(data, false), Divisions(data, false).value;
            && (L.incr > 0.0 ==> GetTruncatedMinMax(r) == (Some(L.first), Some(Lower(L, L.bars - 1)))
                                 && L.first < Lower(L, L.bars - 1))
            && (L.incr == 0.0 ==> GetTruncatedMinMax(r) == (None, None))
  {
    var L := LayoutOf(data, false);
    if L.incr > 0.0 {
      DivisionsOfRisingBars(data, false);
      LowerRises(L, 0, L.bars - 1);
    } else if L.incr == 0.0 {
      DivisionsOfFlatBars(data, false);
    }
  }
}
