/**
 * The solve-time logic of Helper.swift, which belongs to CubeTime's earlier code
 * generation (`PenTypes`, `Solves`): the average of a five-solve competition
 * simulation group and the parsing of `m:ss.cc` text into seconds.
 */
module Helper {
  import opened Wrappers

  /** `PenTypes`, raw values 0, 1 and 2. */
  datatype PenTypes = NoPenalty | PlusTwo | Dnf

  /**
   * `Solves`, a persisted solve of the earlier generation. `id` stands for the
   * identity of the persisted object, so two solves with equal times stay distinct.
   */
  datatype Solves = Solves(
    id: nat,
    time: real,
    penalty: PenTypes,
    date: int,
    scramble: Option<string>,
    phases: Option<seq<real>>)

  /** The earlier generation's `CalculatedAverage`, as `getAvgOfSolveGroup` fills it in. */
  datatype CalculatedAverage = CalculatedAverage(
    id: string,
    average: real,
    accountedSolves: seq<Solves>,
    totalPen: PenTypes,
    trimmedSolves: seq<Solves>)

  /** The number of DNF solves in `s` (`filter { $0.penalty == dnf }.count`). */
  function DnfCount(s: seq<Solves>): (n: nat)
    ensures n <= |s|
  {
    if s == [] then 0 else (if s[0].penalty == Dnf then 1 else 0) + DnfCount(s[1..])
  }

  lemma {:induction false} DnfCountConcat(a: seq<Solves>, b: seq<Solves>)
    ensures DnfCount(a + b) == DnfCount(a) + DnfCount(b)
  {
    if a == [] {
      assert a + b == b;
    } else {
      assert (a + b)[1..] == a[1..] + b;
      DnfCountConcat(a[1..], b);
    }
  }

  /** Taking the solve at `k` out of `b` takes one copy of it out of the multiset. */
  lemma RemoveAtMultiset(b: seq<Solves>, k: nat)
    requires k < |b|
    ensures multiset(b[..k] + b[k + 1..]) == multiset(b) - multiset{b[k]}
  {
    assert b == b[..k] + ([b[k]] + b[k + 1..]);
    assert multiset(b) == multiset(b[..k]) + multiset{b[k]} + multiset(b[k + 1..]);
  }

  /** Taking the solve at `k` out of `b` takes its DNF, if it is one, out of the count. */
  lemma DnfCountRemoveAt(b: seq<Solves>, k: nat)
    requires k < |b|
    ensures DnfCount(b) == DnfCount(b[..k] + b[k + 1..]) + (if b[k].penalty == Dnf then 1 else 0)
  {
    assert b == b[..k] + ([b[k]] + b[k + 1..]);
    DnfCountConcat(b[..k], [b[k]] + b[k + 1..]);
    DnfCountConcat([b[k]], b[k + 1..]);
    DnfCountConcat(b[..k], b[k + 1..]);
  }

  /** Reordering a list of solves does not change how many of them are DNFs. */
  lemma {:induction false} DnfCountPermutation(a: seq<Solves>, b: seq<Solves>)
    requires multiset(a) == multiset(b)
    ensures DnfCount(a) == DnfCount(b)
    decreases |a|
  {
    if a == [] {
      assert |b| == |multiset(b)| == 0;
    } else {
      var k := IndexIn(a[0], b);
      var rest := b[..k] + b[k + 1..];
      RemoveAtMultiset(b, k);
      assert a == [a[0]] + a[1..];
      assert multiset(a[1..]) == multiset(rest);
      DnfCountPermutation(a[1..], rest);
      DnfCountRemoveAt(b, k);
    }
  }

  lemma IndexIn(x: Solves, b: seq<Solves>) returns (k: nat)
    requires x in multiset(b)
    ensures k < |b| && b[k] == x
  {
    assert x in b;
    k :| 0 <= k < |b| && b[k] == x;
  }

  /** `reduce(0, { $0 + f($1) })`. */
  function SumOf(s: seq<Solves>, f: Solves -> real): real {
    if s == [] then 0.0 else f(s[0]) + SumOf(s[1..], f)
  }

  lemma {:induction false} SumOfConcat(a: seq<Solves>, b: seq<Solves>, f: Solves -> real)
    ensures SumOf(a + b, f) == SumOf(a, f) + SumOf(b, f)
  {
    if a == [] {
      assert a + b == b;
    } else {
      assert (a + b)[1..] == a[1..] + b;
      SumOfConcat(a[1..], b, f);
    }
  }

  /**
   * `getAvgOfSolveGroup`. `sorted` is what `Stats.sortWithDNFsLast` makes of the
   * group (only its being a reordering is assumed) and `timeWithPlusTwo` stands
   * for `timeWithPlusTwoForSolve`; neither body is part of this model.
   */
  function GetAvgOfSolveGroup(solves: seq<Solves>, sorted: seq<Solves>, timeWithPlusTwo: Solves -> real)
    : (r: Option<CalculatedAverage>)
    requires multiset(sorted) == multiset(solves)
    ensures r.None? <==> |solves| < 5
    ensures r.Some? ==> r.value.trimmedSolves == [sorted[0], sorted[|sorted| - 1]]
    ensures r.Some? ==> r.value.accountedSolves == sorted && multiset(r.value.accountedSolves) == multiset(solves)
    ensures r.Some? ==> (r.value.totalPen == Dnf <==> DnfCount(solves) >= 2)
    ensures r.Some? ==> r.value.totalPen != PlusTwo
  {
    if |solves| < 5 then None
    else
      var trim := 1;
      assert |sorted| == |multiset(sorted)| == |solves|;
      var trimmedSolves := sorted[..trim] + sorted[|sorted| - trim..];
      DnfCountPermutation(sorted, solves);
      Some(CalculatedAverage(
        "Comp Sim",
        SumOf(sorted[trim..|sorted| - trim], timeWithPlusTwo) / 3.0,
        sorted,
        if DnfCount(sorted) >= trim * 2 then Dnf else NoPenalty,
        trimmedSolves))
  }

  /**
   * Round trip: the accounted solves minus the two trimmed ones give back three
   * times the average, whatever the size of the group.
   */
  lemma GroupAverageRoundTrip(solves: seq<Solves>, sorted: seq<Solves>, f: Solves -> real)
    requires multiset(sorted) == multiset(solves) && |solves| >= 5
    ensures var avg := GetAvgOfSolveGroup(solves, sorted, f).value;
            avg.average * 3.0
            == SumOf(avg.accountedSolves, f) - f(avg.trimmedSolves[0]) - f(avg.trimmedSolves[1])
  {
    assert |sorted| == |multiset(sorted)| == |solves|;
    var n := |sorted|;
    assert sorted == [sorted[0]] + (sorted[1..n - 1] + [sorted[n - 1]]);
    SumOfConcat([sorted[0]], sorted[1..n - 1] + [sorted[n - 1]], f);
    SumOfConcat(sorted[1..n - 1], [sorted[n - 1]], f);
  }

  /**
   * For a full group of five the divisor 3 is the number of kept solves: the
   * average is the mean of the middle three of the sorted group.
   */
  lemma GroupOfFiveAverage(solves: seq<Solves>, sorted: seq<Solves>, f: Solves -> real)
    requires multiset(sorted) == multiset(solves) && |solves| == |sorted| == 5
    ensures GetAvgOfSolveGroup(solves, sorted, f).value.average
            == (f(sorted[1]) + f(sorted[2]) + f(sorted[3])) / 3.0
  {
    var mid := sorted[1..|sorted| - 1];
    assert mid == [sorted[1], sorted[2], sorted[3]];
    assert mid[1..] == [sorted[2], sorted[3]];
    assert mid[1..][1..] == [sorted[3]];
    assert mid[1..][1..][1..] == [];
    assert SumOf(mid[1..][1..][1..], f) == 0.0;
    assert SumOf(mid[1..][1..], f) == f(sorted[3]);
    assert SumOf(mid[1..], f) == f(sorted[2]) + f(sorted[3]);
    assert SumOf(mid, f) == f(sorted[1]) + f(sorted[2]) + f(sorted[3]);
  }

  // ---- text to seconds ----

  predicate IsDigit(c: char) {
    '0' <= c <= '9'
  }

  predicate AllDigits(s: string) {
    forall i :: 0 <= i < |s| ==> IsDigit(s[i])
  }

  /** The number written by a string of decimal digits. */
  function DigitsValue(s: string): nat
    requires AllDigits(s)
  {
    if s == [] then 0 else DigitsValue(s[..|s| - 1]) * 10 + (s[|s| - 1] as int - '0' as int)
  }

  function Pow10(k: nat): (p: nat)
    ensures p >= 1
  {
    if k == 0 then 1 else 10 * Pow10(k - 1)
  }

  lemma AllDigitsConcat(a: string, b: string)
    requires AllDigits(a) && AllDigits(b)
    ensures AllDigits(a + b)
  {
    forall i | 0 <= i < |a + b| ensures IsDigit((a + b)[i]) {
      if i >= |a| { assert (a + b)[i] == b[i - |a|]; }
    }
  }

  lemma ShiftStep(x: int, p: int, f: int, d: int)
    ensures (x * p + f) * 10 + d == x * (p * 10) + (f * 10 + d)
  {
    assert (x * p + f) * 10 == x * p * 10 + f * 10;
  }

  /** Appending digits shifts the value of the leading digits. */
  lemma {:induction false} DigitsValueConcat(a: string, b: string)
    requires AllDigits(a) && AllDigits(b)
    ensures AllDigits(a + b)
    ensures DigitsValue(a + b) == DigitsValue(a) * Pow10(|b|) + DigitsValue(b)
    decreases |b|
  {
    AllDigitsConcat(a, b);
    if b != [] {
      var c := a + b;
      var front := b[..|b| - 1];
      assert c[..|c| - 1] == a + front;
      assert c[|c| - 1] == b[|b| - 1];
      DigitsValueConcat(a, front);
      ShiftStep(DigitsValue(a), Pow10(|front|), DigitsValue(front), b[|b| - 1] as int - '0' as int);
    } else {
      assert a + b == a;
    }
  }

  /** `components(separatedBy:)` with a one-character separator. */
  function Split(s: string, sep: char): (parts: seq<string>)
    ensures |parts| >= 1
    ensures Join(parts, sep) == s
    ensures forall i :: 0 <= i < |parts| ==> sep !in parts[i]
  {
    if s == [] then [[]]
    else
      var rest := Split(s[1..], sep);
      if s[0] == sep then
        [[]] + rest
      else
        JoinConsHead(s[0], rest, sep);
        [[s[0]] + rest[0]] + rest[1..]
  }

  /** Puts `sep` between consecutive parts. */
  function Join(parts: seq<string>, sep: char): string {
    if |parts| == 0 then []
    else if |parts| == 1 then parts[0]
    else parts[0] + [sep] + Join(parts[1..], sep)
  }

  lemma JoinConsHead(c: char, parts: seq<string>, sep: char)
    requires |parts| >= 1
    ensures Join([[c] + parts[0]] + parts[1..], sep) == [c] + Join(parts, sep)
  {
    var q := [[c] + parts[0]] + parts[1..];
    assert q[1..] == parts[1..];
  }

  /** Text without the separator is one component. */
  lemma {:induction false} SplitWithoutSeparator(s: string, sep: char)
    requires sep !in s
    ensures Split(s, sep) == [s]
  {
    if s != [] {
      SplitWithoutSeparator(s[1..], sep);
    }
  }

  /** Text with one separator is the two components around it. */
  lemma {:induction false} SplitAtSeparator(a: string, b: string, sep: char)
    requires sep !in a && sep !in b
    ensures Split(a + [sep] + b, sep) == [a, b]
  {
    if a == [] {
      assert a + [sep] + b == [sep] + b;
      assert ([sep] + b)[1..] == b;
      SplitWithoutSeparator(b, sep);
    } else {
      assert (a + [sep] + b)[1..] == a[1..] + [sep] + b;
      SplitAtSeparator(a[1..], b, sep);
      assert [a[0]] + a[1..] == a;
    }
  }

  /** Largest `UInt` plus one. */
  const UIntLimit: nat := 0x1_0000_0000_0000_0000

  /**
   * `UInt(_: String)`: an optional sign and one or more decimal digits, within
   * range. A '-' is accepted too, but only a value of zero survives it.
   */
  function ParseUInt(s: string): (r: Option<nat>)
    ensures r.Some? ==> r.value < UIntLimit
    ensures s != [] && AllDigits(s) && DigitsValue(s) < UIntLimit ==> r == Some(DigitsValue(s))
    ensures |s| > 1 && s[0] == '+' && AllDigits(s[1..]) && DigitsValue(s[1..]) < UIntLimit
            ==> r == Some(DigitsValue(s[1..]))
    ensures |s| > 1 && s[0] == '-' && AllDigits(s[1..]) ==> r == (if DigitsValue(s[1..]) == 0 then Some(0) else None)
    ensures s == [] || s == "+" || s == "-" ==> r == None
  {
    var negative := |s| > 0 && s[0] == '-';
    var digits := if |s| > 0 && (s[0] == '+' || negative) then s[1..] else s;
    if digits != [] && AllDigits(digits) && DigitsValue(digits) < UIntLimit && (!negative || DigitsValue(digits) == 0)
    then Some(DigitsValue(digits))
    else None
  }

  /** The value of the decimal text `whole.frac`. */
  function DecimalValue(whole: string, frac: string): real
    requires AllDigits(whole) && AllDigits(frac)
  {
    DigitsValue(whole) as real + DigitsValue(frac) as real / Pow10(|frac|) as real
  }

  /** Digits with at most one '.', and at least one digit. */
  function ParseUnsignedDecimal(s: string): (r: Option<real>)
    ensures r.Some? ==> r.value >= 0.0
  {
    var parts := Split(s, '.');
    if |parts| == 1 then
      if s != [] && AllDigits(s) then Some(DigitsValue(s) as real) else None
    else if |parts| == 2 && AllDigits(parts[0]) && AllDigits(parts[1]) && |parts[0]| + |parts[1]| > 0 then
      Some(DecimalValue(parts[0], parts[1]))
    else None
  }

  /** `Double(_: String)` for plain decimal notation with an optional sign. */
  function ParseDouble(s: string): (r: Option<real>)
    ensures |s| > 0 && s[0] == '-' ==> r == (match ParseUnsignedDecimal(s[1..])
                                            case Some(v) => Some(-v)
                                            case None => None)
    ensures |s| > 0 && s[0] != '-' && s[0] != '+' ==> r == ParseUnsignedDecimal(s)
  {
    if |s| > 0 && (s[0] == '+' || s[0] == '-') then
      match ParseUnsignedDecimal(s[1..])
      case Some(v) => Some(if s[0] == '-' then -v else v)
      case None => None
    else ParseUnsignedDecimal(s)
  }

  /** A "digits.digits" text reads as the whole part plus the scaled fraction. */
  lemma ParseDecimalText(whole: string, frac: string)
    requires AllDigits(whole) && AllDigits(frac) && |whole| + |frac| > 0
    ensures ParseDouble(whole + "." + frac) == Some(DecimalValue(whole, frac))
  {
    NoSeparatorInDigits(whole, '.');
    NoSeparatorInDigits(frac, '.');
    var s := whole + "." + frac;
    SplitAtSeparator(whole, frac, '.');
    var parts := Split(s, '.');
    assert parts == [whole, frac];
    assert |parts| == 2 && parts[0] == whole && parts[1] == frac;
    assert ParseUnsignedDecimal(s) == Some(DecimalValue(whole, frac));
    assert s[0] != '+' && s[0] != '-' by {
      if |whole| > 0 { assert s[0] == whole[0] && IsDigit(whole[0]); } else { assert s[0] == '.'; }
    }
  }

  lemma NoSeparatorInDigits(s: string, sep: char)
    requires AllDigits(s) && !IsDigit(sep)
    ensures sep !in s
  {
    forall i | 0 <= i < |s| ensures s[i] != sep {
      assert IsDigit(s[i]);
    }
  }

  /**
   * `timeFromStr`: empty text is no time; otherwise minutes before a ':' (which
   * must parse, or the force unwrap traps) and seconds from the last component,
   * zero when they do not parse.
   */
  function TimeFromStr(formattedTime: string): (r: Outcome<Option<real>>)
    ensures r == Done(None) <==> formattedTime == []
    ensures r == Trap <==> |Split(formattedTime, ':')| > 1 && ParseUInt(Split(formattedTime, ':')[0]).None?
  {
    if formattedTime == [] then Done(None)
    else
      var separated := Split(formattedTime, ':');
      var mins := if |separated| > 1 then ParseUInt(separated[0]) else Some(0);
      match mins
      case None => Trap
      case Some(m) =>
        var secs := ParseDouble(separated[|separated| - 1]).GetOr(0.0);
        Done(Some(m as real * 60.0 + secs))
  }

  /** Without ':' the whole text is the seconds, zero when it does not parse. */
  lemma TimeFromStrSeconds(s: string)
    requires s != [] && ':' !in s
    ensures TimeFromStr(s) == Done(Some(ParseDouble(s).GetOr(0.0)))
  {
    SplitWithoutSeparator(s, ':');
  }

  /** With one ':' the text is minutes times sixty plus the seconds after it. */
  lemma TimeFromStrMinutes(mins: string, secs: string)
    requires mins != [] && AllDigits(mins) && DigitsValue(mins) < UIntLimit && ':' !in secs
    ensures TimeFromStr(mins + ":" + secs)
            == Done(Some(DigitsValue(mins) as real * 60.0 + ParseDouble(secs).GetOr(0.0)))
  {
    NoSeparatorInDigits(mins, ':');
    var t := mins + ":" + secs;
    SplitAtSeparator(mins, secs, ':');
    var separated := Split(t, ':');
    assert separated == [mins, secs];
    assert ParseUInt(separated[0]) == Some(DigitsValue(mins));
  }

  /**
   * Minutes written as '-' and zeros are zero minutes, not a trap: "-0:5"
   * reads as five seconds.
   */
  lemma TimeFromStrNegativeZeroMinutes(zeros: string, secs: string)
    requires zeros != [] && AllDigits(zeros) && DigitsValue(zeros) == 0 && ':' !in secs
    ensures TimeFromStr("-" + zeros + ":" + secs) == Done(Some(ParseDouble(secs).GetOr(0.0)))
  {
    var mins := "-" + zeros;
    NoSeparatorInDigits(zeros, ':');
    assert ':' !in mins by {
      assert forall i :: 1 <= i < |mins| ==> mins[i] == zeros[i - 1];
    }
    SplitAtSeparator(mins, secs, ':');
    assert "-" + zeros + ":" + secs == mins + ":" + secs;
    assert mins[1..] == zeros;
    assert ParseUInt(mins) == Some(0);
  }

  /** The concrete case: `timeFromStr("-0:5")` is 5 s. */
  lemma TimeFromStrMinusZeroExample()
    ensures TimeFromStr("-0:5") == Done(Some(5.0))
  {
    assert ParseDouble("5") == Some(5.0) by {
      SplitWithoutSeparator("5", '.');
    }
    TimeFromStrNegativeZeroMinutes("0", "5");
    assert "-" + "0" + ":" + "5" == "-0:5";
  }
}
