/**
 * The solve-time model of CubeTime's current code generation: penalties, a solve
 * whose penalty can be changed in place, the penalty-adjusted times and the three
 * hand-written `<` operators on solves, averages and calculated averages.
 */
module Models {
  import opened Wrappers

  /** `Penalty`, raw values 0, 1 and 2. */
  datatype Penalty = NoPenalty | PlusTwo | Dnf

  /** A time in seconds that may be `Double.infinity`. */
  datatype ExtendedTime = Finite(secs: real) | Infinity

  /**
   * A persisted solve. Its time and date never change after creation; its
   * penalty is edited in place while the object is shared by several arrays.
   */
  class Solve {
    const time: real
    const date: int
    var penalty: Penalty

    constructor (time: real, date: int, penalty: Penalty)
      ensures this.time == time && this.date == date && this.penalty == penalty
    {
      this.time := time;
      this.date := date;
      this.penalty := penalty;
    }
  }

  /** `timeIncPen`: two seconds are added for a +2; a DNF keeps its raw time. */
  function TimeIncPen(s: Solve): (t: real)
    reads s
    ensures s.penalty == PlusTwo ==> t == s.time + 2.0
    ensures s.penalty != PlusTwo ==> t == s.time
  {
    s.time + (if s.penalty == PlusTwo then 2.0 else 0.0)
  }

  /** `timeIncPenDNFMax`: like `timeIncPen`, but a DNF is infinitely slow. */
  function TimeIncPenDnfMax(s: Solve): (t: ExtendedTime)
    reads s
    ensures t.Infinity? <==> s.penalty == Dnf
    ensures t.Finite? ==> t.secs == TimeIncPen(s)
  {
    if s.penalty == Dnf then Infinity
    else Finite(s.time + (if s.penalty == PlusTwo then 2.0 else 0.0))
  }

  /** `Solve <`: compares the +2-adjusted times only. */
  predicate SolveLess(lhs: Solve, rhs: Solve)
    reads lhs, rhs
  {
    TimeIncPen(lhs) < TimeIncPen(rhs)
  }

  /** `Solve >`, written separately in the source. */
  predicate SolveGreater(lhs: Solve, rhs: Solve)
    reads lhs, rhs
  {
    TimeIncPen(lhs) > TimeIncPen(rhs)
  }

  /** `>` is exactly `<` with its operands swapped. */
  lemma SolveGreaterIsConverse(a: Solve, b: Solve)
    ensures SolveGreater(a, b) <==> SolveLess(b, a)
  {
  }

  /** `Solve <` is a strict weak order on the +2-adjusted time. */
  lemma SolveLessStrictWeakOrder(a: Solve, b: Solve, c: Solve)
    ensures !SolveLess(a, a)
    ensures SolveLess(a, b) ==> !SolveLess(b, a)
    ensures SolveLess(a, b) && SolveLess(b, c) ==> SolveLess(a, c)
    ensures !SolveLess(a, b) && !SolveLess(b, a) && !SolveLess(b, c) && !SolveLess(c, b)
            ==> !SolveLess(a, c) && !SolveLess(c, a)
  {
  }

  /**
   * A DNF is not placed last by `Solve <`: it is ordered by its raw time, so a
   * DNF with a smaller raw time comes before a finished solve.
   */
  lemma SolveLessOrdersDnfByRawTime(d: Solve, f: Solve)
    requires d.penalty == Dnf && f.penalty != Dnf
    ensures SolveLess(d, f) <==> d.time < TimeIncPen(f)
    ensures TimeIncPenDnfMax(d).Infinity? && TimeIncPenDnfMax(f).Finite?
  {
  }

  /** `Average`: a value with the penalty of the whole average. */
  datatype Average = Average(average: real, penalty: Penalty)

  /** `Average <`: a DNF is never less; anything else is less than a DNF. */
  predicate AverageLess(lhs: Average, rhs: Average) {
    if lhs.penalty == Dnf then false
    else if rhs.penalty == Dnf then true
    else lhs.average < rhs.average
  }

  /** How `Average <` places DNFs: last, and all equivalent to each other. */
  lemma AverageLessDnfLast(a: Average, b: Average)
    ensures a.penalty == Dnf ==> !AverageLess(a, b)
    ensures a.penalty != Dnf && b.penalty == Dnf ==> AverageLess(a, b)
    ensures a.penalty != Dnf && b.penalty != Dnf ==> (AverageLess(a, b) <==> a.average < b.average)
  {
  }

  /** `Average <` is irreflexive, asymmetric, transitive, and its incomparability is transitive. */
  lemma AverageLessStrictWeakOrder(a: Average, b: Average, c: Average)
    ensures !AverageLess(a, a)
    ensures AverageLess(a, b) ==> !AverageLess(b, a)
    ensures AverageLess(a, b) && AverageLess(b, c) ==> AverageLess(a, c)
    ensures !AverageLess(a, b) && !AverageLess(b, a) && !AverageLess(b, c) && !AverageLess(c, b)
            ==> !AverageLess(a, c) && !AverageLess(c, a)
  {
  }

  /** `CalculatedAverage`: a named average with the solves it was computed from. */
  datatype CalculatedAverage = CalculatedAverage(
    name: string,
    average: Option<real>,
    accountedSolves: Option<seq<Solve>>,
    totalPen: Penalty,
    trimmedSolves: Option<seq<Solve>>)

  /**
   * `CalculatedAverage <`: a DNF average is less than a non-DNF one; within the
   * same DNF status the averages compare, a missing average being greatest.
   */
  predicate CalculatedAverageLess(lhs: CalculatedAverage, rhs: CalculatedAverage) {
    if lhs.totalPen == Dnf && rhs.totalPen != Dnf then true
    else if lhs.totalPen != Dnf && rhs.totalPen == Dnf then false
    else
      match lhs.average
      case Some(l) => (match rhs.average
                       case Some(r) => l < r
                       case None => true)
      case None => false
  }

  /** How `CalculatedAverage <` places DNFs (first) and missing averages (last in their class). */
  lemma CalculatedAverageLessDnfFirst(a: CalculatedAverage, b: CalculatedAverage)
    ensures a.totalPen == Dnf && b.totalPen != Dnf ==> CalculatedAverageLess(a, b)
    ensures a.totalPen != Dnf && b.totalPen == Dnf ==> !CalculatedAverageLess(a, b)
    ensures (a.totalPen == Dnf) == (b.totalPen == Dnf) ==>
              (CalculatedAverageLess(a, b) <==>
                 a.average.Some? && (b.average.Some? ==> a.average.value < b.average.value))
  {
  }

  /** `CalculatedAverage <` is a strict weak order too, only with DNFs at the other end. */
  lemma CalculatedAverageLessStrictWeakOrder(a: CalculatedAverage, b: CalculatedAverage, c: CalculatedAverage)
    ensures !CalculatedAverageLess(a, a)
    ensures CalculatedAverageLess(a, b) ==> !CalculatedAverageLess(b, a)
    ensures CalculatedAverageLess(a, b) && CalculatedAverageLess(b, c) ==> CalculatedAverageLess(a, c)
    ensures !CalculatedAverageLess(a, b) && !CalculatedAverageLess(b, a)
            && !CalculatedAverageLess(b, c) && !CalculatedAverageLess(c, b)
            ==> !CalculatedAverageLess(a, c) && !CalculatedAverageLess(c, a)
  {
  }

  /**
   * The two average orders disagree on DNFs: the same DNF value that `Average <`
   * puts after a finished one, `CalculatedAverage <` puts before it.
   */
  lemma AverageOrdersDisagreeOnDnf(x: real, y: real, name: string)
    ensures var dnf := CalculatedAverage(name, Some(x), None, Dnf, None);
            var fin := CalculatedAverage(name, Some(y), None, NoPenalty, None);
            CalculatedAverageLess(dnf, fin) && !CalculatedAverageLess(fin, dnf)
    ensures AverageLess(Average(y, NoPenalty), Average(x, Dnf)) && !AverageLess(Average(x, Dnf), Average(y, NoPenalty))
  {
  }

  /** Solves ordered from the latest date to the earliest. */
  ghost predicate DateDescending(s: seq<Solve>) {
    forall i, j :: 0 <= i < j < |s| ==> s[i].date >= s[j].date
  }

  /** One step of `sorted(by: { $0.date! > $1.date! })`: places `x` into a date-descending list. */
  function InsertByDateDescending(x: Solve, s: seq<Solve>): (r: seq<Solve>)
    requires DateDescending(s)
    ensures DateDescending(r)
    ensures multiset(r) == multiset(s) + multiset{x}
  {
    if s == [] || x.date > s[0].date then
      [x] + s
    else
      var rest := InsertByDateDescending(x, s[1..]);
      BoundedByHead(x, s, rest);
      assert s == [s[0]] + s[1..];
      [s[0]] + rest
  }

  /** Everything inserted behind the head of a date-descending list is no later than that head. */
  lemma BoundedByHead(x: Solve, s: seq<Solve>, rest: seq<Solve>)
    requires s != [] && DateDescending(s) && x.date <= s[0].date
    requires multiset(rest) == multiset(s[1..]) + multiset{x}
    ensures forall i :: 0 <= i < |rest| ==> rest[i].date <= s[0].date
  {
    forall i | 0 <= i < |rest| ensures rest[i].date <= s[0].date {
      assert rest[i] in multiset(rest);
      if rest[i] != x {
        assert rest[i] in multiset(s[1..]);
        var k :| 0 <= k < |s[1..]| && s[1..][k] == rest[i];
        assert s[k + 1] == rest[i];
      }
    }
  }

  /** `CompSimSolveGroup.orderedSolves`: the group's solves, latest first. */
  function OrderedSolves(solves: seq<Solve>): (r: seq<Solve>)
    ensures DateDescending(r)
    ensures multiset(r) == multiset(solves)
  {
    if solves == [] then []
    else
      assert solves == [solves[0]] + solves[1..];
      InsertByDateDescending(solves[0], OrderedSolves(solves[1..]))
  }

  /** `Penalty.exportName()`. */
  function ExportName(p: Penalty): (r: Option<string>)
    ensures r == None <==> p == NoPenalty
    ensures p == PlusTwo ==> r == Some("PlusTwo")
    ensures p == Dnf ==> r == Some("DNF")
  {
    match p
    case PlusTwo => Some("PlusTwo")
    case Dnf => Some("DNF")
    case _ => None
  }

  /** Distinct penalties export under distinct names, so the export can be read back. */
  lemma ExportNameInjective(p: Penalty, q: Penalty)
    ensures ExportName(p) == ExportName(q) ==> p == q
  {
  }

  /** `SessionType`, raw values 0 to 4. */
  datatype SessionType = Standard | AlgTrainer | Multiphase | Playground | CompSim

  /** The fields of a session that its names are built from. */
  datatype Session = Session(sessionType: SessionType, scrambleType: int)

  /**
   * `Session.typeName`; `puzzleNames` holds the names of the puzzle table, which
   * only the standard session reads.
   */
  function TypeName(s: Session, puzzleNames: seq<string>): (r: string)
    requires s.sessionType == Standard ==> 0 <= s.scrambleType < |puzzleNames|
    ensures s.sessionType == Standard ==> r == puzzleNames[s.scrambleType]
    ensures s.sessionType == AlgTrainer ==> r == "Algorithm Trainer"
    ensures s.sessionType == Multiphase ==> r == "Multiphase"
    ensures s.sessionType == Playground ==> r == "Playground"
    ensures s.sessionType == CompSim ==> r == "Compsim"
  {
    match s.sessionType
    case Standard => puzzleNames[s.scrambleType]
    case AlgTrainer => "Algorithm Trainer"
    case Multiphase => "Multiphase"
    case Playground => "Playground"
    case CompSim => "Compsim"
  }

  /** Outside a standard session the type name is fixed, and it tells the session types apart. */
  lemma TypeNameIdentifiesType(s: Session, t: Session, puzzleNames: seq<string>)
    requires s.sessionType != Standard && t.sessionType != Standard
    ensures TypeName(s, puzzleNames) == TypeName(s, [])
    ensures TypeName(s, puzzleNames) == TypeName(t, puzzleNames) <==> s.sessionType == t.sessionType
  {
  }

  /**
   * `Session.shortcutName`. The puzzle name is looked up first, for every type,
   * so the table index must be valid even for a playground.
   */
  function ShortcutName(s: Session, puzzleNames: seq<string>): (r: string)
    requires 0 <= s.scrambleType < |puzzleNames|
    ensures s.sessionType == Standard ==> r == puzzleNames[s.scrambleType]
    ensures s.sessionType == Playground ==> r == TypeName(s, puzzleNames)
    ensures s.sessionType !in {Standard, Playground} ==>
              r == TypeName(s, puzzleNames) + " - " + puzzleNames[s.scrambleType]
  {
    var scrname := puzzleNames[s.scrambleType];
    match s.sessionType
    case Standard => scrname
    case AlgTrainer => TypeName(s, puzzleNames) + " - " + scrname
    case Multiphase => TypeName(s, puzzleNames) + " - " + scrname
    case Playground => TypeName(s, puzzleNames)
    case CompSim => TypeName(s, puzzleNames) + " - " + scrname
  }

  /** Every shortcut name begins with the session's type name. */
  lemma ShortcutNameStartsWithTypeName(s: Session, puzzleNames: seq<string>)
    requires 0 <= s.scrambleType < |puzzleNames|
    ensures TypeName(s, puzzleNames) <= ShortcutName(s, puzzleNames)
  {
  }
}
