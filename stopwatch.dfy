/**
 * The timer of CubeTime's earlier code generation (Timer/StopwatchManager.swift,
 * class `StopWatchManager`): touches and long presses move it between stopped,
 * inspecting and running; inspection earns +2 at 15 s and DNF at 17 s; a
 * multiphase solve stops after its last phase; comp-sim solves are filed in
 * groups of five.
 */
module Stopwatch {
  import opened Wrappers
  import opened Helper

  /** `plustwotime` and `dnftime`. */
  const PlusTwoTime: int := 15
  const DnfTime: int := 17

  /** `stopWatchMode`. */
  datatype Mode = Running | Stopped | Inspecting

  /** The kind of the current session, as far as the timer looks at it. */
  datatype SessionKind = Standard | Multiphase(phaseCount: int) | CompSim

  // ---- `String(Int)` ----

  function DigitChar(d: nat): (c: char)
    requires d < 10
    ensures IsDigit(c) && c as int - '0' as int == d
  {
    ('0' as int + d) as char
  }

  /** The decimal digits of `n`, without leading zeros. */
  function NatToString(n: nat): (s: string)
    ensures s != [] && AllDigits(s)
  {
    if n < 10 then [DigitChar(n)] else NatToString(n / 10) + [DigitChar(n % 10)]
  }

  /** `String(_: Int)`: a minus sign before the digits of a negative number. */
  function IntToString(n: int): string {
    if n < 0 then "-" + NatToString(-n) else NatToString(n)
  }

  /** The digits written for `n` read back as `n`. */
  lemma {:induction false} NatToStringValue(n: nat)
    ensures DigitsValue(NatToString(n)) == n
  {
    if n >= 10 {
      NatToStringValue(n / 10);
      var s := NatToString(n);
      assert s[..|s| - 1] == NatToString(n / 10);
    }
  }

  /** `UInt(String(n)) == n` for every `n` a `UInt` holds. */
  lemma NatToStringRoundTrip(n: nat)
    requires n < UIntLimit
    ensures ParseUInt(IntToString(n)) == Some(n)
  {
    NatToStringValue(n);
  }

  // ---- inspection ----

  /** The penalty earned by `secs` seconds of inspection. */
  function InspectionPenalty(secs: int): (p: PenTypes)
    ensures p == NoPenalty <==> secs < PlusTwoTime
    ensures p == Dnf <==> secs >= DnfTime
  {
    if secs >= DnfTime then Dnf else if secs >= PlusTwoTime then PlusTwo else NoPenalty
  }

  function PenaltyRank(p: PenTypes): nat {
    match p
    case NoPenalty => 0
    case PlusTwo => 1
    case Dnf => 2
  }

  /** A longer inspection never earns a lighter penalty. */
  lemma InspectionPenaltyEscalates(a: int, b: int)
    requires a <= b
    ensures PenaltyRank(InspectionPenalty(a)) <= PenaltyRank(InspectionPenalty(b))
  {
  }

  /** The tick's own penalty update: +2 at exactly 15 s, DNF at exactly 17 s. */
  function TickPenalty(secs: int, current: PenTypes): PenTypes {
    if secs == PlusTwoTime then PlusTwo else if secs == DnfTime then Dnf else current
  }

  /** Stepping the tick from the penalty of the previous second gives the penalty of this one. */
  lemma TickPenaltyFollowsInspection(secs: int)
    ensures TickPenalty(secs, InspectionPenalty(secs - 1)) == InspectionPenalty(secs)
  {
  }

  /** The tick's own display update: a countdown from 15 down to 0, then "-"; or the seconds. */
  function TickText(countDown: bool, secs: int, current: string): string {
    if countDown then
      if secs == 16 then "-" else if secs < 16 then IntToString(15 - secs) else current
    else IntToString(secs)
  }

  /** What the inspection display shows after `secs` seconds. */
  function InspectionDisplay(countDown: bool, secs: int): (s: string)
    ensures countDown && secs > 15 ==> s == "-"
  {
    if countDown then (if secs <= 15 then IntToString(15 - secs) else "-") else IntToString(secs)
  }

  /** The display starts as `startInspection` sets it and each tick keeps it as `InspectionDisplay` says. */
  lemma InspectionDisplaySteps(countDown: bool, secs: int)
    ensures InspectionDisplay(countDown, 0) == (if countDown then "15" else "0")
    ensures TickText(countDown, secs + 1, InspectionDisplay(countDown, secs)) == InspectionDisplay(countDown, secs + 1)
  {
    assert NatToString(15) == "15";
  }

  // ---- long presses ----

  /** The condition under which `longPressStart` shows the can-start colour. */
  predicate ShowsCanStart(inspectionEnabled: bool, mode: Mode, prevDownStoppedTimer: bool, scrambleReady: bool) {
    if inspectionEnabled then mode == Inspecting
    else mode == Stopped && !prevDownStoppedTimer && (mode != Stopped || scrambleReady)
  }

  /** The condition under which `longPressEnd` starts the timer. */
  predicate StartsOnRelease(inspectionEnabled: bool, mode: Mode, prevDownStoppedTimer: bool, scrambleReady: bool) {
    !prevDownStoppedTimer && (mode != Stopped || scrambleReady)
    && (if inspectionEnabled then mode == Inspecting else mode == Stopped)
  }

  /** The condition under which `longPressEnd` begins inspection instead. */
  predicate InspectsOnRelease(inspectionEnabled: bool, mode: Mode, prevDownStoppedTimer: bool, scrambleReady: bool,
                              justInspected: bool) {
    !prevDownStoppedTimer && inspectionEnabled && mode == Stopped && scrambleReady && !justInspected
  }

  /** The can-start colour is honest: releasing starts the timer exactly when it shows and no touch just stopped it. */
  lemma CanStartMeansStartOnRelease(inspectionEnabled: bool, mode: Mode, prevDownStoppedTimer: bool, scrambleReady: bool)
    ensures StartsOnRelease(inspectionEnabled, mode, prevDownStoppedTimer, scrambleReady)
            <==> ShowsCanStart(inspectionEnabled, mode, prevDownStoppedTimer, scrambleReady) && !prevDownStoppedTimer
  {
  }

  // ---- comp-sim groups ----

  /** `solves.count` of the last solve group, or 0 without groups. */
  function LastGroupSize(groups: seq<seq<Solves>>): nat {
    if groups == [] then 0 else |groups[|groups| - 1]|
  }

  /**
   * Where `stop` files a comp-sim solve: into a new group when there is none or
   * `currentSolveth` is 5, otherwise into the last group.
   */
  function FileSolve(groups: seq<seq<Solves>>, currentSolveth: Option<int>, s: Solves): (r: seq<seq<Solves>>)
    ensures r != [] && r[|r| - 1] != [] && r[|r| - 1][|r[|r| - 1]| - 1] == s
  {
    if |groups| == 0 || currentSolveth == Some(5) then groups + [[s]]
    else groups[..|groups| - 1] + [groups[|groups| - 1] + [s]]
  }

  /** The solves of the groups, in filing order. */
  function Flatten(groups: seq<seq<Solves>>): seq<Solves> {
    if groups == [] then [] else Flatten(groups[..|groups| - 1]) + groups[|groups| - 1]
  }

  /** Filing a solve appends it to the solves of the groups, whichever group it joins. */
  lemma FileSolveAppends(groups: seq<seq<Solves>>, currentSolveth: Option<int>, s: Solves)
    ensures Flatten(FileSolve(groups, currentSolveth, s)) == Flatten(groups) + [s]
  {
    var r := FileSolve(groups, currentSolveth, s);
    if |groups| == 0 || currentSolveth == Some(5) {
      assert r[..|r| - 1] == groups;
    } else {
      assert r[..|r| - 1] == groups[..|groups| - 1];
    }
  }

  predicate GroupsOfAtMostFive(groups: seq<seq<Solves>>) {
    forall i :: 0 <= i < |groups| ==> 1 <= |groups[i]| <= 5
  }

  /**
   * With `currentSolveth` in step with the last group, filing keeps every group
   * between one and five solves: a full group is never joined.
   */
  lemma FileSolveKeepsGroupsOfFive(groups: seq<seq<Solves>>, s: Solves)
    requires GroupsOfAtMostFive(groups)
    ensures GroupsOfAtMostFive(FileSolve(groups, Some(LastGroupSize(groups)), s))
    ensures LastGroupSize(groups) == 5 || groups == [] ==> LastGroupSize(FileSolve(groups, Some(LastGroupSize(groups)), s)) == 1
    ensures LastGroupSize(groups) < 5 && groups != [] ==>
              LastGroupSize(FileSolve(groups, Some(LastGroupSize(groups)), s)) == LastGroupSize(groups) + 1
  {
  }

  /** The timer's settings: the session it times and the user's preferences. */
  datatype Settings = Settings(
    session: SessionKind,
    inspectionEnabled: bool,
    insCountDown: bool,
    /** Decimal places while running; -1 hides the running time. */
    timeDP: int,
    /** `formatSolveTime(secs:)`, defined outside this file. */
    formatSolveTime: real -> string)

  /** All the fields of the timer that its operations change. */
  datatype Watch = Watch(
    mode: Mode,
    inspectionSecs: int,
    penType: PenTypes,
    secondsStr: string,
    secondsElapsed: real,
    prevDownStoppedTimer: bool,
    justInspected: bool,
    currentMPCount: int,
    phaseTimes: seq<real>,
    canGesture: bool,
    scrambleStr: Option<string>,
    prevScrambleStr: Option<string>,
    showPenOptions: bool,
    showDeleteSolveConfirmation: bool,
    currentSolveth: Option<int>,
    solveItem: Option<Solves>,
    groups: seq<seq<Solves>>,
    sessionSolves: seq<Solves>)

  /**
   * The timer's invariant: inspection shows and earns what its seconds say,
   * and a running timer carries that penalty; without inspection no penalty
   * is ever earned; a multiphase solve has one lap per phase passed and never
   * passes its phase count; `currentSolveth` is the last group's size.
   */
  predicate Consistent(w: Watch, cfg: Settings) {
    && (w.mode == Inspecting ==> w.inspectionSecs >= 0 && w.secondsStr == InspectionDisplay(cfg.insCountDown, w.inspectionSecs))
    && (w.mode != Stopped ==> w.penType == InspectionPenalty(w.inspectionSecs))
    && (!cfg.inspectionEnabled ==> w.mode != Inspecting && w.penType == NoPenalty && w.inspectionSecs == 0)
    && w.currentMPCount >= 1 && |w.phaseTimes| == w.currentMPCount - 1
    && (w.mode != Running || !cfg.session.Multiphase? ==> w.currentMPCount == 1)
    && (cfg.session.Multiphase? && cfg.session.phaseCount >= 1 ==> w.currentMPCount <= cfg.session.phaseCount)
    && (cfg.session.CompSim? ==> w.currentSolveth == Some(LastGroupSize(w.groups)))
  }

  // ---- what each operation does to the timer ----

  /** `startInspection()`: no penalty yet, zero seconds, inspecting. */
  function Inspection(w: Watch, cfg: Settings): Watch {
    w.(penType := NoPenalty, secondsStr := if cfg.insCountDown then "15" else "0", inspectionSecs := 0, mode := Inspecting)
  }

  /** One second of inspection. */
  function AfterTick(w: Watch, cfg: Settings): Watch {
    var secs := w.inspectionSecs + 1;
    w.(inspectionSecs := secs, secondsStr := TickText(cfg.insCountDown, secs, w.secondsStr),
       penType := TickPenalty(secs, w.penType))
  }

  /** `start()`: running from zero; "..." stands in for a hidden running time. */
  function Started(w: Watch, cfg: Settings): Watch {
    w.(mode := Running, secondsElapsed := 0.0,
       secondsStr := if cfg.timeDP != -1 then cfg.formatSolveTime(0.0) else "...")
  }

  /** `rescramble()`: the shown scramble becomes the previous one, and a new one is on its way. */
  function Rescrambled(w: Watch): Watch {
    w.(prevScrambleStr := w.scrambleStr, scrambleStr := None)
  }

  /**
   * The solve `stop(_:)` saves: the typed `time`, or else the `elapsed` clock
   * reading, with the current penalty, date `now` and the scramble it was
   * solved with; a multiphase solve takes the lap times.
   */
  function StopSolve(w: Watch, cfg: Settings, time: Option<real>, elapsed: real, now: int, id: nat): Solves {
    Solves(id, if time.Some? then time.value else elapsed, w.penType, now,
           if time.None? then w.prevScrambleStr else w.scrambleStr,
           if cfg.session.Multiphase? then Some(w.phaseTimes) else None)
  }

  /**
   * The timer once `stop(_:)` has saved `solve`: stopped showing the solve's
   * time, the solve saved (and filed into a group in a comp-sim session),
   * and the laps started over.
   */
  function Saved(w: Watch, cfg: Settings, solve: Solves): Watch {
    var filed := if cfg.session.CompSim? then FileSolve(w.groups, w.currentSolveth, solve) else w.groups;
    w.(secondsElapsed := solve.time, secondsStr := cfg.formatSolveTime(solve.time), mode := Stopped,
       groups := filed,
       currentSolveth := if cfg.session.CompSim? then Some(LastGroupSize(filed)) else w.currentSolveth,
       currentMPCount := if cfg.session.Multiphase? then 1 else w.currentMPCount,
       phaseTimes := if cfg.session.Multiphase? then [] else w.phaseTimes,
       solveItem := Some(solve),
       sessionSolves := w.sessionSolves + [solve])
  }

  /** `stop(_:)`: the solve is saved, and a typed time rescrambles. */
  function AfterStop(w: Watch, cfg: Settings, time: Option<real>, elapsed: real, now: int, id: nat): Watch {
    var stopped := Saved(w, cfg, StopSolve(w, cfg, time, elapsed, now, id));
    if time.Some? then Rescrambled(stopped) else stopped
  }

  /**
   * `touchDown()`: while running, a lap in a multiphase session before its
   * last phase; otherwise a last lap (multiphase) and the timer stops at the
   * `elapsed` reading.
   */
  function AfterTouchDown(w: Watch, cfg: Settings, elapsed: real, now: int, id: nat): Watch {
    if w.mode != Running then w
    else if cfg.session.Multiphase? && cfg.session.phaseCount != w.currentMPCount then LapTaken(w, elapsed)
    else AfterStop(Finishing(w, cfg, elapsed), cfg, None, elapsed, now, id)
  }

  /** A touch that takes a lap before the last phase of a multiphase solve. */
  function LapTaken(w: Watch, elapsed: real): Watch {
    w.(justInspected := false, canGesture := false, currentMPCount := w.currentMPCount + 1,
       phaseTimes := w.phaseTimes + [elapsed])
  }

  /** A touch that ends the solve, just before it stops the timer: the last lap of a multiphase solve is taken. */
  function Finishing(w: Watch, cfg: Settings, elapsed: real): Watch {
    w.(justInspected := false, canGesture := true, prevDownStoppedTimer := true,
       phaseTimes := if cfg.session.Multiphase? then w.phaseTimes + [elapsed] else w.phaseTimes)
  }

  /**
   * `touchUp()`: with inspection on, a release while stopped with a scramble
   * ready, and not right after a touch that stopped the timer, starts
   * inspection. The penalty options close and the stop flag clears.
   */
  function AfterTouchUp(w: Watch, cfg: Settings): Watch {
    var begins := (w.mode != Stopped || w.scrambleStr.Some?) && cfg.inspectionEnabled && w.mode == Stopped
                  && !w.prevDownStoppedTimer;
    var w1 := if begins then Inspection(w, cfg).(justInspected := true) else w;
    w1.(showPenOptions := false, prevDownStoppedTimer := false)
  }

  /**
   * `longPressEnd()`: the penalty options close; when no touch just stopped
   * the timer and it is busy or has a scramble, the timer starts (from
   * inspection, or from stopped without inspection) and rescrambles, or else
   * inspection begins when it is on, the timer is stopped and it did not just
   * inspect.
   */
  function AfterLongPressEnd(w: Watch, cfg: Settings): Watch {
    var w0 := w.(showPenOptions := false, prevDownStoppedTimer := false);
    if StartsOnRelease(cfg.inspectionEnabled, w.mode, w.prevDownStoppedTimer, w.scrambleStr.Some?) then
      Rescrambled(Started(w0, cfg))
    else if InspectsOnRelease(cfg.inspectionEnabled, w.mode, w.prevDownStoppedTimer, w.scrambleStr.Some?, w.justInspected) then
      Inspection(w0, cfg).(justInspected := true)
    else w0
  }


  // ---- what the operations keep ----

  /** A tick of inspection keeps the timer consistent. */
  lemma TickKeepsConsistent(w: Watch, cfg: Settings)
    requires w.mode == Inspecting
    ensures Consistent(w, cfg) ==> Consistent(AfterTick(w, cfg), cfg)
  {
    TickPenaltyFollowsInspection(w.inspectionSecs + 1);
    InspectionDisplaySteps(cfg.insCountDown, w.inspectionSecs);
  }

  /** Inspection begun with inspection on and the timer not running keeps the timer consistent. */
  lemma InspectionKeepsConsistent(w: Watch, cfg: Settings)
    requires cfg.inspectionEnabled && w.mode != Running
    ensures Consistent(w, cfg) ==> Consistent(Inspection(w, cfg), cfg)
  {
    InspectionDisplaySteps(cfg.insCountDown, 0);
  }

  /** Stopping keeps the timer consistent. */
  lemma StopKeepsConsistent(w: Watch, cfg: Settings, time: Option<real>, elapsed: real, now: int, id: nat)
    ensures Consistent(w, cfg) ==> Consistent(AfterStop(w, cfg, time, elapsed, now, id), cfg)
  {
    var r := Saved(w, cfg, StopSolve(w, cfg, time, elapsed, now, id));
    assert Consistent(w, cfg) ==> Consistent(r, cfg);
  }

  /** With `currentSolveth` in step, stopping never grows a comp-sim group past five solves. */
  lemma StopKeepsGroupsOfFive(w: Watch, cfg: Settings, time: Option<real>, elapsed: real, now: int, id: nat)
    requires cfg.session.CompSim? && w.currentSolveth == Some(LastGroupSize(w.groups))
    ensures GroupsOfAtMostFive(w.groups) ==> GroupsOfAtMostFive(AfterStop(w, cfg, time, elapsed, now, id).groups)
  {
    if GroupsOfAtMostFive(w.groups) {
      FileSolveKeepsGroupsOfFive(w.groups, StopSolve(w, cfg, time, elapsed, now, id));
    }
  }

  /**
   * The solve `stop` saves is the last of the session and, in a comp-sim
   * session, the last of its groups, with nothing else reordered.
   */
  lemma StopSavesSolve(w: Watch, cfg: Settings, time: Option<real>, elapsed: real, now: int, id: nat)
    ensures var r := AfterStop(w, cfg, time, elapsed, now, id);
            var solve := StopSolve(w, cfg, time, elapsed, now, id);
            && r.solveItem == Some(solve)
            && r.sessionSolves == w.sessionSolves + [solve]
            && (cfg.session.CompSim? ==> Flatten(r.groups) == Flatten(w.groups) + [solve])
            && r.secondsElapsed == solve.time && r.mode == Stopped
  {
    FileSolveAppends(w.groups, w.currentSolveth, StopSolve(w, cfg, time, elapsed, now, id));
  }

  /** A touch keeps the timer consistent. */
  lemma TouchDownKeepsConsistent(w: Watch, cfg: Settings, elapsed: real, now: int, id: nat)
    ensures Consistent(w, cfg) ==> Consistent(AfterTouchDown(w, cfg, elapsed, now, id), cfg)
  {
  }

  /**
   * A touch on the running timer either takes a lap of a multiphase solve or
   * saves the solve, with the penalty its inspection earned; a saved
   * multiphase solve holds exactly one time per phase, and a lap is never
   * taken past the last phase.
   */
  lemma TouchDownSavesOrLaps(w: Watch, cfg: Settings, elapsed: real, now: int, id: nat)
    requires Consistent(w, cfg) && w.mode == Running
    ensures var r := AfterTouchDown(w, cfg, elapsed, now, id);
            && (r.mode == Running <==> cfg.session.Multiphase? && cfg.session.phaseCount != w.currentMPCount)
            && (r.mode == Running ==> r.phaseTimes == w.phaseTimes + [elapsed]
                                      && (cfg.session.phaseCount >= 1 ==> r.currentMPCount <= cfg.session.phaseCount))
            && (r.mode == Stopped ==>
                  && r.solveItem.Some? && r.sessionSolves == w.sessionSolves + [r.solveItem.value]
                  && r.solveItem.value.time == elapsed
                  && r.solveItem.value.penalty == InspectionPenalty(w.inspectionSecs)
                  && r.solveItem.value.scramble == w.prevScrambleStr
                  && (cfg.session.Multiphase? ==>
                        && r.solveItem.value.phases == Some(w.phaseTimes + [elapsed])
                        && |r.solveItem.value.phases.value| == cfg.session.phaseCount))
  {
  }

  /** A release keeps the timer consistent. */
  lemma TouchUpKeepsConsistent(w: Watch, cfg: Settings)
    ensures Consistent(w, cfg) ==> Consistent(AfterTouchUp(w, cfg), cfg)
  {
    InspectionDisplaySteps(cfg.insCountDown, 0);
  }

  /** The end of a long press keeps the timer consistent. */
  lemma LongPressEndKeepsConsistent(w: Watch, cfg: Settings)
    ensures Consistent(w, cfg) ==> Consistent(AfterLongPressEnd(w, cfg), cfg)
  {
    var w0 := w.(showPenOptions := false, prevDownStoppedTimer := false);
    if Consistent(w, cfg) {
      assert Consistent(w0, cfg);
      if StartsOnRelease(cfg.inspectionEnabled, w.mode, w.prevDownStoppedTimer, w.scrambleStr.Some?) {
        assert Consistent(Rescrambled(Started(w0, cfg)), cfg);
      } else if InspectsOnRelease(cfg.inspectionEnabled, w.mode, w.prevDownStoppedTimer, w.scrambleStr.Some?, w.justInspected) {
        InspectionKeepsConsistent(w0, cfg);
      }
    }
  }

  /**
   * The end of a long press starts the timer exactly when the can-start colour
   * showed and no touch had just stopped it.
   */
  lemma LongPressEndStartsWhenShown(w: Watch, cfg: Settings)
    ensures AfterLongPressEnd(w, cfg).mode == Running && w.mode != Running
            <==> ShowsCanStart(cfg.inspectionEnabled, w.mode, w.prevDownStoppedTimer, w.scrambleStr.Some?)
                 && !w.prevDownStoppedTimer
  {
    CanStartMeansStartOnRelease(cfg.inspectionEnabled, w.mode, w.prevDownStoppedTimer, w.scrambleStr.Some?);
  }

  /**
   * `StopWatchManager`, the timer of the earlier code generation. Its
   * published and private fields are held together in the record `watch`,
   * which every operation updates in place; `nilSolve`, which only the view
   * reads, is a field of its own.
   */
  class StopWatchManager {
    const settings: Settings
    var watch: Watch
    /** `nilSolve`: whether no solve was shown when the penalty options last opened; the view then hides the penalty buttons. */
    var nilSolve: bool

    predicate Valid()
      reads this
    {
      Consistent(watch, settings)
    }

    /** `init(currentSession:managedObjectContext:)`: stopped at zero, with a scramble on its way. */
    constructor (settings: Settings, groups: seq<seq<Solves>>, sessionSolves: seq<Solves>)
      ensures this.settings == settings
      ensures watch == Watch(Stopped, 0, NoPenalty, settings.formatSolveTime(0.0), 0.0, false, false, 1, [], true,
                             None, None, false, false,
                             if settings.session.CompSim? then Some(LastGroupSize(groups)) else None,
                             None, groups, sessionSolves)
      ensures nilSolve
      ensures Valid()
    {
      this.settings := settings;
      nilSolve := true;
      watch := Watch(Stopped, 0, NoPenalty, settings.formatSolveTime(0.0), 0.0, false, false, 1, [], true,
                     None, None, false, false, None, None, groups, sessionSolves);
      new;
      Rescramble();
      TryUpdateCurrentSolveth();
    }

    /** `tryUpdateCurrentSolveth()`: in a comp-sim session, the size of the last group, or 0. */
    method TryUpdateCurrentSolveth()
      modifies this
      ensures nilSolve == old(nilSolve)
      ensures watch == if settings.session.CompSim? then old(watch).(currentSolveth := Some(LastGroupSize(watch.groups)))
                       else old(watch)
    {
      if settings.session.CompSim? {
        if |watch.groups| > 0 {
          watch := watch.(currentSolveth := Some(|watch.groups[|watch.groups| - 1]|));
        } else {
          watch := watch.(currentSolveth := Some(0));
        }
      }
    }

    method StartInspection()
      modifies this
      ensures nilSolve == old(nilSolve)
      ensures watch == Inspection(old(watch), settings)
      ensures old(Valid()) && settings.inspectionEnabled && old(watch.mode) != Running ==> Valid()
    {
      if settings.inspectionEnabled && watch.mode != Running {
        InspectionKeepsConsistent(watch, settings);
      }
      watch := watch.(penType := NoPenalty);
      watch := watch.(secondsStr := if settings.insCountDown then "15" else "0");
      watch := watch.(inspectionSecs := 0);
      watch := watch.(mode := Inspecting);
    }

    /** The body of the inspection timer, run once a second while inspecting. */
    method InspectionTick()
      requires watch.mode == Inspecting
      modifies this
      ensures nilSolve == old(nilSolve)
      ensures watch == AfterTick(old(watch), settings)
      ensures old(Valid()) ==> Valid()
    {
      TickKeepsConsistent(watch, settings);
      var secs := watch.inspectionSecs + 1;
      var text :=
        if settings.insCountDown then
          if secs == 16 then "-" else if secs < 16 then IntToString(15 - secs) else watch.secondsStr
        else IntToString(secs);
      var pen := if secs == PlusTwoTime then PlusTwo else if secs == DnfTime then Dnf else watch.penType;
      watch := watch.(inspectionSecs := secs, secondsStr := text, penType := pen);
    }

    /** `interruptInspection()`: back to stopped with the clocks at zero. */
    method InterruptInspection()
      modifies this
      ensures nilSolve == old(nilSolve)
      ensures watch == old(watch).(mode := Stopped, inspectionSecs := 0, secondsElapsed := 0.0,
                                   justInspected := false, secondsStr := settings.formatSolveTime(0.0))
      ensures old(Valid()) && old(watch.mode) != Running ==> Valid()
    {
      watch := watch.(mode := Stopped);
      watch := watch.(inspectionSecs := 0);
      watch := watch.(secondsElapsed := 0.0);
      watch := watch.(justInspected := false);
      watch := watch.(secondsStr := settings.formatSolveTime(watch.secondsElapsed));
    }

    method Start()
      modifies this
      ensures nilSolve == old(nilSolve)
      ensures watch == Started(old(watch), settings)
      ensures old(Valid()) && (old(watch.mode) == Inspecting || !settings.inspectionEnabled) ==> Valid()
    {
      watch := watch.(mode := Running);
      watch := watch.(secondsElapsed := 0.0);
      watch := watch.(secondsStr := settings.formatSolveTime(0.0));
      if settings.timeDP == -1 {
        watch := watch.(secondsStr := "...");
      }
    }

    /** The body of the running timer: the time since the start, shown. */
    method RunningTick(elapsed: real)
      requires watch.mode == Running && settings.timeDP != -1
      modifies this
      ensures nilSolve == old(nilSolve)
      ensures watch == old(watch).(secondsElapsed := elapsed, secondsStr := settings.formatSolveTime(elapsed))
      ensures old(Valid()) ==> Valid()
    {
      watch := watch.(secondsElapsed := elapsed);
      watch := watch.(secondsStr := settings.formatSolveTime(watch.secondsElapsed));
    }

    /** `stop(_:)`, with the clock reading `elapsed`, the date `now` and the new solve's identity `id`. */
    method Stop(time: Option<real>, elapsed: real, now: int, id: nat)
      modifies this
      ensures nilSolve == old(nilSolve)
      ensures watch == AfterStop(old(watch), settings, time, elapsed, now, id)
    {
      var secs := if time.Some? then time.value else elapsed;
      var phases := if settings.session.Multiphase? then Some(watch.phaseTimes) else None;
      var solve := Solves(id, secs, watch.penType, now,
                          if time.None? then watch.prevScrambleStr else watch.scrambleStr, phases);
      ghost var w0 := watch;
      assert solve == StopSolve(w0, settings, time, elapsed, now, id);
      var groups, solveth := watch.groups, watch.currentSolveth;
      var mpCount, laps := watch.currentMPCount, watch.phaseTimes;
      if settings.session.CompSim? {
        if |groups| == 0 || solveth == Some(5) {
          groups := groups + [[solve]];
        } else {
          groups := groups[..|groups| - 1] + [groups[|groups| - 1] + [solve]];
        }
        assert groups == FileSolve(w0.groups, w0.currentSolveth, solve);
        solveth := Some(|groups[|groups| - 1]|);
      } else if settings.session.Multiphase? {
        mpCount, laps := 1, [];
      }
      watch := watch.(secondsElapsed := secs, secondsStr := settings.formatSolveTime(secs), mode := Stopped,
                      groups := groups, currentSolveth := solveth, currentMPCount := mpCount, phaseTimes := laps,
                      solveItem := Some(solve), sessionSolves := watch.sessionSolves + [solve]);
      assert watch == Saved(w0, settings, solve);
      if time.Some? {
        Rescramble();
      }
    }

    /** `lap()`: the time since the start joins the phase times. */
    method Lap(elapsed: real)
      modifies this
      ensures nilSolve == old(nilSolve)
      ensures watch == old(watch).(phaseTimes := old(watch.phaseTimes) + [elapsed])
    {
      watch := watch.(phaseTimes := watch.phaseTimes + [elapsed]);
    }

    /** `touchDown()`, with the clock reading `elapsed`, the date `now` and a new solve's identity `id`. */
    method TouchDown(elapsed: real, now: int, id: nat)
      modifies this
      ensures nilSolve == old(nilSolve)
      ensures watch == AfterTouchDown(old(watch), settings, elapsed, now, id)
      ensures old(Valid()) ==> Valid()
    {
      TouchDownKeepsConsistent(watch, settings, elapsed, now, id);
      if watch.mode == Running {
        watch := watch.(justInspected := false);
        if settings.session.Multiphase? {
          if settings.session.phaseCount != watch.currentMPCount {
            watch := watch.(canGesture := false);
            watch := watch.(currentMPCount := watch.currentMPCount + 1);
            Lap(elapsed);
          } else {
            watch := watch.(canGesture := true);
            Lap(elapsed);
            watch := watch.(prevDownStoppedTimer := true);
            watch := watch.(justInspected := false);
            Stop(None, elapsed, now, id);
          }
        } else {
          watch := watch.(canGesture := true);
          watch := watch.(prevDownStoppedTimer := true);
          watch := watch.(justInspected := false);
          Stop(None, elapsed, now, id);
        }
      }
    }

    method TouchUp()
      modifies this
      ensures nilSolve == old(nilSolve)
      ensures watch == AfterTouchUp(old(watch), settings)
      ensures old(Valid()) ==> Valid()
    {
      TouchUpKeepsConsistent(watch, settings);
      if watch.mode != Stopped || watch.scrambleStr.Some? {
        if settings.inspectionEnabled && watch.mode == Stopped && !watch.prevDownStoppedTimer {
          StartInspection();
          watch := watch.(justInspected := true);
        }
      }
      if watch.showPenOptions {
        watch := watch.(showPenOptions := false);
      }
      watch := watch.(prevDownStoppedTimer := false);
    }

    method LongPressEnd()
      modifies this
      ensures nilSolve == old(nilSolve)
      ensures watch == AfterLongPressEnd(old(watch), settings)
      ensures old(Valid()) ==> Valid()
    {
      LongPressEndKeepsConsistent(watch, settings);
      watch := watch.(showPenOptions := false);
      if !watch.prevDownStoppedTimer && (watch.mode != Stopped || watch.scrambleStr.Some?) {
        if if settings.inspectionEnabled then watch.mode == Inspecting else watch.mode == Stopped {
          Start();
          Rescramble();
        } else if settings.inspectionEnabled && watch.mode == Stopped && !watch.justInspected {
          StartInspection();
          watch := watch.(justInspected := true);
        }
      }
      watch := watch.(prevDownStoppedTimer := false);
    }

    method Rescramble()
      modifies this
      ensures nilSolve == old(nilSolve)
      ensures watch == Rescrambled(old(watch))
      ensures old(Valid()) ==> Valid()
    {
      watch := watch.(prevScrambleStr := watch.scrambleStr);
      watch := watch.(scrambleStr := None);
    }

    /** The scramble work item finishing: its scramble is shown. */
    method DeliverScramble(scramble: string)
      modifies this
      ensures nilSolve == old(nilSolve)
      ensures watch == old(watch).(scrambleStr := Some(scramble))
      ensures old(Valid()) ==> Valid()
    {
      watch := watch.(scrambleStr := Some(scramble));
    }

    /** `displayPenOptions()`: the penalty options open, the stop flag clears, and `nilSolve` records whether a solve is shown. */
    method DisplayPenOptions()
      modifies this
      ensures watch == old(watch).(showPenOptions := true, prevDownStoppedTimer := false)
      ensures nilSolve <==> watch.solveItem.None?
      ensures old(Valid()) ==> Valid()
    {
      watch := watch.(prevDownStoppedTimer := false);
      watch := watch.(showPenOptions := true);
      nilSolve := watch.solveItem.None?;
    }

    /** `askToDelete()`: the penalty options close; the confirmation opens only for a solve. */
    method AskToDelete()
      modifies this
      ensures nilSolve == old(nilSolve)
      ensures watch == old(watch).(showPenOptions := false, prevDownStoppedTimer := false,
                                   showDeleteSolveConfirmation := old(watch.showDeleteSolveConfirmation)
                                                                  || old(watch.solveItem).Some?)
      ensures old(Valid()) ==> Valid()
    {
      watch := watch.(showPenOptions := false);
      watch := watch.(prevDownStoppedTimer := false);
      if watch.solveItem.Some? {
        watch := watch.(showDeleteSolveConfirmation := true);
      }
    }
  }
}
