/** The periodic job state machine: a period callback, a deadline callback and the main thread
    share time stamps, in which zero means "not set", and one semaphore. */
module Periodic {

  /** A pair of readings: clock cycles and seconds. */
  datatype Stamp = Stamp(clocks: nat, time: real) {
    predicate Set() { clocks > 0 && time > 0.0 }

    /** Each half keeps its value if it has one. */
    function OrElse(s: Stamp): Stamp {
      Stamp(if clocks == 0 then s.clocks else clocks, if time == 0.0 then s.time else time)
    }
  }

  const UNSET := Stamp(0, 0.0)

  /** What one report line is printed from. */
  datatype Report = Report(start: Stamp, end: Stamp, jobEnd: Stamp, deadline: Stamp) {
    /** The deadline status as the log computes it. */
    predicate Met() {
      && jobEnd.time > 0.0 && jobEnd.time <= deadline.time
      && jobEnd.clocks > 0 && jobEnd.clocks <= deadline.clocks
    }
  }

  datatype Line = Completed(report: Report) | Skipped(deadline: Stamp)

  /** The shared variables. */
  datatype Shared = Shared(
    start: Stamp, end: Stamp, jobEnd: Stamp, deadline: Stamp, lastDeadline: Stamp,
    semaphore: nat, lines: seq<Line>)

  const INITIAL := Shared(UNSET, UNSET, UNSET, UNSET, UNSET, 0, [])

  function OnDeadline(s: Shared, now: Stamp): Shared {
    s.(lastDeadline := now, deadline := s.deadline.OrElse(now))
  }

  /** The stamps as the period callback sees them once it has entered its own. */
  function Stamped(s: Shared, now: Stamp, separateTimer: bool): Shared {
    var s1 := s.(end := s.end.OrElse(now));
    if separateTimer then s1 else OnDeadline(s1, now)
  }

  predicate Started(s: Shared) { s.start.clocks > 0 || s.start.time > 0.0 }

  predicate Finished(s: Shared) { s.jobEnd.clocks > 0 || s.jobEnd.time > 0.0 }

  /** Whether the period callback opens a new window and posts. */
  predicate Opens(s: Shared) {
    Finished(s) || s.start.clocks == 0 || s.start.time == 0.0
  }

  /** The lines the period callback prints. */
  function NewLines(s: Shared): seq<Line> {
    if !Started(s) then []
    else if Finished(s) then [Completed(Report(s.start, s.end, s.jobEnd, s.deadline))]
    else if s.lastDeadline != s.deadline then [Skipped(s.lastDeadline)]
    else []
  }

  /** The period callback; a new window is opened even when its post fails. */
  function OnPeriod(s: Shared, now: Stamp, separateTimer: bool, posted: bool): Shared {
    var s1 := Stamped(s, now, separateTimer);
    var s2 := s1.(lines := s1.lines + NewLines(s1));
    if Opens(s1) then Opened(s2, now, posted) else s2
  }

  function Opened(s: Shared, now: Stamp, posted: bool): Shared {
    s.(start := now, end := UNSET, jobEnd := UNSET, deadline := UNSET,
       semaphore := s.semaphore + if posted then 1 else 0)
  }

  /** The semaphore after a wait that was granted. */
  function Taken(s: Shared): Shared
    requires s.semaphore > 0
  {
    s.(semaphore := s.semaphore - 1)
  }

  /** The first of the two writes at the end of a job. */
  function ClocksWritten(s: Shared, clocks: nat): Shared {
    s.(jobEnd := Stamp(clocks, s.jobEnd.time))
  }

  /** The second one. */
  function TimeWritten(s: Shared, time: real): Shared {
    s.(jobEnd := Stamp(s.jobEnd.clocks, time))
  }

  /** What one call of the semaphore's wait comes back with. */
  datatype Outcome = Granted | Interrupted | Failed

  // ---------- The code ----------

  /** The static variables of the benchmark and its two timer callbacks. */
  class Benchmark {
    const separateTimer: bool
    var jobEndClocks: nat
    var lastDeadlineClocks: nat
    var jobDeadlineClocks: nat
    var periodEndClocks: nat
    var periodStartClocks: nat
    var jobEnd: real
    var lastDeadline: real
    var jobDeadline: real
    var periodEnd: real
    var periodStart: real
    var semaphore: nat
    var lines: seq<Line>

    constructor (separateTimer: bool)
      ensures Abstract() == INITIAL && this.separateTimer == separateTimer
    {
      this.separateTimer := separateTimer;
      jobEndClocks, lastDeadlineClocks, jobDeadlineClocks, periodEndClocks, periodStartClocks := 0, 0, 0, 0, 0;
      jobEnd, lastDeadline, jobDeadline, periodEnd, periodStart := 0.0, 0.0, 0.0, 0.0, 0.0;
      semaphore, lines := 0, [];
    }

    function Abstract(): Shared
      reads this
    {
      Shared(Stamp(periodStartClocks, periodStart), Stamp(periodEndClocks, periodEnd), Stamp(jobEndClocks, jobEnd),
             Stamp(jobDeadlineClocks, jobDeadline), Stamp(lastDeadlineClocks, lastDeadline), semaphore, lines)
    }

    /** `handle_deadline` */
    method HandleDeadline(clocks: nat, time: real)
      modifies this
      ensures Abstract() == OnDeadline(old(Abstract()), Stamp(clocks, time))
    {
      lastDeadlineClocks := clocks;
      lastDeadline := time;
      if jobDeadlineClocks == 0 {
        jobDeadlineClocks := lastDeadlineClocks;
      }
      if jobDeadline == 0.0 {
        jobDeadline := lastDeadline;
      }
    }

    /** `handle_period`, first part: the end of the period, and the deadline unless it has its own timer. */
    method EnterStamps(clocks: nat, time: real)
      modifies this
      ensures Abstract() == Stamped(old(Abstract()), Stamp(clocks, time), separateTimer)
    {
      if periodEndClocks == 0 {
        periodEndClocks := clocks;
      }
      if periodEnd == 0.0 {
        periodEnd := time;
      }
      if !separateTimer {
        if jobDeadlineClocks == 0 {
          jobDeadlineClocks := clocks;
        }
        lastDeadlineClocks := clocks;
        if jobDeadline == 0.0 {
          jobDeadline := time;
        }
        lastDeadline := time;
      }
    }

    /** Second part: the report of a finished job, or of a deadline skipped. */
    method PrintLines()
      modifies this`lines
      ensures Abstract() == old(Abstract()).(lines := old(lines) + NewLines(old(Abstract())))
    {
      if periodStartClocks > 0 || periodStart > 0.0 {
        if jobEndClocks > 0 || jobEnd > 0.0 {
          lines := lines + [Completed(Report(
                     Stamp(periodStartClocks, periodStart), Stamp(periodEndClocks, periodEnd),
                     Stamp(jobEndClocks, jobEnd), Stamp(jobDeadlineClocks, jobDeadline)))];
        } else if lastDeadlineClocks != jobDeadlineClocks || lastDeadline != jobDeadline {
          lines := lines + [Skipped(Stamp(lastDeadlineClocks, lastDeadline))];
        } else {
          assert lines == lines + [];
        }
      } else {
        assert lines == lines + [];
      }
    }

    /** Third part: a new window and a post, when a job has finished or none was started. */
    method OpenWindow(clocks: nat, time: real, posted: bool) returns (failed: bool)
      modifies this
      ensures var s := old(Abstract());
              && (failed <==> Opens(s) && !posted)
              && Abstract() == if Opens(s) then Opened(s, Stamp(clocks, time), posted) else s
    {
      failed := false;
      if jobEndClocks > 0 || periodStartClocks == 0 || jobEnd > 0.0 || periodStart == 0.0 {
        periodStartClocks := clocks;
        periodEndClocks := 0;
        jobEndClocks := 0;
        jobDeadlineClocks := 0;
        periodStart := time;
        periodEnd := 0.0;
        jobEnd := 0.0;
        jobDeadline := 0.0;
        if !posted {
          return true;
        }
        semaphore := semaphore + 1;
      }
    }

    /** `handle_period`. The process ends when the deadline timer cannot be rearmed or the post fails. */
    method HandlePeriod(clocks: nat, time: real, rearmed: bool, posted: bool) returns (exited: bool)
      modifies this
      ensures var s, now := old(Abstract()), Stamp(clocks, time);
              if separateTimer && !rearmed then exited && Abstract() == Stamped(s, now, true)
              else
                && Abstract() == OnPeriod(s, now, separateTimer, posted)
                && (exited <==> !posted && Opens(Stamped(s, now, separateTimer)))
    {
      hide Opened, NewLines, Stamped;
      EnterStamps(clocks, time);
      if separateTimer && !rearmed {
        return true;
      }
      PrintLines();
      exited := OpenWindow(clocks, time, posted);
    }

    /** A wait that is repeated while it is interrupted. Only a positive count is granted; k is the call whose
        outcome counts, or the number of calls when all were interrupted. */
    method AwaitPost(outcomes: seq<Outcome>) returns (k: nat)
      requires Granted in outcomes ==> semaphore > 0
      modifies this`semaphore
      ensures k <= |outcomes| && (forall i :: 0 <= i < k ==> outcomes[i] == Interrupted)
      ensures k < |outcomes| ==> outcomes[k] != Interrupted
      ensures Abstract() == if k < |outcomes| && outcomes[k] == Granted then Taken(old(Abstract())) else old(Abstract())
    {
      k := 0;
      while k < |outcomes| && outcomes[k] == Interrupted
        invariant k <= |outcomes| && forall i :: 0 <= i < k ==> outcomes[i] == Interrupted
      {
        k := k + 1;
      }
      if k < |outcomes| && outcomes[k] == Granted {
        semaphore := semaphore - 1;
      }
    }

    method EndJobClocks(clocks: nat)
      modifies this`jobEndClocks
      ensures Abstract() == ClocksWritten(old(Abstract()), clocks)
    {
      jobEndClocks := clocks;
    }

    method EndJobTime(time: real)
      modifies this`jobEnd
      ensures Abstract() == TimeWritten(old(Abstract()), time)
    {
      jobEnd := time;
    }
  }

  // ---------- Runs ----------

  /** Where the main thread is. Stopped means it has returned, with success or not; a final wait that
      fails with an error other than an interruption still returns success. Exited means that a callback
      has ended the process. */
  datatype Main =
    | AtLoop | Waiting | Running | MidEnd(endClocks: nat) | FinalWait
    | Stopped(success: bool, acquired: bool) | Exited

  /** The options of a run: number of jobs (0 for no limit), whether there is a time limit, timers. */
  datatype Options = Options(tasks: nat, timed: bool, separateTimer: bool)

  datatype Event =
    | Period(at: Stamp) | RearmFails(at: Stamp) | PostFails(at: Stamp) | Deadline(at: Stamp)
    | EnterWait | TimeLimit | LoopEnds | Acquire | Interruption | WaitFails
    | EndClocks(clocks: nat) | EndTime(time: real)
    | FinalAcquire | FinalFails

  /** A state of the whole program, with the history the properties speak of: the ends of the
      finished jobs, the stamp of each opening of a window, the period callbacks, deadline callbacks and
      skip lines since then, and for each report the callback that printed it and those numbers. */
  datatype World = World(
    s: Shared, main: Main, launched: nat, now: Stamp,
    ends: seq<Stamp>, openings: seq<Stamp>, callbacks: nat, deadlines: seq<Stamp>, skips: nat, log: seq<Entry>)

  datatype Entry = Entry(report: Report, at: Stamp, callbacks: nat, deadlines: seq<Stamp>, skips: nat)

  const START := World(INITIAL, AtLoop, 0, UNSET, [], [], 0, [], 0, [])

  predicate Later(now: Stamp, at: Stamp) {
    now.clocks < at.clocks && now.time < at.time
  }

  predicate MoreTasks(w: World, o: Options) { w.launched < o.tasks || o.tasks == 0 }

  /** A callback can come at any moment until the process ends. */
  predicate CanCall(w: World, at: Stamp) {
    Later(w.now, at) && !w.main.Exited?
  }

  /** Which events can happen: callbacks at any moment, main-thread steps in program order;
      both clocks are positive and strictly increasing. */
  predicate Enabled(w: World, e: Event, o: Options) {
    match e
    case Period(at) => CanCall(w, at)
    case RearmFails(at) => CanCall(w, at) && o.separateTimer
    case PostFails(at) => CanCall(w, at) && Opens(Stamped(w.s, at, o.separateTimer))
    case Deadline(at) => CanCall(w, at) && o.separateTimer
    case EnterWait => w.main == AtLoop && MoreTasks(w, o)
    case TimeLimit => w.main == AtLoop && MoreTasks(w, o) && o.timed
    case LoopEnds => w.main == AtLoop && !MoreTasks(w, o)
    case Acquire => w.main == Waiting && w.s.semaphore > 0
    case Interruption => w.main == Waiting || w.main == FinalWait
    case WaitFails => w.main == Waiting
    case EndClocks(c) => w.main == Running && w.now.clocks < c
    case EndTime(t) => w.main.MidEnd? && w.now.time < t
    case FinalAcquire => w.main == FinalWait && w.s.semaphore > 0
    case FinalFails => w.main == FinalWait
  }

  function Next(w: World, e: Event, o: Options): World
    requires Enabled(w, e, o)
  {
    match e
    case Period(at) => AfterPeriod(w, at, o, true)
    case RearmFails(at) =>
      w.(s := Stamped(w.s, at, true), now := at, main := Exited, callbacks := w.callbacks + 1)
    case PostFails(at) => AfterPeriod(w, at, o, false).(main := Exited)
    case Deadline(at) => w.(s := OnDeadline(w.s, at), now := at, deadlines := w.deadlines + [at])
    case EnterWait => w.(main := Waiting)
    case TimeLimit => w.(main := FinalWait)
    case LoopEnds => w.(main := FinalWait)
    case Acquire => w.(main := Running, s := Taken(w.s))
    case Interruption => w
    case WaitFails => w.(main := Stopped(false, false))
    case EndClocks(c) => w.(main := MidEnd(c), s := ClocksWritten(w.s, c), now := Stamp(c, w.now.time))
    case EndTime(t) =>
      w.(main := AtLoop, launched := w.launched + 1, s := TimeWritten(w.s, t),
         now := Stamp(w.now.clocks, t), ends := w.ends + [Stamp(w.main.endClocks, t)])
    case FinalAcquire => w.(main := Stopped(true, true), s := Taken(w.s))
    case FinalFails => w.(main := Stopped(true, false))
  }

  function AfterPeriod(w: World, at: Stamp, o: Options, posted: bool): World {
    var s1 := Stamped(w.s, at, o.separateTimer);
    var news := NewLines(s1);
    var count := w.callbacks + 1;
    var skips := if news != [] && news[0].Skipped? then w.skips + 1 else w.skips;
    w.(s := OnPeriod(w.s, at, o.separateTimer, posted), now := at,
       log := if news != [] && news[0].Completed?
              then w.log + [Entry(news[0].report, at, count, w.deadlines, w.skips)] else w.log,
       openings := if Opens(s1) then w.openings + [at] else w.openings,
       callbacks := if Opens(s1) then 0 else count,
       deadlines := if Opens(s1) then [] else w.deadlines,
       skips := if Opens(s1) then 0 else skips)
  }

  predicate IsRun(events: seq<Event>, o: Options)
    decreases |events|, 0
  {
    events == [] ||
    (IsRun(events[..|events| - 1], o) && Enabled(Reach(events[..|events| - 1], o), events[|events| - 1], o))
  }

  /** The state a run leads to. */
  function Reach(events: seq<Event>, o: Options): World
    requires IsRun(events, o)
    decreases |events|, 1
  {
    if events == [] then START
    else Next(Reach(events[..|events| - 1], o), events[|events| - 1], o)
  }
}
