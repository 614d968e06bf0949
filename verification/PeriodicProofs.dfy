/** What every run of the periodic job state machine keeps. */
module PeriodicProofs {
  import opened Periodic

  /** A period callback that lands between the two writes that end a job and goes on to report. */
  predicate InGap(w: World, e: Event) {
    w.main.MidEnd? && (e.Period? || e.PostFails?)
  }

  /** No such callback in the whole run. */
  predicate GapFree(events: seq<Event>, o: Options)
    requires IsRun(events, o)
  {
    events == [] ||
    (GapFree(events[..|events| - 1], o)
     && !InGap(Reach(events[..|events| - 1], o), events[|events| - 1]))
  }

  function Ends(log: seq<Entry>): (r: seq<Stamp>)
    ensures |r| == |log|
    ensures forall k :: 0 <= k < |log| ==> r[k] == log[k].report.jobEnd
  {
    seq(|log|, k requires 0 <= k < |log| => log[k].report.jobEnd)
  }

  // ---------- The phases of a job ----------

  predicate Outside(m: Main) {
    m.AtLoop? || m.Waiting? || m.FinalWait? || (m.Stopped? && !m.acquired)
  }

  /** Before the first period callback. */
  predicate Fresh(w: World) {
    && w.s.start == UNSET && w.s.jobEnd == UNSET && w.s.semaphore == 0 && Outside(w.main)
    && w.log == [] && w.ends == [] && w.openings == []
  }

  /** A window is open, its job not yet taken by the main thread. */
  predicate Posted(w: World) {
    w.s.semaphore == 1 && w.s.jobEnd == UNSET && Outside(w.main) && w.ends == Ends(w.log)
  }

  predicate InJob(w: World) {
    && w.s.semaphore == 0 && w.ends == Ends(w.log)
    && ((w.main.Running? && w.s.jobEnd == UNSET)
        || (w.main.MidEnd? && w.main.endClocks > 0 && w.s.jobEnd == Stamp(w.main.endClocks, 0.0)))
  }

  /** The job has finished and its report is still to come. */
  predicate Pending(w: World) {
    && w.s.semaphore == 0 && w.s.jobEnd.Set() && Outside(w.main)
    && w.ends == Ends(w.log) + [w.s.jobEnd]
  }

  /** The final wait has taken the post of the last report. */
  predicate Over(w: World) {
    w.s.semaphore == 0 && w.s.jobEnd == UNSET && w.main == Stopped(true, true) && w.ends == Ends(w.log)
  }

  /** A callback has ended the process. */
  predicate Dead(w: World) {
    w.main.Exited? && w.s.semaphore <= 1 && w.ends == Ends(w.log) + if w.s.jobEnd.Set() then [w.s.jobEnd] else []
  }

  predicate Phases(w: World) {
    && w.now.time >= 0.0
    && (Fresh(w) || Dead(w) || (w.s.start.Set() && (Posted(w) || InJob(w) || Pending(w) || Over(w))))
  }

  lemma PhasesKept(w: World, e: Event, o: Options)
    requires Phases(w) && Enabled(w, e, o) && !InGap(w, e)
    ensures Phases(Next(w, e, o))
  {
    if e.Period? || e.PostFails? {
      PeriodPhases(w, e.at, o, e.Period?);
    } else {
      var w' := Next(w, e, o);
      assert w'.log == w.log;
    }
  }

  lemma PeriodPhases(w: World, at: Stamp, o: Options, posted: bool)
    requires Phases(w) && CanCall(w, at) && !w.main.MidEnd?
    ensures var w' := AfterPeriod(w, at, o, posted);
            Phases(if posted then w' else w'.(main := Exited))
    ensures Opens(Stamped(w.s, at, o.separateTimer)) ==> Fresh(w) || Pending(w)
  {
    var w' := AfterPeriod(w, at, o, posted);
    if Pending(w) {
      assert w'.log[..|w.log|] == w.log;
      assert Ends(w'.log) == Ends(w.log) + [w.s.jobEnd];
    } else {
      assert w'.log == w.log;
    }
  }

  // ---------- Windows ----------

  /** Each report's window runs from one opening to the next, which is the callback that printed it. */
  predicate Tiled(w: World) {
    if w.s.start == UNSET then w.openings == [] && w.log == []
    else
      && w.s.start.Set()
      && |w.openings| == |w.log| + 1 && w.openings[|w.log|] == w.s.start
      && forall k :: 0 <= k < |w.log| ==>
           w.log[k].report.start == w.openings[k] && w.log[k].at == w.openings[k + 1]
  }

  lemma TiledKept(w: World, e: Event, o: Options)
    requires Tiled(w) && Enabled(w, e, o) && w.now.time >= 0.0
    ensures Tiled(Next(w, e, o))
  {
  }

  predicate NotAfter(a: Stamp, b: Stamp) {
    a.clocks <= b.clocks && a.time <= b.time
  }

  /** The stamps of the open window: its end is the first callback in it, and each half of the end of
      the job is later than every callback before it. */
  predicate Window(w: World) {
    && w.now.time >= 0.0 && w.launched == |w.ends|
    && (w.callbacks == 0 ==> w.s.end == UNSET)
    && (w.callbacks > 0 ==> w.s.end.Set() && NotAfter(w.s.end, w.now))
    && (w.main.Exited? || JobEndLast(w.s.end, w.s.jobEnd, w.now))
  }

  predicate JobEndLast(end: Stamp, jobEnd: Stamp, now: Stamp) {
    && (jobEnd.clocks > 0 ==> end.clocks < jobEnd.clocks <= now.clocks)
    && jobEnd.time >= 0.0 && (jobEnd.time > 0.0 ==> end.time < jobEnd.time <= now.time)
  }

  lemma WindowKept(w: World, e: Event, o: Options)
    requires Window(w) && Enabled(w, e, o)
    ensures Window(Next(w, e, o))
  {
  }

  /** Without a timer of its own, the deadline is the end of the period; every callback after the
      first one in a window prints a skipped deadline. */
  predicate Deadlines(w: World) {
    && w.s.deadline == w.s.end
    && (w.callbacks > 0 ==> NotAfter(w.s.lastDeadline, w.now))
    && (w.callbacks == 1 ==> w.s.lastDeadline == w.s.deadline)
    && (w.callbacks > 1 ==> Later(w.s.deadline, w.s.lastDeadline))
    && w.skips == (if w.callbacks <= 1 then 0 else w.callbacks - 1)
  }

  lemma DeadlinesKept(w: World, e: Event, o: Options)
    requires Tiled(w) && Window(w) && Deadlines(w) && !o.separateTimer && Enabled(w, e, o)
    ensures Deadlines(Next(w, e, o))
  {
  }

  /** What a log entry says when the deadline has no timer of its own. */
  predicate EntryOk(e: Entry) {
    && e.callbacks >= 1
    && e.report.deadline == e.report.end
    && (e.report.end == e.at <==> e.callbacks == 1)
    && (e.report.Met() <==> e.callbacks == 1 && e.report.jobEnd.Set())
    && e.skips == (if e.callbacks <= 2 then 0 else e.callbacks - 2)
  }

  predicate Entries(w: World) {
    forall k :: 0 <= k < |w.log| ==> EntryOk(w.log[k])
  }

  lemma EntriesKept(w: World, e: Event, o: Options)
    requires Window(w) && Deadlines(w) && Entries(w) && !o.separateTimer && Enabled(w, e, o)
    ensures Entries(Next(w, e, o))
  {
  }

  /** With a timer of its own, the deadline is the first deadline callback in the window, if there was one. */
  predicate FirstDeadline(w: World) {
    && w.s.deadline == (if w.deadlines == [] then UNSET else w.deadlines[0])
    && (w.deadlines != [] ==> w.deadlines[0].Set())
  }

  predicate SeparateOk(e: Entry) {
    && e.report.deadline == (if e.deadlines == [] then UNSET else e.deadlines[0])
    && (e.report.Met() <==> e.deadlines != [] && e.report.jobEnd.Set() && NotAfter(e.report.jobEnd, e.deadlines[0]))
  }

  predicate SeparateEntries(w: World) {
    forall k :: 0 <= k < |w.log| ==> SeparateOk(w.log[k])
  }

  lemma SeparateKept(w: World, e: Event, o: Options)
    requires Window(w) && FirstDeadline(w) && SeparateEntries(w) && o.separateTimer && Enabled(w, e, o)
    ensures FirstDeadline(Next(w, e, o)) && SeparateEntries(Next(w, e, o))
  {
  }

  // ---------- All runs ----------

  /** What every run keeps, wherever its callbacks fall. */
  lemma {:induction false} EveryRun(events: seq<Event>, o: Options)
    requires IsRun(events, o)
    ensures var w := Reach(events, o); Tiled(w) && Window(w)
    ensures !o.separateTimer ==> var w := Reach(events, o); Deadlines(w) && Entries(w)
    ensures o.separateTimer ==> var w := Reach(events, o); FirstDeadline(w) && SeparateEntries(w)
  {
    hide Tiled, Window, Deadlines, Entries, FirstDeadline, SeparateEntries, Next, Enabled;
    if events == [] {
      AtStart();
    } else {
      var before, e := events[..|events| - 1], events[|events| - 1];
      EveryRun(before, o);
      var w := Reach(before, o);
      assert w.now.time >= 0.0 by { NowPositive(w); }
      TiledKept(w, e, o);
      WindowKept(w, e, o);
      if o.separateTimer {
        SeparateKept(w, e, o);
      } else {
        DeadlinesKept(w, e, o);
        EntriesKept(w, e, o);
      }
    }
  }

  lemma AtStart()
    ensures Tiled(START) && Window(START) && Deadlines(START) && Entries(START)
    ensures FirstDeadline(START) && SeparateEntries(START)
  {
  }

  lemma NowPositive(w: World)
    requires Window(w)
    ensures w.now.time >= 0.0
  {
  }

  /** The invariant of every run in which no callback falls between the two writes. */
  lemma {:induction false} GapFreeRuns(events: seq<Event>, o: Options)
    requires IsRun(events, o) && GapFree(events, o)
    ensures Phases(Reach(events, o))
  {
    if events != [] {
      var before, e := events[..|events| - 1], events[|events| - 1];
      GapFreeRuns(before, o);
      PhasesKept(Reach(before, o), e, o);
    }
  }

  /** The event posts on the semaphore, or tries to. */
  predicate Posts(w: World, e: Event, o: Options)
    requires Enabled(w, e, o)
  {
    e.PostFails? || Next(w, e, o).s.semaphore > w.s.semaphore
  }

  /** No event posts from the start of a job until both its end stamps are written. */
  predicate NoneDuringJob(events: seq<Event>, o: Options)
    requires IsRun(events, o)
  {
    events == [] ||
    var before, e := events[..|events| - 1], events[|events| - 1];
    var w := Reach(before, o);
    NoneDuringJob(before, o) && !((w.main.Running? || w.main.MidEnd?) && Posts(w, e, o))
  }

  /** No post happens while a job is running if and only if no period callback falls between the two writes
      that end a job. In such a run the semaphore is 0 or 1. */
  lemma {:induction false} NoPostDuringJob(events: seq<Event>, o: Options)
    requires IsRun(events, o)
    ensures NoneDuringJob(events, o) <==> GapFree(events, o)
    ensures GapFree(events, o) ==> Reach(events, o).s.semaphore <= 1
  {
    hide Phases, Posts, InGap, Next, Enabled;
    if GapFree(events, o) {
      GapFreeRuns(events, o);
      AtMostOne(Reach(events, o));
    }
    if events != [] {
      var before, e := events[..|events| - 1], events[|events| - 1];
      NoPostDuringJob(before, o);
      if GapFree(before, o) {
        GapFreeRuns(before, o);
        PostsWhenDone(Reach(before, o), e, o);
      }
    }
  }

  lemma AtMostOne(w: World)
    requires Phases(w)
    ensures w.s.semaphore <= 1
  {
  }

  lemma PostsWhenDone(w: World, e: Event, o: Options)
    requires Phases(w) && Enabled(w, e, o)
    ensures (w.main.Running? || w.main.MidEnd?) && Posts(w, e, o) <==> InGap(w, e)
  {
  }

  // ---------- How many jobs are launched ----------

  /** While the number of tasks is not reached, and never beyond it; the loop ends at that number or at the time
      limit. */
  predicate LaunchesOk(w: World, o: Options, limited: bool) {
    && (o.tasks > 0 ==> w.launched <= o.tasks)
    && (o.tasks > 0 && (w.main.Waiting? || w.main.Running? || w.main.MidEnd?) ==> w.launched < o.tasks)
    && (limited ==> o.timed && (w.main.FinalWait? || (w.main.Stopped? && w.main.success) || w.main.Exited?))
    && ((w.main.FinalWait? || (w.main.Stopped? && w.main.success)) && !limited ==> o.tasks > 0 && w.launched == o.tasks)
  }

  lemma LaunchesKept(w: World, e: Event, o: Options, limited: bool)
    requires LaunchesOk(w, o, limited) && Enabled(w, e, o)
    ensures LaunchesOk(Next(w, e, o), o, limited || e == TimeLimit)
  {
  }

  lemma {:induction false} AlwaysLaunchesOk(events: seq<Event>, o: Options)
    requires IsRun(events, o)
    ensures LaunchesOk(Reach(events, o), o, TimeLimit in events)
    ensures !o.timed ==> TimeLimit !in events
  {
    if events != [] {
      var before, e := events[..|events| - 1], events[|events| - 1];
      AlwaysLaunchesOk(before, o);
      LaunchesKept(Reach(before, o), e, o, TimeLimit in before);
      assert events == before + [e];
    }
  }

  /** With a number of tasks, the jobs launched and the one in progress never exceed it. Without a time limit the
      final wait is entered, and success returned, only after exactly that many jobs, and never when no number is
      given. Back at the loop, the main thread waits for another job exactly when some are left or no number is
      given. After the time limit no other job is launched. */
  lemma LaunchCount(events: seq<Event>, o: Options)
    requires IsRun(events, o)
    ensures var w := Reach(events, o);
            var inProgress := if w.main.Running? || w.main.MidEnd? then 1 else 0;
            var leaving := w.main.FinalWait? || w.main == Stopped(true, true) || w.main == Stopped(true, false);
            && (o.tasks > 0 ==> w.launched + inProgress <= o.tasks)
            && (TimeLimit in events ==> leaving || w.main.Exited?)
            && (leaving && (!o.timed || TimeLimit !in events) ==> o.tasks > 0 && w.launched == o.tasks)
            && (w.main == AtLoop ==> (Enabled(w, EnterWait, o) <==> o.tasks == 0 || w.launched < o.tasks))
            && (w.main == AtLoop ==> (Enabled(w, LoopEnds, o) <==> o.tasks > 0 && w.launched == o.tasks))
  {
    AlwaysLaunchesOk(events, o);
  }

  /** Launched jobs and reports differ by at most the job whose end stamp is still set. When the final wait has been
      granted, the reports are those of all launched jobs if and only if no callback fell into a gap; without a time
      limit these are as many as there are tasks. */
  lemma ReportsAtReturn(events: seq<Event>, o: Options)
    requires IsRun(events, o)
    ensures var w := Reach(events, o);
            && w.launched == |w.ends|
            && (GapFree(events, o) ==> w.launched == |w.log| + if w.s.jobEnd.Set() then 1 else 0)
            && (w.main == Stopped(true, true) ==> (Ends(w.log) == w.ends <==> GapFree(events, o)))
            && (w.main == Stopped(true, true) && GapFree(events, o) && !o.timed ==> o.tasks > 0 && |w.log| == o.tasks)
  {
    EveryRun(events, o);
    LaunchCount(events, o);
    if GapFree(events, o) {
      GapFreeRuns(events, o);
    } else {
      ReportedOnceInOrder(events, o);
    }
  }

  // ---------- Runs that show the exceptions ----------

  /** The final wait ignores errors other than interruptions: this run returns success with its
      only job not reported. */
  lemma FailedFinalWaitLosesReport()
    ensures exists events, o :: IsRun(events, o) && GapFree(events, o)
              && var w := Reach(events, o); w.main == Stopped(true, false) && w.launched == 1 && w.log == []
  {
    hide IsRun, GapFree, Reach;
    var o := Options(1, false, false);
    var events, w := FirstJobEnds(o);
    var w1 := Then(events, w, LoopEnds, o);
    var w2 := Then(events + [LoopEnds], w1, FinalFails, o);
  }

  lemma FirstJobEnds(o: Options) returns (events: seq<Event>, w: World)
    requires !o.separateTimer
    ensures IsRun(events, o) && GapFree(events, o) && Reach(events, o) == w
    ensures w.main == AtLoop && w.launched == 1 && w.log == []
  {
    hide IsRun, GapFree, Reach;
    var before, w0 := FirstJobStarts(o);
    var w1 := Then(before, w0, EndClocks(2), o);
    w := Then(before + [EndClocks(2)], w1, EndTime(2.0), o);
    events := before + [EndClocks(2)] + [EndTime(2.0)];
  }

  lemma FirstJobStarts(o: Options) returns (events: seq<Event>, w: World)
    requires !o.separateTimer
    ensures IsRun(events, o) && GapFree(events, o) && Reach(events, o) == w
    ensures w == World(Shared(Stamp(1, 1.0), UNSET, UNSET, UNSET, Stamp(1, 1.0), 0, []), Running, 0, Stamp(1, 1.0),
                       [], [Stamp(1, 1.0)], 0, [], 0, [])
  {
    var first := Period(Stamp(1, 1.0));
    var w1 := Then([], START, first, o);
    var w2 := Then([] + [first], w1, EnterWait, o);
    w := Then([] + [first] + [EnterWait], w2, Acquire, o);
    events := [] + [first] + [EnterWait] + [Acquire];
  }

  lemma Then(events: seq<Event>, w: World, e: Event, o: Options) returns (w': World)
    requires IsRun(events, o) && Reach(events, o) == w && Enabled(w, e, o)
    ensures w' == Next(w, e, o)
    ensures IsRun(events + [e], o) && Reach(events + [e], o) == w'
    ensures GapFree(events + [e], o) <==> GapFree(events, o) && !InGap(w, e)
  {
    assert (events + [e])[..|events|] == events;
    w' := Next(w, e, o);
  }

  /** A run with a callback in the gap: the job is reported with half its end stamp, and its window is closed
      and the next job posted before the job has ended. */
  lemma GapReportsHalfAStamp(o: Options) returns (events: seq<Event>, w: World)
    requires o == Options(0, false, false)
    ensures IsRun(events, o) && !GapFree(events, o) && Reach(events, o) == w
    ensures w.main == MidEnd(2) && w.launched == 0 && w.s.semaphore == 1 && w.s.jobEnd == UNSET
      && w.now == Stamp(3, 2.0)
    ensures w.s.start == Stamp(3, 2.0) && |w.log| == 1 && w.log[0].report.jobEnd == Stamp(2, 0.0)
  {
    hide IsRun, GapFree, Reach;
    var before, w0 := FirstJobStarts(o);
    var w1 := Then(before, w0, EndClocks(2), o);
    w := Then(before + [EndClocks(2)], w1, Period(Stamp(3, 2.0)), o);
    events := before + [EndClocks(2)] + [Period(Stamp(3, 2.0))];
  }

  /** After that, the late second write makes the next callback post while a job is running. */
  lemma GapPostsDuringJob()
    ensures exists events, o, at :: IsRun(events, o) && Enabled(Reach(events, o), Period(at), o)
              && var w := Reach(events, o); w.main.Running? && Posts(w, Period(at), o)
  {
    hide IsRun, GapFree, Reach;
    var o := Options(0, false, false);
    var events, w := GapReportsHalfAStamp(o);
    var w1 := Then(events, w, EndTime(3.0), o);
    var events1 := events + [EndTime(3.0)];
    var w2 := Then(events1, w1, EnterWait, o);
    var w3 := Then(events1 + [EnterWait], w2, Acquire, o);
    assert Posts(w3, Period(Stamp(4, 4.0)), o);
  }

  /** Or, if it comes before the next job has been taken, raises the semaphore to two. */
  lemma GapPostsTwice()
    ensures exists events, o :: IsRun(events, o) && Reach(events, o).s.semaphore == 2 && Reach(events, o).launched == 1
  {
    hide IsRun, GapFree, Reach;
    var o := Options(0, false, false);
    var events, w := GapReportsHalfAStamp(o);
    var w1 := Then(events, w, EndTime(3.0), o);
    var w2 := Then(events + [EndTime(3.0)], w1, Period(Stamp(4, 4.0)), o);
    assert w2.s.semaphore == 2 && w2.launched == 1;
  }

  // ---------- Reported windows and deadlines ----------

  /** In every run the reported windows tile it from the first callback on. */
  lemma WindowsTile(events: seq<Event>, o: Options, k: nat)
    requires IsRun(events, o) && k + 1 < |Reach(events, o).log|
    ensures var log := Reach(events, o).log; log[k + 1].report.start == log[k].at
  {
    EveryRun(events, o);
  }

  /** With no separate deadline timer the reported deadline is the reported end of the period, and a deadline is
      met exactly when the job is reported by the first callback after its start with both halves of its end. */
  lemma MetMeansFirstCallback(events: seq<Event>, o: Options, k: nat)
    requires IsRun(events, o) && !o.separateTimer && k < |Reach(events, o).log|
    ensures var e := Reach(events, o).log[k];
            && e.report.deadline == e.report.end
            && (e.report.end == e.at <==> e.callbacks == 1)
            && (e.report.Met() <==> e.callbacks == 1 && e.report.jobEnd.Set())
            && (GapFree(events, o) ==> e.report.jobEnd.Set())
            && e.skips == (if e.callbacks <= 2 then 0 else e.callbacks - 2)
  {
    EveryRun(events, o);
    assert EntryOk(Reach(events, o).log[k]);
    if GapFree(events, o) {
      ReportedOnceInOrder(events, o);
      EndsAreSet(events, o);
      assert Ends(Reach(events, o).log)[k] == Reach(events, o).ends[k];
    }
  }

  /** With a separate deadline timer a job is met exactly when a deadline callback fell into its window and both
      halves of the job's end are no later than the first one. Without any the reported deadline is zero, and the job
      is missed however early it ended. */
  lemma MetMeansBeforeDeadline(events: seq<Event>, o: Options, k: nat)
    requires IsRun(events, o) && o.separateTimer && k < |Reach(events, o).log|
    ensures var e := Reach(events, o).log[k];
            if e.deadlines == [] then e.report.deadline == UNSET && !e.report.Met()
            else
              && e.report.deadline == e.deadlines[0]
              && (e.report.Met() <==> e.report.jobEnd.Set() && NotAfter(e.report.jobEnd, e.deadlines[0]))
              && (GapFree(events, o) ==> e.report.jobEnd.Set())
  {
    EveryRun(events, o);
    assert SeparateOk(Reach(events, o).log[k]);
    if GapFree(events, o) {
      ReportedOnceInOrder(events, o);
      EndsAreSet(events, o);
      assert Ends(Reach(events, o).log)[k] == Reach(events, o).ends[k];
    }
  }

  /** The deadline callbacks of the window are in order, and the last one is kept. */
  predicate LastDeadline(w: World) {
    && w.now.time >= 0.0
    && (forall i :: 0 <= i < |w.deadlines| ==> NotAfter(w.deadlines[i], w.now))
    && (forall i, j :: 0 <= i < j < |w.deadlines| ==> Later(w.deadlines[i], w.deadlines[j]))
    && (w.deadlines != [] ==> w.s.lastDeadline == w.deadlines[|w.deadlines| - 1])
  }

  lemma LastDeadlineKept(w: World, e: Event, o: Options)
    requires LastDeadline(w) && o.separateTimer && Enabled(w, e, o)
    ensures LastDeadline(Next(w, e, o))
  {
  }

  lemma {:induction false} AlwaysLastDeadline(events: seq<Event>, o: Options)
    requires IsRun(events, o) && o.separateTimer
    ensures LastDeadline(Reach(events, o))
  {
    hide LastDeadline, Next, Enabled;
    if events == [] {
      assert LastDeadline(START) by { NoDeadlineYet(); }
    } else {
      AlwaysLastDeadline(events[..|events| - 1], o);
      LastDeadlineKept(Reach(events[..|events| - 1], o), events[|events| - 1], o);
    }
  }

  lemma NoDeadlineYet()
    ensures LastDeadline(START)
  {
  }

  /** With a separate deadline timer, a period callback that finds a job unfinished prints a skipped deadline, the last
      one, when there were two or more in the window; and also when there was none, if one had come before. */
  lemma SkippedMeansSecondDeadline(events: seq<Event>, o: Options, at: Stamp)
    requires IsRun(events, o) && o.separateTimer && CanCall(Reach(events, o), at)
    ensures var w := Reach(events, o);
            var lines := NewLines(Stamped(w.s, at, true));
            var n := |w.deadlines|;
            && (w.s.start != UNSET && !Finished(w.s) ==>
                  lines == if n >= 2 then [Skipped(w.deadlines[n - 1])]
                           else if n == 0 && w.s.lastDeadline != UNSET then [Skipped(w.s.lastDeadline)] else [])
            && (w.s.start == UNSET ==> lines == [])
  {
    EveryRun(events, o);
    AlwaysLastDeadline(events, o);
    var w := Reach(events, o);
    if |w.deadlines| >= 2 {
      assert Later(w.deadlines[0], w.deadlines[|w.deadlines| - 1]);
    }
    hide IsRun, Reach, Window, SeparateEntries, Entries, Deadlines;
  }

  // ---------- How often the semaphore is posted ----------

  /** A callback in the gap closes the window of a job that has not ended: one post too many. */
  predicate ClosesEarly(w: World, e: Event) {
    w.main.MidEnd? && e.Period? && Finished(w.s)
  }

  /** The end of a job overwrites what a late second write has left: one post too few. */
  predicate Overwrites(w: World, e: Event) {
    e.EndClocks? && Finished(w.s)
  }

  /** Posts too many less posts too few. */
  function Surplus(events: seq<Event>, o: Options): int
    requires IsRun(events, o)
  {
    if events == [] then 0
    else
      var before, e := events[..|events| - 1], events[|events| - 1];
      var w := Reach(before, o);
      Surplus(before, o) + (if ClosesEarly(w, e) then 1 else 0) - if Overwrites(w, e) then 1 else 0
  }

  /** The job that is running, or the post that the final wait has taken. */
  function Taking(m: Main): nat {
    if m.Running? || m.MidEnd? || m == Stopped(true, true) then 1 else 0
  }

  /** An end stamp, or half of one, for which a callback will post. */
  function Waited(w: World): nat {
    if Finished(w.s) && !w.main.MidEnd? then 1 else 0
  }

  predicate Balanced(w: World, surplus: int) {
    if w.s.start == UNSET then
      w.s.semaphore == 0 && surplus == 0 && w.s.jobEnd == UNSET && (Taking(w.main) == 0 || w.main.Exited?)
    else
      surplus >= 0 && (w.main.Exited? || w.s.semaphore + Taking(w.main) + Waited(w) == 1 + surplus)
  }

  lemma BalancedKept(w: World, e: Event, o: Options, surplus: int)
    requires Tiled(w) && Window(w) && Balanced(w, surplus) && Enabled(w, e, o)
    ensures Balanced(Next(w, e, o),
                     surplus + (if ClosesEarly(w, e) then 1 else 0) - if Overwrites(w, e) then 1 else 0)
  {
  }

  /** In every run the semaphore, the job that is running and the end stamp that waits for its callback add up to one
      and the surplus: more than one post stands exactly when gaps have left more of them than those two use up. */
  lemma {:induction false} SemaphoreIs(events: seq<Event>, o: Options)
    requires IsRun(events, o) && !Reach(events, o).main.Exited?
    ensures var w, surplus := Reach(events, o), Surplus(events, o);
            && surplus >= 0
            && w.s.semaphore + Taking(w.main) + Waited(w) == (if w.s.start == UNSET then 0 else 1) + surplus
            && (w.s.semaphore > 1 <==> surplus > Taking(w.main) + Waited(w))
            && (GapFree(events, o) ==> surplus == 0)
  {
    AlwaysBalanced(events, o);
    if GapFree(events, o) {
      NoSurplus(events, o);
    }
  }

  lemma {:induction false} AlwaysBalanced(events: seq<Event>, o: Options)
    requires IsRun(events, o)
    ensures Balanced(Reach(events, o), Surplus(events, o))
  {
    hide Balanced, Next, Enabled, Tiled, Window, ClosesEarly, Overwrites;
    if events == [] {
      assert Balanced(START, 0) by { BalancedAtStart(); }
    } else {
      var before, e := events[..|events| - 1], events[|events| - 1];
      AlwaysBalanced(before, o);
      EveryRun(before, o);
      BalancedKept(Reach(before, o), e, o, Surplus(before, o));
    }
  }

  lemma BalancedAtStart()
    ensures Balanced(START, 0)
  {
  }

  lemma {:induction false} NoSurplus(events: seq<Event>, o: Options)
    requires IsRun(events, o) && GapFree(events, o)
    ensures Surplus(events, o) == 0
  {
    if events != [] {
      var before, e := events[..|events| - 1], events[|events| - 1];
      NoSurplus(before, o);
      GapFreeRuns(before, o);
      NeitherInPhases(Reach(before, o), e, o);
    }
  }

  lemma NeitherInPhases(w: World, e: Event, o: Options)
    requires Phases(w) && Enabled(w, e, o) && !InGap(w, e)
    ensures !ClosesEarly(w, e) && !Overwrites(w, e)
  {
  }

  // ---------- The printed lines ----------

  function Completions(lines: seq<Line>): seq<Report> {
    if lines == [] then []
    else Completions(lines[..|lines| - 1]) + match lines[|lines| - 1] case Completed(r) => [r] case Skipped(_) => []
  }

  function Reports(log: seq<Entry>): seq<Report> {
    if log == [] then [] else Reports(log[..|log| - 1]) + [log[|log| - 1].report]
  }

  lemma CompletionsSnoc(lines: seq<Line>, line: Line)
    ensures Completions(lines + [line])
         == Completions(lines) + match line case Completed(r) => [r] case Skipped(_) => []
  {
    assert (lines + [line])[..|lines|] == lines;
  }

  lemma LogLinesKept(w: World, e: Event, o: Options)
    requires Enabled(w, e, o) && Completions(w.s.lines) == Reports(w.log)
    ensures var w' := Next(w, e, o); Completions(w'.s.lines) == Reports(w'.log)
  {
    if e.Period? || e.PostFails? {
      var s1 := Stamped(w.s, e.at, o.separateTimer);
      var news := NewLines(s1);
      assert s1.lines == w.s.lines;
      if news == [] {
        assert w.s.lines + news == w.s.lines;
      } else {
        assert news == [news[0]];
        CompletionsSnoc(w.s.lines, news[0]);
        var w' := Next(w, e, o);
        if news[0].Completed? {
          assert w'.log[..|w.log|] == w.log;
        }
      }
    }
  }

  /** The completed jobs among the printed lines are the log, in every run whatsoever. */
  lemma {:induction false} LinesAreLog(events: seq<Event>, o: Options)
    requires IsRun(events, o)
    ensures var w := Reach(events, o); Completions(w.s.lines) == Reports(w.log)
  {
    if events != [] {
      LinesAreLog(events[..|events| - 1], o);
      LogLinesKept(Reach(events[..|events| - 1], o), events[|events| - 1], o);
    }
  }

  // ---------- The gap between the two writes ----------

  lemma {:induction false} EndsAreSet(events: seq<Event>, o: Options)
    requires IsRun(events, o)
    ensures var w := Reach(events, o);
            && w.now.time >= 0.0 && (w.main.MidEnd? ==> w.main.endClocks > 0)
            && forall k :: 0 <= k < |w.ends| ==> w.ends[k].Set()
  {
    if events != [] {
      EndsAreSet(events[..|events| - 1], o);
    }
  }

  /** A callback in the gap reports the job with an end time of zero, and the report stays. */
  lemma {:induction false} GapLeavesTrace(events: seq<Event>, o: Options)
    requires IsRun(events, o) && !GapFree(events, o)
    ensures exists k :: 0 <= k < |Reach(events, o).log| && Reach(events, o).log[k].report.jobEnd.time == 0.0
  {
    var before, e := events[..|events| - 1], events[|events| - 1];
    var w, w' := Reach(before, o), Reach(events, o);
    assert w'.log[..|w.log|] == w.log;
    if GapFree(before, o) {
      GapFreeRuns(before, o);
      assert w'.log[|w.log|].report.jobEnd.time == 0.0;
    } else {
      GapLeavesTrace(before, o);
      var k :| 0 <= k < |w.log| && w.log[k].report.jobEnd.time == 0.0;
      assert w'.log[k] == w'.log[..|w.log|][k] == w.log[k];
    }
  }

  /** Every finished job is reported exactly once, in order and with the stamps of its end, if and only
      if no period callback falls between the two writes that end a job. */
  lemma ReportedOnceInOrder(events: seq<Event>, o: Options)
    requires IsRun(events, o)
    ensures var w := Reach(events, o); GapFree(events, o) <==> Ends(w.log) <= w.ends
  {
    var w := Reach(events, o);
    if GapFree(events, o) {
      GapFreeRuns(events, o);
    } else {
      GapLeavesTrace(events, o);
      EndsAreSet(events, o);
      var k :| 0 <= k < |w.log| && w.log[k].report.jobEnd.time == 0.0;
      assert Ends(w.log)[k].time == 0.0;
    }
  }
}
