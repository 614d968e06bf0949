/** The table of raw records as it grows: measurements are entered, and boards are scored again. */
module ScoreRuns {
  import opened Optional
  import opened Reals
  import opened ScoreFormulas
  import opened ScoreSpec
  import opened Scores

  // ---------- Entering a measurement ----------

  const BASELINE_BOARD := "LS2K1000LA"
  const BASELINE_OS := "SylixOS"

  /** The system all others are compared with, on any architecture. */
  predicate IsBaseline(t: Target) {
    t.board == BASELINE_BOARD && t.os == BASELINE_OS
  }

  /** A measurement before it becomes a record. */
  datatype Sample =
    | Timed(category: string, sub: string, item: string, metric: string, raw: Option<real>)
    | MissRate(item: string, rate: Option<real>)
    | Energy(field: string, joules: Option<real>, placeholder: bool)
  {
    /** Category, sub-category and item. */
    function Key(): (string, string, string) {
      match this
      case Timed(category, sub, item, _, _) => (category, sub, item)
      case MissRate(item, _) => ("realtime", "schedulability", item)
      case Energy(field, _, _) => ("power", field, "power_data")
    }

    function Raw(): Option<real> {
      match this
      case Timed(_, _, _, _, raw) => raw
      case MissRate(_, rate) => rate
      case Energy(_, joules, _) => joules
    }
  }

  function KeyOf(row: Row): (string, string, string) {
    (row.category, row.sub, row.item)
  }

  /** `get_baseline_value`: the raw value in the first record of the baseline system with this key. */
  function Baseline(rows: seq<Row>, key: (string, string, string)): Option<real> {
    if rows == [] then None
    else if IsBaseline(rows[0].target) && KeyOf(rows[0]) == key then rows[0].raw
    else Baseline(rows[1..], key)
  }

  /** `_fill_R_only`: the ratio and the status of a record. */
  function FillR(raw: Option<real>, baseline: Option<real>, metric: string, own: bool): (Option<real>, string) {
    if raw.None? then (None, "null_value")
    else if own then (Some(1.0), "ok")
    else if baseline.None? then (None, "baseline_missing")
    else
      var r := CalcR(raw, baseline, metric);
      (r, if r.Some? then "ok" else "null_value")
  }

  /** The ratio and the status of an energy, of which less is better. */
  function FillEnergy(joules: Option<real>, placeholder: bool, baseline: Option<real>, own: bool)
    : (Option<real>, string)
  {
    if placeholder || joules.None? || joules.value <= 0.0 then (None, "null_value")
    else if own then (Some(1.0), "ok")
    else if baseline.Some? && baseline.value > 0.0 then (Some(baseline.value / joules.value), "ok")
    else (None, "baseline_missing")
  }

  /** The record of a measurement, for this baseline. Only a miss rate gets its score at once. */
  function RecordOf(t: Target, s: Sample, baseline: Option<real>): Row {
    match s
    case Timed(category, sub, item, metric, raw) =>
      var (r, status) := FillR(raw, baseline, metric, IsBaseline(t));
      Row(t, category, sub, item, metric, status, raw, r, None)
    case MissRate(item, rate) =>
      Row(t, "realtime", "schedulability", item, "miss_rate", if rate.Some? then "ok" else "null_value", rate, None,
          if rate.Some? then Some(100.0 * (1.0 - rate.value)) else None)
    case Energy(field, joules, placeholder) =>
      var (r, status) := FillEnergy(joules, placeholder, baseline, IsBaseline(t));
      Row(t, "power", field, "power_data", "power", status, joules, r, None)
  }

  /** The baseline is looked up in the table at this moment. */
  function Recorded(rows: seq<Row>, t: Target, s: Sample): Row {
    RecordOf(t, s, Baseline(rows, s.Key()))
  }

  predicate SameKey(a: Row, b: Row) {
    a.target == b.target && a.category == b.category && a.sub == b.sub && a.item == b.item
  }

  /** `upsert_record` */
  function Upserted(rows: seq<Row>, row: Row): seq<Row> {
    if rows == [] then [row]
    else if SameKey(rows[0], row) then [row] + rows[1..]
    else [rows[0]] + Upserted(rows[1..], row)
  }

  // ---------- Runs ----------

  datatype Step = Enter(target: Target, sample: Sample) | Normalize(boards: set<(string, string)>)

  function After(rows: seq<Row>, step: Step): seq<Row> {
    match step
    case Enter(t, s) => Upserted(rows, Recorded(rows, t, s))
    case Normalize(boards) => RescoredOn(rows, boards)
  }

  function Table(steps: seq<Step>): seq<Row> {
    if steps == [] then [] else After(Table(steps[..|steps| - 1]), steps[|steps| - 1])
  }

  predicate RatesOk(steps: seq<Step>) {
    forall i :: 0 <= i < |steps| && steps[i].Enter? && steps[i].sample.MissRate? && steps[i].sample.rate.Some? ==>
      0.0 <= steps[i].sample.rate.value <= 1.0
  }

  /** The key is unique: a record replaces the one it repeats. */
  predicate UniqueKeys(rows: seq<Row>) {
    forall i, j :: 0 <= i < j < |rows| ==> !SameKey(rows[i], rows[j])
  }

  lemma {:induction false} UpsertedRows(rows: seq<Row>, row: Row)
    requires RowsInRange(rows) && InRange(row.score) && UniqueKeys(rows)
    ensures var r := Upserted(rows, row); RowsInRange(r) && UniqueKeys(r) && row in r
    ensures forall x :: x in Upserted(rows, row) <==> x == row || (x in rows && !SameKey(x, row))
  {
    if rows != [] {
      var r := Upserted(rows, row);
      if SameKey(rows[0], row) {
        assert rows == [rows[0]] + rows[1..];
      } else {
        UpsertedRows(rows[1..], row);
        assert rows == [rows[0]] + rows[1..];
      }
    }
  }

  lemma {:induction false} TableInRange(steps: seq<Step>)
    requires RatesOk(steps)
    ensures RowsInRange(Table(steps)) && UniqueKeys(Table(steps))
  {
    if steps != [] {
      var before, last := steps[..|steps| - 1], steps[|steps| - 1];
      TableInRange(before);
      var rows := Table(before);
      if last.Enter? {
        UpsertedRows(rows, Recorded(rows, last.target, last.sample));
      } else {
        forall i | 0 <= i < |rows| ensures InRange(RescoredOn(rows, last.boards)[i].score) {
          SaturationMonotone(rows[i].r, rows[i].r);
        }
      }
    }
  }

  /** Whatever measurements are entered and boards scored again, in any order: with miss rates within 0 and 1
      every score of every system lies within 0 and 100. */
  lemma StoredInRange(steps: seq<Step>, t: Target, k: Key)
    requires RatesOk(steps)
    ensures InRange(Score(Table(steps), t, k)) && InRange(Score(RescoredAll(Table(steps)), t, k))
  {
    hide Score, Saturation, RowsInRange;
    var rows := Table(steps);
    TableInRange(steps);
    ScoreInRange(rows, t, k);
    AllRescored(rows);
    ScoreInRange(RescoredAll(rows), t, k);
  }

  lemma AllRescored(rows: seq<Row>)
    requires RowsInRange(rows)
    ensures RowsInRange(RescoredAll(rows))
  {
    forall i | 0 <= i < |rows| ensures InRange(RescoredAll(rows)[i].score) {
      SaturationMonotone(rows[i].r, rows[i].r);
    }
  }

  /** An average miss rate is the schedulability score of its system at once: 100 for none missed, 0 for all. */
  lemma MissRateCounts(steps: seq<Step>, t: Target, rate: real)
    ensures Score(Table(steps + [Enter(t, MissRate("average_mr", Some(rate)))]), t, Sched) == Some(100.0 - 100.0 * rate)
  {
    var all := steps + [Enter(t, MissRate("average_mr", Some(rate)))];
    assert all[..|steps|] == steps;
    var sample := MissRate("average_mr", Some(rate));
    var row := RecordOf(t, sample, Baseline(Table(steps), sample.Key()));
    FirstUpserted(Table(steps), row);
    SchedIs(Table(all), t);
  }

  lemma {:induction false} FirstUpserted(rows: seq<Row>, row: Row)
    requires row.score.Some?
    ensures FirstIf(Upserted(rows, row), (x: Row) =>
                      x.target == row.target && x.category == row.category && x.sub == row.sub && x.item == row.item)
         == row.score
  {
    if rows != [] && !SameKey(rows[0], row) {
      FirstUpserted(rows[1..], row);
    }
  }

  // ---------- A better measurement ----------

  /** A better positive value: larger for a bandwidth, smaller otherwise. */
  predicate BetterRaw(s: Sample, was: Option<real>, now: Option<real>) {
    && was.Some? && now.Some? && was.value > 0.0 && now.value > 0.0
    && if s.Timed? && s.metric != "latency" then was.value <= now.value else now.value <= was.value
  }

  /** The same measurement with a better value; a miss rate may be zero. */
  predicate Better(a: Sample, b: Sample) {
    match a
    case Timed(_, _, _, _, was) => b.Timed? && b == a.(raw := b.raw) && BetterRaw(a, was, b.raw)
    case MissRate(_, was) => b.MissRate? && b.item == a.item && was.Some? && b.rate.Some? && b.rate.value <= was.value
    case Energy(_, was, _) => b.Energy? && b == a.(joules := b.joules) && BetterRaw(a, was, b.joules)
  }

  /** A raw value of the baseline system is the same, or, for the key of the measurement that has moved, a better one
      in the first table. */
  predicate SameOrMoved(key: (string, string, string), lo: Option<real>, hi: Option<real>, moved: Option<Sample>) {
    lo == hi || (moved.Some? && key == moved.value.Key() && BetterRaw(moved.value, hi, lo))
  }

  /** The same record with a ratio and a score that are no better. */
  predicate RowBelow(lo: Row, hi: Row, moved: Option<Sample>) {
    && SameKey(lo, hi) && lo.metric == hi.metric && lo.status == hi.status
    && Leq(Saturation(lo.r), Saturation(hi.r)) && Leq(lo.score, hi.score)
    && (IsBaseline(lo.target) ==> SameOrMoved(KeyOf(lo), lo.raw, hi.raw, moved))
  }

  predicate Below(lo: seq<Row>, hi: seq<Row>, moved: Option<Sample>) {
    |lo| == |hi| && forall i :: 0 <= i < |lo| ==> RowBelow(lo[i], hi[i], moved)
  }

  lemma {:induction false} BaselineBelow(lo: seq<Row>, hi: seq<Row>, moved: Option<Sample>,
      key: (string, string, string))
    requires Below(lo, hi, moved)
    ensures SameOrMoved(key, Baseline(lo, key), Baseline(hi, key), moved)
  {
    if lo != [] {
      hide Saturation;
      assert RowBelow(lo[0], hi[0], moved);
      BaselineBelow(lo[1..], hi[1..], moved, key);
    }
  }

  /** A ratio does not grow with its baseline made better, whatever the measurement. */
  lemma WorseRatio(m: real, lo: real, hi: real, metric: string)
    requires m != 0.0 && lo > 0.0 && hi > 0.0 && if metric == "latency" then lo <= hi else hi <= lo
    ensures Leq(Saturation(CalcR(Some(m), Some(lo), metric)), Saturation(CalcR(Some(m), Some(hi), metric)))
  {
    if m > 0.0 {
      if metric == "latency" {
        FractionLeq(lo, m, hi, m);
        assert lo * m <= hi * m;
      } else {
        FractionLeq(m, lo, m, hi);
        assert m * hi <= m * lo;
      }
      SaturationMonotone(CalcR(Some(m), Some(lo), metric), CalcR(Some(m), Some(hi), metric));
    } else {
      NegativeRatio(m, lo); NegativeRatio(m, hi); NegativeRatio(lo, m); NegativeRatio(hi, m);
    }
  }

  lemma NegativeRatio(x: real, y: real)
    requires x * y < 0.0 && y != 0.0
    ensures x / y < 0.0
  {
    var q := x / y;
    SameProduct(y, q * y, x);
    NegativeFactor(q, y * y);
  }

  lemma NegativeFactor(q: real, s: real)
    requires q * s < 0.0 && s > 0.0
    ensures q < 0.0
  {
  }

  /** A better measurement against any baseline. */
  lemma BetterAgainst(was: real, now: real, baseline: real, metric: string)
    requires was > 0.0 && now > 0.0 && if metric == "latency" then now <= was else was <= now
    ensures Leq(Saturation(CalcR(Some(was), Some(baseline), metric)),
                Saturation(CalcR(Some(now), Some(baseline), metric)))
  {
    if baseline > 0.0 {
      BetterRatio(was, now, baseline, metric);
      SaturationMonotone(CalcR(Some(was), Some(baseline), metric), CalcR(Some(now), Some(baseline), metric));
    } else if baseline < 0.0 {
      Opposite(was, baseline); Opposite(now, baseline);
      NegativeRatio(was, baseline); NegativeRatio(baseline, was);
      NegativeRatio(now, baseline); NegativeRatio(baseline, now);
    }
  }

  lemma Opposite(x: real, y: real)
    requires x > 0.0 > y
    ensures x * y < 0.0 && y * x < 0.0
  {
  }

  /** The samples of the key that has moved are of its kind. */
  predicate Agrees(s: Sample, moved: Option<Sample>) {
    moved.Some? && s.Key() == moved.value.Key() ==>
      (s.Timed? && moved.value.Timed? && s.metric == moved.value.metric) || (s.Energy? && moved.value.Energy?)
  }

  /** One measurement entered into both tables. */
  lemma EnteredBelow(t: Target, s: Sample, lo: Option<real>, hi: Option<real>, moved: Option<Sample>)
    requires SameOrMoved(s.Key(), lo, hi, moved) && Agrees(s, moved)
    ensures RowBelow(RecordOf(t, s, lo), RecordOf(t, s, hi), moved)
  {
    if lo != hi && !IsBaseline(t) {
      match s
      case Timed(_, _, _, metric, raw) =>
        if raw.Some? && raw.value != 0.0 {
          WorseRatio(raw.value, lo.value, hi.value, metric);
        }
      case Energy(_, joules, _) =>
        if joules.Some? && joules.value > 0.0 {
          WorseRatio(joules.value, lo.value, hi.value, "latency");
        }
    }
  }

  /** The better of two measurements of a system that is not the baseline. */
  lemma BetterRecorded(t: Target, a: Sample, b: Sample, baseline: Option<real>)
    requires Better(a, b) && !IsBaseline(t)
    ensures RowBelow(RecordOf(t, a, baseline), RecordOf(t, b, baseline), None)
  {
    match a
    case Timed(_, _, _, metric, was) =>
      if baseline.Some? {
        BetterAgainst(was.value, b.raw.value, baseline.value, metric);
      }
    case MissRate(_, was) =>
    case Energy(_, was, placeholder) =>
      if baseline.Some? {
        BetterAgainst(was.value, b.joules.value, baseline.value, "latency");
      }
  }

  /** A better measurement of the baseline system leaves its own ratio at one. */
  lemma BaselineRecorded(t: Target, a: Sample, b: Sample, baseline: Option<real>)
    requires Better(a, b) && IsBaseline(t) && !a.MissRate?
    ensures RowBelow(RecordOf(t, b, baseline), RecordOf(t, a, baseline), Some(a))
  {
  }

  lemma {:induction false} UpsertedBelow(lo: seq<Row>, hi: seq<Row>, a: Row, b: Row, moved: Option<Sample>)
    requires Below(lo, hi, moved) && RowBelow(a, b, moved)
    ensures Below(Upserted(lo, a), Upserted(hi, b), moved)
  {
    hide RowBelow;
    if lo != [] {
      assert RowBelow(lo[0], hi[0], moved);
      KeysAgree(lo[0], hi[0], a, b, moved);
      if !SameKey(lo[0], a) {
        UpsertedBelow(lo[1..], hi[1..], a, b, moved);
      }
    }
  }

  lemma KeysAgree(x: Row, y: Row, a: Row, b: Row, moved: Option<Sample>)
    requires RowBelow(x, y, moved) && RowBelow(a, b, moved)
    ensures SameKey(x, a) <==> SameKey(y, b)
  {
  }

  lemma NormalizedBelow(lo: seq<Row>, hi: seq<Row>, moved: Option<Sample>, boards: set<(string, string)>)
    requires Below(lo, hi, moved)
    ensures Below(RescoredOn(lo, boards), RescoredOn(hi, boards), moved)
  {
    hide Saturation;
    forall i | 0 <= i < |lo| ensures RowBelow(RescoredOn(lo, boards)[i], RescoredOn(hi, boards)[i], moved) {
      assert RowBelow(lo[i], hi[i], moved);
      SaturationThere(lo[i].r, hi[i].r);
    }
  }

  lemma SameBelow(rows: seq<Row>, moved: Option<Sample>)
    ensures Below(rows, rows, moved)
  {
  }

  /** Two runs that differ in one measurement only, up to step n. */
  lemma {:induction false} RunsBelow(lo: seq<Step>, hi: seq<Step>, i: nat, n: nat, moved: Option<Sample>)
    requires |lo| == |hi| && i < n <= |lo| && lo[..i] == hi[..i] && lo[i + 1..] == hi[i + 1..]
    requires lo[i].Enter? && hi[i].Enter? && lo[i].target == hi[i].target && lo[i].sample.Key() == hi[i].sample.Key()
    requires var b := Baseline(Table(lo[..i]), lo[i].sample.Key());
             RowBelow(RecordOf(lo[i].target, lo[i].sample, b), RecordOf(hi[i].target, hi[i].sample, b), moved)
    requires forall j :: i < j < |lo| && lo[j].Enter? ==> Agrees(lo[j].sample, moved)
    ensures Below(Table(lo[..n]), Table(hi[..n]), moved)
  {
    hide RowBelow, Below, Agrees, Baseline, RecordOf, After;
    var x, y := Table(lo[..n - 1]), Table(hi[..n - 1]);
    TableNext(lo, n - 1);
    TableNext(hi, n - 1);
    if n == i + 1 {
      ChangedStep(x, lo[i].target, lo[i].sample, hi[i].sample, moved);
    } else {
      RunsBelow(lo, hi, i, n - 1, moved);
      assert lo[n - 1] == lo[i + 1..][n - 2 - i] == hi[n - 1];
      SameStep(x, y, lo[n - 1], moved);
    }
  }

  lemma TableNext(steps: seq<Step>, n: nat)
    requires n < |steps|
    ensures Table(steps[..n + 1]) == After(Table(steps[..n]), steps[n])
  {
    hide After;
    assert steps[..n + 1][..n] == steps[..n];
  }

  /** A different measurement, of the same system and key, entered into the same table. */
  lemma ChangedStep(rows: seq<Row>, t: Target, a: Sample, b: Sample, moved: Option<Sample>)
    requires a.Key() == b.Key()
    requires RowBelow(RecordOf(t, a, Baseline(rows, a.Key())), RecordOf(t, b, Baseline(rows, a.Key())), moved)
    ensures Below(After(rows, Enter(t, a)), After(rows, Enter(t, b)), moved)
  {
    hide RowBelow, Below, Baseline, RecordOf;
    SameBelow(rows, moved);
    UpsertedBelow(rows, rows, Recorded(rows, t, a), Recorded(rows, t, b), moved);
  }

  /** The same step on both tables. */
  lemma SameStep(lo: seq<Row>, hi: seq<Row>, step: Step, moved: Option<Sample>)
    requires Below(lo, hi, moved) && (step.Enter? ==> Agrees(step.sample, moved))
    ensures Below(After(lo, step), After(hi, step), moved)
  {
    hide RowBelow, Below, Agrees, Baseline, RecordOf;
    match step
    case Enter(t, s) =>
      BaselineBelow(lo, hi, moved, s.Key());
      EnteredBelow(t, s, Baseline(lo, s.Key()), Baseline(hi, s.Key()), moved);
      UpsertedBelow(lo, hi, Recorded(lo, t, s), Recorded(hi, t, s), moved);
    case Normalize(boards) =>
      NormalizedBelow(lo, hi, moved, boards);
  }

  lemma ScoresBelow(lo: seq<Row>, hi: seq<Row>, moved: Option<Sample>, u: Target, k: Key)
    requires Below(lo, hi, moved)
    ensures Leq(Score(lo, u, k), Score(hi, u, k)) && Leq(Score(RescoredAll(lo), u, k), Score(RescoredAll(hi), u, k))
  {
    hide Score, Saturation;
    forall i | 0 <= i < |lo| ensures RowLeq(lo[i], hi[i]) && Improves(lo[i], hi[i]) {
      assert RowBelow(lo[i], hi[i], moved);
      SaturationThere(lo[i].r, hi[i].r);
    }
    ScoreMonotone(lo, hi, u, k);
    BetterNeverLowers(lo, hi, u, k);
  }

  lemma SaturationThere(r: Option<real>, q: Option<real>)
    requires Leq(Saturation(r), Saturation(q))
    ensures r.Some? == q.Some?
  {
  }

  /** Replacing one measurement anywhere in a run by a better one lowers no score of any system, and makes none of
      them missing, unless it is a measurement of the baseline system. */
  lemma BetterMeasurement(steps: seq<Step>, i: nat, b: Sample, u: Target, k: Key)
    requires i < |steps| && steps[i].Enter? && Better(steps[i].sample, b) && !IsBaseline(steps[i].target)
    ensures var better := steps[i := Enter(steps[i].target, b)];
            && Leq(Score(Table(steps), u, k), Score(Table(better), u, k))
            && Leq(Score(RescoredAll(Table(steps)), u, k), Score(RescoredAll(Table(better)), u, k))
  {
    hide Score, RescoredAll, RowBelow, Below, RecordOf;
    var better := steps[i := Enter(steps[i].target, b)];
    BetterRecorded(steps[i].target, steps[i].sample, b, Baseline(Table(steps[..i]), b.Key()));
    RunsBelow(steps, better, i, |steps|, None);
    assert steps[..|steps|] == steps && better[..|steps|] == better;
    ScoresBelow(Table(steps), Table(better), None, u, k);
  }

  /** A better measurement of the baseline system, other than a miss rate, raises no score of any system. */
  lemma BetterBaseline(steps: seq<Step>, i: nat, b: Sample, u: Target, k: Key)
    requires i < |steps| && steps[i].Enter? && Better(steps[i].sample, b)
    requires IsBaseline(steps[i].target) && !b.MissRate?
    requires forall j :: i < j < |steps| && steps[j].Enter? ==> Agrees(steps[j].sample, Some(steps[i].sample))
    ensures var better := steps[i := Enter(steps[i].target, b)];
            && Leq(Score(Table(better), u, k), Score(Table(steps), u, k))
            && Leq(Score(RescoredAll(Table(better)), u, k), Score(RescoredAll(Table(steps)), u, k))
  {
    hide Score, RescoredAll, RowBelow, Below, RecordOf, Agrees;
    var better := steps[i := Enter(steps[i].target, b)];
    assert better[..i] == steps[..i];
    BaselineRecorded(steps[i].target, steps[i].sample, b, Baseline(Table(steps[..i]), b.Key()));
    RunsBelow(better, steps, i, |steps|, Some(steps[i].sample));
    assert steps[..|steps|] == steps && better[..|steps|] == better;
    ScoresBelow(Table(better), Table(steps), Some(steps[i].sample), u, k);
  }

  // ---------- A better baseline lowers others ----------

  const COMPARED := Target("B1", "OS", "arm64")

  /** The baseline system and one other are measured once, the other one always with the same result. */
  function TwoSystems(baseline: real): seq<Step> {
    [Enter(Target(BASELINE_BOARD, BASELINE_OS, "loongarch64"), SwitchTime(baseline)), Enter(COMPARED, SwitchTime(10.0))]
  }

  function SwitchTime(x: real): Sample {
    Timed("realtime", "context_switch_latency", "avg_us", "latency", Some(x))
  }

  /** In a table of two, the only record of system t is a context switch time with score v. */
  predicate OnlySwitchTime(rows: seq<Row>, t: Target, v: real) {
    && |rows| == 2 && rows[0].target != t && rows[1].target == t && rows[1].score == Some(v) && rows[0].score.Some?
    && forall i :: 0 <= i < 2 ==>
         rows[i].category == "realtime" && rows[i].sub == "context_switch_latency" && rows[i].status == "ok"
         && rows[i].item == "avg_us"
  }

  lemma TotalOf(rows: seq<Row>, t: Target, v: real)
    requires OnlySwitchTime(rows, t, v)
    ensures Score(rows, t, Total) == Some(24.0 + 0.6 * v)
  {
    hide Score, SubScore, Multicore, OnlyLatencies;
    TwoRecords(rows, t, "context_switch_latency");
    TwoRecords(rows, t, "interrupt_latency");
    TwoRecords(rows, t, "scheduling_latency");
    SwitchTimeIsLatency(rows, t, v);
    NothingElse(rows, t);
    BaseOfSwitch(rows, t, v);
    TotalOfLatencies(rows, t);
  }

  lemma SwitchTimeIsLatency(rows: seq<Row>, t: Target, v: real)
    requires OnlySwitchTime(rows, t, v)
    ensures OnlyLatencies(rows, t)
  {
  }

  lemma TwoRows(x: real)
    requires x > 0.0
    ensures OnlySwitchTime(RescoredAll(Table(TwoSystems(x))), COMPARED, Saturation(Some(x / 10.0)).value)
  {
    hide Saturation, RescoredAll, Upserted, RecordOf, Baseline, TwoSystems, Recorded;
    var steps := TwoSystems(x);
    var base := Target(BASELINE_BOARD, BASELINE_OS, "loongarch64");
    assert |steps| == 2 && steps[0] == Enter(base, SwitchTime(x)) && steps[1] == Enter(COMPARED, SwitchTime(10.0)) by {
      TheSteps(x);
    }
    TableNext(steps, 0);
    TableNext(steps, 1);
    assert steps[..0] == [] && steps[..2] == steps;
    var first, second := RecordOf(base, SwitchTime(x), None), RecordOf(COMPARED, SwitchTime(10.0), Some(x));
    assert Table(steps) == [first] + [second] by { UpsertTwo(x, base, first, second); }
    RescoredTwo(x, base, first, second);
  }

  lemma TheSteps(x: real)
    ensures TwoSystems(x)
         == [Enter(Target(BASELINE_BOARD, BASELINE_OS, "loongarch64"), SwitchTime(x)),
             Enter(COMPARED, SwitchTime(10.0))]
  {
  }

  lemma UpsertTwo(x: real, base: Target, first: Row, second: Row)
    requires base.board == BASELINE_BOARD && base.os == BASELINE_OS
    requires first == RecordOf(base, SwitchTime(x), None) && second == RecordOf(COMPARED, SwitchTime(10.0), Some(x))
    ensures Upserted([], Recorded([], base, SwitchTime(x))) == [first]
    ensures Upserted([first], Recorded([first], COMPARED, SwitchTime(10.0))) == [first] + [second]
  {
    assert first.raw == Some(x) && first.target == base && KeyOf(first) == SwitchTime(10.0).Key();
    assert second.target == COMPARED;
    assert Baseline([first], SwitchTime(10.0).Key()) == Some(x);
    assert [first][1..] == [];
  }

  lemma RescoredTwo(x: real, base: Target, first: Row, second: Row)
    requires x > 0.0 && base.board == BASELINE_BOARD && base.os == BASELINE_OS
    requires first == RecordOf(base, SwitchTime(x), None) && second == RecordOf(COMPARED, SwitchTime(10.0), Some(x))
    ensures OnlySwitchTime(RescoredAll([first] + [second]), COMPARED, Saturation(Some(x / 10.0)).value)
  {
    assert second.r == Some(x / 10.0) && Saturation(second.r).Some?;
    hide Saturation;
    assert ItemEligible(second);
    assert ItemEligible(first);
    var rows := RescoredAll([first] + [second]);
    assert rows[1] == Rescored(second) && rows[0] == Rescored(first);
  }

  /** Halving the time of the baseline system lowers the total of the other one from 72 to 64. */
  lemma BetterBaselineLowers()
    ensures Better(SwitchTime(10.0), SwitchTime(5.0)) && TwoSystems(5.0)[1..] == TwoSystems(10.0)[1..]
    ensures Score(RescoredAll(Table(TwoSystems(10.0))), COMPARED, Total) == Some(72.0)
    ensures Score(RescoredAll(Table(TwoSystems(5.0))), COMPARED, Total) == Some(64.0)
  {
    TwoRows(10.0);
    TwoRows(5.0);
    assert Saturation(Some(10.0 / 10.0)) == Some(80.0);
    assert Saturation(Some(5.0 / 10.0)) == Some(50.0 / 0.75);
    hide OnlySwitchTime, Score, RescoredAll, Table;
    TotalOf(RescoredAll(Table(TwoSystems(10.0))), COMPARED, 80.0);
    TotalOf(RescoredAll(Table(TwoSystems(5.0))), COMPARED, 50.0 / 0.75);
  }
}
