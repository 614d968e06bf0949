/** The score pipeline as functions of the table of raw records, over exact reals. */
module ScoreSpec {
  import opened Optional
  import opened Reals

  // ---------- Ratios and the saturation curve ----------

  const SATURATION_A := 0.25

  /** `calc_R`: how many times better than the baseline; a zero counts as not measured. */
  function CalcR(measured: Option<real>, baseline: Option<real>, metric: string): Option<real> {
    if measured.None? || baseline.None? || measured.value == 0.0 || baseline.value == 0.0 then None
    else if metric == "latency" then Some(baseline.value / measured.value)
    else Some(measured.value / baseline.value)
  }

  /** `saturation_score` */
  function Saturation(r: Option<real>): Option<real> {
    if r.None? then None
    else if r.value <= 0.0 then Some(0.0)
    else Some(100.0 * r.value / (SATURATION_A + r.value))
  }

  /** None on both sides, or a value on both with the second at least the first. */
  predicate Leq(a: Option<real>, b: Option<real>) {
    a.Some? == b.Some? && (a.Some? ==> a.value <= b.value)
  }

  predicate InRange(a: Option<real>) {
    a.Some? ==> 0.0 <= a.value <= 100.0
  }

  lemma Fraction(x: real, y: real)
    requires y > 0.0
    ensures x / y * y == x
  {
  }

  lemma FractionLeq(x: real, y: real, u: real, v: real)
    requires y > 0.0 && v > 0.0
    ensures x / y <= u / v <==> x * v <= u * y
  {
    var p, q := x / y, u / v;
    var yv := y * v;
    assert p * y == x && q * v == u;
    assert yv > 0.0;
    Rearrange(p, y, v, x);
    Rearrange(q, v, y, u);
    if p <= q {
      assert (q - p) * yv >= 0.0;
    } else {
      assert (p - q) * yv > 0.0;
    }
  }

  lemma Rearrange(p: real, y: real, v: real, x: real)
    requires p * y == x
    ensures p * (y * v) == x * v
  {
  }

  /** The curve stays within 0 and 100 and never falls. */
  lemma SaturationMonotone(r: Option<real>, q: Option<real>)
    requires Leq(r, q)
    ensures Leq(Saturation(r), Saturation(q)) && InRange(Saturation(r))
  {
    if r.Some? {
      SaturationBounded(r.value);
      SaturationBounded(q.value);
      if r.value > 0.0 {
        SaturationCross(r.value, q.value);
      }
    }
  }

  lemma SaturationBounded(r: real)
    ensures Saturation(Some(r)).Some? && 0.0 <= Saturation(Some(r)).value <= 100.0
  {
    if r > 0.0 {
      var s := 100.0 * r / (SATURATION_A + r);
      FractionLeq(0.0, 1.0, 100.0 * r, SATURATION_A + r);
      FractionLeq(100.0 * r, SATURATION_A + r, 100.0, 1.0);
    }
  }

  lemma SaturationCross(r: real, q: real)
    requires 0.0 < r <= q
    ensures 100.0 * r / (SATURATION_A + r) <= 100.0 * q / (SATURATION_A + q)
  {
    FractionLeq(100.0 * r, SATURATION_A + r, 100.0 * q, SATURATION_A + q);
    assert 100.0 * r * (SATURATION_A + q) <= 100.0 * q * (SATURATION_A + r);
  }

  /** A better measurement, smaller for a latency and larger otherwise, gives a ratio at least as high. */
  lemma BetterRatio(was: real, now: real, baseline: real, metric: string)
    requires was > 0.0 && now > 0.0 && baseline > 0.0
    requires if metric == "latency" then now <= was else was <= now
    ensures Leq(CalcR(Some(was), Some(baseline), metric), CalcR(Some(now), Some(baseline), metric))
  {
    if metric == "latency" {
      FractionLeq(baseline, was, baseline, now);
      assert baseline * now <= baseline * was;
    } else {
      FractionLeq(was, baseline, now, baseline);
      assert was * baseline <= now * baseline;
    }
  }

  // ---------- Means and weighted means that leave out what is missing ----------

  /** `_mean` */
  function Mean(xs: seq<real>): Option<real> {
    if xs == [] then None else Some(Sum(xs) / |xs| as real)
  }

  predicate AllLeq(xs: seq<real>, ys: seq<real>) {
    |xs| == |ys| && forall i :: 0 <= i < |xs| ==> xs[i] <= ys[i]
  }

  predicate AllInRange(xs: seq<real>) {
    forall i :: 0 <= i < |xs| ==> 0.0 <= xs[i] <= 100.0
  }

  lemma {:induction false} SumMonotone(xs: seq<real>, ys: seq<real>)
    requires AllLeq(xs, ys)
    ensures Sum(xs) <= Sum(ys)
  {
    if xs != [] {
      SumMonotone(xs[..|xs| - 1], ys[..|ys| - 1]);
    }
  }

  lemma {:induction false} SumInRange(xs: seq<real>)
    requires AllInRange(xs)
    ensures 0.0 <= Sum(xs) <= 100.0 * |xs| as real
  {
    if xs != [] {
      SumInRange(xs[..|xs| - 1]);
    }
  }

  lemma MeanMonotone(xs: seq<real>, ys: seq<real>)
    requires AllLeq(xs, ys)
    ensures Leq(Mean(xs), Mean(ys))
  {
    SumMonotone(xs, ys);
    if xs != [] {
      var n := |xs| as real;
      FractionLeq(Sum(xs), n, Sum(ys), n);
      assert Sum(xs) * n <= Sum(ys) * n;
    }
  }

  lemma MeanInRange(xs: seq<real>)
    requires AllInRange(xs)
    ensures InRange(Mean(xs))
  {
    SumInRange(xs);
    if xs != [] {
      var n := |xs| as real;
      FractionLeq(0.0, 1.0, Sum(xs), n);
      FractionLeq(Sum(xs), n, 100.0, 1.0);
    }
  }

  /** A score, if there is one, and its weight. */
  datatype Part = Part(score: Option<real>, weight: real)

  function TotalWeight(parts: seq<Part>): real {
    if parts == [] then 0.0
    else TotalWeight(parts[..|parts| - 1]) + if parts[|parts| - 1].score.Some? then parts[|parts| - 1].weight else 0.0
  }

  /** The available scores, each times its share of the weight that is available. */
  function Shares(parts: seq<Part>, total: real): real
    requires total != 0.0
  {
    if parts == [] then 0.0
    else
      var last := parts[|parts| - 1];
      Shares(parts[..|parts| - 1], total) + if last.score.Some? then last.weight * last.score.value / total else 0.0
  }

  /** `_weighted_avg` and `_partial_weighted` */
  function Weighted(parts: seq<Part>): Option<real> {
    if TotalWeight(parts) == 0.0 then None else Some(Shares(parts, TotalWeight(parts)))
  }

  predicate PositiveWeights(parts: seq<Part>) {
    forall i :: 0 <= i < |parts| ==> parts[i].weight > 0.0
  }

  /** The same parts with scores at least as high. */
  predicate PartsLeq(ps: seq<Part>, qs: seq<Part>) {
    |ps| == |qs| && forall i :: 0 <= i < |ps| ==> ps[i].weight == qs[i].weight && Leq(ps[i].score, qs[i].score)
  }

  predicate PartsInRange(ps: seq<Part>) {
    forall i :: 0 <= i < |ps| ==> InRange(ps[i].score)
  }

  lemma {:induction false} TotalWeightSame(ps: seq<Part>, qs: seq<Part>)
    requires PartsLeq(ps, qs) && PositiveWeights(ps)
    ensures TotalWeight(ps) == TotalWeight(qs) >= 0.0
  {
    if ps != [] {
      TotalWeightSame(ps[..|ps| - 1], qs[..|qs| - 1]);
    }
  }

  lemma ShareMonotone(w: real, v: real, u: real, total: real)
    requires w > 0.0 && v <= u && total > 0.0
    ensures w * v / total <= w * u / total
  {
    FractionLeq(w * v, total, w * u, total);
    assert w * v <= w * u;
    assert w * v * total <= w * u * total;
  }

  lemma {:induction false} SharesMonotone(ps: seq<Part>, qs: seq<Part>, total: real)
    requires PartsLeq(ps, qs) && PositiveWeights(ps) && total > 0.0
    ensures Shares(ps, total) <= Shares(qs, total)
  {
    if ps != [] {
      var p, q := ps[|ps| - 1], qs[|qs| - 1];
      SharesMonotone(ps[..|ps| - 1], qs[..|qs| - 1], total);
      if p.score.Some? {
        ShareMonotone(p.weight, p.score.value, q.score.value, total);
      }
    }
  }

  lemma WeightedMonotone(ps: seq<Part>, qs: seq<Part>)
    requires PartsLeq(ps, qs) && PositiveWeights(ps)
    ensures Leq(Weighted(ps), Weighted(qs))
  {
    TotalWeightSame(ps, qs);
    if TotalWeight(ps) != 0.0 {
      SharesMonotone(ps, qs, TotalWeight(ps));
    }
  }

  lemma ShareBounds(w: real, v: real, total: real)
    requires w > 0.0 && 0.0 <= v <= 100.0 && total > 0.0
    ensures 0.0 <= w * v / total && w * v / total * total <= 100.0 * w
  {
    FractionLeq(0.0, 1.0, w * v, total);
    assert 0.0 <= w * v <= w * 100.0;
    Fraction(w * v, total);
  }

  lemma {:induction false} SharesInRange(ps: seq<Part>, total: real)
    requires PartsInRange(ps) && PositiveWeights(ps) && total > 0.0
    ensures 0.0 <= Shares(ps, total) && Shares(ps, total) * total <= 100.0 * TotalWeight(ps)
  {
    if ps != [] {
      var p, init := ps[|ps| - 1], ps[..|ps| - 1];
      SharesInRange(init, total);
      if p.score.Some? {
        ShareBounds(p.weight, p.score.value, total);
        Distribute(Shares(init, total), p.weight * p.score.value / total, total);
      }
    }
  }

  lemma Distribute(a: real, b: real, t: real)
    ensures (a + b) * t == a * t + b * t
  {
  }

  lemma Positive(a: real, b: real)
    requires a > 0.0 && b > 0.0
    ensures a * b > 0.0
  {
  }

  lemma WeightedInRange(ps: seq<Part>)
    requires PartsInRange(ps) && PositiveWeights(ps)
    ensures InRange(Weighted(ps))
  {
    TotalWeightSame(ps, ps);
    var total := TotalWeight(ps);
    if total != 0.0 {
      SharesInRange(ps, total);
      var s := Shares(ps, total);
      if s > 100.0 {
        Positive(s - 100.0, total);
      }
    }
  }

  // ---------- The table of raw records ----------

  /** A system under test. */
  datatype Target = Target(board: string, os: string, arch: string)

  /** A raw record. Its key is the target, the category, the sub-category and the item. */
  datatype Row = Row(target: Target, category: string, sub: string, item: string,
                     metric: string, status: string, raw: Option<real>, r: Option<real>, score: Option<real>)

  predicate BadStatus(status: string) {
    status == "null_value" || status == "error" || status == "missing_default_rmin"
  }

  predicate IsPowerField(sub: string) {
    sub == "static_power" || sub == "cpu_power" || sub == "memory_power" || sub == "file_power"
  }

  /** The rows `normalize_items_for_board` scores. */
  predicate ItemEligible(row: Row) {
    && (row.category == "realtime" || row.category == "workload")
    && row.metric != "miss_rate" && row.r.Some? && !BadStatus(row.status)
  }

  /** The rows `normalize_power_for_board` scores. */
  predicate PowerEligible(row: Row) {
    && row.category == "power" && IsPowerField(row.sub) && row.item == "power_data"
    && row.r.Some? && row.status != "null_value" && row.status != "error"
  }

  function Rescored(row: Row): Row {
    if ItemEligible(row) || PowerEligible(row) then row.(score := Saturation(row.r)) else row
  }

  function RescoredAll(rows: seq<Row>): (r: seq<Row>)
    ensures |r| == |rows|
  {
    seq(|rows|, i requires 0 <= i < |rows| => Rescored(rows[i]))
  }

  /** The scores of the rows that a query selects, in table order. */
  function Collect(rows: seq<Row>, select: Row -> bool): seq<real> {
    if rows == [] then []
    else
      var last := rows[|rows| - 1];
      Collect(rows[..|rows| - 1], select) + if select(last) && last.score.Some? then [last.score.value] else []
  }

  /** Rows of a sub-category that count; an old misplaced item is left out. */
  function InSub(t: Target, category: string, sub: string): Row -> bool {
    (row: Row) =>
      row.target == t && row.category == category && row.sub == sub && !BadStatus(row.status)
      && !(category == "realtime" && sub == "scheduling_latency" && row.item == "syscall_avg_us")
  }

  /** The sub-group of a multi-core item: memory access 0, system service 1, core communication 2. */
  function GroupOf(item: string): nat {
    if "multi_core_memory_bandwidth_" <= item then 0
    else if "multi_core_ipc_bandwidth_" <= item || "multi_core_task_latency_" <= item then 1
    else if "multi_core_core_comm_" <= item then 2
    else 3
  }

  function InGroup(t: Target, group: nat): Row -> bool {
    (row: Row) =>
      row.target == t && row.category == "realtime" && row.sub == "multicore_overhead" && !BadStatus(row.status)
      && GroupOf(row.item) == group
  }

  function InPower(t: Target, field: string): Row -> bool {
    (row: Row) => row.target == t && row.sub == field && PowerEligible(row)
  }

  function IsMissRate(t: Target): Row -> bool {
    (row: Row) =>
      row.target == t && row.category == "realtime" && row.sub == "schedulability" && row.item == "average_mr"
  }

  // ---------- The scores of a target ----------

  /** The entries of the score cache for one target. */
  datatype Key = Base | Sched | Realtime | Workload(category: string) | Typical | Power | Function | Total

  function SubScore(rows: seq<Row>, t: Target, category: string, sub: string): Option<real> {
    Mean(Collect(rows, InSub(t, category, sub)))
  }

  function GroupScore(rows: seq<Row>, t: Target, group: nat): Option<real> {
    Mean(Collect(rows, InGroup(t, group)))
  }

  function Present(xs: seq<Option<real>>): seq<real> {
    if xs == [] then []
    else Present(xs[..|xs| - 1]) + if xs[|xs| - 1].Some? then [xs[|xs| - 1].value] else []
  }

  /** `_multicore_score`: the mean of the means of the sub-groups that are there. */
  function Multicore(rows: seq<Row>, t: Target): Option<real> {
    Mean(Present([GroupScore(rows, t, 0), GroupScore(rows, t, 1), GroupScore(rows, t, 2)]))
  }

  function BaseParts(rows: seq<Row>, t: Target): seq<Part> {
    [Part(SubScore(rows, t, "realtime", "context_switch_latency"), 0.10),
     Part(SubScore(rows, t, "realtime", "interrupt_latency"), 0.10),
     Part(SubScore(rows, t, "realtime", "scheduling_latency"), 0.40),
     Part(Multicore(rows, t), 0.40)]
  }

  function FirstOf(xs: seq<real>): Option<real> {
    if xs == [] then None else Some(xs[0])
  }

  /** The score of one power measurement. */
  function PowerItem(rows: seq<Row>, t: Target, field: string): Option<real> {
    FirstOf(Collect(rows, InPower(t, field)))
  }

  function PowerItems(rows: seq<Row>, t: Target): seq<Option<real>> {
    [PowerItem(rows, t, "static_power"), PowerItem(rows, t, "cpu_power"), PowerItem(rows, t, "memory_power"),
        PowerItem(rows, t, "file_power")]
  }

  /** The power score: the mean of the four measurements that are there. */
  function PowerScore(rows: seq<Row>, t: Target): Option<real> {
    Mean(Present(PowerItems(rows, t)))
  }

  function RealtimeParts(rows: seq<Row>, t: Target): seq<Part> {
    [Part(Weighted(BaseParts(rows, t)), 0.5), Part(FirstOf(Collect(rows, IsMissRate(t))), 0.5)]
  }

  function TypicalParts(rows: seq<Row>, t: Target): seq<Part> {
    [Part(SubScore(rows, t, "workload", "realtime_control"), 0.25),
     Part(SubScore(rows, t, "workload", "perception"), 0.25),
     Part(SubScore(rows, t, "workload", "communication"), 0.25),
     Part(SubScore(rows, t, "workload", "monitoring"), 0.25)]
  }

  const FUNCTION_SCORE := 60.0

  function TotalParts(rows: seq<Row>, t: Target): seq<Part> {
    [Part(Some(FUNCTION_SCORE), 0.2), Part(Weighted(RealtimeParts(rows, t)), 0.3),
     Part(Weighted(TypicalParts(rows, t)), 0.4), Part(PowerScore(rows, t), 0.1)]
  }

  /** What `recalc_scores_for_target` stores under a key. */
  function Score(rows: seq<Row>, t: Target, k: Key): Option<real> {
    match k
    case Base => Weighted(BaseParts(rows, t))
    case Sched => FirstOf(Collect(rows, IsMissRate(t)))
    case Realtime => Weighted(RealtimeParts(rows, t))
    case Workload(category) => SubScore(rows, t, "workload", category)
    case Typical => Weighted(TypicalParts(rows, t))
    case Power => PowerScore(rows, t)
    case Function => Some(FUNCTION_SCORE)
    case Total => Weighted(TotalParts(rows, t))
  }

  // ---------- Entries that lack something ----------

  /** A base score that is missing other than the multi-core one. */
  predicate BasePartial(rows: seq<Row>, t: Target) {
    || SubScore(rows, t, "realtime", "context_switch_latency").None?
    || SubScore(rows, t, "realtime", "interrupt_latency").None?
    || SubScore(rows, t, "realtime", "scheduling_latency").None?
  }

  predicate TypicalPartial(rows: seq<Row>, t: Target) {
    || SubScore(rows, t, "workload", "realtime_control").None? || SubScore(rows, t, "workload", "perception").None?
    || SubScore(rows, t, "workload", "communication").None? || SubScore(rows, t, "workload", "monitoring").None?
  }

  /** The power measurement of this kind has a ratio. */
  predicate HasRatio(rows: seq<Row>, t: Target, field: string) {
    exists row :: row in rows && row.target == t && row.category == "power" && row.sub == field
      && row.item == "power_data" && row.r.Some?
  }

  predicate PowerPartial(rows: seq<Row>, t: Target) {
    !HasRatio(rows, t, "static_power") || !HasRatio(rows, t, "cpu_power") || !HasRatio(rows, t, "memory_power")
    || !HasRatio(rows, t, "file_power")
  }

  /** The flag that `recalc_scores_for_target` stores with a score. */
  predicate Partial(rows: seq<Row>, t: Target, k: Key) {
    match k
    case Base => BasePartial(rows, t)
    case Realtime => BasePartial(rows, t) || Score(rows, t, Sched).None?
    case Typical => TypicalPartial(rows, t)
    case Power => PowerPartial(rows, t)
    case Total => Score(rows, t, Realtime).None? || Score(rows, t, Typical).None? || Score(rows, t, Power).None?
    case _ => false
  }

  lemma {:induction false} SomeWeight(parts: seq<Part>, i: nat)
    requires PositiveWeights(parts) && i < |parts| && parts[i].score.Some?
    ensures TotalWeight(parts) > 0.0 && Weighted(parts).Some?
  {
    if i < |parts| - 1 {
      SomeWeight(parts[..|parts| - 1], i);
    } else {
      TotalWeightSame(parts[..|parts| - 1], parts[..|parts| - 1]);
    }
  }

  /** A group score that is not flagged is there, and so is the total. A flagged one need not be missing. */
  lemma UnflaggedIsThere(rows: seq<Row>, t: Target, k: Key)
    requires k == Base || k == Realtime || k == Typical || k == Total
    ensures !Partial(rows, t, k) || k == Total ==> Score(rows, t, k).Some?
  {
    hide Weighted, SubScore, Multicore, PowerScore, FirstOf, Collect;
    if !BasePartial(rows, t) {
      SomeWeight(BaseParts(rows, t), 0);
      SomeWeight(RealtimeParts(rows, t), 0);
    }
    if !TypicalPartial(rows, t) {
      SomeWeight(TypicalParts(rows, t), 0);
    }
    SomeWeight(TotalParts(rows, t), 0);
  }

  // ---------- Better records, better scores ----------

  /** The same record with a score at least as high. */
  predicate RowLeq(a: Row, b: Row) {
    && a.target == b.target && a.category == b.category && a.sub == b.sub && a.item == b.item
    && a.metric == b.metric && a.status == b.status && a.r.Some? == b.r.Some? && Leq(a.score, b.score)
  }

  predicate RowsLeq(a: seq<Row>, b: seq<Row>) {
    |a| == |b| && forall i :: 0 <= i < |a| ==> RowLeq(a[i], b[i])
  }

  predicate RowsInRange(rows: seq<Row>) {
    forall i :: 0 <= i < |rows| ==> InRange(rows[i].score)
  }

  /** A query that does not look at values. */
  ghost predicate Blind(select: Row -> bool) {
    forall a: Row, b: Row :: RowLeq(a, b) ==> select(a) == select(b)
  }

  lemma {:induction false} CollectMonotone(a: seq<Row>, b: seq<Row>, select: Row -> bool)
    requires RowsLeq(a, b) && Blind(select)
    ensures AllLeq(Collect(a, select), Collect(b, select))
  {
    if a != [] {
      var x, y := a[|a| - 1], b[|b| - 1];
      CollectMonotone(a[..|a| - 1], b[..|b| - 1], select);
      assert RowLeq(x, y);
    }
  }

  lemma {:induction false} CollectInRange(rows: seq<Row>, select: Row -> bool)
    requires RowsInRange(rows)
    ensures AllInRange(Collect(rows, select))
  {
    if rows != [] {
      CollectInRange(rows[..|rows| - 1], select);
    }
  }

  lemma {:induction false} PresentMonotone(xs: seq<Option<real>>, ys: seq<Option<real>>)
    requires |xs| == |ys| && forall i :: 0 <= i < |xs| ==> Leq(xs[i], ys[i])
    ensures AllLeq(Present(xs), Present(ys))
  {
    if xs != [] {
      PresentMonotone(xs[..|xs| - 1], ys[..|ys| - 1]);
    }
  }

  lemma {:induction false} PresentInRange(xs: seq<Option<real>>)
    requires forall i :: 0 <= i < |xs| ==> InRange(xs[i])
    ensures AllInRange(Present(xs))
  {
    if xs != [] {
      PresentInRange(xs[..|xs| - 1]);
    }
  }

  lemma QueriesAreBlind(t: Target, category: string, sub: string, group: nat)
    ensures Blind(InSub(t, category, sub)) && Blind(InGroup(t, group)) && Blind(InPower(t, sub)) && Blind(IsMissRate(t))
  {
  }

  lemma PartsMonotone(a: seq<Row>, b: seq<Row>, t: Target)
    requires RowsLeq(a, b)
    ensures Leq(Multicore(a, t), Multicore(b, t))
    ensures forall category, sub :: Leq(SubScore(a, t, category, sub), SubScore(b, t, category, sub))
    ensures Leq(Score(a, t, Power), Score(b, t, Power)) && Leq(Score(a, t, Sched), Score(b, t, Sched))
  {
    hide RowsLeq, Blind, Collect, Mean;
    forall category, sub ensures Leq(SubScore(a, t, category, sub), SubScore(b, t, category, sub)) {
      QueriesAreBlind(t, category, sub, 0);
      CollectMonotone(a, b, InSub(t, category, sub));
      MeanMonotone(Collect(a, InSub(t, category, sub)), Collect(b, InSub(t, category, sub)));
    }
    GroupMonotone(a, b, t, 0); GroupMonotone(a, b, t, 1); GroupMonotone(a, b, t, 2);
    var xs := [GroupScore(a, t, 0), GroupScore(a, t, 1), GroupScore(a, t, 2)];
    var ys := [GroupScore(b, t, 0), GroupScore(b, t, 1), GroupScore(b, t, 2)];
    PresentMonotone(xs, ys);
    MeanMonotone(Present(xs), Present(ys));
    QueriesAreBlind(t, "", "", 0);
    CollectMonotone(a, b, IsMissRate(t));
    PowerMonotone(a, b, t);
  }

  lemma PowerMonotone(a: seq<Row>, b: seq<Row>, t: Target)
    requires RowsLeq(a, b)
    ensures Leq(PowerScore(a, t), PowerScore(b, t))
  {
    hide RowsLeq, Blind, Collect, Mean, Present, PowerItem;
    PowerItemMonotone(a, b, t, "static_power"); PowerItemMonotone(a, b, t, "cpu_power");
    PowerItemMonotone(a, b, t, "memory_power"); PowerItemMonotone(a, b, t, "file_power");
    PresentMonotone(PowerItems(a, t), PowerItems(b, t));
    MeanMonotone(Present(PowerItems(a, t)), Present(PowerItems(b, t)));
  }

  lemma PowerItemMonotone(a: seq<Row>, b: seq<Row>, t: Target, field: string)
    requires RowsLeq(a, b)
    ensures Leq(PowerItem(a, t, field), PowerItem(b, t, field))
  {
    hide RowsLeq, Blind, Collect;
    QueriesAreBlind(t, "", field, 0);
    CollectMonotone(a, b, InPower(t, field));
  }

  lemma GroupMonotone(a: seq<Row>, b: seq<Row>, t: Target, group: nat)
    requires RowsLeq(a, b)
    ensures Leq(GroupScore(a, t, group), GroupScore(b, t, group))
  {
    hide RowsLeq, Blind, Collect, Mean;
    QueriesAreBlind(t, "", "", group);
    CollectMonotone(a, b, InGroup(t, group));
    MeanMonotone(Collect(a, InGroup(t, group)), Collect(b, InGroup(t, group)));
  }

  lemma RealtimeMonotone(a: seq<Row>, b: seq<Row>, t: Target)
    requires RowsLeq(a, b)
    ensures Leq(Score(a, t, Base), Score(b, t, Base)) && Leq(Score(a, t, Realtime), Score(b, t, Realtime))
  {
    hide RowsLeq, Weighted, Multicore, SubScore, FirstOf, Collect, PowerScore;
    PartsMonotone(a, b, t);
    WeightedMonotone(BaseParts(a, t), BaseParts(b, t));
    WeightedMonotone(RealtimeParts(a, t), RealtimeParts(b, t));
  }

  lemma TypicalMonotone(a: seq<Row>, b: seq<Row>, t: Target)
    requires RowsLeq(a, b)
    ensures Leq(Score(a, t, Typical), Score(b, t, Typical))
  {
    hide RowsLeq, Weighted, Multicore, SubScore, FirstOf, Collect, PowerScore;
    PartsMonotone(a, b, t);
    WeightedMonotone(TypicalParts(a, t), TypicalParts(b, t));
  }

  /** Records at least as good give every stored score at least as high, and the same ones missing. */
  lemma ScoreMonotone(a: seq<Row>, b: seq<Row>, t: Target, k: Key)
    requires RowsLeq(a, b)
    ensures Leq(Score(a, t, k), Score(b, t, k))
  {
    hide RowsLeq, Weighted, SubScore, FirstOf, Collect, Mean, PowerScore, BaseParts, RealtimeParts, TypicalParts;
    PartsMonotone(a, b, t);
    RealtimeMonotone(a, b, t);
    TypicalMonotone(a, b, t);
    WeightedMonotone(TotalParts(a, t), TotalParts(b, t));
  }

  lemma GroupInRange(rows: seq<Row>, t: Target, group: nat)
    requires RowsInRange(rows)
    ensures InRange(GroupScore(rows, t, group))
  {
    CollectInRange(rows, InGroup(t, group));
    MeanInRange(Collect(rows, InGroup(t, group)));
  }

  lemma PartsWithin(rows: seq<Row>, t: Target)
    requires RowsInRange(rows)
    ensures InRange(Multicore(rows, t)) && InRange(Score(rows, t, Power)) && InRange(Score(rows, t, Sched))
    ensures forall category, sub :: InRange(SubScore(rows, t, category, sub))
  {
    hide RowsInRange, Mean, Collect;
    forall category, sub ensures InRange(SubScore(rows, t, category, sub)) {
      CollectInRange(rows, InSub(t, category, sub));
      MeanInRange(Collect(rows, InSub(t, category, sub)));
    }
    GroupInRange(rows, t, 0); GroupInRange(rows, t, 1); GroupInRange(rows, t, 2);
    var xs := [GroupScore(rows, t, 0), GroupScore(rows, t, 1), GroupScore(rows, t, 2)];
    PresentInRange(xs);
    MeanInRange(Present(xs));
    PowerWithin(rows, t);
    CollectInRange(rows, IsMissRate(t));
  }

  lemma PowerWithin(rows: seq<Row>, t: Target)
    requires RowsInRange(rows)
    ensures InRange(PowerScore(rows, t))
  {
    hide RowsInRange, Collect, Mean, Present;
    CollectInRange(rows, InPower(t, "static_power")); CollectInRange(rows, InPower(t, "cpu_power"));
    CollectInRange(rows, InPower(t, "memory_power")); CollectInRange(rows, InPower(t, "file_power"));
    PresentInRange(PowerItems(rows, t));
    MeanInRange(Present(PowerItems(rows, t)));
  }

  lemma RealtimeInRange(rows: seq<Row>, t: Target)
    requires RowsInRange(rows)
    ensures InRange(Score(rows, t, Base)) && InRange(Score(rows, t, Realtime))
  {
    hide RowsInRange, Weighted, Multicore, SubScore, Mean, FirstOf, PowerScore;
    PartsWithin(rows, t);
    WeightedInRange(BaseParts(rows, t));
    WeightedInRange(RealtimeParts(rows, t));
  }

  /** Item scores within 0 and 100 give every stored score within 0 and 100. */
  lemma ScoreInRange(rows: seq<Row>, t: Target, k: Key)
    requires RowsInRange(rows)
    ensures InRange(Score(rows, t, k))
  {
    hide RowsInRange, Weighted, Multicore, SubScore, Mean, FirstOf, PowerScore, BaseParts, RealtimeParts;
    PartsWithin(rows, t);
    RealtimeInRange(rows, t);
    WeightedInRange(TypicalParts(rows, t));
    WeightedInRange(TotalParts(rows, t));
  }

  // ---------- The whole pipeline ----------

  /** The same records, each with a ratio that scores, or a score given directly, at least as high. */
  predicate Improves(a: Row, b: Row) {
    && a.target == b.target && a.category == b.category && a.sub == b.sub && a.item == b.item
    && a.metric == b.metric && a.status == b.status && Leq(Saturation(a.r), Saturation(b.r))
    && (ItemEligible(a) || PowerEligible(a) || Leq(a.score, b.score))
  }

  /** With the same items present, better measurements lower no stored score of any target. */
  lemma BetterNeverLowers(rows: seq<Row>, better: seq<Row>, t: Target, k: Key)
    requires |rows| == |better| && forall i :: 0 <= i < |rows| ==> Improves(rows[i], better[i])
    ensures Leq(Score(RescoredAll(rows), t, k), Score(RescoredAll(better), t, k))
  {
    hide Score;
    forall i | 0 <= i < |rows| ensures RowLeq(RescoredAll(rows)[i], RescoredAll(better)[i]) {
      assert Improves(rows[i], better[i]);
    }
    ScoreMonotone(RescoredAll(rows), RescoredAll(better), t, k);
  }

  /** Improving one positive measurement lowers no score. */
  lemma ImprovingOne(rows: seq<Row>, i: nat, was: real, now: real, baseline: real, t: Target, k: Key)
    requires i < |rows| && was > 0.0 && now > 0.0 && baseline > 0.0
    requires rows[i].r == CalcR(Some(was), Some(baseline), rows[i].metric)
    requires if rows[i].metric == "latency" then now <= was else was <= now
    ensures var better := rows[i := rows[i].(r := CalcR(Some(now), Some(baseline), rows[i].metric))];
            Leq(Score(RescoredAll(rows), t, k), Score(RescoredAll(better), t, k))
  {
    hide Score, Saturation, CalcR;
    var r := CalcR(Some(now), Some(baseline), rows[i].metric);
    BetterRatio(was, now, baseline, rows[i].metric);
    SaturationMonotone(rows[i].r, r);
    BetterNeverLowers(rows, rows[i := rows[i].(r := r)], t, k);
  }
}
