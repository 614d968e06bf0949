/** What the stored scores are, in numbers: averages of item scores, and weighted sums of what is there. */
module ScoreFormulas {
  import opened Optional
  import opened Reals
  import opened ScoreSpec

  // ---------- Averages of item scores ----------

  /** The sum of the scores that there are of the records with property p. */
  function SumIf(rows: seq<Row>, p: Row -> bool): real {
    if rows == [] then 0.0
    else SumIf(rows[1..], p) + if p(rows[0]) && rows[0].score.Some? then rows[0].score.value else 0.0
  }

  function CountIf(rows: seq<Row>, p: Row -> bool): nat {
    if rows == [] then 0 else CountIf(rows[1..], p) + if p(rows[0]) && rows[0].score.Some? then 1 else 0
  }

  function Average(rows: seq<Row>, p: Row -> bool): Option<real> {
    if CountIf(rows, p) == 0 then None else Some(SumIf(rows, p) / CountIf(rows, p) as real)
  }

  /** The score of the first record with property p that has one. */
  function FirstIf(rows: seq<Row>, p: Row -> bool): Option<real> {
    if rows == [] then None
    else if p(rows[0]) && rows[0].score.Some? then rows[0].score
    else FirstIf(rows[1..], p)
  }

  lemma {:induction false} CollectFront(rows: seq<Row>, p: Row -> bool)
    requires rows != []
    ensures Collect(rows, p)
         == (if p(rows[0]) && rows[0].score.Some? then [rows[0].score.value] else []) + Collect(rows[1..], p)
  {
    if |rows| == 1 {
      assert rows[..0] == [] && rows[1..] == [];
    } else {
      var init := rows[..|rows| - 1];
      CollectFront(init, p);
      assert init[1..] == rows[1..][..|rows| - 2];
    }
  }

  lemma {:induction false} SumFront(x: real, xs: seq<real>)
    ensures Sum([x] + xs) == x + Sum(xs)
  {
    var all := [x] + xs;
    if xs == [] {
      assert all[..|all| - 1] == [];
    } else {
      SumFront(x, xs[..|xs| - 1]);
      assert all[..|all| - 1] == [x] + xs[..|xs| - 1];
    }
  }

  lemma {:induction false} CollectIs(rows: seq<Row>, select: Row -> bool, p: Row -> bool)
    requires forall i :: 0 <= i < |rows| ==> select(rows[i]) == p(rows[i])
    ensures Sum(Collect(rows, select)) == SumIf(rows, p) && |Collect(rows, select)| == CountIf(rows, p)
    ensures FirstOf(Collect(rows, select)) == FirstIf(rows, p)
  {
    if rows != [] {
      CollectIs(rows[1..], select, p);
      CollectFront(rows, select);
      var rest := Collect(rows[1..], select);
      if p(rows[0]) && rows[0].score.Some? {
        SumFront(rows[0].score.value, rest);
      } else {
        assert [] + rest == rest;
      }
    }
  }

  lemma MeanIs(rows: seq<Row>, select: Row -> bool, p: Row -> bool)
    requires forall i :: 0 <= i < |rows| ==> select(rows[i]) == p(rows[i])
    ensures Mean(Collect(rows, select)) == Average(rows, p)
  {
    CollectIs(rows, select, p);
    hide Collect, Sum, SumIf, CountIf;
  }

  // ---------- Weighted sums of what is there ----------

  function Has(a: Option<real>): real {
    if a.Some? then 1.0 else 0.0
  }

  function Value(a: Option<real>): real {
    if a.Some? then a.value else 0.0
  }

  /** The weighted sum over the weight that is there; nothing when there is none. */
  function Over(sum: real, weight: real): Option<real> {
    if weight == 0.0 then None else Some(sum / weight)
  }

  lemma DivideSum(a: real, b: real, t: real)
    requires t != 0.0
    ensures a / t + b / t == (a + b) / t
  {
  }

  /** The sum of weight times score, over what is there. */
  function Dots(parts: seq<Part>): real {
    if parts == [] then 0.0
    else
      var last := parts[|parts| - 1];
      Dots(parts[..|parts| - 1]) + if last.score.Some? then last.weight * last.score.value else 0.0
  }

  lemma {:induction false} SharesAre(parts: seq<Part>, total: real)
    requires total != 0.0
    ensures Shares(parts, total) == Dots(parts) / total
  {
    if parts != [] {
      var last, dots := parts[|parts| - 1], Dots(parts[..|parts| - 1]);
      SharesAre(parts[..|parts| - 1], total);
      if last.score.Some? {
        var wv := last.weight * last.score.value;
        assert Dots(parts) == dots + wv;
        DivideSum(dots, wv, total);
        assert Shares(parts, total) == dots / total + wv / total;
      }
    }
  }

  lemma WeightedIs(parts: seq<Part>)
    ensures Weighted(parts) == Over(Dots(parts), TotalWeight(parts))
  {
    if TotalWeight(parts) != 0.0 {
      SharesAre(parts, TotalWeight(parts));
    }
  }

  lemma NextPart(parts: seq<Part>, p: Part)
    ensures Dots(parts + [p]) == Dots(parts) + p.weight * Value(p.score)
    ensures TotalWeight(parts + [p]) == TotalWeight(parts) + p.weight * Has(p.score)
  {
    assert (parts + [p])[..|parts|] == parts;
  }

  lemma FourParts(a: Part, b: Part, c: Part, d: Part)
    ensures Weighted([a, b, c, d])
         == Over(a.weight * Value(a.score) + b.weight * Value(b.score) + c.weight * Value(c.score)
                 + d.weight * Value(d.score),
                 a.weight * Has(a.score) + b.weight * Has(b.score) + c.weight * Has(c.score)
                 + d.weight * Has(d.score))
  {
    TwoOf(a, b);
    NextPart([a, b], c);
    NextPart([a, b, c], d);
    assert [a, b] + [c] == [a, b, c] && [a, b, c] + [d] == [a, b, c, d];
    hide Dots, TotalWeight;
    WeightedIs([a, b, c, d]);
    hide Weighted;
  }

  lemma TwoOf(a: Part, b: Part)
    ensures Dots([a, b]) == a.weight * Value(a.score) + b.weight * Value(b.score)
    ensures TotalWeight([a, b]) == a.weight * Has(a.score) + b.weight * Has(b.score)
  {
    NextPart([], a);
    NextPart([a], b);
    assert [] + [a] == [a] && [a] + [b] == [a, b];
    assert Dots([]) == 0.0 && TotalWeight([]) == 0.0;
    hide Dots, TotalWeight;
  }

  lemma TwoParts(a: Part, b: Part)
    ensures Weighted([a, b])
         == Over(a.weight * Value(a.score) + b.weight * Value(b.score),
                 a.weight * Has(a.score) + b.weight * Has(b.score))
  {
    TwoOf(a, b);
    WeightedIs([a, b]);
    hide Weighted, Dots, TotalWeight;
  }

  // ---------- The groups ----------

  /** A sub-category: the average over its records of this system whose status is none of the three bad ones. A system
      call once filed under scheduling latency does not count. */
  lemma SubScoreIs(rows: seq<Row>, t: Target, category: string, sub: string)
    ensures SubScore(rows, t, category, sub)
         == Average(rows, (row: Row) =>
                      && row.target == t && row.category == category && row.sub == sub
                      && row.status != "null_value" && row.status != "error" && row.status != "missing_default_rmin"
                      && (category == "realtime" && sub == "scheduling_latency" ==> row.item != "syscall_avg_us"))
  {
    MeanIs(rows, InSub(t, category, sub), (row: Row) =>
      && row.target == t && row.category == category && row.sub == sub
      && row.status != "null_value" && row.status != "error" && row.status != "missing_default_rmin"
      && (category == "realtime" && sub == "scheduling_latency" ==> row.item != "syscall_avg_us"));
  }

  /** The multi-core records of this system whose item has one of two prefixes. */
  function MultiCore(t: Target, one: string, two: string): Row -> bool {
    (row: Row) =>
      && row.target == t && row.category == "realtime" && row.sub == "multicore_overhead"
      && row.status != "null_value" && row.status != "error" && row.status != "missing_default_rmin"
      && (one <= row.item || two <= row.item)
  }

  lemma PrefixesDiffer(item: string)
    ensures "multi_core_memory_bandwidth_" <= item ==> |item| > 11 && item[11] == 'm'
    ensures "multi_core_ipc_bandwidth_" <= item ==> |item| > 11 && item[11] == 'i'
    ensures "multi_core_task_latency_" <= item ==> |item| > 11 && item[11] == 't'
    ensures "multi_core_core_comm_" <= item ==> |item| > 11 && item[11] == 'c'
  {
    assert "multi_core_memory_bandwidth_"[11] == 'm' && "multi_core_ipc_bandwidth_"[11] == 'i';
    assert "multi_core_task_latency_"[11] == 't' && "multi_core_core_comm_"[11] == 'c';
  }

  lemma GroupIs(rows: seq<Row>, t: Target, group: nat, one: string, two: string)
    requires group < 3
    requires one == (if group == 0 then "multi_core_memory_bandwidth_"
                     else if group == 1 then "multi_core_ipc_bandwidth_"
                     else "multi_core_core_comm_")
    requires two == if group == 1 then "multi_core_task_latency_" else one
    ensures GroupScore(rows, t, group) == Average(rows, MultiCore(t, one, two))
  {
    forall i | 0 <= i < |rows| ensures InGroup(t, group)(rows[i]) == MultiCore(t, one, two)(rows[i]) {
      PrefixesDiffer(rows[i].item);
    }
    MeanIs(rows, InGroup(t, group), MultiCore(t, one, two));
  }

  lemma PresentThree(a: Option<real>, b: Option<real>, c: Option<real>)
    ensures Sum(Present([a, b, c])) == Value(a) + Value(b) + Value(c)
    ensures |Present([a, b, c])| as real == Has(a) + Has(b) + Has(c)
  {
    PresentNext([], a); PresentNext([a], b); PresentNext([a, b], c);
    assert [] + [a] == [a] && [a] + [b] == [a, b] && [a, b] + [c] == [a, b, c];
    assert Present([]) == [] && Sum([]) == 0.0;
    hide Present, Sum, Value, Has;
  }

  lemma PresentNext(xs: seq<Option<real>>, x: Option<real>)
    ensures Sum(Present(xs + [x])) == Sum(Present(xs)) + Value(x)
    ensures |Present(xs + [x])| as real == |Present(xs)| as real + Has(x)
  {
    assert (xs + [x])[..|xs|] == xs;
    var ys := Present(xs);
    if x.Some? {
      assert Present(xs + [x]) == ys + [x.value];
      assert (ys + [x.value])[..|ys|] == ys;
    } else {
      assert Present(xs + [x]) == ys + [] == ys;
    }
  }

  /** The multi-core score: the mean of the averages of the groups that are there. */
  lemma MulticoreIs(rows: seq<Row>, t: Target)
    ensures var a := Average(rows, MultiCore(t, "multi_core_memory_bandwidth_", "multi_core_memory_bandwidth_"));
            var b := Average(rows, MultiCore(t, "multi_core_ipc_bandwidth_", "multi_core_task_latency_"));
            var c := Average(rows, MultiCore(t, "multi_core_core_comm_", "multi_core_core_comm_"));
            Multicore(rows, t) == Over(Value(a) + Value(b) + Value(c), Has(a) + Has(b) + Has(c))
  {
    GroupIs(rows, t, 0, "multi_core_memory_bandwidth_", "multi_core_memory_bandwidth_");
    GroupIs(rows, t, 1, "multi_core_ipc_bandwidth_", "multi_core_task_latency_");
    GroupIs(rows, t, 2, "multi_core_core_comm_", "multi_core_core_comm_");
    PresentThree(GroupScore(rows, t, 0), GroupScore(rows, t, 1), GroupScore(rows, t, 2));
    hide GroupScore, Average, MultiCore, Sum, Present;
  }

  /** The four power measurements of this system. */
  function PowerOf(t: Target, field: string): Row -> bool {
    (row: Row) =>
      && row.target == t && row.category == "power" && row.sub == field && row.item == "power_data" && row.r.Some?
      && row.status != "null_value" && row.status != "error"
  }

  lemma PowerIs(rows: seq<Row>, t: Target)
    ensures var a, b := FirstIf(rows, PowerOf(t, "static_power")), FirstIf(rows, PowerOf(t, "cpu_power"));
            var c, d := FirstIf(rows, PowerOf(t, "memory_power")), FirstIf(rows, PowerOf(t, "file_power"));
            Score(rows, t, Power) == Over(Value(a) + Value(b) + Value(c) + Value(d), Has(a) + Has(b) + Has(c) + Has(d))
  {
    hide PowerItem, FirstIf, PowerOf, Sum, Present;
    PowerItemIs(rows, t, "static_power"); PowerItemIs(rows, t, "cpu_power");
    PowerItemIs(rows, t, "memory_power"); PowerItemIs(rows, t, "file_power");
    MeanOfFour(PowerItem(rows, t, "static_power"), PowerItem(rows, t, "cpu_power"), PowerItem(rows, t, "memory_power"),
               PowerItem(rows, t, "file_power"));
  }

  lemma MeanOfFour(a: Option<real>, b: Option<real>, c: Option<real>, d: Option<real>)
    ensures Mean(Present([a, b, c, d]))
         == Over(Value(a) + Value(b) + Value(c) + Value(d), Has(a) + Has(b) + Has(c) + Has(d))
  {
    hide Sum, Present;
    PresentThree(a, b, c);
    PresentNext([a, b, c], d);
    assert [a, b, c] + [d] == [a, b, c, d];
  }

  lemma PowerItemIs(rows: seq<Row>, t: Target, field: string)
    requires IsPowerField(field)
    ensures PowerItem(rows, t, field) == FirstIf(rows, PowerOf(t, field))
  {
    CollectIs(rows, InPower(t, field), PowerOf(t, field));
    hide Collect, FirstIf;
  }

  /** The schedulability score is that of the record of the average miss rate. */
  lemma SchedIs(rows: seq<Row>, t: Target)
    ensures Score(rows, t, Sched)
         == FirstIf(rows, (row: Row) =>
                      && row.target == t && row.category == "realtime" && row.sub == "schedulability"
                      && row.item == "average_mr")
  {
    CollectIs(rows, IsMissRate(t), (row: Row) =>
      row.target == t && row.category == "realtime" && row.sub == "schedulability" && row.item == "average_mr");
    hide Collect, FirstIf;
  }

  // ---------- The weights ----------

  /** A tenth each for context switches and interrupts, four tenths each for scheduling and multi-core. */
  lemma BaseIs(rows: seq<Row>, t: Target)
    ensures var c := SubScore(rows, t, "realtime", "context_switch_latency");
            var i := SubScore(rows, t, "realtime", "interrupt_latency");
            var s, m := SubScore(rows, t, "realtime", "scheduling_latency"), Multicore(rows, t);
            Score(rows, t, Base) == Over(0.10 * Value(c) + 0.10 * Value(i) + 0.40 * Value(s) + 0.40 * Value(m),
                                         0.10 * Has(c) + 0.10 * Has(i) + 0.40 * Has(s) + 0.40 * Has(m))
  {
    hide SubScore, Multicore, Weighted, Over;
    var parts := BaseParts(rows, t);
    FourParts(parts[0], parts[1], parts[2], parts[3]);
    assert parts == [parts[0], parts[1], parts[2], parts[3]];
  }

  /** Half each for the base and for schedulability. */
  lemma RealtimeIs(rows: seq<Row>, t: Target)
    ensures var b, d := Score(rows, t, Base), Score(rows, t, Sched);
            Score(rows, t, Realtime) == Over(0.5 * Value(b) + 0.5 * Value(d), 0.5 * Has(b) + 0.5 * Has(d))
  {
    hide Weighted, Over, BaseParts, Collect, FirstOf;
    var parts := RealtimeParts(rows, t);
    TwoParts(parts[0], parts[1]);
    assert parts == [parts[0], parts[1]];
  }

  /** A quarter for each kind of workload. */
  lemma TypicalIs(rows: seq<Row>, t: Target)
    ensures var a, b := SubScore(rows, t, "workload", "realtime_control"), SubScore(rows, t, "workload", "perception");
            var c, d := SubScore(rows, t, "workload", "communication"), SubScore(rows, t, "workload", "monitoring");
            Score(rows, t, Typical) == Over(0.25 * Value(a) + 0.25 * Value(b) + 0.25 * Value(c) + 0.25 * Value(d),
                                            0.25 * Has(a) + 0.25 * Has(b) + 0.25 * Has(c) + 0.25 * Has(d))
  {
    hide SubScore, Weighted, Over;
    var parts := TypicalParts(rows, t);
    FourParts(parts[0], parts[1], parts[2], parts[3]);
    assert parts == [parts[0], parts[1], parts[2], parts[3]];
  }

  /** Two tenths of a fixed 60 for the functions, three for real time, four for the workloads, one for power. */
  lemma TotalIs(rows: seq<Row>, t: Target)
    ensures var r, w, p := Score(rows, t, Realtime), Score(rows, t, Typical), Score(rows, t, Power);
            Score(rows, t, Total) == Over(0.2 * 60.0 + 0.3 * Value(r) + 0.4 * Value(w) + 0.1 * Value(p),
                                          0.2 + 0.3 * Has(r) + 0.4 * Has(w) + 0.1 * Has(p))
  {
    hide Weighted, Over, RealtimeParts, TypicalParts, PowerScore;
    var parts := TotalParts(rows, t);
    FourParts(parts[0], parts[1], parts[2], parts[3]);
    assert parts == [parts[0], parts[1], parts[2], parts[3]];
  }

  // ---------- Which records are scored ----------

  /** 100 r / (0.25 + r), and 0 for a ratio that is not positive. */
  function Curve(r: real): real {
    if r <= 0.0 then 0.0 else 100.0 * r / (0.25 + r)
  }

  /** A real-time or workload record, other than a miss rate, with a ratio and a good status takes the score of its
      ratio; any other record stays. */
  predicate ItemScored(before: Row, after: Row) {
    if (before.category == "realtime" || before.category == "workload") && before.metric != "miss_rate"
       && before.r.Some? && before.status !in ["null_value", "error", "missing_default_rmin"]
    then after == before.(score := Some(Curve(before.r.value)))
    else after == before
  }

  /** The record of a power measurement with a ratio takes the score of its ratio; any other record stays. */
  predicate PowerScored(before: Row, after: Row) {
    if before.category == "power" && before.sub in ["static_power", "cpu_power", "memory_power", "file_power"]
       && before.item == "power_data" && before.r.Some? && before.status !in ["null_value", "error"]
    then after == before.(score := Some(Curve(before.r.value)))
    else after == before
  }

  /** Both passes. */
  predicate RowScored(before: Row, after: Row) {
    if before.category == "power" then PowerScored(before, after) else ItemScored(before, after)
  }

  lemma RescoredIs(row: Row)
    ensures RowScored(row, Rescored(row))
    ensures ItemScored(row, if ItemEligible(row) then Rescored(row) else row)
    ensures PowerScored(row, if PowerEligible(row) then Rescored(row) else row)
  {
    var bad := ["null_value", "error", "missing_default_rmin"];
    var power := ["static_power", "cpu_power", "memory_power", "file_power"];
    assert row.status in bad <==> row.status == bad[0] || row.status == bad[1] || row.status == bad[2];
    assert row.status in bad[..2] <==> row.status == bad[0] || row.status == bad[1];
    assert bad[..2] == ["null_value", "error"];
    assert row.sub in power
      <==> row.sub == power[0] || row.sub == power[1] || row.sub == power[2] || row.sub == power[3];
  }

  // ---------- A whole system ----------

  /** The group scores of a system from its averages, and the flags of those that lack something. */
  predicate ByFormula(rows: seq<Row>, t: Target, score: Key -> Option<real>, partial: Key -> bool) {
    var c := SubScore(rows, t, "realtime", "context_switch_latency");
    var i := SubScore(rows, t, "realtime", "interrupt_latency");
    var s, m := SubScore(rows, t, "realtime", "scheduling_latency"), Multicore(rows, t);
    var a, b := SubScore(rows, t, "workload", "realtime_control"), SubScore(rows, t, "workload", "perception");
    var d, e := SubScore(rows, t, "workload", "communication"), SubScore(rows, t, "workload", "monitoring");
    && score(Base) == Over(0.10 * Value(c) + 0.10 * Value(i) + 0.40 * Value(s) + 0.40 * Value(m),
                           0.10 * Has(c) + 0.10 * Has(i) + 0.40 * Has(s) + 0.40 * Has(m))
    && score(Realtime) == Over(0.5 * Value(score(Base)) + 0.5 * Value(score(Sched)),
                               0.5 * Has(score(Base)) + 0.5 * Has(score(Sched)))
    && score(Workload("realtime_control")) == a && score(Workload("perception")) == b
    && score(Workload("communication")) == d && score(Workload("monitoring")) == e
    && score(Typical) == Over(0.25 * Value(a) + 0.25 * Value(b) + 0.25 * Value(d) + 0.25 * Value(e),
                              0.25 * Has(a) + 0.25 * Has(b) + 0.25 * Has(d) + 0.25 * Has(e))
    && score(Function) == Some(60.0)
    && score(Total)
       == Over(0.2 * 60.0 + 0.3 * Value(score(Realtime)) + 0.4 * Value(score(Typical)) + 0.1 * Value(score(Power)),
               0.2 + 0.3 * Has(score(Realtime)) + 0.4 * Has(score(Typical)) + 0.1 * Has(score(Power)))
    && (partial(Base) <==> c.None? || i.None? || s.None?)
    && (partial(Realtime) <==> c.None? || i.None? || s.None? || score(Sched).None?)
    && (partial(Typical) <==> a.None? || b.None? || d.None? || e.None?)
    && (partial(Total) <==> score(Realtime).None? || score(Typical).None? || score(Power).None?)
    && (partial(Power) <==> !RatioThere(rows, t, "static_power") || !RatioThere(rows, t, "cpu_power")
                            || !RatioThere(rows, t, "memory_power") || !RatioThere(rows, t, "file_power"))
    && !partial(Sched) && !partial(Function)
  }

  /** Some record holds the ratio of this power measurement, whatever its status. */
  predicate RatioThere(rows: seq<Row>, t: Target, field: string) {
    exists i :: 0 <= i < |rows| && rows[i].target == t && rows[i].category == "power" && rows[i].sub == field
      && rows[i].item == "power_data" && rows[i].r.Some?
  }

  /** The eleven keys under which something is stored. */
  predicate Listed(k: Key) {
    k.Workload? ==> k.category in ["realtime_control", "perception", "communication", "monitoring"]
  }

  lemma ScoresByFormula(rows: seq<Row>, t: Target, score: Key -> Option<real>, partial: Key -> bool)
    requires forall k :: Listed(k) ==> score(k) == Score(rows, t, k) && partial(k) == Partial(rows, t, k)
    ensures ByFormula(rows, t, score, partial)
  {
    BaseIs(rows, t);
    RealtimeIs(rows, t);
    TypicalIs(rows, t);
    TotalIs(rows, t);
    WorkloadsAre(rows, t);
    FlagsAre(rows, t);
    AllListed();
    hide Listed, Score, Partial, SubScore, Multicore, Over, Value, Has, RatioThere;
  }

  lemma AllListed()
    ensures Listed(Base) && Listed(Sched) && Listed(Realtime) && Listed(Typical) && Listed(Power) && Listed(Function)
    ensures Listed(Workload("realtime_control")) && Listed(Workload("perception"))
    ensures Listed(Workload("communication")) && Listed(Workload("monitoring")) && Listed(Total)
  {
    var names := ["realtime_control", "perception", "communication", "monitoring"];
    assert names[0] in names && names[1] in names && names[2] in names && names[3] in names;
  }

  lemma WorkloadsAre(rows: seq<Row>, t: Target)
    ensures forall category :: Score(rows, t, Workload(category)) == SubScore(rows, t, "workload", category)
    ensures Score(rows, t, Function) == Some(60.0)
  {
    hide SubScore;
  }

  lemma FlagsAre(rows: seq<Row>, t: Target)
    ensures var c := SubScore(rows, t, "realtime", "context_switch_latency");
            var i := SubScore(rows, t, "realtime", "interrupt_latency");
            var s := SubScore(rows, t, "realtime", "scheduling_latency");
            var a, b := SubScore(rows, t, "workload", "realtime_control"), SubScore(rows, t, "workload", "perception");
            var d, e := SubScore(rows, t, "workload", "communication"), SubScore(rows, t, "workload", "monitoring");
            && (Partial(rows, t, Base) <==> c.None? || i.None? || s.None?)
            && (Partial(rows, t, Realtime) <==> c.None? || i.None? || s.None? || Score(rows, t, Sched).None?)
            && (Partial(rows, t, Typical) <==> a.None? || b.None? || d.None? || e.None?)
            && (Partial(rows, t, Total)
                <==> Score(rows, t, Realtime).None? || Score(rows, t, Typical).None? || Score(rows, t, Power).None?)
            && (Partial(rows, t, Power)
                <==> !RatioThere(rows, t, "static_power") || !RatioThere(rows, t, "cpu_power")
                     || !RatioThere(rows, t, "memory_power") || !RatioThere(rows, t, "file_power"))
            && !Partial(rows, t, Sched) && !Partial(rows, t, Function)
  {
    RatioIsThere(rows, t, "static_power"); RatioIsThere(rows, t, "cpu_power");
    RatioIsThere(rows, t, "memory_power"); RatioIsThere(rows, t, "file_power");
    hide SubScore, Score, HasRatio, RatioThere;
  }

  lemma RatioIsThere(rows: seq<Row>, t: Target, field: string)
    ensures HasRatio(rows, t, field) <==> RatioThere(rows, t, field)
  {
    if HasRatio(rows, t, field) {
      var row :| row in rows && row.target == t && row.category == "power" && row.sub == field
        && row.item == "power_data" && row.r.Some?;
      var i :| 0 <= i < |rows| && rows[i] == row;
    }
  }

  // ---------- Systems with real-time latencies only ----------

  lemma {:induction false} NoneSuch(rows: seq<Row>, p: Row -> bool)
    requires forall i :: 0 <= i < |rows| ==> !p(rows[i])
    ensures CountIf(rows, p) == 0 && Average(rows, p) == None && FirstIf(rows, p) == None
  {
    if rows != [] {
      NoneSuch(rows[1..], p);
    }
  }

  /** All records of the system are latencies that count for its base score. */
  predicate OnlyLatencies(rows: seq<Row>, t: Target) {
    forall i :: 0 <= i < |rows| && rows[i].target == t ==>
      && rows[i].category == "realtime"
      && (rows[i].sub == "context_switch_latency" || rows[i].sub == "interrupt_latency"
          || rows[i].sub == "scheduling_latency")
  }

  lemma NothingElse(rows: seq<Row>, t: Target)
    requires OnlyLatencies(rows, t)
    ensures Multicore(rows, t) == None && Score(rows, t, Sched) == None && Score(rows, t, Power) == None
    ensures forall sub :: SubScore(rows, t, "workload", sub) == None
  {
    MulticoreIs(rows, t);
    NoneSuch(rows, MultiCore(t, "multi_core_memory_bandwidth_", "multi_core_memory_bandwidth_"));
    NoneSuch(rows, MultiCore(t, "multi_core_ipc_bandwidth_", "multi_core_task_latency_"));
    NoneSuch(rows, MultiCore(t, "multi_core_core_comm_", "multi_core_core_comm_"));
    NoSched(rows, t);
    NoPower(rows, t);
    hide Multicore, Score, SubScore, OnlyLatencies;
    forall sub ensures SubScore(rows, t, "workload", sub) == None {
      NoWorkload(rows, t, sub);
    }
  }

  lemma NoSched(rows: seq<Row>, t: Target)
    requires OnlyLatencies(rows, t)
    ensures Score(rows, t, Sched) == None
  {
    SchedIs(rows, t);
    NoneSuch(rows, (row: Row) =>
      row.target == t && row.category == "realtime" && row.sub == "schedulability" && row.item == "average_mr");
  }

  lemma NoPower(rows: seq<Row>, t: Target)
    requires OnlyLatencies(rows, t)
    ensures Score(rows, t, Power) == None
  {
    PowerIs(rows, t);
    NoneSuch(rows, PowerOf(t, "static_power")); NoneSuch(rows, PowerOf(t, "cpu_power"));
    NoneSuch(rows, PowerOf(t, "memory_power")); NoneSuch(rows, PowerOf(t, "file_power"));
  }

  lemma NoWorkload(rows: seq<Row>, t: Target, sub: string)
    requires OnlyLatencies(rows, t)
    ensures SubScore(rows, t, "workload", sub) == None
  {
    var p := (row: Row) =>
      && row.target == t && row.category == "workload" && row.sub == sub
      && row.status != "null_value" && row.status != "error" && row.status != "missing_default_rmin";
    MeanIs(rows, InSub(t, "workload", sub), p);
    NoneSuch(rows, p);
  }

  lemma OverIs(sum: real, weight: real, v: real)
    requires weight != 0.0 && sum == v * weight
    ensures Over(sum, weight) == Some(v)
  {
    SameQuotient(sum / weight, v, weight);
  }

  lemma NothingOver()
    ensures forall sum: real :: Over(sum, 0.0) == None
  {
  }

  lemma SameQuotient(q: real, v: real, w: real)
    requires q * w == v * w && w != 0.0
    ensures q == v
  {
  }

  /** Then the total weighs the base score with three tenths and the fixed 60 with two. */
  lemma TotalOfLatencies(rows: seq<Row>, t: Target)
    requires OnlyLatencies(rows, t)
    ensures var b := Score(rows, t, Base);
            Score(rows, t, Total) == Some(if b.Some? then 24.0 + 0.6 * b.value else 60.0)
  {
    hide Score, SubScore, Multicore, OnlyLatencies, Over;
    NothingElse(rows, t);
    RealtimeIs(rows, t);
    TypicalIs(rows, t);
    TotalIs(rows, t);
    NothingOver();
    var b := Score(rows, t, Base);
    if b.Some? {
      OverIs(0.5 * b.value + 0.5 * 0.0, 0.5, b.value);
      OverIs(0.2 * 60.0 + 0.3 * b.value + 0.4 * 0.0 + 0.1 * 0.0, 0.5, 24.0 + 0.6 * b.value);
    } else {
      OverIs(0.2 * 60.0, 0.2, 60.0);
    }
  }

  /** An interrupt latency scored 40 and a scheduling latency scored 80 make a base score of 72 and a total of 67.2. */
  lemma WeightsDiffer(t: Target)
    ensures var rows := [Latency(t, "interrupt_latency", 40.0), Latency(t, "scheduling_latency", 80.0)];
            Score(rows, t, Base) == Some(72.0) && Score(rows, t, Total) == Some(67.2)
  {
    var rows := [Latency(t, "interrupt_latency", 40.0), Latency(t, "scheduling_latency", 80.0)];
    TwoRecords(rows, t, "context_switch_latency");
    TwoRecords(rows, t, "interrupt_latency");
    TwoRecords(rows, t, "scheduling_latency");
    assert OnlyLatencies(rows, t);
    NothingElse(rows, t);
    BaseOfTwo(rows, t, 40.0, 80.0);
    TotalOfLatencies(rows, t);
    hide Score, SubScore, Multicore, OnlyLatencies;
  }

  function Latency(t: Target, sub: string, score: real): Row {
    Row(t, "realtime", sub, "avg_us", "latency", "ok", None, None, Some(score))
  }

  lemma BaseOfTwo(rows: seq<Row>, t: Target, i: real, s: real)
    requires SubScore(rows, t, "realtime", "context_switch_latency") == None && Multicore(rows, t) == None
    requires SubScore(rows, t, "realtime", "interrupt_latency") == Some(i)
    requires SubScore(rows, t, "realtime", "scheduling_latency") == Some(s)
    ensures Score(rows, t, Base) == Some(0.2 * i + 0.8 * s)
  {
    BaseIs(rows, t);
    hide Score, SubScore, Multicore;
    OverIs(0.10 * 0.0 + 0.10 * i + 0.40 * s + 0.40 * 0.0, 0.5, 0.2 * i + 0.8 * s);
  }

  lemma BaseOfSwitch(rows: seq<Row>, t: Target, c: real)
    requires SubScore(rows, t, "realtime", "context_switch_latency") == Some(c) && Multicore(rows, t) == None
    requires SubScore(rows, t, "realtime", "interrupt_latency") == None
    requires SubScore(rows, t, "realtime", "scheduling_latency") == None
    ensures Score(rows, t, Base) == Some(c)
  {
    BaseIs(rows, t);
    hide Score, SubScore, Multicore;
    OverIs(0.10 * c + 0.10 * 0.0 + 0.40 * 0.0 + 0.40 * 0.0, 0.10, c);
  }

  lemma AverageTwo(rows: seq<Row>, p: Row -> bool)
    requires |rows| == 2 && rows[0].score.Some? && rows[1].score.Some?
    ensures Average(rows, p)
         == if p(rows[0]) && p(rows[1]) then Some((rows[0].score.value + rows[1].score.value) / 2.0)
            else if p(rows[0]) then rows[0].score else if p(rows[1]) then rows[1].score else None
  {
    var last := rows[1..];
    assert last == [rows[1]] && last[1..] == [];
    assert CountIf(last, p) == (if p(rows[1]) then 1 else 0);
    assert SumIf(last, p) == (if p(rows[1]) then rows[1].score.value else 0.0);
    assert CountIf(rows, p) == CountIf(last, p) + (if p(rows[0]) then 1 else 0);
    assert SumIf(rows, p) == SumIf(last, p) + (if p(rows[0]) then rows[0].score.value else 0.0);
    hide CountIf, SumIf;
    var n, sum := CountIf(rows, p) as real, SumIf(rows, p);
    if p(rows[0]) && p(rows[1]) {
      assert n == 2.0;
      SameQuotient(sum / n, sum / 2.0, n);
    } else if p(rows[0]) || p(rows[1]) {
      assert n == 1.0;
      SameQuotient(sum / n, sum, n);
    }
  }

  /** The average in a table of two. */
  lemma TwoRecords(rows: seq<Row>, t: Target, sub: string)
    requires |rows| == 2 && forall i :: 0 <= i < 2 ==> rows[i].category == "realtime" && rows[i].status == "ok"
    requires forall i :: 0 <= i < 2 ==> rows[i].score.Some? && rows[i].item != "syscall_avg_us"
    ensures var a, b := rows[0].target == t && rows[0].sub == sub, rows[1].target == t && rows[1].sub == sub;
            SubScore(rows, t, "realtime", sub)
            == if a && b then Some((rows[0].score.value + rows[1].score.value) / 2.0)
               else if a then rows[0].score else if b then rows[1].score else None
  {
    var p := (row: Row) => row.target == t && row.sub == sub;
    MeanIs(rows, InSub(t, "realtime", sub), p);
    AverageTwo(rows, p);
    hide Mean, Average;
  }
}
