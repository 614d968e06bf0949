/** The scorer: the table of raw records and the score cache, and the recomputation of everything. */
module Scores {
  import opened Optional
  import opened ScoreFormulas
  import opened ScoreSpec

  /** The rows of a board scored again. */
  function RescoredOn(rows: seq<Row>, boards: set<(string, string)>): (r: seq<Row>)
    ensures |r| == |rows|
  {
    seq(|rows|, i requires 0 <= i < |rows| => if BoardOf(rows[i]) in boards then Rescored(rows[i]) else rows[i])
  }

  function BoardOf(row: Row): (string, string) {
    (row.target.board, row.target.arch)
  }

  /** The eleven entries of a target. */
  function Keys(): (ks: set<Key>) {
    {Base, Sched, Realtime, Typical, Power, Function, Total,
     Workload("realtime_control"), Workload("perception"), Workload("communication"), Workload("monitoring")}
  }

  /** An entry of the score cache: a score, and whether something it is made of is missing. */
  datatype Cached = Cached(score: Option<real>, partial: bool)

  type Cache = map<(Target, Key), Cached>

  function Stored(rows: seq<Row>, t: Target, k: Key): Cached {
    Cached(Score(rows, t, k), Partial(rows, t, k))
  }

  /** The cache is the one at the start with these entries computed from the table. */
  ghost predicate Entered(cache: Cache, start: Cache, rows: seq<Row>, done: set<(Target, Key)>) {
    && cache.Keys == start.Keys + done
    && (forall e :: e in done ==> cache[e] == Stored(rows, e.0, e.1))
    && forall e :: e in start && e !in done ==> cache[e] == start[e]
  }

  /** The stored entries of a target follow the formulas. */
  ghost predicate CachedByFormula(cache: Cache, rows: seq<Row>, t: Target) {
    ByFormula(rows, t, (k: Key) => if (t, k) in cache then cache[(t, k)].score else None,
              (k: Key) => (t, k) in cache && cache[(t, k)].partial)
  }

  lemma EnteredByFormula(cache: Cache, start: Cache, rows: seq<Row>, done: set<(Target, Key)>, t: Target)
    requires Entered(cache, start, rows, done) && Entries(t) <= done
    ensures CachedByFormula(cache, rows, t)
  {
    hide Score, Partial, ByFormula;
    forall k | Listed(k) ensures (t, k) in cache && cache[(t, k)] == Stored(rows, t, k) {
      ListedIsKey(k);
      assert (t, k) in Entries(t);
    }
    ScoresByFormula(rows, t, (k: Key) => if (t, k) in cache then cache[(t, k)].score else None,
                    (k: Key) => (t, k) in cache && cache[(t, k)].partial);
  }

  lemma ListedIsKey(k: Key)
    requires Listed(k)
    ensures k in Keys()
  {
    if k.Workload? {
      var names := ["realtime_control", "perception", "communication", "monitoring"];
      assert k.category == names[0] || k.category == names[1] || k.category == names[2] || k.category == names[3];
    }
  }

  /** All entries of a target. */
  function Entries(t: Target): (es: set<(Target, Key)>) {
    set k | k in Keys() :: (t, k)
  }

  lemma EnterOne(cache: Cache, start: Cache, rows: seq<Row>, done: set<(Target, Key)>, t: Target, k: Key)
    requires Entered(cache, start, rows, done)
    ensures Entered(cache[(t, k) := Stored(rows, t, k)], start, rows, done + {(t, k)})
  {
    hide Stored;
  }

  function TargetsOf(rows: seq<Row>): (ts: set<Target>) {
    set row | row in rows :: row.target
  }

  // ---------- A target's scores depend on its own rows only ----------

  /** The two tables have the same rows of a target at the same places. */
  predicate SameFor(a: seq<Row>, b: seq<Row>, t: Target) {
    |a| == |b| && forall i :: 0 <= i < |a| ==> a[i] == b[i] || (a[i].target != t && b[i].target != t)
  }

  ghost predicate Only(select: Row -> bool, t: Target) {
    forall row: Row :: select(row) ==> row.target == t
  }

  lemma {:induction false} CollectSame(a: seq<Row>, b: seq<Row>, t: Target, select: Row -> bool)
    requires SameFor(a, b, t) && Only(select, t)
    ensures Collect(a, select) == Collect(b, select)
  {
    if a != [] {
      var x, y := a[|a| - 1], b[|b| - 1];
      CollectSame(a[..|a| - 1], b[..|b| - 1], t, select);
      assert x == y || (x.target != t && y.target != t);
    }
  }

  lemma PartsSame(a: seq<Row>, b: seq<Row>, t: Target)
    requires SameFor(a, b, t)
    ensures forall category, sub :: SubScore(a, t, category, sub) == SubScore(b, t, category, sub)
    ensures Multicore(a, t) == Multicore(b, t) && Score(a, t, Sched) == Score(b, t, Sched)
  {
    hide SameFor, Collect, Mean, Present;
    forall category, sub ensures SubScore(a, t, category, sub) == SubScore(b, t, category, sub) {
      CollectSame(a, b, t, InSub(t, category, sub));
    }
    CollectSame(a, b, t, InGroup(t, 0)); CollectSame(a, b, t, InGroup(t, 1)); CollectSame(a, b, t, InGroup(t, 2));
    CollectSame(a, b, t, IsMissRate(t));
  }

  lemma PowerSame(a: seq<Row>, b: seq<Row>, t: Target)
    requires SameFor(a, b, t)
    ensures PowerScore(a, t) == PowerScore(b, t)
  {
    hide SameFor, Collect, Mean, Present;
    CollectSame(a, b, t, InPower(t, "static_power")); CollectSame(a, b, t, InPower(t, "cpu_power"));
    CollectSame(a, b, t, InPower(t, "memory_power")); CollectSame(a, b, t, InPower(t, "file_power"));
  }

  lemma ScoreSame(a: seq<Row>, b: seq<Row>, t: Target, k: Key)
    requires SameFor(a, b, t)
    ensures Score(a, t, k) == Score(b, t, k)
  {
    hide SameFor, Weighted, SubScore, Multicore, PowerScore, FirstOf, Collect;
    PartsSame(a, b, t);
    PowerSame(a, b, t);
  }

  lemma RatioSame(a: seq<Row>, b: seq<Row>, t: Target, field: string)
    requires SameFor(a, b, t) && HasRatio(a, t, field)
    ensures HasRatio(b, t, field)
  {
    var row :| row in a && row.target == t && row.category == "power" && row.sub == field
      && row.item == "power_data" && row.r.Some?;
    var i :| 0 <= i < |a| && a[i] == row;
    assert b[i] == row;
  }

  lemma GroupFlagsSame(a: seq<Row>, b: seq<Row>, t: Target)
    requires SameFor(a, b, t)
    ensures BasePartial(a, t) == BasePartial(b, t) && TypicalPartial(a, t) == TypicalPartial(b, t)
  {
    hide SameFor, SubScore, Score, Multicore;
    PartsSame(a, b, t);
  }

  lemma PowerFlagSame(a: seq<Row>, b: seq<Row>, t: Target)
    requires SameFor(a, b, t)
    ensures PowerPartial(a, t) == PowerPartial(b, t)
  {
    hide SameFor, HasRatio;
    SameSymmetric(a, b, t);
    forall field | field in ["static_power", "cpu_power", "memory_power", "file_power"]
      ensures HasRatio(a, t, field) == HasRatio(b, t, field)
    {
      if HasRatio(a, t, field) { RatioSame(a, b, t, field); }
      if HasRatio(b, t, field) { RatioSame(b, a, t, field); }
    }
    var fields := ["static_power", "cpu_power", "memory_power", "file_power"];
    assert fields[0] in fields && fields[1] in fields && fields[2] in fields && fields[3] in fields;
  }

  lemma FlagSame(a: seq<Row>, b: seq<Row>, t: Target, k: Key)
    requires SameFor(a, b, t)
    ensures Partial(a, t, k) == Partial(b, t, k)
  {
    hide SameFor, Score, BasePartial, TypicalPartial, PowerPartial;
    GroupFlagsSame(a, b, t);
    PowerFlagSame(a, b, t);
    ScoreSame(a, b, t, Realtime); ScoreSame(a, b, t, Typical); ScoreSame(a, b, t, Power); ScoreSame(a, b, t, Sched);
  }

  // ---------- The scorer ----------

  class Scorer {
    var rows: seq<Row>
    var cache: Cache

    constructor (rows: seq<Row>, cache: Cache)
      ensures this.rows == rows && this.cache == cache
    {
      this.rows, this.cache := rows, cache;
    }

    /** `normalize_items_for_board` */
    method NormalizeItems(board: string, arch: string)
      modifies this`rows
      ensures |rows| == |old(rows)|
      ensures forall i :: 0 <= i < |rows| ==>
        rows[i] == if BoardOf(old(rows)[i]) == (board, arch) && ItemEligible(old(rows)[i])
                   then Rescored(old(rows)[i]) else old(rows)[i]
      ensures forall i :: 0 <= i < |rows| ==>
        if BoardOf(old(rows)[i]) == (board, arch) then ItemScored(old(rows)[i], rows[i]) else rows[i] == old(rows)[i]
    {
      var i := 0;
      while i < |rows|
        invariant |rows| == |old(rows)| && i <= |rows|
        invariant forall j :: i <= j < |rows| ==> rows[j] == old(rows)[j]
        invariant forall j :: 0 <= j < i ==>
          rows[j] == if BoardOf(old(rows)[j]) == (board, arch) && ItemEligible(old(rows)[j])
                     then Rescored(old(rows)[j]) else old(rows)[j]
        decreases |old(rows)| - i
      {
        var row := rows[i];
        if row.target.board == board && row.target.arch == arch && ItemEligible(row) {
          rows := rows[i := row.(score := Saturation(row.r))];
        }
        i := i + 1;
      }
      forall j | 0 <= j < |rows|
        ensures if BoardOf(old(rows)[j]) == (board, arch) then ItemScored(old(rows)[j], rows[j])
                else rows[j] == old(rows)[j]
      {
        RescoredIs(old(rows)[j]);
      }
    }

    /** `normalize_power_for_board`: the power items, and the mean of those each system has. */
    method NormalizePower(board: string, arch: string) returns (power: map<string, real>)
      modifies this`rows
      ensures |rows| == |old(rows)|
      ensures forall i :: 0 <= i < |rows| ==>
        rows[i] == if BoardOf(old(rows)[i]) == (board, arch) && PowerEligible(old(rows)[i])
                   then Rescored(old(rows)[i]) else old(rows)[i]
      ensures forall i :: 0 <= i < |rows| ==>
        if BoardOf(old(rows)[i]) == (board, arch) then PowerScored(old(rows)[i], rows[i]) else rows[i] == old(rows)[i]
      ensures IsPower(power, rows, board, arch)
    {
      var i := 0;
      while i < |rows|
        invariant |rows| == |old(rows)| && i <= |rows|
        invariant forall j :: i <= j < |rows| ==> rows[j] == old(rows)[j]
        invariant forall j :: 0 <= j < i ==>
          rows[j] == if BoardOf(old(rows)[j]) == (board, arch) && PowerEligible(old(rows)[j])
                     then Rescored(old(rows)[j]) else old(rows)[j]
        decreases |old(rows)| - i
      {
        var row := rows[i];
        if row.target.board == board && row.target.arch == arch && PowerEligible(row) {
          rows := rows[i := row.(score := Saturation(row.r))];
        }
        i := i + 1;
      }
      forall j | 0 <= j < |rows|
        ensures if BoardOf(old(rows)[j]) == (board, arch) then PowerScored(old(rows)[j], rows[j])
                else rows[j] == old(rows)[j]
      {
        RescoredIs(old(rows)[j]);
      }
      power := PowerScores(board, arch);
    }

    method PowerScores(board: string, arch: string) returns (power: map<string, real>)
      ensures IsPower(power, rows, board, arch)
    {
      hide PowerScore;
      power := map[];
      var systems := Systems(rows, board, arch);
      ghost var all := systems;
      while systems != {}
        invariant systems <= all
        invariant forall os :: os in all && os !in systems ==>
          PowerScore(rows, Target(board, os, arch)) == Lookup(power, os)
        invariant forall os :: os in systems ==> os !in power
        decreases |systems|
      {
        var os :| os in systems;
        var score := PowerScore(rows, Target(board, os, arch));
        if score.Some? {
          power := power[os := score.value];
        }
        systems := systems - {os};
      }
    }

    /** `upsert_score` */
    method UpsertScore(t: Target, k: Key, score: Option<real>, partial: bool, ghost start: Cache,
        ghost done: set<(Target, Key)>)
      returns (ghost done': set<(Target, Key)>)
      requires score == Score(rows, t, k) && partial == Partial(rows, t, k) && Entered(cache, start, rows, done)
      modifies this`cache
      ensures done' == done + {(t, k)} && Entered(cache, start, rows, done')
    {
      hide Entered, Score, Partial;
      EnterOne(cache, start, rows, done, t, k);
      cache := cache[(t, k) := Cached(score, partial)];
      done' := done + {(t, k)};
    }

    /** `recalc_scores_for_target`, with the power scores of its board. */
    method Recalc(t: Target, power: map<string, real>, ghost start: Cache, ghost before: set<(Target, Key)>)
      requires PowerScore(rows, t) == Lookup(power, t.os) && Entered(cache, start, rows, before)
      modifies this`cache
      ensures Entered(cache, start, rows, before + Entries(t))
      ensures CachedByFormula(cache, rows, t)
    {
      hide Entered, Weighted, SubScore, PowerScore, Entries, Score, Keys, Partial, TypicalPartial, PowerPartial;
      ScoreIs(rows, t);
      FlagIs(rows, t);
      var rt, done := RecalcRealtime(t, start, before);
      var c1, c2, c3, c4;
      c1, c2, c3, c4, done := RecalcWorkloads(t, start, done);
      var typical := Weighted([Part(c1, 0.25), Part(c2, 0.25), Part(c3, 0.25), Part(c4, 0.25)]);
      done := UpsertScore(t, Typical, typical, TypicalPartial(rows, t), start, done);
      var p := Lookup(power, t.os);
      done := UpsertScore(t, Power, p, PowerPartial(rows, t), start, done);
      done := UpsertScore(t, Function, Some(FUNCTION_SCORE), false, start, done);
      var total := Weighted([Part(Some(FUNCTION_SCORE), 0.2), Part(rt, 0.3), Part(typical, 0.4), Part(p, 0.1)]);
      done := UpsertScore(t, Total, total, rt.None? || typical.None? || p.None?, start, done);
      AllEntries(t, before, done);
      EnteredByFormula(cache, start, rows, done, t);
    }

    /** The scores of the real-time part. */
    method RecalcRealtime(t: Target, ghost start: Cache, ghost before: set<(Target, Key)>)
      returns (rt: Option<real>, ghost done: set<(Target, Key)>)
      requires Entered(cache, start, rows, before)
      modifies this`cache
      ensures rt == Score(rows, t, Realtime) && Entered(cache, start, rows, done)
      ensures done == before + {(t, Base)} + {(t, Sched)} + {(t, Realtime)}
    {
      hide Entered, Weighted, FirstOf, Collect, BaseParts, BasePartial;
      var base := Weighted(BaseParts(rows, t));
      var partial := BasePartial(rows, t);
      done := UpsertScore(t, Base, base, partial, start, before);
      var sched := FirstOf(Collect(rows, IsMissRate(t)));
      done := UpsertScore(t, Sched, sched, false, start, done);
      rt := Weighted([Part(base, 0.5), Part(sched, 0.5)]);
      done := UpsertScore(t, Realtime, rt, partial || sched.None?, start, done);
    }

    /** The four workload scores. */
    method RecalcWorkloads(t: Target, ghost start: Cache, ghost before: set<(Target, Key)>)
      returns (c1: Option<real>, c2: Option<real>, c3: Option<real>, c4: Option<real>, ghost done: set<(Target, Key)>)
      requires Entered(cache, start, rows, before)
      modifies this`cache
      ensures c1 == SubScore(rows, t, "workload", "realtime_control")
        && c2 == SubScore(rows, t, "workload", "perception")
      ensures c3 == SubScore(rows, t, "workload", "communication") && c4 == SubScore(rows, t, "workload", "monitoring")
      ensures Entered(cache, start, rows, done)
      ensures done == before + {(t, Workload("realtime_control"))} + {(t, Workload("perception"))}
                      + {(t, Workload("communication"))} + {(t, Workload("monitoring"))}
    {
      hide Entered, SubScore;
      c1 := SubScore(rows, t, "workload", "realtime_control");
      done := UpsertScore(t, Workload("realtime_control"), c1, false, start, before);
      c2 := SubScore(rows, t, "workload", "perception");
      done := UpsertScore(t, Workload("perception"), c2, false, start, done);
      c3 := SubScore(rows, t, "workload", "communication");
      done := UpsertScore(t, Workload("communication"), c3, false, start, done);
      c4 := SubScore(rows, t, "workload", "monitoring");
      done := UpsertScore(t, Workload("monitoring"), c4, false, start, done);
    }

    /** `recompute_all_scores`, which returns the number of systems. */
    method RecomputeAll() returns (count: nat)
      modifies this
      ensures rows == RescoredAll(old(rows)) && forall i :: 0 <= i < |rows| ==> RowScored(old(rows)[i], rows[i])
      ensures Entered(cache, old(cache), rows, AllEntriesOf(old(rows)))
      ensures forall t :: t in TargetsOf(old(rows)) ==> CachedByFormula(cache, rows, t)
      ensures count == |TargetsOf(old(rows))|
    {
      hide Entered, RescoredOn, RescoredAll, TargetsOn, TargetsOf, EntriesOn, BoardsOf, BoardEntries, Systems, OnBoards;
      ghost var rows0, start, done := rows, cache, {};
      ghost var entries: set<(Target, Key)> := {};
      NoBoards(rows0, start);
      var boards := BoardsOf(rows);
      ghost var all := boards;
      count := 0;
      while boards != {}
        invariant boards <= all && done == all - boards && rows == RescoredOn(rows0, done)
        invariant OnBoards(entries, done) && Entered(cache, start, RescoredAll(rows0), entries)
        invariant count == |TargetsOn(rows0, done)| && entries == EntriesOn(rows0, done)
        decreases |boards|
      {
        var g :| g in boards;
        var n;
        MoreTargets(rows0, done, g);
        n, entries := RecomputeBoard(g.0, g.1, rows0, done, start, entries);
        count := count + n;
        done := done + {g};
        boards := boards - {g};
      }
      assert done == all;
      AllBoards(rows0);
      AllByFormula(cache, start, rows0);
    }

    /** One board: its items, its power items, and the entries of all its systems. */
    method RecomputeBoard(board: string, arch: string, ghost rows0: seq<Row>, ghost boards: set<(string, string)>,
                          ghost start: Cache, ghost before: set<(Target, Key)>)
      returns (count: nat, ghost done: set<(Target, Key)>)
      requires rows == RescoredOn(rows0, boards) && OnBoards(before, boards)
          && Entered(cache, start, RescoredAll(rows0), before)
      modifies this
      ensures rows == RescoredOn(rows0, boards + {(board, arch)}) && OnBoards(done, boards + {(board, arch)})
      ensures Entered(cache, start, RescoredAll(rows0), done)
      ensures count == |Systems(rows0, board, arch)|
      ensures done == before + BoardEntries(rows0, board, arch)
    {
      hide Entered, RescoredAll, RescoredOn, Systems, IsPower, BoardOf, OnBoards, BoardEntries;
      NormalizeItems(board, arch);
      ghost var middle := rows;
      var power := NormalizePower(board, arch);
      BoardRescored(rows0, boards, (board, arch), middle, rows);
      ghost var boards' := boards + {(board, arch)};
      SameTargets(rows0, boards');
      MoreBoards(before, boards, (board, arch));
      EnteredSoFar(cache, start, rows0, boards', before);
      count, done := RecalcBoard(board, arch, power, start, before, boards');
      SameBoardEntries(rows0, rows, board, arch);
      EnteredSoFar(cache, start, rows0, boards', done);
    }

    method RecalcBoard(board: string, arch: string, power: map<string, real>, ghost start: Cache,
        ghost before: set<(Target, Key)>, ghost boards: set<(string, string)>)
      returns (count: nat, ghost done: set<(Target, Key)>)
      requires IsPower(power, rows, board, arch) && Entered(cache, start, rows, before) && OnBoards(before, boards)
      requires (board, arch) in boards
      modifies this`cache
      ensures Entered(cache, start, rows, done) && count == |Systems(rows, board, arch)|
      ensures done == before + BoardEntries(rows, board, arch) && OnBoards(done, boards)
    {
      hide Entered, PowerScore, Systems, Keys, CachedByFormula;
      var systems := Systems(rows, board, arch);
      ghost var all := systems;
      count, done := 0, before;
      while systems != {}
        invariant systems <= all && count + |systems| == |all|
        invariant Entered(cache, start, rows, done)
        invariant done == before + EntriesOf(board, arch, all - systems)
        decreases |systems|
      {
        var os :| os in systems;
        Recalc(Target(board, os, arch), power, start, done);
        MoreEntries(board, arch, all - systems, os);
        assert all - (systems - {os}) == (all - systems) + {os};
        done := done + Entries(Target(board, os, arch));
        systems := systems - {os};
        count := count + 1;
      }
      assert all - {} == all;
    }
  }

  // ---------- Everything again ----------

  lemma AllByFormula(cache: Cache, start: Cache, rows0: seq<Row>)
    requires Entered(cache, start, RescoredAll(rows0), AllEntriesOf(rows0))
    ensures forall i :: 0 <= i < |rows0| ==> RowScored(rows0[i], RescoredAll(rows0)[i])
    ensures forall t :: t in TargetsOf(rows0) ==> CachedByFormula(cache, RescoredAll(rows0), t)
  {
    forall i | 0 <= i < |rows0| ensures RowScored(rows0[i], RescoredAll(rows0)[i]) {
      RescoredIs(rows0[i]);
    }
    hide Entered, CachedByFormula, RescoredAll, Keys;
    forall t | t in TargetsOf(rows0) ensures CachedByFormula(cache, RescoredAll(rows0), t) {
      assert Entries(t) <= AllEntriesOf(rows0);
      EnteredByFormula(cache, start, RescoredAll(rows0), AllEntriesOf(rows0), t);
    }
  }

  function BoardsOf(rows: seq<Row>): set<(string, string)> {
    set row | row in rows :: (row.target.board, row.target.arch)
  }

  /** The systems of these boards. */
  function TargetsOn(rows: seq<Row>, boards: set<(string, string)>): set<Target> {
    set t | t in TargetsOf(rows) && (t.board, t.arch) in boards
  }

  function EntriesOn(rows: seq<Row>, boards: set<(string, string)>): set<(Target, Key)> {
    set t, k | t in TargetsOn(rows, boards) && k in Keys() :: (t, k)
  }

  /** All entries of all systems with a record. */
  function AllEntriesOf(rows: seq<Row>): set<(Target, Key)> {
    set t, k | t in TargetsOf(rows) && k in Keys() :: (t, k)
  }

  function TargetsNamed(g: (string, string), systems: set<string>): set<Target> {
    set os | os in systems :: Target(g.0, os, g.1)
  }

  lemma {:induction false} AsManyTargets(g: (string, string), systems: set<string>)
    ensures |TargetsNamed(g, systems)| == |systems|
    decreases systems
  {
    if systems != {} {
      var os :| os in systems;
      var rest := systems - {os};
      AsManyTargets(g, rest);
      assert TargetsNamed(g, systems) == TargetsNamed(g, rest) + {Target(g.0, os, g.1)};
      assert Target(g.0, os, g.1) !in TargetsNamed(g, rest);
      assert |systems| == |rest| + 1;
    }
  }

  lemma InSystems(rows: seq<Row>, t: Target)
    ensures t in TargetsOf(rows) <==> t.os in Systems(rows, t.board, t.arch)
  {
    if t in TargetsOf(rows) {
      var row :| row in rows && row.target == t;
    }
    if t.os in Systems(rows, t.board, t.arch) {
      var row :| row in rows && row.target.board == t.board && row.target.arch == t.arch && row.target.os == t.os;
      assert row.target == t;
    }
  }

  /** One more board: its systems are new, and so are their entries. */
  lemma MoreTargets(rows: seq<Row>, boards: set<(string, string)>, g: (string, string))
    requires g !in boards
    ensures |TargetsOn(rows, boards + {g})| == |TargetsOn(rows, boards)| + |Systems(rows, g.0, g.1)|
    ensures EntriesOn(rows, boards + {g}) == EntriesOn(rows, boards) + BoardEntries(rows, g.0, g.1)
  {
    var systems := Systems(rows, g.0, g.1);
    var a, b := TargetsOn(rows, boards), TargetsNamed(g, systems);
    forall t ensures t in TargetsOn(rows, boards + {g}) <==> t in a || t in b {
      InSystems(rows, t);
    }
    assert TargetsOn(rows, boards + {g}) == a + b && a !! b;
    AsManyTargets(g, systems);
    hide Keys, Systems, TargetsOf;
    forall e
      ensures e in EntriesOn(rows, boards + {g}) <==> e in EntriesOn(rows, boards) + BoardEntries(rows, g.0, g.1)
    {
    }
  }

  lemma AllBoards(rows: seq<Row>)
    ensures TargetsOn(rows, BoardsOf(rows)) == TargetsOf(rows) && EntriesOn(rows, BoardsOf(rows)) == AllEntriesOf(rows)
    ensures RescoredOn(rows, BoardsOf(rows)) == RescoredAll(rows)
    ensures AllEntriesOf(RescoredAll(rows)) == AllEntriesOf(rows)
  {
    hide Rescored, Keys;
    forall t ensures t in TargetsOn(rows, BoardsOf(rows)) <==> t in TargetsOf(rows) {
    }
    forall i | 0 <= i < |rows| ensures BoardOf(rows[i]) in BoardsOf(rows) {
    }
    SameTargets(rows, BoardsOf(rows));
  }

  lemma NoBoards(rows: seq<Row>, cache: Cache)
    ensures RescoredOn(rows, {}) == rows && TargetsOn(rows, {}) == {} && EntriesOn(rows, {}) == {}
    ensures Entered(cache, cache, RescoredAll(rows), {}) && OnBoards({}, {})
  {
  }

  /** Recomputing a second time changes no record and no stored score. */
  lemma RecomputeIdempotent(rows: seq<Row>, cache0: Cache, cache1: Cache, cache2: Cache)
    requires Entered(cache1, cache0, RescoredAll(rows), AllEntriesOf(rows))
    requires Entered(cache2, cache1, RescoredAll(RescoredAll(rows)), AllEntriesOf(RescoredAll(rows)))
    ensures RescoredAll(RescoredAll(rows)) == RescoredAll(rows)
    ensures cache2 == cache1
  {
    var once, twice := RescoredAll(rows), RescoredAll(RescoredAll(rows));
    forall i | 0 <= i < |rows| ensures twice[i] == once[i] {
      RescoredTwice(rows[i]);
    }
    AllBoards(rows);
    assert twice == once;
    hide Stored, Rescored, RescoredAll;
    assert cache1.Keys == cache2.Keys;
    assert forall e :: e in cache1 ==> cache1[e] == cache2[e];
  }

  /** Only entries of these boards. */
  predicate OnBoards(done: set<(Target, Key)>, boards: set<(string, string)>) {
    forall e :: e in done ==> (e.0.board, e.0.arch) in boards
  }

  /** After its board has been rescored, a target's rows are as they will be at the end. */
  lemma OwnRows(rows: seq<Row>, boards: set<(string, string)>, t: Target)
    requires (t.board, t.arch) in boards
    ensures SameFor(RescoredAll(rows), RescoredOn(rows, boards), t)
  {
  }

  lemma EnteredSame(cache: Cache, start: Cache, a: seq<Row>, b: seq<Row>, done: set<(Target, Key)>)
    requires forall e :: e in done ==> SameFor(a, b, e.0)
    requires Entered(cache, start, a, done)
    ensures Entered(cache, start, b, done)
  {
    hide Score, Partial;
    forall e | e in done ensures Stored(a, e.0, e.1) == Stored(b, e.0, e.1) {
      ScoreSame(a, b, e.0, e.1);
      FlagSame(a, b, e.0, e.1);
    }
    hide SameFor;
  }

  lemma SameSymmetric(a: seq<Row>, b: seq<Row>, t: Target)
    requires SameFor(a, b, t)
    ensures SameFor(b, a, t)
  {
  }

  /** The entries so far, seen from the table as it is now and as it will be. */
  lemma EnteredSoFar(cache: Cache, start: Cache, rows: seq<Row>, boards: set<(string, string)>,
      done: set<(Target, Key)>)
    requires OnBoards(done, boards)
    ensures Entered(cache, start, RescoredAll(rows), done) <==> Entered(cache, start, RescoredOn(rows, boards), done)
  {
    hide Entered, SameFor;
    var a, b := RescoredAll(rows), RescoredOn(rows, boards);
    hide RescoredAll, RescoredOn;
    forall e | e in done ensures SameFor(a, b, e.0) && SameFor(b, a, e.0) {
      OwnRows(rows, boards, e.0);
      SameSymmetric(a, b, e.0);
    }
    if Entered(cache, start, a, done) {
      EnteredSame(cache, start, a, b, done);
    }
    if Entered(cache, start, b, done) {
      EnteredSame(cache, start, b, a, done);
    }
  }

  /** The two passes over a board rescore exactly its rows. */
  lemma BoardRescored(rows0: seq<Row>, boards: set<(string, string)>, g: (string, string), b: seq<Row>, c: seq<Row>)
    requires |b| == |c| == |rows0|
    requires var a := RescoredOn(rows0, boards);
      && (forall i :: 0 <= i < |a| ==>
        b[i] == if BoardOf(a[i]) == g && ItemEligible(a[i]) then Rescored(a[i]) else a[i])
      && (forall i :: 0 <= i < |a| ==>
        c[i] == if BoardOf(b[i]) == g && PowerEligible(b[i]) then Rescored(b[i]) else b[i])
    ensures c == RescoredOn(rows0, boards + {g})
  {
    var d := RescoredOn(rows0, boards + {g});
    forall i | 0 <= i < |rows0| ensures c[i] == d[i] {
      RescoredTwice(rows0[i]);
    }
  }

  /** Scoring a row again changes nothing more, and no row is scored as both kinds. */
  lemma RescoredTwice(row: Row)
    ensures Rescored(Rescored(row)) == Rescored(row)
    ensures BoardOf(Rescored(row)) == BoardOf(row)
    ensures ItemEligible(Rescored(row)) == ItemEligible(row) && PowerEligible(Rescored(row)) == PowerEligible(row)
    ensures !(ItemEligible(row) && PowerEligible(row))
  {
    hide Saturation;
  }

  lemma SameTargets(rows: seq<Row>, boards: set<(string, string)>)
    ensures TargetsOf(RescoredOn(rows, boards)) == TargetsOf(rows)
    ensures forall board, arch :: Systems(RescoredOn(rows, boards), board, arch) == Systems(rows, board, arch)
  {
    var b := RescoredOn(rows, boards);
    hide Rescored;
    forall i | 0 <= i < |rows| ensures b[i].target == rows[i].target {
      RescoredKeepsTarget(rows[i]);
    }
    hide RescoredOn;
    SameTargetSets(rows, b);
    SameTargetSets(b, rows);
  }

  lemma RescoredKeepsTarget(row: Row)
    ensures Rescored(row).target == row.target
  {
  }

  lemma SameTargetSets(a: seq<Row>, b: seq<Row>)
    requires |a| == |b| && forall i :: 0 <= i < |a| ==> a[i].target == b[i].target
    ensures TargetsOf(a) <= TargetsOf(b)
    ensures forall board, arch :: Systems(a, board, arch) <= Systems(b, board, arch)
  {
    forall row | row in a ensures exists other :: other in b && other.target == row.target {
      var i :| 0 <= i < |a| && a[i] == row;
      assert b[i] in b;
    }
  }

  lemma ScoreIs(rows: seq<Row>, t: Target)
    ensures Score(rows, t, Typical)
         == Weighted([Part(SubScore(rows, t, "workload", "realtime_control"), 0.25),
                      Part(SubScore(rows, t, "workload", "perception"), 0.25),
                      Part(SubScore(rows, t, "workload", "communication"), 0.25),
                      Part(SubScore(rows, t, "workload", "monitoring"), 0.25)])
    ensures Score(rows, t, Total)
         == Weighted([Part(Some(FUNCTION_SCORE), 0.2), Part(Score(rows, t, Realtime), 0.3),
                      Part(Score(rows, t, Typical), 0.4), Part(PowerScore(rows, t), 0.1)])
    ensures Score(rows, t, Power) == PowerScore(rows, t) && Score(rows, t, Function) == Some(FUNCTION_SCORE)
  {
    hide Weighted, SubScore, PowerScore, BaseParts;
  }

  lemma FlagIs(rows: seq<Row>, t: Target)
    ensures Partial(rows, t, Typical) == TypicalPartial(rows, t) && Partial(rows, t, Power) == PowerPartial(rows, t)
    ensures !Partial(rows, t, Function)
    ensures Partial(rows, t, Total)
        <==> Score(rows, t, Realtime).None? || Score(rows, t, Typical).None? || Score(rows, t, Power).None?
  {
    hide Score;
  }

  lemma AllEntries(t: Target, before: set<(Target, Key)>, done: set<(Target, Key)>)
    requires done == before + {(t, Base)} + {(t, Sched)} + {(t, Realtime)}
                     + {(t, Workload("realtime_control"))} + {(t, Workload("perception"))}
                     + {(t, Workload("communication"))} + {(t, Workload("monitoring"))}
                     + {(t, Typical)} + {(t, Power)} + {(t, Function)} + {(t, Total)}
    ensures done == before + Entries(t)
  {
    forall e ensures e in done <==> e in before + Entries(t) {
    }
  }

  function EntriesOf(board: string, arch: string, systems: set<string>): set<(Target, Key)> {
    set os, k | os in systems && k in Keys() :: (Target(board, os, arch), k)
  }

  /** All entries of all systems of a board. */
  function BoardEntries(rows: seq<Row>, board: string, arch: string): set<(Target, Key)> {
    EntriesOf(board, arch, Systems(rows, board, arch))
  }

  lemma MoreEntries(board: string, arch: string, systems: set<string>, os: string)
    ensures EntriesOf(board, arch, systems + {os}) == EntriesOf(board, arch, systems) + Entries(Target(board, os, arch))
  {
    hide Keys;
  }

  lemma MoreBoards(done: set<(Target, Key)>, boards: set<(string, string)>, g: (string, string))
    requires OnBoards(done, boards)
    ensures OnBoards(done, boards + {g})
  {
  }

  lemma SameBoardEntries(a: seq<Row>, b: seq<Row>, board: string, arch: string)
    requires Systems(a, board, arch) == Systems(b, board, arch)
    ensures BoardEntries(a, board, arch) == BoardEntries(b, board, arch)
  {
  }

  function Lookup(power: map<string, real>, os: string): Option<real> {
    if os in power then Some(power[os]) else None
  }

  /** The systems with a row for this board. */
  function Systems(rows: seq<Row>, board: string, arch: string): set<string> {
    set row | row in rows && row.target.board == board && row.target.arch == arch :: row.target.os
  }

  /** The power scores of all systems of a board. */
  ghost predicate IsPower(power: map<string, real>, rows: seq<Row>, board: string, arch: string) {
    forall os :: os in Systems(rows, board, arch) ==> PowerScore(rows, Target(board, os, arch)) == Lookup(power, os)
  }
}
