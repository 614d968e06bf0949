/** The two-sided CUSUM detector: its recurrence against suffix sums since the last alarm. */
module Cusum {
  import opened Reals

  /** The allowance k, the threshold h and the reference mean. */
  datatype Params = Params(k: real, h: real, mean0: real)

  /** How far each sample lies above the mean, or below it, beyond the allowance. */
  function Excess(p: Params, xs: seq<real>, above: bool): (ds: seq<real>)
    ensures |ds| == |xs|
  {
    seq(|xs|, i requires 0 <= i < |xs| => Deviation(p, xs[i], above))
  }

  function Deviation(p: Params, x: real, above: bool): real {
    if above then x - p.mean0 - p.k else -(x - p.mean0) - p.k
  }

  /** v is the largest sum of a suffix, the empty one included. */
  ghost predicate IsMaxSuffix(v: real, ds: seq<real>) {
    && (exists i :: 0 <= i <= |ds| && v == Sum(ds[i..]))
    && forall i :: 0 <= i <= |ds| ==> Sum(ds[i..]) <= v
  }

  /** Some suffix exceeds the threshold, on one side or the other. */
  ghost predicate Alarming(p: Params, xs: seq<real>) {
    exists i, above :: 0 <= i <= |xs| && Sum(Excess(p, xs, above)[i..]) > p.h
  }

  /** The samples since the last alarm. */
  ghost function Since(p: Params, xs: seq<real>): seq<real> {
    if xs == [] then []
    else
      var s := Since(p, xs[..|xs| - 1]) + [xs[|xs| - 1]];
      if Alarming(p, s) then [] else s
  }

  ghost function Alarms(p: Params, xs: seq<real>): nat {
    if xs == [] then 0
    else
      var init, last := xs[..|xs| - 1], xs[|xs| - 1];
      Alarms(p, init) + if Alarming(p, Since(p, init) + [last]) then 1 else 0
  }

  function Max(a: real, b: real): real {
    if a < b then b else a
  }

  lemma SuffixOfAppend(ds: seq<real>, d: real, i: nat)
    requires i <= |ds|
    ensures Sum((ds + [d])[i..]) == Sum(ds[i..]) + d
  {
    var s := (ds + [d])[i..];
    assert s[..|s| - 1] == ds[i..] && s[|s| - 1] == d;
  }

  /** The recurrence keeps the largest suffix sum. */
  lemma MaxSuffixNext(v: real, ds: seq<real>, d: real)
    requires IsMaxSuffix(v, ds)
    ensures IsMaxSuffix(Max(0.0, v + d), ds + [d])
  {
    var next := ds + [d];
    forall i | 0 <= i <= |next| ensures Sum(next[i..]) <= Max(0.0, v + d) {
      if i <= |ds| {
        SuffixOfAppend(ds, d, i);
      }
    }
    var i :| 0 <= i <= |ds| && v == Sum(ds[i..]);
    SuffixOfAppend(ds, d, i);
    assert Sum(next[|next|..]) == 0.0;
  }

  lemma MaxDecides(v: real, ds: seq<real>, h: real)
    requires IsMaxSuffix(v, ds)
    ensures v > h <==> exists i :: 0 <= i <= |ds| && Sum(ds[i..]) > h
  {
  }

  lemma SideNext(p: Params, xs: seq<real>, x: real, above: bool, v: real)
    requires IsMaxSuffix(v, Excess(p, xs, above))
    ensures IsMaxSuffix(Max(0.0, v + Deviation(p, x, above)), Excess(p, xs + [x], above))
  {
    MaxSuffixNext(v, Excess(p, xs, above), Deviation(p, x, above));
    assert Excess(p, xs + [x], above) == Excess(p, xs, above) + [Deviation(p, x, above)];
  }

  lemma AlarmDecided(p: Params, xs: seq<real>, pos: real, neg: real)
    requires IsMaxSuffix(pos, Excess(p, xs, true)) && IsMaxSuffix(neg, Excess(p, xs, false))
    ensures Alarming(p, xs) <==> pos > p.h || neg > p.h
  {
    MaxDecides(pos, Excess(p, xs, true), p.h);
    MaxDecides(neg, Excess(p, xs, false), p.h);
  }

  lemma NothingYet(p: Params)
    ensures IsMaxSuffix(0.0, Excess(p, [], true)) && IsMaxSuffix(0.0, Excess(p, [], false))
  {
    var none := Excess(p, [], true);
    assert none[0..] == none && Excess(p, [], false) == none;
  }

  class Detector {
    const p: Params
    var sPos: real
    var sNeg: real
    ghost var seen: seq<real>

    /** Both sums are the largest suffix sums since the last alarm. */
    ghost predicate Valid()
      reads this
    {
      && IsMaxSuffix(sPos, Excess(p, Since(p, seen), true))
      && IsMaxSuffix(sNeg, Excess(p, Since(p, seen), false))
    }

    constructor (p: Params)
      ensures Valid() && this.p == p && seen == []
    {
      this.p := p;
      sPos, sNeg, seen := 0.0, 0.0, [];
      new;
      NothingYet(p);
    }

    /** `cusum_step` */
    method Step(x: real) returns (alarm: bool)
      requires Valid()
      modifies this
      ensures Valid() && seen == old(seen) + [x]
      ensures alarm <==> Alarming(p, Since(p, old(seen)) + [x])
      ensures alarm ==> sPos == 0.0 && sNeg == 0.0
    {
      var centered := x - p.mean0;
      sPos := Max(0.0, sPos + centered - p.k);
      sNeg := Max(0.0, sNeg - centered - p.k);
      ghost var s := Since(p, seen);
      SideNext(p, s, x, true, old(sPos));
      SideNext(p, s, x, false, old(sNeg));
      AlarmDecided(p, s + [x], sPos, sNeg);
      hide IsMaxSuffix, Excess, Alarming;
      seen := seen + [x];
      assert seen[..|seen| - 1] == old(seen);
      alarm := sPos > p.h || sNeg > p.h;
      if alarm {
        sPos := 0.0;
        sNeg := 0.0;
        NothingYet(p);
      }
    }
  }

  // ---------- What the detector promises ----------

  lemma {:induction false} SumAtMostZero(ds: seq<real>)
    requires forall i :: 0 <= i < |ds| ==> ds[i] <= 0.0
    ensures Sum(ds) <= 0.0
  {
    if ds != [] {
      SumAtMostZero(ds[..|ds| - 1]);
    }
  }

  lemma {:induction false} SumAtLeast(ds: seq<real>, d: real, n: nat)
    requires n == |ds| && forall i :: 0 <= i < n ==> ds[i] >= d
    ensures Sum(ds) >= n as real * d
  {
    if n != 0 {
      SumAtLeast(ds[..n - 1], d, n - 1);
      assert n as real * d == (n - 1) as real * d + d;
    }
  }

  predicate Quiet(p: Params, xs: seq<real>) {
    forall i :: 0 <= i < |xs| ==> -p.k <= xs[i] - p.mean0 <= p.k
  }

  lemma QuietNotAlarming(p: Params, xs: seq<real>)
    requires p.h >= 0.0 && Quiet(p, xs)
    ensures !Alarming(p, xs)
  {
    forall i, above | 0 <= i <= |xs| ensures Sum(Excess(p, xs, above)[i..]) <= p.h {
      SumAtMostZero(Excess(p, xs, above)[i..]);
    }
  }

  /** Samples within the allowance never raise an alarm. */
  lemma {:induction false} NoFalseAlarm(p: Params, xs: seq<real>)
    requires p.h >= 0.0 && Quiet(p, xs)
    ensures Alarms(p, xs) == 0
  {
    if xs != [] {
      var init := xs[..|xs| - 1];
      NoFalseAlarm(p, init);
      NoneYet(p, init);
      assert init + [xs[|xs| - 1]] == xs;
      QuietNotAlarming(p, xs);
    }
  }

  lemma {:induction false} NoneYet(p: Params, xs: seq<real>)
    requires Alarms(p, xs) == 0
    ensures Since(p, xs) == xs && (xs != [] ==> !Alarming(p, xs))
  {
    if xs != [] {
      NoneYet(p, xs[..|xs| - 1]);
      assert xs[..|xs| - 1] + [xs[|xs| - 1]] == xs;
    }
  }

  /** Without an alarm among the later samples, all of them count. */
  lemma {:induction false} NoneSince(p: Params, xs: seq<real>, ys: seq<real>)
    ensures Alarms(p, xs) <= Alarms(p, xs + ys)
    ensures Alarms(p, xs + ys) == Alarms(p, xs) ==>
              Since(p, xs + ys) == Since(p, xs) + ys && (ys != [] ==> !Alarming(p, Since(p, xs) + ys))
  {
    if ys == [] {
      assert xs + ys == xs && Since(p, xs) + ys == Since(p, xs);
    } else {
      var init, y := ys[..|ys| - 1], ys[|ys| - 1];
      var all := xs + ys;
      NoneSince(p, xs, init);
      assert all[..|all| - 1] == xs + init && all[|all| - 1] == y;
      assert (Since(p, xs) + init) + [y] == Since(p, xs) + ys;
    }
  }

  /** A lasting shift by d more than the allowance raises an alarm once n * d exceeds the threshold. */
  lemma ShiftDetected(p: Params, xs: seq<real>, ys: seq<real>, d: real)
    requires ys != [] && (forall i :: 0 <= i < |ys| ==> ys[i] - p.mean0 - p.k >= d)
    requires |ys| as real * d > p.h
    ensures Alarms(p, xs + ys) > Alarms(p, xs)
  {
    hide Alarming, Since, Alarms;
    SuffixExceeds(p, Since(p, xs), ys, d);
    NoneSince(p, xs, ys);
  }

  lemma SuffixExceeds(p: Params, before: seq<real>, ys: seq<real>, d: real)
    requires forall i :: 0 <= i < |ys| ==> ys[i] - p.mean0 - p.k >= d
    requires |ys| as real * d > p.h
    ensures Alarming(p, before + ys)
  {
    var ds := Excess(p, before + ys, true)[|before|..];
    assert forall i :: 0 <= i < |ys| ==> ds[i] == Deviation(p, ys[i], true);
    SumAtLeast(ds, d, |ys|);
    hide Sum, Excess;
    assert 0 <= |before| <= |before + ys| && Sum(Excess(p, before + ys, true)[|before|..]) > p.h;
  }

  // ---------- The stream of the benchmark ----------

  const MEAN_STEP := 0.35
  const DRIFT_SLOPE := 0.00045
  const STREAM_LEN := 6000
  const STEP_IDX := 2000
  const DRIFT_IDX := 4000

  /** The true mean at sample i of round j: every round adds another step and another drift. */
  function Mu(j: nat, i: nat): real {
    j as real * (MEAN_STEP + 2000.0 * DRIFT_SLOPE)
    + (if i >= STEP_IDX then MEAN_STEP else 0.0)
    + (if i >= DRIFT_IDX then (i - DRIFT_IDX + 1) as real * DRIFT_SLOPE else 0.0)
  }

  /** In numbers: a round begins 1.25 above the one before, steps up by 0.35 at sample 2000, and drifts by 0.00045 from
      sample 4000 on until the end of its 6000 samples. */
  lemma MuIs(j: nat)
    ensures forall i :: 0 <= i < 2000 ==> Mu(j, i) == 1.25 * j as real
    ensures forall i :: 2000 <= i < 4000 ==> Mu(j, i) == 1.25 * j as real + 0.35
    ensures forall i: nat :: 4000 <= i < 6000 ==> Mu(j, i) == 1.25 * j as real + 0.35 + 0.00045 * (i - 3999) as real
    ensures Mu(j, STREAM_LEN - 1) == Mu(j + 1, 0)
  {
  }

  function Samples(noise: seq<real>, n: nat): (xs: seq<real>)
    requires n <= |noise|
    ensures |xs| == n
  {
    seq(n, t requires 0 <= t < n => Mu(t / STREAM_LEN, t % STREAM_LEN) + noise[t])
  }

  /** The stream loop of `cusum_bench_run`: the mean is never reset between rounds. */
  method RunStream(loops: nat, noise: seq<real>) returns (alarms: nat)
    requires |noise| == loops * STREAM_LEN
    ensures alarms == Alarms(Params(0.175, 0.25, 0.0), Samples(noise, |noise|))
  {
    hide Alarms, Alarming, Since, Sum, Mu;
    var st := new Detector(Params(MEAN_STEP * 0.5, 5.0 * 0.05, 0.0));
    var mu := st.p.mean0;
    alarms := 0;
    NoAlarms(st.p, noise);
    for j := 0 to loops
      invariant st.Valid() && st.seen == Samples(noise, j * STREAM_LEN) && alarms == Alarms(st.p, st.seen)
      invariant mu == Before(j, 0)
    {
      for i := 0 to STREAM_LEN
        invariant j * STREAM_LEN + i <= |noise|
        invariant st.Valid() && st.seen == Samples(noise, j * STREAM_LEN + i) && alarms == Alarms(st.p, st.seen)
        invariant mu == Before(j, i)
      {
        MeanNext(j, i);
        if i == STEP_IDX {
          mu := mu + MEAN_STEP;
        }
        if i >= DRIFT_IDX {
          mu := mu + DRIFT_SLOPE;
        }
        ghost var t := j * STREAM_LEN + i;
        var x := mu + noise[j * STREAM_LEN + i];
        Position(j, i);
        SamplesNext(noise, t, x);
        ghost var before := st.seen;
        var alarm := st.Step(x);
        AlarmsNext(st.p, before, x);
        alarms := alarms + if alarm then 1 else 0;
      }
      RoundEnds(j);
    }
  }

  /** The mean before sample i of round j is looked at. */
  function Before(j: nat, i: nat): real {
    if i == 0 then j as real * (MEAN_STEP + 2000.0 * DRIFT_SLOPE) else Mu(j, i - 1)
  }

  lemma MeanNext(j: nat, i: nat)
    ensures Mu(j, i) == Before(j, i) + (if i == STEP_IDX then MEAN_STEP else 0.0)
                     + if i >= DRIFT_IDX then DRIFT_SLOPE else 0.0
  {
  }

  lemma RoundEnds(j: nat)
    ensures Before(j, STREAM_LEN) == Before(j + 1, 0)
  {
  }

  lemma Position(j: nat, i: nat)
    requires i < STREAM_LEN
    ensures (j * STREAM_LEN + i) / STREAM_LEN == j && (j * STREAM_LEN + i) % STREAM_LEN == i
  {
  }

  lemma SamplesNext(noise: seq<real>, t: nat, x: real)
    requires t < |noise| && x == Mu(t / STREAM_LEN, t % STREAM_LEN) + noise[t]
    ensures Samples(noise, t + 1) == Samples(noise, t) + [x]
  {
  }

  lemma NoAlarms(p: Params, noise: seq<real>)
    ensures Samples(noise, 0) == [] && Alarms(p, []) == 0
  {
  }

  lemma AlarmsNext(p: Params, xs: seq<real>, x: real)
    ensures Alarms(p, xs + [x]) == Alarms(p, xs) + if Alarming(p, Since(p, xs) + [x]) then 1 else 0
  {
    assert (xs + [x])[..|xs|] == xs;
  }
}
