/** The failure window of FAILURES, and the archives that come with HWPREDICT. */
module Failures {
  import HW = HoltWinters

  // ----- the window

  /** Violations among the rounds from `lo` on, up to `hi`. */
  function CountIn(history: seq<bool>, lo: int, hi: int): nat
    requires 0 <= hi <= |history|
    decreases hi - lo
  {
    if hi <= lo || hi == 0 then 0
    else CountIn(history, lo, hi - 1) + if history[hi - 1] then 1 else 0
  }

  /** The last flags, newest first; before the first round there was no violation. */
  function Newest(history: seq<bool>, length: nat): seq<bool> {
    seq(length, i requires 0 <= i < length => if i < |history| then history[|history| - 1 - i] else false)
  }

  function Count(flags: seq<bool>): nat {
    if flags == [] then 0 else Count(flags[..|flags| - 1]) + if flags[|flags| - 1] then 1 else 0
  }

  lemma CountOne(v: bool)
    ensures Count([v]) == if v then 1 else 0
  {
    assert [v][..0] == [];
  }

  lemma CountLast(flags: seq<bool>, i: nat)
    requires 0 < i <= |flags|
    ensures Count(flags[..i]) == Count(flags[..i - 1]) + if flags[i - 1] then 1 else 0
  {
    assert flags[..i][..i - 1] == flags[..i - 1];
  }

  lemma NewestNext(history: seq<bool>, v: bool, length: nat)
    requires length > 0
    ensures Newest(history + [v], length) == [v] + Newest(history, length)[..length - 1]
  {
  }

  lemma {:induction false} CountUnder(history: seq<bool>, lo: int, hi: nat)
    requires lo < 0 && hi <= |history|
    ensures CountIn(history, lo, hi) == CountIn(history, 0, hi)
  {
    if hi > 0 {
      CountUnder(history, lo, hi - 1);
    }
  }

  lemma {:induction false} CountFromLow(history: seq<bool>, lo: nat, hi: nat)
    requires lo < hi <= |history|
    ensures CountIn(history, lo, hi) == CountIn(history, lo + 1, hi) + if history[lo] then 1 else 0
  {
    if lo < hi - 1 {
      CountFromLow(history, lo, hi - 1);
    }
  }

  /** Counting the window is counting the last rounds. */
  lemma {:induction false} CountNewest(history: seq<bool>, length: nat)
    ensures Count(Newest(history, length)) == CountIn(history, |history| - length, |history|)
    decreases length
  {
    if length > 0 {
      var flags := Newest(history, length);
      CountNewest(history, length - 1);
      assert flags[..length - 1] == Newest(history, length - 1);
      if length <= |history| {
        CountFromLow(history, |history| - length, |history|);
      } else {
        CountUnder(history, |history| - length, |history|);
        if |history| - length + 1 < 0 {
          CountUnder(history, |history| - length + 1, |history|);
        }
      }
    }
  }

  class Window {
    const windowLen: nat
    const threshold: nat
    const flags: array<bool>

    /** The violation history starts with zeros. */
    constructor (windowLen: nat, threshold: nat)
      requires windowLen > 0
      ensures Valid() && this.windowLen == windowLen && this.threshold == threshold && fresh(flags)
      ensures Contents() == Newest([], windowLen)
    {
      this.windowLen, this.threshold := windowLen, threshold;
      flags := new bool[windowLen](_ => false);
    }

    ghost predicate Valid() {
      flags.Length == windowLen > 0
    }

    ghost function Contents(): seq<bool>
      reads flags
    {
      flags[..]
    }

    /** The window moves on by one flag; the result is the value stored. */
    method Shift(violation: bool) returns (failure: bool)
      requires Valid()
      modifies flags
      ensures Contents() == [violation] + old(Contents())[..windowLen - 1]
      ensures failure <==> Count(Contents()) >= threshold
    {
      ghost var before, after := flags[..], [violation] + flags[..windowLen - 1];
      var count: nat := if violation then 1 else 0;
      var i := windowLen;
      ghost var seen := 0;
      assert after[..windowLen] == after;
      while i > 1
        invariant 1 <= i <= windowLen && count == (if violation then 1 else 0) + seen
        invariant seen + Count(after[..i]) == Count(after)
        invariant forall j :: 0 <= j < i ==> flags[j] == before[j]
        invariant forall j :: i <= j < windowLen ==> flags[j] == after[j]
      {
        assert after[i - 1] == before[i - 2];
        CountLast(after, i);
        flags[i - 1] := flags[i - 2];
        count := count + if flags[i - 1] then 1 else 0;
        seen := seen + if flags[i - 1] then 1 else 0;
        i := i - 1;
      }
      flags[0] := violation;
      CountOne(violation);
      assert after[..1] == [violation];
      assert flags[..] == after;
      failure := !(count < threshold);
    }
  }

  // ----- runs

  /** The violation flag of every round. */
  function Violations(p: HW.Params, idx: HW.Layout, order: seq<HW.Kind>, s: HW.State,
                      inputs: seq<HW.Input>): seq<bool> {
    if inputs == [] then []
    else Violations(p, idx, order, s, inputs[..|inputs| - 1]) + [HW.Rounds(p, idx, order, s, inputs).violation]
  }

  /** At least `threshold` of the last `length` rounds up to round k violate. */
  predicate Fails(violations: seq<bool>, k: nat, length: nat, threshold: nat)
    requires k < |violations|
  {
    CountIn(violations, k + 1 - length, k + 1) >= threshold
  }

  /** A round of all archives of one data source. */
  method Round(areas: HW.Scratch, w: Window, i: HW.Input, order: seq<HW.Kind>, ghost before: seq<bool>)
    returns (failure: bool)
    requires HW.Sorted(areas.idx, order) && HW.Distinct(areas.idx)
    requires w.Valid() && w.Contents() == Newest(before, w.windowLen)
    modifies areas, w.flags
    ensures areas.Contents()
         == HW.Run(areas.p, areas.idx, old(areas.Contents()), i.observed, i.nextSeasonal, i.nextDeviation, order)
    ensures var v := before + [areas.violation];
            w.Contents() == Newest(v, w.windowLen) && (failure <==> Fails(v, |before|, w.windowLen, w.threshold))
  {
    areas.Update(i.observed, i.nextSeasonal, i.nextDeviation, order);
    failure := w.Shift(areas.violation);
    WindowNext(before, areas.violation, w.windowLen, w.threshold);
  }

  /** The window after one more round, and the value stored in it. */
  lemma WindowNext(before: seq<bool>, violation: bool, length: nat, threshold: nat)
    requires length > 0
    ensures var v := before + [violation];
            && Newest(v, length) == [violation] + Newest(before, length)[..length - 1]
            && (Count(Newest(v, length)) >= threshold <==> Fails(v, |before|, length, threshold))
  {
    NewestNext(before, violation, length);
    CountNewest(before + [violation], length);
  }

  /** A run of all archives of one data source: the failure stored in round k is
      set exactly when at least `threshold` of the last `windowLen` rounds up to k
      violate. */
  method Watch(areas: HW.Scratch, w: Window, inputs: seq<HW.Input>, order: seq<HW.Kind>) returns (failures: seq<bool>)
    requires HW.Sorted(areas.idx, order) && HW.Distinct(areas.idx)
    requires w.Valid() && w.Contents() == Newest([], w.windowLen)
    modifies areas, w.flags
    ensures areas.Contents() == HW.Rounds(areas.p, areas.idx, order, old(areas.Contents()), inputs)
    ensures var v := Violations(areas.p, areas.idx, order, old(areas.Contents()), inputs);
            && |failures| == |v| == |inputs| && w.Contents() == Newest(v, w.windowLen)
            && forall k :: 0 <= k < |v| ==> failures[k] == Fails(v, k, w.windowLen, w.threshold)
  {
    failures := [];
    ghost var s, v := areas.Contents(), [];
    assert inputs[..0] == [];
    for n := 0 to |inputs|
      invariant areas.Contents() == HW.Rounds(areas.p, areas.idx, order, s, inputs[..n])
      invariant v == Violations(areas.p, areas.idx, order, s, inputs[..n]) && |failures| == |v| == n
      invariant w.Contents() == Newest(v, w.windowLen)
      invariant forall k :: 0 <= k < n ==> failures[k] == Fails(v, k, w.windowLen, w.threshold)
    {
      assert inputs[..n + 1][..n] == inputs[..n];
      var failure := Round(areas, w, inputs[n], order, v);
      FailsPrefix(v, areas.violation, w.windowLen, w.threshold);
      v := v + [areas.violation];
      failures := failures + [failure];
    }
    assert inputs[..|inputs|] == inputs;
  }

  lemma FailsPrefix(history: seq<bool>, v: bool, length: nat, threshold: nat)
    ensures forall k :: 0 <= k < |history| ==>
              Fails(history + [v], k, length, threshold) == Fails(history, k, length, threshold)
  {
    forall k | 0 <= k < |history|
      ensures Fails(history + [v], k, length, threshold) == Fails(history, k, length, threshold)
    {
      CountPrefix(history, v, k + 1 - length, k + 1);
    }
  }

  lemma {:induction false} CountPrefix(history: seq<bool>, v: bool, lo: int, hi: nat)
    requires hi <= |history|
    ensures CountIn(history + [v], lo, hi) == CountIn(history, lo, hi)
    decreases hi
  {
    if hi > lo && hi > 0 {
      CountPrefix(history, v, lo, hi - 1);
    }
  }

  // ----- the archives that come with HWPREDICT

  datatype Def = Def(cf: string, rowCnt: nat, dependent: nat, gamma: real,
                     deltaPos: real, deltaNeg: real, threshold: nat, windowLen: nat)

  /** The archives stand where `idx` says and find each other there: HWPREDICT finds
      SEASONAL, SEASONAL and DEVSEASONAL find HWPREDICT, DEVPREDICT and FAILURES
      find DEVSEASONAL. */
  predicate Linked(all: seq<Def>, idx: HW.Layout) {
    && (forall k: HW.Kind :: idx(k) < |all|)
    && all[idx(HW.Seasonal)].cf == "SEASONAL" && all[idx(HW.DevSeasonal)].cf == "DEVSEASONAL"
    && all[idx(HW.DevPredict)].cf == "DEVPREDICT" && all[idx(HW.Failures)].cf == "FAILURES"
    && all[idx(HW.Hw)].dependent == idx(HW.Seasonal)
    && all[idx(HW.Seasonal)].dependent == all[idx(HW.DevSeasonal)].dependent == idx(HW.Hw)
    && all[idx(HW.DevPredict)].dependent == all[idx(HW.Failures)].dependent == idx(HW.DevSeasonal)
  }

  /** create_hw_contingent_rras, behind the definition of HWPREDICT. */
  method CreateContingent(defs: seq<Def>, hw: Def, alpha: real, period: nat) returns (all: seq<Def>)
    ensures |all| == |defs| + 5 && all[..|defs|] == defs && Linked(all, Contingent(|defs|))
    ensures var hwIndex := |defs|;
            && all[hwIndex] == hw.(dependent := hwIndex + 1)
            && all[hwIndex + 1].rowCnt == all[hwIndex + 2].rowCnt == all[hwIndex + 4].rowCnt == period
            && all[hwIndex + 3].rowCnt == hw.rowCnt
            && all[hwIndex + 1].gamma == all[hwIndex + 2].gamma == alpha
            && all[hwIndex + 4].deltaPos == all[hwIndex + 4].deltaNeg == 2.0
            && all[hwIndex + 4].threshold == 7 && all[hwIndex + 4].windowLen == 9
  {
    var hwIndex := |defs|;
    all := defs + [hw];
    all := all + [Def("SEASONAL", period, hwIndex, alpha, 0.0, 0.0, 0, 0)];
    all := all[hwIndex := hw.(dependent := hwIndex + 1)];
    all := all + [Def("DEVSEASONAL", period, hwIndex, alpha, 0.0, 0.0, 0, 0)];
    all := all + [Def("DEVPREDICT", hw.rowCnt, hwIndex + 2, 0.0, 0.0, 0.0, 0, 0)];
    all := all + [Def("FAILURES", period, hwIndex + 2, 0.0, 2.0, 2.0, 7, 9)];
  }

  /** The places of the five archives. */
  function Contingent(hwIndex: nat): HW.Layout {
    (k: HW.Kind) =>
      match k
      case Hw => hwIndex
      case Seasonal => hwIndex + 1
      case DevSeasonal => hwIndex + 2
      case DevPredict => hwIndex + 3
      case Failures => hwIndex + 4
  }

  datatype Option<T> = None | Some(value: T)

  /** Where FAILURES finds the archives it needs, from link to link. */
  function FollowedFrom(all: seq<Def>, failures: nat): Option<(nat, nat, nat)> {
    if failures >= |all| || all[failures].dependent >= |all| then None
    else
      var dev := all[failures].dependent;
      var hw := all[dev].dependent;
      if hw >= |all| then None else Some((dev, hw, all[hw].dependent))
  }

  /** From its link FAILURES gets to DEVSEASONAL, HWPREDICT and SEASONAL, wherever
      linked archives stand. */
  lemma FailuresFollows(all: seq<Def>, idx: HW.Layout)
    requires Linked(all, idx)
    ensures FollowedFrom(all, idx(HW.Failures)) == Some((idx(HW.DevSeasonal), idx(HW.Hw), idx(HW.Seasonal)))
  {
  }

  /** In these places FAILURES tests against the stored prediction and deviation. */
  lemma ContingentTests(p: HW.Params, hwIndex: nat, s: HW.State, i: HW.Input)
    requires s.intercept.Num? && s.slope.Num? && s.seasonal.Num?
    ensures var order := [HW.Hw, HW.Seasonal, HW.DevSeasonal, HW.DevPredict, HW.Failures];
            HW.Sorted(Contingent(hwIndex), order) && HW.Distinct(Contingent(hwIndex))
    ensures var order := [HW.Hw, HW.Seasonal, HW.DevSeasonal, HW.DevPredict, HW.Failures];
            var r := HW.Run(p, Contingent(hwIndex), s, i.observed, i.nextSeasonal, i.nextDeviation, order);
            r.prediction.Num? && (r.violation <==> HW.IsViolation(p, r.prediction.x, i.observed, r.devPredictOut))
  {
    var idx := Contingent(hwIndex);
    var order := [HW.Hw, HW.Seasonal, HW.DevSeasonal, HW.DevPredict, HW.Failures];
    forall k: HW.Kind ensures k in order {
      assert k == order[idx(k) - hwIndex];
    }
    assert forall n :: 0 <= n < 5 ==> idx(order[n]) == hwIndex + n;
    HW.ViolationAgainstPrediction(p, idx, s, i.observed, i.nextSeasonal, i.nextDeviation, order);
  }
}
