/** The aberrant behaviour updates: HWPREDICT (or MHWPREDICT), SEASONAL,
    DEVSEASONAL, DEVPREDICT and the violation test of FAILURES, for one data
    source.  The archives are updated in the order of their indices, and each
    looks at the others' indices to find the values from before the step. */
module HoltWinters {
  import opened Archive

  datatype Kind = Hw | Seasonal | DevSeasonal | DevPredict | Failures

  /** Parameters; `multiplicative` chooses the formulas of MHWPREDICT. */
  datatype Params = Params(alpha: real, beta: real, gamma: real, devGamma: real,
                           deltaPos: real, deltaNeg: real, multiplicative: bool)

  /** The scratch areas of the archives, and what each of them stores in the end. */
  datatype State = State(
    intercept: Value, lastIntercept: Value, slope: Value, lastSlope: Value, nullCount: nat, lastNullCount: nat,
    seasonal: Value, lastSeasonal: Value,
    deviation: Value, lastDeviation: Value,
    prediction: Value, seasonalOut: Value, deviationOut: Value, devPredictOut: Value, violation: bool)

  // ----- arithmetic with unknown values

  function Add(a: Value, b: Value): Value {
    if a.Num? && b.Num? then Num(a.x + b.x) else NaN
  }

  function Sub(a: Value, b: Value): Value {
    if a.Num? && b.Num? then Num(a.x - b.x) else NaN
  }

  function Scale(k: real, a: Value): Value {
    if a.Num? then Num(k * a.x) else NaN
  }

  function Mul(a: Value, b: Value): Value {
    if a.Num? && b.Num? then Num(a.x * b.x) else NaN
  }

  /** Callers have excluded divisors that are not positive. */
  function Div(a: Value, b: Value): Value
    requires b.Num? ==> b.x > 0.0
  {
    if a.Num? && b.Num? then Num(a.x / b.x) else NaN
  }

  function Abs(a: Value): Value {
    if a.Num? && a.x < 0.0 then Num(-a.x) else a
  }

  predicate AtMostZero(a: Value) {
    a.Num? && a.x <= 0.0
  }

  predicate Greater(a: Value, b: Value) {
    a.Num? && b.Num? && a.x > b.x
  }

  // ----- the formulas

  function Predict(p: Params, intercept: Value, slope: Value, nullCount: nat, seasonal: Value): Value {
    var level := Add(intercept, Scale(nullCount as real, slope));
    if p.multiplicative then Mul(level, seasonal) else Add(level, seasonal)
  }

  function Intercept(p: Params, observed: Value, seasonal: Value, intercept: Value, slope: Value,
                     nullCount: nat): Value {
    var level := Scale(1.0 - p.alpha, Add(intercept, Scale(nullCount as real, slope)));
    if !p.multiplicative then Add(Scale(p.alpha, Sub(observed, seasonal)), level)
    else if AtMostZero(seasonal) then NaN
    else Add(Scale(p.alpha, Div(observed, seasonal)), level)
  }

  function Slope(p: Params, intercept: Value, lastIntercept: Value, slope: Value): Value {
    Add(Scale(p.beta, Sub(intercept, lastIntercept)), Scale(1.0 - p.beta, slope))
  }

  function Seasonality(p: Params, observed: Value, intercept: Value, seasonal: Value): Value {
    var old' := Scale(1.0 - p.gamma, seasonal);
    if !p.multiplicative then Add(Scale(p.gamma, Sub(observed, intercept)), old')
    else if AtMostZero(intercept) then NaN
    else Add(Scale(p.gamma, Div(observed, intercept)), old')
  }

  function InitSeasonality(p: Params, observed: Value, intercept: Value): Value {
    if !p.multiplicative then Sub(observed, intercept)
    else if AtMostZero(intercept) then NaN
    else Div(observed, intercept)
  }

  function Identity(p: Params): Value {
    if p.multiplicative then Num(1.0) else Num(0.0)
  }

  function InitDeviation(prediction: Value, observed: Value): Value {
    Abs(Sub(prediction, observed))
  }

  function Deviation(p: Params, prediction: Value, observed: Value, last: Value): Value {
    Add(Scale(p.devGamma, Abs(Sub(prediction, observed))), Scale(1.0 - p.devGamma, last))
  }

  predicate Violates(p: Params, observed: Value, prediction: Value, deviation: Value) {
    || Greater(observed, Add(prediction, Scale(p.deltaPos, deviation)))
    || Greater(Sub(prediction, Scale(p.deltaNeg, deviation)), observed)
  }

  // ----- the updates

  /** Where the archives stand in the file. */
  type Layout = Kind -> nat

  predicate Before(idx: Layout, a: Kind, b: Kind) {
    idx(a) < idx(b)
  }

  function HwStep(p: Params, idx: Layout, s: State, observed: Value): State {
    var seasonal := if Before(idx, Seasonal, Hw) then s.lastSeasonal else s.seasonal;
    var t := s.(lastIntercept := s.intercept, lastSlope := s.slope, lastNullCount := s.nullCount);
    if s.intercept.NaN? || s.slope.NaN? || seasonal.NaN? then
      var u := t.(prediction := NaN);
      if s.intercept.NaN? && observed.Num?
      then u.(intercept := observed, lastIntercept := observed, slope := Num(0.0), lastSlope := Num(0.0),
              nullCount := 1, lastNullCount := 1)
      else u
    else
      var u := t.(prediction := Predict(p, s.intercept, s.slope, s.nullCount, seasonal));
      if observed.NaN? then u.(nullCount := s.nullCount + 1)
      else
        var intercept := Intercept(p, observed, seasonal, s.intercept, s.slope, s.nullCount);
        u.(intercept := intercept, slope := Slope(p, intercept, s.intercept, s.slope), nullCount := 1)
  }

  function SeasonalStep(p: Params, idx: Layout, s: State, observed: Value, next: Value): State {
    var seasonal := s.seasonal;
    var t := s.(lastSeasonal := seasonal, seasonal := next);
    var value :=
      if observed.NaN? then seasonal
      else if Before(idx, Hw, Seasonal) then
        if s.lastIntercept.NaN? || s.lastSlope.NaN? then NaN
        else if seasonal.NaN? then InitSeasonality(p, observed, s.lastIntercept)
        else Seasonality(p, observed, s.intercept, seasonal)
      else if s.intercept.NaN? || s.slope.NaN? then Identity(p)
      else if seasonal.NaN? then InitSeasonality(p, observed, s.intercept)
      else Seasonality(p, observed, Intercept(p, observed, seasonal, s.intercept, s.slope, s.nullCount), seasonal);
    t.(seasonalOut := value)
  }

  /** What a prediction is made of, as an archive finds it. */
  datatype Basis = Basis(intercept: Value, slope: Value, nullCount: nat, seasonal: Value)

  function Found(idx: Layout, s: State, k: Kind): Basis {
    var seasonal := if Before(idx, Seasonal, k) then s.lastSeasonal else s.seasonal;
    if Before(idx, Hw, k) then Basis(s.lastIntercept, s.lastSlope, s.lastNullCount, seasonal)
    else Basis(s.intercept, s.slope, s.nullCount, seasonal)
  }

  predicate Usable(b: Basis) {
    b.intercept.Num? && b.slope.Num? && b.seasonal.Num?
  }

  function PredictFrom(p: Params, b: Basis): Value {
    Predict(p, b.intercept, b.slope, b.nullCount, b.seasonal)
  }

  /** The deviation that is stored, measured against the prediction made from `b`. */
  function DeviationFrom(p: Params, b: Basis, observed: Value, last: Value): Value {
    if !Usable(b) then NaN
    else if observed.NaN? then last
    else if last.NaN? then InitDeviation(PredictFrom(p, b), observed)
    else Deviation(p, PredictFrom(p, b), observed, last)
  }

  function DevSeasonalStep(p: Params, idx: Layout, s: State, observed: Value, next: Value): State {
    s.(lastDeviation := s.deviation, deviation := next,
       deviationOut := DeviationFrom(p, Found(idx, s, DevSeasonal), observed, s.deviation))
  }

  function DevPredictStep(idx: Layout, s: State): State {
    s.(devPredictOut := if Before(idx, DevSeasonal, DevPredict) then s.lastDeviation else s.deviation)
  }

  /** The violation test. The deviation is looked up by the place of SEASONAL. */
  function FailuresStep(p: Params, idx: Layout, s: State, observed: Value): State {
    var deviation := if Before(idx, Failures, Seasonal) then s.deviation else s.lastDeviation;
    s.(violation := ViolationFrom(p, Found(idx, s, Failures), observed, deviation))
  }

  predicate ViolationFrom(p: Params, b: Basis, observed: Value, deviation: Value) {
    deviation.Num? && (observed.NaN? || Violates(p, observed, PredictFrom(p, b), deviation))
  }

  function Step(p: Params, idx: Layout, s: State, observed: Value, nextSeasonal: Value, nextDeviation: Value,
                k: Kind): State {
    match k
    case Hw => HwStep(p, idx, s, observed)
    case Seasonal => SeasonalStep(p, idx, s, observed, nextSeasonal)
    case DevSeasonal => DevSeasonalStep(p, idx, s, observed, nextDeviation)
    case DevPredict => DevPredictStep(idx, s)
    case Failures => FailuresStep(p, idx, s, observed)
  }

  /** The archives are updated in the order of their indices. */
  ghost predicate Sorted(idx: Layout, order: seq<Kind>) {
    && (forall k: Kind :: k in order)
    && forall i, j :: 0 <= i < j < |order| ==> Before(idx, order[i], order[j])
  }

  function Run(p: Params, idx: Layout, s: State, observed: Value, nextSeasonal: Value, nextDeviation: Value,
               order: seq<Kind>): State {
    if order == [] then s
    else
      var n := |order| - 1;
      Step(p, idx, Run(p, idx, s, observed, nextSeasonal, nextDeviation, order[..n]),
           observed, nextSeasonal, nextDeviation, order[n])
  }

  // ----- what a round computes from the state before it

  /** HWPREDICT starts over from the observed value. */
  predicate Bootstraps(s: State, observed: Value) {
    s.intercept.NaN? && observed.Num?
  }

  /** What the prediction is made of, for archives before or behind HWPREDICT. */
  function BasisOf(s: State, observed: Value, behindHw: bool): Basis {
    if behindHw && Bootstraps(s, observed) then Basis(observed, Num(0.0), 1, s.seasonal)
    else Basis(s.intercept, s.slope, s.nullCount, s.seasonal)
  }

  function NewIntercept(p: Params, s: State, observed: Value): Value {
    if Bootstraps(s, observed) then observed
    else if Usable(BasisOf(s, observed, false)) && observed.Num?
    then Intercept(p, observed, s.seasonal, s.intercept, s.slope, s.nullCount)
    else s.intercept
  }

  function NewSlope(p: Params, s: State, observed: Value): Value {
    if Bootstraps(s, observed) then Num(0.0)
    else if Usable(BasisOf(s, observed, false)) && observed.Num?
    then Slope(p, NewIntercept(p, s, observed), s.intercept, s.slope)
    else s.slope
  }

  function NewNullCount(s: State, observed: Value): nat {
    if Bootstraps(s, observed) then 1
    else if !Usable(BasisOf(s, observed, false)) then s.nullCount
    else if observed.Num? then 1
    else s.nullCount + 1
  }

  function StoredPrediction(p: Params, s: State): Value {
    var b := BasisOf(s, NaN, false);
    if Usable(b) then PredictFrom(p, b) else NaN
  }

  function StoredSeasonal(p: Params, s: State, observed: Value, behindHw: bool): Value {
    if observed.NaN? then s.seasonal
    else
      var b := BasisOf(s, observed, behindHw);
      if b.intercept.NaN? || b.slope.NaN? then (if behindHw then NaN else Identity(p))
      else if s.seasonal.NaN? then InitSeasonality(p, observed, b.intercept)
      else if behindHw then Seasonality(p, observed, NewIntercept(p, s, observed), s.seasonal)
      else Seasonality(p, observed, Intercept(p, observed, s.seasonal, s.intercept, s.slope, s.nullCount), s.seasonal)
  }

  function StoredDeviation(p: Params, s: State, observed: Value, behindHw: bool): Value {
    DeviationFrom(p, BasisOf(s, observed, behindHw), observed, s.deviation)
  }

  /** The deviation that FAILURES finds. */
  function DeviationSeen(idx: Layout, s: State, nextDeviation: Value): Value {
    if Before(idx, Failures, Seasonal) then (if Before(idx, DevSeasonal, Failures) then nextDeviation else s.deviation)
    else if Before(idx, DevSeasonal, Failures) then s.deviation else s.lastDeviation
  }

  /** The state after the archives in `done` have been updated. */
  ghost function After(p: Params, idx: Layout, s: State, observed: Value, nextSeasonal: Value, nextDeviation: Value,
                       done: set<Kind>): State {
    var b := BasisOf(s, observed, true);
    State(
      if Hw in done then NewIntercept(p, s, observed) else s.intercept,
      if Hw in done then b.intercept else s.lastIntercept,
      if Hw in done then NewSlope(p, s, observed) else s.slope,
      if Hw in done then b.slope else s.lastSlope,
      if Hw in done then NewNullCount(s, observed) else s.nullCount,
      if Hw in done then b.nullCount else s.lastNullCount,
      if Seasonal in done then nextSeasonal else s.seasonal,
      if Seasonal in done then s.seasonal else s.lastSeasonal,
      if DevSeasonal in done then nextDeviation else s.deviation,
      if DevSeasonal in done then s.deviation else s.lastDeviation,
      if Hw in done then StoredPrediction(p, s) else s.prediction,
      if Seasonal in done then StoredSeasonal(p, s, observed, Before(idx, Hw, Seasonal)) else s.seasonalOut,
      if DevSeasonal in done then StoredDeviation(p, s, observed, Before(idx, Hw, DevSeasonal)) else s.deviationOut,
      if DevPredict in done then s.deviation else s.devPredictOut,
      if Failures in done
      then ViolationFrom(p, BasisOf(s, observed, Before(idx, Hw, Failures)), observed,
                         DeviationSeen(idx, s, nextDeviation))
      else s.violation)
  }

  lemma HwAfter(p: Params, idx: Layout, s: State, observed: Value, nextSeasonal: Value, nextDeviation: Value,
                done: set<Kind>)
    requires Hw !in done
    requires forall d {:trigger Before(idx, d, Hw)} :: d in done <==> Before(idx, d, Hw)
    ensures var before := After(p, idx, s, observed, nextSeasonal, nextDeviation, done);
            HwStep(p, idx, before, observed)
            == After(p, idx, s, observed, nextSeasonal, nextDeviation, done + {Hw})
  {
  }

  lemma SeasonalAfter(p: Params, idx: Layout, s: State, observed: Value, nextSeasonal: Value, nextDeviation: Value,
                done: set<Kind>)
    requires Seasonal !in done
    requires forall d {:trigger Before(idx, d, Seasonal)} :: d in done <==> Before(idx, d, Seasonal)
    ensures var before := After(p, idx, s, observed, nextSeasonal, nextDeviation, done);
            SeasonalStep(p, idx, before, observed, nextSeasonal)
            == After(p, idx, s, observed, nextSeasonal, nextDeviation, done + {Seasonal})
  {
  }

  lemma DevSeasonalAfter(p: Params, idx: Layout, s: State, observed: Value, nextSeasonal: Value, nextDeviation: Value,
                done: set<Kind>)
    requires DevSeasonal !in done
    requires forall d {:trigger Before(idx, d, DevSeasonal)} :: d in done <==> Before(idx, d, DevSeasonal)
    ensures var before := After(p, idx, s, observed, nextSeasonal, nextDeviation, done);
            DevSeasonalStep(p, idx, before, observed, nextDeviation)
            == After(p, idx, s, observed, nextSeasonal, nextDeviation, done + {DevSeasonal})
  {
  }

  lemma DevPredictAfter(p: Params, idx: Layout, s: State, observed: Value, nextSeasonal: Value, nextDeviation: Value,
                done: set<Kind>)
    requires DevPredict !in done
    requires forall d {:trigger Before(idx, d, DevPredict)} :: d in done <==> Before(idx, d, DevPredict)
    ensures var before := After(p, idx, s, observed, nextSeasonal, nextDeviation, done);
            DevPredictStep(idx, before)
            == After(p, idx, s, observed, nextSeasonal, nextDeviation, done + {DevPredict})
  {
  }

  lemma FailuresAfter(p: Params, idx: Layout, s: State, observed: Value, nextSeasonal: Value, nextDeviation: Value,
                done: set<Kind>)
    requires Failures !in done
    requires forall d {:trigger Before(idx, d, Failures)} :: d in done <==> Before(idx, d, Failures)
    ensures var before := After(p, idx, s, observed, nextSeasonal, nextDeviation, done);
            FailuresStep(p, idx, before, observed)
            == After(p, idx, s, observed, nextSeasonal, nextDeviation, done + {Failures})
  {
  }

  lemma StepAfter(p: Params, idx: Layout, s: State, observed: Value, nextSeasonal: Value, nextDeviation: Value,
                  done: set<Kind>, k: Kind)
    requires k !in done && forall d {:trigger Before(idx, d, k)} :: d in done <==> Before(idx, d, k)
    ensures Step(p, idx, After(p, idx, s, observed, nextSeasonal, nextDeviation, done),
                 observed, nextSeasonal, nextDeviation, k)
         == After(p, idx, s, observed, nextSeasonal, nextDeviation, done + {k})
  {
    match k
    case Hw => HwAfter(p, idx, s, observed, nextSeasonal, nextDeviation, done);
    case Seasonal => SeasonalAfter(p, idx, s, observed, nextSeasonal, nextDeviation, done);
    case DevSeasonal => DevSeasonalAfter(p, idx, s, observed, nextSeasonal, nextDeviation, done);
    case DevPredict => DevPredictAfter(p, idx, s, observed, nextSeasonal, nextDeviation, done);
    case Failures => FailuresAfter(p, idx, s, observed, nextSeasonal, nextDeviation, done);
  }

  ghost const EVERYTHING: set<Kind> := {Hw, Seasonal, DevSeasonal, DevPredict, Failures}

  ghost function Members(order: seq<Kind>): set<Kind> {
    set k | k in order
  }

  lemma DoneBefore(idx: Layout, order: seq<Kind>, n: nat, d: Kind)
    requires Sorted(idx, order) && n < |order|
    ensures d in order[..n] <==> Before(idx, d, order[n])
  {
    assert d in order;
    var i: nat :| i < |order| && order[i] == d;
    if i < n {
      assert order[..n][i] == d;
    } else {
      assert i > n ==> Before(idx, order[n], order[i]);
      forall j | 0 <= j < n
        ensures order[..n][j] != d
      {
        assert Before(idx, order[j], order[i]);
      }
    }
  }

  lemma {:induction false} RunAfter(p: Params, idx: Layout, s: State, observed: Value, nextSeasonal: Value,
                                    nextDeviation: Value, order: seq<Kind>, n: nat)
    requires Sorted(idx, order) && n <= |order|
    ensures Run(p, idx, s, observed, nextSeasonal, nextDeviation, order[..n])
         == After(p, idx, s, observed, nextSeasonal, nextDeviation, Members(order[..n]))
  {
    if n > 0 {
      RunAfter(p, idx, s, observed, nextSeasonal, nextDeviation, order, n - 1);
      assert order[..n][..n - 1] == order[..n - 1];
      var k := order[n - 1];
      var done := Members(order[..n - 1]);
      forall d {:trigger Before(idx, d, k)}
        ensures d in done <==> Before(idx, d, k)
      {
        DoneBefore(idx, order, n - 1, d);
      }
      StepAfter(p, idx, s, observed, nextSeasonal, nextDeviation, done, k);
      assert Members(order[..n]) == done + {k};
    }
  }

  /** Whatever the order of the archives, a round computes this. */
  lemma RoundIs(p: Params, idx: Layout, s: State, observed: Value, nextSeasonal: Value, nextDeviation: Value,
                order: seq<Kind>)
    requires Sorted(idx, order)
    ensures Run(p, idx, s, observed, nextSeasonal, nextDeviation, order)
         == After(p, idx, s, observed, nextSeasonal, nextDeviation, EVERYTHING)
  {
    RunAfter(p, idx, s, observed, nextSeasonal, nextDeviation, order, |order|);
    assert order[..|order|] == order;
    forall k: Kind
      ensures k in order && k in EVERYTHING
    {
      match k
      case Hw =>
      case Seasonal =>
      case DevSeasonal =>
      case DevPredict =>
      case Failures =>
    }
    assert Members(order) == EVERYTHING;
  }

  /** While intercept and slope are known, the order of the archives decides at
      most the violation test. */
  lemma OrderIndependent(p: Params, s: State, observed: Value, nextSeasonal: Value, nextDeviation: Value,
                         idx: Layout, order: seq<Kind>, idx': Layout, order': seq<Kind>)
    requires Sorted(idx, order) && Sorted(idx', order') && s.intercept.Num? && s.slope.Num?
    ensures Run(p, idx, s, observed, nextSeasonal, nextDeviation, order).(violation := false)
         == Run(p, idx', s, observed, nextSeasonal, nextDeviation, order').(violation := false)
  {
    RoundIs(p, idx, s, observed, nextSeasonal, nextDeviation, order);
    RoundIs(p, idx', s, observed, nextSeasonal, nextDeviation, order');
  }

  /** Without them it decides the stored seasonal value, unless nothing was
      observed or starting over from the observed value gives the neutral value. */
  lemma SeasonalOrderMatters(p: Params, s: State, observed: Value, nextSeasonal: Value, nextDeviation: Value,
                             idx: Layout, order: seq<Kind>, idx': Layout, order': seq<Kind>)
    requires Sorted(idx, order) && Sorted(idx', order')
    ensures var r := Run(p, idx, s, observed, nextSeasonal, nextDeviation, order);
            var r' := Run(p, idx', s, observed, nextSeasonal, nextDeviation, order');
            r.seasonalOut == r'.seasonalOut
            <==> || (Before(idx, Hw, Seasonal) <==> Before(idx', Hw, Seasonal))
                 || observed.NaN? || (s.intercept.Num? && s.slope.Num?)
                 || (&& s.intercept.NaN? && (p.multiplicative ==> observed.x > 0.0)
                     && (s.seasonal.NaN? || p.gamma == 1.0 || s.seasonal == Identity(p)))
  {
    RoundIs(p, idx, s, observed, nextSeasonal, nextDeviation, order);
    RoundIs(p, idx', s, observed, nextSeasonal, nextDeviation, order');
    SeasonalByPlace(p, s, observed);
  }

  /** The stored seasonal value with HWPREDICT before and behind SEASONAL. */
  lemma SeasonalByPlace(p: Params, s: State, observed: Value)
    ensures StoredSeasonal(p, s, observed, true) == StoredSeasonal(p, s, observed, false)
            <==> || observed.NaN? || (s.intercept.Num? && s.slope.Num?)
                 || (&& s.intercept.NaN? && (p.multiplicative ==> observed.x > 0.0)
                     && (s.seasonal.NaN? || p.gamma == 1.0 || s.seasonal == Identity(p)))
  {
    if observed.NaN? || s.intercept.Num? {
      KeptByOrder(p, s, observed);
    } else {
      AfterStartingOver(p, s, observed);
      NeutralAgain(p, observed.x, s.seasonal, StoredSeasonal(p, s, observed, true));
    }
  }

  /** What starting over makes of the seasonal value. */
  function StartedOver(p: Params, observed: real, seasonal: Value): Value {
    if p.multiplicative && observed <= 0.0 then NaN
    else if seasonal.NaN? then Identity(p)
    else Num(p.gamma * Identity(p).x + (1.0 - p.gamma) * seasonal.x)
  }

  lemma NeutralAgain(p: Params, observed: real, seasonal: Value, value: Value)
    requires value == StartedOver(p, observed, seasonal)
    ensures value == Identity(p)
            <==> (p.multiplicative ==> observed > 0.0)
                 && (seasonal.NaN? || p.gamma == 1.0 || seasonal == Identity(p))
  {
    if seasonal.Num? {
      StartOver(p.gamma, seasonal.x, Identity(p).x);
    }
  }

  lemma KeptByOrder(p: Params, s: State, observed: Value)
    requires observed.NaN? || s.intercept.Num?
    ensures StoredSeasonal(p, s, observed, true) == StoredSeasonal(p, s, observed, false)
            <==> observed.NaN? || s.slope.Num?
  {
  }

  lemma AfterStartingOver(p: Params, s: State, observed: Value)
    requires observed.Num? && s.intercept.NaN?
    ensures StoredSeasonal(p, s, observed, false) == Identity(p)
    ensures StoredSeasonal(p, s, observed, true) == StartedOver(p, observed.x, s.seasonal)
  {
    assert BasisOf(s, observed, true) == Basis(observed, Num(0.0), 1, s.seasonal);
    assert NewIntercept(p, s, observed) == observed;
    assert observed.x > 0.0 ==> observed.x / observed.x == 1.0;
  }

  lemma StartOver(gamma: real, seasonal: real, neutral: real)
    ensures gamma * neutral + (1.0 - gamma) * seasonal == neutral <==> gamma == 1.0 || seasonal == neutral
  {
    var a, b := 1.0 - gamma, seasonal - neutral;
    assert gamma * neutral + (1.0 - gamma) * seasonal - neutral == a * b;
    if a != 0.0 {
      assert b == a * b / a;
    }
  }

  /** And it decides the stored deviation exactly if HWPREDICT starts over while the
      seasonal value is known. */
  lemma DeviationOrderMatters(p: Params, s: State, observed: Value, nextSeasonal: Value, nextDeviation: Value,
                              idx: Layout, order: seq<Kind>, idx': Layout, order': seq<Kind>)
    requires Sorted(idx, order) && Sorted(idx', order')
    ensures var r := Run(p, idx, s, observed, nextSeasonal, nextDeviation, order);
            var r' := Run(p, idx', s, observed, nextSeasonal, nextDeviation, order');
            r.deviationOut == r'.deviationOut
            <==> || (Before(idx, Hw, DevSeasonal) <==> Before(idx', Hw, DevSeasonal))
                 || !Bootstraps(s, observed) || s.seasonal.NaN?
  {
    RoundIs(p, idx, s, observed, nextSeasonal, nextDeviation, order);
    RoundIs(p, idx', s, observed, nextSeasonal, nextDeviation, order');
    DeviationByPlace(p, s, observed);
  }

  lemma DeviationByPlace(p: Params, s: State, observed: Value)
    ensures StoredDeviation(p, s, observed, true) == StoredDeviation(p, s, observed, false)
            <==> !(Bootstraps(s, observed) && s.seasonal.Num?)
  {
  }

  /** The deviation is measured against the prediction that HWPREDICT stores, and
      DEVPREDICT stores the deviation from before the step. */
  lemma DeviationAgainstPrediction(p: Params, idx: Layout, s: State, observed: Value, nextSeasonal: Value,
                                   nextDeviation: Value, order: seq<Kind>)
    requires Sorted(idx, order) && !Bootstraps(s, observed)
    ensures var r := Run(p, idx, s, observed, nextSeasonal, nextDeviation, order);
            && r.devPredictOut == s.deviation
            && r.deviationOut == Measured(p, r.prediction, observed, s.deviation)
  {
    RoundIs(p, idx, s, observed, nextSeasonal, nextDeviation, order);
    StoredIsMeasured(p, s, observed, Before(idx, Hw, DevSeasonal));
  }

  /** The absolute error of a prediction, smoothed with the last deviation if there
      is one. */
  function Measured(p: Params, prediction: Value, observed: Value, last: Value): Value {
    if prediction.NaN? then NaN
    else if observed.NaN? then last
    else
      var error := if prediction.x < observed.x then observed.x - prediction.x else prediction.x - observed.x;
      if last.NaN? then Num(error) else Num(p.devGamma * error + (1.0 - p.devGamma) * last.x)
  }

  lemma StoredIsMeasured(p: Params, s: State, observed: Value, behindHw: bool)
    requires !Bootstraps(s, observed)
    ensures StoredDeviation(p, s, observed, behindHw) == Measured(p, StoredPrediction(p, s), observed, s.deviation)
  {
    var b := BasisOf(s, observed, behindHw);
    assert b == BasisOf(s, NaN, false);
    assert Usable(b) ==> PredictFrom(p, b).Num?;
  }

  /** How a value that is known changes the coefficients, told by the error of the
      prediction `r` stores: the intercept moves from the expected level by alpha
      times the error (with MHWPREDICT: of the error without its seasonal part),
      the slope by beta times the surprise in the intercept, and the seasonal value
      by gamma times its own surprise. */
  ghost predicate Corrects(p: Params, s: State, observed: real, r: State)
    requires s.intercept.Num? && s.slope.Num? && s.seasonal.Num? && (p.multiplicative ==> s.seasonal.x > 0.0)
  {
    && r.nullCount == 1
    && CorrectsIntercept(p, s, observed, r.prediction, r.intercept)
    && CorrectsSlope(p, s, r.intercept, r.slope)
    && CorrectsSeasonal(p, s, observed, r.intercept, r.seasonalOut)
  }

  ghost predicate CorrectsIntercept(p: Params, s: State, observed: real, prediction: Value, intercept: Value)
    requires s.intercept.Num? && s.slope.Num? && s.seasonal.Num? && (p.multiplicative ==> s.seasonal.x > 0.0)
  {
    && prediction.Num? && intercept.Num?
    && (var error := observed - prediction.x;
        intercept.x == s.intercept.x + s.nullCount as real * s.slope.x
                       + p.alpha * (if p.multiplicative then error / s.seasonal.x else error))
  }

  ghost predicate CorrectsSlope(p: Params, s: State, intercept: Value, slope: Value)
    requires s.intercept.Num? && s.slope.Num?
  {
    intercept.Num? && slope == Num(s.slope.x + p.beta * (intercept.x - s.intercept.x - s.slope.x))
  }

  ghost predicate CorrectsSeasonal(p: Params, s: State, observed: real, intercept: Value, seasonal: Value)
    requires s.seasonal.Num?
  {
    && intercept.Num?
    && (!p.multiplicative ==>
          seasonal == Num(s.seasonal.x + p.gamma * (observed - intercept.x - s.seasonal.x)))
    && (p.multiplicative && intercept.x > 0.0 ==>
          seasonal == Num(s.seasonal.x + p.gamma * (observed / intercept.x - s.seasonal.x)))
    && (p.multiplicative && intercept.x <= 0.0 ==> seasonal == NaN)
  }

  lemma ErrorCorrection(p: Params, idx: Layout, s: State, observed: real, nextSeasonal: Value, nextDeviation: Value,
                        order: seq<Kind>)
    requires Sorted(idx, order) && s.intercept.Num? && s.slope.Num? && s.seasonal.Num?
    requires p.multiplicative ==> s.seasonal.x > 0.0
    ensures Corrects(p, s, observed, Run(p, idx, s, Num(observed), nextSeasonal, nextDeviation, order))
  {
    Coefficients(p, idx, s, Num(observed), nextSeasonal, nextDeviation, order);
    CoefficientsCorrect(p, s, observed, Run(p, idx, s, Num(observed), nextSeasonal, nextDeviation, order),
                        Before(idx, Hw, Seasonal));
  }

  lemma Coefficients(p: Params, idx: Layout, s: State, observed: Value, nextSeasonal: Value, nextDeviation: Value,
                     order: seq<Kind>)
    requires Sorted(idx, order)
    ensures var r := Run(p, idx, s, observed, nextSeasonal, nextDeviation, order);
            && r.prediction == StoredPrediction(p, s) && r.nullCount == NewNullCount(s, observed)
            && r.intercept == NewIntercept(p, s, observed) && r.slope == NewSlope(p, s, observed)
            && r.seasonalOut == StoredSeasonal(p, s, observed, Before(idx, Hw, Seasonal))
  {
    RoundIs(p, idx, s, observed, nextSeasonal, nextDeviation, order);
  }

  lemma CoefficientsCorrect(p: Params, s: State, observed: real, r: State, behindHw: bool)
    requires s.intercept.Num? && s.slope.Num? && s.seasonal.Num? && (p.multiplicative ==> s.seasonal.x > 0.0)
    requires r.prediction == StoredPrediction(p, s) && r.nullCount == NewNullCount(s, Num(observed))
    requires r.intercept == NewIntercept(p, s, Num(observed)) && r.slope == NewSlope(p, s, Num(observed))
    requires r.seasonalOut == StoredSeasonal(p, s, Num(observed), behindHw)
    ensures Corrects(p, s, observed, r)
  {
    InterceptError(p, s, observed);
    SlopeError(p, s, observed);
    SeasonalError(p, s, observed, behindHw);
  }

  lemma InterceptError(p: Params, s: State, observed: real)
    requires s.intercept.Num? && s.slope.Num? && s.seasonal.Num? && (p.multiplicative ==> s.seasonal.x > 0.0)
    ensures CorrectsIntercept(p, s, observed, StoredPrediction(p, s), NewIntercept(p, s, Num(observed)))
    ensures NewNullCount(s, Num(observed)) == 1
  {
    var level := s.intercept.x + s.nullCount as real * s.slope.x;
    FromLevel(p, observed, s, level);
    LevelCorrected(p, s, observed, level, StoredPrediction(p, s).x, NewIntercept(p, s, Num(observed)).x);
  }

  lemma LevelCorrected(p: Params, s: State, observed: real, level: real, prediction: real, intercept: real)
    requires s.intercept.Num? && s.slope.Num? && s.seasonal.Num? && (p.multiplicative ==> s.seasonal.x > 0.0)
    requires level == s.intercept.x + s.nullCount as real * s.slope.x
    requires prediction == if p.multiplicative then level * s.seasonal.x else level + s.seasonal.x
    requires intercept == p.alpha * (if p.multiplicative then observed / s.seasonal.x else observed - s.seasonal.x)
                          + (1.0 - p.alpha) * level
    ensures CorrectsIntercept(p, s, observed, Num(prediction), Num(intercept))
  {
    if p.multiplicative {
      MultiplicativeFollows(p.alpha, observed, s.seasonal.x, level);
    } else {
      Mixed(p.alpha, observed - s.seasonal.x, level);
    }
  }

  /** Prediction and intercept by the expected level. */
  lemma FromLevel(p: Params, observed: real, s: State, level: real)
    requires s.intercept.Num? && s.slope.Num? && s.seasonal.Num? && (p.multiplicative ==> s.seasonal.x > 0.0)
    requires level == s.intercept.x + s.nullCount as real * s.slope.x
    ensures StoredPrediction(p, s) == Num(if p.multiplicative then level * s.seasonal.x else level + s.seasonal.x)
    ensures NewIntercept(p, s, Num(observed))
      == Num(p.alpha * (if p.multiplicative then observed / s.seasonal.x else observed - s.seasonal.x)
             + (1.0 - p.alpha) * level)
  {
    var known := Add(s.intercept, Scale(s.nullCount as real, s.slope));
    assert known == Num(level) && Scale(1.0 - p.alpha, known) == Num((1.0 - p.alpha) * level);
    if p.multiplicative {
      var part := Div(Num(observed), s.seasonal);
      assert part == Num(observed / s.seasonal.x) && Scale(p.alpha, part) == Num(p.alpha * (observed / s.seasonal.x));
      assert Mul(known, s.seasonal) == Num(level * s.seasonal.x);
    } else {
      var part := Sub(Num(observed), s.seasonal);
      assert part == Num(observed - s.seasonal.x) && Scale(p.alpha, part) == Num(p.alpha * (observed - s.seasonal.x));
    }
    assert StoredPrediction(p, s) == Predict(p, s.intercept, s.slope, s.nullCount, s.seasonal);
    assert NewIntercept(p, s, Num(observed))
      == Intercept(p, Num(observed), s.seasonal, s.intercept, s.slope, s.nullCount);
  }

  lemma SlopeError(p: Params, s: State, observed: real)
    requires s.intercept.Num? && s.slope.Num? && s.seasonal.Num? && NewIntercept(p, s, Num(observed)).Num?
    ensures CorrectsSlope(p, s, NewIntercept(p, s, Num(observed)), NewSlope(p, s, Num(observed)))
  {
    var surprise := NewIntercept(p, s, Num(observed)).x - s.intercept.x;
    Mixed(p.beta, surprise, s.slope.x);
    assert NewSlope(p, s, Num(observed)) == Num(p.beta * surprise + (1.0 - p.beta) * s.slope.x);
  }

  lemma SeasonalError(p: Params, s: State, observed: real, behindHw: bool)
    requires s.intercept.Num? && s.slope.Num? && s.seasonal.Num? && NewIntercept(p, s, Num(observed)).Num?
    ensures CorrectsSeasonal(p, s, observed, NewIntercept(p, s, Num(observed)),
                             StoredSeasonal(p, s, Num(observed), behindHw))
  {
    var intercept := NewIntercept(p, s, Num(observed)).x;
    assert StoredSeasonal(p, s, Num(observed), behindHw) == Seasonality(p, Num(observed), Num(intercept), s.seasonal);
    if p.multiplicative ==> intercept > 0.0 {
      SeasonalityFollows(p, observed, intercept, s.seasonal.x);
    }
  }

  lemma SeasonalityFollows(p: Params, observed: real, intercept: real, seasonal: real)
    requires p.multiplicative ==> intercept > 0.0
    ensures var found := if p.multiplicative then observed / intercept else observed - intercept;
            Seasonality(p, Num(observed), Num(intercept), Num(seasonal)) == Num(seasonal + p.gamma * (found - seasonal))
  {
    Mixed(p.gamma, if p.multiplicative then observed / intercept else observed - intercept, seasonal);
  }

  lemma Mixed(k: real, a: real, b: real)
    ensures k * a + (1.0 - k) * b == b + k * (a - b)
  {
  }

  lemma MultiplicativeFollows(alpha: real, observed: real, seasonal: real, level: real)
    requires seasonal > 0.0
    ensures alpha * (observed / seasonal) + (1.0 - alpha) * level
         == level + alpha * ((observed - level * seasonal) / seasonal)
  {
    assert (observed - level * seasonal) / seasonal == observed / seasonal - level;
    Mixed(alpha, observed / seasonal, level);
  }

  // ----- the other rounds

  /** A round without a value predicts one step further, leaves coefficients, seasonal
      value and deviation as they are, and counts the step. */
  lemma MissedRound(p: Params, idx: Layout, s: State, nextSeasonal: Value, nextDeviation: Value, order: seq<Kind>)
    requires Sorted(idx, order) && s.intercept.Num? && s.slope.Num? && s.seasonal.Num?
    ensures var r := Run(p, idx, s, NaN, nextSeasonal, nextDeviation, order);
            var level := s.intercept.x + s.nullCount as real * s.slope.x;
            && r.prediction == Num(if p.multiplicative then level * s.seasonal.x else level + s.seasonal.x)
            && r.intercept == s.intercept && r.slope == s.slope && r.nullCount == s.nullCount + 1
            && r.seasonalOut == s.seasonal && r.deviationOut == r.devPredictOut == s.deviation
  {
    RoundIs(p, idx, s, NaN, nextSeasonal, nextDeviation, order);
    PredictionFromLevel(p, s, s.intercept.x + s.nullCount as real * s.slope.x);
  }

  lemma PredictionFromLevel(p: Params, s: State, level: real)
    requires s.intercept.Num? && s.slope.Num? && s.seasonal.Num?
    requires level == s.intercept.x + s.nullCount as real * s.slope.x
    ensures StoredPrediction(p, s) == Num(if p.multiplicative then level * s.seasonal.x else level + s.seasonal.x)
  {
    var known := Add(s.intercept, Scale(s.nullCount as real, s.slope));
    assert known == Num(level);
    assert StoredPrediction(p, s) == Predict(p, s.intercept, s.slope, s.nullCount, s.seasonal);
    assert Mul(known, s.seasonal) == Num(level * s.seasonal.x);
  }

  /** In the first season there is no prediction and nothing is learned but the seasonal
      value, which together with the intercept makes up the observed value. */
  lemma FirstSeasonRound(p: Params, idx: Layout, s: State, observed: real, nextSeasonal: Value, nextDeviation: Value,
                         order: seq<Kind>)
    requires Sorted(idx, order) && s.intercept.Num? && s.slope.Num? && s.seasonal.NaN?
    ensures var r := Run(p, idx, s, Num(observed), nextSeasonal, nextDeviation, order);
            && r.prediction == r.deviationOut == NaN
            && r.intercept == s.intercept && r.slope == s.slope && r.nullCount == s.nullCount
            && (!p.multiplicative ==> r.seasonalOut.Num? && s.intercept.x + r.seasonalOut.x == observed)
            && (p.multiplicative && s.intercept.x > 0.0 ==>
                  r.seasonalOut.Num? && s.intercept.x * r.seasonalOut.x == observed)
            && (p.multiplicative && s.intercept.x <= 0.0 ==> r.seasonalOut == NaN)
  {
    RoundIs(p, idx, s, Num(observed), nextSeasonal, nextDeviation, order);
    if p.multiplicative && s.intercept.x > 0.0 {
      assert observed / s.intercept.x * s.intercept.x == observed;
    }
  }

  /** With MHWPREDICT a seasonal value of zero or less loses the coefficients. */
  lemma LosingRound(p: Params, idx: Layout, s: State, observed: real, nextSeasonal: Value, nextDeviation: Value,
                    order: seq<Kind>)
    requires Sorted(idx, order) && p.multiplicative
    requires s.intercept.Num? && s.slope.Num? && s.seasonal.Num? && s.seasonal.x <= 0.0
    ensures var r := Run(p, idx, s, Num(observed), nextSeasonal, nextDeviation, order);
            r.prediction.Num? && r.intercept == r.slope == r.seasonalOut == NaN && r.nullCount == 1
  {
    RoundIs(p, idx, s, Num(observed), nextSeasonal, nextDeviation, order);
    assert Intercept(p, Num(observed), s.seasonal, s.intercept, s.slope, s.nullCount) == NaN;
  }

  /** The first value becomes the intercept, with no slope and no prediction. */
  lemma StartingRound(p: Params, idx: Layout, s: State, observed: Value, nextSeasonal: Value, nextDeviation: Value,
                      order: seq<Kind>)
    requires Sorted(idx, order) && s.intercept.NaN?
    ensures var r := Run(p, idx, s, observed, nextSeasonal, nextDeviation, order);
            && r.prediction == NaN
            && (observed.Num? ==> r.intercept == observed && r.slope == Num(0.0) && r.nullCount == 1)
            && (observed.NaN? ==> r.intercept == s.intercept && r.slope == s.slope && r.nullCount == s.nullCount)
            && (observed.NaN? ==> r.seasonalOut == s.seasonal && r.deviationOut == NaN)
  {
    RoundIs(p, idx, s, observed, nextSeasonal, nextDeviation, order);
  }

  ghost predicate Distinct(idx: Layout) {
    forall a, b :: a != b ==> Before(idx, a, b) || Before(idx, b, a)
  }

  /** FAILURES finds the deviation from before the step in every state exactly if
      SEASONAL and DEVSEASONAL stand on the same side of it. */
  lemma FailuresFindsDeviation(idx: Layout)
    requires Distinct(idx)
    ensures (forall s, next :: DeviationSeen(idx, s, next) == s.deviation)
            <==> (Before(idx, Failures, Seasonal) <==> Before(idx, Failures, DevSeasonal))
  {
    var s := State(NaN, NaN, NaN, NaN, 1, 1, NaN, NaN, Num(0.0), Num(1.0), NaN, NaN, NaN, NaN, false);
    assert DeviationSeen(idx, s, Num(1.0)) == s.deviation
      <==> (Before(idx, Failures, Seasonal) <==> Before(idx, Failures, DevSeasonal));
  }

  /** Then the violation test compares the observed value with the prediction that
      HWPREDICT stores and with the deviation that DEVPREDICT stores. */
  lemma ViolationAgainstPrediction(p: Params, idx: Layout, s: State, observed: Value, nextSeasonal: Value,
                                   nextDeviation: Value, order: seq<Kind>)
    requires Sorted(idx, order) && Distinct(idx)
    requires Before(idx, Failures, Seasonal) <==> Before(idx, Failures, DevSeasonal)
    requires s.intercept.Num? && s.slope.Num? && s.seasonal.Num?
    ensures var r := Run(p, idx, s, observed, nextSeasonal, nextDeviation, order);
            r.prediction.Num? && (r.violation <==> IsViolation(p, r.prediction.x, observed, r.devPredictOut))
  {
    FailuresFindsDeviation(idx);
    RoundIs(p, idx, s, observed, nextSeasonal, nextDeviation, order);
    TestIsViolation(p, BasisOf(s, observed, Before(idx, Hw, Failures)), observed, s.deviation);
  }

  /** The observed value is missing or outside the band around the prediction. */
  predicate IsViolation(p: Params, prediction: real, observed: Value, deviation: Value) {
    && deviation.Num?
    && (|| observed.NaN?
        || observed.x > prediction + p.deltaPos * deviation.x
        || observed.x < prediction - p.deltaNeg * deviation.x)
  }

  lemma TestIsViolation(p: Params, b: Basis, observed: Value, deviation: Value)
    requires Usable(b)
    ensures PredictFrom(p, b).Num?
    ensures ViolationFrom(p, b, observed, deviation) <==> IsViolation(p, PredictFrom(p, b).x, observed, deviation)
  {
  }

  // ----- many rounds

  /** What a round is given: the value, and the seasonal value and deviation that
      stand in the archives for the next round. */
  datatype Input = Input(observed: Value, nextSeasonal: Value, nextDeviation: Value)

  function Rounds(p: Params, idx: Layout, order: seq<Kind>, s: State, inputs: seq<Input>): State {
    if inputs == [] then s
    else
      var n := |inputs| - 1;
      var i := inputs[n];
      Run(p, idx, Rounds(p, idx, order, s, inputs[..n]), i.observed, i.nextSeasonal, i.nextDeviation, order)
  }

  /** A seasonal value with which the formulas give known coefficients, if at all. */
  predicate Harmless(p: Params, seasonal: Value) {
    p.multiplicative ==> !AtMostZero(seasonal)
  }

  lemma StaysKnown(p: Params, idx: Layout, s: State, i: Input, order: seq<Kind>)
    requires Sorted(idx, order) && s.intercept.Num? && s.slope.Num? && Harmless(p, s.seasonal)
    ensures var r := Run(p, idx, s, i.observed, i.nextSeasonal, i.nextDeviation, order);
            r.intercept.Num? && r.slope.Num? && r.seasonal == i.nextSeasonal
  {
    RoundIs(p, idx, s, i.observed, i.nextSeasonal, i.nextDeviation, order);
  }

  lemma ViolationNotUsed(p: Params, idx: Layout, s: State, v: bool, i: Input, order: seq<Kind>)
    requires Sorted(idx, order)
    ensures Run(p, idx, s.(violation := v), i.observed, i.nextSeasonal, i.nextDeviation, order)
         == Run(p, idx, s, i.observed, i.nextSeasonal, i.nextDeviation, order)
  {
    RoundIs(p, idx, s, i.observed, i.nextSeasonal, i.nextDeviation, order);
    RoundIs(p, idx, s.(violation := v), i.observed, i.nextSeasonal, i.nextDeviation, order);
  }

  /** Once intercept and slope are known, files whose archives stand in different
      orders hold the same coefficients, predictions, seasonal values and deviations
      after any number of rounds; with MHWPREDICT as long as no seasonal value is
      zero or negative. */
  lemma {:induction false} RoundsOrderIndependent(p: Params, s: State, inputs: seq<Input>,
      idx: Layout, order: seq<Kind>, idx': Layout, order': seq<Kind>)
    requires Sorted(idx, order) && Sorted(idx', order')
    requires s.intercept.Num? && s.slope.Num?
    requires Harmless(p, s.seasonal) && forall i :: 0 <= i < |inputs| ==> Harmless(p, inputs[i].nextSeasonal)
    ensures Rounds(p, idx, order, s, inputs).(violation := false)
         == Rounds(p, idx', order', s, inputs).(violation := false)
    ensures var r := Rounds(p, idx, order, s, inputs);
            r.intercept.Num? && r.slope.Num? && Harmless(p, r.seasonal)
  {
    if inputs != [] {
      var n := |inputs| - 1;
      var i := inputs[n];
      RoundsOrderIndependent(p, s, inputs[..n], idx, order, idx', order');
      var a, b := Rounds(p, idx, order, s, inputs[..n]), Rounds(p, idx', order', s, inputs[..n]);
      StaysKnown(p, idx, a, i, order);
      OrderIndependent(p, a, i.observed, i.nextSeasonal, i.nextDeviation, idx, order, idx', order');
      ViolationNotUsed(p, idx', a, b.violation, i, order');
      assert a.(violation := b.violation) == b;
    }
  }

  // ----- instances

  /** The scratch areas of a new file. */
  function Fresh(): State {
    State(NaN, NaN, NaN, NaN, 1, 1, NaN, NaN, NaN, NaN, NaN, NaN, NaN, NaN, false)
  }

  const HW_FIRST: Layout := (k: Kind) =>
    match k
    case Hw => 0
    case Seasonal => 1
    case DevSeasonal => 2
    case DevPredict => 3
    case Failures => 4

  const HW_FIRST_ORDER: seq<Kind> := [Hw, Seasonal, DevSeasonal, DevPredict, Failures]

  const HW_LAST: Layout := (k: Kind) =>
    match k
    case Seasonal => 0
    case DevSeasonal => 1
    case DevPredict => 2
    case Failures => 3
    case Hw => 4

  const HW_LAST_ORDER: seq<Kind> := [Seasonal, DevSeasonal, DevPredict, Failures, Hw]

  lemma HwFirstInOrder()
    ensures Sorted(HW_FIRST, HW_FIRST_ORDER)
  {
    assert HW_FIRST_ORDER[0] == Hw && HW_FIRST_ORDER[1] == Seasonal && HW_FIRST_ORDER[2] == DevSeasonal;
    assert HW_FIRST_ORDER[3] == DevPredict && HW_FIRST_ORDER[4] == Failures;
    ByIndex(HW_FIRST, HW_FIRST_ORDER);
  }

  lemma HwLastInOrder()
    ensures Sorted(HW_LAST, HW_LAST_ORDER)
  {
    assert HW_LAST_ORDER[0] == Seasonal && HW_LAST_ORDER[1] == DevSeasonal && HW_LAST_ORDER[2] == DevPredict;
    assert HW_LAST_ORDER[3] == Failures && HW_LAST_ORDER[4] == Hw;
    ByIndex(HW_LAST, HW_LAST_ORDER);
  }

  /** Archives that stand at the places of a list are in its order. */
  lemma ByIndex(idx: Layout, order: seq<Kind>)
    requires forall k: Kind :: idx(k) < |order| && order[idx(k)] == k
    requires forall n :: 0 <= n < |order| ==> idx(order[n]) == n
    ensures Sorted(idx, order)
  {
    forall k: Kind
      ensures k in order
    {
      assert order[idx(k)] == k;
    }
  }

  /** The first value of a new file with MHWPREDICT is zero: with HWPREDICT in front
      an unknown seasonal value is stored, with HWPREDICT at the end it is 1. */
  lemma SeasonalOrderInstance(p: Params)
    requires p.multiplicative
    ensures Run(p, HW_FIRST, Fresh(), Num(0.0), NaN, NaN, HW_FIRST_ORDER).seasonalOut == NaN
    ensures Run(p, HW_LAST, Fresh(), Num(0.0), NaN, NaN, HW_LAST_ORDER).seasonalOut == Num(1.0)
  {
    HwFirstInOrder();
    HwLastInOrder();
    RoundIs(p, HW_FIRST, Fresh(), Num(0.0), NaN, NaN, HW_FIRST_ORDER);
    RoundIs(p, HW_LAST, Fresh(), Num(0.0), NaN, NaN, HW_LAST_ORDER);
  }

  /** A new file with MHWPREDICT and a season of two rows gets the values 1, 0, none
      and 0. The inputs of each round are what the rounds before stored. */
  function TwoSeasons(): seq<Input> {
    [Input(Num(1.0), NaN, NaN), Input(Num(0.0), Num(1.0), NaN),
     Input(NaN, Num(0.0), NaN), Input(Num(0.0), Num(1.0), NaN)]
  }

  /** After that HWPREDICT starts over: with HWPREDICT in front a deviation is
      stored, with HWPREDICT at the end it is unknown. */
  lemma DeviationOrderInstance(p: Params)
    requires p.multiplicative
    ensures var s := TwoSeasonsTo(p, 4);
            && Run(p, HW_FIRST, s, Num(1.0), NaN, NaN, HW_FIRST_ORDER).deviationOut == Num(0.0)
            && Run(p, HW_LAST, s, Num(1.0), NaN, NaN, HW_LAST_ORDER).deviationOut == NaN
  {
    HwFirstInOrder();
    HwLastInOrder();
    var s := TwoSeasonsTo(p, 4);
    AfterTwoSeasons(p);
    StartsOver(p, HW_FIRST, HW_FIRST_ORDER, s);
    StartsOver(p, HW_LAST, HW_LAST_ORDER, s);
  }

  lemma StartsOver(p: Params, idx: Layout, order: seq<Kind>, s: State)
    requires p.multiplicative && Sorted(idx, order) && s.intercept == NaN && s.seasonal == Num(1.0)
    requires s.deviation == NaN
    ensures var r := Run(p, idx, s, Num(1.0), NaN, NaN, order);
            r.deviationOut == if Before(idx, Hw, DevSeasonal) then Num(0.0) else NaN
  {
    RoundIs(p, idx, s, Num(1.0), NaN, NaN, order);
  }

  /** The state after the first n of these rounds, with HWPREDICT in front. */
  function TwoSeasonsTo(p: Params, n: nat): State
    requires n <= 4
  {
    Rounds(p, HW_FIRST, HW_FIRST_ORDER, Fresh(), TwoSeasons()[..n])
  }

  lemma NextOfTwoSeasons(p: Params, n: nat)
    requires n < 4
    ensures var s, r, i := TwoSeasonsTo(p, n), TwoSeasonsTo(p, n + 1), TwoSeasons()[n];
            && r.intercept == NewIntercept(p, s, i.observed) && r.slope == NewSlope(p, s, i.observed)
            && r.seasonal == i.nextSeasonal && r.deviation == i.nextDeviation
            && r.seasonalOut == StoredSeasonal(p, s, i.observed, true)
            && r.deviationOut == StoredDeviation(p, s, i.observed, true)
  {
    var inputs := TwoSeasons();
    var i := inputs[n];
    assert inputs[..n + 1][..n] == inputs[..n];
    HwFirstInOrder();
    RoundIs(p, HW_FIRST, TwoSeasonsTo(p, n), i.observed, i.nextSeasonal, i.nextDeviation, HW_FIRST_ORDER);
  }

  predicate Midway(s: State, seasonal: Value, seasonalOut: Value) {
    && s.intercept == Num(1.0) && s.slope == Num(0.0) && s.seasonal == seasonal && s.seasonalOut == seasonalOut
    && s.deviation == NaN && s.deviationOut == NaN
  }

  lemma FirstOfTwoSeasons(p: Params)
    requires p.multiplicative
    ensures Midway(TwoSeasonsTo(p, 1), NaN, Num(1.0))
  {
    NextOfTwoSeasons(p, 0);
    assert TwoSeasonsTo(p, 0) == Fresh();
  }

  lemma SecondOfTwoSeasons(p: Params)
    requires p.multiplicative
    ensures Midway(TwoSeasonsTo(p, 2), Num(1.0), Num(0.0))
  {
    FirstOfTwoSeasons(p);
    NextOfTwoSeasons(p, 1);
  }

  lemma ThirdOfTwoSeasons(p: Params)
    requires p.multiplicative
    ensures Midway(TwoSeasonsTo(p, 3), Num(0.0), Num(1.0))
  {
    SecondOfTwoSeasons(p);
    NextOfTwoSeasons(p, 2);
  }

  lemma AfterTwoSeasons(p: Params)
    requires p.multiplicative
    ensures var s := TwoSeasonsTo(p, 4);
            s.intercept == NaN && s.seasonal == Num(1.0) && s.deviation == NaN
  {
    ThirdOfTwoSeasons(p);
    NextOfTwoSeasons(p, 3);
  }

  /** What the rounds find in the rows is what the rounds before have stored there. */
  lemma TwoSeasonsStored(p: Params, n: nat)
    requires p.multiplicative && 0 < n < 4
    ensures TwoSeasons()[n].nextSeasonal == TwoSeasonsTo(p, n).seasonalOut
    ensures TwoSeasons()[n].nextDeviation == TwoSeasonsTo(p, n).deviationOut
  {
    FirstOfTwoSeasons(p);
    SecondOfTwoSeasons(p);
    ThirdOfTwoSeasons(p);
  }

  // ----- the scratch areas in place

  class Scratch {
    const p: Params
    const idx: Layout
    var intercept: Value
    var lastIntercept: Value
    var slope: Value
    var lastSlope: Value
    var nullCount: nat
    var lastNullCount: nat
    var seasonal: Value
    var lastSeasonal: Value
    var deviation: Value
    var lastDeviation: Value
    var hwOut: Value
    var seasonalOut: Value
    var deviationOut: Value
    var devPredictOut: Value
    var violation: bool

    /** init_hwpredict_cdp and init_seasonal_cdp. */
    constructor (p: Params, idx: Layout)
      ensures this.p == p && this.idx == idx
      ensures Contents() == Fresh()
    {
      this.p, this.idx := p, idx;
      intercept, lastIntercept, slope, lastSlope := NaN, NaN, NaN, NaN;
      nullCount, lastNullCount := 1, 1;
      seasonal, lastSeasonal, deviation, lastDeviation := NaN, NaN, NaN, NaN;
      hwOut, seasonalOut, deviationOut, devPredictOut, violation := NaN, NaN, NaN, NaN, false;
    }

    ghost function Contents(): State
      reads this
    {
      State(intercept, lastIntercept, slope, lastSlope, nullCount, lastNullCount,
            seasonal, lastSeasonal, deviation, lastDeviation,
            hwOut, seasonalOut, deviationOut, devPredictOut, violation)
    }

    /** init_slope_intercept. */
    method InitSlopeIntercept(observed: Value)
      modifies this
      ensures Contents() == old(Contents()).(intercept := observed, lastIntercept := observed, slope := Num(0.0),
                                             lastSlope := Num(0.0), nullCount := 1, lastNullCount := 1)
    {
      intercept, lastIntercept := observed, observed;
      slope, lastSlope := Num(0.0), Num(0.0);
      nullCount, lastNullCount := 1, 1;
    }

    /** The prediction; a known value moves the coefficients, a missing one is counted. */
    method Follow(observed: Value, seasonalCoef: Value) returns (forecast: Value)
      requires lastIntercept == intercept && lastSlope == slope && lastNullCount == nullCount
      modifies this
      ensures forecast == old(Predict(p, intercept, slope, nullCount, seasonalCoef))
      ensures Contents() == if observed.NaN? then old(Contents()).(nullCount := old(nullCount) + 1)
                            else old(var i := Intercept(p, observed, seasonalCoef, intercept, slope, nullCount);
                                     Contents().(intercept := i, slope := Slope(p, i, intercept, slope),
                                                 nullCount := 1))
    {
      forecast := Predict(p, intercept, slope, nullCount, seasonalCoef);
      if observed.NaN? {
        nullCount := nullCount + 1;
      } else {
        intercept := Intercept(p, observed, seasonalCoef, intercept, slope, nullCount);
        slope := Slope(p, intercept, lastIntercept, slope);
        nullCount := 1;
      }
    }

    method UpdateHwPredict(observed: Value)
      modifies this
      ensures Contents() == HwStep(p, idx, old(Contents()), observed)
    {
      lastIntercept, lastSlope, lastNullCount := intercept, slope, nullCount;
      var seasonalCoef := if idx(Seasonal) < idx(Hw) then lastSeasonal else seasonal;
      var forecast := NaN;
      if intercept.NaN? || slope.NaN? || seasonalCoef.NaN? {
        if intercept.NaN? && !observed.NaN? {
          InitSlopeIntercept(observed);
        }
      } else {
        forecast := Follow(observed, seasonalCoef);
      }
      hwOut := forecast;
    }

    method UpdateSeasonal(observed: Value, next: Value)
      modifies this
      ensures Contents() == SeasonalStep(p, idx, old(Contents()), observed, next)
    {
      var current := seasonal;
      lastSeasonal := current;
      seasonal := next;
      if observed.NaN? {
        seasonalOut := current;
        return;
      }
      if idx(Hw) < idx(Seasonal) {
        if lastIntercept.NaN? || lastSlope.NaN? {
          seasonalOut := NaN;
        } else if current.NaN? {
          seasonalOut := InitSeasonality(p, observed, lastIntercept);
        } else {
          seasonalOut := Seasonality(p, observed, intercept, current);
        }
      } else {
        if intercept.NaN? || slope.NaN? {
          seasonalOut := Identity(p);
        } else if current.NaN? {
          seasonalOut := InitSeasonality(p, observed, intercept);
        } else {
          var newIntercept := Intercept(p, observed, current, intercept, slope, nullCount);
          seasonalOut := Seasonality(p, observed, newIntercept, current);
        }
      }
    }

    method UpdateDevSeasonal(observed: Value, next: Value)
      modifies this
      ensures Contents() == DevSeasonalStep(p, idx, old(Contents()), observed, next)
    {
      lastDeviation := deviation;
      deviation := next;
      var seasonalCoef := if idx(Seasonal) < idx(DevSeasonal) then lastSeasonal else seasonal;
      var forecast: Value;
      if idx(Hw) < idx(DevSeasonal) {
        if lastIntercept.NaN? || lastSlope.NaN? || seasonalCoef.NaN? {
          deviationOut := NaN;
          return;
        }
        forecast := Predict(p, lastIntercept, lastSlope, lastNullCount, seasonalCoef);
      } else {
        if intercept.NaN? || slope.NaN? || seasonalCoef.NaN? {
          deviationOut := NaN;
          return;
        }
        forecast := Predict(p, intercept, slope, nullCount, seasonalCoef);
      }
      if observed.NaN? {
        deviationOut := lastDeviation;
      } else if lastDeviation.NaN? {
        deviationOut := InitDeviation(forecast, observed);
      } else {
        deviationOut := Deviation(p, forecast, observed, lastDeviation);
      }
    }

    method UpdateDevPredict()
      modifies this
      ensures Contents() == DevPredictStep(idx, old(Contents()))
    {
      if idx(DevSeasonal) < idx(DevPredict) {
        devPredictOut := lastDeviation;
      } else {
        devPredictOut := deviation;
      }
    }

    /** The violation test of update_failures. */
    method TestViolation(observed: Value)
      requires idx(Failures) != idx(Seasonal) && idx(Failures) != idx(Hw)
      modifies this
      ensures Contents() == FailuresStep(p, idx, old(Contents()), observed)
    {
      violation := false;
      var dev := if idx(Failures) < idx(Seasonal) then deviation else lastDeviation;
      if !dev.NaN? {
        var seasonalCoef := if idx(Failures) < idx(Seasonal) then seasonal else lastSeasonal;
        var forecast := if idx(Failures) < idx(Hw)
                        then Predict(p, intercept, slope, nullCount, seasonalCoef)
                        else Predict(p, lastIntercept, lastSlope, lastNullCount, seasonalCoef);
        if observed.NaN? {
          violation := true;
        } else {
          violation := Violates(p, observed, forecast, dev);
        }
      }
    }

    /** A round: every archive in turn. */
    method Update(observed: Value, nextSeasonal: Value, nextDeviation: Value, order: seq<Kind>)
      requires Sorted(idx, order) && Distinct(idx)
      modifies this
      ensures Contents() == Run(p, idx, old(Contents()), observed, nextSeasonal, nextDeviation, order)
    {
      assert order[..0] == [];
      for i := 0 to |order|
        invariant Contents() == Run(p, idx, old(Contents()), observed, nextSeasonal, nextDeviation, order[..i])
      {
        assert order[..i + 1][..i] == order[..i];
        assert Before(idx, Failures, Seasonal) || Before(idx, Seasonal, Failures);
        assert Before(idx, Failures, Hw) || Before(idx, Hw, Failures);
        match order[i]
        case Hw => UpdateHwPredict(observed);
        case Seasonal => UpdateSeasonal(observed, nextSeasonal);
        case DevSeasonal => UpdateDevSeasonal(observed, nextDeviation);
        case DevPredict => UpdateDevPredict();
        case Failures => TestViolation(observed);
      }
      assert order[..|order|] == order;
    }
  }
}
