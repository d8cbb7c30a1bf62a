/** Holt-Winters rounds closed through the file: the seasonal values and deviations
    that a round finds are those that earlier rounds stored in the rings of SEASONAL
    and DEVSEASONAL. */
module SeasonalFile {
  import opened Archive
  import opened Arithmetic
  import opened HoltWinters

  /** The rows of one data source, and the row written last. */
  datatype Ring = Ring(rows: seq<Value>, cur: nat)

  /** The scratch areas, and the rings of SEASONAL and DEVSEASONAL. */
  datatype File = File(areas: State, season: Ring, deviations: Ring)

  predicate Placed(r: Ring) {
    r.cur < |r.rows|
  }

  predicate Sound(f: File) {
    Placed(f.season) && Placed(f.deviations)
  }

  /** lookup_seasonal for the round that writes the next row: the row behind it, as
      it is before this round is written. */
  function Ahead(r: Ring): Value
    requires Placed(r)
  {
    r.rows[if r.cur + 2 >= |r.rows| then (r.cur + 2) % |r.rows| else r.cur + 2]
  }

  /** The row pointer moves on, around the end, and the value is written there. */
  function Store(r: Ring, v: Value): (s: Ring)
    requires Placed(r)
    ensures Placed(s) && |s.rows| == |r.rows|
  {
    var cur := if r.cur + 1 >= |r.rows| then 0 else r.cur + 1;
    Ring(r.rows[cur := v], cur)
  }

  /** One value for the file. */
  function Round(p: Params, idx: Layout, order: seq<Kind>, f: File, observed: Value): (g: File)
    requires Sound(f)
    ensures Sound(g)
  {
    var s := Run(p, idx, f.areas, observed, Ahead(f.season), Ahead(f.deviations), order);
    File(s, Store(f.season, s.seasonalOut), Store(f.deviations, s.deviationOut))
  }

  function AfterAll(p: Params, idx: Layout, order: seq<Kind>, f: File, values: seq<Value>): (g: File)
    requires Sound(f)
    ensures Sound(g)
  {
    if values == [] then f
    else
      var n := |values| - 1;
      Round(p, idx, order, AfterAll(p, idx, order, f, values[..n]), values[n])
  }

  /** Two files that agree up to the violation test. */
  predicate Alike(f: File, g: File) {
    f.(areas := f.areas.(violation := false)) == g.(areas := g.areas.(violation := false))
  }

  // ----- one round

  /** The order of the archives does not decide what a round stores. */
  predicate OrderFree(p: Params, s: State, observed: Value) {
    || observed.NaN? || (s.intercept.Num? && s.slope.Num?)
    || (s.intercept.NaN? && s.seasonal.NaN? && (p.multiplicative ==> observed.x > 0.0))
  }

  /** Then two orders give the same state, up to the violation test. */
  lemma RoundFree(p: Params, s: State, observed: Value, nextSeasonal: Value, nextDeviation: Value,
                  idx: Layout, order: seq<Kind>, idx': Layout, order': seq<Kind>)
    requires Sorted(idx, order) && Sorted(idx', order') && OrderFree(p, s, observed)
    ensures Run(p, idx, s, observed, nextSeasonal, nextDeviation, order).(violation := false)
         == Run(p, idx', s, observed, nextSeasonal, nextDeviation, order').(violation := false)
  {
    RoundIs(p, idx, s, observed, nextSeasonal, nextDeviation, order);
    RoundIs(p, idx', s, observed, nextSeasonal, nextDeviation, order');
    SeasonalByPlace(p, s, observed);
    DeviationByPlace(p, s, observed);
  }

  /** And only then, if the two orders have HWPREDICT on different sides of both. */
  lemma RoundFreeOnlyThen(p: Params, s: State, observed: Value, nextSeasonal: Value, nextDeviation: Value,
                          idx: Layout, order: seq<Kind>, idx': Layout, order': seq<Kind>)
    requires Sorted(idx, order) && Sorted(idx', order') && !OrderFree(p, s, observed)
    requires Before(idx, Hw, Seasonal) != Before(idx', Hw, Seasonal)
    requires Before(idx, Hw, DevSeasonal) != Before(idx', Hw, DevSeasonal)
    ensures var r := Run(p, idx, s, observed, nextSeasonal, nextDeviation, order);
            var r' := Run(p, idx', s, observed, nextSeasonal, nextDeviation, order');
            r.seasonalOut != r'.seasonalOut || r.deviationOut != r'.deviationOut
  {
    SeasonalOrderMatters(p, s, observed, nextSeasonal, nextDeviation, idx, order, idx', order');
    DeviationOrderMatters(p, s, observed, nextSeasonal, nextDeviation, idx, order, idx', order');
  }

  lemma AlikeAfterRound(p: Params, f: File, g: File, observed: Value,
                        idx: Layout, order: seq<Kind>, idx': Layout, order': seq<Kind>)
    requires Sorted(idx, order) && Sorted(idx', order') && Sound(f) && Sound(g)
    requires Alike(f, g) && OrderFree(p, f.areas, observed)
    ensures Alike(Round(p, idx, order, f, observed), Round(p, idx', order', g, observed))
  {
    var i := Input(observed, Ahead(f.season), Ahead(f.deviations));
    RoundFree(p, f.areas, observed, i.nextSeasonal, i.nextDeviation, idx, order, idx', order');
    ViolationNotUsed(p, idx', f.areas, g.areas.violation, i, order');
    assert f.areas.(violation := g.areas.violation) == g.areas;
  }

  // ----- what a round finds

  /** The row that is overwritten next. */
  function Oldest(r: Ring): nat
    requires Placed(r)
    ensures Oldest(r) < |r.rows| && Oldest(r) == (r.cur + 1) % |r.rows|
  {
    Wrap(r.cur + 1, |r.rows|);
    if r.cur + 1 < |r.rows| then r.cur + 1 else 0
  }

  /** What is read ahead is the row that the round after this one overwrites. */
  lemma AheadIsOldest(r: Ring, v: Value)
    requires Placed(r) && |r.rows| >= 2
    ensures Store(r, v).rows[Oldest(Store(r, v))] == Ahead(r)
  {
    Wrap(r.cur + 2, |r.rows|);
    if r.cur + 2 >= |r.rows| {
      assert (r.cur + 2) % |r.rows| == r.cur + 2 - |r.rows|;
    }
  }

  /** After every round the scratch areas hold the seasonal value and the deviation of
      the rows that the next round overwrites. */
  lemma RoundReadsAhead(p: Params, idx: Layout, order: seq<Kind>, f: File, observed: Value)
    requires Sorted(idx, order) && Sound(f) && |f.season.rows| >= 2 && |f.deviations.rows| >= 2
    ensures var g := Round(p, idx, order, f, observed);
            && g.areas.seasonal == g.season.rows[(g.season.cur + 1) % |g.season.rows|]
            && g.areas.deviation == g.deviations.rows[(g.deviations.cur + 1) % |g.deviations.rows|]
            && |g.season.rows| == |f.season.rows| && |g.deviations.rows| == |f.deviations.rows|
  {
    var s := Run(p, idx, f.areas, observed, Ahead(f.season), Ahead(f.deviations), order);
    RoundIs(p, idx, f.areas, observed, Ahead(f.season), Ahead(f.deviations), order);
    AheadIsOldest(f.season, s.seasonalOut);
    AheadIsOldest(f.deviations, s.deviationOut);
  }

  /** The row written j rounds ago. */
  function Back(r: Ring, j: nat): (i: nat)
    requires Placed(r) && j < |r.rows|
    ensures i < |r.rows|
  {
    if j <= r.cur then r.cur - j else r.cur - j + |r.rows|
  }

  /** The ring holds the last values written to it. */
  ghost predicate Recent(r: Ring, written: seq<Value>) {
    Placed(r) && forall j {:trigger Back(r, j)} :: 0 <= j < |r.rows| && j < |written| ==>
      r.rows[Back(r, j)] == written[|written| - 1 - j]
  }

  lemma StoreRecent(r: Ring, written: seq<Value>, v: Value)
    requires Recent(r, written)
    ensures Recent(Store(r, v), written + [v])
  {
    var s, more := Store(r, v), written + [v];
    forall j {:trigger Back(s, j)} | 0 <= j < |s.rows| && j < |more|
      ensures s.rows[Back(s, j)] == more[|more| - 1 - j]
    {
      if j > 0 {
        assert Back(s, j) == Back(r, j - 1);
      }
    }
  }

  /** What the rounds stored, first round first. */
  function SeasonalsOut(p: Params, idx: Layout, order: seq<Kind>, f: File, values: seq<Value>): (r: seq<Value>)
    requires Sound(f)
    ensures |r| == |values|
  {
    if values == [] then []
    else
      SeasonalsOut(p, idx, order, f, values[..|values| - 1])
      + [AfterAll(p, idx, order, f, values).areas.seasonalOut]
  }

  function DeviationsOut(p: Params, idx: Layout, order: seq<Kind>, f: File, values: seq<Value>): (r: seq<Value>)
    requires Sound(f)
    ensures |r| == |values|
  {
    if values == [] then []
    else
      DeviationsOut(p, idx, order, f, values[..|values| - 1])
      + [AfterAll(p, idx, order, f, values).areas.deviationOut]
  }

  lemma {:induction false} RingsRecent(p: Params, idx: Layout, order: seq<Kind>, f: File, values: seq<Value>)
    requires Sound(f)
    ensures var g := AfterAll(p, idx, order, f, values);
            && |g.season.rows| == |f.season.rows| && |g.deviations.rows| == |f.deviations.rows|
            && Recent(g.season, SeasonalsOut(p, idx, order, f, values))
            && Recent(g.deviations, DeviationsOut(p, idx, order, f, values))
  {
    if values != [] {
      var n := |values| - 1;
      var g := AfterAll(p, idx, order, f, values[..n]);
      var s := AfterAll(p, idx, order, f, values).areas;
      RingsRecent(p, idx, order, f, values[..n]);
      StoreRecent(g.season, SeasonalsOut(p, idx, order, f, values[..n]), s.seasonalOut);
      StoreRecent(g.deviations, DeviationsOut(p, idx, order, f, values[..n]), s.deviationOut);
    }
  }

  /** The law of the season: with rings of n rows, the seasonal value and the deviation
      that stand ready for a round are those that were stored n rounds before it. */
  lemma OneSeasonAgo(p: Params, idx: Layout, order: seq<Kind>, f: File, values: seq<Value>, k: nat)
    requires Sorted(idx, order) && Sound(f)
    requires |f.season.rows| == |f.deviations.rows| >= 2 && |values| == k + |f.season.rows|
    ensures var g := AfterAll(p, idx, order, f, values);
            && g.areas.seasonal == SeasonalsOut(p, idx, order, f, values)[k]
            && g.areas.deviation == DeviationsOut(p, idx, order, f, values)[k]
  {
    var n := |f.season.rows|;
    var g, before := AfterAll(p, idx, order, f, values), AfterAll(p, idx, order, f, values[..|values| - 1]);
    RingsRecent(p, idx, order, f, values);
    RingsRecent(p, idx, order, f, values[..|values| - 1]);
    RoundReadsAhead(p, idx, order, before, values[|values| - 1]);
    assert Oldest(g.season) == Back(g.season, n - 1) && Oldest(g.deviations) == Back(g.deviations, n - 1);
  }

  /** And these are what round k stored. */
  lemma {:induction false} StoredInRound(p: Params, idx: Layout, order: seq<Kind>, f: File, values: seq<Value>, k: nat)
    requires Sound(f) && k < |values|
    ensures var g := AfterAll(p, idx, order, f, values[..k + 1]).areas;
            && SeasonalsOut(p, idx, order, f, values)[k] == g.seasonalOut
            && DeviationsOut(p, idx, order, f, values)[k] == g.deviationOut
    decreases |values|
  {
    var n := |values| - 1;
    if k < n {
      StoredInRound(p, idx, order, f, values[..n], k);
      assert values[..n][..k + 1] == values[..k + 1];
    } else {
      assert values[..k + 1] == values;
    }
  }

  // ----- all rounds

  /** No round depends on the order. */
  predicate AllFree(p: Params, idx: Layout, order: seq<Kind>, f: File, values: seq<Value>)
    requires Sound(f)
  {
    values != [] ==>
      var n := |values| - 1;
      && AllFree(p, idx, order, f, values[..n])
      && OrderFree(p, AfterAll(p, idx, order, f, values[..n]).areas, values[n])
  }

  /** Files whose archives stand in different orders hold the same coefficients,
      seasonal values and deviations after any values, as long as no round of one of
      them depends on the order. */
  lemma {:induction false} FilesAlike(p: Params, f: File, values: seq<Value>,
                                      idx: Layout, order: seq<Kind>, idx': Layout, order': seq<Kind>)
    requires Sorted(idx, order) && Sorted(idx', order') && Sound(f)
    requires AllFree(p, idx, order, f, values)
    ensures Alike(AfterAll(p, idx, order, f, values), AfterAll(p, idx', order', f, values))
  {
    if values != [] {
      var n := |values| - 1;
      var part := values[..n];
      FilesAlike(p, f, part, idx, order, idx', order');
      AlikeAfterRound(p, AfterAll(p, idx, order, f, part), AfterAll(p, idx', order', f, part), values[n],
                      idx, order, idx', order');
    }
  }

  predicate AllUnknown(rows: seq<Value>) {
    forall i :: 0 <= i < |rows| ==> rows[i].NaN?
  }

  /** Intercept and slope are known, or nothing of the season is. */
  predicate Ready(f: File) {
    || (f.areas.intercept.Num? && f.areas.slope.Num?)
    || (f.areas.intercept.NaN? && f.areas.seasonal.NaN? && AllUnknown(f.season.rows))
  }

  lemma StaysReady(p: Params, idx: Layout, order: seq<Kind>, f: File, observed: Value)
    requires !p.multiplicative && Sorted(idx, order) && Sound(f) && Ready(f)
    ensures Ready(Round(p, idx, order, f, observed))
  {
    var next, nextDeviation := Ahead(f.season), Ahead(f.deviations);
    RoundIs(p, idx, f.areas, observed, next, nextDeviation, order);
  }

  lemma {:induction false} AlwaysReady(p: Params, idx: Layout, order: seq<Kind>, f: File, values: seq<Value>)
    requires !p.multiplicative && Sorted(idx, order) && Sound(f) && Ready(f)
    ensures Ready(AfterAll(p, idx, order, f, values)) && AllFree(p, idx, order, f, values)
  {
    if values != [] {
      var n := |values| - 1;
      AlwaysReady(p, idx, order, f, values[..n]);
      StaysReady(p, idx, order, AfterAll(p, idx, order, f, values[..n]), values[n]);
    }
  }

  /** A new file: nothing is known; the row pointers stand anywhere. */
  predicate IsNew(f: File) {
    Sound(f) && f.areas == Fresh() && AllUnknown(f.season.rows) && AllUnknown(f.deviations.rows)
  }

  /** With HWPREDICT the order of the archives never matters: from a new file on, any
      values give the same coefficients, predictions, seasonal rings and deviations. */
  lemma NewFilesAlike(p: Params, f: File, values: seq<Value>,
                      idx: Layout, order: seq<Kind>, idx': Layout, order': seq<Kind>)
    requires !p.multiplicative && Sorted(idx, order) && Sorted(idx', order') && IsNew(f)
    ensures Alike(AfterAll(p, idx, order, f, values), AfterAll(p, idx', order', f, values))
  {
    AlwaysReady(p, idx, order, f, values);
    FilesAlike(p, f, values, idx, order, idx', order');
  }
}
