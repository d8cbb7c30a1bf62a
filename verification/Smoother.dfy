/** apply_smoother for one data source: a moving average over a season, kept in a
    queue while the season is overwritten. */
module Smoother {
  import opened Archive
  import opened Arithmetic
  import HW = HoltWinters

  // ----- sums

  lemma SumPush(xs: seq<real>, x: real)
    ensures Sum(xs + [x]) == Sum(xs) + x
  {
    assert (xs + [x])[..|xs|] == xs;
  }

  lemma {:induction false} SumPop(xs: seq<real>)
    requires xs != []
    ensures Sum(xs) == xs[0] + Sum(xs[1..])
  {
    var n := |xs| - 1;
    if n > 0 {
      SumPop(xs[..n]);
      assert xs[..n][1..] == xs[1..][..n - 1];
    } else {
      assert xs[1..] == [] && xs[..0] == [];
    }
  }

  // ----- indices

  /** MyMod. */
  function MyMod(val: int, mod: nat): nat
    requires mod > 0
  {
    if val < 0 then mod - (-val) % mod else val % mod
  }

  /** It is the index on the ring, except for negative multiples of the modulus:
      for these it is one behind the last index. */
  lemma MyModIsIndex(val: int, mod: nat)
    requires mod > 0
    ensures MyMod(val, mod) == val % mod <==> !(val < 0 && val % mod == 0)
    ensures val < 0 && val % mod == 0 ==> MyMod(val, mod) == mod
  {
    if val < 0 {
      var q, r := (-val) / mod, (-val) % mod;
      assert -val == q * mod + r;
      MulDiff(-q, 1, mod);
      MulDiff(0, q, mod);
      if r == 0 {
        Quotient(val, mod, -q, 0);
      } else {
        Quotient(val, mod, -q - 1, mod - r);
      }
    }
  }

  lemma MyModNear(val: int, mod: nat)
    requires mod > 0 && -(mod as int) < val < 2 * mod
    ensures MyMod(val, mod) == if val < 0 then val + mod else if val < mod then val else val - mod
  {
    if val < 0 {
      Wrap(-val, mod);
    } else {
      Wrap(val, mod);
    }
  }

  // ----- the moving average

  /** The value found at a place on the ring: the season before it, this season,
      or the part of it that is smoothed already. */
  function Term(season: seq<real>, out: seq<real>, p: int): real
    requires -|season| <= p < |season| + |out|
  {
    if p < 0 then season[p + |season|] else if p < |season| then season[p] else out[p - |season|]
  }

  function Terms(season: seq<real>, out: seq<real>, lo: int, hi: int): (r: seq<real>)
    requires -|season| <= lo <= hi <= |season| + |out|
    ensures |r| == hi - lo
    decreases hi - lo
  {
    if hi == lo then [] else Terms(season, out, lo, hi - 1) + [Term(season, out, hi - 1)]
  }

  /** The mean of the 2w + 1 values around a place. */
  function Mean(season: seq<real>, out: seq<real>, w: nat, c: nat): real
    requires w <= |season| && c + w < |season| + |out|
  {
    Sum(Terms(season, out, c - w, c + w + 1)) / (2 * w + 1) as real
  }

  /** The first k smoothed values. */
  function Smoothed(season: seq<real>, w: nat, k: nat): (out: seq<real>)
    requires w < |season| && k <= |season|
    ensures |out| == k
  {
    if k == 0 then []
    else
      var out := Smoothed(season, w, k - 1);
      out + [Mean(season, out, w, k - 1)]
  }

  lemma {:induction false} TermsKept(season: seq<real>, out: seq<real>, more: seq<real>, lo: int, hi: int)
    requires -|season| <= lo <= hi <= |season| + |out|
    ensures Terms(season, out + more, lo, hi) == Terms(season, out, lo, hi)
    decreases hi - lo
  {
    if lo < hi {
      TermsKept(season, out, more, lo, hi - 1);
    }
  }

  lemma {:induction false} SmoothedPrefix(season: seq<real>, w: nat, k: nat, n: nat)
    requires w < |season| && k <= n <= |season|
    ensures Smoothed(season, w, n)[..k] == Smoothed(season, w, k)
  {
    if k < n {
      SmoothedPrefix(season, w, k, n - 1);
      assert Smoothed(season, w, n)[..k] == Smoothed(season, w, n - 1)[..k];
    } else {
      assert Smoothed(season, w, n)[..k] == Smoothed(season, w, n);
    }
  }

  /** Every smoothed value is the mean around its place: of values of the season,
      with smoothed values where the window runs past the end of the season. */
  lemma SmoothedAt(season: seq<real>, w: nat, c: nat)
    requires w < |season| && c < |season|
    ensures var out := Smoothed(season, w, |season|);
            out[c] == Sum(Terms(season, out, c - w, c + w + 1)) / (2 * w + 1) as real
  {
    var n := |season|;
    var out := Smoothed(season, w, n);
    SmoothedPrefix(season, w, c, n);
    SmoothedPrefix(season, w, c + 1, n);
    var before := Smoothed(season, w, c);
    assert out == before + out[c..];
    TermsKept(season, before, out[c..], c - w, c + w + 1);
    assert Terms(season, out, c - w, c + w + 1) == Terms(season, before, c - w, c + w + 1);
    assert out[c] == out[..c + 1][c] == Smoothed(season, w, c + 1)[c] == Mean(season, before, w, c);
  }

  /** The values around a place of the season, as they were, around its ends. */
  function Around(season: seq<real>, w: nat, c: nat): seq<real>
    requires season != []
  {
    seq(2 * w + 1, k requires 0 <= k < 2 * w + 1 => season[(c - w + k) % |season|])
  }

  lemma TermIsCircular(season: seq<real>, p: int)
    requires -|season| <= p < |season|
    ensures Term(season, [], p) == season[p % |season|]
  {
    if p < 0 {
      Quotient(p, |season|, -1, p + |season|);
    } else {
      Quotient(p, |season|, 0, p);
    }
  }

  lemma {:induction false} TermsAt(season: seq<real>, lo: int, hi: int, k: nat)
    requires -|season| <= lo <= hi <= |season| && k < hi - lo
    ensures Terms(season, [], lo, hi)[k] == season[(lo + k) % |season|]
    decreases hi - lo
  {
    if k < hi - 1 - lo {
      TermsAt(season, lo, hi - 1, k);
    } else {
      TermIsCircular(season, hi - 1);
    }
  }

  /** Where the window does not run past the end, the smoothed value is the mean of
      the values around the place, on the ring, as they were. */
  lemma SmoothedInside(season: seq<real>, w: nat, c: nat)
    requires c + w < |season|
    ensures Smoothed(season, w, |season|)[c] == Sum(Around(season, w, c)) / (2 * w + 1) as real
  {
    var out, lo, hi := Smoothed(season, w, |season|), c - w, c + w + 1;
    SmoothedAt(season, w, c);
    TermsKept(season, [], out, lo, hi);
    assert [] + out == out;
    var terms := Terms(season, [], lo, hi);
    forall k | 0 <= k < |terms|
      ensures terms[k] == Around(season, w, c)[k]
    {
      TermsAt(season, lo, hi, k);
    }
    assert terms == Around(season, w, c);
  }

  /** Behind that it is not: with a window of three, the last value of the season 0, 0
      and 3 becomes 4/3, and the mean of the values around it is 1. */
  lemma SmoothedBehind(season: seq<real>, w: nat)
    requires season == [0.0, 0.0, 3.0] && w == 1
    ensures Smoothed(season, w, |season|)[2] == 4.0 / 3.0
    ensures Sum(Around(season, w, 2)) / (2 * w + 1) as real == 1.0
  {
    var out := Smoothed(season, w, |season|);
    SmoothedAt(season, w, 0);
    TermsOfThree(season, out, -1);
    Three(season[2], season[0], season[1]);
    SmoothedAt(season, w, 2);
    TermsOfThree(season, out, 1);
    Three(season[1], season[2], out[0]);
    assert Around(season, w, 2) == [season[1], season[2], season[0]];
    Three(season[1], season[2], season[0]);
  }

  lemma Three(a: real, b: real, c: real)
    ensures Sum([a, b, c]) == a + b + c
  {
    assert [a, b, c][..2] == [a, b] && [a, b][..1] == [a] && [a][..0] == [];
    assert Sum([a]) == a && Sum([a, b]) == a + b;
  }

  lemma TermsOfThree(season: seq<real>, out: seq<real>, lo: int)
    requires -|season| <= lo && lo + 3 <= |season| + |out|
    ensures Terms(season, out, lo, lo + 3)
         == [Term(season, out, lo), Term(season, out, lo + 1), Term(season, out, lo + 2)]
  {
    assert Terms(season, out, lo, lo) == [];
    assert Terms(season, out, lo, lo + 1) == [Term(season, out, lo)];
    assert Terms(season, out, lo, lo + 2) == [Term(season, out, lo), Term(season, out, lo + 1)];
  }

  // ----- the queue

  class Fifo {
    const queue: array<real>
    const capacity: nat
    var head: nat
    var tail: nat
    ghost var contents: seq<real>

    /** queue_alloc. */
    constructor (capacity: nat)
      requires capacity > 0
      ensures Valid() && contents == [] && this.capacity == capacity && fresh(queue)
    {
      queue := new real[capacity];
      this.capacity := capacity;
      head, tail := capacity, 0;
      contents := [];
    }

    /** The cell of the i-th value behind `from`. */
    function Cell(from: nat, i: nat): int {
      if from + i < capacity then from + i else from + i - capacity
    }

    ghost predicate Valid()
      reads this, queue
    {
      && queue.Length == capacity > 0 && head <= capacity && tail < capacity && |contents| <= capacity
      && (tail == Cell(head, |contents|) || tail + capacity == Cell(head, |contents|))
      && forall i :: 0 <= i < |contents| ==> 0 <= Cell(head, i) < capacity && queue[Cell(head, i)] == contents[i]
    }

    method Push(value: real)
      requires Valid() && |contents| < capacity
      modifies this`tail, this`contents, queue
      ensures Valid() && contents == old(contents) + [value]
    {
      queue[tail] := value;
      tail := tail + 1;
      Wrap(tail, capacity);
      tail := tail % capacity;
      contents := contents + [value];
    }

    method Pop() returns (value: real)
      requires Valid() && contents != []
      modifies this`head, this`contents
      ensures Valid() && value == old(contents)[0] && contents == old(contents)[1..]
    {
      Wrap(head, capacity);
      assert queue[Cell(head, 0)] == contents[0];
      ghost var first, rest := head, contents[1..];
      head := head % capacity;
      value := queue[head];
      head := head + 1;
      forall i {:trigger rest[i]} | 0 <= i < |rest|
        ensures 0 <= Cell(head, i) < capacity && queue[Cell(head, i)] == rest[i]
      {
        assert queue[Cell(first, i + 1)] == contents[i + 1];
      }
      contents := rest;
    }
  }

  // ----- smoothing in place

  /** What the array holds when the first values are smoothed. */
  ghost predicate Partly(values: array<real>, season: seq<real>, out: seq<real>)
    reads values
  {
    && values.Length == |season| && |out| <= |season|
    && (forall q :: 0 <= q < |out| ==> values[q] == out[q])
    && (forall q :: |out| <= q < |season| ==> values[q] == season[q])
  }

  /** The queue holds the values of a stretch of the ring, and the running sum is
      their sum. */
  ghost predicate Holding(fifo: Fifo, sum: real, terms: seq<real>)
    reads fifo, fifo.queue
  {
    fifo.Valid() && fifo.contents == terms && sum == Sum(terms)
  }

  lemma NextTerm(season: seq<real>, out: seq<real>, lo: int, hi: int)
    requires -|season| <= lo <= hi < |season| + |out|
    ensures Terms(season, out, lo, hi + 1) == Terms(season, out, lo, hi) + [Term(season, out, hi)]
  {
  }

  lemma {:induction false} LessTerm(season: seq<real>, out: seq<real>, lo: int, hi: int)
    requires -|season| <= lo < hi <= |season| + |out|
    ensures Terms(season, out, lo, hi)[0] == Term(season, out, lo)
    ensures Terms(season, out, lo + 1, hi) == Terms(season, out, lo, hi)[1..]
    decreases hi - lo
  {
    if lo < hi - 1 {
      LessTerm(season, out, lo, hi - 1);
    }
  }

  /** The value at a place of the ring goes into the queue and the sum. */
  method AddTerm(values: array<real>, fifo: Fifo, sum: real, p: int,
                 ghost season: seq<real>, ghost out: seq<real>, ghost lo: int)
    returns (newSum: real)
    requires values != fifo.queue && Partly(values, season, out) && -|season| < lo <= p < |season| + |out|
    requires if p < 0 then out == [] else p >= |out|
    requires Holding(fifo, sum, Terms(season, out, lo, p)) && p - lo < fifo.capacity
    modifies fifo, fifo.queue
    ensures Holding(fifo, newSum, Terms(season, out, lo, p + 1))
  {
    MyModNear(p, values.Length);
    var k := MyMod(p, values.Length);
    NextTerm(season, out, lo, p);
    assert values[k] == Term(season, out, p);
    SumPush(fifo.contents, values[k]);
    fifo.Push(values[k]);
    newSum := sum + values[k];
    assert fifo.contents == Terms(season, out, lo, p + 1);
  }

  /** The oldest value leaves the queue and the sum. */
  method DropTerm(fifo: Fifo, sum: real, ghost season: seq<real>, ghost out: seq<real>, ghost lo: int, ghost hi: int)
    returns (newSum: real)
    requires -|season| <= lo < hi <= |season| + |out| && Holding(fifo, sum, Terms(season, out, lo, hi))
    modifies fifo
    ensures Holding(fifo, newSum, Terms(season, out, lo + 1, hi))
  {
    LessTerm(season, out, lo, hi);
    SumPop(fifo.contents);
    var value := fifo.Pop();
    newSum := sum - value;
    assert fifo.contents == Terms(season, out, lo + 1, hi);
  }

  /** The first 2w values around place 0. */
  method FillQueue(values: array<real>, fifo: Fifo, w: nat, ghost season: seq<real>) returns (sum: real)
    requires 0 < w < |season| && Partly(values, season, []) && fifo.capacity == 2 * w + 1
    requires values != fifo.queue && fifo.Valid() && fifo.contents == []
    modifies fifo, fifo.queue
    ensures Holding(fifo, sum, Terms(season, [], -(w as int), w))
  {
    sum := 0.0;
    for i := 0 to 2 * w
      invariant Holding(fifo, sum, Terms(season, [], -(w as int), i - w))
    {
      sum := AddTerm(values, fifo, sum, i - w, season, [], -(w as int));
    }
  }

  /** The average goes to the centre of its window. */
  method Put(values: array<real>, w: nat, c: nat, value: real, ghost season: seq<real>, ghost out: seq<real>)
    requires c == |out| < |season| && Partly(values, season, out)
    modifies values
    ensures Partly(values, season, out + [value])
  {
    MyModNear(c, values.Length);
    values[MyMod(c, values.Length)] := value;
  }

  /** What the loop keeps: the first values are smoothed, and the queue holds the
      2w values around the next place. */
  ghost predicate Between(values: array<real>, fifo: Fifo, sum: real, w: nat, season: seq<real>, out: seq<real>)
    requires w < |season|
    reads values, fifo, fifo.queue
  {
    && values != fifo.queue && fifo.capacity == 2 * w + 1 && Partly(values, season, out)
    && out == Smoothed(season, w, |out|)
    && Holding(fifo, sum, Terms(season, out, |out| - w, |out| + w))
  }

  lemma SmoothedNext(season: seq<real>, w: nat, out: seq<real>)
    requires 0 < w < |season| && |out| < |season| && out == Smoothed(season, w, |out|)
    ensures Smoothed(season, w, |out| + 1) == out + [Mean(season, out, w, |out|)]
  {
  }

  method Average(sum: real, w: nat, c: nat, ghost season: seq<real>, ghost out: seq<real>) returns (value: real)
    requires w <= |season| && c + w < |season| + |out| && sum == Sum(Terms(season, out, c - w, c + w + 1))
    ensures value == Mean(season, out, w, c)
  {
    value := sum / (2 * w + 1) as real;
  }

  /** A window is completed, and its average stored at its centre. */
  method Centre(values: array<real>, fifo: Fifo, before: real, w: nat, c: nat, lo: int, hi: int,
                ghost season: seq<real>, ghost out: seq<real>)
    returns (sum: real, value: real)
    requires 0 < w < |season| && c == |out| < |season| && lo == c - w && hi == c + w
    requires values != fifo.queue && fifo.capacity == 2 * w + 1 && Partly(values, season, out)
    requires Holding(fifo, before, Terms(season, out, lo, hi))
    modifies values, fifo, fifo.queue
    ensures value == Mean(season, out, w, c) && Partly(values, season, out + [value])
    ensures Holding(fifo, sum, Terms(season, out + [value], lo, hi + 1))
  {
    sum := AddTerm(values, fifo, before, hi, season, out, lo);
    value := Average(sum, w, c, season, out);
    TermsKept(season, out, [value], lo, hi + 1);
    assert Holding(fifo, sum, Terms(season, out + [value], lo, hi + 1));
    Put(values, w, c, value, season, out);
  }

  /** The oldest value leaves, and the queue is around the next place. */
  method Slide(values: array<real>, fifo: Fifo, before: real, w: nat, lo: int, hi: int,
               ghost season: seq<real>, ghost out: seq<real>)
    returns (sum: real)
    requires w < |season| && |out| <= |season| && lo + 1 == |out| - w && hi == |out| + w
    requires values != fifo.queue && fifo.capacity == 2 * w + 1 && Partly(values, season, out)
    requires out == Smoothed(season, w, |out|) && lo < hi && Holding(fifo, before, Terms(season, out, lo, hi))
    modifies fifo
    ensures Between(values, fifo, sum, w, season, out)
  {
    sum := DropTerm(fifo, before, season, out, lo, hi);
  }

  method SmoothOne(values: array<real>, fifo: Fifo, before: real, w: nat, c: nat,
                   ghost season: seq<real>, ghost out: seq<real>)
    returns (sum: real, value: real)
    requires 0 < w < |season| && c == |out| < |season| && Between(values, fifo, before, w, season, out)
    modifies values, fifo, fifo.queue
    ensures Between(values, fifo, sum, w, season, out + [value])
    ensures c < values.Length && values[c] == value && Sum(out + [value]) == Sum(out) + value
  {
    sum, value := Centre(values, fifo, before, w, c, c - w, c + w, season, out);
    SmoothedNext(season, w, out);
    ghost var next := out + [value];
    sum := Slide(values, fifo, sum, w, c - w, c + w + 1, season, next);
    SumPush(out, value);
    assert values[c] == next[c];
  }

  method Start(values: array<real>, w: nat) returns (fifo: Fifo, sum: real)
    requires 0 < w < values.Length
    ensures fresh(fifo) && fresh(fifo.queue) && Between(values, fifo, sum, w, values[..], [])
  {
    fifo := new Fifo(2 * w + 1);
    sum := FillQueue(values, fifo, w, values[..]);
  }

  /** Smoothing in place, and the sum of the result. */
  method SmoothAll(values: array<real>, w: nat) returns (total: real)
    requires 0 < w < values.Length
    modifies values
    ensures values[..] == Smoothed(old(values[..]), w, values.Length) && total == Sum(values[..])
  {
    ghost var season := values[..];
    var fifo, sum := Start(values, w);
    ghost var out: seq<real> := [];
    total := 0.0;
    for i := w to values.Length + w
      invariant fresh(fifo) && fresh(fifo.queue)
      invariant |out| == i - w && total == Sum(out) && Between(values, fifo, sum, w, season, out)
    {
      var c: nat, value: real := i - w, 0.0;
      sum, value := SmoothOne(values, fifo, sum, w, c, season, out);
      total := total + values[c];
      out := out + [value];
    }
    Finished(values, season, out);
  }

  lemma Finished(values: array<real>, season: seq<real>, out: seq<real>)
    requires Partly(values, season, out) && |out| == |season|
    ensures values[..] == out
  {
  }

  /** One column of apply_smoother: smoothing in place, and the mean of the result. */
  method Smooth(values: array<real>, w: nat) returns (baseline: real)
    requires 0 < w < values.Length
    modifies values
    ensures values[..] == Smoothed(old(values[..]), w, values.Length)
    ensures baseline == Sum(values[..]) / values.Length as real
  {
    baseline := SmoothAll(values, w);
    baseline := baseline / values.Length as real;
  }

  // ----- the whole operation

  /** DEVSEASONAL, or SEASONAL of HWPREDICT or MHWPREDICT. */
  datatype Target = Deviations | Seasons(p: HW.Params)

  /** The smoothed season moved around its mean. */
  function Recentred(target: Target, v: real, baseline: real): Value {
    match target
    case Deviations => Num(v)
    case Seasons(p) => HW.InitSeasonality(p, Num(v), Num(baseline))
  }

  /** Half the window, in rows. */
  function Offset(window: real, n: nat): int {
    (window / 2.0 * n as real).Floor
  }

  /** It is the number of whole rows in half the window. */
  lemma OffsetIs(window: real, n: nat)
    ensures 2.0 * Offset(window, n) as real <= window * n as real < 2.0 * Offset(window, n) as real + 2.0
  {
    var half := window / 2.0 * n as real;
    assert half * 2.0 == window * n as real;
    assert half.Floor as real <= half < half.Floor as real + 1.0;
  }

  lemma OffsetSmall(window: real, n: nat)
    requires 0.0 <= window <= 1.0 && Offset(window, n) > 0
    ensures Offset(window, n) < n
  {
    var half, m := window / 2.0, n as real;
    assert (0.5 - half) * m >= 0.0;
    assert 0.5 * m - half * m == (0.5 - half) * m;
  }

  /** The columns of a table of rows and data sources. */
  ghost function Columns<T>(table: array2<T>): (r: seq<seq<T>>)
    reads table
    ensures |r| == table.Length1
    ensures forall j :: 0 <= j < |r| ==> |r[j]| == table.Length0
    ensures forall j, i :: 0 <= j < |r| && 0 <= i < |r[j]| ==> r[j][i] == table[i, j]
  {
    seq(table.Length1, j requires 0 <= j < table.Length1 reads table =>
      seq(table.Length0, i requires 0 <= i < table.Length0 reads table => table[i, j]))
  }

  ghost predicate AllKnown(columns: seq<seq<Value>>) {
    forall j, i :: 0 <= j < |columns| && 0 <= i < |columns[j]| ==> columns[j][i].Num?
  }

  ghost predicate Known(column: seq<Value>) {
    forall i :: 0 <= i < |column| ==> column[i].Num?
  }

  ghost function Reals(column: seq<Value>): (r: seq<real>)
    requires Known(column)
    ensures |r| == |column|
  {
    seq(|column|, i requires 0 <= i < |column| => column[i].x)
  }

  /** The season of one data source, smoothed. */
  ghost function Season(column: seq<Value>, w: nat): (r: seq<real>)
    requires Known(column) && w < |column|
    ensures |r| == |column|
  {
    Smoothed(Reals(column), w, |column|)
  }

  ghost function SeasonMean(column: seq<Value>, w: nat): real
    requires Known(column) && w < |column|
  {
    Sum(Season(column, w)) / |column| as real
  }

  /** A cell of the table holds what its column says. */
  ghost predicate Filled(table: array2<real>, column: seq<real>, j: nat)
    reads table
  {
    j < table.Length1 && |column| == table.Length0 && forall i :: 0 <= i < table.Length0 ==> table[i, j] == column[i]
  }

  /** Reads all seasons, row by row; an unknown value of any data source ends it. */
  method ReadSeasons(file: array2<Value>) returns (values: array2<real>, known: bool)
    ensures fresh(values) && values.Length0 == file.Length0 && values.Length1 == file.Length1
    ensures known <==> forall i, j :: 0 <= i < file.Length0 && 0 <= j < file.Length1 ==> file[i, j].Num?
    ensures known ==> forall i, j :: 0 <= i < file.Length0 && 0 <= j < file.Length1 ==> file[i, j] == Num(values[i, j])
  {
    values := new real[file.Length0, file.Length1];
    for i := 0 to file.Length0
      invariant forall k, j :: 0 <= k < i && 0 <= j < file.Length1 ==> file[k, j] == Num(values[k, j])
    {
      for j := 0 to file.Length1
        invariant forall k, l :: 0 <= k < i && 0 <= l < file.Length1 ==> file[k, l] == Num(values[k, l])
        invariant forall l :: 0 <= l < j ==> file[i, l] == Num(values[i, l])
      {
        if file[i, j].NaN? {
          return values, false;
        }
        values[i, j] := file[i, j].x;
      }
    }
    known := true;
  }

  /** The column is smoothed, and `mean` is its mean. */
  ghost predicate ColumnDone(values: array2<real>, season: seq<real>, w: nat, j: nat, mean: real)
    reads values
  {
    && w < |season|
    && Filled(values, Smoothed(season, w, |season|), j)
    && mean == Sum(Smoothed(season, w, |season|)) / |season| as real
  }

  method TakeColumn(values: array2<real>, j: nat, ghost season: seq<real>) returns (column: array<real>)
    requires Filled(values, season, j)
    ensures fresh(column) && column[..] == season
  {
    column := new real[values.Length0];
    for i := 0 to values.Length0
      invariant forall k :: 0 <= k < i ==> column[k] == season[k]
    {
      assert values[i, j] == season[i];
      column[i] := values[i, j];
    }
  }

  method PutColumn(values: array2<real>, j: nat, column: array<real>)
    requires j < values.Length1 && column.Length == values.Length0
    modifies values
    ensures Filled(values, column[..], j)
    ensures forall i, l :: 0 <= i < values.Length0 && 0 <= l < values.Length1 && l != j ==>
              values[i, l] == old(values[i, l])
  {
    for i := 0 to values.Length0
      invariant forall k :: 0 <= k < i ==> values[k, j] == column[k]
      invariant forall k, l :: 0 <= k < values.Length0 && 0 <= l < values.Length1 && l != j ==>
                  values[k, l] == old(values[k, l])
    {
      values[i, j] := column[i];
    }
  }

  /** The season of one data source is smoothed in place, the others stay. */
  method SmoothColumn(values: array2<real>, w: nat, j: nat, ghost season: seq<real>) returns (baseline: real)
    requires 0 < w < values.Length0 && j < values.Length1 && Filled(values, season, j)
    modifies values
    ensures ColumnDone(values, season, w, j, baseline)
    ensures forall i, l :: 0 <= i < values.Length0 && 0 <= l < values.Length1 && l != j ==>
              values[i, l] == old(values[i, l])
  {
    var column := TakeColumn(values, j, season);
    baseline := Smooth(column, w);
    PutColumn(values, j, column);
  }

  /** All seasons are smoothed. */
  method SmoothColumns(values: array2<real>, w: nat, ghost seasons: seq<seq<real>>) returns (baseline: array<real>)
    requires 0 < w < values.Length0 && |seasons| == values.Length1
    requires forall j :: 0 <= j < |seasons| ==> Filled(values, seasons[j], j)
    modifies values
    ensures fresh(baseline) && baseline.Length == values.Length1
    ensures forall j :: 0 <= j < |seasons| ==> ColumnDone(values, seasons[j], w, j, baseline[j])
  {
    baseline := new real[values.Length1];
    for j := 0 to values.Length1
      invariant forall l :: 0 <= l < j ==> ColumnDone(values, seasons[l], w, l, baseline[l])
      invariant forall l :: j <= l < |seasons| ==> Filled(values, seasons[l], l)
    {
      var mean := SmoothColumn(values, w, j, seasons[j]);
      baseline[j] := mean;
    }
  }

  /** The seasons go back to the file, moved around their means. */
  method WriteSeasons(file: array2<Value>, values: array2<real>, target: Target, baseline: array<real>)
    requires values.Length0 == file.Length0 && values.Length1 == file.Length1 == baseline.Length
    modifies file
    ensures forall i, j :: 0 <= i < file.Length0 && 0 <= j < file.Length1 ==>
              file[i, j] == Recentred(target, values[i, j], baseline[j])
  {
    for j := 0 to file.Length1
      invariant forall i, l :: 0 <= i < file.Length0 && 0 <= l < j ==>
                  file[i, l] == Recentred(target, values[i, l], baseline[l])
    {
      for i := 0 to file.Length0
        invariant forall k, l :: 0 <= k < file.Length0 && 0 <= l < j ==>
                    file[k, l] == Recentred(target, values[k, l], baseline[l])
        invariant forall k :: 0 <= k < i ==> file[k, j] == Recentred(target, values[k, j], baseline[j])
      {
        file[i, j] := Recentred(target, values[i, j], baseline[j]);
      }
    }
  }

  /** The means go to the intercepts of HWPREDICT, one for each data source. */
  method AddMeans(intercepts: array<Value>, baseline: array<real>)
    requires intercepts.Length == baseline.Length
    modifies intercepts
    ensures forall j :: 0 <= j < intercepts.Length ==>
              intercepts[j] == HW.Add(old(intercepts[j]), Num(baseline[j]))
  {
    for j := 0 to intercepts.Length
      invariant forall l :: 0 <= l < j ==> intercepts[l] == HW.Add(old(intercepts[l]), Num(baseline[l]))
      invariant forall l :: j <= l < intercepts.Length ==> intercepts[l] == old(intercepts[l])
    {
      intercepts[j] := HW.Add(intercepts[j], Num(baseline[j]));
    }
  }

  /** The table and the intercepts after smoothing every column. */
  ghost predicate SmoothedTable(target: Target, columns: seq<seq<Value>>, w: nat, before: seq<Value>,
                                file: array2<Value>, intercepts: array<Value>)
    requires w < file.Length0 && |columns| == file.Length1 == intercepts.Length == |before|
    requires forall j :: 0 <= j < |columns| ==> |columns[j]| == file.Length0 && Known(columns[j])
    reads file, intercepts
  {
    forall j :: 0 <= j < |columns| ==>
      && (forall i :: 0 <= i < file.Length0 ==>
            file[i, j] == Recentred(target, Season(columns[j], w)[i], SeasonMean(columns[j], w)))
      && intercepts[j] == if target.Seasons? then HW.Add(before[j], Num(SeasonMean(columns[j], w))) else before[j]
  }

  /** The values of all seasons, as they were read. */
  ghost predicate Read(values: array2<real>, columns: seq<seq<Value>>)
    reads values
  {
    && |columns| == values.Length1
    && forall j :: 0 <= j < |columns| ==>
         |columns[j]| == values.Length0 && Known(columns[j]) && Filled(values, Reals(columns[j]), j)
  }

  lemma ReadIsKnown(file: array2<Value>, values: array2<real>)
    requires values.Length0 == file.Length0 && values.Length1 == file.Length1
    requires forall i, j :: 0 <= i < file.Length0 && 0 <= j < file.Length1 ==> file[i, j] == Num(values[i, j])
    ensures Read(values, Columns(file))
  {
    var columns := Columns(file);
    forall j | 0 <= j < |columns|
      ensures |columns[j]| == values.Length0 && Known(columns[j]) && Filled(values, Reals(columns[j]), j)
    {
      assert forall i :: 0 <= i < values.Length0 ==> columns[j][i] == file[i, j];
    }
  }

  method SmoothSeasons(values: array2<real>, w: nat, ghost columns: seq<seq<Value>>) returns (baseline: array<real>)
    requires 0 < w < values.Length0 && Read(values, columns)
    modifies values
    ensures fresh(baseline) && baseline.Length == values.Length1
    ensures forall j :: 0 <= j < |columns| ==>
              Filled(values, Season(columns[j], w), j) && baseline[j] == SeasonMean(columns[j], w)
  {
    ghost var seasons := seq(|columns|, j requires 0 <= j < |columns| && Known(columns[j]) => Reals(columns[j]));
    assert forall j :: 0 <= j < |columns| ==> seasons[j] == Reals(columns[j]);
    baseline := SmoothColumns(values, w, seasons);
    forall j | 0 <= j < |columns|
      ensures Filled(values, Season(columns[j], w), j) && baseline[j] == SeasonMean(columns[j], w)
    {
      assert seasons[j] == Reals(columns[j]);
    }
  }

  /** apply_smoother: nothing happens if the window is shorter than two rows or any
      value of any data source is unknown; otherwise the season of every data
      source is smoothed, and the mean of seasonal values moves to the intercept. */
  method ApplySmoother(file: array2<Value>, window: real, target: Target, intercepts: array<Value>)
    requires 0.0 <= window <= 1.0 && intercepts.Length == file.Length1
    modifies file, intercepts
    ensures Offset(window, file.Length0) <= 0 || !AllKnown(old(Columns(file))) ==>
              Columns(file) == old(Columns(file)) && intercepts[..] == old(intercepts[..])
    ensures 0 < Offset(window, file.Length0) && AllKnown(old(Columns(file))) ==>
              && Offset(window, file.Length0) < file.Length0
              && (forall j :: 0 <= j < file.Length1 ==> Known(old(Columns(file))[j]))
              && SmoothedTable(target, old(Columns(file)), Offset(window, file.Length0), old(intercepts[..]),
                               file, intercepts)
              && (target.Deviations? ==>
                    forall i, j :: 0 <= i < file.Length0 && 0 <= j < file.Length1 ==>
                      file[i, j] == Num(Season(old(Columns(file))[j], Offset(window, file.Length0))[i]))
              && (target.Seasons? && !target.p.multiplicative ==>
                    forall i, j :: 0 <= i < file.Length0 && 0 <= j < file.Length1 ==>
                      KeepsForecasts(target.p, old(intercepts[..])[j],
                                     Season(old(Columns(file))[j], Offset(window, file.Length0))[i],
                                     intercepts[j], file[i, j]))
  {
    var offset := Offset(window, file.Length0);
    if offset <= 0 {
      return;
    }
    OffsetSmall(window, file.Length0);
    var values, known := ReadSeasons(file);
    if known {
      ReadIsKnown(file, values);
      ghost var columns, before := Columns(file), intercepts[..];
      SmoothKnown(file, values, target, intercepts, offset, columns);
      TableKeepsForecasts(target, columns, offset, before, file, intercepts);
    }
  }

  /** With the moved intercept and the written value, every slope and number of steps
      gives the forecast of the old intercept and the smoothed value. */
  ghost predicate KeepsForecasts(p: HW.Params, before: Value, smoothed: real, after: Value, written: Value) {
    forall slope, nullCount ::
      HW.Predict(p, after, slope, nullCount, written) == HW.Predict(p, before, slope, nullCount, Num(smoothed))
  }

  lemma TableKeepsForecasts(target: Target, columns: seq<seq<Value>>, w: nat, before: seq<Value>,
                            file: array2<Value>, intercepts: array<Value>)
    requires w < file.Length0 && |columns| == file.Length1 == intercepts.Length == |before|
    requires forall j :: 0 <= j < |columns| ==> |columns[j]| == file.Length0 && Known(columns[j])
    requires SmoothedTable(target, columns, w, before, file, intercepts)
    ensures target.Seasons? && !target.p.multiplicative ==>
              forall i, j :: 0 <= i < file.Length0 && 0 <= j < |columns| ==>
                KeepsForecasts(target.p, before[j], Season(columns[j], w)[i], intercepts[j], file[i, j])
  {
    if target.Seasons? && !target.p.multiplicative {
      forall i, j | 0 <= i < file.Length0 && 0 <= j < |columns|
        ensures KeepsForecasts(target.p, before[j], Season(columns[j], w)[i], intercepts[j], file[i, j])
      {
        assert intercepts[j] == HW.Add(before[j], Num(SeasonMean(columns[j], w)));
        MovedKeepsForecasts(target.p, before[j], Season(columns[j], w)[i], SeasonMean(columns[j], w));
      }
    }
  }

  lemma MovedKeepsForecasts(p: HW.Params, before: Value, v: real, mean: real)
    requires !p.multiplicative
    ensures KeepsForecasts(p, before, v, HW.Add(before, Num(mean)), Recentred(Seasons(p), v, mean))
  {
  }

  /** The mean of the smoothed season. */
  lemma SeasonMeanIs(column: seq<Value>, w: nat)
    requires Known(column) && w < |column|
    ensures |column| as real * SeasonMean(column, w) == Sum(Season(column, w))
  {
    TimesMean(Sum(Season(column, w)), |column| as real, SeasonMean(column, w));
  }

  method SmoothKnown(file: array2<Value>, values: array2<real>, target: Target, intercepts: array<Value>, w: nat,
                     ghost columns: seq<seq<Value>>)
    requires values.Length0 == file.Length0 && values.Length1 == file.Length1 == intercepts.Length
    requires 0 < w < values.Length0 && Read(values, columns)
    modifies file, values, intercepts
    ensures SmoothedTable(target, columns, w, old(intercepts[..]), file, intercepts)
  {
    var baseline := SmoothSeasons(values, w, columns);
    WriteSeasons(file, values, target, baseline);
    if target.Seasons? {
      AddMeans(intercepts, baseline);
    }
  }

  /** Smoothed deviations are written as they are. */
  lemma DeviationsStay(v: real, mean: real)
    ensures Recentred(Deviations, v, mean) == Num(v)
  {
  }

  function Moved(xs: seq<real>, b: real): seq<real> {
    seq(|xs|, i requires 0 <= i < |xs| => xs[i] - b)
  }

  function Divided(xs: seq<real>, b: real): seq<real>
    requires b != 0.0
  {
    seq(|xs|, i requires 0 <= i < |xs| => xs[i] / b)
  }

  lemma {:induction false} SumMoved(xs: seq<real>, b: real)
    ensures Sum(Moved(xs, b)) == Sum(xs) - |xs| as real * b
  {
    if xs != [] {
      var n := |xs| - 1;
      SumMoved(xs[..n], b);
      assert Moved(xs, b)[..n] == Moved(xs[..n], b);
      assert |xs| as real * b == n as real * b + b;
    }
  }

  lemma {:induction false} SumDivided(xs: seq<real>, b: real)
    requires b != 0.0
    ensures Sum(Divided(xs, b)) == Sum(xs) / b
  {
    if xs != [] {
      var n := |xs| - 1;
      SumDivided(xs[..n], b);
      assert Divided(xs, b)[..n] == Divided(xs[..n], b);
      assert Sum(xs[..n]) / b + xs[n] / b == (Sum(xs[..n]) + xs[n]) / b;
    }
  }

  /** The values written for a season of HWPREDICT are the smoothed ones less their
      mean, so that they add up to zero. */
  lemma SeasonCentred(p: HW.Params, season: seq<real>, mean: real, i: nat)
    requires !p.multiplicative && i < |season| && mean == Sum(season) / |season| as real
    ensures Recentred(Seasons(p), season[i], mean) == Num(Moved(season, mean)[i])
    ensures Sum(Moved(season, mean)) == 0.0
  {
    SumMoved(season, mean);
    TimesMean(Sum(season), |season| as real, mean);
  }

  lemma TimesMean(sum: real, n: real, mean: real)
    requires n > 0.0 && mean == sum / n
    ensures n * mean == sum && sum - n * mean == 0.0
  {
    assert mean * n == sum;
  }

  /** Those of MHWPREDICT are the smoothed ones divided by their mean, so that their
      mean is one, if it is positive; otherwise they are unknown. */
  lemma SeasonScaled(p: HW.Params, season: seq<real>, mean: real, i: nat)
    requires p.multiplicative && i < |season| && mean == Sum(season) / |season| as real
    ensures mean > 0.0 ==>
              && Recentred(Seasons(p), season[i], mean) == Num(Divided(season, mean)[i])
              && Sum(Divided(season, mean)) == |season| as real
    ensures mean <= 0.0 ==> Recentred(Seasons(p), season[i], mean) == NaN
  {
    if mean > 0.0 {
      SumDivided(season, mean);
      BackFromMean(Sum(season), |season| as real, mean);
    }
  }

  lemma BackFromMean(sum: real, n: real, mean: real)
    requires n > 0.0 && mean > 0.0 && mean == sum / n
    ensures sum / mean == n
  {
    assert sum == mean * n;
  }

  /** With HWPREDICT no forecast changes when the mean moves to the intercept. */
  lemma RecentringKeepsForecast(p: HW.Params, intercept: real, slope: real, nullCount: nat, v: real, mean: real)
    requires !p.multiplicative
    ensures HW.Predict(p, HW.Add(Num(intercept), Num(mean)), Num(slope), nullCount, Recentred(Seasons(p), v, mean))
         == HW.Predict(p, Num(intercept), Num(slope), nullCount, Num(v))
  {
  }

  /** With MHWPREDICT the mean is also added to the intercept, while the seasonal
      values are divided by it: a forecast is kept exactly if the mean is positive
      and its seasonal value is zero or the sum of level and mean is also their
      product. */
  lemma RecentringForecast(p: HW.Params, intercept: real, slope: real, nullCount: nat, v: real, mean: real)
    requires p.multiplicative
    ensures var level := intercept + nullCount as real * slope;
            HW.Predict(p, HW.Add(Num(intercept), Num(mean)), Num(slope), nullCount, Recentred(Seasons(p), v, mean))
            == HW.Predict(p, Num(intercept), Num(slope), nullCount, Num(v))
            <==> mean > 0.0 && (v == 0.0 || level + mean == level * mean)
  {
    if mean > 0.0 {
      MovedForecast(intercept + nullCount as real * slope, v, mean);
    }
  }

  lemma MovedForecast(level: real, v: real, mean: real)
    requires mean > 0.0
    ensures (level + mean) * (v / mean) == level * v <==> v == 0.0 || level + mean == level * mean
  {
    var moved, kept := (level + mean) * (v / mean), level * v;
    assert moved * mean == (level + mean) * v by {
      assert v / mean * mean == v;
    }
    assert (moved - kept) * mean == v * (level + mean - level * mean);
    ZeroProduct(v, level + mean - level * mean);
    ZeroProduct(moved - kept, mean);
  }

  /** At level 1, moving a season around its mean 2 turns a forecast of 1 into 1.5. */
  lemma RecentringChanges(p: HW.Params)
    requires p.multiplicative
    ensures HW.Predict(p, Num(1.0), Num(0.0), 1, Num(1.0)) == Num(1.0)
    ensures HW.Predict(p, HW.Add(Num(1.0), Num(2.0)), Num(0.0), 1, Recentred(Seasons(p), 1.0, 2.0)) == Num(1.5)
  {
    assert Recentred(Seasons(p), 1.0, 2.0) == Num(0.5);
    assert HW.Scale(1.0, Num(0.0)) == Num(0.0);
    assert HW.Mul(Num(1.0), Num(1.0)) == Num(1.0) && HW.Mul(Num(3.0), Num(0.5)) == Num(1.5);
  }

  lemma ZeroProduct(a: real, b: real)
    ensures a * b == 0.0 <==> a == 0.0 || b == 0.0
  {
    if a != 0.0 {
      assert b == a * b / a;
    }
  }
}
