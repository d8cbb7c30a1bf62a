/** reduce_data: fetched rows are consolidated to a coarser step, in the buffer
    that holds them. */
module Reduce {
  import opened Archive
  import opened Arithmetic

  const WORD: nat := 0x1_0000_0000_0000_0000

  /** The reduction factor is an int. */
  const INT_LIMIT: nat := 0x8000_0000

  datatype Cf = Average | Minimum | Maximum | Last
    | HwPredict | MhwPredict | DevSeasonal | DevPredict | Seasonal | Failures

  predicate Averages(cf: Cf) {
    cf == Average || cf == HwPredict || cf == MhwPredict || cf == DevSeasonal || cf == DevPredict || cf == Seasonal
  }

  predicate TakesMaximum(cf: Cf) {
    cf == Maximum || cf == Failures
  }

  // ----- consolidation of known values

  function Min(xs: seq<real>): (m: real)
    requires xs != []
    ensures m in xs && forall x :: x in xs ==> m <= x
  {
    var n := |xs| - 1;
    if n == 0 then xs[0]
    else
      var m := Min(xs[..n]);
      assert xs == xs[..n] + [xs[n]];
      if m < xs[n] then m else xs[n]
  }

  function Max(xs: seq<real>): (m: real)
    requires xs != []
    ensures m in xs && forall x :: x in xs ==> x <= m
  {
    var n := |xs| - 1;
    if n == 0 then xs[0]
    else
      var m := Max(xs[..n]);
      assert xs == xs[..n] + [xs[n]];
      if xs[n] < m then m else xs[n]
  }

  function Consolidated(cf: Cf, xs: seq<real>): Value {
    if xs == [] then NaN
    else if Averages(cf) then Num(Sum(xs) / |xs| as real)
    else if cf.Minimum? then Num(Min(xs))
    else if TakesMaximum(cf) then Num(Max(xs))
    else Num(xs[|xs| - 1])
  }

  /** The known values of a column, first row first. */
  function Known(rows: seq<Row>, col: nat): seq<real>
    requires forall i :: 0 <= i < |rows| ==> col < |rows[i]|
  {
    if rows == [] then []
    else
      var v := rows[|rows| - 1][col];
      Known(rows[..|rows| - 1], col) + if v.Num? then [v.x] else []
  }

  // ----- rows

  ghost predicate AllRows(dsCnt: nat, rows: seq<Row>) {
    forall i :: 0 <= i < |rows| ==> |rows[i]| == dsCnt
  }

  function Combined(cf: Cf, dsCnt: nat, group: seq<Row>): Row
    requires AllRows(dsCnt, group)
  {
    seq(dsCnt, c requires 0 <= c < dsCnt => Consolidated(cf, Known(group, c)))
  }

  // ----- what each function makes of a group

  /** Whether a column of a group has a known value, how many, and their sum. */
  ghost predicate HasKnown(group: seq<Row>, c: nat)
    requires forall i :: 0 <= i < |group| ==> c < |group[i]|
  {
    exists i :: 0 <= i < |group| && group[i][c].Num?
  }

  function HowMany(group: seq<Row>, c: nat): nat
    requires forall i :: 0 <= i < |group| ==> c < |group[i]|
  {
    if group == [] then 0 else (if group[0][c].Num? then 1 else 0) + HowMany(group[1..], c)
  }

  function Total(group: seq<Row>, c: nat): real
    requires forall i :: 0 <= i < |group| ==> c < |group[i]|
  {
    if group == [] then 0.0 else (if group[0][c].Num? then group[0][c].x else 0.0) + Total(group[1..], c)
  }

  lemma KnownPrepend(row: Row, rest: seq<Row>, c: nat)
    requires c < |row| && forall i :: 0 <= i < |rest| ==> c < |rest[i]|
    ensures Known([row] + rest, c) == (if row[c].Num? then [row[c].x] else []) + Known(rest, c)
  {
    if rest == [] {
      assert [row] + rest == [row] && [row][..0] == [];
    } else {
      var n := |rest| - 1;
      KnownPrepend(row, rest[..n], c);
      assert ([row] + rest)[..n + 1] == [row] + rest[..n];
    }
  }

  lemma {:induction false} SumPrepend(x: real, xs: seq<real>)
    ensures Sum([x] + xs) == x + Sum(xs)
  {
    if xs == [] {
      assert [x] + xs == [x] && [x][..0] == [];
    } else {
      var n := |xs| - 1;
      SumPrepend(x, xs[..n]);
      assert ([x] + xs)[..n + 1] == [x] + xs[..n];
    }
  }

  lemma {:induction false} KnownCounts(group: seq<Row>, c: nat)
    requires forall i :: 0 <= i < |group| ==> c < |group[i]|
    ensures |Known(group, c)| == HowMany(group, c) && Sum(Known(group, c)) == Total(group, c)
  {
    if group != [] {
      var rest := group[1..];
      KnownCounts(rest, c);
      assert group == [group[0]] + rest;
      KnownPrepend(group[0], rest, c);
      if group[0][c].Num? {
        SumPrepend(group[0][c].x, Known(rest, c));
      } else {
        assert [] + Known(rest, c) == Known(rest, c);
      }
    }
  }

  lemma {:induction false} KnownMembers(group: seq<Row>, c: nat, x: real)
    requires forall i :: 0 <= i < |group| ==> c < |group[i]|
    ensures x in Known(group, c) <==> exists i :: 0 <= i < |group| && group[i][c] == Num(x)
  {
    if group != [] {
      var n := |group| - 1;
      KnownMembers(group[..n], c, x);
      if exists i :: 0 <= i < |group| && group[i][c] == Num(x) {
        var i :| 0 <= i < |group| && group[i][c] == Num(x);
        assert i < n ==> group[..n][i][c] == Num(x);
      }
    }
  }

  /** The last known value is that of the last row that has one. */
  lemma {:induction false} LastKnown(group: seq<Row>, c: nat) returns (i: nat)
    requires (forall k :: 0 <= k < |group| ==> c < |group[k]|) && Known(group, c) != []
    ensures i < |group| && group[i][c] == Num(Known(group, c)[|Known(group, c)| - 1])
    ensures forall k :: i < k < |group| ==> group[k][c].NaN?
  {
    i := |group| - 1;
    if group[i][c].NaN? {
      var part := group[..i];
      i := LastKnown(part, c);
    }
  }

  lemma KnownIsNone(group: seq<Row>, c: nat)
    requires forall i :: 0 <= i < |group| ==> c < |group[i]|
    ensures Known(group, c) == [] <==> !HasKnown(group, c)
  {
    if Known(group, c) != [] {
      KnownMembers(group, c, Known(group, c)[0]);
    }
    if HasKnown(group, c) {
      var i :| 0 <= i < |group| && group[i][c].Num?;
      KnownMembers(group, c, group[i][c].x);
    }
  }

  /** A cell without a known value in its group is unknown, every other one known. */
  lemma CombinedKnown(cf: Cf, dsCnt: nat, group: seq<Row>, c: nat)
    requires AllRows(dsCnt, group) && c < dsCnt
    ensures Combined(cf, dsCnt, group)[c].Num? <==> HasKnown(group, c)
  {
    KnownIsNone(group, c);
  }

  /** MIN gives a value of the group, and none is smaller. */
  lemma CombinedMinimum(cf: Cf, dsCnt: nat, group: seq<Row>, c: nat)
    requires AllRows(dsCnt, group) && c < dsCnt && HasKnown(group, c) && cf == Minimum
    ensures Combined(cf, dsCnt, group)[c].Num?
    ensures exists i :: 0 <= i < |group| && group[i][c] == Combined(cf, dsCnt, group)[c]
    ensures forall i :: 0 <= i < |group| && group[i][c].Num? ==> Combined(cf, dsCnt, group)[c].x <= group[i][c].x
  {
    KnownIsNone(group, c);
    var v := Combined(cf, dsCnt, group)[c];
    KnownMembers(group, c, v.x);
    forall i | 0 <= i < |group| && group[i][c].Num?
      ensures v.x <= group[i][c].x
    {
      KnownMembers(group, c, group[i][c].x);
    }
  }

  /** MAX and FAILURES give a value of the group, and none is greater. */
  lemma CombinedMaximum(cf: Cf, dsCnt: nat, group: seq<Row>, c: nat)
    requires AllRows(dsCnt, group) && c < dsCnt && HasKnown(group, c) && (cf == Maximum || cf == Failures)
    ensures Combined(cf, dsCnt, group)[c].Num?
    ensures exists i :: 0 <= i < |group| && group[i][c] == Combined(cf, dsCnt, group)[c]
    ensures forall i :: 0 <= i < |group| && group[i][c].Num? ==> group[i][c].x <= Combined(cf, dsCnt, group)[c].x
  {
    KnownIsNone(group, c);
    var v := Combined(cf, dsCnt, group)[c];
    KnownMembers(group, c, v.x);
    forall i | 0 <= i < |group| && group[i][c].Num?
      ensures group[i][c].x <= v.x
    {
      KnownMembers(group, c, group[i][c].x);
    }
  }

  /** LAST gives the value of the last row that has one. */
  lemma CombinedLast(cf: Cf, dsCnt: nat, group: seq<Row>, c: nat) returns (i: nat)
    requires AllRows(dsCnt, group) && c < dsCnt && HasKnown(group, c) && cf == Last
    ensures i < |group| && group[i][c].Num? && Combined(cf, dsCnt, group)[c] == group[i][c]
    ensures forall k :: i < k < |group| ==> group[k][c].NaN?
  {
    KnownIsNone(group, c);
    i := LastKnown(group, c);
  }

  /** AVERAGE and the functions of Holt-Winters give the mean of the known values. */
  lemma CombinedAverage(cf: Cf, dsCnt: nat, group: seq<Row>, c: nat)
    requires AllRows(dsCnt, group) && c < dsCnt && HasKnown(group, c)
    requires cf == Average || cf == HwPredict || cf == MhwPredict || cf == DevSeasonal || cf == DevPredict
             || cf == Seasonal
    ensures HowMany(group, c) > 0 && Combined(cf, dsCnt, group)[c].Num?
    ensures Combined(cf, dsCnt, group)[c].x * HowMany(group, c) as real == Total(group, c)
  {
    KnownIsNone(group, c);
    KnownCounts(group, c);
    var n := HowMany(group, c) as real;
    assert Total(group, c) / n * n == Total(group, c);
  }

  function Groups(cf: Cf, dsCnt: nat, rows: seq<Row>, f: nat): (r: seq<Row>)
    requires AllRows(dsCnt, rows) && f > 0
    ensures AllRows(dsCnt, r)
    decreases |rows|
  {
    if |rows| < f then [] else [Combined(cf, dsCnt, rows[..f])] + Groups(cf, dsCnt, rows[f..], f)
  }

  /** Source rows in front of the first whole group, if the start is `ra` rows
      behind a multiple of the new step. */
  function Skip(ra: nat, f: nat): nat
    requires ra < f
  {
    if ra > 0 then f - ra else 0
  }

  /** The rows reduced by the factor `f`, where the start is `ra` and the end `rb`
      rows behind a multiple of the new step. */
  function Reduced(cf: Cf, dsCnt: nat, rows: seq<Row>, f: nat, ra: nat, rb: nat): seq<Row>
    requires AllRows(dsCnt, rows) && ra < f && rb < f && Skip(ra, f) + rb <= |rows|
  {
    (if ra > 0 then [Unknown(dsCnt)] else [])
    + Groups(cf, dsCnt, rows[Skip(ra, f)..|rows| - rb], f)
    + (if rb > 0 then [Unknown(dsCnt)] else [])
  }

  /** A multiple of the new step lies between the two ends. */
  predicate Crosses(a: nat, b: nat, f: nat)
    requires f > 0
  {
    a % f == 0 || a / f < b / f
  }

  /** Then whole groups are left between the skipped rows. */
  lemma CrossingFits(a: nat, b: nat, f: nat) returns (k: nat)
    requires f > 0 && a <= b && Crosses(a, b, f)
    ensures b - a == Skip(a % f, f) + Times(k, f) + b % f
  {
    var p, q := a / f, b / f;
    Later(a, b, f);
    k := if a % f > 0 then q - p - 1 else q - p;
    MulDiff(q, p, f);
    MulDiff(q - p, 1, f);
    TimesIs(k, f);
  }

  lemma Later(a: nat, b: nat, f: nat)
    requires f > 0 && a <= b
    ensures a == a / f * f + a % f && b == b / f * f + b % f
    ensures a / f <= b / f
  {
    if b / f < a / f {
      MulLe(b / f + 1, a / f, f);
    }
  }

  lemma {:induction false} GroupCount(cf: Cf, dsCnt: nat, rows: seq<Row>, k: nat, f: nat)
    requires AllRows(dsCnt, rows) && f > 0 && |rows| == Times(k, f)
    ensures |Groups(cf, dsCnt, rows, f)| == k
    decreases k
  {
    if k > 0 {
      GroupCount(cf, dsCnt, rows[f..], k - 1, f);
    }
  }

  lemma {:induction false} GroupAt(cf: Cf, dsCnt: nat, rows: seq<Row>, f: nat, i: nat, at: nat, part: seq<Row>)
    requires AllRows(dsCnt, rows) && AllRows(dsCnt, part) && f > 0 && at == Times(i, f) && at + f <= |rows|
    requires part == rows[at..at + f]
    ensures i < |Groups(cf, dsCnt, rows, f)|
    ensures Groups(cf, dsCnt, rows, f)[i] == Combined(cf, dsCnt, part)
    decreases i
  {
    if i > 0 {
      SliceOfTail(rows, f, at - f);
      GroupAt(cf, dsCnt, rows[f..], f, i - 1, at - f, part);
      NextGroup(cf, dsCnt, rows, f, i);
    } else {
      assert part == rows[..f];
    }
  }

  lemma NextGroup(cf: Cf, dsCnt: nat, rows: seq<Row>, f: nat, i: nat)
    requires AllRows(dsCnt, rows) && 0 < f <= |rows| && 0 < i && i - 1 < |Groups(cf, dsCnt, rows[f..], f)|
    ensures i < |Groups(cf, dsCnt, rows, f)|
    ensures Groups(cf, dsCnt, rows, f)[i] == Groups(cf, dsCnt, rows[f..], f)[i - 1]
  {
  }

  lemma SliceOfTail(rows: seq<Row>, f: nat, at: nat)
    requires f + at + f <= |rows|
    ensures rows[f..][at..at + f] == rows[f + at..f + at + f]
  {
  }

  /** One row for every interval between the new ends, which lie `ra` rows before
      the old start and `f - rb` rows behind the old end. */
  lemma ReducedCount(cf: Cf, dsCnt: nat, rows: seq<Row>, f: nat, ra: nat, rb: nat, k: nat)
    requires AllRows(dsCnt, rows) && ra < f && rb < f && |rows| == Skip(ra, f) + Times(k, f) + rb
    ensures var out := Reduced(cf, dsCnt, rows, f, ra, rb);
            && |out| == (if ra > 0 then k + 1 else k) + (if rb > 0 then 1 else 0)
            && Times(|out|, f) == ra + |rows| + (if rb > 0 then f - rb else 0)
            && |out| <= |rows|
  {
    GroupCount(cf, dsCnt, rows[Skip(ra, f)..|rows| - rb], k, f);
    TimesLe(k, k, f);
  }

  /** The row for the f source rows from `at` on, unless they are not all there. */
  function RowFrom(cf: Cf, dsCnt: nat, rows: seq<Row>, f: nat, at: int): Row
    requires AllRows(dsCnt, rows)
  {
    if 0 <= at && at + f <= |rows| then Combined(cf, dsCnt, rows[at..at + f]) else Unknown(dsCnt)
  }

  /** A row whose interval lies between the old ends consolidates exactly the
      source rows inside it; the others are unknown. */
  lemma ReducedRow(cf: Cf, dsCnt: nat, rows: seq<Row>, f: nat, ra: nat, rb: nat, k: nat, i: nat, at: int)
    requires AllRows(dsCnt, rows) && ra < f && rb < f && |rows| == Skip(ra, f) + Times(k, f) + rb
    requires i < |Reduced(cf, dsCnt, rows, f, ra, rb)| && at == Times(i, f) - ra
    ensures Reduced(cf, dsCnt, rows, f, ra, rb)[i] == RowFrom(cf, dsCnt, rows, f, at)
  {
    if ra > 0 && i == 0 {
      FirstRow(cf, dsCnt, rows, f, ra, rb, at);
    } else if at + f + rb <= |rows| {
      InnerRow(cf, dsCnt, rows, f, ra, rb, i, at);
    } else {
      LastRow(cf, dsCnt, rows, f, ra, rb, k, i, at);
    }
  }

  lemma FirstRow(cf: Cf, dsCnt: nat, rows: seq<Row>, f: nat, ra: nat, rb: nat, at: int)
    requires AllRows(dsCnt, rows) && 0 < ra < f && rb < f && Skip(ra, f) + rb <= |rows| && at == -(ra as int)
    ensures Reduced(cf, dsCnt, rows, f, ra, rb)[0] == RowFrom(cf, dsCnt, rows, f, at)
  {
  }

  lemma LastRow(cf: Cf, dsCnt: nat, rows: seq<Row>, f: nat, ra: nat, rb: nat, k: nat, i: nat, at: int)
    requires AllRows(dsCnt, rows) && ra < f && rb < f && |rows| == Skip(ra, f) + Times(k, f) + rb
    requires (ra > 0 ==> i > 0) && i < |Reduced(cf, dsCnt, rows, f, ra, rb)|
    requires at == Times(i, f) - ra && at + f + rb > |rows|
    ensures Reduced(cf, dsCnt, rows, f, ra, rb)[i] == RowFrom(cf, dsCnt, rows, f, at)
  {
    var g := if ra > 0 then i - 1 else i;
    assert at == Skip(ra, f) + Times(g, f);
    if g < k {
      TimesLe(g + 1, k, f);
      assert false;
    }
    ReducedCount(cf, dsCnt, rows, f, ra, rb, k);
    TimesLe(k, g, f);
  }

  lemma InnerRow(cf: Cf, dsCnt: nat, rows: seq<Row>, f: nat, ra: nat, rb: nat, i: nat, at: int)
    requires AllRows(dsCnt, rows) && ra < f && rb < f && (ra > 0 ==> i > 0) && at == Times(i, f) - ra
    requires Skip(ra, f) + rb <= |rows| && at + f + rb <= |rows|
    ensures i < |Reduced(cf, dsCnt, rows, f, ra, rb)|
    ensures Reduced(cf, dsCnt, rows, f, ra, rb)[i] == RowFrom(cf, dsCnt, rows, f, at)
  {
    var g := if ra > 0 then i - 1 else i;
    assert at == Skip(ra, f) + Times(g, f);
    InnerSlice(rows, Skip(ra, f), rb, Times(g, f), f);
    GroupAt(cf, dsCnt, rows[Skip(ra, f)..|rows| - rb], f, g, Times(g, f), rows[at..at + f]);
    BehindLead(cf, dsCnt, rows, f, ra, rb, i, g);
  }

  lemma BehindLead(cf: Cf, dsCnt: nat, rows: seq<Row>, f: nat, ra: nat, rb: nat, i: nat, g: nat)
    requires AllRows(dsCnt, rows) && ra < f && rb < f && Skip(ra, f) + rb <= |rows|
    requires i == if ra > 0 then g + 1 else g
    requires g < |Groups(cf, dsCnt, rows[Skip(ra, f)..|rows| - rb], f)|
    ensures i < |Reduced(cf, dsCnt, rows, f, ra, rb)|
    ensures Reduced(cf, dsCnt, rows, f, ra, rb)[i] == Groups(cf, dsCnt, rows[Skip(ra, f)..|rows| - rb], f)[g]
  {
  }

  lemma InnerSlice(rows: seq<Row>, skip: nat, rb: nat, at: nat, f: nat)
    requires skip + at + f + rb <= |rows|
    ensures rows[skip..|rows| - rb][at..at + f] == rows[skip + at..skip + at + f]
  {
    var inner := rows[skip..|rows| - rb];
    assert forall j :: 0 <= j < |inner| ==> inner[j] == rows[skip + j];
    var part := inner[at..at + f];
    assert forall j :: 0 <= j < f ==> part[j] == inner[at + j];
  }

  // ----- the buffer

  /** Sixty-four bit subtraction, and the signed reading of a word. */
  function Minus(x: nat, y: nat): nat
    requires x < WORD && y < WORD
  {
    if y <= x then x - y else x - y + WORD
  }

  function Signed(x: nat): int
    requires x < WORD
  {
    if x < WORD / 2 then x else x - WORD
  }

  lemma {:induction false} FlatAt(dsCnt: nat, rows: seq<Row>, i: nat, c: nat)
    requires AllRows(dsCnt, rows) && i < |rows| && c < dsCnt
    ensures 0 <= i * dsCnt + c < |Flat(rows)| && Flat(rows)[i * dsCnt + c] == rows[i][c]
    decreases i
  {
    if i == 0 {
      assert i * dsCnt == 0;
    } else {
      FlatAt(dsCnt, rows[1..], i - 1, c);
      assert (i - 1) * dsCnt == i * dsCnt - dsCnt;
    }
  }

  /** What the loop has in `newval`. */
  function Folded(cf: Cf, xs: seq<real>): Value {
    if xs == [] then NaN else if Averages(cf) then Num(Sum(xs)) else Consolidated(cf, xs)
  }

  /** The switch over the consolidation function. */
  function Merge(cf: Cf, newval: Value, x: real): Value {
    if newval.NaN? then Num(x)
    else if Averages(cf) then Num(newval.x + x)
    else if cf.Minimum? then Num(if newval.x < x then newval.x else x)
    else if TakesMaximum(cf) then Num(if x < newval.x then newval.x else x)
    else Num(x)
  }

  lemma FoldOne(cf: Cf, xs: seq<real>, x: real)
    ensures Folded(cf, xs + [x]) == Merge(cf, Folded(cf, xs), x)
  {
    assert (xs + [x])[..|xs|] == xs;
    if xs == [] {
      assert Sum([x]) == Sum([]) + x;
    }
  }

  /** The cells of one column of a group. */
  ghost predicate Column(cells: seq<Value>, src: nat, dsCnt: nat, group: seq<Row>, c: nat)
    requires AllRows(dsCnt, group) && c < dsCnt
  {
    forall i {:trigger group[i]} :: 0 <= i < |group| ==>
      Stands(cells, src + Times(i, dsCnt) + c, group[i][c])
  }

  ghost predicate Stands(cells: seq<Value>, at: nat, v: Value) {
    at < |cells| && cells[at] == v
  }

  method CombineCell(cf: Cf, data: array<Value>, src: nat, dsCnt: nat, col: nat, f: nat,
                     ghost group: seq<Row>, ghost cells: seq<Value>)
    returns (newval: Value)
    requires AllRows(dsCnt, group) && |group| == f && col < dsCnt && Column(cells, src, dsCnt, group, col)
    requires |cells| == data.Length && forall j :: src + col <= j < data.Length ==> data[j] == cells[j]
    ensures newval == Consolidated(cf, Known(group, col))
  {
    newval := NaN;
    var validval: nat := 0;
    ghost var known: seq<real> := [];
    for i := 0 to f
      invariant known == Known(group[..i], col) && validval == |known| && newval == Folded(cf, known)
    {
      assert group[..i + 1][..i] == group[..i];
      ghost var row := group[i];
      TimesIs(i, dsCnt);
      var v := data[src + i * dsCnt + col];
      assert v == row[col];
      if v.Num? {
        FoldOne(cf, known, v.x);
        known := known + [v.x];
        validval := validval + 1;
        newval := Merge(cf, newval, v.x);
      }
    }
    assert group[..f] == group;
    if validval == 0 {
      newval := NaN;
    } else if Averages(cf) {
      newval := Num(newval.x / validval as real);
    }
  }

  /** One row of the destination, over source cells that are not needed any more. */
  method CombineRow(cf: Cf, data: array<Value>, src: nat, dst: nat, dsCnt: nat, f: nat, ghost group: seq<Row>)
    requires AllRows(dsCnt, group) && |group| == f > 0 && dst <= src && src + dsCnt <= data.Length
    requires forall c :: 0 <= c < dsCnt ==> Column(data[..], src, dsCnt, group, c)
    modifies data
    ensures data[dst..dst + dsCnt] == Combined(cf, dsCnt, group)
    ensures forall j :: 0 <= j < dst || dst + dsCnt <= j < data.Length ==> data[j] == old(data[j])
  {
    ghost var cells, row := data[..], Combined(cf, dsCnt, group);
    for col := 0 to dsCnt
      invariant forall j :: dst <= j < dst + col ==> data[j] == row[j - dst]
      invariant forall j :: 0 <= j < dst || dst + col <= j < data.Length ==> data[j] == cells[j]
    {
      var cell := CombineCell(cf, data, src, dsCnt, col, f, group, cells);
      assert row[col] == cell;
      data[dst + col] := cell;
    }
  }

  /** A destination row of unknown values. */
  method FillRow(data: array<Value>, dst: nat, dsCnt: nat)
    requires dst + dsCnt <= data.Length
    modifies data
    ensures data[dst..dst + dsCnt] == Unknown(dsCnt)
    ensures forall j :: 0 <= j < dst || dst + dsCnt <= j < data.Length ==> data[j] == old(data[j])
  {
    for col := 0 to dsCnt
      invariant forall j :: dst <= j < dst + col ==> data[j] == NaN
      invariant forall j :: 0 <= j < dst || dst + dsCnt <= j < data.Length ==> data[j] == old(data[j])
    {
      data[dst + col] := NaN;
    }
  }

  lemma ColumnOfFlat(cells: seq<Value>, src: nat, dsCnt: nat, rest: seq<Row>, f: nat, c: nat)
    requires AllRows(dsCnt, rest) && f <= |rest| && c < dsCnt && src + |Flat(rest)| <= |cells|
    requires cells[src..src + |Flat(rest)|] == Flat(rest)
    ensures Column(cells, src, dsCnt, rest[..f], c)
  {
    var group := rest[..f];
    forall i {:trigger group[i]} | 0 <= i < |group|
      ensures Stands(cells, src + Times(i, dsCnt) + c, group[i][c])
    {
      CellOfFlat(cells, src, dsCnt, rest, i, c);
    }
  }

  lemma CellOfFlat(cells: seq<Value>, src: nat, dsCnt: nat, rest: seq<Row>, i: nat, c: nat)
    requires AllRows(dsCnt, rest) && i < |rest| && c < dsCnt && src + |Flat(rest)| <= |cells|
    requires cells[src..src + |Flat(rest)|] == Flat(rest)
    ensures Stands(cells, src + Times(i, dsCnt) + c, rest[i][c])
  {
    TimesIs(i, dsCnt);
    FlatAt(dsCnt, rest, i, c);
    var k := Times(i, dsCnt) + c;
    assert cells[src..src + |Flat(rest)|][k] == cells[src + k];
  }

  lemma FlatSplit(dsCnt: nat, rows: seq<Row>, f: nat)
    requires AllRows(dsCnt, rows) && f <= |rows|
    ensures Flat(rows) == Flat(rows[..f]) + Flat(rows[f..])
    ensures |Flat(rows[..f])| == dsCnt * f
  {
    assert rows == rows[..f] + rows[f..];
    FlatAppend(rows[..f], rows[f..]);
    FlatLength(dsCnt, rows[..f]);
  }

  lemma FlatOneMore(rows: seq<Row>, row: Row)
    ensures Flat(rows + [row]) == Flat(rows) + row
  {
    FlatAppend(rows, [row]);
    assert Flat([row]) == row + Flat([row][1..]);
  }

  /** Combines and moves on: the cells behind the destination row and behind the
      group stay as they are. */
  method CombineNext(cf: Cf, data: array<Value>, src: nat, dst: nat, dsCnt: nat, f: nat,
                     ghost done: seq<Value>, ghost at: nat, ghost rest: seq<Row>)
    returns (nextSrc: nat, nextDst: nat)
    requires AllRows(dsCnt, rest) && 0 < f <= |rest| && at + |done| == dst <= src
    requires src + |Flat(rest)| <= data.Length
    requires data[at..dst] == done && data[src..src + |Flat(rest)|] == Flat(rest)
    modifies data
    ensures dst <= nextDst <= nextSrc && nextSrc + |Flat(rest[f..])| == src + |Flat(rest)|
    ensures data[at..nextDst] == done + Combined(cf, dsCnt, rest[..f])
    ensures data[nextSrc..src + |Flat(rest)|] == Flat(rest[f..])
    ensures forall j :: 0 <= j < at || src + |Flat(rest)| <= j < data.Length ==> data[j] == old(data[j])
  {
    FlatSplit(dsCnt, rest, f);
    MulLe(1, f, dsCnt);
    nextSrc, nextDst := src + dsCnt * f, dst + dsCnt;
    ghost var cells, mid, end := data[..], nextSrc, src + |Flat(rest)|;
    forall c | 0 <= c < dsCnt
      ensures Column(cells, src, dsCnt, rest[..f], c)
    {
      ColumnOfFlat(cells, src, dsCnt, rest, f, c);
    }
    CombineRow(cf, data, src, dst, dsCnt, f, rest[..f]);
    Moved(cells, data[..], at, dst, nextDst, mid, end);
    Tail(cells, src, end, mid, Flat(rest[..f]), Flat(rest[f..]));
  }

  /** What changes only between `dst` and `nextDst` keeps its parts elsewhere. */
  lemma Moved(cells: seq<Value>, now: seq<Value>, at: nat, dst: nat, nextDst: nat, mid: nat, end: nat)
    requires at <= dst <= nextDst <= mid <= end <= |cells| == |now|
    requires forall j :: 0 <= j < dst || nextDst <= j < |now| ==> now[j] == cells[j]
    ensures now[at..nextDst] == cells[at..dst] + now[dst..nextDst]
    ensures now[mid..end] == cells[mid..end]
  {
    assert now[at..dst] == cells[at..dst];
  }

  lemma Tail(cells: seq<Value>, src: nat, end: nat, mid: nat, a: seq<Value>, b: seq<Value>)
    requires src <= mid <= end <= |cells| && cells[src..end] == a + b && mid == src + |a|
    ensures cells[mid..end] == b
  {
    assert cells[mid..end] == cells[src..end][|a|..];
  }

  lemma GroupsStep(cf: Cf, dsCnt: nat, done: seq<Row>, rest: seq<Row>, f: nat)
    requires AllRows(dsCnt, rest) && 0 < f
    ensures |rest| < f ==> done + Groups(cf, dsCnt, rest, f) == done
    ensures |rest| >= f ==>
              done + Groups(cf, dsCnt, rest, f)
              == (done + [Combined(cf, dsCnt, rest[..f])]) + Groups(cf, dsCnt, rest[f..], f)
  {
    if |rest| >= f {
      var row, more := Combined(cf, dsCnt, rest[..f]), Groups(cf, dsCnt, rest[f..], f);
      assert done + ([row] + more) == done + [row] + more;
    }
  }

  /** The loop over the groups. `count` is a word: a count that wrapped around
      reads as negative and combines nothing. */
  method CombineRows(cf: Cf, data: array<Value>, from: nat, to: nat, dsCnt: nat, f: nat, count: nat,
                     ghost rows: seq<Row>)
    returns (dst: nat)
    requires AllRows(dsCnt, rows) && 0 < f < WORD / 2 && to <= from && count < WORD
    requires if Signed(count) >= 0 then |rows| == count else rows == []
    requires from + |Flat(rows)| <= data.Length && data[from..from + |Flat(rows)|] == Flat(rows)
    modifies data
    ensures to <= dst <= from + |Flat(rows)|
    ensures data[to..dst] == Flat(Groups(cf, dsCnt, rows, f))
    ensures forall j :: 0 <= j < to || from + |Flat(rows)| <= j < data.Length ==> data[j] == old(data[j])
  {
    dst := to;
    var src: nat, rowCnt: nat := from, count;
    ghost var done: seq<Row>, rest, all, end := [], rows, Groups(cf, dsCnt, rows, f), from + |Flat(rows)|;
    while Signed(rowCnt) >= f
      invariant AllRows(dsCnt, rest) && rowCnt < WORD
      invariant if Signed(rowCnt) >= 0 then |rest| == rowCnt else rest == []
      invariant all == done + Groups(cf, dsCnt, rest, f)
      invariant to <= dst <= src && src + |Flat(rest)| == end
      invariant data[to..dst] == Flat(done) && data[src..end] == Flat(rest)
      invariant forall j :: 0 <= j < to || end <= j < data.Length ==> data[j] == old(data[j])
      decreases |rest|
    {
      GroupsStep(cf, dsCnt, done, rest, f);
      FlatOneMore(done, Combined(cf, dsCnt, rest[..f]));
      src, dst := CombineNext(cf, data, src, dst, dsCnt, f, Flat(done), to, rest);
      done, rest := done + [Combined(cf, dsCnt, rest[..f])], rest[f..];
      rowCnt := Minus(rowCnt, f);
    }
    GroupsStep(cf, dsCnt, done, rest, f);
  }

  // ----- the whole operation

  /** How many source rows make a row of the wanted step. */
  function Factor(step: nat, curStep: nat): (f: int)
    requires step > 0 && curStep > 0
    ensures f > 0
  {
    RoundsUp(step, curStep);
    (step + curStep - 1) / curStep
  }

  /** It rounds up. */
  lemma RoundsUp(step: nat, curStep: nat)
    requires step > 0 && curStep > 0
    ensures var f := (step + curStep - 1) / curStep; f > 0 && (f - 1) * curStep < step <= f * curStep
  {
    var f, r := (step + curStep - 1) / curStep, (step + curStep - 1) % curStep;
    assert step + curStep - 1 == f * curStep + r;
    MulDiff(f, 1, curStep);
    if f <= 0 {
      MulLe(f, 0, curStep);
    }
  }

  lemma ScaleMod(a: nat, f: nat, cs: nat)
    requires f > 0 && cs > 0
    ensures cs * f > 0 && (a * cs) % (cs * f) == (a % f) * cs && (a % f) * cs / cs == a % f
    ensures (a % f) * cs == 0 <==> a % f == 0
  {
    var q, r := a / f, a % f;
    Later(a, a, f);
    assert a * cs == q * f * cs + r * cs by {
      MulDiff(q * f, -r, cs);
    }
    assert q * f * cs == q * (cs * f);
    MulLe(r + 1, f, cs);
    MulDiff(r, -1, cs);
    MulLe(0, r, cs);
    MulLe(1, f, cs);
    assert cs * f == f * cs;
    Quotient(a * cs, cs * f, q, r * cs);
    Quotient(r * cs, cs, r, 0);
    if r > 0 {
      MulLe(1, r, cs);
    }
  }

  /** The rows left to combine, as the word that the code computes. */
  function Remaining(n: nat, ra: nat, rb: nat, f: nat): (w: nat)
    requires n < WORD && ra < f < WORD && rb < f
    ensures w < WORD
  {
    Minus(if ra > 0 then Minus(n, f - ra) else n, rb)
  }

  /** They are the whole groups, unless no multiple of the new step lies between
      the ends: then the count wraps around to minus one group. */
  lemma RemainingRows(a: nat, b: nat, f: nat) returns (k: nat)
    requires a < b < WORD / 2 && 0 < f < WORD / 2
    ensures Crosses(a, b, f) ==>
              && b - a == Skip(a % f, f) + Times(k, f) + b % f
              && Remaining(b - a, a % f, b % f, f) == Times(k, f) < WORD / 2
              && Remaining(b - a, a % f, b % f, f) % f == 0
    ensures !Crosses(a, b, f) ==>
              && a % f > 0 && b % f > 0 && b - a < f
              && Remaining(b - a, a % f, b % f, f) == WORD - f
              && Remaining(b - a, a % f, b % f, f) % f == WORD % f
  {
    k := 0;
    if Crosses(a, b, f) {
      k := CrossingFits(a, b, f);
      TimesIs(k, f);
      Quotient(k * f, f, k, 0);
    } else {
      Later(a, b, f);
      assert b - a == b % f - a % f;
      var q, r := WORD / f, WORD % f;
      Later(WORD, WORD, f);
      MulDiff(q, 1, f);
      Quotient(WORD - f, f, q - 1, r);
    }
  }

  /** The rows between those skipped in front and those cut off at the end. */
  lemma InnerFlat(dsCnt: nat, rows: seq<Row>, skip: nat, rb: nat)
    requires AllRows(dsCnt, rows) && skip + rb <= |rows|
    ensures var front, inner := Flat(rows[..skip]), Flat(rows[skip..|rows| - rb]);
            && |front| == dsCnt * skip >= 0
            && |front| + |inner| + (if rb > 0 then dsCnt else 0) <= |Flat(rows)|
            && Flat(rows)[|front|..|front| + |inner|] == inner
  {
    var front, inner, end := rows[..skip], rows[skip..|rows| - rb], rows[|rows| - rb..];
    assert rows == front + (inner + end);
    FlatAppend(front, inner + end);
    FlatAppend(inner, end);
    FlatLength(dsCnt, end);
    FlatLength(dsCnt, front);
    if rb > 0 {
      MulLe(1, rb, dsCnt);
    }
  }

  datatype Result =
    | SanityCheck
    | Adjusted(start: nat, end: nat, step: nat, cells: nat)

  /** The cells after the start and the end have been moved. */
  ghost predicate Holds(data: array<Value>, s: seq<Value>)
    reads data
  {
    |s| <= data.Length && data[..|s|] == s
  }

  /** The groups, behind the cells that are written already. */
  method RewriteGroups(cf: Cf, data: array<Value>, dsCnt: nat, f: nat, src: nat, dst: nat, count: nat,
                       ghost lead: seq<Row>, ghost inner: seq<Row>)
    returns (cells: nat)
    requires AllRows(dsCnt, inner) && 0 < f < WORD / 2 && count < WORD && Signed(count) == |inner| && dst <= src
    requires src + |Flat(inner)| <= data.Length && data[src..src + |Flat(inner)|] == Flat(inner)
    requires dst == |Flat(lead)| && Holds(data, Flat(lead))
    modifies data
    ensures var out := Flat(lead + Groups(cf, dsCnt, inner, f));
            Holds(data, out) && cells == |out| <= src + |Flat(inner)|
    ensures forall j :: src + |Flat(inner)| <= j < data.Length ==> data[j] == old(data[j])
  {
    ghost var before := data[..];
    cells := CombineRows(cf, data, src, dst, dsCnt, f, count, inner);
    FlatAppend(lead, Groups(cf, dsCnt, inner, f));
    assert data[..dst] == before[..dst];
    assert data[..cells] == data[..dst] + data[dst..cells];
  }

  /** One more unknown row. */
  method AddUnknown(data: array<Value>, cells: nat, dsCnt: nat, ghost rows: seq<Row>)
    requires cells == |Flat(rows)| && Holds(data, Flat(rows)) && cells + dsCnt <= data.Length
    modifies data
    ensures |Flat(rows + [Unknown(dsCnt)])| == cells + dsCnt && Holds(data, Flat(rows + [Unknown(dsCnt)]))
    ensures forall j :: cells + dsCnt <= j < data.Length ==> data[j] == old(data[j])
  {
    ghost var before := data[..];
    FillRow(data, cells, dsCnt);
    FlatOneMore(rows, Unknown(dsCnt));
    assert data[..cells] == before[..cells];
    assert data[..cells + dsCnt] == data[..cells] + data[cells..cells + dsCnt];
  }

  function Lead(dsCnt: nat, skip: nat): seq<Row> {
    if skip > 0 then [Unknown(dsCnt)] else []
  }

  /** The unknown row in front, over skipped source cells. */
  method PutLead(data: array<Value>, dsCnt: nat, skip: nat, src: nat, ghost inner: seq<Value>) returns (dst: nat)
    requires src == dsCnt * skip && src + |inner| <= data.Length && data[src..src + |inner|] == inner
    modifies data
    ensures dst == |Flat(Lead(dsCnt, skip))| <= src && Holds(data, Flat(Lead(dsCnt, skip)))
    ensures data[src..src + |inner|] == inner
    ensures forall j :: src + |inner| <= j < data.Length ==> data[j] == old(data[j])
  {
    dst := 0;
    if skip > 0 {
      ghost var before := data[..];
      MulLe(1, skip, dsCnt);
      AddUnknown(data, 0, dsCnt, []);
      assert [] + [Unknown(dsCnt)] == Lead(dsCnt, skip);
      dst := dsCnt;
      assert data[src..src + |inner|] == before[src..src + |inner|];
    }
  }

  lemma FlatInside(data: array<Value>, all: seq<Value>, src: nat, inner: seq<Value>)
    requires Holds(data, all) && src + |inner| <= |all| && all[src..src + |inner|] == inner
    ensures data[src..src + |inner|] == inner
  {
    assert data[src..src + |inner|] == all[src..src + |inner|];
  }

  /** An unknown row if the start was moved, the groups, and an unknown row if the
      end was moved. */
  method Rewrite(cf: Cf, data: array<Value>, dsCnt: nat, f: nat, skip: nat, count: nat, trail: bool,
                 ghost rows: seq<Row>, ghost rb: nat)
    returns (cells: nat)
    requires AllRows(dsCnt, rows) && skip < f < WORD / 2 && rb < f && trail == (rb > 0) && count < WORD
    requires skip + rb <= |rows| && Signed(count) == |rows| - skip - rb
    requires Holds(data, Flat(rows))
    modifies data
    ensures var out := Flat(Reduced(cf, dsCnt, rows, f, if skip > 0 then f - skip else 0, rb));
            Holds(data, out) && cells == |out| <= |Flat(rows)|
    ensures forall j :: |Flat(rows)| <= j < data.Length ==> data[j] == old(data[j])
  {
    ghost var inner := rows[skip..|rows| - rb];
    ghost var body := Lead(dsCnt, skip) + Groups(cf, dsCnt, inner, f);
    ReducedParts(cf, dsCnt, rows, f, skip, rb);
    InnerFlat(dsCnt, rows, skip, rb);
    var src := dsCnt * skip;
    FlatInside(data, Flat(rows), src, Flat(inner));
    var dst := PutLead(data, dsCnt, skip, src, Flat(inner));
    cells := RewriteGroups(cf, data, dsCnt, f, src, dst, count, Lead(dsCnt, skip), inner);
    if trail {
      AddUnknown(data, cells, dsCnt, body);
      cells := cells + dsCnt;
    }
  }

  lemma ReducedParts(cf: Cf, dsCnt: nat, rows: seq<Row>, f: nat, skip: nat, rb: nat)
    requires AllRows(dsCnt, rows) && skip < f && rb < f && skip + rb <= |rows|
    ensures var body := Lead(dsCnt, skip) + Groups(cf, dsCnt, rows[skip..|rows| - rb], f);
            Reduced(cf, dsCnt, rows, f, if skip > 0 then f - skip else 0, rb)
            == if rb > 0 then body + [Unknown(dsCnt)] else body
  {
    var body := Lead(dsCnt, skip) + Groups(cf, dsCnt, rows[skip..|rows| - rb], f);
    assert body + [] == body;
  }

  /** Both edge rows and nothing between: the loop over the groups reads the
      wrapped count as negative. */
  method RewriteEdges(data: array<Value>, dsCnt: nat) returns (cells: nat)
    requires 2 * dsCnt <= data.Length
    modifies data
    ensures Holds(data, Flat([Unknown(dsCnt), Unknown(dsCnt)])) && cells == 2 * dsCnt
  {
    AddUnknown(data, 0, dsCnt, []);
    assert [] + [Unknown(dsCnt)] == [Unknown(dsCnt)];
    AddUnknown(data, dsCnt, dsCnt, [Unknown(dsCnt)]);
    assert [Unknown(dsCnt)] + [Unknown(dsCnt)] == [Unknown(dsCnt), Unknown(dsCnt)];
    cells := 2 * dsCnt;
  }

  /** How far a time lies behind a multiple of the new step. */
  lemma OffsetFacts(x: nat, t: nat, f: nat, cs: nat, step: nat) returns (r: nat, down: nat, up: nat)
    requires f > 0 && cs > 0 && t == x * cs && step == cs * f
    ensures step > 0 && r == x % f < f && down == (x - x % f) * cs && up == (x - x % f + f) * cs
    ensures t % step / cs == r && (t % step == 0 <==> r == 0)
    ensures t - t % step == down && t - t % step + step == up
  {
    r, down, up := x % f, (x - x % f) * cs, (x - x % f + f) * cs;
    ScaleMod(x, f, cs);
    MulDiff(x, r, cs);
    MulDiff(x - r, -(f as int), cs);
  }

  method AlignStart(curStep: nat, f: nat, step: nat, start: nat, rowCnt: nat, ghost r: nat, ghost down: nat)
    returns (newStart: nat, newCnt: nat, skip: nat)
    requires curStep > 0 && step > 0 && r < f < WORD / 2 && rowCnt < WORD
    requires start % step / curStep == r && (start % step == 0 <==> r == 0) && start - start % step == down
    ensures newStart == down && skip == Skip(r, f) && newCnt < WORD
    ensures newCnt == if r > 0 then Minus(rowCnt, f - r) else rowCnt
  {
    newStart, newCnt, skip := start, rowCnt, 0;
    var startOffset := start % step;
    if startOffset > 0 {
      newStart := start - startOffset;
      skip := f - startOffset / curStep;
      newCnt := Minus(rowCnt, skip);
    }
  }

  method AlignEnd(curStep: nat, f: nat, step: nat, end: nat, rowCnt: nat, ghost r: nat, ghost up: nat)
    returns (newEnd: nat, newCnt: nat, cut: nat)
    requires curStep > 0 && step > 0 && r < f < WORD / 2 && rowCnt < WORD
    requires end % step / curStep == r && (end % step == 0 <==> r == 0) && end - end % step + step == up
    ensures newEnd == (if r > 0 then up else end) && cut == r && newCnt == Minus(rowCnt, r)
  {
    newEnd, newCnt, cut := end, rowCnt, 0;
    var endOffset := end % step;
    if endOffset > 0 {
      newEnd := end - endOffset + step;
      cut := endOffset / curStep;
      newCnt := Minus(rowCnt, cut);
    }
  }

  /** The ends moved to multiples of the new step, and the rows left to combine. */
  method Align(curStep: nat, f: nat, start: nat, end: nat, ghost a: nat, ghost b: nat)
    returns (newStart: nat, newEnd: nat, rowCnt: nat, skip: nat, cut: nat)
    requires curStep > 0 && 0 < f < WORD / 2 && start == a * curStep && end == b * curStep && a < b < WORD / 2
    ensures newStart == (a - a % f) * curStep && newEnd == (if b % f > 0 then b - b % f + f else b) * curStep
    ensures skip == Skip(a % f, f) && cut == b % f && rowCnt == Remaining(b - a, a % f, b % f, f)
  {
    var step := curStep * f;
    ghost var ra, downA, upA := OffsetFacts(a, start, f, curStep, step);
    ghost var rb, downB, upB := OffsetFacts(b, end, f, curStep, step);
    RowsBetween(curStep, a, b);
    rowCnt := (end - start) / curStep;
    newStart, rowCnt, skip := AlignStart(curStep, f, step, start, rowCnt, ra, downA);
    newEnd, rowCnt, cut := AlignEnd(curStep, f, step, end, rowCnt, rb, upB);
  }

  /** The new ends enclose a whole number of new steps. */
  lemma Spans(cs: nat, f: nat, lo: nat, hi: nat, n: nat)
    requires hi - lo == n * f
    ensures hi * cs - lo * cs == n * (cs * f)
  {
    MulDiff(hi, lo, cs);
    assert n * f * cs == n * (cs * f);
  }

  lemma RowsBetween(cs: nat, a: nat, b: nat)
    requires cs > 0 && a < b
    ensures b * cs >= a * cs && (b * cs - a * cs) / cs == b - a
  {
    MulDiff(b, a, cs);
    MulLe(a, b, cs);
    Quotient(b * cs - a * cs, cs, b - a, 0);
  }

  lemma NewCount(cf: Cf, dsCnt: nat, rows: seq<Row>, cs: nat, f: nat, lo: nat, hi: nat, ra: nat, rb: nat, k: nat)
    requires ra < f && rb < f && AllRows(dsCnt, rows) && |rows| == Skip(ra, f) + Times(k, f) + rb
    requires hi - lo == ra + |rows| + (if rb > 0 then f - rb else 0)
    ensures var out := Reduced(cf, dsCnt, rows, f, ra, rb);
            |out| <= |rows| && |Flat(out)| == dsCnt * |out| && hi * cs - lo * cs == |out| * (cs * f)
  {
    var out := Reduced(cf, dsCnt, rows, f, ra, rb);
    ReducedCount(cf, dsCnt, rows, f, ra, rb, k);
    TimesIs(|out|, f);
    Spans(cs, f, lo, hi, |out|);
    FlatLength(dsCnt, out);
  }

  lemma EdgeCount(cs: nat, f: nat, a: nat, b: nat)
    requires cs > 0 && f > 0 && a < b && !Crosses(a, b, f)
    ensures b % f > 0 && (b - b % f + f) * cs - (a - a % f) * cs == cs * f
  {
    Later(a, b, f);
    Spans(cs, f, a - a % f, b - b % f + f, 1);
  }

  /** reduce_data on rows that begin behind `a` and end at `b` steps: unless no
      multiple of the new step lies between the ends, the buffer holds the reduced
      rows, one for each interval between the new ends, and nothing behind the
      source rows is touched. Otherwise the sanity check fires, except if the new
      step divides the range of a word: then the buffer holds two unknown rows. */
  method ReduceData(cf: Cf, curStep: nat, start: nat, end: nat, step: nat, dsCnt: nat, data: array<Value>,
                    ghost rows: seq<Row>, ghost a: nat, ghost b: nat)
    returns (r: Result)
    requires curStep > 0 && step > 0 && Factor(step, curStep) < INT_LIMIT
    requires start == a * curStep && end == b * curStep && a < b < WORD / 2
    requires AllRows(dsCnt, rows) && |rows| == b - a
    requires |Flat(rows)| + dsCnt <= data.Length && Holds(data, Flat(rows))
    modifies data
    ensures var f := Factor(step, curStep);
            && (r.SanityCheck? <==> !Crosses(a, b, f) && WORD % f != 0)
            && (r.Adjusted? ==>
                  && r.step == curStep * f
                  && r.start == (a - a % f) * curStep
                  && r.end == (if b % f > 0 then b - b % f + f else b) * curStep)
    ensures var f := Factor(step, curStep);
            Crosses(a, b, f) ==>
              && Skip(a % f, f) + b % f <= |rows|
              && (var out := Reduced(cf, dsCnt, rows, f, a % f, b % f);
                  && Holds(data, Flat(out)) && r.cells == |Flat(out)| == dsCnt * |out|
                  && r.end - r.start == |out| * r.step && |out| <= |rows|)
              && (forall j :: |Flat(rows)| <= j < data.Length ==> data[j] == old(data[j]))
    ensures r.Adjusted? && !Crosses(a, b, Factor(step, curStep)) ==>
              && Holds(data, Flat([Unknown(dsCnt), Unknown(dsCnt)])) && r.cells == 2 * dsCnt
              && r.end - r.start == r.step
  {
    var f := Factor(step, curStep);
    var newStart, newEnd, rowCnt, skip, cut := Align(curStep, f, start, end, a, b);
    ghost var k := RemainingRows(a, b, f);
    if rowCnt % f != 0 {
      return SanityCheck;
    }
    var cells := Rebuild(cf, data, dsCnt, f, skip, rowCnt, cut, rows, k, a % f, Crosses(a, b, f));
    r := Adjusted(newStart, newEnd, curStep * f, cells);
    Summary(cf, dsCnt, rows, curStep, f, a, b, k, newStart, newEnd, curStep * f);
  }

  lemma Summary(cf: Cf, dsCnt: nat, rows: seq<Row>, cs: nat, f: nat, a: nat, b: nat, k: nat,
                start: nat, end: nat, step: nat)
    requires cs > 0 && f > 0 && a < b && AllRows(dsCnt, rows) && |rows| == b - a && step == cs * f
    requires start == (a - a % f) * cs && end == (if b % f > 0 then b - b % f + f else b) * cs
    requires Crosses(a, b, f) ==> |rows| == Skip(a % f, f) + Times(k, f) + b % f
    ensures Crosses(a, b, f) ==>
              var out := Reduced(cf, dsCnt, rows, f, a % f, b % f);
              |out| <= |rows| && |Flat(out)| == dsCnt * |out| && end - start == |out| * step
    ensures !Crosses(a, b, f) ==> end - start == step
  {
    if Crosses(a, b, f) {
      var ra, rb := a % f, b % f;
      NewCount(cf, dsCnt, rows, cs, f, a - ra, if rb > 0 then b - rb + f else b, ra, rb, k);
    } else {
      EdgeCount(cs, f, a, b);
    }
  }

  method Rebuild(cf: Cf, data: array<Value>, dsCnt: nat, f: nat, skip: nat, rowCnt: nat, cut: nat,
                 ghost rows: seq<Row>, ghost k: nat, ghost ra: nat, ghost crosses: bool)
    returns (cells: nat)
    requires AllRows(dsCnt, rows) && ra < f < WORD / 2 && cut < f && skip == Skip(ra, f) && rows != []
    requires crosses ==> |rows| == skip + Times(k, f) + cut && rowCnt == Times(k, f) < WORD / 2
    requires !crosses ==> rowCnt == WORD - f
    requires |Flat(rows)| + dsCnt <= data.Length && Holds(data, Flat(rows))
    modifies data
    ensures crosses ==>
              && (var out := Flat(Reduced(cf, dsCnt, rows, f, ra, cut));
                  Holds(data, out) && cells == |out|)
              && (forall j :: |Flat(rows)| <= j < data.Length ==> data[j] == old(data[j]))
    ensures !crosses ==> Holds(data, Flat([Unknown(dsCnt), Unknown(dsCnt)])) && cells == 2 * dsCnt
  {
    if Signed(rowCnt) < 0 {
      cells := RewriteEdges(data, dsCnt);
    } else {
      cells := Rewrite(cf, data, dsCnt, f, skip, rowCnt, cut > 0, rows, cut);
    }
  }

  /** The time a source row is stamped with, if the rows begin behind `a` steps. */
  function Stamp(cs: nat, a: nat, j: nat): int {
    (a + j + 1) * cs
  }

  /** The interval of destination row i, in seconds. */
  lemma Interval(cs: nat, f: nat, a: nat, ra: nat, i: nat, at: int) returns (lo: int, hi: int)
    requires at == Times(i, f) - ra
    ensures lo == (a - ra) * cs + i * (cs * f) == (a + at) * cs
    ensures hi == lo + cs * f == (a + at + f) * cs
  {
    lo, hi := (a + at) * cs, (a + at + f) * cs;
    TimesIs(i, f);
    MulDiff(a - ra, -(i * f), cs);
    MulDiff(a + at, -(f as int), cs);
    assert i * f * cs == i * (cs * f);
  }

  /** In seconds: destination row i stands for the interval that ends at its
      stamp. If the interval lies between the old ends, the row consolidates the
      source rows whose stamps lie in the interval, and no others; a row whose
      interval was not fetched completely is unknown. */
  lemma RowByTime(cf: Cf, dsCnt: nat, rows: seq<Row>, cs: nat, f: nat, a: nat, b: nat, ra: nat, rb: nat, k: nat,
                  i: nat)
    returns (lo: int, hi: int, at: int)
    requires cs > 0 && ra < f && rb < f && ra <= a < b && AllRows(dsCnt, rows)
    requires |rows| == b - a == Skip(ra, f) + Times(k, f) + rb
    requires i < |Reduced(cf, dsCnt, rows, f, ra, rb)|
    ensures lo == (a - ra) * cs + i * (cs * f) && hi == lo + cs * f
    ensures if a * cs <= lo && hi <= b * cs then
              && 0 <= at && at + f <= |rows|
              && Reduced(cf, dsCnt, rows, f, ra, rb)[i] == Combined(cf, dsCnt, rows[at..at + f])
            else Reduced(cf, dsCnt, rows, f, ra, rb)[i] == Unknown(dsCnt)
    ensures forall j: nat {:trigger Stamp(cs, a, j)} :: at <= j < at + f <==> lo < Stamp(cs, a, j) <= hi
  {
    at := Times(i, f) - ra;
    lo, hi := Interval(cs, f, a, ra, i, at);
    assert (a * cs <= lo <==> 0 <= at) && (hi <= b * cs <==> at + f <= |rows|) by {
      MulLess(a + at, a, cs);
      MulLess(b, a + at + f, cs);
    }
    Window(cs, f, a, at, lo, hi);
    ReducedRow(cf, dsCnt, rows, f, ra, rb, k, i, at);
  }

  lemma Window(cs: nat, f: nat, a: nat, at: int, lo: int, hi: int)
    requires cs > 0 && lo == (a + at) * cs && hi == (a + at + f) * cs
    ensures forall j: nat {:trigger Stamp(cs, a, j)} :: at <= j < at + f <==> lo < Stamp(cs, a, j) <= hi
  {
    forall j: nat {:trigger Stamp(cs, a, j)}
      ensures at <= j < at + f <==> lo < Stamp(cs, a, j) <= hi
    {
      MulLess(a + at, a + j + 1, cs);
      MulLess(a + at + f, a + j + 1, cs);
    }
  }

  /** Rows fetched in steps of five minutes from 00:05 to 00:10, to be reduced to
      steps of fifteen minutes: no multiple of the new step lies between the
      ends, and the sanity check ends the program. */
  lemma SanityCheckFires()
    ensures Factor(900, 300) == 3 && !Crosses(1, 2, 3)
    ensures WORD == 18446744073709551616 && WORD % 3 == 1
  {
  }
}
