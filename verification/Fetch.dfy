/** rrd_fetch_fn: the archive that suits a request best, the aligned time range, and
    the rows read from the ring. */
module Fetch {
  import opened Archive
  import opened Arithmetic
  import opened DumpRestore

  /** What the header says of an archive: consolidation function, primary points
      per row and rows. */
  datatype RraDef = RraDef(cf: string, pdpCnt: nat, rowCnt: nat)

  // ----- the choice of the archive

  /** The start of the time that an archive covers. */
  function CoveredFrom(lastUp: nat, pdpStep: nat, d: RraDef): int
    requires d.pdpCnt * pdpStep > 0
  {
    LastRow(lastUp, d.pdpCnt * pdpStep) - d.pdpCnt * d.rowCnt * pdpStep
  }

  function Distance(a: int, b: int): nat {
    if a < b then b - a else a - b
  }

  ghost predicate AllPositive(pdpStep: nat, defs: seq<RraDef>) {
    forall i :: 0 <= i < |defs| ==> defs[i].pdpCnt * pdpStep > 0
  }

  /** The archive has the wanted function and reaches back to the start. */
  predicate Full(lastUp: nat, pdpStep: nat, d: RraDef, cf: string, start: nat)
    requires d.pdpCnt * pdpStep > 0
  {
    d.cf == cf && CoveredFrom(lastUp, pdpStep, d) <= start
  }

  /** How much of the range the archive covers if it does not reach back. */
  function Match(lastUp: nat, pdpStep: nat, d: RraDef, start: nat, end: nat): int
    requires d.pdpCnt * pdpStep > 0
  {
    end - start - (CoveredFrom(lastUp, pdpStep, d) - start)
  }

  /** Archive i is no worse a choice than archive j. */
  predicate NoWorse(lastUp: nat, pdpStep: nat, a: RraDef, b: RraDef, cf: string, start: nat, end: nat, step: nat)
    requires a.pdpCnt * pdpStep > 0 && b.pdpCnt * pdpStep > 0
  {
    var da, db := Distance(step, pdpStep * a.pdpCnt), Distance(step, pdpStep * b.pdpCnt);
    var ma, mb := Match(lastUp, pdpStep, a, start, end), Match(lastUp, pdpStep, b, start, end);
    if Full(lastUp, pdpStep, a, cf, start) then Full(lastUp, pdpStep, b, cf, start) ==> da <= db
    else !Full(lastUp, pdpStep, b, cf, start) && (ma > mb || (ma == mb && da <= db))
  }

  /** It reaches back one step behind the stamp of its oldest row. */
  lemma CoveredFromOldest(lastUp: nat, pdpStep: nat, d: RraDef)
    requires d.pdpCnt * pdpStep > 0
    ensures CoveredFrom(lastUp, pdpStep, d)
         == RowTime(lastUp, d.pdpCnt * pdpStep, d.rowCnt, 0) - d.pdpCnt * pdpStep
  {
    var step, n := d.pdpCnt * pdpStep, d.rowCnt;
    assert d.pdpCnt * n * pdpStep == n * step;
    MulDiff(0, n - 1, step);
    MulDiff(n, 1, step);
  }

  lemma DistanceIs(a: int, b: int)
    ensures Distance(a, b) == Distance(b, a) && (Distance(a, b) == 0 <==> a == b)
    ensures a + Distance(a, b) == b || b + Distance(a, b) == a
  {
  }

  /** What makes an archive the better choice, by the stamps of the oldest rows, the
      requested start and the steps. */
  lemma NoWorseMeans(lastUp: nat, pdpStep: nat, a: RraDef, b: RraDef, cf: string, start: nat, end: nat, step: nat,
                     stepA: nat, stepB: nat)
    requires stepA == a.pdpCnt * pdpStep > 0 && stepB == b.pdpCnt * pdpStep > 0 && a.cf == b.cf == cf
    ensures var fromA := RowTime(lastUp, stepA, a.rowCnt, 0) - stepA;
            var fromB := RowTime(lastUp, stepB, b.rowCnt, 0) - stepB;
            var nearer := Distance(step, stepA) <= Distance(step, stepB);
            NoWorse(lastUp, pdpStep, a, b, cf, start, end, step)
            <==> || (fromA <= start && fromB > start)
                 || (fromA <= start && fromB <= start && nearer)
                 || (fromA > start && fromB > start && (fromA < fromB || (fromA == fromB && nearer)))
  {
    CoveredFromOldest(lastUp, pdpStep, a);
    CoveredFromOldest(lastUp, pdpStep, b);
    assert pdpStep * a.pdpCnt == stepA && pdpStep * b.pdpCnt == stepB;
  }

  datatype Choice = NoMatch | Chosen(rra: nat)

  /** The chosen archive has the wanted function and no other archive that has it
      is a better choice: reaching back to the start counts first; then, among
      archives that do, the distance from the wanted step, and among archives that
      do not, the time covered and then that distance. */
  method Choose(lastUp: nat, pdpStep: nat, defs: seq<RraDef>, cf: string, start: nat, end: nat, step: nat)
    returns (c: Choice)
    requires AllPositive(pdpStep, defs)
    ensures c.NoMatch? <==> forall i :: 0 <= i < |defs| ==> defs[i].cf != cf
    ensures c.Chosen? ==> c.rra < |defs| && defs[c.rra].cf == cf
    ensures c.Chosen? ==> forall i :: 0 <= i < |defs| && defs[i].cf == cf ==>
              NoWorse(lastUp, pdpStep, defs[c.rra], defs[i], cf, start, end, step)
  {
    var bestFullRra, bestPartRra := 0, 0;
    var bestFullStepDiff, bestPartStepDiff, bestMatch := 0, 0, 0;
    var firstFull, firstPart := true, true;
    for i := 0 to |defs|
      invariant firstFull <==> forall j :: 0 <= j < i ==> !Full(lastUp, pdpStep, defs[j], cf, start)
      invariant firstPart <==> forall j :: 0 <= j < i ==> defs[j].cf == cf ==> Full(lastUp, pdpStep, defs[j], cf, start)
      invariant !firstFull ==>
                  && bestFullRra < i && Full(lastUp, pdpStep, defs[bestFullRra], cf, start)
                  && bestFullStepDiff == Distance(step, pdpStep * defs[bestFullRra].pdpCnt)
                  && forall j :: 0 <= j < i && Full(lastUp, pdpStep, defs[j], cf, start) ==>
                       bestFullStepDiff <= Distance(step, pdpStep * defs[j].pdpCnt)
      invariant !firstPart ==>
                  && bestPartRra < i && defs[bestPartRra].cf == cf
                  && !Full(lastUp, pdpStep, defs[bestPartRra], cf, start)
                  && bestMatch == Match(lastUp, pdpStep, defs[bestPartRra], start, end)
                  && bestPartStepDiff == Distance(step, pdpStep * defs[bestPartRra].pdpCnt)
                  && forall j :: 0 <= j < i && defs[j].cf == cf && !Full(lastUp, pdpStep, defs[j], cf, start) ==>
                       var m := Match(lastUp, pdpStep, defs[j], start, end);
                       bestMatch > m
                       || (bestMatch == m && bestPartStepDiff <= Distance(step, pdpStep * defs[j].pdpCnt))
    {
      if defs[i].cf == cf {
        var calEnd := LastRow(lastUp, defs[i].pdpCnt * pdpStep);
        var calStart := calEnd - defs[i].pdpCnt * defs[i].rowCnt * pdpStep;
        var fullMatch := end - start;
        var tmpStepDiff := Distance(step, pdpStep * defs[i].pdpCnt);
        if calStart <= start {
          if firstFull || tmpStepDiff < bestFullStepDiff {
            firstFull := false;
            bestFullStepDiff := tmpStepDiff;
            bestFullRra := i;
          }
        } else {
          var tmpMatch := fullMatch;
          if calStart > start {
            tmpMatch := tmpMatch - (calStart - start);
          }
          if firstPart || bestMatch < tmpMatch || (bestMatch == tmpMatch && tmpStepDiff < bestPartStepDiff) {
            firstPart := false;
            bestMatch := tmpMatch;
            bestPartStepDiff := tmpStepDiff;
            bestPartRra := i;
          }
        }
      }
    }
    if !firstFull {
      c := Chosen(bestFullRra);
    } else if !firstPart {
      c := Chosen(bestPartRra);
    } else {
      c := NoMatch;
    }
  }

  // ----- the rows

  /** The row at an offset from the oldest, unknown outside the archive. */
  function RowAt(dsCnt: nat, r: Rra, i: int): Row
    requires r.curRow < |r.rows|
  {
    if 0 <= i < |r.rows| then Chron(r.rows, r.curRow)[i] else Unknown(dsCnt)
  }

  function RowsFrom(dsCnt: nat, r: Rra, from: int, n: nat): (rows: seq<Row>)
    requires r.curRow < |r.rows|
    ensures |rows| == n
  {
    seq(n, j requires 0 <= j < n => RowAt(dsCnt, r, from + j))
  }

  method CopyRow(data: array<Value>, at: nat, row: Row)
    requires at + |row| <= data.Length
    modifies data
    ensures data[..at] == old(data[..at]) && data[at..at + |row|] == row
  {
    for c := 0 to |row|
      invariant data[..at] == old(data[..at])
      invariant data[at..at + c] == row[..c]
    {
      data[at + c] := row[c];
      assert data[at..at + c + 1] == data[at..at + c] + [row[c]];
    }
    assert row[..|row|] == row;
  }

  /** One more row in the buffer. */
  method AppendRow(data: array<Value>, at: nat, row: Row, ghost rows: seq<Row>)
    requires at == |Flat(rows)| && at + |row| <= data.Length && data[..at] == Flat(rows)
    modifies data
    ensures |Flat(rows + [row])| == at + |row| && data[..at + |row|] == Flat(rows + [row])
  {
    CopyRow(data, at, row);
    FlatAppend(rows, [row]);
    assert Flat([row]) == row + Flat([row][1..]);
    assert data[..at + |row|] == data[..at] + data[at..at + |row|];
  }

  /** The row pointer belongs to the offset `i`, possibly still to be wrapped. */
  predicate Points(pointer: int, cur: nat, n: nat, i: int) {
    var k := if i < 0 then 0 else i;
    k < n ==> 0 <= pointer <= n && (pointer == cur + 1 + k || pointer == cur + 1 + k - n)
  }

  lemma PointsAtRow(r: Rra, pointer: nat, i: nat)
    requires r.curRow < |r.rows| && i < |r.rows| && Points(pointer, r.curRow, |r.rows|, i)
    ensures var p := if pointer >= |r.rows| then pointer - |r.rows| else pointer;
            && p < |r.rows| && r.rows[p] == Chron(r.rows, r.curRow)[i] && Points(p + 1, r.curRow, |r.rows|, i + 1)
  {
    Wrap(r.curRow + 1 + i, |r.rows|);
    ChronAt(r.rows, r.curRow, i);
  }

  lemma RowsFromMore(dsCnt: nat, r: Rra, from: int, n: nat)
    requires Shaped(dsCnt, r)
    ensures RowsFrom(dsCnt, r, from, n + 1) == RowsFrom(dsCnt, r, from, n) + [RowAt(dsCnt, r, from + n)]
    ensures |RowAt(dsCnt, r, from + n)| == dsCnt
  {
  }

  lemma RowsFromLength(dsCnt: nat, r: Rra, from: int, n: nat)
    requires Shaped(dsCnt, r)
    ensures |Flat(RowsFrom(dsCnt, r, from, n))| == dsCnt * n
  {
    var rows := RowsFrom(dsCnt, r, from, n);
    forall j | 0 <= j < |rows|
      ensures |rows[j]| == dsCnt
    {
      RowsFromMore(dsCnt, r, from, j);
    }
    FlatLength(dsCnt, rows);
  }

  /** Where the next ring row is read: the pointer wrapped, the file there. */
  method NextRow(dsCnt: nat, n: nat, cur: nat, base: nat, pointer: nat, pos: nat, file: seq<Value>,
                 ghost rras: seq<Rra>, ghost c: nat, ghost i: nat)
    returns (row: Row, newPointer: nat, newPos: nat)
    requires c < |rras| && Shaped(dsCnt, rras[c]) && n == |rras[c].rows| && cur == rras[c].curRow
    requires file == FlatAll(rras) && base == |FlatAll(rras[..c])|
    requires i < n && Points(pointer, cur, n, i) && AtRow(pos, base, pointer, dsCnt)
    ensures row == RowAt(dsCnt, rras[c], i)
    ensures Points(newPointer, cur, n, i + 1) && AtRow(newPos, base, newPointer, dsCnt)
  {
    newPointer, newPos := pointer, pos;
    PointsAtRow(rras[c], pointer, i);
    if newPointer >= n {
      newPointer := newPointer - n;
      newPos := base + newPointer * dsCnt;
    }
    FileRow(dsCnt, rras, c, newPointer);
    NextPos(base, newPointer, dsCnt);
    row := file[newPos..newPos + dsCnt];
    newPos := newPos + dsCnt;
    newPointer := newPointer + 1;
  }

  /** The row for the offset `i`: from the ring, or unknown outside of the archive. */
  method RowFor(dsCnt: nat, n: nat, cur: nat, base: nat, pointer: nat, pos: nat, file: seq<Value>,
                ghost rras: seq<Rra>, ghost c: nat, ghost positioned: bool, i: int)
    returns (row: Row, newPointer: nat, newPos: nat, inside: bool)
    requires c < |rras| && Shaped(dsCnt, rras[c]) && n == |rras[c].rows| && cur == rras[c].curRow
    requires file == FlatAll(rras) && base == |FlatAll(rras[..c])|
    requires if positioned then Points(pointer, cur, n, i) && (i < n ==> AtRow(pos, base, pointer, dsCnt))
             else !(0 <= i < n)
    ensures row == RowAt(dsCnt, rras[c], i) && inside == (0 <= i < n)
    ensures positioned ==> Points(newPointer, cur, n, i + 1) && (i + 1 < n ==> AtRow(newPos, base, newPointer, dsCnt))
  {
    row, newPointer, newPos := Unknown(dsCnt), pointer, pos;
    inside := 0 <= i < n;
    if inside {
      row, newPointer, newPos := NextRow(dsCnt, n, cur, base, pointer, pos, file, rras, c, i);
    }
  }

  /** The loop over the wanted rows. `ringReads` counts the rows read from the ring:
      there are none if the file was not positioned. */
  method ReadRows(dsCnt: nat, n: nat, cur: nat, startOffset: int, endOffset: int, positioned: bool,
                  base: nat, first: nat, file: seq<Value>, data: array<Value>, ghost rras: seq<Rra>, ghost c: nat)
    returns (ringReads: nat)
    requires c < |rras| && Shaped(dsCnt, rras[c]) && n == |rras[c].rows| && cur == rras[c].curRow
    requires file == FlatAll(rras) && base == |FlatAll(rras[..c])|
    requires startOffset <= n - endOffset
    requires |Flat(RowsFrom(dsCnt, rras[c], startOffset, n - endOffset - startOffset))| <= data.Length
    requires positioned ==> Points(first, cur, n, startOffset)
    requires !positioned ==> startOffset >= n || n - endOffset <= 0
    modifies data
    ensures var rows := RowsFrom(dsCnt, rras[c], startOffset, n - endOffset - startOffset);
            |Flat(rows)| <= data.Length && data[..|Flat(rows)|] == Flat(rows)
    ensures ringReads > 0 ==> positioned
  {
    var i: int, at: nat, pointer: nat := startOffset, 0, first;
    var pos := Seek(base, pointer, dsCnt);
    ringReads := 0;
    ghost var k: nat, total: nat := 0, n - endOffset - startOffset;
    ghost var rows := RowsFrom(dsCnt, rras[c], startOffset, k);
    while i < n - endOffset
      invariant i == startOffset + k && k <= total
      invariant rows == RowsFrom(dsCnt, rras[c], startOffset, k)
      invariant at == |Flat(rows)| <= data.Length && data[..at] == Flat(rows)
      invariant positioned ==> Points(pointer, cur, n, i) && (i < n ==> AtRow(pos, base, pointer, dsCnt))
      invariant ringReads > 0 ==> positioned
    {
      RowsFromMore(dsCnt, rras[c], startOffset, k);
      RowFits(dsCnt, rras[c], startOffset, k, total);
      var row: Row, inside: bool;
      row, pointer, pos, inside := RowFor(dsCnt, n, cur, base, pointer, pos, file, rras, c, positioned, i);
      if inside {
        ringReads := ringReads + 1;
      }
      AppendRow(data, at, row, rows);
      rows := rows + [row];
      at := at + dsCnt;
      i, k := i + 1, k + 1;
    }
  }

  lemma RowFits(dsCnt: nat, r: Rra, from: int, k: nat, n: nat)
    requires Shaped(dsCnt, r) && k < n
    ensures |Flat(RowsFrom(dsCnt, r, from, k))| + dsCnt <= |Flat(RowsFrom(dsCnt, r, from, n))|
  {
    RowsFromLength(dsCnt, r, from, k);
    RowsFromLength(dsCnt, r, from, n);
    MulLe(k + 1, n, dsCnt);
    MulDiff(k, -1, dsCnt);
  }

  // ----- the time range

  /** Division of signed numbers, which drops the fraction. */
  function Truncated(x: int, d: nat): int
    requires d > 0
  {
    if x >= 0 then x / d else -((-x) / d)
  }

  lemma TruncatedMultiple(q: int, d: nat)
    requires d > 0
    ensures Truncated(q * d, d) == q
  {
    if q >= 0 {
      MulLe(0, q, d);
      Exact(q, d);
    } else {
      MulLe(q + 1, 0, d);
      MulDiff(0, q, d);
      assert -(q * d) == (-q) * d;
      Exact(-q, d);
    }
  }

  method Align(start: nat, end: nat, step: nat) returns (newStart: nat, newEnd: nat, ghost s: nat, ghost e: nat)
    requires step > 0 && start <= end
    ensures Aligned(start, end, step, newStart, newEnd, s, e)
  {
    newStart := start - start % step;
    newEnd := end + (step - end % step);
    s, e := start / step, end / step + 1;
    InSteps(start, step, s);
    InSteps(end, step, e - 1);
    MulDiff(e - 1, -1, step);
    MulLess(s, e, step);
  }

  lemma InSteps(x: nat, step: nat, q: int)
    requires step > 0 && q == x / step
    ensures q >= 0 && x - x % step == q * step
  {
  }

  /** The ring row of the first offset that lies in the archive. */
  method FirstPointer(startOffset: int, n: nat, cur: nat) returns (pointer: nat)
    requires cur < n
    ensures Points(pointer, cur, n, startOffset)
  {
    pointer := if startOffset <= 0 then cur + 1 else cur + 1 + startOffset;
    if startOffset < n {
      Wrap(pointer, n);
    }
    pointer := pointer % n;
  }

  /** Where the range lies in the archive, if `last` steps had passed at the last
      update: the offsets of its ends, and the pointer of the first row to read. */
  method Place(step: nat, start: nat, end: nat, lastUp: nat, n: nat, cur: nat, ghost s: nat, ghost e: nat)
    returns (startOffset: int, endOffset: int, positioned: bool, pointer: nat)
    requires step > 0 && start == s * step && end == e * step && cur < n
    ensures var last := lastUp / step;
            && startOffset == s - last + n && endOffset == last - e
            && (positioned <==> s <= last && e >= last - n)
    ensures positioned ==> Points(pointer, cur, n, startOffset)
  {
    var rraEnd := LastRow(lastUp, step);
    var rraStart := rraEnd - step * (n - 1);
    RowTimeIs(lastUp, step, lastUp / step, 0);
    PlaceInSteps(step, s, e, lastUp / step, n);
    startOffset := Truncated(start + step - rraStart, step);
    endOffset := Truncated(rraEnd - end, step);
    positioned := start <= rraEnd && end >= rraStart - step;
    pointer := 0;
    if positioned {
      pointer := FirstPointer(startOffset, n, cur);
    }
  }

  lemma PlaceInSteps(step: nat, s: int, e: int, last: int, n: nat)
    requires step > 0 && n > 0
    ensures var rraStart := last * step - step * (n - 1);
            && Truncated(s * step + step - rraStart, step) == s - last + n
            && Truncated(last * step - e * step, step) == last - e
            && (s * step <= last * step <==> s <= last)
            && (e * step >= rraStart - step <==> e >= last - n)
  {
    var first := last * step - step * (n - 1);
    FirstInSteps(step, last, n, first);
    OffsetInSteps(step, s, last - n, s * step, first - step);
    OffsetInSteps(step, last, e, last * step, e * step);
    MulAtMost(s, last, step);
    MulAtMost(last - n, e, step);
  }

  /** The start of the archive. */
  lemma FirstInSteps(step: nat, last: int, n: nat, first: int)
    requires first == last * step - step * (n - 1)
    ensures first - step == (last - n) * step
  {
    assert step * (n - 1) == (n - 1) * step;
    MulDiff(n, 1, step);
    MulDiff(last, n, step);
  }

  lemma OffsetInSteps(step: nat, a: int, b: int, x: int, y: int)
    requires step > 0 && x == a * step && y == b * step
    ensures Truncated(x - y, step) == a - b
  {
    MulDiff(a, b, step);
    TruncatedMultiple(a - b, step);
  }

  // ----- the whole operation

  datatype Result =
    | NoArchive
    | Fetched(rra: nat, start: nat, end: nat, step: nat, rows: nat, ringReads: nat, data: array<Value>)

  /** The header agrees with the archives of the file. */
  ghost predicate Describes(defs: seq<RraDef>, rowCnt: seq<nat>) {
    |defs| == |rowCnt| && forall i :: 0 <= i < |defs| ==> defs[i].rowCnt == rowCnt[i]
  }

  /** The rows that start `s` and end `e` steps of the archive's step ask for. */
  function Wanted(dsCnt: nat, r: Rra, last: nat, s: nat, e: nat): seq<Row>
    requires r.curRow < |r.rows| && s < e
  {
    RowsFrom(dsCnt, r, s - last + |r.rows|, e - s)
  }

  /** The range moved apart to multiples of the step; the end always moves. */
  ghost predicate Aligned(start: nat, end: nat, step: nat, newStart: nat, newEnd: nat, s: nat, e: nat) {
    && newStart == s * step <= start < newStart + step
    && newEnd == e * step && newEnd - step <= end < newEnd && s < e
  }

  /** The buffer has room for one row more than the steps between the ends, and holds
      a row for each of them; the ring is read only if the range meets the archive. */
  ghost predicate Filled(dsCnt: nat, r: Rra, last: nat, s: nat, e: nat, rows: nat, ringReads: nat, data: array<Value>)
    requires r.curRow < |r.rows| && s < e
    reads data
  {
    && rows == e - s + 1 && data.Length == dsCnt * rows
    && (var wanted := Flat(Wanted(dsCnt, r, last, s, e));
        |wanted| == dsCnt * (e - s) <= data.Length && data[..|wanted|] == wanted)
    && (ringReads > 0 ==> s <= last && e >= last - |r.rows|)
  }

  method ValuesBefore(dsCnt: nat, rowCnt: seq<nat>, rra: nat) returns (base: nat)
    requires rra <= |rowCnt|
    ensures base == ValueCount(dsCnt, rowCnt[..rra])
  {
    base := 0;
    for i := 0 to rra
      invariant base == ValueCount(dsCnt, rowCnt[..i])
    {
      assert rowCnt[..i + 1][..i] == rowCnt[..i];
      base := base + dsCnt * rowCnt[i];
    }
  }

  /** The chosen archive is read: one row for every step between the aligned ends. */
  method FetchFrom(dsCnt: nat, step: nat, start: nat, end: nat, lastUp: nat, n: nat, cur: nat, base: nat,
                   file: seq<Value>, ghost rras: seq<Rra>, ghost rra: nat)
    returns (newStart: nat, newEnd: nat, rows: nat, ringReads: nat, data: array<Value>, ghost s: nat, ghost e: nat)
    requires rra < |rras| && Shaped(dsCnt, rras[rra]) && n == |rras[rra].rows| && cur == rras[rra].curRow
    requires file == FlatAll(rras) && base == |FlatAll(rras[..rra])| && step > 0 && start <= end
    ensures Aligned(start, end, step, newStart, newEnd, s, e)
    ensures Filled(dsCnt, rras[rra], lastUp / step, s, e, rows, ringReads, data)
  {
    newStart, newEnd, s, e := Align(start, end, step);
    StepsBetween(step, s, e);
    rows := (newEnd - newStart) / step + 1;
    var startOffset, endOffset, positioned, pointer := Place(step, newStart, newEnd, lastUp, n, cur, s, e);
    RoomForRows(dsCnt, e - s);
    data := new Value[dsCnt * rows];
    RowsFromLength(dsCnt, rras[rra], startOffset, e - s);
    ringReads := ReadRows(dsCnt, n, cur, startOffset, endOffset, positioned, base, pointer, file, data, rras, rra);
  }

  lemma RoomForRows(dsCnt: nat, n: nat)
    ensures 0 <= dsCnt * n <= dsCnt * (n + 1)
  {
  }

  /** rrd_fetch_fn. */
  method Fetch(dsCnt: nat, pdpStep: nat, lastUp: nat, defs: seq<RraDef>, rowCnt: seq<nat>, curRow: seq<nat>,
               file: seq<Value>, cf: string, start: nat, end: nat, step: nat, ghost rras: seq<Rra>)
    returns (r: Result, ghost s: nat, ghost e: nat)
    requires AllPositive(pdpStep, defs) && Describes(defs, rowCnt) && Encodes(dsCnt, rras, rowCnt, curRow, file)
    requires start <= end
    ensures r.NoArchive? <==> forall i :: 0 <= i < |defs| ==> defs[i].cf != cf
    ensures r.Fetched? ==>
              && r.rra < |defs| && defs[r.rra].cf == cf && r.step == pdpStep * defs[r.rra].pdpCnt > 0
              && (forall i :: 0 <= i < |defs| && defs[i].cf == cf ==>
                    NoWorse(lastUp, pdpStep, defs[r.rra], defs[i], cf, start, end, step))
    ensures r.Fetched? ==> Aligned(start, end, r.step, r.start, r.end, s, e)
    ensures r.Fetched? ==> Filled(dsCnt, rras[r.rra], lastUp / r.step, s, e, r.rows, r.ringReads, r.data)
  {
    s, e := 0, 1;
    var c := Choose(lastUp, pdpStep, defs, cf, start, end, step);
    if c.NoMatch? {
      return NoArchive, s, e;
    }
    var newStep := pdpStep * defs[c.rra].pdpCnt;
    assert newStep == defs[c.rra].pdpCnt * pdpStep;
    var base := ValuesBefore(dsCnt, rowCnt, c.rra);
    CountIsLength(dsCnt, rras[..c.rra], rowCnt[..c.rra]);
    var newStart, newEnd, rows, ringReads: nat;
    var data: array<Value>;
    newStart, newEnd, rows, ringReads, data, s, e :=
      FetchFrom(dsCnt, newStep, start, end, lastUp, defs[c.rra].rowCnt, curRow[c.rra], base, file, rras, c.rra);
    r := Fetched(c.rra, newStart, newEnd, newStep, rows, ringReads, data);
  }

  lemma StepsBetween(step: nat, s: nat, e: nat)
    requires step > 0 && s < e
    ensures (e * step - s * step) / step == e - s
  {
    MulDiff(e, s, step);
    Exact(e - s, step);
  }

  lemma StampAt(lastUp: nat, step: nat, n: nat, k: int, t: int, stamp: int)
    requires step > 0 && stamp == t * step
    ensures RowTime(lastUp, step, n, k) == stamp <==> lastUp / step + (k - (n - 1)) == t
  {
    RowTimes(lastUp, step, n, k);
    MulAtMost(lastUp / step + (k - (n - 1)), t, step);
    MulAtMost(t, lastUp / step + (k - (n - 1)), step);
  }

  /** Row j of the result is the archive row that is stamped j + 1 steps behind the
      start, and unknown if the archive has no row of that stamp. */
  lemma WantedRow(dsCnt: nat, r: Rra, lastUp: nat, step: nat, s: nat, e: nat, j: nat, stamp: int)
    requires Shaped(dsCnt, r) && step > 0 && s < e && j < e - s && stamp == (s + j + 1) * step
    ensures var dump, row := DumpOf(lastUp, step, r), Wanted(dsCnt, r, lastUp / step, s, e)[j];
            && (forall k :: 0 <= k < |dump| && dump[k].stamp == stamp ==> row == dump[k].row)
            && ((forall k :: 0 <= k < |dump| ==> dump[k].stamp != stamp) ==> row == Unknown(dsCnt))
  {
    var last, n, dump := lastUp / step, |r.rows|, DumpOf(lastUp, step, r);
    var i := s - last + n + j;
    forall k | 0 <= k < n
      ensures dump[k].stamp == stamp <==> k == i
    {
      StampAt(lastUp, step, n, k, s + j + 1, stamp);
    }
    assert Wanted(dsCnt, r, last, s, e)[j] == RowAt(dsCnt, r, i);
    if 0 <= i < n {
      assert dump[i].row == Chron(r.rows, r.curRow)[i];
    }
  }
}
