/** Restoring archives from their rows and dumping them again. */
module DumpRestore {
  import opened Archive
  import opened Arithmetic
  import Resize

  // ----- reading rows

  /** The range of a data source; a side may be unlimited. */
  datatype Limits = Limits(min: Value, max: Value)

  /** A value outside its range becomes unknown, if ranges are checked at all. */
  function InRange(check: bool, l: Limits, v: Value): Value {
    if check && v.Num? && ((l.min.Num? && v.x < l.min.x) || (l.max.Num? && v.x > l.max.x)) then NaN else v
  }

  /** Without the check every value stays; with it a known value stays exactly if the
      known limits of its source admit it, and otherwise becomes unknown. */
  lemma InRangeIs(check: bool, l: Limits, v: Value)
    ensures !check || v.NaN? ==> InRange(check, l, v) == v
    ensures check && v.Num? ==>
              if (l.min.Num? ==> l.min.x <= v.x) && (l.max.Num? ==> v.x <= l.max.x)
              then InRange(check, l, v) == v
              else InRange(check, l, v) == NaN
  {
  }

  function CheckedRow(check: bool, limits: seq<Limits>, row: Row): Row {
    seq(|row|, i requires 0 <= i < |row| => if i < |limits| then InRange(check, limits[i], row[i]) else row[i])
  }

  function Checked(check: bool, limits: seq<Limits>, rows: seq<Row>): (r: seq<Row>)
    ensures |r| == |rows|
  {
    seq(|rows|, i requires 0 <= i < |rows| => CheckedRow(check, limits, rows[i]))
  }

  function AllChecked(check: bool, limits: seq<Limits>, archives: seq<seq<Row>>): (r: seq<seq<Row>>)
    ensures |r| == |archives|
  {
    seq(|archives|, i requires 0 <= i < |archives| => Checked(check, limits, archives[i]))
  }

  ghost predicate Even(dsCnt: nat, rows: seq<Row>) {
    forall k :: 0 <= k < |rows| ==> |rows[k]| == dsCnt
  }

  /** The values of a row, each checked against the range of its data source. */
  method ParseRow(dsCnt: nat, limits: seq<Limits>, check: bool, cells: Row) returns (ok: bool, row: Row)
    requires |limits| == dsCnt
    ensures ok <==> |cells| == dsCnt
    ensures ok ==> row == CheckedRow(check, limits, cells)
    ensures ok ==> |row| == dsCnt && forall i :: 0 <= i < dsCnt ==> row[i] == InRange(check, limits[i], cells[i])
  {
    row := [];
    for i := 0 to dsCnt
      invariant |row| == i <= |cells|
      invariant forall j :: 0 <= j < i ==> row[j] == InRange(check, limits[j], cells[j])
    {
      if i >= |cells| {
        return false, row;
      }
      row := row + [InRange(check, limits[i], cells[i])];
    }
    ok := |cells| == dsCnt;
  }

  /** One database block: every row is appended behind all rows read so far. */
  method ParseDatabase(dsCnt: nat, limits: seq<Limits>, check: bool, rows: seq<Row>,
                       totalRows: nat, before: seq<Value>)
    returns (ok: bool, rowCnt: nat, values: seq<Value>)
    requires |limits| == dsCnt && |before| == dsCnt * totalRows
    ensures ok <==> Even(dsCnt, rows)
    ensures ok ==> rowCnt == |rows| && values == before + Flat(Checked(check, limits, rows))
    ensures ok ==> |values| == dsCnt * (totalRows + rowCnt)
  {
    ok, rowCnt, values := true, 0, before;
    var total := totalRows;
    ghost var done: seq<Row> := [];
    while rowCnt < |rows|
      invariant rowCnt <= |rows| && total == totalRows + rowCnt && |values| == dsCnt * total
      invariant done == Checked(check, limits, rows[..rowCnt]) && Even(dsCnt, rows[..rowCnt])
      invariant values == before + Flat(done)
    {
      var row: Row;
      ok, row := ParseRow(dsCnt, limits, check, rows[rowCnt]);
      if !ok {
        return;
      }
      NextRow(values, dsCnt, total, before, done, row);
      values := values[..dsCnt * total] + row;
      assert rows[..rowCnt + 1] == rows[..rowCnt] + [rows[rowCnt]];
      done := done + [row];
      total := total + 1;
      rowCnt := rowCnt + 1;
    }
    assert rows[..rowCnt] == rows;
  }

  lemma NextRow(values: seq<Value>, dsCnt: nat, total: nat, before: seq<Value>, done: seq<Row>, row: Row)
    requires |values| == dsCnt * total && values == before + Flat(done) && |row| == dsCnt
    ensures 0 <= dsCnt * total && values[..dsCnt * total] + row == before + Flat(done + [row])
    ensures |values| + |row| == dsCnt * (total + 1)
  {
    FlatAppend(done, [row]);
    assert Flat([row]) == row + Flat([row][1..]);
    assert values[..dsCnt * total] == values;
  }

  /** The database blocks of all archives. */
  method ParseDatabases(dsCnt: nat, limits: seq<Limits>, check: bool, archives: seq<seq<Row>>)
    returns (ok: bool, rowCnt: seq<nat>, values: seq<Value>)
    requires |limits| == dsCnt
    ensures ok <==> forall i :: 0 <= i < |archives| ==> Even(dsCnt, archives[i])
    ensures ok ==> |rowCnt| == |archives| && forall i :: 0 <= i < |archives| ==> rowCnt[i] == |archives[i]|
    ensures ok ==> values == FlatRows(AllChecked(check, limits, archives))
  {
    ok, rowCnt, values := true, [], [];
    var total: nat := 0;
    ghost var chrons := AllChecked(check, limits, archives);
    for i := 0 to |archives|
      invariant |rowCnt| == i && forall j :: 0 <= j < i ==> rowCnt[j] == |archives[j]| && Even(dsCnt, archives[j])
      invariant ok && values == FlatRows(chrons[..i]) && |values| == dsCnt * total
    {
      var n: nat;
      FlatRowsAt(chrons, i);
      ok, n, values := ParseDatabase(dsCnt, limits, check, archives[i], total, values);
      if !ok {
        return;
      }
      rowCnt := rowCnt + [n];
      total := total + n;
    }
    assert chrons[..|archives|] == chrons;
  }

  // ----- restoring

  /** The ring that holds the rows `chron`, oldest first, with its newest row at `cur`. */
  function Ring<T>(chron: seq<T>, cur: nat): seq<T>
    requires cur < |chron|
  {
    chron[|chron| - 1 - cur..] + chron[..|chron| - 1 - cur]
  }

  lemma RingViews<T>(s: seq<T>, cur: nat)
    requires cur < |s|
    ensures Chron(Ring(s, cur), cur) == s && Ring(Chron(s, cur), cur) == s
  {
    var n := |s| - 1 - cur;
    assert Ring(s, cur)[cur + 1..] == s[..n] && Ring(s, cur)[..cur + 1] == s[n..];
    assert Chron(s, cur)[n..] == s[..cur + 1] && Chron(s, cur)[..n] == s[cur + 1..];
  }

  /** An archive that holds the rows; one without rows stays as it is. */
  function RingOf(chron: seq<Row>, cur: nat): Rra
    requires chron != [] ==> cur < |chron|
  {
    Rra(cur, if chron == [] then [] else Ring(chron, cur))
  }

  function Rings(chrons: seq<seq<Row>>, curRow: seq<nat>): (r: seq<Rra>)
    requires |curRow| == |chrons| && forall i :: 0 <= i < |chrons| ==> chrons[i] != [] ==> curRow[i] < |chrons[i]|
    ensures |r| == |chrons|
    ensures forall i :: 0 <= i < |r| ==> r[i] == RingOf(chrons[i], curRow[i])
  {
    seq(|chrons|, i requires 0 <= i < |chrons| => RingOf(chrons[i], curRow[i]))
  }

  function FlatRows(chrons: seq<seq<Row>>): seq<Value> {
    if chrons == [] then [] else FlatRows(chrons[..|chrons| - 1]) + Flat(chrons[|chrons| - 1])
  }

  ghost predicate AllShaped(dsCnt: nat, chrons: seq<seq<Row>>, rowCnt: seq<nat>, curRow: seq<nat>) {
    && |rowCnt| == |curRow| == |chrons|
    && forall i :: 0 <= i < |chrons| ==>
         && rowCnt[i] == |chrons[i]| && (chrons[i] != [] ==> curRow[i] < |chrons[i]|)
         && Even(dsCnt, chrons[i])
  }

  /** One archive: its newest rows first, then the others; nothing if it has none. */
  method WriteRra(dsCnt: nat, num: nat, cur: nat, values: seq<Value>, offset: nat, ghost rows: seq<Row>)
    returns (out: seq<Value>, next: nat)
    requires num == |rows| && (num > 0 ==> cur < num) && Even(dsCnt, rows)
    requires offset + |Flat(rows)| <= |values| && values[offset..offset + |Flat(rows)|] == Flat(rows)
    ensures out == Flat(RingOf(rows, cur).rows) && next == offset + |Flat(rows)|
  {
    out, next := [], offset;
    if num > 0 {
      out := WriteSlices(dsCnt, num, cur, values, offset, rows);
      FlatLength(dsCnt, rows);
      next := offset + dsCnt * num;
    }
  }

  method WriteSlices(dsCnt: nat, num: nat, cur: nat, values: seq<Value>, offset: nat, ghost rows: seq<Row>)
    returns (out: seq<Value>)
    requires cur < num == |rows| && Even(dsCnt, rows)
    requires offset + |Flat(rows)| <= |values| && values[offset..offset + |Flat(rows)|] == Flat(rows)
    ensures out == Flat(Ring(rows, cur))
  {
    var n := num - 1 - cur;
    ghost var first, last := rows[..n], rows[n..];
    assert rows == first + last;
    FlatAppend(first, last);
    FlatAppend(last, first);
    FlatLength(dsCnt, first);
    FlatLength(dsCnt, last);
    var mid, size := offset + dsCnt * n, dsCnt * (cur + 1);
    assert values[mid..mid + size] == values[offset..offset + |Flat(rows)|][dsCnt * n..];
    assert values[offset..mid] == values[offset..offset + |Flat(rows)|][..dsCnt * n];
    out := values[mid..mid + size] + values[offset..mid];
  }

  lemma FlatRowsAt(chrons: seq<seq<Row>>, k: nat)
    requires k < |chrons|
    ensures FlatRows(chrons[..k + 1]) == FlatRows(chrons[..k]) + Flat(chrons[k])
  {
    assert chrons[..k + 1][..k] == chrons[..k];
  }

  lemma {:induction false} FlatRowsPrefix(chrons: seq<seq<Row>>, k: nat)
    requires k <= |chrons|
    ensures FlatRows(chrons[..k]) <= FlatRows(chrons)
    decreases |chrons| - k
  {
    if k == |chrons| {
      assert chrons[..k] == chrons;
    } else {
      FlatRowsAt(chrons, k);
      FlatRowsPrefix(chrons, k + 1);
    }
  }

  lemma PlaceOfRows(chrons: seq<seq<Row>>, k: nat)
    requires k < |chrons|
    ensures var at, all, rows := |FlatRows(chrons[..k])|, FlatRows(chrons), Flat(chrons[k]);
            && |FlatRows(chrons[..k + 1])| == at + |rows| <= |all| && all[at..at + |rows|] == rows
  {
    FlatRowsAt(chrons, k);
    FlatRowsPrefix(chrons, k + 1);
  }

  /** write_file: the values of every archive, turned so that the newest row
      stands at its row pointer. */
  method WriteFile(dsCnt: nat, rowCnt: seq<nat>, curRow: seq<nat>, values: seq<Value>,
                   ghost chrons: seq<seq<Row>>, ghost rings: seq<Rra>)
    returns (file: seq<Value>)
    requires AllShaped(dsCnt, chrons, rowCnt, curRow) && values == FlatRows(chrons)
    requires |rings| == |chrons| && forall i :: 0 <= i < |rings| ==> rings[i] == RingOf(chrons[i], curRow[i])
    ensures file == FlatAll(rings)
  {
    file := [];
    var offset := 0;
    for i := 0 to |rowCnt|
      invariant offset == |FlatRows(chrons[..i])| && file == FlatAll(rings[..i])
    {
      PlaceOfRows(chrons, i);
      NextRing(rings, i, chrons[i], curRow[i]);
      var part;
      part, offset := WriteRra(dsCnt, rowCnt[i], curRow[i], values, offset, chrons[i]);
      file := file + part;
    }
    assert rings[..|rowCnt|] == rings;
  }

  lemma NextRing(rings: seq<Rra>, i: nat, chron: seq<Row>, cur: nat)
    requires i < |rings| && (chron != [] ==> cur < |chron|) && rings[i] == RingOf(chron, cur)
    ensures FlatAll(rings[..i + 1]) == FlatAll(rings[..i]) + Flat(RingOf(chron, cur).rows)
  {
    FlatAllOneMore(rings, i);
  }

  lemma FlatAllOneMore(rras: seq<Rra>, i: nat)
    requires i < |rras|
    ensures FlatAll(rras[..i + 1]) == FlatAll(rras[..i]) + Flat(rras[i].rows)
  {
    assert rras[..i + 1] == rras[..i] + [rras[i]];
    FlatAllAppend(rras[..i], [rras[i]]);
    assert FlatAll([rras[i]]) == Flat(rras[i].rows) + FlatAll([rras[i]][1..]);
  }

  // ----- dumping

  /** When the file was last updated, in whole rows of `step` seconds. */
  function LastRow(lastUp: nat, step: nat): nat
    requires step > 0
  {
    lastUp - lastUp % step
  }

  /** The time stamp of the k-th of n rows, oldest first. */
  function RowTime(lastUp: nat, step: nat, n: nat, k: int): int
    requires step > 0
  {
    LastRow(lastUp, step) + (k - (n - 1)) * step
  }

  datatype Dumped = Dumped(stamp: int, row: Row)

  /** The archive has a newest row, if it has any. */
  predicate Pointed(r: Rra) {
    r.rows != [] ==> r.curRow < |r.rows|
  }

  ghost predicate Dumpable(dsCnt: nat, r: Rra) {
    Pointed(r) && forall i :: 0 <= i < |r.rows| ==> |r.rows[i]| == dsCnt
  }

  /** The rows of one archive as the dump lists them. */
  function DumpOf(lastUp: nat, step: nat, r: Rra): (d: seq<Dumped>)
    requires step > 0 && Pointed(r)
    ensures |d| == |r.rows|
  {
    seq(|r.rows|, k requires 0 <= k < |r.rows| =>
      Dumped(RowTime(lastUp, step, |r.rows|, k), Chron(r.rows, r.curRow)[k]))
  }

  /** Reads the values of a row, one after the other. */
  method ReadRow(file: seq<Value>, start: nat, dsCnt: nat) returns (row: Row, pos: nat)
    requires start + dsCnt <= |file|
    ensures row == file[start..start + dsCnt] && pos == start + dsCnt
  {
    row, pos := [], start;
    for iii := 0 to dsCnt
      invariant pos == start + iii && row == file[start..pos]
    {
      row := row + [file[pos]];
      pos := pos + 1;
    }
  }

  /** The file stands at a row of the archive that starts at `start`. */
  predicate AtRow(pos: int, start: nat, row: int, dsCnt: nat) {
    0 <= pos == start + row * dsCnt
  }

  method Seek(start: nat, row: nat, dsCnt: nat) returns (pos: nat)
    ensures AtRow(pos, start, row, dsCnt)
  {
    MulLe(0, row, dsCnt);
    pos := start + row * dsCnt;
  }

  lemma NextPos(start: nat, ii: nat, dsCnt: nat)
    ensures start + ii * dsCnt == start + dsCnt * ii
    ensures start + ii * dsCnt + dsCnt == start + (ii + 1) * dsCnt
  {
  }

  /** The row behind `ii`, around the end of the archive; the file stands there,
      unless it has to go back to the start. */
  method NextDumped(dsCnt: nat, rowCnt: nat, start: nat, before: nat, at: nat, file: seq<Value>,
                    ghost rras: seq<Rra>, ghost i: nat, ghost ix: nat)
    returns (row: Row, ii: nat, pos: nat)
    requires i < |rras| && Dumpable(dsCnt, rras[i]) && ix < rowCnt == |rras[i].rows|
    requires file == FlatAll(rras) && start == |FlatAll(rras[..i])|
    requires before < rowCnt && AtRow(at, start, before + 1, dsCnt)
    requires before == rras[i].curRow + ix || before == rras[i].curRow + ix - rowCnt
    ensures row == Chron(rras[i].rows, rras[i].curRow)[ix] && AtRow(pos, start, ii + 1, dsCnt)
    ensures ii < rowCnt && (ii == rras[i].curRow + ix + 1 || ii == rras[i].curRow + ix + 1 - rowCnt)
  {
    ii, pos := before + 1, at;
    if ii >= rowCnt {
      pos := start;
      ii := 0;
    }
    Wrap(rras[i].curRow + 1 + ix, rowCnt);
    ChronAt(rras[i].rows, rras[i].curRow, ix);
    FileRow(dsCnt, rras, i, ii);
    NextPos(start, ii, dsCnt);
    row, pos := ReadRow(file, pos, dsCnt);
  }

  method Stamp(lastUp: nat, step: nat, rowCnt: nat, timer: int, ghost ix: int) returns (now: int)
    requires step > 0 && timer == ix - (rowCnt - 1)
    ensures now == RowTime(lastUp, step, rowCnt, ix)
  {
    now := LastRow(lastUp, step) + timer * step;
  }

  /** The database rows of one archive: the file is read from behind the newest
      row on, and from the start of the archive after its last row. */
  method DumpRra(dsCnt: nat, rowCnt: nat, curRow: nat, start: nat, lastUp: nat, step: nat, file: seq<Value>,
                 ghost rras: seq<Rra>, ghost i: nat)
    returns (dump: seq<Dumped>)
    requires i < |rras| && Dumpable(dsCnt, rras[i]) && rowCnt == |rras[i].rows| && curRow == rras[i].curRow
    requires file == FlatAll(rras) && start == |FlatAll(rras[..i])| && step > 0
    ensures dump == DumpOf(lastUp, step, rras[i])
  {
    dump := [];
    var pos := Seek(start, curRow + 1, dsCnt);
    var timer := -(rowCnt as int - 1);
    var ii: nat := curRow;
    ghost var r := rras[i];
    for ix := 0 to rowCnt
      invariant |dump| == ix && timer == ix - (rowCnt - 1)
      invariant rowCnt > 0 ==> ii < rowCnt && (ii == curRow + ix || ii == curRow + ix - rowCnt)
      invariant AtRow(pos, start, ii + 1, dsCnt)
      invariant forall k :: 0 <= k < ix ==> dump[k] == DumpOf(lastUp, step, r)[k]
    {
      var row: Row;
      row, ii, pos := NextDumped(dsCnt, rowCnt, start, ii, pos, file, rras, i, ix);
      var now := Stamp(lastUp, step, rowCnt, timer, ix);
      timer := timer + 1;
      dump := dump + [Dumped(now, row)];
    }
  }

  /** The database rows of all archives; `steps` are their seconds per row. */
  method Dump(dsCnt: nat, rowCnt: seq<nat>, curRow: seq<nat>, steps: seq<nat>, lastUp: nat, file: seq<Value>,
              ghost rras: seq<Rra>)
    returns (dumps: seq<seq<Dumped>>)
    requires |rowCnt| == |curRow| == |rras| && file == FlatAll(rras)
    requires forall i :: 0 <= i < |rras| ==> Dumpable(dsCnt, rras[i])
    requires forall i :: 0 <= i < |rras| ==> rowCnt[i] == |rras[i].rows| && curRow[i] == rras[i].curRow
    requires |steps| == |rras| && forall i :: 0 <= i < |steps| ==> steps[i] > 0
    ensures |dumps| == |rras|
    ensures forall i :: 0 <= i < |rras| ==> Pointed(rras[i]) && dumps[i] == DumpOf(lastUp, steps[i], rras[i])
  {
    dumps := [];
    var next := 0;
    for i := 0 to |rowCnt|
      invariant |dumps| == i && next == |FlatAll(rras[..i])|
      invariant forall j :: 0 <= j < i ==> Pointed(rras[j]) && dumps[j] == DumpOf(lastUp, steps[j], rras[j])
    {
      var start := next;
      FlatAllOneMore(rras, i);
      FlatLength(dsCnt, rras[i].rows);
      next := next + dsCnt * rowCnt[i];
      var dump := DumpRra(dsCnt, rowCnt[i], curRow[i], start, lastUp, steps[i], file, rras, i);
      dumps := dumps + [dump];
    }
  }

  /** Whatever row pointers are chosen, a dump of a restored file lists the rows
      that were read, in their order and with the stamps of their places; it fails
      exactly if some row has not one value for every data source. */
  method RestoreThenDump(dsCnt: nat, limits: seq<Limits>, check: bool, archives: seq<seq<Row>>,
                         curRow: seq<nat>, steps: seq<nat>, lastUp: nat)
    returns (ok: bool, dumps: seq<seq<Dumped>>)
    requires |limits| == dsCnt && |curRow| == |steps| == |archives|
    requires forall i :: 0 <= i < |archives| ==> steps[i] > 0 && (archives[i] != [] ==> curRow[i] < |archives[i]|)
    ensures ok <==> forall i :: 0 <= i < |archives| ==> Even(dsCnt, archives[i])
    ensures ok ==>
              && |dumps| == |archives|
              && forall i :: 0 <= i < |archives| ==>
                   dumps[i] == Listed(lastUp, steps[i], Checked(check, limits, archives[i]))
  {
    dumps := [];
    var rowCnt, values;
    ok, rowCnt, values := ParseDatabases(dsCnt, limits, check, archives);
    if !ok {
      return;
    }
    ghost var chrons := AllChecked(check, limits, archives);
    ghost var rings := Rings(chrons, curRow);
    CheckedShape(dsCnt, limits, check, archives, rowCnt, curRow);
    var file := WriteFile(dsCnt, rowCnt, curRow, values, chrons, rings);
    forall i | 0 <= i < |chrons|
      ensures Dumpable(dsCnt, rings[i]) && rowCnt[i] == |rings[i].rows| && curRow[i] == rings[i].curRow
      ensures DumpOf(lastUp, steps[i], rings[i]) == Listed(lastUp, steps[i], chrons[i])
    {
      RingDumps(dsCnt, chrons[i], curRow[i], lastUp, steps[i]);
    }
    dumps := Dump(dsCnt, rowCnt, curRow, steps, lastUp, file, rings);
  }

  lemma CheckedShape(dsCnt: nat, limits: seq<Limits>, check: bool, archives: seq<seq<Row>>,
                     rowCnt: seq<nat>, curRow: seq<nat>)
    requires |rowCnt| == |curRow| == |archives|
    requires forall i :: 0 <= i < |archives| ==>
               && Even(dsCnt, archives[i]) && rowCnt[i] == |archives[i]|
               && (archives[i] != [] ==> curRow[i] < |archives[i]|)
    ensures AllShaped(dsCnt, AllChecked(check, limits, archives), rowCnt, curRow)
  {
  }

  lemma RingDumps(dsCnt: nat, chron: seq<Row>, cur: nat, lastUp: nat, step: nat)
    requires Even(dsCnt, chron) && (chron != [] ==> cur < |chron|) && step > 0
    ensures var r := RingOf(chron, cur);
            && Dumpable(dsCnt, r) && |r.rows| == |chron|
            && DumpOf(lastUp, step, r) == Listed(lastUp, step, chron)
  {
    if chron != [] {
      RingViews(chron, cur);
    }
  }

  /** Rows with the stamps of their places. */
  function Listed(lastUp: nat, step: nat, rows: seq<Row>): (d: seq<Dumped>)
    requires step > 0
    ensures |d| == |rows|
  {
    seq(|rows|, k requires 0 <= k < |rows| => Dumped(RowTime(lastUp, step, |rows|, k), rows[k]))
  }

  /** A cell of such a dump is the value that was read, in its place and with the stamp
      of its place, unless its range does not admit it. */
  lemma ListedCell(lastUp: nat, step: nat, check: bool, limits: seq<Limits>, rows: seq<Row>, k: nat, c: nat)
    requires step > 0 && k < |rows| && c < |rows[k]| && c < |limits|
    ensures var d := Listed(lastUp, step, Checked(check, limits, rows));
            && |d| == |rows| && |d[k].row| == |rows[k]|
            && d[k].stamp == lastUp - lastUp % step - (|rows| - 1 - k) * step
            && d[k].row[c] == InRange(check, limits[c], rows[k][c])
  {
    MulDiff(0, |rows| - 1 - k, step);
  }

  // ----- the first entry

  /** rrd_first. */
  method First(rraIndex: int, rowCnt: seq<nat>, steps: seq<nat>, lastUp: nat) returns (first: int)
    requires |rowCnt| == |steps| && forall i :: 0 <= i < |steps| ==> steps[i] > 0
    ensures !(0 <= rraIndex < |rowCnt|) ==> first == -1
    ensures 0 <= rraIndex < |rowCnt| ==> first == RowTime(lastUp, steps[rraIndex], rowCnt[rraIndex], 0)
  {
    first := -1;
    if 0 <= rraIndex < |rowCnt| {
      var timer := -(rowCnt[rraIndex] as int - 1);
      first := LastRow(lastUp, steps[rraIndex]) + timer * steps[rraIndex];
    }
  }

  /** The stamps of the rows are multiples of the step that rise by one step each,
      up to the last whole row before the last update. */
  lemma RowTimes(lastUp: nat, step: nat, n: nat, k: int)
    requires step > 0
    ensures RowTime(lastUp, step, n, n - 1) == LastRow(lastUp, step) <= lastUp < LastRow(lastUp, step) + step
    ensures RowTime(lastUp, step, n, k + 1) == RowTime(lastUp, step, n, k) + step
    ensures RowTime(lastUp, step, n, k) == (lastUp / step + (k - (n - 1))) * step
    ensures RowTime(lastUp, step, n, k) % step == 0
  {
    var q, j := lastUp / step, k - (n - 1);
    RowTimeIs(lastUp, step, q, j);
    MulDiff(j, -1, step);
    assert 0 * step == 0;
    MultipleMod(q + j, step);
  }

  lemma RowTimeIs(lastUp: nat, step: nat, q: int, j: int)
    requires step > 0 && q == lastUp / step
    ensures LastRow(lastUp, step) == q * step && q * step + j * step == (q + j) * step
  {
    assert lastUp == q * step + lastUp % step;
    MulDiff(q, -j, step);
  }

  // ----- resizing

  /** Resizing does not move rows in time: every row that is kept is dumped with
      the stamp it had. */
  lemma GrowKeepsStamps(dsCnt: nat, r: Rra, m: nat, lastUp: nat, step: nat)
    requires Shaped(dsCnt, r) && step > 0
    ensures var g := Resize.Grown(dsCnt, r, m);
            Shaped(dsCnt, g) && |g.rows| == |r.rows| + m && DumpOf(lastUp, step, g)[m..] == DumpOf(lastUp, step, r)
  {
    var g := Resize.Grown(dsCnt, r, m);
    Resize.GrownView(dsCnt, r, m);
    var new', old' := DumpOf(lastUp, step, g), DumpOf(lastUp, step, r);
    forall k | 0 <= k < |r.rows|
      ensures new'[m..][k] == old'[k]
    {
      assert Chron(g.rows, g.curRow)[m + k] == Chron(r.rows, r.curRow)[k];
    }
  }

  lemma ShrinkKeepsStamps(dsCnt: nat, r: Rra, m: nat, lastUp: nat, step: nat)
    requires Shaped(dsCnt, r) && step > 0 && m < |r.rows|
    ensures var s := Resize.Shrunk(r, m);
            Shaped(dsCnt, s) && DumpOf(lastUp, step, s) == DumpOf(lastUp, step, r)[m..]
  {
    var s := Resize.Shrunk(r, m);
    Resize.ShrunkView(dsCnt, r, m);
    var new', old' := DumpOf(lastUp, step, s), DumpOf(lastUp, step, r);
    assert |s.rows| == |Chron(s.rows, s.curRow)| == |r.rows| - m;
    forall k | 0 <= k < |s.rows|
      ensures new'[k] == old'[m..][k]
    {
      assert Chron(s.rows, s.curRow)[k] == Chron(r.rows, r.curRow)[m + k];
    }
  }
}
