/** A round-robin archive: a ring of rows in the order of the file, the row
    written last, and the view of the ring from the oldest row to the newest. */
module Archive {
  import opened Arithmetic

  datatype Value = NaN | Num(x: real)

  type Row = seq<Value>

  /** The rows as the file has them; `curRow` is the newest. */
  datatype Rra = Rra(curRow: nat, rows: seq<Row>)

  ghost predicate Shaped(dsCnt: nat, r: Rra) {
    r.curRow < |r.rows| && forall i :: 0 <= i < |r.rows| ==> |r.rows[i]| == dsCnt
  }

  /** Oldest row first. */
  function Chron<T>(ring: seq<T>, cur: nat): (r: seq<T>)
    requires cur < |ring|
  {
    ring[cur + 1..] + ring[..cur + 1]
  }

  lemma ChronAt<T>(ring: seq<T>, cur: nat, k: nat)
    requires cur < |ring| && k < |ring|
    ensures Chron(ring, cur)[k] == ring[(cur + 1 + k) % |ring|]
  {
    Wrap(cur + 1 + k, |ring|);
  }

  // ----- the values of the file

  function Flat(rows: seq<Row>): seq<Value> {
    if rows == [] then [] else rows[0] + Flat(rows[1..])
  }

  function FlatAll(rras: seq<Rra>): seq<Value> {
    if rras == [] then [] else Flat(rras[0].rows) + FlatAll(rras[1..])
  }

  lemma {:induction false} FlatAppend(a: seq<Row>, b: seq<Row>)
    ensures Flat(a + b) == Flat(a) + Flat(b)
  {
    if a == [] {
      assert a + b == b;
    } else {
      assert (a + b)[1..] == a[1..] + b;
      FlatAppend(a[1..], b);
    }
  }

  lemma {:induction false} FlatAllAppend(a: seq<Rra>, b: seq<Rra>)
    ensures FlatAll(a + b) == FlatAll(a) + FlatAll(b)
  {
    if a == [] {
      assert a + b == b;
    } else {
      assert (a + b)[1..] == a[1..] + b;
      FlatAllAppend(a[1..], b);
    }
  }

  lemma {:induction false} FlatLength(dsCnt: nat, rows: seq<Row>)
    requires forall i :: 0 <= i < |rows| ==> |rows[i]| == dsCnt
    ensures |Flat(rows)| == dsCnt * |rows|
  {
    if rows != [] {
      FlatLength(dsCnt, rows[1..]);
      assert dsCnt * |rows| == dsCnt + dsCnt * (|rows| - 1);
    }
  }

  function Unknown(dsCnt: nat): Row {
    seq(dsCnt, _ => NaN)
  }

  function Unknowns(dsCnt: nat, n: nat): seq<Row> {
    seq(n, _ => Unknown(dsCnt))
  }

  lemma {:induction false} FlatUnknowns(dsCnt: nat, n: nat)
    ensures Flat(Unknowns(dsCnt, n)) == seq(dsCnt * n, _ => NaN)
  {
    if n > 0 {
      FlatUnknowns(dsCnt, n - 1);
      assert Unknowns(dsCnt, n)[1..] == Unknowns(dsCnt, n - 1);
      var more := dsCnt * (n - 1);
      assert dsCnt * n == dsCnt + more;
      assert seq(dsCnt, _ => NaN) + seq(more, _ => NaN) == seq(dsCnt + more, _ => NaN);
    } else {
      assert dsCnt * n == 0;
    }
  }

  // ----- the file

  /** The counts and row pointers of the header and the values behind it. */
  ghost predicate Encodes(dsCnt: nat, rras: seq<Rra>, rowCnt: seq<nat>, curRow: seq<nat>, values: seq<Value>) {
    && |rowCnt| == |curRow| == |rras| && values == FlatAll(rras)
    && forall i :: 0 <= i < |rras| ==>
         Shaped(dsCnt, rras[i]) && rowCnt[i] == |rras[i].rows| && curRow[i] == rras[i].curRow
  }

  function ValueCount(dsCnt: nat, rowCnt: seq<nat>): nat {
    if rowCnt == [] then 0
    else ValueCount(dsCnt, rowCnt[..|rowCnt| - 1]) + dsCnt * rowCnt[|rowCnt| - 1]
  }

  lemma {:induction false} CountIsLength(dsCnt: nat, rras: seq<Rra>, rowCnt: seq<nat>)
    requires |rowCnt| == |rras|
    requires forall i :: 0 <= i < |rras| ==> Shaped(dsCnt, rras[i]) && rowCnt[i] == |rras[i].rows|
    ensures ValueCount(dsCnt, rowCnt) == |FlatAll(rras)|
    decreases |rras|
  {
    if rras != [] {
      var n := |rras| - 1;
      CountIsLength(dsCnt, rras[..n], rowCnt[..n]);
      assert rras == rras[..n] + [rras[n]];
      FlatAllAppend(rras[..n], [rras[n]]);
      assert FlatAll([rras[n]]) == Flat(rras[n].rows) + FlatAll([rras[n]][1..]);
      FlatLength(dsCnt, rras[n].rows);
    }
  }

  /** A row of an archive in the file. */
  lemma FlatRow(dsCnt: nat, rows: seq<Row>, p: nat)
    requires p < |rows| && forall i :: 0 <= i < |rows| ==> |rows[i]| == dsCnt
    ensures var at := dsCnt * p;
            0 <= at && at + dsCnt <= |Flat(rows)| && Flat(rows)[at..at + dsCnt] == rows[p]
  {
    var rest := [rows[p]] + rows[p + 1..];
    assert rows == rows[..p] + rest;
    FlatAppend(rows[..p], rest);
    FlatLength(dsCnt, rows[..p]);
    assert rest[1..] == rows[p + 1..];
    var at := dsCnt * p;
    Inside(Flat(rows[..p]), rows[p], Flat(rows[p + 1..]), at, 0, dsCnt);
    assert rows[p][0..dsCnt] == rows[p];
  }

  /** A part of the middle of three stretches. */
  lemma Inside<T>(before: seq<T>, inner: seq<T>, behind: seq<T>, start: nat, at: nat, n: nat)
    requires start == |before| && at + n <= |inner|
    ensures (before + (inner + behind))[start + at..start + at + n] == inner[at..at + n]
  {
  }

  lemma FileRow(dsCnt: nat, rras: seq<Rra>, k: nat, p: nat)
    requires k < |rras| && Shaped(dsCnt, rras[k]) && p < |rras[k].rows|
    ensures var at := |FlatAll(rras[..k])| + dsCnt * p;
            0 <= at && at + dsCnt <= |FlatAll(rras)| && FlatAll(rras)[at..at + dsCnt] == rras[k].rows[p]
  {
    var before, rows, behind := FlatAll(rras[..k]), rras[k].rows, FlatAll(rras[k + 1..]);
    var rest := [rras[k]] + rras[k + 1..];
    assert rras == rras[..k] + rest;
    FlatAllAppend(rras[..k], rest);
    assert rest[1..] == rras[k + 1..];
    FlatRow(dsCnt, rows, p);
    var at := dsCnt * p;
    Inside(before, Flat(rows), behind, |before|, at, dsCnt);
  }
}
