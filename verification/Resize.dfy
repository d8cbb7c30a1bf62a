/** rrdtool resize: rows are added to or removed from one archive while the file
    is copied value by value. */
module Resize {
  import opened Archive
  import opened Arithmetic

  datatype Mode = Grow | Shrink

  datatype Outcome = TooFew | NoSuchRra | NotThatBig | Done(out: Output)

  // ----- what happens to the archive

  function Grown(dsCnt: nat, r: Rra, m: nat): Rra
    requires r.curRow < |r.rows|
  {
    Rra(r.curRow, r.rows[..r.curRow + 1] + Unknowns(dsCnt, m) + r.rows[r.curRow + 1..])
  }

  /** The rows behind the newest one go, and if they do not suffice, those at the
      front of the file. */
  function Shrunk(r: Rra, m: nat): Rra
    requires r.curRow < |r.rows| && m < |r.rows|
  {
    var left := |r.rows| - r.curRow - 1;
    if m <= left then Rra(r.curRow, r.rows[..r.curRow + 1] + r.rows[r.curRow + 1 + m..])
    else Rra(r.curRow - (m - left), r.rows[m - left..r.curRow + 1])
  }

  /** GROW puts unknown rows before the oldest row. */
  lemma GrownView(dsCnt: nat, r: Rra, m: nat)
    requires Shaped(dsCnt, r)
    ensures var g := Grown(dsCnt, r, m);
            Shaped(dsCnt, g) && Chron(g.rows, g.curRow) == Unknowns(dsCnt, m) + Chron(r.rows, r.curRow)
  {
    var g := Grown(dsCnt, r, m);
    assert g.rows[..g.curRow + 1] == r.rows[..r.curRow + 1];
    assert g.rows[g.curRow + 1..] == Unknowns(dsCnt, m) + r.rows[r.curRow + 1..];
  }

  /** SHRINK drops exactly the oldest rows. */
  lemma ShrunkView(dsCnt: nat, r: Rra, m: nat)
    requires Shaped(dsCnt, r) && m < |r.rows|
    ensures var s := Shrunk(r, m);
            Shaped(dsCnt, s) && Chron(s.rows, s.curRow) == Chron(r.rows, r.curRow)[m..]
  {
    var s := Shrunk(r, m);
    var left := |r.rows| - r.curRow - 1;
    if m <= left {
      assert s.rows[..s.curRow + 1] == r.rows[..r.curRow + 1];
      assert s.rows[s.curRow + 1..] == r.rows[r.curRow + 1..][m..];
    } else {
      assert Chron(r.rows, r.curRow)[m..] == r.rows[..r.curRow + 1][m - left..];
    }
  }

  /** SHRINK undoes GROW, down to the order of the rows in the file. */
  lemma ShrinkUndoesGrow(dsCnt: nat, r: Rra, m: nat)
    requires Shaped(dsCnt, r)
    ensures Shrunk(Grown(dsCnt, r, m), m) == r
  {
    var g := Grown(dsCnt, r, m);
    assert g.rows[..g.curRow + 1] == r.rows[..r.curRow + 1];
    assert g.rows[g.curRow + 1 + m..] == r.rows[r.curRow + 1..];
    assert r.rows == r.rows[..r.curRow + 1] + r.rows[r.curRow + 1..];
  }

  /** GROW undoes SHRINK up to the rows that were lost. */
  lemma GrowAfterShrink(dsCnt: nat, r: Rra, m: nat)
    requires Shaped(dsCnt, r) && m < |r.rows|
    ensures var g := Grown(dsCnt, Shrunk(r, m), m);
            Chron(g.rows, g.curRow) == Unknowns(dsCnt, m) + Chron(r.rows, r.curRow)[m..]
  {
    ShrunkView(dsCnt, r, m);
    GrownView(dsCnt, Shrunk(r, m), m);
  }

  // ----- the files

  class Input {
    const values: seq<Value>
    var pos: nat

    constructor (values: seq<Value>)
      ensures this.values == values && pos == 0 && Rest() == values
    {
      this.values, pos := values, 0;
    }

    ghost function Rest(): seq<Value>
      reads this
    {
      if pos <= |values| then values[pos..] else []
    }
  }

  class Output {
    const values: array<Value>
    var pos: nat

    constructor (length: nat)
      ensures Valid() && fresh(values) && values.Length == length && Written() == []
    {
      values := new Value[length];
      pos := 0;
    }

    ghost predicate Valid()
      reads this
    {
      pos <= values.Length
    }

    ghost function Written(): seq<Value>
      reads this, values
      requires Valid()
    {
      values[..pos]
    }

    method Write(v: Value)
      requires Valid() && pos < values.Length
      modifies this`pos, values
      ensures Valid() && Written() == old(Written()) + [v]
    {
      values[pos] := v;
      pos := pos + 1;
    }
  }

  method MoveOne(input: Input, out: Output)
    requires out.Valid() && input.Rest() != [] && out.pos < out.values.Length
    modifies input`pos, out`pos, out.values
    ensures out.Valid() && out.Written() == old(out.Written()) + [old(input.Rest())[0]]
    ensures input.Rest() == old(input.Rest())[1..] && out.pos == old(out.pos) + 1
  {
    out.Write(input.values[input.pos]);
    input.pos := input.pos + 1;
  }

  lemma Shift(before: seq<Value>, moved: seq<Value>, rest: seq<Value>)
    requires rest != []
    ensures (moved + [rest[0]]) + rest[1..] == moved + rest
    ensures (before + moved) + [rest[0]] == before + (moved + [rest[0]])
  {
  }

  /** Moves `n` values from one file to the other. */
  method Move(input: Input, out: Output, n: nat)
    requires out.Valid() && n <= |input.Rest()| && out.pos + n <= out.values.Length
    modifies input`pos, out`pos, out.values
    ensures out.Valid() && out.Written() == old(out.Written()) + old(input.Rest())[..n]
    ensures input.Rest() == old(input.Rest())[n..] && out.pos == old(out.pos) + n
  {
    var l: nat := n;
    ghost var start, all, moved := out.Written(), input.Rest(), [];
    assert start + moved == start && moved + all == all;
    while l > 0
      invariant |moved| == n - l && out.Valid() && out.pos == old(out.pos) + |moved|
      invariant out.Written() == start + moved && moved + input.Rest() == all
      decreases l
    {
      Shift(start, moved, input.Rest());
      moved := moved + [input.Rest()[0]];
      MoveOne(input, out);
      l := l - 1;
    }
    assert all[..n] == moved && all[n..] == input.Rest();
  }

  /** Writes `n` unknown values. */
  method Fill(out: Output, n: nat)
    requires out.Valid() && out.pos + n <= out.values.Length
    modifies out`pos, out.values
    ensures out.Valid() && out.Written() == old(out.Written()) + seq(n, _ => NaN)
  {
    var l: nat := n;
    ghost var start := out.Written();
    while l > 0
      invariant l <= n && out.Valid() && out.Written() == start + seq(n - l, _ => NaN)
    {
      out.Write(NaN);
      l := l - 1;
    }
  }

  /** Copies until the input ends; what does not fit would be ignored. */
  method MoveRest(input: Input, out: Output)
    requires out.Valid() && out.pos + |input.Rest()| == out.values.Length
    modifies input`pos, out`pos, out.values
    ensures out.Valid() && out.Written() == old(out.Written()) + old(input.Rest())
    ensures out.pos == out.values.Length
  {
    ghost var start, rest := out.Written(), input.Rest();
    ghost var n := 0;
    while input.pos < |input.values|
      invariant n <= |rest| && out.Valid() && out.pos == |start| + n
      invariant input.Rest() == rest[n..] && out.Written() == start + rest[..n]
      decreases |rest| - n
    {
      assert input.Rest()[0] == rest[n];
      assert rest[..n + 1] == rest[..n] + [rest[n]];
      var v := input.values[input.pos];
      input.pos := input.pos + 1;
      if out.pos + 1 <= out.values.Length {
        out.Write(v);
      }
      n := n + 1;
    }
    assert rest[..n] == rest;
  }

  // ----- the whole operation

  /** How many values the first archives have. */
  method ValuesOf(dsCnt: nat, rowCnt: array<nat>, n: nat) returns (l: nat)
    requires n <= rowCnt.Length
    ensures l == ValueCount(dsCnt, rowCnt[..n])
  {
    l := 0;
    for rra := 0 to n
      invariant l == ValueCount(dsCnt, rowCnt[..rra])
    {
      assert rowCnt[..rra + 1][..rra] == rowCnt[..rra];
      l := l + dsCnt * rowCnt[rra];
    }
  }

  method MoveThenFill(input: Input, out: Output, front: nat, added: nat, ghost first: seq<Value>,
                      ghost behind: seq<Value>)
    requires out.Valid() && front == |first| && input.Rest() == first + behind
    requires out.pos + front + added <= out.values.Length
    modifies input`pos, out`pos, out.values
    ensures out.Valid() && input.Rest() == behind
    ensures out.Written() == old(out.Written()) + first + seq(added, _ => NaN)
  {
    SplitAt(first, behind);
    Move(input, out, front);
    Fill(out, added);
  }

  /** The rows up to the newest, then the new ones. */
  method GrowTarget(dsCnt: nat, rowCnt: nat, curRow: nat, m: nat, input: Input, out: Output,
                    ghost r: Rra, ghost rest: seq<Value>)
    returns (cnt: nat, cur: nat)
    requires Shaped(dsCnt, r) && curRow == r.curRow && rowCnt == |r.rows|
    requires out.Valid() && input.Rest() == Flat(r.rows) + rest
    requires out.pos + |Flat(Grown(dsCnt, r, m).rows)| <= out.values.Length
    modifies input`pos, out`pos, out.values
    ensures out.Valid() && cnt == |Grown(dsCnt, r, m).rows| && cur == Grown(dsCnt, r, m).curRow
    ensures out.Written() + input.Rest() == old(out.Written()) + (Flat(Grown(dsCnt, r, m).rows) + rest)
  {
    GrownFlat(dsCnt, r, m);
    ghost var first, last := Flat(r.rows[..curRow + 1]), Flat(r.rows[curRow + 1..]);
    ghost var more: seq<Value> := seq(dsCnt * m, _ => NaN);
    Regroup(first, last, rest);
    MoveThenFill(input, out, dsCnt * (curRow + 1), dsCnt * m, first, last + rest);
    Regroups(old(out.Written()), first, more, last, rest);
    cnt, cur := rowCnt + m, curRow;
  }

  lemma Regroups(a: seq<Value>, b: seq<Value>, c: seq<Value>, d: seq<Value>, e: seq<Value>)
    ensures (a + b) + c + (d + e) == a + (b + c + d + e)
  {
  }

  lemma GrownFlat(dsCnt: nat, r: Rra, m: nat)
    requires Shaped(dsCnt, r)
    ensures var first, last := r.rows[..r.curRow + 1], r.rows[r.curRow + 1..];
            && Flat(r.rows) == Flat(first) + Flat(last)
            && |Flat(first)| == dsCnt * (r.curRow + 1)
            && Flat(Grown(dsCnt, r, m).rows) == Flat(first) + seq(dsCnt * m, _ => NaN) + Flat(last)
  {
    var first, last, more := r.rows[..r.curRow + 1], r.rows[r.curRow + 1..], Unknowns(dsCnt, m);
    assert r.rows == first + last;
    FlatAppend(first, last);
    FlatAppend(first + more, last);
    FlatAppend(first, more);
    FlatLength(dsCnt, first);
    FlatUnknowns(dsCnt, m);
  }

  method SkipRow(input: Input, dsCnt: nat, ghost rows: seq<Row>, ghost rest: seq<Value>)
    requires rows != [] && |rows[0]| == dsCnt && input.Rest() == Flat(rows) + rest
    modifies input`pos
    ensures input.Rest() == Flat(rows[1..]) + rest
  {
    assert Flat(rows) + rest == rows[0] + (Flat(rows[1..]) + rest);
    input.pos := input.pos + dsCnt;
  }

  /** Removes the rows 0 to `end` of the file. */
  method DropFront(input: Input, dsCnt: nat, rowCnt: nat, curRow: nat, m: nat, end: nat,
                   ghost rows: seq<Row>, ghost rest: seq<Value>)
    returns (cnt: nat, cur: nat, delta: int)
    requires (forall i :: 0 <= i < |rows| ==> |rows[i]| == dsCnt) && rowCnt == |rows| && end < curRow < rowCnt
    requires input.Rest() == Flat(rows) + rest
    modifies input`pos
    ensures cnt == rowCnt - end - 1 && cur == curRow - end - 1 && delta == end + 1 - m
    ensures input.Rest() == Flat(rows[end + 1..]) + rest
  {
    cnt, cur, delta := rowCnt, curRow, -(m as int);
    var removeEnd: int := end;
    ghost var left := rows;
    while removeEnd >= 0
      invariant -1 <= removeEnd <= end && left == rows[end - removeEnd..]
      invariant cnt == rowCnt - (end - removeEnd) && cur == curRow - (end - removeEnd)
      invariant delta == end - removeEnd - m
      invariant input.Rest() == Flat(left) + rest
    {
      SkipRow(input, dsCnt, left, rest);
      left := left[1..];
      cnt, cur := cnt - 1, cur - 1;
      removeEnd := removeEnd - 1;
      delta := delta + 1;
    }
  }

  /** Removes the next rows, until nothing is left to remove. */
  method DropNext(input: Input, dsCnt: nat, rowCnt: nat, start: int, ghost rows: seq<Row>, ghost rest: seq<Value>)
    returns (cnt: nat)
    requires (forall i :: 0 <= i < |rows| ==> |rows[i]| == dsCnt) && start <= 0 && -start <= |rows| <= rowCnt
    requires input.Rest() == Flat(rows) + rest
    modifies input`pos
    ensures cnt == rowCnt + start
    ensures input.Rest() == Flat(rows[-start..]) + rest
  {
    cnt := rowCnt;
    var delta := start;
    ghost var left := rows;
    while delta < 0
      invariant start <= delta <= 0 && left == rows[delta - start..] && cnt == rowCnt - (delta - start)
      invariant input.Rest() == Flat(left) + rest
    {
      SkipRow(input, dsCnt, left, rest);
      left := left[1..];
      cnt := cnt - 1;
      delta := delta + 1;
    }
  }

  lemma Regroup(a: seq<Value>, b: seq<Value>, c: seq<Value>)
    ensures (a + b) + c == a + (b + c)
  {
  }

  lemma SplitAt(head: seq<Value>, tail: seq<Value>)
    ensures (head + tail)[..|head|] == head && (head + tail)[|head|..] == tail
  {
  }

  /** Without the rows behind `cur`. */
  function Kept(rows: seq<Row>, cur: nat, n: nat): seq<Row>
    requires cur + n < |rows|
  {
    rows[..cur + 1] + rows[cur + 1 + n..]
  }

  method KeepRows(input: Input, out: Output, dsCnt: nat, rowCnt: nat, cur: nat, n: nat,
                  ghost rows: seq<Row>, ghost rest: seq<Value>)
    returns (cnt: nat)
    requires (forall i :: 0 <= i < |rows| ==> |rows[i]| == dsCnt) && cur + n < |rows| == rowCnt
    requires out.Valid() && input.Rest() == Flat(rows) + rest
    requires out.pos + |Flat(Kept(rows, cur, n))| <= out.values.Length
    modifies input`pos, out`pos, out.values
    ensures out.Valid() && cnt == rowCnt - n
    ensures out.Written() + input.Rest() == old(out.Written()) + (Flat(Kept(rows, cur, n)) + rest)
  {
    ghost var first, last := rows[..cur + 1], rows[cur + 1..];
    ShrunkFlat(dsCnt, rows, cur, first, last, last[n..], rest);
    assert last[n..] == rows[cur + 1 + n..];
    Regroup(out.Written(), Flat(first), Flat(last[n..]) + rest);
    Regroup(Flat(first), Flat(last[n..]), rest);
    SplitAt(Flat(first), Flat(last) + rest);
    Move(input, out, dsCnt * (cur + 1));
    cnt := DropNext(input, dsCnt, rowCnt, -(n as int), last, rest);
  }

  /** Rows at the front go when the rows behind the newest do not suffice, then
      the rows up to the newest are kept, then rows behind it go. */
  method ShrinkTarget(dsCnt: nat, rowCnt: nat, curRow: nat, m: nat, input: Input, out: Output,
                      ghost r: Rra, ghost rest: seq<Value>)
    returns (cnt: nat, cur: nat)
    requires Shaped(dsCnt, r) && curRow == r.curRow && rowCnt == |r.rows| && 0 < m < rowCnt
    requires out.Valid() && input.Rest() == Flat(r.rows) + rest
    requires out.pos + |Flat(Shrunk(r, m).rows)| <= out.values.Length
    modifies input`pos, out`pos, out.values
    ensures out.Valid() && cnt == |Shrunk(r, m).rows| && cur == Shrunk(r, m).curRow
    ensures out.Written() + input.Rest() == old(out.Written()) + (Flat(Shrunk(r, m).rows) + rest)
  {
    cnt, cur := rowCnt, curRow;
    var delta := -(m as int);
    var removeEnd := (curRow - delta) % rowCnt;
    Wrap(curRow + m, rowCnt);
    ghost var rows := r.rows;
    if removeEnd <= cur {
      cnt, cur, delta := DropFront(input, dsCnt, rowCnt, curRow, m, removeEnd, rows, rest);
      rows := rows[removeEnd + 1..];
    }
    KeptIsShrunk(r, m, removeEnd, rows, cur);
    cnt := KeepRows(input, out, dsCnt, cnt, cur, -delta, rows, rest);
  }

  /** What is kept of the rows that were not removed at the front. */
  lemma KeptIsShrunk(r: Rra, m: nat, removeEnd: nat, rows: seq<Row>, cur: nat)
    requires r.curRow < |r.rows| && 0 < m < |r.rows|
    requires removeEnd == if r.curRow + m < |r.rows| then r.curRow + m else r.curRow + m - |r.rows|
    requires if removeEnd <= r.curRow then rows == r.rows[removeEnd + 1..] && cur + removeEnd + 1 == r.curRow
             else rows == r.rows && cur == r.curRow
    ensures var n := if removeEnd <= r.curRow then m - removeEnd - 1 else m;
            && n >= 0 && cur + n < |rows| && Kept(rows, cur, n) == Shrunk(r, m).rows && cur == Shrunk(r, m).curRow
            && |rows| - n == |Shrunk(r, m).rows|
  {
    if removeEnd <= r.curRow {
      assert rows[..cur + 1] == r.rows[removeEnd + 1..r.curRow + 1];
    }
  }

  lemma ShrunkFlat(dsCnt: nat, rows: seq<Row>, cur: nat, first: seq<Row>, last: seq<Row>, kept: seq<Row>,
                   rest: seq<Value>)
    requires cur < |rows| && first == rows[..cur + 1] && last == rows[cur + 1..]
    requires forall i :: 0 <= i < |rows| ==> |rows[i]| == dsCnt
    ensures Flat(rows) + rest == Flat(first) + (Flat(last) + rest)
    ensures |Flat(first)| == dsCnt * (cur + 1)
    ensures Flat(first + kept) == Flat(first) + Flat(kept)
  {
    assert rows == first + last;
    FlatAppend(first, last);
    FlatAppend(first, kept);
    FlatLength(dsCnt, first);
  }

  function Resized(dsCnt: nat, r: Rra, mode: Mode, m: nat): Rra
    requires r.curRow < |r.rows| && (mode.Shrink? ==> m < |r.rows|)
  {
    if mode.Grow? then Grown(dsCnt, r, m) else Shrunk(r, m)
  }

  lemma ResizedRows(dsCnt: nat, r: Rra, mode: Mode, m: nat)
    requires Shaped(dsCnt, r) && (mode.Shrink? ==> m < |r.rows|)
    ensures var r' := Resized(dsCnt, r, mode, m);
            && Shaped(dsCnt, r')
            && |r'.rows| == if mode.Grow? then |r.rows| + m else |r.rows| - m
  {
    if mode.Grow? {
      GrownView(dsCnt, r, m);
    } else {
      ShrunkView(dsCnt, r, m);
    }
  }

  lemma FlatAllAround(rras: seq<Rra>, target: nat, r: Rra)
    requires target < |rras|
    ensures FlatAll(rras[target := r]) == FlatAll(rras[..target]) + (Flat(r.rows) + FlatAll(rras[target + 1..]))
  {
    assert rras[target := r] == rras[..target] + ([r] + rras[target + 1..]);
    FlatAllAppend(rras[..target], [r] + rras[target + 1..]);
    assert ([r] + rras[target + 1..])[1..] == rras[target + 1..];
  }

  /** The target archive, in the middle of the file. */
  method ResizeTarget(dsCnt: nat, rowCnt: nat, curRow: nat, mode: Mode, m: nat, input: Input, out: Output,
                      ghost r: Rra, ghost rest: seq<Value>)
    returns (cnt: nat, cur: nat)
    requires Shaped(dsCnt, r) && curRow == r.curRow && rowCnt == |r.rows| && 0 < m
    requires mode.Shrink? ==> m < rowCnt
    requires out.Valid() && input.Rest() == Flat(r.rows) + rest
    requires out.pos + |Flat(Resized(dsCnt, r, mode, m).rows)| + |rest| == out.values.Length
    modifies input`pos, out`pos, out.values
    ensures out.Valid() && cnt == |Resized(dsCnt, r, mode, m).rows| && cur == Resized(dsCnt, r, mode, m).curRow
    ensures out.pos == out.values.Length
    ensures out.Written() == old(out.Written()) + (Flat(Resized(dsCnt, r, mode, m).rows) + rest)
  {
    if mode.Grow? {
      cnt, cur := GrowTarget(dsCnt, rowCnt, curRow, m, input, out, r, rest);
    } else {
      cnt, cur := ShrinkTarget(dsCnt, rowCnt, curRow, m, input, out, r, rest);
    }
    assert out.Written() + input.Rest() == old(out.Written()) + (Flat(Resized(dsCnt, r, mode, m).rows) + rest);
    MoveRest(input, out);
  }

  /** The new file: what stands before the target, the target, and the rest. */
  method CopyFile(dsCnt: nat, rowCnt: nat, curRow: nat, mode: Mode, m: nat, values: seq<Value>, before: nat,
                  length: nat, ghost head: seq<Value>, ghost r: Rra, ghost tail: seq<Value>)
    returns (out: Output, cnt: nat, cur: nat)
    requires Shaped(dsCnt, r) && curRow == r.curRow && rowCnt == |r.rows| && 0 < m
    requires mode.Shrink? ==> m < rowCnt
    requires values == head + (Flat(r.rows) + tail) && |head| == before
    requires length == |head| + |Flat(Resized(dsCnt, r, mode, m).rows) + tail|
    ensures cnt == |Resized(dsCnt, r, mode, m).rows| && cur == Resized(dsCnt, r, mode, m).curRow
    ensures out.values[..] == head + (Flat(Resized(dsCnt, r, mode, m).rows) + tail)
  {
    out := new Output(length);
    var input := new Input(values);
    Move(input, out, before);
    SplitAt(head, Flat(r.rows) + tail);
    assert out.Written() == head;
    cnt, cur := ResizeTarget(dsCnt, rowCnt, curRow, mode, m, input, out, r, tail);
    assert out.values[..] == out.Written();
  }

  /** The sizes the header announces, before and after. */
  method Sizes(dsCnt: nat, rowCnt: array<nat>, target: nat, cnt: nat, ghost rras: seq<Rra>, ghost r: Rra)
    returns (before: nat, length: nat)
    requires target < |rras| == rowCnt.Length && Shaped(dsCnt, r) && cnt == |r.rows|
    requires forall i :: 0 <= i < |rras| ==> Shaped(dsCnt, rras[i]) && rowCnt[i] == |rras[i].rows|
    modifies rowCnt
    ensures rowCnt[..] == old(rowCnt[..])
    ensures before == |FlatAll(rras[..target])| && length == |FlatAll(rras[target := r])|
  {
    var oldCnt := rowCnt[target];
    rowCnt[target] := cnt;
    CountIsLength(dsCnt, rras[target := r], rowCnt[..]);
    length := ValuesOf(dsCnt, rowCnt, rowCnt.Length);
    assert rowCnt[..rowCnt.Length] == rowCnt[..];
    rowCnt[target] := oldCnt;
    CountIsLength(dsCnt, rras[..target], rowCnt[..target]);
    before := ValuesOf(dsCnt, rowCnt, target);
  }

  /** rrd_resize: an error leaves everything as it was; otherwise the new header
      and the new file hold the same archives, the target one resized. */
  method Resize(dsCnt: nat, rowCnt: array<nat>, curRow: array<nat>, values: seq<Value>,
                target: int, mode: Mode, rows: int, ghost rras: seq<Rra>)
    returns (r: Outcome)
    requires rowCnt != curRow && Encodes(dsCnt, rras, rowCnt[..], curRow[..], values)
    modifies rowCnt, curRow
    ensures r.TooFew? <==> rows < 1
    ensures r.NoSuchRra? <==> rows >= 1 && !(0 <= target < |rras|)
    ensures r.NotThatBig? <==> rows >= 1 && 0 <= target < |rras| && mode.Shrink? && |rras[target].rows| <= rows
    ensures !r.Done? ==> rowCnt[..] == old(rowCnt[..]) && curRow[..] == old(curRow[..])
    ensures r.Done? ==>
              Encodes(dsCnt, rras[target := Resized(dsCnt, rras[target], mode, rows)],
                      rowCnt[..], curRow[..], r.out.values[..])
  {
    if rows < 1 {
      return TooFew;
    }
    if !(0 <= target < rowCnt.Length) {
      return NoSuchRra;
    }
    if mode.Shrink? && rowCnt[target] <= rows {
      return NotThatBig;
    }
    ghost var old', new' := rras[target], Resized(dsCnt, rras[target], mode, rows);
    ResizedRows(dsCnt, old', mode, rows);
    FlatAllAround(rras, target, old');
    FlatAllAround(rras, target, new');
    assert rras[target := old'] == rras;
    var size := if mode.Grow? then rowCnt[target] + rows else rowCnt[target] - rows;
    var before, length := Sizes(dsCnt, rowCnt, target, size, rras, new');
    assert forall i {:trigger rowCnt[i]} :: 0 <= i < rowCnt.Length ==> rowCnt[i] == old(rowCnt[..])[i];
    var out, cnt, cur := CopyFile(dsCnt, rowCnt[target], curRow[target], mode, rows, values, before, length,
                                  FlatAll(rras[..target]), old', FlatAll(rras[target + 1..]));
    rowCnt[target], curRow[target] := cnt, cur;
    r := Done(out);
  }
}
