/** rrd_diff: the difference of two decimal numbers, digit by digit. */
module Diff {
  import opened Arithmetic

  const LAST_DS_LEN: nat := 30

  // ----- numbers

  predicate IsDigit(c: char) {
    '0' <= c <= '9'
  }

  predicate Digits(s: string) {
    forall i :: 0 <= i < |s| ==> IsDigit(s[i])
  }

  function DigitOf(c: char): int {
    c as int - '0' as int
  }

  function DigitChar(d: int): (c: char)
    requires 0 <= d <= 9
    ensures IsDigit(c) && DigitOf(c) == d
  {
    ('0' as int + d) as char
  }

  function Value(s: string): int {
    if s == "" then 0 else Value(s[..|s| - 1]) * 10 + DigitOf(s[|s| - 1])
  }

  function Pow10(n: nat): nat {
    if n == 0 then 1 else 10 * Pow10(n - 1)
  }

  lemma {:induction false} ValuePrepend(c: char, s: string)
    ensures Value([c] + s) == DigitOf(c) * Pow10(|s|) + Value(s)
  {
    if s == "" {
      assert [c] + s == [c] && [c][..0] == "";
      assert Value([c]) == Value("") * 10 + DigitOf(c);
    } else {
      var n := |s| - 1;
      ValuePrepend(c, s[..n]);
      assert ([c] + s)[..n + 1] == [c] + s[..n];
      Shift(DigitOf(c), Pow10(n));
    }
  }

  lemma Shift(d: int, p: nat)
    ensures d * p * 10 == d * (10 * p)
  {
  }

  lemma {:induction false} ValueBound(s: string)
    requires Digits(s)
    ensures 0 <= Value(s) < Pow10(|s|)
  {
    if s != "" {
      ValueBound(s[..|s| - 1]);
    }
  }

  // ----- the text

  /** Where the number starts: at the first digit, or at the end. */
  function Start(s: string, from: nat): (i: nat)
    requires from <= |s|
    ensures from <= i <= |s| && (i < |s| ==> IsDigit(s[i])) && forall j :: from <= j < i ==> !IsDigit(s[j])
    decreases |s| - from
  {
    if from == |s| || IsDigit(s[from]) then from else Start(s, from + 1)
  }

  /** Where the digits end. */
  function End(s: string, from: nat): (i: nat)
    requires from <= |s|
    ensures from <= i <= |s| && (i < |s| ==> !IsDigit(s[i])) && forall j :: from <= j < i ==> IsDigit(s[j])
    decreases |s| - from
  {
    if from == |s| || !IsDigit(s[from]) then from else End(s, from + 1)
  }

  /** The first run of digits. */
  function Number(s: string): (d: string)
    ensures Digits(d)
  {
    s[Start(s, 0)..End(s, Start(s, 0))]
  }

  /** A minus sign stands somewhere before it. */
  predicate Negative(s: string) {
    '-' in s[..Start(s, 0)]
  }

  /** The integer that a text denotes. */
  function Denotes(s: string): int {
    if Negative(s) then -Value(Number(s)) else Value(Number(s))
  }

  lemma {:induction false} StartBehind(s: string, from: nat, at: nat)
    requires from <= at <= |s| && (forall j :: from <= j < at ==> !IsDigit(s[j])) && (at < |s| ==> IsDigit(s[at]))
    ensures Start(s, from) == at
    decreases at - from
  {
    if from < at {
      StartBehind(s, from + 1, at);
    }
  }

  lemma {:induction false} EndBehind(s: string, from: nat, at: nat)
    requires from <= at <= |s| && (forall j :: from <= j < at ==> IsDigit(s[j])) && (at < |s| ==> !IsDigit(s[at]))
    ensures End(s, from) == at
    decreases at - from
  {
    if from < at {
      EndBehind(s, from + 1, at);
    }
  }

  /** A text of some characters, digits, and something else denotes the digits, negative
      exactly if a minus sign stands in front of them. */
  lemma TextDenotes(front: string, digits: string, rest: string)
    requires (forall i :: 0 <= i < |front| ==> !IsDigit(front[i])) && digits != "" && Digits(digits)
    requires rest != "" ==> !IsDigit(rest[0])
    ensures var s := front + digits + rest;
            && Number(s) == digits && (Negative(s) <==> '-' in front)
            && Denotes(s) == if '-' in front then -Value(digits) else Value(digits)
  {
    var s, n := front + digits + rest, |front| + |digits|;
    assert s[|front|] == digits[0];
    StartBehind(s, 0, |front|);
    EndBehind(s, |front|, n);
    assert s[|front|..n] == digits && s[..|front|] == front;
  }

  /** Only the ten decimal digits are digits, and count what they look like. */
  lemma DigitsAre(i: nat)
    requires i < 10
    ensures var c := "0123456789"[i]; IsDigit(c) && DigitOf(c) == i
    ensures forall c: char :: IsDigit(c) && DigitOf(c) == i ==> c == "0123456789"[i]
  {
  }

  /** Skips to the first digit and cuts the text behind the digits. */
  method Scan(s: string) returns (neg: bool, digits: string)
    ensures neg == Negative(s) && digits == Number(s)
  {
    neg := false;
    var i := 0;
    while i < |s| && !IsDigit(s[i])
      invariant i <= |s| && Start(s, i) == Start(s, 0) && neg == ('-' in s[..i])
    {
      assert s[..i + 1] == s[..i] + [s[i]];
      if s[i] == '-' {
        neg := true;
      }
      i := i + 1;
    }
    var fix := i;
    while fix < |s| && IsDigit(s[fix])
      invariant i <= fix <= |s| && End(s, fix) == End(s, i)
    {
      fix := fix + 1;
    }
    digits := s[i..fix];
  }

  // ----- subtraction

  /** The value of the last x digits, or of all of them if there are fewer. */
  function Low(s: string, x: nat): int {
    if x <= |s| then Value(s[|s| - x..]) else Value(s)
  }

  /** The digit x places from the right, or zero. */
  function DigitAt(s: string, x: nat): int {
    if x < |s| then DigitOf(s[|s| - 1 - x]) else 0
  }

  lemma LowMore(s: string, x: nat)
    ensures Low(s, x + 1) == DigitAt(s, x) * Pow10(x) + Low(s, x)
  {
    if x < |s| {
      var k := |s| - 1 - x;
      assert s[k..] == [s[k]] + s[k + 1..];
      ValuePrepend(s[k], s[k + 1..]);
    } else if x == |s| {
      assert s[0..] == s;
    }
  }

  lemma LowAll(s: string, m: nat)
    requires |s| <= m
    ensures Low(s, m) == Value(s)
  {
    assert s[|s| - |s|..] == s;
  }

  /** The digits in the cells from `at` on. */
  ghost predicate Shows(res: array<char>, at: nat, text: string)
    reads res
  {
    at + |text| <= res.Length && forall i {:trigger text[i]} :: 0 <= i < |text| ==> res[at + i] == text[i]
  }

  /** One digit of the difference, with the borrow. */
  method SubtractDigit(a: string, b: string, x: nat, borrow: int) returns (d: int, newBorrow: int)
    requires Digits(a) && Digits(b) && 0 <= borrow <= 1 && (x < |a| || x < |b|)
    ensures 0 <= d <= 9 && 0 <= newBorrow <= 1
    ensures d - 10 * newBorrow == DigitAt(a, x) - DigitAt(b, x) - borrow
  {
    var ai, bi := |a| - 1 - x, |b| - 1 - x;
    if ai >= 0 && bi >= 0 {
      d := DigitOf(a[ai]) - borrow - DigitOf(b[bi]);
    } else if ai >= 0 {
      d := DigitOf(a[ai]) - borrow;
    } else {
      d := 0 - DigitOf(b[bi]) - borrow;
    }
    if d < 0 {
      d := d + 10;
      newBorrow := 1;
    } else if d > 9 {
      d := d - 10;
      newBorrow := 1;
    } else {
      newBorrow := 0;
    }
  }

  /** With the borrow, r is the difference of a and b. */
  ghost predicate Differs(r: int, power: int, borrow: int, a: int, b: int) {
    r - borrow * power == a - b
  }

  lemma DifferenceStep(r: int, c: int, c': int, d: int, da: int, db: int, la: int, lb: int, p: nat)
    requires Differs(r, p, c, la, lb) && d - 10 * c' == da - db - c
    ensures Differs(d * p + r, 10 * p, c', da * p + la, db * p + lb)
  {
    MulDiff(d, 10 * c', p);
    MulDiff(da, db, p);
    MulDiff(da - db, c, p);
    assert 10 * c' * p == c' * (10 * p);
  }

  lemma DifferenceNext(a: string, b: string, text: string, x: nat, before: int, c: int, d: int)
    requires |text| == x && 0 <= d <= 9 && Differs(Value(text), Pow10(x), before, Low(a, x), Low(b, x))
    requires d - 10 * c == DigitAt(a, x) - DigitAt(b, x) - before
    ensures Differs(Value([DigitChar(d)] + text), Pow10(x + 1), c, Low(a, x + 1), Low(b, x + 1))
  {
    LowMore(a, x);
    LowMore(b, x);
    DifferenceStep(Value(text), before, c, d, DigitAt(a, x), DigitAt(b, x), Low(a, x), Low(b, x), Pow10(x));
    ValuePrepend(DigitChar(d), text);
  }

  /** The difference modulo 10^m from right to left, and the borrow that is left. */
  method Subtract(a: string, b: string, m: nat, res: array<char>) returns (borrow: int, ghost text: string)
    requires Digits(a) && Digits(b) && |a| <= m && |b| <= m && (m == |a| || m == |b|) && m + 2 <= res.Length
    modifies res
    ensures 0 <= borrow <= 1 && |text| == m && Digits(text) && Shows(res, 2, text)
    ensures Differs(Value(text), Pow10(m), borrow, Value(a), Value(b))
    ensures forall j :: 0 <= j < 2 || m + 2 <= j < res.Length ==> res[j] == old(res[j])
  {
    borrow, text := 0, "";
    var r1 := m + 1;
    for x := 0 to m
      invariant r1 == m + 1 - x && 0 <= borrow <= 1 && |text| == x && Digits(text)
      invariant Shows(res, r1 + 1, text)
      invariant Differs(Value(text), Pow10(x), borrow, Low(a, x), Low(b, x))
      invariant forall j :: 0 <= j <= r1 || m + 2 <= j < res.Length ==> res[j] == old(res[j])
    {
      var d, newBorrow := SubtractDigit(a, b, x, borrow);
      DifferenceNext(a, b, text, x, borrow, newBorrow, d);
      var digit := DigitChar(d);
      res[r1] := digit;
      text := [digit] + text;
      borrow := newBorrow;
      r1 := r1 - 1;
    }
    LowAll(a, m);
    LowAll(b, m);
  }

  /** With the carry, v is the complement of the low digits. */
  ghost predicate Complements(v: int, power: int, low: int, carry: int) {
    v == power - low - carry * power
  }

  lemma ComplementStep(v: int, c: int, c': int, d: int, dt: int, lt: int, p: nat)
    requires Complements(v, p, lt, c') && d + 10 * c == 9 - dt + c'
    ensures Complements(d * p + v, 10 * p, dt * p + lt, c)
  {
    MulDiff(d, -10 * c, p);
    MulDiff(9 - dt, -c', p);
    MulDiff(9, dt, p);
    assert 10 * c * p == c * (10 * p);
  }

  method ComplementDigit(digit: char, carry: int) returns (d: int, newCarry: int)
    requires IsDigit(digit) && 0 <= carry <= 1
    ensures 0 <= d <= 9 && 0 <= newCarry <= 1 && d + 10 * newCarry == 9 - DigitOf(digit) + carry
  {
    d := DigitOf('9') - DigitOf(digit) + carry;
    newCarry := 0;
    if d > 9 {
      d := d - 10;
      newCarry := 1;
    }
  }

  lemma ComplementNext(text: string, result: string, x: nat, before: int, c: int, d: int)
    requires |result| == x && 0 <= d <= 9
    requires Complements(Value(result), Pow10(x), Low(text, x), before) && d + 10 * c == 9 - DigitAt(text, x) + before
    ensures Complements(Value([DigitChar(d)] + result), Pow10(x + 1), Low(text, x + 1), c)
  {
    ComplementStep(Value(result), c, before, d, DigitAt(text, x), Low(text, x), Pow10(x));
    LowMore(text, x);
    ValuePrepend(DigitChar(d), result);
  }

  /** The ten's complement of the digits, from right to left. */
  method Complement(m: nat, res: array<char>, ghost text: string) returns (ghost result: string, ghost carry: int)
    requires |text| == m && Digits(text) && Shows(res, 2, text) && m + 2 <= res.Length
    modifies res
    ensures |result| == m && Digits(result) && Shows(res, 2, result)
    ensures 0 <= carry <= 1 && Complements(Value(result), Pow10(m), Value(text), carry)
    ensures forall j :: 0 <= j < 2 || m + 2 <= j < res.Length ==> res[j] == old(res[j])
  {
    var c := 1;
    result := "";
    var x: nat, r1 := 0, m + 1;
    ghost var left := text;
    while x < m && IsDigit(res[r1])
      invariant x <= m && r1 == m + 1 - x && 0 <= c <= 1 && |result| == x && Digits(result)
      invariant left == text[..m - x] && Shows(res, r1 + 1, result) && Shows(res, 2, left)
      invariant Complements(Value(result), Pow10(x), Low(text, x), c)
      invariant forall j :: 0 <= j < 2 || m + 2 <= j < res.Length ==> res[j] == old(res[j])
    {
      ghost var before := c;
      var d: int;
      d, c := ComplementCell(res, r1, c, left, result);
      ComplementNext(text, result, x, before, c, d);
      result := [DigitChar(d)] + result;
      left := left[..|left| - 1];
      x, r1 := x + 1, r1 - 1;
    }
    if x < m {
      StillDigit(res, left);
      assert false;
    }
    LowAll(text, m);
    carry := c;
  }

  lemma StillDigit(res: array<char>, left: string)
    requires left != "" && Digits(left) && Shows(res, 2, left)
    ensures IsDigit(res[|left| + 1])
  {
    assert res[|left| + 1] == left[|left| - 1];
  }

  /** The last digit that is left goes over into the complement. */
  method ComplementCell(res: array<char>, r1: nat, carry: int, ghost left: string, ghost result: string)
    returns (d: int, newCarry: int)
    requires left != "" && r1 == |left| + 1 && Digits(left) && 0 <= carry <= 1
    requires Shows(res, 2, left) && Shows(res, r1 + 1, result)
    modifies res
    ensures 0 <= d <= 9 && 0 <= newCarry <= 1 && d + 10 * newCarry == 9 - DigitOf(left[|left| - 1]) + carry
    ensures Shows(res, 2, left[..|left| - 1]) && Shows(res, r1, [DigitChar(d)] + result)
    ensures forall j :: 0 <= j < res.Length && j != r1 ==> res[j] == old(res[j])
  {
    assert res[r1] == left[|left| - 1];
    d, newCarry := ComplementDigit(res[r1], carry);
    res[r1] := DigitChar(d);
  }

  // ----- the whole operation

  datatype Result = Unknown | Overflow | Known(difference: int)

  /** The texts are accepted: numbers of the same sign that pass the length check. */
  predicate Accepted(a: string, b: string) {
    && Number(a) != "" && Number(b) != "" && Negative(a) == Negative(b)
    && |Number(a)| <= LAST_DS_LEN && |Number(b)| <= LAST_DS_LEN
  }

  /** The result buffer has room for the longer number, two blanks in front of it
      and the final zero. */
  predicate Fits(a: string, b: string) {
    |Number(a)| + 2 <= LAST_DS_LEN && |Number(b)| + 2 <= LAST_DS_LEN
  }

  /** In numbers: up to 30 digits are accepted, and up to 28 fit. */
  lemma Lengths(a: string, b: string)
    ensures Accepted(a, b)
            <==> && 1 <= |Number(a)| <= 30 && 1 <= |Number(b)| <= 30
                 && (Negative(a) <==> Negative(b))
    ensures Fits(a, b) <==> |Number(a)| <= 28 && |Number(b)| <= 28
  {
  }

  /** rrd_diff; with `Overflow` the source writes behind its result buffer. */
  method Diff(a: string, b: string) returns (r: Result)
    ensures r.Unknown? <==> !Accepted(a, b)
    ensures r.Overflow? <==> Accepted(a, b) && !Fits(a, b)
    ensures r.Known? ==> r.difference == Denotes(a) - Denotes(b)
  {
    var res := new char[LAST_DS_LEN + 1];
    var aNeg, x := Scan(a);
    var bNeg, y := Scan(b);
    if x == "" || y == "" {
      return Unknown;
    }
    if aNeg != bNeg {
      return Unknown;
    }
    var m := if |x| > |y| then |x| else |y|;
    if m > LAST_DS_LEN {
      return Unknown;
    }
    if m + 2 >= res.Length {
      return Overflow;
    }
    var result := DiffDigits(x, y, m, res);
    if aNeg && bNeg {
      result := -result;
    }
    r := Known(result);
  }

  /** A text of digits is its own number. */
  lemma NumberOfDigits(s: string)
    requires Digits(s)
    ensures Number(s) == s && !Negative(s)
  {
    assert Start(s, 0) == 0 && End(s, 0) == |s|;
  }

  function Nines(n: nat): (s: string)
    ensures |s| == n && Digits(s)
  {
    seq(n, _ => '9')
  }

  /** A counter of 29 digits has no room, whatever shorter number is taken from it. */
  lemma NoRoom(b: string)
    requires Digits(b) && 0 < |b| <= 29
    ensures Accepted(Nines(29), b) && !Fits(Nines(29), b)
  {
    NumberOfDigits(Nines(29));
    NumberOfDigits(b);
  }

  /** The digits subtracted, complemented if a borrow is left, and read again. */
  method DiffDigits(a: string, b: string, m: nat, res: array<char>) returns (result: int)
    requires Digits(a) && Digits(b) && |a| <= m && |b| <= m && (m == |a| || m == |b|) && m + 2 < res.Length
    modifies res
    ensures result == Value(a) - Value(b)
  {
    for i := 0 to m + 2 {
      res[i] := ' ';
    }
    res[m + 2] := '\0';
    var borrow: int;
    ghost var text: string;
    borrow, text := Subtract(a, b, m, res);
    ValueBound(text);
    Leading(a, m);
    Leading(b, m);
    if borrow != 0 {
      ghost var complement, carry := Complement(m, res, text);
      ValueBound(complement);
      assert carry == 0;
      assert res[2..m + 2] == complement;
      result := -Value(res[2..m + 2]);
    } else {
      assert res[2..m + 2] == text;
      result := Value(res[2..m + 2]);
    }
  }

  lemma {:induction false} PowerGrows(n: nat, m: nat)
    requires n <= m
    ensures 0 < Pow10(n) <= Pow10(m)
    decreases m
  {
    if n < m {
      PowerGrows(n, m - 1);
    } else if n > 0 {
      PowerGrows(n - 1, n - 1);
    }
  }

  lemma Leading(s: string, m: nat)
    requires Digits(s) && |s| <= m
    ensures 0 <= Value(s) < Pow10(m)
  {
    ValueBound(s);
    PowerGrows(|s|, m);
  }

  /** Exchanging the numbers changes the sign of the difference. */
  method DiffBothWays(a: string, b: string) returns (ab: Result, ba: Result)
    ensures (ab.Unknown? <==> ba.Unknown?) && (ab.Overflow? <==> ba.Overflow?)
    ensures ab.Known? ==> ba.difference == -ab.difference
  {
    ab := Diff(a, b);
    ba := Diff(b, a);
  }
}
