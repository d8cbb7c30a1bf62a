/** lcd: the common step of several series, by Euclid's algorithm in the array that
    lists their steps. */
module CommonStep {
  import opened Arithmetic

  ghost predicate Divides(d: nat, n: nat) {
    d > 0 && n % d == 0
  }

  function Gcd(x: nat, y: nat): (g: nat)
    requires x > 0
    ensures g > 0
    decreases y
  {
    if y == 0 then x else Gcd(y, x % y)
  }

  /** The steps taken pairwise, first to last. */
  function GcdAll(s: seq<nat>): (g: nat)
    requires s != [] && forall i :: 0 <= i < |s| ==> s[i] > 0
    ensures g > 0
  {
    if |s| == 1 then s[0] else Gcd(GcdAll(s[..|s| - 1]), s[|s| - 1])
  }

  /** One division keeps the common divisors. */
  lemma DivisionKeepsDivisors(d: nat, x: nat, y: nat)
    requires d > 0 && y > 0
    ensures Divides(d, x) && Divides(d, y) <==> Divides(d, y) && Divides(d, x % y)
  {
    if Divides(d, y) {
      var q := x / y * (y / d);
      assert x / y * y == q * d by {
        assert y == y / d * d;
        assert x / y * (y / d * d) == x / y * (y / d) * d;
      }
      assert x == q * d + x % y;
      var p, m := x % y / d, x % y % d;
      MulDiff(q, -p, d);
      Quotient(x, d, q + p, m);
    }
  }

  lemma {:induction false} GcdDivisors(d: nat, x: nat, y: nat)
    requires d > 0 && x > 0
    ensures Divides(d, Gcd(x, y)) <==> Divides(d, x) && Divides(d, y)
    decreases y
  {
    if y > 0 {
      GcdDivisors(d, y, x % y);
      DivisionKeepsDivisors(d, x, y);
    }
  }

  /** The common divisors of all steps are exactly the divisors of the result, so
      it divides every step and no greater number does. */
  lemma {:induction false} GcdAllDivisors(d: nat, s: seq<nat>)
    requires d > 0 && s != [] && forall i :: 0 <= i < |s| ==> s[i] > 0
    ensures Divides(d, GcdAll(s)) <==> forall i :: 0 <= i < |s| ==> Divides(d, s[i])
    decreases |s|
  {
    var n := |s| - 1;
    if n > 0 {
      GcdAllDivisors(d, s[..n]);
      GcdDivisors(d, GcdAll(s[..n]), s[n]);
      assert forall i :: 0 <= i < n ==> s[..n][i] == s[i];
    }
  }

  /** The inner loop: both cells end up with the divisor of the two. */
  method Euclid(num: array<nat>, i: nat)
    requires i + 1 < num.Length && num[i] > 0 && num[i + 1] > 0
    modifies num
    ensures num[i] == num[i + 1] == old(Gcd(num[i], num[i + 1]))
    ensures forall k :: 0 <= k < num.Length && k != i && k != i + 1 ==> num[k] == old(num[k])
  {
    ghost var goal := Gcd(num[i], num[i + 1]);
    var rest := 1;
    while rest != 0
      invariant num[i] > 0 && goal == Gcd(num[i], num[i + 1]) && (rest == 0 <==> num[i + 1] == 0)
      invariant forall k :: 0 <= k < num.Length && k != i && k != i + 1 ==> num[k] == old(num[k])
      decreases num[i + 1]
    {
      rest := num[i] % num[i + 1];
      num[i] := num[i + 1];
      num[i + 1] := rest;
    }
    num[i + 1] := num[i];
  }

  /** lcd on `n` steps that end with a zero. */
  method Lcd(num: array<nat>, ghost n: nat) returns (step: nat)
    requires 0 < n < num.Length && num[n] == 0 && forall k :: 0 <= k < n ==> num[k] > 0
    modifies num
    ensures step == GcdAll(old(num[..n]))
  {
    ghost var steps := num[..n];
    var i := 0;
    assert steps[..1] == [steps[0]];
    while num[i + 1] != 0
      invariant i < n && num[n] == 0 && num[i] == GcdAll(steps[..i + 1])
      invariant forall k :: i < k < n ==> num[k] == steps[k]
      decreases n - i
    {
      assert i + 1 < n;
      assert steps[..i + 2][..i + 1] == steps[..i + 1];
      Euclid(num, i);
      i := i + 1;
    }
    assert steps[..i + 1] == steps;
    step := num[i];
  }
}
