/** Exact money arithmetic. Amounts are exact reals; `Number(x.toFixed(2))`
    is modelled by `Round2`, which rounds the exact value to the nearest cent
    the way ECMAScript's Number.prototype.toFixed does (the magnitude is
    rounded, ties go to the larger magnitude). */
module Money {

  /** The amount is a whole number of cents. */
  predicate IsCents(x: real) {
    (x * 100.0).Floor as real == x * 100.0
  }

  /** `r` is `x` rounded to cents: a whole number of cents, within half a cent
      of `x`, and `x` itself when `x` already is whole cents. */
  predicate RoundsTo(x: real, r: real) {
    && IsCents(r)
    && -0.005 <= r - x <= 0.005
    && (IsCents(x) ==> r == x)
  }

  /** Rounds to cents, ties upwards. */
  function HalfUp(y: real): (r: real)
    ensures IsCents(r)
    ensures -0.005 < r - y <= 0.005
  {
    var k := (y * 100.0 + 0.5).Floor;
    assert (k as real) <= y * 100.0 + 0.5 < (k as real) + 1.0;
    assert ((k as real) / 100.0) * 100.0 == k as real;
    (k as real) / 100.0
  }

  lemma HalfUpOfCents(y: real)
    requires IsCents(y)
    ensures HalfUp(y) == y
  {
    var k := (y * 100.0).Floor;
    assert y * 100.0 + 0.5 == (k as real) + 0.5;
    assert (y * 100.0 + 0.5).Floor == k;
  }

  lemma CentsNeg(x: real)
    requires IsCents(x)
    ensures IsCents(-x)
  {
    var k := (x * 100.0).Floor;
    assert -x * 100.0 == (-k) as real;
  }

  /** `Number(x.toFixed(2))` on an exact value. */
  function Round2(x: real): (r: real)
    ensures RoundsTo(x, r)
    ensures x >= 0.0 ==> r >= 0.0
    // a tie goes to the larger magnitude
    ensures x >= 0.0 ==> -0.005 < r - x
    ensures x < 0.0 ==> r - x < 0.005
  {
    if x < 0.0 then
      var h := HalfUp(-x);
      assert IsCents(-h) by { CentsNeg(h); }
      assert IsCents(x) ==> h == -x by {
        if IsCents(x) {
          CentsNeg(x);
          HalfUpOfCents(-x);
        }
      }
      -h
    else
      assert IsCents(x) ==> HalfUp(x) == x by {
        if IsCents(x) { HalfUpOfCents(x); }
      }
      HalfUp(x)
  }

  /** toFixed rounds the magnitude, so rounding commutes with negation. */
  lemma Round2Odd(x: real)
    ensures Round2(-x) == -Round2(x)
  {
  }

  /** `(a * b).toFixed(2)` read back as a number: a price times a quantity,
      rounded to cents. */
  function RoundedProduct(a: real, b: real): (r: real)
    ensures RoundsTo(a * b, r)
  {
    var x := a * b;
    Round2(x)
  }

  /** A rounded amount is already rounded. */
  lemma Round2Idempotent(x: real)
    ensures Round2(Round2(x)) == Round2(x)
  {
  }

  /** `s.reduce((acc, e) => acc + f(e), 0)`: a left fold from zero. */
  function Sum<T>(s: seq<T>, f: T -> real): (r: real)
    ensures |s| == 0 ==> r == 0.0
    ensures (forall i :: 0 <= i < |s| ==> f(s[i]) >= 0.0) ==> r >= 0.0
  {
    if |s| == 0 then 0.0 else Sum(s[..|s| - 1], f) + f(s[|s| - 1])
  }

  /** The fold splits over concatenation: adding one more line adds exactly its amount. */
  lemma {:induction false} SumAppend<T>(a: seq<T>, b: seq<T>, f: T -> real)
    ensures Sum(a + b, f) == Sum(a, f) + Sum(b, f)
    decreases |b|
  {
    if |b| == 0 {
      assert a + b == a;
    } else {
      assert (a + b)[..|a + b| - 1] == a + b[..|b| - 1];
      SumAppend(a, b[..|b| - 1], f);
    }
  }

  lemma CentsAdd(x: real, y: real)
    requires IsCents(x) && IsCents(y)
    ensures IsCents(x + y)
  {
    var k := (x * 100.0).Floor;
    var m := (y * 100.0).Floor;
    assert (x + y) * 100.0 == (k + m) as real;
  }

  /** A sum of whole-cent amounts is a whole-cent amount. */
  lemma {:induction false} SumOfCents<T>(s: seq<T>, f: T -> real)
    ensures (forall i :: 0 <= i < |s| ==> IsCents(f(s[i]))) ==> IsCents(Sum(s, f))
  {
    if |s| == 0 {
      assert 0.0 * 100.0 == 0 as real;
    } else if forall i :: 0 <= i < |s| ==> IsCents(f(s[i])) {
      var init := s[..|s| - 1];
      assert forall i :: 0 <= i < |init| ==> init[i] == s[i];
      SumOfCents(init, f);
      CentsAdd(Sum(init, f), f(s[|s| - 1]));
    }
  }

  /** If every term of one fold is within half a cent of the matching term of
      another, the two sums are within half a cent per term of each other. */
  lemma {:induction false} SumDrift<T>(s: seq<T>, f: T -> real, g: T -> real)
    requires forall i :: 0 <= i < |s| ==> -0.005 <= f(s[i]) - g(s[i]) <= 0.005
    ensures -(|s| as real) * 0.005 <= Sum(s, f) - Sum(s, g) <= (|s| as real) * 0.005
  {
    if |s| > 0 {
      var p := s[..|s| - 1];
      assert forall i :: 0 <= i < |p| ==> p[i] == s[i];
      SumDrift(p, f, g);
    }
  }
}
