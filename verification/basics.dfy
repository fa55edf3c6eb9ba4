/** Shared vocabulary: optional values, Python's integer conversion of a
    number, and the rectangle objects the drawing canvas hands over. */
module Basics {

  /** A value that may be absent (Python's `None`). */
  datatype Option<+T> = None | Some(value: T)

  /** A drawn object as delivered by the drawing canvas: JSON field name to
      number. Numbers are modelled as exact reals. */
  type CanvasObject = map<string, real>

  function Min(a: int, b: int): int { if a <= b then a else b }

  function Max(a: int, b: int): int { if a <= b then b else a }

  /** True when `n` is `v` with its fractional part dropped, i.e. `v` rounded
      toward zero. */
  ghost predicate IsTruncation(v: real, n: int)
  {
    if 0.0 <= v then 0 <= n && n as real <= v < n as real + 1.0
    else n <= 0 && n as real - 1.0 < v <= n as real
  }

  /** Python's `int()` applied to a float: rounds toward zero, which agrees
      with `Floor` only for non-negative arguments. */
  function Trunc(v: real): int
  {
    if 0.0 <= v then v.Floor else -((-v).Floor)
  }

  /** `Trunc` meets the definition of truncation. */
  lemma TruncIsTruncation(v: real)
    ensures IsTruncation(v, Trunc(v))
  {
  }

  /** The truncation of a number is unique, so `IsTruncation` is an
      independent definition of `Trunc`. */
  lemma TruncUnique(v: real, n: int)
    requires IsTruncation(v, n)
    ensures n == Trunc(v)
  {
    var t := Trunc(v);
    TruncIsTruncation(v);
    if 0.0 <= v {
      assert n as real <= v < t as real + 1.0 && t as real <= v < n as real + 1.0;
      assert n < t + 1 && t < n + 1;
    } else {
      assert t as real - 1.0 < v <= n as real && n as real - 1.0 < v <= t as real;
      assert t < n + 1 && n < t + 1;
    }
  }

  /** Truncating a sum of non-negative numbers gives the sum of the
      truncations, or one more. */
  lemma TruncOfSum(a: real, b: real)
    requires 0.0 <= a && 0.0 <= b
    ensures Trunc(a) + Trunc(b) <= Trunc(a + b) <= Trunc(a) + Trunc(b) + 1
  {
    var ta, tb, ts := Trunc(a), Trunc(b), Trunc(a + b);
    TruncIsTruncation(a);
    TruncIsTruncation(b);
    TruncIsTruncation(a + b);
    assert ta as real + tb as real <= a + b < ts as real + 1.0;
    assert ts as real <= a + b < ta as real + tb as real + 2.0;
  }

  /** Truncating `v / f` names the cell of size `f` that holds `v`: counted
      from 0 upward for non-negative `v`, and from 0 downward for negative
      `v`, since truncation rounds toward zero. */
  lemma PixelCovers(v: real, f: real)
    requires f > 0.0
    ensures var n := Trunc(v / f);
            && (0.0 <= v ==> n as real * f <= v < (n + 1) as real * f)
            && (v < 0.0 ==> (n - 1) as real * f < v <= n as real * f)
  {
    var q := v / f;
    var n := Trunc(q);
    TruncIsTruncation(q);
    var lo, hi := n as real, n as real + 1.0;
    if 0.0 <= v {
      assert 0.0 <= q;
      assert lo <= q < hi;
      MulMono(lo, q, f);
      MulMonoStrict(q, hi, f);
      assert q * f == v;
      assert v < hi * f;
      assert (n + 1) as real == hi;
    } else {
      assert q < 0.0;
      lo, hi := n as real - 1.0, n as real;
      assert lo < q <= hi;
      MulMono(q, hi, f);
      MulMonoStrict(lo, q, f);
      assert q * f == v;
      assert lo * f < v;
      assert (n - 1) as real == lo;
    }
  }

  lemma MulMono(a: real, b: real, f: real)
    requires a <= b && 0.0 < f
    ensures a * f <= b * f
  {
  }

  lemma MulMonoStrict(a: real, b: real, f: real)
    requires a < b && 0.0 < f
    ensures a * f < b * f
  {
  }
}
