/** The order in which `send` visits the destination workers. */
module Rotation {

  /** Step `i` of a pass over `n` destinations visits destination `(start + i) % n`. */
  function Dst(start: nat, i: nat, n: nat): (d: nat)
    requires n > 0
    ensures d < n
  {
    (start + i) % n
  }

  /** The destinations of a pass, in visiting order. */
  function Order(start: nat, n: nat): (o: seq<nat>)
    ensures |o| == n
  {
    seq(n, i requires 0 <= i < n => Dst(start, i, n))
  }

  predicate Distinct(s: seq<nat>)
  {
    forall i, j :: 0 <= i < j < |s| ==> s[i] != s[j]
  }

  /** Euclidean division is unique: `q * n + r` with `0 <= r < n` leaves remainder `r`. */
  lemma DivModUnique(x: int, n: int, q: int, r: int)
    requires n > 0 && 0 <= r < n && x == q * n + r
    ensures x % n == r && x / n == q
  {
    var q', r' := x / n, x % n;
    assert x == q' * n + r';
    assert (q - q') * n == r' - r;
    if q > q' {
      assert (q - q') * n >= n by { MulAtLeast(q - q', n); }
    } else if q < q' {
      assert (q' - q) * n >= n by { MulAtLeast(q' - q, n); }
    }
  }

  lemma MulAtLeast(a: int, n: int)
    requires a >= 1 && n > 0
    ensures a * n >= n
  {
  }

  lemma MulSign(a: int, n: int)
    requires n > 0
    ensures a >= 1 ==> a * n >= n
    ensures a <= 0 ==> a * n <= 0
  {
  }

  /** Two different steps of one pass never visit the same destination. */
  lemma {:induction false} StepsDiffer(start: nat, i: nat, j: nat, n: nat)
    requires i < j < n
    ensures (start + i) % n != (start + j) % n
  {
    var q1, r1 := (start + i) / n, (start + i) % n;
    var q2, r2 := (start + j) / n, (start + j) % n;
    assert start + i == q1 * n + r1;
    assert start + j == q2 * n + r2;
    assert (q2 - q1) * n == q2 * n - q1 * n == j - i - r2 + r1;
    MulSign(q2 - q1, n);
  }

  /** Destination `d` is visited at step `(d - start % n)` taken modulo `n`. */
  lemma {:induction false} StepReaching(start: nat, d: nat, n: nat) returns (i: nat)
    requires d < n
    ensures i < n && (start + i) % n == d
  {
    var q, s := start / n, start % n;
    assert start == q * n + s;
    if d >= s {
      i := d - s;
      DivModUnique(start + i, n, q, d);
    } else {
      i := d + n - s;
      assert start + i == (q + 1) * n + d;
      DivModUnique(start + i, n, q + 1, d);
    }
  }

  /** A pass visits destinations in [0, n), never the same one twice. */
  lemma OrderDistinct(start: nat, n: nat)
    ensures forall k :: 0 <= k < |Order(start, n)| ==> Order(start, n)[k] < n
    ensures Distinct(Order(start, n))
  {
    var o := Order(start, n);
    forall i, j | 0 <= i < j < |o| ensures o[i] != o[j] {
      StepsDiffer(start, i, j, n);
    }
  }

  /** A pass reaches every destination in [0, n). */
  lemma OrderCovers(start: nat, n: nat)
    ensures forall d :: 0 <= d < n ==> d in Order(start, n)
  {
    var o := Order(start, n);
    forall d | 0 <= d < n ensures d in o {
      var i := StepReaching(start, d, n);
      assert o[i] == d;
    }
  }

  /** One pass of `send` visits every destination in [0, n) exactly once, starting
      at `start % n`. */
  lemma OrderIsPermutation(start: nat, n: nat)
    ensures |Order(start, n)| == n
    ensures forall k :: 0 <= k < n ==> Order(start, n)[k] < n
    ensures Distinct(Order(start, n))
    ensures forall d :: 0 <= d < n ==> d in Order(start, n)
    ensures n > 0 ==> Order(start, n)[0] == start % n
  {
    OrderDistinct(start, n);
    OrderCovers(start, n);
  }
}
