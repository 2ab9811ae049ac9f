/** Iterating an operator that respects an addition; nothing here depends on what the values are. */
module Iteration {

  function Iterate<T>(f: T -> T, n: nat, c: T): (r: T)
  {
    if n == 0 then c else Iterate(f, n - 1, f(c))
  }

  ghost predicate Additive<T(!new)>(f: T -> T, add: (T, T) -> T)
  {
    forall a, b :: f(add(a, b)) == add(f(a), f(b))
  }

  lemma {:induction false} IterateAdditive<T(!new)>(f: T -> T, add: (T, T) -> T, n: nat, a: T, b: T)
    requires Additive(f, add)
    ensures Iterate(f, n, add(a, b)) == add(Iterate(f, n, a), Iterate(f, n, b))
    decreases n
  {
    if n != 0 {
      IterateAdditive(f, add, n - 1, f(a), f(b));
    }
  }

  /** A value in two parts, one of which the iteration is known on. */
  lemma IterateParts<T(!new)>(f: T -> T, add: (T, T) -> T, n: nat, c: T, x: T, y: T, y': T)
    requires Additive(f, add) && c == add(x, y) && Iterate(f, n, y) == y'
    ensures Iterate(f, n, c) == add(Iterate(f, n, x), y')
  {
    IterateAdditive(f, add, n, x, y);
  }

  lemma IterateFour<T(!new)>(f: T -> T, add: (T, T) -> T, n: nat, a: T, b: T, c: T, d: T)
    requires Additive(f, add)
    ensures Iterate(f, n, add(add(add(a, b), c), d))
      == add(add(add(Iterate(f, n, a), Iterate(f, n, b)), Iterate(f, n, c)), Iterate(f, n, d))
  {
    IterateAdditive(f, add, n, add(add(a, b), c), d);
    IterateAdditive(f, add, n, add(a, b), c);
    IterateAdditive(f, add, n, a, b);
  }

  /** A step that adds `b` after `n` rounds is a round over the sum with `y`, where `y` comes down to `b`. */
  lemma StepLater<T(!new)>(f: T -> T, add: (T, T) -> T, n: nat, m: nat, x: T, y: T, b: T)
    requires Additive(f, add) && Iterate(f, n, y) == b
    ensures Iterate(f, m, add(Iterate(f, n, x), b)) == Iterate(f, m + n, add(x, y))
  {
    IterateAdditive(f, add, n, x, y);
    IterateSum(f, m, n, add(x, y));
  }

  /** Four steps that each add a digit. */
  function FourSteps<T>(f: T -> T, add: (T, T) -> T, n: nat, c: T, b0: T, b1: T, b2: T, b3: T): (r: T)
  {
    Iterate(f, n, add(Iterate(f, n, add(Iterate(f, n, add(Iterate(f, n, add(c, b0)), b1)), b2)), b3))
  }

  /** They are one long run after adding all four digits in their places. */
  lemma FourLater<T(!new)>(f: T -> T, add: (T, T) -> T, n: nat, m: nat, c: T, b0: T, b1: T, b2: T, b3: T, y1: T, y2: T,
                    y3: T, z: T)
    requires Additive(f, add) && Iterate(f, n, y1) == b1 && Iterate(f, 2 * n, y2) == b2 && Iterate(f, 3 * n, y3) == b3
    requires z == add(add(add(add(c, b0), y1), y2), y3) && m == 4 * n
    ensures FourSteps(f, add, n, c, b0, b1, b2, b3) == Iterate(f, m, z)
  {
    var x0 := add(c, b0);
    StepLater(f, add, n, n, x0, y1, b1);
    StepLater(f, add, 2 * n, n, add(x0, y1), y2, b2);
    StepLater(f, add, 3 * n, n, add(add(x0, y1), y2), y3, b3);
  }

  lemma {:induction false} IterateSum<T>(f: T -> T, m: nat, n: nat, c: T)
    ensures Iterate(f, m + n, c) == Iterate(f, m, Iterate(f, n, c))
    decreases n
  {
    if n != 0 {
      IterateSum(f, m, n - 1, f(c));
    }
  }

  /** How a message is cut into its next digit and the rest. */
  datatype Digits<!T> = Digits(low: T -> T, high: T -> T, zero: T)

  /** Add the next digit, apply the operator, and so on, `k` times. */
  function Serial<T>(f: T -> T, add: (T, T) -> T, d: Digits<T>, c: T, b: T, k: nat): (r: T)
    decreases k
  {
    if k == 0 then c else Serial(f, add, d, f(add(c, d.low(b))), d.high(b), k - 1)
  }

  /** `b` has at most `k` digits. */
  ghost predicate Fits<T(!new)>(d: Digits<T>, b: T, k: nat)
  {
    if k == 0 then b == d.zero else Fits(d, d.high(b), k - 1)
  }

  /** One application moves the digits still to come down by one place. */
  ghost predicate Absorbs<T(!new)>(f: T -> T, add: (T, T) -> T, d: Digits<T>)
  {
    && (forall c, b :: f(add(c, b)) == add(f(add(c, d.low(b))), d.high(b)))
    && (forall c :: add(c, d.zero) == c)
  }

  /** An additive operator absorbs digits when the rest of a message is just moved down by it. */
  lemma AbsorbsFrom<T(!new)>(f: T -> T, add: (T, T) -> T, d: Digits<T>, up: T -> T)
    requires Additive(f, add)
    requires forall c, b :: add(c, b) == add(add(c, d.low(b)), up(b))
    requires forall b :: f(up(b)) == d.high(b)
    requires forall c :: add(c, d.zero) == c
    ensures Absorbs(f, add, d)
  {
    forall c, b
      ensures f(add(c, b)) == add(f(add(c, d.low(b))), d.high(b))
    {
      assert f(add(add(c, d.low(b)), up(b))) == add(f(add(c, d.low(b))), f(up(b)));
    }
  }

  /** Adding a message digit by digit is adding all of it at the start. */
  lemma {:induction false} SerialAtOnce<T(!new)>(f: T -> T, add: (T, T) -> T, d: Digits<T>, c: T, b: T, k: nat)
    requires Absorbs(f, add, d) && Fits(d, b, k)
    ensures Serial(f, add, d, c, b, k) == Iterate(f, k, add(c, b))
    decreases k
  {
    if k != 0 {
      SerialAtOnce(f, add, d, f(add(c, d.low(b))), d.high(b), k - 1);
    }
  }

  // ----- Matrices of operators -----

  /** Values are sums of digits in places: `one` in place `i` is `Iterate(up, i, one)`. */
  ghost predicate Placed<T(!new)>(add: (T, T) -> T, d: Digits<T>, up: T -> T, one: T)
  {
    && Additive(up, add) && up(d.zero) == d.zero
    && (forall v :: v == add(d.low(v), up(d.high(v))))
    && (forall v :: d.low(v) == d.zero || d.low(v) == one)
    && (forall a :: add(a, d.zero) == a && add(d.zero, a) == a)
    && (forall a, b, c :: add(add(a, b), c) == add(a, add(b, c)))
  }

  lemma {:induction false} IterateFixed<T>(f: T -> T, n: nat, z: T)
    requires f(z) == z
    ensures Iterate(f, n, z) == z
  {
    if n != 0 {
      IterateFixed(f, n - 1, z);
    }
  }

  /** The columns `m` hold the operator applied to one in each place. */
  ghost predicate Represents<T(!new)>(f: T -> T, n: nat, up: T -> T, one: T, m: seq<T>)
  {
    forall i :: 0 <= i < |m| ==> m[i] == Iterate(f, n, Iterate(up, i, one))
  }

  /** One round of the matrix product: the lowest digit selects a column, the rest moves one place up. */
  lemma TimesStep<T(!new)>(f: T -> T, n: nat, add: (T, T) -> T, d: Digits<T>, up: T -> T, one: T, m: seq<T>, goal: T,
                    sum: T, v: T, i: nat)
    requires Additive(f, add) && f(d.zero) == d.zero && Placed(add, d, up, one) && Represents(f, n, up, one, m)
    requires i < |m|
    requires goal == add(sum, Iterate(f, n, Iterate(up, i, v)))
    ensures d.low(v) == one ==> goal == add(add(sum, m[i]), Iterate(f, n, Iterate(up, i + 1, d.high(v))))
    ensures d.low(v) == d.zero ==> goal == add(sum, Iterate(f, n, Iterate(up, i + 1, d.high(v))))
  {
    var lo, hi := d.low(v), up(d.high(v));
    IterateAdditive(up, add, i, lo, hi);
    IterateAdditive(f, add, n, Iterate(up, i, lo), Iterate(up, i, hi));
    IterateFixed(up, i, d.zero);
    IterateFixed(f, n, d.zero);
    assert Iterate(up, i + 1, d.high(v)) == Iterate(up, i, hi);
  }

  /** Applying the operator to its own columns doubles the count. */
  lemma SquareColumn<T>(f: T -> T, n: nat, c: T)
    ensures Iterate(f, n, Iterate(f, n, c)) == Iterate(f, 2 * n, c)
  {
    IterateSum(f, n, n, c);
  }

  /** Where the operator undoes a move to the next place, its columns are ones in the places before. */
  lemma NextColumn<T>(f: T -> T, up: T -> T, one: T, n: nat, row: T, next: T)
    requires row == Iterate(up, n, one) && up(row) == next && f(next) == row
    ensures next == Iterate(up, n + 1, one) && row == Iterate(f, 1, Iterate(up, n + 1, one))
  {
    IterateSum(up, 1, n, one);
    assert Iterate(f, 0, f(next)) == f(next) && Iterate(up, 0, up(row)) == up(row);
  }

  lemma SumFour<T(!new)>(add: (T, T) -> T, c: T, b0: T, b1: T, b2: T, b3: T)
    requires forall x, y, z :: add(add(x, y), z) == add(x, add(y, z))
    ensures add(c, add(add(add(b0, b1), b2), b3)) == add(add(add(add(c, b0), b1), b2), b3)
  {
    assert add(c, add(add(b0, b1), b2)) == add(add(c, add(b0, b1)), b2);
  }

  lemma Backwards<T(!new)>(add: (T, T) -> T, x: T, y: T, u: T, v: T)
    requires (forall a, b :: add(a, b) == add(b, a)) && (forall a, b, c :: add(add(a, b), c) == add(a, add(b, c)))
    ensures add(add(add(x, y), u), v) == add(add(add(v, u), y), x)
  {
    assert add(add(add(x, y), u), v) == add(v, add(u, add(y, x)));
    assert add(add(add(v, u), y), x) == add(add(v, u), add(y, x));
  }

  // ----- Messages -----

  ghost predicate Swaps<T(!new)>(add: (T, T) -> T)
  {
    forall a, b, c :: add(add(a, b), c) == add(add(a, c), b)
  }

  /** A difference in the register goes its own way, whatever the message. */
  lemma StepApart<T(!new)>(f: T -> T, add: (T, T) -> T, n: nat, x: T, y: T, b: T)
    requires Additive(f, add) && Swaps(add)
    ensures Iterate(f, n, add(add(x, y), b)) == add(Iterate(f, n, add(x, b)), Iterate(f, n, y))
  {
    IterateAdditive(f, add, n, add(x, b), y);
  }
}
