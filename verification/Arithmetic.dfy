/** Division and multiplication facts the solver does not find by itself. */
module Arithmetic {

  lemma MulGrows(d: int, w: int)
    requires w >= 1
    ensures d >= 1 ==> d * w >= w
    ensures d <= -1 ==> d * w <= -w
  {
  }

  lemma MulMonotone(a: int, b: int, size: int)
    requires size >= 1
    ensures a < b ==> a * size + size <= b * size
    ensures a <= b ==> a * size <= b * size
    ensures (b - a) * size == b * size - a * size
  {
    MulGrows(b - a, size);
  }

  /** Quotient and remainder are unique. */
  lemma ModUnique(a: int, w: nat, q: int, x: int)
    requires w >= 1 && a == q * w + x && 0 <= x < w
    ensures a % w == x && a / w == q
  {
    var d := a / w - q;
    assert a == (a / w) * w + a % w;
    assert d * w == x - a % w;
    MulGrows(d, w);
  }

  lemma QuotientShift(a: int, k: int, n: nat)
    requires n >= 1
    ensures (a + k * n) / n == a / n + k
  {
    var q, r := a / n, a % n;
    assert a == q * n + r;
    assert (q + k) * n == q * n + k * n;
    ModUnique(a + k * n, n, q + k, r);
  }

  // Products and quotients by a variable, as repeated addition and subtraction: a proof that uses them stays
  // linear until it asks for the closed form.

  /** k * size, and 0 for a negative k. */
  function Multiple(k: int, size: int): int
    decreases k
  {
    if k <= 0 then 0 else Multiple(k - 1, size) + size
  }

  lemma {:induction false} MultipleIs(k: nat, size: int)
    ensures Multiple(k, size) == k * size
    decreases k
  {
    if k > 0 { MultipleIs(k - 1, size); }
  }

  lemma {:induction false} MultipleAdd(a: nat, b: nat, size: int)
    ensures Multiple(a + b, size) == Multiple(a, size) + Multiple(b, size)
    decreases b
  {
    if b > 0 { MultipleAdd(a, b - 1, size); }
  }

  lemma {:induction false} MultipleOrder(a: nat, b: nat, size: int)
    requires size >= 1 && a <= b
    ensures Multiple(a, size) <= Multiple(b, size)
    ensures a < b ==> Multiple(a, size) + size <= Multiple(b, size)
    decreases b
  {
    if a < b { MultipleOrder(a, b - 1, size); }
  }

  /** How many times `size` fits into `x`. */
  function Fits(x: int, size: int): nat
    requires size >= 1
    decreases x
  {
    if x < size then 0 else Fits(x - size, size) + 1
  }

  lemma {:induction false} FitsIs(x: nat, size: int)
    requires size >= 1
    ensures Fits(x, size) == x / size
    decreases x
  {
    if x < size {
      ModUnique(x, size, 0, x);
    } else {
      FitsIs(x - size, size);
      QuotientShift(x - size, 1, size);
    }
  }

  lemma {:induction false} FitsBounds(x: int, size: int)
    requires size >= 1
    ensures x < Multiple(Fits(x, size), size) + size && (x >= 0 ==> Multiple(Fits(x, size), size) <= x)
    decreases x
  {
    if x >= size { FitsBounds(x - size, size); }
  }

  lemma {:induction false} FitsOrder(x: int, y: int, size: int)
    requires size >= 1 && x <= y
    ensures Fits(x, size) <= Fits(y, size)
    decreases y
  {
    if x >= size { FitsOrder(x - size, y - size, size); }
  }

  lemma {:induction false} FitsAdd(x: nat, k: nat, size: int)
    requires size >= 1
    ensures Fits(x + Multiple(k, size), size) == Fits(x, size) + k
    decreases k
  {
    if k > 0 {
      FitsAdd(x, k - 1, size);
      MultipleOrder(0, k - 1, size);
    }
  }
}
