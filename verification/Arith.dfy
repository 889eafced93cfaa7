// Products and quotients of sizes, stated so that proofs about them stay linear.

module Arith {

  /** n * w by repeated addition. */
  function Times(n: nat, w: nat): (p: nat) {
    if n == 0 then 0 else w + Times(n - 1, w)
  }

  lemma {:induction false} TimesIs(n: nat, w: nat)
    ensures Times(n, w) == n * w
  {
    if n > 0 {
      TimesIs(n - 1, w);
      Distribute(w, n, 1);
    }
  }

  lemma Distribute(w: int, x: int, y: int)
    ensures w * (x - y) == w * x - w * y
  {}

  lemma AtLeast(w: nat, d: int)
    requires d >= 1
    ensures w * d >= w
  {}

  lemma {:induction false} TimesAdd(a: nat, b: nat, w: nat)
    ensures Times(a + b, w) == Times(a, w) + Times(b, w)
  {
    if a > 0 { TimesAdd(a - 1, b, w); }
  }

  lemma TimesNext(i: nat, w: nat)
    ensures Times(0, w) == 0
    ensures Times(i + 1, w) == Times(i, w) + w
  {}

  lemma {:induction false} TimesMonotone(a: nat, b: nat, w: nat)
    requires a <= b
    ensures Times(a, w) <= Times(b, w)
    ensures a < b ==> Times(a, w) + w <= Times(b, w)
  {
    TimesAdd(a, b - a, w);
  }

  // Quotient and remainder are determined by the division equation.
  lemma {:induction false} DivIs(a: int, w: nat, q: int, r: int)
    requires w > 0 && a == w * q + r && 0 <= r < w
    ensures a / w == q && a % w == r
  {
    var p := a / w;
    if p < q {
      AtLeast(w, q - p);
      Distribute(w, q, p);
    } else if p > q {
      AtLeast(w, p - q);
      Distribute(w, p, q);
    }
  }

  lemma {:induction false} TimesDiv(n: nat, w: nat)
    requires w > 0
    ensures Times(n, w) / w == n && Times(n, w) % w == 0
  {
    TimesIs(n, w);
    DivIs(Times(n, w), w, n, 0);
  }

  lemma {:induction false} DivTimes(a: nat, w: nat)
    requires w > 0
    ensures Times(a / w, w) <= a < Times(a / w, w) + w
    ensures a - Times(a / w, w) == a % w
  {
    TimesIs(a / w, w);
  }

  // Taking one whole divisor away lowers the quotient by one.
  lemma {:induction false} DivStep(a: nat, w: nat)
    requires 0 < w <= a
    ensures a / w == (a - w) / w + 1 && a % w == (a - w) % w
  {
    var q := (a - w) / w;
    Distribute(w, q + 1, 1);
    DivIs(a, w, q + 1, (a - w) % w);
  }
}
