/** Polynomials over the field of two elements, as sequences of coefficients with the highest power
    first, and their remainders by a generator of degree 32. */
module Polynomials {

  type Bits = seq<bool>

  function Xor(a: Bits, b: Bits): (r: Bits)
    requires |a| == |b|
    ensures |r| == |a| && forall k :: 0 <= k < |a| ==> r[k] == (a[k] != b[k])
  {
    seq(|a|, k requires 0 <= k < |a| => a[k] != b[k])
  }

  function Zeros(n: nat): (r: Bits)
    ensures |r| == n && forall k :: 0 <= k < n ==> !r[k]
  {
    seq(n, _ => false)
  }

  function XorIf(c: bool, a: Bits, g: Bits): (r: Bits)
    requires |a| == |g|
    ensures |r| == |a|
  {
    if c then Xor(a, g) else a
  }

  /** Long division: while the dividend has more than 32 coefficients, subtract the generator from
      its front if the leading coefficient is 1, and drop that coefficient. `g` is the generator
      without its leading term. */
  function Remainder(p: Bits, g: Bits): (r: Bits)
    requires |p| >= 32 && |g| == 32
    ensures |r| == 32
    decreases |p|
  {
    if |p| == 32 then p else Remainder(XorIf(p[0], p[1..33], g) + p[33..], g)
  }

  /** One step of that division on the first 32 coefficients, when a 0 follows. */
  function Shifted(r: Bits, g: Bits): (s: Bits)
    requires |r| == 32 && |g| == 32
    ensures |s| == 32
  {
    XorIf(r[0], r[1..] + [false], g)
  }

  function ShiftedBy(r: Bits, g: Bits, n: nat): (s: Bits)
    requires |r| == 32 && |g| == 32
    ensures |s| == 32
    decreases n, r
  {
    if n == 0 then r else Shifted(ShiftedBy(r, g, n - 1), g)
  }

  lemma {:induction false} ShiftedFirst(r: Bits, g: Bits, n: nat)
    requires |r| == 32 && |g| == 32
    ensures ShiftedBy(Shifted(r, g), g, n) == ShiftedBy(r, g, n + 1)
  {
    if n > 0 {
      ShiftedFirst(r, g, n - 1);
    }
  }

  lemma XorParts(a: Bits, b: Bits, c: Bits, d: Bits)
    requires |a| == |c| && |b| == |d|
    ensures Xor(a + b, c + d) == Xor(a, c) + Xor(b, d)
  {
  }

  lemma XorAssociates(a: Bits, b: Bits, c: Bits)
    requires |a| == |b| == |c|
    ensures Xor(Xor(a, b), c) == Xor(a, Xor(b, c)) == Xor(Xor(a, c), b)
    ensures Xor(a, b) == Xor(b, a) && Xor(Xor(a, c), Xor(b, c)) == Xor(a, b)
  {
  }

  lemma XorSlices(a: Bits, b: Bits, j: nat, k: nat)
    requires |a| == |b| && j <= k <= |a|
    ensures Xor(a, b)[j..k] == Xor(a[j..k], b[j..k])
  {
  }

  lemma XorIfLinear(c: bool, a: Bits, d: bool, b: Bits, g: Bits)
    requires |a| == |b| == |g|
    ensures XorIf(c != d, Xor(a, b), g) == Xor(XorIf(c, a, g), XorIf(d, b, g))
  {
    XorAssociates(a, b, g);
    XorAssociates(a, g, b);
  }

  /** One round of the long division. */
  function Divided(p: Bits, g: Bits): (q: Bits)
    requires |p| > 32 && |g| == 32
    ensures |q| == |p| - 1
  {
    XorIf(p[0], p[1..33], g) + p[33..]
  }

  lemma DividedLinear(a: Bits, b: Bits, g: Bits)
    requires |a| == |b| > 32 && |g| == 32
    ensures Divided(Xor(a, b), g) == Xor(Divided(a, g), Divided(b, g))
  {
    XorSlices(a, b, 1, 33);
    XorSlices(a, b, 33, |a|);
    XorIfLinear(a[0], a[1..33], b[0], b[1..33], g);
    XorParts(XorIf(a[0], a[1..33], g), a[33..], XorIf(b[0], b[1..33], g), b[33..]);
  }

  /** The remainder of a sum is the sum of the remainders. */
  lemma {:induction false} RemainderLinear(a: Bits, b: Bits, g: Bits)
    requires |a| == |b| >= 32 && |g| == 32
    ensures Remainder(Xor(a, b), g) == Xor(Remainder(a, g), Remainder(b, g))
    decreases |a|
  {
    if |a| > 32 {
      DividedLinear(a, b, g);
      RemainderLinear(Divided(a, g), Divided(b, g), g);
    }
  }

  /** Leading zeros do not matter. */
  lemma {:induction false} LeadingZeros(n: nat, p: Bits, g: Bits)
    requires |p| >= 32 && |g| == 32
    ensures Remainder(Zeros(n) + p, g) == Remainder(p, g)
  {
    if n == 0 {
      assert Zeros(0) + p == p;
    } else {
      var q := Zeros(n) + p;
      assert q[1..33] + q[33..] == Zeros(n - 1) + p;
      LeadingZeros(n - 1, p, g);
    }
  }

  /** A register followed by zeros. */
  lemma {:induction false} RegisterAndZeros(r: Bits, g: Bits, n: nat, k: nat)
    requires |r| == 32 && |g| == 32
    ensures Remainder(r + Zeros(n + k), g) == Remainder(ShiftedBy(r, g, n) + Zeros(k), g)
    decreases n
  {
    if n > 0 {
      RegisterStep(r, g, n - 1 + k);
      RegisterAndZeros(Shifted(r, g), g, n - 1, k);
      ShiftedFirst(r, g, n - 1);
    }
  }

  lemma RegisterStep(r: Bits, g: Bits, m: nat)
    requires |r| == 32 && |g| == 32
    ensures Remainder(r + Zeros(m + 1), g) == Remainder(Shifted(r, g) + Zeros(m), g)
  {
    var p := r + Zeros(m + 1);
    assert p[1..33] == r[1..] + [false] && p[33..] == Zeros(m);
    assert p[1..] == p[1..33] + p[33..];
  }

  lemma ShiftedLinear(a: Bits, b: Bits, g: Bits)
    requires |a| == |b| == |g| == 32
    ensures Shifted(Xor(a, b), g) == Xor(Shifted(a, g), Shifted(b, g))
  {
    assert Xor(a, b)[1..] + [false] == Xor(a[1..] + [false], b[1..] + [false]);
    XorIfLinear(a[0], a[1..] + [false], b[0], b[1..] + [false], g);
  }

  lemma {:induction false} ShiftedByLinear(a: Bits, b: Bits, g: Bits, n: nat)
    requires |a| == |b| == |g| == 32
    ensures ShiftedBy(Xor(a, b), g, n) == Xor(ShiftedBy(a, g, n), ShiftedBy(b, g, n))
  {
    if n > 0 {
      ShiftedByLinear(a, b, g, n - 1);
      ShiftedLinear(ShiftedBy(a, g, n - 1), ShiftedBy(b, g, n - 1), g);
    }
  }
}
