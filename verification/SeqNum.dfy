/** Sequence numbers modulo `n`: the arithmetic behind V(S), V(R) and V(A).
    An unbounded counter X is represented by X % n, and the window tests of the link are
    written with the distance (x - base + n) % n. The lemmas here relate the two. */
module SeqNum {

  /** The C expression (x - base + n) % n. */
  function Dist(x: nat, base: nat, n: nat): (d: nat)
    requires base < n
    ensures d < n
  {
    (x - base + n) % n
  }

  /** The C expression (v + 1) % n. */
  function Succ(v: nat, n: nat): (r: nat)
    requires 0 < n
    ensures r < n
  {
    (v + 1) % n
  }

  lemma ModUnique(a: int, q: int, r: int, n: int)
    requires 0 < n && 0 <= r < n && a == q * n + r
    ensures a % n == r
  {
    var d := a / n - q;
    assert a == (a / n) * n + a % n;
    assert d * n == r - a % n by {
      assert d * n == (a / n) * n - q * n;
    }
    MulAway(d, n);
  }

  lemma MulAway(d: int, n: int)
    requires 0 < n
    ensures d >= 1 ==> d * n >= n
    ensures d <= -1 ==> d * n <= -n
  {
  }

  lemma ModStep(x: int, c: int, n: int)
    requires 0 < n
    ensures (x % n + c) % n == (x + c) % n
  {
    var y := x % n + c;
    ModUnique(x + c, x / n + y / n, y % n, n);
  }

  /** Adding one before or after the reduction makes no difference. */
  lemma SuccWraps(x: nat, n: nat)
    requires 0 < n
    ensures Succ(x % n, n) == (x + 1) % n
  {
    ModStep(x, 1, n);
  }

  /** Within one period, the distance between two reduced counters is the distance between
      the counters themselves, however often they wrapped. */
  lemma {:induction false} DistExact(x: nat, base: nat, n: nat)
    requires base <= x < base + n
    ensures Dist(x % n, base % n, n) == x - base
  {
    var qx, qb := x / n, base / n;
    ModUnique(x % n - base % n + n, qb - qx + 1, x - base, n);
  }

  /** Walking the distance from the base leads back to the number. */
  lemma {:induction false} DistLandsOn(x: nat, base: nat, n: nat)
    requires x < n
    ensures (base + Dist(x, base % n, n)) % n == x
  {
    var d := Dist(x, base % n, n);
    var t := x - base % n + n;
    ModUnique(base + d, base / n + 1 - t / n, x, n);
  }

  /** Two counters less than a period apart have different reductions. */
  lemma {:induction false} WrapInjective(x: nat, y: nat, n: nat)
    requires x <= y < x + n
    ensures x % n == y % n <==> x == y
  {
    DistExact(y, x, n);
    DistExact(x, x, n);
  }

  /** The acceptance test for a received N(R): at most as far from V(A) as V(S) is. */
  predicate OkNr(va: nat, vs: nat, nr: nat, n: nat)
    requires va < n
  {
    Dist(nr, va, n) <= Dist(vs, va, n)
  }

  /** What that test is for: N(R) is one of V(A), V(A)+1, ..., V(S). */
  ghost predicate InWindow(va: nat, vs: nat, nr: nat, n: nat)
    requires va < n
  {
    exists j: nat :: j <= Dist(vs, va, n) && Nth(va, j, n) == nr
  }

  function Nth(va: nat, j: nat, n: nat): nat
    requires 0 < n
  {
    (va + j) % n
  }

  lemma {:induction false} DistOfNth(va: nat, j: nat, n: nat)
    requires va < n && j < n
    ensures Dist(Nth(va, j, n), va, n) == j
  {
    DistExact(va + j, va, n);
    ModUnique(va, 0, va, n);
  }

  lemma {:induction false} NthOfDist(va: nat, x: nat, n: nat)
    requires va < n && x < n
    ensures Nth(va, Dist(x, va, n), n) == x
  {
    DistLandsOn(x, va, n);
    ModUnique(va, 0, va, n);
  }

  /** For a reduced N(R) the closed form accepts exactly the numbers of the window. */
  lemma OkNrIsWindow(va: nat, vs: nat, nr: nat, n: nat)
    requires va < n && nr < n
    ensures OkNr(va, vs, nr, n) <==> InWindow(va, vs, nr, n)
  {
    if OkNr(va, vs, nr, n) {
      NthOfDist(va, nr, n);
    }
    if InWindow(va, vs, nr, n) {
      var j: nat :| j <= Dist(vs, va, n) && Nth(va, j, n) == nr;
      DistOfNth(va, j, n);
    }
  }

  /** For any N(R) the closed form decides whether N(R) modulo `n` is in the window. */
  lemma OkNrReads(va: nat, vs: nat, nr: nat, n: nat)
    requires va < n
    ensures OkNr(va, vs, nr, n) <==> InWindow(va, vs, nr % n, n)
  {
    ModStep(nr, n - va, n);
    OkNrIsWindow(va, vs, nr % n, n);
  }

  /** So it is exact if and only if N(R) is reduced or stands for a number outside the window: an
      N(R) at or above the modulus is never in the window itself. */
  lemma OkNrExactly(va: nat, vs: nat, nr: nat, n: nat)
    requires va < n
    ensures (OkNr(va, vs, nr, n) <==> InWindow(va, vs, nr, n)) <==> nr < n || !InWindow(va, vs, nr % n, n)
  {
    OkNrReads(va, vs, nr, n);
    if nr < n { ModUnique(nr, 0, nr, n); }
  }

  /** 32767 passes for 0 with the default modulus. */
  lemma OkNrAcceptsUnreduced()
    ensures OkNr(0, 0, 32767, 32767) && !InWindow(0, 0, 32767, 32767)
  {
    assert 32767 % 32767 == 0;
  }

  /** The walk from V(A) to V(S) has come to its j-th number without meeting N(R). */
  predicate WalkedTo(va0: nat, vs: nat, nr: nat, n: nat, va: nat, j: nat)
    requires va0 < n && vs < n
  {
    && va < n && j <= Dist(vs, va0, n) && va == Nth(va0, j, n) && Dist(vs, va, n) == Dist(vs, va0, n) - j
    && (nr < n ==> j <= Dist(nr, va0, n))
  }

  lemma WalkBegins(va0: nat, vs: nat, nr: nat, n: nat)
    requires va0 < n && vs < n
    ensures WalkedTo(va0, vs, nr, n, va0, 0)
  {
    ModUnique(va0, 0, va0, n);
  }

  lemma NthNext(va: nat, j: nat, n: nat)
    requires 0 < n
    ensures Succ(Nth(va, j, n), n) == Nth(va, j + 1, n) < n
  {
    SuccWraps(va + j, n);
  }

  lemma DistOfNths(va: nat, i: nat, j: nat, n: nat)
    requires j <= i < j + n
    ensures Nth(va, j, n) < n && Dist(Nth(va, i, n), Nth(va, j, n), n) == i - j
  {
    DistExact(va + i, va + j, n);
  }

  lemma WalkGoesOn(va0: nat, vs: nat, nr: nat, n: nat, va: nat, j: nat)
    requires va0 < n && vs < n && WalkedTo(va0, vs, nr, n, va, j) && va != vs && va != nr
    ensures WalkedTo(va0, vs, nr, n, Succ(va, n), j + 1) && j < Dist(vs, va0, n)
  {
    hide Dist, Nth, Succ;
    var len := Dist(vs, va0, n);
    NthOfDist(va0, vs, n);
    if nr < n { NthOfDist(va0, nr, n); }
    NthNext(va0, j, n);
    DistOfNths(va0, len, j + 1, n);
  }

  /** The walk decides when it meets N(R) or V(S). */
  lemma WalkDecides(va0: nat, vs: nat, nr: nat, n: nat, va: nat, j: nat)
    requires va0 < n && vs < n && WalkedTo(va0, vs, nr, n, va, j) && (va == vs || va == nr)
    ensures va == nr <==> nr < n && OkNr(va0, vs, nr, n)
  {
    hide Dist, Nth;
    DistOfNth(va0, j, n);
    NthOfDist(va0, vs, n);
    if nr < n { NthOfDist(va0, nr, n); }
  }

  /** The second, disabled form of the test walks from V(A) to V(S). It decides window
      membership for every N(R), reduced or not. */
  method OkNrByWalking(va0: nat, vs: nat, nr: nat, n: nat) returns (ok: bool)
    requires va0 < n && vs < n
    ensures ok <==> InWindow(va0, vs, nr, n)
    ensures ok <==> nr < n && OkNr(va0, vs, nr, n)
  {
    hide Dist, Nth, OkNr, InWindow;
    var va: nat := va0;
    ghost var j := 0;
    WalkBegins(va0, vs, nr, n);
    UnreducedIsOutside(va0, vs, nr, n);
    while va != vs
      invariant WalkedTo(va0, vs, nr, n, va, j)
      decreases Dist(vs, va0, n) - j
    {
      if nr == va {
        WalkDecides(va0, vs, nr, n, va, j);
        return true;
      }
      WalkGoesOn(va0, vs, nr, n, va, j);
      va, j := (va + 1) % n, j + 1;
    }
    WalkDecides(va0, vs, nr, n, va, j);
    ok := nr == vs;
  }

  lemma UnreducedIsOutside(va: nat, vs: nat, nr: nat, n: nat)
    requires va < n
    ensures InWindow(va, vs, nr, n) <==> nr < n && OkNr(va, vs, nr, n)
  {
    if nr < n { OkNrIsWindow(va, vs, nr, n); }
  }
}
