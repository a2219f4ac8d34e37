/** Where the numbers of SHA-256 come from (FIPS 180-4 sections 4.2.2 and 5.3.3): the first 32 bits of
    the fractional parts of the cube roots of the first 64 primes and of the square roots of the
    first eight. */
module Sha256Constants {
  import opened Sha256

  // ---------- The first primes ----------

  ghost predicate IsPrime(n: nat) { n >= 2 && forall d :: 2 <= d < n ==> n % d != 0 }

  /** Trial division by the primes up to 17. */
  predicate Undivided(n: nat) {
    && n >= 2 && (n == 2 || n % 2 != 0) && (n == 3 || n % 3 != 0) && (n == 5 || n % 5 != 0) && (n == 7 || n % 7 != 0)
    && (n == 11 || n % 11 != 0) && (n == 13 || n % 13 != 0) && (n == 17 || n % 17 != 0)
  }

  lemma Quotient(n: nat, m: nat, q: nat)
    requires m > 0 && n == m * q
    ensures n % m == 0
  {
    var r, k := n % m, n / m;
    assert n == m * k + r;
    Distribute(m, q, k);
    Remainder(m, q - k, r);
  }

  lemma Distribute(m: int, q: int, k: int)
    ensures m * (q - k) == m * q - m * k
  {
  }

  lemma Remainder(m: nat, q: int, r: nat)
    requires m > 0 && r < m && m * q == r
    ensures r == 0
  {
    if q >= 1 {
      Grows(m, q, 1);
    } else if q <= -1 {
      Grows(m, -q, 1);
    }
  }

  lemma Grows(m: nat, q: int, k: int)
    requires q >= k
    ensures m * q >= m * k
  {
  }

  lemma Associate(a: nat, b: nat, c: nat)
    ensures (a * b) * c == a * (b * c)
  {
  }

  lemma DivisorPasses(n: nat, d: nat, m: nat)
    requires d > 0 && m > 0 && n % d == 0 && d % m == 0
    ensures n % m == 0
  {
    var e, f := n / d, d / m;
    assert n == d * e && d == m * f;
    Associate(m, f, e);
    Quotient(n, m, f * e);
  }

  lemma Divided(n: nat, m: nat)
    requires m in {2, 3, 5, 7, 11, 13, 17} && m < n && n % m == 0
    ensures !Undivided(n)
  {
  }

  lemma SmallDivisor(n: nat, d: nat)
    requires 2 <= d <= 18 && d < n && n % d == 0
    ensures !Undivided(n)
  {
    var m := if d % 2 == 0 then 2 else if d % 3 == 0 then 3 else if d % 5 == 0 then 5 else d;
    DivisorPasses(n, d, m);
    Divided(n, m);
  }

  lemma OtherDivisor(n: nat, d: nat) returns (e: nat)
    requires 2 <= d < n && n % d == 0
    ensures 2 <= e < n && n % e == 0 && d * e == n
  {
    e := n / d;
    assert n == d * e;
    if e >= n {
      Grows(d, e, n);
      Grows(n, d, 2);
    }
    Quotient(n, e, d);
  }

  /** Below 361 trial division finds exactly the primes. */
  lemma UndividedIsPrime(n: nat)
    requires n < 361
    ensures Undivided(n) <==> IsPrime(n)
  {
    if Undivided(n) {
      forall d | 2 <= d < n
        ensures n % d != 0
      {
        if n % d == 0 {
          var e := OtherDivisor(n, d);
          if d <= 18 {
            SmallDivisor(n, d);
          } else if e <= 18 {
            SmallDivisor(n, e);
          } else {
            Grows(d, e, 19);
          }
        }
      }
    }
  }

  ghost function PrimesBelow(n: nat): set<nat> { set m: nat | m < n && IsPrime(m) }

  /** p is the prime with t primes below it. */
  ghost predicate NthPrime(t: nat, p: nat) { IsPrime(p) && |PrimesBelow(p)| == t }

  /** None of n, n + 2, .. below q passes the trial division. */
  predicate Gap(n: nat, q: nat)
    decreases q - n
  {
    n >= q || (!Undivided(n) && Gap(n + 2, q))
  }

  lemma {:induction false} GapMeans(n: nat, q: nat, j: nat)
    requires Gap(n, q) && n + 2 * j < q
    ensures !Undivided(n + 2 * j)
    decreases j
  {
    if j > 0 {
      GapMeans(n + 2, q, j - 1);
    }
  }

  lemma {:induction false} NoPrimeInGap(p: nat, q: nat, m: nat)
    requires 3 <= p < m < q < 361 && p % 2 == 1 && Gap(p + 2, q)
    ensures !IsPrime(m)
  {
    UndividedIsPrime(m);
    if m % 2 == 1 {
      var j := OddAbove(p, m);
      GapMeans(p + 2, q, j);
    }
  }

  lemma OddAbove(p: nat, m: nat) returns (j: nat)
    requires p < m && p % 2 == 1 && m % 2 == 1
    ensures p + 2 + 2 * j == m
  {
    j := m / 2 - p / 2 - 1;
  }

  lemma {:induction false} PrimesUpTo(p: nat, m: nat, q: nat)
    requires 3 <= p < m <= q < 361 && p % 2 == 1 && IsPrime(p) && Gap(p + 2, q)
    ensures PrimesBelow(m) == PrimesBelow(p) + {p}
    decreases m
  {
    if m > p + 1 {
      NoPrimeInGap(p, q, m - 1);
      PrimesUpTo(p, m - 1, q);
    }
  }

  lemma {:induction false} NextPrime(t: nat, p: nat, n: nat, q: nat)
    requires 3 <= p < q < 361 && p % 2 == 1 && n == p + 2 && NthPrime(t, p) && Undivided(q) && Gap(n, q)
    ensures NthPrime(t + 1, q)
  {
    UndividedIsPrime(q);
    PrimesUpTo(p, q, q);
  }

  lemma {:induction false} FirstPrimes()
    ensures NthPrime(0, 2) && NthPrime(1, 3)
  {
    UndividedIsPrime(2);
    UndividedIsPrime(3);
    assert PrimesBelow(2) == {} && PrimesBelow(3) == {2};
  }

  // ---------- The roots ----------

  function Cube(x: nat): nat { x * x * x }

  /** n is the integer cube root of p and k the first 32 bits of the fraction that follows. */
  ghost predicate IsCubeRoot(p: nat, n: nat, k: nat) {
    && Cube(n) <= p < Cube(n + 1)
    && k < 0x1_0000_0000
    && Cube(n * 0x1_0000_0000 + k) <= p * Cube(0x1_0000_0000) < Cube(n * 0x1_0000_0000 + k + 1)
  }

  /** n is the integer square root of p and k the first 32 bits of the fraction that follows. */
  ghost predicate IsSquareRoot(p: nat, n: nat, k: nat) {
    && n * n <= p < (n + 1) * (n + 1)
    && k < 0x1_0000_0000
    && (n * 0x1_0000_0000 + k) * (n * 0x1_0000_0000 + k) <= p * 0x1_0000_0000_0000_0000
    && p * 0x1_0000_0000_0000_0000 < (n * 0x1_0000_0000 + k + 1) * (n * 0x1_0000_0000 + k + 1)
  }

  /** FIPS 180-4, section 4.2.2. */
  ghost predicate IsRoundConstant(t: nat, w: nat) { exists p, n :: NthPrime(t, p) && IsCubeRoot(p, n, w) }

  /** FIPS 180-4, section 5.3.3. */
  ghost predicate IsInitialWord(t: nat, w: nat) { exists p, n :: NthPrime(t, p) && IsSquareRoot(p, n, w) }

  /** From the constant of the prime p to that of the next prime q, with m the next odd number. */
  lemma {:induction false} NextConstant(t: nat, p: nat, m: nat, q: nat, n: nat, k: bv32)
    requires t + 1 < 64 && NthPrime(t, p) && 3 <= p < q < 361 && p % 2 == 1 && m == p + 2 && Gap(m, q) && Undivided(q)
    requires K(t + 1).bits == k && IsCubeRoot(q, n, k as nat)
    ensures NthPrime(t + 1, q) && IsRoundConstant(t + 1, K(t + 1).bits as nat)
  {
    NextPrime(t, p, m, q);
  }

  lemma Constants0()
    ensures NthPrime(3, 7) && forall t :: 0 <= t < 4 ==> IsRoundConstant(t, K(t).bits as nat)
  {
    FirstPrimes();
    assert K(0).bits == 0x428a2f98 && IsCubeRoot(2, 1, 0x428a2f98 as bv32 as nat);
    assert K(1).bits == 0x71374491 && IsCubeRoot(3, 1, 0x71374491 as bv32 as nat);
    NextConstant(1, 3, 5, 5, 1, 0xb5c0fbcf);
    NextConstant(2, 5, 7, 7, 1, 0xe9b5dba5);
  }

  lemma Constants4()
    requires NthPrime(3, 7)
    ensures NthPrime(7, 19) && forall t :: 4 <= t < 8 ==> IsRoundConstant(t, K(t).bits as nat)
  {
    NextConstant(3, 7, 9, 11, 2, 0x3956c25b);
    NextConstant(4, 11, 13, 13, 2, 0x59f111f1);
    NextConstant(5, 13, 15, 17, 2, 0x923f82a4);
    NextConstant(6, 17, 19, 19, 2, 0xab1c5ed5);
  }

  lemma Constants8()
    requires NthPrime(7, 19)
    ensures NthPrime(11, 37) && forall t :: 8 <= t < 12 ==> IsRoundConstant(t, K(t).bits as nat)
  {
    NextConstant(7, 19, 21, 23, 2, 0xd807aa98);
    NextConstant(8, 23, 25, 29, 3, 0x12835b01);
    NextConstant(9, 29, 31, 31, 3, 0x243185be);
    NextConstant(10, 31, 33, 37, 3, 0x550c7dc3);
  }

  lemma Constants12()
    requires NthPrime(11, 37)
    ensures NthPrime(15, 53) && forall t :: 12 <= t < 16 ==> IsRoundConstant(t, K(t).bits as nat)
  {
    NextConstant(11, 37, 39, 41, 3, 0x72be5d74);
    NextConstant(12, 41, 43, 43, 3, 0x80deb1fe);
    NextConstant(13, 43, 45, 47, 3, 0x9bdc06a7);
    NextConstant(14, 47, 49, 53, 3, 0xc19bf174);
  }

  lemma Constants16()
    requires NthPrime(15, 53)
    ensures NthPrime(19, 71) && forall t :: 16 <= t < 20 ==> IsRoundConstant(t, K(t).bits as nat)
  {
    NextConstant(15, 53, 55, 59, 3, 0xe49b69c1);
    NextConstant(16, 59, 61, 61, 3, 0xefbe4786);
    NextConstant(17, 61, 63, 67, 4, 0x0fc19dc6);
    NextConstant(18, 67, 69, 71, 4, 0x240ca1cc);
  }

  lemma Constants20()
    requires NthPrime(19, 71)
    ensures NthPrime(23, 89) && forall t :: 20 <= t < 24 ==> IsRoundConstant(t, K(t).bits as nat)
  {
    NextConstant(19, 71, 73, 73, 4, 0x2de92c6f);
    NextConstant(20, 73, 75, 79, 4, 0x4a7484aa);
    NextConstant(21, 79, 81, 83, 4, 0x5cb0a9dc);
    NextConstant(22, 83, 85, 89, 4, 0x76f988da);
  }

  lemma Constants24()
    requires NthPrime(23, 89)
    ensures NthPrime(27, 107) && forall t :: 24 <= t < 28 ==> IsRoundConstant(t, K(t).bits as nat)
  {
    NextConstant(23, 89, 91, 97, 4, 0x983e5152);
    NextConstant(24, 97, 99, 101, 4, 0xa831c66d);
    NextConstant(25, 101, 103, 103, 4, 0xb00327c8);
    NextConstant(26, 103, 105, 107, 4, 0xbf597fc7);
  }

  lemma Constants28()
    requires NthPrime(27, 107)
    ensures NthPrime(31, 131) && forall t :: 28 <= t < 32 ==> IsRoundConstant(t, K(t).bits as nat)
  {
    NextConstant(27, 107, 109, 109, 4, 0xc6e00bf3);
    NextConstant(28, 109, 111, 113, 4, 0xd5a79147);
    NextConstant(29, 113, 115, 127, 5, 0x06ca6351);
    NextConstant(30, 127, 129, 131, 5, 0x14292967);
  }

  lemma Constants32()
    requires NthPrime(31, 131)
    ensures NthPrime(35, 151) && forall t :: 32 <= t < 36 ==> IsRoundConstant(t, K(t).bits as nat)
  {
    NextConstant(31, 131, 133, 137, 5, 0x27b70a85);
    NextConstant(32, 137, 139, 139, 5, 0x2e1b2138);
    NextConstant(33, 139, 141, 149, 5, 0x4d2c6dfc);
    NextConstant(34, 149, 151, 151, 5, 0x53380d13);
  }

  lemma Constants36()
    requires NthPrime(35, 151)
    ensures NthPrime(39, 173) && forall t :: 36 <= t < 40 ==> IsRoundConstant(t, K(t).bits as nat)
  {
    NextConstant(35, 151, 153, 157, 5, 0x650a7354);
    NextConstant(36, 157, 159, 163, 5, 0x766a0abb);
    NextConstant(37, 163, 165, 167, 5, 0x81c2c92e);
    NextConstant(38, 167, 169, 173, 5, 0x92722c85);
  }

  lemma Constants40()
    requires NthPrime(39, 173)
    ensures NthPrime(43, 193) && forall t :: 40 <= t < 44 ==> IsRoundConstant(t, K(t).bits as nat)
  {
    NextConstant(39, 173, 175, 179, 5, 0xa2bfe8a1);
    NextConstant(40, 179, 181, 181, 5, 0xa81a664b);
    NextConstant(41, 181, 183, 191, 5, 0xc24b8b70);
    NextConstant(42, 191, 193, 193, 5, 0xc76c51a3);
  }

  lemma Constants44()
    requires NthPrime(43, 193)
    ensures NthPrime(47, 223) && forall t :: 44 <= t < 48 ==> IsRoundConstant(t, K(t).bits as nat)
  {
    NextConstant(43, 193, 195, 197, 5, 0xd192e819);
    NextConstant(44, 197, 199, 199, 5, 0xd6990624);
    NextConstant(45, 199, 201, 211, 5, 0xf40e3585);
    NextConstant(46, 211, 213, 223, 6, 0x106aa070);
  }

  lemma Constants48()
    requires NthPrime(47, 223)
    ensures NthPrime(51, 239) && forall t :: 48 <= t < 52 ==> IsRoundConstant(t, K(t).bits as nat)
  {
    NextConstant(47, 223, 225, 227, 6, 0x19a4c116);
    NextConstant(48, 227, 229, 229, 6, 0x1e376c08);
    NextConstant(49, 229, 231, 233, 6, 0x2748774c);
    NextConstant(50, 233, 235, 239, 6, 0x34b0bcb5);
  }

  lemma Constants52()
    requires NthPrime(51, 239)
    ensures NthPrime(55, 263) && forall t :: 52 <= t < 56 ==> IsRoundConstant(t, K(t).bits as nat)
  {
    NextConstant(51, 239, 241, 241, 6, 0x391c0cb3);
    NextConstant(52, 241, 243, 251, 6, 0x4ed8aa4a);
    NextConstant(53, 251, 253, 257, 6, 0x5b9cca4f);
    NextConstant(54, 257, 259, 263, 6, 0x682e6ff3);
  }

  lemma Constants56()
    requires NthPrime(55, 263)
    ensures NthPrime(59, 281) && forall t :: 56 <= t < 60 ==> IsRoundConstant(t, K(t).bits as nat)
  {
    NextConstant(55, 263, 265, 269, 6, 0x748f82ee);
    NextConstant(56, 269, 271, 271, 6, 0x78a5636f);
    NextConstant(57, 271, 273, 277, 6, 0x84c87814);
    NextConstant(58, 277, 279, 281, 6, 0x8cc70208);
  }

  lemma Constants60()
    requires NthPrime(59, 281)
    ensures NthPrime(63, 311) && forall t :: 60 <= t < 64 ==> IsRoundConstant(t, K(t).bits as nat)
  {
    NextConstant(59, 281, 283, 283, 6, 0x90befffa);
    NextConstant(60, 283, 285, 293, 6, 0xa4506ceb);
    NextConstant(61, 293, 295, 307, 6, 0xbef9a3f7);
    NextConstant(62, 307, 309, 311, 6, 0xc67178f2);
  }

  lemma InitialWord(t: nat, p: nat, n: nat, k: bv32)
    requires t < 8 && HashWords(INITIAL)[t].bits == k && NthPrime(t, p) && IsSquareRoot(p, n, k as nat)
    ensures IsInitialWord(t, HashWords(INITIAL)[t].bits as nat)
  {
  }

  /** The round constants are the fractions of the cube roots of the first 64 primes. */
  lemma {:induction false} RoundConstantsAreCubeRoots(t: nat)
    requires t < 64
    ensures IsRoundConstant(t, K(t).bits as nat)
  {
    Constants0();
    Constants4();
    Constants8();
    Constants12();
    Constants16();
    Constants20();
    Constants24();
    Constants28();
    Constants32();
    Constants36();
    Constants40();
    Constants44();
    Constants48();
    Constants52();
    Constants56();
    Constants60();
  }

  /** The initial hash value holds the fractions of the square roots of the first eight primes. */
  lemma {:induction false} InitialIsSquareRoots(t: nat)
    requires t < 8
    ensures IsInitialWord(t, HashWords(INITIAL)[t].bits as nat)
  {
    FirstPrimes();
    NextPrime(1, 3, 5, 5);
    NextPrime(2, 5, 7, 7);
    NextPrime(3, 7, 9, 11);
    NextPrime(4, 11, 13, 13);
    NextPrime(5, 13, 15, 17);
    NextPrime(6, 17, 19, 19);
    InitialWord(0, 2, 1, 0x6a09e667);
    InitialWord(1, 3, 1, 0xbb67ae85);
    InitialWord(2, 5, 2, 0x3c6ef372);
    InitialWord(3, 7, 2, 0xa54ff53a);
    InitialWord(4, 11, 3, 0x510e527f);
    InitialWord(5, 13, 3, 0x9b05688c);
    InitialWord(6, 17, 4, 0x1f83d9ab);
    InitialWord(7, 19, 4, 0x5be0cd19);
  }
}
