/** The first sixty-four prime numbers, which the SHA-256 constants are made from. */
module Primes {
  import opened Bytes

  const PRIMES: seq<nat> := [
    2, 3, 5, 7, 11, 13, 17, 19, 23, 29, 31, 37, 41, 43, 47, 53
  ] + [
    59, 61, 67, 71, 73, 79, 83, 89, 97, 101, 103, 107, 109, 113, 127, 131
  ] + [
    137, 139, 149, 151, 157, 163, 167, 173, 179, 181, 191, 193, 197, 199, 211, 223
  ] + [
    227, 229, 233, 239, 241, 251, 257, 263, 269, 271, 277, 281, 283, 293, 307, 311
  ]

  predicate Divides(d: nat, n: nat)
    requires d > 0
  {
    n % d == 0
  }

  ghost predicate IsPrime(n: nat) {
    n >= 2 && forall d :: 2 <= d < n ==> !Divides(d, n)
  }

  predicate ProperMultiple(n: nat, d: nat)
    requires d > 0
  {
    n > d && Divides(d, n)
  }

  /** Sieved out by one of the primes up to 17. */
  predicate Sieved(n: nat) {
    ProperMultiple(n, 2) || ProperMultiple(n, 3) || ProperMultiple(n, 5) || ProperMultiple(n, 7)
    || ProperMultiple(n, 11) || ProperMultiple(n, 13) || ProperMultiple(n, 17)
  }

  lemma BothLarge(d: nat, e: nat)
    requires d >= 18 && e >= 18
    ensures d * e >= 324
  {}

  lemma FactorOfFactor(n: nat, d: nat, e: nat, k: nat)
    requires k > 0 && d % k == 0 && n == d * e
    ensures n % k == 0
  {
    var q := d / k;
    assert d == k * q;
    assert d * e == k * (q * e);
    RemainderOf(n, k, q * e, 0);
  }

  lemma SmallFactor(n: nat, d: nat, e: nat)
    requires 2 <= d < 18 && n == d * e && d < n
    ensures Sieved(n)
  {
    assert d in {2, 3, 4, 5, 6, 7, 8, 9, 10, 11, 12, 13, 14, 15, 16, 17};
    if d % 2 == 0 {
      FactorOfFactor(n, d, e, 2);
    } else if d % 3 == 0 {
      FactorOfFactor(n, d, e, 3);
    } else {
      FactorOfFactor(n, d, e, d);
    }
  }

  /** Below 18 squared, a number with a proper divisor is sieved out. */
  lemma SieveCatches(n: nat, d: nat)
    requires 2 <= d < n <= 311 && Divides(d, n)
    ensures Sieved(n)
  {
    hide Sieved;
    var e := n / d;
    assert n == d * e;
    if d < 18 {
      SmallFactor(n, d, e);
    } else {
      if e >= 18 {
        BothLarge(d, e);
      }
      assert e != 0 && e != 1;
      SmallFactor(n, e, d);
    }
  }

  lemma PrimeIffNotSieved(n: nat)
    requires 2 <= n <= 311
    ensures IsPrime(n) <==> !Sieved(n)
  {
    if !IsPrime(n) {
      var d :| 2 <= d < n && Divides(d, n);
      SieveCatches(n, d);
    }
  }

  lemma Sieve0(n: nat)
    requires 2 <= n < 33
    ensures Sieved(n) || n in PRIMES
  {
    assert
      PRIMES[0] == 2 && PRIMES[1] == 3 && PRIMES[2] == 5 && PRIMES[3] == 7 && PRIMES[4] == 11 &&
      PRIMES[5] == 13 && PRIMES[6] == 17 && PRIMES[7] == 19 && PRIMES[8] == 23 && PRIMES[9] == 29 &&
      PRIMES[10] == 31;
    assert n in {
      2, 3, 4, 5, 6, 7, 8, 9, 10, 11, 12, 13, 14, 15, 16, 17, 18, 19, 20, 21, 22, 23, 24, 25, 26, 27, 28, 29,
      30, 31, 32
    };
  }

  lemma Sieve1(n: nat)
    requires 33 <= n < 64
    ensures Sieved(n) || n in PRIMES
  {
    assert
      PRIMES[11] == 37 && PRIMES[12] == 41 && PRIMES[13] == 43 && PRIMES[14] == 47 && PRIMES[15] == 53 &&
      PRIMES[16] == 59 && PRIMES[17] == 61;
    assert n in {
      33, 34, 35, 36, 37, 38, 39, 40, 41, 42, 43, 44, 45, 46, 47, 48, 49, 50, 51, 52, 53, 54, 55, 56, 57, 58,
      59, 60, 61, 62, 63
    };
  }

  lemma Sieve2(n: nat)
    requires 64 <= n < 95
    ensures Sieved(n) || n in PRIMES
  {
    assert
      PRIMES[18] == 67 && PRIMES[19] == 71 && PRIMES[20] == 73 && PRIMES[21] == 79 && PRIMES[22] == 83 &&
      PRIMES[23] == 89;
    assert n in {
      64, 65, 66, 67, 68, 69, 70, 71, 72, 73, 74, 75, 76, 77, 78, 79, 80, 81, 82, 83, 84, 85, 86, 87, 88, 89,
      90, 91, 92, 93, 94
    };
  }

  lemma Sieve3(n: nat)
    requires 95 <= n < 126
    ensures Sieved(n) || n in PRIMES
  {
    assert
      PRIMES[24] == 97 && PRIMES[25] == 101 && PRIMES[26] == 103 && PRIMES[27] == 107 && PRIMES[28] == 109 &&
      PRIMES[29] == 113;
    assert n in {
      95, 96, 97, 98, 99, 100, 101, 102, 103, 104, 105, 106, 107, 108, 109, 110, 111, 112, 113, 114, 115, 116,
      117, 118, 119, 120, 121, 122, 123, 124, 125
    };
  }

  lemma Sieve4(n: nat)
    requires 126 <= n < 157
    ensures Sieved(n) || n in PRIMES
  {
    assert
      PRIMES[30] == 127 && PRIMES[31] == 131 && PRIMES[32] == 137 && PRIMES[33] == 139 && PRIMES[34] == 149 &&
      PRIMES[35] == 151;
    assert n in {
      126, 127, 128, 129, 130, 131, 132, 133, 134, 135, 136, 137, 138, 139, 140, 141, 142, 143, 144, 145, 146,
      147, 148, 149, 150, 151, 152, 153, 154, 155, 156
    };
  }

  lemma Sieve5(n: nat)
    requires 157 <= n < 188
    ensures Sieved(n) || n in PRIMES
  {
    assert
      PRIMES[36] == 157 && PRIMES[37] == 163 && PRIMES[38] == 167 && PRIMES[39] == 173 && PRIMES[40] == 179 &&
      PRIMES[41] == 181;
    assert n in {
      157, 158, 159, 160, 161, 162, 163, 164, 165, 166, 167, 168, 169, 170, 171, 172, 173, 174, 175, 176, 177,
      178, 179, 180, 181, 182, 183, 184, 185, 186, 187
    };
  }

  lemma Sieve6(n: nat)
    requires 188 <= n < 219
    ensures Sieved(n) || n in PRIMES
  {
    assert
      PRIMES[42] == 191 && PRIMES[43] == 193 && PRIMES[44] == 197 && PRIMES[45] == 199 && PRIMES[46] == 211;
    assert n in {
      188, 189, 190, 191, 192, 193, 194, 195, 196, 197, 198, 199, 200, 201, 202, 203, 204, 205, 206, 207, 208,
      209, 210, 211, 212, 213, 214, 215, 216, 217, 218
    };
  }

  lemma Sieve7(n: nat)
    requires 219 <= n < 250
    ensures Sieved(n) || n in PRIMES
  {
    assert
      PRIMES[47] == 223 && PRIMES[48] == 227 && PRIMES[49] == 229 && PRIMES[50] == 233 && PRIMES[51] == 239 &&
      PRIMES[52] == 241;
    assert n in {
      219, 220, 221, 222, 223, 224, 225, 226, 227, 228, 229, 230, 231, 232, 233, 234, 235, 236, 237, 238, 239,
      240, 241, 242, 243, 244, 245, 246, 247, 248, 249
    };
  }

  lemma Sieve8(n: nat)
    requires 250 <= n < 281
    ensures Sieved(n) || n in PRIMES
  {
    assert
      PRIMES[53] == 251 && PRIMES[54] == 257 && PRIMES[55] == 263 && PRIMES[56] == 269 && PRIMES[57] == 271 &&
      PRIMES[58] == 277;
    assert n in {
      250, 251, 252, 253, 254, 255, 256, 257, 258, 259, 260, 261, 262, 263, 264, 265, 266, 267, 268, 269, 270,
      271, 272, 273, 274, 275, 276, 277, 278, 279, 280
    };
  }

  lemma Sieve9(n: nat)
    requires 281 <= n < 312
    ensures Sieved(n) || n in PRIMES
  {
    assert
      PRIMES[59] == 281 && PRIMES[60] == 283 && PRIMES[61] == 293 && PRIMES[62] == 307 && PRIMES[63] == 311;
    assert n in {
      281, 282, 283, 284, 285, 286, 287, 288, 289, 290, 291, 292, 293, 294, 295, 296, 297, 298, 299, 300, 301,
      302, 303, 304, 305, 306, 307, 308, 309, 310, 311
    };
  }

  lemma SieveLeavesPrimes(n: nat)
    requires 2 <= n <= 311
    ensures Sieved(n) || n in PRIMES
  {
    hide Sieved;
    if n < 33 { Sieve0(n); }
    else if n < 64 { Sieve1(n); }
    else if n < 95 { Sieve2(n); }
    else if n < 126 { Sieve3(n); }
    else if n < 157 { Sieve4(n); }
    else if n < 188 { Sieve5(n); }
    else if n < 219 { Sieve6(n); }
    else if n < 250 { Sieve7(n); }
    else if n < 281 { Sieve8(n); }
    else { Sieve9(n); }
  }

  lemma Entries0(i: nat)
    requires 0 <= i < 16
    ensures 2 <= PRIMES[i] <= 311 && !Sieved(PRIMES[i])
  {}

  lemma Entries1(i: nat)
    requires 16 <= i < 32
    ensures 2 <= PRIMES[i] <= 311 && !Sieved(PRIMES[i])
  {}

  lemma Entries2(i: nat)
    requires 32 <= i < 48
    ensures 2 <= PRIMES[i] <= 311 && !Sieved(PRIMES[i])
  {}

  lemma Entries3(i: nat)
    requires 48 <= i < 64
    ensures 2 <= PRIMES[i] <= 311 && !Sieved(PRIMES[i])
  {}

  lemma EntriesSurvive(i: nat)
    requires i < 64
    ensures 2 <= PRIMES[i] <= 311 && !Sieved(PRIMES[i])
  {
    hide Sieved;
    if i < 16 { Entries0(i); }
    else if i < 32 { Entries1(i); }
    else if i < 48 { Entries2(i); }
    else { Entries3(i); }
  }

  lemma PrimesAscend(i: nat)
    requires i < 63
    ensures PRIMES[i] < PRIMES[i + 1]
  {}

  /** Up to its last entry 311 the list holds exactly the primes. */
  lemma ListsThePrimes(n: nat)
    requires n <= 311
    ensures |PRIMES| == 64 && PRIMES[63] == 311
    ensures n in PRIMES <==> IsPrime(n)
  {
    hide Sieved;
    if n in PRIMES {
      var i :| 0 <= i < 64 && PRIMES[i] == n;
      EntriesSurvive(i);
      PrimeIffNotSieved(n);
    } else if n >= 2 {
      PrimeIffNotSieved(n);
      SieveLeavesPrimes(n);
    }
  }
}
