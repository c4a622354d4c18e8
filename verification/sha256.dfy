/** The hand-written SHA-256 of the enforcement crate, against FIPS 180-4. */
module Sha256 {
  import opened Bytes
  import opened Primes

  type word = u32

  // ---------- FIPS 180-4, sections 3.2 and 4.1.2 ----------
  // ROTR by n of a 32-bit word v is (v >> n) | (v << 32 - n)

  // The bits of a word, and the word of 32 bits
  function Bits(x: word): bv32 {
    x as bv32
  }

  function OfBits(v: bv32): word {
    v as word
  }

  lemma BitsOfBits(v: bv32)
    ensures Bits(OfBits(v)) == v
  {}

  function Choose(x: bv32, y: bv32, z: bv32): bv32 {
    (x & y) ^ (!x & z)
  }

  function Majority(x: bv32, y: bv32, z: bv32): bv32 {
    (x & y) ^ (x & z) ^ (y & z)
  }

  function Ch(x: word, y: word, z: word): word {
    OfBits(Choose(Bits(x), Bits(y), Bits(z)))
  }

  function Maj(x: word, y: word, z: word): word {
    OfBits(Majority(Bits(x), Bits(y), Bits(z)))
  }

  function BigSigma0(x: word): word {
    var v := x as bv32;
    (((v >> 2) | (v << 30)) ^ ((v >> 13) | (v << 19)) ^ ((v >> 22) | (v << 10))) as word
  }

  function BigSigma1(x: word): word {
    var v := x as bv32;
    (((v >> 6) | (v << 26)) ^ ((v >> 11) | (v << 21)) ^ ((v >> 25) | (v << 7))) as word
  }

  function SmallSigma0(x: word): word {
    var v := x as bv32;
    (((v >> 7) | (v << 25)) ^ ((v >> 18) | (v << 14)) ^ (v >> 3)) as word
  }

  function SmallSigma1(x: word): word {
    var v := x as bv32;
    (((v >> 17) | (v << 15)) ^ ((v >> 19) | (v << 13)) ^ (v >> 10)) as word
  }

  // the code's rotate_right forms
  lemma RotatedSigmas(v: bv32)
    ensures v.RotateRight(2) ^ v.RotateRight(13) ^ v.RotateRight(22)
         == ((v >> 2) | (v << 30)) ^ ((v >> 13) | (v << 19)) ^ ((v >> 22) | (v << 10))
    ensures v.RotateRight(6) ^ v.RotateRight(11) ^ v.RotateRight(25)
         == ((v >> 6) | (v << 26)) ^ ((v >> 11) | (v << 21)) ^ ((v >> 25) | (v << 7))
    ensures v.RotateRight(7) ^ v.RotateRight(18) ^ (v >> 3)
         == ((v >> 7) | (v << 25)) ^ ((v >> 18) | (v << 14)) ^ (v >> 3)
    ensures v.RotateRight(17) ^ v.RotateRight(19) ^ (v >> 10)
         == ((v >> 17) | (v << 15)) ^ ((v >> 19) | (v << 13)) ^ (v >> 10)
  {}

  /** The four sigma functions are exclusive-ors of right rotations by 2, 13, 22; by 6, 11, 25; by 7, 18 with a
      shift by 3; and by 17, 19 with a shift by 10. */
  lemma CodeSigmas(x: word)
    ensures var v := x as bv32;
      && (v.RotateRight(2) ^ v.RotateRight(13) ^ v.RotateRight(22)) as word == BigSigma0(x)
      && (v.RotateRight(6) ^ v.RotateRight(11) ^ v.RotateRight(25)) as word == BigSigma1(x)
      && (v.RotateRight(7) ^ v.RotateRight(18) ^ (v >> 3)) as word == SmallSigma0(x)
      && (v.RotateRight(17) ^ v.RotateRight(19) ^ (v >> 10)) as word == SmallSigma1(x)
  {
    RotatedSigmas(x as bv32);
  }

  predicate OneBit(m: bv32) {
    m != 0 && m & (m - 1) == 0
  }

  predicate Meets(v: bv32, m: bv32) {
    v & m != 0
  }

  /** The bit that m stands for is set in the word. */
  predicate IsSet(x: word, m: bv32) {
    Meets(Bits(x), m)
  }

  lemma ChooseBits(x: bv32, y: bv32, z: bv32, m: bv32)
    requires OneBit(m)
    ensures ((x & y) ^ (!x & z)) & m == if x & m != 0 then y & m else z & m
  {}

  lemma MajorityBits(x: bv32, y: bv32, z: bv32, m: bv32)
    requires OneBit(m)
    ensures ((x & y) ^ (x & z) ^ (y & z)) & m != 0
      <==> (x & m != 0 && y & m != 0) || (x & m != 0 && z & m != 0) || (y & m != 0 && z & m != 0)
  {}

  lemma ChooseMeets(x: bv32, y: bv32, z: bv32, m: bv32)
    requires OneBit(m)
    ensures Meets(Choose(x, y, z), m) <==> if Meets(x, m) then Meets(y, m) else Meets(z, m)
  {
    ChooseBits(x, y, z, m);
  }

  lemma MajorityMeets(x: bv32, y: bv32, z: bv32, m: bv32)
    requires OneBit(m)
    ensures Meets(Majority(x, y, z), m)
      <==> (Meets(x, m) && Meets(y, m)) || (Meets(x, m) && Meets(z, m)) || (Meets(y, m) && Meets(z, m))
  {
    MajorityBits(x, y, z, m);
  }

  /** Each bit of Ch is y's where x's is set, and z's elsewhere. */
  lemma ChChooses(x: word, y: word, z: word, m: bv32)
    requires OneBit(m)
    ensures IsSet(Ch(x, y, z), m) <==> if IsSet(x, m) then IsSet(y, m) else IsSet(z, m)
  {
    hide Bits, OfBits, OneBit, Choose, Majority, Meets;
    BitsOfBits(Choose(Bits(x), Bits(y), Bits(z)));
    ChooseMeets(Bits(x), Bits(y), Bits(z), m);
  }

  /** Each bit of Maj is set where it is set in at least two of the three. */
  lemma MajIsMajority(x: word, y: word, z: word, m: bv32)
    requires OneBit(m)
    ensures IsSet(Maj(x, y, z), m)
      <==> (IsSet(x, m) && IsSet(y, m)) || (IsSet(x, m) && IsSet(z, m)) || (IsSet(y, m) && IsSet(z, m))
  {
    hide Bits, OfBits, OneBit, Choose, Majority, Meets;
    BitsOfBits(Majority(Bits(x), Bits(y), Bits(z)));
    MajorityMeets(Bits(x), Bits(y), Bits(z), m);
  }

  /** Addition modulo 2^32: wrapping_add in the code, + in the standard. */
  function Add(x: word, y: word): word {
    (x + y) as int % TWO_32
  }

  lemma AddLaws(x: word, y: word, z: word)
    ensures Add(x, y) == Add(y, x)
    ensures Add(Add(x, y), z) == Add(x, Add(y, z))
  {}

  lemma AddReversed(p: word, q: word, r: word, s: word)
    ensures Add(Add(Add(p, q), r), s) == Add(Add(Add(s, r), q), p)
  {
    hide Add;
    AddLaws(Add(Add(p, q), r), s, 0);
    AddLaws(Add(p, q), r, 0);
    AddLaws(p, q, 0);
    AddLaws(s, r, Add(p, q));
    AddLaws(Add(s, r), q, p);
  }

  /** The big-endian bytes of a number, and the number they stand for. */
  function Be(n: nat, v: nat): (b: seq<byte>)
    ensures |b| == n
  {
    if n == 0 then [] else Be(n - 1, v / 256) + [v % 256]
  }

  function Word(b: seq<byte>): word
    requires |b| == 4
  {
    b[0] as int * 0x100_0000 + b[1] as int * 0x1_0000 + b[2] as int * 0x100 + b[3] as int
  }

  // ---------- FIPS 180-4, sections 4.2.2 and 5.3.3 ----------

  const K: seq<word> := [
    0x428a2f98, 0x71374491, 0xb5c0fbcf, 0xe9b5dba5, 0x3956c25b, 0x59f111f1, 0x923f82a4, 0xab1c5ed5,
    0xd807aa98, 0x12835b01, 0x243185be, 0x550c7dc3, 0x72be5d74, 0x80deb1fe, 0x9bdc06a7, 0xc19bf174
  ] + [
    0xe49b69c1, 0xefbe4786, 0x0fc19dc6, 0x240ca1cc, 0x2de92c6f, 0x4a7484aa, 0x5cb0a9dc, 0x76f988da,
    0x983e5152, 0xa831c66d, 0xb00327c8, 0xbf597fc7, 0xc6e00bf3, 0xd5a79147, 0x06ca6351, 0x14292967
  ] + [
    0x27b70a85, 0x2e1b2138, 0x4d2c6dfc, 0x53380d13, 0x650a7354, 0x766a0abb, 0x81c2c92e, 0x92722c85,
    0xa2bfe8a1, 0xa81a664b, 0xc24b8b70, 0xc76c51a3, 0xd192e819, 0xd6990624, 0xf40e3585, 0x106aa070
  ] + [
    0x19a4c116, 0x1e376c08, 0x2748774c, 0x34b0bcb5, 0x391c0cb3, 0x4ed8aa4a, 0x5b9cca4f, 0x682e6ff3,
    0x748f82ee, 0x78a5636f, 0x84c87814, 0x8cc70208, 0x90befffa, 0xa4506ceb, 0xbef9a3f7, 0xc67178f2
  ]

  const H0: seq<word> := [
    0x6a09e667, 0xbb67ae85, 0x3c6ef372, 0xa54ff53a, 0x510e527f, 0x9b05688c, 0x1f83d9ab, 0x5be0cd19
  ]

  function CubeRootFloor(p: nat): nat {
    if p < 8 then 1 else if p < 27 then 2 else if p < 64 then 3 else if p < 125 then 4 else if p < 216 then 5 else 6
  }

  function SquareRootFloor(p: nat): nat {
    if p < 4 then 1 else if p < 9 then 2 else if p < 16 then 3 else 4
  }

  /** k is the first 32 bits of the fraction of the cube root of p, whose integer part is whole. */
  predicate CubeRootBits(whole: nat, k: word, p: nat) {
    var x := whole * TWO_32 + k;
    x * x * x <= p * TWO_32 * TWO_32 * TWO_32 < (x + 1) * (x + 1) * (x + 1)
  }

  predicate SquareRootBits(whole: nat, k: word, p: nat) {
    var x := whole * TWO_32 + k;
    x * x <= p * TWO_32 * TWO_32 < (x + 1) * (x + 1)
  }

  lemma RoundConstants0(i: nat)
    requires 0 <= i < 8
    ensures CubeRootBits(CubeRootFloor(PRIMES[i]), K[i], PRIMES[i])
  {}

  lemma RoundConstants1(i: nat)
    requires 8 <= i < 16
    ensures CubeRootBits(CubeRootFloor(PRIMES[i]), K[i], PRIMES[i])
  {}

  lemma RoundConstants2(i: nat)
    requires 16 <= i < 24
    ensures CubeRootBits(CubeRootFloor(PRIMES[i]), K[i], PRIMES[i])
  {}

  lemma RoundConstants3(i: nat)
    requires 24 <= i < 32
    ensures CubeRootBits(CubeRootFloor(PRIMES[i]), K[i], PRIMES[i])
  {}

  lemma RoundConstants4(i: nat)
    requires 32 <= i < 40
    ensures CubeRootBits(CubeRootFloor(PRIMES[i]), K[i], PRIMES[i])
  {}

  lemma RoundConstants5(i: nat)
    requires 40 <= i < 48
    ensures CubeRootBits(CubeRootFloor(PRIMES[i]), K[i], PRIMES[i])
  {}

  lemma RoundConstants6(i: nat)
    requires 48 <= i < 56
    ensures CubeRootBits(CubeRootFloor(PRIMES[i]), K[i], PRIMES[i])
  {}

  lemma RoundConstants7(i: nat)
    requires 56 <= i < 64
    ensures CubeRootBits(CubeRootFloor(PRIMES[i]), K[i], PRIMES[i])
  {}

  lemma RoundConstants(i: nat)
    requires i < 64
    ensures CubeRootBits(CubeRootFloor(PRIMES[i]), K[i], PRIMES[i])
  {
    hide CubeRootBits;
    if i < 8 { RoundConstants0(i); }
    else if i < 16 { RoundConstants1(i); }
    else if i < 24 { RoundConstants2(i); }
    else if i < 32 { RoundConstants3(i); }
    else if i < 40 { RoundConstants4(i); }
    else if i < 48 { RoundConstants5(i); }
    else if i < 56 { RoundConstants6(i); }
    else { RoundConstants7(i); }
  }

  lemma InitialConstants(i: nat)
    requires i < 8
    ensures SquareRootBits(SquareRootFloor(PRIMES[i]), H0[i], PRIMES[i])
  {}

  // ---------- FIPS 180-4, section 5.1.1 (whole bytes) ----------

  /** Bytes of zero padding: the least k with len + 1 + k congruent to 56 modulo 64. */
  function ZeroCount(len: nat): (k: nat)
    ensures k < 64 && (len + 1 + k) % 64 == 56
  {
    (55 - len as int) % 64
  }

  function Zeros(n: nat): (z: seq<byte>)
    ensures |z| == n
  {
    if n == 0 then [] else Zeros(n - 1) + [0]
  }

  function Pad(m: seq<byte>): (p: seq<byte>)
    ensures |p| % 64 == 0
  {
    hide *;
    assert (|m| + 1 + ZeroCount(|m|) + 8) % 64 == 0;
    m + [0x80] + Zeros(ZeroCount(|m|)) + Be(8, 8 * |m|)
  }

  /** The padded length is the least multiple of 64 that leaves room for the nine mandatory bytes. */
  lemma PaddedLength(m: seq<byte>)
    ensures |Pad(m)| % 64 == 0
    ensures |m| + 9 <= |Pad(m)| < |m| + 9 + 64
  {}

  lemma {:induction false} BeInjective(n: nat, x: nat, y: nat)
    requires x < Pow256(n) && y < Pow256(n)
    requires Be(n, x) == Be(n, y)
    ensures x == y
  {
    if n == 0 {
    } else {
      assert Be(n, x)[n - 1] == x % 256 && Be(n, y)[n - 1] == y % 256;
      assert Be(n, x)[..n - 1] == Be(n - 1, x / 256) && Be(n, y)[..n - 1] == Be(n - 1, y / 256);
      BeInjective(n - 1, x / 256, y / 256);
    }
  }

  /** Two messages never share a padded form. */
  lemma PadInjective(a: seq<byte>, b: seq<byte>)
    requires |a| < 0x2000_0000_0000_0000 && |b| < 0x2000_0000_0000_0000
    ensures Pad(a) == Pad(b) <==> a == b
  {
    if Pad(a) == Pad(b) {
      var n := |Pad(a)|;
      assert Pad(a)[n - 8..] == Be(8, 8 * |a|) && Pad(b)[n - 8..] == Be(8, 8 * |b|);
      Widths();
      BeInjective(8, 8 * |a|, 8 * |b|);
      assert Pad(a)[..|a|] == a && Pad(b)[..|a|] == b;
    }
  }

  // ---------- FIPS 180-4, section 6.2.2 ----------

  datatype Regs = Regs(a: word, b: word, c: word, d: word, e: word, f: word, g: word, h: word)

  function W(block: seq<byte>, t: nat): word
    requires |block| == 64 && t < 64
  {
    if t < 16 then
      Word(block[4 * t..4 * t + 4])
    else
      Add(Add(Add(SmallSigma1(W(block, t - 2)), W(block, t - 7)), SmallSigma0(W(block, t - 15))), W(block, t - 16))
  }

  function Round(r: Regs, k: word, w: word): Regs {
    var t1 := Add(Add(Add(Add(r.h, BigSigma1(r.e)), Ch(r.e, r.f, r.g)), k), w);
    var t2 := Add(BigSigma0(r.a), Maj(r.a, r.b, r.c));
    Regs(Add(t1, t2), r.a, r.b, r.c, Add(r.d, t1), r.e, r.f, r.g)
  }

  function Rounds(r: Regs, block: seq<byte>, t: nat): Regs
    requires |block| == 64 && t <= 64
  {
    if t == 0 then r else Round(Rounds(r, block, t - 1), K[t - 1], W(block, t - 1))
  }

  function AddRegs(x: Regs, y: Regs): Regs {
    Regs(Add(x.a, y.a), Add(x.b, y.b), Add(x.c, y.c), Add(x.d, y.d),
         Add(x.e, y.e), Add(x.f, y.f), Add(x.g, y.g), Add(x.h, y.h))
  }

  function Compress(h: Regs, block: seq<byte>): Regs
    requires |block| == 64
  {
    AddRegs(h, Rounds(h, block, 64))
  }

  const INITIAL: Regs := Regs(H0[0], H0[1], H0[2], H0[3],
                              H0[4], H0[5], H0[6], H0[7])

  function HashBlocks(m: seq<byte>): Regs
    requires |m| % 64 == 0
  {
    if m == [] then
      INITIAL
    else
      Compress(HashBlocks(m[..|m| - 64]), m[|m| - 64..])
  }

  function StateBytes(r: Regs, n: nat): (b: seq<byte>)
    requires n <= 8
    ensures |b| == 4 * n
  {
    if n == 0 then [] else
      StateBytes(r, n - 1) + Be(4, [r.a, r.b, r.c, r.d, r.e, r.f, r.g, r.h][n - 1])
  }

  function Sha256(m: seq<byte>): (digest: seq<byte>)
    ensures |digest| == 32
  {
    StateBytes(HashBlocks(Pad(m)), 8)
  }

  // ---------- The definition in plain sums and bytes ----------

  lemma AddOneMore(x: nat, y: word)
    ensures Add(x % TWO_32, y) == (x + y) % TWO_32
  {}

  lemma AddMeans(x: word, y: word)
    ensures Add(x, y) == (x as int + y) % TWO_32
  {}

  /** The first sixteen words are the big-endian words of the block, the others sums of four earlier ones. */
  lemma ScheduleSums(block: seq<byte>, t: nat)
    requires |block| == 64 && t < 64
    ensures t < 16 ==>
      W(block, t) == block[4 * t] as int * 0x100_0000 + block[4 * t + 1] as int * 0x1_0000
                     + block[4 * t + 2] as int * 0x100 + block[4 * t + 3] as int
    ensures t >= 16 ==>
      W(block, t) == (SmallSigma1(W(block, t - 2)) as int + W(block, t - 7)
                      + SmallSigma0(W(block, t - 15)) + W(block, t - 16)) % TWO_32
  {
    hide SmallSigma0, SmallSigma1, Add;
    if t >= 16 {
      var s1, w7 := SmallSigma1(W(block, t - 2)), W(block, t - 7);
      var s0 := SmallSigma0(W(block, t - 15));
      AddMeans(s1, w7);
      AddOneMore(s1 as int + w7, s0);
      AddOneMore(s1 as int + w7 + s0, W(block, t - 16));
    }
  }

  /** One round: two sums enter at a and e, everything else moves one register on. */
  lemma RoundSums(r: Regs, k: word, w: word)
    ensures var s := Round(r, k, w);
      var t1 := r.h as int + BigSigma1(r.e) + Ch(r.e, r.f, r.g) + k + w;
      && s.a == (t1 + BigSigma0(r.a) + Maj(r.a, r.b, r.c)) % TWO_32
      && s.e == (r.d as int + t1) % TWO_32
      && s.b == r.a && s.c == r.b && s.d == r.c && s.f == r.e && s.g == r.f && s.h == r.g
  {
    hide BigSigma0, BigSigma1, Ch, Maj, Add;
    SumOfFive(r.h, BigSigma1(r.e), Ch(r.e, r.f, r.g), k, w);
    AddMeans(BigSigma0(r.a), Maj(r.a, r.b, r.c));
    var t1: nat := r.h as int + BigSigma1(r.e) + Ch(r.e, r.f, r.g) + k + w;
    SumOfSums(t1, BigSigma0(r.a) as int + Maj(r.a, r.b, r.c));
    SumWith(r.d, t1);
  }

  lemma SumOfFive(h: word, s1: word, ch: word, k: word, w: word)
    ensures Add(Add(Add(Add(h, s1), ch), k), w) == (h as int + s1 + ch + k + w) % TWO_32
  {
    hide Add;
    AddMeans(h, s1);
    AddOneMore(h as int + s1, ch);
    AddOneMore(h as int + s1 + ch, k);
    AddOneMore(h as int + s1 + ch + k, w);
  }

  lemma SumWith(d: word, x: nat)
    ensures Add(d, x % TWO_32) == (d as int + x) % TWO_32
  {}

  lemma SumOfSums(x: nat, y: nat)
    ensures Add(x % TWO_32, y % TWO_32) == (x + y) % TWO_32
  {
    hide Add;
    AddOneMore(x, y % TWO_32);
    var q := y / TWO_32;
    assert x + y == x + y % TWO_32 + TWO_32 * q;
  }

  /** Round t uses constant t and word t. */
  lemma RoundsInOrder(h: Regs, block: seq<byte>, t: nat)
    requires |block| == 64 && t < 64
    ensures Rounds(h, block, 0) == h
    ensures Rounds(h, block, t + 1) == Round(Rounds(h, block, t), K[t], W(block, t))
  {
    NextRound(h, block, t);
  }

  /** After 64 rounds the registers are added to the state before, each to its own. */
  lemma FeedForward(h: Regs, block: seq<byte>)
    requires |block| == 64
    ensures var s, r := Compress(h, block), Rounds(h, block, 64);
      && s.a == (h.a as int + r.a) % TWO_32 && s.b == (h.b as int + r.b) % TWO_32
      && s.c == (h.c as int + r.c) % TWO_32 && s.d == (h.d as int + r.d) % TWO_32
      && s.e == (h.e as int + r.e) % TWO_32 && s.f == (h.f as int + r.f) % TWO_32
      && s.g == (h.g as int + r.g) % TWO_32 && s.h == (h.h as int + r.h) % TWO_32
  {
    hide Rounds;
  }

  /** Blocks are taken in order, starting from the square-root words. */
  lemma BlocksInOrder(m: seq<byte>, block: seq<byte>)
    requires |m| % 64 == 0 && |block| == 64
    ensures HashBlocks([]) == Regs(H0[0], H0[1], H0[2], H0[3], H0[4], H0[5], H0[6], H0[7])
    ensures |m + block| % 64 == 0 && HashBlocks(m + block) == Compress(HashBlocks(m), block)
  {
    hide Compress;
    var all := m + block;
    assert all[..|all| - 64] == m && all[|all| - 64..] == block;
  }

  lemma {:induction false} ZerosAt(n: nat, i: nat)
    requires i < n
    ensures Zeros(n)[i] == 0
  {
    if i == n - 1 {
    } else {
      ZerosAt(n - 1, i);
    }
  }

  lemma {:induction false} BeAt(n: nat, v: nat, i: nat)
    requires i < n
    ensures Be(n, v)[i] == v / Pow256(n - 1 - i) % 256
  {
    if i == n - 1 {
    } else {
      BeAt(n - 1, v / 256, i);
      DivideTwice(v, Pow256(n - 2 - i));
    }
  }

  /** Byte by byte: the message, 0x80, zeros, and in the last eight bytes its length in bits, highest first. */
  lemma PadBytes(m: seq<byte>, i: nat)
    requires i < |Pad(m)|
    ensures Pad(m)[i] ==
      if i < |m| then m[i]
      else if i == |m| then 0x80
      else if i < |Pad(m)| - 8 then 0
      else 8 * |m| / Pow256(|Pad(m)| - 1 - i) % 256
  {
    hide Be, Zeros;
    var k := ZeroCount(|m|);
    assert |Pad(m)| == |m| + 1 + k + 8;
    if |m| < i < |m| + 1 + k {
      ZerosAt(k, i - |m| - 1);
    } else if i >= |m| + 1 + k {
      BeAt(8, 8 * |m|, i - |m| - 1 - k);
    }
  }

  lemma {:induction false} StateByteAt(r: Regs, n: nat, i: nat)
    requires n <= 8 && i < 4 * n
    ensures StateBytes(r, n)[i]
      == [r.a, r.b, r.c, r.d, r.e, r.f, r.g, r.h][i / 4] as nat / Pow256(3 - i % 4) % 256
  {
    hide Be, Pow256;
    if i >= 4 * (n - 1) {
      var v := [r.a, r.b, r.c, r.d, r.e, r.f, r.g, r.h][n - 1];
      BeAt(4, v, i - 4 * (n - 1));
    } else {
      StateByteAt(r, n - 1, i);
    }
  }

  /** The digest is the eight words of the last state, each highest byte first. */
  lemma DigestAt(m: seq<byte>, i: nat)
    requires i < 32
    ensures var r := HashBlocks(Pad(m));
      Sha256(m)[i] == [r.a, r.b, r.c, r.d, r.e, r.f, r.g, r.h][i / 4] as nat / Pow256(3 - i % 4) % 256
  {
    hide Pad, HashBlocks, StateBytes, Pow256;
    StateByteAt(HashBlocks(Pad(m)), 8, i);
  }

  // ---------- The imperative code ----------

  // The bit mixing, as the code spells it with rotate_right
  method MixSchedule0(x: word) returns (s0: word)
    ensures s0 == SmallSigma0(x)
  {
    hide *;
    CodeSigmas(x);
    s0 := (var v := x as bv32; (v.RotateRight(7) ^ v.RotateRight(18) ^ (v >> 3)) as word);
  }

  method MixSchedule1(x: word) returns (s1: word)
    ensures s1 == SmallSigma1(x)
  {
    hide *;
    CodeSigmas(x);
    s1 := (var v := x as bv32; (v.RotateRight(17) ^ v.RotateRight(19) ^ (v >> 10)) as word);
  }

  method MixRound1(e: word) returns (s1: word)
    ensures s1 == BigSigma1(e)
  {
    hide *;
    CodeSigmas(e);
    s1 := (var v := e as bv32; (v.RotateRight(6) ^ v.RotateRight(11) ^ v.RotateRight(25)) as word);
  }

  method MixRound0(a: word) returns (s0: word)
    ensures s0 == BigSigma0(a)
  {
    hide *;
    CodeSigmas(a);
    s0 := (var v := a as bv32; (v.RotateRight(2) ^ v.RotateRight(13) ^ v.RotateRight(22)) as word);
  }

  method MixChoice(e: word, f: word, g: word) returns (ch: word)
    ensures ch == Ch(e, f, g)
  {
    hide Bits, OfBits;
    ch := OfBits((Bits(e) & Bits(f)) ^ (!Bits(e) & Bits(g)));
  }

  method MixMajority(a: word, b: word, c: word) returns (maj: word)
    ensures maj == Maj(a, b, c)
  {
    hide Bits, OfBits;
    maj := OfBits((Bits(a) & Bits(b)) ^ (Bits(a) & Bits(c)) ^ (Bits(b) & Bits(c)));
  }

  /** The padding loop: append 0x80, zeros up to 56 modulo 64, then the bit length. */
  method PadMessage(data: seq<byte>) returns (msg: seq<byte>)
    requires |data| < 0x2000_0000_0000_0000
    ensures msg == Pad(data)
  {
    var bitLen: u64 := |data| * 8;
    msg := data + [0x80];
    ghost var k := 0;
    while |msg| % 64 != 56
      invariant k <= ZeroCount(|data|)
      invariant msg == data + [0x80] + Zeros(k)
      decreases ZeroCount(|data|) - k
    {
      NoEarlierStop(|data|, k);
      msg := msg + [0];
      k := k + 1;
    }
    NoEarlierStop(|data|, k);
    msg := msg + Be(8, bitLen);
  }

  lemma NoEarlierStop(len: nat, k: nat)
    requires k <= ZeroCount(len)
    ensures (len + 1 + k) % 64 == 56 <==> k == ZeroCount(len)
  {}

  // W_t with the terms of its sum in the order the code adds them
  lemma ScheduleTerm(block: seq<byte>, t: nat)
    requires |block| == 64 && t < 64
    ensures t < 16 ==> W(block, t) == Word(block[4 * t..4 * t + 4])
    ensures t >= 16 ==>
      W(block, t)
      == Add(Add(Add(W(block, t - 16), SmallSigma0(W(block, t - 15))), W(block, t - 7)), SmallSigma1(W(block, t - 2)))
  {
    hide Add, SmallSigma0, SmallSigma1, Word;
    if t >= 16 {
      AddReversed(SmallSigma1(W(block, t - 2)), W(block, t - 7), SmallSigma0(W(block, t - 15)), W(block, t - 16));
    }
  }

  /** The message schedule of one 64-byte chunk. */
  method Expand(chunk: seq<byte>) returns (w: array<word>)
    requires |chunk| == 64
    ensures fresh(w) && w.Length == 64
    ensures forall t :: 0 <= t < 64 ==> w[t] == W(chunk, t)
  {
    hide *;
    w := new word[64];
    for i := 0 to 16
      invariant forall t :: 0 <= t < i ==> w[t] == W(chunk, t)
    {
      assert chunk[4 * i..4 * i + 4] == [chunk[i * 4], chunk[i * 4 + 1], chunk[i * 4 + 2], chunk[i * 4 + 3]];
      ScheduleTerm(chunk, i);
      w[i] := Word([chunk[i * 4], chunk[i * 4 + 1], chunk[i * 4 + 2], chunk[i * 4 + 3]]);
    }
    for i := 16 to 64
      invariant forall t :: 0 <= t < i ==> w[t] == W(chunk, t)
    {
      var s0 := MixSchedule0(w[i - 15]);
      var s1 := MixSchedule1(w[i - 2]);
      ScheduleTerm(chunk, i);
      w[i] := Add(Add(Add(w[i - 16], s0), w[i - 7]), s1);
    }
  }

  lemma NextRound(r: Regs, block: seq<byte>, t: nat)
    requires |block| == 64 && t < 64
    ensures Rounds(r, block, 0) == r
    ensures Compress(r, block) == AddRegs(r, Rounds(r, block, 64))
    ensures Rounds(r, block, t + 1) == Round(Rounds(r, block, t), K[t], W(block, t))
  {
    hide W, Round;
  }

  function StateRegs(state: array<word>): Regs
    requires state.Length == 8
    reads state
  {
    Regs(state[0], state[1], state[2], state[3], state[4], state[5], state[6], state[7])
  }

  /** The 64 rounds over a..h, then the feed-forward into the state. */
  method ProcessChunk(state: array<word>, chunk: seq<byte>)
    requires state.Length == 8 && |chunk| == 64
    modifies state
    ensures StateRegs(state) == Compress(old(StateRegs(state)), chunk)
  {
    hide Add, BigSigma0, BigSigma1, Ch, Maj, Rounds, W, Compress;
    var w := Expand(chunk);
    var a, b, c, d := state[0], state[1], state[2], state[3];
    var e, f, g, h := state[4], state[5], state[6], state[7];
    NextRound(StateRegs(state), chunk, 0);
    for i := 0 to 64
      modifies {}
      invariant Regs(a, b, c, d, e, f, g, h) == Rounds(StateRegs(state), chunk, i)
    {
      NextRound(StateRegs(state), chunk, i);
      var s1 := MixRound1(e);
      var ch := MixChoice(e, f, g);
      var temp1 := Add(Add(Add(Add(h, s1), ch), K[i]), w[i]);
      var s0 := MixRound0(a);
      var maj := MixMajority(a, b, c);
      var temp2 := Add(s0, maj);
      h := g;
      g := f;
      f := e;
      e := Add(d, temp1);
      d := c;
      c := b;
      b := a;
      a := Add(temp1, temp2);
    }
    state[0] := Add(state[0], a);
    state[1] := Add(state[1], b);
    state[2] := Add(state[2], c);
    state[3] := Add(state[3], d);
    state[4] := Add(state[4], e);
    state[5] := Add(state[5], f);
    state[6] := Add(state[6], g);
    state[7] := Add(state[7], h);
  }

  lemma InitialState(state: array<word>)
    requires state.Length == 8 && forall i :: 0 <= i < 8 ==> state[i] == H0[i]
    ensures StateRegs(state) == HashBlocks([])
    ensures StateBytes(StateRegs(state), 0) == []
  {
    hide Compress;
  }

  lemma NextBlock(msg: seq<byte>, n: nat)
    requires |msg| % 64 == 0 && n % 64 == 0 && n < |msg|
    ensures n + 64 <= |msg| && (n + 64) % 64 == 0
    ensures HashBlocks(msg[..n + 64]) == Compress(HashBlocks(msg[..n]), msg[n..n + 64])
  {
    hide Compress;
    assert msg[..n + 64][..n] == msg[..n] && msg[..n + 64][n..] == msg[n..n + 64];
  }

  lemma NextStateByte(state: array<word>, i: nat)
    requires state.Length == 8 && i < 8
    ensures StateBytes(StateRegs(state), i + 1) == StateBytes(StateRegs(state), i) + Be(4, state[i])
  {
    hide Be;
  }

  lemma DigestBytes(data: seq<byte>, msg: seq<byte>)
    requires msg == Pad(data)
    ensures Sha256(data) == StateBytes(HashBlocks(msg), 8)
  {
    hide Pad, HashBlocks, StateBytes;
  }

  method Sha256Hash(data: seq<byte>) returns (result: seq<byte>)
    requires |data| < 0x2000_0000_0000_0000
    ensures result == Sha256(data)
  {
    hide Sha256, HashBlocks, StateBytes, StateRegs, Compress, Pad, Be;
    var state := new word[8];
    state[0], state[1], state[2], state[3] := H0[0], H0[1], H0[2], H0[3];
    state[4], state[5], state[6], state[7] := H0[4], H0[5], H0[6], H0[7];
    InitialState(state);
    var msg := PadMessage(data);
    var n := 0;
    while n < |msg|
      invariant n <= |msg| && n % 64 == 0
      invariant StateRegs(state) == HashBlocks(msg[..n])
    {
      var chunk := msg[n..n + 64];
      NextBlock(msg, n);
      ProcessChunk(state, chunk);
      n := n + 64;
    }
    assert msg[..n] == msg;
    DigestBytes(data, msg);
    ghost var final := StateRegs(state);
    assert final == HashBlocks(msg);
    assert Sha256(data) == StateBytes(final, 8);
    result := [];
    for i := 0 to 8
      invariant |result| == 4 * i
      invariant StateRegs(state) == final
      invariant result == StateBytes(final, i)
    {
      NextStateByte(state, i);
      result := result + Be(4, state[i]);
    }
  }
}
