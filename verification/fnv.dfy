/** The FNV-1a hashes of the capture side and of the lab scripts. */
module Fnv {
  import opened Bytes

  // ---------- Bitwise operations on unbounded naturals ----------

  function Xor(a: nat, b: nat): nat
    decreases a + b
  {
    if a == 0 && b == 0 then 0 else 2 * Xor(a / 2, b / 2) + if a % 2 != b % 2 then 1 else 0
  }

  function And(a: nat, b: nat): nat
    decreases a + b
  {
    if a == 0 && b == 0 then 0 else 2 * And(a / 2, b / 2) + if a % 2 == 1 && b % 2 == 1 then 1 else 0
  }

  function Pow2(n: nat): (p: nat)
    ensures p > 0
  {
    if n == 0 then 1 else 2 * Pow2(n - 1)
  }

  lemma {:induction false} XorTwice(a: nat, b: nat)
    ensures Xor(Xor(a, b), b) == a
    decreases a + b
  {
    if a == 0 && b == 0 {
    } else {
      XorTwice(a / 2, b / 2);
      assert Xor(a, b) / 2 == Xor(a / 2, b / 2);
    }
  }

  lemma {:induction false} XorCommutes(a: nat, b: nat)
    ensures Xor(a, b) == Xor(b, a)
    decreases a + b
  {
    if a == 0 && b == 0 {
    } else {
      XorCommutes(a / 2, b / 2);
    }
  }

  lemma {:induction false} XorBound(a: nat, b: nat, n: nat)
    requires a < Pow2(n) && b < Pow2(n)
    ensures Xor(a, b) < Pow2(n)
    decreases n
  {
    if n == 0 {
    } else {
      XorBound(a / 2, b / 2, n - 1);
    }
  }

  /** Masking with n one-bits is the remainder modulo 2 to the n. */
  lemma {:induction false} AndMask(a: nat, n: nat)
    ensures And(a, Pow2(n) - 1) == a % Pow2(n)
    decreases n
  {
    if n == 0 {
      AndZero(a);
    } else {
      AndMask(a / 2, n - 1);
      HalfModulus(a, Pow2(n - 1));
    }
  }

  lemma {:induction false} AndZero(a: nat)
    ensures And(a, 0) == 0
  {
    if a == 0 {
    } else {
      AndZero(a / 2);
    }
  }

  lemma HalfModulus(a: nat, p: nat)
    requires p > 0
    ensures a % (2 * p) == 2 * (a / 2 % p) + a % 2
  {
    var r := 2 * (a / 2 % p) + a % 2;
    assert a == (2 * p) * (a / 2 / p) + r;
    RemainderOf(a, 2 * p, a / 2 / p, r);
  }

  // ---------- The hash ----------

  /** A multiplier modulo 2 to the bits, with its inverse: prime * inverse is 1 more than carry * 2^bits. */
  datatype Params = Params(bits: nat, prime: nat, inverse: nat, carry: nat)

  ghost predicate Invertible(p: Params) {
    p.bits >= 8 && p.prime * p.inverse == 1 + Pow2(p.bits) * p.carry
  }

  const FNV32: Params := Params(32, 0x01000193, 0x359C449B, 3513497)
  const FNV64: Params := Params(64, 1099511628211, 0xCE965057AFF6957B, 887285111055)

  const OFFSET32: nat := 0x811C9DC5
  const OFFSET64: nat := 14695981039346656037

  lemma ParamsInvertible()
    ensures Pow2(32) == TWO_32 && Pow2(64) == TWO_64
    ensures Invertible(FNV32) && Invertible(FNV64)
  {
    assert Pow2(8) == 0x100;
    assert Pow2(16) == 0x1_0000;
    assert Pow2(24) == 0x100_0000;
    assert Pow2(32) == TWO_32;
    assert Pow2(40) == 0x100 * TWO_32;
    assert Pow2(48) == 0x1_0000 * TWO_32;
    assert Pow2(56) == 0x100_0000 * TWO_32;
  }

  function Step(p: Params, h: nat, c: byte): (r: nat)
    ensures r < Pow2(p.bits)
  {
    Xor(h, c) * p.prime % Pow2(p.bits)
  }

  /** The hash of b continued from state h. */
  function Hash(p: Params, h: nat, b: seq<byte>): nat
    decreases |b|
  {
    if b == [] then h else Hash(p, Step(p, h, b[0]), b[1..])
  }

  lemma {:induction false} HashSnoc(p: Params, h: nat, b: seq<byte>, c: byte)
    ensures Hash(p, h, b + [c]) == Step(p, Hash(p, h, b), c)
    decreases |b|
  {
    hide Step;
    if b == [] {
      assert [c][1..] == [];
    } else {
      HashSnoc(p, Step(p, h, b[0]), b[1..], c);
      assert (b + [c])[1..] == b[1..] + [c];
    }
  }

  lemma {:induction false} HashAppend(p: Params, h: nat, a: seq<byte>, b: seq<byte>)
    ensures Hash(p, h, a + b) == Hash(p, Hash(p, h, a), b)
    decreases |a|
  {
    hide Step;
    if a == [] {
      assert a + b == b;
    } else {
      HashAppend(p, Step(p, h, a[0]), a[1..], b);
      assert (a + b)[1..] == a[1..] + b;
    }
  }

  lemma Regroup(x: nat, prime: nat, m: nat, q: nat, inverse: nat)
    ensures (x * prime - m * q) * inverse == x * (prime * inverse) - m * (q * inverse)
  {
    assert (x * prime - m * q) * inverse == x * prime * inverse - m * q * inverse;
    assert x * prime * inverse == x * (prime * inverse);
    assert m * q * inverse == m * (q * inverse);
  }

  lemma OneMore(x: nat, m: nat, carry: nat, k: nat)
    ensures x * (1 + m * carry) - m * k == m * (x * carry - k) + x
  {
    assert x * (m * carry) == m * (x * carry);
  }

  // Multiplying by the inverse undoes the multiplication by the prime
  lemma MultiplyUndone(p: Params, x: nat)
    requires Invertible(p) && x < Pow2(p.bits)
    ensures (x * p.prime % Pow2(p.bits)) * p.inverse % Pow2(p.bits) == x
  {
    hide Pow2;
    var m := Pow2(p.bits);
    var y, q := x * p.prime % m, x * p.prime / m;
    assert y == x * p.prime - m * q;
    Regroup(x, p.prime, m, q, p.inverse);
    OneMore(x, m, p.carry, q * p.inverse);
    RemainderOf(y * p.inverse, m, x * p.carry - q * p.inverse, x);
  }

  lemma ByteBelow(p: Params, c: byte)
    requires p.bits >= 8
    ensures c < Pow2(p.bits)
  {
    Pow2Grows(8, p.bits);
    assert Pow2(8) == 0x100;
  }

  lemma {:induction false} Pow2Grows(m: nat, n: nat)
    requires m <= n
    ensures Pow2(m) <= Pow2(n)
    decreases n
  {
    if m == n {
    } else {
      Pow2Grows(m, n - 1);
    }
  }

  /** Every state is reached by a step from exactly the state computed here: with StepInjective, a step
      with a given byte is a bijection on the states. */
  lemma StepOnto(p: Params, r: nat, c: byte)
    requires Invertible(p) && r < Pow2(p.bits)
    ensures var h := Xor(r * p.inverse % Pow2(p.bits), c);
      h < Pow2(p.bits) && Step(p, h, c) == r
  {
    hide Xor;
    var x := r * p.inverse % Pow2(p.bits);
    ByteBelow(p, c);
    XorBound(x, c, p.bits);
    XorTwice(x, c);
    assert p.inverse * p.prime == p.prime * p.inverse;
    MultiplyUndone(Params(p.bits, p.inverse, p.prime, p.carry), r);
  }

  /** One step is injective in the state: equal results come from equal states, or from different bytes. */
  lemma StepInjective(p: Params, g: nat, h: nat, c: byte, d: byte)
    requires Invertible(p) && g < Pow2(p.bits) && h < Pow2(p.bits)
    requires Step(p, g, c) == Step(p, h, d)
    ensures Xor(g, c) == Xor(h, d)
    ensures c == d <==> g == h
  {
    ByteBelow(p, c);
    ByteBelow(p, d);
    XorBound(g, c, p.bits);
    XorBound(h, d, p.bits);
    MultiplyUndone(p, Xor(g, c));
    MultiplyUndone(p, Xor(h, d));
    XorTwice(g, c);
    XorTwice(h, d);
    XorCommutes(g, c);
    XorCommutes(h, d);
    XorTwice(c, g);
    XorTwice(d, h);
  }

  /** Hashing on with the same bytes keeps different states different. */
  lemma {:induction false} HashInjective(p: Params, g: nat, h: nat, b: seq<byte>)
    requires Invertible(p) && g < Pow2(p.bits) && h < Pow2(p.bits)
    ensures Hash(p, g, b) == Hash(p, h, b) <==> g == h
    decreases |b|
  {
    hide Step, Invertible;
    if b == [] {
    } else {
      HashInjective(p, Step(p, g, b[0]), Step(p, h, b[0]), b[1..]);
      if Step(p, g, b[0]) == Step(p, h, b[0]) {
        StepInjective(p, g, h, b[0], b[0]);
      }
    }
  }

  lemma {:induction false} HashBelow(p: Params, h: nat, b: seq<byte>)
    requires h < Pow2(p.bits)
    ensures Hash(p, h, b) < Pow2(p.bits)
    decreases |b|
  {
    hide Step;
    if b == [] {
    } else {
      HashBelow(p, Step(p, h, b[0]), b[1..]);
    }
  }

  /** Two strings of one length that differ in exactly one byte never share a hash. */
  lemma SingleByteSeparates(p: Params, h: nat, a: seq<byte>, b: seq<byte>, i: nat)
    requires Invertible(p) && h < Pow2(p.bits)
    requires |a| == |b| && i < |a| && a[i] != b[i]
    requires forall j :: 0 <= j < |a| && j != i ==> a[j] == b[j]
    ensures Hash(p, h, a) != Hash(p, h, b)
  {
    hide Step, Invertible;
    var front, back := a[..i], a[i + 1..];
    assert b[..i] == front && b[i + 1..] == back;
    assert a == front + ([a[i]] + back) && b == front + ([b[i]] + back);
    HashAppend(p, h, front, [a[i]] + back);
    HashAppend(p, h, front, [b[i]] + back);
    var g := Hash(p, h, front);
    HashBelow(p, h, front);
    assert ([a[i]] + back)[1..] == back && ([b[i]] + back)[1..] == back;
    if Step(p, g, a[i]) == Step(p, g, b[i]) {
      StepInjective(p, g, g, a[i], b[i]);
    }
    HashInjective(p, Step(p, g, a[i]), Step(p, g, b[i]), back);
  }

  /** For the two hashes the code uses, with the start states it uses. */
  lemma RuleAndPayloadHashesSeparate(a: seq<byte>, b: seq<byte>, i: nat)
    requires |a| == |b| && i < |a| && a[i] != b[i]
    requires forall j :: 0 <= j < |a| && j != i ==> a[j] == b[j]
    ensures Hash(FNV32, OFFSET32, a) != Hash(FNV32, OFFSET32, b)
    ensures Hash(FNV64, OFFSET64, a) != Hash(FNV64, OFFSET64, b)
  {
    ParamsInvertible();
    SingleByteSeparates(FNV32, OFFSET32, a, b, i);
    SingleByteSeparates(FNV64, OFFSET64, a, b, i);
  }

  /** The published values for the one-byte string "a", which fix the order of the two operations, the start
      states and the primes. */
  lemma HashOfA()
    ensures Hash(FNV32, OFFSET32, [0x61]) == 0xE40C_292C
    ensures Hash(FNV64, OFFSET64, [0x61]) == 0xAF63_DC4C_8601_EC8C
  {
    HashOfOne(FNV32, OFFSET32, 0x61);
    HashOfOne(FNV64, OFFSET64, 0x61);
    StartsXorA();
    StepsFromStart();
  }

  lemma HashOfOne(p: Params, h: nat, c: byte)
    ensures Hash(p, h, [c]) == Step(p, h, c)
  {
    hide Step;
    assert [c][1..] == [];
  }

  lemma StartsXorA()
    ensures Xor(OFFSET32, 0x61) == 0x811C_9DA4 && Xor(OFFSET64, 0x61) == 0xCBF2_9CE4_8422_2344
  {
    assert Pow2(8) == 0x100;
    XorOfBytes();
    hide Xor, Pow2;
    XorBelow(0x81_1C9D, 0xC5, 0x61, 8);
    XorBelow(0xCB_F29C_E484_2223, 0x25, 0x61, 8);
  }

  lemma StepsFromStart()
    requires Xor(OFFSET32, 0x61) == 0x811C_9DA4 && Xor(OFFSET64, 0x61) == 0xCBF2_9CE4_8422_2344
    ensures Step(FNV32, OFFSET32, 0x61) == 0xE40C_292C
    ensures Step(FNV64, OFFSET64, 0x61) == 0xAF63_DC4C_8601_EC8C
  {
    ParamsInvertible();
    hide Xor, Pow2;
  }

  lemma XorOfBytes()
    ensures Xor(0xC5, 0x61) == 0xA4 && Xor(0x25, 0x61) == 0x44
  {
    assert Xor(0xC, 0x6) == 0xA && Xor(0x2, 0x6) == 0x4;
    assert Xor(0x31, 0x18) == 0x29 && Xor(0x9, 0x18) == 0x11;
  }

  // Exclusive-or with fewer than n bits leaves the bits above them alone
  lemma {:induction false} XorBelow(high: nat, low: nat, c: nat, n: nat)
    requires low < Pow2(n) && c < Pow2(n)
    ensures Xor(high * Pow2(n) + low, c) == high * Pow2(n) + Xor(low, c)
    decreases n
  {
    if n == 0 {
      XorWithZero(high);
    } else {
      var p := high * Pow2(n - 1);
      assert high * Pow2(n) == 2 * p;
      XorBelow(high, low / 2, c / 2, n - 1);
      assert (2 * p + low) / 2 == p + low / 2 && (2 * p + low) % 2 == low % 2;
    }
  }

  lemma {:induction false} XorWithZero(a: nat)
    ensures Xor(a, 0) == a
  {
    if a == 0 {
    } else {
      XorWithZero(a / 2);
    }
  }

  // ---------- The imperative code ----------

  /** hashNoseRuleID: uint32 arithmetic wraps modulo 2^32. */
  method HashNoseRuleId(value: seq<byte>) returns (hash: u32)
    ensures hash == Hash(FNV32, OFFSET32, value)
  {
    ParamsInvertible();
    hash := 0x811C9DC5;
    assert value[..0] == [];
    for i := 0 to |value|
      invariant hash == Hash(FNV32, OFFSET32, value[..i])
    {
      HashSnoc(FNV32, OFFSET32, value[..i], value[i]);
      assert value[..i + 1] == value[..i] + [value[i]];
      hash := Xor(hash, value[i]) * 0x01000193 % TWO_32;
    }
    assert value[..|value|] == value;
  }

  /** quickHash: uint64 arithmetic wraps modulo 2^64. */
  method QuickHash(b: seq<byte>) returns (h: u64)
    ensures h == Hash(FNV64, OFFSET64, b)
  {
    ParamsInvertible();
    h := 14695981039346656037;
    assert b[..0] == [];
    for i := 0 to |b|
      invariant h == Hash(FNV64, OFFSET64, b[..i])
    {
      HashSnoc(FNV64, OFFSET64, b[..i], b[i]);
      assert b[..i + 1] == b[..i] + [b[i]];
      h := Xor(h, b[i]) * 1099511628211 % TWO_64;
    }
    assert b[..|b|] == b;
  }

  /** hash_rule_id: unbounded integers, masked to 32 bits after every multiplication. */
  method HashRuleId(encoded: seq<byte>) returns (h: nat)
    ensures h == Hash(FNV32, OFFSET32, encoded)
  {
    ParamsInvertible();
    h := 0x811C9DC5;
    assert encoded[..0] == [];
    for i := 0 to |encoded|
      invariant h == Hash(FNV32, OFFSET32, encoded[..i])
    {
      HashSnoc(FNV32, OFFSET32, encoded[..i], encoded[i]);
      assert encoded[..i + 1] == encoded[..i] + [encoded[i]];
      h := Xor(h, encoded[i]);
      AndMask(h * 0x01000193, 32);
      h := And(h * 0x01000193, 0xFFFF_FFFF);
    }
    assert encoded[..|encoded|] == encoded;
  }
}
