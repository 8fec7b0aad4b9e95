/**
 The FNV-1a string hash (libs/Common/include/Common/Hash.hpp) and the message identifier built
 from it (libs/MessageBroker/include/MessageBroker/Message.hpp).

 A C string is a byte sequence that ends at its first zero byte. `char` is signed on some of the
 targets and unsigned on others, so widening a byte to 32 bits takes the signedness as a parameter.
 32-bit arithmetic is written out on integers, modulo 2^32.
 */
module Fnv1a {
  type Byte = x: int | 0 <= x < 0x100
  type Hash32 = x: int | 0 <= x < 0x1_0000_0000
  type Bytes = seq<Byte>

  const OFFSET_BASIS: Hash32 := 0x811C9DC5

  function Wrap(x: int): Hash32 {
    x % 0x1_0000_0000
  }

  /** Multiplication by the FNV prime. */
  function TimesPrime(x: Hash32): Hash32 {
    Wrap(x * 0x01000193)
  }

  /** Multiplication by the inverse of the FNV prime. */
  function TimesInverse(x: Hash32): Hash32 {
    Wrap(x * 0x359C449B)
  }

  function Pow2(n: nat): (r: nat)
    ensures r >= 1
  {
    if n == 0 then 1 else 2 * Pow2(n - 1)
  }

  /** Exclusive or of the low n bits. */
  function XorBits(x: nat, y: nat, n: nat): (r: nat)
    ensures r < Pow2(n)
  {
    if n == 0 then 0 else 2 * XorBits(x / 2, y / 2, n - 1) + (x + y) % 2
  }

  function Xor(x: Hash32, y: Hash32): Hash32 {
    Pow2Of32();
    XorBits(x, y, 32)
  }

  function Widen(c: Byte, signedChar: bool): Hash32 {
    if signedChar && c >= 0x80 then c + 0xFFFFFF00 else c
  }

  function Mix(val: Hash32, c: Byte, signedChar: bool): Hash32 {
    TimesPrime(Xor(val, Widen(c, signedChar)))
  }

  function Unmix(val: Hash32, c: Byte, signedChar: bool): Hash32 {
    Xor(TimesInverse(val), Widen(c, signedChar))
  }

  function Hash(s: Bytes, val: Hash32, signedChar: bool): Hash32 {
    if s == [] || s[0] == 0 then val else Hash(s[1..], Mix(val, s[0], signedChar), signedChar)
  }

  /** The seed from which hashing s ends in val. */
  function Unhash(s: Bytes, val: Hash32, signedChar: bool): Hash32 {
    if s == [] || s[0] == 0 then val else Unmix(Unhash(s[1..], val, signedChar), s[0], signedChar)
  }

  function Combine(hashA: Hash32, hashB: Hash32): Hash32 {
    Wrap(hashA * 0x01000193 + hashB)
  }

  /** `createIdentifier`: the identifier of a message from its address and its topic. */
  function CreateIdentifier(address: Bytes, topic: Bytes, signedChar: bool): Hash32 {
    Combine(Hash(address, OFFSET_BASIS, signedChar), Hash(topic, OFFSET_BASIS, signedChar))
  }

  /** What `c_str()` shows of a string. */
  function CString(s: Bytes): (r: Bytes)
    ensures r <= s && 0 !in r
    ensures |r| < |s| ==> s[|r|] == 0
  {
    if s == [] || s[0] == 0 then [] else [s[0]] + CString(s[1..])
  }

  // ---------------------------------------------------------------------------------------------
  // One step

  // 0x01000193 * 0x359C449B == 1 + 3513497 * 2^32
  lemma Residue(v: int, x: int, k: int)
    requires 0 <= x < 0x1_0000_0000 && v == x + 0x1_0000_0000 * k
    ensures v % 0x1_0000_0000 == x
  {
  }

  lemma InverseUndoesPrime(x: int)
    requires 0 <= x < 0x1_0000_0000
    ensures (x * 0x01000193) % 0x1_0000_0000 * 0x359C449B % 0x1_0000_0000 == x
  {
    var q, r := (x * 0x01000193) / 0x1_0000_0000, (x * 0x01000193) % 0x1_0000_0000;
    assert r == x * 0x01000193 - 0x1_0000_0000 * q;
    Residue(r * 0x359C449B, x, x * 3513497 - q * 0x359C449B);
  }

  lemma PrimeUndoesInverse(x: int)
    requires 0 <= x < 0x1_0000_0000
    ensures (x * 0x359C449B) % 0x1_0000_0000 * 0x01000193 % 0x1_0000_0000 == x
  {
    var q, r := (x * 0x359C449B) / 0x1_0000_0000, (x * 0x359C449B) % 0x1_0000_0000;
    assert r == x * 0x359C449B - 0x1_0000_0000 * q;
    Residue(r * 0x01000193, x, x * 3513497 - q * 0x01000193);
  }

  lemma PrimeIsInvertible(x: Hash32)
    ensures TimesInverse(TimesPrime(x)) == x
    ensures TimesPrime(TimesInverse(x)) == x
  {
    InverseUndoesPrime(x);
    PrimeUndoesInverse(x);
  }

  lemma Pow2Of32()
    ensures Pow2(32) == 0x1_0000_0000
  {
    assert Pow2(8) == 0x100;
    assert Pow2(16) == 0x1_0000;
    assert Pow2(24) == 0x100_0000;
  }

  lemma HalfAndParity(h: nat, b: nat)
    requires b < 2
    ensures (2 * h + b) / 2 == h && (2 * h + b) % 2 == b
  {
  }

  lemma {:induction false} XorBitsCancels(x: nat, y: nat, n: nat)
    requires x < Pow2(n)
    ensures XorBits(XorBits(x, y, n), y, n) == x
  {
    if n > 0 {
      var h, r := XorBits(x / 2, y / 2, n - 1), XorBits(x, y, n);
      HalfAndParity(h, (x + y) % 2);
      assert r / 2 == h;
      assert XorBits(r, y, n) == 2 * XorBits(h, y / 2, n - 1) + (r + y) % 2;
      XorBitsCancels(x / 2, y / 2, n - 1);
      ParityCancels(x, y, r);
    }
  }

  lemma ParityCancels(x: nat, y: nat, r: nat)
    requires r % 2 == (x + y) % 2
    ensures (r + y) % 2 == x % 2
  {
  }

  lemma {:induction false} XorBitsCommutes(x: nat, y: nat, n: nat)
    ensures XorBits(x, y, n) == XorBits(y, x, n)
  {
    if n > 0 {
      XorBitsCommutes(x / 2, y / 2, n - 1);
    }
  }

  lemma XorCancels(x: Hash32, y: Hash32)
    ensures Xor(Xor(x, y), y) == x
  {
    Pow2Of32();
    XorBitsCancels(x, y, 32);
  }

  lemma XorIsInjective(val: Hash32, x: Hash32, y: Hash32)
    ensures Xor(val, x) == Xor(val, y) <==> x == y
  {
    XorBitsCommutes(val, x, 32);
    XorBitsCommutes(val, y, 32);
    XorCancels(x, val);
    XorCancels(y, val);
  }

  /** Each step permutes the 32-bit states. */
  lemma StepIsABijection(val: Hash32, c: Byte, signedChar: bool)
    ensures Unmix(Mix(val, c, signedChar), c, signedChar) == val
    ensures Mix(Unmix(val, c, signedChar), c, signedChar) == val
  {
    var w := Widen(c, signedChar);
    PrimeIsInvertible(Xor(val, w));
    XorCancels(val, w);
    XorCancels(TimesInverse(val), w);
    PrimeIsInvertible(val);
  }

  lemma StepSeparatesBytes(val: Hash32, c: Byte, d: Byte, signedChar: bool)
    ensures Mix(val, c, signedChar) == Mix(val, d, signedChar) <==> c == d
  {
    var x, y := Widen(c, signedChar), Widen(d, signedChar);
    PrimeIsInvertible(Xor(val, x));
    PrimeIsInvertible(Xor(val, y));
    XorIsInjective(val, x, y);
  }

  /** Widening a byte is the conversion of the character's value, which may be negative, to 32 bits. */
  lemma WidenIsTheConversion(c: Byte, signedChar: bool)
    ensures Widen(c, signedChar) == Wrap(if signedChar && c >= 0x80 then c - 0x100 else c)
  {
  }

  // ---------------------------------------------------------------------------------------------
  // Whole strings

  /** Hashing a string is a bijection on the seed; `Unhash` is its inverse. */
  lemma {:induction false} HashIsABijectionOfTheSeed(s: Bytes, val: Hash32, signedChar: bool)
    ensures Unhash(s, Hash(s, val, signedChar), signedChar) == val
    ensures Hash(s, Unhash(s, val, signedChar), signedChar) == val
    decreases |s|
  {
    if s != [] && s[0] != 0 {
      HashIsABijectionOfTheSeed(s[1..], Mix(val, s[0], signedChar), signedChar);
      StepIsABijection(val, s[0], signedChar);
      HashIsABijectionOfTheSeed(s[1..], val, signedChar);
      StepIsABijection(Unhash(s[1..], val, signedChar), s[0], signedChar);
    }
  }

  lemma SeedsStayApart(s: Bytes, v: Hash32, w: Hash32, signedChar: bool)
    ensures Hash(s, v, signedChar) == Hash(s, w, signedChar) <==> v == w
  {
    HashIsABijectionOfTheSeed(s, v, signedChar);
    HashIsABijectionOfTheSeed(s, w, signedChar);
  }

  /** The hash of a concatenation continues from the hash of the first part. */
  lemma {:induction false} HashContinues(s: Bytes, t: Bytes, val: Hash32, signedChar: bool)
    requires 0 !in s
    ensures Hash(s + t, val, signedChar) == Hash(t, Hash(s, val, signedChar), signedChar)
    decreases |s|
  {
    if s == [] {
      assert s + t == t;
    } else {
      assert (s + t)[1..] == s[1..] + t;
      assert s[0] in s;
      HashContinues(s[1..], t, Mix(val, s[0], signedChar), signedChar);
    }
  }

  /** Only the part before the first zero byte counts, so strings equal up to there always collide. */
  lemma {:induction false} HashSeesOnlyTheCString(s: Bytes, val: Hash32, signedChar: bool)
    ensures Hash(s, val, signedChar) == Hash(CString(s), val, signedChar)
    decreases |s|
  {
    if s != [] && s[0] != 0 {
      assert CString(s)[1..] == CString(s[1..]);
      HashSeesOnlyTheCString(s[1..], Mix(val, s[0], signedChar), signedChar);
    }
  }

  lemma OneByteStep(prefix: Bytes, c: Byte, suffix: Bytes, val: Hash32, signedChar: bool)
    requires 0 !in prefix && c != 0
    ensures Hash(prefix + [c] + suffix, val, signedChar)
         == Hash(suffix, Mix(Hash(prefix, val, signedChar), c, signedChar), signedChar)
  {
    assert prefix + [c] + suffix == prefix + ([c] + suffix);
    HashContinues(prefix, [c] + suffix, val, signedChar);
    assert ([c] + suffix)[1..] == suffix;
  }

  /** Replacing one byte of a string always changes its hash, whatever follows. */
  lemma OneByteChangesTheHash(prefix: Bytes, c: Byte, d: Byte, suffix: Bytes, val: Hash32, signedChar: bool)
    requires 0 !in prefix && c != 0 && d != 0
    ensures Hash(prefix + [c] + suffix, val, signedChar) == Hash(prefix + [d] + suffix, val, signedChar) <==> c == d
  {
    var mid := Hash(prefix, val, signedChar);
    OneByteStep(prefix, c, suffix, val, signedChar);
    OneByteStep(prefix, d, suffix, val, signedChar);
    SeedsStayApart(suffix, Mix(mid, c, signedChar), Mix(mid, d, signedChar), signedChar);
    StepSeparatesBytes(mid, c, d, signedChar);
  }

  /** The same for any two zero-free strings of equal length that differ at one position only. */
  lemma DifferingInOnePosition(s: Bytes, t: Bytes, k: nat, val: Hash32, signedChar: bool)
    requires |s| == |t| && k < |s| && 0 !in s && 0 !in t
    requires s[k] != t[k] && forall i :: 0 <= i < |s| && i != k ==> s[i] == t[i]
    ensures Hash(s, val, signedChar) != Hash(t, val, signedChar)
  {
    assert s == s[..k] + [s[k]] + s[k + 1..];
    assert t == s[..k] + [t[k]] + s[k + 1..];
    assert s[k] in s && t[k] in t;
    OneByteChangesTheHash(s[..k], s[k], t[k], s[k + 1..], val, signedChar);
  }

  // ---------------------------------------------------------------------------------------------
  // Identifiers

  /** The linear equation on the four hashes that makes two identifiers equal. */
  predicate CollisionEquation(ha: Hash32, ht: Hash32, ha': Hash32, ht': Hash32) {
    Wrap(ha - ha') == TimesInverse(Wrap(ht' - ht))
  }

  /** Combining is linear modulo 2^32 ... */
  lemma CombineIsLinear(a: Hash32, b: Hash32, c: Hash32, d: Hash32)
    ensures Combine(Wrap(a + c), Wrap(b + d)) == Wrap(Combine(a, b) + Combine(c, d))
  {
    LinearOnIntegers(a, b, c, d, a * 0x01000193 + b, c * 0x01000193 + d);
  }

  lemma LinearOnIntegers(a: int, b: int, c: int, d: int, x: int, y: int)
    requires x == a * 0x01000193 + b && y == c * 0x01000193 + d
    ensures Wrap(Wrap(a + c) * 0x01000193 + Wrap(b + d)) == Wrap(Wrap(x) + Wrap(y))
  {
    var k := QuotientAndRest(a + c);
    var m := QuotientAndRest(b + d);
    SumOfCombined(a, b, c, d, Wrap(a + c), Wrap(b + d), k, m);
    WrapOfSum(x, y);
  }

  /** ... with the prime for the first hash and one for the second. */
  lemma CombineOfUnits(b: Hash32)
    ensures Combine(0, b) == b && Combine(1, 0) == 0x01000193
  {
    Residue(b, b, 0);
  }

  lemma SumOfCombined(a: int, b: int, c: int, d: int, u: int, v: int, k: int, m: int)
    requires a + c == u + 0x1_0000_0000 * k && b + d == v + 0x1_0000_0000 * m
    ensures Wrap(u * 0x01000193 + v) == Wrap((a * 0x01000193 + b) + (c * 0x01000193 + d))
  {
    SameResidue(u * 0x01000193 + v, (a * 0x01000193 + b) + (c * 0x01000193 + d), 0, 0, -(k * 0x01000193 + m));
  }

  lemma WrapOfSum(x: int, y: int)
    ensures Wrap(x + y) == Wrap(Wrap(x) + Wrap(y))
  {
    var p := QuotientAndRest(x);
    var q := QuotientAndRest(y);
    SameResidue(x + y, Wrap(x) + Wrap(y), 0, 0, p + q);
  }

  lemma CombineSolves(a: Hash32, b: Hash32, c: Hash32, d: Hash32)
    ensures Combine(a, b) == Combine(c, d) <==> CollisionEquation(a, b, c, d)
  {
    var u, v := Wrap(a - c), Wrap(d - b);
    CombineDifference(a, b, c, d);
    PrimeIsInvertible(u);
    PrimeIsInvertible(v);
  }

  lemma CombineDifference(a: Hash32, b: Hash32, c: Hash32, d: Hash32)
    ensures Combine(a, b) == Combine(c, d) <==> TimesPrime(Wrap(a - c)) == Wrap(d - b)
  {
    var k := QuotientAndRest(a - c);
    var m := QuotientAndRest(d - b);
    CombinedAlike(a, b, c, d, Wrap(a - c), Wrap(d - b), k, m);
  }

  lemma QuotientAndRest(x: int) returns (k: int)
    ensures x == Wrap(x) + 0x1_0000_0000 * k
  {
    k := x / 0x1_0000_0000;
  }

  lemma CombinedAlike(a: int, b: int, c: int, d: int, u: int, v: int, k: int, m: int)
    requires a - c == u + 0x1_0000_0000 * k && d - b == v + 0x1_0000_0000 * m
    requires 0 <= v < 0x1_0000_0000
    ensures Wrap(a * 0x01000193 + b) == Wrap(c * 0x01000193 + d) <==> Wrap(u * 0x01000193) == v
  {
    SameResidue(a * 0x01000193 + b, c * 0x01000193 + d, u * 0x01000193, v, k * 0x01000193 - m);
  }

  lemma SameResidue(x: int, y: int, u: int, v: int, k: int)
    requires x - y == u - v + 0x1_0000_0000 * k
    ensures Wrap(x) == Wrap(y) <==> Wrap(u) == Wrap(v)
  {
  }

  /** Exactly when two identifiers collide. */
  lemma IdentifiersCollideIff(a: Bytes, t: Bytes, a': Bytes, t': Bytes, signedChar: bool)
    ensures CreateIdentifier(a, t, signedChar) == CreateIdentifier(a', t', signedChar) <==>
            CollisionEquation(Hash(a, OFFSET_BASIS, signedChar), Hash(t, OFFSET_BASIS, signedChar),
                              Hash(a', OFFSET_BASIS, signedChar), Hash(t', OFFSET_BASIS, signedChar))
  {
    CombineSolves(Hash(a, OFFSET_BASIS, signedChar), Hash(t, OFFSET_BASIS, signedChar),
                  Hash(a', OFFSET_BASIS, signedChar), Hash(t', OFFSET_BASIS, signedChar));
  }

  /** With one part in common, identifiers collide iff the hashes of the other part do. */
  lemma SharedPartCollision(a: Bytes, a': Bytes, t: Bytes, t': Bytes, signedChar: bool)
    ensures CreateIdentifier(a, t, signedChar) == CreateIdentifier(a', t, signedChar) <==>
            Hash(a, OFFSET_BASIS, signedChar) == Hash(a', OFFSET_BASIS, signedChar)
    ensures CreateIdentifier(a, t, signedChar) == CreateIdentifier(a, t', signedChar) <==>
            Hash(t, OFFSET_BASIS, signedChar) == Hash(t', OFFSET_BASIS, signedChar)
  {
    CombineSharedPart(Hash(a, OFFSET_BASIS, signedChar), Hash(a', OFFSET_BASIS, signedChar),
                      Hash(t, OFFSET_BASIS, signedChar), Hash(t', OFFSET_BASIS, signedChar));
  }

  lemma CombineSharedPart(ha: Hash32, ha': Hash32, ht: Hash32, ht': Hash32)
    ensures Combine(ha, ht) == Combine(ha', ht) <==> ha == ha'
    ensures Combine(ha, ht) == Combine(ha, ht') <==> ht == ht'
  {
    CombineSolves(ha, ht, ha', ht);
    CombineSolves(ha, ht, ha, ht');
    PrimeIsInvertible(Wrap(ht' - ht));
    SmallResidue(ha, ha');
    SmallResidue(ht', ht);
  }

  lemma SmallResidue(x: Hash32, y: Hash32)
    ensures Wrap(x - y) == 0 <==> x == y
  {
  }

  /** Topics, or addresses, that differ in a single byte get different identifiers. */
  lemma OneByteApartNeverCollides(a: Bytes, s: Bytes, t: Bytes, k: nat, signedChar: bool)
    requires |s| == |t| && k < |s| && 0 !in s && 0 !in t
    requires s[k] != t[k] && forall i :: 0 <= i < |s| && i != k ==> s[i] == t[i]
    ensures CreateIdentifier(a, s, signedChar) != CreateIdentifier(a, t, signedChar)
    ensures CreateIdentifier(s, a, signedChar) != CreateIdentifier(t, a, signedChar)
  {
    DifferingInOnePosition(s, t, k, OFFSET_BASIS, signedChar);
    SharedPartCollision(a, a, s, t, signedChar);
    SharedPartCollision(s, t, a, a, signedChar);
  }
}
