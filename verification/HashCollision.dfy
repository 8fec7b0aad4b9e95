/**
 Two topics with the same hash (libs/Common/include/Common/Hash.hpp): a walk through each of them,
 letter by letter, is the computation of its hash.
 */
module Fnv1aCollision {
  import opened Fnv1a

  /**
   One step of the hash: the letter, the state after the exclusive or, what the multiplication carries
   beyond 32 bits, and the state after it.
   */
  datatype Letter = Letter(letter: Byte, mixed: Hash32, carry: nat, next: Hash32)

  datatype Walk = End | Then(step: Letter, rest: Walk)

  /** m is the exclusive or of x and the seven bits of y, checked bit by bit. */
  predicate IsXorWithSevenBits(x: nat, y: nat, m: nat) {
    && y < 0x80 && x / 0x80 == m / 0x80
    && (x + y + m) % 2 == 0 && (x / 2 + y / 2 + m / 2) % 2 == 0 && (x / 4 + y / 4 + m / 4) % 2 == 0
    && (x / 8 + y / 8 + m / 8) % 2 == 0 && (x / 16 + y / 16 + m / 16) % 2 == 0
    && (x / 32 + y / 32 + m / 32) % 2 == 0 && (x / 64 + y / 64 + m / 64) % 2 == 0
  }

  predicate StepsFrom(v: Hash32, e: Letter) {
    && e.letter != 0 && IsXorWithSevenBits(v, e.letter, e.mixed)
    && e.mixed * 0x01000193 == e.next + 0x1_0000_0000 * e.carry
  }

  predicate WalksFrom(v: Hash32, walk: Walk)
    decreases walk
  {
    walk.End? || (StepsFrom(v, walk.step) && WalksFrom(walk.step.next, walk.rest))
  }

  function EndsAt(v: Hash32, walk: Walk): Hash32
    decreases walk
  {
    if walk.End? then v else EndsAt(walk.step.next, walk.rest)
  }

  function Text(walk: Walk): Bytes
    decreases walk
  {
    if walk.End? then [] else [walk.step.letter] + Text(walk.rest)
  }

  // ---------------------------------------------------------------------------------------------
  // A walk follows the hash

  lemma {:induction false} XorWithZero(x: nat, n: nat)
    requires x < Pow2(n)
    ensures XorBits(x, 0, n) == x
  {
    if n > 0 { XorWithZero(x / 2, n - 1); }
  }

  /** The last bit, when the others are known. */
  lemma LastBit(x: nat, y: nat, m: nat, n: nat, x': nat, y': nat, m': nat)
    requires x' == x / 2 && y' == y / 2 && m' == m / 2 && (x + y + m) % 2 == 0
    requires XorBits(x', y', n) == m'
    ensures XorBits(x, y, n + 1) == m
  {
    Parity(x, y, m);
  }

  lemma Parity(x: nat, y: nat, m: nat)
    requires (x + y + m) % 2 == 0
    ensures m == 2 * (m / 2) + (x + y) % 2
  {
  }

  lemma LastTwoBits(x: nat, y: nat, m: nat, n: nat, x': nat, y': nat, m': nat)
    requires x' == x / 4 && y' == y / 4 && m' == m / 4
    requires (x + y + m) % 2 == 0 && (x / 2 + y / 2 + m / 2) % 2 == 0
    requires XorBits(x', y', n) == m'
    ensures XorBits(x, y, n + 2) == m
  {
    Quotients(x);
    Quotients(y);
    Quotients(m);
    LastBit(x / 2, y / 2, m / 2, n, x', y', m');
    LastBit(x, y, m, n + 1, x / 2, y / 2, m / 2);
  }

  lemma Quotients(x: nat)
    ensures x / 4 == x / 2 / 2 && x / 8 == x / 4 / 2 && x / 16 == x / 4 / 4
  {
  }

  lemma LastFourBits(x: nat, y: nat, m: nat, n: nat, x': nat, y': nat, m': nat)
    requires x' == x / 16 && y' == y / 16 && m' == m / 16
    requires (x + y + m) % 2 == 0 && (x / 2 + y / 2 + m / 2) % 2 == 0
    requires (x / 4 + y / 4 + m / 4) % 2 == 0 && (x / 8 + y / 8 + m / 8) % 2 == 0
    requires XorBits(x', y', n) == m'
    ensures XorBits(x, y, n + 4) == m
  {
    Quotients(x);
    Quotients(y);
    Quotients(m);
    LastTwoBits(x / 4, y / 4, m / 4, n, x', y', m');
    LastTwoBits(x, y, m, n + 2, x / 4, y / 4, m / 4);
  }

  lemma TopBit(x: nat, y: nat, m: nat, n: nat)
    requires y < 0x80 && x / 0x80 == m / 0x80 && (x / 64 + y / 64 + m / 64) % 2 == 0 && x / 0x80 < Pow2(n)
    ensures XorBits(x / 64, y / 64, n + 1) == m / 64
  {
    XorWithZero(x / 0x80, n);
    Halved(x);
    Halved(y);
    Halved(m);
    LastBit(x / 64, y / 64, m / 64, n, x / 0x80, 0, x / 0x80);
  }

  lemma Halved(x: nat)
    ensures x / 64 / 2 == x / 0x80 && x / 16 / 2 == x / 32 && x / 16 / 4 == x / 64
  {
  }

  lemma TopThreeBits(x: nat, y: nat, m: nat, n: nat)
    requires XorBits(x / 64, y / 64, n + 1) == m / 64
    requires (x / 16 + y / 16 + m / 16) % 2 == 0 && (x / 32 + y / 32 + m / 32) % 2 == 0
    ensures XorBits(x / 16, y / 16, n + 3) == m / 16
  {
    Halved(x);
    Halved(y);
    Halved(m);
    LastTwoBits(x / 16, y / 16, m / 16, n + 1, x / 64, y / 64, m / 64);
  }

  lemma LastSevenBits(x: nat, y: nat, m: nat, n: nat)
    requires IsXorWithSevenBits(x, y, m) && x / 0x80 < Pow2(n)
    ensures XorBits(x, y, n + 7) == m
  {
    TopBit(x, y, m, n);
    TopThreeBits(x, y, m, n);
    LastFourBits(x, y, m, n + 3, x / 16, y / 16, m / 16);
  }

  lemma Pow2Of25()
    ensures Pow2(25) == 0x200_0000
  {
    assert Pow2(5) == 32 && Pow2(10) == 32 * Pow2(5);
    assert Pow2(15) == 32 * Pow2(10) && Pow2(20) == 32 * Pow2(15) && Pow2(25) == 32 * Pow2(20);
  }

  lemma StepMixes(v: Hash32, e: Letter, signedChar: bool)
    requires StepsFrom(v, e)
    ensures Mix(v, e.letter, signedChar) == e.next
  {
    Pow2Of25();
    LastSevenBits(v, e.letter, e.mixed, 25);
    Residue(e.mixed * 0x01000193, e.next, e.carry);
  }

  /** A walk ends at the hash of its text, and hashing goes on from there. */
  lemma {:induction false} WalkHashes(v: Hash32, walk: Walk, rest: Bytes, signedChar: bool)
    requires WalksFrom(v, walk)
    ensures Hash(Text(walk) + rest, v, signedChar) == Hash(rest, EndsAt(v, walk), signedChar)
    decreases walk
  {
    if walk.End? {
      assert Text(walk) + rest == rest;
    } else {
      StepMixes(v, walk.step, signedChar);
      assert (Text(walk) + rest)[1..] == Text(walk.rest) + rest;
      WalkHashes(walk.step.next, walk.rest, rest, signedChar);
    }
  }

  // ---------------------------------------------------------------------------------------------
  // Two walks, in parts

  lemma SameEndSameIdentifier(a: Bytes, first: Walk, second: Walk, signedChar: bool)
    requires WalksFrom(OFFSET_BASIS, first) && WalksFrom(OFFSET_BASIS, second)
    requires EndsAt(OFFSET_BASIS, first) == EndsAt(OFFSET_BASIS, second)
    ensures CreateIdentifier(a, Text(first), signedChar) == CreateIdentifier(a, Text(second), signedChar)
  {
    WalkHashes(OFFSET_BASIS, first, [], signedChar);
    WalkHashes(OFFSET_BASIS, second, [], signedChar);
    assert Text(first) + [] == Text(first) && Text(second) + [] == Text(second);
  }

  lemma {:induction false} Joined(v: Hash32, first: Walk, second: Walk) returns (walk: Walk)
    requires WalksFrom(v, first) && WalksFrom(EndsAt(v, first), second)
    ensures WalksFrom(v, walk) && EndsAt(v, walk) == EndsAt(EndsAt(v, first), second)
    ensures Text(walk) == Text(first) + Text(second)
    decreases first
  {
    if first.End? {
      walk := second;
    } else {
      var rest := Joined(first.step.next, first.rest, second);
      walk := Then(first.step, rest);
    }
  }

  /** The walk goes through this text from the one state to the other. */
  ghost predicate Covers(walk: Walk, text: Bytes, v: Hash32, v': Hash32) {
    WalksFrom(v, walk) && Text(walk) == text && EndsAt(v, walk) == v'
  }

  /** "costarring". */
  const COSTARRING: Bytes := [99, 111] + [115, 116] + [97, 114] + [114, 105] + [110, 103]

  lemma CostarringPart0() returns (walk: Walk)
    ensures Covers(walk, [99, 111], 0x811C9DC5, 0x6229A407)
  {
    walk := Then(Letter(99, 0x811C9DA6, 0x0811D68, 0xE60C2C52),
            Then(Letter(111, 0xE60C2C3D, 0x0E60D96, 0x6229A407), End));
  }

  lemma CostarringPart1() returns (walk: Walk)
    ensures Covers(walk, [115, 116], 0x6229A407, 0xE85C3338)
  {
    walk := Then(Letter(115, 0x6229A474, 0x0622A3E, 0xFB8DE29C),
            Then(Letter(116, 0xFB8DE2E8, 0x0FB8F6E, 0xE85C3338), End));
  }

  lemma CostarringPart2() returns (walk: Walk)
    ensures Covers(walk, [97, 114], 0xE85C3338, 0x28FBF44B)
  {
    walk := Then(Letter(97, 0xE85C3359, 0x0E85DA1, 0x2224D51B),
            Then(Letter(114, 0x2224D569, 0x022250B, 0x28FBF44B), End));
  }

  lemma CostarringPart3() returns (walk: Walk)
    ensures Covers(walk, [114, 105], 0x28FBF44B, 0x572C7996)
  {
    walk := Then(Letter(114, 0x28FBF439, 0x028FC34, 0xBDA175BB),
            Then(Letter(105, 0xBDA175D2, 0x0BDA2A0, 0x572C7996), End));
  }

  lemma CostarringPart4() returns (walk: Walk)
    ensures Covers(walk, [110, 103], 0x572C7996, 0x5E4DAA9D)
  {
    walk := Then(Letter(110, 0x572C79F8, 0x0572D03, 0x33040168),
            Then(Letter(103, 0x3304010F, 0x0330451, 0x5E4DAA9D), End));
  }

  lemma CostarringWalk() returns (walk: Walk)
    ensures Covers(walk, COSTARRING, OFFSET_BASIS, 0x5E4DAA9D)
  {
    walk := CostarringPart0();
    var part1 := CostarringPart1();
    walk := Joined(OFFSET_BASIS, walk, part1);
    var part2 := CostarringPart2();
    walk := Joined(OFFSET_BASIS, walk, part2);
    var part3 := CostarringPart3();
    walk := Joined(OFFSET_BASIS, walk, part3);
    var part4 := CostarringPart4();
    walk := Joined(OFFSET_BASIS, walk, part4);
  }

  /** "liquid". */
  const LIQUID: Bytes := [108] + [105] + [113, 117] + [105] + [100]

  lemma LiquidPart0() returns (walk: Walk)
    ensures Covers(walk, [108], 0x811C9DC5, 0xE90C310B)
  {
    walk := Then(Letter(108, 0x811C9DA9, 0x0811D68, 0xE90C310B), End);
  }

  lemma LiquidPart1() returns (walk: Walk)
    ensures Covers(walk, [105], 0xE90C310B, 0x4031BD46)
  {
    walk := Then(Letter(105, 0xE90C3162, 0x0E90DA0, 0x4031BD46), End);
  }

  lemma LiquidPart2() returns (walk: Walk)
    ensures Covers(walk, [113, 117], 0x4031BD46, 0xF80147A0)
  {
    walk := Then(Letter(113, 0x4031BD37, 0x0403222, 0x454CDD95),
            Then(Letter(117, 0x454CDDE0, 0x0454D4A, 0xF80147A0), End));
  }

  lemma LiquidPart3() returns (walk: Walk)
    ensures Covers(walk, [105], 0xF80147A0, 0x3304016B)
  {
    walk := Then(Letter(105, 0xF80147C9, 0x0F802CE, 0x3304016B), End);
  }

  lemma LiquidPart4() returns (walk: Walk)
    ensures Covers(walk, [100], 0x3304016B, 0x5E4DAA9D)
  {
    walk := Then(Letter(100, 0x3304010F, 0x0330451, 0x5E4DAA9D), End);
  }

  lemma LiquidWalk() returns (walk: Walk)
    ensures Covers(walk, LIQUID, OFFSET_BASIS, 0x5E4DAA9D)
  {
    walk := LiquidPart0();
    var part1 := LiquidPart1();
    walk := Joined(OFFSET_BASIS, walk, part1);
    var part2 := LiquidPart2();
    walk := Joined(OFFSET_BASIS, walk, part2);
    var part3 := LiquidPart3();
    walk := Joined(OFFSET_BASIS, walk, part3);
    var part4 := LiquidPart4();
    walk := Joined(OFFSET_BASIS, walk, part4);
  }

  /** Under every address these two topics have the same identifier, whether `char` is signed or not. */
  lemma TopicsThatCollide(a: Bytes, signedChar: bool)
    ensures COSTARRING != LIQUID
    ensures CreateIdentifier(a, COSTARRING, signedChar) == CreateIdentifier(a, LIQUID, signedChar)
  {
    var costarring := CostarringWalk();
    var liquid := LiquidWalk();
    SameEndSameIdentifier(a, costarring, liquid, signedChar);
    assert |COSTARRING| != |LIQUID|;
  }
}
