/** The hash of fixed keys: what the seed, the constants, the length and the order of the steps come to. */
module MurmurVectors {
  import opened Murmur

  lemma HashOfNothing()
    ensures Hash([]) == 0
  {
    assert LengthWord([]) == 0;
    assert Shift16(0) == 0 && Shift13(0) == 0 && MulF1(0) == 0 && MulF2(0) == 0;
    assert Xor(0, 0) == 0;
  }

  /** The key of one zero byte: only the length tells it from the empty key. */
  lemma HashOfOneByte()
    ensures Hash([0]) == 0x514e28b7
  {
    hide *;
    var key: seq<octet> := [0];
    OneByteWords();
    BodyStart(key);
    TailStep(key, 0x0, 0x0, 0x0);
    LengthIs(key);
    Finish(key, 0x0, 0x0, 1, 0x1);
  }

  lemma OneByteWords()
    ensures Word(0, 0, 0, 0) == 0x0 && Xor(0x0, Scramble(0x0)) == 0x0
    ensures Xor(0x0, 1) == 0x1 && Fmix(0x1) == 0x514e28b7
  {
  }

  /** One byte in the tail. */
  lemma HashOfA()
    ensures Hash([97]) == 0x3c2569b2
  {
    hide *;
    var key: seq<octet> := [97];
    AWords();
    BodyStart(key);
    TailStep(key, 0x0, 0x61, 0x504ba9d5);
    LengthIs(key);
    Finish(key, 0x0, 0x504ba9d5, 1, 0x504ba9d4);
  }

  lemma AWords()
    ensures Word(97, 0, 0, 0) == 0x61 && Xor(0x0, Scramble(0x61)) == 0x504ba9d5
    ensures Xor(0x504ba9d5, 1) == 0x504ba9d4 && Fmix(0x504ba9d4) == 0x3c2569b2
  {
  }

  /** Two bytes in the tail. */
  lemma HashOfAb()
    ensures Hash([97, 98]) == 0x9bbfd75f
  {
    hide *;
    var key: seq<octet> := [97, 98];
    AbWords();
    BodyStart(key);
    TailStep(key, 0x0, 0x6261, 0x5b87902c);
    LengthIs(key);
    Finish(key, 0x0, 0x5b87902c, 2, 0x5b87902e);
  }

  lemma AbWords()
    ensures Word(97, 98, 0, 0) == 0x6261 && Xor(0x0, Scramble(0x6261)) == 0x5b87902c
    ensures Xor(0x5b87902c, 2) == 0x5b87902e && Fmix(0x5b87902e) == 0x9bbfd75f
  {
  }

  /** Three bytes in the tail. */
  lemma HashOfAbc()
    ensures Hash([97, 98, 99]) == 0xb3dd93fa
  {
    hide *;
    var key: seq<octet> := [97, 98, 99];
    AbcWords();
    BodyStart(key);
    TailStep(key, 0x0, 0x636261, 0xa7349db7);
    LengthIs(key);
    Finish(key, 0x0, 0xa7349db7, 3, 0xa7349db4);
  }

  lemma AbcWords()
    ensures Word(97, 98, 99, 0) == 0x636261 && Xor(0x0, Scramble(0x636261)) == 0xa7349db7
    ensures Xor(0xa7349db7, 3) == 0xa7349db4 && Fmix(0xa7349db4) == 0xb3dd93fa
  {
  }

  /** One block. */
  lemma HashOfTest()
    ensures Hash([116, 101, 115, 116]) == 0xba6bd213
  {
    hide *;
    var key: seq<octet> := [116, 101, 115, 116];
    TestWords();
    BodyStart(key);
    BodyStep(key, 0, 0x0, 0x74736574, 0x7985975b);
    NoTail(key, 0x7985975b);
    LengthIs(key);
    Finish(key, 0x7985975b, 0x7985975b, 4, 0x7985975f);
  }

  lemma TestWords()
    ensures Word(116, 101, 115, 116) == 0x74736574 && Round(0x0, 0x74736574) == 0x7985975b
    ensures Xor(0x7985975b, 4) == 0x7985975f && Fmix(0x7985975f) == 0xba6bd213
  {
  }

  /** One block and one byte. */
  lemma HashOfHello()
    ensures Hash([104, 101, 108, 108, 111]) == 0x248bfa47
  {
    hide *;
    var key: seq<octet> := [104, 101, 108, 108, 111];
    HelloWords();
    BodyStart(key);
    BodyStep(key, 0, 0x0, 0x6c6c6568, 0xef13efcd);
    TailStep(key, 0xef13efcd, 0x6f, 0x9caf3fb3);
    LengthIs(key);
    Finish(key, 0xef13efcd, 0x9caf3fb3, 5, 0x9caf3fb6);
  }

  lemma HelloWords()
    ensures Word(104, 101, 108, 108) == 0x6c6c6568 && Round(0x0, 0x6c6c6568) == 0xef13efcd
    ensures Word(111, 0, 0, 0) == 0x6f && Xor(0xef13efcd, Scramble(0x6f)) == 0x9caf3fb3
    ensures Xor(0x9caf3fb3, 5) == 0x9caf3fb6 && Fmix(0x9caf3fb6) == 0x248bfa47
  {
  }

  /** Two blocks. */
  lemma HashOfEight()
    ensures Hash([0, 1, 2, 3, 4, 5, 6, 7]) == 0xd161d673
  {
    hide *;
    var key: seq<octet> := [0, 1, 2, 3, 4, 5, 6, 7];
    EightWords();
    BodyStart(key);
    BodyStep(key, 0, 0x0, 0x3020100, 0x5a7c19df);
    BodyStep(key, 1, 0x5a7c19df, 0x7060504, 0x32abd424);
    NoTail(key, 0x32abd424);
    LengthIs(key);
    Finish(key, 0x32abd424, 0x32abd424, 8, 0x32abd42c);
  }

  lemma EightWords()
    ensures Word(0, 1, 2, 3) == 0x3020100 && Round(0x0, 0x3020100) == 0x5a7c19df
    ensures Word(4, 5, 6, 7) == 0x7060504 && Round(0x5a7c19df, 0x7060504) == 0x32abd424
    ensures Xor(0x32abd424, 8) == 0x32abd42c && Fmix(0x32abd42c) == 0xd161d673
  {
  }

  /** The pointer 0x7f0000001000. */
  lemma HashOfPointer()
    ensures Hash([0, 16, 0, 0, 0, 127, 0, 0]) == 0x8f72c22b
  {
    hide *;
    var key: seq<octet> := [0, 16, 0, 0, 0, 127, 0, 0];
    PointerWords();
    BodyStart(key);
    BodyStep(key, 0, 0x0, 0x1000, 0x317f4748);
    BodyStep(key, 1, 0x317f4748, 0x7f00, 0xd5e624e7);
    NoTail(key, 0xd5e624e7);
    LengthIs(key);
    Finish(key, 0xd5e624e7, 0xd5e624e7, 8, 0xd5e624ef);
  }

  lemma PointerWords()
    ensures Word(0, 16, 0, 0) == 0x1000 && Round(0x0, 0x1000) == 0x317f4748
    ensures Word(0, 127, 0, 0) == 0x7f00 && Round(0x317f4748, 0x7f00) == 0xd5e624e7
    ensures Xor(0xd5e624e7, 8) == 0xd5e624ef && Fmix(0xd5e624ef) == 0x8f72c22b
  {
  }

  /** The same address on node 1. */
  lemma HashOfTaggedPointer()
    ensures Hash([0, 16, 0, 0, 0, 127, 1, 0]) == 0x412bcbd4
  {
    hide *;
    var key: seq<octet> := [0, 16, 0, 0, 0, 127, 1, 0];
    TaggedPointerWords();
    BodyStart(key);
    BodyStep(key, 0, 0x0, 0x1000, 0x317f4748);
    BodyStep(key, 1, 0x317f4748, 0x17f00, 0xb5ecce9b);
    NoTail(key, 0xb5ecce9b);
    LengthIs(key);
    Finish(key, 0xb5ecce9b, 0xb5ecce9b, 8, 0xb5ecce93);
  }

  lemma TaggedPointerWords()
    ensures Word(0, 16, 0, 0) == 0x1000 && Round(0x0, 0x1000) == 0x317f4748
    ensures Word(0, 127, 1, 0) == 0x17f00 && Round(0x317f4748, 0x17f00) == 0xb5ecce9b
    ensures Xor(0xb5ecce9b, 8) == 0xb5ecce93 && Fmix(0xb5ecce93) == 0x412bcbd4
  {
  }

  // ---- the stages of the hash, for keys of at most eight bytes ----

  lemma BodyStart(key: seq<octet>)
    ensures Body(key, 0) == 0
  {
  }

  lemma BodyStep(key: seq<octet>, i: nat, h: word, k: word, r: word)
    requires 4 * i + 4 <= |key| && Body(key, i) == h && Round(h, k) == r
    requires Word(key[4 * i], key[4 * i + 1], key[4 * i + 2], key[4 * i + 3]) == k
    ensures Body(key, i + 1) == r
  {
    hide Round, Word;
  }

  lemma TailStep(key: seq<octet>, h: word, k: word, m: word)
    requires |key| < 8 && |key| % 4 != 0 && Xor(h, Scramble(k)) == m
    requires
      var n, t := |key| / 4 * 4, |key| % 4;
      Word(key[n], if t >= 2 then key[n + 1] else 0, if t >= 3 then key[n + 2] else 0, 0) == k
    ensures MixTail(h, key) == m
  {
    hide Scramble, Xor, Word;
  }

  lemma NoTail(key: seq<octet>, h: word)
    requires |key| % 4 == 0
    ensures MixTail(h, key) == h
  {
  }

  lemma LengthIs(key: seq<octet>)
    requires |key| <= 8
    ensures |key| == 1 ==> LengthWord(key) == 1
    ensures |key| == 2 ==> LengthWord(key) == 2
    ensures |key| == 3 ==> LengthWord(key) == 3
    ensures |key| == 4 ==> LengthWord(key) == 4
    ensures |key| == 5 ==> LengthWord(key) == 5
    ensures |key| == 8 ==> LengthWord(key) == 8
  {
    LowValues();
    hide Low;
    SmallWords();
  }

  lemma LowValues()
    ensures Low(0) == 0 && Low(1) == 1 && Low(2) == 2 && Low(3) == 3 && Low(4) == 4 && Low(5) == 5 && Low(8) == 8
  {
  }

  lemma SmallWords()
    ensures Word(1, 0, 0, 0) == 1 && Word(2, 0, 0, 0) == 2 && Word(3, 0, 0, 0) == 3
    ensures Word(4, 0, 0, 0) == 4 && Word(5, 0, 0, 0) == 5 && Word(8, 0, 0, 0) == 8
  {
  }

  lemma Finish(key: seq<octet>, h: word, m: word, n: word, w: word)
    requires Body(key, |key| / 4) == h && MixTail(h, key) == m && LengthWord(key) == n && Xor(m, n) == w
    ensures Hash(key) == Fmix(w)
  {
    hide Body, MixTail, LengthWord, Xor, Fmix;
  }

  // ---- lengths ----

  lemma LowIs(n: nat)
    ensures Low(n) as nat == n % 256
  {
    OctetIs(n % 256);
  }

  lemma OctetIs(n: nat)
    requires n < 256
    ensures OctetOf(n) as nat == n
  {
    NibbleIs(n / 16);
    NibbleIs(n % 16);
    hide Nibble;
    Join(Nibble(n / 16), Nibble(n % 16));
  }

  lemma NibbleIs(n: nat)
    requires n < 16
    ensures Nibble(n) as nat == n && Nibble(n) < 16
  {
  }

  lemma Join(a: octet, b: octet)
    requires a < 16 && b < 16
    ensures ((a << 4) | b) as nat == 16 * (a as nat) + b as nat
  {
  }

  /** A number below 2^32 out of its four bytes. */
  lemma Rejoin(n: nat)
    requires n < 0x1_0000_0000
    ensures n == n % 256 + 256 * (n / 0x100 % 256) + 0x1_0000 * (n / 0x1_0000 % 256)
                 + 0x100_0000 * (n / 0x100_0000 % 256)
  {
    var a := n / 0x100;
    var b := a / 256;
    assert b == n / 0x1_0000;
    var d := b / 256;
    assert d == n / 0x100_0000 && d < 256;
  }

  /** Lengths below 2^32 give different words. */
  lemma LengthWordInjective(a: seq<octet>, b: seq<octet>)
    requires |a| < 0x1_0000_0000 && |b| < 0x1_0000_0000 && LengthWord(a) == LengthWord(b)
    ensures |a| == |b|
  {
    hide Word, Low;
    var n, m := |a|, |b|;
    WordInjective(Low(n), Low(n / 0x100), Low(n / 0x1_0000), Low(n / 0x100_0000),
                  Low(m), Low(m / 0x100), Low(m / 0x1_0000), Low(m / 0x100_0000));
    LowIs(n);
    LowIs(n / 0x100);
    LowIs(n / 0x1_0000);
    LowIs(n / 0x100_0000);
    LowIs(m);
    LowIs(m / 0x100);
    LowIs(m / 0x1_0000);
    LowIs(m / 0x100_0000);
    Rejoin(n);
    Rejoin(m);
  }

  /** Two keys of different lengths that reach the same state are told apart by the length alone. */
  lemma LengthsApart(a: seq<octet>, b: seq<octet>)
    requires |a| != |b| && |a| < 0x1_0000_0000 && |b| < 0x1_0000_0000
    requires MixTail(Body(a, |a| / 4), a) == MixTail(Body(b, |b| / 4), b)
    ensures Hash(a) != Hash(b)
  {
    hide Fmix, Unfmix, Body, Scramble, TailWord, LengthWord, Xor, MixTail;
    var x := MixTail(Body(a, |a| / 4), a);
    if LengthWord(a) == LengthWord(b) {
      LengthWordInjective(a, b);
    }
    XorLaws(x, LengthWord(a));
    XorLaws(x, LengthWord(b));
    FmixBijective(Xor(x, LengthWord(a)));
    FmixBijective(Xor(x, LengthWord(b)));
  }

  /** Keys of up to three zero bytes all reach the empty key's state, and still have different hashes. */
  lemma ZerosApart(i: nat, j: nat)
    requires i < j < 4
    ensures Hash(Zeros(i)) != Hash(Zeros(j))
  {
    ZerosState(i);
    ZerosState(j);
    hide Hash, Body, MixTail;
    LengthsApart(Zeros(i), Zeros(j));
  }

  function Zeros(n: nat): (r: seq<octet>)
    ensures |r| == n && forall i :: 0 <= i < n ==> r[i] == 0
  {
    seq(n, _ => 0)
  }

  lemma ZerosState(n: nat)
    requires n < 4
    ensures MixTail(Body(Zeros(n), n / 4), Zeros(n)) == 0
  {
    assert Body(Zeros(n), 0) == 0;
    assert TailWord(Zeros(n)) == 0;
    assert Scramble(0) == 0 && Xor(0, 0) == 0;
  }
}
