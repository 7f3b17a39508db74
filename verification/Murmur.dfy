/** MurmurHash3_x86_32 on a little-endian machine, and when it is guaranteed to tell two keys apart. */
module Murmur {
  import opened Bits

  type word = bv32
  type octet = bv8

  // ---- the mixing operations and their inverses ----

  function Rotl15(x: word): word { (x << 15) | (x >> 17) }
  function Rotr15(x: word): word { (x >> 15) | (x << 17) }
  function Rotl13(x: word): word { (x << 13) | (x >> 19) }
  function Rotr13(x: word): word { (x >> 13) | (x << 19) }
  function MulC1(x: word): word { x * 0xcc9e2d51 }
  function DivC1(x: word): word { x * 0xdee13bb1 }
  function MulC2(x: word): word { x * 0x1b873593 }
  function DivC2(x: word): word { x * 0x56ed309b }
  function Mul5Add(x: word): word { x * 5 + 0xe6546b64 }
  function Unmul5(x: word): word { (x - 0xe6546b64) * 0xcccccccd }
  function MulF1(x: word): word { x * 0x85ebca6b }
  function DivF1(x: word): word { x * 0xa5cb9243 }
  function MulF2(x: word): word { x * 0xc2b2ae35 }
  function DivF2(x: word): word { x * 0x7ed1b41d }
  function Shift16(x: word): word { x ^ (x >> 16) }
  function Shift13(x: word): word { x ^ (x >> 13) }
  function Unshift13(x: word): word { x ^ (x >> 13) ^ (x >> 26) }

  function Xor(x: word, y: word): word { x ^ y }

  lemma XorLaws(x: word, y: word)
    ensures Xor(Xor(x, y), y) == x && Xor(x, Xor(x, y)) == y && Xor(x, y) == Xor(y, x)
  {
    assert (x ^ y) ^ y == x && x ^ (x ^ y) == y && x ^ y == y ^ x;
  }

  lemma RotlInverse(x: word)
    ensures Rotr15(Rotl15(x)) == x == Rotl15(Rotr15(x)) && Rotr13(Rotl13(x)) == x == Rotl13(Rotr13(x))
  {
  }

  lemma MulInverse(x: word)
    ensures DivC1(MulC1(x)) == x == MulC1(DivC1(x)) && DivC2(MulC2(x)) == x == MulC2(DivC2(x))
    ensures DivF1(MulF1(x)) == x == MulF1(DivF1(x)) && DivF2(MulF2(x)) == x == MulF2(DivF2(x))
    ensures Unmul5(Mul5Add(x)) == x == Mul5Add(Unmul5(x))
  {
  }

  lemma Shift16Inverse(x: word)
    ensures Shift16(Shift16(x)) == x
  {
    assert Shift16(x) == x ^ (x >> 16);
    assert Shift16(x ^ (x >> 16)) == x;
  }

  lemma Shift13Inverse(x: word)
    ensures Unshift13(Shift13(x)) == x
  {
    assert Shift13(x) == x ^ (x >> 13);
    assert Unshift13(x ^ (x >> 13)) == x;
  }

  lemma Unshift13Inverse(x: word)
    ensures Shift13(Unshift13(x)) == x
  {
    assert Unshift13(x) == x ^ (x >> 13) ^ (x >> 26);
    assert Shift13(x ^ (x >> 13) ^ (x >> 26)) == x;
  }

  /** The scrambling of one block before it enters the state. */
  function Scramble(k: word): word { MulC2(Rotl15(MulC1(k))) }
  function Unscramble(x: word): word { DivC1(Rotr15(DivC2(x))) }

  /** One round of the body loop. */
  function Round(h: word, k: word): word { Mul5Add(Rotl13(Xor(h, Scramble(k)))) }
  /** The state of a round after the block has been mixed in. */
  function Unround(h: word): word { Rotr13(Unmul5(h)) }

  function Fmix(h: word): word { Shift16(MulF2(Shift13(MulF1(Shift16(h))))) }
  function Unfmix(h: word): word { Shift16(DivF1(Unshift13(DivF2(Shift16(h))))) }

  lemma ScrambleBijective(x: word)
    ensures Unscramble(Scramble(x)) == x && Scramble(Unscramble(x)) == x
  {
    hide MulC1, MulC2, DivC1, DivC2, Rotl15, Rotr15;
    MulInverse(x);
    RotlInverse(MulC1(x));
    MulInverse(Rotl15(MulC1(x)));
    RotlInverse(DivC2(x));
    MulInverse(Rotr15(DivC2(x)));
  }

  lemma UnroundIs(h: word, k: word)
    ensures Unround(Round(h, k)) == Xor(h, Scramble(k))
  {
    hide Scramble, Mul5Add, Unmul5, Rotl13, Rotr13, Xor;
    RotlInverse(Xor(h, Scramble(k)));
    MulInverse(Rotl13(Xor(h, Scramble(k))));
  }

  lemma RoundOf(r: word, h: word, k: word)
    requires Xor(h, Scramble(k)) == Unround(r)
    ensures Round(h, k) == r
  {
    hide Scramble, Mul5Add, Unmul5, Rotl13, Rotr13, Xor;
    RotlInverse(Unmul5(r));
    MulInverse(r);
  }

  /** A round is a bijection of the state for every block, and of the block for every state. */
  lemma RoundBijective(h: word, k: word, r: word)
    ensures Round(h, k) == r <==> h == Xor(Unround(r), Scramble(k))
    ensures Round(h, k) == r <==> k == Unscramble(Xor(h, Unround(r)))
  {
    hide Round, Unround, Scramble, Unscramble, Xor;
    var x, u := Scramble(k), Unround(r);
    UnroundIs(h, k);
    XorLaws(h, x);
    XorLaws(u, x);
    XorLaws(h, u);
    ScrambleBijective(k);
    ScrambleBijective(Xor(h, u));
    if Xor(h, x) == u {
      RoundOf(r, h, k);
    }
  }

  lemma FmixBijective(h: word)
    ensures Unfmix(Fmix(h)) == h && Fmix(Unfmix(h)) == h
  {
    hide Shift16, Shift13, Unshift13, MulF1, MulF2, DivF1, DivF2;
    var a := Shift16(h);
    Shift16Inverse(h);
    MulInverse(a);
    Shift13Inverse(MulF1(a));
    MulInverse(Shift13(MulF1(a)));
    Shift16Inverse(MulF2(Shift13(MulF1(a))));
    Unshift13Inverse(DivF2(a));
    MulInverse(Unshift13(DivF2(a)));
    Shift16Inverse(DivF1(Unshift13(DivF2(a))));
    MulInverse(DivF2(a));
  }

  // ---- the hash of a key ----

  function Word(b0: octet, b1: octet, b2: octet, b3: octet): word {
    (b0 as word) | ((b1 as word) << 8) | ((b2 as word) << 16) | ((b3 as word) << 24)
  }

  function Block(key: seq<octet>, i: nat): word
    requires 4 * i + 4 <= |key|
  {
    Word(key[4 * i], key[4 * i + 1], key[4 * i + 2], key[4 * i + 3])
  }

  /** State after the first `n` blocks. */
  function Body(key: seq<octet>, n: nat): word
    requires 4 * n <= |key|
  {
    if n == 0 then 0 else Round(Body(key, n - 1), Block(key, n - 1))
  }

  /** The bytes behind the last whole block, packed into a word. */
  function TailWord(key: seq<octet>): word {
    var n, t := |key| / 4 * 4, |key| % 4;
    Word(if t >= 1 then key[n] else 0, if t >= 2 then key[n + 1] else 0, if t >= 3 then key[n + 2] else 0, 0)
  }

  function MixTail(h: word, key: seq<octet>): word {
    if |key| % 4 == 0 then h else Xor(h, Scramble(TailWord(key)))
  }

  /** Four bits of a number. */
  function Nibble(n: nat): octet
    requires n < 16
  {
    if n == 0 then 0
    else if n == 1 then 1
    else if n == 2 then 2
    else if n == 3 then 3
    else if n == 4 then 4
    else if n == 5 then 5
    else if n == 6 then 6
    else if n == 7 then 7
    else if n == 8 then 8
    else if n == 9 then 9
    else if n == 10 then 10
    else if n == 11 then 11
    else if n == 12 then 12
    else if n == 13 then 13
    else if n == 14 then 14
    else 15
  }

  /** The byte with the given value. */
  function OctetOf(n: nat): octet
    requires n < 256
  {
    (Nibble(n / 16) << 4) | Nibble(n % 16)
  }

  function Low(n: nat): octet { OctetOf(n % 256) }

  /** The length, reduced to 32 bits. */
  function LengthWord(key: seq<octet>): word {
    Word(Low(|key|), Low(|key| / 0x100), Low(|key| / 0x1_0000), Low(|key| / 0x100_0000))
  }

  function Hash(key: seq<octet>): word {
    Fmix(Xor(MixTail(Body(key, |key| / 4), key), LengthWord(key)))
  }

  /** `k ^= byte << at`. */
  function XorByte(k: word, b: octet, at: nat): word
    requires at <= 24
  {
    k ^ ((b as word) << at)
  }

  lemma TailPacks(b0: octet, b1: octet, b2: octet)
    ensures XorByte(XorByte(XorByte(0, b2, 16), b1, 8), b0, 0) == Word(b0, b1, b2, 0)
    ensures XorByte(0, 0, 16) == 0 && XorByte(0, 0, 8) == 0
  {
    assert ((0 ^ ((b2 as word) << 16)) ^ ((b1 as word) << 8)) ^ ((b0 as word) << 0)
        == (b0 as word) | ((b1 as word) << 8) | ((b2 as word) << 16) | ((0 as octet as word) << 24);
  }

  /** The routine itself: the block loop counts a negative index up to 0, and the tail switch falls through. */
  method MurmurHash3(key: seq<octet>) returns (h: word)
    ensures h == Hash(key)
  {
    hide MulC1, MulC2, Rotl15, Rotl13, Mul5Add, Shift16, Shift13, MulF1, MulF2, Word, LengthWord, Xor, XorByte;
    var nblocks := |key| / 4;
    h := 0;
    var i := -nblocks;
    while i != 0
      invariant -nblocks <= i <= 0
      invariant h == Body(key, nblocks + i)
      decreases -i
    {
      var k := Block(key, nblocks + i);
      k := MulC1(k);
      k := Rotl15(k);
      k := MulC2(k);
      h := Xor(h, k);
      h := Rotl13(h);
      h := Mul5Add(h);
      i := i + 1;
    }
    var k1: word := 0;
    var rest := And(|key|, 3);
    AndIsMod(|key|, 2);
    assert Pow2(2) == 4;
    TailPacks(if rest >= 1 then key[nblocks * 4] else 0, if rest >= 2 then key[nblocks * 4 + 1] else 0,
              if rest >= 3 then key[nblocks * 4 + 2] else 0);
    if rest >= 3 {
      k1 := XorByte(k1, key[nblocks * 4 + 2], 16);
    }
    if rest >= 2 {
      k1 := XorByte(k1, key[nblocks * 4 + 1], 8);
    }
    if rest >= 1 {
      k1 := XorByte(k1, key[nblocks * 4], 0);
      k1 := MulC1(k1);
      k1 := Rotl15(k1);
      k1 := MulC2(k1);
      h := Xor(h, k1);
    }
    h := Xor(h, LengthWord(key));
    h := Shift16(h);
    h := MulF1(h);
    h := Shift13(h);
    h := MulF2(h);
    h := Shift16(h);
  }

  // ---- telling keys apart ----

  lemma WordInjective(a0: octet, a1: octet, a2: octet, a3: octet, b0: octet, b1: octet, b2: octet, b3: octet)
    requires Word(a0, a1, a2, a3) == Word(b0, b1, b2, b3)
    ensures a0 == b0 && a1 == b1 && a2 == b2 && a3 == b3
  {
  }

  lemma XorCancel(x: word, y: word, k: word)
    requires Xor(x, k) == Xor(y, k)
    ensures x == y
  {
    hide Xor;
    XorLaws(x, k);
    XorLaws(y, k);
  }

  /** Equal results of a round mean equal states or different blocks. */
  lemma RoundInjective(h: word, k: word, h': word, k': word)
    requires Round(h, k) == Round(h', k')
    ensures (h == h') == (k == k')
  {
    hide Round, Unround, Scramble, Unscramble, Xor;
    UnroundIs(h, k);
    UnroundIs(h', k');
    ScrambleBijective(k);
    ScrambleBijective(k');
    var x, y := Scramble(k), Scramble(k');
    if k == k' {
      XorCancel(h, h', x);
    } else if h == h' {
      XorLaws(h, x);
      XorLaws(h, y);
      XorCancel(x, y, h);
    }
  }

  /** The two keys agree outside the four bytes of unit `j`; the unit behind the last whole block is the tail. */
  ghost predicate DifferOnlyIn(a: seq<octet>, b: seq<octet>, j: nat) {
    |a| == |b| && j <= |a| / 4 && forall i :: 0 <= i < |a| && !(4 * j <= i < 4 * j + 4) ==> a[i] == b[i]
  }

  lemma {:induction false} BodyApart(a: seq<octet>, b: seq<octet>, j: nat, n: nat)
    requires DifferOnlyIn(a, b, j) && 4 * n <= |a|
    ensures n <= j ==> Body(a, n) == Body(b, n)
    ensures j < n && a[4 * j..4 * j + 4] != b[4 * j..4 * j + 4] ==> Body(a, n) != Body(b, n)
    decreases n
  {
    hide Word, Round;
    if n > 0 {
      BodyApart(a, b, j, n - 1);
      if n - 1 != j {
        assert Block(a, n - 1) == Block(b, n - 1);
      } else if Block(a, j) == Block(b, j) {
        WordInjective(a[4 * j], a[4 * j + 1], a[4 * j + 2], a[4 * j + 3], b[4 * j], b[4 * j + 1], b[4 * j + 2],
            b[4 * j + 3]);
        assert a[4 * j..4 * j + 4] == b[4 * j..4 * j + 4];
      }
      if Body(a, n) == Body(b, n) {
        RoundInjective(Body(a, n - 1), Block(a, n - 1), Body(b, n - 1), Block(b, n - 1));
      }
    }
  }

  lemma TailApart(a: seq<octet>, b: seq<octet>)
    requires |a| == |b| && TailWord(a) == TailWord(b)
    ensures a[|a| / 4 * 4..] == b[|a| / 4 * 4..]
  {
    hide Word;
    var n, t := |a| / 4 * 4, |a| % 4;
    WordInjective(if t >= 1 then a[n] else 0, if t >= 2 then a[n + 1] else 0, if t >= 3 then a[n + 2] else 0, 0,
                  if t >= 1 then b[n] else 0, if t >= 2 then b[n + 1] else 0, if t >= 3 then b[n + 2] else 0, 0);
  }

  /** Keys of equal length that differ only inside one 4-byte block, or only in the bytes behind the last block,
      never collide. */
  lemma OneUnitNeverCollides(a: seq<octet>, b: seq<octet>, j: nat)
    requires DifferOnlyIn(a, b, j) && a != b
    ensures Hash(a) != Hash(b)
  {
    hide Fmix, Unfmix, Body, Scramble, Unscramble, TailWord, LengthWord, Xor;
    var n := |a| / 4;
    BodyApart(a, b, j, n);
    var x, y := MixTail(Body(a, n), a), MixTail(Body(b, n), b);
    if j < n {
      SameOutside(a, b, j);
      SameTail(a, b, j);
      if x == y && |a| % 4 != 0 {
        XorCancel(Body(a, n), Body(b, n), Scramble(TailWord(a)));
      }
    } else {
      assert a[..4 * n] == b[..4 * n];
      assert a == a[..4 * n] + a[4 * n..] && b == b[..4 * n] + b[4 * n..];
      if TailWord(a) == TailWord(b) {
        TailApart(a, b);
      }
      ScrambleBijective(TailWord(a));
      ScrambleBijective(TailWord(b));
      var s, t := Scramble(TailWord(a)), Scramble(TailWord(b));
      var g := Body(a, n);
      XorLaws(s, g);
      XorLaws(t, g);
      if x == y {
        XorCancel(s, t, g);
      }
    }
    assert x != y && LengthWord(a) == LengthWord(b) by { SameLength(a, b); }
    if Xor(x, LengthWord(a)) == Xor(y, LengthWord(b)) {
      XorCancel(x, y, LengthWord(a));
    }
    FmixBijective(Xor(x, LengthWord(a)));
    FmixBijective(Xor(y, LengthWord(b)));
  }

  lemma SameLength(a: seq<octet>, b: seq<octet>)
    requires |a| == |b|
    ensures LengthWord(a) == LengthWord(b)
  {
  }

  lemma SameTail(a: seq<octet>, b: seq<octet>, j: nat)
    requires DifferOnlyIn(a, b, j) && j < |a| / 4
    ensures TailWord(a) == TailWord(b) && LengthWord(a) == LengthWord(b)
  {
    hide Word, LengthWord;
    SameLength(a, b);
    SameTailFrom(a, b, 4 * j + 4);
  }

  lemma SameOutside(a: seq<octet>, b: seq<octet>, j: nat)
    requires DifferOnlyIn(a, b, j) && a != b && j < |a| / 4
    ensures a[4 * j..4 * j + 4] != b[4 * j..4 * j + 4]
  {
    if a[4 * j..4 * j + 4] == b[4 * j..4 * j + 4] {
      forall i | 0 <= i < |a|
        ensures a[i] == b[i]
      {
        if 4 * j <= i < 4 * j + 4 {
          assert a[4 * j..4 * j + 4][i - 4 * j] == b[4 * j..4 * j + 4][i - 4 * j];
        }
      }
    }
  }

  /** Whatever the first of two blocks is changed to, exactly one second block brings the state back. */
  lemma TwoRoundsMeet(h: word, x: word, y: word, x': word, y': word)
    ensures Round(Round(h, x), y) == Round(Round(h, x'), y')
       <==> y' == Unscramble(Xor(Round(h, x'), Xor(Round(h, x), Scramble(y))))
  {
    hide Unround, Scramble, Unscramble, Xor, Mul5Add, Rotl13;
    var p, q := Round(h, x), Round(h, x');
    UnroundIs(p, y);
    UnroundIs(q, y');
    var t := Xor(q, Xor(p, Scramble(y)));
    ScrambleBijective(t);
    ScrambleBijective(y');
    XorLaws(q, Xor(p, Scramble(y)));
    XorLaws(q, Scramble(y'));
  }

  /** The two keys agree outside the two whole blocks `j` and `j + 1`. */
  ghost predicate DifferOnlyInTwo(a: seq<octet>, b: seq<octet>, j: nat) {
    |a| == |b| && 4 * j + 8 <= |a| && forall i :: 0 <= i < |a| && !(4 * j <= i < 4 * j + 8) ==> a[i] == b[i]
  }

  lemma {:induction false} SameBody(a: seq<octet>, b: seq<octet>, j: nat, n: nat)
    requires DifferOnlyInTwo(a, b, j) && n <= j
    ensures Body(a, n) == Body(b, n)
    decreases n
  {
    hide Word, Round;
    if n > 0 {
      SameBody(a, b, j, n - 1);
      assert Block(a, n - 1) == Block(b, n - 1);
    }
  }

  /** Equal blocks keep states equal, and different states different. */
  lemma {:induction false} BodyAfter(a: seq<octet>, b: seq<octet>, j: nat, n: nat)
    requires DifferOnlyInTwo(a, b, j) && j + 2 <= n && 4 * n <= |a|
    ensures Body(a, n) == Body(b, n) <==> Body(a, j + 2) == Body(b, j + 2)
    decreases n
  {
    hide Word, Round;
    if n > j + 2 {
      BodyAfter(a, b, j, n - 1);
      assert Block(a, n - 1) == Block(b, n - 1);
      if Body(a, n) == Body(b, n) {
        RoundInjective(Body(a, n - 1), Block(a, n - 1), Body(b, n - 1), Block(b, n - 1));
      }
    }
  }

  lemma SameEnd(a: seq<octet>, b: seq<octet>, j: nat)
    requires DifferOnlyInTwo(a, b, j)
    ensures TailWord(a) == TailWord(b) && LengthWord(a) == LengthWord(b)
  {
    hide Word, LengthWord;
    SameLength(a, b);
    SameTailFrom(a, b, 4 * j + 8);
  }

  lemma SameTailFrom(a: seq<octet>, b: seq<octet>, from: nat)
    requires |a| == |b| && from <= |a| / 4 * 4 && forall i :: from <= i < |a| ==> a[i] == b[i]
    ensures TailWord(a) == TailWord(b)
  {
    hide Word;
    var n, t := |a| / 4 * 4, |a| % 4;
    assert t >= 1 ==> a[n] == b[n];
    assert t >= 2 ==> a[n + 1] == b[n + 1];
    assert t >= 3 ==> a[n + 2] == b[n + 2];
  }

  lemma HashOfBody(a: seq<octet>, b: seq<octet>)
    requires |a| == |b| && TailWord(a) == TailWord(b) && LengthWord(a) == LengthWord(b)
    ensures Hash(a) == Hash(b) <==> Body(a, |a| / 4) == Body(b, |a| / 4)
  {
    hide Fmix, Unfmix, Body, Scramble, TailWord, LengthWord, Xor;
    var p, q := Body(a, |a| / 4), Body(b, |a| / 4);
    var x, y := MixTail(p, a), MixTail(q, b);
    FmixBijective(Xor(x, LengthWord(a)));
    FmixBijective(Xor(y, LengthWord(b)));
    if Hash(a) == Hash(b) {
      XorCancel(x, y, LengthWord(a));
      if |a| % 4 != 0 { XorCancel(p, q, Scramble(TailWord(a))); }
    }
  }

  /** The guarantee cannot be extended to two blocks: keys that differ only in blocks j and j + 1 collide if and only
      if the second block of the one is the only word that undoes the change of the first. */
  lemma TwoBlocksCollideIff(a: seq<octet>, b: seq<octet>, j: nat)
    requires DifferOnlyInTwo(a, b, j)
    ensures
      var h := Body(a, j);
      var was := Xor(Round(h, Block(a, j)), Scramble(Block(a, j + 1)));
      Hash(a) == Hash(b) <==> Block(b, j + 1) == Unscramble(Xor(Round(h, Block(b, j)), was))
  {
    SameEnd(a, b, j);
    SameBody(a, b, j, j);
    TwoSteps(a, j);
    TwoSteps(b, j);
    hide Hash, Round, Scramble, Unscramble, Xor, Block, Body;
    HashOfBody(a, b);
    BodyAfter(a, b, j, |a| / 4);
    TwoRoundsMeet(Body(a, j), Block(a, j), Block(a, j + 1), Block(b, j), Block(b, j + 1));
  }

  lemma TwoSteps(a: seq<octet>, j: nat)
    requires 4 * j + 8 <= |a|
    ensures Body(a, j + 2) == Round(Round(Body(a, j), Block(a, j)), Block(a, j + 1))
  {
    hide Round, Word;
    assert Body(a, j + 1) == Round(Body(a, j), Block(a, j));
  }
}
