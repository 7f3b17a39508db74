/** Node tags in the top bits of an address, and the client's table of address records. */
module AddressMap {
  import opened Options
  import Murmur
  import MurmurVectors
  import Bits
  import opened Layout

  const NODE_NUM: nat := 3
  const TABLE_SIZE: nat := 50000
  const TWO_48: int := 0x1_0000_0000_0000
  const TWO_63: int := 0x8000_0000_0000_0000
  const TWO_64: int := 0x1_0000_0000_0000_0000

  /** A 64-bit signed integer. */
  predicate LongLong(x: int) { -TWO_63 <= x < TWO_63 }

  /** Reduction to 64 bits, two's complement. */
  function Wrap64(x: int): (r: int)
    ensures LongLong(r)
  {
    (x + TWO_63) % TWO_64 - TWO_63
  }

  /** `x >> 48`, arithmetic. */
  function NodeOf(x: int): (r: int) { x / TWO_48 }

  /** dhmp_transfer_normal_addr: shift the tag out, shift it back and subtract it. */
  function Untag(x: int): int { Wrap64(x - Wrap64(NodeOf(x) * TWO_48)) }

  function Tag(node: nat, normal: int): int
  {
    if node == 0 then normal else Wrap64(normal + node * TWO_48)
  }

  lemma UntagIsLow48(x: int)
    requires LongLong(x)
    ensures Untag(x) == x % TWO_48
  {
  }

  /** The search loop of dhmp_transfer_dhmp_addr, then the tag. */
  method TransferDhmpAddr(connect: seq<nat>, trans: nat, normal: int) returns (dhmp: int)
    requires |connect| == 3 && LongLong(normal)
    ensures exists i :: 0 <= i <= 3 && dhmp == Tag(i, normal)
                        && (i < 3 ==> connect[i] == trans) && trans !in connect[..i]
    ensures 0 <= normal < 0x1_0000_0000_0000 ==>
      && 0 <= NodeOf(dhmp) && dhmp == normal + NodeOf(dhmp) * 0x1_0000_0000_0000
      && Untag(dhmp) == normal && 0 <= NodeOf(dhmp) <= 3
      && (trans in connect <==> NodeOf(dhmp) < 3)
      && (trans in connect ==> connect[NodeOf(dhmp)] == trans)
  {
    var index := 0;
    while index < NODE_NUM && connect[index] != trans
      invariant index <= NODE_NUM && trans !in connect[..index]
    {
      index := index + 1;
    }
    dhmp := Tag(index, normal);
    if 0 <= normal < TWO_48 { TagBelow48(index, normal); }
    hide Tag, Untag, NodeOf;
    TagRoundTrip(index, normal);
  }

  /** Tagging is undone, and the node read back, exactly for normal addresses below 2^48. */
  lemma TagRoundTrip(node: nat, normal: int)
    requires node <= NODE_NUM && LongLong(normal)
    ensures Untag(Tag(node, normal)) == normal <==> 0 <= normal < TWO_48
    ensures NodeOf(Tag(node, normal)) == node <==> 0 <= normal < TWO_48
  {
    var x := Tag(node, normal);
    UntagIsLow48(x);
    hide Untag;
    if x == normal + node * TWO_48 {
      Shift48(normal, node, x);
    } else {
      Shift48(normal, node - 0x1_0000, x);
    }
  }

  lemma Shift48(normal: int, k: int, x: int)
    requires x == normal + k * TWO_48
    ensures x % TWO_48 == normal % TWO_48 && x / TWO_48 == normal / TWO_48 + k
  {
  }

  // ----- The bucket index -----

  /** The byte of `u` at the place worth `d`. */
  function Digit(u: nat, d: nat): (r: nat)
    requires d > 0
    ensures r < 256
  {
    u / d % 256
  }

  function Octet(x: nat): Murmur.octet
    requires x < 256
  {
    Murmur.OctetOf(x)
  }

  /** The eight bytes of a pointer, little endian. */
  function Octets(x: int): (r: seq<Murmur.octet>)
    ensures |r| == 8
  {
    var u: nat := x % TWO_64;
    [Octet(Digit(u, 0x1)), Octet(Digit(u, 0x100)), Octet(Digit(u, 0x1_0000)), Octet(Digit(u, 0x100_0000)),
     Octet(Digit(u, 0x1_0000_0000)), Octet(Digit(u, 0x100_0000_0000)), Octet(Digit(u, 0x1_0000_0000_0000)),
     Octet(Digit(u, 0x100_0000_0000_0000))]
  }

  function Index(x: int): (r: nat)
    ensures r < TABLE_SIZE
  {
    (Murmur.Hash(Octets(x)) as nat % TABLE_SIZE + TABLE_SIZE) % TABLE_SIZE
  }

  /** The bucket is the hash of the pointer's eight bytes, lowest first, modulo 50000. */
  lemma IndexIs(x: int)
    ensures forall k :: 0 <= k < 8 ==> Octets(x)[k] as nat == Digit(x % 0x1_0000_0000_0000_0000, Pow256(k))
    ensures Index(x) == Murmur.Hash(Octets(x)) as nat % 50000
  {
    hide Murmur.Hash, Digit, Octet;
    var u: nat := x % TWO_64;
    PowersAre();
    OctetIs(Digit(u, 0x1));
    OctetIs(Digit(u, 0x100));
    OctetIs(Digit(u, 0x1_0000));
    OctetIs(Digit(u, 0x100_0000));
    OctetIs(Digit(u, 0x1_0000_0000));
    OctetIs(Digit(u, 0x100_0000_0000));
    OctetIs(Digit(u, 0x1_0000_0000_0000));
    OctetIs(Digit(u, 0x100_0000_0000_0000));
  }

  lemma OctetIs(x: nat)
    requires x < 256
    ensures Octet(x) as nat == x
  {
    MurmurVectors.OctetIs(x);
  }

  lemma PowersAre()
    ensures Pow256(0) == 1 && Pow256(1) == 0x100 && Pow256(2) == 0x1_0000 && Pow256(3) == 0x100_0000
    ensures Pow256(4) == 0x1_0000_0000 && Pow256(5) == 0x100_0000_0000 && Pow256(6) == 0x1_0000_0000_0000
    ensures Pow256(7) == 0x100_0000_0000_0000
  {
    assert Pow256(3) == 0x100_0000 && Pow256(5) == 0x100_0000_0000;
  }

  /** Two nodes with one normal address, kept apart by the table. */
  lemma NodesKeptApart()
    ensures Index(0x7f00_0000_1000) == 12699 && Index(0x1_7f00_0000_1000) == 39268
    ensures Untag(0x7f00_0000_1000) == Untag(0x1_7f00_0000_1000) == 0x7f00_0000_1000
  {
    hide *;
    PointerOctets();
    TaggedOctets();
    MurmurVectors.HashOfPointer();
    MurmurVectors.HashOfTaggedPointer();
    IndexIs(0x7f00_0000_1000);
    IndexIs(0x1_7f00_0000_1000);
    assert (0x8f72c22b as Murmur.word) as nat % 50000 == 12699;
    assert (0x412bcbd4 as Murmur.word) as nat % 50000 == 39268;
    LowPointers();
  }

  lemma LowPointers()
    ensures Untag(0x7f00_0000_1000) == Untag(0x1_7f00_0000_1000) == 0x7f00_0000_1000
  {
  }

  lemma PointerOctets()
    ensures Octets(0x7f00_0000_1000) == [0, 16, 0, 0, 0, 127, 0, 0]
  {
    OctetValues();
    hide Octet;
  }

  lemma TaggedOctets()
    ensures Octets(0x1_7f00_0000_1000) == [0, 16, 0, 0, 0, 127, 1, 0]
  {
    OctetValues();
    hide Octet;
  }

  lemma OctetValues()
    ensures Octet(0) == 0 && Octet(1) == 1 && Octet(16) == 16 && Octet(127) == 127
  {
  }

  /** One normal address on two nodes gives two different hash values; only the reduction to the table size can merge
      them. */
  lemma NodesHashApart(i: nat, j: nat, normal: int)
    requires i < j <= NODE_NUM && 0 <= normal < TWO_48
    ensures Murmur.Hash(Octets(Tag(i, normal))) != Murmur.Hash(Octets(Tag(j, normal)))
  {
    hide Octets, Octet, Tag, Digit, Murmur.Hash, Murmur.DifferOnlyIn;
    TagBelow48(i, normal);
    TagBelow48(j, normal);
    OctetsAt(normal, i);
    OctetsAt(normal, j);
    OctetApart(i, j);
    var p := Octets(normal);
    UnitOne(p, Octet(i), Octet(j));
    Murmur.OneUnitNeverCollides(p[6 := Octet(i)], p[6 := Octet(j)], 1);
  }

  lemma TagBelow48(i: nat, normal: int)
    requires i <= NODE_NUM && 0 <= normal < TWO_48
    ensures Tag(i, normal) == normal + i * TWO_48
  {
  }

  lemma UnitOne(p: seq<Murmur.octet>, x: Murmur.octet, y: Murmur.octet)
    requires |p| == 8 && x != y
    ensures Murmur.DifferOnlyIn(p[6 := x], p[6 := y], 1) && p[6 := x] != p[6 := y]
  {
    assert p[6 := x][6] != p[6 := y][6];
  }

  lemma OctetApart(i: nat, j: nat)
    requires i < j <= NODE_NUM
    ensures Octet(i) != Octet(j)
  {
    assert Octet(0) == 0 && Octet(1) == 1 && Octet(2) == 2 && Octet(3) == 3;
  }

  /** A tag changes only the seventh byte. */
  lemma OctetsAt(normal: nat, i: nat)
    requires normal < TWO_48 && i <= NODE_NUM
    ensures Octets(normal + i * TWO_48) == Octets(normal)[6 := Octet(i)]
  {
    hide Octet;
    var u := normal + i * TWO_48;
    assert u % TWO_64 == u && normal % TWO_64 == normal;
    DigitsAt(normal, i);
    hide Digit;
  }

  lemma DigitsAt(normal: nat, i: nat)
    requires normal < TWO_48 && i <= NODE_NUM
    ensures var u := normal + i * TWO_48;
      && Digit(u, 0x1) == Digit(normal, 0x1) && Digit(u, 0x100) == Digit(normal, 0x100)
      && Digit(u, 0x1_0000) == Digit(normal, 0x1_0000) && Digit(u, 0x100_0000) == Digit(normal, 0x100_0000)
      && Digit(u, 0x1_0000_0000) == Digit(normal, 0x1_0000_0000)
      && Digit(u, 0x100_0000_0000) == Digit(normal, 0x100_0000_0000)
      && Digit(u, 0x1_0000_0000_0000) == i
      && Digit(u, 0x100_0000_0000_0000) == Digit(normal, 0x100_0000_0000_0000)
  {
    hide Digit;
    DigitSame(normal, i, 0x1, 0x100_0000_0000);
    DigitSame(normal, i, 0x100, 0x1_0000_0000);
    DigitSame(normal, i, 0x1_0000, 0x100_0000);
    DigitSame(normal, i, 0x100_0000, 0x1_0000);
    DigitSame(normal, i, 0x1_0000_0000, 0x100);
    DigitSame(normal, i, 0x100_0000_0000, 0x1);
    DigitsTop(normal, i);
  }

  lemma DigitsTop(normal: nat, i: nat)
    requires normal < TWO_48 && i <= NODE_NUM
    ensures var u := normal + i * TWO_48;
      Digit(u, 0x1_0000_0000_0000) == i && Digit(u, 0x100_0000_0000_0000) == Digit(normal, 0x100_0000_0000_0000)
  {
  }

  lemma DigitSame(normal: nat, i: nat, d: nat, f: nat)
    requires d > 0 && d * (256 * f) == TWO_48
    ensures Digit(normal + i * TWO_48, d) == Digit(normal, d)
  {
    var q, m := normal / d, i * f;
    LapsOf(i, d, f);
    DivideBoth(normal, d, 256 * m);
    Mod256(q, m);
  }

  lemma LapsOf(i: nat, d: nat, f: nat)
    ensures i * (d * (256 * f)) == d * (256 * (i * f))
  {
    assert i * (d * (256 * f)) == (i * d) * (256 * f) == d * (i * (256 * f));
    assert i * (256 * f) == 256 * (i * f);
  }

  lemma DivideBoth(x: nat, d: nat, m: nat)
    requires d > 0
    ensures (x + d * m) / d == x / d + m
  {
    assert d * (x / d + m) == d * (x / d) + d * m;
    Bits.DivModUnique(x + d * m, d, x / d + m, x % d);
  }

  lemma Mod256(q: nat, m: nat)
    ensures (q + 256 * m) % 256 == q % 256
  {
  }

  // ----- The table -----

  /** An address record: its identity and the normal address of its region. */
  datatype Info = Info(id: nat, nvm: int)

  /** A live record and the tagged address it was inserted under. */
  datatype Binding = Binding(dhmp: int, info: Info)

  /** Bucket `i`, newest first. */
  function Chain(live: seq<Binding>, i: nat): seq<Info>
  {
    if live == [] then []
    else (if Index(live[0].dhmp) == i then [live[0].info] else []) + Chain(live[1..], i)
  }

  /** Position of the first record of a bucket with the given normal address, or its length. */
  function Scan(chain: seq<Info>, normal: int): (r: nat)
    ensures r <= |chain|
    ensures r < |chain| ==> chain[r].nvm == normal
  {
    if chain == [] || chain[0].nvm == normal then 0 else 1 + Scan(chain[1..], normal)
  }

  /** The first match of a loop is what `Scan` finds. */
  lemma {:induction false} ScanIs(chain: seq<Info>, normal: int, k: nat)
    requires k <= |chain| && (forall l :: 0 <= l < k ==> chain[l].nvm != normal)
    requires k < |chain| ==> chain[k].nvm == normal
    ensures Scan(chain, normal) == k
    decreases k
  {
    if k > 0 {
      ScanIs(chain[1..], normal, k - 1);
    }
  }

  predicate Answers(b: Binding, d: int)
  {
    Index(b.dhmp) == Index(d) && b.info.nvm == Untag(d)
  }

  /** The newest live binding whose bucket and normal address fit `d`. */
  function Hit(live: seq<Binding>, d: int): (r: nat)
    ensures r <= |live|
  {
    if live == [] || Answers(live[0], d) then 0 else 1 + Hit(live[1..], d)
  }

  lemma {:induction false} HitIsNewest(live: seq<Binding>, d: int)
    ensures Hit(live, d) < |live| ==> Answers(live[Hit(live, d)], d)
    ensures forall k :: 0 <= k < Hit(live, d) ==> !Answers(live[k], d)
  {
    hide Answers;
    if live != [] && !Answers(live[0], d) {
      HitIsNewest(live[1..], d);
    }
  }

  function Without<T>(s: seq<T>, k: nat): seq<T>
  {
    if k < |s| then s[..k] + s[k + 1..] else s
  }

  lemma WithoutCons<T>(x: T, s: seq<T>, k: nat)
    ensures Without([x] + s, k + 1) == [x] + Without(s, k)
    ensures Without([x] + s, 0) == s
  {
    ConsSlices(x, s, k);
    if k < |s| {
      ConsAssoc(x, s[..k], s[k + 1..]);
    }
  }

  lemma ConsSlices<T>(x: T, s: seq<T>, k: nat)
    ensures ([x] + s)[..0] == [] && ([x] + s)[1..] == s
    ensures k < |s| ==> ([x] + s)[..k + 1] == [x] + s[..k] && ([x] + s)[k + 2..] == s[k + 1..]
  {
  }

  lemma ConsAssoc<T>(x: T, a: seq<T>, b: seq<T>)
    ensures [x] + a + b == [x] + (a + b)
  {
  }

  lemma ChainCons(b: Binding, live: seq<Binding>, i: nat)
    ensures Chain([b] + live, i) == (if Index(b.dhmp) == i then [b.info] else []) + Chain(live, i)
  {
    assert ([b] + live)[1..] == live;
  }

  lemma ScanCons(e: Info, c: seq<Info>, normal: int)
    ensures Scan([e] + c, normal) == if e.nvm == normal then 0 else 1 + Scan(c, normal)
  {
    assert ([e] + c)[1..] == c;
  }

  /** The bucket walk finds the newest fitting binding, and unlinking it there removes that binding from the table. */
  lemma {:induction false} ScanIsHit(live: seq<Binding>, d: int)
    ensures var c := Chain(live, Index(d)); var k := Scan(c, Untag(d)); var h := Hit(live, d);
      && (k < |c| <==> h < |live|)
      && (k < |c| ==> c[k] == live[h].info)
      && Chain(Without(live, h), Index(d)) == Without(c, k)
  {
    hide Index, Untag, Without;
    if live == [] {
      WithoutNone(live, 0);
      WithoutNone(Chain(live, Index(d)), 0);
    } else {
      var b, rest := live[0], live[1..];
      var i, normal := Index(d), Untag(d);
      var c, h := Chain(rest, i), Hit(rest, d);
      ScanIsHit(rest, d);
      WithoutCons(b, rest, h);
      assert live == [b] + rest;
      ChainCons(b, rest, i);
      ChainCons(b, Without(rest, h), i);
      if Index(b.dhmp) == i {
        ScanCons(b.info, c, normal);
        WithoutCons(b.info, c, Scan(c, normal));
      } else {
        assert Chain(live, i) == c;
      }
    }
  }

  lemma WithoutNone<T>(s: seq<T>, k: nat)
    requires |s| <= k
    ensures Without(s, k) == s
  {
  }

  /** The other buckets keep their chains. */
  lemma {:induction false} OtherChains(live: seq<Binding>, d: int, j: nat)
    requires j != Index(d)
    ensures Chain(Without(live, Hit(live, d)), j) == Chain(live, j)
  {
    hide Index, Untag, Without;
    if live == [] {
      WithoutNone(live, 0);
    } else {
      var b, rest := live[0], live[1..];
      OtherChains(rest, d, j);
      WithoutCons(b, rest, Hit(rest, d));
      assert live == [b] + rest;
      ChainCons(b, Without(rest, Hit(rest, d)), j);
    }
  }

  /** A record just inserted is the one found and the one removed, whatever else is live. */
  lemma NewestWins(live: seq<Binding>, d: int, info: Info)
    requires info.nvm == Untag(d)
    ensures Hit(After(live, Add(d, info)), d) == 0 && After(live, Add(d, info))[0] == Binding(d, info)
    ensures After(After(live, Add(d, info)), Del(d)) == live
  {
    hide Index, Untag;
    WithoutCons(Binding(d, info), live, 0);
  }

  datatype Op = Add(d: int, info: Info) | Del(d: int)

  /** What one operation does to the live bindings. */
  function After(live: seq<Binding>, op: Op): seq<Binding>
  {
    match op
    case Add(d, info) => [Binding(d, info)] + live
    case Del(d) => Without(live, Hit(live, d))
  }

  class AddressTable {
    const ht: array<seq<Info>>
    ghost var live: seq<Binding>

    ghost predicate Valid()
      reads this, ht
    {
      ht.Length == TABLE_SIZE && forall i :: 0 <= i < ht.Length ==> ht[i] == Chain(live, i)
    }

    constructor ()
      ensures Valid() && live == [] && fresh(ht)
    {
      ht := new seq<Info>[TABLE_SIZE](_ => []);
      live := [];
    }

    /** dhmp_addr_info_insert_ht. */
    method Insert(d: int, info: Info)
      requires Valid()
      modifies this, ht
      ensures Valid() && live == After(old(live), Add(d, info))
    {
      hide Index;
      var i := Index(d);
      ht[i] := [info] + ht[i];
      live := [Binding(d, info)] + live;
      assert live[1..] == old(live);
    }

    /** dhmp_get_addr_info_from_ht: the position in bucket `i` too, for unlinking. */
    method Find(i: nat, d: int) returns (info: Option<Info>, k: nat)
      requires Valid() && i == Index(d)
      ensures k == Scan(ht[i], Untag(d))
      ensures info == if Hit(live, d) < |live| then Some(live[Hit(live, d)].info) else None
      ensures info.Some? <==> k < |ht[i]|
    {
      hide Index, Untag, Answers, Scan, Chain, Hit;
      ScanIsHit(live, d);
      var normal := Untag(d);
      var chain := ht[i];
      k := 0;
      while k < |chain| && chain[k].nvm != normal
        invariant k <= |chain|
        invariant forall l :: 0 <= l < k ==> chain[l].nvm != normal
      {
        k := k + 1;
      }
      ScanIs(chain, normal, k);
      info := if k < |chain| then Some(chain[k]) else None;
    }

    /** The table part of dhmp_free_work_handler: look the record up and unlink it. */
    method Remove(d: int) returns (info: Option<Info>)
      requires Valid()
      modifies this, ht
      ensures Valid() && live == After(old(live), Del(d))
      ensures info == if Hit(old(live), d) < |old(live)| then Some(old(live)[Hit(old(live), d)].info) else None
    {
      hide Index, Untag, Answers, Chain, Hit;
      var i := Index(d);
      var k;
      info, k := Find(i, d);
      ScanIsHit(live, d);
      forall j: nat | j < TABLE_SIZE && j != i ensures Chain(Without(live, Hit(live, d)), j) == Chain(live, j) {
        OtherChains(live, d, j);
      }
      if info.Some? {
        ht[i] := Without(ht[i], k);
      }
      live := Without(live, Hit(live, d));
    }
  }

  // ----- Any sequence of insertions and removals, against a map -----

  function LiveAfter(live: seq<Binding>, ops: seq<Op>): seq<Binding>
  {
    if ops == [] then live else After(LiveAfter(live, ops[..|ops| - 1]), ops[|ops| - 1])
  }

  /** The intended table, keyed by the tagged address. */
  function MapAfter(ops: seq<Op>): map<int, Info>
  {
    if ops == [] then map[]
    else
      var before := MapAfter(ops[..|ops| - 1]);
      match ops[|ops| - 1]
      case Add(d, info) => before[d := info]
      case Del(d) => before - {d}
  }

  predicate Shares(d: int, e: int)
  {
    Index(d) == Index(e) && Untag(d) == Untag(e)
  }

  /** Sharing, without the table's functions: equal hashes modulo 50000 and equal low 48 bits. */
  lemma SharesIff(d: int, e: int)
    requires LongLong(d) && LongLong(e)
    ensures Shares(d, e) <==>
      && Murmur.Hash(Octets(d)) as nat % 50000 == Murmur.Hash(Octets(e)) as nat % 50000
      && d % 0x1_0000_0000_0000 == e % 0x1_0000_0000_0000
  {
    hide Murmur.Hash, Octets, Index, Untag;
    IndexIs(d);
    IndexIs(e);
    UntagIsLow48(d);
    UntagIsLow48(e);
  }

  /** No other live address is in the same bucket with the same normal address. */
  ghost predicate Alone(m: map<int, Info>, d: int)
  {
    forall e :: e in m && Shares(e, d) ==> e == d
  }

  /** Each address is alone when it is inserted or removed, a live address is not inserted again, and an inserted
      record carries the normal form of its tagged address. */
  ghost predicate Disciplined(ops: seq<Op>)
  {
    ops == [] ||
    (var m := MapAfter(ops[..|ops| - 1]);
     && Disciplined(ops[..|ops| - 1])
     && match ops[|ops| - 1]
        case Add(d, info) => d !in m && Alone(m, d) && info.nvm == Untag(d)
        case Del(d) => Alone(m, d))
  }

  /** The live bindings are the map, each key once, no two of them sharing bucket and normal address. */
  ghost predicate Agrees(live: seq<Binding>, m: map<int, Info>)
  {
    && (forall k :: 0 <= k < |live| ==> live[k].dhmp in m && m[live[k].dhmp] == live[k].info)
    && (forall k :: 0 <= k < |live| ==> live[k].info.nvm == Untag(live[k].dhmp))
    && (forall d :: d in m ==> exists k :: 0 <= k < |live| && live[k].dhmp == d)
    && (forall j, k :: 0 <= j < k < |live| ==> !Shares(live[j].dhmp, live[k].dhmp))
  }

  lemma AgreesAdd(live: seq<Binding>, m: map<int, Info>, d: int, info: Info)
    requires Agrees(live, m) && d !in m && Alone(m, d) && info.nvm == Untag(d)
    ensures Agrees([Binding(d, info)] + live, m[d := info])
  {
    hide Index, Untag;
    var l, n := [Binding(d, info)] + live, m[d := info];
    forall e | e in n ensures exists k :: 0 <= k < |l| && l[k].dhmp == e {
      if e == d { assert l[0].dhmp == e; }
      else {
        var k :| 0 <= k < |live| && live[k].dhmp == e;
        assert l[k + 1].dhmp == e;
      }
    }
    forall j, k | 0 <= j < k < |l| ensures !Shares(l[j].dhmp, l[k].dhmp) {
      assert l[k] == live[k - 1];
      if j > 0 { assert l[j] == live[j - 1]; }
    }
  }

  /** A live address that shares with `d` makes the lookup of `d` succeed. */
  lemma Present(live: seq<Binding>, m: map<int, Info>, d: int, e: int)
    requires Agrees(live, m) && e in m && Shares(e, d)
    ensures Hit(live, d) < |live|
  {
    hide Index, Untag;
    HitIsNewest(live, d);
    var k :| 0 <= k < |live| && live[k].dhmp == e;
    assert Answers(live[k], d);
  }

  lemma AgreesDel(live: seq<Binding>, m: map<int, Info>, d: int)
    requires Agrees(live, m) && Alone(m, d)
    ensures Agrees(Without(live, Hit(live, d)), m - {d})
  {
    hide Index, Untag, Agrees;
    var h := Hit(live, d);
    if d in m { Present(live, m, d, d); }
    if h == |live| {
      assert m - {d} == m;
    } else {
      HitOwn(live, m, d);
      AgreesUnlink(live, m, h);
    }
  }

  lemma HitOwn(live: seq<Binding>, m: map<int, Info>, d: int)
    requires Agrees(live, m) && Alone(m, d) && Hit(live, d) < |live|
    ensures live[Hit(live, d)].dhmp == d
  {
    hide Index, Untag;
    HitIsNewest(live, d);
    assert Shares(live[Hit(live, d)].dhmp, d);
  }

  lemma AgreesUnlink(live: seq<Binding>, m: map<int, Info>, h: nat)
    requires Agrees(live, m) && h < |live|
    ensures Agrees(Without(live, h), m - {live[h].dhmp})
  {
    hide Index, Untag, Without;
    var l, n := Without(live, h), m - {live[h].dhmp};
    WithoutAt(live, h);
    forall k | 0 <= k < |l| ensures l[k].dhmp in n {
      if k < h { assert !Shares(live[k].dhmp, live[h].dhmp); } else { assert !Shares(live[h].dhmp, live[k + 1].dhmp); }
    }
    forall e | e in n ensures exists k :: 0 <= k < |l| && l[k].dhmp == e {
      var k :| 0 <= k < |live| && live[k].dhmp == e;
      assert l[if k < h then k else k - 1].dhmp == e;
    }
  }

  lemma WithoutAt<T>(s: seq<T>, h: nat)
    requires h < |s|
    ensures |Without(s, h)| == |s| - 1
    ensures forall k :: 0 <= k < |s| - 1 ==> Without(s, h)[k] == s[if k < h then k else k + 1]
  {
  }

  lemma {:induction false} RunAgrees(ops: seq<Op>)
    requires Disciplined(ops)
    ensures Agrees(LiveAfter([], ops), MapAfter(ops))
  {
    hide Agrees, Alone, Index, Untag;
    if ops == [] {
      AgreesEmpty();
    } else {
      var before := ops[..|ops| - 1];
      RunAgrees(before);
      match ops[|ops| - 1]
      case Add(d, info) => AgreesAdd(LiveAfter([], before), MapAfter(before), d, info);
      case Del(d) => AgreesDel(LiveAfter([], before), MapAfter(before), d);
    }
  }

  lemma AgreesEmpty()
    ensures Agrees([], map[])
  {
  }

  /** After any disciplined sequence a live address is answered with its own record, and any other address is
      refused exactly when no live one shares its bucket and normal address. */
  lemma LookupIsMap(ops: seq<Op>, d: int)
    requires Disciplined(ops)
    ensures var live, m := LiveAfter([], ops), MapAfter(ops);
      && (d in m ==> Hit(live, d) < |live| && live[Hit(live, d)] == Binding(d, m[d]))
      && (d !in m ==> (Hit(live, d) == |live| <==> Alone(m, d)))
  {
    hide Index, Untag, Disciplined, LiveAfter, MapAfter;
    RunAgrees(ops);
    var live, m := LiveAfter([], ops), MapAfter(ops);
    var h := Hit(live, d);
    HitIsNewest(live, d);
    forall e | e in m && Shares(e, d) ensures h < |live| {
      Present(live, m, d, e);
    }
    if h < |live| {
      assert Shares(live[h].dhmp, d);
      if d in m {
        var k :| 0 <= k < |live| && live[k].dhmp == d;
        assert Shares(live[k].dhmp, live[h].dhmp);
      }
    }
  }
}
