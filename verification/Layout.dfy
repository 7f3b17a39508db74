/** The byte layout of one log record and of the stream of all records. */
module Layout {
  import opened Bits
  import opened Ring

  const TAG: byte := 1
  /** sizeof(logMateData): two C ints. */
  const META := 8

  // ---- little-endian integers ----

  function Pow256(k: nat): (r: nat)
    ensures r > 0
  {
    if k == 0 then 1 else 256 * Pow256(k - 1)
  }

  function ToLE(n: nat, k: nat): (r: seq<byte>)
    ensures |r| == k
    decreases k
  {
    if k == 0 then [] else [n % 256] + ToLE(n / 256, k - 1)
  }

  function FromLE(s: seq<byte>): nat {
    if s == [] then 0 else s[0] + 256 * FromLE(s[1..])
  }

  lemma {:induction false} LERoundTrip(n: nat, k: nat)
    requires n < Pow256(k)
    ensures FromLE(ToLE(n, k)) == n
    decreases k
  {
    if k == 0 {
    } else {
      LERoundTrip(n / 256, k - 1);
      assert ToLE(n, k)[1..] == ToLE(n / 256, k - 1);
    }
  }

  /** Byte `i` of a stored integer. */
  lemma {:induction false} ToLEAt(n: nat, k: nat, i: nat)
    requires i < k
    ensures ToLE(n, k)[i] == n / Pow256(i) % 256
    decreases i
  {
    if i > 0 {
      ToLEAt(n / 256, k - 1, i - 1);
      DivideTwice(n, Pow256(i - 1));
    }
  }

  lemma DivideTwice(n: nat, p: nat)
    requires p > 0
    ensures n / 256 / p == n / (256 * p)
  {
    var q, r := n / 256, n % 256;
    var a, b := q / p, q % p;
    assert q == p * a + b;
    assert n == (256 * p) * a + (256 * b + r);
    DivModUnique(n, 256 * p, a, 256 * b + r);
  }

  // ---- C strings ----

  type Str = seq<byte>

  predicate NulFree(s: Str) {
    forall i :: 0 <= i < |s| ==> s[i] != 0
  }

  /** The C string stored at the start of a byte region: everything before the first NUL. */
  function CStr(s: seq<byte>): Str {
    if s == [] || s[0] == 0 then [] else [s[0]] + CStr(s[1..])
  }

  lemma {:induction false} CStrOf(s: Str, tail: seq<byte>)
    requires NulFree(s)
    ensures CStr(s + [0] + tail) == s
    decreases |s|
  {
    if s == [] {
    } else {
      CStrOf(s[1..], tail);
      assert (s + [0] + tail)[1..] == s[1..] + [0] + tail;
    }
  }

  // ---- one record ----

  /** One record. `data` is what the value field holds in front of the tag. `rest` is what the header holds beyond the
      two lengths: position, flags and pointers, whose values the reader never looks at. */
  datatype Rec = Rec(key: Str, data: seq<byte>, rest: seq<byte>)

  /** The record built by `head_node_write_log(key, value)`: the value is stored with its terminator. */
  function Entry(key: Str, value: Str, rest: seq<byte>): Rec {
    Rec(key, value + [0], rest)
  }

  /** A record that some call can have built. */
  predicate FromCall(r: Rec) {
    r.data != [] && r.data[|r.data| - 1] == 0 && NulFree(r.data[..|r.data| - 1])
  }

  /** The string the application reads from the value field. */
  function Value(r: Rec): Str {
    CStr(ValueBytes(r))
  }

  /** It is the argument of the call. */
  lemma ValueOfCall(r: Rec)
    requires FromCall(r)
    ensures Value(r) == r.data[..|r.data| - 1]
  {
    CStrOf(r.data[..|r.data| - 1], [TAG]);
    assert ValueBytes(r) == r.data[..|r.data| - 1] + [0] + [TAG];
  }

  function KeyLen(r: Rec): nat { |r.key| + 1 }
  function ValueLen(r: Rec): nat { |r.data| + 1 }
  function MateLen(r: Rec): nat { META + |r.rest| + KeyLen(r) }
  function Len(r: Rec): nat { MateLen(r) + ValueLen(r) }

  function KeyBytes(r: Rec): (s: seq<byte>)
    ensures |s| == KeyLen(r)
  {
    r.key + [0]
  }

  function ValueBytes(r: Rec): (s: seq<byte>)
    ensures |s| == ValueLen(r)
  {
    r.data + [TAG]
  }

  /** Header followed by the key: the part written before the write pointer is published. */
  function Mate(r: Rec): (s: seq<byte>)
    ensures |s| == MateLen(r)
  {
    ToLE(KeyLen(r), 4) + ToLE(ValueLen(r), 4) + r.rest + KeyBytes(r)
  }

  function Encode(r: Rec): (s: seq<byte>)
    ensures |s| == Len(r)
  {
    Mate(r) + ValueBytes(r)
  }

  /** The bytes of the record of one call, by position: key length and value length as 4-byte integers, the rest of the
      header, the key with its NUL, the value with its NUL, and the tag 1. */
  lemma RecordBytes(key: Str, value: Str, rest: seq<byte>)
    ensures
      var e, h := Encode(Entry(key, value, rest)), 8 + |rest|;
      && |e| == h + |key| + |value| + 3
      && (forall i :: 0 <= i < 4 ==> e[i] == (|key| + 1) / Pow256(i) % 256)
      && (forall i :: 0 <= i < 4 ==> e[4 + i] == (|value| + 2) / Pow256(i) % 256)
      && e[8..h] == rest
      && e[h..h + |key|] == key && e[h + |key|] == 0
      && e[h + |key| + 1..h + |key| + 1 + |value|] == value
      && e[h + |key| + |value| + 1] == 0 && e[h + |key| + |value| + 2] == 1
  {
    hide ToLE, Pow256;
    var r := Entry(key, value, rest);
    forall i | 0 <= i < 4
      ensures ToLE(|key| + 1, 4)[i] == (|key| + 1) / Pow256(i) % 256
      ensures ToLE(|value| + 2, 4)[i] == (|value| + 2) / Pow256(i) % 256
    {
      ToLEAt(|key| + 1, 4, i);
      ToLEAt(|value| + 2, 4, i);
    }
    var e := Encode(r);
    assert e == ToLE(|key| + 1, 4) + ToLE(|value| + 2, 4) + rest + (key + [0]) + (value + [0] + [1]);
  }

  /** Ring size, sizeof(logEntry), queue length and the two limits the reader passes. */
  datatype Config = Config(size: nat, header: nat, queueLen: nat, keyLimit: nat, valueLimit: nat)

  ghost predicate ValidConfig(c: Config) {
    IsPow2(c.size) && c.size < Pow256(4) && c.header >= META && c.queueLen > 0
  }

  predicate ValidRec(c: Config, r: Rec) {
    NulFree(r.key) && r.data != [] && META + |r.rest| == c.header
  }

  // ---- the stream of records ----

  /** Unwrapped address of record `i`. */
  function Start(recs: seq<Rec>, i: nat): nat
    requires i <= |recs|
  {
    if i == 0 then 0 else Start(recs, i - 1) + Len(recs[i - 1])
  }

  lemma {:induction false} StartMono(recs: seq<Rec>, i: nat, j: nat)
    requires i <= j <= |recs|
    ensures Start(recs, i) <= Start(recs, j)
    decreases j
  {
    if i < j {
      StartMono(recs, i, j - 1);
    }
  }

  lemma {:induction false} StartPrefix(recs: seq<Rec>, r: Rec, i: nat)
    requires i <= |recs|
    ensures Start(recs + [r], i) == Start(recs, i)
    decreases i
  {
    if i > 0 {
      StartPrefix(recs, r, i - 1);
    }
  }

  /** Every record owns at least header + 3 bytes of the stream. */
  lemma {:induction false} StartGap(c: Config, recs: seq<Rec>, i: nat, j: nat)
    requires i <= j <= |recs| && c.header >= META
    requires forall k :: 0 <= k < |recs| ==> ValidRec(c, recs[k])
    ensures (j - i) * (c.header + 3) <= Start(recs, j) - Start(recs, i)
    decreases j
  {
    if i < j {
      StartGap(c, recs, i, j - 1);
      assert ValidRec(c, recs[j - 1]);
      assert (j - i) * (c.header + 3) == (j - 1 - i) * (c.header + 3) + c.header + 3;
    }
  }

  /** Bytes of records less than one lap apart never share a slot. */
  lemma SlotsApart(size: nat, recs: seq<Rec>, f: nat, i: nat, j: nat, i': nat, j': nat)
    requires size > 0 && f <= i < |recs| && f <= i' < |recs|
    requires j < Len(recs[i]) && j' < Len(recs[i']) && (i, j) != (i', j')
    requires Start(recs, |recs|) - Start(recs, f) < size
    ensures Slot(size, Start(recs, i) + j) != Slot(size, Start(recs, i') + j')
  {
    hide Slot;
    if i > i' || (i == i' && j > j') {
      SlotsApart(size, recs, f, i', j', i, j);
    } else {
      StartMono(recs, f, i);
      StartMono(recs, i + 1, |recs|);
      StartMono(recs, i' + 1, |recs|);
      if i < i' {
        StartMono(recs, i + 1, i');
      }
      SlotsDiffer(size, Start(recs, i) + j, Start(recs, i') + j');
    }
  }
}
