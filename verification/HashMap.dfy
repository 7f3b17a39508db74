/** The chained hash map with automatic growing and shrinking, refining a mathematical map. */
module HashMap {
  import opened Options

  datatype Entry<K, V> = Entry(key: K, value: V)

  /** A slot of the bucket array: the entry stored in place, empty when its key is NULL, and the linked chain. */
  datatype Bucket<K, V> = Bucket(head: Option<Entry<K, V>>, chain: seq<Entry<K, V>>)

  const DEFAULT_MAP_SIZE: nat := 50

  /** What a walk from the head slot along the links visits. */
  function Walk<K, V>(b: Bucket<K, V>): (r: seq<Entry<K, V>>)
  {
    match b.head
    case None => []
    case Some(e) => [e] + b.chain
  }

  ghost function Keys<K, V>(s: seq<Entry<K, V>>): set<K>
  {
    set e | e in s :: e.key
  }

  predicate Distinct<K(==), V>(s: seq<Entry<K, V>>)
  {
    forall j, l :: 0 <= j < l < |s| ==> s[j].key != s[l].key
  }

  /** Every entry is a binding of `m`. */
  ghost predicate Bound<K, V>(s: seq<Entry<K, V>>, m: map<K, V>)
  {
    forall e :: e in s ==> e.key in m && m[e.key] == e.value
  }

  /** A bucket list: bindings of `m`, all hashing to bucket `i` of `n`, none twice, and no such binding missing. */
  ghost predicate ListOk<K(!new), V>(hash: (nat, K) -> nat, n: nat, i: nat, s: seq<Entry<K, V>>, m: map<K, V>)
  {
    && Bound(s, m) && Distinct(s)
    && (forall e :: e in s ==> hash(n, e.key) == i)
    && (forall k :: k in m && hash(n, k) == i ==> k in Keys(s))
  }

  ghost predicate BucketOk<K(!new), V>(hash: (nat, K) -> nat, n: nat, i: nat, b: Bucket<K, V>, m: map<K, V>)
  {
    && (b.head.None? ==> b.chain == [])
    && ListOk(hash, n, i, Walk(b), m)
  }

  /** The hash code is supplied by the caller: any function into the bucket array. */
  ghost predicate InRange<K(!new)>(hash: (nat, K) -> nat)
  {
    forall n, k :: 0 < n ==> hash(n, k) < n
  }

  ghost predicate TableOk<K(!new), V>(hash: (nat, K) -> nat, t: seq<Bucket<K, V>>, m: map<K, V>)
  {
    && 0 < |t| && InRange(hash)
    && (forall i :: 0 <= i < |t| ==> BucketOk(hash, |t|, i, t[i], m))
  }

  /** Writing bucket `i` for the map `after` keeps the table, when only keys of that bucket differ. */
  lemma TableUpdate<K(!new), V>(hash: (nat, K) -> nat, t: seq<Bucket<K, V>>, m: map<K, V>, i: nat, b: Bucket<K, V>,
                      after: map<K, V>)
    requires TableOk(hash, t, m) && i < |t|
    requires BucketOk(hash, |t|, i, b, after)
    requires forall k :: hash(|t|, k) != i ==> (k in m <==> k in after) && (k in m ==> m[k] == after[k])
    ensures TableOk(hash, t[i := b], after)
  {
    var u := t[i := b];
    forall j | 0 <= j < |u| ensures BucketOk(hash, |u|, j, u[j], after) {
      if j != i {
        assert BucketOk(hash, |t|, j, t[j], m);
        var s := Walk(t[j]);
        forall e | e in s ensures e.key in after && after[e.key] == e.value {
          assert hash(|t|, e.key) == j;
        }
      }
    }
  }

  lemma EmptyTable<K(!new), V>(hash: (nat, K) -> nat, t: seq<Bucket<K, V>>, m: map<K, V>)
    requires 0 < |t| && InRange(hash) && m == map[]
    requires forall i :: 0 <= i < |t| ==> t[i] == Bucket(None, [])
    ensures TableOk(hash, t, m)
  {
  }

  /** A valid table's hash code is in range. */
  lemma HashInRange<K(!new), V>(hash: (nat, K) -> nat, t: seq<Bucket<K, V>>, m: map<K, V>)
    requires TableOk(hash, t, m)
    ensures InRange(hash) && |t| > 0
  {
  }

  function Overwrite<K, V>(b: Bucket<K, V>, j: nat, v: V): (r: Bucket<K, V>)
    requires j < |Walk(b)|
    ensures r.head.Some?
    ensures Walk(r) == Walk(b)[j := Entry(Walk(b)[j].key, v)]
  {
    if j == 0 then b.(head := Some(Entry(b.head.value.key, v)))
    else b.(chain := b.chain[j - 1 := Entry(b.chain[j - 1].key, v)])
  }

  /** A new entry goes into an empty head, or right behind an occupied one. */
  function Insert<K, V>(b: Bucket<K, V>, e: Entry<K, V>): (r: Bucket<K, V>)
    requires b.head.None? ==> b.chain == []
    ensures r.head.Some?
    ensures exists p :: 0 <= p <= |Walk(b)| && Walk(r) == Walk(b)[..p] + [e] + Walk(b)[p..]
  {
    if b.head.None? then
      var r := b.(head := Some(e));
      assert Walk(r) == Walk(b)[..0] + [e] + Walk(b)[0..];
      r
    else
      var r := b.(chain := [e] + b.chain);
      assert Walk(r) == Walk(b)[..1] + [e] + Walk(b)[1..];
      r
  }

  /** Removing the head copies the first chained entry over it. */
  function Unlink<K, V>(b: Bucket<K, V>, j: nat): (r: Bucket<K, V>)
    requires j < |Walk(b)|
  {
    if j > 0 then b.(chain := b.chain[..j - 1] + b.chain[j..])
    else if b.chain == [] then b.(head := None)
    else Bucket(Some(b.chain[0]), b.chain[1..])
  }

  lemma UnlinkWalk<K, V>(b: Bucket<K, V>, j: nat)
    requires j < |Walk(b)|
    ensures Walk(Unlink(b, j)) == Walk(b)[..j] + Walk(b)[j + 1..]
    ensures Unlink(b, j).head.None? ==> Unlink(b, j).chain == []
  {
    var e, c := b.head.value, b.chain;
    if j > 0 {
      assert Walk(b)[..j] == [e] + c[..j - 1];
      assert Walk(b)[j + 1..] == c[j..];
    } else {
      assert Walk(b)[1..] == c;
      if c != [] {
        assert c == [c[0]] + c[1..];
      }
    }
  }

  lemma OverwriteOk<K(!new), V>(hash: (nat, K) -> nat, n: nat, i: nat, s: seq<Entry<K, V>>, m: map<K, V>, j: nat, v: V)
    requires ListOk(hash, n, i, s, m) && j < |s|
    ensures ListOk(hash, n, i, s[j := Entry(s[j].key, v)], m[s[j].key := v])
    ensures m[s[j].key := v].Keys == m.Keys
  {
    var k := s[j].key;
    var t, after := s[j := Entry(k, v)], m[k := v];
    assert s[j] in s && k in m;
    forall l | 0 <= l < |t| ensures t[l].key in after && after[t[l].key] == t[l].value && hash(n, t[l].key) == i {
      assert s[l] in s;
    }
    forall x | x in after && hash(n, x) == i ensures x in Keys(t) {
      assert x in Keys(s);
      var l :| 0 <= l < |s| && s[l].key == x;
      assert t[l] in t && t[l].key == x;
    }
  }

  lemma InsertDistinct<K, V>(s: seq<Entry<K, V>>, e: Entry<K, V>, p: nat, t: seq<Entry<K, V>>)
    requires Distinct(s) && p <= |s| && t == s[..p] + [e] + s[p..]
    requires forall l :: 0 <= l < |s| ==> s[l].key != e.key
    ensures Distinct(t)
  {
    forall a, b | 0 <= a < b < |t| ensures t[a].key != t[b].key {
      var x, y := if a < p then a else a - 1, if b < p then b else b - 1;
      if a == p { assert t[b] == s[y]; } else if b == p { assert t[a] == s[x]; }
      else { assert t[a] == s[x] && t[b] == s[y]; }
    }
  }

  lemma InsertOk<K(!new), V>(hash: (nat, K) -> nat, n: nat, i: nat, s: seq<Entry<K, V>>, m: map<K, V>, k: K, v: V,
                   p: nat, t: seq<Entry<K, V>>)
    requires ListOk(hash, n, i, s, m) && k !in m && hash(n, k) == i && p <= |s|
    requires t == s[..p] + [Entry(k, v)] + s[p..]
    ensures ListOk(hash, n, i, t, m[k := v])
  {
    hide Distinct;
    forall l | 0 <= l < |s| ensures s[l].key != k { assert s[l] in s; }
    forall e | e in s ensures e in t {
      var l :| 0 <= l < |s| && s[l] == e;
      assert t[if l < p then l else l + 1] == e;
    }
    assert t[p] in t;
    assert forall e :: e in t ==> e == Entry(k, v) || e in s;
    forall x | x in m[k := v] && hash(n, x) == i ensures x in Keys(t) {
      if x != k { assert x in Keys(s); }
    }
    InsertDistinct(s, Entry(k, v), p, t);
  }

  lemma UnlinkOk<K(!new), V>(hash: (nat, K) -> nat, n: nat, i: nat, s: seq<Entry<K, V>>, m: map<K, V>, j: nat)
    requires ListOk(hash, n, i, s, m) && j < |s|
    ensures ListOk(hash, n, i, s[..j] + s[j + 1..], m - {s[j].key})
  {
    var k := s[j].key;
    var t, after := s[..j] + s[j + 1..], m - {k};
    forall l | 0 <= l < |t| ensures t[l] in s && t[l].key != k {
      assert t[l] == s[if l < j then l else l + 1];
    }
    forall x | x in after && hash(n, x) == i ensures x in Keys(t) {
      assert x in Keys(s);
      var l :| 0 <= l < |s| && s[l].key == x;
      assert t[if l < j then l else l - 1] == s[l];
    }
  }

  lemma {:induction false} DistinctCount<K, V>(s: seq<Entry<K, V>>)
    requires Distinct(s)
    ensures |Keys(s)| == |s|
  {
    if s != [] {
      var n := |s| - 1;
      var t := s[..n];
      assert forall j :: 0 <= j < n ==> t[j] == s[j];
      DistinctCount(t);
      assert s == t + [s[n]];
      assert Keys(s) == Keys(t) + {s[n].key};
      assert s[n].key !in Keys(t);
    }
  }

  lemma SubsetSize<K>(a: set<K>, b: set<K>)
    requires a <= b
    ensures |a| <= |b|
  {
    assert b == a + (b - a);
  }

  /** A list of distinct bindings is never longer than the map. */
  lemma FitsMap<K, V>(s: seq<Entry<K, V>>, m: map<K, V>)
    requires Distinct(s) && Bound(s, m)
    ensures |s| <= |m|
  {
    DistinctCount(s);
    SubsetSize(Keys(s), m.Keys);
    assert |m.Keys| == |m|;
  }

  /** Walking buckets in index order, the next entry is one not collected yet. */
  lemma NextIsNew<K(!new), V>(hash: (nat, K) -> nat, n: nat, i: nat, s: seq<Entry<K, V>>, j: nat, es: seq<Entry<K,
                    V>>, m: map<K, V>)
    requires ListOk(hash, n, i, s, m) && j < |s|
    requires Distinct(es) && Bound(es, m)
    requires forall e :: e in es ==> hash(n, e.key) < i || e in s[..j]
    ensures Distinct(es + [s[j]]) && Bound(es + [s[j]], m)
    ensures |es| < |m|
  {
    var e := s[j];
    assert e in s;
    forall l | 0 <= l < |es| ensures es[l].key != e.key {
      assert es[l] in es;
      if es[l] in s[..j] { var p :| 0 <= p < j && s[p] == es[l]; }
    }
    FitsMap(es + [e], m);
  }

  lemma MapCount<K, V>(m: map<K, V>, k: K, v: V)
    ensures |m[k := v]| == if k in m then |m| else |m| + 1
    ensures k in m ==> |m - {k}| == |m| - 1
  {
    var after := m[k := v];
    assert after.Keys == m.Keys + {k};
    assert |after| == |after.Keys| && |m| == |m.Keys|;
    var less := m - {k};
    assert less.Keys == m.Keys - {k};
    assert |less| == |less.Keys|;
  }

  class Map<K(==, !new), V> {
    var table: array<Bucket<K, V>>
    var size: nat
    var listSize: nat
    const hashCode: (nat, K) -> nat
    ghost var m: map<K, V>

    ghost predicate Sound()
      reads this, table
    {
      && listSize == table.Length
      && size == |m|
      && TableOk(hashCode, table[..], m)
    }

    /** Between calls the table is too small to be doubled to the minimum, or has more buckets than keys. */
    ghost predicate Valid()
      reads this, table
    {
      Sound() && (2 * listSize < DEFAULT_MAP_SIZE || size < listSize)
    }

    /** createHashMap; -1 asks for the default. */
    constructor (hash: (nat, K) -> nat, requested: int)
      requires InRange(hash)
      requires requested > 0 || requested == -1
      ensures Valid() && m == map[] && hashCode == hash && fresh(table)
      ensures listSize == if requested == -1 then 50 else requested
    {
      var n: nat := if requested == -1 then DEFAULT_MAP_SIZE else requested;
      hashCode := hash;
      size, listSize := 0, n;
      table := new Bucket<K, V>[n](_ => Bucket(None, []));
      m := map[];
    }

    /** The key's bucket, with what the invariant says of it. */
    method BucketOf(k: K) returns (i: nat, b: Bucket<K, V>)
      requires Sound()
      ensures i == hashCode(listSize, k) < table.Length && b == table[i]
      ensures BucketOk(hashCode, listSize, i, b, m)
      ensures k in m <==> k in Keys(Walk(b))
    {
      i := hashCode(listSize, k);
      b := table[i];
      assert BucketOk(hashCode, |table[..]|, i, table[..][i], m);
    }

    /** Index of the key in the walk, or the walk's length. */
    method Find(s: seq<Entry<K, V>>, k: K) returns (j: nat)
      ensures j <= |s|
      ensures k in Keys(s) <==> j < |s|
      ensures j < |s| ==> s[j].key == k
    {
      j := 0;
      while j < |s| && s[j].key != k
        invariant j <= |s|
        invariant forall l :: 0 <= l < j ==> s[l].key != k
      {
        j := j + 1;
      }
      if j < |s| { assert s[j] in s; }
    }

    method Exists(k: K) returns (found: bool)
      requires Sound()
      ensures found <==> k in m
    {
      var _, b := BucketOf(k);
      var j := Find(Walk(b), k);
      found := j < |Walk(b)|;
    }

    /** None is the NULL returned for an absent key. */
    method Get(k: K) returns (v: Option<V>)
      requires Sound()
      ensures v == if k in m then Some(m[k]) else None
    {
      var found := Exists(k);
      if !found { return None; }
      var _, b := BucketOf(k);
      var j := Find(Walk(b), k);
      assert Walk(b)[j] in Walk(b);
      v := Some(Walk(b)[j].value);
    }

    /** Write one bucket; the rebuild triggers are left to the callers. */
    method Store(i: nat, b: Bucket<K, V>, newSize: nat, ghost after: map<K, V>)
      requires Sound() && i < table.Length && newSize == |after|
      requires BucketOk(hashCode, listSize, i, b, after)
      requires forall k ::
        hashCode(listSize, k) != i ==> (k in m <==> k in after) && (k in m ==> m[k] == after[k])
      modifies this`m, this`size, table
      ensures Sound() && m == after && size == newSize
    {
      hide TableOk, BucketOk;
      ghost var before := table[..];
      TableUpdate(hashCode, before, m, i, b, after);
      table[i] := b;
      assert table[..] == before[i := b];
      m := after;
      size := newSize;
    }

    method Put(k: K, v: V)
      requires Valid()
      modifies this, table
      ensures Valid() && (if listSize == old(listSize) then table == old(table) else fresh(table))
      ensures m == old(m)[k := v]
      ensures listSize == if k !in old(m) && old(size) + 1 >= old(listSize) && 2 * old(listSize) >= 50
                          then 2 * old(listSize) else old(listSize)
      decreases if size + 1 < listSize then 0 else 2, 0
    {
      hide TableOk, ListOk, Keys, Walk, Insert, Overwrite;
      var i, b := BucketOf(k);
      MapCount(m, k, v);
      var s := Walk(b);
      var j := Find(s, k);
      if j < |s| {
        OverwriteOk(hashCode, listSize, i, s, m, j, v);
        Store(i, Overwrite(b, j, v), size, m[k := v]);
        return;
      }
      var c := Insert(b, Entry(k, v));
      ghost var p :| 0 <= p <= |s| && Walk(c) == s[..p] + [Entry(k, v)] + s[p..];
      InsertOk(hashCode, listSize, i, s, m, k, v, p, Walk(c));
      Store(i, c, size + 1, m[k := v]);
      if size >= listSize {
        Reset(listSize * 2);
      }
    }

    /** The result is the key stored in the head of the bucket, which need not be the removed one. */
    method Remove(k: K) returns (r: Option<K>)
      requires Valid()
      modifies this, table
      ensures Valid() && (table == old(table) || fresh(table))
      ensures m == old(m) - {k}
      ensures listSize == if k in old(m) && size < old(listSize) / 2 && old(listSize) / 2 >= 50
                          then old(listSize) / 2 else old(listSize)
      ensures r.Some? ==> r.value in old(m) && hashCode(old(listSize), r.value) == hashCode(old(listSize), k)
      ensures r.None? <==> forall x :: x in old(m) ==> hashCode(old(listSize), x) != hashCode(old(listSize), k)
    {
      hide TableOk, ListOk, Keys, Walk, Unlink;
      var i, b := BucketOf(k);
      var s := Walk(b);
      HeadOfBucket(hashCode, listSize, i, b, m);
      if b.head.None? {
        assert m == m - {k};
        return None;
      }
      r := Some(s[0].key);
      var j := Find(s, k);
      if j == |s| {
        assert m == m - {k};
        return;
      }
      MapCount(m, k, s[j].value);
      UnlinkOk(hashCode, listSize, i, s, m, j);
      UnlinkWalk(b, j);
      Store(i, Unlink(b, j), size - 1, m - {k});
      if size < listSize / 2 {
        Reset(listSize / 2);
      }
    }

    /** Rebuild with `newSize` buckets, unless that is below the minimum. The puts stay below the growth bound. */
    method Reset(newSize: nat)
      requires Sound()
      requires newSize >= DEFAULT_MAP_SIZE ==> size < newSize
      modifies this, table
      ensures Sound() && (if newSize < 50 then table == old(table) else fresh(table))
      ensures m == old(m) && size == old(size)
      ensures listSize == if newSize < 50 then old(listSize) else newSize
      decreases 1, 1
    {
      hide TableOk, Distinct, Keys;
      if newSize < DEFAULT_MAP_SIZE { return; }
      ghost var es, all := [], m;
      var temp;
      temp, es := Collect();
      HashInRange(hashCode, table[..], m);
      listSize := newSize;
      table := new Bucket<K, V>[newSize](_ => Bucket(None, []));
      size := 0;
      m := map[];
      EmptyTable(hashCode, table[..], m);
      Refill(temp, es);
      SameMap(es, m, all);
    }

    /** The last loop of the rebuild: `put` every collected entry; the bucket array stays the one allocated. */
    method Refill(temp: array<Option<Entry<K, V>>>, ghost es: seq<Entry<K, V>>)
      requires Valid() && m == map[] && |es| < listSize && Distinct(es)
      requires temp.Length == |es| && forall l :: 0 <= l < |es| ==> temp[l] == Some(es[l])
      modifies this, table
      ensures Valid() && table == old(table) && listSize == old(listSize)
      ensures size == |es| && m.Keys == Keys(es) && Bound(es, m)
      decreases 1, 0
    {
      hide TableOk, Distinct, Keys;
      var i := 0;
      NoKeys<K, V>();
      assert es[..i] == [];
      while i < temp.Length
        invariant i <= temp.Length
        invariant Valid() && table == old(table) && size == i && listSize == old(listSize)
        invariant m.Keys == Keys(es[..i]) && Bound(es[..i], m)
      {
        var e := temp[i].value;
        PrefixKeys(es, i);
        MapCount(m, e.key, e.value);
        PutBound(es, i, m);
        Put(e.key, e.value);
        i := i + 1;
      }
      assert es[..i] == es;
    }

    /** The first loop of the rebuild: every entry, each once, into a temporary array of exactly `size` cells. */
    method Collect() returns (temp: array<Option<Entry<K, V>>>, ghost es: seq<Entry<K, V>>)
      requires Sound()
      ensures fresh(temp) && temp.Length == |es| == size
      ensures forall l :: 0 <= l < |es| ==> temp[l] == Some(es[l])
      ensures Distinct(es) && Bound(es, m) && Keys(es) == m.Keys
    {
      hide TableOk, ListOk, Walk, Gathered, Distinct, Bound, Keys;
      temp := new Option<Entry<K, V>>[size](_ => None);
      es := [];
      var i, count := 0, 0;
      GatheredNone(hashCode, listSize, m);
      while i < listSize
        invariant i <= listSize && count == |es| <= size == temp.Length
        invariant forall l :: 0 <= l < |es| ==> temp[l] == Some(es[l])
        invariant Gathered(hashCode, listSize, i, es, m)
      {
        var s := Walk(table[i]);
        BucketAt(hashCode, table[..], m, i);
        ghost var done := es;
        var j := 0;
        assert done + s[..0] == done;
        while j < |s|
          invariant j <= |s| && count == |es| <= size == temp.Length
          invariant forall l :: 0 <= l < |es| ==> temp[l] == Some(es[l])
          invariant es == done + s[..j]
        {
          GatherOne(hashCode, listSize, i, s, j, done, m);
          assert done + s[..j] + [s[j]] == done + s[..j + 1];
          temp[count] := Some(s[j]);
          es := es + [s[j]];
          count := count + 1;
          j := j + 1;
        }
        assert s[..j] == s;
        GatherBucket(hashCode, listSize, i, s, done, m);
        i := i + 1;
      }
      HashInRange(hashCode, table[..], m);
      GatheredAll(hashCode, listSize, es, m);
    }
  }

  /** The entries of the first `i` buckets, each once. */
  ghost predicate Gathered<K(!new), V>(hash: (nat, K) -> nat, n: nat, i: nat, es: seq<Entry<K, V>>, m: map<K, V>)
  {
    && Distinct(es) && Bound(es, m)
    && (forall e :: e in es ==> hash(n, e.key) < i)
    && (forall x :: x in m && hash(n, x) < i ==> x in Keys(es))
  }

  lemma GatheredNone<K(!new), V>(hash: (nat, K) -> nat, n: nat, m: map<K, V>)
    ensures Gathered(hash, n, 0, [], m)
  {
  }

  lemma BucketAt<K(!new), V>(hash: (nat, K) -> nat, t: seq<Bucket<K, V>>, m: map<K, V>, i: nat)
    requires TableOk(hash, t, m) && i < |t|
    ensures ListOk(hash, |t|, i, Walk(t[i]), m)
  {
    assert BucketOk(hash, |t|, i, t[i], m);
  }

  /** There is room in the temporary array for the next entry of bucket `i`. */
  lemma GatherOne<K(!new), V>(hash: (nat, K) -> nat, n: nat, i: nat, s: seq<Entry<K, V>>, j: nat,
                              done: seq<Entry<K, V>>, m: map<K, V>)
    requires Gathered(hash, n, i, done, m) && ListOk(hash, n, i, s, m) && j < |s|
    ensures |done + s[..j]| < |m|
  {
    hide Keys;
    GatherPrefix(hash, n, i, s, j, done, m);
    NextIsNew(hash, n, i, s, j, done + s[..j], m);
  }

  lemma {:induction false} GatherPrefix<K(!new), V>(hash: (nat, K) -> nat, n: nat, i: nat, s: seq<Entry<K, V>>, j: nat,
                                                    done: seq<Entry<K, V>>, m: map<K, V>)
    requires Gathered(hash, n, i, done, m) && ListOk(hash, n, i, s, m) && j <= |s|
    ensures Distinct(done + s[..j]) && Bound(done + s[..j], m)
    decreases j
  {
    if j == 0 {
      assert done + s[..0] == done;
    } else {
      GatherPrefix(hash, n, i, s, j - 1, done, m);
      hide Distinct, Keys;
      NextIsNew(hash, n, i, s, j - 1, done + s[..j - 1], m);
      assert done + s[..j - 1] + [s[j - 1]] == done + s[..j];
    }
  }

  lemma GatherBucket<K(!new), V>(hash: (nat, K) -> nat, n: nat, i: nat, s: seq<Entry<K, V>>, done: seq<Entry<K, V>>,
                                 m: map<K, V>)
    requires Gathered(hash, n, i, done, m) && ListOk(hash, n, i, s, m)
    ensures Gathered(hash, n, i + 1, done + s, m)
  {
    GatherPrefix(hash, n, i, s, |s|, done, m);
    assert s[..|s|] == s;
    hide Distinct, Bound;
    assert forall e :: e in done + s <==> e in done || e in s;
  }

  lemma GatheredAll<K(!new), V>(hash: (nat, K) -> nat, n: nat, es: seq<Entry<K, V>>, m: map<K, V>)
    requires Gathered(hash, n, n, es, m) && InRange(hash) && 0 < n
    ensures Distinct(es) && Bound(es, m) && Keys(es) == m.Keys && |es| == |m|
  {
    assert Keys(es) == m.Keys;
    DistinctCount(es);
    assert |m.Keys| == |m|;
  }

  /** An occupied head is a key of the bucket; an empty one means that no key hashes there. */
  lemma HeadOfBucket<K(!new), V>(hash: (nat, K) -> nat, n: nat, i: nat, b: Bucket<K, V>, m: map<K, V>)
    requires BucketOk(hash, n, i, b, m)
    ensures b.head.Some? ==> Walk(b) != [] && Walk(b)[0].key in m && hash(n, Walk(b)[0].key) == i
    ensures b.head.None? <==> forall x :: x in m ==> hash(n, x) != i
  {
    if b.head.Some? { assert Walk(b)[0] in Walk(b); }
  }

  lemma NoKeys<K, V>()
    ensures Keys<K, V>([]) == {}
  {
  }

  lemma PutBound<K, V>(es: seq<Entry<K, V>>, i: nat, m: map<K, V>)
    requires Distinct(es) && i < |es| && Bound(es[..i], m)
    ensures Bound(es[..i + 1], m[es[i].key := es[i].value])
  {
    assert es[..i + 1] == es[..i] + [es[i]];
  }

  /** Two maps with the keys of one list, both giving its values, are the same. */
  lemma SameMap<K, V>(es: seq<Entry<K, V>>, a: map<K, V>, b: map<K, V>)
    requires Bound(es, a) && Bound(es, b) && a.Keys == Keys(es) == b.Keys
    ensures a == b
  {
    forall k | k in a.Keys ensures a[k] == b[k] {
      var e :| e in es && e.key == k;
    }
  }

  lemma PrefixKeys<K, V>(es: seq<Entry<K, V>>, i: nat)
    requires Distinct(es) && i < |es|
    ensures Keys(es[..i + 1]) == Keys(es[..i]) + {es[i].key}
    ensures es[i].key !in Keys(es[..i])
  {
    assert es[..i + 1] == es[..i] + [es[i]];
  }
}
