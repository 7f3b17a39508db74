/** Positions in a power-of-two byte ring, and the two-fragment copies used to read and write it. */
module Ring {
  import opened Bits

  type byte = x: int | 0 <= x < 256

  /** The ring slot of the unbounded byte counter `u`. */
  function Slot(size: nat, u: nat): (r: nat)
    requires size > 0
    ensures r < size
    decreases u
  {
    if u < size then u else Slot(size, u - size)
  }

  /** `x & (size - 1)`. */
  function Wrap(size: nat, x: int): (r: nat)
    requires size > 0
    ensures r < size
  {
    And(x, size - 1)
  }

  /** A stored pointer `p` stands for the counter `u`. The writer may leave its pointer at `size`
      instead of 0, so `p` ranges over 0..size inclusive. */
  predicate Points(size: nat, p: int, u: nat)
    requires size > 0
  {
    0 <= p <= size && Slot(size, p) == Slot(size, u)
  }

  /** `n` copies of one byte. */
  function Repeat(b: byte, n: nat): (r: seq<byte>)
    ensures |r| == n && forall i :: 0 <= i < n ==> r[i] == b
  {
    seq(n, i => b)
  }

  // ---- arithmetic of slots ----

  lemma {:induction false} SlotIsMod(size: nat, u: nat)
    requires size > 0
    ensures Slot(size, u) == u % size
    decreases u
  {
    if u < size {
      DivModUnique(u, size, 0, u);
    } else {
      SlotIsMod(size, u - size);
      var q, r := (u - size) / size, (u - size) % size;
      assert u == size * (q + 1) + r;
      DivModUnique(u, size, q + 1, r);
    }
  }

  lemma WrapIsMod(size: nat, x: int)
    requires IsPow2(size)
    ensures Wrap(size, x) == x % size
  {
    var k: nat :| size == Pow2(k);
    AndIsMod(x, k);
  }

  lemma WrapIsSlot(size: nat, u: nat)
    requires IsPow2(size)
    ensures Wrap(size, u) == Slot(size, u)
  {
    WrapIsMod(size, u);
    SlotIsMod(size, u);
  }

  lemma SlotCongruent(size: nat, u: nat) returns (k: int)
    requires size > 0
    ensures k >= 0 && u == Slot(size, u) + size * k
  {
    SlotIsMod(size, u);
    k := u / size;
  }

  /** Distinct counters closer than one lap occupy distinct slots. */
  lemma SlotInjective(size: nat, u: nat, v: nat)
    requires size > 0 && u <= v < u + size
    requires Slot(size, u) == Slot(size, v)
    ensures u == v
  {
    var j := SlotCongruent(size, u);
    var k := SlotCongruent(size, v);
    assert v - u == size * (k - j);
    if k > j {
      MulGe(size, k - j);
    } else {
      assert size * (k - j) <= 0;
    }
  }

  lemma SlotsDiffer(size: nat, u: nat, v: nat)
    requires size > 0 && u < v < u + size
    ensures Slot(size, u) != Slot(size, v)
  {
    hide Slot;
    if Slot(size, u) == Slot(size, v) {
      SlotInjective(size, u, v);
    }
  }

  lemma SlotAdd(size: nat, u: nat, v: nat, d: nat)
    requires size > 0 && Slot(size, u) == Slot(size, v)
    ensures Slot(size, u + d) == Slot(size, v + d)
  {
    var j := SlotCongruent(size, u);
    var k := SlotCongruent(size, v);
    var r := Slot(size, u);
    SlotLaps(size, r + d, j);
    SlotLaps(size, r + d, k);
    assert u + d == r + d + size * j && v + d == r + d + size * k;
  }

  lemma {:induction false} SlotLaps(size: nat, u: nat, k: nat)
    requires size > 0
    ensures u + size * k >= 0 && Slot(size, u + size * k) == Slot(size, u)
    decreases k
  {
    if k == 0 {
      assert size * k == 0;
    } else {
      SlotLaps(size, u, k - 1);
      assert size * k == size * (k - 1) + size;
      assert size * (k - 1) >= 0;
      var w: nat := u + size * (k - 1);
      assert u + size * k == w + size;
    }
  }

  lemma SlotIdem(size: nat, u: nat)
    requires size > 0
    ensures Slot(size, Slot(size, u)) == Slot(size, u)
  {
  }

  lemma PointsSlot(size: nat, u: nat)
    requires size > 0
    ensures Points(size, Slot(size, u), u)
  {
  }

  /** Masked pointer arithmetic is counter arithmetic. */
  lemma WrapAdd(size: nat, p: int, u: nat, d: nat)
    requires IsPow2(size) && Points(size, p, u)
    ensures Wrap(size, p + d) == Slot(size, u + d)
  {
    WrapIsSlot(size, p + d);
    SlotAdd(size, p, u, d);
  }

  /** The masked difference of two stored pointers is the true distance of the counters behind them, as long
      as they are less than one lap apart. */
  lemma WrapDiff(size: nat, p: int, q: int, u: nat, v: nat)
    requires IsPow2(size) && Points(size, p, u) && Points(size, q, v)
    requires v <= u < v + size
    ensures Wrap(size, p - q) == u - v
  {
    WrapIsMod(size, p - q);
    var j := SlotCongruent(size, p);
    var j' := SlotCongruent(size, u);
    var k := SlotCongruent(size, q);
    var k' := SlotCongruent(size, v);
    LapsApart(size, p, u, j, j', Slot(size, u));
    LapsApart(size, q, v, k, k', Slot(size, v));
    var l, m := j - j', k - k';
    assert size * (l - m) == size * l - size * m;
    DivModUnique(p - q, size, l - m, u - v);
  }

  lemma LapsApart(size: nat, p: int, u: int, j: int, j': int, r: int)
    requires p == r + size * j && u == r + size * j'
    ensures p == u + size * (j - j')
  {
    assert size * (j - j') == size * j - size * j';
  }

  // ---- two-fragment copies ----

  /** Length of the first fragment of a copy of `len` bytes at `pos`. */
  function FragLeft(size: nat, pos: nat, len: nat): nat
    requires pos <= size
  {
    if pos + len > size then size - pos else len
  }

  /** Ring position of byte `i` of such a copy: the first fragment starts at `pos`, the second at 0. */
  function FragAddr(size: nat, pos: nat, len: nat, i: nat): nat
    requires pos <= size
  {
    if i < FragLeft(size, pos, len) then pos + i else i - FragLeft(size, pos, len)
  }

  lemma FragAddrIsSlot(size: nat, pos: nat, len: nat, i: nat)
    requires size > 0 && pos <= size && len <= size && i < len
    ensures FragAddr(size, pos, len, i) == Slot(size, pos + i)
  {
    if i >= FragLeft(size, pos, len) {
      assert pos + i >= size;
      assert Slot(size, pos + i) == Slot(size, pos + i - size);
    }
  }

  /** Pointer after a two-fragment copy: `pos + len`, or what is left of `len` after the ring end. It can be `size`. */
  function Advance(size: nat, pos: nat, len: nat): nat
    requires pos <= size
  {
    if pos + len > size then len - (size - pos) else pos + len
  }

  lemma AdvancePoints(size: nat, pos: nat, len: nat, u: nat)
    requires size > 0 && len <= size && Points(size, pos, u)
    ensures Points(size, Advance(size, pos, len), u + len)
  {
    SlotAdd(size, pos, u, len);
    if pos + len > size {
      assert Slot(size, pos + len) == Slot(size, pos + len - size);
    }
  }

  /** The `len` bytes found from ring position `pos` on, in ring order. */
  function Window(buf: seq<byte>, pos: nat, len: nat): (r: seq<byte>)
    requires |buf| > 0
    ensures |r| == len
  {
    seq(len, i requires 0 <= i < len => buf[Slot(|buf|, pos + i)])
  }

  /** The bytes produced by `rb_read`'s (at most) two memcpy calls. */
  function ReadFrags(buf: seq<byte>, pos: nat, len: nat): seq<byte>
    requires pos <= |buf| && len <= |buf|
  {
    if pos + len > |buf|
    then buf[pos..] + buf[..len - (|buf| - pos)]
    else buf[pos..pos + len]
  }

  lemma ReadFragsIsWindow(buf: seq<byte>, pos: nat, len: nat)
    requires |buf| > 0 && pos <= |buf| && len <= |buf|
    ensures ReadFrags(buf, pos, len) == Window(buf, pos, len)
  {
    forall i | 0 <= i < len
      ensures ReadFrags(buf, pos, len)[i] == Window(buf, pos, len)[i]
    {
      FragAddrIsSlot(|buf|, pos, len, i);
    }
  }

  /** The buffer after the (at most) two remote writes of rb_write_mate and rb_write_data. */
  function WriteFrags(buf: seq<byte>, pos: nat, data: seq<byte>): (r: seq<byte>)
    requires pos <= |buf| && |data| <= |buf|
    ensures |r| == |buf|
  {
    if pos + |data| > |buf| then
      var left := |buf| - pos;
      data[left..] + buf[|data| - left..pos] + data[..left]
    else
      buf[..pos] + data + buf[pos + |data|..]
  }

  /** What was written is found again from the same position on, and the rest of the ring is as before. */
  lemma WriteThenRead(buf: seq<byte>, pos: nat, data: seq<byte>)
    requires |buf| > 0 && pos <= |buf| && |data| <= |buf|
    ensures Window(WriteFrags(buf, pos, data), pos, |data|) == data
    ensures Window(WriteFrags(buf, pos, data), pos + |data|, |buf| - |data|) == Window(buf, pos + |data|,
        |buf| - |data|)
  {
    var w, rest := WriteFrags(buf, pos, data), |buf| - |data|;
    forall i | 0 <= i < |data|
      ensures Window(w, pos, |data|)[i] == data[i]
    {
      WriteAt(buf, pos, data, i);
    }
    var after, before := Window(w, pos + |data|, rest), Window(buf, pos + |data|, rest);
    forall i | 0 <= i < rest
      ensures after[i] == before[i]
    {
      WriteAt(buf, pos, data, |data| + i);
      assert pos + |data| + i == pos + (|data| + i);
    }
  }

  lemma WriteAt(buf: seq<byte>, pos: nat, data: seq<byte>, i: nat)
    requires |buf| > 0 && pos <= |buf| && |data| <= |buf| && i < |buf|
    ensures WriteFrags(buf, pos, data)[Slot(|buf|, pos + i)] == if i < |data| then data[i] else buf[Slot(|buf|,
        pos + i)]
  {
    FragAddrIsSlot(|buf|, pos, |buf|, i);
    hide Slot, WriteFrags;
    var left := |buf| - pos;
    WriteParts(buf, pos, data, if i < left then pos + i else i - left);
  }

  /** The written buffer, byte by byte. */
  lemma WriteParts(buf: seq<byte>, pos: nat, data: seq<byte>, y: nat)
    requires pos <= |buf| && |data| <= |buf| && y < |buf|
    ensures
      var left, w := |buf| - pos, WriteFrags(buf, pos, data);
      w[y] == if pos <= y < pos + |data| then data[y - pos] else if y + left < |data| then data[y + left] else buf[y]
  {
    var n, left := |data|, |buf| - pos;
    if pos + n > |buf| {
      var a, b := data[left..], buf[n - left..pos];
      assert |a + b| == pos;
    } else {
      assert |buf[..pos] + data| == pos + n;
    }
  }
}
