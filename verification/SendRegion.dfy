/** The send region: a bump allocator that starts over when a message does not fit, and the frames put into it. */
module SendRegion {
  import opened Ring
  import opened Layout
  import opened Options

  /** enum dhmp_msg_type is a 4-byte int, data_size an 8-byte size_t. */
  datatype Msg = Msg(kind: nat, data: seq<byte>)

  const KIND := 4
  const COUNT := 8

  predicate ValidMsg(m: Msg) {
    m.kind < Pow256(KIND) && |m.data| < Pow256(COUNT)
  }

  function Frame(m: Msg): (r: seq<byte>)
    ensures |r| == KIND + COUNT + |m.data|
  {
    ToLE(m.kind, KIND) + ToLE(|m.data|, COUNT) + m.data
  }

  /** The frame by position: the kind in 4 bytes, the size in 8, then the data. */
  lemma FrameBytes(m: Msg)
    ensures
      var f := Frame(m);
      && |f| == 12 + |m.data| && f[12..] == m.data
      && (forall i :: 0 <= i < 4 ==> f[i] == m.kind / Pow256(i) % 256)
      && (forall i :: 0 <= i < 8 ==> f[4 + i] == |m.data| / Pow256(i) % 256)
  {
    hide ToLE, Pow256;
    forall i | 0 <= i < 4 ensures ToLE(m.kind, 4)[i] == m.kind / Pow256(i) % 256 {
      ToLEAt(m.kind, 4, i);
    }
    forall i | 0 <= i < 8 ensures ToLE(|m.data|, 8)[i] == |m.data| / Pow256(i) % 256 {
      ToLEAt(|m.data|, 8, i);
    }
  }

  /** What the completion handler makes of the bytes at `at`; None when the announced data runs past the region. */
  function Decode(region: seq<byte>, at: nat): Option<Msg> {
    if at + KIND + COUNT > |region| then None else
    var kind := FromLE(region[at..at + KIND]);
    var count := FromLE(region[at + KIND..at + KIND + COUNT]);
    var start := at + KIND + COUNT;
    if start + count > |region| then None else Some(Msg(kind, region[start..start + count]))
  }

  function Overwrite(region: seq<byte>, at: nat, data: seq<byte>): (r: seq<byte>)
    requires at + |data| <= |region|
    ensures |r| == |region|
  {
    region[..at] + data + region[at + |data|..]
  }

  // ---- allocation ----

  /** Where a message of `len` bytes goes when the next free position is `cur`. */
  function Place(size: nat, cur: nat, len: nat): nat {
    if cur + len > size then 0 else cur
  }

  /** Next free position after the first `n` messages of lengths `lens`. */
  function Cur(size: nat, lens: seq<nat>, n: nat): nat
    requires n <= |lens|
  {
    if n == 0 then 0 else Place(size, Cur(size, lens, n - 1), lens[n - 1]) + lens[n - 1]
  }

  /** Position of message `i`. */
  function Pos(size: nat, lens: seq<nat>, i: nat): nat
    requires i < |lens|
  {
    Place(size, Cur(size, lens, i), lens[i])
  }

  function Sum(lens: seq<nat>, i: nat, j: nat): nat
    requires i <= j <= |lens|
  {
    if i == j then 0 else Sum(lens, i, j - 1) + lens[j - 1]
  }

  /** The buffer after the first `n` messages. */
  function RegionAfter(region: seq<byte>, msgs: seq<Msg>, n: nat): (r: seq<byte>)
    requires n <= |msgs| && forall i :: 0 <= i < |msgs| ==> |Frame(msgs[i])| <= |region|
    ensures |r| == |region|
  {
    if n == 0 then region else
    Overwrite(RegionAfter(region, msgs, n - 1), Pos(|region|, Lens(msgs), n - 1), Frame(msgs[n - 1]))
  }

  function Lens(msgs: seq<Msg>): (r: seq<nat>)
    ensures |r| == |msgs| && forall i :: 0 <= i < |msgs| ==> r[i] == |Frame(msgs[i])|
  {
    seq(|msgs|, i requires 0 <= i < |msgs| => |Frame(msgs[i])|)
  }

  /** Legal messages whose frames take at most `L` bytes. */
  predicate Sendable(msgs: seq<Msg>, L: nat) {
    forall m :: 0 <= m < |msgs| ==> ValidMsg(msgs[m]) && |Frame(msgs[m])| <= L
  }

  class SendMr {
    const addr: array<byte>
    var cur: nat

    constructor (size: nat)
      ensures addr.Length == size && cur == 0 && fresh(addr)
    {
      addr := new byte[size](i => 0);
      cur := 0;
    }

    /** dhmp_send_task_create: the task's address and length, with the frame in place. */
    method CreateTask(msg: Msg) returns (at: nat, len: nat)
      requires cur <= addr.Length && |Frame(msg)| <= addr.Length
      modifies this`cur, addr
      ensures len == 12 + |msg.data| && at == (if old(cur) + len > addr.Length then 0 else old(cur))
      ensures cur == at + len <= addr.Length
      ensures addr[..] == Overwrite(old(addr[..]), at, Frame(msg))
      ensures forall i :: 0 <= i < 4 ==> addr[at + i] == msg.kind / Pow256(i) % 256
      ensures forall i :: 0 <= i < 8 ==> addr[at + 4 + i] == |msg.data| / Pow256(i) % 256
      ensures addr[at + 12..at + len] == msg.data
      ensures forall i :: 0 <= i < addr.Length && !(at <= i < at + len) ==> addr[i] == old(addr[i])
    {
      hide ToLE, FromLE, Pow256;
      len := KIND + COUNT + |msg.data|;
      if cur + len > addr.Length {
        cur := 0;
      }
      at := cur;
      cur := cur + len;
      var frame := Frame(msg);
      ghost var region := addr[..];
      forall i | 0 <= i < len { addr[at + i] := frame[i]; }
      FrameBytes(msg);
      hide Frame;
      assert addr[..] == Overwrite(region, at, frame);
      assert addr[at + 12..at + len] == frame[12..];
    }
  }

  // ---- laws ----

  lemma FrameRoundTrip(region: seq<byte>, at: nat, m: Msg)
    requires ValidMsg(m) && at + |Frame(m)| <= |region| && region[at..at + |Frame(m)|] == Frame(m)
    ensures Decode(region, at) == Some(m)
  {
    hide ToLE, FromLE, Pow256;
    var f := region[at..at + |Frame(m)|];
    LERoundTrip(m.kind, KIND);
    LERoundTrip(|m.data|, COUNT);
    assert region[at..at + KIND] == f[..KIND] == ToLE(m.kind, KIND);
    assert region[at + KIND..at + KIND + COUNT] == f[KIND..KIND + COUNT] == ToLE(|m.data|, COUNT);
    assert region[at + KIND + COUNT..at + |f|] == f[KIND + COUNT..] == m.data;
  }

  /** Every slot lies inside the region. */
  lemma SlotInRegion(size: nat, lens: seq<nat>, i: nat)
    requires i < |lens| && lens[i] <= size
    ensures Pos(size, lens, i) + lens[i] == Cur(size, lens, i + 1) <= size
  {
  }

  /** After message `i`, the allocator has either not wrapped, or wrapped once and stayed behind message `i`. */
  lemma {:induction false} CurSince(size: nat, lens: seq<nat>, L: nat, i: nat, k: nat)
    requires i < k <= |lens| && L <= size && (forall m :: 0 <= m < |lens| ==> lens[m] <= L)
    requires Sum(lens, i, k) + L <= size + 1
    ensures var p, c := Pos(size, lens, i), Cur(size, lens, k);
            c == p + Sum(lens, i, k) || c + (size + 1 - L) <= Sum(lens, i, k) + p
    decreases k
  {
    if k == i + 1 {
      assert Sum(lens, i, k) == lens[i];
    } else {
      CurSince(size, lens, L, i, k - 1);
      SlotInRegion(size, lens, i);
    }
  }

  /** Two messages i < j occupy disjoint slots whenever the messages from i to j together take at most
      size - L + 1 bytes, L being the longest. */
  lemma SlotsDisjoint(size: nat, lens: seq<nat>, L: nat, i: nat, j: nat)
    requires i < j < |lens| && L <= size && (forall m :: 0 <= m < |lens| ==> lens[m] <= L)
    requires Sum(lens, i, j + 1) + L <= size + 1
    ensures Pos(size, lens, i) + lens[i] <= Pos(size, lens, j) || Pos(size, lens, j) + lens[j] <= Pos(size, lens, i)
  {
    CurSince(size, lens, L, i, j + 1);
    CurSince(size, lens, L, i, j);
    SumFirst(lens, i, j);
    SlotInRegion(size, lens, j);
    SlotInRegion(size, lens, i);
  }

  lemma {:induction false} SumFirst(lens: seq<nat>, i: nat, j: nat)
    requires i < j <= |lens|
    ensures Sum(lens, i, j) >= lens[i]
    decreases j
  {
    if i + 1 < j {
      SumFirst(lens, i, j - 1);
    } else {
      assert Sum(lens, i, j) == Sum(lens, i, i) + lens[i];
    }
  }

  lemma {:induction false} SumShorter(lens: seq<nat>, i: nat, j: nat, k: nat)
    requires i <= j <= k <= |lens|
    ensures Sum(lens, i, j) <= Sum(lens, i, k)
    decreases k
  {
    if j < k {
      SumShorter(lens, i, j, k - 1);
    }
  }

  /** A message decodes to itself as long as the messages sent since then are within that bound. */
  lemma {:induction false} MessageSurvives(region: seq<byte>, msgs: seq<Msg>, L: nat, i: nat, n: nat)
    requires i < n <= |msgs| && L <= |region| && Sendable(msgs, L)
    requires Sum(Lens(msgs), i, n) + L <= |region| + 1
    ensures Decode(RegionAfter(region, msgs, n), Pos(|region|, Lens(msgs), i)) == Some(msgs[i])
  {
    hide Frame, Decode, ValidMsg, RegionAfter;
    FrameSurvives(region, msgs, L, i, n);
    SlotInRegion(|region|, Lens(msgs), i);
    FrameRoundTrip(RegionAfter(region, msgs, n), Pos(|region|, Lens(msgs), i), msgs[i]);
  }

  lemma {:induction false} FrameSurvives(region: seq<byte>, msgs: seq<Msg>, L: nat, i: nat, n: nat)
    requires i < n <= |msgs| && L <= |region| && (forall m :: 0 <= m < |msgs| ==> |Frame(msgs[m])| <= L)
    requires Sum(Lens(msgs), i, n) + L <= |region| + 1
    ensures
      var p := Pos(|region|, Lens(msgs), i);
      && p + |Frame(msgs[i])| <= |region|
      && RegionAfter(region, msgs, n)[p..p + |Frame(msgs[i])|] == Frame(msgs[i])
    decreases n
  {
    hide Frame, Overwrite, Pos, Cur;
    var size, lens := |region|, Lens(msgs);
    var p, l := Pos(size, lens, i), |Frame(msgs[i])|;
    SlotInRegion(size, lens, i);
    SlotInRegion(size, lens, n - 1);
    var before, q := RegionAfter(region, msgs, n - 1), Pos(size, lens, n - 1);
    if n == i + 1 {
      OverwriteGives(before, p, Frame(msgs[i]));
    } else {
      SumShorter(lens, i, n - 1, n);
      FrameSurvives(region, msgs, L, i, n - 1);
      SlotsDisjoint(size, lens, L, i, n - 1);
      OverwriteKeeps(before, q, Frame(msgs[n - 1]), p, l);
    }
  }

  lemma OverwriteGives(region: seq<byte>, at: nat, data: seq<byte>)
    requires at + |data| <= |region|
    ensures Overwrite(region, at, data)[at..at + |data|] == data
  {
  }

  lemma OverwriteKeeps(region: seq<byte>, at: nat, data: seq<byte>, p: nat, l: nat)
    requires at + |data| <= |region| && p + l <= |region| && (p + l <= at || at + |data| <= p)
    ensures Overwrite(region, at, data)[p..p + l] == region[p..p + l]
  {
  }

  // ---- the bound is exact ----

  /** Messages of at most `L` bytes: message `i` still decodes when messages i..n-1 take at most `total` bytes. */
  ghost predicate Survives(size: nat, L: nat, total: int) {
    forall region, msgs, i, n :: Sent(region, msgs, i, n, size, L, total) ==> Intact(region, msgs, L, i, n)
  }

  predicate Sent(region: seq<byte>, msgs: seq<Msg>, i: int, n: int, size: nat, L: nat, total: int) {
    && |region| == size >= L && Sendable(msgs, L)
    && 0 <= i < n <= |msgs| && Sum(Lens(msgs), i, n) <= total
  }

  ghost predicate Intact(region: seq<byte>, msgs: seq<Msg>, L: nat, i: nat, n: nat)
    requires i < n <= |msgs| && Sendable(msgs, L) && L <= |region|
  {
    Decode(RegionAfter(region, msgs, n), Pos(|region|, Lens(msgs), i)) == Some(msgs[i])
  }

  /** A message whose frame takes `len` bytes, filled with one byte. */
  function Filler(len: nat, b: byte): (m: Msg)
    requires len >= KIND + COUNT
    ensures |Frame(m)| == len
  {
    Msg(0, seq(len - KIND - COUNT, _ => b))
  }

  /** Messages of 12 to `L` bytes that take `total` bytes together. */
  function Fillers(total: nat, L: nat): (r: seq<Msg>)
    requires L >= 23 && total >= KIND + COUNT
    ensures |r| >= 1
    decreases total
  {
    if total <= L then [Filler(total, 0)] else Fillers(total - 12, L) + [Filler(12, 0)]
  }

  /** L - 1 bytes, then fillers up to one byte short of room for L bytes, then L bytes that start over at 0. */
  function Squeeze(size: nat, L: nat): seq<Msg>
    requires L >= 23 && size >= 2 * L + 10
  {
    [Filler(L - 1, 0)] + Fillers(size - 2 * L + 2, L) + [Filler(L, 1)]
  }

  lemma {:induction false} SumPrefix(lens: seq<nat>, more: seq<nat>, i: nat, j: nat)
    requires i <= j <= |lens|
    ensures Sum(lens + more, i, j) == Sum(lens, i, j)
    decreases j
  {
    if i < j {
      SumPrefix(lens, more, i, j - 1);
    }
  }

  lemma LensAppend(msgs: seq<Msg>, m: Msg)
    ensures Lens(msgs + [m]) == Lens(msgs) + [|Frame(m)|]
  {
    hide Frame;
  }

  lemma SumAppend(msgs: seq<Msg>, m: Msg, i: nat)
    requires i <= |msgs|
    ensures Sum(Lens(msgs + [m]), i, |msgs| + 1) == Sum(Lens(msgs), i, |msgs|) + |Frame(m)|
  {
    hide Frame;
    LensAppend(msgs, m);
    SumPrefix(Lens(msgs), [|Frame(m)|], i, |msgs|);
  }

  lemma {:induction false} FillersSum(first: Msg, total: nat, L: nat)
    requires L >= 23 && total >= KIND + COUNT
    ensures var msgs := [first] + Fillers(total, L);
      Sum(Lens(msgs), 1, |msgs|) == total && Sum(Lens(msgs), 0, |msgs|) == |Frame(first)| + total
    decreases total
  {
    hide Frame, Filler;
    var msgs := [first] + Fillers(total, L);
    if total <= L {
      assert msgs == [first] + [Filler(total, 0)];
      SumAppend([first], Filler(total, 0), 0);
      SumAppend([first], Filler(total, 0), 1);
      assert Sum(Lens([first]), 0, 1) == Sum(Lens([first]), 0, 0) + |Frame(first)|;
    } else {
      var less := [first] + Fillers(total - 12, L);
      FillersSum(first, total - 12, L);
      assert msgs == less + [Filler(12, 0)];
      SumAppend(less, Filler(12, 0), 0);
      SumAppend(less, Filler(12, 0), 1);
    }
  }

  lemma {:induction false} FillersFit(total: nat, L: nat)
    requires L >= 23 && total >= KIND + COUNT && L <= Pow256(COUNT)
    ensures Sendable(Fillers(total, L), L)
    decreases total
  {
    if total > L {
      FillersFit(total - 12, L);
    }
  }

  lemma {:induction false} NoWrap(size: nat, lens: seq<nat>, k: nat)
    requires k <= |lens| && Sum(lens, 0, k) <= size
    ensures Cur(size, lens, k) == Sum(lens, 0, k)
    decreases k
  {
    if k > 0 {
      NoWrap(size, lens, k - 1);
    }
  }

  /** Where the first filler and the last message of the squeeze go, and what the messages since the former take. */
  lemma SqueezePlaces(size: nat, L: nat)
    requires L >= 23 && size >= 2 * L + 10
    ensures var msgs := Squeeze(size, L); var lens, n := Lens(msgs), |msgs|;
      && n >= 3 && Sum(lens, 1, n) == size - L + 2
      && Pos(size, lens, 1) == L - 1 && Pos(size, lens, n - 1) == 0
  {
    hide Frame, Filler, Fillers;
    var total, first, last := size - 2 * L + 2, Filler(L - 1, 0), Filler(L, 1);
    var most := [first] + Fillers(total, L);
    var msgs := Squeeze(size, L);
    assert msgs == most + [last];
    FillersSum(first, total, L);
    SumAppend(most, last, 1);
    LensAppend(most, last);
    var lens, n := Lens(msgs), |most|;
    SumPrefix(Lens(most), [L], 0, n);
    NoWrap(size, lens, n);
    assert Sum(lens, 0, 1) == Sum(lens, 0, 0) + lens[0];
    NoWrap(size, lens, 1);
    SumShorter(lens, 0, 2, n);
  }

  lemma SqueezeFits(size: nat, L: nat)
    requires L >= 23 && size >= 2 * L + 10 && L <= Pow256(COUNT)
    ensures Sendable(Squeeze(size, L), L) && Squeeze(size, L)[1].kind == 0
  {
    FillersFit(size - 2 * L + 2, L);
    KindZero(size - 2 * L + 2, L);
    hide Pow256, ToLE;
    var msgs := Squeeze(size, L);
    forall m | 0 <= m < |msgs| ensures ValidMsg(msgs[m]) && |Frame(msgs[m])| <= L {
      if 1 <= m < |msgs| - 1 { assert msgs[m] == Fillers(size - 2 * L + 2, L)[m - 1]; }
    }
    assert msgs[1] == Fillers(size - 2 * L + 2, L)[0];
  }

  lemma {:induction false} KindZero(total: nat, L: nat)
    requires L >= 23 && total >= KIND + COUNT
    ensures Fillers(total, L)[0].kind == 0
    decreases total
  {
    if total > L {
      KindZero(total - 12, L);
    }
  }

  /** A kind of 0 is not decoded from bytes that start with 1. */
  lemma WrongKind(region: seq<byte>, at: nat, m: Msg)
    requires m.kind == 0 && at < |region| && region[at] == 1
    ensures Decode(region, at) != Some(m)
  {
    if at + KIND + COUNT <= |region| {
      var bytes := region[at..at + KIND];
      assert FromLE(bytes) == bytes[0] + 256 * FromLE(bytes[1..]);
    }
  }

  /** One byte more and the guarantee is gone: the last message's last byte lands on the first byte of message 1. */
  lemma SqueezeBreaks(region: seq<byte>, L: nat)
    requires L >= 23 && |region| >= 2 * L + 10 && L <= Pow256(COUNT)
    ensures var msgs := Squeeze(|region|, L);
      && Sendable(msgs, L) && |msgs| >= 3 && Sum(Lens(msgs), 1, |msgs|) == |region| - L + 2
      && !Intact(region, msgs, L, 1, |msgs|)
  {
    SqueezePlaces(|region|, L);
    SqueezeFits(|region|, L);
    var msgs := Squeeze(|region|, L);
    LastByte(L);
    hide Frame, Filler, Fillers, Pow256, Decode, Pos;
    var n := |msgs|;
    var before, frame := RegionAfter(region, msgs, n - 1), Frame(msgs[n - 1]);
    assert msgs[n - 1] == Filler(L, 1);
    assert RegionAfter(region, msgs, n) == Overwrite(before, 0, frame);
    WrongKind(RegionAfter(region, msgs, n), L - 1, msgs[1]);
  }

  lemma LastByte(L: nat)
    requires L >= 23
    ensures Frame(Filler(L, 1))[L - 1] == 1
  {
  }

  /** Every sendable message survives messages of `total` bytes if and only if `total` is at most size - L + 1. */
  lemma SurvivalIsExact(size: nat, L: nat, total: int)
    requires L >= 23 && size >= 2 * L + 10 && L <= Pow256(COUNT)
    ensures Survives(size, L, total) <==> total <= size - L + 1
  {
    hide Frame, Decode, Pow256, ValidMsg, Sum, Lens, Squeeze;
    if total <= size - L + 1 {
      forall region, msgs, i, n | Sent(region, msgs, i, n, size, L, total) ensures Intact(region, msgs, L, i, n) {
        MessageSurvives(region, msgs, L, i, n);
      }
    } else {
      var region := seq(size, _ => 0);
      SqueezeBreaks(region, L);
      assert Sent(region, Squeeze(size, L), 1, |Squeeze(size, L)|, size, L, total);
    }
  }
}
