/** What the routines of the log buffer achieve: round trips through the ring, and complete parsing. */
module NodeLaws {
  import opened Bits
  import opened Ring
  import opened Layout
  import opened Replication
  import opened Simulation
  import opened Nodes
  import TailSteps
  import HeadSteps

  // ---- write, then read ----

  /** The buffer after header and key are written at `pos` and the value at the place reserved behind them. */
  function Written(c: Config, buf: seq<byte>, log: HeadLog): (r: seq<byte>)
    requires c.size == |buf| > 0 && log.pos <= c.size && Len(log.rec) <= c.size
    ensures |r| == |buf|
  {
    WriteFrags(WriteFrags(buf, log.pos, Mate(log.rec)), ValuePos(c, log), ValueBytes(log.rec))
  }

  /** A record written by rb_write_mate and rb_write_data lies in the ring byte for byte, wherever the ring end
      cuts it, and every other byte of the ring is untouched. */
  lemma WrittenRecord(c: Config, buf: seq<byte>, log: HeadLog)
    requires IsPow2(c.size) && c.size == |buf| > 0 && log.pos <= c.size
    requires c.header >= META && ValidRec(c, log.rec) && Len(log.rec) < c.size
    ensures Window(Written(c, buf, log), log.pos, Len(log.rec)) == Encode(log.rec)
    ensures Window(Written(c, buf, log), log.pos + Len(log.rec), c.size - Len(log.rec))
         == Window(buf, log.pos + Len(log.rec), c.size - Len(log.rec))
  {
    hide Slot, Written, Encode, NulFree;
    var r, size := log.rec, c.size;
    var b2 := Written(c, buf, log);
    var w, u := Window(b2, log.pos, Len(r)), Encode(r);
    forall i | 0 <= i < Len(r)
      ensures w[i] == u[i]
    {
      RecordByte(c, buf, log, i);
    }
    var rest := size - Len(r);
    var after, before := Window(b2, log.pos + Len(r), rest), Window(buf, log.pos + Len(r), rest);
    forall i | 0 <= i < rest
      ensures after[i] == before[i]
    {
      RecordByte(c, buf, log, Len(r) + i);
      assert log.pos + Len(r) + i == log.pos + (Len(r) + i);
    }
  }

  lemma RecordByte(c: Config, buf: seq<byte>, log: HeadLog, i: nat)
    requires IsPow2(c.size) && c.size == |buf| > 0 && log.pos <= c.size && i < c.size
    requires c.header >= META && ValidRec(c, log.rec) && Len(log.rec) < c.size
    ensures Written(c, buf, log)[Slot(c.size, log.pos + i)]
         == if i < Len(log.rec) then Encode(log.rec)[i] else buf[Slot(c.size, log.pos + i)]
  {
    hide Slot, Mate, ValueBytes, WriteFrags, NulFree;
    var r, size, m := log.rec, c.size, MateLen(log.rec);
    var b1, at := WriteFrags(buf, log.pos, Mate(r)), ValuePos(c, log);
    WriteAt(buf, log.pos, Mate(r), i);
    WrapIsSlot(size, log.pos + m);
    SlotIdem(size, log.pos + m);
    if i >= m {
      WriteAt(b1, at, ValueBytes(r), i - m);
      SlotAdd(size, at, log.pos + m, i - m);
      assert log.pos + m + (i - m) == log.pos + i;
    } else {
      var k := i + (size - m);
      WriteAt(b1, at, ValueBytes(r), k);
      SlotAdd(size, at, log.pos + m, k);
      assert log.pos + m + k == log.pos + i + size;
      LapBack(size, log.pos + i);
    }
  }

  lemma LapBack(size: nat, u: nat)
    requires size > 0
    ensures Slot(size, u + size) == Slot(size, u)
  {
  }

  /** Parsing where the record was written gives back its lengths and key; taking the value from the place the
      reader computes gives back the value. */
  lemma WriteReadRoundTrip(c: Config, buf: seq<byte>, log: HeadLog, t: Tail)
    requires ValidConfig(c) && c.size == |buf| > 0 && log.pos <= c.size
    requires ValidRec(c, log.rec) && Len(log.rec) < c.size && Len(log.rec) <= DataSize(c.size, t.wr, t.rd)
    ensures
      var b := Written(c, buf, log);
      var p := Parse(c, b, t, Slot(c.size, log.pos));
      && p.klen == KeyLen(log.rec) && p.vlen == ValueLen(log.rec)
      && CStr(LogKey(c, b, p)) == log.rec.key
      && var at := Wrap(c.size, p.pos + c.header + p.klen);
         CStr(LogValue(c, b, p.(value := FieldRef(c, b, t, at, p.vlen)))) == Value(log.rec)
  {
    hide Slot, Written, Encode, Wrap, FromLE, ToLE, CStr, Pow256, NulFree, Mate, Window, ReadFrags, RbCopy, Peek,
         DataSize;
    var b, r, u := Written(c, buf, log), log.rec, log.pos;
    var pos := Slot(c.size, u);
    TailSteps.RecordParts(c, r);
    Field(c, buf, log, t, 0, META);
    Field(c, buf, log, t, c.header, KeyLen(r));
    Field(c, buf, log, t, MateLen(r), ValueLen(r));
    SlotIdem(c.size, u);
    WrapAdd(c.size, pos, u, c.header);
    WrapAdd(c.size, pos, u, c.header + KeyLen(r));
    Lengths(c, r);
    var meta := RbCopy(c, b, t, pos, META);
    assert meta[..4] == ToLE(KeyLen(r), 4) && meta[4..] == ToLE(ValueLen(r), 4);
    CStrOf(r.key, []);
    assert KeyBytes(r) == r.key + [0] + [];
  }

  lemma Lengths(c: Config, r: Rec)
    requires ValidConfig(c) && Len(r) < c.size
    ensures FromLE(ToLE(KeyLen(r), 4)) == KeyLen(r) && FromLE(ToLE(ValueLen(r), 4)) == ValueLen(r)
  {
    LERoundTrip(KeyLen(r), 4);
    LERoundTrip(ValueLen(r), 4);
  }

  /** One field of a written record, copied out or looked at in place. */
  lemma Field(c: Config, buf: seq<byte>, log: HeadLog, t: Tail, o: nat, l: nat)
    requires IsPow2(c.size) && c.size == |buf| > 0 && log.pos <= c.size
    requires c.header >= META && ValidRec(c, log.rec) && Len(log.rec) < c.size && o + l <= Len(log.rec)
    requires Len(log.rec) <= DataSize(c.size, t.wr, t.rd)
    ensures
      var b, at := Written(c, buf, log), Slot(c.size, log.pos + o);
      && RbCopy(c, b, t, at, l) == Encode(log.rec)[o..o + l]
      && (at + l < c.size ==> Peek(b, at, l) == Encode(log.rec)[o..o + l])
  {
    hide Slot, Written, Encode, ReadFrags, Peek, DataSize, NulFree;
    var b, at := Written(c, buf, log), Slot(c.size, log.pos + o);
    SlotIdem(c.size, log.pos + o);
    var w, part := Window(b, at, l), Encode(log.rec)[o..o + l];
    forall i | 0 <= i < l
      ensures w[i] == part[i]
    {
      RecordByte(c, buf, log, o + i);
      SlotAdd(c.size, at, log.pos + o, i);
    }
    assert w == part;
    ReadFragsIsWindow(b, at, l);
    if at + l < c.size {
      TailSteps.PeekIsWindow(b, at, l);
    }
  }

  // ---- byte-wise transfer ----

  /** The buffer after the bytes of a transfer have become visible in the given order. */
  function Transfer(buf: seq<byte>, pos: nat, data: seq<byte>, order: seq<nat>): (r: seq<byte>)
    requires pos <= |buf| && forall i :: 0 <= i < |order| ==> order[i] < |data|
    ensures |r| == |buf|
    decreases |order|
  {
    if order == [] then buf else
    var i := order[|order| - 1];
    Poke(Transfer(buf, pos, data, order[..|order| - 1]), FragAddr(|buf|, pos, |data|, i), data[i])
  }

  lemma {:induction false} TransferAt(buf: seq<byte>, pos: nat, data: seq<byte>, order: seq<nat>, k: nat)
    requires |buf| > 0 && pos <= |buf| && |data| <= |buf| && k < |buf|
    requires forall i :: 0 <= i < |order| ==> order[i] < |data|
    ensures Transfer(buf, pos, data, order)[Slot(|buf|, pos + k)]
         == if k in order then data[k] else buf[Slot(|buf|, pos + k)]
    decreases |order|
  {
    if order != [] {
      var rest, i := order[..|order| - 1], order[|order| - 1];
      TransferAt(buf, pos, data, rest, k);
      FragAddrIsSlot(|buf|, pos, |data|, i);
      assert order == rest + [i];
      if i < k {
        SlotsDiffer(|buf|, pos + i, pos + k);
      } else if k < i {
        SlotsDiffer(|buf|, pos + k, pos + i);
      }
    }
  }

  lemma SlotHit(size: nat, pos: nat, x: nat) returns (k: nat)
    requires size > 0 && pos <= size && x < size
    ensures k < size && Slot(size, pos + k) == x
  {
    k := if x >= pos then x - pos else x + size - pos;
    if x < pos {
      LapBack(size, x);
    }
  }

  /** Whatever the order in which the bytes of a transfer become visible, once all have, the buffer is what the
      sequential routine leaves behind. */
  lemma TransferIsWrite(buf: seq<byte>, pos: nat, data: seq<byte>, order: seq<nat>)
    requires |buf| > 0 && pos <= |buf| && |data| <= |buf|
    requires forall i :: 0 <= i < |order| ==> order[i] < |data|
    requires forall i :: 0 <= i < |data| ==> i in order
    ensures Transfer(buf, pos, data, order) == WriteFrags(buf, pos, data)
  {
    hide Slot, WriteFrags, Transfer;
    forall x | 0 <= x < |buf|
      ensures Transfer(buf, pos, data, order)[x] == WriteFrags(buf, pos, data)[x]
    {
      var k := SlotHit(|buf|, pos, x);
      TransferAt(buf, pos, data, order, k);
      WriteAt(buf, pos, data, k);
    }
  }

  // ---- the reader's loops ----

  function Min(a: int, b: int): int { if a <= b then a else b }

  /** read_log_key has parsed exactly the next published records, as many as the limit allows; the key read pointer
      is on the boundary behind them, and exit(0) was not reached. */
  ghost predicate KeysParsed(c: Config, s: State, h: Hist)
    requires c.size > 0 && s.reader.KeyTop?
  {
    var (t, pc) := KeyLoop(c, s.buf, s.tail, s.reader.pos, s.reader.num);
    var s' := s.(tail := t, reader := pc);
    && pc == ValueTop(0) && Sim(c, s', h)
    && Parsed(s', h) == Min(Published(s, h), Parsed(s,
        h) + (if s.reader.num < c.keyLimit then c.keyLimit - s.reader.num else 0))
  }

  lemma {:induction false} KeyLoopParsesAll(c: Config, s: State, h: Hist)
    requires Sim(c, s, h) && s.reader.KeyTop?
    ensures c.size > 0 && KeysParsed(c, s, h)
    decreases c.keyLimit - s.reader.num
  {
    hide Sim, Apply, Round, KeyLoop, KeysParsed;
    HeadSteps.StagesOrdered(c, s, h);
    if Apply(c, s, RKeyTop).reader.KeyParse? {
      KeyLoopGoesOn(c, s, h);
      KeyLoopParsesAll(c, Round(c, s), h);
      KeysParsedBefore(c, s, Round(c, s), h);
    } else {
      KeysExhausted(c, s, h);
    }
  }

  lemma KeysExhausted(c: Config, s: State, h: Hist)
    requires Sim(c, s, h) && s.reader.KeyTop? && !Apply(c, s, RKeyTop).reader.KeyParse?
    ensures c.size > 0 && KeysParsed(c, s, h)
  {
    hide Sim, DataSize, KeyLoop;
    HeadSteps.StagesOrdered(c, s, h);
    LoopEnds(c, s);
    TailSteps.KeysAhead(c, s, h);
    TailSteps.StepRKeyTop(c, s, h);
    ParsedBehind(c, s, h);
  }

  lemma LoopEnds(c: Config, s: State)
    requires c.size > 0 && s.reader.KeyTop? && !Apply(c, s, RKeyTop).reader.KeyParse?
    ensures var z := Apply(c, s, RKeyTop);
      KeyLoop(c, s.buf, s.tail, s.reader.pos, s.reader.num) == (z.tail, z.reader)
  {
    hide DataSize, Parse, KeyDirtyStep;
  }

  lemma KeyRound(c: Config, s: State, h: Hist)
    requires c.size > 0 && Sim(c, s, h) && s.reader.KeyTop? && Apply(c, s, RKeyTop).reader.KeyParse?
    ensures HasRoom(c, s.tail.pending) && Sim(c, Round(c, s), h)
  {
    hide Sim, DataSize, Parse, Next, LogKey, CStr, Wrap, KeyDirtyStep, HasRoom;
    TailSteps.StepRKeyTop(c, s, h);
    var s1 := Apply(c, s, RKeyTop);
    TailSteps.StepRKeyParse(c, s1, h);
    var s2 := Apply(c, s1, RKeyParse);
    TailSteps.StepRKeyDirty(c, s2, h);
  }

  lemma KeysParsedBefore(c: Config, s: State, s3: State, h: Hist)
    requires c.size > 0 && s.reader.KeyTop? && s3.reader.KeyTop? && KeysParsed(c, s3, h) && s.reader.num < c.keyLimit
    requires s3 == s.(tail := s3.tail, reader := s3.reader) && s3.reader.num == s.reader.num + 1
    requires s3.tail.executing == s.tail.executing && |s3.tail.pending| == |s.tail.pending| + 1
    requires KeyLoop(c, s.buf, s.tail, s.reader.pos, s.reader.num) == KeyLoop(c, s.buf, s3.tail, s3.reader.pos,
        s3.reader.num)
    ensures KeysParsed(c, s, h)
  {
    hide Sim, KeyLoop;
  }

  /** One round of read_log_key's loop is three steps of the reader. */
  lemma KeyLoopGoesOn(c: Config, s: State, h: Hist)
    requires Sim(c, s, h) && s.reader.KeyTop? && Apply(c, s, RKeyTop).reader.KeyParse?
    ensures s.reader.num < c.keyLimit
    ensures
      var s3 := Round(c, s);
      && s3 == s.(tail := s3.tail, reader := s3.reader) && s3.reader.KeyTop? && s3.reader.num == s.reader.num + 1
      && s3.tail.executing == s.tail.executing && |s3.tail.pending| == |s.tail.pending| + 1
      && KeyLoop(c, s.buf, s.tail, s.reader.pos, s.reader.num) == KeyLoop(c, s.buf, s3.tail, s3.reader.pos,
          s3.reader.num)
      && Sim(c, s3, h)
  {
    hide Sim, KeyLoop, Apply, Round;
    HeadSteps.StagesOrdered(c, s, h);
    KeyRound(c, s, h);
    RoundIs(c, s);
  }

  lemma RoundIs(c: Config, s: State)
    requires c.size > 0 && s.reader.KeyTop? && Apply(c, s, RKeyTop).reader.KeyParse? && HasRoom(c, s.tail.pending)
    ensures s.reader.num < c.keyLimit
    ensures
      var s3 := Round(c, s);
      && s3 == s.(tail := s3.tail, reader := s3.reader) && s3.reader.KeyTop? && s3.reader.num == s.reader.num + 1
      && s3.tail.executing == s.tail.executing && |s3.tail.pending| == |s.tail.pending| + 1
      && KeyLoop(c, s.buf, s.tail, s.reader.pos, s.reader.num) == KeyLoop(c, s.buf, s3.tail, s3.reader.pos,
          s3.reader.num)
  {
    hide Parse, Next, Wrap, LogKey, CStr, MarkDirty, DataSize;
  }

  function Round(c: Config, s: State): State
    requires c.size > 0 && s.reader.KeyTop? && Apply(c, s, RKeyTop).reader.KeyParse?
  {
    Apply(c, Apply(c, Apply(c, s, RKeyTop), RKeyParse), RKeyDirty)
  }

  lemma ParsedBehind(c: Config, s: State, h: Hist)
    requires Sim(c, s, h)
    ensures Parsed(s, h) <= Published(s, h)
  {
    hide ValuesFrom, LogsFrom, DirtyOk, SendingOk, RecsOk, QueuesFit, ValidConfig, BufferOk, NicOk, WriterOk,
         PointersOk, Slot, Start, ReaderOk;
  }

  /** read_log_value has moved complete values only, in order, and stopped at the limit, at the last parsed log, or
      at a log whose tag is still missing. */
  ghost predicate ValuesMoved(c: Config, s: State, h: Hist)
    requires c.size > 0 && s.reader.ValueTop?
  {
    var (t, pc) := ValueLoop(c, s.buf, s.tail, s.reader.num);
    var s' := s.(tail := t, reader := pc);
    && !pc.Halted? && Sim(c, s', h) && Parsed(s', h) == Parsed(s, h) && Valued(s', h) <= Done(s, h)
    && (pc.ValueTop? ==> t.pending != [] && !TagSet(c, s.buf, t.pending[0]))
  }

  lemma {:induction false} ValueLoopMovesComplete(c: Config, s: State, h: Hist)
    requires Sim(c, s, h) && s.reader.ValueTop?
    ensures c.size > 0 && ValuesMoved(c, s, h)
    decreases |s.tail.pending|
  {
    hide Sim, Apply, ValuesMoved, ValueLoop, TagSet, HasRoom;
    HeadSteps.StagesOrdered(c, s, h);
    TailSteps.StepRValueTop(c, s, h);
    if Apply(c, s, RValueTop).reader.ValueRead? {
      ValueRound(c, s);
      var s1 := Apply(c, s, RValueTop);
      TailSteps.StepRValueRead(c, s1, h);
      ValueRoundEnds(c, s);
      var s2 := Apply(c, s1, RValueRead);
      ValueLoopMovesComplete(c, s2, h);
      ValuesMovedBefore(c, s, s2, h);
    } else {
      ValuesStop(c, s, h);
    }
  }

  lemma ValuesStop(c: Config, s: State, h: Hist)
    requires Sim(c, s, h) && s.reader.ValueTop? && !Apply(c, s, RValueTop).reader.ValueRead?
    ensures c.size > 0 && ValuesMoved(c, s, h)
  {
    hide Sim, TagSet, ValueLoop;
    HeadSteps.StagesOrdered(c, s, h);
    TailSteps.StepRValueTop(c, s, h);
    ValueLoopRound(c, s.buf, s.tail, s.reader.num);
    ValueStops(c, s);
  }

  lemma ValueStops(c: Config, s: State)
    requires c.size > 0 && s.reader.ValueTop? && !Apply(c, s, RValueTop).reader.ValueRead?
    ensures ValueLoop(c, s.buf, s.tail, s.reader.num) == (s.tail, Apply(c, s, RValueTop).reader)
    ensures var pc := Apply(c, s, RValueTop).reader;
      pc.ValueTop? ==> s.tail.pending != [] && !TagSet(c, s.buf, s.tail.pending[0])
    ensures Apply(c, s, RValueTop) == s.(reader := Apply(c, s, RValueTop).reader)
    ensures var pc := Apply(c, s, RValueTop).reader; pc.ValueTop? || pc.KeyTop? || pc.Exec?
  {
    hide TagSet, ValueReadStep;
  }

  lemma ValueRound(c: Config, s: State)
    requires c.size > 0 && s.reader.ValueTop? && Apply(c, s, RValueTop).reader.ValueRead?
    ensures s.tail.pending != [] && Apply(c, s, RValueTop) == s.(reader := ValueRead(s.reader.num))
  {
    hide TagSet;
  }

  lemma ValueRoundEnds(c: Config, s: State)
    requires c.size > 0 && s.reader.ValueTop? && Apply(c, s, RValueTop).reader.ValueRead?
        && HasRoom(c, s.tail.executing)
    ensures s.tail.pending != []
    ensures
      var s2 := Apply(c, s.(reader := ValueRead(s.reader.num)), RValueRead);
      && s2 == s.(tail := s2.tail, reader := s2.reader) && s2.reader.ValueTop?
      && |s2.tail.executing| == |s.tail.executing| + 1 && |s2.tail.pending| == |s.tail.pending| - 1
      && ValueLoop(c, s.buf, s.tail, s.reader.num) == ValueLoop(c, s.buf, s2.tail, s2.reader.num)
  {
    hide TagSet, FieldRef, Wrap;
  }

  lemma ValuesMovedBefore(c: Config, s: State, s2: State, h: Hist)
    requires c.size > 0 && s.reader.ValueTop? && s2.reader.ValueTop? && ValuesMoved(c, s2, h)
    requires s2 == s.(tail := s2.tail, reader := s2.reader)
    requires |s2.tail.executing| == |s.tail.executing| + 1 && |s2.tail.pending| == |s.tail.pending| - 1
    requires ValueLoop(c, s.buf, s.tail, s.reader.num) == ValueLoop(c, s.buf, s2.tail, s2.reader.num)
    ensures ValuesMoved(c, s, h)
  {
    hide Sim, ValueLoop, TagSet;
  }
}
