/** The tail's steps keep the simulation. */
module TailSteps {
  import opened Bits
  import opened Ring
  import opened Layout
  import opened Replication
  import opened Simulation
  import opened HeadSteps

  // ---- what the reader finds in the ring ----

  /** The bytes of live record `i` from offset `o` on, once transferred, are what the ring holds there. */
  lemma WindowIs(buf: seq<byte>, recs: seq<Rec>, freed: nat, w: WriterPc, n: NicPc, done: int, taken: int,
                 i: nat, o: nat, l: nat)
    requires |buf| > 0 && BufferOk(buf, recs, freed, w, n, done, taken)
    requires freed <= i < |recs| && o + l <= Len(recs[i])
    requires forall j :: o <= j < o + l ==> Settled(recs, w, n, done, taken, i, j)
    ensures Window(buf, Slot(|buf|, Start(recs, i) + o), l) == Encode(recs[i])[o..o + l]
  {
    hide Slot, Start, Encode, Settled;
    var at := Slot(|buf|, Start(recs, i) + o);
    SlotIdem(|buf|, Start(recs, i) + o);
    forall k | 0 <= k < l
      ensures Window(buf, at, l)[k] == Encode(recs[i])[o..o + l][k]
    {
      assert ByteIs(buf, recs, i, o + k);
      SlotAdd(|buf|, at, Start(recs, i) + o, k);
    }
  }

  lemma PeekIsWindow(buf: seq<byte>, at: nat, l: nat)
    requires |buf| > 0 && at + l <= |buf|
    ensures Peek(buf, at, l) == Window(buf, at, l)
  {
    forall k | 0 <= k < l
      ensures Window(buf, at, l)[k] == Peek(buf, at, l)[k]
    {
      assert Slot(|buf|, at + k) == at + k;
    }
  }

  /** The guard of rb_read always passes for bytes of a published live record. */
  lemma DataAhead(c: Config, s: State, h: Hist, i: nat)
    requires Sim(c, s, h) && h.freed <= i < Published(s, h)
    ensures DataSize(c.size, s.tail.wr, s.tail.rd) == Start(h.recs, Published(s, h)) - Start(h.recs, h.freed)
    ensures Len(h.recs[i]) <= DataSize(c.size, s.tail.wr, s.tail.rd)
  {
    hide Sim, Slot, Len, Points, Wrap, IsPow2;
    PointersAre(c, s, h);
    StartMono(h.recs, h.freed, i);
    StartMono(h.recs, i + 1, Published(s, h));
    StartMono(h.recs, Published(s, h), |h.recs|);
    PointsSlot(c.size, Start(h.recs, h.freed));
    WrapDiff(c.size, s.tail.wr, s.tail.rd, Start(h.recs, Published(s, h)), Start(h.recs, h.freed));
  }

  /** A copy out of the ring, or an in-place look, of part of a published record. */
  lemma ReadsBack(c: Config, s: State, h: Hist, i: nat, o: nat, l: nat)
    requires Sim(c, s, h) && h.freed <= i < Published(s, h) && o + l <= Len(h.recs[i])
    requires forall j :: o <= j < o + l ==> Settled(h.recs, s.writer, s.nic, Done(s, h), Taken(s, h), i, j)
    ensures
      var at := Slot(c.size, Start(h.recs, i) + o);
      && RbCopy(c, s.buf, s.tail, at, l) == Encode(h.recs[i])[o..o + l]
      && (at + l <= c.size ==> Peek(s.buf, at, l) == Encode(h.recs[i])[o..o + l])
      && RefOk(c, FieldRef(c, s.buf, s.tail, at, l), Start(h.recs, i) + o, Encode(h.recs[i])[o..o + l])
  {
    hide ValuesFrom, LogsFrom, DirtyOk, SendingOk, NicOk, ReaderOk, WriterOk, RecsOk, QueuesFit, ValidConfig,
         BufferOk, Slot, Len, Start, Encode, Settled, PointersOk, ReadFrags, Peek, Window, DataSize;
    var at := Slot(c.size, Start(h.recs, i) + o);
    DataAhead(c, s, h, i);
    RecordFits(h.recs, h.freed, i);
    WindowIs(s.buf, h.recs, h.freed, s.writer, s.nic, Done(s, h), Taken(s, h), i, o, l);
    ReadFragsIsWindow(s.buf, at, l);
    if at + l <= c.size {
      PeekIsWindow(s.buf, at, l);
    }
  }

  lemma MateSettled(c: Config, s: State, h: Hist, i: nat, j: nat)
    requires Sim(c, s, h) && i < Published(s, h) && j < MateLen(h.recs[i])
    ensures Settled(h.recs, s.writer, s.nic, Done(s, h), Taken(s, h), i, j)
  {
    hide ValuesFrom, LogsFrom, DirtyOk, SendingOk, NicOk, ReaderOk, WriterOk, RecsOk, QueuesFit, ValidConfig,
         BufferOk, Slot, Start, PointersOk;
  }

  /** Layout of one record: the two lengths, the key and the value, at the offsets the macros give. */
  lemma RecordParts(c: Config, r: Rec)
    requires ValidRec(c, r) && c.header >= META
    ensures Encode(r)[0..META] == ToLE(KeyLen(r), 4) + ToLE(ValueLen(r), 4)
    ensures MateLen(r) == c.header + KeyLen(r)
    ensures Encode(r)[c.header..c.header + KeyLen(r)] == KeyBytes(r)
    ensures Encode(r)[MateLen(r)..MateLen(r) + ValueLen(r)] == ValueBytes(r)
  {
    hide NulFree;
    assert Encode(r) == (ToLE(KeyLen(r), 4) + ToLE(ValueLen(r), 4) + r.rest) + KeyBytes(r) + ValueBytes(r);
  }

  /** Reading the key of a parsed live log gives the key that was written. */
  lemma KeyRead(c: Config, s: State, h: Hist, i: nat, log: TailLog)
    requires Sim(c, s, h) && h.freed <= i < Published(s, h) && IsTailLog(c, h.recs, i, log)
    ensures CStr(LogKey(c, s.buf, log)) == h.recs[i].key
  {
    hide ValuesFrom, LogsFrom, DirtyOk, SendingOk, NicOk, ReaderOk, WriterOk, QueuesFit, OrderOk, PointersOk,
         BufferOk, Slot, Start, Encode, Settled, RbCopy, FieldRef, CStr, Peek;
    var r := h.recs[i];
    assert ValidRec(c, r);
    RecordParts(c, r);
    forall j | c.header <= j < c.header + KeyLen(r)
      ensures Settled(h.recs, s.writer, s.nic, Done(s, h), Taken(s, h), i, j)
    {
      MateSettled(c, s, h, i, j);
    }
    ReadsBack(c, s, h, i, c.header, KeyLen(r));
    CStrOf(r.key, []);
    assert KeyBytes(r) == r.key + [0] + [];
  }

  /** Reading the value of a log in executing_queue gives the value that was written, not a torn one. */
  lemma ValueRead(c: Config, s: State, h: Hist, i: nat, log: TailLog)
    requires Sim(c, s, h) && h.freed <= i < Done(s, h) && HasValue(c, h.recs, i, log)
    ensures CStr(LogValue(c, s.buf, log)) == Value(h.recs[i])
  {
    hide ValuesFrom, LogsFrom, DirtyOk, SendingOk, NicOk, ReaderOk, WriterOk, QueuesFit, PointersOk,
         BufferOk, Slot, Start, Encode, RbCopy, FieldRef, CStr, Peek;
    var r := h.recs[i];
    assert ValidRec(c, r);
    RecordParts(c, r);
    ReadsBack(c, s, h, i, MateLen(r), ValueLen(r));
  }

  // ---- read_log_key ----

  /** Framing: the byte count from the key read pointer to the published pointer is the exact length of the
      published records not yet parsed, so it is 0 or at least header + 3. */
  lemma KeysAhead(c: Config, s: State, h: Hist)
    requires Sim(c, s, h) && (s.reader.KeyTop? || s.reader.KeyParse?)
    ensures DataSize(c.size, s.tail.wr, s.reader.pos) == Start(h.recs, Published(s, h)) - Start(h.recs, Parsed(s, h))
    ensures Parsed(s, h) < Published(s, h) ==> DataSize(c.size, s.tail.wr, s.reader.pos) >= c.header + 3
  {
    hide Sim, Slot, Points, Wrap, IsPow2, ValidRec, Len, Start;
    PointersAre(c, s, h);
    StagesOrdered(c, s, h);
    ReaderAt(c, s, h);
    var p, q := Parsed(s, h), Published(s, h);
    StartMono(h.recs, h.freed, p);
    StartMono(h.recs, p, q);
    StartMono(h.recs, q, |h.recs|);
    PointsSlot(c.size, Start(h.recs, p));
    WrapDiff(c.size, s.tail.wr, s.reader.pos, Start(h.recs, q), Start(h.recs, p));
    if p < q {
      RecordAt(c, s, h, p);
      RecordFits(h.recs, p, p);
      StartMono(h.recs, p + 1, q);
    }
  }

  /** The key read pointer is on the boundary of the first record not yet parsed. */
  lemma ReaderAt(c: Config, s: State, h: Hist)
    requires Sim(c, s, h) && (s.reader.KeyTop? || s.reader.KeyParse?)
    ensures 0 <= Parsed(s, h) <= |h.recs| && c.size > 0 && s.reader.pos == Slot(c.size, Start(h.recs, Parsed(s, h)))
  {
    hide ValuesFrom, LogsFrom, DirtyOk, SendingOk, NicOk, WriterOk, QueuesFit, BufferOk, Slot, NulFree, RecsOk,
         QueuesOk, PointersOk, Start, IsPow2, Pow256;
  }

  lemma RecordAt(c: Config, s: State, h: Hist, i: nat)
    requires Sim(c, s, h) && i < |h.recs|
    ensures ValidConfig(c) && ValidRec(c, h.recs[i]) && Len(h.recs[i]) >= c.header + 3
    ensures MateLen(h.recs[i]) == c.header + KeyLen(h.recs[i])
  {
    hide ValuesFrom, LogsFrom, DirtyOk, SendingOk, NicOk, WriterOk, QueuesFit, BufferOk, Slot, NulFree, QueuesOk,
         PointersOk, Start, IsPow2, Pow256, ReaderOk, OrderOk;
    assert ValidRec(c, h.recs[i]);
  }

  lemma StepRKeyTop(c: Config, s: State, h: Hist)
    requires Sim(c, s, h) && Enabled(c, s, RKeyTop)
    ensures Sim(c, Apply(c, s, RKeyTop), h)
  {
    hide ValuesFrom, LogsFrom, DirtyOk, SendingOk, NicOk, WriterOk, RecsOk, QueuesFit, BufferOk, Slot, Start, DataSize;
    KeysAhead(c, s, h);
  }

  /** Parsing at the key read pointer yields the next published record, with its true lengths and key. */
  lemma ParseIs(c: Config, s: State, h: Hist)
    requires Sim(c, s, h) && s.reader.KeyParse?
    ensures IsTailLog(c, h.recs, Parsed(s, h), Parse(c, s.buf, s.tail, s.reader.pos))
    ensures Wrap(c.size, s.reader.pos + Next(c, Parse(c, s.buf, s.tail, s.reader.pos)))
         == Slot(c.size, Start(h.recs, Parsed(s, h) + 1))
  {
    hide Sim, Slot, Start, Encode, Settled, RbCopy, FieldRef, FromLE, ToLE, NulFree, Wrap, Points, IsPow2, Done, Taken;
    PointersAre(c, s, h);
    StagesOrdered(c, s, h);
    ReaderAt(c, s, h);
    var i := Parsed(s, h);
    var r, u := h.recs[i], Start(h.recs, i);
    RecordAt(c, s, h, i);
    RecordParts(c, r);
    forall j | 0 <= j < MateLen(r)
      ensures Settled(h.recs, s.writer, s.nic, Done(s, h), Taken(s, h), i, j)
    {
      MateSettled(c, s, h, i, j);
    }
    ReadsBack(c, s, h, i, 0, META);
    ReadsBack(c, s, h, i, c.header, KeyLen(r));
    RecordFits(h.recs, h.freed, i);
    LERoundTrip(KeyLen(r), 4);
    LERoundTrip(ValueLen(r), 4);
    var meta := RbCopy(c, s.buf, s.tail, s.reader.pos, META);
    assert meta[..4] == ToLE(KeyLen(r), 4) && meta[4..] == ToLE(ValueLen(r), 4);
    PointsSlot(c.size, u);
    WrapAdd(c.size, s.reader.pos, u, c.header);
    WrapAdd(c.size, s.reader.pos, u, Len(r));
  }

  lemma StepRKeyParse(c: Config, s: State, h: Hist)
    requires Sim(c, s, h) && Enabled(c, s, RKeyParse)
    ensures Sim(c, Apply(c, s, RKeyParse), h)
  {
    hide ValuesFrom, LogsFrom, DirtyOk, SendingOk, NicOk, WriterOk, RecsOk, QueuesFit, ValidConfig, BufferOk,
         Slot, Start, IsTailLog, Parse, Wrap, Next;
    ParseIs(c, s, h);
  }

  lemma MarkIs(recs: seq<Rec>, lo: int, hi: int, dirty: map<Str, nat>)
    requires 0 <= lo <= hi < |recs| && DirtyOk(recs, lo, hi, dirty)
    ensures DirtyOk(recs, lo, hi + 1, MarkDirty(dirty, recs[hi].key))
  {
    var dirty' := MarkDirty(dirty, recs[hi].key);
    forall k
      ensures k in dirty' ==> dirty'[k] == CountKey(recs, lo, hi + 1, k) > 0
      ensures k !in dirty' ==> CountKey(recs, lo, hi + 1, k) == 0
    {
      assert CountKey(recs, lo, hi + 1, k) == CountKey(recs, lo, hi, k) + (if recs[hi].key == k then 1 else 0);
    }
  }

  lemma StepRKeyDirty(c: Config, s: State, h: Hist)
    requires Sim(c, s, h) && Enabled(c, s, RKeyDirty)
    ensures HasRoom(c, s.tail.dirtyQ) && HasRoom(c, s.tail.pending)
    ensures Sim(c, Apply(c, s, RKeyDirty), h)
  {
    hide DirtyOk, SendingOk, NicOk, WriterOk, RecsOk, QueuesFit, ValidConfig, BufferOk,
         Slot, Start, IsTailLog, LogKey, CStr, MarkDirty, ValuesFrom;
    KeyRead(c, s, h, Parsed(s, h), s.reader.log);
    MarkIs(h.recs, Cleaned(s, h), Parsed(s, h), s.tail.dirty);
    LiveFit(c, s, h);
  }

  // ---- read_log_value ----

  /** A set tag means the whole value is there. */
  lemma TagMeansDone(c: Config, s: State, h: Hist)
    requires Sim(c, s, h) && s.tail.pending != []
    ensures TagSet(c, s.buf, s.tail.pending[0]) ==> Valued(s, h) < Done(s, h)
  {
    hide ValuesFrom, DirtyOk, SendingOk, NicOk, WriterOk, QueuesFit, PointersOk, ReaderOk, RefOk, NulFree, Slot;
    var i := Valued(s, h);
    var log := s.tail.pending[0];
    assert IsTailLog(c, h.recs, i + 0, log);
    assert ValidRec(c, h.recs[i]);
    assert Done(s, h) <= i ==> TagClear(s.buf, h.recs, i);
    SlotIdem(c.size, Start(h.recs, i));
    PointsSlot(c.size, Start(h.recs, i));
    WrapAdd(c.size, log.pos, Start(h.recs, i), Len(h.recs[i]) - 1);
  }

  lemma StepRValueTop(c: Config, s: State, h: Hist)
    requires Sim(c, s, h) && Enabled(c, s, RValueTop)
    ensures Sim(c, Apply(c, s, RValueTop), h)
  {
    hide ValuesFrom, LogsFrom, DirtyOk, SendingOk, NicOk, WriterOk, RecsOk, QueuesFit, ValidConfig, BufferOk,
         Slot, Start, TagSet;
    if s.tail.pending != [] {
      TagMeansDone(c, s, h);
    }
  }

  lemma ValueRefIs(c: Config, s: State, h: Hist)
    requires Sim(c, s, h) && s.reader.ValueRead? && s.tail.pending != []
    ensures
      var log := s.tail.pending[0];
      var at := Wrap(c.size, log.pos + c.header + log.klen);
      HasValue(c, h.recs, Valued(s, h), log.(value := FieldRef(c, s.buf, s.tail, at, log.vlen)))
  {
    hide ValuesFrom, DirtyOk, SendingOk, NicOk, WriterOk, QueuesFit, PointersOk, BufferOk,
         Slot, Encode, RbCopy, FieldRef, NulFree, Wrap, Start, Mate, IsPow2;
    var i := Valued(s, h);
    var r, u, log := h.recs[i], Start(h.recs, i), s.tail.pending[0];
    assert IsTailLog(c, h.recs, i + 0, log);
    assert ValidRec(c, r);
    RecordParts(c, r);
    ReadsBack(c, s, h, i, MateLen(r), ValueLen(r));
    PointsSlot(c.size, u);
    WrapAdd(c.size, log.pos, u, c.header + log.klen);
  }

  lemma StepRValueRead(c: Config, s: State, h: Hist)
    requires Sim(c, s, h) && Enabled(c, s, RValueRead)
    ensures HasRoom(c, s.tail.executing)
    ensures Sim(c, Apply(c, s, RValueRead), h)
  {
    hide DirtyOk, SendingOk, NicOk, WriterOk, RecsOk, QueuesFit, ValidConfig, BufferOk,
         Slot, Start, IsTailLog, HasValue, FieldRef, Wrap;
    ValueRefIs(c, s, h);
    LiveFit(c, s, h);
    ShiftValues(c, s, h);
  }

  /** Moving the head of value_peeding_queue to the end of executing_queue. */
  lemma ShiftValues(c: Config, s: State, h: Hist)
    requires c.size > 0 && s.tail.pending != []
    requires LogsFrom(c, h.recs, Valued(s, h), s.tail.pending)
    ensures LogsFrom(c, h.recs, Valued(s, h) + 1, s.tail.pending[1..])
  {
    hide IsTailLog;
    forall k | 0 <= k < |s.tail.pending[1..]|
      ensures IsTailLog(c, h.recs, Valued(s, h) + 1 + k, s.tail.pending[1..][k])
    {
      assert IsTailLog(c, h.recs, Valued(s, h) + (k + 1), s.tail.pending[k + 1]);
    }
  }

  // ---- execute, clean, free ----

  lemma StepRExec(c: Config, s: State, h: Hist)
    requires Sim(c, s, h) && Enabled(c, s, RExec)
    ensures Sim(c, Apply(c, s, RExec), h)
  {
    hide DirtyOk, SendingOk, NicOk, WriterOk, RecsOk, QueuesFit, ValidConfig, BufferOk,
         Slot, Start, IsTailLog, HasValue, LogsFrom;
    if s.tail.executing != [] {
      ShiftExecuting(c, h.recs, h.freed, s.tail.executing);
    }
  }

  lemma ShiftExecuting(c: Config, recs: seq<Rec>, first: int, logs: seq<TailLog>)
    requires c.size > 0 && logs != []
    ensures ValuesFrom(c, recs, first, logs) ==> ValuesFrom(c, recs, first + 1, logs[1..])
    ensures LogsFrom(c, recs, first, logs) ==> LogsFrom(c, recs, first + 1, logs[1..])
  {
    hide IsTailLog, HasValue;
    forall k | 0 <= k < |logs[1..]|
      ensures ValuesFrom(c, recs, first, logs) ==> HasValue(c, recs, first + 1 + k, logs[1..][k])
      ensures LogsFrom(c, recs, first, logs) ==> IsTailLog(c, recs, first + 1 + k, logs[1..][k])
    {
      assert ValuesFrom(c, recs, first, logs) ==> HasValue(c, recs, first + (k + 1), logs[k + 1]);
      assert LogsFrom(c, recs, first, logs) ==> IsTailLog(c, recs, first + (k + 1), logs[k + 1]);
    }
  }

  lemma {:induction false} CountFirst(recs: seq<Rec>, lo: int, hi: int, k: Str)
    requires 0 <= lo < hi <= |recs|
    ensures CountKey(recs, lo, hi, k) == CountKey(recs, lo + 1, hi, k) + (if recs[lo].key == k then 1 else 0)
    decreases hi
  {
    if lo + 1 < hi {
      CountFirst(recs, lo, hi - 1, k);
    }
  }

  lemma UnmarkIs(recs: seq<Rec>, lo: int, hi: int, dirty: map<Str, nat>)
    requires 0 <= lo < hi <= |recs| && DirtyOk(recs, lo, hi, dirty)
    ensures recs[lo].key in dirty
    ensures DirtyOk(recs, lo + 1, hi, UnmarkDirty(dirty, recs[lo].key))
  {
    var k0 := recs[lo].key;
    CountFirst(recs, lo, hi, k0);
    assert k0 in dirty;
    var dirty' := UnmarkDirty(dirty, k0);
    forall k
      ensures k in dirty' ==> dirty'[k] == CountKey(recs, lo + 1, hi, k) > 0
      ensures k !in dirty' ==> CountKey(recs, lo + 1, hi, k) == 0
    {
      CountFirst(recs, lo, hi, k);
    }
  }

  lemma StepRClean(c: Config, s: State, h: Hist)
    requires Sim(c, s, h) && Enabled(c, s, RClean)
    ensures Apply(c, s, RClean).reader.Free?
    ensures Sim(c, Apply(c, s, RClean), h)
  {
    hide DirtyOk, SendingOk, NicOk, WriterOk, RecsOk, QueuesFit, ValidConfig, BufferOk,
         Slot, Start, IsTailLog, HasValue, ValuesFrom, LogKey, CStr, UnmarkDirty;
    var log := s.tail.dirtyQ[0];
    assert IsTailLog(c, h.recs, h.freed + 0, log);
    KeyRead(c, s, h, h.freed, log);
    UnmarkIs(h.recs, h.freed, Parsed(s, h), s.tail.dirty);
    ShiftExecuting(c, h.recs, h.freed, s.tail.dirtyQ);
  }

  /** Freeing a log moves the read pointer to the start of the next record. */
  lemma NextIs(c: Config, s: State, h: Hist)
    requires Sim(c, s, h) && s.reader.Free?
    ensures Wrap(c.size, s.tail.rd + Next(c, s.reader.log)) == Slot(c.size, Start(h.recs, h.freed + 1))
  {
    hide ValuesFrom, LogsFrom, DirtyOk, SendingOk, NicOk, QueuesFit, BufferOk, WriterOk, Slot, Wrap, RefOk, NulFree;
    assert ValidRec(c, h.recs[h.freed]);
    PointsSlot(c.size, Start(h.recs, h.freed));
    WrapAdd(c.size, s.tail.rd, Start(h.recs, h.freed), Len(h.recs[h.freed]));
  }

  lemma StepRFree(c: Config, s: State, h: Hist)
    requires Sim(c, s, h) && Enabled(c, s, RFree)
    ensures Sim(c, Apply(c, s, RFree), h.(freed := h.freed + 1))
  {
    hide ValuesFrom, LogsFrom, DirtyOk, SendingOk, NicOk, RecsOk, QueuesFit, ValidConfig, BufferOk,
         Slot, Start, Wrap, Next, Len, Points;
    var s', h' := Apply(c, s, RFree), h.(freed := h.freed + 1);
    RecordFits(h.recs, h.freed, h.freed);
    NextIs(c, s, h);
    BufferWeaken(s.buf, h.recs, h.freed, s.writer, s.nic, Done(s, h), Taken(s, h),
                 h'.freed, s.writer, s.nic, Done(s, h), Taken(s, h));
  }
}
