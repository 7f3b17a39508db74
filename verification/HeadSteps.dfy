/** The head's steps keep the simulation. */
module HeadSteps {
  import opened Bits
  import opened Ring
  import opened Layout
  import opened Replication
  import opened Simulation

  lemma SimInit(c: Config, s: State)
    requires ValidConfig(c) && QueuesFit(c) && Init(c, s)
    ensures Sim(c, s, Hist([], 0, 0))
  {
    var k: nat :| c.size == Pow2(k);
  }

  /** The order of the stages, out of the simulation. */
  lemma StagesOrdered(c: Config, s: State, h: Hist)
    requires Sim(c, s, h)
    ensures c.size > 0 && c.header >= META && h.freed <= ExecutedN(s, h) <= Valued(s, h) <= Done(s, h)
    ensures Done(s, h) <= Taken(s, h) <= Queued(s, h) <= Published(s, h) <= |h.recs| && Seen(s, h) <= Published(s, h)
    ensures s.reader.KeyParse? ==> Parsed(s, h) < Published(s, h)
  {
    hide ValuesFrom, LogsFrom, DirtyOk, SendingOk, RecsOk, QueuesFit, BufferOk, NicOk, WriterOk, PointersOk, Slot,
         Start, QueuesOk, IsTailLog, Pow256;
  }

  /** What the stored pointers stand for, out of the simulation. */
  lemma PointersAre(c: Config, s: State, h: Hist)
    requires Sim(c, s, h)
    ensures IsPow2(c.size) && c.size > 0 && |s.buf| == c.size && h.freed <= |h.recs|
    ensures Start(h.recs, |h.recs|) - Start(h.recs, h.freed) < c.size
    ensures s.tail.rd == Slot(c.size, Start(h.recs, h.freed))
    ensures 0 <= Local(s, h) <= |h.recs| && Points(c.size, s.wr, Start(h.recs, Local(s, h)))
    ensures 0 <= Published(s, h) <= |h.recs| && Points(c.size, s.tail.wr, Start(h.recs, Published(s, h)))
  {
    hide ValuesFrom, LogsFrom, DirtyOk, SendingOk, RecsOk, QueuesFit, BufferOk, NicOk, WriterOk, Slot, Start,
         QueuesOk, IsTailLog, IsPow2, Pow256, Points, ReaderOk;
  }

  /** The space check is exact: what it computes from two wrapped pointers is the true free space. */
  lemma FreeSizeIsExact(c: Config, s: State, h: Hist)
    requires Sim(c, s, h) && (s.writer.WIdle? || s.writer.WChecked?)
    ensures FreeSize(c.size, s.wr, s.tail.rd) == c.size - 1 - (Start(h.recs, |h.recs|) - Start(h.recs, h.freed))
  {
    hide Sim, Slot, Start, Points, Wrap, IsPow2;
    PointersAre(c, s, h);
    StartMono(h.recs, h.freed, |h.recs|);
    PointsSlot(c.size, Start(h.recs, h.freed));
    WrapDiff(c.size, s.wr, s.tail.rd, Start(h.recs, |h.recs|), Start(h.recs, h.freed));
  }

  /** ReaderOk looks at the reader's own state, at the records, and at two stage counters that only grow. */
  lemma SameReader(c: Config, s: State, h: Hist, s': State, h': Hist)
    requires OrderOk(c, s, h) && OrderOk(c, s', h') && ReaderOk(c, s, h)
    requires s'.reader == s.reader && s'.tail == s.tail.(wr := s'.tail.wr) && h' == h.(cached := h'.cached)
    requires Published(s', h') >= Published(s, h) && Done(s', h') >= Done(s, h)
    ensures ReaderOk(c, s', h')
  {
    hide IsTailLog, Slot;
  }

  lemma StepWBegin(c: Config, s: State, h: Hist, rec: Rec)
    requires Sim(c, s, h) && Enabled(c, s, WBegin(rec))
    ensures Sim(c, Apply(c, s, WBegin(rec)), h.(cached := h.freed))
  {
    hide ValuesFrom, LogsFrom, DirtyOk, SendingOk, NicOk, ReaderOk, RecsOk, QueuesFit, ValidConfig, Slot, BufferOk,
         FreeSize, ValidRec, Start, Len;
    FreeSizeIsExact(c, s, h);
    PointsSlot(c.size, Start(h.recs, h.freed));
    BufferWeaken(s.buf, h.recs, h.freed, s.writer, s.nic, Done(s, h), Taken(s, h),
                 h.freed, WChecked(rec), s.nic, Done(s, h), Taken(s, h));
    SameReader(c, s, h, Apply(c, s, WBegin(rec)), h.(cached := h.freed));
  }

  /** The byte invariant only weakens when records are freed or nothing more counts as transferred. */
  lemma BufferWeaken(buf: seq<byte>, recs: seq<Rec>, freed: nat, w: WriterPc, n: NicPc, done: int, taken: int,
                     freed': nat, w': WriterPc, n': NicPc, done': int, taken': int)
    requires |buf| > 0 && BufferOk(buf, recs, freed, w, n, done, taken)
    requires freed' >= freed && done' >= done
    requires forall i, j :: freed' <= i < |recs| && 0 <= j < Len(recs[i]) && Settled(recs, w', n', done', taken', i, j)
               ==> Settled(recs, w, n, done, taken, i, j)
    ensures BufferOk(buf, recs, freed', w', n', done', taken')
  {
  }

  /** The second check never refuses what the first one let in: the tail only frees. */
  lemma RecheckPasses(c: Config, s: State, h: Hist)
    requires Sim(c, s, h) && s.writer.WChecked?
    ensures Reserves(c, s)
  {
    hide ValuesFrom, LogsFrom, DirtyOk, SendingOk, RecsOk, BufferOk, QueuesFit, ValidConfig, ReaderOk, NicOk;
    FreeSizeIsExact(c, s, h);
  }

  // ---- appending a record moves no earlier one ----

  lemma {:induction false} CountPrefix(recs: seq<Rec>, r: Rec, lo: int, hi: int, k: Str)
    requires 0 <= lo && hi <= |recs|
    ensures CountKey(recs + [r], lo, hi, k) == CountKey(recs, lo, hi, k)
    decreases hi - lo
  {
    if lo < hi {
      CountPrefix(recs, r, lo, hi - 1, k);
    }
  }

  lemma ExtendRecs(c: Config, recs: seq<Rec>, r: Rec)
    requires RecsOk(c, recs) && ValidRec(c, r)
    ensures RecsOk(c, recs + [r])
  {
    forall i | 0 <= i < |recs + [r]|
      ensures ValidRec(c, (recs + [r])[i])
    {
      assert i < |recs| ==> ValidRec(c, recs[i]);
    }
  }

  lemma ExtendDirty(recs: seq<Rec>, r: Rec, lo: int, hi: int, dirty: map<Str, nat>)
    requires 0 <= lo && hi <= |recs| && DirtyOk(recs, lo, hi, dirty)
    ensures DirtyOk(recs + [r], lo, hi, dirty)
  {
    forall k
      ensures CountKey(recs + [r], lo, hi, k) == CountKey(recs, lo, hi, k)
    {
      CountPrefix(recs, r, lo, hi, k);
    }
  }

  lemma ExtendLogs(c: Config, recs: seq<Rec>, r: Rec, first: int, logs: seq<TailLog>)
    requires c.size > 0
    ensures LogsFrom(c, recs, first, logs) ==> LogsFrom(c, recs + [r], first, logs)
    ensures ValuesFrom(c, recs, first, logs) ==> ValuesFrom(c, recs + [r], first, logs)
  {
    forall k | 0 <= k < |logs| && 0 <= first + k < |recs|
      ensures IsTailLog(c, recs, first + k, logs[k]) ==> IsTailLog(c, recs + [r], first + k, logs[k])
      ensures HasValue(c, recs, first + k, logs[k]) ==> HasValue(c, recs + [r], first + k, logs[k])
    {
      StartPrefix(recs, r, first + k);
    }
  }

  lemma ExtendHead(c: Config, recs: seq<Rec>, r: Rec, taken: int, sending: seq<HeadLog>, nic: NicPc)
    requires c.size > 0
    ensures SendingOk(c, recs, taken, sending) ==> SendingOk(c, recs + [r], taken, sending)
    ensures NicOk(c, recs, taken, nic) ==> NicOk(c, recs + [r], taken, nic)
  {
    forall k | 0 <= k < |sending| && 0 <= taken + k < |recs|
      ensures IsHeadLog(c, recs, taken + k, sending[k]) ==> IsHeadLog(c, recs + [r], taken + k, sending[k])
    {
      StartPrefix(recs, r, taken + k);
    }
    if 0 <= taken - 1 < |recs| {
      StartPrefix(recs, r, taken - 1);
    }
  }

  /** A fresh reservation: nothing of the new record is transferred, and its tag slot is clear. */
  lemma ExtendBuffer(buf: seq<byte>, recs: seq<Rec>, r: Rec, freed: nat, writer: WriterPc, log: HeadLog, nic: NicPc,
                     done: int, taken: int)
    requires |buf| > 0 && BufferOk(buf, recs, freed, writer, nic, done, taken)
    requires done <= taken <= |recs| && !writer.WWriting?
    requires buf[Slot(|buf|, Start(recs, |recs|) + Len(r) - 1)] != TAG
    ensures BufferOk(buf, recs + [r], freed, WWriting(log, {}), nic, done, taken)
  {
    hide ByteIs, TagClear, Slot, Start, Len, MateLen;
    var recs', w := recs + [r], WWriting(log, {});
    forall i, j | freed <= i < |recs'| && 0 <= j < Len(recs'[i]) && Settled(recs', w, nic, done, taken, i, j)
      ensures ByteIs(buf, recs', i, j)
    {
      assert i < |recs|;
      SameRecord(buf, recs, r, i, j);
      assert Settled(recs, writer, nic, done, taken, i, j);
      assert ByteIs(buf, recs, i, j);
    }
    forall i | freed <= i < |recs'| && done <= i
      ensures TagClear(buf, recs', i)
    {
      if i < |recs| {
        SameTag(buf, recs, r, i);
        assert TagClear(buf, recs, i);
      } else {
        NewTag(buf, recs, r);
      }
    }
  }

  lemma SameRecord(buf: seq<byte>, recs: seq<Rec>, r: Rec, i: nat, j: nat)
    requires |buf| > 0 && i < |recs| && j < Len(recs[i])
    ensures (recs + [r])[i] == recs[i]
    ensures ByteIs(buf, recs + [r], i, j) == ByteIs(buf, recs, i, j)
  {
    hide Slot, Start, Encode;
    StartPrefix(recs, r, i);
  }

  lemma SameTag(buf: seq<byte>, recs: seq<Rec>, r: Rec, i: nat)
    requires |buf| > 0 && i < |recs|
    ensures TagClear(buf, recs + [r], i) == TagClear(buf, recs, i)
  {
    hide Slot, Start;
    StartPrefix(recs, r, i);
  }

  lemma NewTag(buf: seq<byte>, recs: seq<Rec>, r: Rec)
    requires |buf| > 0 && buf[Slot(|buf|, Start(recs, |recs|) + Len(r) - 1)] != TAG
    ensures TagClear(buf, recs + [r], |recs|)
  {
    hide Slot, Start;
    StartPrefix(recs, r, |recs|);
  }

  lemma ExtendReader(c: Config, s: State, h: Hist, s': State, h': Hist, r: Rec)
    requires OrderOk(c, s, h) && OrderOk(c, s', h') && ReaderOk(c, s, h)
    requires s'.reader == s.reader && s'.tail == s.tail && h'.recs == h.recs + [r] && h'.freed == h.freed
    requires Published(s', h') == Published(s, h) == |h.recs| && Done(s', h') == Done(s, h)
    ensures ReaderOk(c, s', h')
  {
    hide Slot, Start, RefOk, KeyLen, ValueLen, KeyBytes;
    StartPrefix(h.recs, r, Seen(s, h));
    StartPrefix(h.recs, r, Parsed(s, h));
    StartPrefix(h.recs, r, h.freed);
  }

  /** The tag slot that the hypothesis speaks of is the slot of the record's last byte. */
  lemma HygieneAt(c: Config, s: State, h: Hist)
    requires Sim(c, s, h) && Enabled(c, s, WRecheck) && HygienicStep(c, s, WRecheck)
    ensures s.buf[Slot(c.size, Start(h.recs, |h.recs|) + Len(s.writer.rec) - 1)] != TAG
  {
    hide ValuesFrom, LogsFrom, DirtyOk, SendingOk, NicOk, ReaderOk, RecsOk, QueuesFit, Slot, BufferOk, Start, FreeSize;
    RecheckPasses(c, s, h);
    WrapAdd(c.size, s.wr, Start(h.recs, |h.recs|), Len(s.writer.rec) - 1);
  }

  lemma StartNext(recs: seq<Rec>, r: Rec)
    ensures Start(recs + [r], |recs|) == Start(recs, |recs|)
    ensures Start(recs + [r], |recs| + 1) == Start(recs, |recs|) + Len(r)
  {
    StartPrefix(recs, r, |recs|);
  }

  lemma StepWRecheck(c: Config, s: State, h: Hist)
    requires Sim(c, s, h) && Enabled(c, s, WRecheck) && HygienicStep(c, s, WRecheck)
    ensures Sim(c, Apply(c, s, WRecheck), Hist(h.recs + [s.writer.rec], h.freed, h.freed))
  {
    hide ValuesFrom, LogsFrom, DirtyOk, SendingOk, NicOk, ReaderOk, QueuesFit, ValidConfig, Slot, BufferOk,
         ValidRec, RecsOk, FreeSize, CountKey, HygienicStep, Points, IsTailLog, Reserves, TagLast, MateLen, Start, Len;
    RecheckPasses(c, s, h);
    HygieneAt(c, s, h);
    var n, rec := |h.recs|, s.writer.rec;
    var s', h' := Apply(c, s, WRecheck), Hist(h.recs + [rec], h.freed, h.freed);
    StartNext(h.recs, rec);
    StartPrefix(h.recs, rec, h.freed);
    ExtendDirty(h.recs, rec, Cleaned(s, h), Parsed(s, h), s.tail.dirty);
    ExtendLogs(c, h.recs, rec, ExecutedN(s, h), s.tail.executing);
    ExtendLogs(c, h.recs, rec, Valued(s, h), s.tail.pending);
    ExtendLogs(c, h.recs, rec, Cleaned(s, h), s.tail.dirtyQ);
    ExtendHead(c, h.recs, rec, Taken(s, h), s.sending, s.nic);
    ExtendBuffer(s.buf, h.recs, rec, h.freed, s.writer, HeadLog(rec, s.wr), s.nic, Done(s, h), Taken(s, h));
    ExtendReader(c, s, h, s', h', rec);
    PointsSlot(c.size, Start(h.recs, h.freed));
    ExtendRecs(c, h.recs, rec);
  }

  // ---- transferring a byte ----

  lemma MateByte(c: Config, s: State, i: nat)
    requires c.size > 0 && Enabled(c, s, WByte(i))
    ensures var log := s.writer.log;
      && s.writer.WWriting? && log.pos <= c.size && i < MateLen(log.rec)
      && Apply(c, s, WByte(i)).buf == Poke(s.buf, FragAddr(c.size, log.pos, MateLen(log.rec), i), Mate(log.rec)[i])
  {
    hide Poke, FragAddr, Mate, FragLeft;
  }

  lemma ValueByte(c: Config, s: State, i: nat)
    requires c.size > 0 && Enabled(c, s, NByte(i))
    ensures var log := s.nic.log;
      && s.nic.NWriting? && i < ValueLen(log.rec)
      && Apply(c, s, NByte(i)).buf
           == Poke(s.buf, FragAddr(c.size, ValuePos(c, log), ValueLen(log.rec), i), ValueBytes(log.rec)[i])
  {
    hide Poke, FragAddr, ValueBytes, FragLeft;
  }

  lemma MateInRecord(r: Rec)
    ensures Len(r) == MateLen(r) + ValueLen(r)
  {
  }

  /** Writing byte `j` of live record `i` leaves every other live byte alone. */
  lemma PokeFrame(recs: seq<Rec>, freed: nat, buf: seq<byte>, i: nat, j: nat, b: byte, i': nat, j': nat)
    requires |buf| > 0 && freed <= |recs| && Start(recs, |recs|) - Start(recs, freed) < |buf|
    requires freed <= i < |recs| && j < Len(recs[i]) && freed <= i' < |recs| && j' < Len(recs[i'])
    ensures
      var buf' := Poke(buf, Slot(|buf|, Start(recs, i) + j), b);
      |buf'| == |buf| && buf'[Slot(|buf|, Start(recs, i') + j')]
        == if (i, j) == (i', j') then b else buf[Slot(|buf|, Start(recs, i') + j')]
  {
    hide Slot, Start;
    if (i, j) != (i', j') {
      SlotsApart(|buf|, recs, freed, i, j, i', j');
    }
  }

  /** Transferring byte `j` of live record `i` with its right content keeps the byte invariant. */
  lemma PokeBytes(buf: seq<byte>, recs: seq<Rec>, freed: nat, i: nat, j: nat,
                  w: WriterPc, n: NicPc, done: int, taken: int, w': WriterPc, n': NicPc, done': int)
    requires |buf| > 0 && freed <= |recs| && Start(recs, |recs|) - Start(recs, freed) < |buf|
    requires BufferOk(buf, recs, freed, w, n, done, taken)
    requires freed <= i < |recs| && j < Len(recs[i])
    requires forall i', j' ::
      freed <= i' < |recs| && 0 <= j' < Len(recs[i']) && Settled(recs, w', n', done', taken, i', j')
      ==> Settled(recs, w, n, done, taken, i', j') || (i', j') == (i, j)
    requires done' >= done && (done' > i || j != Len(recs[i]) - 1)
    ensures BufferOk(Poke(buf, Slot(|buf|, Start(recs, i) + j), Encode(recs[i])[j]), recs, freed, w', n', done', taken)
  {
    hide Slot, Start, Encode, Poke, Settled;
    var b := Encode(recs[i])[j];
    var buf' := Poke(buf, Slot(|buf|, Start(recs, i) + j), b);
    forall i', j' | freed <= i' < |recs| && 0 <= j' < Len(recs[i']) && Settled(recs, w', n', done', taken, i', j')
      ensures ByteIs(buf', recs, i', j')
    {
      PokeFrame(recs, freed, buf, i, j, b, i', j');
      if (i', j') != (i, j) {
        assert ByteIs(buf, recs, i', j');
      }
    }
    forall i' | freed <= i' < |recs| && done' <= i'
      ensures TagClear(buf', recs, i')
    {
      PokeFrame(recs, freed, buf, i, j, b, i', Len(recs[i']) - 1);
      assert TagClear(buf, recs, i');
    }
  }

  lemma RecordFits(recs: seq<Rec>, freed: nat, i: nat)
    requires freed <= i < |recs|
    ensures Start(recs, i + 1) == Start(recs, i) + Len(recs[i])
    ensures Start(recs, freed) <= Start(recs, i) && Start(recs, i + 1) <= Start(recs, |recs|)
  {
    StartMono(recs, freed, i);
    StartMono(recs, i + 1, |recs|);
  }

  /** The slot the writer stores byte `j` of header and key into. */
  lemma MateSlot(c: Config, s: State, h: Hist, j: nat)
    requires Sim(c, s, h) && Enabled(c, s, WByte(j))
    ensures h.recs != [] && s.writer.log.rec == h.recs[|h.recs| - 1] && j < MateLen(s.writer.log.rec)
    ensures FragAddr(c.size, s.writer.log.pos, MateLen(s.writer.log.rec), j)
         == Slot(c.size, Start(h.recs, |h.recs| - 1) + j)
    ensures Mate(s.writer.log.rec)[j] == Encode(s.writer.log.rec)[j]
  {
    hide ValuesFrom, LogsFrom, DirtyOk, SendingOk, RecsOk, QueuesFit, ValidConfig, BufferOk, NicOk, ReaderOk,
         PointersOk;
    var log, i := s.writer.log, |h.recs| - 1;
    RecordFits(h.recs, h.freed, i);
    FragAddrIsSlot(c.size, log.pos, MateLen(log.rec), j);
    SlotAdd(c.size, log.pos, Start(h.recs, i), j);
  }

  lemma StepWByte(c: Config, s: State, h: Hist, j: nat)
    requires Sim(c, s, h) && Enabled(c, s, WByte(j))
    ensures Sim(c, Apply(c, s, WByte(j)), h)
  {
    hide ValuesFrom, LogsFrom, DirtyOk, ReaderOk, RecsOk, QueuesFit, ValidConfig, Slot, BufferOk, ValidRec, Start,
         SendingOk, NicOk, Encode, Mate, MateLen, FragAddr;
    MateSlot(c, s, h, j);
    var s' := Apply(c, s, WByte(j));
    PokeBytes(s.buf, h.recs, h.freed, |h.recs| - 1, j,
              s.writer, s.nic, Done(s, h), Taken(s, h), s'.writer, s.nic, Done(s, h));
    SameReader(c, s, h, s', h);
  }

  lemma StepWAdvance(c: Config, s: State, h: Hist)
    requires Sim(c, s, h) && Enabled(c, s, WAdvance)
    ensures Sim(c, Apply(c, s, WAdvance), h)
  {
    hide ValuesFrom, LogsFrom, DirtyOk, ReaderOk, RecsOk, QueuesFit, ValidConfig, Slot, BufferOk, ValidRec, Start,
         SendingOk, NicOk, Encode, Mate;
    var log, i := s.writer.log, |h.recs| - 1;
    RecordFits(h.recs, h.freed, i);
    var p := Advance(c.size, log.pos, MateLen(log.rec));
    AdvancePoints(c.size, log.pos, MateLen(log.rec), Start(h.recs, i));
    AdvancePoints(c.size, p, ValueLen(log.rec), Start(h.recs, i) + MateLen(log.rec));
    var s' := Apply(c, s, WAdvance);
    BufferWeaken(s.buf, h.recs, h.freed, s.writer, s.nic, Done(s, h), Taken(s, h),
                 h.freed, s'.writer, s.nic, Done(s', h), Taken(s', h));
    SameReader(c, s, h, s', h);
  }

  lemma StepWPublish(c: Config, s: State, h: Hist)
    requires Sim(c, s, h) && Enabled(c, s, WPublish)
    ensures Sim(c, Apply(c, s, WPublish), h)
  {
    hide ValuesFrom, LogsFrom, DirtyOk, ReaderOk, RecsOk, QueuesFit, ValidConfig, Slot, BufferOk, ValidRec, Start,
         SendingOk, NicOk, Len;
    var s' := Apply(c, s, WPublish);
    BufferWeaken(s.buf, h.recs, h.freed, s.writer, s.nic, Done(s, h), Taken(s, h),
                 h.freed, s'.writer, s.nic, Done(s', h), Taken(s', h));
    SameReader(c, s, h, s', h);
  }

  /** At most (size - 1) / (header + 3) records are live, so a queue holding live records only has room. */
  lemma LiveFit(c: Config, s: State, h: Hist)
    requires Sim(c, s, h)
    ensures |h.recs| - h.freed < c.queueLen
  {
    hide ValuesFrom, LogsFrom, DirtyOk, SendingOk, BufferOk, NicOk, ReaderOk, PointersOk, WriterOk;
    var m := |h.recs| - h.freed;
    StartGap(c, h.recs, h.freed, |h.recs|);
    MulMono(m, c.queueLen, c.header + 3);
  }

  lemma MulMono(m: int, q: int, d: int)
    requires d > 0 && m * d < q * d
    ensures m < q
  {
    assert m * d - q * d == (m - q) * d;
  }

  lemma StepWEnqueue(c: Config, s: State, h: Hist)
    requires Sim(c, s, h) && Enabled(c, s, WEnqueue)
    ensures HasRoom(c, s.sending)
    ensures Sim(c, Apply(c, s, WEnqueue), h)
  {
    hide ValuesFrom, LogsFrom, DirtyOk, ReaderOk, RecsOk, QueuesFit, ValidConfig, Slot, BufferOk, ValidRec, Start,
         NicOk, Len;
    LiveFit(c, s, h);
    var s' := Apply(c, s, WEnqueue);
    BufferWeaken(s.buf, h.recs, h.freed, s.writer, s.nic, Done(s, h), Taken(s, h),
                 h.freed, s'.writer, s.nic, Done(s', h), Taken(s', h));
    SameReader(c, s, h, s', h);
  }

  lemma StepNTake(c: Config, s: State, h: Hist)
    requires Sim(c, s, h) && Enabled(c, s, NTake)
    ensures Sim(c, Apply(c, s, NTake), h)
  {
    hide ValuesFrom, LogsFrom, DirtyOk, ReaderOk, RecsOk, QueuesFit, ValidConfig, Slot, BufferOk, ValidRec, Start,
         Len, WriterOk;
    var s' := Apply(c, s, NTake);
    BufferWeaken(s.buf, h.recs, h.freed, s.writer, s.nic, Done(s, h), Taken(s, h),
                 h.freed, s.writer, s'.nic, Done(s', h), Taken(s', h));
    SameReader(c, s, h, s', h);
  }

  /** The slot the NIC stores byte `j` of the value into. */
  lemma ValueSlot(c: Config, s: State, h: Hist, j: nat)
    requires Sim(c, s, h) && Enabled(c, s, NByte(j))
    ensures h.freed <= Taken(s, h) - 1 < |h.recs|
    ensures s.nic.log.rec == h.recs[Taken(s, h) - 1] && j < ValueLen(s.nic.log.rec)
    ensures FragAddr(c.size, ValuePos(c, s.nic.log), ValueLen(s.nic.log.rec), j)
         == Slot(c.size, Start(h.recs, Taken(s, h) - 1) + MateLen(s.nic.log.rec) + j)
    ensures ValueBytes(s.nic.log.rec)[j] == Encode(s.nic.log.rec)[MateLen(s.nic.log.rec) + j]
  {
    hide ValuesFrom, LogsFrom, DirtyOk, SendingOk, QueuesFit, BufferOk, ReaderOk, PointersOk, WriterOk,
         Start, Slot, Mate, NulFree;
    var log, i := s.nic.log, Taken(s, h) - 1;
    RecordFits(h.recs, h.freed, i);
    assert ValidRec(c, h.recs[i]);
    WrapAdd(c.size, log.pos, Start(h.recs, i), c.header + KeyLen(log.rec));
    FragAddrIsSlot(c.size, ValuePos(c, log), ValueLen(log.rec), j);
    SlotIdem(c.size, Start(h.recs, i) + MateLen(log.rec));
    SlotAdd(c.size, ValuePos(c, log), Start(h.recs, i) + MateLen(log.rec), j);
  }

  lemma StepNByte(c: Config, s: State, h: Hist, j: nat)
    requires Sim(c, s, h) && Enabled(c, s, NByte(j))
    ensures Sim(c, Apply(c, s, NByte(j)), h)
  {
    hide ValuesFrom, LogsFrom, DirtyOk, ReaderOk, RecsOk, QueuesFit, ValidConfig, Slot, BufferOk, ValidRec, Start,
         SendingOk, WriterOk, Encode, FragAddr, ValuePos;
    ValueSlot(c, s, h, j);
    var s' := Apply(c, s, NByte(j));
    PokeBytes(s.buf, h.recs, h.freed, Taken(s, h) - 1, MateLen(s.nic.log.rec) + j,
              s.writer, s.nic, Done(s, h), Taken(s, h), s.writer, s'.nic, Done(s', h));
    SameReader(c, s, h, s', h);
  }

  lemma StepNFinish(c: Config, s: State, h: Hist)
    requires Sim(c, s, h) && Enabled(c, s, NFinish)
    ensures Sim(c, Apply(c, s, NFinish), h)
  {
    hide ValuesFrom, LogsFrom, DirtyOk, ReaderOk, RecsOk, QueuesFit, ValidConfig, Slot, BufferOk, ValidRec, Start,
         SendingOk, Len, WriterOk;
    var s' := Apply(c, s, NFinish);
    BufferWeaken(s.buf, h.recs, h.freed, s.writer, s.nic, Done(s, h), Taken(s, h),
                 h.freed, s.writer, s'.nic, Done(s', h), Taken(s', h));
    SameReader(c, s, h, s', h);
  }
}
