/** The relation between the protocol's concrete state and the history of reserved records. */
module Simulation {
  import opened Ring
  import opened Layout
  import opened Replication

  /** Everything the proof remembers: the records reserved so far, in order, how many of them have been
      freed, and how many had been freed when the head last read the read pointer. */
  datatype Hist = Hist(recs: seq<Rec>, freed: nat, cached: nat)

  /** Every queue can hold as many logs as fit into the ring: (size - 1) / (header + 3) <= queueLen - 1, multiplied
      out. */
  ghost predicate QueuesFit(c: Config)
    requires c.size > 0
  {
    c.size <= c.queueLen * (c.header + 3)
  }

  // ---- how far each stage has come, as a number of records ----

  function Local(s: State, h: Hist): int { if s.writer.WWriting? then |h.recs| - 1 else |h.recs| }
  function Published(s: State, h: Hist): int {
    if s.writer.WWriting? || s.writer.WPublishing? then |h.recs| - 1 else |h.recs|
  }
  function Queued(s: State, h: Hist): int {
    if s.writer.WWriting? || s.writer.WPublishing? || s.writer.WQueueing? then |h.recs| - 1 else |h.recs|
  }
  function Taken(s: State, h: Hist): int { Queued(s, h) - |s.sending| }
  /** Records whose tag byte is in the ring. */
  function Done(s: State, h: Hist): int {
    if s.nic.NWriting? && ValueLen(s.nic.log.rec) - 1 !in s.nic.written then Taken(s, h) - 1 else Taken(s, h)
  }
  function Cleaned(s: State, h: Hist): int { if s.reader.Free? then h.freed + 1 else h.freed }
  function ExecutedN(s: State, h: Hist): int { if s.reader.Clean? || s.reader.Free? then h.freed + 1 else h.freed }
  function Valued(s: State, h: Hist): int { ExecutedN(s, h) + |s.tail.executing| }
  function Parsed(s: State, h: Hist): int { Valued(s, h) + |s.tail.pending| }
  /** Counts also the log just parsed and about to be marked dirty. */
  function Seen(s: State, h: Hist): int { if s.reader.KeyDirty? then Parsed(s, h) + 1 else Parsed(s, h) }

  ghost predicate RecsOk(c: Config, recs: seq<Rec>) {
    forall i {:trigger ValidRec(c, recs[i])} :: 0 <= i < |recs| ==> ValidRec(c, recs[i])
  }

  ghost predicate OrderOk(c: Config, s: State, h: Hist) {
    && |s.buf| == c.size && c.size > 0
    && 0 <= h.cached <= h.freed <= |h.recs|
    && ExecutedN(s, h) <= Valued(s, h) <= Done(s, h) <= Taken(s, h) <= Queued(s, h) <= Published(s, h) <= |h.recs|
    && Seen(s, h) <= Published(s, h)
    && Start(h.recs, |h.recs|) - Start(h.recs, h.freed) < c.size
    && Start(h.recs, |h.recs|) - Start(h.recs, h.cached) < c.size
  }

  ghost predicate PointersOk(c: Config, s: State, h: Hist)
    requires OrderOk(c, s, h)
  {
    && s.tail.rd == Slot(c.size, Start(h.recs, h.freed))
    && Points(c.size, s.rdCached, Start(h.recs, h.cached))
    && Points(c.size, s.wr, Start(h.recs, Local(s, h)))
    && Points(c.size, s.tail.wr, Start(h.recs, Published(s, h)))
  }

  /** `log` is record `i`, as the head holds it. */
  ghost predicate IsHeadLog(c: Config, recs: seq<Rec>, i: int, log: HeadLog)
    requires c.size > 0
  {
    0 <= i < |recs| && log.rec == recs[i] && Points(c.size, log.pos, Start(recs, i))
  }

  ghost predicate WriterOk(c: Config, recs: seq<Rec>, freed: nat, writer: WriterPc)
    requires c.size > 0 && freed <= |recs|
  {
    match writer
    case WIdle => true
    case WChecked(rec) => ValidRec(c, rec) && Start(recs, |recs|) + Len(rec) - Start(recs, freed) < c.size
    case WWriting(log, _) => IsHeadLog(c, recs, |recs| - 1, log)
    case WPublishing(log) => IsHeadLog(c, recs, |recs| - 1, log)
    case WQueueing(log) => IsHeadLog(c, recs, |recs| - 1, log)
  }

  ghost predicate SendingOk(c: Config, recs: seq<Rec>, taken: int, sending: seq<HeadLog>)
    requires c.size > 0
  {
    forall k :: 0 <= k < |sending| ==> IsHeadLog(c, recs, taken + k, sending[k])
  }

  ghost predicate NicOk(c: Config, recs: seq<Rec>, taken: int, nic: NicPc)
    requires c.size > 0
  {
    nic.NWriting? ==> IsHeadLog(c, recs, taken - 1, nic.log) && TagLast(nic.log.rec, nic.written)
  }

  ghost predicate TagLast(rec: Rec, written: set<nat>) {
    ValueLen(rec) - 1 in written ==> AllWritten(ValueLen(rec), written)
  }

  /** Byte `j` of record `i` has been transferred. */
  ghost predicate Settled(recs: seq<Rec>, writer: WriterPc, nic: NicPc, done: int, taken: int, i: int, j: int)
    requires 0 <= i < |recs|
  {
    if j < MateLen(recs[i])
    then writer.WWriting? && i == |recs| - 1 ==> j in writer.written
    else i < done || (nic.NWriting? && i == taken - 1 && j - MateLen(recs[i]) in nic.written)
  }

  /** Byte `j` of record `i` is in the ring. */
  ghost predicate ByteIs(buf: seq<byte>, recs: seq<Rec>, i: int, j: int)
    requires |buf| > 0 && 0 <= i < |recs| && 0 <= j < Len(recs[i])
  {
    buf[Slot(|buf|, Start(recs, i) + j)] == Encode(recs[i])[j]
  }

  ghost predicate TagClear(buf: seq<byte>, recs: seq<Rec>, i: int)
    requires |buf| > 0 && 0 <= i < |recs|
  {
    buf[Slot(|buf|, Start(recs, i) + Len(recs[i]) - 1)] != TAG
  }

  /** Every live byte that has been transferred is in the ring, and no tag shows before it is transferred. */
  ghost predicate BufferOk(buf: seq<byte>, recs: seq<Rec>, freed: nat, writer: WriterPc, nic: NicPc, done: int,
                           taken: int)
    requires |buf| > 0
  {
    && (forall i, j {:trigger ByteIs(buf, recs, i, j)} :: freed <= i < |recs| && 0 <= j < Len(recs[i])
          && Settled(recs, writer, nic, done, taken, i, j)
          ==> ByteIs(buf, recs, i, j))
    && (forall i {:trigger TagClear(buf, recs, i)} :: freed <= i < |recs| && done <= i ==> TagClear(buf, recs, i))
  }

  /** `r` gives access to the bytes `bytes` that start at the unwrapped address `u`. */
  ghost predicate RefOk(c: Config, r: Ref, u: nat, bytes: seq<byte>)
    requires c.size > 0
  {
    match r
    case Null => false
    case InRing(at) => at == Slot(c.size, u) && at + |bytes| <= c.size
    case Copied(b) => b == bytes
  }

  /** `log` is record `i`, as parsed by the tail. */
  ghost predicate IsTailLog(c: Config, recs: seq<Rec>, i: int, log: TailLog)
    requires c.size > 0
  {
    && 0 <= i < |recs|
    && log.pos == Slot(c.size, Start(recs, i))
    && log.klen == KeyLen(recs[i]) && log.vlen == ValueLen(recs[i])
    && RefOk(c, log.key, Start(recs, i) + c.header, KeyBytes(recs[i]))
  }

  ghost predicate HasValue(c: Config, recs: seq<Rec>, i: int, log: TailLog)
    requires c.size > 0
  {
    IsTailLog(c, recs, i, log) && RefOk(c, log.value, Start(recs, i) + MateLen(recs[i]), ValueBytes(recs[i]))
  }

  /** `logs` are the records from `first` on. */
  ghost predicate LogsFrom(c: Config, recs: seq<Rec>, first: int, logs: seq<TailLog>)
    requires c.size > 0
  {
    forall k :: 0 <= k < |logs| ==> IsTailLog(c, recs, first + k, logs[k])
  }

  ghost predicate ValuesFrom(c: Config, recs: seq<Rec>, first: int, logs: seq<TailLog>)
    requires c.size > 0
  {
    forall k :: 0 <= k < |logs| ==> HasValue(c, recs, first + k, logs[k])
  }

  /** dirty_queue == (log sent but not yet cleaned, if any) ++ executing_queue ++ value_peeding_queue, and these
      are the records between the read pointer and the key read pointer. */
  ghost predicate QueuesOk(c: Config, s: State, h: Hist)
    requires c.size > 0
  {
    && ValuesFrom(c, h.recs, ExecutedN(s, h), s.tail.executing)
    && LogsFrom(c, h.recs, Valued(s, h), s.tail.pending)
    && LogsFrom(c, h.recs, Cleaned(s, h), s.tail.dirtyQ)
    && |s.tail.dirtyQ| == Parsed(s, h) - Cleaned(s, h)
  }

  /** Number of records in [lo, hi) with key `k`. */
  function CountKey(recs: seq<Rec>, lo: int, hi: int, k: Str): nat
    requires 0 <= lo && hi <= |recs|
    decreases hi - lo
  {
    if lo >= hi then 0 else CountKey(recs, lo, hi - 1, k) + (if recs[hi - 1].key == k then 1 else 0)
  }

  /** The dirty map holds, for each key, the number of records in [lo, hi) with that key; no entry means none. */
  ghost predicate DirtyOk(recs: seq<Rec>, lo: int, hi: int, dirty: map<Str, nat>)
    requires 0 <= lo && hi <= |recs|
  {
    && (forall k :: k in dirty ==> dirty[k] == CountKey(recs, lo, hi, k) > 0)
    && (forall k {:trigger CountKey(recs, lo, hi, k)} :: k !in dirty ==> CountKey(recs, lo, hi, k) == 0)
  }

  ghost predicate ReaderOk(c: Config, s: State, h: Hist)
    requires OrderOk(c, s, h)
  {
    var at := Slot(c.size, Start(h.recs, Seen(s, h)));
    match s.reader
    case KeyTop(pos, num) => pos == at
    case KeyParse(pos, num) => pos == at && Parsed(s, h) < Published(s, h)
    case KeyDirty(pos, num, log) => pos == at && IsTailLog(c, h.recs, Parsed(s, h), log)
    case ValueTop(num) => s.tail.rdKey == at && num <= |s.tail.executing|
    case ValueRead(num) => s.tail.rdKey == at && num <= |s.tail.executing| && s.tail.pending != []
                           && Valued(s, h) < Done(s, h)
    case Exec(todo) => s.tail.rdKey == at && todo <= |s.tail.executing|
    case Clean(todo) => s.tail.rdKey == at && 0 < todo <= |s.tail.executing| + 1
    case Free(todo, log) => s.tail.rdKey == at && 0 < todo <= |s.tail.executing| + 1
                            && IsTailLog(c, h.recs, h.freed, log)
    case Halted => false
  }

  ghost predicate Sim(c: Config, s: State, h: Hist) {
    match h
    case Hist(recs, freed, cached) =>
      && ValidConfig(c) && c.size > 0 && QueuesFit(c) && RecsOk(c, recs)
      && OrderOk(c, s, h) && PointersOk(c, s, h)
      && WriterOk(c, recs, freed, s.writer)
      && SendingOk(c, recs, Taken(s, h), s.sending)
      && NicOk(c, recs, Taken(s, h), s.nic)
      && BufferOk(s.buf, recs, freed, s.writer, s.nic, Done(s, h), Taken(s, h))
      && QueuesOk(c, s, h)
      && DirtyOk(recs, Cleaned(s, h), Parsed(s, h), s.tail.dirty)
      && ReaderOk(c, s, h)
  }
}
