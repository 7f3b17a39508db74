/** Further guarantees about every state a good run can reach, in terms of the concrete state only.
    Each is proved from the simulation first and then stated of runs. */
module Guarantees {
  import opened Bits
  import opened Ring
  import opened Layout
  import opened Replication
  import opened Simulation
  import opened Theorems
  import HeadSteps
  import TailSteps

  // ---- pointers ----

  /** The position up to which the reader has parsed keys: a local variable inside read_log_key,
      rd_key_pointer elsewhere. */
  function KeyPos(s: State): nat {
    match s.reader
    case KeyTop(pos, _) => pos
    case KeyParse(pos, _) => pos
    case KeyDirty(pos, _, _) => pos
    case _ => s.tail.rdKey
  }

  /** The five wrapped pointers of `s` stand for these counters. */
  predicate Counters(c: Config, s: State, cached: nat, rd: nat, key: nat, published: nat, local: nat)
    requires c.size > 0
  {
    && Points(c.size, s.rdCached, cached) && Points(c.size, s.tail.rd, rd) && Points(c.size, KeyPos(s), key)
    && Points(c.size, s.tail.wr, published) && Points(c.size, s.wr, local)
  }

  lemma SimPointers(c: Config, s: State, h: Hist) returns (cached: nat, rd: nat, key: nat, published: nat, local: nat)
    requires Sim(c, s, h)
    ensures cached <= rd <= key <= published <= local < cached + c.size
    ensures Counters(c, s, cached, rd, key, published, local)
  {
    hide ValuesFrom, LogsFrom, DirtyOk, SendingOk, RecsOk, QueuesFit, ValidConfig, BufferOk, Slot, Start, NicOk,
         WriterOk, IsTailLog;
    cached, rd, key := Start(h.recs, h.cached), Start(h.recs, h.freed), Start(h.recs, Seen(s, h));
    published, local := Start(h.recs, Published(s, h)), Start(h.recs, Local(s, h));
    StartMono(h.recs, h.cached, h.freed);
    StartMono(h.recs, h.freed, Seen(s, h));
    StartMono(h.recs, Seen(s, h), Published(s, h));
    StartMono(h.recs, Published(s, h), Local(s, h));
    StartMono(h.recs, Local(s, h), |h.recs|);
    PointsSlot(c.size, rd);
    PointsSlot(c.size, key);
  }

  /** Unbounded counters behind the five wrapped pointers, ordered, and less than one lap apart. Hence the stale
      read pointer the head works with can only make it under-estimate the free space. */
  lemma PointersAreOrdered(c: Config, ss: seq<State>, steps: seq<Step>)
    returns (cached: nat, rd: nat, key: nat, published: nat, local: nat)
    requires GoodRun(c, ss, steps)
    ensures cached <= rd <= key <= published <= local < cached + c.size
    ensures Counters(c, ss[|steps|], cached, rd, key, published, local)
    ensures
      var s := ss[|steps|];
      FreeSize(c.size, s.wr, s.rdCached) <= FreeSize(c.size, s.wr, s.tail.rd) == c.size - 1 - (local - rd)
  {
    var s, h := SimAt(c, ss, steps);
    assert IsPow2(c.size);
    hide Sim, GoodRun, Run, Counters, FreeSize;
    cached, rd, key, published, local := SimPointers(c, s, h);
    FreeSizes(c, s, cached, rd, key, published, local);
  }

  lemma FreeSizes(c: Config, s: State, cached: nat, rd: nat, key: nat, published: nat, local: nat)
    requires IsPow2(c.size) && c.size > 0 && cached <= rd <= key <= published <= local < cached + c.size
    requires Counters(c, s, cached, rd, key, published, local)
    ensures FreeSize(c.size, s.wr, s.rdCached) <= FreeSize(c.size, s.wr, s.tail.rd) == c.size - 1 - (local - rd)
  {
    WrapDiff(c.size, s.wr, s.tail.rd, local, rd);
    WrapDiff(c.size, s.wr, s.rdCached, local, cached);
  }

  lemma SlotBelow(size: nat, u: nat)
    requires size > 0
    ensures 0 <= Slot(size, u) < size
  {
  }

  /** No step changes a transferred byte of a record that is still live afterwards. */
  lemma LiveBytesStable(c: Config, s: State, a: Step, h: Hist, i: nat, j: nat)
    requires Sim(c, s, h) && Enabled(c, s, a)
    requires h.freed <= i < |h.recs| && j < Len(h.recs[i])
    requires Settled(h.recs, s.writer, s.nic, Done(s, h), Taken(s, h), i, j)
    ensures c.size > 0 && SameAt(s.buf, Apply(c, s, a).buf, Slot(c.size, Start(h.recs, i) + j))
    ensures |s.buf| > 0 && ByteIs(s.buf, h.recs, i, j)
  {
    LiveByte(c, s, h, i, j);
    NotRewritten(c, s, a, h, i, j);
    hide Sim, Slot, Start, Encode, Apply, Settled, Done, Taken;
    StepFrame(c, s, a, h, i, j);
  }

  lemma LiveByte(c: Config, s: State, h: Hist, i: nat, j: nat)
    requires Sim(c, s, h) && h.freed <= i < |h.recs| && j < Len(h.recs[i])
    requires Settled(h.recs, s.writer, s.nic, Done(s, h), Taken(s, h), i, j)
    ensures |s.buf| > 0 && ByteIs(s.buf, h.recs, i, j)
  {
    hide ValuesFrom, LogsFrom, DirtyOk, SendingOk, RecsOk, QueuesFit, ValidConfig, Slot, Start, ReaderOk,
         Encode, PointersOk, QueuesOk, NicOk, WriterOk, TagClear, Settled;
  }

  /** A byte that has been transferred is not transferred again. */
  lemma NotRewritten(c: Config, s: State, a: Step, h: Hist, i: nat, j: nat)
    requires Sim(c, s, h) && Enabled(c, s, a) && h.freed <= i < |h.recs| && j < Len(h.recs[i])
    requires Settled(h.recs, s.writer, s.nic, Done(s, h), Taken(s, h), i, j)
    ensures a.WByte? ==> (i, j) != (|h.recs| - 1, a.i)
    ensures a.NByte? ==> (i, j) != (Taken(s, h) - 1, MateLen(s.nic.log.rec) + a.i)
  {
    hide ValuesFrom, LogsFrom, DirtyOk, SendingOk, RecsOk, QueuesFit, ValidConfig, Slot, Start, ReaderOk,
         Encode, PointersOk, QueuesOk, BufferOk, ValuePos, FragLeft;
  }

  ghost predicate SameAt(before: seq<byte>, after: seq<byte>, at: nat) {
    at < |before| == |after| && after[at] == before[at]
  }

  /** A transfer step stores one byte, at the slot of that byte; every other slot of a live record keeps its byte. */
  lemma StepFrame(c: Config, s: State, a: Step, h: Hist, i: nat, j: nat)
    requires Sim(c, s, h) && Enabled(c, s, a) && h.freed <= i < |h.recs| && j < Len(h.recs[i])
    requires a.WByte? ==> (i, j) != (|h.recs| - 1, a.i)
    requires a.NByte? ==> (i, j) != (Taken(s, h) - 1, MateLen(s.nic.log.rec) + a.i)
    ensures c.size > 0 && SameAt(s.buf, Apply(c, s, a).buf, Slot(c.size, Start(h.recs, i) + j))
  {
    hide Sim, Slot, Start, Encode, Poke, Apply, Mate, MateLen, ValueBytes, Len, Taken;
    HeadSteps.PointersAre(c, s, h);
    SlotBelow(c.size, Start(h.recs, i) + j);
    if a.WByte? {
      HeadSteps.MateSlot(c, s, h, a.i);
      HeadSteps.MateByte(c, s, a.i);
      HeadSteps.MateInRecord(s.writer.log.rec);
      HeadSteps.PokeFrame(h.recs, h.freed, s.buf, |h.recs| - 1, a.i, Mate(s.writer.log.rec)[a.i], i, j);
    } else if a.NByte? {
      HeadSteps.ValueSlot(c, s, h, a.i);
      HeadSteps.ValueByte(c, s, a.i);
      HeadSteps.MateInRecord(s.nic.log.rec);
      HeadSteps.PokeFrame(h.recs, h.freed, s.buf, Taken(s, h) - 1, MateLen(s.nic.log.rec) + a.i,
                          ValueBytes(s.nic.log.rec)[a.i], i, j);
    } else {
      NoTransfer(c, s, a);
    }
  }

  lemma NoTransfer(c: Config, s: State, a: Step)
    requires c.size > 0 && Enabled(c, s, a) && !a.WByte? && !a.NByte?
    ensures Apply(c, s, a).buf == s.buf
  {
    hide Wrap, LogKey, CStr, Parse, DataSize, TagSet, FieldRef, HasRoom, NextWr, Reserves, FreeSize;
  }

  // ---- values ----

  /** Every log that has entered executing_queue and has not been executed yet reads, through the addresses stored
      in it, as the next accepted pairs: its value is complete, whether cut by the ring end or used in place. */
  lemma ExecutingHoldsAccepted(c: Config, ss: seq<State>, steps: seq<Step>, k: nat)
    requires GoodRun(c, ss, steps) && k < |ss[|steps|].tail.executing|
    ensures
      var s, n := ss[|steps|], |ExecutedIn(c, ss, steps)|;
      && n + k < |AcceptedIn(c, ss, steps)|
      && AcceptedIn(c, ss, steps)[n + k]
           == (CStr(LogKey(c, s.buf, s.tail.executing[k])), CStr(LogValue(c, s.buf, s.tail.executing[k])))
  {
    hide *;
    var s, h := SimAt(c, ss, steps);
    LogInExecuting(c, s, h, k);
    PairsAt(h.recs, Queued(s, h), ExecutedN(s, h) + k);
  }

  lemma PairsAt(recs: seq<Rec>, n: nat, i: nat)
    requires i < n <= |recs|
    ensures Pairs(recs, n)[i] == (recs[i].key, Value(recs[i]))
  {
  }

  // ---- dirty map ----

  /** Number of logs with key `k` in a queue. */
  function LogsWithKey(c: Config, buf: seq<byte>, logs: seq<TailLog>, k: Str): nat
    requires c.size > 0
  {
    if logs == [] then 0 else
    LogsWithKey(c, buf, logs[..|logs| - 1], k) + (if CStr(LogKey(c, buf, logs[|logs| - 1])) == k then 1 else 0)
  }

  lemma {:induction false} LogsWithKeyIs(c: Config, s: State, h: Hist, n: nat, k: Str)
    requires Sim(c, s, h) && n <= |s.tail.dirtyQ|
    ensures Cleaned(s, h) + n <= |h.recs|
    ensures LogsWithKey(c, s.buf, s.tail.dirtyQ[..n], k) == CountKey(h.recs, Cleaned(s, h), Cleaned(s, h) + n, k)
    decreases n
  {
    hide ValuesFrom, DirtyOk, SendingOk, RecsOk, QueuesFit, ValidConfig, BufferOk, Slot, Start, NicOk, WriterOk,
         ReaderOk, PointersOk, IsTailLog, LogKey, CStr;
    if n > 0 {
      LogsWithKeyIs(c, s, h, n - 1, k);
      var i := Cleaned(s, h) + (n - 1);
      assert IsTailLog(c, h.recs, i, s.tail.dirtyQ[n - 1]);
      TailSteps.KeyRead(c, s, h, i, s.tail.dirtyQ[n - 1]);
      assert s.tail.dirtyQ[..n][..n - 1] == s.tail.dirtyQ[..n - 1];
    }
  }

  lemma SimDirty(c: Config, s: State, h: Hist, k: Str)
    requires Sim(c, s, h)
    ensures
      var n := LogsWithKey(c, s.buf, s.tail.dirtyQ, k);
      (JudgeKeyDirty(s, k) <==> n > 0) && (JudgeKeyDirty(s, k) ==> s.tail.dirty[k] == n)
  {
    hide ValuesFrom, LogsFrom, SendingOk, RecsOk, QueuesFit, ValidConfig, BufferOk, Slot, Start, NicOk, WriterOk,
         ReaderOk, PointersOk, CountKey, LogsWithKey;
    LogsWithKeyIs(c, s, h, |s.tail.dirtyQ|, k);
    assert s.tail.dirtyQ[..|s.tail.dirtyQ|] == s.tail.dirtyQ;
  }

  /** Whenever dirty_lock is free, the count stored for a key is the number of logs with that key that have been
      parsed and not yet cleaned; judge_key_dirty answers whether there is one. */
  lemma DirtyCountIsExact(c: Config, ss: seq<State>, steps: seq<Step>, k: Str)
    requires GoodRun(c, ss, steps)
    ensures
      var s := ss[|steps|];
      var n := LogsWithKey(c, s.buf, s.tail.dirtyQ, k);
      (JudgeKeyDirty(s, k) <==> n > 0) && (JudgeKeyDirty(s, k) ==> s.tail.dirty[k] == n)
  {
    var s, h := SimAt(c, ss, steps);
    hide Sim, GoodRun, LogsWithKey;
    SimDirty(c, s, h, k);
  }

  // ---- queues ----

  /** Every put finds room, the second space check passes, and no exit(0) is near. */
  ghost predicate Unrefused(c: Config, s: State)
    requires c.size > 0
  {
    && !s.reader.Halted?
    && (s.writer.WChecked? ==> Reserves(c, s))
    && (s.writer.WQueueing? ==> HasRoom(c, s.sending))
    && (s.reader.KeyDirty? ==> HasRoom(c, s.tail.dirtyQ) && HasRoom(c, s.tail.pending))
    && (s.reader.ValueRead? ==> HasRoom(c, s.tail.executing))
    && (s.reader.Clean? ==> s.tail.dirtyQ != [] && JudgeKeyDirty(s, CStr(LogKey(c, s.buf, s.tail.dirtyQ[0]))))
  }

  lemma SimUnrefused(c: Config, s: State, h: Hist)
    requires Sim(c, s, h)
    ensures Unrefused(c, s)
  {
    hide ValuesFrom, LogsFrom, DirtyOk, SendingOk, RecsOk, QueuesFit, ValidConfig, BufferOk, Slot, Start, NicOk,
         WriterOk, PointersOk, LogKey, CStr, Reserves, HasRoom, IsTailLog;
    if s.writer.WChecked? {
      HeadSteps.RecheckPasses(c, s, h);
    } else if s.writer.WQueueing? {
      HeadSteps.StepWEnqueue(c, s, h);
    }
    if s.reader.KeyDirty? {
      TailSteps.StepRKeyDirty(c, s, h);
    } else if s.reader.ValueRead? {
      TailSteps.StepRValueRead(c, s, h);
    } else if s.reader.Clean? {
      CleanFinds(c, s, h);
    }
  }

  lemma CleanFinds(c: Config, s: State, h: Hist)
    requires Sim(c, s, h) && s.reader.Clean?
    ensures s.tail.dirtyQ != [] && CStr(LogKey(c, s.buf, s.tail.dirtyQ[0])) in s.tail.dirty
  {
    hide ValuesFrom, DirtyOk, SendingOk, RecsOk, QueuesFit, ValidConfig, BufferOk, Slot, Start, NicOk,
         WriterOk, PointersOk, LogKey, CStr, IsTailLog;
    assert IsTailLog(c, h.recs, h.freed + 0, s.tail.dirtyQ[0]);
    TailSteps.KeyRead(c, s, h, h.freed, s.tail.dirtyQ[0]);
    TailSteps.UnmarkIs(h.recs, h.freed, Parsed(s, h), s.tail.dirty);
  }

  /** No queue ever refuses a log, the second space check never fails, and no exit(0) is reached. */
  lemma NothingIsRefused(c: Config, ss: seq<State>, steps: seq<Step>)
    requires GoodRun(c, ss, steps)
    ensures Unrefused(c, ss[|steps|])
  {
    var s, h := SimAt(c, ss, steps);
    hide Sim, GoodRun, Unrefused;
    SimUnrefused(c, s, h);
  }

  /** Two queue entries for the same record. */
  predicate SameLog(a: TailLog, b: TailLog) {
    a.pos == b.pos && a.klen == b.klen && a.vlen == b.vlen
  }

  /** dirty_queue is (the log executed but not yet cleaned, if any), then executing_queue, then
      value_peeding_queue; and the log about to be freed sits exactly at the read pointer. */
  ghost predicate QueuesLineUp(s: State) {
    var t := s.tail;
    var d := if s.reader.Clean? then 1 else 0;
    && |t.dirtyQ| == d + |t.executing| + |t.pending|
    && (forall k :: 0 <= k < |t.executing| ==> SameLog(t.dirtyQ[d + k], t.executing[k]))
    && (forall k :: 0 <= k < |t.pending| ==> SameLog(t.dirtyQ[d + |t.executing| + k], t.pending[k]))
    && (d == 1 ==> t.dirtyQ[0].pos == t.rd)
    && (s.reader.Free? ==> s.reader.log.pos == t.rd)
  }

  lemma SimQueues(c: Config, s: State, h: Hist)
    requires Sim(c, s, h)
    ensures QueuesLineUp(s)
  {
    hide DirtyOk, SendingOk, RecsOk, QueuesFit, ValidConfig, BufferOk, Slot, Start, NicOk, WriterOk, RefOk;
    var t := s.tail;
    var d := if s.reader.Clean? then 1 else 0;
    forall k | 0 <= k < |t.executing|
      ensures SameLog(t.dirtyQ[d + k], t.executing[k])
    {
      assert HasValue(c, h.recs, ExecutedN(s, h) + k, t.executing[k]);
      assert IsTailLog(c, h.recs, Cleaned(s, h) + (d + k), t.dirtyQ[d + k]);
    }
    forall k | 0 <= k < |t.pending|
      ensures SameLog(t.dirtyQ[d + |t.executing| + k], t.pending[k])
    {
      assert IsTailLog(c, h.recs, Valued(s, h) + k, t.pending[k]);
      var j := d + |t.executing| + k;
      assert IsTailLog(c, h.recs, Cleaned(s, h) + j, t.dirtyQ[j]);
    }
    assert d == 1 ==> IsTailLog(c, h.recs, h.freed + 0, t.dirtyQ[0]);
  }

  lemma DirtyQueueIsTheOthers(c: Config, ss: seq<State>, steps: seq<Step>)
    requires GoodRun(c, ss, steps)
    ensures QueuesLineUp(ss[|steps|])
  {
    var s, h := SimAt(c, ss, steps);
    hide Sim, GoodRun, QueuesLineUp;
    SimQueues(c, s, h);
  }

  // ---- framing ----

  /** At the top of read_log_key's loop the bytes ahead are 0 or at least a whole record, so the loop leaves with
      nothing unread unless it hit its limit; and a parse uses up a record, so the count strictly falls. */
  ghost predicate OnBoundary(c: Config, s: State)
    requires c.size > 0 && s.reader.KeyTop?
  {
    var ahead := DataSize(c.size, s.tail.wr, s.reader.pos);
    && (ahead == 0 || ahead >= c.header + 3)
    && (Apply(c, s, RKeyTop).reader.ValueTop? ==> ahead == 0 || s.reader.num >= c.keyLimit)
    && (ahead > 0 ==>
        var log := Parse(c, s.buf, s.tail, s.reader.pos);
        DataSize(c.size, s.tail.wr, Wrap(c.size, s.reader.pos + Next(c, log))) == ahead - Next(c, log))
  }

  lemma SimBoundary(c: Config, s: State, h: Hist)
    requires Sim(c, s, h) && s.reader.KeyTop?
    ensures OnBoundary(c, s)
  {
    hide ValuesFrom, LogsFrom, DirtyOk, SendingOk, RecsOk, QueuesFit, BufferOk, Slot, Start, NicOk, WriterOk,
         Parse, Wrap, IsTailLog, Len, DataSize, Next, PointersOk, ReaderOk;
    TailSteps.KeysAhead(c, s, h);
    if Parsed(s, h) < Published(s, h) {
      ParseAt(c, s, h);
    }
  }

  lemma AboutToParse(c: Config, s: State, h: Hist)
    requires Sim(c, s, h) && s.reader.KeyTop? && Parsed(s, h) < Published(s, h)
    ensures c.size > 0 && h.freed <= Parsed(s, h) < Published(s, h) <= |h.recs|
    ensures
      var log := Parse(c, s.buf, s.tail, s.reader.pos);
      && IsTailLog(c, h.recs, Parsed(s, h), log)
      && Wrap(c.size, s.reader.pos + Next(c, log)) == Slot(c.size, Start(h.recs, Parsed(s, h) + 1))
  {
    hide Sim, Parse, Wrap, Slot, Start, Next, IsTailLog;
    HeadSteps.StagesOrdered(c, s, h);
    var s1 := s.(reader := KeyParse(s.reader.pos, s.reader.num));
    TopIsParse(c, s, h);
    TailSteps.ParseIs(c, s1, h);
  }

  lemma TopIsParse(c: Config, s: State, h: Hist)
    requires Sim(c, s, h) && s.reader.KeyTop? && Parsed(s, h) < Published(s, h)
    ensures Sim(c, s.(reader := KeyParse(s.reader.pos, s.reader.num)), h)
  {
    hide ValuesFrom, LogsFrom, DirtyOk, SendingOk, QueuesFit, BufferOk, Slot, NicOk, WriterOk, Start, RecsOk,
         ValidConfig;
  }

  lemma LensIn(c: Config, recs: seq<Rec>, i: int, log: TailLog)
    requires c.size > 0 && IsTailLog(c, recs, i, log)
    ensures 0 <= i < |recs| && log.klen == KeyLen(recs[i]) && log.vlen == ValueLen(recs[i])
  {
  }

  lemma ParseAt(c: Config, s: State, h: Hist)
    requires Sim(c, s, h) && s.reader.KeyTop? && Parsed(s, h) < Published(s, h)
    ensures
      var log := Parse(c, s.buf, s.tail, s.reader.pos);
      && IsTailLog(c, h.recs, Parsed(s, h), log)
      && DataSize(c.size, s.tail.wr, Wrap(c.size, s.reader.pos + Next(c, log)))
           == DataSize(c.size, s.tail.wr, s.reader.pos) - Next(c, log)
  {
    hide Sim, Slot, Parse, Wrap, IsPow2, Start, Len, ValidRec, IsTailLog, DataSize, Published, Parsed;
    AboutToParse(c, s, h);
    HeadSteps.PointersAre(c, s, h);
    TailSteps.KeysAhead(c, s, h);
    var p := Parsed(s, h);
    TailSteps.RecordAt(c, s, h, p);
    HeadSteps.RecordFits(h.recs, p, p);
    HeadSteps.MateInRecord(h.recs[p]);
    LensIn(c, h.recs, p, Parse(c, s.buf, s.tail, s.reader.pos));
    AheadOf(c, s, h, p + 1);
  }

  lemma AheadOf(c: Config, s: State, h: Hist, p: nat)
    requires Sim(c, s, h) && h.freed <= p <= Published(s, h) <= |h.recs|
    ensures c.size > 0 && DataSize(c.size, s.tail.wr, Slot(c.size, Start(h.recs, p)))
                          == Start(h.recs, Published(s, h)) - Start(h.recs, p)
  {
    hide Sim, Slot, Wrap, IsPow2, Start;
    HeadSteps.PointersAre(c, s, h);
    var q := Published(s, h);
    StartMono(h.recs, h.freed, p);
    StartMono(h.recs, p, q);
    StartMono(h.recs, q, |h.recs|);
    PointsSlot(c.size, Start(h.recs, p));
    WrapDiff(c.size, s.tail.wr, Slot(c.size, Start(h.recs, p)), Start(h.recs, q), Start(h.recs, p));
  }

  lemma KeyLoopStopsAtBoundary(c: Config, ss: seq<State>, steps: seq<Step>)
    requires GoodRun(c, ss, steps) && ss[|steps|].reader.KeyTop?
    ensures OnBoundary(c, ss[|steps|])
  {
    var s, h := SimAt(c, ss, steps);
    hide Sim, GoodRun, OnBoundary;
    SimBoundary(c, s, h);
  }

  /** The last state of a good run, with its history. */
  lemma SimAt(c: Config, ss: seq<State>, steps: seq<Step>) returns (s: State, h: Hist)
    requires GoodRun(c, ss, steps)
    ensures |ss| == |steps| + 1 && c.size > 0 && Run(c, ss, steps) && s == ss[|steps|] && Sim(c, s, h)
    ensures 0 <= Queued(s, h) <= |h.recs| && AcceptedIn(c, ss, steps) == Pairs(h.recs, Queued(s, h))
    ensures 0 <= ExecutedN(s, h) <= |h.recs| && ExecutedIn(c, ss, steps) == Pairs(h.recs, ExecutedN(s, h))
  {
    s := ss[|steps|];
    h := RunSim(c, ss, steps);
  }
}
