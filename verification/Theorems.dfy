/** What holds of every run of the protocol, for every interleaving. */
module Theorems {
  import opened Ring
  import opened Layout
  import opened Replication
  import opened Simulation
  import HeadSteps
  import TailSteps

  // ---- the history behind a run ----

  function NextHist(c: Config, s: State, a: Step, h: Hist): Hist
    requires c.size > 0 && Enabled(c, s, a)
  {
    match a
    case WBegin(_) => h.(cached := h.freed)
    case WRecheck => if Reserves(c, s) then Hist(h.recs + [s.writer.rec], h.freed, h.freed) else h.(cached := h.freed)
    case RFree => h.(freed := h.freed + 1)
    case _ => h
  }

  lemma StepSim(c: Config, s: State, a: Step, h: Hist)
    requires Sim(c, s, h) && Enabled(c, s, a) && HygienicStep(c, s, a)
    ensures Sim(c, Apply(c, s, a), NextHist(c, s, a, h))
  {
    hide Sim, Apply, HygienicStep, Reserves;
    match a
    case WBegin(rec) => HeadSteps.StepWBegin(c, s, h, rec);
    case WRecheck =>
      HeadSteps.RecheckPasses(c, s, h);
      HeadSteps.StepWRecheck(c, s, h);
    case WByte(i) => HeadSteps.StepWByte(c, s, h, i);
    case WAdvance => HeadSteps.StepWAdvance(c, s, h);
    case WPublish => HeadSteps.StepWPublish(c, s, h);
    case WEnqueue => HeadSteps.StepWEnqueue(c, s, h);
    case NTake => HeadSteps.StepNTake(c, s, h);
    case NByte(i) => HeadSteps.StepNByte(c, s, h, i);
    case NFinish => HeadSteps.StepNFinish(c, s, h);
    case RKeyTop => TailSteps.StepRKeyTop(c, s, h);
    case RKeyParse => TailSteps.StepRKeyParse(c, s, h);
    case RKeyDirty => TailSteps.StepRKeyDirty(c, s, h);
    case RValueTop => TailSteps.StepRValueTop(c, s, h);
    case RValueRead => TailSteps.StepRValueRead(c, s, h);
    case RExec => TailSteps.StepRExec(c, s, h);
    case RClean => TailSteps.StepRClean(c, s, h);
    case RFree => TailSteps.StepRFree(c, s, h);
  }

  // ---- observations ----

  type Pair = (Str, Str)

  /** (key, value) of every call that made head_node_write_log return true, in order. */
  ghost function AcceptedIn(c: Config, ss: seq<State>, steps: seq<Step>): seq<Pair>
    requires c.size > 0 && Run(c, ss, steps)
    decreases |steps|
  {
    if steps == [] then [] else
    var n := |steps| - 1;
    var e := EventOf(c, ss[n], steps[n]);
    AcceptedIn(c, ss[..n + 1], steps[..n]) + if e.Accepted? then [(e.key, e.value)] else []
  }

  /** (key, value) of every log the tail's application has read, in order. */
  ghost function ExecutedIn(c: Config, ss: seq<State>, steps: seq<Step>): seq<Pair>
    requires c.size > 0 && Run(c, ss, steps)
    decreases |steps|
  {
    if steps == [] then [] else
    var n := |steps| - 1;
    var e := EventOf(c, ss[n], steps[n]);
    ExecutedIn(c, ss[..n + 1], steps[..n]) + if e.Executed? then [(e.key, e.value)] else []
  }

  /** The records of all head_node_write_log calls, in order. */
  function CallsIn(steps: seq<Step>): seq<Rec> {
    if steps == [] then [] else
    var n := |steps| - 1;
    CallsIn(steps[..n]) + if steps[n].WBegin? then [steps[n].rec] else []
  }

  ghost function Pairs(recs: seq<Rec>, n: nat): (r: seq<Pair>)
    requires n <= |recs|
    ensures |r| == n
  {
    seq(n, i requires 0 <= i < n => (recs[i].key, Value(recs[i])))
  }

  function Bit(b: bool): int { if b then 1 else 0 }

  /** Records are accepted and executed one at a time, in the order in which they were reserved. */
  ghost predicate Counted(c: Config, s: State, a: Step, h: Hist)
    requires c.size > 0 && Enabled(c, s, a)
  {
    var s', h' := Apply(c, s, a), NextHist(c, s, a, h);
    var e := EventOf(c, s, a);
    && h.recs <= h'.recs
    && 0 <= Queued(s, h) <= |h.recs| && 0 <= ExecutedN(s, h) <= |h.recs|
    && Queued(s', h') == Queued(s, h) + Bit(e.Accepted?)
    && ExecutedN(s', h') == ExecutedN(s, h) + Bit(e.Executed?)
    && (e.Accepted? ==> Queued(s, h) < |h.recs| && (e.key, e.value) == PairAt(h.recs, Queued(s, h)))
    && (e.Executed? ==> ExecutedN(s, h) < |h.recs| && (e.key, e.value) == PairAt(h.recs, ExecutedN(s, h)))
  }

  lemma StepCounts(c: Config, s: State, a: Step, h: Hist)
    requires Sim(c, s, h) && Enabled(c, s, a)
    ensures Counted(c, s, a, h)
  {
    hide Sim, Apply, NextHist, EventOf;
    if OfHead(a) {
      HeadCounts(c, s, a, h);
    } else {
      TailCounts(c, s, a, h);
    }
  }

  predicate OfHead(a: Step) {
    || a.WBegin? || a.WRecheck? || a.WByte? || a.WAdvance? || a.WPublish? || a.WEnqueue?
    || a.NTake? || a.NByte? || a.NFinish?
  }

  lemma HeadCounts(c: Config, s: State, a: Step, h: Hist)
    requires Sim(c, s, h) && Enabled(c, s, a) && OfHead(a)
    ensures
      var s', h' := Apply(c, s, a), NextHist(c, s, a, h);
      var e := EventOf(c, s, a);
      && !e.Executed? && h.recs <= h'.recs && 0 <= Queued(s, h) <= |h.recs| && 0 <= ExecutedN(s, h) <= |h.recs|
      && Queued(s', h') == Queued(s, h) + Bit(e.Accepted?) && ExecutedN(s', h') == ExecutedN(s, h)
      && (e.Accepted? ==> Queued(s, h) < |h.recs| && (e.key, e.value) == PairAt(h.recs, Queued(s, h)))
  {
    hide Sim, Wrap, Len, FragAddr, NextWr, HasRoom, MayWrite, AllWritten, ValidRec, FreeSize, Reserves, Value, ValuePos,
         Poke;
    HeadSteps.StagesOrdered(c, s, h);
    if a.WEnqueue? {
      HeadSteps.StepWEnqueue(c, s, h);
      WriterLog(c, s, h);
    } else if a.WRecheck? {
      HeadSteps.RecheckPasses(c, s, h);
    }
  }

  lemma TailCounts(c: Config, s: State, a: Step, h: Hist)
    requires Sim(c, s, h) && Enabled(c, s, a) && !OfHead(a)
    ensures
      var s', h' := Apply(c, s, a), NextHist(c, s, a, h);
      var e := EventOf(c, s, a);
      && !e.Accepted? && h'.recs == h.recs && 0 <= Queued(s, h) <= |h.recs| && 0 <= ExecutedN(s, h) <= |h.recs|
      && Queued(s', h') == Queued(s, h) && ExecutedN(s', h') == ExecutedN(s, h) + Bit(e.Executed?)
      && (e.Executed? ==> ExecutedN(s, h) < |h.recs| && (e.key, e.value) == PairAt(h.recs, ExecutedN(s, h)))
  {
    hide Sim, LogKey, LogValue, CStr, Parse, Wrap, HasRoom, FieldRef, TagSet, DataSize, Value, Next, CleanStep,
         FreeStep;
    HeadSteps.StagesOrdered(c, s, h);
    if a.RExec? && s.reader.todo > 0 {
      FirstExecuting(c, s, h);
    } else if a.RClean? {
      TailSteps.StepRClean(c, s, h);
    }
  }

  function PairAt(recs: seq<Rec>, i: int): Pair
    requires 0 <= i < |recs|
  {
    (recs[i].key, Value(recs[i]))
  }

  lemma FirstExecuting(c: Config, s: State, h: Hist)
    requires Sim(c, s, h) && s.reader.Exec? && s.reader.todo > 0
    ensures s.tail.executing != []
    ensures 0 <= ExecutedN(s, h) < |h.recs|
    ensures CStr(LogKey(c, s.buf, s.tail.executing[0])) == h.recs[ExecutedN(s, h)].key
    ensures CStr(LogValue(c, s.buf, s.tail.executing[0])) == Value(h.recs[ExecutedN(s, h)])
  {
    hide ValuesFrom, LogsFrom, DirtyOk, SendingOk, RecsOk, QueuesFit, ValidConfig, BufferOk, Slot, Start, PointersOk,
         LogKey, LogValue, CStr, NicOk, WriterOk;
    LogInExecuting(c, s, h, 0);
  }

  lemma WriterLog(c: Config, s: State, h: Hist)
    requires Sim(c, s, h) && s.writer.WQueueing?
    ensures h.recs != [] && s.writer.log.rec == h.recs[|h.recs| - 1]
  {
    hide ValuesFrom, LogsFrom, DirtyOk, SendingOk, RecsOk, QueuesFit, ValidConfig, BufferOk, Slot, Start, PointersOk,
         NicOk, ReaderOk;
  }

  /** Zero copy is safe: every log in executing_queue, read through its stored addresses, is its record. */
  lemma LogInExecuting(c: Config, s: State, h: Hist, k: nat)
    requires Sim(c, s, h) && k < |s.tail.executing|
    ensures 0 <= ExecutedN(s, h) + k < Queued(s, h) <= |h.recs|
    ensures CStr(LogKey(c, s.buf, s.tail.executing[k])) == h.recs[ExecutedN(s, h) + k].key
    ensures CStr(LogValue(c, s.buf, s.tail.executing[k])) == Value(h.recs[ExecutedN(s, h) + k])
  {
    hide LogsFrom, DirtyOk, SendingOk, RecsOk, QueuesFit, ValidConfig, BufferOk, Slot, Start, PointersOk,
         LogKey, LogValue, CStr, NicOk, ReaderOk, WriterOk, RefOk;
    var i, log := ExecutedN(s, h) + k, s.tail.executing[k];
    assert HasValue(c, h.recs, i, log);
    TailSteps.KeyRead(c, s, h, i, log);
    TailSteps.ValueRead(c, s, h, i, log);
  }

  lemma PairsGrow(recs: seq<Rec>, recs': seq<Rec>, n: nat, n': nat, add: seq<Pair>)
    requires recs <= recs' && n <= |recs| && n' == n + |add| <= |recs'| && |add| <= 1
    requires |add| == 1 ==> n < |recs| && add == [PairAt(recs, n)]
    ensures Pairs(recs', n') == Pairs(recs, n) + add
  {
  }

  /** What one step adds to the two observations. */
  lemma StepEvents(c: Config, s: State, a: Step, h: Hist)
    requires Sim(c, s, h) && Enabled(c, s, a) && HygienicStep(c, s, a)
    ensures
      var s', h' := Apply(c, s, a), NextHist(c, s, a, h);
      var e := EventOf(c, s, a);
      && Sim(c, s', h')
      && 0 <= Queued(s, h) <= |h.recs| && 0 <= Queued(s', h') <= |h'.recs|
      && 0 <= ExecutedN(s, h) <= |h.recs| && 0 <= ExecutedN(s', h') <= |h'.recs|
      && Pairs(h'.recs, Queued(s', h')) == Pairs(h.recs, Queued(s, h)) + (if e.Accepted? then [(e.key,
          e.value)] else [])
      && Pairs(h'.recs, ExecutedN(s', h')) == Pairs(h.recs, ExecutedN(s, h)) + (if e.Executed? then [(e.key,
          e.value)] else [])
  {
    assert c.size > 0;
    hide Sim, Apply, EventOf, NextHist, Enabled, Queued, ExecutedN, HygienicStep, Pairs;
    StepSim(c, s, a, h);
    StepCounts(c, s, a, h);
    var s', h' := Apply(c, s, a), NextHist(c, s, a, h);
    var e := EventOf(c, s, a);
    PairsGrow(h.recs, h'.recs, Queued(s, h), Queued(s', h'), if e.Accepted? then [(e.key, e.value)] else []);
    PairsGrow(h.recs, h'.recs, ExecutedN(s, h), ExecutedN(s', h'), if e.Executed? then [(e.key, e.value)] else []);
  }

  /** The history reached by a run. */
  lemma {:induction false} RunSim(c: Config, ss: seq<State>, steps: seq<Step>) returns (h: Hist)
    requires ValidConfig(c) && c.size > 0 && QueuesFit(c)
    requires Run(c, ss, steps) && Hygienic(c, ss, steps)
    ensures Sim(c, ss[|steps|], h)
    ensures 0 <= Queued(ss[|steps|], h) <= |h.recs| && AcceptedIn(c, ss, steps) == Pairs(h.recs, Queued(ss[|steps|], h))
    ensures 0 <= ExecutedN(ss[|steps|], h) <= |h.recs|
        && ExecutedIn(c, ss, steps) == Pairs(h.recs, ExecutedN(ss[|steps|], h))
    decreases |steps|
  {
    hide Sim, Apply, Init, EventOf, NextHist, Enabled, Queued, ExecutedN, HygienicStep;
    if steps == [] {
      h := Hist([], 0, 0);
      StartOfRun(c, ss[0]);
    } else {
      var n := |steps| - 1;
      var h0 := RunSim(c, ss[..n + 1], steps[..n]);
      StepEvents(c, ss[n], steps[n], h0);
      h := NextHist(c, ss[n], steps[n], h0);
    }
  }

  lemma StartOfRun(c: Config, s: State)
    requires ValidConfig(c) && c.size > 0 && QueuesFit(c) && Init(c, s)
    ensures Sim(c, s, Hist([], 0, 0)) && Queued(s, Hist([], 0, 0)) == 0 && ExecutedN(s, Hist([], 0, 0)) == 0
  {
    HeadSteps.SimInit(c, s);
  }

  /** A run of the protocol under the three hypotheses: a legal configuration, queues that hold a ring full of
      logs, and tag hygiene. */
  ghost predicate GoodRun(c: Config, ss: seq<State>, steps: seq<Step>) {
    && ValidConfig(c) && c.size > 0 && QueuesFit(c)
    && Run(c, ss, steps) && Hygienic(c, ss, steps)
  }

  // ---- main results ----

  /** Replication is a FIFO: whatever the interleaving, the pairs the tail executes are a prefix, in order, of
      the pairs the head accepted. */
  lemma ExecutedIsPrefixOfAccepted(c: Config, ss: seq<State>, steps: seq<Step>)
    requires GoodRun(c, ss, steps)
    ensures ExecutedIn(c, ss, steps) <= AcceptedIn(c, ss, steps)
  {
    hide Run, Hygienic;
    var h := RunSim(c, ss, steps);
  }

  /** Nothing is lost: once the head is idle and the tail has run dry, everything accepted has been executed. */
  lemma DrainedMeansAllExecuted(c: Config, ss: seq<State>, steps: seq<Step>)
    requires GoodRun(c, ss, steps)
    requires
      var s := ss[|steps|];
      && s.writer.WIdle? && s.reader.KeyTop? && s.tail.pending == [] && s.tail.executing == []
      && DataSize(c.size, s.tail.wr, s.reader.pos) == 0
    ensures ExecutedIn(c, ss, steps) == AcceptedIn(c, ss, steps)
  {
    var h := RunSim(c, ss, steps);
    TailSteps.KeysAhead(c, ss[|steps|], h);
  }
}
