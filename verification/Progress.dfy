/** From every reachable state the NIC and the reader alone can bring every accepted record to execution. */
module Progress {
  import opened Ring
  import opened Layout
  import opened Replication
  import opened Simulation
  import opened Theorems
  import HeadSteps
  import TailSteps

  /** reader_thread's own limits: some keys at a time, one value at a time. */
  predicate ReaderLimits(c: Config) {
    c.keyLimit > 0 && c.valueLimit == 1
  }

  /** With those limits at most one log is in executing_queue, and it is on its way to be executed. */
  predicate OneAtATime(s: State) {
    match s.reader
    case KeyTop(_, num) => s.tail.executing == [] && num <= |s.tail.pending|
    case KeyParse(_, num) => s.tail.executing == [] && num <= |s.tail.pending|
    case KeyDirty(_, num, _) => s.tail.executing == [] && num <= |s.tail.pending|
    case ValueTop(num) => |s.tail.executing| == num <= 1
    case ValueRead(num) => s.tail.executing == [] && num == 0
    case Exec(todo) => |s.tail.executing| == todo <= 1
    case Clean(todo) => s.tail.executing == [] && todo == 1
    case Free(todo, _) => s.tail.executing == [] && todo == 1
    case Halted => false
  }

  lemma StepOneAtATime(c: Config, s: State, a: Step, h: Hist)
    requires Sim(c, s, h) && Enabled(c, s, a) && OneAtATime(s) && ReaderLimits(c)
    ensures OneAtATime(Apply(c, s, a))
  {
    hide ValuesFrom, LogsFrom, DirtyOk, SendingOk, RecsOk, QueuesFit, ValidConfig, BufferOk, ReaderOk, NicOk, WriterOk,
         PointersOk, OrderOk, Parse, Wrap, LogKey, FragAddr, ValuePos, Slot, Start, NextWr, CStr, Len, MayWrite,
         Poke, Reserves, HasRoom, FieldRef, TagSet, QueuesOk;
    if a.RKeyDirty? {
      TailSteps.StepRKeyDirty(c, s, h);
    } else if a.RValueRead? {
      TailSteps.StepRValueRead(c, s, h);
    } else if a.RClean? {
      TailSteps.StepRClean(c, s, h);
      CleanHasLog(c, s, h);
    }
  }

  lemma CleanHasLog(c: Config, s: State, h: Hist)
    requires Sim(c, s, h) && s.reader.Clean?
    ensures s.tail.dirtyQ != []
  {
    hide ValuesFrom, LogsFrom, DirtyOk, SendingOk, RecsOk, QueuesFit, ValidConfig, BufferOk, Slot, Start, NicOk,
         WriterOk;
  }

  lemma {:induction false} RunOneAtATime(c: Config, ss: seq<State>, steps: seq<Step>)
    requires GoodRun(c, ss, steps) && ReaderLimits(c)
    ensures OneAtATime(ss[|steps|])
    decreases |steps|
  {
    if steps != [] {
      var n := |steps| - 1;
      RunOneAtATime(c, ss[..n + 1], steps[..n]);
      hide Sim, Apply, Enabled, HygienicStep, Init, QueuesFit, ValidConfig, OneAtATime;
      var h := RunSim(c, ss[..n + 1], steps[..n]);
      StepOneAtATime(c, ss[n], steps[n], h);
    }
  }

  // ---- work left ----

  /** Bytes of a transfer not yet visible. */
  function Missing(len: nat, written: set<nat>): nat {
    if len == 0 then 0 else Missing(len - 1, written) + (if len - 1 in written then 0 else 1)
  }

  lemma {:induction false} MissingFalls(len: nat, written: set<nat>, i: nat)
    requires i !in written
    ensures Missing(len, written + {i}) == Missing(len, written) - (if i < len then 1 else 0)
    decreases len
  {
    if len > 0 {
      MissingFalls(len - 1, written, i);
    }
  }

  /** The first byte not yet visible may always be transferred next. */
  lemma {:induction false} FirstMissing(len: nat, written: set<nat>) returns (i: nat)
    ensures i <= len && (forall j :: 0 <= j < i ==> j in written) && (i < len ==> i !in written)
    decreases len
  {
    if len == 0 {
      i := 0;
    } else {
      i := FirstMissing(len - 1, written);
      if i == len - 1 && i in written {
        i := len;
      }
    }
  }

  function SendWork(logs: seq<HeadLog>): nat {
    if logs == [] then 0 else ValueLen(logs[0].rec) + 2 + SendWork(logs[1..])
  }

  function NicWork(s: State): nat {
    SendWork(s.sending) + if s.nic.NWriting? then Missing(ValueLen(s.nic.log.rec), s.nic.written) + 1 else 0
  }

  function Rank(s: State): nat {
    match s.reader
    case KeyTop(_, _) => 10
    case KeyParse(_, _) => 9
    case KeyDirty(_, _, _) => 8
    case ValueTop(num) => if num > 0 then 7 else if s.tail.pending == [] then 12 else 9
    case ValueRead(_) => 8
    case Exec(todo) => if todo > 0 then 6 else 12
    case Clean(_) => 5
    case Free(_, _) => 4
    case Halted => 0
  }

  function ReaderWork(s: State, h: Hist): int {
    30 * (|h.recs| - h.freed) + 3 * (Published(s, h) - Parsed(s, h)) + Rank(s)
  }

  lemma MissingNone(len: nat, written: set<nat>)
    ensures Missing(len, {}) == len
  {
  }

  /** While the NIC has work it has a step, and that step brings it closer to the end. */
  lemma NicAdvances(c: Config, s: State, h: Hist) returns (a: Step)
    requires Sim(c, s, h) && NicWork(s) > 0
    ensures (a.NTake? || a.NByte? || a.NFinish?) && Enabled(c, s, a) && NicWork(Apply(c, s, a)) < NicWork(s)
  {
    hide ValuesFrom, LogsFrom, DirtyOk, SendingOk, RecsOk, QueuesFit, ValidConfig, BufferOk, Slot, Start, ReaderOk,
         WriterOk, PointersOk, Wrap, Poke, FragAddr;
    if s.nic.NIdle? {
      a := NTake;
      MissingNone(ValueLen(s.sending[0].rec), {});
    } else {
      var len, written := ValueLen(s.nic.log.rec), s.nic.written;
      var i := FirstMissing(len, written);
      if i < len {
        a := NByte(i);
        WrapBelow(c.size, s.nic.log.pos + c.header + KeyLen(s.nic.log.rec));
        MissingFalls(len, written, i);
      } else {
        a := NFinish;
      }
    }
  }

  lemma WrapBelow(size: nat, x: int)
    requires size > 0
    ensures Wrap(size, x) < size
  {
  }

  lemma LastIsTag(r: Rec)
    ensures Encode(r)[Len(r) - 1] == TAG
  {
  }

  /** A complete value shows its tag. */
  lemma DoneMeansTag(c: Config, s: State, h: Hist)
    requires Sim(c, s, h) && s.tail.pending != [] && Valued(s, h) < Done(s, h)
    ensures TagSet(c, s.buf, s.tail.pending[0])
  {
    hide ValuesFrom, DirtyOk, SendingOk, NicOk, WriterOk, QueuesFit, PointersOk, ReaderOk, RefOk, NulFree, Slot,
         Start, Mate, Wrap, Encode;
    var i := Valued(s, h);
    var log, r := s.tail.pending[0], h.recs[i];
    assert IsTailLog(c, h.recs, i + 0, log);
    assert ValidRec(c, r);
    LastIsTag(r);
    assert Settled(h.recs, s.writer, s.nic, Done(s, h), Taken(s, h), i, Len(r) - 1);
    assert ByteIs(s.buf, h.recs, i, Len(r) - 1);
    PointsSlot(c.size, Start(h.recs, i));
    WrapAdd(c.size, log.pos, Start(h.recs, i), Len(r) - 1);
  }

  function ReaderStep(s: State): Step
    requires !s.reader.Halted?
  {
    match s.reader
    case KeyTop(_, _) => RKeyTop
    case KeyParse(_, _) => RKeyParse
    case KeyDirty(_, _, _) => RKeyDirty
    case ValueTop(_) => RValueTop
    case ValueRead(_) => RValueRead
    case Exec(_) => RExec
    case Clean(_) => RClean
    case Free(_, _) => RFree
  }

  lemma KeyTopAdvances(c: Config, s: State, h: Hist)
    requires Sim(c, s, h) && OneAtATime(s) && ReaderLimits(c) && ExecutedN(s, h) < Queued(s, h) && s.reader.KeyTop?
    ensures 0 <= ReaderWork(Apply(c, s, RKeyTop), h) < ReaderWork(s, h)
  {
    hide Sim, DataSize;
    HeadSteps.StagesOrdered(c, s, h);
    TailSteps.KeysAhead(c, s, h);
  }

  lemma KeyPhaseAdvances(c: Config, s: State, h: Hist)
    requires Sim(c, s, h) && OneAtATime(s) && (s.reader.KeyParse? || s.reader.KeyDirty?)
    ensures 0 <= ReaderWork(Apply(c, s, ReaderStep(s)), h) < ReaderWork(s, h)
  {
    hide Sim, Parse, Wrap, LogKey, CStr, HasRoom, MarkDirty, Next;
    HeadSteps.StagesOrdered(c, s, h);
    if s.reader.KeyDirty? {
      TailSteps.StepRKeyDirty(c, s, h);
    }
  }

  lemma ValuePhaseAdvances(c: Config, s: State, h: Hist)
    requires Sim(c, s, h) && OneAtATime(s) && ReaderLimits(c)
    requires ExecutedN(s, h) < Done(s, h) && (s.reader.ValueTop? || s.reader.ValueRead?)
    ensures Enabled(c, s, ReaderStep(s)) && 0 <= ReaderWork(Apply(c, s, ReaderStep(s)), h) < ReaderWork(s, h)
  {
    hide ValuesFrom, LogsFrom, DirtyOk, SendingOk, RecsOk, QueuesFit, ValidConfig, BufferOk, NicOk, WriterOk,
         PointersOk, Wrap, Slot, Start, FieldRef, TagSet, IsTailLog, HasRoom;
    if s.reader.ValueRead? {
      TailSteps.StepRValueRead(c, s, h);
    } else if s.tail.pending != [] && s.reader.num == 0 {
      DoneMeansTag(c, s, h);
    }
  }

  lemma ExecPhaseAdvances(c: Config, s: State, h: Hist)
    requires Sim(c, s, h) && OneAtATime(s) && (s.reader.Exec? || s.reader.Clean? || s.reader.Free?)
    ensures Enabled(c, s, ReaderStep(s))
    ensures 0 <= ReaderWork(Apply(c, s, ReaderStep(s)), NextHist(c, s, ReaderStep(s), h)) < ReaderWork(s, h)
  {
    hide Sim, Wrap, LogKey, CStr, UnmarkDirty, Next, CleanStep;
    HeadSteps.StagesOrdered(c, s, h);
    if s.reader.Clean? {
      CleanLeaves(c, s, h);
    }
  }

  lemma CleanLeaves(c: Config, s: State, h: Hist)
    requires Sim(c, s, h) && s.reader.Clean? && s.reader.todo > 0
    ensures c.size > 0
    ensures var (t, pc) := CleanStep(c, s.buf, s.tail, s.reader.todo);
      && pc.Free? && t.executing == s.tail.executing && t.pending == s.tail.pending
  {
    hide Sim, Wrap, LogKey, CStr, UnmarkDirty;
    HeadSteps.StagesOrdered(c, s, h);
    CleanHasLog(c, s, h);
    TailSteps.StepRClean(c, s, h);
  }

  lemma ReaderKeepsNic(c: Config, s: State)
    requires c.size > 0 && !s.reader.Halted? && Enabled(c, s, ReaderStep(s))
    ensures NicWork(Apply(c, s, ReaderStep(s))) == NicWork(s)
  {
    hide Wrap, LogKey, CStr, Parse, DataSize, TagSet, FieldRef, HasRoom;
  }

  /** Once the NIC has delivered everything, each reader step brings the next execution closer. */
  lemma ReaderAdvances(c: Config, s: State, h: Hist)
    requires Sim(c, s, h) && OneAtATime(s) && ReaderLimits(c)
    requires NicWork(s) == 0 && ExecutedN(s, h) < Queued(s, h)
    ensures Enabled(c, s, ReaderStep(s)) && NicWork(Apply(c, s, ReaderStep(s))) == 0
    ensures 0 <= ReaderWork(Apply(c, s, ReaderStep(s)), NextHist(c, s, ReaderStep(s), h)) < ReaderWork(s, h)
  {
    hide Sim, Apply, NicWork, ReaderWork;
    HeadSteps.StagesOrdered(c, s, h);
    NoNicWork(s);
    if s.reader.KeyTop? {
      KeyTopAdvances(c, s, h);
    } else if s.reader.KeyParse? || s.reader.KeyDirty? {
      KeyPhaseAdvances(c, s, h);
    } else if s.reader.ValueTop? || s.reader.ValueRead? {
      ValuePhaseAdvances(c, s, h);
    } else {
      ExecPhaseAdvances(c, s, h);
    }
    ReaderKeepsNic(c, s);
  }

  lemma NoNicWork(s: State)
    requires NicWork(s) == 0
    ensures s.nic.NIdle? && s.sending == []
  {
  }

  // ---- the theorem ----

  lemma ExtendRun(c: Config, ss: seq<State>, steps: seq<Step>, a: Step)
    requires GoodRun(c, ss, steps) && Enabled(c, ss[|steps|], a) && HygienicStep(c, ss[|steps|], a)
    ensures GoodRun(c, ss + [Apply(c, ss[|steps|], a)], steps + [a])
    ensures AcceptedIn(c, ss + [Apply(c, ss[|steps|], a)], steps + [a])
         == AcceptedIn(c, ss, steps) + var e := EventOf(c, ss[|steps|], a); if e.Accepted? then [(e.key,
             e.value)] else []
    ensures ExecutedIn(c, ss + [Apply(c, ss[|steps|], a)], steps + [a])
         == ExecutedIn(c, ss, steps) + var e := EventOf(c, ss[|steps|], a); if e.Executed? then [(e.key,
             e.value)] else []
  {
    hide Apply, Enabled, HygienicStep, Init, ValidConfig, QueuesFit, EventOf;
    var ss', steps' := ss + [Apply(c, ss[|steps|], a)], steps + [a];
    forall i | 0 <= i < |steps'|
      ensures Enabled(c, ss'[i], steps'[i]) && ss'[i + 1] == Apply(c, ss'[i], steps'[i])
          && HygienicStep(c, ss'[i], steps'[i])
    {
      if i < |steps| {
        assert ss'[i] == ss[i] && ss'[i + 1] == ss[i + 1] && steps'[i] == steps[i];
      }
    }
    assert ss'[..|steps| + 1] == ss && steps'[..|steps|] == steps;
  }

  predicate OfWriter(a: Step) {
    a.WBegin? || a.WRecheck? || a.WByte? || a.WAdvance? || a.WPublish? || a.WEnqueue?
  }

  /** Which step to take next, and that it brings the end closer. */
  lemma NextStep(c: Config, s: State, h: Hist) returns (a: Step)
    requires Sim(c, s, h) && OneAtATime(s) && ReaderLimits(c) && ExecutedN(s, h) < Queued(s, h)
    ensures Enabled(c, s, a) && HygienicStep(c, s, a) && !EventOf(c, s, a).Accepted? && !OfWriter(a)
    ensures
      var s', h' := Apply(c, s, a), NextHist(c, s, a, h);
      NicWork(s') < NicWork(s)
      || (NicWork(s') == NicWork(s) == 0 && 0 <= ReaderWork(s', h') < ReaderWork(s, h))
  {
    hide Sim, NicWork, ReaderWork, Apply, NextHist, ExecutedN, Queued, ReaderLimits;
    HeadSteps.StagesOrdered(c, s, h);
    if NicWork(s) > 0 {
      a := NicAdvances(c, s, h);
    } else {
      ReaderAdvances(c, s, h);
      a := ReaderStep(s);
    }
  }


  /** `h` is the history behind a run and its two observations. */
  ghost predicate Tracks(c: Config, ss: seq<State>, steps: seq<Step>, h: Hist)
    requires GoodRun(c, ss, steps)
  {
    var s := ss[|steps|];
    && Sim(c, s, h)
    && 0 <= ExecutedN(s, h) <= Queued(s, h) <= |h.recs|
    && AcceptedIn(c, ss, steps) == Pairs(h.recs, Queued(s, h))
    && ExecutedIn(c, ss, steps) == Pairs(h.recs, ExecutedN(s, h))
  }

  lemma StepTracks(c: Config, ss: seq<State>, steps: seq<Step>, h: Hist, a: Step)
    requires GoodRun(c, ss, steps) && Tracks(c, ss, steps, h)
    requires Enabled(c, ss[|steps|], a) && HygienicStep(c, ss[|steps|], a)
    ensures GoodRun(c, ss + [Apply(c, ss[|steps|], a)], steps + [a])
    ensures Tracks(c, ss + [Apply(c, ss[|steps|], a)], steps + [a], NextHist(c, ss[|steps|], a, h))
  {
    var s := ss[|steps|];
    hide Sim, Apply, Enabled, HygienicStep, EventOf, NextHist, Queued, ExecutedN, Pairs, AcceptedIn, ExecutedIn, Run,
         Hygienic;
    ExtendRun(c, ss, steps, a);
    StepEvents(c, s, a, h);
    ExecutedBehindQueued(c, Apply(c, s, a), NextHist(c, s, a, h));
  }

  lemma ExecutedBehindQueued(c: Config, s: State, h: Hist)
    requires Sim(c, s, h)
    ensures 0 <= ExecutedN(s, h) <= Queued(s, h) <= |h.recs|
  {
    hide ValuesFrom, LogsFrom, DirtyOk, SendingOk, RecsOk, QueuesFit, ValidConfig, BufferOk, NicOk, WriterOk,
         PointersOk, Slot, Start, ReaderOk;
  }

  lemma Tracked(c: Config, ss: seq<State>, steps: seq<Step>, h: Hist)
    requires GoodRun(c, ss, steps) && Tracks(c, ss, steps, h)
    ensures c.size > 0 && |ss| == |steps| + 1 && Run(c, ss, steps)
    ensures var s := ss[|steps|];
      && Sim(c, s, h) && ExecutedN(s, h) <= Queued(s, h)
      && (ExecutedN(s, h) == Queued(s, h) ==> AcceptedIn(c, ss, steps) == ExecutedIn(c, ss, steps))
  {
    hide Sim, ExecutedN, Queued, Pairs, AcceptedIn, ExecutedIn, Hygienic, QueuesFit, ValidConfig;
  }

  lemma {:induction false} Drain(c: Config, ss: seq<State>, steps: seq<Step>, h: Hist)
    returns (ss': seq<State>, steps': seq<Step>)
    requires GoodRun(c, ss, steps) && ReaderLimits(c) && OneAtATime(ss[|steps|]) && Tracks(c, ss, steps, h)
    ensures GoodRun(c, ss', steps') && ss <= ss' && steps <= steps'
    ensures forall i :: |steps| <= i < |steps'| ==> !OfWriter(steps'[i])
    ensures AcceptedIn(c, ss, steps) == AcceptedIn(c, ss', steps') == ExecutedIn(c, ss', steps')
    decreases NicWork(ss[|steps|]), ReaderWork(ss[|steps|], h)
  {
    hide *;
    Tracked(c, ss, steps, h);
    var s := ss[|steps|];
    if ExecutedN(s, h) == Queued(s, h) {
      ss', steps' := ss, steps;
    } else {
      var a := NextStep(c, s, h);
      StepTracks(c, ss, steps, h, a);
      StepOneAtATime(c, s, a, h);
      ExtendRun(c, ss, steps, a);
      var s1 := Apply(c, s, a);
      assert (ss + [s1])[|steps + [a]|] == s1;
      ss', steps' := Drain(c, ss + [s1], steps + [a], NextHist(c, s, a, h));
    }
  }

  /** No accepted record can get stuck: every good run extends, by steps of the NIC and the reader alone, to one in
      which the tail has executed exactly what the head accepted. */
  lemma AcceptedCanBeExecuted(c: Config, ss: seq<State>, steps: seq<Step>)
    returns (ss': seq<State>, steps': seq<Step>)
    requires GoodRun(c, ss, steps) && ReaderLimits(c)
    ensures GoodRun(c, ss', steps') && ss <= ss' && steps <= steps'
    ensures forall i :: |steps| <= i < |steps'| ==> !OfWriter(steps'[i])
    ensures AcceptedIn(c, ss, steps) == AcceptedIn(c, ss', steps') == ExecutedIn(c, ss', steps')
  {
    RunOneAtATime(c, ss, steps);
    var h := RunSim(c, ss, steps);
    ExecutedBehindQueued(c, ss[|steps|], h);
    hide Sim, Run, Hygienic, AcceptedIn, ExecutedIn, Pairs, OneAtATime;
    ss', steps' := Drain(c, ss, steps, h);
  }

  // ---- every fair schedule ----

  predicate OfNic(a: Step) { a.NTake? || a.NByte? || a.NFinish? }

  /** Number of NIC steps from index `k` on. */
  function NicSteps(steps: seq<Step>, k: nat): nat {
    if |steps| <= k then 0
    else NicSteps(steps[..|steps| - 1], k) + if OfNic(steps[|steps| - 1]) then 1 else 0
  }

  lemma NicSpends(c: Config, s: State, a: Step)
    requires c.size > 0 && Enabled(c, s, a) && !OfWriter(a)
    ensures NicWork(Apply(c, s, a)) + (if OfNic(a) then 1 else 0) <= NicWork(s)
  {
    hide Wrap, Poke, FragAddr, ValuePos, Parse, LogKey, CStr, FieldRef, TagSet, DataSize, HasRoom;
    if a.NTake? {
      MissingNone(ValueLen(s.sending[0].rec), {});
    } else if a.NByte? {
      MissingFalls(ValueLen(s.nic.log.rec), s.nic.written, a.i);
    }
  }

  lemma {:induction false} NicRunsDry(c: Config, ss: seq<State>, steps: seq<Step>, k: nat)
    requires c.size > 0 && Run(c, ss, steps) && k <= |steps|
    requires forall i :: k <= i < |steps| ==> !OfWriter(steps[i])
    ensures NicWork(ss[|steps|]) + NicSteps(steps, k) <= NicWork(ss[k])
    decreases |steps|
  {
    hide Apply, Enabled, Init, NicWork;
    if |steps| > k {
      var n := |steps| - 1;
      NicRunsDry(c, ss[..n + 1], steps[..n], k);
      NicSpends(c, ss[n], steps[n]);
    }
  }

  /** With nothing to send, a step that is not the writer's is the reader's next one. */
  lemma OnlyReader(c: Config, s: State, a: Step)
    requires NicWork(s) == 0 && Enabled(c, s, a) && !OfWriter(a)
    ensures !s.reader.Halted? && a == ReaderStep(s)
  {
    NoNicWork(s);
  }

  lemma NothingNew(c: Config, s: State, h: Hist)
    requires Sim(c, s, h) && !s.reader.Halted? && Enabled(c, s, ReaderStep(s))
    ensures var s', h' := Apply(c, s, ReaderStep(s)), NextHist(c, s, ReaderStep(s), h);
      Queued(s', h') == Queued(s, h) && ExecutedN(s', h') >= ExecutedN(s, h)
  {
    hide Sim, EventOf, Apply, NextHist, Queued, ExecutedN;
    SizeIs(c, s, h);
    StepCounts(c, s, ReaderStep(s), h);
    NeverAccepts(c, s);
  }

  lemma SizeIs(c: Config, s: State, h: Hist)
    requires Sim(c, s, h)
    ensures c.size > 0
  {
  }

  lemma NeverAccepts(c: Config, s: State)
    requires c.size > 0 && !s.reader.Halted? && Enabled(c, s, ReaderStep(s))
    ensures !EventOf(c, s, ReaderStep(s)).Accepted? && HygienicStep(c, s, ReaderStep(s))
  {
  }

  /** From a state with nothing to send, each further step executes everything or leaves less to do. */
  lemma {:induction false} ReaderRunsDry(c: Config, ss: seq<State>, steps: seq<Step>, m: nat, hm: Hist)
    returns (h: Hist)
    requires GoodRun(c, ss, steps) && ReaderLimits(c) && m <= |steps|
    requires forall i :: m <= i < |steps| ==> !OfWriter(steps[i])
    requires NicWork(ss[m]) == 0 && OneAtATime(ss[m])
    requires GoodRun(c, ss[..m + 1], steps[..m]) && Tracks(c, ss[..m + 1], steps[..m], hm)
    ensures Tracks(c, ss, steps, h) && NicWork(ss[|steps|]) == 0 && OneAtATime(ss[|steps|])
    ensures ExecutedN(ss[|steps|], h) == Queued(ss[|steps|], h)
         || 0 <= ReaderWork(ss[|steps|], h) <= ReaderWork(ss[m], hm) - (|steps| - m)
    decreases |steps|
  {
    hide *;
    PrefixRun(c, ss, steps, m);
    if |steps| == m {
      assert ss[..m + 1] == ss && steps[..m] == steps;
      h := hm;
      Tracked(c, ss, steps, h);
      WorkIsLeft(c, ss[m], h);
    } else {
      var n := |steps| - 1;
      Shorter(c, ss, steps);
      Cut(ss, m + 1, n + 1);
      Cut(steps, m, n);
      var h0 := ReaderRunsDry(c, ss[..n + 1], steps[..n], m, hm);
      h := LastReaderStep(c, ss, steps, h0);
    }
  }

  lemma Cut<T>(s: seq<T>, m: nat, n: nat)
    requires m <= n <= |s|
    ensures s[..n][..m] == s[..m]
  {
  }

  lemma WorkIsLeft(c: Config, s: State, h: Hist)
    requires Sim(c, s, h)
    ensures 0 <= ReaderWork(s, h) <= 33 * c.queueLen + 12
  {
    HeadSteps.LiveFit(c, s, h);
    hide ValuesFrom, LogsFrom, DirtyOk, SendingOk, RecsOk, QueuesFit, ValidConfig, BufferOk, NicOk, WriterOk,
         PointersOk, Slot, Start, ReaderOk, QueuesOk;
  }

  lemma Shorter(c: Config, ss: seq<State>, steps: seq<Step>)
    requires GoodRun(c, ss, steps) && steps != []
    ensures var n := |steps| - 1;
      && GoodRun(c, ss[..n + 1], steps[..n]) && Enabled(c, ss[n], steps[n]) && HygienicStep(c, ss[n], steps[n])
      && ss[n + 1] == Apply(c, ss[n], steps[n]) && ss == ss[..n + 1] + [ss[n + 1]] && steps == steps[..n] + [steps[n]]
  {
    hide Apply, Enabled, Init, HygienicStep, QueuesFit, ValidConfig;
  }

  lemma LastReaderStep(c: Config, ss: seq<State>, steps: seq<Step>, h0: Hist) returns (h: Hist)
    requires GoodRun(c, ss, steps) && ReaderLimits(c) && steps != [] && !OfWriter(steps[|steps| - 1])
    requires GoodRun(c, ss[..|steps|], steps[..|steps| - 1]) && Tracks(c, ss[..|steps|], steps[..|steps| - 1], h0)
    requires NicWork(ss[|steps| - 1]) == 0 && OneAtATime(ss[|steps| - 1])
    ensures Tracks(c, ss, steps, h) && NicWork(ss[|steps|]) == 0 && OneAtATime(ss[|steps|])
    ensures var s, n := ss[|steps| - 1], |steps| - 1;
      ExecutedN(ss[|steps|], h) == Queued(ss[|steps|], h)
      || (ExecutedN(s, h0) < Queued(s, h0) && 0 <= ReaderWork(ss[|steps|], h) < ReaderWork(s, h0))
  {
    Shorter(c, ss, steps);
    hide *;
    var n := |steps| - 1;
    var s, a := ss[n], steps[n];
    Tracked(c, ss[..n + 1], steps[..n], h0);
    OnlyReader(c, s, a);
    StepTracks(c, ss[..n + 1], steps[..n], h0, a);
    StepOneAtATime(c, s, a, h0);
    NicSpends(c, s, a);
    NothingNew(c, s, h0);
    h := NextHist(c, s, a, h0);
    Tracked(c, ss, steps, h);
    if ExecutedN(s, h0) < Queued(s, h0) {
      ReaderAdvances(c, s, h0);
    }
  }

  /** Not only some schedule delivers: in every continuation without the writer in which the NIC makes as many steps as
      it had work, and then 33 * queueLen + 13 more steps happen, everything accepted has been executed. */
  lemma EveryScheduleDelivers(c: Config, ss: seq<State>, steps: seq<Step>, k: nat, m: nat)
    requires GoodRun(c, ss, steps) && ReaderLimits(c) && k <= m <= |steps|
    requires forall i :: k <= i < |steps| ==> !OfWriter(steps[i])
    requires NicSteps(steps[..m], k) >= NicWork(ss[k]) && |steps| - m > 33 * c.queueLen + 12
    ensures ExecutedIn(c, ss, steps) == AcceptedIn(c, ss, steps)
  {
    PrefixRun(c, ss, steps, m);
    hide Sim, Run, Hygienic, Init, QueuesFit, ValidConfig, AcceptedIn, ExecutedIn, OneAtATime, NicWork, ReaderWork,
         ExecutedN,
         Queued, ReaderLimits, NicSteps, Pairs;
    var ss1, steps1 := ss[..m + 1], steps[..m];
    NicRunsDry(c, ss1, steps1, k);
    RunOneAtATime(c, ss1, steps1);
    var h1 := RunSim(c, ss1, steps1);
    ExecutedBehindQueued(c, ss[m], h1);
    WorkIsLeft(c, ss[m], h1);
    var h := ReaderRunsDry(c, ss, steps, m, h1);
    Tracked(c, ss, steps, h);
  }

  lemma PrefixRun(c: Config, ss: seq<State>, steps: seq<Step>, m: nat)
    requires GoodRun(c, ss, steps) && m <= |steps|
    ensures GoodRun(c, ss[..m + 1], steps[..m]) && |ss| == |steps| + 1
  {
    hide Apply, Enabled, HygienicStep, QueuesFit, ValidConfig;
  }

  // ---- why the value limit matters ----

  /** No keys are asked for, no values are asked for, or more values than there are calls. */
  predicate Starving(c: Config, steps: seq<Step>) {
    c.keyLimit == 0 || c.valueLimit == 0 || |CallsIn(steps)| < c.valueLimit
  }

  /** A call past its first space check will become a record. */
  function Coming(s: State): nat { if s.writer.WChecked? then 1 else 0 }

  predicate NotExecuting(c: Config, s: State) {
    && !s.reader.Clean? && !s.reader.Free? && (s.reader.Exec? ==> s.reader.todo == 0)
    && (c.valueLimit == 0 || c.keyLimit == 0 ==> !s.reader.ValueRead? && (s.reader.ValueTop? ==> s.reader.num == 0))
    && (c.keyLimit == 0 ==> s.tail.pending == [] && !s.reader.KeyParse? && !s.reader.KeyDirty?)
  }

  lemma StepStarves(c: Config, s: State, a: Step, h: Hist)
    requires Sim(c, s, h) && Enabled(c, s, a) && NotExecuting(c, s)
    requires c.keyLimit == 0 || c.valueLimit == 0 || |h.recs| < c.valueLimit
    ensures NotExecuting(c, Apply(c, s, a)) && !EventOf(c, s, a).Executed?
    ensures |NextHist(c, s, a, h).recs| + Coming(Apply(c, s, a)) <= |h.recs| + Coming(s) + if a.WBegin? then 1 else 0
  {
    hide ValuesFrom, LogsFrom, DirtyOk, SendingOk, RecsOk, QueuesFit, ValidConfig, BufferOk, NicOk, WriterOk,
         PointersOk, Parse, Wrap, LogKey, FragAddr, ValuePos, Slot, Start, NextWr, CStr, Len, MayWrite,
         Poke, Reserves, HasRoom, FieldRef, TagSet;
    if a.WRecheck? {
      HeadSteps.RecheckPasses(c, s, h);
    }
  }

  lemma {:induction false} StarvedRun(c: Config, ss: seq<State>, steps: seq<Step>) returns (h: Hist)
    requires GoodRun(c, ss, steps) && Starving(c, steps)
    ensures Sim(c, ss[|steps|], h) && NotExecuting(c, ss[|steps|]) && ExecutedIn(c, ss, steps) == []
    ensures |h.recs| + Coming(ss[|steps|]) <= |CallsIn(steps)|
    decreases |steps|
  {
    hide Sim, Apply, Enabled, HygienicStep, QueuesFit, ValidConfig, EventOf, NextHist;
    if steps == [] {
      h := Hist([], 0, 0);
      StartOfRun(c, ss[0]);
    } else {
      var n := |steps| - 1;
      h := StarvedRun(c, ss[..n + 1], steps[..n]);
      StepStarves(c, ss[n], steps[n], h);
      StepSim(c, ss[n], steps[n], h);
      h := NextHist(c, ss[n], steps[n], h);
    }
  }

  /** A reader that waits for batches starves: with a limit of 0, or fewer calls than the value limit, nothing is ever
      executed, whatever the schedule. */
  lemma SmallBatchesStarve(c: Config, ss: seq<State>, steps: seq<Step>)
    requires GoodRun(c, ss, steps) && Starving(c, steps)
    ensures ExecutedIn(c, ss, steps) == []
  {
    var h := StarvedRun(c, ss, steps);
  }
}
