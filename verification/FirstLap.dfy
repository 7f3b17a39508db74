/** Tag hygiene needs no hypothesis while the ring is written for the first time, because the tail hands out a
    zeroed buffer. */
module FirstLap {
  import opened Ring
  import opened Layout
  import opened Replication
  import opened Simulation
  import opened Theorems
  import HeadSteps

  /** Bytes asked for by all head_node_write_log calls. */
  function Asked(steps: seq<Step>): nat {
    if steps == [] then 0 else
    Asked(steps[..|steps| - 1]) + (match steps[|steps| - 1] case WBegin(rec) => Len(rec) case _ => 0)
  }

  /** Slots beyond everything ever reserved are still zero. */
  ghost predicate Untouched(buf: seq<byte>, recs: seq<Rec>) {
    forall u :: Start(recs, |recs|) <= u < |buf| ==> buf[u] == 0
  }

  function Reserving(s: State): nat {
    if s.writer.WChecked? then Len(s.writer.rec) else 0
  }

  lemma StepUntouched(c: Config, s: State, a: Step, h: Hist)
    requires Sim(c, s, h) && Enabled(c, s, a) && Untouched(s.buf, h.recs) && Start(h.recs, |h.recs|) <= c.size
    ensures Start(NextHist(c, s, a, h).recs, |NextHist(c, s, a, h).recs|) + Reserving(Apply(c, s, a))
         <= Start(h.recs, |h.recs|) + Reserving(s) + (if a.WBegin? then Len(a.rec) else 0)
    ensures Untouched(Apply(c, s, a).buf, NextHist(c, s, a, h).recs)
  {
    hide ValuesFrom, LogsFrom, DirtyOk, SendingOk, RecsOk, QueuesFit, ValidConfig, BufferOk, ReaderOk, NicOk, WriterOk,
         PointersOk, OrderOk, Parse, Wrap, LogKey, FragAddr, ValuePos, Slot, Start, NextWr, CStr, Len, MayWrite,
         Poke, Reserves, HasRoom;
    if a.WRecheck? {
      HeadSteps.RecheckPasses(c, s, h);
      HeadSteps.StartNext(h.recs, s.writer.rec);
    } else if a.WByte? || a.NByte? {
      TransferUntouched(c, s, a, h);
    }
  }

  lemma TransferUntouched(c: Config, s: State, a: Step, h: Hist)
    requires Sim(c, s, h) && Enabled(c, s, a) && Untouched(s.buf, h.recs) && Start(h.recs, |h.recs|) <= c.size
    requires a.WByte? || a.NByte?
    ensures Untouched(Apply(c, s, a).buf, h.recs)
  {
    hide ValuesFrom, LogsFrom, DirtyOk, SendingOk, RecsOk, QueuesFit, ValidConfig, BufferOk, ReaderOk, NicOk, WriterOk,
         PointersOk, FragAddr, ValuePos, Slot, Start, Poke, MayWrite, Untouched, Mate;
    if a.WByte? {
      HeadSteps.MateSlot(c, s, h, a.i);
      PokeUntouched(c, s, h, |h.recs| - 1, a.i, Mate(s.writer.log.rec)[a.i]);
    } else {
      HeadSteps.ValueSlot(c, s, h, a.i);
      PokeUntouched(c, s, h, Taken(s, h) - 1, MateLen(s.nic.log.rec) + a.i, ValueBytes(s.nic.log.rec)[a.i]);
    }
  }

  lemma PokeUntouched(c: Config, s: State, h: Hist, i: int, j: nat, b: byte)
    requires c.size > 0 && |s.buf| == c.size && Untouched(s.buf, h.recs) && Start(h.recs, |h.recs|) <= c.size
    requires 0 <= i < |h.recs| && j < Len(h.recs[i])
    ensures Untouched(Poke(s.buf, Slot(c.size, Start(h.recs, i) + j), b), h.recs)
  {
    HeadSteps.RecordFits(h.recs, 0, i);
    assert Start(h.recs, i) + j < c.size;
  }

  lemma {:induction false} FirstLapSim(c: Config, ss: seq<State>, steps: seq<Step>) returns (h: Hist)
    requires ValidConfig(c) && c.size > 0 && QueuesFit(c) && Run(c, ss, steps) && Asked(steps) <= c.size
    ensures Hygienic(c, ss, steps) && Sim(c, ss[|steps|], h) && Untouched(ss[|steps|].buf, h.recs)
    ensures Start(h.recs, |h.recs|) + Reserving(ss[|steps|]) <= Asked(steps)
    decreases |steps|
  {
    hide Sim, Apply, NextHist, Enabled, HygienicStep, Untouched, Reserving, Init, QueuesFit, ValidConfig;
    if steps == [] {
      h := Hist([], 0, 0);
      FreshStart(c, ss[0]);
    } else {
      var n := |steps| - 1;
      h := FirstLapSim(c, ss[..n + 1], steps[..n]);
      var s, a := ss[n], steps[n];
      if a.WRecheck? {
        ReserveIsClean(c, s, h);
      }
      assert HygienicStep(c, s, a) by {
        if !a.WRecheck? { OnlyReserving(c, s, a); }
      }
      StepUntouched(c, s, a, h);
      StepSim(c, s, a, h);
      h := NextHist(c, s, a, h);
    }
  }

  lemma OnlyReserving(c: Config, s: State, a: Step)
    requires c.size > 0 && !a.WRecheck?
    ensures HygienicStep(c, s, a)
  {
  }

  lemma FreshStart(c: Config, s: State)
    requires ValidConfig(c) && c.size > 0 && QueuesFit(c) && Init(c, s)
    ensures Sim(c, s, Hist([], 0, 0)) && Untouched(s.buf, []) && Reserving(s) == 0
  {
    HeadSteps.SimInit(c, s);
  }

  lemma ReserveIsClean(c: Config, s: State, h: Hist)
    requires Sim(c, s, h) && Enabled(c, s, WRecheck) && Untouched(s.buf, h.recs)
    requires Start(h.recs, |h.recs|) + Reserving(s) <= c.size
    ensures HygienicStep(c, s, WRecheck)
  {
    hide ValuesFrom, LogsFrom, DirtyOk, SendingOk, RecsOk, QueuesFit, BufferOk, ReaderOk, NicOk, WriterOk, Start, Wrap;
    WrapAdd(c.size, s.wr, Start(h.recs, |h.recs|), Len(s.writer.rec) - 1);
  }

  /** As long as the head asks for no more than one ring full of bytes, every run is hygienic, and so the tail
      executes a prefix of what was accepted without any assumption about tags. */
  lemma FirstLapNeedsNoHygiene(c: Config, ss: seq<State>, steps: seq<Step>)
    requires ValidConfig(c) && c.size > 0 && QueuesFit(c) && Run(c, ss, steps) && Asked(steps) <= c.size
    ensures GoodRun(c, ss, steps)
    ensures ExecutedIn(c, ss, steps) <= AcceptedIn(c, ss, steps)
  {
    var h := FirstLapSim(c, ss, steps);
    hide Run, Hygienic;
    ExecutedIsPrefixOfAccepted(c, ss, steps);
  }
}
