/** Building runs: schedules that bring a record from the call to its execution, and what they leave alone in the
    ring. */
module Schedules {
  import opened Ring
  import opened Layout
  import opened Replication
  import opened Simulation
  import opened Theorems
  import opened Progress
  import HeadSteps

  // ---- runs and what is observed of them ----

  /** The records called for, the pairs accepted and the pairs executed. */
  datatype Obs = Obs(calls: seq<Rec>, acc: seq<Pair>, exe: seq<Pair>)

  datatype Trace = Trace(ss: seq<State>, steps: seq<Step>)

  ghost predicate Ends(c: Config, ss: seq<State>, steps: seq<Step>, s: State, o: Obs) {
    && c.size > 0 && Run(c, ss, steps) && ss[|steps|] == s
    && CallsIn(steps) == o.calls && AcceptedIn(c, ss, steps) == o.acc && ExecutedIn(c, ss, steps) == o.exe
  }

  /** Some run, hygienic or not, continues `b` and ends in `s` with the observations `o`. */
  ghost predicate Reach(c: Config, b: Trace, s: State, o: Obs) {
    exists ss, steps :: b.ss <= ss && b.steps <= steps && Ends(c, ss, steps, s, o)
  }

  function Observe(c: Config, s: State, a: Step, o: Obs): Obs
    requires c.size > 0 && Enabled(c, s, a)
  {
    var e := EventOf(c, s, a);
    Obs(o.calls + (if a.WBegin? then [a.rec] else []),
        o.acc + (if e.Accepted? then [(e.key, e.value)] else []),
        o.exe + (if e.Executed? then [(e.key, e.value)] else []))
  }

  lemma ReachStep(c: Config, b: Trace, s: State, a: Step, o: Obs)
    requires c.size > 0 && Reach(c, b, s, o) && Enabled(c, s, a)
    ensures Reach(c, b, Apply(c, s, a), Observe(c, s, a, o))
  {
    hide Apply, Enabled, Init, EventOf;
    var ss, steps :| b.ss <= ss && b.steps <= steps && Ends(c, ss, steps, s, o);
    var ss', steps' := ss + [Apply(c, s, a)], steps + [a];
    forall i | 0 <= i < |steps'|
      ensures Enabled(c, ss'[i], steps'[i]) && ss'[i + 1] == Apply(c, ss'[i], steps'[i])
    {
      if i < |steps| {
        assert ss'[i] == ss[i] && ss'[i + 1] == ss[i + 1] && steps'[i] == steps[i];
      }
    }
    assert ss'[..|steps| + 1] == ss && steps'[..|steps|] == steps;
    assert Ends(c, ss', steps', Apply(c, s, a), Observe(c, s, a, o));
  }

  lemma Unobserved(c: Config, s: State, a: Step, o: Obs)
    requires c.size > 0 && Enabled(c, s, a) && !a.WBegin? && EventOf(c, s, a).Silent?
    ensures Observe(c, s, a, o) == o
  {
  }

  lemma SizePositive(c: Config, p: State, h: Hist)
    requires Sim(c, p, h)
    ensures c.size > 0 && |p.buf| == c.size && h.freed <= |h.recs|
  {
  }

  // ---- frames ----

  /** Only slots of the counters [lo, hi) have changed. */
  ghost predicate Kept(before: seq<byte>, after: seq<byte>, lo: nat, hi: nat) {
    && |after| == |before| > 0
    && forall y :: 0 <= y < |before| && after[y] != before[y] ==> Inside(|before|, lo, hi, y)
  }

  ghost predicate Inside(size: nat, lo: nat, hi: nat, y: nat)
    requires size > 0
  {
    exists u :: lo <= u < hi && Slot(size, u) == y
  }

  lemma PokeKept(before: seq<byte>, mid: seq<byte>, lo: nat, hi: nat, u: nat, b: byte)
    requires Kept(before, mid, lo, hi) && lo <= u < hi
    ensures Kept(before, Poke(mid, Slot(|mid|, u), b), lo, hi)
  {
    hide Slot;
    assert Inside(|before|, lo, hi, Slot(|mid|, u));
  }

  lemma KeptAt(before: seq<byte>, after: seq<byte>, lo: nat, hi: nat, v: nat)
    requires Kept(before, after, lo, hi) && hi <= v < lo + |before|
    ensures after[Slot(|before|, v)] == before[Slot(|before|, v)]
  {
    hide Slot;
    var y := Slot(|before|, v);
    if after[y] != before[y] {
      var u :| lo <= u < hi && Slot(|before|, u) == y;
      SlotsDiffer(|before|, u, v);
    }
  }

  lemma KeptTwice(a: seq<byte>, b: seq<byte>, d: seq<byte>, lo: nat, mid: nat, hi: nat)
    requires Kept(a, b, lo, mid) && Kept(b, d, mid, hi) && lo <= mid <= hi
    ensures Kept(a, d, lo, hi)
  {
    hide Slot;
    var size := |a|;
    forall y | 0 <= y < size && d[y] != a[y] ensures Inside(size, lo, hi, y) {
      if b[y] != a[y] {
        var u :| lo <= u < mid && Slot(size, u) == y;
      } else {
        var u :| mid <= u < hi && Slot(size, u) == y;
      }
    }
  }

  lemma KeptSelf(buf: seq<byte>, lo: nat, hi: nat)
    requires |buf| > 0
    ensures Kept(buf, buf, lo, hi)
  {
  }

  // ---- twins: two states whose heads work on records that differ in the value only ----

  /** Same header, same key, a value field of the same length. */
  predicate Alike(r: Rec, q: Rec) {
    r.key == q.key && r.rest == q.rest && |r.data| == |q.data|
  }

  predicate AlikeLogs(l: HeadLog, m: HeadLog) {
    l.pos == m.pos && Alike(l.rec, m.rec)
  }

  predicate AlikeWriters(w: WriterPc, v: WriterPc) {
    match w
    case WIdle => v.WIdle?
    case WChecked(rec) => v.WChecked? && Alike(rec, v.rec)
    case WWriting(log, written) => v.WWriting? && AlikeLogs(log, v.log) && written == v.written
    case WPublishing(log) => v.WPublishing? && AlikeLogs(log, v.log)
    case WQueueing(log) => v.WQueueing? && AlikeLogs(log, v.log)
  }

  /** The ring bytes agree except perhaps in slot `x`; the tails are the same. */
  ghost predicate Twins(s: State, p: State, x: nat) {
    && |s.buf| == |p.buf| && (forall y :: 0 <= y < |s.buf| && y != x ==> s.buf[y] == p.buf[y])
    && s.wr == p.wr && s.rdCached == p.rdCached && s.tail == p.tail && s.reader == p.reader && s.nic == p.nic
    && |s.sending| == |p.sending| && AlikeWriters(s.writer, p.writer)
  }

  lemma TwinSelf(s: State, x: nat)
    ensures Twins(s, s, x)
  {
  }

  predicate Writes(a: Step) { a.WRecheck? || a.WByte? || a.WAdvance? || a.WPublish? || a.WEnqueue? }

  /** The writer cannot tell the twins apart. */
  lemma TwinWriters(c: Config, s: State, p: State, x: nat, a: Step)
    requires c.size > 0 && Twins(s, p, x) && Writes(a) && Enabled(c, p, a)
    ensures Enabled(c, s, a) && Twins(Apply(c, s, a), Apply(c, p, a), x)
  {
    hide AllWritten, Wrap, FragAddr, FragLeft, Poke, NextWr, Mate, Reserves;
    if a.WRecheck? {
      TwinReserve(c, s, p, x);
    } else if a.WByte? {
      var log := s.writer.log;
      TwinMate(log.rec, p.writer.log.rec);
      TwinPoke(s.buf, p.buf, x, FragAddr(c.size, log.pos, MateLen(log.rec), a.i), Mate(log.rec)[a.i]);
    } else if a.WAdvance? {
      TwinAdvance(c.size, s.writer.log, p.writer.log);
    }
  }

  lemma TwinReserve(c: Config, s: State, p: State, x: nat)
    requires c.size > 0 && Twins(s, p, x) && p.writer.WChecked? && s.writer.WChecked?
    ensures Reserves(c, s) == Reserves(c, p)
  {
  }

  lemma TwinMate(r: Rec, q: Rec)
    requires Alike(r, q)
    ensures Mate(r) == Mate(q)
  {
  }

  lemma SameLengths(r: Rec, q: Rec)
    requires Alike(r, q)
    ensures Len(r) == Len(q) && MateLen(r) == MateLen(q)
  {
  }

  lemma TwinAdvance(size: nat, l: HeadLog, m: HeadLog)
    requires l.pos <= size && AlikeLogs(l, m)
    ensures NextWr(size, l) == NextWr(size, m)
  {
  }

  lemma TwinPoke(b: seq<byte>, d: seq<byte>, x: nat, at: nat, v: byte)
    requires |b| == |d| && forall y :: 0 <= y < |b| && y != x ==> b[y] == d[y]
    ensures forall y :: 0 <= y < |b| && y != x ==> Poke(b, at, v)[y] == Poke(d, at, v)[y]
  {
  }

  // ---- the call and its reservation ----

  /** The slot the tag of the next record will go to. */
  ghost function NextTag(c: Config, h: Hist, rec: Rec): nat
    requires c.size > 0
  {
    Slot(c.size, Start(h.recs, |h.recs|) + Len(rec) - 1)
  }

  /** Where the tag of the record being written goes. */
  ghost function TagSlot(c: Config, h: Hist): nat
    requires c.size > 0 && h.recs != []
  {
    Slot(c.size, Start(h.recs, |h.recs|) - 1)
  }

  lemma TagSlotBelow(c: Config, h: Hist)
    requires c.size > 0 && h.recs != []
    ensures 0 <= TagSlot(c, h) < c.size
  {
  }

  /** The call gets past its first space check. */
  lemma Begin(c: Config, b: Trace, s: State, h: Hist, rec: Rec, o: Obs) returns (z: State)
    requires Sim(c, s, h) && s.writer.WIdle? && Reach(c, b, s, o) && ValidRec(c, rec) && FromCall(rec)
    requires c.size > 0 && Len(rec) <= FreeSize(c.size, s.wr, s.tail.rd)
    ensures Reach(c, b, z, o.(calls := o.calls + [rec])) && Sim(c, z, h.(cached := h.freed))
    ensures z == s.(writer := WChecked(rec), rdCached := s.tail.rd)
  {
    hide Sim, Reach, Len, ValidRec, FreeSize, FromCall;
    var a := WBegin(rec);
    z := Apply(c, s, a);
    StepSim(c, s, a, h);
    ReachStep(c, b, s, a, o);
    assert o.acc + [] == o.acc && o.exe + [] == o.exe;
  }

  /** A run ends in `s`; `p` is a twin of `s` that a hygienic history explains. */
  ghost predicate Both(c: Config, b: Trace, s: State, p: State, h: Hist, o: Obs) {
    && Reach(c, b, s, o) && Sim(c, p, h) && c.size > 0
    && h.recs != [] && Twins(s, p, TagSlot(c, h))
  }

  predicate Busy(w: WriterPc) { w.WWriting? || w.WPublishing? || w.WQueueing? }

  /** What the writer has done since `s0` and `p0`: bytes of its header and key, and nothing else. */
  ghost predicate Writing(c: Config, s: State, p: State, h: Hist, s0: State, p0: State) {
    && h.recs != [] && c.size > 0
    && Busy(s.writer) && Busy(s0.writer) && s.writer.log == s0.writer.log
    && Busy(p.writer) && Busy(p0.writer) && p.writer.log == p0.writer.log
    && |s.buf| == |s0.buf| == c.size && s.buf[TagSlot(c, h)] == s0.buf[TagSlot(c, h)]
    && (var u := Start(h.recs, |h.recs| - 1); Kept(p0.buf, p.buf, u, u + MateLen(p0.writer.log.rec)))
    && p.nic == p0.nic && p.sending == p0.sending && p.reader == p0.reader && p.tail == p0.tail.(wr := p.tail.wr)
  }

  /** The reservation, in a state and in its hygienic twin. */
  lemma Reserve(c: Config, b: Trace, s: State, p: State, h: Hist, o: Obs) returns (s': State, p': State, h': Hist)
    requires Reach(c, b, s, o) && Sim(c, p, h)
    requires p.writer.WChecked? && s.writer.WChecked? && c.size > 0 && |p.buf| == c.size
    requires Twins(s, p, NextTag(c, h, p.writer.rec)) && p.buf[NextTag(c, h, p.writer.rec)] != TAG
    ensures h' == Hist(h.recs + [p.writer.rec], h.freed, h.freed) && TagSlot(c, h') == NextTag(c, h, p.writer.rec)
    ensures Both(c, b, s', p', h', o) && Writing(c, s', p', h', s', p')
    ensures s' == s.(rdCached := s.tail.rd, writer := WWriting(HeadLog(s.writer.rec, s.wr), {}))
    ensures p' == p.(rdCached := p.tail.rd, writer := WWriting(HeadLog(p.writer.rec, p.wr), {}))
  {
    hide *;
    var x := NextTag(c, h, p.writer.rec);
    CleanReserve(c, p, h);
    HeadSteps.RecheckPasses(c, p, h);
    TwinReserve(c, s, p, x);
    Reserved(c, s, h);
    Reserved(c, p, h);
    s', p', h' := Apply(c, s, WRecheck), Apply(c, p, WRecheck), NextHist(c, p, WRecheck, h);
    ReserveTwin(c, b, s, p, h, x, o);
    ReserveSlot(c, h, p.writer.rec);
    ReserveBusy(c, s, p, x, s', p', h');
    JoinBoth(c, b, s', p', h', o);
  }

  lemma ReserveTwin(c: Config, b: Trace, s: State, p: State, h: Hist, x: nat, o: Obs)
    requires Reach(c, b, s, o) && Sim(c, p, h) && Twins(s, p, x)
    requires c.size > 0 && Enabled(c, s, WRecheck) && Enabled(c, p, WRecheck) && HygienicStep(c, p, WRecheck)
    ensures Reach(c, b, Apply(c, s, WRecheck), o) && Sim(c, Apply(c, p, WRecheck), NextHist(c, p, WRecheck, h))
    ensures Twins(Apply(c, s, WRecheck), Apply(c, p, WRecheck), x)
  {
    hide Sim, Reach, Apply, HygienicStep, NextHist, Twins, Enabled, Observe;
    var a := WRecheck;
    TwinWriters(c, s, p, x, a);
    StepSim(c, p, a, h);
    ReachStep(c, b, s, a, o);
    Unobserved(c, s, a, o);
  }

  lemma ReserveBusy(c: Config, s: State, p: State, x: nat, s': State, p': State, h': Hist)
    requires c.size > 0 && h'.recs != [] && Twins(s, p, x) && |p.buf| == c.size && s'.buf == s.buf && p'.buf == p.buf
    requires p'.writer.WWriting? && s'.writer.WWriting?
    ensures Writing(c, s', p', h', s', p')
  {
  }

  lemma JoinBoth(c: Config, b: Trace, s: State, p: State, h: Hist, o: Obs)
    requires Reach(c, b, s, o) && Sim(c, p, h) && c.size > 0 && h.recs != [] && Twins(s, p, TagSlot(c, h))
    ensures Both(c, b, s, p, h, o)
  {
  }

  lemma Reserved(c: Config, s: State, h: Hist)
    requires c.size > 0 && s.writer.WChecked? && Reserves(c, s)
    ensures Enabled(c, s, WRecheck)
    ensures Apply(c, s, WRecheck) == s.(rdCached := s.tail.rd, writer := WWriting(HeadLog(s.writer.rec, s.wr), {}))
    ensures NextHist(c, s, WRecheck, h) == Hist(h.recs + [s.writer.rec], h.freed, h.freed)
  {
  }

  lemma ReserveSlot(c: Config, h: Hist, rec: Rec)
    requires c.size > 0
    ensures TagSlot(c, Hist(h.recs + [rec], h.freed, h.freed)) == NextTag(c, h, rec)
  {
    StartPrefix(h.recs, rec, |h.recs|);
  }

  lemma CleanReserve(c: Config, p: State, h: Hist)
    requires Sim(c, p, h) && p.writer.WChecked? && c.size > 0
    requires |p.buf| == c.size && p.buf[NextTag(c, h, p.writer.rec)] != TAG
    ensures HygienicStep(c, p, WRecheck)
  {
    hide Sim, Start, Slot, Wrap, Reserves;
    TagPlace(c, p, h, p.writer.rec);
  }

  /** The slot of the next tag, computed from the write pointer. */
  lemma TagPlace(c: Config, p: State, h: Hist, rec: Rec)
    requires Sim(c, p, h) && (p.writer.WIdle? || p.writer.WChecked?) && c.size > 0
    ensures Wrap(c.size, p.wr + Len(rec) - 1) == NextTag(c, h, rec)
  {
    hide ValuesFrom, LogsFrom, DirtyOk, SendingOk, RecsOk, QueuesFit, BufferOk, ReaderOk, NicOk, WriterOk, Start,
         Slot, Wrap;
    WrapAdd(c.size, p.wr, Start(h.recs, |h.recs|), Len(rec) - 1);
  }

  // ---- the writer publishes and queues its record ----

  function WriterWork(w: WriterPc): nat {
    match w
    case WIdle => 0
    case WChecked(_) => 4
    case WWriting(log, written) => 3 + Missing(MateLen(log.rec), written)
    case WPublishing(_) => 2
    case WQueueing(_) => 1
  }

  lemma WriterAdvances(c: Config, p: State, h: Hist) returns (a: Step)
    requires Sim(c, p, h) && (p.writer.WWriting? || p.writer.WPublishing?)
    ensures Writes(a) && !a.WRecheck? && !a.WEnqueue? && Enabled(c, p, a) && HygienicStep(c, p, a)
    ensures NextHist(c, p, a, h) == h && WriterWork(Apply(c, p, a).writer) < WriterWork(p.writer)
    ensures var w := Apply(c, p, a).writer; Busy(w) && w.log == p.writer.log
  {
    hide ValuesFrom, LogsFrom, DirtyOk, SendingOk, RecsOk, QueuesFit, ValidConfig, BufferOk, Slot, Start, ReaderOk,
         NicOk, PointersOk, Wrap, Poke, FragAddr, NextWr;
    match p.writer
    case WWriting(log, written) =>
      var i := FirstMissing(MateLen(log.rec), written);
      if i < MateLen(log.rec) {
        a := WByte(i);
        MissingFalls(MateLen(log.rec), written, i);
      } else {
        a := WAdvance;
      }
    case WPublishing(_) => a := WPublish;
  }

  /** What the writer's steps leave alone. */
  lemma WriterFrame(c: Config, p: State, h: Hist, a: Step, before: seq<byte>)
    requires Sim(c, p, h) && Busy(p.writer) && Writes(a) && !a.WRecheck? && !a.WEnqueue? && Enabled(c, p, a)
    requires var u := Start(h.recs, |h.recs| - 1); Kept(before, p.buf, u, u + MateLen(p.writer.log.rec))
    ensures
      var u, z := Start(h.recs, |h.recs| - 1), Apply(c, p, a);
      && Kept(before, z.buf, u, u + MateLen(p.writer.log.rec))
      && z.nic == p.nic && z.reader == p.reader && z.tail == p.tail.(wr := z.tail.wr) && z.sending == p.sending
  {
    hide ValuesFrom, LogsFrom, DirtyOk, SendingOk, RecsOk, QueuesFit, ValidConfig, BufferOk, Slot, Start, ReaderOk,
         NicOk, PointersOk, Wrap, Poke, FragAddr, NextWr, Kept, Mate, MayWrite, HasRoom;
    if a.WByte? {
      var u := Start(h.recs, |h.recs| - 1);
      HeadSteps.MateSlot(c, p, h, a.i);
      PokeKept(before, p.buf, u, u + MateLen(p.writer.log.rec), u + a.i, Mate(p.writer.log.rec)[a.i]);
    }
  }

  lemma MateNotTag(c: Config, p: State, h: Hist, i: nat)
    requires Sim(c, p, h) && Enabled(c, p, WByte(i)) && h.recs != []
    ensures FragAddr(c.size, p.writer.log.pos, MateLen(p.writer.log.rec), i) != TagSlot(c, h)
  {
    hide ValuesFrom, LogsFrom, DirtyOk, SendingOk, RecsOk, QueuesFit, ValidConfig, BufferOk, Slot, Start, ReaderOk,
         WriterOk, NicOk, PointersOk, QueuesOk, Wrap, FragAddr, Mate, MayWrite;
    HeadSteps.MateSlot(c, p, h, i);
    HeadSteps.RecordFits(h.recs, h.freed, |h.recs| - 1);
    SlotsDiffer(c.size, Start(h.recs, |h.recs| - 1) + i, Start(h.recs, |h.recs|) - 1);
  }

  lemma TagStays(c: Config, s: State, p: State, h: Hist, a: Step)
    requires Sim(c, p, h) && h.recs != [] && Busy(p.writer) && Writes(a) && Enabled(c, p, a) && Enabled(c, s, a)
    requires Twins(s, p, TagSlot(c, h))
    ensures |Apply(c, s, a).buf| == |s.buf| == c.size && Apply(c, s, a).buf[TagSlot(c, h)] == s.buf[TagSlot(c, h)]
  {
    hide Sim, TagSlot, MayWrite, Reserves, NextWr, Mate, HasRoom;
    SizePositive(c, p, h);
    TagSlotBelow(c, h);
    if a.WByte? {
      MateNotTag(c, p, h, a.i);
    }
  }

  lemma QuietWriter(c: Config, s: State, a: Step)
    requires c.size > 0 && Writes(a) && !a.WEnqueue? && Enabled(c, s, a)
    ensures !a.WBegin? && EventOf(c, s, a).Silent?
  {
  }

  lemma SameLog(c: Config, s: State, a: Step)
    requires c.size > 0 && Busy(s.writer) && Writes(a) && !a.WRecheck? && !a.WEnqueue? && Enabled(c, s, a)
    ensures Busy(Apply(c, s, a).writer) && Apply(c, s, a).writer.log == s.writer.log
  {
  }

  lemma WriterStep(c: Config, b: Trace, s: State, p: State, h: Hist, o: Obs, s0: State, p0: State) returns (a: Step)
    requires Both(c, b, s, p, h, o) && Writing(c, s, p, h, s0, p0) && (p.writer.WWriting? || p.writer.WPublishing?)
    ensures Enabled(c, s, a) && Enabled(c, p, a)
    ensures
      var s1, p1 := Apply(c, s, a), Apply(c, p, a);
      Both(c, b, s1, p1, h, o) && Writing(c, s1, p1, h, s0, p0) && WriterWork(p1.writer) < WriterWork(p.writer)
  {
    hide Sim, Reach, Apply, Enabled, EventOf, HygienicStep, NextHist, Kept, Writes, Start, TagSlot,
         Twins, AlikeWriters, WriterWork, Busy, MateLen, Observe;
    a := WriterAdvances(c, p, h);
    var x := TagSlot(c, h);
    WriterFrame(c, p, h, a, p0.buf);
    TwinWriters(c, s, p, x, a);
    TagStays(c, s, p, h, a);
    StepSim(c, p, a, h);
    ReachStep(c, b, s, a, o);
    QuietWriter(c, s, a);
    Unobserved(c, s, a, o);
    SameLog(c, s, a);
  }

  lemma Publishable(c: Config, s: State, p: State, h: Hist, s0: State, p0: State)
    requires Writing(c, s, p, h, s0, p0)
    ensures c.size > 0 && (p.writer.WWriting? || p.writer.WPublishing? || p.writer.WQueueing?)
  {
  }

  /** Both heads publish their record. */
  lemma {:induction false} WriterPublishes(c: Config, b: Trace, s: State, p: State, h: Hist, o: Obs, s0: State,
                                           p0: State)
    returns (s': State, p': State)
    requires Both(c, b, s, p, h, o) && Writing(c, s, p, h, s0, p0)
    ensures Both(c, b, s', p', h, o) && Writing(c, s', p', h, s0, p0) && p'.writer.WQueueing?
    ensures s == p ==> s' == p'
    decreases WriterWork(p.writer)
  {
    hide *;
    Publishable(c, s, p, h, s0, p0);
    if p.writer.WQueueing? {
      s', p' := s, p;
    } else {
      var a := WriterStep(c, b, s, p, h, o, s0, p0);
      s', p' := WriterPublishes(c, b, Apply(c, s, a), Apply(c, p, a), h, o, s0, p0);
    }
  }

  /** The last step of the writer. */
  lemma Enqueue(c: Config, p: State, h: Hist) returns (z: State)
    requires Sim(c, p, h) && p.writer.WQueueing?
    ensures Sim(c, z, h) && z == p.(sending := p.sending + [p.writer.log], writer := WIdle) && HasRoom(c, p.sending)
  {
    HeadSteps.StepWEnqueue(c, p, h);
    z := Apply(c, p, WEnqueue);
  }

  /** The same step in a reachable twin: there the call returns. */
  lemma Accept(c: Config, b: Trace, s: State, p: State, h: Hist, o: Obs) returns (z: State)
    requires Both(c, b, s, p, h, o) && p.writer.WQueueing?
    ensures s.writer.WQueueing? && z == s.(sending := s.sending + [s.writer.log], writer := WIdle)
    ensures Reach(c, b, z, o.(acc := o.acc + [(s.writer.log.rec.key, Value(s.writer.log.rec))]))
  {
    hide Sim, Reach, TagSlot;
    var _ := Enqueue(c, p, h);
    z := Apply(c, s, WEnqueue);
    ReachStep(c, b, s, WEnqueue, o);
    assert o.calls + [] == o.calls && o.exe + [] == o.exe;
  }

  // ---- the NIC delivers the values ----

  /** All value fields that are not complete lie in [lo, hi). */
  ghost predicate ValuesWithin(h: Hist, done: int, lo: nat, hi: nat) {
    forall i {:trigger Start(h.recs, i)} :: 0 <= i < |h.recs| && done <= i ==>
      lo <= Start(h.recs, i) + MateLen(h.recs[i]) && Start(h.recs, i) + Len(h.recs[i]) <= hi
  }

  /** A byte is transferred only of a value that is not complete. */
  lemma NotDoneYet(c: Config, p: State, h: Hist, i: nat)
    requires Sim(c, p, h) && Enabled(c, p, NByte(i))
    ensures Done(p, h) <= Taken(p, h) - 1
  {
    hide ValuesFrom, LogsFrom, DirtyOk, SendingOk, RecsOk, QueuesFit, ValidConfig, BufferOk, Slot, Start, ReaderOk,
         PointersOk, WriterOk, QueuesOk, Wrap, FragLeft, ValuePos, IsHeadLog;
  }

  lemma NicFrame(c: Config, p: State, h: Hist, a: Step, before: seq<byte>, lo: nat, hi: nat)
    requires Sim(c, p, h) && ValuesWithin(h, Done(p, h), lo, hi) && Kept(before, p.buf, lo, hi)
    requires Enabled(c, p, a) && (a.NTake? || a.NByte? || a.NFinish?)
    ensures
      var z := Apply(c, p, a);
      && z == p.(buf := z.buf, nic := z.nic, sending := z.sending)
      && ValuesWithin(h, Done(z, h), lo, hi) && Kept(before, z.buf, lo, hi)
      && HygienicStep(c, p, a) && NextHist(c, p, a, h) == h && EventOf(c, p, a).Silent?
  {
    hide Sim, Slot, Start, Wrap, Poke, FragAddr, ValuePos, Kept, MayWrite, MateLen, Len, ValueBytes, ValuesWithin;
    SizePositive(c, p, h);
    MoreDone(h, Done(p, h), Done(Apply(c, p, a), h), lo, hi);
    if a.NByte? {
      NicByte(c, p, h, a.i, before, lo, hi);
    }
  }

  lemma MoreDone(h: Hist, done: int, done': int, lo: nat, hi: nat)
    requires ValuesWithin(h, done, lo, hi) && done <= done'
    ensures ValuesWithin(h, done', lo, hi)
  {
    hide Start, MateLen, Len;
  }

  lemma WithinAt(h: Hist, done: int, lo: nat, hi: nat, n: int)
    requires ValuesWithin(h, done, lo, hi) && 0 <= n < |h.recs| && done <= n
    ensures lo <= Start(h.recs, n) + MateLen(h.recs[n]) && Start(h.recs, n) + Len(h.recs[n]) <= hi
  {
    hide Start, MateLen, Len;
  }

  lemma NicByte(c: Config, p: State, h: Hist, i: nat, before: seq<byte>, lo: nat, hi: nat)
    requires Sim(c, p, h) && ValuesWithin(h, Done(p, h), lo, hi) && Kept(before, p.buf, lo, hi)
    requires Enabled(c, p, NByte(i))
    ensures Kept(before, Apply(c, p, NByte(i)).buf, lo, hi)
  {
    hide *;
    SizePositive(c, p, h);
    HeadSteps.ValueByte(c, p, i);
    HeadSteps.ValueSlot(c, p, h, i);
    NotDoneYet(c, p, h, i);
    var n := Taken(p, h) - 1;
    HeadSteps.MateInRecord(h.recs[n]);
    WithinAt(h, Done(p, h), lo, hi, n);
    PokeKept(before, p.buf, lo, hi, Start(h.recs, n) + MateLen(h.recs[n]) + i, ValueBytes(p.nic.log.rec)[i]);
  }

  /** The NIC runs until nothing is left to send. With `follow` the states are those of a run. */
  lemma {:induction false} NicFinishes(c: Config, b: Trace, p: State, h: Hist, before: seq<byte>, lo: nat, hi: nat,
                                       follow: bool, o: Obs)
    returns (p': State)
    requires Sim(c, p, h) && ValuesWithin(h, Done(p, h), lo, hi) && Kept(before, p.buf, lo, hi)
    requires follow ==> Reach(c, b, p, o)
    ensures Sim(c, p', h) && NicWork(p') == 0 && Kept(before, p'.buf, lo, hi)
    ensures p' == p.(buf := p'.buf, nic := p'.nic, sending := p'.sending)
    ensures follow ==> Reach(c, b, p', o)
    decreases NicWork(p)
  {
    hide Sim, Reach, Apply, Enabled, EventOf, HygienicStep, NextHist, Kept, NicWork, ValuesWithin, Done, Observe;
    SizePositive(c, p, h);
    if NicWork(p) == 0 {
      p' := p;
    } else {
      var a := NicAdvances(c, p, h);
      NicFrame(c, p, h, a, before, lo, hi);
      StepSim(c, p, a, h);
      if follow {
        ReachStep(c, b, p, a, o);
        Unobserved(c, p, a, o);
      }
      p' := NicFinishes(c, b, Apply(c, p, a), h, before, lo, hi, follow, o);
    }
  }

  lemma SameReaderSide(s: State, z: State)
    requires OneAtATime(s) && z.reader == s.reader && z.tail == s.tail.(wr := z.tail.wr)
    ensures OneAtATime(z)
  {
  }

  // ---- the reader executes and frees ----

  /** What the reader's steps depend on. */
  ghost predicate SameView(s: State, p: State) {
    s.buf == p.buf && s.tail == p.tail && s.reader == p.reader
  }

  lemma SameReading(c: Config, s: State, p: State)
    requires c.size > 0 && SameView(s, p) && !p.reader.Halted? && Enabled(c, p, ReaderStep(p))
    ensures ReaderStep(s) == ReaderStep(p) && Enabled(c, s, ReaderStep(s))
    ensures
      var s', p' := Apply(c, s, ReaderStep(s)), Apply(c, p, ReaderStep(p));
      && SameView(s', p')
      && s' == s.(tail := s'.tail, reader := s'.reader) && p' == p.(tail := p'.tail, reader := p'.reader)
    ensures EventOf(c, s, ReaderStep(s)) == EventOf(c, p, ReaderStep(p))
    ensures !EventOf(c, p, ReaderStep(p)).Accepted? && !ReaderStep(p).WBegin?
  {
    hide Wrap, FragAddr, LogKey, LogValue, CStr, Parse, DataSize, TagSet, FieldRef;
  }

  lemma ReaderGoesOn(c: Config, p: State, h: Hist)
    requires Sim(c, p, h) && OneAtATime(p) && ReaderLimits(c)
    requires p.writer.WIdle? && NicWork(p) == 0 && h.freed < |h.recs|
    ensures !p.reader.Halted? && Enabled(c, p, ReaderStep(p)) && HygienicStep(c, p, ReaderStep(p))
    ensures 0 <= ReaderWork(Apply(c, p, ReaderStep(p)), NextHist(c, p, ReaderStep(p), h)) < ReaderWork(p, h)
    ensures NextHist(c, p, ReaderStep(p), h).recs == h.recs && NextHist(c, p, ReaderStep(p), h).freed <= |h.recs|
  {
    ExecutedBehindQueued(c, p, h);
    hide Sim, Apply, ReaderWork, NicWork;
    if ExecutedN(p, h) < Queued(p, h) {
      ReaderAdvances(c, p, h);
    } else {
      ExecPhaseAdvances(c, p, h);
    }
  }

  lemma {:induction false} ReaderFinishes(c: Config, b: Trace, s: State, p: State, h: Hist, o: Obs)
    returns (s': State, p': State, h': Hist)
    requires Sim(c, p, h) && OneAtATime(p) && ReaderLimits(c)
    requires p.writer.WIdle? && NicWork(p) == 0 && SameView(s, p)
    requires 0 <= ExecutedN(p, h) <= |h.recs| && h.freed <= |h.recs|
    requires Reach(c, b, s, o) && o.exe == Pairs(h.recs, ExecutedN(p, h))
    ensures Sim(c, p', h') && OneAtATime(p') && NicWork(p') == 0
    ensures h'.recs == h.recs && h'.freed == |h.recs|
    ensures Reach(c, b, s', o.(exe := Pairs(h.recs, |h.recs|)))
    ensures s' == s.(tail := s'.tail, reader := s'.reader) && p' == p.(tail := p'.tail, reader := p'.reader)
    ensures s == p ==> s' == p'
    decreases ReaderWork(p, h)
  {
    assert c.size > 0;
    hide Sim, Reach, Apply, Enabled, EventOf, HygienicStep, NextHist, OneAtATime, ReaderLimits, NicWork,
         SameView, ReaderWork, Pairs, ReaderStep;
    if h.freed == |h.recs| {
      AllExecuted(c, p, h);
      s', p', h' := s, p, h;
    } else {
      ReaderGoesOn(c, p, h);
      var a := ReaderStep(p);
      SameReading(c, s, p);
      StepEvents(c, p, a, h);
      StepOneAtATime(c, p, a, h);
      ReachStep(c, b, s, a, o);
      assert o.acc + [] == o.acc && o.calls + [] == o.calls;
      SameNicWork(p, Apply(c, p, a));
      s', p', h' := ReaderFinishes(c, b, Apply(c, s, a), Apply(c, p, a), NextHist(c, p, a, h), Observe(c, s, a, o));
    }
  }

  lemma AllExecuted(c: Config, p: State, h: Hist)
    requires 0 <= ExecutedN(p, h) <= |h.recs| && h.freed == |h.recs|
    ensures ExecutedN(p, h) == |h.recs|
  {
  }

  lemma SameNicWork(p: State, z: State)
    requires z.nic == p.nic && z.sending == p.sending
    ensures NicWork(z) == NicWork(p)
  {
  }

  // ---- from any state to quiet, and one record from call to free ----

  /** Everything reserved has been executed and freed, and the head is idle. */
  ghost predicate Quiet(c: Config, s: State, h: Hist) {
    && Sim(c, s, h) && OneAtATime(s) && ReaderLimits(c)
    && s.writer.WIdle? && NicWork(s) == 0 && h.freed == |h.recs|
  }

  lemma NothingRunning(c: Config, s: State, h: Hist)
    requires Quiet(c, s, h)
    ensures s.nic.NIdle? && s.sending == [] && s.writer.WIdle? && |s.buf| == c.size > 0 && ExecutedN(s, h) == |h.recs|
    ensures !s.reader.Clean? && !s.reader.Free? && FreeSize(c.size, s.wr, s.tail.rd) == c.size - 1
  {
    NoNicWork(s);
    ExecutedBehindQueued(c, s, h);
    hide Sim;
    SizePositive(c, s, h);
    HeadSteps.FreeSizeIsExact(c, s, h);
  }

  lemma IncompleteIsLive(c: Config, s: State, h: Hist)
    requires Sim(c, s, h)
    ensures h.freed <= |h.recs| && ValuesWithin(h, Done(s, h), Start(h.recs, h.freed), Start(h.recs, |h.recs|))
  {
    hide Sim, Start, Len, MateLen, Done, ExecutedN;
    HeadSteps.StagesOrdered(c, s, h);
    forall i | 0 <= i < |h.recs| && Done(s, h) <= i
      ensures Start(h.recs, h.freed) <= Start(h.recs, i) + MateLen(h.recs[i])
      ensures Start(h.recs, i) + Len(h.recs[i]) <= Start(h.recs, |h.recs|)
    {
      HeadSteps.RecordFits(h.recs, h.freed, i);
    }
  }

  /** With the writer idle, NIC and reader finish everything; only bytes of live records change. */
  lemma Settle(c: Config, b: Trace, s: State, h: Hist, o: Obs) returns (z: State, h': Hist)
    requires Sim(c, s, h) && OneAtATime(s) && ReaderLimits(c) && s.writer.WIdle?
    requires 0 <= ExecutedN(s, h) <= |h.recs| && h.freed <= |h.recs|
    requires Reach(c, b, s, o) && o.exe == Pairs(h.recs, ExecutedN(s, h))
    ensures Quiet(c, z, h') && h'.recs == h.recs && Reach(c, b, z, o.(exe := Pairs(h.recs, |h.recs|)))
    ensures z.wr == s.wr && Kept(s.buf, z.buf, Start(h.recs, h.freed), Start(h.recs, |h.recs|))
  {
    hide Sim, Reach, OneAtATime, Kept, Pairs, ReaderLimits, NicWork, Start, Done, ValuesWithin;
    SizePositive(c, s, h);
    IncompleteIsLive(c, s, h);
    var lo, hi := Start(h.recs, h.freed), Start(h.recs, |h.recs|);
    KeptSelf(s.buf, lo, hi);
    var p := NicFinishes(c, b, s, h, s.buf, lo, hi, true, o);
    SameReaderSide(s, p);
    var s', p', h1 := ReaderFinishes(c, b, p, p, h, o);
    z, h' := p', h1;
  }

  /** The byte of a record, in a ring where the record has been transferred whole. */
  lemma BytesDone(c: Config, p: State, h: Hist, j: nat)
    requires Sim(c, p, h) && p.writer.WIdle? && NicWork(p) == 0 && h.recs != [] && h.freed < |h.recs|
    requires j < Len(h.recs[|h.recs| - 1])
    ensures |p.buf| == c.size > 0 && ByteIs(p.buf, h.recs, |h.recs| - 1, j)
  {
    hide ValuesFrom, LogsFrom, DirtyOk, SendingOk, RecsOk, QueuesFit, ValidConfig, Slot, Start, ReaderOk, WriterOk,
         NicOk, PointersOk, Encode;
    NoNicWork(p);
    assert Settled(h.recs, p.writer, p.nic, Done(p, h), Taken(p, h), |h.recs| - 1, j);
    assert ByteIs(p.buf, h.recs, |h.recs| - 1, j);
  }

  /** Pairs of a longer history. */
  lemma PairsMore(recs: seq<Rec>, r: Rec)
    ensures Pairs(recs + [r], |recs|) == Pairs(recs, |recs|)
    ensures Pairs(recs + [r], |recs| + 1) == Pairs(recs, |recs|) + [(r.key, Value(r))]
  {
  }

  lemma LastRecord(recs: seq<Rec>, rec: Rec)
    ensures Start(recs + [rec], |recs|) == Start(recs, |recs|) && (recs + [rec])[|recs|] == rec
    ensures MateLen(rec) <= Len(rec)
  {
    StartPrefix(recs, rec, |recs|);
  }

  /** The value of the last record is the only one still to be sent. */
  lemma OnlyTheLast(c: Config, s: State, p: State, h: Hist, rec: Rec)
    requires Quiet(c, s, h) && p.nic == s.nic && |p.sending| == 1 && p.writer.WIdle?
    ensures var h' := Hist(h.recs + [rec], h.freed, h.freed); var u := Start(h.recs, |h.recs|);
      Done(p, h') == |h.recs| && ValuesWithin(h', |h.recs|, u + MateLen(rec), u + Len(rec))
  {
    NothingRunning(c, s, h);
    hide Quiet, Start, Len, MateLen;
    LastWithin(Hist(h.recs + [rec], h.freed, h.freed), h, rec);
  }

  lemma LastWithin(h': Hist, h: Hist, rec: Rec)
    requires h'.recs == h.recs + [rec]
    ensures ValuesWithin(h', |h.recs|, Start(h.recs, |h.recs|) + MateLen(rec), Start(h.recs, |h.recs|) + Len(rec))
  {
    hide Start, Len, MateLen;
    LastRecord(h.recs, rec);
  }

  /** Everything observed of a history that has been called, accepted and executed whole. */
  ghost function AllOf(recs: seq<Rec>): Obs {
    Obs(recs, Pairs(recs, |recs|), Pairs(recs, |recs|))
  }

  /** A hygienic call runs to its end: its record stays in the ring, and no other byte has changed. */
  lemma Cycle(c: Config, b: Trace, s: State, h: Hist, rec: Rec) returns (z: State, h': Hist)
    requires Quiet(c, s, h) && ValidRec(c, rec) && FromCall(rec) && Len(rec) < c.size && |s.buf| == c.size
    requires Reach(c, b, s, AllOf(h.recs)) && s.buf[NextTag(c, h, rec)] != TAG
    ensures Quiet(c, z, h') && h'.recs == h.recs + [rec] && Reach(c, b, z, AllOf(h'.recs)) && |z.buf| == c.size
    ensures Kept(s.buf, z.buf, Start(h.recs, |h.recs|), Start(h.recs, |h.recs|) + Len(rec))
    ensures forall j :: 0 <= j < Len(rec) ==> z.buf[Slot(c.size, Start(h.recs, |h.recs|) + j)] == Encode(rec)[j]
  {
    hide Sim, Reach, OneAtATime, Kept, Pairs, ReaderLimits, NicWork, Slot, Start, Len, MateLen, Encode, TagSlot,
         ValidRec,
         FreeSize, Twins, Done, ValuesWithin, FromCall, Value, NextTag;
    NothingRunning(c, s, h);
    var n, u := |h.recs|, Start(h.recs, |h.recs|);
    var s1 := Begin(c, b, s, h, rec, AllOf(h.recs));
    var o := AllOf(h.recs).(calls := h.recs + [rec]);
    TwinSelf(s1, NextTag(c, h, rec));
    SameTagNext(c, h, rec);
    var s2, p2, h2 := Reserve(c, b, s1, s1, h.(cached := h.freed), o);
    var s3, p3 := WriterPublishes(c, b, s2, p2, h2, o, s2, p2);
    var s4 := Accept(c, b, s3, p3, h2, o);
    var p4 := Enqueue(c, p3, h2);
    PairsMore(h.recs, rec);
    LastRecord(h.recs, rec);
    OnlyTheLast(c, s, p4, h, rec);
    SizePositive(c, p4, h2);
    KeptSelf(p4.buf, u + MateLen(rec), u + Len(rec));
    var done := Obs(h2.recs, Pairs(h2.recs, n + 1), Pairs(h.recs, n));
    var p5 := NicFinishes(c, b, p4, h2, p4.buf, u + MateLen(rec), u + Len(rec), true, done);
    SizePositive(c, p5, h2);
    KeptTwice(s.buf, p4.buf, p5.buf, u, u + MateLen(rec), u + Len(rec));
    forall j | 0 <= j < Len(rec) ensures p5.buf[Slot(c.size, u + j)] == Encode(rec)[j] {
      BytesDone(c, p5, h2, j);
    }
    SameReaderSide(s, p5);
    var s6, p6, h6 := ReaderFinishes(c, b, p5, p5, h2, done);
    z, h' := p6, h6;
  }

  lemma SameTagNext(c: Config, h: Hist, rec: Rec)
    requires c.size > 0
    ensures NextTag(c, h.(cached := h.freed), rec) == NextTag(c, h, rec)
  {
  }

  /** The state every run starts from. */
  function Origin(c: Config): State {
    State(seq(c.size, i => 0), 0, 0, WIdle, [], NIdle, Tail(0, 0, 0, [], [], [], map[]), KeyTop(0, 0))
  }

  lemma OriginReached(c: Config)
    requires ValidConfig(c) && c.size > 0 && QueuesFit(c)
    ensures Sim(c, Origin(c), Hist([], 0, 0)) && Reach(c, Trace([], []), Origin(c), AllOf([]))
    ensures Origin(c).writer.WIdle? && NicWork(Origin(c)) == 0 && OneAtATime(Origin(c))
  {
    var s := Origin(c);
    HeadSteps.SimInit(c, s);
    assert Ends(c, [s], [], s, AllOf([]));
  }
}
