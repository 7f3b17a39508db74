/** Exactly when tag hygiene is needed: what a tag left over from an earlier lap does to the next call. */
module StaleTags {
  import opened Bits
  import opened Ring
  import opened Layout
  import opened Replication
  import opened Simulation
  import opened Theorems
  import opened Progress
  import opened Schedules
  import opened FirstLap
  import HeadSteps

  // ---- a call that finds a stale tag ----

  /** Where the value of `rec` is about to go, the ring still holds `window`, and that ends in a tag. */
  ghost predicate Stale(buf: seq<byte>, h: Hist, rec: Rec, window: seq<byte>) {
    && |buf| > 0 && |window| == ValueLen(rec) && window[|window| - 1] == TAG
    && BytesAt(buf, Start(h.recs, |h.recs|) + MateLen(rec), window)
  }

  ghost predicate BytesAt(buf: seq<byte>, u: nat, bytes: seq<byte>)
    requires |buf| > 0
  {
    forall j :: 0 <= j < |bytes| ==> buf[Slot(|buf|, u + j)] == bytes[j]
  }

  /** The record whose value field is what the ring holds already. */
  function Fake(rec: Rec, window: seq<byte>): Rec
    requires window != []
  {
    rec.(data := window[..|window| - 1])
  }

  lemma FakeIs(c: Config, rec: Rec, window: seq<byte>)
    requires ValidRec(c, rec) && |window| == ValueLen(rec) && window[|window| - 1] == TAG
    ensures var fake := Fake(rec, window);
      Alike(rec, fake) && ValidRec(c, fake) && ValueBytes(fake) == window && Value(fake) == CStr(window)
  {
  }

  /** The same state with the tag wiped and the record carrying the old bytes has a hygienic history. */
  lemma TwinSim(c: Config, s: State, h: Hist, rec: Rec, fake: Rec, x: nat) returns (p: State)
    requires Sim(c, s, h) && h.freed == |h.recs| && s.writer == WChecked(rec) && s.nic.NIdle?
    requires Alike(rec, fake) && ValidRec(c, fake) && x < |s.buf|
    ensures p == s.(buf := s.buf[x := 0], writer := WChecked(fake))
    ensures Sim(c, p, h) && Twins(s, p, x)
  {
    hide ValuesFrom, LogsFrom, DirtyOk, SendingOk, RecsOk, QueuesFit, ValidConfig, Slot, Start;
    p := s.(buf := s.buf[x := 0], writer := WChecked(fake));
    HeadSteps.SameReader(c, s, h, p, h);
  }

  lemma StaleSlot(c: Config, buf: seq<byte>, h: Hist, rec: Rec, window: seq<byte>)
    requires Stale(buf, h, rec, window) && |buf| == c.size
    ensures buf[NextTag(c, h, rec)] == TAG
  {
    hide Slot, Start;
    assert window[ValueLen(rec) - 1] == TAG;
  }

  /** Once the twin's NIC is done, the two rings are the same. */
  lemma RingsMeet(c: Config, h: Hist, rec: Rec, window: seq<byte>,
                  s0: seq<byte>, s: seq<byte>, p0: seq<byte>, p1: seq<byte>, p: seq<byte>)
    requires Stale(s0, h, rec, window) && c.size == |s0| == |s| == |p0| == |p1| == |p| && Len(rec) < c.size
    requires var u, x := Start(h.recs, |h.recs|), NextTag(c, h, rec);
      && p0 == s0[x := 0] && s[x] == s0[x] && (forall y :: 0 <= y < c.size && y != x ==> s[y] == p1[y])
      && Kept(p0, p1, u, u + MateLen(rec)) && Kept(p1, p, u + MateLen(rec), u + Len(rec))
    requires BytesAt(p, Start(h.recs, |h.recs|) + MateLen(rec), window)
    ensures s == p
  {
    hide Slot, Start, MateLen;
    var u, m, x := Start(h.recs, |h.recs|), MateLen(rec), NextTag(c, h, rec);
    StaleSlot(c, s0, h, rec, window);
    StaleSlot(c, p, h, rec, window);
    forall y | 0 <= y < c.size ensures s[y] == p[y] {
      if y != x && p[y] != p1[y] {
        var v :| u + m <= v < u + Len(rec) && Slot(c.size, v) == y;
        var j := v - u - m;
        assert p[Slot(c.size, u + m + j)] == window[j] && s0[Slot(c.size, u + m + j)] == window[j];
        KeptAt(p0, p1, u, u + m, v);
      }
    }
  }

  /** After the publication the tail sees what it would see if the old bytes were the record's value, sent in full. */
  lemma StaleView(c: Config, b: Trace, s: State, h: Hist, rec: Rec, window: seq<byte>, o: Obs)
    returns (z: State, q: State, t: State, h': Hist)
    requires Quiet(c, s, h) && ValidRec(c, rec) && FromCall(rec) && Len(rec) < c.size && |s.buf| == c.size
    requires Reach(c, b, s, o) && Stale(s.buf, h, rec, window)
    ensures h'.recs == h.recs + [Fake(rec, window)] && h'.freed == h.freed
    ensures Both(c, b, z, q, h', o.(calls := o.calls + [rec])) && q.writer.WQueueing?
    ensures z.writer.WQueueing? && z.writer.log.rec == rec
    ensures Sim(c, t, h') && OneAtATime(t) && t.writer.WIdle? && NicWork(t) == 0 && SameView(z, t)
    ensures ExecutedN(t, h') == |h.recs|
  {
    hide Sim, Reach, OneAtATime, Kept, ReaderLimits, NicWork, Slot, Start, MateLen, Encode, TagSlot, ValidRec, Value,
         Len,
         FreeSize, Done, ValuesWithin, FromCall, NextTag, Alike, Fake;
    NothingRunning(c, s, h);
    var u, x, fake, h1 := Start(h.recs, |h.recs|), NextTag(c, h, rec), Fake(rec, window), h.(cached := h.freed);
    FakeIs(c, rec, window);
    SameLengths(rec, fake);
    TagBelow(c, h, rec);
    var s1 := Begin(c, b, s, h, rec, o);
    var p1 := TwinSim(c, s1, h1, rec, fake, x);
    TagSame(c, h, h1, rec, fake);
    var o1 := o.(calls := o.calls + [rec]);
    var s2, p2, h2 := Reserve(c, b, s1, p1, h1, o1);
    var s3, p3 := WriterPublishes(c, b, s2, p2, h2, o1, s2, p2);
    SamePublished(c, s3, p3, TagSlot(c, h2));
    var p4 := Enqueue(c, p3, h2);
    LastRecord(h.recs, fake);
    var p5 := FakeSent(c, b, s, p4, h, h2, rec, window);
    RingsMeet(c, h, rec, window, s.buf, s3.buf, p1.buf, p4.buf, p5.buf);
    SameReaderSide(s, p5);
    z, q, t, h' := s3, p3, p5, h2;
  }

  /** In the twin the NIC sends the old bytes. */
  lemma FakeSent(c: Config, b: Trace, s: State, p: State, h: Hist, h2: Hist, rec: Rec, window: seq<byte>)
    returns (z: State)
    requires Quiet(c, s, h) && ValidRec(c, rec) && |window| == ValueLen(rec) && window[|window| - 1] == TAG
    requires h2 == Hist(h.recs + [Fake(rec, window)], h.freed, h.freed) && Sim(c, p, h2)
    requires p.nic == s.nic && |p.sending| == 1 && p.writer.WIdle?
    ensures Sim(c, z, h2) && NicWork(z) == 0 && z == p.(buf := z.buf, nic := z.nic, sending := z.sending)
    ensures |p.buf| == |z.buf| == c.size > 0
    ensures var u := Start(h.recs, |h.recs|);
      Kept(p.buf, z.buf, u + MateLen(rec), u + Len(rec)) && BytesAt(z.buf, u + MateLen(rec), window)
  {
    hide Sim, Kept, NicWork, Slot, Start, MateLen, Encode, ValidRec, Value, Len, Done, ValuesWithin, Alike, Fake, Reach;
    var u, fake := Start(h.recs, |h.recs|), Fake(rec, window);
    FakeIs(c, rec, window);
    SameLengths(rec, fake);
    LastRecord(h.recs, fake);
    OnlyTheLast(c, s, p, h, fake);
    SizePositive(c, p, h2);
    KeptSelf(p.buf, u + MateLen(rec), u + Len(rec));
    z := NicFinishes(c, b, p, h2, p.buf, u + MateLen(rec), u + Len(rec), false, AllOf([]));
    SizePositive(c, z, h2);
    forall j | 0 <= j < |window| ensures z.buf[Slot(c.size, u + MateLen(rec) + j)] == window[j] {
      ValuePart(fake, j);
      BytesDone(c, z, h2, MateLen(rec) + j);
    }
  }

  lemma TagBelow(c: Config, h: Hist, rec: Rec)
    requires c.size > 0
    ensures 0 <= NextTag(c, h, rec) < c.size
  {
  }

  lemma TagSame(c: Config, h: Hist, h1: Hist, rec: Rec, fake: Rec)
    requires c.size > 0 && h1.recs == h.recs && Len(fake) == Len(rec)
    ensures NextTag(c, h1, fake) == NextTag(c, h, rec)
  {
  }

  lemma SamePublished(c: Config, s: State, p: State, x: nat)
    requires Twins(s, p, x) && p.writer.WQueueing?
    ensures s.writer.WQueueing? && s.tail == p.tail && s.reader == p.reader
  {
  }

  lemma ValuePart(r: Rec, j: nat)
    requires j < ValueLen(r)
    ensures Len(r) == MateLen(r) + ValueLen(r) && Encode(r)[MateLen(r) + j] == ValueBytes(r)[j]
  {
  }

  /** A call whose tag slot is stale can be executed with what the old bytes spell, before its own value is sent. */
  lemma StaleValueIsExecuted(c: Config, b: Trace, s: State, h: Hist, rec: Rec, window: seq<byte>) returns (z: State)
    requires Quiet(c, s, h) && ValidRec(c, rec) && FromCall(rec) && Len(rec) < c.size && |s.buf| == c.size
    requires Reach(c, b, s, AllOf(h.recs)) && Stale(s.buf, h, rec, window)
    ensures Reach(c, b, z, Obs(h.recs + [rec], Pairs(h.recs, |h.recs|) + [(rec.key, Value(rec))],
                               Pairs(h.recs, |h.recs|) + [(rec.key, CStr(window))]))
  {
    hide Sim, Reach, OneAtATime, Kept, Pairs, ReaderLimits, NicWork, ValidRec, Value, Len, FromCall, BytesAt,
         ExecutedN, CStr;
    ReaderKind(c, s, h);
    var s1, q1, p1, h1 := StaleView(c, b, s, h, rec, window, AllOf(h.recs));
    var done := Pairs(h.recs, |h.recs|);
    var s2 := Accept(c, b, s1, q1, h1, AllOf(h.recs).(calls := h.recs + [rec]));
    FakePairs(c, h.recs, rec, window);
    var s3, p3, h3 := ReaderFinishes(c, b, s2, p1, h1, Obs(h.recs + [rec], done + [(rec.key, Value(rec))], done));
    z := s3;
  }

  /** Whatever the old bytes are, the tail can run ahead: it executes the record before the call has returned. */
  lemma StaleTagRunsAhead(c: Config, b: Trace, s: State, h: Hist, rec: Rec, window: seq<byte>, o: Obs)
    returns (z: State)
    requires Quiet(c, s, h) && ValidRec(c, rec) && FromCall(rec) && Len(rec) < c.size && |s.buf| == c.size
    requires Reach(c, b, s, o) && o.exe == Pairs(h.recs, |h.recs|) && Stale(s.buf, h, rec, window)
    ensures Reach(c, b, z, Obs(o.calls + [rec], o.acc, o.exe + [(rec.key, CStr(window))]))
  {
    hide Sim, Reach, OneAtATime, Kept, Pairs, ReaderLimits, NicWork, ValidRec, Value, Len, FromCall, BytesAt,
         ExecutedN, CStr;
    ReaderKind(c, s, h);
    var s1, q1, p1, h1 := StaleView(c, b, s, h, rec, window, o);
    FakePairs(c, h.recs, rec, window);
    var s2, p2, h2 := ReaderFinishes(c, b, s1, p1, h1, o.(calls := o.calls + [rec]));
    z := s2;
  }

  lemma ReaderKind(c: Config, s: State, h: Hist)
    requires Quiet(c, s, h)
    ensures ReaderLimits(c) && c.size > 0
  {
  }

  lemma FakePairs(c: Config, recs: seq<Rec>, rec: Rec, window: seq<byte>)
    requires ValidRec(c, rec) && |window| == ValueLen(rec) && window[|window| - 1] == TAG
    ensures Pairs(recs + [Fake(rec, window)], |recs|) == Pairs(recs, |recs|)
    ensures Pairs(recs + [Fake(rec, window)], |recs| + 1) == Pairs(recs, |recs|) + [(rec.key, CStr(window))]
  {
    FakeIs(c, rec, window);
    PairsMore(recs, Fake(rec, window));
  }

  lemma {:induction false} CStrPrefix(s: seq<byte>)
    ensures CStr(s) <= s && (|CStr(s)| < |s| ==> s[|CStr(s)|] == 0)
  {
    if s != [] && s[0] != 0 {
      CStrPrefix(s[1..]);
    }
  }

  /** The execution is wrong exactly when the old bytes are not the ones the call is about to send. */
  lemma WrongUnlessSame(rec: Rec, window: seq<byte>)
    requires FromCall(rec) && |window| == ValueLen(rec) && window[|window| - 1] == TAG
    ensures CStr(window) == Value(rec) <==> window == ValueBytes(rec)
  {
    ValueOfCall(rec);
    CStrPrefix(window);
    var v := Value(rec);
    if CStr(window) == v {
      assert window[..|v|] == v && window[|v|] == 0;
      assert window == v + [0] + [TAG];
    }
  }

  // ---- one call: the exact condition ----

  /** Every continuation that makes no call but `rec`, whatever the schedule, executes a prefix of what it accepts. */
  ghost predicate SafeToCall(c: Config, ss0: seq<State>, steps0: seq<Step>, rec: Rec)
    requires c.size > 0
  {
    forall ss, steps :: ss0 <= ss && steps0 <= steps && Run(c, ss, steps) && CallsIn(steps) <= CallsIn(steps0) + [rec]
      ==> ExecutedIn(c, ss, steps) <= AcceptedIn(c, ss, steps)
  }

  /** Before the reservation the record fits and its tag slot is clear; afterwards no further call is made. */
  ghost predicate Calm(c: Config, s: State, h: Hist, rec: Rec, calls0: seq<Rec>, calls: seq<Rec>)
    requires c.size > 0 && |s.buf| == c.size
  {
    if calls == calls0 then s.writer.WIdle? && TagFree(c, s.buf, h, rec)
    else calls == calls0 + [rec] && (s.writer.WChecked? ==> s.writer.rec == rec && TagFree(c, s.buf, h, rec))
  }

  ghost predicate TagFree(c: Config, buf: seq<byte>, h: Hist, rec: Rec)
    requires c.size > 0 && |buf| == c.size
  {
    && h.freed <= |h.recs| && Start(h.recs, |h.recs|) + Len(rec) - Start(h.recs, h.freed) < c.size
    && buf[NextTag(c, h, rec)] != TAG
  }

  /** A value byte never lands on the tag slot of a record that is not reserved yet. */
  lemma NicMissesTag(c: Config, s: State, h: Hist, rec: Rec, i: nat)
    requires Sim(c, s, h) && Enabled(c, s, NByte(i)) && TagFree(c, s.buf, h, rec)
    ensures TagFree(c, Apply(c, s, NByte(i)).buf, h, rec)
  {
    hide Sim, Slot, Start, Wrap, FragAddr, ValuePos, MayWrite, Encode, ValueBytes, MateLen, Taken, Poke, Len;
    SizePositive(c, s, h);
    HeadSteps.ValueSlot(c, s, h, i);
    var n := Taken(s, h) - 1;
    HeadSteps.RecordFits(h.recs, h.freed, n);
    HeadSteps.MateInRecord(h.recs[n]);
    LenPositive(rec);
    var u, v := Start(h.recs, n) + MateLen(h.recs[n]) + i, Start(h.recs, |h.recs|) + Len(rec) - 1;
    PokeElsewhere(s.buf, u, v, ValueBytes(s.nic.log.rec)[i]);
  }

  lemma LenPositive(r: Rec)
    ensures Len(r) > 0
  {
  }

  lemma PokeElsewhere(buf: seq<byte>, u: nat, v: nat, b: byte)
    requires |buf| > 0 && u < v < u + |buf|
    ensures Poke(buf, Slot(|buf|, u), b)[Slot(|buf|, v)] == buf[Slot(|buf|, v)]
  {
    hide Slot;
    SlotsDiffer(|buf|, u, v);
  }

  lemma FreeKeepsTag(c: Config, buf: seq<byte>, h: Hist, rec: Rec)
    requires c.size > 0 && |buf| == c.size && TagFree(c, buf, h, rec) && h.freed < |h.recs|
    ensures TagFree(c, buf, h.(freed := h.freed + 1), rec)
  {
    StartMono(h.recs, h.freed, h.freed + 1);
  }

  lemma TagFreeAt(c: Config, s: State, h: Hist, rec: Rec)
    requires c.size > 0 && |s.buf| == c.size && TagFree(c, s.buf, h, rec)
    ensures s.buf[NextTag(c, h, rec)] != TAG
  {
  }

  lemma CacheKeepsTag(c: Config, buf: seq<byte>, h: Hist, h': Hist, rec: Rec)
    requires c.size > 0 && |buf| == c.size && h'.recs == h.recs && h'.freed == h.freed
    ensures TagFree(c, buf, h', rec) == TagFree(c, buf, h, rec)
  {
  }

  lemma WriterCalm(c: Config, s: State, a: Step, h: Hist, rec: Rec, calls0: seq<Rec>, calls: seq<Rec>)
    requires Sim(c, s, h) && Enabled(c, s, a) && c.size > 0 && |s.buf| == c.size && Calm(c, s, h, rec, calls0, calls)
    requires OfWriter(a) && calls + (if a.WBegin? then [a.rec] else []) <= calls0 + [rec]
    ensures HygienicStep(c, s, a) && |Apply(c, s, a).buf| == c.size
    ensures Calm(c, Apply(c, s, a), NextHist(c, s, a, h), rec, calls0, calls + if a.WBegin? then [a.rec] else [])
  {
    hide Sim, Slot, Start, Wrap, FragAddr, MayWrite, TagFree, Len, NextWr, HasRoom, FreeSize, HygienicStep,
         AllWritten, Reserves;
    assert calls + [] == calls;
    if a.WRecheck? {
      TagFreeAt(c, s, h, rec);
      CleanReserve(c, s, h);
      HeadSteps.RecheckPasses(c, s, h);
    } else {
      OnlyReserving(c, s, a);
      if a.WBegin? {
        assert (calls + [a.rec])[|calls|] == (calls0 + [rec])[|calls|];
        CacheKeepsTag(c, s.buf, h, NextHist(c, s, a, h), rec);
      }
    }
  }

  lemma ReaderLeaves(c: Config, s: State, a: Step, h: Hist)
    requires Sim(c, s, h) && Enabled(c, s, a) && !OfWriter(a) && !a.NByte?
    ensures Apply(c, s, a).buf == s.buf && Apply(c, s, a).writer == s.writer
    ensures NextHist(c, s, a, h) == if a.RFree? then h.(freed := h.freed + 1) else h
    ensures a.RFree? ==> h.freed < |h.recs|
  {
    hide Sim, Wrap, ValuePos, Parse, LogKey, CStr, HasRoom, FieldRef, TagSet, DataSize, UnmarkDirty, MarkDirty, Next,
         CleanStep, FreeStep, KeyTopStep, KeyDirtyStep, ValueTopStep, ValueReadStep;
    HeadSteps.StagesOrdered(c, s, h);
  }

  lemma StepCalm(c: Config, s: State, a: Step, h: Hist, rec: Rec, calls0: seq<Rec>, calls: seq<Rec>)
    requires Sim(c, s, h) && Enabled(c, s, a) && c.size > 0 && |s.buf| == c.size && Calm(c, s, h, rec, calls0, calls)
    requires calls + (if a.WBegin? then [a.rec] else []) <= calls0 + [rec]
    ensures HygienicStep(c, s, a) && |Apply(c, s, a).buf| == c.size
    ensures Calm(c, Apply(c, s, a), NextHist(c, s, a, h), rec, calls0, calls + if a.WBegin? then [a.rec] else [])
  {
    hide Sim, Apply, NextHist, TagFree, HygienicStep, Enabled;
    if OfWriter(a) {
      WriterCalm(c, s, a, h, rec, calls0, calls);
    } else {
      assert calls + [] == calls;
      OnlyReserving(c, s, a);
      if a.NByte? {
        NicLeaves(c, s, a, h);
        if TagFree(c, s.buf, h, rec) { NicMissesTag(c, s, h, rec, a.i); }
      } else {
        ReaderLeaves(c, s, a, h);
        if a.RFree? && TagFree(c, s.buf, h, rec) { FreeKeepsTag(c, s.buf, h, rec); }
      }
    }
  }

  lemma NicLeaves(c: Config, s: State, a: Step, h: Hist)
    requires c.size > 0 && Enabled(c, s, a) && a.NByte?
    ensures |Apply(c, s, a).buf| == |s.buf| && Apply(c, s, a).writer == s.writer && NextHist(c, s, a, h) == h
  {
  }

  lemma {:induction false} CalmRun(c: Config, ss0: seq<State>, steps0: seq<Step>, h0: Hist, rec: Rec, ss: seq<State>,
                                   steps: seq<Step>)
    returns (h: Hist)
    requires GoodRun(c, ss0, steps0) && Sim(c, ss0[|steps0|], h0) && |ss0[|steps0|].buf| == c.size
    requires Calm(c, ss0[|steps0|], h0, rec, CallsIn(steps0), CallsIn(steps0))
    requires ss0 <= ss && steps0 <= steps && Run(c, ss, steps) && CallsIn(steps) <= CallsIn(steps0) + [rec]
    ensures GoodRun(c, ss, steps) && Sim(c, ss[|steps|], h) && |ss[|steps|].buf| == c.size
    ensures Calm(c, ss[|steps|], h, rec, CallsIn(steps0), CallsIn(steps))
    decreases |steps|
  {
    hide Sim, Apply, Enabled, HygienicStep, QueuesFit, ValidConfig, NextHist, Init, Calm;
    if |steps| == |steps0| {
      assert ss == ss0 && steps == steps0;
      h := h0;
    } else {
      var n := |steps| - 1;
      assert ss0 <= ss[..n + 1] && steps0 <= steps[..n];
      h := CalmRun(c, ss0, steps0, h0, rec, ss[..n + 1], steps[..n]);
      StepCalm(c, ss[n], steps[n], h, rec, CallsIn(steps0), CallsIn(steps[..n]));
      StepSim(c, ss[n], steps[n], h);
      h := NextHist(c, ss[n], steps[n], h);
    }
  }

  /** The bytes found in the value's place. */
  lemma WindowIsStale(c: Config, s: State, h: Hist, rec: Rec) returns (window: seq<byte>)
    requires c.size > 0 && |s.buf| == c.size && s.buf[NextTag(c, h, rec)] == TAG
    ensures Stale(s.buf, h, rec, window)
  {
    hide Slot, Start;
    var u := Start(h.recs, |h.recs|) + MateLen(rec);
    window := Window(s.buf, u, ValueLen(rec));
    assert u + (ValueLen(rec) - 1) == Start(h.recs, |h.recs|) + Len(rec) - 1;
  }

  /** Where the tag of the call will go, as the head can compute it. */
  function TagAt(c: Config, s: State, rec: Rec): nat
    requires c.size > 0
  {
    Wrap(c.size, s.wr + Len(rec) - 1)
  }

  lemma RunShape(c: Config, ss: seq<State>, steps: seq<Step>)
    requires GoodRun(c, ss, steps)
    ensures |ss| == |steps| + 1 && c.size > 0
  {
  }

  /** The history and the observations of a good run with the head idle. */
  lemma IdleRun(c: Config, ss0: seq<State>, steps0: seq<Step>) returns (h: Hist, o: Obs)
    requires GoodRun(c, ss0, steps0) && ss0[|steps0|].writer.WIdle?
    ensures Sim(c, ss0[|steps0|], h) && Reach(c, Trace(ss0, steps0), ss0[|steps0|], o) && o.calls == CallsIn(steps0)
    ensures 0 <= ExecutedN(ss0[|steps0|], h) <= |h.recs|
    ensures o.acc == Pairs(h.recs, |h.recs|) && o.exe == Pairs(h.recs, ExecutedN(ss0[|steps0|], h))
  {
    RunShape(c, ss0, steps0);
    hide Sim, Pairs, ExecutedN, Run, Hygienic, QueuesFit, ValidConfig, AcceptedIn, ExecutedIn;
    h := RunSim(c, ss0, steps0);
    o := Obs(CallsIn(steps0), AcceptedIn(c, ss0, steps0), ExecutedIn(c, ss0, steps0));
    ReachHere(c, Trace(ss0, steps0), ss0[|steps0|], o);
  }

  lemma StaleCallIsUnsafe(c: Config, ss0: seq<State>, steps0: seq<Step>, rec: Rec)
    requires GoodRun(c, ss0, steps0) && ReaderLimits(c) && ValidRec(c, rec) && FromCall(rec)
    requires var s := ss0[|steps0|]; s.writer.WIdle? && Len(rec) <= FreeSize(c.size, s.wr, s.tail.rd)
    requires var s := ss0[|steps0|]; |s.buf| == c.size && s.buf[TagAt(c, s, rec)] == TAG
    ensures !SafeToCall(c, ss0, steps0, rec)
  {
    hide *;
    RunShape(c, ss0, steps0);
    var b := Trace(ss0, steps0);
    RunOneAtATime(c, ss0, steps0);
    var h, o := IdleRun(c, ss0, steps0);
    var s := ss0[|steps0|];
    TagIs(c, s, h, rec);
    SizePositive(c, s, h);
    var z, h1 := Settle(c, b, s, h, o);
    SettledTag(c, s, z, h, h1, rec);
    NothingRunning(c, z, h1);
    var window := WindowIsStale(c, z, h1, rec);
    StaleEnds(z, h1, rec, window);
    var done := o.(exe := Pairs(h.recs, |h.recs|));
    var t := StaleTagRunsAhead(c, b, z, h1, rec, window, done);
    var o1 := Obs(o.calls + [rec], o.acc, done.exe + [(rec.key, CStr(window))]);
    RunsAhead(c, b, t, o1);
  }

  lemma StaleEnds(s: State, h: Hist, rec: Rec, window: seq<byte>)
    requires Stale(s.buf, h, rec, window)
    ensures |window| == ValueLen(rec)
  {
  }

  /** What the head computes from its pointers: the tag's slot, and that the record fits. */
  lemma TagIs(c: Config, s: State, h: Hist, rec: Rec)
    requires Sim(c, s, h) && s.writer.WIdle? && c.size > 0 && Len(rec) <= FreeSize(c.size, s.wr, s.tail.rd)
    ensures TagAt(c, s, rec) == NextTag(c, h, rec) && 0 <= TagAt(c, s, rec) < c.size && Len(rec) < c.size
    ensures h.freed <= |h.recs| && Start(h.recs, |h.recs|) + Len(rec) - Start(h.recs, h.freed) < c.size
  {
    hide Sim, Slot, Start, Len, NextTag;
    SizePositive(c, s, h);
    TagPlace(c, s, h, rec);
    HeadSteps.FreeSizeIsExact(c, s, h);
  }

  lemma ReachHere(c: Config, b: Trace, s: State, o: Obs)
    requires Ends(c, b.ss, b.steps, s, o)
    ensures Reach(c, b, s, o)
  {
  }

  lemma SettledTag(c: Config, s: State, z: State, h: Hist, h1: Hist, rec: Rec)
    requires c.size > 0 && |s.buf| == c.size && h.freed <= |h.recs| && h1.recs == h.recs
    requires Kept(s.buf, z.buf, Start(h.recs, h.freed), Start(h.recs, |h.recs|))
    requires Start(h.recs, |h.recs|) + Len(rec) - Start(h.recs, h.freed) < c.size
    ensures |z.buf| == c.size && z.buf[NextTag(c, h1, rec)] == s.buf[NextTag(c, h, rec)]
  {
    hide Slot, Start;
    KeptAt(s.buf, z.buf, Start(h.recs, h.freed), Start(h.recs, |h.recs|), Start(h.recs, |h.recs|) + Len(rec) - 1);
  }

  lemma RunsAhead(c: Config, b: Trace, t: State, o: Obs)
    requires c.size > 0 && Reach(c, b, t, o) && |o.exe| > |o.acc|
    requires o.calls != [] && o.calls == CallsIn(b.steps) + [o.calls[|o.calls| - 1]]
    ensures !SafeToCall(c, b.ss, b.steps, o.calls[|o.calls| - 1])
  {
    hide Run, AcceptedIn, ExecutedIn, CallsIn;
    var ss, steps :| b.ss <= ss && b.steps <= steps && Ends(c, ss, steps, t, o);
  }

  lemma ClearCallIsSafe(c: Config, ss0: seq<State>, steps0: seq<Step>, h: Hist, rec: Rec)
    requires GoodRun(c, ss0, steps0) && Sim(c, ss0[|steps0|], h) && |ss0[|steps0|].buf| == c.size
    requires Calm(c, ss0[|steps0|], h, rec, CallsIn(steps0), CallsIn(steps0))
    ensures SafeToCall(c, ss0, steps0, rec)
  {
    hide Sim, Run, Hygienic, AcceptedIn, ExecutedIn, QueuesFit, ValidConfig, CallsIn, Calm;
    forall ss, steps | ss0 <= ss && steps0 <= steps && Run(c, ss, steps) && CallsIn(steps) <= CallsIn(steps0) + [rec]
      ensures ExecutedIn(c, ss, steps) <= AcceptedIn(c, ss, steps)
    {
      var h1 := CalmRun(c, ss0, steps0, h, rec, ss, steps);
      ExecutedIsPrefixOfAccepted(c, ss, steps);
    }
  }

  lemma StartCalm(c: Config, s: State, h: Hist, rec: Rec, calls: seq<Rec>)
    requires c.size > 0 && |s.buf| == c.size && s.writer.WIdle? && s.buf[NextTag(c, h, rec)] != TAG
    requires h.freed <= |h.recs| && Start(h.recs, |h.recs|) + Len(rec) - Start(h.recs, h.freed) < c.size
    ensures Calm(c, s, h, rec, calls, calls)
  {
  }

  /** In every state reached by a good run with the head idle, for every record that fits: the call is safe under every
      schedule if and only if the byte where its tag will go is not 1. */
  lemma SafeToCallIff(c: Config, ss0: seq<State>, steps0: seq<Step>, rec: Rec)
    requires GoodRun(c, ss0, steps0) && ReaderLimits(c) && ValidRec(c, rec) && FromCall(rec)
    requires var s := ss0[|steps0|]; s.writer.WIdle? && Len(rec) <= FreeSize(c.size, s.wr, s.tail.rd)
    ensures var s := ss0[|steps0|]; |s.buf| == c.size
    ensures var s := ss0[|steps0|]; SafeToCall(c, ss0, steps0, rec) <==> s.buf[TagAt(c, s, rec)] != TAG
  {
    hide *;
    RunShape(c, ss0, steps0);
    var h, o := IdleRun(c, ss0, steps0);
    var s := ss0[|steps0|];
    SizePositive(c, s, h);
    TagIs(c, s, h, rec);
    if s.buf[TagAt(c, s, rec)] == TAG {
      StaleCallIsUnsafe(c, ss0, steps0, rec);
    } else {
      StartCalm(c, s, h, rec, CallsIn(steps0));
      ClearCallIsSafe(c, ss0, steps0, h, rec);
    }
  }

  // ---- all runs: the exact number of bytes ----

  function Total(recs: seq<Rec>): nat {
    if recs == [] then 0 else Total(recs[..|recs| - 1]) + Len(recs[|recs| - 1])
  }

  lemma {:induction false} AskedIsTotal(steps: seq<Step>)
    ensures Asked(steps) == Total(CallsIn(steps))
  {
    if steps != [] {
      var n := |steps| - 1;
      AskedIsTotal(steps[..n]);
      if steps[n].WBegin? {
        assert CallsIn(steps)[..|CallsIn(steps)| - 1] == CallsIn(steps[..n]);
      } else {
        assert CallsIn(steps) == CallsIn(steps[..n]);
      }
    }
  }

  lemma TotalOfTwo(r1: Rec, r2: Rec)
    ensures Total([r1, r2]) == Len(r1) + Len(r2)
    ensures Start([], 0) == 0 && Start([r1], 1) == Len(r1) && [] + [r1] == [r1] && [r1] + [r2] == [r1, r2]
  {
    assert [r1, r2][..1] == [r1] && [r1][..0] == [];
    assert Total([r1]) == Len(r1);
  }

  /** Every run that asks for at most `limit` bytes executes a prefix of what it accepts. */
  ghost predicate SafeUpTo(c: Config, limit: int)
    requires c.size > 0
  {
    forall ss, steps :: Run(c, ss, steps) && Asked(steps) <= limit
        ==> ExecutedIn(c, ss, steps) <= AcceptedIn(c, ss, steps)
  }

  /** Two calls of which the second finds `window` with a tag in its place: it can be executed with that. */
  lemma SecondCallTorn(c: Config, r1: Rec, r2: Rec, window: seq<byte>)
    requires ValidConfig(c) && c.size > 0 && QueuesFit(c) && ReaderLimits(c)
    requires ValidRec(c, r1) && ValidRec(c, r2) && FromCall(r1) && FromCall(r2) && Len(r1) < c.size && Len(r2) < c.size
    requires |window| == ValueLen(r2) && window[|window| - 1] == TAG && CStr(window) != Value(r2)
    requires BytesAt(AfterOne(c, r1), Len(r1) + MateLen(r2), window)
    ensures !SafeUpTo(c, Len(r1) + Len(r2))
  {
    hide Reach, Quiet, Slot, Start, Kept, Encode, QueuesFit, ValidConfig, ReaderLimits, ValidRec, FromCall, AfterOne,
         BytesAt, Pairs, Value, CStr, Len, MateLen, Sim, OneAtATime, NicWork, Origin, NextTag;
    OriginReached(c);
    OriginQuiet(c);
    TotalOfTwo(r1, r2);
    var b, s0, h0 := Trace([], []), Origin(c), Hist([], 0, 0);
    OriginClear(c, r1);
    var s1, h1 := Cycle(c, b, s0, h0, r1);
    RingAfterOne(c, r1, s1.buf);
    var z := StaleValueIsExecuted(c, b, s1, h1, r2, window);
    var done := Pairs([r1], 1);
    var acc, exe := done + [(r2.key, Value(r2))], done + [(r2.key, CStr(window))];
    assert acc[|done|] != exe[|done|];
    TornRun(c, z, Obs([r1, r2], acc, exe), Len(r1) + Len(r2));
  }

  /** The ring after one record has gone from call to free: the record at the start, zeros behind. */
  ghost function AfterOne(c: Config, r: Rec): (buf: seq<byte>)
    ensures |buf| == c.size
  {
    seq(c.size, i requires 0 <= i < c.size => if i < Len(r) then Encode(r)[i] else 0)
  }

  lemma RingAfterOne(c: Config, r: Rec, buf: seq<byte>)
    requires c.size > 0 && Len(r) < c.size && Kept(Origin(c).buf, buf, 0, Len(r))
    requires forall j :: 0 <= j < Len(r) ==> buf[Slot(c.size, 0 + j)] == Encode(r)[j]
    ensures buf == AfterOne(c, r)
  {
    hide Encode, Len, Kept;
    var after := AfterOne(c, r);
    assert |buf| == c.size by { KeptSize(c, r, buf); }
    forall i | 0 <= i < c.size ensures buf[i] == after[i] {
      assert Slot(c.size, 0 + i) == i;
      if i >= Len(r) { KeptAt(Origin(c).buf, buf, 0, Len(r), i); }
    }
  }

  lemma KeptSize(c: Config, r: Rec, buf: seq<byte>)
    requires Kept(Origin(c).buf, buf, 0, Len(r))
    ensures |buf| == c.size
  {
  }

  lemma OriginQuiet(c: Config)
    requires Sim(c, Origin(c), Hist([], 0, 0)) && OneAtATime(Origin(c)) && ReaderLimits(c) && NicWork(Origin(c)) == 0
    ensures Quiet(c, Origin(c), Hist([], 0, 0)) && |Origin(c).buf| == c.size
  {
    hide Sim, NicWork;
  }

  lemma OriginClear(c: Config, r: Rec)
    requires c.size > 0
    ensures |Origin(c).buf| == c.size && Origin(c).buf[NextTag(c, Hist([], 0, 0), r)] != TAG
  {
  }

  lemma TornRun(c: Config, z: State, o: Obs, limit: nat)
    requires c.size > 0 && Reach(c, Trace([], []), z, o) && Total(o.calls) <= limit && !(o.exe <= o.acc)
    ensures !SafeUpTo(c, limit)
  {
    hide Run, AcceptedIn, ExecutedIn, CallsIn, Total;
    var ss, steps :| Ends(c, ss, steps, z, o);
    AskedIsTotal(steps);
  }

  /** An empty key, so that byte 0 of the record is the length 1, and an empty value. */
  function Opener(c: Config): Rec
    requires c.header >= META
  {
    Entry([], [], Repeat(0, c.header - META))
  }

  lemma ShortCall(c: Config)
    requires c.header >= META
    ensures var r := Opener(c); ValidRec(c, r) && FromCall(r) && Len(r) == c.header + 3
  {
  }

  /** An empty key and a value that carries the record's tag back to slot 0. */
  function Closer(c: Config): Rec
    requires c.header >= META && 2 * c.header + 6 <= c.size
  {
    Entry([], Repeat(2, c.size - 2 * c.header - 5), Repeat(0, c.header - META))
  }

  lemma OpenerCloser(c: Config)
    requires c.header >= META && 2 * c.header + 6 <= c.size
    ensures var r1, r2 := Opener(c), Closer(c);
      && ValidRec(c, r1) && FromCall(r1) && Len(r1) == c.header + 3 && Encode(r1)[0] == TAG
      && ValidRec(c, r2) && FromCall(r2) && Len(r2) == c.size - 2 - c.header
      && MateLen(r2) == c.header + 1 && ValueLen(r2) == c.size - 2 * c.header - 3 && Value(r2) != []
  {
    var r1, r2 := Opener(c), Closer(c);
    assert Encode(r1)[0] == ToLE(1, 4)[0];
    assert r2.data[..|r2.data| - 1] == Repeat(2, c.size - 2 * c.header - 5);
    ValueOfCall(r2);
  }

  lemma CloserIsTorn(c: Config)
    requires ValidConfig(c) && c.size > 0 && QueuesFit(c) && ReaderLimits(c) && 2 * c.header + 6 <= c.size
    ensures !SafeUpTo(c, c.size + 1)
  {
    hide QueuesFit, ReaderLimits, Encode, Len, MateLen, ValueLen, Value, ValidRec, FromCall, Opener, Closer, SafeUpTo;
    OpenerCloser(c);
    var r1, r2 := Opener(c), Closer(c);
    var buf, n := AfterOne(c, r1), ValueLen(r2) - 1;
    var window := Repeat(0, n) + [TAG];
    forall j | 0 <= j < |window| ensures buf[Slot(|buf|, Len(r1) + MateLen(r2) + j)] == window[j] {
      if j == n { SlotLap(c.size, 0); }
    }
    assert CStr(window) == [];
    SecondCallTorn(c, r1, r2, window);
  }

  lemma SlotLap(size: nat, u: nat)
    requires size > 0
    ensures Slot(size, size + u) == Slot(size, u)
  {
  }

  lemma SafeLess(c: Config, limit: int, more: int)
    requires c.size > 0 && SafeUpTo(c, more) && limit <= more
    ensures SafeUpTo(c, limit)
  {
    hide Run, AcceptedIn, ExecutedIn, Asked;
  }

  lemma FirstLapIsSafe(c: Config)
    requires ValidConfig(c) && c.size > 0 && QueuesFit(c)
    ensures SafeUpTo(c, c.size)
  {
    hide Run, AcceptedIn, ExecutedIn, Asked, QueuesFit, ValidConfig;
    forall ss, steps | Run(c, ss, steps)
        && Asked(steps) <= c.size ensures ExecutedIn(c, ss, steps) <= AcceptedIn(c, ss, steps) {
      FirstLapNeedsNoHygiene(c, ss, steps);
    }
  }

  /** Without clearing, the code keeps its promise for exactly one ring full of bytes: in every configuration where two
      records fit into little more than the ring,
          runs that ask for at most `limit` bytes are safe if and only if `limit`
      is at most the ring size. */
  lemma FirstLapIsExact(c: Config, limit: int)
    requires ValidConfig(c) && c.size > 0 && QueuesFit(c) && ReaderLimits(c) && 2 * c.header + 7 <= c.size + 1
    ensures SafeUpTo(c, limit) <==> limit <= c.size
  {
    hide *;
    FirstLapIsSafe(c);
    CloserIsTorn(c);
    if limit <= c.size {
      SafeLess(c, limit, c.size);
    } else if SafeUpTo(c, limit) {
      SafeLess(c, c.size + 1, limit);
    }
  }

  // ---- the constants of the repository ----

  /** TOTAL_SIZE, sizeof(logEntry) on a 64-bit machine, QUEUE_SIZE and reader_thread's limits. */
  const SHIPPED := Config(64, 32, 2048, 1024, 1)

  /** Key "abc" and value "\x01"; then a key of 24 bytes and value "xyz": the second is executed with value "abc". */
  lemma ShippedConstantsFail()
    ensures !SafeUpTo(SHIPPED, 101)
  {
    var rest := Repeat(0, 24);
    var r1, r2 := Entry([97, 98, 99], [1], rest), Entry(Repeat(107, 24), [120, 121, 122], rest);
    var window := [97, 98, 99, 0, 1];
    assert Pow2(6) == 64 && Pow256(4) == 0x1_0000_0000;
    ShippedRecords(r1, r2, rest);
    hide Encode, SafeUpTo, CStr, Value, Len, MateLen, ValidRec;
    var buf := AfterOne(SHIPPED, r1);
    forall j | 0 <= j < |window| ensures buf[Slot(64, Len(r1) + MateLen(r2) + j)] == window[j] {
      SlotLap(64, 32 + j);
    }
    SecondCallTorn(SHIPPED, r1, r2, window);
  }

  lemma ShippedRecords(r1: Rec, r2: Rec, rest: seq<byte>)
    requires rest == Repeat(0, 24)
    requires r1 == Entry([97, 98, 99], [1], rest) && r2 == Entry(Repeat(107, 24), [120, 121, 122], rest)
    ensures ValidRec(SHIPPED, r1) && FromCall(r1) && ValidRec(SHIPPED, r2) && FromCall(r2)
    ensures Len(r1) == 39 && Len(r2) == 62 && MateLen(r2) == 57 && ValueLen(r2) == 5
    ensures Encode(r1)[32..37] == [97, 98, 99, 0, 1]
    ensures CStr([97, 98, 99, 0, 1]) == [97, 98, 99] != Value(r2)
  {
    assert r1.data[..1] == [1] && r2.data[..3] == [120, 121, 122];
    ShippedBytes(r1, rest);
    CStrOf([97, 98, 99], [1]);
    assert [97, 98, 99] + [0] + [1] == [97, 98, 99, 0, 1];
    ValueOfCall(r2);
    assert [97, 98, 99][0] != [120, 121, 122][0];
    hide CStr, Encode, Value, Repeat;
  }

  lemma ShippedBytes(r: Rec, rest: seq<byte>)
    requires |rest| == 24 && r == Entry([97, 98, 99], [1], rest)
    ensures Len(r) == 39 && Encode(r)[32..37] == [97, 98, 99, 0, 1]
  {
    hide ToLE;
    var front := ToLE(4, 4) + ToLE(3, 4) + rest;
    assert Encode(r) == front + [97, 98, 99, 0] + [1, 0, 1];
  }
}
