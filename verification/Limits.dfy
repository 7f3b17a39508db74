/** Exactly which limits let the reader deliver everything. */
module Limits {
  import opened Ring
  import opened Layout
  import opened Replication
  import opened Simulation
  import opened Theorems
  import opened Progress
  import opened Schedules
  import opened FirstLap
  import StaleTags
  import HeadSteps

  /** Some good run continues this one without the writer and ends with everything accepted executed. */
  ghost predicate Delivers(c: Config, ss: seq<State>, steps: seq<Step>) {
    exists ss', steps' :: Delivery(c, ss, steps, ss', steps')
  }

  ghost predicate Delivery(c: Config, ss: seq<State>, steps: seq<Step>, ss': seq<State>, steps': seq<Step>) {
    && GoodRun(c, ss', steps') && ss <= ss' && steps <= steps'
    && (forall i :: |steps| <= i < |steps'| ==> !OfWriter(steps'[i]))
    && ExecutedIn(c, ss', steps') == AcceptedIn(c, ss', steps')
  }

  ghost predicate AlwaysDelivers(c: Config) {
    forall ss, steps :: GoodRun(c, ss, steps) ==> Delivers(c, ss, steps)
  }

  /** Without the writer no call is added, and what was accepted stays accepted. */
  lemma {:induction false} NoNewCalls(c: Config, ss: seq<State>, steps: seq<Step>, ss': seq<State>, steps': seq<Step>)
    requires c.size > 0 && Run(c, ss, steps) && Run(c, ss', steps') && ss <= ss' && steps <= steps'
    requires forall i :: |steps| <= i < |steps'| ==> !OfWriter(steps'[i])
    ensures CallsIn(steps') == CallsIn(steps) && AcceptedIn(c, ss, steps) <= AcceptedIn(c, ss', steps')
    decreases |steps'|
  {
    hide Apply, Enabled, Init, EventOf;
    if |steps'| == |steps| {
      assert ss' == ss && steps' == steps;
    } else {
      var n := |steps'| - 1;
      assert ss <= ss'[..n + 1] && steps <= steps'[..n];
      NoNewCalls(c, ss, steps, ss'[..n + 1], steps'[..n]);
      assert !OfWriter(steps'[n]);
    }
  }

  /** Whatever the limits, one call can be accepted. */
  lemma OneAccepted(c: Config) returns (ss: seq<State>, steps: seq<Step>)
    requires ValidConfig(c) && c.size > 0 && QueuesFit(c) && c.header + 3 < c.size
    ensures GoodRun(c, ss, steps) && |CallsIn(steps)| == 1 && AcceptedIn(c, ss, steps) != []
  {
    assert c.header >= META;
    hide Reach, Slot, Start, Kept, Encode, QueuesFit, ValidConfig, ValidRec, FromCall, Value, Len, Sim, Origin, NextTag,
         FreeSize, Pairs, StaleTags.Opener, Run, AcceptedIn, ExecutedIn, CallsIn, Asked, Hygienic, OneAtATime, NicWork;
    var b, s0, h0, r := Trace([], []), Origin(c), Hist([], 0, 0), StaleTags.Opener(c);
    OriginReached(c);
    StaleTags.ShortCall(c);
    StaleTags.OriginClear(c, r);
    OriginRoom(c, r);
    var s1 := Begin(c, b, s0, h0, r, AllOf([]));
    var o := AllOf([]).(calls := [r]);
    assert [] + [r] == [r];
    TwinSelf(s1, NextTag(c, h0, r));
    var s2, p2, h2 := Reserve(c, b, s1, s1, h0, o);
    var s3, p3 := WriterPublishes(c, b, s2, p2, h2, o, s2, p2);
    var z := Accept(c, b, s3, p3, h2, o);
    ss, steps := TraceOf(c, z, o.(acc := o.acc + [(s3.writer.log.rec.key, Value(s3.writer.log.rec))]));
    StaleTags.AskedIsTotal(steps);
    OneTotal(r);
    FirstLapNeedsNoHygiene(c, ss, steps);
  }

  lemma OneTotal(r: Rec)
    ensures StaleTags.Total([r]) == Len(r)
  {
    assert [r][..0] == [];
  }

  lemma OriginRoom(c: Config, r: Rec)
    requires c.size > 0 && Len(r) < c.size && Sim(c, Origin(c), Hist([], 0, 0))
    ensures Len(r) <= FreeSize(c.size, Origin(c).wr, Origin(c).tail.rd)
  {
    hide Sim, FreeSize, Len;
    HeadSteps.FreeSizeIsExact(c, Origin(c), Hist([], 0, 0));
  }

  lemma TraceOf(c: Config, z: State, o: Obs) returns (ss: seq<State>, steps: seq<Step>)
    requires Reach(c, Trace([], []), z, o)
    ensures Ends(c, ss, steps, z, o)
  {
    ss, steps :| Ends(c, ss, steps, z, o);
  }

  lemma StarvedForGood(c: Config, ss: seq<State>, steps: seq<Step>)
    requires GoodRun(c, ss, steps) && |CallsIn(steps)| == 1 && AcceptedIn(c, ss, steps) != []
    requires !(c.keyLimit > 0 && c.valueLimit == 1)
    ensures !Delivers(c, ss, steps)
  {
    hide Run, Hygienic, AcceptedIn, ExecutedIn, CallsIn, QueuesFit, ValidConfig;
    if Delivers(c, ss, steps) {
      var ss', steps' :| Delivery(c, ss, steps, ss', steps');
      NoNewCalls(c, ss, steps, ss', steps');
      SmallBatchesStarve(c, ss', steps');
      assert false;
    }
  }

  lemma AlwaysIfOne(c: Config)
    requires ReaderLimits(c)
    ensures AlwaysDelivers(c)
  {
    hide GoodRun, ReaderLimits, AcceptedIn, ExecutedIn;
    forall ss, steps | GoodRun(c, ss, steps) ensures Delivers(c, ss, steps) {
      var ss', steps' := AcceptedCanBeExecuted(c, ss, steps);
      assert Delivery(c, ss, steps, ss', steps');
    }
  }

  /** For every configuration in which some record fits: every good run can be brought, by NIC and reader alone, to the
      point where everything accepted is executed, if and only if keys are asked for and values one at a time. */
  lemma DeliversIff(c: Config)
    requires ValidConfig(c) && c.size > 0 && QueuesFit(c) && c.header + 3 < c.size
    ensures AlwaysDelivers(c) <==> c.keyLimit > 0 && c.valueLimit == 1
  {
    hide GoodRun, ValidConfig, QueuesFit, Delivers, AcceptedIn, CallsIn;
    if c.keyLimit > 0 && c.valueLimit == 1 {
      AlwaysIfOne(c);
    } else {
      var ss, steps := OneAccepted(c);
      StarvedForGood(c, ss, steps);
    }
  }
}
