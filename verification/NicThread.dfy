/** The loop of NIC_thread as a sequence of the protocol's NIC steps. */
module NicThread {
  import opened Ring
  import opened Layout
  import opened Replication
  import opened ValueWrites
  import NodeLaws
  import Progress

  /** The NIC steps `steps`, one after the other, lead from `s` to `z`. */
  ghost predicate Leads(c: Config, s: State, steps: seq<Step>, z: State)
    requires c.size > 0
    decreases |steps|
  {
    if steps == [] then s == z else
    Progress.OfNic(steps[0]) && Enabled(c, s, steps[0]) && Leads(c, Apply(c, s, steps[0]), steps[1..], z)
  }

  lemma {:induction false} LeadsThen(c: Config, s: State, steps: seq<Step>, m: State, more: seq<Step>, z: State)
    requires c.size > 0 && Leads(c, s, steps, m) && Leads(c, m, more, z)
    ensures Leads(c, s, steps + more, z)
    decreases |steps|
  {
    hide Apply, Enabled, Progress.OfNic;
    if steps == [] {
      assert steps + more == more;
    } else {
      LeadsThen(c, Apply(c, s, steps[0]), steps[1..], m, more, z);
      assert (steps + more)[1..] == steps[1..] + more;
    }
  }

  lemma LeadsOne(c: Config, s: State, a: Step)
    requires c.size > 0 && Progress.OfNic(a) && Enabled(c, s, a)
    ensures Leads(c, s, [a], Apply(c, s, a))
  {
    assert Leads(c, Apply(c, s, a), [], Apply(c, s, a));
  }

  function Upto(k: nat): (r: seq<nat>)
    ensures |r| == k && forall i :: 0 <= i < k ==> r[i] == i
  {
    seq(k, i => i)
  }

  function First(k: nat): (r: set<nat>)
    ensures forall i :: i in r <==> 0 <= i < k
  {
    if k == 0 then {} else First(k - 1) + {k - 1}
  }

  /** The state in which the first `k` bytes of the value have been sent. */
  function Sent(c: Config, s: State, log: HeadLog, k: nat): State
    requires c.size > 0 && |s.buf| == c.size && k <= ValueLen(log.rec)
  {
    s.(buf := NodeLaws.Transfer(s.buf, ValuePos(c, log), ValueBytes(log.rec), Upto(k)), nic := NWriting(log, First(k)))
  }

  lemma {:induction false} BytesAreSteps(c: Config, s: State, log: HeadLog, k: nat) returns (steps: seq<Step>)
    requires c.size > 0 && |s.buf| == c.size && k <= ValueLen(log.rec) && s.nic == NWriting(log, {})
    ensures Leads(c, s, steps, Sent(c, s, log, k))
    decreases k
  {
    if k == 0 {
      steps := [];
    } else {
      steps := BytesAreSteps(c, s, log, k - 1);
      hide Leads;
      NextByte(c, s, log, k - 1);
      var m := Sent(c, s, log, k - 1);
      LeadsOne(c, m, NByte(k - 1));
      LeadsThen(c, s, steps, m, [NByte(k - 1)], Sent(c, s, log, k));
      steps := steps + [NByte(k - 1)];
    }
  }

  lemma NextByte(c: Config, s: State, log: HeadLog, k: nat)
    requires c.size > 0 && |s.buf| == c.size && k < ValueLen(log.rec)
    ensures
      var m := Sent(c, s, log, k);
      Enabled(c, m, NByte(k)) && Apply(c, m, NByte(k)) == Sent(c, s, log, k + 1)
  {
    hide ValueBytes, FragAddr, Poke;
    assert Upto(k + 1)[..k] == Upto(k);
    assert First(k + 1) == First(k) + {k};
    ValuePosBelow(c, log);
  }

  lemma ValuePosBelow(c: Config, log: HeadLog)
    requires c.size > 0
    ensures 0 <= ValuePos(c, log) < c.size
  {
  }

  /** Taking a log, sending its value and coming back writes the value to its place. */
  lemma OneLogIsSteps(c: Config, s: State) returns (steps: seq<Step>)
    requires c.size > 0 && |s.buf| == c.size && s.nic.NIdle? && s.sending != [] && Len(s.sending[0].rec) < c.size
    ensures
      var log := s.sending[0];
      Leads(c, s, steps, s.(buf := WriteFrags(s.buf, ValuePos(c, log), ValueBytes(log.rec)), sending := s.sending[1..]))
  {
    var log := s.sending[0];
    var n, s1 := ValueLen(log.rec), Apply(c, s, NTake);
    LeadsOne(c, s, NTake);
    var bytes := BytesAreSteps(c, s1, log, n);
    var s2 := Sent(c, s1, log, n);
    ValuePosBelow(c, log);
    forall i | 0 <= i < n ensures i in Upto(n) {
      assert Upto(n)[i] == i;
    }
    NodeLaws.TransferIsWrite(s.buf, ValuePos(c, log), ValueBytes(log.rec), Upto(n));
    hide Leads, WriteFrags, NodeLaws.Transfer, ValuePos, ValueBytes;
    LeadsThen(c, s, [NTake], s1, bytes, s2);
    LeadsOne(c, s2, NFinish);
    LeadsThen(c, s, [NTake] + bytes, s2, [NFinish], Apply(c, s2, NFinish));
    steps := [NTake] + bytes + [NFinish];
  }

  /** What `HeadNode.NicThread` does to the ring is a run of the protocol's NIC from idle to idle. */
  lemma {:induction false} LoopIsSteps(c: Config, s: State) returns (steps: seq<Step>)
    requires c.size > 0 && |s.buf| == c.size && s.nic.NIdle?
    requires forall i :: 0 <= i < |s.sending| ==> Len(s.sending[i].rec) < c.size
    ensures Leads(c, s, steps, s.(buf := WriteValues(c, s.buf, s.sending), sending := []))
    decreases |s.sending|
  {
    if s.sending == [] {
      steps := [];
    } else {
      var log := s.sending[0];
      var one := OneLogIsSteps(c, s);
      var m := s.(buf := WriteFrags(s.buf, ValuePos(c, log), ValueBytes(log.rec)), sending := s.sending[1..]);
      var rest := LoopIsSteps(c, m);
      hide Leads;
      LeadsThen(c, s, one, m, rest, s.(buf := WriteValues(c, s.buf, s.sending), sending := []));
      steps := one + rest;
    }
  }
}
