/** Whole runs of the work queue: linearizability, service order, exclusion and progress. */
module Linearizability {
  import opened Ring
  import opened WorkQueue

  lemma StepMatches(cfg: Config, s: State, a: Spec, e: Step) returns (b: Spec)
    requires Sim(cfg, s, a) && Enabled(cfg, s, e)
    ensures Matches(cfg, s, a, e, b)
  {
    hide Sim, Matches, Enabled;
    match e
    case Call(t, op) => b := CallMatches(cfg, s, a, t, op);
    case Reject(t) => b := RejectMatches(cfg, s, a, t);
    case Append(t) => b := AppendMatches(cfg, s, a, t);
    case Return(t) => b := ReturnMatches(cfg, s, a, t);
    case Dequeue => b := DequeueMatches(cfg, s, a);
    case LookUp => b := LookUpMatches(cfg, s, a);
    case SpinExit => b := SpinMatches(cfg, s, a, e);
    case SetFlag => b := SpinMatches(cfg, s, a, e);
    case PostTask => b := PostMatches(cfg, s, a);
    case AwaitExit => b := WorkerMatches(cfg, s, a, e);
    case SetWorkDone => b := WorkerMatches(cfg, s, a, e);
    case Transfer(k, i) => b := TransferMatches(cfg, s, a, k, i);
    case ClearFlag(k) => b := CompletionMatches(cfg, s, a, e);
    case SetTaskDone(k) => b := CompletionMatches(cfg, s, a, e);
  }

  /** The atomic steps of a whole run. */
  function AbstractRun(cfg: Config, s: State, es: seq<Step>): seq<SpecStep>
    decreases es
  {
    if es == [] || !Enabled(cfg, s, es[0]) then []
    else Abstract(cfg, s, es[0]) + AbstractRun(cfg, Apply(cfg, s, es[0]), es[1..])
  }

  lemma {:induction false} SRunAppend(cfg: Config, a: Spec, x: seq<SpecStep>, b: Spec, h: seq<Event>,
                                      y: seq<SpecStep>, c: Spec, g: seq<Event>)
    requires SRun(cfg, a, x, b, h) && SRun(cfg, b, y, c, g)
    ensures SRun(cfg, a, x + y, c, h + g)
    decreases x
  {
    hide SEnabled, SApply, SEvents;
    if x == [] {
      assert x + y == y && h + g == g;
    } else {
      var now := SEvents(a, x[0]);
      SRunAppend(cfg, SApply(cfg, a, x[0]), x[1..], b, h[|now|..], y, c, g);
      assert (x + y)[1..] == x[1..] + y;
      assert (h + g)[|now|..] == h[|now|..] + g;
    }
  }

  lemma EmptyRun(cfg: Config, a: Spec)
    ensures SRun(cfg, a, [], a, [])
  {
  }

  lemma {:induction false} RunMatches(cfg: Config, s: State, a: Spec, es: seq<Step>, z: State, h: seq<Event>)
    returns (b: Spec)
    requires Sim(cfg, s, a) && Run(cfg, s, es, z, h)
    ensures SRun(cfg, a, AbstractRun(cfg, s, es), b, h) && Sim(cfg, z, b)
    decreases es
  {
    hide Sim, Enabled, Apply, Events, Abstract, SRun;
    if es == [] {
      b := a;
      EmptyRun(cfg, a);
    } else {
      var mid := StepMatches(cfg, s, a, es[0]);
      var now := Events(s, es[0]);
      b := RunMatches(cfg, Apply(cfg, s, es[0]), mid, es[1..], z, h[|now|..]);
      SRunAppend(cfg, a, Abstract(cfg, s, es[0]), mid, now,
                 AbstractRun(cfg, Apply(cfg, s, es[0]), es[1..]), b, h[|now|..]);
      assert now + h[|now|..] == h;
    }
  }

  lemma InitSim(cfg: Config, mem: seq<byte>)
    ensures Sim(cfg, Init(mem), Spec(mem, map[]))
  {
  }

  /** Every history of calls and returns is one of the atomic object: each operation takes effect once, between the
      two. */
  lemma Linearizable(cfg: Config, mem: seq<byte>, es: seq<Step>, z: State, h: seq<Event>)
    requires Run(cfg, Init(mem), es, z, h)
    ensures exists b :: SRun(cfg, Spec(mem, map[]), AbstractRun(cfg, Init(mem), es), b, h) && Sim(cfg, z, b)
  {
    InitSim(cfg, mem);
    var b := RunMatches(cfg, Init(mem), Spec(mem, map[]), es, z, h);
  }

  // ----- The order of service -----

  datatype Item = Item(t: Tid, op: Op)

  /** The operations that took effect on a connected node, in order. */
  function Linearized(cfg: Config, a: Spec, xs: seq<SpecStep>): seq<Item>
    decreases xs
  {
    if xs == [] || !SEnabled(cfg, a, xs[0]) then []
    else LinearizedBy(cfg, a, xs[0]) + Linearized(cfg, SApply(cfg, a, xs[0]), xs[1..])
  }

  function LinearizedBy(cfg: Config, a: Spec, x: SpecStep): seq<Item>
    requires SEnabled(cfg, a, x)
  {
    match x
    case SLinearize(t) =>
      var op := SGet(a.callers, t).op;
      if op.addr in cfg.connected then [Item(t, op)] else []
    case _ => []
  }

  /** The operations put on the work list, in order. */
  function Appended(cfg: Config, s: State, es: seq<Step>): seq<Item>
    decreases es
  {
    if es == [] || !Enabled(cfg, s, es[0]) then []
    else AppendedBy(s, es[0]) + Appended(cfg, Apply(cfg, s, es[0]), es[1..])
  }

  function AppendedBy(s: State, e: Step): seq<Item>
  {
    if e.Append? && Get(s.callers, e.t).Called? then [Item(e.t, Get(s.callers, e.t).op)] else []
  }

  function ItemOf(callers: map<Tid, Caller>, t: Tid): seq<Item>
  {
    var c := Get(callers, t);
    if c.Waiting? then [Item(t, c.op)] else []
  }

  function Queued(callers: map<Tid, Caller>, list: seq<Tid>): seq<Item>
  {
    if list == [] then [] else ItemOf(callers, list[0]) + Queued(callers, list[1..])
  }

  /** Taken from the list and not yet in effect. */
  function InHand(s: State): seq<Item>
  {
    match s.worker
    case Lookup(t) => ItemOf(s.callers, t)
    case Spin(t, _) => ItemOf(s.callers, t)
    case Mark(t, _) => ItemOf(s.callers, t)
    case Post(t, _) => ItemOf(s.callers, t)
    case _ => []
  }

  function Backlog(s: State): seq<Item>
  {
    InHand(s) + Queued(s.callers, s.list)
  }

  lemma {:induction false} QueuedSame(before: map<Tid, Caller>, after: map<Tid, Caller>, list: seq<Tid>)
    requires forall t :: t in list ==> ItemOf(before, t) == ItemOf(after, t)
    ensures Queued(before, list) == Queued(after, list)
  {
    if list != [] {
      assert list[0] in list;
      QueuedSame(before, after, list[1..]);
    }
  }

  lemma {:induction false} QueuedSnoc(callers: map<Tid, Caller>, list: seq<Tid>, t: Tid)
    ensures Queued(callers, list + [t]) == Queued(callers, list) + ItemOf(callers, t)
  {
    if list == [] {
      assert list + [t] == [t] && [t][1..] == [];
    } else {
      assert (list + [t])[1..] == list[1..] + [t];
      QueuedSnoc(callers, list[1..], t);
    }
  }

  lemma LinearizedOne(cfg: Config, a: Spec, x: SpecStep)
    requires SEnabled(cfg, a, x)
    ensures Linearized(cfg, a, [x]) == LinearizedBy(cfg, a, x)
  {
  }

  lemma LinearizedReject(cfg: Config, a: Spec, t: Tid)
    requires SGet(a.callers, t).SPending? && SGet(a.callers, t).op.addr !in cfg.connected
    ensures Linearized(cfg, a, [SLinearize(t), SReturn(t)]) == []
  {
    var x := SLinearize(t);
    assert SEnabled(cfg, a, x) && LinearizedBy(cfg, a, x) == [];
    assert [x, SReturn(t)][1..] == [SReturn(t)];
    LinearizedOne(cfg, SApply(cfg, a, x), SReturn(t));
  }

  /** The thread a step acts for. */
  function ActorOf(s: State, e: Step): Tid
  {
    match e
    case Call(t, op) => t
    case Reject(t) => t
    case Append(t) => t
    case Return(t) => t
    case Transfer(k, i) => if k < |s.tasks| then s.tasks[k].t else 0
    case _ => if s.worker.Fetch? then 0 else s.worker.t
  }

  lemma CallersAt(cfg: Config, s: State, a: Spec, e: Step)
    requires Sim(cfg, s, a)
    ensures var t := ActorOf(s, e); CallerSim(cfg, |s.mem|, StageOf(s.list, s.worker, t), Get(s.callers, t),
        SGet(a.callers, t))
  {
  }

  lemma CallerOrder(cfg: Config, s: State, a: Spec, e: Step)
    requires Sim(cfg, s, a) && Enabled(cfg, s, e) && (e.Call? || e.Reject? || e.Return? || e.Append?)
    ensures Linearized(cfg, a, Abstract(cfg, s, e)) + Backlog(Apply(cfg, s, e)) == Backlog(s) + AppendedBy(s, e)
  {
    hide Linearized, Queued, TaskSim, OthersDone, FlagsOf, WorkerSim, CallersSim, ListSim;
    CallersAt(cfg, s, a, e);
    QueuedSame(s.callers, Apply(cfg, s, e).callers, s.list);
    match e {
      case Call(t, op) => LinearizedOne(cfg, a, SInvoke(t, op));
      case Reject(t) => LinearizedReject(cfg, a, t);
      case Return(t) => LinearizedOne(cfg, a, SReturn(t));
      case Append(t) =>
        LinearizedNone(cfg, a);
        QueuedSnoc(Apply(cfg, s, e).callers, s.list, t);
    }
  }

  /** A step takes effect on the head of the backlog, or appends at its end, or leaves it. */
  lemma StepOrder(cfg: Config, s: State, a: Spec, e: Step)
    requires Sim(cfg, s, a) && Enabled(cfg, s, e)
    ensures Linearized(cfg, a, Abstract(cfg, s, e)) + Backlog(Apply(cfg, s, e)) == Backlog(s) + AppendedBy(s, e)
  {
    hide Sim, Linearized, Abstract, Backlog, Apply, AppendedBy;
    if e.Call? || e.Reject? || e.Return? || e.Append? {
      CallerOrder(cfg, s, a, e);
    } else if e.LookUp? || e.PostTask? {
      EffectOrder(cfg, s, a, e);
    } else {
      SilentOrder(cfg, s, a, e);
    }
  }

  lemma EffectOrder(cfg: Config, s: State, a: Spec, e: Step)
    requires Sim(cfg, s, a) && Enabled(cfg, s, e) && (e.LookUp? || e.PostTask?)
    ensures Linearized(cfg, a, Abstract(cfg, s, e)) + Backlog(Apply(cfg, s, e)) == Backlog(s) + AppendedBy(s, e)
  {
    CallersAt(cfg, s, a, e);
    hide Sim, Linearized, Queued, Atomic;
    LinearizedNone(cfg, a);
    if e.PostTask? || Get(s.callers, s.worker.t).op.addr !in cfg.table {
      LinearizedOne(cfg, a, SLinearize(s.worker.t));
    }
  }

  lemma SilentOrder(cfg: Config, s: State, a: Spec, e: Step)
    requires Sim(cfg, s, a) && Enabled(cfg, s, e)
    requires !(e.Call? || e.Reject? || e.Return? || e.Append? || e.LookUp? || e.PostTask?)
    ensures Linearized(cfg, a, Abstract(cfg, s, e)) + Backlog(Apply(cfg, s, e)) == Backlog(s) + AppendedBy(s, e)
  {
    hide Sim, Linearized, Queued, Fits;
    LinearizedNone(cfg, a);
    QueuedSame(s.callers, Apply(cfg, s, e).callers, s.list);
    if e.Dequeue? { QueuedCons(s.callers, s.list); }
  }

  lemma LinearizedNone(cfg: Config, a: Spec)
    ensures Linearized(cfg, a, []) == []
  {
  }

  lemma QueuedCons(callers: map<Tid, Caller>, list: seq<Tid>)
    requires list != []
    ensures Queued(callers, list) == ItemOf(callers, list[0]) + Queued(callers, list[1..])
  {
  }

  lemma {:induction false} LinearizedAppend(cfg: Config, a: Spec, x: seq<SpecStep>, b: Spec, h: seq<Event>,
                                            y: seq<SpecStep>)
    requires SRun(cfg, a, x, b, h)
    ensures Linearized(cfg, a, x + y) == Linearized(cfg, a, x) + Linearized(cfg, b, y)
    decreases x
  {
    hide SEnabled, SApply, SEvents, LinearizedBy;
    if x == [] {
      assert x + y == y;
    } else {
      LinearizedAppend(cfg, SApply(cfg, a, x[0]), x[1..], b, h[|SEvents(a, x[0])|..], y);
      assert (x + y)[1..] == x[1..] + y;
    }
  }

  lemma {:induction false} RunOrder(cfg: Config, s: State, a: Spec, es: seq<Step>, z: State, h: seq<Event>)
    requires Sim(cfg, s, a) && Run(cfg, s, es, z, h)
    ensures Linearized(cfg, a, AbstractRun(cfg, s, es)) + Backlog(z) == Backlog(s) + Appended(cfg, s, es)
    decreases es
  {
    hide Sim, Enabled, Apply, Events, Abstract, SRun, Linearized, AppendedBy, Backlog;
    if es == [] {
      LinearizedNone(cfg, a);
    } else {
      var e, n := es[0], Apply(cfg, s, es[0]);
      var b := StepMatches(cfg, s, a, e);
      StepOrder(cfg, s, a, e);
      var now := Events(s, e);
      RunOrder(cfg, n, b, es[1..], z, h[|now|..]);
      var x, y := Abstract(cfg, s, e), AbstractRun(cfg, n, es[1..]);
      LinearizedAppend(cfg, a, x, b, now, y);
      var p, q, u, v := Linearized(cfg, a, x), Linearized(cfg, b, y), AppendedBy(s, e), Appended(cfg, n, es[1..]);
      assert p + q + Backlog(z) == p + (q + Backlog(z)) == p + Backlog(n) + v == Backlog(s) + (u + v);
    }
  }

  /** Operations take effect in the order of the work list, and what has not yet is exactly the backlog. */
  lemma ServedInListOrder(cfg: Config, mem: seq<byte>, es: seq<Step>, z: State, h: seq<Event>)
    requires Run(cfg, Init(mem), es, z, h)
    ensures Linearized(cfg, Spec(mem, map[]), AbstractRun(cfg, Init(mem), es)) + Backlog(z) == Appended(cfg,
        Init(mem), es)
  {
    InitSim(cfg, mem);
    RunOrder(cfg, Init(mem), Spec(mem, map[]), es, z, h);
    assert Backlog(Init(mem)) == [];
  }

  /** One operation after the other on the memory. */
  function Sequential(cfg: Config, mem: seq<byte>, items: seq<Item>): seq<byte>
    decreases items
  {
    if items == [] || !Fits(cfg, |mem|, items[0].op) then mem
    else Sequential(cfg, Atomic(cfg, mem, items[0].op).mem, items[1..])
  }

  lemma {:induction false} SpecMemory(cfg: Config, a: Spec, xs: seq<SpecStep>, b: Spec, h: seq<Event>)
    requires SRun(cfg, a, xs, b, h)
    ensures b.mem == Sequential(cfg, a.mem, Linearized(cfg, a, xs))
    decreases xs
  {
    hide Fits;
    if xs != [] {
      var n := SApply(cfg, a, xs[0]);
      SpecMemory(cfg, n, xs[1..], b, h[|SEvents(a, xs[0])|..]);
      var now, rest := LinearizedBy(cfg, a, xs[0]), Linearized(cfg, n, xs[1..]);
      if now == [] {
        assert now + rest == rest;
      } else {
        assert (now + rest)[1..] == rest;
      }
    }
  }

  /** With nothing outstanding, the remote memory is what the appended operations make one after the other. */
  lemma QuietMemory(cfg: Config, mem: seq<byte>, es: seq<Step>, z: State, h: seq<Event>)
    requires Run(cfg, Init(mem), es, z, h) && z.worker.Fetch? && z.list == []
    ensures z.mem == Sequential(cfg, mem, Appended(cfg, Init(mem), es))
  {
    hide *;
    Linearizable(cfg, mem, es, z, h);
    var xs := AbstractRun(cfg, Init(mem), es);
    var b :| SRun(cfg, Spec(mem, map[]), xs, b, h) && Sim(cfg, z, b);
    SpecMemory(cfg, Spec(mem, map[]), xs, b, h);
    ServedInListOrder(cfg, mem, es, z, h);
    QuietState(cfg, z, b);
    assert Linearized(cfg, Spec(mem, map[]), xs) + [] == Linearized(cfg, Spec(mem, map[]), xs);
  }

  lemma QuietState(cfg: Config, z: State, b: Spec)
    requires Sim(cfg, z, b) && z.worker.Fetch? && z.list == []
    ensures z.mem == b.mem && Backlog(z) == []
  {
  }

  // ----- Exclusion -----

  /** At most one transfer is in flight; between items there is none and every write_flag is false; the spin loops
      fall through. */
  lemma OneTransferAtATime(cfg: Config, mem: seq<byte>, es: seq<Step>, z: State, h: seq<Event>)
    requires Run(cfg, Init(mem), es, z, h)
    ensures forall j, k :: 0 <= j < k < |z.tasks| ==> z.tasks[j].phase.Complete? || z.tasks[k].phase.Complete?
    ensures z.worker.Fetch? ==> z.flags == {} && forall k :: 0 <= k < |z.tasks| ==> z.tasks[k].phase.Complete?
    ensures z.worker.Spin? ==> z.flags == {} && Enabled(cfg, z, SpinExit)
    ensures |z.flags| <= 1
    ensures forall k ::
      0 <= k < |z.tasks| && z.tasks[k].write && z.tasks[k].phase.Moving? ==> z.flags == {z.tasks[k].rec.id}
  {
    Linearizable(cfg, mem, es, z, h);
    var b :| Sim(cfg, z, b);
    assert |z.flags| <= 1;
  }

  // ----- Progress -----

  /** While a call has not returned, some thread can move without a new call. */
  lemma NeverStuck(cfg: Config, s: State, a: Spec, t: Tid) returns (e: Step)
    requires Sim(cfg, s, a) && !Get(s.callers, t).Idle?
    ensures !e.Call? && Enabled(cfg, s, e)
  {
    var c := Get(s.callers, t);
    assert CallerSim(cfg, |s.mem|, StageOf(s.list, s.worker, t), c, SGet(a.callers, t));
    if c.Called? {
      e := if c.op.addr in cfg.connected then Append(t) else Reject(t);
    } else if c.done {
      e := Return(t);
    } else {
      match s.worker
      case Fetch => e := Dequeue;
      case Lookup(_) => e := LookUp;
      case Spin(_, _) => e := SpinExit;
      case Mark(_, _) => e := SetFlag;
      case Post(_, _) => e := PostTask;
      case Finish(_) => e := SetWorkDone;
      case Await(_, k) =>
        var d := s.tasks[k];
        if d.phase.Complete? { e := AwaitExit; }
        else if d.phase.Cleared? || (d.phase == Moving({}) && !d.write) { e := SetTaskDone(k); }
        else if d.phase == Moving({}) { e := ClearFlag(k); }
        else {
          var i :| i in d.phase.left;
          e := Transfer(k, i);
        }
    }
  }

  /** Calls before their append, list length, position of the worker, bytes and flags of its task, calls about to
      return. */
  datatype Rank = Rank(called: nat, list: nat, worker: nat, task: nat, done: nat)

  predicate Less(x: Rank, y: Rank)
  {
    || x.called < y.called
    || (x.called == y.called
        && (|| x.list < y.list
            || (x.list == y.list
                && (|| x.worker < y.worker
                    || (x.worker == y.worker && (x.task < y.task || (x.task == y.task && x.done < y.done)))))))
  }

  function CalledSet(m: map<Tid, Caller>): set<Tid>
  {
    set t | t in m && m[t].Called?
  }

  function DoneSet(m: map<Tid, Caller>): set<Tid>
  {
    set t | t in m && m[t].Waiting? && m[t].done
  }

  function WorkerRank(w: Worker): nat
  {
    match w
    case Fetch => 0
    case Finish(_) => 1
    case Await(_, _) => 2
    case Post(_, _) => 3
    case Mark(_, _) => 4
    case Spin(_, _) => 5
    case Lookup(_) => 6
  }

  function PhaseRank(p: Phase): nat
  {
    match p
    case Moving(left) => |left| + 2
    case Cleared => 1
    case Complete => 0
  }

  function TaskRank(s: State): nat
  {
    if s.worker.Await? && s.worker.k < |s.tasks| then PhaseRank(s.tasks[s.worker.k].phase) else 0
  }

  function RankOf(s: State): Rank
  {
    Rank(|CalledSet(s.callers)|, |s.list|, WorkerRank(s.worker), TaskRank(s), |DoneSet(s.callers)|)
  }

  lemma Shrinks(before: set<Tid>, after: set<Tid>, t: Tid)
    requires t in before && after == before - {t}
    ensures |after| < |before|
  {
  }

  lemma CallerProgress(cfg: Config, s: State, e: Step)
    requires Enabled(cfg, s, e) && (e.Reject? || e.Append? || e.Return?)
    ensures Less(RankOf(Apply(cfg, s, e)), RankOf(s))
  {
    hide Fits, CalledSet, DoneSet;
    if e.Return? {
      GoneDone(s.callers, e.t);
    } else if e.Reject? {
      GoneCalled(s.callers, e.t, Idle);
    } else {
      var op := Get(s.callers, e.t).op;
      GoneCalled(s.callers, e.t, Waiting(op, op.buf, false));
    }
  }

  lemma GoneCalled(m: map<Tid, Caller>, t: Tid, c: Caller)
    requires Get(m, t).Called? && !c.Called?
    ensures |CalledSet(m[t := c])| < |CalledSet(m)|
  {
    assert CalledSet(m[t := c]) == CalledSet(m) - {t};
    Shrinks(CalledSet(m), CalledSet(m[t := c]), t);
  }

  lemma GoneDone(m: map<Tid, Caller>, t: Tid)
    requires Get(m, t).Waiting? && Get(m, t).done
    ensures |DoneSet(m[t := Idle])| < |DoneSet(m)| && CalledSet(m[t := Idle]) == CalledSet(m)
  {
    assert DoneSet(m[t := Idle]) == DoneSet(m) - {t};
    Shrinks(DoneSet(m), DoneSet(m[t := Idle]), t);
  }

  lemma SameCalled(before: map<Tid, Caller>, after: map<Tid, Caller>, t: Tid, c: Caller)
    requires after == before[t := c] && Get(before, t).Waiting? && c.Waiting?
    ensures CalledSet(after) == CalledSet(before)
  {
  }

  lemma WorkerProgress(cfg: Config, s: State, e: Step)
    requires Enabled(cfg, s, e) && (e.Dequeue? || e.LookUp? || e.SpinExit? || e.SetFlag? || e.PostTask?
        || e.AwaitExit? || e.SetWorkDone?)
    ensures Less(RankOf(Apply(cfg, s, e)), RankOf(s))
  {
    hide Fits, CalledSet, DoneSet, TaskRank;
    if e.SetWorkDone? {
      var c := Get(s.callers, s.worker.t);
      SameCalled(s.callers, Apply(cfg, s, e).callers, s.worker.t, c.(done := true));
    }
  }

  lemma NicProgress(cfg: Config, s: State, e: Step)
    requires OthersDone(s.tasks, s.worker)
    requires Enabled(cfg, s, e) && (e.Transfer? || e.ClearFlag? || e.SetTaskDone?)
    ensures Less(RankOf(Apply(cfg, s, e)), RankOf(s))
  {
    hide Fits, CalledSet, DoneSet;
    var z := Apply(cfg, s, e);
    assert s.worker.Await? && s.worker.k == e.k;
    if e.Transfer? {
      var d := s.tasks[e.k];
      Shrinks(d.phase.left, d.phase.left - {e.i}, e.i);
      if !d.write {
        SameCalled(s.callers, z.callers, d.t, z.callers[d.t]);
      }
    }
    assert TaskRank(z) < TaskRank(s);
  }

  /** Every step other than a new call lowers a well-founded rank: no thread can spin for ever without new calls. */
  lemma EveryStepIsProgress(cfg: Config, s: State, a: Spec, e: Step)
    requires Sim(cfg, s, a) && Enabled(cfg, s, e) && !e.Call?
    ensures Less(RankOf(Apply(cfg, s, e)), RankOf(s))
  {
    hide RankOf, Less, Apply, Enabled, WorkerSim, CallersSim;
    match e {
      case Reject(_) => CallerProgress(cfg, s, e);
      case Append(_) => CallerProgress(cfg, s, e);
      case Return(_) => CallerProgress(cfg, s, e);
      case Transfer(_, _) => NicProgress(cfg, s, e);
      case ClearFlag(_) => NicProgress(cfg, s, e);
      case SetTaskDone(_) => NicProgress(cfg, s, e);
      case _ => WorkerProgress(cfg, s, e);
    }
  }

  /** From every reachable state the calls still open can all return, by steps of the waiting side alone. */
  lemma {:induction false} Drains(cfg: Config, s: State, a: Spec) returns (es: seq<Step>, z: State, h: seq<Event>)
    requires Sim(cfg, s, a)
    ensures Run(cfg, s, es, z, h) && forall t :: Get(z.callers, t).Idle?
    ensures forall e :: e in es ==> !e.Call?
    decreases RankOf(s).called, RankOf(s).list, RankOf(s).worker, RankOf(s).task, RankOf(s).done
  {
    hide Sim, Enabled, Apply, Events, RankOf;
    if t :| !Get(s.callers, t).Idle? {
      var e := NeverStuck(cfg, s, a, t);
      var b := StepMatches(cfg, s, a, e);
      EveryStepIsProgress(cfg, s, a, e);
      var rest, end, later := Drains(cfg, Apply(cfg, s, e), b);
      es, z, h := [e] + rest, end, Events(s, e) + later;
      assert es[1..] == rest && h[|Events(s, e)|..] == later;
    } else {
      es, z, h := [], s, [];
    }
  }

  lemma EveryCallCanReturn(cfg: Config, mem: seq<byte>, es: seq<Step>, s: State, h: seq<Event>)
    returns (more: seq<Step>, z: State, later: seq<Event>)
    requires Run(cfg, Init(mem), es, s, h)
    ensures Run(cfg, s, more, z, later) && forall t :: Get(z.callers, t).Idle?
    ensures forall e :: e in more ==> !e.Call?
  {
    hide *;
    Linearizable(cfg, mem, es, s, h);
    var b :| Sim(cfg, s, b);
    more, z, later := Drains(cfg, s, b);
  }
}
