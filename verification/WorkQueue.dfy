/** Remote reads and writes: callers append work to a list, one worker serves it, the NIC moves bytes one at a time. */
module WorkQueue {
  import opened Ring

  type Tid = nat
  type Addr = nat

  /** An address record: `id` names its write_flag, `base` is where its region starts in the remote memory. */
  datatype Rec = Rec(id: nat, base: int)

  /** What the address table finds, and the addresses whose node is connected. */
  datatype Config = Config(table: map<Addr, Rec>, connected: set<Addr>)

  /** `buf` is the caller's local buffer: the data to write, or what the buffer of a read holds at the call. */
  datatype Op = Op(write: bool, addr: Addr, offset: int, buf: seq<byte>)

  datatype Event = Invoke(t: Tid, op: Op) | Response(t: Tid, code: int, buf: seq<byte>)

  function Pos(cfg: Config, op: Op): int
    requires op.addr in cfg.table
  {
    cfg.table[op.addr].base + op.offset
  }

  /** The accessed bytes lie in the remote memory. */
  predicate Fits(cfg: Config, size: nat, op: Op)
  {
    op.addr in cfg.connected && op.addr in cfg.table ==> 0 <= Pos(cfg, op) && Pos(cfg, op) + |op.buf| <= size
  }

  // ----- The atomic object -----

  datatype Outcome = Outcome(mem: seq<byte>, code: int, buf: seq<byte>)

  /** The whole operation in one instant. */
  function Atomic(cfg: Config, mem: seq<byte>, op: Op): (r: Outcome)
    requires Fits(cfg, |mem|, op)
    ensures |r.mem| == |mem| && |r.buf| == |op.buf|
  {
    if op.addr !in cfg.connected then Outcome(mem, -1, op.buf)
    else if op.addr !in cfg.table then Outcome(mem, 0, op.buf)
    else
      var p := Pos(cfg, op);
      if op.write then Outcome(mem[..p] + op.buf + mem[p + |op.buf|..], 0, op.buf)
      else Outcome(mem, 0, mem[p..p + |op.buf|])
  }

  datatype SpecCaller = SIdle | SPending(op: Op) | SApplied(op: Op, code: int, buf: seq<byte>)
  datatype Spec = Spec(mem: seq<byte>, callers: map<Tid, SpecCaller>)
  datatype SpecStep = SInvoke(t: Tid, op: Op) | SLinearize(t: Tid) | SReturn(t: Tid)

  function SGet(m: map<Tid, SpecCaller>, t: Tid): SpecCaller
  {
    if t in m then m[t] else SIdle
  }

  predicate SEnabled(cfg: Config, a: Spec, e: SpecStep)
  {
    match e
    case SInvoke(t, op) => SGet(a.callers, t).SIdle? && Fits(cfg, |a.mem|, op)
    case SLinearize(t) => SGet(a.callers, t).SPending? && Fits(cfg, |a.mem|, SGet(a.callers, t).op)
    case SReturn(t) => SGet(a.callers, t).SApplied?
  }

  function SApply(cfg: Config, a: Spec, e: SpecStep): Spec
    requires SEnabled(cfg, a, e)
  {
    match e
    case SInvoke(t, op) => a.(callers := a.callers[t := SPending(op)])
    case SLinearize(t) =>
      var op := SGet(a.callers, t).op;
      var r := Atomic(cfg, a.mem, op);
      Spec(r.mem, a.callers[t := SApplied(op, r.code, r.buf)])
    case SReturn(t) => a.(callers := a.callers[t := SIdle])
  }

  function SEvents(a: Spec, e: SpecStep): seq<Event>
  {
    match e
    case SInvoke(t, op) => [Invoke(t, op)]
    case SLinearize(t) => []
    case SReturn(t) =>
      var c := SGet(a.callers, t);
      if c.SApplied? then [Response(t, c.code, c.buf)] else []
  }

  predicate SRun(cfg: Config, a: Spec, es: seq<SpecStep>, b: Spec, h: seq<Event>)
    decreases es
  {
    if es == [] then a == b && h == []
    else
      && SEnabled(cfg, a, es[0])
      && var now := SEvents(a, es[0]);
         now <= h && SRun(cfg, SApply(cfg, a, es[0]), es[1..], b, h[|now|..])
  }

  // ----- The implementation -----

  datatype Caller = Idle | Called(op: Op) | Waiting(op: Op, buf: seq<byte>, done: bool)

  /** Where the worker thread is; `rec` is the record it found. */
  datatype Worker =
    | Fetch
    | Lookup(t: Tid)
    | Spin(t: Tid, rec: Rec)
    | Mark(t: Tid, rec: Rec)
    | Post(t: Tid, rec: Rec)
    | Await(t: Tid, k: nat)
    | Finish(t: Tid)

  /** A posted transfer: bytes still to move, then write_flag cleared, then done_flag set. */
  datatype Phase = Moving(left: set<nat>) | Cleared | Complete
  datatype Task = Task(t: Tid, rec: Rec, write: bool, pos: int, phase: Phase)

  datatype State = State(
    mem: seq<byte>,
    flags: set<nat>,
    callers: map<Tid, Caller>,
    list: seq<Tid>,
    worker: Worker,
    tasks: seq<Task>)

  datatype Step =
    | Call(t: Tid, op: Op)
    | Reject(t: Tid)
    | Append(t: Tid)
    | Return(t: Tid)
    | Dequeue
    | LookUp
    | SpinExit
    | SetFlag
    | PostTask
    | AwaitExit
    | SetWorkDone
    | Transfer(k: nat, i: nat)
    | ClearFlag(k: nat)
    | SetTaskDone(k: nat)

  function Below(n: nat): (r: set<nat>)
    ensures forall i :: i in r <==> 0 <= i < n
  {
    if n == 0 then {} else Below(n - 1) + {n - 1}
  }

  function Get(m: map<Tid, Caller>, t: Tid): Caller
  {
    if t in m then m[t] else Idle
  }

  predicate Enabled(cfg: Config, s: State, e: Step)
  {
    match e
    case Call(t, op) => Get(s.callers, t).Idle? && Fits(cfg, |s.mem|, op)
    case Reject(t) => Get(s.callers, t).Called? && Get(s.callers, t).op.addr !in cfg.connected
    case Append(t) => Get(s.callers, t).Called? && Get(s.callers, t).op.addr in cfg.connected
    case Return(t) => Get(s.callers, t).Waiting? && Get(s.callers, t).done
    case Dequeue => s.worker.Fetch? && s.list != []
    case LookUp => s.worker.Lookup? && Get(s.callers, s.worker.t).Waiting?
    case SpinExit => s.worker.Spin? && s.worker.rec.id !in s.flags && Get(s.callers, s.worker.t).Waiting?
    case SetFlag => s.worker.Mark?
    case PostTask => s.worker.Post? && Get(s.callers, s.worker.t).Waiting?
    case AwaitExit => s.worker.Await? && s.worker.k < |s.tasks| && s.tasks[s.worker.k].phase.Complete?
    case SetWorkDone => s.worker.Finish? && Get(s.callers, s.worker.t).Waiting?
    case Transfer(k, i) =>
      && k < |s.tasks| && s.tasks[k].phase.Moving? && i in s.tasks[k].phase.left
      && 0 <= s.tasks[k].pos + i < |s.mem|
      && var c := Get(s.callers, s.tasks[k].t); c.Waiting? && i < |c.buf|
    case ClearFlag(k) => k < |s.tasks| && s.tasks[k].phase == Moving({}) && s.tasks[k].write
    case SetTaskDone(k) =>
      k < |s.tasks| && (s.tasks[k].phase.Cleared? || (s.tasks[k].phase == Moving({}) && !s.tasks[k].write))
  }

  function Apply(cfg: Config, s: State, e: Step): State
    requires Enabled(cfg, s, e)
  {
    match e
    case Call(t, op) => s.(callers := s.callers[t := Called(op)])
    case Reject(t) => s.(callers := s.callers[t := Idle])
    case Append(t) =>
      var op := Get(s.callers, t).op;
      s.(callers := s.callers[t := Waiting(op, op.buf, false)], list := s.list + [t])
    case Return(t) => s.(callers := s.callers[t := Idle])
    case Dequeue => s.(worker := Lookup(s.list[0]), list := s.list[1..])
    case LookUp =>
      var t := s.worker.t;
      var op := Get(s.callers, t).op;
      s.(worker := if op.addr in cfg.table then Spin(t, cfg.table[op.addr]) else Finish(t))
    case SpinExit =>
      var t := s.worker.t;
      s.(worker := if Get(s.callers, t).op.write then Mark(t, s.worker.rec) else Post(t, s.worker.rec))
    case SetFlag => s.(flags := s.flags + {s.worker.rec.id}, worker := Post(s.worker.t, s.worker.rec))
    case PostTask =>
      var t := s.worker.t;
      var op := Get(s.callers, t).op;
      var left := Below(|op.buf|);
      s.(tasks := s.tasks + [Task(t, s.worker.rec, op.write, s.worker.rec.base + op.offset, Moving(left))],
         worker := Await(t, |s.tasks|))
    case AwaitExit => s.(worker := Finish(s.worker.t))
    case SetWorkDone =>
      var t := s.worker.t;
      s.(callers := s.callers[t := Get(s.callers, t).(done := true)], worker := Fetch)
    case Transfer(k, i) =>
      var d := s.tasks[k];
      var c := Get(s.callers, d.t);
      var rest := s.(tasks := s.tasks[k := d.(phase := Moving(d.phase.left - {i}))]);
      if d.write then rest.(mem := s.mem[d.pos + i := c.buf[i]])
      else rest.(callers := s.callers[d.t := c.(buf := c.buf[i := s.mem[d.pos + i]])])
    case ClearFlag(k) =>
      s.(flags := s.flags - {s.tasks[k].rec.id}, tasks := s.tasks[k := s.tasks[k].(phase := Cleared)])
    case SetTaskDone(k) => s.(tasks := s.tasks[k := s.tasks[k].(phase := Complete)])
  }

  function Events(s: State, e: Step): seq<Event>
  {
    match e
    case Call(t, op) => [Invoke(t, op)]
    case Reject(t) => if Get(s.callers, t).Called? then [Response(t, -1, Get(s.callers, t).op.buf)] else []
    case Return(t) => if Get(s.callers, t).Waiting? then [Response(t, 0, Get(s.callers, t).buf)] else []
    case _ => []
  }

  predicate Run(cfg: Config, s: State, es: seq<Step>, z: State, h: seq<Event>)
    decreases es
  {
    if es == [] then s == z && h == []
    else
      && Enabled(cfg, s, es[0])
      && var now := Events(s, es[0]);
         now <= h && Run(cfg, Apply(cfg, s, es[0]), es[1..], z, h[|now|..])
  }

  function Init(mem: seq<byte>): State
  {
    State(mem, {}, map[], [], Fetch, [])
  }

  // ----- The simulation -----

  /** How far the service of a waiting caller has come. */
  datatype Stage = Before | During | After | Served

  function StageOf(list: seq<Tid>, w: Worker, t: Tid): Stage
  {
    if t in list then Before
    else if w.Fetch? || w.t != t then Served
    else if w.Await? then During
    else if w.Finish? then After
    else Before
  }

  /** One caller against its specification: it is applied once it is no longer before its post. */
  predicate CallerSim(cfg: Config, size: nat, st: Stage, c: Caller, a: SpecCaller)
  {
    match c
    case Idle => a == SIdle && st == Served
    case Called(op) => a == SPending(op) && st == Served && Fits(cfg, size, op)
    case Waiting(op, buf, done) =>
      && op.addr in cfg.connected && |buf| == |op.buf| && Fits(cfg, size, op)
      && (done <==> st == Served)
      && match st
         case Before => a == SPending(op) && buf == op.buf
         case During => a.SApplied? && a.op == op && a.code == 0 && |a.buf| == |buf|
         case _ => a == SApplied(op, 0, buf)
  }

  ghost predicate CallersSim(cfg: Config, size: nat, list: seq<Tid>, w: Worker, callers: map<Tid, Caller>,
                             specs: map<Tid, SpecCaller>)
  {
    forall t :: CallerSim(cfg, size, StageOf(list, w, t), Get(callers, t), SGet(specs, t))
  }

  /** The list holds each waiting caller once, and never the one being served. */
  predicate ListSim(list: seq<Tid>, w: Worker)
  {
    && (forall i, j :: 0 <= i < j < |list| ==> list[i] != list[j])
    && (w.Fetch? || w.t !in list)
  }

  /** Every task the worker does not wait for is complete. */
  predicate OthersDone(tasks: seq<Task>, w: Worker)
  {
    && (forall k :: 0 <= k < |tasks| ==> tasks[k].phase.Complete? || (w.Await? && w.k == k))
    && (w.Await? ==> w.k < |tasks|)
  }

  /** Byte `x` of the specification's memory, given the bytes a write still has to move. */
  predicate MemSim(mem: seq<byte>, goal: seq<byte>, pos: int, buf: seq<byte>, left: set<nat>)
  {
    && |goal| == |mem| && 0 <= pos && pos + |buf| <= |mem|
    && (forall i :: i in left ==> i < |buf|)
    && forall x :: 0 <= x < |mem| ==> goal[x] == if pos <= x && x - pos in left then buf[x - pos] else mem[x]
  }

  predicate BufSim(mem: seq<byte>, goal: seq<byte>, pos: int, buf: seq<byte>, left: set<nat>)
  {
    && |goal| == |buf| && 0 <= pos && pos + |buf| <= |mem|
    && (forall i :: i in left ==> i < |buf|)
    && forall i :: 0 <= i < |buf| ==> goal[i] == if i in left then mem[pos + i] else buf[i]
  }

  /** The task in service: the operation's own, and its remaining bytes are exactly the difference to the
      specification. */
  predicate TaskSim(cfg: Config, t: Tid, d: Task, c: Caller, mem: seq<byte>, goal: seq<byte>, a: SpecCaller)
  {
    && c.Waiting? && a.SApplied? && c.op.addr in cfg.table
    && d.t == t && d.rec == cfg.table[c.op.addr] && d.write == c.op.write && d.pos == Pos(cfg, c.op)
    && (c.op.write ==> a.buf == c.buf)
    && (!c.op.write ==> goal == mem && !d.phase.Cleared?)
    && match d.phase
       case Moving(left) =>
         if d.write then MemSim(mem, goal, d.pos, c.buf, left) else BufSim(mem, a.buf, d.pos, c.buf, left)
       case _ => goal == mem && a.buf == c.buf
  }

  function FlagsOf(s: State): set<nat>
  {
    match s.worker
    case Post(t, rec) => if Get(s.callers, t).Waiting? && Get(s.callers, t).op.write then {rec.id} else {}
    case Await(t, k) => if k < |s.tasks| && s.tasks[k].write
      && s.tasks[k].phase.Moving? then {s.tasks[k].rec.id} else {}
    case _ => {}
  }

  ghost predicate WorkerSim(cfg: Config, s: State, a: Spec)
  {
    match s.worker
    case Await(t, k) => k < |s.tasks|
      && TaskSim(cfg, t, s.tasks[k], Get(s.callers, t), s.mem, a.mem, SGet(a.callers, t))
    case Spin(t, rec) => a.mem == s.mem && Found(cfg, Get(s.callers, t), rec)
    case Mark(t, rec) => a.mem == s.mem && Found(cfg, Get(s.callers, t), rec) && Get(s.callers, t).op.write
    case Post(t, rec) => a.mem == s.mem && Found(cfg, Get(s.callers, t), rec)
    case _ => a.mem == s.mem
  }

  predicate Found(cfg: Config, c: Caller, rec: Rec)
  {
    c.Waiting? && c.op.addr in cfg.table && rec == cfg.table[c.op.addr]
  }

  ghost predicate Sim(cfg: Config, s: State, a: Spec)
  {
    && |a.mem| == |s.mem|
    && CallersSim(cfg, |s.mem|, s.list, s.worker, s.callers, a.callers)
    && ListSim(s.list, s.worker)
    && (!s.worker.Fetch? ==> Get(s.callers, s.worker.t).Waiting?)
    && (forall t :: t in s.list ==> Get(s.callers, t).Waiting?)
    && OthersDone(s.tasks, s.worker)
    && s.flags == FlagsOf(s)
    && WorkerSim(cfg, s, a)
  }

  /** The specification steps an implementation step stands for: an operation takes effect when it is posted. */
  function Abstract(cfg: Config, s: State, e: Step): seq<SpecStep>
  {
    match e
    case Call(t, op) => [SInvoke(t, op)]
    case Reject(t) => [SLinearize(t), SReturn(t)]
    case Return(t) => [SReturn(t)]
    case LookUp =>
      if s.worker.Lookup? && Get(s.callers, s.worker.t).Waiting? && Get(s.callers, s.worker.t).op.addr !in cfg.table
      then [SLinearize(s.worker.t)] else []
    case PostTask => if s.worker.Post? then [SLinearize(s.worker.t)] else []
    case _ => []
  }

  /** The result of one implementation step on the specification's side. */
  ghost predicate Matches(cfg: Config, s: State, a: Spec, e: Step, b: Spec)
    requires Enabled(cfg, s, e)
  {
    && SRun(cfg, a, Abstract(cfg, s, e), b, Events(s, e))
    && Sim(cfg, Apply(cfg, s, e), b)
  }

  // ----- One lemma for each step -----

  /** The callers other than `t` are untouched, `t` is given. */
  lemma OneCaller(cfg: Config, s: State, a: Spec, z: State, b: Spec, t: Tid)
    requires CallersSim(cfg, |s.mem|, s.list, s.worker, s.callers, a.callers) && |z.mem| == |s.mem|
    requires CallerSim(cfg, |z.mem|, StageOf(z.list, z.worker, t), Get(z.callers, t), SGet(b.callers, t))
    requires forall u :: u != t ==>
      && StageOf(s.list, s.worker, u) == StageOf(z.list, z.worker, u)
      && Get(s.callers, u) == Get(z.callers, u) && SGet(a.callers, u) == SGet(b.callers, u)
    ensures CallersSim(cfg, |z.mem|, z.list, z.worker, z.callers, b.callers)
  {
  }

  lemma OneStep(cfg: Config, a: Spec, e: SpecStep, h: seq<Event>)
    requires SEnabled(cfg, a, e) && h == SEvents(a, e)
    ensures SRun(cfg, a, [e], SApply(cfg, a, e), h)
  {
  }

  lemma CallMatches(cfg: Config, s: State, a: Spec, t: Tid, op: Op) returns (b: Spec)
    requires Sim(cfg, s, a) && Enabled(cfg, s, Call(t, op))
    ensures Matches(cfg, s, a, Call(t, op), b)
  {
    var z := Apply(cfg, s, Call(t, op));
    assert CallerSim(cfg, |s.mem|, StageOf(s.list, s.worker, t), Get(s.callers, t), SGet(a.callers, t));
    b := SApply(cfg, a, SInvoke(t, op));
    OneStep(cfg, a, SInvoke(t, op), [Invoke(t, op)]);
    OneCaller(cfg, s, a, z, b, t);
  }

  lemma ReturnMatches(cfg: Config, s: State, a: Spec, t: Tid) returns (b: Spec)
    requires Sim(cfg, s, a) && Enabled(cfg, s, Return(t))
    ensures Matches(cfg, s, a, Return(t), b)
  {
    var z := Apply(cfg, s, Return(t));
    assert CallerSim(cfg, |s.mem|, StageOf(s.list, s.worker, t), Get(s.callers, t), SGet(a.callers, t));
    b := SApply(cfg, a, SReturn(t));
    OneStep(cfg, a, SReturn(t), Events(s, Return(t)));
    OneCaller(cfg, s, a, z, b, t);
  }

  lemma RejectMatches(cfg: Config, s: State, a: Spec, t: Tid) returns (b: Spec)
    requires Sim(cfg, s, a) && Enabled(cfg, s, Reject(t))
    ensures Matches(cfg, s, a, Reject(t), b)
  {
    var z := Apply(cfg, s, Reject(t));
    assert CallerSim(cfg, |s.mem|, StageOf(s.list, s.worker, t), Get(s.callers, t), SGet(a.callers, t));
    var mid := SApply(cfg, a, SLinearize(t));
    b := SApply(cfg, mid, SReturn(t));
    OneStep(cfg, mid, SReturn(t), Events(s, Reject(t)));
    assert [SLinearize(t), SReturn(t)][1..] == [SReturn(t)];
    OneCaller(cfg, s, a, z, b, t);
  }

  lemma AppendMatches(cfg: Config, s: State, a: Spec, t: Tid) returns (b: Spec)
    requires Sim(cfg, s, a) && Enabled(cfg, s, Append(t))
    ensures Matches(cfg, s, a, Append(t), b)
  {
    var z := Apply(cfg, s, Append(t));
    assert CallerSim(cfg, |s.mem|, StageOf(s.list, s.worker, t), Get(s.callers, t), SGet(a.callers, t));
    b := a;
    OneCaller(cfg, s, a, z, b, t);
  }

  lemma DequeueMatches(cfg: Config, s: State, a: Spec) returns (b: Spec)
    requires Sim(cfg, s, a) && Enabled(cfg, s, Dequeue)
    ensures Matches(cfg, s, a, Dequeue, b)
  {
    var z := Apply(cfg, s, Dequeue);
    var t := s.list[0];
    assert s.list == [t] + z.list;
    assert CallerSim(cfg, |s.mem|, StageOf(s.list, s.worker, t), Get(s.callers, t), SGet(a.callers, t));
    b := a;
    OneCaller(cfg, s, a, z, b, t);
  }

  lemma LookUpMatches(cfg: Config, s: State, a: Spec) returns (b: Spec)
    requires Sim(cfg, s, a) && Enabled(cfg, s, LookUp)
    ensures Matches(cfg, s, a, LookUp, b)
  {
    var z := Apply(cfg, s, LookUp);
    var t := s.worker.t;
    assert CallerSim(cfg, |s.mem|, StageOf(s.list, s.worker, t), Get(s.callers, t), SGet(a.callers, t));
    if Get(s.callers, t).op.addr in cfg.table {
      b := a;
    } else {
      b := SApply(cfg, a, SLinearize(t));
      OneStep(cfg, a, SLinearize(t), []);
    }
    OneCaller(cfg, s, a, z, b, t);
  }

  lemma SpinMatches(cfg: Config, s: State, a: Spec, e: Step) returns (b: Spec)
    requires Sim(cfg, s, a) && Enabled(cfg, s, e) && (e.SpinExit? || e.SetFlag?)
    ensures Matches(cfg, s, a, e, b)
  {
    var z := Apply(cfg, s, e);
    var t := s.worker.t;
    assert CallerSim(cfg, |s.mem|, StageOf(s.list, s.worker, t), Get(s.callers, t), SGet(a.callers, t));
    b := a;
    OneCaller(cfg, s, a, z, b, t);
  }

  lemma PostMatches(cfg: Config, s: State, a: Spec) returns (b: Spec)
    requires Sim(cfg, s, a) && Enabled(cfg, s, PostTask)
    ensures Matches(cfg, s, a, PostTask, b)
  {
    var z := Apply(cfg, s, PostTask);
    var t := s.worker.t;
    assert CallerSim(cfg, |s.mem|, StageOf(s.list, s.worker, t), Get(s.callers, t), SGet(a.callers, t));
    b := SApply(cfg, a, SLinearize(t));
    OneStep(cfg, a, SLinearize(t), []);
    OneCaller(cfg, s, a, z, b, t);
  }

  lemma WorkerMatches(cfg: Config, s: State, a: Spec, e: Step) returns (b: Spec)
    requires Sim(cfg, s, a) && Enabled(cfg, s, e) && (e.AwaitExit? || e.SetWorkDone?)
    ensures Matches(cfg, s, a, e, b)
  {
    var z := Apply(cfg, s, e);
    var t := s.worker.t;
    assert CallerSim(cfg, |s.mem|, StageOf(s.list, s.worker, t), Get(s.callers, t), SGet(a.callers, t));
    b := a;
    OneCaller(cfg, s, a, z, b, t);
  }

  lemma TransferMatches(cfg: Config, s: State, a: Spec, k: nat, i: nat) returns (b: Spec)
    requires Sim(cfg, s, a) && Enabled(cfg, s, Transfer(k, i))
    ensures Matches(cfg, s, a, Transfer(k, i), b)
  {
    var z := Apply(cfg, s, Transfer(k, i));
    var t := s.worker.t;
    assert CallerSim(cfg, |s.mem|, StageOf(s.list, s.worker, t), Get(s.callers, t), SGet(a.callers, t));
    b := a;
    OneCaller(cfg, s, a, z, b, t);
  }

  lemma CompletionMatches(cfg: Config, s: State, a: Spec, e: Step) returns (b: Spec)
    requires Sim(cfg, s, a) && Enabled(cfg, s, e) && (e.ClearFlag? || e.SetTaskDone?)
    ensures Matches(cfg, s, a, e, b)
  {
    b := a;
  }
}
