/** What callers of the work queue observe, byte by byte. */
module Effects {
  import opened Ring
  import opened WorkQueue
  import opened Linearizability

  /** The answer `(code, buf)` to `op` when the remote memory goes from `before` to `after`:
      - a node that is not connected: -1, and nothing changes;
      - an address that is not known: 0, and nothing changes;
      - a read: each byte of the buffer is the byte of the memory at the region's base plus offset plus index;
      - a write: those bytes of the memory are the buffer's, and all others are as before. */
  ghost predicate Answers(cfg: Config, before: seq<byte>, after: seq<byte>, op: Op, code: int, buf: seq<byte>) {
    if op.addr !in cfg.connected then code == -1 && after == before && buf == op.buf
    else if op.addr !in cfg.table then code == 0 && after == before && buf == op.buf
    else
      var start := cfg.table[op.addr].base + op.offset;
      && code == 0 && |after| == |before| && |buf| == |op.buf| && 0 <= start && start + |buf| <= |before|
      && if op.write then
           && buf == op.buf
           && (forall i :: 0 <= i < |buf| ==> after[start + i] == buf[i])
           && (forall x :: 0 <= x < |before| && !(start <= x < start + |buf|) ==> after[x] == before[x])
         else
           && after == before
           && (forall i :: 0 <= i < |buf| ==> buf[i] == before[start + i])
  }

  lemma AtomicAnswers(cfg: Config, mem: seq<byte>, op: Op)
    requires Fits(cfg, |mem|, op)
    ensures var r := Atomic(cfg, mem, op); Answers(cfg, mem, r.mem, op, r.code, r.buf)
  {
    if op.addr in cfg.connected && op.addr in cfg.table && op.write {
      var p, n := Pos(cfg, op), |op.buf|;
      var after := mem[..p] + op.buf + mem[p + n..];
      forall i | 0 <= i < n ensures after[p + i] == op.buf[i] {
      }
      forall x | 0 <= x < |mem| && !(p <= x < p + n) ensures after[x] == mem[x] {
      }
    }
  }

  // ---- a history with its effects filled in ----

  /** An event of the history, or the instant at which a call takes effect on the memory. */
  datatype Label =
    | Seen(e: Event)
    | Effect(t: Tid, op: Op, code: int, buf: seq<byte>, before: seq<byte>, after: seq<byte>)

  /** Where a call stands: made, or in effect with its answer. */
  datatype Call = Made(op: Op) | Answered(code: int, buf: seq<byte>)

  /** Each thread's labels are call, effect, return, over and over; an effect answers the call's own operation on the
      memory left by the effect before it; a return hands out that answer. */
  ghost predicate Explains(cfg: Config, mem: seq<byte>, open: map<Tid, Call>, tr: seq<Label>, end: seq<byte>)
    decreases |tr|
  {
    if tr == [] then mem == end else
    match tr[0]
    case Seen(Invoke(t, op)) => t !in open && Explains(cfg, mem, open[t := Made(op)], tr[1..], end)
    case Seen(Response(t, code, buf)) =>
      t in open && open[t] == Answered(code, buf) && Explains(cfg, mem, open - {t}, tr[1..], end)
    case Effect(t, op, code, buf, before, after) =>
      && t in open && open[t] == Made(op) && before == mem && Answers(cfg, before, after, op, code, buf)
      && Explains(cfg, after, open[t := Answered(code, buf)], tr[1..], end)
  }

  function SeenIn(tr: seq<Label>): seq<Event> {
    if tr == [] then [] else (if tr[0].Seen? then [tr[0].e] else []) + SeenIn(tr[1..])
  }

  /** The calls a specification state has open. */
  ghost predicate Opens(callers: map<Tid, SpecCaller>, open: map<Tid, Call>) {
    forall t :: match SGet(callers, t)
      case SIdle => t !in open
      case SPending(op) => t in open && open[t] == Made(op)
      case SApplied(_, code, buf) => t in open && open[t] == Answered(code, buf)
  }

  ghost function LabelOf(cfg: Config, a: Spec, x: SpecStep): Label
    requires SEnabled(cfg, a, x)
  {
    match x
    case SInvoke(t, op) => Seen(Invoke(t, op))
    case SLinearize(t) =>
      var op := SGet(a.callers, t).op;
      var r := Atomic(cfg, a.mem, op);
      Effect(t, op, r.code, r.buf, a.mem, r.mem)
    case SReturn(t) => var c := SGet(a.callers, t); Seen(Response(t, c.code, c.buf))
  }

  lemma StepExplained(cfg: Config, a: Spec, x: SpecStep, open: map<Tid, Call>, tr: seq<Label>, end: seq<byte>)
    returns (open': map<Tid, Call>)
    requires SEnabled(cfg, a, x) && Opens(a.callers, open)
    ensures Opens(SApply(cfg, a, x).callers, open')
    ensures Explains(cfg, SApply(cfg, a, x).mem, open', tr, end)
        ==> Explains(cfg, a.mem, open, [LabelOf(cfg, a, x)] + tr, end)
    ensures SeenIn([LabelOf(cfg, a, x)] + tr) == SEvents(a, x) + SeenIn(tr)
  {
    hide Answers, Atomic, Fits;
    var l := LabelOf(cfg, a, x);
    assert ([l] + tr)[1..] == tr;
    match x
    case SInvoke(t, op) => open' := open[t := Made(op)];
    case SLinearize(t) =>
      var op := SGet(a.callers, t).op;
      AtomicAnswers(cfg, a.mem, op);
      var r := Atomic(cfg, a.mem, op);
      open' := open[t := Answered(r.code, r.buf)];
    case SReturn(t) => open' := open - {t};
  }

  lemma {:induction false} SpecExplained(cfg: Config, a: Spec, xs: seq<SpecStep>, b: Spec, h: seq<Event>,
                                         open: map<Tid, Call>)
    returns (tr: seq<Label>)
    requires SRun(cfg, a, xs, b, h) && Opens(a.callers, open)
    ensures Explains(cfg, a.mem, open, tr, b.mem) && SeenIn(tr) == h
    decreases xs
  {
    hide SEnabled, SApply, SEvents, Opens;
    if xs == [] {
      tr := [];
    } else {
      var now := SEvents(a, xs[0]);
      var n := SApply(cfg, a, xs[0]);
      var open1 := StepExplained(cfg, a, xs[0], open, [], n.mem);
      var rest := SpecExplained(cfg, n, xs[1..], b, h[|now|..], open1);
      var open2 := StepExplained(cfg, a, xs[0], open, rest, b.mem);
      SameOpen(n.callers, open1, open2);
      tr := [LabelOf(cfg, a, xs[0])] + rest;
    }
  }

  lemma SameOpen(callers: map<Tid, SpecCaller>, x: map<Tid, Call>, y: map<Tid, Call>)
    requires Opens(callers, x) && Opens(callers, y)
    ensures x == y
  {
    forall t ensures t in x <==> t in y {
      assert SGet(callers, t) == SGet(callers, t);
    }
  }

  /** Every history of calls and returns, from any number of threads under any schedule, has the effects of its calls
      between each call and its return, on one memory, byte for byte; between items that memory is the remote one. */
  lemma EveryAnswerIsRight(cfg: Config, mem: seq<byte>, es: seq<Step>, z: State, h: seq<Event>)
    returns (tr: seq<Label>, end: seq<byte>)
    requires Run(cfg, Init(mem), es, z, h)
    ensures Explains(cfg, mem, map[], tr, end) && SeenIn(tr) == h
    ensures z.worker.Fetch? ==> z.mem == end
  {
    Linearizable(cfg, mem, es, z, h);
    var b :| SRun(cfg, Spec(mem, map[]), AbstractRun(cfg, Init(mem), es), b, h) && Sim(cfg, z, b);
    tr := SpecExplained(cfg, Spec(mem, map[]), AbstractRun(cfg, Init(mem), es), b, h, map[]);
    end := b.mem;
  }
}
