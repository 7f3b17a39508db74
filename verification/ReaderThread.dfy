/** One pass of reader_thread over the routines of the tail, as a sequence of the protocol's reader steps. */
module ReaderThread {
  import opened Ring
  import opened Layout
  import opened Replication
  import opened Simulation
  import opened Theorems
  import opened Nodes
  import HeadSteps
  import TailSteps
  import NodeLaws
  import Progress

  /** A state as the reader sees it; the head's part plays no role in its steps. */
  function At(buf: seq<byte>, t: Tail, pc: ReaderPc): State {
    State(buf, 0, 0, WIdle, [], NIdle, t, pc)
  }

  /** `n` reader steps lead from `s` to `z`, and the application reads the values `out` on the way. */
  ghost predicate Iter(c: Config, s: State, z: State, out: seq<Str>, n: nat)
    requires c.size > 0
    decreases n
  {
    if n == 0 then s == z && out == [] else
    && !s.reader.Halted? && Enabled(c, s, Progress.ReaderStep(s))
    && var now := OutOf(EventOf(c, s, Progress.ReaderStep(s)));
       now <= out && Iter(c, Apply(c, s, Progress.ReaderStep(s)), z, out[|now|..], n - 1)
  }

  function OutOf(e: Event): seq<Str> {
    if e.Executed? then [e.value] else []
  }

  ghost predicate Leads(c: Config, s: State, z: State, out: seq<Str>)
    requires c.size > 0
  {
    exists n: nat :: Iter(c, s, z, out, n)
  }

  lemma LeadsSelf(c: Config, s: State)
    requires c.size > 0
    ensures Leads(c, s, s, [])
  {
    assert Iter(c, s, s, [], 0);
  }

  lemma LeadsFirst(c: Config, s: State, z: State, out: seq<Str>)
    requires c.size > 0 && !s.reader.Halted? && Enabled(c, s, Progress.ReaderStep(s))
    requires Leads(c, Apply(c, s, Progress.ReaderStep(s)), z, out)
    ensures Leads(c, s, z, OutOf(EventOf(c, s, Progress.ReaderStep(s))) + out)
  {
    hide Apply, Enabled, EventOf;
    var n: nat :| Iter(c, Apply(c, s, Progress.ReaderStep(s)), z, out, n);
    var now := OutOf(EventOf(c, s, Progress.ReaderStep(s)));
    assert (now + out)[|now|..] == out;
    assert Iter(c, s, z, now + out, n + 1);
  }

  lemma {:induction false} IterThen(c: Config, s: State, m: State, z: State, out: seq<Str>, more: seq<Str>, k: nat,
                                    n: nat)
    requires c.size > 0 && Iter(c, s, m, out, k) && Iter(c, m, z, more, n)
    ensures Iter(c, s, z, out + more, k + n)
    decreases k
  {
    hide Apply, Enabled, EventOf, OutOf, Progress.ReaderStep;
    if k == 0 {
      assert [] + more == more;
    } else {
      var now := OutOf(EventOf(c, s, Progress.ReaderStep(s)));
      IterThen(c, Apply(c, s, Progress.ReaderStep(s)), m, z, out[|now|..], more, k - 1, n);
      assert (out + more)[|now|..] == out[|now|..] + more;
    }
  }

  lemma LeadsThen(c: Config, s: State, m: State, z: State, out: seq<Str>, more: seq<Str>)
    requires c.size > 0 && Leads(c, s, m, out) && Leads(c, m, z, more)
    ensures Leads(c, s, z, out + more)
  {
    hide Iter;
    var k: nat, n: nat :| Iter(c, s, m, out, k) && Iter(c, m, z, more, n);
    IterThen(c, s, m, z, out, more, k, n);
  }

  /** One silent step. */
  lemma LeadsOn(c: Config, s: State, m: State, z: State, out: seq<Str>)
    requires c.size > 0 && !s.reader.Halted? && Enabled(c, s, Progress.ReaderStep(s))
    requires m == Apply(c, s, Progress.ReaderStep(s)) && !EventOf(c, s, Progress.ReaderStep(s)).Executed?
    requires Leads(c, m, z, out)
    ensures Leads(c, s, z, out)
  {
    hide Apply, Enabled, EventOf, Leads;
    LeadsFirst(c, s, z, out);
    assert [] + out == out;
  }

  lemma {:induction false} KeyLoopLeads(c: Config, buf: seq<byte>, t: Tail, pos: nat, num: nat)
    requires c.size > 0
    ensures Leads(c, At(buf, t, KeyTop(pos, num)), At(buf, KeyLoop(c, buf, t, pos, num).0, KeyLoop(c, buf, t, pos,
        num).1), [])
    decreases c.keyLimit - num
  {
    hide Parse, LogKey, CStr, MarkDirty, Wrap, Next, DataSize, Leads, HasRoom, Put;
    var (t1, pc) := KeyTopStep(c, t, pos, num);
    var (tz, pz) := KeyLoop(c, buf, t, pos, num);
    var z := At(buf, tz, pz);
    var s0, s1 := At(buf, t, KeyTop(pos, num)), At(buf, t1, pc);
    if !pc.KeyParse? {
      LeadsSelf(c, z);
    } else {
      var log := Parse(c, buf, t, pos);
      var next := Wrap(c.size, pos + Next(c, log));
      var (t2, pc2) := KeyDirtyStep(c, buf, t, next, num, log);
      var s2, s3 := At(buf, t, KeyDirty(next, num, log)), At(buf, t2, pc2);
      if pc2.Halted? {
        LeadsSelf(c, z);
      } else {
        KeyLoopLeads(c, buf, t2, next, num + 1);
      }
      LeadsOn(c, s2, s3, z, []);
      LeadsOn(c, s1, s2, z, []);
    }
    LeadsOn(c, s0, s1, z, []);
  }

  lemma {:induction false} ValueLoopLeads(c: Config, buf: seq<byte>, t: Tail, num: nat)
    requires c.size > 0
    ensures Leads(c, At(buf, t, ValueTop(num)), At(buf, ValueLoop(c, buf, t, num).0, ValueLoop(c, buf, t, num).1), [])
    decreases |t.pending|
  {
    hide FieldRef, TagSet, Wrap, Leads, HasRoom;
    var pc := ValueTopStep(c, buf, t, num);
    var (tz, pz) := ValueLoop(c, buf, t, num);
    var z := At(buf, tz, pz);
    var s0, s1 := At(buf, t, ValueTop(num)), At(buf, t, pc);
    if !pc.ValueRead? {
      LeadsSelf(c, z);
    } else {
      var (t1, pc1) := ValueReadStep(c, buf, t, num);
      if pc1.Halted? {
        LeadsSelf(c, z);
      } else {
        ValueLoopLeads(c, buf, t1, num + 1);
      }
      LeadsOn(c, s1, At(buf, t1, pc1), z, []);
    }
    LeadsOn(c, s0, s1, z, []);
  }

  /** top_log, send_log and clean_log in this order are the steps from one execution to the next. */
  lemma ExecuteLeads(c: Config, buf: seq<byte>, t: Tail, todo: nat)
    requires c.size > 0 && todo > 0
    ensures
      var out := if t.executing == [] then [] else [CStr(LogValue(c, buf, t.executing[0]))];
      var sent := t.(executing := if t.executing == [] then [] else t.executing[1..]);
      var (t2, pc) := CleanStep(c, buf, sent, todo);
      Leads(c, At(buf, t, Exec(todo)),
            if pc.Free? then At(buf, FreeStep(c, t2, pc.log), Exec(todo - 1)) else At(buf, t2, pc), out)
  {
    hide LogKey, LogValue, CStr, UnmarkDirty, Wrap, Next, Leads;
    var out := if t.executing == [] then [] else [CStr(LogValue(c, buf, t.executing[0]))];
    var sent := t.(executing := if t.executing == [] then [] else t.executing[1..]);
    var (t2, pc) := CleanStep(c, buf, sent, todo);
    var s0, s1, s2 := At(buf, t, Exec(todo)), At(buf, sent, Clean(todo)), At(buf, t2, pc);
    var z := if pc.Free? then At(buf, FreeStep(c, t2, pc.log), Exec(todo - 1)) else s2;
    LeadsSelf(c, z);
    if pc.Free? {
      LeadsOn(c, s2, z, z, []);
    }
    LeadsOn(c, s1, s2, z, []);
    hide CleanStep, FreeStep;
    Sends(c, buf, t, todo);
    LeadsFirst(c, s0, z, []);
    assert out + [] == out;
  }

  lemma Sends(c: Config, buf: seq<byte>, t: Tail, todo: nat)
    requires c.size > 0 && todo > 0
    ensures var s := At(buf, t, Exec(todo));
      && Progress.ReaderStep(s) == RExec && Enabled(c, s, RExec)
      && Apply(c, s, RExec) == At(buf, t.(executing := if t.executing == [] then [] else t.executing[1..]), Clean(todo))
      && OutOf(EventOf(c, s, RExec)) == if t.executing == [] then [] else [CStr(LogValue(c, buf, t.executing[0]))]
  {
    hide LogKey, LogValue, CStr;
  }

  lemma RoundOver(c: Config, buf: seq<byte>, t: Tail)
    requires c.size > 0
    ensures Leads(c, At(buf, t, Exec(0)), At(buf, t, KeyTop(t.rdKey, 0)), [])
  {
    hide Leads;
    LeadsSelf(c, At(buf, t, KeyTop(t.rdKey, 0)));
    LeadsOn(c, At(buf, t, Exec(0)), At(buf, t, KeyTop(t.rdKey, 0)), At(buf, t, KeyTop(t.rdKey, 0)), []);
  }

  /** CleanStep does the same to the tail whatever is left to do. */
  lemma CleanAny(c: Config, buf: seq<byte>, t: Tail, todo: nat)
    requires c.size > 0 && todo > 0
    ensures
      var (t1, p1) := CleanStep(c, buf, t, 1);
      var (t2, p2) := CleanStep(c, buf, t, todo);
      && t1 == t2 && (p1.Halted? <==> p2.Halted?) && (p1.Free? <==> p2.Free?)
      && (p1.Free? ==> p2 == Free(todo, p1.log)) && (!p1.Free? && !p1.Halted? ==> p2 == Exec(todo - 1))
  {
    hide LogKey, CStr, UnmarkDirty;
  }

  /** The inner loop of a pass: `todo` times top_log, send_log and clean_log. */
  function Execute(c: Config, buf: seq<byte>, t: Tail, todo: nat): (Tail, ReaderPc, seq<Str>)
    requires c.size > 0
    decreases todo
  {
    if todo == 0 then (t, KeyTop(t.rdKey, 0), []) else
    var out := if t.executing == [] then [] else [CStr(LogValue(c, buf, t.executing[0]))];
    var sent := t.(executing := if t.executing == [] then [] else t.executing[1..]);
    var (t2, pc) := CleanStep(c, buf, sent, todo);
    if pc.Halted? then (t2, pc, out) else
    var (tz, pz, rest) := Execute(c, buf, if pc.Free? then FreeStep(c, t2, pc.log) else t2, todo - 1);
    (tz, pz, out + rest)
  }

  /** A whole pass: all keys, then a batch of values, then, if the batch is full, its execution. */
  function Pass(c: Config, buf: seq<byte>, t: Tail): (Tail, ReaderPc, seq<Str>)
    requires c.size > 0
  {
    var (t1, p1) := KeyLoop(c, buf, t, t.rdKey, 0);
    if p1.Halted? then (t1, p1, []) else
    var (t2, p2) := ValueLoop(c, buf, t1, 0);
    if p2.Exec? then Execute(c, buf, t2, p2.todo) else (t2, p2, [])
  }

  lemma {:induction false} ExecuteIsSteps(c: Config, buf: seq<byte>, t: Tail, todo: nat)
    requires c.size > 0
    ensures var (tz, pz, out) := Execute(c, buf, t, todo); Leads(c, At(buf, t, Exec(todo)), At(buf, tz, pz), out)
    decreases todo
  {
    hide Leads, CleanStep, FreeStep, LogValue, CStr;
    if todo == 0 {
      RoundOver(c, buf, t);
    } else {
      var out := if t.executing == [] then [] else [CStr(LogValue(c, buf, t.executing[0]))];
      var sent := t.(executing := if t.executing == [] then [] else t.executing[1..]);
      var (t2, pc) := CleanStep(c, buf, sent, todo);
      ExecuteLeads(c, buf, t, todo);
      CleanAny(c, buf, sent, todo);
      if !pc.Halted? {
        var t3 := if pc.Free? then FreeStep(c, t2, pc.log) else t2;
        ExecuteIsSteps(c, buf, t3, todo - 1);
        var (tz, pz, rest) := Execute(c, buf, t3, todo - 1);
        LeadsThen(c, At(buf, t, Exec(todo)), At(buf, t3, Exec(todo - 1)), At(buf, tz, pz), out, rest);
      }
    }
  }

  lemma KeyLoopEnds(c: Config, buf: seq<byte>, t: Tail, pos: nat, num: nat)
    requires c.size > 0
    ensures KeyLoop(c, buf, t, pos, num).1.Halted? || KeyLoop(c, buf, t, pos, num).1 == ValueTop(0)
    decreases c.keyLimit - num
  {
    hide Parse, LogKey, CStr, MarkDirty, Wrap, Next, DataSize, HasRoom, Put;
    KeyLoopRound(c, buf, t, pos, num);
  }

  /** A pass is a sequence of the protocol's reader steps, which execute the values it hands out. */
  lemma PassIsSteps(c: Config, buf: seq<byte>, t: Tail)
    requires c.size > 0
    ensures var (tz, pz, out) := Pass(c, buf, t); Leads(c, At(buf, t, KeyTop(t.rdKey, 0)), At(buf, tz, pz), out)
  {
    hide Leads, KeyLoop, ValueLoop, Execute;
    KeyLoopLeads(c, buf, t, t.rdKey, 0);
    KeyLoopEnds(c, buf, t, t.rdKey, 0);
    var (t1, p1) := KeyLoop(c, buf, t, t.rdKey, 0);
    if !p1.Halted? {
      ValueLoopLeads(c, buf, t1, 0);
      var (t2, p2) := ValueLoop(c, buf, t1, 0);
      var none: seq<Str> := [];
      var s0 := At(buf, t, KeyTop(t.rdKey, 0));
      LeadsThen(c, s0, At(buf, t1, p1), At(buf, t2, p2), none, none);
      assert none + none == none;
      if p2.Exec? {
        ExecuteIsSteps(c, buf, t2, p2.todo);
        var (tz, pz, out) := Execute(c, buf, t2, p2.todo);
        LeadsThen(c, s0, At(buf, t2, p2), At(buf, tz, pz), none, out);
        assert none + out == out;
      }
    }
  }

  /** Where a pass ends: at exit(0), waiting for a tag, or at the top of the next pass. */
  function EndOf(t: Tail, halted: bool, waiting: bool, num: nat): ReaderPc {
    if halted then Halted else if waiting then ValueTop(num) else KeyTop(t.rdKey, 0)
  }

  /** One pass of reader_thread's loop. */
  method ReaderRound(node: TailNode) returns (halted: bool, waiting: bool, num: nat, out: seq<Str>)
    requires node.Valid()
    modifies node
    ensures node.c.size > 0 && node.buff[..] == old(node.buff[..])
    ensures (node.View(), EndOf(node.View(), halted, waiting, num), out)
         == Pass(node.c, old(node.buff[..]), old(node.View()))
  {
    hide KeyLoop, ValueLoop, CleanStep, FreeStep, LogValue, CStr, Execute;
    var c := node.c;
    waiting, out, num := false, [], 0;
    ghost var buf := node.buff[..];
    assert c.(keyLimit := c.keyLimit) == c && c.(valueLimit := c.valueLimit) == c;
    var _, stop := node.ReadLogKey(c.keyLimit);
    halted := stop;
    if halted { return; }
    num, halted, waiting := node.ReadLogValue(c.valueLimit);
    if halted || waiting || num < c.valueLimit { return; }
    halted, out := ExecuteBatch(node, num);
  }

  /** One turn of the while loop: the value handed out, and what is left to execute. */
  method ExecuteOne(node: TailNode, ghost todo: nat) returns (halted: bool, now: seq<Str>)
    requires node.Valid() && todo > 0
    modifies node
    ensures node.Valid() && node.buff[..] == old(node.buff[..])
    ensures
      var all := Execute(node.c, old(node.buff[..]), old(node.View()), todo);
      if halted then all == (node.View(), Halted, now) else
      var rest := Execute(node.c, node.buff[..], node.View(), todo - 1);
      all == (rest.0, rest.1, now + rest.2)
  {
    hide CleanStep, FreeStep, LogValue, CStr, Execute;
    ghost var c, buf := node.c, node.buff[..];
    ExecuteRound(c, buf, node.View(), todo);
    var found, value := node.TopLog();
    now := if found then [value] else [];
    node.SendLog();
    CleanAny(c, buf, node.View(), todo);
    halted := node.CleanLog();
  }

  /** The while loop of a pass. */
  method ExecuteBatch(node: TailNode, num: nat) returns (halted: bool, out: seq<Str>)
    requires node.Valid()
    modifies node
    ensures node.Valid() && node.buff[..] == old(node.buff[..])
    ensures (node.View(), if halted then Halted else KeyTop(node.rdKey, 0), out)
         == Execute(node.c, old(node.buff[..]), old(node.View()), num)
  {
    hide CleanStep, FreeStep, LogValue, CStr, Execute;
    var c := node.c;
    halted, out := false, [];
    ghost var buf := node.buff[..];
    ghost var goal := Execute(c, buf, node.View(), num);
    assert [] + goal.2 == goal.2;
    var todo := num;
    while todo > 0
      invariant node.Valid() && node.buff[..] == buf && !halted
      invariant var rest := Execute(c, buf, node.View(), todo); goal == (rest.0, rest.1, out + rest.2)
    {
      ghost var before := out;
      var now: seq<Str>;
      halted, now := ExecuteOne(node, todo);
      out := out + now;
      if halted { return; }
      todo := todo - 1;
      ghost var rest := Execute(c, buf, node.View(), todo).2;
      assert before + (now + rest) == out + rest;
    }
    ExecuteRound(c, buf, node.View(), 0);
    assert out + [] == out;
  }

  /** One round of the inner loop, and its end. */
  lemma ExecuteRound(c: Config, buf: seq<byte>, t: Tail, todo: nat)
    requires c.size > 0
    ensures todo == 0 ==> Execute(c, buf, t, todo) == (t, KeyTop(t.rdKey, 0), [])
    ensures todo > 0 ==>
      var out := if t.executing == [] then [] else [CStr(LogValue(c, buf, t.executing[0]))];
      var sent := t.(executing := if t.executing == [] then [] else t.executing[1..]);
      var (t2, pc) := CleanStep(c, buf, sent, todo);
      if pc.Halted? then Execute(c, buf, t, todo) == (t2, Halted, out) else
      var rest := Execute(c, buf, if pc.Free? then FreeStep(c, t2, pc.log) else t2, todo - 1);
      Execute(c, buf, t, todo) == (rest.0, rest.1, out + rest.2)
  {
    hide CleanStep, FreeStep, LogValue, CStr;
  }

  // ---- what a pass must do ----

  /** The values of `k` records from `lo` on. */
  ghost function Values(recs: seq<Rec>, lo: nat, k: nat): seq<Str>
    requires lo + k <= |recs|
  {
    seq(k, i requires 0 <= i < k => Value(recs[lo + i]))
  }

  lemma ValuesFirst(recs: seq<Rec>, lo: nat, k: nat)
    requires 0 < k && lo + k <= |recs|
    ensures Values(recs, lo, k) == [Value(recs[lo])] + Values(recs, lo + 1, k - 1)
  {
  }

  /** Executing a batch hands out the values of the oldest records, in order, and frees exactly them. */
  ghost predicate BatchDone(c: Config, s: State, h: Hist, todo: nat)
    requires c.size > 0
  {
    var (t, pc, out) := Execute(c, s.buf, s.tail, todo);
    && h.freed + todo <= |h.recs| && out == Values(h.recs, h.freed, todo)
    && pc == KeyTop(t.rdKey, 0) && t.rdKey == s.tail.rdKey
    && |t.executing| == |s.tail.executing| - todo && t.pending == s.tail.pending
    && Sim(c, s.(tail := t, reader := pc), h.(freed := h.freed + todo))
  }

  lemma {:induction false} ExecuteDelivers(c: Config, s: State, h: Hist)
    requires Sim(c, s, h) && s.reader.Exec?
    ensures c.size > 0 && BatchDone(c, s, h, s.reader.todo)
    decreases s.reader.todo
  {
    hide Sim, Execute, CleanStep, FreeStep, LogKey, LogValue, CStr, Wrap, Value;
    HeadSteps.StagesOrdered(c, s, h);
    var todo := s.reader.todo;
    ExecuteRound(c, s.buf, s.tail, todo);
    if todo == 0 {
      TailSteps.StepRExec(c, s, h);
    } else {
      var s3 := OneDone(c, s, h);
      var h3 := h.(freed := h.freed + 1);
      ExecuteDelivers(c, s3, h3);
      ValuesFirst(h.recs, h.freed, todo);
    }
  }

  /** One execution: the value handed out, and the state in which the next one finds the tail. */
  lemma OneDone(c: Config, s: State, h: Hist) returns (z: State)
    requires Sim(c, s, h) && s.reader.Exec? && s.reader.todo > 0
    ensures c.size > 0 && h.freed < |h.recs| && s.tail.executing != []
    ensures CStr(LogValue(c, s.buf, s.tail.executing[0])) == Value(h.recs[h.freed])
    ensures
      var (t2, pc) := CleanStep(c, s.buf, s.tail.(executing := s.tail.executing[1..]), s.reader.todo);
      && pc.Free? && z == s.(tail := FreeStep(c, t2, pc.log), reader := Exec(s.reader.todo - 1))
    ensures Sim(c, z, h.(freed := h.freed + 1))
    ensures z.tail.rdKey == s.tail.rdKey && z.tail.pending == s.tail.pending
    ensures z.tail.executing == s.tail.executing[1..]
  {
    hide Sim, LogKey, LogValue, CStr, Wrap, Value, UnmarkDirty, Next;
    HeadSteps.StagesOrdered(c, s, h);
    FirstExecuting(c, s, h);
    TailSteps.StepRExec(c, s, h);
    var s1 := Apply(c, s, RExec);
    TailSteps.StepRClean(c, s1, h);
    var s2 := Apply(c, s1, RClean);
    TailSteps.StepRFree(c, s2, h);
    z := Apply(c, s2, RFree);
  }

  /** How far read_log_value comes, and where it leaves the reader. */
  lemma {:induction false} ValueLoopShape(c: Config, buf: seq<byte>, t: Tail, num: nat)
    requires c.size > 0 && num <= c.valueLimit && !ValueLoop(c, buf, t, num).1.Halted?
    ensures
      var (tz, pz) := ValueLoop(c, buf, t, num);
      var k := |tz.executing| - |t.executing|;
      && tz == t.(executing := tz.executing, pending := tz.pending)
      && 0 <= k && |tz.pending| == |t.pending| - k && num + k <= c.valueLimit
      && pz == (if num + k == c.valueLimit then Exec(num + k)
                else if tz.pending == [] then KeyTop(t.rdKey, 0) else ValueTop(num + k))
    decreases |t.pending|
  {
    hide TagSet, FieldRef, Wrap, HasRoom, ValueLoop;
    ValueLoopRound(c, buf, t, num);
    if t.pending != [] && num < c.valueLimit && TagSet(c, buf, t.pending[0]) && HasRoom(c, t.executing) {
      var log := t.pending[0];
      var at := Wrap(c.size, log.pos + c.header + log.klen);
      var t1 := t.(executing := t.executing + [log.(value := FieldRef(c, buf, t, at, log.vlen))],
                   pending := t.pending[1..]);
      ValueLoopShape(c, buf, t1, num + 1);
    }
  }

  /** Records parsed once the key loop is through. */
  function ParsedThen(c: Config, s: State, h: Hist): int {
    NodeLaws.Min(Published(s, h), Parsed(s, h) + c.keyLimit)
  }

  /** Values that the value loop finds complete, up to its limit. */
  function Batch(c: Config, s: State, h: Hist): int {
    NodeLaws.Min(c.valueLimit, NodeLaws.Min(ParsedThen(c, s, h), Done(s, h)) - Valued(s, h))
  }

  /** Records a pass executes: a full batch or none. */
  function Executes(c: Config, s: State, h: Hist): int {
    if Batch(c, s, h) == c.valueLimit then c.valueLimit else 0
  }

  /** The outcome of a pass. */
  ghost predicate PassDone(c: Config, s: State, h: Hist)
    requires c.size > 0
  {
    var (t, pc, out) := Pass(c, s.buf, s.tail);
    var p, n, k := ParsedThen(c, s, h), Batch(c, s, h), Executes(c, s, h);
    && 0 <= n && 0 <= k && 0 <= p <= |h.recs| && h.freed + k <= |h.recs|
    && out == Values(h.recs, h.freed, k)
    && pc == (if n < c.valueLimit && n < p - Valued(s, h) then ValueTop(n) else KeyTop(t.rdKey, 0))
    && t.rdKey == Slot(c.size, Start(h.recs, p)) && t.rd == Slot(c.size, Start(h.recs, h.freed + k))
    && Sim(c, s.(tail := t, reader := pc), h.(freed := h.freed + k))
  }

  lemma {:induction false} KeyLoopShape(c: Config, buf: seq<byte>, t: Tail, pos: nat, num: nat)
    requires c.size > 0
    ensures KeyLoop(c, buf, t, pos, num).0.executing == t.executing
    decreases c.keyLimit - num
  {
    hide Parse, LogKey, CStr, MarkDirty, Wrap, Next, DataSize, HasRoom, Put, KeyLoop;
    KeyLoopRound(c, buf, t, pos, num);
    if num < c.keyLimit && DataSize(c.size, t.wr, pos) >= META && HasRoom(c, t.pending) {
      var log := Parse(c, buf, t, pos);
      var t1 := t.(dirty := MarkDirty(t.dirty, CStr(LogKey(c, buf, log))), dirtyQ := Put(c, t.dirtyQ, log));
      KeyLoopShape(c, buf, t1.(pending := t.pending + [log]), Wrap(c.size, pos + Next(c, log)), num + 1);
    }
  }

  lemma KeyPointerAt(c: Config, s: State, h: Hist)
    requires Sim(c, s, h) && s.reader.ValueTop?
    ensures 0 <= Parsed(s, h) <= |h.recs| && c.size > 0
    ensures s.tail.rdKey == Slot(c.size, Start(h.recs, Parsed(s, h)))
  {
    hide ValuesFrom, LogsFrom, DirtyOk, SendingOk, NicOk, WriterOk, QueuesFit, BufferOk, Slot, RecsOk, QueuesOk,
         PointersOk, Start;
  }

  /** The key loop of a pass, out of its law. */
  lemma KeysDone(c: Config, s: State, h: Hist) returns (z: State)
    requires Sim(c, s, h) && s.reader == KeyTop(s.tail.rdKey, 0)
    ensures c.size > 0
    ensures KeyLoop(c, s.buf, s.tail, s.tail.rdKey, 0) == (z.tail, ValueTop(0))
    ensures z == s.(tail := z.tail, reader := ValueTop(0)) && z.tail.executing == s.tail.executing
    ensures Sim(c, z, h) && Parsed(z, h) == ParsedThen(c, s, h)
    ensures Done(z, h) == Done(s, h) && Valued(z, h) == Valued(s, h)
  {
    hide Sim, KeyLoop;
    NodeLaws.KeyLoopParsesAll(c, s, h);
    KeyLoopShape(c, s.buf, s.tail, s.tail.rdKey, 0);
    z := s.(tail := KeyLoop(c, s.buf, s.tail, s.tail.rdKey, 0).0, reader := ValueTop(0));
  }

  /** The value loop of a pass: as many values as are complete, up to the limit. */
  lemma ValuesDone(c: Config, s: State, h: Hist) returns (z: State)
    requires Sim(c, s, h) && s.reader == ValueTop(0)
    ensures c.size > 0
    ensures ValueLoop(c, s.buf, s.tail, 0) == (z.tail, z.reader) && z == s.(tail := z.tail, reader := z.reader)
    ensures Sim(c, z, h) && z.tail.rdKey == s.tail.rdKey && Parsed(z, h) == Parsed(s, h)
    ensures
      var n := NodeLaws.Min(c.valueLimit, NodeLaws.Min(Parsed(s, h), Done(s, h)) - Valued(s, h));
      && 0 <= n && Valued(z, h) == Valued(s, h) + n
      && z.reader == (if n == c.valueLimit then Exec(n)
                      else if n < Parsed(s, h) - Valued(s, h) then ValueTop(n) else KeyTop(z.tail.rdKey, 0))
  {
    hide Sim, ValueLoop, TagSet;
    NodeLaws.ValueLoopMovesComplete(c, s, h);
    ValueLoopShape(c, s.buf, s.tail, 0);
    var (t, pc) := ValueLoop(c, s.buf, s.tail, 0);
    z := s.(tail := t, reader := pc);
    HeadSteps.StagesOrdered(c, s, h);
    HeadSteps.StagesOrdered(c, z, h);
    if pc.ValueTop? && Valued(z, h) < Done(z, h) {
      Progress.DoneMeansTag(c, z, h);
    }
  }

  /** A pass parses every published record up to the key limit, and if a full batch of values is complete it hands out
      the values of that many oldest records, in order, and moves the read pointer behind exactly them. */
  lemma PassDelivers(c: Config, s: State, h: Hist)
    requires Sim(c, s, h) && s.reader == KeyTop(s.tail.rdKey, 0)
    ensures c.size > 0 && PassDone(c, s, h)
  {
    hide Sim, KeyLoop, ValueLoop, Execute, Slot, Start, Value, Values;
    HeadSteps.StagesOrdered(c, s, h);
    var s1 := KeysDone(c, s, h);
    var s2 := ValuesDone(c, s1, h);
    KeyPointerAt(c, s1, h);
    if s2.reader.Exec? {
      ExecuteDelivers(c, s2, h);
      var (t, pc, out) := Execute(c, s.buf, s2.tail, s2.reader.todo);
      HeadSteps.PointersAre(c, s.(tail := t, reader := pc), h.(freed := h.freed + s2.reader.todo));
    } else {
      NoValues(h.recs, h.freed);
      HeadSteps.PointersAre(c, s2, h);
    }
  }

  lemma NoValues(recs: seq<Rec>, lo: nat)
    requires lo <= |recs|
    ensures Values(recs, lo, 0) == []
  {
  }
}
