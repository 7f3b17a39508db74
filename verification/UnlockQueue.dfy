/** The lock-free circular queue: the data structure, and one producer and one consumer working on it at once. */
module UnlockQueue {
  import opened Bits

  /** Entries are pointers. */
  type Entry = nat

  /** Index `k` places after `i` in a ring of `len` slots. */
  function At(len: nat, i: nat, k: nat): nat
    requires i < len && k <= len
  {
    if i + k < len then i + k else i + k - len
  }

  /** Number of entries between the read and the write index. */
  function Dist(len: nat, rid: nat, wid: nat): nat
    requires rid < len && wid < len
  {
    if wid >= rid then wid - rid else wid + len - rid
  }

  /** `(i + 1) % len`. */
  function Succ(len: nat, i: nat): (r: nat)
    requires i < len
    ensures r == At(len, i, 1)
  {
    if i + 1 == len then DivModUnique(i + 1, len, 1, 0); (i + 1) % len
    else DivModUnique(i + 1, len, 0, i + 1); (i + 1) % len
  }

  /** The entries from the read index up to the write index. */
  function Items(slots: seq<Entry>, rid: nat, wid: nat): seq<Entry>
    requires rid < |slots| && wid < |slots|
  {
    var n := Dist(|slots|, rid, wid);
    seq(n, k requires 0 <= k < n => slots[At(|slots|, rid, k)])
  }

  class UnQueue {
    const data: array<Entry>
    const len: nat
    var wid: nat
    var rid: nat

    ghost predicate Valid()
      reads this
    {
      0 < len <= data.Length && wid < len && rid < len
    }

    ghost function Contents(): (s: seq<Entry>)
      reads this, data
      requires Valid()
    {
      Items(data[..len], rid, wid)
    }

    /** initQueue allocates one slot more than it uses. */
    constructor (nums: nat)
      requires nums > 0
      ensures Valid() && len == nums && Contents() == [] && fresh(data)
    {
      len := nums;
      data := new Entry[nums + 1](_ => 0);
      wid, rid := 0, 0;
    }

    method PutQueue(x: Entry) returns (ok: bool)
      requires Valid()
      modifies this`wid, data
      ensures Valid()
      ensures ok <==> |old(Contents())| < len - 1
      ensures Contents() == old(Contents()) + if ok then [x] else []
    {
      ok := Succ(len, wid) != rid;
      if ok {
        data[wid] := x;
        wid := Succ(len, wid);
      }
    }

    method PopQueue()
      requires Valid()
      modifies this`rid
      ensures Valid()
      ensures Contents() == if old(Contents()) == [] then [] else old(Contents())[1..]
    {
      if wid != rid {
        rid := Succ(len, rid);
      }
    }

    method EmptyQueue() returns (r: bool)
      requires Valid()
      ensures r <==> Contents() == []
    {
      r := wid == rid;
    }

    /** On an empty queue this returns whatever the slot last held. */
    method TopQueue() returns (x: Entry)
      requires Valid()
      ensures Contents() != [] ==> x == Contents()[0]
    {
      x := data[rid];
    }
  }

  // ---- two threads ----

  /** A slot is torn while an entry is being copied into it. */
  datatype Slot = Torn | Full(entry: Entry)

  datatype Producer = PIdle | PChecked(x: Entry) | PStoring(x: Entry) | PStored(x: Entry)
  datatype Consumer = CIdle | CSeen | CCopied(got: Slot)

  datatype State = State(slots: seq<Slot>, wid: nat, rid: nat, producer: Producer, consumer: Consumer)

  datatype Step =
    | PCheck(x: Entry)   // putQueue: full?
    | PBegin             // the copy into the slot starts
    | PEnd               // and ends
    | PPublish           // the write index moves
    | CCheck             // emptyQueue
    | CCopy              // topQueue
    | CPop               // popQueue

  datatype Event = Accepted(x: Entry) | Refused(x: Entry) | Delivered(got: Slot) | Silent

  predicate Init(len: nat, s: State) {
    |s.slots| == len && s.wid == 0 && s.rid == 0 && s.producer == PIdle && s.consumer == CIdle
  }

  predicate Shape(len: nat, s: State) {
    |s.slots| == len && s.wid < len && s.rid < len
  }

  predicate Enabled(s: State, a: Step) {
    match a
    case PCheck(x) => s.producer.PIdle?
    case PBegin => s.producer.PChecked?
    case PEnd => s.producer.PStoring?
    case PPublish => s.producer.PStored?
    case CCheck => s.consumer.CIdle?
    case CCopy => s.consumer.CSeen?
    case CPop => s.consumer.CCopied?
  }

  function Apply(len: nat, s: State, a: Step): State
    requires Shape(len, s) && Enabled(s, a)
  {
    match a
    case PCheck(x) => if Succ(len, s.wid) == s.rid then s else s.(producer := PChecked(x))
    case PBegin => s.(slots := s.slots[s.wid := Torn], producer := PStoring(s.producer.x))
    case PEnd => s.(slots := s.slots[s.wid := Full(s.producer.x)], producer := PStored(s.producer.x))
    case PPublish => s.(wid := Succ(len, s.wid), producer := PIdle)
    case CCheck => if s.wid == s.rid then s else s.(consumer := CSeen)
    case CCopy => s.(consumer := CCopied(s.slots[s.rid]))
    case CPop => if s.wid == s.rid then s.(consumer := CIdle) else s.(rid := Succ(len, s.rid), consumer := CIdle)
  }

  function EventOf(len: nat, s: State, a: Step): Event
    requires Shape(len, s) && Enabled(s, a)
  {
    match a
    case PCheck(x) => if Succ(len, s.wid) == s.rid then Refused(x) else Silent
    case PPublish => Accepted(s.producer.x)
    case CPop => Delivered(s.consumer.got)
    case _ => Silent
  }

  /** `q` is what has been accepted and not yet delivered: it fills the slots from the read index on, the slot being
      written is never one of them, and the producer has room for what it is about to publish. */
  ghost predicate Holds(len: nat, s: State, q: seq<Entry>) {
    && Shape(len, s) && |q| == Dist(len, s.rid, s.wid)
    && (forall k :: 0 <= k < |q| ==> s.slots[At(len, s.rid, k)] == Full(q[k]))
    && (!s.producer.PIdle? ==> |q| < len - 1)
    && (s.producer.PStored? ==> s.slots[s.wid] == Full(s.producer.x))
    && (!s.consumer.CIdle? ==> q != [])
    && (s.consumer.CCopied? ==> s.consumer.got == Full(q[0]))
  }

  /** The atomic bounded queue that the two threads together implement. */
  function NextQueue(len: nat, s: State, a: Step, q: seq<Entry>): seq<Entry>
    requires Shape(len, s) && Enabled(s, a)
  {
    match EventOf(len, s, a)
    case Accepted(x) => q + [x]
    case Delivered(_) => if q == [] then [] else q[1..]
    case _ => q
  }

  /** Every step of either thread is a step of an atomic queue of capacity len - 1: a put is accepted into free room
      or refused because the queue is full, a take delivers the oldest entry, and the consumer never copies a slot
      that is being written. */
  lemma StepRefinesAtomicQueue(len: nat, s: State, a: Step, q: seq<Entry>)
    requires Holds(len, s, q) && Enabled(s, a)
    ensures Holds(len, Apply(len, s, a), NextQueue(len, s, a, q))
    ensures
      match EventOf(len, s, a)
      case Accepted(_) => |q| < len - 1
      case Refused(_) => |q| == len - 1
      case Delivered(got) => q != [] && got == Full(q[0])
      case Silent => true
    ensures a.CCopy? ==> s.slots[s.rid] == Full(q[0]) && !(s.producer.PStoring? && s.wid == s.rid)
  {
    var s', q' := Apply(len, s, a), NextQueue(len, s, a, q);
    match a
    case CPop =>
      forall k | 0 <= k < |q'|
        ensures s'.slots[At(len, s'.rid, k)] == Full(q'[k])
      {
        assert At(len, s'.rid, k) == At(len, s.rid, k + 1);
      }
    case CCopy => assert s.slots[At(len, s.rid, 0)] == Full(q[0]);
    case PPublish =>
    case PCheck(_) =>
    case PBegin =>
    case PEnd =>
    case CCheck =>
  }

  /** While the consumer holds a slot open, the producer does not touch it. */
  lemma OpenSlotIsStable(len: nat, s: State, a: Step, q: seq<Entry>)
    requires Holds(len, s, q) && Enabled(s, a) && !s.consumer.CIdle? && (a.PBegin? || a.PEnd?)
    ensures Apply(len, s, a).slots[s.rid] == s.slots[s.rid]
  {
    assert s.wid != s.rid;
  }

  // ---- runs ----

  ghost predicate Run(len: nat, ss: seq<State>, steps: seq<Step>) {
    && |ss| == |steps| + 1 && len > 0 && Init(len, ss[0])
    && forall i :: 0 <= i < |steps| ==>
         Shape(len, ss[i]) && Enabled(ss[i], steps[i]) && ss[i + 1] == Apply(len, ss[i], steps[i])
  }

  ghost function AcceptedIn(len: nat, ss: seq<State>, steps: seq<Step>): seq<Entry>
    requires Run(len, ss, steps)
    decreases |steps|
  {
    if steps == [] then [] else
    var n := |steps| - 1;
    var e := EventOf(len, ss[n], steps[n]);
    AcceptedIn(len, ss[..n + 1], steps[..n]) + if e.Accepted? then [e.x] else []
  }

  ghost function DeliveredIn(len: nat, ss: seq<State>, steps: seq<Step>): seq<Slot>
    requires Run(len, ss, steps)
    decreases |steps|
  {
    if steps == [] then [] else
    var n := |steps| - 1;
    var e := EventOf(len, ss[n], steps[n]);
    DeliveredIn(len, ss[..n + 1], steps[..n]) + if e.Delivered? then [e.got] else []
  }

  ghost function Whole(xs: seq<Entry>): seq<Slot> {
    seq(|xs|, i requires 0 <= i < |xs| => Full(xs[i]))
  }

  /** Over every interleaving: what was accepted is what was delivered, in order and untorn, followed by what is
      still in the queue, and that is never more than len - 1 entries. */
  lemma {:induction false} DeliveredInOrder(len: nat, ss: seq<State>, steps: seq<Step>) returns (q: seq<Entry>)
    requires Run(len, ss, steps)
    ensures Holds(len, ss[|steps|], q) && |q| <= len - 1
    ensures Whole(AcceptedIn(len, ss, steps)) == DeliveredIn(len, ss, steps) + Whole(q)
    decreases |steps|
  {
    if steps == [] {
      q := [];
    } else {
      hide Apply, EventOf, Holds, Enabled, NextQueue, Whole, Init, Shape;
      var n := |steps| - 1;
      var q0 := DeliveredInOrder(len, ss[..n + 1], steps[..n]);
      assert ss[..n + 1][n] == ss[n];
      StepRefinesAtomicQueue(len, ss[n], steps[n], q0);
      q := NextQueue(len, ss[n], steps[n], q0);
      NextWhole(len, ss[n], steps[n], q0);
      HoldsBound(len, ss[|steps|], q);
      var e := EventOf(len, ss[n], steps[n]);
      Chain(AcceptedIn(len, ss[..n + 1], steps[..n]), if e.Accepted? then [e.x] else [],
            DeliveredIn(len, ss[..n + 1], steps[..n]), if e.Delivered? then [e.got] else [], q0, q);
    }
  }

  lemma Chain(accepted: seq<Entry>, put: seq<Entry>, delivered: seq<Slot>, got: seq<Slot>, q: seq<Entry>,
              q': seq<Entry>)
    requires Whole(accepted) == delivered + Whole(q) && Whole(q) + Whole(put) == got + Whole(q')
    ensures Whole(accepted + put) == (delivered + got) + Whole(q')
  {
    assert Whole(accepted + put) == Whole(accepted) + Whole(put);
    assert (delivered + Whole(q)) + Whole(put) == delivered + (Whole(q) + Whole(put));
    assert (delivered + got) + Whole(q') == delivered + (got + Whole(q'));
  }

  lemma HoldsBound(len: nat, s: State, q: seq<Entry>)
    requires Holds(len, s, q)
    ensures |q| <= len - 1
  {
  }

  lemma NextWhole(len: nat, s: State, a: Step, q: seq<Entry>)
    requires Holds(len, s, q) && Enabled(s, a)
    ensures
      var e, q' := EventOf(len, s, a), NextQueue(len, s, a, q);
      Whole(q) + Whole(if e.Accepted? then [e.x] else []) == (if e.Delivered? then [e.got] else []) + Whole(q')
  {
    assert Shape(len, s);
    hide Holds, Apply, EventOf, Enabled, Shape;
    StepRefinesAtomicQueue(len, s, a, q);
    var e := EventOf(len, s, a);
    if e.Accepted? {
      assert Whole(q + [e.x]) == Whole(q) + Whole([e.x]);
    } else if e.Delivered? {
      assert Whole(q) == [Full(q[0])] + Whole(q[1..]);
      assert Whole(q) + Whole([]) == Whole(q);
    } else {
      assert Whole(q) + Whole([]) == [] + Whole(q);
    }
  }

  // ---- what each thread gets done, whatever the other does in between ----

  predicate OfProducer(a: Step) { a.PCheck? || a.PBegin? || a.PEnd? || a.PPublish? }

  /** The steps of one thread among `steps`. */
  function Only(steps: seq<Step>, producer: bool): seq<Step> {
    if steps == [] then []
    else (if OfProducer(steps[0]) == producer then [steps[0]] else []) + Only(steps[1..], producer)
  }

  /** The steps can be made one after the other from `s`, and show the events `es` other than silence. */
  ghost predicate Path(len: nat, s: State, steps: seq<Step>, es: seq<Event>)
    decreases |steps|
  {
    if steps == [] then es == [] else
    && Shape(len, s) && Enabled(s, steps[0])
    && var e := EventOf(len, s, steps[0]);
       if e.Silent? then Path(len, Apply(len, s, steps[0]), steps[1..], es)
       else es != [] && es[0] == e && Path(len, Apply(len, s, steps[0]), steps[1..], es[1..])
  }

  function DeliveredOf(es: seq<Event>): seq<Slot> {
    if es == [] then [] else (if es[0].Delivered? then [es[0].got] else []) + DeliveredOf(es[1..])
  }

  /** The puts that were accepted or refused. */
  function PutsOf(es: seq<Event>): seq<Event> {
    if es == [] then [] else (if es[0].Accepted? || es[0].Refused? then [es[0]] else []) + PutsOf(es[1..])
  }

  /** What is left of a take: emptyQueue, topQueue, popQueue. */
  function TakeLeft(c: Consumer): seq<Step> {
    match c
    case CIdle => [CCheck, CCopy, CPop]
    case CSeen => [CCopy, CPop]
    case CCopied(_) => [CPop]
  }

  /** What is left of a put of `x`. */
  function PutLeft(p: Producer, x: Entry): seq<Step> {
    match p
    case PIdle => [PCheck(x), PBegin, PEnd, PPublish]
    case PChecked(_) => [PBegin, PEnd, PPublish]
    case PStoring(_) => [PEnd, PPublish]
    case PStored(_) => [PPublish]
  }

  /** A thread's next step is never blocked by the other. */
  lemma NextIsEnabled(s: State, x: Entry)
    ensures Enabled(s, TakeLeft(s.consumer)[0]) && Enabled(s, PutLeft(s.producer, x)[0])
  {
  }

  lemma {:induction false} NoTake(len: nat, s: State, steps: seq<Step>, es: seq<Event>)
    requires Path(len, s, steps, es) && Only(steps, false) == []
    ensures DeliveredOf(es) == []
    decreases |steps|
  {
    if steps != [] {
      var e := EventOf(len, s, steps[0]);
      NoTake(len, Apply(len, s, steps[0]), steps[1..], if e.Silent? then es else es[1..]);
    }
  }

  lemma {:induction false} NoPut(len: nat, s: State, steps: seq<Step>, es: seq<Event>)
    requires Path(len, s, steps, es) && Only(steps, true) == []
    ensures PutsOf(es) == []
    decreases |steps|
  {
    if steps != [] {
      var e := EventOf(len, s, steps[0]);
      NoPut(len, Apply(len, s, steps[0]), steps[1..], if e.Silent? then es else es[1..]);
    }
  }

  /** A producer step leaves the consumer and the oldest entry alone. */
  lemma ProducerStep(len: nat, s: State, a: Step, q: seq<Entry>)
    requires Holds(len, s, q) && Enabled(s, a) && OfProducer(a)
    ensures Apply(len, s, a).consumer == s.consumer && q <= NextQueue(len, s, a, q) && !EventOf(len, s, a).Delivered?
  {
  }

  /** A consumer step leaves the producer alone and only makes room. */
  lemma ConsumerStep(len: nat, s: State, a: Step, q: seq<Entry>)
    requires Holds(len, s, q) && Enabled(s, a) && !OfProducer(a)
    ensures Apply(len, s, a).producer == s.producer && |NextQueue(len, s, a, q)| <= |q|
    ensures !EventOf(len, s, a).Accepted? && !EventOf(len, s, a).Refused?
  {
  }

  /** One step of a take on a queue that holds something. */
  lemma TakeStep(len: nat, s: State, q: seq<Entry>)
    requires Holds(len, s, q) && q != []
    ensures
      var a := TakeLeft(s.consumer)[0];
      && Enabled(s, a) && TakeLeft(s.consumer)[1..] == (if a.CPop? then [] else TakeLeft(Apply(len, s, a).consumer))
      && EventOf(len, s, a) == (if a.CPop? then Delivered(Full(q[0])) else Silent)
      && (!a.CPop? ==> NextQueue(len, s, a, q) == q)
  {
    assert s.wid != s.rid;
  }

  lemma PutStep(len: nat, s: State, q: seq<Entry>, x: Entry)
    requires Holds(len, s, q) && |q| < len - 1 && (s.producer.PIdle? || s.producer.x == x)
    ensures
      var a := PutLeft(s.producer, x)[0];
      && Enabled(s, a)
      && EventOf(len, s, a) == (if a.PPublish? then Accepted(x) else Silent)
      && (!a.PPublish? ==> var p := Apply(len, s, a).producer;
            !p.PIdle? && p.x == x && PutLeft(s.producer, x)[1..] == PutLeft(p, x) && NextQueue(len, s, a, q) == q)
      && (a.PPublish? ==> PutLeft(s.producer, x)[1..] == [])
  {
    assert Succ(len, s.wid) != s.rid;
  }

  /** A take of a queue that holds something delivers the oldest entry, whole, however the producer's steps fall
      between its three steps. */
  lemma {:induction false} TakeDelivers(len: nat, s: State, q: seq<Entry>, steps: seq<Step>, es: seq<Event>)
    requires Holds(len, s, q) && q != [] && Path(len, s, steps, es) && Only(steps, false) == TakeLeft(s.consumer)
    ensures DeliveredOf(es) == [Full(q[0])]
    decreases |steps|
  {
    var a := steps[0];
    var z, e := Apply(len, s, a), EventOf(len, s, a);
    StepRefinesAtomicQueue(len, s, a, q);
    var q1, rest := NextQueue(len, s, a, q), if e.Silent? then es else es[1..];
    if OfProducer(a) {
      ProducerStep(len, s, a, q);
      TakeDelivers(len, z, q1, steps[1..], rest);
    } else {
      TakeStep(len, s, q);
      assert a == Only(steps, false)[0] && Only(steps[1..], false) == Only(steps, false)[1..];
      if a.CPop? {
        NoTake(len, z, steps[1..], rest);
      } else {
        TakeDelivers(len, z, q1, steps[1..], rest);
      }
    }
  }

  /** A put into a queue that is not full is accepted, however the consumer's steps fall between its four steps. */
  lemma {:induction false} PutIsAccepted(len: nat, s: State, q: seq<Entry>, x: Entry, steps: seq<Step>, es: seq<Event>)
    requires Holds(len, s, q) && |q| < len - 1 && (s.producer.PIdle? || s.producer.x == x)
    requires Path(len, s, steps, es) && Only(steps, true) == PutLeft(s.producer, x)
    ensures PutsOf(es) == [Accepted(x)]
    decreases |steps|
  {
    var a := steps[0];
    var z, e := Apply(len, s, a), EventOf(len, s, a);
    StepRefinesAtomicQueue(len, s, a, q);
    var q1, rest := NextQueue(len, s, a, q), if e.Silent? then es else es[1..];
    if !OfProducer(a) {
      ConsumerStep(len, s, a, q);
      PutIsAccepted(len, z, q1, x, steps[1..], rest);
    } else {
      PutStep(len, s, q, x);
      assert a == Only(steps, true)[0] && Only(steps[1..], true) == Only(steps, true)[1..];
      if a.PPublish? {
        NoPut(len, z, steps[1..], rest);
      } else {
        PutIsAccepted(len, z, q1, x, steps[1..], rest);
      }
    }
  }

  /** In every reachable state: an idle consumer whose queue holds something takes its oldest entry, and an idle
      producer whose queue is not full puts its entry in, under every interleaving of the rest. */
  lemma NobodyIsStuck(len: nat, ss: seq<State>, steps: seq<Step>, more: seq<Step>, es: seq<Event>, x: Entry)
    requires Run(len, ss, steps) && Path(len, ss[|steps|], more, es)
    ensures
      var s, held := ss[|steps|], |AcceptedIn(len, ss, steps)| - |DeliveredIn(len, ss, steps)|;
      && (s.consumer.CIdle? && held > 0 && Only(more, false) == [CCheck, CCopy, CPop]
          ==> DeliveredOf(es) == [Full(AcceptedIn(len, ss, steps)[|DeliveredIn(len, ss, steps)|])])
      && (s.producer.PIdle? && held < len - 1 && Only(more, true) == [PCheck(x), PBegin, PEnd, PPublish]
          ==> PutsOf(es) == [Accepted(x)])
  {
    var q := DeliveredInOrder(len, ss, steps);
    var s, acc, del := ss[|steps|], AcceptedIn(len, ss, steps), DeliveredIn(len, ss, steps);
    assert |Whole(acc)| == |del| + |q|;
    hide Path, Holds, Run;
    if s.consumer.CIdle? && q != [] && Only(more, false) == [CCheck, CCopy, CPop] {
      assert Whole(acc)[|del|] == Whole(q)[0];
      TakeDelivers(len, s, q, more, es);
    }
    if s.producer.PIdle? && |q| < len - 1 && Only(more, true) == [PCheck(x), PBegin, PEnd, PPublish] {
      PutIsAccepted(len, s, q, x, more, es);
    }
  }
}
