/** One hop of the replicated log: the head's writer and NIC threads and the tail's reader thread, as a state
    machine whose steps are the accesses to state that two threads share. Remote transfers go byte by byte. */
module Replication {
  import opened Ring
  import opened Layout

  // ---- head ----

  /** A log the head has built; `pos` is the write pointer at which its header goes (0..size inclusive). */
  datatype HeadLog = HeadLog(rec: Rec, pos: nat)

  datatype WriterPc =
    | WIdle
    | WChecked(rec: Rec)
    | WWriting(log: HeadLog, written: set<nat>)
    | WPublishing(log: HeadLog)
    | WQueueing(log: HeadLog)

  datatype NicPc =
    | NIdle
    | NWriting(log: HeadLog, written: set<nat>)

  // ---- tail ----

  /** An address kept in a log entry: into the ring (zero copy), or a private copy of a cut field. */
  datatype Ref = Null | InRing(at: nat) | Copied(bytes: seq<byte>)

  datatype TailLog = TailLog(pos: nat, klen: nat, vlen: nat, key: Ref, value: Ref)

  /** The tail's LocalRingbuff pointers, its three queues and the dirty map. */
  datatype Tail = Tail(wr: nat, rd: nat, rdKey: nat,
                       pending: seq<TailLog>, executing: seq<TailLog>, dirtyQ: seq<TailLog>,
                       dirty: map<Str, nat>)

  datatype ReaderPc =
    | KeyTop(pos: nat, num: nat)
    | KeyParse(pos: nat, num: nat)
    | KeyDirty(pos: nat, num: nat, log: TailLog)
    | ValueTop(num: nat)
    | ValueRead(num: nat)
    | Exec(todo: nat)
    | Clean(todo: nat)
    | Free(todo: nat, log: TailLog)
    | Halted

  datatype State = State(
    buf: seq<byte>,
    wr: nat, rdCached: nat, writer: WriterPc, sending: seq<HeadLog>, nic: NicPc,
    tail: Tail, reader: ReaderPc)

  predicate Init(c: Config, s: State) {
    && s.buf == seq(c.size, i => 0)
    && s.wr == 0 && s.rdCached == 0 && s.writer == WIdle && s.sending == [] && s.nic == NIdle
    && s.tail == Tail(0, 0, 0, [], [], [], map[])
    && s.reader == KeyTop(0, 0)
  }

  // ---- pieces shared by several steps ----

  function DataSize(size: nat, wr: nat, rd: nat): (r: nat)
    requires size > 0
    ensures r < size
  {
    Wrap(size, wr - rd)
  }

  function FreeSize(size: nat, wr: nat, rd: nat): int
    requires size > 0
  {
    size - 1 - DataSize(size, wr, rd)
  }

  /** Which byte of a transfer of `len` bytes to `pos` the NIC may make visible next: fragments one after the
      other, inside a fragment any order as long as the fragment's last byte comes last. */
  predicate MayWrite(size: nat, pos: nat, len: nat, written: set<nat>, i: nat)
  {
    && pos <= size && i < len && i !in written
    && var left := FragLeft(size, pos, len);
       && (i >= left ==> forall j :: 0 <= j < left ==> j in written)
       && (i == left - 1 || i == len - 1 ==> forall j :: 0 <= j < i ==> j in written)
  }

  predicate AllWritten(len: nat, written: set<nat>) {
    forall j :: 0 <= j < len ==> j in written
  }

  function Poke(buf: seq<byte>, at: nat, b: byte): (r: seq<byte>)
    ensures |r| == |buf|
  {
    if at < |buf| then buf[at := b] else buf
  }

  predicate HasRoom<T>(c: Config, q: seq<T>) {
    |q| + 1 < c.queueLen
  }

  /** putQueue: a full queue is left alone. */
  function Put<T>(c: Config, q: seq<T>, x: T): seq<T> {
    if HasRoom(c, q) then q + [x] else q
  }

  /** rb_read with isCopy: refused when it asks for more than the published data; the caller's buffer, which
      the model takes to be zeroed, is then left as it was. */
  function RbCopy(c: Config, buf: seq<byte>, t: Tail, pos: nat, len: nat): (r: seq<byte>)
    requires c.size > 0
    ensures |r| == len
  {
    if len <= DataSize(c.size, t.wr, t.rd) && pos <= |buf| && len <= |buf|
    then ReadFrags(buf, pos, len)
    else seq(len, i => 0)
  }

  /** Bytes behind an address that points into the ring. */
  function Peek(buf: seq<byte>, at: nat, len: nat): seq<byte> {
    if at + len <= |buf| then buf[at..at + len] else []
  }

  function Deref(buf: seq<byte>, r: Ref, default: nat, len: nat): seq<byte> {
    match r
    case Null => Peek(buf, default, len)
    case InRing(at) => Peek(buf, at, len)
    case Copied(bytes) => bytes
  }

  /** get_key_addr and get_value_addr, followed by reading the field. */
  function LogKey(c: Config, buf: seq<byte>, log: TailLog): seq<byte>
    requires c.size > 0
  {
    Deref(buf, log.key, Wrap(c.size, log.pos + c.header), log.klen)
  }

  function LogValue(c: Config, buf: seq<byte>, log: TailLog): seq<byte>
    requires c.size > 0
  {
    Deref(buf, log.value, Wrap(c.size, log.pos + c.header + log.klen), log.vlen)
  }

  /** A field of `len` bytes at `at`: copied out when it reaches the ring end, otherwise used in place. */
  function FieldRef(c: Config, buf: seq<byte>, t: Tail, at: nat, len: nat): Ref
    requires c.size > 0
  {
    if at + len >= c.size then Copied(RbCopy(c, buf, t, at, len)) else InRing(at)
  }

  /** Header parsing in read_log_key. */
  function Parse(c: Config, buf: seq<byte>, t: Tail, pos: nat): TailLog
    requires c.size > 0
  {
    var meta := RbCopy(c, buf, t, pos, META);
    var klen, vlen := FromLE(meta[..4]), FromLE(meta[4..]);
    TailLog(pos, klen, vlen, FieldRef(c, buf, t, Wrap(c.size, pos + c.header), klen), Null)
  }

  function Next(c: Config, log: TailLog): nat {
    c.header + log.klen + log.vlen
  }

  function MarkDirty(m: map<Str, nat>, k: Str): map<Str, nat> {
    if k in m then m[k := m[k] + 1] else m[k := 1]
  }

  const ULONG_MAX := 0xFFFF_FFFF_FFFF_FFFF

  /** The stored count is an unsigned long: a stored 0 would wrap around. */
  function UnmarkDirty(m: map<Str, nat>, k: Str): map<Str, nat>
    requires k in m
  {
    if m[k] == 1 then m - {k} else if m[k] == 0 then m[k := ULONG_MAX] else m[k := m[k] - 1]
  }

  predicate JudgeKeyDirty(s: State, k: Str) {
    k in s.tail.dirty
  }

  predicate TagSet(c: Config, buf: seq<byte>, log: TailLog)
    requires c.size > 0
  {
    var at := Wrap(c.size, log.pos + Next(c, log) - 1);
    at < |buf| && buf[at] == TAG
  }

  // ---- reader thread: one function per step ----

  function KeyTopStep(c: Config, t: Tail, pos: nat, num: nat): (Tail, ReaderPc)
    requires c.size > 0
  {
    if num >= c.keyLimit || DataSize(c.size, t.wr, pos) < META
    then (t.(rdKey := pos), ValueTop(0))
    else (t, KeyParse(pos, num))
  }

  function KeyDirtyStep(c: Config, buf: seq<byte>, t: Tail, pos: nat, num: nat, log: TailLog): (Tail, ReaderPc)
    requires c.size > 0
  {
    var t1 := t.(dirty := MarkDirty(t.dirty, CStr(LogKey(c, buf, log))), dirtyQ := Put(c, t.dirtyQ, log));
    if HasRoom(c, t1.pending)
    then (t1.(pending := t1.pending + [log]), KeyTop(pos, num + 1))
    else (t1, Halted)
  }

  function ValueTopStep(c: Config, buf: seq<byte>, t: Tail, num: nat): ReaderPc
    requires c.size > 0
  {
    if t.pending == [] || num >= c.valueLimit then
      if num < c.valueLimit then KeyTop(t.rdKey, 0) else Exec(num)
    else if TagSet(c, buf, t.pending[0]) then ValueRead(num) else ValueTop(num)
  }

  function ValueReadStep(c: Config, buf: seq<byte>, t: Tail, num: nat): (Tail, ReaderPc)
    requires c.size > 0 && t.pending != []
  {
    var log := t.pending[0];
    var log' := log.(value := FieldRef(c, buf, t, Wrap(c.size, log.pos + c.header + log.klen), log.vlen));
    if HasRoom(c, t.executing)
    then (t.(executing := t.executing + [log'], pending := t.pending[1..]), ValueTop(num + 1))
    else (t, Halted)
  }

  function CleanStep(c: Config, buf: seq<byte>, t: Tail, todo: nat): (Tail, ReaderPc)
    requires c.size > 0 && todo > 0
  {
    if t.dirtyQ == [] then (t, Exec(todo - 1)) else
    var log := t.dirtyQ[0];
    var k := CStr(LogKey(c, buf, log));
    var t1 := t.(dirtyQ := t.dirtyQ[1..]);
    if k in t.dirty then (t1.(dirty := UnmarkDirty(t.dirty, k)), Free(todo, log)) else (t1, Halted)
  }

  function FreeStep(c: Config, t: Tail, log: TailLog): Tail
    requires c.size > 0
  {
    t.(rd := Wrap(c.size, t.rd + Next(c, log)))
  }

  // ---- all steps ----

  datatype Step =
    | WBegin(rec: Rec)        // head_node_write_log: build the log, first check_remote_size
    | WRecheck                // rb_write_mate: second check_remote_size, reservation
    | WByte(i: nat)           // one byte of header and key becomes visible
    | WAdvance                // update_wr_local, twice
    | WPublish                // update_wr_remote
    | WEnqueue                // putQueue(sending_queue)
    | NTake                   // NIC_thread: topQueue, popQueue
    | NByte(i: nat)           // one byte of the value becomes visible
    | NFinish
    | RKeyTop | RKeyParse | RKeyDirty
    | RValueTop | RValueRead
    | RExec | RClean | RFree

  predicate Enabled(c: Config, s: State, a: Step) {
    match a
    case WBegin(rec) => s.writer.WIdle? && ValidRec(c, rec) && FromCall(rec)
    case WRecheck => s.writer.WChecked?
    case WByte(i) => s.writer.WWriting?
      && MayWrite(c.size, s.writer.log.pos, MateLen(s.writer.log.rec), s.writer.written, i)
    case WAdvance => s.writer.WWriting? && s.writer.log.pos <= c.size
      && AllWritten(MateLen(s.writer.log.rec), s.writer.written)
    case WPublish => s.writer.WPublishing?
    case WEnqueue => s.writer.WQueueing?
    case NTake => s.nic.NIdle? && s.sending != []
    case NByte(i) => s.nic.NWriting? && c.size > 0
      && MayWrite(c.size, ValuePos(c, s.nic.log), ValueLen(s.nic.log.rec), s.nic.written, i)
    case NFinish => s.nic.NWriting? && AllWritten(ValueLen(s.nic.log.rec), s.nic.written)
    case RKeyTop => s.reader.KeyTop?
    case RKeyParse => s.reader.KeyParse?
    case RKeyDirty => s.reader.KeyDirty?
    case RValueTop => s.reader.ValueTop?
    case RValueRead => s.reader.ValueRead? && s.tail.pending != []
    case RExec => s.reader.Exec?
    case RClean => s.reader.Clean? && s.reader.todo > 0
    case RFree => s.reader.Free? && s.reader.todo > 0
  }

  /** NIC_thread's value_pos. */
  function ValuePos(c: Config, log: HeadLog): (r: nat)
    requires c.size > 0
    ensures r < c.size
  {
    Wrap(c.size, log.pos + c.header + KeyLen(log.rec))
  }

  /** Write pointer after rb_write_mate: past header and key, then past the room reserved for the value. */
  function NextWr(size: nat, log: HeadLog): nat
    requires log.pos <= size
  {
    var p := Advance(size, log.pos, MateLen(log.rec));
    if p <= size then Advance(size, p, ValueLen(log.rec)) else p
  }

  function Apply(c: Config, s: State, a: Step): State
    requires c.size > 0 && Enabled(c, s, a)
  {
    match a
    case WBegin(rec) =>
      var s1 := s.(rdCached := s.tail.rd);
      if Len(rec) > FreeSize(c.size, s1.wr, s1.rdCached) then s1 else s1.(writer := WChecked(rec))
    case WRecheck =>
      var s1 := s.(rdCached := s.tail.rd);
      if Reserves(c, s) then s1.(writer := WWriting(HeadLog(s.writer.rec, s.wr), {})) else s1.(writer := WIdle)
    case WByte(i) =>
      var log := s.writer.log;
      s.(buf := Poke(s.buf, FragAddr(c.size, log.pos, MateLen(log.rec), i), Mate(log.rec)[i]),
         writer := s.writer.(written := s.writer.written + {i}))
    case WAdvance => s.(wr := NextWr(c.size, s.writer.log), writer := WPublishing(s.writer.log))
    case WPublish => s.(tail := s.tail.(wr := s.wr), writer := WQueueing(s.writer.log))
    case WEnqueue => s.(sending := Put(c, s.sending, s.writer.log), writer := WIdle)
    case NTake => s.(nic := NWriting(s.sending[0], {}), sending := s.sending[1..])
    case NByte(i) =>
      var log := s.nic.log;
      s.(buf := Poke(s.buf, FragAddr(c.size, ValuePos(c, log), ValueLen(log.rec), i), ValueBytes(log.rec)[i]),
         nic := s.nic.(written := s.nic.written + {i}))
    case NFinish => s.(nic := NIdle)
    case RKeyTop =>
      var (t, pc) := KeyTopStep(c, s.tail, s.reader.pos, s.reader.num);
      s.(tail := t, reader := pc)
    case RKeyParse =>
      var log := Parse(c, s.buf, s.tail, s.reader.pos);
      s.(reader := KeyDirty(Wrap(c.size, s.reader.pos + Next(c, log)), s.reader.num, log))
    case RKeyDirty =>
      var (t, pc) := KeyDirtyStep(c, s.buf, s.tail, s.reader.pos, s.reader.num, s.reader.log);
      s.(tail := t, reader := pc)
    case RValueTop => s.(reader := ValueTopStep(c, s.buf, s.tail, s.reader.num))
    case RValueRead =>
      var (t, pc) := ValueReadStep(c, s.buf, s.tail, s.reader.num);
      s.(tail := t, reader := pc)
    case RExec =>
      if s.reader.todo == 0 then s.(reader := KeyTop(s.tail.rdKey, 0))
      else if s.tail.executing == [] then s.(reader := Clean(s.reader.todo))
      else s.(tail := s.tail.(executing := s.tail.executing[1..]), reader := Clean(s.reader.todo))
    case RClean =>
      var (t, pc) := CleanStep(c, s.buf, s.tail, s.reader.todo);
      s.(tail := t, reader := pc)
    case RFree => s.(tail := FreeStep(c, s.tail, s.reader.log), reader := Exec(s.reader.todo - 1))
  }

  /** Whether the second space check, made with a fresh copy of the read pointer, lets the record in. */
  predicate Reserves(c: Config, s: State)
    requires c.size > 0 && s.writer.WChecked?
  {
    Len(s.writer.rec) <= FreeSize(c.size, s.wr, s.tail.rd)
  }

  // ---- observable events ----

  datatype Event = Accepted(key: Str, value: Str) | Executed(key: Str, value: Str) | Silent

  /** head_node_write_log returning true, and the tail's application reading key and value of the log on top. */
  function EventOf(c: Config, s: State, a: Step): Event
    requires c.size > 0 && Enabled(c, s, a)
  {
    match a
    case WEnqueue =>
      if HasRoom(c, s.sending) then Accepted(s.writer.log.rec.key, Value(s.writer.log.rec)) else Silent
    case RExec =>
      if s.reader.todo == 0 || s.tail.executing == [] then Silent
      else
        var log := s.tail.executing[0];
        Executed(CStr(LogKey(c, s.buf, log)), CStr(LogValue(c, s.buf, log)))
    case _ => Silent
  }

  // ---- runs ----

  ghost predicate Run(c: Config, ss: seq<State>, steps: seq<Step>)
    requires c.size > 0
  {
    && |ss| == |steps| + 1
    && Init(c, ss[0])
    && forall i :: 0 <= i < |steps| ==> Enabled(c, ss[i], steps[i]) && ss[i + 1] == Apply(c, ss[i], steps[i])
  }

  /** Tag hygiene at one step: a reservation finds something other than 1 where the record's tag will go. */
  predicate HygienicStep(c: Config, s: State, a: Step)
    requires c.size > 0
  {
    a.WRecheck? && s.writer.WChecked? && Reserves(c, s) ==>
      var at := Wrap(c.size, s.wr + Len(s.writer.rec) - 1);
      at < |s.buf| && s.buf[at] != TAG
  }

  ghost predicate Hygienic(c: Config, ss: seq<State>, steps: seq<Step>)
    requires c.size > 0 && |ss| == |steps| + 1
  {
    forall i :: 0 <= i < |steps| ==> HygienicStep(c, ss[i], steps[i])
  }
}
