/** The routines of the log buffer as imperative code over a byte array, each proved against the functions that
    the protocol's steps are made of. */
module Nodes {
  import opened Ring
  import opened Layout
  import opened Replication
  import opened ValueWrites

  // ---- loops of the reader, as functions on values ----

  /** read_log_key for a fixed published pointer: the reader's key steps, run without interference. */
  function KeyLoop(c: Config, buf: seq<byte>, t: Tail, pos: nat, num: nat): (Tail, ReaderPc)
    requires c.size > 0
    decreases c.keyLimit - num
  {
    var (t1, pc) := KeyTopStep(c, t, pos, num);
    if !pc.KeyParse? then (t1, pc) else
    var log := Parse(c, buf, t, pos);
    var next := Wrap(c.size, pos + Next(c, log));
    var (t2, pc2) := KeyDirtyStep(c, buf, t, next, num, log);
    if pc2.Halted? then (t2, pc2) else KeyLoop(c, buf, t2, next, num + 1)
  }

  /** One round of the loop, and its end. */
  lemma KeyLoopRound(c: Config, buf: seq<byte>, t: Tail, pos: nat, num: nat)
    requires c.size > 0
    ensures
      var log := Parse(c, buf, t, pos);
      var t1 := t.(dirty := MarkDirty(t.dirty, CStr(LogKey(c, buf, log))), dirtyQ := Put(c, t.dirtyQ, log));
      KeyLoop(c, buf, t, pos, num) ==
        if num >= c.keyLimit || DataSize(c.size, t.wr, pos) < META then (t.(rdKey := pos), ValueTop(0))
        else if HasRoom(c, t.pending)
        then KeyLoop(c, buf, t1.(pending := t.pending + [log]), Wrap(c.size, pos + Next(c, log)), num + 1)
        else (t1, Halted)
  {
    hide Parse, LogKey, CStr, MarkDirty, Next, Wrap, DataSize;
  }

  /** read_log_value up to the first tag that is not set: the result says whether it is waiting for one. */
  function ValueLoop(c: Config, buf: seq<byte>, t: Tail, num: nat): (Tail, ReaderPc)
    requires c.size > 0
    decreases |t.pending|
  {
    var pc := ValueTopStep(c, buf, t, num);
    if !pc.ValueRead? then (t, pc) else
    var (t1, pc1) := ValueReadStep(c, buf, t, num);
    if pc1.Halted? then (t1, pc1) else ValueLoop(c, buf, t1, num + 1)
  }

  /** One round of the loop, and its ends. */
  lemma ValueLoopRound(c: Config, buf: seq<byte>, t: Tail, num: nat)
    requires c.size > 0
    ensures
      ValueLoop(c, buf, t, num) ==
        if t.pending == [] || num >= c.valueLimit
        then (t, if num < c.valueLimit then KeyTop(t.rdKey, 0) else Exec(num))
        else if !TagSet(c, buf, t.pending[0]) then (t, ValueTop(num))
        else if !HasRoom(c, t.executing) then (t, Halted)
        else
          var log := t.pending[0];
          var at := Wrap(c.size, log.pos + c.header + log.klen);
          var log' := log.(value := FieldRef(c, buf, t, at, log.vlen));
          ValueLoop(c, buf, t.(executing := t.executing + [log'], pending := t.pending[1..]), num + 1)
  {
    hide FieldRef, TagSet, Wrap, HasRoom;
  }

  /** Zeroes over `len` bytes from `pos` on. */
  function Cleared(buf: seq<byte>, pos: nat, len: nat): seq<byte>
    requires pos <= |buf| && len <= |buf|
  {
    WriteFrags(buf, pos, Repeat(0, len))
  }

  function Zeroed(buf: seq<byte>, at: nat, len: nat): (r: seq<byte>)
    requires at + len <= |buf|
    ensures |r| == |buf|
  {
    buf[..at] + Repeat(0, len) + buf[at + len..]
  }

  lemma ZeroedPrefix(buf: seq<byte>, at: nat, len: nat, k: nat)
    requires at + len <= |buf| && k <= at
    ensures Zeroed(buf, at, len)[..k] == buf[..k]
  {
  }

  /** Cleared bytes are zero, the rest of the ring is as before. */
  lemma ClearedIs(buf: seq<byte>, pos: nat, len: nat)
    requires 0 < |buf| && pos <= |buf| && len <= |buf|
    ensures |Cleared(buf, pos, len)| == |buf| && Window(Cleared(buf, pos, len), pos, len) == Repeat(0, len)
    ensures Window(Cleared(buf, pos, len), pos + len, |buf| - len) == Window(buf, pos + len, |buf| - len)
  {
    hide WriteFrags, Slot, Window;
    WriteThenRead(buf, pos, Repeat(0, len));
  }

  lemma ClearedInOne(buf: seq<byte>, pos: nat, len: nat)
    requires pos + len <= |buf|
    ensures Cleared(buf, pos, len) == Zeroed(buf, pos, len)
  {
    hide Repeat;
  }

  lemma ClearedInTwo(buf: seq<byte>, pos: nat, len: nat)
    requires pos <= |buf| && len <= |buf| < pos + len
    ensures Cleared(buf, pos, len) == Zeroed(Zeroed(buf, pos, |buf| - pos), 0, len - (|buf| - pos))
  {
    var left := |buf| - pos;
    var rest := len - left;
    var once := Zeroed(buf, pos, left);
    assert Repeat(0, len)[..left] == Repeat(0, left) && Repeat(0, len)[left..] == Repeat(0, rest);
    hide Repeat;
    assert once == buf[..pos] + Repeat(0, left);
    assert once[rest..] == buf[rest..pos] + Repeat(0, left);
  }

  lemma SliceOne<T>(s: seq<T>, n: nat)
    requires n < |s|
    ensures s[n..][1..] == s[n + 1..]
  {
  }

  // ---- tail ----

  class TailNode {
    const c: Config
    const buff: array<byte>
    var wr: nat
    var rd: nat
    var rdKey: nat
    var pending: seq<TailLog>
    var executing: seq<TailLog>
    var dirtyQ: seq<TailLog>
    var dirty: map<Str, nat>

    ghost predicate Valid()
      reads this
    {
      c.size > 0 && buff.Length == c.size && wr <= c.size && rd <= c.size && rdKey <= c.size
    }

    function View(): Tail
      reads this
    {
      Tail(wr, rd, rdKey, pending, executing, dirtyQ, dirty)
    }

    constructor (c: Config)
      requires c.size > 0
      ensures Valid() && this.c == c && fresh(buff)
      ensures buff[..] == Repeat(0, c.size) && View() == Tail(0, 0, 0, [], [], [], map[])
    {
      this.c := c;
      buff := new byte[c.size](i => 0);
      wr, rd, rdKey := 0, 0, 0;
      pending, executing, dirtyQ := [], [], [];
      dirty := map[];
      new;
      assert buff[..] == Repeat(0, c.size);
    }

    /** memset to 0. */
    method Clear(at: nat, len: nat)
      requires at + len <= buff.Length
      modifies buff
      ensures buff[..] == Zeroed(old(buff[..]), at, len)
      ensures forall i :: at <= i < at + len ==> buff[i] == 0
      ensures forall i :: 0 <= i < buff.Length && !(at <= i < at + len) ==> buff[i] == old(buff[i])
    {
      forall i | at <= i < at + len { buff[i] := 0; }
    }

    /** One memcpy out of the ring, and the memset behind it when the read consumes. */
    method Fragment(at: nat, len: nat, isCopy: bool) returns (bytes: seq<byte>)
      requires at + len <= buff.Length
      modifies buff
      ensures bytes == old(buff[..])[at..at + len]
      ensures buff[..] == if isCopy then old(buff[..]) else Zeroed(old(buff[..]), at, len)
    {
      hide Zeroed;
      bytes := buff[at..at + len];
      if !isCopy {
        Clear(at, len);
      }
    }

    /** The copying part of rb_read: up to the ring end, then from its start. */
    method CopyOut(pos: nat, len: nat, isCopy: bool) returns (out: seq<byte>)
      requires Valid() && pos <= c.size && len <= c.size
      modifies buff
      ensures out == Window(old(buff[..]), pos, len)
      ensures buff[..] == if isCopy then old(buff[..]) else Cleared(old(buff[..]), pos, len)
    {
      hide Slot, Zeroed, Cleared, Window, WriteFrags, Repeat;
      ghost var buf := buff[..];
      ReadFragsIsWindow(buf, pos, len);
      if pos + len > c.size {
        var left := c.size - pos;
        ZeroedPrefix(buf, pos, left, len - left);
        ClearedInTwo(buf, pos, len);
        out := Fragment(pos, left, isCopy);
        var more := Fragment(0, len - left, isCopy);
        assert more == buf[..len - left];
        out := out + more;
      } else {
        ClearedInOne(buf, pos, len);
        out := Fragment(pos, len, isCopy);
      }
    }

    /** rb_read. `start` -1 means the read pointer; without a target buffer nothing is copied or cleared. */
    method RbRead(start: int, len: nat, hasTarget: bool, isCopy: bool) returns (ok: bool, out: seq<byte>)
      requires Valid() && -1 <= start <= c.size
      modifies this`rd, buff
      ensures Valid()
      ensures ok <==> len <= DataSize(c.size, wr, old(rd))
      ensures !ok || isCopy ==> rd == old(rd) && buff[..] == old(buff[..])
      ensures ok ==>
        var pos := if start == -1 then old(rd) else start;
        && out == (if hasTarget then Window(old(buff[..]), pos, len) else [])
        && (!isCopy ==> rd == Advance(c.size, pos, len))
        && (!isCopy ==> buff[..] == if hasTarget then Cleared(old(buff[..]), pos, len) else old(buff[..]))
      ensures ok && !isCopy && hasTarget ==>
        var pos := if start == -1 then old(rd) else start;
        && Window(buff[..], pos, len) == Repeat(0, len)
        && Window(buff[..], pos + len, c.size - len) == Window(old(buff[..]), pos + len, c.size - len)
    {
      hide DataSize, Slot, Cleared, Window, Repeat;
      ghost var buf, from: nat := buff[..], if start == -1 then rd else start;
      out := [];
      ok := len <= DataSize(c.size, wr, rd);
      if !ok {
        return;
      }
      var pos: nat := if start == -1 then rd else start;
      if hasTarget {
        ClearedIs(buf, from, len);
        out := CopyOut(pos, len, isCopy);
      }
      if !isCopy {
        rd := if pos + len > c.size then len - (c.size - pos) else pos + len;
      }
    }

    /** read_log_key. */
    method ReadLogKey(limits: nat) returns (num: nat, halted: bool)
      requires Valid()
      modifies this`rdKey, this`pending, this`dirtyQ, this`dirty
      ensures (View(), if halted then Halted else ValueTop(0))
           == KeyLoop(c.(keyLimit := limits), buff[..], old(View()), old(rdKey), 0)
      ensures !halted ==> Valid() && |pending| == |old(pending)| + num
    {
      hide Parse, LogKey, CStr, MarkDirty, Next, KeyLoop, Put, HasRoom;
      var pos: nat := rdKey;
      num := 0;
      ghost var goal := KeyLoop(c.(keyLimit := limits), buff[..], View(), rdKey, 0);
      while num < limits && DataSize(c.size, wr, pos) >= META
        invariant num <= limits && pos <= c.size && Valid() && wr == old(wr) && rd == old(rd) && rdKey == old(rdKey)
        invariant |pending| == |old(pending)| + num
        invariant goal == KeyLoop(c.(keyLimit := limits), buff[..], View(), pos, num)
        decreases limits - num
      {
        var c1 := c.(keyLimit := limits);
        KeyLoopRound(c1, buff[..], View(), pos, num);
        var log := Parse(c1, buff[..], View(), pos);
        pos := Wrap(c.size, pos + Next(c1, log));
        dirty := MarkDirty(dirty, CStr(LogKey(c1, buff[..], log)));
        dirtyQ := Put(c1, dirtyQ, log);
        if !HasRoom(c1, pending) {
          return num, true;
        }
        pending := pending + [log];
        num := num + 1;
      }
      KeyLoopRound(c.(keyLimit := limits), buff[..], View(), pos, num);
      rdKey := pos;
      halted := false;
    }

    /** read_log_value, until the limit is reached, no log is left, or the next tag is still missing. */
    method ReadLogValue(limits: nat) returns (num: nat, halted: bool, waiting: bool)
      requires Valid()
      modifies this`pending, this`executing
      ensures Valid() && num <= limits
      ensures (View(), if halted then Halted else if waiting then ValueTop(num)
                       else if num < limits then KeyTop(rdKey, 0) else Exec(num))
           == ValueLoop(c.(valueLimit := limits), buff[..], old(View()), 0)
      ensures !halted ==> |executing| == |old(executing)| + num
      ensures !halted ==> num <= |old(pending)| && pending == old(pending)[num..]
    {
      hide FieldRef, TagSet, Wrap, ValueLoop, HasRoom;
      num := 0;
      var c1 := c.(valueLimit := limits);
      ghost var goal := ValueLoop(c1, buff[..], View(), 0);
      while pending != [] && num < limits
        invariant num <= |old(pending)| && num <= limits
        invariant pending == old(pending)[num..] && |executing| == |old(executing)| + num
        invariant Valid() && wr == old(wr) && rd == old(rd) && rdKey == old(rdKey) && dirtyQ == old(dirtyQ)
            && dirty == old(dirty)
        invariant goal == ValueLoop(c1, buff[..], View(), num)
        decreases |pending|
      {
        ValueLoopRound(c1, buff[..], View(), num);
        var log := pending[0];
        if !TagSet(c1, buff[..], log) {
          return num, false, true;
        }
        var at := Wrap(c.size, log.pos + c.header + log.klen);
        if !HasRoom(c1, executing) {
          return num, true, false;
        }
        executing := executing + [log.(value := FieldRef(c1, buff[..], View(), at, log.vlen))];
        SliceOne(old(pending), num);
        pending := pending[1..];
        num := num + 1;
      }
      ValueLoopRound(c1, buff[..], View(), num);
      halted, waiting := false, false;
    }

    /** top_log followed by the application reading the value; None when executing_queue is empty. */
    method TopLog() returns (found: bool, value: Str)
      requires Valid()
      ensures found <==> executing != []
      ensures found ==> value == CStr(LogValue(c, buff[..], executing[0]))
    {
      found, value := executing != [], [];
      if found {
        value := CStr(LogValue(c, buff[..], executing[0]));
      }
    }

    /** send_log on the tail: the log only leaves executing_queue. */
    method SendLog()
      requires Valid()
      modifies this`executing
      ensures executing == if old(executing) == [] then [] else old(executing)[1..]
    {
      if executing != [] {
        executing := executing[1..];
      }
    }

    /** clean_log, including free_log. */
    method CleanLog() returns (halted: bool)
      requires Valid()
      modifies this`dirtyQ, this`dirty, this`rd
      ensures Valid()
      ensures
        var (t, pc) := CleanStep(c, buff[..], old(View()), 1);
        && (halted <==> pc.Halted?)
        && View() == if pc.Free? then FreeStep(c, t, pc.log) else t
    {
      halted := false;
      if dirtyQ != [] {
        var log := dirtyQ[0];
        dirtyQ := dirtyQ[1..];
        var k := CStr(LogKey(c, buff[..], log));
        if k in dirty {
          dirty := UnmarkDirty(dirty, k);
          rd := Wrap(c.size, rd + Next(c, log));
        } else {
          halted := true;
        }
      }
    }
  }

  // ---- head ----

  class HeadNode {
    const tail: TailNode
    var wr: nat
    var rdCached: nat
    var sending: seq<HeadLog>

    ghost predicate Valid()
      reads this, tail
    {
      tail.Valid() && wr <= tail.c.size
    }

    constructor (tail: TailNode)
      requires tail.Valid()
      ensures Valid() && this.tail == tail && wr == 0 && rdCached == 0 && sending == []
    {
      this.tail := tail;
      wr, rdCached, sending := 0, 0, [];
    }

    /** check_remote_size. */
    method CheckRemoteSize(len: nat) returns (ok: bool)
      requires Valid()
      modifies this`rdCached
      ensures rdCached == tail.rd && (ok <==> len <= FreeSize(tail.c.size, wr, tail.rd))
    {
      rdCached := tail.rd;
      ok := len <= FreeSize(tail.c.size, wr, rdCached);
    }

    /** The remote write both transfer routines are made of: `data` at `pos`, in one or two dhmp_write calls. */
    method RbWriteData(data: seq<byte>, pos: nat)
      requires Valid() && pos <= tail.c.size && |data| <= tail.c.size
      modifies tail.buff
      ensures tail.buff[..] == WriteFrags(old(tail.buff[..]), pos, data)
    {
      var size := tail.c.size;
      ghost var buf := tail.buff[..];
      var at, rest := pos, data;
      if at + |rest| > size {
        var left := size - at;
        forall i | 0 <= i < left { tail.buff[at + i] := rest[i]; }
        rest := rest[left..];
        at := 0;
      }
      forall i | 0 <= i < |rest| { tail.buff[at + i] := rest[i]; }
      assert tail.buff[..] == WriteFrags(buf, pos, data);
    }

    /** rb_write_mate: -1 when the ring is too full, otherwise the position of the record. */
    method RbWriteMate(rec: Rec) returns (pos: int)
      requires Valid()
      modifies this`rdCached, this`wr, tail`wr, tail.buff
      ensures Valid() && rdCached == tail.rd
      ensures pos == -1 <==> Len(rec) > FreeSize(tail.c.size, old(wr), tail.rd)
      ensures pos == -1 ==> wr == old(wr) && tail.wr == old(tail.wr) && tail.buff[..] == old(tail.buff[..])
      ensures pos != -1 ==>
        && pos == old(wr) && wr == tail.wr == NextWr(tail.c.size, HeadLog(rec, pos))
        && Len(rec) < tail.c.size
        && tail.buff[..] == WriteFrags(old(tail.buff[..]), pos, Mate(rec))
    {
      var size := tail.c.size;
      pos := wr;
      var ok := CheckRemoteSize(Len(rec));
      if !ok {
        return -1;
      }
      RbWriteData(Mate(rec), wr);
      wr := Advance(size, wr, MateLen(rec));
      wr := Advance(size, wr, ValueLen(rec));
      tail.wr := wr;
    }

    /** head_node_write_log. */
    method WriteLog(rec: Rec) returns (ok: bool)
      requires Valid()
      modifies this`rdCached, this`wr, this`sending, tail`wr, tail.buff
      ensures Valid() && rdCached == tail.rd
      ensures
        var room := Len(rec) <= FreeSize(tail.c.size, old(wr), tail.rd);
        && (ok <==> room && |old(sending)| < tail.c.queueLen - 1)
        && sending == (if ok then old(sending) + [HeadLog(rec, old(wr))] else old(sending))
        && (!room ==> wr == old(wr) && tail.wr == old(tail.wr) && tail.buff[..] == old(tail.buff[..]))
        && (room ==> wr == tail.wr == NextWr(tail.c.size, HeadLog(rec, old(wr))) && Len(rec) < tail.c.size)
        && (room ==> tail.buff[..] == WriteFrags(old(tail.buff[..]), old(wr), Mate(rec)))
    {
      ok := CheckRemoteSize(Len(rec));
      if ok {
        var pos := RbWriteMate(rec);
        ok := HasRoom(tail.c, sending);
        if ok {
          sending := sending + [HeadLog(rec, pos)];
        }
      }
    }

    /** NIC_thread's loop, until sending_queue is empty: the values go to the places reserved for them. For logs whose
        header and key are in the ring, at consecutive places less than one lap long, every record is then whole, and
        no byte outside their value fields has changed. */
    method NicThread()
      requires Valid()
      requires forall i :: 0 <= i < |sending| ==> Len(sending[i].rec) < tail.c.size
      modifies this`sending, tail.buff
      ensures sending == [] && tail.buff[..] == WriteValues(tail.c, old(tail.buff[..]), old(sending))
      ensures forall u: nat :: Placed(tail.c, old(sending), u) ==>
        && Completed(old(tail.buff[..]), tail.buff[..], old(sending))
        && OnlyValues(old(tail.buff[..]), tail.buff[..], old(sending), u)
    {
      ghost var goal := WriteValues(tail.c, tail.buff[..], sending);
      while sending != []
        invariant Valid()
        invariant forall i :: 0 <= i < |sending| ==> Len(sending[i].rec) < tail.c.size
        invariant goal == WriteValues(tail.c, tail.buff[..], sending)
        decreases |sending|
      {
        var log := sending[0];
        sending := sending[1..];
        RbWriteData(ValueBytes(log.rec), ValuePos(tail.c, log));
      }
      forall u: nat | Placed(tail.c, old(sending), u)
        ensures Completed(old(tail.buff[..]), tail.buff[..], old(sending))
        ensures OnlyValues(old(tail.buff[..]), tail.buff[..], old(sending), u)
      {
        ValuesLand(tail.c, old(tail.buff[..]), old(sending), u);
      }
    }
  }
}
