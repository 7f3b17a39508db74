/** Where the NIC's writes land: the value fields of the queued logs, and nowhere else. */
module ValueWrites {
  import opened Bits
  import opened Ring
  import opened Layout
  import opened Replication

  /** The buffer after the values of `logs` have been transferred, first to last. */
  function WriteValues(c: Config, buf: seq<byte>, logs: seq<HeadLog>): seq<byte>
    requires c.size > 0 && |buf| == c.size
    requires forall i :: 0 <= i < |logs| ==> Len(logs[i].rec) < c.size
    decreases |logs|
  {
    if logs == [] then buf else
    assert Len(logs[0].rec) < c.size;
    WriteValues(c, WriteFrags(buf, ValuePos(c, logs[0]), ValueBytes(logs[0].rec)), logs[1..])
  }

  /** The logs' places are reserved one behind the other from counter `u` on, less than one lap in all. */
  ghost predicate Placed(c: Config, logs: seq<HeadLog>, u: nat) {
    IsPow2(c.size) && c.size > 0 && c.header >= META && Chained(c, logs, u) && Total(logs) < c.size
  }

  ghost predicate Chained(c: Config, logs: seq<HeadLog>, u: nat)
    requires c.size > 0
    decreases |logs|
  {
    logs == [] || (&& Points(c.size, logs[0].pos, u) && ValidRec(c, logs[0].rec)
                   && Chained(c, logs[1..], u + Len(logs[0].rec)))
  }

  function Total(logs: seq<HeadLog>): nat {
    if logs == [] then 0 else Len(logs[0].rec) + Total(logs[1..])
  }

  /** Counter at which log `i` starts. */
  function PlaceOf(logs: seq<HeadLog>, u: nat, i: nat): nat
    requires i < |logs|
  {
    if i == 0 then u else PlaceOf(logs[1..], u + Len(logs[0].rec), i - 1)
  }

  /** Counter `v` belongs to the value field of log `i`. */
  predicate InValue(logs: seq<HeadLog>, u: nat, i: nat, v: nat)
    requires i < |logs|
  {
    var p, r := PlaceOf(logs, u, i), logs[i].rec;
    p + MateLen(r) <= v < p + Len(r)
  }

  /** A log whose header and key were in the ring is there whole. */
  ghost predicate Completed(before: seq<byte>, after: seq<byte>, logs: seq<HeadLog>)
  {
    && |after| == |before|
    && forall i :: 0 <= i < |logs| && |before| > 0
         && Window(before, logs[i].pos, MateLen(logs[i].rec)) == Mate(logs[i].rec)
         ==> Window(after, logs[i].pos, Len(logs[i].rec)) == Encode(logs[i].rec)
  }

  /** Outside the value fields nothing has changed. */
  ghost predicate OnlyValues(before: seq<byte>, after: seq<byte>, logs: seq<HeadLog>, u: nat)
  {
    && |after| == |before|
    && forall v :: u <= v < u + |before| && (forall i :: 0 <= i < |logs| ==> !InValue(logs, u, i, v))
         ==> after[Slot(|before|, v)] == before[Slot(|before|, v)]
  }

  /** One value, on the counters of one lap from `lo` on. */
  lemma OneValue(c: Config, buf: seq<byte>, log: HeadLog, u: nat, lo: nat, v: nat)
    requires IsPow2(c.size) && c.size == |buf| > 0 && c.header >= META && Points(c.size, log.pos, u)
    requires ValidRec(c, log.rec) && lo <= u && u + Len(log.rec) <= lo + c.size && lo <= v < lo + c.size
    requires Len(log.rec) < c.size
    ensures
      var w, m := WriteFrags(buf, ValuePos(c, log), ValueBytes(log.rec)), MateLen(log.rec);
      w[Slot(c.size, v)]
        == if u + m <= v < u + Len(log.rec) then ValueBytes(log.rec)[v - u - m] else buf[Slot(c.size, v)]
  {
    hide WriteFrags, Slot, Wrap, ValueBytes, NulFree;
    var m, at := MateLen(log.rec), ValuePos(c, log);
    WrapAdd(c.size, log.pos, u, m);
    SlotIdem(c.size, u + m);
    var k := if v >= u + m then v - u - m else v + c.size - u - m;
    WriteAt(buf, at, ValueBytes(log.rec), k);
    SlotAdd(c.size, at, u + m, k);
    if v < u + m {
      OneLap(c.size, v);
    }
  }

  lemma OneLap(size: nat, u: nat)
    requires size > 0
    ensures Slot(size, u + size) == Slot(size, u)
  {
  }

  /** The byte of counter `v` once all values are written: the value's in a value field, elsewhere the old one. */
  function ByteAfter(was: byte, logs: seq<HeadLog>, u: nat, v: nat): byte
    decreases |logs|
  {
    if logs == [] then was else
    var r := logs[0].rec;
    if u + MateLen(r) <= v < u + Len(r) then ValueBytes(r)[v - u - MateLen(r)]
    else ByteAfter(was, logs[1..], u + Len(r), v)
  }

  lemma {:induction false} Below(was: byte, logs: seq<HeadLog>, u: nat, v: nat)
    requires v < u
    ensures ByteAfter(was, logs, u, v) == was
    decreases |logs|
  {
    if logs != [] {
      Below(was, logs[1..], u + Len(logs[0].rec), v);
    }
  }

  lemma {:induction false} WriteIs(c: Config, buf: seq<byte>, logs: seq<HeadLog>, u: nat, lo: nat, v: nat)
    requires IsPow2(c.size) && c.size == |buf| > 0 && c.header >= META && Chained(c, logs, u)
    requires lo <= u && u + Total(logs) <= lo + c.size && lo <= v < lo + c.size
    requires forall i :: 0 <= i < |logs| ==> Len(logs[i].rec) < c.size
    ensures |WriteValues(c, buf, logs)| == |buf|
    ensures WriteValues(c, buf, logs)[Slot(c.size, v)] == ByteAfter(buf[Slot(c.size, v)], logs, u, v)
    decreases |logs|
  {
    hide WriteFrags, Slot, Wrap, ValidRec, Points, IsPow2;
    if logs != [] {
      var r := logs[0].rec;
      assert Len(r) < c.size;
      OneValue(c, buf, logs[0], u, lo, v);
      var buf1 := WriteFrags(buf, ValuePos(c, logs[0]), ValueBytes(r));
      WriteIs(c, buf1, logs[1..], u + Len(r), lo, v);
      if v < u + Len(r) {
        Below(buf1[Slot(c.size, v)], logs[1..], u + Len(r), v);
        Below(buf[Slot(c.size, v)], logs[1..], u + Len(r), v);
      }
    }
  }

  /** The bytes of log `i` on its counters. */
  lemma {:induction false} ByteOfLog(c: Config, was: byte, logs: seq<HeadLog>, u: nat, i: nat, j: nat)
    requires i < |logs| && c.size > 0 && Chained(c, logs, u) && j < Len(logs[i].rec)
    ensures Points(c.size, logs[i].pos, PlaceOf(logs, u, i)) && u <= PlaceOf(logs, u, i)
    ensures PlaceOf(logs, u, i) + Len(logs[i].rec) <= u + Total(logs)
    ensures
      var r := logs[i].rec;
      ByteAfter(was, logs, u, PlaceOf(logs, u, i) + j)
        == if j < MateLen(r) then was else ValueBytes(r)[j - MateLen(r)]
    decreases |logs|
  {
    hide Points, ValidRec, ValueBytes, Slot;
    var r := logs[0].rec;
    if i == 0 {
      if j < MateLen(r) {
        Below(was, logs[1..], u + Len(r), u + j);
      }
    } else {
      ByteOfLog(c, was, logs[1..], u + Len(r), i - 1, j);
    }
  }

  lemma {:induction false} OutsideIsOld(was: byte, logs: seq<HeadLog>, u: nat, v: nat)
    requires forall i :: 0 <= i < |logs| ==> !InValue(logs, u, i, v)
    ensures ByteAfter(was, logs, u, v) == was
    decreases |logs|
  {
    hide Len, MateLen, ValueBytes;
    if logs != [] {
      assert !InValue(logs, u, 0, v);
      var rest, next := logs[1..], u + Len(logs[0].rec);
      forall i | 0 <= i < |rest| ensures !InValue(rest, next, i, v) {
        assert !InValue(logs, u, i + 1, v);
      }
      OutsideIsOld(was, rest, next, v);
    }
  }

  lemma LogLands(c: Config, buf: seq<byte>, logs: seq<HeadLog>, u: nat, i: nat)
    requires Placed(c, logs, u) && |buf| == c.size && i < |logs|
    requires forall i :: 0 <= i < |logs| ==> Len(logs[i].rec) < c.size
    requires Window(buf, logs[i].pos, MateLen(logs[i].rec)) == Mate(logs[i].rec)
    ensures |WriteValues(c, buf, logs)| == |buf|
    ensures Window(WriteValues(c, buf, logs), logs[i].pos, Len(logs[i].rec)) == Encode(logs[i].rec)
  {
    hide Slot, WriteValues, ByteAfter, Chained, Total, PlaceOf, Mate, ValueBytes, IsPow2;
    var w, log := WriteValues(c, buf, logs), logs[i];
    var p, r := PlaceOf(logs, u, i), log.rec;
    WriteIs(c, buf, logs, u, u, u);
    var found, whole := Window(w, log.pos, Len(r)), Encode(r);
    forall j | 0 <= j < Len(r) ensures found[j] == whole[j] {
      var v := p + j;
      ByteOfLog(c, buf[Slot(c.size, v)], logs, u, i, j);
      WriteIs(c, buf, logs, u, u, v);
      SlotAdd(c.size, log.pos, p, j);
      if j < MateLen(r) {
        assert Window(buf, log.pos, MateLen(r))[j] == Mate(r)[j];
      }
    }
  }

  /** For logs at consecutive reserved places, less than one lap long: all records end up whole, and no byte outside
      their value fields changes. */
  lemma ValuesLand(c: Config, buf: seq<byte>, logs: seq<HeadLog>, u: nat)
    requires Placed(c, logs, u) && |buf| == c.size
    requires forall i :: 0 <= i < |logs| ==> Len(logs[i].rec) < c.size
    ensures Completed(buf, WriteValues(c, buf, logs), logs)
    ensures OnlyValues(buf, WriteValues(c, buf, logs), logs, u)
  {
    hide Slot, WriteValues, ByteAfter, Chained, Total, PlaceOf, Mate, Encode, InValue, IsPow2, Window, Len, MateLen;
    var w := WriteValues(c, buf, logs);
    WriteIs(c, buf, logs, u, u, u);
    forall i | 0 <= i < |logs| && Window(buf, logs[i].pos, MateLen(logs[i].rec)) == Mate(logs[i].rec)
      ensures Window(w, logs[i].pos, Len(logs[i].rec)) == Encode(logs[i].rec)
    {
      LogLands(c, buf, logs, u, i);
    }
    forall v | u <= v < u + c.size && (forall i :: 0 <= i < |logs| ==> !InValue(logs, u, i, v))
      ensures w[Slot(c.size, v)] == buf[Slot(c.size, v)]
    {
      WriteIs(c, buf, logs, u, u, v);
      OutsideIsOld(buf[Slot(c.size, v)], logs, u, v);
    }
  }
}
