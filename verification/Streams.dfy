/** Byte sinks that may take data piecemeal or fail, and byte sources that may run dry. */
module Streams {
  import opened Outcomes
  import opened Codec

  /** Success or failure of a write. */
  datatype Status = Done | Failed {
    predicate IsFailure() {
      Failed?
    }

    function PropagateFailure(): Status {
      this
    }
  }

  /** What one call of the underlying writer does: how many bytes it takes at most, and whether it errs. */
  datatype Behaviour = Behaviour(accepted: nat, failed: bool)

  class Writer {
    const plan: nat -> Behaviour
    var calls: nat
    var sink: seq<byte>

    /** What is still to be written; together with the sink it is the goal, which no write changes. */
    ghost var todo: seq<byte>

    constructor (plan: nat -> Behaviour)
      ensures this.plan == plan && sink == [] && calls == 0
    {
      this.plan, calls, sink, todo := plan, 0, [], [];
    }

    /** Every call takes something and none errs. */
    ghost predicate Reliable() {
      forall i :: plan(i).accepted > 0 && !plan(i).failed
    }

    ghost function Goal(): seq<byte>
      reads this
    {
      sink + todo
    }

    /** The underlying writer: any short count, any error, as its plan says. */
    method Write(data: seq<byte>) returns (written: nat, failed: bool)
      modifies `calls, `sink
      ensures written <= |data| && sink == old(sink) + data[..written]
      ensures Reliable() && data != [] ==> written > 0 && !failed
    {
      var step := plan(calls);
      written := if step.accepted < |data| then step.accepted else |data|;
      failed := step.failed;
      sink := sink + data[..written];
      calls := calls + 1;
    }

    /**
     * Keeps writing until all data is taken. On success exactly the data was written; on failure the sink
     * still holds a prefix of the goal.
     */
    method WriteFull(data: seq<byte>, ghost rest: seq<byte>) returns (status: Status)
      requires todo == data + rest
      modifies this
      ensures Goal() == old(Goal()) && |old(sink)| <= |sink|
      ensures status.Done? ==> todo == rest
      ensures Reliable() ==> status.Done?
    {
      var left := data;
      while |left| > 0
        invariant todo == left + rest
        invariant Goal() == old(Goal()) && |old(sink)| <= |sink|
      {
        ghost var before := sink;
        var written, failed := Write(left);
        todo := left[written..] + rest;
        assert left == left[..written] + left[written..];
        assert sink + todo == before + (left + rest);
        if failed {
          return Failed;
        }
        if written == 0 {
          return Failed;
        }
        left := left[written..];
      }
      return Done;
    }

    method WriteUint32(o: ByteOrder, v: int, ghost rest: seq<byte>) returns (status: Status)
      requires todo == o.put32(v) + rest
      modifies this
      ensures Goal() == old(Goal()) && |old(sink)| <= |sink|
      ensures status.Done? ==> todo == rest
      ensures Reliable() ==> status.Done?
    {
      status := WriteFull(o.put32(v), rest);
    }

    method WriteUint64(o: ByteOrder, v: int, ghost rest: seq<byte>) returns (status: Status)
      requires todo == Put64(o, v) + rest
      modifies this
      ensures Goal() == old(Goal()) && |old(sink)| <= |sink|
      ensures status.Done? ==> todo == rest
      ensures Reliable() ==> status.Done?
    {
      status := WriteFull(Put64(o, v), rest);
    }

    method WriteWords(o: ByteOrder, vs: seq<int>, ghost rest: seq<byte>) returns (status: Status)
      requires todo == PutAll(o.put32, vs) + rest
      modifies this
      ensures Goal() == old(Goal()) && |old(sink)| <= |sink|
      ensures status.Done? ==> todo == rest
      ensures Reliable() ==> status.Done?
    {
      assert vs[0..] == vs;
      for i := 0 to |vs|
        invariant todo == PutAll(o.put32, vs[i..]) + rest
        invariant Goal() == old(Goal()) && |old(sink)| <= |sink|
      {
        PutAllCons(o.put32, vs[i..]);
        assert vs[i..][1..] == vs[i + 1..];
        ghost var after := PutAll(o.put32, vs[i + 1..]) + rest;
        assert todo == o.put32(vs[i]) + after;
        :- WriteUint32(o, vs[i], after);
      }
      return Done;
    }
  }

  /** A source of bytes; an input that errs midway is one that ends there. */
  class Reader {
    var rest: seq<byte>

    constructor (bytes: seq<byte>)
      ensures rest == bytes
    {
      rest := bytes;
    }

    /** Exactly n bytes, or failure with the source exhausted. */
    method ReadFull(n: nat) returns (data: Option<seq<byte>>)
      modifies this
      ensures if |old(rest)| < n then data == None && rest == []
              else data == Some(old(rest)[..n]) && rest == old(rest)[n..]
    {
      if |rest| < n {
        rest := [];
        return None;
      }
      data := Some(rest[..n]);
      rest := rest[n..];
    }

    method ReadUint32(ghost o: ByteOrder) returns (v: Option<int>)
      requires o == LittleEndian()
      modifies this
      ensures Matches(v, rest, o.take32(old(rest)))
      ensures v.Some? ==> 0 <= v.value < WORD
    {
      var buf :- ReadFull(4);
      return Some(Word(buf[0], buf[1], buf[2], buf[3]));
    }
  }

  // ---------- bounded and wide words ----------

  method ReadAtMost(r: Reader, ghost o: ByteOrder, max: int) returns (v: Option<int>)
    requires o == LittleEndian()
    modifies r
    ensures Matches(v, r.rest, TakeAtMost(o, old(r.rest), max))
    ensures v.Some? ==> 0 <= v.value
  {
    var word :- r.ReadUint32(o);
    return if word > max then None else Some(word);
  }

  method ReadPositive(r: Reader, ghost o: ByteOrder, max: int) returns (v: Option<int>)
    requires o == LittleEndian()
    modifies r
    ensures Matches(v, r.rest, TakePositive(o, old(r.rest), max))
    ensures v.Some? ==> 0 < v.value
  {
    var word :- r.ReadUint32(o);
    if word == 0 {
      return None;
    }
    return if word > max then None else Some(word);
  }

  method ReadUint64(r: Reader, ghost o: ByteOrder) returns (v: Option<int>)
    requires o == LittleEndian()
    modifies r
    ensures Matches(v, r.rest, Take64(o, old(r.rest)))
    ensures v.Some? ==> 0 <= v.value < LONG
  {
    var lo :- r.ReadUint32(o);
    var hi :- r.ReadUint32(o);
    return Some(lo + WORD * hi);
  }

  /** A result and the bytes left behind it are what the specification reads; failures agree. */
  predicate Matches<T(==)>(out: Option<T>, rest: seq<byte>, spec: Read<T>) {
    match spec
    case None => out == None
    case Some((value, left)) => out == Some(value) && rest == left
  }
}
