/** Little-endian words and word lists, as byte sequences and back. */
module Codec {
  import opened Outcomes

  type byte = x: int | 0 <= x < 0x100

  const WORD: int := 0x1_0000_0000
  const LONG: int := 0x1_0000_0000_0000_0000

  // ---------- 32-bit words ----------

  function U32(v: int): (s: seq<byte>)
    requires 0 <= v < WORD
    ensures |s| == 4
  {
    [v % 0x100, v / 0x100 % 0x100, v / 0x1_0000 % 0x100, v / 0x100_0000]
  }

  function Word(a: byte, b: byte, c: byte, d: byte): (v: int)
    ensures 0 <= v < WORD
  {
    a + 0x100 * b + 0x1_0000 * c + 0x100_0000 * d
  }

  lemma WordOfBytes(v: int)
    requires 0 <= v < WORD
    ensures var s := U32(v); Word(s[0], s[1], s[2], s[3]) == v
  {
    var a, b, c := v / 0x100, v / 0x1_0000, v / 0x100_0000;
    assert b == a / 0x100 && c == b / 0x100;
  }

  lemma BytesOfWord(a: byte, b: byte, c: byte, d: byte)
    ensures U32(Word(a, b, c, d)) == [a, b, c, d]
  {
    var v := Word(a, b, c, d);
    ByteBelow(a, b + 0x100 * c + 0x1_0000 * d, 0x100);
    ByteBelow(b, c + 0x100 * d, 0x100);
    ByteBelow(c, d, 0x100);
    ByteBelow(a + 0x100 * b, c + 0x100 * d, 0x1_0000);
    ByteBelow(a + 0x100 * b + 0x1_0000 * c, d, 0x100_0000);
  }

  /** Splitting a number at a place value. */
  lemma ByteBelow(low: int, high: int, place: int)
    requires 0 <= low < place && (place == 0x100 || place == 0x1_0000 || place == 0x100_0000)
    ensures (low + place * high) / place == high && (low + place * high) % place == low
  {
  }

  /** A value read off the front of the input, and what is left. */
  type Read<T> = Option<(T, seq<byte>)>

  function TakeU32(s: seq<byte>): (r: Read<int>)
    ensures r.Some? ==> 0 <= r.value.0 < WORD
  {
    if |s| < 4 then None else Some((Word(s[0], s[1], s[2], s[3]), s[4..]))
  }

  /** Reading after writing gives the value back, and nothing else reads as it. */
  lemma U32Bijection(s: seq<byte>, v: int, rest: seq<byte>)
    requires 0 <= v < WORD
    ensures TakeU32(s) == Some((v, rest)) <==> s == U32(v) + rest
  {
    WordOfBytes(v);
    if TakeU32(s) == Some((v, rest)) {
      BytesOfWord(s[0], s[1], s[2], s[3]);
      assert s == [s[0], s[1], s[2], s[3]] + s[4..];
    }
    if s == U32(v) + rest {
      assert s[4..] == rest;
    }
  }

  // ---------- signed words, two's complement ----------

  function ToU32(v: int): (u: int)
    ensures 0 <= u < WORD
  {
    v % WORD
  }

  function ToI32(u: int): (v: int)
    requires 0 <= u < WORD
    ensures -0x8000_0000 <= v < 0x8000_0000 && ToU32(v) == u
  {
    if u < 0x8000_0000 then u else u - WORD
  }

  function ToU64(v: int): (u: int)
    ensures 0 <= u < LONG
  {
    v % LONG
  }

  function ToI64(u: int): (v: int)
    requires 0 <= u < LONG
    ensures -0x8000_0000_0000_0000 <= v < 0x8000_0000_0000_0000 && ToU64(v) == u
  {
    if u < 0x8000_0000_0000_0000 then u else u - LONG
  }

  // ---------- byte orders ----------

  /** How 32-bit words are laid out. Writing converts to the unsigned word first, as the source does. */
  datatype ByteOrder = ByteOrder(put32: int -> seq<byte>, take32: seq<byte> -> Read<int>)

  function Put32(v: int): seq<byte> {
    U32(ToU32(v))
  }

  function LittleEndian(): ByteOrder {
    ByteOrder(Put32, TakeU32)
  }

  /** Reading back what was written. */
  ghost predicate Retracts(o: ByteOrder) {
    forall v, rest :: 0 <= v < WORD ==> o.take32(o.put32(v) + rest) == Some((v, rest))
  }

  /** Reading only what can have been written. */
  ghost predicate Exact(o: ByteOrder) {
    forall s :: o.take32(s).Some? ==>
      0 <= o.take32(s).value.0 < WORD && s == o.put32(o.take32(s).value.0) + o.take32(s).value.1
  }

  /** Writing and reading a word are inverse. */
  ghost predicate Lawful(o: ByteOrder) {
    Retracts(o) && Exact(o)
  }

  lemma SameWord(v: int)
    requires 0 <= v < WORD
    ensures ToU32(v) == v
  {
  }

  lemma TakePut32(v: int, rest: seq<byte>)
    requires 0 <= v < WORD
    ensures TakeU32(Put32(v) + rest) == Some((v, rest))
  {
    hide ToU32, U32, TakeU32;
    SameWord(v);
    U32Bijection(U32(v) + rest, v, rest);
  }

  lemma PutTake32(s: seq<byte>)
    requires TakeU32(s).Some?
    ensures s == Put32(TakeU32(s).value.0) + TakeU32(s).value.1
  {
    hide ToU32, U32, TakeU32;
    var v := TakeU32(s).value.0;
    SameWord(v);
    U32Bijection(s, v, TakeU32(s).value.1);
  }

  lemma LittleEndianRetracts()
    ensures Retracts(LittleEndian())
  {
    forall v: int, rest: seq<byte> | 0 <= v < WORD
      ensures TakeU32(Put32(v) + rest) == Some((v, rest))
    {
      TakePut32(v, rest);
    }
  }

  /** Words are four bytes wide, and four bytes always hold a word. */
  ghost predicate FixedWidth(o: ByteOrder) {
    (forall v :: |o.put32(v)| == 4) && (forall s :: |s| >= 4 ==> o.take32(s).Some?)
  }

  lemma LittleEndianIsFixedWidth()
    ensures FixedWidth(LittleEndian())
  {
    forall v
      ensures |Put32(v)| == 4
    {
    }
  }

  lemma LittleEndianExact()
    ensures Exact(LittleEndian())
  {
    forall s: seq<byte> | TakeU32(s).Some?
      ensures s == Put32(TakeU32(s).value.0) + TakeU32(s).value.1
    {
      PutTake32(s);
    }
  }

  /** The format's byte order reads back exactly what it writes, and nothing else. */
  lemma LittleEndianIsLawful()
    ensures Lawful(LittleEndian())
  {
    LittleEndianRetracts();
    LittleEndianExact();
  }

  lemma Take32Put(o: ByteOrder, v: int, rest: seq<byte>)
    requires Lawful(o) && 0 <= v < WORD
    ensures o.take32(o.put32(v) + rest) == Some((v, rest))
  {
  }

  lemma Put32Take(o: ByteOrder, s: seq<byte>)
    requires Lawful(o) && o.take32(s).Some?
    ensures 0 <= o.take32(s).value.0 < WORD && s == o.put32(o.take32(s).value.0) + o.take32(s).value.1
  {
  }

  // ---------- 64-bit words, low word first ----------

  function Put64(o: ByteOrder, v: int): seq<byte> {
    o.put32(ToU64(v) % WORD) + o.put32(ToU64(v) / WORD)
  }

  function Take64(o: ByteOrder, s: seq<byte>): Read<int> {
    var (lo, s1) :- o.take32(s);
    var (hi, s2) :- o.take32(s1);
    Some((lo + WORD * hi, s2))
  }

  lemma HalvesOf(lo: int, hi: int)
    requires 0 <= lo < WORD && 0 <= hi < WORD
    ensures var v := lo + WORD * hi; 0 <= v < LONG && v % WORD == lo && v / WORD == hi && ToU64(v) == v
  {
  }

  lemma Take64Put(o: ByteOrder, v: int, rest: seq<byte>)
    requires Lawful(o) && 0 <= v < LONG
    ensures Take64(o, Put64(o, v) + rest) == Some((v, rest))
  {
    var lo, hi := v % WORD, v / WORD;
    assert ToU64(v) == v;
    assert Put64(o, v) + rest == o.put32(lo) + (o.put32(hi) + rest);
    Take32Put(o, lo, o.put32(hi) + rest);
    Take32Put(o, hi, rest);
  }

  lemma Put64Take(o: ByteOrder, s: seq<byte>)
    requires Lawful(o) && Take64(o, s).Some?
    ensures var (v, rest) := Take64(o, s).value; 0 <= v < LONG && s == Put64(o, v) + rest
  {
    var (lo, s1) := o.take32(s).value;
    var (hi, rest) := o.take32(s1).value;
    Put32Take(o, s);
    Put32Take(o, s1);
    HalvesOf(lo, hi);
    assert s == o.put32(lo) + o.put32(hi) + rest;
  }

  predicate IsInt64(v: int) {
    -0x8000_0000_0000_0000 <= v < 0x8000_0000_0000_0000
  }

  /** The signed reading of a 64-bit word; total, although only words are ever read. */
  function Signed64(bits: int): int {
    if 0 <= bits < LONG then ToI64(bits) else 0
  }

  lemma SignedSurvives(v: int)
    requires IsInt64(v)
    ensures Signed64(ToU64(v)) == v
  {
  }

  lemma Put64Wraps(o: ByteOrder, v: int)
    ensures Put64(o, v) == Put64(o, ToU64(v))
  {
  }

  function TakeLong(o: ByteOrder, s: seq<byte>): Read<int> {
    var (bits, rest) :- Take64(o, s);
    Some((Signed64(bits), rest))
  }

  lemma TakeLongPut(o: ByteOrder, v: int, rest: seq<byte>)
    requires Lawful(o) && IsInt64(v)
    ensures TakeLong(o, Put64(o, v) + rest) == Some((v, rest))
  {
    Put64Wraps(o, v);
    SignedSurvives(v);
    Take64Put(o, ToU64(v), rest);
  }

  lemma PutLongTake(o: ByteOrder, s: seq<byte>)
    requires Lawful(o) && TakeLong(o, s).Some?
    ensures var (v, rest) := TakeLong(o, s).value; IsInt64(v) && s == Put64(o, v) + rest
  {
    Put64Take(o, s);
    var (bits, rest) := Take64(o, s).value;
    assert ToU64(Signed64(bits)) == bits;
    Put64Wraps(o, Signed64(bits));
  }

  // ---------- bounded words ----------

  /** A word no larger than `max`. */
  function TakeAtMost(o: ByteOrder, s: seq<byte>, max: int): (r: Read<int>)
    ensures r.Some? ==> r.value.0 <= max
  {
    var (v, rest) :- o.take32(s);
    if v > max then None else Some((v, rest))
  }

  /** A positive word no larger than `max`. */
  function TakePositive(o: ByteOrder, s: seq<byte>, max: int): (r: Read<int>)
    ensures r.Some? ==> r.value.0 <= max && r.value.0 != 0
  {
    var (v, rest) :- TakeAtMost(o, s, max);
    if v == 0 then None else Some((v, rest))
  }

  lemma AtMostPut(o: ByteOrder, v: int, max: int, rest: seq<byte>)
    requires Lawful(o) && 0 <= v <= max && v < WORD
    ensures TakeAtMost(o, o.put32(v) + rest, max) == Some((v, rest))
    ensures v > 0 ==> TakePositive(o, o.put32(v) + rest, max) == Some((v, rest))
  {
    Take32Put(o, v, rest);
  }

  lemma PutAtMost(o: ByteOrder, s: seq<byte>, max: int)
    requires Lawful(o) && TakeAtMost(o, s, max).Some?
    ensures var (v, rest) := TakeAtMost(o, s, max).value; 0 <= v <= max && v < WORD && s == o.put32(v) + rest
  {
    Put32Take(o, s);
  }

  // ---------- lists ----------

  /** Items written one after another. */
  function PutAll<T>(put: T -> seq<byte>, xs: seq<T>): seq<byte> {
    if xs == [] then [] else PutAll(put, xs[..|xs| - 1]) + put(xs[|xs| - 1])
  }

  lemma PutAllSnoc<T>(put: T -> seq<byte>, xs: seq<T>, x: T)
    ensures PutAll(put, xs + [x]) == PutAll(put, xs) + put(x)
  {
    assert (xs + [x])[..|xs|] == xs;
  }

  lemma {:induction false} PutAllCons<T>(put: T -> seq<byte>, xs: seq<T>)
    requires xs != []
    ensures PutAll(put, xs) == put(xs[0]) + PutAll(put, xs[1..])
  {
    var front, last := xs[..|xs| - 1], xs[|xs| - 1];
    if front != [] {
      PutAllCons(put, front);
      assert xs[1..][..|xs| - 2] == front[1..];
    }
  }

  /** n items read one after another; an item's reader may depend on its position. */
  function TakeAll<T>(take: (seq<byte>, nat) -> Read<T>, s: seq<byte>, n: nat): (r: Read<seq<T>>)
    ensures r.Some? ==> |r.value.0| == n
  {
    if n == 0 then Some(([], s))
    else
      var (xs, s1) :- TakeAll(take, s, n - 1);
      var (x, s2) :- take(s1, n - 1);
      Some((xs + [x], s2))
  }

  /** The item x reads back at position i, whatever follows. */
  ghost predicate ReadsBack<T(!new)>(put: T -> seq<byte>, take: (seq<byte>, nat) -> Read<T>, x: T, i: nat) {
    forall rest :: take(put(x) + rest, i) == Some((x, rest))
  }

  /** Whatever is read at position i was written by `put` and is acceptable there. */
  ghost predicate ReadsOnly<T(!new)>(
      put: T -> seq<byte>, take: (seq<byte>, nat) -> Read<T>, good: (T, nat) -> bool, i: nat)
  {
    forall s :: take(s, i).Some? ==>
      s == put(take(s, i).value.0) + take(s, i).value.1 && good(take(s, i).value.0, i)
  }

  lemma {:induction false} AllComplete<T(!new)>(
      put: T -> seq<byte>, take: (seq<byte>, nat) -> Read<T>, xs: seq<T>, rest: seq<byte>)
    requires forall i :: 0 <= i < |xs| ==> ReadsBack(put, take, xs[i], i)
    ensures TakeAll(take, PutAll(put, xs) + rest, |xs|) == Some((xs, rest))
  {
    if xs == [] {
      assert PutAll(put, xs) + rest == rest;
    } else {
      var front, last := xs[..|xs| - 1], xs[|xs| - 1];
      AllComplete(put, take, front, put(last) + rest);
      assert PutAll(put, xs) + rest == PutAll(put, front) + (put(last) + rest);
      assert ReadsBack(put, take, last, |xs| - 1);
      assert xs == front + [last];
    }
  }

  lemma {:induction false} AllSound<T(!new)>(
      put: T -> seq<byte>, take: (seq<byte>, nat) -> Read<T>, good: (T, nat) -> bool, s: seq<byte>, n: nat)
    requires TakeAll(take, s, n).Some?
    requires forall i :: 0 <= i < n ==> ReadsOnly(put, take, good, i)
    ensures var (xs, rest) := TakeAll(take, s, n).value;
            s == PutAll(put, xs) + rest && forall i :: 0 <= i < n ==> good(xs[i], i)
  {
    if n > 0 {
      var (front, s1) := TakeAll(take, s, n - 1).value;
      var (x, s2) := take(s1, n - 1).value;
      AllSound(put, take, good, s, n - 1);
      assert ReadsOnly(put, take, good, n - 1);
      assert (front + [x])[..n - 1] == front;
      assert s == PutAll(put, front) + (put(x) + s2);
    }
  }

  /** The item x is refused at position i, whatever follows. */
  ghost predicate Refuses<T(!new)>(put: T -> seq<byte>, take: (seq<byte>, nat) -> Read<T>, x: T, i: nat) {
    forall rest :: take(put(x) + rest, i) == None
  }

  /** One refused item among readable ones fails the whole list. */
  lemma {:induction false} OneRefused<T(!new)>(
      put: T -> seq<byte>, take: (seq<byte>, nat) -> Read<T>, xs: seq<T>, bad: nat, rest: seq<byte>)
    requires forall i :: 0 <= i < |xs| ==> ReadsBack(put, take, xs[i], i) || Refuses(put, take, xs[i], i)
    requires bad < |xs| && Refuses(put, take, xs[bad], bad)
    ensures TakeAll(take, PutAll(put, xs) + rest, |xs|) == None
  {
    var front, last := xs[..|xs| - 1], xs[|xs| - 1];
    assert PutAll(put, xs) + rest == PutAll(put, front) + (put(last) + rest);
    if i :| 0 <= i < |front| && Refuses(put, take, front[i], i) {
      OneRefused(put, take, front, i, put(last) + rest);
    } else {
      AllComplete(put, take, front, put(last) + rest);
    }
  }

  /** A failed prefix fails the whole list. */
  lemma {:induction false} AllFails<T>(take: (seq<byte>, nat) -> Read<T>, s: seq<byte>, i: nat, n: nat)
    requires i <= n && TakeAll(take, s, i) == None
    ensures TakeAll(take, s, n) == None
  {
    if i < n {
      AllFails(take, s, i, n - 1);
    }
  }

  /** The first items of a longer list are what a shorter read gives. */
  lemma {:induction false} AllPrefix<T>(take: (seq<byte>, nat) -> Read<T>, s: seq<byte>, i: nat, n: nat)
    requires i <= n && TakeAll(take, s, n).Some?
    ensures TakeAll(take, s, i).Some? && TakeAll(take, s, i).value.0 == TakeAll(take, s, n).value.0[..i]
  {
    if i < n {
      AllPrefix(take, s, i, n - 1);
    }
  }

  // ---------- word lists ----------

  function WordReader(o: ByteOrder, max: int): (seq<byte>, nat) -> Read<int> {
    (s: seq<byte>, i: nat) => TakeAtMost(o, s, max)
  }

  function UpToMax(max: int): (int, nat) -> bool {
    (v: int, i: nat) => 0 <= v <= max && v < WORD
  }

  lemma WordsComplete(o: ByteOrder, vs: seq<int>, max: int, rest: seq<byte>)
    requires Lawful(o) && forall i :: 0 <= i < |vs| ==> 0 <= vs[i] <= max && vs[i] < WORD
    ensures TakeAll(WordReader(o, max), PutAll(o.put32, vs) + rest, |vs|) == Some((vs, rest))
  {
    forall i | 0 <= i < |vs|
      ensures ReadsBack(o.put32, WordReader(o, max), vs[i], i)
    {
      forall rest
        ensures WordReader(o, max)(o.put32(vs[i]) + rest, i) == Some((vs[i], rest))
      {
        AtMostPut(o, vs[i], max, rest);
      }
    }
    AllComplete(o.put32, WordReader(o, max), vs, rest);
  }

  lemma WordsSound(o: ByteOrder, s: seq<byte>, n: nat, max: int)
    requires Lawful(o) && TakeAll(WordReader(o, max), s, n).Some?
    ensures var (vs, rest) := TakeAll(WordReader(o, max), s, n).value;
            s == PutAll(o.put32, vs) + rest && forall i :: 0 <= i < n ==> 0 <= vs[i] <= max && vs[i] < WORD
  {
    var take, good := WordReader(o, max), UpToMax(max);
    forall i | 0 <= i < n
      ensures ReadsOnly(o.put32, take, good, i)
    {
      forall t | take(t, i).Some?
        ensures t == o.put32(take(t, i).value.0) + take(t, i).value.1 && good(take(t, i).value.0, i)
      {
        PutAtMost(o, t, max);
      }
    }
    AllSound(o.put32, take, good, s, n);
    var (vs, rest) := TakeAll(take, s, n).value;
    forall i | 0 <= i < n
      ensures 0 <= vs[i] <= max && vs[i] < WORD
    {
      assert good(vs[i], i);
    }
  }
}
