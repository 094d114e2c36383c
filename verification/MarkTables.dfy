/** Generation-stamped membership tables and the finite sets they stand for. */
module MarkTables {
  import opened Order

  type uint32 = x: int | 0 <= x < 0x1_0000_0000

  /** `store` is the whole backing array, `len` the slice length, `mark` the current generation. */
  datatype Table = Table(store: seq<uint32>, len: nat, mark: uint32)

  datatype Op = Reserve(count: nat) | ReserveExact(count: nat) | Reset | Mark(id: nat)

  predicate Valid(t: Table) {
    t.len <= |t.store| && forall i :: 0 <= i < |t.store| ==> t.store[i] <= t.mark
  }

  function Zeros(n: nat): (s: seq<uint32>)
    ensures |s| == n && forall i :: 0 <= i < n ==> s[i] == 0
  {
    seq(n, _ => 0)
  }

  /** The search scratch keeps a large enough backing array and only reslices it. */
  function ReserveTable(t: Table, count: nat): Table {
    if |t.store| < count then Table(Zeros(count), count, 0) else t.(len := count)
  }

  /** The id collector reallocates whenever the length differs. */
  function ReserveExactTable(t: Table, count: nat): Table {
    if t.len != count then Table(Zeros(count), count, 0) else t
  }

  /** A new generation; the backing array is cleared only when the 32-bit stamp wraps to zero. */
  function ResetTable(t: Table): Table {
    var mark: uint32 := (t.mark + 1) % 0x1_0000_0000;
    if mark == 0 then Table(Zeros(|t.store|), t.len, 1) else t.(mark := mark)
  }

  function MarkTable(t: Table, id: nat): Table
    requires id < |t.store|
  {
    t.(store := t.store[id := t.mark])
  }

  predicate IsMarked(t: Table, id: nat)
    requires id < |t.store|
  {
    t.store[id] == t.mark
  }

  /** What a table means: a capacity, a visible length, and a set. */
  datatype View = View(cap: nat, len: nat, members: set<int>)

  ghost function Members(t: Table): (s: set<int>)
    ensures forall i :: i in s <==> 0 <= i < |t.store| && t.store[i] == t.mark
  {
    set i | 0 <= i < |t.store| && t.store[i] == t.mark
  }

  ghost function ViewOf(t: Table): View {
    View(|t.store|, t.len, Members(t))
  }

  function AllocatedView(count: nat): View {
    View(count, count, Range(count))
  }

  /** The same operations on sets. A fresh table means everything until its first reset. */
  function StepView(v: View, op: Op): View {
    match op
    case Reserve(count) => if v.cap < count then AllocatedView(count) else v.(len := count)
    case ReserveExact(count) => if v.len != count then AllocatedView(count) else v
    case Reset => v.(members := {})
    case Mark(id) => v.(members := v.members + {id})
  }

  predicate Allowed(t: Table, op: Op) {
    op.Mark? ==> op.id < t.len
  }

  function StepTable(t: Table, op: Op): Table
    requires Valid(t) && Allowed(t, op)
  {
    match op
    case Reserve(count) => ReserveTable(t, count)
    case ReserveExact(count) => ReserveExactTable(t, count)
    case Reset => ResetTable(t)
    case Mark(id) => MarkTable(t, id)
  }

  lemma ZerosMeansAll(count: nat)
    ensures ViewOf(Table(Zeros(count), count, 0)) == AllocatedView(count)
  {
    assert Members(Table(Zeros(count), count, 0)) == Range(count);
  }

  /** One operation on the table is the same operation on the set it stands for. */
  lemma StepRefines(t: Table, op: Op)
    requires Valid(t) && Allowed(t, op)
    ensures Valid(StepTable(t, op))
    ensures ViewOf(StepTable(t, op)) == StepView(ViewOf(t), op)
  {
    match op
    case Reserve(count) =>
      ZerosMeansAll(count);
      assert Members(t.(len := count)) == Members(t);
    case ReserveExact(count) =>
      ZerosMeansAll(count);
    case Reset =>
      assert Members(ResetTable(t)) == {};
    case Mark(id) =>
      assert Members(MarkTable(t, id)) == Members(t) + {id};
  }

  ghost predicate AllowedRun(t: Table, ops: seq<Op>)
    requires Valid(t)
    decreases |ops|
  {
    ops == [] || (Allowed(t, ops[0]) && (StepRefines(t, ops[0]); AllowedRun(StepTable(t, ops[0]), ops[1..])))
  }

  ghost function RunTable(t: Table, ops: seq<Op>): Table
    requires Valid(t) && AllowedRun(t, ops)
    decreases |ops|
  {
    if ops == [] then t
    else
      StepRefines(t, ops[0]);
      RunTable(StepTable(t, ops[0]), ops[1..])
  }

  function RunView(v: View, ops: seq<Op>): View
    decreases |ops|
  {
    if ops == [] then v else RunView(StepView(v, ops[0]), ops[1..])
  }

  /**
   * Any run of reserve, reset and mark calls, however often the stamp wraps or the slice shrinks
   * and regrows, leaves the table standing for the set the same run builds.
   */
  lemma {:induction false} RunRefines(t: Table, ops: seq<Op>)
    requires Valid(t) && AllowedRun(t, ops)
    ensures Valid(RunTable(t, ops))
    ensures ViewOf(RunTable(t, ops)) == RunView(ViewOf(t), ops)
    ensures forall id :: 0 <= id < |RunTable(t, ops).store| ==>
              (IsMarked(RunTable(t, ops), id) <==> id in RunView(ViewOf(t), ops).members)
    decreases |ops|
  {
    if ops != [] {
      StepRefines(t, ops[0]);
      RunRefines(StepTable(t, ops[0]), ops[1..]);
    }
  }

  function Marks(ids: seq<nat>): (ops: seq<Op>)
    ensures |ops| == |ids| && forall i :: 0 <= i < |ids| ==> ops[i] == Mark(ids[i])
  {
    seq(|ids|, i requires 0 <= i < |ids| => Mark(ids[i]))
  }

  lemma {:induction false} MarksView(v: View, ids: seq<nat>)
    ensures RunView(v, Marks(ids)).members == v.members + (set x | x in ids)
    decreases |ids|
  {
    if ids != [] {
      assert Marks(ids)[1..] == Marks(ids[1..]);
      MarksView(StepView(v, Mark(ids[0])), ids[1..]);
      assert ids == [ids[0]] + ids[1..];
    }
  }

  /** After a reset the past is gone: what is marked depends only on the marks made since. */
  lemma PastIsForgotten(t: Table, count: nat, ids: seq<nat>)
    requires Valid(t)
    requires AllowedRun(t, [Reserve(count), Reset] + Marks(ids))
    ensures Members(RunTable(t, [Reserve(count), Reset] + Marks(ids))) == set x | x in ids
  {
    var ops := [Reserve(count), Reset] + Marks(ids);
    RunRefines(t, ops);
    assert ops[1..][1..] == Marks(ids);
    var v := StepView(StepView(ViewOf(t), Reserve(count)), Reset);
    MarksView(v, ids);
  }
}
