/** The deterministic partition of node-local work, and its independence from scheduling. */
module Parallel {
  import opened Outcomes

  // ---------- the partition ----------

  function EffectiveWorkerCount(workers: int, count: int): (w: int)
    ensures w >= 1 && (count >= 1 ==> w <= count)
    ensures 1 <= workers <= count ==> w == workers
    ensures workers > count >= 1 ==> w == count
    ensures workers < 1 ==> w == 1
  {
    if workers <= 1 || count <= 1 then 1 else if workers > count then count else workers
  }

  /** The first node of worker i, and one past the last node of worker i - 1. */
  function Bound(i: int, count: int, w: int): int
    requires w > 0
  {
    i * count / w
  }

  lemma {:induction false} ScaleUp(a: int, b: int, k: int)
    requires a <= b && k >= 0
    ensures a * k <= b * k
    decreases b - a
  {
    if a < b {
      ScaleUp(a, b - 1, k);
      assert b * k == (b - 1) * k + k;
    }
  }

  lemma DivMonotone(a: int, b: int, w: int)
    requires a <= b && w > 0
    ensures a / w <= b / w
  {
    var p, q := a / w, b / w;
    assert p * w <= a && b < q * w + w;
    if p > q {
      ScaleUp(q + 1, p, w);
    }
  }

  lemma BoundMonotone(i: int, j: int, count: nat, w: int)
    requires i <= j && w > 0
    ensures Bound(i, count, w) <= Bound(j, count, w)
  {
    ScaleUp(i, j, count);
    DivMonotone(i * count, j * count, w);
  }

  lemma BoundEnds(count: nat, w: int)
    requires w > 0
    ensures Bound(0, count, w) == 0 && Bound(w, count, w) == count
  {
    var x := w * count;
    var q, r := x / w, x % w;
    assert x == q * w + r;
    if q > count {
      ScaleUp(count + 1, q, w);
    } else if q < count {
      ScaleUp(q + 1, count, w);
    }
  }

  /** The intervals are balanced: no two differ by more than one node. */
  lemma IntervalsAreEven(count: nat, w: int, i: nat)
    requires w > 0
    ensures count / w <= Bound(i + 1, count, w) - Bound(i, count, w) <= count / w + 1
  {
    var a := i * count;
    assert (i + 1) * count == a + count;
    var p, q, r := a / w, count / w, (a + count) / w;
    assert p * w <= a < p * w + w && q * w <= count < q * w + w && r * w <= a + count < r * w + w;
    assert (p + q) * w == p * w + q * w && (p + q + 2) * w == p * w + q * w + 2 * w;
    if r < p + q {
      ScaleUp(r + 1, p + q, w);
    }
    if r >= p + q + 2 {
      ScaleUp(p + q + 2, r, w);
    }
  }

  ghost predicate Owns(i: int, node: int, count: int, w: int)
    requires w > 0
  {
    0 <= i < w && Bound(i, count, w) <= node < Bound(i + 1, count, w)
  }

  /** The worker whose interval holds the node, found by walking the bounds upwards. */
  ghost function OwnerFrom(i: int, node: int, count: nat, w: int): (owner: int)
    requires w > 0 && 0 <= i < w && Bound(i, count, w) <= node < count
    ensures Owns(owner, node, count, w)
    decreases w - i
  {
    BoundEnds(count, w);
    if node < Bound(i + 1, count, w) then i else OwnerFrom(i + 1, node, count, w)
  }

  /** The intervals tile [0, count): every node has exactly one owner and no other id has any. */
  lemma IntervalsTile(count: nat, w: int, node: int)
    requires w > 0
    ensures (exists i :: Owns(i, node, count, w)) <==> 0 <= node < count
    ensures forall i, j :: Owns(i, node, count, w) && Owns(j, node, count, w) ==> i == j
  {
    BoundEnds(count, w);
    if 0 <= node < count {
      var i := OwnerFrom(0, node, count, w);
    }
    forall i | Owns(i, node, count, w)
      ensures 0 <= node < count
    {
      BoundMonotone(0, i, count, w);
      BoundMonotone(i + 1, w, count, w);
    }
    forall i, j | Owns(i, node, count, w) && Owns(j, node, count, w)
      ensures i == j
    {
      if i < j {
        BoundMonotone(i + 1, j, count, w);
      } else if j < i {
        BoundMonotone(j + 1, i, count, w);
      }
    }
  }

  // ---------- one node's work ----------

  /** A node's work reads and changes worker-local scratch and yields a value or an error. */
  type Work<!S, !O> = (S, int) -> (S, Outcome<O>)

  /** The work keeps scratch valid and its result does not depend on which valid scratch it got. */
  ghost predicate ScratchFree<S(!new), O(!new)>(fn: Work<S, O>, valid: S -> bool, pure: int -> Outcome<O>) {
    forall s, node :: valid(s) ==> valid(fn(s, node).0) && fn(s, node).1 == pure(node)
  }

  // ---------- the sequential loop ----------

  /** The first error by node id, if any. */
  function FirstError<O>(pure: int -> Outcome<O>, count: nat): Option<Error> {
    if count == 0 then None
    else
      var earlier := FirstError(pure, count - 1);
      if earlier.Some? then earlier
      else match pure(count - 1)
           case Err(error) => Some(error)
           case Ok(_) => None
  }

  /** No error means that every node succeeds, and an error is the one of the lowest node that fails. */
  lemma {:induction false} FirstErrorIsLowest<O(!new)>(pure: int -> Outcome<O>, count: nat)
    ensures FirstError(pure, count) == None <==> forall u :: 0 <= u < count ==> pure(u).Ok?
    ensures FirstError(pure, count).Some? ==>
              exists u :: && 0 <= u < count && pure(u) == Err(FirstError(pure, count).value)
                          && forall v :: 0 <= v < u ==> pure(v).Ok?
  {
    if count > 0 {
      FirstErrorIsLowest(pure, count - 1);
    }
  }

  // ---------- the state machine ----------

  /** Next node and scratch per worker; value and error slots per node. */
  datatype State<S, O> = State(next: seq<int>, scratch: seq<S>, out: seq<Option<O>>, errs: seq<Option<Error>>)

  function Start<S, O>(count: nat, scratch: seq<S>): (st: State<S, O>)
    requires scratch != []
    ensures |st.next| == |scratch| && |st.out| == count && |st.errs| == count
    ensures forall i :: 0 <= i < |st.next| ==> st.next[i] == Bound(i, count, |scratch|)
    ensures forall node :: 0 <= node < count ==> st.out[node] == None && st.errs[node] == None
  {
    State(seq(|scratch|, i => Bound(i, count, |scratch|)), scratch, seq(count, _ => None), seq(count, _ => None))
  }

  predicate Enabled<S, O>(st: State<S, O>, count: nat, i: int) {
    0 <= i < |st.next| && st.next[i] < Bound(i + 1, count, |st.next|)
  }

  /** Worker i handles its next node and writes only that node's slots. */
  function Step<S, O>(fn: Work<S, O>, st: State<S, O>, i: nat): State<S, O>
    requires i < |st.next| && i < |st.scratch| && 0 <= st.next[i] < |st.out| && |st.errs| == |st.out|
  {
    var node := st.next[i];
    var (s, r) := fn(st.scratch[i], node);
    State(
      st.next[i := node + 1],
      st.scratch[i := s],
      match r case Ok(o) => st.out[node := Some(o)] case Err(_) => st.out,
      match r case Ok(_) => st.errs case Err(e) => st.errs[node := Some(e)])
  }

  /** The slots of a node once its owner has passed it, and before. */
  ghost predicate SlotOk<S, O>(st: State<S, O>, pure: int -> Outcome<O>, node: int, done: bool)
    requires 0 <= node < |st.out| && |st.errs| == |st.out|
  {
    if !done then st.out[node] == None && st.errs[node] == None
    else match pure(node)
         case Ok(o) => st.out[node] == Some(o) && st.errs[node] == None
         case Err(e) => st.out[node] == None && st.errs[node] == Some(e)
  }

  ghost predicate WorkerOk<S, O>(st: State<S, O>, count: nat, valid: S -> bool, i: int)
    requires |st.scratch| == |st.next| > 0
  {
    0 <= i < |st.next| ==>
      && Bound(i, count, |st.next|) <= st.next[i] <= Bound(i + 1, count, |st.next|)
      && valid(st.scratch[i])
  }

  /** In every reachable state each worker is inside its interval and exactly the passed nodes are written. */
  ghost predicate Inv<S(!new), O(!new)>(st: State<S, O>, count: nat, valid: S -> bool, pure: int -> Outcome<O>) {
    && |st.scratch| == |st.next| > 0 && |st.out| == |st.errs| == count
    && (forall i :: WorkerOk(st, count, valid, i))
    && (forall i, node :: 0 <= i < |st.next| && 0 <= node < count && Owns(i, node, count, |st.next|) ==>
          SlotOk(st, pure, node, node < st.next[i]))
  }

  lemma StartInv<S(!new), O(!new)>(count: nat, scratch: seq<S>, valid: S -> bool, pure: int -> Outcome<O>)
    requires scratch != [] && forall i :: 0 <= i < |scratch| ==> valid(scratch[i])
    ensures Inv(Start<S, O>(count, scratch), count, valid, pure)
  {
    var st := Start<S, O>(count, scratch);
    forall i
      ensures WorkerOk(st, count, valid, i)
    {
      if 0 <= i < |st.next| {
        BoundMonotone(i, i + 1, count, |scratch|);
      }
    }
  }

  lemma EnabledInRange<S(!new), O(!new)>(
      st: State<S, O>, count: nat, valid: S -> bool, pure: int -> Outcome<O>, i: nat)
    requires Inv(st, count, valid, pure) && Enabled(st, count, i)
    ensures 0 <= st.next[i] < count && Owns(i, st.next[i], count, |st.next|)
  {
    assert WorkerOk(st, count, valid, i);
    BoundEnds(count, |st.next|);
    BoundMonotone(0, i, count, |st.next|);
    BoundMonotone(i + 1, |st.next|, count, |st.next|);
  }

  /** Any enabled worker may move; the invariant survives. */
  lemma StepInv<S(!new), O(!new)>(
      fn: Work<S, O>, st: State<S, O>, count: nat, valid: S -> bool, pure: int -> Outcome<O>, i: nat)
    requires Inv(st, count, valid, pure) && Enabled(st, count, i) && ScratchFree(fn, valid, pure)
    ensures 0 <= st.next[i] < count
    ensures Inv(Step(fn, st, i), count, valid, pure)
  {
    EnabledInRange(st, count, valid, pure, i);
    var node := st.next[i];
    var t := Step(fn, st, i);
    assert WorkerOk(st, count, valid, i);
    assert valid(fn(st.scratch[i], node).0) && fn(st.scratch[i], node).1 == pure(node);
    forall j
      ensures WorkerOk(t, count, valid, j)
    {
      assert WorkerOk(st, count, valid, j);
    }
    forall j, other | 0 <= j < |t.next| && 0 <= other < count && Owns(j, other, count, |t.next|)
      ensures SlotOk(t, pure, other, other < t.next[j])
    {
      assert SlotOk(st, pure, other, other < st.next[j]);
      if other == node {
        IntervalsTile(count, |st.next|, node);
      }
    }
  }

  /** Steps still to do; it falls by one with every step of any schedule. */
  function StepsLeft<S, O>(st: State<S, O>, count: nat, i: nat): int
    requires i <= |st.next|
  {
    if i == 0 then 0
    else StepsLeft(st, count, i - 1) + Bound(i, count, |st.next|) - st.next[i - 1]
  }

  lemma {:induction false} StepsLeftAfter<S, O>(fn: Work<S, O>, st: State<S, O>, count: nat, i: nat, k: nat)
    requires i < |st.next| && i < |st.scratch| && 0 <= st.next[i] < |st.out| && |st.errs| == |st.out|
    requires k <= |st.next|
    ensures StepsLeft(Step(fn, st, i), count, k) == StepsLeft(st, count, k) - if i < k then 1 else 0
  {
    if k > 0 {
      StepsLeftAfter(fn, st, count, i, k - 1);
    }
  }

  lemma {:induction false} StepsLeftNonNegative<S(!new), O(!new)>(
      st: State<S, O>, count: nat, valid: S -> bool, pure: int -> Outcome<O>, k: nat)
    requires Inv(st, count, valid, pure) && k <= |st.next|
    ensures StepsLeft(st, count, k) >= 0
    ensures StepsLeft(st, count, k) == 0 ==> forall i :: 0 <= i < k ==> !Enabled(st, count, i)
  {
    if k > 0 {
      StepsLeftNonNegative(st, count, valid, pure, k - 1);
      assert WorkerOk(st, count, valid, k - 1);
    }
  }

  // ---------- schedules ----------

  /** A schedule is legal when every step it takes is enabled. */
  ghost predicate Legal<S(!new), O(!new)>(
      fn: Work<S, O>, st: State<S, O>, count: nat, valid: S -> bool, pure: int -> Outcome<O>, schedule: seq<nat>)
    requires Inv(st, count, valid, pure) && ScratchFree(fn, valid, pure)
    decreases |schedule|
  {
    schedule == [] ||
    (Enabled(st, count, schedule[0]) &&
     (StepInv(fn, st, count, valid, pure, schedule[0]);
      Legal(fn, Step(fn, st, schedule[0]), count, valid, pure, schedule[1..])))
  }

  ghost function After<S(!new), O(!new)>(
      fn: Work<S, O>, st: State<S, O>, count: nat, valid: S -> bool, pure: int -> Outcome<O>, schedule: seq<nat>)
    : (r: State<S, O>)
    requires Inv(st, count, valid, pure) && ScratchFree(fn, valid, pure)
    requires Legal(fn, st, count, valid, pure, schedule)
    ensures Inv(r, count, valid, pure) && |r.next| == |st.next|
    decreases |schedule|
  {
    if schedule == [] then st
    else
      StepInv(fn, st, count, valid, pure, schedule[0]);
      After(fn, Step(fn, st, schedule[0]), count, valid, pure, schedule[1..])
  }

  ghost predicate Finished<S, O>(st: State<S, O>, count: nat) {
    forall i :: !Enabled(st, count, i)
  }

  /** When nobody can move, every node's slots hold what the node's work gives. */
  lemma FinishedSlots<S(!new), O(!new)>(
      st: State<S, O>, count: nat, valid: S -> bool, pure: int -> Outcome<O>, node: int)
    requires Inv(st, count, valid, pure) && Finished(st, count) && 0 <= node < count
    ensures SlotOk(st, pure, node, true)
  {
    BoundEnds(count, |st.next|);
    var i := OwnerFrom(0, node, count, |st.next|);
    assert WorkerOk(st, count, valid, i) && !Enabled(st, count, i);
    assert SlotOk(st, pure, node, node < st.next[i]);
  }

  /** The error the caller sees: the lowest node's, whatever the schedule was. */
  function LowestError(errs: seq<Option<Error>>): Option<Error> {
    if errs == [] then None
    else
      var earlier := LowestError(errs[..|errs| - 1]);
      if earlier.Some? then earlier else errs[|errs| - 1]
  }

  lemma {:induction false} ErrorsAgree<O(!new)>(errs: seq<Option<Error>>, pure: int -> Outcome<O>)
    requires forall node :: 0 <= node < |errs| ==>
               errs[node] == match pure(node) case Ok(_) => None case Err(e) => Some(e)
    ensures LowestError(errs) == FirstError(pure, |errs|)
  {
    if errs != [] {
      ErrorsAgree(errs[..|errs| - 1], pure);
    }
  }

  lemma FinishedResult<S(!new), O(!new)>(
      st: State<S, O>, count: nat, valid: S -> bool, pure: int -> Outcome<O>)
    requires Inv(st, count, valid, pure) && Finished(st, count)
    ensures LowestError(st.errs) == FirstError(pure, count)
    ensures forall node :: 0 <= node < count ==> (pure(node).Ok? ==> st.out[node] == Some(pure(node).value))
  {
    forall node | 0 <= node < count
      ensures st.errs[node] == match pure(node) case Ok(_) => None case Err(e) => Some(e)
      ensures pure(node).Ok? ==> st.out[node] == Some(pure(node).value)
    {
      FinishedSlots(st, count, valid, pure, node);
    }
    ErrorsAgree(st.errs, pure);
  }

  /**
   * Schedule independence: from the start, or any state on the way, every legal schedule that leaves
   * nobody enabled reports the sequential loop's error, and every node that succeeds has written the
   * sequential loop's output, for any number of workers.
   */
  lemma ScheduleIndependence<S(!new), O(!new)>(
      fn: Work<S, O>, st: State<S, O>, count: nat, valid: S -> bool, pure: int -> Outcome<O>, schedule: seq<nat>)
    requires Inv(st, count, valid, pure) && ScratchFree(fn, valid, pure)
    requires Legal(fn, st, count, valid, pure, schedule)
    requires Finished(After(fn, st, count, valid, pure, schedule), count)
    ensures var r := After(fn, st, count, valid, pure, schedule);
            && LowestError(r.errs) == FirstError(pure, count)
            && |r.out| == count
            && forall node :: 0 <= node < count ==> (pure(node).Ok? ==> r.out[node] == Some(pure(node).value))
  {
    FinishedResult(After(fn, st, count, valid, pure, schedule), count, valid, pure);
  }

  /** Every step of a legal schedule does one unit of the work left. */
  lemma {:induction false} SchedulesEnd<S(!new), O(!new)>(
      fn: Work<S, O>, st: State<S, O>, count: nat, valid: S -> bool, pure: int -> Outcome<O>, schedule: seq<nat>)
    requires Inv(st, count, valid, pure) && ScratchFree(fn, valid, pure)
    requires Legal(fn, st, count, valid, pure, schedule)
    ensures var r := After(fn, st, count, valid, pure, schedule);
            && |schedule| == StepsLeft(st, count, |st.next|) - StepsLeft(r, count, |r.next|)
            && |schedule| <= StepsLeft(st, count, |st.next|)
    decreases |schedule|
  {
    if schedule == [] {
      StepsLeftNonNegative(st, count, valid, pure, |st.next|);
    } else {
      StepInv(fn, st, count, valid, pure, schedule[0]);
      StepsLeftAfter(fn, st, count, schedule[0], |st.next|);
      SchedulesEnd(fn, Step(fn, st, schedule[0]), count, valid, pure, schedule[1..]);
      var r := After(fn, st, count, valid, pure, schedule);
      StepsLeftNonNegative(r, count, valid, pure, |r.next|);
    }
  }

  /** At the start every node is still to be handled. */
  lemma WorkIsCount<S, O>(count: nat, scratch: seq<S>)
    requires scratch != []
    ensures StepsLeft(Start<S, O>(count, scratch), count, |scratch|) == count
  {
    StartLeft<S, O>(count, scratch, |scratch|);
    BoundEnds(count, |scratch|);
  }

  lemma {:induction false} StartLeft<S, O>(count: nat, scratch: seq<S>, i: nat)
    requires scratch != [] && i <= |scratch|
    ensures StepsLeft(Start<S, O>(count, scratch), count, i) == Bound(i, count, |scratch|)
  {
    BoundEnds(count, |scratch|);
    if i > 0 {
      StartLeft<S, O>(count, scratch, i - 1);
    }
  }

  /** Nobody can move exactly when nothing is left to do. */
  lemma FinishedMeansNoneLeft<S(!new), O(!new)>(
      st: State<S, O>, count: nat, valid: S -> bool, pure: int -> Outcome<O>)
    requires Inv(st, count, valid, pure)
    ensures Finished(st, count) <==> StepsLeft(st, count, |st.next|) == 0
  {
    StepsLeftNonNegative(st, count, valid, pure, |st.next|);
    if Finished(st, count) {
      IdleLeft(st, count, valid, pure, |st.next|);
    }
  }

  lemma {:induction false} IdleLeft<S(!new), O(!new)>(
      st: State<S, O>, count: nat, valid: S -> bool, pure: int -> Outcome<O>, k: nat)
    requires Inv(st, count, valid, pure) && Finished(st, count) && k <= |st.next|
    ensures StepsLeft(st, count, k) == 0
  {
    if k > 0 {
      IdleLeft(st, count, valid, pure, k - 1);
      assert WorkerOk(st, count, valid, k - 1) && !Enabled(st, count, k - 1);
    }
  }

  /**
   * From the start, every legal schedule takes at most one step per node, and it has finished exactly when it has
   * taken one for each.
   */
  lemma SchedulesTakeCount<S(!new), O(!new)>(
      fn: Work<S, O>, count: nat, scratch: seq<S>, valid: S -> bool, pure: int -> Outcome<O>, schedule: seq<nat>)
    requires scratch != [] && forall i :: 0 <= i < |scratch| ==> valid(scratch[i])
    requires ScratchFree(fn, valid, pure)
    requires var st := Start<S, O>(count, scratch);
             Inv(st, count, valid, pure) && Legal(fn, st, count, valid, pure, schedule)
    ensures |schedule| <= count
    ensures Finished(After(fn, Start<S, O>(count, scratch), count, valid, pure, schedule), count) <==>
            |schedule| == count
  {
    var st := Start<S, O>(count, scratch);
    WorkIsCount<S, O>(count, scratch);
    SchedulesEnd(fn, st, count, valid, pure, schedule);
    FinishedMeansNoneLeft(After(fn, st, count, valid, pure, schedule), count, valid, pure);
  }

  // ---------- the loop ----------

  /** With one worker the loop stops at the first error. */
  method SequentialForNodes<S(!new), O(!new)>(
      count: nat, fn: Work<S, O>, scratch: S, ghost valid: S -> bool, ghost pure: int -> Outcome<O>)
    returns (out: seq<Option<O>>, err: Option<Error>, used: S)
    requires valid(scratch) && ScratchFree(fn, valid, pure)
    ensures valid(used) && err == FirstError(pure, count)
    ensures err == None ==> |out| == count && forall node :: 0 <= node < count ==>
                              pure(node).Ok? && out[node] == Some(pure(node).value)
  {
    var s := scratch;
    out := [];
    for node := 0 to count
      invariant valid(s) && |out| == node && FirstError(pure, node) == None
      invariant forall k :: 0 <= k < node ==> pure(k).Ok? && out[k] == Some(pure(k).value)
    {
      var (s', r) := fn(s, node);
      s := s';
      match r {
        case Err(error) =>
          FirstErrorStays(pure, node + 1, count);
          return out, Some(error), s;
        case Ok(o) =>
          out := out + [Some(o)];
      }
    }
    return out, None, s;
  }

  lemma {:induction false} FirstErrorStays<O(!new)>(pure: int -> Outcome<O>, n: nat, count: nat)
    requires n <= count && FirstError(pure, n).Some?
    ensures FirstError(pure, count) == FirstError(pure, n)
  {
    if n < count {
      FirstErrorStays(pure, n, count - 1);
    }
  }

  lemma {:induction false} NoErrorMeansOk<O(!new)>(pure: int -> Outcome<O>, count: nat, node: int)
    requires FirstError(pure, count) == None && 0 <= node < count
    ensures pure(node).Ok?
  {
    if node < count - 1 {
      NoErrorMeansOk(pure, count - 1, node);
    }
  }

  /** Workers move in any order a scheduler picks; the answer is always the sequential one. The scratch stays usable. */
  method ParallelForNodes<S(!new), O(!new)>(
      count: nat, workers: int, fn: Work<S, O>, scratch: seq<S>, ghost valid: S -> bool,
      ghost pure: int -> Outcome<O>)
    returns (out: seq<Option<O>>, err: Option<Error>, used: seq<S>)
    requires |scratch| == EffectiveWorkerCount(workers, count)
    requires forall i :: 0 <= i < |scratch| ==> valid(scratch[i])
    requires ScratchFree(fn, valid, pure)
    ensures |used| == |scratch| && forall i :: 0 <= i < |used| ==> valid(used[i])
    ensures err == FirstError(pure, count)
    ensures err == None ==> |out| == count && forall node :: 0 <= node < count ==>
                              pure(node).Ok? && out[node] == Some(pure(node).value)
  {
    if |scratch| == 1 {
      var last;
      out, err, last := SequentialForNodes(count, fn, scratch[0], valid, pure);
      return out, err, [last];
    }
    var st := Start<S, O>(count, scratch);
    StartInv<S, O>(count, scratch, valid, pure);
    while exists i: nat :: i < |st.next| && Enabled(st, count, i)
      invariant Inv(st, count, valid, pure) && |st.next| == |scratch|
      decreases StepsLeft(st, count, |st.next|)
    {
      var i: nat :| i < |st.next| && Enabled(st, count, i);
      StepInv(fn, st, count, valid, pure, i);
      StepsLeftAfter(fn, st, count, i, |st.next|);
      StepsLeftNonNegative(Step(fn, st, i), count, valid, pure, |st.next|);
      st := Step(fn, st, i);
    }
    FinishedResult(st, count, valid, pure);
    AllScratchValid(st, count, valid, pure);
    out, used := st.out, st.scratch;
    err := ReportError(st.errs);
    if err == None {
      forall node | 0 <= node < count
        ensures pure(node).Ok?
      {
        NoErrorMeansOk(pure, count, node);
      }
    }
  }

  /** The loop over work that cannot fail: one value per node. */
  method FillNodes<S(!new), O(!new)>(
      count: nat, workers: int, fn: Work<S, O>, scratch: seq<S>, ghost valid: S -> bool,
      ghost pure: int -> Outcome<O>)
    returns (values: seq<O>, used: seq<S>)
    requires |scratch| == EffectiveWorkerCount(workers, count)
    requires forall i :: 0 <= i < |scratch| ==> valid(scratch[i])
    requires ScratchFree(fn, valid, pure)
    requires forall node :: 0 <= node < count ==> pure(node).Ok?
    ensures |used| == |scratch| && forall i :: 0 <= i < |used| ==> valid(used[i])
    ensures |values| == count && forall node :: 0 <= node < count ==> values[node] == pure(node).value
  {
    NoFailureNoError(pure, count);
    var slots, err, left := ParallelForNodes(count, workers, fn, scratch, valid, pure);
    values := seq(count, node requires 0 <= node < count => slots[node].value);
    used := left;
  }

  lemma {:induction false} NoFailureNoError<O(!new)>(pure: int -> Outcome<O>, count: nat)
    requires forall node :: 0 <= node < count ==> pure(node).Ok?
    ensures FirstError(pure, count) == None
  {
    if count > 0 {
      NoFailureNoError(pure, count - 1);
    }
  }

  lemma AllScratchValid<S(!new), O(!new)>(st: State<S, O>, count: nat, valid: S -> bool, pure: int -> Outcome<O>)
    requires Inv(st, count, valid, pure)
    ensures |st.scratch| == |st.next| && forall i :: 0 <= i < |st.scratch| ==> valid(st.scratch[i])
  {
    forall i | 0 <= i < |st.scratch|
      ensures valid(st.scratch[i])
    {
      assert WorkerOk(st, count, valid, i);
    }
  }

  method ReportError(errs: seq<Option<Error>>) returns (err: Option<Error>)
    ensures err == LowestError(errs)
  {
    for node := 0 to |errs|
      invariant LowestError(errs[..node]) == None
    {
      assert errs[..node + 1][..node] == errs[..node];
      if errs[node].Some? {
        LowestStays(errs, node + 1);
        return errs[node];
      }
    }
    assert errs[..|errs|] == errs;
    return None;
  }

  lemma {:induction false} LowestStays(errs: seq<Option<Error>>, i: nat)
    requires i <= |errs| && LowestError(errs[..i]).Some?
    ensures LowestError(errs) == LowestError(errs[..i])
  {
    if i < |errs| {
      assert errs[..|errs| - 1][..i] == errs[..i];
      LowestStays(errs[..|errs| - 1], i);
    } else {
      assert errs[..i] == errs;
    }
  }
}
