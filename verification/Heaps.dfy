/** The array heaps of the search and construction loops. */
module Heaps {
  import opened Order
  import opened Sorting

  /** Which element a heap keeps at its root. */
  datatype Priority = NearestFirst | FarthestFirst

  predicate Before(p: Priority, a: Result, b: Result) {
    match p
    case NearestFirst => Better(a, b)
    case FarthestFirst => Worse(a, b)
  }

  function Parent(i: int): int
    requires i > 0
  {
    (i - 1) / 2
  }

  /** No child precedes its parent, for every parent at or below index `root`. */
  ghost predicate OrderedFrom(p: Priority, s: seq<Result>, root: int) {
    forall i :: 0 < i < |s| && Parent(i) >= root ==> !Before(p, s[i], s[Parent(i)])
  }

  ghost predicate Ordered(p: Priority, s: seq<Result>) {
    OrderedFrom(p, s, 0)
  }

  /** Ordered except that the element at `hole` may precede its parent. */
  ghost predicate OrderedButUp(p: Priority, s: seq<Result>, hole: int) {
    && (forall i :: 0 < i < |s| && i != hole ==> !Before(p, s[i], s[Parent(i)]))
    && (forall i :: 0 < i < |s| && Parent(i) == hole && hole > 0 ==> !Before(p, s[i], s[Parent(hole)]))
  }

  /** Ordered from `root` except that children of `hole` may precede it. */
  ghost predicate OrderedButDown(p: Priority, s: seq<Result>, root: int, hole: int) {
    && (forall i :: 0 < i < |s| && Parent(i) >= root && Parent(i) != hole ==> !Before(p, s[i], s[Parent(i)]))
    && (forall i :: 0 < i < |s| && Parent(i) == hole && hole > 0 && Parent(hole) >= root ==>
          !Before(p, s[i], s[Parent(hole)]))
  }

  function Swap(s: seq<Result>, i: nat, j: nat): (r: seq<Result>)
    requires i < |s| && j < |s|
    ensures |r| == |s|
  {
    s[i := s[j]][j := s[i]]
  }

  lemma SwapContents(s: seq<Result>, i: nat, j: nat)
    requires i < |s| && j < |s|
    ensures multiset(Swap(s, i, j)) == multiset(s)
  {
  }

  lemma BeforeTotal(p: Priority, a: Result, b: Result, c: Result)
    ensures !Before(p, a, a)
    ensures !Before(p, b, a) && !Before(p, c, b) ==> !Before(p, c, a)
    ensures Before(p, a, b) ==> !Before(p, b, a)
    ensures !Before(p, a, b) && !Before(p, b, a) ==> a == b
  {
    StrictTotalOrder(a, b, c);
    StrictTotalOrder(c, b, a);
    StrictTotalOrder(b, a, c);
    StrictTotalOrder(a, c, b);
  }

  /** One sift-up swap moves the only possible violation to the parent. */
  lemma SwapUp(p: Priority, s: seq<Result>, child: int)
    requires 0 < child < |s| && OrderedButUp(p, s, child)
    requires Before(p, s[child], s[Parent(child)])
    ensures OrderedButUp(p, Swap(s, Parent(child), child), Parent(child))
  {
    var q := Parent(child);
    var t := Swap(s, q, child);
    forall i | 0 < i < |t| && i != q
      ensures !Before(p, t[i], t[Parent(i)])
    {
      if i == child {
        BeforeTotal(p, s[child], s[q], s[q]);
      } else if Parent(i) == q {
        BeforeTotal(p, s[child], s[q], s[i]);
        BeforeTotal(p, s[child], s[q], s[child]);
      } else if Parent(i) == child {
      }
    }
    forall i | 0 < i < |t| && Parent(i) == q && q > 0
      ensures !Before(p, t[i], t[Parent(q)])
    {
      BeforeTotal(p, s[Parent(q)], s[q], s[i]);
    }
  }

  /** One sift-down swap moves the only possible violation to the chosen child. */
  lemma SwapDown(p: Priority, s: seq<Result>, root: int, hole: int, best: int)
    requires 0 <= root <= hole < best < |s| && Parent(best) == hole
    requires OrderedButDown(p, s, root, hole)
    requires forall i :: 0 < i < |s| && Parent(i) == hole ==> !Before(p, s[i], s[best])
    requires Before(p, s[best], s[hole])
    ensures OrderedButDown(p, Swap(s, hole, best), root, best)
  {
    var t := Swap(s, hole, best);
    forall i | 0 < i < |t| && Parent(i) >= root && Parent(i) != best
      ensures !Before(p, t[i], t[Parent(i)])
    {
      if i == best {
        BeforeTotal(p, s[best], s[hole], s[hole]);
      }
    }
  }

  /** The root of an ordered heap precedes or equals every element. */
  lemma {:induction false} RootIsFirst(p: Priority, s: seq<Result>, i: nat)
    requires Ordered(p, s) && i < |s|
    ensures !Before(p, s[i], s[0])
  {
    if i == 0 {
      BeforeTotal(p, s[0], s[0], s[0]);
    } else {
      RootIsFirst(p, s, Parent(i));
      BeforeTotal(p, s[0], s[Parent(i)], s[i]);
    }
  }

  /** The root of a heap holding the elements of a sorted list is an end of that list. */
  lemma RootOfSorted(p: Priority, s: seq<Result>, w: seq<Result>)
    requires Ordered(p, s) && Sorted(w) && multiset(s) == multiset(w) && s != []
    ensures |w| == |s|
    ensures s[0] == if p == NearestFirst then w[0] else w[|w| - 1]
  {
    SameMembers(s, w);
    var e := if p == NearestFirst then w[0] else w[|w| - 1];
    assert s[0] in w && e in w && e in s;
    var i :| 0 <= i < |s| && s[i] == e;
    RootIsFirst(p, s, i);
    var j :| 0 <= j < |w| && w[j] == s[0];
    assert !Before(p, s[0], e);
    BeforeTotal(p, s[0], e, e);
  }

  lemma PopContents(s: seq<Result>)
    requires |s| > 1
    ensures multiset(s[0 := s[|s| - 1]][..|s| - 1]) == multiset(s) - multiset{s[0]}
  {
    var last := |s| - 1;
    var mid := s[1..last];
    assert s[0 := s[last]][..last] == [s[last]] + mid;
    assert s == [s[0]] + mid + [s[last]];
    JoinedContents([s[0]] + mid, [s[last]]);
    JoinedContents([s[0]], mid);
    JoinedContents([s[last]], mid);
  }

  lemma JoinedContents(s: seq<Result>, t: seq<Result>)
    ensures multiset(s + t) == multiset(s) + multiset(t)
  {
  }

  lemma ReplacedContents(s: seq<Result>, x: Result)
    requires s != []
    ensures multiset(s[0 := x]) == multiset(s) - multiset{s[0]} + multiset{x}
  {
    MultisetTail(s);
    assert s[0 := x] == [x] + s[1..];
    JoinedContents([x], s[1..]);
  }

  /** A growable heap of scored nodes. */
  class Heap {
    const priority: Priority
    var items: seq<Result>

    constructor (priority: Priority)
      ensures this.priority == priority && items == []
    {
      this.priority := priority;
      items := [];
    }

    ghost predicate Valid()
      reads this
    {
      Ordered(priority, items)
    }

    method Up(start: int)
      requires 0 <= start < |items| && OrderedButUp(priority, items, start)
      modifies this`items
      ensures Valid() && multiset(items) == multiset(old(items))
    {
      var child := start;
      while child > 0
        invariant 0 <= child < |items| && OrderedButUp(priority, items, child)
        invariant multiset(items) == multiset(old(items))
      {
        var parent := (child - 1) / 2;
        if !Before(priority, items[child], items[parent]) {
          return;
        }
        SwapUp(priority, items, child);
        SwapContents(items, parent, child);
        items := Swap(items, parent, child);
        child := parent;
      }
    }

    method Down(start: int)
      requires 0 <= start < |items| && OrderedButDown(priority, items, start, start)
      modifies this`items
      ensures OrderedFrom(priority, items, start)
      ensures |items| == |old(items)| && multiset(items) == multiset(old(items))
    {
      var parent := start;
      while true
        invariant start <= parent < |items| == |old(items)|
        invariant OrderedButDown(priority, items, start, parent)
        invariant multiset(items) == multiset(old(items))
        decreases |items| - parent
      {
        var left := 2 * parent + 1;
        if left >= |items| {
          return;
        }
        var best := left;
        var right := left + 1;
        if right < |items| && Before(priority, items[right], items[left]) {
          best := right;
        }
        BeforeTotal(priority, items[best], items[left], items[left]);
        assert forall i :: 0 < i < |items| && Parent(i) == parent ==> i == left || i == right;
        if !Before(priority, items[best], items[parent]) {
          BeforeTotal(priority, items[parent], items[best], items[left]);
          if right < |items| {
            BeforeTotal(priority, items[right], items[left], items[left]);
            BeforeTotal(priority, items[parent], items[best], items[right]);
          }
          return;
        }
        SwapDown(priority, items, start, parent, best);
        SwapContents(items, parent, best);
        items := Swap(items, parent, best);
        parent := best;
      }
    }

    /** Bottom-up heapify. */
    method Init()
      modifies this`items
      ensures Valid() && multiset(items) == multiset(old(items))
    {
      var i := |items| / 2 - 1;
      while i >= 0
        invariant -1 <= i && (i < |items| || i == -1) && |items| == |old(items)|
        invariant OrderedFrom(priority, items, i + 1)
        invariant multiset(items) == multiset(old(items))
      {
        Down(i);
        i := i - 1;
      }
    }

    method Push(result: Result)
      requires Valid()
      modifies this`items
      ensures Valid() && multiset(items) == multiset(old(items)) + multiset{result}
    {
      items := items + [result];
      Up(|items| - 1);
    }

    method Pop() returns (result: Result)
      requires Valid() && items != []
      modifies this`items
      ensures Valid() && result == old(items)[0]
      ensures multiset(items) == multiset(old(items)) - multiset{result}
    {
      result := items[0];
      var last := |items| - 1;
      if last > 0 {
        PopContents(items);
        items := items[0 := items[last]][..last];
        Down(0);
      } else {
        MultisetTail(items);
        items := items[..0];
        assert items == old(items)[1..];
      }
    }

    /** Replaces the root without growing the heap. */
    method ReplaceWorst(result: Result)
      requires Valid() && items != []
      modifies this`items
      ensures Valid()
      ensures multiset(items) == multiset(old(items)) - multiset{old(items)[0]} + multiset{result}
    {
      hide Before;
      ReplacedContents(items, result);
      items := items[0 := result];
      Down(0);
    }

    /** The storage is rearranged nearest first, loses and gains nothing, and is what is returned. */
    method SortedItems() returns (results: seq<Result>)
      modifies this`items
      ensures items == results && Sorted(results) && multiset(results) == multiset(old(items))
    {
      SortSorted(items);
      items := Sort(items);
      results := items;
    }
  }
}
