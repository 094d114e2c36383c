/** Sorted lists of results and the k best of a stream. */
module Sorting {
  import opened Order

  ghost predicate Sorted(s: seq<Result>) {
    forall i, j :: 0 <= i < j < |s| ==> !Better(s[j], s[i])
  }

  /** `x` placed before the first element that is worse than it. */
  function Insert(s: seq<Result>, x: Result): (r: seq<Result>)
    ensures |r| == |s| + 1
    ensures multiset(r) == multiset(s) + multiset{x}
  {
    if s == [] then [x]
    else if Better(x, s[0]) then [x] + s
    else
      assert s == [s[0]] + s[1..];
      [s[0]] + Insert(s[1..], x)
  }

  /** Insertion sort: the sorted permutation that the Go sorting routines compute. */
  function Sort(s: seq<Result>): (r: seq<Result>)
    ensures |r| == |s|
    ensures multiset(r) == multiset(s)
  {
    if s == [] then []
    else
      var m := |s| - 1;
      assert s == s[..m] + [s[m]];
      Insert(Sort(s[..m]), s[m])
  }

  function Take<T>(s: seq<T>, k: int): (r: seq<T>)
    ensures |r| == if k <= 0 then 0 else if k < |s| then k else |s|
    ensures r <= s
  {
    if k <= 0 then [] else if k < |s| then s[..k] else s
  }

  /** Keep the k best after `x` arrives. */
  function Offer(w: seq<Result>, x: Result, k: int): seq<Result> {
    Take(Insert(w, x), k)
  }

  /** The k best of a stream, best first. */
  function Best(stream: seq<Result>, k: int): seq<Result> {
    Take(Sort(stream), k)
  }

  lemma {:induction false} InsertMember(s: seq<Result>, x: Result, y: Result)
    ensures y in Insert(s, x) <==> y in s || y == x
  {
    assert y in Insert(s, x) <==> y in multiset(Insert(s, x));
  }

  lemma {:induction false} SortMember(s: seq<Result>, y: Result)
    ensures y in Sort(s) <==> y in s
  {
    assert y in Sort(s) <==> y in multiset(Sort(s));
  }

  lemma {:induction false} InsertSorted(s: seq<Result>, x: Result)
    requires Sorted(s)
    ensures Sorted(Insert(s, x))
  {
    if s == [] {
    } else if Better(x, s[0]) {
    } else {
      var t := Insert(s[1..], x);
      InsertSorted(s[1..], x);
      forall j | 0 <= j < |t|
        ensures !Better(t[j], s[0])
      {
        InsertMember(s[1..], x, t[j]);
        assert t[j] in t;
      }
    }
  }

  lemma {:induction false} SortSorted(s: seq<Result>)
    ensures Sorted(Sort(s))
  {
    if s != [] {
      SortSorted(s[..|s| - 1]);
      InsertSorted(Sort(s[..|s| - 1]), s[|s| - 1]);
    }
  }

  lemma SortedParts(s: seq<Result>)
    requires Sorted(s) && s != []
    ensures Sorted(s[1..]) && Sorted(s[..|s| - 1])
    ensures forall y :: y in s ==> !Better(y, s[0])
  {
  }

  lemma SortedHead(a: seq<Result>, b: seq<Result>)
    requires a != [] && b != [] && a[0] in b && b[0] in a
    requires forall y :: y in a ==> !Better(y, a[0])
    requires forall y :: y in b ==> !Better(y, b[0])
    ensures a[0] == b[0]
  {
    StrictTotalOrder(a[0], b[0], a[0]);
  }

  lemma MultisetTail(s: seq<Result>)
    requires s != []
    ensures multiset(s[1..]) == multiset(s) - multiset{s[0]}
    ensures multiset(s[..|s| - 1]) == multiset(s) - multiset{s[|s| - 1]}
  {
    assert s == [s[0]] + s[1..];
    assert s == s[..|s| - 1] + [s[|s| - 1]];
  }

  lemma SameMembers(a: seq<Result>, b: seq<Result>)
    requires multiset(a) == multiset(b)
    ensures |a| == |b|
    ensures forall y :: y in a <==> y in b
  {
    assert |a| == |multiset(a)| == |multiset(b)| == |b|;
    forall y
      ensures y in a <==> y in b
    {
      assert y in a <==> y in multiset(a);
      assert y in b <==> y in multiset(b);
    }
  }

  lemma SortedTails(a: seq<Result>, b: seq<Result>)
    requires Sorted(a) && Sorted(b) && multiset(a) == multiset(b) && a != []
    ensures b != [] && a[0] == b[0]
    ensures Sorted(a[1..]) && Sorted(b[1..]) && multiset(a[1..]) == multiset(b[1..])
  {
    SameMembers(a, b);
    SortedParts(a);
    SortedParts(b);
    SortedHead(a, b);
    MultisetTail(a);
    MultisetTail(b);
  }

  /** A sorted list is determined by its contents, because the order is total. */
  lemma {:induction false} SortedUnique(a: seq<Result>, b: seq<Result>)
    requires Sorted(a) && Sorted(b) && multiset(a) == multiset(b)
    ensures a == b
  {
    SameMembers(a, b);
    if a != [] {
      SortedTails(a, b);
      SortedUnique(a[1..], b[1..]);
      assert a == [a[0]] + a[1..] && b == [b[0]] + b[1..];
    }
  }

  lemma SortOfSorted(s: seq<Result>)
    requires Sorted(s)
    ensures Sort(s) == s
  {
    SortSorted(s);
    SortedUnique(Sort(s), s);
  }

  /** Sorting ignores the order of its input. */
  lemma SortPermutation(a: seq<Result>, b: seq<Result>)
    requires multiset(a) == multiset(b)
    ensures Sort(a) == Sort(b)
  {
    SortSorted(a);
    SortSorted(b);
    SortedUnique(Sort(a), Sort(b));
  }

  /** Truncating before or after an insertion gives the same k best. */
  lemma {:induction false} TakeInsert(s: seq<Result>, x: Result, k: int)
    ensures Take(Insert(Take(s, k), x), k) == Take(Insert(s, x), k)
  {
    if k <= 0 || |s| <= k {
    } else if Better(x, s[0]) {
    } else {
      TakeInsert(s[1..], x, k - 1);
      assert Take(s, k)[1..] == Take(s[1..], k - 1);
      assert Take(Insert(s, x), k) == [s[0]] + Take(Insert(s[1..], x), k - 1);
    }
  }

  /** One more element of the stream is one `Offer` to the k best so far. */
  lemma BestStep(stream: seq<Result>, x: Result, k: int)
    ensures Best(stream + [x], k) == Offer(Best(stream, k), x, k)
  {
    assert (stream + [x])[..|stream|] == stream;
    TakeInsert(Sort(stream), x, k);
  }

  lemma BestSorted(stream: seq<Result>, k: int)
    ensures Sorted(Best(stream, k))
  {
    SortSorted(stream);
  }

  /** The bounded heap grows by one while it is not full. */
  lemma OfferRoom(w: seq<Result>, x: Result, k: int)
    requires |w| < k
    ensures Offer(w, x, k) == Insert(w, x)
    ensures x in Offer(w, x, k)
  {
    InsertMember(w, x, x);
  }

  lemma {:induction false} InsertBeforeLast(w: seq<Result>, last: Result, x: Result)
    requires Better(x, last)
    ensures Insert(w + [last], x) == Insert(w, x) + [last]
  {
    if w == [] {
      assert w + [last] == [last];
    } else {
      assert (w + [last])[1..] == w[1..] + [last];
      InsertBeforeLast(w[1..], last, x);
    }
  }

  lemma {:induction false} InsertAfterAll(w: seq<Result>, x: Result)
    requires forall y :: y in w ==> !Better(x, y)
    ensures Insert(w, x) == w + [x]
  {
    if w != [] {
      assert w[0] in w;
      InsertAfterAll(w[1..], x);
    }
  }

  lemma InsertLast(w: seq<Result>, x: Result)
    requires Sorted(w) && w != []
    ensures Better(x, w[|w| - 1]) ==> Insert(w, x) == Insert(w[..|w| - 1], x) + [w[|w| - 1]]
    ensures !Better(x, w[|w| - 1]) ==> Insert(w, x) == w + [x]
  {
    var last := w[|w| - 1];
    assert w == w[..|w| - 1] + [last];
    if Better(x, last) {
      InsertBeforeLast(w[..|w| - 1], last, x);
    } else {
      forall y | y in w
        ensures !Better(x, y)
      {
        assert !Better(last, y);
      }
      InsertAfterAll(w, x);
    }
  }

  /** A full bounded heap either evicts its worst element or refuses the newcomer. */
  lemma OfferFull(w: seq<Result>, x: Result, k: int)
    requires Sorted(w) && |w| == k > 0
    ensures Better(x, w[k - 1]) ==> Offer(w, x, k) == Insert(w[..k - 1], x)
    ensures !Better(x, w[k - 1]) ==> Offer(w, x, k) == w
  {
    InsertLast(w, x);
  }

  /** Everything in the stream is retained, or is no better than every retained element of a full list. */
  lemma BestIsBest(stream: seq<Result>, k: int, r: Result)
    requires r in stream
    ensures r !in Best(stream, k) ==> |Best(stream, k)| == if k < 0 then 0 else k
    ensures r !in Best(stream, k) ==> forall w :: w in Best(stream, k) ==> !Better(r, w)
  {
    SortMember(stream, r);
    SortSorted(stream);
    var t := Sort(stream);
    var i :| 0 <= i < |t| && t[i] == r;
    if i < k {
      assert Best(stream, k)[i] == r;
    } else {
      forall w | w in Best(stream, k)
        ensures !Better(r, w)
      {
        var j :| 0 <= j < |Best(stream, k)| && Best(stream, k)[j] == w;
        assert t[j] == w;
      }
    }
  }

  lemma BestMember(stream: seq<Result>, k: int, r: Result)
    requires r in Best(stream, k)
    ensures r in stream
  {
    SortMember(stream, r);
  }

  /** With room for the whole stream nothing is dropped. */
  lemma BestAll(stream: seq<Result>, k: int)
    requires |stream| <= k
    ensures Best(stream, k) == Sort(stream)
  {
  }

  /** An insertion never makes any rank worse. */
  lemma {:induction false} InsertRank(s: seq<Result>, x: Result, i: nat)
    requires Sorted(s) && i < |s|
    ensures !Better(s[i], Insert(s, x)[i])
  {
    if Better(x, s[0]) {
    } else if i > 0 {
      InsertRank(s[1..], x, i - 1);
    }
  }

  lemma SortStep(s: seq<Result>, x: Result)
    ensures Sort(s + [x]) == Insert(Sort(s), x)
  {
    assert (s + [x])[..|s|] == s;
  }

  /** A longer stream never makes any rank of its sorted list worse. */
  lemma {:induction false} SortRank(s: seq<Result>, more: seq<Result>, i: nat)
    requires i < |s|
    ensures !Better(Sort(s)[i], Sort(s + more)[i])
  {
    if more == [] {
      assert s + more == s;
    } else {
      var m := |more| - 1;
      var t := s + more[..m];
      assert s + more == t + [more[m]];
      SortRank(s, more[..m], i);
      SortStep(t, more[m]);
      SortSorted(t);
      InsertRank(Sort(t), more[m], i);
      StrictTotalOrder(Sort(s)[i], Sort(t + [more[m]])[i], Sort(t)[i]);
    }
  }
}
