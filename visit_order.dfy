/** The order in which `eval` visits the children of a plain dict or list:
    `sorted(items, key=lambda x: 0 if dict else 1 if list else 2)`. Python's `sorted` is
    stable, so the order is the dict-valued children, then the list-valued ones, then all
    others, each group in its original order; `StableSortUnique` shows that no other
    order is both sorted by rank and stable. */
module VisitOrder {
  import opened PyValues

  type Item = (Key, Value)

  /** The sort key of a child, computed on its raw (unevaluated) value. */
  function Rank(h: Heap, v: Value): (r: nat)
    ensures r <= 2
    ensures r == 0 <==> v.Ptr? && v.id < |h| && h[v.id].Dict?
    ensures r == 1 <==> v.Ptr? && v.id < |h| && h[v.id].List?
  {
    match v
    case Ptr(id) =>
      (match Deref(h, id) case Some(Dict(_)) => 0 case Some(List(_)) => 1 case _ => 2)
    case _ => 2
  }

  /** The children of rank `c`, in their original order. */
  function OfRank(h: Heap, c: nat, s: seq<Item>): (r: seq<Item>)
    ensures |r| <= |s|
    ensures forall i :: 0 <= i < |r| ==> Rank(h, r[i].1) == c
  {
    if s == [] then []
    else if Rank(h, s[0].1) == c then [s[0]] + OfRank(h, c, s[1..])
    else OfRank(h, c, s[1..])
  }

  /** `sorted(items, key=rank)`: dict-valued children, then list-valued, then the rest. */
  function SortByRank(h: Heap, s: seq<Item>): seq<Item>
  {
    OfRank(h, 0, s) + OfRank(h, 1, s) + OfRank(h, 2, s)
  }

  predicate SortedByRank(h: Heap, r: seq<Item>)
  {
    forall i, j :: 0 <= i < j < |r| ==> Rank(h, r[i].1) <= Rank(h, r[j].1)
  }

  lemma {:induction false} OfRankConcat(h: Heap, c: nat, a: seq<Item>, b: seq<Item>)
    ensures OfRank(h, c, a + b) == OfRank(h, c, a) + OfRank(h, c, b)
    decreases |a|
  {
    if a == [] {
      assert a + b == b;
    } else {
      assert (a + b)[0] == a[0];
      assert (a + b)[1..] == a[1..] + b;
      OfRankConcat(h, c, a[1..], b);
    }
  }

  lemma {:induction false} OfRankOther(h: Heap, c: nat, s: seq<Item>)
    requires forall i :: 0 <= i < |s| ==> Rank(h, s[i].1) != c
    ensures OfRank(h, c, s) == []
    decreases |s|
  {
    if s != [] { OfRankOther(h, c, s[1..]); }
  }

  lemma {:induction false} OfRankAll(h: Heap, c: nat, s: seq<Item>)
    requires forall i :: 0 <= i < |s| ==> Rank(h, s[i].1) == c
    ensures OfRank(h, c, s) == s
    decreases |s|
  {
    if s != [] { OfRankAll(h, c, s[1..]); }
  }

  /** Splitting by rank loses and duplicates nothing. */
  lemma {:induction false} OfRankPartition(h: Heap, s: seq<Item>)
    ensures multiset(OfRank(h, 0, s)) + multiset(OfRank(h, 1, s)) + multiset(OfRank(h, 2, s))
            == multiset(s)
    decreases |s|
  {
    if s != [] {
      OfRankPartition(h, s[1..]);
      assert s == [s[0]] + s[1..];
    }
  }

  /** Taking one rank of the sorted order gives that rank of the input. */
  lemma OfRankOfSorted(h: Heap, c: nat, s: seq<Item>)
    ensures OfRank(h, c, SortByRank(h, s)) == OfRank(h, c, s)
  {
    var g0, g1, g2 := OfRank(h, 0, s), OfRank(h, 1, s), OfRank(h, 2, s);
    OfRankConcat(h, c, g0 + g1, g2);
    OfRankConcat(h, c, g0, g1);
    if c == 0 {
      OfRankAll(h, 0, g0); OfRankOther(h, 0, g1); OfRankOther(h, 0, g2);
    } else if c == 1 {
      OfRankAll(h, 1, g1); OfRankOther(h, 1, g0); OfRankOther(h, 1, g2);
    } else if c == 2 {
      OfRankAll(h, 2, g2); OfRankOther(h, 2, g0); OfRankOther(h, 2, g1);
    } else {
      OfRankOther(h, c, g0); OfRankOther(h, c, g1); OfRankOther(h, c, g2);
      OfRankOther(h, c, s);
    }
  }

  /** Children are visited dicts first, then lists, then everything else; every child is
      visited exactly once; and children of equal rank keep their original order. */
  lemma VisitOrderIsStableByRank(h: Heap, s: seq<Item>)
    ensures SortedByRank(h, SortByRank(h, s))
    ensures multiset(SortByRank(h, s)) == multiset(s)
    ensures |SortByRank(h, s)| == |s|
    ensures forall c :: OfRank(h, c, SortByRank(h, s)) == OfRank(h, c, s)
  {
    var r := SortByRank(h, s);
    var g0, g1, g2 := OfRank(h, 0, s), OfRank(h, 1, s), OfRank(h, 2, s);
    forall i, j | 0 <= i < j < |r| ensures Rank(h, r[i].1) <= Rank(h, r[j].1) {
      if i < |g0| {
        assert r[i] == g0[i];
      } else if i < |g0| + |g1| {
        assert r[i] == g1[i - |g0|];
        if j < |g0| + |g1| { assert r[j] == g1[j - |g0|]; } else { assert r[j] == g2[j - |g0| - |g1|]; }
      } else {
        assert r[i] == g2[i - |g0| - |g1|];
        assert r[j] == g2[j - |g0| - |g1|];
      }
    }
    OfRankPartition(h, s);
    assert multiset(r) == multiset(g0) + multiset(g1) + multiset(g2);
    assert |r| == |multiset(r)|;
    forall c ensures OfRank(h, c, r) == OfRank(h, c, s) {
      OfRankOfSorted(h, c, s);
    }
  }

  /** A sequence sorted by rank is already grouped by rank. */
  lemma {:induction false} SortedIsGrouped(h: Heap, r: seq<Item>)
    requires SortedByRank(h, r)
    ensures r == SortByRank(h, r)
    decreases |r|
  {
    if r != [] {
      var x, t := r[0], r[1..];
      assert SortedByRank(h, t) by {
        forall i, j | 0 <= i < j < |t| ensures Rank(h, t[i].1) <= Rank(h, t[j].1) {
          assert t[i] == r[i + 1] && t[j] == r[j + 1];
        }
      }
      SortedIsGrouped(h, t);
      var rx := Rank(h, x.1);
      assert forall i :: 0 <= i < |t| ==> rx <= Rank(h, t[i].1) by {
        forall i | 0 <= i < |t| ensures rx <= Rank(h, t[i].1) { assert t[i] == r[i + 1]; }
      }
      if rx == 1 {
        OfRankOther(h, 0, t);
      } else if rx == 2 {
        OfRankOther(h, 0, t);
        OfRankOther(h, 1, t);
      }
    }
  }

  /** Any order that is sorted by rank and keeps each rank's original order is the
      visiting order: the stable sort by rank is unique. */
  lemma StableSortUnique(h: Heap, s: seq<Item>, r: seq<Item>)
    requires SortedByRank(h, r)
    requires forall c :: c <= 2 ==> OfRank(h, c, r) == OfRank(h, c, s)
    ensures r == SortByRank(h, s)
  {
    SortedIsGrouped(h, r);
  }

  lemma VisitedAreChildren(h: Heap, s: seq<Item>, x: Item)
    requires x in SortByRank(h, s)
    ensures x in s
  {
    VisitOrderIsStableByRank(h, s);
    assert x in multiset(SortByRank(h, s));
  }

  lemma ChildrenAreVisited(h: Heap, s: seq<Item>, x: Item)
    requires x in s
    ensures x in SortByRank(h, s)
  {
    VisitOrderIsStableByRank(h, s);
    assert x in multiset(s);
  }

  /** Every key of the container is visited, and nothing else. */
  lemma VisitOrderKeys(h: Heap, s: seq<Item>)
    ensures forall k :: k in Keys(SortByRank(h, s)) <==> k in Keys(s)
  {
    var r := SortByRank(h, s);
    forall k ensures k in Keys(r) <==> k in Keys(s) {
      if k in Keys(r) {
        var j :| 0 <= j < |r| && Keys(r)[j] == k;
        VisitedAreChildren(h, s, r[j]);
        var m :| 0 <= m < |s| && s[m] == r[j];
        assert Keys(s)[m] == k;
      }
      if k in Keys(s) {
        var m :| 0 <= m < |s| && Keys(s)[m] == k;
        ChildrenAreVisited(h, s, s[m]);
        var j :| 0 <= j < |r| && r[j] == s[m];
        assert Keys(r)[j] == k;
      }
    }
  }
}
