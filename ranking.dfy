/**
 * `products.sort(key=score, reverse=True)`: a stable sort, descending by score.
 * SortByScore is the specification (an insertion sort over sequences) and
 * InsertionSort the in-place algorithm on an array proved to compute it.
 */
module Ranking {
  import opened Catalog

  ghost predicate SortedByScore(s: seq<Product>) {
    forall i, j :: 0 <= i < j < |s| ==> s[i].score >= s[j].score
  }

  /** The products of `s` whose score is `k`, in the order `s` has them. */
  function WithScore(s: seq<Product>, k: real): (r: seq<Product>) {
    if |s| == 0 then []
    else WithScore(s[..|s| - 1], k) + (if s[|s| - 1].score == k then [s[|s| - 1]] else [])
  }

  /**
   * Inserts `x` behind every element at the end of `t` that scores at least as
   * much as it does, so that `x` follows its earlier equals.
   */
  function Insert(t: seq<Product>, x: Product): (r: seq<Product>)
    ensures |r| == |t| + 1
  {
    if |t| == 0 || t[|t| - 1].score >= x.score then t + [x]
    else Insert(t[..|t| - 1], x) + [t[|t| - 1]]
  }

  /** The stable descending sort: insert each product, left to right, into the sorted prefix. */
  function SortByScore(s: seq<Product>): (r: seq<Product>)
    ensures |r| == |s|
  {
    if |s| == 0 then [] else Insert(SortByScore(s[..|s| - 1]), s[|s| - 1])
  }

  lemma {:induction false} WithScoreAppend(s: seq<Product>, u: seq<Product>, k: real)
    ensures WithScore(s + u, k) == WithScore(s, k) + WithScore(u, k)
    decreases |u|
  {
    if |u| == 0 {
      assert s + u == s;
    } else {
      var su := s + u;
      assert su[..|su| - 1] == s + u[..|u| - 1];
      WithScoreAppend(s, u[..|u| - 1], k);
    }
  }

  lemma {:induction false} InsertPermutes(t: seq<Product>, x: Product)
    ensures multiset(Insert(t, x)) == multiset(t) + multiset{x}
    decreases |t|
  {
    if |t| > 0 && t[|t| - 1].score < x.score {
      InsertPermutes(t[..|t| - 1], x);
      assert t == t[..|t| - 1] + [t[|t| - 1]];
    }
  }

  lemma {:induction false} InsertKeepsSorted(t: seq<Product>, x: Product)
    requires SortedByScore(t)
    ensures SortedByScore(Insert(t, x))
    decreases |t|
  {
    if |t| > 0 && t[|t| - 1].score < x.score {
      var last := t[|t| - 1];
      var init := t[..|t| - 1];
      InsertKeepsSorted(init, x);
      InsertPermutes(init, x);
      var r := Insert(init, x);
      forall i | 0 <= i < |r| ensures r[i].score >= last.score {
        assert r[i] in multiset(init) + multiset{x};
        if r[i] in init {
          var m :| 0 <= m < |init| && init[m] == r[i];
          assert t[m] == r[i];
        }
      }
    }
  }

  lemma {:induction false} InsertIsStable(t: seq<Product>, x: Product, k: real)
    ensures WithScore(Insert(t, x), k) == WithScore(t, k) + WithScore([x], k)
    decreases |t|
  {
    if |t| == 0 || t[|t| - 1].score >= x.score {
      WithScoreAppend(t, [x], k);
    } else {
      var last := t[|t| - 1];
      var init := t[..|t| - 1];
      InsertIsStable(init, x, k);
      WithScoreAppend(Insert(init, x), [last], k);
      WithScoreAppend(init, [last], k);
      assert init + [last] == t;
      assert [x][..0] == [] && [last][..0] == [];
    }
  }

  /** The ranking is ordered by non-increasing score. */
  lemma {:induction false} SortByScoreSorted(s: seq<Product>)
    ensures SortedByScore(SortByScore(s))
    decreases |s|
  {
    if |s| > 0 {
      SortByScoreSorted(s[..|s| - 1]);
      InsertKeepsSorted(SortByScore(s[..|s| - 1]), s[|s| - 1]);
    }
  }

  /** The ranking holds exactly the scored products, each as often as before. */
  lemma {:induction false} SortByScorePermutes(s: seq<Product>)
    ensures multiset(SortByScore(s)) == multiset(s)
    ensures |SortByScore(s)| == |s|
    decreases |s|
  {
    if |s| > 0 {
      SortByScorePermutes(s[..|s| - 1]);
      InsertPermutes(SortByScore(s[..|s| - 1]), s[|s| - 1]);
      assert s == s[..|s| - 1] + [s[|s| - 1]];
    }
  }

  /** Products of equal score keep their original relative order. */
  lemma {:induction false} SortByScoreStable(s: seq<Product>, k: real)
    ensures WithScore(SortByScore(s), k) == WithScore(s, k)
    decreases |s|
  {
    if |s| > 0 {
      var init := s[..|s| - 1];
      SortByScoreStable(init, k);
      InsertIsStable(SortByScore(init), s[|s| - 1], k);
      WithScoreAppend(init, [s[|s| - 1]], k);
      assert init + [s[|s| - 1]] == s;
      assert [s[|s| - 1]][..0] == [];
    }
  }

  lemma {:induction false} WithScoreMembers(s: seq<Product>, k: real, x: Product)
    ensures x in WithScore(s, k) <==> x in s && x.score == k
    decreases |s|
  {
    if |s| > 0 {
      WithScoreMembers(s[..|s| - 1], k, x);
      assert s == s[..|s| - 1] + [s[|s| - 1]];
    }
  }

  lemma TiedMember(r: seq<Product>, t: seq<Product>, y: Product)
    requires WithScore(r, y.score) == WithScore(t, y.score)
    requires y in t
    ensures y in r
  {
    WithScoreMembers(t, y.score, y);
    WithScoreMembers(r, y.score, y);
  }

  lemma LowestAtEnd(s: seq<Product>, v: Product)
    requires SortedByScore(s) && v in s
    ensures v.score >= s[|s| - 1].score
  {
    var i :| 0 <= i < |s| && s[i] == v;
    if i < |s| - 1 {
      assert s[i].score >= s[|s| - 1].score;
    }
  }

  /** Equal-score contents force equal lengths, and the same lowest score at the end. */
  lemma LastScoresAgree(r: seq<Product>, t: seq<Product>)
    requires SortedByScore(r) && SortedByScore(t)
    requires forall k :: WithScore(r, k) == WithScore(t, k)
    ensures |r| > 0 <==> |t| > 0
    ensures |r| > 0 ==> r[|r| - 1].score == t[|t| - 1].score
  {
    if |t| > 0 {
      TiedMember(r, t, t[|t| - 1]);
    }
    if |r| > 0 {
      var x := r[|r| - 1];
      TiedMember(t, r, x);
      var y := t[|t| - 1];
      TiedMember(r, t, y);
      LowestAtEnd(r, y);
      LowestAtEnd(t, x);
    }
  }

  lemma AppendCancel(a: seq<Product>, b: seq<Product>, x: Product, y: Product)
    requires a + [x] == b + [y]
    ensures a == b && x == y
  {
    assert |a| == |b|;
    assert (a + [x])[..|a|] == a && (b + [y])[..|b|] == b;
    assert (a + [x])[|a|] == x && (b + [y])[|b|] == y;
  }

  /** Removing one product from the end of both sides keeps one score's run equal. */
  lemma DropLastAt(r: seq<Product>, t: seq<Product>, k: real)
    requires |r| > 0 && |t| > 0 && r[|r| - 1] == t[|t| - 1]
    requires WithScore(r, k) == WithScore(t, k)
    ensures WithScore(r[..|r| - 1], k) == WithScore(t[..|t| - 1], k)
  {
    var x := r[|r| - 1];
    var r', t' := r[..|r| - 1], t[..|t| - 1];
    var tail: seq<Product> := if x.score == k then [x] else [];
    assert WithScore(r, k) == WithScore(r', k) + tail;
    assert WithScore(t, k) == WithScore(t', k) + tail;
    if x.score == k {
      AppendCancel(WithScore(r', k), WithScore(t', k), x, x);
    } else {
      assert WithScore(r', k) + tail == WithScore(r', k);
      assert WithScore(t', k) + tail == WithScore(t', k);
    }
  }

  /** With the same last score, the same last product, and the same contents before it. */
  lemma DropLastAgree(r: seq<Product>, t: seq<Product>)
    requires |r| > 0 && |t| > 0 && r[|r| - 1].score == t[|t| - 1].score
    requires forall k :: WithScore(r, k) == WithScore(t, k)
    ensures r[|r| - 1] == t[|t| - 1]
    ensures var r', t' := r[..|r| - 1], t[..|t| - 1]; forall k :: WithScore(r', k) == WithScore(t', k)
  {
    var x, y := r[|r| - 1], t[|t| - 1];
    var k := x.score;
    assert WithScore(r, k) == WithScore(t, k);
    AppendCancel(WithScore(r[..|r| - 1], k), WithScore(t[..|t| - 1], k), x, y);
    var r', t' := r[..|r| - 1], t[..|t| - 1];
    forall k' ensures WithScore(r', k') == WithScore(t', k') {
      DropLastAt(r, t, k');
    }
  }

  /**
   * Two orders, both descending by score and both keeping equal-score products in
   * the same relative order, are the same order.
   */
  lemma {:induction false} StableOrderUnique(r: seq<Product>, t: seq<Product>)
    requires SortedByScore(r) && SortedByScore(t)
    requires forall k :: WithScore(r, k) == WithScore(t, k)
    ensures r == t
    decreases |r|
  {
    LastScoresAgree(r, t);
    if |r| > 0 {
      DropLastAgree(r, t);
      StableOrderUnique(r[..|r| - 1], t[..|t| - 1]);
      assert r == r[..|r| - 1] + [r[|r| - 1]];
      assert t == t[..|t| - 1] + [t[|t| - 1]];
    }
  }

  /**
   * SortByScore is the one stable descending order: any order of the products that
   * is descending by score and keeps tied products in input order is SortByScore.
   */
  lemma SortByScoreUnique(s: seq<Product>, r: seq<Product>)
    requires SortedByScore(r)
    requires forall k :: WithScore(r, k) == WithScore(s, k)
    ensures r == SortByScore(s)
  {
    SortByScoreSorted(s);
    forall k ensures WithScore(SortByScore(s), k) == WithScore(s, k) {
      SortByScoreStable(s, k);
    }
    StableOrderUnique(r, SortByScore(s));
  }

  /**
   * Where the insertion lands: behind the last product scoring at least `x.score`,
   * in front of the run of lower-scored products at the end of `t`.
   */
  lemma {:induction false} InsertAt(t: seq<Product>, x: Product, j: nat)
    requires j <= |t|
    requires j == 0 || t[j - 1].score >= x.score
    requires forall k :: j <= k < |t| ==> t[k].score < x.score
    ensures Insert(t, x) == t[..j] + [x] + t[j..]
    decreases |t|
  {
    if j == |t| {
      assert t[..j] == t;
    } else {
      var init := t[..|t| - 1];
      InsertAt(init, x, j);
      assert init[..j] == t[..j];
      assert t[j..] == init[j..] + [t[|t| - 1]];
    }
  }

  /**
   * Shifts the products of `a[..i]` that score below `x` one place to the right,
   * from the end, and returns the gap left where `x` belongs.
   */
  method ShiftLower(a: array<Product>, i: nat, x: Product) returns (j: nat)
    requires i < a.Length
    modifies a
    ensures j <= i
    ensures j == 0 || old(a[j - 1]).score >= x.score
    ensures forall k :: j <= k < i ==> old(a[k]).score < x.score
    ensures forall k :: 0 <= k < j ==> a[k] == old(a[k])
    ensures forall k :: j < k <= i ==> a[k] == old(a[k - 1])
    ensures forall k :: i < k < a.Length ==> a[k] == old(a[k])
  {
    j := i;
    while j > 0 && a[j - 1].score < x.score
      invariant j <= i
      invariant forall k :: j <= k < i ==> old(a[k]).score < x.score
      invariant forall k :: 0 <= k < j ==> a[k] == old(a[k])
      invariant forall k :: j < k <= i ==> a[k] == old(a[k - 1])
      invariant forall k :: i < k < a.Length ==> a[k] == old(a[k])
    {
      a[j] := a[j - 1];
      j := j - 1;
    }
  }

  /** The array picture after the shift: the prefix, then `x`, then the shifted tail. */
  lemma ShiftedInsert(b: seq<Product>, t: seq<Product>, x: Product, j: nat)
    requires j <= |t| && |b| == |t| + 1
    requires forall k :: 0 <= k < j ==> b[k] == t[k]
    requires b[j] == x
    requires forall k :: j < k < |b| ==> b[k] == t[k - 1]
    ensures b == t[..j] + [x] + t[j..]
  {
  }

  /** Moves `a[i]` into the sorted prefix `a[..i]`, shifting the lower-scored tail right. */
  method InsertInPlace(a: array<Product>, i: nat)
    requires i < a.Length
    modifies a
    ensures a[..i + 1] == Insert(old(a[..i]), old(a[i]))
    ensures a[i + 1..] == old(a[i + 1..])
  {
    var x := a[i];
    ghost var t := a[..i];
    ghost var rest := a[i + 1..];
    var j := ShiftLower(a, i, x);
    InsertAt(t, x, j);
    a[j] := x;
    ShiftedInsert(a[..i + 1], t, x, j);
    assert a[i + 1..] == rest;
  }

  /** Sorts `a` in place, stably and descending by score, by insertion. */
  method InsertionSort(a: array<Product>)
    modifies a
    ensures a[..] == SortByScore(old(a[..]))
  {
    ghost var input := a[..];
    var i := 0;
    while i < a.Length
      invariant 0 <= i <= a.Length
      invariant a[..i] == SortByScore(input[..i])
      invariant a[i..] == input[i..]
    {
      assert input[..i + 1][..i] == input[..i];
      assert input[..i + 1][i] == a[i];
      InsertInPlace(a, i);
      i := i + 1;
    }
    assert input[..a.Length] == input;
  }
}
