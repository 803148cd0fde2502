/** The counting and ordering the report producers rely on: keys in order of
    first appearance (the insertion order of a Python dict or `Counter`),
    `Counter.most_common`, which orders keys by count and keeps first
    appearance among equal counts, `max` with its first-wins tie rule, and
    Python's string order. */
module Ranking {

  // ---------------------------------------------------------------------------
  // Occurrences and first appearance
  // ---------------------------------------------------------------------------

  /** How many times `k` occurs in `xs`: what a `Counter` holds for `k`. */
  function Count<K(==)>(xs: seq<K>, k: K): nat {
    multiset(xs)[k]
  }

  /** The position of the first occurrence of `k`. */
  function FirstIndex<K(==)>(xs: seq<K>, k: K): (i: nat)
    requires k in xs
    ensures i < |xs| && xs[i] == k
    ensures forall j :: 0 <= j < i ==> xs[j] != k
  {
    if xs[0] == k then 0 else 1 + FirstIndex(xs[1..], k)
  }

  predicate NoDup<K(==)>(s: seq<K>) {
    forall i, j :: 0 <= i < j < |s| ==> s[i] != s[j]
  }

  /** The first `n` elements (Python `s[:n]`). */
  function Take<T>(s: seq<T>, n: nat): (r: seq<T>)
    ensures |r| == if |s| <= n then |s| else n
    ensures r == s[..|r|]
  {
    if |s| <= n then s else s[..n]
  }

  /** The distinct keys of `xs`, each where it first appears. */
  function Distinct<K(==)>(xs: seq<K>): (ks: seq<K>)
    ensures NoDup(ks)
    ensures forall i :: 0 <= i < |ks| ==> ks[i] in xs
    ensures forall i :: 0 <= i < |xs| ==> xs[i] in ks
    ensures |ks| <= |xs|
  {
    if |xs| == 0 then []
    else
      var init, last := xs[..|xs| - 1], xs[|xs| - 1];
      var d := Distinct(init);
      assert forall i :: 0 <= i < |init| ==> xs[i] == init[i];
      if last in init then d else d + [last]
  }

  /** A key's first appearance is unaffected by what follows it. */
  lemma FirstIndexExtend<K>(xs: seq<K>, ys: seq<K>, k: K)
    requires k in xs
    ensures k in xs + ys && FirstIndex(xs + ys, k) == FirstIndex(xs, k)
  {
    var i, j := FirstIndex(xs, k), FirstIndex(xs + ys, k);
    assert (xs + ys)[i] == k;
  }

  /** Distinct keys are listed in order of first appearance. */
  lemma {:induction false} DistinctOrder<K>(xs: seq<K>)
    ensures forall i, j :: 0 <= i < j < |Distinct(xs)| ==>
      FirstIndex(xs, Distinct(xs)[i]) < FirstIndex(xs, Distinct(xs)[j])
  {
    if |xs| > 0 {
      var init, last := xs[..|xs| - 1], xs[|xs| - 1];
      assert xs == init + [last];
      DistinctOrder(init);
      var d := Distinct(init);
      forall k | k in init
        ensures FirstIndex(xs, k) == FirstIndex(init, k) && FirstIndex(xs, k) < |init|
      {
        FirstIndexExtend(init, [last], k);
      }
      if last !in init {
        assert FirstIndex(xs, last) == |init|;
      }
    }
  }

  /** A list without repetitions has as many elements as its set. */
  lemma {:induction false} NoDupCard<K>(s: seq<K>)
    requires NoDup(s)
    ensures |set x | x in s| == |s|
  {
    if |s| > 0 {
      var init := s[..|s| - 1];
      NoDupCard(init);
      assert (set x | x in s) == (set x | x in init) + {s[|s| - 1]};
      assert s[|s| - 1] !in init;
    }
  }

  /** The number of distinct keys is the size of the set of keys: what
      `len(set(...))` counts. */
  lemma DistinctCard<K>(xs: seq<K>)
    ensures |Distinct(xs)| == |set x | x in xs|
  {
    NoDupCard(Distinct(xs));
    assert (set x | x in Distinct(xs)) == (set x | x in xs);
  }

  // ---------------------------------------------------------------------------
  // Counter.most_common
  // ---------------------------------------------------------------------------

  /** The order of `Counter.most_common`: more occurrences first, and among
      equal counts the key that appeared first. */
  predicate Precedes<K(==)>(xs: seq<K>, a: K, b: K)
    requires a in xs && b in xs
  {
    Count(xs, a) > Count(xs, b) || (Count(xs, a) == Count(xs, b) && FirstIndex(xs, a) < FirstIndex(xs, b))
  }

  predicate SortedBy<K(==)>(xs: seq<K>, s: seq<K>)
    requires forall k :: k in s ==> k in xs
  {
    forall i, j :: 0 <= i < j < |s| ==> Precedes(xs, s[i], s[j])
  }

  /** Any two different keys of `xs` are ordered one way or the other. */
  lemma PrecedesTotal<K>(xs: seq<K>, a: K, b: K)
    requires a in xs && b in xs && a != b
    ensures Precedes(xs, a, b) != Precedes(xs, b, a)
  {
    assert FirstIndex(xs, a) != FirstIndex(xs, b);
  }

  /** Inserts `x` before the first key it precedes. */
  function Insert<K(==)>(xs: seq<K>, x: K, s: seq<K>): (r: seq<K>)
    requires x in xs && forall k :: k in s ==> k in xs
    ensures multiset(r) == multiset(s) + multiset{x}
    ensures forall k :: k in r ==> k in xs
  {
    if |s| == 0 then [x]
    else if Precedes(xs, x, s[0]) then [x] + s
    else
      var r := [s[0]] + Insert(xs, x, s[1..]);
      assert s == [s[0]] + s[1..];
      r
  }

  lemma {:induction false} InsertSorted<K>(xs: seq<K>, x: K, s: seq<K>)
    requires x in xs && forall k :: k in s ==> k in xs
    requires x !in s && SortedBy(xs, s)
    ensures SortedBy(xs, Insert(xs, x, s))
  {
    if |s| > 0 {
      if Precedes(xs, x, s[0]) {
        forall j | 0 < j < |s|
          ensures Precedes(xs, x, s[j])
        {
          assert Precedes(xs, s[0], s[j]);
        }
      } else {
        PrecedesTotal(xs, x, s[0]);
        InsertSorted(xs, x, s[1..]);
        var t := Insert(xs, x, s[1..]);
        forall k | k in t
          ensures Precedes(xs, s[0], k)
        {
          assert k in multiset(t);
          if k != x {
            assert k in multiset(s[1..]);
            var j :| 0 <= j < |s[1..]| && s[1..][j] == k;
            assert s[j + 1] == k;
          }
        }
      }
    }
  }

  /** Insertion sort by `Precedes`. */
  function SortKeys<K(==)>(xs: seq<K>, ks: seq<K>): (r: seq<K>)
    requires forall k :: k in ks ==> k in xs
    ensures multiset(r) == multiset(ks)
    ensures forall k :: k in r ==> k in xs
  {
    if |ks| == 0 then []
    else
      assert ks == [ks[0]] + ks[1..];
      Insert(xs, ks[0], SortKeys(xs, ks[1..]))
  }

  lemma {:induction false} SortKeysSorted<K>(xs: seq<K>, ks: seq<K>)
    requires forall k :: k in ks ==> k in xs
    requires NoDup(ks)
    ensures SortedBy(xs, SortKeys(xs, ks))
  {
    if |ks| > 0 {
      SortKeysSorted(xs, ks[1..]);
      var rest := SortKeys(xs, ks[1..]);
      assert ks[0] !in ks[1..];
      assert ks[0] !in multiset(ks[1..]);
      assert ks[0] !in multiset(rest);
      InsertSorted(xs, ks[0], rest);
    }
  }

  /** The keys of `xs` as `Counter(xs).most_common()` lists them. */
  function Rank<K(==)>(xs: seq<K>): (r: seq<K>)
    ensures forall k :: k in r ==> k in xs
  {
    SortKeys(xs, Distinct(xs))
  }

  /** `most_common` lists every distinct key exactly once, more frequent keys
      first and, among equally frequent keys, the one that appeared first. */
  lemma RankSpec<K>(xs: seq<K>)
    ensures multiset(Rank(xs)) == multiset(Distinct(xs))
    ensures forall k :: k in Rank(xs) <==> k in xs
    ensures NoDup(Rank(xs)) && |Rank(xs)| == |Distinct(xs)|
    ensures SortedBy(xs, Rank(xs))
  {
    var r := Rank(xs);
    SortKeysSorted(xs, Distinct(xs));
    assert |r| == |multiset(r)| == |multiset(Distinct(xs))| == |Distinct(xs)|;
    forall k | k in xs
      ensures k in r
    {
      assert k in multiset(Distinct(xs));
    }
    forall i, j | 0 <= i < j < |r|
      ensures r[i] != r[j]
    {
      assert Precedes(xs, r[i], r[j]);
    }
  }

  /** `Counter(xs).most_common(n)`: the first `n` ranked keys, each with its
      count. */
  function MostCommon<K(==)>(xs: seq<K>, n: nat): (r: seq<(K, nat)>)
    ensures |r| <= n
    ensures forall i :: 0 <= i < |r| ==> r[i].0 in xs && r[i].1 == Count(xs, r[i].0)
  {
    var ks := Take(Rank(xs), n);
    seq(|ks|, i requires 0 <= i < |ks| => (ks[i], Count(xs, ks[i])))
  }

  /** The listed keys are the most frequent ones: every key left out of a
      `most_common(n)` listing occurs no more often than any listed key, and
      when it is as frequent, it appeared later. */
  lemma MostCommonTop<K>(xs: seq<K>, n: nat, k: K)
    requires k in xs
    requires forall i :: 0 <= i < |MostCommon(xs, n)| ==> MostCommon(xs, n)[i].0 != k
    ensures forall i :: 0 <= i < |MostCommon(xs, n)| ==> Precedes(xs, MostCommon(xs, n)[i].0, k)
  {
    RankSpec(xs);
    var r := Rank(xs);
    var m := MostCommon(xs, n);
    var j :| 0 <= j < |r| && r[j] == k;
    assert forall i :: 0 <= i < |m| ==> m[i].0 == r[i];
    assert j >= |m|;
    forall i | 0 <= i < |m|
      ensures Precedes(xs, m[i].0, k)
    {
      assert Precedes(xs, r[i], r[j]);
    }
  }

  /** A `most_common(n)` listing holds `n` keys, or every key when there
      are fewer, in the order of `Precedes`. */
  lemma MostCommonOrder<K>(xs: seq<K>, n: nat)
    ensures |MostCommon(xs, n)| == if |Distinct(xs)| <= n then |Distinct(xs)| else n
    ensures forall i, j :: 0 <= i < j < |MostCommon(xs, n)| ==>
      Precedes(xs, MostCommon(xs, n)[i].0, MostCommon(xs, n)[j].0)
  {
    RankSpec(xs);
    var r := Rank(xs);
    var m := MostCommon(xs, n);
    assert forall i :: 0 <= i < |m| ==> m[i].0 == r[i];
  }

  // ---------------------------------------------------------------------------
  // max(d, key=d.get)
  // ---------------------------------------------------------------------------

  /** `max(counter, key=counter.get)`: scans the keys in first-appearance
      order and keeps the first key with the largest count. */
  method FirstMax<K(==)>(xs: seq<K>) returns (best: K)
    requires |xs| > 0
    ensures best in xs
    ensures forall k :: k in xs && k != best ==> Precedes(xs, best, k)
  {
    var ks := Distinct(xs);
    DistinctOrder(xs);
    best := ks[0];
    var i := 1;
    while i < |ks|
      invariant 1 <= i <= |ks|
      invariant best in ks[..i]
      invariant forall j :: 0 <= j < i && ks[j] != best ==> Precedes(xs, best, ks[j])
    {
      if Count(xs, ks[i]) > Count(xs, best) {
        forall j | 0 <= j < i && ks[j] != ks[i]
          ensures Precedes(xs, ks[i], ks[j])
        {
          if ks[j] != best {
            assert Precedes(xs, best, ks[j]);
          }
        }
        best := ks[i];
      } else {
        var b :| 0 <= b < i && ks[b] == best;
        assert FirstIndex(xs, best) < FirstIndex(xs, ks[i]);
      }
      i := i + 1;
    }
    forall k | k in xs && k != best
      ensures Precedes(xs, best, k)
    {
      var j :| 0 <= j < |ks| && ks[j] == k;
      assert ks[..i][j] == k;
    }
  }

  /** The first maximum is the head of the `most_common` listing: the key
      that precedes every other key is unique. */
  lemma FirstMaxIsTop<K>(xs: seq<K>, best: K)
    requires |xs| > 0 && best in xs
    requires forall k :: k in xs && k != best ==> Precedes(xs, best, k)
    ensures |Rank(xs)| > 0 && Rank(xs)[0] == best
  {
    RankSpec(xs);
    var r := Rank(xs);
    assert xs[0] in r;
    if r[0] != best {
      var j :| 0 <= j < |r| && r[j] == best;
      assert Precedes(xs, r[0], best);
      PrecedesTotal(xs, best, r[0]);
      assert false;
    }
  }

  // ---------------------------------------------------------------------------
  // Python string order and max(..., key=...)
  // ---------------------------------------------------------------------------

  /** `a < b` on Python strings: code point by code point, a proper prefix
      first. */
  predicate StrLess(a: string, b: string) {
    if |a| == 0 then |b| > 0
    else if |b| == 0 then false
    else a[0] < b[0] || (a[0] == b[0] && StrLess(a[1..], b[1..]))
  }

  lemma {:induction false} StrLessIrreflexive(a: string)
    ensures !StrLess(a, a)
  {
    if |a| > 0 {
      StrLessIrreflexive(a[1..]);
    }
  }

  lemma {:induction false} StrLessTransitive(a: string, b: string, c: string)
    requires StrLess(a, b) && StrLess(b, c)
    ensures StrLess(a, c)
  {
    if |a| > 0 && |b| > 0 && |c| > 0 && a[0] == b[0] && b[0] == c[0] {
      StrLessTransitive(a[1..], b[1..], c[1..]);
    }
  }

  lemma {:induction false} StrLessTotal(a: string, b: string)
    requires a != b
    ensures StrLess(a, b) != StrLess(b, a)
  {
    if |a| > 0 && |b| > 0 {
      if a[0] == b[0] {
        assert a == [a[0]] + a[1..] && b == [b[0]] + b[1..];
        StrLessTotal(a[1..], b[1..]);
      }
    }
  }

  /** The index `max(xs, key=f)` picks when the keys are the strings `ks`: the
      first position holding the largest string. */
  function MaxIndex(ks: seq<string>): (m: nat)
    requires |ks| > 0
    ensures m < |ks|
  {
    if |ks| == 1 then 0
    else
      var m := MaxIndex(ks[..|ks| - 1]);
      if StrLess(ks[m], ks[|ks| - 1]) then |ks| - 1 else m
  }

  /** No string is larger than the chosen one, and every earlier position
      holds a strictly smaller string: the first of equal maxima wins. */
  lemma {:induction false} MaxIndexSpec(ks: seq<string>)
    requires |ks| > 0
    ensures forall j :: 0 <= j < |ks| ==> !StrLess(ks[MaxIndex(ks)], ks[j])
    ensures forall j :: 0 <= j < MaxIndex(ks) ==> StrLess(ks[j], ks[MaxIndex(ks)])
  {
    if |ks| == 1 {
      StrLessIrreflexive(ks[0]);
    } else {
      var init := ks[..|ks| - 1];
      MaxIndexSpec(init);
      var m := MaxIndex(init);
      var last := ks[|ks| - 1];
      assert forall j :: 0 <= j < |init| ==> init[j] == ks[j];
      assert MaxIndex(ks) == if StrLess(ks[m], last) then |ks| - 1 else m;
      if StrLess(ks[m], last) {
        forall j | 0 <= j < |ks|
          ensures !StrLess(last, ks[j])
        {
          if j < |init| && StrLess(last, ks[j]) {
            StrLessTransitive(ks[m], last, ks[j]);
          } else if j == |ks| - 1 {
            StrLessIrreflexive(last);
          }
        }
        forall j | 0 <= j < |ks| - 1
          ensures StrLess(ks[j], last)
        {
          if ks[j] != ks[m] {
            StrLessTotal(ks[j], ks[m]);
            StrLessTransitive(ks[j], ks[m], last);
          }
        }
      } else {
        if last != ks[m] {
          StrLessTotal(last, ks[m]);
        } else {
          StrLessIrreflexive(last);
        }
      }
    }
  }

  // ---------------------------------------------------------------------------
  // Filtering
  // ---------------------------------------------------------------------------

  /** The elements satisfying `keep`, in order (a list comprehension with an
      `if`). */
  function Filter<T>(keep: T -> bool, s: seq<T>): (r: seq<T>)
    ensures |r| <= |s|
    ensures forall i :: 0 <= i < |r| ==> r[i] in s && keep(r[i])
    ensures forall i :: 0 <= i < |s| && keep(s[i]) ==> s[i] in r
  {
    if |s| == 0 then []
    else (if keep(s[0]) then [s[0]] else []) + Filter(keep, s[1..])
  }

  lemma {:induction false} FilterConcat<T>(keep: T -> bool, a: seq<T>, b: seq<T>)
    ensures Filter(keep, a + b) == Filter(keep, a) + Filter(keep, b)
  {
    if |a| == 0 {
      assert a + b == b;
    } else {
      assert (a + b)[0] == a[0] && (a + b)[1..] == a[1..] + b;
      FilterConcat(keep, a[1..], b);
    }
  }

  /** Dropping an element that is filtered out does not change the result. */
  lemma FilterSkips<T>(keep: T -> bool, a: seq<T>, x: T, b: seq<T>)
    requires !keep(x)
    ensures Filter(keep, a + [x] + b) == Filter(keep, a + b)
  {
    FilterConcat(keep, a + [x], b);
    FilterConcat(keep, a, [x]);
    FilterConcat(keep, a, b);
    assert Filter(keep, [x]) == [] by {
      assert [x][1..] == [];
    }
  }
}
