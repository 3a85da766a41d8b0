/** Stable ordering by an integer key and truncation, the two stream steps
    the dashboard's activity lists are built from (Stream.sorted with a
    comparator, which is stable on an ordered stream, and Stream.limit). */
module Sorting {

  /** Rows paired with the key they are ordered by. */
  type Keyed<T> = (int, T)

  predicate SortedByKey<T>(s: seq<Keyed<T>>)
  {
    forall i, j :: 0 <= i < j < |s| ==> s[i].0 <= s[j].0
  }

  /** The rows with key k, in their order in s. */
  function WithKey<T>(s: seq<Keyed<T>>, k: int): seq<Keyed<T>>
  {
    if s == [] then []
    else (if s[0].0 == k then [s[0]] else []) + WithKey(s[1..], k)
  }

  /** Puts x into a sorted sequence after every row whose key is not larger. */
  function Insert<T>(x: Keyed<T>, s: seq<Keyed<T>>): seq<Keyed<T>>
  {
    if s == [] then [x]
    else if x.0 < s[0].0 then [x] + s
    else [s[0]] + Insert(x, s[1..])
  }

  /** Insertion sort by ascending key; equal keys keep their input order. */
  function SortByKey<T>(s: seq<Keyed<T>>): seq<Keyed<T>>
  {
    if s == [] then []
    else Insert(s[|s| - 1], SortByKey(s[..|s| - 1]))
  }

  /** Stream.limit: the first n rows, or all of them when there are fewer. */
  function Take<T>(s: seq<T>, n: nat): (r: seq<T>)
    ensures |r| == if n < |s| then n else |s|
    ensures r <= s
    ensures |s| <= n ==> r == s
  {
    if n < |s| then s[..n] else s
  }

  /** The rows of keyed pairs, keys dropped. */
  function Rows<T>(s: seq<Keyed<T>>): (r: seq<T>)
    ensures |r| == |s| && forall i :: 0 <= i < |s| ==> r[i] == s[i].1
  {
    seq(|s|, i requires 0 <= i < |s| => s[i].1)
  }

  lemma {:induction false} WithKeyAppend<T>(a: seq<Keyed<T>>, b: seq<Keyed<T>>, k: int)
    ensures WithKey(a + b, k) == WithKey(a, k) + WithKey(b, k)
  {
    if a == [] {
      assert a + b == b;
    } else {
      var head := if a[0].0 == k then [a[0]] else [];
      assert (a + b)[0] == a[0];
      assert (a + b)[1..] == a[1..] + b;
      WithKeyAppend(a[1..], b, k);
      calc {
        WithKey(a + b, k);
        head + WithKey(a[1..] + b, k);
        head + (WithKey(a[1..], k) + WithKey(b, k));
        (head + WithKey(a[1..], k)) + WithKey(b, k);
      }
    }
  }

  lemma {:induction false} WithKeyAbsent<T>(s: seq<Keyed<T>>, k: int)
    requires forall i :: 0 <= i < |s| ==> s[i].0 != k
    ensures WithKey(s, k) == []
  {
    if s != [] {
      WithKeyAbsent(s[1..], k);
    }
  }

  lemma {:induction false} InsertMultiset<T>(x: Keyed<T>, s: seq<Keyed<T>>)
    ensures multiset(Insert(x, s)) == multiset(s) + multiset{x}
  {
    if s != [] && x.0 >= s[0].0 {
      InsertMultiset(x, s[1..]);
      assert s == [s[0]] + s[1..];
    }
  }

  /** A bound below x and every row of s is a bound below every row of Insert(x, s). */
  lemma {:induction false} InsertLowerBound<T>(x: Keyed<T>, s: seq<Keyed<T>>, lo: int)
    requires lo <= x.0 && forall i :: 0 <= i < |s| ==> lo <= s[i].0
    ensures forall i :: 0 <= i < |Insert(x, s)| ==> lo <= Insert(x, s)[i].0
  {
    if s != [] && x.0 >= s[0].0 {
      InsertLowerBound(x, s[1..], lo);
    }
  }

  lemma {:induction false} InsertSorted<T>(x: Keyed<T>, s: seq<Keyed<T>>)
    requires SortedByKey(s)
    ensures SortedByKey(Insert(x, s))
  {
    if s != [] && x.0 >= s[0].0 {
      InsertSorted(x, s[1..]);
      InsertLowerBound(x, s[1..], s[0].0);
    }
  }

  lemma {:induction false} InsertWithKey<T>(x: Keyed<T>, s: seq<Keyed<T>>, k: int)
    requires SortedByKey(s)
    ensures WithKey(Insert(x, s), k) == WithKey(s, k) + (if x.0 == k then [x] else [])
  {
    var tail := if x.0 == k then [x] else [];
    if s == [] {
      assert Insert(x, s) == [x] + [];
      WithKeyAppend([x], [], k);
    } else if x.0 < s[0].0 {
      WithKeyAppend([x], s, k);
      if x.0 == k {
        WithKeyAbsent(s, k);
      }
    } else {
      var r := Insert(x, s[1..]);
      InsertWithKey(x, s[1..], k);
      assert s == [s[0]] + s[1..];
      WithKeyAppend([s[0]], r, k);
      WithKeyAppend([s[0]], s[1..], k);
      calc {
        WithKey(Insert(x, s), k);
        WithKey([s[0]], k) + WithKey(r, k);
        WithKey([s[0]], k) + (WithKey(s[1..], k) + tail);
        (WithKey([s[0]], k) + WithKey(s[1..], k)) + tail;
        WithKey(s, k) + tail;
      }
    }
  }

  /** The sort returns the input rows, each once, in ascending key order, and
      rows with equal keys stay in their input order. */
  lemma {:induction false} SortByKeyProperties<T>(s: seq<Keyed<T>>)
    ensures SortedByKey(SortByKey(s))
    ensures multiset(SortByKey(s)) == multiset(s)
    ensures forall k :: WithKey(SortByKey(s), k) == WithKey(s, k)
  {
    if s != [] {
      var init, last := s[..|s| - 1], s[|s| - 1];
      assert s == init + [last];
      SortByKeyProperties(init);
      forall k ensures WithKey(SortByKey(s), k) == WithKey(s, k) {
        InsertWithKey(last, SortByKey(init), k);
        WithKeyAppend(init, [last], k);
      }
      InsertSorted(last, SortByKey(init));
      InsertMultiset(last, SortByKey(init));
    }
  }

  /** Sorting and then keeping n rows keeps the rows with the smallest keys:
      as many as n allows, ascending, each input row at most as often as the
      input has it, none left out in favour of a larger key, rows with equal
      keys in their input order, and all of them when there are at most n. */
  lemma {:induction false} SmallestKeys<T>(s: seq<Keyed<T>>, n: nat)
    ensures var t := Take(SortByKey(s), n);
            && |t| == (if n < |s| then n else |s|)
            && SortedByKey(t)
            && (forall i :: 0 <= i < |t| ==> t[i] in s)
            && multiset(t) <= multiset(s)
            && multiset(Rows(t)) <= multiset(Rows(s))
            && (forall p, i :: p in s && p.1 !in Rows(t) && 0 <= i < |t| ==> t[i].0 <= p.0)
            && (forall k :: WithKey(t, k) <= WithKey(s, k))
            && (|s| <= n ==> multiset(Rows(t)) == multiset(Rows(s)))
  {
    var sorted := SortByKey(s);
    SortByKeyProperties(s);
    assert |sorted| == |s| by { assert |multiset(sorted)| == |multiset(s)|; }
    var t := Take(sorted, n);
    PrefixOfPermutation(sorted, s, n);
    forall i | 0 <= i < |t| ensures t[i] in s {
      assert t[i] in multiset(t);
    }
    LeftOutNotSmaller(sorted, s, n);
    if |s| <= n {
      RowsMultiset(s, t);
    }
  }

  /** In the first n rows of a sorted rearrangement of s, no key exceeds the
      key of a row of s whose row was not kept. */
  lemma LeftOutNotSmaller<T>(sorted: seq<Keyed<T>>, s: seq<Keyed<T>>, n: nat)
    requires SortedByKey(sorted) && multiset(sorted) == multiset(s)
    ensures var t := Take(sorted, n);
            forall p, i :: p in s && p.1 !in Rows(t) && 0 <= i < |t| ==> t[i].0 <= p.0
  {
    var t := Take(sorted, n);
    forall p, i | p in s && p.1 !in Rows(t) && 0 <= i < |t| ensures t[i].0 <= p.0 {
      assert p in multiset(sorted);
      var k :| 0 <= k < |sorted| && sorted[k] == p;
      assert sorted[i] == t[i];
    }
  }

  /** The first n rows of a rearrangement of s take no row more often than s
      has it, and rows with equal keys keep their order when the
      rearrangement does. */
  lemma PrefixOfPermutation<T>(sorted: seq<Keyed<T>>, s: seq<Keyed<T>>, n: nat)
    requires multiset(sorted) == multiset(s)
    ensures multiset(Take(sorted, n)) <= multiset(s)
    ensures multiset(Rows(Take(sorted, n))) <= multiset(Rows(s))
    ensures (forall k :: WithKey(sorted, k) == WithKey(s, k)) ==>
              forall k :: WithKey(Take(sorted, n), k) <= WithKey(s, k)
  {
    var t := Take(sorted, n);
    var rest := sorted[|t|..];
    assert sorted == t + rest;
    assert multiset(sorted) == multiset(t) + multiset(rest);
    RowsAppend(t, rest);
    RowsMultiset(sorted, s);
    assert multiset(Rows(sorted)) == multiset(Rows(t)) + multiset(Rows(rest));
    forall k {
      WithKeyAppend(t, rest, k);
    }
  }

  lemma RowsPrefix<T>(a: seq<Keyed<T>>, b: seq<Keyed<T>>)
    requires a <= b
    ensures Rows(a) <= Rows(b)
  {
    assert Rows(a) == Rows(b)[..|a|];
  }

  lemma RowsAppend<T>(a: seq<Keyed<T>>, b: seq<Keyed<T>>)
    ensures Rows(a + b) == Rows(a) + Rows(b)
  {
  }

  /** Rearranging keyed rows rearranges their rows. */
  lemma {:induction false} RowsMultiset<T>(s: seq<Keyed<T>>, t: seq<Keyed<T>>)
    requires multiset(s) == multiset(t)
    ensures multiset(Rows(s)) == multiset(Rows(t))
    decreases |s|
  {
    if s != [] {
      var p := s[0];
      assert p in multiset(t);
      var k :| 0 <= k < |t| && t[k] == p;
      var t' := t[..k] + t[k + 1..];
      assert t == t[..k] + [p] + t[k + 1..];
      assert s == [p] + s[1..];
      assert multiset(t) == multiset(t[..k]) + multiset{p} + multiset(t[k + 1..]);
      assert multiset(t') == multiset(t[..k]) + multiset(t[k + 1..]);
      assert multiset(s) == multiset{p} + multiset(s[1..]);
      assert multiset(s[1..]) == multiset(s) - multiset{p};
      assert multiset(t') == multiset(t) - multiset{p};
      RowsMultiset(s[1..], t');
      RowsAppend([p], s[1..]);
      RowsAppend(t[..k] + [p], t[k + 1..]);
      RowsAppend(t[..k], [p]);
      RowsAppend(t[..k], t[k + 1..]);
    }
  }
}
