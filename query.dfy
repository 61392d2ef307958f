/** The table-query operations the handlers compose through the store
    client: `.eq(...)` filters, `.order(col, { ascending: false })`,
    `.limit(n)`, `.single()`, and the `count: "exact"` / `.filter(...).length`
    counts. */
module Query {
  import opened Base

  /** The rows of `s` that satisfy `p`, in their original order. */
  function Filter<T(!new)>(s: seq<T>, p: T -> bool): (r: seq<T>)
    ensures |r| <= |s|
    ensures forall i :: 0 <= i < |r| ==> p(r[i])
    ensures forall i :: 0 <= i < |r| ==> r[i] in s
  {
    if s == [] then []
    else
      var rest := Filter(s[1..], p);
      assert s == [s[0]] + s[1..];
      if p(s[0]) then [s[0]] + rest else rest
  }

  /** The number of rows satisfying `p`. */
  function Count<T(!new)>(s: seq<T>, p: T -> bool): nat
  {
    |Filter(s, p)|
  }

  /** Counting a weaker condition never gives less. */
  lemma {:induction false} CountMono<T(!new)>(s: seq<T>, weak: T -> bool, strong: T -> bool)
    requires forall x :: strong(x) ==> weak(x)
    ensures Count(s, strong) <= Count(s, weak)
  {
    if s != [] {
      CountMono(s[1..], weak, strong);
    }
  }

  /** Filters with conditions that agree on every row agree. */
  lemma {:induction false} FilterExt<T(!new)>(s: seq<T>, p: T -> bool, q: T -> bool)
    requires forall x :: p(x) == q(x)
    ensures Filter(s, p) == Filter(s, q)
  {
    if s != [] {
      FilterExt(s[1..], p, q);
    }
  }

  /** When exactly the row at `k` satisfies `p`, the filter is that row. */
  lemma {:induction false} FilterOnly<T(!new)>(s: seq<T>, k: nat, p: T -> bool)
    requires k < |s| && p(s[k])
    requires forall i :: 0 <= i < |s| && i != k ==> !p(s[i])
    ensures Filter(s, p) == [s[k]]
  {
    FilterCons(s, p);
    if k == 0 {
      FilterNone(s[1..], p);
    } else {
      FilterOnly(s[1..], k - 1, p);
    }
  }

  /** No row satisfying `p` gives the empty filter. */
  lemma {:induction false} FilterNone<T(!new)>(s: seq<T>, p: T -> bool)
    requires forall i :: 0 <= i < |s| ==> !p(s[i])
    ensures Filter(s, p) == []
  {
    if s != [] {
      FilterNone(s[1..], p);
    }
  }

  /** A filter keeps every satisfying row as often as it occurs and drops
      every other row. */
  lemma {:induction false} FilterMultiset<T(!new)>(s: seq<T>, p: T -> bool)
    ensures forall x :: multiset(Filter(s, p))[x] == if p(x) then multiset(s)[x] else 0
  {
    if s != [] {
      FilterMultiset(s[1..], p);
      FilterCons(s, p);
      assert s == [s[0]] + s[1..];
    }
  }

  /** A row appended to a table is kept by a filter exactly when it
      satisfies the condition, after the rows kept before. */
  lemma {:induction false} FilterAppend<T(!new)>(s: seq<T>, x: T, p: T -> bool)
    ensures Filter(s + [x], p) == Filter(s, p) + (if p(x) then [x] else [])
  {
    if s == [] {
      FilterSingleton(x, p);
      assert [] + [x] == [x];
    } else {
      var t := s + [x];
      FilterAppend(s[1..], x, p);
      assert t[1..] == s[1..] + [x];
      FilterCons(t, p);
      FilterCons(s, p);
    }
  }

  lemma FilterSingleton<T(!new)>(x: T, p: T -> bool)
    ensures Filter([x], p) == if p(x) then [x] else []
  {
    assert [x][1..] == [];
  }

  lemma FilterCons<T(!new)>(s: seq<T>, p: T -> bool)
    requires s != []
    ensures Filter(s, p) == (if p(s[0]) then [s[0]] else []) + Filter(s[1..], p)
  {
  }

  /** `.single()`: the row when exactly one satisfies `p`; otherwise the
      client reports an error, modelled as `None`. */
  function Single<T(!new)>(s: seq<T>, p: T -> bool): (r: Option<T>)
    ensures r.Some? <==> Count(s, p) == 1
    ensures r.Some? ==> r.value in s && p(r.value)
  {
    var f := Filter(s, p);
    if |f| == 1 then
      Some(f[0])
    else None
  }

  ghost predicate SortedDesc<T>(s: seq<T>, key: T -> int)
  {
    forall i, j :: 0 <= i < j < |s| ==> key(s[i]) >= key(s[j])
  }

  /** Putting a key no smaller than the head in front keeps a list sorted. */
  lemma ConsSortedDesc<T>(x: T, s: seq<T>, key: T -> int)
    requires SortedDesc(s, key)
    requires s != [] ==> key(x) >= key(s[0])
    ensures SortedDesc([x] + s, key)
  {
    forall i, j | 0 <= i < j < |[x] + s|
      ensures key(([x] + s)[i]) >= key(([x] + s)[j])
    {
      if i == 0 && j > 1 {
        assert key(s[0]) >= key(s[j - 1]);
      }
    }
  }

  function Insert<T(!new)>(x: T, s: seq<T>, key: T -> int): (r: seq<T>)
    requires SortedDesc(s, key)
    ensures multiset(r) == multiset(s) + multiset{x}
    ensures SortedDesc(r, key)
    ensures r[0] == x || (s != [] && r[0] == s[0])
  {
    if s == [] || key(x) >= key(s[0]) then
      ConsSortedDesc(x, s, key);
      [x] + s
    else
      var rest := Insert(x, s[1..], key);
      assert s == [s[0]] + s[1..];
      ConsSortedDesc(s[0], rest, key);
      [s[0]] + rest
  }

  /** `.order(key, { ascending: false })`: the same rows, largest key first. */
  function SortDesc<T(!new)>(s: seq<T>, key: T -> int): (r: seq<T>)
    ensures multiset(r) == multiset(s)
    ensures SortedDesc(r, key)
  {
    if s == [] then []
    else
      assert s == [s[0]] + s[1..];
      Insert(s[0], SortDesc(s[1..], key), key)
  }

  /** `.eq(...)` conditions followed by `.order(key, { ascending: false })`:
      exactly the satisfying rows, each as often as in the table, largest
      key first. */
  function FilterSorted<T(!new)>(s: seq<T>, p: T -> bool, key: T -> int): (r: seq<T>)
    ensures multiset(r) == multiset(Filter(s, p))
    ensures SortedDesc(r, key)
    ensures forall i :: 0 <= i < |r| ==> p(r[i])
    ensures forall x :: x in s && p(x) ==> x in r
  {
    var kept := Filter(s, p);
    FilterMultiset(s, p);
    var r := SortDesc(kept, key);
    assert forall i :: 0 <= i < |r| ==> p(r[i]) by {
      forall i | 0 <= i < |r|
        ensures p(r[i])
      {
        assert r[i] in multiset(kept);
      }
    }
    assert forall x :: x in s && p(x) ==> x in r by {
      forall x | x in s && p(x)
        ensures x in r
      {
        assert multiset(s)[x] > 0;
        assert multiset(r)[x] > 0;
      }
    }
    r
  }

  /** `.limit(n)` when a limit is given; all rows otherwise. */
  function Take<T>(s: seq<T>, n: Option<nat>): (r: seq<T>)
    ensures r <= s
    ensures n.Some? ==> |r| == if n.value < |s| then n.value else |s|
    ensures n.None? ==> r == s
  {
    if n.Some? && n.value < |s| then s[..n.value] else s
  }
}
