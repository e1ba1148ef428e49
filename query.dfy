/** The query building blocks the views use on tables: primary-key order,
    filters, slices and sorting. */
module Query {

  /** Strictly ascending: the order of an auto-increment primary key. */
  predicate Increasing(s: seq<nat>) {
    forall i, j :: 0 <= i < j < |s| ==> s[i] < s[j]
  }

  /** The ids of the rows of `table` below `n`, in primary-key order. */
  function IdsBelow<T>(table: map<nat, T>, n: nat): (r: seq<nat>)
    ensures forall k :: k in r <==> k in table && k < n
    ensures Increasing(r)
  {
    if n == 0 then []
    else
      var init := IdsBelow(table, n - 1);
      if n - 1 in table then
        AppendIncreasing(init, n - 1);
        init + [n - 1]
      else init
  }

  lemma AppendIncreasing(s: seq<nat>, x: nat)
    requires Increasing(s) && forall k :: k in s ==> k < x
    ensures Increasing(s + [x])
  {
    assert forall i :: 0 <= i < |s| ==> s[i] in s;
  }

  lemma ConsIncreasing(x: nat, s: seq<nat>)
    requires Increasing(s) && forall k :: k in s ==> x < k
    ensures Increasing([x] + s)
  {
    assert forall i :: 0 <= i < |s| ==> s[i] in s;
  }

  lemma HeadBelowTail(s: seq<nat>)
    requires Increasing(s) && |s| > 0
    ensures Increasing(s[1..]) && forall k :: k in s[1..] ==> s[0] < k
  {
    forall k | k in s[1..] ensures s[0] < k {
      var i :| 0 <= i < |s[1..]| && s[1..][i] == k;
      assert s[i + 1] == k;
    }
  }

  /** A query's ids depend on the table's keys only, not on its rows. */
  lemma {:induction false} IdsBelowKeysOnly<T>(a: map<nat, T>, b: map<nat, T>, n: nat)
    requires a.Keys == b.Keys
    ensures IdsBelow(a, n) == IdsBelow(b, n)
  {
    if n > 0 {
      IdsBelowKeysOnly(a, b, n - 1);
    }
  }

  /** `queryset.filter(...)`: the ids of `s` that `keep` accepts, in their order. */
  function Where(s: seq<nat>, keep: nat -> bool): (r: seq<nat>)
    ensures forall k :: k in r <==> k in s && keep(k)
    ensures |r| <= |s|
    ensures Increasing(s) ==> Increasing(r)
  {
    if s == [] then []
    else
      var rest := Where(s[1..], keep);
      if keep(s[0]) then
        if Increasing(s) then
          HeadBelowTail(s);
          ConsIncreasing(s[0], rest);
          [s[0]] + rest
        else [s[0]] + rest
      else rest
  }

  /** Python's slice `[:n]`, of a queryset or a string: the first `n`
      elements, or all of them when there are fewer. */
  function Take<T>(s: seq<T>, n: nat): (r: seq<T>)
    ensures |r| == if |s| < n then |s| else n
    ensures r == s[..|r|]
  {
    if |s| <= n then s else s[..n]
  }

  /** Ordered newest first by `date`: `order_by('-date')`. */
  predicate NewestFirst(s: seq<nat>, date: nat -> int) {
    forall i, j :: 0 <= i < j < |s| ==> date(s[i]) >= date(s[j])
  }

  lemma NewestHeadBound(s: seq<nat>, date: nat -> int)
    requires NewestFirst(s, date) && |s| > 0
    ensures forall k :: k in s[1..] ==> date(s[0]) >= date(k)
  {
    forall k | k in s[1..] ensures date(s[0]) >= date(k) {
      var i :| 0 <= i < |s[1..]| && s[1..][i] == k;
      assert s[i + 1] == k;
    }
  }

  lemma ConsNewest(y: nat, t: seq<nat>, date: nat -> int)
    requires NewestFirst(t, date) && forall k :: k in t ==> date(y) >= date(k)
    ensures NewestFirst([y] + t, date)
  {
    assert forall i :: 0 <= i < |t| ==> t[i] in t;
  }

  lemma InsertFront(x: nat, s: seq<nat>, date: nat -> int)
    requires NewestFirst(s, date) && (s == [] || date(x) >= date(s[0]))
    ensures NewestFirst([x] + s, date)
  {
    if s != [] {
      NewestHeadBound(s, date);
      assert s == [s[0]] + s[1..];
      ConsNewest(x, s, date);
    }
  }

  /** Inserts `x` into a list ordered newest first, after every newer id. */
  function Insert(x: nat, s: seq<nat>, date: nat -> int): (r: seq<nat>)
    requires NewestFirst(s, date)
    ensures NewestFirst(r, date)
    ensures multiset(r) == multiset(s) + multiset{x}
  {
    if s == [] || date(x) >= date(s[0]) then
      InsertFront(x, s, date);
      [x] + s
    else
      var rest := Insert(x, s[1..], date);
      assert s == [s[0]] + s[1..];
      NewestHeadBound(s, date);
      assert forall k :: k in rest ==> k == x || k in s[1..] by {
        forall k | k in rest ensures k == x || k in s[1..] {
          assert k in multiset(rest);
        }
      }
      ConsNewest(s[0], rest, date);
      [s[0]] + rest
  }

  /** `order_by('-date')` over ids: the same ids, newest first. */
  function SortNewestFirst(s: seq<nat>, date: nat -> int): (r: seq<nat>)
    ensures NewestFirst(r, date)
    ensures multiset(r) == multiset(s)
  {
    if s == [] then []
    else
      assert s == [s[0]] + s[1..];
      Insert(s[0], SortNewestFirst(s[1..], date), date)
  }

  /** A table holding one row lists exactly that row's id. */
  lemma {:induction false} IdsBelowSingleton<T>(k: nat, row: T, n: nat)
    ensures IdsBelow(map[k := row], n) == if k < n then [k] else []
  {
    if n > 0 {
      IdsBelowSingleton(k, row, n - 1);
    }
  }

  /** No id listed twice. */
  predicate Distinct(s: seq<nat>) {
    forall i, j :: 0 <= i < j < |s| ==> s[i] != s[j]
  }

  lemma {:induction false} DistinctCount(s: seq<nat>, x: nat)
    requires Distinct(s)
    ensures multiset(s)[x] <= 1
  {
    if s != [] {
      assert s == [s[0]] + s[1..];
      assert Distinct(s[1..]);
      DistinctCount(s[1..], x);
      assert s[0] !in s[1..];
    }
  }

  lemma TwiceCounted(t: seq<nat>, i: nat, j: nat)
    requires i < j < |t|
    ensures multiset(t)[t[i]] >= if t[i] == t[j] then 2 else 1
  {
    assert t == t[..i] + [t[i]] + t[i + 1..j] + [t[j]] + t[j + 1..];
  }

  /** Reordering keeps a list free of repeats. */
  lemma SameMultisetDistinct(s: seq<nat>, t: seq<nat>)
    requires Distinct(s) && multiset(s) == multiset(t)
    ensures Distinct(t)
  {
    forall i, j | 0 <= i < j < |t| ensures t[i] != t[j] {
      TwiceCounted(t, i, j);
      DistinctCount(s, t[i]);
    }
  }
}
