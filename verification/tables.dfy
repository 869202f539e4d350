/**
 * Generic operations on tables represented as sequences of rows: boolean-mask
 * filtering, column projection, distinct values, and the two aggregations the
 * scripts use (group-and-count, group-and-sum), together with the laws that
 * tie an aggregate back to the rows it summarises.
 */
module Tables {

  /** A (key, value) row of an aggregate table, e.g. (type, total). */
  datatype Pair<K> = Pair(key: K, value: int)

  /** `s` is obtained from `t` by deleting elements; the order of what is kept is unchanged. */
  predicate Subseq<T(==)>(s: seq<T>, t: seq<T>)
  {
    if s == [] then true
    else if t == [] then false
    else (s[0] == t[0] && Subseq(s[1..], t[1..])) || Subseq(s, t[1..])
  }

  /** Rows of `s` for which the mask `keep` holds, in their original order. */
  function Filter<T(!new)>(s: seq<T>, keep: T -> bool): (r: seq<T>)
    ensures |r| <= |s|
    ensures Subseq(r, s)
    ensures forall x :: x in r <==> x in s && keep(x)
    ensures forall x :: multiset(r)[x] == if keep(x) then multiset(s)[x] else 0
  {
    if s == [] then []
    else
      var rest := Filter(s[1..], keep);
      assert s == [s[0]] + s[1..];
      if keep(s[0]) then [s[0]] + rest else rest
  }

  /** Filtering distributes over concatenation of tables. */
  lemma {:induction false} FilterAppend<T(!new)>(a: seq<T>, b: seq<T>, keep: T -> bool)
    ensures Filter(a + b, keep) == Filter(a, keep) + Filter(b, keep)
  {
    if a == [] {
      assert a + b == b;
    } else {
      var ab := a + b;
      assert ab[0] == a[0] && ab[1..] == a[1..] + b;
      FilterAppend(a[1..], b, keep);
    }
  }

  /** Column projection: one value per row, in row order. */
  function Map<A, B>(s: seq<A>, f: A -> B): (r: seq<B>)
    ensures |r| == |s|
    ensures forall i :: 0 <= i < |s| ==> r[i] == f(s[i])
  {
    seq(|s|, i requires 0 <= i < |s| => f(s[i]))
  }

  /** Projection distributes over concatenation of tables. */
  lemma MapAppend<A, B>(a: seq<A>, b: seq<A>, f: A -> B)
    ensures Map(a + b, f) == Map(a, f) + Map(b, f)
  {
    assert forall i :: 0 <= i < |a + b| ==> Map(a + b, f)[i] == (Map(a, f) + Map(b, f))[i];
  }

  /** The projected column holds exactly the images of the rows. */
  lemma MapElements<A, B>(s: seq<A>, f: A -> B)
    ensures forall x :: x in s ==> f(x) in Map(s, f)
    ensures forall y :: y in Map(s, f) ==> exists x :: x in s && f(x) == y
  {
    var r := Map(s, f);
    forall x | x in s ensures f(x) in r {
      var i :| 0 <= i < |s| && s[i] == x;
      assert r[i] == f(x);
    }
    forall y | y in r ensures exists x :: x in s && f(x) == y {
      var i :| 0 <= i < |r| && r[i] == y;
      assert s[i] in s && f(s[i]) == y;
    }
  }

  function Elements<T>(s: seq<T>): set<T>
  {
    set x | x in s
  }

  predicate NoDup<T(==)>(s: seq<T>)
  {
    forall i, j :: 0 <= i < j < |s| ==> s[i] != s[j]
  }

  /** The distinct values of a column, each once (the last occurrence of each is kept). */
  function Distinct<T(==,!new)>(s: seq<T>): (d: seq<T>)
    ensures NoDup(d)
    ensures forall x :: x in d <==> x in s
    ensures |d| <= |s|
  {
    if s == [] then []
    else
      var rest := Distinct(s[1..]);
      assert forall x :: x in s <==> x == s[0] || x in s[1..];
      if s[0] in rest then rest else [s[0]] + rest
  }

  /** The number of distinct values equals the size of the set of values. */
  lemma {:induction false} DistinctCard<T(!new)>(s: seq<T>)
    ensures |Distinct(s)| == |Elements(s)|
  {
    if s != [] {
      DistinctCard(s[1..]);
      assert Elements(s) == {s[0]} + Elements(s[1..]);
    }
  }

  /** How many rows of `s` hold the value `k`. */
  function Count<T(==)>(s: seq<T>, k: T): (n: nat)
    ensures n <= |s|
    ensures n > 0 <==> k in s
  {
    if s == [] then 0
    else (if s[0] == k then 1 else 0) + Count(s[1..], k)
  }

  /** Sum over the listed keys of how often each occurs in `s`. */
  function Tally<T(==)>(s: seq<T>, keys: seq<T>): nat
  {
    if keys == [] then 0 else Count(s, keys[0]) + Tally(s, keys[1..])
  }

  lemma {:induction false} TallyEmpty<T>(keys: seq<T>)
    ensures Tally([], keys) == 0
  {
    if keys != [] {
      TallyEmpty(keys[1..]);
    }
  }

  lemma {:induction false} TallyCons<T>(s: seq<T>, keys: seq<T>)
    requires s != [] && NoDup(keys)
    ensures Tally(s, keys) == Tally(s[1..], keys) + (if s[0] in keys then 1 else 0)
  {
    if keys != [] {
      assert NoDup(keys[1..]);
      TallyCons(s, keys[1..]);
      assert keys[0] == s[0] ==> s[0] !in keys[1..];
      assert s[0] in keys <==> s[0] == keys[0] || s[0] in keys[1..];
    }
  }

  /** When the keys are distinct and cover every value, the per-key counts add up to the row count. */
  lemma {:induction false} TallyAll<T>(s: seq<T>, keys: seq<T>)
    requires NoDup(keys)
    requires forall x :: x in s ==> x in keys
    ensures Tally(s, keys) == |s|
  {
    if s == [] {
      TallyEmpty(keys);
    } else {
      TallyAll(s[1..], keys);
      TallyCons(s, keys);
    }
  }

  /** The key column of an aggregate table. */
  function KeysOf<K>(g: seq<Pair<K>>): (ks: seq<K>)
    ensures |ks| == |g|
    ensures forall i :: 0 <= i < |g| ==> ks[i] == g[i].key
  {
    seq(|g|, i requires 0 <= i < |g| => g[i].key)
  }

  /** Sum of the value column. */
  function Totals<K>(g: seq<Pair<K>>): int
  {
    if g == [] then 0 else g[0].value + Totals(g[1..])
  }

  function CountEach<T(==)>(s: seq<T>, keys: seq<T>): (g: seq<Pair<T>>)
    ensures |g| == |keys|
    ensures forall i :: 0 <= i < |g| ==> g[i] == Pair(keys[i], Count(s, keys[i]))
    ensures Totals(g) == Tally(s, keys)
  {
    if keys == [] then []
    else [Pair(keys[0], Count(s, keys[0]))] + CountEach(s, keys[1..])
  }

  /**
   * Group-by-and-count: one row per distinct value of `s`, holding the number of
   * rows with that value; no group is empty and the group sizes add up to |s|.
   */
  function GroupCount<T(==,!new)>(s: seq<T>): (g: seq<Pair<T>>)
    ensures NoDup(KeysOf(g))
    ensures forall k :: k in KeysOf(g) <==> k in s
    ensures forall i :: 0 <= i < |g| ==> g[i].value == Count(s, g[i].key) && g[i].value > 0
    ensures Totals(g) == |s|
  {
    var keys := Distinct(s);
    var g := CountEach(s, keys);
    assert KeysOf(g) == keys;
    TallyAll(s, keys);
    g
  }

  /** Sum of the values whose key is `k`. */
  function SumFor<K(==)>(s: seq<Pair<K>>, k: K): int
  {
    if s == [] then 0
    else (if s[0].key == k then s[0].value else 0) + SumFor(s[1..], k)
  }

  /** Sum over the listed keys of the per-key sums. */
  function SumOver<K(==)>(s: seq<Pair<K>>, keys: seq<K>): int
  {
    if keys == [] then 0 else SumFor(s, keys[0]) + SumOver(s, keys[1..])
  }

  lemma {:induction false} SumOverEmpty<K>(keys: seq<K>)
    ensures SumOver([], keys) == 0
  {
    if keys != [] {
      SumOverEmpty(keys[1..]);
    }
  }

  lemma {:induction false} SumOverCons<K>(s: seq<Pair<K>>, keys: seq<K>)
    requires s != [] && NoDup(keys)
    ensures SumOver(s, keys) == SumOver(s[1..], keys) + (if s[0].key in keys then s[0].value else 0)
  {
    if keys != [] {
      assert NoDup(keys[1..]);
      SumOverCons(s, keys[1..]);
      assert keys[0] == s[0].key ==> s[0].key !in keys[1..];
      assert s[0].key in keys <==> s[0].key == keys[0] || s[0].key in keys[1..];
    }
  }

  /** When the keys are distinct and cover every row's key, the per-key sums add up to the grand total. */
  lemma {:induction false} SumOverAll<K>(s: seq<Pair<K>>, keys: seq<K>)
    requires NoDup(keys)
    requires forall k :: k in KeysOf(s) ==> k in keys
    ensures SumOver(s, keys) == Totals(s)
  {
    if s == [] {
      SumOverEmpty(keys);
    } else {
      assert s[0].key == KeysOf(s)[0];
      assert forall k :: k in KeysOf(s[1..]) ==> k in KeysOf(s) by {
        forall k | k in KeysOf(s[1..]) ensures k in KeysOf(s) {
          var i :| 0 <= i < |s| - 1 && KeysOf(s[1..])[i] == k;
          assert KeysOf(s)[i + 1] == k;
        }
      }
      SumOverAll(s[1..], keys);
      SumOverCons(s, keys);
    }
  }

  function SumEach<K(==)>(s: seq<Pair<K>>, keys: seq<K>): (g: seq<Pair<K>>)
    ensures |g| == |keys|
    ensures forall i :: 0 <= i < |g| ==> g[i] == Pair(keys[i], SumFor(s, keys[i]))
    ensures Totals(g) == SumOver(s, keys)
  {
    if keys == [] then []
    else [Pair(keys[0], SumFor(s, keys[0]))] + SumEach(s, keys[1..])
  }

  /**
   * Group-by-and-sum: one row per distinct key of `s`, holding the sum of the
   * values with that key; the group sums add up to the sum of all values.
   */
  function GroupSum<K(==,!new)>(s: seq<Pair<K>>): (g: seq<Pair<K>>)
    ensures NoDup(KeysOf(g))
    ensures forall k :: k in KeysOf(g) <==> k in KeysOf(s)
    ensures forall i :: 0 <= i < |g| ==> g[i].value == SumFor(s, g[i].key)
    ensures Totals(g) == Totals(s)
  {
    var keys := Distinct(KeysOf(s));
    var g := SumEach(s, keys);
    assert KeysOf(g) == keys;
    SumOverAll(s, keys);
    g
  }
}
