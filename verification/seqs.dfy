/**
 * Generic sequence operations shared by the services: filtering,
 * first-occurrence de-duplication, grouping by a key, sorting by a
 * comparator (the model of SQL `ORDER BY`) and paging.
 */
module Seqs {
  import opened Wrappers

  // ---------------------------------------------------------------- filter

  /** The elements of `s` satisfying `p`, in their original order. */
  function Filter<T>(s: seq<T>, p: T -> bool): (r: seq<T>)
    ensures |r| <= |s|
    ensures forall i | 0 <= i < |r| :: p(r[i])
    ensures forall x | x in r :: x in s && p(x)
    ensures forall x | x in s && p(x) :: x in r
  {
    if |s| == 0 then []
    else
      assert s == [s[0]] + s[1..];
      if p(s[0]) then [s[0]] + Filter(s[1..], p)
      else Filter(s[1..], p)
  }

  /** Filtering commutes with concatenation: the filter keeps the order. */
  lemma {:induction false} FilterConcat<T>(a: seq<T>, b: seq<T>, p: T -> bool)
    ensures Filter(a + b, p) == Filter(a, p) + Filter(b, p)
    decreases |a|
  {
    if |a| == 0 {
      assert a + b == b;
    } else {
      assert (a + b)[1..] == a[1..] + b;
      FilterConcat(a[1..], b, p);
    }
  }

  /** Filtering a sequence extended by one element. */
  lemma FilterSnoc<T>(s: seq<T>, x: T, p: T -> bool)
    ensures Filter(s + [x], p) == Filter(s, p) + (if p(x) then [x] else [])
  {
    FilterConcat(s, [x], p);
    assert Filter([x], p) == (if p(x) then [x] else []) by {
      assert [x][1..] == [];
    }
  }

  /** Filtering a non-empty sequence: its first element, if kept, then the filtered rest. */
  lemma FilterCons<T>(s: seq<T>, p: T -> bool)
    requires |s| > 0
    ensures Filter(s, p) == if p(s[0]) then [s[0]] + Filter(s[1..], p) else Filter(s[1..], p)
  {
  }

  /** The filter keeps each element at most as often as it occurs. */
  lemma {:induction false} FilterSubMultiset<T>(s: seq<T>, p: T -> bool)
    ensures multiset(Filter(s, p)) <= multiset(s)
    decreases |s|
  {
    if |s| > 0 {
      FilterCons(s, p);
      FilterSubMultiset(s[1..], p);
      assert s == [s[0]] + s[1..];
      assert multiset(s) == multiset{s[0]} + multiset(s[1..]);
    }
  }

  /** A kept element has a position in the filtered sequence. */
  lemma {:induction false} FilterIndex<T>(s: seq<T>, p: T -> bool, j: nat) returns (k: nat)
    requires j < |s| && p(s[j])
    ensures k < |Filter(s, p)| && Filter(s, p)[k] == s[j]
    decreases |s|
  {
    FilterCons(s, p);
    if j == 0 {
      k := 0;
    } else {
      assert s[1..][j - 1] == s[j];
      var m := FilterIndex(s[1..], p, j - 1);
      if p(s[0]) {
        k := m + 1;
      } else {
        k := m;
      }
    }
  }

  /** Two kept positions stay two kept positions, in the same order. */
  lemma {:induction false} FilterPair<T>(s: seq<T>, p: T -> bool, i: nat, j: nat) returns (i1: nat, j1: nat)
    requires i < j < |s| && p(s[i]) && p(s[j])
    ensures i1 < j1 < |Filter(s, p)| && Filter(s, p)[i1] == s[i] && Filter(s, p)[j1] == s[j]
    decreases |s|
  {
    FilterCons(s, p);
    var r, tail := Filter(s, p), Filter(s[1..], p);
    assert s[1..][j - 1] == s[j];
    if i == 0 {
      var m := FilterIndex(s[1..], p, j - 1);
      assert r == [s[0]] + tail;
      assert r[m + 1] == tail[m];
      i1, j1 := 0, m + 1;
    } else {
      assert s[1..][i - 1] == s[i];
      var a, b := FilterPair(s[1..], p, i - 1, j - 1);
      if p(s[0]) {
        assert r == [s[0]] + tail;
        assert r[a + 1] == tail[a] && r[b + 1] == tail[b];
        i1, j1 := a + 1, b + 1;
      } else {
        assert r == tail;
        i1, j1 := a, b;
      }
    }
  }

  /**
   * The step of a loop that appends one element and then a tail: the whole
   * addition is the element consed onto the tail.
   */
  lemma AppendStep<T>(start: seq<T>, mid: seq<T>, end: seq<T>, x: T, tail: seq<T>, added: seq<T>)
    requires mid == start + [x] && end == mid + tail && added == [x] + tail
    ensures end == start + added
  {
  }

  /** A filter that keeps nothing is empty. */
  lemma {:induction false} FilterNone<T>(s: seq<T>, p: T -> bool)
    requires forall x | x in s :: !p(x)
    ensures Filter(s, p) == []
    decreases |s|
  {
    if |s| > 0 {
      FilterCons(s, p);
      FilterNone(s[1..], p);
    }
  }

  /** A filter that keeps everything is the identity. */
  lemma {:induction false} FilterAll<T>(s: seq<T>, p: T -> bool)
    requires forall x | x in s :: p(x)
    ensures Filter(s, p) == s
    decreases |s|
  {
    if |s| > 0 {
      FilterAll(s[1..], p);
    }
  }

  /** Filtering twice is filtering by the conjunction. */
  lemma {:induction false} FilterFilter<T>(s: seq<T>, p: T -> bool, q: T -> bool)
    ensures Filter(Filter(s, p), q) == Filter(s, x => p(x) && q(x))
    decreases |s|
  {
    if |s| > 0 {
      FilterFilter(s[1..], p, q);
    }
  }

  /** The number of elements satisfying `p`. */
  function CountWhere<T>(s: seq<T>, p: T -> bool): nat {
    |Filter(s, p)|
  }

  /** A weaker predicate keeps at least as many elements. */
  lemma {:induction false} CountWhereWeaker<T>(s: seq<T>, p: T -> bool, q: T -> bool)
    requires forall x | x in s :: p(x) ==> q(x)
    ensures CountWhere(s, p) <= CountWhere(s, q)
    decreases |s|
  {
    if |s| > 0 {
      FilterCons(s, p);
      FilterCons(s, q);
      CountWhereWeaker(s[1..], p, q);
    }
  }

  /** When one element satisfies `p` and no two positions both do, exactly one element is counted. */
  lemma {:induction false} CountWhereOne<T>(s: seq<T>, p: T -> bool, x: T)
    requires x in s && p(x)
    requires forall i, j | 0 <= i < j < |s| :: !(p(s[i]) && p(s[j]))
    ensures CountWhere(s, p) == 1
    decreases |s|
  {
    FilterCons(s, p);
    if p(s[0]) {
      forall y | y in s[1..] ensures !p(y) {
        var j :| 0 <= j < |s[1..]| && s[1..][j] == y;
        assert s[j + 1] == y;
      }
      FilterNone(s[1..], p);
    } else {
      assert x in s[1..];
      forall i, j | 0 <= i < j < |s[1..]| ensures !(p(s[1..][i]) && p(s[1..][j])) {
        assert s[1..][i] == s[i + 1] && s[1..][j] == s[j + 1];
      }
      CountWhereOne(s[1..], p, x);
    }
  }

  /** Whether some element satisfies `p`. */
  predicate Any<T>(s: seq<T>, p: T -> bool) {
    exists i | 0 <= i < |s| :: p(s[i])
  }

  /** The first element satisfying `p` (`Array.prototype.find`, `LIMIT 1`). */
  function Find<T>(s: seq<T>, p: T -> bool): (r: Option<T>)
    ensures r.Some? <==> Any(s, p)
    ensures r.Some? ==> r.value in s && p(r.value)
    ensures r.Some? ==> exists i | 0 <= i < |s| :: s[i] == r.value && forall j | 0 <= j < i :: !p(s[j])
  {
    if |s| == 0 then None
    else if p(s[0]) then Some(s[0])
    else
      var r := Find(s[1..], p);
      assert Any(s, p) ==> Any(s[1..], p) by {
        if Any(s, p) {
          var i :| 0 <= i < |s| && p(s[i]);
          assert i > 0 && p(s[1..][i - 1]);
        }
      }
      assert r.Some? ==> exists i | 0 <= i < |s| :: s[i] == r.value && forall j | 0 <= j < i :: !p(s[j]) by {
        if r.Some? {
          var i :| 0 <= i < |s[1..]| && s[1..][i] == r.value && forall j | 0 <= j < i :: !p(s[1..][j]);
          assert s[i + 1] == r.value;
          forall j | 0 <= j < i + 1 ensures !p(s[j]) {
            if j > 0 { assert s[j] == s[1..][j - 1]; }
          }
        }
      }
      r
  }

  /** Appending a match to a sequence without one: the match is found. */
  lemma {:induction false} FindAfterMisses<T>(s: seq<T>, x: T, p: T -> bool)
    requires forall y | y in s :: !p(y)
    requires p(x)
    ensures Find(s + [x], p) == Some(x)
    decreases |s|
  {
    if |s| == 0 {
      assert s + [x] == [x];
    } else {
      assert (s + [x])[0] == s[0] && (s + [x])[1..] == s[1..] + [x];
      FindAfterMisses(s[1..], x, p);
    }
  }

  /** Rewriting the elements `p` selects, without changing which ones it selects, rewrites the first match. */
  lemma {:induction false} FindRewrite<T>(a: seq<T>, b: seq<T>, p: T -> bool, f: T -> T)
    requires |a| == |b|
    requires forall i | 0 <= i < |a| :: p(b[i]) == p(a[i])
    requires forall i | 0 <= i < |a| && p(a[i]) :: b[i] == f(a[i])
    ensures Find(a, p).Some? ==> Find(b, p) == Some(f(Find(a, p).value))
    decreases |a|
  {
    if |a| > 0 && !p(a[0]) {
      assert forall i | 0 <= i < |a| - 1 :: a[1..][i] == a[i + 1] && b[1..][i] == b[i + 1];
      FindRewrite(a[1..], b[1..], p, f);
    }
  }

  /** The mapped sequence holds exactly the images of the elements. */
  lemma MapMembers<T, U>(s: seq<T>, f: T -> U)
    ensures forall x | x in s :: f(x) in Map(s, f)
    ensures forall y | y in Map(s, f) :: exists x | x in s :: f(x) == y
  {
    forall x | x in s ensures f(x) in Map(s, f) {
      var i := IndexOf(s, x);
      assert Map(s, f)[i] == f(x);
    }
    forall y | y in Map(s, f) ensures exists x | x in s :: f(x) == y {
      var i :| 0 <= i < |s| && Map(s, f)[i] == y;
      assert s[i] in s;
    }
  }

  /** The values `f` takes on the kept elements are exactly those of the mapped filter. */
  lemma MapFilterValues<T, U>(s: seq<T>, p: T -> bool, f: T -> U)
    ensures forall y | y in s && p(y) :: f(y) in Map(Filter(s, p), f)
    ensures forall x | x in Map(Filter(s, p), f) :: exists y | y in s && p(y) :: f(y) == x
  {
    var r := Filter(s, p);
    forall y | y in s && p(y) ensures f(y) in Map(r, f) {
      var i := IndexOf(r, y);
      assert Map(r, f)[i] == f(y);
    }
    forall x | x in Map(r, f) ensures exists y | y in s && p(y) :: f(y) == x {
      var i :| 0 <= i < |r| && Map(r, f)[i] == x;
      assert r[i] in r;
    }
  }

  // ---------------------------------------------------------------- distinct

  /** No element occurs twice. */
  predicate NoDup<T(==)>(s: seq<T>) {
    forall i, j | 0 <= i < j < |s| :: s[i] != s[j]
  }

  /** No two elements share a key: the model of a unique index. */
  predicate KeysDistinct<T, K(==)>(s: seq<T>, key: T -> K) {
    forall i, j | 0 <= i < j < |s| :: key(s[i]) != key(s[j])
  }

  /** Deleting rows keeps a unique index. */
  lemma {:induction false} FilterKeysDistinct<T, K>(s: seq<T>, key: T -> K, p: T -> bool)
    requires KeysDistinct(s, key)
    ensures KeysDistinct(Filter(s, p), key)
    decreases |s|
  {
    if |s| > 0 {
      FilterKeysDistinct(s[1..], key, p);
      var rest := Filter(s[1..], p);
      assert forall x | x in rest :: x in s[1..];
      assert forall x | x in s[1..] :: key(x) != key(s[0]);
    }
  }

  /** Appending a row whose key is new keeps a unique index. */
  lemma SnocKeysDistinct<T, K>(s: seq<T>, key: T -> K, x: T)
    requires KeysDistinct(s, key)
    requires forall y | y in s :: key(y) != key(x)
    ensures KeysDistinct(s + [x], key)
  {
    forall i, j | 0 <= i < j < |s| + 1
      ensures key((s + [x])[i]) != key((s + [x])[j])
    {
      if j == |s| {
        assert (s + [x])[i] in s;
      }
    }
  }

  /** Rewriting rows without touching their keys keeps a unique index. */
  lemma MapKeysDistinct<T, K>(s: seq<T>, f: T -> T, key: T -> K)
    requires KeysDistinct(s, key)
    requires forall x | x in s :: key(f(x)) == key(x)
    ensures KeysDistinct(Map(s, f), key)
  {
    forall i, j | 0 <= i < j < |s|
      ensures key(Map(s, f)[i]) != key(Map(s, f)[j])
    {
      assert s[i] in s && s[j] in s;
    }
  }

  /** Position of the first occurrence of `x` in `s`. */
  function IndexOf<T(==)>(s: seq<T>, x: T): (i: nat)
    requires x in s
    ensures i < |s| && s[i] == x
    ensures forall j | 0 <= j < i :: s[j] != x
  {
    if s[0] == x then 0 else 1 + IndexOf(s[1..], x)
  }

  /** The first index of an element of a prefix is the same in the whole sequence. */
  lemma {:induction false} IndexOfPrefix<T>(s: seq<T>, n: nat, x: T)
    requires n <= |s| && x in s[..n]
    ensures x in s && IndexOf(s[..n], x) == IndexOf(s, x)
  {
    var i := IndexOf(s[..n], x);
    assert s[i] == x;
    var k := IndexOf(s, x);
    assert k <= i;
    assert s[..n][k] == x;
  }

  /**
   * The distinct elements of `s` in order of first occurrence: the state
   * of a loop that appends each element not already collected, taken
   * after the whole of `s`.
   */
  function Distinct<T(==)>(s: seq<T>): (r: seq<T>)
    ensures NoDup(r)
    ensures forall x | x in r :: x in s
    ensures forall x | x in s :: x in r
    ensures |r| <= |s|
    decreases |s|
  {
    if |s| == 0 then []
    else
      var r0 := Distinct(s[..|s| - 1]);
      assert forall x | x in s :: x in s[..|s| - 1] || x == s[|s| - 1] by {
        assert s == s[..|s| - 1] + [s[|s| - 1]];
      }
      if s[|s| - 1] in r0 then r0 else r0 + [s[|s| - 1]]
  }

  /** `Distinct` lists elements in the order of their first occurrence in `s`. */
  lemma {:induction false} DistinctFirstOccurrenceOrder<T>(s: seq<T>)
    ensures forall i, j | 0 <= i < j < |Distinct(s)| ::
      IndexOf(s, Distinct(s)[i]) < IndexOf(s, Distinct(s)[j])
    decreases |s|
  {
    if |s| > 0 {
      var n := |s| - 1;
      var p := s[..n];
      var r0 := Distinct(p);
      var r := Distinct(s);
      DistinctFirstOccurrenceOrder(p);
      forall x | x in r0 ensures IndexOf(s, x) == IndexOf(p, x) && IndexOf(s, x) < n {
        IndexOfPrefix(s, n, x);
      }
      assert r == if s[n] in r0 then r0 else r0 + [s[n]];
      forall i, j | 0 <= i < j < |r| ensures IndexOf(s, r[i]) < IndexOf(s, r[j]) {
        assert r[i] == r0[i] && r0[i] in r0;
        if j < |r0| {
          assert r[j] == r0[j] && r0[j] in r0;
        } else {
          assert s[n] !in p;
          assert IndexOf(s, s[n]) == n;
        }
      }
    }
  }

  /** The elements of a sequence whose elements are distinct, as a sequence of itself. */
  lemma {:induction false} DistinctOfNoDup<T>(s: seq<T>)
    requires NoDup(s)
    ensures Distinct(s) == s
    decreases |s|
  {
    if |s| > 0 {
      var n := |s| - 1;
      assert NoDup(s[..n]);
      DistinctOfNoDup(s[..n]);
      assert s[n] !in s[..n];
      assert s[..n] + [s[n]] == s;
    }
  }

  // ---------------------------------------------------------------- map

  /** `s.map(f)`. */
  function Map<T, U>(s: seq<T>, f: T -> U): (r: seq<U>)
    ensures |r| == |s|
    ensures forall i | 0 <= i < |s| :: r[i] == f(s[i])
  {
    seq(|s|, i requires 0 <= i < |s| => f(s[i]))
  }

  // ---------------------------------------------------------------- group

  /** The elements of one group and the key they share. */
  datatype Group<K, T> = Group(key: K, items: seq<T>)

  /** The predicate "has key `k`". */
  function HasKey<T, K(==)>(key: T -> K, k: K): T -> bool {
    x => key(x) == k
  }

  /** The keys of a list of groups, in order. */
  function Keys<K, T>(gs: seq<Group<K, T>>): (r: seq<K>)
    ensures |r| == |gs|
    ensures forall i | 0 <= i < |gs| :: r[i] == gs[i].key
  {
    Map(gs, (g: Group<K, T>) => g.key)
  }

  /** The total number of items across all groups. */
  function TotalItems<K, T>(gs: seq<Group<K, T>>): nat
    decreases |gs|
  {
    if |gs| == 0 then 0 else TotalItems(gs[..|gs| - 1]) + |gs[|gs| - 1].items|
  }

  /** Replacing one group changes the total by the difference in its size. */
  lemma {:induction false} TotalItemsUpdate<K, T>(gs: seq<Group<K, T>>, i: nat, g: Group<K, T>)
    requires i < |gs|
    ensures TotalItems(gs[i := g]) == TotalItems(gs) - |gs[i].items| + |g.items|
    decreases |gs|
  {
    var n := |gs| - 1;
    if i < n {
      assert gs[i := g][..n] == gs[..n][i := g];
      TotalItemsUpdate(gs[..n], i, g);
    } else {
      assert gs[i := g][..n] == gs[..n];
    }
  }

  /**
   * Append `x` to the group keyed `k`, or open a new group `[x]` at the end
   * when no group has that key (`map.get(k) ?? []`, push, `map.set(k, …)`
   * on an insertion-ordered map).
   */
  function AddTo<K(==), T>(gs: seq<Group<K, T>>, k: K, x: T): (r: seq<Group<K, T>>)
    requires NoDup(Keys(gs))
    ensures NoDup(Keys(r))
    ensures Keys(r) == if k in Keys(gs) then Keys(gs) else Keys(gs) + [k]
    ensures TotalItems(r) == TotalItems(gs) + 1
    ensures forall i | 0 <= i < |gs| :: r[i].items == gs[i].items + (if gs[i].key == k then [x] else [])
    ensures k !in Keys(gs) ==> r[|gs|] == Group(k, [x])
  {
    if k in Keys(gs) then
      var i := IndexOf(Keys(gs), k);
      var r := gs[i := Group(k, gs[i].items + [x])];
      TotalItemsUpdate(gs, i, Group(k, gs[i].items + [x]));
      assert Keys(r) == Keys(gs);
      r
    else
      var r := gs + [Group(k, [x])];
      assert r[..|gs|] == gs;
      assert Keys(r) == Keys(gs) + [k];
      r
  }

  /**
   * Group `s` by `key`: one group per distinct key, groups in order of the
   * key's first occurrence, items of a group in their order in `s`.
   * This is the state of a loop that appends each element to its key's
   * list in an insertion-ordered map, taken after the whole of `s`.
   */
  function GroupBy<T, K(==)>(s: seq<T>, key: T -> K): (r: seq<Group<K, T>>)
    ensures NoDup(Keys(r))
    ensures TotalItems(r) == |s|
    ensures forall i | 0 <= i < |r| :: |r[i].items| > 0
    decreases |s|
  {
    if |s| == 0 then []
    else
      var g0 := GroupBy(s[..|s| - 1], key);
      var k := key(s[|s| - 1]);
      assert k !in Keys(g0) ==> NoDup(Keys(g0) + [k]);
      AddTo(g0, k, s[|s| - 1])
  }

  /** The groups come in order of each key's first occurrence. */
  lemma {:induction false} GroupByKeys<T, K>(s: seq<T>, key: T -> K)
    ensures Keys(GroupBy(s, key)) == Distinct(Map(s, key))
    decreases |s|
  {
    if |s| > 0 {
      var n := |s| - 1;
      GroupByKeys(s[..n], key);
      assert Map(s, key)[..n] == Map(s[..n], key);
    }
  }

  /** Two sequences holding the same groups have the same keys. */
  lemma SameGroupsSameKeys<K, T>(r: seq<Group<K, T>>, gs: seq<Group<K, T>>, k: K)
    requires forall g | g in r :: g in gs
    requires forall g | g in gs :: g in r
    ensures (exists i | 0 <= i < |r| :: r[i].key == k) <==> k in Keys(gs)
  {
    if exists i | 0 <= i < |r| :: r[i].key == k {
      var i :| 0 <= i < |r| && r[i].key == k;
      assert r[i] in gs;
      var a :| 0 <= a < |gs| && gs[a] == r[i];
      assert Keys(gs)[a] == k;
    }
    if k in Keys(gs) {
      var a := IndexOf(Keys(gs), k);
      assert gs[a] in r;
      var i :| 0 <= i < |r| && r[i] == gs[a];
    }
  }

  /** Reordering groups with distinct keys leaves their keys distinct. */
  lemma PermutedGroupKeysDistinct<K, T>(gs: seq<Group<K, T>>, ps: seq<Group<K, T>>)
    requires NoDup(Keys(gs)) && multiset(ps) == multiset(gs)
    ensures forall i, j | 0 <= i < j < |ps| :: ps[i].key != ps[j].key
  {
    forall a, b | 0 <= a < b < |gs| ensures gs[a] != gs[b] {
      assert Keys(gs)[a] != Keys(gs)[b];
    }
    PermutationNoDup(gs, ps);
    forall i, j | 0 <= i < j < |ps| ensures ps[i].key != ps[j].key {
      assert ps[i] in multiset(gs) && ps[j] in multiset(gs);
      var a :| 0 <= a < |gs| && gs[a] == ps[i];
      var b :| 0 <= b < |gs| && gs[b] == ps[j];
      if a < b {
        assert Keys(gs)[a] != Keys(gs)[b];
      } else {
        assert Keys(gs)[b] != Keys(gs)[a];
      }
    }
  }

  /** Each group holds exactly the elements with its key, in their order in `s`. */
  lemma {:induction false} GroupByItems<T, K>(s: seq<T>, key: T -> K)
    ensures forall i | 0 <= i < |GroupBy(s, key)| ::
      GroupBy(s, key)[i].items == Filter(s, HasKey(key, GroupBy(s, key)[i].key))
    decreases |s|
  {
    if |s| > 0 {
      var n := |s| - 1;
      var p := s[..n];
      var x := s[n];
      assert s == p + [x];
      GroupByItems(p, key);
      GroupByKeys(p, key);
      var g0 := GroupBy(p, key);
      var g := GroupBy(s, key);
      forall i | 0 <= i < |g|
        ensures g[i].items == Filter(s, HasKey(key, g[i].key))
      {
        FilterSnoc(p, x, HasKey(key, g[i].key));
        if i >= |g0| {
          assert g[i].key == key(x) && key(x) !in Keys(g0);
          assert key(x) !in Map(p, key);
          FilterNoneWithKey(p, key, key(x));
        }
      }
    }
  }

  /** No element has a key that does not occur among the keys. */
  lemma FilterNoneWithKey<T, K>(s: seq<T>, key: T -> K, k: K)
    requires k !in Map(s, key)
    ensures Filter(s, HasKey(key, k)) == []
  {
    forall y | y in s ensures !HasKey(key, k)(y) {
      var j := IndexOf(s, y);
      assert Map(s, key)[j] == key(y);
    }
  }

  // ---------------------------------------------------------------- sort

  /** `le` is a total preorder: a comparator fit for sorting. */
  ghost predicate TotalPreorder<T(!new)>(le: (T, T) -> bool) {
    && (forall a, b :: le(a, b) || le(b, a))
    && (forall a, b, c :: le(a, b) && le(b, c) ==> le(a, c))
  }

  /** `s` is ordered by `le`. */
  predicate SortedBy<T>(s: seq<T>, le: (T, T) -> bool) {
    forall i, j | 0 <= i < j < |s| :: le(s[i], s[j])
  }

  /** Insert `x` before the first element it is `le` to. */
  function Insert<T(!new)>(x: T, s: seq<T>, le: (T, T) -> bool): (r: seq<T>)
    requires TotalPreorder(le)
    requires SortedBy(s, le)
    ensures multiset(r) == multiset(s) + multiset{x}
    ensures SortedBy(r, le)
  {
    if |s| == 0 then [x]
    else if le(x, s[0]) then [x] + s
    else
      var rest := Insert(x, s[1..], le);
      assert forall y | y in multiset(rest) :: le(s[0], y) by {
        forall y | y in multiset(rest) ensures le(s[0], y) {
          assert y in multiset(s[1..]) + multiset{x};
          if y in multiset(s[1..]) {
            var k :| 0 <= k < |s[1..]| && s[1..][k] == y;
            assert s[k + 1] == y;
          }
        }
      }
      assert multiset([s[0]] + s[1..]) == multiset(s) by { assert [s[0]] + s[1..] == s; }
      [s[0]] + rest
  }

  /**
   * `s` ordered by `le` (the model of `ORDER BY`): a permutation of `s`
   * that is sorted. SQL leaves the order of ties open; this picks one.
   */
  function SortBy<T(!new)>(s: seq<T>, le: (T, T) -> bool): (r: seq<T>)
    requires TotalPreorder(le)
    ensures multiset(r) == multiset(s)
    ensures |r| == |s|
    ensures SortedBy(r, le)
  {
    if |s| == 0 then []
    else
      assert multiset(s) == multiset(s[1..]) + multiset{s[0]} by { assert s == [s[0]] + s[1..]; }
      var r := Insert(s[0], SortBy(s[1..], le), le);
      assert |r| == |multiset(r)|;
      r
  }

  /** Ascending order of an integer key is a total preorder. */
  function ByIntAsc<T>(key: T -> int): (T, T) -> bool {
    (a: T, b: T) => key(a) <= key(b)
  }

  /** Descending order of an integer key. */
  function ByIntDesc<T>(key: T -> int): (T, T) -> bool {
    (a: T, b: T) => key(b) <= key(a)
  }

  lemma IntOrdersArePreorders<T(!new)>(key: T -> int)
    ensures TotalPreorder(ByIntAsc(key))
    ensures TotalPreorder(ByIntDesc(key))
  {
  }

  /** Sorting keeps exactly the elements it was given. */
  lemma SortByMembers<T(!new)>(s: seq<T>, le: (T, T) -> bool)
    requires TotalPreorder(le)
    ensures forall x :: x in SortBy(s, le) <==> x in s
  {
    var r := SortBy(s, le);
    forall x ensures x in r <==> x in s {
      assert x in r <==> x in multiset(r);
      assert x in s <==> x in multiset(s);
    }
  }

  /** `ORDER BY key` on an integer key. */
  function SortAsc<T(!new)>(s: seq<T>, key: T -> int): (r: seq<T>)
    ensures multiset(r) == multiset(s) && |r| == |s|
    ensures forall x :: x in r <==> x in s
    ensures forall i, j | 0 <= i < j < |r| :: key(r[i]) <= key(r[j])
  {
    IntOrdersArePreorders(key);
    SortByMembers(s, ByIntAsc(key));
    SortBy(s, ByIntAsc(key))
  }

  /** `ORDER BY key DESC` on an integer key. */
  function SortDesc<T(!new)>(s: seq<T>, key: T -> int): (r: seq<T>)
    ensures multiset(r) == multiset(s) && |r| == |s|
    ensures forall x :: x in r <==> x in s
    ensures forall i, j | 0 <= i < j < |r| :: key(r[i]) >= key(r[j])
  {
    IntOrdersArePreorders(key);
    SortByMembers(s, ByIntDesc(key));
    SortBy(s, ByIntDesc(key))
  }

  /** Inserting into a sorted list that ends with an element `x` does not pass leaves that element last. */
  lemma {:induction false} InsertSnoc<T(!new)>(x: T, t: seq<T>, a: T, le: (T, T) -> bool)
    requires TotalPreorder(le)
    requires SortedBy(t + [a], le) && le(x, a)
    ensures SortedBy(t, le)
    ensures Insert(x, t + [a], le) == Insert(x, t, le) + [a]
    decreases |t|
  {
    assert SortedBy(t, le) by {
      forall i, j | 0 <= i < j < |t| ensures le(t[i], t[j]) {
        assert t[i] == (t + [a])[i] && t[j] == (t + [a])[j];
      }
    }
    if |t| > 0 && !le(x, t[0]) {
      assert (t + [a])[0] == t[0];
      assert (t + [a])[1..] == t[1..] + [a];
      assert SortedBy(t[1..] + [a], le) by {
        forall i, j | 0 <= i < j < |t| ensures le((t[1..] + [a])[i], (t[1..] + [a])[j]) {
          assert (t[1..] + [a])[i] == (t + [a])[i + 1] && (t[1..] + [a])[j] == (t + [a])[j + 1];
        }
      }
      InsertSnoc(x, t[1..], a, le);
    } else if |t| > 0 {
      assert (t + [a])[0] == t[0];
    }
  }

  /** Sorting a list extended by an element no smaller than any other puts that element last. */
  lemma {:induction false} SortBySnoc<T(!new)>(s: seq<T>, a: T, le: (T, T) -> bool)
    requires TotalPreorder(le)
    requires forall y | y in s :: le(y, a)
    ensures SortBy(s + [a], le) == SortBy(s, le) + [a]
    decreases |s|
  {
    if |s| == 0 {
      assert s + [a] == [a];
    } else {
      var t := s + [a];
      assert t[0] == s[0] && t[1..] == s[1..] + [a];
      SortBySnoc(s[1..], a, le);
      assert SortBy(t[1..], le) == SortBy(s[1..], le) + [a];
      InsertSnoc(s[0], SortBy(s[1..], le), a, le);
    }
  }

  /** `ORDER BY key` after appending a row whose key is the largest: the row comes last. */
  lemma SortAscSnoc<T(!new)>(s: seq<T>, a: T, key: T -> int)
    requires forall y | y in s :: key(y) <= key(a)
    ensures SortAsc(s + [a], key) == SortAsc(s, key) + [a]
  {
    IntOrdersArePreorders(key);
    SortBySnoc(s, a, ByIntAsc(key));
  }

  /** A sequence without duplicates holds each value at most once. */
  lemma {:induction false} NoDupMultiplicity<T>(s: seq<T>, x: T)
    requires NoDup(s)
    ensures multiset(s)[x] <= 1
    decreases |s|
  {
    if |s| > 0 {
      assert s == [s[0]] + s[1..];
      assert NoDup(s[1..]);
      NoDupMultiplicity(s[1..], x);
      if s[0] == x {
        assert x !in s[1..];
      }
    }
  }

  /** A permutation of a sequence without duplicates has none either. */
  lemma PermutationNoDup<T>(a: seq<T>, b: seq<T>)
    requires multiset(a) == multiset(b) && NoDup(a)
    ensures NoDup(b)
  {
    forall i, j | 0 <= i < j < |b| ensures b[i] != b[j] {
      if b[i] == b[j] {
        var x := b[i];
        assert b == b[..i] + [x] + b[i + 1..j] + [x] + b[j + 1..];
        assert multiset(b)[x] >= 2;
        NoDupMultiplicity(a, x);
        assert false;
      }
    }
  }

  /** Dropping the element at `k` leaves the rest of the multiset. */
  lemma RemoveAt<T>(b: seq<T>, k: nat)
    requires k < |b|
    ensures multiset(b) == multiset(b[..k] + b[k + 1..]) + multiset{b[k]}
  {
    assert b == b[..k] + [b[k]] + b[k + 1..];
  }

  /** One copy of the same value taken from two equal multisets leaves equal multisets. */
  lemma Cancel<T>(m: multiset<T>, n: multiset<T>, x: T)
    requires m + multiset{x} == n + multiset{x}
    ensures m == n
  {
    forall y ensures m[y] == n[y] {
      assert (m + multiset{x})[y] == (n + multiset{x})[y];
    }
  }

  /** Mapping two permutations of each other gives permutations of each other. */
  lemma {:induction false} MapPermutation<T, U>(a: seq<T>, b: seq<T>, f: T -> U)
    requires multiset(a) == multiset(b)
    ensures multiset(Map(a, f)) == multiset(Map(b, f))
    decreases |a|
  {
    assert |a| == |multiset(a)| == |b|;
    if |a| > 0 {
      assert a[0] in multiset(b);
      var k := IndexOf(b, a[0]);
      var rest := b[..k] + b[k + 1..];
      PermutationRest(a, b, k);
      assert a[..0] + a[1..] == a[1..];
      MapPermutation(a[1..], rest, f);
      MapRemoveMultiset(a, 0, f);
      MapRemoveMultiset(b, k, f);
    }
  }

  /** Two permutations of each other, less the same value, are permutations of each other. */
  lemma PermutationRest<T>(a: seq<T>, b: seq<T>, k: nat)
    requires multiset(a) == multiset(b) && |a| > 0 && k < |b| && b[k] == a[0]
    ensures multiset(a[..0] + a[1..]) == multiset(b[..k] + b[k + 1..])
  {
    RemoveAt(a, 0);
    RemoveAt(b, k);
    Cancel(multiset(a[..0] + a[1..]), multiset(b[..k] + b[k + 1..]), a[0]);
  }

  /** The mapped sequence is the mapped rest plus the image of the dropped element. */
  lemma MapRemoveMultiset<T, U>(b: seq<T>, k: nat, f: T -> U)
    requires k < |b|
    ensures multiset(Map(b, f)) == multiset(Map(b[..k] + b[k + 1..], f)) + multiset{f(b[k])}
  {
    MapRemoveAt(b, k, f);
    RemoveAt(Map(b, f), k);
  }

  /** Mapping commutes with dropping the element at `k`. */
  lemma MapRemoveAt<T, U>(b: seq<T>, k: nat, f: T -> U)
    requires k < |b|
    ensures Map(b[..k] + b[k + 1..], f) == Map(b, f)[..k] + Map(b, f)[k + 1..]
  {
    var rest := b[..k] + b[k + 1..];
    forall i | 0 <= i < |rest| ensures Map(rest, f)[i] == (Map(b, f)[..k] + Map(b, f)[k + 1..])[i] {
      if i < k { assert rest[i] == b[i]; } else { assert rest[i] == b[i + 1]; }
    }
  }

  // ---------------------------------------------------------------- paging

  /** How many of `n` rows a page of `limit` rows from `offset` holds. */
  function PageSize(n: nat, offset: nat, limit: nat): nat {
    if offset >= n then 0 else if offset + limit <= n then limit else n - offset
  }

  /** `OFFSET offset LIMIT limit` on an already ordered sequence. */
  function Page<T>(s: seq<T>, offset: nat, limit: nat): (r: seq<T>)
    ensures |r| == PageSize(|s|, offset, limit)
    ensures forall i | 0 <= i < |r| :: r[i] == s[offset + i]
  {
    if offset >= |s| then []
    else if offset + limit <= |s| then s[offset..offset + limit]
    else s[offset..]
  }

  // ---------------------------------------------------------------- max

  /** The largest element, `None` for an empty sequence (SQL `max`). */
  function MaxOf(s: seq<int>): (r: Option<int>)
    ensures r.None? <==> |s| == 0
    ensures r.Some? ==> r.value in s && forall x | x in s :: x <= r.value
  {
    if |s| == 0 then None
    else
      var rest := MaxOf(s[1..]);
      assert forall x | x in s :: x == s[0] || x in s[1..];
      if rest.None? || rest.value < s[0] then Some(s[0]) else rest
  }
}
