/**
 * Order-preserving filters, counts, distinct values and a stable
 * insertion sort: the array operations (`filter`, `length`, `new Set`,
 * `sort`) the report engine is built from.
 */
module Seqs {
  import opened Wrappers

  /** `s.find(p)`: the first element satisfying `p`, or none when no element does. */
  function Find<T>(s: seq<T>, p: T -> bool): (r: Option<T>)
    ensures r.Some? ==> r.value in s && p(r.value)
    ensures r.Some? ==> exists i | 0 <= i < |s| :: s[i] == r.value && forall j | 0 <= j < i :: !p(s[j])
    ensures r.None? <==> forall i | 0 <= i < |s| :: !p(s[i])
  {
    if s == [] then None
    else if p(s[0]) then Some(s[0])
    else
      var r := Find(s[1..], p);
      assert forall j | 0 <= j < |s| - 1 :: s[1..][j] == s[j + 1];
      r
  }

  /** `s.filter(p)`: the elements satisfying `p`, in their original order. */
  function Filter<T>(s: seq<T>, p: T -> bool): (r: seq<T>)
    ensures |r| <= |s|
  {
    if s == [] then []
    else Filter(s[..|s| - 1], p) + (if p(s[|s| - 1]) then [s[|s| - 1]] else [])
  }

  /**
   * The positions `Filter` keeps, in ascending order: exactly the positions
   * whose element satisfies `p`, the i-th of them holding the i-th element
   * kept. So a filter is a subsequence of its input, in the input's order.
   */
  function FilterIndices<T>(s: seq<T>, p: T -> bool): (idx: seq<nat>)
    ensures |idx| == |Filter(s, p)|
    ensures forall i | 0 <= i < |idx| :: idx[i] < |s| && Filter(s, p)[i] == s[idx[i]]
    ensures forall i, j | 0 <= i < j < |idx| :: idx[i] < idx[j]
    ensures forall k | 0 <= k < |s| :: p(s[k]) <==> k in idx
  {
    if s == [] then []
    else
      var s' := s[..|s| - 1];
      var idx' := FilterIndices(s', p);
      assert forall k | 0 <= k < |s'| :: s'[k] == s[k];
      idx' + (if p(s[|s| - 1]) then [|s| - 1] else [])
  }

  /** Filtering a concatenation filters each part: the order of the input is kept. */
  lemma {:induction false} FilterAppend<T>(a: seq<T>, b: seq<T>, p: T -> bool)
    ensures Filter(a + b, p) == Filter(a, p) + Filter(b, p)
    decreases |b|
  {
    if b == [] {
      assert a + b == a;
    } else {
      var b' := b[..|b| - 1];
      assert (a + b)[..|a + b| - 1] == a + b';
      FilterAppend(a, b', p);
    }
  }

  /** Each element is kept with all its copies when it satisfies `p`, and dropped entirely otherwise. */
  lemma {:induction false} FilterMultiset<T>(s: seq<T>, p: T -> bool, x: T)
    ensures multiset(Filter(s, p))[x] == if p(x) then multiset(s)[x] else 0
    decreases |s|
  {
    if s != [] {
      var s' := s[..|s| - 1];
      assert s == s' + [s[|s| - 1]];
      FilterMultiset(s', p, x);
    }
  }

  /** Membership in a filter: exactly the elements of `s` that satisfy `p`. */
  lemma FilterMember<T>(s: seq<T>, p: T -> bool, x: T)
    ensures x in Filter(s, p) <==> x in s && p(x)
  {
    FilterMultiset(s, p, x);
    assert x in Filter(s, p) <==> multiset(Filter(s, p))[x] > 0;
    assert x in s <==> multiset(s)[x] > 0;
  }

  /** A filter whose predicate holds everywhere returns its input. */
  lemma {:induction false} FilterAll<T>(s: seq<T>, p: T -> bool)
    requires forall i | 0 <= i < |s| :: p(s[i])
    ensures Filter(s, p) == s
    decreases |s|
  {
    if s != [] {
      FilterAll(s[..|s| - 1], p);
    }
  }

  /** A filter whose predicate holds nowhere returns nothing. */
  lemma {:induction false} FilterNone<T>(s: seq<T>, p: T -> bool)
    requires forall i | 0 <= i < |s| :: !p(s[i])
    ensures Filter(s, p) == []
    decreases |s|
  {
    if s != [] {
      FilterNone(s[..|s| - 1], p);
    }
  }

  /** Filtering twice keeps the elements satisfying both predicates. */
  lemma {:induction false} FilterFilter<T>(s: seq<T>, p: T -> bool, q: T -> bool)
    ensures Filter(Filter(s, p), q) == Filter(s, x => p(x) && q(x))
    decreases |s|
  {
    if s != [] {
      var s' := s[..|s| - 1];
      var x := s[|s| - 1];
      FilterFilter(s', p, q);
      FilterAppend(Filter(s', p), if p(x) then [x] else [], q);
      if p(x) {
        assert Filter([x], q) == Filter([], q) + (if q(x) then [x] else []);
      }
    }
  }

  /** Filtering by `p` and then by `q` is filtering by any `r` that holds exactly where both do. */
  lemma {:induction false} FilterThenFilter<T>(s: seq<T>, p: T -> bool, q: T -> bool, r: T -> bool)
    requires forall i | 0 <= i < |s| :: r(s[i]) == (p(s[i]) && q(s[i]))
    ensures Filter(Filter(s, p), q) == Filter(s, r)
    decreases |s|
  {
    if s != [] {
      var s' := s[..|s| - 1];
      var x := s[|s| - 1];
      FilterThenFilter(s', p, q, r);
      FilterAppend(Filter(s', p), if p(x) then [x] else [], q);
      if p(x) {
        assert Filter([x], q) == Filter([], q) + (if q(x) then [x] else []);
      }
    }
  }

  /** Two predicates that are equal on the elements of `s` filter it alike. */
  lemma {:induction false} FilterCongruent<T>(s: seq<T>, p: T -> bool, q: T -> bool)
    requires forall i | 0 <= i < |s| :: p(s[i]) == q(s[i])
    ensures Filter(s, p) == Filter(s, q)
    decreases |s|
  {
    if s != [] {
      FilterCongruent(s[..|s| - 1], p, q);
    }
  }

  /** `s.filter(p).length`. */
  function Count<T>(s: seq<T>, p: T -> bool): nat {
    |Filter(s, p)|
  }

  /** Three mutually exclusive predicates together select at most every element once. */
  lemma {:induction false} DisjointCounts<T>(s: seq<T>, p: T -> bool, q: T -> bool, r: T -> bool)
    requires forall i | 0 <= i < |s| :: !(p(s[i]) && q(s[i])) && !(p(s[i]) && r(s[i])) && !(q(s[i]) && r(s[i]))
    ensures Count(s, p) + Count(s, q) + Count(s, r) <= |s|
    decreases |s|
  {
    if s != [] {
      DisjointCounts(s[..|s| - 1], p, q, r);
    }
  }

  /** The number of occurrences of `x` in `s`. */
  function Occurrences<T(==)>(s: seq<T>, x: T): nat {
    multiset(s)[x]
  }

  /** The distinct elements of `s`, in order of first occurrence (the key order of a JavaScript object or Set). */
  function Distinct<T(==)>(s: seq<T>): (d: seq<T>) {
    if s == [] then []
    else
      var d' := Distinct(s[..|s| - 1]);
      if s[|s| - 1] in d' then d' else d' + [s[|s| - 1]]
  }

  ghost predicate NoDuplicates<T>(s: seq<T>) {
    forall i, j | 0 <= i < j < |s| :: s[i] != s[j]
  }

  /** `Distinct` keeps every value exactly once and invents none. */
  lemma {:induction false} DistinctSpec<T>(s: seq<T>)
    ensures NoDuplicates(Distinct(s))
    ensures forall x :: x in Distinct(s) <==> x in s
    ensures |Distinct(s)| <= |s|
    ensures (set x | x in Distinct(s)) == (set x | x in s)
    decreases |s|
  {
    if s != [] {
      var s' := s[..|s| - 1];
      DistinctSpec(s');
      assert s == s' + [s[|s| - 1]];
      assert forall x :: x in s <==> x in s' || x == s[|s| - 1];
      var d' := Distinct(s');
      if s[|s| - 1] !in d' {
        var e := d' + [s[|s| - 1]];
        assert forall x :: x in e <==> x in d' || x == s[|s| - 1];
      }
      assert (set x | x in s) == (set x | x in s') + {s[|s| - 1]};
    }
  }

  /** A duplicate-free sequence has as many elements as its set. */
  lemma {:induction false} NoDuplicatesCard<T>(s: seq<T>)
    requires NoDuplicates(s)
    ensures |(set x | x in s)| == |s|
    decreases |s|
  {
    if s != [] {
      var s' := s[..|s| - 1];
      var last := s[|s| - 1];
      NoDuplicatesCard(s');
      assert s == s' + [last];
      assert last !in s';
      assert (set x | x in s) == (set x | x in s') + {last};
    }
  }

  /** `new Set(s).size`: the number of distinct values never exceeds the number of elements. */
  lemma DistinctCardinality<T>(s: seq<T>)
    ensures |(set x | x in s)| == |Distinct(s)| <= |s|
  {
    DistinctSpec(s);
    NoDuplicatesCard(Distinct(s));
  }

  /** The sum of `f` over the elements of `s`. */
  function SumOf<T>(s: seq<T>, f: T -> int): int {
    if s == [] then 0 else SumOf(s[..|s| - 1], f) + f(s[|s| - 1])
  }

  // ---------------------------------------------------------------------
  // Stable insertion sort by a three-way comparator, the model of
  // `Array.prototype.sort(compare)`, which the language requires to be
  // stable. A negative comparison puts the first argument first.
  // ---------------------------------------------------------------------

  /** Insert `x` before the first element that must follow it; after every element it ties with. */
  function Insert<T>(x: T, s: seq<T>, cmp: (T, T) -> int): (r: seq<T>)
    ensures |r| == |s| + 1
  {
    if s == [] || cmp(x, s[0]) < 0 then [x] + s
    else [s[0]] + Insert(x, s[1..], cmp)
  }

  /** Sort by inserting the elements one at a time, in input order. */
  function InsertionSort<T>(s: seq<T>, cmp: (T, T) -> int): (r: seq<T>)
    ensures |r| == |s|
  {
    if s == [] then [] else Insert(s[|s| - 1], InsertionSort(s[..|s| - 1], cmp), cmp)
  }

  lemma {:induction false} InsertPermutation<T>(x: T, s: seq<T>, cmp: (T, T) -> int)
    ensures multiset(Insert(x, s, cmp)) == multiset(s) + multiset{x}
    decreases |s|
  {
    if s != [] && cmp(x, s[0]) >= 0 {
      InsertPermutation(x, s[1..], cmp);
      assert s == [s[0]] + s[1..];
    }
  }

  /** The sorted sequence is a permutation of the input. */
  lemma {:induction false} SortPermutation<T>(s: seq<T>, cmp: (T, T) -> int)
    ensures multiset(InsertionSort(s, cmp)) == multiset(s)
    decreases |s|
  {
    if s != [] {
      var s' := s[..|s| - 1];
      SortPermutation(s', cmp);
      InsertPermutation(s[|s| - 1], InsertionSort(s', cmp), cmp);
      assert s == s' + [s[|s| - 1]];
    }
  }

  /** Every element that satisfies `late` comes after every element that does not. */
  ghost predicate LastWhere<T>(s: seq<T>, late: T -> bool) {
    forall i, j | 0 <= i < j < |s| :: late(s[i]) ==> late(s[j])
  }

  /** A comparator that always orders `late` elements after the others. */
  ghost predicate PutsLast<T(!new)>(cmp: (T, T) -> int, late: T -> bool) {
    (forall a, b :: late(a) ==> cmp(a, b) >= 0) &&
    (forall a, b :: !late(a) && late(b) ==> cmp(a, b) < 0)
  }

  lemma {:induction false} InsertKeepsLast<T(!new)>(x: T, s: seq<T>, cmp: (T, T) -> int, late: T -> bool)
    requires PutsLast(cmp, late) && LastWhere(s, late)
    ensures LastWhere(Insert(x, s, cmp), late)
    decreases |s|
  {
    if s != [] && cmp(x, s[0]) >= 0 {
      InsertKeepsLast(x, s[1..], cmp, late);
      var r := Insert(x, s, cmp);
      var t := Insert(x, s[1..], cmp);
      assert r == [s[0]] + t;
      InsertPermutation(x, s[1..], cmp);
      if late(s[0]) {
        // then every element of s is late, and x cannot be early: an early x would sort before s[0]
        assert late(x);
        forall j | 0 <= j < |t| ensures late(t[j]) {
          assert t[j] in multiset(t);
          assert t[j] in multiset(s[1..]) || t[j] == x;
          if t[j] != x {
            var k :| 0 <= k < |s[1..]| && s[1..][k] == t[j];
            assert s[k + 1] == t[j];
          }
        }
      }
    }
  }

  /** With a comparator that puts `late` elements last, the sort puts them after all the others. */
  lemma {:induction false} SortPutsLast<T(!new)>(s: seq<T>, cmp: (T, T) -> int, late: T -> bool)
    requires PutsLast(cmp, late)
    ensures LastWhere(InsertionSort(s, cmp), late)
    decreases |s|
  {
    if s != [] {
      SortPutsLast(s[..|s| - 1], cmp, late);
      InsertKeepsLast(s[|s| - 1], InsertionSort(s[..|s| - 1], cmp), cmp, late);
    }
  }

  /** An element that goes before every other element, and that no other element goes before, is sorted first. */
  lemma {:induction false} SortHead<T>(s: seq<T>, cmp: (T, T) -> int, x: T)
    requires x in s
    requires forall y | y in s && y != x :: cmp(x, y) < 0 && cmp(y, x) >= 0
    ensures InsertionSort(s, cmp)[0] == x
    decreases |s|
  {
    var s' := s[..|s| - 1];
    var last := s[|s| - 1];
    assert s == s' + [last];
    var t := InsertionSort(s', cmp);
    if x in s' {
      SortHead(s', cmp, x);
      if last != x {
        assert cmp(last, t[0]) >= 0;
      }
    } else {
      SortPermutation(s', cmp);
      if t != [] {
        assert t[0] in multiset(s');
        assert t[0] in s && t[0] != x;
      }
    }
  }

  /** `s` is in the order `cmp` asks for: no later element must precede an earlier one. */
  ghost predicate SortedBy<T>(s: seq<T>, cmp: (T, T) -> int) {
    forall i, j | 0 <= i < j < |s| :: cmp(s[i], s[j]) <= 0
  }

  /** On the elements of `E`, `cmp` is a total preorder: its sign flips with its arguments and `<= 0` is transitive. */
  ghost predicate TotalPreorderOn<T>(cmp: (T, T) -> int, E: multiset<T>) {
    (forall a, b | a in E && b in E :: cmp(a, b) > 0 ==> cmp(b, a) < 0) &&
    (forall a, b | a in E && b in E :: cmp(a, b) <= 0 || cmp(b, a) <= 0) &&
    (forall a, b, c | a in E && b in E && c in E :: cmp(a, b) <= 0 && cmp(b, c) <= 0 ==> cmp(a, c) <= 0)
  }

  lemma TotalPreorderSub<T>(cmp: (T, T) -> int, E: multiset<T>, F: multiset<T>)
    requires TotalPreorderOn(cmp, E) && F <= E
    ensures TotalPreorderOn(cmp, F)
  {
  }

  /** Putting in front an element that may precede every element keeps a sorted sequence sorted. */
  lemma PrependSorted<T>(x: T, s: seq<T>, cmp: (T, T) -> int)
    requires SortedBy(s, cmp)
    requires forall y | y in multiset(s) :: cmp(x, y) <= 0
    ensures SortedBy([x] + s, cmp)
  {
    var r := [x] + s;
    forall i, j | 0 <= i < j < |r| ensures cmp(r[i], r[j]) <= 0 {
      if i == 0 {
        assert r[j] == s[j - 1] && s[j - 1] in multiset(s);
      } else {
        assert r[i] == s[i - 1] && r[j] == s[j - 1];
      }
    }
  }

  /** An element that goes before the head of a sorted sequence may go before all of it. */
  lemma PrecedesAll<T>(x: T, s: seq<T>, cmp: (T, T) -> int)
    requires s != [] && SortedBy(s, cmp) && cmp(x, s[0]) <= 0
    requires TotalPreorderOn(cmp, multiset(s) + multiset{x})
    ensures forall y | y in multiset(s) :: cmp(x, y) <= 0
  {
    var E := multiset(s) + multiset{x};
    forall y | y in multiset(s) ensures cmp(x, y) <= 0 {
      var k :| 0 <= k < |s| && s[k] == y;
      if k > 0 {
        assert cmp(s[0], s[k]) <= 0;
        assert x in E && s[0] in E && y in E;
      }
    }
  }

  lemma {:induction false} InsertSorted<T>(x: T, s: seq<T>, cmp: (T, T) -> int)
    requires TotalPreorderOn(cmp, multiset(s) + multiset{x})
    requires SortedBy(s, cmp)
    ensures SortedBy(Insert(x, s, cmp), cmp)
    decreases |s|
  {
    if s == [] {
    } else if cmp(x, s[0]) < 0 {
      PrecedesAll(x, s, cmp);
      PrependSorted(x, s, cmp);
    } else {
      TailPreorder(x, s, cmp);
      InsertSorted(x, s[1..], cmp);
      InsertBehindHead(x, s, cmp);
    }
  }

  lemma TailPreorder<T>(x: T, s: seq<T>, cmp: (T, T) -> int)
    requires s != [] && TotalPreorderOn(cmp, multiset(s) + multiset{x})
    requires SortedBy(s, cmp)
    ensures TotalPreorderOn(cmp, multiset(s[1..]) + multiset{x}) && SortedBy(s[1..], cmp)
  {
    assert s == [s[0]] + s[1..];
    TotalPreorderSub(cmp, multiset(s) + multiset{x}, multiset(s[1..]) + multiset{x});
  }

  /** Inserting behind a head that need not move keeps the head first. */
  lemma InsertBehindHead<T>(x: T, s: seq<T>, cmp: (T, T) -> int)
    requires s != [] && !(cmp(x, s[0]) < 0)
    requires TotalPreorderOn(cmp, multiset(s) + multiset{x})
    requires SortedBy(s, cmp) && SortedBy(Insert(x, s[1..], cmp), cmp)
    ensures SortedBy(Insert(x, s, cmp), cmp)
  {
    assert cmp(s[0], x) <= 0 by {
      assert x in multiset(s) + multiset{x};
      assert s[0] in multiset(s) + multiset{x};
    }
    HeadPrecedesInsert(x, s, cmp);
    PrependSorted(s[0], Insert(x, s[1..], cmp), cmp);
  }

  lemma HeadPrecedesInsert<T>(x: T, s: seq<T>, cmp: (T, T) -> int)
    requires s != [] && SortedBy(s, cmp) && cmp(s[0], x) <= 0
    ensures forall y | y in multiset(Insert(x, s[1..], cmp)) :: cmp(s[0], y) <= 0
  {
    InsertPermutation(x, s[1..], cmp);
    forall y | y in multiset(Insert(x, s[1..], cmp)) ensures cmp(s[0], y) <= 0 {
      if y != x {
        assert y in multiset(s[1..]);
        var k :| 0 <= k < |s[1..]| && s[1..][k] == y;
        assert s[k + 1] == y;
      }
    }
  }

  /** With a comparator that is a total preorder on the input, the output is in comparator order. */
  lemma {:induction false} SortSorted<T>(s: seq<T>, cmp: (T, T) -> int)
    requires TotalPreorderOn(cmp, multiset(s))
    ensures SortedBy(InsertionSort(s, cmp), cmp)
    decreases |s|
  {
    if s != [] {
      var s' := s[..|s| - 1];
      assert s == s' + [s[|s| - 1]];
      TotalPreorderSub(cmp, multiset(s), multiset(s'));
      SortSorted(s', cmp);
      SortPermutation(s', cmp);
      InsertSorted(s[|s| - 1], InsertionSort(s', cmp), cmp);
    }
  }

  // ---------------------------------------------------------------------
  // Stability: elements that compare equal keep their input order
  // ---------------------------------------------------------------------

  /**
   * On `S`, `cmp` is a total preorder whose sign flips both ways, so
   * "compares equal" is symmetric as well as transitive.
   */
  ghost predicate ConsistentOn<T>(cmp: (T, T) -> int, S: set<T>) {
    && (forall a, b | a in S && b in S :: (cmp(a, b) < 0 <==> cmp(b, a) > 0) && (cmp(a, b) <= 0 || cmp(b, a) <= 0))
    && (forall a, b, c | a in S && b in S && c in S :: cmp(a, b) <= 0 && cmp(b, c) <= 0 ==> cmp(a, c) <= 0)
  }

  /** Every element of `s` lies in `S`. */
  ghost predicate Within<T>(s: seq<T>, S: set<T>) {
    forall y | y in s :: y in S
  }

  lemma ConsistentPreorder<T>(cmp: (T, T) -> int, S: set<T>, s: seq<T>)
    requires ConsistentOn(cmp, S) && Within(s, S)
    ensures TotalPreorderOn(cmp, multiset(s))
  {
  }

  /** "Compares equal to `x0`". */
  function TiedWith<T>(cmp: (T, T) -> int, x0: T): T -> bool {
    (y: T) => cmp(x0, y) == 0
  }

  /** Nothing in a sorted sequence that must follow an element tied with `x0` is itself tied with `x0`. */
  lemma NoTiesBehind<T>(x: T, t: seq<T>, cmp: (T, T) -> int, x0: T, S: set<T>)
    requires t != [] && SortedBy(t, cmp) && cmp(x, t[0]) < 0 && cmp(x0, x) == 0
    requires ConsistentOn(cmp, S) && Within(t, S) && x in S && x0 in S
    ensures Filter(t, TiedWith(cmp, x0)) == []
  {
    forall k | 0 <= k < |t| ensures !TiedWith(cmp, x0)(t[k]) {
      assert t[k] in S && t[0] in S;
      if k > 0 {
        assert cmp(t[0], t[k]) <= 0;
      }
    }
    FilterNone(t, TiedWith(cmp, x0));
  }

  /** Inserting into a sorted sequence puts `x` behind every element it ties with. */
  lemma {:induction false} InsertStable<T>(x: T, t: seq<T>, cmp: (T, T) -> int, x0: T, S: set<T>)
    requires SortedBy(t, cmp) && ConsistentOn(cmp, S) && Within(t, S) && x in S && x0 in S
    ensures Filter(Insert(x, t, cmp), TiedWith(cmp, x0)) == Filter(t, TiedWith(cmp, x0)) + Filter([x], TiedWith(cmp, x0))
    decreases |t|
  {
    var p := TiedWith(cmp, x0);
    if t == [] {
      assert Insert(x, t, cmp) == [x];
    } else if cmp(x, t[0]) < 0 {
      if p(x) {
        NoTiesBehind(x, t, cmp, x0, S);
      }
      InsertStableFront(x, t, cmp, p);
    } else {
      assert SortedBy(t[1..], cmp) && Within(t[1..], S) by {
        assert forall i | 0 <= i < |t| - 1 :: t[1..][i] == t[i + 1];
      }
      InsertStable(x, t[1..], cmp, x0, S);
      InsertStableBehind(x, t, cmp, p);
    }
  }

  lemma FilterSingle<T>(x: T, p: T -> bool)
    ensures Filter([x], p) == if p(x) then [x] else []
  {
    assert [x][..0] == [];
  }

  /** `x` inserted at the front, when nothing in the sequence shares its share of the filter. */
  lemma InsertStableFront<T>(x: T, t: seq<T>, cmp: (T, T) -> int, p: T -> bool)
    requires t != [] && cmp(x, t[0]) < 0
    requires p(x) ==> Filter(t, p) == []
    ensures Filter(Insert(x, t, cmp), p) == Filter(t, p) + Filter([x], p)
  {
    assert Insert(x, t, cmp) == [x] + t;
    FilterAppend([x], t, p);
    FilterSingle(x, p);
  }

  /** `x` inserted behind the head: the head's share of the filter stays in front. */
  lemma InsertStableBehind<T>(x: T, t: seq<T>, cmp: (T, T) -> int, p: T -> bool)
    requires t != [] && !(cmp(x, t[0]) < 0)
    requires Filter(Insert(x, t[1..], cmp), p) == Filter(t[1..], p) + Filter([x], p)
    ensures Filter(Insert(x, t, cmp), p) == Filter(t, p) + Filter([x], p)
  {
    assert Insert(x, t, cmp) == [t[0]] + Insert(x, t[1..], cmp);
    assert t == [t[0]] + t[1..];
    FilterAppend([t[0]], Insert(x, t[1..], cmp), p);
    FilterAppend([t[0]], t[1..], p);
  }

  /**
   * The sort is stable: the elements that compare equal to any `x0` come
   * out in their input order.
   */
  lemma {:induction false} SortStable<T>(s: seq<T>, cmp: (T, T) -> int, x0: T, S: set<T>)
    requires ConsistentOn(cmp, S) && Within(s, S) && x0 in S
    ensures Filter(InsertionSort(s, cmp), TiedWith(cmp, x0)) == Filter(s, TiedWith(cmp, x0))
    decreases |s|
  {
    if s != [] {
      var s' := s[..|s| - 1];
      var x := s[|s| - 1];
      var sorted := InsertionSort(s', cmp);
      assert s == s' + [x];
      assert Within(s', S);
      SortStable(s', cmp, x0, S);
      ConsistentPreorder(cmp, S, s');
      SortSorted(s', cmp);
      SortPermutation(s', cmp);
      assert Within(sorted, S) by {
        forall y | y in sorted ensures y in S {
          assert y in multiset(sorted);
        }
      }
      InsertStable(x, sorted, cmp, x0, S);
      FilterAppend(s', [x], TiedWith(cmp, x0));
    }
  }

  /** In a sorted sequence, every element left out of a prefix sorts no earlier than any element of the prefix. */
  lemma PrefixDominates<T>(s: seq<T>, cmp: (T, T) -> int, k: nat)
    requires SortedBy(s, cmp) && k <= |s|
    ensures forall x, i | x in multiset(s) - multiset(s[..k]) && 0 <= i < k :: cmp(s[i], x) <= 0
  {
    assert s == s[..k] + s[k..];
    assert multiset(s) == multiset(s[..k]) + multiset(s[k..]);
    forall x, i | x in multiset(s) - multiset(s[..k]) && 0 <= i < k ensures cmp(s[i], x) <= 0 {
      assert x in multiset(s[k..]);
      var j :| 0 <= j < |s[k..]| && s[k..][j] == x;
      assert s[k + j] == x;
    }
  }
}
