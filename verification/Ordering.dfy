/** Byte order on strings as Go's `<` compares them, and sorting by a strict total order. */
module Ordering {

  /** a < b in lexicographic order (Dafny's own `<` on sequences is "proper prefix"). */
  predicate StringLess(a: string, b: string) {
    b != [] && (a == [] || a[0] < b[0] || (a[0] == b[0] && StringLess(a[1..], b[1..])))
  }

  lemma {:induction false} StringIrreflexive(a: string)
    ensures !StringLess(a, a)
  {
    if a != [] { StringIrreflexive(a[1..]); }
  }

  lemma {:induction false} StringTransitive(a: string, b: string, c: string)
    requires StringLess(a, b) && StringLess(b, c)
    ensures StringLess(a, c)
  {
    if a != [] && a[0] == b[0] && b[0] == c[0] {
      StringTransitive(a[1..], b[1..], c[1..]);
    }
  }

  lemma {:induction false} StringTotal(a: string, b: string)
    ensures StringLess(a, b) || a == b || StringLess(b, a)
  {
    if a != [] && b != [] && a[0] == b[0] {
      StringTotal(a[1..], b[1..]);
      assert a == [a[0]] + a[1..] && b == [b[0]] + b[1..];
    }
  }

  /** They agree up to i, and there a has the lesser character. */
  predicate LessAt(a: string, b: string, i: int) {
    0 <= i < |a| && i < |b| && a[..i] == b[..i] && a[i] < b[i]
  }

  /** a is a proper prefix of b, or lesser where they first differ. */
  ghost predicate Lesser(a: string, b: string) {
    a < b || exists i :: LessAt(a, b, i)
  }

  /** The lesser string is a proper prefix of the other, or has the lesser character where they first differ. */
  lemma {:induction false} StringLessMeans(a: string, b: string)
    ensures StringLess(a, b) <==> Lesser(a, b)
  {
    if a != [] && b != [] && a[0] == b[0] {
      StringLessMeans(a[1..], b[1..]);
      assert a == [a[0]] + a[1..] && b == [b[0]] + b[1..];
      if i :| LessAt(a[1..], b[1..], i) {
        assert a[..i + 1] == [a[0]] + a[1..][..i] && b[..i + 1] == [b[0]] + b[1..][..i];
        assert LessAt(a, b, i + 1);
      }
      if i :| LessAt(a, b, i) {
        assert i > 0 && a[1..][..i - 1] == a[..i][1..] && b[1..][..i - 1] == b[..i][1..];
        assert LessAt(a[1..], b[1..], i - 1);
      }
    } else if a != [] && b != [] && a[0] < b[0] {
      assert LessAt(a, b, 0);
    }
  }

  /** Two strings of which neither is a prefix of the other keep their order however each goes on. */
  lemma {:induction false} StringLessExtends(a: string, b: string, x: string, y: string)
    requires !(a <= b) && !(b <= a)
    ensures StringLess(a + x, b + y) == StringLess(a, b)
  {
    assert a != [] && b != [];
    if a[0] == b[0] {
      assert a == [a[0]] + a[1..] && b == [b[0]] + b[1..];
      StringLessExtends(a[1..], b[1..], x, y);
      assert (a + x)[1..] == a[1..] + x && (b + y)[1..] == b[1..] + y;
    }
  }

  // ---------------------------------------------------------------- sorting

  ghost predicate Irreflexive<T(!new)>(less: (T, T) -> bool) {
    forall x :: !less(x, x)
  }

  ghost predicate Transitive<T(!new)>(less: (T, T) -> bool) {
    forall x, y, z :: less(x, y) && less(y, z) ==> less(x, z)
  }

  /** Negatively transitive: what makes an irreflexive, transitive order a sort key. */
  ghost predicate WeakOrder<T(!new)>(less: (T, T) -> bool) {
    && Irreflexive(less)
    && Transitive(less)
    && forall x, y, z :: less(x, z) ==> less(x, y) || less(y, z)
  }

  /** No two distinct elements of s tie. */
  ghost predicate NoTies<T(!new)>(less: (T, T) -> bool, s: seq<T>) {
    forall x, y :: x in s && y in s && x != y ==> less(x, y) || less(y, x)
  }

  ghost predicate NoDup<T>(s: seq<T>) {
    forall i, j :: 0 <= i < j < |s| ==> s[i] != s[j]
  }

  ghost predicate StrictlySorted<T(!new)>(less: (T, T) -> bool, s: seq<T>) {
    forall i, j :: 0 <= i < j < |s| ==> less(s[i], s[j])
  }

  ghost predicate Sorted<T(!new)>(less: (T, T) -> bool, s: seq<T>) {
    forall i, j :: 0 <= i < j < |s| ==> !less(s[j], s[i])
  }

  ghost predicate SameElements<T(!new)>(a: seq<T>, b: seq<T>) {
    forall x :: x in a <==> x in b
  }

  /** Insertion from the right: x lands after every element it is not less than. */
  function Insert<T>(less: (T, T) -> bool, s: seq<T>, x: T): seq<T> {
    if s == [] || !less(x, s[|s| - 1]) then s + [x]
    else Insert(less, s[..|s| - 1], x) + [s[|s| - 1]]
  }

  /** The stable sort the listings go through. */
  function Sort<T>(less: (T, T) -> bool, s: seq<T>): seq<T> {
    if s == [] then [] else Insert(less, Sort(less, s[..|s| - 1]), s[|s| - 1])
  }

  lemma {:induction false} InsertKeeps<T>(less: (T, T) -> bool, s: seq<T>, x: T)
    ensures multiset(Insert(less, s, x)) == multiset(s) + multiset{x}
    ensures |Insert(less, s, x)| == |s| + 1
  {
    if s != [] && less(x, s[|s| - 1]) {
      InsertKeeps(less, s[..|s| - 1], x);
      assert s == s[..|s| - 1] + [s[|s| - 1]];
    }
  }

  lemma {:induction false} SortKeeps<T>(less: (T, T) -> bool, s: seq<T>)
    ensures multiset(Sort(less, s)) == multiset(s) && |Sort(less, s)| == |s|
  {
    if s != [] {
      SortKeeps(less, s[..|s| - 1]);
      InsertKeeps(less, Sort(less, s[..|s| - 1]), s[|s| - 1]);
      assert s == s[..|s| - 1] + [s[|s| - 1]];
    }
  }

  lemma SortElements<T>(less: (T, T) -> bool, s: seq<T>)
    ensures forall x :: x in Sort(less, s) <==> x in s
  {
    SortKeeps(less, s);
    forall x ensures x in Sort(less, s) <==> x in s {
      assert x in Sort(less, s) <==> x in multiset(Sort(less, s));
    }
  }

  lemma {:induction false} InsertSorted<T(!new)>(less: (T, T) -> bool, s: seq<T>, x: T)
    requires WeakOrder(less) && Sorted(less, s)
    ensures Sorted(less, Insert(less, s, x))
  {
    if s != [] && less(x, s[|s| - 1]) {
      var init, last := s[..|s| - 1], s[|s| - 1];
      InsertSorted(less, init, x);
      InsertKeeps(less, init, x);
      var out := Insert(less, init, x);
      forall y | y in out ensures !less(last, y) {
        assert y in multiset(out);
        if y != x { assert y in multiset(init); assert y in init; }
      }
    }
  }

  lemma {:induction false} SortSorts<T(!new)>(less: (T, T) -> bool, s: seq<T>)
    requires WeakOrder(less)
    ensures Sorted(less, Sort(less, s))
  {
    if s != [] {
      SortSorts(less, s[..|s| - 1]);
      InsertSorted(less, Sort(less, s[..|s| - 1]), s[|s| - 1]);
    }
  }

  lemma HasFirst<T>(s: seq<T>)
    requires s != []
    ensures exists x :: x in s
  {
    assert s[0] in s;
  }

  lemma NoDupConcat<T(!new)>(a: seq<T>, b: seq<T>)
    requires NoDup(a) && NoDup(b) && forall x :: x in a ==> x !in b
    ensures NoDup(a + b)
  {
    forall i, j | 0 <= i < j < |a + b| ensures (a + b)[i] != (a + b)[j] {
      if i < |a| <= j { assert a[i] in a && b[j - |a|] in b; }
    }
  }

  lemma NoDupMultiset<T>(s: seq<T>)
    requires NoDup(s)
    ensures forall x :: multiset(s)[x] <= 1
  {
    if s != [] {
      var init, last := s[..|s| - 1], s[|s| - 1];
      NoDupMultiset(init);
      assert s == init + [last];
      assert last !in init;
    }
  }

  lemma MultisetNoDup<T>(s: seq<T>)
    requires forall x :: multiset(s)[x] <= 1
    ensures NoDup(s)
  {
    forall i, j | 0 <= i < j < |s| ensures s[i] != s[j] {
      assert s == s[..j] + s[j..];
      assert s[i] in s[..j] && s[j] in s[j..];
      assert multiset(s)[s[i]] == multiset(s[..j])[s[i]] + multiset(s[j..])[s[i]];
    }
  }

  /** Sorting a duplicate-free sequence without ties gives a strictly increasing one. */
  lemma SortStrictly<T(!new)>(less: (T, T) -> bool, s: seq<T>)
    requires WeakOrder(less) && NoDup(s) && NoTies(less, s)
    ensures StrictlySorted(less, Sort(less, s)) && SameElements(Sort(less, s), s)
  {
    hide Sort, WeakOrder;
    SortSorts(less, s);
    SortKeeps(less, s);
    SortElements(less, s);
    NoDupMultiset(s);
    MultisetNoDup(Sort(less, s));
    SortedNoTies(less, Sort(less, s));
  }

  lemma SortedNoTies<T(!new)>(less: (T, T) -> bool, s: seq<T>)
    requires Sorted(less, s) && NoDup(s) && NoTies(less, s)
    ensures StrictlySorted(less, s)
  {
    forall i, j | 0 <= i < j < |s| ensures less(s[i], s[j]) { assert s[i] in s && s[j] in s; }
  }

  /** A set has one strictly increasing listing. */
  lemma {:induction false} SortedUnique<T(!new)>(less: (T, T) -> bool, a: seq<T>, b: seq<T>)
    requires WeakOrder(less) && StrictlySorted(less, a) && StrictlySorted(less, b) && SameElements(a, b)
    ensures a == b
  {
    StrictNoDup(less, a);
    StrictNoDup(less, b);
    SameElementsSameLength(a, b);
    if a != [] {
      assert a[0] in b && b[0] in a;
      var i :| 0 <= i < |b| && b[i] == a[0];
      var j :| 0 <= j < |a| && a[j] == b[0];
      assert a[0] == b[0];
      forall x ensures x in a[1..] <==> x in b[1..] {
        assert x in a <==> x == a[0] || x in a[1..];
        assert x in b <==> x == b[0] || x in b[1..];
        if x == a[0] {
          assert x !in a[1..] && x !in b[1..];
        }
      }
      SortedUnique(less, a[1..], b[1..]);
      assert a == [a[0]] + a[1..] && b == [b[0]] + b[1..];
    }
  }

  lemma ConcatSorted<T(!new)>(less: (T, T) -> bool, a: seq<T>, b: seq<T>)
    requires StrictlySorted(less, a) && StrictlySorted(less, b)
    requires forall x, y :: x in a && y in b ==> less(x, y)
    ensures StrictlySorted(less, a + b)
  {
    forall i, j | 0 <= i < j < |a + b| ensures less((a + b)[i], (a + b)[j]) {
      if i < |a| <= j { assert a[i] in a && b[j - |a|] in b; }
    }
  }

  // ---------------------------------------------------------------- counting

  function Filter<T>(p: T -> bool, s: seq<T>): seq<T> {
    if s == [] then []
    else
      var rest := Filter(p, s[..|s| - 1]);
      if p(s[|s| - 1]) then rest + [s[|s| - 1]] else rest
  }

  lemma {:induction false} FilterMeans<T(!new)>(p: T -> bool, s: seq<T>)
    ensures forall x :: x in Filter(p, s) <==> x in s && p(x)
  {
    if s != [] {
      FilterMeans(p, s[..|s| - 1]);
      assert s == s[..|s| - 1] + [s[|s| - 1]];
    }
  }

  /** How many elements of s have p. */
  function CountIf<T>(p: T -> bool, s: seq<T>): (n: nat)
    ensures n <= |s|
  {
    if s == [] then 0
    else CountIf(p, s[..|s| - 1]) + (if p(s[|s| - 1]) then 1 else 0)
  }

  lemma {:induction false} FilterCounts<T>(p: T -> bool, s: seq<T>)
    ensures |Filter(p, s)| == CountIf(p, s)
  {
    if s != [] { FilterCounts(p, s[..|s| - 1]); }
  }

  lemma {:induction false} CountIfAppend<T>(p: T -> bool, a: seq<T>, b: seq<T>)
    ensures CountIf(p, a + b) == CountIf(p, a) + CountIf(p, b)
  {
    if b == [] {
      assert a + b == a;
    } else {
      CountIfAppend(p, a, b[..|b| - 1]);
      assert (a + b)[..|a + b| - 1] == a + b[..|b| - 1];
    }
  }

  lemma {:induction false} FilterSorted<T(!new)>(less: (T, T) -> bool, p: T -> bool, s: seq<T>)
    requires Sorted(less, s)
    ensures Sorted(less, Filter(p, s))
  {
    if s != [] {
      var init := s[..|s| - 1];
      FilterSorted(less, p, init);
      FilterMeans(p, init);
      var f, kept := Filter(p, s), Filter(p, init);
      forall i, j | 0 <= i < j < |f| ensures !less(f[j], f[i]) {
        assert f[i] == kept[i];
        assert f[i] in init;
        if j < |kept| { assert f[j] == kept[j]; }
      }
    }
  }

  lemma {:induction false} FilterKeepsOrder<T(!new)>(less: (T, T) -> bool, p: T -> bool, s: seq<T>)
    requires StrictlySorted(less, s)
    ensures StrictlySorted(less, Filter(p, s))
  {
    if s != [] {
      var init := s[..|s| - 1];
      FilterKeepsOrder(less, p, init);
      FilterMeans(p, init);
      var f, kept := Filter(p, s), Filter(p, init);
      forall i, j | 0 <= i < j < |f| ensures less(f[i], f[j]) {
        assert f[i] == kept[i];
        assert f[i] in init;
        if j < |kept| { assert f[j] == kept[j]; }
      }
    }
  }

  /** The places of s that satisfy p. */
  ghost function Places<T>(p: T -> bool, s: seq<T>): set<int> {
    set i | 0 <= i < |s| && p(s[i])
  }

  lemma {:induction false} CountPlaces<T>(p: T -> bool, s: seq<T>)
    ensures CountIf(p, s) == |Places(p, s)|
  {
    if s != [] {
      var n := |s| - 1;
      CountPlaces(p, s[..n]);
      assert Places(p, s) == if p(s[n]) then Places(p, s[..n]) + {n} else Places(p, s[..n]);
    }
  }

  lemma {:induction false} FilterNoDup<T(!new)>(p: T -> bool, s: seq<T>)
    requires NoDup(s)
    ensures NoDup(Filter(p, s))
  {
    if s != [] {
      var init := s[..|s| - 1];
      FilterNoDup(p, init);
      FilterMeans(p, init);
      forall y | y in Filter(p, init) ensures y != s[|s| - 1] {
        var i :| 0 <= i < |init| && init[i] == y;
        assert s[i] == y;
      }
    }
  }

  lemma StrictNoDup<T(!new)>(less: (T, T) -> bool, s: seq<T>)
    requires Irreflexive(less) && StrictlySorted(less, s)
    ensures NoDup(s)
  {
    forall i, j | 0 <= i < j < |s| ensures s[i] != s[j] {
      assert less(s[i], s[j]);
    }
  }

  /** Two duplicate-free listings of one set are equally long. */
  lemma {:induction false} SameElementsSameLength<T(!new)>(a: seq<T>, b: seq<T>)
    requires NoDup(a) && NoDup(b) && SameElements(a, b)
    ensures |a| == |b| && multiset(a) == multiset(b)
  {
    NoDupMultiset(a);
    NoDupMultiset(b);
    forall x ensures multiset(a)[x] == multiset(b)[x] {
      assert x in a <==> x in multiset(a);
      assert x in b <==> x in multiset(b);
    }
    assert multiset(a) == multiset(b);
    assert |multiset(a)| == |a| && |multiset(b)| == |b|;
  }

  /** ... and agree on how many of their elements have any property. */
  lemma SameElementsSameCount<T(!new)>(p: T -> bool, a: seq<T>, b: seq<T>)
    requires NoDup(a) && NoDup(b) && SameElements(a, b)
    ensures |a| == |b| && CountIf(p, a) == CountIf(p, b)
  {
    FilterCounts(p, a);
    FilterCounts(p, b);
    FilterNoDup(p, a);
    FilterNoDup(p, b);
    FilterMeans(p, a);
    FilterMeans(p, b);
    SameElementsSameLength(a, b);
    SameElementsSameLength(Filter(p, a), Filter(p, b));
  }

  // ---------------------------------------------------------------- adding up

  function Sum<T>(f: T -> nat, s: seq<T>): nat {
    if s == [] then 0 else Sum(f, s[..|s| - 1]) + f(s[|s| - 1])
  }

  lemma SumOne<T>(f: T -> nat, s: seq<T>, x: T)
    ensures Sum(f, s + [x]) == Sum(f, s) + f(x)
  {
    assert (s + [x])[..|s + [x]| - 1] == s;
  }

  lemma {:induction false} SumAppend<T>(f: T -> nat, a: seq<T>, b: seq<T>)
    ensures Sum(f, a + b) == Sum(f, a) + Sum(f, b)
  {
    if b == [] {
      assert a + b == a;
    } else {
      SumAppend(f, a, b[..|b| - 1]);
      assert (a + b)[..|a + b| - 1] == a + b[..|b| - 1];
    }
  }

  /** Functions that agree on s have the same sum over it. */
  lemma {:induction false} SumSame<T>(f: T -> nat, g: T -> nat, s: seq<T>)
    requires forall i :: 0 <= i < |s| ==> f(s[i]) == g(s[i])
    ensures Sum(f, s) == Sum(g, s)
  {
    if s != [] { SumSame(f, g, s[..|s| - 1]); }
  }

  lemma {:induction false} SumZero<T>(f: T -> nat, s: seq<T>)
    requires forall i :: 0 <= i < |s| ==> f(s[i]) == 0
    ensures Sum(f, s) == 0
  {
    if s != [] { SumZero(f, s[..|s| - 1]); }
  }

  function Without<T>(s: seq<T>, i: nat): seq<T>
    requires i < |s|
  {
    s[..i] + s[i + 1..]
  }

  lemma WithoutOne<T>(f: T -> nat, s: seq<T>, i: nat)
    requires i < |s|
    ensures multiset(Without(s, i)) == multiset(s) - multiset{s[i]}
    ensures Sum(f, s) == Sum(f, Without(s, i)) + f(s[i])
  {
    hide Sum;
    assert s == s[..i] + [s[i]] + s[i + 1..];
    SumAppend(f, s[..i] + [s[i]], s[i + 1..]);
    SumOne(f, s[..i], s[i]);
    SumAppend(f, s[..i], s[i + 1..]);
  }

  /** The order of the summands does not matter. */
  lemma {:induction false} SumPermutes<T>(f: T -> nat, a: seq<T>, b: seq<T>)
    requires multiset(a) == multiset(b)
    ensures Sum(f, a) == Sum(f, b)
    decreases |a|
  {
    if a == [] {
      assert |b| == |multiset(b)| == 0;
    } else {
      hide Sum, Without;
      var n := |a| - 1;
      assert a[n] in multiset(b);
      var i :| 0 <= i < |b| && b[i] == a[n];
      WithoutOne(f, a, n);
      WithoutOne(f, b, i);
      assert |Without(a, n)| == n by { assert Without(a, n) == a[..n] by { WithoutLast(a); } }
      SumPermutes(f, Without(a, n), Without(b, i));
    }
  }

  lemma WithoutLast<T>(s: seq<T>)
    requires s != []
    ensures Without(s, |s| - 1) == s[..|s| - 1]
  {}

  lemma {:induction false} SumIsCount<T>(f: T -> nat, p: T -> bool, s: seq<T>)
    requires forall i :: 0 <= i < |s| ==> f(s[i]) == if p(s[i]) then 1 else 0
    ensures Sum(f, s) == CountIf(p, s)
  {
    if s != [] { SumIsCount(f, p, s[..|s| - 1]); }
  }

  // ---------------------------------------------------------------- concatenation of parts

  function FlatMap<T, U>(f: T -> seq<U>, s: seq<T>): seq<U> {
    if s == [] then [] else FlatMap(f, s[..|s| - 1]) + f(s[|s| - 1])
  }

  lemma FlatMapOne<T, U>(f: T -> seq<U>, s: seq<T>, x: T)
    ensures FlatMap(f, s + [x]) == FlatMap(f, s) + f(x)
  {
    assert (s + [x])[..|s + [x]| - 1] == s;
  }

  lemma {:induction false} FlatMapAppend<T, U>(f: T -> seq<U>, a: seq<T>, b: seq<T>)
    ensures FlatMap(f, a + b) == FlatMap(f, a) + FlatMap(f, b)
  {
    if b == [] {
      assert a + b == a;
    } else {
      FlatMapAppend(f, a, b[..|b| - 1]);
      assert (a + b)[..|a + b| - 1] == a + b[..|b| - 1];
    }
  }

  lemma {:induction false} FlatMapMeans<T(!new), U(!new)>(f: T -> seq<U>, s: seq<T>, u: U)
    ensures u in FlatMap(f, s) <==> exists x :: x in s && u in f(x)
  {
    if s != [] {
      var init, last := s[..|s| - 1], s[|s| - 1];
      FlatMapMeans(f, init, u);
      assert s == init + [last];
    }
  }

  /** Parts without duplicates and without common elements concatenate to a sequence without duplicates. */
  lemma {:induction false} FlatMapNoDup<T(!new), U(!new)>(f: T -> seq<U>, s: seq<T>)
    requires NoDup(s)
    requires forall x :: x in s ==> NoDup(f(x))
    requires forall x, y, u :: x in s && y in s && u in f(x) && u in f(y) ==> x == y
    ensures NoDup(FlatMap(f, s))
  {
    if s != [] {
      var init, last := s[..|s| - 1], s[|s| - 1];
      assert s == init + [last] && last !in init;
      FlatMapNoDup(f, init);
      forall u | u in FlatMap(f, init) ensures u !in f(last) {
        FlatMapMeans(f, init, u);
      }
      NoDupConcat(FlatMap(f, init), f(last));
    }
  }

  // ---------------------------------------------------------------- names in order

  lemma StringAlmost(a: string, b: string, c: string)
    ensures !StringLess(a, a)
    ensures StringLess(a, b) && StringLess(b, c) ==> StringLess(a, c)
    ensures StringLess(a, b) ==> !StringLess(b, a)
    ensures StringLess(a, c) ==> StringLess(a, b) || StringLess(b, c)
  {
    StringIrreflexive(a);
    if StringLess(a, b) && StringLess(b, c) { StringTransitive(a, b, c); }
    if StringLess(a, b) && StringLess(b, a) { StringTransitive(a, b, a); }
    StringTotal(a, b);
    if StringLess(a, c) && StringLess(b, a) { StringTransitive(b, a, c); }
  }

  lemma StringLessWeak()
    ensures WeakOrder(StringLess)
  {
    forall x ensures !StringLess(x, x) { StringIrreflexive(x); }
    forall x, y, z | StringLess(x, y) && StringLess(y, z) ensures StringLess(x, z) { StringTransitive(x, y, z); }
    forall x, y, z | StringLess(x, z) ensures StringLess(x, y) || StringLess(y, z) { StringAlmost(x, y, z); }
  }

  lemma StringNoTies(s: seq<string>)
    ensures NoTies(StringLess, s)
  {
    forall x, y | x in s && y in s && x != y ensures StringLess(x, y) || StringLess(y, x) { StringTotal(x, y); }
  }

  lemma {:induction false} FirstNameExists(s: set<string>)
    requires s != {}
    ensures exists x :: IsFirstName(s, x)
    ensures forall x, y :: IsFirstName(s, x) && IsFirstName(s, y) ==> x == y
    decreases |s|
  {
    var x :| x in s;
    if s == {x} {
      assert IsFirstName(s, x);
    } else {
      FirstNameExists(s - {x});
      var y :| IsFirstName(s - {x}, y);
      StringTotal(x, y);
      if StringLess(x, y) {
        forall z | z in s && z != x && z != y ensures StringLess(x, z) { StringTransitive(x, y, z); }
        assert IsFirstName(s, x);
      } else {
        assert IsFirstName(s, y);
      }
    }
    forall x, y | IsFirstName(s, x) && IsFirstName(s, y) ensures x == y {
      if x != y {
        StringTransitive(x, y, x);
        StringIrreflexive(x);
        assert false;
      }
    }
  }

  predicate IsFirstName(s: set<string>, x: string) {
    x in s && forall y :: y in s && y != x ==> StringLess(x, y)
  }

  function FromFirst(s: set<string>): seq<string>
    decreases |s|
  {
    if s == {} then []
    else
      FirstNameExists(s);
      var x :| IsFirstName(s, x);
      [x] + FromFirst(s - {x})
  }

  lemma {:induction false} FromFirstSorts(s: set<string>)
    ensures StrictlySorted(StringLess, FromFirst(s))
    ensures forall x :: x in FromFirst(s) <==> x in s
    decreases |s|
  {
    if s != {} {
      FirstNameExists(s);
      var x :| IsFirstName(s, x);
      FromFirstSorts(s - {x});
      var rest := FromFirst(s - {x});
      assert FromFirst(s) == [x] + rest;
      forall j | 0 <= j < |rest| ensures StringLess(x, rest[j]) { assert rest[j] in rest; }
    }
  }

  /** The names in keys, sorted. */
  function SortedNames(keys: set<string>): (s: seq<string>)
    ensures StrictlySorted(StringLess, s) && forall x :: x in s <==> x in keys
  {
    FromFirstSorts(keys);
    FromFirst(keys)
  }

  /** The place of x in s, one past the end when it has none. */
  function IndexIn(s: seq<string>, x: string): (i: nat)
    ensures i <= |s| && (x in s <==> i < |s|) && (i < |s| ==> s[i] == x)
  {
    if s == [] then 0 else if s[0] == x then 0 else 1 + IndexIn(s[1..], x)
  }

  // ---------------------------------------------------------------- sizes and parts

  lemma {:induction false} CountIfNone<T>(p: T -> bool, s: seq<T>)
    requires forall i :: 0 <= i < |s| ==> !p(s[i])
    ensures CountIf(p, s) == 0
  {
    if s != [] { CountIfNone(p, s[..|s| - 1]); }
  }

  lemma {:induction false} CountIfSame<T>(p: T -> bool, q: T -> bool, s: seq<T>)
    requires forall i :: 0 <= i < |s| ==> p(s[i]) == q(s[i])
    ensures CountIf(p, s) == CountIf(q, s)
  {
    if s != [] { CountIfSame(p, q, s[..|s| - 1]); }
  }

  lemma FlatMapUpTo<T, U>(f: T -> seq<U>, s: seq<T>, i: nat)
    requires i < |s|
    ensures FlatMap(f, s[..i + 1]) == FlatMap(f, s[..i]) + f(s[i])
  {
    assert s[..i + 1] == s[..i] + [s[i]];
    FlatMapOne(f, s[..i], s[i]);
  }

  lemma {:induction false} SetOfNoDup<T>(s: seq<T>)
    requires NoDup(s)
    ensures |set x | x in s| == |s|
  {
    if s != [] {
      var init, last := s[..|s| - 1], s[|s| - 1];
      SetOfNoDup(init);
      assert s == init + [last] && last !in init;
      assert (set x | x in s) == (set x | x in init) + {last};
    }
  }
}
