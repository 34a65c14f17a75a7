/** Walks along a successor relation, and what it means for one place to be reached from another. */
module Walks {
  import opened Ordering

  type Succ = string -> seq<string>

  ghost predicate IsWalk(next: Succ, w: seq<string>) {
    w != [] && forall i :: 0 <= i < |w| - 1 ==> w[i + 1] in next(w[i])
  }

  ghost predicate WalkFromTo(next: Succ, w: seq<string>, a: string, b: string) {
    IsWalk(next, w) && w[0] == a && w[|w| - 1] == b
  }

  ghost predicate Reaches(next: Succ, a: string, b: string) {
    exists w :: WalkFromTo(next, w, a, b)
  }

  /** Every step goes down. */
  ghost predicate Descends(next: Succ, rank: string -> nat) {
    forall x, y :: y in next(x) ==> rank(y) < rank(x)
  }

  /** s holds whatever a step from s leads to. */
  ghost predicate ClosedUnder(next: Succ, s: set<string>) {
    forall x, y :: x in s && y in next(x) ==> y in s
  }

  lemma WalkOn(next: Succ, w: seq<string>, a: string, b: string, c: string)
    requires WalkFromTo(next, w, a, b) && c in next(b)
    ensures WalkFromTo(next, w + [c], a, c)
  {
    var v := w + [c];
    forall i | 0 <= i < |v| - 1 ensures v[i + 1] in next(v[i]) {
      if i < |w| - 1 { assert w[i + 1] in next(w[i]); }
    }
  }

  lemma ReachesSelf(next: Succ, a: string)
    ensures Reaches(next, a, a)
  {
    assert WalkFromTo(next, [a], a, a);
  }

  lemma ReachesOn(next: Succ, a: string, b: string, c: string)
    requires Reaches(next, a, b) && c in next(b)
    ensures Reaches(next, a, c)
  {
    var w :| WalkFromTo(next, w, a, b);
    WalkOn(next, w, a, b, c);
  }

  /** A closed set that holds the start of a walk holds all of it. */
  lemma {:induction false} StaysInside(next: Succ, s: set<string>, w: seq<string>, i: nat)
    requires IsWalk(next, w) && ClosedUnder(next, s) && w[0] in s && i < |w|
    ensures w[i] in s
  {
    if i > 0 {
      StaysInside(next, s, w, i - 1);
      assert w[i - 1 + 1] in next(w[i - 1]);
    }
  }

  lemma ReachedInside(next: Succ, s: set<string>, a: string)
    requires ClosedUnder(next, s) && a in s
    ensures forall b :: Reaches(next, a, b) ==> b in s
  {
    forall b | Reaches(next, a, b) ensures b in s {
      var w :| WalkFromTo(next, w, a, b);
      StaysInside(next, s, w, |w| - 1);
    }
  }

  lemma {:induction false} WalkDescends(next: Succ, rank: string -> nat, w: seq<string>, i: nat, j: nat)
    requires IsWalk(next, w) && Descends(next, rank) && i < j < |w|
    ensures rank(w[j]) < rank(w[i])
    decreases j - i
  {
    assert w[j - 1 + 1] in next(w[j - 1]);
    if i < j - 1 { WalkDescends(next, rank, w, i, j - 1); }
  }

  /** A descending walk visits no place twice, so it has no more places than there are to visit. */
  lemma {:induction false} DescendingFits(next: Succ, rank: string -> nat, w: seq<string>, places: set<string>)
    requires IsWalk(next, w) && Descends(next, rank) && forall x :: x in w ==> x in places
    ensures |w| <= |places|
  {
    forall i, j | 0 <= i < j < |w| ensures w[i] != w[j] { WalkDescends(next, rank, w, i, j); }
    var s := set x | x in w;
    SetOfNoDup(w);
    Subsize(s, places);
  }

  lemma {:induction false} Subsize(a: set<string>, b: set<string>)
    requires a <= b
    ensures |a| <= |b|
  {
    if a != {} {
      var x :| x in a;
      Subsize(a - {x}, b - {x});
    }
  }

  // ---------------------------------------------------------------- breadth-first order

  /** found with the names of ts it did not hold, in the order they come. */
  function Discover(found: seq<string>, ts: seq<string>): seq<string>
    decreases |ts|
  {
    if ts == [] then found
    else Discover(if ts[0] in found then found else found + [ts[0]], ts[1..])
  }

  /** What has been found once the first i names found have been looked at. */
  ghost function FoundAfter(next: Succ, entry: string, i: nat): seq<string> {
    if i == 0 then [entry]
    else
      var before := FoundAfter(next, entry, i - 1);
      if i - 1 < |before| then Discover(before, next(before[i - 1])) else before
  }

  /** found is the breadth-first order from entry: looking at all of it finds no more. */
  ghost predicate BreadthFirst(next: Succ, entry: string, found: seq<string>) {
    found == FoundAfter(next, entry, |found|)
  }

  lemma {:induction false} DiscoverKeeps(found: seq<string>, ts: seq<string>)
    ensures found <= Discover(found, ts)
    ensures forall x :: x in Discover(found, ts) <==> x in found || x in ts
    ensures NoDup(found) ==> NoDup(Discover(found, ts))
    decreases |ts|
  {
    if ts != [] {
      DiscoverKeeps(if ts[0] in found then found else found + [ts[0]], ts[1..]);
      assert ts == [ts[0]] + ts[1..];
    }
  }

  lemma {:induction false} DiscoverAppend(found: seq<string>, a: seq<string>, b: seq<string>)
    ensures Discover(found, a + b) == Discover(Discover(found, a), b)
    decreases |a|
  {
    if a == [] {
      assert a + b == b;
    } else {
      DiscoverAppend(if a[0] in found then found else found + [a[0]], a[1..], b);
      assert (a + b)[1..] == a[1..] + b && (a + b)[0] == a[0];
    }
  }

  lemma DiscoverOne(found: seq<string>, t: string)
    ensures Discover(found, [t]) == if t in found then found else found + [t]
  {
    assert [t][1..] == [];
  }

  /** Names already found may be left out beforehand. */
  lemma {:induction false} DiscoverRest(found: seq<string>, p: string -> bool, ts: seq<string>)
    requires forall t :: !p(t) ==> t in found
    ensures Discover(found, Filter(p, ts)) == Discover(found, ts)
  {
    if ts != [] {
      var init, last := ts[..|ts| - 1], ts[|ts| - 1];
      assert ts == init + [last];
      DiscoverRest(found, p, init);
      DiscoverAppend(found, init, [last]);
      DiscoverAppend(found, Filter(p, init), [last]);
      DiscoverOne(Discover(found, init), last);
      DiscoverKeeps(found, init);
    }
  }

  lemma {:induction false} FoundGrows(next: Succ, entry: string, i: nat, j: nat)
    requires i <= j
    ensures FoundAfter(next, entry, i) <= FoundAfter(next, entry, j)
    ensures |FoundAfter(next, entry, i)| <= i ==> FoundAfter(next, entry, j) == FoundAfter(next, entry, i)
    decreases j - i
  {
    if i < j {
      FoundGrows(next, entry, i, j - 1);
      var before := FoundAfter(next, entry, j - 1);
      if j - 1 < |before| { DiscoverKeeps(before, next(before[j - 1])); }
    }
  }

  /** There is one breadth-first order. */
  lemma {:induction false} OneBreadthFirst(next: Succ, entry: string, a: seq<string>, b: seq<string>)
    requires BreadthFirst(next, entry, a) && BreadthFirst(next, entry, b)
    ensures a == b
  {
    if |a| <= |b| { FoundGrows(next, entry, |a|, |b|); } else { FoundGrows(next, entry, |b|, |a|); }
  }

  lemma {:induction false} FoundOnce(next: Succ, entry: string, i: nat)
    ensures NoDup(FoundAfter(next, entry, i)) && |FoundAfter(next, entry, i)| >= 1 && FoundAfter(next, entry, i)[0] == entry
  {
    if i > 0 {
      FoundOnce(next, entry, i - 1);
      var before := FoundAfter(next, entry, i - 1);
      if i - 1 < |before| { DiscoverKeeps(before, next(before[i - 1])); }
    }
  }
}
