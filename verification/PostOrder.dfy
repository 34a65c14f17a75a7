/** Depth-first post-order with a busy set, as the graph walks keep it. */
module PostOrder {
  import opened Ordering

  /** Every successor of a listed node is listed before it. */
  ghost predicate Topological<N(!new)>(succ: N -> seq<N>, order: seq<N>) {
    forall i, m :: 0 <= i < |order| && m in succ(order[i]) ==> m in order[..i]
  }

  class Walker<N(==,!new)> {
    const succ: N -> seq<N>
    ghost const universe: set<N>
    ghost const acyclic: bool
    ghost const height: N -> nat
    var seen: set<N>
    var busy: set<N>
    var order: seq<N>
    var cyclic: bool

    constructor (succ: N -> seq<N>, ghost universe: set<N>, ghost acyclic: bool, ghost height: N -> nat)
      requires forall n, m :: n in universe && m in succ(n) ==> m in universe
      requires acyclic ==> forall n, m :: n in universe && m in succ(n) ==> height(m) < height(n)
      ensures Valid() && this.succ == succ && this.universe == universe && this.acyclic == acyclic && this.height == height
      ensures order == [] && busy == {} && seen == {} && !cyclic
    {
      this.succ, this.universe, this.acyclic, this.height := succ, universe, acyclic, height;
      seen, busy, order, cyclic := {}, {}, [], false;
    }

    ghost predicate Valid()
      reads this
    {
      && (forall n, m :: n in universe && m in succ(n) ==> m in universe)
      && (acyclic ==> forall n, m :: n in universe && m in succ(n) ==> height(m) < height(n))
      && busy <= seen <= universe
      && NoDup(order)
      && (forall n :: n in order ==> n in seen && n !in busy)
      && (!cyclic ==> Topological(succ, order) && forall n :: n in seen ==> n in busy || n in order)
      && (acyclic ==> !cyclic)
    }

    /** Lists n after everything it leads to; meeting a busy node is a cycle. */
    method Visit(n: N)
      requires Valid() && n in universe
      requires acyclic ==> forall b :: b in busy ==> height(n) < height(b)
      modifies this`seen, this`busy, this`order, this`cyclic
      ensures Valid() && busy == old(busy) && old(seen) <= seen && old(order) <= order
      ensures old(cyclic) ==> cyclic
      ensures !cyclic ==> n in order
      ensures old(n !in seen) ==> order != [] && order[|order| - 1] == n
      decreases universe - seen
    {
      if n in busy {
        cyclic := true;
        return;
      }
      if n in seen { return; }
      seen, busy := seen + {n}, busy + {n};
      var next := succ(n);
      for i := 0 to |next|
        invariant Valid() && busy == old(busy) + {n} && old(seen) + {n} <= seen && old(order) <= order
        invariant old(cyclic) ==> cyclic
        invariant !cyclic ==> forall j :: 0 <= j < i ==> next[j] in order
      {
        Visit(next[i]);
      }
      busy := busy - {n};
      ghost var before := order;
      order := order + [n];
      assert NoDup(order);
      if !cyclic {
        forall i, m | 0 <= i < |order| && m in succ(order[i]) ensures m in order[..i] {
          if i < |before| {
            assert m in before[..i];
            assert order[..i] == before[..i];
          } else {
            assert order[..i] == before;
          }
        }
      }
    }
  }
}
