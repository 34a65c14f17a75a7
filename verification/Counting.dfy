/** Counting the live chains without listing them: memoised suffix counts, prefix counts in topological order. */
module Counting {
  import opened Ordering
  import opened FailureGraph
  import opened Chains
  import opened Enumeration
  import opened LiveChains
  import PostOrder

  // ---------------------------------------------------------------- suffixes

  /** The sum of count over the live targets of es. */
  ghost function Along(count: Node -> nat, live: Liveness, n: Node, es: seq<Edge>): nat {
    if es == [] then 0
    else Along(count, live, n, es[..|es| - 1]) + (if LiveEdge(live, n, es[|es| - 1].to) then count(es[|es| - 1].to) else 0)
  }

  lemma AlongOne(count: Node -> nat, live: Liveness, n: Node, es: seq<Edge>, i: nat)
    requires i < |es|
    ensures Along(count, live, n, es[..i + 1]) ==
            Along(count, live, n, es[..i]) + (if LiveEdge(live, n, es[i].to) then count(es[i].to) else 0)
  {
    assert es[..i + 1][..i] == es[..i];
  }

  ghost function TailCount(g: Graph, live: Liveness, r: Node): Node -> nat {
    n => |Tails(g, live, r, n)|
  }

  lemma {:induction false} FlatMapLength(f: Node -> seq<Path>, count: Node -> nat, live: Liveness, n: Node, es: seq<Edge>)
    requires forall e :: e in es && LiveEdge(live, n, e.to) ==> |f(e.to)| == count(e.to)
    ensures |FlatMap(f, LiveTargets(live, n, es))| == Along(count, live, n, es)
  {
    if es != [] {
      var init, last := es[..|es| - 1], es[|es| - 1];
      assert last in es && forall e :: e in init ==> e in es;
      FlatMapLength(f, count, live, n, init);
      if LiveEdge(live, n, last.to) {
        FlatMapOne(f, LiveTargets(live, n, init), last.to);
      } else {
        assert LiveTargets(live, n, es) == LiveTargets(live, n, init);
      }
    }
  }

  /** The number of tails solves the recurrence. */
  lemma TailCountSolves(g: Graph, live: Liveness, r: Node, n: Node)
    requires WellFormed(g) && TameFrom(g, live, r) && LiveReach(g, live, r, n)
    ensures TailCount(g, live, r)(n) ==
            (if Observing(g, n) then 1 else 0) + Along(TailCount(g, live, r), live, n, Edges(g, r.comp, n))
    ensures |FlatMap(TailsVia(g, live, r, n), LiveNext(g, live, r.comp, n))| ==
            Along(TailCount(g, live, r), live, n, Edges(g, r.comp, n))
  {
    hide WellFormed, TameFrom, LiveReach, RankFrom, Along, FlatMap, TailsVia, Edges;
    var es := Edges(g, r.comp, n);
    forall e | e in es && LiveEdge(live, n, e.to) ensures |TailsVia(g, live, r, n)(e.to)| == TailCount(g, live, r)(e.to) {
      TargetIsNext(g, live, r.comp, n, e);
      ReachOn(g, live, r, n, e.to);
      ViaOne(g, live, r, n, e.to);
    }
    FlatMapLength(TailsVia(g, live, r, n), TailCount(g, live, r), live, n, es);
  }

  lemma TargetIsNext(g: Graph, live: Liveness, root: string, n: Node, e: Edge)
    requires WellFormed(g) && e in Edges(g, root, n) && LiveEdge(live, n, e.to)
    ensures e.to in LiveNext(g, live, root, n)
  {
    EdgesListed(g, root, n);
    LiveNextMeans(g, live, root, n);
  }

  lemma NextIsTarget(g: Graph, live: Liveness, root: string, n: Node, m: Node)
    requires WellFormed(g) && m in LiveNext(g, live, root, n)
    ensures exists j :: 0 <= j < |Edges(g, root, n)| && Edges(g, root, n)[j].to == m && LiveEdge(live, n, m)
  {
    EdgesListed(g, root, n);
    LiveTargetsMean(live, n, Edges(g, root, n));
    var e :| e in Edges(g, root, n) && e.to == m;
    var j :| 0 <= j < |Edges(g, root, n)| && Edges(g, root, n)[j] == e;
  }

  type Memo = map<Node, nat>

  /** Something observed follows from n, or is seen there. */
  ghost predicate HasTail(g: Graph, live: Liveness, root: string, n: Node) {
    exists w :: IsTail(g, live, root, n, w)
  }

  /** What a memo says of ways on, whether or not there is a cycle: a positive count has a way on; a zero is not
      observed, and what follows from it is in the memo too, or still being counted. */
  ghost predicate Sound(g: Graph, live: Liveness, root: string, suf: Memo, busy: set<Node>) {
    && (forall k :: k in suf && suf[k] > 0 ==> HasTail(g, live, root, k))
    && (forall k :: k in suf && suf[k] == 0 ==> !Observing(g, k))
    && (forall k, m :: k in suf && m in LiveNext(g, live, root, k) ==> m in suf || m in busy)
  }

  /** The nodes of the memo in the order they were done, each after all it leads to. */
  ghost predicate DoneInOrder(g: Graph, live: Liveness, root: string, suf: Memo, done: seq<Node>) {
    && NoDup(done) && PostOrder.Topological(LiveNextOf(g, live, root), done)
    && forall k :: k in suf <==> k in done
  }

  /** after holds what before does, and what is new in it is zero. */
  ghost predicate OnlyZeros(before: Memo, after: Memo) {
    forall k :: k in after && k !in before ==> after[k] == 0
  }

  ghost predicate Keeps(before: Memo, after: Memo) {
    forall k :: k in before ==> k in after && after[k] == before[k]
  }

  /** One root's dynamic program: its memo, the nodes on the way to the one being counted, and in what order they
      were done. Where no live way from the root comes back to a node it computes the number of live ways on. */
  class Dp {
    const g: Graph
    const live: Liveness
    const r: Node
    ghost const tame: bool
    var suf: Memo
    var busy: set<Node>
    var err: bool
    ghost var done: seq<Node>

    constructor (g: Graph, live: Liveness, r: Node)
      ensures this.g == g && this.live == live && this.r == r && this.tame == TameFrom(g, live, r)
      ensures busy == {} && suf == map[] && !err && Valid()
    {
      this.g, this.live, this.r := g, live, r;
      this.tame := TameFrom(g, live, r);
      suf, busy, err, done := map[], {}, false, [];
    }

    ghost predicate Valid()
      reads this
    {
      && tame == TameFrom(g, live, r)
      && (tame ==> !err && forall k :: k in suf ==> suf[k] == TailCount(g, live, r)(k))
      && (forall k :: k in suf || k in busy ==> LiveReach(g, live, r, k))
      && (forall k :: k in busy ==> k !in suf)
      && Sound(g, live, r.comp, suf, busy)
      && (!err ==> DoneInOrder(g, live, r.comp, suf, done))
    }

    /** n lies below all that is being counted. */
    ghost predicate Below(n: Node)
      reads this
    {
      tame ==> forall b :: b in busy ==> RankFrom(g, live, r)(n) < RankFrom(g, live, r)(b)
    }

    method Suffixes(n: Node) returns (c: nat)
      requires WellFormed(g) && InGraph(g, r) && Valid() && LiveReach(g, live, r, n) && Below(n)
      modifies this`suf, this`busy, this`err, this`done
      ensures Valid() && busy == old(busy) && Keeps(old(suf), suf)
      ensures old(err) ==> err
      ensures n in suf || n in busy
      ensures !err ==> n in suf
      ensures tame ==> c == TailCount(g, live, r)(n)
      ensures c > 0 ==> HasTail(g, live, r.comp, n)
      ensures c == 0 ==> OnlyZeros(old(suf), suf)
      ensures c == 0 && n !in busy ==> suf[n] == 0
      decreases Nodes(g) - busy, 0
    {
      hide WellFormed, LiveReach, TameFrom, RankFrom, LiveNext, Sound, DoneInOrder, HasTail, TailCount, InGraph, Nodes, Along, Edges;
      if n in suf {
        InMemo(g, live, r.comp, suf, busy, n);
        return suf[n];
      }
      if n in busy {
        err := true;
        return 0;
      }
      ReachInGraph(g, live, r, n);
      BelowSelf(n);
      BusyMore(g, live, r.comp, suf, busy, n);
      busy := busy + {n};
      c := SumSuffixes(n);
      Counted(n, c);
      if Observes(g, n.comp) != [] { c := 1 + c; }
      ghost var before := suf;
      busy := busy - {n};
      suf := suf[n := c];
      done := done + [n];
      Finished(g, live, r.comp, before, busy, suf, n, c);
      if !err { FinishedInOrder(g, live, r.comp, before, suf, done[..|done| - 1], n); }
    }

    lemma BelowSelf(n: Node)
      requires Below(n)
      ensures tame ==> forall b :: b in busy + {n} ==> RankFrom(g, live, r)(n) <= RankFrom(g, live, r)(b)
    {}

    /** What has been summed up for n makes its count, and has a way on behind it when it is positive. */
    lemma Counted(n: Node, c: nat)
      requires WellFormed(g) && Valid() && LiveReach(g, live, r, n)
      requires tame ==> c == Along(TailCount(g, live, r), live, n, Edges(g, r.comp, n))
      requires c > 0 ==> exists m :: m in LiveNext(g, live, r.comp, n) && HasTail(g, live, r.comp, m)
      ensures tame ==> TailCount(g, live, r)(n) == c + if Observing(g, n) then 1 else 0
      ensures c > 0 || Observing(g, n) ==> HasTail(g, live, r.comp, n)
    {
      if tame { TailCountSolves(g, live, r, n); }
      if c > 0 {
        var m :| m in LiveNext(g, live, r.comp, n) && HasTail(g, live, r.comp, m);
        TailBefore(g, live, r.comp, n, m);
      }
      if Observing(g, n) { assert IsTail(g, live, r.comp, n, [n]); }
    }

    /** The live ways on along n's edges, n's own observations aside. */
    method SumSuffixes(n: Node) returns (total: nat)
      requires WellFormed(g) && InGraph(g, r) && Valid() && LiveReach(g, live, r, n)
      requires tame ==> forall b :: b in busy ==> RankFrom(g, live, r)(n) <= RankFrom(g, live, r)(b)
      modifies this`suf, this`busy, this`err, this`done
      ensures Valid() && busy == old(busy) && Keeps(old(suf), suf)
      ensures old(err) ==> err
      ensures forall m :: m in LiveNext(g, live, r.comp, n) ==> m in suf || m in busy
      ensures !err ==> forall m :: m in LiveNext(g, live, r.comp, n) ==> m in suf
      ensures tame ==> total == Along(TailCount(g, live, r), live, n, Edges(g, r.comp, n))
      ensures total > 0 ==> exists m :: m in LiveNext(g, live, r.comp, n) && HasTail(g, live, r.comp, m)
      ensures total == 0 ==> OnlyZeros(old(suf), suf)
      decreases Nodes(g) - busy, 1
    {
      hide WellFormed, LiveReach, TameFrom, RankFrom, LiveNext, Sound, DoneInOrder, HasTail, TailCount, InGraph, Nodes, Seen;
      total := 0;
      var es := Next(g, r.comp, n);
      ghost var tails := TailCount(g, live, r);
      NoneSeen(live, n, es);
      for i := 0 to |es|
        invariant Valid() && busy == old(busy) && Keeps(old(suf), suf)
        invariant old(err) ==> err
        invariant Seen(live, n, es[..i], suf.Keys + busy)
        invariant !err ==> Seen(live, n, es[..i], suf.Keys)
        invariant tame ==> total == Along(tails, live, n, es[..i])
        invariant total > 0 ==> exists m :: m in LiveNext(g, live, r.comp, n) && HasTail(g, live, r.comp, m)
        invariant total == 0 ==> OnlyZeros(old(suf), suf)
      {
        hide Along, Edges;
        AlongOne(tails, live, n, es, i);
        assert es[i] in es;
        ghost var before := suf;
        if LiveEdge(live, n, es[i].to) {
          TargetIsNext(g, live, r.comp, n, es[i]);
          ReachOn(g, live, r, n, es[i].to);
          var more := Suffixes(es[i].to);
          total := total + more;
        }
        SeenOneMore(live, n, es, i, before.Keys + busy, suf.Keys + busy);
        SeenOneMore(live, n, es, i, before.Keys, suf.Keys);
      }
      assert es[..|es|] == es;
      AllSeen(g, live, r.comp, n, suf.Keys + busy);
      AllSeen(g, live, r.comp, n, suf.Keys);
    }

    /** Whether something observed follows from r by an edge, all being live. */
    method AnyWayOn() returns (any: bool)
      requires WellFormed(g) && InGraph(g, r) && Valid() && busy == {} && suf == map[] && live == AllLive
      modifies this`suf, this`busy, this`err, this`done
      ensures any <==> exists m :: m in LiveNext(g, live, r.comp, r) && HasTail(g, live, r.comp, m)
    {
      hide WellFormed, LiveReach, TameFrom, RankFrom, LiveNext, Sound, DoneInOrder, HasTail, TailCount, InGraph;
      var es := Next(g, r.comp, r);
      ReachSelf(g, live, r);
      for i := 0 to |es|
        invariant Valid() && busy == {} && OnlyZeros(map[], suf)
        invariant forall j :: 0 <= j < i ==> es[j].to in suf
      {
        hide Edges;
        assert es[i] in es;
        TargetIsNext(g, live, r.comp, r, es[i]);
        ReachOn(g, live, r, r, es[i].to);
        var c := Suffixes(es[i].to);
        if c > 0 { return true; }
      }
      forall m | m in LiveNext(g, live, r.comp, r) ensures !HasTail(g, live, r.comp, m) {
        NextIsTarget(g, live, r.comp, r, m);
        ZerosHaveNone(g, live, r.comp, suf, m);
      }
      return false;
    }
  }

  /** The live targets of es are among ms. */
  ghost predicate Seen(live: Liveness, n: Node, es: seq<Edge>, ms: set<Node>) {
    forall j :: 0 <= j < |es| && LiveEdge(live, n, es[j].to) ==> es[j].to in ms
  }

  lemma NoneSeen(live: Liveness, n: Node, es: seq<Edge>)
    ensures forall ms :: Seen(live, n, es[..0], ms)
  {}

  lemma SeenOneMore(live: Liveness, n: Node, es: seq<Edge>, i: nat, ms: set<Node>, ms': set<Node>)
    requires i < |es| && ms <= ms'
    ensures Seen(live, n, es[..i], ms) && (LiveEdge(live, n, es[i].to) ==> es[i].to in ms') ==> Seen(live, n, es[..i + 1], ms')
  {
    if Seen(live, n, es[..i], ms) {
      forall j | 0 <= j < i && LiveEdge(live, n, es[j].to) ensures es[j].to in ms { assert es[..i][j] == es[j]; }
    }
  }

  lemma AllSeen(g: Graph, live: Liveness, root: string, n: Node, ms: set<Node>)
    requires WellFormed(g)
    ensures Seen(live, n, Edges(g, root, n), ms) ==> forall m :: m in LiveNext(g, live, root, n) ==> m in ms
  {
    forall m | m in LiveNext(g, live, root, n) ensures Seen(live, n, Edges(g, root, n), ms) ==> m in ms {
      NextIsTarget(g, live, root, n, m);
    }
  }

  lemma InMemo(g: Graph, live: Liveness, root: string, suf: Memo, busy: set<Node>, n: Node)
    requires Sound(g, live, root, suf, busy) && n in suf
    ensures suf[n] > 0 ==> HasTail(g, live, root, n)
  {}

  lemma BusyMore(g: Graph, live: Liveness, root: string, suf: Memo, busy: set<Node>, n: Node)
    requires Sound(g, live, root, suf, busy)
    ensures Sound(g, live, root, suf, busy + {n})
  {
    hide HasTail, LiveNext, Observing;
  }

  lemma TailBefore(g: Graph, live: Liveness, root: string, n: Node, m: Node)
    requires WellFormed(g) && m in LiveNext(g, live, root, n) && HasTail(g, live, root, m)
    ensures HasTail(g, live, root, n)
  {
    LiveNextMeans(g, live, root, n);
    var w :| IsTail(g, live, root, m, w);
    assert ([n] + w)[1..] == w;
    TailByFirstEdge(g, live, root, n, [n] + w);
  }

  /** n joins the memo: everything that follows from it is there or still being counted. */
  lemma Finished(g: Graph, live: Liveness, root: string, before: Memo, busy: set<Node>, suf: Memo, n: Node, c: nat)
    requires Sound(g, live, root, before, busy + {n}) && suf == before[n := c] && n !in before
    requires c > 0 ==> HasTail(g, live, root, n)
    requires c == 0 ==> !Observing(g, n)
    requires forall m :: m in LiveNext(g, live, root, n) ==> m in before || m in busy + {n}
    ensures Sound(g, live, root, suf, busy)
  {
    hide HasTail, LiveNext, Observing;
  }

  lemma FinishedInOrder(g: Graph, live: Liveness, root: string, before: Memo, suf: Memo, done: seq<Node>, n: Node)
    requires DoneInOrder(g, live, root, before, done) && n !in before && suf.Keys == before.Keys + {n}
    requires forall m :: m in LiveNext(g, live, root, n) ==> m in before
    ensures DoneInOrder(g, live, root, suf, done + [n])
  {
    hide LiveNext;
    var all, next := done + [n], LiveNextOf(g, live, root);
    forall i, m | 0 <= i < |all| && m in next(all[i]) ensures m in all[..i] {
      if i < |done| {
        assert m in done[..i] && all[..i] == done[..i];
      } else {
        assert all[..i] == done;
      }
    }
  }

  /** In a memo of zeros that nothing leads out of there is no way on. */
  lemma {:induction false} ZerosHaveNone(g: Graph, live: Liveness, root: string, suf: Memo, n: Node)
    requires WellFormed(g) && Sound(g, live, root, suf, {}) && OnlyZeros(map[], suf) && n in suf
    ensures !HasTail(g, live, root, n)
  {
    if w :| IsTail(g, live, root, n, w) { StaysAmongZeros(g, live, root, suf, w, |w| - 1); }
  }

  lemma {:induction false} StaysAmongZeros(g: Graph, live: Liveness, root: string, suf: Memo, w: Path, i: nat)
    requires WellFormed(g) && Sound(g, live, root, suf, {}) && OnlyZeros(map[], suf)
    requires IsPath(g, root, w) && LiveTail(live, w) && w[0] in suf && i < |w|
    ensures w[i] in suf && !Observing(g, w[i])
  {
    hide WellFormed, Observing, HasTail, IsEdge, LiveEdge, LiveNext;
    if i > 0 {
      StaysAmongZeros(g, live, root, suf, w, i - 1);
      assert IsEdge(g, root, w[i - 1], w[i - 1 + 1]) && LiveEdge(live, w[i - 1], w[i - 1 + 1]);
      LiveNextMeans(g, live, root, w[i - 1]);
    }
  }

  /** Whether r's only chain is r itself, on any graph: cut short by a cycle, a suffix count may be too low, but it is
      zero only when nothing follows. */
  method RootStandsAlone(g: Graph, r: Node) returns (alone: bool)
    requires WellFormed(g) && InGraph(g, r)
    ensures alone == StandsAlone(g, r)
  {
    if Observes(g, r.comp) == [] { return false; }
    var p := new Dp(g, AllLive, r);
    var any := p.AnyWayOn();
    WayOnMeansGoesOn(g, r);
    return !any;
  }

  lemma WayOnMeansGoesOn(g: Graph, r: Node)
    requires WellFormed(g)
    ensures GoesOn(g, r) <==> exists m :: m in LiveNext(g, AllLive, r.comp, r) && HasTail(g, AllLive, r.comp, m)
  {
    hide WellFormed, IsEdge, LiveNext, IsPath, Observing;
    LiveNextMeans(g, AllLive, r.comp, r);
    if GoesOn(g, r) {
      var w: Path :| IsPath(g, r.comp, w) && |w| >= 2 && w[0] == r && Observing(g, Last(w));
      PathTail(g, r.comp, w);
      AllTail(g, r.comp, w[1], w[1..]);
    }
    if m :| m in LiveNext(g, AllLive, r.comp, r) && HasTail(g, AllLive, r.comp, m) {
      var w :| IsTail(g, AllLive, r.comp, m, w);
      LedByRoot(g, r, m, w);
    }
  }

  lemma AllTail(g: Graph, root: string, m: Node, w: Path)
    requires w != [] && IsPath(g, root, w) && w[0] == m && Observing(g, Last(w))
    ensures HasTail(g, AllLive, root, m)
  {
    assert IsTail(g, AllLive, root, m, w);
  }

  lemma LedByRoot(g: Graph, r: Node, m: Node, w: Path)
    requires IsEdge(g, r.comp, r, m) && IsTail(g, AllLive, r.comp, m, w)
    ensures GoesOn(g, r)
  {
    PathCons(g, r.comp, r, w);
    assert |[r] + w| >= 2;
  }

  // ---------------------------------------------------------------- no cycle met means there is none

  /** A memo that was filled without meeting a cycle ranks everything r reaches. */
  lemma {:induction false} DoneRanks(g: Graph, live: Liveness, r: Node, suf: Memo, done: seq<Node>)
    requires WellFormed(g) && DoneInOrder(g, live, r.comp, suf, done)
    requires forall m :: m in LiveNext(g, live, r.comp, r) ==> m in suf
    ensures TameFrom(g, live, r)
  {
    var rank := (n: Node) => RankIn(done, n);
    forall a, b | LiveReach(g, live, r, a) && b in LiveNext(g, live, r.comp, a) ensures rank(b) < rank(a) {
      ReachedDone(g, live, r, suf, done, a);
      if a in done {
        RankIs(done, a);
        var i := RankIn(done, a);
        assert b in done[..i];
        var j :| 0 <= j < i && done[j] == b;
        RankIs(done, b);
        assert RankIn(done, b) == j;
      } else {
        assert b in done;
        RankIs(done, b);
      }
    }
    assert RanksFrom(g, live, r, rank);
  }

  /** Where n stands in done; past its end when it is not there. */
  ghost function RankIn(done: seq<Node>, n: Node): nat {
    if done == [] then 0
    else if done[0] == n then 0
    else 1 + RankIn(done[1..], n)
  }

  lemma {:induction false} RankIs(done: seq<Node>, n: Node)
    requires NoDup(done)
    ensures n in done ==> RankIn(done, n) < |done| && done[RankIn(done, n)] == n
    ensures n !in done ==> RankIn(done, n) == |done|
    ensures forall i :: 0 <= i < |done| && done[i] == n ==> RankIn(done, n) == i
  {
    if done != [] && done[0] != n {
      var rest := done[1..];
      forall i, j | 0 <= i < j < |rest| ensures rest[i] != rest[j] { assert done[i + 1] != done[j + 1]; }
      RankIs(rest, n);
      assert done == [done[0]] + rest;
      forall i | 0 <= i < |done| && done[i] == n ensures RankIn(done, n) == i { assert rest[i - 1] == n; }
    }
  }

  lemma {:induction false} ReachedDone(g: Graph, live: Liveness, r: Node, suf: Memo, done: seq<Node>, n: Node)
    requires WellFormed(g) && DoneInOrder(g, live, r.comp, suf, done) && LiveReach(g, live, r, n)
    requires forall m :: m in LiveNext(g, live, r.comp, r) ==> m in suf
    ensures n == r || n in done
    ensures n !in done ==> n == r && RankIn(done, n) == |done|
    ensures n !in done ==> forall m :: m in LiveNext(g, live, r.comp, n) ==> m in done
  {
    RankIs(done, n);
    var w :| IsWay(g, live, r, w) && Last(w) == n;
    AlongDone(g, live, r, suf, done, w);
  }

  lemma {:induction false} AlongDone(g: Graph, live: Liveness, r: Node, suf: Memo, done: seq<Node>, w: Path)
    requires WellFormed(g) && DoneInOrder(g, live, r.comp, suf, done) && IsWay(g, live, r, w)
    requires forall m :: m in LiveNext(g, live, r.comp, r) ==> m in suf
    ensures Last(w) == r || Last(w) in done
    decreases |w|
  {
    if |w| >= 2 {
      hide WellFormed, IsEdge, LiveEdge, LiveNext;
      WayBack(g, live, r, w);
      var v := w[..|w| - 1];
      AlongDone(g, live, r, suf, done, v);
      if Last(v) in done {
        var i :| 0 <= i < |done| && done[i] == Last(v);
        assert Last(w) in LiveNextOf(g, live, r.comp)(done[i]);
        assert Last(w) in done[..i];
      }
    }
  }

  // ---------------------------------------------------------------- prefixes

  function At(m: map<Node, nat>, k: Node): nat {
    if k in m then m[k] else 0
  }

  function Touched(m: map<string, nat>, c: string): nat {
    if c in m then m[c] else 0
  }

  /** amount more ways into each target. */
  function Spread(pre: map<Node, nat>, amount: nat, ts: seq<Node>): map<Node, nat> {
    if ts == [] then pre
    else
      var m, t := Spread(pre, amount, ts[..|ts| - 1]), ts[|ts| - 1];
      m[t := At(m, t) + amount]
  }

  /** The prefix counts once order[i..] has been passed on, last listed first. */
  function Propagated(order: seq<Node>, next: Node -> seq<Node>, i: nat, root: Node): map<Node, nat>
    requires i <= |order|
    decreases |order| - i
  {
    if i == |order| then map[root := 1]
    else
      var pre := Propagated(order, next, i + 1, root);
      Spread(pre, At(pre, order[i]), next(order[i]))
  }

  ghost function Weighted(s: seq<Node>, pre: map<Node, nat>, w: Node -> nat): nat {
    if s == [] then 0 else Weighted(s[..|s| - 1], pre, w) + At(pre, s[|s| - 1]) * w(s[|s| - 1])
  }

  lemma {:induction false} WeightedSplit(s: seq<Node>, i: nat, pre: map<Node, nat>, w: Node -> nat)
    requires i <= |s|
    ensures Weighted(s, pre, w) == Weighted(s[..i], pre, w) + Weighted(s[i..], pre, w)
  {
    if i == |s| {
      assert s[..i] == s && s[i..] == [];
    } else {
      WeightedSplit(s[..|s| - 1], i, pre, w);
      assert s[..|s| - 1][..i] == s[..i];
      assert s[i..][..|s[i..]| - 1] == s[..|s| - 1][i..];
    }
  }

  lemma {:induction false} WeightedAdd(s: seq<Node>, pre: map<Node, nat>, x: Node, d: nat, w: Node -> nat)
    requires NoDup(s)
    ensures Weighted(s, pre[x := At(pre, x) + d], w) == Weighted(s, pre, w) + (if x in s then d * w(x) else 0)
  {
    if s != [] {
      var init, last := s[..|s| - 1], s[|s| - 1];
      WeightedAdd(init, pre, x, d, w);
      assert s == init + [last] && last !in init;
      if x == last {
        assert (At(pre, x) + d) * w(x) == At(pre, x) * w(x) + d * w(x);
      }
    }
  }

  lemma Distribute(d: nat, a: nat, b: nat)
    ensures d * (a + b) == d * a + d * b
  {}

  lemma {:induction false} SpreadInside(s: seq<Node>, pre: map<Node, nat>, d: nat, ts: seq<Node>, w: Node -> nat)
    requires NoDup(s) && forall t :: t in ts ==> t in s
    ensures Weighted(s, Spread(pre, d, ts), w) == Weighted(s, pre, w) + d * Sum(w, ts)
  {
    if ts != [] {
      var init, t := ts[..|ts| - 1], ts[|ts| - 1];
      SpreadInside(s, pre, d, init, w);
      WeightedAdd(s, Spread(pre, d, init), t, d, w);
      assert t in ts;
      Distribute(d, Sum(w, init), w(t));
    }
  }

  lemma {:induction false} SpreadOutside(s: seq<Node>, pre: map<Node, nat>, d: nat, ts: seq<Node>, w: Node -> nat)
    requires NoDup(s) && forall t :: t in ts ==> t !in s
    ensures Weighted(s, Spread(pre, d, ts), w) == Weighted(s, pre, w)
  {
    if ts != [] {
      var init, t := ts[..|ts| - 1], ts[|ts| - 1];
      assert t in ts && forall u :: u in init ==> u in ts;
      SpreadOutside(s, pre, d, init, w);
      WeightedAdd(s, Spread(pre, d, init), t, d, w);
    }
  }

  // ---------------------------------------------------------------- steps at a component

  /** How often the live ways from n meet component c, all together. */
  ghost function MeetW(g: Graph, live: Liveness, r: Node, c: string): Node -> nat {
    n => Sum(Visits(c), Tails(g, live, r, n))
  }

  lemma {:induction false} PrependVisits(n: Node, ps: seq<Path>, c: string)
    ensures Sum(Visits(c), Prepend(n, ps)) == Sum(Visits(c), ps) + if n.comp == c then |ps| else 0
  {
    if ps != [] {
      hide Visits;
      var init, last := ps[..|ps| - 1], ps[|ps| - 1];
      PrependVisits(n, init, c);
      assert Prepend(n, ps)[..|ps| - 1] == Prepend(n, init);
      VisitsPrepend(n, last, c);
    }
  }

  /** Over the ways through ms: what they meet further on, and n itself once for each. */
  lemma {:induction false} ViaVisits(g: Graph, live: Liveness, r: Node, n: Node, c: string, ms: seq<Node>)
    requires forall m :: m in ms ==> RankFrom(g, live, r)(m) < RankFrom(g, live, r)(n)
    ensures var ps := FlatMap(TailsVia(g, live, r, n), ms);
            Sum(Visits(c), ps) == Sum(MeetW(g, live, r, c), ms) + if n.comp == c then |ps| else 0
  {
    if ms != [] {
      hide RankFrom, Visits, Tails, TailsVia, Prepend;
      var f, init, m := TailsVia(g, live, r, n), ms[..|ms| - 1], ms[|ms| - 1];
      assert m in ms && forall u :: u in init ==> u in ms;
      ViaVisits(g, live, r, n, c, init);
      ViaOne(g, live, r, n, m);
      SumAppend(Visits(c), FlatMap(f, init), f(m));
      PrependVisits(n, Tails(g, live, r, m), c);
      PrependLength(n, Tails(g, live, r, m));
    }
  }

  lemma PrependLength(n: Node, ps: seq<Path>)
    ensures |Prepend(n, ps)| == |ps|
  {}

  lemma VisitsHere(n: Node, c: string)
    ensures Sum(Visits(c), [[n]]) == if n.comp == c then 1 else 0
  {
    assert [[n]][..0] == [] && [n][..0] == [];
  }

  lemma NextBelow(g: Graph, live: Liveness, r: Node, n: Node)
    requires WellFormed(g) && TameFrom(g, live, r) && LiveReach(g, live, r, n)
    ensures forall m :: m in LiveNext(g, live, r.comp, n) ==>
              LiveReach(g, live, r, m) && RankFrom(g, live, r)(m) < RankFrom(g, live, r)(n)
  {
    forall m | m in LiveNext(g, live, r.comp, n)
      ensures LiveReach(g, live, r, m) && RankFrom(g, live, r)(m) < RankFrom(g, live, r)(n)
    {
      ReachOn(g, live, r, n, m);
    }
  }

  /** The ways from n meet c at n, each of them once when n is of c, and further on as those of its successors do. */
  lemma MeetBalance(g: Graph, live: Liveness, r: Node, c: string, n: Node)
    requires WellFormed(g) && TameFrom(g, live, r) && LiveReach(g, live, r, n)
    ensures MeetW(g, live, r, c)(n) ==
            (if n.comp == c then |Tails(g, live, r, n)| else 0) + Sum(MeetW(g, live, r, c), LiveNext(g, live, r.comp, n))
  {
    hide WellFormed, TameFrom, LiveReach, RankFrom, LiveNext, FlatMap, TailsVia, Sum, Visits, Observing;
    var ms := LiveNext(g, live, r.comp, n);
    var here, on := if Observing(g, n) then [[n]] else [], FlatMap(TailsVia(g, live, r, n), ms);
    NextBelow(g, live, r, n);
    ViaVisits(g, live, r, n, c, ms);
    SumAppend(Visits(c), here, on);
    VisitsHere(n, c);
    SumZero(Visits(c), []);
  }

  /** Conservation: while prefix counts are passed on in topological order, what has been tallied plus
      what is still to come is always what the root started with. */
  lemma {:induction false} Conserved(order: seq<Node>, next: Node -> seq<Node>, i: nat, root: Node,
                                     meet: Node -> nat, here: Node -> nat)
    requires NoDup(order) && PostOrder.Topological(next, order)
    requires order != [] && order[|order| - 1] == root && i <= |order|
    requires forall k :: k in order ==> meet(k) == here(k) + Sum(meet, next(k))
    ensures var pre := Propagated(order, next, i, root);
            Weighted(order[i..], pre, here) + Weighted(order[..i], pre, meet) == meet(root)
    decreases |order| - i
  {
    if i == |order| {
      OnlyRoot(order, root, meet);
      assert order[i..] == [] && order[..i] == order;
    } else {
      Conserved(order, next, i + 1, root, meet, here);
      assert forall t :: t in next(order[i]) ==> t in order[..i];
      PassOn(order, i, Propagated(order, next, i + 1, root), next(order[i]), meet, here);
    }
  }

  /** Passing k's count on moves k's weight to its targets and, where k is counted, to the tally. */
  lemma PassOn(order: seq<Node>, i: nat, pre: map<Node, nat>, ts: seq<Node>, meet: Node -> nat, here: Node -> nat)
    requires NoDup(order) && i < |order| && forall t :: t in ts ==> t in order[..i]
    requires meet(order[i]) == here(order[i]) + Sum(meet, ts)
    ensures var after := Spread(pre, At(pre, order[i]), ts);
            Weighted(order[i..], after, here) + Weighted(order[..i], after, meet) ==
            Weighted(order[i + 1..], pre, here) + Weighted(order[..i + 1], pre, meet)
  {
    var k := order[i];
    NoDupParts(order, i);
    SpreadInside(order[..i], pre, At(pre, k), ts, meet);
    SpreadOutside(order[i..], pre, At(pre, k), ts, here);
    WeightedSplit(order[i..], 1, pre, here);
    assert order[i..][..1] == [k] && order[i..][1..] == order[i + 1..];
    WeightedOne(k, pre, here);
    assert order[..i + 1][..i] == order[..i];
    Distribute(At(pre, k), here(k), Sum(meet, ts));
  }

  lemma WeightedOne(k: Node, pre: map<Node, nat>, w: Node -> nat)
    ensures Weighted([k], pre, w) == At(pre, k) * w(k)
  {
    assert [k][..0] == [];
  }

  lemma {:induction false} WeightedOff(s: seq<Node>, r: Node, w: Node -> nat)
    requires r !in s
    ensures Weighted(s, map[r := 1], w) == 0
  {
    if s != [] {
      assert s[|s| - 1] in s;
      WeightedOff(s[..|s| - 1], r, w);
    }
  }

  lemma OnlyRoot(order: seq<Node>, r: Node, w: Node -> nat)
    requires NoDup(order) && order != [] && order[|order| - 1] == r
    ensures Weighted(order, map[r := 1], w) == w(r)
  {
    hide Weighted;
    WeightedLast(order, map[r := 1], w);
    WeightedOff(order[..|order| - 1], r, w);
    assert At(map[r := 1], r) == 1;
  }

  lemma WeightedLast(s: seq<Node>, pre: map<Node, nat>, w: Node -> nat)
    requires s != []
    ensures Weighted(s, pre, w) == Weighted(s[..|s| - 1], pre, w) + At(pre, s[|s| - 1]) * w(s[|s| - 1])
  {}

  lemma NoDupParts(s: seq<Node>, i: nat)
    requires NoDup(s) && i <= |s|
    ensures NoDup(s[..i]) && NoDup(s[i..]) && forall x :: x in s[..i] ==> x !in s[i..]
  {}

  // ---------------------------------------------------------------- one root, then all of them

  /** The suffixes counted at n for component c, the root's own total aside. */
  ghost function TallyW(g: Graph, live: Liveness, r: Node, c: string): Node -> nat {
    (n: Node) => if n.comp == c && n != r then |Tails(g, live, r, n)| else 0
  }

  /** after is before plus, per component, the tally over order. */
  ghost predicate AddsUp(g: Graph, live: Liveness, r: Node, before: map<string, nat>, after: map<string, nat>,
                         order: seq<Node>, pre: map<Node, nat>)
  {
    forall c :: Touched(after, c) == Touched(before, c) + Weighted(order, pre, TallyW(g, live, r, c))
  }

  lemma AddsUpNone(g: Graph, live: Liveness, r: Node, touch: map<string, nat>, order: seq<Node>, pre: map<Node, nat>)
    ensures AddsUp(g, live, r, touch, touch, order[..0], pre)
  {}

  lemma AddsUpOne(g: Graph, live: Liveness, r: Node, before: map<string, nat>, mid: map<string, nat>,
                  order: seq<Node>, pre: map<Node, nat>, j: nat, share: nat)
    requires j < |order| && AddsUp(g, live, r, before, mid, order[..j], pre)
    requires order[j] != r && share == At(pre, order[j]) * |Tails(g, live, r, order[j])|
    ensures var c := order[j].comp; AddsUp(g, live, r, before, mid[c := Touched(mid, c) + share], order[..j + 1], pre)
  {
    assert order[..j + 1][..j] == order[..j];
  }

  lemma AddsUpRoot(g: Graph, live: Liveness, r: Node, before: map<string, nat>, mid: map<string, nat>,
                   order: seq<Node>, pre: map<Node, nat>, j: nat)
    requires j < |order| && AddsUp(g, live, r, before, mid, order[..j], pre) && order[j] == r
    ensures AddsUp(g, live, r, before, mid, order[..j + 1], pre)
  {
    assert order[..j + 1][..j] == order[..j];
  }

  /** What a root adds at each component: its chains start at its own, and go on as the ways of its successors do. */
  lemma RootTouch(g: Graph, live: Liveness, r: Node, c: string)
    requires WellFormed(g) && TameFrom(g, live, r) && InGraph(g, r) && live.node(r.comp, r.state)
    ensures Sum(Visits(c), RootTails(g, live, r)) ==
            (if c == r.comp then |RootTails(g, live, r)| else 0) + Sum(MeetW(g, live, r, c), LiveNext(g, live, r.comp, r))
  {
    hide WellFormed, TameFrom, RankFrom, LiveNext, FlatMap, TailsVia, Sum, Visits, StandsAlone;
    var ms := LiveNext(g, live, r.comp, r);
    var ps := FlatMap(TailsVia(g, live, r, r), ms);
    ReachSelf(g, live, r);
    NextBelow(g, live, r, r);
    ViaVisits(g, live, r, r, c, ms);
    VisitsHere(r, c);
    SumZero(Visits(c), []);
  }

  /** The weight of n's ways, the root's own start aside. */
  ghost function OnwardAt(g: Graph, live: Liveness, r: Node, c: string, n: Node): nat {
    if n == r then Sum(MeetW(g, live, r, c), LiveNext(g, live, r.comp, r)) else MeetW(g, live, r, c)(n)
  }

  ghost function OnwardW(g: Graph, live: Liveness, r: Node, c: string): Node -> nat {
    n => OnwardAt(g, live, r, c, n)
  }

  lemma {:induction false} OnwardBalance(g: Graph, live: Liveness, r: Node, c: string, k: Node)
    requires WellFormed(g) && TameFrom(g, live, r) && LiveReach(g, live, r, k)
    ensures OnwardW(g, live, r, c)(k) == TallyW(g, live, r, c)(k) + Sum(OnwardW(g, live, r, c), LiveNextOf(g, live, r.comp)(k))
  {
    hide WellFormed, TameFrom, LiveReach, RankFrom, LiveNext, Tails;
    var ms := LiveNext(g, live, r.comp, k);
    NextBelow(g, live, r, k);
    if k != r { BelowRoot(g, live, r, k); }
    forall i | 0 <= i < |ms| ensures OnwardW(g, live, r, c)(ms[i]) == MeetW(g, live, r, c)(ms[i]) {
      assert ms[i] in ms;
    }
    SumSame(OnwardW(g, live, r, c), MeetW(g, live, r, c), ms);
    MeetBalance(g, live, r, c, k);
  }

  lemma Tallied(g: Graph, live: Liveness, r: Node, c: string, order: seq<Node>)
    requires WellFormed(g) && TameFrom(g, live, r) && InGraph(g, r) && live.node(r.comp, r.state)
    requires NoDup(order) && PostOrder.Topological(LiveNextOf(g, live, r.comp), order)
    requires order != [] && order[|order| - 1] == r && forall k :: k in order ==> LiveReach(g, live, r, k)
    ensures (if c == r.comp then |RootTails(g, live, r)| else 0) +
            Weighted(order, Propagated(order, LiveNextOf(g, live, r.comp), 0, r), TallyW(g, live, r, c)) ==
            Sum(Visits(c), RootTails(g, live, r))
  {
    hide WellFormed, TameFrom, LiveReach, PostOrder.Topological, LiveNext, Sum, Visits, Propagated, Weighted, Tails, RootTails, InGraph;
    RootTouch(g, live, r, c);
    forall k | k in order
      ensures OnwardW(g, live, r, c)(k) == TallyW(g, live, r, c)(k) + Sum(OnwardW(g, live, r, c), LiveNextOf(g, live, r.comp)(k))
    {
      OnwardBalance(g, live, r, c, k);
    }
    Conserved(order, LiveNextOf(g, live, r.comp), 0, r, OnwardW(g, live, r, c), TallyW(g, live, r, c));
    assert order[0..] == order && order[..0] == [];
    WeightedNothing(Propagated(order, LiveNextOf(g, live, r.comp), 0, r), OnwardW(g, live, r, c));
  }

  lemma WeightedNothing(pre: map<Node, nat>, w: Node -> nat)
    ensures Weighted([], pre, w) == 0
  {}

  /** Passes the prefix counts on along a reverse post-order. */
  method PassPrefixes(order: seq<Node>, next: Node -> seq<Node>, root: Node) returns (pre: map<Node, nat>)
    ensures pre == Propagated(order, next, 0, root)
  {
    hide Spread, At;
    pre := map[root := 1];
    var i := |order|;
    while i > 0
      invariant 0 <= i <= |order| && pre == Propagated(order, next, i, root)
    {
      i := i - 1;
      pre := PassOnward(pre, At(pre, order[i]), next(order[i]));
    }
  }

  method PassOnward(pre0: map<Node, nat>, amount: nat, ts: seq<Node>) returns (pre: map<Node, nat>)
    ensures pre == Spread(pre0, amount, ts)
  {
    pre := pre0;
    for j := 0 to |ts|
      invariant pre == Spread(pre0, amount, ts[..j])
    {
      assert ts[..j + 1][..j] == ts[..j];
      pre := pre[ts[j] := At(pre, ts[j]) + amount];
    }
    assert ts[..|ts|] == ts;
  }

  /** The counts as they build up, root after root. */
  class Tally {
    var touch: map<string, nat>

    constructor ()
      ensures touch == map[]
    {
      touch := map[];
    }

    method Add(c: string, n: nat)
      modifies this`touch
      ensures touch == old(touch)[c := Touched(old(touch), c) + n]
    {
      touch := touch[c := Touched(touch, c) + n];
    }

    /** Adds pre times suffix at every node of order but the root. */
    method AddThrough(p: Dp, order: seq<Node>, pre: map<Node, nat>)
      requires WellFormed(p.g) && InGraph(p.g, p.r) && p.Valid() && p.busy == {} && p.tame
      requires forall k :: k in order ==> LiveReach(p.g, p.live, p.r, k)
      modifies this`touch, p`suf, p`busy, p`err, p`done
      ensures AddsUp(p.g, p.live, p.r, old(touch), touch, order, pre)
    {
      hide AddsUp, WellFormed, Tails, LiveReach, TameFrom, Sound, DoneInOrder;
      AddsUpNone(p.g, p.live, p.r, touch, order, pre);
      for j := 0 to |order|
        invariant p.Valid() && p.busy == {}
        invariant AddsUp(p.g, p.live, p.r, old(touch), touch, order[..j], pre)
      {
        var k := order[j];
        assert k in order;
        ghost var mid := touch;
        if k == p.r {
          AddsUpRoot(p.g, p.live, p.r, old(touch), mid, order, pre, j);
          continue;
        }
        var n := p.Suffixes(k);
        var share := At(pre, k) * n;
        Add(k.comp, share);
        AddsUpOne(p.g, p.live, p.r, old(touch), mid, order, pre, j, share);
      }
      assert order[..|order|] == order;
    }

    /** One root: its live chains, and what each component has of their steps; a cycle is met exactly when a live way
        from the root comes back to a node. */
    method FromRoot(g: Graph, live: Liveness, r: Node) returns (err: bool, total: nat)
      requires WellFormed(g) && InGraph(g, r)
      modifies this`touch
      ensures err <==> live.node(r.comp, r.state) && !TameFrom(g, live, r)
      ensures !err ==> total == |RootTails(g, live, r)|
      ensures !err ==> forall c :: Touched(touch, c) == old(Touched(touch, c)) + Sum(Visits(c), RootTails(g, live, r))
    {
      hide WellFormed, TameFrom, RootTails, StandsAlone, AddsUp, Sound, DoneInOrder, InGraph, LiveReach, Visits, PostOrder.Topological;
      var p := new Dp(g, live, r);
      total := RootTotal(p);
      if p.err { return true, 0; }
      err := false;
      if total == 0 {
        assert RootTails(g, live, r) == [];
        return;
      }
      Add(r.comp, total);
      ghost var mid := touch;
      var order := ReachOrder(g, live, r);
      var pre := PassPrefixes(order, LiveNextOf(g, live, r.comp), r);
      AddThrough(p, order, pre);
      AllAdded(g, live, r, old(touch), mid, touch, order, pre, total);
    }
  }

  lemma AllAdded(g: Graph, live: Liveness, r: Node, before: map<string, nat>, mid: map<string, nat>, after: map<string, nat>,
                 order: seq<Node>, pre: map<Node, nat>, total: nat)
    requires WellFormed(g) && TameFrom(g, live, r) && InGraph(g, r) && live.node(r.comp, r.state)
    requires NoDup(order) && PostOrder.Topological(LiveNextOf(g, live, r.comp), order)
    requires order != [] && order[|order| - 1] == r && forall k :: k in order ==> LiveReach(g, live, r, k)
    requires pre == Propagated(order, LiveNextOf(g, live, r.comp), 0, r) && total == |RootTails(g, live, r)|
    requires mid == before[r.comp := Touched(before, r.comp) + total] && AddsUp(g, live, r, mid, after, order, pre)
    ensures forall c :: Touched(after, c) == Touched(before, c) + Sum(Visits(c), RootTails(g, live, r))
  {
    hide WellFormed, TameFrom, LiveReach, PostOrder.Topological, Sum, Visits, Propagated, Weighted, RootTails, InGraph;
    forall c ensures Touched(after, c) == Touched(before, c) + Sum(Visits(c), RootTails(g, live, r)) {
      Tallied(g, live, r, c, order);
    }
  }

  lemma RootTailsAre(g: Graph, live: Liveness, r: Node)
    ensures var n := |FlatMap(TailsVia(g, live, r, r), LiveNext(g, live, r.comp, r))|;
            |RootTails(g, live, r)| ==
            if !live.node(r.comp, r.state) then 0 else if n == 0 && StandsAlone(g, r) then 1 else n
  {}

  method RootTotal(p: Dp) returns (total: nat)
    requires WellFormed(p.g) && InGraph(p.g, p.r) && p.Valid() && p.busy == {} && p.suf == map[] && !p.err
    modifies p`suf, p`busy, p`err, p`done
    ensures p.Valid() && p.busy == {}
    ensures p.err <==> p.live.node(p.r.comp, p.r.state) && !p.tame
    ensures !p.err ==> total == |RootTails(p.g, p.live, p.r)|
    ensures total > 0 ==> p.live.node(p.r.comp, p.r.state)
  {
    hide WellFormed, LiveReach, TameFrom, RankFrom, LiveNext, Sound, DoneInOrder, HasTail, TailCount, InGraph, StandsAlone, FlatMap,
      TailsVia, Along, Edges, Tails, RootTails;
    total := 0;
    RootTailsAre(p.g, p.live, p.r);
    if p.live.node(p.r.comp, p.r.state) {
      ReachSelf(p.g, p.live, p.r);
      total := p.SumSuffixes(p.r);
      if !p.err { DoneRanks(p.g, p.live, p.r, p.suf, p.done); }
      if p.tame { TailCountSolves(p.g, p.live, p.r, p.r); }
      if total == 0 {
        var alone := RootStandsAlone(p.g, p.r);
        if alone { total := 1; }
      }
    }
  }

  /** What r reaches over live edges, in post-order. */
  method ReachOrder(g: Graph, live: Liveness, r: Node) returns (order: seq<Node>)
    requires WellFormed(g) && InGraph(g, r) && TameFrom(g, live, r)
    ensures NoDup(order) && forall k :: k in order ==> LiveReach(g, live, r, k)
    ensures PostOrder.Topological(LiveNextOf(g, live, r.comp), order)
    ensures order != [] && order[|order| - 1] == r
  {
    hide WellFormed, TameFrom, RankFrom, LiveNext, InGraph, LiveReach, Nodes;
    ghost var universe := set n | n in Nodes(g) && LiveReach(g, live, r, n);
    forall n, m | n in universe && m in LiveNextOf(g, live, r.comp)(n)
      ensures m in universe && RankFrom(g, live, r)(m) < RankFrom(g, live, r)(n)
    {
      ReachOn(g, live, r, n, m);
      ReachInGraph(g, live, r, m);
    }
    ReachSelf(g, live, r);
    ReachInGraph(g, live, r, r);
    var w := new PostOrder.Walker(LiveNextOf(g, live, r.comp), universe, true, RankFrom(g, live, r));
    w.Visit(r);
    order := w.order;
  }

  datatype Counts = Counts(live: nat, touch: map<string, nat>)

  datatype CountResult = Counted(counts: Counts) | ErrCycle

  lemma NothingYet(f: Node -> seq<Path>, roots: seq<Node>)
    ensures FlatMap(f, roots[..0]) == [] && forall c :: Sum(Visits(c), FlatMap(f, roots[..0])) == 0
  {}

  lemma OneMore(f: Node -> seq<Path>, roots: seq<Node>, i: nat)
    requires i < |roots|
    ensures |FlatMap(f, roots[..i + 1])| == |FlatMap(f, roots[..i])| + |f(roots[i])|
    ensures forall c :: Sum(Visits(c), FlatMap(f, roots[..i + 1])) ==
                        Sum(Visits(c), FlatMap(f, roots[..i])) + Sum(Visits(c), f(roots[i]))
  {
    hide Sum, Visits;
    assert roots[..i + 1] == roots[..i] + [roots[i]];
    FlatMapOne(f, roots[..i], roots[i]);
    forall c ensures Sum(Visits(c), FlatMap(f, roots[..i + 1])) ==
                     Sum(Visits(c), FlatMap(f, roots[..i])) + Sum(Visits(c), f(roots[i]))
    {
      SumAppend(Visits(c), FlatMap(f, roots[..i]), f(roots[i]));
    }
  }

  /** Count, on any graph: a cycle is reported exactly when a live way from a live root comes back to a node. Otherwise
      the live chains are numbered, those on which a component comes back included, and for each component the steps
      they have there -- as many as the chains through it when no component comes back. */
  method Count(g: Graph, live: Liveness) returns (r: CountResult)
    requires WellFormed(g)
    ensures r.ErrCycle? <==> !Tame(g, live)
    ensures r.Counted? ==>
              && r.counts.live == |ChainList(g, live)|
              && (forall c :: Touched(r.counts.touch, c) == Sum(StepsAt(c), ChainList(g, live)))
              && ((forall s :: s in ChainList(g, live) ==> NoRepeat(s)) ==>
                    forall c :: Touched(r.counts.touch, c) == CountIf(ScenarioTouchesC(c), ChainList(g, live)))
    ensures Acyclic(g) ==>
              r.Counted? && ChainList(g, live) == LiveListing(g, live) && forall s :: s in ChainList(g, live) ==> NoRepeat(s)
  {
    hide Roots, LiveListing, ChainList, FlatMap, CountIf, WellFormed, Acyclic, RootTails, StandsAlone, TameFrom, Visits, Sum, StepsAt, InGraph, NoRepeat;
    var roots := ListRoots(g);
    RootsMean(g);
    if Acyclic(g) { AcyclicPlain(g, live); }
    var tally := new Tally();
    var n := 0;
    ghost var f := RootTailsOf(g, live);
    NothingYet(f, roots);
    for i := 0 to |roots|
      invariant fresh(tally)
      invariant forall j :: 0 <= j < i && live.node(roots[j].comp, roots[j].state) ==> TameFrom(g, live, roots[j])
      invariant n == |FlatMap(f, roots[..i])|
      invariant forall c :: Touched(tally.touch, c) == Sum(Visits(c), FlatMap(f, roots[..i]))
    {
      assert roots[i] in roots;
      var err, total := tally.FromRoot(g, live, roots[i]);
      if err { return ErrCycle; }
      n := n + total;
      OneMore(f, roots, i);
    }
    assert roots[..|roots|] == roots;
    r := Counted(Counts(n, tally.touch));
    TailsCountChains(g, live);
    if forall s :: s in ChainList(g, live) ==> NoRepeat(s) {
      forall c ensures Touched(r.counts.touch, c) == CountIf(ScenarioTouchesC(c), ChainList(g, live)) {
        StepsAreChains(ChainList(g, live), c);
      }
    }
  }
}
