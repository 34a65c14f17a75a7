/** The append-only fact store. */
module Facts {
  import opened Expr

  datatype Status = Normal | NotFound | Forbidden | Transient

  /** One observed value for a key, or why there is none. */
  datatype Fact = Fact(key: string, value: Option<Value>, status: Status)

  /** Everything recorded, component by component, in append order. */
  type Log = map<string, seq<Fact>>

  function FactsFor(log: Log, c: string): seq<Fact> {
    if c in log then log[c] else []
  }

  function Appended(log: Log, c: string, f: Fact): Log {
    log[c := FactsFor(log, c) + [f]]
  }

  /** The last record of key, which is the one that counts. */
  function LatestOf(list: seq<Fact>, key: string): Option<Fact> {
    if list == [] then None
    else if list[|list| - 1].key == key then Some(list[|list| - 1])
    else LatestOf(list[..|list| - 1], key)
  }

  /** The value of the latest record; a record without one reads as no fact. */
  function ValueOf(log: Log, c: string, key: string): Option<Value> {
    match LatestOf(FactsFor(log, c), key)
    case None => None
    case Some(f) => f.value
  }

  /** Probed and not there: some probe found nothing and none found a value. */
  predicate Absent(list: seq<Fact>) {
    (exists i :: 0 <= i < |list| && list[i].status == NotFound) && forall i :: 0 <= i < |list| ==> list[i].value.None?
  }

  /** Some fact resolved to a value. */
  predicate Observed(list: seq<Fact>) {
    exists i :: 0 <= i < |list| && list[i].value.Some?
  }

  class Store {
    var log: Log

    constructor ()
      ensures log == map[]
    {
      log := map[];
    }

    method Append(c: string, f: Fact)
      modifies this`log
      ensures log == Appended(old(log), c, f)
    {
      log := log[c := (if c in log then log[c] else []) + [f]];
    }

    method Latest(c: string, key: string) returns (r: Option<Fact>)
      ensures r == LatestOf(FactsFor(log, c), key)
    {
      if c !in log { return None; }
      var list := log[c];
      var i := |list|;
      assert list[..i] == list;
      while i > 0
        invariant 0 <= i <= |list| && LatestOf(list, key) == LatestOf(list[..i], key)
      {
        i := i - 1;
        assert list[..i + 1][..i] == list[..i];
        if list[i].key == key { return Some(list[i]); }
      }
      return None;
    }

    method LookupValue(c: string, key: string) returns (v: Option<Value>)
      ensures v == ValueOf(log, c, key)
    {
      var f := Latest(c, key);
      if f.None? { return None; }
      return f.value.value;
    }

    method IsAbsent(c: string) returns (b: bool)
      ensures b == Absent(FactsFor(log, c))
    {
      if c !in log { return false; }
      var list := log[c];
      var sawNotFound := false;
      for i := 0 to |list|
        invariant forall j :: 0 <= j < i ==> list[j].value.None?
        invariant sawNotFound <==> exists j :: 0 <= j < i && list[j].status == NotFound
      {
        if list[i].value.Some? { return false; }
        if list[i].status == NotFound { sawNotFound := true; }
      }
      return sawNotFound;
    }

    /** Every key last probed without success, with the status of that record: refused, or to be tried again. */
    method Unreadable(c: string) returns (out: map<string, Status>)
      ensures forall k :: k in out <==>
                var f := LatestOf(FactsFor(log, c), k); f.Some? && f.value.status in {Forbidden, Transient}
      ensures forall k :: k in out ==> out[k] == LatestOf(FactsFor(log, c), k).value.status
    {
      var list := FactsFor(log, c);
      var latest: map<string, Status> := map[];
      for i := 0 to |list|
        invariant forall k :: k in latest <==> LatestOf(list[..i], k).Some?
        invariant forall k :: k in latest ==> latest[k] == LatestOf(list[..i], k).value.status
      {
        assert list[..i + 1][..i] == list[..i];
        latest := latest[list[i].key := list[i].status];
      }
      assert list[..|list|] == list;
      out := map k | k in latest && latest[k] in {Forbidden, Transient} :: latest[k];
    }
  }

  // ---------------------------------------------------------------- what an append changes

  /** An append is the latest record of its own key and leaves every other pair as it was. */
  lemma AppendedLatest(log: Log, c: string, f: Fact, d: string, k: string)
    ensures LatestOf(FactsFor(Appended(log, c, f), d), k) ==
            if d == c && k == f.key then Some(f) else LatestOf(FactsFor(log, d), k)
  {
    var list := FactsFor(log, c);
    assert (list + [f])[..|list + [f]| - 1] == list;
  }

  /** f stands in list under key, and nothing after it does. */
  ghost predicate IsLatest(list: seq<Fact>, key: string, f: Fact) {
    exists i :: 0 <= i < |list| && list[i] == f && f.key == key && forall j :: i < j < |list| ==> list[j].key != key
  }

  /** The latest record is the one after which the key does not come; there is none exactly when the key never comes. */
  lemma {:induction false} LatestMeans(list: seq<Fact>, key: string)
    ensures forall f :: LatestOf(list, key) == Some(f) <==> IsLatest(list, key, f)
    ensures LatestOf(list, key).None? <==> forall i :: 0 <= i < |list| ==> list[i].key != key
  {
    if list != [] {
      var n := |list| - 1;
      var init, last := list[..n], list[n];
      assert list == init + [last];
      LatestMeans(init, key);
      if last.key == key {
        assert IsLatest(list, key, last);
      } else {
        forall f ensures IsLatest(list, key, f) <==> IsLatest(init, key, f) { LatestAside(init, last, key, f); }
        if forall i :: 0 <= i < |init| ==> init[i].key != key {
          forall i | 0 <= i < |list| ensures list[i].key != key { if i < n { assert list[i] == init[i]; } }
        }
      }
    }
  }

  /** A record of another key changes nothing. */
  lemma LatestAside(init: seq<Fact>, last: Fact, key: string, f: Fact)
    requires last.key != key
    ensures IsLatest(init + [last], key, f) <==> IsLatest(init, key, f)
  {
    var list := init + [last];
    if IsLatest(init, key, f) {
      var i :| 0 <= i < |init| && init[i] == f && f.key == key && forall j :: i < j < |init| ==> init[j].key != key;
      assert list[i] == f && forall j :: i < j < |list| ==> list[j].key != key;
    }
    if IsLatest(list, key, f) {
      var i :| 0 <= i < |list| && list[i] == f && f.key == key && forall j :: i < j < |list| ==> list[j].key != key;
      assert i < |init| && init[i] == f && forall j :: i < j < |init| ==> init[j].key == list[j].key;
    }
  }
}
