/** The command line between the engine and a provider's runner: what one side writes the other reads back. */
module Argv {
  import opened Ordering
  import opened Enumeration
  import opened Expr

  type Flags = map<string, string>

  /** A probe to run. window counts nanoseconds. */
  datatype Command = Command(
    resource: string,
    component: string,
    fact: string,
    typeName: string,
    window: int,
    derive: string,
    vars: Flags,
    extra: Flags)

  /** What the runner makes of its command line. */
  datatype Request = Request(
    name: string,
    fact: string,
    typeName: string,
    namespace: string,
    window: int,
    derive: string,
    extra: Flags)

  // ---------------------------------------------------------------- durations

  /** How durations print and read. */
  datatype Durations = Durations(show: int -> string, parse: string -> Option<int>)

  predicate HasSuffix(s: string, suffix: string) {
    |suffix| <= |s| && s[|s| - |suffix|..] == suffix
  }

  /** A printed duration reads back, and a last part that is zero adds nothing. */
  ghost predicate Lawful(ds: Durations) {
    && (forall n :: n > 0 ==> ds.parse(ds.show(n)) == Some(n))
    && (forall s :: HasSuffix(s, "m") ==> ds.parse(s + "0s") == ds.parse(s))
    && (forall s :: HasSuffix(s, "h") ==> ds.parse(s + "0m") == ds.parse(s))
  }

  /** s without its last two characters when it ends in end. */
  function TrimAt(s: string, end: string): string
    requires |end| >= 2
  {
    if HasSuffix(s, end) then s[..|s| - 2] else s
  }

  function Short(s: string): string {
    TrimAt(TrimAt(s, "m0s"), "h0m")
  }

  method ShortDuration(ds: Durations, n: int) returns (s: string)
    ensures s == Short(ds.show(n))
  {
    s := ds.show(n);
    if HasSuffix(s, "m0s") { s := s[..|s| - 2]; }
    if HasSuffix(s, "h0m") { s := s[..|s| - 2]; }
  }

  lemma TrimmedIs(s: string, kept: string, dropped: string)
    requires |dropped| == 2
    ensures HasSuffix(s, kept + dropped) ==>
              HasSuffix(TrimAt(s, kept + dropped), kept) && s == TrimAt(s, kept + dropped) + dropped
  {
    if HasSuffix(s, kept + dropped) {
      var init, tail := s[..|s| - 2], s[|s| - |kept + dropped|..];
      assert s == init + dropped by { assert tail[|kept|..] == dropped; }
      assert init[|init| - |kept|..] == kept by { assert tail[..|kept|] == kept; }
    }
  }

  /** Leaving out a zero end changes nothing for the reader. */
  lemma ShortReadsBack(ds: Durations, n: int)
    requires Lawful(ds) && n > 0
    ensures ds.parse(Short(ds.show(n))) == Some(n)
  {
    var s := ds.show(n);
    assert "m" + "0s" == "m0s" && "h" + "0m" == "h0m";
    TrimmedIs(s, "m", "0s");
    TrimmedIs(TrimAt(s, "m0s"), "h", "0m");
  }

  /** What a duration is shortened to: no zero seconds after minutes, and then no zero minutes after hours. */
  lemma ShortIs(p: string)
    ensures Short(p + "h0m0s") == p + "h"
    ensures !HasSuffix(p, "h0") ==> Short(p + "m0s") == p + "m"
    ensures Short(p + "h0m") == p + "h"
    ensures !HasSuffix(p, "m0s") && !HasSuffix(p, "h0m") ==> Short(p) == p
  {
    hide HasSuffix, TrimAt;
    EndsIn(p + "h0", "m0s");
    EndsIn(p, "m0s");
    EndsIn(p, "h0m");
    assert p + "h0" + "m0s" == p + "h0m0s" && p + "h0" + "m" == p + "h0m";
    assert "m0s"[..1] == "m" && "h0m"[..1] == "h";
    OtherEnd(p + "h0", 'm', "m0s");
    assert "h0m"[..2] == "h0";
    OtherEnd(p, 'm', "h0m");
    if !HasSuffix(p, "m0s") { TrimNot(p, "m0s"); }
    if !HasSuffix(p, "h0m") { TrimNot(p, "h0m"); }
    TrimNot(p + "h0m", "m0s");
    if !HasSuffix(p, "h0") { TrimNot(p + "m", "h0m"); }
  }

  lemma TrimNot(s: string, end: string)
    requires |end| >= 2 && !HasSuffix(s, end)
    ensures TrimAt(s, end) == s
  {}

  lemma OtherEnd(s: string, c: char, end: string)
    requires |end| == 3
    ensures HasSuffix(s + [c], end) ==> c == end[2] && HasSuffix(s, end[..2])
  {
    var t := s + [c];
    if HasSuffix(t, end) { assert t[|t| - 3..][2] == c && t[|t| - 3..][..2] == s[|s| - 2..]; }
  }

  lemma EndsIn(p: string, end: string)
    requires |end| == 3
    ensures HasSuffix(p + end, end) && TrimAt(p + end, end) == p + end[..1]
  {
    assert (p + end)[|p + end| - |end|..] == end;
    assert (p + end)[..|p + end| - 2] == p + end[..1];
  }

  // ---------------------------------------------------------------- writing

  const RESERVED := ["type", "window", "derive"]

  datatype Built = Args(args: seq<string>) | InBoth(key: string) | Taken(key: string)

  function Get(m: Flags, k: string): string {
    if k in m then m[k] else ""
  }

  function Given(m: Flags): Flags {
    map k | k in m && m[k] != "" :: m[k]
  }

  /** Every key that has a value, from either side. */
  function Merged(cmd: Command): Flags {
    Given(cmd.vars) + Given(cmd.extra)
  }

  /** No key is given twice, and none the protocol keeps for itself has a value. */
  predicate Accepts(cmd: Command) {
    cmd.vars.Keys !! cmd.extra.Keys && forall k :: k in RESERVED ==> Get(cmd.vars, k) == "" && Get(cmd.extra, k) == ""
  }

  function Written(flags: Flags, keys: seq<string>): seq<string> {
    if keys == [] then []
    else Written(flags, keys[..|keys| - 1]) + ["--" + keys[|keys| - 1], Get(flags, keys[|keys| - 1])]
  }

  function Name(cmd: Command): string {
    if cmd.resource == "" then cmd.component else cmd.resource
  }

  function TypeFlag(cmd: Command): seq<string> {
    if cmd.typeName == "" then [] else ["--type", cmd.typeName]
  }

  /** The window goes with the derivation or not at all. */
  predicate Derived(cmd: Command) {
    cmd.window > 0 && cmd.derive != ""
  }

  function DerivedFlags(ds: Durations, cmd: Command): seq<string> {
    if Derived(cmd) then ["--window", Short(ds.show(cmd.window)), "--derive", cmd.derive] else []
  }

  function FrontOf(ds: Durations, cmd: Command): seq<string> {
    ["probe", Name(cmd), cmd.fact] + TypeFlag(cmd) + DerivedFlags(ds, cmd)
  }

  function ArgsOf(ds: Durations, cmd: Command): seq<string> {
    FrontOf(ds, cmd) + Written(Merged(cmd), SortedNames(Merged(cmd).Keys))
  }

  lemma {:induction false} WrittenAt(flags: Flags, keys: seq<string>)
    ensures |Written(flags, keys)| == 2 * |keys|
    ensures forall i :: 0 <= i < |keys| ==>
              Written(flags, keys)[2 * i] == "--" + keys[i] && Written(flags, keys)[2 * i + 1] == Get(flags, keys[i])
  {
    hide Get;
    if keys != [] { WrittenAt(flags, keys[..|keys| - 1]); }
  }

  lemma FrontIs(ds: Durations, cmd: Command)
    ensures var front := FrontOf(ds, cmd);
            var typed := if cmd.typeName == "" then 3 else 5;
            && |front| == (if cmd.window > 0 && cmd.derive != "" then typed + 4 else typed)
            && front[0] == "probe" && front[1] == (if cmd.resource == "" then cmd.component else cmd.resource) && front[2] == cmd.fact
            && (typed == 5 ==> front[3] == "--type" && front[4] == cmd.typeName)
            && (|front| > typed ==> front[typed] == "--window" && front[typed + 1] == Short(ds.show(cmd.window)) &&
                                    front[typed + 2] == "--derive" && front[typed + 3] == cmd.derive)
  {
    hide Short;
  }

  /** The command line, argument by argument: the word probe, the resource or, when none is named, the component, and the fact;
      the type when there is one; the window and the derivation when there are both; and then each key that has a value,
      in order, with the value it has. */
  lemma {:induction false} ArgsInOrder(ds: Durations, cmd: Command)
    requires Accepts(cmd)
    ensures var args := ArgsOf(ds, cmd);
            var typed := if cmd.typeName == "" then 3 else 5;
            var head := if cmd.window > 0 && cmd.derive != "" then typed + 4 else typed;
            && |args| >= head
            && args[0] == "probe" && args[1] == (if cmd.resource == "" then cmd.component else cmd.resource) && args[2] == cmd.fact
            && (typed == 5 ==> args[3] == "--type" && args[4] == cmd.typeName)
            && (head > typed ==> args[typed] == "--window" && args[typed + 1] == Short(ds.show(cmd.window)) &&
                                 args[typed + 2] == "--derive" && args[typed + 3] == cmd.derive)
            && exists keys :: FlagsAre(cmd, keys, args[head..])
  {
    hide Written, Short, Merged, FlagsAre, FrontOf, SortedNames;
    var front, tail := FrontOf(ds, cmd), Written(Merged(cmd), SortedNames(Merged(cmd).Keys));
    FrontIs(ds, cmd);
    FlagsWritten(cmd);
    assert (front + tail)[|front|..] == tail;
  }

  /** flags holds keys, sorted, each followed by its value: those that have one from either side. */
  ghost predicate FlagsAre(cmd: Command, keys: seq<string>, flags: seq<string>) {
    && StrictlySorted(StringLess, keys) && |flags| == 2 * |keys|
    && (forall k :: k in keys <==> (k in cmd.vars && cmd.vars[k] != "") || (k in cmd.extra && cmd.extra[k] != ""))
    && forall i :: 0 <= i < |keys| ==>
         && flags[2 * i] == "--" + keys[i]
         && flags[2 * i + 1] == if keys[i] in cmd.vars then cmd.vars[keys[i]] else cmd.extra[keys[i]]
  }

  lemma FlagsWritten(cmd: Command)
    requires Accepts(cmd)
    ensures FlagsAre(cmd, SortedNames(Merged(cmd).Keys), Written(Merged(cmd), SortedNames(Merged(cmd).Keys)))
  {
    hide Written, Merged, Get, Accepts, StringLess;
    var keys := SortedNames(Merged(cmd).Keys);
    MergedGets(cmd);
    WrittenAt(Merged(cmd), keys);
    forall i | 0 <= i < |keys|
      ensures Written(Merged(cmd), keys)[2 * i + 1] == if keys[i] in cmd.vars then cmd.vars[keys[i]] else cmd.extra[keys[i]]
    {
      assert keys[i] in keys;
    }
  }

  lemma MergedGets(cmd: Command)
    requires Accepts(cmd)
    ensures forall k :: k in Merged(cmd) <==> (k in cmd.vars && cmd.vars[k] != "") || (k in cmd.extra && cmd.extra[k] != "")
    ensures forall k :: k in Merged(cmd) ==> Get(Merged(cmd), k) == if k in cmd.vars then cmd.vars[k] else cmd.extra[k]
  {}

  method GivenOf(m: Flags) returns (given: Flags)
    ensures given == Given(m)
  {
    given := map[];
    var left := m.Keys;
    while left != {}
      invariant left <= m.Keys
      invariant given == map k | k in m && k !in left && m[k] != "" :: m[k]
      decreases left
    {
      var k :| k in left;
      left := left - {k};
      if m[k] != "" { given := given[k := m[k]]; }
    }
  }

  /** buildArgs: refused for a key given twice or one that is reserved, else the command line. */
  method BuildArgs(ds: Durations, cmd: Command) returns (r: Built)
    ensures r.Args? <==> Accepts(cmd)
    ensures r.Args? ==> r.args == ArgsOf(ds, cmd)
    ensures r.InBoth? <==> !(cmd.vars.Keys !! cmd.extra.Keys)
    ensures r.InBoth? ==> r.key in cmd.vars && r.key in cmd.extra
    ensures r.Taken? ==> r.key in RESERVED && (Get(cmd.vars, r.key) != "" || Get(cmd.extra, r.key) != "")
  {
    var left := cmd.extra.Keys;
    while left != {}
      invariant left <= cmd.extra.Keys && forall k :: k in cmd.extra && k !in left ==> k !in cmd.vars
      decreases left
    {
      var k :| k in left;
      left := left - {k};
      if k in cmd.vars { return InBoth(k); }
    }
    for i := 0 to |RESERVED|
      invariant forall j :: 0 <= j < i ==> Get(cmd.vars, RESERVED[j]) == "" && Get(cmd.extra, RESERVED[j]) == ""
    {
      if Get(cmd.vars, RESERVED[i]) != "" || Get(cmd.extra, RESERVED[i]) != "" { return Taken(RESERVED[i]); }
    }
    hide Written, FrontOf;
    var merged := GivenOf(cmd.vars);
    var more := GivenOf(cmd.extra);
    merged := merged + more;
    var keys := SortedComponentNames(merged.Keys);
    var args := WriteFront(ds, cmd);
    var flags := WriteFlags(merged, keys);
    return Args(args + flags);
  }

  method WriteFront(ds: Durations, cmd: Command) returns (args: seq<string>)
    ensures args == FrontOf(ds, cmd)
  {
    hide Short;
    args := ["probe", if cmd.resource == "" then cmd.component else cmd.resource, cmd.fact];
    if cmd.typeName != "" { args := args + ["--type", cmd.typeName]; }
    if cmd.window > 0 && cmd.derive != "" {
      var short := ShortDuration(ds, cmd.window);
      args := args + ["--window", short, "--derive", cmd.derive];
    }
    assert args == FrontOf(ds, cmd);
  }

  method WriteFlags(merged: Flags, keys: seq<string>) returns (flags: seq<string>)
    ensures flags == Written(merged, keys)
  {
    flags := [];
    for i := 0 to |keys|
      invariant flags == Written(merged, keys[..i])
    {
      assert keys[..i + 1][..i] == keys[..i];
      flags := flags + ["--" + keys[i], Get(merged, keys[i])];
    }
    assert keys[..|keys|] == keys;
  }

  // ---------------------------------------------------------------- reading

  predicate IsFlag(key: string) {
    "--" <= key
  }

  /** One flag and its value; nothing for what is no flag, nor for a window whose duration is none or not positive. */
  function ReadFlag(ds: Durations, req: Request, key: string, val: string): Option<Request> {
    if !IsFlag(key) then None
    else
      var k := key[2..];
      if k == "type" then Some(req.(typeName := val))
      else if k == "window" then
        (var d := ds.parse(val); if d.Some? && d.value > 0 then Some(req.(window := d.value)) else None)
      else if k == "derive" then Some(req.(derive := val))
      else Some(req.(extra := req.extra[k := val], namespace := if k == "namespace" then val else req.namespace))
  }

  /** Flag after flag; a last one without a value is left alone. */
  function ReadFlags(ds: Durations, req: Request, flags: seq<string>): Option<Request>
    decreases |flags|
  {
    if |flags| < 2 then Some(req)
    else
      match ReadFlag(ds, req, flags[0], flags[1])
      case None => None
      case Some(next) => ReadFlags(ds, next, flags[2..])
  }

  function Blank(name: string, fact: string): Request {
    Request(name, fact, "", "", 0, "", map[])
  }

  function Parsed(ds: Durations, args: seq<string>): Option<Request>
    requires |args| >= 3
  {
    ReadFlags(ds, Blank(args[1], args[2]), args[3..])
  }

  method ParseProbeRequest(ds: Durations, args: seq<string>) returns (r: Option<Request>)
    requires |args| >= 3
    ensures r == Parsed(ds, args)
  {
    var req := Request(args[1], args[2], "", "", 0, "", map[]);
    var i := 3;
    while i + 1 < |args|
      invariant 3 <= i <= |args|
      invariant ReadFlags(ds, req, args[i..]) == Parsed(ds, args)
    {
      var key, val := args[i], args[i + 1];
      assert args[i..][0] == key && args[i..][1] == val && args[i..][2..] == args[i + 2..];
      if !("--" <= key) { return None; }
      var k := key[2..];
      i := i + 2;
      if k == "type" { req := req.(typeName := val); continue; }
      if k == "window" {
        var d := ds.parse(val);
        if d.None? || d.value <= 0 { return None; }
        req := req.(window := d.value);
        continue;
      }
      if k == "derive" { req := req.(derive := val); continue; }
      req := req.(extra := req.extra[k := val]);
      if k == "namespace" { req := req.(namespace := val); }
    }
    return Some(req);
  }

  // ---------------------------------------------------------------- what is read is what was written

  lemma {:induction false} ReadFlagsAppend(ds: Durations, req: Request, a: seq<string>, b: seq<string>)
    requires |a| % 2 == 0
    ensures ReadFlags(ds, req, a + b) ==
            match ReadFlags(ds, req, a) case None => None case Some(next) => ReadFlags(ds, next, b)
    decreases |a|
  {
    if a == [] {
      assert a + b == b;
    } else {
      assert (a + b)[0] == a[0] && (a + b)[1] == a[1] && (a + b)[2..] == a[2..] + b;
      match ReadFlag(ds, req, a[0], a[1])
      case None =>
      case Some(next) => ReadFlagsAppend(ds, next, a[2..], b);
    }
  }

  lemma ReadOne(ds: Durations, req: Request, key: string, val: string)
    ensures ReadFlags(ds, req, ["--" + key, val]) == ReadFlag(ds, req, "--" + key, val)
    ensures IsFlag("--" + key) && ("--" + key)[2..] == key
  {
    assert ["--" + key, val][2..] == [];
  }

  /** req with these keys of flags. */
  function With(req: Request, flags: Flags, keys: seq<string>): Request {
    req.(extra := req.extra + map k | k in keys :: Get(flags, k),
         namespace := if "namespace" in keys then Get(flags, "namespace") else req.namespace)
  }

  lemma WithOne(ds: Durations, req: Request, flags: Flags, keys: seq<string>, key: string)
    requires key !in RESERVED
    ensures ReadFlag(ds, With(req, flags, keys), "--" + key, Get(flags, key)) == Some(With(req, flags, keys + [key]))
  {
    hide Get;
    assert ("--" + key)[2..] == key;
    var some := map k | k in keys :: Get(flags, k);
    assert (map k | k in keys + [key] :: Get(flags, k)) == some[key := Get(flags, key)];
    assert (req.extra + some)[key := Get(flags, key)] == req.extra + some[key := Get(flags, key)];
  }

  lemma WithNone(req: Request, flags: Flags)
    ensures With(req, flags, []) == req
  {
    assert req.extra + (map k | k in [] :: Get(flags, k)) == req.extra;
  }

  lemma {:induction false} WrittenReadsBack(ds: Durations, req: Request, flags: Flags, keys: seq<string>)
    requires forall k :: k in keys ==> k !in RESERVED
    ensures |Written(flags, keys)| % 2 == 0
    ensures ReadFlags(ds, req, Written(flags, keys)) == Some(With(req, flags, keys))
  {
    hide With, Get, ReadFlag;
    if keys == [] {
      WithNone(req, flags);
    } else {
      hide ReadFlags;
      var init, last := keys[..|keys| - 1], keys[|keys| - 1];
      assert keys == init + [last];
      WrittenReadsBack(ds, req, flags, init);
      WithOne(ds, req, flags, init, last);
      ReadFlagsAppend(ds, req, Written(flags, init), ["--" + last, Get(flags, last)]);
      ReadOne(ds, With(req, flags, init), last, Get(flags, last));
    }
  }

  lemma HeadReadsBack(ds: Durations, cmd: Command, req: Request)
    requires Lawful(ds) && req == Blank(Name(cmd), cmd.fact)
    ensures var head := TypeFlag(cmd) + DerivedFlags(ds, cmd);
            && |head| % 2 == 0
            && ReadFlags(ds, req, head) ==
               Some(req.(typeName := cmd.typeName, window := if Derived(cmd) then cmd.window else 0,
                         derive := if Derived(cmd) then cmd.derive else ""))
  {
    hide Short;
    var typed := req.(typeName := cmd.typeName);
    if cmd.typeName != "" { ReadOne(ds, req, "type", cmd.typeName); }
    assert ReadFlags(ds, req, TypeFlag(cmd)) == Some(typed);
    ReadFlagsAppend(ds, req, TypeFlag(cmd), DerivedFlags(ds, cmd));
    if Derived(cmd) {
      ShortReadsBack(ds, cmd.window);
      var w, d := ["--window", Short(ds.show(cmd.window))], ["--derive", cmd.derive];
      var timed := typed.(window := cmd.window);
      ReadOne(ds, typed, "window", Short(ds.show(cmd.window)));
      ReadOne(ds, timed, "derive", cmd.derive);
      ReadFlagsAppend(ds, typed, w, d);
      assert DerivedFlags(ds, cmd) == w + d;
    }
  }

  /** Every command the engine accepts arrives whole: name, fact and type, window and derivation when both were set,
      and exactly the keys that had a value. */
  lemma {:induction false} ArrivesWhole(ds: Durations, cmd: Command)
    requires Lawful(ds) && Accepts(cmd)
    ensures Parsed(ds, ArgsOf(ds, cmd)) ==
            Some(Request(Name(cmd), cmd.fact, cmd.typeName, Get(Merged(cmd), "namespace"),
                         if Derived(cmd) then cmd.window else 0, if Derived(cmd) then cmd.derive else "", Merged(cmd)))
  {
    hide Written, Lawful, TypeFlag, DerivedFlags, SortedNames, ReadFlags, With, Merged;
    var merged, keys := Merged(cmd), SortedNames(Merged(cmd).Keys);
    var req := Blank(Name(cmd), cmd.fact);
    var head, tail := TypeFlag(cmd) + DerivedFlags(ds, cmd), Written(merged, keys);
    assert ArgsOf(ds, cmd)[3..] == head + tail;
    HeadReadsBack(ds, cmd, req);
    ReadFlagsAppend(ds, req, head, tail);
    MergedKeys(cmd);
    var arrived := ReadFlags(ds, req, head).value;
    WrittenReadsBack(ds, arrived, merged, keys);
    WithAll(arrived, merged, keys);
  }

  lemma MergedKeys(cmd: Command)
    requires Accepts(cmd)
    ensures forall k :: k in SortedNames(Merged(cmd).Keys) <==> k in Merged(cmd)
    ensures forall k :: k in Merged(cmd) ==> k !in RESERVED
  {}

  lemma WithAll(req: Request, flags: Flags, keys: seq<string>)
    requires req.extra == map[] && req.namespace == "" && forall k :: k in keys <==> k in flags
    ensures With(req, flags, keys) == req.(extra := flags, namespace := Get(flags, "namespace"))
  {
    assert map[] + (map k | k in keys :: Get(flags, k)) == flags;
  }

  // ---------------------------------------------------------------- any command line

  /** The last value given for a key. */
  function LastValue(flags: seq<string>, k: string): Option<string>
  {
    if |flags| < 2 then None
    else
      var later := LastValue(flags[2..], k);
      if later.Some? then later else if flags[0] == "--" + k then Some(flags[1]) else None
  }

  function Or<T>(x: Option<T>, y: T): T {
    if x.Some? then x.value else y
  }

  lemma FlagName(key: string)
    requires IsFlag(key)
    ensures forall k :: key == "--" + k <==> key[2..] == k
  {
    assert key == "--" + key[2..];
    forall k ensures key == "--" + k <==> key[2..] == k { assert ("--" + k)[2..] == k; }
  }

  /** Whatever the command line, each field of a request that is read holds the last value given for its flag ... */
  lemma {:induction false} LastValueWins(ds: Durations, req: Request, flags: seq<string>)
    requires ReadFlags(ds, req, flags).Some?
    ensures var r := ReadFlags(ds, req, flags).value;
            && r.name == req.name && r.fact == req.fact
            && r.typeName == Or(LastValue(flags, "type"), req.typeName)
            && r.derive == Or(LastValue(flags, "derive"), req.derive)
            && r.namespace == Or(LastValue(flags, "namespace"), req.namespace)
            && (LastValue(flags, "window").None? ==> r.window == req.window)
            && (LastValue(flags, "window").Some? ==> ds.parse(LastValue(flags, "window").value) == Some(r.window) && r.window > 0)
    decreases |flags|
  {
    if |flags| >= 2 {
      FlagName(flags[0]);
      LastValueWins(ds, ReadFlag(ds, req, flags[0], flags[1]).value, flags[2..]);
    }
  }

  /** ... and every other flag is kept under its own name, with its last value. */
  lemma {:induction false} OthersKept(ds: Durations, req: Request, flags: seq<string>, k: string)
    requires ReadFlags(ds, req, flags).Some?
    ensures var extra := ReadFlags(ds, req, flags).value.extra;
            if k !in RESERVED && LastValue(flags, k).Some? then k in extra && extra[k] == LastValue(flags, k).value
            else (k in extra <==> k in req.extra) && (k in extra ==> extra[k] == req.extra[k])
    decreases |flags|
  {
    if |flags| >= 2 {
      FlagName(flags[0]);
      OthersKept(ds, ReadFlag(ds, req, flags[0], flags[1]).value, flags[2..], k);
    }
  }

  /** A command line is refused exactly for something that is no flag where one belongs, or a bad window. */
  predicate Readable(ds: Durations, key: string, val: string) {
    IsFlag(key) && (key == "--window" ==> ds.parse(val).Some? && ds.parse(val).value > 0)
  }

  lemma {:induction false} RefusedOnlyFor(ds: Durations, req: Request, flags: seq<string>)
    ensures ReadFlags(ds, req, flags).Some? <==>
            forall i :: 0 <= i < |flags| / 2 ==> Readable(ds, flags[2 * i], flags[2 * i + 1])
    decreases |flags|
  {
    if |flags| >= 2 {
      var rest := flags[2..];
      var first := ReadFlag(ds, req, flags[0], flags[1]);
      assert first.Some? <==> Readable(ds, flags[0], flags[1]) by {
        if IsFlag(flags[0]) { assert flags[0] == "--" + flags[0][2..]; }
      }
      if first.Some? { RefusedOnlyFor(ds, first.value, rest); }
      if ReadFlags(ds, req, flags).Some? {
        forall i | 0 <= i < |flags| / 2 ensures Readable(ds, flags[2 * i], flags[2 * i + 1]) {
          if i > 0 { assert Readable(ds, rest[2 * (i - 1)], rest[2 * (i - 1) + 1]); }
        }
      }
      if forall i :: 0 <= i < |flags| / 2 ==> Readable(ds, flags[2 * i], flags[2 * i + 1]) {
        assert Readable(ds, flags[2 * 0], flags[2 * 0 + 1]);
        forall i | 0 <= i < |rest| / 2 ensures Readable(ds, rest[2 * i], rest[2 * i + 1]) {
          assert Readable(ds, flags[2 * (i + 1)], flags[2 * (i + 1) + 1]);
        }
      }
    }
  }
}
