/** The recursive-descent parser of predicates, over tokens. */
module Parser {
  import opened Expr

  type Tokens = seq<string>

  datatype Parsed = Parsed(node: Node, end: nat) | Rejected

  // ---------------------------------------------------------------- tokens

  function OpOf(tok: string): Option<Op> {
    if tok == "==" then Some(Eq)
    else if tok == "!=" then Some(Neq)
    else if tok == "<" then Some(Lt)
    else if tok == ">" then Some(Gt)
    else if tok == "<=" then Some(Lte)
    else if tok == ">=" then Some(Gte)
    else None
  }

  function OpToken(op: Op): string {
    match op
    case Eq => "=="
    case Neq => "!="
    case Lt => "<"
    case Gt => ">"
    case Lte => "<="
    case Gte => ">="
  }

  /** A token that cannot name a fact. */
  predicate Operator(tok: string) {
    OpOf(tok).Some? || tok in ["&", "|", "(", ")"]
  }

  /** What comes before the first dot, and after; no component when there is none. */
  function SplitRef(tok: string): (string, string) {
    if '.' in tok then (tok[..DotAt(tok)], tok[DotAt(tok) + 1..]) else ("", tok)
  }

  function DotAt(s: string): (i: nat)
    requires '.' in s
    ensures i < |s| && s[i] == '.' && '.' !in s[..i]
  {
    if s[0] == '.' then 0
    else
      assert s == [s[0]] + s[1..];
      var i := DotAt(s[1..]);
      assert s[..1 + i] == [s[0]] + s[1..][..i];
      1 + i
  }

  // ---------------------------------------------------------------- the grammar

  /** ref cmp value, where a value is any one token. */
  ghost predicate IsCmp(infer: string -> Value, n: Node, ts: Tokens) {
    && |ts| == 3 && !Operator(ts[0]) && OpOf(ts[1]).Some?
    && n == Cmp(SplitRef(ts[0]).0, SplitRef(ts[0]).1, OpOf(ts[1]).value, infer(ts[2]))
  }

  /** primary = "(" expr ")" | ref cmp value */
  ghost predicate IsPrimary(infer: string -> Value, n: Node, ts: Tokens)
    decreases |ts|, 0
  {
    || IsCmp(infer, n, ts)
    || (|ts| >= 2 && ts[0] == "(" && ts[|ts| - 1] == ")" && IsOr(infer, n, ts[1..|ts| - 1]))
  }

  /** and = primary ("&" primary)*, grouping to the left */
  ghost predicate IsAnd(infer: string -> Value, n: Node, ts: Tokens)
    decreases |ts|, 1
  {
    || IsPrimary(infer, n, ts)
    || (n.And? && exists k :: 0 <= k < |ts| && ts[k] == "&" && IsAnd(infer, n.l, ts[..k]) && IsPrimary(infer, n.r, ts[k + 1..]))
  }

  /** or = and ("|" and)*, grouping to the left */
  ghost predicate IsOr(infer: string -> Value, n: Node, ts: Tokens)
    decreases |ts|, 2
  {
    || IsAnd(infer, n, ts)
    || (n.Or? && exists k :: 0 <= k < |ts| && ts[k] == "|" && IsOr(infer, n.l, ts[..k]) && IsAnd(infer, n.r, ts[k + 1..]))
  }

  // ---------------------------------------------------------------- what the parser does, as functions

  function CmpAt(infer: string -> Value, ts: Tokens, i: nat): (r: Parsed)
    ensures r.Parsed? ==> i < r.end <= |ts|
  {
    if i + 3 <= |ts| && !Operator(ts[i]) && OpOf(ts[i + 1]).Some?
    then Parsed(Cmp(SplitRef(ts[i]).0, SplitRef(ts[i]).1, OpOf(ts[i + 1]).value, infer(ts[i + 2])), i + 3)
    else Rejected
  }

  function PrimaryAt(infer: string -> Value, ts: Tokens, i: nat): (r: Parsed)
    requires i <= |ts|
    ensures r.Parsed? ==> i < r.end <= |ts|
    decreases |ts| - i, 0
  {
    if i == |ts| then Rejected
    else if ts[i] == "(" then
      var inner := OrAt(infer, ts, i + 1);
      if inner.Rejected? || inner.end == |ts| || ts[inner.end] != ")" then Rejected else Parsed(inner.node, inner.end + 1)
    else CmpAt(infer, ts, i)
  }

  function AndAt(infer: string -> Value, ts: Tokens, i: nat): (r: Parsed)
    requires i <= |ts|
    ensures r.Parsed? ==> i < r.end <= |ts|
    decreases |ts| - i, 1
  {
    var first := PrimaryAt(infer, ts, i);
    if first.Rejected? then Rejected else MoreAnd(infer, ts, first.node, first.end)
  }

  /** The loop of parseAnd, with what has been parsed to the left. */
  function MoreAnd(infer: string -> Value, ts: Tokens, left: Node, i: nat): (r: Parsed)
    requires i <= |ts|
    ensures r.Parsed? ==> i <= r.end <= |ts|
    decreases |ts| - i, 0
  {
    if i == |ts| || ts[i] != "&" then Parsed(left, i)
    else
      var right := PrimaryAt(infer, ts, i + 1);
      if right.Rejected? then Rejected else MoreAnd(infer, ts, And(left, right.node), right.end)
  }

  function OrAt(infer: string -> Value, ts: Tokens, i: nat): (r: Parsed)
    requires i <= |ts|
    ensures r.Parsed? ==> i < r.end <= |ts|
    decreases |ts| - i, 2
  {
    var first := AndAt(infer, ts, i);
    if first.Rejected? then Rejected else MoreOr(infer, ts, first.node, first.end)
  }

  /** The loop of parseOr. */
  function MoreOr(infer: string -> Value, ts: Tokens, left: Node, i: nat): (r: Parsed)
    requires i <= |ts|
    ensures r.Parsed? ==> i <= r.end <= |ts|
    decreases |ts| - i, 0
  {
    if i == |ts| || ts[i] != "|" then Parsed(left, i)
    else
      var right := AndAt(infer, ts, i + 1);
      if right.Rejected? then Rejected else MoreOr(infer, ts, Or(left, right.node), right.end)
  }

  // ---------------------------------------------------------------- the parser

  class TokenParser {
    const infer: string -> Value
    const tokens: Tokens
    var pos: nat

    constructor (infer: string -> Value, tokens: Tokens)
      ensures this.infer == infer && this.tokens == tokens && pos == 0
    {
      this.infer, this.tokens, pos := infer, tokens, 0;
    }

    /** The method's result is the function's, and the position is past what was read. */
    ghost predicate Read(n: Option<Node>, r: Parsed)
      reads this
    {
      pos <= |tokens| && if r.Parsed? then n == Some(r.node) && pos == r.end else n == None
    }

    method ParseCmp() returns (n: Option<Node>)
      requires pos <= |tokens|
      modifies this`pos
      ensures Read(n, CmpAt(infer, tokens, old(pos)))
    {
      if pos >= |tokens| { return None; }
      var name := tokens[pos];
      if Operator(name) { return None; }
      pos := pos + 1;
      var (component, fact) := SplitRef(name);
      if pos >= |tokens| { return None; }
      var op := OpOf(tokens[pos]);
      if op.None? { return None; }
      pos := pos + 1;
      if pos >= |tokens| { return None; }
      var value := infer(tokens[pos]);
      pos := pos + 1;
      return Some(Cmp(component, fact, op.value, value));
    }

    method ParsePrimary() returns (n: Option<Node>)
      requires pos <= |tokens|
      modifies this`pos
      ensures Read(n, PrimaryAt(infer, tokens, old(pos)))
      decreases |tokens| - pos, 0
    {
      if pos >= |tokens| { return None; }
      if tokens[pos] == "(" {
        pos := pos + 1;
        var inner := ParseOr();
        if inner.None? || pos >= |tokens| || tokens[pos] != ")" { return None; }
        pos := pos + 1;
        return inner;
      }
      n := ParseCmp();
    }

    method ParseAnd() returns (n: Option<Node>)
      requires pos <= |tokens|
      modifies this`pos
      ensures Read(n, AndAt(infer, tokens, old(pos)))
      decreases |tokens| - pos, 1
    {
      var left := ParsePrimary();
      if left.None? { return None; }
      while pos < |tokens| && tokens[pos] == "&"
        invariant old(pos) < pos <= |tokens| && left.Some?
        invariant AndAt(infer, tokens, old(pos)) == MoreAnd(infer, tokens, left.value, pos)
        decreases |tokens| - pos
      {
        pos := pos + 1;
        var right := ParsePrimary();
        if right.None? { return None; }
        left := Some(And(left.value, right.value));
      }
      return left;
    }

    method ParseOr() returns (n: Option<Node>)
      requires pos <= |tokens|
      modifies this`pos
      ensures Read(n, OrAt(infer, tokens, old(pos)))
      decreases |tokens| - pos, 2
    {
      var left := ParseAnd();
      if left.None? { return None; }
      while pos < |tokens| && tokens[pos] == "|"
        invariant old(pos) < pos <= |tokens| && left.Some?
        invariant OrAt(infer, tokens, old(pos)) == MoreOr(infer, tokens, left.value, pos)
        decreases |tokens| - pos
      {
        pos := pos + 1;
        var right := ParseAnd();
        if right.None? { return None; }
        left := Some(Or(left.value, right.value));
      }
      return left;
    }
  }

  // ---------------------------------------------------------------- it accepts the grammar

  lemma Slice(ts: Tokens, i: nat, j: nat, a: nat, b: nat)
    requires i <= j <= |ts| && a <= b <= j - i
    ensures ts[i..j][a..b] == ts[i + a..i + b]
  {
    var x, y := ts[i..j][a..b], ts[i + a..i + b];
    assert |x| == |y|;
    forall k | 0 <= k < |x| ensures x[k] == y[k] { assert x[k] == ts[i..j][a + k]; }
  }

  /** Reading a primary from i ends exactly where it does; an and or an or goes on in its loop from there. */
  lemma {:induction false} ReadsPrimary(infer: string -> Value, ts: Tokens, i: nat, j: nat, n: Node)
    requires i <= j <= |ts| && IsPrimary(infer, n, ts[i..j])
    ensures PrimaryAt(infer, ts, i) == Parsed(n, j)
    decreases j - i, 0
  {
    var part := ts[i..j];
    if IsCmp(infer, n, part) {
      assert part[0] == ts[i] && part[1] == ts[i + 1] && part[2] == ts[i + 2];
    } else {
      assert part[0] == ts[i] && part[|part| - 1] == ts[j - 1];
      Slice(ts, i, j, 1, j - i - 1);
      ReadsOr(infer, ts, i + 1, j - 1, n);
    }
  }

  lemma {:induction false} ReadsAnd(infer: string -> Value, ts: Tokens, i: nat, j: nat, n: Node)
    requires i <= j <= |ts| && IsAnd(infer, n, ts[i..j])
    ensures AndAt(infer, ts, i) == MoreAnd(infer, ts, n, j)
    decreases j - i, 1
  {
    hide IsAnd, IsPrimary, AndAt, PrimaryAt, MoreAnd;
    if IsPrimary(infer, n, ts[i..j]) {
      ReadsPrimary(infer, ts, i, j, n);
      AndStarts(infer, ts, i, n, j);
    } else {
      var k := AndSplits(infer, n, ts[i..j]);
      Joined(ts, i, i + k, j);
      ReadsAnd(infer, ts, i, i + k, n.l);
      ReadsPrimary(infer, ts, i + k + 1, j, n.r);
      AndGoesOn(infer, ts, n.l, i + k, n.r, j);
    }
  }

  lemma {:induction false} ReadsOr(infer: string -> Value, ts: Tokens, i: nat, j: nat, n: Node)
    requires i <= j <= |ts| && IsOr(infer, n, ts[i..j]) && (j < |ts| ==> ts[j] != "&")
    ensures OrAt(infer, ts, i) == MoreOr(infer, ts, n, j)
    decreases j - i, 2
  {
    hide IsOr, IsAnd, OrAt, AndAt, MoreAnd, MoreOr;
    if IsAnd(infer, n, ts[i..j]) {
      ReadsAnd(infer, ts, i, j, n);
      OrStarts(infer, ts, i, n, j);
    } else {
      var k := OrSplits(infer, n, ts[i..j]);
      Joined(ts, i, i + k, j);
      ReadsOr(infer, ts, i, i + k, n.l);
      ReadsAnd(infer, ts, i + k + 1, j, n.r);
      OrGoesOn(infer, ts, n.l, i + k, n.r, j);
    }
  }

  lemma AndSplits(infer: string -> Value, n: Node, part: Tokens) returns (k: nat)
    requires IsAnd(infer, n, part) && !IsPrimary(infer, n, part)
    ensures n.And? && k < |part| && part[k] == "&" && IsAnd(infer, n.l, part[..k]) && IsPrimary(infer, n.r, part[k + 1..])
  {
    k :| 0 <= k < |part| && part[k] == "&" && IsAnd(infer, n.l, part[..k]) && IsPrimary(infer, n.r, part[k + 1..]);
  }

  lemma OrSplits(infer: string -> Value, n: Node, part: Tokens) returns (k: nat)
    requires IsOr(infer, n, part) && !IsAnd(infer, n, part)
    ensures n.Or? && k < |part| && part[k] == "|" && IsOr(infer, n.l, part[..k]) && IsAnd(infer, n.r, part[k + 1..])
  {
    k :| 0 <= k < |part| && part[k] == "|" && IsOr(infer, n.l, part[..k]) && IsAnd(infer, n.r, part[k + 1..]);
  }

  lemma AndStarts(infer: string -> Value, ts: Tokens, i: nat, n: Node, j: nat)
    requires i < j <= |ts| && PrimaryAt(infer, ts, i) == Parsed(n, j)
    ensures AndAt(infer, ts, i) == MoreAnd(infer, ts, n, j)
  {}

  lemma OrStarts(infer: string -> Value, ts: Tokens, i: nat, n: Node, j: nat)
    requires i <= j <= |ts| && AndAt(infer, ts, i) == MoreAnd(infer, ts, n, j) && (j < |ts| ==> ts[j] != "&")
    ensures OrAt(infer, ts, i) == MoreOr(infer, ts, n, j)
  {}

  lemma OrGoesOn(infer: string -> Value, ts: Tokens, left: Node, i: nat, right: Node, j: nat)
    requires i < j <= |ts| && ts[i] == "|" && (j < |ts| ==> ts[j] != "&")
    requires AndAt(infer, ts, i + 1) == MoreAnd(infer, ts, right, j)
    ensures MoreOr(infer, ts, left, i) == MoreOr(infer, ts, Or(left, right), j)
  {}

  lemma AndGoesOn(infer: string -> Value, ts: Tokens, left: Node, i: nat, right: Node, j: nat)
    requires i < j <= |ts| && ts[i] == "&" && PrimaryAt(infer, ts, i + 1) == Parsed(right, j)
    ensures MoreAnd(infer, ts, left, i) == MoreAnd(infer, ts, And(left, right), j)
  {}

  // ---------------------------------------------------------------- and nothing else

  lemma {:induction false} PrimaryIsOne(infer: string -> Value, ts: Tokens, i: nat)
    requires i <= |ts|
    ensures var r := PrimaryAt(infer, ts, i);
            r.Parsed? ==> IsPrimary(infer, r.node, ts[i..r.end])
    decreases |ts| - i, 0
  {
    var r := PrimaryAt(infer, ts, i);
    if r.Parsed? {
      var part := ts[i..r.end];
      assert part[0] == ts[i] && part[|part| - 1] == ts[r.end - 1];
      if ts[i] == "(" {
        OrIsOne(infer, ts, i + 1);
        Slice(ts, i, r.end, 1, |part| - 1);
      }
    }
  }

  lemma {:induction false} AndIsOne(infer: string -> Value, ts: Tokens, i: nat)
    requires i <= |ts|
    ensures var r := AndAt(infer, ts, i);
            r.Parsed? ==> IsAnd(infer, r.node, ts[i..r.end])
    decreases |ts| - i, 1
  {
    PrimaryIsOne(infer, ts, i);
    var first := PrimaryAt(infer, ts, i);
    if first.Parsed? { MoreAndIsOne(infer, ts, i, first.node, first.end); }
  }

  lemma {:induction false} MoreAndIsOne(infer: string -> Value, ts: Tokens, s: nat, left: Node, i: nat)
    requires s < i <= |ts| && IsAnd(infer, left, ts[s..i])
    ensures var r := MoreAnd(infer, ts, left, i);
            r.Parsed? ==> IsAnd(infer, r.node, ts[s..r.end])
    decreases |ts| - i, 0
  {
    if i < |ts| && ts[i] == "&" {
      PrimaryIsOne(infer, ts, i + 1);
      var right := PrimaryAt(infer, ts, i + 1);
      if right.Parsed? {
        Joined(ts, s, i, right.end);
        MoreAndIsOne(infer, ts, s, And(left, right.node), right.end);
      }
    }
  }

  lemma {:induction false} OrIsOne(infer: string -> Value, ts: Tokens, i: nat)
    requires i <= |ts|
    ensures var r := OrAt(infer, ts, i);
            r.Parsed? ==> IsOr(infer, r.node, ts[i..r.end])
    decreases |ts| - i, 2
  {
    AndIsOne(infer, ts, i);
    var first := AndAt(infer, ts, i);
    if first.Parsed? { MoreOrIsOne(infer, ts, i, first.node, first.end); }
  }

  lemma {:induction false} MoreOrIsOne(infer: string -> Value, ts: Tokens, s: nat, left: Node, i: nat)
    requires s < i <= |ts| && IsOr(infer, left, ts[s..i])
    ensures var r := MoreOr(infer, ts, left, i);
            r.Parsed? ==> IsOr(infer, r.node, ts[s..r.end])
    decreases |ts| - i, 0
  {
    if i < |ts| && ts[i] == "|" {
      AndIsOne(infer, ts, i + 1);
      var right := AndAt(infer, ts, i + 1);
      if right.Parsed? {
        Joined(ts, s, i, right.end);
        MoreOrIsOne(infer, ts, s, Or(left, right.node), right.end);
      }
    }
  }

  /** A part splits at i into what comes before, the token there and what comes after. */
  lemma Joined(ts: Tokens, s: nat, i: nat, j: nat)
    requires s <= i < j <= |ts|
    ensures var part := ts[s..j];
            part[i - s] == ts[i] && part[..i - s] == ts[s..i] && part[i - s + 1..] == ts[i + 1..j]
  {}

  /** Parse: the predicate a token sequence stands for in the grammar; none when it stands for none. */
  method Parse(infer: string -> Value, tokens: Tokens) returns (r: Option<Node>)
    ensures forall n :: r == Some(n) <==> IsOr(infer, n, tokens)
  {
    var p := new TokenParser(infer, tokens);
    var node := p.ParseOr();
    OrIsOne(infer, tokens, 0);
    assert tokens[0..|tokens|] == tokens;
    forall n | IsOr(infer, n, tokens) ensures OrAt(infer, tokens, 0) == Parsed(n, |tokens|) {
      ReadsOr(infer, tokens, 0, |tokens|, n);
    }
    if node.None? || p.pos < |tokens| { return None; }
    return node;
  }

  /** The grammar gives a token sequence one meaning. */
  lemma {:induction false} Unambiguous(infer: string -> Value, ts: Tokens, m: Node, n: Node)
    requires IsOr(infer, m, ts) && IsOr(infer, n, ts)
    ensures m == n
  {
    assert ts[0..|ts|] == ts;
    ReadsOr(infer, ts, 0, |ts|, m);
    ReadsOr(infer, ts, 0, |ts|, n);
  }

  // ---------------------------------------------------------------- what the signs mean

  /** Nothing shorter than a comparison is a predicate. */
  lemma {:induction false} ThreeTokens(infer: string -> Value, n: Node, ts: Tokens)
    ensures IsPrimary(infer, n, ts) || IsAnd(infer, n, ts) || IsOr(infer, n, ts) ==> |ts| >= 3
    decreases |ts|
  {
    if IsPrimary(infer, n, ts) {
      if |ts| >= 2 { ThreeTokens(infer, n, ts[1..|ts| - 1]); }
    } else if IsAnd(infer, n, ts) {
      var k := AndSplits(infer, n, ts);
      ThreeTokens(infer, n.l, ts[..k]);
    } else if IsOr(infer, n, ts) {
      var k := OrSplits(infer, n, ts);
      ThreeTokens(infer, n.l, ts[..k]);
    }
  }

  lemma {:induction false} OnlyComparison(infer: string -> Value, n: Node, ts: Tokens)
    requires |ts| == 3
    ensures IsOr(infer, n, ts) <==> IsCmp(infer, n, ts)
  {
    hide IsCmp;
    RankUp(infer, n, ts);
    if IsOr(infer, n, ts) && !IsAnd(infer, n, ts) {
      var k := OrSplits(infer, n, ts);
      ThreeTokens(infer, n.l, ts[..k]);
    } else if IsAnd(infer, n, ts) && !IsPrimary(infer, n, ts) {
      var k := AndSplits(infer, n, ts);
      ThreeTokens(infer, n.l, ts[..k]);
    } else if IsPrimary(infer, n, ts) && !IsCmp(infer, n, ts) {
      ThreeTokens(infer, n, ts[1..2]);
    }
  }

  /** Three tokens are a predicate only as a comparison: of the fact after the first dot, of the component before it, or of the
      whole name when it has none; with the operator its sign stands for; with the value of the last. */
  lemma {:induction false} ComparisonReads(infer: string -> Value, ref: string, sign: string, word: string, n: Node)
    ensures IsOr(infer, n, [ref, sign, word]) <==>
              && n.Cmp? && n.value == infer(word)
              && ref !in ["==", "!=", "<", ">", "<=", ">=", "&", "|", "(", ")"]
              && (match n.op
                  case Eq => sign == "=="
                  case Neq => sign == "!="
                  case Lt => sign == "<"
                  case Gt => sign == ">"
                  case Lte => sign == "<="
                  case Gte => sign == ">=")
              && if '.' !in ref then n.component == "" && n.fact == ref
                 else exists i :: 0 <= i < |ref| && ref[i] == '.' && '.' !in ref[..i] && n.component == ref[..i] && n.fact == ref[i + 1..]
  {
    hide IsOr, OpOf, Operator, SplitRef;
    OnlyComparison(infer, n, [ref, sign, word]);
    SignIs(n, sign);
    OperatorIs(ref);
    SplitsAt(ref);
  }

  lemma SignIs(n: Node, sign: string)
    ensures n.Cmp? ==> (OpOf(sign) == Some(n.op) <==>
              match n.op
              case Eq => sign == "=="
              case Neq => sign == "!="
              case Lt => sign == "<"
              case Gt => sign == ">"
              case Lte => sign == "<="
              case Gte => sign == ">=")
  {}

  lemma OperatorIs(tok: string)
    ensures Operator(tok) <==> tok in ["==", "!=", "<", ">", "<=", ">=", "&", "|", "(", ")"]
  {}

  lemma SplitsAt(ref: string)
    ensures '.' !in ref ==> SplitRef(ref) == ("", ref)
    ensures '.' in ref ==>
              exists i :: 0 <= i < |ref| && ref[i] == '.' && '.' !in ref[..i] && SplitRef(ref) == (ref[..i], ref[i + 1..])
    ensures forall i :: 0 <= i < |ref| && ref[i] == '.' && '.' !in ref[..i] ==> SplitRef(ref) == (ref[..i], ref[i + 1..])
  {
    forall i | 0 <= i < |ref| && ref[i] == '.' && '.' !in ref[..i] ensures DotAt(ref) == i { FirstDot(ref, i); }
    if '.' in ref { assert SplitRef(ref) == (ref[..DotAt(ref)], ref[DotAt(ref) + 1..]); }
  }

  /** Between three parts the sign for and binds closer than the sign for or, and each groups to the left. */
  lemma GroupsAs(infer: string -> Value, a: Node, b: Node, c: Node, ta: Tokens, tb: Tokens, tc: Tokens)
    requires IsPrimary(infer, a, ta) && IsPrimary(infer, b, tb) && IsPrimary(infer, c, tc)
    ensures forall n :: IsOr(infer, n, ta + ["|"] + (tb + ["&"] + tc)) <==> n == Or(a, And(b, c))
    ensures forall n :: IsOr(infer, n, (ta + ["&"] + tb) + ["|"] + tc) <==> n == Or(And(a, b), c)
    ensures forall n :: IsOr(infer, n, (ta + ["&"] + tb) + ["&"] + tc) <==> n == And(And(a, b), c)
    ensures forall n :: IsOr(infer, n, (ta + ["|"] + tb) + ["|"] + tc) <==> n == Or(Or(a, b), c)
  {
    hide IsOr, IsAnd, IsPrimary;
    RankUp(infer, a, ta);
    RankUp(infer, b, tb);
    RankUp(infer, c, tc);
    AndJoins(infer, a, b, ta, tb);
    AndJoins(infer, b, c, tb, tc);
    RankUp(infer, And(a, b), ta + ["&"] + tb);
    RankUp(infer, And(b, c), tb + ["&"] + tc);
    OrJoins(infer, a, And(b, c), ta, tb + ["&"] + tc);
    OrJoins(infer, And(a, b), c, ta + ["&"] + tb, tc);
    AndJoins(infer, And(a, b), c, ta + ["&"] + tb, tc);
    RankUp(infer, And(And(a, b), c), (ta + ["&"] + tb) + ["&"] + tc);
    OrJoins(infer, a, b, ta, tb);
    OrJoins(infer, Or(a, b), c, ta + ["|"] + tb, tc);
    forall n, m, ts | IsOr(infer, n, ts) && IsOr(infer, m, ts) ensures n == m { Unambiguous(infer, ts, n, m); }
  }

  // ---------------------------------------------------------------- there and back

  /** A comparison whose parts can be written down: its value reads back, its reference splits where it was joined. */
  predicate Writable(infer: string -> Value, show: Value -> string, n: Node) {
    match n
    case And(l, r) => Writable(infer, show, l) && Writable(infer, show, r)
    case Or(l, r) => Writable(infer, show, l) && Writable(infer, show, r)
    case Cmp(c, f, _, v) =>
      && infer(show(v)) == v && '.' !in c && (c == "" ==> '.' !in f) && !Operator(RefToken(c, f))
  }

  function RefToken(c: string, f: string): string {
    if c == "" then f else c + "." + f
  }

  function Bracketed(ts: Tokens): Tokens {
    ["("] + ts + [")"]
  }

  /** n as tokens, with parentheses only where it would group otherwise: around an or below an and, and around
      whatever stands to the right of an operator of its own rank. */
  function Written(show: Value -> string, n: Node): Tokens {
    match n
    case Or(l, r) =>
      Written(show, l) + ["|"] + (if r.Or? then Bracketed(Written(show, r)) else Written(show, r))
    case And(l, r) =>
      (if l.Or? then Bracketed(Written(show, l)) else Written(show, l)) + ["&"] +
      (if r.Cmp? then Written(show, r) else Bracketed(Written(show, r)))
    case Cmp(c, f, op, v) => [RefToken(c, f), OpToken(op), show(v)]
  }

  lemma RefSplits(c: string, f: string)
    requires '.' !in c && (c == "" ==> '.' !in f)
    ensures SplitRef(RefToken(c, f)) == (c, f)
  {
    var tok := RefToken(c, f);
    if c != "" {
      assert tok[|c|] == '.' && tok[..|c|] == c && tok[|c| + 1..] == f;
      FirstDot(tok, |c|);
    }
  }

  lemma {:induction false} FirstDot(s: string, i: nat)
    requires i < |s| && s[i] == '.' && '.' !in s[..i]
    ensures DotAt(s) == i
  {
    if i > 0 {
      assert s[..i][0] == s[0] && s[..i][1..] == s[1..][..i - 1];
      FirstDot(s[1..], i - 1);
    }
  }

  lemma OrJoins(infer: string -> Value, l: Node, r: Node, a: Tokens, b: Tokens)
    requires IsOr(infer, l, a) && IsAnd(infer, r, b)
    ensures IsOr(infer, Or(l, r), a + ["|"] + b)
  {
    var ts := a + ["|"] + b;
    assert ts[|a|] == "|" && ts[..|a|] == a && ts[|a| + 1..] == b;
  }

  lemma AndJoins(infer: string -> Value, l: Node, r: Node, a: Tokens, b: Tokens)
    requires IsAnd(infer, l, a) && IsPrimary(infer, r, b)
    ensures IsAnd(infer, And(l, r), a + ["&"] + b)
  {
    var ts := a + ["&"] + b;
    assert ts[|a|] == "&" && ts[..|a|] == a && ts[|a| + 1..] == b;
  }

  lemma BracketedIs(infer: string -> Value, n: Node, ts: Tokens)
    requires IsOr(infer, n, ts)
    ensures IsPrimary(infer, n, Bracketed(ts))
  {
    var b := Bracketed(ts);
    assert b[1..|b| - 1] == ts;
  }

  /** Every predicate that can be written down reads back from its tokens, at its own rank of the grammar. */
  lemma {:induction false} WrittenIs(infer: string -> Value, show: Value -> string, n: Node)
    requires Writable(infer, show, n)
    ensures IsOr(infer, n, Written(show, n))
    ensures !n.Or? ==> IsAnd(infer, n, Written(show, n))
    ensures n.Cmp? ==> IsPrimary(infer, n, Written(show, n))
  {
    hide IsOr, IsAnd, IsPrimary, IsCmp, Operator;
    RankUp(infer, n, Written(show, n));
    match n
    case Cmp(c, f, op, v) => CmpWritten(infer, show, n);
    case Or(l, r) =>
      WrittenIs(infer, show, l);
      WrittenIs(infer, show, r);
      if r.Or? {
        BracketedIs(infer, r, Written(show, r));
        RankUp(infer, r, Bracketed(Written(show, r)));
      }
      OrJoins(infer, l, r, Written(show, l), if r.Or? then Bracketed(Written(show, r)) else Written(show, r));
    case And(l, r) =>
      WrittenIs(infer, show, l);
      WrittenIs(infer, show, r);
      BracketedIs(infer, l, Written(show, l));
      BracketedIs(infer, r, Written(show, r));
      var a := if l.Or? then Bracketed(Written(show, l)) else Written(show, l);
      var b := if r.Cmp? then Written(show, r) else Bracketed(Written(show, r));
      RankUp(infer, l, a);
      AndJoins(infer, l, r, a, b);
  }

  lemma RankUp(infer: string -> Value, n: Node, ts: Tokens)
    ensures IsPrimary(infer, n, ts) ==> IsAnd(infer, n, ts)
    ensures IsAnd(infer, n, ts) ==> IsOr(infer, n, ts)
  {}

  lemma CmpWritten(infer: string -> Value, show: Value -> string, n: Node)
    requires Writable(infer, show, n) && n.Cmp?
    ensures IsPrimary(infer, n, Written(show, n))
  {
    RefSplits(n.component, n.fact);
  }

  /** Parsing what was written gives back exactly what was meant. */
  lemma {:induction false} WrittenReadsBack(infer: string -> Value, show: Value -> string, n: Node)
    requires Writable(infer, show, n)
    ensures forall m :: IsOr(infer, m, Written(show, n)) <==> m == n
  {
    WrittenIs(infer, show, n);
    forall m | IsOr(infer, m, Written(show, n)) ensures m == n { Unambiguous(infer, Written(show, n), m, n); }
  }
}
