/** From the text of a predicate to its tokens, and through the parser to its tree. */
module Lexer {
  import opened Expr
  import opened Parser

  /** Which characters are letters, digits and white space. */
  datatype Chars = Chars(letter: char -> bool, digit: char -> bool, space: char -> bool)

  const MARKS := "=!<>&|()\"_.-/"

  /** White space is no letter and no digit, a space is white space, and a mark of the language is none of the three. */
  ghost predicate Sane(cs: Chars) {
    && cs.space(' ')
    && (forall c :: cs.space(c) ==> !cs.letter(c) && !cs.digit(c))
    && forall c :: c in MARKS ==> !cs.letter(c) && !cs.digit(c) && !cs.space(c)
  }

  predicate ComparisonStart(c: char) {
    c == '=' || c == '!' || c == '<' || c == '>'
  }

  predicate Single(c: char) {
    c == '&' || c == '|' || c == '(' || c == ')'
  }

  predicate WordStart(cs: Chars, c: char) {
    cs.letter(c) || cs.digit(c) || c == '_'
  }

  predicate WordContinue(cs: Chars, c: char) {
    cs.letter(c) || cs.digit(c) || c == '_' || c == '.' || c == '-' || c == '/'
  }

  // ---------------------------------------------------------------- what a text says

  predicate IsWord(cs: Chars, t: string) {
    t != [] && (WordStart(cs, t[0]) || t[0] == '-') && forall i :: 0 <= i < |t| ==> WordContinue(cs, t[i])
  }

  predicate IsQuoted(t: string) {
    |t| >= 2 && t[0] == '"' && t[|t| - 1] == '"' && '"' !in t[1..|t| - 1]
  }

  predicate IsComparison(t: string) {
    (|t| == 1 && ComparisonStart(t[0])) || (|t| == 2 && ComparisonStart(t[0]) && t[1] == '=')
  }

  /** One token: a word, a quoted literal, a comparison sign, or a single mark. */
  predicate IsToken(cs: Chars, t: string) {
    IsWord(cs, t) || IsQuoted(t) || IsComparison(t) || (|t| == 1 && Single(t[0]))
  }

  /** t does not go on into rest. */
  predicate EndsBefore(cs: Chars, t: string, rest: string) {
    && (IsWord(cs, t) && rest != [] ==> !WordContinue(cs, rest[0]))
    && (IsComparison(t) && |t| == 1 && rest != [] ==> rest[0] != '=')
  }

  predicate Blank(cs: Chars, s: string) {
    forall i :: 0 <= i < |s| ==> cs.space(s[i])
  }

  /** s is the tokens ts in order, each as long as it can be, with nothing but white space around them. */
  ghost predicate Reads(cs: Chars, s: string, ts: Tokens)
    decreases |ts|
  {
    if ts == [] then Blank(cs, s)
    else exists gap: string, rest: string :: ReadsFirst(cs, s, gap, ts[0], rest) && Reads(cs, rest, ts[1..])
  }

  ghost predicate ReadsFirst(cs: Chars, s: string, gap: string, t: string, rest: string) {
    s == gap + t + rest && Blank(cs, gap) && IsToken(cs, t) && EndsBefore(cs, t, rest)
  }

  // ---------------------------------------------------------------- the scanner

  /** How many characters from the i-th on satisfy p, one after the other. */
  function Run(p: char -> bool, s: string, i: nat): (j: nat)
    requires i <= |s|
    ensures i <= j <= |s| && (forall k :: i <= k < j ==> p(s[k])) && (j < |s| ==> !p(s[j]))
    decreases |s| - i
  {
    if i < |s| && p(s[i]) then Run(p, s, i + 1) else i
  }

  /** Where the token at i ends; i itself when there is none. */
  function TokenEnd(cs: Chars, s: string, i: nat): (j: nat)
    requires i < |s|
    ensures i <= j <= |s|
  {
    var c := s[i];
    if ComparisonStart(c) then (if i + 1 < |s| && s[i + 1] == '=' then i + 2 else i + 1)
    else if Single(c) then i + 1
    else if c == '"' then
      var j := Run((d: char) => d != '"', s, i + 1);
      if j < |s| then j + 1 else i
    else if WordStart(cs, c) || c == '-' then Run((d: char) => WordContinue(cs, d), s, i)
    else i
  }

  function TokensFrom(cs: Chars, s: string, i: nat): Option<Tokens>
    requires i <= |s|
    decreases |s| - i
  {
    if i == |s| then Some([])
    else if cs.space(s[i]) then TokensFrom(cs, s, i + 1)
    else
      var j := TokenEnd(cs, s, i);
      if j == i then None
      else
        var more := TokensFrom(cs, s, j);
        if more.None? then None else Some([s[i..j]] + more.value)
  }

  lemma {:induction false} RunIs(p: char -> bool, s: string, i: nat, e: nat)
    requires i <= e <= |s| && (forall k :: i <= k < e ==> p(s[k])) && (e < |s| ==> !p(s[e]))
    ensures Run(p, s, i) == e
    decreases e - i
  {
    if i < e { RunIs(p, s, i + 1, e); }
  }

  // ---------------------------------------------------------------- the scanner reads what the text says

  /** A token is a sign or a mark; text in quotes, without one; or a word: of letters, digits, _, ., - and /, and not beginning
      with a dot or a slash. */
  lemma TokenIs(cs: Chars, t: string)
    ensures IsToken(cs, t) <==>
              || t in ["=", "!", "<", ">", "==", "!=", "<=", ">=", "&", "|", "(", ")"]
              || (exists body: string :: t == "\"" + body + "\"" && '"' !in body)
              || (t != "" && (cs.letter(t[0]) || cs.digit(t[0]) || t[0] in "_-") &&
                  forall c :: c in t ==> cs.letter(c) || cs.digit(c) || c in "_.-/")
  {
    if IsQuoted(t) { assert t == "\"" + t[1..|t| - 1] + "\""; }
    if body: string :| t == "\"" + body + "\"" && '"' !in body { assert t[1..|t| - 1] == body; }
    if |t| == 1 { assert t == [t[0]]; }
    if |t| == 2 { assert t == [t[0], t[1]]; }
    assert forall i :: 0 <= i < |t| ==> t[i] in t;
  }

  lemma TokenStarts(cs: Chars, t: string)
    requires Sane(cs) && IsToken(cs, t)
    ensures t != [] && !cs.space(t[0])
  {
    assert forall c :: c in ['=', '!', '<', '>', '&', '|', '(', ')', '"', '_', '-'] ==> c in MARKS;
  }

  /** What kind of token begins with a character. */
  lemma KindOf(cs: Chars, t: string)
    requires Sane(cs) && IsToken(cs, t)
    ensures var c := t[0];
            && (ComparisonStart(c) ==> IsComparison(t)) && (Single(c) ==> |t| == 1) && (c == '"' ==> IsQuoted(t))
            && (!ComparisonStart(c) && !Single(c) && c != '"' ==> IsWord(cs, t))
            && (IsWord(cs, t) ==> !ComparisonStart(c) && !Single(c) && c != '"')
  {
    assert forall c :: c in ['=', '!', '<', '>', '&', '|', '(', ')', '"'] ==> c in MARKS;
  }

  lemma NoWordMark(cs: Chars, c: char)
    requires Sane(cs) && (ComparisonStart(c) || Single(c) || c == '"')
    ensures !WordContinue(cs, c) && !WordStart(cs, c)
  {
    assert c in MARKS;
  }

  /** A token that ends where it cannot go on is the one the scanner takes. */
  lemma {:induction false} TakesAll(cs: Chars, s: string, i: nat, t: string, rest: string)
    requires Sane(cs) && i < |s| && s[i..] == t + rest && IsToken(cs, t) && EndsBefore(cs, t, rest)
    ensures TokenEnd(cs, s, i) == i + |t|
  {
    TokenStarts(cs, t);
    KindOf(cs, t);
    var e := i + |t|;
    assert forall k :: 0 <= k < |t| ==> s[i + k] == s[i..][k] == t[k];
    assert e < |s| ==> s[e] == s[i..][|t|] == rest[0];
    if IsWord(cs, t) {
      forall k | i <= k < e ensures WordContinue(cs, s[k]) { assert s[k] == t[k - i]; }
      RunIs((d: char) => WordContinue(cs, d), s, i, e);
    } else if t[0] == '"' {
      forall k | i + 1 <= k < e - 1 ensures s[k] != '"' { assert s[k] == t[k - i] == t[1..|t| - 1][k - i - 1]; }
      assert s[e - 1] == t[|t| - 1];
      RunIs((d: char) => d != '"', s, i + 1, e - 1);
    } else if ComparisonStart(t[0]) && |t| == 2 {
      assert s[i + 1] == t[1];
    }
  }

  /** What the scanner takes is a token, and ends where it cannot go on. */
  lemma {:induction false} TakesToken(cs: Chars, s: string, i: nat)
    requires Sane(cs) && i < |s| && TokenEnd(cs, s, i) > i
    ensures var j := TokenEnd(cs, s, i); IsToken(cs, s[i..j]) && EndsBefore(cs, s[i..j], s[j..])
  {
    var c, j := s[i], TokenEnd(cs, s, i);
    var t := s[i..j];
    assert t[0] == c && forall k :: 0 <= k < |t| ==> t[k] == s[i + k];
    if ComparisonStart(c) || Single(c) || c == '"' {
      NoWordMark(cs, c);
      if c == '"' { assert t[1..|t| - 1] == s[i + 1..j - 1]; }
    } else {
      assert IsWord(cs, t);
      assert j < |s| ==> !WordContinue(cs, s[j]);
    }
  }

  lemma FirstChar(gap: string, t: string, rest: string)
    ensures gap != [] ==> (gap + t + rest)[0] == gap[0]
    ensures gap == [] && t != [] ==> (gap + t + rest)[0] == t[0]
  {}

  /** Without white space in front there is no gap. */
  lemma NoGap(cs: Chars, s: string, gap: string, t: string, rest: string)
    requires s != [] && !cs.space(s[0]) && ReadsFirst(cs, s, gap, t, rest)
    ensures gap == [] && s == t + rest
  {
    FirstChar(gap, t, rest);
    assert gap == [] ==> gap + t + rest == t + rest;
  }

  lemma OneWay(cs: Chars, s: string, i: nat, gap: string, t: string, rest: string)
    requires Sane(cs) && i < |s| && !cs.space(s[i]) && ReadsFirst(cs, s[i..], gap, t, rest)
    ensures var j := TokenEnd(cs, s, i); j > i && t == s[i..j] && rest == s[j..]
  {
    NoGap(cs, s[i..], gap, t, rest);
    TokenStarts(cs, t);
    TakesAll(cs, s, i, t, rest);
    var part := s[i..];
    assert part[..|t|] == t && part[|t|..] == rest;
  }

  /** A text that begins with a token reads as that token and then as what is left. */
  lemma {:induction false} ReadsToken(cs: Chars, s: string, i: nat, ts: Tokens)
    requires Sane(cs) && i < |s| && !cs.space(s[i])
    ensures var j := TokenEnd(cs, s, i);
            Reads(cs, s[i..], ts) <==> j > i && ts != [] && ts[0] == s[i..j] && Reads(cs, s[j..], ts[1..])
  {
    hide ReadsFirst;
    var j := TokenEnd(cs, s, i);
    if Reads(cs, s[i..], ts) {
      NotBlank(cs, s[i..]);
      var gap: string, rest: string :| ReadsFirst(cs, s[i..], gap, ts[0], rest) && Reads(cs, rest, ts[1..]);
      OneWay(cs, s, i, gap, ts[0], rest);
    }
    if j > i && ts != [] && ts[0] == s[i..j] && Reads(cs, s[j..], ts[1..]) {
      Begins(cs, s, i);
    }
  }

  lemma NotBlank(cs: Chars, s: string)
    requires s != [] && !cs.space(s[0])
    ensures !Blank(cs, s) && !Reads(cs, s, [])
  {}

  lemma Begins(cs: Chars, s: string, i: nat)
    requires Sane(cs) && i < |s| && TokenEnd(cs, s, i) > i
    ensures var j := TokenEnd(cs, s, i); ReadsFirst(cs, s[i..], [], s[i..j], s[j..])
  {
    var j := TokenEnd(cs, s, i);
    TakesToken(cs, s, i);
    assert s[i..] == [] + s[i..j] + s[j..];
  }

  lemma BlankOn(cs: Chars, s: string)
    requires s != [] && cs.space(s[0])
    ensures Blank(cs, s) <==> Blank(cs, s[1..])
  {
    if Blank(cs, s[1..]) {
      forall i | 0 <= i < |s| ensures cs.space(s[i]) { if i > 0 { assert s[i] == s[1..][i - 1]; } }
    }
  }

  lemma GapOn(cs: Chars, s: string, gap: string, t: string, rest: string)
    requires Sane(cs) && s != [] && cs.space(s[0]) && ReadsFirst(cs, s, gap, t, rest)
    ensures gap != [] && ReadsFirst(cs, s[1..], gap[1..], t, rest)
  {
    hide IsToken, EndsBefore;
    TokenStarts(cs, t);
    FirstChar(gap, t, rest);
    assert s[1..] == gap[1..] + t + rest;
  }

  lemma GapBack(cs: Chars, s: string, gap: string, t: string, rest: string)
    requires s != [] && cs.space(s[0]) && ReadsFirst(cs, s[1..], gap, t, rest)
    ensures ReadsFirst(cs, s, [s[0]] + gap, t, rest)
  {
    hide IsToken, EndsBefore;
    assert s == [s[0]] + s[1..];
    assert s == [s[0]] + gap + t + rest;
  }

  /** White space in front says nothing. */
  lemma {:induction false} ReadsOn(cs: Chars, s: string, ts: Tokens)
    requires Sane(cs) && s != [] && cs.space(s[0])
    ensures Reads(cs, s, ts) <==> Reads(cs, s[1..], ts)
  {
    hide ReadsFirst, Blank;
    BlankOn(cs, s);
    if ts != [] {
      if Reads(cs, s, ts) {
        var gap: string, rest: string :| ReadsFirst(cs, s, gap, ts[0], rest) && Reads(cs, rest, ts[1..]);
        GapOn(cs, s, gap, ts[0], rest);
      }
      if Reads(cs, s[1..], ts) {
        var gap: string, rest: string :| ReadsFirst(cs, s[1..], gap, ts[0], rest) && Reads(cs, rest, ts[1..]);
        GapBack(cs, s, gap, ts[0], rest);
      }
    }
  }

  lemma FirstLength(cs: Chars, s: string, gap: string, t: string, rest: string)
    requires Sane(cs) && ReadsFirst(cs, s, gap, t, rest)
    ensures |s| > 0
  {
    TokenStarts(cs, t);
  }

  lemma ReadsNothing(cs: Chars, ts: Tokens)
    requires Sane(cs)
    ensures Reads(cs, [], ts) <==> ts == []
  {
    hide ReadsFirst;
    if Reads(cs, [], ts) && ts != [] {
      var gap: string, rest: string :| ReadsFirst(cs, [], gap, ts[0], rest) && Reads(cs, rest, ts[1..]);
      FirstLength(cs, [], gap, ts[0], rest);
    }
  }

  /** The scanner finds the tokens a text reads as, and none where it reads as none. */
  lemma {:induction false} TokensMean(cs: Chars, s: string, i: nat, ts: Tokens)
    requires Sane(cs) && i <= |s|
    ensures TokensFrom(cs, s, i) == Some(ts) <==> Reads(cs, s[i..], ts)
    decreases |s| - i
  {
    hide Reads, TokenEnd;
    if i == |s| {
      assert s[i..] == [];
      ReadsNothing(cs, ts);
    } else if cs.space(s[i]) {
      ReadsOn(cs, s[i..], ts);
      assert s[i..][1..] == s[i + 1..];
      TokensMean(cs, s, i + 1, ts);
    } else {
      var j := TokenEnd(cs, s, i);
      ReadsToken(cs, s, i, ts);
      if j > i && ts != [] {
        TokensMean(cs, s, j, ts[1..]);
        assert ts == [ts[0]] + ts[1..];
      }
    }
  }

  // ---------------------------------------------------------------- the loop

  method Scan(p: char -> bool, s: string, i: nat) returns (j: nat)
    requires i <= |s|
    ensures j == Run(p, s, i)
  {
    j := i;
    while j < |s| && p(s[j])
      invariant i <= j <= |s| && Run(p, s, j) == Run(p, s, i)
    {
      j := j + 1;
    }
  }

  lemma Prepended(done: Tokens, t: string, more: Option<Tokens>)
    ensures more.Some? ==> done + ([t] + more.value) == done + [t] + more.value
  {}

  /** What TokensFrom gives beside what has been read. */
  function Beside(done: Tokens, more: Option<Tokens>): Option<Tokens> {
    if more.None? then None else Some(done + more.value)
  }

  lemma NothingDone(more: Option<Tokens>)
    ensures Beside([], more) == more
  {
    if more.Some? { assert [] + more.value == more.value; }
  }

  /** The loop over the text: white space, and a token at a time. */
  method Tokenize(cs: Chars, s: string) returns (r: Option<Tokens>)
    requires Sane(cs)
    ensures forall ts :: r == Some(ts) <==> Reads(cs, s, ts)
  {
    var tokens: Tokens := [];
    var i := 0;
    NothingDone(TokensFrom(cs, s, 0));
    forall ts ensures TokensFrom(cs, s, 0) == Some(ts) <==> Reads(cs, s, ts) {
      assert s[0..] == s;
      TokensMean(cs, s, 0, ts);
    }
    while i < |s|
      invariant i <= |s| && Beside(tokens, TokensFrom(cs, s, i)) == TokensFrom(cs, s, 0)
      decreases |s| - i
    {
      hide Reads;
      var c := s[i];
      var j := i;
      if cs.space(c) {
        i := i + 1;
        continue;
      } else if ComparisonStart(c) {
        j := if i + 1 < |s| && s[i + 1] == '=' then i + 2 else i + 1;
      } else if Single(c) {
        j := i + 1;
      } else if c == '"' {
        j := Scan((d: char) => d != '"', s, i + 1);
        if j >= |s| { return None; }
        j := j + 1;
      } else if WordStart(cs, c) || c == '-' {
        j := Scan((d: char) => WordContinue(cs, d), s, i);
      } else {
        return None;
      }
      assert j == TokenEnd(cs, s, i);
      Prepended(tokens, s[i..j], TokensFrom(cs, s, j));
      tokens := tokens + [s[i..j]];
      i := j;
    }
    assert tokens + [] == tokens;
    return Some(tokens);
  }

  /** A text stands for one sequence of tokens at most. */
  lemma {:induction false} ReadsOneWay(cs: Chars, s: string, a: Tokens, b: Tokens)
    requires Sane(cs) && Reads(cs, s, a) && Reads(cs, s, b)
    ensures a == b
  {
    hide Reads;
    assert s[0..] == s;
    TokensMean(cs, s, 0, a);
    TokensMean(cs, s, 0, b);
  }

  /** The text s stands for the predicate n. */
  ghost predicate Means(cs: Chars, infer: string -> Value, s: string, n: Node) {
    exists ts :: Reads(cs, s, ts) && IsOr(infer, n, ts)
  }

  /** Parse, from text: the predicate the text stands for; none when it is no sequence of tokens, or not one of the
      grammar. */
  method ParseText(cs: Chars, infer: string -> Value, s: string) returns (r: Option<Node>)
    requires Sane(cs)
    ensures forall n :: r == Some(n) <==> Means(cs, infer, s, n)
  {
    hide Reads, IsOr;
    var tokens := Tokenize(cs, s);
    if tokens.None? { return None; }
    assert Reads(cs, s, tokens.value);
    forall ts | Reads(cs, s, ts) ensures ts == tokens.value {}
    r := Parse(infer, tokens.value);
  }

  // ---------------------------------------------------------------- there and back, in text

  /** The tokens one after the other, with a space before each. */
  function Spaced(ts: Tokens): string {
    if ts == [] then [] else " " + ts[0] + Spaced(ts[1..])
  }

  lemma {:induction false} SpacedReads(cs: Chars, ts: Tokens)
    requires Sane(cs) && forall i :: 0 <= i < |ts| ==> IsToken(cs, ts[i])
    ensures Reads(cs, Spaced(ts), ts)
  {
    hide IsToken, EndsBefore;
    if ts != [] {
      SpacedReads(cs, ts[1..]);
      SpaceEnds(cs, ts[0], ts[1..]);
      assert ReadsFirst(cs, Spaced(ts), " ", ts[0], Spaced(ts[1..]));
    }
  }

  lemma SpaceEnds(cs: Chars, t: string, more: Tokens)
    requires Sane(cs)
    ensures EndsBefore(cs, t, Spaced(more))
  {
    if more != [] { assert Spaced(more)[0] == ' '; }
    assert '.' in MARKS;
  }

  /** References that are words, and values written as one token. */
  predicate WritesTokens(cs: Chars, show: Value -> string, n: Node) {
    match n
    case And(l, r) => WritesTokens(cs, show, l) && WritesTokens(cs, show, r)
    case Or(l, r) => WritesTokens(cs, show, l) && WritesTokens(cs, show, r)
    case Cmp(c, f, _, v) => IsToken(cs, RefToken(c, f)) && IsToken(cs, show(v))
  }

  ghost predicate AllTokens(cs: Chars, ts: Tokens) {
    forall i :: 0 <= i < |ts| ==> IsToken(cs, ts[i])
  }

  lemma SignsAreTokens(cs: Chars)
    ensures IsToken(cs, "&") && IsToken(cs, "|") && IsToken(cs, "(") && IsToken(cs, ")")
    ensures forall op :: IsToken(cs, OpToken(op))
  {}

  lemma TokensJoin(cs: Chars, a: Tokens, t: string, b: Tokens)
    requires AllTokens(cs, a) && IsToken(cs, t) && AllTokens(cs, b)
    ensures AllTokens(cs, a + [t] + b) && AllTokens(cs, [t] + a) && AllTokens(cs, a + [t])
  {
    hide IsToken;
  }

  lemma BracketedTokens(cs: Chars, ts: Tokens)
    requires AllTokens(cs, ts)
    ensures AllTokens(cs, Bracketed(ts))
  {
    SignsAreTokens(cs);
    hide IsToken;
    TokensJoin(cs, ts, "(", []);
    TokensJoin(cs, ["("] + ts, ")", []);
  }

  lemma CmpTokens(cs: Chars, show: Value -> string, n: Node)
    requires n.Cmp? && WritesTokens(cs, show, n)
    ensures AllTokens(cs, Written(show, n))
  {
    SignsAreTokens(cs);
    hide IsToken, OpToken, RefToken;
  }

  lemma {:induction false} WrittenTokens(cs: Chars, show: Value -> string, n: Node)
    requires WritesTokens(cs, show, n)
    ensures AllTokens(cs, Written(show, n))
  {
    SignsAreTokens(cs);
    hide IsToken, AllTokens, Bracketed;
    match n
    case And(l, r) =>
      WrittenTokens(cs, show, l);
      WrittenTokens(cs, show, r);
      BracketedTokens(cs, Written(show, l));
      BracketedTokens(cs, Written(show, r));
      TokensJoin(cs, if l.Or? then Bracketed(Written(show, l)) else Written(show, l), "&",
                 if r.Cmp? then Written(show, r) else Bracketed(Written(show, r)));
    case Or(l, r) =>
      WrittenTokens(cs, show, l);
      WrittenTokens(cs, show, r);
      BracketedTokens(cs, Written(show, r));
      TokensJoin(cs, Written(show, l), "|", if r.Or? then Bracketed(Written(show, r)) else Written(show, r));
    case Cmp(_, _, _, _) => CmpTokens(cs, show, n);
  }

  /** From a predicate to its text and back: read again, it is what was written and nothing else. */
  lemma {:induction false} TextReadsBack(cs: Chars, infer: string -> Value, show: Value -> string, n: Node)
    requires Sane(cs) && Writable(infer, show, n) && WritesTokens(cs, show, n)
    ensures forall m :: Means(cs, infer, Spaced(Written(show, n)), m) <==> m == n
  {
    hide Reads, IsOr, Written, Writable, WritesTokens, IsToken;
    var ts := Written(show, n);
    WrittenTokens(cs, show, n);
    SpacedReads(cs, ts);
    WrittenReadsBack(infer, show, n);
    forall us | Reads(cs, Spaced(ts), us) ensures us == ts { ReadsOneWay(cs, Spaced(ts), us, ts); }
  }
}
