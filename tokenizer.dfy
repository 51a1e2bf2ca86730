/** `str::split_whitespace`: the iterator that turns the request line into
    method, path and protocol tokens. */
module Tokenizer {
  import opened Wrappers

  /** `char::is_whitespace`: the Unicode White_Space property. */
  predicate IsWhitespace(c: char) {
    var n := c as int;
    (0x09 <= n <= 0x0D) || n == 0x20 || n == 0x85 || n == 0xA0 || n == 0x1680 ||
    (0x2000 <= n <= 0x200A) || n == 0x2028 || n == 0x2029 || n == 0x202F ||
    n == 0x205F || n == 0x3000
  }

  predicate AllWhitespace(s: string) {
    forall i :: 0 <= i < |s| ==> IsWhitespace(s[i])
  }

  predicate NoWhitespace(s: string) {
    forall i :: 0 <= i < |s| ==> !IsWhitespace(s[i])
  }

  /** What a token boundary looks like: nothing left, or a whitespace character. */
  predicate AtBoundary(s: string) {
    s == [] || IsWhitespace(s[0])
  }

  /** Drops the leading whitespace. */
  function SkipWhitespace(s: string): (r: string)
    ensures |r| <= |s|
    ensures r == [] || !IsWhitespace(r[0])
  {
    if s != [] && IsWhitespace(s[0]) then SkipWhitespace(s[1..]) else s
  }

  /** Splits off the longest whitespace-free prefix. */
  function SplitWord(s: string): (r: (string, string))
    ensures |r.0| + |r.1| == |s|
    ensures s != [] && !IsWhitespace(s[0]) ==> r.0 != []
  {
    if s == [] || IsWhitespace(s[0]) then ([], s)
    else
      var (w, rest) := SplitWord(s[1..]);
      ([s[0]] + w, rest)
  }

  /** One step of the `split_whitespace` iterator: `None` once only whitespace is
      left, otherwise the next token and the text after it. */
  function NextToken(s: string): (r: Option<(string, string)>)
    ensures r.Some? ==> |r.value.1| < |s|
  {
    var t := SkipWhitespace(s);
    if t == [] then None else Some(SplitWord(t))
  }

  /** Everything the iterator would yield. */
  function Tokens(s: string): seq<string>
    decreases |s|
  {
    match NextToken(s)
    case None => []
    case Some((w, rest)) => [w] + Tokens(rest)
  }

  /** Tokens separated by single spaces: the canonical request line. */
  function JoinWithSpaces(ts: seq<string>): string {
    if ts == [] then []
    else if |ts| == 1 then ts[0]
    else ts[0] + " " + JoinWithSpaces(ts[1..])
  }

  /** SkipWhitespace removes a whitespace prefix and keeps the rest unchanged. */
  lemma {:induction false} SkipWhitespaceSpec(s: string)
    ensures var r := SkipWhitespace(s);
      r == s[|s| - |r|..] && AllWhitespace(s[..|s| - |r|])
    decreases |s|
  {
    if s != [] && IsWhitespace(s[0]) {
      SkipWhitespaceSpec(s[1..]);
      var r := SkipWhitespace(s);
      assert s[1..][|s| - 1 - |r|..] == s[|s| - |r|..];
      assert s[..|s| - |r|] == [s[0]] + s[1..][..|s| - 1 - |r|];
    } else {
      assert s[..0] == [];
    }
  }

  /** SplitWord cuts `s` into a whitespace-free word and a rest that starts at a
      boundary. */
  lemma {:induction false} SplitWordSpec(s: string)
    ensures var (w, rest) := SplitWord(s);
      w + rest == s && NoWhitespace(w) && AtBoundary(rest)
    decreases |s|
  {
    if s != [] && !IsWhitespace(s[0]) {
      SplitWordSpec(s[1..]);
      var (w, rest) := SplitWord(s[1..]);
      assert [s[0]] + w + rest == [s[0]] + (w + rest);
      assert [s[0]] + s[1..] == s;
    }
  }

  /** The iterator stops exactly when only whitespace is left, and otherwise
      yields a nonempty whitespace-free token followed by a boundary, after
      skipping only whitespace. */
  lemma NextTokenSpec(s: string)
    ensures NextToken(s).None? <==> AllWhitespace(s)
    ensures NextToken(s).Some? ==>
      var (w, rest) := NextToken(s).value;
      w != [] && NoWhitespace(w) && AtBoundary(rest) &&
      AllWhitespace(s[..|s| - |w + rest|]) && s[|s| - |w + rest|..] == w + rest
  {
    var t := SkipWhitespace(s);
    SkipWhitespaceSpec(s);
    if t == [] {
      assert s[..|s|] == s;
    } else {
      assert !AllWhitespace(s) by { assert !IsWhitespace(s[|s| - |t|]); }
      SplitWordSpec(t);
    }
  }

  /** Every token is nonempty and free of whitespace. */
  lemma {:induction false} TokensWellFormed(s: string)
    ensures forall k :: 0 <= k < |Tokens(s)| ==> Tokens(s)[k] != [] && NoWhitespace(Tokens(s)[k])
    decreases |s|
  {
    NextTokenSpec(s);
    if NextToken(s).Some? {
      var (w, rest) := NextToken(s).value;
      TokensWellFormed(rest);
    }
  }

  /** A whitespace-free word followed by a boundary is exactly what SplitWord
      cuts off. */
  lemma {:induction false} SplitWordOf(w: string, rest: string)
    requires NoWhitespace(w) && AtBoundary(rest)
    ensures SplitWord(w + rest) == (w, rest)
    decreases |w|
  {
    if w == [] {
      assert w + rest == rest;
    } else {
      assert (w + rest)[0] == w[0];
      assert (w + rest)[1..] == w[1..] + rest;
      SplitWordOf(w[1..], rest);
      assert [w[0]] + w[1..] == w;
    }
  }

  /** A token followed by a boundary is exactly what the iterator yields next. */
  lemma NextTokenOfWord(w: string, rest: string)
    requires w != [] && NoWhitespace(w) && AtBoundary(rest)
    ensures NextToken(w + rest) == Some((w, rest))
  {
    assert (w + rest)[0] == w[0];
    assert SkipWhitespace(w + rest) == w + rest;
    SplitWordOf(w, rest);
  }

  /** Leading whitespace never changes the tokens. */
  lemma TokensSkipLeading(s: string)
    ensures Tokens(s) == Tokens(SkipWhitespace(s))
  {
    var t := SkipWhitespace(s);
    assert SkipWhitespace(t) == t;
    assert NextToken(t) == NextToken(s);
  }

  /** What follows a token does not change the token. */
  lemma TokensOfWord(w: string, rest: string)
    requires w != [] && NoWhitespace(w) && AtBoundary(rest)
    ensures Tokens(w + rest) == [w] + Tokens(rest)
  {
    NextTokenOfWord(w, rest);
  }

  /** A leading space is skipped. */
  lemma TokensOfSpace(t: string)
    ensures Tokens(" " + t) == Tokens(t)
  {
    assert (" " + t)[1..] == t;
    assert SkipWhitespace(" " + t) == SkipWhitespace(t);
    TokensSkipLeading(" " + t);
    TokensSkipLeading(t);
  }

  lemma TokensOfNothing()
    ensures Tokens([]) == []
  {
    assert NextToken([]) == None;
  }

  lemma TokensOfSingle(w: string)
    requires w != [] && NoWhitespace(w)
    ensures Tokens(w) == [w]
  {
    assert w + [] == w;
    TokensOfWord(w, []);
    TokensOfNothing();
  }

  lemma TokensOfSpaced(w: string, tail: string)
    requires w != [] && NoWhitespace(w)
    ensures Tokens(w + " " + tail) == [w] + Tokens(tail)
  {
    assert w + " " + tail == w + (" " + tail);
    TokensOfWord(w, " " + tail);
    TokensOfSpace(tail);
  }

  /** Round trip: splitting a space-joined list of tokens gives the list back. */
  lemma {:induction false} TokensOfJoin(ts: seq<string>)
    requires forall k :: 0 <= k < |ts| ==> ts[k] != [] && NoWhitespace(ts[k])
    ensures Tokens(JoinWithSpaces(ts)) == ts
    decreases |ts|
  {
    if ts == [] {
      TokensOfNothing();
    } else if |ts| == 1 {
      TokensOfSingle(ts[0]);
    } else {
      TokensOfJoin(ts[1..]);
      TokensOfSpaced(ts[0], JoinWithSpaces(ts[1..]));
      assert JoinWithSpaces(ts) == ts[0] + " " + JoinWithSpaces(ts[1..]);
    }
  }
}

/** Token lists of request lines built from given tokens. */
module RequestLines {
  import opened Tokenizer

  lemma TokensOfPair(a: string, b: string)
    requires a != [] && NoWhitespace(a) && b != [] && NoWhitespace(b)
    ensures Tokens(a + " " + b) == [a, b]
  {
    TokensOfSingle(b);
    TokensOfSpaced(a, b);
  }

  lemma TokensOfTriple(a: string, b: string, c: string)
    requires a != [] && NoWhitespace(a) && b != [] && NoWhitespace(b) && c != [] && NoWhitespace(c)
    ensures Tokens(a + " " + (b + " " + c)) == [a, b, c]
  {
    var tail := b + " " + c;
    TokensOfPair(b, c);
    TokensOfSpaced(a, tail);
    assert [a] + [b, c] == [a, b, c];
  }

  /** A request line written as method, space, path, space, protocol. */
  lemma RequestLineTokens(verb: string, path: string, proto: string)
    requires verb != [] && NoWhitespace(verb)
    requires path != [] && NoWhitespace(path)
    requires proto != [] && NoWhitespace(proto)
    ensures Tokens(verb + " " + path + " " + proto) == [verb, path, proto]
  {
    assert verb + " " + path + " " + proto == verb + " " + (path + " " + proto);
    TokensOfTriple(verb, path, proto);
  }
}
