/**
 Compilation of a normalised selector into glob tokens: `*` and `?` are
 wildcards, `[*]` and `[?]` stand for the characters themselves.
 */
module GlobCompiler {
  import opened Glob

  /** The language of pattern text, read character by character. */
  predicate PatternAccepts(pattern: string, text: string) {
    if pattern == "" then text == ""
    else if "[*]" <= pattern then text != "" && text[0] == '*' && PatternAccepts(pattern[3..], text[1..])
    else if "[?]" <= pattern then text != "" && text[0] == '?' && PatternAccepts(pattern[3..], text[1..])
    else if pattern[0] == '*' then exists k :: 0 <= k <= |text| && PatternAccepts(pattern[1..], text[k..])
    else if pattern[0] == '?' then text != "" && PatternAccepts(pattern[1..], text[1..])
    else text != "" && text[0] == pattern[0] && PatternAccepts(pattern[1..], text[1..])
  }

  /** Puts literal text in front of tokens, merging it with a literal that already stands there. */
  function WithLiteral(value: string, tokens: seq<Token>): seq<Token> {
    if value == "" then tokens
    else if tokens != [] && tokens[0].Literal? then [Literal(value + tokens[0].value)] + tokens[1..]
    else [Literal(value)] + tokens
  }

  function WithStar(tokens: seq<Token>): seq<Token> {
    if tokens != [] && tokens[0] == Star then tokens else [Star] + tokens
  }

  /** The tokens of a pattern, built from its right end. */
  function Compiled(pattern: string): seq<Token> {
    if pattern == "" then []
    else if "[*]" <= pattern then WithLiteral("*", Compiled(pattern[3..]))
    else if "[?]" <= pattern then WithLiteral("?", Compiled(pattern[3..]))
    else if pattern[0] == '*' then WithStar(Compiled(pattern[1..]))
    else if pattern[0] == '?' then [Question] + Compiled(pattern[1..])
    else WithLiteral([pattern[0]], Compiled(pattern[1..]))
  }

  /** No empty literal, no two literals in a row, no two stars in a row. */
  ghost predicate Canonical(tokens: seq<Token>) {
    && (forall i :: 0 <= i < |tokens| ==> tokens[i] != Literal(""))
    && (forall i :: 0 <= i < |tokens| - 1 ==> !(tokens[i].Literal? && tokens[i + 1].Literal?))
    && (forall i :: 0 <= i < |tokens| - 1 ==> !(tokens[i].Star? && tokens[i + 1].Star?))
  }

  lemma CanonicalParts(value: string, tokens: seq<Token>)
    requires Canonical(tokens) && NoEmptyLiteral(tokens)
    ensures value != "" ==> Canonical(WithLiteral(value, tokens)) && NoEmptyLiteral(WithLiteral(value, tokens))
    ensures Canonical(WithStar(tokens)) && NoEmptyLiteral(WithStar(tokens))
    ensures Canonical([Question] + tokens) && NoEmptyLiteral([Question] + tokens)
  {
  }

  lemma {:induction false} CompiledCanonical(pattern: string)
    ensures Canonical(Compiled(pattern)) && NoEmptyLiteral(Compiled(pattern))
  {
    if pattern != "" {
      var rest := if "[*]" <= pattern || "[?]" <= pattern then pattern[3..] else pattern[1..];
      CompiledCanonical(rest);
      hide Canonical, NoEmptyLiteral, WithLiteral, WithStar;
      CanonicalParts("*", Compiled(rest));
      CanonicalParts("?", Compiled(rest));
      CanonicalParts([pattern[0]], Compiled(rest));
    }
  }

  lemma LiteralFirst(c: char, tokens: seq<Token>, text: string)
    requires Canonical(tokens)
    ensures Accepts(WithLiteral([c], tokens), text) <==> text != "" && text[0] == c && Accepts(tokens, text[1..])
  {
    var joined := WithLiteral([c], tokens);
    if tokens != [] && tokens[0].Literal? {
      var value := tokens[0].value;
      assert tokens[0] != Literal("");
      assert joined[0].value == [c] + value && joined[1..] == tokens[1..];
      if text != "" && text[0] == c {
        assert [c] + value <= text <==> value <= text[1..];
        assert value <= text[1..] ==> text[|[c] + value|..] == text[1..][|value|..];
      }
    } else {
      assert joined[1..] == tokens;
    }
  }

  lemma StarFirst(tokens: seq<Token>, text: string)
    ensures Accepts(WithStar(tokens), text) <==> exists k :: 0 <= k <= |text| && Accepts(tokens, text[k..])
  {
    assert text[0..] == text;
    if tokens != [] && tokens[0] == Star {
      forall k | 0 <= k <= |text| && Accepts(tokens, text[k..]) ensures Accepts(tokens, text) {
        StarAbsorbs(tokens, text, 0, k);
      }
    } else {
      assert ([Star] + tokens)[1..] == tokens;
    }
  }

  /** Compilation preserves the language: merging literals and collapsing stars changes nothing. */
  lemma {:induction false} CompiledMeansPattern(pattern: string, text: string)
    ensures Accepts(Compiled(pattern), text) <==> PatternAccepts(pattern, text)
    decreases |pattern|
  {
    if pattern == "" {
    } else if "[*]" <= pattern || "[?]" <= pattern {
      CompiledCanonical(pattern[3..]);
      LiteralFirst(if "[*]" <= pattern then '*' else '?', Compiled(pattern[3..]), text);
      if text != "" { CompiledMeansPattern(pattern[3..], text[1..]); }
    } else if pattern[0] == '*' {
      StarFirst(Compiled(pattern[1..]), text);
      forall k | 0 <= k <= |text|
        ensures Accepts(Compiled(pattern[1..]), text[k..]) <==> PatternAccepts(pattern[1..], text[k..])
      {
        CompiledMeansPattern(pattern[1..], text[k..]);
      }
    } else if pattern[0] == '?' {
      assert ([Question] + Compiled(pattern[1..]))[1..] == Compiled(pattern[1..]);
      if text != "" { CompiledMeansPattern(pattern[1..], text[1..]); }
    } else {
      CompiledCanonical(pattern[1..]);
      LiteralFirst(pattern[0], Compiled(pattern[1..]), text);
      if text != "" { CompiledMeansPattern(pattern[1..], text[1..]); }
    }
  }

  /** Text with its wildcards bracket-escaped. */
  function Escaped(text: string): string {
    if text == "" then ""
    else (if text[0] == '*' then "[*]" else if text[0] == '?' then "[?]" else [text[0]]) + Escaped(text[1..])
  }

  lemma EscapedHead(text: string)
    ensures text == "" ==> Escaped(text) == ""
    ensures text != "" ==> Escaped(text)[0] != '*' && Escaped(text)[0] != '?'
  {
  }

  /** Escaping round trip: escaped text compiles to one literal holding exactly that text. */
  lemma {:induction false} EscapedCompilesToItself(text: string)
    ensures Compiled(Escaped(text)) == if text == "" then [] else [Literal(text)]
  {
    if text != "" {
      EscapedCompilesToItself(text[1..]);
      EscapedHead(text[1..]);
      var rest := Escaped(text[1..]);
      var all := Escaped(text);
      if text[0] == '*' || text[0] == '?' {
        assert all[3..] == rest;
        assert all[0] == '[' && all[1] == text[0] && all[2] == ']';
        assert "[*]" <= all <==> text[0] == '*';
        assert "[?]" <= all <==> text[0] == '?';
      } else {
        assert all[1..] == rest;
        assert rest != "" ==> all[1] == rest[0];
      }
      assert Compiled(all) == WithLiteral([text[0]], Compiled(rest));
      assert [text[0]] + text[1..] == text;
      if text[1..] == "" {
        assert text == [text[0]];
      }
    }
  }

  /** Total number of literal characters, the specificity of a glob rule. */
  function LiteralChars(tokens: seq<Token>): nat {
    if tokens == [] then 0
    else (if tokens[0].Literal? then |tokens[0].value| else 0) + LiteralChars(tokens[1..])
  }

  lemma {:induction false} LiteralCharsAppend(a: seq<Token>, b: seq<Token>)
    ensures LiteralChars(a + b) == LiteralChars(a) + LiteralChars(b)
  {
    if a == [] {
      assert a + b == b;
    } else {
      assert (a + b)[1..] == a[1..] + b;
      LiteralCharsAppend(a[1..], b);
    }
  }

  /** What the scan has produced so far, completed by the tokens of the pattern still to come. */
  function Glued(tokens: seq<Token>, literalAcc: string, rest: seq<Token>): seq<Token> {
    var next := WithLiteral(literalAcc, rest);
    if tokens != [] && tokens[|tokens| - 1].Star? && next != [] && next[0].Star? then tokens + next[1..]
    else tokens + next
  }

  /** flushLiteral, with the scan's counter. */
  method FlushLiteral(tokens: seq<Token>, literalAcc: string, literalCharCount: nat)
    returns (tokens': seq<Token>, literalCharCount': nat)
    requires literalCharCount == LiteralChars(tokens)
    ensures tokens' == Flushed(tokens, literalAcc)
    ensures literalCharCount' == LiteralChars(tokens')
  {
    tokens', literalCharCount' := tokens, literalCharCount;
    if |literalAcc| > 0 {
      tokens' := tokens + [Literal(literalAcc)];
      literalCharCount' := literalCharCount + |literalAcc|;
      LiteralCharsAppend(tokens, [Literal(literalAcc)]);
    }
  }

  /** Adding one literal character to the accumulator is gluing it in front of the rest. */
  lemma AccumulateLiteral(tokens: seq<Token>, literalAcc: string, c: char, rest: seq<Token>)
    ensures Glued(tokens, literalAcc + [c], rest) == Glued(tokens, literalAcc, WithLiteral([c], rest))
  {
    var inner := WithLiteral([c], rest);
    assert inner[0].Literal? && literalAcc + [c] != "";
    var tail := if rest != [] && rest[0].Literal? then rest[0].value else "";
    var others := if rest != [] && rest[0].Literal? then rest[1..] else rest;
    assert inner == [Literal([c] + tail)] + others by { assert [c] + "" == [c]; }
    assert inner[1..] == others;
    assert WithLiteral(literalAcc + [c], rest) == [Literal(literalAcc + [c] + tail)] + others by {
      assert literalAcc + [c] + "" == literalAcc + [c];
    }
    assert literalAcc + ([c] + tail) == literalAcc + [c] + tail;
    if literalAcc == "" {
      assert literalAcc + [c] + tail == [c] + tail;
    }
    assert WithLiteral(literalAcc, inner) == WithLiteral(literalAcc + [c], rest);
  }

  function Flushed(tokens: seq<Token>, literalAcc: string): seq<Token> {
    if literalAcc == "" then tokens else tokens + [Literal(literalAcc)]
  }

  /** Flushing changes nothing in front of a token that is not a literal. */
  lemma FlushIsNeutral(tokens: seq<Token>, literalAcc: string, next: seq<Token>)
    requires next != [] && !next[0].Literal?
    ensures Glued(tokens, literalAcc, next) == Glued(Flushed(tokens, literalAcc), "", next)
  {
    if literalAcc != "" {
      assert tokens + ([Literal(literalAcc)] + next) == tokens + [Literal(literalAcc)] + next;
    }
  }

  /** Emitting a star after the flush, unless a star is already there. */
  function WithTrailingStar(tokens: seq<Token>): seq<Token> {
    if tokens == [] || !tokens[|tokens| - 1].Star? then tokens + [Star] else tokens
  }

  lemma GluedIs(tokens: seq<Token>, rest: seq<Token>)
    ensures Glued(tokens, "", rest) == tokens + if tokens != [] && tokens[|tokens| - 1].Star? && rest != []
            && rest[0].Star? then rest[1..] else rest
  {
  }

  /** One star of the pattern against stars already there on either side. */
  lemma GlueStar(tokens: seq<Token>, rest: seq<Token>)
    ensures Glued(tokens, "", WithStar(rest)) == Glued(WithTrailingStar(tokens), "", rest)
  {
    GluedIs(tokens, WithStar(rest));
    GluedIs(WithTrailingStar(tokens), rest);
    hide Glued;
    if rest != [] && rest[0].Star? {
      assert rest == [Star] + rest[1..];
      assert tokens + rest == tokens + [Star] + rest[1..];
    } else {
      assert ([Star] + rest)[1..] == rest;
      assert tokens + ([Star] + rest) == tokens + [Star] + rest;
    }
  }

  lemma EmitStar(tokens: seq<Token>, literalAcc: string, rest: seq<Token>)
    ensures Glued(tokens, literalAcc, WithStar(rest)) == Glued(WithTrailingStar(Flushed(tokens, literalAcc)), "", rest)
  {
    FlushIsNeutral(tokens, literalAcc, WithStar(rest));
    GlueStar(Flushed(tokens, literalAcc), rest);
    hide Flushed, Glued;
  }

  lemma EmitQuestion(tokens: seq<Token>, literalAcc: string, rest: seq<Token>)
    ensures Glued(tokens, literalAcc, [Question] + rest) == Glued(Flushed(tokens, literalAcc) + [Question], "", rest)
  {
    FlushIsNeutral(tokens, literalAcc, [Question] + rest);
    var flushed := Flushed(tokens, literalAcc);
    hide Flushed;
    assert flushed + ([Question] + rest) == flushed + [Question] + rest;
  }

  /** At the end of the scan there is nothing left to glue. */
  lemma NothingLeft(tokens: seq<Token>, literalAcc: string)
    ensures Glued(tokens, literalAcc, []) == Flushed(tokens, literalAcc)
  {
  }

  /** compilePattern's scan of a glob pattern. */
  method CompileGlob(normalized: string) returns (tokens: seq<Token>, literalCharCount: nat)
    ensures tokens == Compiled(normalized)
    ensures Canonical(tokens)
    ensures literalCharCount == LiteralChars(tokens)
  {
    hide Canonical, Glued, WithLiteral, WithStar, LiteralChars;
    tokens, literalCharCount := [], 0;
    var literalAcc := "";
    var i := 0;
    ScanStarts(normalized);
    while i < |normalized|
      invariant 0 <= i <= |normalized|
      invariant literalCharCount == LiteralChars(tokens)
      invariant Glued(tokens, literalAcc, Compiled(normalized[i..])) == Compiled(normalized)
    {
      CompiledStep(normalized, i);
      if StartsWith(normalized, "[*]", i) {
        AccumulateLiteral(tokens, literalAcc, '*', Compiled(normalized[i + 3..]));
        literalAcc := literalAcc + "*";
        i := i + 3;
      } else if StartsWith(normalized, "[?]", i) {
        AccumulateLiteral(tokens, literalAcc, '?', Compiled(normalized[i + 3..]));
        literalAcc := literalAcc + "?";
        i := i + 3;
      } else if normalized[i] == '*' {
        EmitStar(tokens, literalAcc, Compiled(normalized[i + 1..]));
        tokens, literalCharCount := FlushLiteral(tokens, literalAcc, literalCharCount);
        literalAcc := "";
        tokens := PushStar(tokens);
        i := i + 1;
      } else if normalized[i] == '?' {
        EmitQuestion(tokens, literalAcc, Compiled(normalized[i + 1..]));
        tokens, literalCharCount := FlushLiteral(tokens, literalAcc, literalCharCount);
        literalAcc := "";
        WildcardsAreNotCounted(tokens, Question);
        tokens := tokens + [Question];
        i := i + 1;
      } else {
        AccumulateLiteral(tokens, literalAcc, normalized[i], Compiled(normalized[i + 1..]));
        literalAcc := literalAcc + [normalized[i]];
        i := i + 1;
      }
    }
    NothingLeft(tokens, literalAcc);
    tokens, literalCharCount := FlushLiteral(tokens, literalAcc, literalCharCount);
    CompiledCanonical(normalized);
  }

  lemma ScanStarts(normalized: string)
    ensures Glued([], "", Compiled(normalized[0..])) == Compiled(normalized)
    ensures LiteralChars([]) == 0
  {
    assert normalized[0..] == normalized;
  }

  lemma WildcardsAreNotCounted(tokens: seq<Token>, token: Token)
    requires !token.Literal?
    ensures LiteralChars(tokens + [token]) == LiteralChars(tokens)
  {
    LiteralCharsAppend(tokens, [token]);
  }

  method PushStar(tokens: seq<Token>) returns (tokens': seq<Token>)
    ensures tokens' == WithTrailingStar(tokens)
    ensures LiteralChars(tokens') == LiteralChars(tokens)
  {
    tokens' := tokens;
    if |tokens| == 0 || !tokens[|tokens| - 1].Star? {
      WildcardsAreNotCounted(tokens, Star);
      tokens' := tokens + [Star];
    }
  }

  /** One step of Compiled, in terms of the position in the whole pattern. */
  lemma CompiledStep(pattern: string, i: nat)
    requires i < |pattern|
    ensures StartsWith(pattern, "[*]", i) ==>
              i + 3 <= |pattern| && Compiled(pattern[i..]) == WithLiteral("*", Compiled(pattern[i + 3..]))
    ensures !StartsWith(pattern, "[*]", i) && StartsWith(pattern, "[?]", i) ==>
              i + 3 <= |pattern| && Compiled(pattern[i..]) == WithLiteral("?", Compiled(pattern[i + 3..]))
    ensures !StartsWith(pattern, "[*]", i) && !StartsWith(pattern, "[?]", i) ==>
              Compiled(pattern[i..]) ==
              if pattern[i] == '*' then WithStar(Compiled(pattern[i + 1..]))
              else if pattern[i] == '?' then [Question] + Compiled(pattern[i + 1..])
              else WithLiteral([pattern[i]], Compiled(pattern[i + 1..]))
  {
    var here := pattern[i..];
    assert here[1..] == pattern[i + 1..];
    if |here| >= 3 { assert here[3..] == pattern[i + 3..]; }
  }

  predicate StartsWith(s: string, prefix: string, at: nat)
    requires at <= |s|
  {
    prefix <= s[at..]
  }
}
