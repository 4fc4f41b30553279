/**
 Glob patterns of the classification rules: the token language and the iterative
 matcher that remembers only the last star.
 Text is a sequence of Unicode scalar values.
 */
module Glob {

  datatype Token = Literal(value: string) | Star | Question

  /** What a single token may stand for. */
  predicate TokenTakes(token: Token, piece: string) {
    match token
    case Literal(value) => piece == value
    case Question => |piece| == 1
    case Star => true
  }

  function Join(pieces: seq<string>): string {
    if pieces == [] then "" else pieces[0] + Join(pieces[1..])
  }

  ghost predicate IsSplit(tokens: seq<Token>, pieces: seq<string>, text: string) {
    && |pieces| == |tokens|
    && Join(pieces) == text
    && forall i :: 0 <= i < |tokens| ==> TokenTakes(tokens[i], pieces[i])
  }

  /** The declarative meaning: the text falls into one piece for each token. */
  ghost predicate Splits(tokens: seq<Token>, text: string) {
    exists pieces :: IsSplit(tokens, pieces, text)
  }

  predicate NoEmptyLiteral(tokens: seq<Token>) {
    Literal("") !in tokens
  }

  /**
   The language the matcher decides on every token list: as Splits, but a literal is tried only where text remains.
   */
  predicate Accepts(tokens: seq<Token>, text: string) {
    if tokens == [] then text == ""
    else match tokens[0]
      case Literal(value) => text != "" && value <= text && Accepts(tokens[1..], text[|value|..])
      case Question => text != "" && Accepts(tokens[1..], text[1..])
      case Star => exists k :: 0 <= k <= |text| && Accepts(tokens[1..], text[k..])
  }

  lemma {:induction false} AcceptsSplits(tokens: seq<Token>, text: string)
    ensures Accepts(tokens, text) ==> Splits(tokens, text)
  {
    if Accepts(tokens, text) {
      if tokens == [] {
        assert IsSplit(tokens, [], text);
      } else {
        var k := match tokens[0]
          case Literal(value) => |value|
          case Question => 1
          case Star => var k :| 0 <= k <= |text| && Accepts(tokens[1..], text[k..]); k;
        AcceptsSplits(tokens[1..], text[k..]);
        var rest :| IsSplit(tokens[1..], rest, text[k..]);
        var pieces := [text[..k]] + rest;
        assert pieces[1..] == rest;
        forall i | 0 <= i < |tokens| ensures TokenTakes(tokens[i], pieces[i]) {
          if i > 0 { assert tokens[i] == tokens[1..][i - 1] && pieces[i] == rest[i - 1]; }
        }
        assert IsSplit(tokens, pieces, text);
      }
    }
  }

  /** The tokens can all stand for nothing. */
  predicate Slack(tokens: seq<Token>) {
    forall i | 0 <= i < |tokens| :: tokens[i] == Star || tokens[i] == Literal("")
  }

  /** An empty literal that nothing after it forces the text to go on for. */
  predicate HangingEmpty(tokens: seq<Token>) {
    exists i | 0 <= i < |tokens| :: tokens[i] == Literal("") && Slack(tokens[i + 1..])
  }

  lemma HangingTail(tokens: seq<Token>)
    requires tokens != []
    ensures HangingEmpty(tokens) <==> (tokens[0] == Literal("") && Slack(tokens[1..])) || HangingEmpty(tokens[1..])
  {
    var tail := tokens[1..];
    hide Slack;
    if i :| 0 <= i < |tokens| && tokens[i] == Literal("") && Slack(tokens[i + 1..]) {
      if i > 0 { assert tail[i - 1] == tokens[i] && tail[i..] == tokens[i + 1..]; }
    }
    if j :| 0 <= j < |tail| && tail[j] == Literal("") && Slack(tail[j + 1..]) {
      assert tokens[j + 1] == tail[j] && tokens[j + 2..] == tail[j + 1..];
    }
  }

  lemma SplitTail(tokens: seq<Token>, pieces: seq<string>, text: string)
    requires IsSplit(tokens, pieces, text) && tokens != []
    ensures |pieces| > 0 && |pieces[0]| <= |text| && text == pieces[0] + text[|pieces[0]|..]
            && TokenTakes(tokens[0], pieces[0])
    ensures IsSplit(tokens[1..], pieces[1..], text[|pieces[0]|..])
  {
    forall i | 0 <= i < |tokens[1..]| ensures TokenTakes(tokens[1..][i], pieces[1..][i]) {
      assert TokenTakes(tokens[i + 1], pieces[i + 1]);
    }
  }

  /** Only slack tokens split the empty text. */
  lemma {:induction false} OnlySlackSplitsNothing(tokens: seq<Token>, pieces: seq<string>)
    requires IsSplit(tokens, pieces, "")
    ensures Slack(tokens)
  {
    if tokens != [] {
      SplitTail(tokens, pieces, "");
      OnlySlackSplitsNothing(tokens[1..], pieces[1..]);
    }
  }

  lemma {:induction false} SplitIsAccepted(tokens: seq<Token>, pieces: seq<string>, text: string)
    requires !HangingEmpty(tokens) && IsSplit(tokens, pieces, text)
    ensures Accepts(tokens, text)
  {
    if tokens != [] {
      SplitTail(tokens, pieces, text);
      HangingTail(tokens);
      if text == "" { OnlySlackSplitsNothing(tokens[1..], pieces[1..]); }
      hide HangingEmpty, Slack, IsSplit;
      SplitIsAccepted(tokens[1..], pieces[1..], text[|pieces[0]|..]);
    }
  }

  /** A hanging empty literal: some text splits, although nothing of its length or shorter is accepted. */
  lemma {:induction false} HangingDiffers(tokens: seq<Token>) returns (text: string)
    requires HangingEmpty(tokens)
    ensures Splits(tokens, text) && forall s :: Accepts(tokens, s) ==> |s| > |text|
  {
    HangingTail(tokens);
    if tokens[0] == Literal("") && Slack(tokens[1..]) {
      text := "";
      SlackSplitsNothing(tokens);
    } else {
      var rest := HangingDiffers(tokens[1..]);
      hide HangingEmpty, Slack;
      var piece := match tokens[0]
        case Literal(value) => value
        case Question => "?"
        case Star => "";
      text := piece + rest;
      var pieces :| IsSplit(tokens[1..], pieces, rest);
      SplitOneMore(tokens, piece, pieces, rest);
    }
  }

  lemma SplitOneMore(tokens: seq<Token>, piece: string, pieces: seq<string>, rest: string)
    requires tokens != [] && TokenTakes(tokens[0], piece) && IsSplit(tokens[1..], pieces, rest)
    ensures Splits(tokens, piece + rest)
  {
    var all := [piece] + pieces;
    assert all[1..] == pieces;
    forall i | 0 <= i < |tokens| ensures TokenTakes(tokens[i], all[i]) {
      if i > 0 { assert tokens[i] == tokens[1..][i - 1] && all[i] == pieces[i - 1]; }
    }
    assert IsSplit(tokens, all, piece + rest);
  }

  lemma {:induction false} SlackSplitsNothing(tokens: seq<Token>)
    requires Slack(tokens)
    ensures Splits(tokens, "")
  {
    if tokens == [] {
      assert IsSplit(tokens, [], "");
    } else {
      SlackSplitsNothing(tokens[1..]);
      var pieces :| IsSplit(tokens[1..], pieces, "");
      SplitOneMore(tokens, "", pieces, "");
      assert "" + "" == "";
    }
  }

  /** The matcher's language is the declarative one exactly for the token lists without a hanging empty literal. */
  lemma AgreeIff(tokens: seq<Token>)
    ensures (forall text :: Accepts(tokens, text) <==> Splits(tokens, text)) <==> !HangingEmpty(tokens)
  {
    if HangingEmpty(tokens) {
      var text := HangingDiffers(tokens);
      assert Splits(tokens, text) && !Accepts(tokens, text);
    } else {
      forall text ensures Accepts(tokens, text) <==> Splits(tokens, text) {
        AcceptsSplits(tokens, text);
        if Splits(tokens, text) {
          var pieces :| IsSplit(tokens, pieces, text);
          SplitIsAccepted(tokens, pieces, text);
        }
      }
    }
  }

  /** In particular for every token list without an empty literal. */
  lemma AcceptsIsSplits(tokens: seq<Token>, text: string)
    requires NoEmptyLiteral(tokens)
    ensures Accepts(tokens, text) <==> Splits(tokens, text)
  {
    assert !HangingEmpty(tokens) by {
      forall i | 0 <= i < |tokens| ensures tokens[i] != Literal("") { assert tokens[i] in tokens; }
    }
    AgreeIff(tokens);
  }

  /** The shortest list that differs: the empty literal splits the empty text but the matcher never reaches it. */
  lemma EmptyLiteralDiffers()
    ensures Splits([Literal("")], "") && !Accepts([Literal("")], "")
  {
    assert IsSplit([Literal("")], [""], "");
  }

  // ---- The iterative matcher ----

  predicate NoStar(tokens: seq<Token>) {
    Star !in tokens
  }

  function TokenWidth(token: Token): nat {
    if token.Literal? then |token.value| else 1
  }

  /** Number of characters that a star-free run of tokens consumes. */
  function Width(tokens: seq<Token>): nat {
    if tokens == [] then 0 else TokenWidth(tokens[0]) + Width(tokens[1..])
  }

  lemma {:induction false} WidthAppend(tokens: seq<Token>, token: Token)
    ensures Width(tokens + [token]) == Width(tokens) + TokenWidth(token)
  {
    if tokens != [] {
      assert (tokens + [token])[1..] == tokens[1..] + [token];
      WidthAppend(tokens[1..], token);
    } else {
      assert tokens + [token] == [token];
    }
  }

  /** A star-free run leaves exactly one place where the rest of the pattern can start. */
  lemma {:induction false} RunIsRigid(run: seq<Token>, rest: seq<Token>, text: string)
    requires NoStar(run) && Accepts(run + rest, text)
    ensures Width(run) <= |text| && Accepts(rest, text[Width(run)..])
  {
    if run == [] {
      assert run + rest == rest && text[0..] == text;
    } else {
      assert (run + rest)[0] == run[0] && (run + rest)[1..] == run[1..] + rest;
      var w := TokenWidth(run[0]);
      assert run[0] in run;
      RunIsRigid(run[1..], rest, text[w..]);
      assert text[w..][Width(run[1..])..] == text[Width(run)..];
    }
  }

  /** A star that accepts from some later place accepts from any earlier one. */
  lemma StarAbsorbs(tokens: seq<Token>, text: string, early: nat, late: nat)
    requires tokens != [] && tokens[0] == Star && early <= late <= |text|
    requires Accepts(tokens, text[late..])
    ensures Accepts(tokens, text[early..])
  {
    var k :| 0 <= k <= |text[late..]| && Accepts(tokens[1..], text[late..][k..]);
    assert text[late..][k..] == text[early..][late - early + k..];
  }

  /** A star either stands for nothing more or takes one more character. */
  lemma StarUnfolds(tokens: seq<Token>, text: string, at: nat)
    requires tokens != [] && tokens[0] == Star && at <= |text|
    ensures Accepts(tokens, text[at..]) <==>
            Accepts(tokens[1..], text[at..]) || (at < |text| && Accepts(tokens, text[at + 1..]))
  {
    if Accepts(tokens[1..], text[at..]) {
      assert text[at..][0..] == text[at..];
    }
    if at < |text| && Accepts(tokens, text[at + 1..]) {
      StarAbsorbs(tokens, text, at, at + 1);
    }
    if Accepts(tokens, text[at..]) {
      var k :| 0 <= k <= |text[at..]| && Accepts(tokens[1..], text[at..][k..]);
      if k > 0 {
        assert text[at..][k..] == text[at + 1..][k - 1..];
      } else {
        assert text[at..][0..] == text[at..];
      }
    }
  }

  /** Retrying the last star later can only reach places at or after the one already reached. */
  lemma LaterStartsLater(tokens: seq<Token>, star: nat, next: nat, text: string, back: nat)
    requires star < next <= |tokens| && tokens[star] == Star && NoStar(tokens[star + 1..next])
    requires back <= |text| && Accepts(tokens[star..], text[back..])
    ensures exists p :: back + Width(tokens[star + 1..next]) <= p <= |text| && Accepts(tokens[next..], text[p..])
  {
    var rest := tokens[star..];
    var k :| 0 <= k <= |text[back..]| && Accepts(rest[1..], text[back..][k..]);
    var run := tokens[star + 1..next];
    assert rest[1..] == run + tokens[next..];
    RunIsRigid(run, tokens[next..], text[back..][k..]);
    var p := back + k + Width(run);
    assert text[back..][k..][Width(run)..] == text[p..];
    assert back + Width(run) <= p <= |text| && Accepts(tokens[next..], text[p..]);
  }

  lemma {:induction false} OnlyStarsAcceptNothing(tokens: seq<Token>)
    ensures Accepts(tokens, "") <==> forall i :: 0 <= i < |tokens| ==> tokens[i] == Star
  {
    if tokens != [] {
      OnlyStarsAcceptNothing(tokens[1..]);
      if tokens[0] == Star {
        var none: string := "";
        assert none[0..] == none;
        assert Accepts(tokens, "") <==> Accepts(tokens[1..], "");
        assert forall i :: 0 < i < |tokens| ==> tokens[i] == tokens[1..][i - 1];
      }
    }
  }

  /** One star search in progress: the last star, where it was last tried, and where the attempt has got to. */
  ghost predicate Searching(tokens: seq<Token>, text: string, star: int, back: int, tIdx: nat, cIdx: nat) {
    && tIdx <= |tokens| && cIdx <= |text|
    && (if star == -1 then
          Accepts(tokens, text) == Accepts(tokens[tIdx..], text[cIdx..])
        else
          && 0 <= star < tIdx && 0 <= back <= cIdx
          && tokens[star] == Star
          && NoStar(tokens[star + 1..tIdx])
          && cIdx == back + Width(tokens[star + 1..tIdx])
          && Accepts(tokens, text) ==
             (Accepts(tokens[tIdx..], text[cIdx..]) || (back < |text| && Accepts(tokens[star..], text[back + 1..]))))
  }

  lemma AdvanceToken(tokens: seq<Token>, text: string, star: int, back: int, tIdx: nat, cIdx: nat)
    requires Searching(tokens, text, star, back, tIdx, cIdx)
    requires tIdx < |tokens| && cIdx < |text| && tokens[tIdx] != Star
    requires tokens[tIdx].Literal? ==> tokens[tIdx].value <= text[cIdx..]
    ensures Searching(tokens, text, star, back, tIdx + 1, cIdx + TokenWidth(tokens[tIdx]))
  {
    var w := TokenWidth(tokens[tIdx]);
    assert tokens[tIdx..][1..] == tokens[tIdx + 1..];
    assert text[cIdx..][w..] == text[cIdx + w..];
    assert Accepts(tokens[tIdx..], text[cIdx..]) == Accepts(tokens[tIdx + 1..], text[cIdx + w..]);
    if star != -1 {
      assert tokens[star + 1..tIdx + 1] == tokens[star + 1..tIdx] + [tokens[tIdx]];
      WidthAppend(tokens[star + 1..tIdx], tokens[tIdx]);
    }
  }

  lemma EnterStar(tokens: seq<Token>, text: string, star: int, back: int, tIdx: nat, cIdx: nat)
    requires Searching(tokens, text, star, back, tIdx, cIdx)
    requires tIdx < |tokens| && tokens[tIdx] == Star
    ensures Searching(tokens, text, tIdx, cIdx, tIdx + 1, cIdx)
  {
    if star != -1 && back < |text| && Accepts(tokens[star..], text[back + 1..]) {
      LaterStartsLater(tokens, star, tIdx, text, back + 1);
      var p :| back + 1 + Width(tokens[star + 1..tIdx]) <= p <= |text| && Accepts(tokens[tIdx..], text[p..]);
      StarAbsorbs(tokens[tIdx..], text, cIdx, p);
    }
    StarUnfolds(tokens[tIdx..], text, cIdx);
    assert tokens[tIdx..][1..] == tokens[tIdx + 1..];
    assert tokens[tIdx + 1..tIdx + 1] == [];
  }

  lemma Retry(tokens: seq<Token>, text: string, star: int, back: int, tIdx: nat, cIdx: nat)
    requires Searching(tokens, text, star, back, tIdx, cIdx) && star != -1 && cIdx < |text|
    requires !Accepts(tokens[tIdx..], text[cIdx..])
    ensures Searching(tokens, text, star, back + 1, star + 1, back + 1)
  {
    StarUnfolds(tokens[star..], text, back + 1);
    assert tokens[star..][1..] == tokens[star + 1..];
    assert tokens[star + 1..star + 1] == [];
  }

  lemma AtEnd(tokens: seq<Token>, text: string, star: int, back: int, tIdx: nat)
    requires Searching(tokens, text, star, back, tIdx, |text|)
    ensures Accepts(tokens, text) == Accepts(tokens[tIdx..], "")
  {
    assert text[|text|..] == "";
    if star != -1 && back < |text| && Accepts(tokens[star..], text[back + 1..]) {
      LaterStartsLater(tokens, star, tIdx, text, back + 1);
    }
  }

  /** Iterations allowed after a number of restarts, each of at most `width` iterations. */
  function Rounds(restarts: nat, width: nat): nat {
    if restarts == 0 then 0 else Rounds(restarts - 1, width) + width
  }

  lemma {:induction false} RoundsGrow(low: nat, high: nat, width: nat)
    requires low <= high
    ensures Rounds(low, width) <= Rounds(high, width)
  {
    if low < high { RoundsGrow(low, high - 1, width); }
  }

  lemma {:induction false} RoundsIsProduct(restarts: nat, width: nat)
    ensures Rounds(restarts, width) == width * restarts
  {
    if restarts > 0 { RoundsIsProduct(restarts - 1, width); }
  }

  lemma Stuck(tokens: seq<Token>, text: string, tIdx: nat, cIdx: nat)
    requires tIdx <= |tokens| && cIdx < |text|
    requires tIdx < |tokens| ==> tokens[tIdx].Literal? && !(tokens[tIdx].value <= text[cIdx..])
    ensures !Accepts(tokens[tIdx..], text[cIdx..])
  {
  }

  /** The comparison loop for one literal. */
  method LiteralAt(value: string, candidate: string, cIdx: nat) returns (found: bool)
    requires cIdx <= |candidate|
    ensures found <==> value <= candidate[cIdx..]
  {
    found := true;
    if cIdx + |value| <= |candidate| {
      var i := 0;
      while i < |value|
        invariant 0 <= i <= |value|
        invariant forall j :: 0 <= j < i ==> candidate[cIdx..][j] == value[j]
      {
        if candidate[cIdx + i] != value[i] {
          found := false;
          break;
        }
        i := i + 1;
      }
    } else {
      found := false;
    }
  }

  /** matchGlobTokens: linear scan that backtracks only to the last star; `steps` counts its outer iterations. */
  method MatchGlobTokens(tokens: seq<Token>, candidate: string) returns (matched: bool, steps: nat)
    ensures matched <==> Accepts(tokens, candidate)
    ensures !HangingEmpty(tokens) ==> (matched <==> Splits(tokens, candidate))
    ensures NoEmptyLiteral(tokens) ==> (matched <==> Splits(tokens, candidate))
    ensures steps <= (|tokens| + 1) * (|candidate| + 1)
  {
    hide Accepts;
    var tIdx, cIdx, lastStarIdx, backtrackIdx := 0, 0, -1, 0;
    steps := 0;
    ghost var width := |tokens| + 1;
    RoundsIsProduct(|candidate| + 1, width);
    AgreeIff(tokens);
    if NoEmptyLiteral(tokens) { AcceptsIsSplits(tokens, candidate); }
    hide HangingEmpty, NoEmptyLiteral;
    assert tokens[0..] == tokens && candidate[0..] == candidate;
    while cIdx < |candidate|
      invariant lastStarIdx >= -1 && tIdx >= 0 && 0 <= backtrackIdx <= cIdx
      invariant Searching(tokens, candidate, lastStarIdx, backtrackIdx, tIdx, cIdx)
      invariant steps <= Rounds(backtrackIdx, width) + tIdx
      decreases |candidate| - backtrackIdx, |tokens| - tIdx
    {
      steps := steps + 1;
      if tIdx < |tokens| && tokens[tIdx].Literal? {
        var found := LiteralAt(tokens[tIdx].value, candidate, cIdx);
        if found {
          AdvanceToken(tokens, candidate, lastStarIdx, backtrackIdx, tIdx, cIdx);
          cIdx := cIdx + |tokens[tIdx].value|;
          tIdx := tIdx + 1;
          continue;
        }
      } else if tIdx < |tokens| && tokens[tIdx].Question? {
        AdvanceToken(tokens, candidate, lastStarIdx, backtrackIdx, tIdx, cIdx);
        cIdx := cIdx + 1;
        tIdx := tIdx + 1;
        continue;
      } else if tIdx < |tokens| && tokens[tIdx].Star? {
        EnterStar(tokens, candidate, lastStarIdx, backtrackIdx, tIdx, cIdx);
        RoundsGrow(backtrackIdx, cIdx, width);
        lastStarIdx := tIdx;
        tIdx := tIdx + 1;
        backtrackIdx := cIdx;
        continue;
      }
      Stuck(tokens, candidate, tIdx, cIdx);
      if lastStarIdx != -1 {
        Retry(tokens, candidate, lastStarIdx, backtrackIdx, tIdx, cIdx);
        tIdx := lastStarIdx + 1;
        backtrackIdx := backtrackIdx + 1;
        cIdx := backtrackIdx;
      } else {
        RoundsGrow(backtrackIdx + 1, |candidate| + 1, width);
        return false, steps;
      }
    }
    RoundsGrow(backtrackIdx + 1, |candidate| + 1, width);
    AtEnd(tokens, candidate, lastStarIdx, backtrackIdx, tIdx);
    tIdx := SkipStars(tokens, tIdx);
    matched := tIdx == |tokens| && cIdx == |candidate|;
  }

  /** The closing loop: trailing stars stand for nothing. */
  method SkipStars(tokens: seq<Token>, from: nat) returns (tIdx: nat)
    requires from <= |tokens|
    ensures from <= tIdx <= |tokens|
    ensures tIdx == |tokens| <==> Accepts(tokens[from..], "")
  {
    OnlyStarsAcceptNothing(tokens[from..]);
    tIdx := from;
    while tIdx < |tokens| && tokens[tIdx] == Star
      invariant from <= tIdx <= |tokens|
      invariant forall i :: from <= i < tIdx ==> tokens[i] == Star
    {
      tIdx := tIdx + 1;
    }
    if tIdx < |tokens| {
      assert tokens[from..][tIdx - from] != Star;
    }
  }
}
