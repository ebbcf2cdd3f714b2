/** LIKE with an escape character: when its patterns may be pruned too. */
module LikeEscapes {
  import opened Bytes
  import opened Trigrams
  import opened Likes

  /** What a pattern says once its escapes are read. */
  datatype Token = Literal(c: Scalar) | AnyOne | AnyText

  function Tokens(pattern: Text, escape: Scalar): seq<Token>
    decreases |pattern|
  {
    if pattern == [] then []
    else if pattern[0] == escape && |pattern| > 1 then [Literal(pattern[1])] + Tokens(pattern[2..], escape)
    else if pattern[0] == PERCENT then [AnyText] + Tokens(pattern[1..], escape)
    else if pattern[0] == UNDERSCORE then [AnyOne] + Tokens(pattern[1..], escape)
    else [Literal(pattern[0])] + Tokens(pattern[1..], escape)
  }

  predicate TokensMatch(tokens: seq<Token>, t: Text)
    decreases |tokens| + |t|
  {
    if tokens == [] then t == []
    else match tokens[0]
         case AnyText => TokensMatch(tokens[1..], t) || (t != [] && TokensMatch(tokens, t[1..]))
         case AnyOne => t != [] && TokensMatch(tokens[1..], t[1..])
         case Literal(c) => t != [] && c == t[0] && TokensMatch(tokens[1..], t[1..])
  }

  /** Reading the escapes first changes no match. */
  lemma {:induction false} TokensDecide(pattern: Text, t: Text, escape: Scalar)
    ensures MatchesEscaped(pattern, t, escape) == TokensMatch(Tokens(pattern, escape), t)
    decreases |pattern| + |t|
  {
    if pattern != [] {
      var tokens := Tokens(pattern, escape);
      if pattern[0] == escape && |pattern| > 1 {
        assert tokens[1..] == Tokens(pattern[2..], escape);
        if t != [] {
          TokensDecide(pattern[2..], t[1..], escape);
        }
      } else {
        assert tokens[1..] == Tokens(pattern[1..], escape);
        TokensDecide(pattern[1..], t, escape);
        if t != [] {
          TokensDecide(pattern[1..], t[1..], escape);
          TokensDecide(pattern, t[1..], escape);
        }
      }
    }
  }

  /** The literals before the first wildcard. */
  function Lead(tokens: seq<Token>): (run: Text)
    ensures |run| <= |tokens|
    ensures |run| < |tokens| ==> !tokens[|run|].Literal?
  {
    if tokens == [] || !tokens[0].Literal? then [] else [tokens[0].c] + Lead(tokens[1..])
  }

  /** The pieces of the runs of literals between wildcards. */
  function LiteralPieces(tokens: seq<Token>): (r: set<nat>)
    ensures forall at :: at in r ==> at < SPACE
    decreases |tokens|
  {
    var run := Lead(tokens);
    PiecesOf(Utf8(run)) + (if |run| == |tokens| then {} else LiteralPieces(tokens[|run| + 1..]))
  }

  // ---- Every match holds them -------------------------------------------------------------

  lemma {:induction false} LeadMatches(tokens: seq<Token>, t: Text)
    requires TokensMatch(tokens, t)
    ensures var run := Lead(tokens); run <= t && TokensMatch(tokens[|run|..], t[|run|..])
  {
    if tokens != [] && tokens[0].Literal? {
      LeadMatches(tokens[1..], t[1..]);
      var n := |Lead(tokens[1..])|;
      assert tokens[1..][n..] == tokens[n + 1..] && t[1..][n..] == t[n + 1..];
    }
  }

  /** After a wildcard, the rest matches some tail. */
  lemma {:induction false} WildTail(tokens: seq<Token>, t: Text) returns (k: nat)
    requires tokens != [] && !tokens[0].Literal? && TokensMatch(tokens, t)
    ensures k <= |t| && TokensMatch(tokens[1..], t[k..])
    decreases |t|
  {
    if tokens[0].AnyOne? {
      k := 1;
    } else if TokensMatch(tokens[1..], t) {
      k := 0;
    } else {
      k := WildTail(tokens, t[1..]);
      assert t[1..][k..] == t[k + 1..];
      k := k + 1;
    }
  }

  lemma PartPieces(part: Text, whole: Text)
    requires Within(part, whole)
    ensures PiecesOf(Utf8(part)) <= PiecesOf(Utf8(whole))
  {
    var a, b := Utf8(part), Utf8(whole);
    Utf8Within(part, whole);
    PiecesWithin(a, b, |a|);
  }

  /** `held` stands for the pieces of `whole`, of which `t` is what is left to match. */
  lemma {:induction false} MatchHoldsLiterals(tokens: seq<Token>, t: Text, whole: Text, i: nat, held: set<nat>)
    requires i <= |whole| && t == whole[i..] && TokensMatch(tokens, t)
    requires forall part: Text :: Within(part, whole) ==> PiecesOf(Utf8(part)) <= held
    ensures LiteralPieces(tokens) <= held
    decreases |tokens|
  {
    var run := Lead(tokens);
    var n := |run|;
    LeadMatches(tokens, t);
    assert OccursAt(run, whole, i);
    assert Within(run, whole);
    if n < |tokens| {
      var k := WildTail(tokens[n..], t[n..]);
      TailMatches(tokens, t, n, k);
      assert t[n + k..] == whole[i + n + k..];
      MatchHoldsLiterals(tokens[n + 1..], t[n + k..], whole, i + n + k, held);
    }
    LeadThenRest(tokens, held);
  }

  lemma LeadThenRest(tokens: seq<Token>, held: set<nat>)
    requires var run := Lead(tokens);
             && PiecesOf(Utf8(run)) <= held
             && (|run| < |tokens| ==> LiteralPieces(tokens[|run| + 1..]) <= held)
    ensures LiteralPieces(tokens) <= held
  {
  }

  lemma TailMatches(tokens: seq<Token>, t: Text, n: nat, k: nat)
    requires n < |tokens| && n + k <= |t| && TokensMatch(tokens[n..][1..], t[n..][k..])
    ensures TokensMatch(tokens[n + 1..], t[n + k..])
  {
    assert tokens[n..][1..] == tokens[n + 1..] && t[n..][k..] == t[n + k..];
  }

  // ---- And some match holds no others -----------------------------------------------------

  /** A text the tokens match: the literals, with `x` for every wildcard. */
  function Fill(tokens: seq<Token>, x: Scalar): (t: Text)
    ensures |t| == |tokens|
  {
    if tokens == [] then []
    else [if tokens[0].Literal? then tokens[0].c else x] + Fill(tokens[1..], x)
  }

  lemma {:induction false} FillMatches(tokens: seq<Token>, x: Scalar)
    ensures TokensMatch(tokens, Fill(tokens, x))
  {
    if tokens != [] {
      FillMatches(tokens[1..], x);
      assert Fill(tokens, x)[1..] == Fill(tokens[1..], x);
    }
  }

  lemma {:induction false} FillSplits(tokens: seq<Token>, x: Scalar)
    ensures var run := Lead(tokens);
            Fill(tokens, x) == if |run| == |tokens| then run else run + [x] + Fill(tokens[|run| + 1..], x)
  {
    if tokens != [] && tokens[0].Literal? {
      FillSplits(tokens[1..], x);
      var n := |Lead(tokens[1..])|;
      if n < |tokens| - 1 {
        assert tokens[1..][n + 1..] == tokens[n + 2..];
      }
    }
  }

  /** A piece of a text is one of its windows. */
  lemma {:induction false} PieceIsWindow(text: seq<byte>, n: nat, piece: Piece) returns (i: nat)
    requires n <= |text| && IndexOf(piece) in PiecesTo(text, n)
    ensures i + SIZE <= n && piece == text[i..i + SIZE]
  {
    if IndexOf(piece) in PiecesTo(text, n - 1) {
      i := PieceIsWindow(text, n - 1, piece);
    } else {
      i := n - SIZE;
      PieceRoundTrip(piece);
      PieceRoundTrip(text[i..n]);
    }
  }

  lemma PlaceRoundTrip(at: nat)
    requires at < SPACE
    ensures IndexOf(PieceAt(at)) == at
  {
  }

  /** A piece without the byte in the middle lies on one side of it. */
  lemma PieceOnOneSide(a: seq<byte>, x: byte, b: seq<byte>, piece: Piece)
    requires IndexOf(piece) in PiecesOf(a + [x] + b) && x !in piece
    ensures IndexOf(piece) in PiecesOf(a) || IndexOf(piece) in PiecesOf(b)
  {
    var text := a + [x] + b;
    assert text[|a|] == x;
    var i := PieceIsWindow(text, |text|, piece);
    if i <= |a| < i + SIZE {
      WindowHas(text, i, |a|);
    } else if i < |a| {
      WindowBefore(a, [x] + b, i, text);
      WindowIsPiece(a, i, |a|);
    } else {
      WindowAfter(a + [x], b, i, text);
      WindowIsPiece(b, i - |a| - 1, |b|);
    }
  }

  lemma WindowBefore(a: seq<byte>, b: seq<byte>, i: nat, text: seq<byte>)
    requires text == a + b && i + SIZE <= |a|
    ensures text[i..i + SIZE] == a[i..i + SIZE]
  {
  }

  lemma WindowAfter(a: seq<byte>, b: seq<byte>, i: nat, text: seq<byte>)
    requires text == a + b && |a| <= i && i + SIZE <= |text|
    ensures text[i..i + SIZE] == b[i - |a|..i - |a| + SIZE]
  {
  }

  lemma WindowHas(text: seq<byte>, i: nat, k: nat)
    requires i <= k < i + SIZE <= |text|
    ensures text[k] in text[i..i + SIZE]
  {
    assert text[i..i + SIZE][k - i] == text[k];
  }

  lemma {:induction false} FillHoldsLiteralsOnly(tokens: seq<Token>, x: Scalar, piece: Piece)
    requires x < 0x80 && IndexOf(piece) in PiecesOf(Utf8(Fill(tokens, x))) && x !in piece
    ensures IndexOf(piece) in LiteralPieces(tokens)
    decreases |tokens|
  {
    var run := Lead(tokens);
    FillSplits(tokens, x);
    if |run| < |tokens| {
      var rest := Fill(tokens[|run| + 1..], x);
      Utf8Concat(run + [x], rest);
      Utf8Concat(run, [x]);
      assert Utf8([x]) == [x];
      PieceOnOneSide(Utf8(run), x, Utf8(rest), piece);
      if IndexOf(piece) in PiecesOf(Utf8(rest)) {
        FillHoldsLiteralsOnly(tokens[|run| + 1..], x, piece);
      }
    }
  }

  /** Some letter is not among three bytes. */
  lemma Missing(piece: Piece) returns (x: byte)
    ensures 0x61 <= x < 0x80 && x !in piece
  {
    x := if 0x61 !in piece then 0x61 else if 0x62 !in piece then 0x62 else if 0x63 !in piece then 0x63 else 0x64;
  }

  /**
   * Exactly when the pieces taken from a pattern may be required under a dialect
   * with an escape character: when each lies in a run of what the pattern's
   * literals are once its escapes are read.
   */
  lemma EscapedRequirementIff(pattern: Text, escape: Scalar)
    ensures (forall t :: MatchesEscaped(pattern, t, escape) ==> RunPieces(Fragments(pattern)) <= PiecesOf(Utf8(t)))
       <==> RunPieces(Fragments(pattern)) <= LiteralPieces(Tokens(pattern, escape))
  {
    var required, tokens := RunPieces(Fragments(pattern)), Tokens(pattern, escape);
    if required <= LiteralPieces(tokens) {
      forall t | MatchesEscaped(pattern, t, escape)
        ensures required <= PiecesOf(Utf8(t))
      {
        TokensDecide(pattern, t, escape);
        forall part: Text | Within(part, t)
          ensures PiecesOf(Utf8(part)) <= PiecesOf(Utf8(t))
        {
          PartPieces(part, t);
        }
        MatchHoldsLiterals(tokens, t, t, 0, PiecesOf(Utf8(t)));
      }
    } else {
      var at :| at in required && at !in LiteralPieces(tokens);
      PlaceRoundTrip(at);
      var x := Missing(PieceAt(at));
      var t := Fill(tokens, x);
      FillMatches(tokens, x);
      TokensDecide(pattern, t, escape);
      if at in PiecesOf(Utf8(t)) {
        FillHoldsLiteralsOnly(tokens, x, PieceAt(at));
      }
      assert MatchesEscaped(pattern, t, escape) && !(required <= PiecesOf(Utf8(t)));
    }
  }
}
