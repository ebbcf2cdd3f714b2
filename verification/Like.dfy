/** LIKE patterns: what they match, and which byte pieces a match must contain. */
module Likes {
  import opened Bytes
  import opened Trigrams
  import opened Sequences

  /** A Unicode scalar value. */
  type Scalar = c: int | 0 <= c < 0x110000

  type Text = seq<Scalar>

  const PERCENT: Scalar := 0x25
  const UNDERSCORE: Scalar := 0x5f
  const BACKSLASH: Scalar := 0x5c

  /** The UTF-8 form of one scalar value, RFC 3629 section 3. */
  function Utf8Of(c: Scalar): (r: seq<byte>)
    ensures 1 <= |r| <= 4
  {
    if c < 0x80 then [c]
    else if c < 0x800 then [0xc0 + c / 64, 0x80 + c % 64]
    else if c < 0x10000 then [0xe0 + c / 4096, 0x80 + c / 64 % 64, 0x80 + c % 64]
    else [0xf0 + c / 262144, 0x80 + c / 4096 % 64, 0x80 + c / 64 % 64, 0x80 + c % 64]
  }

  function Utf8(t: Text): seq<byte> {
    if t == [] then [] else Utf8Of(t[0]) + Utf8(t[1..])
  }

  lemma {:induction false} Utf8Concat(a: Text, b: Text)
    ensures Utf8(a + b) == Utf8(a) + Utf8(b)
  {
    if a == [] {
      assert a + b == b;
    } else {
      Utf8Concat(a[1..], b);
      assert (a + b)[1..] == a[1..] + b;
      Associates(Utf8Of(a[0]), Utf8(a[1..]), Utf8(b));
    }
  }

  // ---- Matching ------------------------------------------------------------------------

  /**
   * The LIKE predicate without an ESCAPE clause, section 8.5 of ISO/IEC
   * 9075-2:2003: `%` stands for any text, `_` for any one character, and
   * everything else for itself.
   */
  predicate Matches(pattern: Text, t: Text)
    decreases |pattern| + |t|
  {
    if pattern == [] then t == []
    else if pattern[0] == PERCENT then Matches(pattern[1..], t) || (t != [] && Matches(pattern, t[1..]))
    else t != [] && (pattern[0] == UNDERSCORE || pattern[0] == t[0]) && Matches(pattern[1..], t[1..])
  }

  /** The same with an escape character, which makes the character after it stand for itself. */
  predicate MatchesEscaped(pattern: Text, t: Text, escape: Scalar)
    decreases |pattern| + |t|
  {
    if pattern == [] then t == []
    else if pattern[0] == escape && |pattern| > 1 then
      t != [] && t[0] == pattern[1] && MatchesEscaped(pattern[2..], t[1..], escape)
    else if pattern[0] == PERCENT then
      MatchesEscaped(pattern[1..], t, escape) || (t != [] && MatchesEscaped(pattern, t[1..], escape))
    else t != [] && (pattern[0] == UNDERSCORE || pattern[0] == t[0]) && MatchesEscaped(pattern[1..], t[1..], escape)
  }

  /** A pattern without the escape character means the same either way. */
  lemma {:induction false} NoEscapeNoDifference(pattern: Text, t: Text, escape: Scalar)
    requires escape !in pattern
    ensures MatchesEscaped(pattern, t, escape) == Matches(pattern, t)
    decreases |pattern| + |t|
  {
    if pattern != [] {
      assert pattern[0] in pattern;
      NoEscapeNoDifference(pattern[1..], t, escape);
      if t != [] {
        NoEscapeNoDifference(pattern, t[1..], escape);
        NoEscapeNoDifference(pattern[1..], t[1..], escape);
      }
    }
  }

  // ---- Fragments -------------------------------------------------------------------------

  predicate Wild(c: Scalar) {
    c == PERCENT || c == UNDERSCORE
  }

  /** How many characters come before the first wildcard. */
  function RunLength(pattern: Text): (n: nat)
    ensures n <= |pattern|
    ensures forall i :: 0 <= i < n ==> !Wild(pattern[i])
    ensures n < |pattern| ==> Wild(pattern[n])
  {
    if pattern == [] || Wild(pattern[0]) then 0 else 1 + RunLength(pattern[1..])
  }

  /** The non-empty runs between wildcards. */
  function Fragments(pattern: Text): seq<Text>
    decreases |pattern|
  {
    var n := RunLength(pattern);
    var first := if n == 0 then [] else [pattern[..n]];
    if n == |pattern| then first else first + Fragments(pattern[n + 1..])
  }

  /** `part` occurs in `whole`. */
  ghost predicate Within<T>(part: seq<T>, whole: seq<T>) {
    exists i :: OccursAt(part, whole, i)
  }

  predicate OccursAt<T(==)>(part: seq<T>, whole: seq<T>, i: int) {
    0 <= i && i + |part| <= |whole| && whole[i..i + |part|] == part
  }

  /** A match starts with the pattern's leading run, and matches the rest after it. */
  lemma {:induction false} RunMatches(pattern: Text, t: Text)
    requires Matches(pattern, t)
    ensures var n := RunLength(pattern); n <= |t| && t[..n] == pattern[..n] && Matches(pattern[n..], t[n..])
  {
    if RunLength(pattern) == 0 {
      assert pattern[0..] == pattern && t[0..] == t;
    } else {
      RunMatches(pattern[1..], t[1..]);
      var n := RunLength(pattern);
      assert pattern[1..][..n - 1] == pattern[1..n] && t[1..][..n - 1] == t[1..n];
      assert pattern[..n] == [pattern[0]] + pattern[1..n] && t[..n] == [t[0]] + t[1..n];
      assert pattern[1..][n - 1..] == pattern[n..] && t[1..][n - 1..] == t[n..];
    }
  }

  /** After a wildcard, the rest of the pattern matches some tail. */
  lemma {:induction false} WildMatches(pattern: Text, t: Text) returns (k: nat)
    requires pattern != [] && Wild(pattern[0]) && Matches(pattern, t)
    ensures k <= |t| && Matches(pattern[1..], t[k..])
    decreases |t|
  {
    if pattern[0] == UNDERSCORE {
      k := 1;
    } else if Matches(pattern[1..], t) {
      k := 0;
      assert t[0..] == t;
    } else {
      var j := WildMatches(pattern, t[1..]);
      k := j + 1;
      assert t[1..][j..] == t[k..];
    }
  }

  lemma WithinTail<T>(part: seq<T>, whole: seq<T>, k: nat)
    requires k <= |whole| && Within(part, whole[k..])
    ensures Within(part, whole)
  {
    var i :| OccursAt(part, whole[k..], i);
    assert whole[k..][i..i + |part|] == whole[k + i..k + i + |part|];
    assert OccursAt(part, whole, k + i);
  }

  /** Every run of a pattern occurs in every text it matches. */
  lemma {:induction false} FragmentsOccur(pattern: Text, t: Text, f: nat)
    requires Matches(pattern, t) && f < |Fragments(pattern)|
    ensures Within(Fragments(pattern)[f], t)
    decreases |pattern|
  {
    var n := RunLength(pattern);
    RunMatches(pattern, t);
    var first := if n == 0 then [] else [pattern[..n]];
    if f < |first| {
      assert OccursAt(pattern[..n], t, 0);
    } else {
      var k := WildMatches(pattern[n..], t[n..]);
      assert pattern[n..][1..] == pattern[n + 1..] && t[n..][k..] == t[n + k..];
      FragmentsOccur(pattern[n + 1..], t[n + k..], f - |first|);
      WithinTail(Fragments(pattern)[f], t, n + k);
    }
  }

  /** Text containment is byte containment. */
  lemma Utf8Within(part: Text, whole: Text)
    requires Within(part, whole)
    ensures Within(Utf8(part), Utf8(whole))
  {
    var i :| OccursAt(part, whole, i);
    var head, tail := whole[..i], whole[i + |part|..];
    assert whole == head + part + tail;
    Utf8Concat(head + part, tail);
    Utf8Concat(head, part);
    Middle(Utf8(head), Utf8(part), Utf8(tail));
  }

  lemma Middle<T>(a: seq<T>, b: seq<T>, c: seq<T>)
    ensures Within(b, a + b + c)
  {
    assert (a + b + c)[|a|..|a| + |b|] == b;
    assert OccursAt(b, a + b + c, |a|);
  }

  /** The pieces of a part are pieces of the whole. */
  lemma {:induction false} PiecesWithin(part: seq<byte>, whole: seq<byte>, n: nat)
    requires Within(part, whole) && n <= |part|
    ensures PiecesTo(part, n) <= PiecesOf(whole)
  {
    if n >= SIZE {
      PiecesWithin(part, whole, n - 1);
      var i :| OccursAt(part, whole, i);
      SliceOfSlice(whole, i, i + |part|, n - SIZE, n);
      WindowIsPiece(whole, i + n - SIZE, |whole|);
    }
  }

  // ---- What a match requires -----------------------------------------------------------------

  /** The places of the pieces of all a pattern's runs. */
  function RunPieces(runs: seq<Text>): (r: set<nat>)
    ensures forall at :: at in r ==> at < SPACE
  {
    if runs == [] then {} else RunPieces(runs[..|runs| - 1]) + PiecesOf(Utf8(runs[|runs| - 1]))
  }

  lemma {:induction false} RunsOccur(pattern: Text, t: Text, n: nat)
    requires Matches(pattern, t) && n <= |Fragments(pattern)|
    ensures RunPieces(Fragments(pattern)[..n]) <= PiecesOf(Utf8(t))
  {
    var runs := Fragments(pattern);
    if n > 0 {
      RunsOccur(pattern, t, n - 1);
      assert runs[..n][..n - 1] == runs[..n - 1];
      FragmentsOccur(pattern, t, n - 1);
      Utf8Within(runs[n - 1], t);
      PiecesWithin(Utf8(runs[n - 1]), Utf8(t), |Utf8(runs[n - 1])|);
    }
  }

  /** Every text a pattern matches holds every piece the pattern requires. */
  lemma MatchHoldsPieces(pattern: Text, t: Text)
    requires Matches(pattern, t)
    ensures RunPieces(Fragments(pattern)) <= PiecesOf(Utf8(t))
  {
    RunsOccur(pattern, t, |Fragments(pattern)|);
    assert Fragments(pattern)[..|Fragments(pattern)|] == Fragments(pattern);
  }

  /** The pieces in a list, by place. */
  function Places(pieces: seq<Piece>): (r: set<nat>)
    ensures forall at :: at in r ==> at < SPACE
  {
    if pieces == [] then {} else Places(pieces[..|pieces| - 1]) + {IndexOf(pieces[|pieces| - 1])}
  }

  lemma {:induction false} InPlaces(pieces: seq<Piece>, piece: Piece)
    ensures IndexOf(piece) in Places(pieces) <==> piece in pieces
  {
    if pieces != [] {
      var init, last := pieces[..|pieces| - 1], pieces[|pieces| - 1];
      InPlaces(init, piece);
      PieceRoundTrip(piece);
      PieceRoundTrip(last);
      assert pieces == init + [last];
    }
  }

  predicate NoRepeats(pieces: seq<Piece>) {
    forall i, j :: 0 <= i < j < |pieces| ==> pieces[i] != pieces[j]
  }

  /** The pieces a match must contain, each once. */
  method Required(pattern: Text) returns (out: seq<Piece>)
    ensures Places(out) == RunPieces(Fragments(pattern)) && NoRepeats(out)
  {
    out := [];
    var runs := Fragments(pattern);
    for f := 0 to |runs|
      invariant Places(out) == RunPieces(runs[..f]) && NoRepeats(out)
    {
      assert runs[..f + 1][..f] == runs[..f];
      out := RequireRun(out, Utf8(runs[f]));
    }
    assert runs[..|runs|] == runs;
  }

  method RequireRun(before: seq<Piece>, bytes: seq<byte>) returns (out: seq<Piece>)
    requires NoRepeats(before)
    ensures Places(out) == Places(before) + PiecesOf(bytes) && NoRepeats(out)
  {
    out := before;
    for n := 0 to |bytes|
      invariant Places(out) == Places(before) + PiecesTo(bytes, n) && NoRepeats(out)
    {
      if n + 1 >= SIZE {
        var piece: Piece := bytes[n + 1 - SIZE..n + 1];
        InPlaces(out, piece);
        if piece !in out {
          assert (out + [piece])[..|out|] == out;
          out := out + [piece];
        }
      }
    }
  }

  /**
   * Under a dialect in which backslash escapes, the pieces are not required:
   * this pattern matches this text, which lacks one of them.
   */
  lemma EscapedPatternOverclaims()
    ensures var pattern, t: Text := [0x61, 0x62, BACKSLASH, PERCENT], [0x61, 0x62, PERCENT];
            && MatchesEscaped(pattern, t, BACKSLASH)
            && !(RunPieces(Fragments(pattern)) <= PiecesOf(Utf8(t)))
  {
    var pattern: Text, t: Text := [0x61, 0x62, BACKSLASH, PERCENT], [0x61, 0x62, PERCENT];
    assert MatchesEscaped(pattern[4..], t[3..], BACKSLASH);
    assert pattern[1..][1..] == [BACKSLASH, PERCENT] && t[1..][1..] == [PERCENT];
    assert pattern[1..][1..][2..] == [] && t[1..][1..][1..] == [];
    assert MatchesEscaped(pattern[1..][1..], t[1..][1..], BACKSLASH);
    assert MatchesEscaped(pattern[1..], t[1..], BACKSLASH);
    var run: Text := [0x61, 0x62, BACKSLASH];
    assert pattern[1..][1..][1..] == [PERCENT];
    assert RunLength(pattern[1..][1..]) == 1;
    assert RunLength(pattern[1..]) == 2;
    assert RunLength(pattern) == 3 && pattern[..3] == run;
    assert pattern[4..] == [];
    assert Fragments(pattern) == [run];
    AsciiBytes(run);
    AsciiBytes(t);
    assert Utf8(run) == [0x61, 0x62, 0x5c] && Utf8(t) == [0x61, 0x62, 0x25];
    var one := [run];
    assert one[..0] == [] && RunPieces(one) == PiecesOf(Utf8(run));
    var a: seq<byte>, b: seq<byte> := [0x61, 0x62, 0x5c], [0x61, 0x62, 0x25];
    assert a[0..3] == a && b[0..3] == b;
    assert PiecesTo(a, 2) == {} && PiecesTo(b, 2) == {};
    assert IndexOf(a) in PiecesOf(a) && PiecesOf(b) == {IndexOf(b)};
  }

  lemma AsciiBytes(t: Text)
    requires |t| == 3 && t[0] < 0x80 && t[1] < 0x80 && t[2] < 0x80
    ensures Utf8(t) == [t[0], t[1], t[2]]
  {
    assert t[1..][1..] == [t[2]] && t[1..][1..][1..] == [];
    assert Utf8(t[1..][1..]) == [t[2]];
    assert Utf8(t[1..]) == [t[1], t[2]];
  }
}
