// ReplaceAll of the strings library: edits a string in place, left to right.
module ReplaceAll {

  predicate MatchesAt(s: string, pattern: string, i: nat) {
    i + |pattern| <= |s| && s[i..i + |pattern|] == pattern
  }

  ghost predicate NoMatch(s: string, pattern: string, from: nat, to: nat) {
    forall j :: from <= j < to ==> !MatchesAt(s, pattern, j)
  }

  // The first match at or after a position, or the length if there is none.
  function Find(s: string, pattern: string, i: nat): (r: nat)
    requires i <= |s|
    ensures i <= r <= |s|
    ensures r < |s| ==> MatchesAt(s, pattern, r)
    ensures NoMatch(s, pattern, i, r)
    decreases |s| - i
  {
    if i == |s| || MatchesAt(s, pattern, i) then i else Find(s, pattern, i + 1)
  }

  // Replaces leftmost matches that do not overlap; inserted text is not searched.
  function Replaced(s: string, pattern: string, to: string): string
    requires pattern != ""
    decreases |s|
  {
    if s == "" then ""
    else if MatchesAt(s, pattern, 0) then to + Replaced(s[|pattern|..], pattern, to)
    else [s[0]] + Replaced(s[1..], pattern, to)
  }

  // How many matches are replaced.
  function Matches(s: string, pattern: string): nat
    requires pattern != ""
    decreases |s|
  {
    if s == "" then 0
    else if MatchesAt(s, pattern, 0) then 1 + Matches(s[|pattern|..], pattern)
    else Matches(s[1..], pattern)
  }

  lemma MatchInSuffix(s: string, pattern: string, i: nat)
    requires i <= |s|
    ensures MatchesAt(s[i..], pattern, 0) <==> MatchesAt(s, pattern, i)
  {
    if i + |pattern| <= |s| {
      assert s[i..][0..0 + |pattern|] == s[i..i + |pattern|];
    }
  }

  lemma {:induction false} SkipToMatch(s: string, pattern: string, to: string, i: nat, p: nat)
    requires pattern != "" && i <= p <= |s| && NoMatch(s, pattern, i, p)
    ensures Replaced(s[i..], pattern, to) == s[i..p] + Replaced(s[p..], pattern, to)
    ensures Matches(s[i..], pattern) == Matches(s[p..], pattern)
    decreases p - i
  {
    if i == p {
      assert s[i..p] == "";
    } else {
      MatchInSuffix(s, pattern, i);
      assert s[i..][1..] == s[i + 1..];
      SkipToMatch(s, pattern, to, i + 1, p);
      assert s[i..p] == [s[i]] + s[i + 1..p];
      assert [s[i]] + (s[i + 1..p] + Replaced(s[p..], pattern, to)) == s[i..p] + Replaced(s[p..], pattern, to);
    }
  }

  // Text after the last match stays as it is.
  lemma {:induction false} NothingToReplace(s: string, pattern: string, to: string)
    requires pattern != "" && NoMatch(s, pattern, 0, |s|)
    ensures Replaced(s, pattern, to) == s && Matches(s, pattern) == 0
  {
    SkipToMatch(s, pattern, to, 0, |s|);
    assert s[0..] == s && s[|s|..] == "" && s[0..|s|] + "" == s;
  }

  // Every replacement changes the length by the same amount d.
  lemma {:induction false} LengthOfReplaced(s: string, pattern: string, to: string, d: int)
    requires pattern != "" && d == |to| - |pattern|
    ensures |Replaced(s, pattern, to)| == |s| + Matches(s, pattern) * d
    decreases |s|
  {
    if s == "" {
    } else if MatchesAt(s, pattern, 0) {
      LengthOfReplaced(s[|pattern|..], pattern, to, d);
      OneMore(Matches(s[|pattern|..], pattern), d);
    } else {
      LengthOfReplaced(s[1..], pattern, to, d);
    }
  }

  lemma OneMore(k: nat, d: int)
    ensures (1 + k) * d == d + k * d
  {
  }

  // Editing the match at pos replaces the first match of the rest.
  lemma OneEdit(s: string, pattern: string, to: string, pos: nat)
    requires pattern != "" && MatchesAt(s, pattern, pos)
    ensures var edited, next := s[..pos] + to + s[pos + |pattern|..], pos + |to|;
            && next <= |edited| == |s| + |to| - |pattern|
            && |edited| - next < |s| - pos
            && edited[..next] + Replaced(edited[next..], pattern, to) == s[..pos] + Replaced(s[pos..], pattern, to)
  {
    var rest := s[pos + |pattern|..];
    var edited, next := s[..pos] + to + rest, pos + |to|;
    MatchInSuffix(s, pattern, pos);
    assert s[pos..][|pattern|..] == rest;
    assert edited[..next] == s[..pos] + to && edited[next..] == rest;
    var r := Replaced(rest, pattern, to);
    assert s[..pos] + (to + r) == (s[..pos] + to) + r;
  }

  // Text without a match is passed over.
  lemma FromTheNextMatch(s: string, pattern: string, to: string, pos: nat, next: nat)
    requires pattern != "" && pos <= next <= |s| && NoMatch(s, pattern, pos, next)
    ensures s[..next] + Replaced(s[next..], pattern, to) == s[..pos] + Replaced(s[pos..], pattern, to)
  {
    SkipToMatch(s, pattern, to, pos, next);
    var r := Replaced(s[next..], pattern, to);
    assert s[..next] == s[..pos] + s[pos..next];
    assert s[..pos] + (s[pos..next] + r) == (s[..pos] + s[pos..next]) + r;
  }

  // The edit loop: it ends although the string may grow, because the part that is
  // still to be searched shrinks.
  method ReplaceInPlace(text: string, pattern: string, to: string) returns (s: string)
    ensures pattern == "" ==> s == text
    ensures pattern != "" ==> s == Replaced(text, pattern, to)
    ensures pattern != "" ==> |s| == |text| + Matches(text, pattern) * (|to| - |pattern|)
  {
    s := text;
    if pattern == "" {
      return;
    }
    var pos: nat := Find(s, pattern, 0);
    assert text[0..] == text;
    SkipToMatch(text, pattern, to, 0, pos);
    while pos < |s|
      invariant pos <= |s| && (pos < |s| ==> MatchesAt(s, pattern, pos))
      invariant s[..pos] + Replaced(s[pos..], pattern, to) == Replaced(text, pattern, to)
      decreases |s| - pos
    {
      OneEdit(s, pattern, to, pos);
      s := s[..pos] + to + s[pos + |pattern|..];
      ghost var searched := pos + |to|;
      pos := Find(s, pattern, pos + |to|);
      FromTheNextMatch(s, pattern, to, searched, pos);
    }
    assert s[..|s|] == s && s + "" == s;
    LengthOfReplaced(text, pattern, to, |to| - |pattern|);
  }

  // ---------------------------------------------------------------------
  // Replacement as splitting and joining
  // ---------------------------------------------------------------------

  // The pieces between the matches that are replaced.
  function Pieces(s: string, pattern: string): (r: seq<string>)
    requires pattern != ""
    ensures r != []
    decreases |s|
  {
    var p := Find(s, pattern, 0);
    if p == |s| then [s] else [s[..p]] + Pieces(s[p + |pattern|..], pattern)
  }

  function Joined(pieces: seq<string>, separator: string): string
    requires pieces != []
  {
    if |pieces| == 1 then pieces[0] else pieces[0] + (separator + Joined(pieces[1..], separator))
  }

  lemma JoinedCons(piece: string, pieces: seq<string>, separator: string)
    requires pieces != []
    ensures Joined([piece] + pieces, separator) == piece + (separator + Joined(pieces, separator))
  {
    assert ([piece] + pieces)[1..] == pieces;
  }

  // The text is its pieces joined by the pattern, and the result is the same pieces
  // joined by the new text.
  lemma {:induction false} ReplacementJoinsThePieces(s: string, pattern: string, to: string)
    requires pattern != ""
    ensures var ps := Pieces(s, pattern);
            && s == Joined(ps, pattern) && Replaced(s, pattern, to) == Joined(ps, to)
            && Matches(s, pattern) == |ps| - 1
    decreases |s|
  {
    var p := Find(s, pattern, 0);
    if p == |s| {
      NothingToReplace(s, pattern, to);
    } else {
      var rest := s[p + |pattern|..];
      ReplacementJoinsThePieces(rest, pattern, to);
      SplitAtFirstMatch(s, pattern, to, p);
      JoinedCons(s[..p], Pieces(rest, pattern), pattern);
      JoinedCons(s[..p], Pieces(rest, pattern), to);
    }
  }

  // In every piece followed by the pattern the first match is that of the pattern
  // itself, and the last piece has no match.
  ghost predicate Leftmost(pieces: seq<string>, pattern: string)
    requires pieces != []
  {
    if |pieces| == 1 then NoMatch(pieces[0], pattern, 0, |pieces[0]|)
    else Find(pieces[0] + pattern, pattern, 0) == |pieces[0]| && Leftmost(pieces[1..], pattern)
  }

  lemma LeftmostCons(piece: string, pieces: seq<string>, pattern: string)
    requires pieces != [] && Leftmost(pieces, pattern) && Find(piece + pattern, pattern, 0) == |piece|
    ensures Leftmost([piece] + pieces, pattern)
  {
    assert ([piece] + pieces)[1..] == pieces;
  }

  lemma PiecesCons(s: string, pattern: string, p: nat, piece: string, rest: string)
    requires pattern != "" && MatchesAt(s, pattern, p) && NoMatch(s, pattern, 0, p)
    requires piece == s[..p] && rest == s[p + |pattern|..]
    ensures Pieces(s, pattern) == [piece] + Pieces(rest, pattern)
  {
    assert Find(s, pattern, 0) == p;
  }

  lemma {:induction false} PiecesAreLeftmost(s: string, pattern: string)
    requires pattern != ""
    ensures Leftmost(Pieces(s, pattern), pattern)
    decreases |s|
  {
    var p := Find(s, pattern, 0);
    if p < |s| {
      PiecesAreLeftmost(s[p + |pattern|..], pattern);
      FirstMatchOfPiece(s, pattern, p);
      LeftmostCons(s[..p], Pieces(s[p + |pattern|..], pattern), pattern);
      PiecesCons(s, pattern, p, s[..p], s[p + |pattern|..]);
    }
  }

  lemma PiecesOfLast(s: string, pattern: string)
    requires pattern != "" && NoMatch(s, pattern, 0, |s|)
    ensures Pieces(s, pattern) == [s]
  {
    assert Find(s, pattern, 0) == |s|;
  }

  lemma PiecesOfText(piece: string, pattern: string, rest: string)
    requires pattern != "" && Find(piece + pattern, pattern, 0) == |piece|
    ensures Pieces(piece + (pattern + rest), pattern) == [piece] + Pieces(rest, pattern)
  {
    FirstMatchOfText(piece, pattern, rest);
    CutAtMatch(piece, pattern, rest);
    PiecesCons(piece + (pattern + rest), pattern, |piece|, piece, rest);
  }

  // There is only one way to cut a text like that, so the two properties above
  // determine the result without reference to the order of the search.
  lemma {:induction false} LeftmostPiecesAreUnique(pieces: seq<string>, pattern: string)
    requires pattern != "" && pieces != [] && Leftmost(pieces, pattern)
    ensures Pieces(Joined(pieces, pattern), pattern) == pieces
    decreases |pieces|
  {
    if |pieces| == 1 {
      PiecesOfLast(pieces[0], pattern);
      assert pieces == [pieces[0]];
    } else {
      var piece, rest := pieces[0], pieces[1..];
      assert pieces == [piece] + rest;
      LeftmostPiecesAreUnique(rest, pattern);
      JoinedCons(piece, rest, pattern);
      PiecesOfText(piece, pattern, Joined(rest, pattern));
    }
  }

  lemma CutAtMatch(piece: string, pattern: string, rest: string)
    ensures var s := piece + (pattern + rest); s[..|piece|] == piece && s[|piece| + |pattern|..] == rest
  {
  }

  lemma FirstMatchOfText(piece: string, pattern: string, rest: string)
    requires pattern != "" && Find(piece + pattern, pattern, 0) == |piece|
    ensures var s := piece + (pattern + rest); MatchesAt(s, pattern, |piece|) && NoMatch(s, pattern, 0, |piece|)
  {
    var s, t := piece + (pattern + rest), piece + pattern;
    forall j: nat | j <= |piece| ensures MatchesAt(t, pattern, j) <==> MatchesAt(s, pattern, j) {
      assert t == s[..|t|];
      MatchInPrefix(s, pattern, |t|, j);
    }
  }

  lemma MatchInPrefix(s: string, pattern: string, n: nat, j: nat)
    requires j + |pattern| <= n <= |s|
    ensures MatchesAt(s[..n], pattern, j) <==> MatchesAt(s, pattern, j)
  {
    assert s[..n][j..j + |pattern|] == s[j..j + |pattern|];
  }

  lemma SplitAtFirstMatch(s: string, pattern: string, to: string, p: nat)
    requires pattern != "" && MatchesAt(s, pattern, p) && NoMatch(s, pattern, 0, p)
    ensures var rest := s[p + |pattern|..];
            && s == s[..p] + (pattern + rest)
            && Replaced(s, pattern, to) == s[..p] + (to + Replaced(rest, pattern, to))
            && Matches(s, pattern) == 1 + Matches(rest, pattern)
  {
    SkipToMatch(s, pattern, to, 0, p);
    MatchInSuffix(s, pattern, p);
    assert s[0..] == s && s[0..p] == s[..p];
    assert s[p..][|pattern|..] == s[p + |pattern|..];
  }

  lemma FirstMatchOfPiece(s: string, pattern: string, p: nat)
    requires pattern != "" && MatchesAt(s, pattern, p) && NoMatch(s, pattern, 0, p)
    ensures Find(s[..p] + pattern, pattern, 0) == p
  {
    var t := s[..p] + pattern;
    assert t == s[..p + |pattern|];
    forall j: nat | j <= p ensures MatchesAt(t, pattern, j) <==> MatchesAt(s, pattern, j) {
      MatchInPrefix(s, pattern, p + |pattern|, j);
    }
  }
}
