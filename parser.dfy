/** Multi-value tag splitting of `metadata/parser.rs`. The separator pattern is
    `[,;/|、&]|\s+(?:ft\.?|feat\.?|featuring)\s+`, searched leftmost-first with non-overlapping
    matches; the text between matches is trimmed and empty pieces are dropped.
    `\s` and `trim` both mean the Unicode White_Space property. */
module MetadataParser {
  import opened Wrappers
  import opened Sequences

  /** The Unicode White_Space property. */
  predicate IsSpace(c: char)
  {
    || ('\t' <= c <= '\r')
    || c == ' '
    || c == '\U{0085}'
    || c == '\U{00A0}'
    || c == '\U{1680}'
    || ('\U{2000}' <= c <= '\U{200A}')
    || c == '\U{2028}'
    || c == '\U{2029}'
    || c == '\U{202F}'
    || c == '\U{205F}'
    || c == '\U{3000}'
  }

  /** The single-character alternative `[,;/|、&]`. */
  predicate IsSeparatorChar(c: char)
  {
    c == ',' || c == ';' || c == '/' || c == '|' || c == '\U{3001}' || c == '&'
  }

  /** The keyword alternatives, in the order the pattern tries them. */
  const Keywords: seq<string> := ["ft.", "ft", "feat.", "feat", "featuring"]

  predicate AllSpaceIn(s: string, a: nat, b: nat)
    requires a <= b <= |s|
  {
    forall k :: a <= k < b ==> IsSpace(s[k])
  }

  /** The end of the maximal whitespace run starting at `i`. */
  function SpaceEnd(s: string, i: nat): (j: nat)
    requires i <= |s|
    ensures i <= j <= |s|
    ensures AllSpaceIn(s, i, j)
    ensures j == |s| || !IsSpace(s[j])
    decreases |s| - i
  {
    if i < |s| && IsSpace(s[i]) then SpaceEnd(s, i + 1) else i
  }

  /** Keyword `w` occurs at `i` and is followed by at least one whitespace character. */
  predicate KeywordAt(s: string, i: nat, w: string)
  {
    i + |w| < |s| && s[i..i + |w|] == w && IsSpace(s[i + |w|])
  }

  /** The index of the first keyword, from the `n`-th on, that occurs at `i` followed by
      whitespace: the alternation's leftmost-first backtracking order. */
  function FirstKeyword(s: string, i: nat, n: nat): (r: Option<nat>)
    requires n <= |Keywords|
    ensures r.Some? ==> n <= r.value < |Keywords| && KeywordAt(s, i, Keywords[r.value])
    ensures r.None? ==> forall m :: n <= m < |Keywords| ==> !KeywordAt(s, i, Keywords[m])
    decreases |Keywords| - n
  {
    if n == |Keywords| then None
    else if KeywordAt(s, i, Keywords[n]) then Some(n)
    else FirstKeyword(s, i, n + 1)
  }

  /** The end of the maximal run of non-whitespace characters starting at `i`. */
  function WordEnd(s: string, i: nat): (j: nat)
    requires i <= |s|
    ensures i <= j <= |s|
    ensures forall k :: i <= k < j ==> !IsSpace(s[k])
    ensures j == |s| || IsSpace(s[j])
    decreases |s| - i
  {
    if i < |s| && !IsSpace(s[i]) then WordEnd(s, i + 1) else i
  }

  /** The length of the match of the separator pattern at the front of `u`, if one starts
      there. No keyword holds whitespace, so the keyword alternative matches exactly when the
      word after the leading whitespace run is a keyword and more whitespace follows it; the
      match then takes that whole whitespace run (`\s+` is greedy). */
  function MatchLen(u: string): (l: Option<nat>)
    ensures l.Some? ==> 0 < l.value <= |u|
  {
    if u == [] then None
    else if IsSeparatorChar(u[0]) then Some(1)
    else if !IsSpace(u[0]) then None
    else
      var i := SpaceEnd(u, 0);
      var j := WordEnd(u, i);
      if j < |u| && u[i..j] in Keywords then Some(SpaceEnd(u, j)) else None
  }

  /** The pieces `Regex::split` yields and the delimiters it removed between them. */
  datatype Split = Split(pieces: seq<string>, delims: seq<string>)

  /** `Regex::split`, leftmost-first and non-overlapping: a match at the front closes the
      current piece and splitting goes on after it; otherwise the first character belongs to
      the current piece and the search moves on by one. */
  function SplitAll(u: string): (r: Split)
    ensures |r.pieces| == |r.delims| + 1
    decreases |u|
  {
    if u == [] then Split([[]], [])
    else match MatchLen(u)
      case Some(l) =>
        var r := SplitAll(u[l..]);
        Split([[]] + r.pieces, [u[..l]] + r.delims)
      case None =>
        var r := SplitAll(u[1..]);
        Split([[u[0]] + r.pieces[0]] + r.pieces[1..], r.delims)
  }

  /** Pieces and delimiters put back together, alternately. */
  function Interleave(pieces: seq<string>, delims: seq<string>): string
    requires |pieces| == |delims| + 1
  {
    if delims == [] then pieces[0]
    else pieces[0] + delims[0] + Interleave(pieces[1..], delims[1..])
  }

  /** The number of leading whitespace characters. */
  function TrimStartIndex(s: string): (a: nat)
    ensures a <= |s| && AllSpaceIn(s, 0, a) && (a == |s| || !IsSpace(s[a]))
  {
    SpaceEnd(s, 0)
  }

  /** Walking back from `j`, the end of `s[a..j]` without trailing whitespace. */
  function TrimEndFrom(s: string, a: nat, j: nat): (b: nat)
    requires a <= j <= |s|
    ensures a <= b <= j && AllSpaceIn(s, b, j) && (b == a || !IsSpace(s[b - 1]))
    decreases j
  {
    if j > a && IsSpace(s[j - 1]) then TrimEndFrom(s, a, j - 1) else j
  }

  /** `str::trim`. */
  function Trim(s: string): (r: string)
  {
    var a := TrimStartIndex(s);
    s[a..TrimEndFrom(s, a, |s|)]
  }

  predicate IsTrimmed(x: string)
  {
    x == [] || (!IsSpace(x[0]) && !IsSpace(x[|x| - 1]))
  }

  /** `.map(|s| s.trim()).filter(|s| !s.is_empty())`. */
  function Clean(pieces: seq<string>): (r: seq<string>)
    ensures |r| <= |pieces|
  {
    if pieces == [] then []
    else
      var t := Trim(pieces[0]);
      (if t == [] then [] else [t]) + Clean(pieces[1..])
  }

  /** `parse_multi_value`. */
  function ParseMultiValue(value: string): (r: seq<string>)
    ensures value == [] ==> r == []
  {
    if value == [] then [] else Clean(SplitAll(value).pieces)
  }

  /** `parse_artists`: the same splitting. */
  function ParseArtists(artist: string): (r: seq<string>)
    ensures r == ParseMultiValue(artist)
  {
    ParseMultiValue(artist)
  }

  /** `parse_genres`: the same splitting. */
  function ParseGenres(genre: string): (r: seq<string>)
    ensures r == ParseMultiValue(genre)
  {
    ParseMultiValue(genre)
  }

  predicate Blank(w: string)
  {
    AllSpaceIn(w, 0, |w|)
  }

  /** No match of the separator pattern starts anywhere in `x`. */
  predicate NoMatchIn(x: string)
  {
    forall j :: 0 <= j < |x| ==> MatchLen(x[j..]).None?
  }

  // ---------------------------------------------------------------------------------------
  // Keywords and words

  lemma SpaceEndUnique(s: string, k: nat, e: nat)
    requires k <= e <= |s| && AllSpaceIn(s, k, e) && (e == |s| || !IsSpace(s[e]))
    ensures SpaceEnd(s, k) == e
  {
  }

  lemma WordEndUnique(s: string, i: nat, j: nat)
    requires i <= j <= |s| && (forall k :: i <= k < j ==> !IsSpace(s[k])) && (j == |s| || IsSpace(s[j]))
    ensures WordEnd(s, i) == j
  {
  }

  /** No separator character is whitespace, so a separator never begins a keyword match and
      trimming never removes one. */
  lemma SeparatorIsNotSpace(c: char)
    ensures IsSeparatorChar(c) ==> !IsSpace(c)
  {
  }

  /** Keywords are non-empty and hold neither whitespace nor separator characters. */
  lemma KeywordLacks(w: string, c: char)
    requires w in Keywords && (IsSpace(c) || IsSeparatorChar(c))
    ensures w != [] && c !in w
  {
  }

  /** A keyword standing at `i..j` is a run of characters that are neither whitespace nor
      separators. */
  lemma KeywordIsWordAt(s: string, i: nat, j: nat)
    requires i <= j <= |s| && s[i..j] in Keywords
    ensures i < j
    ensures forall k :: i <= k < j ==> !IsSpace(s[k]) && !IsSeparatorChar(s[k])
  {
    KeywordLacks(s[i..j], ' ');
    forall k | i <= k < j
      ensures !IsSpace(s[k]) && !IsSeparatorChar(s[k])
    {
      assert s[k] == s[i..j][k - i];
      if IsSpace(s[k]) || IsSeparatorChar(s[k]) {
        KeywordLacks(s[i..j], s[k]);
      }
    }
  }

  lemma KeywordsAreWords(n: nat)
    requires n < |Keywords|
    ensures forall k :: 0 <= k < |Keywords[n]| ==> !IsSpace(Keywords[n][k])
  {
  }

  /** A keyword followed by whitespace spans exactly the word at `i`. */
  lemma KeywordIsWord(s: string, i: nat, n: nat)
    requires n < |Keywords| && KeywordAt(s, i, Keywords[n])
    ensures WordEnd(s, i) == i + |Keywords[n]|
  {
    var w := Keywords[n];
    KeywordsAreWords(n);
    forall k | i <= k < i + |w|
      ensures !IsSpace(s[k])
    {
      assert s[k] == s[i..i + |w|][k - i];
    }
  }

  /** The word test agrees with the pattern's ordered alternation: the word at `i` is a
      keyword followed by whitespace exactly when one of the alternatives, tried in order,
      matches at `i` followed by whitespace, and then it is that alternative. */
  lemma WordTestIsAlternation(s: string, i: nat)
    requires i <= |s|
    ensures (WordEnd(s, i) < |s| && s[i..WordEnd(s, i)] in Keywords) <==> FirstKeyword(s, i, 0).Some?
    ensures FirstKeyword(s, i, 0).Some? ==> s[i..WordEnd(s, i)] == Keywords[FirstKeyword(s, i, 0).value]
  {
    var j := WordEnd(s, i);
    if j < |s| && s[i..j] in Keywords {
      var n :| 0 <= n < |Keywords| && Keywords[n] == s[i..j];
      assert KeywordAt(s, i, Keywords[n]);
    }
    if FirstKeyword(s, i, 0).Some? {
      KeywordIsWord(s, i, FirstKeyword(s, i, 0).value);
    }
  }

  /** The keyword branch of `MatchLen` is the pattern's: after the leading whitespace run, the
      first keyword alternative, tried in order, that whitespace follows, and then the
      whitespace run after it. */
  lemma KeywordBranchIsAlternation(u: string, i: nat)
    requires u != [] && !IsSeparatorChar(u[0]) && IsSpace(u[0]) && i == SpaceEnd(u, 0)
    ensures MatchLen(u) ==
      match FirstKeyword(u, i, 0)
      case None => None
      case Some(n) => Some(SpaceEnd(u, i + |Keywords[n]|))
  {
    WordTestIsAlternation(u, i);
    if FirstKeyword(u, i, 0).Some? {
      var n := FirstKeyword(u, i, 0).value;
      KeywordIsWord(u, i, n);
      MatchLenKeyword(u, i, i + |Keywords[n]|);
    }
  }

  // ---------------------------------------------------------------------------------------
  // What a match is

  /** A keyword match at the front of `u`, as `MatchLen` reads it. */
  lemma MatchLenCases(u: string) returns (i: nat, j: nat)
    requires MatchLen(u).Some? && !IsSeparatorChar(u[0])
    ensures IsSpace(u[0]) && i == SpaceEnd(u, 0) && j == WordEnd(u, i)
    ensures j < |u| && u[i..j] in Keywords && MatchLen(u) == Some(SpaceEnd(u, j))
  {
    i := SpaceEnd(u, 0);
    j := WordEnd(u, i);
  }

  /** Two strings that agree on their first `j + 1` characters have the same whitespace run
      and the same word `i..j` at the front, when `j` ends the first one's word at `i`. */
  lemma FrontWordAgrees(a: string, b: string, i: nat, j: nat)
    requires i == SpaceEnd(a, 0) && j == WordEnd(a, i) && i < j < |a| && j < |b|
    requires forall k :: 0 <= k <= j ==> a[k] == b[k]
    ensures SpaceEnd(b, 0) == i && WordEnd(b, i) == j && b[i..j] == a[i..j] && IsSpace(b[j])
  {
    assert a[i] == b[i] && a[j] == b[j];
    assert AllSpaceIn(b, 0, i) by {
      forall k | 0 <= k < i
        ensures IsSpace(b[k])
      {
        assert a[k] == b[k];
      }
    }
    SpaceEndUnique(b, 0, i);
    forall k | i <= k < j
      ensures !IsSpace(b[k])
    {
      assert a[k] == b[k];
    }
    WordEndUnique(b, i, j);
    assert b[i..j] == a[i..j];
  }

  /** Two strings that agree on their first `j + 1` characters match alike at the front, when
      the keyword of the first one's match ends at `j`. */
  lemma FrontKeywordAgrees(a: string, b: string, i: nat, j: nat)
    requires a != [] && IsSpace(a[0]) && i == SpaceEnd(a, 0) && j == WordEnd(a, i)
    requires j < |a| && a[i..j] in Keywords
    requires j < |b| && forall k :: 0 <= k <= j ==> a[k] == b[k]
    ensures SpaceEnd(b, 0) == i && WordEnd(b, i) == j
    ensures MatchLen(b) == Some(SpaceEnd(b, j))
  {
    KeywordIsWordAt(a, i, j);
    FrontWordAgrees(a, b, i, j);
    assert b[0] == a[0];
    MatchLenKeyword(b, i, j);
  }

  /** The keyword alternative of `MatchLen`, from its parts. */
  lemma MatchLenKeyword(u: string, i: nat, j: nat)
    requires u != [] && IsSpace(u[0]) && i == SpaceEnd(u, 0) && j == WordEnd(u, i)
    requires j < |u| && u[i..j] in Keywords
    ensures MatchLen(u) == Some(SpaceEnd(u, j))
  {
    SeparatorIsNotSpace(u[0]);
  }

  /** A match at the front of `x` stays one whatever follows `x`. */
  lemma MatchExtends(x: string, z: string)
    requires MatchLen(x).Some?
    ensures MatchLen(x + z).Some?
  {
    var u := x + z;
    assert u[0] == x[0];
    if !IsSeparatorChar(x[0]) {
      var i, j := MatchLenCases(x);
      assert forall k :: 0 <= k < |x| ==> x[k] == u[k];
      FrontKeywordAgrees(x, u, i, j);
    }
  }

  /** A match is the front of the input it was found in. */
  lemma MatchOfPrefix(u: string, l: nat)
    requires MatchLen(u) == Some(l)
    ensures MatchLen(u[..l]) == Some(l)
  {
    var d := u[..l];
    assert d[0] == u[0];
    if !IsSeparatorChar(u[0]) {
      var i, j := MatchLenCases(u);
      assert forall k :: 0 <= k < l ==> u[k] == d[k];
      FrontKeywordAgrees(u, d, i, j);
      assert AllSpaceIn(d, j, l) by {
        forall k | j <= k < l
          ensures IsSpace(d[k])
        {
          assert u[k] == d[k];
        }
      }
      SpaceEndUnique(d, j, l);
    }
  }

  /** A keyword delimiter: a whitespace run, a keyword and a whitespace run, in that order. */
  ghost predicate KeywordDelimiter(d: string)
  {
    exists i: nat, j: nat :: 0 < i < j < |d| && AllSpaceIn(d, 0, i) && d[i..j] in Keywords && AllSpaceIn(d, j, |d|)
  }

  /** A keyword match of `MatchLen`, cut at its end, is a keyword delimiter. */
  lemma MatchIsKeywordDelimiter(u: string, i: nat, j: nat, l: nat)
    requires u != [] && IsSpace(u[0]) && i == SpaceEnd(u, 0) && j == WordEnd(u, i)
    requires j < |u| && u[i..j] in Keywords && l == SpaceEnd(u, j)
    ensures KeywordDelimiter(u[..l]) && (l == |u| || !IsSpace(u[l]))
  {
    KeywordIsWordAt(u, i, j);
    var d := u[..l];
    assert AllSpaceIn(d, 0, i) by {
      forall k | 0 <= k < i
        ensures IsSpace(d[k])
      {
        assert d[k] == u[k];
      }
    }
    assert AllSpaceIn(d, j, l) by {
      forall k | j <= k < l
        ensures IsSpace(d[k])
      {
        assert d[k] == u[k];
      }
    }
    assert d[i..j] == u[i..j];
    assert 0 < i < j < |d|;
  }

  /** A whitespace run `0..i`, a keyword `i..j` and a whitespace run `j..e` that no further
      whitespace follows make the match at the front of `u`. */
  lemma FrontDelimiterMatch(u: string, i: nat, j: nat, e: nat)
    requires 0 < i < j < e <= |u| && AllSpaceIn(u, 0, i) && u[i..j] in Keywords
    requires AllSpaceIn(u, j, e) && (e == |u| || !IsSpace(u[e]))
    ensures MatchLen(u) == Some(e)
  {
    KeywordIsWordAt(u, i, j);
    SpaceEndUnique(u, 0, i);
    WordEndUnique(u, i, j);
    SpaceEndUnique(u, j, e);
    MatchLenKeyword(u, i, j);
  }

  /** A keyword delimiter at the front of `u` that no further whitespace follows is the match
      there. */
  lemma KeywordDelimiterIsMatch(u: string, l: nat)
    requires 0 < l <= |u| && KeywordDelimiter(u[..l]) && (l == |u| || !IsSpace(u[l]))
    ensures MatchLen(u) == Some(l)
  {
    var d := u[..l];
    var i: nat, j: nat :| 0 < i < j < |d| && AllSpaceIn(d, 0, i) && d[i..j] in Keywords && AllSpaceIn(d, j, |d|);
    assert forall k :: 0 <= k < l ==> u[k] == d[k];
    assert AllSpaceIn(u, 0, i) && AllSpaceIn(u, j, l);
    assert u[i..j] == d[i..j];
    FrontDelimiterMatch(u, i, j, l);
  }

  /** A match at the front of `u` of length `l` is exactly one separator character, or a
      keyword delimiter that no further whitespace follows. */
  lemma MatchLenCharacterised(u: string, l: nat)
    requires 0 < l <= |u|
    ensures MatchLen(u) == Some(l) <==>
      ((l == 1 && IsSeparatorChar(u[0])) || (KeywordDelimiter(u[..l]) && (l == |u| || !IsSpace(u[l]))))
  {
    SeparatorIsNotSpace(u[0]);
    if MatchLen(u) == Some(l) && !IsSeparatorChar(u[0]) {
      var i, j := MatchLenCases(u);
      MatchIsKeywordDelimiter(u, i, j, l);
    }
    if KeywordDelimiter(u[..l]) && (l == |u| || !IsSpace(u[l])) {
      KeywordDelimiterIsMatch(u, l);
    }
  }

  lemma SpaceEndBefore(s: string, q: nat, m: nat)
    requires q <= m < |s| && !IsSpace(s[m])
    ensures SpaceEnd(s, q) <= m
  {
  }

  /** A match in `v + y` where `y` starts with a separator character already starts a match
      in `v`: the keyword alternative cannot reach past the separator. */
  lemma MatchBeforeSeparator(v: string, y: string)
    requires v != [] && y != [] && IsSeparatorChar(y[0]) && MatchLen(v + y).Some?
    ensures MatchLen(v).Some?
  {
    var u := v + y;
    assert u[0] == v[0];
    if !IsSeparatorChar(u[0]) {
      var i, j := MatchLenCases(u);
      KeywordIsWordAt(u, i, j);
      assert u[|v|] == y[0];
      SeparatorIsNotSpace(y[0]);
      SpaceEndBefore(u, 0, |v|);
      assert j < |v|;
      assert forall k :: 0 <= k <= j ==> u[k] == v[k];
      FrontKeywordAgrees(u, v, i, j);
    }
  }

  /** A match in `v + y`, where `v` ends in a non-whitespace character and `y` starts with
      whitespace, already starts a match in `v` and the first character of `y`: the keyword
      alternative cannot reach past that whitespace. */
  lemma MatchBeforeSpace(v: string, y: string)
    requires v != [] && !IsSpace(v[|v| - 1]) && y != [] && IsSpace(y[0]) && MatchLen(v + y).Some?
    ensures MatchLen(v + [y[0]]).Some?
  {
    var u := v + y;
    var b := v + [y[0]];
    assert u[0] == v[0] == b[0];
    if !IsSeparatorChar(u[0]) {
      var i, j := MatchLenCases(u);
      KeywordIsWordAt(u, i, j);
      assert u[|v|] == y[0] && u[|v| - 1] == v[|v| - 1];
      SpaceEndBefore(u, 0, |v| - 1);
      assert j <= |v|;
      assert forall k :: 0 <= k < |v| ==> u[k] == b[k];
      assert u[|v|] == b[|v|];
      FrontKeywordAgrees(u, b, i, j);
    }
  }

  // ---------------------------------------------------------------------------------------
  // Splitting

  /** Prepending to the first piece prepends to the whole. */
  lemma InterleaveFront(c: string, pieces: seq<string>, delims: seq<string>)
    requires |pieces| == |delims| + 1
    ensures Interleave([c + pieces[0]] + pieces[1..], delims) == c + Interleave(pieces, delims)
  {
    var ps := [c + pieces[0]] + pieces[1..];
    assert ps[0] == c + pieces[0] && ps[1..] == pieces[1..];
    if delims != [] {
      var tail := Interleave(pieces[1..], delims[1..]);
      calc {
        Interleave(ps, delims);
        ps[0] + delims[0] + Interleave(ps[1..], delims[1..]);
        { AppendAssoc(c, pieces[0], delims[0]); AppendAssoc(c, pieces[0] + delims[0], tail); }
        c + (pieces[0] + delims[0] + tail);
      }
    }
  }

  /** Interleaving after a first piece and delimiter. */
  lemma InterleaveCons(c: string, d: string, pieces: seq<string>, delims: seq<string>)
    requires |pieces| == |delims| + 1
    ensures Interleave([c] + pieces, [d] + delims) == c + d + Interleave(pieces, delims)
  {
    assert ([c] + pieces)[1..] == pieces && ([d] + delims)[1..] == delims;
  }

  /** The whole starts with the first piece. */
  lemma InterleaveFirst(pieces: seq<string>, delims: seq<string>) returns (z: string)
    requires |pieces| == |delims| + 1
    ensures Interleave(pieces, delims) == pieces[0] + z
  {
    if delims == [] {
      z := [];
    } else {
      z := delims[0] + Interleave(pieces[1..], delims[1..]);
    }
  }

  /** The pieces and delimiters give back the input, in order. */
  lemma {:induction false} SplitRoundTrip(u: string)
    ensures Interleave(SplitAll(u).pieces, SplitAll(u).delims) == u
    decreases |u|
  {
    if u != [] {
      match MatchLen(u)
      case Some(l) =>
        SplitRoundTrip(u[l..]);
        var r := SplitAll(u[l..]);
        InterleaveCons([], u[..l], r.pieces, r.delims);
        assert u == [] + u[..l] + u[l..];
      case None =>
        SplitRoundTrip(u[1..]);
        var r := SplitAll(u[1..]);
        InterleaveFront([u[0]], r.pieces, r.delims);
        assert u == [u[0]] + u[1..];
    }
  }

  /** Every delimiter is a whole match of the separator pattern. */
  lemma {:induction false} SplitDelimsAreMatches(u: string)
    ensures forall d :: d in SplitAll(u).delims ==> MatchLen(d) == Some(|d|)
    decreases |u|
  {
    if u != [] {
      match MatchLen(u)
      case Some(l) =>
        SplitDelimsAreMatches(u[l..]);
        MatchOfPrefix(u, l);
      case None =>
        SplitDelimsAreMatches(u[1..]);
    }
  }

  /** No piece holds a match of the separator pattern. */
  lemma {:induction false} SplitPiecesHaveNoMatch(u: string)
    ensures forall x :: x in SplitAll(u).pieces ==> NoMatchIn(x)
    decreases |u|
  {
    if u != [] {
      match MatchLen(u)
      case Some(l) =>
        SplitPiecesHaveNoMatch(u[l..]);
      case None =>
        var v := u[1..];
        SplitPiecesHaveNoMatch(v);
        var r := SplitAll(v);
        SplitRoundTrip(v);
        var z := InterleaveFirst(r.pieces, r.delims);
        var x := [u[0]] + r.pieces[0];
        assert u == x + z;
        assert r.pieces[0] in r.pieces;
        forall j | 0 <= j < |x|
          ensures MatchLen(x[j..]).None?
        {
          if j == 0 {
            assert x[0..] == x;
            if MatchLen(x).Some? {
              MatchExtends(x, z);
            }
          } else {
            assert x[j..] == r.pieces[0][j - 1..];
          }
        }
        assert forall y :: y in r.pieces[1..] ==> y in r.pieces;
    }
  }

  /** A stretch of a string without a match has none either. */
  lemma PieceHasNoMatch(s: string, a: nat, b: nat)
    requires a <= b <= |s| && NoMatchIn(s)
    ensures NoMatchIn(s[a..b])
  {
    forall j | 0 <= j < b - a
      ensures MatchLen(s[a..b][j..]).None?
    {
      assert s[a..b][j..] + s[b..] == s[a + j..];
      if MatchLen(s[a..b][j..]).Some? {
        MatchExtends(s[a..b][j..], s[b..]);
      }
    }
  }

  // ---------------------------------------------------------------------------------------
  // Trimming and cleaning

  lemma TrimProperties(s: string)
    ensures IsTrimmed(Trim(s))
    ensures Trim(s) == [] <==> AllSpaceIn(s, 0, |s|)
    ensures NoMatchIn(s) ==> NoMatchIn(Trim(s))
  {
    var a := TrimStartIndex(s);
    var b := TrimEndFrom(s, a, |s|);
    var t := s[a..b];
    if t != [] {
      assert t[0] == s[a] && t[|t| - 1] == s[b - 1];
    }
    if t == [] {
      forall k | 0 <= k < |s|
        ensures IsSpace(s[k])
      {
      }
    } else {
      assert !AllSpaceIn(s, 0, |s|) by { assert t[0] == s[a]; }
    }
    if NoMatchIn(s) {
      PieceHasNoMatch(s, a, b);
    }
  }

  /** Cleaning keeps the order of the pieces: it distributes over concatenation. */
  lemma {:induction false} CleanAppend(a: seq<string>, b: seq<string>)
    ensures Clean(a + b) == Clean(a) + Clean(b)
  {
    if a != [] {
      var t := Trim(a[0]);
      var h := if t == [] then [] else [t];
      assert (a + b)[0] == a[0] && (a + b)[1..] == a[1..] + b;
      CleanAppend(a[1..], b);
      calc {
        Clean(a + b);
        h + Clean(a[1..] + b);
        h + (Clean(a[1..]) + Clean(b));
        { AppendAssoc(h, Clean(a[1..]), Clean(b)); }
        h + Clean(a[1..]) + Clean(b);
      }
    } else {
      assert a + b == b;
    }
  }

  lemma {:induction false} CleanElements(pieces: seq<string>)
    ensures forall x :: x in Clean(pieces) ==> x != [] && IsTrimmed(x)
  {
    if pieces != [] {
      TrimProperties(pieces[0]);
      CleanElements(pieces[1..]);
    }
  }

  lemma {:induction false} CleanKeepsNoMatch(pieces: seq<string>)
    requires forall x :: x in pieces ==> NoMatchIn(x)
    ensures forall x :: x in Clean(pieces) ==> NoMatchIn(x)
  {
    if pieces != [] {
      TrimProperties(pieces[0]);
      assert forall x :: x in pieces[1..] ==> x in pieces;
      CleanKeepsNoMatch(pieces[1..]);
    }
  }

  lemma CleanSingle(x: string)
    ensures Clean([x]) == if Trim(x) == [] then [] else [Trim(x)]
  {
    assert [x][1..] == [];
  }

  // ---------------------------------------------------------------------------------------
  // What parse_multi_value promises

  /** Every value is non-empty and has no surrounding whitespace. */
  lemma ParsedValuesTrimmed(value: string)
    ensures forall x :: x in ParseMultiValue(value) ==> x != [] && IsTrimmed(x)
  {
    if value != [] {
      CleanElements(SplitAll(value).pieces);
    }
  }

  /** No value holds a separator: none of `, ; / | 、 &`, and no whitespace-delimited keyword. */
  lemma ParsedValuesHaveNoSeparator(value: string)
    ensures forall x :: x in ParseMultiValue(value) ==> NoMatchIn(x)
    ensures forall x, k :: x in ParseMultiValue(value) && 0 <= k < |x| ==> !IsSeparatorChar(x[k])
  {
    if value != [] {
      SplitPiecesHaveNoMatch(value);
      CleanKeepsNoMatch(SplitAll(value).pieces);
    }
    forall x, k | x in ParseMultiValue(value) && 0 <= k < |x|
      ensures !IsSeparatorChar(x[k])
    {
      assert MatchLen(x[k..]).None? && x[k..][0] == x[k];
    }
  }

  lemma {:induction false} SplitWithoutMatch(u: string)
    requires NoMatchIn(u)
    ensures SplitAll(u) == Split([u], [])
    decreases |u|
  {
    if u != [] {
      assert u[0..] == u;
      var v := u[1..];
      forall j | 0 <= j < |v|
        ensures MatchLen(v[j..]).None?
      {
        assert v[j..] == u[j + 1..];
      }
      SplitWithoutMatch(v);
      assert [u[0]] + v == u;
    }
  }

  /** A value with no separator in it and not all whitespace yields exactly itself, trimmed. */
  lemma SingleValue(value: string)
    requires NoMatchIn(value) && !AllSpaceIn(value, 0, |value|)
    ensures ParseMultiValue(value) == [Trim(value)]
  {
    SplitWithoutMatch(value);
    TrimProperties(value);
    CleanSingle(value);
  }

  /** Splitting where the first match starts right after `x`: `x` is the first piece, and
      splitting goes on after the match. */
  lemma {:induction false} SplitBeforeMatch(x: string, y: string, l: nat)
    requires MatchLen(y) == Some(l)
    requires forall j :: 0 <= j < |x| ==> MatchLen((x + y)[j..]).None?
    ensures SplitAll(x + y).pieces == [x] + SplitAll(y[l..]).pieces
    decreases |x|
  {
    var u := x + y;
    if x == [] {
      assert u == y;
    } else {
      assert u[0..] == u;
      var x' := x[1..];
      assert u[1..] == x' + y;
      forall j | 0 <= j < |x'|
        ensures MatchLen((x' + y)[j..]).None?
      {
        assert (x' + y)[j..] == u[j + 1..];
      }
      SplitBeforeMatch(x', y, l);
      assert MatchLen(u).None? by { assert MatchLen(u[0..]).None?; }
      var r, rest := SplitAll(u[1..]), SplitAll(y[l..]).pieces;
      assert SplitAll(u).pieces == [[u[0]] + r.pieces[0]] + r.pieces[1..];
      assert r.pieces[0] == x' && r.pieces[1..] == rest by { assert r.pieces == [x'] + rest; }
      assert [u[0]] + x' == x;
    }
  }

  /** Parsing at the first match: the text before it is cleaned as one piece, and the rest
      after it is parsed on its own. */
  lemma ParseAtFirstMatch(x: string, y: string, l: nat)
    requires MatchLen(y) == Some(l)
    requires forall j :: 0 <= j < |x| ==> MatchLen((x + y)[j..]).None?
    ensures ParseMultiValue(x + y) == Clean([x]) + ParseMultiValue(y[l..])
  {
    SplitBeforeMatch(x, y, l);
    CleanAppend([x], SplitAll(y[l..]).pieces);
    assert |x + y| >= |y| > 0;
    if y[l..] == [] {
      assert SplitAll(y[l..]).pieces == [[]];
      CleanSingle([]);
    }
  }

  lemma TrimEndUnique(s: string, a: nat, b: nat)
    requires a <= b <= |s| && AllSpaceIn(s, b, |s|) && (b == a || !IsSpace(s[b - 1]))
    ensures TrimEndFrom(s, a, |s|) == b
  {
  }

  /** Surrounding whitespace is exactly what `trim` removes. */
  lemma TrimPadded(w0: string, v: string, w1: string)
    requires Blank(w0) && Blank(w1) && v != [] && IsTrimmed(v)
    ensures Trim(w0 + v + w1) == v
  {
    var s := w0 + v + w1;
    forall k | 0 <= k < |w0|
      ensures IsSpace(s[k])
    {
      assert s[k] == w0[k];
    }
    assert s[|w0|] == v[0];
    SpaceEndUnique(s, 0, |w0|);
    forall k | |w0| + |v| <= k < |s|
      ensures IsSpace(s[k])
    {
      assert s[k] == w1[k - |w0| - |v|];
    }
    assert s[|w0| + |v| - 1] == v[|v| - 1];
    TrimEndUnique(s, |w0|, |w0| + |v|);
    assert s[|w0|..|w0| + |v|] == v;
  }

  /** A value that is the whole input, padded by whitespace. */
  lemma ParseLastValue(w0: string, v: string, w1: string)
    requires Blank(w0) && Blank(w1) && v != [] && IsTrimmed(v)
    requires NoMatchIn(w0 + v + w1)
    ensures ParseMultiValue(w0 + v + w1) == [v]
  {
    var s := w0 + v + w1;
    TrimPadded(w0, v, w1);
    assert s[|w0|] == v[0];
    SingleValue(s);
  }

  /** No match starts in `x` when none does in `x` alone and a separator character follows. */
  lemma NoMatchBeforeSeparator(x: string, y: string)
    requires NoMatchIn(x) && y != [] && IsSeparatorChar(y[0])
    ensures forall j :: 0 <= j < |x| ==> MatchLen((x + y)[j..]).None?
  {
    forall j | 0 <= j < |x|
      ensures MatchLen((x + y)[j..]).None?
    {
      assert (x + y)[j..] == x[j..] + y;
      if MatchLen(x[j..] + y).Some? {
        MatchBeforeSeparator(x[j..], y);
      }
    }
  }

  /** No match starts in `x`, which ends in a non-whitespace character, when none does in `x`
      and the whitespace character that follows it. */
  lemma NoMatchBeforeSpace(x: string, y: string)
    requires x != [] && !IsSpace(x[|x| - 1]) && y != [] && IsSpace(y[0]) && NoMatchIn(x + [y[0]])
    ensures forall j :: 0 <= j < |x| ==> MatchLen((x + y)[j..]).None?
  {
    forall j | 0 <= j < |x|
      ensures MatchLen((x + y)[j..]).None?
    {
      assert (x + y)[j..] == x[j..] + y;
      assert (x + [y[0]])[j..] == x[j..] + [y[0]];
      assert x[j..][|x| - j - 1] == x[|x| - 1];
      if MatchLen(x[j..] + y).Some? {
        MatchBeforeSpace(x[j..], y);
      }
    }
  }

  lemma ParseAtSeparatorChar(x: string, c: char, rest: string)
    requires IsSeparatorChar(c) && NoMatchIn(x)
    ensures ParseMultiValue(x + [c] + rest) == Clean([x]) + ParseMultiValue(rest)
  {
    var y := [c] + rest;
    assert x + [c] + rest == x + y;
    assert y[0] == c && y[1..] == rest;
    assert MatchLen(y) == Some(1);
    NoMatchBeforeSeparator(x, y);
    ParseAtFirstMatch(x, y, 1);
  }

  /** A value followed by a separator character (whitespace around either is allowed): the
      value comes first, and the rest is parsed on its own. */
  lemma ParseBeforeSeparatorChar(w0: string, v: string, w1: string, c: char, rest: string)
    requires Blank(w0) && Blank(w1) && v != [] && IsTrimmed(v) && IsSeparatorChar(c)
    requires NoMatchIn(w0 + v + w1)
    ensures ParseMultiValue(w0 + v + w1 + [c] + rest) == [v] + ParseMultiValue(rest)
  {
    ParseAtSeparatorChar(w0 + v + w1, c, rest);
    TrimPadded(w0, v, w1);
    CleanSingle(w0 + v + w1);
  }

  /** A keyword between two whitespace runs, with no further whitespace after them, is a
      match that spans all three. */
  lemma KeywordDelimiterMatches(w1: string, kw: string, w2: string, rest: string)
    requires kw in Keywords && w1 != [] && Blank(w1) && w2 != [] && Blank(w2)
    requires rest == [] || !IsSpace(rest[0])
    ensures MatchLen(w1 + kw + w2 + rest) == Some(|w1| + |kw| + |w2|)
  {
    var u := w1 + kw + w2 + rest;
    var i := |w1|;
    var j := i + |kw|;
    var e := j + |w2|;
    assert u[i..j] == kw;
    KeywordLacks(kw, ' ');
    assert AllSpaceIn(u, 0, i) by {
      forall k | 0 <= k < i
        ensures IsSpace(u[k])
      {
        assert u[k] == w1[k];
      }
    }
    assert AllSpaceIn(u, j, e) by {
      forall k | j <= k < e
        ensures IsSpace(u[k])
      {
        assert u[k] == w2[k - j];
      }
    }
    if rest != [] {
      assert u[e] == rest[0];
    }
    FrontDelimiterMatch(u, i, j, e);
  }

  lemma Regroup(x: string, a: string, b: string, c: string, d: string)
    ensures x + a + b + c + d == x + (a + b + c + d)
    ensures (a + b + c + d)[|a| + |b| + |c|..] == d
  {
  }

  lemma ParseAtKeyword(x: string, w1: string, n: nat, w2: string, rest: string)
    requires x != [] && !IsSpace(x[|x| - 1]) && n < |Keywords|
    requires w1 != [] && Blank(w1) && w2 != [] && Blank(w2) && (rest == [] || !IsSpace(rest[0]))
    requires NoMatchIn(x + [w1[0]])
    ensures ParseMultiValue(x + w1 + Keywords[n] + w2 + rest) == Clean([x]) + ParseMultiValue(rest)
  {
    var kw := Keywords[n];
    var y := w1 + kw + w2 + rest;
    var l := |w1| + |kw| + |w2|;
    KeywordDelimiterMatches(w1, kw, w2, rest);
    Regroup(x, w1, kw, w2, rest);
    assert y[0] == w1[0];
    NoMatchBeforeSpace(x, y);
    ParseAtFirstMatch(x, y, l);
  }

  /** A value followed by a whitespace-delimited keyword: the value comes first, and the rest
      after the keyword's trailing whitespace is parsed on its own. */
  lemma ParseBeforeKeyword(w0: string, v: string, w1: string, n: nat, w2: string, rest: string)
    requires Blank(w0) && v != [] && IsTrimmed(v) && n < |Keywords|
    requires w1 != [] && Blank(w1) && w2 != [] && Blank(w2) && (rest == [] || !IsSpace(rest[0]))
    requires NoMatchIn(w0 + v + [w1[0]])
    ensures ParseMultiValue(w0 + v + w1 + Keywords[n] + w2 + rest) == [v] + ParseMultiValue(rest)
  {
    var x := w0 + v;
    assert x[|x| - 1] == v[|v| - 1];
    ParseAtKeyword(x, w1, n, w2, rest);
    TrimPadded(w0, v, []);
    assert x + [] == x;
    CleanSingle(x);
  }
}
