/** `extractKeywords` and `keywordMatches` of the quiz page (src/pages/revise.tsx):
    how a short written answer is cut into keywords and how one typed answer is
    tested, with tolerance for typos, against one keyword. */
module Keywords {
  import opened Text
  import opened Normalize
  import opened Distance

  /** Length of the separator that the pattern `,|;|/|&| and | or ` (case-insensitive)
      matches at the very start of s, or 0 when it matches nothing there. */
  function SepLen(s: string): (n: nat)
    ensures n <= |s|
  {
    if s == [] then 0
    else if s[0] == ',' || s[0] == ';' || s[0] == '/' || s[0] == '&' then 1
    else if |s| >= 5 && Lower(s[..5]) == " and " then 5
    else if |s| >= 4 && Lower(s[..4]) == " or " then 4
    else 0
  }

  /** No separator starts anywhere inside p. */
  predicate SepFree(p: string) {
    forall i :: 0 <= i < |p| ==> SepLen(p[i..]) == 0
  }

  /** String `split` with that pattern: the text is scanned left to right and cut at
      every match; the separators themselves are dropped. */
  function Pieces(s: string): (r: seq<string>)
    ensures |r| >= 1
    decreases |s|
  {
    if s == [] then [[]]
    else if SepLen(s) > 0 then [[]] + Pieces(s[SepLen(s)..])
    else
      var t := Pieces(s[1..]);
      [[s[0]] + t[0]] + t[1..]
  }

  /** A separator that matches at the start of u still matches, with the same length,
      once more text is appended. */
  lemma SepLenExtend(u: string, v: string)
    requires SepLen(u) > 0
    ensures SepLen(u + v) == SepLen(u)
  {
    var s := u + v;
    assert s[0] == u[0];
    if SepLen(u) == 5 {
      assert s[..5] == u[..5];
    } else if SepLen(u) == 4 {
      assert s[..4] == u[..4];
      if |s| >= 5 {
        assert Lower(s[..5])[1] == LowerChar(u[1]) == Lower(u[..4])[1];
      }
    }
  }

  /** Cutting a separator-free text short keeps it separator-free. */
  lemma SepFreeSlice(p: string, k: nat, n: nat)
    requires SepFree(p) && k + n <= |p|
    ensures SepFree(p[k..k + n])
  {
    var q := p[k..k + n];
    forall i | 0 <= i < |q| ensures SepLen(q[i..]) == 0 {
      assert p[k + i..] == q[i..] + p[k + n..];
      if SepLen(q[i..]) > 0 {
        SepLenExtend(q[i..], p[k + n..]);
      }
    }
  }

  /** Every piece of the split is free of separators, and the first piece is where the text begins. */
  lemma {:induction false} PiecesSepFree(s: string)
    ensures forall i :: 0 <= i < |Pieces(s)| ==> SepFree(Pieces(s)[i])
    ensures StartsWith(s, Pieces(s)[0])
    decreases |s|
  {
    if s != [] {
      if SepLen(s) > 0 {
        PiecesSepFree(s[SepLen(s)..]);
      } else {
        PiecesSepFree(s[1..]);
        var t := Pieces(s[1..]);
        FirstPieceSepFree(s, t[0]);
        assert Pieces(s) == [[s[0]] + t[0]] + t[1..];
      }
    }
  }

  /** A character that starts no separator, followed by a separator-free text that begins
      the rest, is a separator-free text that begins the whole. */
  lemma FirstPieceSepFree(s: string, t0: string)
    requires s != [] && SepLen(s) == 0
    requires SepFree(t0) && StartsWith(s[1..], t0)
    ensures SepFree([s[0]] + t0) && StartsWith(s, [s[0]] + t0)
  {
    var p := [s[0]] + t0;
    assert s[..|p|] == p by {
      assert s[1..][..|t0|] == t0;
    }
    forall i | 0 <= i < |p| ensures SepLen(p[i..]) == 0 {
      if i == 0 {
        assert s == p + s[|p|..];
        if SepLen(p) > 0 {
          SepLenExtend(p, s[|p|..]);
        }
      } else {
        assert p[i..] == t0[i - 1..];
      }
    }
  }

  /** A comma right after a separator-free, non-empty text does not join it into a longer separator. */
  lemma CommaAfterClean(p: string, rest: string)
    requires p != [] && SepLen(p) == 0
    ensures SepLen(p + [','] + rest) == 0
  {
    var s := p + [','] + rest;
    assert s[0] == p[0];
    if |p| >= 5 {
      assert s[..5] == p[..5];
    } else if |s| >= 5 {
      assert s[|p|] == ',';
      assert Lower(s[..5])[|p|] == ',';
    }
    if |p| >= 4 {
      assert s[..4] == p[..4];
    } else if |s| >= 4 {
      assert s[|p|] == ',';
      assert Lower(s[..4])[|p|] == ',';
    }
  }

  lemma {:induction false} PiecesAfterPiece(p: string, rest: string)
    requires SepFree(p)
    ensures Pieces(p + [','] + rest) == [p] + Pieces(rest)
    decreases |p|
  {
    var s := p + [','] + rest;
    if p == [] {
      assert s == [','] + rest;
      assert s[1..] == rest;
    } else {
      assert SepLen(p[0..]) == 0;
      assert p[0..] == p;
      CommaAfterClean(p, rest);
      assert s[1..] == p[1..] + [','] + rest;
      forall i | 0 <= i < |p| - 1 ensures SepLen(p[1..][i..]) == 0 {
        assert p[1..][i..] == p[i + 1..];
      }
      PiecesAfterPiece(p[1..], rest);
      assert [p[0]] + p[1..] == p;
    }
  }

  lemma {:induction false} PiecesClean(p: string)
    requires SepFree(p)
    ensures Pieces(p) == [p]
    decreases |p|
  {
    if p != [] {
      assert p[0..] == p;
      forall i | 0 <= i < |p| - 1 ensures SepLen(p[1..][i..]) == 0 {
        assert p[1..][i..] == p[i + 1..];
      }
      PiecesClean(p[1..]);
      assert [p[0]] + p[1..] == p;
    }
  }

  /** Splitting separator-free pieces joined with commas gives the pieces back. */
  lemma {:induction false} PiecesJoin(ps: seq<string>)
    requires |ps| >= 1
    requires forall i :: 0 <= i < |ps| ==> SepFree(ps[i])
    ensures Pieces(Join(ps, [','])) == ps
    decreases |ps|
  {
    if |ps| == 1 {
      PiecesClean(ps[0]);
    } else {
      PiecesJoin(ps[1..]);
      PiecesAfterPiece(ps[0], Join(ps[1..], [',']));
      assert [ps[0]] + ps[1..] == ps;
    }
  }

  /** `.map((part) => part.trim())` */
  function TrimEach(xs: seq<string>): (r: seq<string>)
    ensures |r| == |xs|
    ensures forall i :: 0 <= i < |xs| ==> r[i] == Trim(xs[i])
  {
    seq(|xs|, i requires 0 <= i < |xs| => Trim(xs[i]))
  }

  /** The keywords of an answer given as text: the trimmed, non-empty pieces. */
  function KeywordParts(s: string): seq<string> {
    NonEmpty(TrimEach(Pieces(s)))
  }

  /** A clean keyword: not empty, no white space at either end, no separator inside. */
  predicate CleanKeyword(k: string) {
    k != [] && NoOuterSpace(k) && SepFree(k)
  }

  /** Trimming a separator-free text leaves a separator-free text with no white space at its ends. */
  lemma TrimSepFree(p: string)
    requires SepFree(p)
    ensures NoOuterSpace(Trim(p)) && SepFree(Trim(p))
  {
    var k := TrimSlice(p);
    SepFreeSlice(p, k, |Trim(p)|);
  }

  /** Every keyword cut out of a text is clean. */
  lemma KeywordPartsClean(s: string)
    ensures forall i :: 0 <= i < |KeywordParts(s)| ==> CleanKeyword(KeywordParts(s)[i])
  {
    var ps := Pieces(s);
    PiecesSepFree(s);
    var ts := TrimEach(ps);
    forall i | 0 <= i < |ts| ensures NoOuterSpace(ts[i]) && SepFree(ts[i]) {
      TrimSepFree(ps[i]);
    }
    var r := NonEmpty(ts);
    forall i | 0 <= i < |r| ensures CleanKeyword(r[i]) {
      assert r[i] in ts;
    }
  }

  /** Clean keywords written as one comma-separated text are extracted back unchanged. */
  lemma KeywordPartsJoin(ks: seq<string>)
    requires |ks| >= 1
    requires forall i :: 0 <= i < |ks| ==> CleanKeyword(ks[i])
    ensures KeywordParts(Join(ks, [','])) == ks
  {
    PiecesJoin(ks);
    var ts := TrimEach(ks);
    forall i | 0 <= i < |ks| ensures ts[i] == ks[i] {
      TrimNoOuterSpace(ks[i]);
    }
    assert ts == ks;
    NonEmptyAll(ks);
  }

  /** The value a question holds as its answer, or a user's input. */
  datatype Value = Str(s: string) | Strs(xs: seq<string>) | Flag(b: bool) | Undefined

  /** `String(value)`: arrays are joined with ",", booleans spelled out. */
  function Stringify(v: Value): string {
    match v
    case Str(s) => s
    case Strs(xs) => Join(xs, [','])
    case Flag(b) => if b then "true" else "false"
    case Undefined => "undefined"
  }

  /** `extractKeywords`: an array answer element by element, anything else cut into clean keywords. */
  function ExtractKeywords(answer: Value): seq<string> {
    if answer.Strs? then answer.xs else KeywordParts(Stringify(answer))
  }

  /** An array answer keeps its elements, in order; any other answer yields only clean keywords. */
  lemma ExtractKeywordsShape(answer: Value)
    ensures answer.Strs? ==> (|ExtractKeywords(answer)| == |answer.xs| &&
      forall i :: 0 <= i < |answer.xs| ==> ExtractKeywords(answer)[i] == answer.xs[i])
    ensures !answer.Strs? ==> forall i :: 0 <= i < |ExtractKeywords(answer)| ==> CleanKeyword(ExtractKeywords(answer)[i])
  {
    KeywordPartsClean(Stringify(answer));
  }

  /** Words i to i + n - 1 joined with single spaces. */
  function Segment(words: seq<string>, i: nat, n: nat): string
    requires i + n <= |words|
  {
    Join(words[i..i + n], " ")
  }

  /** Some window of as many consecutive input words as the keyword has is similar to the keyword. */
  predicate WindowHit(iw: seq<string>, n: nat, nk: string) {
    exists i: nat :: i + n <= |iw| && Similar(Segment(iw, i, n), nk)
  }

  /** Some single input word is similar to the keyword. */
  predicate WordHit(iw: seq<string>, nk: string) {
    exists w :: 0 <= w < |iw| && Similar(iw[w], nk)
  }

  /** When the page accepts `input` as containing `keyword`: a blank keyword always,
      a blank input never, otherwise a literal occurrence after normalization, a
      similar run of words (keywords of several words), or a similar single word. */
  predicate KeywordMatch(input: string, keyword: string) {
    var ni := NormalizeText(input);
    var nk := NormalizeText(keyword);
    if nk == [] then true
    else if ni == [] then false
    else if Contains(ni, nk) then true
    else
      var iw := Words(ni);
      var kw := Words(nk);
      (|kw| > 1 && WindowHit(iw, |kw|, nk)) || WordHit(iw, nk)
  }

  /** `keywordMatches`: the window scan and then the per-word scan, each as a loop. */
  method KeywordMatches(input: string, keyword: string) returns (b: bool)
    ensures b == KeywordMatch(input, keyword)
  {
    var ni := NormalizeText(input);
    var nk := NormalizeText(keyword);
    if nk == [] {
      return true;
    }
    if ni == [] {
      return false;
    }
    if Contains(ni, nk) {
      return true;
    }
    var iw := Words(ni);
    var kw := Words(nk);
    if |kw| > 1 {
      b := ScanWindows(iw, |kw|, nk);
      if b {
        return;
      }
    }
    b := ScanWords(iw, nk);
  }

  /** The `for` loop of `keywordMatches` over the windows of n input words. */
  method ScanWindows(iw: seq<string>, n: nat, nk: string) returns (b: bool)
    ensures b == WindowHit(iw, n, nk)
  {
    var i: nat := 0;
    while i + n <= |iw|
      invariant forall k: nat :: k < i && k + n <= |iw| ==> !Similar(Segment(iw, k, n), nk)
      decreases |iw| - i
    {
      var r := ComputeSimilarity(Segment(iw, i, n), nk);
      if r >= Threshold {
        return true;
      }
      i := i + 1;
    }
    return false;
  }

  /** `inputWords.some(...)`: the per-word scan. */
  method ScanWords(iw: seq<string>, nk: string) returns (b: bool)
    ensures b == WordHit(iw, nk)
  {
    var w := 0;
    while w < |iw|
      invariant 0 <= w <= |iw|
      invariant forall k :: 0 <= k < w ==> !Similar(iw[k], nk)
    {
      var r := ComputeSimilarity(iw[w], nk);
      if r >= Threshold {
        return true;
      }
      w := w + 1;
    }
    return false;
  }

  /** Every text matches itself as a keyword. */
  lemma KeywordMatchSelf(k: string)
    ensures KeywordMatch(k, k)
  {
    var nk := NormalizeText(k);
    assert nk[0..|nk|] == nk;
    ContainsAt(nk, nk, 0);
  }

  /** Matching looks only at the normalized input and the normalized keyword. */
  lemma KeywordMatchNormalized(input: string, keyword: string)
    ensures KeywordMatch(NormalizeText(input), keyword) == KeywordMatch(input, keyword)
    ensures KeywordMatch(input, NormalizeText(keyword)) == KeywordMatch(input, keyword)
  {
    NormalizeIdempotent(input);
    NormalizeIdempotent(keyword);
  }

  /** One typo in a word of five or more characters is forgiven: an input word at
      edit distance one from a normalized keyword at least as long makes it match. */
  lemma KeywordMatchOneTypo(input: string, keyword: string, w: nat)
    requires w < |Words(NormalizeText(input))|
    requires EditDistance(Words(NormalizeText(input))[w], NormalizeText(keyword)) <= 1
    requires |NormalizeText(keyword)| >= 5
    ensures KeywordMatch(input, keyword)
  {
    var ni := NormalizeText(input);
    var nk := NormalizeText(keyword);
    var iw := Words(ni);
    SimilarIff(iw[w], nk);
    assert Similar(iw[w], nk);
  }
}
