/** `normalizeText` of the quiz page (src/pages/revise.tsx): lower-case, drop
    combining accents, turn every character other than a-z, 0-9 and white space
    into a space, collapse white-space runs to one space, trim. */
module Normalize {
  import opened Text

  /** The combining diacritical marks U+0300..U+036F that the page deletes. */
  predicate IsMark(c: char) {
    '\U{0300}' <= c <= '\U{036F}'
  }

  predicate IsWordChar(c: char) {
    'a' <= c <= 'z' || '0' <= c <= '9'
  }

  /** `.replace(/[̀-ͯ]/g, "")` */
  function StripMarks(s: string): (r: string)
    ensures |r| <= |s|
    ensures forall i :: 0 <= i < |r| ==> !IsMark(r[i])
  {
    if s == [] then [] else (if IsMark(s[0]) then [] else [s[0]]) + StripMarks(s[1..])
  }

  /** `.replace(/[^a-z0-9\s]/g, " ")` */
  function Scrub(s: string): (r: string)
    ensures |r| == |s|
    ensures forall i :: 0 <= i < |s| ==> r[i] == (if IsWordChar(s[i]) || IsSpace(s[i]) then s[i] else ' ')
  {
    seq(|s|, i requires 0 <= i < |s| => if IsWordChar(s[i]) || IsSpace(s[i]) then s[i] else ' ')
  }

  /** `.replace(/\s+/g, " ")`: every maximal white-space run becomes one space. */
  function Collapse(s: string): string
    decreases |s|
  {
    if s == [] then []
    else if IsSpace(s[0]) then [' '] + Collapse(TrimStart(s))
    else [s[0]] + Collapse(s[1..])
  }

  /** Collapsing keeps emptiness and the kind of the first character, maps word
      characters and white space to word characters and spaces, and never leaves
      two spaces side by side. */
  lemma {:induction false} CollapseShape(s: string)
    ensures s == [] <==> Collapse(s) == []
    ensures s != [] ==> Collapse(s)[0] == (if IsSpace(s[0]) then ' ' else s[0])
    ensures WordOrSpace(s) ==> WordOrBlank(Collapse(s))
    ensures forall i :: 0 <= i < |Collapse(s)| - 1 ==> Collapse(s)[i] != ' ' || Collapse(s)[i + 1] != ' '
    decreases |s|
  {
    if s != [] {
      var t := if IsSpace(s[0]) then TrimStart(s) else s[1..];
      TrimStartShape(s);
      assert t == s[|s| - |t|..];
      CollapseShape(t);
      var r := Collapse(s);
      var rt := Collapse(t);
      assert r == [r[0]] + rt;
      if WordOrSpace(s) {
        forall i | 0 <= i < |t| ensures IsWordChar(t[i]) || IsSpace(t[i]) {
          assert t[i] == s[i + |s| - |t|];
        }
        forall i | 0 <= i < |r| ensures IsWordChar(r[i]) || r[i] == ' ' {
          if i > 0 {
            assert r[i] == rt[i - 1];
          }
        }
      }
      forall i | 0 <= i < |r| - 1 ensures r[i] != ' ' || r[i + 1] != ' ' {
        if i > 0 {
          assert r[i] == rt[i - 1] && r[i + 1] == rt[i];
        } else if IsSpace(s[0]) {
          assert r[1] == rt[0];
        }
      }
    }
  }

  predicate WordOrSpace(s: string) {
    forall i :: 0 <= i < |s| ==> IsWordChar(s[i]) || IsSpace(s[i])
  }

  predicate WordOrBlank(s: string) {
    forall i :: 0 <= i < |s| ==> IsWordChar(s[i]) || s[i] == ' '
  }

  function NormalizeText(s: string): string {
    Trim(Collapse(Scrub(StripMarks(Lower(s)))))
  }

  /** The shape of every normalized text: only a-z, 0-9 and single inner spaces. */
  predicate IsNormal(s: string) {
    && WordOrBlank(s)
    && (forall i :: 0 <= i < |s| - 1 ==> s[i] != ' ' || s[i + 1] != ' ')
    && (s == [] || (s[0] != ' ' && s[|s| - 1] != ' '))
  }

  lemma NormalizeIsNormal(s: string)
    ensures IsNormal(NormalizeText(s))
  {
    var x := Scrub(StripMarks(Lower(s)));
    ScrubShape(StripMarks(Lower(s)));
    CollapseShape(x);
    TrimCollapsed(Collapse(x));
  }

  lemma ScrubShape(s: string)
    ensures WordOrSpace(Scrub(s))
  {
    var r := Scrub(s);
    forall i | 0 <= i < |r| ensures IsWordChar(r[i]) || IsSpace(r[i]) {
      assert r[i] == (if IsWordChar(s[i]) || IsSpace(s[i]) then s[i] else ' ');
    }
  }

  /** Trimming a collapsed text gives a normalized one. */
  lemma TrimCollapsed(c: string)
    requires WordOrBlank(c)
    requires forall i :: 0 <= i < |c| - 1 ==> c[i] != ' ' || c[i + 1] != ' '
    ensures IsNormal(Trim(c))
  {
    var k := TrimSlice(c);
    var t := Trim(c);
    assert t == c[k..k + |t|];
    forall i | 0 <= i < |t| ensures IsWordChar(t[i]) || t[i] == ' ' {
      assert t[i] == c[k + i];
    }
    forall i | 0 <= i < |t| - 1 ensures t[i] != ' ' || t[i + 1] != ' ' {
      assert t[i] == c[k + i] && t[i + 1] == c[k + i + 1];
    }
  }

  lemma {:induction false} StripMarksNone(s: string)
    requires forall i :: 0 <= i < |s| ==> !IsMark(s[i])
    ensures StripMarks(s) == s
  {
    if s != [] {
      StripMarksNone(s[1..]);
      assert [s[0]] + s[1..] == s;
    }
  }

  /** Exactly the characters that are not marks survive. */
  lemma {:induction false} StripMarksKeeps(s: string)
    ensures forall c :: c in StripMarks(s) <==> c in s && !IsMark(c)
  {
    if s != [] {
      StripMarksKeeps(s[1..]);
      assert s == [s[0]] + s[1..];
    }
  }

  /** Marks are removed where they stand: the rest keeps its order. */
  lemma {:induction false} StripMarksAppend(a: string, b: string)
    ensures StripMarks(a + b) == StripMarks(a) + StripMarks(b)
  {
    if a == [] {
      assert a + b == b;
    } else {
      assert (a + b)[0] == a[0];
      assert (a + b)[1..] == a[1..] + b;
      StripMarksAppend(a[1..], b);
    }
  }

  /** Scrubbing works character by character, so it distributes over concatenation. */
  lemma ScrubAppend(a: string, b: string)
    ensures Scrub(a + b) == Scrub(a) + Scrub(b)
  {
    forall i | 0 <= i < |a + b| ensures Scrub(a + b)[i] == (Scrub(a) + Scrub(b))[i] {
      if i < |a| {
        assert (a + b)[i] == a[i];
      } else {
        assert (a + b)[i] == b[i - |a|];
      }
    }
  }

  /** Scrubbing twice is scrubbing once. */
  lemma ScrubIdempotent(s: string)
    ensures Scrub(Scrub(s)) == Scrub(s)
  {
    var r := Scrub(s);
    forall i | 0 <= i < |r| ensures Scrub(r)[i] == r[i] {
      assert r[i] == (if IsWordChar(s[i]) || IsSpace(s[i]) then s[i] else ' ');
      assert IsSpace(' ');
    }
  }

  /** A text that already has collapsed white space is left alone by Collapse. */
  lemma {:induction false} CollapseFixed(s: string)
    requires WordOrBlank(s)
    requires forall i :: 0 <= i < |s| - 1 ==> s[i] != ' ' || s[i + 1] != ' '
    ensures Collapse(s) == s
    decreases |s|
  {
    if s != [] {
      var t := s[1..];
      assert WordOrBlank(t) by {
        forall i | 0 <= i < |t| ensures IsWordChar(t[i]) || t[i] == ' ' {
          assert t[i] == s[i + 1];
        }
      }
      assert forall i :: 0 <= i < |t| - 1 ==> t[i] != ' ' || t[i + 1] != ' ' by {
        forall i | 0 <= i < |t| - 1 ensures t[i] != ' ' || t[i + 1] != ' ' {
          assert t[i] == s[i + 1] && t[i + 1] == s[i + 2];
        }
      }
      CollapseFixed(t);
      if s[0] == ' ' {
        if t != [] {
          assert t[0] == s[1];
          assert IsWordChar(t[0]);
        }
        assert TrimStart(t) == t;
        assert TrimStart(s) == t;
        assert Collapse(s) == [' '] + Collapse(t);
      } else {
        assert IsWordChar(s[0]) && !IsSpace(s[0]);
        assert Collapse(s) == [s[0]] + Collapse(t);
      }
      assert [s[0]] + t == s;
    }
  }

  /** Normalized texts are fixed points of normalization. */
  lemma NormalIsFixed(s: string)
    requires IsNormal(s)
    ensures NormalizeText(s) == s
  {
    LowerNormal(s);
    StripMarksNone(s);
    ScrubNormal(s);
    CollapseFixed(s);
    TrimNoOuterSpace(s);
  }

  lemma LowerNormal(s: string)
    requires WordOrBlank(s)
    ensures Lower(s) == s
  {
    forall i | 0 <= i < |s| ensures Lower(s)[i] == s[i] {
      assert IsWordChar(s[i]) || s[i] == ' ';
    }
  }

  lemma ScrubNormal(s: string)
    requires WordOrBlank(s)
    ensures Scrub(s) == s
  {
    forall i | 0 <= i < |s| ensures Scrub(s)[i] == s[i] {
      assert IsWordChar(s[i]) || s[i] == ' ';
    }
  }

  /** Normalizing twice is the same as normalizing once. */
  lemma NormalizeIdempotent(s: string)
    ensures NormalizeText(NormalizeText(s)) == NormalizeText(s)
  {
    NormalizeIsNormal(s);
    NormalIsFixed(NormalizeText(s));
  }

  /** `.split(" ").filter(Boolean)`: the words of a text. */
  function Words(s: string): (r: seq<string>)
    ensures forall i :: 0 <= i < |r| ==> r[i] != [] && ' ' !in r[i]
  {
    NonEmpty(Split(s, ' '))
  }

  /** A text with no separator at either end and no two separators side by side
      splits into non-empty pieces only. */
  lemma {:induction false} SplitPiecesNonEmpty(s: string, d: char)
    requires s != [] && s[0] != d && s[|s| - 1] != d
    requires forall i :: 0 <= i < |s| - 1 ==> s[i] != d || s[i + 1] != d
    ensures forall i :: 0 <= i < |Split(s, d)| ==> Split(s, d)[i] != []
    decreases |s|
  {
    var t := Split(s[1..], d);
    assert Split(s, d) == [[s[0]] + t[0]] + t[1..];
    if |s| > 1 {
      if s[1] != d {
        SplitPiecesNonEmpty(s[1..], d);
      } else {
        var u := s[2..];
        assert s[1..][1..] == u;
        assert Split(s[1..], d) == [[]] + Split(u, d);
        assert u[|u| - 1] == s[|s| - 1];
        SplitPiecesNonEmpty(u, d);
        assert t[1..] == Split(u, d);
      }
    }
  }

  /** The words of a normalized text, joined by single spaces, give the text back. */
  lemma WordsJoin(s: string)
    requires IsNormal(s)
    ensures Join(Words(s), " ") == s
  {
    if s != [] {
      SplitPiecesNonEmpty(s, ' ');
      NonEmptyAll(Split(s, ' '));
    }
    JoinSplit(s, ' ');
  }

  /** Non-empty words without spaces, joined by single spaces, split back into the same words. */
  lemma JoinWords(ws: seq<string>)
    requires forall i :: 0 <= i < |ws| ==> ws[i] != [] && ' ' !in ws[i]
    ensures Words(Join(ws, " ")) == ws
  {
    if ws != [] {
      SplitJoin(ws, ' ');
      NonEmptyAll(ws);
    }
  }
}
