/** String helpers shared by every part of the site: JavaScript's white-space
    class, `trim`, ASCII lower-casing, `split`/`join` on one character,
    substring tests and decimal rendering of whole numbers. */
module Text {

  datatype Option<T> = None | Some(value: T) {
    function GetOr(default: T): T {
      match this
      case Some(v) => v
      case None => default
    }
  }

  /** JavaScript's `\s` (WhiteSpace and LineTerminator); also what `String.prototype.trim` removes. */
  predicate IsSpace(c: char) {
    || c == '\t' || c == '\n' || c == '\U{0B}' || c == '\U{0C}' || c == '\r' || c == ' '
    || c == '\U{A0}' || c == '\U{1680}' || ('\U{2000}' <= c <= '\U{200A}')
    || c == '\U{2028}' || c == '\U{2029}' || c == '\U{202F}' || c == '\U{205F}'
    || c == '\U{3000}' || c == '\U{FEFF}'
  }

  /** `trimStart` */
  function TrimStart(s: string): (r: string)
    ensures |r| <= |s|
  {
    if s != [] && IsSpace(s[0]) then TrimStart(s[1..]) else s
  }

  /** `trimStart` drops the leading white space and nothing else. */
  lemma {:induction false} TrimStartShape(s: string)
    ensures |TrimStart(s)| <= |s| && TrimStart(s) == s[|s| - |TrimStart(s)|..]
    ensures forall i :: 0 <= i < |s| - |TrimStart(s)| ==> IsSpace(s[i])
    ensures TrimStart(s) == [] || !IsSpace(TrimStart(s)[0])
    decreases |s|
  {
    if s != [] && IsSpace(s[0]) {
      TrimStartShape(s[1..]);
    }
  }

  /** `trimEnd` */
  function TrimEnd(s: string): string {
    if s != [] && IsSpace(s[|s| - 1]) then TrimEnd(s[..|s| - 1]) else s
  }

  /** `trimEnd` drops the trailing white space and nothing else. */
  lemma {:induction false} TrimEndShape(s: string)
    ensures |TrimEnd(s)| <= |s| && TrimEnd(s) == s[..|TrimEnd(s)|]
    ensures forall i :: |TrimEnd(s)| <= i < |s| ==> IsSpace(s[i])
    ensures TrimEnd(s) == [] || !IsSpace(TrimEnd(s)[|TrimEnd(s)| - 1])
    decreases |s|
  {
    if s != [] && IsSpace(s[|s| - 1]) {
      TrimEndShape(s[..|s| - 1]);
    }
  }

  /** `String.prototype.trim`. */
  function Trim(s: string): string {
    TrimEnd(TrimStart(s))
  }

  predicate NoOuterSpace(s: string) {
    s == [] || (!IsSpace(s[0]) && !IsSpace(s[|s| - 1]))
  }

  /** The result of trim is a slice of the input with no white space at either end,
      and only white space was cut away. */
  lemma TrimSlice(s: string) returns (k: nat)
    ensures k + |Trim(s)| <= |s| && Trim(s) == s[k..k + |Trim(s)|]
    ensures NoOuterSpace(Trim(s))
    ensures forall i :: 0 <= i < k ==> IsSpace(s[i])
    ensures forall i :: k + |Trim(s)| <= i < |s| ==> IsSpace(s[i])
  {
    var t := TrimStart(s);
    TrimStartShape(s);
    var r := TrimEnd(t);
    TrimEndShape(t);
    k := |s| - |t|;
    SliceOfSuffix(s, t, r);
  }

  /** A prefix r of a suffix t of s, with only white space around it, is a slice of s. */
  lemma SliceOfSuffix(s: string, t: string, r: string)
    requires |t| <= |s| && t == s[|s| - |t|..]
    requires forall i :: 0 <= i < |s| - |t| ==> IsSpace(s[i])
    requires t == [] || !IsSpace(t[0])
    requires |r| <= |t| && r == t[..|r|]
    requires forall i :: |r| <= i < |t| ==> IsSpace(t[i])
    requires r == [] || !IsSpace(r[|r| - 1])
    ensures r == s[|s| - |t|..|s| - |t| + |r|]
    ensures NoOuterSpace(r)
    ensures forall i :: |s| - |t| + |r| <= i < |s| ==> IsSpace(s[i])
  {
    var k := |s| - |t|;
    if r != [] {
      assert r[0] == t[0];
    }
    forall i | k + |r| <= i < |s| ensures IsSpace(s[i]) {
      assert s[i] == t[i - k];
    }
  }

  /** Trimming a string with no white space at its ends changes nothing. */
  lemma TrimNoOuterSpace(s: string)
    requires NoOuterSpace(s)
    ensures Trim(s) == s
  {
  }

  lemma TrimIdempotent(s: string)
    ensures Trim(Trim(s)) == Trim(s)
  {
    var _ := TrimSlice(s);
    TrimNoOuterSpace(Trim(s));
  }

  /** ASCII part of `toLowerCase`. */
  function LowerChar(c: char): (r: char)
    ensures !('A' <= r <= 'Z')
    ensures 'A' <= c <= 'Z' || r == c
  {
    if 'A' <= c <= 'Z' then (c as int - 'A' as int + 'a' as int) as char else c
  }

  function Lower(s: string): (r: string)
    ensures |r| == |s|
    ensures forall i :: 0 <= i < |s| ==> r[i] == LowerChar(s[i])
  {
    seq(|s|, i requires 0 <= i < |s| => LowerChar(s[i]))
  }

  lemma LowerIdempotent(s: string)
    ensures Lower(Lower(s)) == Lower(s)
  {
  }

  lemma LowerAppend(a: string, b: string)
    ensures Lower(a + b) == Lower(a) + Lower(b)
  {
  }

  /** Lower-casing and trimming commute: lower-casing never maps a letter to white space or back. */
  lemma LowerTrimCommute(s: string)
    ensures Lower(Trim(s)) == Trim(Lower(s))
  {
    LowerTrimStart(s);
    LowerTrimEnd(TrimStart(s));
  }

  /** Lower-casing maps white space to itself and nothing else to white space. */
  lemma LowerCharSpace(c: char)
    ensures IsSpace(LowerChar(c)) == IsSpace(c)
  {
    if 'A' <= c <= 'Z' {
      assert 'a' <= LowerChar(c) <= 'z';
    }
  }

  lemma {:induction false} LowerTrimStart(s: string)
    ensures Lower(TrimStart(s)) == TrimStart(Lower(s))
    decreases |s|
  {
    if s == [] {
      assert Lower(s) == [];
    } else {
      var l := Lower(s);
      assert l[0] == LowerChar(s[0]);
      LowerCharSpace(s[0]);
      if IsSpace(s[0]) {
        assert l[1..] == Lower(s[1..]);
        LowerTrimStart(s[1..]);
      }
    }
  }

  lemma {:induction false} LowerTrimEnd(s: string)
    ensures Lower(TrimEnd(s)) == TrimEnd(Lower(s))
    decreases |s|
  {
    if s == [] {
      assert Lower(s) == [];
    } else {
      var init, last := s[..|s| - 1], s[|s| - 1];
      assert s == init + [last];
      LowerCharSpace(last);
      assert Lower(s) == Lower(init) + [LowerChar(last)] by {
        LowerAppend(init, [last]);
      }
      TrimEndSnoc(init, last);
      TrimEndSnoc(Lower(init), LowerChar(last));
      if IsSpace(last) {
        LowerTrimEnd(init);
      }
    }
  }

  /** `trimEnd` of a text with one more character at the end. */
  lemma TrimEndSnoc(a: string, c: char)
    ensures TrimEnd(a + [c]) == if IsSpace(c) then TrimEnd(a) else a + [c]
  {
    assert (a + [c])[..|a|] == a;
  }

  predicate StartsWith(s: string, p: string) {
    |p| <= |s| && s[..|p|] == p
  }

  predicate EndsWith(s: string, p: string) {
    |p| <= |s| && s[|s| - |p|..] == p
  }

  /** `String.prototype.includes`. */
  predicate Contains(s: string, k: string)
    decreases |s|
  {
    StartsWith(s, k) || (s != [] && Contains(s[1..], k))
  }

  /** `includes` holds exactly when the key occurs at some offset. */
  lemma {:induction false} ContainsAt(s: string, k: string, i: nat)
    requires i + |k| <= |s| && s[i..i + |k|] == k
    ensures Contains(s, k)
    decreases i
  {
    if i > 0 {
      assert s[1..][i - 1..i - 1 + |k|] == k;
      ContainsAt(s[1..], k, i - 1);
    }
  }

  /** `split` on a single character, as JavaScript does it: always at least one
      piece, and no piece holds the separator. */
  function Split(s: string, d: char): (r: seq<string>)
    ensures |r| >= 1
    ensures forall i :: 0 <= i < |r| ==> d !in r[i]
    decreases |s|
  {
    if s == [] then [[]]
    else if s[0] == d then [[]] + Split(s[1..], d)
    else
      var t := Split(s[1..], d);
      [[s[0]] + t[0]] + t[1..]
  }

  /** `Array.prototype.join` with a separator string. */
  function Join(xs: seq<string>, d: string): string
    decreases |xs|
  {
    if xs == [] then []
    else if |xs| == 1 then xs[0]
    else xs[0] + d + Join(xs[1..], d)
  }

  /** Joining the pieces of a split with the same separator gives back the input. */
  lemma JoinTwo(x: string, y: string, d: string)
    ensures Join([x, y], d) == x + d + y
  {
    assert [x, y][1..] == [y];
  }

  lemma {:induction false} JoinSplit(s: string, d: char)
    ensures Join(Split(s, d), [d]) == s
    decreases |s|
  {
    if s == [] {
    } else if s[0] == d {
      JoinSplit(s[1..], d);
      var t := Split(s[1..], d);
      assert Split(s, d) == [[]] + t;
      assert ([[]] + t)[1..] == t;
    } else {
      JoinSplit(s[1..], d);
      var t := Split(s[1..], d);
      var r := Split(s, d);
      assert r == [[s[0]] + t[0]] + t[1..];
      if |t| == 1 {
        assert r == [[s[0]] + t[0]];
      } else {
        assert r[1..] == t[1..];
        assert Join(t, [d]) == t[0] + [d] + Join(t[1..], [d]);
      }
    }
  }

  /** Splitting a join of separator-free pieces gives the pieces back. */
  lemma {:induction false} SplitJoin(xs: seq<string>, d: char)
    requires |xs| >= 1
    requires forall i :: 0 <= i < |xs| ==> d !in xs[i]
    ensures Split(Join(xs, [d]), d) == xs
    decreases |xs|
  {
    if |xs| == 1 {
      SplitNoSeparator(xs[0], d);
    } else {
      SplitJoin(xs[1..], d);
      SplitAfterPiece(xs[0], Join(xs[1..], [d]), d);
      assert [xs[0]] + xs[1..] == xs;
    }
  }

  lemma {:induction false} SplitNoSeparator(s: string, d: char)
    requires d !in s
    ensures Split(s, d) == [s]
    decreases |s|
  {
    if s != [] {
      SplitNoSeparator(s[1..], d);
      assert [s[0]] + s[1..] == s;
    }
  }

  lemma {:induction false} SplitAfterPiece(p: string, rest: string, d: char)
    requires d !in p
    ensures Split(p + [d] + rest, d) == [p] + Split(rest, d)
    decreases |p|
  {
    if p == [] {
      assert p + [d] + rest == [d] + rest;
      assert ([d] + rest)[1..] == rest;
    } else {
      var s := p + [d] + rest;
      assert s[1..] == p[1..] + [d] + rest;
      SplitAfterPiece(p[1..], rest, d);
      assert [p[0]] + p[1..] == p;
    }
  }

  /** The input holds the separator exactly when the split yields more than one piece. */
  lemma SplitMany(s: string, d: char)
    ensures d in s <==> |Split(s, d)| >= 2
  {
    JoinSplit(s, d);
    if |Split(s, d)| == 1 {
      assert Join(Split(s, d), [d]) == Split(s, d)[0];
    } else {
      var r := Split(s, d);
      assert Join(r, [d]) == r[0] + [d] + Join(r[1..], [d]);
      assert s[|r[0]|] == d;
    }
  }

  /** `filter(Boolean)` over strings: drops the empty ones. */
  function NonEmpty(xs: seq<string>): (r: seq<string>)
    ensures |r| <= |xs|
    ensures forall i :: 0 <= i < |r| ==> r[i] != [] && r[i] in xs
    ensures forall x :: x in xs && x != [] ==> x in r
  {
    if xs == [] then []
    else (if xs[0] == [] then [] else [xs[0]]) + NonEmpty(xs[1..])
  }

  lemma NonEmptyAppend(a: seq<string>, b: seq<string>)
    ensures NonEmpty(a + b) == NonEmpty(a) + NonEmpty(b)
  {
    if a == [] {
      assert a + b == b;
    } else {
      assert (a + b)[0] == a[0];
      assert (a + b)[1..] == a[1..] + b;
      NonEmptyAppend(a[1..], b);
    }
  }

  /** `filter(Boolean)` leaves a list of non-empty strings as it is. */
  lemma {:induction false} NonEmptyAll(xs: seq<string>)
    requires forall i :: 0 <= i < |xs| ==> xs[i] != []
    ensures NonEmpty(xs) == xs
  {
    if xs != [] {
      NonEmptyAll(xs[1..]);
      assert [xs[0]] + xs[1..] == xs;
    }
  }

  lemma NonEmptyIdempotent(xs: seq<string>)
    ensures NonEmpty(NonEmpty(xs)) == NonEmpty(xs)
  {
    if xs != [] {
      NonEmptyIdempotent(xs[1..]);
      NonEmptyAppend(if xs[0] == [] then [] else [xs[0]], NonEmpty(xs[1..]));
    }
  }

  function Digit(n: nat): char
    requires n < 10
  {
    ('0' as int + n) as char
  }

  /** `String(n)` for a whole number: its decimal digits, without leading zeros. */
  function Decimal(n: nat): (r: string)
    ensures |r| >= 1
    ensures forall i :: 0 <= i < |r| ==> '0' <= r[i] <= '9'
  {
    if n < 10 then [Digit(n)] else Decimal(n / 10) + [Digit(n % 10)]
  }

  /** Reads a run of decimal digits back into a number. */
  function DigitsValue(s: string): nat
    requires forall i :: 0 <= i < |s| ==> '0' <= s[i] <= '9'
  {
    if s == [] then 0
    else 10 * DigitsValue(s[..|s| - 1]) + (s[|s| - 1] as int - '0' as int)
  }

  /** Reading the decimal rendering of n gives n back. */
  lemma {:induction false} DecimalRoundTrip(n: nat)
    ensures DigitsValue(Decimal(n)) == n
  {
    if n >= 10 {
      DecimalRoundTrip(n / 10);
      var r := Decimal(n);
      assert r[..|r| - 1] == Decimal(n / 10);
    }
  }
}
