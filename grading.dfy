/** The marking half of `checkAnswer` (src/pages/revise.tsx): for each question
    type, what feedback one answer earns. */
module Grading {
  import opened Text
  import opened Normalize
  import opened Distance
  import opened Keywords
  import opened Seqs

  /** The `type` field of a question; any other spelling is not graded. */
  datatype QType = Mcq | Tf | Multi | Short | OtherType(name: string)

  datatype Status = Correct | Wrong

  /** What `checkAnswer` does to the question's feedback entry: set it, delete it,
      or leave it alone (unknown type, or a `new Set` over a boolean answer, which throws). */
  datatype Outcome = Mark(status: Status) | Clear | Untouched

  /** `===` between an answer given on the page and the stored answer. Arrays are
      compared by identity, and the page always passes a fresh one, so they never agree. */
  predicate StrictEquals(a: Value, b: Value) {
    match (a, b)
    case (Str(x), Str(y)) => x == y
    case (Flag(x), Flag(y)) => x == y
    case (Undefined, Undefined) => true
    case _ => false
  }

  /** `String(x).trim().toLowerCase()` */
  function Folded(v: Value): string {
    Lower(Trim(Stringify(v)))
  }

  function McqGrade(value: Value, answer: Value): Outcome {
    if Folded(value) == Folded(answer) then Mark(Correct) else Mark(Wrong)
  }

  function TfGrade(value: Value, answer: Value): Outcome {
    if StrictEquals(value, answer) then Mark(Correct) else Mark(Wrong)
  }

  /** `Array.isArray(value) ? value : []` */
  function Selections(value: Value): seq<string> {
    if value.Strs? then value.xs else []
  }

  function Elems(xs: seq<string>): set<string> {
    set x | x in xs
  }

  /** `new Set(answer)`: an array gives its elements, a text its characters, `undefined`
      nothing; a boolean is not iterable, and the handler throws. */
  function AnswerSet(answer: Value): Option<set<string>> {
    match answer
    case Strs(xs) => Some(Elems(xs))
    case Str(s) => Some(set i | 0 <= i < |s| :: [s[i]])
    case Undefined => Some({})
    case Flag(_) => None
  }

  function MultiGrade(value: Value, answer: Value): Outcome {
    var sel := Selections(value);
    if |sel| == 0 then Clear
    else
      match AnswerSet(answer)
      case None => Untouched
      case Some(ans) =>
        var hasInvalid := exists i :: 0 <= i < |sel| && sel[i] !in ans;
        if hasInvalid || |sel| > |ans| then Mark(Wrong)
        else if |sel| == |ans| && (forall c :: c in Elems(sel) ==> c in ans) then Mark(Correct)
        else Clear
  }

  /** A typed answer with every keyword of the stored answer (or, when it has none,
      close enough to the whole stored answer) is correct; anything else only clears. */
  function ShortGrade(value: Value, answer: Value): Outcome {
    var text := Stringify(value);
    var ni := NormalizeText(text);
    if ni == [] then Clear
    else
      var ks := ExtractKeywords(answer);
      var meets :=
        if |ks| > 0 then AllMatch(text, ks)
        else Similar(ni, NormalizeText(Stringify(answer)));
      if meets then Mark(Correct) else Clear
  }

  function Grade(value: Value, kind: QType, answer: Value): Outcome {
    match kind
    case Mcq => McqGrade(value, answer)
    case Tf => TfGrade(value, answer)
    case Multi => MultiGrade(value, answer)
    case Short => ShortGrade(value, answer)
    case OtherType(_) => Untouched
  }

  /** `keywords.every((keyword) => keywordMatches(text, keyword))` */
  predicate AllMatch(text: string, ks: seq<string>) {
    Every((k: string) => KeywordMatch(text, k), ks)
  }

  /** Every keyword matches exactly when each one does. */
  lemma AllMatchIff(text: string, ks: seq<string>)
    ensures AllMatch(text, ks) <==> forall i :: 0 <= i < |ks| ==> KeywordMatch(text, ks[i])
  {
    EveryIff((k: string) => KeywordMatch(text, k), ks);
  }

  /** The `every` loop, stopping at the first keyword that does not match. */
  method AllKeywordsMatch(text: string, ks: seq<string>) returns (b: bool)
    ensures b == AllMatch(text, ks)
  {
    var i := 0;
    while i < |ks|
      invariant 0 <= i <= |ks|
      invariant AllMatch(text, ks[..i])
    {
      var m := KeywordMatches(text, ks[i]);
      if !m {
        if AllMatch(text, ks) {
          EveryPrefix((k: string) => KeywordMatch(text, k), ks, i + 1);
        }
        return false;
      }
      assert ks[..i + 1][..i] == ks[..i];
      i := i + 1;
    }
    assert ks[..i] == ks;
    return true;
  }

  /** The grading steps of `checkAnswer`, with the short-answer test run through the matcher. */
  method Evaluate(value: Value, kind: QType, answer: Value) returns (g: Outcome)
    ensures g == Grade(value, kind, answer)
  {
    match kind
    case Short =>
      g := EvaluateShort(value, answer);
    case Mcq =>
      g := McqGrade(value, answer);
    case Tf =>
      g := TfGrade(value, answer);
    case Multi =>
      g := MultiGrade(value, answer);
    case OtherType(_) =>
      g := Untouched;
  }

  /** The short-answer branch of `checkAnswer`. */
  method EvaluateShort(value: Value, answer: Value) returns (g: Outcome)
    ensures g == ShortGrade(value, answer)
  {
    var text := Stringify(value);
    var ni := NormalizeText(text);
    if ni == [] {
      return Clear;
    }
    var ks := ExtractKeywords(answer);
    var meets: bool;
    if |ks| > 0 {
      meets := AllKeywordsMatch(text, ks);
    } else {
      var r := ComputeSimilarity(ni, NormalizeText(Stringify(answer)));
      meets := r >= Threshold;
    }
    g := if meets then Mark(Correct) else Clear;
  }

  /** Surrounding white space and capital letters in the chosen option do not change the mark. */
  lemma McqIgnoresCaseAndSpace(x: string, answer: Value)
    ensures McqGrade(Str(Trim(x)), answer) == McqGrade(Str(x), answer)
    ensures McqGrade(Str(Lower(x)), answer) == McqGrade(Str(x), answer)
  {
    TrimIdempotent(x);
    LowerTrimCommute(Lower(x));
    LowerIdempotent(x);
    LowerTrimCommute(x);
  }

  /** A true/false answer is correct for the same boolean and wrong for the other one;
      a stored answer spelled as text never equals a boolean. */
  lemma TfIff(b: bool, answer: Value)
    ensures answer.Flag? ==> Grade(Flag(b), Tf, answer) == Mark(if b == answer.b then Correct else Wrong)
    ensures answer.Str? ==> Grade(Flag(b), Tf, answer) == Mark(Wrong)
  {
  }

  /** A short answer is never marked wrong: it is either correct or its mark is cleared. */
  lemma ShortNeverWrong(value: Value, answer: Value)
    ensures Grade(value, Short, answer) == Mark(Correct) || Grade(value, Short, answer) == Clear
  {
  }

  /** Typing the stored answer itself, when it is a single clean keyword, is correct. */
  lemma ShortExactAnswer(k: string)
    requires CleanKeyword(k) && NormalizeText(k) != []
    ensures ShortGrade(Str(k), Str(k)) == Mark(Correct)
  {
    KeywordPartsJoin([k]);
    assert Join([k], [',']) == k;
    assert ExtractKeywords(Str(k)) == [k];
    KeywordMatchSelf(k);
  }

  /** With keywords, a short answer is correct exactly when every keyword matches
      and the input is not blank. */
  lemma ShortKeywordsIff(value: Value, answer: Value)
    requires |ExtractKeywords(answer)| > 0
    ensures ShortGrade(value, answer) == Mark(Correct) <==>
      NormalizeText(Stringify(value)) != [] &&
      forall i :: 0 <= i < |ExtractKeywords(answer)| ==> KeywordMatch(Stringify(value), ExtractKeywords(answer)[i])
  {
    AllMatchIff(Stringify(value), ExtractKeywords(answer));
  }

  /** No repeated entries. */
  predicate Distinct(xs: seq<string>) {
    forall i, j :: 0 <= i < j < |xs| ==> xs[i] != xs[j]
  }

  lemma {:induction false} DistinctCard(xs: seq<string>)
    requires Distinct(xs)
    ensures |Elems(xs)| == |xs|
    decreases |xs|
  {
    if xs != [] {
      var t := xs[..|xs| - 1];
      DistinctCard(t);
      assert Elems(xs) == Elems(t) + {xs[|xs| - 1]};
      assert xs[|xs| - 1] !in Elems(t);
    }
  }

  lemma SubsetSameSize(a: set<string>, b: set<string>)
    requires a <= b && |a| == |b|
    ensures a == b
  {
    if a != b {
      var x :| x in b && x !in a;
      assert a <= b - {x};
      assert |b - {x}| == |b| - 1;
      SubsetCard(a, b - {x});
    }
  }

  lemma {:induction false} SubsetCard(a: set<string>, b: set<string>)
    requires a <= b
    ensures |a| <= |b|
    decreases |b|
  {
    if a != {} {
      var x :| x in a;
      SubsetCard(a - {x}, b - {x});
    }
  }

  /** Without repeated selections, a multi-select answer is correct exactly when the
      selected options are the answer options. */
  lemma MultiCorrectIff(sel: seq<string>, ans: seq<string>)
    requires Distinct(sel) && sel != []
    ensures Grade(Strs(sel), Multi, Strs(ans)) == Mark(Correct) <==> Elems(sel) == Elems(ans)
  {
    DistinctCard(sel);
    if Elems(sel) <= Elems(ans) && |sel| == |Elems(ans)| {
      SubsetSameSize(Elems(sel), Elems(ans));
    }
    if Elems(sel) == Elems(ans) {
      forall i | 0 <= i < |sel| ensures sel[i] in Elems(ans) {
        assert sel[i] in Elems(sel);
      }
    }
  }

  /** Without repeated selections, a multi-select answer is wrong exactly when some
      selected option is not an answer option. */
  lemma MultiWrongIff(sel: seq<string>, ans: seq<string>)
    requires Distinct(sel) && sel != []
    ensures Grade(Strs(sel), Multi, Strs(ans)) == Mark(Wrong) <==> exists i :: 0 <= i < |sel| && sel[i] !in Elems(ans)
  {
    DistinctCard(sel);
    if forall i :: 0 <= i < |sel| ==> sel[i] in Elems(ans) {
      assert Elems(sel) <= Elems(ans);
      SubsetCard(Elems(sel), Elems(ans));
    }
  }

  /** Selecting only some of the answer options clears the mark. */
  lemma MultiPartialClears(sel: seq<string>, ans: seq<string>)
    requires Distinct(sel) && sel != []
    requires Elems(sel) < Elems(ans)
    ensures Grade(Strs(sel), Multi, Strs(ans)) == Clear
  {
    MultiWrongIff(sel, ans);
    MultiCorrectIff(sel, ans);
  }

  /** An empty selection clears the mark whatever the stored answer. */
  lemma MultiEmptyClears(value: Value, answer: Value)
    requires Selections(value) == []
    ensures Grade(value, Multi, answer) == Clear
  {
  }

  /** The grading counts selections rather than distinct selections: the same option
      picked twice stands in for a missing one. */
  lemma MultiDuplicateCaveat()
    ensures Grade(Strs(["A", "A"]), Multi, Strs(["A", "B"])) == Mark(Correct)
  {
    var ans := Elems(["A", "B"]);
    assert ans == {"A", "B"};
    assert "A" != "B";
    assert |ans| == 2;
    assert Elems(["A", "A"]) == {"A"};
  }

  /** The checkbox handler: start from the stored array (or none), then add the option
      when its box becomes ticked and drop every copy of it when it is unticked. */
  function ToggleChoice(prev: Value, choice: string): (r: seq<string>)
    ensures choice in r <==> choice !in Selections(prev)
    ensures forall x :: x != choice ==> (x in r <==> x in Selections(prev))
  {
    var xs := Selections(prev);
    if choice in xs then Without(xs, choice) else xs + [choice]
  }

  /** `filter((c) => c !== choice)` */
  function Without(xs: seq<string>, choice: string): (r: seq<string>)
    ensures choice !in r
    ensures forall x :: x != choice ==> (x in r <==> x in xs)
  {
    if xs == [] then []
    else (if xs[0] == choice then [] else [xs[0]]) + Without(xs[1..], choice)
  }

  lemma {:induction false} WithoutDistinct(xs: seq<string>, choice: string)
    requires Distinct(xs)
    ensures Distinct(Without(xs, choice))
    decreases |xs|
  {
    if xs != [] {
      WithoutDistinct(xs[1..], choice);
      assert xs[0] !in xs[1..];
    }
  }

  /** The checkbox handler never creates a repeated selection. */
  lemma ToggleChoiceDistinct(prev: Value, choice: string)
    requires Distinct(Selections(prev))
    ensures Distinct(ToggleChoice(prev, choice))
  {
    WithoutDistinct(Selections(prev), choice);
  }
}
