/** The question bank side of the quiz page (src/pages/revise.tsx): subject
    metadata, the subject list, the selection and the deck it yields, and the shuffle. */
module Deck {
  import opened Text
  import opened Keywords
  import opened Grading

  /** The `subject` field of a question: an object whose missing or empty fields are
      empty strings here, a bare name, or nothing at all (`undefined`, `null`). */
  datatype SubjectField = SubjectObj(id: string, labelText: string, icon: string) | SubjectName(name: string) | NoSubject

  datatype SubjectMeta = SubjectMeta(id: string, labelText: string, icon: string)

  /** One card of the bank. Prompt, topic, choices and explanation are only displayed. */
  datatype Question = Question(id: string, subject: SubjectField, kind: QType, answer: Value)

  /** The blue book emoji used when a subject has no icon. */
  const DefaultIcon: string := "\U{1F4D8}"

  /** `normalizeSubjectMeta`: fills in id, label and icon from one another, with
      "general"/"General" when there is nothing to go on. */
  function NormalizeSubjectMeta(s: SubjectField): (m: SubjectMeta)
    ensures m.icon != []
    ensures m.id == [] <==> s == SubjectName([])
    ensures m.labelText == [] <==> s == SubjectName([])
    ensures s.SubjectObj? && s.id != [] ==> m.id == s.id
    ensures s.SubjectObj? && s.labelText != [] ==> m.labelText == s.labelText
    ensures s.SubjectObj? && s.id == [] && s.labelText != [] ==> m.id == s.labelText
    ensures s.SubjectObj? && s.labelText == [] && s.id != [] ==> m.labelText == s.id
    ensures s.SubjectObj? && s.id == [] && s.labelText == [] ==> m.id == "general" && m.labelText == "General"
    ensures s.SubjectObj? && s.icon != [] ==> m.icon == s.icon
    ensures !(s.SubjectObj? && s.icon != []) ==> m.icon == DefaultIcon
    ensures s.SubjectName? ==> m == SubjectMeta(s.name, s.name, DefaultIcon)
    ensures s.NoSubject? ==> m == SubjectMeta("general", "General", DefaultIcon)
  {
    match s
    case SubjectObj(id, labelText, icon) =>
      SubjectMeta(
        if id != [] then id else if labelText != [] then labelText else "general",
        if labelText != [] then labelText else if id != [] then id else "General",
        if icon != [] then icon else DefaultIcon)
    case SubjectName(n) => SubjectMeta(n, n, DefaultIcon)
    case NoSubject => SubjectMeta("general", "General", DefaultIcon)
  }

  function AsField(m: SubjectMeta): SubjectField {
    SubjectObj(m.id, m.labelText, m.icon)
  }

  /** Normalizing the result again changes nothing, except for the empty subject name,
      whose empty id turns into "general" the second time. */
  lemma NormalizeSubjectMetaFixed(s: SubjectField)
    ensures s != SubjectName([]) ==> NormalizeSubjectMeta(AsField(NormalizeSubjectMeta(s))) == NormalizeSubjectMeta(s)
    ensures s == SubjectName([]) ==> NormalizeSubjectMeta(AsField(NormalizeSubjectMeta(s))).id == "general"
  {
  }

  function SubjectId(q: Question): string {
    NormalizeSubjectMeta(q.subject).id
  }

  function Ids(ms: seq<SubjectMeta>): (r: seq<string>)
    ensures |r| == |ms|
    ensures forall i :: 0 <= i < |ms| ==> r[i] == ms[i].id
  {
    seq(|ms|, i requires 0 <= i < |ms| => ms[i].id)
  }

  /** `map.set(meta.id, meta)` on an insertion-ordered map. */
  function Put(acc: seq<SubjectMeta>, m: SubjectMeta): seq<SubjectMeta> {
    if acc == [] then [m]
    else if acc[0].id == m.id then [m] + acc[1..]
    else [acc[0]] + Put(acc[1..], m)
  }

  /** A known id keeps its place, an unknown id goes at the end. */
  lemma {:induction false} PutIds(acc: seq<SubjectMeta>, m: SubjectMeta)
    ensures Ids(Put(acc, m)) == if m.id in Ids(acc) then Ids(acc) else Ids(acc) + [m.id]
  {
    if acc != [] {
      assert [acc[0]] + acc[1..] == acc;
      IdsCons(acc[0], acc[1..]);
      if acc[0].id == m.id {
        IdsCons(m, acc[1..]);
      } else {
        PutIds(acc[1..], m);
        IdsCons(acc[0], Put(acc[1..], m));
      }
    }
  }

  lemma IdsCons(x: SubjectMeta, rest: seq<SubjectMeta>)
    ensures Ids([x] + rest) == [x.id] + Ids(rest)
  {
  }

  /** The new value is stored, and nothing else is added. */
  lemma {:induction false} PutValues(acc: seq<SubjectMeta>, m: SubjectMeta)
    ensures m in Put(acc, m)
    ensures forall x :: x in Put(acc, m) ==> x == m || x in acc
  {
    if acc != [] && acc[0].id != m.id {
      PutValues(acc[1..], m);
      assert forall x :: x in acc[1..] ==> x in acc;
    }
  }

  /** The subject list: one entry per subject id in order of first appearance, holding
      the metadata of the last question with that id. */
  function Subjects(bank: seq<Question>): seq<SubjectMeta>
    decreases |bank|
  {
    if bank == [] then []
    else Put(Subjects(bank[..|bank| - 1]), NormalizeSubjectMeta(bank[|bank| - 1].subject))
  }

  /** The subject id of every question, in bank order. */
  function QuestionIds(bank: seq<Question>): (r: seq<string>)
    ensures |r| == |bank|
    ensures forall i :: 0 <= i < |bank| ==> r[i] == SubjectId(bank[i])
  {
    seq(|bank|, i requires 0 <= i < |bank| => SubjectId(bank[i]))
  }

  /** Distinct entries of xs, each where it first occurs. */
  function FirstSeen(xs: seq<string>): seq<string>
    decreases |xs|
  {
    if xs == [] then []
    else
      var p := FirstSeen(xs[..|xs| - 1]);
      if xs[|xs| - 1] in p then p else p + [xs[|xs| - 1]]
  }

  /** FirstSeen has no repeats and the same elements as its input. */
  lemma {:induction false} FirstSeenFacts(xs: seq<string>)
    ensures Distinct(FirstSeen(xs))
    ensures forall x :: x in FirstSeen(xs) <==> x in xs
    decreases |xs|
  {
    if xs != [] {
      var init := xs[..|xs| - 1];
      FirstSeenFacts(init);
      assert xs == init + [xs[|xs| - 1]];
    }
  }

  /** The subject ids are the questions' subject ids without repeats, in first-seen order. */
  lemma {:induction false} SubjectIdsFirstSeen(bank: seq<Question>)
    ensures Ids(Subjects(bank)) == FirstSeen(QuestionIds(bank))
    decreases |bank|
  {
    if bank != [] {
      var init := bank[..|bank| - 1];
      SubjectIdsFirstSeen(init);
      PutIds(Subjects(init), NormalizeSubjectMeta(bank[|bank| - 1].subject));
      assert QuestionIds(bank)[..|bank| - 1] == QuestionIds(init);
    }
  }

  /** Every subject id occurs once, and exactly the ids used by some question occur. */
  lemma SubjectIdsDistinct(bank: seq<Question>)
    ensures Distinct(Ids(Subjects(bank)))
    ensures forall q :: q in bank ==> SubjectId(q) in Ids(Subjects(bank))
    ensures forall x :: x in Ids(Subjects(bank)) ==> exists q :: q in bank && SubjectId(q) == x
  {
    SubjectIdsFirstSeen(bank);
    FirstSeenFacts(QuestionIds(bank));
    forall q | q in bank ensures SubjectId(q) in QuestionIds(bank) {
      var i :| 0 <= i < |bank| && bank[i] == q;
      assert QuestionIds(bank)[i] == SubjectId(q);
    }
    forall x | x in Ids(Subjects(bank)) ensures exists q :: q in bank && SubjectId(q) == x {
      var i :| 0 <= i < |bank| && QuestionIds(bank)[i] == x;
      assert bank[i] in bank;
    }
  }

  /** A later question with an already-seen subject id replaces that subject's metadata. */
  lemma SubjectsLastWins(bank: seq<Question>, q: Question)
    ensures NormalizeSubjectMeta(q.subject) in Subjects(bank + [q])
    ensures Ids(Subjects(bank + [q])) == FirstSeen(QuestionIds(bank + [q]))
  {
    assert (bank + [q])[..|bank|] == bank;
    PutIds(Subjects(bank), NormalizeSubjectMeta(q.subject));
    PutValues(Subjects(bank), NormalizeSubjectMeta(q.subject));
    SubjectIdsFirstSeen(bank + [q]);
  }

  /** The `forEach` over the bank that fills the subject map. */
  method CollectSubjects(bank: seq<Question>) returns (r: seq<SubjectMeta>)
    ensures r == Subjects(bank)
  {
    r := [];
    var i := 0;
    while i < |bank|
      invariant 0 <= i <= |bank|
      invariant r == Subjects(bank[..i])
    {
      assert bank[..i + 1][..i] == bank[..i];
      r := Put(r, NormalizeSubjectMeta(bank[i].subject));
      i := i + 1;
    }
    assert bank[..i] == bank;
  }

  /** `subjects.filter((subject) => prev.includes(subject.id))` on the ids. */
  function KeepSelected(ids: seq<string>, prev: seq<string>): (r: seq<string>)
    ensures forall x :: x in r <==> x in ids && x in prev
    ensures Distinct(ids) ==> Distinct(r)
    decreases |ids|
  {
    if ids == [] then []
    else
      assert ids[0] !in ids[1..] || !Distinct(ids);
      (if ids[0] in prev then [ids[0]] else []) + KeepSelected(ids[1..], prev)
  }

  /** The selection after the subject list changes: all subjects when nothing was
      selected, otherwise the still-existing selected subjects, and all subjects again
      when none of them exists any more. */
  function Reselect(prev: seq<string>, ids: seq<string>): seq<string> {
    if prev == [] then ids
    else
      var next := KeepSelected(ids, prev);
      if next == [] then ids else next
  }

  /** The new selection is never empty while there are subjects, holds only subject ids
      without repeats, and keeps exactly the selected ids that still exist when there are any. */
  lemma ReselectFacts(prev: seq<string>, ids: seq<string>)
    requires Distinct(ids)
    ensures ids != [] ==> Reselect(prev, ids) != []
    ensures Distinct(Reselect(prev, ids))
    ensures forall x :: x in Reselect(prev, ids) ==> x in ids
    ensures (exists x :: x in prev && x in ids) ==>
      forall x :: x in Reselect(prev, ids) <==> x in ids && x in prev
  {
  }

  /** `toggleSubject`: `Array.from(new Set(prev))` after deleting the id if present, else adding it. */
  function ToggleId(prev: seq<string>, id: string): seq<string> {
    var d := FirstSeen(prev);
    if id in d then Without(d, id) else d + [id]
  }

  /** Toggling flips whether the one id is selected, leaves every other id as it was,
      and never creates a repeat. */
  lemma ToggleIdFacts(prev: seq<string>, id: string)
    ensures id in ToggleId(prev, id) <==> id !in prev
    ensures forall x :: x != id ==> (x in ToggleId(prev, id) <==> x in prev)
    ensures Distinct(ToggleId(prev, id))
  {
    FirstSeenFacts(prev);
    WithoutDistinct(FirstSeen(prev), id);
  }

  /** `rawBank.filter(...)` keeping the questions whose subject id is selected. */
  function Filtered(bank: seq<Question>, ids: set<string>): (r: seq<Question>)
    ensures forall q :: q in r <==> q in bank && SubjectId(q) in ids
    ensures multiset(r) <= multiset(bank)
    ensures forall q :: multiset(r)[q] == if SubjectId(q) in ids then multiset(bank)[q] else 0
    decreases |bank|
  {
    if bank == [] then []
    else
      assert bank == [bank[0]] + bank[1..];
      (if SubjectId(bank[0]) in ids then [bank[0]] else []) + Filtered(bank[1..], ids)
  }

  /** The questions the deck is drawn from: the selected subjects' questions, or the
      whole bank when nothing is selected or nothing selected has questions. */
  function DeckPool(bank: seq<Question>, selected: seq<string>): seq<Question> {
    var ids := Elems(selected);
    var filtered := if |ids| == 0 then bank else Filtered(bank, ids);
    if filtered == [] then bank else filtered
  }

  /** The pool comes from the bank and is empty only with it; it is the whole bank when the
      selection is empty or matches no question, and otherwise exactly the questions of
      selected subjects. */
  lemma DeckPoolFacts(bank: seq<Question>, selected: seq<string>)
    ensures multiset(DeckPool(bank, selected)) <= multiset(bank)
    ensures DeckPool(bank, selected) == [] <==> bank == []
    ensures selected == [] ==> DeckPool(bank, selected) == bank
    ensures (forall q :: q in bank ==> SubjectId(q) !in selected) ==> DeckPool(bank, selected) == bank
    ensures (exists q :: q in bank && SubjectId(q) in selected) ==>
      forall q :: q in DeckPool(bank, selected) <==> q in bank && SubjectId(q) in selected
    ensures (exists q :: q in bank && SubjectId(q) in selected) ==>
      forall q :: multiset(DeckPool(bank, selected))[q] == if SubjectId(q) in selected then multiset(bank)[q] else 0
  {
    var ids := Elems(selected);
    if selected == [] {
      assert |ids| == 0;
    } else {
      assert selected[0] in ids;
      var f := Filtered(bank, ids);
      assert DeckPool(bank, selected) == if f == [] then bank else f;
      if exists q :: q in bank && SubjectId(q) in selected {
        var q :| q in bank && SubjectId(q) in selected;
        assert q in f;
      } else if f != [] {
        assert f[0] in f;
      }
    }
  }


  /** Exchanging two cells keeps the same elements. */
  method Swap<T>(a: array<T>, i: nat, j: nat)
    requires i < a.Length && j < a.Length
    modifies a
    ensures a[..] == old(a[..])[i := old(a[j])][j := old(a[i])]
    ensures multiset(a[..]) == multiset(old(a[..]))
  {
    ghost var s := a[..];
    a[i], a[j] := a[j], a[i];
    assert a[..] == s[i := s[j]][j := s[i]];
  }

  /** `shuffleQuestions`: copies the list and swaps each position, from the last down to
      the second, with an arbitrary position at or before it (`Math.random` picks it). */
  method Shuffle<T>(list: seq<T>) returns (r: seq<T>)
    ensures multiset(r) == multiset(list)
  {
    var a := new T[|list|](k requires 0 <= k < |list| => list[k]);
    assert a[..] == list;
    var i := a.Length - 1;
    while i > 0
      invariant i < a.Length
      invariant multiset(a[..]) == multiset(list)
    {
      var j :| 0 <= j <= i;
      Swap(a, i, j);
      i := i - 1;
    }
    r := a[..];
  }

  /** The deck effect's new deck: the pool, shuffled. */
  method NewDeck(bank: seq<Question>, selected: seq<string>) returns (deck: seq<Question>)
    ensures multiset(deck) == multiset(DeckPool(bank, selected))
    ensures multiset(deck) <= multiset(bank)
  {
    DeckPoolFacts(bank, selected);
    deck := Shuffle(DeckPool(bank, selected));
  }
}
