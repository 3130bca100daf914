/** The state the quiz page keeps between renders (src/pages/revise.tsx): the bank, its
    subjects, the selected subjects, the shuffled deck, the current card, the answers
    typed or picked, the feedback per question and whether the answer is revealed.
    Each effect and handler is a method; the page runs an effect after the state it
    depends on changes, which the methods that change that state do here themselves. */
module Session {
  import opened Text
  import opened Keywords
  import opened Grading
  import opened Deck

  /** The feedback map after one grading: set, delete, or leave the question's entry. */
  function Applied(fb: map<string, Status>, id: string, g: Outcome): map<string, Status> {
    match g
    case Mark(s) => fb[id := s]
    case Clear => fb - {id}
    case Untouched => fb
  }

  /** Grading touches the graded question's entry and no other. */
  lemma AppliedOnlyThatKey(fb: map<string, Status>, id: string, g: Outcome)
    ensures forall k :: k != id ==> (k in Applied(fb, id, g) <==> k in fb)
    ensures forall k :: k != id && k in fb ==> Applied(fb, id, g)[k] == fb[k]
    ensures g.Mark? ==> id in Applied(fb, id, g) && Applied(fb, id, g)[id] == g.status
    ensures g.Clear? ==> id !in Applied(fb, id, g)
  {
  }

  /** Every multi-select answer lists each choice once. */
  predicate DistinctPicks(answers: map<string, Value>) {
    forall id :: id in answers && answers[id].Strs? ==> Distinct(answers[id].xs)
  }

  /** Recording an answer without repeats keeps every answer free of repeats. */
  lemma DistinctPicksSet(answers: map<string, Value>, id: string, v: Value)
    requires DistinctPicks(answers) && (v.Strs? ==> Distinct(v.xs))
    ensures DistinctPicks(answers[id := v])
  {
  }

  /** A deck drawn from an empty bank is empty. */
  lemma NothingWithinEmpty(deck: seq<Question>)
    requires multiset(deck) <= multiset([])
    ensures deck == []
  {
    assert |multiset(deck)| == |deck|;
  }

  class QuizSession {
    /** `rawBank`: the questions passed in, or the built-in bank when none are. */
    const bank: seq<Question>
    /** `subjects`, derived from the bank once. */
    const subjects: seq<SubjectMeta>
    var selected: seq<string>
    /** `quizBank`: the cards in play, in shuffled order. */
    var deck: seq<Question>
    var index: nat
    var answers: map<string, Value>
    var feedback: map<string, Status>
    var revealed: bool

    ghost predicate Valid()
      reads this
    {
      && subjects == Subjects(bank)
      && (index == 0 || index < |deck|)
      && multiset(deck) <= multiset(bank)
      && DistinctPicks(answers)
    }

    /** The first render: nothing selected, the unshuffled bank, first card, no answers. */
    constructor (questions: seq<Question>, defaultBank: seq<Question>)
      ensures Valid()
      ensures bank == (if questions != [] then questions else defaultBank)
      ensures selected == [] && deck == bank && index == 0
      ensures answers == map[] && feedback == map[] && !revealed
    {
      var b := if questions != [] then questions else defaultBank;
      var s := CollectSubjects(b);
      bank := b;
      subjects := s;
      selected := [];
      deck := b;
      index := 0;
      answers := map[];
      feedback := map[];
      revealed := false;
    }

    /** The effect on `subjects`: choose the selection again (nothing to do without subjects). */
    method SyncSelection()
      requires Valid()
      modifies this`selected
      ensures Valid()
      ensures selected == (if subjects == [] then old(selected) else Reselect(old(selected), Ids(subjects)))
    {
      if subjects != [] {
        selected := Reselect(selected, Ids(subjects));
      }
    }

    /** The effect on `rawBank` and `selectedSubjects`: an empty bank only empties the
        deck; otherwise the pool is shuffled into a new deck and the session starts over. */
    method RebuildDeck()
      requires Valid()
      modifies this`deck, this`index, this`answers, this`feedback, this`revealed
      ensures Valid()
      ensures bank == [] ==> deck == [] && unchanged(this`index, this`answers, this`feedback, this`revealed)
      ensures bank != [] ==>
        && multiset(deck) == multiset(DeckPool(bank, selected))
        && index == 0 && answers == map[] && feedback == map[] && !revealed
    {
      if bank == [] {
        NothingWithinEmpty(deck);
        deck := [];
      } else {
        var d := NewDeck(bank, selected);
        Deal(d);
      }
    }

    /** Starts over on a new deck drawn from the bank: first card, no answers, no
        feedback, answer hidden. */
    method Deal(d: seq<Question>)
      requires Valid() && multiset(d) <= multiset(bank)
      modifies this`deck, this`index, this`answers, this`feedback, this`revealed
      ensures Valid()
      ensures deck == d && index == 0 && answers == map[] && feedback == map[] && !revealed
    {
      deck := d;
      index := 0;
      answers := map[];
      feedback := map[];
      revealed := false;
    }

    /** First mount: the selection effect, then the deck effect on the new selection. */
    method Mount()
      requires Valid()
      modifies this`selected, this`deck, this`index, this`answers, this`feedback, this`revealed
      ensures Valid()
      ensures selected == (if subjects == [] then old(selected) else Reselect(old(selected), Ids(subjects)))
      ensures bank != [] ==> multiset(deck) == multiset(DeckPool(bank, selected)) && index == 0
    {
      SyncSelection();
      RebuildDeck();
    }

    /** `toggleSubject`, followed by the deck effect it triggers. */
    method ToggleSubject(id: string)
      requires Valid()
      modifies this`selected, this`deck, this`index, this`answers, this`feedback, this`revealed
      ensures Valid()
      ensures id in selected <==> id !in old(selected)
      ensures forall x :: x != id ==> (x in selected <==> x in old(selected))
      ensures Distinct(selected)
      ensures bank != [] ==> multiset(deck) == multiset(DeckPool(bank, selected)) && index == 0
    {
      ToggleIdFacts(selected, id);
      selected := ToggleId(selected, id);
      RebuildDeck();
    }

    /** `handleNext`: moves on only while a later card exists. */
    method Next()
      requires Valid()
      modifies this`index, this`revealed
      ensures Valid()
      ensures old(index) < |deck| - 1 ==> index == old(index) + 1 && !revealed
      ensures old(index) >= |deck| - 1 ==> index == old(index) && revealed == old(revealed)
    {
      if index < |deck| - 1 {
        index := index + 1;
        revealed := false;
      }
    }

    /** `handlePrev`: moves back only from a card after the first. */
    method Prev()
      requires Valid()
      modifies this`index, this`revealed
      ensures Valid()
      ensures old(index) > 0 ==> index == old(index) - 1 && !revealed
      ensures old(index) == 0 ==> index == 0 && revealed == old(revealed)
    {
      if index > 0 {
        index := index - 1;
        revealed := false;
      }
    }

    /** The Reveal button. */
    method ToggleReveal()
      requires Valid()
      modifies this`revealed
      ensures Valid()
      ensures revealed == !old(revealed)
    {
      revealed := !revealed;
    }

    /** `updateFeedback`: no status deletes the question's entry, a status sets it. */
    method UpdateFeedback(id: string, status: Option<Status>)
      requires Valid()
      modifies this`feedback
      ensures Valid()
      ensures feedback == if status.None? then old(feedback) - {id} else old(feedback)[id := status.value]
    {
      if status.None? {
        feedback := feedback - {id};
      } else {
        feedback := feedback[id := status.value];
      }
    }

    /** `checkAnswer`: grade the answer and record the outcome for that question. */
    method CheckAnswer(value: Value, q: Question)
      requires Valid()
      modifies this`feedback
      ensures Valid()
      ensures feedback == Applied(old(feedback), q.id, Grade(value, q.kind, q.answer))
    {
      var g := Evaluate(value, q.kind, q.answer);
      match g
      case Mark(s) =>
        UpdateFeedback(q.id, Some(s));
      case Clear =>
        UpdateFeedback(q.id, None);
      case Untouched =>
    }

    /** Picking an option of a multiple-choice card. */
    method ChooseOption(choice: string)
      requires Valid() && index < |deck|
      modifies this`answers, this`feedback
      ensures Valid()
      ensures answers == old(answers)[deck[index].id := Str(choice)]
      ensures feedback == Applied(old(feedback), deck[index].id, Grade(Str(choice), deck[index].kind, deck[index].answer))
    {
      var q := deck[index];
      DistinctPicksSet(answers, q.id, Str(choice));
      answers := answers[q.id := Str(choice)];
      CheckAnswer(Str(choice), q);
    }

    /** Ticking or unticking a box of a multi-select card. */
    method TickChoice(choice: string)
      requires Valid() && index < |deck|
      modifies this`answers, this`feedback
      ensures Valid()
      ensures var prev := if deck[index].id in old(answers) then old(answers)[deck[index].id] else Undefined;
        && answers == old(answers)[deck[index].id := Strs(ToggleChoice(prev, choice))]
        && feedback == Applied(old(feedback), deck[index].id, Grade(Strs(ToggleChoice(prev, choice)), deck[index].kind, deck[index].answer))
    {
      var q := deck[index];
      var prev := if q.id in answers then answers[q.id] else Undefined;
      var next := ToggleChoice(prev, choice);
      ToggleChoiceDistinct(prev, choice);
      DistinctPicksSet(answers, q.id, Strs(next));
      answers := answers[q.id := Strs(next)];
      CheckAnswer(Strs(next), q);
    }

    /** Typing into the text box of a short-answer card. */
    method TypeAnswer(text: string)
      requires Valid() && index < |deck|
      modifies this`answers, this`feedback
      ensures Valid()
      ensures answers == old(answers)[deck[index].id := Str(text)]
      ensures feedback == Applied(old(feedback), deck[index].id, Grade(Str(text), deck[index].kind, deck[index].answer))
    {
      var q := deck[index];
      DistinctPicksSet(answers, q.id, Str(text));
      answers := answers[q.id := Str(text)];
      CheckAnswer(Str(text), q);
    }

    /** Picking True or False on a true/false card. */
    method ChooseTruth(b: bool)
      requires Valid() && index < |deck|
      modifies this`answers, this`feedback
      ensures Valid()
      ensures answers == old(answers)[deck[index].id := Flag(b)]
      ensures feedback == Applied(old(feedback), deck[index].id, Grade(Flag(b), deck[index].kind, deck[index].answer))
    {
      var q := deck[index];
      DistinctPicksSet(answers, q.id, Flag(b));
      answers := answers[q.id := Flag(b)];
      CheckAnswer(Flag(b), q);
    }
  }
}
