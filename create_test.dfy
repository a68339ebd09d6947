/**
 * The test builder of the teacher's create-test page: the question being
 * drafted, the list of questions added so far, the test's own settings and the
 * check made before the test is saved.
 */
module CreateTest {
  import opened Wrappers
  import Text
  import Lists
  import Decimal

  datatype QuestionType = MultipleChoiceType | TrueFalseType | ShortAnswerType

  /**
   * What the source keeps in `correctAnswer`: the index of the chosen option,
   * the true/false choice, or the sample text of a short answer.  Nothing ties
   * the kind of answer to the question type: switching the type keeps it.
   */
  datatype Answer = Index(index: int) | Flag(flag: bool) | Sample(sample: string)

  /** A JavaScript falsy `correctAnswer`: `undefined`, `0`, `false` or `""`. */
  predicate IsFalsy(a: Option<Answer>) {
    match a
    case None => true
    case Some(Index(i)) => i == 0
    case Some(Flag(b)) => !b
    case Some(Sample(s)) => s == ""
  }

  /** A stored question; only a multiple-choice question carries options. */
  datatype Question =
    | MultipleChoice(id: string, text: string, options: seq<string>, correctAnswer: Answer, points: int, imageUrl: string)
    | TrueFalse(id: string, text: string, correctAnswer: Answer, points: int, imageUrl: string)
    | ShortAnswer(id: string, text: string, correctAnswer: Answer, points: int, imageUrl: string)

  function QuestionId(q: Question): string {
    q.id
  }

  /** The question being edited (`currentQuestion`); `correctAnswer` may be undefined. */
  datatype Draft = Draft(
    questionType: QuestionType,
    text: string,
    options: seq<string>,
    correctAnswer: Option<Answer>,
    points: int,
    imageUrl: string)

  /** The draft the editor starts from and returns to after each added question. */
  const BlankDraft := Draft(MultipleChoiceType, "", ["", "", "", ""], Some(Index(0)), 1, "")

  /** The fewest options a multiple-choice draft may have. */
  const MinOptions := 3

  datatype DraftError = MissingText | IncompleteChoices

  /**
   * The checks `addQuestion` makes, in order: a question text that is blank
   * after trimming, then, for multiple choice only, fewer than three options
   * or no chosen answer.  The chosen index is not compared with the number of
   * options.
   */
  function CheckDraft(d: Draft): (r: Option<DraftError>)
    ensures r == Some(MissingText) <==> Text.IsBlank(d.text)
    ensures r == Some(IncompleteChoices) <==>
      !Text.IsBlank(d.text) && d.questionType == MultipleChoiceType &&
      (|d.options| < MinOptions || d.correctAnswer.None?)
  {
    if Text.IsBlank(d.text) then Some(MissingText)
    else if d.questionType == MultipleChoiceType && (|d.options| < MinOptions || d.correctAnswer.None?) then
      Some(IncompleteChoices)
    else None
  }

  /**
   * The question `addQuestion` stores for an accepted draft: the text as typed
   * (not trimmed), the options only for multiple choice, a falsy answer
   * replaced by index 0 and zero points replaced by 1.
   */
  function ToQuestion(d: Draft, id: string): (q: Question)
    ensures q.id == id && q.text == d.text && q.imageUrl == d.imageUrl
    ensures q.MultipleChoice? <==> d.questionType == MultipleChoiceType
    ensures q.TrueFalse? <==> d.questionType == TrueFalseType
    ensures q.MultipleChoice? ==> q.options == d.options
    ensures q.correctAnswer == if IsFalsy(d.correctAnswer) then Index(0) else d.correctAnswer.value
    ensures q.points != 0 && (d.points != 0 ==> q.points == d.points)
  {
    var answer := if IsFalsy(d.correctAnswer) then Index(0) else d.correctAnswer.value;
    var points := if d.points == 0 then 1 else d.points;
    match d.questionType
    case MultipleChoiceType => MultipleChoice(id, d.text, d.options, answer, points, d.imageUrl)
    case TrueFalseType => TrueFalse(id, d.text, answer, points, d.imageUrl)
    case ShortAnswerType => ShortAnswer(id, d.text, answer, points, d.imageUrl)
  }

  /** A true/false question whose answer is `false` is stored with the answer 0. */
  lemma FalseStoredAsZero(d: Draft, id: string)
    requires d.questionType == TrueFalseType && d.correctAnswer == Some(Flag(false))
    ensures ToQuestion(d, id).TrueFalse? && ToQuestion(d, id).correctAnswer == Index(0)
  {
  }

  /** Any chosen index passes the check, even one past the last option. */
  lemma IndexNotBoundsChecked(d: Draft, k: int)
    requires !Text.IsBlank(d.text) && d.questionType == MultipleChoiceType
    requires |d.options| >= MinOptions && d.correctAnswer == Some(Index(k))
    ensures CheckDraft(d) == None
  {
  }

  /**
   * `testData.questions.reduce((sum, q) => sum + q.points, 0)`, summed from the
   * left: the "Total Points" figure of the test summary.  With no negative
   * points the total is at least every question's points, and when every
   * question is worth a point or more it is at least the number of questions.
   */
  function TotalPoints(qs: seq<Question>): (r: int)
    ensures (forall i :: 0 <= i < |qs| ==> qs[i].points >= 0) ==>
      r >= 0 && forall i :: 0 <= i < |qs| ==> qs[i].points <= r
    ensures (forall i :: 0 <= i < |qs| ==> qs[i].points >= 1) ==> r >= |qs|
  {
    if qs == [] then 0 else TotalPoints(qs[..|qs| - 1]) + qs[|qs| - 1].points
  }

  /** The total of a concatenation is the sum of the totals. */
  lemma {:induction false} TotalPointsAppend(a: seq<Question>, b: seq<Question>)
    ensures TotalPoints(a + b) == TotalPoints(a) + TotalPoints(b)
    decreases |b|
  {
    if b == [] {
      assert a + b == a;
    } else {
      var b' := b[..|b| - 1];
      assert (a + b)[..|a + b| - 1] == a + b';
      TotalPointsAppend(a, b');
    }
  }

  /** Removing the questions with one id lowers the total by exactly their points. */
  lemma {:induction false} TotalPointsSplit(qs: seq<Question>, id: string)
    ensures TotalPoints(qs) ==
      TotalPoints(Lists.WithoutKey(qs, QuestionId, id)) + TotalPoints(Lists.WithKey(qs, QuestionId, id))
  {
    if qs != [] {
      var init, last := qs[..|qs| - 1], qs[|qs| - 1];
      assert qs == init + [last];
      TotalPointsSplit(init, id);
      Lists.KeyFiltersAppend(init, [last], QuestionId, id);
      var kept, dropped := Lists.WithoutKey([last], QuestionId, id), Lists.WithKey([last], QuestionId, id);
      assert TotalPoints(kept) + TotalPoints(dropped) == last.points by {
        assert [last][1..] == [];
        if last.id == id {
          assert kept == [] && dropped == [last];
        } else {
          assert kept == [last] && dropped == [];
        }
      }
      TotalPointsAppend(Lists.WithoutKey(init, QuestionId, id), kept);
      TotalPointsAppend(Lists.WithKey(init, QuestionId, id), dropped);
    }
  }

  datatype SaveStatus = DraftStatus | Published

  datatype SaveError = MissingTitle | NoQuestions

  /**
   * `saveTest`'s checks, in order: a title blank after trimming, then an empty
   * question list.  The status does not enter the checks.
   */
  function CheckSave(title: string, questions: seq<Question>): (r: Option<SaveError>)
    ensures r == Some(MissingTitle) <==> Text.IsBlank(title)
    ensures r == Some(NoQuestions) <==> !Text.IsBlank(title) && questions == []
    ensures r == None <==> !Text.IsBlank(title) && questions != []
  {
    if Text.IsBlank(title) then Some(MissingTitle)
    else if questions == [] then Some(NoQuestions)
    else None
  }

  /** Appending a question worth points keeps every question worth points. */
  lemma AppendKeepsPoints(qs: seq<Question>, q: Question)
    requires forall i :: 0 <= i < |qs| ==> qs[i].points != 0
    requires q.points != 0
    ensures forall i :: 0 <= i < |qs + [q]| ==> (qs + [q])[i].points != 0
  {
    assert forall i :: 0 <= i < |qs| ==> (qs + [q])[i] == qs[i];
  }

  /** The page's state: the test's settings, its questions and the draft question. */
  class TestBuilder {
    var title: string
    var description: string
    var subject: string
    var duration: int
    var instructions: string
    var questions: seq<Question>
    var current: Draft

    /**
     * What every handler keeps: the draft never drops below three options, and
     * the duration and points inputs never hold the falsy 0 (their handlers
     * fall back on 30 and 1).
     */
    ghost predicate Valid()
      reads this
    {
      |current.options| >= MinOptions && current.points != 0 && duration != 0 &&
      forall i :: 0 <= i < |questions| ==> questions[i].points != 0
    }

    constructor ()
      ensures Valid()
      ensures title == "" && description == "" && subject == "" && instructions == ""
      ensures duration == 30 && questions == [] && current == BlankDraft
    {
      title, description, subject, instructions := "", "", "", "";
      duration := 30;
      questions := [];
      current := BlankDraft;
    }

    /** The settings and the question list, which the draft handlers leave alone. */
    ghost function TestData(): (string, string, string, int, string, seq<Question>)
      reads this
    {
      (title, description, subject, duration, instructions, questions)
    }

    method SetTitle(value: string)
      requires Valid()
      modifies this
      ensures Valid() && title == value && current == old(current)
      ensures description == old(description) && subject == old(subject) && duration == old(duration)
      ensures instructions == old(instructions) && questions == old(questions)
    {
      title := value;
    }

    method SetDescription(value: string)
      requires Valid()
      modifies this
      ensures Valid() && description == value && current == old(current)
      ensures title == old(title) && subject == old(subject) && duration == old(duration)
      ensures instructions == old(instructions) && questions == old(questions)
    {
      description := value;
    }

    method SetSubject(value: string)
      requires Valid()
      modifies this
      ensures Valid() && subject == value && current == old(current)
      ensures title == old(title) && description == old(description) && duration == old(duration)
      ensures instructions == old(instructions) && questions == old(questions)
    {
      subject := value;
    }

    method SetInstructions(value: string)
      requires Valid()
      modifies this
      ensures Valid() && instructions == value && current == old(current)
      ensures title == old(title) && description == old(description) && subject == old(subject)
      ensures duration == old(duration) && questions == old(questions)
    {
      instructions := value;
    }

    /** The duration input: `Number.parseInt(value) || 30`. */
    method SetDuration(value: string)
      requires Valid()
      modifies this
      ensures Valid() && duration == Decimal.ParseIntOr(value, 30) && current == old(current)
      ensures title == old(title) && description == old(description) && subject == old(subject)
      ensures instructions == old(instructions) && questions == old(questions)
    {
      duration := Decimal.ParseIntOr(value, 30);
    }

    method SetQuestionType(t: QuestionType)
      requires Valid()
      modifies this
      ensures Valid() && current == old(current).(questionType := t) && TestData() == old(TestData())
    {
      current := current.(questionType := t);
    }

    method SetQuestionText(value: string)
      requires Valid()
      modifies this
      ensures Valid() && current == old(current).(text := value) && TestData() == old(TestData())
    {
      current := current.(text := value);
    }

    /** The points input: `Number.parseInt(value) || 1`. */
    method SetPoints(value: string)
      requires Valid()
      modifies this
      ensures Valid() && TestData() == old(TestData())
      ensures current == old(current).(points := Decimal.ParseIntOr(value, 1))
    {
      current := current.(points := Decimal.ParseIntOr(value, 1));
    }

    /** The radio button beside option `index`. */
    method ChooseOption(index: int)
      requires Valid()
      modifies this
      ensures Valid() && current == old(current).(correctAnswer := Some(Index(index)))
      ensures TestData() == old(TestData())
    {
      current := current.(correctAnswer := Some(Index(index)));
    }

    /** The true/false selector stores `value === "true"`. */
    method ChooseTrueFalse(value: string)
      requires Valid()
      modifies this
      ensures Valid() && current == old(current).(correctAnswer := Some(Flag(value == "true")))
      ensures TestData() == old(TestData())
    {
      current := current.(correctAnswer := Some(Flag(value == "true")));
    }

    method SetSampleAnswer(value: string)
      requires Valid()
      modifies this
      ensures Valid() && current == old(current).(correctAnswer := Some(Sample(value)))
      ensures TestData() == old(TestData())
    {
      current := current.(correctAnswer := Some(Sample(value)));
    }

    /** `updateQuestionOption`: the text of one existing option is replaced. */
    method UpdateQuestionOption(index: int, value: string)
      requires Valid()
      requires 0 <= index < |current.options|
      modifies this
      ensures Valid() && TestData() == old(TestData())
      ensures current == old(current).(options := old(current.options)[index := value])
    {
      current := current.(options := current.options[index := value]);
    }

    /** The "Add Option" button appends an empty option. */
    method AddOption()
      requires Valid()
      modifies this
      ensures Valid() && TestData() == old(TestData())
      ensures current == old(current).(options := old(current.options) + [""])
    {
      current := current.(options := current.options + [""]);
    }

    /**
     * `deleteQuestionOption`: with more than three options, the option at
     * `index` is spliced out and an answer equal to `index` becomes undefined
     * (a later answer index is not shifted down).  Otherwise nothing changes
     * and `removed` is false (the "Minimum 3 options required" error).
     */
    method DeleteQuestionOption(index: int) returns (removed: bool)
      requires Valid()
      modifies this
      ensures Valid() && TestData() == old(TestData())
      ensures removed == (|old(current.options)| > MinOptions)
      ensures removed ==> current == old(current).(
        options := Lists.RemoveAt(old(current.options), index),
        correctAnswer := if old(current.correctAnswer) == Some(Index(index)) then None else old(current.correctAnswer))
      ensures !removed ==> current == old(current)
    {
      var options := current.options;
      removed := |options| > MinOptions;
      if removed {
        var wasAnswer := current.correctAnswer == Some(Index(index));
        current := current.(options := Lists.RemoveAt(options, index));
        if wasAnswer {
          current := current.(correctAnswer := None);
        }
      }
    }

    /**
     * `addQuestion`: a draft that fails `CheckDraft` changes nothing; otherwise
     * its question, under the fresh `id`, is appended after the existing ones
     * and the draft is reset.
     */
    method AddQuestion(id: string) returns (error: Option<DraftError>)
      requires Valid()
      modifies this
      ensures Valid()
      ensures error == CheckDraft(old(current))
      ensures error.Some? ==> questions == old(questions) && current == old(current)
      ensures error.None? ==> questions == old(questions) + [ToQuestion(old(current), id)]
      ensures error.None? ==> current == BlankDraft
      ensures title == old(title) && description == old(description) && subject == old(subject)
      ensures duration == old(duration) && instructions == old(instructions)
    {
      error := CheckDraft(current);
      if error.None? {
        var q := ToQuestion(current, id);
        AppendKeepsPoints(questions, q);
        questions := questions + [q];
        current := BlankDraft;
      }
    }

    /** `removeQuestion`: every question with this id is filtered out. */
    method RemoveQuestion(id: string)
      requires Valid()
      modifies this
      ensures Valid() && current == old(current)
      ensures questions == Lists.WithoutKey(old(questions), QuestionId, id)
      ensures title == old(title) && description == old(description) && subject == old(subject)
      ensures duration == old(duration) && instructions == old(instructions)
    {
      var kept := Lists.WithoutKey(questions, QuestionId, id);
      Lists.WithoutKeyProperties(questions, QuestionId, id);
      assert forall i :: 0 <= i < |kept| ==> kept[i] in questions;
      questions := kept;
    }

    /** `saveTest(status)`: reports the first failed check and changes nothing. */
    method SaveTest(status: SaveStatus) returns (error: Option<SaveError>)
      ensures error == CheckSave(title, questions)
    {
      error := CheckSave(title, questions);
    }
  }

  /**
   * A successful add leaves the earlier questions in place and puts the new
   * one last; a failed add leaves the list as it was.
   */
  lemma AddedLast(before: seq<Question>, d: Draft, id: string)
    requires CheckDraft(d) == None
    ensures var after := before + [ToQuestion(d, id)];
      |after| == |before| + 1 && after[..|before|] == before && after[|before|].id == id &&
      TotalPoints(after) == TotalPoints(before) + ToQuestion(d, id).points
  {
    var after := before + [ToQuestion(d, id)];
    assert after[..|after| - 1] == before;
  }

  /**
   * Deleting an option in front of the chosen one leaves the answer index
   * unshifted: it then names the option that followed the chosen one, or no
   * option at all when the chosen one was last.
   */
  lemma DeleteBeforeAnswer(options: seq<string>, i: int, k: int)
    requires 0 <= i < k < |options|
    ensures k == |options| - 1 ==> k >= |Lists.RemoveAt(options, i)|
    ensures k < |options| - 1 ==> Lists.RemoveAt(options, i)[k] == options[k + 1]
  {
  }
}
