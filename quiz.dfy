/** The quiz session of the `App` component (src/App.tsx:24-72, 93-98,
    136-151, 186-206, 259-280): seven fields, the handlers that update them,
    and which handler the current view lets the learner trigger. */
module Quiz {
  import opened Maybe
  import opened Questions
  import opened Filters
  import opened Results

  /** A snapshot of the seven component fields. */
  datatype State = State(
    currentQuestionIndex: nat,
    selectedAnswer: Option<string>,
    isSubmitted: bool,
    score: nat,
    showResults: bool,
    filterCategory: Choice<GrammarCategory>,
    filterDifficulty: Choice<Difficulty>)

  /** The fields when the page is first shown. */
  const Initial: State := State(0, None, false, 0, false, All, All)

  /** The working set the current filters select. */
  function WorkingSet(s: State): seq<Question> {
    FilterQuestions(QUESTIONS, s.filterCategory, s.filterDifficulty)
  }

  /** The question at the current index, or none when the index is past the
      end of the working set (an out-of-range read is `undefined`). A
      current question is a table entry that passes both filters. */
  function CurrentQuestion(s: State): (r: Option<Question>)
    ensures r.Some? <==> s.currentQuestionIndex < |WorkingSet(s)|
    ensures r.Some? ==> r.value in QUESTIONS && Matches(r.value, s.filterCategory, s.filterDifficulty)
  {
    var ws := WorkingSet(s);
    if s.currentQuestionIndex < |ws| then
      FilterMembership(QUESTIONS, ws[s.currentQuestionIndex], s.filterCategory, s.filterDifficulty);
      Some(ws[s.currentQuestionIndex])
    else None
  }

  /** Strict equality of the selection with the current question's answer.
      A missing selection or a missing question is never correct, and a
      correct selection is always one of the current question's options. */
  predicate IsCorrect(s: State): (b: bool)
    ensures s.selectedAnswer.None? || CurrentQuestion(s).None? ==> !b
    ensures b ==> s.selectedAnswer.value in CurrentQuestion(s).value.options
  {
    TableOptionsWellFormed();
    s.selectedAnswer.Some? && CurrentQuestion(s).Some?
    && s.selectedAnswer.value == CurrentQuestion(s).value.correctAnswer
  }

  /** The three screens. */
  datatype View = ResultsView | EmptyView | QuestionView

  /** The screen shown: the results screen is tested first, so it is shown
      whenever results are open, even for an empty working set; the question
      screen is shown only with results closed and a non-empty working set. */
  function ViewOf(s: State): (v: View)
    ensures s.showResults ==> v == ResultsView
    ensures v == EmptyView <==> !s.showResults && WorkingSet(s) == []
    ensures v == QuestionView <==> !s.showResults && WorkingSet(s) != []
  {
    if s.showResults then ResultsView
    else if |WorkingSet(s)| == 0 then EmptyView
    else QuestionView
  }

  /** What the learner can do: pick an option, press submit, next or
      restart, change either filter, or clear both filters. */
  datatype Intent =
    | SelectAnswer(option: string)
    | Submit
    | Next
    | Reset
    | SetCategory(category: Choice<GrammarCategory>)
    | SetDifficulty(difficulty: Choice<Difficulty>)
    | ClearFilters

  /** The fields after a handler runs: each case is that handler's body,
      with no guard beyond the one the handler itself tests. Only submit
      raises the score, by one, and only restart lowers it, to 0; only the
      filter handlers touch the filters; only next opens the results and
      only restart closes them. */
  function Step(s: State, intent: Intent): (r: State)
    ensures r.score == s.score || (intent == Submit && r.score == s.score + 1) || (intent == Reset && r.score == 0)
    ensures (r.filterCategory, r.filterDifficulty) == (s.filterCategory, s.filterDifficulty)
            || intent.SetCategory? || intent.SetDifficulty? || intent == ClearFilters
    ensures r.showResults != s.showResults ==> (intent == Next && r.showResults) || (intent == Reset && !r.showResults)
  {
    match intent
    case SelectAnswer(option) =>
      if s.isSubmitted then s else s.(selectedAnswer := Some(option))
    case Submit =>
      if !Truthy(s.selectedAnswer) then s
      else s.(isSubmitted := true, score := if IsCorrect(s) then s.score + 1 else s.score)
    case Next =>
      if s.currentQuestionIndex < |WorkingSet(s)| - 1 then
        s.(currentQuestionIndex := s.currentQuestionIndex + 1, selectedAnswer := None, isSubmitted := false)
      else
        s.(showResults := true)
    case Reset =>
      s.(currentQuestionIndex := 0, selectedAnswer := None, isSubmitted := false, score := 0, showResults := false)
    case SetCategory(category) =>
      s.(filterCategory := category, currentQuestionIndex := 0, isSubmitted := false, selectedAnswer := None)
    case SetDifficulty(difficulty) =>
      s.(filterDifficulty := difficulty, currentQuestionIndex := 0, isSubmitted := false, selectedAnswer := None)
    case ClearFilters =>
      s.(filterCategory := All, filterDifficulty := All)
  }

  /** Whether the screen for `s` shows the control that triggers `intent`:
      option buttons (enabled only before submitting), the submit button
      (before submitting, enabled only with a truthy selection), the next
      button (after submitting) and both filters on the question screen,
      where a filter fires only when a value other than the current one is
      chosen; restart on the results screen; clear-filters on the empty
      screen. So the results screen offers nothing but restart, the empty
      screen nothing but clear-filters, and submit and next are never
      offered together. */
  predicate Offered(s: State, intent: Intent): (b: bool)
    ensures b && ViewOf(s) == ResultsView ==> intent == Reset
    ensures b && ViewOf(s) == EmptyView ==> intent == ClearFilters
    ensures b && intent == Submit ==> !s.isSubmitted
    ensures b && intent == Next ==> s.isSubmitted
  {
    match intent
    case SelectAnswer(option) =>
      ViewOf(s) == QuestionView && !s.isSubmitted
      && CurrentQuestion(s).Some? && option in CurrentQuestion(s).value.options
    case Submit => ViewOf(s) == QuestionView && !s.isSubmitted && Truthy(s.selectedAnswer)
    case Next => ViewOf(s) == QuestionView && s.isSubmitted
    case Reset => ViewOf(s) == ResultsView
    case SetCategory(category) => ViewOf(s) == QuestionView && category != s.filterCategory
    case SetDifficulty(difficulty) => ViewOf(s) == QuestionView && difficulty != s.filterDifficulty
    case ClearFilters => ViewOf(s) == EmptyView
  }

  /** The score the session had when the filters last changed (0 after a
      restart): a filter change keeps the score, so points earned on one
      working set stay when the learner moves to another. */
  function Carried(s: State, carried: nat, intent: Intent): nat {
    match intent
    case SetCategory(_) => s.score
    case SetDifficulty(_) => s.score
    case Reset => 0
    case _ => carried
  }

  /** What holds of every state the learner can reach, given the score
      carried over from the last filter change. It bounds the score by the
      carried score plus the working set's length, and keeps the index
      inside the working set whenever the question screen is shown. */
  predicate Invariant(s: State, carried: nat): (b: bool)
    ensures b ==> s.score <= carried + |WorkingSet(s)|
    ensures b && ViewOf(s) == QuestionView ==> s.currentQuestionIndex < |WorkingSet(s)|
  {
    && (s.currentQuestionIndex == 0 || s.currentQuestionIndex < |WorkingSet(s)|)
    && (s.isSubmitted ==> s.currentQuestionIndex < |WorkingSet(s)|)
    && (s.showResults ==>
          |WorkingSet(s)| > 0 && s.isSubmitted && s.currentQuestionIndex == |WorkingSet(s)| - 1)
    && (s.isSubmitted ==> Truthy(s.selectedAnswer))
    && s.score <= carried + s.currentQuestionIndex + (if s.isSubmitted then 1 else 0)
  }

  /** Every control the screen offers keeps the invariant. */
  lemma StepKeepsInvariant(s: State, carried: nat, intent: Intent)
    requires Invariant(s, carried) && Offered(s, intent)
    ensures Invariant(Step(s, intent), Carried(s, carried, intent))
  {
    match intent
    case Next =>
      var n := |WorkingSet(s)|;
      if s.currentQuestionIndex >= n - 1 {
        assert s.currentQuestionIndex == n - 1;
      }
    case ClearFilters =>
      assert s.currentQuestionIndex == 0;
    case _ =>
  }

  /** On the question screen the index is inside the working set, so there
      is a current question and the progress counter reads between 1 and
      the working set's length. */
  lemma QuestionViewInRange(s: State, carried: nat)
    requires Invariant(s, carried) && ViewOf(s) == QuestionView
    ensures s.currentQuestionIndex < |WorkingSet(s)|
    ensures CurrentQuestion(s) == Some(WorkingSet(s)[s.currentQuestionIndex])
    ensures 1 <= s.currentQuestionIndex + 1 <= |WorkingSet(s)|
  {
  }

  /** Selecting while the answer is not yet submitted replaces the selection
      and nothing else; once submitted it changes nothing. The last of two
      selections is the one that stays. */
  lemma SelectLaw(s: State, option: string, option': string)
    ensures !s.isSubmitted ==> Step(s, SelectAnswer(option)) == s.(selectedAnswer := Some(option))
    ensures s.isSubmitted ==> Step(s, SelectAnswer(option)) == s
    ensures Step(Step(s, SelectAnswer(option)), SelectAnswer(option')) == Step(s, SelectAnswer(option'))
  {
  }

  /** Submitting with no selection, or the empty string, changes nothing;
      otherwise it marks the answer submitted and adds one point exactly
      when the selection is the correct answer. */
  lemma SubmitLaw(s: State)
    ensures !Truthy(s.selectedAnswer) ==> Step(s, Submit) == s
    ensures Truthy(s.selectedAnswer) ==>
              Step(s, Submit) == s.(isSubmitted := true, score := Step(s, Submit).score)
    ensures Truthy(s.selectedAnswer) && IsCorrect(s) ==> Step(s, Submit).score == s.score + 1
    ensures Truthy(s.selectedAnswer) && !IsCorrect(s) ==> Step(s, Submit).score == s.score
  {
  }

  /** The submit handler tests only the selection, so a second call on a
      correct answer scores again; the screen prevents that by hiding the
      submit button once the answer is submitted. */
  lemma SubmitScoresOncePerQuestion(s: State)
    ensures Truthy(s.selectedAnswer) && IsCorrect(s) ==> Step(Step(s, Submit), Submit).score == s.score + 2
    ensures !Offered(Step(s, Submit), Submit) || !Truthy(s.selectedAnswer)
  {
  }

  /** Next moves to the following question, clearing the selection and the
      submitted mark, while one is left; on the last question it opens the
      results and changes nothing else. It never touches the score. */
  lemma NextLaw(s: State)
    ensures s.currentQuestionIndex < |WorkingSet(s)| - 1 ==>
              Step(s, Next) == s.(currentQuestionIndex := s.currentQuestionIndex + 1,
                                  selectedAnswer := None, isSubmitted := false)
    ensures s.currentQuestionIndex >= |WorkingSet(s)| - 1 ==> Step(s, Next) == s.(showResults := true)
    ensures Step(s, Next).score == s.score
    ensures !s.isSubmitted ==> !Offered(s, Next)
  {
  }

  /** Restart clears the progress and the score and closes the results, and
      keeps both filters; with an empty working set the learner lands on the
      empty screen again. */
  lemma ResetLaw(s: State)
    ensures Step(s, Reset) == Initial.(filterCategory := s.filterCategory, filterDifficulty := s.filterDifficulty)
    ensures WorkingSet(Step(s, Reset)) == WorkingSet(s)
    ensures |WorkingSet(s)| == 0 ==> ViewOf(Step(s, Reset)) == EmptyView
  {
  }

  /** A filter change restarts the working set at its first question with
      no selection, but keeps the score and the results flag. */
  lemma FilterChangeLaw(s: State, category: Choice<GrammarCategory>, difficulty: Choice<Difficulty>)
    ensures Step(s, SetCategory(category))
         == s.(filterCategory := category, currentQuestionIndex := 0, selectedAnswer := None, isSubmitted := false)
    ensures Step(s, SetDifficulty(difficulty))
         == s.(filterDifficulty := difficulty, currentQuestionIndex := 0, selectedAnswer := None, isSubmitted := false)
    ensures Step(s, SetCategory(category)).score == s.score
    ensures Step(s, SetDifficulty(difficulty)).score == s.score
  {
  }

  /** Clearing the filters from the empty screen brings back the whole table
      on the question screen, at its first question. */
  lemma ClearFiltersLaw(s: State, carried: nat)
    requires Invariant(s, carried) && Offered(s, ClearFilters)
    ensures WorkingSet(Step(s, ClearFilters)) == QUESTIONS
    ensures ViewOf(Step(s, ClearFilters)) == QuestionView
    ensures CurrentQuestion(Step(s, ClearFilters)) == Some(QUESTIONS[0])
  {
    TableUnfiltered();
  }

  /** The results screen has a non-empty working set, so the percentage is
      defined, and the score is at most the carried score plus the working
      set's length: with nothing carried the percentage is at most 100. */
  lemma ResultsViewBound(s: State, carried: nat)
    requires Invariant(s, carried) && ViewOf(s) == ResultsView
    ensures |WorkingSet(s)| > 0
    ensures s.score <= carried + |WorkingSet(s)|
    ensures carried == 0 ==> Percentage(s.score, |WorkingSet(s)|) <= 100
  {
    if carried == 0 {
      PercentageBounds(s.score, |WorkingSet(s)|);
    }
  }

  /** The state after a sequence of handler calls. */
  function Run(s: State, intents: seq<Intent>): State
    decreases |intents|
  {
    if intents == [] then s else Run(Step(s, intents[0]), intents[1..])
  }

  /** Each handler of the sequence is offered by the screen it is called on. */
  predicate AllOffered(s: State, intents: seq<Intent>)
    decreases |intents|
  {
    intents == [] || (Offered(s, intents[0]) && AllOffered(Step(s, intents[0]), intents[1..]))
  }

  /** The carried score after a sequence of handler calls. */
  function CarriedAfter(s: State, carried: nat, intents: seq<Intent>): nat
    decreases |intents|
  {
    if intents == [] then carried
    else CarriedAfter(Step(s, intents[0]), Carried(s, carried, intents[0]), intents[1..])
  }

  /** How many calls of the sequence submit a truthy, correct selection. */
  function CorrectSubmissions(s: State, intents: seq<Intent>): nat
    decreases |intents|
  {
    if intents == [] then 0
    else
      (if intents[0] == Submit && Truthy(s.selectedAnswer) && IsCorrect(s) then 1 else 0)
      + CorrectSubmissions(Step(s, intents[0]), intents[1..])
  }

  /** Any sequence of offered handler calls keeps the invariant. */
  lemma {:induction false} RunKeepsInvariant(s: State, carried: nat, intents: seq<Intent>)
    requires Invariant(s, carried) && AllOffered(s, intents)
    ensures Invariant(Run(s, intents), CarriedAfter(s, carried, intents))
    decreases |intents|
  {
    if intents != [] {
      StepKeepsInvariant(s, carried, intents[0]);
      RunKeepsInvariant(Step(s, intents[0]), Carried(s, carried, intents[0]), intents[1..]);
    }
  }

  /** Without a restart, the score grows by exactly one per correct
      submission, whatever else happens in between. */
  lemma {:induction false} RunScore(s: State, intents: seq<Intent>)
    requires forall k :: 0 <= k < |intents| ==> intents[k] != Reset
    ensures Run(s, intents).score == s.score + CorrectSubmissions(s, intents)
    decreases |intents|
  {
    if intents != [] {
      assert forall k :: 0 <= k < |intents[1..]| ==> intents[1..][k] == intents[k + 1];
      RunScore(Step(s, intents[0]), intents[1..]);
    }
  }

  /** Without a filter change the carried score never grows. */
  lemma {:induction false} CarriedWithoutFilterChange(s: State, carried: nat, intents: seq<Intent>)
    requires forall k :: 0 <= k < |intents| ==> !intents[k].SetCategory? && !intents[k].SetDifficulty?
    ensures CarriedAfter(s, carried, intents) <= carried
    decreases |intents|
  {
    if intents != [] {
      assert forall k :: 0 <= k < |intents[1..]| ==> intents[1..][k] == intents[k + 1];
      CarriedWithoutFilterChange(Step(s, intents[0]), Carried(s, carried, intents[0]), intents[1..]);
    }
  }

  /** From the first screen, a session that never changes a filter ends on
      a results screen whose percentage is at most 100. */
  lemma PercentageWithoutFilterChange(intents: seq<Intent>)
    requires AllOffered(Initial, intents)
    requires forall k :: 0 <= k < |intents| ==> !intents[k].SetCategory? && !intents[k].SetDifficulty?
    requires Run(Initial, intents).showResults
    ensures |WorkingSet(Run(Initial, intents))| > 0
    ensures Percentage(Run(Initial, intents).score, |WorkingSet(Run(Initial, intents))|) <= 100
  {
    RunKeepsInvariant(Initial, 0, intents);
    CarriedWithoutFilterChange(Initial, 0, intents);
    ResultsViewBound(Run(Initial, intents), 0);
  }

  /** The component's fields, updated in place by its event handlers. */
  class Session {
    var currentQuestionIndex: nat
    var selectedAnswer: Option<string>
    var isSubmitted: bool
    var score: nat
    var showResults: bool
    var filterCategory: Choice<GrammarCategory>
    var filterDifficulty: Choice<Difficulty>
    /** The score when the filters last changed, 0 since the last restart. */
    ghost var carried: nat

    function Fields(): State
      reads this
    {
      State(currentQuestionIndex, selectedAnswer, isSubmitted, score, showResults, filterCategory, filterDifficulty)
    }

    ghost predicate Valid()
      reads this
    {
      Invariant(Fields(), carried)
    }

    /** The fields' initial values. */
    constructor ()
      ensures Fields() == Initial && carried == 0
      ensures Valid()
    {
      currentQuestionIndex, selectedAnswer, isSubmitted, score := 0, None, false, 0;
      showResults, filterCategory, filterDifficulty := false, All, All;
      carried := 0;
    }

    /** Clicking an option button. */
    method HandleAnswerSelect(option: string)
      modifies this
      ensures Fields() == Step(old(Fields()), SelectAnswer(option)) && carried == old(carried)
      ensures old(Valid()) && Offered(old(Fields()), SelectAnswer(option)) ==> Valid()
    {
      if !isSubmitted {
        selectedAnswer := Some(option);
      }
    }

    /** Clicking the submit button. */
    method HandleSubmit()
      modifies this
      ensures Fields() == Step(old(Fields()), Submit) && carried == old(carried)
      ensures old(Valid()) && Offered(old(Fields()), Submit) ==> Valid()
    {
      var correct := IsCorrect(Fields());
      if Truthy(selectedAnswer) {
        isSubmitted := true;
        if correct {
          score := score + 1;
        }
      }
    }

    /** Clicking the next (or see-results) button. */
    method HandleNext()
      modifies this
      ensures Fields() == Step(old(Fields()), Next) && carried == old(carried)
      ensures old(Valid()) && Offered(old(Fields()), Next) ==> Valid()
    {
      ghost var s0 := Fields();
      if currentQuestionIndex < |WorkingSet(Fields())| - 1 {
        currentQuestionIndex := currentQuestionIndex + 1;
        selectedAnswer := None;
        isSubmitted := false;
      } else {
        showResults := true;
      }
      if Invariant(s0, carried) && Offered(s0, Next) {
        StepKeepsInvariant(s0, carried, Next);
      }
    }

    /** Clicking restart on the results screen. */
    method HandleReset()
      modifies this
      ensures Fields() == Step(old(Fields()), Reset) && carried == 0
      ensures Valid()
    {
      currentQuestionIndex := 0;
      selectedAnswer := None;
      isSubmitted := false;
      score := 0;
      showResults := false;
      carried := 0;
    }

    /** Choosing a topic in the topic filter. */
    method SetCategoryFilter(category: Choice<GrammarCategory>)
      modifies this
      ensures Fields() == Step(old(Fields()), SetCategory(category)) && carried == old(score)
      ensures old(Valid()) && Offered(old(Fields()), SetCategory(category)) ==> Valid()
    {
      filterCategory := category;
      currentQuestionIndex := 0;
      isSubmitted := false;
      selectedAnswer := None;
      carried := score;
    }

    /** Choosing a level in the difficulty filter. */
    method SetDifficultyFilter(difficulty: Choice<Difficulty>)
      modifies this
      ensures Fields() == Step(old(Fields()), SetDifficulty(difficulty)) && carried == old(score)
      ensures old(Valid()) && Offered(old(Fields()), SetDifficulty(difficulty)) ==> Valid()
    {
      filterDifficulty := difficulty;
      currentQuestionIndex := 0;
      isSubmitted := false;
      selectedAnswer := None;
      carried := score;
    }

    /** Clicking clear-filters on the empty screen. */
    method ResetFilters()
      modifies this
      ensures Fields() == Step(old(Fields()), ClearFilters) && carried == old(carried)
      ensures old(Valid()) && Offered(old(Fields()), ClearFilters) ==> Valid()
    {
      ghost var s0 := Fields();
      filterCategory := All;
      filterDifficulty := All;
      if Invariant(s0, carried) && Offered(s0, ClearFilters) {
        StepKeepsInvariant(s0, carried, ClearFilters);
      }
    }
  }

  /** A learner narrows the difficulty to Advanced, which leaves only entry
      "9", and answers it correctly: one point, submitted, on that question. */
  method AdvancedAnsweredOnce() returns (quiz: Session)
    ensures fresh(quiz)
    ensures quiz.Fields() == State(0, Some("that"), true, 1, false, All, Only(Advanced))
  {
    quiz := new Session();
    quiz.SetDifficultyFilter(Only(Advanced));
    TableAdvancedNounClause(All);
    assert CurrentQuestion(quiz.Fields()) == Some(Q9);
    quiz.HandleAnswerSelect("that");
    quiz.HandleSubmit();
  }

  /** Moving on from there, the results screen shows one point out of one
      question, 100 percent and the "perfect" message. */
  method PerfectSession() returns (percentage: nat, message: Message)
    ensures percentage == 100 && message == Perfect
  {
    var quiz := AdvancedAnsweredOnce();
    TableAdvancedNounClause(All);
    quiz.HandleNext();
    assert quiz.Fields() == State(0, Some("that"), true, 1, true, All, Only(Advanced));
    percentage := Percentage(quiz.score, |WorkingSet(quiz.Fields())|);
    PercentageBounds(1, 1);
    message := MessageFor(percentage);
  }

  /** Instead of moving on, the learner switches the topic to NounClause,
      which keeps the same single question and restarts it with the point
      kept; answering it again adds a second point, so the results screen
      shows two points out of one question, a percentage of 200 and the
      "excellent" message. */
  method CarriedScoreSession() returns (percentage: nat, message: Message)
    ensures percentage == 200 && message == Excellent
  {
    var quiz := AdvancedAnsweredOnce();
    quiz.SetCategoryFilter(Only(NounClause));
    TableAdvancedNounClause(Only(NounClause));
    assert CurrentQuestion(quiz.Fields()) == Some(Q9);
    quiz.HandleAnswerSelect("that");
    quiz.HandleSubmit();
    quiz.HandleNext();
    assert quiz.Fields() == State(0, Some("that"), true, 2, true, Only(NounClause), Only(Advanced));
    percentage := Percentage(quiz.score, |WorkingSet(quiz.Fields())|);
    PercentageUnique(2, 1, 200);
    message := MessageFor(percentage);
  }

  /** A learner picks a topic no question carries, sees the empty screen,
      clears the filters and is back at the first of all ten questions. */
  method EmptyFilterSession() returns (view: View, first: Option<Question>)
    ensures view == EmptyView && first == Some(QUESTIONS[0])
  {
    var quiz := new Session();
    quiz.SetCategoryFilter(Only(Tense));
    TableUnusedTopics(Only(Tense), All);
    view := ViewOf(quiz.Fields());
    quiz.ResetFilters();
    assert quiz.Fields() == Initial;
    TableUnfiltered();
    first := CurrentQuestion(quiz.Fields());
  }
}
