/** The question schema and the fixed question table of the grammar quiz
    (src/types.ts). The explanation texts are display data and are not part
    of the model. */
module Questions {

  /** Difficulty levels; the table's labels are display strings only. */
  datatype Difficulty = Beginner | Intermediate | Advanced

  /** The seven grammar topics a question can be tagged with. */
  datatype GrammarCategory =
    | NonFinite
    | RelativeClause
    | AdverbialClause
    | NounClause
    | Conjunction
    | Tense
    | Voice

  /** One multiple-choice question; the blank in `sentence` is written as `Blank`. */
  datatype Question = Question(
    id: string,
    sentence: string,
    options: seq<string>,
    correctAnswer: string,
    category: GrammarCategory,
    difficulty: Difficulty)

  /** The blank marker the sentences are split on when a question is shown. */
  const Blank: string := "______"

  /** The entries of the question table, one constant each. Each sentence is
      written as the text before the blank, the marker and the text after
      it (the two longest in two pieces); the concatenation is the sentence
      text itself. */
  const Q1: Question := Question("1", Blank + " tired, she still finished the report.",
    ["Feeling", "Felt", "To feel", "Feel"], "Feeling", NonFinite, Intermediate)
  const Q2: Question := Question("2", "The book " + Blank + " I bought yesterday is very interesting.",
    ["who", "which", "where", "whose"], "which", RelativeClause, Beginner)
  const Q3: Question := Question("3", "I won't go to the party " + Blank + " I am invited.",
    ["if", "unless", "because", "since"], "unless", AdverbialClause, Intermediate)
  const Q4: Question := Question("4", "The teacher asked us " + Blank + " we had finished our homework.",
    ["that", "if", "what", "which"], "if", NounClause, Intermediate)
  const Q5: Question := Question("5", Blank + " the weather was bad," + " they decided to go hiking.",
    ["Because", "Although", "Unless", "If"], "Although", AdverbialClause, Beginner)
  const Q6: Question := Question("6", "He is the man " + Blank + " son won the first prize.",
    ["who", "whom", "whose", "that"], "whose", RelativeClause, Intermediate)
  const Q7: Question := Question("7", "I saw him " + Blank + " the street when I was waiting for the bus.",
    ["cross", "crossing", "crossed", "to cross"], "crossing", NonFinite, Intermediate)
  const Q8: Question := Question("8", "Do you know " + Blank + " she is crying?",
    ["why", "what", "which", "who"], "why", NounClause, Beginner)
  const Q9: Question := Question("9", "The news " + Blank + " our team won the game spread quickly.",
    ["that", "which", "what", "whether"], "that", NounClause, Advanced)
  const Q10: Question := Question("10", Blank + " by the teacher," + " the student felt very happy.",
    ["Praising", "Praised", "To praise", "Praise"], "Praised", NonFinite, Intermediate)

  /** The question table, in the order the quiz presents it. */
  const QUESTIONS: seq<Question> := [Q1, Q2, Q3, Q4, Q5, Q6, Q7, Q8, Q9, Q10]

  /** The options of `q` are pairwise distinct and one of them is the correct answer. */
  predicate WellFormedOptions(q: Question) {
    && q.correctAnswer in q.options
    && forall i, j :: 0 <= i < j < |q.options| ==> q.options[i] != q.options[j]
  }

  /** The facts each entry of the table satisfies on its own, checked one
      entry at a time: four pairwise distinct options including the correct
      answer, a topic other than Conjunction, Tense and Voice, and the
      Advanced level only at position 8 (id "9"). */
  lemma EntryFacts(i: nat)
    requires i < |QUESTIONS|
    ensures |QUESTIONS[i].options| == 4 && WellFormedOptions(QUESTIONS[i])
    ensures QUESTIONS[i].category !in {Conjunction, Tense, Voice}
    ensures QUESTIONS[i].difficulty == Advanced <==> i == 8
  {
    match i
    case 0 => {} case 1 => {} case 2 => {} case 3 => {} case 4 => {}
    case 5 => {} case 6 => {} case 7 => {} case 8 => {} case 9 => {}
  }

  /** Every entry offers four distinct options, one of which is its correct answer. */
  lemma TableOptionsWellFormed()
    ensures forall i :: 0 <= i < |QUESTIONS| ==> |QUESTIONS[i].options| == 4 && WellFormedOptions(QUESTIONS[i])
  {
    forall i | 0 <= i < |QUESTIONS|
      ensures |QUESTIONS[i].options| == 4 && WellFormedOptions(QUESTIONS[i])
    {
      EntryFacts(i);
    }
  }

  /** The ids are "1" to "10" in table order, hence pairwise distinct. */
  lemma TableIds()
    ensures |QUESTIONS| == 10
    ensures seq(|QUESTIONS|, i requires 0 <= i < |QUESTIONS| => QUESTIONS[i].id)
         == ["1", "2", "3", "4", "5", "6", "7", "8", "9", "10"]
    ensures forall i, j :: 0 <= i < j < |QUESTIONS| ==> QUESTIONS[i].id != QUESTIONS[j].id
  {
  }

  /** Which topics and levels the table actually uses: no entry is tagged
      Conjunction, Tense or Voice, and the only Advanced entry is id "9",
      a NounClause question. */
  lemma TableTags()
    ensures forall i :: 0 <= i < |QUESTIONS| ==> QUESTIONS[i].category !in {Conjunction, Tense, Voice}
    ensures forall i :: 0 <= i < |QUESTIONS| ==> (QUESTIONS[i].difficulty == Advanced <==> i == 8)
    ensures QUESTIONS[8].id == "9" && QUESTIONS[8].category == NounClause
  {
    forall i | 0 <= i < |QUESTIONS|
      ensures QUESTIONS[i].category !in {Conjunction, Tense, Voice}
      ensures QUESTIONS[i].difficulty == Advanced <==> i == 8
    {
      EntryFacts(i);
    }
  }
}
