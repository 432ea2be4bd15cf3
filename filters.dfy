/** The filter engine of the quiz (src/App.tsx:32-38): the working set is the
    stable filter of the question table by a category choice and a difficulty
    choice, each of which is either a specific value or 'All'. */
module Filters {
  import opened Questions

  /** A filter setting: 'All', or one specific enum value. */
  datatype Choice<T(==)> = All | Only(value: T) {
    /** True when `x` passes this setting. */
    predicate Admits(x: T) {
      All? || value == x
    }
  }

  /** A question is kept when both its category and its difficulty pass. */
  predicate Matches(q: Question, category: Choice<GrammarCategory>, difficulty: Choice<Difficulty>) {
    category.Admits(q.category) && difficulty.Admits(q.difficulty)
  }

  /** The working set: the questions of `qs` that match, in their original order. */
  function FilterQuestions(qs: seq<Question>, category: Choice<GrammarCategory>, difficulty: Choice<Difficulty>)
    : (r: seq<Question>)
    ensures |r| <= |qs|
    ensures forall k :: 0 <= k < |r| ==> Matches(r[k], category, difficulty)
  {
    if qs == [] then []
    else
      (if Matches(qs[0], category, difficulty) then [qs[0]] else [])
      + FilterQuestions(qs[1..], category, difficulty)
  }

  /** A question is in the working set exactly when it is in the input and
      passes both settings. */
  lemma {:induction false} FilterMembership(qs: seq<Question>, q: Question,
                                            category: Choice<GrammarCategory>, difficulty: Choice<Difficulty>)
    ensures q in FilterQuestions(qs, category, difficulty) <==> q in qs && Matches(q, category, difficulty)
  {
    if qs != [] {
      FilterMembership(qs[1..], q, category, difficulty);
      assert qs == [qs[0]] + qs[1..];
    }
  }

  /** Filtering distributes over concatenation: the filter never reorders
      entries across a split point. */
  lemma {:induction false} FilterAppend(a: seq<Question>, b: seq<Question>,
                                        category: Choice<GrammarCategory>, difficulty: Choice<Difficulty>)
    ensures FilterQuestions(a + b, category, difficulty)
         == FilterQuestions(a, category, difficulty) + FilterQuestions(b, category, difficulty)
  {
    if a == [] {
      assert a + b == b;
    } else {
      assert (a + b)[0] == a[0];
      assert (a + b)[1..] == a[1..] + b;
      FilterAppend(a[1..], b, category, difficulty);
    }
  }

  /** The positions of the matching entries of `qs`, in increasing order:
      a reference definition that walks the table from its end. */
  function MatchingPositions(qs: seq<Question>, category: Choice<GrammarCategory>, difficulty: Choice<Difficulty>)
    : (ps: seq<nat>)
    ensures forall k :: 0 <= k < |ps| ==> ps[k] < |qs| && Matches(qs[ps[k]], category, difficulty)
    ensures forall k, l :: 0 <= k < l < |ps| ==> ps[k] < ps[l]
  {
    if qs == [] then []
    else
      var last := |qs| - 1;
      MatchingPositions(qs[..last], category, difficulty)
      + (if Matches(qs[last], category, difficulty) then [last] else [])
  }

  /** Every matching position is listed. */
  lemma {:induction false} MatchingPositionsComplete(qs: seq<Question>, j: nat,
                                                     category: Choice<GrammarCategory>, difficulty: Choice<Difficulty>)
    requires j < |qs| && Matches(qs[j], category, difficulty)
    ensures j in MatchingPositions(qs, category, difficulty)
  {
    var last := |qs| - 1;
    if j < last {
      MatchingPositionsComplete(qs[..last], j, category, difficulty);
    }
  }

  /** Appending one entry to the input appends it to the working set when it matches. */
  lemma FilterSnoc(init: seq<Question>, x: Question,
                   category: Choice<GrammarCategory>, difficulty: Choice<Difficulty>)
    ensures FilterQuestions(init + [x], category, difficulty)
         == FilterQuestions(init, category, difficulty)
            + (if Matches(x, category, difficulty) then [x] else [])
  {
    FilterAppend(init, [x], category, difficulty);
    assert [x][1..] == [];
  }

  /** The working set is exactly the table entries at the matching positions,
      in increasing position order: it is the ordered subsequence of `qs`
      made of the entries that pass both filters. */
  lemma {:induction false} FilterIsOrderedSelection(qs: seq<Question>,
                                                    category: Choice<GrammarCategory>, difficulty: Choice<Difficulty>)
    ensures var r, ps := FilterQuestions(qs, category, difficulty), MatchingPositions(qs, category, difficulty);
            |r| == |ps| && forall k :: 0 <= k < |r| ==> r[k] == qs[ps[k]]
  {
    if qs != [] {
      var last := |qs| - 1;
      var init, x := qs[..last], qs[last];
      FilterIsOrderedSelection(init, category, difficulty);
      assert qs == init + [x];
      FilterSnoc(init, x, category, difficulty);
      var r0, ps0 := FilterQuestions(init, category, difficulty), MatchingPositions(init, category, difficulty);
      SelectionSnoc(qs, r0, ps0, x, Matches(x, category, difficulty));
    }
  }

  /** The step of the induction above: extending a selection by the last entry. */
  lemma SelectionSnoc(qs: seq<Question>, r0: seq<Question>, ps0: seq<nat>, x: Question, keep: bool)
    requires qs != [] && qs[|qs| - 1] == x
    requires |r0| == |ps0| && forall k :: 0 <= k < |r0| ==> ps0[k] < |qs| - 1 && r0[k] == qs[ps0[k]]
    ensures var r, ps := r0 + (if keep then [x] else []), ps0 + (if keep then [|qs| - 1] else []);
            |r| == |ps| && forall k :: 0 <= k < |r| ==> r[k] == qs[ps[k]]
  {
  }

  /** With both settings at 'All' the working set is the whole input. */
  lemma {:induction false} FilterAllAll(qs: seq<Question>)
    ensures FilterQuestions(qs, All, All) == qs
  {
    if qs != [] {
      FilterAllAll(qs[1..]);
    }
  }

  /** Filtering a working set again with the same settings changes nothing. */
  lemma {:induction false} FilterIdempotent(qs: seq<Question>,
                                            category: Choice<GrammarCategory>, difficulty: Choice<Difficulty>)
    ensures var r := FilterQuestions(qs, category, difficulty);
            FilterQuestions(r, category, difficulty) == r
  {
    if qs != [] {
      var head := if Matches(qs[0], category, difficulty) then [qs[0]] else [];
      var rest := FilterQuestions(qs[1..], category, difficulty);
      FilterIdempotent(qs[1..], category, difficulty);
      FilterAppend(head, rest, category, difficulty);
      if head != [] {
        assert head[1..] == [];
      }
    }
  }

  /** On the quiz's table, 'All'/'All' yields all ten questions. */
  lemma TableUnfiltered()
    ensures FilterQuestions(QUESTIONS, All, All) == QUESTIONS
    ensures |FilterQuestions(QUESTIONS, All, All)| == 10
  {
    FilterAllAll(QUESTIONS);
  }

  /** A topic no entry of the table carries selects nothing, whatever the level. */
  lemma TableUnusedTopics(category: Choice<GrammarCategory>, difficulty: Choice<Difficulty>)
    requires category in {Only(Conjunction), Only(Tense), Only(Voice)}
    ensures FilterQuestions(QUESTIONS, category, difficulty) == []
  {
    var ps := MatchingPositions(QUESTIONS, category, difficulty);
    FilterIsOrderedSelection(QUESTIONS, category, difficulty);
    if ps != [] {
      EntryFacts(ps[0]);
    }
  }

  /** Advanced with a topic setting that excludes NounClause selects nothing. */
  lemma TableAdvancedOtherTopics(category: Choice<GrammarCategory>)
    requires !category.Admits(NounClause)
    ensures FilterQuestions(QUESTIONS, category, Only(Advanced)) == []
  {
    var ps := MatchingPositions(QUESTIONS, category, Only(Advanced));
    FilterIsOrderedSelection(QUESTIONS, category, Only(Advanced));
    if ps != [] {
      EntryFacts(ps[0]);
    }
  }

  /** Advanced with a topic setting that admits NounClause selects exactly entry "9". */
  lemma TableAdvancedNounClause(category: Choice<GrammarCategory>)
    requires category.Admits(NounClause)
    ensures FilterQuestions(QUESTIONS, category, Only(Advanced)) == [QUESTIONS[8]]
    ensures QUESTIONS[8].id == "9"
  {
    var ps := MatchingPositions(QUESTIONS, category, Only(Advanced));
    FilterIsOrderedSelection(QUESTIONS, category, Only(Advanced));
    EntryFacts(8);
    MatchingPositionsComplete(QUESTIONS, 8, category, Only(Advanced));
    if |ps| > 1 {
      EntryFacts(ps[0]);
      EntryFacts(ps[1]);
    }
    EntryFacts(ps[0]);
  }
}
