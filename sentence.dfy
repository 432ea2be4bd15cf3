/** Splitting a question's sentence on the blank marker, as the question view
    does before showing it (src/App.tsx:74-91): the text before the first
    marker, the learner's pick or a placeholder, and the text after it. */
module Sentence {
  import opened Maybe
  import opened Questions

  /** `sep` occurs in `s` starting at index `i`. */
  predicate OccursAt(s: string, sep: string, i: nat) {
    i + |sep| <= |s| && s[i..i + |sep|] == sep
  }

  /** No occurrence of `sep` in `s` starts in `[from, to)`. */
  predicate NoneStartIn(s: string, sep: string, from: nat, to: nat) {
    forall j :: from <= j < to ==> !OccursAt(s, sep, j)
  }

  /** The scan of a string split with a non-empty separator: the current part
      starts at `start`, and the separator is looked for at `i` onwards. */
  function SplitFrom(s: string, sep: string, start: nat, i: nat): (parts: seq<string>)
    requires sep != [] && start <= i <= |s|
    ensures |parts| >= 1
    decreases |s| - i
  {
    if i + |sep| > |s| then [s[start..]]
    else if OccursAt(s, sep, i) then [s[start..i]] + SplitFrom(s, sep, i + |sep|, i + |sep|)
    else SplitFrom(s, sep, start, i + 1)
  }

  /** The parts glued back together with the separator between them. */
  function Join(parts: seq<string>, sep: string): string
    requires parts != []
  {
    if |parts| == 1 then parts[0] else parts[0] + sep + Join(parts[1..], sep)
  }

  lemma {:induction false} JoinSplitFrom(s: string, sep: string, start: nat, i: nat)
    requires sep != [] && start <= i <= |s|
    ensures Join(SplitFrom(s, sep, start, i), sep) == s[start..]
    decreases |s| - i
  {
    if i + |sep| > |s| {
    } else if OccursAt(s, sep, i) {
      JoinSplitFrom(s, sep, i + |sep|, i + |sep|);
      assert s[start..] == s[start..i] + sep + s[i + |sep|..];
    } else {
      JoinSplitFrom(s, sep, start, i + 1);
    }
  }

  /** `s.split(sep)` for a non-empty separator string. It yields at least
      one part, and loses nothing: joining the parts with the separator
      gives the input back. */
  function Split(s: string, sep: string): (parts: seq<string>)
    requires sep != []
    ensures parts != [] && Join(parts, sep) == s
  {
    JoinSplitFrom(s, sep, 0, 0);
    assert s[0..] == s;
    SplitFrom(s, sep, 0, 0)
  }

  /** An occurrence inside a slice is an occurrence in the whole string. */
  lemma OccursInSlice(s: string, sep: string, a: nat, b: nat, j: nat)
    requires a <= b <= |s| && OccursAt(s[a..b], sep, j)
    ensures OccursAt(s, sep, a + j) && a + j + |sep| <= b
  {
    forall m | 0 <= m < |sep|
      ensures s[a + j + m] == sep[m]
    {
      assert s[a..b][j..j + |sep|][m] == sep[m];
    }
    assert s[a + j..a + j + |sep|] == sep;
  }

  lemma {:induction false} SplitFromPartsFree(s: string, sep: string, start: nat, i: nat)
    requires sep != [] && start <= i <= |s| && NoneStartIn(s, sep, start, i)
    ensures forall k, j :: 0 <= k < |SplitFrom(s, sep, start, i)| ==> !OccursAt(SplitFrom(s, sep, start, i)[k], sep, j)
    decreases |s| - i
  {
    var parts := SplitFrom(s, sep, start, i);
    if i + |sep| > |s| {
      assert s[start..] == s[start..|s|];
      forall j | OccursAt(s[start..|s|], sep, j)
        ensures false
      {
        OccursInSlice(s, sep, start, |s|, j);
      }
    } else if OccursAt(s, sep, i) {
      SplitFromPartsFree(s, sep, i + |sep|, i + |sep|);
      forall j | OccursAt(s[start..i], sep, j)
        ensures false
      {
        OccursInSlice(s, sep, start, i, j);
      }
      forall k, j | 0 <= k < |parts|
        ensures !OccursAt(parts[k], sep, j)
      {
        if k > 0 {
          assert parts[k] == SplitFrom(s, sep, i + |sep|, i + |sep|)[k - 1];
        }
      }
    } else {
      SplitFromPartsFree(s, sep, start, i + 1);
    }
  }

  /** No part of a split contains the separator. */
  lemma SplitPartsFree(s: string, sep: string)
    requires sep != []
    ensures forall k, j :: 0 <= k < |Split(s, sep)| ==> !OccursAt(Split(s, sep)[k], sep, j)
  {
    SplitFromPartsFree(s, sep, 0, 0);
  }

  /** `s` holds no underscore at all. */
  predicate NoUnderscore(s: string) {
    forall j :: 0 <= j < |s| ==> s[j] != '_'
  }

  lemma {:induction false} ScanSuffix(s: string, start: nat, i: nat)
    requires start <= i <= |s| && NoUnderscore(s[i..])
    ensures SplitFrom(s, Blank, start, i) == [s[start..]]
    decreases |s| - i
  {
    if i + |Blank| <= |s| {
      assert s[i..][0] == s[i] != '_';
      assert !OccursAt(s, Blank, i);
      assert s[i + 1..] == s[i..][1..];
      ScanSuffix(s, start, i + 1);
    }
  }

  lemma {:induction false} ScanPrefix(s: string, k: nat, i: nat)
    requires i <= k && k + |Blank| <= |s| && OccursAt(s, Blank, k) && NoUnderscore(s[i..k])
    ensures SplitFrom(s, Blank, 0, i) == [s[..k]] + SplitFrom(s, Blank, k + |Blank|, k + |Blank|)
    decreases k - i
  {
    if i < k {
      assert s[i..k][0] == s[i] != '_';
      assert !OccursAt(s, Blank, i);
      assert s[i + 1..k] == s[i..k][1..];
      ScanPrefix(s, k, i + 1);
    }
  }

  /** A sentence with one blank and no other underscore splits into exactly
      the text before and the text after the blank. */
  lemma SplitOneBlank(prefix: string, suffix: string)
    requires NoUnderscore(prefix) && NoUnderscore(suffix)
    ensures Split(prefix + Blank + suffix, Blank) == [prefix, suffix]
  {
    var s := prefix + Blank + suffix;
    var k := |prefix|;
    assert s[..k] == prefix && s[k..k + |Blank|] == Blank && s[k + |Blank|..] == suffix;
    assert s[0..k] == prefix;
    ScanPrefix(s, k, 0);
    ScanSuffix(s, k + |Blank|, k + |Blank|);
  }

  /** Two strings without underscores concatenate to one without. */
  lemma NoUnderscoreConcat(a: string, b: string)
    requires NoUnderscore(a) && NoUnderscore(b)
    ensures NoUnderscore(a + b)
  {
  }

  /** No occurrence of the blank marker starts anywhere in `s`. */
  ghost predicate NoMarker(s: string) {
    forall j :: !OccursAt(s, Blank, j)
  }

  /** What the question view shows for a sentence: `parts[0]`, the selected
      option when there is a truthy one and the placeholder otherwise, and
      `parts[1]`, which renders as nothing when the sentence has no marker.
      The text before the blank is the start of the sentence, and neither
      shown piece of the sentence holds a marker. */
  function RenderSentence(sentence: string, selected: Option<string>): (r: (string, string, string))
    ensures r.0 <= sentence
    ensures NoMarker(r.0) && NoMarker(r.2)
  {
    var parts := Split(sentence, Blank);
    SplitPartsFree(sentence, Blank);
    assert Join(parts, Blank) == parts[0] + (if |parts| == 1 then [] else Blank + Join(parts[1..], Blank));
    (parts[0],
     if Truthy(selected) then selected.value else "......",
     if |parts| > 1 then parts[1] else "")
  }

  /** A sentence of the form prefix, blank, suffix is shown as that prefix,
      the learner's pick (or the placeholder) and that suffix, so the blank
      is filled in place and no text is lost. */
  lemma RenderOneBlank(prefix: string, suffix: string, selected: Option<string>)
    requires NoUnderscore(prefix) && NoUnderscore(suffix)
    ensures var (before, fill, after) := RenderSentence(prefix + Blank + suffix, selected);
            before == prefix && after == suffix
            && fill == (if Truthy(selected) then selected.value else "......")
  {
    SplitOneBlank(prefix, suffix);
  }

  /** A table sentence that is some prefix, the blank marker and some suffix,
      neither of which holds an underscore, splits into exactly those two
      parts, which joined with the marker give the sentence back. */
  lemma SentenceOfTwoParts(sentence: string, prefix: string, suffix: string)
    requires sentence == prefix + Blank + suffix
    requires NoUnderscore(prefix) && NoUnderscore(suffix)
    ensures Split(sentence, Blank) == [prefix, suffix]
    ensures var parts := Split(sentence, Blank);
            parts[0] + Blank + parts[1] == sentence
  {
    SplitOneBlank(prefix, suffix);
  }

  // Each entry's sentence is checked on its own to keep every proof small;
  // the two longest suffixes are checked in two pieces for the same reason.

  lemma SentenceQ1()
    ensures Split(Q1.sentence, Blank) == ["", " tired, she still finished the report."]
  {
    SentenceOfTwoParts(Q1.sentence, "", " tired, she still finished the report.");
  }

  lemma SentenceQ2()
    ensures Split(Q2.sentence, Blank) == ["The book ", " I bought yesterday is very interesting."]
  {
    SentenceOfTwoParts(Q2.sentence, "The book ", " I bought yesterday is very interesting.");
  }

  lemma SentenceQ3()
    ensures Split(Q3.sentence, Blank) == ["I won't go to the party ", " I am invited."]
  {
    SentenceOfTwoParts(Q3.sentence, "I won't go to the party ", " I am invited.");
  }

  lemma SentenceQ4()
    ensures Split(Q4.sentence, Blank) == ["The teacher asked us ", " we had finished our homework."]
  {
    SentenceOfTwoParts(Q4.sentence, "The teacher asked us ", " we had finished our homework.");
  }

  lemma SentenceQ5()
    ensures Split(Q5.sentence, Blank) == ["", " the weather was bad," + " they decided to go hiking."]
  {
    NoUnderscoreConcat(" the weather was bad,", " they decided to go hiking.");
    SentenceOfTwoParts(Q5.sentence, "", " the weather was bad," + " they decided to go hiking.");
  }

  lemma SentenceQ6()
    ensures Split(Q6.sentence, Blank) == ["He is the man ", " son won the first prize."]
  {
    SentenceOfTwoParts(Q6.sentence, "He is the man ", " son won the first prize.");
  }

  lemma SentenceQ7()
    ensures Split(Q7.sentence, Blank) == ["I saw him ", " the street when I was waiting for the bus."]
  {
    SentenceOfTwoParts(Q7.sentence, "I saw him ", " the street when I was waiting for the bus.");
  }

  lemma SentenceQ8()
    ensures Split(Q8.sentence, Blank) == ["Do you know ", " she is crying?"]
  {
    SentenceOfTwoParts(Q8.sentence, "Do you know ", " she is crying?");
  }

  lemma SentenceQ9()
    ensures Split(Q9.sentence, Blank) == ["The news ", " our team won the game spread quickly."]
  {
    SentenceOfTwoParts(Q9.sentence, "The news ", " our team won the game spread quickly.");
  }

  lemma SentenceQ10()
    ensures Split(Q10.sentence, Blank) == ["", " by the teacher," + " the student felt very happy."]
  {
    NoUnderscoreConcat(" by the teacher,", " the student felt very happy.");
    SentenceOfTwoParts(Q10.sentence, "", " by the teacher," + " the student felt very happy.");
  }

  /** Every sentence of the table holds the blank marker exactly once: it
      splits into two parts, which joined with the marker give it back. */
  lemma TableSentences()
    ensures forall i :: 0 <= i < |QUESTIONS| ==> |Split(QUESTIONS[i].sentence, Blank)| == 2
  {
    forall i | 0 <= i < |QUESTIONS|
      ensures |Split(QUESTIONS[i].sentence, Blank)| == 2
    {
      match i {
        case 0 => SentenceQ1();
        case 1 => SentenceQ2();
        case 2 => SentenceQ3();
        case 3 => SentenceQ4();
        case 4 => SentenceQ5();
        case 5 => SentenceQ6();
        case 6 => SentenceQ7();
        case 7 => SentenceQ8();
        case 8 => SentenceQ9();
        case 9 => SentenceQ10();
      }
    }
  }
}
