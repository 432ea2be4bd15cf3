/** The results view's figures (src/App.tsx:93-98): the rounded percentage of
    correct answers and the message class chosen from it. */
module Results {

  /** The four messages of the results view, from best to worst. */
  datatype Message = Perfect | Excellent | Good | KeepGoing

  /** `Math.round(score / total * 100)` in exact integer arithmetic: the
      nearest integer to 100 * score / total, halves rounded up. */
  function Percentage(score: nat, total: nat): (p: nat)
    requires total > 0
    ensures (2 * p - 1) * total <= 200 * score < (2 * p + 1) * total
  {
    var p := (200 * score + total) / (2 * total);
    assert 2 * total * p <= 200 * score + total < 2 * total * p + 2 * total;
    p
  }

  /** Multiplying by a positive factor keeps a strict order: read backwards,
      a strict inequality between products gives one between the factors. */
  lemma MulLess(a: int, b: int, t: int)
    requires t > 0 && a * t < b * t
    ensures a < b
  {
    var d := b - a;
    assert d * t == b * t - a * t;
    if d <= 0 {
      MulNonPositive(d, t);
    }
  }

  lemma MulNonPositive(d: int, t: int)
    requires d <= 0 && t > 0
    ensures d * t <= 0
  {
  }

  /** The bracket in Percentage's contract pins the rounded value down:
      no other integer lies within half a point of the exact ratio, ties up. */
  lemma PercentageUnique(score: nat, total: nat, q: int)
    requires total > 0
    requires (2 * q - 1) * total <= 200 * score < (2 * q + 1) * total
    ensures q == Percentage(score, total)
  {
    var p: int := Percentage(score, total);
    MulLess(2 * q - 1, 2 * p + 1, total);
    MulLess(2 * p - 1, 2 * q + 1, total);
  }

  /** No correct answer gives 0; all correct gives exactly 100; at most all
      correct never exceeds 100; more points than questions gives at least 100. */
  lemma PercentageBounds(score: nat, total: nat)
    requires total > 0
    ensures score == 0 ==> Percentage(score, total) == 0
    ensures score == total ==> Percentage(score, total) == 100
    ensures score <= total ==> Percentage(score, total) <= 100
    ensures score >= total ==> Percentage(score, total) >= 100
  {
    var p: int := Percentage(score, total);
    if score == 0 {
      PercentageUnique(score, total, 0);
    }
    if score == total {
      PercentageUnique(score, total, 100);
    }
    if score <= total {
      assert (2 * p - 1) * total <= 200 * score <= 200 * total < 201 * total;
      MulLess(2 * p - 1, 201, total);
    }
    if score >= total {
      assert 200 * total <= 200 * score < (2 * p + 1) * total;
      MulLess(200, 2 * p + 1, total);
    }
  }

  /** More correct answers never give a lower percentage. */
  lemma PercentageMonotone(score: nat, score': nat, total: nat)
    requires total > 0 && score <= score'
    ensures Percentage(score, total) <= Percentage(score', total)
  {
    var p: int, p': int := Percentage(score, total), Percentage(score', total);
    assert (2 * p - 1) * total <= 200 * score <= 200 * score' < (2 * p' + 1) * total;
    MulLess(2 * p - 1, 2 * p' + 1, total);
  }

  /** The message for a percentage: the first threshold it reaches. */
  function MessageFor(percentage: int): (m: Message)
    ensures m == Perfect <==> percentage == 100
    ensures m == Excellent <==> percentage != 100 && percentage >= 80
    ensures m == Good <==> 60 <= percentage < 80
    ensures m == KeepGoing <==> percentage < 60
  {
    if percentage == 100 then Perfect
    else if percentage >= 80 then Excellent
    else if percentage >= 60 then Good
    else KeepGoing
  }

  /** The message never gets worse as the percentage rises within 0..100. */
  lemma MessageMonotone(p: int, p': int)
    requires p <= p' <= 100
    ensures Rank(MessageFor(p)) <= Rank(MessageFor(p'))
  {
  }

  /** Position of a message from worst (0) to best (3). */
  function Rank(m: Message): nat {
    match m
    case KeepGoing => 0
    case Good => 1
    case Excellent => 2
    case Perfect => 3
  }

  /** One of two questions right is 50 percent, which earns "keep going";
      all of them right earns "perfect". */
  lemma ResultExamples(total: nat)
    requires total > 0
    ensures Percentage(1, 2) == 50 && MessageFor(50) == KeepGoing
    ensures MessageFor(Percentage(total, total)) == Perfect
  {
    PercentageUnique(1, 2, 50);
    PercentageBounds(total, total);
  }
}
