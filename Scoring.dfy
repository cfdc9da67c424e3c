/** How the answers to the questions become a point on the compass: each
    reply symbol is mapped to a value from 1 (strongly agree) to 4 (strongly
    disagree), the value to a signed share of the question's weight (its
    "strike"), and the strike is added to x or to y. A question whose model
    call failed adds nothing. At the end each coordinate is clamped to
    [-10, 10] and rounded to hundredths. */
module Scoring {
  import opened Wrappers
  import opened Text
  import opened Questions

  /** 1 strongly agree, 2 agree, 3 disagree, 4 strongly disagree. */
  type AnswerValue = v: int | 1 <= v <= 4 witness 3

  /** The symbol table: "++", "+", "-" and "--", and any other reply read
      as a plain disagree. */
  function SymbolValue(symbol: string): (v: AnswerValue)
    ensures v == 1 <==> symbol == "++"
    ensures v == 2 <==> symbol == "+"
    ensures v == 4 <==> symbol == "--"
    ensures v == 3 <==> symbol != "++" && symbol != "+" && symbol != "--"
  {
    if symbol == "++" then 1
    else if symbol == "+" then 2
    else if symbol == "-" then 3
    else if symbol == "--" then 4
    else 3
  }

  function Abs(r: real): real {
    if r < 0.0 then -r else r
  }

  /** The answer pushes against the question's direction: agreement with a
      "-" question or disagreement with a "+" question. */
  predicate Against(value: AnswerValue, agree: string) {
    (value < 3 && agree == "-") || (value >= 3 && agree == "+")
  }

  /** The signed contribution of one answer: the full weight for the strong
      answers, half of it for the mild ones, negative exactly when the answer
      goes against the question's direction. */
  function Strike(value: AnswerValue, units: real, agree: string): real {
    var size := if value == 2 || value == 3 then units / 2.0 else units;
    if value < 3 then (if agree == "-" then -size else size)
    else (if agree == "+" then -size else size)
  }

  /** The size and the sign of a strike. */
  lemma StrikeMagnitude(value: AnswerValue, units: real, agree: string)
    ensures Abs(Strike(value, units, agree)) == if value == 1 || value == 4 then Abs(units) else Abs(units) / 2.0
    ensures Abs(Strike(value, units, agree)) <= Abs(units)
    ensures units > 0.0 ==> (Strike(value, units, agree) < 0.0 <==> Against(value, agree))
  {
  }

  /** For a well-formed direction, the opposite answers cancel out. */
  lemma OppositeAnswersCancel(units: real, agree: string)
    requires agree == "+" || agree == "-"
    ensures Strike(1, units, agree) + Strike(4, units, agree) == 0.0
    ensures Strike(2, units, agree) + Strike(3, units, agree) == 0.0
  {
  }

  /** A direction other than "+" or "-" is never negated: every answer then
      moves the coordinate the same way. */
  lemma UnknownDirectionNeverNegates(value: AnswerValue, units: real, agree: string)
    requires agree != "+" && agree != "-" && units >= 0.0
    ensures Strike(value, units, agree) >= 0.0
  {
  }

  datatype Point = Point(x: real, y: real)

  function Add(p: Point, q: Point): Point {
    Point(p.x + q.x, p.y + q.y)
  }

  /** What one question adds: nothing when its call failed; otherwise the
      strike of the trimmed reply, on x when the axis is "x" and on y for
      every other axis text. */
  function Contribution(q: Question, reply: Option<string>): Point {
    match reply
    case None => Point(0.0, 0.0)
    case Some(text) =>
      var strike := Strike(SymbolValue(Trim(text)), q.units, q.agree);
      if q.axis == "x" then Point(strike, 0.0) else Point(0.0, strike)
  }

  /** One question moves one coordinate only, by at most its weight. */
  lemma ContributionShape(q: Question, reply: Option<string>)
    ensures reply.None? ==> Contribution(q, reply) == Point(0.0, 0.0)
    ensures q.axis == "x" ==> Contribution(q, reply).y == 0.0
    ensures q.axis != "x" ==> Contribution(q, reply).x == 0.0
    ensures Abs(Contribution(q, reply).x) + Abs(Contribution(q, reply).y) <= Abs(q.units)
  {
    if reply.Some? {
      StrikeMagnitude(SymbolValue(Trim(reply.value)), q.units, q.agree);
    }
  }

  /** What each question adds, in table order, `replies[i]` being the outcome
      of the call for `qs[i]`. */
  function Contributions(qs: seq<Question>, replies: seq<Option<string>>): (cs: seq<Point>)
    requires |replies| == |qs|
    ensures |cs| == |qs|
  {
    seq(|qs|, i requires 0 <= i < |qs| => Contribution(qs[i], replies[i]))
  }

  /** The sum of a run of points, from the left. */
  function Sum(ps: seq<Point>): Point {
    if |ps| == 0 then Point(0.0, 0.0) else Add(Sum(ps[..|ps| - 1]), ps[|ps| - 1])
  }

  /** The running totals after the questions in order. */
  function Totals(qs: seq<Question>, replies: seq<Option<string>>): Point
    requires |replies| == |qs|
  {
    Sum(Contributions(qs, replies))
  }

  /** Adding one more point to a run. */
  lemma SumSnoc(ps: seq<Point>, p: Point)
    ensures Sum(ps + [p]) == Add(Sum(ps), p)
  {
    assert (ps + [p])[..|ps|] == ps;
  }

  /** Summing is associative over concatenation. */
  lemma {:induction false} SumAppend(ps: seq<Point>, qs: seq<Point>)
    ensures Sum(ps + qs) == Add(Sum(ps), Sum(qs))
    decreases |qs|
  {
    if |qs| == 0 {
      assert ps + qs == ps;
    } else {
      var n := |qs| - 1;
      calc {
        Sum(ps + qs);
        { assert ps + qs == (ps + qs[..n]) + [qs[n]]; SumSnoc(ps + qs[..n], qs[n]); }
        Add(Sum(ps + qs[..n]), qs[n]);
        { SumAppend(ps, qs[..n]); }
        Add(Add(Sum(ps), Sum(qs[..n])), qs[n]);
        Add(Sum(ps), Add(Sum(qs[..n]), qs[n]));
      }
    }
  }

  /** The contributions of two runs of questions are the two runs of
      contributions. */
  lemma ContributionsAppend(a: seq<Question>, ra: seq<Option<string>>,
                            b: seq<Question>, rb: seq<Option<string>>)
    requires |ra| == |a| && |rb| == |b|
    ensures Contributions(a + b, ra + rb) == Contributions(a, ra) + Contributions(b, rb)
  {
  }

  /** Scoring one more question adds its contribution to the totals so far. */
  lemma TotalsSnoc(qs: seq<Question>, replies: seq<Option<string>>, q: Question, reply: Option<string>)
    requires |replies| == |qs|
    ensures Totals(qs + [q], replies + [reply]) == Add(Totals(qs, replies), Contribution(q, reply))
  {
    ContributionsAppend(qs, replies, [q], [reply]);
    SumSnoc(Contributions(qs, replies), Contribution(q, reply));
  }

  /** The loop over the questions: x and y start at 0 and each question's
      strike is added in turn; a failed call is skipped. */
  method ScoreQuestions(questions: seq<Question>, answers: seq<Option<string>>) returns (x: real, y: real)
    requires |answers| == |questions|
    ensures Point(x, y) == Totals(questions, answers)
  {
    x, y := 0.0, 0.0;
    for i := 0 to |questions|
      invariant Point(x, y) == Totals(questions[..i], answers[..i])
    {
      var question := questions[i];
      TotalsPrefixStep(questions, answers, i);
      match answers[i] {
        case None =>
          // the call threw: continue with the next question
        case Some(text) =>
          var answerValue := SymbolValue(Trim(text));
          var strike := Strike(answerValue, question.units, question.agree);
          if question.axis == "x" {
            x := x + strike;
          } else {
            y := y + strike;
          }
      }
    }
    assert questions[..|questions|] == questions;
    assert answers[..|answers|] == answers;
  }

  /** Questions are scored one after another: the totals of two runs of
      questions add up. */
  lemma TotalsAppend(a: seq<Question>, ra: seq<Option<string>>,
                     b: seq<Question>, rb: seq<Option<string>>)
    requires |ra| == |a| && |rb| == |b|
    ensures Totals(a + b, ra + rb) == Add(Totals(a, ra), Totals(b, rb))
  {
    ContributionsAppend(a, ra, b, rb);
    SumAppend(Contributions(a, ra), Contributions(b, rb));
  }

  /** A question whose call failed changes neither total: the result is the
      same as if the question were not in the table. */
  lemma FailedQuestionContributesNothing(a: seq<Question>, ra: seq<Option<string>>, q: Question,
                                         b: seq<Question>, rb: seq<Option<string>>)
    requires |ra| == |a| && |rb| == |b|
    ensures Totals(a + [q] + b, ra + [Option<string>.None] + rb) == Totals(a + b, ra + rb)
  {
    var failed: seq<Option<string>> := [None];
    calc {
      Totals(a + [q] + b, ra + failed + rb);
      { TotalsAppend(a + [q], ra + failed, b, rb); }
      Add(Totals(a + [q], ra + failed), Totals(b, rb));
      { TotalsSnoc(a, ra, q, None); }
      Add(Add(Totals(a, ra), Point(0.0, 0.0)), Totals(b, rb));
      Add(Totals(a, ra), Totals(b, rb));
      { TotalsAppend(a, ra, b, rb); }
      Totals(a + b, ra + rb);
    }
  }

  /** The sum of the absolute weights of the questions. */
  function WeightSum(qs: seq<Question>): real {
    if |qs| == 0 then 0.0 else WeightSum(qs[..|qs| - 1]) + Abs(qs[|qs| - 1].units)
  }

  /** However the model answers, the raw totals stay within the table's total
      weight. */
  lemma {:induction false} TotalsBounded(qs: seq<Question>, replies: seq<Option<string>>)
    requires |replies| == |qs|
    ensures Abs(Totals(qs, replies).x) + Abs(Totals(qs, replies).y) <= WeightSum(qs)
  {
    if |qs| > 0 {
      var n := |qs| - 1;
      var front, answered := qs[..n], replies[..n];
      TotalsLast(qs, replies);
      TotalsBounded(front, answered);
      ContributionShape(qs[n], replies[n]);
      AddWithinBound(Totals(front, answered), Contribution(qs[n], replies[n]),
                     WeightSum(front), Abs(qs[n].units));
    }
  }

  /** The totals are those of all questions but the last, plus the last
      one's contribution. */
  lemma TotalsLast(qs: seq<Question>, replies: seq<Option<string>>)
    requires |replies| == |qs| > 0
    ensures var n := |qs| - 1;
      Totals(qs, replies) == Add(Totals(qs[..n], replies[..n]), Contribution(qs[n], replies[n]))
  {
    var n := |qs| - 1;
    assert qs == qs[..n] + [qs[n]] && replies == replies[..n] + [replies[n]];
    TotalsSnoc(qs[..n], replies[..n], qs[n], replies[n]);
  }

  /** The totals of the first `i + 1` questions, from those of the first
      `i`. */
  lemma TotalsPrefixStep(qs: seq<Question>, replies: seq<Option<string>>, i: nat)
    requires |replies| == |qs| && i < |qs|
    ensures Totals(qs[..i + 1], replies[..i + 1])
      == Add(Totals(qs[..i], replies[..i]), Contribution(qs[i], replies[i]))
  {
    var qs', replies' := qs[..i + 1], replies[..i + 1];
    assert qs'[..i] == qs[..i] && replies'[..i] == replies[..i];
    TotalsLast(qs', replies');
  }

  /** The triangle inequality for the sum of the two coordinates' sizes. */
  lemma AddWithinBound(p: Point, q: Point, bound: real, extra: real)
    requires Abs(p.x) + Abs(p.y) <= bound && Abs(q.x) + Abs(q.y) <= extra
    ensures Abs(Add(p, q).x) + Abs(Add(p, q).y) <= bound + extra
  {
  }

  // ---------------------------------------------------------------------
  // finishing the coordinates

  /** `Math.max(-10, Math.min(10, v))`. */
  function Clamp(v: real): (r: real)
    ensures -10.0 <= r <= 10.0
    ensures -10.0 <= v <= 10.0 ==> r == v
    ensures v > 10.0 ==> r == 10.0
    ensures v < -10.0 ==> r == -10.0
  {
    var upper := if v < 10.0 then v else 10.0;
    if upper > -10.0 then upper else -10.0
  }

  /** `r` has at most two decimal places. */
  predicate IsHundredths(r: real) {
    (r * 100.0).Floor as real == r * 100.0
  }

  /** `Math.round(v * 100) / 100`: `Math.round` takes the floor of v + 1/2,
      so a value half way between two hundredths goes up, towards +infinity. */
  function RoundHundredths(v: real): real {
    (v * 100.0 + 0.5).Floor as real / 100.0
  }

  /** The rounded value has at most two decimals and is the nearest such
      value, ties going up. */
  lemma RoundHundredthsNearest(v: real)
    ensures IsHundredths(RoundHundredths(v))
    ensures v - 0.005 < RoundHundredths(v) <= v + 0.005
  {
    var k := (v * 100.0 + 0.5).Floor;
    assert (k as real / 100.0) * 100.0 == k as real;
  }

  /** A coordinate as it is stored: clamped, then rounded. */
  function ClampRound(v: real): real {
    RoundHundredths(Clamp(v))
  }

  /** A stored coordinate lies in [-10, 10], has at most two decimals, and
      is within half a hundredth of the clamped total. */
  lemma ClampRoundBounds(v: real)
    ensures -10.0 <= ClampRound(v) <= 10.0
    ensures IsHundredths(ClampRound(v))
    ensures Clamp(v) - 0.005 < ClampRound(v) <= Clamp(v) + 0.005
  {
    RoundHundredthsNearest(Clamp(v));
    var r := ClampRound(v);
    var k := (r * 100.0).Floor;
    assert k as real == r * 100.0;
    assert -1001 < k < 1001;
  }

  /** A hundredth is its own rounding. */
  lemma RoundHundredthsOfHundredths(r: real)
    requires IsHundredths(r)
    ensures RoundHundredths(r) == r
  {
    var k := (r * 100.0).Floor;
    assert (r * 100.0 + 0.5).Floor == k;
  }

  /** Finishing a finished coordinate changes nothing. */
  lemma ClampRoundIdempotent(v: real)
    ensures ClampRound(ClampRound(v)) == ClampRound(v)
  {
    ClampRoundBounds(v);
    RoundHundredthsOfHundredths(ClampRound(v));
  }

  /** A larger total never ends up with a smaller coordinate. */
  lemma ClampRoundMonotone(v: real, w: real)
    requires v <= w
    ensures ClampRound(v) <= ClampRound(w)
  {
    var kv := (Clamp(v) * 100.0 + 0.5).Floor;
    var kw := (Clamp(w) * 100.0 + 0.5).Floor;
    assert Clamp(v) <= Clamp(w);
    assert kv <= kw;
    assert ClampRound(v) == kv as real / 100.0;
    assert ClampRound(w) == kw as real / 100.0;
  }

  /** Ties go up, not away from zero: a total of -0.005 is stored as 0 and
      one of 0.005 as 0.01. */
  lemma {:induction false} TiesRoundUp(k: int)
    requires -1000 <= k < 1000
    ensures ClampRound((k as real + 0.5) / 100.0) == (k + 1) as real / 100.0
  {
    var v := (k as real + 0.5) / 100.0;
    assert Clamp(v) == v;
    assert v * 100.0 + 0.5 == (k + 1) as real;
  }
}
