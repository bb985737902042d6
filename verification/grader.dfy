/**
 * The auto-grader run by the submit handler: one pass over a test's ordered
 * questions, pairing question i with the answer at position i, producing one
 * result item per question and the running totals `score` and `maxAuto`.
 */
module Grader {
  import opened Wrappers
  import Text

  /**
   * A question as stored in a test. `kind` is the free-form `type` field;
   * `key` is the reference `answer`, which may be missing.
   */
  datatype Question = Question(kind: string, marks: nat, key: Option<string>)

  /** One line of the per-question breakdown. `correct` is `None` for ungraded questions. */
  datatype Item = Item(
    index: nat,
    kind: string,
    marks: nat,
    response: Option<string>,
    correct: Option<bool>,
    awarded: nat)

  /** What grading returns: the totals and the breakdown. */
  datatype Outcome = Outcome(score: nat, maxAuto: nat, results: seq<Item>)

  /** The submitted answer array, which may itself be missing; entries may be null. */
  type Answers = Option<seq<Option<string>>>

  predicate IsAutoGraded(kind: string) {
    kind == "mcq" || kind == "fill"
  }

  /** `answers?.[i] ?? null`: the answer at position i, absent past the end or when there is no array. */
  function AnswerAt(answers: Answers, i: nat): (a: Option<string>)
    ensures answers.None? ==> a.None?
    ensures answers.Some? && i >= |answers.value| ==> a.None?
    ensures answers.Some? && i < |answers.value| ==> a == answers.value[i]
  {
    match answers
    case None => None
    case Some(xs) => if i < |xs| then xs[i] else None
  }

  /** Grades question `q`, at position `i`, against the response `ans`. */
  function GradeQuestion(q: Question, i: nat, ans: Option<string>): (it: Item)
    ensures it.index == i && it.kind == q.kind && it.marks == q.marks && it.response == ans
    ensures it.correct.Some? <==> IsAutoGraded(q.kind)
    ensures it.awarded == (if it.correct == Some(true) then q.marks else 0)
  {
    if q.kind == "mcq" then
      // exact comparison; a missing response is the empty string, a missing key matches nothing
      var correct := q.key == Some(ans.GetOr(""));
      Item(i, q.kind, q.marks, ans, Some(correct), if correct then q.marks else 0)
    else if q.kind == "fill" then
      var correct := Text.NormOpt(ans) == Text.NormOpt(q.key);
      Item(i, q.kind, q.marks, ans, Some(correct), if correct then q.marks else 0)
    else
      // "long" and every unrecognised type: not graded
      Item(i, q.kind, q.marks, ans, None, 0)
  }

  /** What one question contributes to `maxAuto`. */
  function Ceiling(q: Question): nat {
    if IsAutoGraded(q.kind) then q.marks else 0
  }

  /** Reference definition: the sum of `marks` over the mcq and fill questions. */
  function AutoMarks(qs: seq<Question>): nat {
    if qs == [] then 0 else Ceiling(qs[0]) + AutoMarks(qs[1..])
  }

  /** Reference definition: the sum of `awarded` over a breakdown. */
  function SumAwarded(items: seq<Item>): nat {
    if items == [] then 0 else items[0].awarded + SumAwarded(items[1..])
  }

  lemma {:induction false} SumAwardedAppend(items: seq<Item>, it: Item)
    ensures SumAwarded(items + [it]) == SumAwarded(items) + it.awarded
    decreases |items|
  {
    if items == [] {
      assert items + [it] == [it];
    } else {
      assert (items + [it])[1..] == items[1..] + [it];
      SumAwardedAppend(items[1..], it);
    }
  }

  /**
   * The single pass of the source: questions `i..` are graded in order while
   * `acc` carries the totals and items accumulated over questions `..i`.
   */
  function Fold(qs: seq<Question>, answers: Answers, i: nat, acc: Outcome): (r: Outcome)
    requires i <= |qs|
    requires |acc.results| == i
    ensures |r.results| == |qs|
    ensures r.results[..i] == acc.results
    ensures forall j :: i <= j < |qs| ==> r.results[j] == GradeQuestion(qs[j], j, AnswerAt(answers, j))
    ensures r.maxAuto == acc.maxAuto + AutoMarks(qs[i..])
    ensures r.score == acc.score + SumAwarded(r.results) - SumAwarded(acc.results)
    ensures r.score + acc.maxAuto <= r.maxAuto + acc.score
    decreases |qs| - i
  {
    if i == |qs| then acc
    else
      var q := qs[i];
      var it := GradeQuestion(q, i, AnswerAt(answers, i));
      var r := Fold(qs, answers, i + 1, Outcome(acc.score + it.awarded, acc.maxAuto + Ceiling(q), acc.results + [it]));
      assert qs[i..][1..] == qs[i + 1..];
      assert r.results[..i] == (acc.results + [it])[..i];
      SumAwardedAppend(acc.results, it);
      assert r.results[i] == (acc.results + [it])[i] == it;
      r
  }

  /**
   * Grades a whole submission. The breakdown is aligned with the questions,
   * `maxAuto` is the auto-gradable total whatever the answers, `score` is the
   * sum of the awarded marks and never exceeds `maxAuto`.
   */
  function Grade(qs: seq<Question>, answers: Answers): (r: Outcome)
    ensures |r.results| == |qs|
    ensures forall i :: 0 <= i < |qs| ==> r.results[i] == GradeQuestion(qs[i], i, AnswerAt(answers, i))
    ensures r.maxAuto == AutoMarks(qs)
    ensures r.score == SumAwarded(r.results)
    ensures r.score <= r.maxAuto
  {
    assert qs[0..] == qs;
    Fold(qs, answers, 0, Outcome(0, 0, []))
  }

  /** `maxAuto` depends on the questions only, never on the answers. */
  lemma MaxAutoIgnoresAnswers(qs: seq<Question>, a: Answers, b: Answers)
    ensures Grade(qs, a).maxAuto == Grade(qs, b).maxAuto == AutoMarks(qs)
  {
  }

  /** Answers past the last question are never read. */
  lemma ExtraAnswersIgnored(qs: seq<Question>, a: Answers, b: Answers)
    requires forall i :: 0 <= i < |qs| ==> AnswerAt(a, i) == AnswerAt(b, i)
    ensures Grade(qs, a) == Grade(qs, b)
  {
    var ra, rb := Grade(qs, a), Grade(qs, b);
    assert ra.results == rb.results;
  }

  /** The mcq rule: exact, case- and whitespace-sensitive equality; a missing answer counts as "". */
  lemma McqRule(q: Question, i: nat, ans: Option<string>)
    requires q.kind == "mcq"
    ensures var it := GradeQuestion(q, i, ans);
      && (it.correct == Some(true) <==> q.key.Some? && q.key.value == ans.GetOr(""))
      && it.correct.Some?
      && it.awarded == (if q.key == Some(ans.GetOr("")) then q.marks else 0)
  {
  }

  /**
   * The fill rule, against the reference normal form: correct exactly when the
   * answer and the key agree on their non-whitespace characters, lower-cased.
   */
  lemma FillRule(q: Question, i: nat, ans: Option<string>)
    requires q.kind == "fill"
    ensures var it := GradeQuestion(q, i, ans);
      && (it.correct == Some(true) <==> Text.Canonical(ans.GetOr("")) == Text.Canonical(q.key.GetOr("")))
      && it.correct.Some?
      && (it.awarded == q.marks || it.awarded == 0)
  {
    var a, k := ans.GetOr(""), q.key.GetOr("");
    assert Text.NormOpt(ans) == Text.Norm(a) && Text.NormOpt(q.key) == Text.Norm(k);
    Text.NormIsCanonical(a);
    Text.NormIsCanonical(k);
  }

  /** Long and unrecognised questions: no verdict and nothing awarded, whatever the answer. */
  lemma UngradedRule(qs: seq<Question>, answers: Answers, i: nat)
    requires i < |qs| && !IsAutoGraded(qs[i].kind)
    ensures Grade(qs, answers).results[i].correct.None?
    ensures Grade(qs, answers).results[i].awarded == 0
  {
  }

  /** Long and unrecognised questions add nothing to `maxAuto`. */
  lemma UngradedAddsNoMarks(qs: seq<Question>, i: nat)
    requires i < |qs| && !IsAutoGraded(qs[i].kind)
    ensures AutoMarks(qs) == AutoMarks(qs[..i]) + AutoMarks(qs[i + 1..])
  {
    AutoMarksSplit(qs, i);
  }

  lemma {:induction false} AutoMarksSplit(qs: seq<Question>, i: nat)
    requires i < |qs|
    ensures AutoMarks(qs) == AutoMarks(qs[..i]) + Ceiling(qs[i]) + AutoMarks(qs[i + 1..])
    decreases i
  {
    if i > 0 {
      assert qs[1..][..i - 1] == qs[1..i];
      assert qs[1..][i..] == qs[i + 1..];
      AutoMarksSplit(qs[1..], i - 1);
      assert qs[..i][1..] == qs[1..i];
    } else {
      assert qs[1..] == qs[i + 1..];
    }
  }

  /** The mcq comparison is case- and whitespace-sensitive: with key "B", only "B" scores. */
  lemma McqExample(q: Question, i: nat)
    requires q.kind == "mcq" && q.key == Some("B")
    ensures GradeQuestion(q, i, Some("B")).awarded == q.marks
    ensures GradeQuestion(q, i, Some("b")).awarded == 0
    ensures GradeQuestion(q, i, Some(" B ")).awarded == 0
    ensures GradeQuestion(q, i, None).correct == Some(false)
  {
  }

  /** Worked example: a long question neither scores nor raises `maxAuto`. */
  lemma ExampleWithLong(qs: seq<Question>, answers: Answers)
    requires qs == [Question("mcq", 5, Some("A")), Question("long", 10, None)]
    requires answers == Some([Some("A"), Some("an essay")])
    ensures var r := Grade(qs, answers);
      && r.score == 5 && r.maxAuto == 5
      && r.results[0].correct == Some(true) && r.results[1].correct == None
      && r.results[1].response == Some("an essay")
  {
    var r := Grade(qs, answers);
    assert r.results[0].awarded == 5 && r.results[1].awarded == 0;
    assert SumAwarded(r.results) == 5 by {
      assert r.results[1..][1..] == [];
    }
    assert Ceiling(qs[1]) == 0 by {
      assert qs[1].kind[0] == 'l';
    }
    assert AutoMarks(qs[1..]) == 0 by {
      assert qs[1..][0] == qs[1] && qs[1..][1..] == [];
    }
  }
}
