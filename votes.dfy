/**
 * What updatePollResponses (app.js:118-136) does to a poll, as functions on
 * poll values. The submitted body maps question indices (as field names) to
 * the chosen option's name; for each field, every option of that question
 * whose name equals the answer gets one more response, and so does the
 * question. Then the poll gets one more response and the username is
 * appended to `usersResponded` -- whether or not anything matched, and
 * whether or not the user had voted before.
 */
module Votes {
  import opened PollTypes
  import opened JsBuiltins
  import opened PollForm

  /** The submitted body: (question index as a field name, chosen option name), in enumeration order. */
  type Responses = seq<(string, string)>

  datatype VoteError =
    | NoSuchQuestion(key: string)   // the field name is not the index of a question: the walk dereferences `undefined`
    | DuplicateVote                 // only raised by the guarded vote, see GuardedVote

  /** The number of options named `answer`. */
  function MatchCount(options: seq<PollOption>, answer: string): nat
  {
    if options == [] then 0
    else MatchCount(options[..|options| - 1], answer) + (if options[|options| - 1].name == answer then 1 else 0)
  }

  function TallyOption(o: PollOption, answer: string): PollOption
  {
    if o.name == answer then o.(responses := o.responses + 1) else o
  }

  function TallyOptions(options: seq<PollOption>, answer: string): seq<PollOption>
  {
    seq(|options|, k requires 0 <= k < |options| => TallyOption(options[k], answer))
  }

  /** One answer applied to one question: matching options and the question each gain one response per match. */
  function TallyQuestion(q: Question, answer: string): (r: Question)
    ensures r.question == q.question && |r.options| == |q.options|
    ensures forall k :: 0 <= k < |q.options| ==>
      r.options[k].name == q.options[k].name &&
      r.options[k].responses == q.options[k].responses + (if q.options[k].name == answer then 1 else 0)
  {
    Question(q.question, q.totalResponses + MatchCount(q.options, answer), TallyOptions(q.options, answer))
  }

  /** `poll.questions[parseInt(key)]` names a question. */
  function QuestionIndex(key: string, count: nat): (r: Field<nat>)
    ensures r.Defined? <==> ParseInt(key).Defined? && ParseInt(key).value < count
    ensures r.Defined? ==> r == ParseInt(key)
  {
    match ParseInt(key)
    case Defined(n) => if n < count then Defined(n) else Undefined
    case Undefined => Undefined
  }

  /** The field name the vote form gives question `i` (its decimal index) names question `i`. */
  lemma QuestionIndexOfDecimal(i: nat, count: nat)
    requires i < count
    ensures QuestionIndex(DecimalString(i), count) == Defined(i)
  {
    assert DecimalString(i) + [] == DecimalString(i);
    ParseIntDecimalString(i, []);
  }

  /** The questions as the walk over the body leaves them, and the field it threw at, if any. */
  datatype Tally = Tally(questions: seq<Question>, failedAt: Field<string>)

  function ApplyResponses(questions: seq<Question>, responses: Responses): (r: Tally)
    ensures |r.questions| == |questions|
    ensures r.failedAt.Defined? ==> QuestionIndex(r.failedAt.value, |questions|).Undefined?
    decreases |responses|
  {
    if responses == [] then Tally(questions, Undefined)
    else match QuestionIndex(responses[0].0, |questions|)
      case Undefined => Tally(questions, Defined(responses[0].0))
      case Defined(i) =>
        ApplyResponses(questions[i := TallyQuestion(questions[i], responses[0].1)], responses[1..])
  }

  /** The poll after one vote by `username`, or the error the walk throws. */
  function Vote(poll: PollState, responses: Responses, username: string): (r: Result<PollState, VoteError>)
    ensures r.Err? ==> r.error.NoSuchQuestion? && QuestionIndex(r.error.key, |poll.questions|).Undefined?
  {
    var t := ApplyResponses(poll.questions, responses);
    match t.failedAt
    case Defined(key) => Err(NoSuchQuestion(key))
    case Undefined =>
      Ok(poll.(questions := t.questions,
               totalResponses := poll.totalResponses + 1,
               usersResponded := poll.usersResponded + [username]))
  }

  /** Same questions and the same option names in the same order: only counters may differ. */
  ghost predicate SameShape(a: seq<Question>, b: seq<Question>)
  {
    |a| == |b| &&
    forall i :: 0 <= i < |a| ==>
      a[i].question == b[i].question && |a[i].options| == |b[i].options| &&
      forall k :: 0 <= k < |a[i].options| ==> a[i].options[k].name == b[i].options[k].name
  }

  /** How far a question's total is above the sum of its options' counters. */
  function Excess(q: Question): int
  {
    q.totalResponses - SumResponses(q.options)
  }

  /** Number of body fields that pick option `name` of question `index`. */
  function Hits(responses: Responses, count: nat, index: nat, name: string): nat
  {
    if responses == [] then 0
    else (if QuestionIndex(responses[0].0, count) == Defined(index) && responses[0].1 == name then 1 else 0)
         + Hits(responses[1..], count, index, name)
  }

  /** Tallying adds to the options exactly what it adds to the question. */
  lemma {:induction false} TallyKeepsExcess(q: Question, answer: string)
    ensures Excess(TallyQuestion(q, answer)) == Excess(q)
    ensures SameShape([q], [TallyQuestion(q, answer)])
  {
    TalliedSum(q.options, answer);
  }

  lemma {:induction false} TalliedSum(options: seq<PollOption>, answer: string)
    ensures SumResponses(TallyOptions(options, answer)) == SumResponses(options) + MatchCount(options, answer)
  {
    if options != [] {
      var n := |options|;
      var init := options[..n - 1];
      assert TallyOptions(options, answer)[..n - 1] == TallyOptions(init, answer);
      TalliedSum(init, answer);
    }
  }

  /** The walk never changes prompts, option names or the number of questions and options. */
  lemma {:induction false} ApplyResponsesKeepsShape(questions: seq<Question>, responses: Responses)
    ensures SameShape(questions, ApplyResponses(questions, responses).questions)
    decreases |responses|
  {
    if responses != [] {
      match QuestionIndex(responses[0].0, |questions|)
      case Undefined =>
      case Defined(i) =>
        var next := questions[i := TallyQuestion(questions[i], responses[0].1)];
        TallyKeepsExcess(questions[i], responses[0].1);
        ApplyResponsesKeepsShape(next, responses[1..]);
    }
  }

  /** Every question keeps its total minus the sum of its options' counters. */
  lemma {:induction false} ApplyResponsesKeepsExcess(questions: seq<Question>, responses: Responses, i: nat)
    requires i < |questions|
    ensures |ApplyResponses(questions, responses).questions| == |questions|
    ensures Excess(ApplyResponses(questions, responses).questions[i]) == Excess(questions[i])
    decreases |responses|
  {
    ApplyResponsesKeepsShape(questions, responses);
    if responses != [] {
      match QuestionIndex(responses[0].0, |questions|)
      case Undefined =>
      case Defined(j) =>
        var next := questions[j := TallyQuestion(questions[j], responses[0].1)];
        TallyKeepsExcess(questions[j], responses[0].1);
        ApplyResponsesKeepsExcess(next, responses[1..], i);
    }
  }

  /**
   * A completed walk leaves each option with its old counter plus one per
   * field that answers its question with its name.
   */
  lemma {:induction false} ApplyResponsesCountsHits(questions: seq<Question>, responses: Responses, i: nat, k: nat)
    requires ApplyResponses(questions, responses).failedAt.Undefined?
    requires i < |questions| && k < |questions[i].options|
    ensures var after := ApplyResponses(questions, responses).questions;
      |after| == |questions| && |after[i].options| == |questions[i].options| &&
      after[i].options[k] == questions[i].options[k].(
        responses := questions[i].options[k].responses + Hits(responses, |questions|, i, questions[i].options[k].name))
    decreases |responses|
  {
    ApplyResponsesKeepsShape(questions, responses);
    if responses != [] {
      match QuestionIndex(responses[0].0, |questions|)
      case Undefined =>
      case Defined(j) =>
        var next := questions[j := TallyQuestion(questions[j], responses[0].1)];
        ApplyResponsesCountsHits(next, responses[1..], i, k);
    }
  }

  /** A question no field points at comes out exactly as it went in. */
  lemma {:induction false} ApplyResponsesSkipsUnanswered(questions: seq<Question>, responses: Responses, i: nat)
    requires i < |questions|
    requires forall j :: 0 <= j < |responses| ==> QuestionIndex(responses[j].0, |questions|) != Defined(i)
    ensures |ApplyResponses(questions, responses).questions| == |questions|
    ensures ApplyResponses(questions, responses).questions[i] == questions[i]
    decreases |responses|
  {
    ApplyResponsesKeepsShape(questions, responses);
    if responses != [] {
      match QuestionIndex(responses[0].0, |questions|)
      case Undefined =>
      case Defined(j) =>
        var next := questions[j := TallyQuestion(questions[j], responses[0].1)];
        assert forall m :: 0 <= m < |responses| - 1 ==> responses[1..][m] == responses[m + 1];
        ApplyResponsesSkipsUnanswered(next, responses[1..], i);
    }
  }

  /** The walk throws exactly at the first field that does not name a question. */
  lemma {:induction false} ApplyResponsesFailsAtFirstBadKey(questions: seq<Question>, responses: Responses)
    ensures var t := ApplyResponses(questions, responses);
      t.failedAt.Defined? <==> exists j :: 0 <= j < |responses| && QuestionIndex(responses[j].0, |questions|).Undefined?
    ensures var t := ApplyResponses(questions, responses);
      t.failedAt.Defined? ==>
        exists j :: 0 <= j < |responses| && responses[j].0 == t.failedAt.value &&
          QuestionIndex(responses[j].0, |questions|).Undefined? &&
          forall m :: 0 <= m < j ==> QuestionIndex(responses[m].0, |questions|).Defined?
    decreases |responses|
  {
    if responses != [] {
      match QuestionIndex(responses[0].0, |questions|)
      case Undefined =>
      case Defined(i) =>
        var next := questions[i := TallyQuestion(questions[i], responses[0].1)];
        var rest := responses[1..];
        ApplyResponsesFailsAtFirstBadKey(next, rest);
        assert forall m :: 1 <= m < |responses| ==> responses[m] == rest[m - 1];
        if ApplyResponses(next, rest).failedAt.Defined? {
          var j :| 0 <= j < |rest| && rest[j].0 == ApplyResponses(next, rest).failedAt.value &&
            QuestionIndex(rest[j].0, |next|).Undefined? &&
            forall m :: 0 <= m < j ==> QuestionIndex(rest[m].0, |next|).Defined?;
          assert forall m :: 0 <= m < j + 1 ==> QuestionIndex(responses[m].0, |questions|).Defined? by {
            forall m | 0 <= m < j + 1 ensures QuestionIndex(responses[m].0, |questions|).Defined? {
              if m > 0 { assert responses[m] == rest[m - 1]; }
            }
          }
        }
    }
  }

  /**
   * The counter invariant a poll has from creation on: the poll total equals
   * the number of recorded voters, and every question total equals the sum
   * of its options' counters.
   */
  ghost predicate Consistent(poll: PollState)
  {
    poll.totalResponses == |poll.usersResponded| &&
    forall i :: 0 <= i < |poll.questions| ==> Excess(poll.questions[i]) == 0
  }

  /**
   * A vote keeps both differences (poll total minus voters, question total
   * minus option counters), so it keeps a consistent poll consistent.
   */
  lemma VoteKeepsCounterDifferences(poll: PollState, responses: Responses, username: string)
    requires Vote(poll, responses, username).Ok?
    ensures var after := Vote(poll, responses, username).value;
      after.totalResponses == poll.totalResponses + 1 &&
      after.usersResponded == poll.usersResponded + [username] &&
      after.title == poll.title && after.description == poll.description &&
      after.dateCreated == poll.dateCreated && after.createdBy == poll.createdBy &&
      |after.questions| == |poll.questions| &&
      (forall i :: 0 <= i < |poll.questions| ==> Excess(after.questions[i]) == Excess(poll.questions[i])) &&
      (Consistent(poll) ==> Consistent(after))
  {
    var after := Vote(poll, responses, username).value;
    forall i | 0 <= i < |poll.questions|
      ensures |after.questions| == |poll.questions| && Excess(after.questions[i]) == Excess(poll.questions[i])
    {
      ApplyResponsesKeepsExcess(poll.questions, responses, i);
    }
    ApplyResponsesKeepsShape(poll.questions, responses);
  }

  /** A vote is refused exactly when some field does not name a question; nothing else can stop it. */
  lemma VoteFailsIff(poll: PollState, responses: Responses, username: string)
    ensures Vote(poll, responses, username).Err? <==>
      exists j :: 0 <= j < |responses| && QuestionIndex(responses[j].0, |poll.questions|).Undefined?
  {
    ApplyResponsesFailsAtFirstBadKey(poll.questions, responses);
  }

  /** A freshly parsed poll, with no votes yet, satisfies the counter invariant. */
  lemma ParsedPollIsConsistent(data: Form, dateCreated: int, username: string)
    ensures Consistent(PollState(Lookup(data, "title"), Lookup(data, "description"), 0, dateCreated, username,
                                 QuestionsOf(data), []))
  {
    ParsedCountersAreZero(data);
    forall q | q in QuestionsOf(data) ensures SumResponses(q.options) == 0 {
      ZeroOptionsSumToZero(q.options);
    }
  }

  lemma {:induction false} ZeroOptionsSumToZero(options: seq<PollOption>)
    requires forall o :: o in options ==> o.responses == 0
    ensures SumResponses(options) == 0
  {
    if options != [] {
      ZeroOptionsSumToZero(options[..|options| - 1]);
    }
  }

  /** No username occurs twice. */
  ghost predicate NoDuplicates(users: seq<string>)
  {
    forall i, j :: 0 <= i < j < |users| ==> users[i] != users[j]
  }

  /**
   * As written, the vote route does not consult `usersResponded`: a second
   * vote by the same user is counted again and records the user twice.
   */
  lemma RepeatVoteIsCounted(poll: PollState, first: Responses, second: Responses, username: string)
    requires Vote(poll, first, username).Ok?
    requires Vote(Vote(poll, first, username).value, second, username).Ok?
    ensures var twice := Vote(Vote(poll, first, username).value, second, username).value;
      twice.totalResponses == poll.totalResponses + 2 && !NoDuplicates(twice.usersResponded)
  {
    var twice := Vote(Vote(poll, first, username).value, second, username).value;
    var n := |poll.usersResponded|;
    assert twice.usersResponded[n] == twice.usersResponded[n + 1];
  }

  /**
   * The vote with the check the poll page makes (app.js:240) applied on
   * submission too: a user already in `usersResponded` is refused, every
   * other vote is the unguarded one. No user is then recorded twice, and
   * the counters stay consistent.
   */
  function GuardedVote(poll: PollState, responses: Responses, username: string): (r: Result<PollState, VoteError>)
    ensures r == Err(DuplicateVote) <==> username in poll.usersResponded
    ensures username !in poll.usersResponded ==> r == Vote(poll, responses, username)
    ensures r.Ok? && NoDuplicates(poll.usersResponded) ==> NoDuplicates(r.value.usersResponded)
    ensures r.Ok? && Consistent(poll) ==> Consistent(r.value)
  {
    if ArrayIncludes(poll.usersResponded, username) then Err(DuplicateVote)
    else
      var r := Vote(poll, responses, username);
      if r.Ok? then
        VoteKeepsCounterDifferences(poll, responses, username);
        r
      else r
  }

  /**
   * The form's question answered "A" by "alice": option "A" and the question
   * count one response, option "B" none; a second submission by "alice" is
   * refused only by the guarded vote.
   */
  lemma OneQuestionVoteScenario()
    ensures var poll := PollState(Defined("T"), Defined("D"), 0, 0, "bob", ExampleQuestions(), []);
      Vote(poll, [("0", "A")], "alice") ==
        Ok(poll.(questions := [Question("Q1", 1, [PollOption("A", 1), PollOption("B", 0)])],
                 totalResponses := 1, usersResponded := ["alice"])) &&
      GuardedVote(Vote(poll, [("0", "A")], "alice").value, [("0", "B")], "alice") == Err(DuplicateVote)
  {
    assert LeadingDigits("0") == "0";
    assert DecimalValue("0") == 0;
    assert QuestionIndex("0", 1) == Defined(0);
    var options := [PollOption("A", 0), PollOption("B", 0)];
    assert options[..1] == [PollOption("A", 0)];
    assert MatchCount(options, "A") == 1;
    assert TallyOptions(options, "A") == [PollOption("A", 1), PollOption("B", 0)];
    var q := ExampleQuestions()[0];
    assert TallyQuestion(q, "A") == Question("Q1", 1, [PollOption("A", 1), PollOption("B", 0)]);
    var responses := [("0", "A")];
    assert responses[1..] == [];
    var tallied := ExampleQuestions()[0 := TallyQuestion(q, "A")];
    assert ApplyResponses(ExampleQuestions(), responses) == ApplyResponses(tallied, []);
    assert tallied == [Question("Q1", 1, [PollOption("A", 1), PollOption("B", 0)])];
    assert [] + ["alice"] == ["alice"];
    assert ArrayIncludes(["alice"], "alice");
  }
}
