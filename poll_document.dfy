/**
 * A poll document held in memory by a route handler: createPollAndUpsert
 * (app.js:138-143) builds one, updatePollResponses (app.js:118-136) changes
 * its counters and voter list in place. Persisting the document (`save`,
 * `findOneAndUpdate`) is not modelled: the stored poll is the object's state
 * after a call that returns `Pass`; after `Fail` nothing is written, and the
 * stored poll is the state before the call.
 */
module PollDocument {
  import opened PollTypes
  import opened JsBuiltins
  import opened PollForm
  import opened Votes

  class Poll {
    var title: Field<string>
    var description: Field<string>
    var totalResponses: nat
    var dateCreated: int
    var createdBy: string
    var questions: seq<Question>
    var usersResponded: seq<string>

    /** The document as a value. */
    function State(): PollState
      reads this
    {
      PollState(title, description, totalResponses, dateCreated, createdBy, questions, usersResponded)
    }

    /**
     * createPollAndUpsert without the save: no responses yet, created by
     * `username` at `dateCreated` (the clock reading the route takes).
     */
    constructor (title: Field<string>, description: Field<string>, questions: seq<Question>,
                 username: string, dateCreated: int)
      ensures State() == PollState(title, description, 0, dateCreated, username, questions, [])
    {
      this.title := title;
      this.description := description;
      this.totalResponses := 0;
      this.dateCreated := dateCreated;
      this.createdBy := username;
      this.questions := questions;
      this.usersResponded := [];
    }

    /**
     * updatePollResponses without the write-back. On a field that does not
     * name a question the walk throws: the questions tallied before it stay
     * changed in memory, the poll total and voter list do not.
     */
    method UpdatePollResponses(responses: Responses, username: string) returns (outcome: Outcome<VoteError>)
      modifies this
      ensures questions == ApplyResponses(old(questions), responses).questions
      ensures outcome.Pass? ==> Vote(old(State()), responses, username) == Ok(State())
      ensures outcome.Fail? ==> Vote(old(State()), responses, username) == Err(outcome.error)
      ensures outcome.Fail? ==> totalResponses == old(totalResponses) && usersResponded == old(usersResponded)
      ensures title == old(title) && description == old(description) &&
              dateCreated == old(dateCreated) && createdBy == old(createdBy)
    {
      var i := 0;
      while i < |responses|
        invariant 0 <= i <= |responses|
        invariant ApplyResponses(questions, responses[i..]) == ApplyResponses(old(questions), responses)
        invariant totalResponses == old(totalResponses) && usersResponded == old(usersResponded)
        invariant title == old(title) && description == old(description) &&
                  dateCreated == old(dateCreated) && createdBy == old(createdBy)
      {
        var (key, answer) := responses[i];
        assert responses[i..][1..] == responses[i + 1..];
        var index := ParseInt(key);
        if index.Undefined? || index.value >= |questions| {
          return Fail(NoSuchQuestion(key));
        }
        TallyQuestionAt(index.value, answer);
        i := i + 1;
      }
      assert responses[i..] == [];
      totalResponses := totalResponses + 1;
      usersResponded := usersResponded + [username];
      return Pass;
    }

    /**
     * The inner loop of updatePollResponses: every option of question
     * `index` named `answer` gains a response, and so does the question.
     */
    method TallyQuestionAt(index: nat, answer: string)
      requires index < |questions|
      modifies this`questions
      ensures questions == old(questions)[index := TallyQuestion(old(questions)[index], answer)]
    {
      var question := questions[index];
      var j := 0;
      while j < |question.options|
        invariant 0 <= j <= |question.options|
        invariant |questions| == |old(questions)|
        invariant questions == old(questions)[index := questions[index]]
        invariant questions[index].question == question.question
        invariant |questions[index].options| == |question.options|
        invariant forall k :: 0 <= k < j ==> questions[index].options[k] == TallyOption(question.options[k], answer)
        invariant forall k :: j <= k < |question.options| ==> questions[index].options[k] == question.options[k]
        invariant questions[index].totalResponses == question.totalResponses + MatchCount(question.options[..j], answer)
      {
        assert question.options[..j + 1][..j] == question.options[..j];
        var current := questions[index];
        if current.options[j].name == answer {
          var option := current.options[j];
          questions := questions[index := current.(
            options := current.options[j := option.(responses := option.responses + 1)],
            totalResponses := current.totalResponses + 1)];
        }
        j := j + 1;
      }
      assert question.options[..j] == question.options;
      assert questions[index].options == TallyOptions(question.options, answer);
    }
  }

  /**
   * The "make a poll" submission (app.js:278-286): parse the form, then build
   * the poll for the session's user. A form that throws builds nothing.
   */
  method MakePoll(data: Form, username: string, now: int) returns (r: Result<Poll, ParseError>)
    ensures r.Err? <==> LeadingOptions(data) != []
    ensures r.Ok? ==> fresh(r.value)
    ensures r.Ok? ==> r.value.State() == PollState(Lookup(data, "title"), Lookup(data, "description"), 0, now,
                                                   username, QuestionsOf(data), [])
    ensures r.Ok? ==> Consistent(r.value.State())
  {
    var draft := ParsePollData(data);
    match draft
    case Err(e) =>
      return Err(e);
    case Ok(d) =>
      var poll := new Poll(d.title, d.description, d.questions, username, now);
      ParsedPollIsConsistent(data, now, username);
      return Ok(poll);
  }

  /**
   * The vote submission with the poll page's check
   * (`poll.usersResponded.includes(username)`) applied, see GuardedVote: a
   * user already recorded is refused and the poll is left as it was; any
   * other vote is updatePollResponses.
   */
  method SubmitVote(poll: Poll, responses: Responses, username: string) returns (outcome: Outcome<VoteError>)
    modifies poll
    ensures username in old(poll.usersResponded) ==> outcome == Fail(DuplicateVote) && unchanged(poll)
    ensures username !in old(poll.usersResponded) ==>
      poll.questions == ApplyResponses(old(poll.questions), responses).questions
    ensures outcome.Pass? ==> GuardedVote(old(poll.State()), responses, username) == Ok(poll.State())
    ensures outcome.Fail? ==> GuardedVote(old(poll.State()), responses, username) == Err(outcome.error)
    ensures outcome.Fail? ==> poll.totalResponses == old(poll.totalResponses) &&
                              poll.usersResponded == old(poll.usersResponded)
    ensures poll.title == old(poll.title) && poll.description == old(poll.description) &&
            poll.dateCreated == old(poll.dateCreated) && poll.createdBy == old(poll.createdBy)
  {
    if ArrayIncludes(poll.usersResponded, username) {
      return Fail(DuplicateVote);
    }
    outcome := poll.UpdatePollResponses(responses, username);
  }
}
