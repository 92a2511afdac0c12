/**
 * The shape of a stored poll (models/Poll.js) and the small wrappers the
 * operations use for JavaScript's `undefined`, thrown errors and results.
 */
module PollTypes {

  /** A JavaScript value that may be `undefined` (an absent form field, `NaN`, `null`). */
  datatype Field<+T> = Undefined | Defined(value: T)

  /** A completed computation or the error it threw. */
  datatype Result<+T, +E> = Ok(value: T) | Err(error: E)

  /** A computation that has no value of its own: it completed, or it threw. */
  datatype Outcome<+E> = Pass | Fail(error: E)

  /** One selectable answer of a question and the number of times it was chosen. */
  datatype PollOption = PollOption(name: string, responses: nat)

  /** One prompt of a poll with its ordered options and its running total. */
  datatype Question = Question(question: string, totalResponses: nat, options: seq<PollOption>)

  /**
   * A poll document as a value. `dateCreated` is a timestamp; `createdBy` and
   * the entries of `usersResponded` are session usernames.
   */
  datatype PollState = PollState(
    title: Field<string>,
    description: Field<string>,
    totalResponses: nat,
    dateCreated: int,
    createdBy: string,
    questions: seq<Question>,
    usersResponded: seq<string>)

  /** Sum of the `responses` counters of a list of options. */
  function SumResponses(options: seq<PollOption>): nat
  {
    if options == [] then 0 else SumResponses(options[..|options| - 1]) + options[|options| - 1].responses
  }
}
