# Poll logic of the polling web application

A Dafny model of the poll logic of a small Express/Mongoose polling site:

- turning the "make a poll" form into a poll (`parsePollData`, `createPollAndUpsert`);
- applying one user's answers to a poll's counters (`updatePollResponses`);
- the "has this user already answered" check of the poll page;
- ordering the poll list by the label the user picks on the list page.

Modules, one per component:

- `PollTypes` (poll_types.dfy): the poll document shape of models/Poll.js as datatypes.
  - `PollState` holds the poll; `Question` and `PollOption` hold its parts.
  - `Field<T>` stands for a JavaScript value that may be `undefined`.
  - `Result` and `Outcome` stand for a call that completes or throws.
- `JsBuiltins` (js_builtins.dfy): the JavaScript built-ins the logic relies on.
  - `String.prototype.includes` is `StringIncludes`.
  - `parseInt` without a radix is `ParseInt`: decimal digits, or hexadecimal ones after a "0x" prefix.
  - `Array.prototype.includes` is `ArrayIncludes`.
- `PollForm` (poll_form.dfy): `parsePollData` as an imperative walk over the form fields (`ParsePollData`).
  - It is proved against a declarative description: one question per field whose name contains "question", holding the option fields that follow it (`QuestionsOf`, `LeadingOptions`).
- `Votes` (votes.dfy): what a vote does to a poll, as functions on poll values (`Vote`, `ApplyResponses`, `TallyQuestion`), with the lemmas about them.
- `PollDocument` (poll_document.dfy): the poll document as a `class Poll` whose fields change in place.
  - The constructor is `createPollAndUpsert` without the save.
  - `UpdatePollResponses` holds the nested loops of `updatePollResponses`. Its inner loop is the class method `TallyQuestionAt`.
  - Both are proved against `Votes.Vote`.
- `PollListing` (poll_listing.dfy): the `POST /polls` ordering.
  - The label picks a comparator (`SortOrderFor`, `Compare`), then a stable sort orders the polls (`SortPolls`).

A form or a request body is a `seq<(string, string)>` of (field name, value) pairs, in the order a `for … in` loop visits the object's keys. Dates are `int` timestamps and counters are `nat`.

Where the behaviour intended for the system and the code disagree, the model follows the code:

- The vote route (app.js:249-254) does not check `usersResponded`. A repeated vote is counted again and the user is recorded twice (`RepeatVoteIsCounted`). Only the poll page (app.js:240) checks. See Findings: `GuardedVote` adds the check and its contract proves no user is then recorded twice; `SubmitVote` uses it.
- A body field that does not name a question is not skipped. `poll.questions[parseInt(key)]` is `undefined`, so the walk throws (`VoteFailsIff`). The questions tallied before that field stay changed in memory. The poll total and `usersResponded` do not change, and nothing is written back. A field whose answer matches no option changes nothing, as intended.
- `GET /polls` does not sort at all: it only sets the label shown on the page. Only `POST /polls` sorts, and an absent or unknown label keeps the list's order (`ListPollsOrder`).
- In every poll built from the form, a question's total always equals the sum of its options' counters, whatever the respondents choose. Creation starts both at zero (`ParsedPollIsConsistent`), and every match adds one to each (`VoteKeepsCounterDifferences`). A poll bulk-loaded from a file (app.js:184-194, not modelled) keeps whatever counters the file holds, and a vote keeps their difference.

## Model

| member | source | states |
|---|---|---|
| `JsBuiltins.StringIncludes` | app.js:151 | true exactly when the token occurs in the field name at some position |
| `JsBuiltins.LeadingDigits` | app.js:123 | the longest run of decimal digits at the start of the key, where `parseInt` stops reading |
| `JsBuiltins.ParseInt` | app.js:123 | definition of `parseInt` without a radix: a number exactly when the key starts with a digit, except that "0x" or "0X" needs a hexadecimal digit after it; meaning proved by `ParseIntDecimalString` and `HexKeys` |
| `JsBuiltins.ParseIntDecimalString` | app.js:123 | `parseInt` reads back a question index written in decimal, followed by nothing or by a non-digit that does not turn a leading "0" into a "0x" prefix |
| `JsBuiltins.HexKeys` | app.js:123 | "0x1" is 1 and "0X1f" is 31, read in base 16; "0x" and "0xg" are `NaN` |
| `JsBuiltins.ArrayIncludes` | app.js:240 | true exactly when the username is in `usersResponded` |
| `PollForm.Lookup` | app.js:146 | `title`/`description` are defined exactly when the form has that field, and then hold that field's value |
| `PollForm.KindOf` | app.js:151-157 | definition of the if-chain over a field name: a question field exactly when "question" occurs in it, an option field exactly when "option" does and "question" does not |
| `PollForm.LeadingOptions` | app.js:150-159 | definition of the options the fields before the first question field contribute; all have zero responses and there are at most as many as option fields; meaning proved by `ParseFailsIff` and `OptionPerOptionKey` |
| `PollForm.QuestionsOf` | app.js:150-164 | definition of the parsed questions: exactly one per field whose name contains "question"; meaning proved by `OptionPerOptionKey`, `ParsedCountersAreZero` and the three field-append lemmas |
| `PollForm.ParsePollData` | app.js:145-167 | the walk throws exactly when an option field comes before every question field; otherwise it returns the form's title and description and one question per question field with the option fields that follow it |
| `PollForm.OptionPerOptionKey` | app.js:157-159 | every option field yields exactly one option: the orphan options plus all questions' options equal the number of option fields |
| `PollForm.ParseFailsIff` | app.js:148-158 | the parse fails if and only if some option field has no question field before it |
| `PollForm.ParsedCountersAreZero` | app.js:155-158 | every parsed question and option starts with zero responses |
| `PollForm.QuestionKeyStartsQuestion` | app.js:151-156 | a further question field (also one naming "option") appends one new empty question with its value as prompt |
| `PollForm.OptionKeyExtendsLastQuestion` | app.js:157-159 | a further option field appends one option named by its value to the last question only; with no question yet it is an orphan that makes the parse fail |
| `PollForm.OtherKeyIsSkipped` | app.js:150-160 | a field naming neither token changes neither the questions nor the orphan options |
| `PollForm.FieldNameKinds` | app.js:151-157 | "question0" is read as a question field, "option0"/"option1" as option fields, "title"/"description" as neither |
| `PollForm.OneQuestionFormParses` | app.js:145-167 | two plain fields, a question field and two option fields parse to one question holding both options in order, all counters zero |
| `PollForm.ExampleFormParses` | app.js:145-167 | the literal form title "T", description "D", question0 "Q1", option0 "A", option1 "B" parses without error to the one question "Q1" with options "A" and "B", all counters zero, the poll that `Votes.OneQuestionVoteScenario` votes on |
| `Votes.QuestionIndex` | app.js:123 | a body key names a question exactly when `parseInt` of it is a number below the number of questions, and then names the question at that index |
| `Votes.QuestionIndexOfDecimal` | app.js:123 | the decimal index of any question, as a field name, names that question |
| `Votes.TallyQuestion` | app.js:125-130 | definition of the inner loop: prompt and option names kept, and each option named by the answer gains exactly one response while the others keep theirs; `TallyKeepsExcess` proves the question gains as many |
| `Votes.ApplyResponses` | app.js:121-131 | definition of the outer loop: keeps the number of questions and throws only at a key that names no question; meaning proved by the `ApplyResponses…` lemmas |
| `Votes.Vote` | app.js:118-133 | definition of updatePollResponses on a poll value: it fails only with `NoSuchQuestion` at a key that names no question; meaning proved by `VoteKeepsCounterDifferences` and `VoteFailsIff` |
| `Votes.TalliedSum` | app.js:125-130 | tallying one answer raises the sum of the options' counters by the number of options with that name |
| `Votes.TallyKeepsExcess` | app.js:125-130 | one answer raises a question's total by exactly what it adds to its options, and keeps prompt and option names |
| `Votes.ApplyResponsesKeepsShape` | app.js:121-131 | the walk over the body never changes prompts, option names, or the number of questions and options, even when it throws |
| `Votes.ApplyResponsesKeepsExcess` | app.js:121-131 | each question keeps its total minus the sum of its options' counters |
| `Votes.ApplyResponsesCountsHits` | app.js:121-131 | after a completed walk each option holds its old counter plus one per body field that answers its question with its name |
| `Votes.ApplyResponsesSkipsUnanswered` | app.js:121-131 | a question that no body field points at is left exactly as it was |
| `Votes.ApplyResponsesFailsAtFirstBadKey` | app.js:121-125 | the walk throws if and only if some key does not name a question, and it throws at the first such key |
| `Votes.VoteKeepsCounterDifferences` | app.js:118-133 | a vote adds exactly one to the poll total and appends the username, whether or not anything matched; title, description, date and creator are untouched; it keeps every question's excess, and a consistent poll stays consistent |
| `Votes.VoteFailsIff` | app.js:121-125 | a vote fails exactly when some body key is not an in-range question index; it never fails because the user already voted |
| `Votes.ParsedPollIsConsistent` | app.js:138-141 | a poll built from a parsed form has total 0, no voters, and every question total equal to its options' sum |
| `Votes.RepeatVoteIsCounted` | app.js:249-254 | as written, a second vote by the same user adds two to the total and records the user twice |
| `Votes.GuardedVote` | app.js:240-254 | the vote with the poll page's check: refused with `DuplicateVote` exactly when the user is already recorded, otherwise the unguarded vote; a voter list without repeats stays without repeats, and a consistent poll stays consistent |
| `Votes.OneQuestionVoteScenario` | app.js:118-133 | on a one-question poll, answering "A" gives A=1, B=0, question total 1, poll total 1, voters ["alice"]; the guarded second vote by "alice" is refused |
| `PollDocument.Poll.constructor` | app.js:138-141 | a new poll has the given title, description and questions, total 0, the creator's username, the given date and no voters |
| `PollDocument.Poll.UpdatePollResponses` | app.js:118-134 | the in-place update leaves the poll equal to `Vote` of the old poll; on a bad key the earlier tallies stay, while the total and voters are unchanged |
| `PollDocument.Poll.TallyQuestionAt` | app.js:125-130 | the inner loop leaves only the addressed question changed, to `TallyQuestion` of its old value |
| `PollDocument.MakePoll` | app.js:278-283 | the submission builds a fresh poll from the parsed form exactly when the parse succeeds, and that poll is consistent |
| `PollDocument.SubmitVote` | app.js:240-254 | the vote route with the check: a recorded user is refused and the poll is unchanged; otherwise the questions are tallied as by updatePollResponses, and the poll ends as `GuardedVote` says, or on a bad key with the error it returns and the total and voters unchanged; title, description, date and creator never change |
| `PollListing.SortOrderFor` | app.js:209-223 | definition of the label if-chain: an order other than the default is chosen only by its own label, and an absent label chooses the default |
| `PollListing.SortOrderForLabel` | app.js:212-223 | each of the four labels selects its own comparator, so the chain tells them apart |
| `PollListing.Compare` | app.js:209-223 | each chosen comparator is the difference of one key: total, negated total, date or negated date; the default is 0 |
| `PollListing.InsertPermutes` | app.js:225 | one insertion step adds its element and loses nothing |
| `PollListing.InsertKeepsSorted` | app.js:225 | one insertion step keeps the list sorted |
| `PollListing.SortPolls` | app.js:225 | the sorted list is a permutation of the input in non-decreasing comparator order |
| `PollListing.InsertIsStable` | app.js:225 | an inserted poll goes after every earlier poll that compares equal to it |
| `PollListing.SortPollsIsStable` | app.js:225 | polls that compare equal keep their input order |
| `PollListing.UnorderedKeepsOrder` | app.js:209 | with the default comparator (`a - b` on documents, `NaN`, read as equal) the list is unchanged |
| `PollListing.ListPolls` | app.js:207-225 | the route's list is a permutation of the polls, sorted by the comparator the label selects |
| `PollListing.ListPollsOrder` | app.js:207-225 | each of the four labels orders adjacent polls by total or date, ascending or descending as named; any other or absent label returns the input order; always a permutation |

## Findings

| source | as written | input that shows it | evidently intended | confidence | as-written member | corrected member |
|---|---|---|---|---|---|---|
| app.js:249-254 | the vote submission calls `updatePollResponses` without checking `usersResponded`; only the poll page checks (app.js:240) | the same user posts the vote form twice, for example by posting directly or going back to the form | the second vote is refused, as the poll page's "already done" view intends | medium, not executed | `Votes.RepeatVoteIsCounted` | `Votes.GuardedVote` |

## Left out

- Express set-up, middleware, sessions and cookies, the auth routes, view rendering, the 404 and error handlers, and server start-up (app.js:54-111, 289-353). These are framework glue and I/O.
- Persistence: the Mongoose connection, `save`, `find`, `findOne`, `findOneAndUpdate`, `deleteMany` and `count`. The stored poll is taken to be the `Poll` object's state after a call that returns `Pass`. After `Fail` nothing is written, and the stored poll is the state before the call. A missing poll (`findOne` giving `null`) is not modelled.
- The `/upsertDB` bulk load and `/upsertDelete` (app.js:177-194). They are loops of library upserts with no logic of their own.
- Concurrency. The routes do not await `updatePollResponses` or `createPollAndUpsert`, so a thrown error becomes an unhandled rejection after the redirect. Two concurrent votes can lose an update in the read-modify-write. The model is sequential.
- The clock read `new Date()` (app.js:139). The timestamp is a parameter.
- JavaScript `Date` and `Number` arithmetic in the comparators. Keys are `int`. A poll without `dateCreated`, whose comparisons would be `NaN`, is not modelled.
- `JsBuiltins.ParseInt`: leading whitespace and a sign are not modelled. A key starting with either is read as not a number, where `parseInt` would read " 1" and "+1" as 1 and "-0" as index 0.
- A request body whose field repeats, which the form decoder turns into an array, is not modelled. So is a missing session username, since the two POST routes do not require a login. Field values and usernames are strings.
- Mongoose's own additions to a document (`_id` on polls and subdocuments, type casting) are not modelled.
- `PollListing.SortPolls` is an insertion sort, not the engine's own stable sort. Every stable sort under a comparator that is a key difference yields the same list. The model proves its list sorted, stable and a permutation of the input.
