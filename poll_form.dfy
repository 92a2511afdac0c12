/**
 * parsePollData (app.js:145-167): turns the flat field-name -> value form of
 * the "make a poll" page into a title, a description and ordered questions.
 * A field whose name contains "question" starts a new question; one whose
 * name contains "option" (and not "question") adds an option to the question
 * started last; every other field is skipped by the walk. The form is given
 * as its fields in the order the walk enumerates them.
 */
module PollForm {
  import opened PollTypes
  import opened JsBuiltins

  type Form = seq<(string, string)>

  /** A parsed form: what createPollAndUpsert receives. */
  datatype Draft = Draft(title: Field<string>, description: Field<string>, questions: seq<Question>)

  /** The walk dereferences `question` while it is still `null`. */
  datatype ParseError = OptionBeforeQuestion

  /** What the if-chain of the walk makes of a field name; "question" is tested first. */
  datatype KeyKind = QuestionKey | OptionKey | OtherKey

  function KindOf(key: string): (r: KeyKind)
    ensures r == QuestionKey <==> exists i: nat :: OccursAt(key, "question", i)
    ensures r == OptionKey <==>
      (forall i: nat :: !OccursAt(key, "question", i)) && exists i: nat :: OccursAt(key, "option", i)
  {
    if StringIncludes(key, "question") then QuestionKey
    else if StringIncludes(key, "option") then OptionKey
    else OtherKey
  }

  /** The value of the field named `key`, or `undefined`; field names of a form object are distinct. */
  function Lookup(data: Form, key: string): (r: Field<string>)
    ensures r.Defined? <==> exists i :: 0 <= i < |data| && data[i].0 == key
    ensures r.Defined? ==> exists i :: 0 <= i < |data| && data[i] == (key, r.value)
  {
    if data == [] then Undefined
    else if data[0].0 == key then Defined(data[0].1)
    else
      var r := Lookup(data[1..], key);
      assert forall i :: 1 <= i < |data| ==> data[i] == data[1..][i - 1];
      r
  }

  /**
   * The options the fields of `data` contribute before its first question
   * field: the options of the question started just before `data`.
   */
  function LeadingOptions(data: Form): (r: seq<PollOption>)
    ensures forall o :: o in r ==> o.responses == 0
    ensures |r| <= CountKind(data, OptionKey)
  {
    if data == [] then []
    else match KindOf(data[0].0)
      case QuestionKey => []
      case OptionKey => [PollOption(data[0].1, 0)] + LeadingOptions(data[1..])
      case OtherKey => LeadingOptions(data[1..])
  }

  /** One question per question field, each holding the options that follow it up to the next one. */
  function QuestionsOf(data: Form): (r: seq<Question>)
    ensures |r| == CountKind(data, QuestionKey)
  {
    if data == [] then []
    else if KindOf(data[0].0) == QuestionKey then
      [Question(data[0].1, 0, LeadingOptions(data[1..]))] + QuestionsOf(data[1..])
    else QuestionsOf(data[1..])
  }

  /**
   * parsePollData as the walk over the fields: `current` is the question
   * being filled (`null` before the first question field), `questions` the
   * finished ones.
   */
  method ParsePollData(data: Form) returns (r: Result<Draft, ParseError>)
    ensures r.Err? <==> LeadingOptions(data) != []
    ensures r.Ok? ==> r.value == Draft(Lookup(data, "title"), Lookup(data, "description"), QuestionsOf(data))
  {
    var title, description := Lookup(data, "title"), Lookup(data, "description");
    var questions: seq<Question> := [];
    var current: Field<Question> := Undefined;
    var i := 0;
    while i < |data|
      invariant 0 <= i <= |data|
      invariant current.Undefined? ==>
        questions == [] && LeadingOptions(data) == LeadingOptions(data[i..]) && QuestionsOf(data) == QuestionsOf(data[i..])
      invariant current.Defined? ==>
        LeadingOptions(data) == [] &&
        QuestionsOf(data) == questions + [current.value.(options := current.value.options + LeadingOptions(data[i..]))] + QuestionsOf(data[i..])
    {
      var (key, value) := data[i];
      assert data[i..][1..] == data[i + 1..];
      match KindOf(key) {
        case QuestionKey =>
          if current.Defined? {
            assert current.value.options + [] == current.value.options;
            questions := questions + [current.value];
          }
          assert [] + LeadingOptions(data[i + 1..]) == LeadingOptions(data[i + 1..]);
          current := Defined(Question(value, 0, []));
        case OptionKey =>
          if current.Undefined? {
            return Err(OptionBeforeQuestion);
          }
          ghost var before := current.value.options;
          assert (before + [PollOption(value, 0)]) + LeadingOptions(data[i + 1..]) ==
                 before + ([PollOption(value, 0)] + LeadingOptions(data[i + 1..]));
          current := Defined(current.value.(options := current.value.options + [PollOption(value, 0)]));
        case OtherKey =>
      }
      i := i + 1;
    }
    assert data[i..] == [];
    if current.Defined? {
      assert current.value.options + [] == current.value.options;
      questions := questions + [current.value];
    }
    return Ok(Draft(title, description, questions));
  }

  /** Number of fields of `data` that the walk reads as `kind`. */
  function CountKind(data: Form, kind: KeyKind): nat
  {
    if data == [] then 0 else (if KindOf(data[0].0) == kind then 1 else 0) + CountKind(data[1..], kind)
  }

  /** Total number of options over a list of questions. */
  function TotalOptions(questions: seq<Question>): nat
  {
    if questions == [] then 0 else |questions[0].options| + TotalOptions(questions[1..])
  }

  /** Every option field yields exactly one option, whether it is attached to a question or not. */
  lemma {:induction false} OptionPerOptionKey(data: Form)
    ensures |LeadingOptions(data)| + TotalOptions(QuestionsOf(data)) == CountKind(data, OptionKey)
  {
    if data != [] {
      OptionPerOptionKey(data[1..]);
      if KindOf(data[0].0) == QuestionKey {
        LeadingOptionsFitTotal(data[1..]);
      }
    }
  }

  lemma {:induction false} LeadingOptionsFitTotal(data: Form)
    ensures TotalOptions([Question("", 0, LeadingOptions(data))] + QuestionsOf(data)) ==
            |LeadingOptions(data)| + TotalOptions(QuestionsOf(data))
  {
    var qs := [Question("", 0, LeadingOptions(data))] + QuestionsOf(data);
    assert qs[1..] == QuestionsOf(data);
  }

  /** The parse fails exactly when an option field comes before every question field. */
  lemma {:induction false} ParseFailsIff(data: Form)
    ensures LeadingOptions(data) != [] <==>
      exists j :: 0 <= j < |data| && KindOf(data[j].0) == OptionKey &&
        forall i :: 0 <= i < j ==> KindOf(data[i].0) != QuestionKey
  {
    if data != [] {
      ParseFailsIff(data[1..]);
      var tail := data[1..];
      assert forall j :: 1 <= j < |data| ==> data[j] == tail[j - 1];
      if KindOf(data[0].0) == OtherKey && LeadingOptions(data) != [] {
        var j :| 0 <= j < |tail| && KindOf(tail[j].0) == OptionKey &&
          forall i :: 0 <= i < j ==> KindOf(tail[i].0) != QuestionKey;
        assert forall i :: 1 <= i < j + 1 ==> data[i] == tail[i - 1];
      }
      if KindOf(data[0].0) == OtherKey && LeadingOptions(data) == [] {
        forall j | 1 <= j < |data| && KindOf(data[j].0) == OptionKey
          ensures exists i :: 0 <= i < j && KindOf(data[i].0) == QuestionKey
        {
          var i :| 0 <= i < j - 1 && KindOf(tail[i].0) == QuestionKey;
          assert data[i + 1] == tail[i];
        }
      }
    }
  }

  /** Every parsed question and option starts with zero counters. */
  lemma {:induction false} ParsedCountersAreZero(data: Form)
    ensures forall q :: q in QuestionsOf(data) ==>
      q.totalResponses == 0 && forall o :: o in q.options ==> o.responses == 0
  {
    if data != [] {
      ParsedCountersAreZero(data[1..]);
    }
  }

  /** A question field appended to the form starts a new, empty, last question. */
  lemma {:induction false} QuestionKeyStartsQuestion(data: Form, key: string, value: string)
    requires KindOf(key) == QuestionKey
    ensures QuestionsOf(data + [(key, value)]) == QuestionsOf(data) + [Question(value, 0, [])]
    ensures LeadingOptions(data + [(key, value)]) == LeadingOptions(data)
  {
    if data == [] {
      assert [(key, value)][1..] == [];
    } else {
      assert (data + [(key, value)])[1..] == data[1..] + [(key, value)];
      QuestionKeyStartsQuestion(data[1..], key, value);
    }
  }

  /**
   * An option field appended to the form adds one option, named by its value,
   * to the last question; with no question yet it is an orphan option.
   */
  lemma {:induction false} OptionKeyExtendsLastQuestion(data: Form, key: string, value: string)
    requires KindOf(key) == OptionKey
    ensures var qs, qs' := QuestionsOf(data), QuestionsOf(data + [(key, value)]);
      if qs == [] then
        qs' == [] && LeadingOptions(data + [(key, value)]) == LeadingOptions(data) + [PollOption(value, 0)]
      else
        LeadingOptions(data + [(key, value)]) == LeadingOptions(data) &&
        qs' == qs[..|qs| - 1] + [qs[|qs| - 1].(options := qs[|qs| - 1].options + [PollOption(value, 0)])]
  {
    var extended := data + [(key, value)];
    if data == [] {
      assert extended[1..] == [];
    } else {
      assert extended[1..] == data[1..] + [(key, value)];
      OptionKeyExtendsLastQuestion(data[1..], key, value);
      var qs := QuestionsOf(data[1..]);
      if KindOf(data[0].0) == QuestionKey && qs != [] {
        assert ([Question(data[0].1, 0, LeadingOptions(data[1..]))] + qs)[..|qs|] ==
               [Question(data[0].1, 0, LeadingOptions(data[1..]))] + qs[..|qs| - 1];
      }
    }
  }

  /** A field that is neither a question nor an option changes nothing. */
  lemma {:induction false} OtherKeyIsSkipped(data: Form, key: string, value: string)
    requires KindOf(key) == OtherKey
    ensures QuestionsOf(data + [(key, value)]) == QuestionsOf(data)
    ensures LeadingOptions(data + [(key, value)]) == LeadingOptions(data)
  {
    if data == [] {
      assert [(key, value)][1..] == [];
    } else {
      assert (data + [(key, value)])[1..] == data[1..] + [(key, value)];
      OtherKeyIsSkipped(data[1..], key, value);
    }
  }

  /** A parsed one-question form (see ExampleFormParses): prompt "Q1", options "A" and "B", no responses. */
  function ExampleQuestions(): seq<Question>
  {
    [Question("Q1", 0, [PollOption("A", 0), PollOption("B", 0)])]
  }

  /** How the walk reads the field names of a one-question form. */
  lemma FieldNameKinds()
    ensures KindOf("title") == OtherKey && KindOf("description") == OtherKey
    ensures KindOf("question0") == QuestionKey
    ensures KindOf("option0") == OptionKey && KindOf("option1") == OptionKey
  {
    FirstCharAbsent("description", "question");
    FirstCharAbsent("description", "option");
    assert OccursAt("question0", "question", 0);
    assert OccursAt("option0", "option", 0);
    assert OccursAt("option1", "option", 0);
  }

  /**
   * A form laid out as the "make a poll" page lays it out for one question
   * with two options -- two plain fields, a question field, two option fields --
   * parses to that one question with its two options, in field order.
   */
  lemma {:induction false} OneQuestionFormParses(form: Form)
    requires |form| == 5
    requires KindOf(form[0].0) == OtherKey && KindOf(form[1].0) == OtherKey
    requires KindOf(form[2].0) == QuestionKey
    requires KindOf(form[3].0) == OptionKey && KindOf(form[4].0) == OptionKey
    ensures LeadingOptions(form) == []
    ensures QuestionsOf(form) == [Question(form[2].1, 0, [PollOption(form[3].1, 0), PollOption(form[4].1, 0)])]
  {
    var tail := form[3..];
    assert tail[0] == form[3] && tail[1..][0] == form[4] && tail[1..][1..] == [];
    assert LeadingOptions(tail[1..]) == [PollOption(form[4].1, 0)];
    assert QuestionsOf(tail[1..]) == [];
    assert LeadingOptions(tail) == [PollOption(form[3].1, 0), PollOption(form[4].1, 0)];
    assert QuestionsOf(tail) == [];
    assert form[2..][0] == form[2] && form[2..][1..] == tail;
    assert LeadingOptions(form[2..]) == [];
    assert form[1..][0] == form[1] && form[1..][1..] == form[2..];
    assert LeadingOptions(form[1..]) == [];
    assert QuestionsOf(form[1..]) == QuestionsOf(form[2..]);
  }

  /** The one-question form of the "make a poll" page, with its literal field names, parses to ExampleQuestions. */
  lemma ExampleFormParses()
    ensures var form := [("title", "T"), ("description", "D"), ("question0", "Q1"), ("option0", "A"), ("option1", "B")];
      LeadingOptions(form) == [] && QuestionsOf(form) == ExampleQuestions()
  {
    FieldNameKinds();
    OneQuestionFormParses([("title", "T"), ("description", "D"), ("question0", "Q1"), ("option0", "A"), ("option1", "B")]);
  }
}
