/** task_extractor.py, the older form translator: every item must be a
    text question and becomes a task row of the given test. */
module TaskExtractor {
  import opened Wrappers
  import opened Json
  import opened FormPaths
  import opened Enumerate
  import opened QuestionKinds

  /** `ParsingError('cannot parse question: {title}')`, or an escaping Python
      exception. */
  datatype Error = Parsing(title: Json) | Uncaught(exc: PyExc)

  /** The `Task` the extractor builds, `task_type` holding the kind's name. */
  datatype TaskRow = TaskRow(
    googleFormQuestionId: Json,
    text: Json,
    description: Json,
    required: Json,
    inputMedia: Json,
    taskType: string,
    testId: int)

  function Lift<T>(r: Result<T, PyExc>): (l: Result<T, Error>)
    ensures r.Success? ==> l == Success(r.value)
    ensures r.Failure? ==> l == Failure(Uncaught(r.error))
  {
    match r
    case Success(v) => Success(v)
    case Failure(e) => Failure(Uncaught(e))
  }

  /** `raise ParsingError(f'cannot parse question: {item["title"]}')` */
  function Refuse<T>(item: Json): Result<T, Error>
  {
    match PyGet(item, "title")
    case Failure(e) => Failure(Uncaught(e))
    case Success(t) => Failure(Parsing(t))
  }

  /** `get_google_form_question_id`: only the `questionItem` key is checked;
      a missing `question` or `questionId` raises `KeyError`. */
  function GetGoogleFormQuestionId(item: Json): Result<Json, Error>
  {
    var has :- Lift(PyIn("questionItem", item));
    if !has then Refuse(item) else Lift(QuestionField(item, "questionId"))
  }

  /** `get_text` */
  function GetText(item: Json): Result<Json, Error>
  {
    var has :- Lift(PyIn("title", item));
    if !has then Refuse(item) else Lift(PyGet(item, "title"))
  }

  /** `get_description` */
  function GetDescription(item: Json): Result<Json, Error>
  {
    var has :- Lift(PyIn("description", item));
    if has then Lift(PyGet(item, "description")) else Success(JNull)
  }

  /** `get_required` */
  function GetRequired(item: Json): Result<Json, Error>
  {
    match QuestionField(item, "required")
    case Success(v) => Success(v)
    case Failure(KeyError) => Success(JBool(false))
    case Failure(e) => Failure(Uncaught(e))
  }

  /** `get_input_media` */
  function GetInputMedia(item: Json): Result<Json, Error>
  {
    var qi :- Lift(PyGet(item, "questionItem"));
    var has :- Lift(PyIn("image", qi));
    if !has then Success(JNull) else Lift(ImageUri(item))
  }

  /** `get_task_type`: only text questions are accepted. */
  function GetTaskType(item: Json): Result<string, Error>
  {
    var q :- Lift(Question(item));
    var isText :- Lift(PyIn("textQuestion", q));
    if isText then Success(Name(StringOrText)) else Refuse(item)
  }

  /** `extract_item(item, test_id)` */
  function ExtractItem(item: Json, testId: int): (r: Result<TaskRow, Error>)
    ensures r.Success? ==>
      IsObjectWith(item, "title") && IsObjectWith(item, "questionItem") &&
      r.value.text == LookupLast(item.members, "title") &&
      r.value.testId == testId && r.value.taskType == Name(StringOrText)
    ensures r.Failure? && r.error.Parsing? ==>
      IsObjectWith(item, "title") && r.error.title == LookupLast(item.members, "title")
  {
    var has :- Lift(PyIn("questionItem", item));
    if !has then Refuse(item)
    else
      var qid :- GetGoogleFormQuestionId(item);
      var text :- GetText(item);
      match GetDescription(item)
      case Failure(e) => Failure(e)
      case Success(desc) =>
        match GetRequired(item)
        case Failure(e) => Failure(e)
        case Success(req) =>
          var media :- GetInputMedia(item);
          var kind :- GetTaskType(item);
          Success(TaskRow(qid, text, desc, req, media, kind, testId))
  }

  function ExtractStep(testId: int): (nat, Json) -> Result<TaskRow, Error>
  {
    (i: nat, item: Json) => ExtractItem(item, testId)
  }

  /** `extract(json_string, test_id)`: the list comprehension over the
      parsed document itself. The tasks are built and then dropped. */
  function Extract(doc: Json, testId: int): (r: Result<seq<TaskRow>, Error>)
    ensures PyIter(doc).Failure? ==> r == Failure(Uncaught(PyIter(doc).error))
    ensures r.Success? ==>
      PyIter(doc).Success? && |r.value| == |PyIter(doc).value| &&
      forall i :: 0 <= i < |r.value| ==> r.value[i].testId == testId
  {
    var elems :- Lift(PyIter(doc));
    var rows := MapAll(ExtractStep(testId), elems);
    if rows.Success? then
      MapAllSuccess(ExtractStep(testId), elems);
      rows
    else rows
  }

  /** A top-level list gives one task per element, in order, or fails as a
      whole with the first element's error. */
  lemma ExtractList(elems: seq<Json>, testId: int)
    ensures Extract(JArray(elems), testId).Success? ==>
      |Extract(JArray(elems), testId).value| == |elems| &&
      forall i :: 0 <= i < |elems| ==> ExtractItem(elems[i], testId) == Success(Extract(JArray(elems), testId).value[i])
    ensures Extract(JArray(elems), testId).Failure? <==> exists i :: 0 <= i < |elems| && ExtractItem(elems[i], testId).Failure?
    ensures Extract(JArray(elems), testId).Failure? ==>
      exists i :: 0 <= i < |elems| && ExtractItem(elems[i], testId) == Failure(Extract(JArray(elems), testId).error) &&
                  forall j :: 0 <= j < i ==> ExtractItem(elems[j], testId).Success?
  {
    var f := ExtractStep(testId);
    MapAllFailure(f, elems);
    if Extract(JArray(elems), testId).Success? {
      MapAllSuccess(f, elems);
    } else {
      var i :| 0 <= i < |elems| && f(i, elems[i]).Failure?;
      assert ExtractItem(elems[i], testId).Failure?;
      MapAllFirstError(f, elems);
      var k: nat :| FirstFailure(f, elems, k) && f(k, elems[k]) == Failure(MapAll(f, elems).error);
      assert forall j :: 0 <= j < k ==> f(j, elems[j]) == ExtractItem(elems[j], testId);
      assert ExtractItem(elems[k], testId) == Failure(Extract(JArray(elems), testId).error);
    }
    if exists i :: 0 <= i < |elems| && ExtractItem(elems[i], testId).Failure? {
      var i :| 0 <= i < |elems| && ExtractItem(elems[i], testId).Failure?;
      assert f(i, elems[i]).Failure?;
    }
  }

  /** An item given as a string (a key of the form object) always raises
      `TypeError`: either the title lookup of the refusal or the
      `questionItem` lookup fails on a string. */
  lemma StringItem(key: string, testId: int)
    ensures ExtractItem(JStr(key), testId) == Failure(Uncaught(TypeError))
  {
  }

  /** Given a whole form object, as its documentation says the function
      takes, `extract` walks the object's keys and so fails with
      `TypeError` whenever the form has any key at all. */
  lemma ExtractFormObject(members: seq<(string, Json)>, testId: int)
    requires members != []
    ensures Extract(JObject(members), testId) == Failure(Uncaught(TypeError))
  {
    var ks := Keys(members);
    assert ks != [] by {
      if |members| == 1 { assert Keys(members) == [members[0].0]; }
      else { KeysNonEmpty(members); }
    }
    var elems := PyIter(JObject(members)).value;
    var f := ExtractStep(testId);
    assert elems[0] == JStr(ks[0]);
    StringItem(ks[0], testId);
    assert FirstFailure(f, elems, 0);
    MapAllFailure(f, elems);
    MapAllFirstError(f, elems);
    var i: nat :| FirstFailure(f, elems, i) && f(i, elems[i]) == Failure(MapAll(f, elems).error);
    assert i == 0;
  }

  lemma {:induction false} KeysNonEmpty(members: seq<(string, Json)>)
    requires members != []
    ensures Keys(members) != []
    decreases |members|
  {
    if |members| > 1 {
      KeysNonEmpty(members[..|members| - 1]);
    }
  }

  /** An object item without `questionItem` is refused with its title. */
  lemma NoQuestionItem(item: Json, testId: int)
    requires IsObjectWith(item, "title") && !HasKey(item.members, "questionItem")
    ensures ExtractItem(item, testId) == Failure(Parsing(LookupLast(item.members, "title")))
  {
  }

  /** Only text questions are accepted: an item whose question object lacks
      `textQuestion` is refused with its title, a choice question
      included. */
  lemma OnlyTextQuestions(item: Json, q: Json)
    requires IsObjectWith(item, "title") && Question(item) == Success(q) && q.JObject?
    ensures GetTaskType(item) == Success("STRING_OR_TEXT") <==> HasKey(q.members, "textQuestion")
    ensures !HasKey(q.members, "textQuestion") ==> GetTaskType(item) == Failure(Parsing(LookupLast(item.members, "title")))
  {
  }

  /** The row's fields: the id is the question's `questionId`, the text
      the title, and absent optional fields take their defaults. */
  lemma RowFields(item: Json, q: Json, testId: int)
    requires ExtractItem(item, testId).Success?
    requires item.JObject? && Question(item) == Success(q) && q.JObject?
    ensures var t := ExtractItem(item, testId).value;
      t.googleFormQuestionId == QuestionField(item, "questionId").value &&
      t.text == LookupLast(item.members, "title") && t.testId == testId &&
      t.taskType == "STRING_OR_TEXT"
    ensures !HasKey(item.members, "description") ==> ExtractItem(item, testId).value.description == JNull
    ensures !HasKey(q.members, "required") ==> ExtractItem(item, testId).value.required == JBool(false)
    ensures IsObjectWithout(LookupLast(item.members, "questionItem"), "image") ==> ExtractItem(item, testId).value.inputMedia == JNull
  {
    var qi := LookupLast(item.members, "questionItem");
    assert PyGet(item, "questionItem") == Success(qi);
    if !HasKey(q.members, "required") {
      assert QuestionField(item, "required") == Failure(KeyError);
    }
  }
}
