/** `Translator` of task_translator.py: turns a Google Forms document (its
    `items` array) into one task record per item, or fails as a whole.
    The JSON text is taken as already parsed: `json.loads` is not part of
    this model. */
module TaskTranslator {
  import opened Wrappers
  import opened Json
  import opened QuestionKinds
  import opened Enumerate
  import opened FormPaths
  import Seqs

  /** The four `TranslationError` messages, with the values they mention. */
  datatype TranslationError =
    | NoTitle(ind: nat)                       // question №{ind}: cannot parse question without title
    | UnsupportedItem(ind: nat, title: Json)  // question №{ind} - <i>{title}</i>: cannot parse that type of questions
    | CannotParseQuestion(title: Json)        // cannot parse question: {title}
    | CannotParseType(title: Json)            // cannot parse question type: {title}

  /** A translation either raises `TranslationError` or lets a Python
      exception escape. */
  datatype Error = Translation(reason: TranslationError) | Uncaught(exc: PyExc)

  datatype ChoiceExtra = ChoiceExtra(options: seq<Json>, isOther: bool)

  /** The task dict. Python `None` is JSON null, so the optional columns are
      `JNull` when absent; `choice` is present exactly when the dict has the
      `options` and `is_other` keys. */
  datatype TaskRecord = TaskRecord(
    googleFormQuestionId: Json,
    text: Json,
    description: Json,
    required: Json,
    inputMedia: Json,
    taskType: Kind,
    choice: Option<ChoiceExtra>)

  function Lift<T>(r: Result<T, PyExc>): (l: Result<T, Error>)
    ensures r.Success? ==> l == Success(r.value)
    ensures r.Failure? ==> l == Failure(Uncaught(r.error))
  {
    match r
    case Success(v) => Success(v)
    case Failure(e) => Failure(Uncaught(e))
  }

  /** `item["title"]` as an error message argument. */
  function TitleOf(item: Json): Result<Json, Error>
  {
    Lift(PyGet(item, "title"))
  }

  /** `Translator.get_responder_uri`: the form's `responderUri`. */
  function GetResponderUri(form: Json): (r: Result<Json, PyExc>)
    ensures r.Success? <==> IsObjectWith(form, "responderUri")
    ensures r.Success? ==> r.value == LookupLast(form.members, "responderUri")
  {
    PyGet(form, "responderUri")
  }

  /** `Translator.get_form_title`: `form["info"]["title"]`. */
  function GetFormTitle(form: Json): (r: Result<Json, PyExc>)
    ensures r.Success? <==> IsObjectWith(form, "info") && IsObjectWith(LookupLast(form.members, "info"), "title")
    ensures r.Success? ==> r.value == LookupLast(LookupLast(form.members, "info").members, "title")
  {
    var info :- PyGet(form, "info");
    PyGet(info, "title")
  }

  /** `Translator.may_have_options` */
  function MayHaveOptions(taskTypeName: string): (r: bool)
    ensures r <==> taskTypeName == Name(OneChoice) || taskTypeName == Name(MultipleChoice)
  {
    taskTypeName in {Name(OneChoice), Name(MultipleChoice)}
  }

  /** Only the choice kinds may carry options. */
  lemma MayHaveOptionsKinds(k: Kind)
    ensures MayHaveOptions(Name(k)) <==> k != StringOrText
  {
  }

  /** `_get_google_form_question_id`: a `KeyError` on the way becomes
      `TranslationError`. */
  function GetGoogleFormQuestionId(item: Json): Result<Json, Error>
  {
    match QuestionField(item, "questionId")
    case Success(v) => Success(v)
    case Failure(KeyError) =>
      var t :- TitleOf(item);
      Failure(Translation(CannotParseQuestion(t)))
    case Failure(e) => Failure(Uncaught(e))
  }

  /** `_get_text` */
  function GetText(item: Json): Result<Json, Error>
  {
    var has :- Lift(PyIn("title", item));
    if !has then
      // item["title"] of an item without a title raises in the f-string
      match TitleOf(item)
      case Failure(e) => Failure(e)
      case Success(t) => Failure(Translation(CannotParseQuestion(t)))
    else TitleOf(item)
  }

  /** `_get_description`: `None` without a `description` key. */
  function GetDescription(item: Json): (r: Result<Json, Error>)
    ensures IsObjectWithout(item, "description") ==> r == Success(JNull)
    ensures IsObjectWith(item, "description") ==> r == Success(LookupLast(item.members, "description"))
  {
    var has :- Lift(PyIn("description", item));
    if has then Lift(PyGet(item, "description")) else Success(JNull)
  }

  /** `_get_required`: `False` when a key on the way is missing. */
  function GetRequired(item: Json): (r: Result<Json, Error>)
    ensures r.Failure? ==> r.error.Uncaught? && r.error.exc != KeyError
    ensures Question(item).Success? && IsObjectWithout(Question(item).value, "required") ==> r == Success(JBool(false))
    ensures Question(item).Success? && IsObjectWith(Question(item).value, "required") ==>
      r == Success(LookupLast(Question(item).value.members, "required"))
  {
    match QuestionField(item, "required")
    case Success(v) => Success(v)
    case Failure(KeyError) => Success(JBool(false))
    case Failure(e) => Failure(Uncaught(e))
  }

  /** `_get_input_media`: `None` when `questionItem` has no `image`; an image
      without `contentUri` raises `KeyError`. */
  function GetInputMedia(item: Json): (r: Result<Json, Error>)
    ensures r.Success? ==> IsObjectWith(item, "questionItem")
    ensures IsObjectWith(item, "questionItem") && IsObjectWithout(LookupLast(item.members, "questionItem"), "image") ==>
      r == Success(JNull)
    ensures IsObjectWith(item, "questionItem") && IsObjectWith(LookupLast(item.members, "questionItem"), "image") ==>
      r == Lift(ImageUri(item))
  {
    var qi :- Lift(PyGet(item, "questionItem"));
    var has :- Lift(PyIn("image", qi));
    if !has then Success(JNull)
    else Lift(ImageUri(item))
  }

  function TypeFailure(item: Json): Result<Kind, Error>
  {
    var t :- TitleOf(item);
    Failure(Translation(CannotParseType(t)))
  }

  /** `_get_task_type`: a text question first, then a choice question by its
      `type`; every other shape is refused. */
  function GetTaskType(item: Json): (r: Result<Kind, Error>)
    ensures r == Success(OneChoice) ==> ChoiceField(item, "type") == Success(JStr("RADIO"))
    ensures r == Success(MultipleChoice) ==> ChoiceField(item, "type") == Success(JStr("CHECKBOX"))
    ensures r.Failure? && r.error.Translation? ==> r.error.reason.CannotParseType?
  {
    var q :- Lift(Question(item));
    var isText :- Lift(PyIn("textQuestion", q));
    if isText then Success(StringOrText)
    else
      var isChoice :- Lift(PyIn("choiceQuestion", q));
      if !isChoice then TypeFailure(item)
      else
        match ChoiceField(item, "type")
        case Failure(KeyError) => TypeFailure(item)
        case Failure(e) => Failure(Uncaught(e))
        case Success(ty) =>
          if ty == JStr("RADIO") then Success(OneChoice)
          else if ty == JStr("CHECKBOX") then Success(MultipleChoice)
          else TypeFailure(item)
  }

  // ---------------------------------------------------------------------
  // _get_options_and_is_other

  /** One turn of the options loop. */
  function OptionStep(acc: (seq<Json>, bool), entry: Json, item: Json): Result<(seq<Json>, bool), Error>
  {
    var hasValue :- Lift(PyIn("value", entry));
    if hasValue then
      var v :- Lift(PyGet(entry, "value"));
      Success((acc.0 + [v], acc.1))
    else
      var hasOther :- Lift(PyIn("isOther", entry));
      if hasOther then Success((acc.0, true))
      else
        var t :- TitleOf(item);
        Failure(Translation(CannotParseQuestion(t)))
  }

  /** The options loop over `entries`, stopping at the first raise. */
  function CollectOptions(entries: seq<Json>, item: Json): Result<(seq<Json>, bool), Error>
    decreases |entries|
  {
    if entries == [] then Success(([], false))
    else
      var acc :- CollectOptions(entries[..|entries| - 1], item);
      OptionStep(acc, entries[|entries| - 1], item)
  }

  /** The body of the `try` block. */
  function OptionsTry(item: Json): Result<(seq<Json>, bool), Error>
  {
    var od :- Lift(ChoiceField(item, "options"));
    var entries :- Lift(PyIter(od));
    CollectOptions(entries, item)
  }

  /** `_get_options_and_is_other`: the collected options, or `(None, False)`
      when a `KeyError` reaches the `except`. */
  function OptionsAndIsOther(item: Json): (r: Result<(Option<seq<Json>>, bool), Error>)
    ensures ChoiceField(item, "options") == Failure(KeyError) ==> r == Success((None, false))
    ensures r.Success? && r.value.0.None? ==> !r.value.1
    ensures r.Failure? ==> r.error != Uncaught(KeyError)
  {
    match OptionsTry(item)
    case Success((opts, other)) => Success((Some(opts), other))
    case Failure(Uncaught(KeyError)) => Success((None, false))
    case Failure(e) => Failure(e)
  }

  /** The loop of `_get_options_and_is_other`. */
  method GetOptionsAndIsOther(item: Json) returns (r: Result<(Option<seq<Json>>, bool), Error>)
    ensures r == OptionsAndIsOther(item)
  {
    var od := ChoiceField(item, "options");
    if od.Failure? {
      r := if od.error == KeyError then Success((None, false)) else Failure(Uncaught(od.error));
      return;
    }
    var it := PyIter(od.value);
    if it.Failure? {
      r := Failure(Uncaught(it.error));
      return;
    }
    var entries := it.value;
    var options: seq<Json> := [];
    var isOther := false;
    for i := 0 to |entries|
      invariant CollectOptions(entries[..i], item) == Success((options, isOther))
    {
      assert entries[..i + 1][..i] == entries[..i];
      var step := OptionStep((options, isOther), entries[i], item);
      if step.Failure? {
        assert CollectOptions(entries[..i + 1], item) == step;
        CollectOptionsFailureSticks(entries, i + 1, item);
        r := if step.error == Uncaught(KeyError) then Success((None, false)) else Failure(step.error);
        return;
      }
      options, isOther := step.value.0, step.value.1;
    }
    assert entries[..|entries|] == entries;
    r := Success((Some(options), isOther));
  }

  /** Once the loop has raised, the whole loop raises the same. */
  lemma {:induction false} CollectOptionsFailureSticks(entries: seq<Json>, n: nat, item: Json)
    requires n <= |entries|
    requires CollectOptions(entries[..n], item).Failure?
    ensures CollectOptions(entries, item) == CollectOptions(entries[..n], item)
    decreases |entries| - n
  {
    if n < |entries| {
      assert entries[..n + 1][..n] == entries[..n];
      CollectOptionsFailureSticks(entries, n + 1, item);
    } else {
      assert entries[..n] == entries;
    }
  }

  /** The `value` fields of the entries that have one, in order. */
  function ValuesOf(entries: seq<Json>): seq<Json>
    requires forall i :: 0 <= i < |entries| ==> entries[i].JObject?
    decreases |entries|
  {
    if entries == [] then []
    else
      var e := entries[|entries| - 1];
      var front := ValuesOf(entries[..|entries| - 1]);
      if HasKey(e.members, "value") then front + [LookupLast(e.members, "value")] else front
  }

  predicate NeitherKey(e: Json) {
    e.JObject? && !HasKey(e.members, "value") && !HasKey(e.members, "isOther")
  }

  predicate OtherEntry(e: Json) {
    e.JObject? && !HasKey(e.members, "value") && HasKey(e.members, "isOther")
  }

  /** For entries that are all objects the loop raises exactly when some
      entry has neither `value` nor `isOther`, and then it raises
      `TranslationError` with the item's title. */
  lemma {:induction false} CollectOptionsFails(entries: seq<Json>, item: Json)
    requires forall i :: 0 <= i < |entries| ==> entries[i].JObject?
    requires IsObjectWith(item, "title")
    ensures CollectOptions(entries, item).Success? <==> forall i :: 0 <= i < |entries| ==> !NeitherKey(entries[i])
    ensures CollectOptions(entries, item).Failure? ==>
      CollectOptions(entries, item).error == Translation(CannotParseQuestion(LookupLast(item.members, "title")))
    decreases |entries|
  {
    if entries != [] {
      var n := |entries| - 1;
      var front := entries[..n];
      assert forall i :: 0 <= i < |front| ==> front[i].JObject? by {
        assert forall i :: 0 <= i < |front| ==> front[i] == entries[i];
      }
      CollectOptionsFails(front, item);
      Seqs.AllSnoc(e => !NeitherKey(e), entries, front);
    }
  }

  /** For entries that are all objects, a loop that does not raise keeps the
      `value`s in their order and sets `is_other` exactly when some entry is
      an `isOther` entry without a value. */
  lemma {:induction false} CollectOptionsValues(entries: seq<Json>, item: Json)
    requires forall i :: 0 <= i < |entries| ==> entries[i].JObject?
    requires CollectOptions(entries, item).Success?
    ensures CollectOptions(entries, item).value.0 == ValuesOf(entries)
    ensures CollectOptions(entries, item).value.1 <==> exists i :: 0 <= i < |entries| && OtherEntry(entries[i])
    decreases |entries|
  {
    if entries != [] {
      var n := |entries| - 1;
      var front := entries[..n];
      assert forall i :: 0 <= i < |front| ==> front[i].JObject? by {
        assert forall i :: 0 <= i < |front| ==> front[i] == entries[i];
      }
      CollectOptionsValues(front, item);
      Seqs.ExistsSnoc(e => OtherEntry(e), entries, front);
    }
  }

  /** A form whose question has no `options` path yields `(None, False)`. */
  lemma MissingOptions(item: Json)
    requires ChoiceField(item, "options") == Failure(KeyError)
    ensures OptionsAndIsOther(item) == Success((None, false))
  {
  }

  // ---------------------------------------------------------------------
  // _translate_item and translate

  function Record(qid: Json, text: Json, desc: Json, req: Json, media: Json, kind: Kind, options: Option<seq<Json>>, isOther: bool): TaskRecord
  {
    var choice := if options.Some? && options.value != [] then Some(ChoiceExtra(options.value, isOther)) else None;
    TaskRecord(qid, text, desc, req, media, kind, choice)
  }

  /** `_translate_item(ind, item)` */
  function TranslateItem(ind: nat, item: Json): (r: Result<TaskRecord, Error>)
    ensures IsObjectWithout(item, "title") ==> r == Failure(Translation(NoTitle(ind)))
    ensures r.Success? ==>
      IsObjectWith(item, "title") && IsObjectWith(item, "questionItem") &&
      r.value.text == LookupLast(item.members, "title")
    ensures r.Success? && r.value.choice.Some? ==> r.value.taskType != StringOrText && r.value.choice.value.options != []
  {
    var hasTitle :- Lift(PyIn("title", item));
    if !hasTitle then Failure(Translation(NoTitle(ind)))
    else
      var hasQi :- Lift(PyIn("questionItem", item));
      if !hasQi then
        var t :- TitleOf(item);
        Failure(Translation(UnsupportedItem(ind, t)))
      else
        var qid :- GetGoogleFormQuestionId(item);
        var text :- GetText(item);
        var desc :- GetDescription(item);
        var req :- GetRequired(item);
        var media :- GetInputMedia(item);
        var kind :- GetTaskType(item);
        if MayHaveOptions(Name(kind)) then
          var oo :- OptionsAndIsOther(item);
          Success(Record(qid, text, desc, req, media, kind, oo.0, oo.1))
        else Success(Record(qid, text, desc, req, media, kind, None, false))
  }

  /** The items translated in order, the index of each being its position. */
  function TranslateItems(items: seq<Json>): Result<seq<TaskRecord>, Error>
  {
    MapAll(TranslateItem, items)
  }

  function TranslateForm(form: Json): Result<seq<TaskRecord>, Error>
  {
    var items :- Lift(PyGet(form, "items"));
    var elems :- Lift(PyIter(items));
    TranslateItems(elems)
  }

  /** `Translator.translate`: enumerates `items`, appending each translated
      item; the first raise ends the call. */
  method Translate(form: Json) returns (r: Result<seq<TaskRecord>, Error>)
    ensures r == TranslateForm(form)
  {
    var items := PyGet(form, "items");
    if items.Failure? {
      return Failure(Uncaught(items.error));
    }
    var it := PyIter(items.value);
    if it.Failure? {
      return Failure(Uncaught(it.error));
    }
    var elems := it.value;
    var tasks: seq<TaskRecord> := [];
    for i := 0 to |elems|
      invariant TranslateItems(elems[..i]) == Success(tasks)
    {
      assert elems[..i + 1][..i] == elems[..i];
      var t := TranslateItem(i, elems[i]);
      if t.Failure? {
        MapAllFailureSticks(TranslateItem, elems, i + 1);
        return Failure(t.error);
      }
      tasks := tasks + [t.value];
    }
    assert elems[..|elems|] == elems;
    r := Success(tasks);
  }

  /** A form whose `items` is a list yields one record per item, in item
      order, each the translation of its item at its index. */
  lemma TranslateOnePerItem(form: Json, elems: seq<Json>)
    requires PyGet(form, "items") == Success(JArray(elems))
    requires TranslateForm(form).Success?
    ensures |TranslateForm(form).value| == |elems|
    ensures forall i :: 0 <= i < |elems| ==> TranslateItem(i, elems[i]) == Success(TranslateForm(form).value[i])
  {
    MapAllSuccess(TranslateItem, elems);
  }

  /** All or nothing: the translation of such a form fails exactly when
      some item fails, and then with the error of the first failing item. */
  lemma TranslateAllOrNothing(form: Json, elems: seq<Json>)
    requires PyGet(form, "items") == Success(JArray(elems))
    ensures TranslateForm(form).Failure? <==> exists i :: 0 <= i < |elems| && TranslateItem(i, elems[i]).Failure?
    ensures TranslateForm(form).Failure? ==>
      exists i: nat :: FirstFailure(TranslateItem, elems, i) && TranslateItem(i, elems[i]) == Failure(TranslateForm(form).error)
  {
    MapAllFailure(TranslateItem, elems);
    if TranslateForm(form).Failure? {
      MapAllFirstError(TranslateItem, elems);
    }
  }

  // ---------------------------------------------------------------------
  // The error cases and defaults of one item

  /** An object without `title` names its index. */
  lemma NoTitleError(ind: nat, item: Json)
    requires IsObjectWithout(item, "title")
    ensures TranslateItem(ind, item) == Failure(Translation(NoTitle(ind)))
  {
  }

  /** An object with a title but without `questionItem` is refused as an
      unsupported item. */
  lemma NoQuestionItemError(ind: nat, item: Json)
    requires IsObjectWith(item, "title") && !HasKey(item.members, "questionItem")
    ensures TranslateItem(ind, item) == Failure(Translation(UnsupportedItem(ind, LookupLast(item.members, "title"))))
  {
  }

  /** Missing `question`, or a question without `questionId`, is refused as
      an unparsable question. */
  lemma MissingQuestionIdError(ind: nat, item: Json)
    requires IsObjectWith(item, "title") && IsObjectWith(item, "questionItem")
    requires var qi := LookupLast(item.members, "questionItem");
      qi.JObject? && (!HasKey(qi.members, "question") || IsObjectWithout(LookupLast(qi.members, "question"), "questionId"))
    ensures TranslateItem(ind, item) == Failure(Translation(CannotParseQuestion(LookupLast(item.members, "title"))))
  {
    var qi := LookupLast(item.members, "questionItem");
    assert PyGet(item, "questionItem") == Success(qi);
    if HasKey(qi.members, "question") {
      assert PyGet(qi, "question") == Success(LookupLast(qi.members, "question"));
    }
    assert QuestionField(item, "questionId") == Failure(KeyError);
  }

  /** The question object of an item, when there is one. */
  predicate QuestionIs(item: Json, q: Json) {
    Question(item) == Success(q) && q.JObject?
  }

  /** Kind resolution for an item whose question is an object: a text
      question is recognised first; a choice question by its `type` being
      RADIO or CHECKBOX; everything else is refused with the title. */
  lemma TaskTypeCases(item: Json, q: Json)
    requires IsObjectWith(item, "title") && QuestionIs(item, q)
    ensures GetTaskType(item) == Success(StringOrText) <==> HasKey(q.members, "textQuestion")
    ensures GetTaskType(item) == Success(OneChoice) <==>
      !HasKey(q.members, "textQuestion") && HasKey(q.members, "choiceQuestion") &&
      ChoiceField(item, "type") == Success(JStr("RADIO"))
    ensures GetTaskType(item) == Success(MultipleChoice) <==>
      !HasKey(q.members, "textQuestion") && HasKey(q.members, "choiceQuestion") &&
      ChoiceField(item, "type") == Success(JStr("CHECKBOX"))
    ensures !HasKey(q.members, "textQuestion") && !HasKey(q.members, "choiceQuestion") ==>
      GetTaskType(item) == Failure(Translation(CannotParseType(LookupLast(item.members, "title"))))
    ensures !HasKey(q.members, "textQuestion") && ChoiceField(item, "type") == Failure(KeyError) ==>
      GetTaskType(item) == Failure(Translation(CannotParseType(LookupLast(item.members, "title"))))
    ensures (!HasKey(q.members, "textQuestion") && HasKey(q.members, "choiceQuestion") &&
             ChoiceField(item, "type").Success? &&
             ChoiceField(item, "type").value != JStr("RADIO") && ChoiceField(item, "type").value != JStr("CHECKBOX")) ==>
      GetTaskType(item) == Failure(Translation(CannotParseType(LookupLast(item.members, "title"))))
  {
  }

  /** When the choice question is an object, kind resolution never fails
      with anything but the refusal naming the title. */
  lemma TaskTypeFailures(item: Json, q: Json)
    requires IsObjectWith(item, "title") && QuestionIs(item, q)
    requires HasKey(q.members, "choiceQuestion") ==> LookupLast(q.members, "choiceQuestion").JObject?
    ensures GetTaskType(item).Failure? ==>
      GetTaskType(item) == Failure(Translation(CannotParseType(LookupLast(item.members, "title"))))
  {
    if !HasKey(q.members, "textQuestion") && HasKey(q.members, "choiceQuestion") {
      var cq := LookupLast(q.members, "choiceQuestion");
      assert QuestionField(item, "choiceQuestion") == Success(cq);
    }
  }

  /** Options are attached only to choice kinds and only when the list is
      non-empty; a choice task whose options loop found some carries them. */
  lemma ChoiceKeys(ind: nat, item: Json)
    requires TranslateItem(ind, item).Success?
    ensures var t := TranslateItem(ind, item).value;
      t.choice.Some? ==> t.taskType != StringOrText && t.choice.value.options != []
    ensures var t := TranslateItem(ind, item).value;
      t.taskType != StringOrText && OptionsAndIsOther(item).Success? &&
      OptionsAndIsOther(item).value.0.Some? && OptionsAndIsOther(item).value.0.value != [] ==>
        t.choice == Some(ChoiceExtra(OptionsAndIsOther(item).value.0.value, OptionsAndIsOther(item).value.1))
  {
  }

  /** The record's fields for an item whose question is an object: the id is
      the `questionId`, the text the title, and the optional fields take
      their defaults when absent. */
  lemma ItemFields(ind: nat, item: Json, q: Json)
    requires TranslateItem(ind, item).Success?
    requires item.JObject? && QuestionIs(item, q)
    ensures var t := TranslateItem(ind, item).value;
      t.text == LookupLast(item.members, "title") &&
      t.googleFormQuestionId == QuestionField(item, "questionId").value
    ensures !HasKey(item.members, "description") ==> TranslateItem(ind, item).value.description == JNull
    ensures !HasKey(q.members, "required") ==> TranslateItem(ind, item).value.required == JBool(false)
    ensures IsObjectWithout(LookupLast(item.members, "questionItem"), "image") ==> TranslateItem(ind, item).value.inputMedia == JNull
  {
    var qi := LookupLast(item.members, "questionItem");
    assert PyGet(item, "questionItem") == Success(qi);
    assert qi.JObject? && HasKey(qi.members, "question") && LookupLast(qi.members, "question") == q;
    if !HasKey(q.members, "required") {
      assert QuestionField(item, "required") == Failure(KeyError);
    }
  }
}
