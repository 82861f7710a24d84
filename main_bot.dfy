/** The pure helpers of the main bot: start links and their parameters,
    user names, the skip chain of the test-creation forms, and the reply
    that ends a test. */
module MainBot {
  import opened Wrappers
  import opened PyStr
  import opened ShareLinks
  import opened SenderErrors

  /** The two kinds of shareable entity. */
  datatype Entity = TEST | CLASSROOM

  const TelegramHead := "https://t.me/"
  const StartQuery := "?start="

  /** The start parameter of an entity's link: `test=` or `class=`, then
      the uuid. */
  function StartArg(entity: Entity, uuid: string): (a: string)
    ensures a == (if entity == TEST then "test=" else "class=") + uuid
  {
    (if entity == TEST then "test=" else "class=") + uuid
  }

  /** `generate_link`. The bot name is a parameter: the constant it is read
      from is not defined in the repository. */
  function GenerateLink(botName: string, entity: Entity, uuid: string): (r: string)
    ensures StartsWith(r, TelegramHead + botName + StartQuery)
    ensures r[|TelegramHead + botName + StartQuery|..] == StartArg(entity, uuid)
  {
    var head := TelegramHead + botName + StartQuery;
    var r := head + StartArg(entity, uuid);
    assert r[..|head|] == head;
    r
  }

  /** `get_user_name`: the first name when truthy, then a blank and the last
      name when that is truthy. */
  function UserName(firstName: Option<string>, lastName: Option<string>): (r: string)
    ensures r == "" <==> !TruthyStr(firstName) && !TruthyStr(lastName)
    ensures TruthyStr(firstName) ==> StartsWith(r, firstName.value)
    ensures TruthyStr(lastName) ==> EndsWith(r, " " + lastName.value)
    ensures !TruthyStr(lastName) ==> r == (if TruthyStr(firstName) then firstName.value else "")
  {
    var first := if TruthyStr(firstName) then firstName.value else "";
    var r := if TruthyStr(lastName) then first + " " + lastName.value else first;
    assert r[..|first|] == first;
    assert TruthyStr(lastName) ==> r[|r| - |" " + lastName.value|..] == " " + lastName.value;
    r
  }

  /** What `welcome_message` does with the start arguments, after the user
      is registered and reset. */
  datatype StartAction = MainMenu | JoinClassroom(classroomUuid: string) | JoinTest(testUuid: string) | NoSuchLink

  /** The uuid after the first `=`: `args.split("=")[1]`. */
  function AfterEquals(args: string): (r: Result<string, PyExc>)
    ensures r.Failure? <==> '=' !in args
    ensures r.Failure? ==> r.error == IndexError
  {
    var parts := Split(args, '=');
    SplitCount(args, '=');
    if |parts| < 2 then Failure(IndexError) else Success(parts[1])
  }

  /** The branch `welcome_message` takes: no arguments lead to the main
      menu; a valid class link, then a valid test link, to joining; anything
      else to "no such link". */
  function ClassifyStart(args: Option<string>): (r: Result<StartAction, PyExc>)
    ensures !TruthyStr(args) ==> r == Success(MainMenu)
    ensures TruthyStr(args) && IsValidShareLink(args.value, "class") ==>
      (r.Success? <==> '=' in args.value) && (r.Success? ==> r.value.JoinClassroom?)
    ensures TruthyStr(args) && !IsValidShareLink(args.value, "class") && IsValidShareLink(args.value, "test") ==>
      (r.Success? <==> '=' in args.value) && (r.Success? ==> r.value.JoinTest?)
    ensures TruthyStr(args) && !IsValidShareLink(args.value, "class") && !IsValidShareLink(args.value, "test") ==>
      r == Success(NoSuchLink)
  {
    if !TruthyStr(args) then Success(MainMenu)
    else if IsValidShareLink(args.value, "class") then
      var uuid :- AfterEquals(args.value);
      Success(JoinClassroom(uuid))
    else if IsValidShareLink(args.value, "test") then
      var uuid :- AfterEquals(args.value);
      Success(JoinTest(uuid))
    else Success(NoSuchLink)
  }

  lemma UuidFacts(uuid: string)
    requires Lang(UuidPattern(), uuid)
    ensures |uuid| >= 32 && Strip(uuid) == uuid && '=' !in uuid
    ensures IsValidShareLink(uuid, "") && Consume(UuidPattern(), uuid) == Some([])
  {
    UuidChars(uuid);
    assert HexOrHyphen(uuid[0]) && HexOrHyphen(uuid[|uuid| - 1]);
    StripNoEdgeSpace(uuid);
    UuidPatternWellFormed();
    FullMatchCorrect(UuidPattern(), uuid);
    assert RemovePrefix(uuid, "" + "=") == uuid by {
      if StartsWith(uuid, "=") {
        assert HexOrHyphen(uuid[0]);
      }
    }
  }

  /** A string whose first character is no hex digit holds no UUID. */
  lemma NoUuidAfterLetter(s: string)
    requires s != [] && !AtomMatches(Hex, s[0])
    ensures Consume(UuidPattern(), s) == None
  {
    assert UuidPattern()[0] == Hex;
  }

  /** `key=uuid` passes the check for `key`, and its uuid is what follows
      the `=`. */
  lemma KeyedUuid(key: string, uuid: string)
    requires Lang(UuidPattern(), uuid) && '=' !in key
    requires key == [] || !IsSpace(key[0])
    ensures IsValidShareLink(key + "=" + uuid, key)
    ensures AfterEquals(key + "=" + uuid) == Success(uuid)
  {
    UuidFacts(uuid);
    var a := key + "=" + uuid;
    assert a[..|key|] == key && a[..|key + "="|] == key + "=";
    assert RemovePrefix(a, key + "=") == uuid;
    SplitAfterFree(key, '=', uuid);
    SplitFree(uuid, '=');
  }

  /** A test link's parameter fails the class check. */
  lemma TestArgNotClass(uuid: string)
    requires Lang(UuidPattern(), uuid)
    ensures !IsValidShareLink("test=" + uuid, "class")
  {
    UuidFacts(uuid);
    UuidChars(uuid);
    var a := "test=" + uuid;
    assert a[|a| - 1] == uuid[|uuid| - 1];
    assert HexOrHyphen(uuid[|uuid| - 1]);
    StripNoEdgeSpace(a);
    assert a[0] == 't';
    assert !StartsWith(a, "class");
    NoUuidAfterLetter(a);
  }

  /** The link `generate_link` makes leads back to its entity: the start
      parameter of a class link is taken for that classroom, that of a test
      link for that test. */
  lemma StartOfGeneratedLink(entity: Entity, uuid: string)
    requires Lang(UuidPattern(), uuid)
    ensures ClassifyStart(Some(StartArg(entity, uuid))) ==
      Success(if entity == TEST then JoinTest(uuid) else JoinClassroom(uuid))
  {
    var a := StartArg(entity, uuid);
    var key := if entity == TEST then "test" else "class";
    assert a == key + "=" + uuid;
    KeyedUuid(key, uuid);
    if entity == TEST {
      TestArgNotClass(uuid);
    }
    StartBranches(a, key == "test");
  }

  lemma StartBranches(a: string, isTest: bool)
    requires a != []
    requires AfterEquals(a).Success?
    requires !isTest ==> IsValidShareLink(a, "class")
    requires isTest ==> !IsValidShareLink(a, "class") && IsValidShareLink(a, "test")
    ensures ClassifyStart(Some(a)) == Success(if isTest then JoinTest(AfterEquals(a).value) else JoinClassroom(AfterEquals(a).value))
  {
  }

  /** A start parameter that is a bare uuid passes the class check but has
      no `=`, so `welcome_message` fails with an `IndexError`. */
  lemma BareUuidStart(uuid: string)
    requires Lang(UuidPattern(), uuid)
    ensures ClassifyStart(Some(uuid)) == Failure(IndexError)
  {
    UuidFacts(uuid);
    UuidChars(uuid);
    assert HexOrHyphen(uuid[1]);
    assert IsValidShareLink(uuid, "class");
  }

  /** One entry of `CREATION_FORMS`: the form state to enter, the prompt,
      and the state its skip button leads to. */
  datatype FormEntry = FormEntry(form: string, stateText: string, nextState: string)

  const TitleState := "create_test_title"
  const TimeState := "create_test_time"
  const DeadlineState := "create_test_deadline"
  const AttemptsState := "create_test_attempts_number"
  const SaveWithAdditions := "create_test_save_with_additions"

  /** The creation forms of the main bot. */
  function CreationForms(): map<string, FormEntry> {
    map[
      TitleState := FormEntry(TitleState, "Введите заголовок", TimeState),
      TimeState := FormEntry(TimeState, "Введите продолжительность", DeadlineState),
      DeadlineState := FormEntry(DeadlineState, "Введите срок выполнения", AttemptsState),
      AttemptsState := FormEntry(AttemptsState, "Введите число попыток", SaveWithAdditions)]
  }

  /** The states visited by following `next_state` from `s`, at most `n`
      steps, stopping at a state that is no key. */
  function Walk(forms: map<string, FormEntry>, s: string, n: nat): (w: seq<string>)
    ensures |w| >= 1 && w[0] == s
    ensures |w| <= n + 1
    decreases n
  {
    if n == 0 || s !in forms then [s] else [s] + Walk(forms, forms[s].nextState, n - 1)
  }

  /** Every skip target is a form or the final save, and each form enters
      its own state. */
  predicate ChainClosed(forms: map<string, FormEntry>) {
    SaveWithAdditions !in forms &&
    forall k :: k in forms ==> forms[k].form == k && (forms[k].nextState in forms || forms[k].nextState == SaveWithAdditions)
  }

  /** The chain title, time, deadline, attempts, then the save. */
  lemma CreationFormsChain()
    ensures ChainClosed(CreationForms())
    ensures Walk(CreationForms(), TitleState, 10) == [TitleState, TimeState, DeadlineState, AttemptsState, SaveWithAdditions]
  {
  }

  /** What `handle_cancel_addition_query` does with `x#state`: the final
      save, or the prompt of that state with a skip button to its next one,
      which needs `state` to be a key. */
  datatype CancelStep = SaveTest | Prompt(entered: string, text: string, skipTo: string)

  function CancelAddition(forms: map<string, FormEntry>, data: string): (r: Result<CancelStep, PyExc>)
    ensures r.Failure? ==> r.error == IndexError || r.error == KeyError
    ensures r.Success? && r.value.Prompt? ==> exists k :: k in forms && forms[k] == FormEntry(r.value.entered, r.value.text, r.value.skipTo)
  {
    var parts := Split(data, '#');
    if |parts| < 2 then Failure(IndexError)
    else if parts[1] == SaveWithAdditions then Success(SaveTest)
    else if parts[1] !in forms then Failure(KeyError)
    else Success(Prompt(forms[parts[1]].form, forms[parts[1]].stateText, forms[parts[1]].nextState))
  }

  /** Skipping along a closed chain never fails: each prompt's skip target
      is again a state the handler knows. */
  lemma CancelAdditionChain(forms: map<string, FormEntry>, prefix: string, k: string)
    requires ChainClosed(forms) && '#' !in prefix && '#' !in k
    requires k in forms || k == SaveWithAdditions
    ensures CancelAddition(forms, prefix + "#" + k).Success?
    ensures k == SaveWithAdditions ==> CancelAddition(forms, prefix + "#" + k) == Success(SaveTest)
    ensures k in forms ==> CancelAddition(forms, prefix + "#" + k) == Success(Prompt(k, forms[k].stateText, forms[k].nextState))
    ensures k in forms ==> var t := forms[k].nextState; t in forms || t == SaveWithAdditions
  {
    SplitAfterFree(prefix, '#', k);
    SplitFree(k, '#');
  }

  /** The replies of `handle_end_test_query`: the first `except` clause that
      catches the error picks the text. */
  const EndTestDone := "Тест завершён"
  const TryLaterText := "unfortunately, some error occurred. try send later"
  const TestDataText := "unfortunately, some error with test data occurred."
  const ConnectionText := "unfortunately, some error with connection occurred."
  const SomeErrorText := "unfortunately, some error occurred."

  /** The clauses in order, each with its class and its reply. */
  function EndTestClauses(): seq<(ErrorClass, string)> {
    [(JSONParseErrorClass, TryLaterText), (URLErrorClass, TestDataText), (HTTPErrorClass, ConnectionText),
     (HTMLErrorClass, SomeErrorText), (TestCompleteFailErrorClass, SomeErrorText)]
  }

  /** Clause `i` is the first to catch `e`. */
  predicate FirstCatcher(clauses: seq<(ErrorClass, string)>, e: SenderError, i: int) {
    0 <= i < |clauses| && IsInstance(e, clauses[i].0) && forall j :: 0 <= j < i ==> !IsInstance(e, clauses[j].0)
  }

  /** The reply of the first clause that catches `e`, if any. */
  function FirstClause(clauses: seq<(ErrorClass, string)>, e: SenderError): (r: Option<string>)
    ensures r.Some? <==> exists i :: 0 <= i < |clauses| && IsInstance(e, clauses[i].0)
    ensures r.Some? ==> exists i :: FirstCatcher(clauses, e, i) && clauses[i].1 == r.value
    decreases |clauses|
  {
    if clauses == [] then None
    else if IsInstance(e, clauses[0].0) then Some(clauses[0].1)
    else
      var r := FirstClause(clauses[1..], e);
      assert forall i :: 1 <= i < |clauses| ==> clauses[i] == clauses[1..][i - 1];
      if r.Some? then
        assert exists i :: FirstCatcher(clauses, e, i) && clauses[i].1 == r.value by {
          var i' :| FirstCatcher(clauses[1..], e, i') && clauses[1..][i'].1 == r.value;
          assert clauses[i' + 1] == clauses[1..][i'];
          forall j | 0 <= j < i' + 1
            ensures !IsInstance(e, clauses[j].0)
          {
            if j > 0 {
              assert clauses[j] == clauses[1..][j - 1];
            }
          }
          assert FirstCatcher(clauses, e, i' + 1);
        }
        r
      else r
  }

  /** Every error of the sender gets a reply; the HTTP error, although a
      `TestCompleteFailError`, gets the connection reply because its clause
      comes first; the HTML and the generic failure share a text. */
  lemma EndTestReplies(e: SenderError)
    ensures FirstClause(EndTestClauses(), e).Some?
    ensures FirstClause(EndTestClauses(), e).value ==
      match e
      case JSONParseError(_) => TryLaterText
      case URLError => TestDataText
      case HTTPError(_) => ConnectionText
      case HTMLError(_) => SomeErrorText
      case TestCompleteFailError => SomeErrorText
  {
    var cs := EndTestClauses();
    assert cs[1..][1..][1..][1..][1..] == [];
  }
}
