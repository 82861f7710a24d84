/** The bot's per-user navigation state and the handlers that change it:
    the user records with `current_test_id`, `current_task_id` and
    `current_messages_to_delete`, the tasks and tests, the answer table, and
    the chat messages the handlers send, edit and delete, kept as a log. */
module Handlers {
  import opened Wrappers
  import opened PyStr
  import opened QuestionKinds
  import QuestionType
  import opened Questions
  import opened AnswerStore
  import Buttons
  import MainBot
  import FormAnswerSender
  import SenderErrors
  import Json
  import Seqs

  /** The navigation fields of a user record, and the name it was added with. */
  datatype User = User(name: string, currentTestId: Option<int>, currentTaskId: Option<int>, messagesToDelete: seq<int>)

  datatype Task = Task(id: int, testId: int, taskType: string, googleFormQuestionId: string, text: string,
                       options: seq<string>, inputMedia: Option<string>)

  datatype Test = Test(title: string, metaData: Option<string>)

  /** The text of a message; two of the bot's greetings are named constants
      whose text is not part of this model. */
  datatype Text = Plain(s: string) | StartText | MainMenuText

  /** What a handler does in the chat. */
  datatype Effect =
    | Sent(chat: int, messageId: int, body: Text)
    | PhotoSent(chat: int, messageId: int, photo: string)
    | Edited(chat: int, messageId: int, newText: string)
    | Deleted(chat: int, messageId: int)
    | CallbackAnswered(notice: string)

  const SavedText := "Ответ сохранен"
  const TaskDeletedText := "Тест был удален"
  const InvalidFormatText := "invalid format of answer. please, try again"
  const DeletedByAuthorText := "Тест был удален автором"
  const NoLinkText := "Ссылки не существует"

  /** Python truthiness of an id that may be `None`: 0 is false too. */
  predicate IsSetId(o: Option<int>) {
    o.Some? && o.value != 0
  }

  /** The user has a current test and a current task. */
  predicate Ready(users: map<int, User>, userId: int) {
    userId in users && IsSetId(users[userId].currentTestId) && IsSetId(users[userId].currentTaskId)
  }

  /** The deletions `delete_question_messages` attempts, in order. */
  function Deletions(chat: int, ids: seq<int>): (r: seq<Effect>)
    ensures |r| == |ids| && forall i :: 0 <= i < |ids| ==> r[i] == Deleted(chat, ids[i])
  {
    seq(|ids|, i requires 0 <= i < |ids| => Deleted(chat, ids[i]))
  }

  /** The ids of a test's tasks. */
  function TaskIdsOfTest(tasks: map<int, Task>, testId: Option<int>): (r: set<int>)
    ensures forall k :: k in r <==> k in tasks && testId == Some(tasks[k].testId)
  {
    set k | k in tasks && testId == Some(tasks[k].testId)
  }

  /** `get_answers_by_test_id_and_user_id`: the user's rows for those tasks,
      in table order. */
  function RowsOf(rows: seq<AnswerRow>, taskIds: set<int>, userId: int): (r: seq<AnswerRow>)
    ensures forall x :: x in r <==> x in rows && x.userId == userId && x.taskId in taskIds
    ensures |r| <= |rows|
    decreases |rows|
  {
    if rows == [] then []
    else
      var front := RowsOf(rows[..|rows| - 1], taskIds, userId);
      var x := rows[|rows| - 1];
      assert forall y :: y in rows <==> y in rows[..|rows| - 1] || y == x by {
        assert rows == rows[..|rows| - 1] + [x];
      }
      if x.userId == userId && x.taskId in taskIds then front + [x] else front
  }

  /** The form key of one stored answer: its task must exist (else
      `AttributeError`), have a known type (else `KeyError`) and a hex
      question id (else `ValueError`). */
  function AnswerKey(tasks: map<int, Task>, row: AnswerRow): (r: Result<int, PyExc>)
    ensures r.Success? <==> HasKey(tasks, row)
    ensures r.Success? ==> Some(r.value) == ParseInt(tasks[row.taskId].googleFormQuestionId, 16)
  {
    if row.taskId !in tasks then Failure(AttributeError)
    else if FromName(tasks[row.taskId].taskType).None? then Failure(KeyError)
    else match ParseInt(tasks[row.taskId].googleFormQuestionId, 16)
      case None => Failure(ValueError)
      case Some(k) => Success(k)
  }

  predicate HasKey(tasks: map<int, Task>, row: AnswerRow) {
    row.taskId in tasks && FromName(tasks[row.taskId].taskType).Some? &&
    ParseInt(tasks[row.taskId].googleFormQuestionId, 16).Some?
  }

  /** The answers `handle_end_test_query` submits: one entry per key, in
      first-insertion order. The value is `None`: the conversion it calls
      is looked up on the class, so the answer row is bound as `self` and
      the method body, `pass`, returns `None`. */
  function FormAnswers(tasks: map<int, Task>, rows: seq<AnswerRow>): (r: Result<FormAnswerSender.Answers, PyExc>)
    ensures r.Success? ==> FormAnswerSender.DistinctIds(r.value) && |r.value| <= |rows|
    ensures r.Success? ==> forall i :: 0 <= i < |r.value| ==> r.value[i].1.None?
    decreases |rows|
  {
    if rows == [] then Success([])
    else
      match FormAnswers(tasks, rows[..|rows| - 1])
      case Failure(e) => Failure(e)
      case Success(front) =>
        match AnswerKey(tasks, rows[|rows| - 1])
        case Failure(e) => Failure(e)
        case Success(key) => Success(FormAnswerSender.DictSet(front, key, None))
  }

  /** Some stored answer has form key `k`. */
  predicate KeyOfSome(tasks: map<int, Task>, rows: seq<AnswerRow>, k: int) {
    exists i :: 0 <= i < |rows| && AnswerKey(tasks, rows[i]) == Success(k)
  }

  /** The conversion succeeds exactly when every stored answer has a form
      key. */
  lemma {:induction false} FormAnswersSucceeds(tasks: map<int, Task>, rows: seq<AnswerRow>)
    ensures FormAnswers(tasks, rows).Success? <==> forall i :: 0 <= i < |rows| ==> HasKey(tasks, rows[i])
    decreases |rows|
  {
    if rows != [] {
      FormAnswersSucceeds(tasks, rows[..|rows| - 1]);
      FormAnswersSnoc(tasks, rows);
      AllHaveKeysSnoc(tasks, rows, rows[..|rows| - 1]);
    }
  }

  lemma FormAnswersSnoc(tasks: map<int, Task>, rows: seq<AnswerRow>)
    requires rows != []
    ensures FormAnswers(tasks, rows).Success? <==>
      FormAnswers(tasks, rows[..|rows| - 1]).Success? && HasKey(tasks, rows[|rows| - 1])
  {
  }

  lemma AllHaveKeysSnoc(tasks: map<int, Task>, rows: seq<AnswerRow>, init: seq<AnswerRow>)
    requires rows != [] && init == rows[..|rows| - 1]
    ensures (forall i :: 0 <= i < |rows| ==> HasKey(tasks, rows[i])) <==>
      (forall i :: 0 <= i < |init| ==> HasKey(tasks, init[i])) && HasKey(tasks, rows[|rows| - 1])
  {
    Seqs.AllSnoc(r => HasKey(tasks, r), rows, init);
  }

  /** The answers sent carry the stored answers' keys and no others. */
  lemma {:induction false} FormAnswersKeys(tasks: map<int, Task>, rows: seq<AnswerRow>)
    requires FormAnswers(tasks, rows).Success?
    ensures forall k :: FormAnswerSender.HasId(FormAnswers(tasks, rows).value, k) <==> KeyOfSome(tasks, rows, k)
    decreases |rows|
  {
    if rows != [] {
      var n := |rows| - 1;
      var init := rows[..n];
      var front := FormAnswers(tasks, init).value;
      var key := AnswerKey(tasks, rows[n]).value;
      FormAnswersKeys(tasks, init);
      var r := FormAnswers(tasks, rows).value;
      assert r == FormAnswerSender.DictSet(front, key, None);
      forall k
        ensures FormAnswerSender.HasId(r, k) <==> KeyOfSome(tasks, rows, k)
      {
        KeyOfSomeSnoc(tasks, rows, k);
      }
    }
  }

  /** A key belongs to some answer of `rows` exactly when it belongs to one
      of all but the last, or to the last. */
  lemma KeyOfSomeSnoc(tasks: map<int, Task>, rows: seq<AnswerRow>, k: int)
    requires rows != []
    ensures KeyOfSome(tasks, rows, k) <==>
      KeyOfSome(tasks, rows[..|rows| - 1], k) || AnswerKey(tasks, rows[|rows| - 1]) == Success(k)
  {
    Seqs.ExistsSnoc(r => AnswerKey(tasks, r) == Success(k), rows, rows[..|rows| - 1]);
  }

  /** `send_question` as written gives back, per kind, the photo message (if
      the task has media) and then the question message. The one-choice
      kind writes `msg1 = await ...,` with a trailing comma, so its photo
      entry is a one-element tuple. */
  datatype SentMessage = Message(id: int) | OneTuple(id: int)

  function QuestionMessagesAsWritten(k: Kind, photoId: Option<int>, textId: int): (r: seq<SentMessage>)
    ensures |r| == (if photoId.Some? then 2 else 1) && r[|r| - 1] == Message(textId)
  {
    if photoId.None? then [Message(textId)]
    else if k == OneChoice then [OneTuple(photoId.value), Message(textId)]
    else [Message(photoId.value), Message(textId)]
  }

  /** The corrected form: plain messages for every kind. */
  function QuestionMessages(k: Kind, photoId: Option<int>, textId: int): (r: seq<SentMessage>)
    ensures |r| == (if photoId.Some? then 2 else 1) && r[|r| - 1] == Message(textId)
    ensures forall i :: 0 <= i < |r| ==> r[i].Message?
  {
    if photoId.None? then [Message(textId)] else [Message(photoId.value), Message(textId)]
  }

  /** `[msg.message_id for msg in messages if msg is not None]`: a tuple has
      no `message_id`. */
  function MessageIds(ms: seq<SentMessage>): (r: Result<seq<int>, PyExc>)
    ensures r.Success? <==> forall i :: 0 <= i < |ms| ==> ms[i].Message?
    ensures r.Failure? ==> r.error == AttributeError
    ensures r.Success? ==> |r.value| == |ms| && forall i :: 0 <= i < |ms| ==> r.value[i] == ms[i].id
    decreases |ms|
  {
    if ms == [] then Success([])
    else if ms[0].OneTuple? then Failure(AttributeError)
    else
      var rest :- MessageIds(ms[1..]);
      assert forall i :: 1 <= i < |ms| ==> ms[i] == ms[1..][i - 1];
      Success([ms[0].id] + rest)
  }

  /** The discrepancy: opening a one-choice task with an image fails as
      written, and yields both message ids when corrected. */
  lemma OneChoicePhotoTuple(photoId: int, textId: int)
    ensures MessageIds(QuestionMessagesAsWritten(OneChoice, Some(photoId), textId)) == Failure(AttributeError)
    ensures MessageIds(QuestionMessages(OneChoice, Some(photoId), textId)) == Success([photoId, textId])
  {
    assert QuestionMessagesAsWritten(OneChoice, Some(photoId), textId)[0].OneTuple?;
    var ms := QuestionMessages(OneChoice, Some(photoId), textId);
    assert ms == [Message(photoId), Message(textId)];
    var r := MessageIds(ms);
    assert r.Success? && |r.value| == 2;
    assert r.value == [photoId, textId];
  }

  /** The two forms agree on every other kind and on tasks without media. */
  lemma QuestionMessagesAgree(k: Kind, photoId: Option<int>, textId: int)
    ensures QuestionMessagesAsWritten(k, photoId, textId) == QuestionMessages(k, photoId, textId)
      <==> k != OneChoice || photoId.None?
  {
  }

  /** Every corrected question message has an id, in sending order. */
  lemma MessageIdsOfQuestion(k: Kind, photoId: Option<int>, textId: int)
    ensures MessageIds(QuestionMessages(k, photoId, textId)) ==
      Success(if photoId.Some? then [photoId.value, textId] else [textId])
  {
    var r := MessageIds(QuestionMessages(k, photoId, textId));
    assert r.Success?;
    if photoId.Some? {
      assert r.value == [photoId.value, textId];
    } else {
      assert r.value == [textId];
    }
  }

  /** The keyword arguments a `send_question` accepts. */
  const SendQuestionParams: set<string> := {"bot", "user_id", "task"}

  /** Binding keyword arguments to `send_question`: an unknown keyword is a
      `TypeError`. */
  function BindSendQuestion(keywords: set<string>): (r: Result<(), PyExc>)
    ensures r.Success? <==> keywords <= SendQuestionParams
    ensures r.Failure? ==> r.error == TypeError
  {
    if keywords <= SendQuestionParams then Success(()) else Failure(TypeError)
  }

  /** `handle_spec_current_test_task_query` passes `menu_message_id`, which
      no `send_question` takes. */
  lemma SpecTaskCallFails()
    ensures BindSendQuestion({"bot", "user_id", "task", "menu_message_id"}) == Failure(TypeError)
    ensures BindSendQuestion({"bot", "user_id", "task"}) == Success(())
  {
    assert "menu_message_id" !in SendQuestionParams;
  }

  /** The save `handle_question` runs: `save_answer` as written, or with the
      first multiple-choice press corrected. The two agree except on a
      multiple-choice button press. */
  function SaveOf(corrected: bool, k: Kind, ans: UserAnswer): (r: Result<(Values, Option<Converter>), PyExc>)
    ensures !(k == MultipleChoice && ans.CallbackAnswer?) ==> r == SaveAnswer(k, ans) && r == SaveAnswerAsWritten(k, ans)
    ensures corrected ==> r == SaveAnswer(k, ans)
    ensures !corrected ==> r == SaveAnswerAsWritten(k, ans)
  {
    SaveAnswerCorrection(k, ans);
    if corrected then SaveAnswer(k, ans) else SaveAnswerAsWritten(k, ans)
  }

  /** A text answer is stored even when it is empty or missing: saving does
      not validate. */
  lemma InvalidTextStillSaved(text: Option<string>)
    requires !IsValidAnswer(StringOrText, text)
    ensures SaveAnswer(StringOrText, MessageAnswer(text)) == Success((Values([text], SAVED), None))
    ensures text == None || text == Some("")
  {
  }

  /** A prefix whose conversion fails makes the whole conversion fail with
      the same error: the loop stops at the first bad answer. */
  lemma {:induction false} FormAnswersPrefixFailure(tasks: map<int, Task>, rows: seq<AnswerRow>, j: nat)
    requires j <= |rows| && FormAnswers(tasks, rows[..j]).Failure?
    ensures FormAnswers(tasks, rows) == FormAnswers(tasks, rows[..j])
    decreases |rows|
  {
    if j < |rows| {
      var n := |rows| - 1;
      assert rows[..n][..j] == rows[..j];
      FormAnswersPrefixFailure(tasks, rows[..n], j);
    } else {
      assert rows[..j] == rows;
    }
  }

  /** One more answer with a form key extends the conversion by that key. */
  lemma FormAnswersStep(tasks: map<int, Task>, rows: seq<AnswerRow>, i: nat, acc: FormAnswerSender.Answers, k: int)
    requires i < |rows| && FormAnswers(tasks, rows[..i]) == Success(acc)
    requires AnswerKey(tasks, rows[i]) == Success(k)
    ensures FormAnswers(tasks, rows[..i + 1]) == Success(FormAnswerSender.DictSet(acc, k, None))
  {
    assert rows[..i + 1][..i] == rows[..i] && rows[..i + 1][i] == rows[i];
  }

  /** An answer without a form key makes the whole conversion fail with
      that answer's error. */
  lemma FormAnswersStepFails(tasks: map<int, Task>, rows: seq<AnswerRow>, i: nat, acc: FormAnswerSender.Answers)
    requires i < |rows| && FormAnswers(tasks, rows[..i]) == Success(acc)
    requires AnswerKey(tasks, rows[i]).Failure?
    ensures FormAnswers(tasks, rows) == Failure(AnswerKey(tasks, rows[i]).error)
  {
    assert rows[..i + 1][..i] == rows[..i] && rows[..i + 1][i] == rows[i];
    FormAnswersPrefixFailure(tasks, rows, i + 1);
  }

  // ---------------------------------------------------------------------
  // `update_user_by_id`: updating a user that does not exist changes nothing.

  function WithTest(users: map<int, User>, userId: int, testId: Option<int>): map<int, User> {
    if userId in users then users[userId := users[userId].(currentTestId := testId)] else users
  }

  function WithTask(users: map<int, User>, userId: int, taskId: Option<int>): map<int, User> {
    if userId in users then users[userId := users[userId].(currentTaskId := taskId)] else users
  }

  function WithMessages(users: map<int, User>, userId: int, ids: seq<int>): map<int, User> {
    if userId in users then users[userId := users[userId].(messagesToDelete := ids)] else users
  }

  /** The text `welcome_message` sends for the branch it took, if any; the
      classroom and test joining branches are not part of this model. */
  function StartReply(a: MainBot.StartAction): Option<Text> {
    match a
    case MainMenu => Some(MainMenuText)
    case NoSuchLink => Some(Plain(NoLinkText))
    case _ => None
  }

  /** The text of the question message: the task text for a text question,
      the numbered options for a choice question. */
  function QuestionText(k: Kind, task: Task): string {
    if k == StringOrText then task.text else OptionsHeader + OptionLines(task.options)
  }

  /** The messages `send_question` sends, from message id `first` on: the
      image when the task has one, then the question. */
  function QuestionEffects(chat: int, first: int, k: Kind, task: Task): seq<Effect> {
    if TruthyStr(task.inputMedia) then
      [PhotoSent(chat, first, task.inputMedia.value), Sent(chat, first + 1, Plain(QuestionText(k, task)))]
    else [Sent(chat, first, Plain(QuestionText(k, task)))]
  }

  /** The reply `handle_end_test_query` edits in for a caught sender error. */
  function EndTestErrorText(e: SenderErrors.SenderError): string {
    MainBot.EndTestReplies(e);
    MainBot.FirstClause(MainBot.EndTestClauses(), e).value
  }

  /** The bot's view of one chat deployment: the user, task and test
      tables, the answer table, and the log of chat effects. Message ids are
      handed out in order from `nextMessageId`. */
  class Bot {
    var users: map<int, User>
    var tasks: map<int, Task>
    var tests: map<int, Test>
    const store: Store
    var outbox: seq<Effect>
    var nextMessageId: int

    ghost predicate Valid()
      reads this, store
    {
      store.Valid() && forall k :: k in tasks ==> tasks[k].id == k
    }

    constructor(users0: map<int, User>, tasks0: map<int, Task>, tests0: map<int, Test>)
      requires forall k :: k in tasks0 ==> tasks0[k].id == k
      ensures Valid() && fresh(store)
      ensures users == users0 && tasks == tasks0 && tests == tests0 && outbox == [] && store.rows == []
    {
      users := users0;
      tasks := tasks0;
      tests := tests0;
      store := new Store();
      outbox := [];
      nextMessageId := 1;
    }

    /** `bot.send_message` and `bot.send_photo`: the message gets the next id. */
    method Send(chat: int, text: Text) returns (id: int)
      modifies this
      ensures id == old(nextMessageId) && nextMessageId == id + 1
      ensures outbox == old(outbox) + [Sent(chat, id, text)]
      ensures users == old(users) && tasks == old(tasks) && tests == old(tests)
    {
      id := nextMessageId;
      nextMessageId := nextMessageId + 1;
      outbox := outbox + [Sent(chat, id, text)];
    }

    method SendPhoto(chat: int, photo: string) returns (id: int)
      modifies this
      ensures id == old(nextMessageId) && nextMessageId == id + 1
      ensures outbox == old(outbox) + [PhotoSent(chat, id, photo)]
      ensures users == old(users) && tasks == old(tasks) && tests == old(tests)
    {
      id := nextMessageId;
      nextMessageId := nextMessageId + 1;
      outbox := outbox + [PhotoSent(chat, id, photo)];
    }

    /** An edit, a deletion or a callback acknowledgement. */
    method Emit(e: Effect)
      modifies this
      ensures outbox == old(outbox) + [e]
      ensures users == old(users) && tasks == old(tasks) && tests == old(tests) && nextMessageId == old(nextMessageId)
    {
      outbox := outbox + [e];
    }

    /** `get_current_user_test_task_state`: an unknown user gives no user and
        no ids; a user without a current test or task gets the incoming
        message deleted and no ids; otherwise both ids come back. */
    method GetCurrentUserTestTaskState(userId: int, messageId: int) returns (user: Option<User>, testId: Option<int>, taskId: Option<int>)
      modifies this
      ensures users == old(users) && tasks == old(tasks) && tests == old(tests) && nextMessageId == old(nextMessageId)
      ensures user == (if userId in users then Some(users[userId]) else None)
      ensures taskId.Some? <==> Ready(users, userId)
      ensures testId.Some? <==> Ready(users, userId)
      ensures Ready(users, userId) ==> testId == users[userId].currentTestId && taskId == users[userId].currentTaskId
      ensures outbox == old(outbox) + (if userId in users && !Ready(users, userId) then [Deleted(userId, messageId)] else [])
    {
      if userId !in users {
        return None, None, None;
      }
      var u := users[userId];
      if !IsSetId(u.currentTestId) || !IsSetId(u.currentTaskId) {
        Emit(Deleted(userId, messageId));
        return Some(u), None, None;
      }
      return Some(u), u.currentTestId, u.currentTaskId;
    }

    /** `get_task_safe`: the lookup result, unchanged; a missing task has
        the message edited to say the test was deleted. */
    method GetTaskSafe(taskId: int, chat: int, messageId: int) returns (task: Option<Task>)
      modifies this
      ensures users == old(users) && tasks == old(tasks) && tests == old(tests) && nextMessageId == old(nextMessageId)
      ensures task == (if taskId in tasks then Some(tasks[taskId]) else None)
      ensures outbox == old(outbox) + (if taskId in tasks then [] else [Edited(chat, messageId, TaskDeletedText)])
    {
      if taskId !in tasks {
        Emit(Edited(chat, messageId, TaskDeletedText));
        return None;
      }
      return Some(tasks[taskId]);
    }

    /** `handle_question`: with a current test and task, saves the answer to
        the given task (or to the current one, looked up safely) and then
        acknowledges it: a button press gets the callback answered, a
        message gets a confirmation, and both the user's message and the
        confirmation are queued for deletion, in that order. */
    method HandleQuestion(corrected: bool, k: Kind, ans: UserAnswer, userId: int, answerMessageId: int, given: Option<Task>)
      returns (r: Result<(), PyExc>)
      requires Valid()
      modifies this, store
      ensures Valid()
      ensures tasks == old(tasks) && tests == old(tests)
      ensures !Ready(old(users), userId) ==>
        r == Success(()) && users == old(users) && store.rows == old(store.rows) && nextMessageId == old(nextMessageId) &&
        outbox == old(outbox) + (if userId in old(users) then [Deleted(userId, answerMessageId)] else [])
      ensures Ready(old(users), userId) && given.None? && old(users)[userId].currentTaskId.value !in tasks ==>
        r == Success(()) && users == old(users) && store.rows == old(store.rows) && nextMessageId == old(nextMessageId) &&
        outbox == old(outbox) + [Edited(userId, answerMessageId, TaskDeletedText)]
      ensures Ready(old(users), userId) && (given.Some? || old(users)[userId].currentTaskId.value in tasks) ==>
        var task := if given.Some? then given.value else tasks[old(users)[userId].currentTaskId.value];
        var u := old(users)[userId];
        match SaveOf(corrected, k, ans)
        case Failure(e) =>
          r == Failure(e) && users == old(users) && store.rows == old(store.rows) && outbox == old(outbox)
        case Success((vals, conv)) =>
          r == Success(()) &&
          store.rows == Upsert(old(store.rows), old(store.nextId), vals, userId, task.id, conv) &&
          if ans.CallbackAnswer? then
            users == old(users) && outbox == old(outbox) + [CallbackAnswered(SavedText)] &&
            nextMessageId == old(nextMessageId)
          else
            outbox == old(outbox) + [Sent(userId, old(nextMessageId), Plain(SavedText))] &&
            users == old(users)[userId := u.(messagesToDelete := u.messagesToDelete + [answerMessageId, old(nextMessageId)])]
    {
      var user, curTestId, curTaskId := GetCurrentUserTestTaskState(userId, answerMessageId);
      if curTestId.None? || curTaskId.None? {
        return Success(());
      }
      var task: Task;
      if given.None? {
        var found := GetTaskSafe(curTaskId.value, userId, answerMessageId);
        if found.None? {
          return Success(());
        }
        task := found.value;
      } else {
        task := given.value;
      }
      r := SaveAndAcknowledge(corrected, k, ans, userId, answerMessageId, task);
    }

    /** The end of `handle_question`, for a registered user and a known
        task: the save, then the acknowledgement. */
    method SaveAndAcknowledge(corrected: bool, k: Kind, ans: UserAnswer, userId: int, answerMessageId: int, task: Task)
      returns (r: Result<(), PyExc>)
      requires Valid() && userId in users
      modifies this, store
      ensures Valid()
      ensures tasks == old(tasks) && tests == old(tests)
      ensures var u := old(users)[userId];
        match SaveOf(corrected, k, ans)
        case Failure(e) =>
          r == Failure(e) && users == old(users) && store.rows == old(store.rows) && outbox == old(outbox) &&
          nextMessageId == old(nextMessageId)
        case Success((vals, conv)) =>
          r == Success(()) &&
          store.rows == Upsert(old(store.rows), old(store.nextId), vals, userId, task.id, conv) &&
          if ans.CallbackAnswer? then
            users == old(users) && outbox == old(outbox) + [CallbackAnswered(SavedText)] &&
            nextMessageId == old(nextMessageId)
          else
            outbox == old(outbox) + [Sent(userId, old(nextMessageId), Plain(SavedText))] &&
            users == old(users)[userId := u.(messagesToDelete := u.messagesToDelete + [answerMessageId, old(nextMessageId)])]
    {
      var saved := SaveOf(corrected, k, ans);
      if saved.Failure? {
        return Failure(saved.error);
      }
      var (vals, conv) := saved.value;
      store.CheckAnswerAndSave(vals, userId, task.id, conv);
      if ans.CallbackAnswer? {
        Emit(CallbackAnswered(SavedText));
      } else {
        var isSaved := Send(userId, Plain(SavedText));
        var u := users[userId];
        users := users[userId := u.(messagesToDelete := u.messagesToDelete + [answerMessageId, isSaved])];
      }
      return Success(());
    }

    /** `handle_one_choice_question_option_query` and
        `handle_multiple_choice_question_option_query`, through
        `handle_question_with_call`, as written: a button press on an option
        of the current task is saved to that task and acknowledged. A first
        multiple-choice press on a task stores an empty list, because the
        toggle only runs on an existing row. */
    method HandleOptionQueryAsWritten(k: Kind, data: string, userId: int, messageId: int) returns (r: Result<(), PyExc>)
      requires Valid() && k != StringOrText
      modifies this, store
      ensures Valid()
      ensures r == Success(()) && users == old(users) && tasks == old(tasks) && tests == old(tests)
      ensures nextMessageId == old(nextMessageId)
      ensures Ready(old(users), userId) && old(users)[userId].currentTaskId.value in tasks ==>
        var taskId := old(users)[userId].currentTaskId.value;
        var (vals, conv) := SaveAnswerAsWritten(k, CallbackAnswer(data)).value;
        store.rows == Upsert(old(store.rows), old(store.nextId), vals, userId, taskId, conv) &&
        outbox == old(outbox) + [CallbackAnswered(SavedText)]
      ensures (k == MultipleChoice && Ready(old(users), userId) && old(users)[userId].currentTaskId.value in tasks &&
        FindRow(old(store.rows), old(users)[userId].currentTaskId.value, userId).None?) ==>
        var j := FindRow(store.rows, old(users)[userId].currentTaskId.value, userId);
        j.Some? && store.rows[j.value].answerData == []
      ensures !(Ready(old(users), userId) && old(users)[userId].currentTaskId.value in tasks) ==> store.rows == old(store.rows)
      ensures !Ready(old(users), userId) ==>
        outbox == old(outbox) + (if userId in old(users) then [Deleted(userId, messageId)] else [])
      ensures Ready(old(users), userId) && old(users)[userId].currentTaskId.value !in tasks ==>
        outbox == old(outbox) + [Edited(userId, messageId, TaskDeletedText)]
    {
      ghost var rows0, next0, users0 := store.rows, store.nextId, users;
      r := HandleQuestion(false, k, CallbackAnswer(data), userId, messageId, None);
      if Ready(users0, userId) && users0[userId].currentTaskId.value in tasks {
        var (vals, conv) := SaveAnswerAsWritten(k, CallbackAnswer(data)).value;
        UpsertRow(rows0, next0, vals, userId, users0[userId].currentTaskId.value, conv);
      }
    }

    /** The option query with the first multiple-choice press corrected: it
        stores the chosen option. */
    method HandleOptionQuery(k: Kind, data: string, userId: int, messageId: int) returns (r: Result<(), PyExc>)
      requires Valid() && k != StringOrText
      modifies this, store
      ensures Valid()
      ensures r == Success(()) && users == old(users) && tasks == old(tasks) && tests == old(tests)
      ensures nextMessageId == old(nextMessageId)
      ensures Ready(old(users), userId) && old(users)[userId].currentTaskId.value in tasks ==>
        var taskId := old(users)[userId].currentTaskId.value;
        var (vals, conv) := SaveAnswer(k, CallbackAnswer(data)).value;
        store.rows == Upsert(old(store.rows), old(store.nextId), vals, userId, taskId, conv) &&
        outbox == old(outbox) + [CallbackAnswered(SavedText)]
      ensures (k == MultipleChoice && Ready(old(users), userId) && old(users)[userId].currentTaskId.value in tasks &&
        FindRow(old(store.rows), old(users)[userId].currentTaskId.value, userId).None?) ==>
        var j := FindRow(store.rows, old(users)[userId].currentTaskId.value, userId);
        j.Some? && store.rows[j.value].answerData == [Some(LastSegment(data))]
      ensures !(Ready(old(users), userId) && old(users)[userId].currentTaskId.value in tasks) ==> store.rows == old(store.rows)
      ensures !Ready(old(users), userId) ==>
        outbox == old(outbox) + (if userId in old(users) then [Deleted(userId, messageId)] else [])
      ensures Ready(old(users), userId) && old(users)[userId].currentTaskId.value !in tasks ==>
        outbox == old(outbox) + [Edited(userId, messageId, TaskDeletedText)]
    {
      ghost var rows0, next0, users0 := store.rows, store.nextId, users;
      r := HandleQuestion(true, k, CallbackAnswer(data), userId, messageId, None);
      if Ready(users0, userId) && users0[userId].currentTaskId.value in tasks {
        var (vals, conv) := SaveAnswer(k, CallbackAnswer(data)).value;
        UpsertRow(rows0, next0, vals, userId, users0[userId].currentTaskId.value, conv);
        assert Dedup<Option<string>>([]) == [];
      }
    }

    /** `handle_message_sent_by_user` as written. A message is an answer only
        while the user has a current task whose type takes message answers;
        otherwise it is deleted. A missing current task is an
        `AttributeError`. A message of the wrong format is answered and
        deleted, but there is no `return` after that, so it is saved and
        confirmed like a valid one. */
    method HandleMessageSentByUserAsWritten(userId: int, messageId: int, text: Option<string>) returns (r: Result<(), PyExc>)
      requires Valid()
      modifies this, store
      ensures Valid()
      ensures tasks == old(tasks) && tests == old(tests)
      ensures !Ready(old(users), userId) ==>
        r == Success(()) && users == old(users) && store.rows == old(store.rows) &&
        outbox == old(outbox) + (if userId in old(users) then [Deleted(userId, messageId)] else [])
      ensures Ready(old(users), userId) && old(users)[userId].currentTaskId.value !in tasks ==>
        r == Failure(AttributeError) && users == old(users) && store.rows == old(store.rows) && outbox == old(outbox)
      ensures Ready(old(users), userId) && old(users)[userId].currentTaskId.value in tasks ==>
        var u := old(users)[userId];
        var taskId := u.currentTaskId.value;
        var n := old(nextMessageId);
        if tasks[taskId].taskType != Name(StringOrText) then
          r == Success(()) && users == old(users) && store.rows == old(store.rows) &&
          outbox == old(outbox) + [Deleted(userId, messageId)]
        else
          var warned := if IsValidAnswer(StringOrText, text) then []
            else [Sent(userId, n, Plain(InvalidFormatText)), Deleted(userId, messageId)];
          var confirmId := n + |warned| / 2;
          r == Success(()) &&
          store.rows == Upsert(old(store.rows), old(store.nextId), Values([text], SAVED), userId, taskId, None) &&
          outbox == old(outbox) + warned + [Sent(userId, confirmId, Plain(SavedText))] &&
          users == old(users)[userId := u.(messagesToDelete := u.messagesToDelete + [messageId, confirmId])]
      ensures store.rows != old(store.rows) ==>
        Ready(old(users), userId) && tasks[old(users)[userId].currentTaskId.value].taskType == Name(StringOrText)
    {
      var user, curTestId, curTaskId := GetCurrentUserTestTaskState(userId, messageId);
      if curTestId.None? || curTaskId.None? {
        return Success(());
      }
      if curTaskId.value !in tasks {
        return Failure(AttributeError);
      }
      var task := tasks[curTaskId.value];
      var typeNamesToHandle := QuestionType.NamesOfTypesWithMessageAnswers();
      if task.taskType !in typeNamesToHandle {
        Emit(Deleted(userId, messageId));
        return Success(());
      }
      var question := FromName(task.taskType).value;
      if !IsValidAnswer(question, text) {
        var _ := Send(userId, Plain(InvalidFormatText));
        Emit(Deleted(userId, messageId));
      }
      r := HandleQuestion(false, question, MessageAnswer(text), userId, messageId, Some(task));
    }

    /** `handle_message_sent_by_user` with the missing `return` after the
        format warning: a message of the wrong format is answered, deleted
        and not saved. */
    method HandleMessageSentByUser(userId: int, messageId: int, text: Option<string>) returns (r: Result<(), PyExc>)
      requires Valid()
      modifies this, store
      ensures Valid()
      ensures tasks == old(tasks) && tests == old(tests)
      ensures !Ready(old(users), userId) ==>
        r == Success(()) && users == old(users) && store.rows == old(store.rows) &&
        outbox == old(outbox) + (if userId in old(users) then [Deleted(userId, messageId)] else [])
      ensures Ready(old(users), userId) && old(users)[userId].currentTaskId.value !in tasks ==>
        r == Failure(AttributeError) && users == old(users) && store.rows == old(store.rows) && outbox == old(outbox)
      ensures Ready(old(users), userId) && old(users)[userId].currentTaskId.value in tasks ==>
        var u := old(users)[userId];
        var taskId := u.currentTaskId.value;
        var n := old(nextMessageId);
        r == Success(()) &&
        if tasks[taskId].taskType != Name(StringOrText) then
          users == old(users) && store.rows == old(store.rows) && outbox == old(outbox) + [Deleted(userId, messageId)]
        else if !IsValidAnswer(StringOrText, text) then
          users == old(users) && store.rows == old(store.rows) &&
          outbox == old(outbox) + [Sent(userId, n, Plain(InvalidFormatText)), Deleted(userId, messageId)]
        else
          store.rows == Upsert(old(store.rows), old(store.nextId), Values([text], SAVED), userId, taskId, None) &&
          outbox == old(outbox) + [Sent(userId, n, Plain(SavedText))] &&
          users == old(users)[userId := u.(messagesToDelete := u.messagesToDelete + [messageId, n])]
      ensures store.rows != old(store.rows) ==>
        Ready(old(users), userId) && tasks[old(users)[userId].currentTaskId.value].taskType == Name(StringOrText) &&
        IsValidAnswer(StringOrText, text)
    {
      var user, curTestId, curTaskId := GetCurrentUserTestTaskState(userId, messageId);
      if curTestId.None? || curTaskId.None? {
        return Success(());
      }
      if curTaskId.value !in tasks {
        return Failure(AttributeError);
      }
      var task := tasks[curTaskId.value];
      var typeNamesToHandle := QuestionType.NamesOfTypesWithMessageAnswers();
      if task.taskType !in typeNamesToHandle {
        Emit(Deleted(userId, messageId));
        return Success(());
      }
      var question := FromName(task.taskType).value;
      if !IsValidAnswer(question, text) {
        var _ := Send(userId, Plain(InvalidFormatText));
        Emit(Deleted(userId, messageId));
        return Success(());
      }
      r := HandleQuestion(true, question, MessageAnswer(text), userId, messageId, Some(task));
    }

    /** `welcome_message`: a new user is registered and greeted; every
        `/start` clears the current task and test; then the start argument
        picks the branch, and the main menu or the "no such link" reply is
        sent. A class link without `=` raises `IndexError` after the reset. */
    method WelcomeMessage(userId: int, firstName: Option<string>, lastName: Option<string>, args: Option<string>)
      returns (r: Result<MainBot.StartAction, PyExc>)
      requires Valid()
      modifies this
      ensures Valid()
      ensures tasks == old(tasks) && tests == old(tests)
      ensures r == MainBot.ClassifyStart(args)
      ensures var before := if userId in old(users) then old(users)[userId]
          else User(MainBot.UserName(firstName, lastName), None, None, []);
        users == old(users)[userId := before.(currentTaskId := None, currentTestId := None)]
      ensures !Ready(users, userId)
      ensures var greeting := if userId in old(users) then [] else [Sent(userId, old(nextMessageId), StartText)];
        var n := old(nextMessageId) + |greeting|;
        var reply := if r.Success? && StartReply(r.value).Some? then [Sent(userId, n, StartReply(r.value).value)] else [];
        outbox == old(outbox) + greeting + reply
    {
      RegisterAndReset(userId, MainBot.UserName(firstName, lastName));
      r := MainBot.ClassifyStart(args);
      if r.Success? && StartReply(r.value).Some? {
        var _ := Send(userId, StartReply(r.value).value);
      }
    }

    /** The part of `welcome_message` before the start argument is read:
        registration and greeting of a new user, then the reset of the
        current task and test. */
    method RegisterAndReset(userId: int, name: string)
      requires Valid()
      modifies this
      ensures Valid()
      ensures tasks == old(tasks) && tests == old(tests)
      ensures var before := if userId in old(users) then old(users)[userId] else User(name, None, None, []);
        users == old(users)[userId := before.(currentTaskId := None, currentTestId := None)]
      ensures var greeting := if userId in old(users) then [] else [Sent(userId, old(nextMessageId), StartText)];
        outbox == old(outbox) + greeting && nextMessageId == old(nextMessageId) + |greeting|
    {
      if userId !in users {
        users := users[userId := User(name, None, None, [])];
        var _ := Send(userId, StartText);
      }
      users := WithTask(users, userId, None);
      users := WithTest(users, userId, None);
    }

    /** `handle_start_current_test_query`: the user's current test is set
        before the test is read, so a test that no longer exists still
        becomes current and the handler then fails on `test.title`. */
    method StartCurrentTest(userId: int, data: string, messageId: int) returns (r: Result<(), PyExc>)
      requires Valid()
      modifies this
      ensures Valid()
      ensures tasks == old(tasks) && tests == old(tests) && nextMessageId == old(nextMessageId)
      ensures Buttons.IdFromCallback(data).Failure? ==>
        r == Failure(Buttons.IdFromCallback(data).error) && users == old(users) && outbox == old(outbox)
      ensures Buttons.IdFromCallback(data).Success? ==>
        var testId := Buttons.IdFromCallback(data).value;
        users == WithTest(old(users), userId, Some(testId)) &&
        if testId in tests then r == Success(()) && outbox == old(outbox) + [Edited(userId, messageId, tests[testId].title)]
        else r == Failure(AttributeError) && outbox == old(outbox)
    {
      var parsed := Buttons.IdFromCallback(data);
      if parsed.Failure? {
        return Failure(parsed.error);
      }
      var testId := parsed.value;
      users := WithTest(users, userId, Some(testId));
      if testId !in tests {
        return Failure(AttributeError);
      }
      Emit(Edited(userId, messageId, tests[testId].title));
      return Success(());
    }

    /** `send_question` with its three parameters: a choice question first
        computes its view (failing without options or on stored data that
        is no integer), then the image, then the question are sent. The
        task is passed in rather than re-read by id from the database
        (questions_classes.py:155); the only caller passes `tasks[taskId]`,
        the row that re-read would return, so the values agree. */
    method SendQuestion(k: Kind, userId: int, task: Task) returns (r: Result<seq<SentMessage>, PyExc>)
      requires Valid()
      modifies this
      ensures Valid()
      ensures users == old(users) && tasks == old(tasks) && tests == old(tests)
      ensures k != StringOrText && ChoiceViewOf(k, task.options, store.Get(task.id, userId)).Failure? ==>
        r == Failure(ChoiceViewOf(k, task.options, store.Get(task.id, userId)).error) &&
        outbox == old(outbox) && nextMessageId == old(nextMessageId)
      ensures k == StringOrText || ChoiceViewOf(k, task.options, store.Get(task.id, userId)).Success? ==>
        var hasPhoto := TruthyStr(task.inputMedia);
        var photoId := if hasPhoto then Some(old(nextMessageId)) else None;
        var textId := old(nextMessageId) + (if hasPhoto then 1 else 0);
        r == Success(QuestionMessages(k, photoId, textId)) &&
        outbox == old(outbox) + QuestionEffects(userId, old(nextMessageId), k, task) &&
        nextMessageId == textId + 1
    {
      var text := task.text;
      if k != StringOrText {
        if task.options == [] {
          return Failure(AssertionError);
        }
        text := OptionsText(task.options);
        var view := ChoiceViewOf(k, task.options, store.Get(task.id, userId));
        if view.Failure? {
          return Failure(view.error);
        }
      }
      var photoId: Option<int> := None;
      if TruthyStr(task.inputMedia) {
        var id := SendPhoto(userId, task.inputMedia.value);
        photoId := Some(id);
      }
      var textId := Send(userId, Plain(text));
      r := Success(QuestionMessages(k, photoId, textId));
    }

    /** `handle_spec_current_test_task_query` as written: once the task is
        found and its type is known, the call passes `menu_message_id`,
        which `send_question` does not take, so it always raises
        `TypeError` and nothing is sent or recorded. */
    method SpecCurrentTestTaskAsWritten(userId: int, data: string, messageId: int) returns (r: Result<(), PyExc>)
      requires Valid()
      modifies this
      ensures Valid()
      ensures users == old(users) && tasks == old(tasks) && tests == old(tests) && nextMessageId == old(nextMessageId)
      ensures Buttons.IdFromCallback(data).Failure? ==> r == Failure(Buttons.IdFromCallback(data).error) && outbox == old(outbox)
      ensures Buttons.IdFromCallback(data).Success? ==>
        var taskId := Buttons.IdFromCallback(data).value;
        if taskId !in tasks then r == Success(()) && outbox == old(outbox) + [Edited(userId, messageId, DeletedByAuthorText)]
        else if FromName(tasks[taskId].taskType).None? then r == Failure(KeyError) && outbox == old(outbox)
        else r == Failure(TypeError) && outbox == old(outbox)
    {
      var parsed := Buttons.IdFromCallback(data);
      if parsed.Failure? {
        return Failure(parsed.error);
      }
      var taskId := parsed.value;
      if taskId !in tasks {
        Emit(Edited(userId, messageId, DeletedByAuthorText));
        return Success(());
      }
      var task := tasks[taskId];
      var kind := FromName(task.taskType);
      if kind.None? {
        return Failure(KeyError);
      }
      SpecTaskCallFails();
      var bound := BindSendQuestion({"bot", "user_id", "task", "menu_message_id"});
      return Failure(bound.error);
    }

    /** `handle_spec_current_test_task_query` with `send_question` called
        with the parameters it takes (and its messages collected as
        messages): the task becomes current and the ids of the messages
        just sent replace the ones queued for deletion. */
    method SpecCurrentTestTask(userId: int, data: string, messageId: int) returns (r: Result<(), PyExc>)
      requires Valid()
      modifies this
      ensures Valid()
      ensures tasks == old(tasks) && tests == old(tests)
      ensures Buttons.IdFromCallback(data).Failure? ==>
        r == Failure(Buttons.IdFromCallback(data).error) && users == old(users) && outbox == old(outbox)
      ensures Buttons.IdFromCallback(data).Success? && Buttons.IdFromCallback(data).value !in tasks ==>
        r == Success(()) && users == old(users) &&
        outbox == old(outbox) + [Edited(userId, messageId, DeletedByAuthorText)]
      ensures (Buttons.IdFromCallback(data).Success? && Buttons.IdFromCallback(data).value in tasks &&
        FromName(tasks[Buttons.IdFromCallback(data).value].taskType).None?) ==>
        r == Failure(KeyError) && users == old(users) && outbox == old(outbox)
      ensures r.Success? && Buttons.IdFromCallback(data).value in tasks ==>
        var taskId := Buttons.IdFromCallback(data).value;
        var k := FromName(tasks[taskId].taskType).value;
        var sent := QuestionEffects(userId, old(nextMessageId), k, tasks[taskId]);
        outbox == old(outbox) + sent &&
        var n := old(nextMessageId);
        users == WithMessages(WithTask(old(users), userId, Some(taskId)), userId,
          if TruthyStr(tasks[taskId].inputMedia) then [n, n + 1] else [n])
      ensures (Buttons.IdFromCallback(data).Success? && Buttons.IdFromCallback(data).value in tasks &&
        FromName(tasks[Buttons.IdFromCallback(data).value].taskType).Some?) ==>
        var task := tasks[Buttons.IdFromCallback(data).value];
        var k := FromName(task.taskType).value;
        (k != StringOrText && ChoiceViewOf(k, task.options, store.Get(task.id, userId)).Failure? ==>
          r == Failure(ChoiceViewOf(k, task.options, store.Get(task.id, userId)).error))
      ensures r.Failure? ==> users == old(users) && outbox == old(outbox) && nextMessageId == old(nextMessageId)
    {
      var parsed := Buttons.IdFromCallback(data);
      if parsed.Failure? {
        return Failure(parsed.error);
      }
      var taskId := parsed.value;
      if taskId !in tasks {
        Emit(Edited(userId, messageId, DeletedByAuthorText));
        return Success(());
      }
      var task := tasks[taskId];
      var kind := FromName(task.taskType);
      if kind.None? {
        return Failure(KeyError);
      }
      var sent := SendQuestion(kind.value, userId, task);
      if sent.Failure? {
        return Failure(sent.error);
      }
      var ids := MessageIds(sent.value);
      MessageIdsOfQuestion(kind.value, if TruthyStr(task.inputMedia) then Some(old(nextMessageId)) else None, nextMessageId - 1);
      users := WithMessages(WithTask(users, userId, Some(taskId)), userId, ids.value);
      return Success(());
    }

    /** `delete_question_messages`: every queued message is deleted in turn
        (a failing deletion is swallowed, so each is attempted), and the
        queue is then emptied; an empty queue is left as it is, and an
        unknown user is an `AttributeError`. */
    method DeleteQuestionMessages(userId: int) returns (r: Result<(), PyExc>)
      requires Valid()
      modifies this
      ensures Valid()
      ensures tasks == old(tasks) && tests == old(tests) && nextMessageId == old(nextMessageId)
      ensures userId !in old(users) ==> r == Failure(AttributeError) && users == old(users) && outbox == old(outbox)
      ensures userId in old(users) ==>
        var queued := old(users)[userId].messagesToDelete;
        r == Success(()) &&
        outbox == old(outbox) + Deletions(userId, queued) &&
        users == (if queued == [] then old(users) else WithMessages(old(users), userId, []))
      ensures r.Success? ==> users[userId].messagesToDelete == []
    {
      if userId !in users {
        return Failure(AttributeError);
      }
      var queued := users[userId].messagesToDelete;
      if queued != [] {
        for i := 0 to |queued|
          invariant outbox == old(outbox) + Deletions(userId, queued[..i])
          invariant users == old(users) && tasks == old(tasks) && tests == old(tests) && nextMessageId == old(nextMessageId)
        {
          assert queued[..i + 1] == queued[..i] + [queued[i]];
          assert Deletions(userId, queued[..i + 1]) == Deletions(userId, queued[..i]) + [Deleted(userId, queued[i])];
          Emit(Deleted(userId, queued[i]));
        }
        assert queued[..|queued|] == queued;
        users := WithMessages(users, userId, []);
      }
      return Success(());
    }

    /** `handle_back_to_question_text_query` */
    method BackToQuestionText(userId: int) returns (r: Result<(), PyExc>)
      requires Valid()
      modifies this
      ensures Valid()
      ensures tasks == old(tasks) && tests == old(tests) && nextMessageId == old(nextMessageId)
      ensures (r.Success? <==> userId in old(users)) && (r.Failure? ==> r.error == AttributeError)
      ensures userId in old(users) ==>
        outbox == old(outbox) + Deletions(userId, old(users)[userId].messagesToDelete) &&
        users == WithMessages(old(users), userId, [])
    {
      r := DeleteQuestionMessages(userId);
    }

    /** `handle_back_to_test_questions_from_task_query`: the current task is
        cleared and the queued messages deleted before the callback is
        read; the menu message then shows the test's title, or says the
        test was deleted. */
    method BackToTestQuestions(userId: int, data: string, messageId: int) returns (r: Result<(), PyExc>)
      requires Valid()
      modifies this
      ensures Valid()
      ensures tasks == old(tasks) && tests == old(tests) && nextMessageId == old(nextMessageId)
      ensures userId !in old(users) ==> r == Failure(AttributeError) && users == old(users) && outbox == old(outbox)
      ensures userId in old(users) ==>
        var u := old(users)[userId];
        var deleted := old(outbox) + Deletions(userId, u.messagesToDelete);
        users == old(users)[userId := u.(currentTaskId := None, messagesToDelete := [])] &&
        match Buttons.IdFromCallback(data)
        case Failure(e) => r == Failure(e) && outbox == deleted
        case Success(testId) =>
          r == Success(()) &&
          outbox == deleted + [Edited(userId, messageId, if testId in tests then tests[testId].title else DeletedByAuthorText)]
      ensures userId in old(users) ==> !Ready(users, userId) && users[userId].messagesToDelete == []
    {
      users := WithTask(users, userId, None);
      r := DeleteQuestionMessages(userId);
      if r.Failure? {
        return;
      }
      var parsed := Buttons.IdFromCallback(data);
      if parsed.Failure? {
        return Failure(parsed.error);
      }
      var testId := parsed.value;
      if testId !in tests {
        Emit(Edited(userId, messageId, DeletedByAuthorText));
        return Success(());
      }
      Emit(Edited(userId, messageId, tests[testId].title));
      return Success(());
    }

    /** The loop of `handle_end_test_query` that turns the stored answers
        into form answers, stopping at the first one that raises. */
    method CollectFormAnswers(answers: seq<AnswerRow>) returns (res: Result<FormAnswerSender.Answers, PyExc>)
      ensures res == FormAnswers(tasks, answers)
    {
      var googleFormAnswers: FormAnswerSender.Answers := [];
      for i := 0 to |answers|
        invariant FormAnswers(tasks, answers[..i]) == Success(googleFormAnswers)
      {
        var answer := answers[i];
        if answer.taskId !in tasks {
          FormAnswersStepFails(tasks, answers, i, googleFormAnswers);
          return Failure(AttributeError);
        }
        var task := tasks[answer.taskId];
        var question := FromName(task.taskType);
        if question.None? {
          FormAnswersStepFails(tasks, answers, i, googleFormAnswers);
          return Failure(KeyError);
        }
        var decimalGoogleQuestionId := ParseInt(task.googleFormQuestionId, 16);
        if decimalGoogleQuestionId.None? {
          FormAnswersStepFails(tasks, answers, i, googleFormAnswers);
          return Failure(ValueError);
        }
        FormAnswersStep(tasks, answers, i, googleFormAnswers, decimalGoogleQuestionId.value);
        googleFormAnswers := FormAnswerSender.DictSet(googleFormAnswers, decimalGoogleQuestionId.value, None);
      }
      assert answers[..|answers|] == answers;
      res := Success(googleFormAnswers);
    }

    /** `handle_end_test_query`: the user's stored answers for the current
        test are turned into form answers keyed by the hexadecimal question
        id, then the stored answers are deleted, and only then is the test
        read and the submission attempted, so the stored answers are gone
        whatever the submission does. Every sender error is caught and
        answered by the first `except` clause that catches it. */
    method HandleEndTest(userId: int, messageId: int, loads: string -> Option<Json.Json>,
                         get: string -> Option<FormAnswerSender.Response>,
                         parseHtml: string -> FormAnswerSender.HtmlResult)
      returns (r: Result<(), FormAnswerSender.SendError>, requested: seq<string>)
      requires Valid()
      modifies this, store
      ensures Valid()
      ensures users == old(users) && tasks == old(tasks) && tests == old(tests) && nextMessageId == old(nextMessageId)
      ensures userId !in old(users) ==>
        r == Failure(FormAnswerSender.Uncaught(AttributeError)) && requested == [] &&
        store.rows == old(store.rows) && outbox == old(outbox)
      ensures userId in old(users) ==>
        var testId := old(users)[userId].currentTestId;
        var taskIds := TaskIdsOfTest(tasks, testId);
        match FormAnswers(tasks, RowsOf(old(store.rows), taskIds, userId))
        case Failure(e) =>
          r == Failure(FormAnswerSender.Uncaught(e)) && requested == [] &&
          store.rows == old(store.rows) && outbox == old(outbox)
        case Success(answers) =>
          store.rows == DeleteRows(old(store.rows), taskIds, userId) &&
          if testId.None? || testId.value !in tests then
            r == Failure(FormAnswerSender.Uncaught(AttributeError)) && requested == [] && outbox == old(outbox)
          else
            var o := FormAnswerSender.SendAnswerMetadata(tests[testId.value].metaData, answers, loads, get, parseHtml);
            requested == o.requested &&
            match o.result
            case Success(_) => r == Success(()) && outbox == old(outbox) + [Edited(userId, messageId, MainBot.EndTestDone)]
            case Failure(Sender(e)) => r == Success(()) && outbox == old(outbox) + [Edited(userId, messageId, EndTestErrorText(e))]
            case Failure(other) => r == Failure(other) && outbox == old(outbox)
    {
      if userId !in users {
        return Failure(FormAnswerSender.Uncaught(AttributeError)), [];
      }
      var curTestId := users[userId].currentTestId;
      var taskIds := TaskIdsOfTest(tasks, curTestId);
      var answers := RowsOf(store.rows, taskIds, userId);
      var collected := CollectFormAnswers(answers);
      if collected.Failure? {
        return Failure(FormAnswerSender.Uncaught(collected.error)), [];
      }
      var googleFormAnswers := collected.value;
      store.DeleteAnswers(taskIds, userId);
      if curTestId.None? || curTestId.value !in tests {
        return Failure(FormAnswerSender.Uncaught(AttributeError)), [];
      }
      var test := tests[curTestId.value];
      var outcome := FormAnswerSender.SendAnswerMetadata(test.metaData, googleFormAnswers, loads, get, parseHtml);
      requested := outcome.requested;
      match outcome.result {
        case Success(_) =>
          Emit(Edited(userId, messageId, MainBot.EndTestDone));
          r := Success(());
        case Failure(Sender(e)) =>
          Emit(Edited(userId, messageId, EndTestErrorText(e)));
          r := Success(());
        case Failure(other) =>
          r := Failure(other);
      }
    }
  }
}
