/** The older `ExamOBot`: a finite-state dialogue (role, test list, test,
    task, answer) whose per-chat data dictionary holds the chosen test, its
    tasks and a task-view counter. */
module Fsm {
  import opened Wrappers
  import opened PyStr
  import opened BotUtils

  datatype FsmState = Initial | Role | TestState | TaskState | HandleTaskAnswer

  /** A key of the state data: missing, stored as `None`, or holding a value. */
  datatype Slot<T> = Absent | NoneValue | Present(value: T)

  datatype FsmTest = FsmTest(id: int, title: string, time: int, attemptsNumber: int,
                             authorFirst: Option<string>, authorLast: Option<string>)

  datatype FsmTask = FsmTask(title: string, text: string)

  /** The keys the handlers read and write. `tests`, which
      `state_all_tests_handler` looks for, is never written, so it is not a
      field: the titles are always fetched again. */
  datatype Data = Data(
    chatId: Option<int>,
    notInitial: bool,
    role: Option<string>,
    testTitles: Slot<seq<string>>,
    test: Slot<FsmTest>,
    tasks: Slot<seq<FsmTask>>,
    taskViewStarted: Option<bool>,
    taskViewOrderIndex: Option<int>)

  const EmptyData := Data(None, false, None, Absent, Absent, Absent, None, None)

  const Student := "Student"
  const TestAuthor := "Test author"
  const GoBackToInitMenu := "Go to the main menu"
  const RoleQuestion := "What's your role?"
  const SelectTestText := "Select test from the list"
  const NoSuchTestText := "There is no such test"
  const NoAttemptsText := "\nUnfortunately, you don't have attempts left"
  const PressStartText := "Press button to start."
  const TestOverText := "The test is over. Your answers are stored. Thank you for participation"
  const HandleAnswerText := "Handle answer"

  /** `reset_state_data` as written: the test, its tasks and the titles
      are cleared, the task-view flag and counter are not. */
  function ResetStateDataAsWritten(d: Data): (r: Data)
    ensures r.test == NoneValue && r.tasks == NoneValue && r.testTitles == NoneValue
    ensures r.taskViewStarted == d.taskViewStarted && r.taskViewOrderIndex == d.taskViewOrderIndex
    ensures r.notInitial == d.notInitial && r.role == d.role && r.chatId == d.chatId
  {
    d.(test := NoneValue, tasks := NoneValue, testTitles := NoneValue)
  }

  /** `reset_state_data` clearing the task view as well, so the next test
      starts from its first task. */
  function ResetStateData(d: Data): (r: Data)
    ensures r.test == NoneValue && r.tasks == NoneValue && r.testTitles == NoneValue
    ensures r.taskViewStarted == None && r.taskViewOrderIndex == None
    ensures r.notInitial == d.notInitial && r.role == d.role && r.chatId == d.chatId
  {
    ResetStateDataAsWritten(d).(taskViewStarted := None, taskViewOrderIndex := None)
  }

  /** `data["tasks"]` where a list is needed: missing is `KeyError`, `None`
      is `TypeError`. */
  function TasksOf(s: Slot<seq<FsmTask>>): (r: Result<seq<FsmTask>, PyExc>)
    ensures r.Success? <==> s.Present?
    ensures r.Failure? ==> r.error == (if s.Absent? then KeyError else TypeError)
  {
    match s
    case Absent => Failure(KeyError)
    case NoneValue => Failure(TypeError)
    case Present(ts) => Success(ts)
  }

  /** `data["test"].id`: missing is `KeyError`, `None` is `AttributeError`. */
  function TestIdOf(s: Slot<FsmTest>): (r: Result<int, PyExc>)
    ensures r.Success? <==> s.Present?
    ensures r.Success? ==> r.value == s.value.id
    ensures r.Failure? ==> r.error == (if s.Absent? then KeyError else AttributeError)
  {
    match s
    case Absent => Failure(KeyError)
    case NoneValue => Failure(AttributeError)
    case Present(t) => Success(t.id)
  }

  /** The attempts check of `state_test_handler`. */
  predicate AttemptsLeft(participations: nat, attemptsNumber: int) {
    participations < attemptsNumber
  }

  function Participations(p: map<(int, int), nat>, testId: int, userId: int): nat {
    if (testId, userId) in p then p[(testId, userId)] else 0
  }

  /** `add_participation` */
  function AddParticipation(p: map<(int, int), nat>, testId: int, userId: int): (r: map<(int, int), nat>)
    ensures Participations(r, testId, userId) == Participations(p, testId, userId) + 1
    ensures forall t, u :: (t, u) != (testId, userId) ==> Participations(r, t, u) == Participations(p, t, u)
  {
    p[(testId, userId):= Participations(p, testId, userId) + 1]
  }

  /** What `state_task_handler` leaves, from data `d`, state `st`, replies
      `out` and participation counts `p`: the result, the new data, state,
      replies and counts. */
  ghost predicate TaskOutcome(d: Data, st: Option<FsmState>, out: seq<string>, p: map<(int, int), nat>,
                              userId: int, titles: seq<string>,
                              r: Result<(), PyExc>, d': Data, st': Option<FsmState>, out': seq<string>,
                              p': map<(int, int), nat>)
  {
    if d.taskViewStarted != Some(true) then
      d' == d.(taskViewStarted := Some(true), taskViewOrderIndex := Some(0)) &&
      match TestIdOf(d.test)
      case Failure(e) => r == Failure(e) && p' == p && st' == st && out' == out
      case Success(testId) =>
        p' == AddParticipation(p, testId, userId) &&
        match TasksOf(d.tasks)
        case Failure(e) => r == Failure(e) && st' == st && out' == out
        case Success(ts) =>
          if ts == [] then
            r == Failure(IndexError) && st' == st && out' == out
          else
            r == Success(()) && st' == Some(HandleTaskAnswer) &&
            out' == out + [MakeTaskInfoReply(ts[0].title, ts[0].text)]
    else
      p' == p &&
      d.taskViewOrderIndex.Some? &&
      var index := d.taskViewOrderIndex.value;
      match TasksOf(d.tasks)
      case Failure(e) => r == Failure(e) && d' == d && st' == st && out' == out
      case Success(ts) =>
        if index == |ts| then
          r == Success(()) && d' == d.(taskViewStarted := Some(false), testTitles := Present(titles)) &&
          st' == Some(TestState) && out' == out + [TestOverText, SelectTestText]
        else if 0 <= index < |ts| then
          r == Success(()) && d' == d && st' == Some(HandleTaskAnswer) &&
          out' == out + [MakeTaskInfoReply(ts[index].title, ts[index].text)]
        else
          r == Failure(IndexError) && d' == d && st' == st && out' == out
  }

  /** After the corrected reset, the next test chosen is viewed from its
      first task and counts one participation. */
  lemma ResetStartsAtFirstTask(d: Data, t: FsmTest, ts: seq<FsmTask>, st: Option<FsmState>, out: seq<string>,
                               p: map<(int, int), nat>, userId: int, titles: seq<string>,
                               r: Result<(), PyExc>, d': Data, st': Option<FsmState>, out': seq<string>,
                               p': map<(int, int), nat>)
    requires TaskOutcome(ResetStateData(d).(test := Present(t), tasks := Present(ts)), st, out, p, userId, titles,
                         r, d', st', out', p')
    ensures d'.taskViewStarted == Some(true) && d'.taskViewOrderIndex == Some(0)
    ensures Participations(p', t.id, userId) == Participations(p, t.id, userId) + 1
    ensures ts != [] ==> r == Success(()) && st' == Some(HandleTaskAnswer) &&
                         out' == out + [MakeTaskInfoReply(ts[0].title, ts[0].text)]
    ensures ts == [] ==> r == Failure(IndexError) && out' == out
  {
  }

  /** With the reset as written, a counter left from an earlier test that
      is past the new test's end makes the next view fail, whatever that
      test is. */
  lemma StaleCounterFails(d: Data, t: FsmTest, ts: seq<FsmTask>, st: Option<FsmState>, out: seq<string>,
                          p: map<(int, int), nat>, userId: int, titles: seq<string>,
                          r: Result<(), PyExc>, d': Data, st': Option<FsmState>, out': seq<string>,
                          p': map<(int, int), nat>)
    requires d.taskViewStarted == Some(true) && d.taskViewOrderIndex.Some? && d.taskViewOrderIndex.value > |ts|
    requires TaskOutcome(ResetStateDataAsWritten(d).(test := Present(t), tasks := Present(ts)), st, out, p, userId, titles,
                         r, d', st', out', p')
    ensures r == Failure(IndexError) && out' == out && p' == p
  {
  }

  /** One chat's dialogue with the bot, and the tables it reads: tests by
      title, each test's tasks and the participation counts. */
  class ExamOBot {
    var state: Option<FsmState>
    var data: Data
    var outbox: seq<string>
    const testTitles: seq<string>
    const testsByTitle: map<string, FsmTest>
    const testTasks: map<int, seq<FsmTask>>
    var participations: map<(int, int), nat>

    /** The task-view counter exists from the first task view on and only
        grows from 0. */
    ghost predicate Valid()
      reads this
    {
      (data.taskViewStarted.Some? ==> data.taskViewOrderIndex.Some?) &&
      (data.taskViewOrderIndex.Some? ==> data.taskViewOrderIndex.value >= 0)
    }

    constructor(titles: seq<string>, byTitle: map<string, FsmTest>, tasksOfTest: map<int, seq<FsmTask>>)
      ensures Valid() && state == None && data == EmptyData && outbox == [] && participations == map[]
      ensures testTitles == titles && testsByTitle == byTitle && testTasks == tasksOfTest
    {
      state := None;
      data := EmptyData;
      outbox := [];
      testTitles := titles;
      testsByTitle := byTitle;
      testTasks := tasksOfTest;
      participations := map[];
    }

    /** `get_tasks_by_test_id` */
    function TasksOfTest(testId: int): seq<FsmTask> {
      if testId in testTasks then testTasks[testId] else []
    }

    /** `command_start_handler`: the greeting only on the first start in the
        chat, then the role question. */
    method CommandStart(chatId: int, fullName: string)
      requires Valid()
      modifies this
      ensures Valid()
      ensures data == old(data).(chatId := Some(chatId), notInitial := true)
      ensures state == Some(Role) && participations == old(participations)
      ensures outbox == old(outbox) + (if old(data).notInitial then [] else [MakeStartReply(fullName)]) + [RoleQuestion]
    {
      data := data.(chatId := Some(chatId));
      if !data.notInitial {
        data := data.(notInitial := true);
        outbox := outbox + [MakeStartReply(fullName)];
      }
      state := Some(Role);
      outbox := outbox + [RoleQuestion];
    }

    /** `state_all_tests_handler`: the titles are fetched and stored under
        `test_titles`, and the test list is offered. */
    method StateAllTests()
      requires Valid()
      modifies this
      ensures Valid()
      ensures data == old(data).(testTitles := Present(testTitles))
      ensures state == Some(TestState) && participations == old(participations)
      ensures outbox == old(outbox) + [SelectTestText]
    {
      data := data.(testTitles := Present(testTitles));
      state := Some(TestState);
      outbox := outbox + [SelectTestText];
    }

    /** `state_role_handler`: the stripped text is stored as the role before
        it is looked up, so an unknown role is stored and then raises
        `KeyError`. */
    method StateRole(text: string) returns (r: Result<(), PyExc>)
      requires Valid()
      modifies this
      ensures Valid()
      ensures participations == old(participations)
      ensures Strip(text) == Student ==>
        r == Success(()) && data == old(data).(role := Some(Student), testTitles := Present(testTitles)) &&
        state == Some(TestState) && outbox == old(outbox) + [SelectTestText]
      ensures Strip(text) == TestAuthor ==>
        r == Success(()) && data == old(data).(role := Some(TestAuthor)) && state == old(state) &&
        outbox == old(outbox) + [TestAuthor]
      ensures Strip(text) != Student && Strip(text) != TestAuthor ==>
        r == Failure(KeyError) && data == old(data).(role := Some(Strip(text))) && state == old(state) &&
        outbox == old(outbox)
    {
      var role := Strip(text);
      data := data.(role := Some(role));
      if role == Student {
        StateAllTests();
        return Success(());
      } else if role == TestAuthor {
        outbox := outbox + [TestAuthor];
        return Success(());
      }
      return Failure(KeyError);
    }

    /** `state_test_handler`: an unknown title is refused; a user with no
        attempt left is told so and shown the list again; otherwise the test
        and its tasks are stored and the test's info shown. The task-view
        flag and counter are left as they were. */
    method StateTest(text: string, userId: int)
      requires Valid()
      modifies this
      ensures Valid()
      ensures participations == old(participations)
      ensures text !in testsByTitle ==>
        data == old(data) && state == old(state) && outbox == old(outbox) + [NoSuchTestText]
      ensures text in testsByTitle && !AttemptsLeft(Participations(participations, testsByTitle[text].id, userId), testsByTitle[text].attemptsNumber) ==>
        data == old(data).(testTitles := Present(testTitles)) && state == Some(TestState) &&
        outbox == old(outbox) + [Bold(testsByTitle[text].title) + NoAttemptsText, SelectTestText]
      ensures text in testsByTitle && AttemptsLeft(Participations(participations, testsByTitle[text].id, userId), testsByTitle[text].attemptsNumber) ==>
        var t := testsByTitle[text];
        var ts := TasksOfTest(t.id);
        data == old(data).(test := Present(t), tasks := Present(ts)) && state == Some(TaskState) &&
        outbox == old(outbox) + [MakeTestInfoReply(t.title, t.authorFirst, t.authorLast, t.time, |ts|,
          Participations(participations, t.id, userId), t.attemptsNumber), PressStartText]
    {
      if text !in testsByTitle {
        outbox := outbox + [NoSuchTestText];
        return;
      }
      var test := testsByTitle[text];
      var n := Participations(participations, test.id, userId);
      if n >= test.attemptsNumber {
        outbox := outbox + [Bold(test.title) + NoAttemptsText];
        StateAllTests();
        return;
      }
      data := data.(test := Present(test));
      var tasks := TasksOfTest(test.id);
      outbox := outbox + [MakeTestInfoReply(test.title, test.authorFirst, test.authorLast, test.time, |tasks|, n, test.attemptsNumber)];
      data := data.(tasks := Present(tasks));
      state := Some(TaskState);
      outbox := outbox + [PressStartText];
    }

    /** `state_task_handler`. The first view of a test sets the flag and the
        counter to 0 and counts one participation; later views read the
        counter, and a counter equal to the number of tasks ends the test
        and shows the test list. Otherwise the task at the counter is shown
        and an answer is awaited; a counter past the end is `IndexError`. */
    method StateTask(userId: int) returns (r: Result<(), PyExc>)
      requires Valid()
      modifies this
      ensures Valid()
      ensures TaskOutcome(old(data), old(state), old(outbox), old(participations), userId, testTitles,
                          r, data, state, outbox, participations)
    {
      var d := data;
      var orderIndex: int;
      if d.taskViewStarted != Some(true) {
        data := data.(taskViewStarted := Some(true), taskViewOrderIndex := Some(0));
        var testId := TestIdOf(d.test);
        if testId.Failure? {
          return Failure(testId.error);
        }
        participations := AddParticipation(participations, testId.value, userId);
        orderIndex := 0;
      } else {
        orderIndex := d.taskViewOrderIndex.value;
        var counted := TasksOf(d.tasks);
        if counted.Failure? {
          return Failure(counted.error);
        }
        if orderIndex == |counted.value| {
          data := data.(taskViewStarted := Some(false));
          outbox := outbox + [TestOverText];
          StateAllTests();
          return Success(());
        }
      }
      var tasks := TasksOf(d.tasks);
      if tasks.Failure? {
        return Failure(tasks.error);
      }
      if orderIndex >= |tasks.value| {
        return Failure(IndexError);
      }
      var task := tasks.value[orderIndex];
      outbox := outbox + [MakeTaskInfoReply(task.title, task.text)];
      state := Some(HandleTaskAnswer);
      return Success(());
    }

    /** `state_handle_task_answer_handler`: the answer is acknowledged, the
        counter moves on by exactly one and the task handler runs again from
        the task state. */
    method StateHandleTaskAnswer(userId: int) returns (r: Result<(), PyExc>)
      requires Valid()
      modifies this
      ensures Valid()
      ensures old(data).taskViewOrderIndex.None? ==>
        r == Failure(KeyError) && data == old(data) && state == old(state) &&
        outbox == old(outbox) + [HandleAnswerText] && participations == old(participations)
      ensures old(data).taskViewOrderIndex.Some? ==>
        TaskOutcome(old(data).(taskViewOrderIndex := Some(old(data).taskViewOrderIndex.value + 1)),
                    Some(TaskState), old(outbox) + [HandleAnswerText], old(participations), userId, testTitles,
                    r, data, state, outbox, participations)
    {
      outbox := outbox + [HandleAnswerText];
      if data.taskViewOrderIndex.None? {
        return Failure(KeyError);
      }
      data := data.(taskViewOrderIndex := Some(data.taskViewOrderIndex.value + 1));
      state := Some(TaskState);
      r := StateTask(userId);
    }

    /** `command_exit_handler` as written: the cancel notice when a state is
        set, `reset_state_data`, then the start flow again. The task-view
        flag and counter survive. */
    method CommandExitAsWritten(chatId: int, fullName: string)
      requires Valid()
      modifies this
      ensures Valid()
      ensures data == ResetStateDataAsWritten(old(data)).(chatId := Some(chatId), notInitial := true)
      ensures state == Some(Role) && participations == old(participations)
      ensures outbox == old(outbox) + (if old(state).Some? then [GoBackToInitMenu] else []) +
        (if old(data).notInitial then [] else [MakeStartReply(fullName)]) + [RoleQuestion]
    {
      if state.Some? {
        outbox := outbox + [GoBackToInitMenu];
      }
      data := ResetStateDataAsWritten(data);
      state := Some(Initial);
      CommandStart(chatId, fullName);
    }

    /** `command_exit_handler` with the task view reset as well. */
    method CommandExit(chatId: int, fullName: string)
      requires Valid()
      modifies this
      ensures Valid()
      ensures data == ResetStateData(old(data)).(chatId := Some(chatId), notInitial := true)
      ensures data.taskViewStarted == None && data.taskViewOrderIndex == None
      ensures state == Some(Role) && participations == old(participations)
      ensures outbox == old(outbox) + (if old(state).Some? then [GoBackToInitMenu] else []) +
        (if old(data).notInitial then [] else [MakeStartReply(fullName)]) + [RoleQuestion]
    {
      if state.Some? {
        outbox := outbox + [GoBackToInitMenu];
      }
      data := ResetStateData(data);
      state := Some(Initial);
      CommandStart(chatId, fullName);
    }
  }

  /** Two tests by the same user: "A" with three tasks, "B" with one. */
  const TaskOfA := FsmTask("A task", "First test")
  const TaskOfB := FsmTask("B task", "Second test")
  const TestA := FsmTest(1, "A", 10, 5, None, None)
  const TestB := FsmTest(2, "B", 10, 5, None, None)

  lemma StudentStrips()
    ensures Strip(Student) == Student
  {
    StripNoEdgeSpace(Student);
  }

  /** A chat in which the user has chosen test A and sees its info. */
  method ChooseA() returns (bot: ExamOBot)
    ensures fresh(bot) && bot.Valid()
    ensures bot.testTitles == ["A", "B"] && bot.testsByTitle == map["A" := TestA, "B" := TestB]
    ensures bot.testTasks == map[1 := [TaskOfA, TaskOfA, TaskOfA], 2 := [TaskOfB]]
    ensures bot.data.taskViewStarted == None && bot.data.test == Present(TestA)
    ensures bot.data.tasks == Present([TaskOfA, TaskOfA, TaskOfA])
    ensures bot.participations == map[] && bot.state == Some(TaskState)
  {
    bot := new ExamOBot(["A", "B"], map["A" := TestA, "B" := TestB], map[1 := [TaskOfA, TaskOfA, TaskOfA], 2 := [TaskOfB]]);
    StudentStrips();
    bot.CommandStart(7, "Ann");
    var _ := bot.StateRole(Student);
    assert Participations(bot.participations, 1, 7) == 0;
    bot.StateTest("A", 7);
  }

  /** A chat in which the user has started A and answered two of its
      three tasks. */
  method AnswerTwoOfA() returns (bot: ExamOBot)
    ensures fresh(bot) && bot.Valid()
    ensures bot.testTitles == ["A", "B"] && bot.testsByTitle == map["A" := TestA, "B" := TestB]
    ensures bot.testTasks == map[1 := [TaskOfA, TaskOfA, TaskOfA], 2 := [TaskOfB]]
    ensures bot.data.taskViewStarted == Some(true) && bot.data.taskViewOrderIndex == Some(2)
    ensures bot.participations == map[(1, 7) := 1] && bot.state == Some(HandleTaskAnswer)
  {
    bot := ChooseA();
    var _ := bot.StateTask(7);
    assert bot.data.taskViewOrderIndex == Some(0) && bot.data.tasks == Present([TaskOfA, TaskOfA, TaskOfA]);
    var _ := bot.StateHandleTaskAnswer(7);
    assert bot.data.taskViewOrderIndex == Some(1) && bot.data.tasks == Present([TaskOfA, TaskOfA, TaskOfA]);
    var _ := bot.StateHandleTaskAnswer(7);
  }

  /** With `reset_state_data` as written: after two of A's three answers
      the user exits, picks B and presses Start. The counter still says 2,
      so B's one-element task list is indexed past its end. */
  method StaleIndexAsWritten() returns (r: Result<(), PyExc>)
    ensures r == Failure(IndexError)
  {
    var bot := AnswerTwoOfA();
    StudentStrips();
    bot.CommandExitAsWritten(7, "Ann");
    var _ := bot.StateRole(Student);
    bot.StateTest("B", 7);
    r := bot.StateTask(7);
  }

  /** After two of A's answers, the corrected exit and the choice of B. */
  method ExitAndChooseB() returns (bot: ExamOBot)
    ensures fresh(bot) && bot.Valid()
    ensures bot.data.taskViewStarted == None && bot.data.test == Present(TestB)
    ensures bot.data.tasks == Present([TaskOfB]) && bot.participations == map[(1, 7) := 1]
  {
    bot := AnswerTwoOfA();
    StudentStrips();
    bot.CommandExit(7, "Ann");
    var _ := bot.StateRole(Student);
    assert Participations(bot.participations, 2, 7) == 0;
    bot.StateTest("B", 7);
  }

  /** The same dialogue with the task view cleared on exit: B starts at its
      first task, and one participation is counted for B. */
  method StaleIndexCorrected() returns (r: Result<(), PyExc>, shown: string, counted: nat)
    ensures r == Success(())
    ensures shown == MakeTaskInfoReply(TaskOfB.title, TaskOfB.text)
    ensures counted == 1
  {
    var bot := ExitAndChooseB();
    r := bot.StateTask(7);
    shown := bot.outbox[|bot.outbox| - 1];
    counted := Participations(bot.participations, TestB.id, 7);
  }
}
