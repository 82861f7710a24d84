/** The stored answers, as `Question.check_answer_and_save` and the
    end-of-test cleanup use them: a table of rows, at most one per
    (task, user) pair. */
module AnswerStore {
  import opened Wrappers
  import opened Questions

  predicate SameKey(r: AnswerRow, taskId: int, userId: int) {
    r.taskId == taskId && r.userId == userId
  }

  /** At most one row per (task, user) pair. */
  predicate KeysUnique(rows: seq<AnswerRow>) {
    forall i, j :: 0 <= i < j < |rows| ==> !SameKey(rows[j], rows[i].taskId, rows[i].userId)
  }

  /** `get_answer_by_task_id_and_user_id`, as the row's position. */
  function FindRow(rows: seq<AnswerRow>, taskId: int, userId: int): (k: Option<nat>)
    ensures k.Some? ==> k.value < |rows| && SameKey(rows[k.value], taskId, userId)
    ensures k.None? <==> forall i :: 0 <= i < |rows| ==> !SameKey(rows[i], taskId, userId)
    decreases |rows|
  {
    if rows == [] then None
    else if SameKey(rows[|rows| - 1], taskId, userId) then Some(|rows| - 1)
    else FindRow(rows[..|rows| - 1], taskId, userId)
  }

  /** The updated columns of an existing row: the converter, when given,
      rewrites the stored data; otherwise the data passed in replaces it. */
  function UpdatedRow(row: AnswerRow, values: Values, converter: Option<Converter>): AnswerRow
  {
    var data := if converter.Some? then Apply(converter.value, row.answerData) else values.answerData;
    row.(answerData := data, status := values.status, dispatchNumber := row.dispatchNumber + 1)
  }

  /** `check_answer_and_save` on the table: a new row with dispatch number 0
      and the next id when the pair has none, otherwise that row updated. */
  function Upsert(rows: seq<AnswerRow>, nextId: nat, values: Values, userId: int, taskId: int, converter: Option<Converter>): seq<AnswerRow>
  {
    match FindRow(rows, taskId, userId)
    case None => rows + [AnswerRow(nextId, taskId, userId, values.answerData, values.status, 0)]
    case Some(k) => rows[k := UpdatedRow(rows[k], values, converter)]
  }

  /** The row the save leaves for the pair: its data is the converted old
      data only when a row existed and a converter was given, the passed
      data in every other case; an update counts one more dispatch. */
  lemma UpsertRow(rows: seq<AnswerRow>, nextId: nat, values: Values, userId: int, taskId: int, converter: Option<Converter>)
    ensures var k := FindRow(Upsert(rows, nextId, values, userId, taskId, converter), taskId, userId);
      k.Some? &&
      var row := Upsert(rows, nextId, values, userId, taskId, converter)[k.value];
      row.status == values.status &&
      match FindRow(rows, taskId, userId)
      case None =>
        row == AnswerRow(nextId, taskId, userId, values.answerData, values.status, 0)
      case Some(j) =>
        row.id == rows[j].id &&
        row.dispatchNumber == rows[j].dispatchNumber + 1 &&
        row.answerData == (if converter.Some? then Apply(converter.value, rows[j].answerData) else values.answerData)
  {
    var r := Upsert(rows, nextId, values, userId, taskId, converter);
    match FindRow(rows, taskId, userId)
    case None =>
      assert SameKey(r[|rows|], taskId, userId);
      FindRowUnique(r, taskId, userId, |rows|);
    case Some(j) =>
      assert SameKey(r[j], taskId, userId);
      if KeysUnique(rows) {
        FindRowUnique(r, taskId, userId, j);
      }
      FindRowLast(r, taskId, userId, j, rows);
  }

  /** The last row with the key is the one found. */
  lemma FindRowUnique(rows: seq<AnswerRow>, taskId: int, userId: int, k: nat)
    requires k < |rows| && SameKey(rows[k], taskId, userId)
    requires forall i :: k < i < |rows| ==> !SameKey(rows[i], taskId, userId)
    ensures FindRow(rows, taskId, userId) == Some(k)
    decreases |rows|
  {
    if k < |rows| - 1 {
      var front := rows[..|rows| - 1];
      FindRowUnique(front, taskId, userId, k);
    }
  }

  lemma FindRowLast(r: seq<AnswerRow>, taskId: int, userId: int, j: nat, rows: seq<AnswerRow>)
    requires |r| == |rows| && FindRow(rows, taskId, userId) == Some(j)
    requires forall i :: 0 <= i < |r| && i != j ==> r[i] == rows[i]
    requires SameKey(r[j], taskId, userId)
    ensures FindRow(r, taskId, userId) == Some(j)
  {
    FindRowIsLast(rows, taskId, userId);
    FindRowUnique(r, taskId, userId, j);
  }

  lemma {:induction false} FindRowIsLast(rows: seq<AnswerRow>, taskId: int, userId: int)
    requires FindRow(rows, taskId, userId).Some?
    ensures forall i :: FindRow(rows, taskId, userId).value < i < |rows| ==> !SameKey(rows[i], taskId, userId)
    decreases |rows|
  {
    if !SameKey(rows[|rows| - 1], taskId, userId) {
      var front := rows[..|rows| - 1];
      FindRowIsLast(front, taskId, userId);
    }
  }

  /** A save never creates a second row for a pair: the table grows by one
      row exactly when the pair had none. */
  lemma UpsertSize(rows: seq<AnswerRow>, nextId: nat, values: Values, userId: int, taskId: int, converter: Option<Converter>)
    ensures |Upsert(rows, nextId, values, userId, taskId, converter)| ==
      |rows| + (if FindRow(rows, taskId, userId).None? then 1 else 0)
  {
  }

  /** The rows of other pairs are left alone. */
  lemma UpsertOthers(rows: seq<AnswerRow>, nextId: nat, values: Values, userId: int, taskId: int, converter: Option<Converter>)
    ensures forall i :: 0 <= i < |rows| && !SameKey(rows[i], taskId, userId) ==>
      Upsert(rows, nextId, values, userId, taskId, converter)[i] == rows[i]
  {
  }

  /** A save keeps the table at one row per pair. */
  lemma UpsertKeysUnique(rows: seq<AnswerRow>, nextId: nat, values: Values, userId: int, taskId: int, converter: Option<Converter>)
    requires KeysUnique(rows)
    ensures KeysUnique(Upsert(rows, nextId, values, userId, taskId, converter))
  {
    var r := Upsert(rows, nextId, values, userId, taskId, converter);
    match FindRow(rows, taskId, userId)
    case None =>
      forall i, j | 0 <= i < j < |r|
        ensures !SameKey(r[j], r[i].taskId, r[i].userId)
      {
        if j < |rows| {
          assert r[i] == rows[i] && r[j] == rows[j];
        }
      }
    case Some(k) =>
      forall i, j | 0 <= i < j < |r|
        ensures !SameKey(r[j], r[i].taskId, r[i].userId)
      {
        assert SameKey(r[i], rows[i].taskId, rows[i].userId);
        assert SameKey(r[j], rows[j].taskId, rows[j].userId);
      }
  }

  /** Saving the same values twice without a converter leaves the same data
      and status: repeated saves differ only in the dispatch count. */
  lemma UpsertRepeat(rows: seq<AnswerRow>, nextId: nat, values: Values, userId: int, taskId: int)
    ensures var once := Upsert(rows, nextId, values, userId, taskId, None);
      var twice := Upsert(once, nextId + 1, values, userId, taskId, None);
      |twice| == |once| &&
      forall i :: 0 <= i < |once| ==>
        twice[i].answerData == once[i].answerData && twice[i].status == once[i].status && twice[i].id == once[i].id
  {
    var once := Upsert(rows, nextId, values, userId, taskId, None);
    UpsertRow(rows, nextId, values, userId, taskId, None);
    var k := FindRow(once, taskId, userId).value;
    assert once[k].answerData == values.answerData && once[k].status == values.status;
  }

  /** `delete_answers_by_test_id_and_user_id`: the rows of `userId` whose task
      is one of `taskIds` go. */
  function DeleteRows(rows: seq<AnswerRow>, taskIds: set<int>, userId: int): (r: seq<AnswerRow>)
    ensures forall x :: x in r <==> x in rows && !(x.userId == userId && x.taskId in taskIds)
    decreases |rows|
  {
    if rows == [] then []
    else
      var front := DeleteRows(rows[..|rows| - 1], taskIds, userId);
      var x := rows[|rows| - 1];
      assert forall y :: y in rows <==> y in rows[..|rows| - 1] || y == x by {
        assert rows == rows[..|rows| - 1] + [x];
      }
      if x.userId == userId && x.taskId in taskIds then front else front + [x]
  }

  /** The answer table. */
  class Store {
    var rows: seq<AnswerRow>
    var nextId: nat

    ghost predicate Valid()
      reads this
    {
      KeysUnique(rows) && forall i :: 0 <= i < |rows| ==> rows[i].id < nextId
    }

    constructor()
      ensures Valid() && rows == [] && nextId == 0
    {
      rows := [];
      nextId := 0;
    }

    /** `get_answer_by_task_id_and_user_id` */
    function Get(taskId: int, userId: int): (r: Option<AnswerRow>)
      reads this
      ensures r.Some? ==> r.value in rows && SameKey(r.value, taskId, userId)
      ensures r.None? <==> forall i :: 0 <= i < |rows| ==> !SameKey(rows[i], taskId, userId)
    {
      match FindRow(rows, taskId, userId)
      case None => None
      case Some(k) => Some(rows[k])
    }

    /** `Question.check_answer_and_save` */
    method CheckAnswerAndSave(values: Values, userId: int, taskId: int, converter: Option<Converter>)
      requires Valid()
      modifies this
      ensures Valid()
      ensures rows == Upsert(old(rows), old(nextId), values, userId, taskId, converter)
      ensures nextId == old(nextId) + (if FindRow(old(rows), taskId, userId).None? then 1 else 0)
    {
      UpsertKeysUnique(rows, nextId, values, userId, taskId, converter);
      var k := FindRow(rows, taskId, userId);
      if k.None? {
        rows := rows + [AnswerRow(nextId, taskId, userId, values.answerData, values.status, 0)];
        nextId := nextId + 1;
      } else {
        var existing := rows[k.value];
        var data := values.answerData;
        if converter.Some? {
          data := Apply(converter.value, existing.answerData);
        }
        rows := rows[k.value := existing.(answerData := data, status := values.status, dispatchNumber := existing.dispatchNumber + 1)];
      }
    }

    /** `delete_answers_by_test_id_and_user_id`, given the ids of the test's
        tasks. */
    method DeleteAnswers(taskIds: set<int>, userId: int)
      requires Valid()
      modifies this
      ensures Valid()
      ensures rows == DeleteRows(old(rows), taskIds, userId) && nextId == old(nextId)
    {
      DeleteRowsKeepsKeysUnique(rows, taskIds, userId);
      rows := DeleteRows(rows, taskIds, userId);
    }
  }

  /** Deleting rows keeps the table at one row per pair. */
  lemma {:induction false} DeleteRowsKeepsKeysUnique(rows: seq<AnswerRow>, taskIds: set<int>, userId: int)
    requires KeysUnique(rows)
    ensures KeysUnique(DeleteRows(rows, taskIds, userId))
    decreases |rows|
  {
    if rows != [] {
      var n := |rows| - 1;
      var init := rows[..n];
      var x := rows[n];
      assert KeysUnique(init);
      DeleteRowsKeepsKeysUnique(init, taskIds, userId);
      var front := DeleteRows(init, taskIds, userId);
      if !(x.userId == userId && x.taskId in taskIds) {
        var r := front + [x];
        forall i, j | 0 <= i < j < |r|
          ensures !SameKey(r[j], r[i].taskId, r[i].userId)
        {
          if j == |front| {
            assert r[i] in init;
            var m :| 0 <= m < n && init[m] == r[i];
            assert rows[m] == r[i];
          } else {
            assert r[i] == front[i] && r[j] == front[j];
          }
        }
      }
    }
  }
}
