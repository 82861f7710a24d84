/** The three question kinds of the `QuestionType` enum and the per-kind
    behaviour of their classes: whether an answer arrives as a chat message,
    whether a message is an acceptable answer. */
module QuestionKinds {
  import opened Wrappers

  datatype Kind = StringOrText | OneChoice | MultipleChoice

  /** The enum members in declaration order, the order `for type_ in
      QuestionType` visits them. */
  const AllKinds: seq<Kind> := [StringOrText, OneChoice, MultipleChoice]

  lemma AllKindsComplete(k: Kind)
    ensures k in AllKinds
  {
  }

  /** `QuestionType.X.name` */
  function Name(k: Kind): string
  {
    match k
    case StringOrText => "STRING_OR_TEXT"
    case OneChoice => "ONE_CHOICE"
    case MultipleChoice => "MULTIPLE_CHOICE"
  }

  /** `QuestionType[name]`, which raises `KeyError` (here `None`) for a
      string that is no member name. */
  function FromName(s: string): (r: Option<Kind>)
    ensures r.Some? ==> Name(r.value) == s
    ensures r.None? <==> forall k: Kind :: Name(k) != s
  {
    if s == "STRING_OR_TEXT" then Some(StringOrText)
    else if s == "ONE_CHOICE" then Some(OneChoice)
    else if s == "MULTIPLE_CHOICE" then Some(MultipleChoice)
    else None
  }

  lemma NameRoundTrip(k: Kind)
    ensures FromName(Name(k)) == Some(k)
  {
  }

  /** `needs_message_answer()` of the class behind each member: only the
      free-text kind is answered with a chat message, both choice kinds are
      answered with keyboard buttons. */
  function NeedsMessageAnswer(k: Kind): (r: bool)
    ensures r <==> k == StringOrText
  {
    match k
    case StringOrText => true
    case OneChoice => false
    case MultipleChoice => false
  }

  /** `is_valid_answer(message)` given the message's text (`None` for a
      message without text, such as a photo). A text answer must have
      non-empty text; the choice kinds accept anything. */
  function IsValidAnswer(k: Kind, text: Option<string>): (r: bool)
    ensures k == StringOrText ==> (r <==> text.Some? && text.value != "")
    ensures k != StringOrText ==> r
  {
    match k
    case StringOrText => !(text.None? || text.value == "")
    case OneChoice => true
    case MultipleChoice => true
  }
}

/** `QuestionType.get_names_of_types_with_message_answers`. */
module QuestionType {
  import opened QuestionKinds

  /** Walks the enum members and collects the names of those whose class
      needs a message answer. */
  method NamesOfTypesWithMessageAnswers() returns (names: set<string>)
    ensures forall k: Kind :: Name(k) in names <==> NeedsMessageAnswer(k)
    ensures forall n :: n in names ==> exists k: Kind :: Name(k) == n
    ensures names == {"STRING_OR_TEXT"}
  {
    names := {};
    for i := 0 to |AllKinds|
      invariant forall n :: n in names <==> exists j :: 0 <= j < i && NeedsMessageAnswer(AllKinds[j]) && Name(AllKinds[j]) == n
    {
      var k := AllKinds[i];
      if NeedsMessageAnswer(k) {
        names := names + {Name(k)};
      }
    }
    assert AllKinds[0] == StringOrText;
    assert Name(StringOrText) in names;
    forall n | n in names
      ensures n == "STRING_OR_TEXT"
    {
      var j :| 0 <= j < 3 && NeedsMessageAnswer(AllKinds[j]) && Name(AllKinds[j]) == n;
    }
    forall k: Kind
      ensures Name(k) in names <==> NeedsMessageAnswer(k)
    {
      AllKindsComplete(k);
    }
  }
}

/** What the question classes store and display: the answer payload each
    kind builds from the user's reply, the multiple-choice toggle, the
    options text and the chosen-option derivation used when a question is
    shown again. */
module Questions {
  import opened Wrappers
  import opened PyStr
  import opened QuestionKinds

  /** The answer statuses. The database enum has only the first three; the
      question classes also store `SAVED`. */
  datatype AnswerStatus = UNCHECKED | CORRECT | INCORRECT | SAVED

  /** `answer_data`: a list of strings, where a text answer of a message
      without text holds `None`. */
  type AnswerData = seq<Option<string>>

  /** One stored answer of one user to one task. */
  datatype AnswerRow = AnswerRow(
    id: nat,
    taskId: int,
    userId: int,
    answerData: AnswerData,
    status: AnswerStatus,
    dispatchNumber: int)

  /** `values_to_replace`, the columns a save writes. */
  datatype Values = Values(answerData: AnswerData, status: AnswerStatus)

  /** The `answer_data_converter` argument. The only converter in the system
      is the multiple-choice `convert_answer_data`, which toggles one option. */
  datatype Converter = ToggleOption(option: Option<string>)

  /** What the user sent: a chat message (its text) or a button press (its
      callback data). */
  datatype UserAnswer = MessageAnswer(text: Option<string>) | CallbackAnswer(data: string)

  // ---------------------------------------------------------------------
  // The multiple-choice toggle

  predicate NoDuplicates<T(==)>(s: seq<T>) {
    forall i, j :: 0 <= i < j < |s| ==> s[i] != s[j]
  }

  /** `list(set(data))`: each element once. Python leaves the order of a set
      open; the model keeps first occurrences in order. */
  function Dedup<T(==, !new)>(s: seq<T>): (r: seq<T>)
    ensures forall x :: x in r <==> x in s
    ensures NoDuplicates(r)
    decreases |s|
  {
    if s == [] then []
    else
      var d := Dedup(s[..|s| - 1]);
      var x := s[|s| - 1];
      assert forall y :: y in s <==> y in s[..|s| - 1] || y == x by {
        assert s == s[..|s| - 1] + [x];
      }
      if x in d then d else d + [x]
  }

  /** `s` without the element `x`. */
  function Remove<T(==, !new)>(s: seq<T>, x: T): (r: seq<T>)
    ensures forall y :: y in r <==> y in s && y != x
    decreases |s|
  {
    if s == [] then []
    else
      var rest := Remove(s[1..], x);
      assert forall y :: y in s <==> y == s[0] || y in s[1..] by {
        assert s == [s[0]] + s[1..];
      }
      if s[0] == x then rest else [s[0]] + rest
  }

  lemma {:induction false} RemoveNoDuplicates<T(!new)>(s: seq<T>, x: T)
    requires NoDuplicates(s)
    ensures NoDuplicates(Remove(s, x))
    decreases |s|
  {
    if s != [] {
      assert NoDuplicates(s[1..]) by {
        forall i, j | 0 <= i < j < |s[1..]| ensures s[1..][i] != s[1..][j] {
          assert s[1..][i] == s[i + 1] && s[1..][j] == s[j + 1];
        }
      }
      RemoveNoDuplicates(s[1..], x);
      var rest := Remove(s[1..], x);
      assert s[0] !in s[1..] by {
        forall j | 0 <= j < |s[1..]| ensures s[1..][j] != s[0] {
          assert s[1..][j] == s[j + 1];
        }
      }
      if s[0] != x {
        var r := [s[0]] + rest;
        forall i, j | 0 <= i < j < |r| ensures r[i] != r[j] {
          if i == 0 {
            assert r[j] == rest[j - 1];
            assert r[j] in rest;
          } else {
            assert r[i] == rest[i - 1] && r[j] == rest[j - 1];
          }
        }
      }
    }
  }

  /** `convert_answer_data`: the chosen option leaves the selection if it was
      in it and joins it otherwise. */
  function Toggle(data: AnswerData, option: Option<string>): AnswerData
  {
    var d := Dedup(data);
    if option in d then Remove(d, option) else d + [option]
  }

  /** The toggled selection holds each option once, and exactly the options
      of the old selection other than the chosen one, plus the chosen one
      when it was not selected before. */
  lemma ToggleContents(data: AnswerData, option: Option<string>)
    ensures NoDuplicates(Toggle(data, option))
    ensures forall x :: x in Toggle(data, option) <==> (x in data <==> x != option)
  {
    var d := Dedup(data);
    if option in d {
      RemoveNoDuplicates(d, option);
    } else {
      forall i, j | 0 <= i < j < |d + [option]|
        ensures (d + [option])[i] != (d + [option])[j]
      {
        if j == |d| {
          assert (d + [option])[i] == d[i];
        } else {
          assert (d + [option])[i] == d[i] && (d + [option])[j] == d[j];
        }
      }
    }
  }

  /** Choosing the same option twice restores the original selection,
      as a set. */
  lemma ToggleTwice(data: AnswerData, option: Option<string>)
    ensures forall x :: x in Toggle(Toggle(data, option), option) <==> x in data
  {
    ToggleContents(data, option);
    ToggleContents(Toggle(data, option), option);
  }

  function Apply(c: Converter, data: AnswerData): AnswerData
  {
    match c
    case ToggleOption(o) => Toggle(data, o)
  }

  // ---------------------------------------------------------------------
  // Payloads built by save_answer

  /** `data.split('#')[-1]`: the chosen option of a button press. */
  function LastSegment(data: string): (r: string)
    ensures '#' !in r
  {
    var parts := Split(data, '#');
    SplitPartsFree(data, '#', |parts| - 1);
    parts[|parts| - 1]
  }

  /** The last segment of `prefix#n` is `str(n)`. */
  lemma LastSegmentOf(prefix: string, n: int)
    ensures LastSegment(prefix + "#" + IntToString(n)) == IntToString(n)
  {
    IntStringHasNoHash(n);
    assert prefix + "#" + IntToString(n) == prefix + ['#'] + IntToString(n);
    SplitLast(prefix, '#', IntToString(n));
  }

  lemma IntStringHasNoHash(n: int)
    ensures '#' !in IntToString(n)
  {
    if n < 0 {
      var t := NatToString(-n);
      assert forall i :: 0 <= i < |t| ==> t[i] != '#';
      assert IntToString(n) == "-" + t;
    } else {
      var t := NatToString(n);
      assert forall i :: 0 <= i < |t| ==> t[i] != '#';
    }
  }

  /** `save_answer` as written: the values and converter each kind hands to
      `check_answer_and_save`, or `AssertionError` when the reply is of the
      other sort (a button press for a text question, a message for a
      choice question). The multiple-choice values carry an empty
      `answer_data`, so a first press that creates the row stores no
      option; `SaveAnswer` below is the corrected form. */
  function SaveAnswerAsWritten(k: Kind, ans: UserAnswer): (r: Result<(Values, Option<Converter>), PyExc>)
    ensures r.Failure? <==> (k == StringOrText) != ans.MessageAnswer?
    ensures r.Success? && k == MultipleChoice ==> r.value.0.answerData == []
  {
    match k
    case StringOrText =>
      if ans.MessageAnswer? then Success((Values([ans.text], SAVED), None)) else Failure(AssertionError)
    case OneChoice =>
      if ans.CallbackAnswer? then Success((Values([Some(LastSegment(ans.data))], SAVED), None))
      else Failure(AssertionError)
    case MultipleChoice =>
      if ans.CallbackAnswer? then
        Success((Values([], SAVED), Some(ToggleOption(Some(LastSegment(ans.data))))))
      else Failure(AssertionError)
  }

  /** `save_answer` with the multiple-choice insert corrected: a first press
      stores the chosen option, which is what toggling it into an empty
      selection gives; every later press still toggles the stored data. */
  function SaveAnswer(k: Kind, ans: UserAnswer): (r: Result<(Values, Option<Converter>), PyExc>)
    ensures r.Failure? <==> (k == StringOrText) != ans.MessageAnswer?
    ensures r.Success? ==> r.value.0.status == SAVED
    ensures r.Success? && k == StringOrText ==> r.value == (Values([ans.text], SAVED), None)
    ensures r.Success? && k == OneChoice ==> r.value == (Values([Some(LastSegment(ans.data))], SAVED), None)
    ensures r.Success? && k == MultipleChoice ==>
      r.value.1 == Some(ToggleOption(Some(LastSegment(ans.data)))) &&
      r.value.0.answerData == Apply(r.value.1.value, [])
  {
    match SaveAnswerAsWritten(k, ans)
    case Failure(e) => Failure(e)
    case Success((vals, conv)) =>
      if k == MultipleChoice then Success((Values(Apply(conv.value, []), SAVED), conv))
      else Success((vals, conv))
  }

  /** The two forms differ exactly on the first multiple-choice press. */
  lemma SaveAnswerCorrection(k: Kind, ans: UserAnswer)
    ensures SaveAnswer(k, ans) != SaveAnswerAsWritten(k, ans) <==> k == MultipleChoice && ans.CallbackAnswer?
  {
    if k == MultipleChoice && ans.CallbackAnswer? {
      assert Dedup<Option<string>>([]) == [];
      assert SaveAnswer(k, ans).value.0.answerData != [];
    }
  }

  // ---------------------------------------------------------------------
  // Showing a choice question again

  const OptionsTitle: string := "Варианты ответа:"
  const OptionsHeader: string := OptionsTitle + "\n"

  const LinePrefix: string := "<b>Вариант "
  const LineMiddle: string := "</b>: "

  /** `f'<b>Вариант {ind}</b>: {value}\n'` */
  function OptionLine(ind: int, value: string): string
  {
    LinePrefix + IntToString(ind) + LineMiddle + value + "\n"
  }

  /** The lines `get_options_text` appends, one per option in order. */
  function OptionLines(options: seq<string>): string
    decreases |options|
  {
    if options == [] then ""
    else OptionLines(options[..|options| - 1]) + OptionLine(|options| - 1, options[|options| - 1])
  }

  lemma OptionLinesSnoc(options: seq<string>, ind: nat)
    requires ind < |options|
    ensures OptionLines(options[..ind + 1]) == OptionLines(options[..ind]) + OptionLine(ind, options[ind])
  {
    assert options[..ind + 1][..ind] == options[..ind];
  }

  /** `get_options_text`: the header followed by one numbered line per
      option, numbering from 0. */
  method OptionsText(options: seq<string>) returns (msg: string)
    ensures msg == OptionsHeader + OptionLines(options)
  {
    msg := OptionsHeader;
    for ind := 0 to |options|
      invariant msg == OptionsHeader + OptionLines(options[..ind])
    {
      var line := OptionLine(ind, options[ind]);
      OptionLinesSnoc(options, ind);
      Assoc(OptionsHeader, OptionLines(options[..ind]), line);
      msg := msg + line;
    }
    assert options[..|options|] == options;
  }

  lemma OptionLineNewlines(ind: int, value: string)
    requires '\n' !in value
    ensures Count(OptionLine(ind, value), '\n') == 1
  {
    var digits := IntToString(ind);
    assert '\n' !in digits by {
      if ind < 0 {
        var t := NatToString(-ind);
        assert forall i :: 0 <= i < |t| ==> t[i] != '\n';
        assert digits == "-" + t;
      } else {
        var t := NatToString(ind);
        assert forall i :: 0 <= i < |t| ==> t[i] != '\n';
      }
    }
    assert '\n' !in LinePrefix && '\n' !in LineMiddle;
    CountAppend(LinePrefix + digits + LineMiddle + value, "\n", '\n');
    CountAppend(LinePrefix + digits + LineMiddle, value, '\n');
    CountAppend(LinePrefix + digits, LineMiddle, '\n');
    CountAppend(LinePrefix, digits, '\n');
  }

  /** With single-line options the text has one line per option after the
      header line. */
  lemma {:induction false} OptionLinesNewlines(options: seq<string>)
    requires forall i :: 0 <= i < |options| ==> '\n' !in options[i]
    ensures Count(OptionLines(options), '\n') == |options|
    decreases |options|
  {
    if options != [] {
      var n := |options| - 1;
      OptionLinesNewlines(options[..n]);
      OptionLineNewlines(n, options[n]);
      CountAppend(OptionLines(options[..n]), OptionLine(n, options[n]), '\n');
    }
  }

  lemma TitleHasNoNewline()
    ensures Count(OptionsTitle, '\n') == 0
  {
    assert '\n' !in OptionsTitle;
  }

  lemma HeaderNewlines()
    ensures Count(OptionsHeader, '\n') == 1
  {
    CountAppend(OptionsTitle, "\n", '\n');
    TitleHasNoNewline();
    assert Count("\n", '\n') == 1;
  }

  lemma OptionsTextNewlines(options: seq<string>)
    requires forall i :: 0 <= i < |options| ==> '\n' !in options[i]
    ensures Count(OptionsHeader + OptionLines(options), '\n') == |options| + 1
  {
    OptionLinesNewlines(options);
    CountAppend(OptionsHeader, OptionLines(options), '\n');
    HeaderNewlines();
  }

  /** `int(x)` of one stored element: `TypeError` for `None`, `ValueError`
      for text that is no integer. */
  function ParseStored(x: Option<string>): (r: Result<int, PyExc>)
    ensures x.None? ==> r == Failure(TypeError)
    ensures x.Some? ==> (r.Success? <==> ParseInt(x.value, 10).Some?)
    ensures x.Some? && r.Success? ==> ParseInt(x.value, 10) == Some(r.value)
    ensures x.Some? && r.Failure? ==> r.error == ValueError
  {
    match x
    case None => Failure(TypeError)
    case Some(s) => match ParseInt(s, 10)
      case None => Failure(ValueError)
      case Some(n) => Success(n)
  }

  /** The one-choice `chosen_variant`: -1 without an answer or with an
      unchecked one, otherwise the integer of the first stored element. */
  function ChosenVariant(answer: Option<AnswerRow>): (r: Result<int, PyExc>)
    ensures (answer.None? || answer.value.status == UNCHECKED) ==> r == Success(-1)
    ensures answer.Some? && answer.value.status != UNCHECKED && answer.value.answerData == [] ==> r == Failure(IndexError)
    ensures answer.Some? && answer.value.status != UNCHECKED && answer.value.answerData != [] ==>
      r == ParseStored(answer.value.answerData[0])
  {
    if answer.None? || answer.value.status == UNCHECKED then Success(-1)
    else if answer.value.answerData == [] then Failure(IndexError)
    else ParseStored(answer.value.answerData[0])
  }

  /** `[int(option) for option in data]`, raising at the first element that
      does not convert. */
  function ParseAll(data: AnswerData): (r: Result<seq<int>, PyExc>)
    ensures r.Success? <==> forall i :: 0 <= i < |data| ==> ParseStored(data[i]).Success?
    ensures r.Success? ==> |r.value| == |data| && forall i :: 0 <= i < |data| ==> ParseStored(data[i]) == Success(r.value[i])
    ensures r.Failure? ==>
      exists j :: 0 <= j < |data| && ParseStored(data[j]) == Failure(r.error) &&
                  forall i :: 0 <= i < j ==> ParseStored(data[i]).Success?
    decreases |data|
  {
    if data == [] then Success([])
    else
      match ParseStored(data[0])
      case Failure(e) => Failure(e)
      case Success(n) =>
        assert forall i :: 1 <= i < |data| ==> data[1..][i - 1] == data[i];
        match ParseAll(data[1..])
        case Failure(e) =>
          var j :| 0 <= j < |data[1..]| && ParseStored(data[1..][j]) == Failure(e) &&
            forall i :: 0 <= i < j ==> ParseStored(data[1..][i]).Success?;
          assert ParseStored(data[j + 1]) == Failure(e);
          Failure(e)
        case Success(ns) => Success([n] + ns)
  }

  /** The multiple-choice `chosen_options`. */
  function ChosenOptions(answer: Option<AnswerRow>): (r: Result<seq<int>, PyExc>)
    ensures (answer.None? || answer.value.status == UNCHECKED) ==> r == Success([])
    ensures answer.Some? && answer.value.status != UNCHECKED ==> r == ParseAll(answer.value.answerData)
  {
    if answer.None? || answer.value.status == UNCHECKED then Success([])
    else ParseAll(answer.value.answerData)
  }

  /** The rendered state of a choice question: its options text, the number
      of option buttons and the highlighted choice(s). */
  datatype ChoiceView =
    | OneChoiceView(text: string, count: nat, chosen: int)
    | MultipleChoiceView(text: string, count: nat, chosenList: seq<int>)

  /** What `send_question` of a choice kind computes before sending:
      `AssertionError` without options, then the text and the choice. */
  function ChoiceViewOf(k: Kind, options: seq<string>, answer: Option<AnswerRow>): (r: Result<ChoiceView, PyExc>)
    requires k != StringOrText
    ensures options == [] ==> r == Failure(AssertionError)
    ensures r.Success? ==> r.value.count == |options| && r.value.text == OptionsHeader + OptionLines(options)
    ensures r.Success? ==> (k == OneChoice <==> r.value.OneChoiceView?)
    ensures options != [] && k == OneChoice ==>
      match ChosenVariant(answer)
      case Success(c) => r.Success? && r.value.chosen == c
      case Failure(e) => r == Failure(e)
    ensures options != [] && k == MultipleChoice ==>
      match ChosenOptions(answer)
      case Success(cs) => r.Success? && r.value.chosenList == cs
      case Failure(e) => r == Failure(e)
  {
    if options == [] then Failure(AssertionError)
    else if k == OneChoice then
      match ChosenVariant(answer)
      case Failure(e) => Failure(e)
      case Success(c) => Success(OneChoiceView(OptionsHeader + OptionLines(options), |options|, c))
    else
      match ChosenOptions(answer)
      case Failure(e) => Failure(e)
      case Success(cs) => Success(MultipleChoiceView(OptionsHeader + OptionLines(options), |options|, cs))
  }

  /** A one-choice press on the button for option `n` (callback data
      `...#n`) is shown as choice `n` the next time the question appears. */
  lemma OneChoiceRoundTrip(prefix: string, n: int, row: AnswerRow)
    requires SaveAnswer(OneChoice, CallbackAnswer(prefix + "#" + IntToString(n))).Success?
    requires var vals := SaveAnswer(OneChoice, CallbackAnswer(prefix + "#" + IntToString(n))).value.0;
      row.answerData == vals.answerData && row.status == vals.status
    ensures ChosenVariant(Some(row)) == Success(n)
  {
    LastSegmentOf(prefix, n);
    IntRoundTrip(n);
  }

  /** Option numbers as the strings a press stores. */
  function StoredInts(ns: seq<int>): (data: AnswerData)
    ensures |data| == |ns|
    decreases |ns|
  {
    if ns == [] then [] else [Some(IntToString(ns[0]))] + StoredInts(ns[1..])
  }

  /** Stored option numbers are read back as the same integers. */
  lemma {:induction false} ParseAllRoundTrip(ns: seq<int>)
    ensures ParseAll(StoredInts(ns)) == Success(ns)
    decreases |ns|
  {
    if ns != [] {
      IntRoundTrip(ns[0]);
      ParseAllRoundTrip(ns[1..]);
      assert [ns[0]] + ns[1..] == ns;
    }
  }
}
