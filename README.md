# exam-o-bot, modelled in Dafny

exam-o-bot is a Telegram bot that helps run tests. It imports a Google Form, asks the form's questions one at a time, stores each user's answers, and then submits them to the form's public `formResponse` endpoint. This project models the data-shaped, sequential logic that sits under the chat and database calls, and proves properties of that model:

- **Form translation and extraction.** `Translator.translate` (module `TaskTranslator`) turns a form's JSON `items` array into task records. The older `extract` (module `TaskExtractor`) does the same over a top-level JSON array. JSON is the `Json.Json` datatype. Its objects are ordered member lists, so Python's lookup, `in` test and iteration order are kept.
- **Question kinds and saved answers.** Module `QuestionKinds` holds the three kinds, and `QuestionType` holds the set of kinds that take a message answer. `Questions` covers validation, the answer payloads, the multiple-choice toggle, the rendering state and the options text. `AnswerStore` models `check_answer_and_save` as an upsert on a table that keeps at most one row per (task, user) pair. The table is the class `AnswerStore.Store`.
- **Submitting answers.** `FormAnswerSender` builds the `formResponse` URL, runs the steps of a submission in order and classifies the reply. `SenderErrors` models the exception hierarchy, its messages and `_shorten`.
- **Per-user navigation.** `Handlers.Bot` models the user record fields `current_test_id`, `current_task_id` and `current_messages_to_delete` together with the answer store. It has one method per handler from `examobot_tasks.py` and `examobot_main.py`. Each chat call the bot would make is appended to an outbox log.
- **The older state machine.** `Fsm.ExamOBot` models `examobot.py`'s state data, its task-order counter and its attempts check.
- **Pure helpers.** `Buttons` covers callback data, `MainBot` and `SecondBot` the two bots' link, callback and creation-form helpers, `ShareLinks` share-link validation by a hand-coded UUID pattern, `BotUtils` the help and reply builders, and `Definitions` the language lookup.

Shared Python semantics live in `PyStr` (`split`, `startswith`, `int()`, `str()` of integers, `lower`, whitespace handling), `Json`, `Enumerate`, `Seqs` and `Wrappers` (`Option`, `Result`). An uncaught Python exception becomes an error value naming its class (`PyExc`).

The model has no clock, network, database or chat connection. Inputs to the operations stand in for the outside world: HTTP replies, the HTML parse result ("parse failed", "has a `<form>`"), parsed metadata JSON and the chat users' names. The ids of the messages the bot sends are drawn from a counter.

## Model

| member | source | states |
|---|---|---|
| BotUtils.MakeStartReply | src/examobot/bot/bot_utils.py:13-16 | the greeting is the fixed salutation, the user's name HTML-quoted in `<b>` tags, and the `/help` hint, nothing more |
| BotUtils.StartReplyName | src/examobot/bot/bot_utils.py:13-16 | cutting the fixed text and the tags off a greeting and undoing the HTML quoting gives back the name |
| BotUtils.StartReplyInjective | src/examobot/bot/bot_utils.py:13-16 | two users with different names get different greetings |
| PyStr.HtmlQuoteRoundTrip | src/examobot/bot/bot_utils.py:14 | the quoting `hbold` applies to `&`, `<` and `>` loses nothing: unquoting its result gives the text back |
| BotUtils.MakeIExpectedReply | src/examobot/bot/bot_utils.py:19-20 | the reply is the fixed head, the type name lower-cased character by character, and a final period |
| BotUtils.IExpectedReplyIgnoresCase | src/examobot/bot/bot_utils.py:19-20 | type names that agree up to case give the same reply, and lower-casing first changes nothing |
| BotUtils.MakeTestInfoReply | src/examobot/bot/bot_utils.py:23-33 | the card is the bold title, the author line (a missing name shows as `None`), the duration, the number of tasks and the attempts left (attempts minus participations) over the attempts allowed, each line ending in a newline but the last, nothing more |
| BotUtils.MakeTaskInfoReply | src/examobot/bot/bot_utils.py:36-40 | the card is the bold title, a newline and the task text, nothing more |
| BotUtils.LocalePart | src/examobot/bot/bot_utils.py:57-60 | no part found exactly when no part starts with the locale; otherwise the first such part with the locale removed |
| BotUtils.LocalePartFirst | src/examobot/bot/bot_utils.py:57-60 | the earliest part starting with the locale is the one the loop picks |
| BotUtils.ExtractLocaleDoc | src/examobot/bot/bot_utils.py:50-62 | the loop computes the description: the default when the docstring has no `:` or no part for the locale, otherwise the part without the locale, stripped and with whitespace runs collapsed; a missing docstring is an `AttributeError` |
| BotUtils.DefaultDocUnchanged | src/examobot/bot/bot_utils.py:51-62 | a docstring without `:` or without a part for the locale gives the default description unchanged |
| BotUtils.HelpDefaultNormal | src/examobot/bot/bot_utils.py:46 | the default description is already stripped and collapsed |
| BotUtils.LocaleDocNormal | src/examobot/bot/bot_utils.py:62 | every description returned has only single blanks as whitespace and does not start with one |
| BotUtils.LocaleDoc | src/examobot/bot/bot_utils.py:49-62 | what `extract_locale_doc` returns; `BotUtils.DefaultDocUnchanged`, `BotUtils.LocaleDocNormal`, `BotUtils.HelpDefaultNormal` and `BotUtils.ExtractLocaleDoc` state its result |
| BotUtils.ListedNames | src/examobot/bot/bot_utils.py:68-72 | the commands listed never include a hidden command (`start`) |
| BotUtils.HelpEntriesListed | src/examobot/bot/bot_utils.py:68-76 | one entry per listed handler, in method order, each starting with `/`, the command name and ` - ` |
| BotUtils.HelpEntriesSnoc | src/examobot/bot/bot_utils.py:68-76 | one more method adds nothing when it is not a listed handler, raises when its docstring does, and otherwise appends its entry |
| BotUtils.HelpEntries | src/examobot/bot/bot_utils.py:64-78 | the help entries; `BotUtils.HelpEntriesListed`, `BotUtils.HelpEntriesSnoc` and `BotUtils.MakeHelpList` state which entries and in what order |
| BotUtils.AccumulatedJoin | src/examobot/bot/bot_utils.py:75-78 | the message accumulated by `+=` is the entries joined by a blank line plus a trailing blank line |
| BotUtils.AccumulatedRemoveSuffix | src/examobot/bot/bot_utils.py:78 | removing the final blank line leaves exactly the entries joined by blank lines |
| BotUtils.MakeHelpList | src/examobot/bot/bot_utils.py:65-78 | the loop's result is the entries joined by blank lines, or the first error a docstring raised |
| BotUtils.HelpEntriesPrefixFailure | src/examobot/bot/bot_utils.py:68-76 | once a prefix of the methods raises, the whole loop raises the same error |
| Buttons.Callback | src/examobot/bot/Button.py:17-19 | the callback is the lower-cased name followed by `_callback` |
| Buttons.GetButton | src/examobot/bot/Button.py:21-30 | the button shows the new text when it is a non-empty string and the stored text otherwise; its data is the callback, then `#` and the parameters joined by `#` when there are any |
| Buttons.HasOwnCallback | src/examobot/bot/Button.py:21-33 | a button's own data is recognised by `has_that_callback`, whatever the parameters |
| Buttons.CallbackDataSplit | src/examobot/bot/Button.py:25-27 | splitting the data at `#` gives back the callback and the parameters when none of them holds a `#` |
| Buttons.CallbackData | src/examobot/bot/Button.py:21-30 | the data starts with the callback, is exactly the callback without parameters, and otherwise continues with `#` right after the callback |
| Buttons.HasThatCallback | src/examobot/bot/Button.py:32-33 | `has_that_callback`; `Buttons.HasOwnCallback` states that a button's own data passes |
| Buttons.JoinSplit | src/examobot/bot/Button.py:27 | splitting a `#`-join of pieces without `#` gives the pieces back |
| Buttons.IdFromCallback | src/examobot/bot/examobot2.py:568-569 | the call fails only with `IndexError` or `ValueError`, and with `IndexError` exactly when the data holds no `#`; a successful call returns the second `#`-piece parsed as a decimal integer |
| Buttons.IdFromCallbackPiece | src/examobot/bot/examobot2.py:568-569 | for data made of a `#`-free head, `#`, a `#`-free piece and then nothing or more `#`-separated text, the result is that piece parsed as a decimal integer, or `ValueError` when it is not one |
| Buttons.IdFromCallbackRoundTrip | src/examobot/bot/examobot2.py:568-569 | the id read from a button made with an integer first parameter is that integer |
| Definitions.GetLanguage | src/examobot/definitions.py:30-36 | the language found is one whose value equals the argument ignoring case, and none is found exactly when no value matches |
| Definitions.ValuesDistinct | src/examobot/definitions.py:26-28 | the two language values differ even ignoring case, so the lookup is unambiguous |
| Definitions.LanguageSpellings | src/examobot/definitions.py:26-36 | `EN`, `en`, `RU` and `ru` name the two languages, and lower-casing the argument first does not change the lookup |
| TaskExtractor.ExtractList | src/examobot/task_extractor/task_extractor.py:78-88 | a JSON array gives one task per item, each the item's own extraction; it fails exactly when some item fails, and then with the error of the first item that fails |
| TaskExtractor.ExtractItem | src/examobot/task_extractor/task_extractor.py:56-75 | a row is returned only for an item with `title` and `questionItem`, and carries the title, the test id given and `STRING_OR_TEXT`; a `ParsingError` always carries the item's title |
| TaskExtractor.Extract | src/examobot/task_extractor/task_extractor.py:78-88 | a form that cannot be iterated raises that error; a successful extraction has one row per item, each with the test id given |
| TaskExtractor.StringItem | src/examobot/task_extractor/task_extractor.py:56-60 | an item that is a string (a key of a JSON object) raises `TypeError`; the `in` tests are substring tests and do not raise, but either the refusal's `item["title"]` (line 58) or, when the string holds `questionItem`, `item['questionItem']` (line 16) indexes a string by a string |
| TaskExtractor.ExtractFormObject | src/examobot/task_extractor/task_extractor.py:85-88 | a form given as a non-empty JSON object is iterated by its keys and raises `TypeError` |
| TaskExtractor.NoQuestionItem | src/examobot/task_extractor/task_extractor.py:56-58 | an item without `questionItem` raises `ParsingError` carrying its title |
| TaskExtractor.OnlyTextQuestions | src/examobot/task_extractor/task_extractor.py:43-48 | the type is `STRING_OR_TEXT` exactly when the question has `textQuestion`; every other question raises `ParsingError` with the title |
| TaskExtractor.RowFields | src/examobot/task_extractor/task_extractor.py:12-75 | the row carries the question id, the title, the test id and `STRING_OR_TEXT`; a missing description, `required` flag or image gives `None`, `False` and `None` |
| TaskTranslator.GetResponderUri | src/examobot/task_translator/task_translator.py:15-18 | the lookup succeeds exactly when the form is an object with `responderUri`, and returns that member |
| TaskTranslator.GetFormTitle | src/examobot/task_translator/task_translator.py:20-23 | the lookup succeeds exactly when the form has an `info` object that has a `title`, and then returns that `title` member |
| TaskTranslator.MayHaveOptions | src/examobot/task_translator/task_translator.py:25-31 | true exactly for the names `ONE_CHOICE` and `MULTIPLE_CHOICE` |
| TaskTranslator.MayHaveOptionsKinds | src/examobot/task_translator/task_translator.py:25-31 | of the three question types, exactly the two choice types may have options |
| TaskTranslator.GetOptionsAndIsOther | src/examobot/task_translator/task_translator.py:114-131 | the loop computes `_get_options_and_is_other`: the options and the other-flag, `(None, False)` when a `KeyError` reaches the `except`, and any other error passed on |
| TaskTranslator.CollectOptionsFailureSticks | src/examobot/task_translator/task_translator.py:120-126 | once the loop has raised on a prefix of the entries, the whole loop raises the same error |
| TaskTranslator.CollectOptionsFails | src/examobot/task_translator/task_translator.py:120-126 | for object entries the loop raises exactly when some entry has neither `value` nor `isOther`, and then raises `TranslationError` with the item's title |
| TaskTranslator.CollectOptionsValues | src/examobot/task_translator/task_translator.py:118-128 | a loop that does not raise returns the `value` members in entry order, and sets the other-flag exactly when some entry has `isOther` and no `value` |
| TaskTranslator.MissingOptions | src/examobot/task_translator/task_translator.py:116-131 | a question with no `options` path gives `(None, False)` |
| TaskTranslator.Translate | src/examobot/task_translator/task_translator.py:33-38 | the loop returns the translation of every item in order, or the first error an item raised |
| TaskTranslator.TranslateOnePerItem | src/examobot/task_translator/task_translator.py:33-38 | a successful translation has one record per item, the record of item `i` being item `i` translated with index `i` |
| TaskTranslator.TranslateAllOrNothing | src/examobot/task_translator/task_translator.py:33-38 | the translation fails exactly when some item fails, and then with the error of the first item that fails |
| TaskTranslator.NoTitleError | src/examobot/task_translator/task_translator.py:41-42 | an item without `title` raises the no-title `TranslationError` carrying its 0-based index |
| TaskTranslator.NoQuestionItemError | src/examobot/task_translator/task_translator.py:43-45 | an item without `questionItem` raises the unsupported-type `TranslationError` with its index and title |
| TaskTranslator.MissingQuestionIdError | src/examobot/task_translator/task_translator.py:64-69 | a question item without `question` or a question without `questionId` raises `TranslationError` with the title |
| TaskTranslator.TaskTypeCases | src/examobot/task_translator/task_translator.py:95-112 | `STRING_OR_TEXT` exactly for a `textQuestion`, `ONE_CHOICE` exactly for a `RADIO` choice question, `MULTIPLE_CHOICE` exactly for a `CHECKBOX` one; neither key, a choice without `type`, or a choice whose `type` is anything else raises the type `TranslationError` with the title |
| TaskTranslator.TaskTypeFailures | src/examobot/task_translator/task_translator.py:95-112 | for an item with a title whose choice question, if any, is an object, every failure of the type lookup is the type `TranslationError` carrying the title |
| TaskTranslator.GetTaskType | src/examobot/task_translator/task_translator.py:95-112 | `ONE_CHOICE` only for a `RADIO` choice type and `MULTIPLE_CHOICE` only for a `CHECKBOX` one; a `TranslationError` it raises is always the type error |
| TaskTranslator.GetDescription | src/examobot/task_translator/task_translator.py:78-80 | the item's `description` member when it has one, `None` when it is an object without one |
| TaskTranslator.GetRequired | src/examobot/task_translator/task_translator.py:82-87 | the `required` member of the question, `False` when the question lacks it; a `KeyError` never escapes, every failure being an uncaught lookup error |
| TaskTranslator.GetInputMedia | src/examobot/task_translator/task_translator.py:89-93 | succeeds only for an item with `questionItem`; `None` when the question item has no `image`, otherwise the image's `contentUri` lookup |
| TaskTranslator.OptionsAndIsOther | src/examobot/task_translator/task_translator.py:114-131 | `(None, False)` when the `options` path raises `KeyError`; without options the other-flag is `False`; a `KeyError` is never passed on |
| TaskTranslator.TranslateItem | src/examobot/task_translator/task_translator.py:40-62 | an item without `title` raises the no-title `TranslationError` with its index; a record is returned only for an item with `title` and `questionItem`, carries the title as its text, and has options only for a choice type and then a non-empty list |
| TaskTranslator.ChoiceKeys | src/examobot/task_translator/task_translator.py:56-60 | the options and other-flag are present only for a choice type with a non-empty option list, and then they are exactly what the option loop collected |
| TaskTranslator.ItemFields | src/examobot/task_translator/task_translator.py:47-54 | the record carries the title and the question id; a missing description, `required` flag or image gives `None`, `False` and `None` |
| QuestionKinds.AllKindsComplete | src/examobot/task_translator/question_type.py:6-9 | the three kinds listed are all the question types there are |
| QuestionKinds.FromName | src/examobot/task_translator/question_type.py:6-9 | the type found by name has that name, and none is found exactly when no type has it |
| QuestionKinds.NameRoundTrip | src/examobot/task_translator/question_type.py:6-9 | looking up a type's own name gives that type back |
| QuestionKinds.NeedsMessageAnswer | src/examobot/task_translator/questions_classes.py:86-88 | only free-text questions are answered by a message (the choice types at lines 140-141 and 197-198 answer by button) |
| QuestionKinds.IsValidAnswer | src/examobot/task_translator/questions_classes.py:108-115 | a free-text answer is valid exactly when the message has non-empty text; the choice types accept anything (lines 173-174, 230-231) |
| QuestionType.NamesOfTypesWithMessageAnswers | src/examobot/task_translator/question_type.py:11-18 | the loop collects exactly the names of the types that need a message answer, which is `{"STRING_OR_TEXT"}` |
| Questions.Dedup | src/examobot/task_translator/questions_classes.py:241 | `set(data)` as a list: the same elements, each once |
| Questions.Remove | src/examobot/task_translator/questions_classes.py:243 | `remove`: every element but the one removed |
| Questions.RemoveNoDuplicates | src/examobot/task_translator/questions_classes.py:241-247 | removing from a list without duplicates leaves one without duplicates |
| Questions.ToggleContents | src/examobot/task_translator/questions_classes.py:240-247 | the converter's result has no duplicates and holds every old option except the chosen one, plus the chosen one when it was absent |
| Questions.ToggleTwice | src/examobot/task_translator/questions_classes.py:240-247 | clicking the same option twice gives back the same set of options |
| Questions.Toggle | src/examobot/task_translator/questions_classes.py:240-247 | the multiple-choice converter; `Questions.ToggleContents` and `Questions.ToggleTwice` state what it keeps, adds and removes |
| Questions.LastSegment | src/examobot/task_translator/questions_classes.py:182 | `data.split('#')[-1]` holds no `#` |
| Questions.LastSegmentOf | src/examobot/task_translator/questions_classes.py:182 | the last segment of a callback ending in `#` and an integer is that integer's text |
| Questions.IntStringHasNoHash | src/examobot/task_translator/questions_classes.py:182 | an integer's text holds no `#`, so it survives the split |
| Questions.SaveAnswerAsWritten | src/examobot/task_translator/questions_classes.py:234-258 | as written: a wrong answer kind raises `AssertionError`, and a first multiple-choice click stores an empty list because the converter only runs on an existing row |
| Questions.SaveAnswer | src/examobot/task_translator/questions_classes.py:117-258 | corrected: a wrong answer kind raises `AssertionError` (lines 119-121, 178-180, 235-236); otherwise the status is `SAVED`, free text stores the message text, one choice stores the last callback segment, and multiple choice toggles the chosen option, starting from an empty list, so a first press stores that option |
| Questions.SaveAnswerCorrection | src/examobot/task_translator/questions_classes.py:249-258 | the corrected save differs from the code as written exactly for multiple-choice button answers |
| Questions.OptionLinesSnoc | src/examobot/task_translator/questions_classes.py:19-20 | one more option appends exactly its own numbered line |
| Questions.OptionsText | src/examobot/task_translator/questions_classes.py:16-21 | the loop builds the header followed by one numbered line per option, in order |
| Questions.OptionLineNewlines | src/examobot/task_translator/questions_classes.py:20 | an option line holds exactly one newline when the option holds none |
| Questions.OptionLinesNewlines | src/examobot/task_translator/questions_classes.py:19-20 | the option lines hold one newline per option |
| Questions.HeaderNewlines | src/examobot/task_translator/questions_classes.py:18 | the header holds exactly one newline |
| Questions.OptionsTextNewlines | src/examobot/task_translator/questions_classes.py:16-21 | the whole options text holds one newline more than there are options |
| Questions.ParseStored | src/examobot/task_translator/questions_classes.py:153 | `int(x)` of one stored element: `TypeError` for `None`; for text, success exactly when the text is a decimal integer, with that integer, and `ValueError` otherwise |
| Questions.ChosenVariant | src/examobot/task_translator/questions_classes.py:150-153 | no answer or an unchecked one gives `-1`; a checked answer with empty data raises `IndexError`; otherwise the result is `int(answer_data[0])` as `Questions.ParseStored` computes it |
| Questions.ParseAll | src/examobot/task_translator/questions_classes.py:209-211 | the list comprehension succeeds exactly when every stored element converts, and then gives one integer per element, each that element's `int`; otherwise it raises the error of the first element that does not convert |
| Questions.ChosenOptions | src/examobot/task_translator/questions_classes.py:208-211 | no answer or an unchecked one gives no chosen options; otherwise the result is the stored data converted by `Questions.ParseAll`, failing as that conversion fails |
| Questions.ChoiceViewOf | src/examobot/task_translator/questions_classes.py:144-167 | no options raises `AssertionError` (lines 146-147, 203-204); otherwise the keyboard has one button per option under the options text, and a single-choice one exactly for `ONE_CHOICE`; it marks the variant `Questions.ChosenVariant` reads (lines 150-153) or the options `Questions.ChosenOptions` reads (lines 208-211), and raises their error unchanged |
| Questions.OneChoiceRoundTrip | src/examobot/task_translator/questions_classes.py:151-153 | the variant read back from a saved one-choice answer is the integer of the button pressed |
| Questions.ParseAllRoundTrip | src/examobot/task_translator/questions_classes.py:209-211 | integers stored as text parse back to the same list |
| AnswerStore.FindRow | src/examobot/task_translator/questions_classes.py:30-33 | the row found has the task and the user asked for, and none is found exactly when no row has them |
| AnswerStore.FindRowUnique | src/examobot/task_translator/questions_classes.py:30-33 | the last row with the key is the one found |
| AnswerStore.FindRowIsLast | src/examobot/task_translator/questions_classes.py:30-33 | no row after the one found has the key |
| AnswerStore.UpsertRow | src/examobot/task_translator/questions_classes.py:35-47 | after the save the pair has a row with the new status; a new row has the data given and dispatch number 0 (this model's default, see "Database" under Left out), an updated one keeps its id, counts one more dispatch and holds the converted old data when a converter was given |
| AnswerStore.UpsertSize | src/examobot/task_translator/questions_classes.py:35-47 | the table grows by one row exactly when the pair had none |
| AnswerStore.UpsertOthers | src/examobot/task_translator/questions_classes.py:35-47 | the rows of other pairs are left alone |
| AnswerStore.UpsertKeysUnique | src/examobot/task_translator/questions_classes.py:35-47 | a save keeps at most one row per (task, user) pair |
| AnswerStore.UpsertRepeat | src/examobot/task_translator/questions_classes.py:35-47 | saving the same values twice without a converter changes nothing but the dispatch count |
| AnswerStore.Upsert | src/examobot/task_translator/questions_classes.py:24-47 | `check_answer_and_save` on the table; `AnswerStore.UpsertRow`, `AnswerStore.UpsertSize`, `AnswerStore.UpsertOthers` and `AnswerStore.UpsertKeysUnique` state the row saved, the size, the untouched rows and the unique keys |
| AnswerStore.DeleteRows | src/examobot/bot/examobot_main.py:423 | the rows left are exactly the old rows not of that user and one of the test's tasks |
| AnswerStore.DeleteRowsKeepsKeysUnique | src/examobot/bot/examobot_main.py:423 | deleting keeps at most one row per pair |
| AnswerStore.Store.Get | src/examobot/task_translator/questions_classes.py:30-33 | the row returned is in the table and has the key, and none exactly when no row has it |
| AnswerStore.Store.CheckAnswerAndSave | src/examobot/task_translator/questions_classes.py:23-47 | the table becomes the upsert of the old one and the id counter moves on exactly when a row was added; one row per pair is kept |
| AnswerStore.Store.DeleteAnswers | src/examobot/bot/examobot_main.py:423 | the table becomes the old one without the deleted rows, keeping one row per pair |
| Handlers.Deletions | src/examobot/bot/examobot_main.py:454-458 | one deletion per queued message id, in order, in the user's chat |
| Handlers.TaskIdsOfTest | src/examobot/bot/examobot_main.py:416 | exactly the ids of the tasks that belong to the user's current test |
| Handlers.RowsOf | src/examobot/bot/examobot_main.py:416 | exactly the stored answers of that user to tasks of the test, never more than the table holds |
| Handlers.AnswerKey | src/examobot/bot/examobot_main.py:418-420 | an answer's key is its task's question id read as a hexadecimal integer, and it is found exactly when the task exists, has a known type and a hexadecimal id |
| Handlers.FormAnswers | src/examobot/bot/examobot_main.py:415-421 | the dictionary built has distinct keys, at most one per answer, and every value is `None` because `convert_answer_to_string_repr` has an empty body |
| Handlers.FormAnswersSucceeds | src/examobot/bot/examobot_main.py:417-421 | the conversion succeeds exactly when every answer has a key |
| Handlers.FormAnswersSnoc | src/examobot/bot/examobot_main.py:417-421 | one more answer keeps the conversion successful exactly when that answer has a key |
| Handlers.FormAnswersKeys | src/examobot/bot/examobot_main.py:417-421 | the keys of the dictionary are exactly the keys of the answers |
| Handlers.FormAnswersStep | src/examobot/bot/examobot_main.py:421 | one more answer with a key sets that key in the dictionary |
| Handlers.FormAnswersStepFails | src/examobot/bot/examobot_main.py:418-420 | an answer without a key makes the whole loop raise its error |
| Handlers.FormAnswersPrefixFailure | src/examobot/bot/examobot_main.py:417-421 | once a prefix of the answers fails, the loop fails with the same error |
| Handlers.QuestionMessagesAsWritten | src/examobot/task_translator/questions_classes.py:156-170 | as written: the photo message first when there is media, then the question message; the one-choice photo is a one-element tuple |
| Handlers.QuestionMessages | src/examobot/task_translator/questions_classes.py:92-106 | the photo message first when the task has media, then the question message, all of them messages |
| Handlers.MessageIds | src/examobot/bot/examobot_main.py:514 | the ids are read exactly when every entry is a message, one id per entry in order; a tuple raises `AttributeError` |
| Handlers.OneChoicePhotoTuple | src/examobot/task_translator/questions_classes.py:158-162 | as written, reading the ids of a one-choice question with a photo raises `AttributeError`; corrected, it gives the photo id and the question id |
| Handlers.QuestionMessagesAgree | src/examobot/task_translator/questions_classes.py:156-170 | the two versions differ exactly for one-choice questions with a photo |
| Handlers.MessageIdsOfQuestion | src/examobot/bot/examobot_main.py:507-514 | the corrected messages always yield their ids: photo then question, or the question alone |
| Handlers.BindSendQuestion | src/examobot/task_translator/questions_classes.py:56 | a call with a keyword `send_question` does not take raises `TypeError`, and only then |
| Handlers.SpecTaskCallFails | src/examobot/bot/examobot_main.py:507-512 | the handler's call with `menu_message_id` raises `TypeError`; without it the call binds |
| Handlers.InvalidTextStillSaved | src/examobot/bot/examobot_tasks.py:161-172 | an invalid text (missing or empty) is still saved with status `SAVED` when the handler goes on to `handle_question` |
| Handlers.Bot.GetCurrentUserTestTaskState | src/examobot/bot/examobot_tasks.py:56-67 | the user is returned when known; the test and task ids only when both are set and non-zero; a known user without them gets the message deleted |
| Handlers.Bot.GetTaskSafe | src/examobot/bot/examobot_tasks.py:14-29 | the task is returned when it exists; otherwise the message is edited to the deleted-test text |
| Handlers.Bot.HandleQuestion | src/examobot/bot/examobot_tasks.py:70-121 | without a test and task nothing is saved; a deleted task edits the message; otherwise the answer, saved as written or corrected as the flag says, is upserted, a button answer is acknowledged, and a message answer gets a confirmation whose id is queued for deletion with the answer's |
| Handlers.Bot.SaveAndAcknowledge | src/examobot/bot/examobot_tasks.py:98-121 | the save and the acknowledgement: the store is upserted with the values of `save_answer`, as written or corrected as the flag says, then the callback is answered, or a confirmation is sent and both message ids are queued |
| Handlers.SaveOf | src/examobot/task_translator/questions_classes.py:117-258 | the save the handlers run is `save_answer` as written or corrected, and the two agree on every answer except a multiple-choice button press |
| Handlers.Bot.HandleOptionQuery | src/examobot/bot/examobot_tasks.py:124-180 | corrected: a button press on a current task upserts its toggled or chosen option, so a first multiple-choice press on a task stores that option, and answers the callback; without a current test and task the pressed message is deleted (lines 63-64; nothing for an unknown user), and a task that is gone edits it to the deleted-test text (lines 14-29); in both cases nothing is stored |
| Handlers.Bot.HandleOptionQueryAsWritten | src/examobot/bot/examobot_tasks.py:124-180 | as written: a button press on a current task upserts the values `save_answer` returns and answers the callback, so a first multiple-choice press on a task with no stored row stores an empty list; without a current test and task the pressed message is deleted (nothing for an unknown user), and a task that is gone edits it to the deleted-test text; in both cases nothing is stored |
| Handlers.Bot.HandleMessageSentByUserAsWritten | src/examobot/bot/examobot_tasks.py:138-172 | as written: messages outside a text task are deleted; a missing task raises `AttributeError`; an invalid text gets the warning and the deletion and is then saved anyway |
| Handlers.Bot.HandleMessageSentByUser | src/examobot/bot/examobot_tasks.py:138-172 | corrected: an invalid text gets the warning and the deletion and is not saved; the store changes only for a valid text on a text task |
| Handlers.Bot.WelcomeMessage | src/examobot/bot/examobot_main.py:165-185 | the user is added when new (with the greeting), the current test and task are cleared, and the reply is the main menu without arguments or the link classification otherwise |
| Handlers.Bot.RegisterAndReset | src/examobot/bot/examobot_main.py:167-179 | a new user is added under the name built from first and last name and greeted; every user's test and task are cleared |
| Handlers.Bot.StartCurrentTest | src/examobot/bot/examobot_main.py:523-536 | a bad callback raises; otherwise the user's current test is set, and the message shows the test's title, or `AttributeError` when the test is gone |
| Handlers.Bot.SendQuestion | src/examobot/task_translator/questions_classes.py:91-227 | the photo (when the task has media) and then the question text are sent, with consecutive ids; a choice question with no options raises `AssertionError` before anything is sent |
| Handlers.Bot.SpecCurrentTestTaskAsWritten | src/examobot/bot/examobot_main.py:493-519 | as written: a deleted task edits the message, an unknown type raises `KeyError`, and every existing task raises `TypeError` at the `send_question` call |
| Handlers.Bot.SpecCurrentTestTask | src/examobot/bot/examobot_main.py:493-519 | corrected: the question is sent, and the user's current task and the queue of messages to delete become the task and the ids just sent; when `send_question` raises (no options, or a stored answer that is no integer) that error is returned, and like every failure it sends nothing and leaves the users and the message counter alone |
| Handlers.Bot.DeleteQuestionMessages | src/examobot/bot/examobot_main.py:451-460 | every queued message is deleted in order and the queue is emptied; an unknown user raises `AttributeError` |
| Handlers.Bot.BackToQuestionText | src/examobot/bot/examobot_main.py:463-465 | the queued messages are deleted and the queue emptied, and only an unknown user fails |
| Handlers.Bot.BackToTestQuestions | src/examobot/bot/examobot_main.py:468-490 | the current task is cleared and the queue emptied, then the message shows the test's title, or the deleted-by-author text |
| Handlers.Bot.CollectFormAnswers | src/examobot/bot/examobot_main.py:415-421 | the loop builds the same dictionary as the conversion, or raises the same error |
| Handlers.Bot.HandleEndTest | src/examobot/bot/examobot_main.py:409-448 | the answers are converted, the user's answers to the test are deleted, the form is sent, and the message shows the done text or the error text of the first `except` clause that catches; a conversion error leaves the table as it was |
| MainBot.StartArg | src/examobot/bot/examobot_main.py:763-768 | the start argument is `test=` or `class=` followed by the uuid |
| MainBot.GenerateLink | src/examobot/bot/examobot_main.py:763-768 | the link is the Telegram address of the bot with `?start=`, followed by exactly the start argument |
| MainBot.UserName | src/examobot/bot/examobot_main.py:156-162 | the name is empty exactly when neither part is set; it starts with the first name and ends with a blank and the last name when they are set |
| MainBot.AfterEquals | src/examobot/bot/examobot_main.py:189 | `args.split("=")[1]` raises `IndexError` exactly when there is no `=` |
| MainBot.ClassifyStart | src/examobot/bot/examobot_main.py:181-249 | no arguments give the main menu; a classroom link (checked first) or a test link joins, failing exactly when there is no `=`; anything else is the no-such-link reply |
| MainBot.UuidFacts | src/examobot/bot/examobot_main.py:99-101 | a uuid the pattern accepts has at least 32 characters, no surrounding blanks and no `=`, and the pattern consumes it entirely |
| MainBot.NoUuidAfterLetter | src/examobot/bot/examobot_main.py:107-110 | a text starting with a non-hexadecimal character never matches the uuid pattern |
| MainBot.KeyedUuid | src/examobot/bot/examobot_main.py:106-110 | `key=uuid` is a valid share link of that key, and the part after `=` is the uuid |
| MainBot.TestArgNotClass | src/examobot/bot/examobot_main.py:106-110 | a test link is never taken for a classroom link |
| MainBot.StartOfGeneratedLink | src/examobot/bot/examobot_main.py:181-243 | the argument of a generated link joins exactly the entity it was generated for, with that uuid |
| MainBot.StartBranches | src/examobot/bot/examobot_main.py:188-220 | a classroom link joins the classroom, and a test link that is not a classroom link joins the test, with the text after `=` |
| MainBot.BareUuidStart | src/examobot/bot/examobot_main.py:106-110 | a bare uuid passes the prefix-free check (`startswith("")`) and then raises `IndexError` at the split |
| MainBot.Walk | src/examobot/bot/examobot_main.py:58-79 | the walk through the creation forms starts where it is asked to and takes at most the steps allowed |
| MainBot.CreationFormsChain | src/examobot/bot/examobot_main.py:58-79 | each form names itself, every next state is a form or the save state, and from the title the chain is title, time, deadline, attempts, save |
| MainBot.CancelAddition | src/examobot/bot/examobot_main.py:1102-1116 | a skip fails only with `IndexError` (no `#`) or `KeyError` (unknown state); a prompt shown is the text of a form in the table |
| MainBot.CancelAdditionChain | src/examobot/bot/examobot_main.py:1102-1116 | skipping to the save state saves, and skipping to a form shows its text with a skip button to its next state, which is again a form or the save state |
| MainBot.FirstClause | src/examobot/bot/examobot_main.py:434-448 | the result is present exactly when the error is an instance of some clause's class, and then it is the reply of the first clause, in order, whose class the error is an instance of |
| MainBot.EndTestReplies | src/examobot/bot/examobot_main.py:434-448 | every sender error is caught, and each class gets its own reply; an `HTTPError` is caught by the `BadRequestError` clause before the `TestCompleteFailError` one |
| SecondBot.GenerateLink | src/examobot/bot/examobot2.py:530-534 | the link is the fixed bot address with `?start=` followed by the start argument |
| SecondBot.CreationFormsChain | src/examobot/bot/examobot2.py:50-71 | the second bot's creation forms form the same closed chain, title to save |
| SecondBot.DeleteEntityConfirm | src/examobot/bot/examobot2.py:457-465 | data with other than two `#` raises `ValueError`; otherwise the reply names the entity, and a classroom is deleted exactly when the entity is `CLASSROOM` |
| SecondBot.DeleteConfirmRoundTrip | src/examobot/bot/examobot2.py:457-465 | the confirmation button made for an entity and id deletes that classroom by id, or nothing for a test, and names the entity |
| SecondBot.MetaDataFields | src/examobot/bot/examobot2.py:784-786 | the title and responder URI are read exactly when the metadata has both, and they are those members |
| FormAnswerSender.FindId | src/examobot/form_handlers/form_answer_sender.py:27 | the position found holds the key, and none is found exactly when the dictionary lacks it |
| FormAnswerSender.DictSet | src/examobot/bot/examobot_main.py:421 | `d[k] = v`: the dictionary grows by one exactly when the key is new, keeps its keys distinct, keeps every other entry in place, and then holds `(k, v)` |
| FormAnswerSender.EntryStrings | src/examobot/form_handlers/form_answer_sender.py:27-29 | one `entry.<id>=<answer>` piece per answer, in the dictionary's order |
| FormAnswerSender.EntryParamsSnoc | src/examobot/form_handlers/form_answer_sender.py:27-29 | one more answer appends exactly its own parameter |
| FormAnswerSender.CreateSendUrl | src/examobot/form_handlers/form_answer_sender.py:15-32 | the loop builds the fixed response link for the form id followed by one parameter per answer, or raises `URLError` |
| FormAnswerSender.SendUrlFails | src/examobot/form_handlers/form_answer_sender.py:24-32 | the link is built exactly when the responder URI is a string with a `/`; every failure is `URLError` |
| FormAnswerSender.FormIdOfResponderUri | src/examobot/form_handlers/form_answer_sender.py:25 | the form id is the next-to-last `/`-separated piece of the URI |
| FormAnswerSender.SendUrlNoAnswers | src/examobot/form_handlers/form_answer_sender.py:26-30 | with no answers the link is the bare response link |
| FormAnswerSender.SendUrlEndsWithAmpersand | src/examobot/form_handlers/form_answer_sender.py:26-30 | every link built ends with `&` |
| FormAnswerSender.EntryStringNoAmpersand | src/examobot/form_handlers/form_answer_sender.py:28 | a parameter holds no `&` when its answer holds none |
| FormAnswerSender.EntryParamsTerminated | src/examobot/form_handlers/form_answer_sender.py:27-29 | the parameters are the entry pieces, each followed by `&` |
| FormAnswerSender.EntryParamsSplit | src/examobot/form_handlers/form_answer_sender.py:27-29 | splitting the parameters at `&` gives back the entry pieces |
| FormAnswerSender.DecodeEntryRoundTrip | src/examobot/form_handlers/form_answer_sender.py:28 | a piece reads back as the question id and the answer text it was made from |
| FormAnswerSender.LinkPrefixSplit | src/examobot/form_handlers/form_answer_sender.py:26 | the fixed prefix splits at `&` into the response path and the submit flag |
| FormAnswerSender.SendUrlEntries | src/examobot/form_handlers/form_answer_sender.py:24-30 | the whole link splits at `&` into the response path, the submit flag, one piece per answer and a final empty piece, and each piece decodes to its question id and answer |
| FormAnswerSender.FormId | src/examobot/form_handlers/form_answer_sender.py:25 | the next-to-last `/`-piece, `URLError` without a `/`; `FormAnswerSender.FormIdOfResponderUri` and `FormAnswerSender.SendUrlFails` state both |
| FormAnswerSender.SendUrl | src/examobot/form_handlers/form_answer_sender.py:24-32 | what `_create_send_url` returns or raises; `FormAnswerSender.SendUrlFails`, `FormAnswerSender.SendUrlNoAnswers`, `FormAnswerSender.SendUrlEndsWithAmpersand` and `FormAnswerSender.SendUrlEntries` state when it fails and what the link holds |
| FormAnswerSender.DetermineIfTestIsComplete | src/examobot/form_handlers/form_answer_sender.py:34-54 | the page passes exactly when it parses and has no form; a parse failure raises `HTMLError` with the shortened page and a form raises `TestCompleteFailError` |
| FormAnswerSender.ResponderUriSteps | src/examobot/form_handlers/form_answer_sender.py:75-98 | a link that cannot be built requests nothing; otherwise exactly that link is requested, a status from 400 to 599 raises `HTTPError` with the link, and the send succeeds exactly when the status is fine and the page has no form |
| FormAnswerSender.ResponderUriPage | src/examobot/form_handlers/form_answer_sender.py:82-85 | after a good status, a page with a form raises `TestCompleteFailError` and a page that does not parse raises `HTMLError` |
| FormAnswerSender.MetadataSteps | src/examobot/form_handlers/form_answer_sender.py:56-110 | metadata that does not parse (or is `None`) raises `JSONParseError` with the shortened text and requests nothing; parsed metadata with `responderUri` is sent to that URI; parsed metadata without it requests nothing and raises the uncaught `KeyError` (an object) or `TypeError` (anything else) |
| FormAnswerSender.IsStatusError | src/examobot/form_handlers/form_answer_sender.py:87-98 | `raise_for_status` raises for codes 400 to 599; `FormAnswerSender.ResponderUriSteps` states that such a code raises `HTTPError` with the link |
| FormAnswerSender.SendAnswerResponderUri | src/examobot/form_handlers/form_answer_sender.py:75-85 | `FormAnswerSender.ResponderUriSteps` and `FormAnswerSender.ResponderUriPage` state the step order: link, one request, status, page |
| FormAnswerSender.SendAnswerData | src/examobot/form_handlers/form_answer_sender.py:66-73 | `data["responderUri"]` on an object without that key raises the uncaught `KeyError`, and on anything but an object `TypeError`, both before any request; otherwise the URI found is sent |
| FormAnswerSender.SendAnswerMetadata | src/examobot/form_handlers/form_answer_sender.py:56-64 | missing metadata raises `JSONParseError` carrying `None`, metadata that does not parse one carrying the shortened text, both requesting nothing; parsed metadata goes to `FormAnswerSender.SendAnswerData` (with `_parse_json`, lines 100-110) |
| SenderErrors.Shorten | src/examobot/form_handlers/exceptions/form_answer_sender_exceptions.py:10-16 | texts under 50 characters are kept; longer ones become their first 50 characters and `...` |
| SenderErrors.ShortenIdempotent | src/examobot/form_handlers/exceptions/form_answer_sender_exceptions.py:10-16 | shortening twice gives what shortening once gave |
| SenderErrors.ShortenFixed | src/examobot/form_handlers/exceptions/form_answer_sender_exceptions.py:10-16 | exactly the short texts and the already-shortened ones come back unchanged |
| SenderErrors.NewJSONParseError | src/examobot/form_handlers/exceptions/form_answer_sender_exceptions.py:19-21 | the error stores the metadata text unchanged when it is under 50 characters, and otherwise its first 50 characters and `...`; the stored text is its own shortening |
| SenderErrors.NewHTMLError | src/examobot/form_handlers/exceptions/form_answer_sender_exceptions.py:33-35 | the error stores the page unchanged when it is under 50 characters, and otherwise its first 50 characters and `...`; the stored text is its own shortening |
| SenderErrors.StrCarriesText | src/examobot/form_handlers/exceptions/form_answer_sender_exceptions.py:23-53 | each message starts with its class's header and ends with the stored text, the HTTP one with the whole URL |
| SenderErrors.JSONParseMessageBounded | src/examobot/form_handlers/exceptions/form_answer_sender_exceptions.py:19-25 | a parse error's message is never longer than the header plus 53 characters |
| SenderErrors.Str | src/examobot/form_handlers/exceptions/form_answer_sender_exceptions.py:19-53 | `str(e)` of each sender error; `SenderErrors.StrCarriesText` and `SenderErrors.JSONParseMessageBounded` state its header, tail and bound |
| SenderErrors.InstanceCases | src/examobot/form_handlers/exceptions/form_answer_sender_exceptions.py:6-47 | every error is a `FormAnswerSenderException`; `except TestCompleteFailError` catches exactly that error and `HTTPError`; each other class catches only its own errors |
| SenderErrors.IsSubclass | src/examobot/form_handlers/exceptions/form_answer_sender_exceptions.py:6-47 | `issubclass` over the exception hierarchy; `SenderErrors.InstanceCases` states what each class catches |
| SenderErrors.IsInstance | src/examobot/form_handlers/exceptions/form_answer_sender_exceptions.py:6-47 | `isinstance`, what an `except` clause catches; `SenderErrors.InstanceCases` states it class by class |
| ShareLinks.Consume | src/examobot/bot/examobot_main.py:109 | a match consumes a prefix of the text and returns the rest, never more than the text |
| ShareLinks.ConsumeSound | src/examobot/bot/examobot_main.py:109 | what a match consumes is a word of the pattern, and the rest is the text after it |
| ShareLinks.ConsumeComplete | src/examobot/bot/examobot_main.py:109 | for a pattern whose optional hyphens are followed by something that cannot be a hyphen, any word of the pattern at the front of the text is what the match consumes |
| ShareLinks.FullMatchCorrect | src/examobot/bot/examobot2.py:99 | a full match (`re.fullmatch`) succeeds exactly when the whole text is a word of the pattern |
| ShareLinks.PrefixMatchCorrect | src/examobot/bot/examobot_main.py:109 | a prefix match (`re.match`) succeeds exactly when some prefix of the text is a word of the pattern |
| ShareLinks.UuidPatternWellFormed | src/examobot/bot/examobot_main.py:99-101 | the uuid pattern's optional hyphens are each followed by a hexadecimal or fixed digit, so matching it needs no backtracking |
| ShareLinks.IsValidShareLinkMeaning | src/examobot/bot/examobot_main.py:106-110 | the main bot's check holds exactly when, after dropping `{link_type}=` from a link starting with the type, some prefix of the stripped rest is a uuid |
| ShareLinks.IsValidShareLink | src/examobot/bot/examobot_main.py:98-110 | the main bot's check; `ShareLinks.IsValidShareLinkMeaning` states it as a prefix match of a uuid after the optional `{link_type}=` |
| ShareLinks.SharePatternWellFormed | src/examobot/bot/examobot2.py:91-93 | the corrected pattern, `{link_type}=` and a uuid, needs no backtracking either |
| ShareLinks.IsValidShareLinkFullMeaning | src/examobot/bot/examobot2.py:98-100 | the corrected check holds exactly when the whole stripped link is `{link_type}=` and a uuid |
| ShareLinks.LangLength | src/examobot/bot/examobot_main.py:99-101 | a word of a pattern is at least as long as its required atoms and at most as long as the pattern |
| ShareLinks.UuidMatches | src/examobot/bot/examobot_main.py:99-101 | a uuid in the canonical 8-4-4-4-12 form, version digit 4 and variant 8, 9, a or b, is a word of the pattern |
| ShareLinks.UuidRequired | src/examobot/bot/examobot_main.py:99-101 | the pattern requires 32 characters |
| ShareLinks.ShareLinkChecksDisjoint | src/examobot/bot/examobot2.py:91-100 | the check as written accepts only links at most 18 characters past the type, the corrected one only links at least 33 past it, so no link passes both |
| ShareLinks.ShareLinkWithUuid | src/examobot/bot/examobot2.py:91-100 | `{link_type}=` and a canonical uuid passes the corrected check and fails the check as written |
| ShareLinks.UuidChars | src/examobot/bot/examobot_main.py:99-101 | a uuid the pattern accepts has at least 32 characters, all hexadecimal digits or hyphens |
| ShareLinks.SampleShareLink | src/examobot/bot/examobot2.py:91-100 | `test=123e4567-e89b-42d3-a456-426614174000` passes the corrected check and fails the check as written |
| ShareLinks.IsValidShareLinkAsWritten | src/examobot/bot/examobot2.py:91-100 | the second bot's check as written; `ShareLinks.ShareLinkChecksDisjoint`, `ShareLinks.ShareLinkWithUuid` and `ShareLinks.SampleShareLink` show it rejects every real share link |
| ShareLinks.IsValidShareLinkFull | src/examobot/bot/examobot2.py:98-100 | the corrected check; `ShareLinks.IsValidShareLinkFullMeaning` states it as a full match of `{link_type}=` and a uuid, and `ShareLinks.ShareLinkWithUuid` shows it accepts a canonical link |
| Fsm.ResetStateDataAsWritten | src/examobot/bot/examobot.py:225-226 | as written: the test, tasks and test titles become `None`, while the task-view flag and counter are kept |
| Fsm.ResetStateData | src/examobot/bot/examobot.py:225-226 | corrected: the task-view flag and counter are cleared too; nothing else changes |
| Fsm.TasksOf | src/examobot/bot/examobot.py:170-176 | `data["tasks"]` is read exactly when stored and not `None`; a missing key is a `KeyError`, a `None` a `TypeError` |
| Fsm.TestIdOf | src/examobot/bot/examobot.py:166 | `data["test"].id` is read exactly when a test is stored; a missing key is a `KeyError`, a `None` an `AttributeError` |
| Fsm.AddParticipation | src/examobot/bot/examobot.py:166 | the user's participations in the test go up by one and every other count is unchanged |
| Fsm.AttemptsLeft | src/examobot/bot/examobot.py:133-140 | attempts are left exactly when the participations are fewer than the test allows; `Fsm.ExamOBot.StateTest` states what happens either way |
| Fsm.ResetStartsAtFirstTask | src/examobot/bot/examobot.py:162-182 | after the corrected reset and a new test, the next start counts a participation and shows task 0, or raises `IndexError` for a test without tasks |
| Fsm.StaleCounterFails | src/examobot/bot/examobot.py:169-176 | as written, a counter left past the new test's task count makes the start raise `IndexError`, showing nothing and counting nothing |
| Fsm.ExamOBot.CommandStart | src/examobot/bot/examobot.py:74-100 | the chat id is stored, the greeting is sent only on the first start, the role question always, and the state becomes `role` |
| Fsm.ExamOBot.StateRole | src/examobot/bot/examobot.py:102-105 | the stripped text is stored as the role before the lookup; `Student` lists the tests, `Test author` echoes the role, anything else raises `KeyError` |
| Fsm.ExamOBot.StateAllTests | src/examobot/bot/examobot.py:107-125 | the test titles are loaded into the data, the state becomes `test`, and the selection prompt is sent |
| Fsm.ExamOBot.StateTest | src/examobot/bot/examobot.py:127-160 | an unknown title is answered and changes nothing; no attempts left sends the notice and lists the tests again; otherwise the test and its tasks are stored, the test card and the start prompt are sent, and the state becomes `task` |
| Fsm.ExamOBot.StateTask | src/examobot/bot/examobot.py:162-182 | the first start sets the flag and counter 0 and counts a participation; at the end of the tasks the flag is cleared and the tests are listed; otherwise the task at the counter is shown and the state becomes `handle_task_answer`; a bad counter raises `IndexError` |
| Fsm.ExamOBot.StateHandleTaskAnswer | src/examobot/bot/examobot.py:184-191 | after the acknowledgement the counter is incremented and the start handler runs in state `task`; without a counter it raises `KeyError` |
| Fsm.ExamOBot.CommandExitAsWritten | src/examobot/bot/examobot.py:196-210 | as written: the main-menu notice when a state was set, the reset that keeps the task counter, then the start handler |
| Fsm.ExamOBot.CommandExit | src/examobot/bot/examobot.py:196-210 | corrected: the same, but the task-view flag and counter are cleared |
| Fsm.StaleIndexAsWritten | src/examobot/bot/examobot.py:162-176 | as written: answer two of three tasks of test A, exit, choose test B (one task) and press start, and the handler raises `IndexError` |
| Fsm.StaleIndexCorrected | src/examobot/bot/examobot.py:162-176 | corrected: the same steps show B's first task and count one participation in B |

## Left out

- Chat I/O: aiogram's send, edit, delete, photo and callback-answer calls are entries in `Handlers.Bot.outbox` (and the strings `Fsm.ExamOBot` replies with). Message ids come from a counter. The Dispatcher and Router wiring and async scheduling are not modelled, because they belong to the framework.
- Routing in `examobot.py` (lines 43-72): the state filters, text filters and `casefold` matching that pick a handler are not modelled. Each handler is a method that is called directly.
- Keyboards and button layouts (`keyboards.py`, `task_keyboards.py`, `keyboard_texts.py`): only the callback data and text of a button are modelled (`Buttons`). The markup is rendering only.
- `START_TEXT` and `MAIN_MENU_TEXT`: their text comes from a module that is not part of this model, so they are the tags `StartText` and `MainMenuText`.
- `BOT_NAME`: `examobot_main.py` imports it from `definitions.py`, which does not define it, so `MainBot.GenerateLink` takes it as a parameter.
- Exception aliases: the exceptions package's `__init__` is not part of this model. `URLFailedCreationError`, `HTMLParseError` and `BadRequestError` are taken to be `URLError`, `HTMLError` and `HTTPError`.
- Database: the SQLAlchemy manager and the ORM tables are not modelled. Users, tasks and tests are maps, and answers are the `AnswerStore.Store` table. `AnswerStatus.SAVED`, which the question classes use but `tables.py` does not define, is added to the status type. A newly inserted answer row gets dispatch number 0. That is this model's choice: `check_answer_and_save` builds the new row without a dispatch number (`questions_classes.py` line 37), and the answers table in `tables.py` (lines 131-144) has no such column.
- `welcome_message` joining steps: the class and test branches after a valid link (adding the user to a classroom, opening the test card) are classified by `MainBot.ClassifyStart` but not carried out, because they are database queries and keyboards.
- Other handlers of `examobot_main.py` and `examobot2.py` (test and classroom creation, editing, the deadline, time and attempts validation flows, classroom lists): they are menus and database writes. Only the creation-form chain, the delete branch, the metadata fields and the cancel messages are modelled.
- Date and time: deadline parsing and formatting depend on the platform clock and time zone and are not modelled.
- Google API access, OAuth, file access, localisation JSON files and the bootstrap in `main.py` are not modelled. Parsed JSON, the HTTP reply and the HTML parse result are parameters of `FormAnswerSender`.
- `json.loads`: `translate`, `get_responder_uri` and `get_form_title` (`task_translator.py` lines 17, 22 and 34) and `extract` (`task_extractor.py` line 85) start by parsing a JSON string. The model takes the parsed form as its input, so the error `json.loads` raises on text that is not JSON is not modelled for them. `send_answer_metadata` is the exception: there, parsing is the parameter `loads` and its failure is modelled.
- JSON numbers: `Json.JNum` holds integers only, so JSON floats are not modelled. No modelled path reads a number from a form.
- HTML parsing: `lxml` is replaced by an abstract result ("parse failed", "has a `<form>`", "no form"). The demo `main` and `_correct_send` functions are not modelled.
- Answer encoding: `convert_answer_to_string_repr` is an empty method in every kind, so every submitted answer value is `None` (`Handlers.FormAnswers`). No encoding is invented.
- Regular expressions: only the patterns the code uses are hand-coded (the UUIDv4 shape with optional hyphens and case-insensitive hex in `ShareLinks`). Regex metacharacters inside `link_type` are treated as literal characters. Every caller passes `test` or `class`, which contain none.
- Questions.Toggle: Python's `list(set(...))` has no defined order. The model keeps first-occurrence order, and the claims about the toggle are stated at the level of the set of options.
- `QuestionType` member order: `getmembers` order is taken as the enum's declaration order. Only the set of names matters to the result.
- The `"tests"` branch of `state_all_tests_handler` (`examobot.py` line 109): nothing in `examobot.py` stores that key, so the model always takes the fetched titles. The titles the database would return are a constructor argument of `Fsm.ExamOBot`.
- Updates from users who were never registered make the `examobot_tasks.py` handlers answer with nothing (`(None, None, None)`). In `examobot_main.py` they raise `AttributeError`, which the model reports as an error result. What aiogram then does with the exception is not modelled.
- The `/help` handler's send and the logging and `pprint` calls are not modelled, since they are output only.
- Unicode case mapping: `lower()` is modelled for ASCII, Latin-1 and basic Cyrillic capitals (`PyStr.LowerChar`). Other characters are left unchanged, and `casefold` is not modelled.

### Where the code and its description differ (the model follows the code)

- `raise_for_status` raises for status codes 400 to 599, not for every code outside 200-299. `FormAnswerSender.IsStatusError` follows that.
- `translate` assigns no `order` field. The 0-based position appears only in the error message.
- A choice question with an empty option list gets no `options` or `is_other` keys, and no error is raised.
- The choice types are recognised by the form API's `RADIO` and `CHECKBOX` names.

## Findings

| source | as written | input that shows it | evidently intended | confidence | as-written member | corrected member |
|---|---|---|---|---|---|---|
| src/examobot/bot/examobot2.py:91-100 | `SHARE_LINK` is an f-string, so `{8}`, `{4}` and `{3}` are evaluated as the numbers 8, 4 and 3. The quantifiers become literal digits, and no real share link matches (`ShareLinks.SampleShareLink`, `ShareLinks.ShareLinkChecksDisjoint`) | `test=123e4567-e89b-42d3-a456-426614174000` is rejected | `link_type=` followed by a UUIDv4 and nothing else is accepted (`ShareLinks.ShareLinkWithUuid`) | high, not executed | ShareLinks.IsValidShareLinkAsWritten | ShareLinks.IsValidShareLinkFull |
| src/examobot/task_translator/questions_classes.py:249-258 | the first multiple-choice click on a task with no saved row inserts `answer_data = []`, because the toggle converter is only applied to an existing row (`Questions.SaveAnswerCorrection`; through the option-query handler, `Handlers.Bot.HandleOptionQueryAsWritten`) | the first click on option `2` of a fresh task saves `[]` | the first click saves `["2"]` | high, not executed | Questions.SaveAnswerAsWritten | Questions.SaveAnswer |
| src/examobot/task_translator/questions_classes.py:158-162 | the one-choice photo branch ends its assignment with a trailing comma, so the photo message is a one-element tuple, and reading `.message_id` raises `AttributeError` (`Handlers.OneChoicePhotoTuple`) | a one-choice task with an input image | the photo message itself, as in the other kinds | high, not executed | Handlers.QuestionMessagesAsWritten | Handlers.QuestionMessages |
| src/examobot/bot/examobot_main.py:507-512 | `handle_spec_current_test_task_query` passes `menu_message_id=` to `send_question`, which has no such parameter, so every call raises `TypeError` (`Handlers.SpecTaskCallFails`) | opening any task of the current test | the task is sent and becomes current | high, not executed | Handlers.Bot.SpecCurrentTestTaskAsWritten | Handlers.Bot.SpecCurrentTestTask |
| src/examobot/bot/examobot_tasks.py:161-172 | after an invalid answer is answered and deleted there is no `return`, so `handle_question` still saves it (`Handlers.InvalidTextStillSaved`) | an empty text message on a text task | an invalid answer is rejected and nothing is saved | medium, not executed | Handlers.Bot.HandleMessageSentByUserAsWritten | Handlers.Bot.HandleMessageSentByUser |
| src/examobot/bot/examobot.py:162-176 | `reset_state_data` (lines 225-226) keeps `task_view_started` and `task_view_order_index`, so after an exit mid-test the counter carries over. A test with fewer tasks then raises `IndexError` (`Fsm.StaleCounterFails`, `Fsm.StaleIndexAsWritten`) | answer two of three tasks of test A, exit, then start test B with one task | the next test starts at its first task (`Fsm.ResetStartsAtFirstTask`, `Fsm.StaleIndexCorrected`) | high, not executed | Fsm.ResetStateDataAsWritten | Fsm.ResetStateData |
