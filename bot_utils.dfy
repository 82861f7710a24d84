/** `RepresentationUtils` and `HelpMaker`: the reply texts of the FSM bot and
    the `/help` list built from its handlers' docstrings. */
module BotUtils {
  import opened Wrappers
  import opened PyStr

  // ---------------------------------------------------------------------
  // Reply builders

  const StartGreeting := "Привет, "
  const StartHelp := "! Напиши /help, чтобы увидеть список всех доступных команд."

  /** `make_start_reply`: the greeting with the user's name in bold. */
  function MakeStartReply(name: string): (r: string)
    ensures StartsWith(r, StartGreeting + Bold(name)) && EndsWith(r, StartHelp)
    ensures StartsWith(r, StartGreeting + "<b>") && EndsWith(r, "</b>" + StartHelp)
    ensures |r| == |StartGreeting| + |Bold(name)| + |StartHelp|
  {
    var b := Bold(name);
    StartsWithConcat(StartGreeting, "<b>", b);
    StartsWithAppend(StartGreeting + b, StartHelp, StartGreeting + "<b>");
    EndsWithConcat(b, "</b>", StartHelp);
    EndsWithPrepend(StartGreeting, b + StartHelp, "</b>" + StartHelp);
    Assoc(StartGreeting, b, StartHelp);
    var r := StartGreeting + b + StartHelp;
    assert r[..|StartGreeting + b|] == StartGreeting + b;
    assert r[|r| - |StartHelp|..] == StartHelp;
    r
  }

  /** The name is recovered from the greeting by cutting off the fixed text
      and the tags and undoing the HTML quoting, so different users get
      different greetings. */
  lemma StartReplyName(name: string)
    ensures var r := MakeStartReply(name);
      HtmlUnquote(r[|StartGreeting| + 3..|r| - |StartHelp| - 4]) == name
  {
    var r := MakeStartReply(name);
    assert r == StartGreeting + ("<b>" + HtmlQuote(name) + "</b>") + StartHelp;
    assert r[|StartGreeting| + 3..|r| - |StartHelp| - 4] == HtmlQuote(name);
    HtmlQuoteRoundTrip(name);
  }

  lemma StartReplyInjective(a: string, b: string)
    requires MakeStartReply(a) == MakeStartReply(b)
    ensures a == b
  {
    StartReplyName(a);
    StartReplyName(b);
  }

  const ExpectedHead := "Я ожидал "

  /** `make_i_expected_reply`: the expected type in lower case. */
  function MakeIExpectedReply(rightType: string): (r: string)
    ensures |r| == |ExpectedHead| + |rightType| + 1
    ensures StartsWith(r, ExpectedHead) && r[|r| - 1] == '.'
    ensures forall i :: 0 <= i < |rightType| ==> r[|ExpectedHead| + i] == LowerChar(rightType[i])
  {
    var r := ExpectedHead + Lower(rightType) + ".";
    assert r[..|ExpectedHead|] == ExpectedHead;
    r
  }

  /** The reply ignores the case of the type it names. */
  lemma IExpectedReplyIgnoresCase(a: string, b: string)
    requires Lower(a) == Lower(b)
    ensures MakeIExpectedReply(a) == MakeIExpectedReply(b)
    ensures MakeIExpectedReply(Lower(a)) == MakeIExpectedReply(a)
  {
    LowerIdempotent(a);
  }

  const AttemptsLabel := "Attempts: "

  /** The author, duration and task-count lines of the test card, each
      ending in a newline. */
  function TestInfoLines(authorFirst: Option<string>, authorLast: Option<string>, time: int, taskCount: nat): string {
    "Author: " + StrOpt(authorFirst) + " " + StrOpt(authorLast) + "\n" +
    "Duration: " + IntToString(time) + "\n" +
    "Number of tasks: " + IntToString(taskCount) + "\n"
  }

  /** The last line of the test card: attempts left over attempts allowed. */
  function AttemptsLine(participationCount: nat, attemptsNumber: int): string {
    AttemptsLabel + IntToString(attemptsNumber - participationCount) + "/" + IntToString(attemptsNumber)
  }

  /** `make_test_info_reply`: the title, the author (a missing name shows
      as `None`), the duration, the number of tasks and the attempts left
      out of the attempts allowed. */
  function MakeTestInfoReply(title: string, authorFirst: Option<string>, authorLast: Option<string>,
                             time: int, taskCount: nat, participationCount: nat, attemptsNumber: int): (r: string)
    ensures StartsWith(r, Bold(title) + "\n")
    ensures StartsWith(r, Bold(title) + "\n" + TestInfoLines(authorFirst, authorLast, time, taskCount))
    ensures EndsWith(r, AttemptsLine(participationCount, attemptsNumber))
    ensures |r| == |Bold(title)| + 1 + |TestInfoLines(authorFirst, authorLast, time, taskCount)| +
      |AttemptsLine(participationCount, attemptsNumber)|
  {
    var head := Bold(title) + "\n";
    var mid := TestInfoLines(authorFirst, authorLast, time, taskCount);
    var tail := AttemptsLine(participationCount, attemptsNumber);
    var r := head + mid + tail;
    assert r[..|head|] == head;
    assert r[..|head + mid|] == head + mid;
    assert r[|r| - |tail|..] == tail;
    r
  }

  /** `make_task_info_reply`: the task's title in bold, then its text. */
  function MakeTaskInfoReply(title: string, text: string): (r: string)
    ensures StartsWith(r, Bold(title) + "\n") && EndsWith(r, text)
    ensures |r| == |Bold(title)| + 1 + |text|
  {
    var head := Bold(title) + "\n";
    var r := head + text;
    assert r[..|head|] == head && r[|head|..] == text;
    r
  }

  // ---------------------------------------------------------------------
  // Help list

  const HelpDefault := "Название говорящее."
  const DefaultLocale := "RU"
  const Prefix := "command_"
  const Suffix := "_handler"
  const HiddenCommands: set<string> := {"start"}
  const EntrySep := "\n\n"

  /** Part `i` is the first that starts with the locale. */
  predicate FirstWithLocale(parts: seq<string>, locale: string, i: int) {
    0 <= i < |parts| && StartsWith(parts[i], locale) && forall j :: 0 <= j < i ==> !StartsWith(parts[j], locale)
  }

  /** The part `extract_locale_doc` picks: the first one that starts with
      the locale, with the locale removed. */
  function LocalePart(parts: seq<string>, locale: string): (r: Option<string>)
    ensures r.None? <==> forall i :: 0 <= i < |parts| ==> !StartsWith(parts[i], locale)
    ensures r.Some? ==> exists i :: FirstWithLocale(parts, locale, i) && r.value == RemovePrefix(parts[i], locale)
    decreases |parts|
  {
    if parts == [] then None
    else if StartsWith(parts[0], locale) then
      assert FirstWithLocale(parts, locale, 0);
      Some(RemovePrefix(parts[0], locale))
    else
      var r := LocalePart(parts[1..], locale);
      assert forall i :: 1 <= i < |parts| ==> parts[i] == parts[1..][i - 1];
      if r.Some? then
        var i :| FirstWithLocale(parts[1..], locale, i) && r.value == RemovePrefix(parts[1..][i], locale);
        assert parts[i + 1] == parts[1..][i];
        assert FirstWithLocale(parts, locale, i + 1) by {
          forall j | 0 <= j < i + 1
            ensures !StartsWith(parts[j], locale)
          {
            if j > 0 {
              assert parts[j] == parts[1..][j - 1];
            }
          }
        }
        r
      else r
  }

  /** What `extract_locale_doc` returns: the default reply for a text
      without `:`, otherwise the located part (or the default), stripped
      with whitespace runs collapsed. A missing docstring is
      `AttributeError`. */
  function LocaleDoc(doc: Option<string>, locale: string): Result<string, PyExc> {
    if doc.None? then Failure(AttributeError)
    else if ':' !in doc.value then Success(HelpDefault)
    else
      var description := match LocalePart(Split(doc.value, ':'), locale)
        case Some(p) => p
        case None => HelpDefault;
      Success(CollapseWs(Strip(description)))
  }

  /** `extract_locale_doc`: the search loop stops at the first part that
      starts with the locale. */
  method ExtractLocaleDoc(doc: Option<string>, locale: string) returns (r: Result<string, PyExc>)
    ensures r == LocaleDoc(doc, locale)
  {
    if doc.None? {
      return Failure(AttributeError);
    }
    var description := HelpDefault;
    var docParts := Split(doc.value, ':');
    SplitCount(doc.value, ':');
    if |docParts| == 0 || |docParts| == 1 {
      return Success(description);
    }
    var i := 0;
    while i < |docParts|
      invariant 0 <= i <= |docParts|
      invariant forall j :: 0 <= j < i ==> !StartsWith(docParts[j], locale)
      invariant description == HelpDefault
      decreases |docParts| - i
    {
      if StartsWith(docParts[i], locale) {
        LocalePartFirst(docParts, locale, i);
        description := RemovePrefix(docParts[i], locale);
        break;
      }
      i := i + 1;
    }
    return Success(CollapseWs(Strip(description)));
  }

  /** When part `i` is the first to start with the locale, it is the one
      picked. */
  lemma {:induction false} LocalePartFirst(parts: seq<string>, locale: string, i: nat)
    requires i < |parts| && StartsWith(parts[i], locale)
    requires forall j :: 0 <= j < i ==> !StartsWith(parts[j], locale)
    ensures LocalePart(parts, locale) == Some(RemovePrefix(parts[i], locale))
    decreases i
  {
    if i > 0 {
      assert forall j :: 0 <= j < i - 1 ==> parts[1..][j] == parts[j + 1];
      LocalePartFirst(parts[1..], locale, i - 1);
    }
  }

  /** The default reply is already normalised, so a docstring with no part
      for the locale gives it unchanged. */
  lemma DefaultDocUnchanged(doc: string, locale: string)
    requires ':' !in doc || forall i :: 0 <= i < |Split(doc, ':')| ==> !StartsWith(Split(doc, ':')[i], locale)
    ensures LocaleDoc(Some(doc), locale) == Success(HelpDefault)
  {
    if ':' in doc {
      assert LocalePart(Split(doc, ':'), locale).None?;
    }
    HelpDefaultNormal();
  }

  lemma HelpDefaultNormal()
    ensures CollapseWs(Strip(HelpDefault)) == HelpDefault
  {
    var s := HelpDefault;
    StripNoEdgeSpace(s);
    assert forall i :: 0 <= i < |s| && IsSpace(s[i]) ==> s[i] == ' ' && i + 1 < |s| && !IsSpace(s[i + 1]);
    CollapseWsFixed(s);
  }

  /** A text whose whitespace is already single blanks between non-blanks
      is its own collapse. */
  lemma {:induction false} CollapseWsFixed(s: string)
    requires forall i :: 0 <= i < |s| && IsSpace(s[i]) ==> s[i] == ' ' && i + 1 < |s| && !IsSpace(s[i + 1])
    ensures CollapseWs(s) == s
    decreases |s|
  {
    if s != [] {
      var t := s[1..];
      assert forall i :: 0 <= i < |t| ==> t[i] == s[i + 1];
      CollapseWsFixed(t);
      if IsSpace(s[0]) {
        assert t != [] && !IsSpace(t[0]);
        assert LStrip(t) == t;
      }
      assert s == [s[0]] + t;
    }
  }

  /** The description text is normalised: whitespace only as single
      blanks, never at the front. */
  lemma LocaleDocNormal(doc: string, locale: string)
    requires LocaleDoc(Some(doc), locale).Success?
    ensures var r := LocaleDoc(Some(doc), locale).value;
      (forall i :: 0 <= i < |r| && IsSpace(r[i]) ==> r[i] == ' ') &&
      (forall i :: 0 <= i < |r| - 1 ==> !(IsSpace(r[i]) && IsSpace(r[i + 1]))) &&
      (r != [] ==> !IsSpace(r[0]))
  {
    if ':' !in doc {
      HelpDefaultNormal();
      CollapseWsSingleBlanks(Strip(HelpDefault));
    } else {
      var description := match LocalePart(Split(doc, ':'), locale)
        case Some(p) => p
        case None => HelpDefault;
      var t := Strip(description);
      CollapseWsSingleBlanks(t);
      if t != [] {
        StripHead(description);
        CollapseWsHead(t);
      }
    }
  }

  lemma StripHead(s: string)
    requires Strip(s) != []
    ensures !IsSpace(Strip(s)[0])
  {
    var l := LStrip(s);
    assert Strip(s) == RStrip(l);
    RStripPrefix(l);
  }

  /** `rstrip` keeps a prefix of its argument. */
  lemma {:induction false} RStripPrefix(s: string)
    ensures |RStrip(s)| <= |s| && RStrip(s) == s[..|RStrip(s)|]
    decreases |s|
  {
    if s != [] && IsSpace(s[|s| - 1]) {
      RStripPrefix(s[..|s| - 1]);
    }
  }

  /** The method names `make_help_list` turns into commands. */
  predicate IsCommandHandler(name: string) {
    StartsWith(name, Prefix) && EndsWith(name, Suffix)
  }

  function CommandName(name: string): string {
    RemoveSuffix(RemovePrefix(name, Prefix), Suffix)
  }

  predicate Listed(name: string) {
    IsCommandHandler(name) && CommandName(name) !in HiddenCommands
  }

  /** The help entries, one per listed handler in the order given: the
      command and its located description. */
  function HelpEntries(methods: seq<(string, Option<string>)>): (r: Result<seq<string>, PyExc>)
    decreases |methods|
  {
    if methods == [] then Success([])
    else
      var n := |methods| - 1;
      match HelpEntries(methods[..n])
      case Failure(e) => Failure(e)
      case Success(front) =>
        if !Listed(methods[n].0) then Success(front)
        else
          match LocaleDoc(methods[n].1, DefaultLocale)
          case Failure(e) => Failure(e)
          case Success(d) => Success(front + ["/" + CommandName(methods[n].0) + " - " + d])
  }

  /** The names of the listed handlers, in order. */
  function ListedNames(methods: seq<(string, Option<string>)>): (r: seq<string>)
    ensures forall x :: x in r ==> x !in HiddenCommands
    decreases |methods|
  {
    if methods == [] then []
    else
      var n := |methods| - 1;
      ListedNames(methods[..n]) + (if Listed(methods[n].0) then [CommandName(methods[n].0)] else [])
  }

  /** One entry per listed handler, each starting with its command. */
  lemma {:induction false} HelpEntriesListed(methods: seq<(string, Option<string>)>)
    requires HelpEntries(methods).Success?
    ensures var es := HelpEntries(methods).value;
      |es| == |ListedNames(methods)| &&
      forall i :: 0 <= i < |es| ==> StartsWith(es[i], "/" + ListedNames(methods)[i] + " - ")
    decreases |methods|
  {
    if methods != [] {
      var n := |methods| - 1;
      HelpEntriesListed(methods[..n]);
      if Listed(methods[n].0) {
        var e := "/" + CommandName(methods[n].0) + " - " + LocaleDoc(methods[n].1, DefaultLocale).value;
        assert StartsWith(e, "/" + CommandName(methods[n].0) + " - ") by {
          assert e[..|"/" + CommandName(methods[n].0) + " - "|] == "/" + CommandName(methods[n].0) + " - ";
        }
      }
    }
  }

  /** The entries, each followed by the blank-line separator. */
  function Accumulated(es: seq<string>): string
    decreases |es|
  {
    if es == [] then "" else Accumulated(es[..|es| - 1]) + es[|es| - 1] + EntrySep
  }

  /** Accumulation ends in the separator and is the joined entries plus
      the separator. */
  lemma {:induction false} AccumulatedJoin(es: seq<string>)
    requires es != []
    ensures Accumulated(es) == Join(es, EntrySep) + EntrySep
    decreases |es|
  {
    var n := |es| - 1;
    if n == 0 {
      assert Accumulated(es) == "" + es[0] + EntrySep;
    } else {
      AccumulatedJoin(es[..n]);
      JoinSnoc(es[..n], es[n], EntrySep);
      assert es[..n] + [es[n]] == es;
      Assoc(Join(es[..n], EntrySep), EntrySep, es[n]);
      Assoc(Join(es[..n], EntrySep) + EntrySep, es[n], EntrySep);
    }
  }

  lemma {:induction false} JoinSnoc(ps: seq<string>, x: string, sep: string)
    requires ps != []
    ensures Join(ps + [x], sep) == Join(ps, sep) + sep + x
    decreases |ps|
  {
    if |ps| == 1 {
      assert (ps + [x])[1..] == [x];
    } else {
      assert (ps + [x])[1..] == ps[1..] + [x];
      JoinSnoc(ps[1..], x, sep);
      Assoc(ps[0], sep, Join(ps[1..], sep) + sep + x);
    }
  }

  /** One more method extends the help entries by its entry, if listed. */
  lemma HelpEntriesSnoc(methods: seq<(string, Option<string>)>, i: nat)
    requires i < |methods| && HelpEntries(methods[..i]).Success?
    ensures !Listed(methods[i].0) ==> HelpEntries(methods[..i + 1]) == HelpEntries(methods[..i])
    ensures Listed(methods[i].0) && LocaleDoc(methods[i].1, DefaultLocale).Failure? ==>
      HelpEntries(methods[..i + 1]) == Failure(LocaleDoc(methods[i].1, DefaultLocale).error)
    ensures Listed(methods[i].0) && LocaleDoc(methods[i].1, DefaultLocale).Success? ==>
      HelpEntries(methods[..i + 1]) == Success(HelpEntries(methods[..i]).value +
        ["/" + CommandName(methods[i].0) + " - " + LocaleDoc(methods[i].1, DefaultLocale).value])
  {
    assert methods[..i + 1][..i] == methods[..i] && methods[..i + 1][i] == methods[i];
  }

  /** Appending an entry and the separator extends the accumulation. */
  lemma AccumulatedSnoc(es: seq<string>, e: string)
    ensures Accumulated(es + [e]) == Accumulated(es) + e + EntrySep
  {
    assert (es + [e])[..|es|] == es;
  }

  /** The text before the final `removesuffix`: the accumulation of all
      entries, whose separator the suffix removal drops. */
  lemma AccumulatedRemoveSuffix(es: seq<string>)
    ensures RemoveSuffix(Accumulated(es), EntrySep) == Join(es, EntrySep)
  {
    if es != [] {
      AccumulatedJoin(es);
      var m := Accumulated(es);
      assert m[|m| - 2..] == EntrySep;
    }
  }

  /** `make_help_list` over the bot's methods as (name, docstring) pairs in
      the order `inspect.getmembers` lists them: the entries for the
      listed handlers, separated by a blank line. */
  method MakeHelpList(methods: seq<(string, Option<string>)>) returns (r: Result<string, PyExc>)
    ensures HelpEntries(methods).Failure? ==> r == Failure(HelpEntries(methods).error)
    ensures HelpEntries(methods).Success? ==> r == Success(Join(HelpEntries(methods).value, EntrySep))
  {
    var message := "";
    for i := 0 to |methods|
      invariant HelpEntries(methods[..i]).Success?
      invariant message == Accumulated(HelpEntries(methods[..i]).value)
    {
      HelpEntriesSnoc(methods, i);
      var name := methods[i].0;
      if StartsWith(name, Prefix) && EndsWith(name, Suffix) {
        var commandName := RemoveSuffix(RemovePrefix(name, Prefix), Suffix);
        if commandName in HiddenCommands {
          continue;
        }
        var commandDoc := ExtractLocaleDoc(methods[i].1, DefaultLocale);
        if commandDoc.Failure? {
          HelpEntriesPrefixFailure(methods, i + 1);
          return Failure(commandDoc.error);
        }
        var entry := "/" + commandName + " - " + commandDoc.value;
        AccumulatedSnoc(HelpEntries(methods[..i]).value, entry);
        message := message + entry + EntrySep;
      }
    }
    assert methods[..|methods|] == methods;
    AccumulatedRemoveSuffix(HelpEntries(methods).value);
    return Success(RemoveSuffix(message, "\n\n"));
  }

  /** A prefix whose help entries fail makes the whole list fail with the
      same error. */
  lemma {:induction false} HelpEntriesPrefixFailure(methods: seq<(string, Option<string>)>, j: nat)
    requires j <= |methods| && HelpEntries(methods[..j]).Failure?
    ensures HelpEntries(methods) == HelpEntries(methods[..j])
    decreases |methods|
  {
    if j < |methods| {
      var n := |methods| - 1;
      assert methods[..n][..j] == methods[..j];
      HelpEntriesPrefixFailure(methods[..n], j);
    } else {
      assert methods[..j] == methods;
    }
  }
}
