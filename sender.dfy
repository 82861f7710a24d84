/** `FormAnswerSender`: building the `formResponse` link that fills a
    Google Form, and classifying what the form answered. The HTTP request
    and the HTML parser are parameters: `get` returns the response or `None`
    when the request itself fails, `parseHtml` says whether the page parsed
    and whether it still holds a `<form>` element. */
module FormAnswerSender {
  import opened Wrappers
  import opened PyStr
  import opened Json
  import opened SenderErrors

  const UrlHead := "https://docs.google.com/forms/d/e/"
  const ResponsePath := "/formResponse?"
  const SubmitFlag := "submit=Submit?"
  /** `/formResponse?&submit=Submit?&` */
  const UrlTail := ResponsePath + ['&'] + SubmitFlag + ['&']
  const EntryKey := "entry."

  /** The answers dict: question entry ids in insertion order, each with the
      value that goes into the link (`None` prints as "None"). */
  type Answers = seq<(int, Option<string>)>

  predicate HasId(d: Answers, k: int) {
    exists i :: 0 <= i < |d| && d[i].0 == k
  }

  predicate DistinctIds(d: Answers) {
    forall i, j :: 0 <= i < j < |d| ==> d[i].0 != d[j].0
  }

  function FindId(d: Answers, k: int): (r: Option<nat>)
    ensures r.Some? ==> r.value < |d| && d[r.value].0 == k
    ensures r.None? <==> !HasId(d, k)
    decreases |d|
  {
    if d == [] then None
    else if d[|d| - 1].0 == k then Some(|d| - 1)
    else FindId(d[..|d| - 1], k)
  }

  /** `d[k] = v`: an existing key keeps its place and takes the new value;
      a new key goes last. */
  function DictSet(d: Answers, k: int, v: Option<string>): (r: Answers)
    ensures |r| == |d| + (if HasId(d, k) then 0 else 1)
    ensures DistinctIds(d) ==> DistinctIds(r)
    ensures forall i :: 0 <= i < |r| ==> r[i].0 == k || (r[i] in d)
    ensures forall k' :: HasId(r, k') <==> HasId(d, k') || k' == k
    ensures forall i :: 0 <= i < |d| && d[i].0 != k ==> r[i] == d[i]
    ensures (k, v) in r
  {
    match FindId(d, k)
    case None =>
      var r := d + [(k, v)];
      assert r[|d|] == (k, v);
      assert forall k' :: HasId(r, k') <==> HasId(d, k') || k' == k by {
        forall k' | HasId(d, k')
          ensures HasId(r, k')
        {
          var j :| 0 <= j < |d| && d[j].0 == k';
          assert r[j].0 == k';
        }
      }
      r
    case Some(i) =>
      var r := d[i := (k, v)];
      assert forall k' :: HasId(r, k') <==> HasId(d, k') || k' == k by {
        forall k' | HasId(d, k')
          ensures HasId(r, k')
        {
          var j :| 0 <= j < |d| && d[j].0 == k';
          assert r[j].0 == k';
        }
      }
      assert r[i] == (k, v);
      r
  }

  function EntryString(x: (int, Option<string>)): string {
    EntryKey + IntToString(x.0) + ['='] + StrOpt(x.1)
  }

  /** `f'entry.{entry_id}={answer}&'` */
  function EntryParam(x: (int, Option<string>)): string {
    EntryString(x) + ['&']
  }

  /** All the entry parameters, in the dict's order. */
  function EntryParams(answers: Answers): string
    decreases |answers|
  {
    if answers == [] then ""
    else EntryParams(answers[..|answers| - 1]) + EntryParam(answers[|answers| - 1])
  }

  function EntryStrings(answers: Answers): (r: seq<string>)
    ensures |r| == |answers|
    ensures forall i :: 0 <= i < |r| ==> r[i] == EntryString(answers[i])
  {
    seq(|answers|, i requires 0 <= i < |answers| => EntryString(answers[i]))
  }

  /** `base_url.split("/")[-2]`; the `IndexError` of a link without '/'
      becomes `URLFailedCreationError`. */
  function FormId(baseUrl: string): Result<string, SenderError>
  {
    var parts := Split(baseUrl, '/');
    if |parts| < 2 then Failure(URLError) else Success(parts[|parts| - 2])
  }

  /** The fixed start of every link for a form id. */
  function LinkPrefix(formId: string): string {
    UrlHead + formId + UrlTail
  }

  lemma EntryParamsSnoc(answers: Answers, i: nat)
    requires i < |answers|
    ensures EntryParams(answers[..i + 1]) == EntryParams(answers[..i]) + EntryParam(answers[i])
  {
    assert answers[..i + 1][..i] == answers[..i];
  }

  /** What `_create_send_url` returns or raises. A responder URI that is not
      a string has no `split`: that `AttributeError` becomes
      `URLFailedCreationError` as well. */
  function SendUrl(baseUrl: Json, answers: Answers): Result<string, SenderError>
  {
    if !baseUrl.JStr? then Failure(URLError)
    else
      var formId :- FormId(baseUrl.s);
      Success(LinkPrefix(formId) + EntryParams(answers))
  }

  /** `_create_send_url` */
  method CreateSendUrl(baseUrl: Json, answers: Answers) returns (r: Result<string, SenderError>)
    ensures r == SendUrl(baseUrl, answers)
  {
    if !baseUrl.JStr? {
      return Failure(URLError);
    }
    var parts := Split(baseUrl.s, '/');
    if |parts| < 2 {
      return Failure(URLError);
    }
    var formId := parts[|parts| - 2];
    var url := LinkPrefix(formId);
    for i := 0 to |answers|
      invariant url == LinkPrefix(formId) + EntryParams(answers[..i])
    {
      EntryParamsSnoc(answers, i);
      Assoc(LinkPrefix(formId), EntryParams(answers[..i]), EntryParam(answers[i]));
      url := url + EntryParam(answers[i]);
    }
    assert answers[..|answers|] == answers;
    return Success(url);
  }

  /** The link can be built exactly when the responder URI is a string with
      a '/' in it; otherwise the error is `URLFailedCreationError`. */
  lemma SendUrlFails(baseUrl: Json, answers: Answers)
    ensures SendUrl(baseUrl, answers).Success? <==> baseUrl.JStr? && '/' in baseUrl.s
    ensures SendUrl(baseUrl, answers).Failure? ==> SendUrl(baseUrl, answers).error == URLError
  {
    if baseUrl.JStr? {
      SplitCount(baseUrl.s, '/');
    }
  }

  /** For a responder link of the usual shape `.../e/{id}/viewform` the
      form id is the segment before the last one. */
  lemma FormIdOfResponderUri(prefix: string, id: string, last: string)
    requires '/' !in id && '/' !in last
    ensures FormId(prefix + "/" + id + "/" + last) == Success(id)
  {
    assert prefix + "/" + id + "/" + last == (prefix + ['/'] + id) + ['/'] + last;
    SplitConcatSep(prefix + ['/'] + id, '/', last);
    SplitConcatSep(prefix, '/', id);
    SplitFree(id, '/');
    SplitFree(last, '/');
  }

  /** With no answers the link is just the prefix; with any, it ends with '&'. */
  lemma SendUrlNoAnswers(baseUrl: Json)
    requires SendUrl(baseUrl, []).Success?
    ensures SendUrl(baseUrl, []) == Success(LinkPrefix(FormId(baseUrl.s).value))
  {
    assert LinkPrefix(FormId(baseUrl.s).value) + "" == LinkPrefix(FormId(baseUrl.s).value);
  }

  lemma SendUrlEndsWithAmpersand(baseUrl: Json, answers: Answers)
    requires SendUrl(baseUrl, answers).Success?
    ensures EndsWith(SendUrl(baseUrl, answers).value, "&")
  {
    var url := SendUrl(baseUrl, answers).value;
    if answers == [] {
      assert url[|url| - 1..] == UrlTail[|UrlTail| - 1..];
    } else {
      assert url[|url| - 1..] == EntryParam(answers[|answers| - 1])[|EntryParam(answers[|answers| - 1])| - 1..];
    }
  }

  lemma EntryKeyChars()
    ensures '&' !in EntryKey && '=' !in EntryKey
  {
  }

  lemma EntryStringNoAmpersand(x: (int, Option<string>))
    requires '&' !in StrOpt(x.1)
    ensures '&' !in EntryString(x)
  {
    EntryKeyChars();
  }

  lemma {:induction false} EntryParamsTerminated(answers: Answers)
    ensures EntryParams(answers) == Terminated(EntryStrings(answers), '&')
    decreases |answers|
  {
    if answers != [] {
      var n := |answers| - 1;
      EntryParamsTerminated(answers[..n]);
      assert EntryStrings(answers)[..n] == EntryStrings(answers[..n]);
    }
  }

  /** Splitting the parameters on '&' gives back one piece per answer, in
      order, as long as no value holds a '&'. */
  lemma EntryParamsSplit(answers: Answers, t: string)
    requires forall i :: 0 <= i < |answers| ==> '&' !in StrOpt(answers[i].1)
    ensures Split(EntryParams(answers) + t, '&') == EntryStrings(answers) + Split(t, '&')
  {
    EntryParamsTerminated(answers);
    forall i | 0 <= i < |answers|
      ensures '&' !in EntryStrings(answers)[i]
    {
      EntryStringNoAmpersand(answers[i]);
    }
    SplitTerminated(EntryStrings(answers), '&', t);
  }

  /** One entry piece back to its id and value: the inverse of
      `EntryString`. */
  function DecodeEntry(piece: string): (r: Option<(int, string)>)
  {
    var kv := Split(piece, '=');
    if |kv| != 2 || !StartsWith(kv[0], EntryKey) then None
    else
      match ParseInt(RemovePrefix(kv[0], EntryKey), 10)
      case None => None
      case Some(id) => Some((id, kv[1]))
  }

  lemma DecodeEntryRoundTrip(x: (int, Option<string>))
    requires '=' !in StrOpt(x.1)
    ensures DecodeEntry(EntryString(x)) == Some((x.0, StrOpt(x.1)))
  {
    var key := EntryKey + IntToString(x.0);
    assert EntryString(x) == key + ['='] + StrOpt(x.1);
    SplitConcatSep(key, '=', StrOpt(x.1));
    EntryKeyChars();
    SplitFree(key, '=');
    SplitFree(StrOpt(x.1), '=');
    assert key[..|EntryKey|] == EntryKey;
    IntRoundTrip(x.0);
  }

  lemma LinkPartsChars()
    ensures '&' !in UrlHead && '&' !in ResponsePath && '&' !in SubmitFlag
  {
  }

  /** The fixed prefix splits into the path and the `submit` flag. */
  lemma LinkPrefixSplit(id: string, t: string)
    requires '&' !in id
    ensures Split(LinkPrefix(id) + t, '&') == [UrlHead + id + ResponsePath, SubmitFlag] + Split(t, '&')
  {
    var path := UrlHead + id + ResponsePath;
    assert LinkPrefix(id) + t == path + ['&'] + (SubmitFlag + ['&'] + t);
    LinkPartsChars();
    SplitTwoFree(path, SubmitFlag, '&', t);
  }

  /** The query of a built link, split on '&', is the fixed `submit` flag
      followed by one entry per answer in order (and the empty piece after
      the final '&'), and each entry decodes to its id and value. */
  lemma SendUrlEntries(baseUrl: Json, answers: Answers)
    requires SendUrl(baseUrl, answers).Success?
    requires '&' !in FormId(baseUrl.s).value
    requires forall i :: 0 <= i < |answers| ==> '&' !in StrOpt(answers[i].1) && '=' !in StrOpt(answers[i].1)
    ensures Split(SendUrl(baseUrl, answers).value, '&') ==
      [UrlHead + FormId(baseUrl.s).value + ResponsePath, SubmitFlag] + EntryStrings(answers) + [""]
    ensures forall i :: 0 <= i < |answers| ==>
      DecodeEntry(EntryStrings(answers)[i]) == Some((answers[i].0, StrOpt(answers[i].1)))
  {
    var id := FormId(baseUrl.s).value;
    LinkPrefixSplit(id, EntryParams(answers));
    EntryParamsSplit(answers, "");
    assert EntryParams(answers) + "" == EntryParams(answers);
    forall i | 0 <= i < |answers|
      ensures DecodeEntry(EntryStrings(answers)[i]) == Some((answers[i].0, StrOpt(answers[i].1)))
    {
      DecodeEntryRoundTrip(answers[i]);
    }
  }

  /** What the parser makes of the reply page. */
  datatype HtmlResult = ParseFailed | Parsed(hasFormTag: bool)

  /** `_determine_if_test_is_complete` */
  function DetermineIfTestIsComplete(html: string, parsed: HtmlResult): (r: Result<(), SenderError>)
    ensures r.Success? <==> parsed == Parsed(false)
    ensures parsed.ParseFailed? ==> r == Failure(NewHTMLError(html))
    ensures parsed == Parsed(true) ==> r == Failure(TestCompleteFailError)
  {
    match parsed
    case ParseFailed => Failure(NewHTMLError(html))
    case Parsed(hasForm) => if hasForm then Failure(TestCompleteFailError) else Success(())
  }

  /** `resp.raise_for_status()` raises for client and server error codes. */
  predicate IsStatusError(status: int) {
    400 <= status < 600
  }

  datatype Response = Response(status: int, text: string)

  /** How sending can end: one of the sender's own exceptions, an exception
      it does not catch, or a failure inside `requests.get`. */
  datatype SendError = Sender(e: SenderError) | Uncaught(exc: PyExc) | RequestFailed

  /** The links requested, in order, and how the send ended. */
  datatype Outcome = Outcome(requested: seq<string>, result: Result<(), SendError>)

  /** `send_answer_responder_uri` */
  function SendAnswerResponderUri(responderUri: Json, answers: Answers,
                                  get: string -> Option<Response>, parseHtml: string -> HtmlResult): Outcome
  {
    match SendUrl(responderUri, answers)
    case Failure(e) => Outcome([], Failure(Sender(e)))
    case Success(url) =>
      match get(url)
      case None => Outcome([url], Failure(RequestFailed))
      case Some(resp) =>
        if IsStatusError(resp.status) then Outcome([url], Failure(Sender(HTTPError(url))))
        else
          match DetermineIfTestIsComplete(resp.text, parseHtml(resp.text))
          case Failure(e) => Outcome([url], Failure(Sender(e)))
          case Success(_) => Outcome([url], Success(()))
  }

  /** `send_answer_data`: the uncaught `KeyError`/`TypeError` of
      `data["responderUri"]` comes before any request. */
  function SendAnswerData(data: Json, answers: Answers,
                          get: string -> Option<Response>, parseHtml: string -> HtmlResult): (o: Outcome)
    ensures IsObjectWithout(data, "responderUri") ==> o == Outcome([], Failure(Uncaught(KeyError)))
    ensures !data.JObject? ==> o == Outcome([], Failure(Uncaught(TypeError)))
    ensures IsObjectWith(data, "responderUri") ==>
      o == SendAnswerResponderUri(LookupLast(data.members, "responderUri"), answers, get, parseHtml)
  {
    match PyGet(data, "responderUri")
    case Failure(exc) => Outcome([], Failure(Uncaught(exc)))
    case Success(uri) => SendAnswerResponderUri(uri, answers, get, parseHtml)
  }

  /** `send_answer_metadata`. `json.loads` is the parameter `loads`
      (`None` when the text is not JSON); a missing metadata text makes
      `json.loads(None)` raise, which is caught the same way. */
  function SendAnswerMetadata(metadata: Option<string>, answers: Answers, loads: string -> Option<Json>,
                              get: string -> Option<Response>, parseHtml: string -> HtmlResult): (o: Outcome)
    ensures metadata.None? ==> o == Outcome([], Failure(Sender(JSONParseError("None"))))
    ensures metadata.Some? && loads(metadata.value).None? ==>
      o == Outcome([], Failure(Sender(JSONParseError(Shorten(metadata.value)))))
    ensures metadata.Some? && loads(metadata.value).Some? ==>
      o == SendAnswerData(loads(metadata.value).value, answers, get, parseHtml)
  {
    if metadata.None? then Outcome([], Failure(Sender(NewJSONParseError(StrOpt(metadata)))))
    else
      match loads(metadata.value)
      case None => Outcome([], Failure(Sender(NewJSONParseError(metadata.value))))
      case Some(data) => SendAnswerData(data, answers, get, parseHtml)
  }

  /** The step order of a send: the link is built before any request, so a
      link failure requests nothing; otherwise exactly the built link is
      requested once; a status error wins over whatever the page holds; and
      the send succeeds exactly when the status is fine and the page parsed
      without a form in it. */
  lemma ResponderUriSteps(responderUri: Json, answers: Answers,
                          get: string -> Option<Response>, parseHtml: string -> HtmlResult)
    ensures var o := SendAnswerResponderUri(responderUri, answers, get, parseHtml);
      match SendUrl(responderUri, answers)
      case Failure(e) => o == Outcome([], Failure(Sender(e)))
      case Success(url) =>
        o.requested == [url] &&
        (get(url).Some? && IsStatusError(get(url).value.status) ==> o.result == Failure(Sender(HTTPError(url)))) &&
        (o.result.Success? <==> get(url).Some? && !IsStatusError(get(url).value.status) && parseHtml(get(url).value.text) == Parsed(false))
  {
  }

  /** A rejected page raises `TestCompleteFailError`, an unreadable one
      `HTMLParseError` carrying the shortened page. */
  lemma ResponderUriPage(responderUri: Json, answers: Answers,
                         get: string -> Option<Response>, parseHtml: string -> HtmlResult)
    requires SendUrl(responderUri, answers).Success?
    requires get(SendUrl(responderUri, answers).value).Some?
    requires !IsStatusError(get(SendUrl(responderUri, answers).value).value.status)
    ensures var text := get(SendUrl(responderUri, answers).value).value.text;
      var o := SendAnswerResponderUri(responderUri, answers, get, parseHtml);
      (parseHtml(text) == Parsed(true) ==> o.result == Failure(Sender(TestCompleteFailError))) &&
      (parseHtml(text).ParseFailed? ==> o.result == Failure(Sender(HTMLError(Shorten(text)))))
  {
  }

  /** Metadata that does not parse raises `JSONParseError` with the
      shortened text and requests nothing; metadata that parses is sent to
      its `responderUri`, and parsed metadata without one raises the
      uncaught `KeyError` (an object) or `TypeError` (anything else) before
      any request. */
  lemma MetadataSteps(metadata: Option<string>, answers: Answers, loads: string -> Option<Json>,
                      get: string -> Option<Response>, parseHtml: string -> HtmlResult)
    ensures var o := SendAnswerMetadata(metadata, answers, loads, get, parseHtml);
      (metadata.Some? && loads(metadata.value).None? ==>
        o == Outcome([], Failure(Sender(JSONParseError(Shorten(metadata.value)))))) &&
      (metadata.Some? && loads(metadata.value).Some? && IsObjectWith(loads(metadata.value).value, "responderUri") ==>
        o == SendAnswerResponderUri(PyGet(loads(metadata.value).value, "responderUri").value, answers, get, parseHtml)) &&
      (metadata.Some? && loads(metadata.value).Some? && !IsObjectWith(loads(metadata.value).value, "responderUri") ==>
        o.requested == [] && o.result.Failure? && o.result.error.Uncaught? &&
        o.result.error.exc == (if loads(metadata.value).value.JObject? then KeyError else TypeError)) &&
      (metadata.None? ==> o == Outcome([], Failure(Sender(JSONParseError("None")))))
  {
  }
}
