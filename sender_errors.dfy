/** The exceptions the form-answer sender raises, with the texts they
    carry. `URLFailedCreationError`, `HTMLParseError` and `BadRequestError`
    are the names the sender and the bot use for `URLError`, `HTMLError`
    and `HTTPError`. */
module SenderErrors {
  import opened PyStr

  /** `MAX_LENGTH_STR` */
  const MaxLength: nat := 50
  const Ellipsis := "..."

  /** `_shorten(data)` applied to `str(data)`. */
  function Shorten(s: string): (r: string)
    ensures |r| <= MaxLength + |Ellipsis|
    ensures |s| < MaxLength ==> r == s
    ensures |s| >= MaxLength ==> |r| == MaxLength + |Ellipsis| && r[..MaxLength] == s[..MaxLength] && r[MaxLength..] == Ellipsis
  {
    if |s| < MaxLength then s else s[..MaxLength] + Ellipsis
  }

  /** Shortening twice gives what shortening once gave. */
  lemma ShortenIdempotent(s: string)
    ensures Shorten(Shorten(s)) == Shorten(s)
  {
    if |s| >= MaxLength {
      var r := Shorten(s);
      assert r[..MaxLength] + Ellipsis == r;
    }
  }

  /** Exactly the strings of fewer than `MaxLength` characters, and the
      already-shortened ones, come back unchanged. */
  lemma ShortenFixed(s: string)
    ensures Shorten(s) == s <==> |s| < MaxLength || (|s| == MaxLength + |Ellipsis| && s[MaxLength..] == Ellipsis)
  {
    if |s| == MaxLength + |Ellipsis| && s[MaxLength..] == Ellipsis {
      assert s[..MaxLength] + s[MaxLength..] == s;
    }
  }

  datatype SenderError =
    | JSONParseError(metadataText: string)
    | URLError
    | HTMLError(text: string)
    | TestCompleteFailError
    | HTTPError(url: string)

  /** The constructors that store a shortened text. */
  function NewJSONParseError(metadata: string): (e: SenderError)
    ensures e.JSONParseError? && |e.metadataText| <= MaxLength + |Ellipsis|
    ensures Shorten(e.metadataText) == e.metadataText
    ensures |metadata| < MaxLength ==> e.metadataText == metadata
    ensures |metadata| >= MaxLength ==> e.metadataText == metadata[..MaxLength] + Ellipsis
  {
    ShortenIdempotent(metadata);
    JSONParseError(Shorten(metadata))
  }

  function NewHTMLError(html: string): (e: SenderError)
    ensures e.HTMLError? && |e.text| <= MaxLength + |Ellipsis|
    ensures Shorten(e.text) == e.text
    ensures |html| < MaxLength ==> e.text == html
    ensures |html| >= MaxLength ==> e.text == html[..MaxLength] + Ellipsis
  {
    ShortenIdempotent(html);
    HTMLError(Shorten(html))
  }

  const JSONParseHeader := "Error happened when trying to parse json:\n"
  const URLErrorText := "Error happened when trying to create link for sending form."
  const HTMLErrorHeader := "Error occurred when parsing html of the result after sending answer.\nThe given html to parse: "
  const TestCompleteFailText := "Sending answers was failed. Please check that you wrote everything correctly according to form."
  const HTTPErrorHeader := "Error happened when trying to send answers to form via link:\n"

  /** `str(e)` */
  function Str(e: SenderError): string
  {
    match e
    case JSONParseError(t) => JSONParseHeader + t
    case URLError => URLErrorText
    case HTMLError(t) => HTMLErrorHeader + t
    case TestCompleteFailError => TestCompleteFailText
    case HTTPError(u) => HTTPErrorHeader + u
  }

  /** The messages of the errors that store a text end with that text, and
      the HTTP error's ends with the whole URL, unshortened. */
  lemma StrCarriesText(e: SenderError)
    ensures e.JSONParseError? ==> EndsWith(Str(e), e.metadataText) && StartsWith(Str(e), JSONParseHeader)
    ensures e.HTMLError? ==> EndsWith(Str(e), e.text) && StartsWith(Str(e), HTMLErrorHeader)
    ensures e.HTTPError? ==> EndsWith(Str(e), e.url) && StartsWith(Str(e), HTTPErrorHeader)
  {
    var m := Str(e);
    match e
    case JSONParseError(t) =>
      assert m[|m| - |t|..] == t && m[..|JSONParseHeader|] == JSONParseHeader;
    case HTMLError(t) =>
      assert m[|m| - |t|..] == t && m[..|HTMLErrorHeader|] == HTMLErrorHeader;
    case HTTPError(u) =>
      assert m[|m| - |u|..] == u && m[..|HTTPErrorHeader|] == HTTPErrorHeader;
    case _ =>
  }

  /** A parse error's message stays short whatever the input was. */
  lemma JSONParseMessageBounded(metadata: string)
    ensures |Str(NewJSONParseError(metadata))| <= |JSONParseHeader| + MaxLength + |Ellipsis|
  {
  }

  /** The exception classes, `FormAnswerSenderException` at the root. */
  datatype ErrorClass =
    | FormAnswerSenderException
    | JSONParseErrorClass
    | URLErrorClass
    | HTMLErrorClass
    | TestCompleteFailErrorClass
    | HTTPErrorClass

  /** The base class of each class: `HTTPError` derives from
      `TestCompleteFailError`, every other one from the root. */
  function Base(c: ErrorClass): ErrorClass
  {
    match c
    case HTTPErrorClass => TestCompleteFailErrorClass
    case _ => FormAnswerSenderException
  }

  function ClassOf(e: SenderError): ErrorClass
  {
    match e
    case JSONParseError(_) => JSONParseErrorClass
    case URLError => URLErrorClass
    case HTMLError(_) => HTMLErrorClass
    case TestCompleteFailError => TestCompleteFailErrorClass
    case HTTPError(_) => HTTPErrorClass
  }

  /** `issubclass(c, d)`: `d` is `c` or one of its bases. */
  predicate IsSubclass(c: ErrorClass, d: ErrorClass)
    decreases if c == FormAnswerSenderException then 0 else if c == HTTPErrorClass then 2 else 1
  {
    c == d || (c != FormAnswerSenderException && IsSubclass(Base(c), d))
  }

  /** `isinstance(e, c)`: what an `except c` clause catches. */
  predicate IsInstance(e: SenderError, c: ErrorClass) {
    IsSubclass(ClassOf(e), c)
  }

  /** Every error is a `FormAnswerSenderException`; an `except
      TestCompleteFailError` catches exactly `TestCompleteFailError` and
      `HTTPError`; each other class catches only its own errors. */
  lemma InstanceCases(e: SenderError, c: ErrorClass)
    ensures IsInstance(e, FormAnswerSenderException)
    ensures IsInstance(e, TestCompleteFailErrorClass) <==> e.TestCompleteFailError? || e.HTTPError?
    ensures c != FormAnswerSenderException && c != TestCompleteFailErrorClass ==>
      (IsInstance(e, c) <==> ClassOf(e) == c)
  {
  }
}
