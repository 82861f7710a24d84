/** A parsed JSON document as Python's `json.loads` hands it to the bot:
    objects keep their members in document order (a repeated key keeps its
    first position and its last value, as a Python dict built by
    `json.loads` does), arrays are lists, and JSON null is Python's `None`.
    The three Python operations the form code applies to such values are
    written out with the exceptions they raise. */
module Json {
  import opened Wrappers
  import opened PyStr

  datatype Json =
    | JNull
    | JBool(b: bool)
    | JNum(n: int)
    | JStr(s: string)
    | JArray(elems: seq<Json>)
    | JObject(members: seq<(string, Json)>)

  predicate HasKey(members: seq<(string, Json)>, key: string) {
    exists i :: 0 <= i < |members| && members[i].0 == key
  }

  /** The value of the last member named `key`. */
  function LookupLast(members: seq<(string, Json)>, key: string): (v: Json)
    requires HasKey(members, key)
  {
    var n := |members| - 1;
    if members[n].0 == key then members[n].1
    else
      assert exists i :: 0 <= i < n && members[..n][i].0 == key by {
        var i :| 0 <= i < |members| && members[i].0 == key;
        assert members[..n][i] == members[i];
      }
      LookupLast(members[..n], key)
  }

  /** The distinct member names in order of first occurrence: the order in
      which iterating the dict yields its keys. */
  function Keys(members: seq<(string, Json)>): (ks: seq<string>)
  {
    if members == [] then []
    else
      var ks := Keys(members[..|members| - 1]);
      var k := members[|members| - 1].0;
      if k in ks then ks else ks + [k]
  }

  /** `p` occurs in `s` as a contiguous block (Python's `p in s` on strings). */
  predicate Substring(p: string, s: string)
    decreases |s|
  {
    StartsWith(s, p) || (s != [] && Substring(p, s[1..]))
  }

  /** Python's `key in v` for a string `key`: membership of a key in a dict,
      equality with an element of a list, substring of a string; any other
      value is not iterable and raises `TypeError`. */
  function PyIn(key: string, v: Json): (r: Result<bool, PyExc>)
    ensures v.JObject? ==> r == Success(HasKey(v.members, key))
    ensures (v.JNull? || v.JBool? || v.JNum?) ==> r == Failure(TypeError)
  {
    match v
    case JObject(ms) => Success(HasKey(ms, key))
    case JArray(es) => Success(JStr(key) in es)
    case JStr(s) => Success(Substring(key, s))
    case _ => Failure(TypeError)
  }

  /** Python's `v[key]` for a string `key`: a dict lookup that raises
      `KeyError` for a missing key; lists and strings want integer indices and
      the scalars are not subscriptable, so those raise `TypeError`. */
  function PyGet(v: Json, key: string): (r: Result<Json, PyExc>)
    ensures r.Success? <==> v.JObject? && HasKey(v.members, key)
    ensures r == Failure(KeyError) <==> v.JObject? && !HasKey(v.members, key)
  {
    match v
    case JObject(ms) => if HasKey(ms, key) then Success(LookupLast(ms, key)) else Failure(KeyError)
    case _ => Failure(TypeError)
  }

  /** What `for x in v` runs over: the elements of a list, the keys of a
      dict, the one-character strings of a string; scalars raise `TypeError`. */
  function PyIter(v: Json): (r: Result<seq<Json>, PyExc>)
    ensures v.JArray? ==> r == Success(v.elems)
  {
    match v
    case JArray(es) => Success(es)
    case JObject(ms) => Success(seq(|Keys(ms)|, i requires 0 <= i < |Keys(ms)| => JStr(Keys(ms)[i])))
    case JStr(s) => Success(seq(|s|, i requires 0 <= i < |s| => JStr([s[i]])))
    case _ => Failure(TypeError)
  }

  /** A JSON object made of the given members: convenience for stating lemmas. */
  predicate IsObjectWith(v: Json, key: string) {
    v.JObject? && HasKey(v.members, key)
  }

  predicate IsObjectWithout(v: Json, key: string) {
    v.JObject? && !HasKey(v.members, key)
  }
}

/** The chained subscripts the form translators apply to one form item. */
module FormPaths {
  import opened Wrappers
  import opened Json

  /** `item['questionItem']['question']` */
  function Question(item: Json): Result<Json, PyExc>
  {
    var qi :- PyGet(item, "questionItem");
    PyGet(qi, "question")
  }

  /** `item['questionItem']['question'][key]` */
  function QuestionField(item: Json, key: string): Result<Json, PyExc>
  {
    var q :- Question(item);
    PyGet(q, key)
  }

  /** `item['questionItem']['question']['choiceQuestion'][key]` */
  function ChoiceField(item: Json, key: string): Result<Json, PyExc>
  {
    var cq :- QuestionField(item, "choiceQuestion");
    PyGet(cq, key)
  }

  /** `item['questionItem']['image']['contentUri']` */
  function ImageUri(item: Json): Result<Json, PyExc>
  {
    var qi :- PyGet(item, "questionItem");
    var im :- PyGet(qi, "image");
    PyGet(im, "contentUri")
  }
}
