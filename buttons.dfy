/** Inline-keyboard buttons: a button's callback name, the callback data it
    sends (the name and `#`-separated parameters), and the check that a
    received callback belongs to it. */
module Buttons {
  import opened Wrappers
  import opened PyStr

  /** `Button.callback_suffix` */
  const CallbackSuffix := "_callback"
  /** The separator of callback parameters. */
  const Hash := '#'

  datatype Button = Button(name: string, txt: string)

  /** What `get_button` builds: the text shown and the callback data. */
  datatype InlineButton = InlineButton(text: string, callbackData: string)

  /** `Button.callback`: the lower-cased name and the suffix. */
  function Callback(b: Button): (c: string)
    ensures StartsWith(c, Lower(b.name)) && EndsWith(c, CallbackSuffix)
    ensures |c| == |b.name| + |CallbackSuffix|
  {
    var c := Lower(b.name) + CallbackSuffix;
    assert c[..|Lower(b.name)|] == Lower(b.name);
    assert c[|c| - |CallbackSuffix|..] == CallbackSuffix;
    c
  }

  /** The callback data of `get_button(parameters=ps)`, the parameters given
      as their `str`. `None` and the empty list are both falsy, so both
      leave the bare callback. */
  function CallbackData(b: Button, ps: seq<string>): (d: string)
    ensures ps == [] ==> d == Callback(b)
    ensures StartsWith(d, Callback(b))
    ensures ps != [] ==> |d| > |Callback(b)| && d[|Callback(b)|] == Hash
  {
    if ps == [] then Callback(b)
    else
      var d := Callback(b) + [Hash] + Join(ps, [Hash]);
      assert d[..|Callback(b)|] == Callback(b);
      d
  }

  /** `Button.get_button`: the new text when it is truthy, otherwise the
      button's own text. */
  function GetButton(b: Button, newText: Option<string>, ps: seq<string>): (r: InlineButton)
    ensures TruthyStr(newText) ==> r.text == newText.value
    ensures !TruthyStr(newText) ==> r.text == b.txt
    ensures r.callbackData == CallbackData(b, ps)
  {
    InlineButton(if TruthyStr(newText) then newText.value else b.txt, CallbackData(b, ps))
  }

  /** `Button.has_that_callback` */
  predicate HasThatCallback(b: Button, received: string) {
    StartsWith(received, Callback(b))
  }

  /** A button recognises every callback it produces, whatever the
      parameters. */
  lemma HasOwnCallback(b: Button, ps: seq<string>)
    ensures HasThatCallback(b, GetButton(b, None, ps).callbackData)
  {
    var d := CallbackData(b, ps);
    if ps != [] {
      assert d[..|Callback(b)|] == Callback(b);
    }
  }

  /** Splitting the callback data at `#` gives back the callback and the
      parameters, as long as neither the name nor a parameter contains `#`. */
  lemma CallbackDataSplit(b: Button, ps: seq<string>)
    requires Hash !in Lower(b.name)
    requires forall i :: 0 <= i < |ps| ==> Hash !in ps[i]
    ensures Split(CallbackData(b, ps), Hash) == [Callback(b)] + ps
  {
    var c := Callback(b);
    assert Hash !in c by {
      assert c == Lower(b.name) + CallbackSuffix;
      assert Hash !in CallbackSuffix;
    }
    if ps == [] {
      SplitFree(c, Hash);
    } else {
      SplitAfterFree(c, Hash, Join(ps, [Hash]));
      JoinSplit(ps, Hash);
    }
  }

  /** Splitting a join of separator-free pieces gives the pieces. */
  lemma {:induction false} JoinSplit(ps: seq<string>, sep: char)
    requires ps != []
    requires forall i :: 0 <= i < |ps| ==> sep !in ps[i]
    ensures Split(Join(ps, [sep]), sep) == ps
    decreases |ps|
  {
    if |ps| == 1 {
      SplitFree(ps[0], sep);
    } else {
      JoinSplit(ps[1..], sep);
      SplitAfterFree(ps[0], sep, Join(ps[1..], [sep]));
      assert [ps[0]] + ps[1..] == ps;
    }
  }

  /** `get_test_id_or_classroom_id_from_callback`: `int` of the text between
      the first and the second `#`. No second piece is an `IndexError`, a
      piece that is no integer a `ValueError`. */
  function IdFromCallback(callback: string): (r: Result<int, PyExc>)
    ensures r.Failure? ==> r.error == IndexError || r.error == ValueError
    ensures r.Failure? && r.error == IndexError <==> Hash !in callback
    ensures r.Success? ==> |Split(callback, Hash)| >= 2 && ParseInt(Split(callback, Hash)[1], 10) == Some(r.value)
  {
    var parts := Split(callback, Hash);
    SplitCount(callback, Hash);
    if |parts| < 2 then Failure(IndexError)
    else
      match ParseInt(parts[1], 10)
      case None => Failure(ValueError)
      case Some(n) => Success(n)
  }

  /** The id is read from the piece after the first `#`, up to the next `#`
      or the end: that piece parsed as a decimal integer, or `ValueError`. */
  lemma IdFromCallbackPiece(head: string, piece: string, tail: string)
    requires Hash !in head && Hash !in piece && (tail == [] || tail[0] == Hash)
    ensures IdFromCallback(head + [Hash] + piece + tail) ==
      match ParseInt(piece, 10)
      case None => Failure(ValueError)
      case Some(n) => Success(n)
  {
    var callback := head + [Hash] + piece + tail;
    assert callback == head + [Hash] + (piece + tail);
    SplitAfterFree(head, Hash, piece + tail);
    if tail == [] {
      assert piece + tail == piece;
      SplitFree(piece, Hash);
    } else {
      assert piece + tail == piece + [Hash] + tail[1..];
      SplitAfterFree(piece, Hash, tail[1..]);
    }
  }

  /** A button made with an integer as its first parameter gives that integer
      back. */
  lemma IdFromCallbackRoundTrip(b: Button, n: int, rest: seq<string>)
    requires Hash !in Lower(b.name)
    requires forall i :: 0 <= i < |rest| ==> Hash !in rest[i]
    ensures IdFromCallback(GetButton(b, None, [IntToString(n)] + rest).callbackData) == Success(n)
  {
    var ps := [IntToString(n)] + rest;
    assert Hash !in IntToString(n);
    forall i | 0 <= i < |ps|
      ensures Hash !in ps[i]
    {
      if i > 0 {
        assert ps[i] == rest[i - 1];
      }
    }
    CallbackDataSplit(b, ps);
    IntRoundTrip(n);
  }
}
