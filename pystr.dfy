/** The handful of Python string operations the bot's code is built from:
    `str.split` on one character, `startswith`/`removeprefix`,
    `strip`, `re.sub(r"\s+", " ", ...)`, `lower`, `str(int)` and `int(s, base)`.
    Each is written out with Python's own edge cases (strip and `\s` use
    Python's Unicode whitespace set, `int` accepts surrounding whitespace,
    a sign, a base prefix and single underscores between digits). */
module PyStr {
  import opened Wrappers

  /** Python's `str.isspace` for one character (the same set `\s` matches). */
  predicate IsSpace(c: char) {
    c == ' ' || ('\t' <= c <= '\r') || ('\U{1C}' <= c <= '\U{1F}') || c == '\U{85}' || c == '\U{A0}'
    || c == '\U{1680}' || ('\U{2000}' <= c <= '\U{200A}') || c == '\U{2028}' || c == '\U{2029}'
    || c == '\U{202F}' || c == '\U{205F}' || c == '\U{3000}'
  }

  predicate StartsWith(s: string, p: string) {
    |p| <= |s| && s[..|p|] == p
  }

  predicate EndsWith(s: string, p: string) {
    |p| <= |s| && s[|s| - |p|..] == p
  }

  lemma StartsWithConcat(p: string, q: string, s: string)
    requires StartsWith(s, q)
    ensures StartsWith(p + s, p + q)
  {
    assert (p + s)[..|p + q|] == p + s[..|q|];
  }

  lemma StartsWithAppend(s: string, t: string, p: string)
    requires StartsWith(s, p)
    ensures StartsWith(s + t, p)
  {
    assert (s + t)[..|p|] == s[..|p|];
  }

  lemma EndsWithConcat(s: string, p: string, q: string)
    requires EndsWith(s, p)
    ensures EndsWith(s + q, p + q)
  {
    assert (s + q)[|s + q| - |p + q|..] == s[|s| - |p|..] + q;
  }

  lemma EndsWithPrepend(t: string, s: string, p: string)
    requires EndsWith(s, p)
    ensures EndsWith(t + s, p)
  {
    assert (t + s)[|t + s| - |p|..] == s[|s| - |p|..];
  }

  /** `s.removeprefix(p)` */
  function RemovePrefix(s: string, p: string): (r: string)
    ensures StartsWith(s, p) ==> p + r == s
    ensures !StartsWith(s, p) ==> r == s
  {
    if StartsWith(s, p) then s[|p|..] else s
  }

  /** `s.removesuffix(p)` */
  function RemoveSuffix(s: string, p: string): (r: string)
    ensures EndsWith(s, p) ==> r + p == s
    ensures !EndsWith(s, p) ==> r == s
  {
    if EndsWith(s, p) then s[..|s| - |p|] else s
  }

  /** `sep.join(parts)` */
  function Join(parts: seq<string>, sep: string): string
  {
    if |parts| == 0 then ""
    else if |parts| == 1 then parts[0]
    else parts[0] + sep + Join(parts[1..], sep)
  }

  /** `s.split(sep)` for a one-character separator. Python never returns an
      empty list here: splitting "" gives [""]. */
  function Split(s: string, sep: char): (parts: seq<string>)
    ensures |parts| >= 1
    decreases |s|
  {
    if s == [] then [""]
    else
      var rest := Split(s[1..], sep);
      if s[0] == sep then [""] + rest
      else [[s[0]] + rest[0]] + rest[1..]
  }

  /** Joining the pieces with the separator gives the string back. */
  lemma {:induction false} SplitJoin(s: string, sep: char)
    ensures Join(Split(s, sep), [sep]) == s
    decreases |s|
  {
    if s != [] {
      var rest := Split(s[1..], sep);
      SplitJoin(s[1..], sep);
      if s[0] == sep {
        assert Split(s, sep) == [""] + rest;
        assert ([""] + rest)[1..] == rest;
      } else {
        var parts := Split(s, sep);
        assert parts == [[s[0]] + rest[0]] + rest[1..];
        if |rest| == 1 {
          assert parts == [[s[0]] + rest[0]];
        } else {
          assert parts[1..] == rest[1..];
          assert Join(rest, [sep]) == rest[0] + [sep] + Join(rest[1..], [sep]);
        }
      }
    }
  }

  /** No piece contains the separator. */
  lemma {:induction false} SplitPartsFree(s: string, sep: char, i: nat)
    requires i < |Split(s, sep)|
    ensures sep !in Split(s, sep)[i]
    decreases |s|
  {
    if s != [] {
      var rest := Split(s[1..], sep);
      if s[0] == sep {
        if i > 0 { SplitPartsFree(s[1..], sep, i - 1); }
      } else {
        if i == 0 {
          SplitPartsFree(s[1..], sep, 0);
        } else {
          SplitPartsFree(s[1..], sep, i);
        }
      }
    }
  }

  /** A string without the separator splits into itself. */
  lemma {:induction false} SplitFree(s: string, sep: char)
    requires sep !in s
    ensures Split(s, sep) == [s]
    decreases |s|
  {
    if s != [] {
      assert s[0] != sep;
      SplitFree(s[1..], sep);
      assert [s[0]] + s[1..] == s;
    }
  }

  /** Splitting `a + sep + b` when `a` has no separator: `a` comes first. */
  lemma {:induction false} SplitAfterFree(a: string, sep: char, b: string)
    requires sep !in a
    ensures Split(a + [sep] + b, sep) == [a] + Split(b, sep)
    decreases |a|
  {
    if a == [] {
      assert a + [sep] + b == [sep] + b;
      SplitCons(sep, b, sep);
    } else {
      var c, w := a[0], a[1..];
      SplitAfterFree(w, sep, b);
      SplitConsFirst(c, w + [sep] + b, w, Split(b, sep), sep);
      assert [c] + w == a;
      assert [c] + (w + [sep] + b) == a + [sep] + b;
    }
  }

  /** A character other than the separator joins the first piece. */
  lemma SplitConsFirst(c: char, x: string, p: string, rest: seq<string>, sep: char)
    requires c != sep && Split(x, sep) == [p] + rest
    ensures Split([c] + x, sep) == [[c] + p] + rest
  {
    SplitCons(c, x, sep);
    assert ([p] + rest)[1..] == rest;
  }

  /** The last piece after a separator is whatever follows the last
      separator: `(a + sep + b).split(sep)[-1] == b` when `b` has none. */
  lemma {:induction false} SplitLast(a: string, sep: char, b: string)
    requires sep !in b
    ensures |Split(a + [sep] + b, sep)| >= 2
    ensures Split(a + [sep] + b, sep)[|Split(a + [sep] + b, sep)| - 1] == b
    decreases |a|
  {
    var s := a + [sep] + b;
    if a == [] {
      assert s[1..] == b;
      SplitFree(b, sep);
    } else {
      assert s[1..] == a[1..] + [sep] + b;
      SplitLast(a[1..], sep, b);
    }
  }

  /** `s.count(c)` for one character. */
  function Count(s: string, c: char): (n: nat)
    ensures n <= |s|
    ensures n == 0 <==> c !in s
    decreases |s|
  {
    if s == [] then 0
    else (if s[0] == c then 1 else 0) + Count(s[1..], c)
  }

  /** Counting distributes over concatenation. */
  lemma {:induction false} CountAppend(a: string, b: string, c: char)
    ensures Count(a + b, c) == Count(a, c) + Count(b, c)
    decreases |a|
  {
    if a == [] {
      assert a + b == b;
    } else {
      assert (a + b)[1..] == a[1..] + b;
      CountAppend(a[1..], b, c);
    }
  }

  lemma Assoc(a: string, b: string, c: string)
    ensures (a + b) + c == a + (b + c)
  {
  }

  /** `Split` unfolded once on a string with a known first character. */
  lemma SplitCons(c: char, r: string, sep: char)
    ensures Split([c] + r, sep) ==
      if c == sep then [""] + Split(r, sep) else [[c] + Split(r, sep)[0]] + Split(r, sep)[1..]
  {
    assert ([c] + r)[0] == c && ([c] + r)[1..] == r;
  }

  /** Splitting across one separator splits each side on its own. */
  lemma {:induction false} SplitConcatSep(u: string, sep: char, v: string)
    ensures Split(u + [sep] + v, sep) == Split(u, sep) + Split(v, sep)
    decreases |u|
  {
    if u == [] {
      assert u + [sep] + v == [sep] + v;
      SplitCons(sep, v, sep);
    } else {
      var c, w := u[0], u[1..];
      SplitConcatSep(w, sep, v);
      SplitConsExtends(c, w + [sep] + v, w, sep, Split(v, sep));
      assert [c] + w == u;
      assert [c] + (w + [sep] + v) == u + [sep] + v;
    }
  }

  /** The step of `SplitConcatSep`: when `x` splits into the pieces of `y`
      followed by `b`, so does one more character in front of each. */
  lemma SplitConsExtends(c: char, x: string, y: string, sep: char, b: seq<string>)
    requires Split(x, sep) == Split(y, sep) + b
    ensures Split([c] + x, sep) == Split([c] + y, sep) + b
  {
    var a := Split(y, sep);
    if c == sep {
      SplitCons(c, x, sep);
      SplitCons(c, y, sep);
      assert [""] + (a + b) == ([""] + a) + b;
    } else {
      SplitCons(c, x, sep);
      SplitCons(c, y, sep);
      PieceCons(c, a, b);
    }
  }

  lemma PieceCons(c: char, a: seq<string>, b: seq<string>)
    requires |a| >= 1
    ensures [[c] + (a + b)[0]] + (a + b)[1..] == ([[c] + a[0]] + a[1..]) + b
  {
    assert (a + b)[0] == a[0];
    assert (a + b)[1..] == a[1..] + b;
  }

  /** The pieces, each followed by the separator. */
  function Terminated(pieces: seq<string>, sep: char): string
    decreases |pieces|
  {
    if pieces == [] then ""
    else Terminated(pieces[..|pieces| - 1], sep) + pieces[|pieces| - 1] + [sep]
  }

  /** Splitting separator-terminated pieces gives the pieces back. */
  lemma {:induction false} SplitTerminated(pieces: seq<string>, sep: char, t: string)
    requires forall i :: 0 <= i < |pieces| ==> sep !in pieces[i]
    ensures Split(Terminated(pieces, sep) + t, sep) == pieces + Split(t, sep)
    decreases |pieces|
  {
    if pieces == [] {
      assert Terminated(pieces, sep) + t == t;
    } else {
      var n := |pieces| - 1;
      var front := pieces[..n];
      var e := pieces[n];
      var t' := e + [sep] + t;
      var f := Terminated(front, sep);
      assert Terminated(pieces, sep) + t == f + t' by {
        assert Terminated(pieces, sep) == f + e + [sep];
        Assoc(f, e + [sep], t);
      }
      SplitTerminated(front, sep, t');
      SplitAfterFree(e, sep, t);
      AppendPiece(front, e, Split(t, sep), pieces);
    }
  }

  lemma AppendPiece(front: seq<string>, e: string, rest: seq<string>, pieces: seq<string>)
    requires pieces == front + [e]
    ensures front + ([e] + rest) == pieces + rest
  {
  }

  /** Two separator-free pieces in front of the rest. */
  lemma SplitTwoFree(a: string, b: string, sep: char, t: string)
    requires sep !in a && sep !in b
    ensures Split(a + [sep] + (b + [sep] + t), sep) == [a, b] + Split(t, sep)
  {
    SplitAfterFree(a, sep, b + [sep] + t);
    SplitAfterFree(b, sep, t);
  }

  /** Splitting makes one more piece than there are separators. */
  lemma {:induction false} SplitCount(s: string, sep: char)
    ensures |Split(s, sep)| == Count(s, sep) + 1
    decreases |s|
  {
    if s != [] {
      SplitCount(s[1..], sep);
    }
  }

  /** `s.lstrip()` */
  function LStrip(s: string): (r: string)
    ensures |r| <= |s|
    ensures r == [] || !IsSpace(r[0])
  {
    if s != [] && IsSpace(s[0]) then LStrip(s[1..]) else s
  }

  /** `s.rstrip()` */
  function RStrip(s: string): (r: string)
    ensures |r| <= |s|
    ensures r == [] || !IsSpace(r[|r| - 1])
  {
    if s != [] && IsSpace(s[|s| - 1]) then RStrip(s[..|s| - 1]) else s
  }

  /** `s.strip()` */
  function Strip(s: string): string
  {
    RStrip(LStrip(s))
  }

  /** A string with no whitespace at either end is its own strip. */
  lemma StripNoEdgeSpace(s: string)
    requires s != [] ==> !IsSpace(s[0]) && !IsSpace(s[|s| - 1])
    ensures Strip(s) == s
  {
  }

  /** `re.sub(r"\s+", " ", s)`: every maximal run of whitespace becomes one blank. */
  function CollapseWs(s: string): (r: string)
    ensures |r| <= |s|
    decreases |s|
  {
    if s == [] then []
    else if IsSpace(s[0]) then [' '] + CollapseWs(LStrip(s[1..]))
    else [s[0]] + CollapseWs(s[1..])
  }

  /** After collapsing, the only whitespace left is single blanks. */
  lemma {:induction false} CollapseWsSingleBlanks(s: string)
    ensures forall i :: 0 <= i < |CollapseWs(s)| && IsSpace(CollapseWs(s)[i]) ==> CollapseWs(s)[i] == ' '
    ensures forall i :: 0 <= i < |CollapseWs(s)| - 1 ==> !(IsSpace(CollapseWs(s)[i]) && IsSpace(CollapseWs(s)[i + 1]))
    decreases |s|
  {
    if s != [] {
      if IsSpace(s[0]) {
        var t := LStrip(s[1..]);
        CollapseWsSingleBlanks(t);
        if t != [] { CollapseWsHead(t); }
      } else {
        CollapseWsSingleBlanks(s[1..]);
      }
    }
  }

  /** Collapsing keeps a non-blank first character. */
  lemma {:induction false} CollapseWsHead(s: string)
    requires s != [] && !IsSpace(s[0])
    ensures CollapseWs(s) != [] && CollapseWs(s)[0] == s[0]
  {
  }

  /** Python's `str.lower` on one character: ASCII, Latin-1 and Cyrillic capitals. */
  function LowerChar(c: char): (d: char)
    ensures 'a' <= d <= 'z' ==> ('a' <= c <= 'z' || 'A' <= c <= 'Z')
  {
    if 'A' <= c <= 'Z' then (c as int + 32) as char
    else if '\U{C0}' <= c <= '\U{DE}' && c != '\U{D7}' then (c as int + 32) as char
    else if '\U{410}' <= c <= '\U{42F}' then (c as int + 32) as char
    else if '\U{400}' <= c <= '\U{40F}' then (c as int + 80) as char
    else c
  }

  /** `s.lower()` */
  function Lower(s: string): (r: string)
    ensures |r| == |s|
    ensures forall i :: 0 <= i < |s| ==> r[i] == LowerChar(s[i])
  {
    seq(|s|, i requires 0 <= i < |s| => LowerChar(s[i]))
  }

  /** Lowering twice is lowering once. */
  lemma LowerIdempotent(s: string)
    ensures Lower(Lower(s)) == Lower(s)
  {
  }

  function DigitChar(d: nat): (c: char)
    requires d < 10
    ensures '0' <= c <= '9'
  {
    ('0' as int + d) as char
  }

  /** `str(n)` for a non-negative integer: decimal digits, no leading zeros. */
  function NatToString(n: nat): (s: string)
    ensures |s| >= 1
    ensures forall i :: 0 <= i < |s| ==> '0' <= s[i] <= '9'
    ensures |s| > 1 ==> s[0] != '0'
  {
    if n < 10 then [DigitChar(n)] else NatToString(n / 10) + [DigitChar(n % 10)]
  }

  /** `str(i)` for any integer. */
  function IntToString(i: int): (s: string)
    ensures |s| >= 1
    ensures forall k :: 0 <= k < |s| ==> s[k] == '-' || '0' <= s[k] <= '9'
  {
    if i < 0 then "-" + NatToString(-i) else NatToString(i)
  }

  /** The value of one digit character in `base`, if it is one. */
  function DigitVal(c: char, base: nat): (v: Option<nat>)
    ensures v.Some? ==> v.value < base
  {
    var d :=
      if '0' <= c <= '9' then c as int - '0' as int
      else if 'a' <= c <= 'z' then c as int - 'a' as int + 10
      else if 'A' <= c <= 'Z' then c as int - 'A' as int + 10
      else 99;
    if d < base then Some(d) else None
  }

  /** The value of `digit (['_'] digit)*`, read from the last character back. */
  function DigitsValue(s: string, base: nat): Option<nat>
    decreases |s|
  {
    if |s| == 0 then None
    else
      match DigitVal(s[|s| - 1], base)
      case None => None
      case Some(d) =>
        if |s| == 1 then Some(d)
        else
          var init := s[..|s| - 1];
          var init' := if init[|init| - 1] == '_' then init[..|init| - 1] else init;
          match DigitsValue(init', base)
          case None => None
          case Some(v) => Some(v * base + d)
  }

  /** The base prefix Python's `int(s, base)` tolerates for bases 2, 8 and 16. */
  function BasePrefix(base: nat): string
  {
    if base == 16 then "0x" else if base == 8 then "0o" else if base == 2 then "0b" else ""
  }

  /** Splits off an optional leading sign: (is it '-', the rest). */
  function SplitSign(t: string): (r: (bool, string))
    ensures (|t| > 0 && (t[0] == '-' || t[0] == '+')) ==> r == (t[0] == '-', t[1..])
    ensures !(|t| > 0 && (t[0] == '-' || t[0] == '+')) ==> r == (false, t)
  {
    if |t| > 0 && (t[0] == '-' || t[0] == '+') then (t[0] == '-', t[1..]) else (false, t)
  }

  /** Drops the base prefix of bases 2, 8 and 16 (any case), and one
      underscore right after it. */
  function DropBasePrefix(u: string, base: nat): string
  {
    var pre := BasePrefix(base);
    if pre != "" && |u| >= 2 && Lower(u[..2]) == pre then
      (if |u| > 2 && u[2] == '_' then u[3..] else u[2..])
    else u
  }

  /** `int(s, base)`: surrounding whitespace, then an optional sign, then for
      bases 2, 8 and 16 an optional `0x`/`0o`/`0b` prefix (any case) that may
      be followed by one underscore, then digits with single underscores
      between them. None stands for the `ValueError` Python raises. */
  function ParseInt(s: string, base: nat): (r: Option<int>)
    requires 2 <= base <= 36
  {
    var (neg, unsigned) := SplitSign(Strip(s));
    match DigitsValue(DropBasePrefix(unsigned, base), base)
    case None => None
    case Some(v) =>
      var i: int := if neg then -(v as int) else v;
      Some(i)
  }

  /** Reading back the decimal digits of `n` gives `n`. */
  lemma {:induction false} DigitsValueOfNat(n: nat)
    ensures DigitsValue(NatToString(n), 10) == Some(n)
  {
    if n >= 10 {
      var s := NatToString(n);
      var p := NatToString(n / 10);
      assert s == p + [DigitChar(n % 10)];
      assert s[..|s| - 1] == p;
      assert p[|p| - 1] != '_';
      DigitsValueOfNat(n / 10);
    }
  }

  /** `ParseInt` of a string that is already stripped, has no sign or base
      prefix: the digit value. */
  lemma ParseIntPlain(t: string, s: string, neg: bool, v: nat)
    requires Strip(t) == t && SplitSign(t) == (neg, s) && DropBasePrefix(s, 10) == s
    requires DigitsValue(s, 10) == Some(v)
    ensures ParseInt(t, 10) == Some(if neg then -(v as int) else v as int)
  {
  }

  lemma DigitsStrip(s: string)
    requires |s| >= 1 && forall i :: 0 <= i < |s| ==> '0' <= s[i] <= '9'
    ensures Strip(s) == s
    ensures Strip("-" + s) == "-" + s
  {
    assert !IsSpace(s[0]) && !IsSpace(s[|s| - 1]);
    StripNoEdgeSpace(s);
    var t := "-" + s;
    assert t[|t| - 1] == s[|s| - 1];
    StripNoEdgeSpace(t);
  }

  lemma DigitsNoPrefix(s: string)
    requires |s| >= 1 && forall i :: 0 <= i < |s| ==> '0' <= s[i] <= '9'
    ensures SplitSign(s) == (false, s)
    ensures SplitSign("-" + s) == (true, s)
    ensures DropBasePrefix(s, 10) == s
  {
    assert ("-" + s)[1..] == s;
  }

  lemma NatRoundTrip(n: nat)
    ensures ParseInt(NatToString(n), 10) == Some(n as int)
  {
    var s := NatToString(n);
    DigitsValueOfNat(n);
    DigitsStrip(s);
    DigitsNoPrefix(s);
    ParseIntPlain(s, s, false, n);
  }

  lemma ParseIntOfEqual(s: string, t: string, v: int)
    requires s == t && ParseInt(t, 10) == Some(v)
    ensures ParseInt(s, 10) == Some(v)
  {
  }

  /** `int(str(i)) == i` */
  lemma IntRoundTrip(i: int)
    ensures ParseInt(IntToString(i), 10) == Some(i)
  {
    if i < 0 {
      NegIntRoundTrip(i);
    } else {
      NonNegIntRoundTrip(i);
    }
  }

  lemma NegIntRoundTrip(i: int)
    requires i < 0
    ensures ParseInt(IntToString(i), 10) == Some(i)
  {
    var s := NatToString(-i);
    DigitsValueOfNat(-i);
    NegDigitsParse(s, -i);
    ParseIntOfEqual(IntToString(i), "-" + s, i);
  }

  /** A minus sign before plain decimal digits negates their value. */
  lemma NegDigitsParse(s: string, v: nat)
    requires |s| >= 1 && forall i :: 0 <= i < |s| ==> '0' <= s[i] <= '9'
    requires DigitsValue(s, 10) == Some(v)
    ensures ParseInt("-" + s, 10) == Some(-(v as int))
  {
    DigitsStrip(s);
    DigitsNoPrefix(s);
    ParseIntPlain("-" + s, s, true, v);
  }

  lemma NonNegIntRoundTrip(i: int)
    requires i >= 0
    ensures ParseInt(IntToString(i), 10) == Some(i)
  {
    NatRoundTrip(i);
    ParseIntOfEqual(IntToString(i), NatToString(i), i);
  }

  /** Python's `str(x)` for a value that is either a string or `None`. */
  function StrOpt(o: Option<string>): (r: string)
    ensures o.Some? ==> r == o.value
    ensures o.None? ==> r == "None"
  {
    if o.Some? then o.value else "None"
  }

  /** Python truthiness of an optional string: `None` and "" are false. */
  predicate TruthyStr(o: Option<string>) {
    o.Some? && o.value != ""
  }

  function QuoteChar(c: char): string {
    if c == '&' then "&amp;" else if c == '<' then "&lt;" else if c == '>' then "&gt;" else [c]
  }

  /** The HTML quoting aiogram applies (`html.escape(s, quote=False)`). */
  function HtmlQuote(s: string): (r: string)
    ensures '<' !in r && '>' !in r
  {
    if s == [] then ""
    else
      QuoteChar(s[0]) + HtmlQuote(s[1..])
  }

  /** Undoes `HtmlQuote`: the three entities it writes become their
      characters again. */
  function HtmlUnquote(s: string): string
  {
    if s == [] then ""
    else if StartsWith(s, "&amp;") then "&" + HtmlUnquote(s[5..])
    else if StartsWith(s, "&lt;") then "<" + HtmlUnquote(s[4..])
    else if StartsWith(s, "&gt;") then ">" + HtmlUnquote(s[4..])
    else [s[0]] + HtmlUnquote(s[1..])
  }

  /** Unquoting reads one quoted character back off the front. */
  lemma UnquoteQuoteChar(c: char, t: string)
    ensures HtmlUnquote(QuoteChar(c) + t) == [c] + HtmlUnquote(t)
  {
    var q := QuoteChar(c) + t;
    if c == '&' {
      assert q[..5] == "&amp;" && q[5..] == t;
    } else if c == '<' {
      assert q[..4] == "&lt;" && q[4..] == t;
      assert !StartsWith(q, "&amp;") by { assert q[1] == 'l'; }
    } else if c == '>' {
      assert q[..4] == "&gt;" && q[4..] == t;
      assert !StartsWith(q, "&amp;") by { assert q[1] == 'g'; }
      assert !StartsWith(q, "&lt;") by { assert q[1] == 'g'; }
    } else {
      assert q[0] == c && q[1..] == t;
    }
  }

  /** Quoting loses nothing. */
  lemma {:induction false} HtmlQuoteRoundTrip(s: string)
    ensures HtmlUnquote(HtmlQuote(s)) == s
    decreases |s|
  {
    if s != [] {
      UnquoteQuoteChar(s[0], HtmlQuote(s[1..]));
      HtmlQuoteRoundTrip(s[1..]);
      assert s == [s[0]] + s[1..];
    }
  }

  /** aiogram's `hbold`. */
  function Bold(s: string): (r: string)
    ensures StartsWith(r, "<b>") && EndsWith(r, "</b>")
  {
    var r := "<b>" + HtmlQuote(s) + "</b>";
    assert r[..3] == "<b>";
    assert r[|r| - 4..] == "</b>";
    r
  }
}
