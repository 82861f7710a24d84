/** The share-link patterns: a regular expression made of single-character
    classes and optional hyphens, matched case-insensitively. `Lang` is the
    meaning of such a pattern (the strings it matches as a whole);
    `Consume` is the matcher, which reads the input left to right without
    backtracking. `re.match` is a match of some prefix, `re.fullmatch` a
    match of the whole string. */
module ShareLinks {
  import opened Wrappers
  import opened PyStr

  /** One position of a pattern: `[a-f0-9]`, a literal character, `[89ab]`,
      or an optional `-?`. */
  datatype Atom = Hex | Lit(c: char) | Variant | OptHyphen

  /** With `re.I`, letters match in either case. */
  predicate AtomMatches(a: Atom, d: char) {
    match a
    case Hex => ('0' <= d <= '9') || ('a' <= d <= 'f') || ('A' <= d <= 'F')
    case Lit(c) => LowerChar(c) == LowerChar(d)
    case Variant => d == '8' || d == '9' || d == 'a' || d == 'b' || d == 'A' || d == 'B'
    case OptHyphen => false
  }

  /** The strings the pattern matches as a whole. */
  predicate Lang(p: seq<Atom>, w: string)
    decreases |p|
  {
    if p == [] then w == []
    else if p[0] == OptHyphen then
      Lang(p[1..], w) || (w != [] && w[0] == '-' && Lang(p[1..], w[1..]))
    else
      w != [] && AtomMatches(p[0], w[0]) && Lang(p[1..], w[1..])
  }

  /** Every optional hyphen is followed by an atom that cannot match '-':
      then there is never a reason to skip a hyphen that is present. */
  predicate WellFormed(p: seq<Atom>) {
    forall i :: 0 <= i < |p| && p[i] == OptHyphen ==>
      i + 1 < |p| && p[i + 1] != OptHyphen && !AtomMatches(p[i + 1], '-')
  }

  /** The matcher: what is left of `s` after the pattern, or `None`. */
  function Consume(p: seq<Atom>, s: string): (r: Option<string>)
    ensures r.Some? ==> |r.value| <= |s|
    decreases |p|
  {
    if p == [] then Some(s)
    else if p[0] == OptHyphen then
      if s != [] && s[0] == '-' then Consume(p[1..], s[1..]) else Consume(p[1..], s)
    else if s != [] && AtomMatches(p[0], s[0]) then Consume(p[1..], s[1..])
    else None
  }

  lemma WellFormedTail(p: seq<Atom>)
    requires p != [] && WellFormed(p)
    ensures WellFormed(p[1..])
  {
    forall i | 0 <= i < |p[1..]| && p[1..][i] == OptHyphen
      ensures i + 1 < |p[1..]| && p[1..][i + 1] != OptHyphen && !AtomMatches(p[1..][i + 1], '-')
    {
      assert p[i + 1] == OptHyphen;
    }
  }

  /** What the matcher leaves is a suffix whose prefix the pattern matches. */
  lemma {:induction false} ConsumeSound(p: seq<Atom>, s: string)
    requires Consume(p, s).Some?
    ensures var rest := Consume(p, s).value;
      s[|s| - |rest|..] == rest && Lang(p, s[..|s| - |rest|])
    decreases |p|
  {
    if p == [] {
    } else if p[0] == OptHyphen {
      if s != [] && s[0] == '-' {
        ConsumeSound(p[1..], s[1..]);
        var rest := Consume(p, s).value;
        assert s[..|s| - |rest|][1..] == s[1..][..|s[1..]| - |rest|];
      } else {
        ConsumeSound(p[1..], s);
      }
    } else {
      ConsumeSound(p[1..], s[1..]);
      var rest := Consume(p, s).value;
      assert s[..|s| - |rest|][1..] == s[1..][..|s[1..]| - |rest|];
    }
  }

  /** A pattern starting with a one-character atom matches only words that
      start with a matching character. */
  lemma LangHead(p: seq<Atom>, w: string)
    requires p != [] && p[0] != OptHyphen && Lang(p, w)
    ensures w != [] && AtomMatches(p[0], w[0])
  {
  }

  /** For a well-formed pattern, any prefix the pattern matches is exactly
      the part the matcher consumes. */
  lemma {:induction false} ConsumeComplete(p: seq<Atom>, s: string, w: string)
    requires WellFormed(p) && Lang(p, w) && |w| <= |s| && s[..|w|] == w
    ensures Consume(p, s) == Some(s[|w|..])
    decreases |p|
  {
    if p == [] {
    } else {
      WellFormedTail(p);
      if p[0] == OptHyphen {
        assert 1 < |p| && p[1] != OptHyphen && !AtomMatches(p[1], '-');
        if s != [] && s[0] == '-' {
          assert w != [] && w[0] == '-' && Lang(p[1..], w[1..]);
          ConsumeComplete(p[1..], s[1..], w[1..]);
          assert s[1..][|w| - 1..] == s[|w|..];
        } else {
          assert !(w != [] && w[0] == '-');
          ConsumeComplete(p[1..], s, w);
        }
      } else {
        assert w[0] == s[0];
        ConsumeComplete(p[1..], s[1..], w[1..]);
        assert s[1..][|w| - 1..] == s[|w|..];
      }
    }
  }

  /** `re.fullmatch`: the matcher consumes everything exactly when the
      pattern matches the whole string. */
  lemma FullMatchCorrect(p: seq<Atom>, s: string)
    requires WellFormed(p)
    ensures Consume(p, s) == Some([]) <==> Lang(p, s)
  {
    if Consume(p, s) == Some([]) {
      ConsumeSound(p, s);
      assert s[..|s|] == s;
    }
    if Lang(p, s) {
      assert s[..|s|] == s;
      ConsumeComplete(p, s, s);
    }
  }

  /** `re.match`: the matcher succeeds exactly when the pattern matches some
      prefix of the string. */
  lemma PrefixMatchCorrect(p: seq<Atom>, s: string)
    requires WellFormed(p)
    ensures Consume(p, s).Some? <==> exists k :: 0 <= k <= |s| && Lang(p, s[..k])
  {
    if Consume(p, s).Some? {
      ConsumeSound(p, s);
      var k := |s| - |Consume(p, s).value|;
      assert 0 <= k <= |s| && Lang(p, s[..k]);
    }
    if exists k :: 0 <= k <= |s| && Lang(p, s[..k]) {
      var k :| 0 <= k <= |s| && Lang(p, s[..k]);
      ConsumeComplete(p, s, s[..k]);
    }
  }

  function Repeat(a: Atom, n: nat): (p: seq<Atom>)
    ensures |p| == n && forall i :: 0 <= i < n ==> p[i] == a
  {
    seq(n, i => a)
  }

  /** `[a-f0-9]{8}-?[a-f0-9]{4}-?4[a-f0-9]{3}-?[89ab][a-f0-9]{3}-?[a-f0-9]{12}` */
  function UuidPattern(): seq<Atom> {
    Repeat(Hex, 8) + [OptHyphen] + Repeat(Hex, 4) + [OptHyphen] + [Lit('4')] + Repeat(Hex, 3)
      + [OptHyphen] + [Variant] + Repeat(Hex, 3) + [OptHyphen] + Repeat(Hex, 12)
  }

  /** The literal characters of a string, one atom each. */
  function Literal(s: string): (p: seq<Atom>)
    ensures |p| == |s| && forall i :: 0 <= i < |s| ==> p[i] == Lit(s[i])
  {
    seq(|s|, i requires 0 <= i < |s| => Lit(s[i]))
  }

  lemma UuidPatternWellFormed()
    ensures WellFormed(UuidPattern())
  {
    var p := UuidPattern();
    assert p[8] == OptHyphen && p[13] == OptHyphen && p[18] == OptHyphen && p[23] == OptHyphen;
    forall i | 0 <= i < |p| && p[i] == OptHyphen
      ensures i + 1 < |p| && p[i + 1] != OptHyphen && !AtomMatches(p[i + 1], '-')
    {
      assert i == 8 || i == 13 || i == 18 || i == 23;
    }
  }

  /** `Validations.is_valid_share_link` of the main bot: a link that starts
      with the link type loses `{link_type}=` (if it is there), and the
      stripped rest must begin with a UUID. */
  function IsValidShareLink(link: string, linkType: string): (b: bool)
  {
    var l := if StartsWith(link, linkType) then RemovePrefix(link, linkType + "=") else link;
    Consume(UuidPattern(), Strip(l)).Some?
  }

  /** The check as a statement about the pattern: some prefix of the
      stripped rest is a UUID. */
  lemma IsValidShareLinkMeaning(link: string, linkType: string)
    ensures var l := if StartsWith(link, linkType) then RemovePrefix(link, linkType + "=") else link;
      IsValidShareLink(link, linkType) <==> exists k :: 0 <= k <= |Strip(l)| && Lang(UuidPattern(), Strip(l)[..k])
  {
    UuidPatternWellFormed();
    var l := if StartsWith(link, linkType) then RemovePrefix(link, linkType + "=") else link;
    PrefixMatchCorrect(UuidPattern(), Strip(l));
  }

  /** The second bot's pattern as written: inside the f-string the
      repetition counts `{8}`, `{4}`, `{3}` and `{12}` are replacement
      fields, so they become the literal digits `8`, `4`, `3`, `12`. */
  function SharePatternAsWritten(linkType: string): seq<Atom> {
    Literal(linkType + "=") + [Hex, Lit('8'), OptHyphen, Hex, Lit('4'), OptHyphen, Lit('4'), Hex, Lit('3'), OptHyphen,
      Variant, Hex, Lit('3'), OptHyphen, Hex, Lit('1'), Lit('2')]
  }

  /** The pattern the second bot evidently means: `{link_type}=` and a UUID,
      up to the end. */
  function SharePattern(linkType: string): seq<Atom> {
    Literal(linkType + "=") + UuidPattern()
  }

  /** `Validations.is_valid_share_link` of the second bot, as written. */
  function IsValidShareLinkAsWritten(link: string, linkType: string): bool {
    Consume(SharePatternAsWritten(linkType), Strip(link)) == Some([])
  }

  /** The corrected check: the whole stripped link is `{link_type}=` and a
      UUID. */
  function IsValidShareLinkFull(link: string, linkType: string): (b: bool)
  {
    Consume(SharePattern(linkType), Strip(link)) == Some([])
  }

  lemma SharePatternWellFormed(linkType: string)
    ensures WellFormed(SharePattern(linkType))
  {
    UuidPatternWellFormed();
    var n := |linkType + "="|;
    var p := SharePattern(linkType);
    forall i | 0 <= i < |p| && p[i] == OptHyphen
      ensures i + 1 < |p| && p[i + 1] != OptHyphen && !AtomMatches(p[i + 1], '-')
    {
      assert i >= n;
      assert p[i] == UuidPattern()[i - n];
      assert p[i + 1] == UuidPattern()[i - n + 1];
    }
  }

  /** The corrected check accepts exactly `{link_type}=` followed by a UUID
      and nothing else (after stripping). */
  lemma IsValidShareLinkFullMeaning(link: string, linkType: string)
    ensures IsValidShareLinkFull(link, linkType) <==> Lang(SharePattern(linkType), Strip(link))
  {
    SharePatternWellFormed(linkType);
    FullMatchCorrect(SharePattern(linkType), Strip(link));
  }

  /** The number of atoms that must consume a character. */
  function Required(p: seq<Atom>): (n: nat)
    ensures n <= |p|
    decreases |p|
  {
    if p == [] then 0 else (if p[0] == OptHyphen then 0 else 1) + Required(p[1..])
  }

  lemma {:induction false} RequiredConcat(p1: seq<Atom>, p2: seq<Atom>)
    ensures Required(p1 + p2) == Required(p1) + Required(p2)
    decreases |p1|
  {
    if p1 == [] {
      assert p1 + p2 == p2;
    } else {
      assert (p1 + p2)[1..] == p1[1..] + p2;
      RequiredConcat(p1[1..], p2);
    }
  }

  lemma {:induction false} RequiredRepeat(a: Atom, n: nat)
    requires a != OptHyphen
    ensures Required(Repeat(a, n)) == n
    decreases n
  {
    if n > 0 {
      assert Repeat(a, n)[1..] == Repeat(a, n - 1);
      RequiredRepeat(a, n - 1);
    }
  }

  lemma {:induction false} RequiredLiteral(t: string)
    ensures Required(Literal(t)) == |t|
    decreases |t|
  {
    if t != [] {
      assert Literal(t)[1..] == Literal(t[1..]);
      RequiredLiteral(t[1..]);
    }
  }

  /** A whole match is at least as long as the atoms that must consume a
      character and at most as long as the pattern. */
  lemma {:induction false} LangLength(p: seq<Atom>, w: string)
    requires Lang(p, w)
    ensures Required(p) <= |w| <= |p|
    decreases |p|
  {
    if p != [] {
      if p[0] == OptHyphen {
        if Lang(p[1..], w) {
          LangLength(p[1..], w);
        } else {
          LangLength(p[1..], w[1..]);
        }
      } else {
        LangLength(p[1..], w[1..]);
      }
    }
  }

  /** Words matching two patterns match the patterns' concatenation. */
  lemma {:induction false} LangConcat(p1: seq<Atom>, p2: seq<Atom>, w1: string, w2: string)
    requires Lang(p1, w1) && Lang(p2, w2)
    ensures Lang(p1 + p2, w1 + w2)
    decreases |p1|
  {
    if p1 == [] {
      assert p1 + p2 == p2 && w1 + w2 == w2;
    } else {
      assert (p1 + p2)[1..] == p1[1..] + p2;
      if p1[0] == OptHyphen && Lang(p1[1..], w1) {
        LangConcat(p1[1..], p2, w1, w2);
      } else {
        LangConcat(p1[1..], p2, w1[1..], w2);
        assert (w1 + w2)[1..] == w1[1..] + w2;
      }
    }
  }

  lemma {:induction false} LangRepeat(a: Atom, w: string)
    requires a != OptHyphen && forall i :: 0 <= i < |w| ==> AtomMatches(a, w[i])
    ensures Lang(Repeat(a, |w|), w)
    decreases |w|
  {
    if w != [] {
      assert Repeat(a, |w|)[1..] == Repeat(a, |w| - 1);
      assert forall i :: 0 <= i < |w[1..]| ==> w[1..][i] == w[i + 1];
      LangRepeat(a, w[1..]);
    }
  }

  lemma {:induction false} LangLiteral(t: string)
    ensures Lang(Literal(t), t)
    decreases |t|
  {
    if t != [] {
      assert Literal(t)[1..] == Literal(t[1..]);
      LangLiteral(t[1..]);
    }
  }

  predicate AllHex(g: string) {
    forall i :: 0 <= i < |g| ==> AtomMatches(Hex, g[i])
  }

  /** A group of hex digits and the hyphen after it. */
  lemma LangGroup(g: string)
    requires AllHex(g)
    ensures Lang(Repeat(Hex, |g|) + [OptHyphen], g + "-")
  {
    var h: seq<Atom> := [OptHyphen];
    LangRepeat(Hex, g);
    assert Lang(h, "-");
    LangConcat(Repeat(Hex, |g|), h, g, "-");
  }

  /** A one-character atom followed by a group of hex digits. */
  lemma LangLead(a: Atom, c: char, g: string)
    requires a != OptHyphen && AtomMatches(a, c) && AllHex(g)
    ensures Lang([a] + Repeat(Hex, |g|), [c] + g)
  {
    LangRepeat(Hex, g);
    assert ([a] + Repeat(Hex, |g|))[1..] == Repeat(Hex, |g|);
    assert ([c] + g)[1..] == g;
  }

  /** A hyphenated version-4 UUID, five groups of 8, 4, 4, 4 and 12 hex
      digits whose third group starts with 4 and fourth with a variant
      digit, is a whole match of the UUID pattern. */
  lemma UuidMatches(g1: string, g2: string, g3: string, v: char, g4: string, g5: string)
    requires |g1| == 8 && |g2| == 4 && |g3| == 3 && |g4| == 3 && |g5| == 12
    requires AllHex(g1) && AllHex(g2) && AllHex(g3) && AllHex(g4) && AllHex(g5) && AtomMatches(Variant, v)
    ensures Lang(UuidPattern(), g1 + "-" + g2 + "-4" + g3 + "-" + [v] + g4 + "-" + g5)
  {
    var h: seq<Atom> := [OptHyphen];
    var q1, w1 := Repeat(Hex, 8) + h, g1 + "-";
    var q2, w2 := Repeat(Hex, 4) + h, g2 + "-";
    var q3, w3 := [Lit('4')] + Repeat(Hex, 3), ['4'] + g3;
    var q4, w4 := [Variant] + Repeat(Hex, 3), [v] + g4;
    var q5, w5 := Repeat(Hex, 12), g5;
    LangGroup(g1);
    LangGroup(g2);
    LangLead(Lit('4'), '4', g3);
    assert Lang(h, "-");
    LangLead(Variant, v, g4);
    LangRepeat(Hex, g5);
    var p1, s1 := q1 + q2, w1 + w2;
    LangConcat(q1, q2, w1, w2);
    var p2, s2 := p1 + q3, s1 + w3;
    LangConcat(p1, q3, s1, w3);
    var p3, s3 := p2 + h, s2 + "-";
    LangConcat(p2, h, s2, "-");
    var p4, s4 := p3 + q4, s3 + w4;
    LangConcat(p3, q4, s3, w4);
    var p5, s5 := p4 + h, s4 + "-";
    LangConcat(p4, h, s4, "-");
    var p6, s6 := p5 + q5, s5 + w5;
    LangConcat(p5, q5, s5, w5);
    assert UuidPattern() == p6 by {
      UuidPatternGroups(h, q1, q2, q3, q4, q5);
    }
    assert g1 + "-" + g2 + "-4" + g3 + "-" + [v] + g4 + "-" + g5 == s6 by {
      UuidStringGroups(g1, g2, g3, v, g4, g5);
    }
  }

  lemma UuidPatternGroups(h: seq<Atom>, q1: seq<Atom>, q2: seq<Atom>, q3: seq<Atom>, q4: seq<Atom>, q5: seq<Atom>)
    requires h == [OptHyphen] && q1 == Repeat(Hex, 8) + h && q2 == Repeat(Hex, 4) + h
    requires q3 == [Lit('4')] + Repeat(Hex, 3) && q4 == [Variant] + Repeat(Hex, 3) && q5 == Repeat(Hex, 12)
    ensures UuidPattern() == q1 + q2 + q3 + h + q4 + h + q5
  {
  }

  lemma UuidStringGroups(g1: string, g2: string, g3: string, v: char, g4: string, g5: string)
    ensures g1 + "-" + g2 + "-4" + g3 + "-" + [v] + g4 + "-" + g5 ==
      (g1 + "-") + (g2 + "-") + (['4'] + g3) + "-" + ([v] + g4) + "-" + g5
  {
  }

  lemma UuidRequired()
    ensures Required(UuidPattern()) == 32
  {
    var h: seq<Atom> := [OptHyphen];
    RequiredRepeat(Hex, 8);
    RequiredRepeat(Hex, 4);
    RequiredRepeat(Hex, 3);
    RequiredRepeat(Hex, 12);
    var p1 := Repeat(Hex, 8) + h + Repeat(Hex, 4) + h;
    var p2 := [Lit('4')] + Repeat(Hex, 3) + h + [Variant];
    var p3 := Repeat(Hex, 3) + h + Repeat(Hex, 12);
    assert UuidPattern() == p1 + p2 + p3;
    RequiredConcat(p1 + p2, p3);
    RequiredConcat(p1, p2);
    RequiredConcat(Repeat(Hex, 8) + h + Repeat(Hex, 4), h);
    RequiredConcat(Repeat(Hex, 8) + h, Repeat(Hex, 4));
    RequiredConcat(Repeat(Hex, 8), h);
    RequiredConcat([Lit('4')] + Repeat(Hex, 3) + h, [Variant]);
    RequiredConcat([Lit('4')] + Repeat(Hex, 3), h);
    RequiredConcat([Lit('4')], Repeat(Hex, 3));
    RequiredConcat(Repeat(Hex, 3) + h, Repeat(Hex, 12));
    RequiredConcat(Repeat(Hex, 3), h);
  }

  /** The two checks of the second bot never accept the same link: the
      pattern as written takes at most `|link_type| + 18` characters, a
      link of the intended form has at least `|link_type| + 33`. */
  lemma ShareLinkChecksDisjoint(link: string, linkType: string)
    ensures IsValidShareLinkAsWritten(link, linkType) ==> |Strip(link)| <= |linkType| + 18
    ensures IsValidShareLinkFull(link, linkType) ==> |Strip(link)| >= |linkType| + 33
    ensures IsValidShareLinkFull(link, linkType) ==> !IsValidShareLinkAsWritten(link, linkType)
  {
    if IsValidShareLinkAsWritten(link, linkType) {
      ConsumeSound(SharePatternAsWritten(linkType), Strip(link));
      assert Strip(link)[..|Strip(link)|] == Strip(link);
      LangLength(SharePatternAsWritten(linkType), Strip(link));
    }
    if IsValidShareLinkFull(link, linkType) {
      IsValidShareLinkFullMeaning(link, linkType);
      LangLength(SharePattern(linkType), Strip(link));
      RequiredConcat(Literal(linkType + "="), UuidPattern());
      RequiredLiteral(linkType + "=");
      UuidRequired();
    }
  }

  /** So a link the second bot hands out for a real entity, `{link_type}=`
      and a hyphenated UUID, fails its own check as written and passes the
      corrected one. */
  lemma ShareLinkWithUuid(linkType: string, g1: string, g2: string, g3: string, v: char, g4: string, g5: string)
    requires |g1| == 8 && |g2| == 4 && |g3| == 3 && |g4| == 3 && |g5| == 12
    requires AllHex(g1) && AllHex(g2) && AllHex(g3) && AllHex(g4) && AllHex(g5) && AtomMatches(Variant, v)
    requires linkType == [] || !IsSpace(linkType[0])
    ensures var link := linkType + "=" + g1 + "-" + g2 + "-4" + g3 + "-" + [v] + g4 + "-" + g5;
      IsValidShareLinkFull(link, linkType) && !IsValidShareLinkAsWritten(link, linkType)
  {
    var u := g1 + "-" + g2 + "-4" + g3 + "-" + [v] + g4 + "-" + g5;
    var link := linkType + "=" + g1 + "-" + g2 + "-4" + g3 + "-" + [v] + g4 + "-" + g5;
    assert link == (linkType + "=") + u;
    UuidMatches(g1, g2, g3, v, g4, g5);
    LangLiteral(linkType + "=");
    LangConcat(Literal(linkType + "="), UuidPattern(), linkType + "=", u);
    assert link[|link| - 1] == g5[11];
    assert link[0] == (linkType + "=")[0];
    StripNoEdgeSpace(link);
    IsValidShareLinkFullMeaning(link, linkType);
    ShareLinkChecksDisjoint(link, linkType);
  }

  /** A hex digit or a hyphen. */
  predicate HexOrHyphen(c: char) {
    c == '-' || AtomMatches(Hex, c)
  }

  /** Every atom of the pattern matches hex digits only. */
  predicate HexAtoms(p: seq<Atom>) {
    forall a, c :: a in p && AtomMatches(a, c) ==> AtomMatches(Hex, c)
  }

  lemma HexAtomsConcat(p: seq<Atom>, q: seq<Atom>)
    requires HexAtoms(p) && HexAtoms(q)
    ensures HexAtoms(p + q)
  {
  }

  lemma HexAtomsRepeat(n: nat)
    ensures HexAtoms(Repeat(Hex, n))
  {
    forall a, c | a in Repeat(Hex, n) && AtomMatches(a, c)
      ensures AtomMatches(Hex, c)
    {
      var i :| 0 <= i < n && Repeat(Hex, n)[i] == a;
    }
  }

  lemma UuidHexAtoms()
    ensures HexAtoms(UuidPattern())
  {
    var h: seq<Atom> := [OptHyphen];
    assert HexAtoms(h) && HexAtoms([Lit('4')]) && HexAtoms([Variant]);
    HexAtomsRepeat(8);
    HexAtomsRepeat(4);
    HexAtomsRepeat(3);
    HexAtomsRepeat(12);
    var p := Repeat(Hex, 8);
    HexAtomsConcat(p, h);
    p := p + h;
    HexAtomsConcat(p, Repeat(Hex, 4));
    p := p + Repeat(Hex, 4);
    HexAtomsConcat(p, h);
    p := p + h;
    HexAtomsConcat(p, [Lit('4')]);
    p := p + [Lit('4')];
    HexAtomsConcat(p, Repeat(Hex, 3));
    p := p + Repeat(Hex, 3);
    HexAtomsConcat(p, h);
    p := p + h;
    HexAtomsConcat(p, [Variant]);
    p := p + [Variant];
    HexAtomsConcat(p, Repeat(Hex, 3));
    p := p + Repeat(Hex, 3);
    HexAtomsConcat(p, h);
    p := p + h;
    HexAtomsConcat(p, Repeat(Hex, 12));
    p := p + Repeat(Hex, 12);
    assert p == UuidPattern();
  }

  /** What such a pattern matches is made of hex digits and hyphens. */
  lemma {:induction false} LangHexOrHyphen(p: seq<Atom>, w: string)
    requires HexAtoms(p) && Lang(p, w)
    ensures forall i :: 0 <= i < |w| ==> HexOrHyphen(w[i])
    decreases |p|
  {
    if p != [] {
      assert HexAtoms(p[1..]) by {
        forall a, c | a in p[1..] && AtomMatches(a, c)
          ensures AtomMatches(Hex, c)
        {
          assert a in p;
        }
      }
      if p[0] == OptHyphen && Lang(p[1..], w) {
        LangHexOrHyphen(p[1..], w);
      } else {
        assert p[0] in p;
        LangHexOrHyphen(p[1..], w[1..]);
        forall i | 0 <= i < |w|
          ensures HexOrHyphen(w[i])
        {
          if i > 0 {
            assert w[i] == w[1..][i - 1];
          }
        }
      }
    }
  }

  /** A UUID has at least 32 characters, all hex digits and hyphens: no
      blank, no `=`, no `#`. */
  lemma UuidChars(w: string)
    requires Lang(UuidPattern(), w)
    ensures |w| >= 32
    ensures forall i :: 0 <= i < |w| ==> HexOrHyphen(w[i])
  {
    UuidHexAtoms();
    LangHexOrHyphen(UuidPattern(), w);
    LangLength(UuidPattern(), w);
    UuidRequired();
  }

  const SampleLink := "test=123e4567-e89b-42d3-a456-426614174000"

  lemma SampleHex()
    ensures AllHex("123e4567") && AllHex("e89b") && AllHex("2d3") && AllHex("456") && AllHex("426614174000")
  {
  }

  lemma SampleParts(g1: string, g2: string, g3: string, g4: string, g5: string)
    requires g1 == "123e4567" && g2 == "e89b" && g3 == "2d3" && g4 == "456" && g5 == "426614174000"
    ensures "test" + "=" + g1 + "-" + g2 + "-4" + g3 + "-" + ['a'] + g4 + "-" + g5 == SampleLink
  {
  }

  /** An instance: `test=123e4567-e89b-42d3-a456-426614174000`. */
  lemma SampleShareLink()
    ensures IsValidShareLinkFull(SampleLink, "test") && !IsValidShareLinkAsWritten(SampleLink, "test")
  {
    SampleHex();
    var g1, g2, g3, g4, g5 := "123e4567", "e89b", "2d3", "456", "426614174000";
    ShareLinkWithUuid("test", g1, g2, g3, 'a', g4, g5);
    SampleParts(g1, g2, g3, g4, g5);
  }
}
