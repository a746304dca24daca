/** Exactly which request bodies the hand-written mode parser accepts. */
module ModeTexts {
  import opened Wrappers
  import opened Sequences
  import opened PeerRecords
  import opened Agent

  predicate Blank(s: string) {
    forall c :: c in s ==> IsWhitespace(c)
  }

  /** The white space around the tokens of a body. */
  datatype Gaps = Gaps(before: string, inside: string, named: string, followed: string, valued: string, closed: string)

  predicate AllBlank(g: Gaps) {
    Blank(g.before) && Blank(g.inside) && Blank(g.named) && Blank(g.followed) && Blank(g.valued) && Blank(g.closed)
  }

  /** What follows the key's closing quote, up to the value's. */
  function Value(named: string, followed: string, mode: string): string {
    named + (":" + (followed + ("\"" + (mode + "\""))))
  }

  function Member(value: string): string {
    "\"" + ("mode\"" + value)
  }

  function Body(g: Gaps, mode: string): string {
    g.before + ("{" + (g.inside + Member(Value(g.named, g.followed, mode)) + g.valued) + "}") + g.closed
  }

  // ----- trimming and stripping -----

  lemma {:induction false} TrimStartSkips(gap: string, rest: string)
    requires Blank(gap)
    ensures TrimStart(gap + rest) == TrimStart(rest)
  {
    if gap == [] {
      assert gap + rest == rest;
    } else {
      assert gap[0] in gap;
      assert (gap + rest)[1..] == gap[1..] + rest;
      TrimStartSkips(gap[1..], rest);
    }
  }

  lemma {:induction false} TrimEndSkips(rest: string, gap: string)
    requires Blank(gap)
    ensures TrimEnd(rest + gap) == TrimEnd(rest)
  {
    if gap == [] {
      assert rest + gap == rest;
    } else {
      assert gap[|gap| - 1] in gap;
      assert (rest + gap)[..|rest + gap| - 1] == rest + gap[..|gap| - 1];
      TrimEndSkips(rest, gap[..|gap| - 1]);
    }
  }

  lemma Associates(a: string, b: string, c: string)
    ensures a + (b + c) == a + b + c
  {}

  lemma BlankConcat(a: string, b: string)
    requires Blank(a) && Blank(b)
    ensures Blank(a + b)
  {}

  lemma {:induction false} TrimStartLeaves(s: string) returns (gap: string)
    ensures Blank(gap) && s == gap + TrimStart(s)
  {
    if s != [] && IsWhitespace(s[0]) {
      var rest := TrimStartLeaves(s[1..]);
      gap := [s[0]] + rest;
      BlankConcat([s[0]], rest);
      Associates([s[0]], rest, TrimStart(s[1..]));
      assert s == [s[0]] + s[1..];
    } else {
      gap := [];
    }
  }

  lemma {:induction false} TrimEndLeaves(s: string) returns (gap: string)
    ensures Blank(gap) && s == TrimEnd(s) + gap
  {
    if s != [] && IsWhitespace(s[|s| - 1]) {
      var rest := TrimEndLeaves(s[..|s| - 1]);
      gap := rest + [s[|s| - 1]];
      BlankConcat(rest, [s[|s| - 1]]);
      Associates(TrimEnd(s[..|s| - 1]), rest, [s[|s| - 1]]);
      assert s == s[..|s| - 1] + [s[|s| - 1]];
    } else {
      gap := [];
    }
  }

  lemma TrimLeaves(s: string) returns (before: string, after: string)
    ensures Blank(before) && Blank(after) && s == before + Trim(s) + after
  {
    before := TrimStartLeaves(s);
    var rest := TrimStart(s);
    after := TrimEndLeaves(rest);
    Associates(before, TrimEnd(rest), after);
  }

  lemma {:induction false} TrimStartIsSolid(s: string)
    ensures TrimStart(s) != "" ==> !IsWhitespace(TrimStart(s)[0])
  {
    if s != "" && IsWhitespace(s[0]) {
      TrimStartIsSolid(s[1..]);
    }
  }

  lemma {:induction false} TrimEndIsSolid(s: string)
    ensures TrimEnd(s) != "" ==> TrimEnd(s)[0] == s[0] && !IsWhitespace(TrimEnd(s)[|TrimEnd(s)| - 1])
  {
    if s != "" && IsWhitespace(s[|s| - 1]) {
      TrimEndIsSolid(s[..|s| - 1]);
    }
  }

  /** A trimmed text neither begins nor ends with white space. */
  lemma TrimIsSolid(s: string)
    ensures Trim(s) != "" ==> !IsWhitespace(Trim(s)[0]) && !IsWhitespace(Trim(s)[|Trim(s)| - 1])
  {
    TrimStartIsSolid(s);
    TrimEndIsSolid(TrimStart(s));
  }

  lemma TrimPadded(before: string, solid: string, after: string)
    requires Blank(before) && Blank(after)
    requires solid != "" && !IsWhitespace(solid[0]) && !IsWhitespace(solid[|solid| - 1])
    ensures Trim(before + solid + after) == solid
  {
    Associates(before, solid, after);
    TrimStartSkips(before, solid + after);
    assert TrimStart(solid + after) == solid + after;
    TrimEndSkips(solid, after);
  }

  lemma Stripped(affix: string, s: string)
    ensures StripPrefix(affix + s, affix) == Some(s)
    ensures StripSuffix(s + affix, affix) == Some(s)
  {
    assert (affix + s)[..|affix|] == affix && (affix + s)[|affix|..] == s;
    assert (s + affix)[|s|..] == affix && (s + affix)[..|s|] == s;
  }

  lemma StripsApart(s: string, affix: string)
    ensures StripPrefix(s, affix).Some? ==> s == affix + StripPrefix(s, affix).value
    ensures StripSuffix(s, affix).Some? ==> s == StripSuffix(s, affix).value + affix
  {}

  /** White space and then a token. */
  lemma SkipsToToken(gap: string, token: string, rest: string)
    requires Blank(gap) && token != "" && !IsWhitespace(token[0])
    ensures StripPrefix(TrimStart(gap + (token + rest)), token) == Some(rest)
  {
    TrimStartSkips(gap, token + rest);
    assert TrimStart(token + rest) == token + rest;
    Stripped(token, rest);
  }

  lemma SkippedToToken(s: string, token: string) returns (gap: string)
    requires StripPrefix(TrimStart(s), token).Some?
    ensures Blank(gap) && s == gap + (token + StripPrefix(TrimStart(s), token).value)
  {
    gap := TrimStartLeaves(s);
    StripsApart(TrimStart(s), token);
  }

  // ----- what is parsed from a body of the right shape -----

  lemma KnownIsPlain(mode: string, contract: bool)
    requires KnownMode(mode, contract)
    ensures forall c :: c in mode ==> !Refused(c) && c != '"'
  {}

  lemma ValueIsParsed(named: string, followed: string, mode: string, contract: bool)
    requires Blank(named) && Blank(followed) && KnownMode(mode, contract)
    ensures ParseModeValue(Value(named, followed, mode), contract) == Some(mode)
  {
    var quoted := mode + "\"";
    SkipsToToken(named, ":", followed + ("\"" + quoted));
    SkipsToToken(followed, "\"", quoted);
    KnownModeIsRead(mode, contract);
  }

  lemma KnownModeIsRead(mode: string, contract: bool)
    requires KnownMode(mode, contract)
    ensures ReadMode(mode + "\"", contract) == Some(mode)
  {
    KnownIsPlain(mode, contract);
    assert mode + "\"" == mode + ['"'] + "";
    SplitOnceAt(mode, '"', "");
  }

  lemma MemberIsParsed(value: string)
    ensures StripPrefix(Member(value), "\"") == Some("mode\"" + value)
    ensures SplitOnce("mode\"" + value, '"') == Some(("mode", value))
  {
    Stripped("\"", "mode\"" + value);
    assert "mode\"" + value == "mode" + ['"'] + value;
    assert '"' !in "mode";
    SplitOnceAt("mode", '"', value);
  }

  lemma BracesAreStripped(before: string, inside: string, core: string, valued: string, closed: string)
    requires Blank(before) && Blank(inside) && Blank(valued) && Blank(closed)
    requires core != "" && !IsWhitespace(core[0]) && !IsWhitespace(core[|core| - 1])
    ensures ObjectBody(before + ("{" + (inside + core + valued) + "}") + closed) == Some(core)
  {
    var inner := inside + core + valued;
    TrimPadded(before, "{" + inner + "}", closed);
    Associates("{", inner, "}");
    Stripped("{", inner + "}");
    Stripped("}", inner);
    TrimPadded(inside, core, valued);
  }

  lemma MemberIsSolid(g: Gaps, mode: string)
    ensures var core := Member(Value(g.named, g.followed, mode));
      core != "" && core[0] == '"' && core[|core| - 1] == '"'
  {}

  lemma BodyIsParsed(g: Gaps, mode: string, contract: bool)
    requires AllBlank(g) && KnownMode(mode, contract)
    ensures ParseMode(Body(g, mode), contract) == Some(mode)
  {
    var value := Value(g.named, g.followed, mode);
    MemberIsSolid(g, mode);
    BracesAreStripped(g.before, g.inside, Member(value), g.valued, g.closed);
    MemberIsParsed(value);
    ValueIsParsed(g.named, g.followed, mode, contract);
  }

  // ----- the shape of a body that is parsed -----

  lemma ParsedValueHasShape(rest: string, contract: bool) returns (named: string, followed: string, tail: string)
    requires ParseModeValue(rest, contract).Some?
    ensures Blank(named) && Blank(followed) && Blank(tail) && KnownMode(ParseModeValue(rest, contract).value, contract)
    ensures rest == Value(named, followed, ParseModeValue(rest, contract).value) + tail
  {
    named := SkippedToToken(rest, ":");
    var value := StripPrefix(TrimStart(rest), ":").value;
    followed := SkippedToToken(value, "\"");
    var quoted := StripPrefix(TrimStart(value), "\"").value;
    tail := ReadModeHasShape(quoted, contract);
    ValueWithTail(named, followed, ReadMode(quoted, contract).value, tail, quoted);
  }

  lemma ReadModeHasShape(quoted: string, contract: bool) returns (tail: string)
    requires ReadMode(quoted, contract).Some?
    ensures Blank(tail) && KnownMode(ReadMode(quoted, contract).value, contract)
    ensures quoted == ReadMode(quoted, contract).value + ['"'] + tail
  {
    SplitOnceParts(quoted, '"');
    tail := SplitOnce(quoted, '"').value.1;
    var before, after := TrimLeaves(tail);
    BlankBetween(tail, before, after);
  }

  lemma BlankBetween(s: string, before: string, after: string)
    requires Trim(s) == "" && s == before + Trim(s) + after && Blank(before) && Blank(after)
    ensures Blank(s)
  {}

  lemma ValueWithTail(named: string, followed: string, mode: string, tail: string, quoted: string)
    requires quoted == mode + ['"'] + tail
    ensures named + (":" + (followed + ("\"" + quoted))) == Value(named, followed, mode) + tail
  {}

  lemma StrippedBracesHaveShape(body: string) returns (before: string, inside: string, valued: string, closed: string)
    requires ObjectBody(body).Some?
    ensures Blank(before) && Blank(inside) && Blank(valued) && Blank(closed)
    ensures body == before + ("{" + (inside + ObjectBody(body).value + valued) + "}") + closed
  {
    before, closed := TrimLeaves(body);
    StripsApart(Trim(body), "{");
    var rest := StripPrefix(Trim(body), "{").value;
    StripsApart(rest, "}");
    var inner := StripSuffix(rest, "}").value;
    Associates("{", inner, "}");
    inside, valued := TrimLeaves(inner);
  }

  lemma ParsedMemberHasShape(core: string, value: string)
    requires StripPrefix(core, "\"").Some? && SplitOnce(StripPrefix(core, "\"").value, '"') == Some(("mode", value))
    ensures core == Member(value)
  {
    StripsApart(core, "\"");
    SplitOnceParts(StripPrefix(core, "\"").value, '"');
    QuoteOpens(value);
  }

  lemma QuoteOpens(value: string)
    ensures "mode" + ['"'] + value == "mode\"" + value
  {
    assert "mode" + ['"'] == "mode\"";
  }

  lemma MemberWithTail(value: string, tail: string, valued: string, inside: string)
    ensures inside + Member(value + tail) + valued == inside + Member(value) + (tail + valued)
  {}

  lemma ParsedHasShape(body: string, contract: bool) returns (g: Gaps)
    requires ParseMode(body, contract).Some?
    ensures AllBlank(g) && KnownMode(ParseMode(body, contract).value, contract)
      && body == Body(g, ParseMode(body, contract).value)
  {
    var before, inside, valued, closed := StrippedBracesHaveShape(body);
    var core := ObjectBody(body).value;
    var rest := SplitOnce(StripPrefix(core, "\"").value, '"').value.1;
    ParsedMemberHasShape(core, rest);
    var named, followed, tail := ParsedValueHasShape(rest, contract);
    g := Gaps(before, inside, named, followed, tail + valued, closed);
    MemberWithTail(Value(named, followed, ParseMode(body, contract).value), tail, valued, inside);
  }

  /**
   * A body is accepted for a mode exactly when it is one object with the one member `"mode"`, white
   * space between tokens only, no escapes, and a mode known to that route.
   */
  lemma ParseModeAcceptsExactly(body: string, contract: bool, mode: string)
    ensures ParseMode(body, contract) == Some(mode) <==>
      && (mode == "host" || mode == "cliente" || (mode == "client" && !contract))
      && exists g :: AllBlank(g) && body == Body(g, mode)
  {
    if ParseMode(body, contract) == Some(mode) {
      var g := ParsedHasShape(body, contract);
    }
    if KnownMode(mode, contract) {
      forall g | AllBlank(g) && body == Body(g, mode) ensures ParseMode(body, contract) == Some(mode) {
        BodyIsParsed(g, mode, contract);
      }
    }
  }
}
