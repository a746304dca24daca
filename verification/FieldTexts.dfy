/** Exactly which texts the hand-written field parser accepts, and as which fields. */
module FieldTexts {
  import opened Wrappers
  import opened Sequences
  import opened PeerRecords
  import opened ModeTexts

  /** The white space in one member: before and after the key, before and after the value. */
  datatype MemberGaps = MemberGaps(before: string, named: string, followed: string, after: string)

  predicate AllBlankIn(g: MemberGaps) {
    Blank(g.before) && Blank(g.named) && Blank(g.followed) && Blank(g.after)
  }

  function Quoted(s: string): string {
    "\"" + (s + "\"")
  }

  /** The value between quotes, or one of the two bare words. */
  function ValueText(f: Field): string {
    if f.quoted then Quoted(f.value) else f.value
  }

  function MemberText(g: MemberGaps, f: Field): string {
    g.before + Quoted(f.key) + g.named + [':'] + (g.followed + ValueText(f) + g.after)
  }

  /** No escapes and no control characters in a value, no colon in a key; quotes inside either are kept. */
  predicate Readable(f: Field) {
    && f.key != "" && ':' !in f.key && (f.quoted || f.value == "true" || f.value == "false")
    && forall c :: c in f.value ==> c as int >= 0x20 && c != '\\'
  }

  ghost predicate IsMember(item: string, f: Field) {
    Readable(f) && exists g :: AllBlankIn(g) && item == MemberText(g, f)
  }

  ghost predicate Members(core: string, fields: seq<Field>) {
    exists items: seq<string> ::
      && |items| == |fields| > 0 && core == Join(items, ',')
      && forall i :: 0 <= i < |items| ==> ',' !in items[i] && IsMember(items[i], fields[i])
  }

  predicate Solid(s: string) {
    s != "" && !IsWhitespace(s[0]) && !IsWhitespace(s[|s| - 1])
  }

  // ----- one member -----

  lemma QuotedIsRead(s: string)
    ensures Solid(Quoted(s)) && Unquote(Quoted(s)) == Some(s)
  {
    Stripped("\"", s + "\"");
    Stripped("\"", s);
  }

  lemma ReadIsQuoted(s: string)
    requires Unquote(s).Some?
    ensures s == Quoted(Unquote(s).value)
  {
    StripsApart(s, "\"");
    StripsApart(StripPrefix(s, "\"").value, "\"");
  }

  lemma ValueIsRead(f: Field)
    requires Readable(f)
    ensures Solid(ValueText(f)) && ParseValue(ValueText(f)) == Some(f.value)
  {
    if f.quoted {
      QuotedIsRead(f.value);
    }
  }

  lemma MemberIsRead(item: string, f: Field)
    requires IsMember(item, f)
    ensures ParsesTo(item, f)
  {
    var g :| AllBlankIn(g) && item == MemberText(g, f);
    var before, after := g.before + Quoted(f.key) + g.named, g.followed + ValueText(f) + g.after;
    assert ':' !in before;
    SplitOnceAt(before, ':', after);
    QuotedIsRead(f.key);
    ValueIsRead(f);
    TrimPadded(g.before, Quoted(f.key), g.named);
    TrimPadded(g.followed, ValueText(f), g.after);
  }

  lemma ReadIsMember(item: string) returns (f: Field)
    requires ParseItem(item).Some?
    ensures ParsesTo(item, f) && IsMember(item, f)
  {
    SplitOnceParts(item, ':');
    var (first, second) := SplitOnce(item, ':').value;
    var before, named := TrimLeaves(first);
    var followed, after := TrimLeaves(second);
    ReadIsQuoted(Trim(first));
    var quoted := Unquote(Trim(second)).Some?;
    if quoted {
      ReadIsQuoted(Trim(second));
    }
    var (key, value) := ParseItem(item).value;
    f := Field(key, value, quoted);
    assert ':' !in key by {
      assert forall c :: c in key ==> c in Quoted(key);
      assert forall c :: c in Quoted(key) ==> c in first;
    }
    var g := MemberGaps(before, named, followed, after);
    assert item == MemberText(g, f);
  }

  // ----- whole objects -----

  lemma EmptyIsRead(before: string, inside: string, valued: string, closed: string)
    requires Blank(before) && Blank(inside) && Blank(valued) && Blank(closed)
    ensures ObjectBody(before + ("{" + (inside + "" + valued) + "}") + closed) == Some("")
  {
    var inner := inside + "" + valued;
    TrimPadded(before, "{" + inner + "}", closed);
    Associates("{", inner, "}");
    Stripped("{", inner + "}");
    Stripped("}", inner);
    assert inner == inside + valued;
    TrimStartSkips(inside, valued);
    TrimStartSkips(valued, "");
    assert valued + "" == valued;
  }

  lemma MembersAreRead(core: string, fields: seq<Field>)
    requires Members(core, fields)
    ensures ParseItems(Split(core, ','), map[]) == Some(ToMap(fields, map[]))
  {
    var items: seq<string> :| |items| == |fields| > 0 && core == Join(items, ',')
      && forall i :: 0 <= i < |items| ==> ',' !in items[i] && IsMember(items[i], fields[i]);
    SplitJoin(items, ',');
    forall i | 0 <= i < |items| ensures ParsesTo(items[i], fields[i]) {
      MemberIsRead(items[i], fields[i]);
    }
    ParseItemsOf(items, fields, map[]);
  }

  lemma {:induction false} ItemsAreMembers(items: seq<string>, output: map<string, string>) returns (fields: seq<Field>)
    requires ParseItems(items, output).Some?
    ensures |fields| == |items| && forall i :: 0 <= i < |items| ==> IsMember(items[i], fields[i])
    ensures ParseItems(items, output) == Some(ToMap(fields, output))
  {
    if items == [] {
      fields := [];
    } else {
      var f := ReadIsMember(items[0]);
      var rest := ItemsAreMembers(items[1..], output[f.key := f.value]);
      fields := [f] + rest;
    }
  }

  /** The text of an object around this body, in any white space. */
  ghost predicate Encloses(text: string, core: string) {
    exists before, inside, after, closed ::
      && Blank(before) && Blank(inside) && Blank(after) && Blank(closed)
      && text == before + ("{" + (inside + core + after) + "}") + closed
  }

  lemma EnclosedIsRead(text: string, core: string)
    requires Encloses(text, core) && (core == "" || Solid(core))
    ensures ObjectBody(text) == Some(core)
  {
    var before, inside, after, closed :|
      && Blank(before) && Blank(inside) && Blank(after) && Blank(closed)
      && text == before + ("{" + (inside + core + after) + "}") + closed;
    if core == "" {
      EmptyIsRead(before, inside, after, closed);
    } else {
      BracesAreStripped(before, inside, core, after, closed);
    }
  }

  lemma ReadIsEnclosed(text: string)
    requires ObjectBody(text).Some?
    ensures var core := ObjectBody(text).value; Encloses(text, core) && (core == "" || Solid(core))
  {
    var before, inside, after, closed := StrippedBracesHaveShape(text);
    var rest := StripPrefix(Trim(text), "{").value;
    TrimIsSolid(StripSuffix(rest, "}").value);
  }

  /** Braces around nothing, or around members with these fields. */
  ghost predicate Spells(text: string, result: map<string, string>) {
    || (Encloses(text, "") && result == map[])
    || exists core, fields ::
         Solid(core) && Encloses(text, core) && Members(core, fields) && result == ToMap(fields, map[])
  }

  lemma {:induction false} ReadItemsAreMembers(core: string, result: map<string, string>)
    requires ParseItems(Split(core, ','), map[]) == Some(result)
    ensures exists fields :: Members(core, fields) && result == ToMap(fields, map[])
  {
    JoinSplit(core, ',');
    var items := Split(core, ',');
    var fields := ItemsAreMembers(items, map[]);
    assert forall i :: 0 <= i < |items| ==> items[i] in items;
    assert Members(core, fields);
  }

  lemma {:induction false} ReadTextSpells(text: string, result: map<string, string>)
    requires ParseFields(text) == Some(result)
    ensures Spells(text, result)
  {
    ReadIsEnclosed(text);
    var core := ObjectBody(text).value;
    if core != "" {
      ReadItemsAreMembers(core, result);
      var fields :| Members(core, fields) && result == ToMap(fields, map[]);
    }
  }

  /**
   * A text is read as these fields exactly when it is braces around nothing, or around members between
   * commas: a key and a value with a colon between them, white space around each, and of two members with
   * one key the later one counts.
   */
  lemma {:induction false} ParsesFieldsIff(text: string, result: map<string, string>)
    ensures ParseFields(text) == Some(result) <==> Spells(text, result)
  {
    if ParseFields(text) == Some(result) {
      ReadTextSpells(text, result);
    }
    if Encloses(text, "") {
      EnclosedIsRead(text, "");
    }
    forall core, fields | Solid(core) && Encloses(text, core) && Members(core, fields)
      ensures ParseFields(text) == Some(ToMap(fields, map[]))
    {
      EnclosedIsRead(text, core);
      MembersAreRead(core, fields);
    }
  }
}
