/**
 * The peer record and its text file: a printer that escapes everything JSON needs and a parser
 * that is much weaker, splitting at every comma and refusing every backslash.
 */
module PeerRecords {
  import opened Wrappers
  import opened Sequences
  import opened Numbers
  import opened TransportKeys
  import opened Json

  datatype PeerRecord = PeerRecord(
    role: string, nodeId: string, hostNodeId: Option<string>, endpoint: string, invitationSecret: string,
    virtualIp: Option<string>, approved: bool, revoked: bool)

  // ----- the parser -----

  function Unquote(s: string): Option<string> {
    var rest :- StripPrefix(s, "\"");
    StripSuffix(rest, "\"")
  }

  predicate Refused(c: char) { c as int < 0x20 || c == '\\' }

  function ParseValue(text: string): Option<string> {
    match Unquote(text)
    case Some(value) => Some(value)
    case None => if text == "true" || text == "false" then Some(text) else None
  }

  function ParseItem(item: string): Option<(string, string)> {
    var halves :- SplitOnce(item, ':');
    var key :- Unquote(Trim(halves.0));
    var value :- ParseValue(Trim(halves.1));
    if key == "" || exists c :: c in value && Refused(c) then None else Some((key, value))
  }

  function ParseItems(items: seq<string>, output: map<string, string>): Option<map<string, string>> {
    if items == [] then Some(output)
    else
      var item :- ParseItem(items[0]);
      ParseItems(items[1..], output[item.0 := item.1])
  }

  function ObjectBody(text: string): Option<string> {
    var inner :- StripPrefix(Trim(text), "{");
    var inner :- StripSuffix(inner, "}");
    Some(Trim(inner))
  }

  function ParseFields(text: string): Option<map<string, string>> {
    var body :- ObjectBody(text);
    if body == "" then Some(map[]) else ParseItems(Split(body, ','), map[])
  }

  method ParseJsonFields(text: string) returns (fields: Option<map<string, string>>)
    ensures fields == ParseFields(text)
  {
    var body := ObjectBody(text);
    if body == None {
      return None;
    }
    var output: map<string, string> := map[];
    if body.value == "" {
      return Some(output);
    }
    var items := Split(body.value, ',');
    var i := 0;
    while i < |items|
      invariant 0 <= i <= |items|
      invariant ParseItems(items, map[]) == ParseItems(items[i..], output)
    {
      assert items[i..][1..] == items[i + 1..];
      var item := ParseItem(items[i]);
      if item == None {
        return None;
      }
      output := output[item.value.0 := item.value.1];
      i := i + 1;
    }
    return Some(output);
  }

  // ----- the printer -----

  datatype Field = Field(key: string, value: string, quoted: bool)

  function PrintField(f: Field): string {
    "\"" + f.key + "\":" + (if f.quoted then JsonString(f.value) else f.value)
  }

  function PrintFields(fields: seq<Field>): seq<string> {
    seq(|fields|, i requires 0 <= i < |fields| => PrintField(fields[i]))
  }

  function PrintObject(fields: seq<Field>): string {
    "{" + Join(PrintFields(fields), ',') + "}"
  }

  // ----- what the parser makes of printed fields -----

  predicate CleanChar(c: char) {
    c as int >= 0x20 && c != '"' && c != '\\' && c != ',' && c != '<' && c != '>' && c != '&'
  }

  predicate Clean(s: string) {
    forall c :: c in s ==> CleanChar(c)
  }

  predicate PlainKey(key: string) {
    key != "" && ':' !in key && ',' !in key
  }

  predicate Printable(f: Field) {
    PlainKey(f.key) && (!f.quoted ==> f.value == "true" || f.value == "false")
  }

  predicate CleanField(f: Field) {
    f.quoted ==> Clean(f.value)
  }

  lemma {:induction false} EscapeConcat(a: string, b: string)
    ensures Escape(a + b) == Escape(a) + Escape(b)
  {
    if a == [] {
      assert a + b == b;
    } else {
      assert (a + b)[1..] == a[1..] + b;
      EscapeConcat(a[1..], b);
    }
  }

  /** Escaping leaves clean text alone, and marks everything else (but commas) with a backslash. */
  lemma {:induction false} EscapeOfClean(s: string)
    ensures Clean(s) ==> Escape(s) == s
    ensures ',' in Escape(s) <==> ',' in s
    ensures '\\' in Escape(s) <==> exists c :: c in s && c != ',' && !CleanChar(c)
  {
    if s != [] {
      assert s == [s[0]] + s[1..];
      EscapeOfClean(s[1..]);
      EscapeOfOneChar(s[0]);
      assert Clean(s) ==> Clean(s[1..]) && CleanChar(s[0]);
    }
  }

  lemma EscapeOfOneChar(c: char)
    ensures CleanChar(c) ==> EscapeChar(c) == [c]
    ensures ',' in EscapeChar(c) <==> c == ','
    ensures '\\' in EscapeChar(c) <==> c != ',' && !CleanChar(c)
  {}

  lemma QuotedTrimsToItself(s: string)
    ensures Trim("\"" + s + "\"") == "\"" + s + "\""
    ensures Unquote("\"" + s + "\"") == Some(s)
  {
    TrimSolid("\"" + s + "\"");
    assert ("\"" + s + "\"")[1..] == s + "\"";
  }

  /** The text of a field up to its value. */
  function Head(f: Field): string {
    "\"" + f.key + "\":"
  }

  /** After a plain key, an item is judged by the text of its value alone. */
  lemma ParseItemAfterKey(f: Field, text: string)
    requires PlainKey(f.key)
    ensures ParseItem(Head(f) + text) ==
      match ParseValue(Trim(text))
      case None => None
      case Some(value) => if exists c :: c in value && Refused(c) then None else Some((f.key, value))
  {
    var key := "\"" + f.key + "\"";
    assert ':' !in key;
    assert Head(f) + text == key + [':'] + text;
    SplitOnceAt(key, ':', text);
    QuotedTrimsToItself(f.key);
  }

  lemma ParsePrintedString(value: string)
    ensures ParseValue(Trim(JsonString(value))) == Some(Escape(value))
  {
    QuotedTrimsToItself(Escape(value));
  }

  lemma ParsePrintedBool(text: string)
    requires text == "true" || text == "false"
    ensures ParseValue(Trim(text)) == Some(text) && forall c :: c in text ==> !Refused(c)
  {
    assert text[0] == 't' || text[0] == 'f';
    assert text[|text| - 1] == 'e';
    TrimSolid(text);
    assert StripPrefix(text, "\"") == None by {
      assert text[..1][0] != "\""[0];
    }
  }

  lemma ParsePrintedField(f: Field)
    requires Printable(f) && (f.quoted ==> ',' !in f.value)
    ensures ParseItem(PrintField(f)) == if CleanField(f) then Some((f.key, f.value)) else None
  {
    if f.quoted {
      ParseItemAfterKey(f, JsonString(f.value));
      ParsePrintedString(f.value);
      EscapeOfClean(f.value);
      assert Refused('\\');
    } else {
      ParseItemAfterKey(f, f.value);
      ParsePrintedBool(f.value);
    }
  }

  lemma {:induction false} TrimEndKeeps(s: string)
    requires s != [] && !IsWhitespace(s[0])
    ensures TrimEnd(s) != [] && TrimEnd(s)[0] == s[0]
    ensures exists n :: 0 < n <= |s| && TrimEnd(s) == s[..n]
  {
    if IsWhitespace(s[|s| - 1]) {
      TrimEndKeeps(s[..|s| - 1]);
      var n :| 0 < n <= |s| - 1 && TrimEnd(s[..|s| - 1]) == s[..|s| - 1][..n];
      assert TrimEnd(s) == s[..n];
    } else {
      assert s[..|s|] == s;
    }
  }

  /** A value cut at its first comma has lost its closing quote, and the piece before is refused. */
  lemma CutValueIsRefused(f: Field, before: string)
    requires Printable(f) && ',' !in before
    ensures ParseItem(Head(f) + "\"" + Escape(before)) == None
  {
    var text := "\"" + Escape(before);
    assert Head(f) + "\"" + Escape(before) == Head(f) + text;
    ParseItemAfterKey(f, text);
    CutValueHasNoQuote(before);
  }

  lemma CutValueHasNoQuote(before: string)
    ensures var value := ParseValue(Trim("\"" + Escape(before)));
      value == None || '\\' in value.value
  {
    var n := CutValueTrimmed(Escape(before));
    LoneQuotedValue(before, n);
  }

  lemma CutValueTrimmed(escaped: string) returns (n: nat)
    ensures n <= |escaped| && Trim("\"" + escaped) == "\"" + escaped[..n]
  {
    var text := "\"" + escaped;
    assert TrimStart(text) == text;
    TrimEndKeeps(text);
    var m :| 0 < m <= |text| && TrimEnd(text) == text[..m];
    assert text[..m] == "\"" + escaped[..m - 1];
    n := m - 1;
  }

  lemma LoneQuotedValue(before: string, n: nat)
    requires n <= |Escape(before)|
    ensures var value := ParseValue("\"" + Escape(before)[..n]);
      value == None || '\\' in value.value
  {
    var kept := Escape(before)[..n];
    var text := "\"" + kept;
    assert text[0] == '"' && text[1..] == kept && text[..1] == "\"";
    assert text != "true" && text != "false" by {
      assert "true"[0] != '"' && "false"[0] != '"';
    }
    if n > 0 && kept[n - 1] == '"' {
      QuoteHasBackslashBefore(before, n - 1);
      assert Unquote(text) == Some(kept[..n - 1]);
      assert kept[..n - 1] == Escape(before)[..n - 1];
    } else {
      assert n > 0 ==> kept[n - 1..] == [kept[n - 1]];
      assert StripSuffix(kept, "\"") == None;
    }
  }

  /** Every quote inside an escaped text has a backslash somewhere before it. */
  lemma {:induction false} QuoteHasBackslashBefore(s: string, i: nat)
    requires i < |Escape(s)| && Escape(s)[i] == '"'
    ensures '\\' in Escape(s)[..i]
  {
    var first := EscapeChar(s[0]);
    if i < |first| {
      assert first[i] == '"';
      assert first == "\\\"" && i == 1;
      assert Escape(s)[..1][0] == '\\';
    } else {
      QuoteHasBackslashBefore(s[1..], i - |first|);
      assert Escape(s)[..i] == first + Escape(s[1..])[..i - |first|];
    }
  }

  lemma Regroup(head: string, quote: string, before: string, comma: string, after: string)
    ensures head + (quote + ((before + comma) + after) + quote) == (head + quote + before) + comma + (after + quote)
  {}

  /** A field whose value holds a comma is printed with the cut right there. */
  lemma PrintedAtComma(f: Field, before: string, after: string)
    requires f.quoted && f.value == before + [','] + after
    ensures PrintField(f) == (Head(f) + "\"" + Escape(before)) + [','] + (Escape(after) + "\"")
  {
    EscapeConcat(before + [','], after);
    EscapeConcat(before, [',']);
    assert Escape([',']) == [','];
    Regroup(Head(f), "\"", Escape(before), [','], Escape(after));
  }

  lemma CutFieldHasRefusedPiece(f: Field, before: string, after: string)
    requires Printable(f) && f.quoted && f.value == before + [','] + after && ',' !in before
    ensures exists piece :: piece in Split(PrintField(f), ',') && ParseItem(piece) == None
  {
    var piece := Head(f) + "\"" + Escape(before);
    CutValueIsRefused(f, before);
    EscapeOfClean(before);
    assert ',' !in Head(f) && ',' !in piece;
    PrintedAtComma(f, before, after);
    SplitConcat(piece, ',', Escape(after) + "\"");
    SplitWithout(piece, ',');
    assert piece in [piece];
  }

  /** Some piece of a field that is not clean is refused, whatever else the field is split into. */
  lemma UncleanFieldHasRefusedPiece(f: Field)
    requires Printable(f) && !CleanField(f)
    ensures exists piece :: piece in Split(PrintField(f), ',') && ParseItem(piece) == None
  {
    if ',' !in f.value {
      ParsePrintedField(f);
      PrintsWithoutComma(f);
      SplitWithout(PrintField(f), ',');
      assert PrintField(f) in [PrintField(f)];
    } else {
      SplitOnceParts(f.value, ',');
      var (before, after) := SplitOnce(f.value, ',').value;
      CutFieldHasRefusedPiece(f, before, after);
    }
  }

  lemma PrintsWithoutComma(f: Field)
    requires Printable(f) && ',' !in f.value
    ensures ',' !in PrintField(f)
  {
    EscapeOfClean(f.value);
  }

  // ----- whole objects -----

  function ToMap(fields: seq<Field>, output: map<string, string>): map<string, string> {
    if fields == [] then output else ToMap(fields[1..], output[fields[0].key := fields[0].value])
  }

  ghost predicate DistinctKeys(fields: seq<Field>) {
    forall i, j {:trigger fields[i], fields[j]} :: 0 <= i < j < |fields| ==> fields[i].key != fields[j].key
  }

  predicate ParsesTo(item: string, f: Field) {
    ParseItem(item) == Some((f.key, f.value))
  }

  lemma {:induction false} ParseItemsOf(items: seq<string>, fields: seq<Field>, output: map<string, string>)
    requires |items| == |fields| && forall i :: 0 <= i < |items| ==> ParsesTo(items[i], fields[i])
    ensures ParseItems(items, output) == Some(ToMap(fields, output))
  {
    if items != [] {
      assert ParsesTo(items[0], fields[0]);
      ParseItemsOf(items[1..], fields[1..], output[fields[0].key := fields[0].value]);
    }
  }

  lemma ParseItemsOfClean(fields: seq<Field>)
    requires forall f :: f in fields ==> Printable(f) && CleanField(f)
    ensures ParseItems(PrintFields(fields), map[]) == Some(ToMap(fields, map[]))
  {
    var items := PrintFields(fields);
    forall i | 0 <= i < |items| ensures ParsesTo(items[i], fields[i]) {
      assert fields[i] in fields;
      CleanFieldParses(fields[i]);
    }
    ParseItemsOf(items, fields, map[]);
  }

  lemma CleanFieldParses(f: Field)
    requires Printable(f) && CleanField(f)
    ensures ParsesTo(PrintField(f), f)
  {
    assert f.quoted ==> ',' !in f.value;
    ParsePrintedField(f);
  }

  lemma {:induction false} RefusedItemRefusesAll(items: seq<string>, output: map<string, string>, bad: string)
    requires bad in items && ParseItem(bad) == None
    ensures ParseItems(items, output) == None
  {
    if items[0] != bad && ParseItem(items[0]).Some? {
      var item := ParseItem(items[0]).value;
      RefusedItemRefusesAll(items[1..], output[item.0 := item.1], bad);
    }
  }

  lemma {:induction false} JoinEnds(items: seq<string>)
    requires items != [] && forall i :: 0 <= i < |items| ==>
      items[i] != "" && !IsWhitespace(items[i][0]) && !IsWhitespace(items[i][|items[i]| - 1])
    ensures var j := Join(items, ','); j != "" && !IsWhitespace(j[0]) && !IsWhitespace(j[|j| - 1])
  {
    if |items| > 1 {
      JoinEnds(items[1..]);
    }
  }

  lemma BracedBody(body: string)
    requires body != "" && !IsWhitespace(body[0]) && !IsWhitespace(body[|body| - 1])
    ensures ObjectBody("{" + body + "}") == Some(body)
  {
    var text := "{" + body + "}";
    TrimSolid(body);
    TrimSolid(text);
    assert text[1..] == body + "}";
    assert text[..1] == "{";
    assert StripSuffix(body + "}", "}") == Some(body);
  }

  lemma PrintedBody(fields: seq<Field>)
    requires fields != [] && forall f :: f in fields ==> Printable(f)
    ensures ObjectBody(PrintObject(fields)) == Some(Join(PrintFields(fields), ','))
    ensures Join(PrintFields(fields), ',') != ""
  {
    forall i | 0 <= i < |fields|
      ensures var p := PrintFields(fields)[i]; p != "" && !IsWhitespace(p[0]) && !IsWhitespace(p[|p| - 1])
    {
      assert fields[i] in fields;
      PrintedFieldEnds(fields[i]);
    }
    JoinEnds(PrintFields(fields));
    BracedBody(Join(PrintFields(fields), ','));
  }

  lemma PrintedFieldEnds(f: Field)
    requires Printable(f)
    ensures var p := PrintField(f); p[0] == '"' && (p[|p| - 1] == '"' || p[|p| - 1] == 'e')
  {}

  lemma CleanFieldsParse(fields: seq<Field>)
    requires fields != [] && forall f :: f in fields ==> Printable(f) && CleanField(f)
    ensures ParseItems(Split(Join(PrintFields(fields), ','), ','), map[]) == Some(ToMap(fields, map[]))
  {
    forall p | p in PrintFields(fields) ensures ',' !in p {
      var i :| 0 <= i < |fields| && p == PrintField(fields[i]);
      assert fields[i] in fields;
      PrintsWithoutComma(fields[i]);
    }
    SplitJoin(PrintFields(fields), ',');
    ParseItemsOfClean(fields);
  }

  lemma UncleanFieldsAreRefused(fields: seq<Field>, i: nat)
    requires i < |fields| && Printable(fields[i]) && !CleanField(fields[i])
    ensures ParseItems(Split(Join(PrintFields(fields), ','), ','), map[]) == None
  {
    var items := PrintFields(fields);
    UncleanFieldHasRefusedPiece(fields[i]);
    var piece :| piece in Split(PrintField(fields[i]), ',') && ParseItem(piece) == None;
    SplitJoinPieces(items, ',', i);
    assert items[i] == PrintField(fields[i]);
    RefusedItemRefusesAll(Split(Join(items, ','), ','), map[], piece);
  }

  /**
   * Any list of fields with plain keys is read back as exactly its keys and values when every quoted
   * value is clean; when one is not, the whole text is refused.
   */
  lemma ParseOfPrint(fields: seq<Field>)
    requires fields != [] && forall f :: f in fields ==> Printable(f)
    ensures ParseFields(PrintObject(fields)) ==
      if forall f :: f in fields ==> CleanField(f) then Some(ToMap(fields, map[])) else None
  {
    PrintedBody(fields);
    if forall f :: f in fields ==> CleanField(f) {
      CleanFieldsParse(fields);
    } else {
      var f :| f in fields && !CleanField(f);
      var i :| 0 <= i < |fields| && fields[i] == f;
      UncleanFieldsAreRefused(fields, i);
    }
  }

  lemma {:induction false} ToMapKeeps(fields: seq<Field>, output: map<string, string>, key: string)
    requires forall f :: f in fields ==> f.key != key
    ensures key in ToMap(fields, output) <==> key in output
    ensures key in output ==> ToMap(fields, output)[key] == output[key]
  {
    if fields != [] {
      assert fields[0] in fields;
      ToMapKeeps(fields[1..], output[fields[0].key := fields[0].value], key);
    }
  }

  lemma {:induction false} ToMapAt(fields: seq<Field>, output: map<string, string>, i: nat)
    requires DistinctKeys(fields) && i < |fields|
    ensures fields[i].key in ToMap(fields, output) && ToMap(fields, output)[fields[i].key] == fields[i].value
  {
    var f := fields[0];
    if i == 0 {
      forall g | g in fields[1..] ensures g.key != f.key {
        var j :| 0 <= j < |fields[1..]| && fields[1..][j] == g;
        assert fields[j + 1] == g;
      }
      ToMapKeeps(fields[1..], output[f.key := f.value], f.key);
    } else {
      ToMapAt(fields[1..], output[f.key := f.value], i - 1);
    }
  }

  // ----- the record -----

  datatype StoreError = InvalidPeerStore | IncompletePeerStore | PeerNotConfigured

  type Digest = string -> Key

  function BoolText(b: bool): string { if b then "true" else "false" }

  function OrEmpty(s: Option<string>): string { if s.Some? then s.value else "" }

  function NonEmpty(s: Option<string>): Option<string> { if s == Some("") then None else s }

  function RecordFields(r: PeerRecord): seq<Field> {
    [Field("role", r.role, true), Field("node_id", r.nodeId, true), Field("host_node_id", OrEmpty(r.hostNodeId), true),
     Field("endpoint", r.endpoint, true), Field("transport_key", r.invitationSecret, true),
     Field("virtual_ip", OrEmpty(r.virtualIp), true), Field("approved", BoolText(r.approved), false),
     Field("revoked", BoolText(r.revoked), false)]
  }

  function PrintRecord(r: PeerRecord): string {
    PrintObject(RecordFields(r))
  }

  function Get(fields: map<string, string>, key: string): Option<string> {
    if key in fields then Some(fields[key]) else None
  }

  /** The record in a file, and whether it still carried a raw invitation secret. */
  function ReadRecord(text: string, digest: Digest): Result<(PeerRecord, bool), StoreError> {
    match ParseFields(text)
    case None => Err(InvalidPeerStore)
    case Some(fields) => RecordOf(fields, digest)
  }

  function RecordOf(fields: map<string, string>, digest: Digest): Result<(PeerRecord, bool), StoreError> {
    var role, nodeId, endpoint := OrEmpty(Get(fields, "role")), OrEmpty(Get(fields, "node_id")),
      OrEmpty(Get(fields, "endpoint"));
    var legacy := Get(fields, "invitation_secret");
    var secret := match Get(fields, "transport_key")
      case Some(key) => key
      case None => if legacy.Some? then StoredForm(digest(legacy.value)) else "";
    var approved := Get(fields, "approved") == Some("true");
    var revoked := Get(fields, "revoked") == None || Get(fields, "revoked") == Some("true");
    if role == "" || nodeId == "" || endpoint == "" || secret == "" then Err(IncompletePeerStore)
    else
      Ok((PeerRecord(role, nodeId, NonEmpty(Get(fields, "host_node_id")), endpoint, secret,
                     NonEmpty(Get(fields, "virtual_ip")), approved, revoked), legacy.Some?))
  }

  /** The records that survive being written and read. */
  predicate Storable(r: PeerRecord) {
    && r.role != "" && r.nodeId != "" && r.endpoint != "" && r.invitationSecret != ""
    && Clean(r.role) && Clean(r.nodeId) && Clean(r.endpoint) && Clean(r.invitationSecret)
    && (r.hostNodeId.Some? ==> r.hostNodeId.value != "" && Clean(r.hostNodeId.value))
    && (r.virtualIp.Some? ==> r.virtualIp.value != "" && Clean(r.virtualIp.value))
  }

  function KeyLength(i: nat): nat {
    if i == 0 then 4
    else if i == 1 || i == 7 then 7
    else if i == 2 then 12
    else if i == 4 then 13
    else if i == 5 then 10
    else 8
  }

  lemma LeadingKeysArePlain()
    ensures PlainKey("role") && PlainKey("node_id") && PlainKey("host_node_id") && PlainKey("endpoint")
  {}

  lemma TrailingKeysArePlain()
    ensures PlainKey("transport_key") && PlainKey("virtual_ip") && PlainKey("approved") && PlainKey("revoked")
  {}

  lemma LeadingFieldIs(r: PeerRecord, i: nat)
    requires i < 4
    ensures |RecordFields(r)[i].key| == KeyLength(i) && Printable(RecordFields(r)[i])
  {
    LeadingKeysArePlain();
  }

  lemma TrailingFieldIs(r: PeerRecord, i: nat)
    requires 4 <= i < 8
    ensures |RecordFields(r)[i].key| == KeyLength(i) && Printable(RecordFields(r)[i])
  {
    TrailingKeysArePlain();
  }

  lemma RecordKeysAreDistinct(r: PeerRecord)
    ensures DistinctKeys(RecordFields(r))
    ensures forall f :: f in RecordFields(r) ==> Printable(f) && f.key != "invitation_secret"
  {
    var fields := RecordFields(r);
    forall i | 0 <= i < 8 ensures |fields[i].key| == KeyLength(i) && Printable(fields[i]) {
      if i < 4 { LeadingFieldIs(r, i); } else { TrailingFieldIs(r, i); }
    }
    assert |"invitation_secret"| == 17;
    assert fields[3].key[0] != fields[6].key[0] && fields[1].key[0] != fields[7].key[0];
    forall i, j | 0 <= i < j < |fields| ensures fields[i].key != fields[j].key {
      if KeyLength(i) == KeyLength(j) {
        assert (i == 3 && j == 6) || (i == 1 && j == 7);
      }
    }
  }

  lemma PrintedRecordMap(r: PeerRecord)
    ensures var m := ToMap(RecordFields(r), map[]);
      && Get(m, "role") == Some(r.role) && Get(m, "node_id") == Some(r.nodeId)
      && Get(m, "host_node_id") == Some(OrEmpty(r.hostNodeId)) && Get(m, "endpoint") == Some(r.endpoint)
      && Get(m, "transport_key") == Some(r.invitationSecret) && Get(m, "virtual_ip") == Some(OrEmpty(r.virtualIp))
      && Get(m, "approved") == Some(BoolText(r.approved)) && Get(m, "revoked") == Some(BoolText(r.revoked))
      && Get(m, "invitation_secret") == None
  {
    var fields := RecordFields(r);
    RecordKeysAreDistinct(r);
    ToMapAt(fields, map[], 0);
    ToMapAt(fields, map[], 1);
    ToMapAt(fields, map[], 2);
    ToMapAt(fields, map[], 3);
    ToMapAt(fields, map[], 4);
    ToMapAt(fields, map[], 5);
    ToMapAt(fields, map[], 6);
    ToMapAt(fields, map[], 7);
    ToMapKeeps(fields, map[], "invitation_secret");
  }

  /** Reading what was written gives the same record, not flagged as legacy, for exactly the storable records. */
  lemma RecordRoundTrip(r: PeerRecord, digest: Digest)
    ensures ReadRecord(PrintRecord(r), digest) == Ok((r, false)) <==> Storable(r)
  {
    ReadOfPrint(r, digest);
    RecordOfPrinted(r, digest);
  }

  predicate CleanRecord(r: PeerRecord) {
    Clean(r.role) && Clean(r.nodeId) && Clean(OrEmpty(r.hostNodeId)) && Clean(r.endpoint)
    && Clean(r.invitationSecret) && Clean(OrEmpty(r.virtualIp))
  }

  /** A required text: the field's value if it is there and not empty. */
  function Required(fields: map<string, string>, key: string): Option<string> {
    if key in fields && fields[key] != "" then Some(fields[key]) else None
  }

  /** The key text of a record file: the stored key, or what is derived from the raw secret of an old file. */
  function KeyText(fields: map<string, string>, digest: Digest): Option<string> {
    if "transport_key" in fields then Required(fields, "transport_key")
    else if "invitation_secret" in fields then Some("key-v1-" + Hex(digest(fields["invitation_secret"])))
    else None
  }

  /**
   * What a text with these fields is read as: nothing without the four required texts; otherwise a record
   * of exactly these texts, approved only if it says so, revoked unless it says otherwise, and flagged as
   * old exactly when it holds a raw secret.
   */
  lemma ReadMeans(text: string, digest: Digest)
    ensures ParseFields(text) == None <==> ReadRecord(text, digest) == Err(InvalidPeerStore)
    ensures ParseFields(text).Some? ==>
      var fields := ParseFields(text).value;
      var read := ReadRecord(text, digest);
      && (read.Ok? <==>
            && Required(fields, "role").Some? && Required(fields, "node_id").Some? && Required(fields, "endpoint").Some?
            && KeyText(fields, digest).Some?)
      && (read.Ok? ==>
            var (r, legacy) := read.value;
            && Some(r.role) == Required(fields, "role") && Some(r.nodeId) == Required(fields, "node_id")
            && Some(r.endpoint) == Required(fields, "endpoint") && Some(r.invitationSecret) == KeyText(fields, digest)
            && r.hostNodeId == Required(fields, "host_node_id") && r.virtualIp == Required(fields, "virtual_ip")
            && (r.approved <==> Get(fields, "approved") == Some("true"))
            && (r.revoked <==> "revoked" !in fields || fields["revoked"] == "true")
            && (legacy <==> "invitation_secret" in fields))
  {}

  lemma ReadOfPrint(r: PeerRecord, digest: Digest)
    ensures ReadRecord(PrintRecord(r), digest) ==
      if CleanRecord(r) then RecordOf(ToMap(RecordFields(r), map[]), digest) else Err(InvalidPeerStore)
  {
    RecordKeysAreDistinct(r);
    ParseOfPrint(RecordFields(r));
    CleanRecordFields(r);
  }

  /** An empty optional text is read back as an absent one. */
  lemma RecordOfPrinted(r: PeerRecord, digest: Digest)
    ensures RecordOf(ToMap(RecordFields(r), map[]), digest) ==
      if r.role == "" || r.nodeId == "" || r.endpoint == "" || r.invitationSecret == "" then Err(IncompletePeerStore)
      else Ok((r.(hostNodeId := NonEmpty(r.hostNodeId), virtualIp := NonEmpty(r.virtualIp)), false))
  {
    PrintedRecordMap(r);
    assert BoolText(true) != BoolText(false) by { assert |"true"| != |"false"|; }
  }

  lemma CleanRecordFields(r: PeerRecord)
    ensures (forall f :: f in RecordFields(r) ==> CleanField(f)) <==> CleanRecord(r)
  {
    var fields := RecordFields(r);
    assert fields[0] in fields && fields[1] in fields && fields[2] in fields;
    assert fields[3] in fields && fields[4] in fields && fields[5] in fields;
  }
}
