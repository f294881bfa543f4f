/** The audit export, read back by the grammar of section 2 of RFC 4180 with a lone LF accepted as record end. */
module AuditCsv {
  import opened Wrappers

  // ---------- The export

  datatype Log = Log(
    id: string, action: string, userId: Option<string>, userEmail: Option<string>, metadata: string,
    ipAddress: Option<string>, userAgent: Option<string>, createdAt: string)

  /** A field and whether the export puts it in quotes. */
  datatype Field = Field(text: string, quoted: bool)

  function Doubled(s: string): string {
    if |s| == 0 then "" else (if s[0] == '"' then "\"\"" else [s[0]]) + Doubled(s[1..])
  }

  function Raw(f: Field): string {
    if f.quoted then "\"" + Doubled(f.text) + "\"" else f.text
  }

  function OrEmpty(o: Option<string>): string {
    if o.Some? then o.value else ""
  }

  /** `metadata` is the JSON text; missing columns are empty. */
  function Fields(log: Log): seq<Field> {
    [Field(log.id, false), Field(log.action, false), Field(OrEmpty(log.userId), false),
     Field(OrEmpty(log.userEmail), false), Field(log.metadata, true), Field(OrEmpty(log.ipAddress), false),
     Field(OrEmpty(log.userAgent), true), Field(log.createdAt, false)]
  }

  const HEADER: seq<Field> := [
    Field("ID", false), Field("Action", false), Field("User ID", false), Field("User Email", false),
    Field("Metadata", false), Field("IP Address", false), Field("User Agent", false), Field("Created At", false)]

  function Line(fs: seq<Field>): string
    requires |fs| > 0
  {
    if |fs| == 1 then Raw(fs[0]) else Raw(fs[0]) + "," + Line(fs[1..])
  }

  predicate Rows(rows: seq<seq<Field>>) {
    forall i | 0 <= i < |rows| :: |rows[i]| > 1
  }

  function Lines(rows: seq<seq<Field>>): string
    requires |rows| > 0 && Rows(rows)
  {
    if |rows| == 1 then Line(rows[0]) else Line(rows[0]) + "\n" + Lines(rows[1..])
  }

  function Table(logs: seq<Log>): (rows: seq<seq<Field>>)
    ensures |rows| == |logs| + 1 && Rows(rows)
  {
    [HEADER] + seq(|logs|, i requires 0 <= i < |logs| => Fields(logs[i]))
  }

  function ExportCsv(logs: seq<Log>): string {
    Lines(Table(logs))
  }

  // ---------- The reader

  predicate Special(c: char) {
    c == ',' || c == '"' || c == '\r' || c == '\n'
  }

  /** What may follow a field: the end, a comma, CRLF or LF. */
  predicate Ends(rest: string) {
    rest == "" || rest[0] == ',' || rest[0] == '\n' || (|rest| > 1 && rest[0] == '\r' && rest[1] == '\n')
  }

  datatype Read<+T> = Read(value: T, rest: string)

  function ReadPlain(s: string): Option<Read<string>> {
    if s == "" || Special(s[0]) then if Ends(s) then Some(Read("", s)) else None
    else match ReadPlain(s[1..])
      case None => None
      case Some(r) => Some(Read([s[0]] + r.value, r.rest))
  }

  /** After the opening quote. */
  function ReadQuoted(s: string): Option<Read<string>>
    decreases |s|
  {
    if s == "" then None
    else if s[0] != '"' then Prepend(s[0], ReadQuoted(s[1..]))
    else if |s| > 1 && s[1] == '"' then Prepend('"', ReadQuoted(s[2..]))
    else if Ends(s[1..]) then Some(Read("", s[1..])) else None
  }

  function Prepend(c: char, r: Option<Read<string>>): Option<Read<string>> {
    if r.Some? then Some(Read([c] + r.value.value, r.value.rest)) else None
  }

  function ReadField(s: string): Option<Read<string>> {
    if s != "" && s[0] == '"' then ReadQuoted(s[1..]) else ReadPlain(s)
  }

  lemma {:induction false} PlainConsumes(s: string)
    ensures ReadPlain(s).Some? ==>
              |ReadPlain(s).value.rest| + |ReadPlain(s).value.value| == |s| && Ends(ReadPlain(s).value.rest)
  {
    if s != "" && !Special(s[0]) {
      PlainConsumes(s[1..]);
    }
  }

  lemma {:induction false} QuotedConsumes(s: string)
    ensures ReadQuoted(s).Some? ==> |ReadQuoted(s).value.rest| < |s| && Ends(ReadQuoted(s).value.rest)
    decreases |s|
  {
    if s != "" {
      if s[0] != '"' {
        QuotedConsumes(s[1..]);
      } else if |s| > 1 && s[1] == '"' {
        QuotedConsumes(s[2..]);
      }
    }
  }

  function ReadFieldChecked(s: string): (r: Option<Read<string>>)
    ensures r == ReadField(s)
    ensures r.Some? ==> |r.value.rest| <= |s| && Ends(r.value.rest)
  {
    PlainConsumes(s);
    if s != "" then QuotedConsumes(s[1..]); ReadField(s) else ReadField(s)
  }

  /** One record: fields up to a line break or the end. */
  function ReadRecord(s: string): (r: Option<Read<seq<string>>>)
    ensures r.Some? ==>
              |r.value.rest| <= |s|
              && (r.value.rest == "" || r.value.rest[0] == '\n'
                  || (|r.value.rest| > 1 && r.value.rest[0] == '\r' && r.value.rest[1] == '\n'))
    decreases |s|
  {
    match ReadFieldChecked(s)
    case None => None
    case Some(f) =>
      if f.rest != "" && f.rest[0] == ',' then
        match ReadRecord(f.rest[1..])
        case None => None
        case Some(more) => Some(Read([f.value] + more.value, more.rest))
      else Some(Read([f.value], f.rest))
  }

  /** All records; the last one may end with a line break or without. */
  function ReadCsv(s: string): Option<seq<seq<string>>>
    decreases |s|
  {
    if s == "" then Some([])
    else match ReadRecord(s)
      case None => None
      case Some(r) =>
        if r.rest == "" then Some([r.value])
        else
          var more := ReadCsv(if r.rest[0] == '\n' then r.rest[1..] else r.rest[2..]);
          if more.Some? then Some([r.value] + more.value) else None
  }

  // ---------- Round trip

  /** Nothing in it that the grammar gives a meaning. */
  predicate Clean(s: string) {
    forall i | 0 <= i < |s| :: !Special(s[i])
  }

  predicate Safe(f: Field) {
    f.quoted || Clean(f.text)
  }

  predicate RowSafe(fs: seq<Field>) {
    forall j | 0 <= j < |fs| :: Safe(fs[j])
  }

  predicate AllSafe(rows: seq<seq<Field>>) {
    forall i | 0 <= i < |rows| :: RowSafe(rows[i])
  }

  function Texts(fs: seq<Field>): seq<string> {
    seq(|fs|, i requires 0 <= i < |fs| => fs[i].text)
  }

  function AllTexts(rows: seq<seq<Field>>): seq<seq<string>> {
    seq(|rows|, i requires 0 <= i < |rows| => Texts(rows[i]))
  }

  /** What follows a field in an export. */
  predicate Follows(tail: string) {
    tail == "" || tail[0] == ',' || tail[0] == '\n'
  }

  lemma {:induction false} PlainReads(s: string, tail: string)
    requires Clean(s) && Follows(tail)
    ensures ReadPlain(s + tail) == Some(Read(s, tail))
  {
    if s == "" {
      assert s + tail == tail;
    } else {
      assert (s + tail)[1..] == s[1..] + tail;
      PlainReads(s[1..], tail);
      assert s == [s[0]] + s[1..];
    }
  }

  lemma {:induction false} QuotedReads(s: string, tail: string)
    requires Follows(tail)
    ensures ReadQuoted(Doubled(s) + "\"" + tail) == Some(Read(s, tail))
  {
    if s == "" {
      assert Doubled(s) + "\"" + tail == "\"" + tail;
      assert ("\"" + tail)[1..] == tail;
    } else {
      QuotedReads(s[1..], tail);
      assert s == [s[0]] + s[1..];
      var rest := Doubled(s[1..]) + "\"" + tail;
      if s[0] == '"' {
        assert Doubled(s) + "\"" + tail == "\"\"" + rest;
        assert ("\"\"" + rest)[2..] == rest;
      } else {
        assert Doubled(s) + "\"" + tail == [s[0]] + rest;
        assert ([s[0]] + rest)[1..] == rest;
      }
    }
  }

  lemma FieldReads(f: Field, tail: string)
    requires Safe(f) && Follows(tail)
    ensures ReadField(Raw(f) + tail) == Some(Read(f.text, tail))
  {
    assert !f.quoted && f.text != "" ==> !Special((f.text + tail)[0]);
    hide ReadPlain, ReadQuoted, Doubled, Clean;
    if f.quoted {
      QuotedReads(f.text, tail);
      var rest := Doubled(f.text) + "\"" + tail;
      assert Raw(f) + tail == "\"" + rest;
      assert ("\"" + rest)[1..] == rest;
    } else {
      PlainReads(f.text, tail);
    }
  }

  /** A plain field that comes back whole holds nothing special up to its end. */
  lemma {:induction false} PlainReadBack(s: string, tail: string)
    requires ReadPlain(s + tail).Some? && ReadPlain(s + tail).value.value == s
    ensures Clean(s) && ReadPlain(s + tail).value.rest == tail
  {
    if s == "" {
      assert s + tail == tail;
      PlainConsumes(tail);
      assert |ReadPlain(tail).value.rest| == |tail|;
    } else {
      assert (s + tail)[1..] == s[1..] + tail;
      PlainReadBack(s[1..], tail);
    }
  }

  /** Reading back `v` means that `v` stood there with its quotes doubled. */
  lemma {:induction false} QuotedReadBack(s: string)
    requires ReadQuoted(s).Some?
    ensures Doubled(ReadQuoted(s).value.value) + "\"" <= s
    decreases |s|
  {
    if s[0] != '"' {
      QuotedReadBack(s[1..]);
      var v := ReadQuoted(s[1..]).value.value;
      assert ReadQuoted(s).value.value[1..] == v;
      assert Doubled(ReadQuoted(s).value.value) + "\"" == [s[0]] + (Doubled(v) + "\"");
    } else if |s| > 1 && s[1] == '"' {
      QuotedReadBack(s[2..]);
      var v := ReadQuoted(s[2..]).value.value;
      assert ReadQuoted(s).value.value[1..] == v;
      assert Doubled(ReadQuoted(s).value.value) + "\"" == "\"\"" + (Doubled(v) + "\"");
      assert s == "\"\"" + s[2..];
    }
  }

  /** A doubled text starts with twice as many quotes. */
  lemma {:induction false} DoubledQuotes(s: string, m: nat)
    requires m <= |s| && forall i | 0 <= i < m :: s[i] == '"'
    ensures |Doubled(s)| >= 2 * m + (|s| - m) && forall i | 0 <= i < 2 * m :: Doubled(s)[i] == '"'
  {
    if s != "" {
      DoubledQuotes(s[1..], if m > 0 then m - 1 else 0);
    }
  }

  /** How many quotes a text starts with. */
  function LeadingQuotes(s: string): (m: nat)
    ensures m <= |s| && (forall i | 0 <= i < m :: s[i] == '"') && (m < |s| ==> s[m] != '"')
  {
    if s == "" || s[0] != '"' then 0 else 1 + LeadingQuotes(s[1..])
  }

  /** A field that is printed bare but starts with a quote never comes back: the reader wants its quotes doubled,
      and the text before the next comma or line break has too few of them. */
  lemma QuoteNeverReadsBack(f: string, tail: string)
    requires f != "" && f[0] == '"' && Follows(tail)
    ensures ReadField(f + tail).Some? ==> ReadField(f + tail).value.value != f
  {
    var s := (f + tail)[1..];
    var m := LeadingQuotes(f);
    DoubledQuotes(f, m);
    var d := Doubled(f) + "\"";
    assert |d| > m - 1 && d[m - 1] == '"';
    assert |s| > m - 1 ==> s[m - 1] == (f + tail)[m] != '"';
    if ReadQuoted(s).Some? && ReadQuoted(s).value.value == f {
      QuotedReadBack(s);
    }
  }

  lemma FieldReadBack(f: Field, tail: string)
    requires Follows(tail) && ReadField(Raw(f) + tail).Some? && ReadField(Raw(f) + tail).value.value == f.text
    ensures Safe(f) && ReadField(Raw(f) + tail).value.rest == tail
  {
    if f.quoted {
      FieldReads(f, tail);
    } else if f.text != "" && f.text[0] == '"' {
      QuoteNeverReadsBack(f.text, tail);
    } else if f.text == "" {
      assert f.text + tail == tail;
    } else {
      PlainReadBack(f.text, tail);
    }
  }

  lemma {:induction false} LineReadsExactly(fs: seq<Field>, tail: string)
    requires |fs| > 0 && (tail == "" || tail[0] == '\n')
    ensures (ReadRecord(Line(fs) + tail).Some? && ReadRecord(Line(fs) + tail).value.value == Texts(fs)) <==>
            RowSafe(fs)
    ensures RowSafe(fs) ==> ReadRecord(Line(fs) + tail).value.rest == tail
    decreases |fs|
  {
    hide Raw, Safe, ReadField;
    var text := Line(fs) + tail;
    var read := ReadRecord(text);
    if |fs| == 1 {
      if Safe(fs[0]) {
        FieldReads(fs[0], tail);
      }
      if read.Some? && read.value.value == Texts(fs) {
        OneFieldBack(fs[0], tail);
      }
    } else {
      var more := "," + (Line(fs[1..]) + tail);
      assert text == Raw(fs[0]) + more;
      assert more[1..] == Line(fs[1..]) + tail;
      LineReadsExactly(fs[1..], tail);
      assert Texts(fs) == [fs[0].text] + Texts(fs[1..]);
      if Safe(fs[0]) {
        FieldReads(fs[0], more);
      }
      if read.Some? && read.value.value == Texts(fs) {
        assert read.value.value[0] == fs[0].text;
        FieldReadBack(fs[0], more);
        assert read.value.value[1..] == Texts(fs[1..]);
      }
      assert forall i | 1 <= i < |fs| :: fs[i] == fs[1..][i - 1];
    }
  }

  lemma OneFieldBack(f: Field, tail: string)
    requires tail == "" || tail[0] == '\n'
    requires ReadRecord(Raw(f) + tail).Some? && ReadRecord(Raw(f) + tail).value.value == [f.text]
    ensures Safe(f)
  {
    hide Raw, Safe, ReadField;
    assert ReadRecord(Raw(f) + tail).value.value[0] == f.text;
    FieldReadBack(f, tail);
  }

  lemma LineNotEmpty(fs: seq<Field>)
    requires |fs| > 1
    ensures Line(fs) != ""
  {
  }

  lemma {:induction false} LinesReadExactly(rows: seq<seq<Field>>)
    requires |rows| > 0 && Rows(rows)
    ensures ReadCsv(Lines(rows)) == Some(AllTexts(rows)) <==> AllSafe(rows)
    decreases |rows|
  {
    hide Line, Safe, ReadRecord, Texts;
    LineNotEmpty(rows[0]);
    if |rows| == 1 {
      assert Lines(rows) == Line(rows[0]) + "";
      LineReadsExactly(rows[0], "");
      if ReadCsv(Lines(rows)) == Some(AllTexts(rows)) {
        assert ReadCsv(Lines(rows)).value[0] == Texts(rows[0]);
      }
      if AllSafe(rows) {
        assert [Texts(rows[0])] == AllTexts(rows);
      }
    } else {
      var tail := "\n" + Lines(rows[1..]);
      assert Lines(rows) == Line(rows[0]) + tail;
      assert tail[1..] == Lines(rows[1..]);
      LineReadsExactly(rows[0], tail);
      LinesReadExactly(rows[1..]);
      assert AllTexts(rows) == [Texts(rows[0])] + AllTexts(rows[1..]);
      if ReadCsv(Lines(rows)) == Some(AllTexts(rows)) {
        var records := ReadCsv(Lines(rows)).value;
        assert records[0] == Texts(rows[0]);
        assert records[1..] == AllTexts(rows[1..]);
      }
      hide RowSafe;
      assert forall i | 1 <= i < |rows| :: rows[i] == rows[1..][i - 1];
      assert AllSafe(rows) <==> RowSafe(rows[0]) && AllSafe(rows[1..]);
    }
  }

  /** The columns the export does not quote are free of commas, quotes and line breaks. */
  predicate Plain(log: Log) {
    && Clean(log.id) && Clean(log.action) && Clean(OrEmpty(log.userId)) && Clean(OrEmpty(log.userEmail))
    && Clean(OrEmpty(log.ipAddress)) && Clean(log.createdAt)
  }

  lemma SafeExactly(log: Log)
    ensures RowSafe(Fields(log)) <==> Plain(log)
  {
    hide Clean;
    var fs := Fields(log);
    if RowSafe(fs) {
      assert Safe(fs[0]) && Safe(fs[1]) && Safe(fs[2]) && Safe(fs[3]) && Safe(fs[5]) && Safe(fs[7]);
    }
  }

  lemma HeaderSafe()
    ensures RowSafe(HEADER)
  {
    assert Clean("ID") && Clean("Action") && Clean("User ID") && Clean("User Email");
    assert Clean("Metadata") && Clean("IP Address") && Clean("User Agent") && Clean("Created At");
    hide Clean;
  }

  const TITLES: seq<string> := [
    "ID", "Action", "User ID", "User Email", "Metadata", "IP Address", "User Agent", "Created At"]

  /** What the column of that title should say about the log. */
  function Attribute(log: Log, title: string): string {
    match title
    case "ID" => log.id
    case "Created At" => log.createdAt
    case "Action" => log.action
    case "Metadata" => log.metadata
    case _ =>
      var value := if title == "User ID" then log.userId
                   else if title == "User Email" then log.userEmail
                   else if title == "IP Address" then log.ipAddress
                   else if title == "User Agent" then log.userAgent
                   else None;
      match value case Some(text) => text case None => ""
  }

  function Attributes(log: Log): seq<string> {
    seq(|TITLES|, c requires 0 <= c < |TITLES| => Attribute(log, TITLES[c]))
  }

  /** The titles, and below them each log's attributes under its title. */
  function Sheet(logs: seq<Log>): seq<seq<string>> {
    [TITLES] + seq(|logs|, i requires 0 <= i < |logs| => Attributes(logs[i]))
  }

  lemma LogIsRow(log: Log)
    ensures Texts(Fields(log)) == Attributes(log)
  {
  }

  lemma HeaderIsTitles()
    ensures Texts(HEADER) == TITLES
  {
  }

  lemma TableIsSheet(logs: seq<Log>)
    ensures AllTexts(Table(logs)) == Sheet(logs)
  {
    hide Texts, Fields, Attributes;
    var rows := Table(logs);
    HeaderIsTitles();
    assert rows[0] == HEADER && forall i | 0 <= i < |logs| :: rows[i + 1] == Fields(logs[i]);
    forall log ensures Texts(Fields(log)) == Attributes(log) {
      LogIsRow(log);
    }
    forall i | 0 <= i < |rows| ensures AllTexts(rows)[i] == Sheet(logs)[i] {
      if i > 0 {
        assert rows[i - 1 + 1] == Fields(logs[i - 1]);
      }
    }
  }

  /** Reading the export back returns the titles and, for every log, its attribute in the column of each title, in
      order and for any metadata and user agent, exactly when the unquoted columns are plain. */
  lemma ExportReadsBackExactly(logs: seq<Log>)
    ensures ReadCsv(ExportCsv(logs)) == Some(Sheet(logs)) <==> forall i | 0 <= i < |logs| :: Plain(logs[i])
  {
    TableIsSheet(logs);
    hide RowSafe, Plain, ReadCsv, Lines, AllTexts, Sheet;
    var rows := Table(logs);
    LinesReadExactly(rows);
    HeaderSafe();
    assert rows[0] == HEADER && forall i | 0 <= i < |logs| :: rows[i + 1] == Fields(logs[i]);
    forall i | 0 <= i < |logs| ensures RowSafe(rows[i + 1]) <==> Plain(logs[i]) {
      SafeExactly(logs[i]);
    }
    if forall i | 0 <= i < |logs| :: Plain(logs[i]) {
      forall i | 0 <= i < |rows| ensures RowSafe(rows[i]) {
        if i > 0 {
          assert Plain(logs[i - 1]);
          assert rows[i - 1 + 1] == rows[i];
        }
      }
    }
  }
}
