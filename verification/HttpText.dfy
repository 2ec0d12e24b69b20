/** util/parser.go and common/http_stream.go: an HTTP message as text. Header lines follow section 2.1
    of RFC 9112: name, colon, value, CRLF. */
module HttpText {
  import opened Common
  import opened Texts

  const CRLF := "\r\n"
  const CRLFCRLF := "\r\n\r\n"

  type Header = map<string, seq<string>>

  // ---------- header names ----------

  predicate IsLetter(c: char) {
    'a' <= c <= 'z' || 'A' <= c <= 'Z'
  }

  predicate IsToken(c: char) {
    || IsLetter(c) || '0' <= c <= '9'
    || c == '!' || '#' <= c <= '\'' || c == '*' || c == '+' || c == '-' || c == '.' || '^' <= c <= '`'
    || c == '|' || c == '~'
  }

  function Upper(c: char): char {
    if 'a' <= c <= 'z' then (c as int - 32) as char else c
  }

  function Lower(c: char): char {
    if 'A' <= c <= 'Z' then (c as int + 32) as char else c
  }

  /** Upper case at the start and after a hyphen, lower case elsewhere. */
  function Recased(s: string, i: nat): char
    requires i < |s|
  {
    if i == 0 || s[i - 1] == '-' then Upper(s[i]) else Lower(s[i])
  }

  /** The canonical form http.Header stores a name under; a text that is no name stays as it is. */
  function Canonical(s: string): string {
    if forall i :: 0 <= i < |s| ==> IsToken(s[i]) then seq(|s|, i requires 0 <= i < |s| => Recased(s, i)) else s
  }

  /** A name the header printer accepts; it skips the others. */
  predicate ValidName(s: string) {
    s != "" && forall i :: 0 <= i < |s| ==> IsToken(s[i])
  }

  predicate IsName(s: string) {
    ValidName(s) && Canonical(s) == s
  }

  predicate IsValue(s: string) {
    Trim(s) == s && Without(s, '\r') && Without(s, '\n')
  }

  /** A header as a canonical map: no name without a value. */
  ghost predicate IsHeader(h: Header) {
    forall k :: k in h ==> IsName(k) && h[k] != [] && forall i :: 0 <= i < |h[k]| ==> IsValue(h[k][i])
  }

  function Add(h: Header, name: string, value: string): Header {
    h[name := (if name in h then h[name] else []) + [value]]
  }

  // ---------- parsing ----------

  /** canon gives the form a name is stored under. */
  function AddLine(canon: string -> string, h: Header, line: string): Header {
    var i := Find(line, ":");
    if i.None? then h else Add(h, canon(line[..i.value]), Trim(line[i.value + 1..]))
  }

  function AddLines(canon: string -> string, lines: seq<string>): Header {
    if lines == [] then map[] else AddLine(canon, AddLines(canon, lines[..|lines| - 1]), lines[|lines| - 1])
  }

  /** The header, and the text between the first two blank lines; None when there is no blank line. */
  function Parsed(canon: string -> string, text: string): (Header, Option<string>) {
    var streams := Split(text, CRLFCRLF);
    (AddLines(canon, Split(streams[0], CRLF)), if |streams| == 1 then None else Some(streams[1]))
  }

  method ParseHttp(text: string) returns (header: Header, body: Option<string>)
    ensures (header, body) == Parsed(Canonical, text)
  {
    var streams := Split(text, CRLFCRLF);
    header := map[];
    var hstreams := Split(streams[0], CRLF);
    for i := 0 to |hstreams|
      invariant header == AddLines(Canonical, hstreams[..i])
    {
      header := ParseLine(header, hstreams[i]);
      assert hstreams[..i + 1][..i] == hstreams[..i];
    }
    assert hstreams[..|hstreams|] == hstreams;
    if |streams| == 1 {
      return header, None;
    }
    body := Some(streams[1]);
  }

  method ParseLine(h: Header, line: string) returns (header: Header)
    ensures header == AddLine(Canonical, h, line)
  {
    header := h;
    var index := Find(line, ":");
    if index.Some? {
      var prefix, suffix := line[..index.value], line[index.value + 1..];
      header := Add(header, Canonical(prefix), Trim(suffix));
    }
  }

  // ---------- printing ----------

  /** One printed header line. */
  datatype Field = Field(name: string, value: string)

  function LineOf(f: Field): string {
    f.name + ": " + f.value
  }

  function FieldsOf(name: string, values: seq<string>): seq<Field> {
    seq(|values|, i requires 0 <= i < |values| => Field(name, values[i]))
  }

  predicate IsAsciiSpace(c: char) {
    c == ' ' || c == '\t' || c == '\n' || c == '\r'
  }

  /** textproto.TrimString */
  function TrimAscii(s: string): string {
    if s != "" && IsAsciiSpace(s[0]) then TrimAscii(s[1..])
    else if s != "" && IsAsciiSpace(s[|s| - 1]) then TrimAscii(s[..|s| - 1])
    else s
  }

  /** A line break inside a value is printed as a space. */
  function WithoutBreaks(s: string): string {
    seq(|s|, i requires 0 <= i < |s| => if s[i] == '\r' || s[i] == '\n' then ' ' else s[i])
  }

  /** What http.Header.Write makes of a header: no lines for an invalid name, values on one line. */
  function Printed(h: Header): Header {
    map k | k in h ::
      if ValidName(k) then seq(|h[k]|, i requires 0 <= i < |h[k]| => TrimAscii(WithoutBreaks(h[k][i]))) else []
  }

  /** A header as a parser leaves it is printed as it is. */
  lemma HeaderPrintsItself(h: Header)
    requires IsHeader(h)
    ensures Printed(h) == h
  {
    forall k | k in h ensures Printed(h)[k] == h[k] {
      forall i | 0 <= i < |h[k]| ensures TrimAscii(WithoutBreaks(h[k][i])) == h[k][i] {
        ValuePrintsItself(h[k][i]);
      }
    }
  }

  lemma ValuePrintsItself(s: string)
    requires IsValue(s)
    ensures TrimAscii(WithoutBreaks(s)) == s
  {
    assert WithoutBreaks(s) == s;
  }

  /** The fields of the names in keys, in that order. */
  function Fields(h: Header, keys: seq<string>): seq<Field>
    requires forall k :: k in keys ==> k in h
  {
    if keys == [] then [] else FieldsOf(keys[0], h[keys[0]]) + Fields(h, keys[1..])
  }

  function FieldsText(fields: seq<Field>): string {
    if fields == [] then "" else LineOf(fields[0]) + CRLF + FieldsText(fields[1..])
  }

  /** keys lists the names of h, each once; the source lists them sorted. */
  ghost predicate Enumerates(keys: seq<string>, h: Header) {
    && (forall k :: k in keys <==> k in h)
    && (forall i, j :: 0 <= i < j < |keys| ==> keys[i] != keys[j])
  }

  /** BuildHttp, for any order of printing the names. */
  function Built(h: Header, keys: seq<string>, body: string): string
    requires forall k :: k in keys ==> k in h
  {
    FieldsText(Fields(Printed(h), keys)) + CRLF + body
  }

  function Pad3(n: nat): string {
    if n < 10 then "00" + Decimal(n) else if n < 100 then "0" + Decimal(n) else Decimal(n)
  }

  /** text is the registered phrase of the code, empty when there is none. */
  function StatusLine(code: nat, text: string): string {
    "HTTP/1.1 " + if text != "" then Decimal(code) + " " + text else Pad3(code) + " status code " + Decimal(code)
  }

  /** BuildPayloadAsHttp; date is the formatted time. */
  function Payload(code: nat, text: string, h: Header, keys: seq<string>, date: string, body: string): string
    requires forall k :: k in keys ==> k in h
  {
    StatusLine(code, text) + CRLF + FieldsText(Fields(Printed(h), keys)) + "Date: " + date + CRLF
    + "Content-Length: " + Decimal(|body|) + CRLFCRLF + body
  }

  /** One more line printed. */
  lemma FieldsTextStep(buffer: string, fields: seq<Field>, i: nat)
    requires i < |fields|
    ensures buffer + (LineOf(fields[i]) + CRLF) + FieldsText(fields[i + 1..]) == buffer + FieldsText(fields[i..])
  {
    var line, rest := LineOf(fields[i]) + CRLF, FieldsText(fields[i + 1..]);
    assert fields[i..][1..] == fields[i + 1..];
    assert FieldsText(fields[i..]) == line + rest;
    assert (buffer + line) + rest == buffer + (line + rest);
  }

  method WriteHeader(h: Header, keys: seq<string>) returns (buffer: string)
    requires Enumerates(keys, h)
    ensures buffer == FieldsText(Fields(Printed(h), keys))
  {
    buffer := "";
    var fields := Fields(Printed(h), keys);
    var i := 0;
    while i < |fields|
      invariant 0 <= i <= |fields|
      invariant buffer + FieldsText(fields[i..]) == FieldsText(fields)
    {
      FieldsTextStep(buffer, fields, i);
      buffer := buffer + (LineOf(fields[i]) + CRLF);
      i := i + 1;
    }
    assert buffer + "" == buffer;
  }

  method BuildHttp(h: Header, keys: seq<string>, body: string) returns (text: string)
    requires Enumerates(keys, h)
    ensures text == Built(h, keys, body)
  {
    var buffer := WriteHeader(h, keys);
    var streams := [buffer, body];
    text := Join(streams, CRLF);
    assert streams[1..] == [body];
    assert Join([body], CRLF) == body;
  }

  method BuildPayloadAsHttp(code: nat, statusText: string, h: Header, keys: seq<string>, date: string, body: string)
    returns (buffer: string)
    requires Enumerates(keys, h)
    ensures buffer == Payload(code, statusText, h, keys, date, body)
  {
    buffer := StatusLine(code, statusText) + CRLF;
    var headerText := WriteHeader(h, keys);
    buffer := buffer + headerText;
    buffer := buffer + "Date: ";
    buffer := buffer + date;
    buffer := buffer + CRLF;
    buffer := buffer + "Content-Length: ";
    buffer := buffer + Decimal(|body|);
    buffer := buffer + CRLFCRLF;
    buffer := buffer + body;
  }

  // ---------- what a printed message parses to ----------

  /** A header line as printed: not empty and without CR. */
  predicate IsLine(s: string) {
    s != "" && Without(s, '\r')
  }

  lemma Associative(a: string, b: string, c: string)
    ensures a + (b + c) == a + b + c
  {
  }

  /** Behind a line that is not the last, the next blank line is that of the rest. */
  lemma BlankAfterLine(line: string, rest: string)
    requires IsLine(line) && rest != "" && rest[0] != '\r' && Find(rest, CRLFCRLF).Some?
    ensures Find(line + (CRLF + rest), CRLFCRLF) == Some(|line| + 2 + Find(rest, CRLFCRLF).value)
  {
    NoBlankAtBreak(rest);
    FindSkips(line, CRLF + rest, CRLFCRLF);
  }

  lemma BlankAfterLast(line: string, body: string)
    requires IsLine(line)
    ensures Find(line + CRLFCRLF + body, CRLFCRLF) == Some(|line|)
  {
    var rest := CRLFCRLF + body;
    FindSkips(line, rest, CRLFCRLF);
    assert rest[..4] == CRLFCRLF;
    assert line + rest == line + CRLFCRLF + body;
  }

  /** The blank line after the header is the first one of the message. */
  lemma {:induction false} FirstBlankLine(lines: seq<string>, body: string)
    requires lines != [] && forall i :: 0 <= i < |lines| ==> IsLine(lines[i])
    ensures Find(Join(lines, CRLF) + CRLFCRLF + body, CRLFCRLF) == Some(|Join(lines, CRLF)|)
    decreases |lines|
  {
    if |lines| == 1 {
      BlankAfterLast(lines[0], body);
    } else {
      var tail := Join(lines[1..], CRLF);
      var rest := tail + CRLFCRLF + body;
      FirstBlankLine(lines[1..], body);
      JoinStarts(lines[1..]);
      BlankAfterLine(lines[0], rest);
      Associative(lines[0], CRLF, rest);
      assert lines[0] + CRLF + tail + CRLFCRLF + body == lines[0] + CRLF + rest;
    }
  }

  lemma JoinStarts(lines: seq<string>)
    requires lines != [] && IsLine(lines[0])
    ensures Join(lines, CRLF) != "" && Join(lines, CRLF)[0] != '\r'
  {
  }

  lemma NoBlankAtBreak(rest: string)
    requires rest != "" && rest[0] != '\r'
    ensures Find(CRLF + rest, CRLFCRLF)
         == if Find(rest, CRLFCRLF).None? then None else Some(2 + Find(rest, CRLFCRLF).value)
  {
    var s := CRLF + rest;
    assert s[1..] == "\n" + rest;
    FindSkips("\n", rest, CRLFCRLF);
    if |s| >= 4 {
      assert s[..4][2] == rest[0];
    } else {
      ShortHasNone(rest, CRLFCRLF);
    }
  }

  /** A message made of such lines splits into its lines and the first part of its body. */
  lemma MessageSplits(canon: string -> string, lines: seq<string>, body: string)
    requires lines != [] && forall i :: 0 <= i < |lines| ==> IsLine(lines[i])
    ensures Parsed(canon, Join(lines, CRLF) + CRLFCRLF + body)
            == (AddLines(canon, lines), Some(Split(body, CRLFCRLF)[0]))
  {
    var head := Join(lines, CRLF);
    var text := head + CRLFCRLF + body;
    FirstBlankLine(lines, body);
    assert text[..|head|] == head && text[|head| + 4..] == body;
    assert Split(text, CRLFCRLF) == [head] + Split(body, CRLFCRLF);
    SplitJoin(lines, CRLF);
  }

  function Lines(fields: seq<Field>): seq<string> {
    seq(|fields|, i requires 0 <= i < |fields| => LineOf(fields[i]))
  }

  lemma {:induction false} FieldsTextIsJoin(fields: seq<Field>)
    requires fields != []
    ensures FieldsText(fields) == Join(Lines(fields), CRLF) + CRLF
  {
    assert Lines(fields)[1..] == Lines(fields[1..]);
    if |fields| > 1 {
      FieldsTextIsJoin(fields[1..]);
      assert LineOf(fields[0]) + CRLF + (Join(Lines(fields[1..]), CRLF) + CRLF)
          == (LineOf(fields[0]) + CRLF + Join(Lines(fields[1..]), CRLF)) + CRLF;
    } else {
      assert FieldsText(fields[1..]) == "";
      assert LineOf(fields[0]) + CRLF + "" == LineOf(fields[0]) + CRLF;
    }
  }

  /** A field that is printed as one line and stored under its own name. */
  predicate IsField(canon: string -> string, f: Field) {
    f.name != "" && Without(f.name, ':') && Without(f.name, '\r') && canon(f.name) == f.name && IsValue(f.value)
  }

  lemma NamesPrint(name: string, value: string)
    requires IsName(name) && IsValue(value)
    ensures IsField(Canonical, Field(name, value))
  {
  }

  function Collect(fields: seq<Field>): Header {
    if fields == [] then map[]
    else Add(Collect(fields[..|fields| - 1]), fields[|fields| - 1].name, fields[|fields| - 1].value)
  }

  lemma ColonFound(name: string, value: string)
    requires Without(name, ':')
    ensures Find(name + ": " + value, ":") == Some(|name|)
  {
    var rest := ": " + value;
    assert rest[..1] == ":";
    FindSkips(name, rest, ":");
    assert name + ": " + value == name + rest;
  }

  lemma LineParses(canon: string -> string, h: Header, f: Field)
    requires IsField(canon, f)
    ensures AddLine(canon, h, LineOf(f)) == Add(h, f.name, f.value)
  {
    ColonFound(f.name, f.value);
    LineParts(f.name, f.value);
    TrimLeadingSpace(f.value);
  }

  lemma LineParts(name: string, value: string)
    ensures
      var line := name + ": " + value;
      line[..|name|] == name && line[|name| + 1..] == " " + value
  {
    var line := name + ": " + value;
    assert line[..|name|] == name;
    assert line[|name| + 1..] == " " + value;
  }

  lemma FieldIsLine(canon: string -> string, f: Field)
    requires IsField(canon, f)
    ensures IsLine(LineOf(f))
  {
    assert Without(": ", '\r');
  }

  lemma LinesAreLines(canon: string -> string, fields: seq<Field>)
    requires forall i :: 0 <= i < |fields| ==> IsField(canon, fields[i])
    ensures forall i :: 0 <= i < |fields| ==> IsLine(Lines(fields)[i])
  {
    forall i | 0 <= i < |fields| ensures IsLine(Lines(fields)[i]) {
      FieldIsLine(canon, fields[i]);
    }
  }

  lemma {:induction false} LinesParse(canon: string -> string, fields: seq<Field>)
    requires forall i :: 0 <= i < |fields| ==> IsField(canon, fields[i])
    ensures AddLines(canon, Lines(fields)) == Collect(fields)
    decreases |fields|
  {
    if fields != [] {
      var n := |fields| - 1;
      LinesParse(canon, fields[..n]);
      LineParses(canon, Collect(fields[..n]), fields[n]);
      assert Lines(fields)[..n] == Lines(fields[..n]);
      assert Lines(fields)[n] == LineOf(fields[n]);
    }
  }

  // ---------- a header comes back as it was ----------

  lemma {:induction false} CollectValues(fields: seq<Field>, name: string, values: seq<string>)
    requires name !in Collect(fields)
    ensures Collect(fields + FieldsOf(name, values))
         == if values == [] then Collect(fields) else Collect(fields)[name := values]
  {
    var all := fields + FieldsOf(name, values);
    if values == [] {
      assert all == fields;
    } else {
      var n := |values| - 1;
      assert all[..|all| - 1] == fields + FieldsOf(name, values[..n]);
      CollectValues(fields, name, values[..n]);
      assert values == values[..n] + [values[n]];
    }
  }

  function Restricted(h: Header, keys: seq<string>): Header {
    map k | k in h && k in keys :: h[k]
  }

  /** One name printed: done grows by it. */
  lemma CollectOne(h: Header, done: seq<string>, k: string, fields: seq<Field>)
    requires k in h && h[k] != [] && k !in done
    requires Collect(fields) == Restricted(h, done)
    ensures Collect(fields + FieldsOf(k, h[k])) == Restricted(h, done + [k])
  {
    CollectValues(fields, k, h[k]);
  }

  ghost predicate Fresh(done: seq<string>, keys: seq<string>) {
    && (forall i :: 0 <= i < |keys| ==> keys[i] !in done)
    && (forall i, j :: 0 <= i < j < |keys| ==> keys[i] != keys[j])
  }

  lemma {:induction false} CollectFields(h: Header, done: seq<string>, keys: seq<string>, fields: seq<Field>)
    requires forall k :: k in keys ==> k in h && h[k] != []
    requires Fresh(done, keys)
    requires Collect(fields) == Restricted(h, done)
    ensures Collect(fields + Fields(h, keys)) == Restricted(h, done + keys)
    decreases |keys|
  {
    if keys == [] {
      assert done + keys == done;
      assert fields + [] == fields;
    } else {
      var k := keys[0];
      CollectOne(h, done, k, fields);
      FreshRest(done, keys);
      assert done + [k] + keys[1..] == done + keys;
      CollectFields(h, done + [k], keys[1..], fields + FieldsOf(k, h[k]));
      FieldsStep(h, keys, fields);
    }
  }

  lemma FieldsStep(h: Header, keys: seq<string>, fields: seq<Field>)
    requires keys != [] && forall k :: k in keys ==> k in h
    ensures fields + FieldsOf(keys[0], h[keys[0]]) + Fields(h, keys[1..]) == fields + Fields(h, keys)
  {
    var first, rest := FieldsOf(keys[0], h[keys[0]]), Fields(h, keys[1..]);
    assert Fields(h, keys) == first + rest;
    assert (fields + first) + rest == fields + (first + rest);
  }

  lemma FreshRest(done: seq<string>, keys: seq<string>)
    requires keys != [] && Fresh(done, keys)
    ensures Fresh(done + [keys[0]], keys[1..])
  {
  }

  /** All names printed, in any order. */
  lemma CollectAll(h: Header, keys: seq<string>)
    requires IsHeader(h) && Enumerates(keys, h)
    ensures Collect(Fields(h, keys)) == h
  {
    assert Collect([]) == Restricted(h, []);
    CollectFields(h, [], keys, []);
    assert [] + keys == keys && [] + Fields(h, keys) == Fields(h, keys);
    assert Restricted(h, keys) == h;
  }

  lemma {:induction false} FieldsAreFields(h: Header, keys: seq<string>)
    requires IsHeader(h) && forall k :: k in keys ==> k in h
    ensures forall i :: 0 <= i < |Fields(h, keys)| ==> IsField(Canonical, Fields(h, keys)[i])
    ensures keys != [] ==> Fields(h, keys) != []
    decreases |keys|
  {
    if keys != [] {
      var k := keys[0];
      FieldsAreFields(h, keys[1..]);
      ValuesAreFields(k, h[k]);
    }
  }

  lemma ValuesAreFields(name: string, values: seq<string>)
    requires IsName(name) && forall i :: 0 <= i < |values| ==> IsValue(values[i])
    ensures forall i :: 0 <= i < |values| ==> IsField(Canonical, FieldsOf(name, values)[i])
  {
    forall i | 0 <= i < |values| ensures IsField(Canonical, FieldsOf(name, values)[i]) {
      NamesPrint(name, values[i]);
    }
  }

  /** A printed header, closed by a blank line, parses to what was collected in it. */
  lemma FieldsMessage(canon: string -> string, fields: seq<Field>, body: string)
    requires fields != [] && forall i :: 0 <= i < |fields| ==> IsField(canon, fields[i])
    ensures Parsed(canon, FieldsText(fields) + CRLF + body) == (Collect(fields), Some(Split(body, CRLFCRLF)[0]))
  {
    FieldsTextIsJoin(fields);
    LinesParse(canon, fields);
    LinesAreLines(canon, fields);
    var head := Join(Lines(fields), CRLF);
    assert (head + CRLF) + CRLF + body == head + CRLFCRLF + body;
    MessageSplits(canon, Lines(fields), body);
  }

  /** Parsing a built message gives back its header, in whatever order the names are printed, and its
      body up to the first blank line in it. */
  lemma ParseAfterBuild(h: Header, keys: seq<string>, body: string)
    requires IsHeader(h) && h != map[] && Enumerates(keys, h)
    ensures Parsed(Canonical, Built(h, keys, body)) == (h, Some(Split(body, CRLFCRLF)[0]))
  {
    var k :| k in h;
    assert k in keys;
    HeaderPrintsItself(h);
    FieldsAreFields(h, keys);
    FieldsMessage(Canonical, Fields(h, keys), body);
    CollectAll(h, keys);
  }

  /** The body comes back whole exactly when it contains no blank line. */
  lemma BodyComesBackExactly(h: Header, keys: seq<string>, body: string)
    requires IsHeader(h) && h != map[] && Enumerates(keys, h)
    ensures Parsed(Canonical, Built(h, keys, body)) == (h, Some(body)) <==> Find(body, CRLFCRLF).None?
  {
    ParseAfterBuild(h, keys, body);
    WholeExactly(body);
  }

  lemma WholeExactly(body: string)
    ensures Split(body, CRLFCRLF)[0] == body <==> Find(body, CRLFCRLF).None?
  {
  }

  lemma StatusLineIsSkipped(code: nat, text: string)
    requires Without(text, '\r') && Without(text, ':')
    ensures IsLine(StatusLine(code, text)) && Find(StatusLine(code, text), ":").None?
  {
    var line := StatusLine(code, text);
    StatusLineIsPlain(code, text);
    FindSkips(line, "", ":");
    assert line + "" == line;
  }

  lemma StatusLineIsPlain(code: nat, text: string)
    requires Without(text, '\r') && Without(text, ':')
    ensures Without(StatusLine(code, text), ':') && Without(StatusLine(code, text), '\r')
    ensures StatusLine(code, text) != ""
  {
    DecimalIsDigits(code);
    var digits := Decimal(code);
    assert Without(digits, ':') && Without(digits, '\r');
    assert Without("HTTP/1.1 ", ':') && Without("HTTP/1.1 ", '\r');
    assert Without(" status code ", ':') && Without(" status code ", '\r');
    assert Without(Pad3(code), ':') && Without(Pad3(code), '\r');
  }

  lemma NameFits(s: string)
    requires s != "" && forall i :: 0 <= i < |s| ==> IsToken(s[i]) && Recased(s, i) == s[i]
    ensures IsName(s)
  {
    assert Canonical(s) == s;
  }

  lemma DateIsName()
    ensures IsName("Date")
  {
    NameFits("Date");
  }

  lemma ContentLengthIsName()
    ensures IsName("Content-Length")
  {
    var s := "Content-Length";
    forall i | 0 <= i < |s| ensures IsToken(s[i]) && Recased(s, i) == s[i] {
      assert i == 0 || i == 8 || s[i] == '-' || (s[i - 1] != '-' && 'a' <= s[i] <= 'z');
    }
    NameFits(s);
  }

  lemma {:induction false} AddLinesSkip(canon: string -> string, first: string, lines: seq<string>)
    requires Find(first, ":").None?
    ensures AddLines(canon, [first] + lines) == AddLines(canon, lines)
    decreases |lines|
  {
    if lines == [] {
      assert [first] + lines == [first];
      assert [first][..0] == [];
    } else {
      var n := |lines| - 1;
      assert ([first] + lines)[..n + 1] == [first] + lines[..n];
      AddLinesSkip(canon, first, lines[..n]);
    }
  }

  function PayloadFields(h: Header, keys: seq<string>, date: string, n: nat): seq<Field>
    requires forall k :: k in keys ==> k in h
  {
    Fields(h, keys) + [Field("Date", date), Field("Content-Length", Decimal(n))]
  }

  /** Parsing a payload message, for every status code: the header with the date and the length added
      after whatever it already holds under those names, and the body up to its first blank line. */
  lemma ParseAfterPayload(code: nat, text: string, h: Header, keys: seq<string>, date: string, body: string)
    requires Without(text, '\r') && Without(text, ':')
    requires IsHeader(h) && Enumerates(keys, h) && IsValue(date)
    ensures Parsed(Canonical, Payload(code, text, h, keys, date, body))
         == (Add(Add(h, "Date", date), "Content-Length", Decimal(|body|)), Some(Split(body, CRLFCRLF)[0]))
  {
    PayloadFieldsPrint(h, keys, date, |body|);
    PayloadFieldsCollect(h, keys, date, |body|);
    PayloadText(code, text, h, keys, date, body);
    StatusLineIsSkipped(code, text);
    SkippedLineMessage(Canonical, StatusLine(code, text), PayloadFields(h, keys, date, |body|), body);
  }

  lemma SkippedLineMessage(canon: string -> string, first: string, fields: seq<Field>, body: string)
    requires IsLine(first) && Find(first, ":").None?
    requires forall i :: 0 <= i < |fields| ==> IsField(canon, fields[i])
    ensures Parsed(canon, Join([first] + Lines(fields), CRLF) + CRLFCRLF + body)
            == (Collect(fields), Some(Split(body, CRLFCRLF)[0]))
  {
    LinesParse(canon, fields);
    LinesAreLines(canon, fields);
    AddLinesSkip(canon, first, Lines(fields));
    MessageSplits(canon, [first] + Lines(fields), body);
  }

  lemma PayloadFieldsPrint(h: Header, keys: seq<string>, date: string, n: nat)
    requires IsHeader(h) && Enumerates(keys, h) && IsValue(date)
    ensures forall i :: 0 <= i < |PayloadFields(h, keys, date, n)| ==>
              IsField(Canonical, PayloadFields(h, keys, date, n)[i])
  {
    FieldsAreFields(h, keys);
    DateIsName();
    ContentLengthIsName();
    DecimalIsDigits(n);
    NamesPrint("Date", date);
    NamesPrint("Content-Length", Decimal(n));
  }

  lemma PayloadFieldsCollect(h: Header, keys: seq<string>, date: string, n: nat)
    requires IsHeader(h) && Enumerates(keys, h)
    ensures Collect(PayloadFields(h, keys, date, n)) == Add(Add(h, "Date", date), "Content-Length", Decimal(n))
  {
    CollectAll(h, keys);
    CollectTwo(Fields(h, keys), Field("Date", date), Field("Content-Length", Decimal(n)));
  }

  lemma CollectTwo(fields: seq<Field>, f: Field, g: Field)
    ensures Collect(fields + [f, g]) == Add(Add(Collect(fields), f.name, f.value), g.name, g.value)
  {
    var all := fields + [f, g];
    assert all[..|all| - 1] == fields + [f];
    assert (fields + [f])[..|fields|] == fields;
  }

  lemma {:induction false} FieldsTextAppend(xs: seq<Field>, ys: seq<Field>)
    ensures FieldsText(xs + ys) == FieldsText(xs) + FieldsText(ys)
  {
    if xs == [] {
      assert xs + ys == ys;
      assert "" + FieldsText(ys) == FieldsText(ys);
    } else {
      assert (xs + ys)[1..] == xs[1..] + ys;
      FieldsTextAppend(xs[1..], ys);
      assert LineOf(xs[0]) + CRLF + (FieldsText(xs[1..]) + FieldsText(ys))
          == (LineOf(xs[0]) + CRLF + FieldsText(xs[1..])) + FieldsText(ys);
    }
  }

  lemma PayloadText(code: nat, text: string, h: Header, keys: seq<string>, date: string, body: string)
    requires IsHeader(h) && Enumerates(keys, h)
    ensures Payload(code, text, h, keys, date, body)
         == Join([StatusLine(code, text)] + Lines(PayloadFields(h, keys, date, |body|)), CRLF) + CRLFCRLF + body
  {
    HeaderPrintsItself(h);
    var fields := Fields(h, keys);
    var last := [Field("Date", date), Field("Content-Length", Decimal(|body|))];
    FieldsTextAppend(fields, last);
    TwoFieldsText(date, Decimal(|body|));
    FieldsTextIsJoin(fields + last);
    JoinFirst(StatusLine(code, text), Lines(fields + last));
    PayloadGlue(StatusLine(code, text) + CRLF, FieldsText(fields), date, Decimal(|body|),
                Join(Lines(fields + last), CRLF), body);
  }

  lemma JoinFirst(first: string, lines: seq<string>)
    requires lines != []
    ensures Join([first] + lines, CRLF) == first + CRLF + Join(lines, CRLF)
  {
    assert ([first] + lines)[1..] == lines;
  }

  lemma TwoFieldsText(date: string, n: string)
    ensures FieldsText([Field("Date", date), Field("Content-Length", n)])
            == "Date: " + date + CRLF + "Content-Length: " + n + CRLF
  {
    var fields := [Field("Date", date), Field("Content-Length", n)];
    assert fields[1..] == [Field("Content-Length", n)];
    assert fields[1..][1..] == [];
    assert LineOf(fields[0]) == "Date: " + date && LineOf(fields[1]) == "Content-Length: " + n;
    assert FieldsText(fields[1..]) == "Content-Length: " + n + CRLF + "";
    assert "Date: " + date + CRLF + ("Content-Length: " + n + CRLF + "")
        == "Date: " + date + CRLF + "Content-Length: " + n + CRLF;
  }

  lemma PayloadGlue(status: string, headerText: string, date: string, n: string, joined: string, body: string)
    requires headerText + ("Date: " + date + CRLF + "Content-Length: " + n + CRLF) == joined + CRLF
    ensures status + headerText + "Date: " + date + CRLF + "Content-Length: " + n + CRLFCRLF + body
            == status + joined + CRLFCRLF + body
  {
    assert n + CRLFCRLF == n + CRLF + CRLF;
    assert status + headerText + "Date: " + date + CRLF + "Content-Length: " + n + CRLFCRLF
        == status + (headerText + ("Date: " + date + CRLF + "Content-Length: " + n + CRLF)) + CRLF;
    assert status + (joined + CRLF) + CRLF == status + joined + CRLFCRLF;
  }
}
