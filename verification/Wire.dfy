/** The text protocol between client and leader: the client's SET lines and the leader's line loop. */
module Wire {
  import opened Decimal
  import opened Text

  const MIN_INT32 := -0x8000_0000
  const MAX_INT32 := 0x7fff_ffff

  /** Go's conversion of a 64-bit integer to 32 bits. */
  function ToInt32(n: int): (r: int)
    ensures MIN_INT32 <= r <= MAX_INT32
    ensures MIN_INT32 <= n <= MAX_INT32 ==> r == n
    ensures (r - n) % 0x1_0000_0000 == 0
  {
    (n + 0x8000_0000) % 0x1_0000_0000 - 0x8000_0000
  }

  // ---------------------------------------------------------------- The leader's side

  /** Upper case, as far as the five commands can tell: other letters never become one of theirs. */
  function Upper(c: char): char {
    if 'a' <= c <= 'z' then (c as int - 'a' as int + 'A' as int) as char
    else if c == '\U{17F}' then 'S'
    else if c == '\U{131}' then 'I'
    else c
  }

  function ToUpper(s: string): string {
    seq(|s|, i requires 0 <= i < |s| => Upper(s[i]))
  }

  /** What a line asks for, errors included. */
  datatype Command =
    | Blank
    | Store(id: int, text: string)
    | Retrieve(id: int)
    | Help
    | Quit
    | BadSet
    | BadSetId
    | BadGet
    | BadGetId
    | Unknown

  function ParseFields(parts: seq<string>): Command
    requires parts != []
  {
    var cmd := ToUpper(parts[0]);
    if cmd == "SET" then
      if |parts| < 3 then BadSet
      else match Atoi(parts[1])
           case None => BadSetId
           case Some(id) => Store(ToInt32(id), Join(parts[2..]))
    else if cmd == "GET" then
      if |parts| != 2 then BadGet
      else match Atoi(parts[1])
           case None => BadGetId
           case Some(id) => Retrieve(ToInt32(id))
    else if cmd == "HELP" then Help
    else if cmd == "QUIT" || cmd == "EXIT" then Quit
    else Unknown
  }

  function ParseLine(line: string): Command {
    var t := TrimSpace(line);
    FieldsOfTrim(line);
    if t == "" then Blank else ParseFields(Fields(t))
  }

  // ---------------------------------------------------------------- What a line asks for

  /** The capital letter `up` in upper or lower case, with the two letters outside ASCII that have it as upper case. */
  predicate IsLetter(c: char, up: char) {
    c == up || c as int == up as int + 32 || (up == 'S' && c == '\U{17F}') || (up == 'I' && c == '\U{131}')
  }

  /** The keyword in any case. */
  predicate IsKeyword(w: string, keyword: string) {
    |w| == |keyword| && forall i :: 0 <= i < |w| ==> IsLetter(w[i], keyword[i])
  }

  lemma UpperIsKeyword(w: string, keyword: string)
    requires forall i :: 0 <= i < |keyword| ==> 'A' <= keyword[i] <= 'Z'
    ensures ToUpper(w) == keyword <==> IsKeyword(w, keyword)
  {
    if |w| == |keyword| {
      forall i | 0 <= i < |w| ensures Upper(w[i]) == keyword[i] <==> IsLetter(w[i], keyword[i]) {
      }
      assert forall i :: 0 <= i < |w| ==> ToUpper(w)[i] == Upper(w[i]);
    }
  }

  /** The 32-bit integer with the same low bits as `v`. */
  predicate IsLow32(r: int, v: int) {
    MIN_INT32 <= r <= MAX_INT32 && (r - v) % 0x1_0000_0000 == 0
  }

  lemma Low32IsUnique(r: int, v: int)
    ensures IsLow32(r, v) <==> r == ToInt32(v)
  {
  }

  /** The field is a numeral, and `id` is what the leader makes of it. */
  ghost predicate NamesId(field: string, id: int) {
    exists v :: IsNumeral(field, v) && IsLow32(id, v)
  }

  lemma AtoiNamesId(field: string, id: int)
    ensures NamesId(field, id) <==> Atoi(field).Some? && ToInt32(Atoi(field).value) == id
  {
    if Atoi(field).Some? {
      AtoiMeans(field, Atoi(field).value);
      Low32IsUnique(id, Atoi(field).value);
    }
    forall v | IsNumeral(field, v) && IsLow32(id, v) ensures Atoi(field) == Some(v) && id == ToInt32(v) {
      AtoiMeans(field, v);
      Low32IsUnique(id, v);
    }
  }

  predicate IsCommandWord(w: string) {
    || IsKeyword(w, "SET") || IsKeyword(w, "GET") || IsKeyword(w, "HELP") || IsKeyword(w, "QUIT")
    || IsKeyword(w, "EXIT")
  }

  /** When a line with these fields is the command `c`. */
  ghost predicate Asks(fields: seq<string>, c: Command) {
    if fields == [] then c == Blank
    else
      var w := fields[0];
      match c
      case Blank => false
      case Store(id, text) =>
        IsKeyword(w, "SET") && |fields| >= 3 && NamesId(fields[1], id) && text == Join(fields[2..])
      case BadSet => IsKeyword(w, "SET") && |fields| < 3
      case BadSetId => IsKeyword(w, "SET") && |fields| >= 3 && forall id :: !NamesId(fields[1], id)
      case Retrieve(id) => IsKeyword(w, "GET") && |fields| == 2 && NamesId(fields[1], id)
      case BadGet => IsKeyword(w, "GET") && |fields| != 2
      case BadGetId => IsKeyword(w, "GET") && |fields| == 2 && forall id :: !NamesId(fields[1], id)
      case Help => IsKeyword(w, "HELP")
      case Quit => IsKeyword(w, "QUIT") || IsKeyword(w, "EXIT")
      case Unknown => !IsCommandWord(w)
  }

  lemma Keywords(w: string)
    ensures forall k :: k in {"SET", "GET", "HELP", "QUIT", "EXIT"} ==> (ToUpper(w) == k <==> IsKeyword(w, k))
  {
    UpperIsKeyword(w, "SET");
    UpperIsKeyword(w, "GET");
    UpperIsKeyword(w, "HELP");
    UpperIsKeyword(w, "QUIT");
    UpperIsKeyword(w, "EXIT");
  }

  /** A line is exactly the command that its fields ask for, and blank exactly when all of it is white space. */
  lemma ParseLineMeans(line: string, c: Command)
    ensures ParseLine(line) == c <==> Asks(Fields(line), c)
    ensures ParseLine(line) == Blank <==> forall k :: 0 <= k < |line| ==> IsSpace(line[k])
  {
    hide ParseLine, ParseFields, Asks, IsSpace, Fields;
    NoFields(line);
    ParseLineIsOfFields(line);
    if Fields(line) == [] {
      BlankAsks(c);
    } else {
      FieldsMean(Fields(line), c);
      FieldsMean(Fields(line), Blank);
      NeverBlank(Fields(line));
    }
  }

  lemma ParseLineIsOfFields(line: string)
    ensures ParseLine(line) == if Fields(line) == [] then Blank else ParseFields(Fields(line))
  {
    FieldsOfTrim(line);
  }

  lemma BlankAsks(c: Command)
    ensures Asks([], c) <==> c == Blank
  {
  }

  lemma NeverBlank(fields: seq<string>)
    requires fields != []
    ensures !Asks(fields, Blank)
  {
  }

  lemma FieldsMean(fields: seq<string>, c: Command)
    requires fields != []
    ensures ParseFields(fields) == c <==> Asks(fields, c)
  {
    hide IsKeyword, ToUpper, Atoi, NamesId, ToInt32;
    Keywords(fields[0]);
    KeywordsDiffer();
    if |fields| >= 2 {
      IdsOf(fields[1]);
    }
  }

  lemma IdsOf(field: string)
    ensures Atoi(field) == None <==> forall id :: !NamesId(field, id)
    ensures forall id :: NamesId(field, id) <==> Atoi(field).Some? && ToInt32(Atoi(field).value) == id
  {
    forall id ensures NamesId(field, id) <==> Atoi(field).Some? && ToInt32(Atoi(field).value) == id {
      AtoiNamesId(field, id);
    }
    if Atoi(field).Some? {
      assert NamesId(field, ToInt32(Atoi(field).value));
    }
  }

  lemma KeywordsDiffer()
    ensures "SET" != "GET" && "SET"[0] != "HELP"[0] && "HELP"[0] != "QUIT"[0] && "QUIT"[0] != "EXIT"[0]
    ensures "HELP"[0] != "EXIT"[0] && |"SET"| == |"GET"| == 3 && |"HELP"| == |"QUIT"| == |"EXIT"| == 4
  {
    assert "SET"[0] == 'S' && "GET"[0] == 'G';
  }

  // ---------------------------------------------------------------- The line loop

  /** The length of the first line with its line feed, or 0 when there is no line feed. */
  function FirstLine(stream: string): (n: nat)
    ensures n <= |stream|
    ensures n == 0 <==> '\n' !in stream
    ensures n > 0 ==> stream[n - 1] == '\n' && '\n' !in stream[..n - 1]
  {
    if stream == [] then 0
    else if stream[0] == '\n' then 1
    else
      var n := FirstLine(stream[1..]);
      assert n > 0 ==> stream[..n] == [stream[0]] + stream[1..][..n - 1];
      if n == 0 then 0 else n + 1
  }

  /** The commands of a connection: one for each complete line, up to a quit or the end. */
  function Session(stream: string): seq<Command>
    decreases |stream|
  {
    var n := FirstLine(stream);
    if n == 0 then []
    else
      var c := ParseLine(stream[..n]);
      if c == Quit then [c] else [c] + Session(stream[n..])
  }

  lemma {:induction false} LineFound(s: string, n: nat)
    requires n <= |s| && '\n' !in s[..n] && (n < |s| ==> s[n] == '\n')
    ensures FirstLine(s) == if n < |s| then n + 1 else 0
  {
    if n > 0 {
      assert s[..n][0] == s[0];
      assert s[1..][..n - 1] == s[..n][1..];
      LineFound(s[1..], n - 1);
    }
  }

  /** The lines, each with its line feed. */
  function Unlines(lines: seq<string>): string {
    if lines == [] then "" else lines[0] + "\n" + Unlines(lines[1..])
  }

  ghost predicate AreLines(lines: seq<string>) {
    forall i :: 0 <= i < |lines| ==> '\n' !in lines[i]
  }

  /** Every stream is some complete lines and an incomplete one. */
  lemma {:induction false} LinesOf(stream: string) returns (lines: seq<string>, rest: string)
    ensures AreLines(lines) && '\n' !in rest && stream == Unlines(lines) + rest
    decreases |stream|
  {
    var n := FirstLine(stream);
    if n == 0 {
      lines, rest := [], stream;
    } else {
      var later;
      later, rest := LinesOf(stream[n..]);
      lines := [stream[..n - 1]] + later;
      assert lines[1..] == later;
      assert stream == stream[..n - 1] + "\n" + stream[n..];
    }
  }

  lemma ParseWithLineFeed(line: string)
    ensures ParseLine(line + "\n") == ParseLine(line)
  {
    hide ParseLine, ParseFields;
    FieldsSplit(line, '\n', "");
    assert line + ['\n'] + "" == line + "\n";
    assert Fields("") == [];
    assert Fields(line + "\n") == Fields(line);
    ParseLineIsOfFields(line);
    ParseLineIsOfFields(line + "\n");
  }

  lemma SessionOfLine(line: string, rest: string)
    requires '\n' !in line
    ensures Session(line + "\n" + rest)
            == if ParseLine(line) == Quit then [Quit] else [ParseLine(line)] + Session(rest)
  {
    var s := line + "\n" + rest;
    var n := |line|;
    assert s[..n] == line && s[n] == '\n';
    LineFound(s, n);
    assert s[..n + 1] == line + "\n" && s[n + 1..] == rest;
    ParseWithLineFeed(line);
  }

  /** What a connection that sends these lines asks for: each line in turn, up to and including the first quit. */
  ghost predicate AnswersLines(commands: seq<Command>, lines: seq<string>) {
    && |commands| <= |lines|
    && (forall i :: 0 <= i < |commands| ==> commands[i] == ParseLine(lines[i]))
    && (forall i :: 0 <= i < |commands| - 1 ==> commands[i] != Quit)
    && (|commands| < |lines| ==> commands != [] && commands[|commands| - 1] == Quit)
  }

  /** Every complete line is one command, and neither an incomplete line nor anything after a quit has an effect. */
  lemma {:induction false} SessionAnswersLines(lines: seq<string>, rest: string)
    requires AreLines(lines) && '\n' !in rest
    ensures AnswersLines(Session(Unlines(lines) + rest), lines)
  {
    hide ParseLine;
    if lines == [] {
      assert Unlines(lines) + rest == rest;
    } else {
      var later := Unlines(lines[1..]) + rest;
      assert Unlines(lines) + rest == lines[0] + "\n" + later;
      SessionOfLine(lines[0], later);
      SessionAnswersLines(lines[1..], rest);
      if ParseLine(lines[0]) != Quit {
        AnswersOneMore(lines, Session(later));
      }
    }
  }

  lemma AnswersOneMore(lines: seq<string>, later: seq<Command>)
    requires lines != [] && ParseLine(lines[0]) != Quit && AnswersLines(later, lines[1..])
    ensures AnswersLines([ParseLine(lines[0])] + later, lines)
  {
    hide ParseLine;
    var cs := [ParseLine(lines[0])] + later;
    assert forall i :: 0 < i < |cs| ==> cs[i] == later[i - 1];
    assert forall i :: 0 < i < |lines| ==> lines[i] == lines[1..][i - 1];
  }

  /** Reads up to and including the next line feed; `found` is false at the end of the stream. */
  method ReadString(stream: string, pos: nat) returns (end: nat, found: bool)
    requires pos <= |stream|
    ensures found <==> FirstLine(stream[pos..]) > 0
    ensures found ==> end <= |stream| && end - pos == FirstLine(stream[pos..])
  {
    end := pos;
    while end < |stream| && stream[end] != '\n'
      invariant pos <= end <= |stream|
      invariant '\n' !in stream[pos..end]
    {
      end := end + 1;
    }
    assert stream[pos..][..end - pos] == stream[pos..end];
    LineFound(stream[pos..], end - pos);
    found := end < |stream|;
    end := end + 1;
  }

  lemma SessionStep(stream: string, pos: nat, end: nat)
    requires pos < end <= |stream| && end - pos == FirstLine(stream[pos..])
    ensures var c := ParseLine(stream[pos..end]);
            Session(stream[pos..]) == if c == Quit then [c] else [c] + Session(stream[end..])
  {
    hide ParseLine;
    assert stream[pos..][..end - pos] == stream[pos..end];
    assert stream[pos..][end - pos..] == stream[end..];
  }

  /** The line loop over everything that the client sends before closing the connection. */
  method HandleClient(stream: string) returns (commands: seq<Command>, ghost lines: seq<string>, ghost rest: string)
    ensures commands == Session(stream)
    ensures AreLines(lines) && '\n' !in rest && stream == Unlines(lines) + rest && AnswersLines(commands, lines)
  {
    hide AnswersLines, AreLines, Unlines;
    lines, rest := LinesOf(stream);
    SessionAnswersLines(lines, rest);
    commands := [];
    var pos := 0;
    assert stream[0..] == stream;
    while true
      invariant 0 <= pos <= |stream|
      invariant commands + Session(stream[pos..]) == Session(stream)
      decreases |stream| - pos
    {
      var end, found := ReadString(stream, pos);
      if !found {
        return;
      }
      SessionStep(stream, pos, end);
      var c := ParseLine(stream[pos..end]);
      commands := commands + [c];
      if c == Quit {
        return;
      }
      pos := end;
    }
  }

  // ---------------------------------------------------------------- The client's side

  function SetLine(id: int, content: string): string {
    "SET " + Itoa(id) + " " + content + "\r\n"
  }

  /** The content of the bulk client's line for `id`. */
  function BulkContent(msg: string, id: int): string {
    msg + "_" + Itoa(id)
  }

  lemma ItoaIsWord(n: int)
    ensures IsWord(Itoa(n))
  {
    forall i | 0 <= i < |Itoa(n)| ensures !IsSpace(Itoa(n)[i]) {
      assert IsDigit(Itoa(n)[i]) || Itoa(n)[i] == '-';
    }
  }

  lemma FieldsBeforeLineEnd(content: string)
    ensures Fields(content + "\r\n") == Fields(content)
  {
    FieldsSplit(content, '\r', "\n");
    assert content + ['\r'] + "\n" == content + "\r\n";
    assert Fields("\n") == [];
  }

  /** Two words and any content on one line. */
  lemma FieldsOfLine(cmd: string, id: string, content: string)
    requires IsWord(cmd) && IsWord(id)
    ensures Fields(cmd + " " + id + " " + content + "\r\n") == [cmd, id] + Fields(content)
  {
    var tail := content + "\r\n";
    FieldsBeforeLineEnd(content);
    FieldsOfWordAnd(id, tail);
    FieldsOfWordAnd(cmd, id + " " + tail);
    LineShape(cmd, id, content);
  }

  lemma LineShape(cmd: string, id: string, content: string)
    ensures cmd + " " + id + " " + content + "\r\n" == cmd + " " + (id + " " + (content + "\r\n"))
  {
  }

  lemma FieldsOfSetLine(id: int, content: string)
    ensures Fields(SetLine(id, content)) == ["SET", Itoa(id)] + Fields(content)
  {
    ItoaIsWord(id);
    FieldsOfLine("SET", Itoa(id), content);
    assert "SET" + " " == "SET ";
  }

  lemma UpperSet()
    ensures ToUpper("SET") == "SET"
  {
  }

  /** A SET line for any content asks to store its words, or is refused when there are none. */
  lemma SetLineParses(id: int, content: string)
    requires MIN_INT32 <= id <= MAX_INT32
    ensures ParseLine(SetLine(id, content))
            == if Fields(content) == [] then BadSet else Store(id, Join(Fields(content)))
  {
    var line := SetLine(id, content);
    FieldsOfSetLine(id, content);
    FieldsOfTrim(line);
    AtoiOfItoa(id);
    UpperSet();
    var parts := Fields(line);
    assert parts[0] == "SET" && parts[1] == Itoa(id) && parts[2..] == Fields(content);
  }

  /** A SET line is understood as it was meant if and only if its content is normalised and not empty. */
  lemma SetLineRoundTrip(id: int, content: string)
    requires MIN_INT32 <= id <= MAX_INT32
    ensures ParseLine(SetLine(id, content)) == Store(id, content) <==> IsNormal(content) && content != ""
  {
    SetLineParses(id, content);
    NormalMeansItsWords(content);
    if Fields(content) == [] {
      assert Join(Fields(content)) == "";
    }
    if content == "" {
      assert Fields(content) == [];
    }
  }

  /** Whatever store a line asks for, printing that request and reading it again gives the same request. */
  lemma AcceptedLineRoundTrip(line: string)
    requires ParseLine(line).Store?
    ensures var r := ParseLine(line);
            && MIN_INT32 <= r.id <= MAX_INT32
            && ParseLine(SetLine(r.id, r.text)) == r
  {
    var parts := Fields(TrimSpace(line));
    FieldsAreWords(TrimSpace(line));
    var words := parts[2..];
    assert AllWords(words);
    FieldsOfJoin(words);
    SetLineParses(ParseLine(line).id, Join(words));
  }

  /** The client's line asking for an id. */
  function GetLine(id: int): string {
    "GET " + Itoa(id) + "\r\n"
  }

  lemma FieldsOfGetLine(id: string)
    ensures IsWord(id) ==> Fields("GET " + id + "\r\n") == ["GET", id]
  {
    if IsWord(id) {
      FieldsBeforeLineEnd(id);
      FieldsOfWord(id);
      FieldsOfWordAnd("GET", id + "\r\n");
      assert "GET " + id + "\r\n" == "GET" + " " + (id + "\r\n");
    }
  }

  /** A GET line asks for exactly the id that was printed. */
  lemma GetLineRoundTrip(id: int)
    requires MIN_INT32 <= id <= MAX_INT32
    ensures ParseLine(GetLine(id)) == Retrieve(id)
  {
    ItoaIsWord(id);
    FieldsOfGetLine(Itoa(id));
    FieldsOfTrim(GetLine(id));
    AtoiOfItoa(id);
    UpperGet();
  }

  lemma UpperGet()
    ensures ToUpper("GET") == "GET" && "GET" != "SET"
  {
    assert "GET"[0] == 'G' && "SET"[0] == 'S';
  }

  datatype Message = Message(id: int, content: string)

  predicate Sendable(m: Message) {
    MIN_INT32 <= m.id <= MAX_INT32 && IsNormal(m.content) && m.content != ""
  }

  function SetLines(messages: seq<Message>): string {
    if messages == [] then "" else SetLine(messages[0].id, messages[0].content) + SetLines(messages[1..])
  }

  function StoresOf(messages: seq<Message>): seq<Command> {
    seq(|messages|, i requires 0 <= i < |messages| => Store(messages[i].id, messages[i].content))
  }

  lemma SetLineIsOneLine(m: Message, rest: string)
    requires '\n' !in m.content
    ensures FirstLine(SetLine(m.id, m.content) + rest) == |SetLine(m.id, m.content)|
  {
    var line := SetLine(m.id, m.content);
    var n := |line| - 1;
    ItoaIsWord(m.id);
    assert '\n' !in Itoa(m.id);
    assert line[..n] == "SET " + Itoa(m.id) + " " + m.content + "\r";
    assert (line + rest)[..n] == line[..n];
    LineFound(line + rest, n);
  }

  lemma Assoc<T>(a: seq<T>, b: seq<T>, c: seq<T>)
    ensures (a + b) + c == a + (b + c)
  {
  }

  lemma SetLinesCons(messages: seq<Message>, rest: string)
    requires messages != []
    ensures SetLines(messages) + rest
            == SetLine(messages[0].id, messages[0].content) + (SetLines(messages[1..]) + rest)
  {
    Assoc(SetLine(messages[0].id, messages[0].content), SetLines(messages[1..]), rest);
  }

  lemma StoresOfCons(messages: seq<Message>, rest: seq<Command>)
    requires messages != []
    ensures StoresOf(messages) + rest
            == [Store(messages[0].id, messages[0].content)] + (StoresOf(messages[1..]) + rest)
  {
    assert StoresOf(messages) == [Store(messages[0].id, messages[0].content)] + StoresOf(messages[1..]);
  }

  lemma SessionOfSetLine(m: Message, rest: string)
    requires Sendable(m)
    ensures Session(SetLine(m.id, m.content) + rest) == [Store(m.id, m.content)] + Session(rest)
  {
    var line := SetLine(m.id, m.content);
    NormalHasNoNewline(m.content);
    SetLineIsOneLine(m, rest);
    SetLineRoundTrip(m.id, m.content);
    assert (line + rest)[..|line|] == line && (line + rest)[|line|..] == rest;
  }

  predicate AllSendable(messages: seq<Message>) {
    forall i :: 0 <= i < |messages| ==> Sendable(messages[i])
  }

  /** The leader reads back exactly the requests that the client sent, in order, whatever follows them. */
  lemma {:induction false} StreamRoundTrip(messages: seq<Message>, rest: string)
    requires AllSendable(messages)
    ensures Session(SetLines(messages) + rest) == StoresOf(messages) + Session(rest)
  {
    if messages == [] {
      assert SetLines(messages) + rest == rest;
      assert StoresOf(messages) + Session(rest) == Session(rest);
    } else {
      SetLinesCons(messages, rest);
      SessionOfSetLine(messages[0], SetLines(messages[1..]) + rest);
      StreamRoundTrip(messages[1..], rest);
      StoresOfCons(messages, Session(rest));
    }
  }

  /** Bulk lines are sendable: the id is appended to the last word. */
  lemma BulkIsSendable(msg: string, id: int)
    requires MIN_INT32 <= id <= MAX_INT32 && IsNormal(msg) && msg != ""
    ensures Sendable(Message(id, BulkContent(msg, id)))
  {
    ItoaIsWord(id);
    var suffix := "_" + Itoa(id);
    var s := msg + suffix;
    assert forall i :: 0 <= i < |msg| ==> s[i] == msg[i];
    assert forall i :: |msg| <= i < |s| ==> s[i] == suffix[i - |msg|];
    assert forall i :: |msg| <= i < |s| ==> !IsSpace(s[i]);
    assert BulkContent(msg, id) == s;
  }

  // ---------------------------------------------------------------- The bulk senders

  /** `count` messages with consecutive ids: the same content, or the content with the id appended. */
  function BulkMessages(count: int, baseID: int, content: string, appendId: bool): seq<Message> {
    seq(if count < 0 then 0 else count,
        i => BulkMessage(baseID, i, content, appendId))
  }

  lemma {:induction false} SetLinesAppend(messages: seq<Message>, m: Message)
    ensures SetLines(messages + [m]) == SetLines(messages) + SetLine(m.id, m.content)
  {
    if messages == [] {
      assert SetLines([m][1..]) == "";
    } else {
      SetLinesAppend(messages[1..], m);
      assert (messages + [m])[1..] == messages[1..] + [m];
      Assoc(SetLine(messages[0].id, messages[0].content), SetLines(messages[1..]), SetLine(m.id, m.content));
    }
  }

  function BulkMessage(baseID: int, i: int, content: string, appendId: bool): Message {
    Message(baseID + i, if appendId then BulkContent(content, baseID + i) else content)
  }

  function LineOf(m: Message): string {
    SetLine(m.id, m.content)
  }

  /** One more round of a bulk sender writes one more line. */
  lemma BulkStep(i: nat, baseID: int, content: string, appendId: bool)
    ensures SetLines(BulkMessages(i + 1, baseID, content, appendId))
            == SetLines(BulkMessages(i, baseID, content, appendId)) + LineOf(BulkMessage(baseID, i, content, appendId))
  {
    assert BulkMessages(i + 1, baseID, content, appendId)
        == BulkMessages(i, baseID, content, appendId) + [BulkMessage(baseID, i, content, appendId)];
    SetLinesAppend(BulkMessages(i, baseID, content, appendId), BulkMessage(baseID, i, content, appendId));
  }

  /** Writes one file's content under `count` consecutive ids; `written` is what the connection receives. */
  method HandleBulkFile(count: int, baseID: int, content: string) returns (written: string)
    ensures written == SetLines(BulkMessages(count, baseID, content, false))
    ensures IsNormal(content) && content != "" && MIN_INT32 <= baseID && baseID + count - 1 <= MAX_INT32 ==>
              StoresInOrder(Session(written), count, baseID, content, false)
  {
    written := "";
    var i := 0;
    while i < count
      invariant 0 <= i && (count >= 0 ==> i <= count) && (count < 0 ==> i == 0)
      invariant written == SetLines(BulkMessages(i, baseID, content, false))
    {
      BulkStep(i, baseID, content, false);
      var cmd := LineOf(BulkMessage(baseID, i, content, false));
      written := written + cmd;
      i := i + 1;
    }
    assert BulkMessages(count, baseID, content, false) == BulkMessages(i, baseID, content, false);
    if IsNormal(content) && content != "" && MIN_INT32 <= baseID && baseID + count - 1 <= MAX_INT32 {
      BulkRoundTrip(count, baseID, content, false);
    }
  }

  /** Writes one message, with the id appended, under `count` consecutive ids. */
  method HandleBulkSet(count: int, baseID: int, msg: string) returns (written: string)
    ensures written == SetLines(BulkMessages(count, baseID, msg, true))
    ensures IsNormal(msg) && msg != "" && MIN_INT32 <= baseID && baseID + count - 1 <= MAX_INT32 ==>
              StoresInOrder(Session(written), count, baseID, msg, true)
  {
    written := "";
    var i := 0;
    while i < count
      invariant 0 <= i && (count >= 0 ==> i <= count) && (count < 0 ==> i == 0)
      invariant written == SetLines(BulkMessages(i, baseID, msg, true))
    {
      BulkStep(i, baseID, msg, true);
      var cmd := LineOf(BulkMessage(baseID, i, msg, true));
      written := written + cmd;
      i := i + 1;
    }
    assert BulkMessages(count, baseID, msg, true) == BulkMessages(i, baseID, msg, true);
    if IsNormal(msg) && msg != "" && MIN_INT32 <= baseID && baseID + count - 1 <= MAX_INT32 {
      BulkRoundTrip(count, baseID, msg, true);
    }
  }

  lemma BulkSession(count: int, baseID: int, content: string, appendId: bool)
    requires IsNormal(content) && content != ""
    requires MIN_INT32 <= baseID && baseID + count - 1 <= MAX_INT32
    ensures Session(SetLines(BulkMessages(count, baseID, content, appendId)))
            == StoresOf(BulkMessages(count, baseID, content, appendId))
  {
    var ms := BulkMessages(count, baseID, content, appendId);
    forall i | 0 <= i < |ms| ensures Sendable(ms[i]) {
      if appendId {
        BulkIsSendable(content, baseID + i);
      }
    }
    StreamRoundTrip(ms, "");
    assert SetLines(ms) + "" == SetLines(ms);
    assert Session("") == [];
  }

  /** One store for each of `count` consecutive ids, of the same text or of the text with the id appended. */
  ghost predicate StoresInOrder(commands: seq<Command>, count: int, baseID: int, content: string, appendId: bool) {
    && |commands| == (if count < 0 then 0 else count)
    && forall i :: 0 <= i < |commands| ==>
                     commands[i] == Store(baseID + i, if appendId then content + "_" + Itoa(baseID + i) else content)
  }

  /** A bulk run of a normalised, non-empty message asks the leader for exactly its stores, in order. */
  lemma BulkRoundTrip(count: int, baseID: int, content: string, appendId: bool)
    requires IsNormal(content) && content != ""
    requires MIN_INT32 <= baseID && baseID + count - 1 <= MAX_INT32
    ensures StoresInOrder(Session(SetLines(BulkMessages(count, baseID, content, appendId))),
                          count, baseID, content, appendId)
  {
    BulkSession(count, baseID, content, appendId);
  }
}
