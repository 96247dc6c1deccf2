/** Responses of the Docker daemon: where the head ends, what it says about the body,
    and which cuts of a response go unnoticed. */
module Response {
  import opened Basics
  import opened Bytes
  import opened Wrappers
  import Chunked

  const CR: Byte := 0x0D
  const LF: Byte := 0x0A
  const COLON: Byte := 0x3A
  const CRLF: Text := [CR, LF]
  const TERMINATOR: Text := [CR, LF, CR, LF]
  const U16_MAX: nat := 0xFFFF

  datatype Response = Response(status: nat, body: Text)

  datatype Failure = NoTerminator | NoStatus | BadChunks(error: Chunked.Error)

  // ---- The head -----------------------------------------------------------------------------

  /** Where the first blank line begins. */
  function FindTerminator(s: Text): (r: Option<nat>)
    ensures r.Some? ==> r.value + 4 <= |s|
  {
    if |s| < 4 then None
    else if s[..4] == TERMINATOR then Some(0)
    else match FindTerminator(s[1..]) case None => None case Some(i) => Some(i + 1)
  }

  function FindByte(s: Text, b: Byte): (r: Option<nat>)
    ensures r.Some? ==> r.value < |s| && s[r.value] == b && b !in s[..r.value]
    ensures r.None? <==> b !in s
  {
    if s == [] then None
    else if s[0] == b then Some(0)
    else
      assert s == [s[0]] + s[1..];
      match FindByte(s[1..], b)
      case None => None
      case Some(i) =>
        assert s[..i + 1] == [s[0]] + s[1..][..i];
        Some(i + 1)
  }

  function WithoutCr(line: Text): Text {
    if line != [] && line[|line| - 1] == CR then line[..|line| - 1] else line
  }

  /** A line ends at a line feed, and loses a carriage return before it. */
  function Lines(head: Text): seq<Text>
    decreases |head|
  {
    if head == [] then []
    else match FindByte(head, LF)
      case None => [head]
      case Some(i) => [WithoutCr(head[..i])] + Lines(head[i + 1..])
  }

  function Trim(s: Text): Text {
    Chunked.TrimEnd(Chunked.TrimStart(s))
  }

  function WordLength(s: Text): (n: nat)
    ensures n <= |s|
    ensures s != [] && Chunked.SpaceAtStart(s) == 0 ==> n > 0
  {
    if s == [] || Chunked.SpaceAtStart(s) > 0 then 0 else 1 + WordLength(s[1..])
  }

  function Words(s: Text): seq<Text>
    decreases |s|
  {
    if s == [] then []
    else if Chunked.SpaceAtStart(s) > 0 then Words(s[Chunked.SpaceAtStart(s)..])
    else [s[..WordLength(s)]] + Words(s[WordLength(s)..])
  }

  function DecimalDigit(b: Byte): Option<nat> {
    if 0x30 <= b <= 0x39 then Some(b as nat - 0x30) else None
  }

  function DecimalValue(s: Text): Option<nat> {
    if s == [] then Some(0)
    else
      match (DecimalValue(s[..|s| - 1]), DecimalDigit(s[|s| - 1]))
      case (Some(v), Some(d)) => Some(10 * v + d)
      case _ => None
  }

  /** Parsing an unsigned integer of limited width; one leading plus sign is allowed. */
  function ParseDecimal(s: Text, max: nat): Option<nat> {
    var digits := if |s| > 1 && s[0] == Chunked.PLUS then s[1..] else s;
    if digits == [] then None
    else match DecimalValue(digits) case None => None case Some(v) => if v <= max then Some(v) else None
  }

  function Lower(b: Byte): Byte {
    if 0x41 <= b <= 0x5A then b + 0x20 else b
  }

  /** Equal but for the case of ASCII letters. */
  predicate SameWord(a: Text, b: Text) {
    |a| == |b| && forall i | 0 <= i < |a| :: Lower(a[i]) == Lower(b[i])
  }

  /** The trimmed value of the first line with this name before its first colon. */
  function FieldIn(lines: seq<Text>, name: Text): Option<Text> {
    if lines == [] then None
    else match FindByte(lines[0], COLON)
      case None => FieldIn(lines[1..], name)
      case Some(i) =>
        if SameWord(Trim(lines[0][..i]), name) then Some(Trim(lines[0][i + 1..])) else FieldIn(lines[1..], name)
  }

  /** The second word of the status line. */
  function StatusOf(line: Text): Option<nat> {
    if |Words(line)| < 2 then None else ParseDecimal(Words(line)[1], U16_MAX)
  }

  function Status(head: Text): Option<nat> {
    StatusOf(if Lines(head) == [] then [] else Lines(head)[0])
  }

  // "transfer-encoding", "content-length" and "chunked"
  const TRANSFER_ENCODING: Text :=
    [0x74, 0x72, 0x61, 0x6E, 0x73, 0x66, 0x65, 0x72, 0x2D, 0x65, 0x6E, 0x63, 0x6F, 0x64, 0x69, 0x6E, 0x67]
  const CONTENT_LENGTH: Text := [0x63, 0x6F, 0x6E, 0x74, 0x65, 0x6E, 0x74, 0x2D, 0x6C, 0x65, 0x6E, 0x67, 0x74, 0x68]
  const CHUNKED: Text := [0x63, 0x68, 0x75, 0x6E, 0x6B, 0x65, 0x64]

  predicate IsChunked(lines: seq<Text>) {
    var coding := FieldIn(lines, TRANSFER_ENCODING);
    coding.Some? && SameWord(coding.value, CHUNKED)
  }

  function Length(lines: seq<Text>): Option<nat> {
    match FieldIn(lines, CONTENT_LENGTH)
    case None => None
    case Some(v) => ParseDecimal(v, Chunked.USIZE_MAX)
  }

  // ---- The response -----------------------------------------------------------------------------

  /** The part of an unchunked body that is kept: what is there, and no more than announced. */
  function Kept(length: Option<nat>, rest: Text): Text {
    if length.Some? && length.value < |rest| then rest[..length.value] else rest
  }

  function Body(head: Text, rest: Text): Result<Text, Failure> {
    if IsChunked(Lines(head)) then
      match Chunked.Decode(rest, []) case Err(e) => Err(BadChunks(e)) case Ok((body, _)) => Ok(body)
    else Ok(Kept(Length(Lines(head)), rest))
  }

  function Parsed(raw: Text): Result<Response, Failure> {
    match FindTerminator(raw)
    case None => Err(NoTerminator)
    case Some(split) =>
      match Status(raw[..split])
      case None => Err(NoStatus)
      case Some(status) =>
        match Body(raw[..split], raw[split + 4..])
        case Err(e) => Err(e)
        case Ok(body) => Ok(Response(status, body))
  }

  /** The body is cut to the announced length in place. */
  method ParseResponse(raw: Text) returns (r: Result<Response, Failure>)
    ensures r == Parsed(raw)
  {
    var split := FindTerminator(raw);
    if split.None? { return Err(NoTerminator); }
    var head, body := raw[..split.value], raw[split.value + 4..];
    var status := Status(head);
    if status.None? { return Err(NoStatus); }
    if IsChunked(Lines(head)) {
      var decoded := Chunked.DecodeChunked(body);
      match decoded {
        case Err(e) => return Err(BadChunks(e));
        case Ok(text) => return Ok(Response(status.value, text));
      }
    }
    var length := Length(Lines(head));
    if length.Some? && length.value < |body| {
      body := body[..length.value];
    }
    r := Ok(Response(status.value, body));
  }

  // ---- Cutting a response short --------------------------------------------------------------------

  lemma {:induction false} TerminatorIsFirst(s: Text, m: nat)
    requires m <= |s|
    ensures FindTerminator(s).Some? && FindTerminator(s).value + 4 <= m ==> FindTerminator(s[..m]) == FindTerminator(s)
    ensures FindTerminator(s).None? || FindTerminator(s).value + 4 > m ==> FindTerminator(s[..m]) == None
  {
    if m >= 4 {
      assert s[..m][..4] == s[..4];
      if s[..4] != TERMINATOR {
        assert s[..m][1..] == s[1..][..m - 1];
        TerminatorIsFirst(s[1..], m - 1);
      }
    }
  }

  /** Where the head of an accepted response ends, and where what was read of it ends. */
  function HeadEnd(raw: Text): nat
    requires Parsed(raw).Ok?
  {
    FindTerminator(raw).value + 4
  }

  predicate Chunky(raw: Text)
    requires Parsed(raw).Ok?
  {
    IsChunked(Lines(raw[..FindTerminator(raw).value]))
  }

  function Consumed(raw: Text): nat
    requires Parsed(raw).Ok?
  {
    HeadEnd(raw) + if Chunky(raw) then Chunked.Decode(raw[HeadEnd(raw)..], []).value.1 else |Parsed(raw).value.body|
  }

  /** A cut response is refused while its head is incomplete, and a chunked one until its
      closing line is complete; any other is accepted with whatever has arrived. */
  lemma CutsAreJudgedByTheHead(raw: Text, m: nat)
    requires Parsed(raw).Ok? && m <= |raw|
    ensures Parsed(raw[..m]).Ok? <==> m >= if Chunky(raw) then Consumed(raw) else HeadEnd(raw)
    ensures Parsed(raw[..m]).Ok? && Chunky(raw) ==> Parsed(raw[..m]) == Parsed(raw)
    ensures Parsed(raw[..m]).Ok? && !Chunky(raw) ==>
              && Parsed(raw[..m]).value.status == Parsed(raw).value.status
              && Parsed(raw[..m]).value.body == raw[HeadEnd(raw)..Min(m, Consumed(raw))]
  {
    hide Chunked.Decode, Lines, Status, IsChunked, Length, FindTerminator;
    TerminatorIsFirst(raw, m);
    var split := FindTerminator(raw).value;
    if m >= split + 4 {
      CutParts(raw, m, split);
      var rest := raw[split + 4..];
      if Chunky(raw) {
        CutChunks(rest, m - split - 4);
      } else {
        CutKept(raw, m, split + 4, Length(Lines(raw[..split])));
      }
    }
  }

  lemma CutParts(raw: Text, m: nat, split: nat)
    requires split + 4 <= m <= |raw|
    ensures raw[..m][..split] == raw[..split] && raw[..m][split + 4..] == raw[split + 4..][..m - split - 4]
  {
  }

  lemma CutChunks(rest: Text, k: nat)
    requires Chunked.Decode(rest, []).Ok? && k <= |rest|
    ensures Chunked.Decode(rest[..k], []).Ok? <==> k >= Chunked.Decode(rest, []).value.1
    ensures Chunked.Decode(rest[..k], []).Ok? ==> Chunked.Decode(rest[..k], []) == Chunked.Decode(rest, [])
  {
    hide Chunked.Decode;
    var n := Chunked.Decode(rest, []).value.1;
    Chunked.ShorterIsTheSame(rest, k);
    if k < n {
      Chunked.TruncationIsRefused(rest, k);
    } else {
      Chunked.ExtensionDecodesTheSame(rest, rest[..k][n..]);
      Chunked.TakeTwice(rest[..k], k, n);
      assert rest[..n] + rest[..k][n..] == rest[..k];
    }
  }

  lemma CutKept(raw: Text, m: nat, at: nat, length: Option<nat>)
    requires at <= m <= |raw|
    ensures var all := Kept(length, raw[at..]);
            Kept(length, raw[at..][..m - at]) == raw[at..Min(m, at + |all|)] && at + |all| <= |raw|
  {
  }

  /** Every cut that loses something is noticed exactly when the response is chunked or
      carries no body at all. */
  lemma TruncationIsNoticedExactlyWhenChunked(raw: Text)
    requires Parsed(raw).Ok?
    ensures (forall m | 0 <= m < Consumed(raw) && m <= |raw| :: Parsed(raw[..m]).Err?) <==>
            Chunky(raw) || Parsed(raw).value.body == []
  {
    hide Parsed, Chunky, Consumed, HeadEnd;
    forall m | 0 <= m < Consumed(raw) && m <= |raw|
      ensures Parsed(raw[..m]).Err? <==> m < if Chunky(raw) then Consumed(raw) else HeadEnd(raw)
    {
      CutsAreJudgedByTheHead(raw, m);
    }
    HeadFits(raw);
    CutsAreJudgedByTheHead(raw, HeadEnd(raw));
    assert Parsed(raw[..HeadEnd(raw)]).Ok? || Chunky(raw);
  }

  lemma HeadFits(raw: Text)
    requires Parsed(raw).Ok?
    ensures HeadEnd(raw) <= |raw| && HeadEnd(raw) <= Consumed(raw)
    ensures !Chunky(raw) ==> Consumed(raw) == HeadEnd(raw) + |Parsed(raw).value.body|
  {
    hide Chunked.Decode;
  }

  // ---- Printing a response ------------------------------------------------------------------------

  datatype Field = Field(name: Text, value: Text)

  predicate OneLine(s: Text) {
    CR !in s && LF !in s
  }

  predicate Trimmed(s: Text) {
    Trim(s) == s
  }

  predicate Sendable(f: Field) {
    OneLine(f.name) && OneLine(f.value) && COLON !in f.name && Trimmed(f.name) && Trimmed(f.value)
  }

  const SPACE: Byte := 0x20

  function PrintField(f: Field): Text {
    f.name + [COLON, SPACE] + f.value
  }

  function FieldLines(fields: seq<Field>): (lines: seq<Text>)
    ensures |lines| == |fields|
  {
    if fields == [] then [] else [PrintField(fields[0])] + FieldLines(fields[1..])
  }

  function Join(lines: seq<Text>): Text
    requires lines != []
  {
    if |lines| == 1 then lines[0] else lines[0] + CRLF + Join(lines[1..])
  }

  /** The status line, and every field on a line of its own behind it. */
  function PrintHead(statusLine: Text, fields: seq<Field>): Text {
    Join([statusLine] + FieldLines(fields))
  }

  /** The first field of that name, in any case. */
  function Lookup(fields: seq<Field>, name: Text): Option<Text> {
    if fields == [] then None
    else if SameWord(fields[0].name, name) then Some(fields[0].value)
    else Lookup(fields[1..], name)
  }

  predicate AllLines(lines: seq<Text>) {
    forall i | 0 <= i < |lines| :: lines[i] != [] && OneLine(lines[i])
  }

  lemma {:induction false} NoTerminatorIn(line: Text, rest: Text)
    requires CR !in line
    ensures FindTerminator(line + rest) ==
            match FindTerminator(rest) case None => None case Some(i) => Some(|line| + i)
  {
    if line == [] {
      assert line + rest == rest;
    } else {
      var s := line + rest;
      assert s[0] == line[0] && s[1..] == line[1..] + rest;
      assert |s| >= 4 ==> s[..4][0] != TERMINATOR[0];
      NoTerminatorIn(line[1..], rest);
      if |s| < 4 { assert |rest| < 4; }
    }
  }

  lemma NoTerminatorAtBreak(rest: Text)
    requires rest != [] && rest[0] != CR
    ensures FindTerminator(CRLF + rest) == match FindTerminator(rest) case None => None case Some(i) => Some(2 + i)
  {
    var s := CRLF + rest;
    assert s[1..] == [LF] + rest && ([LF] + rest)[1..] == rest;
    assert s[2] == rest[0];
    assert |s| >= 4 ==> s[..4][2] != TERMINATOR[2];
    assert |rest| >= 3 ==> ([LF] + rest)[..4][0] != TERMINATOR[0];
  }

  lemma {:induction false} TerminatorEndsTheHead(lines: seq<Text>, body: Text)
    requires lines != [] && AllLines(lines)
    ensures FindTerminator(Join(lines) + TERMINATOR + body) == Some(|Join(lines)|)
  {
    hide FindTerminator, OneLine;
    var end := TERMINATOR + body;
    Concat(Join(lines), TERMINATOR, body);
    if |lines| == 1 {
      LastLineEnds(lines[0], body);
    } else {
      var rest := Join(lines[1..]);
      TerminatorEndsTheHead(lines[1..], body);
      Concat(rest, TERMINATOR, body);
      JoinStarts(lines[1..]);
      LineHasNoCr(lines);
      LineIsPassed(lines[0], rest + end);
      assert Join(lines) + end == lines[0] + (CRLF + (rest + end));
    }
  }

  lemma Concat(a: Text, b: Text, c: Text)
    ensures a + b + c == a + (b + c)
  {
  }

  lemma LastLineEnds(line: Text, body: Text)
    requires OneLine(line)
    ensures FindTerminator(line + (TERMINATOR + body)) == Some(|line|)
  {
    assert (TERMINATOR + body)[..4] == TERMINATOR;
    NoTerminatorIn(line, TERMINATOR + body);
  }

  lemma LineHasNoCr(lines: seq<Text>)
    requires lines != [] && AllLines(lines)
    ensures CR !in lines[0] && LF !in lines[0]
  {
  }

  lemma LineIsPassed(line: Text, rest: Text)
    requires CR !in line && rest != [] && rest[0] != CR
    ensures FindTerminator(line + (CRLF + rest)) ==
            match FindTerminator(rest) case None => None case Some(i) => Some(|line| + 2 + i)
  {
    hide FindTerminator;
    var broken := CRLF + rest;
    NoTerminatorAtBreak(rest);
    NoTerminatorIn(line, broken);
  }

  lemma JoinStarts(lines: seq<Text>)
    requires lines != [] && AllLines(lines)
    ensures Join(lines) != [] && Join(lines)[0] == lines[0][0] && lines[0][0] != CR
  {
  }

  lemma FoundAt(s: Text, b: Byte, i: nat)
    requires i < |s| && s[i] == b && b !in s[..i]
    ensures FindByte(s, b) == Some(i)
  {
    assert s[i] in s;
    var j := FindByte(s, b).value;
    StandsBefore(s, j, i);
    StandsBefore(s, i, j);
  }

  lemma {:induction false} JoinedLines(lines: seq<Text>)
    requires lines != [] && AllLines(lines)
    ensures Lines(Join(lines)) == lines
  {
    hide Lines, OneLine;
    LineHasNoCr(lines);
    if |lines| == 1 {
      OnlyLine(lines[0]);
      assert lines == [lines[0]];
    } else {
      JoinedLines(lines[1..]);
      FirstLine(lines[0], Join(lines[1..]));
      assert [lines[0]] + lines[1..] == lines;
    }
  }

  lemma OnlyLine(line: Text)
    requires line != [] && LF !in line
    ensures Lines(line) == [line]
  {
  }

  lemma FirstLine(line: Text, rest: Text)
    requires LF !in line
    ensures Lines(line + CRLF + rest) == [line] + Lines(rest)
  {
    var s := line + CRLF + rest;
    assert s[..|line| + 1] == line + [CR] && s[|line| + 1] == LF && s[|line| + 2..] == rest;
    FoundAt(s, LF, |line| + 1);
    assert (line + [CR])[..|line|] == line;
  }

  lemma {:induction false} TrimShortens(s: Text)
    ensures |Chunked.TrimStart(s)| <= |s| && |Chunked.TrimEnd(s)| <= |s|
    ensures |Chunked.TrimStart(s)| == |s| ==> Chunked.TrimStart(s) == s
    decreases |s|
  {
    if Chunked.SpaceAtStart(s) > 0 { TrimShortens(s[Chunked.SpaceAtStart(s)..]); }
    if Chunked.SpaceAtEnd(s) > 0 { TrimShortens(s[..|s| - Chunked.SpaceAtEnd(s)]); }
  }

  lemma SpaceThenTrimmed(s: Text)
    requires Trimmed(s)
    ensures Trim([SPACE] + s) == s
  {
    hide Chunked.TrimStart, Chunked.TrimEnd;
    TrimShortens(s);
    TrimShortens(Chunked.TrimStart(s));
    assert Chunked.TrimStart(s) == s;
    SpaceIsTrimmed(s);
  }

  lemma SpaceIsTrimmed(s: Text)
    ensures Chunked.TrimStart([SPACE] + s) == Chunked.TrimStart(s)
  {
    assert ([SPACE] + s)[1..] == s;
  }

  lemma FieldLine(f: Field, rest: seq<Text>, name: Text)
    requires Sendable(f)
    ensures FieldIn([PrintField(f)] + rest, name) ==
            if SameWord(f.name, name) then Some(f.value) else FieldIn(rest, name)
    ensures PrintField(f) != [] && OneLine(PrintField(f))
  {
    hide SameWord, Trim, FieldIn;
    var line := PrintField(f);
    assert line[|f.name|] == COLON && line[..|f.name|] == f.name && line[|f.name| + 1..] == [SPACE] + f.value;
    FoundAt(line, COLON, |f.name|);
    SpaceThenTrimmed(f.value);
    FieldInFirst(line, rest, name, |f.name|);
  }

  lemma FieldInFirst(line: Text, rest: seq<Text>, name: Text, i: nat)
    requires FindByte(line, COLON) == Some(i)
    ensures FieldIn([line] + rest, name) ==
            if SameWord(Trim(line[..i]), name) then Some(Trim(line[i + 1..])) else FieldIn(rest, name)
  {
    assert ([line] + rest)[1..] == rest;
  }

  lemma {:induction false} FieldsAreFound(fields: seq<Field>, name: Text)
    requires forall i | 0 <= i < |fields| :: Sendable(fields[i])
    ensures FieldIn(FieldLines(fields), name) == Lookup(fields, name)
    ensures AllLines(FieldLines(fields))
  {
    hide Sendable, SameWord, FieldIn, PrintField, OneLine;
    if fields == [] {
      NoFields(name);
    } else {
      FieldLine(fields[0], FieldLines(fields[1..]), name);
      FieldsAreFound(fields[1..], name);
    }
  }

  lemma NoFields(name: Text)
    ensures FieldIn([], name) == None
  {
  }

  lemma StatusLineFirst(line: Text, rest: seq<Text>, name: Text)
    ensures FieldIn([line] + rest, name) ==
            match FieldIn([line], name) case Some(v) => Some(v) case None => FieldIn(rest, name)
  {
    hide SameWord, Trim;
    assert ([line] + rest)[1..] == rest && [line][1..] == [];
    assert FieldIn([], name) == None;
  }

  /** A printed head says what its fields say: the first of a name counts, in any case.
      Even the status line would count if it looked like a field of that name. */
  lemma HeadReadsBack(statusLine: Text, fields: seq<Field>, name: Text)
    requires statusLine != [] && OneLine(statusLine) && forall i | 0 <= i < |fields| :: Sendable(fields[i])
    ensures var lines := Lines(PrintHead(statusLine, fields));
            && lines == [statusLine] + FieldLines(fields)
            && FieldIn(lines, name) ==
               match FieldIn([statusLine], name) case Some(v) => Some(v) case None => Lookup(fields, name)
  {
    hide Sendable, FieldIn, OneLine, Lines, Join;
    FieldsAreFound(fields, name);
    JoinedLines([statusLine] + FieldLines(fields));
    StatusLineFirst(statusLine, FieldLines(fields), name);
  }

  // "HTTP/"
  const HTTP: Text := [0x48, 0x54, 0x54, 0x50, 0x2F]

  lemma {:induction false} TrimEndIsPrefix(s: Text)
    ensures Chunked.TrimEnd(s) <= s
    decreases |s|
  {
    if Chunked.SpaceAtEnd(s) > 0 { TrimEndIsPrefix(s[..|s| - Chunked.SpaceAtEnd(s)]); }
  }

  lemma TrimKeepsTheFirst(s: Text)
    requires s != [] && s[0] == HTTP[0]
    ensures Trim(s) <= s
  {
    TrimEndIsPrefix(s);
  }

  /** A status line of HTTP is no field of either name, colons or not. */
  lemma HttpLineIsNoField(line: Text)
    requires HTTP <= line
    ensures FieldIn([line], TRANSFER_ENCODING).None? && FieldIn([line], CONTENT_LENGTH).None?
  {
    assert line[0] == HTTP[0];
    match FindByte(line, COLON) {
      case None => assert [line][1..] == [];
      case Some(i) =>
        TrimKeepsTheFirst(line[..i]);
        NotTheirName(Trim(line[..i]));
        assert [line][1..] == [];
    }
  }

  lemma NotTheirName(w: Text)
    requires w != [] ==> w[0] == HTTP[0]
    ensures !SameWord(w, TRANSFER_ENCODING) && !SameWord(w, CONTENT_LENGTH)
  {
    if w != [] {
      assert Lower(w[0]) == 0x68 && Lower(TRANSFER_ENCODING[0]) == 0x74 && Lower(CONTENT_LENGTH[0]) == 0x63;
    }
  }

  /** A chunked response arrives: whatever its status line is, if it is no such field
      itself, whatever else its head says, however the field is spelled, and however the
      body was cut into chunks. */
  lemma ChunkedResponseArrives(statusLine: Text, fields: seq<Field>, coding: Text,
                               chunks: seq<Chunked.Chunk>, last: Text, tail: Text)
    requires statusLine != [] && OneLine(statusLine) && StatusOf(statusLine).Some?
    requires FieldIn([statusLine], TRANSFER_ENCODING).None?
    requires forall i | 0 <= i < |fields| :: Sendable(fields[i])
    requires Lookup(fields, TRANSFER_ENCODING) == Some(coding) && SameWord(coding, CHUNKED)
    requires Chunked.AllWellFormed(chunks) && Chunked.IsLastLine(last)
    requires |Chunked.Data(chunks)| <= Chunked.MAX_RESPONSE_BYTES
    ensures var raw := PrintHead(statusLine, fields) + TERMINATOR + (Chunked.Encode(chunks, last) + tail);
            Parsed(raw) == Ok(Response(StatusOf(statusLine).value, Chunked.Data(chunks)))
  {
    hide Sendable, OneLine, SameWord, StatusOf, Lines, Chunked.Decode, Chunked.Encode, Chunked.Data, Chunked.AllWellFormed,
         Chunked.IsLastLine, FieldIn, Lookup, FieldLines, Join, FindTerminator;
    var head, body := PrintHead(statusLine, fields), Chunked.Encode(chunks, last) + tail;
    FieldsAreFound(fields, TRANSFER_ENCODING);
    TerminatorEndsTheHead([statusLine] + FieldLines(fields), body);
    HeadReadsBack(statusLine, fields, TRANSFER_ENCODING);
    HeadAndBody(head, body);
    Chunked.DecodeEncode(chunks, last, tail, []);
    assert [] + Chunked.Data(chunks) == Chunked.Data(chunks);
  }

  lemma HeadAndBody(head: Text, body: Text)
    ensures var raw := head + TERMINATOR + body; raw[..|head|] == head && raw[|head| + 4..] == body
  {
  }

  // ---- Numbers, and the status line --------------------------------------------------------------------

  /** A number in decimal without leading zeros. */
  function DecimalText(n: nat): (s: Text)
    ensures s != [] && forall i | 0 <= i < |s| :: 0x30 <= s[i] <= 0x39
  {
    (if n < 10 then [] else DecimalText(n / 10)) + [(0x30 + n % 10) as Byte]
  }

  /** The same with a plus sign or leading zeros. */
  function Spelled(n: nat, plus: bool, zeros: nat): Text {
    (if plus then [0x2B] else []) + (Chunked.Zeros(zeros) + DecimalText(n))
  }

  lemma DecimalOneMore(front: Text, b: Byte)
    ensures DecimalValue(front + [b]) ==
            match (DecimalValue(front), DecimalDigit(b)) case (Some(v), Some(d)) => Some(10 * v + d) case _ => None
  {
    assert (front + [b])[..|front|] == front;
  }

  lemma {:induction false} ZerosAreNothing(n: nat)
    ensures DecimalValue(Chunked.Zeros(n)) == Some(0)
  {
    if n > 0 {
      ZerosAreNothing(n - 1);
      assert Chunked.Zeros(n)[..n - 1] == Chunked.Zeros(n - 1);
    }
  }

  lemma {:induction false} SpelledIsRead(zeros: nat, n: nat)
    ensures DecimalValue(Chunked.Zeros(zeros) + DecimalText(n)) == Some(n)
  {
    hide DecimalValue;
    var last := (0x30 + n % 10) as Byte;
    if n < 10 {
      assert DecimalText(n) == [last];
      ZerosAreNothing(zeros);
      DecimalOneMore(Chunked.Zeros(zeros), last);
    } else {
      var front := Chunked.Zeros(zeros) + DecimalText(n / 10);
      SpelledIsRead(zeros, n / 10);
      DecimalOneMore(front, last);
      assert Chunked.Zeros(zeros) + DecimalText(n) == front + [last];
    }
  }

  lemma {:induction false} ReadIsSpelled(s: Text, n: nat) returns (zeros: nat)
    requires s != [] && DecimalValue(s) == Some(n)
    ensures s == Chunked.Zeros(zeros) + DecimalText(n)
  {
    hide DecimalValue;
    var front, b := s[..|s| - 1], s[|s| - 1];
    assert s == front + [b];
    DecimalOneMore(front, b);
    if front == [] {
      zeros := 0;
      assert DecimalValue([]) == Some(0) by { ZerosAreNothing(0); assert Chunked.Zeros(0) == []; }
    } else {
      var u := DecimalValue(front).value;
      zeros := ReadIsSpelled(front, u);
      if u == 0 {
        assert DecimalText(0) == Chunked.Zeros(1) && Chunked.Zeros(zeros) + Chunked.Zeros(1) == Chunked.Zeros(zeros + 1);
        zeros := zeros + 1;
      } else {
        assert DecimalText(n) == DecimalText(u) + [b];
      }
    }
  }

  /** Parsing reads exactly the spellings of the numbers in range. */
  lemma ParsesExactlySpellings(s: Text, max: nat, n: nat)
    ensures ParseDecimal(s, max) == Some(n) <==> n <= max && exists plus, zeros :: s == Spelled(n, plus, zeros)
  {
    hide DecimalValue;
    if ParseDecimal(s, max) == Some(n) {
      var plus := |s| > 1 && s[0] == Chunked.PLUS;
      var zeros := ReadIsSpelled(if plus then s[1..] else s, n);
      assert s == Spelled(n, plus, zeros);
    }
    forall plus, zeros | n <= max && s == Spelled(n, plus, zeros) ensures ParseDecimal(s, max) == Some(n) {
      SpelledIsRead(zeros, n);
      var number := Chunked.Zeros(zeros) + DecimalText(n);
      assert 0x30 <= number[0];
      if plus { assert s[1..] == number; } else { assert s == number; }
    }
  }

  predicate AllVisible(w: Text) {
    forall i | 0 <= i < |w| :: 0x21 <= w[i] <= 0x7E
  }

  lemma {:induction false} VisibleIsOneWord(w: Text, rest: Text)
    requires AllVisible(w) && (rest == [] || rest[0] == 0x20)
    ensures WordLength(w + rest) == |w|
  {
    if w == [] {
      assert w + rest == rest;
    } else {
      assert (w + rest)[0] == w[0] && (w + rest)[1..] == w[1..] + rest;
      VisibleIsOneWord(w[1..], rest);
    }
  }

  lemma WordComesFirst(w: Text, rest: Text)
    requires AllVisible(w) && w != [] && (rest == [] || rest[0] == 0x20)
    ensures Words(w + rest) == [w] + Words(rest)
  {
    hide WordLength;
    VisibleIsOneWord(w, rest);
    assert (w + rest)[0] == w[0] && (w + rest)[..|w|] == w && (w + rest)[|w|..] == rest;
  }

  lemma SpaceIsPassed(s: Text)
    ensures Words([0x20] + s) == Words(s)
  {
    assert ([0x20] + s)[1..] == s;
  }

  /** `HTTP/1.1 200 OK`: a protocol, the status, and perhaps a reason behind a space. */
  predicate IsStatusLine(protocol: Text, reason: Text) {
    HTTP <= protocol && AllVisible(protocol) && OneLine(reason) && (reason == [] || reason[0] == 0x20)
  }

  function StatusLine(protocol: Text, status: nat, reason: Text): Text {
    protocol + ([0x20] + (DecimalText(status) + reason))
  }

  /** The status is the number behind the protocol, if it fits 16 bits. */
  lemma StatusIsRead(protocol: Text, status: nat, reason: Text)
    requires IsStatusLine(protocol, reason)
    ensures StatusOf(StatusLine(protocol, status, reason)) == if status <= 65_535 then Some(status) else None
  {
    hide Words, ParseDecimal, OneLine;
    var number := DecimalText(status);
    WordComesFirst(protocol, [0x20] + (number + reason));
    SpaceIsPassed(number + reason);
    WordComesFirst(number, reason);
    assert Words(StatusLine(protocol, status, reason))[1] == number;
    assert number == Spelled(status, false, 0);
    if status <= 65_535 {
      ParsesExactlySpellings(number, U16_MAX, status);
    } else {
      OutOfRange(status);
    }
  }

  lemma OutOfRange(status: nat)
    requires status > U16_MAX
    ensures ParseDecimal(DecimalText(status), U16_MAX) == None
  {
    var s := DecimalText(status);
    SpelledIsRead(0, status);
    assert Chunked.Zeros(0) + s == s;
    assert 0x30 <= s[0] <= 0x39;
    hide DecimalText, DecimalValue;
  }

  lemma StatusLineIsALine(protocol: Text, status: nat, reason: Text)
    requires IsStatusLine(protocol, reason)
    ensures var line := StatusLine(protocol, status, reason); line != [] && OneLine(line) && HTTP <= line
  {
    var line, number := StatusLine(protocol, status, reason), DecimalText(status);
    forall b | b in line ensures b != CR && b != LF {
      if b in protocol || b in number {
        assert 0x21 <= b;
      } else {
        assert b in reason || b == 0x20;
      }
    }
    assert line[..|HTTP|] == protocol[..|HTTP|];
  }

  /** A name or value as ASCII text. */
  function Ascii(s: string): Text {
    seq(|s|, i requires 0 <= i < |s| => if s[i] < '\U{0080}' then s[i] as int as Byte else 0x3F)
  }

  lemma NamesAreSpelled()
    ensures TRANSFER_ENCODING == Ascii("transfer-encoding") && CONTENT_LENGTH == Ascii("content-length")
    ensures CHUNKED == Ascii("chunked") && HTTP == Ascii("HTTP/") && TERMINATOR == [0x0D, 0x0A, 0x0D, 0x0A]
  {
  }

  lemma PlainHead(protocol: Text, status: nat, reason: Text, fields: seq<Field>, body: Text)
    requires IsStatusLine(protocol, reason) && forall i | 0 <= i < |fields| :: Sendable(fields[i])
    ensures var head := PrintHead(StatusLine(protocol, status, reason), fields);
            var raw := head + TERMINATOR + body;
            && FindTerminator(raw) == Some(|head|) && raw[..|head|] == head && raw[|head| + 4..] == body
            && Status(head) == (if status <= 65_535 then Some(status) else None)
            && FieldIn(Lines(head), TRANSFER_ENCODING) == Lookup(fields, TRANSFER_ENCODING)
            && FieldIn(Lines(head), CONTENT_LENGTH) == Lookup(fields, CONTENT_LENGTH)
  {
    hide Sendable, OneLine, SameWord, StatusOf, Lines, FieldIn, Lookup, FieldLines, Join, FindTerminator, StatusLine, IsStatusLine;
    var line := StatusLine(protocol, status, reason);
    StatusLineIsALine(protocol, status, reason);
    StatusIsRead(protocol, status, reason);
    HttpLineIsNoField(line);
    FieldsAreFound(fields, TRANSFER_ENCODING);
    TerminatorEndsTheHead([line] + FieldLines(fields), body);
    HeadReadsBack(line, fields, TRANSFER_ENCODING);
    HeadReadsBack(line, fields, CONTENT_LENGTH);
    HeadAndBody(PrintHead(line, fields), body);
  }

  lemma PlainIsKept(protocol: Text, status: nat, reason: Text, fields: seq<Field>, body: Text)
    requires IsStatusLine(protocol, reason) && forall i | 0 <= i < |fields| :: Sendable(fields[i])
    requires var coding := Lookup(fields, TRANSFER_ENCODING); coding.None? || !SameWord(coding.value, CHUNKED)
    ensures var raw := PrintHead(StatusLine(protocol, status, reason), fields) + TERMINATOR + body;
            var length := Lookup(fields, CONTENT_LENGTH);
            Parsed(raw) ==
            if status > 65_535 then Err(NoStatus)
            else Ok(Response(status, Kept(if length.Some? then ParseDecimal(length.value, Chunked.USIZE_MAX) else None, body)))
  {
    hide Sendable, SameWord, Status, Lines, FieldIn, Lookup, PrintHead, StatusLine, IsStatusLine, FindTerminator, ParseDecimal,
         Kept, Chunked.Decode;
    PlainHead(protocol, status, reason, fields, body);
  }

  /** As much of the body as a field says, or all of it. */
  ghost predicate KeepsWhatIsSaid(field: Option<Text>, body: Text, kept: Text) {
    && (forall n, plus, zeros | field == Some(Spelled(n, plus, zeros)) && n <= 0xFFFF_FFFF_FFFF_FFFF :: kept == body[..Min(n, |body|)])
    && ((forall n, plus, zeros | n <= 0xFFFF_FFFF_FFFF_FFFF :: field != Some(Spelled(n, plus, zeros))) ==> kept == body)
  }

  lemma LengthIsKept(field: Option<Text>, body: Text)
    ensures KeepsWhatIsSaid(field, body, Kept(if field.Some? then ParseDecimal(field.value, Chunked.USIZE_MAX) else None, body))
  {
    hide ParseDecimal, Spelled;
    var length := if field.Some? then ParseDecimal(field.value, Chunked.USIZE_MAX) else None;
    var kept := Kept(length, body);
    assert length.None? ==> kept == body;
    assert length.Some? ==> kept == body[..Min(length.value, |body|)];
    hide Kept;
    forall n, plus, zeros | field == Some(Spelled(n, plus, zeros)) && n <= 0xFFFF_FFFF_FFFF_FFFF
      ensures length == Some(n)
    {
      ParsesExactlySpellings(field.value, Chunked.USIZE_MAX, n);
    }
    if length.Some? { ParsesExactlySpellings(field.value, Chunked.USIZE_MAX, length.value); }
  }

  /** An unchunked response arrives with its status, and with as much of what follows the head
      as `content-length` says; all of it where that field is missing or no number. */
  lemma PlainResponseArrives(protocol: Text, status: nat, reason: Text, fields: seq<Field>, body: Text)
    requires IsStatusLine(protocol, reason) && forall i | 0 <= i < |fields| :: Sendable(fields[i])
    requires var coding := Lookup(fields, Ascii("transfer-encoding")); coding.None? || !SameWord(coding.value, Ascii("chunked"))
    ensures var raw := PrintHead(StatusLine(protocol, status, reason), fields) + [0x0D, 0x0A, 0x0D, 0x0A] + body;
            && (status > 65_535 ==> Parsed(raw) == Err(NoStatus))
            && (status <= 65_535 ==> Parsed(raw).Ok? && Parsed(raw).value.status == status
                                     && KeepsWhatIsSaid(Lookup(fields, Ascii("content-length")), body, Parsed(raw).value.body))
  {
    hide Sendable, SameWord, Lookup, PrintHead, StatusLine, IsStatusLine, ParseDecimal, KeepsWhatIsSaid, Ascii, Parsed, Kept;
    NamesAreSpelled();
    PlainIsKept(protocol, status, reason, fields, body);
    LengthIsKept(Lookup(fields, CONTENT_LENGTH), body);
  }

  /** A chunked response of this protocol arrives with its status and its data. */
  lemma HttpResponseArrives(protocol: Text, status: nat, reason: Text, fields: seq<Field>, coding: Text,
                            chunks: seq<Chunked.Chunk>, last: Text, tail: Text)
    requires IsStatusLine(protocol, reason) && status <= 65_535
    requires forall i | 0 <= i < |fields| :: Sendable(fields[i])
    requires Lookup(fields, Ascii("transfer-encoding")) == Some(coding) && SameWord(coding, Ascii("chunked"))
    requires Chunked.AllWellFormed(chunks) && Chunked.IsLastLine(last) && |Chunked.Data(chunks)| <= 4_194_304
    ensures var raw := PrintHead(StatusLine(protocol, status, reason), fields) + [0x0D, 0x0A, 0x0D, 0x0A]
                       + (Chunked.Encode(chunks, last) + tail);
            Parsed(raw) == Ok(Response(status, Chunked.Data(chunks)))
  {
    hide Sendable, SameWord, StatusOf, FieldIn, Lookup, PrintHead, StatusLine, IsStatusLine, Parsed, Chunked.Encode, Chunked.Data,
         Ascii, Chunked.AllWellFormed, Chunked.IsLastLine;
    NamesAreSpelled();
    var line := StatusLine(protocol, status, reason);
    StatusLineIsALine(protocol, status, reason);
    StatusIsRead(protocol, status, reason);
    HttpLineIsNoField(line);
    ChunkedResponseArrives(line, fields, coding, chunks, last, tail);
  }

  // ---- What counts as a line, a word and a head --------------------------------------------------------

  /** A line ends at a line feed, with or without a carriage return before it; nothing
      follows the last one. */
  lemma LinesEndEitherWay(line: Text, rest: Text)
    requires 0x0A !in line
    ensures Lines(line + [0x0D, 0x0A] + rest) == [line] + Lines(rest)
    ensures (line == [] || line[|line| - 1] != 0x0D) ==> Lines(line + [0x0A] + rest) == [line] + Lines(rest)
    ensures Lines([]) == []
  {
    FirstLine(line, rest);
    assert CRLF == [0x0D, 0x0A];
    var s := line + [LF] + rest;
    assert s[..|line|] == line && s[|line|] == LF && s[|line| + 1..] == rest;
    FoundAt(s, LF, |line|);
  }

  /** Words are the same when they differ in nothing but the case of ASCII letters. */
  lemma SameWordMeans(a: Text, b: Text)
    ensures SameWord(a, b) <==>
            |a| == |b| && forall i | 0 <= i < |a| ::
              || a[i] == b[i]
              || (0x41 <= a[i] <= 0x5A && b[i] as int == a[i] as int + 0x20)
              || (0x41 <= b[i] <= 0x5A && a[i] as int == b[i] as int + 0x20)
  {
  }

  lemma {:induction false} TerminatorIsTheFirst(s: Text)
    ensures FindTerminator(s).None? <==> forall o: nat :: !OccursAt(s, [0x0D, 0x0A, 0x0D, 0x0A], o)
  {
    if |s| >= 4 {
      TerminatorIsTheFirst(s[1..]);
      assert s[..4] == TERMINATOR <==> OccursAt(s, [0x0D, 0x0A, 0x0D, 0x0A], 0);
      forall o: nat ensures OccursAt(s, [0x0D, 0x0A, 0x0D, 0x0A], o + 1) <==> OccursAt(s[1..], [0x0D, 0x0A, 0x0D, 0x0A], o) {
        OccursOneLater(s, o);
      }
      forall o: nat | o > 0 ensures OccursAt(s, [0x0D, 0x0A, 0x0D, 0x0A], o) <==> OccursAt(s[1..], [0x0D, 0x0A, 0x0D, 0x0A], o - 1) {
        OccursOneLater(s, o - 1);
      }
    }
  }

  lemma OccursOneLater(s: Text, o: nat)
    requires s != []
    ensures OccursAt(s, [0x0D, 0x0A, 0x0D, 0x0A], o + 1) <==> OccursAt(s[1..], [0x0D, 0x0A, 0x0D, 0x0A], o)
  {
    var v: Text := [0x0D, 0x0A, 0x0D, 0x0A];
    if o + 1 + 4 <= |s| {
      assert s[o + 1] == s[1..][o] && s[o + 2] == s[1..][o + 1] && s[o + 3] == s[1..][o + 2] && s[o + 4] == s[1..][o + 3];
      assert OccursAt(s, v, o + 1) <==> s[o + 1] == v[0] && s[o + 2] == v[1] && s[o + 3] == v[2] && s[o + 4] == v[3] by {
        if s[o + 1] == v[0] && s[o + 2] == v[1] && s[o + 3] == v[2] && s[o + 4] == v[3] {
          forall i | 0 <= i < 4 ensures s[o + 1 + i] == v[i] {}
        }
      }
      assert OccursAt(s[1..], v, o) <==> s[1..][o] == v[0] && s[1..][o + 1] == v[1] && s[1..][o + 2] == v[2] && s[1..][o + 3] == v[3] by {
        if s[1..][o] == v[0] && s[1..][o + 1] == v[1] && s[1..][o + 2] == v[2] && s[1..][o + 3] == v[3] {
          forall i | 0 <= i < 4 ensures s[1..][o + i] == v[i] {}
        }
      }
    }
  }

  /** What holds no blank line has no head. */
  lemma NoBlankLineNoHead(raw: Text)
    ensures Parsed(raw) == Err(NoTerminator) <==> forall o: nat :: !OccursAt(raw, [0x0D, 0x0A, 0x0D, 0x0A], o)
  {
    hide FindTerminator, Status, Body, OccursAt;
    TerminatorIsTheFirst(raw);
    if FindTerminator(raw).Some? { NoSuchError(raw[..FindTerminator(raw).value], raw[FindTerminator(raw).value + 4..]); }
  }

  lemma NoSuchError(head: Text, rest: Text)
    ensures Body(head, rest).Err? ==> Body(head, rest).error.BadChunks?
  {
    hide Chunked.Decode, Lines;
  }

  lemma {:induction false} NoColonInSpaces(cs: string)
    requires Chunked.AllSpaces(cs)
    ensures 0x3A !in Chunked.Utf8All(cs)
  {
    if cs != [] { NoColonInSpaces(cs[1..]); }
  }

  /** White space around a field's name and around its value is no part of either. */
  lemma FieldIsTrimmed(a: string, name: Text, b: string, c: string, value: Text, d: string, rest: seq<Text>, key: Text)
    requires Chunked.AllSpaces(a) && Chunked.AllSpaces(b) && Chunked.AllSpaces(c) && Chunked.AllSpaces(d)
    requires Chunked.Visible(name) && 0x3A !in name && Chunked.Visible(value)
    ensures var line := (Chunked.Utf8All(a) + name + Chunked.Utf8All(b)) + ([0x3A] + (Chunked.Utf8All(c) + value + Chunked.Utf8All(d)));
            FieldIn([line] + rest, key) == if SameWord(name, key) then Some(value) else FieldIn(rest, key)
  {
    hide FieldIn, SameWord, Chunked.Utf8All, Chunked.AllSpaces, Chunked.Visible, Chunked.TrimStart, Chunked.TrimEnd;
    var left, right := Chunked.Utf8All(a) + name + Chunked.Utf8All(b), Chunked.Utf8All(c) + value + Chunked.Utf8All(d);
    var line := left + ([0x3A] + right);
    NoColonInSpaces(a);
    NoColonInSpaces(b);
    Chunked.SpacesAreTrimmed(a, name, b);
    Chunked.SpacesAreTrimmed(c, value, d);
    assert line[|left|] == 0x3A && line[..|left|] == left && line[|left| + 1..] == right;
    FoundAt(line, COLON, |left|);
    FieldInFirst(line, rest, key, |left|);
  }

  /** A line without a colon is no field. */
  lemma NoColonNoField(line: Text, rest: seq<Text>, key: Text)
    requires 0x3A !in line
    ensures FieldIn([line] + rest, key) == FieldIn(rest, key)
  {
    hide SameWord, Trim;
    assert ([line] + rest)[1..] == rest;
  }
}
