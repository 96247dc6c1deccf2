/** The chunked-body decoder of the Docker client: a strict reader of the chunked
    coding of RFC 9112, section 7.1, with a cap on the size of the body. */
module Chunked {
  import opened Bytes
  import opened Wrappers
  import W = Words

  const MAX_RESPONSE_BYTES: nat := 4 * 1024 * 1024
  /** The largest `usize` of a 64-bit host. */
  const USIZE_MAX: nat := 0xFFFF_FFFF_FFFF_FFFF

  const CR: Byte := 0x0D
  const LF: Byte := 0x0A
  const SEMICOLON: Byte := 0x3B
  const PLUS: Byte := 0x2B
  const CRLF: Text := [CR, LF]

  datatype Error = NoChunkHeader | NotALength | TooLarge | EndsInChunk | NotTerminated

  // ---- Reading a chunk header ---------------------------------------------------

  /** Where the first CRLF stands. */
  function FindCrlf(s: Text): (r: Option<nat>)
    ensures r.Some? ==> r.value + 2 <= |s|
  {
    if |s| < 2 then None
    else if s[0] == CR && s[1] == LF then Some(0)
    else match FindCrlf(s[1..])
      case None => None
      case Some(i) => Some(i + 1)
  }

  /** Everything before the first semicolon: an extension carries nothing. */
  function SizeField(head: Text): Text {
    if head == [] || head[0] == SEMICOLON then [] else [head[0]] + SizeField(head[1..])
  }

  /** How many bytes the white-space character takes that `s` begins with, if any:
      the UTF-8 encodings of the Unicode white space that trimming removes. */
  function SpaceAtStart(s: Text): (n: nat)
    ensures n <= |s|
  {
    if |s| >= 1 && IsSpace1(s[0]) then 1
    else if |s| >= 2 && IsSpace2(s[0], s[1]) then 2
    else if |s| >= 3 && IsSpace3(s[0], s[1], s[2]) then 3
    else 0
  }

  function SpaceAtEnd(s: Text): (n: nat)
    ensures n <= |s|
  {
    if |s| >= 1 && IsSpace1(s[|s| - 1]) then 1
    else if |s| >= 2 && IsSpace2(s[|s| - 2], s[|s| - 1]) then 2
    else if |s| >= 3 && IsSpace3(s[|s| - 3], s[|s| - 2], s[|s| - 1]) then 3
    else 0
  }

  predicate IsSpace1(a: Byte) {
    0x09 <= a <= 0x0D || a == 0x20
  }

  predicate IsSpace2(a: Byte, b: Byte) {
    a == 0xC2 && (b == 0x85 || b == 0xA0)
  }

  predicate IsSpace3(a: Byte, b: Byte, c: Byte) {
    || (a == 0xE1 && b == 0x9A && c == 0x80)
    || (a == 0xE2 && b == 0x80 && (0x80 <= c <= 0x8A || c == 0xA8 || c == 0xA9 || c == 0xAF))
    || (a == 0xE2 && b == 0x81 && c == 0x9F)
    || (a == 0xE3 && b == 0x80 && c == 0x80)
  }

  function TrimStart(s: Text): Text {
    var n := SpaceAtStart(s);
    if n == 0 then s else TrimStart(s[n..])
  }

  function TrimEnd(s: Text): Text {
    var n := SpaceAtEnd(s);
    if n == 0 then s else TrimEnd(s[..|s| - n])
  }

  function HexDigit(b: Byte): Option<nat> {
    if 0x30 <= b <= 0x39 then Some(b as nat - 0x30)
    else if 0x41 <= b <= 0x46 then Some(b as nat - 0x41 + 10)
    else if 0x61 <= b <= 0x66 then Some(b as nat - 0x61 + 10)
    else None
  }

  function HexValue(digits: Text): Option<nat> {
    if digits == [] then Some(0)
    else
      match (HexValue(digits[..|digits| - 1]), HexDigit(digits[|digits| - 1]))
      case (Some(v), Some(d)) => Some(16 * v + d)
      case _ => None
  }

  /** `usize::from_str_radix(_, 16)`: one leading plus sign is allowed, a lone one is not. */
  function ParseHex(s: Text): Option<nat> {
    var digits := if |s| > 1 && s[0] == PLUS then s[1..] else s;
    if digits == [] then None
    else match HexValue(digits)
      case None => None
      case Some(v) => if v <= USIZE_MAX then Some(v) else None
  }

  /** The length a chunk header announces. */
  function ChunkSize(head: Text): Option<nat> {
    ParseHex(TrimEnd(TrimStart(SizeField(head))))
  }

  // ---- Decoding ---------------------------------------------------------------------

  function SaturatingAdd(a: nat, b: nat): nat {
    if a + b <= USIZE_MAX then a + b else USIZE_MAX
  }

  /** The body decoded from `rest` behind `out`, and how much of `rest` it took. */
  function Decode(rest: Text, out: Text): Result<(Text, nat), Error>
    decreases |rest|
  {
    match FindCrlf(rest)
    case None => Err(NoChunkHeader)
    case Some(lineEnd) => DecodeData(lineEnd, ChunkSize(rest[..lineEnd]), rest[lineEnd + 2..], out)
  }

  /** The same behind a header line of `lineEnd` bytes that announced `size`. */
  function DecodeData(lineEnd: nat, size: Option<nat>, data: Text, out: Text): Result<(Text, nat), Error>
    decreases |data|
  {
    match size
    case None => Err(NotALength)
    case Some(size) =>
      if size == 0 then Ok((out, lineEnd + 2))
      else if SaturatingAdd(|out|, size) > MAX_RESPONSE_BYTES then Err(TooLarge)
      else if |data| < size then Err(EndsInChunk)
      else if !(CRLF <= data[size..]) then Err(NotTerminated)
      else
        match Decode(data[size + 2..], out + data[..size])
        case Err(e) => Err(e)
        case Ok((body, n)) => Ok((body, lineEnd + 2 + size + 2 + n))
  }

  method DecodeChunked(response: Text) returns (r: Result<Text, Error>)
    ensures match Decode(response, [])
            case Ok((body, _)) => r == Ok(body)
            case Err(e) => r == Err(e)
    ensures r.Ok? ==> |r.value| <= MAX_RESPONSE_BYTES
  {
    if Decode(response, []).Ok? {
      ghost var chunks, last := DecodedWasEncoded(response, []);
    }
    var rest := response;
    var out: Text := [];
    while true
      invariant match Decode(response, [])
                case Ok((body, _)) => Decode(rest, out).Ok? && Decode(rest, out).value.0 == body
                case Err(e) => Decode(rest, out) == Err(e)
      decreases |rest|
    {
      var lineEnd := FindCrlf(rest);
      if lineEnd.None? { return Err(NoChunkHeader); }
      var size := ChunkSize(rest[..lineEnd.value]);
      if size.None? { return Err(NotALength); }
      rest := rest[lineEnd.value + 2..];
      if size.value == 0 { return Ok(out); }
      if SaturatingAdd(|out|, size.value) > MAX_RESPONSE_BYTES { return Err(TooLarge); }
      if |rest| < size.value { return Err(EndsInChunk); }
      out := out + rest[..size.value];
      if !(CRLF <= rest[size.value..]) { return Err(NotTerminated); }
      rest := rest[size.value + 2..];
    }
  }

  // ---- What a chunked body is -----------------------------------------------------------

  /** A chunk as sent: its header line, with any extension, and its data. */
  datatype Chunk = Chunk(head: Text, data: Text)

  predicate WellFormed(c: Chunk) {
    FindCrlf(c.head).None? && ChunkSize(c.head) == Some(|c.data|) && c.data != []
  }

  predicate IsLastLine(last: Text) {
    FindCrlf(last).None? && ChunkSize(last) == Some(0)
  }

  predicate AllWellFormed(chunks: seq<Chunk>) {
    forall i | 0 <= i < |chunks| :: WellFormed(chunks[i])
  }

  /** Chunk after chunk, closed by a zero-sized one. */
  function Encode(chunks: seq<Chunk>, last: Text): Text {
    if chunks == [] then last + CRLF
    else chunks[0].head + CRLF + (chunks[0].data + CRLF + Encode(chunks[1..], last))
  }

  function Data(chunks: seq<Chunk>): Text {
    if chunks == [] then [] else chunks[0].data + Data(chunks[1..])
  }

  // ---- Round trip -------------------------------------------------------------------------

  lemma {:induction false} FirstCrlf(head: Text, more: Text)
    requires FindCrlf(head).None?
    ensures FindCrlf(head + CRLF + more) == Some(|head|)
  {
    var s := head + CRLF + more;
    if head == [] {
      assert s[0] == CR && s[1] == LF;
    } else {
      assert s[0] == head[0] && s[1..] == head[1..] + CRLF + more;
      assert |head| == 1 ==> s[1] == CR;
      FirstCrlf(head[1..], more);
    }
  }

  lemma {:induction false} CrlfFound(s: Text)
    requires FindCrlf(s).Some?
    ensures var i := FindCrlf(s).value;
            FindCrlf(s[..i]).None? && s == s[..i] + CRLF + s[i + 2..]
  {
    var i := FindCrlf(s).value;
    if i == 0 {
      assert s == s[..0] + CRLF + s[0 + 2..];
    } else {
      CrlfFound(s[1..]);
      assert s[..i][1..] == s[1..][..i - 1];
      assert s[1..][i - 1 + 2..] == s[i + 2..];
      assert s == [s[0]] + s[1..];
      assert s[..i] == [s[0]] + s[1..][..i - 1];
    }
  }

  /** A header line is read as it was written. */
  lemma DecodeLine(head: Text, more: Text, out: Text)
    requires FindCrlf(head).None?
    ensures Decode(head + CRLF + more, out) == DecodeData(|head|, ChunkSize(head), more, out)
  {
    hide ChunkSize;
    FirstCrlf(head, more);
    assert (head + CRLF + more)[..|head|] == head && (head + CRLF + more)[|head| + 2..] == more;
  }

  /** Data of the announced length is taken as it was sent. */
  lemma DecodeSent(lineEnd: nat, data: Text, more: Text, out: Text)
    requires data != [] && |out| + |data| <= MAX_RESPONSE_BYTES
    ensures DecodeData(lineEnd, Some(|data|), data + CRLF + more, out) ==
            match Decode(more, out + data)
            case Err(e) => Err(e)
            case Ok((body, n)) => Ok((body, lineEnd + 2 + |data| + 2 + n))
  {
    var tail := data + CRLF + more;
    assert tail[..|data|] == data && tail[|data|..] == CRLF + more && tail[|data| + 2..] == more;
  }

  lemma Regroup(head: Text, data: Text, rest: Text, tail: Text)
    ensures head + CRLF + (data + CRLF + rest) + tail == head + CRLF + (data + CRLF + (rest + tail))
  {
  }

  lemma Concat3(a: Text, b: Text, c: Text)
    ensures a + b + c == a + (b + c)
  {
  }

  /** Whatever the sizes, spellings and extensions of the chunks, and whatever
      follows the closing line, decoding gives back the data. */
  lemma {:induction false} DecodeEncode(chunks: seq<Chunk>, last: Text, tail: Text, out: Text)
    requires AllWellFormed(chunks) && IsLastLine(last) && |out| + |Data(chunks)| <= MAX_RESPONSE_BYTES
    ensures Decode(Encode(chunks, last) + tail, out) == Ok((out + Data(chunks), |Encode(chunks, last)|))
  {
    hide Decode, ChunkSize, FindCrlf;
    if chunks == [] {
      DecodeLine(last, tail, out);
      assert out + [] == out;
    } else {
      var c, rest := chunks[0], Encode(chunks[1..], last);
      DecodeEncode(chunks[1..], last, tail, out + c.data);
      Concat3(out, c.data, Data(chunks[1..]));
      DecodeSent(|c.head|, c.data, rest + tail, out);
      DecodeLine(c.head, c.data + CRLF + (rest + tail), out);
      Regroup(c.head, c.data, rest, tail);
    }
  }

  /** Nothing but an encoding is accepted, and nothing over the cap. */
  lemma {:induction false} DecodedWasEncoded(x: Text, out: Text) returns (chunks: seq<Chunk>, last: Text)
    requires Decode(x, out).Ok? && |out| <= MAX_RESPONSE_BYTES
    ensures AllWellFormed(chunks) && IsLastLine(last)
    ensures var (body, n) := Decode(x, out).value;
            && n <= |x| && x[..n] == Encode(chunks, last)
            && body == out + Data(chunks) && |body| <= MAX_RESPONSE_BYTES
    decreases |x|
  {
    hide ChunkSize, FindCrlf;
    CrlfFound(x);
    var i := FindCrlf(x).value;
    var head, size, data := x[..i], ChunkSize(x[..i]).value, x[i + 2..];
    if size == 0 {
      chunks, last := [], head;
      assert x[..i + 2] == head + CRLF;
      assert out + [] == out;
    } else {
      var c, more := Chunk(head, data[..size]), data[size + 2..];
      SplitData(data, size);
      var rest: seq<Chunk>;
      rest, last := DecodedWasEncoded(more, out + c.data);
      chunks := [c] + rest;
      assert chunks[1..] == rest;
      Rejoin(x, c, more, Decode(more, out + c.data).value.1);
      Concat3(out, c.data, Data(rest));
    }
  }

  lemma SplitData(data: Text, size: nat)
    requires size <= |data| && CRLF <= data[size..]
    ensures data == data[..size] + CRLF + data[size + 2..]
  {
  }

  lemma Rejoin(x: Text, c: Chunk, more: Text, n: nat)
    requires x == c.head + CRLF + (c.data + CRLF + more) && n <= |more|
    ensures x[..|c.head| + 2 + |c.data| + 2 + n] == c.head + CRLF + (c.data + CRLF + more[..n])
  {
  }

  /** The decoder accepts exactly the encodings below the cap. */
  lemma DecodesExactlyEncodings(x: Text, body: Text, n: nat)
    ensures Decode(x, []) == Ok((body, n)) <==>
            && n <= |x| && |body| <= MAX_RESPONSE_BYTES
            && exists chunks, last :: IsEncoding(x[..n], body, chunks, last)
  {
    hide Decode, Encode, Data, AllWellFormed, IsLastLine;
    if Decode(x, []) == Ok((body, n)) {
      var chunks, last := DecodedWasEncoded(x, []);
      assert [] + Data(chunks) == Data(chunks);
      assert IsEncoding(x[..n], body, chunks, last);
    }
    if n <= |x| && |body| <= MAX_RESPONSE_BYTES {
      forall chunks, last | IsEncoding(x[..n], body, chunks, last) ensures Decode(x, []) == Ok((body, n)) {
        DecodeEncode(chunks, last, x[n..], []);
        assert x == x[..n] + x[n..] && [] + Data(chunks) == Data(chunks);
      }
    }
  }

  /** Well-formed chunks and a closing line, sent one after the other. */
  predicate IsEncoding(sent: Text, body: Text, chunks: seq<Chunk>, last: Text) {
    AllWellFormed(chunks) && IsLastLine(last) && sent == Encode(chunks, last) && body == Data(chunks)
  }

  // ---- Truncation ---------------------------------------------------------------------------

  /** What follows the closing line does not matter. */
  lemma ExtensionDecodesTheSame(x: Text, y: Text)
    requires Decode(x, []).Ok?
    ensures Decode(x, []).value.1 <= |x| && Decode(x[..Decode(x, []).value.1] + y, []) == Decode(x, [])
  {
    hide Decode;
    var chunks, last := DecodedWasEncoded(x, []);
    DecodeEncode(chunks, last, y, []);
  }

  /** No truncated body is accepted: everything shorter than what was consumed is an error. */
  lemma TruncationIsRefused(x: Text, m: nat)
    requires Decode(x, []).Ok? && m < Decode(x, []).value.1
    ensures m <= |x| && Decode(x[..m], []).Err?
  {
    hide Decode;
    var chunks, last := DecodedWasEncoded(x, []);
    ShorterIsTheSame(x, m);
  }

  lemma ShorterIsTheSame(x: Text, m: nat)
    requires m <= |x|
    ensures Decode(x[..m], []).Ok? ==> Decode(x, []) == Decode(x[..m], []) && Decode(x[..m], []).value.1 <= m
  {
    hide Decode;
    if Decode(x[..m], []).Ok? {
      var chunks, last := DecodedWasEncoded(x[..m], []);
      var n := Decode(x[..m], []).value.1;
      ExtensionDecodesTheSame(x[..m], x[n..]);
      TakeTwice(x, m, n);
    }
  }

  lemma TakeTwice(x: Text, m: nat, n: nat)
    requires n <= m <= |x|
    ensures x[..m][..n] + x[n..] == x
  {
  }

  // ---- The canonical encoder --------------------------------------------------------------------

  function HexChar(d: nat): (b: Byte)
    requires d < 16
    ensures HexDigit(b) == Some(d)
  {
    if d < 10 then (0x30 + d) as Byte else (0x61 + d - 10) as Byte
  }

  /** A length in lower-case hexadecimal without leading zeros. */
  function Hex(n: nat): Text {
    if n < 16 then [HexChar(n)] else Hex(n / 16) + [HexChar(n % 16)]
  }

  predicate AllHex(s: Text) {
    forall i | 0 <= i < |s| :: HexDigit(s[i]).Some?
  }

  lemma {:induction false} HexReads(n: nat)
    ensures Hex(n) != [] && AllHex(Hex(n)) && HexValue(Hex(n)) == Some(n)
  {
    if n < 16 {
      assert [HexChar(n)][..0] == [];
    } else {
      HexReads(n / 16);
      assert Hex(n)[..|Hex(n)| - 1] == Hex(n / 16);
    }
  }

  lemma TrimKeepsHex(s: Text)
    requires s != [] && AllHex(s)
    ensures TrimStart(s) == s && TrimEnd(s) == s
  {
    assert HexDigit(s[0]).Some? && HexDigit(s[|s| - 1]).Some?;
  }

  lemma {:induction false} FieldBeforeExtension(field: Text, extension: Text)
    requires AllHex(field) && (extension == [] || extension[0] == SEMICOLON)
    ensures SizeField(field + extension) == field
  {
    if field == [] {
      assert field + extension == extension;
    } else {
      assert HexDigit(field[0]).Some?;
      assert (field + extension)[1..] == field[1..] + extension;
      FieldBeforeExtension(field[1..], extension);
    }
  }

  lemma {:induction false} NoCrlfAcross(field: Text, extension: Text)
    requires AllHex(field) && FindCrlf(extension).None?
    ensures FindCrlf(field + extension).None?
  {
    if field == [] {
      assert field + extension == extension;
    } else {
      assert HexDigit(field[0]).Some?;
      assert (field + extension)[1..] == field[1..] + extension;
      NoCrlfAcross(field[1..], extension);
    }
  }

  /** A header as RFC 9112 writes it: the length in hexadecimal, and optionally a
      semicolon and an extension on the same line. */
  lemma HeaderReadsBack(n: nat, extension: Text)
    requires n <= USIZE_MAX && FindCrlf(extension).None? && (extension == [] || extension[0] == SEMICOLON)
    ensures FindCrlf(Hex(n) + extension).None? && ChunkSize(Hex(n) + extension) == Some(n)
  {
    HexReads(n);
    FieldBeforeExtension(Hex(n), extension);
    NoCrlfAcross(Hex(n), extension);
    TrimKeepsHex(Hex(n));
    assert HexDigit(Hex(n)[0]).Some?;
  }

  /** Any body cut into non-empty pieces and sent by such an encoder arrives. */
  lemma CanonicalRoundTrip(pieces: seq<Text>, extensions: seq<Text>, lastExtension: Text, tail: Text)
    requires |pieces| == |extensions| && forall i | 0 <= i < |pieces| :: pieces[i] != []
    requires forall i | 0 <= i < |extensions| :: IsExtension(extensions[i])
    requires IsExtension(lastExtension)
    requires |Data(Sent(pieces, extensions))| <= MAX_RESPONSE_BYTES
    ensures var x := Encode(Sent(pieces, extensions), Hex(0) + lastExtension);
            Decode(x + tail, []) == Ok((Data(Sent(pieces, extensions)), |x|))
  {
    var chunks := Sent(pieces, extensions);
    forall i | 0 <= i < |chunks| ensures WellFormed(chunks[i]) {
      PieceFits(chunks, i);
      HeaderReadsBack(|pieces[i]|, extensions[i]);
    }
    HeaderReadsBack(0, lastExtension);
    DecodeEncode(chunks, Hex(0) + lastExtension, tail, []);
    assert [] + Data(chunks) == Data(chunks);
  }

  predicate IsExtension(extension: Text) {
    FindCrlf(extension).None? && (extension == [] || extension[0] == SEMICOLON)
  }

  function Sent(pieces: seq<Text>, extensions: seq<Text>): (chunks: seq<Chunk>)
    requires |pieces| == |extensions|
    ensures |chunks| == |pieces|
  {
    seq(|pieces|, i requires 0 <= i < |pieces| => Chunk(Hex(|pieces[i]|) + extensions[i], pieces[i]))
  }

  lemma {:induction false} PieceFits(chunks: seq<Chunk>, i: nat)
    requires i < |chunks|
    ensures |chunks[i].data| <= |Data(chunks)|
  {
    if i > 0 {
      PieceFits(chunks[1..], i - 1);
    }
  }

  // ---- What a chunk header says ------------------------------------------------------------

  /** A character in UTF-8 (section 3 of RFC 3629). */
  function Utf8(c: char): (s: Text)
    ensures s != []
  {
    var n := c as int;
    if n < 0x80 then [n as Byte]
    else if n < 0x800 then [(0xC0 + n / 0x40) as Byte, (0x80 + n % 0x40) as Byte]
    else if n < 0x1_0000 then [(0xE0 + n / 0x1000) as Byte, (0x80 + n / 0x40 % 0x40) as Byte, (0x80 + n % 0x40) as Byte]
    else [(0xF0 + n / 0x4_0000) as Byte, (0x80 + n / 0x1000 % 0x40) as Byte, (0x80 + n / 0x40 % 0x40) as Byte, (0x80 + n % 0x40) as Byte]
  }

  /** The white space of two and three bytes, one by one. */
  lemma LongSpaces(c: char)
    ensures W.IsSpace(c) && c as int >= 0x80 ==>
              match |Utf8(c)|
              case 2 => IsSpace2(Utf8(c)[0], Utf8(c)[1])
              case 3 => IsSpace3(Utf8(c)[0], Utf8(c)[1], Utf8(c)[2])
              case _ => false
  {
  }

  lemma SpaceOfTwo(a: Byte, b: Byte) returns (c: char)
    requires IsSpace2(a, b)
    ensures W.IsSpace(c) && Utf8(c) == [a, b]
  {
    c := if b == 0x85 then '\U{0085}' else '\U{00A0}';
  }

  lemma SpaceOfThree(a: Byte, b: Byte, d: Byte) returns (c: char)
    requires IsSpace3(a, b, d)
    ensures W.IsSpace(c) && Utf8(c) == [a, b, d]
  {
    c := if a == 0xE1 then '\U{1680}' else if a == 0xE3 then '\U{3000}' else if b == 0x81 then '\U{205F}'
         else (0x2000 + (d as int - 0x80)) as char;
  }

  /** What trimming takes for a space is one white-space character. */
  lemma SpaceIsACharacter(s: Text) returns (c: char)
    requires SpaceAtStart(s) > 0
    ensures W.IsSpace(c) && Utf8(c) == s[..SpaceAtStart(s)]
  {
    if IsSpace1(s[0]) {
      c := s[0] as char;
    } else if |s| >= 2 && IsSpace2(s[0], s[1]) {
      c := SpaceOfTwo(s[0], s[1]);
    } else {
      c := SpaceOfThree(s[0], s[1], s[2]);
    }
  }

  lemma CharacterIsASpace(c: char, rest: Text)
    requires W.IsSpace(c)
    ensures SpaceAtStart(Utf8(c) + rest) == |Utf8(c)| && SpaceAtEnd(rest + Utf8(c)) == |Utf8(c)|
  {
    LongSpaces(c);
    var s, t := Utf8(c) + rest, rest + Utf8(c);
    var n := |Utf8(c)|;
    assert forall i | 0 <= i < n :: s[i] == Utf8(c)[i] && t[|rest| + i] == Utf8(c)[i];
  }

  /** Text that is nothing but white space. */
  function Utf8All(cs: string): Text {
    if cs == [] then [] else Utf8(cs[0]) + Utf8All(cs[1..])
  }

  predicate AllSpaces(cs: string) {
    forall i | 0 <= i < |cs| :: W.IsSpace(cs[i])
  }

  lemma {:induction false} TrimStartDrops(s: Text) returns (cs: string)
    ensures AllSpaces(cs) && s == Utf8All(cs) + TrimStart(s) && SpaceAtStart(TrimStart(s)) == 0
    decreases |s|
  {
    hide Utf8, W.IsSpace, SpaceAtStart, Utf8All;
    var n := SpaceAtStart(s);
    if n == 0 {
      cs := [];
      NothingBefore(s);
    } else {
      var c := SpaceIsACharacter(s);
      var rest := TrimStartDrops(s[n..]);
      cs := [c] + rest;
      Utf8AllLess(c, rest);
      assert s == s[..n] + s[n..];
      Concat3(Utf8(c), Utf8All(rest), TrimStart(s[n..]));
    }
  }

  lemma NothingBefore(s: Text)
    ensures Utf8All([]) + s == s
  {
  }

  lemma Utf8AllLess(c: char, cs: string)
    ensures Utf8All([c] + cs) == Utf8(c) + Utf8All(cs)
  {
    hide Utf8;
    assert ([c] + cs)[1..] == cs;
  }

  lemma SpaceAtTheEnd(s: Text) returns (c: char)
    requires SpaceAtEnd(s) > 0
    ensures W.IsSpace(c) && Utf8(c) == s[|s| - SpaceAtEnd(s)..]
  {
    var n := |s|;
    if IsSpace1(s[n - 1]) {
      c := s[n - 1] as char;
    } else if n >= 2 && IsSpace2(s[n - 2], s[n - 1]) {
      c := SpaceOfTwo(s[n - 2], s[n - 1]);
    } else {
      c := SpaceOfThree(s[n - 3], s[n - 2], s[n - 1]);
    }
  }

  lemma {:induction false} Utf8AllMore(cs: string, c: char)
    ensures Utf8All(cs + [c]) == Utf8All(cs) + Utf8(c)
  {
    hide Utf8;
    if cs == [] {
      assert ([] + [c])[1..] == [] && [] + [c] == [c];
    } else {
      assert (cs + [c])[1..] == cs[1..] + [c];
      Utf8AllMore(cs[1..], c);
    }
  }

  lemma {:induction false} TrimEndDrops(s: Text) returns (cs: string)
    ensures AllSpaces(cs) && s == TrimEnd(s) + Utf8All(cs)
    decreases |s|
  {
    hide Utf8, W.IsSpace, SpaceAtEnd, Utf8All;
    var n := SpaceAtEnd(s);
    if n == 0 {
      cs := [];
      NothingBehind(s);
    } else {
      var c := SpaceAtTheEnd(s);
      var front := s[..|s| - n];
      var rest := TrimEndDrops(front);
      cs := rest + [c];
      Utf8AllMore(rest, c);
      assert s == front + s[|s| - n..];
      Concat3(TrimEnd(front), Utf8All(rest), Utf8(c));
    }
  }

  lemma NothingBehind(s: Text)
    ensures s + Utf8All([]) == s
  {
  }

  lemma {:induction false} LeadingIsTrimmed(cs: string, t: Text)
    requires AllSpaces(cs)
    ensures TrimStart(Utf8All(cs) + t) == TrimStart(t)
  {
    hide Utf8, SpaceAtStart, W.IsSpace;
    if cs == [] {
      assert Utf8All(cs) + t == t;
    } else {
      var rest := Utf8All(cs[1..]) + t;
      CharacterIsASpace(cs[0], rest);
      Concat3(Utf8(cs[0]), Utf8All(cs[1..]), t);
      assert (Utf8(cs[0]) + rest)[|Utf8(cs[0])|..] == rest;
      LeadingIsTrimmed(cs[1..], t);
    }
  }

  lemma {:induction false} TrailingIsTrimmed(cs: string, t: Text)
    requires AllSpaces(cs)
    ensures TrimEnd(t + Utf8All(cs)) == TrimEnd(t)
  {
    hide Utf8, SpaceAtEnd, W.IsSpace;
    if cs == [] {
      assert t + Utf8All(cs) == t;
    } else {
      var front, c := cs[..|cs| - 1], cs[|cs| - 1];
      assert cs == front + [c];
      Utf8AllMore(front, c);
      CharacterIsASpace(c, t + Utf8All(front));
      Concat3(t, Utf8All(front), Utf8(c));
      assert (t + Utf8All(front) + Utf8(c))[..|t + Utf8All(front)|] == t + Utf8All(front);
      TrailingIsTrimmed(front, t);
    }
  }

  /** Text that begins and ends in a visible ASCII character. */
  predicate Visible(t: Text) {
    t != [] && 0x21 <= t[0] <= 0x7E && 0x21 <= t[|t| - 1] <= 0x7E
  }

  /** Trimming takes off the white space around, and nothing else. */
  lemma SpacesAreTrimmed(a: string, t: Text, b: string)
    requires AllSpaces(a) && AllSpaces(b) && Visible(t)
    ensures TrimEnd(TrimStart(Utf8All(a) + t + Utf8All(b))) == t
  {
    hide Utf8, W.IsSpace, Utf8All;
    Concat3(Utf8All(a), t, Utf8All(b));
    LeadingIsTrimmed(a, t + Utf8All(b));
    VisibleStays(t, Utf8All(b));
    TrailingIsTrimmed(b, t);
    VisibleStays(t, []);
  }

  lemma VisibleStays(t: Text, rest: Text)
    requires Visible(t)
    ensures TrimStart(t + rest) == t + rest && TrimEnd(t) == t
  {
    assert (t + rest)[0] == t[0];
  }

  // Hexadecimal numbers.

  /** The same digits, letters in either case. */
  predicate AnyCase(digits: Text, text: Text) {
    && |digits| == |text|
    && forall i | 0 <= i < |text| :: digits[i] == text[i] || (0x61 <= text[i] <= 0x66 && digits[i] == text[i] - 0x20)
  }

  function Zeros(n: nat): (s: Text)
    ensures |s| == n && forall i | 0 <= i < n :: s[i] == 0x30
  {
    seq(n, _ => 0x30 as Byte)
  }

  /** A length as a header may spell it: a plus sign, leading zeros, letters in any case. */
  predicate Spells(s: Text, n: nat, plus: bool, zeros: nat, digits: Text) {
    AnyCase(digits, Hex(n)) && s == (if plus then [0x2B] else []) + (Zeros(zeros) + digits)
  }

  lemma DigitOfCase(b: Byte, d: nat)
    requires d < 16
    ensures HexDigit(b) == Some(d) <==> b == HexChar(d) || (10 <= d && b == HexChar(d) - 0x20)
    ensures HexChar(d) >= 0x30
    ensures d < 10 ==> HexChar(d) == (0x30 + d) as Byte
    ensures d >= 10 ==> 0x61 <= HexChar(d) <= 0x66
  {
  }

  lemma {:induction false} ZerosAreNothing(n: nat)
    ensures HexValue(Zeros(n)) == Some(0)
  {
    if n > 0 {
      ZerosAreNothing(n - 1);
      assert Zeros(n)[..n - 1] == Zeros(n - 1);
    }
  }

  lemma HexOneMore(front: Text, b: Byte)
    ensures HexValue(front + [b]) ==
            match (HexValue(front), HexDigit(b)) case (Some(v), Some(d)) => Some(16 * v + d) case _ => None
  {
    assert (front + [b])[..|front|] == front;
  }

  lemma {:induction false} SpelledIsRead(zeros: nat, digits: Text, n: nat)
    requires AnyCase(digits, Hex(n))
    ensures HexValue(Zeros(zeros) + digits) == Some(n)
    ensures digits != [] && HexDigit(digits[0]).Some?
  {
    hide HexValue, HexDigit, HexChar;
    var k := |digits| - 1;
    var front := Zeros(zeros) + digits[..k];
    assert Zeros(zeros) + digits == front + [digits[k]];
    HexOneMore(front, digits[k]);
    DigitOfCase(digits[k], n % 16);
    if n < 16 {
      assert front == Zeros(zeros);
      ZerosAreNothing(zeros);
    } else {
      SpelledIsRead(zeros, digits[..k], n / 16);
    }
  }

  lemma {:induction false} ReadIsSpelled(s: Text, n: nat) returns (zeros: nat, digits: Text)
    requires s != [] && HexValue(s) == Some(n)
    ensures AnyCase(digits, Hex(n)) && s == Zeros(zeros) + digits
  {
    hide HexDigit, HexChar, HexValue;
    var k := |s| - 1;
    var front, b := s[..k], s[k];
    assert s == front + [b];
    HexOneMore(front, b);
    var u, d := HexValue(front).value, HexDigit(b).value;
    DigitIsSmall(b);
    DigitOfCase(b, d);
    if front == [] {
      zeros, digits := 0, [b];
      assert HexValue([]) == Some(0) by { ZerosAreNothing(0); assert Zeros(0) == []; }
    } else {
      zeros, digits := ReadIsSpelled(front, u);
      if u == 0 {
        assert Hex(0) == [HexChar(0)];
        DigitOfCase(digits[0], 0);
        assert digits == Zeros(1) && Zeros(zeros) + Zeros(1) == Zeros(zeros + 1);
        zeros, digits := zeros + 1, [b];
      } else {
        assert Hex(n) == Hex(u) + [HexChar(d)];
        digits := digits + [b];
      }
    }
  }

  lemma NoSign(b: Byte)
    ensures HexDigit(b).Some? ==> b != 0x2B && b != 0x3B && 0x21 <= b <= 0x7E
  {
  }

  lemma DigitIsSmall(b: Byte)
    ensures HexDigit(b).Some? ==> HexDigit(b).value < 16
  {
  }

  /** Parsing reads exactly the spellings of the numbers that fit a `usize`. */
  lemma ParsesExactlySpellings(s: Text, n: nat)
    ensures ParseHex(s) == Some(n) <==>
            n <= 0xFFFF_FFFF_FFFF_FFFF && exists plus, zeros, digits :: Spells(s, n, plus, zeros, digits)
  {
    hide HexValue, AnyCase, HexDigit;
    if ParseHex(s) == Some(n) {
      var plus := |s| > 1 && s[0] == PLUS;
      var zeros, digits := ReadIsSpelled(if plus then s[1..] else s, n);
      assert Spells(s, n, plus, zeros, digits);
    }
    if n <= 0xFFFF_FFFF_FFFF_FFFF {
      forall plus, zeros, digits | Spells(s, n, plus, zeros, digits) ensures ParseHex(s) == Some(n) {
        SpellingIsParsed(s, n, plus, zeros, digits);
      }
    }
  }

  lemma SpellingIsParsed(s: Text, n: nat, plus: bool, zeros: nat, digits: Text)
    requires n <= 0xFFFF_FFFF_FFFF_FFFF && Spells(s, n, plus, zeros, digits)
    ensures ParseHex(s) == Some(n)
  {
    hide HexValue, AnyCase, HexDigit;
    SpelledIsRead(zeros, digits, n);
    var number := Zeros(zeros) + digits;
    NoSign(digits[0]);
    assert number[0] == if zeros > 0 then 0x30 else digits[0];
    if plus { assert s[1..] == number; } else { assert s == number; }
  }

  // The length in a header.

  lemma {:induction false} FieldEnds(field: Text, extension: Text)
    requires 0x3B !in field && (extension == [] || extension[0] == 0x3B)
    ensures SizeField(field + extension) == field
  {
    if field == [] {
      assert field + extension == extension;
    } else {
      assert (field + extension)[1..] == field[1..] + extension;
      FieldEnds(field[1..], extension);
    }
  }

  lemma {:induction false} FieldSplits(head: Text) returns (extension: Text)
    ensures head == SizeField(head) + extension && 0x3B !in SizeField(head) && (extension == [] || extension[0] == 0x3B)
  {
    if head == [] || head[0] == SEMICOLON {
      extension := head;
    } else {
      extension := FieldSplits(head[1..]);
      assert head == [head[0]] + head[1..];
    }
  }

  lemma {:induction false} NoSemicolonInSpaces(cs: string)
    requires AllSpaces(cs)
    ensures 0x3B !in Utf8All(cs)
  {
    if cs != [] { NoSemicolonInSpaces(cs[1..]); }
  }

  lemma {:induction false} SpelledIsVisible(s: Text, n: nat, plus: bool, zeros: nat, digits: Text)
    requires Spells(s, n, plus, zeros, digits)
    ensures Visible(s) && 0x3B !in s
  {
    AllDigitsSpelled(digits, n);
    hide AnyCase, HexDigit;
    assert forall i | 0 <= i < |digits| :: 0x30 <= digits[i] <= 0x7E && digits[i] != 0x3B;
    var number := Zeros(zeros) + digits;
    assert forall i | 0 <= i < |number| :: 0x30 <= number[i] <= 0x7E && number[i] != 0x3B;
  }

  lemma {:induction false} AllDigitsSpelled(digits: Text, n: nat)
    requires AnyCase(digits, Hex(n))
    ensures digits != [] && forall i | 0 <= i < |digits| :: 0x30 <= digits[i] <= 0x7E && digits[i] != 0x3B
  {
    hide HexChar, HexDigit;
    var k := |digits| - 1;
    DigitOfCase(digits[k], n % 16);
    if n >= 16 { AllDigitsSpelled(digits[..k], n / 16); }
  }

  /** A header as it may be sent: white space around a spelling of the length, and perhaps
      an extension behind a semicolon. */
  ghost predicate Announces(head: Text, n: nat, a: string, number: Text, b: string, extension: Text) {
    && AllSpaces(a) && AllSpaces(b) && (extension == [] || extension[0] == 0x3B)
    && (exists plus, zeros, digits :: Spells(number, n, plus, zeros, digits))
    && head == Utf8All(a) + number + Utf8All(b) + extension
  }

  /** The length is read from exactly the headers that announce it. */
  lemma HeaderIsALength(head: Text, n: nat)
    ensures ChunkSize(head) == Some(n) <==>
            n <= 0xFFFF_FFFF_FFFF_FFFF && exists a, number, b, extension :: Announces(head, n, a, number, b, extension)
  {
    hide ParseHex, Spells, Utf8All, AllSpaces, SizeField, Visible;
    if ChunkSize(head) == Some(n) {
      var extension := FieldSplits(head);
      var field := SizeField(head);
      var a := TrimStartDrops(field);
      var b := TrimEndDrops(TrimStart(field));
      ParsesExactlySpellings(TrimEnd(TrimStart(field)), n);
      Concat3(Utf8All(a), TrimEnd(TrimStart(field)), Utf8All(b));
      assert Announces(head, n, a, TrimEnd(TrimStart(field)), b, extension);
    }
    if n <= 0xFFFF_FFFF_FFFF_FFFF {
      forall a, number, b, extension | Announces(head, n, a, number, b, extension) ensures ChunkSize(head) == Some(n) {
        AnnouncedIsRead(head, n, a, number, b, extension);
      }
    }
  }

  lemma AnnouncedIsRead(head: Text, n: nat, a: string, number: Text, b: string, extension: Text)
    requires n <= 0xFFFF_FFFF_FFFF_FFFF && Announces(head, n, a, number, b, extension)
    ensures ChunkSize(head) == Some(n)
  {
    hide ParseHex, Spells, Utf8All, AllSpaces, SizeField, Visible, TrimStart, TrimEnd;
    var plus, zeros, digits :| Spells(number, n, plus, zeros, digits);
    SpelledIsVisible(number, n, plus, zeros, digits);
    ParsesExactlySpellings(number, n);
    NoSemicolonInSpaces(a);
    NoSemicolonInSpaces(b);
    FieldEnds(Utf8All(a) + number + Utf8All(b), extension);
    SpacesAreTrimmed(a, number, b);
  }

  // ---- What is refused, and why ------------------------------------------------------------------

  /** Chunk after chunk, not yet closed. */
  function Opened(chunks: seq<Chunk>): Text {
    if chunks == [] then []
    else chunks[0].head + CRLF + (chunks[0].data + CRLF + Opened(chunks[1..]))
  }

  lemma {:induction false} BehindChunks(chunks: seq<Chunk>, rest: Text, out: Text)
    requires AllWellFormed(chunks) && |out| + |Data(chunks)| <= MAX_RESPONSE_BYTES
    ensures Decode(rest, out + Data(chunks)).Err? ==> Decode(Opened(chunks) + rest, out) == Decode(rest, out + Data(chunks))
  {
    hide Decode, ChunkSize, FindCrlf;
    if chunks == [] {
      assert out + [] == out && Opened(chunks) + rest == rest;
    } else {
      var c, more := chunks[0], Opened(chunks[1..]);
      BehindChunks(chunks[1..], rest, out + c.data);
      Concat3(out, c.data, Data(chunks[1..]));
      DecodeSent(|c.head|, c.data, more + rest, out);
      DecodeLine(c.head, c.data + CRLF + (more + rest), out);
      Regroup(c.head, c.data, more, rest);
    }
  }

  /** Behind well-formed chunks within the cap, a missing header line is told from a line that
      is no length, a chunk over the cap, one that runs past the end, and one not closed. */
  lemma ErrorsAreTold(chunks: seq<Chunk>, rest: Text, head: Text, data: Text)
    requires AllWellFormed(chunks) && |Data(chunks)| <= 4_194_304 && FindCrlf(head).None?
    ensures var told := Decode(Opened(chunks) + (head + [0x0D, 0x0A] + data), []);
            var sent := |Data(chunks)|;
            && (FindCrlf(rest).None? ==> Decode(Opened(chunks) + rest, []) == Err(NoChunkHeader))
            && (ChunkSize(head).None? ==> told == Err(NotALength))
            && (ChunkSize(head).Some? && ChunkSize(head).value > 0 ==>
                  var n := ChunkSize(head).value;
                  && (sent + n > 4_194_304 ==> told == Err(TooLarge))
                  && (sent + n <= 4_194_304 && |data| < n ==> told == Err(EndsInChunk))
                  && (sent + n <= 4_194_304 && |data| >= n && !([0x0D, 0x0A] <= data[n..]) ==> told == Err(NotTerminated)))
  {
    hide ChunkSize, AllWellFormed, Opened;
    assert [] + Data(chunks) == Data(chunks) && CRLF == [0x0D, 0x0A];
    BehindChunks(chunks, rest, []);
    BehindChunks(chunks, head + CRLF + data, []);
    hide Decode;
    if FindCrlf(rest).None? { NoHeader(rest, Data(chunks)); }
    DecodeLine(head, data, Data(chunks));
  }

  lemma NoHeader(rest: Text, out: Text)
    requires FindCrlf(rest).None?
    ensures Decode(rest, out) == Err(NoChunkHeader)
  {
  }
}
