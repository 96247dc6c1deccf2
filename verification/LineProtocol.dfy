/** Influx line protocol: points, their printing with the check's own escaping, and a
    reader that takes the print apart again. */
module LineProtocol {
  import opened Wrappers
  import Words

  datatype Point = Point(measurement: string, tags: seq<(string, string)>, fields: seq<(string, nat)>)

  // ---- Escaping ---------------------------------------------------------------------------

  /** The characters of the Unicode category Cc. */
  predicate IsControl(c: char) {
    c <= '\U{001F}' || '\U{007F}' <= c <= '\U{009F}'
  }

  function Clean(v: string): string {
    if v == "" then "" else [if IsControl(v[0]) then '_' else v[0]] + Clean(v[1..])
  }

  function Replace(s: string, c: char, by_: string): string {
    if s == "" then "" else (if s[0] == c then by_ else [s[0]]) + Replace(s[1..], c, by_)
  }

  /** Backslash, comma, equals sign and space, one kind after the other. */
  function Replaced(s: string): string {
    Replace(Replace(Replace(Replace(s, '\\', "\\\\"), ',', "\\,"), '=', "\\="), ' ', "\\ ")
  }

  /** Control characters are replaced; the format's own characters are escaped, one
      kind after the other. */
  function EscapeTag(v: string): string {
    Replaced(Clean(v))
  }

  predicate IsSpecial(c: char) {
    c == '\\' || c == ',' || c == '=' || c == ' '
  }

  /** Every special character behind one backslash, in a single pass. */
  function Escaped(s: string): string {
    if s == "" then "" else (if IsSpecial(s[0]) then ['\\', s[0]] else [s[0]]) + Escaped(s[1..])
  }

  lemma {:induction false} ReplaceConcat(a: string, b: string, c: char, by_: string)
    ensures Replace(a + b, c, by_) == Replace(a, c, by_) + Replace(b, c, by_)
  {
    if a == "" {
      assert a + b == b;
    } else {
      assert (a + b)[1..] == a[1..] + b;
      ReplaceConcat(a[1..], b, c, by_);
    }
  }

  lemma ReplacedConcat(a: string, b: string)
    ensures Replaced(a + b) == Replaced(a) + Replaced(b)
  {
    hide Replace;
    ReplaceConcat(a, b, '\\', "\\\\");
    var a1, b1 := Replace(a, '\\', "\\\\"), Replace(b, '\\', "\\\\");
    ReplaceConcat(a1, b1, ',', "\\,");
    var a2, b2 := Replace(a1, ',', "\\,"), Replace(b1, ',', "\\,");
    ReplaceConcat(a2, b2, '=', "\\=");
    ReplaceConcat(Replace(a2, '=', "\\="), Replace(b2, '=', "\\="), ' ', "\\ ");
  }

  lemma ReplaceOne(c: char, d: char, by_: string)
    ensures Replace([c], d, by_) == if c == d then by_ else [c]
  {
    assert [c][1..] == "";
  }

  lemma ReplaceTwo(b: char, c: char, d: char, by_: string)
    requires b != d
    ensures Replace([b, c], d, by_) == if c == d then [b] + by_ else [b, c]
  {
    assert [b, c][1..] == [c];
    ReplaceOne(c, d, by_);
  }

  lemma ReplacedOne(c: char)
    ensures Replaced([c]) == if IsSpecial(c) then ['\\', c] else [c]
  {
    hide Replace;
    assert "\\\\" == ['\\', '\\'] && "\\," == ['\\', ','] && "\\=" == ['\\', '='] && "\\ " == ['\\', ' '];
    ReplaceOne(c, '\\', "\\\\");
    ReplaceOne(c, ',', "\\,");
    ReplaceOne(c, '=', "\\=");
    ReplaceOne(c, ' ', "\\ ");
    ReplaceTwo('\\', c, ',', "\\,");
    ReplaceTwo('\\', c, '=', "\\=");
    ReplaceTwo('\\', c, ' ', "\\ ");
  }

  lemma {:induction false} ReplacesAreOnePass(s: string)
    ensures Replaced(s) == Escaped(s)
  {
    if s != "" {
      assert s == [s[0]] + s[1..];
      ReplacedConcat([s[0]], s[1..]);
      ReplacedOne(s[0]);
      ReplacesAreOnePass(s[1..]);
    }
  }

  /** The four replacements, backslash first, come to one pass over the characters. */
  lemma EscapeIsOnePass(v: string)
    ensures EscapeTag(v) == Escaped(Clean(v))
  {
    ReplacesAreOnePass(Clean(v));
  }

  /** The control characters: the first 32, and those from 127 to 159. */
  predicate IsControlCode(n: int) {
    n < 32 || 127 <= n < 160
  }

  lemma {:induction false} CleanHasNoControl(v: string)
    ensures |Clean(v)| == |v| && forall i | 0 <= i < |v| :: Clean(v)[i] == if IsControlCode(v[i] as int) then '_' else v[i]
    ensures forall i | 0 <= i < |v| :: !IsControl(Clean(v)[i])
    ensures Clean(v) == v <==> forall i | 0 <= i < |v| :: !IsControlCode(v[i] as int)
  {
    assert forall c: char :: IsControl(c) <==> IsControlCode(c as int);
    if v != "" {
      CleanHasNoControl(v[1..]);
      assert forall i | 0 < i < |v| :: Clean(v)[i] == Clean(v[1..])[i - 1] && v[i] == v[1..][i - 1];
    }
  }

  // ---- Printing -------------------------------------------------------------------------------

  function Decimal(n: nat): string {
    if n < 10 then [Digit(n)] else Decimal(n / 10) + [Digit(n % 10)]
  }

  function Digit(d: nat): char
    requires d < 10
  {
    (('0' as int) + d) as char
  }

  function PrintTags(tags: seq<(string, string)>): string {
    if tags == [] then "" else "," + tags[0].0 + "=" + EscapeTag(tags[0].1) + PrintTags(tags[1..])
  }

  function PrintField(f: (string, nat)): string {
    f.0 + "=" + Decimal(f.1) + "i"
  }

  function PrintFields(fields: seq<(string, nat)>): string {
    if fields == [] then ""
    else if |fields| == 1 then PrintField(fields[0])
    else PrintField(fields[0]) + "," + PrintFields(fields[1..])
  }

  function PrintPoint(p: Point): string {
    p.measurement + PrintTags(p.tags) + " " + PrintFields(p.fields) + "\n"
  }

  function PrintPoints(ps: seq<Point>): string {
    if ps == [] then "" else PrintPoint(ps[0]) + PrintPoints(ps[1..])
  }

  /** A decimal has no leading zeros. */
  lemma {:induction false} DecimalIsShort(n: nat)
    ensures Decimal(n) != "" && (n > 0 ==> Decimal(n)[0] != '0') && (n == 0 ==> Decimal(n) == "0")
  {
    if n >= 10 { DecimalIsShort(n / 10); }
  }

  // ---- Reading ----------------------------------------------------------------------------------

  datatype Token = Lit(c: char) | Delim(c: char)

  predicate IsDelimiter(c: char) {
    c == ',' || c == '=' || c == ' ' || c == '\n'
  }

  /** A backslash makes a special character an ordinary one, and is an ordinary
      character before any other. */
  function Lex(text: string): seq<Token>
    decreases |text|
  {
    if text == "" then []
    else if text[0] == '\\' && |text| > 1 && IsSpecial(text[1]) then [Lit(text[1])] + Lex(text[2..])
    else [if IsDelimiter(text[0]) then Delim(text[0]) else Lit(text[0])] + Lex(text[1..])
  }

  function Split(ts: seq<Token>, d: Token): (parts: seq<seq<Token>>)
    ensures |parts| > 0
  {
    if ts == [] then [[]]
    else
      var parts := Split(ts[1..], d);
      if ts[0] == d then [[]] + parts else [[ts[0]] + parts[0]] + parts[1..]
  }

  function Word(ts: seq<Token>): Option<string> {
    if ts == [] then Some("")
    else if ts[0].Delim? then None
    else match Word(ts[1..]) case None => None case Some(w) => Some([ts[0].c] + w)
  }

  function Pair(ts: seq<Token>): Option<(string, string)> {
    var parts := Split(ts, Delim('='));
    if |parts| != 2 then None
    else match Word(parts[0])
      case None => None
      case Some(key) => match Word(parts[1]) case None => None case Some(value) => Some((key, value))
  }

  function Number(s: string): Option<nat> {
    if |s| < 2 || s[|s| - 1] != 'i' || !Words.AllDigits(s[..|s| - 1]) then None
    else Some(Words.DecimalValue(s[..|s| - 1]))
  }

  function ReadTags(parts: seq<seq<Token>>): Option<seq<(string, string)>> {
    if parts == [] then Some([])
    else match Pair(parts[0])
      case None => None
      case Some(tag) => match ReadTags(parts[1..]) case None => None case Some(rest) => Some([tag] + rest)
  }

  function ReadFields(parts: seq<seq<Token>>): Option<seq<(string, nat)>> {
    if parts == [] then Some([])
    else match Pair(parts[0])
      case None => None
      case Some((key, value)) =>
        match Number(value)
        case None => None
        case Some(n) => match ReadFields(parts[1..]) case None => None case Some(rest) => Some([(key, n)] + rest)
  }

  function ReadPoint(line: seq<Token>): Option<Point> {
    var halves := Split(line, Delim(' '));
    if |halves| != 2 then None
    else
      var head := Split(halves[0], Delim(','));
      match Word(head[0])
      case None => None
      case Some(measurement) =>
        match ReadTags(head[1..])
        case None => None
        case Some(tags) =>
          match ReadFields(Split(halves[1], Delim(',')))
          case None => None
          case Some(fields) => Some(Point(measurement, tags, fields))
  }

  function ReadLines(lines: seq<seq<Token>>): Option<seq<Point>> {
    if lines == [] then Some([])
    else match ReadPoint(lines[0])
      case None => None
      case Some(p) => match ReadLines(lines[1..]) case None => None case Some(rest) => Some([p] + rest)
  }

  /** A text is read line by line, and each line must be ended. */
  function ReadPoints(text: string): Option<seq<Point>> {
    var lines := Split(Lex(text), Delim('\n'));
    if lines[|lines| - 1] != [] then None else ReadLines(lines[..|lines| - 1])
  }

  // ---- What is read of what is printed --------------------------------------------------------------

  function Lits(s: string): seq<Token> {
    if s == "" then [] else [Lit(s[0])] + Lits(s[1..])
  }

  predicate Plain(s: string) {
    forall i | 0 <= i < |s| :: !IsSpecial(s[i]) && !IsControl(s[i])
  }

  predicate Printable(p: Point) {
    && Plain(p.measurement) && p.fields != []
    && (forall i | 0 <= i < |p.tags| :: Plain(p.tags[i].0))
    && (forall i | 0 <= i < |p.fields| :: Plain(p.fields[i].0))
  }

  function CleanTags(tags: seq<(string, string)>): seq<(string, string)> {
    if tags == [] then [] else [(tags[0].0, Clean(tags[0].1))] + CleanTags(tags[1..])
  }

  function CleanPoint(p: Point): Point {
    p.(tags := CleanTags(p.tags))
  }

  function CleanPoints(ps: seq<Point>): seq<Point> {
    if ps == [] then [] else [CleanPoint(ps[0])] + CleanPoints(ps[1..])
  }

  /** Wherever the text stands, it is read as these tokens. */
  ghost predicate Reads(text: string, ts: seq<Token>) {
    forall rest :: Lex(text + rest) == ts + Lex(rest)
  }

  lemma ReadsConcat(a: string, x: seq<Token>, b: string, y: seq<Token>)
    requires Reads(a, x) && Reads(b, y)
    ensures Reads(a + b, x + y)
  {
    hide Lex;
    forall rest ensures Lex(a + b + rest) == x + y + Lex(rest) {
      assert a + b + rest == a + (b + rest);
      assert Lex(a + (b + rest)) == x + Lex(b + rest);
      assert x + (y + Lex(rest)) == x + y + Lex(rest);
    }
  }

  lemma {:induction false} LexEscaped(s: string, rest: string)
    requires forall i | 0 <= i < |s| :: !IsControl(s[i])
    ensures Lex(Escaped(s) + rest) == Lits(s) + Lex(rest)
  {
    hide Lex, IsSpecial, IsControl;
    if s == "" {
      assert Escaped(s) + rest == rest;
    } else {
      var one := if IsSpecial(s[0]) then ['\\', s[0]] else [s[0]];
      var tail := Escaped(s[1..]) + rest;
      assert Escaped(s) + rest == one + tail;
      LexOne(s[0], tail);
      LexEscaped(s[1..], rest);
      assert [Lit(s[0])] + (Lits(s[1..]) + Lex(rest)) == Lits(s) + Lex(rest);
    }
  }

  lemma LexOne(c: char, tail: string)
    requires !IsControl(c)
    ensures Lex((if IsSpecial(c) then ['\\', c] else [c]) + tail) == [Lit(c)] + Lex(tail)
  {
    assert (['\\', c] + tail)[2..] == tail;
    assert ([c] + tail)[1..] == tail;
  }

  lemma ValueReads(v: string)
    ensures Reads(EscapeTag(v), Lits(Clean(v)))
  {
    EscapeIsOnePass(v);
    CleanHasNoControl(v);
    forall rest ensures Lex(EscapeTag(v) + rest) == Lits(Clean(v)) + Lex(rest) {
      LexEscaped(Clean(v), rest);
    }
  }

  lemma {:induction false} PlainNeedsNoEscape(s: string)
    requires Plain(s)
    ensures Escaped(s) == s && Clean(s) == s
  {
    if s != "" { PlainNeedsNoEscape(s[1..]); }
  }

  lemma WordReads(s: string)
    requires Plain(s)
    ensures Reads(s, Lits(s))
  {
    PlainNeedsNoEscape(s);
    forall rest ensures Lex(s + rest) == Lits(s) + Lex(rest) {
      LexEscaped(s, rest);
    }
  }

  lemma DelimiterReads(c: char)
    requires IsDelimiter(c)
    ensures Reads([c], [Delim(c)])
  {
    forall rest ensures Lex([c] + rest) == [Delim(c)] + Lex(rest) {
      assert ([c] + rest)[1..] == rest;
    }
  }

  lemma NothingReads()
    ensures Reads("", [])
  {
    forall rest ensures Lex("" + rest) == [] + Lex(rest) {
      assert "" + rest == rest;
    }
  }

  // The tokens of a printed point.

  function PairTokens(tag: (string, string)): seq<Token> {
    Lits(tag.0) + [Delim('=')] + Lits(tag.1)
  }

  function TagTokens(tags: seq<(string, string)>): seq<Token> {
    if tags == [] then []
    else [Delim(',')] + PairTokens(tags[0]) + TagTokens(tags[1..])
  }

  function FieldTokens(f: (string, nat)): seq<Token> {
    Lits(f.0) + [Delim('=')] + Lits(Decimal(f.1) + "i")
  }

  function FieldsTokens(fields: seq<(string, nat)>): seq<Token> {
    if fields == [] then []
    else if |fields| == 1 then FieldTokens(fields[0])
    else FieldTokens(fields[0]) + [Delim(',')] + FieldsTokens(fields[1..])
  }

  function LineTokens(p: Point): seq<Token> {
    Lits(p.measurement) + TagTokens(p.tags) + [Delim(' ')] + FieldsTokens(p.fields)
  }

  function LinesTokens(ps: seq<Point>): seq<Token> {
    if ps == [] then [] else LineTokens(ps[0]) + [Delim('\n')] + LinesTokens(ps[1..])
  }

  lemma {:induction false} TagsRead(tags: seq<(string, string)>)
    requires forall i | 0 <= i < |tags| :: Plain(tags[i].0)
    ensures Reads(PrintTags(tags), TagTokens(CleanTags(tags)))
  {
    hide Lex, Reads, EscapeTag, Clean, PairTokens, Plain;
    if tags == [] {
      NothingReads();
    } else {
      var (key, value) := tags[0];
      var pair := key + "=" + EscapeTag(value);
      TagReads(key, value);
      DelimiterReads(',');
      TagsRead(tags[1..]);
      ReadsConcat(",", [Delim(',')], pair, PairTokens((key, Clean(value))));
      ReadsConcat("," + pair, [Delim(',')] + PairTokens((key, Clean(value))),
                  PrintTags(tags[1..]), TagTokens(CleanTags(tags[1..])));
      assert "," + pair + PrintTags(tags[1..]) == PrintTags(tags);
    }
  }

  lemma TagReads(key: string, value: string)
    requires Plain(key)
    ensures Reads(key + "=" + EscapeTag(value), PairTokens((key, Clean(value))))
  {
    hide Lex, Reads, EscapeTag, Clean, Lits, Plain;
    WordReads(key);
    DelimiterReads('=');
    ValueReads(value);
    ReadsConcat(key, Lits(key), "=", [Delim('=')]);
    ReadsConcat(key + "=", Lits(key) + [Delim('=')], EscapeTag(value), Lits(Clean(value)));
  }

  lemma {:induction false} DecimalRoundTrip(n: nat)
    ensures Decimal(n) != "" && Words.AllDigits(Decimal(n)) && Words.DecimalValue(Decimal(n)) == n
  {
    if n < 10 {
      assert [Digit(n)][..0] == "";
      assert Words.DecimalValue("") == 0;
    } else {
      DecimalRoundTrip(n / 10);
      assert Decimal(n)[..|Decimal(n)| - 1] == Decimal(n / 10);
    }
  }

  lemma NumberRoundTrip(n: nat)
    ensures Number(Decimal(n) + "i") == Some(n) && Plain(Decimal(n) + "i")
  {
    DecimalRoundTrip(n);
    assert (Decimal(n) + "i")[..|Decimal(n)|] == Decimal(n);
  }

  lemma FieldReads(f: (string, nat))
    requires Plain(f.0)
    ensures Reads(PrintField(f), FieldTokens(f))
  {
    hide Lex, Reads, Lits, Plain, Decimal;
    var number := Decimal(f.1) + "i";
    NumberRoundTrip(f.1);
    WordReads(f.0);
    DelimiterReads('=');
    WordReads(number);
    ReadsConcat(f.0, Lits(f.0), "=", [Delim('=')]);
    ReadsConcat(f.0 + "=", Lits(f.0) + [Delim('=')], number, Lits(number));
    assert f.0 + "=" + number == PrintField(f);
  }

  lemma {:induction false} FieldsRead(fields: seq<(string, nat)>)
    requires forall i | 0 <= i < |fields| :: Plain(fields[i].0)
    ensures Reads(PrintFields(fields), FieldsTokens(fields))
  {
    hide Lex, Reads, Plain, PrintField, FieldTokens;
    if fields == [] {
      NothingReads();
    } else {
      FieldReads(fields[0]);
      FieldsRead(fields[1..]);
      DelimiterReads(',');
      ReadsConcat(PrintField(fields[0]), FieldTokens(fields[0]), ",", [Delim(',')]);
      ReadsConcat(PrintField(fields[0]) + ",", FieldTokens(fields[0]) + [Delim(',')],
                  PrintFields(fields[1..]), FieldsTokens(fields[1..]));
    }
  }

  lemma PointReads(p: Point)
    requires Printable(p)
    ensures Reads(PrintPoint(p), LineTokens(CleanPoint(p)) + [Delim('\n')])
  {
    hide Lex, Reads, Plain, PrintTags, TagTokens, CleanTags, PrintFields, FieldsTokens, Lits;
    var m, tags, fields := p.measurement, PrintTags(p.tags), PrintFields(p.fields);
    var mt, tt, ft := Lits(m), TagTokens(CleanTags(p.tags)), FieldsTokens(p.fields);
    WordReads(m);
    TagsRead(p.tags);
    FieldsRead(p.fields);
    DelimiterReads(' ');
    DelimiterReads('\n');
    ReadsConcat(m, mt, tags, tt);
    ReadsConcat(m + tags, mt + tt, " ", [Delim(' ')]);
    ReadsConcat(m + tags + " ", mt + tt + [Delim(' ')], fields, ft);
    ReadsConcat(m + tags + " " + fields, mt + tt + [Delim(' ')] + ft, "\n", [Delim('\n')]);
  }

  lemma {:induction false} PointsRead(ps: seq<Point>)
    requires forall i | 0 <= i < |ps| :: Printable(ps[i])
    ensures Reads(PrintPoints(ps), LinesTokens(CleanPoints(ps)))
  {
    hide Lex, Reads, Printable, PrintPoint, LineTokens, CleanPoint;
    if ps == [] {
      NothingReads();
    } else {
      PointReads(ps[0]);
      PointsRead(ps[1..]);
      ReadsConcat(PrintPoint(ps[0]), LineTokens(CleanPoint(ps[0])) + [Delim('\n')],
                  PrintPoints(ps[1..]), LinesTokens(CleanPoints(ps[1..])));
    }
  }

  // ---- Taking the tokens apart -----------------------------------------------------------------------

  lemma {:induction false} SplitWhole(ts: seq<Token>, d: Token)
    requires d !in ts
    ensures Split(ts, d) == [ts]
  {
    if ts != [] {
      SplitWhole(ts[1..], d);
      assert [ts[1..]][1..] == [] && [ts[0]] + ts[1..] == ts;
    }
  }

  lemma {:induction false} SplitFirst(a: seq<Token>, d: Token, b: seq<Token>)
    requires d !in a
    ensures Split(a + [d] + b, d) == [a] + Split(b, d)
  {
    var ts := a + [d] + b;
    if a == [] {
      assert ts[0] == d && ts[1..] == b;
    } else {
      assert ts[0] == a[0] && ts[1..] == a[1..] + [d] + b;
      SplitFirst(a[1..], d, b);
      var rest := [a[1..]] + Split(b, d);
      assert rest[1..] == Split(b, d) && [a[0]] + a[1..] == a;
    }
  }

  lemma {:induction false} LitsAreWords(s: string)
    ensures Word(Lits(s)) == Some(s) && forall t | t in Lits(s) :: t.Lit?
  {
    if s != "" {
      LitsAreWords(s[1..]);
      assert Lits(s)[1..] == Lits(s[1..]) && s == [s[0]] + s[1..];
    }
  }

  lemma PairReadsBack(key: string, value: string)
    ensures Pair(Lits(key) + [Delim('=')] + Lits(value)) == Some((key, value))
  {
    hide Split, Word, Lits;
    LitsAreWords(key);
    LitsAreWords(value);
    SplitFirst(Lits(key), Delim('='), Lits(value));
    SplitWhole(Lits(value), Delim('='));
  }

  /** Everything but the tags' own separators is free of commas. */
  lemma {:induction false} TagsSplit(first: seq<Token>, tags: seq<(string, string)>)
    requires Delim(',') !in first
    ensures var parts := Split(first + TagTokens(tags), Delim(','));
            parts[0] == first && ReadTags(parts[1..]) == Some(tags)
    decreases |tags|
  {
    if tags == [] {
      assert first + TagTokens(tags) == first;
      SplitWhole(first, Delim(','));
    } else {
      OneTag(first, tags);
      hide Pair, Lits, Split, TagTokens, PairTokens;
      var pair, rest := PairTokens(tags[0]), tags[1..];
      TagsSplit(pair, rest);
      var inner := Split(pair + TagTokens(rest), Delim(','));
      assert ([first] + inner)[1..] == inner;
      assert [tags[0]] + rest == tags;
    }
  }

  lemma OneTag(first: seq<Token>, tags: seq<(string, string)>)
    requires Delim(',') !in first && tags != []
    ensures Split(first + TagTokens(tags), Delim(',')) == [first] + Split(PairTokens(tags[0]) + TagTokens(tags[1..]), Delim(','))
    ensures Delim(',') !in PairTokens(tags[0]) && Pair(PairTokens(tags[0])) == Some(tags[0])
  {
    hide Pair, PairTokens, Split;
    PairTokensAre(tags[0]);
    var pair, rest := PairTokens(tags[0]), TagTokens(tags[1..]);
    assert first + ([Delim(',')] + pair + rest) == first + [Delim(',')] + (pair + rest);
    SplitFirst(first, Delim(','), pair + rest);
  }

  lemma PairTokensAre(tag: (string, string))
    ensures forall t | t in PairTokens(tag) :: t.Lit? || t == Delim('=')
    ensures Pair(PairTokens(tag)) == Some(tag)
  {
    hide Pair, Lits;
    LitsAreWords(tag.0);
    LitsAreWords(tag.1);
    PairReadsBack(tag.0, tag.1);
  }

  lemma {:induction false} FieldsSplit(fields: seq<(string, nat)>)
    requires fields != []
    ensures ReadFields(Split(FieldsTokens(fields), Delim(','))) == Some(fields)
  {
    hide Pair, Lits, Number, FieldTokens;
    var f := fields[0];
    FieldReadsBack(f);
    if |fields| == 1 {
      SplitWhole(FieldTokens(f), Delim(','));
      assert [FieldTokens(f)][1..] == [] && ReadFields([]) == Some([]) && [f] + [] == fields;
    } else {
      SplitFirst(FieldTokens(f), Delim(','), FieldsTokens(fields[1..]));
      FieldsSplit(fields[1..]);
      var rest := Split(FieldsTokens(fields[1..]), Delim(','));
      assert ([FieldTokens(f)] + rest)[1..] == rest;
      assert [f] + fields[1..] == fields;
    }
  }

  lemma FieldReadsBack(f: (string, nat))
    ensures Pair(FieldTokens(f)) == Some((f.0, Decimal(f.1) + "i")) && Number(Decimal(f.1) + "i") == Some(f.1)
    ensures forall t | t in FieldTokens(f) :: t.Lit? || t == Delim('=')
  {
    hide Pair, Lits, Number, Decimal;
    var number := Decimal(f.1) + "i";
    NumberRoundTrip(f.1);
    PairReadsBack(f.0, number);
    LitsAreWords(f.0);
    LitsAreWords(number);
  }

  lemma {:induction false} TagTokensAre(tags: seq<(string, string)>)
    ensures forall t | t in TagTokens(tags) :: t.Lit? || t == Delim('=') || t == Delim(',')
  {
    hide PairTokens;
    if tags != [] {
      PairTokensAre(tags[0]);
      TagTokensAre(tags[1..]);
    }
  }

  lemma {:induction false} FieldsTokensAre(fields: seq<(string, nat)>)
    ensures forall t | t in FieldsTokens(fields) :: t.Lit? || t == Delim('=') || t == Delim(',')
  {
    hide FieldTokens;
    if fields != [] {
      FieldReadsBack(fields[0]);
      FieldsTokensAre(fields[1..]);
    }
  }

  lemma LineReadsBack(p: Point)
    requires p.fields != []
    ensures ReadPoint(LineTokens(p)) == Some(p)
    ensures Delim('\n') !in LineTokens(p)
  {
    hide Split, Word, ReadTags, ReadFields, Lits, TagTokens, FieldsTokens;
    LitsAreWords(p.measurement);
    TagTokensAre(p.tags);
    FieldsTokensAre(p.fields);
    var head := Lits(p.measurement) + TagTokens(p.tags);
    SplitFirst(head, Delim(' '), FieldsTokens(p.fields));
    SplitWhole(FieldsTokens(p.fields), Delim(' '));
    TagsSplit(Lits(p.measurement), p.tags);
    FieldsSplit(p.fields);
  }

  lemma {:induction false} LinesReadBack(ps: seq<Point>)
    requires forall i | 0 <= i < |ps| :: ps[i].fields != []
    ensures var lines := Split(LinesTokens(ps), Delim('\n'));
            lines[|lines| - 1] == [] && ReadLines(lines[..|lines| - 1]) == Some(ps)
  {
    hide LineTokens, ReadPoint;
    if ps != [] {
      LineReadsBack(ps[0]);
      SplitFirst(LineTokens(ps[0]), Delim('\n'), LinesTokens(ps[1..]));
      LinesReadBack(ps[1..]);
      var rest := Split(LinesTokens(ps[1..]), Delim('\n'));
      var lines := [LineTokens(ps[0])] + rest;
      assert lines[..|lines| - 1][1..] == rest[..|rest| - 1];
      assert lines[..|lines| - 1][0] == LineTokens(ps[0]);
      assert [ps[0]] + ps[1..] == ps;
    }
  }

  lemma {:induction false} CleanPointsHaveFields(ps: seq<Point>)
    requires forall i | 0 <= i < |ps| :: Printable(ps[i])
    ensures |CleanPoints(ps)| == |ps|
    ensures forall i | 0 <= i < |ps| :: CleanPoints(ps)[i] == CleanPoint(ps[i]) && CleanPoints(ps)[i].fields != []
  {
    hide CleanPoint;
    if ps != [] {
      CleanPointsHaveFields(ps[1..]);
      assert CleanPoint(ps[0]).fields == ps[0].fields by { FieldsStay(ps[0]); }
    }
  }

  lemma FieldsStay(p: Point)
    ensures CleanPoint(p).fields == p.fields
  {
  }

  /** Whatever the tag values are, the reader gets back the very points that were
      printed, control characters replaced: no value can add a tag, a field or a line. */
  lemma PointsReadBack(ps: seq<Point>)
    requires forall i | 0 <= i < |ps| :: Printable(ps[i])
    ensures ReadPoints(PrintPoints(ps)) == Some(CleanPoints(ps))
  {
    hide Lex, PrintPoints, LinesTokens, CleanPoints, Split, ReadLines, Printable;
    PointsRead(ps);
    assert Lex(PrintPoints(ps) + "") == LinesTokens(CleanPoints(ps)) + Lex("");
    assert PrintPoints(ps) + "" == PrintPoints(ps);
    assert Lex("") == [] by { NothingLexed(); }
    assert LinesTokens(CleanPoints(ps)) + [] == LinesTokens(CleanPoints(ps));
    CleanPointsHaveFields(ps);
    LinesReadBack(CleanPoints(ps));
  }

  lemma NothingLexed()
    ensures Lex("") == []
  {
  }
}
