/** Lines of text taken apart at white space, as the apt parser does. */
module Words {
  import opened Wrappers

  /** The characters Unicode counts as white space. */
  predicate IsSpace(c: char) {
    || '\U{0009}' <= c <= '\U{000D}' || c == ' ' || c == '\U{0085}' || c == '\U{00A0}' || c == '\U{1680}'
    || '\U{2000}' <= c <= '\U{200A}' || c == '\U{2028}' || c == '\U{2029}' || c == '\U{202F}'
    || c == '\U{205F}' || c == '\U{3000}'
  }

  predicate IsWord(w: string) {
    w != "" && forall i | 0 <= i < |w| :: !IsSpace(w[i])
  }

  function WordLength(s: string): (n: nat)
    ensures n <= |s|
    ensures s != "" && !IsSpace(s[0]) ==> n > 0
  {
    if s == "" || IsSpace(s[0]) then 0 else 1 + WordLength(s[1..])
  }

  /** `split_whitespace`. */
  function Tokens(s: string): seq<string>
    decreases |s|
  {
    if s == "" then []
    else if IsSpace(s[0]) then Tokens(s[1..])
    else [s[..WordLength(s)]] + Tokens(s[WordLength(s)..])
  }

  function TrimStart(s: string): string {
    if s != "" && IsSpace(s[0]) then TrimStart(s[1..]) else s
  }

  function TrimEnd(s: string): string {
    if s != "" && IsSpace(s[|s| - 1]) then TrimEnd(s[..|s| - 1]) else s
  }

  function Trim(s: string): string {
    TrimEnd(TrimStart(s))
  }

  predicate IsDigit(c: char) {
    '0' <= c <= '9'
  }

  predicate AllDigits(s: string) {
    forall i | 0 <= i < |s| :: IsDigit(s[i])
  }

  function DecimalValue(s: string): nat
    requires AllDigits(s)
  {
    if s == "" then 0 else 10 * DecimalValue(s[..|s| - 1]) + ((s[|s| - 1] as int) - ('0' as int))
  }

  const U32_MAX: nat := 0xFFFF_FFFF

  /** `parse::<u32>()` succeeds: digits, perhaps behind one plus sign, in range. */
  predicate ParsesAsU32(s: string) {
    var digits := if |s| > 1 && s[0] == '+' then s[1..] else s;
    digits != "" && AllDigits(digits) && DecimalValue(digits) <= U32_MAX
  }

  function Lower(c: char): char {
    if 'A' <= c <= 'Z' then ((c as int) + 32) as char else c
  }

  /** `sub` occurs in `s` when ASCII letters of `s` are taken in lower case. */
  predicate LowerContains(s: string, sub: string) {
    exists o: nat | o + |sub| <= |s| :: LowerOccursAt(s, sub, o)
  }

  predicate LowerOccursAt(s: string, sub: string, o: nat) {
    o + |sub| <= |s| && forall i | 0 <= i < |sub| :: Lower(s[o + i]) == sub[i]
  }

  // ---- Lines put together from words ------------------------------------------------

  function Pad(n: nat): (s: string)
    ensures |s| == n && forall i | 0 <= i < n :: s[i] == ' '
  {
    seq(n, _ => ' ')
  }

  function Spaced(words: seq<string>): string {
    if words == [] then ""
    else if |words| == 1 then words[0]
    else words[0] + " " + Spaced(words[1..])
  }

  predicate AllWords(words: seq<string>) {
    forall i | 0 <= i < |words| :: IsWord(words[i])
  }

  lemma {:induction false} WordEnds(w: string, rest: string)
    requires (forall i | 0 <= i < |w| :: !IsSpace(w[i])) && (rest == "" || IsSpace(rest[0]))
    ensures WordLength(w + rest) == |w|
  {
    if w == "" {
      assert w + rest == rest;
    } else {
      assert (w + rest)[1..] == w[1..] + rest;
      WordEnds(w[1..], rest);
    }
  }

  lemma {:induction false} TokensOfSpaced(words: seq<string>)
    requires AllWords(words)
    ensures Tokens(Spaced(words)) == words
  {
    if |words| == 1 {
      WordEnds(words[0], "");
      assert words[0] + "" == words[0] && words[0][|words[0]|..] == "";
    } else if |words| > 1 {
      var w, rest := words[0], Spaced(words[1..]);
      var s := w + (" " + rest);
      assert Spaced(words) == s;
      WordEnds(w, " " + rest);
      assert s[..|w|] == w && s[|w|..] == " " + rest && (" " + rest)[1..] == rest;
      TokensOfSpaced(words[1..]);
    }
  }

  lemma {:induction false} SpacedEnds(words: seq<string>)
    requires words != [] && AllWords(words)
    ensures var s := Spaced(words); s != "" && !IsSpace(s[0]) && !IsSpace(s[|s| - 1])
    ensures Spaced(words)[0] == words[0][0]
  {
    if |words| > 1 { SpacedEnds(words[1..]); }
  }

  lemma {:induction false} TrimPadded(n: nat, s: string)
    requires s != "" && !IsSpace(s[0]) && !IsSpace(s[|s| - 1])
    ensures Trim(Pad(n) + s) == s
  {
    if n == 0 {
      assert Pad(0) + s == s;
    } else {
      assert (Pad(n) + s)[1..] == Pad(n - 1) + s;
      TrimPadded(n - 1, s);
    }
  }

  // ---- What the tests for numbers and suites mean --------------------------------------------

  /** The same text but for the case of ASCII letters, of which `sub` has only small ones. */
  predicate SameButForCase(mid: string, sub: string) {
    && |mid| == |sub|
    && forall i | 0 <= i < |sub| ::
         mid[i] == sub[i] || ('a' <= sub[i] <= 'z' && mid[i] as int == sub[i] as int - 32)
  }

  predicate FoundBetween(s: string, sub: string, a: string, mid: string, b: string) {
    s == a + mid + b && SameButForCase(mid, sub)
  }

  predicate NoCapitals(sub: string) {
    forall i | 0 <= i < |sub| :: !('A' <= sub[i] <= 'Z')
  }

  lemma OccursBetween(sub: string, a: string, mid: string, b: string)
    requires NoCapitals(sub) && |mid| == |sub|
    ensures LowerOccursAt(a + mid + b, sub, |a|) <==> SameButForCase(mid, sub)
  {
    var s := a + mid + b;
    forall i | 0 <= i < |sub| ensures s[|a| + i] == mid[i] {}
    forall i | 0 <= i < |sub|
      ensures Lower(mid[i]) == sub[i] <==> mid[i] == sub[i] || ('a' <= sub[i] <= 'z' && mid[i] as int == sub[i] as int - 32)
    {
      LowerIs(mid[i], sub[i]);
    }
    hide Lower;
  }

  lemma LowerIs(c: char, d: char)
    requires !('A' <= d <= 'Z')
    ensures Lower(c) == d <==> c == d || ('a' <= d <= 'z' && c as int == d as int - 32)
  {
  }

  /** A text without capitals is found exactly where it stands in letters of any case. */
  lemma LowerContainsMeans(s: string, sub: string)
    requires NoCapitals(sub)
    ensures LowerContains(s, sub) <==> exists a, mid, b :: FoundBetween(s, sub, a, mid, b)
  {
    hide LowerOccursAt, SameButForCase;
    if o: nat :| o + |sub| <= |s| && LowerOccursAt(s, sub, o) {
      var a, mid, b := s[..o], s[o..o + |sub|], s[o + |sub|..];
      assert s == a + mid + b;
      OccursBetween(sub, a, mid, b);
      assert FoundBetween(s, sub, a, mid, b);
    }
    if a, mid, b :| FoundBetween(s, sub, a, mid, b) {
      SameLength(mid, sub);
      OccursBetween(sub, a, mid, b);
    }
  }

  lemma SameLength(mid: string, sub: string)
    requires SameButForCase(mid, sub)
    ensures |mid| == |sub|
  {
  }

  function Zeros(n: nat): (s: string)
    ensures |s| == n && forall i | 0 <= i < n :: s[i] == '0'
  {
    seq(n, _ => '0')
  }

  /** A number in decimal without leading zeros. */
  function DecimalText(n: nat): (s: string)
    ensures s != "" && AllDigits(s)
  {
    (if n < 10 then "" else DecimalText(n / 10)) + [(48 + n % 10) as char]
  }

  lemma DecimalOneMore(front: string, c: char)
    requires AllDigits(front) && IsDigit(c)
    ensures AllDigits(front + [c]) && DecimalValue(front + [c]) == 10 * DecimalValue(front) + (c as int - 48)
  {
    assert (front + [c])[..|front|] == front;
  }

  lemma {:induction false} ZerosAreNothing(n: nat)
    ensures AllDigits(Zeros(n)) && DecimalValue(Zeros(n)) == 0
  {
    if n > 0 {
      ZerosAreNothing(n - 1);
      DecimalOneMore(Zeros(n - 1), '0');
      assert Zeros(n) == Zeros(n - 1) + ['0'];
    }
  }

  lemma {:induction false} SpelledIsRead(zeros: nat, n: nat)
    ensures AllDigits(Zeros(zeros) + DecimalText(n)) && DecimalValue(Zeros(zeros) + DecimalText(n)) == n
  {
    hide DecimalValue;
    var last := (48 + n % 10) as char;
    if n < 10 {
      assert DecimalText(n) == [last];
      ZerosAreNothing(zeros);
      DecimalOneMore(Zeros(zeros), last);
    } else {
      var front := Zeros(zeros) + DecimalText(n / 10);
      SpelledIsRead(zeros, n / 10);
      DecimalOneMore(front, last);
      assert Zeros(zeros) + DecimalText(n) == front + [last];
    }
  }

  lemma {:induction false} ReadIsSpelled(s: string) returns (zeros: nat)
    requires s != "" && AllDigits(s)
    ensures s == Zeros(zeros) + DecimalText(DecimalValue(s))
  {
    hide DecimalValue;
    var front, c := s[..|s| - 1], s[|s| - 1];
    assert s == front + [c];
    DecimalOneMore(front, c);
    if front == "" {
      zeros := 0;
      assert DecimalValue("") == 0 by { ZerosAreNothing(0); assert Zeros(0) == ""; }
    } else {
      zeros := ReadIsSpelled(front);
      if DecimalValue(front) == 0 {
        assert DecimalText(0) == Zeros(1) && Zeros(zeros) + Zeros(1) == Zeros(zeros + 1);
        zeros := zeros + 1;
      } else {
        assert DecimalText(DecimalValue(s)) == DecimalText(DecimalValue(front)) + [c];
      }
    }
  }

  /** The same with a plus sign or leading zeros. */
  function Spelled(n: nat, plus: bool, zeros: nat): string {
    (if plus then "+" else "") + (Zeros(zeros) + DecimalText(n))
  }

  /** `parse::<u32>()` takes exactly the spellings of the numbers below 2^32. */
  lemma ParsesExactlySpellings(s: string)
    ensures ParsesAsU32(s) <==> exists n, plus, zeros :: n < 0x1_0000_0000 && s == Spelled(n, plus, zeros)
  {
    hide DecimalValue;
    if ParsesAsU32(s) {
      var plus := |s| > 1 && s[0] == '+';
      var digits := if plus then s[1..] else s;
      var zeros := ReadIsSpelled(digits);
      assert s == Spelled(DecimalValue(digits), plus, zeros);
    }
    forall n: nat, plus, zeros | n < 0x1_0000_0000 && s == Spelled(n, plus, zeros) ensures ParsesAsU32(s) {
      var number := Zeros(zeros) + DecimalText(n);
      SpelledIsRead(zeros, n);
      assert IsDigit(number[0]);
      if plus { assert s[1..] == number; } else { assert s == number; }
    }
  }

  // ---- What trimming means -----------------------------------------------------------------------

  predicate AllSpaces(s: string) {
    forall i | 0 <= i < |s| :: IsSpace(s[i])
  }

  lemma {:induction false} LeadingIsTrimmed(a: string, s: string)
    requires AllSpaces(a)
    ensures TrimStart(a + s) == TrimStart(s)
  {
    hide IsSpace;
    if a == "" {
      assert a + s == s;
    } else {
      assert (a + s)[0] == a[0] && (a + s)[1..] == a[1..] + s;
      LeadingIsTrimmed(a[1..], s);
    }
  }

  lemma {:induction false} TrailingIsTrimmed(s: string, b: string)
    requires AllSpaces(b)
    ensures TrimEnd(s + b) == TrimEnd(s)
  {
    hide IsSpace;
    if b == "" {
      assert s + b == s;
    } else {
      var front := b[..|b| - 1];
      assert (s + b)[|s + b| - 1] == b[|b| - 1] && (s + b)[..|s + b| - 1] == s + front;
      TrailingIsTrimmed(s, front);
    }
  }

  /** Trimming takes off the white space on both sides, and nothing else. */
  lemma SpacesAreTrimmed(a: string, s: string, b: string)
    requires AllSpaces(a) && AllSpaces(b) && s != "" && !IsSpace(s[0]) && !IsSpace(s[|s| - 1])
    ensures Trim(a + s + b) == s
  {
    hide IsSpace;
    LeadingIsTrimmed(a, s + b);
    assert a + s + b == a + (s + b) && (s + b)[0] == s[0];
    TrailingIsTrimmed(s, b);
  }
}
