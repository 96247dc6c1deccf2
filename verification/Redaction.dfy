/** The log redactor: repeated replacement of known secret values by a mask.

    Lines and values are the bytes of their UTF-8 text: muninn measures and
    compares its strings in bytes. */
module Redaction {
  import opened Bytes

  const STAR: Byte := 0x2A
  const MASK: Text := [STAR, STAR, STAR]
  const MIN_SECRET_LEN: nat := 8

  // ---- Building the list of values --------------------------------------------

  predicate LongestFirst(values: seq<Text>) {
    forall i, j | 0 <= i < j < |values| :: |values[i]| >= |values[j]|
  }

  /** The secrets long enough to be redacted, in the order given. */
  function LongEnough(secrets: seq<Text>): (r: seq<Text>)
    ensures forall v :: v in r <==> v in secrets && |v| >= MIN_SECRET_LEN
  {
    if secrets == [] then []
    else (if |secrets[0]| >= MIN_SECRET_LEN then [secrets[0]] else []) + LongEnough(secrets[1..])
  }

  /** Insert in front of every value no longer: what came first stays first. */
  function Insert(v: Text, values: seq<Text>): seq<Text> {
    if values == [] || |values[0]| <= |v| then [v] + values
    else [values[0]] + Insert(v, values[1..])
  }

  /** A stable sort by descending length. */
  function Sorted(values: seq<Text>): seq<Text> {
    if values == [] then [] else Insert(values[0], Sorted(values[1..]))
  }

  /** Drop every value equal to the one next to it. */
  function Dedup(values: seq<Text>): seq<Text> {
    if |values| <= 1 then values
    else if values[0] == values[1] then Dedup(values[1..])
    else [values[0]] + Dedup(values[1..])
  }

  predicate NoLongerThan(values: seq<Text>, n: nat) {
    forall v | v in values :: |v| <= n
  }

  lemma LongestFirstByHead(values: seq<Text>)
    requires values != []
    ensures LongestFirst(values) <==> LongestFirst(values[1..]) && NoLongerThan(values[1..], |values[0]|)
  {
    if LongestFirst(values[1..]) && NoLongerThan(values[1..], |values[0]|) {
      forall i, j | 0 <= i < j < |values| ensures |values[i]| >= |values[j]| {
        assert values[j] == values[1..][j - 1] && values[j] in values[1..];
        if i > 0 { assert values[i] == values[1..][i - 1]; }
      }
    }
  }

  lemma {:induction false} InsertKeeps(v: Text, values: seq<Text>)
    requires LongestFirst(values)
    ensures LongestFirst(Insert(v, values))
    ensures forall x :: x in Insert(v, values) <==> x == v || x in values
  {
    var r := Insert(v, values);
    if values == [] || |values[0]| <= |v| {
      assert r[1..] == values;
      if values != [] { LongestFirstByHead(values); }
      LongestFirstByHead(r);
    } else {
      LongestFirstByHead(values);
      InsertKeeps(v, values[1..]);
      assert r[1..] == Insert(v, values[1..]);
      LongestFirstByHead(r);
      assert values == [values[0]] + values[1..];
    }
  }

  lemma {:induction false} SortedKeeps(values: seq<Text>)
    ensures LongestFirst(Sorted(values))
    ensures forall v :: v in Sorted(values) <==> v in values
  {
    if values != [] {
      SortedKeeps(values[1..]);
      InsertKeeps(values[0], Sorted(values[1..]));
      assert values == [values[0]] + values[1..];
    }
  }

  lemma {:induction false} DedupKeeps(values: seq<Text>)
    ensures forall v :: v in Dedup(values) <==> v in values
    ensures LongestFirst(values) ==> LongestFirst(Dedup(values))
    ensures forall i | 0 <= i < |Dedup(values)| - 1 :: Dedup(values)[i] != Dedup(values)[i + 1]
    ensures values != [] ==> Dedup(values) != [] && Dedup(values)[0] == values[0]
  {
    if |values| > 1 {
      DedupKeeps(values[1..]);
      LongestFirstByHead(values);
      assert values == [values[0]] + values[1..];
      var r := Dedup(values);
      if values[0] != values[1] {
        assert r[1..] == Dedup(values[1..]);
        LongestFirstByHead(r);
      }
    }
  }

  // ---- One replacement ----------------------------------------------------------

  /** `str::replace`: occurrences are taken from the left and never overlap. */
  function Replace(s: Text, v: Text): Text
    requires v != []
  {
    if OccursAt(s, v, 0) then MASK + Replace(s[|v|..], v)
    else if s == [] then []
    else [s[0]] + Replace(s[1..], v)
  }

  /** A value the mask cannot help to form: it neither begins nor ends with a
      mask character and does not contain the mask. */
  predicate Safe(v: Text) {
    |v| > 0 && v[0] != 0x2A && v[|v| - 1] != 0x2A && !Contains(v, [0x2A, 0x2A, 0x2A])
  }

  // ---- Intervals -----------------------------------------------------------------

  /** A stretch of the original line the mask now stands for. */
  datatype Cut = Cut(lo: nat, hi: nat)

  /** Disjoint, in order, and within `[from, end]`. */
  ghost predicate Ordered(cuts: seq<Cut>, from: nat, end: nat) {
    if cuts == [] then from <= end
    else from <= cuts[0].lo < cuts[0].hi && Ordered(cuts[1..], cuts[0].hi, end)
  }

  /** The line from `from` on with every cut replaced by the mask. */
  function Render(line: Text, cuts: seq<Cut>, from: nat): Text
    requires Ordered(cuts, from, |line|)
  {
    if cuts == [] then line[from..]
    else
      OrderedBounds(cuts, from, |line|);
      line[from..cuts[0].lo] + MASK + Render(line, cuts[1..], cuts[0].hi)
  }

  lemma {:induction false} OrderedBounds(cuts: seq<Cut>, from: nat, end: nat)
    requires Ordered(cuts, from, end)
    ensures from <= end
    ensures forall c | c in cuts :: from <= c.lo < c.hi <= end
  {
    if cuts != [] {
      OrderedBounds(cuts[1..], cuts[0].hi, end);
    }
  }

  lemma {:induction false} OrderedConcat(a: seq<Cut>, from: nat, mid: nat, b: seq<Cut>, end: nat)
    requires Ordered(a, from, mid) && Ordered(b, mid, end)
    ensures Ordered(a + b, from, end)
  {
    if a == [] {
      assert a + b == b;
      if b != [] { assert from <= b[0].lo; }
    } else {
      OrderedConcat(a[1..], a[0].hi, mid, b, end);
      assert (a + b)[1..] == a[1..] + b;
    }
  }

  ghost predicate Meets(c: Cut, lo: int, hi: int) {
    c.lo < hi && lo < c.hi
  }

  ghost predicate MeetsSome(cuts: seq<Cut>, lo: int, hi: int) {
    exists c | c in cuts :: Meets(c, lo, hi)
  }

  /** The occurrences of `v` the replacement takes from `lo` to the end. */
  function Scan(line: Text, lo: nat, v: Text): (cuts: seq<Cut>)
    requires v != [] && lo <= |line|
    ensures Ordered(cuts, lo, |line|)
    decreases |line| - lo
  {
    if OccursAt(line, v, lo) then
      [Cut(lo, lo + |v|)] + Scan(line, lo + |v|, v)
    else if lo == |line| then []
    else
      var cuts := Scan(line, lo + 1, v);
      assert cuts == [] || lo <= cuts[0].lo;
      cuts
  }

  /** The cuts after `v` has been replaced in every gap. */
  function Refine(line: Text, cuts: seq<Cut>, from: nat, v: Text): (r: seq<Cut>)
    requires v != [] && Ordered(cuts, from, |line|)
    ensures Ordered(r, from, |line|)
    decreases |cuts|
  {
    if cuts == [] then Scan(line, from, v)
    else
      OrderedBounds(cuts, from, |line|);
      var gap := Scan(line[..cuts[0].lo], from, v);
      var rest := Refine(line, cuts[1..], cuts[0].hi, v);
      assert Ordered([cuts[0]] + rest, cuts[0].lo, |line|) by { assert ([cuts[0]] + rest)[1..] == rest; }
      OrderedConcat(gap, from, cuts[0].lo, [cuts[0]] + rest, |line|);
      assert gap + ([cuts[0]] + rest) == gap + [cuts[0]] + rest;
      gap + [cuts[0]] + rest
  }

  lemma {:induction false} ScanFinds(line: Text, lo: nat, v: Text, c: Cut)
    requires v != [] && lo <= |line| && c in Scan(line, lo, v)
    ensures c.hi == c.lo + |v| && OccursAt(line, v, c.lo)
    decreases |line| - lo
  {
    if OccursAt(line, v, lo) {
      if c != Cut(lo, lo + |v|) { ScanFinds(line, lo + |v|, v, c); }
    } else {
      ScanFinds(line, lo + 1, v, c);
    }
  }

  /** Refining only adds occurrences of the value. */
  lemma {:induction false} RefineFinds(line: Text, cuts: seq<Cut>, from: nat, v: Text, c: Cut)
    requires v != [] && Ordered(cuts, from, |line|)
    ensures c in cuts ==> c in Refine(line, cuts, from, v)
    ensures c in Refine(line, cuts, from, v) ==> c in cuts || (c.hi == c.lo + |v| && OccursAt(line, v, c.lo))
    decreases |cuts|
  {
    OrderedBounds(cuts, from, |line|);
    if cuts == [] {
      if c in Scan(line, from, v) { ScanFinds(line, from, v, c); }
    } else {
      var gap := line[..cuts[0].lo];
      RefineFinds(line, cuts[1..], cuts[0].hi, v, c);
      if c in Scan(gap, from, v) {
        ScanFinds(gap, from, v, c);
        StillOccurs(gap, line[cuts[0].lo..], v, c.lo);
        assert gap + line[cuts[0].lo..] == line;
      }
      assert cuts == [cuts[0]] + cuts[1..];
    }
  }

  // ---- Replacement is refinement --------------------------------------------------

  /** A value that runs from a text into the mask behind it ends in the mask or contains it. */
  lemma RunsIntoMask(a: Text, b: Text, v: Text, o: nat)
    requires o < |a| && OccursAt(a + MASK + b, v, o)
    ensures o + |v| <= |a| || v[|v| - 1] == STAR || Contains(v, MASK)
  {
    var s := a + MASK + b;
    if o + |v| > |a| + 3 {
      var k := |a| - o;
      assert s[o + k] == v[k] && s[o + (k + 1)] == v[k + 1] && s[o + (k + 2)] == v[k + 2];
      assert OccursAt(v, MASK, k);
    } else if o + |v| > |a| {
      assert s[o + (|v| - 1)] == v[|v| - 1];
    }
  }

  /** An occurrence of a safe value never touches a mask that stands in the text. */
  lemma SafeFits(a: Text, b: Text, v: Text, o: nat)
    requires Safe(v) && o < |a| && OccursAt(a + MASK + b, v, o)
    ensures OccursAt(a, v, o)
  {
    RunsIntoMask(a, b, v, o);
    forall i | 0 <= i < |v| ensures a[o + i] == v[i] { assert (a + MASK + b)[o + i] == v[i]; }
  }

  lemma StillOccurs(a: Text, b: Text, v: Text, o: nat)
    ensures OccursAt(a, v, o) ==> OccursAt(a + b, v, o)
  {
    if OccursAt(a, v, o) {
      forall i | 0 <= i < |v| ensures (a + b)[o + i] == v[i] { assert a[o + i] == v[i]; }
    }
  }

  /** So a replacement works on each side of a mask separately. */
  lemma {:induction false} ReplaceAroundMask(a: Text, b: Text, v: Text)
    requires Safe(v)
    ensures Replace(a + MASK + b, v) == Replace(a, v) + MASK + Replace(b, v)
    decreases |a|
  {
    if a == [] {
      ReplaceMaskFirst(b, v);
      assert a + MASK + b == MASK + b && Replace(a, v) + MASK == MASK;
    } else if OccursAt(a + MASK + b, v, 0) {
      SafeFits(a, b, v, 0);
      ReplaceAroundMask(a[|v|..], b, v);
      TakeAroundMask(a, b, v);
    } else {
      ReplaceAroundMask(a[1..], b, v);
      SkipAroundMask(a, b, v);
    }
  }

  lemma ReplaceMaskFirst(b: Text, v: Text)
    requires Safe(v)
    ensures Replace(MASK + b, v) == MASK + Replace(b, v)
  {
    CopiesStar([STAR] + ([STAR] + b), v);
    CopiesStar([STAR] + b, v);
    CopiesStar(b, v);
    assert MASK + b == [STAR] + ([STAR] + ([STAR] + b));
  }

  lemma CopiesStar(b: Text, v: Text)
    requires v != [] && v[0] != STAR
    ensures Replace([STAR] + b, v) == [STAR] + Replace(b, v)
  {
    var s := [STAR] + b;
    assert v[0] != s[0 + 0];
    assert s[1..] == b;
  }

  lemma TakeAroundMask(a: Text, b: Text, v: Text)
    requires Safe(v) && OccursAt(a, v, 0) && OccursAt(a + MASK + b, v, 0)
    requires Replace(a[|v|..] + MASK + b, v) == Replace(a[|v|..], v) + MASK + Replace(b, v)
    ensures Replace(a + MASK + b, v) == Replace(a, v) + MASK + Replace(b, v)
  {
    var s := a + MASK + b;
    assert s[|v|..] == a[|v|..] + MASK + b;
    Regroup3(MASK, Replace(a[|v|..], v), MASK, Replace(b, v));
  }

  lemma SkipAroundMask(a: Text, b: Text, v: Text)
    requires Safe(v) && a != [] && !OccursAt(a + MASK + b, v, 0)
    requires Replace(a[1..] + MASK + b, v) == Replace(a[1..], v) + MASK + Replace(b, v)
    ensures Replace(a + MASK + b, v) == Replace(a, v) + MASK + Replace(b, v)
  {
    var s := a + MASK + b;
    assert s[1..] == a[1..] + MASK + b && s[0] == a[0];
    assert a + (MASK + b) == s;
    StillOccurs(a, MASK + b, v, 0);
    Regroup3([a[0]], Replace(a[1..], v), MASK, Replace(b, v));
  }

  lemma Regroup3(x: Text, y: Text, m: Text, z: Text)
    ensures x + (y + m + z) == x + y + m + z
  {
  }

  lemma {:induction false} ReplaceIsScan(line: Text, lo: nat, v: Text)
    requires v != [] && lo <= |line|
    ensures Replace(line[lo..], v) == Render(line, Scan(line, lo, v), lo)
    decreases |line| - lo
  {
    if OccursAt(line, v, lo) {
      ReplaceIsScan(line, lo + |v|, v);
      TakeHere(line, lo, v, Scan(line, lo + |v|, v));
    } else if lo < |line| {
      ReplaceIsScan(line, lo + 1, v);
      SkipHere(line, lo, v, Scan(line, lo + 1, v));
    }
  }

  lemma TakeHere(line: Text, lo: nat, v: Text, rest: seq<Cut>)
    requires v != [] && OccursAt(line, v, lo) && Ordered(rest, lo + |v|, |line|)
    requires Replace(line[lo + |v|..], v) == Render(line, rest, lo + |v|)
    ensures Ordered([Cut(lo, lo + |v|)] + rest, lo, |line|)
    ensures Replace(line[lo..], v) == Render(line, [Cut(lo, lo + |v|)] + rest, lo)
  {
    OccursInSuffix(line, lo, v, 0);
    Unslice(line, lo, |v|);
    RenderAtOnce(line, lo, lo + |v|, rest);
  }

  lemma SkipHere(line: Text, lo: nat, v: Text, rest: seq<Cut>)
    requires v != [] && lo < |line| && !OccursAt(line, v, lo) && Ordered(rest, lo + 1, |line|)
    requires Replace(line[lo + 1..], v) == Render(line, rest, lo + 1)
    ensures Ordered(rest, lo, |line|)
    ensures Replace(line[lo..], v) == Render(line, rest, lo)
  {
    OccursInSuffix(line, lo, v, 0);
    Unslice(line, lo, 1);
    RenderEarlier(line, rest, lo);
  }

  lemma Unslice(s: Text, lo: nat, n: nat)
    requires lo + n <= |s|
    ensures s[lo..][n..] == s[lo + n..]
  {
  }

  lemma OccursInSuffix(s: Text, lo: nat, v: Text, o: nat)
    requires lo <= |s|
    ensures OccursAt(s[lo..], v, o) <==> OccursAt(s, v, lo + o)
  {
    if OccursAt(s, v, lo + o) {
      forall i | 0 <= i < |v| ensures s[lo..][o + i] == v[i] { assert s[lo + o + i] == v[i]; }
    }
  }

  lemma RenderAtOnce(line: Text, lo: nat, hi: nat, rest: seq<Cut>)
    requires lo < hi <= |line| && Ordered(rest, hi, |line|)
    ensures Ordered([Cut(lo, hi)] + rest, lo, |line|)
    ensures Render(line, [Cut(lo, hi)] + rest, lo) == MASK + Render(line, rest, hi)
  {
    RenderHead(line, Cut(lo, hi), rest, lo);
    assert line[lo..lo] == [];
    assert [] + MASK == MASK;
  }

  /** Moving the bracket of a concatenation. */
  lemma Regroup(x: Text, m: Text, y: Text, z: Text)
    ensures x + m + (y + m + z) == x + m + y + m + z
  {
  }

  lemma RenderHead(line: Text, c: Cut, rest: seq<Cut>, from: nat)
    requires from <= c.lo < c.hi && Ordered(rest, c.hi, |line|)
    ensures c.hi <= |line| && Ordered([c] + rest, from, |line|)
    ensures Render(line, [c] + rest, from) == line[from..c.lo] + MASK + Render(line, rest, c.hi)
  {
    OrderedBounds(rest, c.hi, |line|);
    assert ([c] + rest)[1..] == rest;
  }

  /** Starting one byte earlier renders one byte more. */
  lemma RenderEarlier(line: Text, cuts: seq<Cut>, lo: nat)
    requires Ordered(cuts, lo + 1, |line|)
    ensures Ordered(cuts, lo, |line|)
    ensures lo < |line| && Render(line, cuts, lo) == [line[lo]] + Render(line, cuts, lo + 1)
  {
    OrderedBounds(cuts, lo + 1, |line|);
    if cuts == [] {
      assert line[lo..] == [line[lo]] + line[lo + 1..];
    } else {
      assert line[lo..cuts[0].lo] == [line[lo]] + line[lo + 1..cuts[0].lo];
      Regroup3([line[lo]], line[lo + 1..cuts[0].lo], MASK, Render(line, cuts[1..], cuts[0].hi));
    }
  }

  lemma Subslice(s: Text, lo: nat, hi: nat, end: nat)
    requires lo <= hi <= end <= |s|
    ensures s[..end][lo..hi] == s[lo..hi]
  {
  }

  /** The cuts of a gap and the cuts behind it render one after the other. */
  lemma {:induction false} RenderConcat(line: Text, a: seq<Cut>, from: nat, c: Cut, b: seq<Cut>)
    requires Ordered(a, from, c.lo) && c.lo < c.hi && Ordered(b, c.hi, |line|)
    ensures c.lo <= |line| && Ordered(a + [c] + b, from, |line|)
    ensures Render(line, a + [c] + b, from) == Render(line[..c.lo], a, from) + MASK + Render(line, b, c.hi)
  {
    OrderedBounds(b, c.hi, |line|);
    OrderedBounds(a, from, c.lo);
    if a == [] {
      assert a + [c] + b == [c] + b;
      RenderHead(line, c, b, from);
      assert line[..c.lo][from..] == line[from..c.lo];
    } else {
      RenderConcat(line, a[1..], a[0].hi, c, b);
      RenderHead(line, a[0], a[1..] + [c] + b, from);
      assert a + [c] + b == [a[0]] + (a[1..] + [c] + b);
      Subslice(line, from, a[0].lo, c.lo);
      Regroup(line[from..a[0].lo], MASK, Render(line[..c.lo], a[1..], a[0].hi), Render(line, b, c.hi));
    }
  }

  /** Replacing a safe value in a redacted line is cutting its occurrences out of
      the gaps that are left. */
  lemma {:induction false} ReplaceIsRefine(line: Text, cuts: seq<Cut>, from: nat, v: Text)
    requires Safe(v) && Ordered(cuts, from, |line|)
    ensures Replace(Render(line, cuts, from), v) == Render(line, Refine(line, cuts, from, v), from)
    decreases |cuts|
  {
    OrderedBounds(cuts, from, |line|);
    if cuts == [] {
      ReplaceIsScan(line, from, v);
    } else {
      var c := cuts[0];
      var rest := Refine(line, cuts[1..], c.hi, v);
      ReplaceAroundMask(line[from..c.lo], Render(line, cuts[1..], c.hi), v);
      ReplaceIsScan(line[..c.lo], from, v);
      assert line[..c.lo][from..] == line[from..c.lo];
      ReplaceIsRefine(line, cuts[1..], c.hi, v);
      RenderConcat(line, Scan(line[..c.lo], from, v), from, c, rest);
    }
  }

  // ---- Every occurrence meets a cut ------------------------------------------------

  lemma {:induction false} ScanMeets(line: Text, lo: nat, v: Text, o: nat) returns (c: Cut)
    requires v != [] && lo <= o && OccursAt(line, v, o)
    ensures c in Scan(line, lo, v) && Meets(c, o, o + |v|)
    decreases |line| - lo
  {
    if OccursAt(line, v, lo) {
      c := Cut(lo, lo + |v|);
      if o >= lo + |v| {
        c := ScanMeets(line, lo + |v|, v, o);
      }
    } else {
      c := ScanMeets(line, lo + 1, v, o);
    }
    ScanStep(line, lo, v, c);
  }

  lemma ScanStep(line: Text, lo: nat, v: Text, c: Cut)
    requires v != [] && lo < |line|
    ensures OccursAt(line, v, lo) && c == Cut(lo, lo + |v|) ==> c in Scan(line, lo, v)
    ensures OccursAt(line, v, lo) && c in Scan(line, lo + |v|, v) ==> c in Scan(line, lo, v)
    ensures !OccursAt(line, v, lo) && c in Scan(line, lo + 1, v) ==> c in Scan(line, lo, v)
  {
  }

  /** After `v` has been replaced, each of its occurrences in the original line
      meets a cut. */
  lemma {:induction false} RefineMeets(line: Text, cuts: seq<Cut>, from: nat, v: Text, o: nat) returns (c: Cut)
    requires v != [] && Ordered(cuts, from, |line|)
    requires from <= o && OccursAt(line, v, o)
    ensures c in Refine(line, cuts, from, v) && Meets(c, o, o + |v|)
    decreases |cuts|
  {
    OrderedBounds(cuts, from, |line|);
    if cuts == [] {
      c := ScanMeets(line, from, v, o);
    } else {
      c := cuts[0];
      if o + |v| <= c.lo {
        c := ScanMeets(line[..c.lo], from, v, o);
      } else if o >= c.hi {
        c := RefineMeets(line, cuts[1..], c.hi, v, o);
      }
    }
  }

  // ---- The whole list ----------------------------------------------------------------

  predicate NonEmpty(values: seq<Text>) {
    forall i | 0 <= i < |values| :: |values[i]| > 0
  }

  /** Every value replaced in turn. */
  function ReplaceAll(values: seq<Text>, line: Text): Text
    requires NonEmpty(values)
  {
    if values == [] then line
    else Replace(ReplaceAll(values[..|values| - 1], line), values[|values| - 1])
  }

  /** The cuts the values make, in the order they are processed. */
  function Cuts(values: seq<Text>, line: Text): (cuts: seq<Cut>)
    requires NonEmpty(values)
    ensures Ordered(cuts, 0, |line|)
  {
    if values == [] then []
    else Refine(line, Cuts(values[..|values| - 1], line), 0, values[|values| - 1])
  }

  ghost predicate SafeValues(values: seq<Text>) {
    forall i | 0 <= i < |values| :: Safe(values[i])
  }

  /** Redacting is cutting intervals out of the original line. */
  lemma {:induction false} RedactionCuts(values: seq<Text>, line: Text)
    requires SafeValues(values)
    ensures ReplaceAll(values, line) == Render(line, Cuts(values, line), 0)
  {
    if values != [] {
      var front := values[..|values| - 1];
      assert values == front + [values[|values| - 1]];
      RedactionCuts(front, line);
      ReplaceIsRefine(line, Cuts(front, line), 0, values[|values| - 1]);
    }
  }

  /** Each interval is an occurrence of a known value in the original line. */
  lemma {:induction false} CutsAreOccurrences(values: seq<Text>, line: Text, c: Cut)
    requires NonEmpty(values) && c in Cuts(values, line)
    ensures exists v | v in values :: c.hi == c.lo + |v| && OccursAt(line, v, c.lo)
  {
    var front, last := values[..|values| - 1], values[|values| - 1];
    assert values == front + [last];
    RefineFinds(line, Cuts(front, line), 0, last, c);
    if c in Cuts(front, line) {
      CutsAreOccurrences(front, line, c);
    } else {
      assert last in values;
    }
  }

  /** Each occurrence of each value in the original line meets an interval, and
      with the longest values first one at least as long as itself: no shorter
      value is masked inside it leaving the rest behind. */
  lemma {:induction false} OccurrencesAreCut(values: seq<Text>, line: Text, v: Text, o: nat)
    requires NonEmpty(values) && LongestFirst(values)
    requires v in values && OccursAt(line, v, o)
    ensures exists c | c in Cuts(values, line) :: Meets(c, o, o + |v|) && c.hi - c.lo >= |v|
  {
    var front, last := values[..|values| - 1], values[|values| - 1];
    assert values == front + [last];
    var before := Cuts(front, line);
    if v in front {
      OccurrencesAreCut(front, line, v, o);
      var c :| c in before && Meets(c, o, o + |v|) && c.hi - c.lo >= |v|;
      RefineFinds(line, before, 0, last, c);
    } else {
      var c := RefineMeets(line, before, 0, v, o);
      RefineFinds(line, before, 0, v, c);
      if c in before {
        CutsAreOccurrences(front, line, c);
        var u :| u in front && c.hi == c.lo + |u| && OccursAt(line, u, c.lo);
        var i :| 0 <= i < |front| && front[i] == u;
        assert values[i] == u && |values[i]| >= |values[|values| - 1]|;
      }
    }
  }

  // ---- Nothing survives -----------------------------------------------------------------

  /** An occurrence in a redacted line lies in a gap: it was there before, clear
      of every cut. */
  lemma {:induction false} SurvivorWasThere(line: Text, cuts: seq<Cut>, from: nat, v: Text, o: nat) returns (q: nat)
    requires Safe(v) && Ordered(cuts, from, |line|) && OccursAt(Render(line, cuts, from), v, o)
    ensures from <= q && OccursAt(line, v, q) && !MeetsSome(cuts, q, q + |v|)
    decreases |cuts|
  {
    OrderedBounds(cuts, from, |line|);
    if cuts == [] {
      q := from + o;
      OccursInSuffix(line, from, v, o);
    } else {
      var c, gap := cuts[0], line[from..cuts[0].lo];
      var rest := Render(line, cuts[1..], c.hi);
      var s := Render(line, cuts, from);
      assert s == gap + MASK + rest;
      OrderedBounds(cuts[1..], c.hi, |line|);
      assert cuts == [c] + cuts[1..];
      if o < |gap| {
        SafeFits(gap, rest, v, o);
        q := from + o;
        GapIsLine(line, from, c.lo, v, o);
      } else {
        BeyondMask(gap, rest, v, o);
        q := SurvivorWasThere(line, cuts[1..], c.hi, v, o - |gap| - 3);
      }
    }
  }

  lemma GapIsLine(line: Text, from: nat, to: nat, v: Text, o: nat)
    requires from <= to <= |line| && OccursAt(line[from..to], v, o)
    ensures OccursAt(line, v, from + o) && from + o + |v| <= to
  {
    forall i | 0 <= i < |v| ensures line[from + o + i] == v[i] { assert line[from..to][o + i] == v[i]; }
  }

  lemma BeyondMask(gap: Text, rest: Text, v: Text, o: nat)
    requires Safe(v) && o >= |gap| && OccursAt(gap + MASK + rest, v, o)
    ensures o >= |gap| + 3 && OccursAt(rest, v, o - |gap| - 3)
  {
    var s := gap + MASK + rest;
    assert v[0] == s[o + 0];
    var p := o - |gap| - 3;
    if p >= 0 {
      forall i | 0 <= i < |v| ensures rest[p + i] == v[i] { assert s[o + i] == v[i]; }
    }
  }

  /** Replacing a safe value removes it. */
  lemma RemovedOnce(line: Text, v: Text)
    requires Safe(v)
    ensures !Contains(Replace(line, v), v)
  {
    ReplaceOne(v, line);
    RedactionCuts([v], line);
    if Contains(Replace(line, v), v) {
      var o: nat :| o + |v| <= |Replace(line, v)| && OccursAt(Replace(line, v), v, o);
      var q := SurvivorWasThere(line, Cuts([v], line), 0, v, o);
      OccurrencesAreCut([v], line, v, q);
    }
  }

  /** What a rewritten text begins with was there before, if the mask has no part in it. */
  lemma {:induction false} PrefixWasThere(s: Text, u: Text, w: Text)
    requires u != [] && OccursAt(Replace(s, u), w, 0)
    requires !Contains(w, MASK) && (w == [] || w[|w| - 1] != STAR)
    ensures OccursAt(s, w, 0)
    decreases |s|
  {
    if w != [] {
      var r := Replace(s, u);
      if OccursAt(s, u, 0) {
        MaskBegins(w, Replace(s[|u|..], u));
      } else if s != [] {
        assert r[0 + 0] == w[0] && s[0] == w[0];
        OccursInSuffix(r, 1, w[1..], 0);
        assert r[1..] == Replace(s[1..], u);
        forall i | 0 <= i < |w| - 1 ensures r[1 + i] == w[1..][i] { assert r[0 + (1 + i)] == w[1 + i]; }
        NoMaskInTail(w);
        PrefixWasThere(s[1..], u, w[1..]);
        forall i | 0 <= i < |w| ensures s[0 + i] == w[i] {
          if i > 0 { assert s[1..][0 + (i - 1)] == w[1..][i - 1]; }
        }
      }
    }
  }

  lemma MaskBegins(w: Text, rest: Text)
    requires w != []
    ensures OccursAt(MASK + rest, w, 0) ==> Contains(w, MASK) || w[|w| - 1] == STAR
  {
    var s := MASK + rest;
    if OccursAt(s, w, 0) {
      if |w| >= 3 {
        assert s[0 + 0] == w[0] && s[0 + 1] == w[1] && s[0 + 2] == w[2];
        assert OccursAt(w, MASK, 0);
      } else {
        assert s[0 + (|w| - 1)] == w[|w| - 1];
      }
    }
  }

  lemma NoMaskInTail(w: Text)
    requires w != []
    ensures Contains(w[1..], MASK) ==> Contains(w, MASK)
  {
    if o: nat :| o + |MASK| <= |w[1..]| && OccursAt(w[1..], MASK, o) {
      OccursInSuffix(w, 1, MASK, o);
    }
  }

  /** No replacement of any value brings a safe value about. */
  lemma {:induction false} NothingAppears(s: Text, u: Text, v: Text)
    requires u != [] && Safe(v) && Contains(Replace(s, u), v)
    ensures Contains(s, v)
    decreases |s|
  {
    var r := Replace(s, u);
    var o: nat :| o + |v| <= |r| && OccursAt(r, v, o);
    if o == 0 {
      PrefixWasThere(s, u, v);
    } else if OccursAt(s, u, 0) {
      var rest := s[|u|..];
      assert r == [] + MASK + Replace(rest, u);
      BeyondMask([], Replace(rest, u), v, o);
      NothingAppears(rest, u, v);
      SuffixContains(s, |u|, v);
    } else {
      assert r[1..] == Replace(s[1..], u);
      OccursInSuffix(r, 1, v, o - 1);
      NothingAppears(s[1..], u, v);
      SuffixContains(s, 1, v);
    }
  }

  lemma SuffixContains(s: Text, lo: nat, v: Text)
    requires lo <= |s| && Contains(s[lo..], v)
    ensures Contains(s, v)
  {
    var o: nat :| o + |v| <= |s[lo..]| && OccursAt(s[lo..], v, o);
    OccursInSuffix(s, lo, v, o);
  }

  /** No safe value survives, whatever the other values are, in whatever order they are
      replaced, and however the replacements rewrite the line. */
  lemma {:induction false} NothingSurvives(values: seq<Text>, line: Text, v: Text)
    requires NonEmpty(values) && v in values && Safe(v)
    ensures !Contains(ReplaceAll(values, line), v)
  {
    var front, last := values[..|values| - 1], values[|values| - 1];
    assert values == front + [last];
    var before := ReplaceAll(front, line);
    if last == v {
      RemovedOnce(before, v);
    } else {
      NothingSurvives(front, line, v);
      if Contains(Replace(before, last), v) { NothingAppears(before, last, v); }
    }
  }

  /** A line without any of the values is left alone. */
  lemma {:induction false} ReplaceAbsent(s: Text, v: Text)
    requires v != [] && !Contains(s, v)
    ensures Replace(s, v) == s
  {
    assert !OccursAt(s, v, 0);
    if s != [] {
      if Contains(s[1..], v) {
        var o: nat :| o + |v| <= |s[1..]| && OccursAt(s[1..], v, o);
        OccursInSuffix(s, 1, v, o);
      }
      ReplaceAbsent(s[1..], v);
    }
  }

  lemma {:induction false} ReplaceAllAbsent(values: seq<Text>, line: Text)
    requires NonEmpty(values) && forall i | 0 <= i < |values| :: !Contains(line, values[i])
    ensures ReplaceAll(values, line) == line
  {
    if values != [] {
      ReplaceAllAbsent(values[..|values| - 1], line);
      ReplaceAbsent(line, values[|values| - 1]);
    }
  }

  /** Redacting a redacted line changes nothing. */
  lemma RedactionIsIdempotent(values: seq<Text>, line: Text)
    requires SafeValues(values)
    ensures ReplaceAll(values, ReplaceAll(values, line)) == ReplaceAll(values, line)
  {
    forall i | 0 <= i < |values| ensures !Contains(ReplaceAll(values, line), values[i]) {
      NothingSurvives(values, line, values[i]);
    }
    ReplaceAllAbsent(values, ReplaceAll(values, line));
  }

  // ---- Exactly which values are defended ------------------------------------------------

  /** A list a redactor can hold. */
  predicate Holdable(values: seq<Text>) {
    LongestFirst(values) && forall i | 0 <= i < |values| :: |values[i]| >= MIN_SECRET_LEN
  }

  ghost predicate RemovedByEveryRedactor(v: Text) {
    forall values, line | Holdable(values) && v in values :: !Contains(ReplaceAll(values, line), v)
  }

  /** Whatever else is redacted, and in whatever order. */
  ghost predicate AlwaysRemoved(v: Text) {
    forall values, line | NonEmpty(values) && v in values :: !Contains(ReplaceAll(values, line), v)
  }

  lemma ReplaceOne(v: Text, line: Text)
    requires v != []
    ensures ReplaceAll([v], line) == Replace(line, v)
  {
    assert [v][..0] == [];
  }

  /** Up to its first occurrence a text is only copied. */
  lemma {:induction false} ReplaceFirst(a: Text, v: Text, rest: Text)
    requires v != [] && forall i: nat | i < |a| :: !OccursAt(a + v + rest, v, i)
    ensures Replace(a + v + rest, v) == a + MASK + Replace(rest, v)
    decreases |a|
  {
    var s := a + v + rest;
    if a == [] {
      assert s == v + rest;
      assert OccursAt(s, v, 0) && s[|v|..] == rest;
      assert a + MASK == MASK;
    } else {
      assert !OccursAt(s, v, 0);
      assert s[1..] == a[1..] + v + rest;
      forall i: nat | i < |a| - 1 ensures !OccursAt(a[1..] + v + rest, v, i) {
        OccursInSuffix(s, 1, v, i);
      }
      ReplaceFirst(a[1..], v, rest);
      Regroup3([a[0]], a[1..], MASK, Replace(rest, v));
      assert a == [a[0]] + a[1..] && s[0] == a[0];
    }
  }

  /** A value that ends with a mask character, behind itself without that character. */
  lemma TailReappears(v: Text)
    requires v != [] && v[0] != STAR && v[|v| - 1] == STAR
    ensures Contains(Replace(v[..|v| - 1] + v + [], v), v)
  {
    var a := v[..|v| - 1];
    NotEarlier(v, a + v + []);
    ReplaceFirst(a, v, []);
    assert Replace([], v) == [];
    StartsWithMask(v);
  }

  lemma StartsWithMask(v: Text)
    requires v != [] && v[|v| - 1] == STAR
    ensures Contains(v[..|v| - 1] + MASK + [], v)
  {
    assert OccursAt(v[..|v| - 1] + MASK + [], v, 0);
  }

  lemma NotEarlier(v: Text, s: Text)
    requires v != [] && v[0] != STAR && v[|v| - 1] == STAR && s == v[..|v| - 1] + v + []
    ensures forall i: nat | i < |v| - 1 :: !OccursAt(s, v, i)
  {
    forall i: nat | i < |v| - 1 ensures !OccursAt(s, v, i) {
      EndsMeet(v, s, i);
    }
  }

  lemma EndsMeet(v: Text, s: Text, i: nat)
    requires i < |v| - 1 && s == v[..|v| - 1] + v + []
    ensures OccursAt(s, v, i) ==> v[0] == v[|v| - 1]
  {
    if OccursAt(s, v, i) {
      assert s[i + 0] == v[0] && s[i + (|v| - 1)] == v[|v| - 1];
    }
  }

  /** An occurrence earlier than `o` would carry the mask inside the value to an
      earlier place too. */
  lemma MaskShifts(v: Text, s: Text, i: nat, o: nat)
    requires i < o && OccursAt(v, MASK, o) && s == v[..o] + v + v[o + 3..]
    ensures OccursAt(s, v, i) ==> OccursAt(v, MASK, i)
  {
    if OccursAt(s, v, i) {
      forall k | 0 <= k < |MASK| ensures v[i + k] == MASK[k] {
        assert v[o + k] == MASK[k] && s[i + (o + k)] == v[o + k];
      }
    }
  }

  /** A value around the mask, put around a copy of itself. */
  lemma MiddleReappears(v: Text, o: nat)
    requires OccursAt(v, MASK, o) && forall i: nat | i < o :: !OccursAt(v, MASK, i)
    ensures Contains(Replace(v[..o] + v + v[o + 3..], v), v)
  {
    var s := v[..o] + v + v[o + 3..];
    forall i: nat | i < o ensures !OccursAt(s, v, i) {
      MaskShifts(v, s, i, o);
    }
    ReplaceFirst(v[..o], v, v[o + 3..]);
    ReplaceAbsent(v[o + 3..], v);
    assert v[..o] + MASK + v[o + 3..] == v by { assert v[o + 0] == MASK[0] && v[o + 1] == MASK[1] && v[o + 2] == MASK[2]; }
    assert OccursAt(v, v, 0);
  }

  /** The first place the mask stands in a value. */
  lemma {:induction false} FirstMask(v: Text) returns (o: nat)
    requires Contains(v, MASK)
    ensures OccursAt(v, MASK, o) && forall i: nat | i < o :: !OccursAt(v, MASK, i)
  {
    ghost var w: nat :| w + 3 <= |v| && OccursAt(v, MASK, w);
    o := 0;
    while !OccursAt(v, MASK, o)
      invariant o <= w && forall i: nat | i < o :: !OccursAt(v, MASK, i)
      decreases w - o
    {
      o := o + 1;
    }
  }

  /** An unsafe value can be put together again from the mask and what stands
      beside it. */
  lemma UnsafeValueReappears(v: Text) returns (line: Text)
    requires v != [] && !Safe(v)
    ensures Contains(Replace(line, v), v)
  {
    if v[0] == STAR {
      line := v + v[1..];
      assert OccursAt(line, v, 0) && line[|v|..] == v[1..];
      ReplaceAbsent(v[1..], v);
      assert OccursAt(MASK + v[1..], v, 2);
    } else if v[|v| - 1] == STAR {
      line := v[..|v| - 1] + v + [];
      TailReappears(v);
    } else {
      var o := FirstMask(v);
      line := v[..o] + v + v[o + 3..];
      MiddleReappears(v, o);
    }
  }

  /** A secret is removed from every line, whatever other secrets there are, exactly
      when it is safe. */
  lemma DefendedExactlyWhenSafe(v: Text)
    requires v != []
    ensures AlwaysRemoved(v) <==> Safe(v)
    ensures |v| >= 8 ==> (RemovedByEveryRedactor(v) <==> Safe(v))
  {
    if Safe(v) {
      forall values, line | NonEmpty(values) && v in values ensures !Contains(ReplaceAll(values, line), v) {
        NothingSurvives(values, line, v);
      }
    } else {
      var line := UnsafeValueReappears(v);
      ReplaceOne(v, line);
      assert NonEmpty([v]) && v in [v];
      assert |v| >= MIN_SECRET_LEN ==> Holdable([v]);
    }
  }

  // ---- The redactor itself ---------------------------------------------------------------

  lemma LongestStay(values: seq<Text>, secrets: seq<Text>)
    requires forall v | v in values :: v in LongEnough(secrets)
    ensures forall i | 0 <= i < |values| :: |values[i]| >= MIN_SECRET_LEN
  {
    forall i | 0 <= i < |values| ensures |values[i]| >= MIN_SECRET_LEN {
      assert values[i] in values;
    }
  }

  class Redactor {
    var values: seq<Text>

    ghost predicate Valid()
      reads this
    {
      Holdable(values)
    }

    /** Keeps exactly the secrets long enough to be redacted, the longest first. */
    constructor (secrets: seq<Text>)
      ensures Valid()
      ensures LongestFirst(values) && forall v :: v in values <==> v in secrets && |v| >= 8
    {
      values := Dedup(Sorted(LongEnough(secrets)));
      SortedKeeps(LongEnough(secrets));
      DedupKeeps(Sorted(LongEnough(secrets)));
      LongestStay(Dedup(Sorted(LongEnough(secrets))), secrets);
    }

    /** The line with every known value replaced. */
    method Apply(line: Text) returns (out: Text)
      requires Valid()
      ensures out == ReplaceAll(values, line)
      ensures forall v | v in values && Safe(v) :: !Contains(out, v)
      ensures SafeValues(values) ==> out == Render(line, Cuts(values, line), 0)
    {
      if SafeValues(values) {
        RedactionCuts(values, line);
      }
      forall v | v in values && Safe(v) ensures !Contains(ReplaceAll(values, line), v) {
        NothingSurvives(values, line, v);
      }
      if forall i | 0 <= i < |values| :: !Contains(line, values[i]) {
        ReplaceAllAbsent(values, line);
        return line;
      }
      out := line;
      for k := 0 to |values|
        invariant out == ReplaceAll(values[..k], line)
      {
        assert values[..k + 1][..k] == values[..k];
        if Contains(out, values[k]) {
          out := Replace(out, values[k]);
        } else {
          ReplaceAbsent(out, values[k]);
        }
      }
      assert values[..|values|] == values;
    }
  }
}
