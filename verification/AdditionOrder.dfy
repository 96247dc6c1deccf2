/** From instances added in some order to the rendered text, and exactly when the order
    of addition shows in it. */
module AdditionOrder {
  import opened Wrappers
  import opened TelegrafModel
  import opened RenderOrder
  import opened Renderer

  // ---- Adding to both buckets -------------------------------------------------------------

  predicate IsOutput(x: PluginInstance) {
    x.section == Output
  }

  function AddOne(c: Config, x: PluginInstance): Config {
    if IsOutput(x) then c.(outputs := AddTo(c.outputs, x)) else c.(inputs := AddTo(c.inputs, x))
  }

  /** The configuration after these additions. */
  function Added(agent: TomlTable, xs: seq<PluginInstance>): Config {
    if xs == [] then Config(agent, [], []) else AddOne(Added(agent, xs[..|xs| - 1]), xs[|xs| - 1])
  }

  /** Those that go to one bucket, in order. */
  function Bucket(xs: seq<PluginInstance>, outputs: bool): seq<PluginInstance> {
    if xs == [] then []
    else
      var before, last := Bucket(xs[..|xs| - 1], outputs), xs[|xs| - 1];
      if IsOutput(last) == outputs then before + [last] else before
  }

  /** The buckets do not mix: each is what its own instances make of it. */
  lemma {:induction false} AddedApart(agent: TomlTable, xs: seq<PluginInstance>)
    ensures Added(agent, xs) == Config(agent, AddAll(Bucket(xs, false)), AddAll(Bucket(xs, true)))
  {
    if xs != [] {
      var front, last := xs[..|xs| - 1], xs[|xs| - 1];
      AddedApart(agent, front);
      AddAllMore(Bucket(front, IsOutput(last)), last);
    }
  }

  lemma AddAllMore(xs: seq<PluginInstance>, x: PluginInstance)
    ensures AddAll(xs + [x]) == AddTo(AddAll(xs), x)
  {
    assert (xs + [x])[..|xs|] == xs;
  }

  lemma {:induction false} BucketCounts(xs: seq<PluginInstance>, outputs: bool, x: PluginInstance)
    ensures multiset(Bucket(xs, outputs))[x] == if IsOutput(x) == outputs then multiset(xs)[x] else 0
  {
    if xs != [] {
      var front, last := xs[..|xs| - 1], xs[|xs| - 1];
      assert xs == front + [last];
      BucketCounts(front, outputs, x);
    }
  }

  lemma BucketsPermute(xs: seq<PluginInstance>, ys: seq<PluginInstance>, outputs: bool)
    requires multiset(xs) == multiset(ys)
    ensures multiset(Bucket(xs, outputs)) == multiset(Bucket(ys, outputs))
  {
    forall x: PluginInstance ensures multiset(Bucket(xs, outputs))[x] == multiset(Bucket(ys, outputs))[x] {
      BucketCounts(xs, outputs, x);
      BucketCounts(ys, outputs, x);
    }
  }

  // ---- Instances that never merge ------------------------------------------------------------

  /** No two instances of the list share plugin and merge key. */
  ghost predicate NothingMerges(xs: seq<PluginInstance>) {
    forall x, y | x in xs && y in xs && SameGroup(x, y) :: x == y && multiset(xs)[x] == 1
  }

  lemma {:induction false} UnmergedAreKept(xs: seq<PluginInstance>)
    requires NothingMerges(xs)
    ensures AddAll(xs) == xs
  {
    if xs != [] {
      var front, last := xs[..|xs| - 1], xs[|xs| - 1];
      assert xs == front + [last];
      FrontMergesNothing(xs);
      UnmergedAreKept(front);
      LastIsNew(xs);
    }
  }

  lemma FrontMergesNothing(xs: seq<PluginInstance>)
    requires xs != [] && NothingMerges(xs)
    ensures NothingMerges(xs[..|xs| - 1])
  {
    var front, last := xs[..|xs| - 1], xs[|xs| - 1];
    assert xs == front + [last];
    forall x, y | x in front && y in front && SameGroup(x, y) ensures x == y && multiset(front)[x] == 1 {
      assert x in xs && y in xs;
      assert multiset(front)[x] > 0;
    }
  }

  lemma LastIsNew(xs: seq<PluginInstance>)
    requires xs != [] && NothingMerges(xs)
    ensures FindGroup(xs[..|xs| - 1], xs[|xs| - 1]) == |xs| - 1
  {
    var front, last := xs[..|xs| - 1], xs[|xs| - 1];
    assert xs == front + [last];
    TwiceCounted(xs, FindGroup(front, last), |xs| - 1);
  }

  lemma TwiceCounted(xs: seq<PluginInstance>, i: nat, j: nat)
    requires i < |xs| && j < |xs|
    ensures xs[i] in xs && xs[j] in xs
    ensures i < j && xs[i] == xs[j] ==> multiset(xs)[xs[i]] >= 2
  {
    if i < j {
      assert xs == xs[..j] + [xs[j]] + xs[j + 1..];
      assert xs[..j][i] == xs[i];
      assert multiset(xs[..j])[xs[i]] > 0;
    }
  }

  lemma NothingMergesEither(xs: seq<PluginInstance>, ys: seq<PluginInstance>)
    requires multiset(xs) == multiset(ys) && NothingMerges(xs)
    ensures NothingMerges(ys)
  {
    forall y | y in ys ensures y in xs {
      assert y in multiset(ys);
    }
  }

  // ---- Two sorted lists with the same places ---------------------------------------------------

  lemma {:induction false} AtCounts(xs: seq<PluginInstance>, p: PluginInstance, x: PluginInstance)
    ensures multiset(At(xs, p))[x] == if SamePlace(x, p) then multiset(xs)[x] else 0
  {
    if xs != [] {
      assert xs == [xs[0]] + xs[1..];
      AtCounts(xs[1..], p, x);
    }
  }

  ghost predicate SamePlaces(a: seq<PluginInstance>, b: seq<PluginInstance>) {
    |a| == |b| && forall i | 0 <= i < |a| :: SamePlace(a[i], b[i])
  }

  /** As many at every place. */
  ghost predicate SameCounts(a: seq<PluginInstance>, b: seq<PluginInstance>) {
    forall p :: |At(a, p)| == |At(b, p)|
  }

  lemma PermutedCounts(xs: seq<PluginInstance>, ys: seq<PluginInstance>)
    requires multiset(xs) == multiset(ys)
    ensures SameCounts(Sort(xs), Sort(ys))
  {
    forall p ensures |At(Sort(xs), p)| == |At(Sort(ys), p)| {
      SortIsStable(xs, p);
      SortIsStable(ys, p);
      forall x: PluginInstance ensures multiset(At(xs, p))[x] == multiset(At(ys, p))[x] {
        AtCounts(xs, p, x);
        AtCounts(ys, p, x);
      }
      assert multiset(At(xs, p)) == multiset(At(ys, p));
      assert |multiset(At(xs, p))| == |At(xs, p)| && |multiset(At(ys, p))| == |At(ys, p)|;
    }
  }

  lemma {:induction false} AtHolds(xs: seq<PluginInstance>, p: PluginInstance)
    ensures |At(xs, p)| > 0 <==> exists x | x in xs :: SamePlace(x, p)
  {
    if xs != [] {
      AtHolds(xs[1..], p);
      assert xs == [xs[0]] + xs[1..];
    }
  }

  lemma HeadIsLeast(xs: seq<PluginInstance>, x: PluginInstance)
    requires Ascending(xs) && x in xs
    ensures Le(xs[0], x)
  {
    assert xs == [xs[0]] + xs[1..];
    LeTotal(xs[0], xs[0]);
  }

  lemma HeadsShareAPlace(a: seq<PluginInstance>, b: seq<PluginInstance>)
    requires Ascending(a) && Ascending(b) && SameCounts(a, b) && a != []
    ensures b != [] && SamePlace(a[0], b[0])
  {
    AtHolds(a, a[0]);
    AtHolds(b, a[0]);
    assert SamePlace(a[0], a[0]) && |At(a, a[0])| == |At(b, a[0])|;
    var y :| y in b && SamePlace(y, a[0]);
    AtHolds(a, b[0]);
    AtHolds(b, b[0]);
    assert SamePlace(b[0], b[0]) && |At(a, b[0])| == |At(b, b[0])|;
    var x :| x in a && SamePlace(x, b[0]);
    HeadIsLeast(b, y);
    HeadIsLeast(a, x);
    LeTotal(x, b[0]);
    LeTotal(y, a[0]);
    LeTransitive(a[0], x, b[0]);
    LeTransitive(b[0], y, a[0]);
    LeTotal(a[0], b[0]);
  }

  lemma FirstIsAtItsPlace(b: seq<PluginInstance>)
    ensures b != [] ==> |At(b, b[0])| > 0
  {
  }

  lemma {:induction false} CountsAlignPlaces(a: seq<PluginInstance>, b: seq<PluginInstance>)
    requires Ascending(a) && Ascending(b) && SameCounts(a, b)
    ensures SamePlaces(a, b)
  {
    if a == [] {
      assert b != [] ==> |At(a, b[0])| == |At(b, b[0])|;
      FirstIsAtItsPlace(b);
    } else {
      HeadsShareAPlace(a, b);
      forall p ensures |At(a[1..], p)| == |At(b[1..], p)| {
        assert |At(a, p)| == |At(b, p)|;
      }
      CountsAlignPlaces(a[1..], b[1..]);
      forall i | 0 <= i < |a| ensures SamePlace(a[i], b[i]) {
        if i > 0 { assert a[i] == a[1..][i - 1] && b[i] == b[1..][i - 1]; }
      }
    }
  }

  // ---- The lines of a list -------------------------------------------------------------------------

  ghost predicate SameLines(a: seq<PluginInstance>, b: seq<PluginInstance>) {
    |a| == |b| && forall i | 0 <= i < |a| :: InstanceLines(a[i]) == InstanceLines(b[i])
  }

  lemma {:induction false} SameLinesRenderAlike(a: seq<PluginInstance>, b: seq<PluginInstance>)
    requires SameLines(a, b)
    ensures InstancesLines(a) == InstancesLines(b)
  {
    hide InstanceLines;
    if a != [] {
      assert forall i | 0 < i < |a| :: a[i] == a[1..][i - 1] && b[i] == b[1..][i - 1];
      SameLinesRenderAlike(a[1..], b[1..]);
    }
  }

  /** A block of lines is closed by its only blank one, behind a line that is not blank. */
  predicate IsBlock(lines: seq<Line>) {
    && |lines| >= 2 && lines[|lines| - 1] == Blank
    && forall i | 0 <= i < |lines| - 1 :: lines[i] != Blank
  }

  lemma {:induction false} KeysAreNotBlank(indent: nat, es: TomlTable)
    ensures forall i | 0 <= i < |KeyLines(indent, es)| :: KeyLines(indent, es)[i] != Blank
  {
    if es != [] { KeysAreNotBlank(indent, es[1..]); }
  }

  lemma {:induction false} SubsAreNotBlank(x: PluginInstance, subs: seq<Pair<TomlTable>>)
    ensures forall i | 0 <= i < |SubLines(x, subs)| :: SubLines(x, subs)[i] != Blank
  {
    hide KeyLines;
    if subs != [] {
      KeysAreNotBlank(4, subs[0].value);
      SubsAreNotBlank(x, subs[1..]);
    }
  }

  lemma InstanceIsBlock(x: PluginInstance)
    ensures IsBlock(InstanceLines(x))
  {
    hide KeyLines, SubLines, Join;
    KeysAreNotBlank(2, x.scalars);
    SubsAreNotBlank(x, x.subtables);
  }

  /** So the blocks can be told apart. */
  lemma BlocksComeApart(a: seq<Line>, x: seq<Line>, b: seq<Line>, y: seq<Line>)
    requires IsBlock(a) && IsBlock(b) && a + x == b + y
    ensures a == b && x == y
  {
    var s := a + x;
    BlockEnds(a, x, |b| - 1);
    BlockEnds(b, y, |a| - 1);
    assert |a| == |b|;
    assert a == s[..|a|] && x == s[|a|..] && b == s[..|a|] && y == s[|a|..];
  }

  lemma BlockEnds(a: seq<Line>, x: seq<Line>, k: nat)
    requires IsBlock(a)
    ensures k < |a + x| && (a + x)[k] == Blank ==> k >= |a| - 1
    ensures (a + x)[|a| - 1] == Blank
  {
  }

  lemma {:induction false} LinesTellTheInstances(a: seq<PluginInstance>, b: seq<PluginInstance>)
    requires InstancesLines(a) == InstancesLines(b)
    ensures SameLines(a, b)
  {
    hide InstanceLines, IsBlock;
    if a == [] || b == [] {
      if a != [] { SomeLines(a); }
      if b != [] { SomeLines(b); }
    } else {
      InstanceIsBlock(a[0]);
      InstanceIsBlock(b[0]);
      BlocksComeApart(InstanceLines(a[0]), InstancesLines(a[1..]), InstanceLines(b[0]), InstancesLines(b[1..]));
      LinesTellTheInstances(a[1..], b[1..]);
      forall i | 0 <= i < |a| ensures InstanceLines(a[i]) == InstanceLines(b[i]) {
        if i > 0 { assert a[i] == a[1..][i - 1] && b[i] == b[1..][i - 1]; }
      }
    }
  }

  lemma SomeLines(a: seq<PluginInstance>)
    requires a != []
    ensures InstancesLines(a) != []
  {
    InstanceIsBlock(a[0]);
    hide InstanceLines;
  }

  // ---- The end of the text ----------------------------------------------------------------------------

  /** The lines end in one blank line and no more. */
  predicate OneBlankEnd(lines: seq<Line>) {
    |lines| >= 2 && lines[|lines| - 1] == Blank && lines[|lines| - 2] != Blank
  }

  lemma OneBlankIsDropped(lines: seq<Line>)
    requires OneBlankEnd(lines)
    ensures DropTrailingBlanks(lines) == lines[..|lines| - 1]
  {
  }

  lemma BehindAnything(before: seq<Line>, lines: seq<Line>)
    requires OneBlankEnd(lines)
    ensures OneBlankEnd(before + lines)
  {
  }

  lemma {:induction false} InstancesEnd(xs: seq<PluginInstance>)
    requires xs != []
    ensures OneBlankEnd(InstancesLines(xs))
  {
    hide InstanceLines;
    InstanceIsBlock(xs[0]);
    if |xs| == 1 {
      assert xs[1..] == [] && InstanceLines(xs[0]) + [] == InstanceLines(xs[0]);
    } else {
      InstancesEnd(xs[1..]);
      BehindAnything(InstanceLines(xs[0]), InstancesLines(xs[1..]));
    }
  }

  lemma SectionEnds(title: string, xs: seq<PluginInstance>)
    ensures xs != [] ==> OneBlankEnd(SectionLines(title, xs))
    ensures xs == [] ==> SectionLines(title, xs) == []
  {
    hide InstancesLines;
    if xs != [] {
      InstancesEnd(xs);
      BehindAnything([Comment(title), Blank], InstancesLines(xs));
    }
  }

  lemma HeadEnds(agent: TomlTable, version: string)
    ensures OneBlankEnd(Header(version) + AgentLines(agent))
  {
    TitleEnds(version);
    AgentEnds(agent);
    hide Header, AgentLines, OneBlankEnd;
    if agent == [] {
      assert Header(version) + [] == Header(version);
    } else {
      BehindAnything(Header(version), AgentLines(agent));
    }
  }

  lemma TitleEnds(version: string)
    ensures OneBlankEnd(Header(version))
  {
  }

  lemma AgentEnds(agent: TomlTable)
    ensures agent != [] ==> OneBlankEnd(AgentLines(agent))
    ensures agent == [] ==> AgentLines(agent) == []
  {
    hide KeyLines;
    KeysAreNotBlank(2, agent);
  }

  lemma AllLinesEnd(c: Config, version: string)
    ensures OneBlankEnd(AllLines(c, version))
  {
    hide Header, AgentLines, SectionLines, Sort, OneBlankEnd;
    var head := Header(version) + AgentLines(c.agent);
    var ins, outs := SectionLines("Inputs", Sort(c.inputs)), SectionLines("Outputs", Sort(c.outputs));
    HeadEnds(c.agent, version);
    SectionEnds("Inputs", Sort(c.inputs));
    SectionEnds("Outputs", Sort(c.outputs));
    if Sort(c.inputs) == [] { assert head + ins == head; } else { BehindAnything(head, ins); }
    if Sort(c.outputs) == [] { assert head + ins + outs == head + ins; } else { BehindAnything(head + ins, outs); }
  }

  /** Equal texts come from equal lines: nothing but one blank line has been dropped. */
  lemma RenderedTellsTheLines(c: Config, d: Config, version: string)
    ensures Rendered(c, version) == Rendered(d, version) <==> AllLines(c, version) == AllLines(d, version)
  {
    hide AllLines, DropTrailingBlanks;
    AllLinesEnd(c, version);
    AllLinesEnd(d, version);
    var a, b := AllLines(c, version), AllLines(d, version);
    OneBlankIsDropped(a);
    OneBlankIsDropped(b);
    if Rendered(c, version) == Rendered(d, version) {
      assert a == a[..|a| - 1] + [Blank] && b == b[..|b| - 1] + [Blank];
    }
  }

  // ---- Exactly when the order of addition shows ---------------------------------------------------------

  /** Instances of one bucket at one rank and plugin have the same lines. */
  ghost predicate LinesAgree(xs: seq<PluginInstance>) {
    forall x, y | x in xs && y in xs && IsOutput(x) == IsOutput(y) && SamePlace(x, y) :: InstanceLines(x) == InstanceLines(y)
  }

  ghost predicate OrderNeverShowsInText(agent: TomlTable, xs: seq<PluginInstance>, version: string) {
    forall ys | multiset(ys) == multiset(xs) :: Rendered(Added(agent, ys), version) == Rendered(Added(agent, xs), version)
  }

  /** Nothing merges in either bucket. */
  ghost predicate Unmerged(xs: seq<PluginInstance>) {
    NothingMerges(Bucket(xs, false)) && NothingMerges(Bucket(xs, true))
  }

  lemma UnmergedConfig(agent: TomlTable, xs: seq<PluginInstance>)
    requires Unmerged(xs)
    ensures Added(agent, xs) == Config(agent, Bucket(xs, false), Bucket(xs, true))
  {
    AddedApart(agent, xs);
    UnmergedAreKept(Bucket(xs, false));
    UnmergedAreKept(Bucket(xs, true));
  }

  lemma UnmergedEither(xs: seq<PluginInstance>, ys: seq<PluginInstance>)
    requires multiset(xs) == multiset(ys) && Unmerged(xs)
    ensures Unmerged(ys)
  {
    BucketsPermute(xs, ys, false);
    BucketsPermute(xs, ys, true);
    NothingMergesEither(Bucket(xs, false), Bucket(ys, false));
    NothingMergesEither(Bucket(xs, true), Bucket(ys, true));
  }

  lemma InBucket(xs: seq<PluginInstance>, outputs: bool, x: PluginInstance)
    ensures x in Bucket(xs, outputs) <==> x in xs && IsOutput(x) == outputs
  {
    BucketCounts(xs, outputs, x);
    assert x in Bucket(xs, outputs) <==> x in multiset(Bucket(xs, outputs));
    assert x in xs <==> x in multiset(xs);
  }

  lemma SortedBucket(xs: seq<PluginInstance>, x: PluginInstance)
    ensures x in Sort(xs) <==> x in xs
  {
    SortSorts(xs);
    assert x in Sort(xs) <==> x in multiset(Sort(xs));
    assert x in xs <==> x in multiset(xs);
  }

  /** One bucket, added in two orders, has the same lines where places agree. */
  lemma BucketLinesAgree(xs: seq<PluginInstance>, ys: seq<PluginInstance>, outputs: bool)
    requires multiset(xs) == multiset(ys) && LinesAgree(xs)
    ensures InstancesLines(Sort(Bucket(xs, outputs))) == InstancesLines(Sort(Bucket(ys, outputs)))
    ensures Sort(Bucket(xs, outputs)) == [] <==> Sort(Bucket(ys, outputs)) == []
  {
    hide InstanceLines, Sort, SamePlace, IsOutput, Bucket, InstancesLines;
    var a, b := Sort(Bucket(xs, outputs)), Sort(Bucket(ys, outputs));
    AlignedBuckets(xs, ys, outputs);
    forall i | 0 <= i < |a| ensures InstanceLines(a[i]) == InstanceLines(b[i]) {
      SortedBucket(Bucket(xs, outputs), a[i]);
      SortedBucket(Bucket(ys, outputs), b[i]);
      InBucket(xs, outputs, a[i]);
      InBucket(ys, outputs, b[i]);
      assert b[i] in multiset(ys);
    }
    SameLinesRenderAlike(a, b);
  }

  lemma AlignedBuckets(xs: seq<PluginInstance>, ys: seq<PluginInstance>, outputs: bool)
    requires multiset(xs) == multiset(ys)
    ensures SamePlaces(Sort(Bucket(xs, outputs)), Sort(Bucket(ys, outputs)))
  {
    BucketsPermute(xs, ys, outputs);
    PermutedCounts(Bucket(xs, outputs), Bucket(ys, outputs));
    SortSorts(Bucket(xs, outputs));
    SortSorts(Bucket(ys, outputs));
    CountsAlignPlaces(Sort(Bucket(xs, outputs)), Sort(Bucket(ys, outputs)));
  }

  lemma AgreeingOrdersRenderAlike(agent: TomlTable, xs: seq<PluginInstance>, ys: seq<PluginInstance>, version: string)
    requires multiset(ys) == multiset(xs) && Unmerged(xs) && LinesAgree(xs)
    ensures Rendered(Added(agent, ys), version) == Rendered(Added(agent, xs), version)
  {
    hide LinesAgree, Unmerged, InstancesLines, Sort, Added, DropTrailingBlanks, Header, AgentLines, Bucket;
    UnmergedConfig(agent, xs);
    UnmergedEither(xs, ys);
    UnmergedConfig(agent, ys);
    BucketLinesAgree(xs, ys, false);
    BucketLinesAgree(xs, ys, true);
  }

  // Two instances at one place with different lines, exchanged.

  lemma {:induction false} BucketSplits(a: seq<PluginInstance>, b: seq<PluginInstance>, outputs: bool)
    ensures Bucket(a + b, outputs) == Bucket(a, outputs) + Bucket(b, outputs)
  {
    if b == [] {
      assert a + b == a;
    } else {
      BucketSplits(a, b[..|b| - 1], outputs);
      assert (a + b)[..|a + b| - 1] == a + b[..|b| - 1];
    }
  }

  lemma OneBucket(x: PluginInstance, outputs: bool)
    ensures Bucket([x], outputs) == if IsOutput(x) == outputs then [x] else []
  {
    assert [x][..0] == [];
  }

  lemma ThreeBuckets(a: seq<PluginInstance>, x: PluginInstance, b: seq<PluginInstance>, y: PluginInstance, c: seq<PluginInstance>, outputs: bool)
    ensures Bucket(a + [x] + b + [y] + c, outputs) ==
            Bucket(a, outputs) + Bucket([x], outputs) + Bucket(b, outputs) + Bucket([y], outputs) + Bucket(c, outputs)
  {
    hide Bucket;
    BucketSplits(a, [x], outputs);
    BucketSplits(a + [x], b, outputs);
    BucketSplits(a + [x] + b, [y], outputs);
    BucketSplits(a + [x] + b + [y], c, outputs);
  }

  lemma {:induction false} AtAligned(a: seq<PluginInstance>, b: seq<PluginInstance>, p: PluginInstance)
    requires SamePlaces(a, b) && SameLines(a, b)
    ensures SameLines(At(a, p), At(b, p))
  {
    hide InstanceLines;
    if a != [] {
      assert forall i | 0 < i < |a| :: a[i] == a[1..][i - 1] && b[i] == b[1..][i - 1];
      AtAligned(a[1..], b[1..], p);
    }
  }

  /** The exchange shows in the lines of the bucket. */
  lemma ExchangeShows(u: seq<PluginInstance>, x: PluginInstance, v: seq<PluginInstance>, y: PluginInstance, w: seq<PluginInstance>)
    requires SamePlace(x, y) && InstanceLines(x) != InstanceLines(y)
    requires SamePlaces(Sort(u + [x] + v + [y] + w), Sort(u + [y] + v + [x] + w))
    ensures InstancesLines(Sort(u + [x] + v + [y] + w)) != InstancesLines(Sort(u + [y] + v + [x] + w))
  {
    hide InstanceLines, Sort, InstancesLines;
    var a, b := u + [x] + v + [y] + w, u + [y] + v + [x] + w;
    assert a[..|u|] == u == b[..|u|];
    SortIsStable(a, x);
    SortIsStable(b, x);
    SamePlaceEither(x, x);
    SamePlaceEither(x, y);
    AtFinds(a, x, |u|);
    AtFinds(b, x, |u|);
    if InstancesLines(Sort(a)) == InstancesLines(Sort(b)) {
      LinesTellTheInstances(Sort(a), Sort(b));
      AtAligned(Sort(a), Sort(b), x);
    }
  }

  /** One section's lines cannot be equal when those of its instances are not. */
  lemma SectionTells(title: string, a: seq<PluginInstance>, b: seq<PluginInstance>)
    requires a != [] && b != [] && SectionLines(title, a) == SectionLines(title, b)
    ensures InstancesLines(a) == InstancesLines(b)
  {
    hide InstancesLines;
    assert SectionLines(title, a)[2..] == InstancesLines(a) && SectionLines(title, b)[2..] == InstancesLines(b);
  }

  lemma SameFrame(h: seq<Line>, a: seq<Line>, b: seq<Line>, t: seq<Line>)
    requires h + a + t == h + b + t
    ensures a == b
  {
    var s := h + a + t;
    assert |a| == |b|;
    assert s[|h|..|h| + |a|] == a && (h + b + t)[|h|..|h| + |b|] == b;
  }

  lemma Exchanged(a: seq<PluginInstance>, x: PluginInstance, b: seq<PluginInstance>, y: PluginInstance, c: seq<PluginInstance>)
    ensures multiset(a + [x] + b + [y] + c) == multiset(a + [y] + b + [x] + c)
  {
  }

  lemma DisagreeingLinesShow(agent: TomlTable, a: seq<PluginInstance>, x: PluginInstance, b: seq<PluginInstance>,
                             y: PluginInstance, c: seq<PluginInstance>, version: string)
    requires Unmerged(a + [x] + b + [y] + c)
    requires IsOutput(x) == IsOutput(y) && SamePlace(x, y) && InstanceLines(x) != InstanceLines(y)
    ensures Rendered(Added(agent, a + [x] + b + [y] + c), version) != Rendered(Added(agent, a + [y] + b + [x] + c), version)
  {
    hide Unmerged, InstanceLines, SamePlace, Bucket, Sort, Added, Rendered, AllLines, SamePlaces, InstancesLines;
    var xs, ys, o := a + [x] + b + [y] + c, a + [y] + b + [x] + c, IsOutput(x);
    Exchanged(a, x, b, y, c);
    UnmergedEither(xs, ys);
    UnmergedConfig(agent, xs);
    UnmergedConfig(agent, ys);
    AlignedBuckets(xs, ys, o);
    BucketsOfExchange(a, x, b, y, c);
    ExchangeShows(Bucket(a, o), x, Bucket(b, o), y, Bucket(c, o));
    RenderedTellsTheLines(Added(agent, xs), Added(agent, ys), version);
    if AllLines(Added(agent, xs), version) == AllLines(Added(agent, ys), version) {
      LinesTellTheBucket(agent, xs, ys, o, version);
    }
  }

  lemma BucketsOfExchange(a: seq<PluginInstance>, x: PluginInstance, b: seq<PluginInstance>, y: PluginInstance, c: seq<PluginInstance>)
    requires IsOutput(x) == IsOutput(y)
    ensures var xs, ys, o := a + [x] + b + [y] + c, a + [y] + b + [x] + c, IsOutput(x);
            && Bucket(xs, o) == Bucket(a, o) + [x] + Bucket(b, o) + [y] + Bucket(c, o)
            && Bucket(ys, o) == Bucket(a, o) + [y] + Bucket(b, o) + [x] + Bucket(c, o)
            && Bucket(xs, !o) == Bucket(ys, !o)
  {
    hide Bucket;
    var o := IsOutput(x);
    ThreeBuckets(a, x, b, y, c, o);
    ThreeBuckets(a, y, b, x, c, o);
    ThreeBuckets(a, x, b, y, c, !o);
    ThreeBuckets(a, y, b, x, c, !o);
    OneBucket(x, o);
    OneBucket(y, o);
    OneBucket(x, !o);
    OneBucket(y, !o);
  }

  lemma SortedIsAsLong(xs: seq<PluginInstance>)
    ensures |Sort(xs)| == |xs|
  {
    SortSorts(xs);
    assert |multiset(Sort(xs))| == |Sort(xs)| && |multiset(xs)| == |xs|;
  }

  lemma LinesTellTheBucket(agent: TomlTable, xs: seq<PluginInstance>, ys: seq<PluginInstance>, o: bool, version: string)
    requires Bucket(xs, !o) == Bucket(ys, !o) && |Bucket(xs, o)| == |Bucket(ys, o)| > 0
    requires var c := Config(agent, Bucket(xs, false), Bucket(xs, true));
             var d := Config(agent, Bucket(ys, false), Bucket(ys, true));
             AllLines(c, version) == AllLines(d, version)
    ensures InstancesLines(Sort(Bucket(xs, o))) == InstancesLines(Sort(Bucket(ys, o)))
  {
    hide Bucket, Sort, Header, AgentLines, InstancesLines, SectionLines;
    var head := Header(version) + AgentLines(agent);
    var title := if o then "Outputs" else "Inputs";
    var s, t := Sort(Bucket(xs, o)), Sort(Bucket(ys, o));
    SortedIsAsLong(Bucket(xs, o));
    SortedIsAsLong(Bucket(ys, o));
    if o {
      var ins := head + SectionLines("Inputs", Sort(Bucket(xs, false)));
      assert ins + SectionLines(title, s) + [] == ins + SectionLines(title, s);
      assert ins + SectionLines(title, t) + [] == ins + SectionLines(title, t);
      SameFrame(ins, SectionLines(title, s), SectionLines(title, t), []);
    } else {
      SameFrame(head, SectionLines(title, s), SectionLines(title, t), SectionLines("Outputs", Sort(Bucket(xs, true))));
    }
    SectionTells(title, s, t);
  }

  /** Where nothing merges, the text is the same for every order of addition exactly when
      instances of one bucket at one rank and plugin have the same lines. */
  lemma OrderShowsExactlyInDifferentLines(agent: TomlTable, xs: seq<PluginInstance>, version: string)
    requires Unmerged(xs)
    ensures OrderNeverShowsInText(agent, xs, version) <==> LinesAgree(xs)
  {
    hide Unmerged, InstanceLines, SamePlace, IsOutput, Rendered, Added;
    if LinesAgree(xs) {
      forall ys | multiset(ys) == multiset(xs) ensures Rendered(Added(agent, ys), version) == Rendered(Added(agent, xs), version) {
        AgreeingOrdersRenderAlike(agent, xs, ys, version);
      }
    } else {
      var x, y :| x in xs && y in xs && IsOutput(x) == IsOutput(y) && SamePlace(x, y) && InstanceLines(x) != InstanceLines(y);
      var i :| 0 <= i < |xs| && xs[i] == x;
      var j :| 0 <= j < |xs| && xs[j] == y;
      SamePlaceEither(x, y);
      if i < j { SomeOrderShows(agent, xs, i, j, version); } else { SomeOrderShows(agent, xs, j, i, version); }
    }
  }

  lemma SamePlaceEither(x: PluginInstance, y: PluginInstance)
    ensures SamePlace(x, y) ==> SamePlace(y, x)
    ensures SamePlace(x, x)
  {
  }

  lemma SomeOrderShows(agent: TomlTable, xs: seq<PluginInstance>, i: nat, j: nat, version: string)
    requires Unmerged(xs) && i < j < |xs|
    requires IsOutput(xs[i]) == IsOutput(xs[j]) && SamePlace(xs[i], xs[j]) && InstanceLines(xs[i]) != InstanceLines(xs[j])
    ensures !OrderNeverShowsInText(agent, xs, version)
  {
    hide Unmerged, InstanceLines, SamePlace, IsOutput, Rendered, Added;
    var a, x, b, y, c := xs[..i], xs[i], xs[i + 1..j], xs[j], xs[j + 1..];
    assert xs == a + [x] + b + [y] + c;
    DisagreeingLinesShow(agent, a, x, b, y, c, version);
    Exchanged(a, x, b, y, c);
  }

  /** Adding any permutation of instances that merge nothing, and of which no two of one
      bucket share rank and plugin, renders the same text. */
  lemma AdditionOrderDoesNotShow(agent: TomlTable, xs: seq<PluginInstance>, ys: seq<PluginInstance>, version: string)
    requires multiset(xs) == multiset(ys) && Unmerged(xs)
    requires forall x, y | x in xs && y in xs && IsOutput(x) == IsOutput(y) && SamePlace(x, y) :: x == y
    ensures Rendered(Added(agent, xs), version) == Rendered(Added(agent, ys), version)
  {
    AgreeingOrdersRenderAlike(agent, xs, ys, version);
  }

  // ---- Merging instances -------------------------------------------------------------------------------

  function Mergeable(rank: nat, item: int): PluginInstance {
    PluginInstance(Input, "p", rank, [], "module", Some("k"), [Pair("a", Array([Integer(item)]))], [])
  }

  function InOrder(rank: nat, first: int, second: int): PluginInstance {
    Mergeable(rank, first).(scalars := [Pair("a", Array([Integer(first), Integer(second)]))])
  }

  lemma MergedItems(r: nat, i: int, q: nat, j: int)
    requires i != j
    ensures Merged(Mergeable(r, i), Mergeable(q, j)) == InOrder(r, i, j)
  {
    var x, y := Mergeable(r, i), Mergeable(q, j);
    UnionOfTwo(i, j);
    assert y.scalars[..0] == [] && y.subtables == [] && y.sources == [];
    assert PutAll(x.scalars, y.scalars, CombineScalar) == Put(x.scalars, y.scalars[0], CombineScalar);
  }

  lemma UnionOfTwo(i: int, j: int)
    requires i != j
    ensures Union([Integer(i)], [Integer(j)]) == [Integer(i), Integer(j)]
  {
    assert [Integer(j)][..0] == [];
  }

  lemma AddedPair(agent: TomlTable, x: PluginInstance, y: PluginInstance)
    requires !IsOutput(x) && !IsOutput(y) && SameGroup(y, x)
    ensures Added(agent, [x, y]) == Config(agent, [Merged(x, y)], [])
  {
    hide Merged;
    assert [x, y][..1] == [x] && [x][..0] == [];
    assert Added(agent, [x]) == Config(agent, [x], []);
    assert FindGroup([x], y) == 0;
  }

  lemma OneSorts(x: PluginInstance)
    ensures Sort([x]) == [x] && Sort([]) == []
  {
    assert [x][1..] == [];
  }

  lemma OneLineTells(x: PluginInstance, y: PluginInstance)
    ensures InstancesLines([x]) == InstancesLines([y]) ==> InstanceLines(x) == InstanceLines(y)
  {
    OneInstance(x);
    OneInstance(y);
  }

  lemma OneInstance(x: PluginInstance)
    ensures InstancesLines([x]) == InstanceLines(x)
  {
    hide InstanceLines;
    assert [x][1..] == [] && InstanceLines(x) + [] == InstanceLines(x);
  }

  lemma DifferentInputShows(agent: TomlTable, x: PluginInstance, y: PluginInstance, version: string)
    requires InstanceLines(x) != InstanceLines(y)
    ensures Rendered(Config(agent, [x], []), version) != Rendered(Config(agent, [y], []), version)
  {
    var c, d := Config(agent, [x], []), Config(agent, [y], []);
    OneSorts(x);
    OneSorts(y);
    hide InstanceLines, Header, AgentLines, Rendered, Sort, InstancesLines;
    RenderedTellsTheLines(c, d, version);
    if AllLines(c, version) == AllLines(d, version) {
      SameFrame(Header(version) + AgentLines(agent), SectionLines("Inputs", [x]), SectionLines("Inputs", [y]),
                SectionLines("Outputs", []));
      SectionTells("Inputs", [x], [y]);
    }
    OneLineTells(x, y);
  }

  lemma OrderIsInTheLines()
    ensures InstanceLines(InOrder(1, 1, 2)) != InstanceLines(InOrder(2, 2, 1))
  {
    hide SubLines;
    SecondLine(1, 1, 2);
    SecondLine(2, 2, 1);
    assert [Integer(1), Integer(2)][0] != [Integer(2), Integer(1)][0];
  }

  lemma SecondLine(rank: nat, i: int, j: int)
    ensures InstanceLines(InOrder(rank, i, j))[1..2] == [KeyLine(2, "a", Array([Integer(i), Integer(j)]))]
  {
    hide SubLines;
  }

  lemma MergedTextDiffers(agent: TomlTable, version: string)
    ensures Rendered(Added(agent, [Mergeable(1, 1), Mergeable(2, 2)]), version) !=
            Rendered(Added(agent, [Mergeable(2, 2), Mergeable(1, 1)]), version)
  {
    AddedPair(agent, Mergeable(1, 1), Mergeable(2, 2));
    AddedPair(agent, Mergeable(2, 2), Mergeable(1, 1));
    MergedItems(1, 1, 2, 2);
    MergedItems(2, 2, 1, 1);
    OrderIsInTheLines();
    hide InOrder, InstanceLines, Rendered, Added, Merged, Mergeable;
    DifferentInputShows(agent, InOrder(1, 1, 2), InOrder(2, 2, 1), version);
  }

  lemma NoSharedPlace()
    ensures LinesAgree([Mergeable(1, 1), Mergeable(2, 2)])
  {
    hide InstanceLines;
  }

  /** Instances that merge are another matter: their values keep first-seen order, so the
      order of addition can show even where no two have the same place. */
  lemma MergedOrderCanShow(agent: TomlTable, version: string)
    ensures var xs := [Mergeable(1, 1), Mergeable(2, 2)];
            LinesAgree(xs) && !OrderNeverShowsInText(agent, xs, version)
  {
    hide Rendered, Added, Mergeable, LinesAgree;
    NoSharedPlace();
    MergedTextDiffers(agent, version);
    var x, y := Mergeable(1, 1), Mergeable(2, 2);
    assert multiset([y, x]) == multiset([x, y]);
  }
}
