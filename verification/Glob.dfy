/** The container-name globs of the image-update check: the greedy backtracking
    loop, and the recursive meaning of `*` (any run) and `?` (one character) it
    has to decide. */
module Glob {
  import opened Wrappers

  /** What a pattern means. */
  predicate Matches(p: string, t: string)
    decreases |p| + |t|
  {
    if p == "" then t == ""
    else if p[0] == '*' then Matches(p[1..], t) || (t != "" && Matches(p, t[1..]))
    else t != "" && Accepts(p[0], t[0]) && Matches(p[1..], t[1..])
  }

  /** The test the loop makes first: a `*` in the pattern accepts a literal `*`. */
  predicate Accepts(pc: char, tc: char) {
    pc == '?' || pc == tc
  }

  predicate AllStars(p: string) {
    forall i | 0 <= i < |p| :: p[i] == '*'
  }

  /** The segment `seg` accepts `t` character by character. */
  predicate Literally(seg: string, t: string) {
    |seg| == |t| && forall i | 0 <= i < |seg| :: Accepts(seg[i], t[i])
  }

  /** Where the loop can be: `star` is the last `*` it committed to, and the
      pattern between it and `pi` has been accepted from `matchFrom` on. */
  ghost predicate Position(p: string, t: string, pi: nat, ti: nat, star: Option<nat>, matchFrom: nat) {
    && pi <= |p| && ti <= |t|
    && (star.Some? ==>
          && star.value < pi && p[star.value] == '*' && matchFrom <= ti
          && Literally(p[star.value + 1..pi], t[matchFrom..ti]))
  }

  /** The loop of `glob_match` from any of its positions. */
  function Scan(p: string, t: string, pi: nat, ti: nat, star: Option<nat>, matchFrom: nat): bool
    requires Position(p, t, pi, ti, star, matchFrom)
    decreases if star.Some? then |p| - star.value else |p| + 1, |t| - matchFrom, |t| - ti
  {
    if ti == |t| then
      AllStars(p[pi..])
    else if pi < |p| && Accepts(p[pi], t[ti]) then
      ExtendLiterally(p, t, pi, ti, star, matchFrom);
      Scan(p, t, pi + 1, ti + 1, star, matchFrom)
    else if pi < |p| && p[pi] == '*' then
      Scan(p, t, pi + 1, ti, Some(pi), ti)
    else if star.Some? then
      Scan(p, t, star.value + 1, matchFrom + 1, star, matchFrom + 1)
    else
      false
  }

  lemma ExtendLiterally(p: string, t: string, pi: nat, ti: nat, star: Option<nat>, matchFrom: nat)
    requires Position(p, t, pi, ti, star, matchFrom) && pi < |p| && ti < |t| && Accepts(p[pi], t[ti])
    ensures Position(p, t, pi + 1, ti + 1, star, matchFrom)
  {
    if star.Some? {
      assert p[star.value + 1..pi + 1] == p[star.value + 1..pi] + [p[pi]];
      assert t[matchFrom..ti + 1] == t[matchFrom..ti] + [t[ti]];
    }
  }

  /** What `glob_match` answers. */
  function Decide(p: string, t: string): bool {
    Scan(p, t, 0, 0, None, 0)
  }

  method GlobMatch(p: string, t: string) returns (b: bool)
    ensures b == Decide(p, t)
    ensures b ==> Matches(p, t)
    ensures '*' !in t ==> (b <==> Matches(p, t))
  {
    DecideIsSound(p, t);
    if '*' !in t { DecideIsExact(p, t); }
    var pi: nat, ti: nat := 0, 0;
    var star: Option<nat> := None;
    var matchFrom: nat := 0;
    while ti < |t|
      invariant Position(p, t, pi, ti, star, matchFrom)
      invariant Decide(p, t) == Scan(p, t, pi, ti, star, matchFrom)
      decreases if star.Some? then |p| - star.value else |p| + 1, |t| - matchFrom, |t| - ti
    {
      if pi < |p| && (p[pi] == '?' || p[pi] == t[ti]) {
        ExtendLiterally(p, t, pi, ti, star, matchFrom);
        pi := pi + 1;
        ti := ti + 1;
      } else if pi < |p| && p[pi] == '*' {
        star := Some(pi);
        matchFrom := ti;
        pi := pi + 1;
      } else if star.Some? {
        pi := star.value + 1;
        matchFrom := matchFrom + 1;
        ti := matchFrom;
      } else {
        return false;
      }
    }
    ghost var rest := pi;
    while pi < |p| && p[pi] == '*'
      invariant rest <= pi <= |p|
      invariant forall i | rest <= i < pi :: p[i] == '*'
    {
      pi := pi + 1;
    }
    b := pi == |p|;
    assert !b ==> p[rest..][pi - rest] != '*';
  }

  // ---- What the meaning allows ----------------------------------------------

  /** `*` takes any prefix. */
  lemma {:induction false} StarTakes(p: string, t: string, k: nat)
    requires p != "" && p[0] == '*' && k <= |t| && Matches(p, t[k..])
    ensures Matches(p, t)
  {
    if k > 0 {
      assert t[1..][k - 1..] == t[k..];
      StarTakes(p, t[1..], k - 1);
    }
  }

  /** A `*` that matches leaves some suffix to the rest of the pattern. */
  lemma {:induction false} StarLeaves(p: string, t: string) returns (k: nat)
    requires p != "" && p[0] == '*' && Matches(p, t)
    ensures k <= |t| && Matches(p[1..], t[k..])
    decreases |t|
  {
    if Matches(p[1..], t) {
      k := 0;
      assert t[0..] == t;
    } else {
      k := StarLeaves(p, t[1..]);
      assert t[1..][k..] == t[k + 1..];
      k := k + 1;
    }
  }

  /** An accepted segment can be put in front of a match. */
  lemma {:induction false} LiterallyThen(seg: string, t: string, p: string, u: string)
    requires Literally(seg, t) && Matches(p, u)
    ensures Matches(seg + p, t + u)
  {
    if seg == "" {
      assert seg + p == p && t + u == u;
    } else {
      LiterallyThen(seg[1..], t[1..], p, u);
      assert (seg + p)[1..] == seg[1..] + p;
      assert (t + u)[1..] == t[1..] + u;
      if seg[0] == '*' {
        StarTakes(seg + p, t + u, 1);
      }
    }
  }

  /** A segment without `*` takes exactly its own length. */
  lemma {:induction false} SegmentTakes(seg: string, p: string, t: string)
    requires '*' !in seg && Matches(seg + p, t)
    ensures |seg| <= |t| && Literally(seg, t[..|seg|]) && Matches(p, t[|seg|..])
  {
    if seg == "" {
      assert seg + p == p && t[0..] == t;
    } else {
      assert (seg + p)[0] == seg[0] && (seg + p)[1..] == seg[1..] + p;
      SegmentTakes(seg[1..], p, t[1..]);
      assert t[1..][|seg| - 1..] == t[|seg|..];
      assert t[..|seg|] == [t[0]] + t[1..][..|seg| - 1];
      assert seg == [seg[0]] + seg[1..];
    }
  }

  lemma {:induction false} NothingMatches(p: string)
    ensures Matches(p, "") <==> AllStars(p)
  {
    if p != "" {
      NothingMatches(p[1..]);
      assert p == [p[0]] + p[1..];
    }
  }

  // ---- The loop decides the meaning -----------------------------------------

  /** The pattern and the text a loop position still has to settle. */
  ghost predicate Pending(p: string, t: string, pi: nat, ti: nat, star: Option<nat>, matchFrom: nat)
    requires Position(p, t, pi, ti, star, matchFrom)
  {
    if star.Some? then Matches(p[star.value..], t[matchFrom..]) else Matches(p[pi..], t[ti..])
  }

  /** A match of what lies ahead is a match from the last `*`. */
  lemma AheadSuffices(p: string, t: string, pi: nat, ti: nat, star: Option<nat>, matchFrom: nat)
    requires Position(p, t, pi, ti, star, matchFrom) && Matches(p[pi..], t[ti..])
    ensures Pending(p, t, pi, ti, star, matchFrom)
  {
    if star.Some? {
      var s := star.value;
      LiterallyThen(p[s + 1..pi], t[matchFrom..ti], p[pi..], t[ti..]);
      assert p[s + 1..pi] + p[pi..] == p[s..][1..];
      assert t[matchFrom..ti] + t[ti..] == t[matchFrom..];
    }
  }

  /** Greed loses nothing: any match from the last `*` passes through the end of
      the segment accepted since, at or after the place the loop has reached. */
  lemma AheadIsNeeded(p: string, t: string, pi: nat, ti: nat, star: Option<nat>, matchFrom: nat) returns (k: nat)
    requires Position(p, t, pi, ti, star, matchFrom) && star.Some? && '*' !in p[star.value + 1..pi]
    requires Pending(p, t, pi, ti, star, matchFrom)
    ensures ti <= k <= |t| && Matches(p[pi..], t[k..])
    ensures !Matches(p[pi..], t[ti..]) ==> Matches(p[star.value + 1..], t[k - (ti - matchFrom)..]) && k > ti
  {
    var s, seg := star.value, p[star.value + 1..pi];
    var j := StarLeaves(p[s..], t[matchFrom..]);
    assert t[matchFrom..][j..] == t[matchFrom + j..];
    assert p[s..][1..] == seg + p[pi..];
    SegmentTakes(seg, p[pi..], t[matchFrom + j..]);
    k := matchFrom + j + |seg|;
    assert t[matchFrom + j..][|seg|..] == t[k..];
    assert p[s + 1..] == seg + p[pi..];
  }

  lemma {:induction false} ScanIsSound(p: string, t: string, pi: nat, ti: nat, star: Option<nat>, matchFrom: nat)
    requires Position(p, t, pi, ti, star, matchFrom) && Scan(p, t, pi, ti, star, matchFrom)
    ensures Pending(p, t, pi, ti, star, matchFrom)
    decreases if star.Some? then |p| - star.value else |p| + 1, |t| - matchFrom, |t| - ti
  {
    if ti == |t| {
      NothingMatches(p[pi..]);
      AheadSuffices(p, t, pi, ti, star, matchFrom);
    } else if pi < |p| && Accepts(p[pi], t[ti]) {
      ExtendLiterally(p, t, pi, ti, star, matchFrom);
      ScanIsSound(p, t, pi + 1, ti + 1, star, matchFrom);
      if star.None? {
        LiterallyThen([p[pi]], [t[ti]], p[pi + 1..], t[ti + 1..]);
        assert [p[pi]] + p[pi + 1..] == p[pi..] && [t[ti]] + t[ti + 1..] == t[ti..];
      }
    } else if pi < |p| && p[pi] == '*' {
      ScanIsSound(p, t, pi + 1, ti, Some(pi), ti);
      AheadSuffices(p, t, pi, ti, star, matchFrom);
    } else {
      ScanIsSound(p, t, star.value + 1, matchFrom + 1, star, matchFrom + 1);
      StarTakes(p[star.value..], t[matchFrom..], 1);
    }
  }

  /** The pattern between the last `*` and `pi` holds no `*` when the text has none. */
  lemma SegmentHasNoStar(p: string, t: string, pi: nat, ti: nat, star: Option<nat>, matchFrom: nat)
    requires Position(p, t, pi, ti, star, matchFrom) && star.Some? && '*' !in t
    ensures '*' !in p[star.value + 1..pi]
  {
  }

  /** Committing to a later `*` keeps every match. */
  lemma CommitKeeps(p: string, t: string, pi: nat, ti: nat, star: Option<nat>, matchFrom: nat)
    requires '*' !in t && Position(p, t, pi, ti, star, matchFrom) && Pending(p, t, pi, ti, star, matchFrom)
    requires pi < |p| && p[pi] == '*'
    ensures Matches(p[pi..], t[ti..])
  {
    if star.Some? {
      SegmentHasNoStar(p, t, pi, ti, star, matchFrom);
      var k := AheadIsNeeded(p, t, pi, ti, star, matchFrom);
      assert t[ti..][k - ti..] == t[k..];
      StarTakes(p[pi..], t[ti..], k - ti);
    }
  }

  /** Giving one more character to the last `*` keeps every match. */
  lemma RetryKeeps(p: string, t: string, pi: nat, ti: nat, star: Option<nat>, matchFrom: nat)
    requires '*' !in t && Position(p, t, pi, ti, star, matchFrom) && Pending(p, t, pi, ti, star, matchFrom)
    requires star.Some? && ti < |t| && !Matches(p[pi..], t[ti..])
    ensures Pending(p, t, star.value + 1, matchFrom + 1, star, matchFrom + 1)
  {
    SegmentHasNoStar(p, t, pi, ti, star, matchFrom);
    var k := AheadIsNeeded(p, t, pi, ti, star, matchFrom);
    var j := k - (ti - matchFrom);
    assert p[star.value..][1..] == p[star.value + 1..];
    assert t[matchFrom + 1..][j - matchFrom - 1..] == t[j..];
    StarTakes(p[star.value..], t[matchFrom + 1..], j - matchFrom - 1);
  }

  /** At the end of the text only stars may be left. */
  lemma EndKeeps(p: string, t: string, pi: nat, star: Option<nat>, matchFrom: nat)
    requires '*' !in t && Position(p, t, pi, |t|, star, matchFrom) && Pending(p, t, pi, |t|, star, matchFrom)
    ensures AllStars(p[pi..])
  {
    if star.Some? {
      SegmentHasNoStar(p, t, pi, |t|, star, matchFrom);
      var k := AheadIsNeeded(p, t, pi, |t|, star, matchFrom);
    }
    NothingMatches(p[pi..]);
  }

  lemma {:induction false} ScanIsComplete(p: string, t: string, pi: nat, ti: nat, star: Option<nat>, matchFrom: nat)
    requires '*' !in t
    requires Position(p, t, pi, ti, star, matchFrom) && Pending(p, t, pi, ti, star, matchFrom)
    ensures Scan(p, t, pi, ti, star, matchFrom)
    decreases if star.Some? then |p| - star.value else |p| + 1, |t| - matchFrom, |t| - ti
  {
    if ti == |t| {
      EndKeeps(p, t, pi, star, matchFrom);
    } else if pi < |p| && Accepts(p[pi], t[ti]) {
      assert t[ti] in t;
      ExtendLiterally(p, t, pi, ti, star, matchFrom);
      ScanIsComplete(p, t, pi + 1, ti + 1, star, matchFrom);
    } else if pi < |p| && p[pi] == '*' {
      CommitKeeps(p, t, pi, ti, star, matchFrom);
      ScanIsComplete(p, t, pi + 1, ti, Some(pi), ti);
    } else if star.Some? {
      RetryKeeps(p, t, pi, ti, star, matchFrom);
      ScanIsComplete(p, t, star.value + 1, matchFrom + 1, star, matchFrom + 1);
    }
  }

  /** A name the filter accepts really matches the pattern, whatever the name holds. */
  lemma DecideIsSound(p: string, t: string)
    ensures Decide(p, t) ==> Matches(p, t)
  {
    if Decide(p, t) {
      ScanIsSound(p, t, 0, 0, None, 0);
    }
  }

  /** For a text without `*` the loop decides the meaning exactly. */
  lemma DecideIsExact(p: string, t: string)
    requires '*' !in t
    ensures Decide(p, t) <==> Matches(p, t)
  {
    DecideIsSound(p, t);
    if Matches(p, t) {
      assert p[0..] == p && t[0..] == t;
      ScanIsComplete(p, t, 0, 0, None, 0);
    }
  }

  // ---- Exactly when the loop can be relied on ---------------------------------

  ghost predicate RightForEveryPattern(t: string) {
    forall p :: Decide(p, t) <==> Matches(p, t)
  }

  ghost predicate RightForEveryText(p: string) {
    forall t :: Decide(p, t) <==> Matches(p, t)
  }

  /** With no `*` committed to, the loop only walks literally. */
  lemma {:induction false} LiteralWalk(p: string, t: string, pi: nat, ti: nat, n: nat)
    requires pi + n <= |p| && ti + n <= |t| && Literally(p[pi..pi + n], t[ti..ti + n])
    ensures Scan(p, t, pi, ti, None, 0) == Scan(p, t, pi + n, ti + n, None, 0)
    decreases n
  {
    if n > 0 {
      assert p[pi..pi + n][0] == p[pi] && t[ti..ti + n][0] == t[ti];
      assert p[pi..pi + n][1..] == p[pi + 1..pi + n] && t[ti..ti + n][1..] == t[ti + 1..ti + n];
      LiteralWalk(p, t, pi + 1, ti + 1, n - 1);
    }
  }

  /** Without a `*` left to commit to, lengths have to agree. */
  lemma {:induction false} NoStarNeedsLength(p: string, t: string, pi: nat, ti: nat)
    requires pi <= |p| && ti <= |t| && '*' !in p[pi..] && |p| - pi != |t| - ti
    ensures !Scan(p, t, pi, ti, None, 0)
    decreases |t| - ti
  {
    if ti == |t| {
      assert p[pi..][0] != '*';
    } else if pi < |p| && Accepts(p[pi], t[ti]) {
      assert p[pi..][1..] == p[pi + 1..];
      NoStarNeedsLength(p, t, pi + 1, ti + 1);
    } else if pi < |p| {
      assert p[pi..][0] == p[pi];
    }
  }

  function Questions(n: nat): (s: string)
    ensures |s| == n && forall i | 0 <= i < n :: s[i] == '?'
  {
    seq(n, _ => '?')
  }

  /** A `*` in the text is eaten by a `*` of the pattern before it can stand for
      an empty run: `??…?*?…?` with one `?` for every character of the text. */
  lemma StarredTextMisleads(t: string)
    requires '*' in t
    ensures exists p :: Matches(p, t) && !Decide(p, t)
  {
    var i :| 0 <= i < |t| && t[i] == '*';
    QuestionsMatch(t, i);
    QuestionsAreMisread(t, i);
  }

  function OneForEach(t: string, i: nat): string
    requires i <= |t|
  {
    Questions(i) + "*" + Questions(|t| - i)
  }

  lemma QuestionsMatch(t: string, i: nat)
    requires i <= |t|
    ensures Matches(OneForEach(t, i), t)
  {
    hide Matches;
    var head, tail := Questions(i), Questions(|t| - i);
    LiterallyThen(tail, t[i..], "", "");
    assert Matches("", "") by { BothEmpty(); }
    assert tail + "" == tail && t[i..] + "" == t[i..];
    EmptyRun(tail, t[i..]);
    LiterallyThen(head, t[..i], "*" + tail, t[i..]);
    assert head + ("*" + tail) == OneForEach(t, i) && t[..i] + t[i..] == t;
  }

  lemma BothEmpty()
    ensures Matches("", "")
  {
  }

  lemma EmptyRun(p: string, t: string)
    requires Matches(p, t)
    ensures Matches("*" + p, t)
  {
    assert ("*" + p)[1..] == p;
  }

  lemma QuestionsAreMisread(t: string, i: nat)
    requires i < |t| && t[i] == '*'
    ensures !Decide(OneForEach(t, i), t)
  {
    hide Scan;
    var p := OneForEach(t, i);
    assert Literally(p[0..0 + (i + 1)], t[0..0 + (i + 1)]);
    LiteralWalk(p, t, 0, 0, i + 1);
    assert p[i + 1..] == Questions(|t| - i);
    NoStarNeedsLength(p, t, i + 1, i + 1);
  }

  /** The last `*` of a pattern. */
  lemma {:induction false} LastStar(p: string) returns (i: nat)
    requires '*' in p
    ensures i < |p| && p[i] == '*' && '*' !in p[i + 1..]
  {
    i := |p| - 1;
    while p[i] != '*'
      invariant i < |p| && '*' !in p[i + 1..]
      invariant '*' in p[..i + 1]
      decreases i
    {
      assert p[i..] == [p[i]] + p[i + 1..];
      assert p[..i + 1] == p[..i] + [p[i]];
      i := i - 1;
    }
  }

  /** A pattern with a `*` misreads itself with two characters put after its last `*`. */
  lemma StarredPatternIsMisled(p: string)
    requires '*' in p
    ensures exists t :: Matches(p, t) && !Decide(p, t)
  {
    var i := LastStar(p);
    var t := p[..i] + "*a" + p[i + 1..];
    assert Literally(p[i + 1..], p[i + 1..]);
    LiterallyThen(p[i + 1..], p[i + 1..], "", "");
    assert p[i + 1..] + "" == p[i + 1..];
    assert p[i..][1..] == p[i + 1..];
    assert ("*a" + p[i + 1..])[2..] == p[i + 1..];
    assert Matches(p[i..], p[i + 1..]);
    StarTakes(p[i..], "*a" + p[i + 1..], 2);
    assert Literally(p[..i], p[..i]);
    LiterallyThen(p[..i], p[..i], p[i..], "*a" + p[i + 1..]);
    assert p[..i] + p[i..] == p && p[..i] + ("*a" + p[i + 1..]) == t;
    assert p[0..0 + (i + 1)] == t[0..0 + (i + 1)];
    LiteralWalk(p, t, 0, 0, i + 1);
    NoStarNeedsLength(p, t, i + 1, i + 1);
  }

  /** A container name is judged rightly by every pattern exactly when it holds no `*`. */
  lemma RightExactlyForStarlessTexts(t: string)
    ensures RightForEveryPattern(t) <==> '*' !in t
  {
    if '*' in t {
      StarredTextMisleads(t);
    } else {
      forall p ensures Decide(p, t) <==> Matches(p, t) {
        DecideIsExact(p, t);
      }
    }
  }

  /** A pattern judges every name rightly exactly when it holds no `*` itself. */
  lemma RightExactlyForStarlessPatterns(p: string)
    ensures RightForEveryText(p) <==> '*' !in p
  {
    if '*' in p {
      StarredPatternIsMisled(p);
    } else {
      forall t ensures Decide(p, t) <==> Matches(p, t) {
        DecideIsSound(p, t);
        if Matches(p, t) {
          assert p + "" == p;
          SegmentTakes(p, "", t);
          assert t[..|p|] == t;
          assert Literally(p[0..0 + |p|], t[0..0 + |p|]);
          LiteralWalk(p, t, 0, 0, |p|);
        }
      }
    }
  }

  // ---- The include and exclude lists ------------------------------------------

  predicate AnyMatch(patterns: seq<string>, name: string) {
    exists i | 0 <= i < |patterns| :: Decide(patterns[i], name)
  }

  function PassesFilters(name: string, included: seq<string>, excluded: seq<string>): bool {
    if included != [] && !AnyMatch(included, name) then false else !AnyMatch(excluded, name)
  }

  /** An include list is an allow-list and an exclude list is applied within it. */
  lemma FiltersMeanTheirGlobs(name: string, included: seq<string>, excluded: seq<string>)
    requires '*' !in name
    ensures PassesFilters(name, included, excluded) <==>
            && (included == [] || exists i | 0 <= i < |included| :: Matches(included[i], name))
            && (forall i | 0 <= i < |excluded| :: !Matches(excluded[i], name))
  {
    forall p: string ensures Decide(p, name) <==> Matches(p, name) {
      DecideIsExact(p, name);
    }
  }
}
