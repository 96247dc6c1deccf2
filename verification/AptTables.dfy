/** Policies as apt prints them, and when reading the print gives their meaning. */
module AptTables {
  import opened Wrappers
  import opened Words
  import opened AptPolicy

  /** One version of a package and the sources it is available from. Its line may go on
      behind the priority, as with a phasing percentage; each source line begins with one. */
  datatype Version =
    Version(version: string, priority: string, suffix: seq<string>, installed: bool, sources: seq<seq<string>>)

  datatype Policy = Policy(name: string, installed: string, candidate: string, versions: seq<Version>)

  // ---- Printing ---------------------------------------------------------------------

  function VersionWords(v: Version): seq<string> {
    [v.version, v.priority] + v.suffix
  }

  function LastWord(v: Version): string {
    if v.suffix == [] then v.priority else v.suffix[|v.suffix| - 1]
  }

  function PrintSources(sources: seq<seq<string>>): seq<string> {
    if sources == [] then [] else [Pad(8) + Spaced(sources[0])] + PrintSources(sources[1..])
  }

  /** The installed version is marked with three stars. */
  function PrintVersion(v: Version): seq<string> {
    [if v.installed then Pad(1) + Spaced(["***"] + VersionWords(v)) else Pad(5) + Spaced(VersionWords(v))]
    + PrintSources(v.sources)
  }

  function PrintVersions(vs: seq<Version>): seq<string> {
    if vs == [] then [] else PrintVersion(vs[0]) + PrintVersions(vs[1..])
  }

  function PrintPolicy(p: Policy): seq<string> {
    PolicyHead(p) + PrintVersions(p.versions)
  }

  function Print(ps: seq<Policy>): seq<string> {
    if ps == [] then [] else PrintPolicy(ps[0]) + Print(ps[1..])
  }

  /** Priorities are whole numbers: a pin makes them negative. */
  predicate IsPriority(w: string) {
    ParsesAsU32(w) || (|w| > 1 && w[0] == '-' && AllDigits(w[1..]))
  }

  predicate VersionFits(v: Version) {
    && IsWord(v.version) && v.version != "***" && v.version[|v.version| - 1] != ':'
    && IsWord(v.priority) && IsPriority(v.priority)
    && AllWords(v.suffix) && (forall i | 0 <= i < |v.suffix| :: !LowerContains(v.suffix[i], SECURITY))
    && forall i | 0 <= i < |v.sources| :: SourceFits(v.sources[i])
  }

  /** A source begins with a priority and does not end with a number. */
  predicate SourceFits(words: seq<string>) {
    && words != [] && AllWords(words) && IsPriority(words[0])
    && (|words| > 1 ==> !ParsesAsU32(words[|words| - 1]))
  }

  /** A policy apt could print: words where words belong, and each version once. */
  predicate Fits(p: Policy) {
    && IsWord(p.name) && p.name[|p.name| - 1] != ':'
    && IsWord(p.installed) && IsWord(p.candidate)
    && (forall i | 0 <= i < |p.versions| :: VersionFits(p.versions[i]))
    && (forall i, j | 0 <= i < j < |p.versions| :: p.versions[i].version != p.versions[j].version)
  }

  /** A package asked for twice is answered twice alike. */
  predicate AllFit(ps: seq<Policy>) {
    && (forall i | 0 <= i < |ps| :: Fits(ps[i]))
    && (forall i, j | 0 <= i < j < |ps| && ps[i].name == ps[j].name :: ps[i] == ps[j])
  }

  // ---- Meaning -------------------------------------------------------------------------

  predicate IsSecurity(source: seq<string>) {
    LowerContains(Spaced(source), "-security")
  }

  predicate HasSecuritySource(v: Version) {
    exists k | 0 <= k < |v.sources| :: IsSecurity(v.sources[k])
  }

  /** The wanted version of the package is available from a security source. */
  predicate Selects(versions: seq<Version>, wanted: Option<string>) {
    exists j | 0 <= j < |versions| :: wanted == Some(versions[j].version) && HasSecuritySource(versions[j])
  }

  ghost predicate IsSecurityUpdate(ps: seq<Policy>, pending: seq<Pending>, name: string) {
    exists i, j | 0 <= i < |ps| && 0 <= j < |ps[i].versions| ::
      ps[i].name == name && IsWanted(pending, name, ps[i].versions[j].version) && HasSecuritySource(ps[i].versions[j])
  }

  /** So it is selected by what is wanted. */
  lemma UpdatesAreSelected(ps: seq<Policy>, pending: seq<Pending>, name: string)
    ensures IsSecurityUpdate(ps, pending, name) <==>
            exists i | 0 <= i < |ps| :: ps[i].name == name && Selects(ps[i].versions, Wanted(pending, name))
  {
    hide IsWanted, HasSecuritySource, Wanted;
    WantedIsAlwaysTheLast(pending);
  }

  // ---- What the printed lines are taken for ------------------------------------------------

  function KindOfWords(words: seq<string>): Kind
    requires words != []
  {
    if ParsesAsU32(words[0]) then Source(LowerContains(Spaced(words), SECURITY))
    else if |words| > 1 && ParsesAsU32(words[|words| - 1]) then Entry(words[0])
    else Other
  }

  lemma StarsStripped(words: seq<string>)
    requires words != [] && AllWords(words)
    ensures StripStars(Spaced(words)) == if |words| > 1 && words[0] == "***" then Spaced(words[1..]) else Spaced(words)
  {
    if |words| == 1 {
      WordKeepsStars(words[0]);
    } else {
      WordThenRest(words[0], Spaced(words[1..]));
    }
  }

  lemma WordKeepsStars(w: string)
    requires IsWord(w)
    ensures StripStars(w) == w
  {
    assert STARS[3] == ' ';
    if |w| > 3 { assert w[3] != STARS[3]; }
  }

  /** Only the word of three stars is a marker. */
  lemma WordThenRest(w: string, rest: string)
    requires IsWord(w)
    ensures StripStars(w + " " + rest) == if w == "***" then rest else w + " " + rest
  {
    var s := w + " " + rest;
    assert s[|w|] == ' ' && forall i | 0 <= i < |w| :: s[i] == w[i];
    assert STARS == "***" + " ";
    if w == "***" {
      assert STARS <= s && s[|STARS|..] == rest;
    } else if |w| == 3 {
      assert s[..3] == w && STARS[..3] == "***";
    } else if |w| < 3 {
      assert s[|w|] != STARS[|w|];
    } else {
      assert s[3] != STARS[3];
    }
  }

  lemma PaddedKind(n: nat, words: seq<string>)
    requires n > 0 && words != [] && AllWords(words)
    ensures Classify(Pad(n) + Spaced(words)) ==
            if |words| > 1 && words[0] == "***" then KindOfWords(words[1..]) else KindOfWords(words)
  {
    hide Classify, ClassifyWords, KindOfWords, Spaced, StripStars, IsWord, IsSpace;
    SpacedEnds(words);
    PaddedIsTrimmed(n, Spaced(words));
    StarsStripped(words);
    SpacedKind(if |words| > 1 && words[0] == "***" then words[1..] else words);
  }

  lemma PaddedIsTrimmed(n: nat, s: string)
    requires n > 0 && s != "" && !IsSpace(s[0]) && !IsSpace(s[|s| - 1])
    ensures Classify(Pad(n) + s) == ClassifyWords(StripStars(s))
  {
    hide ClassifyWords, StripStars, Trim;
    assert (Pad(n) + s)[0] == ' ';
    TrimPadded(n, s);
  }

  lemma SpacedKind(words: seq<string>)
    requires words != [] && AllWords(words)
    ensures ClassifyWords(Spaced(words)) == KindOfWords(words)
  {
    hide ParsesAsU32, LowerContains, Spaced, Tokens;
    TokensOfSpaced(words);
  }

  lemma HeaderKind(name: string)
    requires IsWord(name) && name[|name| - 1] != ':'
    ensures Classify(name + ":") == Header(name)
  {
    var line := name + ":";
    assert line[..|name|] == name && line[|name|] == ':' && line[0] == name[0];
    assert TrimColons(line) == TrimColons(name) == name;
  }

  /** A source with a negative priority is not recognised. */
  function SourceKind(source: seq<string>): Kind
    requires source != []
  {
    if ParsesAsU32(source[0]) then Source(IsSecurity(source)) else Other
  }

  function SourceKinds(sources: seq<seq<string>>): seq<Kind>
    requires forall i | 0 <= i < |sources| :: sources[i] != []
  {
    if sources == [] then [] else [SourceKind(sources[0])] + SourceKinds(sources[1..])
  }

  /** A version that is itself a number is taken for a source line, and one whose line
      does not end in a number, by a negative priority or a suffix, is not recognised. */
  function VersionKind(v: Version): Kind {
    if ParsesAsU32(v.version) then Source(false)
    else if ParsesAsU32(LastWord(v)) then Entry(v.version)
    else Other
  }

  predicate HasWords(v: Version) {
    forall i | 0 <= i < |v.sources| :: v.sources[i] != []
  }

  predicate AllHaveWords(vs: seq<Version>) {
    forall i | 0 <= i < |vs| :: HasWords(vs[i])
  }

  function VersionKinds(v: Version): seq<Kind>
    requires HasWords(v)
  {
    [VersionKind(v)] + SourceKinds(v.sources)
  }

  function VersionsKinds(vs: seq<Version>): seq<Kind>
    requires AllHaveWords(vs)
  {
    if vs == [] then [] else VersionKinds(vs[0]) + VersionsKinds(vs[1..])
  }

  function PolicyKinds(p: Policy): seq<Kind>
    requires AllHaveWords(p.versions)
  {
    [Header(p.name), KindOfWords(["Installed:", p.installed]), KindOfWords(["Candidate:", p.candidate]), Other]
    + VersionsKinds(p.versions)
  }

  predicate PoliciesHaveWords(ps: seq<Policy>) {
    forall i | 0 <= i < |ps| :: AllHaveWords(ps[i].versions)
  }

  function AllKinds(ps: seq<Policy>): seq<Kind>
    requires PoliciesHaveWords(ps)
  {
    if ps == [] then [] else PolicyKinds(ps[0]) + AllKinds(ps[1..])
  }

  lemma NoLetterNoSuite(s: string)
    requires forall c | c in s :: Lower(c) != 's'
    ensures !LowerContains(s, SECURITY)
  {
    forall o: nat ensures !LowerOccursAt(s, SECURITY, o) {
      SuiteHasLetter(s, o);
    }
  }

  lemma SuiteHasLetter(s: string, o: nat)
    ensures LowerOccursAt(s, SECURITY, o) ==> exists c | c in s :: Lower(c) == 's'
  {
    if LowerOccursAt(s, SECURITY, o) {
      assert Lower(s[o + 1]) == SECURITY[1] == 's';
      assert s[o + 1] in s;
    }
  }

  lemma NumbersHaveNoLetter(s: string)
    requires IsPriority(s)
    ensures forall c | c in s :: Lower(c) != 's'
  {
    hide DecimalValue;
    if |s| > 1 { assert s == [s[0]] + s[1..]; }
  }

  /** A word is found in words with spaces between them only inside one of them. */
  lemma {:induction false} FoundInAWord(words: seq<string>, sub: string)
    requires sub != "" && ' ' !in sub && forall i | 0 <= i < |words| :: !LowerContains(words[i], sub)
    ensures !LowerContains(Spaced(words), sub)
  {
    if |words| > 1 {
      FoundInAWord(words[1..], sub);
      hide Spaced;
      var w, rest := words[0], Spaced(words[1..]);
      forall o: nat ensures !LowerOccursAt(w + " " + rest, sub, o) {
        FoundInAPart(w, rest, sub, o);
      }
      assert Spaced(words) == w + " " + rest by { SpacedParts(words); }
    }
  }

  lemma SpacedParts(words: seq<string>)
    requires |words| > 1
    ensures Spaced(words) == words[0] + " " + Spaced(words[1..])
  {
  }

  lemma FoundInAPart(w: string, rest: string, sub: string, o: nat)
    requires sub != "" && ' ' !in sub
    ensures LowerOccursAt(w + " " + rest, sub, o) ==> LowerContains(w, sub) || LowerContains(rest, sub)
  {
    var s := w + " " + rest;
    if LowerOccursAt(s, sub, o) {
      NoSpaceInside(s, sub, o, |w|);
      if o < |w| {
        assert LowerOccursAt(w, sub, o);
      } else {
        assert LowerOccursAt(rest, sub, o - |w| - 1);
      }
    }
  }

  lemma NoSpaceInside(s: string, sub: string, o: nat, i: nat)
    requires ' ' !in sub && LowerOccursAt(s, sub, o) && i < |s| && s[i] == ' '
    ensures i < o || o + |sub| <= i
  {
    forall j | o <= j < o + |sub| ensures s[j] != ' ' {
      assert Lower(s[o + (j - o)]) == sub[j - o] && sub[j - o] in sub;
    }
  }

  lemma VersionLineKind(v: Version)
    requires VersionFits(v)
    ensures Classify(PrintVersion(v)[0]) == VersionKind(v)
  {
    VersionWordsKind(v);
    var words := VersionWords(v);
    if v.installed {
      PaddedKind(1, ["***"] + words);
      assert (["***"] + words)[1..] == words;
    } else {
      PaddedKind(5, words);
    }
  }

  lemma VersionWordsKind(v: Version)
    requires VersionFits(v)
    ensures KindOfWords(VersionWords(v)) == VersionKind(v)
  {
    hide ParsesAsU32, IsPriority, LowerContains;
    var words := VersionWords(v);
    if ParsesAsU32(v.version) {
      PositiveIsPriority(v.version);
      NumbersHaveNoLetter(v.version);
      NumbersHaveNoLetter(v.priority);
      NoLetterNoSuite(v.version);
      NoLetterNoSuite(v.priority);
      forall i | 0 <= i < |words| ensures !LowerContains(words[i], SECURITY) {
        if i > 1 { assert words[i] == v.suffix[i - 2]; }
      }
      FoundInAWord(words, SECURITY);
    }
  }

  lemma PositiveIsPriority(w: string)
    requires ParsesAsU32(w)
    ensures IsPriority(w)
  {
  }

  lemma KindsConcat(a: seq<string>, b: seq<string>)
    ensures Kinds(a + b) == Kinds(a) + Kinds(b)
  {
    hide Classify;
  }

  lemma {:induction false} SourcesKinds(sources: seq<seq<string>>)
    requires forall i | 0 <= i < |sources| :: SourceFits(sources[i])
    ensures forall i | 0 <= i < |sources| :: sources[i] != []
    ensures Kinds(PrintSources(sources)) == SourceKinds(sources)
  {
    hide Classify, KindOfWords, IsSecurity, Spaced, IsPriority, ParsesAsU32, AllWords, SourceKind;
    if sources != [] {
      SourceLineKind(sources[0]);
      SourcesKinds(sources[1..]);
      KindsConcat([Pad(8) + Spaced(sources[0])], PrintSources(sources[1..]));
    }
  }

  lemma SourceLineKind(words: seq<string>)
    requires SourceFits(words)
    ensures Classify(Pad(8) + Spaced(words)) == SourceKind(words)
  {
    hide Classify, IsWord, LowerContains;
    PaddedKind(8, words);
    assert words[0] != "***" by { StarsAreNoPriority(); }
  }

  lemma StarsAreNoPriority()
    ensures !IsPriority("***")
  {
    assert !IsDigit("***"[0]);
  }

  lemma VersionPrintKinds(v: Version)
    requires VersionFits(v)
    ensures HasWords(v) && Kinds(PrintVersion(v)) == VersionKinds(v)
  {
    VersionLineKind(v);
    SourcesKinds(v.sources);
    hide Classify, VersionKind, SourceFits, IsPriority, VersionWords, IsSecurity, ParsesAsU32, Spaced, SourceKinds;
    var lines := PrintVersion(v);
    assert lines == [lines[0]] + PrintSources(v.sources);
    KindsConcat([lines[0]], PrintSources(v.sources));
    assert Kinds([lines[0]]) == [Classify(lines[0])];
  }

  lemma {:induction false} VersionsPrintKinds(vs: seq<Version>)
    requires forall i | 0 <= i < |vs| :: VersionFits(vs[i])
    ensures AllHaveWords(vs) && Kinds(PrintVersions(vs)) == VersionsKinds(vs)
  {
    hide Classify, VersionFits, PrintVersion, VersionKinds, HasWords;
    if vs != [] {
      VersionPrintKinds(vs[0]);
      VersionsPrintKinds(vs[1..]);
      KindsConcat(PrintVersion(vs[0]), PrintVersions(vs[1..]));
    }
  }

  function PolicyHead(p: Policy): seq<string> {
    [p.name + ":", Pad(2) + Spaced(["Installed:", p.installed]), Pad(2) + Spaced(["Candidate:", p.candidate]),
     Pad(2) + Spaced(["Version", "table:"])]
  }

  lemma NamedLineKind(title: string, value: string)
    requires IsWord(title) && IsWord(value) && title != "***"
    ensures Classify(Pad(2) + Spaced([title, value])) == KindOfWords([title, value])
  {
    hide Classify, KindOfWords, Spaced;
    PaddedKind(2, [title, value]);
  }

  lemma HeadKinds(p: Policy)
    requires Fits(p)
    ensures Kinds(PolicyHead(p)) == [Header(p.name), KindOfWords(["Installed:", p.installed]),
                                     KindOfWords(["Candidate:", p.candidate]), Other]
  {
    hide Classify, KindOfWords, Spaced, Pad, IsWord, VersionFits;
    IsWords();
    HeaderKind(p.name);
    NamedLineKind("Installed:", p.installed);
    NamedLineKind("Candidate:", p.candidate);
    NamedLineKind("Version", "table:");
    TableLineIsOther();
  }

  lemma TableLineIsOther()
    ensures KindOfWords(["Version", "table:"]) == Other
  {
    NotNumbers();
  }

  lemma PolicyPrintKinds(p: Policy)
    requires Fits(p)
    ensures AllHaveWords(p.versions) && Kinds(PrintPolicy(p)) == PolicyKinds(p)
  {
    HeadKinds(p);
    VersionsPrintKinds(p.versions);
    hide Classify, KindOfWords, VersionsKinds, PrintVersions, AllHaveWords;
    KindsConcat(PolicyHead(p), PrintVersions(p.versions));
  }

  lemma IsWords()
    ensures IsWord("Installed:") && IsWord("Candidate:") && IsWord("Version") && IsWord("table:")
  {
  }

  lemma NotNumbers()
    ensures !ParsesAsU32("Installed:") && !ParsesAsU32("Candidate:") && !ParsesAsU32("Version") && !ParsesAsU32("table:")
  {
    assert !IsDigit("Installed:"[0]) && !IsDigit("Candidate:"[0]) && !IsDigit("Version"[0]) && !IsDigit("table:"[0]);
  }

  /** Every printed line is taken for what it is, but for versions that are numbers, for
      negative priorities, and for what stands behind a version's priority. */
  lemma {:induction false} PrintKinds(ps: seq<Policy>)
    requires forall i | 0 <= i < |ps| :: Fits(ps[i])
    ensures PoliciesHaveWords(ps) && Kinds(Print(ps)) == AllKinds(ps)
  {
    hide Classify, Fits, PolicyKinds, PrintPolicy, AllHaveWords;
    if ps != [] {
      PolicyPrintKinds(ps[0]);
      PrintKinds(ps[1..]);
      KindsConcat(PrintPolicy(ps[0]), Print(ps[1..]));
    }
  }

  // ---- Running over a printed policy -------------------------------------------------------------

  /** Some security source of the version is recognised. */
  predicate ShowsSecurity(v: Version)
    requires HasWords(v)
  {
    exists k | 0 <= k < |v.sources| :: SourceKind(v.sources[k]) == Source(true)
  }

  /** The line of the version is recognised as an entry. */
  predicate IsEntry(v: Version) {
    VersionKind(v).Entry?
  }

  lemma {:induction false} RunSources(st: Scan, sources: seq<seq<string>>, pending: seq<Pending>)
    requires st.package.Some? && forall i | 0 <= i < |sources| :: sources[i] != []
    ensures Run(st, SourceKinds(sources), pending) ==
            if st.inCandidate && exists k | 0 <= k < |sources| :: SourceKind(sources[k]) == Source(true)
            then st.(security := st.security + {st.package.value}) else st
    decreases |sources|
  {
    hide IsSecurity, ParsesAsU32;
    if sources != [] {
      var next := Next(st, SourceKind(sources[0]), pending);
      assert SourceKinds(sources)[1..] == SourceKinds(sources[1..]);
      RunSources(next, sources[1..], pending);
      assert (exists k | 0 <= k < |sources| :: SourceKind(sources[k]) == Source(true)) <==>
             SourceKind(sources[0]) == Source(true)
             || exists k | 0 <= k < |sources[1..]| :: SourceKind(sources[1..][k]) == Source(true) by {
        if k :| 0 <= k < |sources| && SourceKind(sources[k]) == Source(true) {
          if k > 0 { assert sources[1..][k - 1] == sources[k]; }
        }
      }
    }
  }

  lemma RunVersion(st: Scan, v: Version, pending: seq<Pending>)
    requires st.package.Some? && HasWords(v)
    ensures var end := Run(st, VersionKinds(v), pending);
            && end.package == st.package
            && end.inCandidate == (if IsEntry(v) then Wanted(pending, st.package.value) == Some(v.version) else st.inCandidate)
            && end.security == if end.inCandidate && ShowsSecurity(v) then st.security + {st.package.value} else st.security
  {
    hide ParsesAsU32, SourceKind;
    var next := Next(st, VersionKind(v), pending);
    assert VersionKinds(v)[1..] == SourceKinds(v.sources);
    RunSources(next, v.sources, pending);
  }

  /** A recognised security source stands under the wanted version, or under none while
      the wanted one was already open. */
  predicate Catches(vs: seq<Version>, wanted: Option<string>, open: bool)
    requires AllHaveWords(vs)
  {
    vs != [] &&
    var now := if IsEntry(vs[0]) then wanted == Some(vs[0].version) else open;
    (now && ShowsSecurity(vs[0])) || Catches(vs[1..], wanted, now)
  }

  lemma {:induction false} RunVersions(st: Scan, vs: seq<Version>, pending: seq<Pending>)
    requires st.package.Some? && AllHaveWords(vs)
    ensures var end := Run(st, VersionsKinds(vs), pending);
            && end.package == st.package
            && end.security == if Catches(vs, Wanted(pending, st.package.value), st.inCandidate)
                               then st.security + {st.package.value} else st.security
    decreases |vs|
  {
    hide ShowsSecurity, VersionKinds, IsEntry, HasWords;
    if vs != [] {
      RunVersion(st, vs[0], pending);
      RunConcat(st, VersionKinds(vs[0]), VersionsKinds(vs[1..]), pending);
      RunVersions(Run(st, VersionKinds(vs[0]), pending), vs[1..], pending);
    }
  }

  /** An installed or candidate version that is a number makes its line look like an
      entry for the line's own title. */
  predicate OpenBefore(p: Policy, wanted: Option<string>) {
    if ParsesAsU32(p.candidate) then wanted == Some("Candidate:")
    else ParsesAsU32(p.installed) && wanted == Some("Installed:")
  }

  /** Reading the policy takes its package for a security update. */
  predicate Caught(p: Policy, pending: seq<Pending>)
    requires AllHaveWords(p.versions)
  {
    Catches(p.versions, Wanted(pending, p.name), OpenBefore(p, Wanted(pending, p.name)))
  }

  lemma RunPolicy(st: Scan, p: Policy, pending: seq<Pending>)
    requires AllHaveWords(p.versions)
    ensures Run(st, PolicyKinds(p), pending).security == if Caught(p, pending) then st.security + {p.name} else st.security
  {
    hide Catches, VersionsKinds, AllHaveWords, Wanted;
    var head := PolicyKinds(p)[..4];
    assert PolicyKinds(p) == head + VersionsKinds(p.versions);
    RunConcat(st, head, VersionsKinds(p.versions), pending);
    HeadLineKind("Installed:", p.installed);
    HeadLineKind("Candidate:", p.candidate);
    RunHead(st, head, pending);
    RunVersions(Run(st, head, pending), p.versions, pending);
  }

  lemma HeadLineKind(title: string, value: string)
    requires title == "Installed:" || title == "Candidate:"
    ensures KindOfWords([title, value]) == if ParsesAsU32(value) then Entry(title) else Other
  {
    hide ParsesAsU32, LowerContains;
    NotNumbers();
  }

  lemma RunHead(st: Scan, ks: seq<Kind>, pending: seq<Pending>)
    requires |ks| == 4 && ks[0].Header? && ks[3] == Other
    requires ks[1] == Other || ks[1].Entry?
    requires ks[2] == Other || ks[2].Entry?
    ensures var end := Run(st, ks, pending);
            var wanted := Wanted(pending, ks[0].name);
            && end.package == Some(ks[0].name) && end.security == st.security
            && end.inCandidate == if ks[2].Entry? then wanted == Some(ks[2].version)
                                  else ks[1].Entry? && wanted == Some(ks[1].version)
  {
    hide Wanted;
    var a := Next(st, ks[0], pending);
    var b := Next(a, ks[1], pending);
    var c := Next(b, ks[2], pending);
    assert ks[1..][0] == ks[1] && ks[1..][1..] == ks[2..] && ks[2..][1..] == ks[3..] && ks[3..][1..] == [];
    assert Run(st, ks, pending) == Run(a, ks[1..], pending) == Run(b, ks[2..], pending) == Run(c, ks[3..], pending);
    assert Run(c, ks[3..], pending) == Run(c, [], pending);
  }

  ghost predicate AnyCaught(ps: seq<Policy>, pending: seq<Pending>, name: string)
    requires PoliciesHaveWords(ps)
  {
    exists i | 0 <= i < |ps| :: ps[i].name == name && Caught(ps[i], pending)
  }

  /** Whatever was printed, reading finds exactly the packages that are caught. */
  lemma {:induction false} RunAll(st: Scan, ps: seq<Policy>, pending: seq<Pending>)
    requires PoliciesHaveWords(ps)
    ensures forall name :: name in Run(st, AllKinds(ps), pending).security <==> name in st.security || AnyCaught(ps, pending, name)
    decreases |ps|
  {
    hide AllHaveWords, Caught, PolicyKinds;
    if ps != [] {
      var p := ps[0];
      RunPolicy(st, p, pending);
      RunConcat(st, PolicyKinds(p), AllKinds(ps[1..]), pending);
      RunAll(Run(st, PolicyKinds(p), pending), ps[1..], pending);
      forall name
        ensures AnyCaught(ps, pending, name) <==> (p.name == name && Caught(p, pending)) || AnyCaught(ps[1..], pending, name)
      {
        if i :| 0 <= i < |ps| && ps[i].name == name && Caught(ps[i], pending) {
          if i > 0 { assert ps[1..][i - 1] == ps[i]; }
        }
        if i :| 0 <= i < |ps[1..]| && ps[1..][i].name == name && Caught(ps[1..][i], pending) {
          assert ps[i + 1] == ps[1..][i];
        }
      }
    }
  }

  // ---- Exactly when the reading is right ------------------------------------------------------------

  /** Reading the print of these policies finds the security updates, whatever is pending. */
  ghost predicate ReadRightly(ps: seq<Policy>) {
    forall pending, name ::
      name in Run(START, Kinds(Print(ps)), pending).security <==> IsSecurityUpdate(ps, pending, name)
  }

  /** A version with a security source is no number, its line ends in one, and it has such
      a source with no negative priority. */
  predicate Recognised(v: Version)
    requires HasWords(v)
  {
    HasSecuritySource(v) ==> IsEntry(v) && ShowsSecurity(v)
  }

  predicate VersionsRecognised(vs: seq<Version>)
    requires AllHaveWords(vs)
  {
    forall j | 0 <= j < |vs| :: Recognised(vs[j])
  }

  predicate AllRecognised(ps: seq<Policy>)
    requires PoliciesHaveWords(ps)
  {
    forall i | 0 <= i < |ps| :: VersionsRecognised(ps[i].versions)
  }

  lemma ShownIsThere(v: Version)
    requires HasWords(v)
    ensures ShowsSecurity(v) ==> HasSecuritySource(v)
  {
    hide ParsesAsU32, IsSecurity;
  }

  lemma {:induction false} RecognisedIsCaught(vs: seq<Version>, wanted: Option<string>, open: bool)
    requires AllHaveWords(vs) && VersionsRecognised(vs)
    ensures Catches(vs, wanted, open) <==> Selects(vs, wanted)
    decreases |vs|
  {
    hide ShowsSecurity, HasSecuritySource, IsEntry, HasWords;
    if vs != [] {
      var now := if IsEntry(vs[0]) then wanted == Some(vs[0].version) else open;
      ShownIsThere(vs[0]);
      RecognisedIsCaught(vs[1..], wanted, now);
      SelectsHeadOrTail(vs, wanted);
    }
  }

  lemma SelectsHeadOrTail(vs: seq<Version>, wanted: Option<string>)
    requires vs != []
    ensures Selects(vs, wanted) <==> (wanted == Some(vs[0].version) && HasSecuritySource(vs[0])) || Selects(vs[1..], wanted)
  {
    hide HasSecuritySource;
    if Selects(vs, wanted) {
      var j :| 0 <= j < |vs| && wanted == Some(vs[j].version) && HasSecuritySource(vs[j]);
      if j > 0 { assert vs[1..][j - 1] == vs[j]; }
    }
    if Selects(vs[1..], wanted) {
      var j :| 0 <= j < |vs[1..]| && wanted == Some(vs[1..][j].version) && HasSecuritySource(vs[1..][j]);
      assert vs[j + 1] == vs[1..][j];
    }
  }

  /** What is no entry is never caught. */
  lemma {:induction false} NoEntryNotCaught(vs: seq<Version>, wanted: string)
    requires AllHaveWords(vs) && forall k | 0 <= k < |vs| :: IsEntry(vs[k]) ==> vs[k].version != wanted
    ensures !Catches(vs, Some(wanted), false)
    decreases |vs|
  {
    hide ShowsSecurity, IsEntry, HasWords;
    if vs != [] {
      NoEntryNotCaught(vs[1..], wanted);
    }
  }

  /** Nor is what shows no security source, when only entries show one. */
  lemma {:induction false} NotShownNotCaught(vs: seq<Version>, wanted: string, open: bool)
    requires AllHaveWords(vs)
    requires forall k | 0 <= k < |vs| :: ShowsSecurity(vs[k]) ==> IsEntry(vs[k]) && vs[k].version != wanted
    ensures !Catches(vs, Some(wanted), open)
    decreases |vs|
  {
    hide ShowsSecurity, IsEntry, HasWords;
    if vs != [] {
      var now := if IsEntry(vs[0]) then wanted == vs[0].version else open;
      NotShownNotCaught(vs[1..], wanted, now);
    }
  }

  lemma OnlyOne(name: string, candidate: string)
    ensures Wanted([Pending(name, candidate)], name) == Some(candidate)
  {
  }

  /** A version that is wanted and has a security source, yet is not caught. */
  lemma Missed(ps: seq<Policy>, i: nat, j: nat)
    requires AllFit(ps) && PoliciesHaveWords(ps) && i < |ps| && j < |ps[i].versions|
    requires HasSecuritySource(ps[i].versions[j])
    requires !Caught(ps[i], [Pending(ps[i].name, ps[i].versions[j].version)])
    ensures !ReadRightly(ps)
  {
    hide Fits, Caught, HasSecuritySource, AllHaveWords;
    var p, v := ps[i], ps[i].versions[j];
    var pending := [Pending(p.name, v.version)];
    OnlyOne(p.name, v.version);
    assert Selects(p.versions, Wanted(pending, p.name));
    assert IsSecurityUpdate(ps, pending, p.name);
    PrintKinds(ps);
    RunAll(START, ps, pending);
    forall k | 0 <= k < |ps| && ps[k].name == p.name ensures !Caught(ps[k], pending) {
      assert ps[k] == p;
    }
    assert !AnyCaught(ps, pending, p.name);
  }

  /** A version that is not recognised, such that every version shown in its policy is
      an entry unless it is none itself. */
  lemma UnrecognisedIsMissed(ps: seq<Policy>, i: nat, j: nat)
    requires AllFit(ps) && PoliciesHaveWords(ps) && i < |ps| && j < |ps[i].versions|
    requires !Recognised(ps[i].versions[j])
    requires !IsEntry(ps[i].versions[j]) || forall k | 0 <= k < |ps[i].versions| :: ShowsSecurity(ps[i].versions[k]) ==> IsEntry(ps[i].versions[k])
    ensures !ReadRightly(ps)
  {
    hide ShowsSecurity, HasSecuritySource, IsEntry, AllHaveWords, VersionFits, ParsesAsU32, Wanted;
    var p, v := ps[i], ps[i].versions[j];
    assert Fits(p);
    VersionsDiffer(p, j);
    OnlyOne(p.name, v.version);
    NoColon(p, j);
    if IsEntry(v) {
      NotShownNotCaught(p.versions, v.version, OpenBefore(p, Some(v.version)));
    } else {
      NoEntryNotCaught(p.versions, v.version);
    }
    Missed(ps, i, j);
  }

  lemma VersionsDiffer(p: Policy, j: nat)
    requires Fits(p) && j < |p.versions|
    ensures forall k | 0 <= k < |p.versions| :: p.versions[k].version == p.versions[j].version ==> k == j
  {
  }

  lemma NoColon(p: Policy, j: nat)
    requires Fits(p) && j < |p.versions|
    ensures !OpenBefore(p, Some(p.versions[j].version))
  {
    hide ParsesAsU32;
    assert VersionFits(p.versions[j]);
    assert "Candidate:"[9] == ':' && "Installed:"[9] == ':';
  }

  /** Whatever is pending, the reading is right exactly when every version with a
      security source is recognised with it. */
  lemma ReadRightlyExactlyWhenRecognised(ps: seq<Policy>)
    requires AllFit(ps)
    ensures PoliciesHaveWords(ps) && (ReadRightly(ps) <==> AllRecognised(ps))
  {
    PrintKinds(ps);
    if AllRecognised(ps) {
      forall pending: seq<Pending>, name: string
        ensures name in Run(START, Kinds(Print(ps)), pending).security <==> IsSecurityUpdate(ps, pending, name)
      {
        RunAll(START, ps, pending);
        CaughtIsSecurity(ps, pending, name);
      }
    } else {
      SomeIsMissed(ps);
    }
  }

  lemma CaughtIsSecurity(ps: seq<Policy>, pending: seq<Pending>, name: string)
    requires PoliciesHaveWords(ps) && AllRecognised(ps)
    ensures AnyCaught(ps, pending, name) <==> IsSecurityUpdate(ps, pending, name)
  {
    hide Catches, Selects, VersionsRecognised, AllHaveWords, Wanted, OpenBefore, IsSecurityUpdate;
    UpdatesAreSelected(ps, pending, name);
    forall i | 0 <= i < |ps|
      ensures Caught(ps[i], pending) <==> Selects(ps[i].versions, Wanted(pending, ps[i].name))
    {
      RecognisedIsCaught(ps[i].versions, Wanted(pending, ps[i].name), OpenBefore(ps[i], Wanted(pending, ps[i].name)));
    }
  }

  lemma SomeIsMissed(ps: seq<Policy>)
    requires AllFit(ps) && PoliciesHaveWords(ps) && !AllRecognised(ps)
    ensures !ReadRightly(ps)
  {
    hide AllFit, ReadRightly, HasWords, IsEntry, ShowsSecurity, HasSecuritySource;
    var i :| 0 <= i < |ps| && !VersionsRecognised(ps[i].versions);
    var vs := ps[i].versions;
    var j :| 0 <= j < |vs| && !Recognised(vs[j]);
    if k :| 0 <= k < |vs| && ShowsSecurity(vs[k]) && !IsEntry(vs[k]) {
      ShownIsThere(vs[k]);
      UnrecognisedIsMissed(ps, i, k);
    } else {
      UnrecognisedIsMissed(ps, i, j);
    }
  }

  /** Where no priority is negative, only versions that are numbers, or have something else
      behind their priority, go unrecognised. */
  lemma WithoutNegativePriorities(v: Version)
    requires HasWords(v) && ParsesAsU32(v.priority) && forall k | 0 <= k < |v.sources| :: ParsesAsU32(v.sources[k][0])
    ensures var hidden := v.suffix != [] && !ParsesAsU32(v.suffix[|v.suffix| - 1]);
            Recognised(v) <==> !((ParsesAsU32(v.version) || hidden) && HasSecuritySource(v))
  {
    hide ParsesAsU32, IsSecurity;
    if k :| 0 <= k < |v.sources| && IsSecurity(v.sources[k]) {
      assert SourceKind(v.sources[k]) == Source(true);
    }
  }

  const FIRST: Version := Version("a1", "500", [], true, [["500", "main"]])
  const SECOND: Version := Version("b2", "-1", [], false, [["500", "a-security"]])
  const PINNED: Policy := Policy("p", "a1", "a1", [FIRST, SECOND])

  lemma FiveHundred()
    ensures ParsesAsU32("500")
  {
    assert "500"[..2] == "50" && "50"[..1] == "5" && "5"[..0] == "";
    assert DecimalValue("5") == 5 && DecimalValue("50") == 50 && DecimalValue("500") == 500;
  }

  lemma WordsOfPinned()
    ensures !ParsesAsU32("a1") && !ParsesAsU32("-1")
  {
    assert !IsDigit("a1"[0]) && !IsDigit("-1"[0]);
  }

  lemma FirstIsAnEntry()
    ensures HasWords(FIRST) && IsEntry(FIRST) && !HasSecuritySource(FIRST)
  {
    FiveHundred();
    WordsOfPinned();
    assert |Spaced(["500", "main"])| == 8 by { assert ["500", "main"][1..] == ["main"]; }
  }

  lemma SecondIsNone()
    ensures HasWords(SECOND) && !IsEntry(SECOND) && ShowsSecurity(SECOND)
  {
    FiveHundred();
    WordsOfPinned();
    var text := Spaced(["500", "a-security"]);
    assert text == "500" + " " + "a-security" by { assert ["500", "a-security"][1..] == ["a-security"]; }
    assert LowerOccursAt(text, SECURITY, 5);
    assert SourceKind(SECOND.sources[0]) == Source(true);
  }

  lemma SourcesFit()
    ensures SourceFits(["500", "main"]) && SourceFits(["500", "a-security"])
  {
    FiveHundred();
    NoNumbers();
    hide ParsesAsU32;
  }

  lemma NoNumbers()
    ensures !ParsesAsU32("main") && !ParsesAsU32("a-security")
  {
    assert !IsDigit("main"[0]) && !IsDigit("a-security"[0]);
  }

  lemma VersionsFit()
    ensures VersionFits(FIRST) && VersionFits(SECOND)
  {
    FiveHundred();
    assert "-1"[1..] == "1";
    SourcesFit();
    hide ParsesAsU32, SourceFits;
  }

  lemma PinnedFits()
    ensures AllFit([PINNED])
  {
    VersionsFit();
    hide VersionFits;
    assert FIRST.version[0] != SECOND.version[0];
  }

  /** A pin can make the reading find a security update that is none: the source of the
      pinned version is counted for the version before it. */
  lemma PinMisleads()
    ensures AllFit([PINNED]) && AllHaveWords(PINNED.versions)
    ensures var pending := [Pending("p", "a1")];
            Caught(PINNED, pending) && !IsSecurityUpdate([PINNED], pending, "p")
  {
    PinnedFits();
    FirstIsAnEntry();
    SecondIsNone();
    OnlyOne("p", "a1");
    hide AllFit, HasWords, IsEntry, ShowsSecurity, HasSecuritySource, Wanted, OpenBefore;
    var vs := PINNED.versions;
    assert vs == [FIRST, SECOND] && vs[1..] == [SECOND] && vs[1..][1..] == [];
    var open := OpenBefore(PINNED, Some("a1"));
    assert Catches(vs[1..], Some("a1"), true);
    assert Catches(vs, Some("a1"), open);
    assert FIRST.version != SECOND.version by { assert FIRST.version[0] != SECOND.version[0]; }
  }

  // ---- When the counts of a check agree ------------------------------------------------------------

  const SECURE: Version := Version("a1", "500", [], false, [["500", "a-security"]])

  /** Distinct package names. */
  function Name(k: nat): (name: string)
    ensures |name| == k + 1 && forall i | 0 <= i <= k :: name[i] == 'p'
  {
    seq(k + 1, _ => 'p')
  }

  function SecuredPolicy(k: nat): Policy {
    Policy(Name(k), "a0", "a1", [SECURE])
  }

  function SecuredPolicies(count: nat): (ps: seq<Policy>)
    ensures |ps| == count && forall k | 0 <= k < count :: ps[k] == SecuredPolicy(k)
  {
    seq(count, k requires 0 <= k => SecuredPolicy(k))
  }

  lemma SecureFits()
    ensures VersionFits(SECURE)
  {
    FiveHundred();
    SourcesFit();
    hide ParsesAsU32, SourceFits;
  }

  lemma SecureIsAnEntry()
    ensures IsEntry(SECURE)
  {
    FiveHundred();
    WordsOfPinned();
    hide ParsesAsU32;
  }

  lemma SecureShows()
    ensures HasWords(SECURE) && ShowsSecurity(SECURE) && HasSecuritySource(SECURE)
  {
    SecondIsNone();
    hide SourceKind, IsSecurity;
    assert SECURE.sources == SECOND.sources;
    ShownIsThere(SECURE);
  }

  lemma SecuredFits(k: nat)
    ensures Fits(SecuredPolicy(k)) && AllHaveWords(SecuredPolicy(k).versions) && VersionsRecognised(SecuredPolicy(k).versions)
    ensures Selects(SecuredPolicy(k).versions, Some("a1"))
  {
    SecureFits();
    SecureIsAnEntry();
    SecureShows();
    hide VersionFits, HasSecuritySource, ShowsSecurity, IsEntry, HasWords;
    var vs := SecuredPolicy(k).versions;
    assert forall i | 0 <= i < |vs| :: vs[i] == SECURE;
    assert IsWord(Name(k)) && IsWord("a0") && IsWord("a1");
    assert vs[0].version == "a1";
  }

  lemma SecuredAreRead(count: nat)
    ensures ReadRightly(SecuredPolicies(count))
  {
    var ps := SecuredPolicies(count);
    hide Fits, AllHaveWords, VersionsRecognised, ReadRightly;
    forall i | 0 <= i < |ps| ensures Fits(ps[i]) && AllHaveWords(ps[i].versions) && VersionsRecognised(ps[i].versions) {
      SecuredFits(i);
    }
    forall i, j | 0 <= i < j < |ps| ensures ps[i].name != ps[j].name {
      assert |Name(i)| != |Name(j)|;
    }
    ReadRightlyExactlyWhenRecognised(ps);
  }

  function InstLine(k: nat): string {
    INST + (Name(k) + " (a1 b)")
  }

  lemma NameOfLine(k: nat)
    ensures Tokens(Name(k) + " (a1 b)") == [Name(k), "(a1", "b)"]
  {
    var words := [Name(k), "(a1", "b)"];
    assert AllWords(words);
    hide Tokens, IsSpace;
    TokensOfSpaced(words);
    assert words[1..] == ["(a1", "b)"] && words[1..][1..] == ["b)"];
    assert Spaced(words[1..]) == "(a1 b)";
    assert Name(k) + " " + "(a1 b)" == Name(k) + " (a1 b)";
  }

  lemma CandidateOfLine(k: nat)
    ensures AfterParenthesis(Name(k) + " (a1 b)") == Some("a1 b)") && Tokens("a1 b)") == ["a1", "b)"]
  {
    ParenthesisIsFound(Name(k) + " ", "a1 b)");
    assert Name(k) + " " + "(" + "a1 b)" == Name(k) + " (a1 b)";
    CandidateWords();
  }

  lemma CandidateWords()
    ensures Tokens("a1 b)") == ["a1", "b)"]
  {
    var words := ["a1", "b)"];
    assert AllWords(words);
    hide Tokens, IsSpace;
    TokensOfSpaced(words);
    assert Spaced(words) == "a1 b)" by { assert words[1..] == ["b)"]; }
  }

  lemma InstLineIsPending(k: nat)
    ensures PendingOf(InstLine(k)) == Some(Pending(Name(k), "a1"))
  {
    hide Tokens, AfterParenthesis;
    assert InstLine(k)[|INST|..] == Name(k) + " (a1 b)";
    NameOfLine(k);
    CandidateOfLine(k);
  }

  /** Lines for `n` pending packages, of which the first `last + 1` have distinct names
      and the others repeat the last. */
  function InstLines(n: nat, last: nat): (lines: seq<string>)
    ensures |lines| == n
  {
    seq(n, i requires 0 <= i => InstLine(Smaller(i, last)))
  }

  function PendingLines(n: nat, last: nat): (pending: seq<Pending>)
    ensures |pending| == n
  {
    seq(n, i requires 0 <= i => Pending(Name(Smaller(i, last)), "a1"))
  }

  function Smaller(a: nat, b: nat): nat {
    if a < b then a else b
  }

  lemma {:induction false} InstLinesArePending(n: nat, last: nat)
    ensures PendingIn(InstLines(n, last)) == PendingLines(n, last)
  {
    if n > 0 {
      InstLinesArePending(n - 1, last);
      InstLineIsPending(Smaller(n - 1, last));
      hide PendingOf, InstLine, Name, Smaller;
      assert InstLines(n, last)[..n - 1] == InstLines(n - 1, last);
      assert PendingLines(n, last) == PendingLines(n - 1, last) + [Pending(Name(Smaller(n - 1, last)), "a1")];
    }
  }

  lemma {:induction false} AllWantOne(pending: seq<Pending>, candidate: string, name: string)
    requires forall i | 0 <= i < |pending| :: pending[i].candidate == candidate
    ensures Wanted(pending, name) == if name in Names(pending) then Some(candidate) else None
  {
    WantedIsPending(pending, name);
    if pending != [] && pending[|pending| - 1].name != name {
      var front, last := pending[..|pending| - 1], pending[|pending| - 1];
      assert pending == front + [last];
      AllWantOne(front, candidate, name);
    }
  }

  function FirstNames(count: nat): set<string> {
    set k | 0 <= k < count :: Name(k)
  }

  lemma {:induction false} NamesAreDistinct(count: nat)
    ensures |FirstNames(count)| == count
  {
    if count > 0 {
      NamesAreDistinct(count - 1);
      assert FirstNames(count) == FirstNames(count - 1) + {Name(count - 1)};
      assert forall k | 0 <= k < count - 1 :: |Name(k)| != |Name(count - 1)|;
    }
  }

  lemma PendingNames(n: nat, last: nat)
    requires last < n
    ensures Names(PendingLines(n, last)) == FirstNames(last + 1)
  {
    hide Name;
    var pending := PendingLines(n, last);
    forall k | 0 <= k < last + 1 ensures Name(k) in Names(pending) {
      assert pending[k].name == Name(k);
    }
    forall p | p in pending ensures p.name in FirstNames(last + 1) {
      var i :| 0 <= i < |pending| && pending[i] == p;
      assert 0 <= Smaller(i, last) < last + 1;
    }
  }

  /** Each of the distinct names is a security update of its own. */
  lemma DistinctAreSecurity(n: nat, last: nat)
    requires last < n
    ensures SecurityOf(PendingLines(n, last), Printed(Print(SecuredPolicies(last + 1))), true) == Ok(FirstNames(last + 1))
  {
    var pending, ps := PendingLines(n, last), SecuredPolicies(last + 1);
    var pass := Printed(Print(ps));
    PendingNames(n, last);
    SecurityIsPending(pending, pass, true);
    hide Print, Kinds, Run, Name, PendingLines, SecuredPolicies;
    forall k | 0 <= k < last + 1 ensures Name(k) in Run(START, Kinds(Print(ps)), pending).security {
      DistinctIsFound(n, last, k);
    }
    var found := Run(START, Kinds(Print(ps)), pending).security;
    assert |pending| == n && SecurityOf(pending, pass, true) == Ok(found);
    assert found == FirstNames(last + 1);
  }

  lemma DistinctIsFound(n: nat, last: nat, k: nat)
    requires k <= last < n
    ensures Name(k) in Run(START, Kinds(Print(SecuredPolicies(last + 1))), PendingLines(n, last)).security
  {
    var pending, ps := PendingLines(n, last), SecuredPolicies(last + 1);
    PendingNames(n, last);
    SecuredAreRead(last + 1);
    AllA1(n, last);
    SecuredFits(k);
    NameOfPolicy(k);
    assert ps[k] == SecuredPolicy(k);
    hide Print, Kinds, Run, Name, PendingLines, Names, Selects, SecuredPolicy, SecuredPolicies, ReadRightly;
    AllWantOne(pending, "a1", Name(k));
    ReadsThis(ps, pending, k);
  }

  lemma ReadsThis(ps: seq<Policy>, pending: seq<Pending>, k: nat)
    requires ReadRightly(ps) && k < |ps| && Selects(ps[k].versions, Wanted(pending, ps[k].name))
    ensures ps[k].name in Run(START, Kinds(Print(ps)), pending).security
  {
    hide Print, Kinds, Run, Selects, Wanted, IsSecurityUpdate;
    UpdatesAreSelected(ps, pending, ps[k].name);
    assert IsSecurityUpdate(ps, pending, ps[k].name);
  }

  lemma NameOfPolicy(k: nat)
    ensures SecuredPolicy(k).name == Name(k)
  {
  }

  lemma AllA1(n: nat, last: nat)
    ensures forall i | 0 <= i < |PendingLines(n, last)| :: PendingLines(n, last)[i].candidate == "a1"
  {
  }

  /** No check of `n` pending packages finds its own counts inconsistent. */
  ghost predicate AlwaysConsistent(n: nat, limit: nat) {
    forall apt, pass, classify | |PendingIn(apt)| == n && CanEnd(pass, n, limit) ::
      CountsOf(PendingIn(apt), pass, classify) != Err(ParseInconsistent)
  }

  /** The counts of a check are consistent, whatever apt prints in either pass, exactly when
      the second pass cannot be started for so many packages, or cutting their number to
      32 bits cannot make it the smaller one. */
  lemma ConsistentExactlyWhenNotCut(n: nat, limit: nat)
    ensures AlwaysConsistent(n, limit) <==> n > limit || n < 0x1_0000_0000 || n % 0x1_0000_0000 == 0xFFFF_FFFF
  {
    if n > limit || n < TWO_TO_THE_32 || n % TWO_TO_THE_32 == TWO_TO_THE_32 - 1 {
      forall apt, pass, classify | |PendingIn(apt)| == n && CanEnd(pass, n, limit)
        ensures CountsOf(PendingIn(apt), pass, classify) != Err(ParseInconsistent)
      {
        SecurityIsPending(PendingIn(apt), pass, classify);
      }
    } else {
      CutCounts(n);
      var last := n % TWO_TO_THE_32;
      InstLinesArePending(n, last);
      hide CountsOf, PendingIn, Print, InstLines, PendingLines;
      var pass := Printed(Print(SecuredPolicies(last + 1)));
      assert CanEnd(pass, n, limit);
      assert |PendingLines(n, last)| == n;
    }
  }

  /** One more security update than the cut number of all of them. */
  lemma CutCounts(n: nat)
    requires n >= TWO_TO_THE_32 && n % TWO_TO_THE_32 < TWO_TO_THE_32 - 1
    ensures var last := n % TWO_TO_THE_32;
            CountsOf(PendingLines(n, last), Printed(Print(SecuredPolicies(last + 1))), true) == Err(ParseInconsistent)
  {
    hide Print, PendingLines, SecurityOf;
    var last := n % TWO_TO_THE_32;
    DistinctAreSecurity(n, last);
    NamesAreDistinct(last + 1);
  }

  /** Where no program can be started with 2^32 arguments, as on the systems muninn runs
      on, no check is ever inconsistent, however many packages apt lists. */
  lemma NeverInconsistent(apt: seq<string>, pass: Pass, classify: bool, limit: nat)
    requires limit < 0x1_0000_0000 && CanEnd(pass, |PendingIn(apt)|, limit)
    ensures CountsOf(PendingIn(apt), pass, classify) != Err(ParseInconsistent)
  {
    ConsistentExactlyWhenNotCut(|PendingIn(apt)|, limit);
  }
}
