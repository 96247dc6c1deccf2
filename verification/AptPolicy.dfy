/** The update check's reading of apt: what is pending, and which of it has its
    candidate version available from a security suite. */
module AptPolicy {
  import opened Wrappers
  import opened Words

  datatype Pending = Pending(name: string, candidate: string)

  // ---- What is pending -----------------------------------------------------------------

  const INST: string := "Inst "

  /** What follows the first opening parenthesis. */
  function AfterParenthesis(s: string): Option<string> {
    if s == "" then None
    else if s[0] == '(' then Some(s[1..])
    else AfterParenthesis(s[1..])
  }

  function PendingOf(line: string): Option<Pending> {
    if !(INST <= line) then None
    else
      var rest := line[|INST|..];
      var names := Tokens(rest);
      if names == [] then None
      else
        var candidate := match AfterParenthesis(rest)
                         case None => ""
                         case Some(tail) => if Tokens(tail) == [] then "" else Tokens(tail)[0];
        Some(Pending(names[0], candidate))
  }

  function PendingIn(lines: seq<string>): seq<Pending> {
    if lines == [] then []
    else
      var before := PendingIn(lines[..|lines| - 1]);
      match PendingOf(lines[|lines| - 1])
      case None => before
      case Some(p) => before + [p]
  }

  method ParsePending(lines: seq<string>) returns (out: seq<Pending>)
    ensures out == PendingIn(lines)
    ensures forall p :: p in out <==> exists i | 0 <= i < |lines| :: PendingOf(lines[i]) == Some(p)
  {
    hide PendingOf;
    PendingComesFromLines(lines);
    out := [];
    for n := 0 to |lines|
      invariant out == PendingIn(lines[..n])
    {
      assert lines[..n + 1][..n] == lines[..n];
      var p := PendingOf(lines[n]);
      if p.Some? { out := out + [p.value]; }
    }
    assert lines[..|lines|] == lines;
  }

  /** Nothing is pending but what a line says, and every line that says so counts. */
  lemma {:induction false} PendingComesFromLines(lines: seq<string>)
    ensures forall p :: p in PendingIn(lines) <==> exists i | 0 <= i < |lines| :: PendingOf(lines[i]) == Some(p)
  {
    hide PendingOf;
    if lines != [] {
      var front, last := lines[..|lines| - 1], lines[|lines| - 1];
      PendingComesFromLines(front);
      forall p ensures p in PendingIn(lines) <==> exists i | 0 <= i < |lines| :: PendingOf(lines[i]) == Some(p) {
        if i :| 0 <= i < |lines| && PendingOf(lines[i]) == Some(p) {
          if i < |front| { assert front[i] == lines[i]; }
        }
        if p in PendingIn(front) {
          var i :| 0 <= i < |front| && PendingOf(front[i]) == Some(p);
          assert lines[i] == front[i];
        }
        assert PendingOf(last) == Some(p) ==> PendingOf(lines[|lines| - 1]) == Some(p);
      }
    }
  }

  /** What is pending keeps the order of the lines, and each line speaks for itself. */
  lemma {:induction false} PendingInParts(a: seq<string>, b: seq<string>)
    ensures PendingIn(a + b) == PendingIn(a) + PendingIn(b)
    ensures |b| == 1 ==> PendingIn(b) == if PendingOf(b[0]).Some? then [PendingOf(b[0]).value] else []
  {
    hide PendingOf;
    if b == [] {
      assert a + b == a;
    } else {
      PendingInParts(a, b[..|b| - 1]);
      assert (a + b)[..|a + b| - 1] == a + b[..|b| - 1];
      assert |b| == 1 ==> b[..0] == [];
    }
  }

  /** What a line of the simulation says: a name, whatever stands before the parenthesis, such as
      the installed version, and the candidate behind it. */
  predicate IsInstLine(line: string, name: string, between: string, candidate: string, more: string) {
    && IsWord(name) && '(' !in name && '(' !in between && IsWord(candidate)
    && between != "" && IsSpace(between[0]) && (more == "" || IsSpace(more[0]))
    && line == "Inst " + (name + between + "(" + candidate + more)
  }

  lemma {:induction false} ParenthesisIsFound(a: string, b: string)
    requires '(' !in a
    ensures AfterParenthesis(a + "(" + b) == Some(b)
  {
    var s := a + "(" + b;
    if a == "" {
      assert s[1..] == b;
    } else {
      assert s[0] == a[0] && s[1..] == a[1..] + "(" + b;
      ParenthesisIsFound(a[1..], b);
    }
  }

  lemma {:induction false} NoParenthesis(s: string)
    requires '(' !in s
    ensures AfterParenthesis(s) == None
  {
    if s != "" { NoParenthesis(s[1..]); }
  }

  lemma FirstToken(w: string, rest: string)
    requires IsWord(w) && (rest == "" || IsSpace(rest[0]))
    ensures Tokens(w + rest) != [] && Tokens(w + rest)[0] == w
  {
    WordEnds(w, rest);
    assert (w + rest)[0] == w[0] && (w + rest)[..|w|] == w;
  }

  /** The name is the first word, and the candidate the first word behind the parenthesis,
      whatever is installed; a line without one has no candidate, and no other line counts. */
  lemma InstLineSays(line: string, name: string, between: string, candidate: string, more: string)
    requires between != "" ==> IsSpace(between[0])
    ensures IsInstLine(line, name, between, candidate, more) ==> PendingOf(line) == Some(Pending(name, candidate))
    ensures IsWord(name) && '(' !in name + between && line == "Inst " + (name + between) ==> PendingOf(line) == Some(Pending(name, ""))
    ensures IsWord(name) && between != "" && '(' !in name + between && line == "Inst " + (name + between) + "(" + more && Tokens(more) == [] ==>
              PendingOf(line) == Some(Pending(name, ""))
    ensures !("Inst " <= line) ==> PendingOf(line) == None
  {
    hide Tokens, AfterParenthesis, IsWord, IsSpace;
    if IsInstLine(line, name, between, candidate, more) {
      var rest := name + between + "(" + candidate + more;
      assert line[|INST|..] == rest;
      assert rest == name + (between + "(" + candidate + more) && rest == (name + between) + "(" + (candidate + more);
      assert (between + "(" + candidate + more)[0] == between[0];
      FirstToken(name, between + "(" + candidate + more);
      FirstToken(candidate, more);
      ParenthesisIsFound(name + between, candidate + more);
    }
    if IsWord(name) && '(' !in name + between && line == "Inst " + (name + between) {
      assert line[|INST|..] == name + between;
      FirstToken(name, between);
      NoParenthesis(name + between);
    }
    if IsWord(name) && between != "" && '(' !in name + between && line == "Inst " + (name + between) + "(" + more && Tokens(more) == [] {
      assert line[|INST|..] == name + between + "(" + more;
      assert name + between + "(" + more == name + (between + "(" + more) && (between + "(" + more)[0] == between[0];
      FirstToken(name, between + "(" + more);
      ParenthesisIsFound(name + between, more);
    }
  }

  // ---- The lines of a policy ---------------------------------------------------------------

  /** What one line of `apt-cache policy` is taken for. */
  datatype Kind =
    | Header(name: string)
    | Entry(version: string)
    | Source(security: bool)
    | Other

  function TrimColons(s: string): string {
    if s != "" && s[|s| - 1] == ':' then TrimColons(s[..|s| - 1]) else s
  }

  const STARS: string := "*** "
  const SECURITY: string := "-security"

  function StripStars(s: string): string {
    if STARS <= s then s[|STARS|..] else s
  }

  /** A header stands at column zero and ends in a colon; a source line begins with
      a number, and a version-table entry ends with one. */
  function Classify(line: string): Kind {
    if line != "" && !IsSpace(line[0]) && line[|line| - 1] == ':' then Header(TrimColons(line))
    else ClassifyWords(StripStars(Trim(line)))
  }

  function ClassifyWords(trimmed: string): Kind {
    var tokens := Tokens(trimmed);
    if tokens == [] then Other
    else if ParsesAsU32(tokens[0]) then Source(LowerContains(trimmed, SECURITY))
    else if |tokens| > 1 && ParsesAsU32(tokens[|tokens| - 1]) then Entry(tokens[0])
    else Other
  }

  function Colons(n: nat): (s: string)
    ensures |s| == n && forall i | 0 <= i < n :: s[i] == ':'
  {
    seq(n, _ => ':')
  }

  lemma {:induction false} ColonsAreTrimmed(line: string) returns (n: nat)
    ensures line == TrimColons(line) + Colons(n) && (TrimColons(line) == "" || TrimColons(line)[|TrimColons(line)| - 1] != ':')
    ensures line != "" && line[|line| - 1] == ':' ==> n > 0
  {
    if line != "" && line[|line| - 1] == ':' {
      var k := ColonsAreTrimmed(line[..|line| - 1]);
      n := k + 1;
      assert line == line[..|line| - 1] + [':'];
      assert Colons(k) + [':'] == Colons(n);
    } else {
      n := 0;
      assert Colons(0) == "";
    }
  }

  lemma {:induction false} TrimmedColons(name: string, n: nat)
    requires name == "" || name[|name| - 1] != ':'
    ensures TrimColons(name + Colons(n)) == name
  {
    if n == 0 {
      assert name + Colons(0) == name;
    } else {
      assert (name + Colons(n))[..|name| + n - 1] == name + Colons(n - 1);
      TrimmedColons(name, n - 1);
    }
  }

  predicate IsHeader(line: string, name: string, n: nat) {
    line == name + Colons(n) && n > 0 && !IsSpace(line[0]) && (name == "" || name[|name| - 1] != ':')
  }

  /** Headers are the lines that begin at column zero and end in colons, and nothing else. */
  lemma HeaderExactly(line: string, name: string)
    ensures Classify(line) == Header(name) <==> exists n :: IsHeader(line, name, n)
  {
    hide ClassifyWords, StripStars, Trim, IsSpace;
    WordsAreNoHeader(StripStars(Trim(line)));
    if Classify(line) == Header(name) {
      var n := ColonsAreTrimmed(line);
      assert IsHeader(line, name, n);
    }
    if n :| IsHeader(line, name, n) {
      TrimmedColons(name, n);
    }
  }

  lemma WordsAreNoHeader(trimmed: string)
    ensures !ClassifyWords(trimmed).Header?
  {
    hide ParsesAsU32, LowerContains, Tokens;
  }

  function Kinds(lines: seq<string>): (ks: seq<Kind>)
    ensures |ks| == |lines|
  {
    seq(|lines|, i requires 0 <= i < |lines| => Classify(lines[i]))
  }

  /** The candidate wanted for a name: the last one pending under it. */
  function Wanted(pending: seq<Pending>, name: string): Option<string> {
    if pending == [] then None
    else if pending[|pending| - 1].name == name then Some(pending[|pending| - 1].candidate)
    else Wanted(pending[..|pending| - 1], name)
  }

  /** The last line pending under the name says which version is wanted. */
  ghost predicate IsWanted(pending: seq<Pending>, name: string, candidate: string) {
    exists i | 0 <= i < |pending| :: pending[i] == Pending(name, candidate) && forall j | i < j < |pending| :: pending[j].name != name
  }

  lemma {:induction false} WantedIsTheLast(pending: seq<Pending>, name: string, candidate: string)
    ensures Wanted(pending, name) == Some(candidate) <==> IsWanted(pending, name, candidate)
  {
    if pending != [] {
      var front, last := pending[..|pending| - 1], pending[|pending| - 1];
      WantedIsTheLast(front, name, candidate);
      if i :| 0 <= i < |pending| && pending[i] == Pending(name, candidate) && forall j | i < j < |pending| :: pending[j].name != name {
        if i < |front| { assert front[i] == pending[i] && last.name != name; }
      }
      if last.name != name && IsWanted(front, name, candidate) {
        var i :| 0 <= i < |front| && front[i] == Pending(name, candidate) && forall j | i < j < |front| :: front[j].name != name;
        assert pending[i] == front[i];
        forall j | i < j < |pending| ensures pending[j].name != name {
          if j < |front| { assert pending[j] == front[j]; }
        }
      }
      if last == Pending(name, candidate) { assert pending[|front|] == last; }
    }
  }

  lemma WantedIsAlwaysTheLast(pending: seq<Pending>)
    ensures forall name, candidate :: Wanted(pending, name) == Some(candidate) <==> IsWanted(pending, name, candidate)
  {
    forall name, candidate ensures Wanted(pending, name) == Some(candidate) <==> IsWanted(pending, name, candidate) {
      WantedIsTheLast(pending, name, candidate);
    }
  }

  // ---- The loop -------------------------------------------------------------------------------

  datatype Scan = Scan(package: Option<string>, inCandidate: bool, security: set<string>)

  const START: Scan := Scan(None, false, {})

  function Next(st: Scan, k: Kind, pending: seq<Pending>): Scan {
    match k
    case Header(name) => st.(package := Some(name), inCandidate := false)
    case Source(sec) =>
      if st.inCandidate && st.package.Some? && sec then st.(security := st.security + {st.package.value}) else st
    case Entry(v) =>
      if st.package.Some? then st.(inCandidate := Wanted(pending, st.package.value) == Some(v)) else st
    case Other => st
  }

  function Run(st: Scan, ks: seq<Kind>, pending: seq<Pending>): Scan
    decreases |ks|
  {
    if ks == [] then st else Run(Next(st, ks[0], pending), ks[1..], pending)
  }

  lemma {:induction false} RunConcat(st: Scan, a: seq<Kind>, b: seq<Kind>, pending: seq<Pending>)
    ensures Run(st, a + b, pending) == Run(Run(st, a, pending), b, pending)
    decreases |a|
  {
    if a == [] {
      assert a + b == b;
    } else {
      assert (a + b)[1..] == a[1..] + b;
      RunConcat(Next(st, a[0], pending), a[1..], b, pending);
    }
  }

  // ---- What the loop means ------------------------------------------------------------------------

  /** A security source line `i` under the version entry `e` under the header `h`,
      with no other header and no other entry between. */
  ghost predicate SelectedAt(ks: seq<Kind>, pending: seq<Pending>, name: string, h: int, e: int, i: int) {
    && 0 <= h < e < i < |ks|
    && ks[h] == Header(name) && (forall j | h < j < i :: !ks[j].Header?)
    && ks[e].Entry? && (forall j | e < j < i :: !ks[j].Entry?)
    && ks[i] == Source(true)
    && IsWanted(pending, name, ks[e].version)
  }

  ghost predicate Selected(ks: seq<Kind>, pending: seq<Pending>, name: string) {
    exists h, e, i :: SelectedAt(ks, pending, name, h, e, i)
  }

  /** The names under a security source of their wanted version: what `parse_policy` returns. */
  method ParsePolicy(lines: seq<string>, pending: seq<Pending>) returns (security: set<string>)
    ensures security == Run(START, Kinds(lines), pending).security
    ensures forall n :: n in security <==> Selected(Kinds(lines), pending, n)
  {
    hide Classify, Selected;
    RunIsSelection(Kinds(lines), pending);
    security := {};
    var package: Option<string> := None;
    var inCandidate := false;
    for n := 0 to |lines|
      invariant Scan(package, inCandidate, security) == Run(START, Kinds(lines)[..n], pending)
    {
      RunOneMore(Kinds(lines), pending, n);
      match Classify(lines[n]) {
        case Header(name) =>
          package := Some(name);
          inCandidate := false;
        case Source(sec) =>
          if inCandidate && package.Some? && sec {
            security := security + {package.value};
          }
        case Entry(version) =>
          if package.Some? {
            inCandidate := Wanted(pending, package.value) == Some(version);
          }
        case Other =>
      }
    }
    assert Kinds(lines)[..|lines|] == Kinds(lines);
  }

  lemma RunOneMore(ks: seq<Kind>, pending: seq<Pending>, n: nat)
    requires n < |ks|
    ensures Run(START, ks[..n + 1], pending) == Next(Run(START, ks[..n], pending), ks[n], pending)
  {
    var st := Run(START, ks[..n], pending);
    RunConcat(START, ks[..n], [ks[n]], pending);
    assert ks[..n + 1] == ks[..n] + [ks[n]];
    assert [ks[n]][1..] == [];
  }

  /** The loop returns exactly the selected names. */
  lemma {:induction false} RunIsSelection(ks: seq<Kind>, pending: seq<Pending>)
    ensures forall name :: name in Run(START, ks, pending).security <==> Selected(ks, pending, name)
  {
    var h, e := -1, -1;
    assert Tracked(ks, pending, Run(START, ks[..0], pending), 0, h, e);
    hide Run;
    assert Run(START, ks[..0], pending) == START by { NothingRun(ks, pending); }
    for n := 0 to |ks|
      invariant Tracked(ks, pending, Run(START, ks[..n], pending), n, h, e)
      invariant forall name :: name in Run(START, ks[..n], pending).security <==> Selected(ks[..n], pending, name)
    {
      SelectedSoFar(ks, pending, Run(START, ks[..n], pending), n, h, e);
      RunOneMore(ks, pending, n);
      h, e := TrackedNext(ks, pending, Run(START, ks[..n], pending), n, h, e);
    }
    assert ks[..|ks|] == ks;
  }

  lemma NothingRun(ks: seq<Kind>, pending: seq<Pending>)
    ensures Run(START, ks[..0], pending) == START
  {
  }

  lemma TrackedNext(ks: seq<Kind>, pending: seq<Pending>, st: Scan, n: nat, h: int, e: int) returns (h': int, e': int)
    requires n < |ks| && Tracked(ks, pending, st, n, h, e)
    ensures Tracked(ks, pending, Next(st, ks[n], pending), n + 1, h', e')
  {
    h', e' := h, e;
    if ks[n].Header? {
      h', e' := n, -1;
    } else if ks[n].Entry? && h >= 0 {
      e' := n;
    }
  }

  /** `h` and `e` are the header and the entry the loop is under before line `n`. */
  ghost predicate Tracked(ks: seq<Kind>, pending: seq<Pending>, st: Scan, n: int, h: int, e: int) {
    && 0 <= n <= |ks| && -1 <= h < n && -1 <= e < n && (e >= 0 ==> h < e && h >= 0)
    && (st.package.Some? <==> h >= 0)
    && (h >= 0 ==> ks[h] == Header(st.package.value))
    && (forall j | h < j < n :: !ks[j].Header?)
    && (h >= 0 ==> forall j | (if e >= 0 then e else h) < j < n :: !ks[j].Entry?)
    && (e >= 0 ==> ks[e].Entry?)
    && (st.inCandidate <==> e >= 0 && Wanted(pending, st.package.value) == Some(ks[e].version))
  }

  /** One more line selects one more name exactly when the loop inserts it. */
  lemma SelectedSoFar(ks: seq<Kind>, pending: seq<Pending>, st: Scan, n: nat, h: int, e: int)
    requires n < |ks| && Tracked(ks, pending, st, n, h, e)
    ensures forall name :: Selected(ks[..n + 1], pending, name) <==>
              Selected(ks[..n], pending, name)
              || (ks[n] == Source(true) && st.inCandidate && st.package == Some(name))
  {
    hide IsWanted;
    WantedIsAlwaysTheLast(pending);
    forall name
      ensures Selected(ks[..n + 1], pending, name) <==>
              Selected(ks[..n], pending, name)
              || (ks[n] == Source(true) && st.inCandidate && st.package == Some(name))
    {
      if Selected(ks[..n], pending, name) {
        var a, b, c :| SelectedAt(ks[..n], pending, name, a, b, c);
        assert SelectedAt(ks[..n + 1], pending, name, a, b, c);
      }
      if ks[n] == Source(true) && st.inCandidate && st.package == Some(name) {
        assert SelectedAt(ks[..n + 1], pending, name, h, e, n);
      }
      if Selected(ks[..n + 1], pending, name) {
        var a, b, c :| SelectedAt(ks[..n + 1], pending, name, a, b, c);
        if c < n {
          assert SelectedAt(ks[..n], pending, name, a, b, c);
        } else {
          OnlyHere(ks, pending, st, n, h, e, name, a, b);
        }
      }
    }
  }

  lemma OnlyHere(ks: seq<Kind>, pending: seq<Pending>, st: Scan, n: nat, h: int, e: int, name: string, a: int, b: int)
    requires n < |ks| && Tracked(ks, pending, st, n, h, e)
    requires SelectedAt(ks[..n + 1], pending, name, a, b, n)
    ensures a == h && b == e && st.inCandidate && st.package == Some(name)
  {
    hide IsWanted;
    WantedIsTheLast(pending, name, ks[b].version);
    assert ks[a] == Header(name) && ks[b].Entry?;
    assert a <= h && h <= a;
  }

  // ---- The counts ---------------------------------------------------------------------------------

  const TWO_TO_THE_32: nat := 0x1_0000_0000

  datatype Counts = Counts(all: nat, security: nat)

  datatype Reason = AptFailed | AptTimedOut | ParseInconsistent

  /** Security updates are a subset of all updates, or neither number is published. */
  function Checked(all: nat, security: nat): Result<Counts, Reason> {
    if security > all then Err(ParseInconsistent) else Ok(Counts(all, security))
  }

  /** The second pass over apt: what it printed, or that it failed or took too long. */
  datatype Pass = Printed(policy: seq<string>) | Failed | TimedOut

  /** The second pass names every pending line on its command line. No program can be
      started with more than `limit` arguments. */
  predicate CanEnd(pass: Pass, pending: nat, limit: nat) {
    pending > limit ==> pass == Failed
  }

  /** What is classified as security: nothing is asked when nothing is pending. */
  function SecurityOf(pending: seq<Pending>, pass: Pass, classify: bool): Result<set<string>, Reason> {
    if !classify || pending == [] then Ok({})
    else
      match pass
      case Printed(policy) => Ok(Run(START, Kinds(policy), pending).security)
      case Failed => Err(AptFailed)
      case TimedOut => Err(AptTimedOut)
  }

  /** The counts of a check, each cut to 32 bits. */
  function CountsOf(pending: seq<Pending>, pass: Pass, classify: bool): Result<Counts, Reason> {
    match SecurityOf(pending, pass, classify)
    case Err(reason) => Err(reason)
    case Ok(security) => Checked(|pending| % TWO_TO_THE_32, |security| % TWO_TO_THE_32)
  }

  function Names(pending: seq<Pending>): set<string> {
    set p | p in pending :: p.name
  }

  lemma {:induction false} WantedIsPending(pending: seq<Pending>, name: string)
    ensures Wanted(pending, name).Some? <==> name in Names(pending)
  {
    if pending != [] {
      var front, last := pending[..|pending| - 1], pending[|pending| - 1];
      assert pending == front + [last];
      WantedIsPending(front, name);
      assert Names(pending) == Names(front) + {last.name};
    }
  }

  lemma {:induction false} FewerNamesThanPending(pending: seq<Pending>)
    ensures |Names(pending)| <= |pending|
  {
    if pending != [] {
      var front, last := pending[..|pending| - 1], pending[|pending| - 1];
      assert pending == front + [last];
      FewerNamesThanPending(front);
      assert Names(pending) == Names(front) + {last.name};
    }
  }

  lemma SubsetIsNoLarger(a: set<string>, b: set<string>)
    requires a <= b
    ensures |a| <= |b|
  {
    assert b == a + (b - a);
  }

  /** Every security update is a pending one, so there are never more of them,
      however often a package line is repeated. */
  lemma SecurityIsPending(pending: seq<Pending>, pass: Pass, classify: bool)
    ensures var security := SecurityOf(pending, pass, classify);
            security.Ok? ==> security.value <= Names(pending) && |security.value| <= |pending|
  {
    var security := SecurityOf(pending, pass, classify);
    if classify && pending != [] && pass.Printed? {
      var ks := Kinds(pass.policy);
      RunIsSelection(ks, pending);
      forall name | name in security.value ensures name in Names(pending) {
        var h, e, i :| SelectedAt(ks, pending, name, h, e, i);
        WantedIsTheLast(pending, name, ks[e].version);
        WantedIsPending(pending, name);
      }
    }
    FewerNamesThanPending(pending);
    if security.Ok? { SubsetIsNoLarger(security.value, Names(pending)); }
  }

  /** Where apt cannot be started with so many names, the check says that apt failed. */
  lemma TooManyNames(pending: seq<Pending>, pass: Pass, limit: nat)
    requires |pending| > limit && CanEnd(pass, |pending|, limit)
    ensures CountsOf(pending, pass, true) == Err(AptFailed)
  {
    assert |pending| > 0;
  }

  /** Whatever apt prints, a check of fewer than 2^32 pending packages publishes their
      number and the number of the security updates among them, or the second pass failed. */
  lemma CountsAreNotCut(apt: seq<string>, pass: Pass, classify: bool)
    requires |PendingIn(apt)| < 0x1_0000_0000
    ensures var pending := PendingIn(apt);
            var security := SecurityOf(pending, pass, classify);
            && (security.Ok? ==> CountsOf(pending, pass, classify) == Ok(Counts(|pending|, |security.value|)))
            && (security.Err? <==> classify && pending != [] && !pass.Printed?)
            && (security.Err? ==> CountsOf(pending, pass, classify) == Err(if pass.Failed? then AptFailed else AptTimedOut))
  {
    SecurityIsPending(PendingIn(apt), pass, classify);
  }
}
