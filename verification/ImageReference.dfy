/** Docker image references: splitting off the tag, one spelling for a repository,
    and the digest recorded for it. */
module ImageReference {
  import opened Basics
  import opened Wrappers

  // ---- Text searches ------------------------------------------------------------------

  function Find(s: string, c: char): Option<nat> {
    if s == "" then None
    else if s[0] == c then Some(0)
    else match Find(s[1..], c) case None => None case Some(i) => Some(i + 1)
  }

  function FindLast(s: string, c: char): Option<nat> {
    if s == "" then None
    else if s[|s| - 1] == c then Some(|s| - 1)
    else FindLast(s[..|s| - 1], c)
  }

  lemma {:induction false} FindIsFirst(s: string, c: char)
    ensures Find(s, c) == None <==> c !in s
    ensures forall i | Find(s, c) == Some(i) :: i < |s| && s[i] == c && c !in s[..i]
  {
    if s != "" && s[0] != c {
      FindIsFirst(s[1..], c);
      assert forall i | 0 < i <= |s| :: s[..i] == [s[0]] + s[1..][..i - 1];
      assert s == [s[0]] + s[1..];
    }
  }

  lemma {:induction false} FindLastIsLast(s: string, c: char)
    ensures FindLast(s, c) == None <==> c !in s
    ensures forall i | FindLast(s, c) == Some(i) :: i < |s| && s[i] == c && c !in s[i + 1..]
  {
    if s != "" && s[|s| - 1] != c {
      var front := s[..|s| - 1];
      FindLastIsLast(front, c);
      assert s == front + [s[|s| - 1]];
      forall i | FindLast(s, c) == Some(i) ensures c !in s[i + 1..] {
        assert s[i + 1..] == front[i + 1..] + [s[|s| - 1]];
      }
    }
  }

  /** `split_once`: the two sides of the first `c`. */
  function SplitOnce(s: string, c: char): (r: Option<(string, string)>)
    ensures r.Some? ==> s == r.value.0 + [c] + r.value.1 && c !in r.value.0
    ensures r.None? <==> c !in s
  {
    FindIsFirst(s, c);
    match Find(s, c)
    case None => None
    case Some(i) =>
      assert s == s[..i] + [c] + s[i + 1..];
      Some((s[..i], s[i + 1..]))
  }

  lemma SplitOnceFinds(a: string, c: char, b: string)
    requires c !in a
    ensures SplitOnce(a + [c] + b, c) == Some((a, b))
  {
    var s := a + [c] + b;
    assert s[|a|] == c && s[..|a|] == a && s[|a| + 1..] == b;
    var r := SplitOnce(s, c).value;
    assert s[|r.0|] == c && s[..|r.0|] == r.0 && s[|r.0| + 1..] == r.1;
    StandsBefore(s, |r.0|, |a|);
    StandsBefore(s, |a|, |r.0|);
  }

  // ---- The tag -------------------------------------------------------------------------

  const LATEST: string := "latest"

  /** Repository and tag; nothing for a reference pinned to a digest. */
  function SplitReference(image: string): Option<(string, string)> {
    if '@' in image then None
    else
      var from := match FindLast(image, '/') case None => 0 case Some(i) => i + 1;
      FindLastIsLast(image, '/');
      match FindLast(image[from..], ':')
      case Some(at) =>
        FindLastIsLast(image[from..], ':');
        Some((image[..from + at], image[from + at + 1..]))
      case None => Some((image, LATEST))
  }

  /** A tag holds no separator. */
  predicate NoSeparator(tag: string) {
    ':' !in tag && '/' !in tag
  }

  ghost predicate Tagged(image: string) {
    exists at :: TaggedAt(image, at)
  }

  predicate TaggedAt(image: string, at: int) {
    0 <= at < |image| && image[at] == ':' && NoSeparator(image[at + 1..])
  }

  lemma LastIsFound(s: string, c: char, at: nat)
    requires at < |s| && s[at] == c && c !in s[at + 1..]
    ensures FindLast(s, c) == Some(at)
  {
    FindLastIsLast(s, c);
    assert s[at] in s;
    var i := FindLast(s, c).value;
    StandsAfter(s, i, at + 1);
    StandsAfter(s, at, i + 1);
  }

  /** The tag is what follows a colon with no separator after it: a port is none. */
  lemma SplitIsAtTheTag(image: string, at: nat)
    requires '@' !in image && TaggedAt(image, at)
    ensures SplitReference(image) == Some((image[..at], image[at + 1..]))
  {
    hide FindLast;
    FindLastIsLast(image, '/');
    var from: nat := match FindLast(image, '/') case None => 0 case Some(i) => i + 1;
    if FindLast(image, '/').Some? {
      StandsAfter(image, from - 1, at + 1);
    }
    assert from <= at;
    var tail := image[from..];
    assert tail[at - from + 1..] == image[at + 1..];
    LastIsFound(tail, ':', at - from);
  }

  lemma SplitWithoutTag(image: string)
    requires '@' !in image && !Tagged(image)
    ensures SplitReference(image) == Some((image, "latest"))
  {
    FindLastIsLast(image, '/');
    var from: nat := match FindLast(image, '/') case None => 0 case Some(i) => i + 1;
    var tail := image[from..];
    FindLastIsLast(tail, ':');
    if FindLast(tail, ':').Some? { ColonBehindSlash(image, from, FindLast(tail, ':').value); }
  }

  lemma ColonBehindSlash(image: string, from: nat, at: nat)
    requires from <= |image| && at < |image[from..]| && '/' !in image[from..]
    requires image[from..][at] == ':' && ':' !in image[from..][at + 1..]
    ensures TaggedAt(image, from + at)
  {
    assert image[from + at + 1..] == image[from..][at + 1..];
    assert forall c | c in image[from..][at + 1..] :: c in image[from..];
  }

  /** Every reference but a pinned one splits, and asking for `repository:tag`
      names the same repository and the same tag again. */
  lemma ReferenceResplits(image: string)
    ensures SplitReference(image).None? <==> '@' in image
    ensures SplitReference(image).Some? ==>
              var (repo, tag) := SplitReference(image).value;
              SplitReference(repo + ":" + tag) == Some((repo, tag))
  {
    if '@' !in image {
      if at :| TaggedAt(image, at) {
        SplitIsAtTheTag(image, at);
        assert image == image[..at] + ":" + image[at + 1..];
      } else {
        SplitWithoutTag(image);
        var whole := image + ":" + LATEST;
        assert whole[|image| + 1..] == LATEST && whole[..|image|] == image;
        SplitIsAtTheTag(whole, |image|);
      }
    }
  }

  // ---- The repository -------------------------------------------------------------------

  const HUB: string := "docker.io"
  const INDEX: string := "index.docker.io"
  const LIBRARY: string := "library/"

  predicate IsRegistryHost(first: string) {
    '.' in first || ':' in first || first == "localhost"
  }

  function NormalizeRepository(repo: string): string {
    match SplitOnce(repo, '/')
    case Some((first, rest)) =>
      if !IsRegistryHost(first) then HUB + "/" + repo
      else if first == HUB || first == INDEX then
        HUB + "/" + (if '/' in rest then rest else LIBRARY + rest)
      else repo
    case None => if IsRegistryHost(repo) then repo else HUB + "/" + LIBRARY + repo
  }

  /** What a canonical name looks like: it starts with a registry host, and a name on
      the Hub has at least two components. */
  predicate Canonical(repo: string) {
    match SplitOnce(repo, '/')
    case None => IsRegistryHost(repo)
    case Some((first, rest)) => IsRegistryHost(first) && first != INDEX && (first == HUB ==> '/' in rest)
  }

  lemma HubNameSplits(rest: string)
    ensures SplitOnce(HUB + "/" + rest, '/') == Some((HUB, rest))
  {
    SplitOnceFinds(HUB, '/', rest);
  }

  lemma NormalizedIsCanonical(repo: string)
    ensures Canonical(NormalizeRepository(repo))
  {
    match SplitOnce(repo, '/') {
      case Some((first, rest)) =>
        HubNameSplits(repo);
        HubNameSplits(rest);
        HubNameSplits(LIBRARY + rest);
        assert (LIBRARY + rest)[7] == '/';
        assert HUB[6] == '.';
      case None =>
        HubNameSplits(LIBRARY + repo);
        assert HUB + "/" + (LIBRARY + repo) == HUB + "/" + LIBRARY + repo;
        assert (LIBRARY + repo)[7] == '/';
        assert HUB[6] == '.';
    }
  }

  /** The canonical names are the fixed points, so normalising twice changes nothing. */
  lemma CanonicalIsFixed(repo: string)
    ensures NormalizeRepository(repo) == repo <==> Canonical(repo)
  {
    NormalizedIsCanonical(repo);
    if Canonical(repo) {
      match SplitOnce(repo, '/') {
        case Some((first, rest)) => assert repo == first + "/" + rest;
        case None =>
      }
    }
  }

  lemma NormalizingTwice(repo: string)
    ensures NormalizeRepository(NormalizeRepository(repo)) == NormalizeRepository(repo)
  {
    NormalizedIsCanonical(repo);
    CanonicalIsFixed(NormalizeRepository(repo));
  }

  lemma HubPrefixFolds(host: string, rest: string)
    requires host == HUB || host == INDEX
    ensures NormalizeRepository(host + "/" + rest) == HUB + "/" + (if '/' in rest then rest else LIBRARY + rest)
  {
    assert '.' in host by { assert HUB[6] == '.' && INDEX[5] == '.'; }
    SplitOnceFinds(host, '/', rest);
  }

  lemma LibraryPrefixFolds(name: string)
    ensures NormalizeRepository(LIBRARY + name) == HUB + "/" + (LIBRARY + name)
  {
    assert LIBRARY == "library" + "/";
    assert LIBRARY + name == "library" + "/" + name;
    SplitOnceFinds("library", '/', name);
  }

  /** The four long spellings of an official image agree, and the bare name joins them
      exactly when it does not look like a registry host. */
  lemma HubSpellingsAgree(name: string)
    requires '/' !in name
    ensures var short := LIBRARY + name;
            var long := HUB + "/" + short;
            && NormalizeRepository(long) == long
            && NormalizeRepository(INDEX + "/" + short) == long
            && NormalizeRepository(short) == long
            && NormalizeRepository(HUB + "/" + name) == long
            && (NormalizeRepository(name) == long <==> !IsRegistryHost(name))
  {
    hide IsRegistryHost, NormalizeRepository;
    var short := LIBRARY + name;
    assert short[7] == '/';
    HubPrefixFolds(HUB, short);
    HubPrefixFolds(INDEX, short);
    HubPrefixFolds(HUB, name);
    LibraryPrefixFolds(name);
    BareNameFolds(name);
  }

  lemma BareNameFolds(name: string)
    requires '/' !in name
    ensures NormalizeRepository(name) == HUB + "/" + (LIBRARY + name) <==> !IsRegistryHost(name)
  {
    hide IsRegistryHost;
    var long := HUB + "/" + (LIBRARY + name);
    assert long == HUB + "/" + LIBRARY + name && long[9] == '/';
  }

  // ---- The spellings of a repository ----------------------------------------------------------

  /** A first component with a dot, a colon or the one exception is a registry's. */
  predicate NamesARegistry(first: string) {
    (exists i | 0 <= i < |first| :: first[i] == '.' || first[i] == ':') || first == "localhost"
  }

  /** A repository of another registry than the Hub, or a lone registry name. */
  ghost predicate IsElsewhere(name: string) {
    || ('/' !in name && NamesARegistry(name))
    || exists host, rest :: name == host + "/" + rest && '/' !in host && NamesARegistry(host)
                            && host != "docker.io" && host != "index.docker.io"
  }

  /** A repository of the Hub: under the registry's name or its older one, without either where
      the path does not look like another registry's, and without `library` for an official image. */
  ghost predicate IsOnTheHub(repo: string, path: string) {
    || repo == "docker.io/" + path || repo == "index.docker.io/" + path
    || (repo == path && exists owner, rest :: path == owner + "/" + rest && '/' !in owner && !NamesARegistry(owner))
    || exists image :: '/' !in image && path == "library/" + image
                       && (repo == "docker.io/" + image || repo == "index.docker.io/" + image
                           || (repo == image && !NamesARegistry(image)))
  }

  ghost predicate Spells(repo: string, name: string) {
    || (repo == name && IsElsewhere(name))
    || exists path :: name == "docker.io/" + path && '/' in path && IsOnTheHub(repo, path)
  }

  ghost predicate SameRepository(a: string, b: string) {
    exists name :: Spells(a, name) && Spells(b, name)
  }

  lemma HostMeans(first: string)
    ensures IsRegistryHost(first) <==> NamesARegistry(first)
  {
  }

  lemma NormalizedIsSpelled(repo: string)
    ensures Spells(repo, NormalizeRepository(repo))
  {
    hide IsRegistryHost, NamesARegistry;
    var name := NormalizeRepository(repo);
    match SplitOnce(repo, '/') {
      case Some((first, rest)) =>
        HostMeans(first);
        assert repo == first + "/" + rest;
        if !IsRegistryHost(first) {
          assert name == "docker.io/" + repo && repo[|first|] == '/';
          assert IsOnTheHub(repo, repo);
        } else if first == HUB || first == INDEX {
          var path := if '/' in rest then rest else LIBRARY + rest;
          assert (LIBRARY + rest)[7] == '/';
          assert name == "docker.io/" + path;
          assert repo == if first == HUB then "docker.io/" + rest else "index.docker.io/" + rest;
          assert IsOnTheHub(repo, path);
        } else {
          assert IsElsewhere(repo);
        }
      case None =>
        HostMeans(repo);
        if !IsRegistryHost(repo) {
          var path := LIBRARY + repo;
          assert path[7] == '/' && name == "docker.io/" + path;
          assert IsOnTheHub(repo, path);
        }
    }
  }

  lemma ElsewhereStays(name: string)
    requires IsElsewhere(name)
    ensures NormalizeRepository(name) == name
  {
    hide IsRegistryHost, NamesARegistry;
    if '/' !in name && NamesARegistry(name) {
      HostMeans(name);
    } else {
      var host, rest :| name == host + "/" + rest && '/' !in host && NamesARegistry(host)
                        && host != "docker.io" && host != "index.docker.io";
      HostMeans(host);
      SplitOnceFinds(host, '/', rest);
    }
  }

  lemma HubIsFolded(repo: string, path: string)
    requires '/' in path && IsOnTheHub(repo, path)
    ensures NormalizeRepository(repo) == "docker.io/" + path
  {
    hide IsRegistryHost, NamesARegistry, NormalizeRepository;
    assert HUB + "/" == "docker.io/" && INDEX + "/" == "index.docker.io/";
    if repo == "docker.io/" + path {
      HubPrefixFolds(HUB, path);
    } else if repo == "index.docker.io/" + path {
      HubPrefixFolds(INDEX, path);
    } else if owner, rest :| repo == path == owner + "/" + rest && '/' !in owner && !NamesARegistry(owner) {
      HostMeans(owner);
      OwnerFolds(owner, rest);
    } else {
      var image :| '/' !in image && path == "library/" + image
                   && (repo == "docker.io/" + image || repo == "index.docker.io/" + image
                       || (repo == image && !NamesARegistry(image)));
      HostMeans(image);
      HubPrefixFolds(HUB, image);
      HubPrefixFolds(INDEX, image);
      BareNameFolds(image);
      assert HUB + "/" + (LIBRARY + image) == "docker.io/" + path;
    }
  }

  lemma OwnerFolds(owner: string, rest: string)
    requires '/' !in owner && !IsRegistryHost(owner)
    ensures NormalizeRepository(owner + "/" + rest) == HUB + "/" + (owner + "/" + rest)
  {
    hide IsRegistryHost;
    SplitOnceFinds(owner, '/', rest);
  }

  /** Normalising gives the one name that a repository's spellings share. */
  lemma NormalizedIsTheName(repo: string, name: string)
    ensures NormalizeRepository(repo) == name <==> Spells(repo, name)
  {
    hide NormalizeRepository, IsElsewhere, IsOnTheHub;
    NormalizedIsSpelled(repo);
    if Spells(repo, name) {
      if path :| name == "docker.io/" + path && '/' in path && IsOnTheHub(repo, path) {
        HubIsFolded(repo, path);
      } else {
        ElsewhereStays(name);
      }
    }
  }

  lemma SameRepositoryMeans(a: string, b: string)
    ensures SameRepository(a, b) <==> NormalizeRepository(a) == NormalizeRepository(b)
  {
    hide NormalizeRepository, Spells;
    forall name ensures (NormalizeRepository(a) == name <==> Spells(a, name)) && (NormalizeRepository(b) == name <==> Spells(b, name)) {
      NormalizedIsTheName(a, name);
      NormalizedIsTheName(b, name);
    }
    assert Spells(a, NormalizeRepository(a)) && Spells(b, NormalizeRepository(b));
  }

  // ---- The recorded digest -----------------------------------------------------------------

  predicate EntryMatches(entry: string, repo: string) {
    match SplitOnce(entry, '@')
    case None => false
    case Some((name, digest)) => NormalizeRepository(name) == NormalizeRepository(repo)
  }

  function FindLocalDigest(digests: seq<string>, repo: string): Option<string> {
    if digests == [] then None
    else if EntryMatches(digests[0], repo) then Some(SplitOnce(digests[0], '@').value.1)
    else FindLocalDigest(digests[1..], repo)
  }

  /** An entry with this digest, under some spelling of the repository. */
  ghost predicate Records(entry: string, repo: string, digest: string) {
    exists name :: entry == name + "@" + digest && '@' !in name && SameRepository(name, repo)
  }

  ghost predicate RecordsNothing(entry: string, repo: string) {
    forall digest :: !Records(entry, repo, digest)
  }

  /** The first entry under any spelling of the repository, if there is one. */
  ghost predicate RecordedAt(digests: seq<string>, repo: string, i: int, digest: string) {
    && 0 <= i < |digests| && Records(digests[i], repo, digest)
    && forall j | 0 <= j < i :: RecordsNothing(digests[j], repo)
  }

  lemma EntryMeans(entry: string, repo: string, digest: string)
    ensures Records(entry, repo, digest) <==> EntryMatches(entry, repo) && SplitOnce(entry, '@').value.1 == digest
  {
    hide SameRepository, NormalizeRepository;
    if name :| entry == name + "@" + digest && '@' !in name && SameRepository(name, repo) {
      SplitOnceFinds(name, '@', digest);
      SameRepositoryMeans(name, repo);
    }
    if EntryMatches(entry, repo) && SplitOnce(entry, '@').value.1 == digest {
      SameRepositoryMeans(SplitOnce(entry, '@').value.0, repo);
      assert Records(entry, repo, digest);
    }
  }

  lemma NoEntryMeans(entry: string, repo: string)
    ensures RecordsNothing(entry, repo) <==> !EntryMatches(entry, repo)
  {
    hide Records, NormalizeRepository;
    forall digest ensures Records(entry, repo, digest) <==> EntryMatches(entry, repo) && SplitOnce(entry, '@').value.1 == digest {
      EntryMeans(entry, repo, digest);
    }
    if EntryMatches(entry, repo) {
      MatchingEntrySplits(entry, repo);
      assert Records(entry, repo, SplitOnce(entry, '@').value.1);
    }
  }

  lemma MatchingEntrySplits(entry: string, repo: string)
    requires EntryMatches(entry, repo)
    ensures SplitOnce(entry, '@').Some?
  {
  }

  /** The digest found is that of the first entry under some spelling of the repository, and
      none is found when there is no such entry. */
  lemma {:induction false} LocalDigestIsTheFirst(digests: seq<string>, repo: string)
    ensures forall digest :: FindLocalDigest(digests, repo) == Some(digest) <==> exists i :: RecordedAt(digests, repo, i, digest)
    ensures FindLocalDigest(digests, repo).None? <==> forall i | 0 <= i < |digests| :: RecordsNothing(digests[i], repo)
  {
    hide EntryMatches, Records, RecordsNothing;
    if digests != [] {
      var entry, rest := digests[0], digests[1..];
      NoEntryMeans(entry, repo);
      LocalDigestIsTheFirst(rest, repo);
      assert forall j | 0 < j < |digests| :: digests[j] == rest[j - 1];
      forall digest ensures FindLocalDigest(digests, repo) == Some(digest) <==> exists i :: RecordedAt(digests, repo, i, digest) {
        EntryMeans(entry, repo, digest);
        FirstOrLater(digests, repo, digest);
      }
    }
  }

  lemma FirstOrLater(digests: seq<string>, repo: string, digest: string)
    requires digests != []
    ensures (exists i :: RecordedAt(digests, repo, i, digest)) <==>
            if RecordsNothing(digests[0], repo) then exists i :: RecordedAt(digests[1..], repo, i, digest)
            else Records(digests[0], repo, digest)
  {
    hide Records;
    var rest := digests[1..];
    assert forall j | 0 < j < |digests| :: digests[j] == rest[j - 1];
    if i :| RecordedAt(digests, repo, i, digest) {
      if i > 0 { assert RecordedAt(rest, repo, i - 1, digest); }
    }
    if RecordsNothing(digests[0], repo) {
      if i :| RecordedAt(rest, repo, i, digest) {
        forall j | 0 <= j < i + 1 ensures RecordsNothing(digests[j], repo) {
          if j > 0 { assert digests[j] == rest[j - 1]; }
        }
        assert RecordedAt(digests, repo, i + 1, digest);
      }
    } else if Records(digests[0], repo, digest) {
      assert RecordedAt(digests, repo, 0, digest);
    }
  }

  predicate IsOfficial(repo: string, image: string) {
    || repo == "library/" + image || repo == "docker.io/" + image || repo == "docker.io/library/" + image
    || repo == "index.docker.io/library/" + image || (repo == image && !NamesARegistry(image))
  }

  /** An official image's entry is found under any spelling of the repository, whichever the
      entry has; a name that looks like a registry's is one only with its prefix. */
  lemma OfficialImageIsFound(image: string, digest: string, asked: string, recorded: string)
    requires '/' !in image && '@' !in image
    requires IsOfficial(asked, image) && IsOfficial(recorded, image)
    ensures FindLocalDigest([recorded + "@" + digest], asked) == Some(digest)
  {
    hide NormalizeRepository, IsOfficial;
    OfficialNormalizes(asked, image);
    OfficialNormalizes(recorded, image);
    SplitOnceFinds(recorded, '@', digest);
    assert [recorded + "@" + digest][0] == recorded + ['@'] + digest;
  }

  lemma OfficialNormalizes(repo: string, image: string)
    requires '/' !in image && '@' !in image && IsOfficial(repo, image)
    ensures NormalizeRepository(repo) == "docker.io/library/" + image && '@' !in repo
  {
    hide NormalizeRepository, NamesARegistry, IsRegistryHost;
    HubSpellingsAgree(image);
    HostMeans(image);
    NoSignIn(image);
    assert HUB + "/" == "docker.io/" && INDEX + "/" == "index.docker.io/";
    assert HUB + "/" + (LIBRARY + image) == "docker.io/library/" + image;
    assert INDEX + "/" + (LIBRARY + image) == "index.docker.io/library/" + image;
  }

  lemma NoSignIn(image: string)
    requires '@' !in image
    ensures '@' !in "library/" + image && '@' !in "docker.io/" + image
    ensures '@' !in "docker.io/library/" + image && '@' !in "index.docker.io/library/" + image
  {
  }
}
