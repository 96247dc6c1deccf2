/** Exactly when the order of addition shows in the rendered text, whatever merges: groups
    must come to the same lines in every order, and groups with different lines must stand
    in a fixed order. */
module GroupOrder {
  import opened Wrappers
  import opened TelegrafModel
  import opened RenderOrder
  import opened Renderer
  import opened AdditionOrder
  import opened MergeOrder

  // ---- The groups of a bucket ----------------------------------------------------------------

  /** What an instance is added to: the group with its plugin and merge key, or nothing else. */
  datatype Id = Group(plugin: string, key: string) | Single(x: PluginInstance)

  function IdOf(x: PluginInstance): Id {
    match x.mergeKey
    case Some(key) => Group(x.plugin, key)
    case None => Single(x)
  }

  function Picked(xs: seq<PluginInstance>, id: Id): seq<PluginInstance> {
    if xs == [] then []
    else (if IdOf(xs[0]) == id then [xs[0]] else []) + Picked(xs[1..], id)
  }

  /** Those that merge into one, in order. */
  function Members(xs: seq<PluginInstance>, id: Id): seq<PluginInstance> {
    match id
    case Single(x) => [x]
    case Group(_, _) => Picked(xs, id)
  }

  lemma {:induction false} PickedCounts(xs: seq<PluginInstance>, id: Id, x: PluginInstance)
    ensures multiset(Picked(xs, id))[x] == if IdOf(x) == id then multiset(xs)[x] else 0
  {
    if xs != [] {
      PickedCounts(xs[1..], id, x);
      assert xs == [xs[0]] + xs[1..];
    }
  }

  lemma PickedHolds(xs: seq<PluginInstance>, id: Id)
    ensures forall x :: x in Picked(xs, id) <==> x in xs && IdOf(x) == id
  {
    forall x ensures x in Picked(xs, id) <==> x in xs && IdOf(x) == id {
      PickedCounts(xs, id, x);
      assert x in Picked(xs, id) <==> x in multiset(Picked(xs, id));
      assert x in xs <==> x in multiset(xs);
    }
  }

  lemma MembersPermute(xs: seq<PluginInstance>, ys: seq<PluginInstance>, id: Id)
    requires multiset(xs) == multiset(ys)
    ensures multiset(Members(xs, id)) == multiset(Members(ys, id))
  {
    forall x ensures multiset(Picked(xs, id))[x] == multiset(Picked(ys, id))[x] {
      PickedCounts(xs, id, x);
      PickedCounts(ys, id, x);
    }
  }

  lemma {:induction false} SameIsPicked(xs: seq<PluginInstance>, x: PluginInstance)
    ensures Same(xs, x) == if x.mergeKey.Some? then Picked(xs, IdOf(x)) else []
    ensures x.mergeKey.None? ==> Others(xs, x) == xs
  {
    if xs != [] { SameIsPicked(xs[1..], x); }
  }

  lemma {:induction false} OthersPick(xs: seq<PluginInstance>, x: PluginInstance, id: Id)
    ensures Picked(Others(xs, x), id) == if x.mergeKey.Some? && id == IdOf(x) then [] else Picked(xs, id)
  {
    if xs != [] {
      OthersPick(xs[1..], x, id);
      var rest := Others(xs[1..], x);
      assert SameGroup(x, xs[0]) <==> x.mergeKey.Some? && IdOf(x) == IdOf(xs[0]);
      if SameGroup(x, xs[0]) {
        assert Others(xs, x) == rest;
      } else {
        assert Others(xs, x) == [xs[0]] + rest && ([xs[0]] + rest)[1..] == rest;
      }
    }
  }

  lemma {:induction false} OthersCount(xs: seq<PluginInstance>, x: PluginInstance, y: PluginInstance)
    ensures multiset(Others(xs, x))[y] == if SameGroup(x, y) then 0 else multiset(xs)[y]
  {
    if xs != [] {
      OthersCount(xs[1..], x, y);
      assert xs == [xs[0]] + xs[1..];
    }
  }

  lemma HeadGroup(xs: seq<PluginInstance>)
    requires xs != []
    ensures Members(xs, IdOf(xs[0])) != []
    ensures Fold(xs[0], Same(xs[1..], xs[0])) == Whole(Members(xs, IdOf(xs[0])))
  {
    SameIsPicked(xs[1..], xs[0]);
    assert Members(xs, IdOf(xs[0])) == [xs[0]] + Same(xs[1..], xs[0]);
  }

  lemma IdOfWhole(xs: seq<PluginInstance>, id: Id)
    requires xs != [] && IdOf(xs[0]) == id && (id.Single? ==> xs == [xs[0]])
    ensures IdOf(Whole(xs)) == id && Whole(xs).rank == xs[0].rank && Whole(xs).plugin == xs[0].plugin
  {
    FoldKeepsGroup(xs[0], xs[1..]);
  }

  /** A bucket holds the whole of each group. */
  lemma {:induction false} GroupsAreWholes(xs: seq<PluginInstance>)
    ensures forall g | g in Groups(xs) ::
              Members(xs, IdOf(g)) != [] && g == Whole(Members(xs, IdOf(g))) && exists x :: x in xs && IdOf(x) == IdOf(g)
    decreases |xs|
  {
    hide Whole, Fold, Picked;
    if xs != [] {
      var x, others := xs[0], Others(xs[1..], xs[0]);
      HeadGroup(xs);
      MembersStart(xs);
      IdOfWhole(Members(xs, IdOf(x)), IdOf(x));
      GroupsAreWholes(others);
      assert Groups(xs) == [Whole(Members(xs, IdOf(x)))] + Groups(others);
      forall g | g in Groups(others)
        ensures Members(xs, IdOf(g)) != [] && g == Whole(Members(xs, IdOf(g))) && exists y :: y in xs && IdOf(y) == IdOf(g)
      {
        OthersAreOthers(xs[1..], x);
        LaterMembers(xs, g);
      }
    }
  }

  lemma MembersStart(xs: seq<PluginInstance>)
    requires xs != []
    ensures var g := Members(xs, IdOf(xs[0])); g != [] && g[0] == xs[0] && (IdOf(xs[0]).Single? ==> g == [xs[0]])
  {
  }

  lemma LaterMembers(xs: seq<PluginInstance>, g: PluginInstance)
    requires xs != []
    requires var others := Others(xs[1..], xs[0]);
             Members(others, IdOf(g)) != [] && exists y :: y in others && IdOf(y) == IdOf(g)
    ensures Members(xs, IdOf(g)) == Members(Others(xs[1..], xs[0]), IdOf(g))
    ensures exists y :: y in xs && IdOf(y) == IdOf(g)
  {
    OthersPick(xs[1..], xs[0], IdOf(g));
    OthersAreOthers(xs[1..], xs[0]);
    var y :| y in Others(xs[1..], xs[0]) && IdOf(y) == IdOf(g);
    assert y in xs;
  }

  // ---- Lists taken apart -------------------------------------------------------------------------

  function Mapped<T>(f: PluginInstance -> T, gs: seq<PluginInstance>): (ts: seq<T>)
    ensures |ts| == |gs| && forall i | 0 <= i < |gs| :: ts[i] == f(gs[i])
  {
    seq(|gs|, i requires 0 <= i < |gs| => f(gs[i]))
  }

  lemma MappedMore<T>(f: PluginInstance -> T, g: PluginInstance, gs: seq<PluginInstance>)
    ensures Mapped(f, [g] + gs) == [f(g)] + Mapped(f, gs)
  {
  }

  lemma {:induction false} InsertMapped<T>(f: PluginInstance -> T, x: PluginInstance, ys: seq<PluginInstance>)
    ensures multiset(Mapped(f, Insert(x, ys))) == multiset{f(x)} + multiset(Mapped(f, ys))
  {
    hide Le, Mapped;
    if ys == [] || Le(x, ys[0]) {
      MappedMore(f, x, ys);
    } else {
      InsertMapped(f, x, ys[1..]);
      MappedMore(f, ys[0], Insert(x, ys[1..]));
      MappedMore(f, ys[0], ys[1..]);
      assert ys == [ys[0]] + ys[1..];
    }
  }

  lemma {:induction false} SortMapped<T>(f: PluginInstance -> T, xs: seq<PluginInstance>)
    ensures multiset(Mapped(f, Sort(xs))) == multiset(Mapped(f, xs))
  {
    if xs != [] {
      SortMapped(f, xs[1..]);
      InsertMapped(f, xs[0], Sort(xs[1..]));
      MappedMore(f, xs[0], xs[1..]);
      assert xs == [xs[0]] + xs[1..];
    }
  }

  /** How many groups of this kind a bucket holds. */
  function IdCount(xs: seq<PluginInstance>, id: Id): nat {
    match id
    case Single(x) => if x.mergeKey.None? then multiset(xs)[x] else 0
    case Group(_, _) => if Picked(xs, id) == [] then 0 else 1
  }

  lemma {:induction false} IdsCount(xs: seq<PluginInstance>, id: Id)
    ensures multiset(Mapped(IdOf, Groups(xs)))[id] == IdCount(xs, id)
    decreases |xs|
  {
    if xs != [] {
      var x, others := xs[0], Others(xs[1..], xs[0]);
      IdsCount(others, id);
      MembersStart(xs);
      HeadGroup(xs);
      IdOfWhole(Members(xs, IdOf(x)), IdOf(x));
      var w := Whole(Members(xs, IdOf(x)));
      assert Groups(xs) == [w] + Groups(others);
      MappedMore(IdOf, w, Groups(others));
      FirstIsCounted(xs, id);
    }
  }

  lemma FirstIsCounted(xs: seq<PluginInstance>, id: Id)
    requires xs != []
    ensures IdCount(xs, id) == (if IdOf(xs[0]) == id then 1 else 0) + IdCount(Others(xs[1..], xs[0]), id)
  {
    var x, rest := xs[0], xs[1..];
    OthersPick(rest, x, id);
    assert xs == [x] + rest;
    if id.Single? { OthersCount(rest, x, id.x); }
  }

  lemma IdsPermute(xs: seq<PluginInstance>, ys: seq<PluginInstance>)
    requires multiset(xs) == multiset(ys)
    ensures multiset(Mapped(IdOf, Sort(Groups(xs)))) == multiset(Mapped(IdOf, Sort(Groups(ys))))
  {
    hide Groups, Sort, IdOf;
    SortMapped(IdOf, Groups(xs));
    SortMapped(IdOf, Groups(ys));
    forall id ensures multiset(Mapped(IdOf, Groups(xs)))[id] == multiset(Mapped(IdOf, Groups(ys)))[id] {
      IdsCount(xs, id);
      IdsCount(ys, id);
      MembersPermute(xs, ys, id);
      if id.Group? { SameLength(Picked(xs, id), Picked(ys, id)); }
    }
  }

  lemma SameLength<T>(a: seq<T>, b: seq<T>)
    requires multiset(a) == multiset(b)
    ensures |a| == |b|
  {
    assert |multiset(a)| == |a| && |multiset(b)| == |b|;
  }

  // ---- Lists whose order is fixed where labels differ -----------------------------------------------

  ghost predicate InFixedOrder<I(!new), L(!new)>(a: seq<I>, show: I -> L, before: (I, I) -> bool) {
    forall i, j | 0 <= i < j < |a| && show(a[i]) != show(a[j]) :: before(a[i], a[j])
  }

  /** Two orders of the same things, both fixed where labels differ, show the same labels. */
  lemma {:induction false} FixedOrderShowsLabels<I(!new), L(!new)>(a: seq<I>, b: seq<I>, show: I -> L, before: (I, I) -> bool)
    requires multiset(a) == multiset(b)
    requires InFixedOrder(a, show, before) && InFixedOrder(b, show, before)
    requires forall p, q :: !(before(p, q) && before(q, p))
    ensures |a| == |b| && forall i | 0 <= i < |a| :: show(a[i]) == show(b[i])
  {
    SameLength(a, b);
    if a != [] {
      var j := FirstOccurrence(a, b);
      var rest := b[..j] + b[j + 1..];
      OneTakenOut(a, b, j);
      PartsKeepOrder(a, b, j, show, before);
      FixedOrderShowsLabels(a[1..], rest, show, before);
      FrontIsAlike(a, b, j, show, before);
      hide InFixedOrder;
      BackInPlace(a, b, j, show);
    }
  }

  lemma OneTakenOut<I>(a: seq<I>, b: seq<I>, j: nat)
    requires a != [] && multiset(a) == multiset(b) && j < |b| && b[j] == a[0]
    ensures multiset(a[1..]) == multiset(b[..j] + b[j + 1..])
  {
    assert a == [a[0]] + a[1..] && b == b[..j] + [a[0]] + b[j + 1..];
    assert multiset(a[1..]) == multiset(a) - multiset{a[0]} == multiset(b[..j] + b[j + 1..]);
  }

  lemma BackInPlace<I(!new), L(!new)>(a: seq<I>, b: seq<I>, j: nat, show: I -> L)
    requires |a| == |b| && j < |b| && forall i | 0 <= i <= j :: show(b[i]) == show(a[0])
    requires var rest := b[..j] + b[j + 1..]; forall i | 0 <= i < |rest| :: show(a[1..][i]) == show(rest[i])
    ensures forall i | 0 <= i < |a| :: show(a[i]) == show(b[i])
  {
    var rest := b[..j] + b[j + 1..];
    forall i | 0 < i < |a| ensures show(a[i]) == show(b[i]) {
      assert a[i] == a[1..][i - 1];
      assert rest[i - 1] == if i - 1 < j then b[i - 1] else b[i];
    }
  }

  lemma FirstOccurrence<I(!new)>(a: seq<I>, b: seq<I>) returns (j: nat)
    requires a != [] && multiset(a) == multiset(b)
    ensures j < |b| && b[j] == a[0] && a[0] !in b[..j]
  {
    assert a[0] in multiset(b);
    var k :| 0 <= k < |b| && b[k] == a[0];
    j := 0;
    while b[j] != a[0]
      invariant j <= k && a[0] !in b[..j]
      decreases k - j
    {
      assert b[..j + 1] == b[..j] + [b[j]];
      j := j + 1;
    }
  }

  lemma PartsKeepOrder<I(!new), L(!new)>(a: seq<I>, b: seq<I>, j: nat, show: I -> L, before: (I, I) -> bool)
    requires a != [] && j < |b| && InFixedOrder(a, show, before) && InFixedOrder(b, show, before)
    ensures InFixedOrder(a[1..], show, before) && InFixedOrder(b[..j] + b[j + 1..], show, before)
  {
    var rest := b[..j] + b[j + 1..];
    forall i, k | 0 <= i < k < |rest| && show(rest[i]) != show(rest[k]) ensures before(rest[i], rest[k]) {
      var m, n := if i < j then i else i + 1, if k < j then k else k + 1;
      assert rest[i] == b[m] && rest[k] == b[n];
    }
  }

  /** What has been moved in front of it has the same label. */
  lemma FrontIsAlike<I(!new), L(!new)>(a: seq<I>, b: seq<I>, j: nat, show: I -> L, before: (I, I) -> bool)
    requires a != [] && multiset(a) == multiset(b) && j < |b| && b[j] == a[0] && a[0] !in b[..j]
    requires InFixedOrder(a, show, before) && InFixedOrder(b, show, before)
    requires forall p, q :: !(before(p, q) && before(q, p))
    ensures forall i | 0 <= i <= j :: show(b[i]) == show(a[0])
  {
    forall i | 0 <= i < j ensures show(b[i]) == show(a[0]) {
      assert b[i] in multiset(a) && b[i] in b[..j];
      var k :| 0 <= k < |a| && a[k] == b[i];
      OrderedAt(a, 0, k, show, before);
      OrderedAt(b, i, j, show, before);
    }
  }

  lemma OrderedAt<I(!new), L(!new)>(a: seq<I>, i: nat, j: nat, show: I -> L, before: (I, I) -> bool)
    requires InFixedOrder(a, show, before) && i < j < |a|
    ensures show(a[i]) == show(a[j]) || before(a[i], a[j])
  {
  }

  // ---- When no order of a bucket shows ---------------------------------------------------------------

  /** Keys that do not repeat, and names that can be told apart. */
  predicate WellFormed(xs: seq<PluginInstance>) {
    forall i | 0 <= i < |xs| :: UniquelyKeyed(xs[i]) && Plain(xs[i])
  }

  /** The lines a group comes to. */
  function LinesOf(xs: seq<PluginInstance>, id: Id): seq<Line> {
    if Members(xs, id) == [] then [] else InstanceLines(Whole(Members(xs, id)))
  }

  /** Every one of these stands strictly before every one of those. */
  predicate AllBefore(g: seq<PluginInstance>, h: seq<PluginInstance>) {
    forall i, j | 0 <= i < |g| && 0 <= j < |h| :: !Le(h[j], g[i])
  }

  predicate Before(xs: seq<PluginInstance>, p: Id, q: Id) {
    Members(xs, p) != [] && Members(xs, q) != [] && AllBefore(Members(xs, p), Members(xs, q))
  }

  predicate FixedPair(xs: seq<PluginInstance>, p: Id, q: Id) {
    LinesOf(xs, p) == LinesOf(xs, q) || Before(xs, p, q) || Before(xs, q, p)
  }

  /** Members of a group are interchangeable, and two groups with different lines stand in
      a fixed order, whichever of their members come first. */
  ghost predicate OrderIsFree(xs: seq<PluginInstance>) {
    && (forall x | x in xs :: AllInterchangeable(Members(xs, IdOf(x))))
    && (forall x, y | x in xs && y in xs :: FixedPair(xs, IdOf(x), IdOf(y)))
  }

  ghost predicate BucketNeverShows(xs: seq<PluginInstance>) {
    forall ys | multiset(ys) == multiset(xs) :: InstancesLines(Sort(AddAll(ys))) == InstancesLines(Sort(AddAll(xs)))
  }

  lemma BeforeIsOneWay(xs: seq<PluginInstance>)
    ensures forall p, q :: !(Before(xs, p, q) && Before(xs, q, p))
  {
    forall p, q ensures !(Before(xs, p, q) && Before(xs, q, p)) {
      var g, h := Members(xs, p), Members(xs, q);
      if g != [] && h != [] { LeTotal(g[0], h[0]); }
    }
  }

  lemma MembersOfOne(xs: seq<PluginInstance>, x: PluginInstance)
    requires x in xs
    ensures x in Members(xs, IdOf(x))
    ensures forall y | y in Members(xs, IdOf(x)) :: y in xs && IdOf(y) == IdOf(x) && y.plugin == x.plugin
  {
    PickedHolds(xs, IdOf(x));
  }

  lemma MembersAreAGroup(xs: seq<PluginInstance>, x: PluginInstance)
    requires WellFormed(xs) && x in xs
    ensures IsGroup(Members(xs, IdOf(x)))
  {
    hide UniquelyKeyed, Plain;
    MembersOfOne(xs, x);
    var g := Members(xs, IdOf(x));
    forall i | 0 <= i < |g| ensures UniquelyKeyed(g[i]) && Plain(g[i]) && g[i].plugin == g[0].plugin {
      assert g[i] in g && g[0] in g;
      var k :| 0 <= k < |xs| && xs[k] == g[i];
    }
  }

  /** Whatever the order, the whole of a group has its lines and stands where one of its
      members does. */
  lemma WholeInAnyOrder(xs: seq<PluginInstance>, ys: seq<PluginInstance>, w: PluginInstance)
    requires WellFormed(xs) && OrderIsFree(xs) && multiset(ys) == multiset(xs) && w in Groups(ys)
    ensures InstanceLines(w) == LinesOf(xs, IdOf(w))
    ensures exists i :: 0 <= i < |Members(xs, IdOf(w))| && SamePlace(w, Members(xs, IdOf(w))[i])
    ensures exists x :: x in xs && IdOf(x) == IdOf(w)
  {
    hide InstanceLines, Whole, Groups, UniquelyKeyed, Plain, AllInterchangeable;
    GroupsAreWholes(ys);
    var id := IdOf(w);
    var y :| y in ys && IdOf(y) == id;
    SameMembers(xs, ys);
    MembersPermute(xs, ys, id);
    MembersAreAGroup(xs, y);
    GroupOrderShowsExactly(Members(xs, id));
    MembersOfOne(ys, y);
    FirstGivesThePlace(Members(ys, id), id);
    SameMembers(Members(xs, id), Members(ys, id));
    assert Members(ys, id)[0] in Members(xs, id);
  }

  lemma FirstGivesThePlace(g: seq<PluginInstance>, id: Id)
    requires g != [] && (forall y | y in g :: IdOf(y) == id) && (id.Single? ==> |g| == 1)
    ensures SamePlace(Whole(g), g[0]) && IdOf(Whole(g)) == id
  {
    IdOfWhole(g, id);
  }

  lemma {:induction false} AscendingAt(xs: seq<PluginInstance>, i: nat, j: nat)
    requires Ascending(xs) && i < j < |xs|
    ensures Le(xs[i], xs[j])
  {
    if i > 0 {
      AscendingAt(xs[1..], i - 1, j - 1);
    } else {
      assert xs[j] == xs[1..][j - 1];
    }
  }

  lemma SortedFrom(xs: seq<PluginInstance>)
    ensures Ascending(Sort(xs)) && forall w :: w in Sort(xs) <==> w in xs
  {
    SortSorts(xs);
    forall w ensures w in Sort(xs) <==> w in xs {
      assert w in Sort(xs) <==> w in multiset(Sort(xs));
      assert w in xs <==> w in multiset(xs);
    }
  }

  lemma PlaceDecides(xs: seq<PluginInstance>, p: Id, q: Id, w: PluginInstance, v: PluginInstance)
    requires Le(w, v)
    requires exists i :: 0 <= i < |Members(xs, p)| && SamePlace(w, Members(xs, p)[i])
    requires exists j :: 0 <= j < |Members(xs, q)| && SamePlace(v, Members(xs, q)[j])
    ensures !Before(xs, q, p)
  {
    hide Members;
    var i :| 0 <= i < |Members(xs, p)| && SamePlace(w, Members(xs, p)[i]);
    var j :| 0 <= j < |Members(xs, q)| && SamePlace(v, Members(xs, q)[j]);
    assert Le(Members(xs, p)[i], Members(xs, q)[j]);
  }

  /** In any order, groups with different lines come out in their fixed order. */
  lemma GroupsInFixedOrder(xs: seq<PluginInstance>, ys: seq<PluginInstance>)
    requires WellFormed(xs) && OrderIsFree(xs) && multiset(ys) == multiset(xs)
    ensures var gs := Sort(Groups(ys));
            && InFixedOrder(Mapped(IdOf, gs), id => LinesOf(xs, id), (p, q) => Before(xs, p, q))
            && forall i | 0 <= i < |gs| :: InstanceLines(gs[i]) == LinesOf(xs, IdOf(gs[i]))
  {
    hide InstanceLines, Groups, Sort, Ascending, LinesOf, Before, Members, IdOf, WellFormed, AllInterchangeable, Le, SamePlace;
    var gs := Sort(Groups(ys));
    SortedFrom(Groups(ys));
    forall i | 0 <= i < |gs| ensures InstanceLines(gs[i]) == LinesOf(xs, IdOf(gs[i])) {
      WholeInAnyOrder(xs, ys, gs[i]);
    }
    forall i, j | 0 <= i < j < |gs| && LinesOf(xs, IdOf(gs[i])) != LinesOf(xs, IdOf(gs[j]))
      ensures Before(xs, IdOf(gs[i]), IdOf(gs[j]))
    {
      WholeInAnyOrder(xs, ys, gs[i]);
      WholeInAnyOrder(xs, ys, gs[j]);
      AscendingAt(gs, i, j);
      PlaceDecides(xs, IdOf(gs[i]), IdOf(gs[j]), gs[i], gs[j]);
      assert FixedPair(xs, IdOf(gs[i]), IdOf(gs[j]));
    }
  }

  lemma FreeOrderNeverShows(xs: seq<PluginInstance>, ys: seq<PluginInstance>)
    requires WellFormed(xs) && OrderIsFree(xs) && multiset(ys) == multiset(xs)
    ensures InstancesLines(Sort(AddAll(ys))) == InstancesLines(Sort(AddAll(xs)))
  {
    hide InstanceLines, InstancesLines, Groups, Sort, AddAll, LinesOf, Before, IdOf, WellFormed, OrderIsFree, InFixedOrder;
    BucketHoldsGroups(xs);
    BucketHoldsGroups(ys);
    var a, b := Sort(Groups(xs)), Sort(Groups(ys));
    GroupsInFixedOrder(xs, xs);
    GroupsInFixedOrder(xs, ys);
    IdsPermute(xs, ys);
    BeforeIsOneWay(xs);
    FixedOrderShowsLabels(Mapped(IdOf, a), Mapped(IdOf, b), id => LinesOf(xs, id), (p, q) => Before(xs, p, q));
    forall i | 0 <= i < |a| ensures InstanceLines(a[i]) == InstanceLines(b[i]) {
      assert Mapped(IdOf, a)[i] == IdOf(a[i]) && Mapped(IdOf, b)[i] == IdOf(b[i]);
    }
    SameLinesRenderAlike(a, b);
  }

  // ---- Taking a group out of a bucket ------------------------------------------------------------------

  /** Without this group. */
  function Rest(xs: seq<PluginInstance>, id: Id): seq<PluginInstance> {
    if xs == [] then []
    else if IdOf(xs[0]) == id then (if id.Single? then xs[1..] else Rest(xs[1..], id))
    else [xs[0]] + Rest(xs[1..], id)
  }

  lemma {:induction false} RestCounts(xs: seq<PluginInstance>, id: Id, x: PluginInstance)
    ensures id.Group? ==> multiset(Rest(xs, id))[x] == if IdOf(x) == id then 0 else multiset(xs)[x]
    ensures id.Single? && x == id.x && x.mergeKey.None? && x in xs ==> multiset(Rest(xs, id))[x] == multiset(xs)[x] - 1
    ensures id.Single? && x != id.x ==> multiset(Rest(xs, id))[x] == multiset(xs)[x]
  {
    if xs != [] {
      RestCounts(xs[1..], id, x);
      assert xs == [xs[0]] + xs[1..];
    }
  }

  /** The group and the rest make up the bucket. */
  lemma SplitsOff(xs: seq<PluginInstance>, x: PluginInstance)
    requires x in xs
    ensures multiset(Members(xs, IdOf(x)) + Rest(xs, IdOf(x))) == multiset(xs)
  {
    var id := IdOf(x);
    forall y ensures multiset(Members(xs, id) + Rest(xs, id))[y] == multiset(xs)[y] {
      RestCounts(xs, id, y);
      PickedCounts(xs, id, y);
      assert id.Single? ==> multiset(Members(xs, id)) == multiset{x};
    }
  }

  lemma {:induction false} RestPicks(xs: seq<PluginInstance>, p: Id, q: Id)
    requires p != q
    ensures Picked(Rest(xs, p), q) == Picked(xs, q)
  {
    if xs != [] {
      RestPicks(xs[1..], p, q);
      var rest := Rest(xs[1..], p);
      assert ([xs[0]] + rest)[1..] == rest;
    }
  }

  lemma RestHolds(xs: seq<PluginInstance>, p: Id, y: PluginInstance)
    ensures y in xs && IdOf(y) != p ==> y in Rest(xs, p)
    ensures p.Group? && y in Rest(xs, p) ==> IdOf(y) != p
  {
    RestCounts(xs, p, y);
    assert y in xs <==> y in multiset(xs);
    assert y in Rest(xs, p) <==> y in multiset(Rest(xs, p));
  }

  lemma {:induction false} NoneOfTheGroup(xs: seq<PluginInstance>, x: PluginInstance)
    requires forall y | y in xs :: !SameGroup(x, y)
    ensures Same(xs, x) == [] && Others(xs, x) == xs
  {
    if xs != [] { NoneOfTheGroup(xs[1..], x); }
  }

  lemma {:induction false} GroupThenRest(t: seq<PluginInstance>, rest: seq<PluginInstance>, x: PluginInstance)
    requires (forall y | y in t :: SameGroup(x, y)) && forall y | y in rest :: !SameGroup(x, y)
    ensures Same(t + rest, x) == t && Others(t + rest, x) == rest
  {
    if t == [] {
      assert t + rest == rest;
      NoneOfTheGroup(rest, x);
    } else {
      assert (t + rest)[1..] == t[1..] + rest && (t + rest)[0] == t[0];
      GroupThenRest(t[1..], rest, x);
    }
  }

  /** All of one group, or one instance that merges with nothing. */
  predicate IsAll(g: seq<PluginInstance>, rest: seq<PluginInstance>, id: Id) {
    && g != [] && (forall y | y in g :: IdOf(y) == id) && (id.Single? ==> |g| == 1)
    && (id.Group? ==> forall y | y in rest :: IdOf(y) != id)
  }

  lemma GroupInFront(g: seq<PluginInstance>, rest: seq<PluginInstance>, id: Id)
    requires IsAll(g, rest, id)
    ensures Groups(g + rest) == [Whole(g)] + Groups(rest)
  {
    var x, t := g[0], g[1..];
    assert g == [x] + t && (g + rest)[1..] == t + rest;
    forall y ensures SameGroup(x, y) <==> id.Group? && IdOf(y) == id { assert IdOf(x) == id; }
    assert forall y | y in t :: y in g;
    if id.Group? {
      GroupThenRest(t, rest, x);
    } else {
      assert t == [] && t + rest == rest;
      NoneOfTheGroup(rest, x);
    }
  }

  lemma GroupAndRest(xs: seq<PluginInstance>, x: PluginInstance, g: seq<PluginInstance>)
    requires x in xs && multiset(g) == multiset(Members(xs, IdOf(x)))
    ensures IsAll(g, Rest(xs, IdOf(x)), IdOf(x)) && multiset(g + Rest(xs, IdOf(x))) == multiset(xs)
  {
    var id, h := IdOf(x), Members(xs, IdOf(x));
    SplitsOff(xs, x);
    MembersOfOne(xs, x);
    SameMembers(g, h);
    forall y ensures id.Group? && y in Rest(xs, id) ==> IdOf(y) != id { RestHolds(xs, id, y); }
  }

  // ---- When an order shows --------------------------------------------------------------------------

  lemma LinesTold(a: seq<PluginInstance>, b: seq<PluginInstance>)
    requires InstancesLines(a) == InstancesLines(b)
    ensures Mapped(InstanceLines, a) == Mapped(InstanceLines, b)
  {
    hide InstanceLines, InstancesLines;
    LinesTellTheInstances(a, b);
  }

  /** In every order, the same blocks. */
  lemma OrdersShowTheSame(xs: seq<PluginInstance>, a: seq<PluginInstance>, b: seq<PluginInstance>)
    requires BucketNeverShows(xs) && multiset(a) == multiset(xs) == multiset(b)
    ensures Mapped(InstanceLines, Sort(Groups(a))) == Mapped(InstanceLines, Sort(Groups(b)))
  {
    hide InstancesLines, InstanceLines, Sort, Groups, AddAll;
    BucketHoldsGroups(a);
    BucketHoldsGroups(b);
    LinesTold(Sort(Groups(a)), Sort(Groups(b)));
  }

  lemma OnlyOneDiffers<T>(t: T, u: T, rest: multiset<T>)
    requires multiset{t} + rest == multiset{u} + rest
    ensures t == u
  {
    assert (multiset{t} + rest)[t] == (multiset{u} + rest)[t];
  }

  /** So each group comes to the same lines in every order. */
  lemma GroupNeverShows(xs: seq<PluginInstance>, x: PluginInstance)
    requires BucketNeverShows(xs) && x in xs && Members(xs, IdOf(x)) != []
    ensures SameForEveryOrder(InstanceLines, Members(xs, IdOf(x)))
  {
    hide InstanceLines, Whole, Sort, Groups, Members, BucketNeverShows, IsAll, Mapped;
    var g, rest, id := Members(xs, IdOf(x)), Rest(xs, IdOf(x)), IdOf(x);
    forall h | h != [] && multiset(h) == multiset(g) ensures InstanceLines(Whole(h)) == InstanceLines(Whole(g)) {
      GroupAndRest(xs, x, g);
      GroupAndRest(xs, x, h);
      GroupInFront(g, rest, id);
      GroupInFront(h, rest, id);
      OrdersShowTheSame(xs, g + rest, h + rest);
      SortMapped(InstanceLines, Groups(g + rest));
      SortMapped(InstanceLines, Groups(h + rest));
      MappedMore(InstanceLines, Whole(g), Groups(rest));
      MappedMore(InstanceLines, Whole(h), Groups(rest));
      OnlyOneDiffers(InstanceLines(Whole(g)), InstanceLines(Whole(h)), multiset(Mapped(InstanceLines, Groups(rest))));
    }
  }

  // Inserting in another place shows when it passes different lines.

  lemma {:induction false} NotShifted(lines: seq<Line>, w: PluginInstance, t: seq<PluginInstance>, v: PluginInstance)
    requires Ascending(t) && v in t && !Le(w, v) && InstanceLines(w) == lines != InstanceLines(v)
    ensures [lines] + Mapped(InstanceLines, t) != Mapped(InstanceLines, Insert(w, t))
  {
    hide InstanceLines, Le;
    var head, tail := t[0], t[1..];
    assert t == [head] + tail;
    NotBeforeHead(w, t, v);
    MappedMore(InstanceLines, head, tail);
    MappedMore(InstanceLines, head, Insert(w, tail));
    if [lines] + Mapped(InstanceLines, t) == Mapped(InstanceLines, Insert(w, t)) {
      HeadAndTail(lines, Mapped(InstanceLines, t), InstanceLines(head), Mapped(InstanceLines, Insert(w, tail)));
      NotShifted(lines, w, tail, v);
    }
  }

  lemma HeadAndTail<T>(a: T, s: seq<T>, b: T, t: seq<T>)
    requires [a] + s == [b] + t
    ensures a == b && s == t
  {
    assert ([a] + s)[0] == a && ([b] + t)[0] == b && ([a] + s)[1..] == s && ([b] + t)[1..] == t;
  }

  lemma NotBeforeHead(w: PluginInstance, t: seq<PluginInstance>, v: PluginInstance)
    requires Ascending(t) && v in t && !Le(w, v)
    ensures !Le(w, t[0])
  {
    if Le(w, t[0]) && v != t[0] {
      assert v in t[1..];
      LeTransitive(w, t[0], v);
    }
  }

  /** From before `v` to behind it. */
  lemma {:induction false} MoveShows(w: PluginInstance, u: PluginInstance, t: seq<PluginInstance>, v: PluginInstance)
    requires Ascending(t) && v in t && Le(w, v) && !Le(v, w) && !Le(u, v)
    requires InstanceLines(w) == InstanceLines(u) != InstanceLines(v)
    ensures Mapped(InstanceLines, Insert(w, t)) != Mapped(InstanceLines, Insert(u, t))
  {
    hide InstanceLines, Le;
    var head, tail := t[0], t[1..];
    assert t == [head] + tail;
    NotBeforeHead(u, t, v);
    if Le(w, head) {
      MappedMore(InstanceLines, w, t);
      NotShifted(InstanceLines(w), u, t, v);
    } else {
      MoveShows(w, u, tail, v);
      MappedMore(InstanceLines, head, Insert(w, tail));
      MappedMore(InstanceLines, head, Insert(u, tail));
      if Mapped(InstanceLines, Insert(w, t)) == Mapped(InstanceLines, Insert(u, t)) {
        HeadAndTail(InstanceLines(head), Mapped(InstanceLines, Insert(w, tail)), InstanceLines(head), Mapped(InstanceLines, Insert(u, tail)));
      }
    }
  }

  /** Two at one place, in either order. */
  lemma {:induction false} TieShows(w: PluginInstance, v: PluginInstance, t: seq<PluginInstance>)
    requires SamePlace(w, v) && InstanceLines(w) != InstanceLines(v)
    ensures Mapped(InstanceLines, Insert(w, Insert(v, t))) != Mapped(InstanceLines, Insert(v, Insert(w, t)))
  {
    hide InstanceLines, Le, SamePlace;
    TiesCompareAlike(w, v);
    if t == [] || Le(v, t[0]) {
      if t != [] { TiesAgree(w, v, t[0]); }
      assert Insert(v, t) == [v] + t && Insert(w, t) == [w] + t;
      MappedMore(InstanceLines, w, [v] + t);
      MappedMore(InstanceLines, v, [w] + t);
      assert Mapped(InstanceLines, [w] + ([v] + t))[0] != Mapped(InstanceLines, [v] + ([w] + t))[0];
    } else {
      var head, tail := t[0], t[1..];
      TiesAgree(w, v, head);
      TieShows(w, v, tail);
      assert ([head] + Insert(v, tail))[1..] == Insert(v, tail) && ([head] + Insert(w, tail))[1..] == Insert(w, tail);
      MappedMore(InstanceLines, head, Insert(w, Insert(v, tail)));
      MappedMore(InstanceLines, head, Insert(v, Insert(w, tail)));
      if Mapped(InstanceLines, Insert(w, Insert(v, t))) == Mapped(InstanceLines, Insert(v, Insert(w, t))) {
        HeadAndTail(InstanceLines(head), Mapped(InstanceLines, Insert(w, Insert(v, tail))),
                    InstanceLines(head), Mapped(InstanceLines, Insert(v, Insert(w, tail))));
      }
    }
  }

  lemma TiesCompareAlike(w: PluginInstance, v: PluginInstance)
    requires SamePlace(w, v)
    ensures Le(w, v) && Le(v, w)
  {
    LeTotal(w, v);
  }

  lemma TiesAgree(w: PluginInstance, v: PluginInstance, x: PluginInstance)
    requires SamePlace(w, v)
    ensures Le(w, x) <==> Le(v, x)
  {
  }

  // Two groups with different lines, in every order.

  /** The same members, this one first. */
  function Front(g: seq<PluginInstance>, i: nat): (h: seq<PluginInstance>)
    requires i < |g|
    ensures h != [] && h[0] == g[i]
  {
    [g[i]] + g[..i] + g[i + 1..]
  }

  lemma FrontPermutes(g: seq<PluginInstance>, i: nat)
    requires i < |g|
    ensures multiset(Front(g, i)) == multiset(g)
  {
    assert g == g[..i] + [g[i]] + g[i + 1..];
  }

  function WholeFrom(xs: seq<PluginInstance>, id: Id, i: nat): PluginInstance
    requires i < |Members(xs, id)|
  {
    Whole(Front(Members(xs, id), i))
  }

  lemma LinesFrom(xs: seq<PluginInstance>, x: PluginInstance, i: nat)
    requires BucketNeverShows(xs) && x in xs && i < |Members(xs, IdOf(x))|
    ensures InstanceLines(WholeFrom(xs, IdOf(x), i)) == LinesOf(xs, IdOf(x))
    ensures SamePlace(WholeFrom(xs, IdOf(x), i), Members(xs, IdOf(x))[i])
  {
    hide InstanceLines, Whole, BucketNeverShows, Front;
    var g := Members(xs, IdOf(x));
    FrontPermutes(g, i);
    GroupNeverShows(xs, x);
    MembersOfOne(xs, x);
    SameMembers(Front(g, i), g);
    FirstGivesThePlace(Front(g, i), IdOf(x));
  }

  lemma TwoInFront(xs: seq<PluginInstance>, x: PluginInstance, y: PluginInstance, g: seq<PluginInstance>, h: seq<PluginInstance>)
    requires x in xs && y in xs && IdOf(x) != IdOf(y) && g != [] && h != []
    requires multiset(g) == multiset(Members(xs, IdOf(x))) && multiset(h) == multiset(Members(xs, IdOf(y)))
    ensures var rest := Rest(Rest(xs, IdOf(x)), IdOf(y));
            multiset(g + (h + rest)) == multiset(xs) && Groups(g + (h + rest)) == [Whole(g), Whole(h)] + Groups(rest)
  {
    hide Whole, Groups, IdOf, Picked, Rest;
    var p, q := IdOf(x), IdOf(y);
    var others := Rest(xs, p);
    var rest := Rest(others, q);
    GroupAndRest(xs, x, g);
    RestHolds(xs, p, y);
    RestPicks(xs, p, q);
    GroupAndRest(others, y, h);
    SameMembers(h + rest, others);
    GroupInFront(g, h + rest, p);
    GroupInFront(h, rest, q);
    assert multiset(g + (h + rest)) == multiset(g + others);
    assert [Whole(g)] + ([Whole(h)] + Groups(rest)) == [Whole(g), Whole(h)] + Groups(rest);
  }

  /** The two inserted last, in either order, with any of their members first, show what
      the bucket shows. */
  lemma InsertedShow(xs: seq<PluginInstance>, x: PluginInstance, y: PluginInstance, i: nat, j: nat)
    requires BucketNeverShows(xs) && x in xs && y in xs && IdOf(x) != IdOf(y)
    requires i < |Members(xs, IdOf(x))| && j < |Members(xs, IdOf(y))|
    ensures var t := Sort(Groups(Rest(Rest(xs, IdOf(x)), IdOf(y))));
            Mapped(InstanceLines, Insert(WholeFrom(xs, IdOf(x), i), Insert(WholeFrom(xs, IdOf(y), j), t))) ==
            Mapped(InstanceLines, Sort(Groups(xs)))
  {
    hide InstanceLines, Whole, BucketNeverShows, Front, Members, Groups, IdOf, Rest, Mapped, Insert;
    var g, h := Front(Members(xs, IdOf(x)), i), Front(Members(xs, IdOf(y)), j);
    var rest := Rest(Rest(xs, IdOf(x)), IdOf(y));
    FrontPermutes(Members(xs, IdOf(x)), i);
    FrontPermutes(Members(xs, IdOf(y)), j);
    TwoInFront(xs, x, y, g, h);
    OrdersShowTheSame(xs, g + (h + rest), xs);
    SortTwo(Whole(g), Whole(h), Groups(rest));
  }

  lemma SortTwo(w: PluginInstance, v: PluginInstance, gs: seq<PluginInstance>)
    ensures Sort([w, v] + gs) == Insert(w, Insert(v, Sort(gs)))
  {
    assert ([w, v] + gs)[1..] == [v] + gs && ([v] + gs)[1..] == gs;
  }

  lemma {:induction false} RestsCommute(xs: seq<PluginInstance>, p: Id, q: Id)
    requires p != q
    ensures Rest(Rest(xs, p), q) == Rest(Rest(xs, q), p)
  {
    if xs != [] {
      RestsCommute(xs[1..], p, q);
      var a, b := Rest(xs[1..], p), Rest(xs[1..], q);
      assert ([xs[0]] + a)[1..] == a && ([xs[0]] + b)[1..] == b;
    }
  }

  /** No two of their members share a place. */
  lemma NoTie(xs: seq<PluginInstance>, x: PluginInstance, y: PluginInstance, i: nat, j: nat)
    requires BucketNeverShows(xs) && x in xs && y in xs && LinesOf(xs, IdOf(x)) != LinesOf(xs, IdOf(y))
    requires i < |Members(xs, IdOf(x))| && j < |Members(xs, IdOf(y))|
    ensures !SamePlace(Members(xs, IdOf(x))[i], Members(xs, IdOf(y))[j])
  {
    hide InstanceLines, Whole, BucketNeverShows, Members, Groups, IdOf, Rest, Mapped, Insert, LinesOf, WholeFrom;
    var p, q := IdOf(x), IdOf(y);
    LinesFrom(xs, x, i);
    LinesFrom(xs, y, j);
    InsertedShow(xs, x, y, i, j);
    InsertedShow(xs, y, x, j, i);
    RestsCommute(xs, p, q);
    if SamePlace(Members(xs, p)[i], Members(xs, q)[j]) {
      TieShows(WholeFrom(xs, p, i), WholeFrom(xs, q, j), Sort(Groups(Rest(Rest(xs, p), q))));
    }
  }

  /** None stands between two of the others. */
  lemma NoneBetween(xs: seq<PluginInstance>, x: PluginInstance, y: PluginInstance, i: nat, k: nat, j: nat)
    requires BucketNeverShows(xs) && x in xs && y in xs && LinesOf(xs, IdOf(x)) != LinesOf(xs, IdOf(y))
    requires i < |Members(xs, IdOf(x))| && k < |Members(xs, IdOf(x))| && j < |Members(xs, IdOf(y))|
    ensures var g, v := Members(xs, IdOf(x)), Members(xs, IdOf(y))[j];
            Le(v, g[i]) || Le(g[k], v)
  {
    hide InstanceLines, Whole, BucketNeverShows, Members, Groups, IdOf, Rest, Mapped, LinesOf, WholeFrom, Le, Insert;
    var p, q := IdOf(x), IdOf(y);
    var g, v := Members(xs, p), Members(xs, q)[j];
    LinesFrom(xs, x, i);
    LinesFrom(xs, x, k);
    LinesFrom(xs, y, j);
    InsertedShow(xs, x, y, i, j);
    InsertedShow(xs, x, y, k, j);
    var t, w := Sort(Groups(Rest(Rest(xs, p), q))), WholeFrom(xs, q, j);
    SortSorts(Groups(Rest(Rest(xs, p), q)));
    InsertSorts(w, t);
    PlacesCompare(WholeFrom(xs, p, i), g[i], w, v);
    PlacesCompare(WholeFrom(xs, p, k), g[k], w, v);
    if !Le(v, g[i]) && !Le(g[k], v) {
      MoveShows(WholeFrom(xs, p, i), WholeFrom(xs, p, k), Insert(w, t), w);
    }
  }

  lemma PlacesCompare(a: PluginInstance, b: PluginInstance, c: PluginInstance, d: PluginInstance)
    requires SamePlace(a, b) && SamePlace(c, d)
    ensures (Le(a, c) <==> Le(b, d)) && (Le(c, a) <==> Le(d, b)) && (Le(a, c) || Le(c, a))
  {
    LeTotal(a, c);
  }

  lemma PairIsFixed(xs: seq<PluginInstance>, x: PluginInstance, y: PluginInstance)
    requires BucketNeverShows(xs) && x in xs && y in xs
    ensures FixedPair(xs, IdOf(x), IdOf(y))
  {
    hide BucketNeverShows, Members, IdOf, LinesOf, Le;
    var p, q := IdOf(x), IdOf(y);
    var g, h := Members(xs, p), Members(xs, q);
    MembersOfOne(xs, x);
    MembersOfOne(xs, y);
    if LinesOf(xs, p) != LinesOf(xs, q) && !AllBefore(g, h) {
      var i, j :| 0 <= i < |g| && 0 <= j < |h| && Le(h[j], g[i]);
      forall k, m | 0 <= k < |g| && 0 <= m < |h| ensures !Le(g[k], h[m]) {
        NoTie(xs, x, y, i, m);
        NoTie(xs, x, y, k, m);
        NoTie(xs, x, y, i, j);
        LeTotal(g[i], h[m]);
        LeTotal(g[k], h[m]);
        LeTotal(g[i], h[j]);
        NoneBetween(xs, x, y, k, i, m);
        NoneBetween(xs, y, x, j, m, i);
      }
    }
  }

  /** Within a bucket no order of addition shows exactly when its groups never show theirs
      and stand in fixed orders. */
  lemma BucketShowsExactly(xs: seq<PluginInstance>)
    requires WellFormed(xs)
    ensures BucketNeverShows(xs) <==> OrderIsFree(xs)
  {
    hide InstanceLines, InstancesLines, Sort, AddAll, FixedPair, AllInterchangeable, Members, IdOf, WellFormed;
    if OrderIsFree(xs) {
      forall ys | multiset(ys) == multiset(xs) ensures InstancesLines(Sort(AddAll(ys))) == InstancesLines(Sort(AddAll(xs))) {
        FreeOrderNeverShows(xs, ys);
      }
    }
    if BucketNeverShows(xs) {
      forall x | x in xs ensures AllInterchangeable(Members(xs, IdOf(x))) {
        MembersAreAGroup(xs, x);
        GroupNeverShows(xs, x);
        GroupOrderShowsExactly(Members(xs, IdOf(x)));
      }
      forall x, y | x in xs && y in xs ensures FixedPair(xs, IdOf(x), IdOf(y)) {
        PairIsFixed(xs, x, y);
      }
    }
  }

  // ---- From one bucket to the text ---------------------------------------------------------------------

  lemma {:induction false} BucketOfBucket(xs: seq<PluginInstance>, o: bool)
    requires forall x | x in xs :: IsOutput(x) == o
    ensures Bucket(xs, o) == xs && Bucket(xs, !o) == []
  {
    if xs != [] {
      var front := xs[..|xs| - 1];
      assert xs == front + [xs[|xs| - 1]];
      BucketOfBucket(front, o);
    }
  }

  lemma AllGoThere(xs: seq<PluginInstance>, ys: seq<PluginInstance>, o: bool)
    requires multiset(ys) == multiset(Bucket(xs, o))
    ensures Bucket(ys, o) == ys && Bucket(ys, !o) == []
  {
    hide Bucket;
    forall x ensures x in ys ==> IsOutput(x) == o {
      assert x in ys <==> x in multiset(ys);
      BucketCounts(xs, o, x);
    }
    BucketOfBucket(ys, o);
  }

  /** A bucket in any order, and the other as it is. */
  lemma OtherBucketKept(xs: seq<PluginInstance>, ys: seq<PluginInstance>, o: bool)
    requires multiset(ys) == multiset(Bucket(xs, o))
    ensures var all := ys + Bucket(xs, !o);
            multiset(all) == multiset(xs) && Bucket(all, o) == ys && Bucket(all, !o) == Bucket(xs, !o)
  {
    hide Bucket;
    var other := Bucket(xs, !o);
    forall x ensures multiset(ys + other)[x] == multiset(xs)[x] {
      BucketCounts(xs, o, x);
      BucketCounts(xs, !o, x);
    }
    AllGoThere(xs, ys, o);
    AllGoThere(xs, other, !o);
    BucketSplits(ys, other, o);
    BucketSplits(ys, other, !o);
  }

  lemma SomethingAdded(xs: seq<PluginInstance>)
    ensures AddAll(xs) == [] <==> xs == []
    ensures Sort(AddAll(xs)) == [] <==> xs == []
  {
    BucketHoldsGroups(xs);
    SortSorts(AddAll(xs));
    SameLength(Sort(AddAll(xs)), AddAll(xs));
  }

  /** Equal texts tell the lines of a bucket when the other bucket is the same. */
  lemma TextTellsTheBucket(agent: TomlTable, xs: seq<PluginInstance>, ys: seq<PluginInstance>, o: bool, version: string)
    requires Bucket(xs, !o) == Bucket(ys, !o) && |Bucket(xs, o)| == |Bucket(ys, o)|
    requires Rendered(Added(agent, xs), version) == Rendered(Added(agent, ys), version)
    ensures InstancesLines(Sort(AddAll(Bucket(xs, o)))) == InstancesLines(Sort(AddAll(Bucket(ys, o))))
  {
    hide Bucket, Sort, Header, AgentLines, InstancesLines, AddAll, Rendered, Added, SectionLines;
    AddedApart(agent, xs);
    AddedApart(agent, ys);
    SomethingAdded(Bucket(xs, o));
    SomethingAdded(Bucket(ys, o));
    RenderedTellsTheLines(Added(agent, xs), Added(agent, ys), version);
    var head := Header(version) + AgentLines(agent);
    var s, t, u := Sort(AddAll(Bucket(xs, o))), Sort(AddAll(Bucket(ys, o))), Sort(AddAll(Bucket(xs, !o)));
    if s != [] {
      if o {
        var ins := head + SectionLines("Inputs", u);
        assert ins + SectionLines("Outputs", s) + [] == ins + SectionLines("Outputs", s);
        assert ins + SectionLines("Outputs", t) + [] == ins + SectionLines("Outputs", t);
        SameFrame(ins, SectionLines("Outputs", s), SectionLines("Outputs", t), []);
        SectionTells("Outputs", s, t);
      } else {
        SameFrame(head, SectionLines("Inputs", s), SectionLines("Inputs", t), SectionLines("Outputs", u));
        SectionTells("Inputs", s, t);
      }
    }
  }

  lemma BucketsTellTheText(agent: TomlTable, xs: seq<PluginInstance>, ys: seq<PluginInstance>, version: string)
    requires multiset(ys) == multiset(xs)
    requires BucketNeverShows(Bucket(xs, false)) && BucketNeverShows(Bucket(xs, true))
    ensures Rendered(Added(agent, ys), version) == Rendered(Added(agent, xs), version)
  {
    hide Bucket, Sort, Header, AgentLines, InstancesLines, AddAll, Added, DropTrailingBlanks;
    AddedApart(agent, xs);
    AddedApart(agent, ys);
    forall o ensures SectionLines(if o then "Outputs" else "Inputs", Sort(AddAll(Bucket(ys, o)))) ==
                     SectionLines(if o then "Outputs" else "Inputs", Sort(AddAll(Bucket(xs, o)))) {
      BucketsPermute(xs, ys, o);
      SameLength(Bucket(xs, o), Bucket(ys, o));
      SomethingAdded(Bucket(xs, o));
      SomethingAdded(Bucket(ys, o));
      assert BucketNeverShows(Bucket(xs, o));
    }
  }

  lemma TextTellsTheBuckets(agent: TomlTable, xs: seq<PluginInstance>, o: bool, version: string)
    requires OrderNeverShowsInText(agent, xs, version)
    ensures BucketNeverShows(Bucket(xs, o))
  {
    hide Bucket, Sort, InstancesLines, AddAll, Added, Rendered;
    forall ys | multiset(ys) == multiset(Bucket(xs, o))
      ensures InstancesLines(Sort(AddAll(ys))) == InstancesLines(Sort(AddAll(Bucket(xs, o))))
    {
      OtherBucketKept(xs, ys, o);
      SameLength(ys, Bucket(xs, o));
      TextTellsTheBucket(agent, ys + Bucket(xs, !o), xs, o, version);
    }
  }

  lemma BucketsAreWellFormed(xs: seq<PluginInstance>, o: bool)
    requires WellFormed(xs)
    ensures WellFormed(Bucket(xs, o))
  {
    hide UniquelyKeyed, Plain;
    forall i | 0 <= i < |Bucket(xs, o)| ensures UniquelyKeyed(Bucket(xs, o)[i]) && Plain(Bucket(xs, o)[i]) {
      InBucket(xs, o, Bucket(xs, o)[i]);
      var k :| 0 <= k < |xs| && xs[k] == Bucket(xs, o)[i];
    }
  }

  /** Every order of addition, inputs and outputs mixed, renders the same text exactly when,
      in each bucket, members that merge are interchangeable, and any two groups come to the
      same lines or have all of their members on either side of each other. */
  lemma OrderShowsExactly(agent: TomlTable, xs: seq<PluginInstance>, version: string)
    requires WellFormed(xs)
    ensures OrderNeverShowsInText(agent, xs, version) <==> OrderIsFree(Bucket(xs, false)) && OrderIsFree(Bucket(xs, true))
  {
    hide Bucket, Rendered, Added, WellFormed, OrderIsFree, BucketNeverShows;
    BucketsAreWellFormed(xs, false);
    BucketsAreWellFormed(xs, true);
    BucketShowsExactly(Bucket(xs, false));
    BucketShowsExactly(Bucket(xs, true));
    if OrderNeverShowsInText(agent, xs, version) {
      TextTellsTheBuckets(agent, xs, false, version);
      TextTellsTheBuckets(agent, xs, true, version);
    }
    if BucketNeverShows(Bucket(xs, false)) && BucketNeverShows(Bucket(xs, true)) {
      forall ys | multiset(ys) == multiset(xs) ensures Rendered(Added(agent, ys), version) == Rendered(Added(agent, xs), version) {
        BucketsTellTheText(agent, xs, ys, version);
      }
    }
  }
}
