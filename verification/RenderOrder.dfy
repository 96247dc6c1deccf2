/** The order instances are rendered in: a stable sort by rank, then plugin name. */
module RenderOrder {
  import opened Wrappers
  import opened TelegrafModel

  // ---- The order itself -------------------------------------------------------------

  /** Strings compare character by character. */
  predicate StringLe(a: string, b: string) {
    if a == "" then true
    else if b == "" then false
    else a[0] < b[0] || (a[0] == b[0] && StringLe(a[1..], b[1..]))
  }

  predicate Le(a: PluginInstance, b: PluginInstance) {
    a.rank < b.rank || (a.rank == b.rank && StringLe(a.plugin, b.plugin))
  }

  predicate SamePlace(a: PluginInstance, b: PluginInstance) {
    a.rank == b.rank && a.plugin == b.plugin
  }

  lemma {:induction false} StringLeTotal(a: string, b: string)
    ensures StringLe(a, b) || StringLe(b, a)
    ensures StringLe(a, b) && StringLe(b, a) ==> a == b
  {
    if a != "" && b != "" {
      StringLeTotal(a[1..], b[1..]);
      assert a == [a[0]] + a[1..] && b == [b[0]] + b[1..];
    }
  }

  lemma {:induction false} StringLeTransitive(a: string, b: string, c: string)
    requires StringLe(a, b) && StringLe(b, c)
    ensures StringLe(a, c)
  {
    if a != "" && b != "" && c != "" && a[0] == b[0] == c[0] {
      StringLeTransitive(a[1..], b[1..], c[1..]);
    }
  }

  lemma LeTotal(a: PluginInstance, b: PluginInstance)
    ensures Le(a, b) || Le(b, a)
    ensures Le(a, b) && Le(b, a) <==> SamePlace(a, b)
  {
    StringLeTotal(a.plugin, b.plugin);
    StringLeTotal(a.plugin, a.plugin);
  }

  lemma LeTransitive(a: PluginInstance, b: PluginInstance, c: PluginInstance)
    requires Le(a, b) && Le(b, c)
    ensures Le(a, c)
  {
    if a.rank == b.rank == c.rank {
      StringLeTransitive(a.plugin, b.plugin, c.plugin);
    }
  }

  // ---- The sort --------------------------------------------------------------------------

  /** In front of the first that is not smaller: equals keep their order. */
  function Insert(x: PluginInstance, ys: seq<PluginInstance>): seq<PluginInstance> {
    if ys == [] || Le(x, ys[0]) then [x] + ys else [ys[0]] + Insert(x, ys[1..])
  }

  function Sort(xs: seq<PluginInstance>): seq<PluginInstance> {
    if xs == [] then [] else Insert(xs[0], Sort(xs[1..]))
  }

  predicate Ascending(xs: seq<PluginInstance>) {
    xs == [] || ((forall y | y in xs[1..] :: Le(xs[0], y)) && Ascending(xs[1..]))
  }

  lemma {:induction false} InsertSorts(x: PluginInstance, ys: seq<PluginInstance>)
    requires Ascending(ys)
    ensures Ascending(Insert(x, ys)) && multiset(Insert(x, ys)) == multiset{x} + multiset(ys)
    ensures forall y :: y in Insert(x, ys) <==> y == x || y in ys
  {
    if ys == [] || Le(x, ys[0]) {
      assert ([x] + ys)[1..] == ys;
      forall y | y in ys ensures Le(x, y) {
        if y != ys[0] {
          assert y in ys[1..];
          LeTransitive(x, ys[0], y);
        }
      }
    } else {
      InsertSorts(x, ys[1..]);
      assert Insert(x, ys)[1..] == Insert(x, ys[1..]);
      LeTotal(x, ys[0]);
      assert ys == [ys[0]] + ys[1..];
    }
  }

  /** The sort orders its input and loses nothing. */
  lemma {:induction false} SortSorts(xs: seq<PluginInstance>)
    ensures Ascending(Sort(xs)) && multiset(Sort(xs)) == multiset(xs)
  {
    if xs != [] {
      SortSorts(xs[1..]);
      InsertSorts(xs[0], Sort(xs[1..]));
      assert xs == [xs[0]] + xs[1..];
    }
  }

  /** Those at the place of `p`, in order. */
  function At(xs: seq<PluginInstance>, p: PluginInstance): seq<PluginInstance> {
    if xs == [] then []
    else (if SamePlace(xs[0], p) then [xs[0]] else []) + At(xs[1..], p)
  }

  lemma {:induction false} InsertIsStable(x: PluginInstance, ys: seq<PluginInstance>, p: PluginInstance)
    ensures At(Insert(x, ys), p) == (if SamePlace(x, p) then [x] else []) + At(ys, p)
  {
    if ys == [] || Le(x, ys[0]) {
      assert ([x] + ys)[1..] == ys;
    } else {
      InsertIsStable(x, ys[1..], p);
      assert Insert(x, ys)[1..] == Insert(x, ys[1..]);
      LeTotal(x, ys[0]);
    }
  }

  /** Instances at one place keep the order they were added in. */
  lemma {:induction false} SortIsStable(xs: seq<PluginInstance>, p: PluginInstance)
    ensures At(Sort(xs), p) == At(xs, p)
  {
    if xs != [] {
      SortIsStable(xs[1..], p);
      InsertIsStable(xs[0], Sort(xs[1..]), p);
    }
  }

  // ---- The order, by itself -----------------------------------------------------------------

  /** The first is a beginning of the second, or has the smaller character where they part. */
  ghost predicate Alphabetical(a: string, b: string) {
    a <= b || exists k | 0 <= k < |a| && k < |b| :: a[..k] == b[..k] && a[k] < b[k]
  }

  ghost predicate Precedes(x: PluginInstance, y: PluginInstance) {
    x.rank < y.rank || (x.rank == y.rank && Alphabetical(x.plugin, y.plugin))
  }

  /** The same instances, by rising rank and then plugin, and those with the same rank and
      plugin as they were. */
  ghost predicate InOrder(xs: seq<PluginInstance>, ys: seq<PluginInstance>) {
    && multiset(ys) == multiset(xs)
    && (forall i, j | 0 <= i < j < |ys| :: Precedes(ys[i], ys[j]))
    && (forall p :: At(ys, p) == At(xs, p))
  }

  lemma {:induction false} StringLeMeans(a: string, b: string)
    ensures StringLe(a, b) <==> Alphabetical(a, b)
  {
    if a != "" && b != "" {
      StringLeMeans(a[1..], b[1..]);
      TailsCompare(a, b);
    }
  }

  /** Where the first characters are the same, the others decide. */
  lemma TailsCompare(a: string, b: string)
    requires a != "" && b != ""
    ensures Alphabetical(a, b) <==> a[0] < b[0] || (a[0] == b[0] && Alphabetical(a[1..], b[1..]))
  {
    assert a == [a[0]] + a[1..] && b == [b[0]] + b[1..];
    if k :| 0 <= k < |a| && k < |b| && a[..k] == b[..k] && a[k] < b[k] && k > 0 {
      assert a[0] == a[..k][0] == b[..k][0] == b[0];
      assert a[1..][..k - 1] == a[..k][1..] == b[1..][..k - 1] && a[1..][k - 1] < b[1..][k - 1];
    }
    if a[0] == b[0] {
      if k :| 0 <= k < |a[1..]| && k < |b[1..]| && a[1..][..k] == b[1..][..k] && a[1..][k] < b[1..][k] {
        assert a[..k + 1] == [a[0]] + a[1..][..k] && b[..k + 1] == [b[0]] + b[1..][..k];
        assert a[k + 1] < b[k + 1];
      }
    }
    if a[0] < b[0] { assert a[..0] == b[..0]; }
  }

  lemma LeMeans(x: PluginInstance, y: PluginInstance)
    ensures Le(x, y) <==> Precedes(x, y)
  {
    StringLeMeans(x.plugin, y.plugin);
  }

  lemma {:induction false} AscendingMeans(xs: seq<PluginInstance>)
    ensures Ascending(xs) <==> forall i, j | 0 <= i < j < |xs| :: Le(xs[i], xs[j])
  {
    hide Le;
    if xs != [] {
      AscendingMeans(xs[1..]);
      assert forall i | 0 < i < |xs| :: xs[i] == xs[1..][i - 1];
      if forall i, j | 0 <= i < j < |xs| :: Le(xs[i], xs[j]) {
        forall y | y in xs[1..] ensures Le(xs[0], y) {
          var i :| 0 <= i < |xs[1..]| && xs[1..][i] == y;
          assert xs[i + 1] == y;
        }
        forall i, j | 0 <= i < j < |xs[1..]| ensures Le(xs[1..][i], xs[1..][j]) {
          assert Le(xs[i + 1], xs[j + 1]);
        }
      }
    }
  }

  lemma {:induction false} PlacesTellTheOrder(a: seq<PluginInstance>, b: seq<PluginInstance>)
    requires Ascending(a) && Ascending(b) && forall p :: At(a, p) == At(b, p)
    ensures a == b
  {
    hide Le, SamePlace;
    if a == [] || b == [] {
      if a != [] { SomethingAt(a); }
      if b != [] { SomethingAt(b); }
    } else {
      SomethingAt(a);
      SomethingAt(b);
      FirstAtItsPlace(a, b[0]);
      FirstAtItsPlace(b, a[0]);
      LeTotal(a[0], b[0]);
      TheSameFirst(a, b);
      forall p ensures At(a[1..], p) == At(b[1..], p) {
        assert At(a, p) == At(b, p);
        AtTail(a, p);
        AtTail(b, p);
      }
      PlacesTellTheOrder(a[1..], b[1..]);
      assert a == [a[0]] + a[1..] && b == [b[0]] + b[1..];
    }
  }

  lemma AtTail(a: seq<PluginInstance>, p: PluginInstance)
    requires a != []
    ensures SamePlace(a[0], p) ==> At(a, p) != [] && At(a[1..], p) == At(a, p)[1..]
    ensures !SamePlace(a[0], p) ==> At(a[1..], p) == At(a, p)
  {
  }

  lemma SomethingAt(a: seq<PluginInstance>)
    requires a != []
    ensures At(a, a[0]) != [] && At(a, a[0])[0] == a[0]
  {
  }

  /** What stands at some place in the list is not before its first. */
  lemma FirstAtItsPlace(a: seq<PluginInstance>, p: PluginInstance)
    requires a != [] && Ascending(a) && At(a, p) != []
    ensures Le(a[0], p)
  {
    AtIsThere(a, p);
    var x :| x in a && SamePlace(x, p);
    LeTotal(x, p);
    LeTotal(a[0], p);
    assert a == [a[0]] + a[1..];
  }

  lemma {:induction false} AtIsThere(a: seq<PluginInstance>, p: PluginInstance)
    requires At(a, p) != []
    ensures exists x :: x in a && SamePlace(x, p)
  {
    hide SamePlace;
    if SamePlace(a[0], p) {
      assert a[0] in a;
    } else {
      AtIsThere(a[1..], p);
      var x :| x in a[1..] && SamePlace(x, p);
      assert x in a;
    }
  }

  lemma TheSameFirst(a: seq<PluginInstance>, b: seq<PluginInstance>)
    requires a != [] && b != [] && SamePlace(a[0], b[0]) && At(a, a[0]) == At(b, a[0])
    ensures a[0] == b[0]
  {
    assert At(a, a[0])[0] == a[0] && SamePlace(b[0], a[0]);
    assert At(b, a[0])[0] == b[0];
  }

  /** Sorting gives the one list that is in order. */
  lemma SortIsTheOrder(xs: seq<PluginInstance>, ys: seq<PluginInstance>)
    ensures InOrder(xs, ys) <==> ys == Sort(xs)
  {
    hide Le, Precedes, Sort, SamePlace;
    forall x, y ensures Le(x, y) <==> Precedes(x, y) { LeMeans(x, y); }
    SortSorts(xs);
    AscendingMeans(Sort(xs));
    AscendingMeans(ys);
    forall p ensures At(Sort(xs), p) == At(xs, p) { SortIsStable(xs, p); }
    if InOrder(xs, ys) { PlacesTellTheOrder(ys, Sort(xs)); }
  }

  // ---- When the order of the list does not show ---------------------------------------------

  /** Instances at one place are one and the same. */
  ghost predicate PlacesAgree(xs: seq<PluginInstance>) {
    forall i, j | 0 <= i < j < |xs| && SamePlace(xs[i], xs[j]) :: xs[i] == xs[j]
  }

  ghost predicate OrderNeverShows(xs: seq<PluginInstance>) {
    forall ys | multiset(ys) == multiset(xs) :: Sort(ys) == Sort(xs)
  }

  lemma {:induction false} AscendingIsUnique(a: seq<PluginInstance>, b: seq<PluginInstance>)
    requires Ascending(a) && Ascending(b) && multiset(a) == multiset(b)
    requires forall x, y | x in a && y in a && SamePlace(x, y) :: x == y
    ensures a == b
  {
    if a == [] {
      assert |multiset(b)| == 0;
    } else {
      assert |multiset(a)| == |a| && |multiset(b)| == |b|;
      HeadsAgree(a, b);
      assert a == [a[0]] + a[1..] && b == [b[0]] + b[1..];
      assert multiset(a[1..]) == multiset(a) - multiset{a[0]} == multiset(b[1..]);
      AscendingIsUnique(a[1..], b[1..]);
    }
  }

  lemma HeadsAgree(a: seq<PluginInstance>, b: seq<PluginInstance>)
    requires a != [] && b != [] && Ascending(a) && Ascending(b) && multiset(a) == multiset(b)
    requires forall x, y | x in a && y in a && SamePlace(x, y) :: x == y
    ensures a[0] == b[0]
  {
    assert a == [a[0]] + a[1..] && b == [b[0]] + b[1..];
    assert a[0] in multiset(b) && b[0] in multiset(a);
    assert a[0] in b && b[0] in a;
    LeTotal(a[0], b[0]);
  }

  lemma {:induction false} AtFinds(xs: seq<PluginInstance>, p: PluginInstance, i: nat)
    requires i < |xs| && SamePlace(xs[i], p)
    ensures var k := |At(xs[..i], p)|; k < |At(xs, p)| && At(xs, p)[k] == xs[i]
  {
    if i > 0 {
      AtFinds(xs[1..], p, i - 1);
      assert xs[..i][1..] == xs[1..][..i - 1];
    }
  }

  /** Two different instances at one place: swapping them shows. */
  lemma SwapShows(xs: seq<PluginInstance>, i: nat, j: nat)
    requires i < j < |xs| && SamePlace(xs[i], xs[j]) && xs[i] != xs[j]
    ensures !OrderNeverShows(xs)
  {
    var ys := xs[i := xs[j]][j := xs[i]];
    Swapped(xs, i, j);
    assert xs[..i] == ys[..i];
    AtFinds(xs, xs[i], i);
    AtFinds(ys, xs[i], i);
    SortIsStable(xs, xs[i]);
    SortIsStable(ys, xs[i]);
    assert Sort(ys) != Sort(xs);
  }

  lemma Swapped(xs: seq<PluginInstance>, i: nat, j: nat)
    requires i < j < |xs|
    ensures multiset(xs[i := xs[j]][j := xs[i]]) == multiset(xs)
  {
  }

  /** Any order of one list sorts alike exactly when no two different instances of it
      share rank and plugin. */
  lemma OrderShowsExactlyAtSharedPlaces(xs: seq<PluginInstance>)
    ensures OrderNeverShows(xs) <==> PlacesAgree(xs)
  {
    if PlacesAgree(xs) {
      forall ys | multiset(ys) == multiset(xs) ensures Sort(ys) == Sort(xs) {
        PermutationsSortAlike(xs, ys);
      }
    } else {
      var i, j :| 0 <= i < j < |xs| && SamePlace(xs[i], xs[j]) && xs[i] != xs[j];
      SwapShows(xs, i, j);
    }
  }

  lemma PermutationsSortAlike(xs: seq<PluginInstance>, ys: seq<PluginInstance>)
    requires multiset(ys) == multiset(xs) && PlacesAgree(xs)
    ensures Sort(ys) == Sort(xs)
  {
    SortSorts(xs);
    SortSorts(ys);
    forall x, y | x in Sort(xs) && y in Sort(xs) && SamePlace(x, y) ensures x == y {
      assert x in multiset(xs) && y in multiset(xs);
      var i :| 0 <= i < |xs| && xs[i] == x;
      var j :| 0 <= j < |xs| && xs[j] == y;
      if i < j { assert SamePlace(xs[i], xs[j]); } else if j < i { assert SamePlace(xs[j], xs[i]); }
    }
    AscendingIsUnique(Sort(xs), Sort(ys));
  }
}
