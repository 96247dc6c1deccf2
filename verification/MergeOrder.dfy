/** Exactly when the order in which the members of one group are added shows: unless each
    list of one member starts the list of the other, it does. */
module MergeOrder {
  import opened Wrappers
  import opened TelegrafModel
  import opened RenderOrder
  import opened Renderer
  import opened AdditionOrder

  // ---- One aspect of a merge -----------------------------------------------------------------

  /** What an instance holds in one respect, how a merge joins it, and what is left the same
      when it is joined the other way round. */
  datatype Aspect<!V> = Aspect(of: PluginInstance -> V, join: (V, V) -> V, twins: (V, V) -> bool)

  /** `w` is what comes of joining either with the other. */
  predicate Below<V(==)>(join: (V, V) -> V, v: V, w: V) {
    join(v, w) == w
  }

  predicate Nested<V(==)>(join: (V, V) -> V, v: V, w: V) {
    Below(join, v, w) || Below(join, w, v)
  }

  ghost predicate LawfulJoin<V(!new)>(join: (V, V) -> V, twins: (V, V) -> bool) {
    && (forall v :: Below(join, v, v))
    && (forall v, w | Below(join, v, w) :: join(w, v) == w)
    && (forall u, v, w | Below(join, u, v) && Below(join, v, w) :: Below(join, u, w))
    && (forall v, w | join(v, w) == join(w, v) :: Nested(join, v, w))
    && (forall v, w :: twins(join(v, w), join(w, v)))
    && (forall p, q, r | twins(p, q) :: twins(join(p, r), join(q, r)))
    && (forall p, q, r | twins(p, q) && join(p, r) == join(q, r) :: p == q)
  }

  ghost predicate Lawful<V(!new)>(a: Aspect<V>) {
    && (forall x, y | UniquelyKeyed(x) && UniquelyKeyed(y) :: a.of(Merged(x, y)) == a.join(a.of(x), a.of(y)))
    && LawfulJoin(a.join, a.twins)
  }

  predicate Keyed(xs: seq<PluginInstance>) {
    forall i | 0 <= i < |xs| :: UniquelyKeyed(xs[i])
  }

  /** What a group becomes when its members are added in this order. */
  function Whole(xs: seq<PluginInstance>): PluginInstance
    requires xs != []
  {
    Fold(xs[0], xs[1..])
  }

  lemma WholeMore(xs: seq<PluginInstance>)
    requires |xs| > 1
    ensures Whole(xs) == Merged(Whole(xs[..|xs| - 1]), xs[|xs| - 1])
  {
    assert xs[1..][..|xs| - 2] == xs[..|xs| - 1][1..];
  }

  lemma {:induction false} FoldIsKeyed(x: PluginInstance, ys: seq<PluginInstance>)
    requires UniquelyKeyed(x) && Keyed(ys)
    ensures UniquelyKeyed(Fold(x, ys))
  {
    hide Merged, UniquelyKeyed;
    if ys != [] {
      FoldIsKeyed(x, ys[..|ys| - 1]);
      MergeMeans(Fold(x, ys[..|ys| - 1]), ys[|ys| - 1], "");
    }
  }

  // Members that are nested: the whole is the largest of them.

  ghost predicate AllNested<V(!new)>(a: Aspect<V>, xs: seq<PluginInstance>) {
    forall x, y | x in xs && y in xs :: Nested(a.join, a.of(x), a.of(y))
  }

  /** One of the members is as large as the whole, and none is larger. */
  lemma {:induction false} WholeIsTheLargest<V(!new)>(a: Aspect<V>, xs: seq<PluginInstance>) returns (m: PluginInstance)
    requires Lawful(a) && xs != [] && Keyed(xs) && AllNested(a, xs)
    ensures m in xs && a.of(Whole(xs)) == a.of(m)
    ensures forall x | x in xs :: Below(a.join, a.of(x), a.of(m))
    decreases |xs|
  {
    hide UniquelyKeyed, Merged, Lawful, Nested, Below, Whole;
    var front, last := xs[..|xs| - 1], xs[|xs| - 1];
    assert xs == front + [last];
    if front == [] {
      m := last;
      assert Whole(xs) == m by { assert xs[1..] == []; WholeOfOne(m); }
      OneIsBelowItself(a, m);
    } else {
      var k := WholeIsTheLargest(a, front);
      WholeJoins(a, xs);
      NextIsBelow(a, a.of(last), a.of(k), a.of(last));
      m := if Below(a.join, a.of(last), a.of(k)) then k else last;
      forall x | x in xs ensures Below(a.join, a.of(x), a.of(m)) {
        NextIsBelow(a, a.of(x), a.of(k), a.of(last));
      }
    }
  }

  lemma WholeOfOne(x: PluginInstance)
    ensures Whole([x]) == x
  {
    assert [x][1..] == [];
  }

  lemma OneIsBelowItself<V(!new)>(a: Aspect<V>, x: PluginInstance)
    requires Lawful(a)
    ensures Below(a.join, a.of(x), a.of(x))
  {
    hide UniquelyKeyed, Merged, Below;
  }

  lemma WholeJoins<V(!new)>(a: Aspect<V>, xs: seq<PluginInstance>)
    requires Lawful(a) && |xs| > 1 && Keyed(xs)
    ensures a.of(Whole(xs)) == a.join(a.of(Whole(xs[..|xs| - 1])), a.of(xs[|xs| - 1]))
  {
    hide UniquelyKeyed, Merged, LawfulJoin;
    var front := xs[..|xs| - 1];
    FoldIsKeyed(front[0], front[1..]);
    WholeMore(xs);
  }

  lemma NextIsBelow<V(!new)>(a: Aspect<V>, v: V, largest: V, next: V)
    requires Lawful(a) && Nested(a.join, largest, next) && (Below(a.join, v, largest) || v == next)
    ensures Below(a.join, v, a.join(largest, next))
    ensures a.join(largest, next) == if Below(a.join, next, largest) then largest else next
  {
  }

  lemma LargestIsTheSame<V(!new)>(a: Aspect<V>, xs: seq<PluginInstance>, ys: seq<PluginInstance>)
    requires Lawful(a) && xs != [] && Keyed(xs) && multiset(xs) == multiset(ys) && AllNested(a, xs)
    ensures ys != [] && a.of(Whole(xs)) == a.of(Whole(ys))
  {
    hide UniquelyKeyed, Merged, Whole, Nested, Lawful, Below;
    SameMembers(xs, ys);
    var m := WholeIsTheLargest(a, xs);
    var n := WholeIsTheLargest(a, ys);
    BothBelow(a, a.of(m), a.of(n));
  }

  lemma BothBelow<V(!new)>(a: Aspect<V>, v: V, w: V)
    requires Lawful(a) && Below(a.join, v, w) && Below(a.join, w, v)
    ensures v == w
  {
  }

  lemma SameMembers(xs: seq<PluginInstance>, ys: seq<PluginInstance>)
    requires multiset(xs) == multiset(ys)
    ensures |xs| == |ys| && (forall x :: x in xs <==> x in ys) && (Keyed(xs) ==> Keyed(ys))
  {
    hide UniquelyKeyed;
    assert |multiset(xs)| == |xs| && |multiset(ys)| == |ys|;
    forall x ensures x in xs <==> x in ys {
      assert x in xs <==> x in multiset(xs);
      assert x in ys <==> x in multiset(ys);
    }
    assert forall i | 0 <= i < |ys| :: ys[i] in xs;
  }

  // Members that are not: exchanging two of them shows.

  lemma {:induction false} LaterMergesKeepApart<V(!new)>(a: Aspect<V>, p: PluginInstance, q: PluginInstance, rest: seq<PluginInstance>)
    requires Lawful(a) && UniquelyKeyed(p) && UniquelyKeyed(q) && Keyed(rest)
    requires a.twins(a.of(p), a.of(q))
    ensures a.twins(a.of(Fold(p, rest)), a.of(Fold(q, rest)))
    ensures a.of(Fold(p, rest)) == a.of(Fold(q, rest)) ==> a.of(p) == a.of(q)
    decreases |rest|
  {
    hide UniquelyKeyed, Merged;
    if rest != [] {
      var front, last := rest[..|rest| - 1], rest[|rest| - 1];
      LaterMergesKeepApart(a, p, q, front);
      FoldIsKeyed(p, front);
      FoldIsKeyed(q, front);
    }
  }

  lemma {:induction false} FoldFirst(x: PluginInstance, y: PluginInstance, rest: seq<PluginInstance>)
    ensures Fold(x, [y] + rest) == Fold(Merged(x, y), rest)
  {
    hide Merged;
    if rest == [] {
      assert [y] + rest == [y] && [y][..0] == [];
    } else {
      FoldFirst(x, y, rest[..|rest| - 1]);
      assert ([y] + rest)[..|rest|] == [y] + rest[..|rest| - 1];
    }
  }

  lemma WholeOfTwo(x: PluginInstance, y: PluginInstance, rest: seq<PluginInstance>)
    ensures Whole([x, y] + rest) == Fold(Merged(x, y), rest)
  {
    hide Merged;
    assert ([x, y] + rest)[1..] == [y] + rest;
    FoldFirst(x, y, rest);
  }

  lemma TwoAreTwins<V(!new)>(a: Aspect<V>, x: PluginInstance, y: PluginInstance)
    requires Lawful(a) && UniquelyKeyed(x) && UniquelyKeyed(y)
    ensures a.twins(a.of(Merged(x, y)), a.of(Merged(y, x)))
    ensures a.of(Merged(x, y)) == a.of(Merged(y, x)) ==> Nested(a.join, a.of(x), a.of(y))
  {
    hide UniquelyKeyed, Merged, Below, Nested;
  }

  lemma ExchangeIsSeen<V(!new)>(a: Aspect<V>, x: PluginInstance, y: PluginInstance, rest: seq<PluginInstance>)
    requires Lawful(a) && UniquelyKeyed(x) && UniquelyKeyed(y) && Keyed(rest)
    requires a.of(Whole([x, y] + rest)) == a.of(Whole([y, x] + rest))
    ensures Nested(a.join, a.of(x), a.of(y))
  {
    hide UniquelyKeyed, Merged, Whole, Lawful, Nested;
    MergeMeans(x, y, "");
    MergeMeans(y, x, "");
    WholeOfTwo(x, y, rest);
    WholeOfTwo(y, x, rest);
    TwoAreTwins(a, x, y);
    LaterMergesKeepApart(a, Merged(x, y), Merged(y, x), rest);
  }

  lemma EitherFirst(a: seq<PluginInstance>, x: PluginInstance, b: seq<PluginInstance>, y: PluginInstance, c: seq<PluginInstance>)
    ensures multiset([x, y] + (a + b + c)) == multiset(a + [x] + b + [y] + c) == multiset([y, x] + (a + b + c))
  {
  }

  /** In one respect, the whole is the same for every order of a group exactly when any two
      of its members are nested. */
  ghost predicate SameForEveryOrder<V(!new)>(of: PluginInstance -> V, xs: seq<PluginInstance>)
    requires xs != []
  {
    forall ys | ys != [] && multiset(ys) == multiset(xs) :: of(Whole(ys)) == of(Whole(xs))
  }

  lemma SameMeansNested<V(!new)>(a: Aspect<V>, xs: seq<PluginInstance>, i: nat, j: nat)
    requires Lawful(a) && xs != [] && Keyed(xs) && SameForEveryOrder(a.of, xs) && i < j < |xs|
    ensures Nested(a.join, a.of(xs[i]), a.of(xs[j]))
  {
    hide UniquelyKeyed, Merged, Whole, LawfulJoin;
    var u, v, w := xs[..i], xs[i + 1..j], xs[j + 1..];
    assert xs == u + [xs[i]] + v + [xs[j]] + w;
    EitherFirst(u, xs[i], v, xs[j], w);
    hide SameForEveryOrder;
    ExchangeAgrees(a.of, xs, xs[i], xs[j], u + v + w);
    ExchangeIsSeen(a, xs[i], xs[j], u + v + w);
  }

  lemma ExchangeAgrees<V(!new)>(of: PluginInstance -> V, xs: seq<PluginInstance>, x: PluginInstance, y: PluginInstance, rest: seq<PluginInstance>)
    requires xs != [] && SameForEveryOrder(of, xs)
    requires multiset([x, y] + rest) == multiset(xs) == multiset([y, x] + rest)
    ensures of(Whole([x, y] + rest)) == of(Whole([y, x] + rest))
  {
    hide Whole;
    assert [x, y] + rest != [] && [y, x] + rest != [];
  }

  lemma SameExactlyWhenNested<V(!new)>(a: Aspect<V>, xs: seq<PluginInstance>)
    requires Lawful(a) && xs != [] && Keyed(xs)
    ensures SameForEveryOrder(a.of, xs) <==> AllNested(a, xs)
  {
    hide UniquelyKeyed, Merged, Whole;
    if SameForEveryOrder(a.of, xs) {
      forall x, y | x in xs && y in xs ensures Nested(a.join, a.of(x), a.of(y)) {
        var i :| 0 <= i < |xs| && xs[i] == x;
        var j :| 0 <= j < |xs| && xs[j] == y;
        if i < j { SameMeansNested(a, xs, i, j); }
        if j < i { SameMeansNested(a, xs, j, i); }
        assert Below(a.join, a.of(x), a.of(x));
      }
    }
    if AllNested(a, xs) {
      forall ys | ys != [] && multiset(ys) == multiset(xs) ensures a.of(Whole(ys)) == a.of(Whole(xs)) {
        LargestIsTheSame(a, xs, ys);
      }
    }
  }

  // ---- Lists with nothing twice --------------------------------------------------------------

  predicate SameElements<T(==)>(a: seq<T>, b: seq<T>) {
    (forall x | x in a :: x in b) && (forall x | x in b :: x in a)
  }

  lemma {:induction false} UnionsKeepApart<T(!new)>(p: seq<T>, q: seq<T>, r: seq<T>)
    requires SameElements(p, q)
    ensures SameElements(Union(p, r), Union(q, r))
    ensures Union(p, r) == Union(q, r) ==> p == q
  {
    UnionHolds(p, r);
    UnionHolds(q, r);
    if r != [] {
      var front, last := r[..|r| - 1], r[|r| - 1];
      UnionsKeepApart(p, q, front);
      UnionHolds(p, front);
      UnionHolds(q, front);
      var a, b := Union(p, front), Union(q, front);
      if a + [last] == b + [last] {
        assert a == (a + [last])[..|a|] && b == (b + [last])[..|b|] && |a| == |b|;
      }
    }
  }

  lemma UnionIsAbsorbed<T(!new)>(a: seq<T>, b: seq<T>)
    ensures Union(a, b) == b ==> Union(b, a) == b
  {
    UnionHolds(a, b);
    UnionAddsNothing(b, a);
    if Union(a, b) == b {
      assert forall x | x in a :: x in b;
    }
  }

  lemma UnionsAlike<T(!new)>(a: seq<T>, b: seq<T>)
    requires Union(a, b) == Union(b, a)
    ensures Union(a, b) == b || Union(b, a) == a
  {
    UnionHolds(a, b);
    UnionHolds(b, a);
    UnionAddsNothing(a, b);
    UnionAddsNothing(b, a);
    if |a| <= |b| {
      assert a <= b by { assert a == Union(a, b)[..|a|] && b == Union(a, b)[..|b|]; }
      assert forall x | x in a :: x in b;
    } else {
      assert b <= a by { assert a == Union(a, b)[..|a|] && b == Union(a, b)[..|b|]; }
      assert forall x | x in b :: x in a;
    }
  }

  lemma UnionIsLawful<T(!new)>()
    ensures LawfulJoin((a: seq<T>, b: seq<T>) => Union(a, b), (a: seq<T>, b: seq<T>) => SameElements(a, b))
  {
    hide Union, SameElements;
    forall a: seq<T>, b: seq<T>
      ensures Union(a, a) == a
      ensures Union(a, b) == b ==> Union(b, a) == b
      ensures Union(a, b) == Union(b, a) ==> Union(a, b) == b || Union(b, a) == a
      ensures SameElements(Union(a, b), Union(b, a))
    {
      UnionAddsNothing(a, a);
      UnionIsAbsorbed(a, b);
      if Union(a, b) == Union(b, a) { UnionsAlike(a, b); }
      UnionEitherWay(a, b);
    }
    forall a: seq<T>, b: seq<T>, c: seq<T> | Union(a, b) == b && Union(b, c) == c ensures Union(a, c) == c {
      UnionIsAssociative(a, b, c);
    }
    forall p: seq<T>, q: seq<T>, r: seq<T> | SameElements(p, q)
      ensures SameElements(Union(p, r), Union(q, r))
      ensures Union(p, r) == Union(q, r) ==> p == q
    {
      UnionsKeepApart(p, q, r);
    }
  }

  lemma UnionEitherWay<T(!new)>(a: seq<T>, b: seq<T>)
    ensures SameElements(Union(a, b), Union(b, a))
  {
    UnionHolds(a, b);
    UnionHolds(b, a);
  }

  /** An option's values under a key, of which there may be none. */
  lemma CombineIsLawful()
    ensures LawfulJoin((a: TomlValue, b: TomlValue) => CombineScalar(a, b), (a: TomlValue, b: TomlValue) => TwinValues(a, b))
  {
    UnionIsLawful<TomlValue>();
    hide Union, SameElements;
    forall a: TomlValue, b: TomlValue
      ensures CombineScalar(a, a) == a
      ensures CombineScalar(a, b) == b ==> CombineScalar(b, a) == b
      ensures CombineScalar(a, b) == CombineScalar(b, a) ==> CombineScalar(a, b) == b || CombineScalar(b, a) == a
      ensures TwinValues(CombineScalar(a, b), CombineScalar(b, a))
    {
      CombineTwo(a, b);
    }
    forall a: TomlValue, b: TomlValue, c: TomlValue | CombineScalar(a, b) == b && CombineScalar(b, c) == c
      ensures CombineScalar(a, c) == c
    {
      if a.Array? && b.Array? && c.Array? { UnionIsAssociative(a.items, b.items, c.items); }
    }
    forall p: TomlValue, q: TomlValue, r: TomlValue | TwinValues(p, q)
      ensures TwinValues(CombineScalar(p, r), CombineScalar(q, r))
      ensures CombineScalar(p, r) == CombineScalar(q, r) ==> p == q
    {
      if p.Array? && q.Array? && r.Array? { UnionsKeepApart(p.items, q.items, r.items); }
    }
  }

  predicate TwinValues(a: TomlValue, b: TomlValue) {
    a.Array? && b.Array? ==> SameElements(a.items, b.items)
  }

  lemma CombineTwo(a: TomlValue, b: TomlValue)
    ensures CombineScalar(a, a) == a
    ensures CombineScalar(a, b) == b ==> CombineScalar(b, a) == b
    ensures CombineScalar(a, b) == CombineScalar(b, a) ==> CombineScalar(a, b) == b || CombineScalar(b, a) == a
    ensures TwinValues(CombineScalar(a, b), CombineScalar(b, a))
  {
    hide Union, SameElements;
    if a.Array? {
      UnionAddsNothing(a.items, a.items);
      if b.Array? {
        UnionIsAbsorbed(a.items, b.items);
        UnionEitherWay(a.items, b.items);
        if Union(a.items, b.items) == Union(b.items, a.items) { UnionsAlike(a.items, b.items); }
      }
    }
  }

  lemma KeepIsLawful()
    ensures LawfulJoin((a: TomlTable, b: TomlTable) => KeepFirst(a, b), (a: TomlTable, b: TomlTable) => true)
  {
  }

  /** A join of values is one of values that may be missing. */
  lemma BothIsLawful<V(!new)>(join: (V, V) -> V, twins: (V, V) -> bool)
    requires LawfulJoin(join, twins)
    ensures LawfulJoin((a: Option<V>, b: Option<V>) => Both(a, b, join), (a: Option<V>, b: Option<V>) => TwinOptions(a, b, twins))
  {
    forall v ensures join(v, v) == v && twins(v, v) {
      assert Below(join, v, v) && twins(join(v, v), join(v, v));
    }
    forall a: Option<V>, b: Option<V>
      ensures Both(a, a, join) == a
      ensures Both(a, b, join) == b ==> Both(b, a, join) == b
      ensures Both(a, b, join) == Both(b, a, join) ==> Both(a, b, join) == b || Both(b, a, join) == a
      ensures TwinOptions(Both(a, b, join), Both(b, a, join), twins)
    {
      if a.Some? && b.Some? {
        var v, w := a.value, b.value;
        assert Below(join, v, w) <==> join(v, w) == w;
        assert join(v, w) == join(w, v) ==> Nested(join, v, w);
      }
    }
    forall a: Option<V>, b: Option<V>, c: Option<V> | Both(a, b, join) == b && Both(b, c, join) == c
      ensures Both(a, c, join) == c
    {
      if a.Some? && b.Some? && c.Some? {
        assert Below(join, a.value, b.value) && Below(join, b.value, c.value);
      }
    }
    forall p: Option<V>, q: Option<V>, r: Option<V> | TwinOptions(p, q, twins)
      ensures TwinOptions(Both(p, r, join), Both(q, r, join), twins)
      ensures Both(p, r, join) == Both(q, r, join) ==> p == q
    {
    }
  }

  predicate TwinOptions<V>(a: Option<V>, b: Option<V>, twins: (V, V) -> bool) {
    (a.Some? <==> b.Some?) && (a.Some? ==> twins(a.value, b.value))
  }

  // ---- The aspects of an instance --------------------------------------------------------------

  const SOURCES: Aspect<seq<string>> :=
    Aspect((x: PluginInstance) => x.sources,
           (a: seq<string>, b: seq<string>) => Union(a, b), (a: seq<string>, b: seq<string>) => SameElements(a, b))

  const SCALAR_KEYS: Aspect<seq<string>> :=
    SOURCES.(of := (x: PluginInstance) => Keys(x.scalars))

  const SUBTABLE_KEYS: Aspect<seq<string>> :=
    SOURCES.(of := (x: PluginInstance) => Keys(x.subtables))

  function ScalarAt(key: string): Aspect<Option<TomlValue>> {
    var join := (a: TomlValue, b: TomlValue) => CombineScalar(a, b);
    var twins := (a: TomlValue, b: TomlValue) => TwinValues(a, b);
    Aspect((x: PluginInstance) => Lookup(x.scalars, key),
           (a: Option<TomlValue>, b: Option<TomlValue>) => Both(a, b, join),
           (a: Option<TomlValue>, b: Option<TomlValue>) => TwinOptions(a, b, twins))
  }

  function SubtableAt(key: string): Aspect<Option<TomlTable>> {
    var join := (a: TomlTable, b: TomlTable) => KeepFirst(a, b);
    var twins := (a: TomlTable, b: TomlTable) => true;
    Aspect((x: PluginInstance) => Lookup(x.subtables, key),
           (a: Option<TomlTable>, b: Option<TomlTable>) => Both(a, b, join),
           (a: Option<TomlTable>, b: Option<TomlTable>) => TwinOptions(a, b, twins))
  }

  lemma ListsAreLawful()
    ensures Lawful(SOURCES) && Lawful(SCALAR_KEYS) && Lawful(SUBTABLE_KEYS)
  {
    UnionIsLawful<string>();
    hide LawfulJoin, Union, SameElements, UniquelyKeyed, PutAll;
    forall x, y | UniquelyKeyed(x) && UniquelyKeyed(y)
      ensures Keys(Merged(x, y).scalars) == Union(Keys(x.scalars), Keys(y.scalars))
      ensures Keys(Merged(x, y).subtables) == Union(Keys(x.subtables), Keys(y.subtables))
    {
      PutAllKeys(x.scalars, y.scalars, CombineScalar);
      PutAllKeys(x.subtables, y.subtables, KeepFirst);
    }
  }

  lemma ScalarsAreLawful(key: string)
    ensures Lawful(ScalarAt(key))
  {
    CombineIsLawful();
    BothIsLawful((a: TomlValue, b: TomlValue) => CombineScalar(a, b), (a: TomlValue, b: TomlValue) => TwinValues(a, b));
    hide LawfulJoin, Lookup, UniquelyKeyed, Merged, CombineScalar, TwinValues;
    forall x, y | UniquelyKeyed(x) && UniquelyKeyed(y)
      ensures Lookup(Merged(x, y).scalars, key) == ScalarAt(key).join(Lookup(x.scalars, key), Lookup(y.scalars, key))
    {
      MergeMeans(x, y, key);
    }
  }

  lemma SubtablesAreLawful(key: string)
    ensures Lawful(SubtableAt(key))
  {
    KeepIsLawful();
    BothIsLawful((a: TomlTable, b: TomlTable) => KeepFirst(a, b), (a: TomlTable, b: TomlTable) => true);
    hide LawfulJoin, Lookup, UniquelyKeyed, Merged;
    forall x, y | UniquelyKeyed(x) && UniquelyKeyed(y)
      ensures Lookup(Merged(x, y).subtables, key) == SubtableAt(key).join(Lookup(x.subtables, key), Lookup(y.subtables, key))
    {
      MergeMeans(x, y, key);
    }
  }

  // ---- What the lines of an instance tell ----------------------------------------------------------

  predicate NoKeyFirst(lines: seq<Line>) {
    lines == [] || !lines[0].KeyLine?
  }

  lemma {:induction false} KeyLinesTell(indent: nat, a: TomlTable, t: seq<Line>, b: TomlTable, u: seq<Line>)
    requires KeyLines(indent, a) + t == KeyLines(indent, b) + u && NoKeyFirst(t) && NoKeyFirst(u)
    ensures a == b && t == u
  {
    hide KeyLines;
    KeysStart(indent, a, t);
    KeysStart(indent, b, u);
    if a != [] {
      FirstKey(indent, a, t);
      FirstKey(indent, b, u);
      KeyLinesTell(indent, a[1..], t, b[1..], u);
    }
  }

  lemma FirstKey(indent: nat, es: TomlTable, t: seq<Line>)
    requires es != []
    ensures var s := KeyLines(indent, es) + t;
            s != [] && s[0] == KeyLine(indent, es[0].key, es[0].value) && s[1..] == KeyLines(indent, es[1..]) + t
    ensures es == [es[0]] + es[1..]
  {
    var k, rest := KeyLine(indent, es[0].key, es[0].value), KeyLines(indent, es[1..]);
    assert KeyLines(indent, es) == [k] + rest;
    hide KeyLines;
    HeadApart(k, rest, t);
  }

  lemma HeadApart(k: Line, rest: seq<Line>, t: seq<Line>)
    ensures var s := [k] + rest + t; s[0] == k && s[1..] == rest + t
  {
  }

  lemma KeysStart(indent: nat, es: TomlTable, t: seq<Line>)
    requires NoKeyFirst(t)
    ensures NoKeyFirst(KeyLines(indent, es) + t) <==> es == []
    ensures es == [] ==> KeyLines(indent, es) + t == t
  {
  }

  lemma {:induction false} SubLinesTell(x: PluginInstance, a: seq<Pair<TomlTable>>, y: PluginInstance, b: seq<Pair<TomlTable>>)
    requires SubLines(x, a) + [Blank] == SubLines(y, b) + [Blank]
    ensures a == b
  {
    hide SubLines, KeyLines;
    SubsStart(x, a);
    SubsStart(y, b);
    if a != [] {
      FirstSub(x, a);
      FirstSub(y, b);
      SubsStart(x, a[1..]);
      SubsStart(y, b[1..]);
      KeyLinesTell(4, a[0].value, SubLines(x, a[1..]) + [Blank], b[0].value, SubLines(y, b[1..]) + [Blank]);
      SubLinesTell(x, a[1..], y, b[1..]);
    }
  }

  lemma FirstSub(x: PluginInstance, subs: seq<Pair<TomlTable>>)
    requires subs != []
    ensures var s := SubLines(x, subs) + [Blank];
            && s[0].SubHeader? && s[0].name == subs[0].key
            && s[1..] == KeyLines(4, subs[0].value) + (SubLines(x, subs[1..]) + [Blank])
    ensures subs == [subs[0]] + subs[1..]
  {
    hide KeyLines;
    var k := SubHeader(SectionPrefix(x.section), x.plugin, subs[0].key);
    var keys, rest := KeyLines(4, subs[0].value), SubLines(x, subs[1..]);
    assert SubLines(x, subs) == [k] + (keys + rest);
    hide SubLines;
    HeadApart(k, keys + rest, [Blank]);
    assert keys + rest + [Blank] == keys + (rest + [Blank]);
  }

  /** Names that can be told apart when they are put in a row: muninn's labels are fixed
      words, and module names hold no comma. */
  predicate Plain(x: PluginInstance) {
    ':' !in x.sourceLabel && forall i | 0 <= i < |x.sources| :: ',' !in x.sources[i]
  }

  predicate NoCommas(parts: seq<string>) {
    forall i | 0 <= i < |parts| :: ',' !in parts[i]
  }

  function FirstAt(s: string, c: char): (i: nat)
    ensures i <= |s| && (i == |s| <==> c !in s) && (i < |s| ==> s[i] == c)
  {
    if s == "" || s[0] == c then 0 else 1 + FirstAt(s[1..], c)
  }

  lemma {:induction false} FirstBehind(a: string, c: char, b: string)
    requires c !in a
    ensures FirstAt(a + [c] + b, c) == |a|
  {
    if a == "" {
      assert (a + [c] + b)[0] == c;
    } else {
      assert (a + [c] + b)[1..] == a[1..] + [c] + b && (a + [c] + b)[0] == a[0];
      FirstBehind(a[1..], c, b);
    }
  }

  /** A separator and a space behind text without it. */
  lemma SplitBehind(a: string, c: char, b: string)
    requires c !in a
    ensures var text := a + [c, ' '] + b;
            FirstAt(text, c) == |a| && |a| + 2 <= |text| && text[|a| + 1] == ' ' && text[..|a|] == a && text[|a| + 2..] == b
  {
    var text := a + [c, ' '] + b;
    assert text == a + [c] + ([' '] + b);
    FirstBehind(a, c, [' '] + b);
  }

  /** A list as a reader takes it apart: a comma and a space between two names. */
  function ReadList(text: string): seq<string>
    decreases |text|
  {
    var i := FirstAt(text, ',');
    if i + 2 <= |text| && text[i + 1] == ' ' then [text[..i]] + ReadList(text[i + 2..]) else [text]
  }

  lemma {:induction false} ListReadsBack(parts: seq<string>)
    requires parts != [] && NoCommas(parts)
    ensures ReadList(Join(parts)) == parts
  {
    hide FirstAt;
    if |parts| > 1 {
      var rest := Join(parts[1..]);
      assert Join(parts) == parts[0] + [',', ' '] + rest;
      SplitBehind(parts[0], ',', rest);
      ListReadsBack(parts[1..]);
      assert parts == [parts[0]] + parts[1..];
    }
  }

  /** A comment says what its sources are, and which: `module: cpu`, or `modules: load, system`. */
  function ReadSources(text: string): Option<(string, seq<string>)> {
    var i := FirstAt(text, ':');
    if i + 2 > |text| || text[i + 1] != ' ' then None
    else
      var names := ReadList(text[i + 2..]);
      if |names| == 1 then Some((text[..i], names))
      else if i > 0 && text[i - 1] == 's' then Some((text[..i - 1], names))
      else None
  }

  lemma LabelledReadsBack(shown: string, names: seq<string>)
    requires ':' !in shown && names != [] && NoCommas(names)
    ensures ReadSources(shown + [':', ' '] + Join(names)) ==
            if |names| == 1 then Some((shown, names))
            else if shown != "" && shown[|shown| - 1] == 's' then Some((shown[..|shown| - 1], names))
            else None
  {
    ListReadsBack(names);
    SplitBehind(shown, ':', Join(names));
    hide Join, ReadList, FirstAt;
    var text := shown + [':', ' '] + Join(names);
    if shown != "" { assert text[..|shown| - 1] == shown[..|shown| - 1] && text[|shown| - 1] == shown[|shown| - 1]; }
  }

  lemma TextReadsBack(source: string, names: seq<string>)
    requires ':' !in source && names != [] && NoCommas(names)
    ensures ReadSources(source + (if |names| > 1 then "s" else "") + ": " + Join(names)) == Some((source, names))
  {
    hide Join, ReadList, FirstAt, ReadSources;
    var shown := source + (if |names| > 1 then "s" else "");
    LabelledReadsBack(shown, names);
    if |names| > 1 { assert shown[..|source|] == source; } else { assert shown == source; }
  }

  lemma SourcesReadBack(x: PluginInstance)
    requires Plain(x)
    ensures x.sources == [] ==> Provenance(x) == []
    ensures x.sources != [] ==> |Provenance(x)| == 1 && Provenance(x)[0].Comment?
                                && ReadSources(Provenance(x)[0].text) == Some((x.sourceLabel, x.sources))
  {
    hide ReadSources, Join;
    if x.sources != [] { TextReadsBack(x.sourceLabel, x.sources); }
  }

  lemma ProvenanceTells(x: PluginInstance, y: PluginInstance)
    requires Plain(x) && Plain(y) && Provenance(x) == Provenance(y)
    ensures x.sources == y.sources && (x.sources != [] ==> x.sourceLabel == y.sourceLabel)
  {
    hide Provenance, ReadSources;
    SourcesReadBack(x);
    SourcesReadBack(y);
  }

  /** What is written of an instance. */
  predicate ShownAlike(x: PluginInstance, y: PluginInstance) {
    && x.section == y.section && x.scalars == y.scalars && x.subtables == y.subtables
    && x.sources == y.sources && (x.sources != [] ==> x.sourceLabel == y.sourceLabel)
  }

  lemma {:induction false} SubLinesAlike(x: PluginInstance, y: PluginInstance, subs: seq<Pair<TomlTable>>)
    requires x.section == y.section && x.plugin == y.plugin
    ensures SubLines(x, subs) == SubLines(y, subs)
  {
    if subs != [] { SubLinesAlike(x, y, subs[1..]); }
  }

  lemma LinesTell(x: PluginInstance, y: PluginInstance)
    requires Plain(x) && Plain(y) && x.plugin == y.plugin
    ensures InstanceLines(x) == InstanceLines(y) <==> ShownAlike(x, y)
  {
    hide KeyLines, SubLines, Join, Plain;
    if ShownAlike(x, y) {
      SubLinesAlike(x, y, x.subtables);
    }
    if InstanceLines(x) == InstanceLines(y) {
      LinesComeApart(x, y);
    }
  }

  lemma LinesComeApart(x: PluginInstance, y: PluginInstance)
    requires Plain(x) && Plain(y) && InstanceLines(x) == InstanceLines(y)
    ensures ShownAlike(x, y)
  {
    hide KeyLines, SubLines, Join, Plain, Provenance;
    var lines, p, q := InstanceLines(x), Provenance(x), Provenance(y);
    FrontTells(x, y);
    SubsStart(x, x.subtables);
    SubsStart(y, y.subtables);
    var t, u := SubLines(x, x.subtables) + [Blank], SubLines(y, y.subtables) + [Blank];
    assert lines[|p| + 1..] == KeyLines(2, x.scalars) + t && lines[|p| + 1..] == KeyLines(2, y.scalars) + u;
    KeyLinesTell(2, x.scalars, t, y.scalars, u);
    SubLinesTell(x, x.subtables, y, y.subtables);
    ProvenanceTells(x, y);
  }

  lemma SubsStart(x: PluginInstance, subs: seq<Pair<TomlTable>>)
    ensures var s := SubLines(x, subs) + [Blank]; NoKeyFirst(s) && (s[0].SubHeader? <==> subs != [])
  {
  }

  lemma FrontTells(x: PluginInstance, y: PluginInstance)
    requires InstanceLines(x) == InstanceLines(y)
    ensures Provenance(x) == Provenance(y) && x.section == y.section
  {
    hide KeyLines, SubLines, Join;
    var lines, p, q := InstanceLines(x), Provenance(x), Provenance(y);
    assert lines[|p|] == ArrayHeader(Prefix(x.section), x.plugin) && lines[|q|] == ArrayHeader(Prefix(y.section), y.plugin);
    assert |p| <= 1 && |q| <= 1 && (|p| == 1 ==> lines[0] == p[0]) && (|q| == 1 ==> lines[0] == q[0]);
    assert p == lines[..|p|] && q == lines[..|q|];
    PrefixesDiffer(x.section, y.section);
  }

  lemma PrefixesDiffer(a: Section, b: Section)
    ensures Prefix(a) == Prefix(b) ==> a == b
  {
    assert |Prefix(Agent)| == 5 && |Prefix(Input)| == 6 && |Prefix(Output)| == 7;
  }

  // ---- Exactly when the order within a group shows -----------------------------------------------------

  /** One list starts the other, which adds each new thing once. */
  predicate Starts<T(==)>(a: seq<T>, b: seq<T>) {
    a <= b && Distinct(b[|a|..]) && forall x | x in b[|a|..] :: x !in a
  }

  predicate OneStartsTheOther<T(==)>(a: seq<T>, b: seq<T>) {
    Starts(a, b) || Starts(b, a)
  }

  predicate ValuesNested(v: TomlValue, w: TomlValue) {
    v == w || (v.Array? && w.Array? && OneStartsTheOther(v.items, w.items))
  }

  /** Which of the two comes first does not show: each list of one starts the other's, and
      what is no list is the same. */
  ghost predicate Interchangeable(x: PluginInstance, y: PluginInstance) {
    && x.section == y.section
    && OneStartsTheOther(x.sources, y.sources)
    && OneStartsTheOther(Keys(x.scalars), Keys(y.scalars))
    && OneStartsTheOther(Keys(x.subtables), Keys(y.subtables))
    && ScalarsFit(x.scalars, y.scalars) && SubtablesFit(x.subtables, y.subtables)
  }

  lemma {:induction false} UnionOfStart<T(!new)>(a: seq<T>, more: seq<T>)
    ensures |Union(a, more)| <= |a| + |more|
    ensures Union(a, more) == a + more <==> Distinct(more) && forall x | x in more :: x !in a
  {
    UnionHolds(a, more);
    if more != [] {
      var front, last := more[..|more| - 1], more[|more| - 1];
      assert more == front + [last];
      UnionOfStart(a, front);
      UnionHolds(a, front);
      if Union(a, more) == a + more {
        assert Union(a, front) == (a + more)[..|a| + |front|] == a + front;
      }
      if Distinct(more) && forall x | x in more :: x !in a {
        assert forall i | 0 <= i < |front| :: front[i] == more[i];
        assert last !in front;
      }
    }
  }

  lemma {:induction false} UnionMore<T(!new)>(a: seq<T>, b: seq<T>, c: seq<T>)
    ensures Union(a, b + c) == Union(Union(a, b), c)
  {
    if c == [] {
      assert b + c == b;
    } else {
      var front, last := c[..|c| - 1], c[|c| - 1];
      UnionMore(a, b, front);
      assert b + c == (b + front) + [last];
      assert (b + c)[..|b + c| - 1] == b + front;
    }
  }

  lemma StartsMeans<T(!new)>(a: seq<T>, b: seq<T>)
    ensures Starts(a, b) <==> Union(a, b) == b
  {
    UnionHolds(a, b);
    if a <= b {
      var more := b[|a|..];
      assert b == a + more;
      UnionMore(a, a, more);
      UnionAddsNothing(a, a);
      UnionOfStart(a, more);
    }
  }

  /** Lists with nothing twice only need to start alike. */
  lemma DistinctStart<T(!new)>(a: seq<T>, b: seq<T>)
    requires Distinct(b)
    ensures Starts(a, b) <==> a <= b
  {
    if a <= b {
      forall i, j | 0 <= i < |a| <= j < |b| ensures a[i] != b[j] {
        assert a[i] == b[i];
      }
    }
  }

  // What nested means for each aspect.

  lemma ListsNested(a: seq<string>, b: seq<string>)
    ensures Nested(SOURCES.join, a, b) <==> OneStartsTheOther(a, b)
  {
    StartsMeans(a, b);
    StartsMeans(b, a);
    hide Starts, Union;
  }

  lemma ScalarsNested(key: string, a: Option<TomlValue>, b: Option<TomlValue>)
    ensures Nested(ScalarAt(key).join, a, b) <==> (a.Some? && b.Some? ==> ValuesNested(a.value, b.value))
  {
    if a.Some? && b.Some? {
      ValueBelow(a.value, b.value);
      ValueBelow(b.value, a.value);
    }
    hide CombineScalar, Starts;
  }

  lemma ValueBelow(v: TomlValue, w: TomlValue)
    ensures CombineScalar(v, w) == w <==> v == w || (v.Array? && w.Array? && Starts(v.items, w.items))
  {
    hide Union, Starts;
    if v.Array? && w.Array? {
      StartsMeans(v.items, w.items);
      UnionAddsNothing(v.items, v.items);
    }
  }

  lemma SubtablesNested(key: string, a: Option<TomlTable>, b: Option<TomlTable>)
    ensures Nested(SubtableAt(key).join, a, b) <==> (a.Some? && b.Some? ==> a.value == b.value)
  {
  }

  lemma LookupAt<V>(es: seq<Pair<V>>, i: nat)
    requires Distinct(Keys(es)) && i < |es|
    ensures Lookup(es, es[i].key) == Some(es[i].value)
  {
    forall j | 0 <= j < i ensures es[j].key != es[i].key {
      assert Keys(es)[j] != Keys(es)[i];
    }
    FindIs(es, es[i].key, i);
  }

  /** In every aspect of their content two members are nested. */
  ghost predicate ContentsNested(x: PluginInstance, y: PluginInstance) {
    && Nested(SOURCES.join, x.sources, y.sources)
    && Nested(SCALAR_KEYS.join, Keys(x.scalars), Keys(y.scalars))
    && Nested(SUBTABLE_KEYS.join, Keys(x.subtables), Keys(y.subtables))
    && (forall key :: Nested(ScalarAt(key).join, Lookup(x.scalars, key), Lookup(y.scalars, key)))
    && (forall key :: Nested(SubtableAt(key).join, Lookup(x.subtables, key), Lookup(y.subtables, key)))
  }

  ghost predicate ScalarsFit(x: TomlTable, y: TomlTable) {
    forall i, j | 0 <= i < |x| && 0 <= j < |y| && x[i].key == y[j].key :: ValuesNested(x[i].value, y[j].value)
  }

  ghost predicate SubtablesFit(x: seq<Pair<TomlTable>>, y: seq<Pair<TomlTable>>) {
    forall i, j | 0 <= i < |x| && 0 <= j < |y| && x[i].key == y[j].key :: x[i].value == y[j].value
  }

  lemma ScalarsFitExactly(x: TomlTable, y: TomlTable)
    requires Distinct(Keys(x)) && Distinct(Keys(y))
    ensures ScalarsFit(x, y) <==> forall key :: Nested(ScalarAt(key).join, Lookup(x, key), Lookup(y, key))
  {
    hide ValuesNested, ScalarAt, Nested, Distinct;
    forall key ensures Nested(ScalarAt(key).join, Lookup(x, key), Lookup(y, key)) <==>
                       (Lookup(x, key).Some? && Lookup(y, key).Some? ==> ValuesNested(Lookup(x, key).value, Lookup(y, key).value)) {
      ScalarsNested(key, Lookup(x, key), Lookup(y, key));
    }
    forall i | 0 <= i < |x| ensures Lookup(x, x[i].key) == Some(x[i].value) { LookupAt(x, i); }
    forall j | 0 <= j < |y| ensures Lookup(y, y[j].key) == Some(y[j].value) { LookupAt(y, j); }
  }

  lemma SubtablesFitExactly(x: seq<Pair<TomlTable>>, y: seq<Pair<TomlTable>>)
    requires Distinct(Keys(x)) && Distinct(Keys(y))
    ensures SubtablesFit(x, y) <==> forall key :: Nested(SubtableAt(key).join, Lookup(x, key), Lookup(y, key))
  {
    hide SubtableAt, Nested, Distinct;
    forall key ensures Nested(SubtableAt(key).join, Lookup(x, key), Lookup(y, key)) <==>
                       (Lookup(x, key).Some? && Lookup(y, key).Some? ==> Lookup(x, key).value == Lookup(y, key).value) {
      SubtablesNested(key, Lookup(x, key), Lookup(y, key));
    }
    forall i | 0 <= i < |x| ensures Lookup(x, x[i].key) == Some(x[i].value) { LookupAt(x, i); }
    forall j | 0 <= j < |y| ensures Lookup(y, y[j].key) == Some(y[j].value) { LookupAt(y, j); }
  }

  lemma InterchangeableMeans(x: PluginInstance, y: PluginInstance)
    requires UniquelyKeyed(x) && UniquelyKeyed(y)
    ensures Interchangeable(x, y) <==> x.section == y.section && ContentsNested(x, y)
  {
    hide OneStartsTheOther, ValuesNested, Nested, Lookup, ScalarAt, SubtableAt, Keys, Distinct, ScalarsFit, SubtablesFit;
    ListsNested(x.sources, y.sources);
    ListsNested(Keys(x.scalars), Keys(y.scalars));
    ListsNested(Keys(x.subtables), Keys(y.subtables));
    ScalarsFitExactly(x.scalars, y.scalars);
    SubtablesFitExactly(x.subtables, y.subtables);
  }

  // The whole of a group, in any order.

  /** Members that merge: one plugin, keys that do not repeat, and names that can be told apart. */
  predicate IsGroup(xs: seq<PluginInstance>) {
    && xs != [] && Keyed(xs)
    && (forall i | 0 <= i < |xs| :: Plain(xs[i]) && xs[i].plugin == xs[0].plugin)
  }

  /** The comment carries the label of the member that came first. */
  ghost predicate LabelsAgree(xs: seq<PluginInstance>) {
    (forall x | x in xs :: x.sources == []) || (forall x, y | x in xs && y in xs :: x.sourceLabel == y.sourceLabel)
  }

  ghost predicate AllInterchangeable(xs: seq<PluginInstance>) {
    LabelsAgree(xs) && forall x, y | x in xs && y in xs :: Interchangeable(x, y)
  }

  lemma GroupEither(xs: seq<PluginInstance>, ys: seq<PluginInstance>)
    requires IsGroup(xs) && multiset(ys) == multiset(xs)
    ensures IsGroup(ys) && ys[0].plugin == xs[0].plugin
  {
    hide UniquelyKeyed, Plain;
    SameMembers(xs, ys);
    assert forall i | 0 <= i < |ys| :: ys[i] in xs;
  }

  lemma {:induction false} FoldKeepsTheRest(x: PluginInstance, ys: seq<PluginInstance>)
    requires Plain(x) && forall i | 0 <= i < |ys| :: Plain(ys[i])
    ensures Plain(Fold(x, ys)) && Fold(x, ys).sourceLabel == x.sourceLabel
    ensures Fold(x, ys).sources == [] <==> x.sources == [] && forall i | 0 <= i < |ys| :: ys[i].sources == []
  {
    hide PutAll;
    if ys != [] {
      var front, last := ys[..|ys| - 1], ys[|ys| - 1];
      assert ys == front + [last];
      FoldKeepsTheRest(x, front);
      var a := Fold(x, front).sources;
      UnionHolds(a, last.sources);
      assert Fold(x, ys).sources == Union(a, last.sources);
      assert last.sources != [] ==> last.sources[0] in Union(a, last.sources);
      forall i | 0 <= i < |Union(a, last.sources)| ensures ',' !in Union(a, last.sources)[i] {
        assert Union(a, last.sources)[i] in Union(a, last.sources);
      }
    }
  }

  lemma WholeOfGroup(xs: seq<PluginInstance>)
    requires IsGroup(xs)
    ensures var w := Whole(xs);
            && UniquelyKeyed(w) && Plain(w) && w.plugin == xs[0].plugin && w.section == xs[0].section
            && w.sourceLabel == xs[0].sourceLabel
            && (w.sources == [] <==> forall x | x in xs :: x.sources == [])
  {
    hide UniquelyKeyed, Plain, Fold;
    var rest := xs[1..];
    FoldIsKeyed(xs[0], rest);
    FoldKeepsGroup(xs[0], rest);
    FoldKeepsTheRest(xs[0], rest);
    assert xs == [xs[0]] + rest;
  }

  /** The content of the whole is the same for every order. */
  ghost predicate ContentIsSame(xs: seq<PluginInstance>)
    requires xs != []
  {
    forall ys | ys != [] && multiset(ys) == multiset(xs) ::
      && Whole(ys).sources == Whole(xs).sources
      && Whole(ys).scalars == Whole(xs).scalars && Whole(ys).subtables == Whole(xs).subtables
  }

  ghost predicate AllContentsNested(xs: seq<PluginInstance>) {
    forall x, y | x in xs && y in xs :: ContentsNested(x, y)
  }

  lemma NestedInEveryAspect(xs: seq<PluginInstance>)
    ensures AllContentsNested(xs) <==>
            && AllNested(SOURCES, xs) && AllNested(SCALAR_KEYS, xs) && AllNested(SUBTABLE_KEYS, xs)
            && (forall key :: AllNested(ScalarAt(key), xs)) && (forall key :: AllNested(SubtableAt(key), xs))
  {
    hide Nested, Lookup, Keys;
    if AllContentsNested(xs) {
      forall key ensures AllNested(ScalarAt(key), xs) && AllNested(SubtableAt(key), xs) {}
    }
    if && AllNested(SOURCES, xs) && AllNested(SCALAR_KEYS, xs) && AllNested(SUBTABLE_KEYS, xs)
       && (forall key :: AllNested(ScalarAt(key), xs)) && (forall key :: AllNested(SubtableAt(key), xs)) {
      forall x, y | x in xs && y in xs ensures ContentsNested(x, y) {
        forall key
          ensures Nested(ScalarAt(key).join, Lookup(x.scalars, key), Lookup(y.scalars, key))
          ensures Nested(SubtableAt(key).join, Lookup(x.subtables, key), Lookup(y.subtables, key))
        {
          assert AllNested(ScalarAt(key), xs) && AllNested(SubtableAt(key), xs);
        }
      }
    }
  }

  lemma EveryAspect(xs: seq<PluginInstance>)
    requires xs != [] && Keyed(xs)
    ensures AllContentsNested(xs) <==>
            && SameForEveryOrder(SOURCES.of, xs) && SameForEveryOrder(SCALAR_KEYS.of, xs) && SameForEveryOrder(SUBTABLE_KEYS.of, xs)
            && (forall key :: SameForEveryOrder(ScalarAt(key).of, xs)) && (forall key :: SameForEveryOrder(SubtableAt(key).of, xs))
  {
    hide Lawful, UniquelyKeyed, AllNested, AllContentsNested, SameForEveryOrder, ScalarAt, SubtableAt;
    ListsAreLawful();
    SameExactlyWhenNested(SOURCES, xs);
    SameExactlyWhenNested(SCALAR_KEYS, xs);
    SameExactlyWhenNested(SUBTABLE_KEYS, xs);
    forall key
      ensures SameForEveryOrder(ScalarAt(key).of, xs) <==> AllNested(ScalarAt(key), xs)
      ensures SameForEveryOrder(SubtableAt(key).of, xs) <==> AllNested(SubtableAt(key), xs)
    {
      ScalarsAreLawful(key);
      SubtablesAreLawful(key);
      SameExactlyWhenNested(ScalarAt(key), xs);
      SameExactlyWhenNested(SubtableAt(key), xs);
    }
    NestedInEveryAspect(xs);
  }

  lemma ContentExactlyWhenNested(xs: seq<PluginInstance>)
    requires IsGroup(xs)
    ensures ContentIsSame(xs) <==> AllContentsNested(xs)
  {
    hide Plain, UniquelyKeyed, Whole, ContentsNested, Keys, Lookup;
    EveryAspect(xs);
    if AllContentsNested(xs) {
      forall ys | ys != [] && multiset(ys) == multiset(xs)
        ensures Whole(ys).sources == Whole(xs).sources
        ensures Whole(ys).scalars == Whole(xs).scalars && Whole(ys).subtables == Whole(xs).subtables
      {
        ContentOf(xs, ys);
      }
    }
  }

  lemma ContentOf(xs: seq<PluginInstance>, ys: seq<PluginInstance>)
    requires IsGroup(xs) && AllContentsNested(xs) && multiset(ys) == multiset(xs)
    ensures ys != [] && Whole(ys).sources == Whole(xs).sources
    ensures Whole(ys).scalars == Whole(xs).scalars && Whole(ys).subtables == Whole(xs).subtables
  {
    hide Plain, Whole, AllContentsNested, Find, Distinct, Lookup;
    EveryAspect(xs);
    GroupEither(xs, ys);
    WholeOfGroup(xs);
    WholeOfGroup(ys);
    var v, w := Whole(xs), Whole(ys);
    forall key ensures Lookup(v.scalars, key) == Lookup(w.scalars, key) && Lookup(v.subtables, key) == Lookup(w.subtables, key) {
      assert SameForEveryOrder(ScalarAt(key).of, xs) && SameForEveryOrder(SubtableAt(key).of, xs);
    }
    EntriesAreDetermined(v.scalars, w.scalars);
    EntriesAreDetermined(v.subtables, w.subtables);
  }

  lemma ComesFirst(xs: seq<PluginInstance>, x: PluginInstance) returns (ys: seq<PluginInstance>)
    requires x in xs
    ensures ys != [] && ys[0] == x && multiset(ys) == multiset(xs)
  {
    var i :| 0 <= i < |xs| && xs[i] == x;
    ys := [x] + xs[..i] + xs[i + 1..];
    assert xs == xs[..i] + [x] + xs[i + 1..];
  }

  lemma OrdersShownAlike(xs: seq<PluginInstance>, ys: seq<PluginInstance>)
    requires IsGroup(xs) && multiset(ys) == multiset(xs)
    ensures ys != [] && (InstanceLines(Whole(ys)) == InstanceLines(Whole(xs)) <==> ShownAlike(Whole(ys), Whole(xs)))
    ensures Whole(ys).section == ys[0].section && Whole(ys).sourceLabel == ys[0].sourceLabel
  {
    hide InstanceLines, Whole, Plain, UniquelyKeyed;
    GroupEither(xs, ys);
    WholeOfGroup(xs);
    WholeOfGroup(ys);
    LinesTell(Whole(ys), Whole(xs));
  }

  ghost predicate HeadsAgree(xs: seq<PluginInstance>) {
    LabelsAgree(xs) && forall x, y | x in xs && y in xs :: x.section == y.section
  }

  lemma SameLinesMeanSameHeads(xs: seq<PluginInstance>)
    requires IsGroup(xs) && SameForEveryOrder(InstanceLines, xs)
    ensures HeadsAgree(xs)
  {
    hide InstanceLines, Whole, Plain, UniquelyKeyed;
    WholeOfGroup(xs);
    forall x | x in xs
      ensures x.section == Whole(xs).section
      ensures Whole(xs).sources != [] ==> x.sourceLabel == Whole(xs).sourceLabel
    {
      var ys := ComesFirst(xs, x);
      OrdersShownAlike(xs, ys);
    }
  }

  /** The lines a group comes to are the same for every order of its members exactly when
      any two of these are interchangeable and carry one label, or have no sources. */
  lemma GroupOrderShowsExactly(xs: seq<PluginInstance>)
    requires IsGroup(xs)
    ensures SameForEveryOrder(InstanceLines, xs) <==> AllInterchangeable(xs)
  {
    hide InstanceLines, Whole, Plain, UniquelyKeyed, ContentsNested, Interchangeable, LabelsAgree;
    ContentExactlyWhenNested(xs);
    forall x, y | x in xs && y in xs ensures Interchangeable(x, y) <==> x.section == y.section && ContentsNested(x, y) {
      InterchangeableMeans(x, y);
    }
    if SameForEveryOrder(InstanceLines, xs) {
      SameLinesMeanSameHeads(xs);
      forall ys | ys != [] && multiset(ys) == multiset(xs) ensures ShownAlike(Whole(ys), Whole(xs)) {
        OrdersShownAlike(xs, ys);
      }
      assert ContentIsSame(xs);
    }
    if AllInterchangeable(xs) {
      forall ys | ys != [] && multiset(ys) == multiset(xs) ensures InstanceLines(Whole(ys)) == InstanceLines(Whole(xs)) {
        AgreeingHeads(xs, ys);
        OrdersShownAlike(xs, ys);
      }
    }
  }

  lemma AgreeingHeads(xs: seq<PluginInstance>, ys: seq<PluginInstance>)
    requires IsGroup(xs) && HeadsAgree(xs) && multiset(ys) == multiset(xs)
    ensures ys != [] && Whole(ys).section == Whole(xs).section
    ensures Whole(xs).sources != [] ==> Whole(ys).sourceLabel == Whole(xs).sourceLabel
  {
    hide Whole, Plain, UniquelyKeyed;
    GroupEither(xs, ys);
    SameMembers(xs, ys);
    WholeOfGroup(xs);
    WholeOfGroup(ys);
    assert ys[0] in xs && xs[0] in xs;
  }
}
