/** The typed Telegraf configuration: plugin instances that merge, the buckets
    they are added to, and the order they are rendered in. */
module TelegrafModel {
  import opened Wrappers

  datatype TomlValue =
    | String(text: string)
    | Integer(i: int)
    | Boolean(b: bool)
    | Array(items: seq<TomlValue>)

  datatype Pair<V> = Pair(key: string, value: V)

  type TomlTable = seq<Pair<TomlValue>>

  datatype Section = Agent | Input | Output

  /** One block of the file. Instances are moved and stored by value, so they are values here. */
  datatype PluginInstance = PluginInstance(
    section: Section,
    plugin: string,
    rank: nat,
    sources: seq<string>,
    sourceLabel: string,
    mergeKey: Option<string>,
    scalars: seq<Pair<TomlValue>>,
    subtables: seq<Pair<TomlTable>>)

  // ---- Unions in first-seen order ---------------------------------------------------

  function AddItem<T(==)>(a: seq<T>, x: T): seq<T> {
    if x in a then a else a + [x]
  }

  function Union<T(==)>(a: seq<T>, b: seq<T>): seq<T> {
    if b == [] then a else AddItem(Union(a, b[..|b| - 1]), b[|b| - 1])
  }

  lemma {:induction false} UnionHolds<T>(a: seq<T>, b: seq<T>)
    ensures a <= Union(a, b)
    ensures forall x :: x in Union(a, b) <==> x in a || x in b
  {
    if b != [] {
      UnionHolds(a, b[..|b| - 1]);
      assert b == b[..|b| - 1] + [b[|b| - 1]];
    }
  }

  /** A union adds nothing exactly when everything is there already. */
  lemma {:induction false} UnionAddsNothing<T>(a: seq<T>, b: seq<T>)
    ensures Union(a, b) == a <==> forall x | x in b :: x in a
  {
    UnionHolds(a, b);
    if b != [] && forall x | x in b :: x in a {
      assert b[|b| - 1] in b;
      assert forall x | x in b[..|b| - 1] :: x in b;
      UnionAddsNothing(a, b[..|b| - 1]);
    }
  }

  lemma {:induction false} UnionIsAssociative<T>(a: seq<T>, b: seq<T>, c: seq<T>)
    ensures Union(Union(a, b), c) == Union(a, Union(b, c))
  {
    if c != [] {
      var front, x := c[..|c| - 1], c[|c| - 1];
      UnionIsAssociative(a, b, front);
      UnionHolds(a, Union(b, front));
      var bf := Union(b, front);
      if x !in bf {
        assert (bf + [x])[..|bf + [x]| - 1] == bf;
      }
    }
  }

  // ---- Keyed entries ---------------------------------------------------------------------

  function Keys<V>(es: seq<Pair<V>>): (ks: seq<string>)
    ensures |ks| == |es|
  {
    seq(|es|, i requires 0 <= i < |es| => es[i].key)
  }

  predicate Distinct<T(==)>(xs: seq<T>) {
    forall i, j | 0 <= i < j < |xs| :: xs[i] != xs[j]
  }

  /** Where the first entry with this key stands; the length when there is none. */
  function Find<V>(es: seq<Pair<V>>, key: string): (i: nat)
    ensures i <= |es|
    ensures i < |es| ==> es[i].key == key
    ensures forall j | 0 <= j < i :: es[j].key != key
  {
    if es == [] || es[0].key == key then 0 else 1 + Find(es[1..], key)
  }

  function Lookup<V>(es: seq<Pair<V>>, key: string): Option<V> {
    var i := Find(es, key);
    if i < |es| then Some(es[i].value) else None
  }

  /** Combine into the first entry with the key, or append. */
  function Put<V>(es: seq<Pair<V>>, e: Pair<V>, f: (V, V) -> V): seq<Pair<V>> {
    var i := Find(es, e.key);
    if i < |es| then es[i := Pair(e.key, f(es[i].value, e.value))] else es + [e]
  }

  function PutAll<V>(es: seq<Pair<V>>, more: seq<Pair<V>>, f: (V, V) -> V): seq<Pair<V>> {
    if more == [] then es else Put(PutAll(es, more[..|more| - 1], f), more[|more| - 1], f)
  }

  lemma FindIs<V>(es: seq<Pair<V>>, key: string, i: nat)
    requires i < |es| && es[i].key == key && forall j | 0 <= j < i :: es[j].key != key
    ensures Find(es, key) == i
  {
  }

  lemma FindNone<V>(es: seq<Pair<V>>, key: string)
    ensures Find(es, key) < |es| <==> key in Keys(es)
  {
    if Find(es, key) < |es| { assert Keys(es)[Find(es, key)] == key; }
  }

  lemma PutLookup<V>(es: seq<Pair<V>>, e: Pair<V>, f: (V, V) -> V, key: string)
    ensures Lookup(Put(es, e, f), key) ==
            if key != e.key then Lookup(es, key)
            else match Lookup(es, key) case None => Some(e.value) case Some(v) => Some(f(v, e.value))
    ensures Keys(Put(es, e, f)) == AddItem(Keys(es), e.key)
  {
    var i, r := Find(es, e.key), Put(es, e, f);
    FindNone(es, e.key);
    if i < |es| {
      assert Keys(r) == Keys(es);
    }
    var k := Find(es, key);
    if k < |es| {
      FindIs(r, key, k);
    } else if key == e.key {
      FindIs(r, key, |es|);
    } else {
      FindNone(es, key);
      FindNone(r, key);
      assert Keys(r) == AddItem(Keys(es), e.key);
    }
  }

  lemma DistinctAdd<T>(xs: seq<T>, x: T)
    requires Distinct(xs)
    ensures Distinct(AddItem(xs, x))
  {
  }

  lemma {:induction false} PutAllKeys<V>(es: seq<Pair<V>>, more: seq<Pair<V>>, f: (V, V) -> V)
    ensures Keys(PutAll(es, more, f)) == Union(Keys(es), Keys(more))
    ensures Distinct(Keys(es)) ==> Distinct(Keys(PutAll(es, more, f)))
  {
    if more != [] {
      var front, last := more[..|more| - 1], more[|more| - 1];
      PutAllKeys(es, front, f);
      PutLookup(PutAll(es, front, f), last, f, last.key);
      assert Keys(more)[..|more| - 1] == Keys(front);
      if Distinct(Keys(es)) { DistinctAdd(Keys(PutAll(es, front, f)), last.key); }
    }
  }

  /** What a key holds after a merge: both values combined, or the one there is. */
  function Both<V>(a: Option<V>, b: Option<V>, f: (V, V) -> V): Option<V> {
    match (a, b)
    case (None, _) => b
    case (_, None) => a
    case (Some(x), Some(y)) => Some(f(x, y))
  }

  lemma {:induction false} PutAllLookup<V>(es: seq<Pair<V>>, more: seq<Pair<V>>, f: (V, V) -> V, key: string)
    requires Distinct(Keys(more))
    ensures Lookup(PutAll(es, more, f), key) == Both(Lookup(es, key), Lookup(more, key), f)
  {
    if more != [] {
      var front, last := more[..|more| - 1], more[|more| - 1];
      assert Keys(front) == Keys(more)[..|more| - 1];
      PutAllLookup(es, front, f, key);
      PutLookup(PutAll(es, front, f), last, f, key);
      LookupLast(more, key);
    }
  }

  lemma LookupLast<V>(es: seq<Pair<V>>, key: string)
    requires es != [] && Distinct(Keys(es))
    ensures Lookup(es, key) == if key == es[|es| - 1].key then Some(es[|es| - 1].value) else Lookup(es[..|es| - 1], key)
    ensures key == es[|es| - 1].key ==> Lookup(es[..|es| - 1], key) == None
  {
    var n := |es| - 1;
    var front := es[..n];
    if key == es[n].key {
      forall j | 0 <= j < n ensures es[j].key != key { assert Keys(es)[j] != Keys(es)[n]; }
      FindIs(es, key, n);
    } else {
      var k := Find(front, key);
      if k < n { FindIs(es, key, k); }
    }
  }

  /** Keys in order and the value under each determine the entries. */
  lemma EntriesAreDetermined<V>(a: seq<Pair<V>>, b: seq<Pair<V>>)
    requires Distinct(Keys(a)) && Keys(a) == Keys(b)
    requires forall key :: Lookup(a, key) == Lookup(b, key)
    ensures a == b
  {
    assert |a| == |Keys(a)| == |b|;
    forall i | 0 <= i < |a| ensures a[i] == b[i] {
      assert Keys(a)[i] == Keys(b)[i];
      forall j | 0 <= j < i ensures a[j].key != a[i].key && b[j].key != b[i].key {
        assert Keys(a)[j] != Keys(a)[i] && Keys(b)[j] == Keys(a)[j];
      }
      FindIs(a, a[i].key, i);
      FindIs(b, a[i].key, i);
      assert Lookup(a, a[i].key) == Lookup(b, a[i].key);
    }
  }

  ghost predicate Associates<V>(a: Option<V>, b: Option<V>, c: Option<V>, f: (V, V) -> V) {
    a.Some? && b.Some? && c.Some? ==> f(f(a.value, b.value), c.value) == f(a.value, f(b.value, c.value))
  }

  /** Putting entries together is associative exactly where the values under each
      key of all three combine associatively. */
  lemma PutAllAssociates<V>(a: seq<Pair<V>>, b: seq<Pair<V>>, c: seq<Pair<V>>, f: (V, V) -> V)
    requires Distinct(Keys(a)) && Distinct(Keys(b)) && Distinct(Keys(c))
    ensures PutAll(PutAll(a, b, f), c, f) == PutAll(a, PutAll(b, c, f), f) <==>
            forall key :: Associates(Lookup(a, key), Lookup(b, key), Lookup(c, key), f)
  {
    var ab, bc := PutAll(a, b, f), PutAll(b, c, f);
    var left, right := PutAll(ab, c, f), PutAll(a, bc, f);
    PutAllKeys(a, b, f); PutAllKeys(b, c, f);
    PutAllKeys(ab, c, f); PutAllKeys(a, bc, f);
    UnionIsAssociative(Keys(a), Keys(b), Keys(c));
    forall key
      ensures Lookup(left, key) == Lookup(right, key) <==> Associates(Lookup(a, key), Lookup(b, key), Lookup(c, key), f)
    {
      PutAllLookup(a, b, f, key); PutAllLookup(b, c, f, key);
      PutAllLookup(ab, c, f, key); PutAllLookup(a, bc, f, key);
    }
    if forall key :: Associates(Lookup(a, key), Lookup(b, key), Lookup(c, key), f) {
      EntriesAreDetermined(left, right);
    }
  }

  /** Putting entries into themselves changes nothing when values absorb themselves. */
  lemma PutAllIdempotent<V>(a: seq<Pair<V>>, f: (V, V) -> V)
    requires Distinct(Keys(a)) && forall e | e in a :: f(e.value, e.value) == e.value
    ensures PutAll(a, a, f) == a
  {
    PutAllKeys(a, a, f);
    UnionAddsNothing(Keys(a), Keys(a));
    forall key ensures Lookup(PutAll(a, a, f), key) == Lookup(a, key) {
      PutAllLookup(a, a, f, key);
      if Find(a, key) < |a| { assert a[Find(a, key)] in a; }
    }
    EntriesAreDetermined(PutAll(a, a, f), a);
  }

  // ---- Merging two instances -------------------------------------------------------------------

  /** Only arrays union; otherwise the first value wins. */
  function CombineScalar(old_: TomlValue, new_: TomlValue): TomlValue {
    if old_.Array? && new_.Array? then Array(Union(old_.items, new_.items)) else old_
  }

  function KeepFirst(old_: TomlTable, new_: TomlTable): TomlTable {
    old_
  }

  function Merged(self: PluginInstance, other: PluginInstance): PluginInstance {
    self.(scalars := PutAll(self.scalars, other.scalars, CombineScalar),
          subtables := PutAll(self.subtables, other.subtables, KeepFirst),
          sources := Union(self.sources, other.sources))
  }

  method Merge(self: PluginInstance, other: PluginInstance) returns (merged: PluginInstance)
    ensures merged == Merged(self, other)
  {
    var scalars := self.scalars;
    for n := 0 to |other.scalars|
      invariant scalars == PutAll(self.scalars, other.scalars[..n], CombineScalar)
    {
      assert other.scalars[..n + 1][..n] == other.scalars[..n];
      var e := other.scalars[n];
      var i := Find(scalars, e.key);
      if i == |scalars| {
        scalars := scalars + [e];
      } else if scalars[i].value.Array? && e.value.Array? {
        var items := UnionOf(scalars[i].value.items, e.value.items);
        scalars := scalars[i := Pair(e.key, Array(items))];
      } else {
        assert scalars[i := Pair(e.key, scalars[i].value)] == scalars;
      }
    }
    assert other.scalars[..|other.scalars|] == other.scalars;
    var subtables := self.subtables;
    for n := 0 to |other.subtables|
      invariant subtables == PutAll(self.subtables, other.subtables[..n], KeepFirst)
    {
      assert other.subtables[..n + 1][..n] == other.subtables[..n];
      var e := other.subtables[n];
      var i := Find(subtables, e.key);
      if i == |subtables| {
        subtables := subtables + [e];
      } else {
        assert subtables[i := Pair(e.key, subtables[i].value)] == subtables;
      }
    }
    assert other.subtables[..|other.subtables|] == other.subtables;
    var sources := UnionOf(self.sources, other.sources);
    merged := self.(scalars := scalars, subtables := subtables, sources := sources);
  }

  /** Push what is not there yet, one value after the other. */
  method UnionOf<T(==)>(a: seq<T>, b: seq<T>) returns (r: seq<T>)
    ensures r == Union(a, b)
    ensures a <= r && forall x :: x in r <==> x in a || x in b
  {
    UnionHolds(a, b);
    r := a;
    for n := 0 to |b|
      invariant r == Union(a, b[..n])
    {
      assert b[..n + 1][..n] == b[..n];
      if b[n] !in r {
        r := r + [b[n]];
      }
    }
    assert b[..|b|] == b;
  }

  predicate UniquelyKeyed(x: PluginInstance) {
    Distinct(Keys(x.scalars)) && Distinct(Keys(x.subtables))
  }

  lemma MergeIsIdempotent(x: PluginInstance)
    requires UniquelyKeyed(x)
    ensures Merged(x, x) == x
  {
    forall e | e in x.scalars ensures CombineScalar(e.value, e.value) == e.value {
      if e.value.Array? { UnionAddsNothing(e.value.items, e.value.items); }
    }
    PutAllIdempotent(x.scalars, CombineScalar);
    PutAllIdempotent(x.subtables, KeepFirst);
    UnionAddsNothing(x.sources, x.sources);
  }

  /** Three values under one key whose grouping matters: an array, something that
      is no array, and an array with something new. */
  predicate GroupingMatters(a: Option<TomlValue>, b: Option<TomlValue>, c: Option<TomlValue>) {
    && a.Some? && b.Some? && c.Some?
    && a.value.Array? && !b.value.Array? && c.value.Array?
    && exists x | x in c.value.items :: x !in a.value.items
  }

  lemma ScalarsAssociate(a: Option<TomlValue>, b: Option<TomlValue>, c: Option<TomlValue>)
    ensures Associates(a, b, c, CombineScalar) <==> !GroupingMatters(a, b, c)
  {
    if a.Some? && b.Some? && c.Some? && a.value.Array? && c.value.Array? {
      if b.value.Array? {
        UnionIsAssociative(a.value.items, b.value.items, c.value.items);
      } else {
        UnionAddsNothing(a.value.items, c.value.items);
      }
    }
  }

  /** Merging is associative exactly when no key holds an array, then a value that
      is no array, then an array with something new. */
  lemma MergeIsAssociativeExactly(a: PluginInstance, b: PluginInstance, c: PluginInstance)
    requires UniquelyKeyed(a) && UniquelyKeyed(b) && UniquelyKeyed(c)
    ensures Merged(Merged(a, b), c) == Merged(a, Merged(b, c)) <==>
            forall key :: !GroupingMatters(Lookup(a.scalars, key), Lookup(b.scalars, key), Lookup(c.scalars, key))
  {
    PutAllAssociates(a.scalars, b.scalars, c.scalars, CombineScalar);
    PutAllAssociates(a.subtables, b.subtables, c.subtables, KeepFirst);
    UnionIsAssociative(a.sources, b.sources, c.sources);
    forall key
      ensures Associates(Lookup(a.scalars, key), Lookup(b.scalars, key), Lookup(c.scalars, key), CombineScalar)
              <==> !GroupingMatters(Lookup(a.scalars, key), Lookup(b.scalars, key), Lookup(c.scalars, key))
    {
      ScalarsAssociate(Lookup(a.scalars, key), Lookup(b.scalars, key), Lookup(c.scalars, key));
    }
  }

  /** What a merged instance holds: keys in first-seen order, arrays unioned with
      nothing lost, the first value otherwise, and the first sub-table of a name. */
  lemma MergeMeans(a: PluginInstance, b: PluginInstance, key: string)
    requires UniquelyKeyed(a) && UniquelyKeyed(b)
    ensures var m := Merged(a, b);
            && UniquelyKeyed(m)
            && Keys(m.scalars) == Union(Keys(a.scalars), Keys(b.scalars))
            && Lookup(m.scalars, key) == Both(Lookup(a.scalars, key), Lookup(b.scalars, key), CombineScalar)
            && Lookup(m.subtables, key) == (if Lookup(a.subtables, key).Some? then Lookup(a.subtables, key) else Lookup(b.subtables, key))
            && (forall s :: s in m.sources <==> s in a.sources || s in b.sources)
  {
    PutAllKeys(a.scalars, b.scalars, CombineScalar);
    PutAllKeys(a.subtables, b.subtables, KeepFirst);
    PutAllLookup(a.scalars, b.scalars, CombineScalar, key);
    PutAllLookup(a.subtables, b.subtables, KeepFirst, key);
    UnionHolds(a.sources, b.sources);
  }

  /** The same value, arrays compared as sets. */
  ghost predicate SameContent(x: Option<TomlValue>, y: Option<TomlValue>) {
    if x.Some? && y.Some? && x.value.Array? && y.value.Array? then
      forall item :: item in x.value.items <==> item in y.value.items
    else x == y
  }

  predicate Agree(x: Option<TomlValue>, y: Option<TomlValue>) {
    x.Some? && y.Some? ==> (x.value.Array? && y.value.Array?) || x == y
  }

  /** Which instance merges into which shows in the content exactly where they disagree
      on an option that is no array on both sides. */
  lemma MergeOrderShowsExactlyInDisagreement(a: PluginInstance, b: PluginInstance)
    requires UniquelyKeyed(a) && UniquelyKeyed(b)
    ensures (forall key :: SameContent(Lookup(Merged(a, b).scalars, key), Lookup(Merged(b, a).scalars, key))) <==>
            (forall key :: Agree(Lookup(a.scalars, key), Lookup(b.scalars, key)))
    ensures forall s :: s in Merged(a, b).sources <==> s in Merged(b, a).sources
  {
    hide Merged, SameContent, Agree, UniquelyKeyed;
    forall key
      ensures SameContent(Lookup(Merged(a, b).scalars, key), Lookup(Merged(b, a).scalars, key)) <==>
              Agree(Lookup(a.scalars, key), Lookup(b.scalars, key))
    {
      MergeOrderAtKey(a, b, key);
    }
    MergeMeans(a, b, "");
    MergeMeans(b, a, "");
  }

  lemma MergeOrderAtKey(a: PluginInstance, b: PluginInstance, key: string)
    requires UniquelyKeyed(a) && UniquelyKeyed(b)
    ensures SameContent(Lookup(Merged(a, b).scalars, key), Lookup(Merged(b, a).scalars, key)) <==>
            Agree(Lookup(a.scalars, key), Lookup(b.scalars, key))
  {
    hide Merged, UniquelyKeyed, Lookup;
    MergeMeans(a, b, key);
    MergeMeans(b, a, key);
    var x, y := Lookup(a.scalars, key), Lookup(b.scalars, key);
    if x.Some? && y.Some? && x.value.Array? && y.value.Array? {
      UnionHolds(x.value.items, y.value.items);
      UnionHolds(y.value.items, x.value.items);
    }
  }

  // ---- Building one instance ------------------------------------------------------------------------

  /** A builder call; the tag-drop shorthand is a sub-table. */
  datatype Call = AddScalar(key: string, value: TomlValue) | AddSubtable(key: string, table: TomlTable)

  function Build(x: PluginInstance, call: Call): PluginInstance {
    match call
    case AddScalar(key, value) => x.(scalars := x.scalars + [Pair(key, value)])
    case AddSubtable(key, table) => if table == [] then x else x.(subtables := x.subtables + [Pair(key, table)])
  }

  function Built(x: PluginInstance, calls: seq<Call>): PluginInstance {
    if calls == [] then x else Build(Built(x, calls[..|calls| - 1]), calls[|calls| - 1])
  }

  function ScalarsOf(calls: seq<Call>): TomlTable {
    if calls == [] then []
    else ScalarsOf(calls[..|calls| - 1])
         + match calls[|calls| - 1] case AddScalar(key, value) => [Pair(key, value)] case AddSubtable(_, _) => []
  }

  /** An empty sub-table is not added. */
  function SubtablesOf(calls: seq<Call>): seq<Pair<TomlTable>> {
    if calls == [] then []
    else SubtablesOf(calls[..|calls| - 1])
         + match calls[|calls| - 1]
           case AddScalar(_, _) => []
           case AddSubtable(key, table) => if table == [] then [] else [Pair(key, table)]
  }

  /** Scalars and sub-tables keep to themselves, each in call order, however the calls
      are interleaved. */
  lemma {:induction false} BuiltApart(x: PluginInstance, calls: seq<Call>)
    requires x.scalars == [] && x.subtables == []
    ensures Built(x, calls) == x.(scalars := ScalarsOf(calls), subtables := SubtablesOf(calls))
  {
    if calls != [] {
      BuiltApart(x, calls[..|calls| - 1]);
    }
  }

  // ---- Adding instances to a bucket ---------------------------------------------------------------

  /** Two instances merge when they share plugin and merge key. */
  predicate SameGroup(x: PluginInstance, y: PluginInstance) {
    x.mergeKey.Some? && x.plugin == y.plugin && x.mergeKey == y.mergeKey
  }

  function FindGroup(bucket: seq<PluginInstance>, x: PluginInstance): (i: nat)
    ensures i <= |bucket|
    ensures i < |bucket| ==> SameGroup(x, bucket[i])
    ensures forall j | 0 <= j < i :: !SameGroup(x, bucket[j])
  {
    if bucket == [] || SameGroup(x, bucket[0]) then 0 else 1 + FindGroup(bucket[1..], x)
  }

  function AddTo(bucket: seq<PluginInstance>, x: PluginInstance): seq<PluginInstance> {
    var i := FindGroup(bucket, x);
    if i < |bucket| then bucket[i := Merged(bucket[i], x)] else bucket + [x]
  }

  function AddAll(xs: seq<PluginInstance>): seq<PluginInstance> {
    if xs == [] then [] else AddTo(AddAll(xs[..|xs| - 1]), xs[|xs| - 1])
  }

  class TelegrafConfig {
    var agent: seq<Pair<TomlValue>>
    var inputs: seq<PluginInstance>
    var outputs: seq<PluginInstance>

    constructor ()
      ensures agent == [] && inputs == [] && outputs == []
    {
      agent, inputs, outputs := [], [], [];
    }

    method AgentOption(key: string, value: TomlValue)
      modifies this`agent
      ensures agent == old(agent) + [Pair(key, value)]
    {
      agent := agent + [Pair(key, value)];
    }

    /** Anything that is no output goes with the inputs. */
    method Add(x: PluginInstance)
      modifies this`inputs, this`outputs
      ensures inputs == if x.section != Output then AddTo(old(inputs), x) else old(inputs)
      ensures outputs == if x.section == Output then AddTo(old(outputs), x) else old(outputs)
    {
      var bucket := if x.section == Output then outputs else inputs;
      if x.mergeKey.Some? {
        var i := FindGroup(bucket, x);
        if i < |bucket| {
          var merged := Merge(bucket[i], x);
          if x.section == Output { outputs := outputs[i := merged]; } else { inputs := inputs[i := merged]; }
          return;
        }
      }
      if x.section == Output { outputs := outputs + [x]; } else { inputs := inputs + [x]; }
    }
  }

  /** The reference: every group once, where its first member stood, as the left
      fold of its members; instances without a merge key on their own. */
  function Groups(xs: seq<PluginInstance>): seq<PluginInstance>
    decreases |xs|
  {
    if xs == [] then []
    else
      [Fold(xs[0], Same(xs[1..], xs[0]))] + Groups(Others(xs[1..], xs[0]))
  }

  function Fold(x: PluginInstance, ys: seq<PluginInstance>): PluginInstance {
    if ys == [] then x else Merged(Fold(x, ys[..|ys| - 1]), ys[|ys| - 1])
  }

  function Same(xs: seq<PluginInstance>, x: PluginInstance): seq<PluginInstance> {
    if xs == [] then []
    else (if SameGroup(x, xs[0]) then [xs[0]] else []) + Same(xs[1..], x)
  }

  function Others(xs: seq<PluginInstance>, x: PluginInstance): (r: seq<PluginInstance>)
    ensures |r| <= |xs|
  {
    if xs == [] then []
    else (if SameGroup(x, xs[0]) then [] else [xs[0]]) + Others(xs[1..], x)
  }

  lemma {:induction false} SameAtEnd(xs: seq<PluginInstance>, x: PluginInstance, y: PluginInstance)
    ensures Same(xs + [y], x) == if SameGroup(x, y) then Same(xs, x) + [y] else Same(xs, x)
  {
    if xs == [] {
      assert [] + [y] == [y];
    } else {
      SameAtEnd(xs[1..], x, y);
      assert (xs + [y])[1..] == xs[1..] + [y];
    }
  }

  lemma {:induction false} OthersAtEnd(xs: seq<PluginInstance>, x: PluginInstance, y: PluginInstance)
    ensures Others(xs + [y], x) == if SameGroup(x, y) then Others(xs, x) else Others(xs, x) + [y]
  {
    if xs == [] {
      assert [] + [y] == [y];
    } else {
      OthersAtEnd(xs[1..], x, y);
      assert (xs + [y])[1..] == xs[1..] + [y];
    }
  }

  lemma {:induction false} FoldKeepsGroup(x: PluginInstance, ys: seq<PluginInstance>)
    ensures Fold(x, ys).plugin == x.plugin && Fold(x, ys).mergeKey == x.mergeKey
    ensures Fold(x, ys).section == x.section && Fold(x, ys).rank == x.rank
  {
    if ys != [] { FoldKeepsGroup(x, ys[..|ys| - 1]); }
  }

  lemma {:induction false} AddToGroups(xs: seq<PluginInstance>, y: PluginInstance)
    ensures AddTo(Groups(xs), y) == Groups(xs + [y])
    decreases |xs|
  {
    if xs == [] {
      assert [] + [y] == [y];
      assert Others([], y) == [];
    } else {
      var x, rest := xs[0], xs[1..];
      var head, tail := Fold(x, Same(rest, x)), Groups(Others(rest, x));
      assert (xs + [y])[0] == x && (xs + [y])[1..] == rest + [y];
      SameAtEnd(rest, x, y);
      OthersAtEnd(rest, x, y);
      FoldKeepsGroup(x, Same(rest, x));
      assert SameGroup(y, head) <==> SameGroup(x, y);
      if SameGroup(x, y) {
        FoldMore(x, Same(rest, x), y);
        JoinHead(head, tail, y);
      } else {
        AddToGroups(Others(rest, x), y);
        AddBehind(head, tail, y);
      }
    }
  }

  lemma FoldMore(x: PluginInstance, ys: seq<PluginInstance>, y: PluginInstance)
    ensures Fold(x, ys + [y]) == Merged(Fold(x, ys), y)
  {
    assert (ys + [y])[..|ys + [y]| - 1] == ys;
  }

  lemma JoinHead(head: PluginInstance, tail: seq<PluginInstance>, y: PluginInstance)
    requires SameGroup(y, head)
    ensures AddTo([head] + tail, y) == [Merged(head, y)] + tail
  {
    assert FindGroup([head] + tail, y) == 0;
  }

  lemma AddBehind(head: PluginInstance, tail: seq<PluginInstance>, y: PluginInstance)
    requires !SameGroup(y, head)
    ensures AddTo([head] + tail, y) == [head] + AddTo(tail, y)
  {
    assert ([head] + tail)[1..] == tail;
  }

  /** After any sequence of additions a bucket holds each group once, as the left
      fold of the instances added with its key, in first-seen order. */
  lemma {:induction false} BucketHoldsGroups(xs: seq<PluginInstance>)
    ensures AddAll(xs) == Groups(xs)
  {
    if xs != [] {
      BucketHoldsGroups(xs[..|xs| - 1]);
      AddToGroups(xs[..|xs| - 1], xs[|xs| - 1]);
      assert xs[..|xs| - 1] + [xs[|xs| - 1]] == xs;
    }
  }

  lemma {:induction false} GroupsOnlyOnce(xs: seq<PluginInstance>)
    ensures forall i, j | 0 <= i < j < |Groups(xs)| :: !SameGroup(Groups(xs)[i], Groups(xs)[j])
    ensures forall g | g in Groups(xs) :: exists x | x in xs :: x.plugin == g.plugin && x.mergeKey == g.mergeKey
    decreases |xs|
  {
    if xs != [] {
      var x, others := xs[0], Others(xs[1..], xs[0]);
      FoldKeepsGroup(x, Same(xs[1..], x));
      GroupsOnlyOnce(others);
      OthersAreOthers(xs[1..], x);
      assert x in xs && forall y | y in xs[1..] :: y in xs;
    }
  }

  lemma {:induction false} OthersAreOthers(xs: seq<PluginInstance>, x: PluginInstance)
    ensures forall y | y in Others(xs, x) :: y in xs && !SameGroup(x, y)
  {
    if xs != [] { OthersAreOthers(xs[1..], x); }
  }

  /** A bucket never holds two instances with the same plugin and merge key. */
  lemma NoGroupTwice(xs: seq<PluginInstance>)
    ensures forall i, j | 0 <= i < j < |AddAll(xs)| :: !SameGroup(AddAll(xs)[i], AddAll(xs)[j])
  {
    BucketHoldsGroups(xs);
    GroupsOnlyOnce(xs);
  }
}
