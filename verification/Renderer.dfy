/** The renderer, and a reader of TOML tables that has to give the configuration
    back: a key belongs to the table started last, a `[[t.p]]` header appends an
    element, and a `[t.p.n]` header opens a table in the last element of `t.p`
    (sections "Table" and "Array of Tables" of TOML v1.0.0). Values are opaque:
    one key line carries one value. */
module Renderer {
  import opened Wrappers
  import opened TelegrafModel
  import opened RenderOrder

  datatype Line =
    | Comment(text: string)
    | Blank
    | AgentHeader
    | ArrayHeader(table: string, plugin: string)
    | SubHeader(table: string, plugin: string, name: string)
    | KeyLine(indent: nat, key: string, value: TomlValue)

  datatype Config = Config(agent: TomlTable, inputs: seq<PluginInstance>, outputs: seq<PluginInstance>)

  // ---- Rendering ------------------------------------------------------------------------

  function Prefix(s: Section): string {
    match s
    case Agent => "agent"
    case Input => "inputs"
    case Output => "outputs"
  }

  /** The prefix of sub-table headers: anything that is no output counts as an input. */
  function SectionPrefix(s: Section): string {
    if s == Output then "outputs" else "inputs"
  }

  function Join(parts: seq<string>): string {
    if parts == [] then ""
    else if |parts| == 1 then parts[0]
    else parts[0] + ", " + Join(parts[1..])
  }

  function Provenance(x: PluginInstance): seq<Line> {
    if x.sources == [] then []
    else [Comment(x.sourceLabel + (if |x.sources| > 1 then "s" else "") + ": " + Join(x.sources))]
  }

  function KeyLines(indent: nat, es: TomlTable): seq<Line> {
    if es == [] then []
    else [KeyLine(indent, es[0].key, es[0].value)] + KeyLines(indent, es[1..])
  }

  function SubLines(x: PluginInstance, subs: seq<Pair<TomlTable>>): seq<Line> {
    if subs == [] then []
    else [SubHeader(SectionPrefix(x.section), x.plugin, subs[0].key)] + KeyLines(4, subs[0].value) + SubLines(x, subs[1..])
  }

  /** Scalars first, sub-tables last, always. */
  function InstanceLines(x: PluginInstance): seq<Line> {
    Provenance(x) + [ArrayHeader(Prefix(x.section), x.plugin)] + KeyLines(2, x.scalars) + SubLines(x, x.subtables) + [Blank]
  }

  function InstancesLines(xs: seq<PluginInstance>): seq<Line> {
    if xs == [] then [] else InstanceLines(xs[0]) + InstancesLines(xs[1..])
  }

  function Header(version: string): seq<Line> {
    [Comment("Generated by muninn " + version + " - do not edit."),
     Comment(""),
     Comment("This file is regenerated from scratch on every start and lives on a tmpfs."),
     Comment("Edit the muninn configuration instead; this is only its rendered form."),
     Comment(""),
     Comment("Secret values are shown redacted. The file muninn actually writes at runtime"),
     Comment("contains the resolved values."),
     Blank]
  }

  function AgentLines(agent: TomlTable): seq<Line> {
    if agent == [] then [] else [AgentHeader] + KeyLines(2, agent) + [Blank]
  }

  function SectionLines(title: string, xs: seq<PluginInstance>): seq<Line> {
    if xs == [] then [] else [Comment(title), Blank] + InstancesLines(xs)
  }

  /** Everything rendered, before trailing blank lines are dropped. */
  function AllLines(c: Config, version: string): seq<Line> {
    Header(version) + AgentLines(c.agent) + SectionLines("Inputs", Sort(c.inputs)) + SectionLines("Outputs", Sort(c.outputs))
  }

  /** Exactly one trailing newline. */
  function DropTrailingBlanks(lines: seq<Line>): seq<Line> {
    if |lines| >= 2 && lines[|lines| - 1] == Blank then DropTrailingBlanks(lines[..|lines| - 1]) else lines
  }

  function Rendered(c: Config, version: string): seq<Line> {
    DropTrailingBlanks(AllLines(c, version))
  }

  method Render(c: Config, version: string) returns (out: seq<Line>)
    ensures out == Rendered(c, version)
    ensures |out| >= 2 ==> out[|out| - 1] != Blank
  {
    out := Header(version);
    if c.agent != [] {
      out := out + [AgentHeader];
      out := RenderKeys(out, 2, c.agent);
      out := out + [Blank];
    }
    assert out == Header(version) + AgentLines(c.agent);
    out := RenderSection(out, "Inputs", Sort(c.inputs));
    out := RenderSection(out, "Outputs", Sort(c.outputs));
    while |out| >= 2 && out[|out| - 1] == Blank
      invariant DropTrailingBlanks(out) == Rendered(c, version)
      decreases |out|
    {
      out := out[..|out| - 1];
    }
  }

  method RenderSection(before: seq<Line>, title: string, xs: seq<PluginInstance>) returns (out: seq<Line>)
    ensures out == before + SectionLines(title, xs)
  {
    out := before;
    if xs != [] {
      out := out + [Comment(title), Blank];
      out := RenderInstances(out, xs);
    }
  }

  method RenderKeys(before: seq<Line>, indent: nat, es: TomlTable) returns (out: seq<Line>)
    ensures out == before + KeyLines(indent, es)
  {
    out := before;
    for n := 0 to |es|
      invariant out + KeyLines(indent, es[n..]) == before + KeyLines(indent, es)
    {
      assert es[n..][1..] == es[n + 1..];
      out := out + [KeyLine(indent, es[n].key, es[n].value)];
    }
  }

  method RenderInstances(before: seq<Line>, xs: seq<PluginInstance>) returns (out: seq<Line>)
    ensures out == before + InstancesLines(xs)
  {
    out := before;
    for n := 0 to |xs|
      invariant out + InstancesLines(xs[n..]) == before + InstancesLines(xs)
    {
      assert xs[n..][1..] == xs[n + 1..];
      out := RenderInstance(out, xs[n]);
    }
  }

  method RenderInstance(before: seq<Line>, x: PluginInstance) returns (out: seq<Line>)
    ensures out == before + InstanceLines(x)
  {
    out := before + Provenance(x) + [ArrayHeader(Prefix(x.section), x.plugin)];
    out := RenderKeys(out, 2, x.scalars);
    out := RenderSubs(out, x);
    out := out + [Blank];
  }

  method RenderSubs(before: seq<Line>, x: PluginInstance) returns (out: seq<Line>)
    ensures out == before + SubLines(x, x.subtables)
  {
    out := before;
    for n := 0 to |x.subtables|
      invariant out + SubLines(x, x.subtables[n..]) == before + SubLines(x, x.subtables)
    {
      var sub := x.subtables[n];
      assert x.subtables[n..][1..] == x.subtables[n + 1..];
      out := out + [SubHeader(SectionPrefix(x.section), x.plugin, sub.key)];
      out := RenderKeys(out, 4, sub.value);
    }
  }

  // ---- Reading back --------------------------------------------------------------------------

  /** One element of an array of tables, with the tables started inside it. */
  datatype Element = Element(table: string, plugin: string, scalars: TomlTable, subs: seq<Pair<TomlTable>>)

  datatype Cursor = AtTop | InAgent | InElement(i: nat) | InSub(i: nat)

  /** What has been read, and the table that is open. */
  datatype Document = Document(top: TomlTable, agent: TomlTable, agentSeen: bool, elements: seq<Element>, cursor: Cursor)

  const EMPTY: Document := Document([], [], false, [], AtTop)

  predicate Has<V>(es: seq<Pair<V>>, key: string) {
    key in Keys(es)
  }

  /** The last element of the array `table.plugin`. */
  function LastElement(es: seq<Element>, table: string, plugin: string): (r: Option<nat>)
    ensures r.Some? ==> r.value < |es|
  {
    if es == [] then None
    else if es[|es| - 1].table == table && es[|es| - 1].plugin == plugin then Some(|es| - 1)
    else LastElement(es[..|es| - 1], table, plugin)
  }

  function AddKey(d: Document, key: string, value: TomlValue): Option<Document> {
    match d.cursor
    case AtTop => if Has(d.top, key) then None else Some(d.(top := d.top + [Pair(key, value)]))
    case InAgent => if Has(d.agent, key) then None else Some(d.(agent := d.agent + [Pair(key, value)]))
    case InElement(i) =>
      if i >= |d.elements| then None else
      var e := d.elements[i];
      if Has(e.scalars, key) || Has(e.subs, key) then None
      else Some(d.(elements := d.elements[i := e.(scalars := e.scalars + [Pair(key, value)])]))
    case InSub(i) =>
      if i >= |d.elements| || d.elements[i].subs == [] then None else
      var e := d.elements[i];
      var k := |e.subs| - 1;
      if Has(e.subs[k].value, key) then None
      else Some(d.(elements := d.elements[i := e.(subs := e.subs[k := Pair(e.subs[k].key, e.subs[k].value + [Pair(key, value)])])]))
  }

  /** One line; a table or key defined twice is an error. */
  function ReadLine(d: Document, line: Line): Option<Document> {
    match line
    case Comment(_) => Some(d)
    case Blank => Some(d)
    case AgentHeader => if d.agentSeen then None else Some(d.(agentSeen := true, cursor := InAgent))
    case ArrayHeader(t, p) =>
      if t == "agent" && Has(d.agent, p) then None
      else Some(d.(elements := d.elements + [Element(t, p, [], [])], cursor := InElement(|d.elements|)))
    case SubHeader(t, p, n) =>
      (match LastElement(d.elements, t, p)
       case None => None
       case Some(i) =>
         var e := d.elements[i];
         if Has(e.scalars, n) || Has(e.subs, n) then None
         else Some(d.(elements := d.elements[i := e.(subs := e.subs + [Pair(n, [])])], cursor := InSub(i))))
    case KeyLine(_, k, v) => AddKey(d, k, v)
  }

  function Read(d: Document, lines: seq<Line>): Option<Document>
    decreases |lines|
  {
    if lines == [] then Some(d)
    else match ReadLine(d, lines[0])
      case None => None
      case Some(next) => Read(next, lines[1..])
  }

  lemma {:induction false} ReadConcat(d: Document, a: seq<Line>, b: seq<Line>)
    ensures Read(d, a + b) == match Read(d, a) case None => None case Some(mid) => Read(mid, b)
    decreases |a|
  {
    hide ReadLine;
    if a == [] {
      assert a + b == b;
    } else {
      assert (a + b)[1..] == a[1..] + b;
      match ReadLine(d, a[0]) {
        case None =>
        case Some(next) => ReadConcat(next, a[1..], b);
      }
    }
  }

  // ---- What should be read back ------------------------------------------------------------------

  function ElementOf(table: string, x: PluginInstance): Element {
    Element(table, x.plugin, x.scalars, x.subtables)
  }

  function ElementsOf(table: string, xs: seq<PluginInstance>): seq<Element> {
    if xs == [] then [] else [ElementOf(table, xs[0])] + ElementsOf(table, xs[1..])
  }

  /** The agent options, then every input and every output in rank order, each with
      its own scalars and its own sub-tables. */
  ghost predicate ReadsBackAs(d: Option<Document>, c: Config) {
    && d.Some? && d.value.top == [] && d.value.agent == c.agent
    && exists ins, outs :: InOrder(c.inputs, ins) && InOrder(c.outputs, outs)
                           && d.value.elements == ElementsOf("inputs", ins) + ElementsOf("outputs", outs)
  }

  lemma ReadsBackSorted(d: Option<Document>, c: Config)
    ensures ReadsBackAs(d, c) <==>
            && d.Some? && d.value.top == [] && d.value.agent == c.agent
            && d.value.elements == ElementsOf("inputs", Sort(c.inputs)) + ElementsOf("outputs", Sort(c.outputs))
  {
    hide InOrder, ElementsOf, Sort;
    forall ins ensures InOrder(c.inputs, ins) <==> ins == Sort(c.inputs) { SortIsTheOrder(c.inputs, ins); }
    forall outs ensures InOrder(c.outputs, outs) <==> outs == Sort(c.outputs) { SortIsTheOrder(c.outputs, outs); }
  }

  /** An instance whose keys TOML can hold: no key twice in a table, and no
      sub-table named like another one or like a scalar. */
  predicate WellKeyed(scalars: TomlTable, subs: seq<Pair<TomlTable>>) {
    && Distinct(Keys(scalars)) && Distinct(Keys(subs))
    && (forall k | k in Keys(scalars) :: k !in Keys(subs))
    && (forall i | 0 <= i < |subs| :: Distinct(Keys(subs[i].value)))
  }

  ghost predicate Readable(c: Config) {
    && Distinct(Keys(c.agent))
    && (forall x | x in c.inputs :: x.section == Input && WellKeyed(x.scalars, x.subtables))
    && (forall x | x in c.outputs :: x.section == Output && WellKeyed(x.scalars, x.subtables))
  }

  // ---- Reading what was rendered --------------------------------------------------------------------

  lemma ReadOne(d: Document, line: Line, rest: seq<Line>)
    ensures Read(d, [line] + rest) == match ReadLine(d, line) case None => None case Some(next) => Read(next, rest)
  {
    assert ([line] + rest)[1..] == rest;
  }

  lemma DistinctHead<V>(es: seq<Pair<V>>, more: seq<Pair<V>>)
    requires more != [] && Distinct(Keys(es + more))
    ensures !Has(es, more[0].key)
    ensures es + more == es + [more[0]] + more[1..]
  {
    forall i | 0 <= i < |es| ensures Keys(es)[i] != more[0].key {
      assert Keys(es + more)[i] != Keys(es + more)[|es|];
    }
  }

  lemma {:induction false} ReadAgentKeys(d: Document, indent: nat, es: TomlTable)
    requires d.cursor == InAgent && Distinct(Keys(d.agent + es))
    ensures Read(d, KeyLines(indent, es)) == Some(d.(agent := d.agent + es))
    decreases |es|
  {
    if es == [] {
      assert d.agent + es == d.agent;
    } else {
      DistinctHead(d.agent, es);
      ReadOne(d, KeyLine(indent, es[0].key, es[0].value), KeyLines(indent, es[1..]));
      var next := d.(agent := d.agent + [es[0]]);
      ReadAgentKeys(next, indent, es[1..]);
    }
  }

  /** The document whose last element is `e`. */
  function Ending(d: Document, before: seq<Element>, e: Element, cursor: Cursor): Document {
    d.(elements := before + [e], cursor := cursor)
  }

  lemma {:induction false} ReadScalars(d: Document, before: seq<Element>, e: Element, indent: nat, es: TomlTable)
    requires Distinct(Keys(e.scalars + es)) && e.subs == []
    ensures Read(Ending(d, before, e, InElement(|before|)), KeyLines(indent, es))
            == Some(Ending(d, before, e.(scalars := e.scalars + es), InElement(|before|)))
    decreases |es|
  {
    var here := Ending(d, before, e, InElement(|before|));
    if es == [] {
      assert e.scalars + es == e.scalars;
    } else {
      DistinctHead(e.scalars, es);
      ReadOne(here, KeyLine(indent, es[0].key, es[0].value), KeyLines(indent, es[1..]));
      var grown := e.(scalars := e.scalars + [es[0]]);
      assert here.elements[|before| := grown] == before + [grown];
      ReadScalars(d, before, grown, indent, es[1..]);
    }
  }

  /** The element with its last sub-table replaced. */
  function LastSub(e: Element, subs: seq<Pair<TomlTable>>, name: string, table: TomlTable): Element {
    e.(subs := subs + [Pair(name, table)])
  }

  lemma {:induction false} ReadSubKeys(d: Document, before: seq<Element>, e: Element, subs: seq<Pair<TomlTable>>,
                                       name: string, table: TomlTable, indent: nat, es: TomlTable)
    requires Distinct(Keys(table + es))
    ensures Read(Ending(d, before, LastSub(e, subs, name, table), InSub(|before|)), KeyLines(indent, es))
            == Some(Ending(d, before, LastSub(e, subs, name, table + es), InSub(|before|)))
    decreases |es|
  {
    var here := Ending(d, before, LastSub(e, subs, name, table), InSub(|before|));
    if es == [] {
      assert table + es == table;
    } else {
      DistinctHead(table, es);
      ReadOne(here, KeyLine(indent, es[0].key, es[0].value), KeyLines(indent, es[1..]));
      var grown := table + [es[0]];
      assert (subs + [Pair(name, table)])[|subs| := Pair(name, grown)] == subs + [Pair(name, grown)];
      assert here.elements[|before| := LastSub(e, subs, name, grown)] == before + [LastSub(e, subs, name, grown)];
      ReadSubKeys(d, before, e, subs, name, grown, indent, es[1..]);
    }
  }

  function CursorAfter(i: nat, subs: seq<Pair<TomlTable>>, cursor: Cursor): Cursor {
    if subs == [] then cursor else InSub(i)
  }

  lemma {:induction false} ReadSubs(d: Document, before: seq<Element>, e: Element, x: PluginInstance,
                                    subs: seq<Pair<TomlTable>>, cursor: Cursor)
    requires e.table == SectionPrefix(x.section) && e.plugin == x.plugin
    requires WellKeyed(e.scalars, e.subs + subs)
    ensures Read(Ending(d, before, e, cursor), SubLines(x, subs))
            == Some(Ending(d, before, e.(subs := e.subs + subs), CursorAfter(|before|, subs, cursor)))
    decreases |subs|
  {
    var here := Ending(d, before, e, cursor);
    if subs == [] {
      assert e.subs + subs == e.subs;
    } else {
      var sub, rest := subs[0], SubLines(x, subs[1..]);
      SubIsNew(e.scalars, e.subs, subs);
      var started := LastSub(e, e.subs, sub.key, []);
      assert here.elements[|before| := started] == before + [started];
      ReadOne(here, SubHeader(SectionPrefix(x.section), x.plugin, sub.key), KeyLines(4, sub.value) + rest);
      assert SubLines(x, subs) == [SubHeader(SectionPrefix(x.section), x.plugin, sub.key)] + (KeyLines(4, sub.value) + rest);
      assert [] + sub.value == sub.value;
      ReadSubKeys(d, before, e, e.subs, sub.key, [], 4, sub.value);
      ReadConcat(Ending(d, before, started, InSub(|before|)), KeyLines(4, sub.value), rest);
      ReadSubs(d, before, LastSub(e, e.subs, sub.key, sub.value), x, subs[1..], InSub(|before|));
    }
  }

  lemma SubIsNew(scalars: TomlTable, subs: seq<Pair<TomlTable>>, more: seq<Pair<TomlTable>>)
    requires more != [] && WellKeyed(scalars, subs + more)
    ensures !Has(scalars, more[0].key) && !Has(subs, more[0].key) && Distinct(Keys(more[0].value))
    ensures subs + more == subs + [Pair(more[0].key, more[0].value)] + more[1..]
  {
    DistinctHead(subs, more);
    assert (subs + more)[|subs|] == more[0];
    assert Keys(subs + more)[|subs|] == more[0].key;
  }

  /** An instance is read back as one new element holding exactly its own keys. */
  lemma ReadInstance(d: Document, x: PluginInstance)
    requires x.section != Agent && WellKeyed(x.scalars, x.subtables)
    ensures Read(d, InstanceLines(x))
            == Some(Ending(d, d.elements, ElementOf(SectionPrefix(x.section), x),
                           CursorAfter(|d.elements|, x.subtables, InElement(|d.elements|))))
  {
    hide Read, KeyLines, SubLines, Provenance;
    var t, before := SectionPrefix(x.section), d.elements;
    var bare := Element(t, x.plugin, [], []);
    var keys, subs := KeyLines(2, x.scalars), SubLines(x, x.subtables);
    ReadProvenance(d, x, [ArrayHeader(t, x.plugin)] + (keys + (subs + [Blank])));
    assert InstanceLines(x) == Provenance(x) + ([ArrayHeader(t, x.plugin)] + (keys + (subs + [Blank])));
    ReadOne(d, ArrayHeader(t, x.plugin), keys + (subs + [Blank]));
    var started := Ending(d, before, bare, InElement(|before|));
    assert [] + x.scalars == x.scalars;
    ReadScalars(d, before, bare, 2, x.scalars);
    ReadConcat(started, keys, subs + [Blank]);
    var filled := bare.(scalars := x.scalars);
    assert [] + x.subtables == x.subtables;
    ReadSubs(d, before, filled, x, x.subtables, InElement(|before|));
    ReadConcat(Ending(d, before, filled, InElement(|before|)), subs, [Blank]);
    var end := Ending(d, before, filled.(subs := x.subtables), CursorAfter(|before|, x.subtables, InElement(|before|)));
    ReadBlank(end);
  }

  lemma ReadBlank(d: Document)
    ensures Read(d, [Blank]) == Some(d)
  {
    assert [Blank][1..] == [];
  }

  lemma ReadProvenance(d: Document, x: PluginInstance, rest: seq<Line>)
    ensures Read(d, Provenance(x) + rest) == Read(d, rest)
  {
    if x.sources == [] {
      assert Provenance(x) + rest == rest;
    } else {
      ReadOne(d, Provenance(x)[0], rest);
    }
  }

  lemma {:induction false} ReadInstances(d: Document, table: string, xs: seq<PluginInstance>) returns (end: Document)
    requires BucketReadable(table, xs)
    ensures Read(d, InstancesLines(xs)) == Some(end)
    ensures end == d.(elements := d.elements + ElementsOf(table, xs), cursor := end.cursor)
    decreases |xs|
  {
    hide ReadLine, InstanceLines, WellKeyed;
    if xs == [] {
      end := d;
      assert d.elements + [] == d.elements;
    } else {
      ReadInstance(d, xs[0]);
      var mid := Read(d, InstanceLines(xs[0])).value;
      end := ReadInstances(mid, table, xs[1..]);
      ReadConcat(d, InstanceLines(xs[0]), InstancesLines(xs[1..]));
      assert d.elements + [ElementOf(table, xs[0])] + ElementsOf(table, xs[1..]) == d.elements + ElementsOf(table, xs);
    }
  }

  lemma ReadSection(d: Document, title: string, table: string, xs: seq<PluginInstance>) returns (end: Document)
    requires BucketReadable(table, xs)
    ensures Read(d, SectionLines(title, xs)) == Some(end)
    ensures end == d.(elements := d.elements + ElementsOf(table, xs), cursor := end.cursor)
  {
    hide BucketReadable, InstancesLines;
    if xs == [] {
      end := d;
      assert d.elements + [] == d.elements;
    } else {
      end := ReadInstances(d, table, xs);
      ReadTitle(d, title, InstancesLines(xs));
    }
  }

  lemma ReadTitle(d: Document, title: string, rest: seq<Line>)
    ensures Read(d, [Comment(title), Blank] + rest) == Read(d, rest)
  {
    ReadOne(d, Comment(title), [Blank] + rest);
    ReadOne(d, Blank, rest);
    assert [Comment(title), Blank] + rest == [Comment(title)] + ([Blank] + rest);
  }

  lemma ReadAgent(d: Document, agent: TomlTable) returns (end: Document)
    requires d.agent == [] && !d.agentSeen && Distinct(Keys(agent))
    ensures Read(d, AgentLines(agent)) == Some(end)
    ensures end == d.(agent := agent, agentSeen := end.agentSeen, cursor := end.cursor)
  {
    if agent == [] {
      end := d;
    } else {
      var started := d.(agentSeen := true, cursor := InAgent);
      assert AgentLines(agent) == [AgentHeader] + (KeyLines(2, agent) + [Blank]);
      ReadOne(d, AgentHeader, KeyLines(2, agent) + [Blank]);
      assert [] + agent == agent;
      ReadAgentKeys(started, 2, agent);
      ReadConcat(started, KeyLines(2, agent), [Blank]);
      end := started.(agent := agent);
      ReadBlank(end);
    }
  }

  lemma ReadHeader(d: Document, version: string)
    ensures Read(d, Header(version)) == Some(d)
  {
    ReadComments(d, Header(version));
  }

  lemma {:induction false} ReadComments(d: Document, lines: seq<Line>)
    requires forall i | 0 <= i < |lines| :: lines[i].Comment? || lines[i].Blank?
    ensures Read(d, lines) == Some(d)
  {
    if lines != [] { ReadComments(d, lines[1..]); }
  }

  lemma {:induction false} ReadDropsBlanks(d: Document, lines: seq<Line>)
    ensures Read(d, DropTrailingBlanks(lines)) == Read(d, lines)
  {
    hide ReadLine;
    if |lines| >= 2 && lines[|lines| - 1] == Blank {
      var front := lines[..|lines| - 1];
      ReadDropsBlanks(d, front);
      ReadConcat(d, front, [Blank]);
      assert front + [Blank] == lines;
      if Read(d, front).Some? { ReadComments(Read(d, front).value, [Blank]); }
    }
  }

  lemma ReadThrough(d: Document, a: seq<Line>, b: seq<Line>, mid: Document)
    requires Read(d, a) == Some(mid)
    ensures Read(d, a + b) == Read(mid, b)
  {
    hide Read;
    ReadConcat(d, a, b);
  }

  ghost predicate BucketReadable(table: string, xs: seq<PluginInstance>) {
    forall i | 0 <= i < |xs| :: xs[i].section != Agent && SectionPrefix(xs[i].section) == table
                                && WellKeyed(xs[i].scalars, xs[i].subtables)
  }

  lemma SortedIsReadable(table: string, xs: seq<PluginInstance>)
    requires forall x | x in xs :: x.section != Agent && SectionPrefix(x.section) == table && WellKeyed(x.scalars, x.subtables)
    ensures BucketReadable(table, Sort(xs))
  {
    SortSorts(xs);
    forall i | 0 <= i < |Sort(xs)| ensures Sort(xs)[i] in xs {
      assert Sort(xs)[i] in multiset(xs);
    }
  }

  lemma ReadAllLines(c: Config, version: string) returns (d: Document)
    requires Distinct(Keys(c.agent)) && BucketReadable("inputs", Sort(c.inputs)) && BucketReadable("outputs", Sort(c.outputs))
    ensures Read(EMPTY, AllLines(c, version)) == Some(d)
    ensures d.top == [] && d.agent == c.agent
    ensures d.elements == ElementsOf("inputs", Sort(c.inputs)) + ElementsOf("outputs", Sort(c.outputs))
  {
    var ins, outs := Sort(c.inputs), Sort(c.outputs);
    hide Read, Header, AgentLines, SectionLines, Sort;
    ReadHeader(EMPTY, version);
    var d1 := ReadAgent(EMPTY, c.agent);
    ReadThrough(EMPTY, Header(version), AgentLines(c.agent), EMPTY);
    var d2 := ReadSection(d1, "Inputs", "inputs", ins);
    ReadThrough(EMPTY, Header(version) + AgentLines(c.agent), SectionLines("Inputs", ins), d1);
    d := ReadSection(d2, "Outputs", "outputs", outs);
    ReadThrough(EMPTY, Header(version) + AgentLines(c.agent) + SectionLines("Inputs", ins), SectionLines("Outputs", outs), d2);
    assert [] + ElementsOf("inputs", ins) == ElementsOf("inputs", ins);
  }

  /** A readable configuration is read back exactly, with every scalar in its own
      plugin and every sub-table entry in its own sub-table. */
  lemma ReadableReadsBack(c: Config, version: string)
    requires Readable(c)
    ensures ReadsBackAs(Read(EMPTY, Rendered(c, version)), c)
  {
    hide Read, AllLines, DropTrailingBlanks, WellKeyed, ReadsBackAs;
    ReadsBackSorted(Read(EMPTY, Rendered(c, version)), c);
    SortedIsReadable("inputs", c.inputs);
    SortedIsReadable("outputs", c.outputs);
    var d := ReadAllLines(c, version);
    ReadDropsBlanks(EMPTY, AllLines(c, version));
  }

  // ---- What any reading satisfies ------------------------------------------------------------------------

  /** Whatever is read has its keys in order, and its elements come from the headers. */
  ghost predicate Proper(d: Document) {
    && Distinct(Keys(d.agent))
    && (forall i | 0 <= i < |d.elements| :: WellKeyed(d.elements[i].scalars, d.elements[i].subs))
  }

  function Tables(es: seq<Element>): seq<string> {
    seq(|es|, i requires 0 <= i < |es| => es[i].table)
  }

  function HeaderTables(lines: seq<Line>): seq<string> {
    if lines == [] then []
    else (if lines[0].ArrayHeader? then [lines[0].table] else []) + HeaderTables(lines[1..])
  }

  lemma AddedKeyIsDistinct<V>(es: seq<Pair<V>>, key: string, value: V)
    requires Distinct(Keys(es)) && !Has(es, key)
    ensures Distinct(Keys(es + [Pair(key, value)]))
    ensures forall k :: k in Keys(es + [Pair(key, value)]) <==> k in Keys(es) || k == key
  {
    assert Keys(es + [Pair(key, value)]) == Keys(es) + [key];
  }

  lemma AddKeyKeepsProper(d: Document, key: string, value: TomlValue)
    requires Proper(d) && AddKey(d, key, value).Some?
    ensures Proper(AddKey(d, key, value).value)
    ensures Tables(AddKey(d, key, value).value.elements) == Tables(d.elements)
  {
    match d.cursor
    case AtTop =>
    case InAgent => AddedKeyIsDistinct(d.agent, key, value);
    case InElement(i) => AddedKeyIsDistinct(d.elements[i].scalars, key, value);
    case InSub(i) =>
      var e := d.elements[i];
      var k := |e.subs| - 1;
      AddedKeyIsDistinct(e.subs[k].value, key, value);
      var subs := e.subs[k := Pair(e.subs[k].key, e.subs[k].value + [Pair(key, value)])];
      assert Keys(subs) == Keys(e.subs);
  }

  lemma ReadLineKeepsProper(d: Document, line: Line)
    requires Proper(d) && ReadLine(d, line).Some?
    ensures Proper(ReadLine(d, line).value)
    ensures Tables(ReadLine(d, line).value.elements)
            == Tables(d.elements) + (if line.ArrayHeader? then [line.table] else [])
  {
    match line
    case KeyLine(_, k, v) => AddKeyKeepsProper(d, k, v);
    case SubHeader(t, p, n) =>
      var e := d.elements[LastElement(d.elements, t, p).value];
      AddedKeyIsDistinct(e.subs, n, []);
    case _ =>
  }

  lemma {:induction false} ReadKeepsProper(d: Document, lines: seq<Line>)
    requires Proper(d) && Read(d, lines).Some?
    ensures Proper(Read(d, lines).value)
    ensures Tables(Read(d, lines).value.elements) == Tables(d.elements) + HeaderTables(lines)
    decreases |lines|
  {
    hide ReadLine, Proper, Tables;
    if lines != [] {
      var next := ReadLine(d, lines[0]).value;
      ReadLineKeepsProper(d, lines[0]);
      ReadKeepsProper(next, lines[1..]);
      var own := if lines[0].ArrayHeader? then [lines[0].table] else [];
      assert Tables(d.elements) + own + HeaderTables(lines[1..]) == Tables(d.elements) + (own + HeaderTables(lines[1..]));
    } else {
      assert Tables(d.elements) + [] == Tables(d.elements);
    }
  }

  // ---- Exactly when the rendering reads back ----------------------------------------------------------------

  lemma {:induction false} HeaderTablesConcat(a: seq<Line>, b: seq<Line>)
    ensures HeaderTables(a + b) == HeaderTables(a) + HeaderTables(b)
  {
    if a == [] {
      assert a + b == b;
    } else {
      HeaderTablesConcat(a[1..], b);
      assert (a + b)[1..] == a[1..] + b;
    }
  }

  lemma {:induction false} KeyLinesHaveNoHeader(indent: nat, es: TomlTable)
    ensures HeaderTables(KeyLines(indent, es)) == []
  {
    if es != [] {
      KeyLinesHaveNoHeader(indent, es[1..]);
      assert KeyLines(indent, es)[1..] == KeyLines(indent, es[1..]);
    }
  }

  lemma {:induction false} SubLinesHaveNoHeader(x: PluginInstance, subs: seq<Pair<TomlTable>>)
    ensures HeaderTables(SubLines(x, subs)) == []
  {
    if subs != [] {
      SubLinesHaveNoHeader(x, subs[1..]);
      KeyLinesHaveNoHeader(4, subs[0].value);
      var first := [SubHeader(SectionPrefix(x.section), x.plugin, subs[0].key)];
      HeaderTablesConcat(first, KeyLines(4, subs[0].value));
      HeaderTablesConcat(first + KeyLines(4, subs[0].value), SubLines(x, subs[1..]));
    }
  }

  lemma InstanceHasOneHeader(x: PluginInstance)
    ensures HeaderTables(InstanceLines(x)) == [Prefix(x.section)]
  {
    KeyLinesHaveNoHeader(2, x.scalars);
    SubLinesHaveNoHeader(x, x.subtables);
    var a := Provenance(x);
    var b := a + [ArrayHeader(Prefix(x.section), x.plugin)];
    HeaderTablesConcat(a, [ArrayHeader(Prefix(x.section), x.plugin)]);
    HeaderTablesConcat(b, KeyLines(2, x.scalars));
    HeaderTablesConcat(b + KeyLines(2, x.scalars), SubLines(x, x.subtables));
    HeaderTablesConcat(b + KeyLines(2, x.scalars) + SubLines(x, x.subtables), [Blank]);
  }

  function Prefixes(xs: seq<PluginInstance>): seq<string> {
    if xs == [] then [] else [Prefix(xs[0].section)] + Prefixes(xs[1..])
  }

  lemma {:induction false} InstancesHeaders(xs: seq<PluginInstance>)
    ensures HeaderTables(InstancesLines(xs)) == Prefixes(xs)
  {
    if xs != [] {
      InstanceHasOneHeader(xs[0]);
      InstancesHeaders(xs[1..]);
      HeaderTablesConcat(InstanceLines(xs[0]), InstancesLines(xs[1..]));
    }
  }

  lemma SectionHeaders(title: string, xs: seq<PluginInstance>)
    ensures HeaderTables(SectionLines(title, xs)) == Prefixes(xs)
  {
    if xs != [] {
      InstancesHeaders(xs);
      HeaderTablesConcat([Comment(title), Blank], InstancesLines(xs));
    }
  }

  lemma AllHeaders(c: Config, version: string)
    ensures HeaderTables(AllLines(c, version)) == Prefixes(Sort(c.inputs)) + Prefixes(Sort(c.outputs))
  {
    var h, a := Header(version), AgentLines(c.agent);
    var i, o := SectionLines("Inputs", Sort(c.inputs)), SectionLines("Outputs", Sort(c.outputs));
    hide HeaderTables, Sort, SectionLines, AgentLines, Prefixes;
    CommentsHaveNoHeader(h);
    AgentHasNoHeader(c.agent);
    SectionHeaders("Inputs", Sort(c.inputs));
    SectionHeaders("Outputs", Sort(c.outputs));
    HeaderTablesConcat(h, a);
    HeaderTablesConcat(h + a, i);
    HeaderTablesConcat(h + a + i, o);
  }

  lemma {:induction false} CommentsHaveNoHeader(lines: seq<Line>)
    requires forall i | 0 <= i < |lines| :: lines[i].Comment? || lines[i].Blank?
    ensures HeaderTables(lines) == []
  {
    if lines != [] { CommentsHaveNoHeader(lines[1..]); }
  }

  lemma AgentHasNoHeader(agent: TomlTable)
    ensures HeaderTables(AgentLines(agent)) == []
  {
    if agent != [] {
      KeyLinesHaveNoHeader(2, agent);
      HeaderTablesConcat([AgentHeader], KeyLines(2, agent));
      HeaderTablesConcat([AgentHeader] + KeyLines(2, agent), [Blank]);
    }
  }

  lemma {:induction false} ElementsAt(table: string, xs: seq<PluginInstance>)
    ensures |ElementsOf(table, xs)| == |xs| == |Prefixes(xs)|
    ensures forall i | 0 <= i < |xs| :: ElementsOf(table, xs)[i] == ElementOf(table, xs[i]) && Prefixes(xs)[i] == Prefix(xs[i].section)
  {
    if xs != [] { ElementsAt(table, xs[1..]); }
  }

  lemma ReadTables(c: Config, version: string, d: Document)
    requires Read(EMPTY, Rendered(c, version)) == Some(d)
    ensures Proper(d) && Tables(d.elements) == Prefixes(Sort(c.inputs)) + Prefixes(Sort(c.outputs))
  {
    hide Read, AllLines, HeaderTables, DropTrailingBlanks, Sort, Prefixes;
    ReadDropsBlanks(EMPTY, AllLines(c, version));
    ReadKeepsProper(EMPTY, AllLines(c, version));
    AllHeaders(c, version);
    assert Tables(EMPTY.elements) == [];
  }

  /** An element that carries an instance under the header the instance was given. */
  lemma ElementWasReadable(d: Document, at: nat, table: string, x: PluginInstance)
    requires Proper(d) && at < |d.elements| && table != "agent"
    requires d.elements[at] == ElementOf(table, x) && Tables(d.elements)[at] == Prefix(x.section)
    ensures Prefix(x.section) == table && WellKeyed(x.scalars, x.subtables)
  {
    hide WellKeyed;
  }

  lemma InputWasReadable(d: Document, ins: seq<PluginInstance>, outs: seq<PluginInstance>, i: nat)
    requires Proper(d) && i < |ins|
    requires d.elements == ElementsOf("inputs", ins) + ElementsOf("outputs", outs)
    requires Tables(d.elements) == Prefixes(ins) + Prefixes(outs)
    ensures ins[i].section == Input && WellKeyed(ins[i].scalars, ins[i].subtables)
  {
    ElementsAt("inputs", ins);
    hide WellKeyed, Proper, Tables, Prefixes, ElementsOf;
    ElementWasReadable(d, i, "inputs", ins[i]);
  }

  lemma OutputWasReadable(d: Document, ins: seq<PluginInstance>, outs: seq<PluginInstance>, i: nat)
    requires Proper(d) && i < |outs|
    requires d.elements == ElementsOf("inputs", ins) + ElementsOf("outputs", outs)
    requires Tables(d.elements) == Prefixes(ins) + Prefixes(outs)
    ensures outs[i].section == Output && WellKeyed(outs[i].scalars, outs[i].subtables)
  {
    ElementsAt("inputs", ins);
    ElementsAt("outputs", outs);
    hide WellKeyed, Proper, Tables, Prefixes, ElementsOf;
    ElementWasReadable(d, |ins| + i, "outputs", outs[i]);
  }

  /** What has been read back tells that the configuration was readable. */
  lemma ReadBackWasReadable(c: Config, version: string)
    requires ReadsBackAs(Read(EMPTY, Rendered(c, version)), c)
    ensures Readable(c)
  {
    ReadsBackSorted(Read(EMPTY, Rendered(c, version)), c);
    hide ReadsBackAs, InOrder;
    var d := Read(EMPTY, Rendered(c, version)).value;
    var ins, outs := Sort(c.inputs), Sort(c.outputs);
    ReadTables(c, version, d);
    BackToBucket(c.inputs);
    BackToBucket(c.outputs);
    hide Read, Rendered, Prefixes, ElementsOf, WellKeyed, Tables, Sort;
    forall x | x in c.inputs ensures x.section == Input && WellKeyed(x.scalars, x.subtables) {
      var i :| 0 <= i < |ins| && ins[i] == x;
      InputWasReadable(d, ins, outs, i);
    }
    forall x | x in c.outputs ensures x.section == Output && WellKeyed(x.scalars, x.subtables) {
      var i :| 0 <= i < |outs| && outs[i] == x;
      OutputWasReadable(d, ins, outs, i);
    }
    assert Proper(d) && d.agent == c.agent;
  }

  lemma BackToBucket(xs: seq<PluginInstance>)
    ensures forall x | x in xs :: exists i | 0 <= i < |Sort(xs)| :: Sort(xs)[i] == x
  {
    SortSorts(xs);
    forall x | x in xs ensures exists i | 0 <= i < |Sort(xs)| :: Sort(xs)[i] == x {
      assert x in multiset(Sort(xs));
      assert x in Sort(xs);
    }
  }

  /** The rendering reads back as the configuration exactly when TOML can hold its
      keys and every instance stands in the section of its bucket. */
  lemma ReadsBackExactlyWhenReadable(c: Config, version: string)
    ensures ReadsBackAs(Read(EMPTY, Rendered(c, version)), c) <==> Readable(c)
  {
    hide Readable, ReadsBackAs, Read, Rendered;
    if Readable(c) { ReadableReadsBack(c, version); }
    if ReadsBackAs(Read(EMPTY, Rendered(c, version)), c) { ReadBackWasReadable(c, version); }
  }

  /** An instance as it was started, and the builder calls made on it. */
  datatype Plan = Plan(bare: PluginInstance, calls: seq<Call>)

  function BuiltAll(plans: seq<Plan>): (xs: seq<PluginInstance>)
    ensures |xs| == |plans|
  {
    seq(|plans|, i requires 0 <= i < |plans| => Built(plans[i].bare, plans[i].calls))
  }

  /** The scalars a plan gives, and the sub-tables it gives, each by themselves. */
  function Apart(plan: Plan): PluginInstance {
    plan.bare.(scalars := ScalarsOf(plan.calls), subtables := SubtablesOf(plan.calls))
  }

  function ApartAll(plans: seq<Plan>): (xs: seq<PluginInstance>)
    ensures |xs| == |plans|
  {
    seq(|plans|, i requires 0 <= i < |plans| => Apart(plans[i]))
  }

  predicate PlansFit(plans: seq<Plan>, section: Section) {
    forall i | 0 <= i < |plans| ::
      && plans[i].bare.section == section && plans[i].bare.scalars == [] && plans[i].bare.subtables == []
      && WellKeyed(ScalarsOf(plans[i].calls), SubtablesOf(plans[i].calls))
  }

  lemma PlansAreBuilt(plans: seq<Plan>, section: Section)
    requires PlansFit(plans, section)
    ensures BuiltAll(plans) == ApartAll(plans)
    ensures forall x | x in ApartAll(plans) :: x.section == section && WellKeyed(x.scalars, x.subtables)
  {
    hide WellKeyed, Built, ScalarsOf, SubtablesOf;
    forall i | 0 <= i < |plans| ensures BuiltAll(plans)[i] == ApartAll(plans)[i] {
      BuiltApart(plans[i].bare, plans[i].calls);
    }
  }

  /** No key ever strays into another table: whatever order the builder calls came in, the
      agent options are read back, and every input and output with the scalars it was given
      and each sub-table with its own entries. */
  lemma BuiltInAnyOrderReadsBack(agent: TomlTable, ins: seq<Plan>, outs: seq<Plan>, version: string)
    requires Distinct(Keys(agent)) && PlansFit(ins, Input) && PlansFit(outs, Output)
    ensures ReadsBackAs(Read(EMPTY, Rendered(Config(agent, BuiltAll(ins), BuiltAll(outs)), version)),
                        Config(agent, ApartAll(ins), ApartAll(outs)))
  {
    hide Read, Rendered, WellKeyed, PlansFit, ReadsBackAs, BuiltAll, ApartAll;
    PlansAreBuilt(ins, Input);
    PlansAreBuilt(outs, Output);
    ReadableReadsBack(Config(agent, ApartAll(ins), ApartAll(outs)), version);
  }

  // ---- What is said to a reader ----------------------------------------------------------------------

  function CommentsIn(lines: seq<Line>): seq<string> {
    if lines == [] then []
    else (if lines[0].Comment? then [lines[0].text] else []) + CommentsIn(lines[1..])
  }

  lemma {:induction false} CommentsConcat(a: seq<Line>, b: seq<Line>)
    ensures CommentsIn(a + b) == CommentsIn(a) + CommentsIn(b)
  {
    if a == [] {
      assert a + b == b;
    } else {
      CommentsConcat(a[1..], b);
      FirstComment(a, b);
    }
  }

  lemma FirstComment(a: seq<Line>, b: seq<Line>)
    requires a != []
    ensures var first := if a[0].Comment? then [a[0].text] else [];
            CommentsIn(a + b) == first + CommentsIn(a[1..] + b) && CommentsIn(a) == first + CommentsIn(a[1..])
  {
    assert (a + b)[1..] == a[1..] + b;
  }

  lemma {:induction false} KeysSayNothing(indent: nat, es: TomlTable)
    ensures CommentsIn(KeyLines(indent, es)) == []
  {
    if es != [] { KeysSayNothing(indent, es[1..]); }
  }

  lemma {:induction false} SubsSayNothing(x: PluginInstance, subs: seq<Pair<TomlTable>>)
    ensures CommentsIn(SubLines(x, subs)) == []
  {
    hide KeyLines;
    if subs != [] {
      var header := [SubHeader(SectionPrefix(x.section), x.plugin, subs[0].key)];
      KeysSayNothing(4, subs[0].value);
      SubsSayNothing(x, subs[1..]);
      CommentsConcat(header + KeyLines(4, subs[0].value), SubLines(x, subs[1..]));
      CommentsConcat(header, KeyLines(4, subs[0].value));
    }
  }

  lemma InstanceSays(x: PluginInstance)
    ensures CommentsIn(InstanceLines(x)) == CommentsIn(Provenance(x))
  {
    hide KeyLines, SubLines, Provenance;
    var a, header := Provenance(x), [ArrayHeader(Prefix(x.section), x.plugin)];
    var keys, subs := KeyLines(2, x.scalars), SubLines(x, x.subtables);
    KeysSayNothing(2, x.scalars);
    SubsSayNothing(x, x.subtables);
    CommentsConcat(a + header + keys + subs, [Blank]);
    CommentsConcat(a + header + keys, subs);
    CommentsConcat(a + header, keys);
    CommentsConcat(a, header);
  }

  /** The sources of each instance, in order. */
  function SourcesOf(xs: seq<PluginInstance>): seq<string> {
    if xs == [] then [] else CommentsIn(Provenance(xs[0])) + SourcesOf(xs[1..])
  }

  lemma {:induction false} InstancesSay(xs: seq<PluginInstance>)
    ensures CommentsIn(InstancesLines(xs)) == SourcesOf(xs)
  {
    hide InstanceLines, Provenance;
    if xs != [] {
      InstanceSays(xs[0]);
      InstancesSay(xs[1..]);
      CommentsConcat(InstanceLines(xs[0]), InstancesLines(xs[1..]));
    }
  }

  lemma SectionSays(title: string, xs: seq<PluginInstance>)
    ensures CommentsIn(SectionLines(title, xs)) == if xs == [] then [] else [title] + SourcesOf(xs)
  {
    hide InstancesLines;
    InstancesSay(xs);
    CommentsConcat([Comment(title), Blank], InstancesLines(xs));
    assert CommentsIn([Comment(title), Blank]) == [title] by { assert [Comment(title), Blank][1..] == [Blank]; }
  }

  lemma AgentSaysNothing(agent: TomlTable)
    ensures CommentsIn(AgentLines(agent)) == []
  {
    hide KeyLines;
    KeysSayNothing(2, agent);
    CommentsConcat([AgentHeader] + KeyLines(2, agent), [Blank]);
    CommentsConcat([AgentHeader], KeyLines(2, agent));
  }

  lemma {:induction false} BlanksSayNothing(lines: seq<Line>)
    ensures CommentsIn(DropTrailingBlanks(lines)) == CommentsIn(lines)
  {
    if |lines| >= 2 && lines[|lines| - 1] == Blank {
      BlanksSayNothing(lines[..|lines| - 1]);
      CommentsConcat(lines[..|lines| - 1], [Blank]);
      assert lines == lines[..|lines| - 1] + [Blank];
    }
  }

  lemma FourPartsSay(a: seq<Line>, b: seq<Line>, c: seq<Line>, d: seq<Line>)
    ensures CommentsIn(a + b + c + d) == CommentsIn(a) + CommentsIn(b) + CommentsIn(c) + CommentsIn(d)
  {
    hide CommentsIn;
    CommentsConcat(a + b + c, d);
    CommentsConcat(a + b, c);
    CommentsConcat(a, b);
  }

  /** A title, and the sources of the instances. */
  function Said(title: string, xs: seq<PluginInstance>): seq<string> {
    if xs == [] then [] else [title] + SourcesOf(xs)
  }

  lemma AllLinesSay(c: Config, version: string)
    ensures CommentsIn(AllLines(c, version)) ==
            CommentsIn(Header(version)) + Said("Inputs", Sort(c.inputs)) + Said("Outputs", Sort(c.outputs))
  {
    hide Sort, AgentLines, SectionLines, SourcesOf, CommentsIn, Header;
    FourPartsSay(Header(version), AgentLines(c.agent), SectionLines("Inputs", Sort(c.inputs)), SectionLines("Outputs", Sort(c.outputs)));
    AgentSaysNothing(c.agent);
    SectionSays("Inputs", Sort(c.inputs));
    SectionSays("Outputs", Sort(c.outputs));
  }

  /** The comments of a rendering: its header with the version, and for each section that is not
      empty a title and the sources of its instances, in rank order. */
  lemma CommentsTellTheSources(c: Config, version: string, ins: seq<PluginInstance>, outs: seq<PluginInstance>)
    requires InOrder(c.inputs, ins) && InOrder(c.outputs, outs)
    ensures CommentsIn(Rendered(c, version)) == CommentsIn(Header(version)) + Said("Inputs", ins) + Said("Outputs", outs)
    ensures CommentsIn(Header(version)) != [] && CommentsIn(Header(version))[0] == "Generated by muninn " + version + " - do not edit."
  {
    HeaderNamesTheVersion(version);
    hide InOrder, Sort, Said, AllLines, DropTrailingBlanks, CommentsIn, Header;
    SortIsTheOrder(c.inputs, ins);
    SortIsTheOrder(c.outputs, outs);
    BlanksSayNothing(AllLines(c, version));
    AllLinesSay(c, version);
  }

  lemma HeaderNamesTheVersion(version: string)
    ensures CommentsIn(Header(version)) != [] && CommentsIn(Header(version))[0] == "Generated by muninn " + version + " - do not edit."
  {
  }
}
