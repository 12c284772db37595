/** The page state `script.js` drives: the nodes and edges held by the graph
    view, the style written on each node, and the colour and size attribute
    dropdowns; with `updateNodeStyle` (lines 88-141),
    `extractAndPopulateAttributes` (lines 147-173), the start-up (lines
    5-22, 176-177) and the two load handlers (lines 224-319 and 328-412). */
module Viewer {
  import opened JsValues
  import Attributes
  import Styling
  import Ingest

  // ---------------------------------------------------------------------
  // A single-choice <select>

  /** An HTML `<select>` with display size 1: its option values and the
      index of the selected option, -1 when it has none. */
  class Dropdown {
    var options: seq<string>
    var selected: int

    /** A non-empty select always has exactly one selected option. */
    ghost predicate Valid()
      reads this
    {
      -1 <= selected < |options| && (selected == -1 <==> options == [])
    }

    /** `select.value`: the selected option's value, "" when none is. */
    function Value(): (v: string)
      reads this
      ensures Valid() && options != [] ==> v == options[selected]
      ensures Valid() && options == [] ==> v == ""
    {
      if 0 <= selected < |options| then options[selected] else ""
    }

    /** A select built from the page markup: the first option is selected. */
    constructor (initial: seq<string>)
      ensures Valid()
      ensures options == initial
      ensures selected == if initial == [] then -1 else 0
    {
      options := initial;
      selected := if initial == [] then -1 else 0;
    }

    /** `select.remove(index)`. An index out of range does nothing. Removing
        the selected option selects the first remaining one; removing an
        option before the selected one keeps the same option selected. */
    method Remove(index: int)
      requires Valid()
      modifies this
      ensures Valid()
      ensures !(0 <= index < old(|options|)) ==> options == old(options) && selected == old(selected)
      ensures 0 <= index < old(|options|) ==>
                options == old(options[..index] + options[index + 1..])
                && selected == (if old(selected) == index then (if options == [] then -1 else 0)
                                else if old(selected) > index then old(selected) - 1
                                else old(selected))
    {
      if 0 <= index < |options| {
        options := options[..index] + options[index + 1..];
        if selected == index {
          selected := if options == [] then -1 else 0;
        } else if selected > index {
          selected := selected - 1;
        }
      }
    }

    /** `select.add(option)` with a new, unselected option: it is appended,
        and becomes the selection only when the select had no option. */
    method Add(value: string)
      requires Valid()
      modifies this
      ensures Valid()
      ensures options == old(options) + [value]
      ensures selected == if old(selected) == -1 then |options| - 1 else old(selected)
    {
      options := options + [value];
      if selected == -1 {
        selected := |options| - 1;
      }
    }
  }

  /** `while (select.options.length > 1) select.remove(1);`: only the first
      option is kept, and it is the selected one. */
  method KeepFirstOption(select: Dropdown)
    requires select.Valid()
    modifies select
    ensures select.Valid()
    ensures select.options == old(select.options)[..if old(select.options) == [] then 0 else 1]
    ensures select.selected == if select.options == [] then -1 else 0
  {
    while |select.options| > 1
      invariant select.Valid()
      invariant old(select.options) == [] ==> select.options == []
      invariant old(select.options) != [] ==>
                  select.options != [] && select.options[0] == old(select.options)[0]
      decreases |select.options|
    {
      select.Remove(1);
    }
  }

  // ---------------------------------------------------------------------
  // The graph as it is loaded into the view

  /** The data of the node elements, in element order. */
  function NodesOf(els: seq<Ingest.Element>): seq<JsObject> {
    if els == [] then []
    else NodesOf(els[..|els| - 1]) + (if els[|els| - 1].NodeElement? then [els[|els| - 1].data] else [])
  }

  /** The styles carried by the node elements, in element order. */
  function StylesOf(els: seq<Ingest.Element>): seq<Styling.Style> {
    if els == [] then []
    else StylesOf(els[..|els| - 1]) + (if els[|els| - 1].NodeElement? then [els[|els| - 1].style] else [])
  }

  /** The data of the edge elements, in element order. */
  function EdgesOf(els: seq<Ingest.Element>): seq<JsObject> {
    if els == [] then []
    else EdgesOf(els[..|els| - 1]) + (if els[|els| - 1].EdgeElement? then [els[|els| - 1].data] else [])
  }

  lemma {:induction false} NodesOfLength(els: seq<Ingest.Element>)
    ensures |NodesOf(els)| == |StylesOf(els)|
    decreases |els|
  {
    if els != [] {
      NodesOfLength(els[..|els| - 1]);
    }
  }

  lemma {:induction false} NodesOfAppend(a: seq<Ingest.Element>, b: seq<Ingest.Element>)
    ensures NodesOf(a + b) == NodesOf(a) + NodesOf(b)
    decreases |b|
  {
    if b == [] {
      assert a + b == a;
    } else {
      NodesOfAppend(a, b[..|b| - 1]);
      assert (a + b)[..|a + b| - 1] == a + b[..|b| - 1];
    }
  }

  lemma {:induction false} EdgesOfAppend(a: seq<Ingest.Element>, b: seq<Ingest.Element>)
    ensures EdgesOf(a + b) == EdgesOf(a) + EdgesOf(b)
    decreases |b|
  {
    if b == [] {
      assert a + b == a;
    } else {
      EdgesOfAppend(a, b[..|b| - 1]);
      assert (a + b)[..|a + b| - 1] == a + b[..|b| - 1];
    }
  }

  /** The data of the parsed nodes, in node order. */
  function NodeDatas(ns: seq<Ingest.ParsedNode>): (r: seq<JsObject>)
    ensures |r| == |ns|
  {
    if ns == [] then [] else NodeDatas(ns[..|ns| - 1]) + [Ingest.NodeData(ns[|ns| - 1])]
  }

  /** The data of the parsed edges, in edge order. */
  function EdgeDatas(es: seq<Ingest.ParsedEdge>): (r: seq<JsObject>)
    ensures |r| == |es|
  {
    if es == [] then [] else EdgeDatas(es[..|es| - 1]) + [Ingest.EdgeData(es[|es| - 1])]
  }

  lemma {:induction false} NodeDatasAt(ns: seq<Ingest.ParsedNode>)
    ensures forall i :: 0 <= i < |ns| ==> NodeDatas(ns)[i] == Ingest.NodeData(ns[i])
    decreases |ns|
  {
    if ns != [] {
      NodeDatasAt(ns[..|ns| - 1]);
    }
  }

  lemma {:induction false} EdgeDatasAt(es: seq<Ingest.ParsedEdge>)
    ensures forall j :: 0 <= j < |es| ==> EdgeDatas(es)[j] == Ingest.EdgeData(es[j])
    decreases |es|
  {
    if es != [] {
      EdgeDatasAt(es[..|es| - 1]);
    }
  }

  lemma {:induction false} NodesOfNodeElements(ns: seq<Ingest.ParsedNode>)
    ensures NodesOf(Ingest.NodeElements(ns)) == NodeDatas(ns)
    ensures EdgesOf(Ingest.NodeElements(ns)) == []
    decreases |ns|
  {
    if ns != [] {
      var init := ns[..|ns| - 1];
      var last := [Ingest.NodeElementOf(ns[|ns| - 1])];
      NodesOfNodeElements(init);
      NodesOfAppend(Ingest.NodeElements(init), last);
      EdgesOfAppend(Ingest.NodeElements(init), last);
      assert last[..0] == [];
    }
  }

  lemma {:induction false} EdgesOfEdgeElements(es: seq<Ingest.ParsedEdge>)
    ensures EdgesOf(Ingest.EdgeElements(es)) == EdgeDatas(es)
    ensures NodesOf(Ingest.EdgeElements(es)) == []
    decreases |es|
  {
    if es != [] {
      var init := es[..|es| - 1];
      var last := [Ingest.EdgeElementOf(es[|es| - 1])];
      EdgesOfEdgeElements(init);
      NodesOfAppend(Ingest.EdgeElements(init), last);
      EdgesOfAppend(Ingest.EdgeElements(init), last);
      assert last[..0] == [];
    }
  }

  /** After a load the view holds the data of every parsed node, in node
      order, and of every parsed edge, in edge order. */
  lemma LoadedData(g: Ingest.ParsedGraph)
    ensures var els := Ingest.NodeElements(g.nodes) + Ingest.EdgeElements(g.edges);
            NodesOf(els) == NodeDatas(g.nodes) && EdgesOf(els) == EdgeDatas(g.edges)
  {
    NodesOfAppend(Ingest.NodeElements(g.nodes), Ingest.EdgeElements(g.edges));
    EdgesOfAppend(Ingest.NodeElements(g.nodes), Ingest.EdgeElements(g.edges));
    NodesOfNodeElements(g.nodes);
    EdgesOfEdgeElements(g.edges);
  }

  // ---------------------------------------------------------------------
  // The data the page starts with (lines 7-21)

  function DefaultNode(id: string, caption: string, category: string, score: real): JsObject {
    Obj(["id", "label", "category", "score"],
        map["id" := JStr(id), "label" := JStr(caption), "category" := JStr(category), "score" := JNum(score)])
  }

  function DefaultNodes(): seq<JsObject> {
    [DefaultNode("a", "Node A", "A", 10.0), DefaultNode("b", "Node B", "A", 20.0),
     DefaultNode("c", "Node C", "B", 30.0), DefaultNode("d", "Node D", "B", 40.0),
     DefaultNode("e", "Node E", "C", 50.0), DefaultNode("f", "Node F", "C", 60.0),
     DefaultNode("g", "Node G", "C", 70.0)]
  }

  function DefaultEdge(source: string, target: string): JsObject {
    Obj(["source", "target"], map["source" := JStr(source), "target" := JStr(target)])
  }

  function DefaultEdges(): seq<JsObject> {
    [DefaultEdge("a", "b"), DefaultEdge("a", "c"), DefaultEdge("a", "d"),
     DefaultEdge("b", "e"), DefaultEdge("b", "f"), DefaultEdge("c", "g")]
  }

  /** The stylesheet's node style (lines 25-38) before any update. */
  function SheetStyle(d: JsObject): Styling.Style {
    Styling.Style(Styling.BaseGray, Styling.DefaultSize, Styling.DefaultSize, Lookup(d, "label"),
                  Styling.BaseGray, Styling.FontSize)
  }

  /** The styles `updateNodeStyle` writes for the nodes `ds`. */
  function StylesFor(ds: seq<JsObject>, colorAttr: string, sizeAttr: string): (r: seq<Styling.Style>)
    ensures |r| == |ds|
    ensures forall i :: 0 <= i < |ds| ==> r[i] == Styling.StyleFor(ds, ds[i], colorAttr, sizeAttr)
  {
    seq(|ds|, i requires 0 <= i < |ds| => Styling.StyleFor(ds, ds[i], colorAttr, sizeAttr))
  }

  // ---------------------------------------------------------------------
  // The view

  /** Outcome of a load handler. */
  datatype Outcome = Loaded | LoadFailed | ParseFailed | NoFile | Unsupported

  class GraphView {
    /** The data of the nodes, in the order `cy.nodes()` visits them. */
    var nodes: seq<JsObject>
    /** The style written on each node, index by index. */
    var styles: seq<Styling.Style>
    /** The data of the edges. */
    var edges: seq<JsObject>
    const colorSelect: Dropdown
    const sizeSelect: Dropdown

    ghost predicate Valid()
      reads this, colorSelect, sizeSelect
    {
      |styles| == |nodes| && colorSelect != sizeSelect && colorSelect.Valid() && sizeSelect.Valid()
    }

    /** Start-up: the seven default nodes and six edges, then the dropdowns
        are filled and the styles computed (lines 176-177). The dropdowns'
        initial options come from the page markup. */
    constructor (colorOptions: seq<string>, sizeOptions: seq<string>)
      ensures Valid()
      ensures nodes == DefaultNodes() && edges == DefaultEdges()
      ensures colorSelect.options == colorOptions[..if colorOptions == [] then 0 else 1]
                                     + Attributes.DiscoveredKeys(DefaultNodes())
      ensures sizeSelect.options == sizeOptions[..if sizeOptions == [] then 0 else 1]
                                    + Attributes.DiscoveredKeys(DefaultNodes())
      ensures colorSelect.selected == (if colorSelect.options == [] then -1 else 0)
      ensures sizeSelect.selected == (if sizeSelect.options == [] then -1 else 0)
      ensures styles == StylesFor(nodes, colorSelect.Value(), sizeSelect.Value())
    {
      nodes := DefaultNodes();
      edges := DefaultEdges();
      styles := seq(7, i requires 0 <= i < 7 => SheetStyle(DefaultNodes()[i]));
      colorSelect := new Dropdown(colorOptions);
      sizeSelect := new Dropdown(sizeOptions);
      new;
      ExtractAndPopulateAttributes();
      UpdateNodeStyle();
    }

    /** `updateNodeStyle`: every node's style is recomputed from the node
        data and the two selected attributes alone; nothing else changes. */
    method UpdateNodeStyle()
      requires Valid()
      modifies this
      ensures Valid()
      ensures nodes == old(nodes) && edges == old(edges)
      ensures styles == StylesFor(nodes, colorSelect.Value(), sizeSelect.Value())
    {
      var colorAttr := colorSelect.Value();
      var sizeAttr := sizeSelect.Value();
      for i := 0 to |nodes|
        invariant Valid()
        invariant nodes == old(nodes) && edges == old(edges)
        invariant forall j :: 0 <= j < i ==> styles[j] == Styling.StyleFor(nodes, nodes[j], colorAttr, sizeAttr)
      {
        var style := Styling.ComputeStyle(nodes, nodes[i], colorAttr, sizeAttr);
        styles := styles[i := style];
      }
    }

    /** `extractAndPopulateAttributes`: each dropdown keeps its first option
        and then lists the discovered keys; the first option ends up
        selected (when a dropdown had none, the first key is). */
    method ExtractAndPopulateAttributes()
      requires Valid()
      modifies colorSelect, sizeSelect
      ensures Valid()
      ensures colorSelect.options == old(colorSelect.options)[..if old(colorSelect.options) == [] then 0 else 1]
                                     + Attributes.DiscoveredKeys(nodes)
      ensures sizeSelect.options == old(sizeSelect.options)[..if old(sizeSelect.options) == [] then 0 else 1]
                                    + Attributes.DiscoveredKeys(nodes)
      ensures colorSelect.selected == (if colorSelect.options == [] then -1 else 0)
      ensures sizeSelect.selected == (if sizeSelect.options == [] then -1 else 0)
    {
      var keys := Attributes.CollectAttributeKeys(nodes);
      KeepFirstOption(colorSelect);
      KeepFirstOption(sizeSelect);
      ghost var colorFirst := colorSelect.options;
      ghost var sizeFirst := sizeSelect.options;
      for k := 0 to |keys|
        invariant colorSelect.Valid() && sizeSelect.Valid()
        invariant colorSelect.options == colorFirst + keys[..k]
        invariant sizeSelect.options == sizeFirst + keys[..k]
        invariant colorSelect.selected == (if colorSelect.options == [] then -1 else 0)
        invariant sizeSelect.selected == (if sizeSelect.options == [] then -1 else 0)
      {
        assert keys[..k + 1] == keys[..k] + [keys[k]];
        colorSelect.Add(keys[k]);
        sizeSelect.Add(keys[k]);
      }
      assert keys[..|keys|] == keys;
    }

    /** `cy.elements().remove(); cy.add(elements);`: the view holds exactly
        the given elements, nodes and edges each in element order. */
    method ReplaceElements(elements: seq<Ingest.Element>)
      requires Valid()
      modifies this
      ensures Valid()
      ensures nodes == NodesOf(elements) && styles == StylesOf(elements) && edges == EdgesOf(elements)
    {
      nodes, styles, edges := [], [], [];
      for i := 0 to |elements|
        invariant Valid()
        invariant nodes == NodesOf(elements[..i]) && styles == StylesOf(elements[..i])
        invariant edges == EdgesOf(elements[..i])
      {
        assert elements[..i + 1][..i] == elements[..i];
        NodesOfLength(elements[..i + 1]);
        match elements[i]
        case NodeElement(data, _, _, style) =>
          nodes := nodes + [data];
          styles := styles + [style];
        case EdgeElement(data) =>
          edges := edges + [data];
      }
      assert elements[..|elements|] == elements;
    }

    /** Lines 250-296 (and 351-399) once the parser has produced `g`: the
        view holds the parsed nodes and edges, the dropdowns list their
        attribute keys and the styles are recomputed. */
    method LoadGraph(g: Ingest.ParsedGraph)
      requires Valid()
      modifies this, colorSelect, sizeSelect
      ensures Valid()
      ensures nodes == NodeDatas(g.nodes)
      ensures edges == EdgeDatas(g.edges)
      ensures colorSelect.options == old(colorSelect.options)[..if old(colorSelect.options) == [] then 0 else 1]
                                     + Attributes.DiscoveredKeys(nodes)
      ensures sizeSelect.options == old(sizeSelect.options)[..if old(sizeSelect.options) == [] then 0 else 1]
                                    + Attributes.DiscoveredKeys(nodes)
      ensures colorSelect.selected == (if colorSelect.options == [] then -1 else 0)
      ensures sizeSelect.selected == (if sizeSelect.options == [] then -1 else 0)
      ensures styles == StylesFor(nodes, colorSelect.Value(), sizeSelect.Value())
    {
      var elements := Ingest.ConvertGraph(g);
      LoadedData(g);
      ReplaceElements(elements);
      ExtractAndPopulateAttributes();
      UpdateNodeStyle();
    }

    /** The sample dataset handler. `fetch` stands for the network (None: the
        request failed or was not ok) and `parse` for the GEXF and GraphML
        parsers (None: the content did not parse). An unknown dataset key
        fails like a failed request. On any failure the view is unchanged. */
    method LoadSample(key: string, fetch: string -> Option<string>,
                      parse: (Ingest.Format, string) -> Option<Ingest.ParsedGraph>)
      returns (outcome: Outcome)
      requires Valid()
      modifies this, colorSelect, sizeSelect
      ensures Valid()
      ensures key !in Ingest.SampleDatasets ==> outcome == LoadFailed
      ensures key in Ingest.SampleDatasets ==>
                var url := Ingest.SampleDatasets[key];
                outcome == (if fetch(url).None? then LoadFailed
                            else if parse(Ingest.SampleFormat(url), fetch(url).value).None? then ParseFailed
                            else Loaded)
      ensures outcome != Loaded ==> unchanged(this, colorSelect, sizeSelect)
      ensures outcome == Loaded ==>
                var url := Ingest.SampleDatasets[key];
                var g := parse(Ingest.SampleFormat(url), fetch(url).value).value;
                nodes == NodeDatas(g.nodes)
                && edges == EdgeDatas(g.edges)
                && styles == StylesFor(nodes, colorSelect.Value(), sizeSelect.Value())
      ensures outcome == Loaded ==>
                colorSelect.options == old(colorSelect.options)[..if old(colorSelect.options) == [] then 0 else 1]
                                       + Attributes.DiscoveredKeys(nodes)
                && sizeSelect.options == old(sizeSelect.options)[..if old(sizeSelect.options) == [] then 0 else 1]
                                         + Attributes.DiscoveredKeys(nodes)
                && colorSelect.selected == (if colorSelect.options == [] then -1 else 0)
                && sizeSelect.selected == (if sizeSelect.options == [] then -1 else 0)
    {
      if key !in Ingest.SampleDatasets {
        return LoadFailed;
      }
      var url := Ingest.SampleDatasets[key];
      var content := fetch(url);
      if content.None? {
        return LoadFailed;
      }
      var format := if Ingest.EndsWith(url, ".graphml") then Ingest.GraphML else Ingest.Gexf;
      var graph := parse(format, content.value);
      if graph.None? {
        return ParseFailed;
      }
      LoadGraph(graph.value);
      outcome := Loaded;
    }

    /** The file upload handler. `file` is the chosen file's name and text,
        None when no file was chosen; `parse` stands for the parsers followed
        by `Graph.from`. A name ending in neither `.gexf` nor `.graphml` is
        refused. On any failure the view is unchanged. */
    method UploadFile(file: Option<(string, string)>,
                      parse: (Ingest.Format, string) -> Option<Ingest.ParsedGraph>)
      returns (outcome: Outcome)
      requires Valid()
      modifies this, colorSelect, sizeSelect
      ensures Valid()
      ensures file.None? ==> outcome == NoFile
      ensures file.Some? ==>
                outcome == (if Ingest.UploadFormat(file.value.0).None? then Unsupported
                            else if parse(Ingest.UploadFormat(file.value.0).value, file.value.1).None? then ParseFailed
                            else Loaded)
      ensures outcome != Loaded ==> unchanged(this, colorSelect, sizeSelect)
      ensures outcome == Loaded ==>
                var g := parse(Ingest.UploadFormat(file.value.0).value, file.value.1).value;
                nodes == NodeDatas(g.nodes)
                && edges == EdgeDatas(g.edges)
                && styles == StylesFor(nodes, colorSelect.Value(), sizeSelect.Value())
      ensures outcome == Loaded ==>
                colorSelect.options == old(colorSelect.options)[..if old(colorSelect.options) == [] then 0 else 1]
                                       + Attributes.DiscoveredKeys(nodes)
                && sizeSelect.options == old(sizeSelect.options)[..if old(sizeSelect.options) == [] then 0 else 1]
                                         + Attributes.DiscoveredKeys(nodes)
                && colorSelect.selected == (if colorSelect.options == [] then -1 else 0)
                && sizeSelect.selected == (if sizeSelect.options == [] then -1 else 0)
    {
      if file.None? {
        return NoFile;
      }
      var (name, content) := file.value;
      var format: Ingest.Format;
      if Ingest.EndsWith(name, ".gexf") {
        format := Ingest.Gexf;
      } else if Ingest.EndsWith(name, ".graphml") {
        format := Ingest.GraphML;
      } else {
        return Unsupported;
      }
      var graph := parse(format, content);
      if graph.None? {
        return ParseFailed;
      }
      LoadGraph(graph.value);
      outcome := Loaded;
    }
  }

  // ---------------------------------------------------------------------
  // The default dataset

  /** The default nodes offer `category` and `score` in both dropdowns. */
  lemma DefaultKeys()
    ensures Attributes.DiscoveredKeys(DefaultNodes()) == ["category", "score"]
  {
    var ks := ["id", "label", "category", "score"];
    assert forall n :: 0 <= n < |DefaultNodes()| ==> DefaultNodes()[n].keys == ks;
    Attributes.SameKeys(DefaultNodes(), ks);
    DefaultNodeKeys();
  }

  lemma DefaultNodeKeys()
    ensures Attributes.Discover(["id", "label", "category", "score"]) == ["category", "score"]
  {
    var ks := ["id", "label", "category", "score"];
    var k1, k2, k3 := ["id"], ["id", "label"], ["id", "label", "category"];
    assert k1[..0] == [] && k2[..1] == k1 && k3[..2] == k2 && ks[..3] == k3;
    assert Attributes.Discover(k1) == [];
    assert Attributes.Discover(k2) == [];
    assert Attributes.Discover(k3) == ["category"];
  }

  /** The numeric scores of the default nodes run from 10 to 70. */
  lemma DefaultScores()
    ensures var vals := Styling.NumericValues(DefaultNodes(), "score");
            vals == [10.0, 20.0, 30.0, 40.0, 50.0, 60.0, 70.0]
            && Styling.MinOf(vals) == 10.0 && Styling.MaxOf(vals) == 70.0
  {
    var vals := [10.0, 20.0, 30.0, 40.0, 50.0, 60.0, 70.0];
    ScoresUpTo(6);
    assert DefaultNodes()[..7] == DefaultNodes() && vals[..7] == vals;
    assert forall j :: 0 <= j < 7 ==> 10.0 <= vals[j] <= 70.0;
    assert Styling.MinOf(vals) <= vals[0];
    assert vals[6] <= Styling.MaxOf(vals);
  }

  /** With `score` as size attribute, the default nodes' scores 10, ..., 70
      are drawn 20, 30, ..., 80 wide. */
  lemma DefaultScoreSizes(colorAttr: string, i: nat)
    requires i < 7
    ensures Styling.StyleFor(DefaultNodes(), DefaultNodes()[i], colorAttr, "score").width == 20.0 + 10.0 * i as real
  {
    var ds := DefaultNodes();
    DefaultScores();
    DefaultScoreOf(i);
    Styling.StyleForSize(ds, ds[i], colorAttr, "score");
    var v := 10.0 + 10.0 * i as real;
    assert Styling.SizeFor(v, 10.0, 70.0) == 20.0 + (v - 10.0) / 60.0 * 60.0;
  }

  lemma DefaultScoreOf(i: nat)
    requires i < 7
    ensures Styling.NumericValue(DefaultNodes()[i], "score") == Some(10.0 + 10.0 * i as real)
  {
  }

  lemma {:induction false} ScoresUpTo(n: nat)
    requires n < 7
    ensures Styling.NumericValues(DefaultNodes()[..n + 1], "score")
              == [10.0, 20.0, 30.0, 40.0, 50.0, 60.0, 70.0][..n + 1]
  {
    var ds := DefaultNodes();
    var vals := [10.0, 20.0, 30.0, 40.0, 50.0, 60.0, 70.0];
    DefaultScoreOf(n);
    assert ds[..n + 1][..n] == ds[..n];
    if n > 0 {
      ScoresUpTo(n - 1);
      assert vals[..n + 1] == vals[..n] + [vals[n]];
    } else {
      assert ds[..0] == [];
    }
  }
}
