/** Turning a parsed GEXF or GraphML graph into Cytoscape elements
    (script.js:256-288, repeated at script.js:357-390), and choosing the
    parser from the file name (script.js:242 and 339-348). */
module Ingest {
  import opened JsValues
  import Styling

  /** A node as `graph.forEachNode` reports it: its key and its attributes. */
  datatype ParsedNode = ParsedNode(key: string, attributes: JsObject)

  /** An edge as `graph.forEachEdge` reports it. */
  datatype ParsedEdge = ParsedEdge(key: string, attributes: JsObject, source: string, target: string)

  /** The parser's graph, as its node and edge iteration orders. */
  datatype ParsedGraph = ParsedGraph(nodes: seq<ParsedNode>, edges: seq<ParsedEdge>)

  /** A coordinate of a node element: the attribute value when it is truthy,
      otherwise a random spot around the centre of the canvas. */
  datatype Coord = Supplied(v: JsVal) | Jittered

  /** An element handed to `cy.add`. */
  datatype Element =
    | NodeElement(data: JsObject, x: Coord, y: Coord, style: Styling.Style)
    | EdgeElement(data: JsObject)

  /** The `x` or `y` of a node element: supplied exactly when the attribute
      is truthy, and then it is the attribute's value. */
  function CoordOf(attributes: JsObject, axis: string): (c: Coord)
    ensures c.Supplied? <==> Truthy(Lookup(attributes, axis))
    ensures c.Supplied? ==> Lookup(attributes, axis) == Some(c.v)
  {
    if Truthy(Lookup(attributes, axis)) then Supplied(Lookup(attributes, axis).value) else Jittered
  }

  /** `attributes.label || node` */
  function LabelOr(attributes: JsObject, key: string): (v: JsVal)
    ensures Some(v) == Or(Lookup(attributes, "label"), Some(JStr(key)))
  {
    if Truthy(Lookup(attributes, "label")) then Lookup(attributes, "label").value else JStr(key)
  }

  /** `{ id: node, label: attributes.label || node, ...attributes }` */
  function NodeData(n: ParsedNode): JsObject {
    Spread(NodeBase(n), n.attributes)
  }

  /** `{ id: node, label: attributes.label || node }` */
  function NodeBase(n: ParsedNode): JsObject {
    Obj(["id", "label"], map["id" := JStr(n.key), "label" := LabelOr(n.attributes, n.key)])
  }

  /** `{ id: edge, source: source, target: target }` */
  function EdgeBase(e: ParsedEdge): JsObject {
    Obj(["id", "source", "target"],
        map["id" := JStr(e.key), "source" := JStr(e.source), "target" := JStr(e.target)])
  }

  /** `{ id: edge, source: source, target: target, ...attributes }` */
  function EdgeData(e: ParsedEdge): JsObject {
    Spread(EdgeBase(e), e.attributes)
  }

  /** The initial style of a node element; 'text-outline-color' and
      'font-size' come from the stylesheet (lines 28-37). */
  function InitialStyle(n: ParsedNode): Styling.Style {
    Styling.Style(Styling.BaseGray, 30.0, 30.0, Some(LabelOr(n.attributes, n.key)),
                  Styling.BaseGray, Styling.FontSize)
  }

  /** The element pushed for a node (lines 257-274). */
  function NodeElementOf(n: ParsedNode): Element {
    NodeElement(NodeData(n), CoordOf(n.attributes, "x"), CoordOf(n.attributes, "y"), InitialStyle(n))
  }

  /** The element pushed for an edge (lines 279-287). */
  function EdgeElementOf(e: ParsedEdge): Element {
    EdgeElement(EdgeData(e))
  }

  /** A node's data holds every attribute; `id` is the node key and `label`
      the key too unless the attributes have their own, which win even when
      falsy. The keys are `id`, `label`, then the other attribute keys in
      order. */
  lemma NodeDataSpec(n: ParsedNode, k: string)
    ensures Lookup(NodeData(n), k) ==
              if k in n.attributes.vals then Some(n.attributes.vals[k])
              else if k == "id" || k == "label" then Some(JStr(n.key))
              else None
    ensures NodeData(n).keys == ["id", "label"] + NewKeys(["id", "label"], n.attributes.keys)
  {
    SpreadLookup(NodeBase(n), n.attributes, k);
  }

  /** The style label uses `||` alone: a falsy attribute label shows the node
      key there while the data keeps the falsy label. Positions are taken from
      truthy `x` and `y` attributes only. */
  lemma NodeElementSpec(n: ParsedNode)
    ensures var e := NodeElementOf(n);
            e.style.caption == (if Truthy(Lookup(n.attributes, "label")) then Lookup(n.attributes, "label")
                                else Some(JStr(n.key)))
            && e.style.background == Styling.BaseGray && e.style.width == e.style.height == 30.0
            && (Truthy(Lookup(n.attributes, "x")) ==> e.x == Supplied(Lookup(n.attributes, "x").value))
            && (!Truthy(Lookup(n.attributes, "x")) ==> e.x == Jittered)
            && (Truthy(Lookup(n.attributes, "y")) ==> e.y == Supplied(Lookup(n.attributes, "y").value))
            && (!Truthy(Lookup(n.attributes, "y")) ==> e.y == Jittered)
  {
  }

  /** An edge's data holds every attribute; `id`, `source` and `target` come
      from the parser unless the attributes override them. */
  lemma EdgeDataSpec(e: ParsedEdge, k: string)
    ensures Lookup(EdgeData(e), k) ==
              if k in e.attributes.vals then Some(e.attributes.vals[k])
              else if k == "id" then Some(JStr(e.key))
              else if k == "source" then Some(JStr(e.source))
              else if k == "target" then Some(JStr(e.target))
              else None
    ensures EdgeData(e).keys == ["id", "source", "target"] + NewKeys(["id", "source", "target"], e.attributes.keys)
  {
    SpreadLookup(EdgeBase(e), e.attributes, k);
  }

  /** The node elements, in node order. */
  function NodeElements(ns: seq<ParsedNode>): (r: seq<Element>)
    ensures |r| == |ns|
  {
    if ns == [] then [] else NodeElements(ns[..|ns| - 1]) + [NodeElementOf(ns[|ns| - 1])]
  }

  /** The edge elements, in edge order. */
  function EdgeElements(es: seq<ParsedEdge>): (r: seq<Element>)
    ensures |r| == |es|
  {
    if es == [] then [] else EdgeElements(es[..|es| - 1]) + [EdgeElementOf(es[|es| - 1])]
  }

  lemma {:induction false} NodeElementsAt(ns: seq<ParsedNode>)
    ensures forall i :: 0 <= i < |ns| ==> NodeElements(ns)[i] == NodeElementOf(ns[i])
    decreases |ns|
  {
    if ns != [] {
      NodeElementsAt(ns[..|ns| - 1]);
    }
  }

  lemma {:induction false} EdgeElementsAt(es: seq<ParsedEdge>)
    ensures forall j :: 0 <= j < |es| ==> EdgeElements(es)[j] == EdgeElementOf(es[j])
    decreases |es|
  {
    if es != [] {
      EdgeElementsAt(es[..|es| - 1]);
    }
  }

  /** The element list holds one element per parsed node, in iteration order,
      followed by one per parsed edge, in iteration order. */
  lemma ElementOrder(g: ParsedGraph)
    ensures var els := NodeElements(g.nodes) + EdgeElements(g.edges);
            |els| == |g.nodes| + |g.edges|
            && (forall i :: 0 <= i < |g.nodes| ==> els[i] == NodeElementOf(g.nodes[i]))
            && (forall j :: 0 <= j < |g.edges| ==> els[|g.nodes| + j] == EdgeElementOf(g.edges[j]))
  {
    NodeElementsAt(g.nodes);
    EdgeElementsAt(g.edges);
    forall i | 0 <= i < |g.nodes|
      ensures (NodeElements(g.nodes) + EdgeElements(g.edges))[i] == NodeElementOf(g.nodes[i])
    {
      NodeElementAt(g, i);
    }
    forall j | 0 <= j < |g.edges|
      ensures (NodeElements(g.nodes) + EdgeElements(g.edges))[|g.nodes| + j] == EdgeElementOf(g.edges[j])
    {
      EdgeElementAt(g, j);
    }
  }

  lemma NodeElementAt(g: ParsedGraph, i: nat)
    requires i < |g.nodes|
    ensures (NodeElements(g.nodes) + EdgeElements(g.edges))[i] == NodeElementOf(g.nodes[i])
  {
    NodeElementsAt(g.nodes);
  }

  lemma EdgeElementAt(g: ParsedGraph, j: nat)
    requires j < |g.edges|
    ensures (NodeElements(g.nodes) + EdgeElements(g.edges))[|g.nodes| + j] == EdgeElementOf(g.edges[j])
  {
    NodeElementsAt(g.nodes);
    EdgeElementsAt(g.edges);
  }

  /** The two `forEach` loops: one element per node, in node order, then one
      per edge, in edge order. */
  method ConvertGraph(g: ParsedGraph) returns (elements: seq<Element>)
    ensures elements == NodeElements(g.nodes) + EdgeElements(g.edges)
  {
    elements := [];
    for i := 0 to |g.nodes|
      invariant elements == NodeElements(g.nodes[..i])
    {
      NodeElementsSnoc(g.nodes, i);
      elements := elements + [NodeElementOf(g.nodes[i])];
    }
    assert g.nodes[..|g.nodes|] == g.nodes;
    ghost var nodeElements := elements;
    for j := 0 to |g.edges|
      invariant elements == nodeElements + EdgeElements(g.edges[..j])
    {
      EdgeElementsSnoc(g.edges, j);
      elements := elements + [EdgeElementOf(g.edges[j])];
    }
    assert g.edges[..|g.edges|] == g.edges;
  }

  lemma NodeElementsSnoc(ns: seq<ParsedNode>, i: nat)
    requires i < |ns|
    ensures NodeElements(ns[..i + 1]) == NodeElements(ns[..i]) + [NodeElementOf(ns[i])]
  {
    assert ns[..i + 1][..i] == ns[..i];
  }

  lemma EdgeElementsSnoc(es: seq<ParsedEdge>, j: nat)
    requires j < |es|
    ensures EdgeElements(es[..j + 1]) == EdgeElements(es[..j]) + [EdgeElementOf(es[j])]
  {
    assert es[..j + 1][..j] == es[..j];
  }

  // ---------------------------------------------------------------------
  // Choosing the parser

  datatype Format = Gexf | GraphML

  /** `s.endsWith(suffix)` */
  predicate EndsWith(s: string, suffix: string) {
    |suffix| <= |s| && s[|s| - |suffix|..] == suffix
  }

  /** The sample datasets (line 242): GraphML for a `.graphml` URL, GEXF for
      anything else. */
  function SampleFormat(url: string): Format {
    if EndsWith(url, ".graphml") then GraphML else Gexf
  }

  /** The file upload (lines 339-348): `.gexf` first, then `.graphml`,
      anything else refused. */
  function UploadFormat(name: string): Option<Format> {
    if EndsWith(name, ".gexf") then Some(Gexf)
    else if EndsWith(name, ".graphml") then Some(GraphML)
    else None
  }

  /** A name cannot end in both suffixes, so the order of the upload checks
      does not matter; wherever the upload accepts a name the sample loader
      picks the same parser, and the sample loader differs only by parsing
      every other name as GEXF. */
  lemma DispatchAgrees(name: string)
    ensures !(EndsWith(name, ".gexf") && EndsWith(name, ".graphml"))
    ensures UploadFormat(name) == Some(Gexf) <==> EndsWith(name, ".gexf")
    ensures UploadFormat(name) == Some(GraphML) <==> EndsWith(name, ".graphml")
    ensures UploadFormat(name).Some? ==> SampleFormat(name) == UploadFormat(name).value
    ensures UploadFormat(name).None? ==> SampleFormat(name) == Gexf
  {
    if EndsWith(name, ".gexf") {
      LastChar(name, ".gexf");
    }
    if EndsWith(name, ".graphml") {
      LastChar(name, ".graphml");
    }
  }

  lemma LastChar(name: string, suffix: string)
    requires suffix != [] && EndsWith(name, suffix)
    ensures name[|name| - 1] == suffix[|suffix| - 1]
  {
    assert name[|name| - |suffix|..][|suffix| - 1] == name[|name| - 1];
  }

  /** Any name made of a stem and one of the two suffixes is accepted by the
      upload handler, and both handlers choose the same parser format for it. */
  lemma SuffixDispatch(stem: string)
    ensures UploadFormat(stem + ".gexf") == Some(Gexf) == Some(SampleFormat(stem + ".gexf"))
    ensures UploadFormat(stem + ".graphml") == Some(GraphML) == Some(SampleFormat(stem + ".graphml"))
  {
    var g := stem + ".gexf";
    assert g[|g| - 5..] == ".gexf";
    var m := stem + ".graphml";
    assert m[|m| - 8..] == ".graphml";
    assert m[|m| - 1] == 'l';
  }

  /** The GraphML samples are exactly `got`, `marvel` and `quakers`, and the
      upload handler would accept every sample file and parse it the same
      way. */
  lemma SampleFormats(key: string)
    requires key in SampleDatasets
    ensures SampleFormat(SampleDatasets[key]) == GraphML <==> key in {"got", "marvel", "quakers"}
    ensures UploadFormat(SampleDatasets[key]) == Some(SampleFormat(SampleDatasets[key]))
  {
    var url := SampleDatasets[key];
    if key in {"got", "marvel", "quakers"} {
      assert EndsWith(url, ".graphml");
      assert !EndsWith(url, ".gexf") by {
        LastChar(url, ".graphml");
      }
    } else {
      assert EndsWith(url, ".gexf");
      assert !EndsWith(url, ".graphml") by {
        LastChar(url, ".gexf");
      }
    }
  }

  /** The sample datasets of lines 211-221. */
  const SampleDatasets: map<string, string> := map[
    "eurosis" := "data/samples/eurosis.gexf",
    "diseasome" := "data/samples/diseasome.gexf",
    "celegans" := "data/samples/celegans.gexf",
    "java" := "data/samples/java.gexf",
    "lesmis" := "data/samples/les-miserables.gexf",
    "powergrid" := "data/samples/power-grid.gexf",
    "got" := "data/samples/game-of-thrones.graphml",
    "marvel" := "data/samples/marvel.graphml",
    "quakers" := "data/samples/quakers.graphml"
  ]

}
