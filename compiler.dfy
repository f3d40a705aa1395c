/**
 * drawn/compiler.py: `compile` and `render` turn a directed graph into graphviz
 * calls. The theme's defaults are applied first, then one node statement per
 * node and one edge statement per edge, in list order.
 */
module Compiler {
  import opened Wrappers
  import opened Errors
  import opened Dicts
  import opened Model
  import opened Themes
  import opened Graphviz

  /** The shape a node is emitted with: `"box"`, or the automatic choice for its name when automatic shapes are on. */
  function EmittedShape(autoShapes: bool, shapeOf: string -> string, name: string): string {
    if autoShapes then shapeOf(name) else "box"
  }

  /** The keyword arguments of a node statement: its label, then its shape. */
  function NodeAttrs(caption: string, shape: string): (r: Dict<string>)
    ensures Keys(r) == ["label", "shape"]
    ensures Get(r, "label") == caption && Get(r, "shape") == shape
  {
    [("label", caption), ("shape", shape)]
  }

  /**
   * The keyword arguments of an edge statement. An edge label is passed only
   * when it passes Python's truth test: present and non-empty.
   */
  function EdgeAttrs(caption: Option<string>): (r: Dict<string>)
    ensures |r| <= 1
    ensures "xlabel" in Keys(r) <==> caption.Some? && caption.value != ""
    ensures "xlabel" in Keys(r) ==> Get(r, "xlabel") == caption.value
  {
    if caption.Some? && caption.value != "" then
      var r := [("xlabel", caption.value)];
      assert Keys(r) == ["xlabel"];
      r
    else []
  }

  /** One node statement per node, in list order. */
  function NodeStmts(autoShapes: bool, shapeOf: string -> string, nodes: seq<Node>): seq<Stmt> {
    seq(|nodes|, i requires 0 <= i < |nodes| =>
      NodeStmt(nodes[i].name, NodeAttrs(nodes[i].caption, EmittedShape(autoShapes, shapeOf, nodes[i].name))))
  }

  /** One edge statement per edge, in list order, between the names of its two ends. */
  function EdgeStmts(edges: seq<Edge>): seq<Stmt> {
    seq(|edges|, i requires 0 <= i < |edges| => EdgeStmt(edges[i].src.name, edges[i].dst.name, EdgeAttrs(edges[i].caption)))
  }

  /**
   * What `compile` produces for `g`, with `shapeOf` standing for the
   * automatic shape picker: the theme's graph attributes, node and edge
   * statements, under the theme's node and edge defaults.
   */
  function Emission(g: DirectedGraph, shapeOf: string -> string): (r: Result<Listing, Error>)
    ensures r.Ok? <==> KnownTheme(g.config.theme)
    ensures r.Err? ==> r.error == UnknownTheme(g.config.theme)
    ensures r.Ok? ==> r.value.comment == g.config.comment
  {
    match GetTheme(g.config.theme)
    case Err(e) => Err(e)
    case Ok(t) => Ok(Emit(t, g, shapeOf))
  }

  /** The listing for `g` under the attribute tables `t`. */
  function Emit(t: Categories, g: DirectedGraph, shapeOf: string -> string): Listing {
    Listing(g.config.comment, t.node, t.edge,
      GraphStmts(t.graph) + NodeStmts(g.config.autoShapes, shapeOf, g.nodes) + EdgeStmts(g.edges))
  }

  /**
   * For a known theme: the 7 graph attributes of `get_theme` first, in its
   * order, then exactly one node statement per node and one edge statement
   * per edge, each in list order, under the theme's node and edge defaults.
   */
  lemma EmissionLayout(g: DirectedGraph, shapeOf: string -> string)
    requires KnownTheme(g.config.theme)
    ensures var t := GetTheme(g.config.theme).value;
      var listing := Emission(g, shapeOf).value;
      var body, n, m := listing.body, |g.nodes|, |g.edges|;
      && listing.nodeAttr == t.node && listing.edgeAttr == t.edge
      && |t.graph| == 7 && |body| == 7 + n + m
      && body[..7] == GraphStmts(t.graph)
      && (forall i :: 0 <= i < n ==> body[7 + i] == NodeStmt(g.nodes[i].name,
            NodeAttrs(g.nodes[i].caption, EmittedShape(g.config.autoShapes, shapeOf, g.nodes[i].name))))
      && (forall j :: 0 <= j < m ==> body[7 + n + j] == EdgeStmt(g.edges[j].src.name, g.edges[j].dst.name,
            EdgeAttrs(g.edges[j].caption)))
  {
    var t := GetTheme(g.config.theme).value;
    assert Emission(g, shapeOf) == Ok(Emit(t, g, shapeOf));
    GetThemeSizes(g.config.theme);
    EmitLayout(t, g, shapeOf);
  }

  lemma EmitLayout(t: Categories, g: DirectedGraph, shapeOf: string -> string)
    ensures var body, k, n, m := Emit(t, g, shapeOf).body, |t.graph|, |g.nodes|, |g.edges|;
      && |body| == k + n + m
      && body[..k] == GraphStmts(t.graph)
      && (forall i :: 0 <= i < n ==> body[k + i] == NodeStmt(g.nodes[i].name,
            NodeAttrs(g.nodes[i].caption, EmittedShape(g.config.autoShapes, shapeOf, g.nodes[i].name))))
      && (forall j :: 0 <= j < m ==> body[k + n + j] == EdgeStmt(g.edges[j].src.name, g.edges[j].dst.name,
            EdgeAttrs(g.edges[j].caption)))
  {
  }

  /** Attribute statements come before node statements, and node statements before edge statements. */
  lemma StatementOrder(g: DirectedGraph, shapeOf: string -> string)
    requires KnownTheme(g.config.theme)
    ensures var body := Emission(g, shapeOf).value.body;
      && (forall i, j :: 0 <= i < j < |body| && body[j].GraphAttr? ==> body[i].GraphAttr?)
      && (forall i, j :: 0 <= i < j < |body| && body[i].EdgeStmt? ==> body[j].EdgeStmt?)
  {
    EmitOrder(GetTheme(g.config.theme).value, g, shapeOf);
  }

  lemma EmitOrder(t: Categories, g: DirectedGraph, shapeOf: string -> string)
    ensures var body := Emit(t, g, shapeOf).body;
      && (forall i, j :: 0 <= i < j < |body| && body[j].GraphAttr? ==> body[i].GraphAttr?)
      && (forall i, j :: 0 <= i < j < |body| && body[i].EdgeStmt? ==> body[j].EdgeStmt?)
  {
    var a, b, c := GraphStmts(t.graph), NodeStmts(g.config.autoShapes, shapeOf, g.nodes), EdgeStmts(g.edges);
    var body := a + b + c;
    assert forall k :: 0 <= k < |body| ==> (body[k].GraphAttr? <==> k < |a|) && (body[k].EdgeStmt? <==> k >= |a| + |b|);
  }

  /** The shape stored in a node record plays no part: only name and label reach the output. */
  lemma StoredShapeIgnored(g: DirectedGraph, h: DirectedGraph, shapeOf: string -> string)
    requires g.config == h.config && g.edges == h.edges && |g.nodes| == |h.nodes|
    requires forall i :: 0 <= i < |g.nodes| ==> g.nodes[i].name == h.nodes[i].name && g.nodes[i].caption == h.nodes[i].caption
    ensures Emission(g, shapeOf) == Emission(h, shapeOf)
  {
    assert NodeStmts(g.config.autoShapes, shapeOf, g.nodes) == NodeStmts(h.config.autoShapes, shapeOf, h.nodes);
  }

  /** An empty label is dropped like a missing one. */
  lemma EmptyLabelDropped(src: Node, dst: Node)
    ensures EdgeStmts([Edge(src, dst, Some(""))]) == EdgeStmts([Edge(src, dst, None)]) == [EdgeStmt(src.name, dst.name, [])]
  {
  }

  /**
   * `_apply_attributes`: an unknown theme is rejected before anything is
   * set; otherwise each graph attribute is appended in order and the node
   * and edge defaults are assigned key by key.
   */
  method ApplyAttributes(dot: Digraph, theme: string) returns (o: Outcome<Error>)
    modifies dot
    ensures o.Fail? <==> !KnownTheme(theme)
    ensures o.Fail? ==> (o.error == UnknownTheme(theme)
      && dot.body == old(dot.body) && dot.nodeAttr == old(dot.nodeAttr) && dot.edgeAttr == old(dot.edgeAttr))
    ensures o.Pass? ==>
      var t := GetTheme(theme).value;
      && dot.body == old(dot.body) + GraphStmts(t.graph)
      && dot.nodeAttr == Merge(old(dot.nodeAttr), t.node)
      && dot.edgeAttr == Merge(old(dot.edgeAttr), t.edge)
  {
    var config := GetTheme(theme);
    if config.Err? {
      return Fail(config.error);
    }
    AddGraphAttrs(dot, config.value.graph);
    SetNodeDefaults(dot, config.value.node);
    SetEdgeDefaults(dot, config.value.edge);
    o := Pass;
  }

  /** The first loop of `_apply_attributes`: one `attr` call per graph attribute, in table order. */
  method AddGraphAttrs(dot: Digraph, d: Dict<string>)
    modifies dot
    ensures dot.body == old(dot.body) + GraphStmts(d)
    ensures dot.nodeAttr == old(dot.nodeAttr) && dot.edgeAttr == old(dot.edgeAttr)
  {
    for i := 0 to |d|
      invariant dot.body == old(dot.body) + GraphStmts(d[..i])
      invariant dot.nodeAttr == old(dot.nodeAttr) && dot.edgeAttr == old(dot.edgeAttr)
    {
      dot.Attr(d[i].0, d[i].1);
      assert GraphStmts(d[..i + 1]) == GraphStmts(d[..i]) + [GraphAttr(d[i].0, d[i].1)];
    }
    assert d[..|d|] == d;
  }

  /** The second loop: `node_attr[key] = value` per node default, in table order. */
  method SetNodeDefaults(dot: Digraph, d: Dict<string>)
    modifies dot
    ensures dot.nodeAttr == Merge(old(dot.nodeAttr), d)
    ensures dot.body == old(dot.body) && dot.edgeAttr == old(dot.edgeAttr)
  {
    for i := 0 to |d|
      invariant dot.nodeAttr == Merge(old(dot.nodeAttr), d[..i])
      invariant dot.body == old(dot.body) && dot.edgeAttr == old(dot.edgeAttr)
    {
      dot.SetNodeAttr(d[i].0, d[i].1);
      assert d[..i + 1] == d[..i] + [d[i]];
      MergeSnoc(old(dot.nodeAttr), d[..i], d[i].0, d[i].1);
    }
    assert d[..|d|] == d;
  }

  /** The third loop: `edge_attr[key] = value` per edge default, in table order. */
  method SetEdgeDefaults(dot: Digraph, d: Dict<string>)
    modifies dot
    ensures dot.edgeAttr == Merge(old(dot.edgeAttr), d)
    ensures dot.body == old(dot.body) && dot.nodeAttr == old(dot.nodeAttr)
  {
    for i := 0 to |d|
      invariant dot.edgeAttr == Merge(old(dot.edgeAttr), d[..i])
      invariant dot.body == old(dot.body) && dot.nodeAttr == old(dot.nodeAttr)
    {
      dot.SetEdgeAttr(d[i].0, d[i].1);
      assert d[..i + 1] == d[..i] + [d[i]];
      MergeSnoc(old(dot.edgeAttr), d[..i], d[i].0, d[i].1);
    }
    assert d[..|d|] == d;
  }

  /** Assigning the shape after the label gives the two keyword arguments in that order. */
  lemma ShapeAssigned(caption: string, shape: string)
    ensures Put([("label", caption)], "shape", shape) == NodeAttrs(caption, shape)
  {
    assert Keys([("label", caption)]) == ["label"];
  }

  /** The theme's defaults, assigned into the empty dictionaries of a new graph, are the theme's tables. */
  lemma DefaultsFromEmpty(g: DirectedGraph, shapeOf: string -> string) returns (t: Categories)
    requires KnownTheme(g.config.theme)
    ensures GetTheme(g.config.theme) == Ok(t)
    ensures Merge([], t.node) == t.node && Merge([], t.edge) == t.edge
    ensures Emission(g, shapeOf) == Ok(Emit(t, g, shapeOf))
  {
    t := GetTheme(g.config.theme).value;
    GetThemeValid(g.config.theme);
    MergeIntoEmpty(t.node);
    MergeIntoEmpty(t.edge);
  }

  /** The node loop of `compile`: a label, then the shape, per node. */
  method AddNodes(dot: Digraph, autoShapes: bool, shapeOf: string -> string, nodes: seq<Node>)
    modifies dot
    ensures dot.body == old(dot.body) + NodeStmts(autoShapes, shapeOf, nodes)
    ensures dot.nodeAttr == old(dot.nodeAttr) && dot.edgeAttr == old(dot.edgeAttr)
  {
    ghost var stmts := NodeStmts(autoShapes, shapeOf, nodes);
    for i := 0 to |nodes|
      invariant dot.body == old(dot.body) + stmts[..i]
      invariant dot.nodeAttr == old(dot.nodeAttr) && dot.edgeAttr == old(dot.edgeAttr)
    {
      var node := nodes[i];
      var attrs := [("label", node.caption)];
      if autoShapes {
        ShapeAssigned(node.caption, shapeOf(node.name));
        attrs := Put(attrs, "shape", shapeOf(node.name));
      } else {
        ShapeAssigned(node.caption, "box");
        attrs := Put(attrs, "shape", "box");
      }
      dot.AddNode(node.name, attrs);
      assert stmts[..i + 1] == stmts[..i] + [stmts[i]];
    }
    assert stmts[..|nodes|] == stmts;
  }

  /** The edge loop of `compile`: an `xlabel` only for a non-empty label. */
  method AddEdges(dot: Digraph, edges: seq<Edge>)
    modifies dot
    ensures dot.body == old(dot.body) + EdgeStmts(edges)
    ensures dot.nodeAttr == old(dot.nodeAttr) && dot.edgeAttr == old(dot.edgeAttr)
  {
    ghost var stmts := EdgeStmts(edges);
    for j := 0 to |edges|
      invariant dot.body == old(dot.body) + stmts[..j]
      invariant dot.nodeAttr == old(dot.nodeAttr) && dot.edgeAttr == old(dot.edgeAttr)
    {
      var edge := edges[j];
      if edge.caption.Some? && edge.caption.value != "" {
        dot.AddEdge(edge.src.name, edge.dst.name, [("xlabel", edge.caption.value)]);
      } else {
        dot.AddEdge(edge.src.name, edge.dst.name, []);
      }
      assert stmts[..j + 1] == stmts[..j] + [stmts[j]];
    }
    assert stmts[..|edges|] == stmts;
  }

  /**
   * The statements `compile` and `render` both build on a new graph:
   * defaults, then a node statement per node, then an edge statement per edge.
   */
  method Populate(g: DirectedGraph, shapeOf: string -> string) returns (r: Result<Digraph, Error>)
    ensures r.Err? ==> Emission(g, shapeOf) == Err(r.error)
    ensures r.Ok? ==> (fresh(r.value) && r.value.format == g.config.outputFormat
      && Emission(g, shapeOf) == Ok(r.value.Source()))
  {
    var dot := new Digraph(g.config.comment, g.config.outputFormat);
    var applied := ApplyAttributes(dot, g.config.theme);
    if applied.Fail? {
      return Err(applied.error);
    }
    ghost var t := DefaultsFromEmpty(g, shapeOf);
    ghost var head := GraphStmts(t.graph);
    assert dot.body == head by {
      assert [] + head == head;
    }
    AddNodes(dot, g.config.autoShapes, shapeOf, g.nodes);
    AddEdges(dot, g.edges);
    assert dot.Source() == Emit(t, g, shapeOf);
    r := Ok(dot);
  }

  /** `compile`: the source of the populated graph, or the theme error. */
  method Compile(g: DirectedGraph, shapeOf: string -> string) returns (r: Result<Listing, Error>)
    ensures r == Emission(g, shapeOf)
  {
    var built := Populate(g, shapeOf);
    match built
    case Err(e) =>
      r := Err(e);
    case Ok(dot) =>
      r := Ok(dot.Source());
  }

  /** What `render` hands to graphviz: the listing, the output format and the output file stem. */
  datatype RenderJob = RenderJob(listing: Listing, format: string, outputFile: string)

  /** `render`: the same statements as `compile`, handed over with the configured file name and format. */
  method Render(g: DirectedGraph, shapeOf: string -> string) returns (r: Result<RenderJob, Error>)
    ensures r.Ok? <==> Emission(g, shapeOf).Ok?
    ensures r.Err? ==> r.error == Emission(g, shapeOf).error
    ensures r.Ok? ==> r.value == RenderJob(Emission(g, shapeOf).value, g.config.outputFormat, g.config.outputFile)
  {
    var built := Populate(g, shapeOf);
    match built
    case Err(e) =>
      r := Err(e);
    case Ok(dot) =>
      r := Ok(RenderJob(dot.Source(), dot.format, g.config.outputFile));
  }
}
