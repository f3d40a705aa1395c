/**
 * drawn/old_compiler.py: the first compiler. Its attribute tables are written
 * out statement by statement in three setters, nodes carry a label and no
 * shape, and everything is added to one graphviz object kept in a field, so
 * a second `compile` adds the statements again.
 */
module OldCompiler {
  import opened Wrappers
  import opened Errors
  import opened Dicts
  import opened Model
  import opened Themes
  import opened Graphviz
  import New = Compiler

  /** The six graph attributes set for every theme, in call order. */
  const Layout: Dict<string> := [("dpi", "300"), ("rankdir", "TB"), ("splines", "ortho"),
                                 ("pad", "0.2"), ("nodesep", "1"), ("ranksep", "0.8")]

  /** The node defaults set for every theme. */
  const NodeBase: Dict<string> := [("margin", "0.15,0.1"), ("fontname", "Courier"), ("fontsize", "12"),
                                   ("shape", "box"), ("style", "filled")]

  /** The edge defaults set for every theme. */
  const EdgeBase: Dict<string> := [("fontname", "Courier"), ("fontsize", "12"), ("arrowhead", "normal"),
                                   ("penwidth", "0.8")]

  /** The background each known theme adds; nothing for any other name. */
  function GraphPalette(theme: string): (r: Dict<string>)
    ensures r == [] <==> !KnownTheme(theme)
  {
    if theme == "light" then [("bgcolor", "white")]
    else if theme == "dark" then [("bgcolor", "black")]
    else if theme == "matrix" then [("bgcolor", "black")]
    else []
  }

  function NodePalette(theme: string): (r: Dict<string>)
    ensures r == [] <==> !KnownTheme(theme)
  {
    if theme == "light" then [("fillcolor", "white"), ("fontcolor", "black"), ("color", "black")]
    else if theme == "dark" then [("fillcolor", "black"), ("fontcolor", "white"), ("color", "white")]
    else if theme == "matrix" then [("fillcolor", "#001100"), ("fontcolor", "#00FF00"), ("color", "#00FF00")]
    else []
  }

  function EdgePalette(theme: string): (r: Dict<string>)
    ensures r == [] <==> !KnownTheme(theme)
  {
    if theme == "light" then [("color", "black"), ("fontcolor", "black")]
    else if theme == "dark" then [("color", "white"), ("fontcolor", "white")]
    else if theme == "matrix" then [("color", "#00FF00"), ("fontcolor", "#00FF00")]
    else []
  }

  /**
   * The hand-written setters agree with the theme tables: for every known
   * theme, graph, node and edge attributes are those of `get_theme`, values
   * and order.
   */
  lemma SettersMatchThemes(theme: string)
    requires KnownTheme(theme)
    ensures GetTheme(theme) == Ok(Categories(Layout + GraphPalette(theme), NodeBase + NodePalette(theme),
                                             EdgeBase + EdgePalette(theme)))
  {
    GetThemeLayout(theme);
    var own := OwnAttributes(theme);
    assert own.graph == GraphPalette(theme);
    assert own.node == NodePalette(theme);
    assert own.edge == EdgePalette(theme);
  }

  /** One node statement per node, in list order, labelled and without a shape. */
  function LabelStmts(nodes: seq<Node>): seq<Stmt> {
    seq(|nodes|, i requires 0 <= i < |nodes| => NodeStmt(nodes[i].name, [("label", nodes[i].caption)]))
  }

  /** The statements one `compile` call adds: only the layout attributes when the theme is unknown. */
  function Added(g: DirectedGraph): seq<Stmt> {
    var theme := g.config.theme;
    if !KnownTheme(theme) then GraphStmts(Layout)
    else GraphStmts(Layout) + GraphStmts(GraphPalette(theme)) + LabelStmts(g.nodes) + New.EdgeStmts(g.edges)
  }

  lemma AddedKnown(g: DirectedGraph)
    requires KnownTheme(g.config.theme)
    ensures Added(g) == GraphStmts(Layout) + GraphStmts(GraphPalette(g.config.theme)) + LabelStmts(g.nodes) + New.EdgeStmts(g.edges)
  {
  }

  /**
   * Where each statement of one `compile` lands: the six layout attributes
   * always; for a known theme, then the background at position 6, node i at
   * 7 + i and edge j after all nodes, so 7 + nodes + edges statements in all.
   */
  lemma AddedPositions(g: DirectedGraph)
    ensures var a, n := Added(g), |g.nodes|;
      && |a| == (if KnownTheme(g.config.theme) then 7 + n + |g.edges| else 6)
      && (forall i :: 0 <= i < 6 ==> a[i] == GraphAttr(Layout[i].0, Layout[i].1))
      && (KnownTheme(g.config.theme) ==>
           && a[6] == GraphAttr("bgcolor", if g.config.theme == "light" then "white" else "black")
           && (forall i :: 0 <= i < n ==> a[7 + i] == NodeStmt(g.nodes[i].name, [("label", g.nodes[i].caption)]))
           && (forall j :: 0 <= j < |g.edges| ==>
                a[7 + n + j] == EdgeStmt(g.edges[j].src.name, g.edges[j].dst.name, New.EdgeAttrs(g.edges[j].caption))))
  {
    var a, n := Added(g), |g.nodes|;
    var theme := g.config.theme;
    if KnownTheme(theme) {
      AddedKnown(g);
      var head := GraphStmts(Layout) + GraphStmts(GraphPalette(theme));
      assert |head| == 7;
      assert a == head + LabelStmts(g.nodes) + New.EdgeStmts(g.edges);
      assert a[..7] == head;
      assert a[6] == head[6];
      forall i | 0 <= i < n
        ensures a[7 + i] == NodeStmt(g.nodes[i].name, [("label", g.nodes[i].caption)])
      {
        assert a[7 + i] == LabelStmts(g.nodes)[i];
      }
      forall j | 0 <= j < |g.edges|
        ensures a[7 + n + j] == EdgeStmt(g.edges[j].src.name, g.edges[j].dst.name, New.EdgeAttrs(g.edges[j].caption))
      {
        assert a[7 + n + j] == New.EdgeStmts(g.edges)[j];
      }
    }
  }

  /** The graph a `compile` call leaves behind, starting from `before`, whether or not it fails. */
  function AfterCompile(before: Listing, g: DirectedGraph): Listing {
    var theme := g.config.theme;
    if !KnownTheme(theme) then
      before.(body := before.body + Added(g))
    else
      Listing(before.comment,
        Merge(before.nodeAttr, NodeBase + NodePalette(theme)),
        Merge(before.edgeAttr, EdgeBase + EdgePalette(theme)),
        before.body + Added(g))
  }

  /** What `compile` returns from `before`: the new source, or the theme error. */
  function CompileResult(before: Listing, g: DirectedGraph): (r: Result<Listing, Error>)
    ensures r.Ok? <==> KnownTheme(g.config.theme)
    ensures r.Err? ==> r.error == UnknownTheme(g.config.theme)
  {
    if KnownTheme(g.config.theme) then Ok(AfterCompile(before, g)) else Err(UnknownTheme(g.config.theme))
  }

  /** The graph a new `Compiler` holds: the configured comment and nothing else. */
  function Empty(g: DirectedGraph): Listing {
    Listing(g.config.comment, [], [], [])
  }

  /** A node statement without its `shape` argument; other statements as they are. */
  function Unshaped(s: Stmt): Stmt {
    match s
    case NodeStmt(name, attrs) => NodeStmt(name, Remove(attrs, "shape"))
    case _ => s
  }

  /** Every statement of `body` with node shapes taken out. */
  function UnshapedAll(body: seq<Stmt>): (r: seq<Stmt>)
    ensures |r| == |body|
  {
    seq(|body|, i requires 0 <= i < |body| => Unshaped(body[i]))
  }

  lemma UnshapedEmit(t: Categories, g: DirectedGraph, shapeOf: string -> string)
    ensures UnshapedAll(New.Emit(t, g, shapeOf).body) == GraphStmts(t.graph) + LabelStmts(g.nodes) + New.EdgeStmts(g.edges)
  {
    var nodes := New.NodeStmts(g.config.autoShapes, shapeOf, g.nodes);
    var labels := LabelStmts(g.nodes);
    forall i | 0 <= i < |nodes|
      ensures Unshaped(nodes[i]) == labels[i]
    {
      var n := g.nodes[i];
      var shape := New.EmittedShape(g.config.autoShapes, shapeOf, n.name);
      var attrs := New.NodeAttrs(n.caption, shape);
      assert attrs[1..][1..] == [] && attrs[1..][0].0 == "shape" && attrs[0].0 != "shape";
      assert Remove(attrs[1..][1..], "shape") == [];
      assert Remove(attrs[1..], "shape") == [];
      assert Remove(attrs, "shape") == [attrs[0]];
    }
  }

  /**
   * On a new compiler, the old `compile` and the new one agree on the
   * comment, every default and every statement, except that the old one
   * passes a node its label only: the new one adds a shape after it.
   */
  lemma AgreesWithCompiler(g: DirectedGraph, shapeOf: string -> string)
    requires KnownTheme(g.config.theme)
    ensures var before, after := CompileResult(Empty(g), g).value, New.Emission(g, shapeOf).value;
      before == after.(body := UnshapedAll(after.body))
  {
    var t := New.DefaultsFromEmpty(g, shapeOf);
    FreshCompile(g, t);
    UnshapedEmit(t, g, shapeOf);
  }

  /** A new compiler ends up with the theme's tables as defaults and its graph attributes first. */
  lemma FreshCompile(g: DirectedGraph, t: Categories)
    requires GetTheme(g.config.theme) == Ok(t)
    ensures AfterCompile(Empty(g), g) ==
      Listing(g.config.comment, t.node, t.edge, GraphStmts(t.graph) + LabelStmts(g.nodes) + New.EdgeStmts(g.edges))
  {
    var theme := g.config.theme;
    AddedKnown(g);
    SettersMatchThemes(theme);
    GraphStmtsAppend(Layout, GraphPalette(theme));
    GetThemeValid(theme);
    MergeIntoEmpty(t.node);
    MergeIntoEmpty(t.edge);
  }

  /**
   * `compile` only ever adds: a second call leaves the defaults as they
   * were and appends the same statements again.
   */
  lemma CompileTwice(before: Listing, g: DirectedGraph)
    ensures var once := AfterCompile(before, g);
      var twice := AfterCompile(once, g);
      && twice.nodeAttr == once.nodeAttr && twice.edgeAttr == once.edgeAttr
      && once.body == before.body + Added(g) && twice.body == once.body + Added(g)
  {
    var theme := g.config.theme;
    if KnownTheme(theme) {
      SettersMatchThemes(theme);
      GetThemeValid(theme);
      MergeTwice(before.nodeAttr, NodeBase + NodePalette(theme));
      MergeTwice(before.edgeAttr, EdgeBase + EdgePalette(theme));
    }
  }

  lemma Regroup<T>(b: seq<T>, w: seq<T>, x: seq<T>, y: seq<T>, z: seq<T>)
    ensures b + w + x + y + z == b + (w + x + y + z)
  {
  }

  class Compiler {
    const digraph: DirectedGraph
    const dot: Digraph

    constructor(digraph: DirectedGraph)
      ensures this.digraph == digraph && fresh(dot)
      ensures dot.format == digraph.config.outputFormat && dot.Source() == Empty(digraph)
    {
      this.digraph := digraph;
      dot := new Digraph(digraph.config.comment, digraph.config.outputFormat);
    }

    /** `set_graph_attributes`: the layout attributes, then the theme's background or the error. */
    method SetGraphAttributes(theme: string) returns (o: Outcome<Error>)
      modifies dot
      ensures o.Fail? <==> !KnownTheme(theme)
      ensures o.Fail? ==> o.error == UnknownTheme(theme)
      ensures dot.body == old(dot.body) + GraphStmts(Layout) + GraphStmts(GraphPalette(theme))
      ensures dot.nodeAttr == old(dot.nodeAttr) && dot.edgeAttr == old(dot.edgeAttr)
    {
      dot.Attr("dpi", "300");
      dot.Attr("rankdir", "TB");
      dot.Attr("splines", "ortho");
      dot.Attr("pad", "0.2");
      dot.Attr("nodesep", "1");
      dot.Attr("ranksep", "0.8");
      assert dot.body == old(dot.body) + GraphStmts(Layout);
      if theme == "light" {
        dot.Attr("bgcolor", "white");
      } else if theme == "dark" {
        dot.Attr("bgcolor", "black");
      } else if theme == "matrix" {
        dot.Attr("bgcolor", "black");
      } else {
        return Fail(UnknownTheme(theme));
      }
      o := Pass;
    }

    /** `set_node_attributes`: the shared node defaults, then the theme's colours or the error. */
    method SetNodeAttributes(theme: string) returns (o: Outcome<Error>)
      modifies dot
      ensures o.Fail? <==> !KnownTheme(theme)
      ensures o.Fail? ==> o.error == UnknownTheme(theme)
      ensures dot.nodeAttr == Merge(old(dot.nodeAttr), NodeBase + NodePalette(theme))
      ensures dot.body == old(dot.body) && dot.edgeAttr == old(dot.edgeAttr)
    {
      MergeAppend(dot.nodeAttr, NodeBase, NodePalette(theme));
      ghost var todo := NodeBase;
      todo := MergeStep(dot.nodeAttr, todo, "margin", "0.15,0.1");
      dot.SetNodeAttr("margin", "0.15,0.1");
      todo := MergeStep(dot.nodeAttr, todo, "fontname", "Courier");
      dot.SetNodeAttr("fontname", "Courier");
      todo := MergeStep(dot.nodeAttr, todo, "fontsize", "12");
      dot.SetNodeAttr("fontsize", "12");
      todo := MergeStep(dot.nodeAttr, todo, "shape", "box");
      dot.SetNodeAttr("shape", "box");
      todo := MergeStep(dot.nodeAttr, todo, "style", "filled");
      dot.SetNodeAttr("style", "filled");
      assert todo == [];
      o := SetNodeColours(theme);
    }

    /** The `if`/`elif` chain of `set_node_attributes`: the theme's three node colours, or the error. */
    method SetNodeColours(theme: string) returns (o: Outcome<Error>)
      modifies dot
      ensures o.Fail? <==> !KnownTheme(theme)
      ensures o.Fail? ==> o.error == UnknownTheme(theme)
      ensures dot.nodeAttr == Merge(old(dot.nodeAttr), NodePalette(theme))
      ensures dot.body == old(dot.body) && dot.edgeAttr == old(dot.edgeAttr)
    {
      ghost var todo := NodePalette(theme);
      var fill, font, line;
      if theme == "light" {
        fill, font, line := "white", "black", "black";
      } else if theme == "dark" {
        fill, font, line := "black", "white", "white";
      } else if theme == "matrix" {
        fill, font, line := "#001100", "#00FF00", "#00FF00";
      } else {
        assert todo == [];
        return Fail(UnknownTheme(theme));
      }
      assert todo == [("fillcolor", fill), ("fontcolor", font), ("color", line)];
      todo := MergeStep(dot.nodeAttr, todo, "fillcolor", fill);
      dot.SetNodeAttr("fillcolor", fill);
      todo := MergeStep(dot.nodeAttr, todo, "fontcolor", font);
      dot.SetNodeAttr("fontcolor", font);
      todo := MergeStep(dot.nodeAttr, todo, "color", line);
      dot.SetNodeAttr("color", line);
      assert todo == [];
      o := Pass;
    }

    /** `set_edge_attributes`: the shared edge defaults, then the theme's colours or the error. */
    method SetEdgeAttributes(theme: string) returns (o: Outcome<Error>)
      modifies dot
      ensures o.Fail? <==> !KnownTheme(theme)
      ensures o.Fail? ==> o.error == UnknownTheme(theme)
      ensures dot.edgeAttr == Merge(old(dot.edgeAttr), EdgeBase + EdgePalette(theme))
      ensures dot.body == old(dot.body) && dot.nodeAttr == old(dot.nodeAttr)
    {
      MergeAppend(dot.edgeAttr, EdgeBase, EdgePalette(theme));
      ghost var todo := EdgeBase;
      todo := MergeStep(dot.edgeAttr, todo, "fontname", "Courier");
      dot.SetEdgeAttr("fontname", "Courier");
      todo := MergeStep(dot.edgeAttr, todo, "fontsize", "12");
      dot.SetEdgeAttr("fontsize", "12");
      todo := MergeStep(dot.edgeAttr, todo, "arrowhead", "normal");
      dot.SetEdgeAttr("arrowhead", "normal");
      todo := MergeStep(dot.edgeAttr, todo, "penwidth", "0.8");
      dot.SetEdgeAttr("penwidth", "0.8");
      assert todo == [];
      o := SetEdgeColours(theme);
    }

    /** The `if`/`elif` chain of `set_edge_attributes`: the theme's two edge colours, or the error. */
    method SetEdgeColours(theme: string) returns (o: Outcome<Error>)
      modifies dot
      ensures o.Fail? <==> !KnownTheme(theme)
      ensures o.Fail? ==> o.error == UnknownTheme(theme)
      ensures dot.edgeAttr == Merge(old(dot.edgeAttr), EdgePalette(theme))
      ensures dot.body == old(dot.body) && dot.nodeAttr == old(dot.nodeAttr)
    {
      ghost var todo := EdgePalette(theme);
      var line, font;
      if theme == "light" {
        line, font := "black", "black";
      } else if theme == "dark" {
        line, font := "white", "white";
      } else if theme == "matrix" {
        line, font := "#00FF00", "#00FF00";
      } else {
        assert todo == [];
        return Fail(UnknownTheme(theme));
      }
      assert todo == [("color", line), ("fontcolor", font)];
      todo := MergeStep(dot.edgeAttr, todo, "color", line);
      dot.SetEdgeAttr("color", line);
      todo := MergeStep(dot.edgeAttr, todo, "fontcolor", font);
      dot.SetEdgeAttr("fontcolor", font);
      assert todo == [];
      o := Pass;
    }

    /**
     * `compile`: graph, node and edge attributes in that order, stopping at
     * the first error, then a labelled statement per node and a statement
     * per edge.
     */
    method Compile() returns (r: Result<Listing, Error>)
      modifies dot
      ensures r == CompileResult(old(dot.Source()), digraph)
      ensures dot.Source() == AfterCompile(old(dot.Source()), digraph)
    {
      var theme := digraph.config.theme;
      ghost var before := dot.body;
      var o := SetGraphAttributes(theme);
      if o.Fail? {
        assert GraphStmts(GraphPalette(theme)) == [];
        assert dot.body == before + Added(digraph);
        return Err(o.error);
      }
      o := SetNodeAttributes(theme);
      o := SetEdgeAttributes(theme);
      AddLabelledNodes(digraph.nodes);
      New.AddEdges(dot, digraph.edges);
      Regroup(before, GraphStmts(Layout), GraphStmts(GraphPalette(theme)), LabelStmts(digraph.nodes),
        New.EdgeStmts(digraph.edges));
      r := Ok(dot.Source());
    }

    /** The node loop of `compile`: a statement naming the node, with its label only. */
    method AddLabelledNodes(nodes: seq<Node>)
      modifies dot
      ensures dot.body == old(dot.body) + LabelStmts(nodes)
      ensures dot.nodeAttr == old(dot.nodeAttr) && dot.edgeAttr == old(dot.edgeAttr)
    {
      ghost var stmts := LabelStmts(nodes);
      for i := 0 to |nodes|
        invariant dot.body == old(dot.body) + stmts[..i]
        invariant dot.nodeAttr == old(dot.nodeAttr) && dot.edgeAttr == old(dot.edgeAttr)
      {
        dot.AddNode(nodes[i].name, [("label", nodes[i].caption)]);
        assert stmts[..i + 1] == stmts[..i] + [stmts[i]];
      }
      assert stmts[..|nodes|] == stmts;
    }

    /** `render`: `compile`, then the result handed to graphviz with the configured file name and format. */
    method Render() returns (r: Result<New.RenderJob, Error>)
      modifies dot
      ensures r.Ok? <==> KnownTheme(digraph.config.theme)
      ensures r.Err? ==> r.error == UnknownTheme(digraph.config.theme)
      ensures r.Ok? ==> r.value == New.RenderJob(AfterCompile(old(dot.Source()), digraph),
                                                   dot.format, digraph.config.outputFile)
      ensures dot.Source() == AfterCompile(old(dot.Source()), digraph)
    {
      var compiled := Compile();
      if compiled.Err? {
        return Err(compiled.error);
      }
      r := Ok(New.RenderJob(dot.Source(), dot.format, digraph.config.outputFile));
    }
  }
}
