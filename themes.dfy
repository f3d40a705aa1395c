/** The attribute tables of drawn/themes.py and the merge that `get_theme` performs. */
module Themes {
  import opened Wrappers
  import opened Errors
  import opened Dicts

  /** One attribute dictionary per category; `get_theme` builds exactly these three. */
  datatype Categories = Categories(graph: Dict<string>, node: Dict<string>, edge: Dict<string>)

  /** `COMMON_ATTRIBUTES`. */
  const CommonAttributes: Categories := Categories(
    graph := [("dpi", "300"), ("rankdir", "TB"), ("splines", "ortho"),
              ("pad", "0.2"), ("nodesep", "1"), ("ranksep", "0.8")],
    node := [("margin", "0.15,0.1"), ("fontname", "Courier"), ("fontsize", "12"),
             ("shape", "box"), ("style", "filled")],
    edge := [("fontname", "Courier"), ("fontsize", "12"), ("arrowhead", "normal"),
             ("penwidth", "0.8")])

  /** The three entries of `THEME_CONFIGS`. */
  const Light: Categories := Categories(
    graph := [("bgcolor", "white")],
    node := [("fillcolor", "white"), ("fontcolor", "black"), ("color", "black")],
    edge := [("color", "black"), ("fontcolor", "black")])

  const Dark: Categories := Categories(
    graph := [("bgcolor", "black")],
    node := [("fillcolor", "black"), ("fontcolor", "white"), ("color", "white")],
    edge := [("color", "white"), ("fontcolor", "white")])

  const Matrix: Categories := Categories(
    graph := [("bgcolor", "black")],
    node := [("fillcolor", "#001100"), ("fontcolor", "#00FF00"), ("color", "#00FF00")],
    edge := [("color", "#00FF00"), ("fontcolor", "#00FF00")])

  /** `THEME_CONFIGS`: the colour attributes of each named theme. */
  const ThemeConfigs: Dict<Categories> := [("light", Light), ("dark", Dark), ("matrix", Matrix)]

  predicate KnownTheme(theme: string) {
    theme == "light" || theme == "dark" || theme == "matrix"
  }

  /**
   * `get_theme(theme)`: for each category, the common attributes updated with
   * the theme's own; an unknown name is rejected.
   */
  function GetTheme(theme: string): (r: Result<Categories, Error>)
    ensures r.Ok? <==> KnownTheme(theme)
    ensures r.Err? ==> r.error == UnknownTheme(theme)
  {
    ThemeNames();
    if theme !in Keys(ThemeConfigs) then Err(UnknownTheme(theme))
    else
      var own := Get(ThemeConfigs, theme);
      Ok(Categories(
        graph := Merge(CommonAttributes.graph, own.graph),
        node := Merge(CommonAttributes.node, own.node),
        edge := Merge(CommonAttributes.edge, own.edge)))
  }

  /** `{**common, **own}` for one category: keys of both, the theme's value winning on a shared key. */
  ghost predicate MergedFrom(merged: Dict<string>, common: Dict<string>, own: Dict<string>) {
    && (forall k :: k in Keys(merged) <==> k in Keys(common) || k in Keys(own))
    && (forall k :: k in Keys(own) ==> k in Keys(merged) && Get(merged, k) == Get(own, k))
    && (forall k :: k in Keys(common) && k !in Keys(own) ==> k in Keys(merged) && Get(merged, k) == Get(common, k))
    && |merged| >= |common| && Keys(merged)[..|common|] == Keys(common)
  }

  lemma MergeIsMergedFrom(common: Dict<string>, own: Dict<string>)
    requires Valid(own)
    ensures MergedFrom(Merge(common, own), common, own)
  {
    MergeKeys(common, own);
    forall k | k in Keys(own)
      ensures k in Keys(Merge(common, own)) && Get(Merge(common, own), k) == Get(own, k)
    {
      MergeGetRight(common, own, k);
    }
    forall k | k in Keys(common) && k !in Keys(own)
      ensures k in Keys(Merge(common, own)) && Get(Merge(common, own), k) == Get(common, k)
    {
      MergeGetLeft(common, own, k);
    }
  }

  lemma ThemeNames()
    ensures Keys(ThemeConfigs) == ["light", "dark", "matrix"]
  {
    var ks := Keys(ThemeConfigs);
    assert |ks| == 3 && ks[0] == "light" && ks[1] == "dark" && ks[2] == "matrix";
  }

  /** The table a known theme name selects. */
  lemma ThemeConfigsLookup(theme: string)
    requires KnownTheme(theme)
    ensures theme in Keys(ThemeConfigs)
    ensures Get(ThemeConfigs, theme) == if theme == "light" then Light else if theme == "dark" then Dark else Matrix
  {
    ThemeNames();
    var d := ThemeConfigs;
    assert d[1..] == [("dark", Dark), ("matrix", Matrix)];
    assert d[1..][1..] == [("matrix", Matrix)];
    assert Keys(d[1..]) == ["dark", "matrix"] && Keys(d[1..][1..]) == ["matrix"];
    if theme != "light" {
      assert Get(d, theme) == Get(d[1..], theme);
      if theme != "dark" {
        assert Get(d[1..], theme) == Get(d[1..][1..], theme);
      }
    }
  }

  /** `THEME_CONFIGS[theme]` for a known theme. */
  function OwnAttributes(theme: string): (own: Categories)
    requires KnownTheme(theme)
    ensures own == if theme == "light" then Light else if theme == "dark" then Dark else Matrix
  {
    ThemeConfigsLookup(theme);
    Get(ThemeConfigs, theme)
  }

  /** Key lists are distinct and the common keys of a category are disjoint from the theme's. */
  ghost predicate Separate(common: Dict<string>, own: Dict<string>) {
    Valid(own) && forall i :: 0 <= i < |own| ==> own[i].0 !in Keys(common)
  }

  /** Every theme table has the same keys: one graph, three node and two edge attributes. */
  lemma ThemeKeys(own: Categories)
    requires own == Light || own == Dark || own == Matrix
    ensures Keys(own.graph) == ["bgcolor"]
    ensures Keys(own.node) == ["fillcolor", "fontcolor", "color"]
    ensures Keys(own.edge) == ["color", "fontcolor"]
  {
  }

  lemma GraphSeparate(own: Dict<string>)
    requires Keys(own) == ["bgcolor"]
    ensures Separate(CommonAttributes.graph, own)
  {
    var common := Keys(CommonAttributes.graph);
    assert common == ["dpi", "rankdir", "splines", "pad", "nodesep", "ranksep"];
    assert |own| == 1 && Keys(own)[1..] == [];
    assert Distinct(Keys(own));
    assert own[0].0 !in common;
  }

  lemma NodeSeparate(own: Dict<string>)
    requires Keys(own) == ["fillcolor", "fontcolor", "color"]
    ensures Separate(CommonAttributes.node, own)
  {
    var common := Keys(CommonAttributes.node);
    assert common == ["margin", "fontname", "fontsize", "shape", "style"];
    var ks := Keys(own);
    assert ks[1..] == ["fontcolor", "color"] && ks[1..][1..] == ["color"] && ks[1..][1..][1..] == [];
    assert Distinct(ks[1..][1..]);
    assert Distinct(ks[1..]);
    assert own[0].0 !in common && own[1].0 !in common && own[2].0 !in common;
  }

  lemma EdgeSeparate(own: Dict<string>)
    requires Keys(own) == ["color", "fontcolor"]
    ensures Separate(CommonAttributes.edge, own)
  {
    var common := Keys(CommonAttributes.edge);
    assert common == ["fontname", "fontsize", "arrowhead", "penwidth"];
    var ks := Keys(own);
    assert ks[1..] == ["fontcolor"] && ks[1..][1..] == [];
    assert Distinct(ks[1..]);
    assert own[0].0 !in common && own[1].0 !in common;
  }

  /** The key lists of every theme are distinct and disjoint from the common ones. */
  lemma ThemeSeparate(own: Categories)
    requires own == Light || own == Dark || own == Matrix
    ensures Separate(CommonAttributes.graph, own.graph)
    ensures Separate(CommonAttributes.node, own.node)
    ensures Separate(CommonAttributes.edge, own.edge)
  {
    ThemeKeys(own);
    GraphSeparate(own.graph);
    NodeSeparate(own.node);
    EdgeSeparate(own.edge);
  }

  /**
   * Each category of a theme holds every common key with its common value and
   * every theme key with the theme's value, nothing else, common keys first in
   * table order.
   */
  lemma GetThemeMerges(theme: string)
    requires KnownTheme(theme)
    ensures var own := OwnAttributes(theme);
      && MergedFrom(GetTheme(theme).value.graph, CommonAttributes.graph, own.graph)
      && MergedFrom(GetTheme(theme).value.node, CommonAttributes.node, own.node)
      && MergedFrom(GetTheme(theme).value.edge, CommonAttributes.edge, own.edge)
  {
    ThemeConfigsLookup(theme);
    var own := OwnAttributes(theme);
    ThemeSeparate(own);
    MergeIsMergedFrom(CommonAttributes.graph, own.graph);
    MergeIsMergedFrom(CommonAttributes.node, own.node);
    MergeIsMergedFrom(CommonAttributes.edge, own.edge);
  }

  /**
   * The common and theme keys never overlap, so every category is the common
   * table followed by the theme's table.
   */
  lemma GetThemeLayout(theme: string)
    requires KnownTheme(theme)
    ensures var own := OwnAttributes(theme);
      GetTheme(theme) == Ok(Categories(
        CommonAttributes.graph + own.graph,
        CommonAttributes.node + own.node,
        CommonAttributes.edge + own.edge))
  {
    var own := OwnAttributes(theme);
    ThemeSeparate(own);
    MergeSeparate(CommonAttributes, own);
    ThemeConfigsLookup(theme);
  }

  lemma MergeSeparate(common: Categories, own: Categories)
    requires Separate(common.graph, own.graph)
    requires Separate(common.node, own.node)
    requires Separate(common.edge, own.edge)
    ensures Merge(common.graph, own.graph) == common.graph + own.graph
    ensures Merge(common.node, own.node) == common.node + own.node
    ensures Merge(common.edge, own.edge) == common.edge + own.edge
  {
    MergeDisjoint(common.graph, own.graph);
    MergeDisjoint(common.node, own.node);
    MergeDisjoint(common.edge, own.edge);
  }

  lemma LayoutSizes(t: Categories, own: Categories)
    requires own == Light || own == Dark || own == Matrix
    requires t == Categories(CommonAttributes.graph + own.graph, CommonAttributes.node + own.node,
                             CommonAttributes.edge + own.edge)
    ensures |t.graph| == 7 && |t.node| == 8 && |t.edge| == 6
  {
    ThemeKeys(own);
  }

  /** Every theme yields 7 graph, 8 node and 6 edge attributes. */
  lemma GetThemeSizes(theme: string)
    requires KnownTheme(theme)
    ensures |GetTheme(theme).value.graph| == 7
    ensures |GetTheme(theme).value.node| == 8
    ensures |GetTheme(theme).value.edge| == 6
  {
    GetThemeLayout(theme);
    LayoutSizes(GetTheme(theme).value, OwnAttributes(theme));
  }

  lemma CommonValid()
    ensures Valid(CommonAttributes.node) && Valid(CommonAttributes.edge)
  {
    var ns := Keys(CommonAttributes.node);
    assert ns == ["margin", "fontname", "fontsize", "shape", "style"];
    assert Distinct(ns[4..]);
    assert Distinct(ns[3..]);
    assert Distinct(ns[2..]);
    assert Distinct(ns[1..]);
    var es := Keys(CommonAttributes.edge);
    assert es == ["fontname", "fontsize", "arrowhead", "penwidth"];
    assert Distinct(es[3..]);
    assert Distinct(es[2..]);
    assert Distinct(es[1..]);
  }

  /** The node and edge defaults of every theme name each key once. */
  lemma GetThemeValid(theme: string)
    requires KnownTheme(theme)
    ensures Valid(GetTheme(theme).value.node) && Valid(GetTheme(theme).value.edge)
  {
    CommonValid();
    var own := OwnAttributes(theme);
    ThemeConfigsLookup(theme);
    MergeValid(CommonAttributes.node, own.node);
    MergeValid(CommonAttributes.edge, own.edge);
  }
}
