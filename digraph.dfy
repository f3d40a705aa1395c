/** The records of drawn/model/digraph.py: plain values compared field by field. */
module Model {
  import opened Wrappers
  import opened Errors

  /** `auto_shapes` defaults to true; the other four fields have no default. */
  datatype Config = Config(
    comment: string,
    outputFile: string,
    outputFormat: string,
    theme: string,
    autoShapes: bool := true)

  /** `label` is a keyword in Dafny, so the label fields are called `caption`. */
  datatype Node = Node(name: string, caption: string, shape: Option<string> := None)

  datatype Edge = Edge(src: Node, dst: Node, caption: Option<string> := None)

  /** The unit handed from the reader to the compiler. */
  datatype DirectedGraph = DirectedGraph(nodes: seq<Node>, edges: seq<Edge>, config: Config)

  /** A keyword argument passed to `Config(**kwargs)`: the reader passes text, or a flag for `auto_shapes`. */
  datatype Value = Text(text: string) | Flag(flag: bool)

  const Fields: set<string> := {"comment", "output_file", "output_format", "theme", "auto_shapes"}

  /** The fields without a default value. */
  const Required: set<string> := {"comment", "output_file", "output_format", "theme"}

  /** Only `auto_shapes` carries a flag. */
  predicate WellTyped(kwargs: map<string, Value>) {
    forall k :: k in kwargs ==> (kwargs[k].Flag? <==> k == "auto_shapes")
  }

  /**
   * `Config(**kwargs)`: the dataclass constructor rejects a keyword that is not a
   * field and a missing field without default; an absent `auto_shapes` is true.
   */
  function ConfigFromKeywords(kwargs: map<string, Value>): (r: Result<Config, Error>)
    requires WellTyped(kwargs)
    ensures r.Ok? <==> kwargs.Keys <= Fields && Required <= kwargs.Keys
    ensures r.Err? ==> r.error == InvalidConfiguration
    ensures r.Ok? ==> r.value.autoShapes == ("auto_shapes" !in kwargs || kwargs["auto_shapes"].flag)
    ensures r.Ok? ==>
      && r.value.comment == kwargs["comment"].text
      && r.value.outputFile == kwargs["output_file"].text
      && r.value.outputFormat == kwargs["output_format"].text
      && r.value.theme == kwargs["theme"].text
  {
    if !(kwargs.Keys <= Fields) || !(Required <= kwargs.Keys) then Err(InvalidConfiguration)
    else Ok(Config(
      kwargs["comment"].text,
      kwargs["output_file"].text,
      kwargs["output_format"].text,
      kwargs["theme"].text,
      if "auto_shapes" in kwargs then kwargs["auto_shapes"].flag else true))
  }
}
