/**
 * The part of the graphviz `Digraph` object the compilers drive, kept as an
 * abstract statement list rather than DOT text. `attr(key=value)` appends a
 * graph attribute statement, `node_attr[key] = value` and
 * `edge_attr[key] = value` update the default dictionaries, and `node` and
 * `edge` append one statement each.
 */
module Graphviz {
  import opened Dicts

  /** One statement of the graph body, in the order the calls were made. */
  datatype Stmt =
    | GraphAttr(key: string, value: string)
    | NodeStmt(name: string, attrs: Dict<string>)
    | EdgeStmt(tail: string, head: string, attrs: Dict<string>)

  /** What `.source` prints: the comment, the node and edge defaults, then the body. */
  datatype Listing = Listing(comment: string, nodeAttr: Dict<string>, edgeAttr: Dict<string>, body: seq<Stmt>)

  /** A graph attribute statement per entry, in dictionary order. */
  function GraphStmts(d: Dict<string>): (r: seq<Stmt>)
    ensures |r| == |d|
    ensures forall i :: 0 <= i < |d| ==> r[i] == GraphAttr(d[i].0, d[i].1)
  {
    seq(|d|, i requires 0 <= i < |d| => GraphAttr(d[i].0, d[i].1))
  }

  lemma GraphStmtsAppend(a: Dict<string>, b: Dict<string>)
    ensures GraphStmts(a + b) == GraphStmts(a) + GraphStmts(b)
  {
  }

  class Digraph {
    const comment: string
    const format: string
    var body: seq<Stmt>
    var nodeAttr: Dict<string>
    var edgeAttr: Dict<string>

    constructor(comment: string, format: string)
      ensures this.comment == comment && this.format == format
      ensures body == [] && nodeAttr == [] && edgeAttr == []
    {
      this.comment := comment;
      this.format := format;
      body := [];
      nodeAttr := [];
      edgeAttr := [];
    }

    /** `attr(key=value)`. */
    method Attr(key: string, value: string)
      modifies this
      ensures body == old(body) + [GraphAttr(key, value)]
      ensures nodeAttr == old(nodeAttr) && edgeAttr == old(edgeAttr)
    {
      body := body + [GraphAttr(key, value)];
    }

    /** `node_attr[key] = value`. */
    method SetNodeAttr(key: string, value: string)
      modifies this
      ensures nodeAttr == Put(old(nodeAttr), key, value)
      ensures body == old(body) && edgeAttr == old(edgeAttr)
    {
      nodeAttr := Put(nodeAttr, key, value);
    }

    /** `edge_attr[key] = value`. */
    method SetEdgeAttr(key: string, value: string)
      modifies this
      ensures edgeAttr == Put(old(edgeAttr), key, value)
      ensures body == old(body) && nodeAttr == old(nodeAttr)
    {
      edgeAttr := Put(edgeAttr, key, value);
    }

    /** `node(name, **attrs)`. */
    method AddNode(name: string, attrs: Dict<string>)
      modifies this
      ensures body == old(body) + [NodeStmt(name, attrs)]
      ensures nodeAttr == old(nodeAttr) && edgeAttr == old(edgeAttr)
    {
      body := body + [NodeStmt(name, attrs)];
    }

    /** `edge(tail, head, **attrs)`. */
    method AddEdge(tail: string, head: string, attrs: Dict<string>)
      modifies this
      ensures body == old(body) + [EdgeStmt(tail, head, attrs)]
      ensures nodeAttr == old(nodeAttr) && edgeAttr == old(edgeAttr)
    {
      body := body + [EdgeStmt(tail, head, attrs)];
    }

    /** `.source`. */
    function Source(): Listing
      reads this
    {
      Listing(comment, nodeAttr, edgeAttr, body)
    }
  }
}
