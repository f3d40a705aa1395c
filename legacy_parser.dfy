/**
 * drawn/__init__.py: the first flow parser. Only `-->` is a plain arrow, and a
 * name is reassigned a fresh node on every mention.
 */
module LegacyParser {
  import opened Wrappers
  import opened Errors
  import opened Dicts
  import opened Flow

  /** The package's own node record: a name and a label, no shape. */
  datatype Node = Node(name: string, caption: string)

  datatype Edge = Edge(src: Node, dst: Node, caption: Option<string> := None)

  /** The node `parse` stores for a name: labelled by the name itself. */
  function NamedNode(name: string): (n: Node)
    ensures n.name == name && n.caption == name
  {
    Node(name, name)
  }

  /** The walk of drawn/__init__.py: legacy arrows, every mention storing the node again. */
  function LegacyRules(): Rules<Node, Edge> {
    Rules(a => DecodeArrow(Legacy, a), true, NamedNode, (s, d, c) => Edge(s, d, c))
  }

  /** `parse` over triples `ts`. */
  function ParseOf(ts: seq<Triple>): Result<(seq<Node>, seq<Edge>), Error> {
    match Run(LegacyRules(), Acc([], []), ts)
    case Err(e) => Err(e)
    case Ok(acc) => Ok((Values(acc.nodes), acc.edges))
  }

  /** `->` is not an arrow here; `-->` and a labelled arrow are. */
  lemma ArrowsAccepted(l: string)
    requires !Text.Contains(l, "-(") && !Text.Contains(l, ")->")
    ensures DecodeArrow(Legacy, "->") == Err(MalformedArrow("->"))
    ensures DecodeArrow(Legacy, "-->") == Ok(None)
    ensures DecodeArrow(Legacy, "-(" + l + ")->") == Ok(Some(l))
    ensures DecodeArrow(Legacy, "-()->") == Ok(Some(""))
  {
    LegacyRefinesCurrent("->");
    LabelRoundTrip(Legacy, l);
    EmptyLabel(Legacy);
  }

  /**
   * `parse` fails exactly when some arrow is neither `-->` nor `-(L)->`, and
   * then with the first such arrow.
   */
  lemma ParseAccepts(ts: seq<Triple>)
    ensures ParseOf(ts).Ok? <==> forall j :: 0 <= j < |ts| ==> DecodeArrow(Legacy, ts[j].arrow).Ok?
    ensures ParseOf(ts).Err? ==>
      exists j :: (0 <= j < |ts| && ParseOf(ts).error == MalformedArrow(ts[j].arrow)
        && DecodeArrow(Legacy, ts[j].arrow).Err?
        && forall i :: 0 <= i < j ==> DecodeArrow(Legacy, ts[i].arrow).Ok?)
  {
    var rules := LegacyRules();
    RunFromEmpty(rules, ts);
    if ParseOf(ts).Err? {
      var e := Run(rules, Acc([], []), ts).error;
      var j :| 0 <= j < |ts| && rules.decode(ts[j].arrow) == Err(e)
        && forall i :: 0 <= i < j ==> rules.decode(ts[i].arrow).Ok?;
      assert e == MalformedArrow(ts[j].arrow);
    }
  }

  /**
   * Reassigning a known name keeps its place in the dictionary: on success
   * the nodes are the distinct names in order of first mention, each
   * labelled by its name.
   */
  lemma ParseNodes(ts: seq<Triple>)
    requires ParseOf(ts).Ok?
    ensures var nodes := ParseOf(ts).value.0;
      var names := FirstSeen(Mentions(ts));
      && nodes == seq(|names|, i requires 0 <= i < |names| => Node(names[i], names[i]))
      && (forall x :: x in names <==> x in Mentions(ts))
      && (forall i, j :: 0 <= i < j < |nodes| ==> nodes[i].name != nodes[j].name)
  {
    RunNodes(LegacyRules(), ts);
  }

  /** On success, one edge per triple, in order, between the triple's two names, with its decoded label. */
  lemma ParseEdges(ts: seq<Triple>)
    requires ParseOf(ts).Ok?
    ensures forall j :: 0 <= j < |ts| ==> DecodeArrow(Legacy, ts[j].arrow).Ok?
    ensures var edges := ParseOf(ts).value.1;
      && |edges| == |ts|
      && forall j :: 0 <= j < |ts| ==> edges[j] == Edge(
           Node(ts[j].src, ts[j].src), Node(ts[j].dst, ts[j].dst), DecodeArrow(Legacy, ts[j].arrow).value)
  {
    RunFromEmpty(LegacyRules(), ts);
  }

  class Parser {
    const flows: seq<string>

    constructor(flows: seq<string>)
      ensures this.flows == flows
    {
      this.flows := flows;
    }

    /** `parse`: walks every flow line. */
    method Parse() returns (r: Result<(seq<Node>, seq<Edge>), Error>)
      ensures r == ParseOf(AllTriples(flows))
    {
      var walked := ParseFlows(LegacyRules(), flows);
      match walked
      case Err(e) =>
        r := Err(e);
      case Ok(acc) =>
        r := Ok((Values(acc.nodes), acc.edges));
    }
  }
}
