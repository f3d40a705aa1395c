/**
 * The flow-line parser that drawn/reader.py, drawn/old_reader.py and
 * drawn/__init__.py each carry a copy of: every line is split on whitespace,
 * walked in overlapping `(node, arrow, node)` triples, every arrow is decoded
 * and the nodes are collected in a dictionary keyed by name.
 *
 * The three copies differ only in the arrows they accept, in whether a node
 * that is already known is stored again, and in the records they build; those
 * differences are the parameters `Rules`.
 */
module Flow {
  import opened Wrappers
  import opened Errors
  import opened Text
  import opened Dicts

  /** drawn/reader.py accepts `->` as a plain arrow; drawn/__init__.py and drawn/old_reader.py do not. */
  datatype Dialect = Current | Legacy

  /** The label text between the first `-(` and the next `)->` of a labelled arrow. */
  function LabelOf(arrow: string): string
    requires StartsWith(arrow, "-(")
  {
    SplitAllStarts(arrow, "-(");
    SplitAll(SplitAll(arrow, "-(")[1], ")->")[0]
  }

  /**
   * One arrow token: a plain arrow has no label, `-(L)->` has label L, and
   * anything else is rejected.
   */
  function DecodeArrow(dialect: Dialect, arrow: string): (r: Result<Option<string>, Error>)
    ensures r.Ok? <==>
      || arrow == "-->"
      || (dialect == Current && arrow == "->")
      || (StartsWith(arrow, "-(") && EndsWith(arrow, ")->"))
    ensures r.Err? ==> r.error == MalformedArrow(arrow)
    ensures r == Ok(None) <==> arrow == "-->" || (dialect == Current && arrow == "->")
  {
    if arrow == "-->" || (dialect == Current && arrow == "->") then Ok(None)
    else if StartsWith(arrow, "-(") && EndsWith(arrow, ")->") then Ok(Some(LabelOf(arrow)))
    else Err(MalformedArrow(arrow))
  }

  /** `-(` never occurs in `L + ")->"` when it does not occur in L. */
  lemma NoOpenAfter(l: string)
    requires !Contains(l, "-(")
    ensures !Contains(l + ")->", "-(")
  {
    var s := l + ")->";
    forall i: nat | i <= |s|
      ensures !OccursAt(s, "-(", i)
    {
      if i + 2 <= |l| {
        assert s[i..i + 2] == l[i..i + 2];
        assert !OccursAt(l, "-(", i);
      } else if i + 2 <= |s| {
        assert s[i..i + 2][1] == s[i + 1];
        assert s[|l|] == ')' && s[|l| + 1] == '-' && s[|l| + 2] == '>';
      }
    }
  }

  /** `)->` does not start inside L or across its end when it does not occur in L. */
  lemma NoCloseBefore(l: string)
    requires !Contains(l, ")->")
    ensures forall i: nat :: i < |l| ==> !OccursAt(l + ")->" + [], ")->", i)
  {
    var s := l + ")->";
    assert l + ")->" + [] == s;
    forall i: nat | i < |l|
      ensures !OccursAt(s, ")->", i)
    {
      if i + 3 <= |l| {
        assert s[i..i + 3] == l[i..i + 3];
        assert !OccursAt(l, ")->", i);
      } else {
        assert s[i..i + 3][1] == s[i + 1] && s[i..i + 3][2] == s[i + 2];
        assert s[|l|] == ')';
      }
    }
  }

  /** A label free of both delimiters survives `-(L)->` unchanged, and so does the empty label. */
  lemma LabelRoundTrip(dialect: Dialect, l: string)
    requires !Contains(l, "-(") && !Contains(l, ")->")
    ensures DecodeArrow(dialect, "-(" + l + ")->") == Ok(Some(l))
  {
    var arrow := "-(" + l + ")->";
    assert arrow[..2] == "-(";
    assert arrow[|arrow| - 3..] == ")->";
    assert |arrow| >= 5;
    SplitAllStarts(arrow, "-(");
    assert arrow[2..] == l + ")->";
    NoOpenAfter(l);
    SplitAllAbsent(l + ")->", "-(");
    NoCloseBefore(l);
    SplitAllFirst(l, ")->", []);
    assert l + ")->" + [] == l + ")->";
  }

  /** A second `-(` ends the label text. */
  lemma OpenCutsLabel(a: string, b: string)
    requires !Contains(a, "-(") && !Contains(a, ")->")
    ensures SplitAll(SplitAll(a + "-(" + b, "-(")[0], ")->")[0] == a
  {
    var rest := a + "-(" + b;
    forall i: nat | i < |a|
      ensures !OccursAt(rest, "-(", i)
    {
      if i + 2 <= |a| {
        assert rest[i..i + 2] == a[i..i + 2];
        assert !OccursAt(a, "-(", i);
      } else {
        assert rest[i..i + 2][1] == rest[|a|] == '-';
      }
    }
    SplitAllFirst(a, "-(", b);
    SplitAllAbsent(a, ")->");
  }

  /** A `)->` ends the label text, whatever follows it. */
  lemma CloseCutsLabel(a: string, b: string)
    requires !Contains(a, "-(") && !Contains(a, ")->")
    ensures SplitAll(SplitAll(a + ")->" + b, "-(")[0], ")->")[0] == a
  {
    var rest := a + ")->" + b;
    forall i: nat | i < |a| + 3
      ensures !OccursAt(rest, "-(", i)
    {
      if i + 2 <= |a| {
        assert rest[i..i + 2] == a[i..i + 2];
        assert !OccursAt(a, "-(", i);
      } else if i + 2 <= |rest| {
        assert rest[i..i + 2][0] == rest[i] && rest[i..i + 2][1] == rest[i + 1];
        assert rest[|a|] == ')' && rest[|a| + 1] == '-' && rest[|a| + 2] == '>';
      }
    }
    SplitAllKeeps(rest, "-(", |a| + 3);
    var piece := SplitAll(rest, "-(")[0];
    assert rest[..|a| + 3] == a + ")->";
    var t := piece[|a| + 3..];
    assert piece == a + ")->" + t;
    forall i: nat | i < |a|
      ensures !OccursAt(a + ")->" + t, ")->", i)
    {
      if i + 3 <= |a| {
        assert piece[i..i + 3] == a[i..i + 3];
        assert !OccursAt(a, ")->", i);
      } else {
        assert piece[i..i + 3][1] == piece[i + 1] && piece[i..i + 3][2] == piece[i + 2];
        assert piece[|a|] == ')';
      }
    }
    SplitAllFirst(a, ")->", t);
  }

  /**
   * The label ends at whichever delimiter comes first after the opening `-(`:
   * another `-(` cuts it as surely as `)->`, so `-(a-(b)->` is labelled `a`.
   */
  lemma LabelUpToFirstDelimiter(dialect: Dialect, a: string, d: string, b: string)
    requires d == "-(" || d == ")->"
    requires !Contains(a, "-(") && !Contains(a, ")->")
    requires EndsWith("-(" + a + d + b, ")->")
    ensures DecodeArrow(dialect, "-(" + a + d + b) == Ok(Some(a))
  {
    var arrow := "-(" + a + d + b;
    assert arrow[..2] == "-(";
    assert arrow[2..] == a + d + b;
    SplitAllStarts(arrow, "-(");
    if d == "-(" {
      OpenCutsLabel(a, b);
    } else {
      CloseCutsLabel(a, b);
    }
    assert LabelOf(arrow) == a;
  }

  /** `-()->` is labelled with the empty string, not unlabelled. */
  lemma EmptyLabel(dialect: Dialect)
    ensures DecodeArrow(dialect, "-()->") == Ok(Some(""))
  {
    assert forall i: nat :: !OccursAt("", "-(", i) && !OccursAt("", ")->", i);
    LabelRoundTrip(dialect, "");
    assert "-(" + "" + ")->" == "-()->";
  }

  /** The legacy arrows are the current ones without `->`, decoded the same way. */
  lemma LegacyRefinesCurrent(arrow: string)
    ensures DecodeArrow(Legacy, arrow).Ok? ==> DecodeArrow(Current, arrow) == DecodeArrow(Legacy, arrow)
    ensures DecodeArrow(Legacy, arrow).Err? && DecodeArrow(Current, arrow).Ok? <==> arrow == "->"
  {
    assert "->"[..2] == "->" && "->"[1] != "-("[1];
  }

  /** A flow line's tokens taken as `(node, arrow, node)`; consecutive triples share a node. */
  datatype Triple = Triple(src: string, arrow: string, dst: string)

  /** The triples at token positions 0, 2, 4, ... that still have two tokens after them. */
  function Triples(parts: seq<string>): seq<Triple>
    decreases |parts|
  {
    if |parts| < 3 then [] else [Triple(parts[0], parts[1], parts[2])] + Triples(parts[2..])
  }

  /** A line of n tokens gives (n - 1) div 2 triples, none when it is blank. */
  lemma {:induction false} TriplesCount(parts: seq<string>)
    ensures |Triples(parts)| == if |parts| == 0 then 0 else (|parts| - 1) / 2
    decreases |parts|
  {
    if |parts| >= 3 {
      TriplesCount(parts[2..]);
    }
  }

  /** Triple j is made of tokens 2j, 2j+1 and 2j+2. */
  lemma {:induction false} TriplesAt(parts: seq<string>, j: nat)
    requires j < |Triples(parts)|
    ensures 2 * j + 2 < |parts|
    ensures Triples(parts)[j] == Triple(parts[2 * j], parts[2 * j + 1], parts[2 * j + 2])
    decreases |parts|
  {
    if j > 0 {
      TriplesAt(parts[2..], j - 1);
    }
  }

  /** An unpaired token at the end of a line with an odd number of tokens adds nothing. */
  lemma {:induction false} TrailingTokenIgnored(parts: seq<string>, extra: string)
    requires |parts| % 2 == 1
    ensures Triples(parts + [extra]) == Triples(parts)
    decreases |parts|
  {
    if |parts| >= 3 {
      assert (parts + [extra])[2..] == parts[2..] + [extra];
      TrailingTokenIgnored(parts[2..], extra);
    }
  }

  /** The triples of one flow line: `flow.strip().split()` walked two tokens at a time. */
  function LineTriples(flow: string): seq<Triple> {
    Triples(Words(Strip(flow)))
  }

  /** The triples of every line, line after line. */
  function AllTriples(flows: seq<string>): seq<Triple>
    decreases |flows|
  {
    if flows == [] then [] else LineTriples(flows[0]) + AllTriples(flows[1..])
  }

  /**
   * What distinguishes the three copies of the parser: how an arrow decodes,
   * whether a known node is stored again on each mention, and how a node and
   * an edge record are built.
   */
  datatype Rules<!N, E> = Rules(
    decode: string -> Result<Option<string>, Error>,
    overwrite: bool,
    mkNode: string -> N,
    mkEdge: (N, N, Option<string>) -> E)

  /** The `nodes` dictionary and the `edges` list while the lines are walked. */
  datatype Acc<N, E> = Acc(nodes: Dict<N>, edges: seq<E>)

  /** `nodes[name] = make(name)`, always or only when the name is new. */
  function Mention<N, E>(rules: Rules<N, E>, nodes: Dict<N>, name: string): (r: Dict<N>)
    ensures name in Keys(r)
    ensures forall k :: k in Keys(nodes) ==> k in Keys(r)
  {
    if rules.overwrite || name !in Keys(nodes) then Put(nodes, name, rules.mkNode(name)) else nodes
  }

  /** One triple: record both nodes, then decode the arrow and append the edge, or fail. */
  function Step<N, E>(rules: Rules<N, E>, acc: Acc<N, E>, t: Triple): Result<Acc<N, E>, Error> {
    var afterSrc := Mention(rules, acc.nodes, t.src);
    var afterDst := Mention(rules, afterSrc, t.dst);
    match rules.decode(t.arrow)
    case Err(e) => Err(e)
    case Ok(caption) =>
      Ok(Acc(afterDst, acc.edges + [rules.mkEdge(Get(afterDst, t.src), Get(afterDst, t.dst), caption)]))
  }

  lemma StepAccepted<N, E>(rules: Rules<N, E>, acc: Acc<N, E>, t: Triple, caption: Option<string>)
    requires rules.decode(t.arrow) == Ok(caption)
    ensures var nodes := Mention(rules, Mention(rules, acc.nodes, t.src), t.dst);
      Step(rules, acc, t) == Ok(Acc(nodes, acc.edges + [rules.mkEdge(Get(nodes, t.src), Get(nodes, t.dst), caption)]))
  {
  }

  lemma StepRejected<N, E>(rules: Rules<N, E>, acc: Acc<N, E>, t: Triple, e: Error)
    requires rules.decode(t.arrow) == Err(e)
    ensures Step(rules, acc, t) == Err(e)
  {
  }

  /**
   * The triples taken one step after the other, starting from the tables
   * `acc`; the first error ends the walk.
   */
  function Run<N, E>(rules: Rules<N, E>, acc: Acc<N, E>, ts: seq<Triple>): Result<Acc<N, E>, Error>
    decreases |ts|
  {
    if ts == [] then Ok(acc)
    else match Step(rules, acc, ts[0])
      case Err(e) => Err(e)
      case Ok(next) => Run(rules, next, ts[1..])
  }

  /** The walk of a non-empty run: its first step, then the rest from there. */
  lemma RunStep<N, E>(rules: Rules<N, E>, acc: Acc<N, E>, ts: seq<Triple>)
    requires ts != []
    ensures Run(rules, acc, ts) ==
      match Step(rules, acc, ts[0])
      case Err(e) => Err(e)
      case Ok(next) => Run(rules, next, ts[1..])
  {
  }

  /** Walking `a + b` is walking `a`, then walking `b` from where `a` ended, unless `a` failed. */
  lemma {:induction false} RunAppend<N, E>(rules: Rules<N, E>, acc: Acc<N, E>, a: seq<Triple>, b: seq<Triple>)
    ensures Run(rules, acc, a + b) ==
      match Run(rules, acc, a)
      case Err(e) => Err(e)
      case Ok(mid) => Run(rules, mid, b)
    decreases |a|
  {
    if a == [] {
      assert a + b == b;
    } else {
      assert (a + b)[0] == a[0] && (a + b)[1..] == a[1..] + b;
      match Step(rules, acc, a[0])
      case Err(_) =>
      case Ok(next) => RunAppend(rules, next, a[1..], b);
    }
  }

  /** Triple k exists exactly while the loop guard `i < len(parts) - 2` holds for i = 2k. */
  lemma {:induction false} TriplesBound(parts: seq<string>, k: nat)
    ensures k < |Triples(parts)| <==> 2 * k + 2 < |parts|
    decreases |parts|
  {
    if |parts| >= 3 && k > 0 {
      TriplesBound(parts[2..], k - 1);
    }
  }

  /** `if name not in nodes: nodes[name] = ...` (or the unconditional assignment of the legacy parsers). */
  method Remember<N, E>(rules: Rules<N, E>, nodes: Dict<N>, name: string) returns (r: Dict<N>)
    ensures r == Mention(rules, nodes, name)
  {
    r := nodes;
    if rules.overwrite || name !in Keys(nodes) {
      r := Put(nodes, name, rules.mkNode(name));
    }
  }

  /** The body of the inner loop: both nodes remembered, then the arrow decoded and the edge appended. */
  method WalkTriple<N, E>(rules: Rules<N, E>, nodes0: Dict<N>, edges0: seq<E>, src: string, arrow: string, dst: string)
    returns (r: Result<Acc<N, E>, Error>)
    ensures r == Step(rules, Acc(nodes0, edges0), Triple(src, arrow, dst))
  {
    var nodes := Remember(rules, nodes0, src);
    nodes := Remember(rules, nodes, dst);
    var caption: Option<string>;
    match rules.decode(arrow) {
      case Err(e) =>
        return Err(e);
      case Ok(l) =>
        caption := l;
    }
    var edges := edges0 + [rules.mkEdge(Get(nodes, src), Get(nodes, dst), caption)];
    return Ok(Acc(nodes, edges));
  }

  /**
   * The inner `while i < len(parts) - 2` loop over the tokens of one line,
   * continuing from the tables built for the lines before it.
   */
  method WalkLine<N, E>(rules: Rules<N, E>, parts: seq<string>, nodes0: Dict<N>, edges0: seq<E>)
    returns (r: Result<Acc<N, E>, Error>)
    ensures r == Run(rules, Acc(nodes0, edges0), Triples(parts))
  {
    var nodes, edges := nodes0, edges0;
    var i := 0;
    assert parts[i..] == parts;
    while i < |parts| - 2
      invariant 0 <= i <= |parts|
      invariant Run(rules, Acc(nodes, edges), Triples(parts[i..])) == Run(rules, Acc(nodes0, edges0), Triples(parts))
    {
      var src := parts[i];
      var arrow := parts[i + 1];
      var dst := parts[i + 2];
      ghost var rest := parts[i..];
      assert rest[0] == src && rest[1] == arrow && rest[2] == dst && rest[2..] == parts[i + 2..];
      assert Triples(rest) == [Triple(src, arrow, dst)] + Triples(parts[i + 2..]);
      RunStep(rules, Acc(nodes, edges), Triples(rest));
      var step := WalkTriple(rules, nodes, edges, src, arrow, dst);
      match step {
        case Err(e) =>
          return Err(e);
        case Ok(acc) =>
          nodes, edges := acc.nodes, acc.edges;
      }
      i := i + 2;
    }
    return Ok(Acc(nodes, edges));
  }

  /**
   * `for flow in flows: parts = flow.strip().split(); ...`: the parser's
   * outer loop, computing what `Run` specifies over the triples of all lines.
   */
  method ParseFlows<N, E>(rules: Rules<N, E>, flows: seq<string>) returns (r: Result<Acc<N, E>, Error>)
    ensures r == Run(rules, Acc([], []), AllTriples(flows))
  {
    var nodes: Dict<N> := [];
    var edges: seq<E> := [];
    var fi := 0;
    while fi < |flows|
      invariant 0 <= fi <= |flows|
      invariant Run(rules, Acc(nodes, edges), AllTriples(flows[fi..])) == Run(rules, Acc([], []), AllTriples(flows))
    {
      var parts := Words(Strip(flows[fi]));
      assert flows[fi..][0] == flows[fi] && flows[fi..][1..] == flows[fi + 1..];
      RunAppend(rules, Acc(nodes, edges), LineTriples(flows[fi]), AllTriples(flows[fi + 1..]));
      var walked := WalkLine(rules, parts, nodes, edges);
      match walked {
        case Err(e) =>
          return Err(e);
        case Ok(acc) =>
          nodes, edges := acc.nodes, acc.edges;
      }
      fi := fi + 1;
    }
    assert flows[fi..] == [];
    return Ok(Acc(nodes, edges));
  }

  /** The node names of the triples in the order the parser meets them: source, then destination. */
  function Mentions(ts: seq<Triple>): (ns: seq<string>)
    ensures |ns| == 2 * |ts|
    ensures forall j :: 0 <= j < |ts| ==> ns[2 * j] == ts[j].src && ns[2 * j + 1] == ts[j].dst
  {
    if ts == [] then [] else [ts[0].src, ts[0].dst] + Mentions(ts[1..])
  }

  /** The names list after meeting `n`: unchanged when known, extended at the end when new. */
  function AddName(names: seq<string>, n: string): seq<string> {
    if n in names then names else names + [n]
  }

  /** Meeting the names `ns` one after the other, starting from `names`. */
  function Extend(names: seq<string>, ns: seq<string>): seq<string>
    decreases |ns|
  {
    if ns == [] then names else Extend(AddName(names, ns[0]), ns[1..])
  }

  /** The distinct names of `ns` in the order of their first occurrence. */
  function FirstSeen(ns: seq<string>): seq<string> {
    Extend([], ns)
  }

  /** The node dictionary holding, for each name in order, the record built from it. */
  function NodeTable<N>(mk: string -> N, names: seq<string>): (d: Dict<N>)
    ensures Keys(d) == names
    ensures Values(d) == seq(|names|, i requires 0 <= i < |names| => mk(names[i]))
  {
    seq(|names|, i requires 0 <= i < |names| => (names[i], mk(names[i])))
  }

  /** Every arrow of the triples decodes. */
  predicate AllDecode<N, E>(rules: Rules<N, E>, ts: seq<Triple>) {
    forall j :: 0 <= j < |ts| ==> rules.decode(ts[j].arrow).Ok?
  }

  /** One edge per triple, in order, between the records of its two names, with its decoded label. */
  function EdgesOf<N, E>(rules: Rules<N, E>, ts: seq<Triple>): (es: seq<E>)
    requires AllDecode(rules, ts)
    ensures |es| == |ts|
  {
    seq(|ts|, j requires 0 <= j < |ts| && AllDecode(rules, ts) =>
      rules.mkEdge(rules.mkNode(ts[j].src), rules.mkNode(ts[j].dst), rules.decode(ts[j].arrow).value))
  }

  lemma {:induction false} DistinctAddName(names: seq<string>, n: string)
    requires Distinct(names)
    ensures Distinct(AddName(names, n))
  {
    if n !in names {
      DistinctSnoc(names, n);
    }
  }

  /** Looking a name up in a node table gives the record built from that name. */
  lemma {:induction false} GetTable<N>(mk: string -> N, names: seq<string>, n: string)
    requires n in names
    ensures Get(NodeTable(mk, names), n) == mk(n)
    decreases |names|
  {
    var d := NodeTable(mk, names);
    if names[0] != n {
      assert d[1..] == NodeTable(mk, names[1..]);
      GetTable(mk, names[1..], n);
    }
  }

  /** Mentioning a name in a node table gives the table of the names after meeting it, whatever `overwrite` says. */
  lemma MentionTable<N, E>(rules: Rules<N, E>, names: seq<string>, n: string)
    ensures Mention(rules, NodeTable(rules.mkNode, names), n) == NodeTable(rules.mkNode, AddName(names, n))
  {
    var d := NodeTable(rules.mkNode, names);
    if n in names {
      if rules.overwrite {
        GetTable(rules.mkNode, names, n);
        PutSame(d, n, rules.mkNode(n));
      }
    } else {
      assert d + [(n, rules.mkNode(n))] == NodeTable(rules.mkNode, names + [n]);
    }
  }

  /** One triple over a node table: the table of the names after meeting both, plus one edge between their records. */
  lemma StepTable<N, E>(rules: Rules<N, E>, names: seq<string>, edges: seq<E>, t: Triple)
    ensures var names2 := AddName(AddName(names, t.src), t.dst);
      Step(rules, Acc(NodeTable(rules.mkNode, names), edges), t) ==
        match rules.decode(t.arrow)
        case Err(e) => Err(e)
        case Ok(caption) =>
          Ok(Acc(NodeTable(rules.mkNode, names2),
                 edges + [rules.mkEdge(rules.mkNode(t.src), rules.mkNode(t.dst), caption)]))
  {
    var names1 := AddName(names, t.src);
    var names2 := AddName(names1, t.dst);
    MentionTable(rules, names, t.src);
    MentionTable(rules, names1, t.dst);
    assert t.src in names2 && t.dst in names2;
    GetTable(rules.mkNode, names2, t.src);
    GetTable(rules.mkNode, names2, t.dst);
  }

  lemma MentionsCons(ts: seq<Triple>)
    requires ts != []
    ensures Mentions(ts) == [ts[0].src, ts[0].dst] + Mentions(ts[1..])
  {
  }

  lemma ExtendPair(names: seq<string>, a: string, b: string, ns: seq<string>)
    ensures Extend(names, [a, b] + ns) == Extend(AddName(AddName(names, a), b), ns)
  {
    var ms := [a, b] + ns;
    assert ms[0] == a && ms[1..][0] == b && ms[1..][1..] == ns;
  }

  lemma AllDecodeCons<N, E>(rules: Rules<N, E>, ts: seq<Triple>)
    requires ts != []
    ensures AllDecode(rules, ts) <==> rules.decode(ts[0].arrow).Ok? && AllDecode(rules, ts[1..])
  {
    assert forall j :: 0 <= j < |ts[1..]| ==> ts[1..][j] == ts[j + 1];
  }

  lemma EdgesOfCons<N, E>(rules: Rules<N, E>, ts: seq<Triple>)
    requires ts != [] && AllDecode(rules, ts)
    ensures AllDecode(rules, ts[1..])
    ensures EdgesOf(rules, ts) ==
      [rules.mkEdge(rules.mkNode(ts[0].src), rules.mkNode(ts[0].dst), rules.decode(ts[0].arrow).value)]
        + EdgesOf(rules, ts[1..])
  {
    AllDecodeCons(rules, ts);
  }

  /**
   * Walking triples from a node table succeeds exactly when every arrow
   * decodes; it then holds one node per distinct name in order of first
   * mention and one edge per triple in order.
   */
  lemma {:induction false} RunTables<N, E>(rules: Rules<N, E>, names: seq<string>, edges: seq<E>, ts: seq<Triple>)
    ensures Run(rules, Acc(NodeTable(rules.mkNode, names), edges), ts).Ok? <==> AllDecode(rules, ts)
    ensures AllDecode(rules, ts) ==>
      Run(rules, Acc(NodeTable(rules.mkNode, names), edges), ts)
        == Ok(Acc(NodeTable(rules.mkNode, Extend(names, Mentions(ts))), edges + EdgesOf(rules, ts)))
    decreases |ts|
  {
    if ts == [] {
      assert edges + EdgesOf(rules, ts) == edges;
    } else {
      var t := ts[0];
      var names2 := AddName(AddName(names, t.src), t.dst);
      StepTable(rules, names, edges, t);
      AllDecodeCons(rules, ts);
      if rules.decode(t.arrow).Ok? {
        var edge := rules.mkEdge(rules.mkNode(t.src), rules.mkNode(t.dst), rules.decode(t.arrow).value);
        RunTables(rules, names2, edges + [edge], ts[1..]);
        if AllDecode(rules, ts) {
          MentionsCons(ts);
          ExtendPair(names, t.src, t.dst, Mentions(ts[1..]));
          EdgesOfCons(rules, ts);
          AppendAssoc(edges, [edge], EdgesOf(rules, ts[1..]));
        }
      }
    }
  }

  /** Meeting names never drops or reorders the ones already known. */
  lemma {:induction false} ExtendPrefix(names: seq<string>, ns: seq<string>)
    ensures |Extend(names, ns)| >= |names| && Extend(names, ns)[..|names|] == names
    decreases |ns|
  {
    if ns != [] {
      var next := AddName(names, ns[0]);
      ExtendPrefix(next, ns[1..]);
      assert next[..|names|] == names;
    }
  }

  /** After meeting `ns`, the known names are the old ones and those of `ns`. */
  lemma {:induction false} ExtendMembers(names: seq<string>, ns: seq<string>)
    ensures forall x :: x in Extend(names, ns) <==> x in names || x in ns
    decreases |ns|
  {
    if ns != [] {
      ExtendMembers(AddName(names, ns[0]), ns[1..]);
      assert ns == [ns[0]] + ns[1..];
    }
  }

  /** Meeting names never lists one twice. */
  lemma {:induction false} ExtendDistinct(names: seq<string>, ns: seq<string>)
    requires Distinct(names)
    ensures Distinct(Extend(names, ns))
    decreases |ns|
  {
    if ns != [] {
      DistinctAddName(names, ns[0]);
      ExtendDistinct(AddName(names, ns[0]), ns[1..]);
    }
  }

  /** Meeting one more name adds it at the end exactly when it is new. */
  lemma {:induction false} ExtendSnoc(names: seq<string>, ns: seq<string>, n: string)
    ensures Extend(names, ns + [n]) == AddName(Extend(names, ns), n)
    decreases |ns|
  {
    if ns == [] {
      assert ([] + [n])[1..] == [];
    } else {
      assert (ns + [n])[0] == ns[0] && (ns + [n])[1..] == ns[1..] + [n];
      ExtendSnoc(AddName(names, ns[0]), ns[1..], n);
    }
  }

  /** The node names of a parse: distinct, exactly those mentioned, and each new one appended when first met. */
  lemma FirstSeenFacts(ns: seq<string>)
    ensures Distinct(FirstSeen(ns))
    ensures forall x :: x in FirstSeen(ns) <==> x in ns
    ensures forall n :: FirstSeen(ns + [n]) == if n in ns then FirstSeen(ns) else FirstSeen(ns) + [n]
  {
    ExtendDistinct([], ns);
    ExtendMembers([], ns);
    forall n ensures FirstSeen(ns + [n]) == if n in ns then FirstSeen(ns) else FirstSeen(ns) + [n] {
      ExtendSnoc([], ns, n);
    }
  }

  /** When a walk fails, it fails on the first triple whose arrow does not decode, with that arrow's error. */
  lemma {:induction false} RunFirstError<N, E>(rules: Rules<N, E>, acc: Acc<N, E>, ts: seq<Triple>)
    requires Run(rules, acc, ts).Err?
    ensures exists j :: (0 <= j < |ts| && rules.decode(ts[j].arrow) == Err(Run(rules, acc, ts).error)
      && forall i :: 0 <= i < j ==> rules.decode(ts[i].arrow).Ok?)
    decreases |ts|
  {
    var e := Run(rules, acc, ts).error;
    if rules.decode(ts[0].arrow).Err? {
      StepRejected(rules, acc, ts[0], rules.decode(ts[0].arrow).error);
    } else {
      StepAccepted(rules, acc, ts[0], rules.decode(ts[0].arrow).value);
      var next := Step(rules, acc, ts[0]).value;
      assert Run(rules, next, ts[1..]) == Run(rules, acc, ts);
      RunFirstError(rules, next, ts[1..]);
      var j :| 0 <= j < |ts[1..]| && rules.decode(ts[1..][j].arrow) == Err(e)
        && forall i :: 0 <= i < j ==> rules.decode(ts[1..][i].arrow).Ok?;
      assert forall i :: 0 < i < j + 1 ==> ts[i] == ts[1..][i - 1];
      assert rules.decode(ts[j + 1].arrow) == Err(e);
    }
  }

  /**
   * What a parse produces from no nodes and no edges: it succeeds exactly when
   * every arrow decodes, and then holds one node per distinct name in order of
   * first mention and one edge per connection in order; otherwise it reports
   * the error of the first arrow that does not decode.
   */
  lemma RunFromEmpty<N, E>(rules: Rules<N, E>, ts: seq<Triple>)
    ensures Run(rules, Acc([], []), ts).Ok? <==> AllDecode(rules, ts)
    ensures AllDecode(rules, ts) ==>
      Run(rules, Acc([], []), ts) == Ok(Acc(NodeTable(rules.mkNode, FirstSeen(Mentions(ts))), EdgesOf(rules, ts)))
    ensures Run(rules, Acc([], []), ts).Err? ==>
      exists j :: (0 <= j < |ts| && rules.decode(ts[j].arrow) == Err(Run(rules, Acc([], []), ts).error)
        && forall i :: 0 <= i < j ==> rules.decode(ts[i].arrow).Ok?)
  {
    assert NodeTable(rules.mkNode, []) == [];
    RunTables(rules, [], [], ts);
    if AllDecode(rules, ts) {
      assert [] + EdgesOf(rules, ts) == EdgesOf(rules, ts);
    } else {
      RunFirstError(rules, Acc([], []), ts);
    }
  }

  /**
   * A successful walk from nothing holds one record per distinct name, in
   * order of first mention, each built from its name.
   */
  lemma RunNodes<N, E>(rules: Rules<N, E>, ts: seq<Triple>)
    requires Run(rules, Acc([], []), ts).Ok?
    ensures var nodes := Run(rules, Acc([], []), ts).value.nodes;
      var names := FirstSeen(Mentions(ts));
      && Keys(nodes) == names
      && Values(nodes) == seq(|names|, i requires 0 <= i < |names| => rules.mkNode(names[i]))
      && (forall x :: x in names <==> x in Mentions(ts))
      && (forall i, j :: 0 <= i < j < |names| ==> names[i] != names[j])
  {
    RunFromEmpty(rules, ts);
    var names := FirstSeen(Mentions(ts));
    FirstSeenFacts(Mentions(ts));
    forall i, j | 0 <= i < j < |names| ensures names[i] != names[j] {
      DistinctAt(names, i, j);
    }
  }
}
