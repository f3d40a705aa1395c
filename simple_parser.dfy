/**
 * drawn/parser.py: the earliest flow parser. A flow line is a chain of names
 * joined by " --> "; every name is linked to the one after it. Labels,
 * other arrows and configuration lines are not recognised here.
 */
module SimpleParser {
  import opened Text

  /** The only arrow this parser knows, with the spaces around it. */
  const Separator := " --> "

  /** The names of one flow line: the stripped line cut at every separator. */
  function Segments(flow: string): (r: seq<string>)
    ensures |r| >= 1
  {
    SplitAll(Strip(flow), Separator)
  }

  /** Every name paired with the name that follows it. */
  function Chain(names: seq<string>): (r: seq<(string, string)>)
    ensures |r| == if names == [] then 0 else |names| - 1
  {
    if |names| <= 1 then [] else [(names[0], names[1])] + Chain(names[1..])
  }

  /** The edges of lines already cut into names: each line's chain, line after line. */
  function Links(lines: seq<seq<string>>): seq<(string, string)> {
    if lines == [] then [] else Links(lines[..|lines| - 1]) + Chain(lines[|lines| - 1])
  }

  /** The edges of a list of flow lines. */
  function Pairs(flows: seq<string>): seq<(string, string)> {
    Links(seq(|flows|, i requires 0 <= i < |flows| => Segments(flows[i])))
  }

  /** The `i`-th link of a chain joins the `i`-th name to the next one. */
  lemma {:induction false} ChainIndex(names: seq<string>, i: nat)
    requires i + 1 < |names|
    ensures Chain(names)[i] == (names[i], names[i + 1])
  {
    if i > 0 {
      ChainIndex(names[1..], i - 1);
      assert Chain(names)[i] == Chain(names[1..])[i - 1];
    }
  }

  lemma ChainAt(names: seq<string>)
    ensures forall i :: 0 <= i < |Chain(names)| ==> Chain(names)[i] == (names[i], names[i + 1])
  {
    forall i | 0 <= i < |Chain(names)|
      ensures Chain(names)[i] == (names[i], names[i + 1])
    {
      ChainIndex(names, i);
    }
  }

  lemma ChainGrows(names: seq<string>, i: nat)
    requires i + 1 < |names|
    ensures Chain(names)[..i + 1] == Chain(names)[..i] + [(names[i], names[i + 1])]
  {
    var c := Chain(names);
    ChainIndex(names, i);
    assert c[..i + 1] == c[..i] + [c[i]];
  }

  /** Consecutive links share a name: the edges of a line form one path. */
  lemma ChainConnected(names: seq<string>)
    ensures forall i :: 0 <= i < |Chain(names)| - 1 ==> Chain(names)[i].1 == Chain(names)[i + 1].0
  {
    ChainAt(names);
  }

  /** The chain loses nothing: its tails followed by the last name give the names back. */
  lemma ChainRecovers(names: seq<string>)
    requires |names| >= 1
    ensures var c := Chain(names);
      names == seq(|c|, i requires 0 <= i < |c| => c[i].0) + [names[|names| - 1]]
  {
    ChainAt(names);
  }

  /** A line without the separator is a single name and yields no edge. */
  lemma NoArrowNoEdges(flow: string)
    requires !Contains(Strip(flow), Separator)
    ensures Segments(flow) == [Strip(flow)]
    ensures Chain(Segments(flow)) == []
  {
    SplitAllAbsent(Strip(flow), Separator);
  }

  /** Joining the names of a line with the separator gives the stripped line back. */
  lemma SegmentsJoin(flow: string)
    ensures Join(Segments(flow), Separator) == Strip(flow)
  {
    JoinSplitAll(Strip(flow), Separator);
  }

  /** Lines are parsed independently: the edges of two batches are the edges of each, in order. */
  lemma {:induction false} LinksAppend(a: seq<seq<string>>, b: seq<seq<string>>)
    ensures Links(a + b) == Links(a) + Links(b)
    decreases |b|
  {
    if b == [] {
      assert a + b == a;
    } else {
      var b', last := b[..|b| - 1], b[|b| - 1];
      assert (a + b)[..|a + b| - 1] == a + b';
      assert (a + b)[|a + b| - 1] == last;
      assert Links(a + b) == Links(a + b') + Chain(last);
      LinksAppend(a, b');
      assert Links(b) == Links(b') + Chain(last);
    }
  }

  lemma PairsAppend(a: seq<string>, b: seq<string>)
    ensures Pairs(a + b) == Pairs(a) + Pairs(b)
  {
    var sa := seq(|a|, i requires 0 <= i < |a| => Segments(a[i]));
    var sb := seq(|b|, i requires 0 <= i < |b| => Segments(b[i]));
    assert seq(|a + b|, i requires 0 <= i < |a + b| => Segments((a + b)[i])) == sa + sb;
    LinksAppend(sa, sb);
  }

  /** `parse`: for every line, the stripped line is split and each name is linked to the next. */
  method Parse(flows: seq<string>) returns (edges: seq<(string, string)>)
    ensures edges == Pairs(flows)
  {
    ghost var lines := seq(|flows|, i requires 0 <= i < |flows| => Segments(flows[i]));
    edges := [];
    for k := 0 to |flows|
      invariant edges == Links(lines[..k])
    {
      assert lines[..k + 1][..k] == lines[..k];
      var nodes := Segments(flows[k]);
      assert nodes == lines[k];
      edges := LinkNames(edges, nodes);
    }
    assert lines[..|flows|] == lines;
  }

  /** The inner loop of `parse`: each name of one line linked to the next, appended to `edges`. */
  method LinkNames(edges: seq<(string, string)>, nodes: seq<string>) returns (r: seq<(string, string)>)
    requires |nodes| >= 1
    ensures r == edges + Chain(nodes)
  {
    r := edges;
    for i := 0 to |nodes| - 1
      invariant r == edges + Chain(nodes)[..i]
    {
      ChainGrows(nodes, i);
      r := r + [(nodes[i], nodes[i + 1])];
    }
    assert Chain(nodes)[..|nodes| - 1] == Chain(nodes);
  }
}
