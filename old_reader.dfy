/**
 * drawn/old_reader.py: the strict reader. Directives start from fixed
 * defaults, must hold exactly one colon and may only set four known keys;
 * flows are parsed before the directives are looked at.
 */
module OldReader {
  import opened Wrappers
  import opened Errors
  import opened Text
  import opened Dicts
  import opened Model
  import opened Flow
  import Classify = Reader

  /** The configuration `parse_config` starts from; `auto_shapes` keeps its default. */
  const Defaults: Config := Config(comment := "Flow", outputFile := "flow", outputFormat := "svg", theme := "light")

  /** The keys `parse_config` accepts. */
  const OldKeys: set<string> := {"theme", "output_file", "output_format", "comment"}

  /** What follows the marker of a trimmed line, trimmed. */
  function OldBody(line: string): string {
    Strip(RemovePrefix(Strip(line), "%"))
  }

  /**
   * `key, value = config_line.split(":")`: the unpacking fails unless the body
   * splits into exactly two pieces; both are trimmed.
   */
  function OldDirective(line: string): (r: Result<(string, string), Error>)
    ensures r.Err? <==> |SplitAll(OldBody(line), ":")| != 2
    ensures r.Err? ==> r.error == MalformedDirective(line)
    ensures r.Ok? ==> Trimmed(r.value.0) && Trimmed(r.value.1)
  {
    var parts := SplitAll(OldBody(line), ":");
    if |parts| != 2 then Err(MalformedDirective(line)) else Ok((Strip(parts[0]), Strip(parts[1])))
  }

  /** A directive is malformed exactly when its body has no colon or more than one. */
  lemma OneColon(line: string)
    ensures OldDirective(line).Ok? <==> Count(OldBody(line), ':') == 1
  {
    assert ":" == [':'];
    SplitAllCount(OldBody(line), ':');
  }

  /** A body with exactly one colon unpacks into the trimmed text before and after it. */
  lemma OldDirectiveOfBody(line: string, key: string, value: string)
    requires OldBody(line) == key + ":" + value && ':' !in key && ':' !in value
    ensures OldDirective(line) == Ok((Strip(key), Strip(value)))
  {
    assert ":" == [':'];
    SplitOneChar(key, ':', value);
  }

  /** The documented form `% key: value` unpacks into the key and the value. */
  lemma OldSpacedRoundTrip(key: string, value: string)
    requires key != [] && value != [] && Trimmed(key) && Trimmed(value) && ':' !in key && ':' !in value
    ensures OldDirective("% " + key + ": " + value) == Ok((key, value))
  {
    var line := "% " + key + ": " + value;
    Classify.SpacedBody(key, value);
    assert OldBody(line) == Classify.DirectiveBody(line);
    assert ':' !in " " + value;
    OldDirectiveOfBody(line, key, " " + value);
    Classify.StripSpace(value);
    StripTrimmed(value);
    StripTrimmed(key);
  }

  /** One accepted directive: the named field takes the value, every other field is kept; any other key is rejected. */
  function Apply(c: Config, key: string, value: string): (r: Result<Config, Error>)
    ensures r.Ok? <==> key in OldKeys
    ensures r.Err? ==> r.error == UnexpectedConfigKey(key)
  {
    if key == "theme" then Ok(c.(theme := value))
    else if key == "output_file" then Ok(c.(outputFile := value))
    else if key == "output_format" then Ok(c.(outputFormat := value))
    else if key == "comment" then Ok(c.(comment := value))
    else Err(UnexpectedConfigKey(key))
  }

  /** `auto_shapes` cannot be set here. */
  lemma AutoShapesRejected(c: Config, value: string)
    ensures Apply(c, "auto_shapes", value) == Err(UnexpectedConfigKey("auto_shapes"))
  {
  }

  /** What one directive line yields: its key and value, or the unpacking error. */
  type OldEntry = Result<(string, string), Error>

  /**
   * The loop of `parse_config`, with the reading of one line left as `read`:
   * the defaults updated line after line, or the first error.
   */
  function Fold(read: string -> OldEntry, lines: seq<string>): Result<Config, Error>
    decreases |lines|
  {
    if lines == [] then Ok(Defaults)
    else match Fold(read, lines[..|lines| - 1])
      case Err(e) => Err(e)
      case Ok(c) =>
        match read(lines[|lines| - 1])
        case Err(e) => Err(e)
        case Ok((key, value)) => Apply(c, key, value)
  }

  /** `parse_config` on the directive lines. */
  function OldConfig(lines: seq<string>): Result<Config, Error> {
    Fold(OldDirective, lines)
  }

  /** An entry that stops `parse_config`: a malformed line or an unknown key. */
  predicate Bad(e: OldEntry) {
    e.Err? || e.value.0 !in OldKeys
  }

  /** The error a bad entry raises. */
  function ErrorOf(e: OldEntry): Error
    requires Bad(e)
  {
    if e.Err? then e.error else UnexpectedConfigKey(e.value.0)
  }

  /** The value of the last line `read` maps to `key`, or `default` when there is none. */
  function LastOr(read: string -> OldEntry, lines: seq<string>, key: string, default: string): string
    decreases |lines|
  {
    if lines == [] then default
    else
      var e := read(lines[|lines| - 1]);
      if e.Ok? && e.value.0 == key then e.value.1
      else LastOr(read, lines[..|lines| - 1], key, default)
  }

  /**
   * `parse_config` fails exactly when some directive is bad, with the error
   * of the first bad one; otherwise each field holds the value of its last
   * directive or its default, and `auto_shapes` stays true.
   */
  lemma OldConfigSpec(lines: seq<string>)
    ensures OldConfig(lines).Ok? <==> forall i :: 0 <= i < |lines| ==> !Bad(OldDirective(lines[i]))
    ensures OldConfig(lines).Err? ==> exists i :: (0 <= i < |lines| && Bad(OldDirective(lines[i]))
      && OldConfig(lines).error == ErrorOf(OldDirective(lines[i]))
      && forall j :: 0 <= j < i ==> !Bad(OldDirective(lines[j])))
    ensures OldConfig(lines).Ok? ==> OldConfig(lines).value == Config(
      LastOr(OldDirective, lines, "comment", "Flow"), LastOr(OldDirective, lines, "output_file", "flow"),
      LastOr(OldDirective, lines, "output_format", "svg"), LastOr(OldDirective, lines, "theme", "light"), true)
  {
    FoldSpec(OldDirective, lines);
  }

  /** The same three facts for any reading of the lines. */
  lemma FoldSpec(read: string -> OldEntry, lines: seq<string>)
    ensures Fold(read, lines).Ok? <==> forall i :: 0 <= i < |lines| ==> !Bad(read(lines[i]))
    ensures Fold(read, lines).Err? ==> exists i :: (0 <= i < |lines| && Bad(read(lines[i]))
      && Fold(read, lines).error == ErrorOf(read(lines[i]))
      && forall j :: 0 <= j < i ==> !Bad(read(lines[j])))
    ensures Fold(read, lines).Ok? ==> Fold(read, lines).value == Config(
      LastOr(read, lines, "comment", "Flow"), LastOr(read, lines, "output_file", "flow"),
      LastOr(read, lines, "output_format", "svg"), LastOr(read, lines, "theme", "light"), true)
  {
    if Fold(read, lines).Ok? {
      OkAllGood(read, lines);
      LastValues(read, lines);
    } else {
      FirstBad(read, lines);
      if forall i :: 0 <= i < |lines| ==> !Bad(read(lines[i])) {
        AllGoodOk(read, lines);
      }
    }
  }

  /** The last line either fails, stops on an unknown key, or sets one field. */
  lemma FoldLast(read: string -> OldEntry, lines: seq<string>)
    requires lines != []
    ensures var init, e := lines[..|lines| - 1], read(lines[|lines| - 1]);
      Fold(read, lines) == if Fold(read, init).Err? then Fold(read, init)
        else if Bad(e) then Err(ErrorOf(e))
        else Apply(Fold(read, init).value, e.value.0, e.value.1)
  {
  }

  /** A successful `parse_config` met no bad directive. */
  lemma {:induction false} OkAllGood(read: string -> OldEntry, lines: seq<string>)
    requires Fold(read, lines).Ok?
    ensures forall i :: 0 <= i < |lines| ==> !Bad(read(lines[i]))
    decreases |lines|
  {
    if lines != [] {
      var init := lines[..|lines| - 1];
      FoldLast(read, lines);
      OkAllGood(read, init);
      forall i | 0 <= i < |lines| ensures !Bad(read(lines[i])) {
        if i < |init| {
          assert init[i] == lines[i];
        }
      }
    }
  }

  /** Without a bad directive `parse_config` succeeds. */
  lemma {:induction false} AllGoodOk(read: string -> OldEntry, lines: seq<string>)
    requires forall i :: 0 <= i < |lines| ==> !Bad(read(lines[i]))
    ensures Fold(read, lines).Ok?
    decreases |lines|
  {
    if lines != [] {
      var init := lines[..|lines| - 1];
      forall i | 0 <= i < |init| ensures !Bad(read(init[i])) {
        assert init[i] == lines[i];
      }
      AllGoodOk(read, init);
      FoldLast(read, lines);
    }
  }

  /** A failed `parse_config` reports the error of its first bad directive. */
  lemma {:induction false} FirstBad(read: string -> OldEntry, lines: seq<string>)
    requires Fold(read, lines).Err?
    ensures exists i :: (0 <= i < |lines| && Bad(read(lines[i]))
      && Fold(read, lines).error == ErrorOf(read(lines[i]))
      && forall j :: 0 <= j < i ==> !Bad(read(lines[j])))
    decreases |lines|
  {
    var init, last := lines[..|lines| - 1], lines[|lines| - 1];
    FoldLast(read, lines);
    if Fold(read, init).Err? {
      FirstBad(read, init);
      var i :| 0 <= i < |init| && Bad(read(init[i])) && Fold(read, init).error == ErrorOf(read(init[i]))
        && forall j :: 0 <= j < i ==> !Bad(read(init[j]));
      forall j | 0 <= j <= i ensures read(lines[j]) == read(init[j]) {
        assert init[j] == lines[j];
      }
    } else {
      OkAllGood(read, init);
      forall j | 0 <= j < |init| ensures !Bad(read(lines[j])) {
        assert init[j] == lines[j];
      }
      assert lines[|init|] == last;
    }
  }

  /** On success every field holds its last directive's value or its default. */
  lemma {:induction false} LastValues(read: string -> OldEntry, lines: seq<string>)
    requires Fold(read, lines).Ok?
    ensures Fold(read, lines).value == Config(
      LastOr(read, lines, "comment", "Flow"), LastOr(read, lines, "output_file", "flow"),
      LastOr(read, lines, "output_format", "svg"), LastOr(read, lines, "theme", "light"), true)
    decreases |lines|
  {
    if lines != [] {
      var init := lines[..|lines| - 1];
      FoldLast(read, lines);
      LastValues(read, init);
    }
  }

  /** One more line after a successful prefix: its error, or the update it makes. */
  lemma ConfigStep(lines: seq<string>, i: nat, c: Config)
    requires i < |lines| && OldConfig(lines[..i]) == Ok(c)
    ensures OldConfig(lines[..i + 1]) == match OldDirective(lines[i]) case Err(e) => Err(e) case Ok((key, value)) => Apply(c, key, value)
  {
    var prefix := lines[..i + 1];
    assert prefix[..|prefix| - 1] == lines[..i] && prefix[|prefix| - 1] == lines[i];
  }

  /** Once a prefix of the lines has failed, the whole of `parse_config` fails with the same error. */
  lemma {:induction false} FailureSticks(lines: seq<string>, n: nat)
    requires n <= |lines| && OldConfig(lines[..n]).Err?
    ensures OldConfig(lines) == OldConfig(lines[..n])
    decreases |lines| - n
  {
    if n < |lines| {
      var prefix := lines[..n + 1];
      assert prefix[..|prefix| - 1] == lines[..n];
      FailureSticks(lines, n + 1);
    } else {
      assert lines[..n] == lines;
    }
  }

  /** The walk of drawn/old_reader.py: legacy arrows, nodes without shape stored again on every mention. */
  function OldRules(): Rules<Node, Edge> {
    Rules(a => DecodeArrow(Legacy, a), true, n => Node(n, n), (s, d, c) => Edge(s, d, c))
  }

  /** `parse` over triples `ts`. */
  function ParseOf(ts: seq<Triple>): Result<(seq<Node>, seq<Edge>), Error> {
    match Run(OldRules(), Acc([], []), ts)
    case Err(e) => Err(e)
    case Ok(acc) => Ok((Values(acc.nodes), acc.edges))
  }

  /** `parse` fails exactly when some arrow is neither `-->` nor `-(L)->`, and then with the first such arrow. */
  lemma ParseAccepts(ts: seq<Triple>)
    ensures ParseOf(ts).Ok? <==> forall j :: 0 <= j < |ts| ==> DecodeArrow(Legacy, ts[j].arrow).Ok?
    ensures ParseOf(ts).Err? ==>
      exists j :: (0 <= j < |ts| && ParseOf(ts).error == MalformedArrow(ts[j].arrow)
        && DecodeArrow(Legacy, ts[j].arrow).Err?
        && forall i :: 0 <= i < j ==> DecodeArrow(Legacy, ts[i].arrow).Ok?)
  {
    var rules := OldRules();
    RunFromEmpty(rules, ts);
    if ParseOf(ts).Err? {
      var e := Run(rules, Acc([], []), ts).error;
      var j :| 0 <= j < |ts| && rules.decode(ts[j].arrow) == Err(e)
        && forall i :: 0 <= i < j ==> rules.decode(ts[i].arrow).Ok?;
      assert e == MalformedArrow(ts[j].arrow);
    }
  }

  /** On success, the distinct names in order of first mention, each a node labelled by its name with no shape. */
  lemma ParseNodes(ts: seq<Triple>)
    requires ParseOf(ts).Ok?
    ensures var nodes := ParseOf(ts).value.0;
      var names := FirstSeen(Mentions(ts));
      && nodes == seq(|names|, i requires 0 <= i < |names| => Node(names[i], names[i], None))
      && (forall x :: x in names <==> x in Mentions(ts))
      && (forall i, j :: 0 <= i < j < |nodes| ==> nodes[i].name != nodes[j].name)
  {
    RunNodes(OldRules(), ts);
  }

  /** On success, one edge per triple, in order, between the triple's two names, with its decoded label. */
  lemma ParseEdges(ts: seq<Triple>)
    requires ParseOf(ts).Ok?
    ensures forall j :: 0 <= j < |ts| ==> DecodeArrow(Legacy, ts[j].arrow).Ok?
    ensures var edges := ParseOf(ts).value.1;
      && |edges| == |ts|
      && forall j :: 0 <= j < |ts| ==> edges[j] == Edge(
           Node(ts[j].src, ts[j].src), Node(ts[j].dst, ts[j].dst), DecodeArrow(Legacy, ts[j].arrow).value)
  {
    RunFromEmpty(OldRules(), ts);
  }

  /** `read` on the lines of a file: flows parsed first, then the directives. */
  function ReadResult(lines: seq<string>): Result<DirectedGraph, Error> {
    match ParseOf(AllTriples(Classify.FlowLines(lines)))
    case Err(e) => Err(e)
    case Ok(graph) =>
      match OldConfig(Classify.ConfigLines(lines))
      case Err(e) => Err(e)
      case Ok(c) => Ok(DirectedGraph(graph.0, graph.1, c))
  }

  /** A malformed arrow is reported even when the directives are also wrong. */
  lemma FlowsFirst(lines: seq<string>)
    requires ParseOf(AllTriples(Classify.FlowLines(lines))).Err?
    ensures ReadResult(lines) == Err(ParseOf(AllTriples(Classify.FlowLines(lines))).error)
    ensures ReadResult(lines).error.MalformedArrow?
  {
    ParseAccepts(AllTriples(Classify.FlowLines(lines)));
  }

  class Reader {
    const filepath: string

    constructor(filepath: string)
      ensures this.filepath == filepath
    {
      this.filepath := filepath;
    }

    /** `parse_config`: starts from the defaults and updates one field per directive. */
    method ParseConfig(configLines: seq<string>) returns (r: Result<Config, Error>)
      ensures r == OldConfig(configLines)
    {
      var config := Defaults;
      for i := 0 to |configLines|
        invariant OldConfig(configLines[..i]) == Ok(config)
      {
        ConfigStep(configLines, i, config);
        var next := ReadDirective(config, configLines[i]);
        if next.Err? {
          r := next;
          FailureSticks(configLines, i + 1);
          return;
        }
        config := next.value;
      }
      assert configLines[..|configLines|] == configLines;
      r := Ok(config);
    }

    /** The body of the `parse_config` loop: unpack the directive, then set the field its key names. */
    method ReadDirective(config: Config, line: string) returns (r: Result<Config, Error>)
      ensures r == match OldDirective(line) case Err(e) => Err(e) case Ok((key, value)) => Apply(config, key, value)
    {
      var entry := OldDirective(line);
      if entry.Err? {
        return Err(entry.error);
      }
      var (key, value) := entry.value;
      if key == "theme" {
        r := Ok(config.(theme := value));
      } else if key == "output_file" {
        r := Ok(config.(outputFile := value));
      } else if key == "output_format" {
        r := Ok(config.(outputFormat := value));
      } else if key == "comment" {
        r := Ok(config.(comment := value));
      } else {
        r := Err(UnexpectedConfigKey(key));
      }
    }

    /** `parse`: walks every flow line. */
    method Parse(flows: seq<string>) returns (r: Result<(seq<Node>, seq<Edge>), Error>)
      ensures r == ParseOf(AllTriples(flows))
    {
      var walked := ParseFlows(OldRules(), flows);
      match walked
      case Err(e) =>
        r := Err(e);
      case Ok(acc) =>
        r := Ok((Values(acc.nodes), acc.edges));
    }

    /** `read`: sorts the trimmed lines into directives and flows, parses the flows, then the directives. */
    method Read(lines: seq<string>) returns (r: Result<DirectedGraph, Error>)
      ensures r == ReadResult(lines)
    {
      var flowLines, configLines := Classify.SortLines(lines);
      var graph := Parse(flowLines);
      match graph
      case Err(e) =>
        r := Err(e);
      case Ok(g) =>
        var config := ParseConfig(configLines);
        match config
        case Err(e) =>
          r := Err(e);
        case Ok(c) =>
          r := Ok(DirectedGraph(g.0, g.1, c));
    }
  }
}
