/**
 * drawn/reader.py: the current reader. Directive lines (`% key: value`) fill a
 * keyword dictionary that becomes a `Config`; every other line is a flow line
 * walked in (node, arrow, node) triples.
 */
module Reader {
  import opened Wrappers
  import opened Errors
  import opened Text
  import opened Dicts
  import opened Model
  import opened Flow

  /** Lines that `auto_shapes` reads as true, once lower-cased. */
  const Truthy: seq<string> := ["true", "yes", "1"]

  /** The value a directive stores: `auto_shapes` becomes a flag, every other key keeps its text. */
  function Coerce(key: string, value: string): (v: Value)
    ensures v.Flag? <==> key == "auto_shapes"
    ensures v.Flag? ==> (v.flag <==> Lower(value) in Truthy)
    ensures v.Text? ==> v.text == value
  {
    if key == "auto_shapes" then Flag(Lower(value) in Truthy) else Text(value)
  }

  /** A line is a directive when, once trimmed, it starts with the marker `%`. */
  predicate IsDirective(line: string) {
    StartsWith(Strip(line), "%")
  }

  /** What follows the marker, trimmed: the text that should read `key: value`. */
  function DirectiveBody(line: string): string {
    Strip(RemovePrefix(Strip(line), "%"))
  }

  /** The body split at its first colon, both halves trimmed; nothing when there is no colon. */
  function KeyValue(body: string): (r: Option<(string, string)>)
    ensures r.None? <==> ':' !in body
    ensures r.Some? ==> Trimmed(r.value.0) && Trimmed(r.value.1)
  {
    match FirstIndex(body, ':')
    case None => None
    case Some(i) => Some((Strip(body[..i]), Strip(body[i + 1..])))
  }

  /**
   * One line of `parse_config`: skipped unless it is a directive whose body
   * holds a colon; otherwise the trimmed text before the first colon is the
   * key and the trimmed rest is the value.
   */
  function Directive(line: string): (r: Option<(string, Value)>)
    ensures r.None? <==> !IsDirective(line) || ':' !in DirectiveBody(line)
    ensures r.Some? ==> Trimmed(r.value.0)
    ensures r.Some? ==> (r.value.1.Flag? <==> r.value.0 == "auto_shapes")
  {
    if !IsDirective(line) then None
    else match KeyValue(DirectiveBody(line))
      case None => None
      case Some((key, value)) => Some((key, Coerce(key, value)))
  }

  lemma FirstColon(key: string, value: string)
    requires ':' !in key
    ensures FirstIndex(key + ":" + value, ':') == Some(|key|)
  {
    var s := key + ":" + value;
    assert s[..|key|] == key;
    FirstIndexAt(s, ':', |key|);
  }

  /** A body is cut at its first colon: the key is the trimmed text before it, the value the trimmed text after it. */
  lemma KeyValuePadded(key: string, value: string)
    requires ':' !in key
    ensures KeyValue(key + ":" + value) == Some((Strip(key), Strip(value)))
  {
    var body := key + ":" + value;
    FirstColon(key, value);
    assert body[..|key|] == key && body[|key| + 1..] == value;
  }

  /**
   * A directive whose body reads `key: value`, with any padding around the
   * colon, yields the trimmed key and the coerced trimmed value.
   */
  lemma DirectiveOfBody(line: string, key: string, value: string)
    requires IsDirective(line) && DirectiveBody(line) == key + ":" + value && ':' !in key
    ensures Directive(line) == Some((Strip(key), Coerce(Strip(key), Strip(value))))
  {
    KeyValuePadded(key, value);
  }

  /** A leading space is dropped by `strip()`. */
  lemma StripSpace(s: string)
    ensures Strip(" " + s) == Strip(s)
  {
    assert (" " + s)[1..] == s;
  }

  /** The line `% key: value` is already trimmed, and the marker leaves ` key: value`. */
  lemma SpacedLine(key: string, value: string)
    requires value != [] && Trimmed(value)
    ensures Strip("% " + key + ": " + value) == "% " + key + ": " + value
    ensures RemovePrefix("% " + key + ": " + value, "%") == " " + (key + ": " + value)
  {
    var line := "% " + key + ": " + value;
    assert line == "%" + (" " + (key + ": " + value));
    assert line[0] == '%' && line[|line| - 1] == value[|value| - 1];
    StripTrimmed(line);
  }

  /** The line `% key: value` is a directive whose body is `key: value`. */
  lemma SpacedBody(key: string, value: string)
    requires key != [] && value != [] && Trimmed(key) && Trimmed(value)
    ensures IsDirective("% " + key + ": " + value)
    ensures DirectiveBody("% " + key + ": " + value) == key + ":" + (" " + value)
  {
    var body := key + ": " + value;
    SpacedLine(key, value);
    StripSpace(body);
    assert body[0] == key[0] && body[|body| - 1] == value[|value| - 1];
    StripTrimmed(body);
    ColonSpace(key, value);
  }

  lemma ColonSpace(key: string, value: string)
    ensures key + ": " + value == key + ":" + (" " + value)
  {
    assert ": " == ":" + " ";
  }

  /** The documented form `% key: value` reads back as the key and the coerced value. */
  lemma SpacedRoundTrip(key: string, value: string)
    requires key != [] && value != [] && Trimmed(key) && Trimmed(value) && ':' !in key
    ensures Directive("% " + key + ": " + value) == Some((key, Coerce(key, value)))
  {
    SpacedBody(key, value);
    DirectiveOfBody("% " + key + ": " + value, key, " " + value);
    StripSpace(value);
    StripTrimmed(value);
    StripTrimmed(key);
  }

  /** A directive written without padding reads back as the key and value it was written from. */
  lemma DirectiveRoundTrip(key: string, value: string)
    requires key != [] && Trimmed(key) && ':' !in key && Trimmed(value)
    ensures Directive("%" + key + ":" + value) == Some((key, Coerce(key, value)))
  {
    var body := key + ":" + value;
    var line := "%" + key + ":" + value;
    assert line == "%" + body;
    WrittenTrimmed(key, value);
    KeyValueWritten(key, value);
    MarkerBody(line, body);
    DirectiveParts(line, key, value);
  }

  /** `key: value` with a colon-free key splits back into the key and the value. */
  lemma KeyValueWritten(key: string, value: string)
    requires ':' !in key && Trimmed(key) && Trimmed(value)
    ensures KeyValue(key + ":" + value) == Some((key, value))
  {
    var body := key + ":" + value;
    FirstColon(key, value);
    assert body[..|key|] == key && body[|key| + 1..] == value;
    StripTrimmed(key);
    StripTrimmed(value);
  }

  lemma WrittenTrimmed(key: string, value: string)
    requires key != [] && Trimmed(key) && Trimmed(value)
    ensures Strip("%" + key + ":" + value) == "%" + key + ":" + value
    ensures Strip(key + ":" + value) == key + ":" + value
  {
    var body := key + ":" + value;
    assert body[0] == key[0];
    assert body[|body| - 1] == if value == [] then ':' else value[|value| - 1];
    StripTrimmed(body);
    var line := "%" + body;
    assert line == "%" + key + ":" + value;
    assert line[0] == '%' && line[|line| - 1] == body[|body| - 1];
    StripTrimmed(line);
  }

  /** A trimmed line made of the marker and a trimmed body is a directive with that body. */
  lemma MarkerBody(line: string, body: string)
    requires line == "%" + body && Strip(line) == line && Strip(body) == body
    ensures IsDirective(line) && DirectiveBody(line) == body
  {
    assert StartsWith(line, "%") && RemovePrefix(line, "%") == body;
  }

  /** A directive whose body reads as `key` and `value`. */
  lemma DirectiveParts(line: string, key: string, value: string)
    requires IsDirective(line) && KeyValue(DirectiveBody(line)) == Some((key, value))
    ensures Directive(line) == Some((key, Coerce(key, value)))
  {
  }

  /** What one line contributes: nothing, or a key with its value. */
  type Entry = Option<(string, Value)>

  /** The entries of the directive lines, line by line. */
  function Entries(lines: seq<string>): (es: seq<Entry>)
    ensures |es| == |lines|
    ensures forall i :: 0 <= i < |lines| ==> es[i] == Directive(lines[i])
    ensures Typed(es)
  {
    seq(|lines|, i requires 0 <= i < |lines| => Directive(lines[i]))
  }

  /** Only `auto_shapes` carries a flag. */
  predicate Typed(es: seq<Entry>) {
    forall i :: 0 <= i < |es| && es[i].Some? ==> (es[i].value.1.Flag? <==> es[i].value.0 == "auto_shapes")
  }

  /** `config_dict` after the entries: each one assigns its key, a later entry overwriting an earlier one. */
  function Assign(es: seq<Entry>): (d: Dict<Value>)
    ensures Valid(d)
    decreases |es|
  {
    if es == [] then []
    else
      var d := Assign(es[..|es| - 1]);
      match es[|es| - 1]
      case None => d
      case Some((k, v)) =>
        PutValid(d, k, v);
        Put(d, k, v)
  }

  /** The value of the last entry with key `k`, if any: the one `parse_config` keeps. */
  function LastValue(es: seq<Entry>, k: string): Option<Value>
    decreases |es|
  {
    if es == [] then None
    else if es[|es| - 1].Some? && es[|es| - 1].value.0 == k then Some(es[|es| - 1].value.1)
    else LastValue(es[..|es| - 1], k)
  }

  /** The dictionary holds exactly the keys some entry names, each with the value its last entry gives. */
  lemma {:induction false} AssignLast(es: seq<Entry>, k: string)
    ensures k in Keys(Assign(es)) <==> LastValue(es, k).Some?
    ensures k in Keys(Assign(es)) ==> Get(Assign(es), k) == LastValue(es, k).value
    decreases |es|
  {
    if es != [] {
      var init := es[..|es| - 1];
      var d := Assign(init);
      AssignLast(init, k);
      match es[|es| - 1]
      case None =>
        assert Assign(es) == d && LastValue(es, k) == LastValue(init, k);
      case Some((k', v)) =>
        assert Assign(es) == Put(d, k', v);
        if k' == k {
          assert LastValue(es, k) == Some(v);
        } else {
          assert LastValue(es, k) == LastValue(init, k);
          assert k in Keys(Put(d, k', v)) <==> k in Keys(d);
        }
    }
  }

  /** Some entry has key `k` exactly when a last one does, and the last one's value is a value some entry gives. */
  lemma {:induction false} LastValueSome(es: seq<Entry>, k: string)
    ensures LastValue(es, k).Some? <==> exists i :: 0 <= i < |es| && es[i].Some? && es[i].value.0 == k
    ensures LastValue(es, k).Some? ==> exists i :: 0 <= i < |es| && es[i] == Some((k, LastValue(es, k).value))
    decreases |es|
  {
    if es != [] {
      var init := es[..|es| - 1];
      LastValueSome(init, k);
      assert forall i :: 0 <= i < |init| ==> init[i] == es[i];
    }
  }

  /** Last write wins: the entry at `i` decides `k` when no later entry names `k`. */
  lemma {:induction false} LastWins(es: seq<Entry>, i: nat, k: string, v: Value)
    requires i < |es| && es[i] == Some((k, v))
    requires forall j :: i < j < |es| ==> es[j].None? || es[j].value.0 != k
    ensures LastValue(es, k) == Some(v)
    decreases |es|
  {
    if i < |es| - 1 {
      var init := es[..|es| - 1];
      assert init[i] == es[i];
      LastWins(init, i, k, v);
    }
  }

  /** Only `auto_shapes` holds a flag in the dictionary. */
  predicate TypedDict(d: Dict<Value>) {
    forall k :: k in Keys(d) ==> (Get(d, k).Flag? <==> k == "auto_shapes")
  }

  lemma AssignTyped(es: seq<Entry>)
    requires Typed(es)
    ensures TypedDict(Assign(es))
  {
    forall k | k in Keys(Assign(es)) ensures (Get(Assign(es), k).Flag? <==> k == "auto_shapes") {
      AssignLast(es, k);
      LastValueSome(es, k);
    }
  }

  /** `Config(**config_dict)`. */
  function KeywordsConfig(d: Dict<Value>): Result<Config, Error>
    requires TypedDict(d)
  {
    ConfigFromKeywords(ToMap(d))
  }

  /** `Config(**config_dict)` for the dictionary the entries build. */
  function ConfigOf(es: seq<Entry>): Result<Config, Error>
    requires Typed(es)
  {
    AssignTyped(es);
    KeywordsConfig(Assign(es))
  }

  /** `parse_config` on the directive lines. */
  function ParsedConfig(lines: seq<string>): Result<Config, Error> {
    ConfigOf(Entries(lines))
  }

  /**
   * `parse_config` succeeds exactly when every directive key is a field of
   * `Config` and the four fields without default are all given; each field
   * then holds its last directive's value, and `auto_shapes` defaults to true.
   * The only failure is an invalid configuration.
   */
  lemma ConfigOfSpec(es: seq<Entry>)
    requires Typed(es)
    ensures ConfigOf(es).Ok? <==>
      (forall k :: LastValue(es, k).Some? ==> k in Fields) &&
      (forall k :: k in Required ==> LastValue(es, k).Some?)
    ensures ConfigOf(es).Err? ==> ConfigOf(es).error == InvalidConfiguration
    ensures ConfigOf(es).Ok? ==>
      var c := ConfigOf(es).value;
      && LastValue(es, "comment") == Some(Text(c.comment))
      && LastValue(es, "output_file") == Some(Text(c.outputFile))
      && LastValue(es, "output_format") == Some(Text(c.outputFormat))
      && LastValue(es, "theme") == Some(Text(c.theme))
      && c.autoShapes == (LastValue(es, "auto_shapes").None? || LastValue(es, "auto_shapes") == Some(Flag(true)))
  {
    AssignTyped(es);
    var m := ToMap(Assign(es));
    MapOfAssign(es);
    assert m.Keys <= Fields <==> forall k :: LastValue(es, k).Some? ==> k in Fields;
    assert Required <= m.Keys <==> forall k :: k in Required ==> LastValue(es, k).Some?;
    if ConfigOf(es).Ok? {
      LastValueSome(es, "auto_shapes");
    }
  }

  /** The keywords `Config` receives: the keys some entry names, each with its last value. */
  lemma MapOfAssign(es: seq<Entry>)
    ensures forall k :: k in ToMap(Assign(es)) <==> LastValue(es, k).Some?
    ensures forall k :: k in ToMap(Assign(es)) ==> ToMap(Assign(es))[k] == LastValue(es, k).value
  {
    forall k ensures (k in ToMap(Assign(es)) <==> LastValue(es, k).Some?)
      && (k in ToMap(Assign(es)) ==> ToMap(Assign(es))[k] == LastValue(es, k).value)
    {
      AssignLast(es, k);
    }
  }

  /** An `auto_shapes` entry never makes the configuration fail: whatever came before, it only sets the flag. */
  lemma AutoShapesNeverFails(es: seq<Entry>, flag: bool)
    requires Typed(es)
    ensures var extended := es + [Some(("auto_shapes", Flag(flag)))];
      && Typed(extended)
      && (ConfigOf(extended).Ok? <==>
            (forall k :: LastValue(es, k).Some? ==> k in Fields) &&
            (forall k :: k in Required ==> LastValue(es, k).Some?))
      && (ConfigOf(extended).Ok? ==> ConfigOf(extended).value.autoShapes == flag)
  {
    var extended := es + [Some(("auto_shapes", Flag(flag)))];
    TypedSnoc(es, "auto_shapes", Flag(flag));
    ConfigOfSpec(extended);
    AutoShapesKeys(es, flag);
  }

  /** Appending an `auto_shapes` entry neither adds an unknown key nor supplies a required one. */
  lemma AutoShapesKeys(es: seq<Entry>, flag: bool)
    ensures var extended := es + [Some(("auto_shapes", Flag(flag)))];
      && ((forall k :: LastValue(extended, k).Some? ==> k in Fields) <==> (forall k :: LastValue(es, k).Some? ==> k in Fields))
      && ((forall k :: k in Required ==> LastValue(extended, k).Some?) <==> (forall k :: k in Required ==> LastValue(es, k).Some?))
  {
    var extended := es + [Some(("auto_shapes", Flag(flag)))];
    assert "auto_shapes" in Fields && "auto_shapes" !in Required;
    forall k ensures LastValue(extended, k).Some? <==> (k == "auto_shapes" || LastValue(es, k).Some?) {
      LastValueSnoc(es, "auto_shapes", Flag(flag), k);
    }
  }

  /** A later entry overrides only its own key. */
  lemma LastValueSnoc(es: seq<Entry>, key: string, v: Value, k: string)
    ensures LastValue(es + [Some((key, v))], k) == if k == key then Some(v) else LastValue(es, k)
  {
    assert (es + [Some((key, v))])[..|es|] == es;
  }

  lemma TypedSnoc(es: seq<Entry>, key: string, v: Value)
    requires Typed(es) && (v.Flag? <==> key == "auto_shapes")
    ensures Typed(es + [Some((key, v))])
  {
    assert forall i :: 0 <= i < |es| ==> (es + [Some((key, v))])[i] == es[i];
  }

  /** The node `parse` creates at the first sight of `name`: labelled by its name, shaped by name or by default. */
  function ShapedNode(autoShapes: bool, shapeOf: string -> string, name: string): (n: Node)
    ensures n.name == name && n.caption == name
    ensures n.shape == Some(if autoShapes then shapeOf(name) else shapeOf("default"))
  {
    Node(name, name, Some(shapeOf(if autoShapes then name else "default")))
  }

  /** The walk of drawn/reader.py: `-->` and `->` both accepted, a known node kept as first created. */
  function ReaderRules(autoShapes: bool, shapeOf: string -> string): Rules<Node, Edge> {
    Rules(
      a => DecodeArrow(Current, a),
      false,
      n => ShapedNode(autoShapes, shapeOf, n),
      (s, d, c) => Edge(s, d, c))
  }

  /** The pair `parse` returns: the values of the node dictionary and the edge list. */
  function Project(r: Result<Acc<Node, Edge>, Error>): Result<(seq<Node>, seq<Edge>), Error> {
    match r
    case Err(e) => Err(e)
    case Ok(acc) => Ok((Values(acc.nodes), acc.edges))
  }

  /** `parse` over triples `ts`: what it returns, from no nodes and no edges. */
  function ParseOf(autoShapes: bool, shapeOf: string -> string, ts: seq<Triple>): Result<(seq<Node>, seq<Edge>), Error> {
    Project(Run(ReaderRules(autoShapes, shapeOf), Acc([], []), ts))
  }

  /**
   * `parse` fails exactly when some arrow is malformed, and then with the
   * first such arrow; `-->`, `->` and `-(L)->` are all accepted.
   */
  lemma ParseAccepts(autoShapes: bool, shapeOf: string -> string, ts: seq<Triple>)
    ensures ParseOf(autoShapes, shapeOf, ts).Ok? <==> forall j :: 0 <= j < |ts| ==> DecodeArrow(Current, ts[j].arrow).Ok?
    ensures ParseOf(autoShapes, shapeOf, ts).Err? ==>
      exists j :: (0 <= j < |ts| && ParseOf(autoShapes, shapeOf, ts).error == MalformedArrow(ts[j].arrow)
        && DecodeArrow(Current, ts[j].arrow).Err?
        && forall i :: 0 <= i < j ==> DecodeArrow(Current, ts[i].arrow).Ok?)
  {
    var rules := ReaderRules(autoShapes, shapeOf);
    RunFromEmpty(rules, ts);
    if ParseOf(autoShapes, shapeOf, ts).Err? {
      var e := Run(rules, Acc([], []), ts).error;
      var j :| 0 <= j < |ts| && rules.decode(ts[j].arrow) == Err(e)
        && forall i :: 0 <= i < j ==> rules.decode(ts[i].arrow).Ok?;
      assert e == MalformedArrow(ts[j].arrow);
    }
  }

  /**
   * On success, one node per distinct name in order of first mention, each
   * labelled by its name and shaped by name or by default.
   */
  lemma ParseNodes(autoShapes: bool, shapeOf: string -> string, ts: seq<Triple>)
    requires ParseOf(autoShapes, shapeOf, ts).Ok?
    ensures var nodes := ParseOf(autoShapes, shapeOf, ts).value.0;
      var names := FirstSeen(Mentions(ts));
      && nodes == seq(|names|, i requires 0 <= i < |names| => ShapedNode(autoShapes, shapeOf, names[i]))
      && (forall x :: x in names <==> x in Mentions(ts))
      && (forall i, j :: 0 <= i < j < |nodes| ==> nodes[i].name != nodes[j].name)
  {
    RunNodes(ReaderRules(autoShapes, shapeOf), ts);
  }

  /**
   * On success, one edge per triple, in order, between the nodes of its two
   * names and with its decoded label.
   */
  lemma ParseEdges(autoShapes: bool, shapeOf: string -> string, ts: seq<Triple>)
    requires ParseOf(autoShapes, shapeOf, ts).Ok?
    ensures forall j :: 0 <= j < |ts| ==> DecodeArrow(Current, ts[j].arrow).Ok?
    ensures var edges := ParseOf(autoShapes, shapeOf, ts).value.1;
      && |edges| == |ts|
      && forall j :: 0 <= j < |ts| ==> edges[j] == Edge(
           ShapedNode(autoShapes, shapeOf, ts[j].src),
           ShapedNode(autoShapes, shapeOf, ts[j].dst),
           DecodeArrow(Current, ts[j].arrow).value)
  {
    RunFromEmpty(ReaderRules(autoShapes, shapeOf), ts);
  }

  /** Each line trimmed, as the classification loop sees it. */
  function Stripped(lines: seq<string>): (ts: seq<string>)
    ensures |ts| == |lines|
    ensures forall i :: 0 <= i < |lines| ==> ts[i] == Strip(lines[i]) && Trimmed(ts[i])
  {
    seq(|lines|, i requires 0 <= i < |lines| => Strip(lines[i]))
  }

  /** The lines starting with the marker, in order. */
  function Marked(ts: seq<string>): (r: seq<string>)
    ensures forall l :: l in r ==> l in ts && StartsWith(l, "%")
    decreases |ts|
  {
    if ts == [] then []
    else Marked(ts[..|ts| - 1]) + (if StartsWith(ts[|ts| - 1], "%") then [ts[|ts| - 1]] else [])
  }

  /** The lines not starting with the marker, blank ones included, in order. */
  function Unmarked(ts: seq<string>): (r: seq<string>)
    ensures forall l :: l in r ==> l in ts && !StartsWith(l, "%")
    decreases |ts|
  {
    if ts == [] then []
    else Unmarked(ts[..|ts| - 1]) + (if StartsWith(ts[|ts| - 1], "%") then [] else [ts[|ts| - 1]])
  }

  /** Classification keeps order: the config list of two batches of lines is the first batch's, then the second's. */
  lemma {:induction false} MarkedAppend(a: seq<string>, b: seq<string>)
    ensures Marked(a + b) == Marked(a) + Marked(b)
    decreases |b|
  {
    if b == [] {
      assert a + b == a;
    } else {
      var b', last := b[..|b| - 1], b[|b| - 1];
      var tail := if StartsWith(last, "%") then [last] else [];
      assert (a + b)[..|a + b| - 1] == a + b';
      assert (a + b)[|a + b| - 1] == last;
      assert Marked(a + b) == Marked(a + b') + tail;
      MarkedAppend(a, b');
      assert Marked(b) == Marked(b') + tail;
    }
  }

  /** The flow list of two batches of lines is the first batch's, then the second's. */
  lemma {:induction false} UnmarkedAppend(a: seq<string>, b: seq<string>)
    ensures Unmarked(a + b) == Unmarked(a) + Unmarked(b)
    decreases |b|
  {
    if b == [] {
      assert a + b == a;
    } else {
      var b', last := b[..|b| - 1], b[|b| - 1];
      var tail := if StartsWith(last, "%") then [] else [last];
      assert (a + b)[..|a + b| - 1] == a + b';
      assert (a + b)[|a + b| - 1] == last;
      assert Unmarked(a + b) == Unmarked(a + b') + tail;
      UnmarkedAppend(a, b');
      assert Unmarked(b) == Unmarked(b') + tail;
    }
  }

  /** A single line goes to the config list when it starts with `%`, otherwise to the flow list. */
  lemma ClassifyOne(l: string)
    ensures Marked([l]) == (if StartsWith(l, "%") then [l] else [])
    ensures Unmarked([l]) == (if StartsWith(l, "%") then [] else [l])
  {
    assert [l][..0] == [];
  }

  /** Every line goes to exactly one of the two lists, and nothing else does. */
  lemma {:induction false} Partition(ts: seq<string>)
    ensures |Marked(ts)| + |Unmarked(ts)| == |ts|
    ensures forall i :: 0 <= i < |ts| ==> if StartsWith(ts[i], "%") then ts[i] in Marked(ts) else ts[i] in Unmarked(ts)
    decreases |ts|
  {
    if ts != [] {
      var init, last := ts[..|ts| - 1], ts[|ts| - 1];
      Partition(init);
      assert Marked(ts) == Marked(init) + (if StartsWith(last, "%") then [last] else []);
      assert Unmarked(ts) == Unmarked(init) + (if StartsWith(last, "%") then [] else [last]);
      forall i | 0 <= i < |ts|
        ensures if StartsWith(ts[i], "%") then ts[i] in Marked(ts) else ts[i] in Unmarked(ts)
      {
        if i < |init| {
          assert init[i] == ts[i];
        }
      }
    }
  }

  /** One more line goes to the end of exactly one of the two lists. */
  lemma SortStep(ts: seq<string>, i: nat)
    requires i < |ts|
    ensures Marked(ts[..i + 1]) == Marked(ts[..i]) + (if StartsWith(ts[i], "%") then [ts[i]] else [])
    ensures Unmarked(ts[..i + 1]) == Unmarked(ts[..i]) + (if StartsWith(ts[i], "%") then [] else [ts[i]])
  {
    var prefix := ts[..i + 1];
    assert prefix[..|prefix| - 1] == ts[..i] && prefix[|prefix| - 1] == ts[i];
  }

  /** One more entry: assigned over the prefix's dictionary, if it is one. */
  lemma AssignStep(es: seq<Entry>, i: nat)
    requires i < |es|
    ensures Assign(es[..i + 1]) == match es[i]
      case None => Assign(es[..i])
      case Some((key, value)) => Put(Assign(es[..i]), key, value)
  {
    assert es[..i + 1][..i] == es[..i];
  }

  /** The trimmed directive lines of a file. */
  function ConfigLines(lines: seq<string>): seq<string> {
    Marked(Stripped(lines))
  }

  /** The trimmed flow lines of a file. */
  function FlowLines(lines: seq<string>): seq<string> {
    Unmarked(Stripped(lines))
  }

  /** The classification loop of `read`: each trimmed line appended to the directives or to the flows. */
  method SortLines(lines: seq<string>) returns (flowLines: seq<string>, configLines: seq<string>)
    ensures flowLines == FlowLines(lines) && configLines == ConfigLines(lines)
  {
    ghost var ts := Stripped(lines);
    flowLines := [];
    configLines := [];
    for i := 0 to |lines|
      invariant flowLines == Unmarked(ts[..i])
      invariant configLines == Marked(ts[..i])
    {
      SortStep(ts, i);
      var line := Strip(lines[i]);
      if !StartsWith(line, "%") {
        flowLines := flowLines + [line];
      } else {
        configLines := configLines + [line];
      }
    }
    assert ts[..|lines|] == ts;
  }

  /** `read` on the lines of a file: directives resolved first, then the flows parsed with the resulting `auto_shapes`. */
  function ReadResult(lines: seq<string>, shapeOf: string -> string): Result<DirectedGraph, Error> {
    match ParsedConfig(ConfigLines(lines))
    case Err(e) => Err(e)
    case Ok(c) =>
      match ParseOf(c.autoShapes, shapeOf, AllTriples(FlowLines(lines)))
      case Err(e) => Err(e)
      case Ok(graph) => Ok(DirectedGraph(graph.0, graph.1, c))
  }

  /** A configuration error stops `read` before any flow line is looked at. */
  lemma ConfigFirst(lines: seq<string>, shapeOf: string -> string)
    requires ParsedConfig(ConfigLines(lines)).Err?
    ensures ReadResult(lines, shapeOf) == Err(InvalidConfiguration)
  {
    ConfigOfSpec(Entries(ConfigLines(lines)));
  }

  class Reader {
    const filepath: string
    /** Unset until `Read` resolves the directives. */
    var config: Option<Config>

    constructor(filepath: string)
      ensures this.filepath == filepath && config == None
    {
      this.filepath := filepath;
      config := None;
    }

    /** `parse_config`: fills the keyword dictionary line by line, then builds the `Config`. */
    method ParseConfig(configLines: seq<string>) returns (r: Result<Config, Error>)
      ensures r == ParsedConfig(configLines)
    {
      ghost var es := Entries(configLines);
      var configDict: Dict<Value> := [];
      for i := 0 to |configLines|
        invariant configDict == Assign(es[..i])
      {
        AssignStep(es, i);
        assert es[i] == Directive(configLines[i]);
        match Directive(configLines[i])
        case None =>
        case Some((key, value)) =>
          configDict := Put(configDict, key, value);
      }
      assert es[..|configLines|] == es;
      AssignTyped(es);
      r := KeywordsConfig(configDict);
    }

    /** `parse`: walks the flows with the shapes `config.auto_shapes` selects. */
    method Parse(flows: seq<string>, shapeOf: string -> string) returns (r: Result<(seq<Node>, seq<Edge>), Error>)
      requires config.Some?
      ensures r == ParseOf(config.value.autoShapes, shapeOf, AllTriples(flows))
    {
      var walked := ParseFlows(ReaderRules(config.value.autoShapes, shapeOf), flows);
      r := Project(walked);
    }

    /**
     * `read`: sorts the trimmed lines into directives and flows, stores the
     * configuration in `config`, then parses the flows. A configuration
     * error leaves `config` as it was.
     */
    method Read(lines: seq<string>, shapeOf: string -> string) returns (r: Result<DirectedGraph, Error>)
      modifies this
      ensures r == ReadResult(lines, shapeOf)
      ensures config == if ParsedConfig(ConfigLines(lines)).Ok? then Some(ParsedConfig(ConfigLines(lines)).value) else old(config)
    {
      var flowLines, configLines := SortLines(lines);
      var parsed := ParseConfig(configLines);
      match parsed
      case Err(e) =>
        r := Err(e);
      case Ok(c) =>
        config := Some(c);
        var graph := Parse(flowLines, shapeOf);
        match graph
        case Err(e) =>
          r := Err(e);
        case Ok(g) =>
          r := Ok(DirectedGraph(g.0, g.1, c));
    }
  }
}
