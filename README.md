# drawn, modelled in Dafny

`drawn` turns a small text format into Graphviz diagrams. A `.drawn` file
mixes two kinds of line:

- directive lines such as `% theme: dark`, which set the configuration;
- flow lines such as `Sun --> Earth -(warms)-> Moon`, which are chains of
  node names joined by arrows.

The reader splits the lines into these two groups. It then resolves the
directives into a `Config` and walks every flow line in overlapping
`(node, arrow, node)` triples. The nodes are collected by name and the
edges are kept in order. The compiler then asks Graphviz for one attribute
statement per theme default, one node statement per node and one edge
statement per edge.

This project models that front end, and the older variants of each piece
that still ship in the package:

| module | file | models |
|---|---|---|
| `Model` | digraph.dfy | the `Config`, `Node`, `Edge` and `DirectedGraph` records, and `Config(**kwargs)` |
| `Themes` | themes.dfy | the attribute tables and `get_theme` |
| `Flow` | flow.dfy | the triple walk that drawn/reader.py, drawn/old_reader.py and drawn/__init__.py share |
| `Reader` | reader.dfy | drawn/reader.py: `parse_config`, `parse`, and the classification loop of `read` |
| `LegacyParser` | legacy_parser.dfy | `Parser.parse` of drawn/__init__.py |
| `OldReader` | old_reader.dfy | drawn/old_reader.py |
| `SimpleParser` | simple_parser.dfy | drawn/parser.py |
| `Compiler` | compiler.dfy | drawn/compiler.py |
| `OldCompiler` | old_compiler.dfy | drawn/old_compiler.py |
| `Graphviz` | graphviz.dfy | the part of the graphviz `Digraph` object the compilers call |
| `Text`, `Dicts` | text.dfy, dicts.dfy | the Python string and dictionary operations the source relies on |

Python dictionaries keep insertion order, and the order of statements is
part of what the compilers produce. So a dictionary is an association list
`Dict<V> = seq<(string, V)>`:

- `Put` is `d[k] = v`: it overwrites in place, or appends a new key at the end.
- `Merge(a, b)` is `{**a, **b}`, which is the same as assigning the entries of
  `b` into `a` one after the other.

The three flow parsers are one walk, `Flow.Run`, over a `Rules` value. The
rules say how an arrow decodes, whether a known name is stored again on each
mention, and how the node and edge records are built. The loops of the
source are methods (`Flow.ParseFlows`, `Flow.WalkLine`, `Reader.SortLines`,
`Compiler.AddNodes`, ...). Each loop is proved equal to a function, and the
properties are proved about those functions.

The compilers update a `Graphviz.Digraph` object in place. It holds the
statement list and the node and edge default dictionaries. Its methods
(`Attr`, `SetNodeAttr`, `SetEdgeAttr`, `AddNode`, `AddEdge`) each append one
statement or assign one default, and `Source()` returns all of it as a
`Listing` value. The automatic shape picker of drawn/shapes.py is not part of
this model; it is the parameter `shapeOf`.

Every `ValueError` of the source is an `Err` (or a `Fail` for a setter)
carrying an `Errors.Error`. The error records which check raised it and,
except for `InvalidConfiguration`, the offending text.

## Model

| member | source | states |
|---|---|---|
| `Model.ConfigFromKeywords` | drawn/model/digraph.py:6-11 | `Config(**kwargs)` succeeds exactly when every keyword is one of the five fields and the four fields without a default are all given; otherwise it fails with an invalid-configuration error; on success comment, output_file, output_format and theme each hold their keyword's value, and `auto_shapes` holds its keyword's flag or true when absent |
| `Themes.GetTheme` | drawn/themes.py:46-55 | succeeds exactly for `light`, `dark` and `matrix`; any other name is rejected with that name |
| `Themes.ThemeNames` | drawn/themes.py:27-43 | `THEME_CONFIGS` holds the three themes, in the order light, dark, matrix |
| `Themes.ThemeConfigsLookup` | drawn/themes.py:53 | a known name selects its own table |
| `Themes.OwnAttributes` | drawn/themes.py:53 | `THEME_CONFIGS[theme]` is the light, dark or matrix table |
| `Themes.ThemeKeys` | drawn/themes.py:28-42 | every theme table sets the same keys: `bgcolor`; `fillcolor`, `fontcolor`, `color`; `color`, `fontcolor` |
| `Themes.ThemeSeparate` | drawn/themes.py:3-43 | in every category the theme keys are distinct and disjoint from the common keys |
| `Themes.MergeIsMergedFrom` | drawn/themes.py:51-54 | `{**common, **own}` holds exactly the keys of both, the theme's value wins on a key of the theme, the common value stays on the others, and the common keys come first in table order |
| `Themes.GetThemeMerges` | drawn/themes.py:49-54 | each of the three categories of a known theme is that merge of the common table and the theme's table |
| `Themes.GetThemeLayout` | drawn/themes.py:51-53 | since the keys never overlap, each category is the common entries followed by the theme's entries, both in table order |
| `Themes.MergeSeparate` | drawn/themes.py:51-53 | merging disjoint category tables appends them, category by category |
| `Themes.LayoutSizes` | drawn/themes.py:3-43 | a common table followed by a theme table has 7 graph, 8 node and 6 edge entries |
| `Themes.GetThemeSizes` | drawn/themes.py:46-55 | every theme yields 7 graph, 8 node and 6 edge attributes |
| `Themes.CommonValid` | drawn/themes.py:12-24 | the common node and edge tables name each key once |
| `Themes.GetThemeValid` | drawn/themes.py:49-54 | the node and edge defaults of every theme name each key once |
| `Flow.DecodeArrow` | drawn/reader.py:75-81 | an arrow decodes exactly when it is `-->`, `->` (current dialect only) or starts with `-(` and ends with `)->`; only the plain arrows decode to no label; anything else fails with that arrow |
| `Flow.NoOpenAfter` | drawn/reader.py:78 | `-(` does not occur in `L + ")->"` when it does not occur in `L` |
| `Flow.NoCloseBefore` | drawn/reader.py:78 | `)->` does not start inside `L` when `L` does not contain it |
| `Flow.LabelRoundTrip` | drawn/reader.py:77-79 | `-(L)->` decodes to label `L` whenever `L` contains neither delimiter |
| `Flow.EmptyLabel` | drawn/reader.py:78 | `-()->` decodes to the empty label, not to no label |
| `Flow.LabelUpToFirstDelimiter` | drawn/reader.py:78 | the label is the text after the opening `-(` up to whichever of `-(` or `)->` comes first, so `-(a-(b)->` is labelled `a` |
| `Flow.LegacyRefinesCurrent` | drawn/__init__.py:40-46 | the legacy arrows are the current ones minus `->`, and they decode the same way |
| `Flow.TriplesCount` | drawn/reader.py:56-58 | a line of n tokens gives (n - 1) div 2 triples, and none when it is blank |
| `Flow.TriplesAt` | drawn/reader.py:58-61 | triple j is made of tokens 2j, 2j+1 and 2j+2 |
| `Flow.TriplesBound` | drawn/reader.py:58 | triple k exists exactly when the guard `i < len(parts) - 2` holds for i = 2k |
| `Flow.TrailingTokenIgnored` | drawn/reader.py:58 | an unpaired token at the end of a line adds no triple |
| `Flow.Mention` | drawn/reader.py:63-74 | after a mention the name is known and no known name is lost |
| `Flow.RunAppend` | drawn/reader.py:55-83 | walking two batches of triples is walking the first, then the second from where the first ended, unless the first failed |
| `Flow.Remember` | drawn/reader.py:63-68 | the `if src not in nodes: nodes[src] = ...` statement, or the unconditional assignment of the legacy parsers, computes `Mention` |
| `Flow.WalkTriple` | drawn/reader.py:59-82 | one pass of the inner loop body computes one `Step` |
| `Flow.WalkLine` | drawn/reader.py:56-83 | the `while` loop over one line's tokens computes `Run` over that line's triples, continuing from the tables of the lines before |
| `Flow.ParseFlows` | drawn/reader.py:53-84 | the outer loop computes `Run` from empty tables over the triples of all lines, line after line |
| `Flow.Mentions` | drawn/reader.py:59-61 | the names in the order the walk meets them: source, then destination, per triple |
| `Flow.EdgesOf` | drawn/reader.py:82 | one edge per triple |
| `Flow.MentionTable` | drawn/reader.py:63-68 | on a table built from names, a mention gives the table of the names after meeting it, whether or not the parser overwrites |
| `Flow.StepTable` | drawn/reader.py:63-83 | one decoded triple over a table: the table of the names after meeting both ends, plus one edge between their records |
| `Flow.RunTables` | drawn/reader.py:55-83 | a walk succeeds exactly when every arrow decodes, and then ends with the table of the names met and one edge per triple |
| `Flow.ExtendPrefix` | drawn/reader.py:63-68 | meeting more names never drops or reorders the ones already known |
| `Flow.ExtendMembers` | drawn/reader.py:63-68 | the known names are the old ones and the new ones, nothing else |
| `Flow.ExtendDistinct` | drawn/reader.py:63-68 | no name is listed twice |
| `Flow.ExtendSnoc` | drawn/reader.py:63-68 | one more name is appended exactly when it is new |
| `Flow.FirstSeenFacts` | drawn/reader.py:63-74 | the node names are distinct and exactly those mentioned, and each new name is appended when first met |
| `Flow.RunFirstError` | drawn/reader.py:80-81 | a failed walk fails on the first triple whose arrow does not decode, with that arrow's error |
| `Flow.RunFromEmpty` | drawn/reader.py:52-84 | from empty tables, success exactly when every arrow decodes; then nodes in first-seen order and one edge per triple; on failure, the first bad arrow |
| `Flow.RunNodes` | drawn/reader.py:63-84 | the node values are the records of the distinct names in first-mention order, and no name repeats |
| `Reader.Coerce` | drawn/reader.py:42-43 | only `auto_shapes` becomes a flag, true exactly when its lower-cased value is `true`, `yes` or `1`; every other key keeps its text |
| `Reader.KeyValue` | drawn/reader.py:35-39 | a body without a colon is skipped; otherwise key and value are both trimmed |
| `Reader.KeyValuePadded` | drawn/reader.py:37-39 | a body `key:value` with a colon-free key, padded or not, gives the trimmed key and the trimmed value; the value may itself hold colons |
| `Reader.Directive` | drawn/reader.py:30-45 | a line is skipped exactly when, trimmed, it does not start with `%` or its body has no colon; the key is trimmed, and only `auto_shapes` carries a flag |
| `Reader.DirectiveOfBody` | drawn/reader.py:31-45 | a directive whose body reads `key:value`, with any padding around the colon, yields the trimmed key and the coerced trimmed value |
| `Reader.SpacedRoundTrip` | drawn/reader.py:31-45 | the documented form `% key: value`, with a trimmed colon-free key and a non-empty trimmed value, reads back as that key and the coerced value |
| `Reader.FirstColon` | drawn/reader.py:37 | `split(":", 1)` cuts at the first colon, which ends a colon-free key |
| `Reader.KeyValueWritten` | drawn/reader.py:37-39 | `key:value` with a colon-free key splits back into that key and value, and the value may hold colons |
| `Reader.WrittenTrimmed` | drawn/reader.py:31-34 | a directive written without padding is left unchanged by both `strip()` calls |
| `Reader.MarkerBody` | drawn/reader.py:32-34 | a trimmed `%` line is a directive, and its body is what follows the marker |
| `Reader.DirectiveRoundTrip` | drawn/reader.py:31-43 | `%key:value`, with a trimmed colon-free key and a trimmed value, reads back as that key and coerced value |
| `Reader.Entries` | drawn/reader.py:30-45 | one entry per directive line, read by `Directive`; only `auto_shapes` carries a flag |
| `Reader.Assign` | drawn/reader.py:29-45 | the `config_dict` the loop fills names each key once |
| `Reader.AssignLast` | drawn/reader.py:45 | `config_dict` holds exactly the keys some entry names, each with the value of its last entry |
| `Reader.LastValueSome` | drawn/reader.py:45 | a key has a last value exactly when some entry names it, and that value is one such entry's value |
| `Reader.LastWins` | drawn/reader.py:45 | the entry at `i` decides key `k` when no later entry names `k` |
| `Reader.AssignTyped` | drawn/reader.py:42-45 | in `config_dict` only `auto_shapes` holds a flag |
| `Reader.MapOfAssign` | drawn/reader.py:48 | the keywords `Config` receives are the keys some entry names, each with its last value |
| `Reader.ConfigOfSpec` | drawn/reader.py:47-50 | `parse_config` succeeds exactly when every key is a `Config` field and the four required fields are given; each field then holds its last directive's value; `auto_shapes` is true when absent; the only failure is an invalid configuration |
| `Reader.AutoShapesNeverFails` | drawn/reader.py:42-48 | an `auto_shapes` directive never causes the failure: the outcome depends only on the other directives, and on success the flag is the one given |
| `Reader.AutoShapesKeys` | drawn/reader.py:42-48 | adding an `auto_shapes` entry neither adds an unknown key nor supplies a required one |
| `Reader.TypedSnoc` | drawn/reader.py:42-45 | appending a well-typed entry keeps every flag on `auto_shapes` |
| `Reader.ShapedNode` | drawn/reader.py:63-74 | a new node is labelled by its name and shaped by `auto_shape(name)` when automatic shapes are on, else by `auto_shape("default")` |
| `Reader.ParseAccepts` | drawn/reader.py:75-81 | `parse` fails exactly when some arrow is malformed, and then with the first such arrow; `-->`, `->` and `-(L)->` are accepted |
| `Reader.ParseNodes` | drawn/reader.py:63-84 | on success, one node per distinct name, in first-mention order, each built at first sight; no name repeats |
| `Reader.ParseEdges` | drawn/reader.py:75-82 | on success, one edge per triple, in order, between the nodes of its two names, with its decoded label |
| `Reader.Stripped` | drawn/reader.py:92-93 | each line trimmed |
| `Reader.Marked` | drawn/reader.py:96-99 | the config list holds only input lines that start with `%` |
| `Reader.Unmarked` | drawn/reader.py:96-97 | the flow list holds only input lines that do not start with `%`, blank ones included |
| `Reader.Partition` | drawn/reader.py:92-99 | every trimmed line goes to exactly one of the two lists: the config list when it starts with `%`, otherwise the flow list |
| `Reader.MarkedAppend` | drawn/reader.py:92-99 | the config list of two batches of lines is the first batch's list followed by the second's, so file order is kept |
| `Reader.UnmarkedAppend` | drawn/reader.py:92-99 | the flow list of two batches of lines is the first batch's list followed by the second's |
| `Reader.ClassifyOne` | drawn/reader.py:96-99 | one line goes to the config list when it starts with `%` and to the flow list otherwise; with the two lemmas above this fixes both lists exactly, duplicates included |
| `Reader.SortLines` | drawn/reader.py:92-99 | the classification loop appends each trimmed line to the list its marker selects, keeping the order |
| `Reader.ConfigFirst` | drawn/reader.py:100-101 | a configuration error stops `read` before any flow line is looked at |
| `Reader.Reader.constructor` | drawn/reader.py:10-12 | the file path is kept and `config` is unset |
| `Reader.Reader.ParseConfig` | drawn/reader.py:14-50 | the loop that fills `config_dict`, followed by `Config(**config_dict)`, computes `ParsedConfig` |
| `Reader.Reader.Parse` | drawn/reader.py:52-84 | `parse` computes the walk with the current arrows and the configured shapes |
| `Reader.Reader.Read` | drawn/reader.py:86-107 | `read` returns the graph of the flow lines under the configuration of the directive lines, or the first error; `config` is set exactly when the configuration resolves |
| `LegacyParser.NamedNode` | drawn/__init__.py:37-38 | the node stored for a name is labelled by that name |
| `LegacyParser.ArrowsAccepted` | drawn/__init__.py:40-46 | `->` is rejected; `-->` has no label; `-(L)->` has label `L`, and `-()->` has the empty label |
| `LegacyParser.ParseAccepts` | drawn/__init__.py:40-46 | `parse` fails exactly when some arrow is neither `-->` nor labelled, and then with the first such arrow |
| `LegacyParser.ParseNodes` | drawn/__init__.py:37-49 | reassigning a known name keeps its place in the dictionary, so the nodes are the distinct names in first-mention order, each labelled by its name |
| `LegacyParser.ParseEdges` | drawn/__init__.py:40-47 | one edge per triple, in order, between the triple's outer names, with its decoded label |
| `LegacyParser.Parser.constructor` | drawn/__init__.py:24-25 | the flow lines are kept |
| `LegacyParser.Parser.Parse` | drawn/__init__.py:27-49 | `parse` computes the legacy walk over all flow lines |
| `OldReader.OldDirective` | drawn/old_reader.py:21-25 | `key, value = ....split(":")` fails unless the body splits into exactly two pieces; both are trimmed |
| `OldReader.OneColon` | drawn/old_reader.py:23 | a directive unpacks exactly when its body holds exactly one colon |
| `OldReader.OldDirectiveOfBody` | drawn/old_reader.py:21-25 | a body with exactly one colon unpacks into the trimmed text before it and the trimmed text after it |
| `OldReader.OldSpacedRoundTrip` | drawn/old_reader.py:21-25 | the documented form `% key: value`, with trimmed colon-free key and value, unpacks into that key and value |
| `OldReader.Apply` | drawn/old_reader.py:26-35 | only `theme`, `output_file`, `output_format` and `comment` are accepted; each sets its own field, unvalidated, and keeps the others; any other key fails with that key |
| `OldReader.AutoShapesRejected` | drawn/old_reader.py:34-35 | `auto_shapes` is rejected like any other unknown key |
| `OldReader.OldConfigSpec` | drawn/old_reader.py:12-38 | `parse_config` fails exactly when some directive is malformed or has an unknown key, with the error of the first such one; otherwise each field holds its last directive's value or its default (Flow, flow, svg, light), and `auto_shapes` stays true |
| `OldReader.FoldSpec` | drawn/old_reader.py:14-35 | the same three facts for any way of reading one line |
| `OldReader.OkAllGood` | drawn/old_reader.py:20-35 | a successful `parse_config` met no bad directive |
| `OldReader.AllGoodOk` | drawn/old_reader.py:20-35 | without a bad directive `parse_config` succeeds |
| `OldReader.FirstBad` | drawn/old_reader.py:20-35 | a failed `parse_config` reports the error of its first bad directive, and every directive before that one is good |
| `OldReader.LastValues` | drawn/old_reader.py:14-33 | on success every field holds its last directive's value or its default |
| `OldReader.ConfigStep` | drawn/old_reader.py:20-35 | one more line after a successful prefix raises its error or makes its update |
| `OldReader.FailureSticks` | drawn/old_reader.py:35 | once a prefix has failed, `parse_config` fails with the same error |
| `OldReader.ParseAccepts` | drawn/old_reader.py:53-59 | `parse` fails exactly when some arrow is neither `-->` nor labelled, and then with the first such arrow |
| `OldReader.ParseNodes` | drawn/old_reader.py:50-62 | on success, the distinct names in first-mention order, each a node labelled by its name, with no shape |
| `OldReader.ParseEdges` | drawn/old_reader.py:53-60 | on success, one edge per triple, in order, between the triple's two names, with its decoded label |
| `OldReader.FlowsFirst` | drawn/old_reader.py:79-80 | flows are parsed first, so a malformed arrow is reported even when the directives are also wrong |
| `OldReader.Reader.constructor` | drawn/old_reader.py:9-10 | the file path is kept |
| `OldReader.Reader.ParseConfig` | drawn/old_reader.py:12-38 | the loop that starts from the defaults and updates one field per line computes `OldConfig` |
| `OldReader.Reader.ReadDirective` | drawn/old_reader.py:21-35 | one pass of the loop body unpacks the directive, then sets the field its key names, or raises |
| `OldReader.Reader.Parse` | drawn/old_reader.py:40-62 | `parse` computes the legacy walk with nodes stored again on every mention |
| `OldReader.Reader.Read` | drawn/old_reader.py:64-86 | `read` sorts the lines, parses the flows, then the directives, and returns the first error or the graph |
| `SimpleParser.Segments` | drawn/parser.py:14 | a line always splits into at least one segment |
| `SimpleParser.Chain` | drawn/parser.py:15-16 | k segments give k - 1 edges |
| `SimpleParser.ChainIndex` | drawn/parser.py:15-16 | edge i joins segment i to segment i + 1 |
| `SimpleParser.ChainAt` | drawn/parser.py:15-16 | every edge joins a segment to the next |
| `SimpleParser.ChainConnected` | drawn/parser.py:15-16 | within a line, edge i's destination is edge i+1's source |
| `SimpleParser.ChainRecovers` | drawn/parser.py:14-16 | the sources of a line's edges followed by its last segment give back every segment, unchanged |
| `SimpleParser.NoArrowNoEdges` | drawn/parser.py:14-15 | a line without `" --> "`, a blank one included, is one segment and yields no edge |
| `SimpleParser.SegmentsJoin` | drawn/parser.py:14 | joining a line's segments with `" --> "` gives the trimmed line back, so segments are kept verbatim |
| `SimpleParser.LinksAppend` | drawn/parser.py:13-17 | the edges of two batches of lines are the edges of the first followed by those of the second |
| `SimpleParser.PairsAppend` | drawn/parser.py:13-17 | output order is line order, then left to right within a line |
| `SimpleParser.Parse` | drawn/parser.py:6-17 | the nested loops compute `Pairs` of the lines |
| `SimpleParser.LinkNames` | drawn/parser.py:15-16 | the inner loop appends the chain of one line to the edges so far |
| `Compiler.NodeAttrs` | drawn/compiler.py:38-44 | a node statement has exactly two keyword arguments, `label` then `shape` |
| `Compiler.EdgeAttrs` | drawn/compiler.py:50-53 | an edge statement carries `xlabel` exactly when the label is present and non-empty, and then carries the label |
| `Compiler.Emission` | drawn/compiler.py:16-55 | `compile` succeeds exactly for a known theme, fails with the theme's name otherwise, and keeps the configured comment |
| `Compiler.EmissionLayout` | drawn/compiler.py:34-53 | the node and edge defaults are the theme's tables; the body is the 7 graph attributes in `get_theme` order, then one statement per node in list order, named by the node, with its label and emitted shape, then one statement per edge in list order, from `src.name` to `dst.name` |
| `Compiler.EmitLayout` | drawn/compiler.py:37-53 | the same layout for any attribute tables |
| `Compiler.StatementOrder` | drawn/compiler.py:34-53 | graph attribute statements come before node statements, and node statements before edge statements |
| `Compiler.EmitOrder` | drawn/compiler.py:34-53 | the same order for any attribute tables |
| `Compiler.StoredShapeIgnored` | drawn/compiler.py:37-46 | the shape stored in a node record plays no part in the output |
| `Compiler.EmptyLabelDropped` | drawn/compiler.py:50-53 | an edge with the empty label is emitted like one without a label |
| `Compiler.ApplyAttributes` | drawn/compiler.py:97-118 | an unknown theme is rejected before anything is set; otherwise the graph attributes are appended in order and the node and edge defaults assigned key by key |
| `Compiler.AddGraphAttrs` | drawn/compiler.py:113-114 | one `attr` statement per graph attribute, in table order |
| `Compiler.SetNodeDefaults` | drawn/compiler.py:115-116 | `node_attr[key] = value` per node default, in table order |
| `Compiler.SetEdgeDefaults` | drawn/compiler.py:117-118 | `edge_attr[key] = value` per edge default, in table order |
| `Compiler.ShapeAssigned` | drawn/compiler.py:38-44 | assigning the shape after the label gives the two keyword arguments in that order |
| `Compiler.DefaultsFromEmpty` | drawn/compiler.py:28-34 | the theme's defaults assigned into a new graph's empty dictionaries are the theme's tables |
| `Compiler.AddNodes` | drawn/compiler.py:37-46 | the node loop appends one statement per node, in order |
| `Compiler.AddEdges` | drawn/compiler.py:49-53 | the edge loop appends one statement per edge, in order |
| `Compiler.Populate` | drawn/compiler.py:28-53 | a new graph populated by `_apply_attributes` and the two loops holds exactly the `Emission`, or the theme error |
| `Compiler.Compile` | drawn/compiler.py:16-55 | `compile` returns `Emission` |
| `Compiler.Render` | drawn/compiler.py:58-94 | `render` hands Graphviz the same statements as `compile`, with the configured format and output file, or fails with the same error |
| `OldCompiler.GraphPalette` | drawn/old_compiler.py:20-27 | a background is added exactly for a known theme |
| `OldCompiler.NodePalette` | drawn/old_compiler.py:35-48 | node colours are set exactly for a known theme |
| `OldCompiler.EdgePalette` | drawn/old_compiler.py:55-65 | edge colours are set exactly for a known theme |
| `OldCompiler.SettersMatchThemes` | drawn/old_compiler.py:13-65 | for every known theme, the graph, node and edge attributes the setters write are those of `get_theme`, values and order |
| `OldCompiler.CompileResult` | drawn/old_compiler.py:67-82 | `compile` succeeds exactly for a known theme and fails with that theme's name otherwise |
| `OldCompiler.AddedPositions` | drawn/old_compiler.py:67-81 | one `compile` adds the six layout attributes at positions 0-5, and for a known theme also the background at 6, node i's labelled statement at 7 + i and edge j's statement after all nodes: 7 + nodes + edges statements; for an unknown theme only the six |
| `OldCompiler.UnshapedEmit` | drawn/old_compiler.py:75-76 | the new compiler's statements without node shapes are the old compiler's statements |
| `OldCompiler.AgreesWithCompiler` | drawn/old_compiler.py:67-82 | on a new compiler, the old and new `compile` agree on the comment, every default and every statement, except that the new one adds a shape to each node |
| `OldCompiler.FreshCompile` | drawn/old_compiler.py:67-82 | a new compiler ends with the theme's tables as defaults, and the graph attributes come first |
| `OldCompiler.CompileTwice` | drawn/old_compiler.py:67-82 | `compile` only adds: a second call leaves the defaults as they were and appends the same statements again |
| `OldCompiler.Compiler.constructor` | drawn/old_compiler.py:7-11 | a new graph with the configured comment and format and nothing else |
| `OldCompiler.Compiler.SetGraphAttributes` | drawn/old_compiler.py:13-27 | appends dpi 300, rankdir TB, splines ortho, pad 0.2, nodesep 1 and ranksep 0.8, then the theme's background; fails exactly for an unknown theme, after the six layout attributes |
| `OldCompiler.Compiler.SetNodeAttributes` | drawn/old_compiler.py:29-48 | assigns the five shared node defaults, then the theme's three colours; fails exactly for an unknown theme |
| `OldCompiler.Compiler.SetNodeColours` | drawn/old_compiler.py:35-48 | the `if`/`elif` chain assigns fillcolor, fontcolor and color for a known theme, or fails |
| `OldCompiler.Compiler.SetEdgeAttributes` | drawn/old_compiler.py:50-65 | assigns the four shared edge defaults, then the theme's two colours; fails exactly for an unknown theme |
| `OldCompiler.Compiler.SetEdgeColours` | drawn/old_compiler.py:55-65 | the `if`/`elif` chain assigns color and fontcolor for a known theme, or fails |
| `OldCompiler.Compiler.Compile` | drawn/old_compiler.py:67-82 | graph, node and edge attributes in that order, stopping at the first error, then a labelled statement per node and a statement per edge; the object keeps everything added |
| `OldCompiler.Compiler.AddLabelledNodes` | drawn/old_compiler.py:75-76 | one statement per node, in order, with its label and no shape |
| `OldCompiler.Compiler.Render` | drawn/old_compiler.py:84-86 | `render` compiles, then hands the result to Graphviz with the configured file name and format, or fails exactly for an unknown theme; either way `dot` keeps everything that `compile` added to it, the six layout attributes included on failure |
| `Text.Strip` | drawn/reader.py:31 | `strip()` leaves no whitespace at either end and never lengthens the string |
| `Text.StripTrimmed` | drawn/reader.py:34 | `strip()` of a string without surrounding whitespace is the string itself |
| `Text.Words` | drawn/reader.py:56 | `split()` gives non-empty, whitespace-free words |
| `Text.WordsKeepVisible` | drawn/reader.py:56 | `split()` loses exactly the whitespace: the words glued together are the visible characters, in order |
| `Text.WordsAtSpace` | drawn/reader.py:56 | `split()` breaks at every whitespace character: the words of `a + c + b` for a whitespace `c` are the words of `a` followed by those of `b` |
| `Text.WordsSingle` | drawn/reader.py:56 | a non-empty run without whitespace is one word |
| `Text.WordsJoin` | drawn/reader.py:56 | tokens written with single spaces between them split back into exactly those tokens, so `A --> B` gives `A`, `-->`, `B` |
| `Text.RemovePrefix` | drawn/reader.py:34 | `removeprefix` drops the prefix when it is there and changes nothing otherwise |
| `Text.Lower` | drawn/reader.py:43 | `lower()` maps each character and keeps the length |
| `Text.FirstIndex` | drawn/reader.py:37 | the first occurrence of a character, or none when the character is absent |
| `Text.JoinSplitAll` | drawn/parser.py:14 | `split(sep)` loses nothing: joining the pieces with `sep` gives the string back |
| `Text.SplitAllCount` | drawn/old_reader.py:23 | splitting on one character gives one piece more than there are occurrences |
| `Text.SplitOneChar` | drawn/old_reader.py:23 | a string with exactly one occurrence of a character splits on it into the text before and the text after |
| `Text.SplitAllAbsent` | drawn/parser.py:14 | without the separator, `split` returns the whole string as its only piece |
| `Dicts.Put` | drawn/reader.py:45 | `d[k] = v` keeps the key order, appending a new key at the end; `k` then maps to `v`, and every other key is unchanged |
| `Dicts.MergeSnoc` | drawn/compiler.py:115-116 | assigning one more entry is one more `d[k] = v` |
| `Dicts.MergeAppend` | drawn/old_compiler.py:30-45 | assigning `x + y` is assigning `x`, then `y` |
| `Dicts.MergeTwice` | drawn/old_compiler.py:71-73 | assigning the same well-formed entries twice is assigning them once |
| `Dicts.MergeDisjoint` | drawn/themes.py:51-53 | with no key in common, `{**a, **b}` appends `b` after `a` |
| `Dicts.MergeKeys` | drawn/themes.py:51-53 | `{**a, **b}` has the keys of both, those of `a` first and in their old places |
| `Dicts.MergeGetRight` | drawn/themes.py:53 | in `{**a, **b}` every key of `b` takes `b`'s value |
| `Dicts.MergeGetLeft` | drawn/themes.py:52 | in `{**a, **b}` a key of `a` that `b` lacks keeps `a`'s value |
| `Dicts.MergeIntoEmpty` | drawn/compiler.py:115-118 | assigning a well-formed table into an empty dictionary gives the table back |
| `Dicts.ToMap` | drawn/reader.py:48 | `Config(**d)` receives exactly the keys of `d`, each with its value |
| `Dicts.Values` | drawn/reader.py:84 | `nodes.values()` lists the values in key order |

## Left out

- Reading files is not part of this model: `open`/`readlines` in drawn/reader.py, drawn/old_reader.py and `read_file` in drawn/parser.py. `read` takes the file's lines as a sequence.
- DOT text is not part of this model. Graphviz's quoting and formatting of `.source` and the file written by `dot.render` are not modelled. The `Digraph` object is an ordered statement list with two default dictionaries, and `render` returns what it would hand to Graphviz.
- drawn/shapes.py is not part of this model: `get_auto_shape_for_node` is the parameter `shapeOf`, with no assumption about the shapes it picks.
- drawn/render.py, drawn/cli.py, main.py and the graphviz `Compiler` of drawn/__init__.py are not modelled: they are file-writing and command-line glue.
- The `print(config)` call of drawn/old_reader.py is output only and is not modelled.
- Text.Lower: lower-cases ASCII letters only; Python's full Unicode case mapping is not modelled. The three accepted `auto_shapes` words are ASCII, but a non-ASCII value whose Unicode lower-casing is one of them would be read differently.
- Reader.Reader.Parse: requires `config` to be set. The source reads `self.config.auto_shapes` and raises `AttributeError` when `parse` runs before `parse_config` on a line with a triple; that error is not modelled.
- Exception messages are not modelled: each `ValueError` is an `Errors.Error` that records the check and, for arrows, directives, keys and themes, the offending text. The `TypeError` that `Config(**d)` raises is folded into `InvalidConfiguration`.
- `InvalidConfiguration` carries no text: the rejected or missing keyword that `Config(**d)` names in its message (drawn/reader.py:49-50) is not kept; the model only records that the keyword check failed.
- OldReader.Reader.ParseConfig: the `Config` object the source mutates field by field is a value reassigned on each line, so aliasing of that object is not captured.
- `Config(**d)` does not check value types in the source; the model only passes text to the four text fields and a flag to `auto_shapes`, which is all the reader ever passes.
- Some loop bodies and branches of the source are separate methods here, so that each proof stays small: `Flow.WalkTriple`, `Flow.Remember`, `Flow.WalkLine`, `SimpleParser.LinkNames`, `OldReader.Reader.ReadDirective`, `OldCompiler.Compiler.SetNodeColours`, `OldCompiler.Compiler.SetEdgeColours` and the three loops of `Compiler.ApplyAttributes`. Each computes the same thing, in the same order, as the source's inline code.
- Integer widths and floating point do not arise in this core.
