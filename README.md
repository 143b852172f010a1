# wikinodes-preprocessing, modelled in Dafny

wikinodes-preprocessing loads Wikipedia articles into a Neo4j graph and links them. Each
article is a `WikiData` node. Links come from two sources: the hyperlinks listed on each
article (`HYPERLINKS` edges between articles) and a topic assigned beforehand (a
`PRELINKED` edge from each article to one `IndexNode` per topic, with `confidence` 1.0).
This project models the parts of the program that decide what gets written:

- **The graph store.** `store.dfy` is an abstract in-memory graph with the semantics of the
  Cypher clauses the clients send. `MATCH` filters nodes by label and by the properties
  that must be present. `MERGE` creates only what is missing. `CREATE` always adds.
  `DETACH DELETE` removes nodes together with their edges. Every write is recorded as a
  `Call`, and `ApplyAll` replays a sequence of calls, so a run of a linker is a sequence of
  calls whose effect on the store can be reasoned about.
- **Property fragments.** `property_encoding.dfy` covers the `{k: $ak, ...}` fragments the
  clients write into their queries and the alias prefixes (`v`, `w`, `e`) that keep the
  parameters of two nodes and one edge apart. It includes a parser, so the model can state
  what the store reads back from a fragment against the bindings sent with the query.
- **The current graph client.** `comm.py` becomes class `Comm.Neo4jComm`: `clear`,
  `push_node`, `pull_node`, `pull_node_prop`, `push_rel`, `pull_rel`, and the two private
  helpers that build fragments and filter result records.
- **The legacy graph client.** `LegacyComm.Neo4jComm` covers `clear`, `create_any_node`,
  `retrieve_any_node`, `create_any_rel` and `create_wiki_rel`. Its edge writes use `CREATE`,
  and it pre-binds reserved parameter names.
- **The hyperlink linker.** `HyperlinkLinker.Link` is a method with the source's two loops. It
  is proved against `RunCalls`, the sequence of `push_rel` calls the loops make.
- **The topic linkers.** The current linker is `TopicLinker.Link`, a method against
  `Comm.Neo4jComm`. The legacy linker is `LegacyTopicLinker.Link`, which produces a log of
  the calls it would send. `TopicGrouping` is their shared specification of the
  `topics_titles` dict: which titles are kept, the order the topic keys are inserted in,
  and each topic's titles.
- **The input loaders.** `load_titles` is a function over the lines of the file.
  `load_articles` is a method with the source's loop, proved against a function.
- **The article record.** `ArticleData` and its `__dict__`, pushed as node properties, are in
  `TypeHelpers`.

Python values are modelled by `Values.Value`: a string, a list of strings, or the float
`1.0`, which is never computed with. A Python dict is a `Bag`, its items in insertion
order. Cypher `null` is `None`. Each place where Python raises an exception becomes an
explicit failure result.

In some places the code does something other than what its docstrings and comments
suggest, or cannot run as written. The model follows the code:

- An article whose topic was never attached keeps the default `''`
  (`src/typehelpers.py:36-39`). The topic linker, whose docstring speaks of pre-assigned
  topics (`src/linking/prelinked/linker.py:15-20`), still links such an article. It skips
  only an article whose lookup finds no node (`src/linking/prelinked/linker.py:48-49`), so
  these articles are grouped under the topic `""`.
- The hyperlink linker's docstring describes one relationship per linked pair
  (`src/linking/hyperlinks/linker.py:16-18`). The code makes one `push_rel` call per
  occurrence of a title in a link list, and `MERGE` collapses the repeats
  (`HyperlinkLinker.RunCallsCount`).
- The legacy client's relationship methods create with `CREATE`
  (`src/preprocessing/neo4j_tools/comm.py:176`, `:204`), so repeating a call duplicates the
  edges (`LegacyComm.AnyRelTwice`, `LegacyComm.WikiRelTwice`). Only the current client's
  `MERGE` (`src/neo4j_tools/comm.py:192`) is idempotent.
- The loader's docstring says `[TOPIC=XYZ]` starts the topic XYZ
  (`src/preprocessing/data_gen/articles.py:32`). The name comes back only when it holds no
  marker (`Articles.HeaderName`). Spaces and any `TOPIC` inside a name are removed with the
  markers, so `[TOPIC=Art History]` names the topic `ArtHistory`.
- The docstring of `load_titles` says titles are delimited by its delimiter
  (`src/data_gen/titles.py:14-16`). The code never uses the delimiter, and titles are one per
  line (`Titles.DelimiterIgnored`).
- The legacy topic linker calls `pull_any_node_prop`, `push_any_node` and `push_any_rel`, but
  the legacy client defines none of them. Its reads are therefore parameters, and its writes a
  returned log of calls.

The data and constants that are not operations:

- `TypeHelpers.WikiDataLabel`, `TypeHelpers.HyperlinksLabel` and `TypeHelpers.FullTextIndex`
  are the three project-wide names of `src/typehelpers.py:7-12`.
- `TypeHelpers.ArticleData` is the article record of `src/typehelpers.py:15-39`, with its six
  attributes.
- `Articles.ArticleList` is the record of `src/preprocessing/data_gen/articles.py:18-22`.
  `Articles.Markers` is the marker list of line 57, in its order.
- `LegacyTopicLinker.AnyCall` is one call of the legacy linker: a `push_any_node` or a
  `push_any_rel` with its arguments as passed, nulls included
  (`src/preprocessing/linking/prelinked/linker.py:63-83`).
- `Store.Node`, `Store.Edge` and `Store.Graph` are the store. `Store.Call` is one `MERGE`
  write.

## Model

| member | source | states |
|---|---|---|
| Comm.ConstructProps | src/neo4j_tools/comm.py:72-94 | the loop builds exactly the fragment `Fragment(names, alias)`, which `PropertyEncoding.ParseFragmentRoundTrip` shows reads back as the pairs (name, alias+name) in order |
| Comm.ExtractNodes | src/neo4j_tools/comm.py:97-121 | the result is the property maps of the objects whose class name contains `Node`, in result, record and object order |
| Comm.ScanResult | src/neo4j_tools/comm.py:111-120 | scanning one result's records appends the node items of its flattened objects to those seen so far |
| Comm.ScanRecord | src/neo4j_tools/comm.py:113-120 | scanning one record appends the items of its node objects, in order, to those seen so far |
| Comm.Neo4jComm.constructor | src/neo4j_tools/comm.py:35-40 | the client is attached to the given store |
| Comm.Neo4jComm.Clear | src/neo4j_tools/comm.py:60-69 | a node survives iff a non-empty label was given and the node has another label; with no label the store ends empty; edges of deleted nodes go with them |
| Comm.Neo4jComm.PushNode | src/neo4j_tools/comm.py:124-142 | the store becomes `MERGE` of the node: unchanged if one matches, else one new node; afterwards a matching node exists |
| Comm.Neo4jComm.PullNode | src/neo4j_tools/comm.py:145-160 | returns the property maps of exactly the nodes with the label whose properties include `props`, in store order |
| Comm.Neo4jComm.PullNodeProp | src/neo4j_tools/comm.py:163-183 | returns one entry per matching node: its value for `prop`, or null where it lacks it |
| Comm.Neo4jComm.PushRel | src/neo4j_tools/comm.py:186-225 | the store becomes `MERGE` of the edge between every matching (v, w) pair; afterwards the call is satisfied, so each pair has such an edge |
| Comm.Neo4jComm.PullRel | src/neo4j_tools/comm.py:231-280 | returns, for each linked (v, w) row, v's properties at an even position and w's right after |
| LegacyComm.ResolveUnaliased | src/preprocessing/neo4j_tools/comm.py:65-83 | the unaliased fragment of the kwargs resolves against the bindings to the map of each key's bound value |
| LegacyComm.AnyRelBindings | src/preprocessing/neo4j_tools/comm.py:181 | `{**kwargs, 'aID': id_a, 'bID': id_b}`; `AnyRelReserved` and `OverlaysCover` state its effect |
| LegacyComm.WikiRelBindings | src/preprocessing/neo4j_tools/comm.py:208-216 | `{**kwargs, **{'title_a': a, 'title_b': b}}`; `WikiRelReserved` and `OverlaysCover` state its effect |
| LegacyComm.AnyRelEffect | src/preprocessing/neo4j_tools/comm.py:160-176 | the store after `create_any_rel`; `AnyRelTwice` and `CreateAnyRel` state it |
| LegacyComm.WikiRelEffect | src/preprocessing/neo4j_tools/comm.py:200-204 | the store after `create_wiki_rel`; `WikiRelTwice` and `CreateWikiRel` state it |
| LegacyComm.EdgeProps | src/preprocessing/neo4j_tools/comm.py:176-181 | the edge properties the unaliased fragment over the kwargs stands for: each kwarg key with its bound value; `ResolveUnaliased` proves the fragment resolves to it |
| LegacyComm.AnyRelReserved | src/preprocessing/neo4j_tools/comm.py:146-182 | the edge gets exactly the kwargs' keys, but keys named `aID`/`bID` take the endpoint ids instead of the caller's values |
| LegacyComm.WikiRelReserved | src/preprocessing/neo4j_tools/comm.py:184-216 | the edge gets exactly the kwargs' keys, but keys named `title_a`/`title_b` take the endpoint titles instead of the caller's values |
| LegacyComm.OverlaysCover | src/preprocessing/neo4j_tools/comm.py:178-182 | every kwarg has a binding in both relation queries |
| LegacyComm.NodesWithValue | src/preprocessing/neo4j_tools/comm.py:160-173 | a node matches iff some property of it holds the given value |
| LegacyComm.NodesWithTitle | src/preprocessing/neo4j_tools/comm.py:200-203 | a node matches iff its `title` is the given string |
| LegacyComm.CreateEdgesValid | src/preprocessing/neo4j_tools/comm.py:176 | created edges join existing nodes, so the store stays well formed |
| LegacyComm.WikiRelTwice | src/preprocessing/neo4j_tools/comm.py:204 | `create_wiki_rel` is not idempotent: two calls add two edges per matching pair |
| LegacyComm.AnyRelTwice | src/preprocessing/neo4j_tools/comm.py:176 | `create_any_rel` is not idempotent: two calls add two edges per matching pair |
| LegacyComm.Neo4jComm.constructor | src/preprocessing/neo4j_tools/comm.py:35-40 | the client is attached to the given store |
| LegacyComm.Neo4jComm.Clear | src/preprocessing/neo4j_tools/comm.py:60-62 | every node and edge is deleted |
| LegacyComm.Neo4jComm.CreateAnyNode | src/preprocessing/neo4j_tools/comm.py:113-128 | the store becomes `MERGE` of the node, and merging it again changes nothing |
| LegacyComm.Neo4jComm.RetrieveAnyNode | src/preprocessing/neo4j_tools/comm.py:131-142 | returns the property maps of exactly the matching nodes, in store order |
| LegacyComm.Neo4jComm.CreateAnyRel | src/preprocessing/neo4j_tools/comm.py:146-182 | one new edge per pair of nodes holding the two ids, with the kwargs as overlaid by the reserved bindings |
| LegacyComm.Neo4jComm.CreateWikiRel | src/preprocessing/neo4j_tools/comm.py:184-216 | one new edge per pair of nodes with the two titles, with the kwargs as overlaid by the reserved bindings |
| PropertyEncoding.Fragment | src/neo4j_tools/comm.py:72-94 | the string `__construct_props` returns; `ParseFragmentRoundTrip` proves it reads back as the (name, alias+name) pairs and `Comm.ConstructProps` that the loop builds it |
| PropertyEncoding.Resolve | src/neo4j_tools/comm.py:216-225 | what the store reads from a fragment under the query's bindings; `ResolveFragment` and `ResolveBag` state its result |
| PropertyEncoding.RelBindings | src/neo4j_tools/comm.py:211-225 | `{**v, **w, **e}` over the aliased dicts; `RelBindingsSize`, `RelBindingsNoCollision` and `RelQueryBindings` state what it holds |
| PropertyEncoding.Entry | src/neo4j_tools/comm.py:88 | one entry `k:$<alias>k`; `ParseOneEntry` reads it back |
| PropertyEncoding.Entries | src/neo4j_tools/comm.py:87-91 | the entries of all names, in order; `ParseAllEntries` reads them back |
| PropertyEncoding.ParseFragment | src/neo4j_tools/comm.py:72-94 | how a `{...}` fragment is read as (name, parameter) pairs, or None when malformed; `ParseFragmentRoundTrip` states it on built fragments |
| PropertyEncoding.Prefixed | src/neo4j_tools/comm.py:211-213 | the items with the alias in front of every key; `PrefixedDistinct` and `PrefixedKeys` state it |
| PropertyEncoding.Aliased | src/neo4j_tools/comm.py:211-213 | `{alias+k: v for k, v in b.items()}`; `AliasedLookup` and `AliasedDisjoint` state it |
| PropertyEncoding.ParseOneEntry | src/neo4j_tools/comm.py:87-91 | one entry `k:$ak` reads back as the pair (k, alias+k) |
| PropertyEncoding.ParseAllEntries | src/neo4j_tools/comm.py:86-91 | the entries read back as the pairs of all names, in order |
| PropertyEncoding.ParseFragmentRoundTrip | src/neo4j_tools/comm.py:72-94 | braces, single commas and no trailing comma: the fragment reads back as exactly the (name, alias+name) pairs |
| PropertyEncoding.EmptyFragment | src/neo4j_tools/comm.py:83-94 | no names give the valid empty fragment `{}` |
| PropertyEncoding.BindParams | src/neo4j_tools/comm.py:225 | when every aliased name is bound, binding succeeds with exactly the names as keys and each name's bound value |
| PropertyEncoding.ResolveFragment | src/neo4j_tools/comm.py:205-213 | a fragment whose placeholders are all bound resolves to a map from exactly its names to their bound values |
| PropertyEncoding.AliasedLookup | src/neo4j_tools/comm.py:211-213 | the aliased map has exactly the keys alias+k, each holding k's value, one per item |
| PropertyEncoding.PrefixedDistinct | src/neo4j_tools/comm.py:211-213 | prefixing keeps distinct keys distinct |
| PropertyEncoding.PrefixInjective | src/neo4j_tools/comm.py:198 | different names get different aliased names |
| PropertyEncoding.PrefixedKeys | src/neo4j_tools/comm.py:211-213 | the prefixed keys are the parameter names of the fragment |
| PropertyEncoding.AliasedKeysStartWith | src/neo4j_tools/comm.py:211-213 | every aliased key starts with its alias |
| PropertyEncoding.AliasedDisjoint | src/neo4j_tools/comm.py:198 | bags aliased under two different one-letter aliases share no key |
| PropertyEncoding.NotAliasedUnder | src/neo4j_tools/comm.py:198 | a key aliased under one alias is absent from a bag aliased under another |
| PropertyEncoding.DisjointUnionSize | src/neo4j_tools/comm.py:225 | merging disjoint maps keeps every entry |
| PropertyEncoding.UnionKeeps | src/neo4j_tools/comm.py:225 | merging disjoint maps keeps each entry's value |
| PropertyEncoding.RelBindingsSize | src/neo4j_tools/comm.py:225 | the merged bindings hold |v|+|w|+|e| entries: nothing is overwritten, even when two bags share a name such as `title` |
| PropertyEncoding.RelBindingsNoCollision | src/neo4j_tools/comm.py:194-225 | every item of v, w and e is found in the merged bindings under its aliased name, with its own value |
| PropertyEncoding.AliasedEntries | src/neo4j_tools/comm.py:211-213 | each item is found under its aliased name with its value |
| PropertyEncoding.KeysAsSet | src/neo4j_tools/comm.py:87-91 | the set of a bag's key sequence is its key set |
| PropertyEncoding.BagMap | src/neo4j_tools/comm.py:211-213 | a map with a bag's keys and values is that bag's dict |
| PropertyEncoding.ResolveBag | src/neo4j_tools/comm.py:205-213 | a bag's fragment resolves against bindings holding its aliased values to exactly the bag's dict |
| PropertyEncoding.RelQueryBindings | src/neo4j_tools/comm.py:186-225 | the placeholders of the three fragments are exactly the binding keys, and each fragment resolves to its own bag |
| PropertyEncoding.RelParams | src/neo4j_tools/comm.py:205-213 | the placeholders of the three fragments are exactly the merged binding keys |
| PropertyEncoding.NodeQueryBindings | src/neo4j_tools/comm.py:124-142 | with alias `''` the props themselves are the bindings, and the fragment resolves to the props |
| Store.Includes | src/neo4j_tools/comm.py:151-157 | a property pattern asks that every one of its entries is present with that value |
| Store.Matches | src/neo4j_tools/comm.py:151-157 | the node pattern `(x:label {...})`: the label and the included pattern |
| Store.PropsOf | src/neo4j_tools/comm.py:157-160 | the property maps of nodes, in order; `NodeRecordItems` shows `pull_node` returns them |
| Store.MatchNodes | src/neo4j_tools/comm.py:151-157 | a node is matched iff it has the label and its properties include the pattern |
| Store.PullProp | src/neo4j_tools/comm.py:177-183 | one entry per node, `Some` of the value iff the node has the property |
| Store.MergeNode | src/neo4j_tools/comm.py:124-142 | afterwards a matching node exists and the number of matching nodes is max(1, number before), so a push never duplicates; edges unchanged; the store unchanged when a node matches, else exactly one node added with a fresh id |
| Store.Rows | src/neo4j_tools/comm.py:216-219 | the rows are exactly the pairs of a v-match and a w-match |
| Store.RowOfMembers | src/neo4j_tools/comm.py:216-219 | one v-match's rows are exactly the pairs of that node with a w-match |
| Store.MergeRel | src/neo4j_tools/comm.py:216-221 | nodes and next id unchanged; the old edges stay as a prefix; afterwards every pair of a v-match and a w-match has an edge of the label including the edge props |
| Store.MatchPairsCovered | src/neo4j_tools/comm.py:216-221 | covering every row of the match covers every pair of matching nodes |
| Store.MergeEdges | src/neo4j_tools/comm.py:221 | old edges kept as a prefix; every row covered afterwards; every added edge comes from a row; nothing added when all rows were covered |
| Store.CreateEdges | src/preprocessing/neo4j_tools/comm.py:176 | exactly one new edge per row, in row order, after the old edges |
| Store.LinkedRows | src/neo4j_tools/comm.py:265-271 | a pair is returned iff both are nodes of the store, v matches the v pattern, w the w pattern, and an edge v→w of the label includes the edge props |
| Store.Linked | src/neo4j_tools/comm.py:265-271 | a row is returned iff it is a match pair with an edge of that label including the edge props |
| Store.KeepNodes | src/neo4j_tools/comm.py:65-67 | a node stays iff it is outside the deleted scope; no scope deletes all |
| Store.KeepEdges | src/neo4j_tools/comm.py:65-67 | an edge stays iff neither end was deleted |
| Store.DetachDelete | src/neo4j_tools/comm.py:65-67 | a node survives iff it is out of scope; an edge survives iff no in-scope node is either of its ends; the next id is kept |
| Store.DetachDeleteEffect | src/neo4j_tools/comm.py:60-69 | the store stays well formed, and an edge of it survives iff neither of its ends was in scope |
| Store.ClearAllEmpties | src/preprocessing/neo4j_tools/comm.py:60-62 | deleting without a label empties the store |
| Store.Apply | src/neo4j_tools/comm.py:134 | one write is `MergeNode` or `MergeRel`; its properties are `ApplySatisfies`, `ApplyNoop`, `ApplyIdempotent`, `ApplyGrows` and `ApplyValid` |
| Store.ApplyAll | src/neo4j_tools/comm.py:192 | writes applied in order; its properties are `ApplyAllSatisfies`, `ApplyAllNoop`, `Rerun` and `ApplyAllAppend` |
| Store.ApplySatisfies | src/neo4j_tools/comm.py:192 | after any write, what it asks for holds |
| Store.ApplyNoop | src/neo4j_tools/comm.py:192 | a write whose effect already holds changes nothing |
| Store.ApplyIdempotent | src/neo4j_tools/comm.py:192 | repeating a write changes nothing |
| Store.ApplyGrows | src/neo4j_tools/comm.py:221 | writes only append nodes and edges; edge writes add no node |
| Store.NodeCallPersists | src/neo4j_tools/comm.py:134 | a satisfied node write stays satisfied after any later write |
| Store.RelCallPersists | src/neo4j_tools/comm.py:221 | a satisfied edge write stays satisfied after a later edge write |
| Store.CallPersists | src/neo4j_tools/comm.py:192 | a satisfied write stays satisfied after a later write, unless a node write follows an edge write |
| Store.NodeCallsKeepEdges | src/neo4j_tools/comm.py:134 | node writes leave the edges as they were |
| Store.ApplyAllSatisfies | src/neo4j_tools/comm.py:192 | when node writes come before edge writes, every write of a run holds at its end |
| Store.ApplyAllNoop | src/neo4j_tools/comm.py:192 | a run of writes that all hold changes nothing |
| Store.Rerun | src/neo4j_tools/comm.py:192 | replaying any writes of a finished run leaves its result unchanged |
| Store.ApplyAllAppend | src/neo4j_tools/comm.py:192 | running two sequences of writes is running the first, then the second |
| Store.MatchNodesOther | src/neo4j_tools/comm.py:151-157 | a node of another label does not change a match |
| Store.ApplyAllKeepsMatches | src/neo4j_tools/comm.py:151-157 | writes that add no node of a label leave every match on that label unchanged |
| Store.AddedEdges | src/neo4j_tools/comm.py:221 | edge writes keep the nodes and old edges, and each new edge joins a match pair of one of the writes |
| Store.OneRelWrite | src/neo4j_tools/comm.py:221 | one edge write keeps nodes and old edges, and each new edge comes from a match pair of it |
| Store.ApplyValid | src/neo4j_tools/comm.py:192 | writes keep ids distinct and edge ends existing |
| Store.NodeWriteValid | src/neo4j_tools/comm.py:134 | a node merge keeps the store well formed |
| Store.RelWriteValid | src/neo4j_tools/comm.py:221 | an edge merge keeps the store well formed |
| Store.MergedEdgesJoin | src/neo4j_tools/comm.py:221 | merged edges join only nodes that exist |
| Store.NodeItems | src/neo4j_tools/comm.py:116-120 | at most one entry per object |
| Store.NodeItemsSnoc | src/neo4j_tools/comm.py:116-120 | one more object adds its items iff its class name contains `Node` |
| Store.NodeItemsAppend | src/neo4j_tools/comm.py:109-120 | filtering distributes over concatenated objects |
| Store.NodeItemsAllNodes | src/neo4j_tools/comm.py:116-120 | objects that are all nodes keep every item, in order |
| Store.NodeRecordItems | src/neo4j_tools/comm.py:157-160 | the records of `RETURN n` filter to exactly the matched nodes' properties |
| Store.NodeObjectsItems | src/neo4j_tools/comm.py:157-160 | node objects made one per node filter to those nodes' properties |
| Store.PairRecordItems | src/neo4j_tools/comm.py:271-280 | the records of `RETURN v,w` filter to v's then w's properties for each row |
| Store.PairObjectsItems | src/neo4j_tools/comm.py:271-280 | node objects made two per row filter to each row's two property maps |
| Store.NodeItemsSkips | src/neo4j_tools/comm.py:116-118 | an object whose class name lacks `Node` is skipped |
| HyperlinkLinker.NodeTitles | src/linking/hyperlinks/linker.py:25-29 | the `title_key` of every `WikiData` node, in store order, null where a node lacks it; `Link`'s contract is stated over it |
| HyperlinkLinker.TitleSet | src/linking/hyperlinks/linker.py:35 | `set(titles)`: the titles of the nodes without order or repeats; the set `Link` works through |
| HyperlinkLinker.EntryCalls | src/linking/hyperlinks/linker.py:52-66 | one entry's write: none for the title itself or a non-title, else its link; `EntryCount` states it |
| HyperlinkLinker.LinkCall | src/linking/hyperlinks/linker.py:59-66 | the `push_rel` of one link: `WikiData` to `WikiData` by title, `HYPERLINKS`, no edge props; `ProducedLink` states its effect |
| HyperlinkLinker.TitleCalls | src/linking/hyperlinks/linker.py:51-66 | one title's writes in list order; `TitleCallsShape` and `TitleCallsCount` state what they are |
| HyperlinkLinker.RunCalls | src/linking/hyperlinks/linker.py:37-66 | a run's writes, title by title; `RunCallsShape`, `RunCallsCount` and `RunCallsMember` state what they are |
| HyperlinkLinker.LinkLookup | src/linking/hyperlinks/linker.py:39-43 | a null title finds no link list |
| HyperlinkLinker.Iterate | src/linking/hyperlinks/linker.py:51 | a value can be iterated iff it is present and not the float; a list iterates its strings in order |
| HyperlinkLinker.Links | src/linking/hyperlinks/linker.py:39-51 | a link list is found only for a present title |
| HyperlinkLinker.TitleCallsShape | src/linking/hyperlinks/linker.py:51-66 | every write for a title links it to an entry of its list that is a different title of the set |
| HyperlinkLinker.TitleCallsCount | src/linking/hyperlinks/linker.py:51-66 | the link to o is written as often as o occurs in the list, and never when o is the title itself or not a title |
| HyperlinkLinker.EntryCount | src/linking/hyperlinks/linker.py:52-66 | one entry writes its link once iff it is another title of the set |
| HyperlinkLinker.RunCallsShape | src/linking/hyperlinks/linker.py:37-66 | every write of a run is a `HYPERLINKS` link from a done title to a different title of the set found in its list |
| HyperlinkLinker.RunCallsCount | src/linking/hyperlinks/linker.py:37-66 | in a whole run, the link t→o is written exactly as often as o occurs in t's list, unless o is t or not a title |
| HyperlinkLinker.CountOutside | src/linking/hyperlinks/linker.py:37 | a title not yet done has no links written from it |
| HyperlinkLinker.RunCallsMember | src/linking/hyperlinks/linker.py:37-66 | a write is in the run iff it is one of the writes for some done title |
| HyperlinkLinker.LinkedAfterRun | src/linking/hyperlinks/linker.py:15-18 | a run adds no node, and every link it writes holds at its end |
| HyperlinkLinker.AllRel | src/linking/hyperlinks/linker.py:59-66 | all writes are edge writes |
| HyperlinkLinker.EdgesAfterRun | src/linking/hyperlinks/linker.py:15-18 | old edges kept; each new edge goes from an article with a done title to a different article whose title is in that title's list |
| HyperlinkLinker.ProducedLink | src/linking/hyperlinks/linker.py:59-66 | an edge made by one link write joins the two distinct articles it names |
| HyperlinkLinker.Rerun | src/linking/hyperlinks/linker.py:15-66 | a second run, in any order over the same titles, leaves the store unchanged |
| HyperlinkLinker.Link | src/linking/hyperlinks/linker.py:15-66 | succeeds iff every title is hashable and has an iterable list; does each title of the set once, the store ending as the run's writes made it; on success every title is done |
| HyperlinkLinker.DoTitle | src/linking/hyperlinks/linker.py:39-66 | fails with no write when the list cannot be read; otherwise writes that title's links |
| HyperlinkLinker.FailsAt | src/linking/hyperlinks/linker.py:47 | a title of the set with no readable list makes the run fail |
| HyperlinkLinker.SucceedsAll | src/linking/hyperlinks/linker.py:25-66 | when every title is done with a readable list, the run succeeds |
| HyperlinkLinker.ReadLinks | src/linking/hyperlinks/linker.py:39-47 | reads the first node's link list, or reports the Python error |
| HyperlinkLinker.LookUp | src/linking/hyperlinks/linker.py:39-43 | returns the link property of every article with the title |
| HyperlinkLinker.PushLinks | src/linking/hyperlinks/linker.py:51-66 | the inner loop adds exactly the title's writes, in list order, and no node |
| HyperlinkLinker.Visit | src/linking/hyperlinks/linker.py:51-66 | one entry adds its link, or nothing for the title itself or a non-title |
| HyperlinkLinker.Write | src/linking/hyperlinks/linker.py:59-66 | one `push_rel` of a link |
| HyperlinkLinker.RunStep | src/linking/hyperlinks/linker.py:37 | doing one more title appends its writes to the run |
| TopicGrouping.Kept | src/linking/prelinked/linker.py:41-59 | at most one kept pair per title |
| TopicGrouping.KeptFrom | src/linking/prelinked/linker.py:41-59 | every kept pair is a title with the first topic its lookup found |
| TopicGrouping.KeptComplete | src/linking/prelinked/linker.py:48-49 | only titles whose lookup found nothing are skipped, and every other title is kept with its first topic |
| TopicGrouping.KeptSize | src/linking/prelinked/linker.py:48-49 | kept plus skipped is all titles |
| TopicGrouping.KeptHas | src/linking/prelinked/linker.py:53-59 | a title with a topic is kept |
| TopicGrouping.KeptPrefix | src/linking/prelinked/linker.py:41-59 | the pairs kept from a prefix of the titles are a prefix of all kept pairs |
| TopicGrouping.KeptStep | src/linking/prelinked/linker.py:41-59 | one more title adds its pair iff its lookup found a topic |
| TopicGrouping.GroupStep | src/linking/prelinked/linker.py:53-59 | an unhashable topic makes grouping fail |
| TopicGrouping.AddTitle | src/linking/prelinked/linker.py:54-59 | adding a title keeps the key order and the groups equal to those of the kept pairs so far |
| TopicGrouping.GroupAt | src/linking/prelinked/linker.py:42-59 | one loop pass either keeps the grouping up to date or reports that grouping fails |
| TopicGrouping.TopicOrder | src/linking/prelinked/linker.py:62 | the topic keys have no repeats |
| TopicGrouping.TopicOrderMembers | src/linking/prelinked/linker.py:54-62 | the keys are exactly the topics of kept pairs |
| TopicGrouping.Grouping | src/linking/prelinked/linker.py:54-59 | the dict has exactly those keys |
| TopicGrouping.GroupAppend | src/linking/prelinked/linker.py:54-59 | a new pair appends its title to its topic's list, adding the topic last if new |
| TopicGrouping.Members | src/linking/prelinked/linker.py:53-59 | a topic's titles all come from kept pairs with that topic |
| TopicGrouping.MembersEmpty | src/linking/prelinked/linker.py:54-59 | a topic has titles iff it is a key |
| TopicGrouping.GroupingMembers | src/linking/prelinked/linker.py:54-59 | each topic's list is its kept titles in pull order |
| TopicGrouping.IndexPushes | src/linking/prelinked/linker.py:62-66 | one index push per topic, in key order |
| TopicGrouping.LinkBlock | src/linking/prelinked/linker.py:72-81 | one link push per title of the topic, in order |
| TopicGrouping.LinkPushes | src/linking/prelinked/linker.py:70-81 | the second loop pushes only links |
| TopicGrouping.Pushes | src/linking/prelinked/linker.py:61-81 | all index pushes, in key order, come before the link pushes |
| TopicGrouping.PairLinks | src/linking/prelinked/linker.py:70-81 | one link per kept pair |
| TopicGrouping.PairCount | src/linking/prelinked/linker.py:70-81 | a pair's link occurs as often as the pair was kept |
| TopicGrouping.LinkPushesAreMemberPushes | src/linking/prelinked/linker.py:70-81 | the dict's lists give the same pushes as the kept pairs of each topic |
| TopicGrouping.MemberPushesExtend | src/linking/prelinked/linker.py:54-81 | a new kept pair adds exactly its own link to the pushes |
| TopicGrouping.LinksAreKeptPairs | src/linking/prelinked/linker.py:70-81 | the link pushes are a permutation of the kept pairs' links, one per kept pair |
| TopicGrouping.PairsByMembers | src/linking/prelinked/linker.py:70-81 | pushing topic by topic gives each kept pair's link exactly once |
| TopicLinker.NodeTitles | src/linking/prelinked/linker.py:34-38 | the `title_key` of every `WikiData` node, in store order, null where a node lacks it |
| TopicLinker.KeptOf | src/linking/prelinked/linker.py:41-59 | the (title, first topic) pairs a run on the store groups; `KeptComplete`, `KeptFrom` and `SameArticles` state them |
| TopicLinker.IndexCallsBeforeNull | src/linking/prelinked/linker.py:61-66 | the index writes made before the first null topic; `PartialRun` states what they are |
| TopicLinker.PartialRunCalls | src/linking/prelinked/linker.py:61-66 | those writes for a run on the store, as `Link`'s failure ensures uses them |
| TopicLinker.IndexCall | src/linking/prelinked/linker.py:63-66 | the `push_node` of one topic's `IndexNode` |
| TopicLinker.LinkCall | src/linking/prelinked/linker.py:73-81 | the `push_rel` of one `PRELINKED` link with confidence 1.0 |
| TopicLinker.RunCalls | src/linking/prelinked/linker.py:61-81 | a successful run's writes; `RunIndexCalls`, `RunLinkCalls` and `KeptCallsMade` state what they are |
| TopicLinker.PresentPrefix | src/linking/prelinked/linker.py:62-66 | the number of topics before the first null one: all of them present, and the next one null |
| TopicLinker.PartialRun | src/linking/prelinked/linker.py:61-66 | when a topic is null, the writes made before it are one index write per earlier topic, in key order; each holds at their end and no edge changes |
| TopicLinker.TopicsOf | src/linking/prelinked/linker.py:43-47 | a null title finds no topic |
| TopicLinker.Lookups | src/linking/prelinked/linker.py:41-47 | one topic lookup per pulled title |
| TopicLinker.ToCall | src/linking/prelinked/linker.py:63-81 | index pushes become node writes, link pushes become edge writes |
| TopicLinker.Calls | src/linking/prelinked/linker.py:63-81 | one write per push, in order |
| TopicLinker.KeptTitlesPresent | src/linking/prelinked/linker.py:34-47 | every kept title is present |
| TopicLinker.PushesConcrete | src/linking/prelinked/linker.py:61-81 | on success every push has concrete arguments |
| TopicLinker.IndexPushConcrete | src/linking/prelinked/linker.py:62-66 | on success every index push has a topic |
| TopicLinker.LinkPushConcrete | src/linking/prelinked/linker.py:70-81 | on success every link push has a title and a topic |
| TopicLinker.ToCallInjective | src/linking/prelinked/linker.py:63-81 | different pushes give different writes |
| TopicLinker.CallCount | src/linking/prelinked/linker.py:63-81 | a write occurs as often as its push |
| TopicLinker.RunIndexCalls | src/linking/prelinked/linker.py:61-66 | the run first creates one `IndexNode` per distinct topic, in key order, and every kept topic is among them |
| TopicLinker.KeptLinks | src/linking/prelinked/linker.py:72-81 | one `PRELINKED` write per kept pair |
| TopicLinker.RunLinkCalls | src/linking/prelinked/linker.py:70-81 | after the index writes, the run's writes are a permutation of one `PRELINKED` write per kept pair |
| TopicLinker.LinkShape | src/linking/prelinked/linker.py:70-81 | the writes after the index writes are the kept pairs' links, in some order |
| TopicLinker.CallsSuffix | src/linking/prelinked/linker.py:61-81 | the writes of a suffix of the pushes are the suffix of the writes |
| TopicLinker.KeptLinksCalls | src/linking/prelinked/linker.py:72-81 | the kept links are the writes of the pair pushes |
| TopicLinker.CallsPermutation | src/linking/prelinked/linker.py:70-81 | permuted pushes give permuted writes |
| TopicLinker.SameArticles | src/linking/prelinked/linker.py:34-47 | stores with the same article matches give the same kept pairs |
| TopicLinker.LinkAt | src/linking/prelinked/linker.py:70-81 | every push after the index pushes is a link push |
| TopicLinker.Rerun | src/linking/prelinked/linker.py:14-81 | a second run reads the same pairs, makes the same writes and leaves the store unchanged |
| TopicLinker.LinkedAfterRun | src/linking/prelinked/linker.py:14-28 | after a run every kept article has its topic's index node and a `PRELINKED` edge to it |
| TopicLinker.KeptCallsMade | src/linking/prelinked/linker.py:61-81 | every kept pair's index write and link write are made |
| TopicLinker.GroupTopics | src/linking/prelinked/linker.py:33-59 | builds the key order and the dict of the kept pairs, or reports that grouping fails |
| TopicLinker.GroupTitles | src/linking/prelinked/linker.py:40-59 | the first loop groups exactly the kept pairs of the titles |
| TopicLinker.LookUp | src/linking/prelinked/linker.py:43-47 | returns the topics found for the title |
| TopicLinker.Link | src/linking/prelinked/linker.py:14-81 | succeeds iff grouping works and no topic is null; then the store is the run's writes applied; when grouping fails nothing is written; when a topic is null the store is the index writes of the topics before it applied |
| TopicLinker.SucceedsOrder | src/linking/prelinked/linker.py:53-66 | success means grouping works and every topic is present |
| TopicLinker.GroupedTitlesPresent | src/linking/prelinked/linker.py:70-81 | every key has a list, and all titles in the lists are present |
| TopicLinker.PushIndexNodes | src/linking/prelinked/linker.py:61-66 | succeeds iff every topic is present; the store is then the index writes applied; on failure it is the index writes of the topics before the first null one applied |
| TopicLinker.IndexAt | src/linking/prelinked/linker.py:63-66 | one index write for a present topic; a null topic writes nothing and fails |
| TopicLinker.PushLinks | src/linking/prelinked/linker.py:68-81 | the store becomes the link writes of all topics, in key order |
| TopicLinker.PushBlock | src/linking/prelinked/linker.py:72-81 | the store becomes the link writes of one topic's titles, in order |
| TopicLinker.Write | src/linking/prelinked/linker.py:63-81 | one push applied to the store |
| TopicLinker.LinkArgsValid | src/linking/prelinked/linker.py:73-81 | the single-key property dicts sent are valid |
| LegacyTopicLinker.CallOf | src/preprocessing/linking/prelinked/linker.py:63-83 | an index push is `push_any_node('IndexNode', {topic_key: topic})`, a link push is `push_any_rel` from `wikidata` to `IndexNode`, `PRELINKED`, confidence 1.0; `CallOfInjective` states it |
| LegacyTopicLinker.CallsOf | src/preprocessing/linking/prelinked/linker.py:63-83 | one logged call per push, in order |
| LegacyTopicLinker.Answers | src/preprocessing/linking/prelinked/linker.py:43-49 | one lookup answer per title |
| LegacyTopicLinker.Link | src/preprocessing/linking/prelinked/linker.py:15-83 | succeeds iff grouping works; then the log is the pushes of the kept pairs; on failure nothing is logged |
| LegacyTopicLinker.GroupTitles | src/preprocessing/linking/prelinked/linker.py:42-61 | builds the key order and the dict of the kept pairs, or reports that grouping fails |
| LegacyTopicLinker.IndexLog | src/preprocessing/linking/prelinked/linker.py:63-68 | logs one index node call per topic, in key order |
| LegacyTopicLinker.LinkLog | src/preprocessing/linking/prelinked/linker.py:70-83 | logs the link calls of all topics, in key order |
| LegacyTopicLinker.BlockLog | src/preprocessing/linking/prelinked/linker.py:74-83 | logs one link call per title of a topic |
| LegacyTopicLinker.RunIndexCalls | src/preprocessing/linking/prelinked/linker.py:63-68 | the log starts with one index call per distinct topic |
| LegacyTopicLinker.RunLinkCalls | src/preprocessing/linking/prelinked/linker.py:70-83 | the log has one call per topic and one per kept pair; the link calls are `wikidata`→`IndexNode` `PRELINKED` with confidence 1.0, a permutation of the kept pairs' links |
| LegacyTopicLinker.CallOfInjective | src/preprocessing/linking/prelinked/linker.py:63-83 | different pushes log different calls |
| LegacyTopicLinker.CallCount | src/preprocessing/linking/prelinked/linker.py:63-83 | a call is logged as often as its push |
| LegacyTopicLinker.CallsOfPermutation | src/preprocessing/linking/prelinked/linker.py:70-83 | permuted pushes log permuted calls |
| Titles.TitleOf | src/data_gen/titles.py:35 | a title holds no newline |
| Titles.LoadTitles | src/data_gen/titles.py:13-35 | each title comes from a kept line with its newlines removed |
| Titles.LoadTitlesAppend | src/data_gen/titles.py:24-35 | the generator streams: concatenated files give concatenated titles |
| Titles.OneLine | src/data_gen/titles.py:26-35 | an empty, comment or bare-newline line yields nothing; any other yields its title |
| Titles.LoadTitlesCount | src/data_gen/titles.py:24-35 | exactly one title per kept line |
| Titles.Ignored | src/data_gen/titles.py:26-33 | the lines skipped: empty, starting with `#`, or a bare newline; `OneLine` and `BlankLine` state its effect |
| Titles.Kept | src/data_gen/titles.py:26-33 | the kept lines are lines of the file that are not ignored |
| Titles.DelimiterIgnored | src/data_gen/titles.py:13 | the delimiter does not change the result |
| Titles.BlankLine | src/data_gen/titles.py:32-35 | a line of spaces is not ignored and yields the spaces |
| Titles.RemovesNewline | src/data_gen/titles.py:35 | a line's title is the line without its newline |
| Articles.Strip | src/preprocessing/data_gen/articles.py:57-58 | the result keeps only the row's characters and none of the single-character markers |
| Articles.TopicName | src/preprocessing/data_gen/articles.py:54-59 | a topic name holds no `[`, `]`, `=`, space or newline |
| Articles.Dropped | src/preprocessing/data_gen/articles.py:45-51 | a row holding `#`, or one of only spaces and newlines |
| Articles.Header | src/preprocessing/data_gen/articles.py:53-54 | a kept row containing `TOPIC` |
| Articles.TopicAfter | src/preprocessing/data_gen/articles.py:43-59 | the topic in force after some rows: the last header's name, else the starting one; `NoHeaderKeepsTopic` states it |
| Articles.Yield | src/preprocessing/data_gen/articles.py:44-66 | what one row yields; `OneRow` states it |
| Articles.Parse | src/preprocessing/data_gen/articles.py:42-66 | what the generator yields for the rows; `ParseAppend`, `NamesRestoreRow` and `LoadArticles` state it |
| Articles.HeaderName | src/preprocessing/data_gen/articles.py:32 | a header written `[TOPIC=x]` gives back the name x, when x holds no marker |
| Articles.StripMarkers | src/preprocessing/data_gen/articles.py:56-58 | a topic name is the row with `TOPIC`, `[`, `]`, `=`, space and newline removed in that order |
| Articles.LoadArticles | src/preprocessing/data_gen/articles.py:26-66 | the loop yields exactly the parse of the rows, starting with the empty topic |
| Articles.CleanTopic | src/preprocessing/data_gen/articles.py:56-58 | the marker loop computes the topic name |
| Articles.ParseAppend | src/preprocessing/data_gen/articles.py:42-66 | the generator streams: later rows see the topic the earlier rows left |
| Articles.OneRow | src/preprocessing/data_gen/articles.py:44-66 | a comment or blank row yields nothing; a `TOPIC` row sets the topic; any other row yields its split names under the current topic |
| Articles.NoHeaderKeepsTopic | src/preprocessing/data_gen/articles.py:43 | without `TOPIC` rows the topic stays, and every list carries it |
| Articles.NamesRestoreRow | src/preprocessing/data_gen/articles.py:62-66 | every list has a name, and joining it with the delimiter gives back a kept row without its newline |
| TypeHelpers.NewArticle | src/typehelpers.py:23-39 | a new article's topic is the empty string, never null |
| TypeHelpers.Fields | src/typehelpers.py:31-39 | the dict's keys are the six attributes in assignment order |
| TypeHelpers.FromProps | src/typehelpers.py:31-39 | an article read back has the node's title and topic |
| TypeHelpers.FieldsRoundTrip | src/typehelpers.py:15-39 | the dict is valid node props, and reading the node back gives the article |
| TypeHelpers.FieldNames | src/typehelpers.py:31-39 | the attribute names are identifiers |
| Values.ToMap | src/neo4j_tools/comm.py:124-142 | a dict's keys are its items' keys |
| Values.ToMapLookup | src/neo4j_tools/comm.py:124-142 | with distinct keys every item is found and the dict has one entry per item |
| Values.Hashable | src/linking/prelinked/linker.py:53-59 | a topic usable as a dict key: anything but a list; `TopicGrouping.GroupStep` shows a list topic fails the grouping |
| Values.Get | src/neo4j_tools/comm.py:177-183 | a missing property reads as null |
| Text.IndexFrom | src/neo4j_tools/comm.py:116-118 | `find` returns the first occurrence at or after the start, or -1 iff there is none |
| Text.IndexOf | src/neo4j_tools/comm.py:116-117 | Python's `find` from the start; `IndexFrom` states it |
| Text.Contains | src/preprocessing/data_gen/articles.py:54 | Python's `pat in s`: `find` is not -1 |
| Text.RemoveAll | src/data_gen/titles.py:35 | `replace(c, '')` leaves no `c` and adds no character |
| Text.Split | src/preprocessing/data_gen/articles.py:62 | `split` gives at least one part |
| Text.JoinSplit | src/preprocessing/data_gen/articles.py:62 | joining the parts with the separator gives the string back |
| Text.RemoveNone | src/preprocessing/data_gen/articles.py:58 | `replace(pat, '')` leaves a string without `pat` unchanged |
| Text.RemoveOnce | src/preprocessing/data_gen/articles.py:58 | removing a character that occurs once takes out exactly that occurrence |
| Text.RemoveLead | src/preprocessing/data_gen/articles.py:58 | a leading occurrence of the pattern is removed |
| Text.RemoveSkip | src/preprocessing/data_gen/articles.py:58 | a leading character the pattern does not start with stays in front |
| Text.SplitJoin | src/neo4j_tools/comm.py:87-91 | splitting a join of separator-free parts gives the parts back |

## Left out

- Driver plumbing is not modelled: connecting (`__init__`'s driver and the configuration error it raises), `__del__`, sessions and `__push`/`__push_get`. A client holds an in-memory store instead, and every query runs against it atomically.
- `create_ftindex` is not modelled. It only calls a stored procedure, and the full-text index affects no node or edge.
- `_SAFECHECK`/`_UNSAFE` are not modelled. The flag is the constant `True`, so the check never raises.
- Python `assert type(...)` checks are not modelled; Dafny's types already guarantee what they test.
- Cypher is not parsed as a whole. Only the property fragments are built and read back; the rest of each query template is given its meaning directly by `Store`.
- Labels are not checked. They are spliced into query text unescaped, just as in the source.
- Property values are strings, lists of strings and the float 1.0; other Python types are not modelled. The float is one opaque constant.
- Floating point is not modelled beyond that constant.
- Nodes carry one label. Neo4j's multi-label nodes are not modelled.
- `MATCH` returns nodes in store order; Neo4j promises no order.
- Python's set iteration order is a free choice: `HyperlinkLinker.Link` picks any remaining title and reports the order it took as a ghost result.
- Comm.Neo4jComm.PushNode: requires props whose keys are distinct identifiers. The source writes any key into the query unescaped, and Neo4j rejects a query with a malformed name; that rejection is not modelled.
- Comm.Neo4jComm.PushRel: requires identifier keys in all three bags, for the same reason.
- Comm.Neo4jComm.PullNode: requires identifier keys in the pattern, for the same reason.
- Comm.Neo4jComm.PullNodeProp: requires identifier keys in the pattern, for the same reason.
- Comm.Neo4jComm.PullRel: requires identifier keys in all three bags, for the same reason.
- LegacyComm.Neo4jComm.CreateAnyNode: requires identifier keys, for the same reason.
- LegacyComm.Neo4jComm.RetrieveAnyNode: requires identifier keys, for the same reason.
- LegacyComm.Neo4jComm.CreateAnyRel: requires identifier keys, for the same reason.
- LegacyComm.Neo4jComm.CreateWikiRel: requires identifier keys, for the same reason.
- HyperlinkLinker.Link: requires the title key to be an identifier, for the same reason.
- TopicLinker.Link: requires the title and topic keys to be identifiers, for the same reason.
- Keyword arguments that collide with a method's own parameters are not modelled: a property named `label`, `cql` or `parameters` would raise a Python `TypeError` in the source.
- Articles.LoadArticles: requires a non-empty delimiter. Python's `split('')` raises `ValueError`, and that exception is not modelled.
- Partial failure is modelled as a `false` result, not an exception. When a linker fails midway, the store keeps the writes made so far, and the contracts of `HyperlinkLinker.Link` and `TopicLinker.Link` state that store.
- The legacy topic linker runs against no store. The legacy client lacks the methods it calls, so its reads are parameters and its writes a returned log of calls.
- Opening and reading files is not modelled. `load_titles` and `load_articles` take the file's lines, each still ending in its newline.
- The Wikipedia fetchers, the command-line entry points (`cli.py`, `main.py`) and the test scripts are not part of this model.
