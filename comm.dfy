/** The graph client: builds each query's property fragments and bindings, hands them to
    the store, and unpacks what comes back.

    The client object holds the store it talks to. A write resolves its fragments against
    its bindings the way the store reads them, and then merges; the contracts state the
    resulting store in terms of the caller's own property dicts, which is what the fragment
    and binding lemmas of `PropertyEncoding` make true. */
module Comm {
  import opened Values
  import opened Text
  import opened Seqs
  import opened PropertyEncoding
  import opened Store

  /** `__construct_props`: appends `k:$<alias>k` for each name in turn, a comma after every
      entry but the last, between braces. The result is the fragment `Fragment` describes. */
  method ConstructProps(names: seq<string>, alias: string) returns (p: string)
    ensures p == Fragment(names, alias)
  {
    ghost var es := Entries(names, alias);
    p := "{";
    var n := |names| - 1;
    var i := 0;
    while i < |names|
      invariant 0 <= i <= |names|
      invariant p == Partial(es, i)
    {
      var k := names[i];
      PartialStep(es, i);
      p := p + (k + ":$" + alias + k);
      if i < n {
        p := p + ",";
      }
      i := i + 1;
    }
    assert es[..i] == es;
    p := p + "}";
  }

  /** The text `__construct_props` has built after `i` entries: the opening brace, the entries
      so far joined by commas, and the comma that follows every entry but the last. */
  ghost function Partial(es: seq<string>, i: nat): string
    requires i <= |es|
  {
    "{" + Join(es[..i], ",") + (if 0 < i < |es| then "," else "")
  }

  lemma PartialStep(es: seq<string>, i: nat)
    requires i < |es|
    ensures Partial(es, i + 1) == Partial(es, i) + es[i] + (if i < |es| - 1 then "," else "")
  {
    assert es[..i + 1] == es[..i] + [es[i]];
    if i == 0 {
      assert Join(es[..i + 1], ",") == es[i];
    } else {
      JoinAppend(es[..i], es[i], ",");
    }
  }

  /** `__extract_neo4j_node`: walks every result, every record and every object in it, and
      keeps the items of the objects whose class name contains `Node`, in that order. */
  method ExtractNodes(gen: seq<seq<seq<ResultObject>>>) returns (res: seq<map<string, Value>>)
    ensures res == NodeItems(Flatten(Flatten(gen)))
  {
    res := [];
    for a := 0 to |gen|
      invariant res == NodeItems(Flatten(Flatten(gen[..a])))
    {
      ghost var before := Flatten(Flatten(gen[..a]));
      res := ScanResult(gen[a], res, before);
      assert gen[..a + 1][..a] == gen[..a];
      assert Flatten(gen[..a + 1]) == Flatten(gen[..a]) + gen[a];
      FlattenAppend(Flatten(gen[..a]), gen[a]);
    }
    assert gen[..|gen|] == gen;
  }

  /** The middle loop, over the records of one result: the nodes found so far for the
      objects `seen`, extended by this result's nodes. */
  method ScanResult(result: seq<seq<ResultObject>>, res0: seq<map<string, Value>>, ghost seen: seq<ResultObject>)
    returns (res: seq<map<string, Value>>)
    requires res0 == NodeItems(seen)
    ensures res == NodeItems(seen + Flatten(result))
  {
    res := res0;
    assert seen + Flatten(result[..0]) == seen;
    for b := 0 to |result|
      invariant res == NodeItems(seen + Flatten(result[..b]))
    {
      res := ScanRecord(result[b], res, seen + Flatten(result[..b]));
      FlattenStep(seen, result, b);
    }
    assert result[..|result|] == result;
  }

  /** One more record of the result scanned. */
  lemma FlattenStep(seen: seq<ResultObject>, result: seq<seq<ResultObject>>, b: nat)
    requires b < |result|
    ensures seen + Flatten(result[..b + 1]) == (seen + Flatten(result[..b])) + result[b]
  {
    assert result[..b + 1][..b] == result[..b];
  }

  /** The inner loop, over the objects of one record. */
  method ScanRecord(record: seq<ResultObject>, res0: seq<map<string, Value>>, ghost seen: seq<ResultObject>)
    returns (res: seq<map<string, Value>>)
    requires res0 == NodeItems(seen)
    ensures res == NodeItems(seen + record)
  {
    res := res0;
    assert seen + record[..0] == seen;
    for c := 0 to |record|
      invariant res == NodeItems(seen + record[..c])
    {
      var obj := record[c];
      ScanStep(seen, record, c);
      if Contains(obj.className, "Node") {
        res := res + [obj.items];
      }
    }
    assert record[..|record|] == record;
  }

  /** One more object of the record scanned. */
  lemma ScanStep(seen: seq<ResultObject>, record: seq<ResultObject>, c: nat)
    requires c < |record|
    ensures NodeItems(seen + record[..c + 1])
         == NodeItems(seen + record[..c]) + (if Contains(record[c].className, "Node") then [record[c].items] else [])
  {
    assert seen + record[..c + 1] == (seen + record[..c]) + [record[c]];
    NodeItemsSnoc(seen + record[..c], record[c]);
  }

  /** The client: each method sends one query to the store it holds and returns what comes
      back. The store stays well formed across every call. */
  class Neo4jComm {
    var graph: Graph

    constructor (g: Graph)
      requires Valid(g)
      ensures graph == g
    {
      graph := g;
    }

    /** `clear(label)`: with no label, or the empty label, every node goes; otherwise the
        nodes of that label; each with all its edges. */
    method Clear(lbl: Option<string>)
      requires Valid(graph)
      modifies this
      ensures graph == DetachDelete(old(graph), if lbl.None? || lbl.value == "" then None else lbl)
      ensures Valid(graph)
      ensures lbl.None? ==> graph.nodes == [] && graph.edges == []
      ensures forall n :: n in graph.nodes <==>
        n in old(graph).nodes && lbl.Some? && lbl.value != "" && n.lbl != lbl.value
    {
      var scope := if lbl.None? || lbl.value == "" then None else lbl;
      DetachDeleteEffect(graph, scope);
      ClearAllEmpties(graph);
      graph := DetachDelete(graph, scope);
    }

    /** `push_node(label, props)`: `MERGE (_:label {k:$k,...})` with the props as bindings.
        Afterwards a node with the label and all of `props` exists, and it is the only one
        unless such nodes existed already. */
    method PushNode(lbl: string, props: Bag)
      requires ValidBag(props)
      requires Valid(graph)
      modifies this
      ensures graph == MergeNode(old(graph), lbl, ToMap(props))
      ensures Valid(graph)
      ensures exists n | n in graph.nodes :: Matches(n, lbl, ToMap(props))
    {
      var fragment := ConstructProps(Keys(props), "");
      NodeQueryBindings(props);
      var m := Resolve(fragment, ToMap(props)).value;
      ApplyValid(graph, NodeCall(lbl, m));
      ApplySatisfies(graph, NodeCall(lbl, m));
      graph := MergeNode(graph, lbl, m);
    }

    /** `pull_node(label, props)`: the property maps of every node with the label whose
        properties include `props`, in store order. */
    method PullNode(lbl: string, props: Bag) returns (res: seq<map<string, Value>>)
      requires ValidBag(props)
      ensures res == PropsOf(MatchNodes(graph.nodes, lbl, ToMap(props)))
    {
      var fragment := ConstructProps(Keys(props), "");
      NodeQueryBindings(props);
      var m := Resolve(fragment, ToMap(props)).value;
      var ns := MatchNodes(graph.nodes, lbl, m);
      res := ExtractNodes([NodeRecords(ns)]);
      NodeRecordItems(ns);
    }

    /** `pull_node_prop(label, props, prop)`: the value of `prop` on every matching node, in
        store order, None where a node lacks it; the records are flattened into one list. */
    method PullNodeProp(lbl: string, props: Bag, prop: string) returns (res: seq<Option<Value>>)
      requires ValidBag(props)
      ensures res == PullProp(MatchNodes(graph.nodes, lbl, ToMap(props)), prop)
    {
      var fragment := ConstructProps(Keys(props), "");
      NodeQueryBindings(props);
      var m := Resolve(fragment, ToMap(props)).value;
      var ns := MatchNodes(graph.nodes, lbl, m);
      var records := seq(|ns|, i requires 0 <= i < |ns| => [Get(ns[i].props, prop)]);
      res := Flatten(records);
      FlattenSingletons(records, PullProp(ns, prop));
    }

    /** `push_rel(...)`: `MATCH (v:vl {..}), (w:wl {..}) MERGE (v)-[_:el {..}]->(w)` with the
        three aliased binding maps merged. Afterwards every matched pair is joined by such an
        edge, and only missing edges were added. */
    method PushRel(vl: string, wl: string, el: string, vProps: Bag, wProps: Bag, eProps: Bag)
      requires ValidBag(vProps) && ValidBag(wProps) && ValidBag(eProps)
      requires Valid(graph)
      modifies this
      ensures graph == MergeRel(old(graph), vl, wl, el, ToMap(vProps), ToMap(wProps), ToMap(eProps))
      ensures Valid(graph)
      ensures Satisfied(graph, RelCall(vl, wl, el, ToMap(vProps), ToMap(wProps), ToMap(eProps)))
    {
      var vNames := ConstructProps(Keys(vProps), VAlias);
      var wNames := ConstructProps(Keys(wProps), WAlias);
      var eNames := ConstructProps(Keys(eProps), EAlias);
      var bindings := RelBindings(vProps, wProps, eProps);
      RelQueryBindings(vProps, wProps, eProps);
      var vm := Resolve(vNames, bindings).value;
      var wm := Resolve(wNames, bindings).value;
      var em := Resolve(eNames, bindings).value;
      ApplyValid(graph, RelCall(vl, wl, el, vm, wm, em));
      ApplySatisfies(graph, RelCall(vl, wl, el, vm, wm, em));
      graph := MergeRel(graph, vl, wl, el, vm, wm, em);
    }

    /** `pull_rel(...)`: for every matched pair joined by a matching edge, in row order, the
        from-node's properties followed by the to-node's: even positions hold `v`, odd
        positions hold `w`. */
    method PullRel(vl: string, wl: string, el: string, vProps: Bag, wProps: Bag, eProps: Bag)
      returns (res: seq<map<string, Value>>)
      requires ValidBag(vProps) && ValidBag(wProps) && ValidBag(eProps)
      ensures var rows := LinkedRows(graph, vl, wl, el, ToMap(vProps), ToMap(wProps), ToMap(eProps));
        |res| == 2 * |rows|
        && forall i | 0 <= i < |rows| :: res[2 * i] == rows[i].0.props && res[2 * i + 1] == rows[i].1.props
    {
      var vNames := ConstructProps(Keys(vProps), VAlias);
      var wNames := ConstructProps(Keys(wProps), WAlias);
      var eNames := ConstructProps(Keys(eProps), EAlias);
      var bindings := RelBindings(vProps, wProps, eProps);
      RelQueryBindings(vProps, wProps, eProps);
      var vm := Resolve(vNames, bindings).value;
      var wm := Resolve(wNames, bindings).value;
      var em := Resolve(eNames, bindings).value;
      var rows := LinkedRows(graph, vl, wl, el, vm, wm, em);
      res := ExtractNodes([PairRecords(rows)]);
      PairRecordItems(rows);
    }
  }
}
