/** The older graph client of the preprocessing package.

    Its property fragments carry no alias (`{k:$k,...}`), so the caller's keyword arguments
    are the bindings themselves. Its two relation writers use `CREATE`, not `MERGE`, and add
    reserved keys to the bindings: `aID`/`bID` for `create_any_rel` and `title_a`/`title_b`
    for `create_wiki_rel`. A caller property of the same name is overridden by the reserved
    value in the created edge. */
module LegacyComm {
  import opened Values
  import opened Text
  import opened PropertyEncoding
  import opened Store
  import Comm

  /** Reserved binding names. */
  const AId := "aID"
  const BId := "bID"
  const TitleA := "title_a"
  const TitleB := "title_b"
  /** The node property `create_wiki_rel` matches on. */
  const TitleKey := "title"

  /** `{**kwargs, 'aID': id_a, 'bID': id_b}`. */
  function AnyRelBindings(kwargs: Bag, idA: string, idB: string): map<string, Value>
  {
    ToMap(kwargs)[AId := Str(idA)][BId := Str(idB)]
  }

  /** `{**kwargs, **{'title_a': a, 'title_b': b}}`. */
  function WikiRelBindings(kwargs: Bag, titleA: string, titleB: string): map<string, Value>
  {
    ToMap(kwargs) + map[TitleA := Str(titleA), TitleB := Str(titleB)]
  }

  /** The properties an unaliased fragment over `kwargs`' keys stands for under `bindings`:
      each key of `kwargs` with the value bound to it. */
  function EdgeProps(kwargs: Bag, bindings: map<string, Value>): map<string, Value>
    requires forall i | 0 <= i < |kwargs| :: kwargs[i].0 in bindings
  {
    map k | k in KeySet(kwargs) :: bindings[k]
  }

  /** When the bindings cover `kwargs`' keys, the store reads the unaliased fragment built from
      them as `EdgeProps`: every key of `kwargs`, with the bound value, which is the reserved
      value wherever a reserved name is one of `kwargs`' keys. */
  lemma ResolveUnaliased(kwargs: Bag, bindings: map<string, Value>)
    requires ValidBag(kwargs)
    requires forall i | 0 <= i < |kwargs| :: kwargs[i].0 in bindings
    ensures Resolve(Fragment(Keys(kwargs), ""), bindings) == Some(EdgeProps(kwargs, bindings))
  {
    var names := Keys(kwargs);
    forall k | k in names
      ensures IsName(k) && "" + k in bindings
    {
      var i :| 0 <= i < |names| && names[i] == k;
      assert "" + k == k;
    }
    ResolveFragment(names, "", bindings);
    KeysAsSet(kwargs);
    var r := Resolve(Fragment(names, ""), bindings).value;
    var want := EdgeProps(kwargs, bindings);
    assert r.Keys == want.Keys;
    forall k | k in r
      ensures r[k] == want[k]
    {
      assert "" + k == k;
    }
    assert r == want;
  }

  /** `create_any_rel`'s edge properties: the caller's value for every key, except that `aID`
      and `bID` carry `id_a` and `id_b` whatever the caller passed under those names. */
  lemma AnyRelReserved(kwargs: Bag, idA: string, idB: string)
    requires forall i | 0 <= i < |kwargs| :: kwargs[i].0 in AnyRelBindings(kwargs, idA, idB)
    ensures forall k | k in EdgeProps(kwargs, AnyRelBindings(kwargs, idA, idB)) ::
      EdgeProps(kwargs, AnyRelBindings(kwargs, idA, idB))[k] ==
        if k == BId then Str(idB) else if k == AId then Str(idA) else ToMap(kwargs)[k]
    ensures EdgeProps(kwargs, AnyRelBindings(kwargs, idA, idB)).Keys == KeySet(kwargs)
  {
  }

  /** `create_wiki_rel`'s edge properties: the caller's value for every key, except that
      `title_a` and `title_b` carry the two titles. */
  lemma WikiRelReserved(kwargs: Bag, titleA: string, titleB: string)
    requires forall i | 0 <= i < |kwargs| :: kwargs[i].0 in WikiRelBindings(kwargs, titleA, titleB)
    ensures forall k | k in EdgeProps(kwargs, WikiRelBindings(kwargs, titleA, titleB)) ::
      EdgeProps(kwargs, WikiRelBindings(kwargs, titleA, titleB))[k] ==
        if k == TitleB then Str(titleB) else if k == TitleA then Str(titleA) else ToMap(kwargs)[k]
    ensures EdgeProps(kwargs, WikiRelBindings(kwargs, titleA, titleB)).Keys == KeySet(kwargs)
  {
  }

  /** Every key of `kwargs` is bound in either overlay. */
  lemma OverlaysCover(kwargs: Bag, x: string, y: string)
    ensures forall i | 0 <= i < |kwargs| :: kwargs[i].0 in AnyRelBindings(kwargs, x, y)
    ensures forall i | 0 <= i < |kwargs| :: kwargs[i].0 in WikiRelBindings(kwargs, x, y)
  {
    forall i | 0 <= i < |kwargs|
      ensures kwargs[i].0 in ToMap(kwargs)
    {
      assert kwargs[i].0 in KeySet(kwargs);
    }
  }

  /** The nodes, of any label, with some property equal to `v`: what
      `[x in keys(a) WHERE a[x] = $aID]` being non-empty selects. */
  function NodesWithValue(nodes: seq<Node>, v: Value): (r: seq<Node>)
    ensures forall n :: n in r <==> n in nodes && exists k | k in n.props :: n.props[k] == v
  {
    if nodes == [] then []
    else
      var init := nodes[..|nodes| - 1];
      var last := nodes[|nodes| - 1];
      assert forall n :: n in nodes <==> n in init || n == last;
      NodesWithValue(init, v) + (if exists k | k in last.props :: last.props[k] == v then [last] else [])
  }

  /** The nodes, of any label, whose `title` equals `t`: `WHERE a.title = $title_a`. */
  function NodesWithTitle(nodes: seq<Node>, t: string): (r: seq<Node>)
    ensures forall n :: n in r <==> n in nodes && TitleKey in n.props && n.props[TitleKey] == Str(t)
  {
    if nodes == [] then []
    else
      var init := nodes[..|nodes| - 1];
      var last := nodes[|nodes| - 1];
      assert forall n :: n in nodes <==> n in init || n == last;
      NodesWithTitle(init, t)
      + (if TitleKey in last.props && last.props[TitleKey] == Str(t) then [last] else [])
  }

  /** The store after `create_any_rel`: one new edge from every node holding `id_a` under
      some key to every node holding `id_b` under some key. */
  function AnyRelEffect(g: Graph, lbl: string, idA: string, idB: string, m: map<string, Value>): Graph
  {
    g.(edges := CreateEdges(g.edges, Rows(NodesWithValue(g.nodes, Str(idA)), NodesWithValue(g.nodes, Str(idB))), lbl, m))
  }

  /** The store after `create_wiki_rel`: one new edge from every node titled `a` to every
      node titled `b`. */
  function WikiRelEffect(g: Graph, lbl: string, titleA: string, titleB: string, m: map<string, Value>): Graph
  {
    g.(edges := CreateEdges(g.edges, Rows(NodesWithTitle(g.nodes, titleA), NodesWithTitle(g.nodes, titleB)), lbl, m))
  }

  /** Edges created between nodes of the store keep it well formed. */
  lemma CreateEdgesValid(g: Graph, rows: seq<(Node, Node)>, lbl: string, m: map<string, Value>)
    requires Valid(g)
    requires forall p | p in rows :: p.0 in g.nodes && p.1 in g.nodes
    ensures Valid(g.(edges := CreateEdges(g.edges, rows, lbl, m)))
  {
    var es := CreateEdges(g.edges, rows, lbl, m);
    forall e | e in es
      ensures e.src in Ids(g.nodes) && e.dst in Ids(g.nodes)
    {
      var i :| 0 <= i < |es| && es[i] == e;
      if i < |g.edges| {
        assert e in es[..|g.edges|];
      } else {
        assert rows[i - |g.edges|] in rows;
      }
    }
  }

  /** `create_wiki_rel` is not idempotent: a second identical call adds as many edges again,
      one per (a, b) pair, so with any pair the store differs from after one call. */
  lemma WikiRelTwice(g: Graph, lbl: string, titleA: string, titleB: string, m: map<string, Value>)
    ensures var once := WikiRelEffect(g, lbl, titleA, titleB, m);
            var rows := Rows(NodesWithTitle(g.nodes, titleA), NodesWithTitle(g.nodes, titleB));
            |WikiRelEffect(once, lbl, titleA, titleB, m).edges| == |g.edges| + 2 * |rows|
  {
  }

  /** `create_any_rel` is not idempotent either. */
  lemma AnyRelTwice(g: Graph, lbl: string, idA: string, idB: string, m: map<string, Value>)
    ensures var once := AnyRelEffect(g, lbl, idA, idB, m);
            var rows := Rows(NodesWithValue(g.nodes, Str(idA)), NodesWithValue(g.nodes, Str(idB)));
            |AnyRelEffect(once, lbl, idA, idB, m).edges| == |g.edges| + 2 * |rows|
  {
  }

  class Neo4jComm {
    var graph: Graph

    constructor (g: Graph)
      requires Valid(g)
      ensures graph == g
    {
      graph := g;
    }

    /** `clear()`: every node and every edge goes. */
    method Clear()
      requires Valid(graph)
      modifies this
      ensures graph == DetachDelete(old(graph), None)
      ensures graph.nodes == [] && graph.edges == []
      ensures Valid(graph)
    {
      DetachDeleteEffect(graph, None);
      ClearAllEmpties(graph);
      graph := DetachDelete(graph, None);
    }

    /** `create_any_node(label, **kwargs)`: `MERGE (_:label {k:$k,...})` with the keyword
        arguments as bindings; repeating it changes nothing. */
    method CreateAnyNode(lbl: string, kwargs: Bag)
      requires ValidBag(kwargs)
      requires Valid(graph)
      modifies this
      ensures graph == MergeNode(old(graph), lbl, ToMap(kwargs))
      ensures Valid(graph)
      ensures MergeNode(graph, lbl, ToMap(kwargs)) == graph
    {
      var fragment := Comm.ConstructProps(Keys(kwargs), "");
      NodeQueryBindings(kwargs);
      var m := Resolve(fragment, ToMap(kwargs)).value;
      ApplyValid(graph, NodeCall(lbl, m));
      ApplyIdempotent(graph, NodeCall(lbl, m));
      graph := MergeNode(graph, lbl, m);
    }

    /** `retrieve_any_node(label, **kwargs)`: the property maps of the matching nodes. */
    method RetrieveAnyNode(lbl: string, kwargs: Bag) returns (res: seq<map<string, Value>>)
      requires ValidBag(kwargs)
      ensures res == PropsOf(MatchNodes(graph.nodes, lbl, ToMap(kwargs)))
    {
      var fragment := Comm.ConstructProps(Keys(kwargs), "");
      NodeQueryBindings(kwargs);
      var m := Resolve(fragment, ToMap(kwargs)).value;
      var ns := MatchNodes(graph.nodes, lbl, m);
      res := Comm.ExtractNodes([NodeRecords(ns)]);
      NodeRecordItems(ns);
    }

    /** `create_any_rel(label, id_a, id_b, **kwargs)`: `CREATE`s an edge from every node
        holding `id_a` under some key to every node holding `id_b`, with the keyword
        arguments as edge properties, `aID`/`bID` overriding. */
    method CreateAnyRel(lbl: string, idA: string, idB: string, kwargs: Bag)
      requires ValidBag(kwargs)
      requires Valid(graph)
      modifies this
      ensures graph == AnyRelEffect(old(graph), lbl, idA, idB, EdgeProps(kwargs, AnyRelBindings(kwargs, idA, idB)))
      ensures Valid(graph)
    {
      var propNames := Comm.ConstructProps(Keys(kwargs), "");
      var bindings := ToMap(kwargs)[AId := Str(idA)][BId := Str(idB)];
      OverlaysCover(kwargs, idA, idB);
      ResolveUnaliased(kwargs, bindings);
      var m := Resolve(propNames, bindings).value;
      var rows := Rows(NodesWithValue(graph.nodes, Str(idA)), NodesWithValue(graph.nodes, Str(idB)));
      CreateEdgesValid(graph, rows, lbl, m);
      graph := graph.(edges := CreateEdges(graph.edges, rows, lbl, m));
    }

    /** `create_wiki_rel(label, a, b, **kwargs)`: `CREATE`s an edge from every node titled
        `a` to every node titled `b`, with the keyword arguments as edge properties,
        `title_a`/`title_b` overriding. */
    method CreateWikiRel(lbl: string, titleA: string, titleB: string, kwargs: Bag)
      requires ValidBag(kwargs)
      requires Valid(graph)
      modifies this
      ensures graph == WikiRelEffect(old(graph), lbl, titleA, titleB, EdgeProps(kwargs, WikiRelBindings(kwargs, titleA, titleB)))
      ensures Valid(graph)
    {
      var propNames := Comm.ConstructProps(Keys(kwargs), "");
      var moreBindings := map[TitleA := Str(titleA), TitleB := Str(titleB)];
      var bindings := ToMap(kwargs) + moreBindings;
      OverlaysCover(kwargs, titleA, titleB);
      ResolveUnaliased(kwargs, bindings);
      var m := Resolve(propNames, bindings).value;
      var rows := Rows(NodesWithTitle(graph.nodes, titleA), NodesWithTitle(graph.nodes, titleB));
      CreateEdgesValid(graph, rows, lbl, m);
      graph := graph.(edges := CreateEdges(graph.edges, rows, lbl, m));
    }
  }
}
