/** The property graph the clients talk to, held in memory in place of a Neo4j database.

    Nodes carry one label and a property map; edges carry a label and a property map and
    join two nodes by id. The Cypher clauses the clients send are given their meaning here:
    a node pattern `(x:L {..})` matches by label and property inclusion, `MERGE` creates only
    what no existing node or edge already matches, `CREATE` always adds, and
    `DETACH DELETE` removes nodes together with their edges. Results come back in store
    order. */
module Store {
  import opened Values
  import opened Seqs
  import opened Text

  datatype Node = Node(id: nat, lbl: string, props: map<string, Value>)
  datatype Edge = Edge(src: nat, lbl: string, props: map<string, Value>, dst: nat)
  datatype Graph = Graph(nodes: seq<Node>, edges: seq<Edge>, nextId: nat)

  /** `props` holds every entry of `m`: what the pattern `{k: $p, ...}` asks of a node or edge. */
  predicate Includes(props: map<string, Value>, m: map<string, Value>)
  {
    forall k | k in m :: k in props && props[k] == m[k]
  }

  /** The node pattern `(x:label m)`. */
  predicate Matches(n: Node, lbl: string, m: map<string, Value>)
  {
    n.lbl == lbl && Includes(n.props, m)
  }

  function Ids(nodes: seq<Node>): set<nat>
  {
    set n | n in nodes :: n.id
  }

  /** Ids are distinct and below `nextId`; every edge joins two nodes of the store. */
  predicate Valid(g: Graph)
  {
    (forall i, j :: 0 <= i < j < |g.nodes| ==> g.nodes[i].id != g.nodes[j].id)
    && (forall n | n in g.nodes :: n.id < g.nextId)
    && (forall e | e in g.edges :: e.src in Ids(g.nodes) && e.dst in Ids(g.nodes))
  }

  /** `MATCH (n:label m)`: the matching nodes, in store order. */
  function MatchNodes(nodes: seq<Node>, lbl: string, m: map<string, Value>): (r: seq<Node>)
    ensures |r| <= |nodes|
    ensures forall n :: n in r <==> n in nodes && Matches(n, lbl, m)
  {
    if nodes == [] then []
    else
      var init := nodes[..|nodes| - 1];
      var last := nodes[|nodes| - 1];
      assert forall n :: n in nodes <==> n in init || n == last;
      MatchNodes(init, lbl, m) + (if Matches(last, lbl, m) then [last] else [])
  }

  /** `RETURN n.prop` over matched nodes: the value per node, None (Cypher null) when the
      node has no such property. */
  function PullProp(ns: seq<Node>, prop: string): (r: seq<Option<Value>>)
    ensures |r| == |ns|
    ensures forall i :: 0 <= i < |ns| ==> (r[i].Some? <==> prop in ns[i].props)
    ensures forall i :: 0 <= i < |ns| ==> r[i].Some? ==> r[i].value == ns[i].props[prop]
  {
    seq(|ns|, i requires 0 <= i < |ns| => Get(ns[i].props, prop))
  }

  /** The property maps of nodes, in order. */
  function PropsOf(ns: seq<Node>): seq<map<string, Value>>
  {
    seq(|ns|, i requires 0 <= i < |ns| => ns[i].props)
  }

  // ---------------------------------------------------------------------------------
  // MERGE and CREATE.

  /** `MERGE (_:label m)`: afterwards a node with the label and `m` exists, and the number
      of such nodes is max(1, the number before), so a merge never duplicates a node. The
      store is unchanged when a node matches, otherwise one new node with exactly `m` as its
      properties is added; edges are untouched. */
  function MergeNode(g: Graph, lbl: string, m: map<string, Value>): (r: Graph)
    ensures exists n | n in r.nodes :: Matches(n, lbl, m)
    ensures var before := |MatchNodes(g.nodes, lbl, m)|;
            |MatchNodes(r.nodes, lbl, m)| == if before == 0 then 1 else before
    ensures r.edges == g.edges
    ensures |MatchNodes(g.nodes, lbl, m)| > 0 ==> r == g
    ensures |MatchNodes(g.nodes, lbl, m)| == 0 ==>
      r.nodes == g.nodes + [Node(g.nextId, lbl, m)] && r.nextId == g.nextId + 1
  {
    if |MatchNodes(g.nodes, lbl, m)| > 0 then
      assert MatchNodes(g.nodes, lbl, m)[0] in MatchNodes(g.nodes, lbl, m);
      g
    else
      var n := Node(g.nextId, lbl, m);
      var ns := g.nodes + [n];
      assert ns[..|ns| - 1] == g.nodes;
      assert Matches(n, lbl, m) && ns[|g.nodes|] == n;
      Graph(ns, g.edges, g.nextId + 1)
  }

  /** The rows of `MATCH (v ...), (w ...)`: every pair, `v` in the outer position. */
  function Rows(vs: seq<Node>, ws: seq<Node>): (r: seq<(Node, Node)>)
    ensures forall p :: p in r <==> p.0 in vs && p.1 in ws
  {
    if vs == [] then []
    else
      var init := vs[..|vs| - 1];
      var last := vs[|vs| - 1];
      assert forall n :: n in vs <==> n in init || n == last;
      RowOfMembers(last, ws);
      Rows(init, ws) + RowOf(last, ws)
  }

  /** The rows one `v` node forms with every `w` node. */
  function RowOf(v: Node, ws: seq<Node>): seq<(Node, Node)>
  {
    seq(|ws|, j requires 0 <= j < |ws| => (v, ws[j]))
  }

  lemma RowOfMembers(v: Node, ws: seq<Node>)
    ensures forall p :: p in RowOf(v, ws) <==> p.0 == v && p.1 in ws
  {
    var row := RowOf(v, ws);
    forall p: (Node, Node) | p.0 == v && p.1 in ws
      ensures p in row
    {
      var j :| 0 <= j < |ws| && ws[j] == p.1;
      assert row[j] == p;
    }
  }

  /** Some edge from `src` to `dst` has the label and includes the properties `m`. */
  predicate Covered(edges: seq<Edge>, src: nat, dst: nat, lbl: string, m: map<string, Value>)
  {
    exists e | e in edges :: e.src == src && e.dst == dst && e.lbl == lbl && Includes(e.props, m)
  }

  /** An edge the relation pattern `(v)-[:label m]->(w)` could have produced for one of `rows`. */
  predicate FromRow(e: Edge, rows: seq<(Node, Node)>, lbl: string, m: map<string, Value>)
  {
    e.lbl == lbl && e.props == m && exists p | p in rows :: e.src == p.0.id && e.dst == p.1.id
  }

  /** `MERGE (v)-[_:label m]->(w)` over the rows, one row after another: an edge is added
      for a row only when no edge already covers it. The old edges are kept in front; every
      row ends up covered; every added edge comes from a row; and nothing is added when
      every row is covered already. */
  function MergeEdges(edges: seq<Edge>, rows: seq<(Node, Node)>, lbl: string, m: map<string, Value>)
    : (r: seq<Edge>)
    ensures |edges| <= |r| && r[..|edges|] == edges
    ensures forall p | p in rows :: Covered(r, p.0.id, p.1.id, lbl, m)
    ensures forall i | |edges| <= i < |r| :: FromRow(r[i], rows, lbl, m)
    ensures (forall p | p in rows :: Covered(edges, p.0.id, p.1.id, lbl, m)) ==> r == edges
  {
    if rows == [] then edges
    else
      var init := rows[..|rows| - 1];
      var (v, w) := rows[|rows| - 1];
      assert forall p :: p in rows <==> p in init || p == (v, w);
      var es := MergeEdges(edges, init, lbl, m);
      FromRowWiden(es, |edges|, init, rows, lbl, m);
      if Covered(es, v.id, w.id, lbl, m) then es
      else
        var x := Edge(v.id, lbl, m, w.id);
        var r := es + [x];
        assert FromRow(x, rows, lbl, m) by {
          assert rows[|rows| - 1] in rows;
        }
        FromRowSnoc(es, |edges|, x, rows, lbl, m);
        CoveredGrows(es, x, lbl, m);
        r
  }

  /** Appending an edge the rows could have produced keeps every edge from `k` on one the
      rows could have produced. */
  lemma FromRowSnoc(es: seq<Edge>, k: nat, x: Edge, rows: seq<(Node, Node)>, lbl: string, m: map<string, Value>)
    requires k <= |es|
    requires forall i | k <= i < |es| :: FromRow(es[i], rows, lbl, m)
    requires FromRow(x, rows, lbl, m)
    ensures (es + [x])[..k] == es[..k]
    ensures forall i | k <= i < |es + [x]| :: FromRow((es + [x])[i], rows, lbl, m)
  {
    forall i | k <= i < |es + [x]|
      ensures FromRow((es + [x])[i], rows, lbl, m)
    {
      if i < |es| {
        assert (es + [x])[i] == es[i];
      }
    }
  }

  /** An edge a subset of the rows could have produced, the rows could have produced. */
  lemma FromRowWiden(es: seq<Edge>, k: nat, rows: seq<(Node, Node)>, more: seq<(Node, Node)>,
                     lbl: string, m: map<string, Value>)
    requires forall p | p in rows :: p in more
    requires forall i | k <= i < |es| :: FromRow(es[i], rows, lbl, m)
    ensures forall i | k <= i < |es| :: FromRow(es[i], more, lbl, m)
  {
    forall i | k <= i < |es|
      ensures FromRow(es[i], more, lbl, m)
    {
      assert FromRow(es[i], rows, lbl, m);
      var p :| p in rows && es[i].src == p.0.id && es[i].dst == p.1.id;
      assert p in more;
    }
  }

  /** Appending an edge keeps every covered pair covered. */
  lemma CoveredGrows(es: seq<Edge>, x: Edge, lbl: string, m: map<string, Value>)
    ensures forall s, d :: Covered(es, s, d, lbl, m) ==> Covered(es + [x], s, d, lbl, m)
  {
    forall s, d | Covered(es, s, d, lbl, m)
      ensures Covered(es + [x], s, d, lbl, m)
    {
      var e :| e in es && e.src == s && e.dst == d && e.lbl == lbl && Includes(e.props, m);
      assert e in es + [x];
    }
  }

  /** `MATCH (v:vl vm), (w:wl wm) MERGE (v)-[_:el em]->(w)`. */
  function MergeRel(g: Graph, vl: string, wl: string, el: string,
                    vm: map<string, Value>, wm: map<string, Value>, em: map<string, Value>): (r: Graph)
    ensures r.nodes == g.nodes && r.nextId == g.nextId
    ensures |g.edges| <= |r.edges| && r.edges[..|g.edges|] == g.edges
    ensures forall v, w | v in g.nodes && w in g.nodes && Matches(v, vl, vm) && Matches(w, wl, wm) ::
      Covered(r.edges, v.id, w.id, el, em)
  {
    var rows := Rows(MatchNodes(g.nodes, vl, vm), MatchNodes(g.nodes, wl, wm));
    var r := g.(edges := MergeEdges(g.edges, rows, el, em));
    MatchPairsCovered(g.nodes, rows, r.edges, vl, wl, el, vm, wm, em);
    r
  }

  /** Every pair of matching nodes is a row of the match, so covering the rows covers it. */
  lemma MatchPairsCovered(ns: seq<Node>, rows: seq<(Node, Node)>, edges: seq<Edge>,
                          vl: string, wl: string, el: string,
                          vm: map<string, Value>, wm: map<string, Value>, em: map<string, Value>)
    requires rows == Rows(MatchNodes(ns, vl, vm), MatchNodes(ns, wl, wm))
    requires forall p | p in rows :: Covered(edges, p.0.id, p.1.id, el, em)
    ensures forall v, w | v in ns && w in ns && Matches(v, vl, vm) && Matches(w, wl, wm) ::
      Covered(edges, v.id, w.id, el, em)
  {
    forall v, w | v in ns && w in ns && Matches(v, vl, vm) && Matches(w, wl, wm)
      ensures Covered(edges, v.id, w.id, el, em)
    {
      assert (v, w) in rows;
    }
  }

  /** `CREATE (a)-[_:label m]->(b)` over the rows: one new edge per row, whatever exists. */
  function CreateEdges(edges: seq<Edge>, rows: seq<(Node, Node)>, lbl: string, m: map<string, Value>)
    : (r: seq<Edge>)
    ensures |r| == |edges| + |rows|
    ensures r[..|edges|] == edges
    ensures forall i | 0 <= i < |rows| :: r[|edges| + i] == Edge(rows[i].0.id, lbl, m, rows[i].1.id)
  {
    edges + seq(|rows|, i requires 0 <= i < |rows| => Edge(rows[i].0.id, lbl, m, rows[i].1.id))
  }

  /** The rows of `MATCH (v ...), (w ...) WHERE (v)-[:el em]->(w)`, in row order. */
  function LinkedRows(g: Graph, vl: string, wl: string, el: string,
                      vm: map<string, Value>, wm: map<string, Value>, em: map<string, Value>)
    : (r: seq<(Node, Node)>)
    ensures forall p :: p in r <==>
      && p.0 in g.nodes && Matches(p.0, vl, vm)
      && p.1 in g.nodes && Matches(p.1, wl, wm)
      && Covered(g.edges, p.0.id, p.1.id, el, em)
  {
    Linked(Rows(MatchNodes(g.nodes, vl, vm), MatchNodes(g.nodes, wl, wm)), g.edges, el, em)
  }

  function Linked(rows: seq<(Node, Node)>, edges: seq<Edge>, el: string, em: map<string, Value>)
    : (r: seq<(Node, Node)>)
    ensures forall p :: p in r <==> p in rows && Covered(edges, p.0.id, p.1.id, el, em)
  {
    if rows == [] then []
    else
      var init := rows[..|rows| - 1];
      var last := rows[|rows| - 1];
      assert forall p :: p in rows <==> p in init || p == last;
      Linked(init, edges, el, em)
      + (if Covered(edges, last.0.id, last.1.id, el, em) then [last] else [])
  }

  // ---------------------------------------------------------------------------------
  // DETACH DELETE.

  /** A node `MATCH (x:label)` selects; no label selects every node. */
  predicate InScope(n: Node, scope: Option<string>)
  {
    scope.None? || n.lbl == scope.value
  }

  function KeepNodes(nodes: seq<Node>, scope: Option<string>): (r: seq<Node>)
    ensures forall n :: n in r <==> n in nodes && !InScope(n, scope)
    ensures scope.None? ==> r == []
  {
    if nodes == [] then []
    else
      var init := nodes[..|nodes| - 1];
      var last := nodes[|nodes| - 1];
      assert forall n :: n in nodes <==> n in init || n == last;
      KeepNodes(init, scope) + (if InScope(last, scope) then [] else [last])
  }

  function KeepEdges(edges: seq<Edge>, gone: set<nat>): (r: seq<Edge>)
    ensures forall e :: e in r <==> e in edges && e.src !in gone && e.dst !in gone
    ensures (forall e | e in edges :: e.src in gone) ==> r == []
  {
    if edges == [] then []
    else
      var init := edges[..|edges| - 1];
      var last := edges[|edges| - 1];
      assert forall e :: e in edges <==> e in init || e == last;
      KeepEdges(init, gone) + (if last.src in gone || last.dst in gone then [] else [last])
  }

  /** `MATCH (x[:label]) DETACH DELETE x`: the selected nodes go, and with them every edge
      touching one of them. */
  function DetachDelete(g: Graph, scope: Option<string>): (r: Graph)
    ensures forall n :: n in r.nodes <==> n in g.nodes && !InScope(n, scope)
    ensures forall e :: e in r.edges <==>
      e in g.edges && forall n | n in g.nodes && InScope(n, scope) :: n.id != e.src && n.id != e.dst
    ensures r.nextId == g.nextId
  {
    var gone := set n | n in g.nodes && InScope(n, scope) :: n.id;
    Graph(KeepNodes(g.nodes, scope), KeepEdges(g.edges, gone), g.nextId)
  }

  /** After a clear the store is still well formed, and an edge of the store stays exactly
      when neither of its ends was in scope. */
  lemma DetachDeleteEffect(g: Graph, scope: Option<string>)
    requires Valid(g)
    ensures Valid(DetachDelete(g, scope))
    ensures forall e | e in g.edges :: e in DetachDelete(g, scope).edges <==>
      (forall n | n in g.nodes && (n.id == e.src || n.id == e.dst) :: !InScope(n, scope))
  {
    var r := DetachDelete(g, scope);
    var gone := set n | n in g.nodes && InScope(n, scope) :: n.id;
    forall i, j | 0 <= i < j < |r.nodes|
      ensures r.nodes[i].id != r.nodes[j].id
    {
      assert r.nodes[i] in g.nodes && r.nodes[j] in g.nodes;
      KeepNodesOrder(g.nodes, scope, i, j);
    }
    forall e | e in r.edges
      ensures e.src in Ids(r.nodes) && e.dst in Ids(r.nodes)
    {
      assert e in g.edges;
      var a :| a in g.nodes && a.id == e.src;
      var b :| b in g.nodes && b.id == e.dst;
      assert a in r.nodes && b in r.nodes;
    }
    forall e | e in g.edges
      ensures e in r.edges <==>
        (forall n | n in g.nodes && (n.id == e.src || n.id == e.dst) :: !InScope(n, scope))
    {
      if e !in r.edges {
        var n :| n in g.nodes && InScope(n, scope) && (n.id == e.src || n.id == e.dst);
      }
    }
  }

  /** Kept nodes stay in store order, so kept positions map to increasing original ones. */
  lemma {:induction false} KeepNodesOrder(nodes: seq<Node>, scope: Option<string>, i: int, j: int)
    requires (forall a, b :: 0 <= a < b < |nodes| ==> nodes[a].id != nodes[b].id)
    requires 0 <= i < j < |KeepNodes(nodes, scope)|
    ensures KeepNodes(nodes, scope)[i].id != KeepNodes(nodes, scope)[j].id
  {
    var init := nodes[..|nodes| - 1];
    var last := nodes[|nodes| - 1];
    var k := KeepNodes(init, scope);
    if j < |k| {
      KeepNodesOrder(init, scope, i, j);
    } else {
      assert KeepNodes(nodes, scope)[j] == last;
      assert KeepNodes(nodes, scope)[i] in init;
      var a :| 0 <= a < |init| && init[a] == KeepNodes(nodes, scope)[i];
      assert nodes[a] == init[a];
    }
  }

  /** Clearing without a label leaves an empty store. */
  lemma ClearAllEmpties(g: Graph)
    requires Valid(g)
    ensures DetachDelete(g, None).nodes == [] && DetachDelete(g, None).edges == []
  {
    var r := DetachDelete(g, None);
    var gone := set n | n in g.nodes && InScope(n, None) :: n.id;
    assert gone == Ids(g.nodes);
  }

  // ---------------------------------------------------------------------------------
  // Writes as a log of calls.

  /** A write the clients issue, with its property maps already resolved. */
  datatype Call =
    | NodeCall(lbl: string, props: map<string, Value>)
    | RelCall(vLabel: string, wLabel: string, eLabel: string,
              vProps: map<string, Value>, wProps: map<string, Value>, eProps: map<string, Value>)

  /** The effect of one MERGE write. */
  function Apply(g: Graph, c: Call): Graph
  {
    match c
    case NodeCall(l, m) => MergeNode(g, l, m)
    case RelCall(vl, wl, el, vm, wm, em) => MergeRel(g, vl, wl, el, vm, wm, em)
  }

  /** The effect of a sequence of writes, in order. */
  function ApplyAll(g: Graph, cs: seq<Call>): Graph
  {
    if cs == [] then g else Apply(ApplyAll(g, cs[..|cs| - 1]), cs[|cs| - 1])
  }

  /** What a write leaves behind: a matching node, or a covering edge for every row. */
  predicate Satisfied(g: Graph, c: Call)
  {
    match c
    case NodeCall(l, m) => exists n | n in g.nodes :: Matches(n, l, m)
    case RelCall(vl, wl, el, vm, wm, em) =>
      forall v, w | v in g.nodes && w in g.nodes && Matches(v, vl, vm) && Matches(w, wl, wm) ::
        Covered(g.edges, v.id, w.id, el, em)
  }

  /** A MERGE write leaves what it asks for. */
  lemma ApplySatisfies(g: Graph, c: Call)
    ensures Satisfied(Apply(g, c), c)
  {
    match c
    case NodeCall(l, m) =>
    case RelCall(vl, wl, el, vm, wm, em) =>
  }

  /** A MERGE write whose pattern is already present changes nothing. */
  lemma ApplyNoop(g: Graph, c: Call)
    requires Satisfied(g, c)
    ensures Apply(g, c) == g
  {
    match c
    case NodeCall(l, m) =>
      var n :| n in g.nodes && Matches(n, l, m);
      assert n in MatchNodes(g.nodes, l, m);
    case RelCall(vl, wl, el, vm, wm, em) =>
  }

  /** MERGE is idempotent: writing the same thing twice is writing it once. */
  lemma ApplyIdempotent(g: Graph, c: Call)
    ensures Apply(Apply(g, c), c) == Apply(g, c)
  {
    ApplySatisfies(g, c);
    ApplyNoop(Apply(g, c), c);
  }

  /** Applying any write keeps the old nodes in front and the old edges in front. */
  lemma ApplyGrows(g: Graph, c: Call)
    ensures |g.nodes| <= |Apply(g, c).nodes| && Apply(g, c).nodes[..|g.nodes|] == g.nodes
    ensures |g.edges| <= |Apply(g, c).edges| && Apply(g, c).edges[..|g.edges|] == g.edges
    ensures c.RelCall? ==> Apply(g, c).nodes == g.nodes
  {
  }

  /** A node write stays satisfied whatever is written next. */
  lemma NodeCallPersists(g: Graph, c: Call, d: Call)
    requires c.NodeCall? && Satisfied(g, c)
    ensures Satisfied(Apply(g, d), c)
  {
    var n :| n in g.nodes && Matches(n, c.lbl, c.props);
    ApplyGrows(g, d);
    var ns := Apply(g, d).nodes;
    assert n in ns[..|g.nodes|];
  }

  /** A relation write stays satisfied when only relation writes follow. */
  lemma RelCallPersists(g: Graph, c: Call, d: Call)
    requires c.RelCall? && d.RelCall? && Satisfied(g, c)
    ensures Satisfied(Apply(g, d), c)
  {
    var g' := Apply(g, d);
    ApplyGrows(g, d);
    forall v, w | v in g'.nodes && w in g'.nodes && Matches(v, c.vLabel, c.vProps) && Matches(w, c.wLabel, c.wProps)
      ensures Covered(g'.edges, v.id, w.id, c.eLabel, c.eProps)
    {
      var e :| e in g.edges && e.src == v.id && e.dst == w.id && e.lbl == c.eLabel && Includes(e.props, c.eProps);
      assert e in g'.edges[..|g.edges|];
    }
  }

  /** A satisfied write stays satisfied after a later one, as long as no node write follows
      a relationship write. */
  lemma CallPersists(g: Graph, c: Call, d: Call)
    requires Satisfied(g, c) && (c.NodeCall? || d.RelCall?)
    ensures Satisfied(Apply(g, d), c)
  {
    if c.NodeCall? {
      NodeCallPersists(g, c, d);
    } else {
      RelCallPersists(g, c, d);
    }
  }

  predicate NodesFirst(cs: seq<Call>)
  {
    forall i, j :: 0 <= i < j < |cs| && cs[j].NodeCall? ==> cs[i].NodeCall?
  }

  /** Node writes first, then relation writes: at the end every write of the log is
      satisfied, none undone by a later one. */
  lemma {:induction false} ApplyAllSatisfies(g: Graph, cs: seq<Call>)
    requires NodesFirst(cs)
    ensures forall c | c in cs :: Satisfied(ApplyAll(g, cs), c)
  {
    if cs != [] {
      var init := cs[..|cs| - 1];
      var last := cs[|cs| - 1];
      var h := ApplyAll(g, init);
      ApplyAllSatisfies(g, init);
      ApplySatisfies(h, last);
      forall c | c in cs
        ensures Satisfied(Apply(h, last), c)
      {
        if c != last {
          var i :| 0 <= i < |init| && init[i] == c;
          assert cs[i] == c;
          CallPersists(h, c, last);
        }
      }
    }
  }

  /** Node writes leave the edges as they were. */
  lemma {:induction false} NodeCallsKeepEdges(g: Graph, cs: seq<Call>)
    requires forall c | c in cs :: c.NodeCall?
    ensures ApplyAll(g, cs).edges == g.edges
  {
    if cs != [] {
      var init := cs[..|cs| - 1];
      assert forall c | c in init :: c in cs;
      NodeCallsKeepEdges(g, init);
      assert cs[|cs| - 1] in cs;
    }
  }

  /** A log whose every write is already satisfied changes nothing. */
  lemma {:induction false} ApplyAllNoop(g: Graph, cs: seq<Call>)
    requires forall c | c in cs :: Satisfied(g, c)
    ensures ApplyAll(g, cs) == g
  {
    if cs != [] {
      var init := cs[..|cs| - 1];
      assert forall c | c in init :: c in cs;
      ApplyAllNoop(g, init);
      ApplyNoop(g, cs[|cs| - 1]);
    }
  }

  /** Running a log and then, on the result, any log made only of writes from the first
      leaves the store as the first run left it. */
  lemma Rerun(g: Graph, cs: seq<Call>, again: seq<Call>)
    requires NodesFirst(cs)
    requires forall c | c in again :: c in cs
    ensures ApplyAll(ApplyAll(g, cs), again) == ApplyAll(g, cs)
  {
    ApplyAllSatisfies(g, cs);
    ApplyAllNoop(ApplyAll(g, cs), again);
  }

  /** A log run in two stretches: the second stretch runs on what the first left. */
  lemma {:induction false} ApplyAllAppend(g: Graph, a: seq<Call>, b: seq<Call>)
    ensures ApplyAll(g, a + b) == ApplyAll(ApplyAll(g, a), b)
  {
    if b == [] {
      assert a + b == a;
    } else {
      assert (a + b)[..|a + b| - 1] == a + b[..|b| - 1];
      ApplyAllAppend(g, a, b[..|b| - 1]);
    }
  }

  /** A node of another label is invisible to `MATCH` on `l`. */
  lemma MatchNodesOther(nodes: seq<Node>, n: Node, l: string, m: map<string, Value>)
    requires n.lbl != l
    ensures MatchNodes(nodes + [n], l, m) == MatchNodes(nodes, l, m)
  {
    assert (nodes + [n])[..|nodes|] == nodes;
  }

  /** Writes that create no node of label `l` leave every `MATCH` on `l` returning what it
      returned before, in the same order. */
  lemma {:induction false} ApplyAllKeepsMatches(g: Graph, cs: seq<Call>, l: string)
    requires forall c | c in cs :: c.NodeCall? ==> c.lbl != l
    ensures forall m :: MatchNodes(ApplyAll(g, cs).nodes, l, m) == MatchNodes(g.nodes, l, m)
  {
    if cs != [] {
      var init := cs[..|cs| - 1];
      var c := cs[|cs| - 1];
      assert forall d | d in init :: d in cs;
      ApplyAllKeepsMatches(g, init, l);
      var h := ApplyAll(g, init);
      forall m
        ensures MatchNodes(Apply(h, c).nodes, l, m) == MatchNodes(h.nodes, l, m)
      {
        if c.NodeCall? && |MatchNodes(h.nodes, c.lbl, c.props)| == 0 {
          MatchNodesOther(h.nodes, Node(h.nextId, c.lbl, c.props), l, m);
        }
      }
    }
  }

  /** The edge `e` is one that the relation write `c` could add over `nodes`: it joins a
      node matching the write's first pattern to one matching its second, with the write's
      label and properties. */
  predicate Produced(nodes: seq<Node>, e: Edge, c: Call)
    requires c.RelCall?
  {
    e.lbl == c.eLabel && e.props == c.eProps
    && exists v, w | v in nodes && w in nodes ::
         Matches(v, c.vLabel, c.vProps) && Matches(w, c.wLabel, c.wProps) && e.src == v.id && e.dst == w.id
  }

  /** A log of relation writes keeps the nodes and the old edges, and every edge it adds was
      produced by one of its writes. */
  lemma {:induction false} AddedEdges(g: Graph, cs: seq<Call>)
    requires forall c | c in cs :: c.RelCall?
    ensures ApplyAll(g, cs).nodes == g.nodes
    ensures |g.edges| <= |ApplyAll(g, cs).edges| && ApplyAll(g, cs).edges[..|g.edges|] == g.edges
    ensures forall i | |g.edges| <= i < |ApplyAll(g, cs).edges| ::
      exists c | c in cs :: Produced(g.nodes, ApplyAll(g, cs).edges[i], c)
  {
    if cs != [] {
      var init := cs[..|cs| - 1];
      var c := cs[|cs| - 1];
      assert forall d | d in init :: d in cs;
      AddedEdges(g, init);
      var h := ApplyAll(g, init);
      var r := Apply(h, c);
      OneRelWrite(h, c);
      assert ApplyAll(g, cs) == r;
      assert c in cs;
      AddedStep(g, h, r, init, c, cs);
    }
  }

  /** The step of `AddedEdges`: the edges added by the front of the log and those added by
      its last write are together the edges added by the whole log. */
  lemma AddedStep(g: Graph, h: Graph, r: Graph, init: seq<Call>, c: Call, cs: seq<Call>)
    requires forall d | d in cs :: d.RelCall?
    requires c in cs && forall d | d in init :: d in cs
    requires h.nodes == g.nodes && |g.edges| <= |h.edges| && h.edges[..|g.edges|] == g.edges
    requires forall i | |g.edges| <= i < |h.edges| :: exists d | d in init :: Produced(g.nodes, h.edges[i], d)
    requires r.nodes == h.nodes && |h.edges| <= |r.edges| && r.edges[..|h.edges|] == h.edges
    requires forall i | |h.edges| <= i < |r.edges| :: Produced(h.nodes, r.edges[i], c)
    ensures r.nodes == g.nodes && |g.edges| <= |r.edges| && r.edges[..|g.edges|] == g.edges
    ensures forall i | |g.edges| <= i < |r.edges| :: exists d | d in cs :: Produced(g.nodes, r.edges[i], d)
  {
    assert r.edges[..|g.edges|] == h.edges[..|g.edges|];
    forall i | |g.edges| <= i < |r.edges|
      ensures exists d | d in cs :: Produced(g.nodes, r.edges[i], d)
    {
      if i < |h.edges| {
        assert r.edges[i] == h.edges[i];
        var d :| d in init && Produced(g.nodes, h.edges[i], d);
        assert d in cs && Produced(g.nodes, r.edges[i], d);
      } else {
        assert Produced(g.nodes, r.edges[i], c);
      }
    }
  }

  /** One relation write keeps the nodes and the old edges and adds only edges it produced. */
  lemma OneRelWrite(h: Graph, c: Call)
    requires c.RelCall?
    ensures Apply(h, c).nodes == h.nodes
    ensures |h.edges| <= |Apply(h, c).edges| && Apply(h, c).edges[..|h.edges|] == h.edges
    ensures forall i | |h.edges| <= i < |Apply(h, c).edges| :: Produced(h.nodes, Apply(h, c).edges[i], c)
  {
    var r := Apply(h, c);
    var rows := Rows(MatchNodes(h.nodes, c.vLabel, c.vProps), MatchNodes(h.nodes, c.wLabel, c.wProps));
    assert r.edges == MergeEdges(h.edges, rows, c.eLabel, c.eProps);
    forall i | |h.edges| <= i < |r.edges|
      ensures Produced(h.nodes, r.edges[i], c)
    {
      assert FromRow(r.edges[i], rows, c.eLabel, c.eProps);
      var p :| p in rows && r.edges[i].src == p.0.id && r.edges[i].dst == p.1.id;
      assert p.0 in h.nodes && p.1 in h.nodes;
    }
  }

  /** Every write keeps the store well formed. */
  lemma ApplyValid(g: Graph, c: Call)
    requires Valid(g)
    ensures Valid(Apply(g, c))
  {
    match c
    case NodeCall(l, m) => NodeWriteValid(g, l, m);
    case RelCall(vl, wl, el, vm, wm, em) => RelWriteValid(g, vl, wl, el, vm, wm, em);
  }

  /** A node write keeps the store well formed: a new node gets a fresh id, and the edges
      still join nodes of the store. */
  lemma NodeWriteValid(g: Graph, l: string, m: map<string, Value>)
    requires Valid(g)
    ensures Valid(MergeNode(g, l, m))
  {
    var r := MergeNode(g, l, m);
    if r != g {
      forall e | e in r.edges
        ensures e.src in Ids(r.nodes) && e.dst in Ids(r.nodes)
      {
        var a :| a in g.nodes && a.id == e.src;
        var b :| b in g.nodes && b.id == e.dst;
        assert a in r.nodes && b in r.nodes;
      }
    }
  }

  /** A relation write keeps the store well formed: the nodes stay, and each new edge joins
      two matched nodes. */
  lemma RelWriteValid(g: Graph, vl: string, wl: string, el: string,
                      vm: map<string, Value>, wm: map<string, Value>, em: map<string, Value>)
    requires Valid(g)
    ensures Valid(MergeRel(g, vl, wl, el, vm, wm, em))
  {
    var rows := Rows(MatchNodes(g.nodes, vl, vm), MatchNodes(g.nodes, wl, wm));
    var ids := Ids(g.nodes);
    forall p | p in rows
      ensures p.0.id in ids && p.1.id in ids
    {
      assert p.0 in g.nodes && p.1 in g.nodes;
    }
    MergedEdgesJoin(g.edges, rows, el, em, ids);
  }

  /** Merging edges over rows of nodes from `ids` into edges between nodes from `ids` gives
      edges between nodes from `ids`. */
  lemma MergedEdgesJoin(edges: seq<Edge>, rows: seq<(Node, Node)>, lbl: string, m: map<string, Value>, ids: set<nat>)
    requires forall e | e in edges :: e.src in ids && e.dst in ids
    requires forall p | p in rows :: p.0.id in ids && p.1.id in ids
    ensures forall e | e in MergeEdges(edges, rows, lbl, m) :: e.src in ids && e.dst in ids
  {
    var r := MergeEdges(edges, rows, lbl, m);
    forall e | e in r
      ensures e.src in ids && e.dst in ids
    {
      var i :| 0 <= i < |r| && r[i] == e;
      if i < |edges| {
        assert r[..|edges|][i] == e;
      } else {
        assert FromRow(r[i], rows, lbl, m);
        var p :| p in rows && e.src == p.0.id && e.dst == p.1.id;
      }
    }
  }

  // ---------------------------------------------------------------------------------
  // What a read returns.

  /** An object in a result record, known to the client by its class name and its items. */
  datatype ResultObject = ResultObject(className: string, items: map<string, Value>)

  /** How a matched node comes back in a record. */
  function NodeObject(n: Node): ResultObject
  {
    ResultObject("Node", n.props)
  }

  /** The items of the objects whose class name contains `Node`, in order. */
  function NodeItems(objs: seq<ResultObject>): (r: seq<map<string, Value>>)
    ensures |r| <= |objs|
  {
    if objs == [] then []
    else
      var init := objs[..|objs| - 1];
      var last := objs[|objs| - 1];
      NodeItems(init) + (if Contains(last.className, "Node") then [last.items] else [])
  }

  /** One more object: its items are kept exactly when its class name contains `Node`. */
  lemma NodeItemsSnoc(objs: seq<ResultObject>, o: ResultObject)
    ensures NodeItems(objs + [o]) == NodeItems(objs) + (if Contains(o.className, "Node") then [o.items] else [])
  {
    assert (objs + [o])[..|objs|] == objs;
  }

  /** The node filter works object by object, so it distributes over concatenation. */
  lemma {:induction false} NodeItemsAppend(a: seq<ResultObject>, b: seq<ResultObject>)
    ensures NodeItems(a + b) == NodeItems(a) + NodeItems(b)
    decreases |b|
  {
    if b == [] {
      assert a + b == a;
    } else {
      var b' := b[..|b| - 1];
      assert (a + b)[..|a + b| - 1] == a + b';
      NodeItemsAppend(a, b');
    }
  }

  /** The node filter keeps every object of class `Node`, in order. */
  lemma {:induction false} NodeItemsAllNodes(objs: seq<ResultObject>)
    requires forall i | 0 <= i < |objs| :: objs[i].className == "Node"
    ensures |NodeItems(objs)| == |objs|
    ensures forall i | 0 <= i < |objs| :: NodeItems(objs)[i] == objs[i].items
  {
    if objs != [] {
      var init := objs[..|objs| - 1];
      var last := objs[|objs| - 1];
      assert forall i | 0 <= i < |init| :: init[i] == objs[i];
      NodeItemsAllNodes(init);
      assert OccursAt("Node", "Node", 0);
      assert Contains(last.className, "Node");
      assert objs == init + [last];
      NodeItemsSnoc(init, last);
      forall i | 0 <= i < |objs|
        ensures NodeItems(objs)[i] == objs[i].items
      {
        if i < |init| {
          assert objs[i] == init[i];
        }
      }
    }
  }

  /** The records of `RETURN n`: one node object per matched node. */
  function NodeRecords(ns: seq<Node>): seq<seq<ResultObject>>
  {
    seq(|ns|, i requires 0 <= i < |ns| => [NodeObject(ns[i])])
  }

  /** The records of `RETURN v,w`: the two node objects of each row. */
  function PairRecords(rows: seq<(Node, Node)>): seq<seq<ResultObject>>
  {
    seq(|rows|, i requires 0 <= i < |rows| => [NodeObject(rows[i].0), NodeObject(rows[i].1)])
  }

  /** Filtering the one result of `RETURN n` for nodes gives the matched nodes' properties. */
  lemma NodeRecordItems(ns: seq<Node>)
    ensures NodeItems(Flatten(Flatten([NodeRecords(ns)]))) == PropsOf(ns)
  {
    var records := NodeRecords(ns);
    var objs := seq(|ns|, i requires 0 <= i < |ns| => NodeObject(ns[i]));
    var one: seq<seq<seq<ResultObject>>> := [records];
    assert one[..0] == [];
    assert Flatten(one) == records;
    FlattenSingletons(records, objs);
    NodeObjectsItems(objs, ns);
  }

  /** Node objects made one per node filter to those nodes' properties. */
  lemma NodeObjectsItems(objs: seq<ResultObject>, ns: seq<Node>)
    requires |objs| == |ns| && forall i | 0 <= i < |ns| :: objs[i] == NodeObject(ns[i])
    ensures NodeItems(objs) == PropsOf(ns)
  {
    NodeItemsAllNodes(objs);
    assert |NodeItems(objs)| == |PropsOf(ns)|;
  }

  /** Filtering the one result of `RETURN v,w` for nodes gives each row's `v` properties at an
      even position and its `w` properties right after. */
  lemma PairRecordItems(rows: seq<(Node, Node)>)
    ensures |NodeItems(Flatten(Flatten([PairRecords(rows)])))| == 2 * |rows|
    ensures forall i | 0 <= i < |rows| ::
      NodeItems(Flatten(Flatten([PairRecords(rows)])))[2 * i] == rows[i].0.props
      && NodeItems(Flatten(Flatten([PairRecords(rows)])))[2 * i + 1] == rows[i].1.props
  {
    var records := PairRecords(rows);
    var one: seq<seq<seq<ResultObject>>> := [records];
    assert one[..0] == [];
    assert Flatten(one) == records;
    FlattenPairs(records);
    PairObjectsItems(Flatten(records), rows);
  }

  /** Node objects made two per row filter to each row's two nodes' properties. */
  lemma PairObjectsItems(objs: seq<ResultObject>, rows: seq<(Node, Node)>)
    requires |objs| == 2 * |rows|
    requires forall i | 0 <= i < |rows| ::
      objs[2 * i] == NodeObject(rows[i].0) && objs[2 * i + 1] == NodeObject(rows[i].1)
    ensures |NodeItems(objs)| == 2 * |rows|
    ensures forall i | 0 <= i < |rows| ::
      NodeItems(objs)[2 * i] == rows[i].0.props && NodeItems(objs)[2 * i + 1] == rows[i].1.props
  {
    forall k | 0 <= k < |objs|
      ensures objs[k].className == "Node"
    {
      var i := k / 2;
      if k == 2 * i {
        assert objs[2 * i] == NodeObject(rows[i].0);
      } else {
        assert objs[2 * i + 1] == NodeObject(rows[i].1);
      }
    }
    NodeItemsAllNodes(objs);
    forall i | 0 <= i < |rows|
      ensures NodeItems(objs)[2 * i] == rows[i].0.props && NodeItems(objs)[2 * i + 1] == rows[i].1.props
    {
      assert objs[2 * i].items == rows[i].0.props;
      assert objs[2 * i + 1].items == rows[i].1.props;
    }
  }

  /** An object whose class name does not contain `Node` is skipped. */
  lemma NodeItemsSkips(objs: seq<ResultObject>, x: ResultObject)
    requires !Contains(x.className, "Node")
    ensures NodeItems(objs + [x]) == NodeItems(objs)
  {
    assert (objs + [x])[..|objs|] == objs;
  }
}
