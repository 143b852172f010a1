/** The hyperlink linker against the graph client: links every article node `V` to every
    article node `W` whose title is in `V`'s link list, with a `HYPERLINKS` edge.

    The titles of all `WikiData` nodes are pulled and made into a set; for each title of the
    set, in the set's own (unspecified) order, the link list of the first node with that
    title is pulled, and a `push_rel` is made for every entry of the list that is neither the
    title itself nor missing from the set.

    The run ends early where Python raises: a list-valued title cannot go into the set; a
    null title finds no node, so taking the first answer fails; and a link value that is
    null or the float cannot be iterated. `ok` reports whether the run got to the end. */
module HyperlinkLinker {
  import opened Values
  import opened Seqs
  import opened Store
  import opened Comm
  import opened TypeHelpers

  /** The titles the run starts from: `title_key` of every article node, in store order,
      null where a node lacks it. */
  function NodeTitles(nodes: seq<Node>, titleKey: string): seq<Option<Value>>
  {
    PullProp(MatchNodes(nodes, WikiDataLabel, map[]), titleKey)
  }

  /** `set(titles)`. */
  function TitleSet(nodes: seq<Node>, titleKey: string): set<Option<Value>>
  {
    set t | t in NodeTitles(nodes, titleKey)
  }

  /** The link-list lookup for one title: `hlink_key` of every article node with that title.
      A null title matches no node, since a pattern property bound to null never matches. */
  function LinkLookup(nodes: seq<Node>, title: Option<Value>, titleKey: string, hlinkKey: string)
    : (r: seq<Option<Value>>)
    ensures title.None? ==> r == []
  {
    if title.None? then []
    else PullProp(MatchNodes(nodes, WikiDataLabel, map[titleKey := title.value]), hlinkKey)
  }

  /** `for x in v`: a list gives its strings, a string its characters (each a one-character
      string); null and the float cannot be iterated. */
  function Iterate(v: Option<Value>): (r: Option<seq<Value>>)
    ensures r.Some? <==> v.Some? && !v.value.FloatOne?
    ensures r.Some? && v.value.StrList? ==>
      |r.value| == |v.value.items| && forall i | 0 <= i < |r.value| :: r.value[i] == Str(v.value.items[i])
  {
    if v.None? then None
    else match v.value
      case StrList(items) => Some(seq(|items|, i requires 0 <= i < |items| => Str(items[i])))
      case Str(s) => Some(seq(|s|, i requires 0 <= i < |s| => Str([s[i]])))
      case FloatOne => None
  }

  /** `hlinks[0]`, iterated: the link list of the first node with the title, or None where
      Python raises (no node found, or a value that cannot be iterated). */
  function Links(nodes: seq<Node>, title: Option<Value>, titleKey: string, hlinkKey: string)
    : (r: Option<seq<Value>>)
    ensures r.Some? ==> title.Some?
  {
    var found := LinkLookup(nodes, title, titleKey, hlinkKey);
    if found == [] then None else Iterate(found[0])
  }

  /** The whole run gets through: every title can go into a set, and every title of the
      set has an iterable link list. */
  predicate Succeeds(nodes: seq<Node>, titleKey: string, hlinkKey: string)
  {
    (forall t | t in NodeTitles(nodes, titleKey) :: Hashable(t))
    && (forall t | t in NodeTitles(nodes, titleKey) :: Links(nodes, t, titleKey, hlinkKey).Some?)
  }

  /** `push_rel` from the article with `title` to the article with `other`: both ends
      `WikiData`, the edge `HYPERLINKS` with no properties. */
  function LinkCall(title: Value, other: Value, titleKey: string): Call
  {
    RelCall(WikiDataLabel, WikiDataLabel, HyperlinksLabel, map[titleKey := title], map[titleKey := other], map[])
  }

  /** The writes for one title's link list, in list order: one per entry that is neither the
      title itself nor missing from the title set. */
  function TitleCalls(title: Value, others: seq<Value>, titles: set<Option<Value>>, titleKey: string)
    : seq<Call>
  {
    if others == [] then []
    else
      var o := others[|others| - 1];
      TitleCalls(title, others[..|others| - 1], titles, titleKey) + EntryCalls(title, o, titles, titleKey)
  }

  /** The write for one entry of a title's list: none when the entry is the title itself or
      not a title of the set, otherwise the link. */
  function EntryCalls(title: Value, o: Value, titles: set<Option<Value>>, titleKey: string): seq<Call>
  {
    if o == title || Some(o) !in titles then [] else [LinkCall(title, o, titleKey)]
  }

  /** The writes of a run that has done the titles `order`, in that order, `lists` giving
      the link list found for each. */
  function RunCalls(order: seq<Value>, lists: map<Value, seq<Value>>, titles: set<Option<Value>>, titleKey: string)
    : seq<Call>
  {
    if order == [] then []
    else
      var t := order[|order| - 1];
      RunCalls(order[..|order| - 1], lists, titles, titleKey)
        + (if t in lists then TitleCalls(t, lists[t], titles, titleKey) else [])
  }

  /** Every write for one title links that title to an entry of its list that is another
      title of the set. */
  lemma {:induction false} TitleCallsShape(title: Value, others: seq<Value>, titles: set<Option<Value>>, titleKey: string)
    ensures forall c | c in TitleCalls(title, others, titles, titleKey) ::
      c.RelCall? && titleKey in c.wProps && c == LinkCall(title, c.wProps[titleKey], titleKey)
      && c.wProps[titleKey] != title && Some(c.wProps[titleKey]) in titles && c.wProps[titleKey] in others
  {
    if others != [] {
      var init := others[..|others| - 1];
      TitleCallsShape(title, init, titles, titleKey);
      assert forall x | x in init :: x in others;
    }
  }

  /** Completeness for one title: the link to an entry is written once per occurrence of the
      entry in the list, unless the entry is the title itself or not a title of the set, in
      which case never. */
  lemma {:induction false} TitleCallsCount(title: Value, others: seq<Value>, titles: set<Option<Value>>,
                                           titleKey: string, o: Value)
    ensures multiset(TitleCalls(title, others, titles, titleKey))[LinkCall(title, o, titleKey)]
         == if o == title || Some(o) !in titles then 0 else multiset(others)[o]
  {
    if others != [] {
      var init := others[..|others| - 1];
      var x := others[|others| - 1];
      TitleCallsCount(title, init, titles, titleKey, o);
      EntryCount(title, x, titles, titleKey, o);
      CountSnoc(others, o);
      var a, b := TitleCalls(title, init, titles, titleKey), EntryCalls(title, x, titles, titleKey);
      assert multiset(a + b) == multiset(a) + multiset(b);
    }
  }

  /** The link to `o` is written for an entry exactly when the entry is `o`, `o` is not the
      title itself and `o` is a title of the set. */
  lemma EntryCount(title: Value, x: Value, titles: set<Option<Value>>, titleKey: string, o: Value)
    ensures multiset(EntryCalls(title, x, titles, titleKey))[LinkCall(title, o, titleKey)]
         == if x == o && o != title && Some(o) in titles then 1 else 0
  {
    if x != o {
      assert LinkCall(title, x, titleKey).wProps[titleKey] == x;
    }
  }

  /** Every write of a run is a `HYPERLINKS` link between two different titles: from a
      title the run has done to an entry of that title's link list that is a title of the
      set. So there is no self-loop and no link out of the set. */
  lemma {:induction false} RunCallsShape(order: seq<Value>, lists: map<Value, seq<Value>>,
                                         titles: set<Option<Value>>, titleKey: string)
    ensures forall c | c in RunCalls(order, lists, titles, titleKey) ::
      c.RelCall? && titleKey in c.vProps && titleKey in c.wProps
      && c == LinkCall(c.vProps[titleKey], c.wProps[titleKey], titleKey)
      && c.vProps[titleKey] != c.wProps[titleKey]
      && c.vProps[titleKey] in order && c.vProps[titleKey] in lists
      && c.wProps[titleKey] in lists[c.vProps[titleKey]]
      && Some(c.wProps[titleKey]) in titles
  {
    if order != [] {
      var init := order[..|order| - 1];
      var t := order[|order| - 1];
      RunCallsShape(init, lists, titles, titleKey);
      assert forall x | x in init :: x in order;
      if t in lists {
        TitleCallsShape(t, lists[t], titles, titleKey);
      }
    }
  }

  /** Completeness for a run: each title is done once, so for a title the run has done, the
      link to an entry of its list is written as often as the entry occurs in the list,
      unless the entry is the title itself or not a title of the set. */
  lemma {:induction false} RunCallsCount(order: seq<Value>, lists: map<Value, seq<Value>>,
                                         titles: set<Option<Value>>, titleKey: string, t: Value, o: Value)
    requires Distinct(order) && t in order && t in lists
    ensures multiset(RunCalls(order, lists, titles, titleKey))[LinkCall(t, o, titleKey)]
         == if o == t || Some(o) !in titles then 0 else multiset(lists[t])[o]
  {
    var init := order[..|order| - 1];
    var last := order[|order| - 1];
    var c := LinkCall(t, o, titleKey);
    var before := RunCalls(init, lists, titles, titleKey);
    var here := if last in lists then TitleCalls(last, lists[last], titles, titleKey) else [];
    assert multiset(before + here)[c] == multiset(before)[c] + multiset(here)[c];
    if last == t {
      NotDoneYet(order);
      CountOutside(init, lists, titles, titleKey, t, o);
      TitleCallsCount(t, lists[t], titles, titleKey, o);
    } else {
      DoneBefore(order, t);
      RunCallsCount(init, lists, titles, titleKey, t, o);
      if last in lists {
        TitleCallsShape(last, lists[last], titles, titleKey);
        assert c.vProps[titleKey] == t;
        assert c !in here;
      }
    }
  }

  /** A title the run has not done has no write in it. */
  lemma CountOutside(order: seq<Value>, lists: map<Value, seq<Value>>, titles: set<Option<Value>>,
                     titleKey: string, t: Value, o: Value)
    requires t !in order
    ensures multiset(RunCalls(order, lists, titles, titleKey))[LinkCall(t, o, titleKey)] == 0
  {
    RunCallsShape(order, lists, titles, titleKey);
    assert LinkCall(t, o, titleKey).vProps[titleKey] == t;
  }

  /** In an order without repeats, the last title is not among the earlier ones, which have
      no repeats either. */
  lemma NotDoneYet(order: seq<Value>)
    requires Distinct(order) && order != []
    ensures order[|order| - 1] !in order[..|order| - 1]
    ensures Distinct(order[..|order| - 1])
  {
  }

  /** A title other than the last is among the earlier ones, which have no repeats. */
  lemma DoneBefore(order: seq<Value>, t: Value)
    requires Distinct(order) && t in order && t != order[|order| - 1]
    ensures t in order[..|order| - 1]
    ensures Distinct(order[..|order| - 1])
  {
    var i :| 0 <= i < |order| && order[i] == t;
    assert order[..|order| - 1][i] == t;
  }

  /** A write belongs to a run exactly when it is a write for one of its titles. */
  lemma {:induction false} RunCallsMember(order: seq<Value>, lists: map<Value, seq<Value>>,
                                          titles: set<Option<Value>>, titleKey: string, c: Call)
    ensures c in RunCalls(order, lists, titles, titleKey) <==>
      exists t | t in order :: t in lists && c in TitleCalls(t, lists[t], titles, titleKey)
  {
    if order != [] {
      var init := order[..|order| - 1];
      RunCallsMember(init, lists, titles, titleKey, c);
      assert forall t | t in order :: t in init || t == order[|order| - 1];
      assert forall t | t in init :: t in order;
    }
  }

  /** A run makes relation writes only, so it adds no node and every write it made stays
      satisfied: afterwards every node with a title done is linked to every node whose
      title its list names (itself and titles outside the set aside). */
  lemma LinkedAfterRun(g: Graph, order: seq<Value>, lists: map<Value, seq<Value>>,
                       titles: set<Option<Value>>, titleKey: string)
    ensures ApplyAll(g, RunCalls(order, lists, titles, titleKey)).nodes == g.nodes
    ensures forall c | c in RunCalls(order, lists, titles, titleKey) ::
      Satisfied(ApplyAll(g, RunCalls(order, lists, titles, titleKey)), c)
  {
    var cs := RunCalls(order, lists, titles, titleKey);
    AllRel(order, lists, titles, titleKey);
    AddedEdges(g, cs);
    ApplyAllSatisfies(g, cs);
  }

  /** A run makes relation writes only. */
  lemma AllRel(order: seq<Value>, lists: map<Value, seq<Value>>, titles: set<Option<Value>>, titleKey: string)
    ensures forall c | c in RunCalls(order, lists, titles, titleKey) :: c.RelCall?
    ensures NodesFirst(RunCalls(order, lists, titles, titleKey))
  {
    var cs := RunCalls(order, lists, titles, titleKey);
    RunCallsShape(order, lists, titles, titleKey);
    forall j | 0 <= j < |cs|
      ensures cs[j].RelCall?
    {
      assert cs[j] in cs;
    }
  }

  /** The edges a run adds are `HYPERLINKS` edges without properties from an article node
      whose title the run has done to an article node with another title that the first
      one's list names; none is a self-loop. The old edges stay, in front. */
  lemma EdgesAfterRun(g: Graph, order: seq<Value>, lists: map<Value, seq<Value>>,
                      titles: set<Option<Value>>, titleKey: string)
    requires Valid(g)
    ensures var g1 := ApplyAll(g, RunCalls(order, lists, titles, titleKey));
      && |g.edges| <= |g1.edges| && g1.edges[..|g.edges|] == g.edges
      && forall i | |g.edges| <= i < |g1.edges| :: NewLink(g.nodes, order, lists, g1.edges[i], titleKey)
  {
    var cs := RunCalls(order, lists, titles, titleKey);
    var g1 := ApplyAll(g, cs);
    RunCallsShape(order, lists, titles, titleKey);
    AddedEdges(g, cs);
    forall i | |g.edges| <= i < |g1.edges|
      ensures NewLink(g.nodes, order, lists, g1.edges[i], titleKey)
    {
      var e := g1.edges[i];
      var c :| c in cs && Produced(g.nodes, e, c);
      ProducedLink(g, order, lists, e, c, titleKey);
    }
  }

  /** `e` is an edge a run over `order` may add: a `HYPERLINKS` edge without properties
      between two different article nodes, the first's title done by the run and the
      second's title in the first's link list. */
  predicate NewLink(nodes: seq<Node>, order: seq<Value>, lists: map<Value, seq<Value>>, e: Edge, titleKey: string)
  {
    e.lbl == HyperlinksLabel && e.props == map[] && e.src != e.dst
    && exists v, w | v in nodes && w in nodes ::
      v.id == e.src && w.id == e.dst && v.lbl == WikiDataLabel && w.lbl == WikiDataLabel
      && titleKey in v.props && titleKey in w.props && v.props[titleKey] != w.props[titleKey]
      && v.props[titleKey] in order && v.props[titleKey] in lists
      && w.props[titleKey] in lists[v.props[titleKey]]
  }

  /** One edge produced by one write of the run is such a link. */
  lemma ProducedLink(g: Graph, order: seq<Value>, lists: map<Value, seq<Value>>, e: Edge, c: Call, titleKey: string)
    requires Valid(g)
    requires c.RelCall? && titleKey in c.vProps && titleKey in c.wProps
    requires c == LinkCall(c.vProps[titleKey], c.wProps[titleKey], titleKey)
    requires c.vProps[titleKey] != c.wProps[titleKey]
    requires c.vProps[titleKey] in order && c.vProps[titleKey] in lists
    requires c.wProps[titleKey] in lists[c.vProps[titleKey]]
    requires Produced(g.nodes, e, c)
    ensures NewLink(g.nodes, order, lists, e, titleKey)
  {
    var v, w :| v in g.nodes && w in g.nodes && Matches(v, c.vLabel, c.vProps) && Matches(w, c.wLabel, c.wProps)
      && e.src == v.id && e.dst == w.id;
    assert v.props[titleKey] == c.vProps[titleKey];
    assert w.props[titleKey] == c.wProps[titleKey];
    var i := SomeIndex(g.nodes, v);
    var j := SomeIndex(g.nodes, w);
    assert i != j;
  }

  /** Linking adds no node, so a second run pulls the same titles and finds the same link
      lists; its writes are all writes of the first run, already satisfied: it leaves the
      store as it is, whatever order it takes the set in. */
  lemma Rerun(g: Graph, order: seq<Value>, lists: map<Value, seq<Value>>, again: seq<Value>,
              lists2: map<Value, seq<Value>>, titles: set<Option<Value>>, titleKey: string)
    requires forall t | t in again :: t in order
    requires forall t | t in again && t in lists2 :: t in lists && lists2[t] == lists[t]
    ensures var g1 := ApplyAll(g, RunCalls(order, lists, titles, titleKey));
      && g1.nodes == g.nodes
      && ApplyAll(g1, RunCalls(again, lists2, titles, titleKey)) == g1
  {
    var cs := RunCalls(order, lists, titles, titleKey);
    LinkedAfterRun(g, order, lists, titles, titleKey);
    AllRel(order, lists, titles, titleKey);
    var more := RunCalls(again, lists2, titles, titleKey);
    forall c | c in more
      ensures c in cs
    {
      RunCallsMember(again, lists2, titles, titleKey, c);
      var t :| t in again && t in lists2 && c in TitleCalls(t, lists2[t], titles, titleKey);
      RunCallsMember(order, lists, titles, titleKey, c);
    }
    Store.Rerun(g, cs, more);
  }

  /** `link(n4jcomm, title_key, hlink_key)`. The titles of the set are done one at a time,
      in an order the set decides: `order` is the titles done, in that order, and `lists`
      the link list found for each. The store is the old store after every write for the
      titles done. When the run gets through, every title of the set has been done exactly
      once; when a title is a list, nothing is done at all. */
  method Link(comm: Neo4jComm, titleKey: string, hlinkKey: string)
    returns (ok: bool, ghost order: seq<Value>, ghost lists: map<Value, seq<Value>>)
    requires IsName(titleKey)
    requires Valid(comm.graph)
    modifies comm
    ensures Valid(comm.graph)
    ensures ok <==> Succeeds(old(comm.graph).nodes, titleKey, hlinkKey)
    ensures Distinct(order)
    ensures forall t | t in order :: Some(t) in TitleSet(old(comm.graph).nodes, titleKey) && t in lists
    ensures forall t | t in lists :: Links(old(comm.graph).nodes, Some(t), titleKey, hlinkKey) == Some(lists[t])
    ensures ok ==> forall t | t in TitleSet(old(comm.graph).nodes, titleKey) :: t.Some? && t.value in order
    ensures (exists t | t in NodeTitles(old(comm.graph).nodes, titleKey) :: !Hashable(t)) ==> order == []
    ensures comm.graph == ApplyAll(old(comm.graph), RunCalls(order, lists, TitleSet(old(comm.graph).nodes, titleKey), titleKey))
  {
    ghost var g0 := comm.graph;
    var titles := comm.PullNodeProp(WikiDataLabel, [], titleKey);
    assert ToMap([]) == map[];
    order, lists := [], map[];
    if exists t | t in titles :: !Hashable(t) {
      ok := false;
      return;
    }
    assert titles == NodeTitles(g0.nodes, titleKey);
    var titleSet := set t | t in titles;
    assert titleSet == TitleSet(g0.nodes, titleKey);
    var remaining := titleSet;
    while remaining != {}
      invariant Valid(comm.graph) && comm.graph.nodes == g0.nodes
      invariant forall t | t in order :: Some(t) in titleSet && Some(t) !in remaining && t in lists
      invariant forall t | t in titleSet :: t in remaining || (t.Some? && t.value in order)
      invariant remaining <= titleSet
      invariant Distinct(order)
      invariant forall t | t in lists :: Links(g0.nodes, Some(t), titleKey, hlinkKey) == Some(lists[t])
      invariant comm.graph == ApplyAll(g0, RunCalls(order, lists, titleSet, titleKey))
      decreases |remaining|
    {
      var title :| title in remaining;
      assert title.Some? ==> title.value !in order;
      ghost var links;
      ok, links := DoTitle(comm, title, titleSet, titleKey, hlinkKey, g0, order, lists);
      if !ok {
        FailsAt(g0.nodes, titleKey, hlinkKey, title);
        return;
      }
      DistinctSnoc(order, title.value);
      ListsStep(g0.nodes, titleKey, hlinkKey, lists, title.value, links);
      order, lists := order + [title.value], lists[title.value := links];
      RemoveOne(remaining, title);
      remaining := remaining - {title};
    }
    SucceedsAll(g0.nodes, titleKey, hlinkKey, order, lists);
    ok := true;
  }

  /** The loop body for one title of the set: its link list read, then the inner loop.
      When the list cannot be read nothing is written; otherwise the title is done, with
      the list the store holds for it. */
  method DoTitle(comm: Neo4jComm, title: Option<Value>, titleSet: set<Option<Value>>, titleKey: string,
                 hlinkKey: string, ghost g0: Graph, ghost order: seq<Value>, ghost lists: map<Value, seq<Value>>)
    returns (ok: bool, ghost links: seq<Value>)
    requires IsName(titleKey)
    requires Valid(comm.graph) && comm.graph.nodes == g0.nodes
    requires title.Some? ==> title.value !in order
    requires comm.graph == ApplyAll(g0, RunCalls(order, lists, titleSet, titleKey))
    modifies comm
    ensures Valid(comm.graph) && comm.graph.nodes == g0.nodes
    ensures ok <==> Links(g0.nodes, title, titleKey, hlinkKey).Some?
    ensures !ok ==> comm.graph == old(comm.graph)
    ensures ok ==> title.Some? && Links(g0.nodes, Some(title.value), titleKey, hlinkKey) == Some(links)
    ensures ok ==> comm.graph == ApplyAll(g0, RunCalls(order + [title.value], lists[title.value := links], titleSet, titleKey))
  {
    var found := ReadLinks(comm, title, titleKey, hlinkKey, Links(g0.nodes, title, titleKey, hlinkKey));
    if found.None? {
      ok := false;
      links := [];
      return;
    }
    ok := true;
    links := found.value;
    ghost var cs := RunCalls(order, lists, titleSet, titleKey);
    PushLinks(comm, title.value, found.value, titleSet, titleKey, g0, cs);
    RunStep(order, lists, title.value, links, titleSet, titleKey);
  }

  /** Recording the list the store holds for one more title keeps every recorded list the
      one the store holds. */
  lemma ListsStep(nodes: seq<Node>, titleKey: string, hlinkKey: string, lists: map<Value, seq<Value>>,
                  t: Value, links: seq<Value>)
    requires forall x | x in lists :: Links(nodes, Some(x), titleKey, hlinkKey) == Some(lists[x])
    requires Links(nodes, Some(t), titleKey, hlinkKey) == Some(links)
    ensures forall x | x in lists[t := links] :: Links(nodes, Some(x), titleKey, hlinkKey) == Some(lists[t := links][x])
  {
  }

  /** Taking a title out of the set of titles left makes that set smaller. */
  lemma RemoveOne(s: set<Option<Value>>, x: Option<Value>)
    requires x in s
    ensures |s - {x}| < |s|
  {
  }

  /** A title of the set whose link list cannot be read makes the run fail. */
  lemma FailsAt(nodes: seq<Node>, titleKey: string, hlinkKey: string, t: Option<Value>)
    requires t in TitleSet(nodes, titleKey)
    requires Links(nodes, t, titleKey, hlinkKey).None?
    ensures !Succeeds(nodes, titleKey, hlinkKey)
  {
  }

  /** A run that has done every title of the set, each with the list the store holds, got
      through. */
  lemma SucceedsAll(nodes: seq<Node>, titleKey: string, hlinkKey: string, order: seq<Value>,
                    lists: map<Value, seq<Value>>)
    requires forall t | t in NodeTitles(nodes, titleKey) :: Hashable(t)
    requires forall t | t in TitleSet(nodes, titleKey) :: t.Some? && t.value in order
    requires forall t | t in order :: t in lists
    requires forall t | t in lists :: Links(nodes, Some(t), titleKey, hlinkKey) == Some(lists[t])
    ensures Succeeds(nodes, titleKey, hlinkKey)
  {
    forall t | t in NodeTitles(nodes, titleKey)
      ensures Links(nodes, t, titleKey, hlinkKey).Some?
    {
      assert t in TitleSet(nodes, titleKey);
    }
  }

  /** The link list of one title: `pull_node_prop` for the title, then its first answer
      iterated. None where Python raises: no answer to take first, or an answer that cannot
      be iterated. The result is the list the store holds, named `expected` by the
      caller. */
  method ReadLinks(comm: Neo4jComm, title: Option<Value>, titleKey: string, hlinkKey: string,
                   ghost expected: Option<seq<Value>>)
    returns (links: Option<seq<Value>>)
    requires IsName(titleKey)
    requires expected == Links(comm.graph.nodes, title, titleKey, hlinkKey)
    ensures links == expected
  {
    var found := LookUp(comm, title, titleKey, hlinkKey);
    if found == [] {
      return None;
    }
    links := Iterate(found[0]);
  }

  /** One more title done: its writes come at the end. */
  lemma RunStep(order: seq<Value>, lists: map<Value, seq<Value>>, t: Value, links: seq<Value>,
                titles: set<Option<Value>>, titleKey: string)
    requires t !in order
    ensures RunCalls(order + [t], lists[t := links], titles, titleKey)
         == RunCalls(order, lists, titles, titleKey) + TitleCalls(t, links, titles, titleKey)
  {
    assert (order + [t])[..|order|] == order;
    RunCallsOther(order, lists, t, links, titles, titleKey);
  }

  /** Recording the list of a title not yet done changes nothing done so far. */
  lemma {:induction false} RunCallsOther(order: seq<Value>, lists: map<Value, seq<Value>>, t: Value, links: seq<Value>,
                                         titles: set<Option<Value>>, titleKey: string)
    requires t !in order
    ensures RunCalls(order, lists[t := links], titles, titleKey) == RunCalls(order, lists, titles, titleKey)
  {
    if order != [] {
      assert forall x | x in order[..|order| - 1] :: x in order;
      RunCallsOther(order[..|order| - 1], lists, t, links, titles, titleKey);
    }
  }

  /** `pull_node_prop(label='WikiData', props={title_key: title}, prop=hlink_key)`; a null
      title is answered without a query, as the query would match nothing. */
  method LookUp(comm: Neo4jComm, title: Option<Value>, titleKey: string, hlinkKey: string)
    returns (found: seq<Option<Value>>)
    requires IsName(titleKey)
    ensures found == LinkLookup(comm.graph.nodes, title, titleKey, hlinkKey)
  {
    found := [];
    if title.Some? {
      assert ValidBag([(titleKey, title.value)]);
      found := comm.PullNodeProp(WikiDataLabel, [(titleKey, title.value)], hlinkKey);
      SingletonMap(titleKey, title.value);
    }
  }

  /** The inner loop for one title: each entry of its list in turn. */
  method PushLinks(comm: Neo4jComm, title: Value, others: seq<Value>, titles: set<Option<Value>>,
                   titleKey: string, ghost g0: Graph, ghost cs: seq<Call>)
    requires IsName(titleKey)
    requires Valid(comm.graph)
    requires comm.graph == ApplyAll(g0, cs)
    modifies comm
    ensures Valid(comm.graph) && comm.graph.nodes == old(comm.graph).nodes
    ensures comm.graph == ApplyAll(g0, cs + TitleCalls(title, others, titles, titleKey))
  {
    assert others[..0] == [];
    assert cs + [] == cs;
    for b := 0 to |others|
      invariant Valid(comm.graph) && comm.graph.nodes == old(comm.graph).nodes
      invariant comm.graph == ApplyAll(g0, cs + TitleCalls(title, others[..b], titles, titleKey))
    {
      ghost var done := TitleCalls(title, others[..b], titles, titleKey);
      Visit(comm, title, others[b], titles, titleKey, g0, cs + done);
      TitleStep(cs, title, others, b, titles, titleKey);
    }
    assert others[..|others|] == others;
  }

  /** One entry of the list: skipped when it is the title itself or not a title of the
      set, otherwise linked with `push_rel`. */
  method Visit(comm: Neo4jComm, title: Value, other: Value, titles: set<Option<Value>>,
               titleKey: string, ghost g0: Graph, ghost log: seq<Call>)
    requires IsName(titleKey)
    requires Valid(comm.graph)
    requires comm.graph == ApplyAll(g0, log)
    modifies comm
    ensures Valid(comm.graph) && comm.graph.nodes == old(comm.graph).nodes
    ensures comm.graph == ApplyAll(g0, log + EntryCalls(title, other, titles, titleKey))
  {
    if title == other {
      assert log + [] == log;
      return;
    }
    if Some(other) !in titles {
      assert log + [] == log;
      return;
    }
    Write(comm, title, other, titleKey, g0, log);
  }

  /** One more entry of the list: its write, if any, goes at the end of the log. */
  lemma TitleStep(cs: seq<Call>, title: Value, others: seq<Value>, b: nat, titles: set<Option<Value>>, titleKey: string)
    requires b < |others|
    ensures cs + TitleCalls(title, others[..b + 1], titles, titleKey)
         == (cs + TitleCalls(title, others[..b], titles, titleKey)) + EntryCalls(title, others[b], titles, titleKey)
  {
    assert others[..b + 1][..b] == others[..b];
  }

  /** One `push_rel`: the store that was the log run on `g0` becomes the log with the
      link added. */
  method Write(comm: Neo4jComm, title: Value, other: Value, titleKey: string, ghost g0: Graph, ghost log: seq<Call>)
    requires IsName(titleKey)
    requires Valid(comm.graph)
    requires comm.graph == ApplyAll(g0, log)
    modifies comm
    ensures Valid(comm.graph) && comm.graph.nodes == old(comm.graph).nodes
    ensures comm.graph == ApplyAll(g0, log + [LinkCall(title, other, titleKey)])
  {
    var c := LinkCall(title, other, titleKey);
    assert (log + [c])[..|log|] == log;
    assert ValidBag([(titleKey, title)]) && ValidBag([(titleKey, other)]);
    comm.PushRel(WikiDataLabel, WikiDataLabel, HyperlinksLabel, [(titleKey, title)], [(titleKey, other)], []);
    SingletonMap(titleKey, title);
    SingletonMap(titleKey, other);
    assert ToMap([]) == map[];
  }
}
