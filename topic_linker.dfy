/** The prelinked linker against the graph client: links every article node to an index
    node for its topic. The titles of all `WikiData` nodes are pulled; each title is looked
    up for its topic; one `IndexNode` is merged per topic and one `PRELINKED` edge with
    confidence 1.0 per (article, topic) pair.

    The run ends early where Python raises: a list-valued topic cannot be a dict key, and
    a null topic cannot be merged into a node. `ok` reports whether the run got to the end. */
module TopicLinker {
  import opened Values
  import opened Seqs
  import opened Store
  import opened Comm
  import opened TypeHelpers
  import opened TopicGrouping

  /** Label of the index nodes. */
  const IndexLabel: string := "IndexNode"
  /** Label of the edges from articles to index nodes. */
  const PrelinkedLabel: string := "PRELINKED"
  /** The edge property holding the link's confidence. */
  const ConfidenceKey: string := "confidence"

  /** The titles the run starts from: `title_key` of every article node, in store order,
      null where a node lacks it. */
  function NodeTitles(g: Graph, titleKey: string): seq<Option<Value>>
  {
    PullProp(MatchNodes(g.nodes, WikiDataLabel, map[]), titleKey)
  }

  /** The topic lookup for one title: `topic_key` of every article node with that title. A
      null title matches no node, since a pattern property bound to null never matches. */
  function TopicsOf(g: Graph, title: Option<Value>, titleKey: string, topicKey: string)
    : (r: seq<Option<Value>>)
    ensures title.None? ==> r == []
  {
    if title.None? then []
    else PullProp(MatchNodes(g.nodes, WikiDataLabel, map[titleKey := title.value]), topicKey)
  }

  /** The lookup answers for `titles`, aligned with them. */
  function Lookups(g: Graph, titles: seq<Option<Value>>, titleKey: string, topicKey: string)
    : (r: seq<seq<Option<Value>>>)
    ensures |r| == |titles|
    ensures forall i | 0 <= i < |titles| :: r[i] == TopicsOf(g, titles[i], titleKey, topicKey)
  {
    seq(|titles|, i requires 0 <= i < |titles| => TopicsOf(g, titles[i], titleKey, topicKey))
  }

  /** The (title, topic) pairs a run on `g` groups. */
  function KeptOf(g: Graph, titleKey: string, topicKey: string): seq<(Option<Value>, Option<Value>)>
  {
    var titles := NodeTitles(g, titleKey);
    Kept(titles, Lookups(g, titles, titleKey, topicKey))
  }

  /** The whole run gets through: no topic is a list and none is null. */
  predicate Succeeds(kept: seq<(Option<Value>, Option<Value>)>)
  {
    forall p | p in kept :: Hashable(p.1) && p.1.Some?
  }

  /** A push whose values are all present, so that it is a store write. */
  predicate Concrete(p: Push)
  {
    match p
    case PushIndex(t) => t.Some?
    case PushLink(x, t) => x.Some? && t.Some?
  }

  /** `push_node(label='IndexNode', props={topic_key: topic})`. */
  function IndexCall(topic: Value, topicKey: string): Call
  {
    NodeCall(IndexLabel, map[topicKey := topic])
  }

  /** `push_rel` from the article node with the title to the index node of the topic, the
      edge carrying confidence 1.0. */
  function LinkCall(title: Value, topic: Value, titleKey: string, topicKey: string): Call
  {
    RelCall(WikiDataLabel, IndexLabel, PrelinkedLabel,
            map[titleKey := title], map[topicKey := topic], map[ConfidenceKey := FloatOne])
  }

  /** The store write a push makes. */
  function ToCall(p: Push, titleKey: string, topicKey: string): (c: Call)
    requires Concrete(p)
    ensures p.PushIndex? <==> c.NodeCall?
  {
    match p
    case PushIndex(t) => IndexCall(t.value, topicKey)
    case PushLink(x, t) => LinkCall(x.value, t.value, titleKey, topicKey)
  }

  function Calls(ps: seq<Push>, titleKey: string, topicKey: string): (cs: seq<Call>)
    requires AllConcrete(ps)
    ensures |cs| == |ps|
    ensures forall i | 0 <= i < |ps| :: cs[i] == ToCall(ps[i], titleKey, topicKey)
  {
    seq(|ps|, i requires 0 <= i < |ps| => ToCall(ps[i], titleKey, topicKey))
  }

  /** Every kept title is present: a null title is never kept, its lookup being empty. */
  lemma KeptTitlesPresent(g: Graph, titleKey: string, topicKey: string)
    ensures forall p | p in KeptOf(g, titleKey, topicKey) :: p.0.Some?
  {
    var titles := NodeTitles(g, titleKey);
    KeptFrom(titles, Lookups(g, titles, titleKey, topicKey));
  }

  /** When the run gets through, every push it makes is a store write. */
  lemma PushesConcrete(kept: seq<(Option<Value>, Option<Value>)>)
    requires Succeeds(kept)
    requires forall p | p in kept :: p.0.Some?
    ensures AllConcrete(Pushes(kept))
  {
    var order := TopicOrder(kept);
    forall p | p in Pushes(kept)
      ensures Concrete(p)
    {
      if p in LinkPushes(Grouping(kept), order) {
        LinkPushConcrete(kept, p);
      } else {
        var i :| 0 <= i < |Pushes(kept)| && Pushes(kept)[i] == p;
        IndexPushConcrete(kept, order[i]);
      }
    }
  }

  /** A topic of a run that gets through is an actual value. */
  lemma IndexPushConcrete(kept: seq<(Option<Value>, Option<Value>)>, t: Option<Value>)
    requires Succeeds(kept)
    requires t in TopicOrder(kept)
    ensures Concrete(PushIndex(t))
  {
    TopicOrderMembers(kept);
  }

  /** A link of a run is one of the kept pairs, whose title and topic are actual values. */
  lemma LinkPushConcrete(kept: seq<(Option<Value>, Option<Value>)>, p: Push)
    requires Succeeds(kept)
    requires forall p | p in kept :: p.0.Some?
    requires p in LinkPushes(Grouping(kept), TopicOrder(kept))
    ensures Concrete(p)
  {
    LinksAreKeptPairs(kept);
    var i := InPermutation(LinkPushes(Grouping(kept), TopicOrder(kept)), PairLinks(kept), p);
    var q := kept[i];
    assert p == PushLink(q.0, q.1);
    assert q in kept;
  }

  /** The writes of a complete run on `g`, in order. */
  function RunCalls(g: Graph, titleKey: string, topicKey: string): seq<Call>
    requires Succeeds(KeptOf(g, titleKey, topicKey))
  {
    var kept := KeptOf(g, titleKey, topicKey);
    KeptTitlesPresent(g, titleKey, topicKey);
    PushesConcrete(kept);
    Calls(Pushes(kept), titleKey, topicKey)
  }

  /** Different pushes make different writes, so the log can be read back as pushes. */
  lemma ToCallInjective(p: Push, q: Push, titleKey: string, topicKey: string)
    requires Concrete(p) && Concrete(q)
    ensures ToCall(p, titleKey, topicKey) == ToCall(q, titleKey, topicKey) <==> p == q
  {
    var c := ToCall(p, titleKey, topicKey);
    var d := ToCall(q, titleKey, topicKey);
    if c == d {
      match p
      case PushIndex(t) =>
        assert c.props[topicKey] == t.value;
        assert d.props[topicKey] == q.topic.value;
      case PushLink(x, t) =>
        assert c.vProps[titleKey] == x.value && c.wProps[topicKey] == t.value;
        assert d.vProps[titleKey] == q.title.value && d.wProps[topicKey] == q.topic.value;
    }
  }

  /** A push's write occurs in the log as often as the push occurs among the pushes. */
  lemma {:induction false} CallCount(ps: seq<Push>, p: Push, titleKey: string, topicKey: string)
    requires AllConcrete(ps) && Concrete(p)
    ensures multiset(Calls(ps, titleKey, topicKey))[ToCall(p, titleKey, topicKey)] == multiset(ps)[p]
  {
    if ps != [] {
      var init := ps[..|ps| - 1];
      var q := ps[|ps| - 1];
      var c := ToCall(p, titleKey, topicKey);
      assert ps == init + [q];
      assert AllConcrete(init) && AllConcrete([q]);
      var cs := Calls(ps, titleKey, topicKey);
      var ci := Calls(init, titleKey, topicKey);
      CallsAppend(init, [q], titleKey, topicKey);
      assert cs == ci + [ToCall(q, titleKey, topicKey)];
      CallCount(init, p, titleKey, topicKey);
      ToCallInjective(q, p, titleKey, topicKey);
      if q == p {
        assert multiset(cs)[c] == multiset(ci)[c] + 1;
        assert multiset(ps)[p] == multiset(init)[p] + 1;
      } else {
        assert multiset(cs)[c] == multiset(ci)[c];
        assert multiset(ps)[p] == multiset(init)[p];
      }
    }
  }

  /** The index part of a complete run: the first writes are one `IndexNode` merge per
      distinct topic, in dict order, and every kept topic has one; all of them come before
      the first link. */
  lemma RunIndexCalls(g: Graph, titleKey: string, topicKey: string)
    requires Succeeds(KeptOf(g, titleKey, topicKey))
    ensures forall t | t in TopicOrder(KeptOf(g, titleKey, topicKey)) :: t.Some?
    ensures var order := TopicOrder(KeptOf(g, titleKey, topicKey));
            var cs := RunCalls(g, titleKey, topicKey);
      && NodesFirst(cs)
      && Distinct(order)
      && |order| <= |cs|
      && (forall i | 0 <= i < |order| :: cs[i] == IndexCall(order[i].value, topicKey))
      && (forall p | p in KeptOf(g, titleKey, topicKey) :: p.1 in order)
  {
    var kept := KeptOf(g, titleKey, topicKey);
    SucceedsOrder(kept);
    TopicOrderMembers(kept);
    var cs := RunCalls(g, titleKey, topicKey);
    var order := TopicOrder(kept);
    forall p | p in kept
      ensures p.1 in order
    {
    }
  }

  /** The link each kept pair asks for, in pull order. */
  function KeptLinks(kept: seq<(Option<Value>, Option<Value>)>, titleKey: string, topicKey: string)
    : (cs: seq<Call>)
    requires forall p | p in kept :: p.0.Some? && p.1.Some?
    ensures |cs| == |kept|
  {
    seq(|kept|, i requires 0 <= i < |kept| => LinkCall(kept[i].0.value, kept[i].1.value, titleKey, topicKey))
  }

  /** The link part of a complete run: after the index writes come exactly the links the
      kept pairs ask for, each as often as its pair was kept (titles are not deduplicated),
      in some order. So there are as many link writes as kept titles. */
  lemma RunLinkCalls(g: Graph, titleKey: string, topicKey: string)
    requires Succeeds(KeptOf(g, titleKey, topicKey))
    ensures forall p | p in KeptOf(g, titleKey, topicKey) :: p.0.Some? && p.1.Some?
    ensures |TopicOrder(KeptOf(g, titleKey, topicKey))| <= |RunCalls(g, titleKey, topicKey)|
    ensures multiset(RunCalls(g, titleKey, topicKey)[|TopicOrder(KeptOf(g, titleKey, topicKey))|..])
         == multiset(KeptLinks(KeptOf(g, titleKey, topicKey), titleKey, topicKey))
  {
    var kept := KeptOf(g, titleKey, topicKey);
    KeptTitlesPresent(g, titleKey, topicKey);
    PushesConcrete(kept);
    LinkShape(kept, titleKey, topicKey, RunCalls(g, titleKey, topicKey));
  }

  /** `RunLinkCalls` for any kept pairs whose titles and topics are all present. */
  lemma LinkShape(kept: seq<(Option<Value>, Option<Value>)>, titleKey: string, topicKey: string, cs: seq<Call>)
    requires forall p | p in kept :: p.0.Some? && p.1.Some?
    requires AllConcrete(Pushes(kept))
    requires cs == Calls(Pushes(kept), titleKey, topicKey)
    ensures |TopicOrder(kept)| <= |cs|
    ensures multiset(cs[|TopicOrder(kept)|..]) == multiset(KeptLinks(kept, titleKey, topicKey))
  {
    var order := TopicOrder(kept);
    var index := IndexPushes(order);
    var links := LinkPushes(Grouping(kept), order);
    assert Pushes(kept) == index + links;
    CallsSuffix(index, links, titleKey, topicKey);
    LinksAreKeptPairs(kept);
    KeptLinksCalls(kept, titleKey, topicKey);
    CallsPermutation(links, PairLinks(kept), titleKey, topicKey);
  }

  /** The writes of a log's second stretch of pushes are the tail of the log's writes. */
  lemma CallsSuffix(ps: seq<Push>, qs: seq<Push>, titleKey: string, topicKey: string)
    requires AllConcrete(ps + qs)
    ensures AllConcrete(ps) && AllConcrete(qs)
    ensures |ps| <= |Calls(ps + qs, titleKey, topicKey)|
    ensures Calls(ps + qs, titleKey, topicKey)[|ps|..] == Calls(qs, titleKey, topicKey)
  {
    assert forall p | p in ps :: p in ps + qs;
    assert forall q | q in qs :: q in ps + qs;
    CallsAppend(ps, qs, titleKey, topicKey);
  }

  /** The links the kept pairs ask for are the writes of their pair links. */
  lemma KeptLinksCalls(kept: seq<(Option<Value>, Option<Value>)>, titleKey: string, topicKey: string)
    requires forall p | p in kept :: p.0.Some? && p.1.Some?
    ensures AllConcrete(PairLinks(kept))
    ensures KeptLinks(kept, titleKey, topicKey) == Calls(PairLinks(kept), titleKey, topicKey)
  {
    var pairs := PairLinks(kept);
    forall q | q in pairs
      ensures Concrete(q)
    {
      var i :| 0 <= i < |pairs| && pairs[i] == q;
      assert kept[i] in kept;
    }
  }

  /** Pushes that are a reordering of each other make writes that are a reordering of each
      other. */
  lemma CallsPermutation(a: seq<Push>, b: seq<Push>, titleKey: string, topicKey: string)
    requires AllConcrete(a) && AllConcrete(b)
    requires multiset(a) == multiset(b)
    ensures multiset(Calls(a, titleKey, topicKey)) == multiset(Calls(b, titleKey, topicKey))
  {
    var ca := Calls(a, titleKey, topicKey);
    var cb := Calls(b, titleKey, topicKey);
    forall c
      ensures multiset(ca)[c] == multiset(cb)[c]
    {
      if c in ca {
        var i :| 0 <= i < |ca| && ca[i] == c;
        CallCount(a, a[i], titleKey, topicKey);
        CallCount(b, a[i], titleKey, topicKey);
      } else if c in cb {
        var i :| 0 <= i < |cb| && cb[i] == c;
        CallCount(a, b[i], titleKey, topicKey);
        CallCount(b, b[i], titleKey, topicKey);
      }
    }
  }

  /** A store whose article nodes answer every `MATCH` as another's does gives the run the
      same pairs. */
  lemma SameArticles(g: Graph, g1: Graph, titleKey: string, topicKey: string)
    requires forall m :: MatchNodes(g1.nodes, WikiDataLabel, m) == MatchNodes(g.nodes, WikiDataLabel, m)
    ensures KeptOf(g1, titleKey, topicKey) == KeptOf(g, titleKey, topicKey)
  {
    var titles := NodeTitles(g, titleKey);
    assert NodeTitles(g1, titleKey) == titles;
    var a := Lookups(g1, titles, titleKey, topicKey);
    var b := Lookups(g, titles, titleKey, topicKey);
    forall i | 0 <= i < |titles|
      ensures a[i] == b[i]
    {
      if titles[i].Some? {
        var m := map[titleKey := titles[i].value];
        assert MatchNodes(g1.nodes, WikiDataLabel, m) == MatchNodes(g.nodes, WikiDataLabel, m);
      }
    }
    assert a == b;
  }

  /** Past the index pushes, a run's pushes are its links. */
  lemma LinkAt(kept: seq<(Option<Value>, Option<Value>)>, i: nat)
    requires |TopicOrder(kept)| <= i < |Pushes(kept)|
    ensures Pushes(kept)[i] in LinkPushes(Grouping(kept), TopicOrder(kept))
  {
    var a := IndexPushes(TopicOrder(kept));
    var b := LinkPushes(Grouping(kept), TopicOrder(kept));
    assert Pushes(kept) == a + b;
    assert (a + b)[i] == b[i - |a|];
  }

  /** Linking changes no article node, so a second run pulls the same titles and topics and
      makes the same writes, all of which the first run already satisfied: it leaves the
      store as it is. */
  lemma Rerun(g: Graph, titleKey: string, topicKey: string)
    requires Succeeds(KeptOf(g, titleKey, topicKey))
    ensures var g1 := ApplyAll(g, RunCalls(g, titleKey, topicKey));
      && KeptOf(g1, titleKey, topicKey) == KeptOf(g, titleKey, topicKey)
      && RunCalls(g1, titleKey, topicKey) == RunCalls(g, titleKey, topicKey)
      && ApplyAll(g1, RunCalls(g1, titleKey, topicKey)) == g1
  {
    var cs := RunCalls(g, titleKey, topicKey);
    var g1 := ApplyAll(g, cs);
    forall c | c in cs
      ensures c.NodeCall? ==> c.lbl != WikiDataLabel
    {
    }
    ApplyAllKeepsMatches(g, cs, WikiDataLabel);
    SameArticles(g, g1, titleKey, topicKey);
    RunIndexCalls(g, titleKey, topicKey);
    Store.Rerun(g, cs, cs);
  }

  /** What a reordering of a log's tail holds, the log holds. */
  lemma InSuffix(cs: seq<Call>, k: nat, ls: seq<Call>, x: Call)
    requires k <= |cs|
    requires multiset(cs[k..]) == multiset(ls)
    requires x in ls
    ensures x in cs
  {
    assert x in multiset(ls);
    assert x in cs[k..];
  }

  /** After a complete run every kept article is linked to its topic: an index node with
      the topic exists, and every article node with the title has a `PRELINKED` edge with
      confidence 1.0 to every index node with the topic. */
  lemma LinkedAfterRun(g: Graph, titleKey: string, topicKey: string)
    requires Succeeds(KeptOf(g, titleKey, topicKey))
    ensures forall p | p in KeptOf(g, titleKey, topicKey) :: p.0.Some? && p.1.Some?
    ensures var g1 := ApplyAll(g, RunCalls(g, titleKey, topicKey));
      forall p | p in KeptOf(g, titleKey, topicKey) ::
        Satisfied(g1, IndexCall(p.1.value, topicKey))
        && Satisfied(g1, LinkCall(p.0.value, p.1.value, titleKey, topicKey))
  {
    var kept := KeptOf(g, titleKey, topicKey);
    var cs := RunCalls(g, titleKey, topicKey);
    RunIndexCalls(g, titleKey, topicKey);
    RunLinkCalls(g, titleKey, topicKey);
    KeptCallsMade(kept, cs, titleKey, topicKey);
    ApplyAllSatisfies(g, cs);
  }

  /** A log that starts with one index write per topic of the dict, followed by a reordering
      of the kept pairs' links, holds the index write and the link of every kept pair. */
  lemma KeptCallsMade(kept: seq<(Option<Value>, Option<Value>)>, cs: seq<Call>, titleKey: string, topicKey: string)
    requires forall p | p in kept :: p.0.Some? && p.1.Some?
    requires forall t | t in TopicOrder(kept) :: t.Some?
    requires |TopicOrder(kept)| <= |cs|
    requires forall i | 0 <= i < |TopicOrder(kept)| :: cs[i] == IndexCall(TopicOrder(kept)[i].value, topicKey)
    requires forall p | p in kept :: p.1 in TopicOrder(kept)
    requires multiset(cs[|TopicOrder(kept)|..]) == multiset(KeptLinks(kept, titleKey, topicKey))
    ensures forall p | p in kept ::
      IndexCall(p.1.value, topicKey) in cs && LinkCall(p.0.value, p.1.value, titleKey, topicKey) in cs
  {
    var order := TopicOrder(kept);
    var links := KeptLinks(kept, titleKey, topicKey);
    forall p | p in kept
      ensures IndexCall(p.1.value, topicKey) in cs
      ensures LinkCall(p.0.value, p.1.value, titleKey, topicKey) in cs
    {
      var i :| 0 <= i < |order| && order[i] == p.1;
      assert cs[i] == IndexCall(p.1.value, topicKey);
      var j :| 0 <= j < |kept| && kept[j] == p;
      InSuffix(cs, |order|, links, links[j]);
    }
  }

  /** The grouping loop: looks every title up, skips empty lookups and files each title under
      the first topic found, keeping the dict's insertion order. Nothing is written. */
  method GroupTopics(comm: Neo4jComm, titleKey: string, topicKey: string)
    returns (ok: bool, order: seq<Option<Value>>, groups: map<Option<Value>, seq<Option<Value>>>)
    requires IsName(titleKey)
    ensures ok <==> Groupable(KeptOf(comm.graph, titleKey, topicKey))
    ensures ok ==> order == TopicOrder(KeptOf(comm.graph, titleKey, topicKey))
    ensures ok ==> groups == Grouping(KeptOf(comm.graph, titleKey, topicKey))
  {
    var nodeTitles := comm.PullNodeProp(WikiDataLabel, [], titleKey);
    assert ToMap([]) == map[];
    ghost var all := Lookups(comm.graph, nodeTitles, titleKey, topicKey);
    ok, order, groups := GroupTitles(comm, nodeTitles, titleKey, topicKey, all);
  }

  /** The loop over the pulled titles, given the lookup answers it will get (`all`). */
  method GroupTitles(comm: Neo4jComm, titles: seq<Option<Value>>, titleKey: string, topicKey: string,
                     ghost all: seq<seq<Option<Value>>>)
    returns (ok: bool, order: seq<Option<Value>>, groups: map<Option<Value>, seq<Option<Value>>>)
    requires IsName(titleKey)
    requires |all| == |titles|
    requires forall i | 0 <= i < |titles| :: all[i] == TopicsOf(comm.graph, titles[i], titleKey, topicKey)
    ensures ok <==> Groupable(Kept(titles, all))
    ensures ok ==> order == TopicOrder(Kept(titles, all)) && groups == Grouping(Kept(titles, all))
  {
    order := [];
    groups := map[];
    var i := 0;
    assert titles[..0] == [] && all[..0] == [];
    while i < |titles|
      invariant 0 <= i <= |titles|
      invariant GroupedUpTo(titles, all, i, order, groups)
    {
      var title := titles[i];
      var topic := LookUp(comm, title, titleKey, topicKey, all[i]);
      ok, order, groups := GroupAt(titles, all, i, topic, order, groups);
      if !ok {
        return;
      }
      i := i + 1;
    }
    assert titles[..i] == titles && all[..i] == all;
    ok := true;
  }

  /** `pull_node_prop(label='WikiData', props={title_key: title}, prop=topic_key)`; a null
      title is answered without a query, as the query would match nothing. The answer is the
      topic lookup on the store, named `expected` by the caller. */
  method LookUp(comm: Neo4jComm, title: Option<Value>, titleKey: string, topicKey: string,
                ghost expected: seq<Option<Value>>)
    returns (topic: seq<Option<Value>>)
    requires IsName(titleKey)
    requires expected == TopicsOf(comm.graph, title, titleKey, topicKey)
    ensures topic == expected
  {
    topic := [];
    if title.Some? {
      assert ValidBag([(titleKey, title.value)]);
      topic := comm.PullNodeProp(WikiDataLabel, [(titleKey, title.value)], topicKey);
      SingletonMap(titleKey, title.value);
    }
  }

  /** `link(n4jcomm, topic_key, title_key)`. When the run gets through, the store is the old
      store after every write of `RunCalls`, in order; when some topic is a list, nothing is
      written at all; when the dict is built but a topic in it is null, the index nodes of
      the topics before that one stay merged (`PartialRunCalls`). */
  method Link(comm: Neo4jComm, topicKey: string, titleKey: string) returns (ok: bool)
    requires IsName(topicKey) && IsName(titleKey)
    requires Valid(comm.graph)
    modifies comm
    ensures Valid(comm.graph)
    ensures ok <==> Succeeds(KeptOf(old(comm.graph), titleKey, topicKey))
    ensures ok ==> comm.graph == ApplyAll(old(comm.graph), RunCalls(old(comm.graph), titleKey, topicKey))
    ensures !Groupable(KeptOf(old(comm.graph), titleKey, topicKey)) ==> comm.graph == old(comm.graph)
    ensures Groupable(KeptOf(old(comm.graph), titleKey, topicKey)) && !ok ==>
      comm.graph == ApplyAll(old(comm.graph), PartialRunCalls(old(comm.graph), titleKey, topicKey))
  {
    ghost var g0 := comm.graph;
    ghost var kept := KeptOf(g0, titleKey, topicKey);
    var order: seq<Option<Value>>, groups: map<Option<Value>, seq<Option<Value>>>;
    ok, order, groups := GroupTopics(comm, titleKey, topicKey);
    if !ok {
      return;
    }
    KeptTitlesPresent(g0, titleKey, topicKey);
    GroupedTitlesPresent(kept);
    SucceedsOrder(kept);
    ok := PushIndexNodes(comm, order, titleKey, topicKey);
    if !ok {
      return;
    }
    PushLinks(comm, order, groups, titleKey, topicKey);
    ghost var index := IndexPushes(order);
    ghost var links := LinkPushes(groups, order);
    CallsAppend(index, links, titleKey, topicKey);
    ApplyAllAppend(g0, Calls(index, titleKey, topicKey), Calls(links, titleKey, topicKey));
  }

  /** How many topics at the front of `order` are present: the index loop merges that many
      and stops at the next topic, which is null. */
  function PresentPrefix(order: seq<Option<Value>>): (n: nat)
    ensures n <= |order|
    ensures forall k | 0 <= k < n :: order[k].Some?
    ensures n < |order| ==> order[n].None?
  {
    if order == [] || order[0].None? then 0 else 1 + PresentPrefix(order[1..])
  }

  /** The index writes of the topics ahead of the first null one in `order`. */
  function IndexCallsBeforeNull(order: seq<Option<Value>>, titleKey: string, topicKey: string): seq<Call>
  {
    var n := PresentPrefix(order);
    PresentConcrete(order, n);
    Calls(IndexPushes(order[..n]), titleKey, topicKey)
  }

  /** Index pushes of present topics are store writes. */
  lemma PresentConcrete(order: seq<Option<Value>>, n: nat)
    requires n <= |order|
    requires forall k | 0 <= k < n :: order[k].Some?
    ensures AllConcrete(IndexPushes(order[..n]))
  {
    var ps := IndexPushes(order[..n]);
    forall p | p in ps
      ensures Concrete(p)
    {
      var i := SomeIndex(ps, p);
    }
  }

  /** The writes of a run on `g` that builds the dict and then meets a null topic: the index
      writes of the topics before it. */
  function PartialRunCalls(g: Graph, titleKey: string, topicKey: string): seq<Call>
  {
    IndexCallsBeforeNull(TopicOrder(KeptOf(g, titleKey, topicKey)), titleKey, topicKey)
  }

  /** A run that stops at a null topic has merged one index node for each topic ahead of it,
      in dict order, fewer than there are topics; each of them is present afterwards, and
      no edge has been written. */
  lemma PartialRun(g: Graph, titleKey: string, topicKey: string)
    requires Groupable(KeptOf(g, titleKey, topicKey)) && !Succeeds(KeptOf(g, titleKey, topicKey))
    ensures var order := TopicOrder(KeptOf(g, titleKey, topicKey));
            var cs := PartialRunCalls(g, titleKey, topicKey);
            && |cs| < |order|
            && (forall i | 0 <= i < |cs| :: order[i].Some? && cs[i] == IndexCall(order[i].value, topicKey))
            && (forall c | c in cs :: Satisfied(ApplyAll(g, cs), c))
            && ApplyAll(g, cs).edges == g.edges
  {
    var kept := KeptOf(g, titleKey, topicKey);
    var order := TopicOrder(kept);
    var cs := PartialRunCalls(g, titleKey, topicKey);
    var p :| p in kept && !(Hashable(p.1) && p.1.Some?);
    TopicOrderMembers(kept);
    assert p.1 in order;
    var j := SomeIndex(order, p.1);
    assert PresentPrefix(order) <= j;
    forall c | c in cs
      ensures c.NodeCall?
    {
      var i := SomeIndex(cs, c);
    }
    NodeCallsKeepEdges(g, cs);
    ApplyAllSatisfies(g, cs);
  }

  /** Every push is concrete. */
  predicate AllConcrete(ps: seq<Push>)
  {
    forall p | p in ps :: Concrete(p)
  }

  /** The run gets through exactly when grouping does and every topic of the dict is
      present. */
  lemma SucceedsOrder(kept: seq<(Option<Value>, Option<Value>)>)
    ensures Succeeds(kept) <==> Groupable(kept) && forall t | t in TopicOrder(kept) :: t.Some?
  {
    TopicOrderMembers(kept);
  }

  /** Every topic of the dict has a list, and every title filed is present when every kept
      title is. */
  lemma GroupedTitlesPresent(kept: seq<(Option<Value>, Option<Value>)>)
    requires forall p | p in kept :: p.0.Some?
    ensures forall t | t in TopicOrder(kept) :: t in Grouping(kept)
    ensures forall t: Option<Value>, x: Option<Value> | t in Grouping(kept) && x in Grouping(kept)[t] :: x.Some?
  {
    GroupingMembers(kept);
    forall t: Option<Value>, x: Option<Value> | t in Grouping(kept) && x in Grouping(kept)[t]
      ensures x.Some?
    {
      assert (x, t) in kept;
    }
  }

  /** The index loop: `push_node(label='IndexNode', props={topic_key: topic})` for each topic
      in dict order. A null topic cannot be merged, and the run stops there. */
  method PushIndexNodes(comm: Neo4jComm, order: seq<Option<Value>>, titleKey: string, topicKey: string)
    returns (ok: bool)
    requires IsName(topicKey)
    requires Valid(comm.graph)
    modifies comm
    ensures Valid(comm.graph)
    ensures ok <==> forall t | t in order :: t.Some?
    ensures ok ==> AllConcrete(IndexPushes(order))
    ensures ok ==> comm.graph == ApplyAll(old(comm.graph), Calls(IndexPushes(order), titleKey, topicKey))
    ensures !ok ==> comm.graph == ApplyAll(old(comm.graph), IndexCallsBeforeNull(order, titleKey, topicKey))
  {
    ghost var g0 := comm.graph;
    ok := true;
    for j := 0 to |order|
      invariant IndexedUpTo(comm.graph, g0, order, j, titleKey, topicKey)
    {
      ok := IndexAt(comm, order, j, titleKey, topicKey, g0);
      if !ok {
        assert order[j] in order;
        assert PresentPrefix(order) == j;
        return;
      }
    }
    assert order[..|order|] == order;
  }

  /** The index loop has merged the first `j` topics of `order` into `g0`, giving `g`; all
      of them were present. */
  predicate IndexedUpTo(g: Graph, g0: Graph, order: seq<Option<Value>>, j: nat, titleKey: string, topicKey: string)
    requires j <= |order|
  {
    && (forall k | 0 <= k < j :: order[k].Some?)
    && AllConcrete(IndexPushes(order[..j]))
    && Valid(g)
    && g == ApplyAll(g0, Calls(IndexPushes(order[..j]), titleKey, topicKey))
  }

  /** One pass of the index loop, on topic `j`: a null topic stops the run, any other is
      merged as an index node. */
  method IndexAt(comm: Neo4jComm, order: seq<Option<Value>>, j: nat, titleKey: string, topicKey: string, ghost g0: Graph)
    returns (ok: bool)
    requires IsName(topicKey)
    requires j < |order|
    requires IndexedUpTo(comm.graph, g0, order, j, titleKey, topicKey)
    modifies comm
    ensures ok <==> order[j].Some?
    ensures ok ==> IndexedUpTo(comm.graph, g0, order, j + 1, titleKey, topicKey)
    ensures !ok ==> comm.graph == old(comm.graph)
  {
    var t := order[j];
    if t.None? {
      return false;
    }
    Write(comm, PushIndex(t), titleKey, topicKey, g0, IndexPushes(order[..j]));
    IndexStep(order, j);
    ok := true;
  }

  /** The link loops: for each topic in dict order, a link from each of its titles. */
  method PushLinks(comm: Neo4jComm, order: seq<Option<Value>>, groups: map<Option<Value>, seq<Option<Value>>>,
                   titleKey: string, topicKey: string)
    requires IsName(titleKey) && IsName(topicKey)
    requires Valid(comm.graph)
    requires forall t | t in order :: t.Some? && t in groups
    requires forall t: Option<Value>, x: Option<Value> | t in groups && x in groups[t] :: x.Some?
    modifies comm
    ensures Valid(comm.graph)
    ensures AllConcrete(LinkPushes(groups, order))
    ensures comm.graph == ApplyAll(old(comm.graph), Calls(LinkPushes(groups, order), titleKey, topicKey))
  {
    ghost var g0 := comm.graph;
    for a := 0 to |order|
      invariant forall t | t in order[..a] :: t in groups
      invariant AllConcrete(LinkPushes(groups, order[..a]))
      invariant Valid(comm.graph)
      invariant comm.graph == ApplyAll(g0, Calls(LinkPushes(groups, order[..a]), titleKey, topicKey))
    {
      var t := order[a];
      assert t in order;
      ghost var g1 := comm.graph;
      PushBlock(comm, groups[t], t, titleKey, topicKey);
      LinksStep(g0, g1, comm.graph, order, a, groups, titleKey, topicKey);
    }
    assert order[..|order|] == order;
  }

  /** One more topic of the link loop: its block of links, run after those of the topics
      before it, gives the run of the longer prefix. */
  lemma LinksStep(g0: Graph, g1: Graph, g2: Graph, order: seq<Option<Value>>, a: nat,
                  groups: map<Option<Value>, seq<Option<Value>>>, titleKey: string, topicKey: string)
    requires a < |order| && forall t | t in order[..a + 1] :: t in groups
    requires AllConcrete(LinkPushes(groups, order[..a]))
    requires g1 == ApplyAll(g0, Calls(LinkPushes(groups, order[..a]), titleKey, topicKey))
    requires AllConcrete(LinkBlock(groups[order[a]], order[a]))
    requires g2 == ApplyAll(g1, Calls(LinkBlock(groups[order[a]], order[a]), titleKey, topicKey))
    ensures forall t | t in order[..a] :: t in groups
    ensures AllConcrete(LinkPushes(groups, order[..a + 1]))
    ensures g2 == ApplyAll(g0, Calls(LinkPushes(groups, order[..a + 1]), titleKey, topicKey))
  {
    assert order[..a + 1][..a] == order[..a];
    var before := LinkPushes(groups, order[..a]);
    var block := LinkBlock(groups[order[a]], order[a]);
    assert LinkPushes(groups, order[..a + 1]) == before + block;
    CallsAppend(before, block, titleKey, topicKey);
    ApplyAllAppend(g0, Calls(before, titleKey, topicKey), Calls(block, titleKey, topicKey));
  }

  /** The inner link loop for one topic: `push_rel` from the article with each title to the
      topic's index node, with confidence 1.0. */
  method PushBlock(comm: Neo4jComm, titles: seq<Option<Value>>, t: Option<Value>, titleKey: string, topicKey: string)
    requires IsName(titleKey) && IsName(topicKey)
    requires Valid(comm.graph)
    requires t.Some? && forall x | x in titles :: x.Some?
    modifies comm
    ensures Valid(comm.graph)
    ensures AllConcrete(LinkBlock(titles, t))
    ensures comm.graph == ApplyAll(old(comm.graph), Calls(LinkBlock(titles, t), titleKey, topicKey))
  {
    ghost var g0 := comm.graph;
    for b := 0 to |titles|
      invariant AllConcrete(LinkBlock(titles[..b], t))
      invariant Valid(comm.graph)
      invariant comm.graph == ApplyAll(g0, Calls(LinkBlock(titles[..b], t), titleKey, topicKey))
    {
      var title := titles[b];
      assert title in titles;
      Write(comm, PushLink(title, t), titleKey, topicKey, g0, LinkBlock(titles[..b], t));
      BlockStep(titles, b, t);
    }
    assert titles[..|titles|] == titles;
  }

  /** One push made on the store: `push_node` for an index push, `push_rel` for a link.
      The store that was the log `ps` run on `g0` becomes the log with the push added. */
  method Write(comm: Neo4jComm, p: Push, titleKey: string, topicKey: string, ghost g0: Graph, ghost ps: seq<Push>)
    requires IsName(topicKey) && (p.PushLink? ==> IsName(titleKey))
    requires Valid(comm.graph)
    requires Concrete(p) && AllConcrete(ps)
    requires comm.graph == ApplyAll(g0, Calls(ps, titleKey, topicKey))
    modifies comm
    ensures Valid(comm.graph)
    ensures AllConcrete(ps + [p])
    ensures comm.graph == ApplyAll(g0, Calls(ps + [p], titleKey, topicKey))
  {
    Extend(g0, ps, p, titleKey, topicKey);
    match p
    case PushIndex(t) =>
      assert ValidBag([(topicKey, t.value)]);
      comm.PushNode(IndexLabel, [(topicKey, t.value)]);
      SingletonMap(topicKey, t.value);
    case PushLink(title, t) =>
      LinkArgsValid(titleKey, topicKey);
      comm.PushRel(WikiDataLabel, IndexLabel, PrelinkedLabel,
                   [(titleKey, title.value)], [(topicKey, t.value)], [(ConfidenceKey, FloatOne)]);
      SingletonMap(titleKey, title.value);
      SingletonMap(topicKey, t.value);
      SingletonMap(ConfidenceKey, FloatOne);
  }

  /** One more title of the block: one more link, at the end. */
  lemma BlockStep(titles: seq<Option<Value>>, b: nat, t: Option<Value>)
    requires b < |titles|
    ensures LinkBlock(titles[..b + 1], t) == LinkBlock(titles[..b], t) + [PushLink(titles[b], t)]
  {
  }

  /** One more topic of the order: one more index node, at the end. */
  lemma IndexStep(order: seq<Option<Value>>, j: nat)
    requires j < |order|
    ensures IndexPushes(order[..j + 1]) == IndexPushes(order[..j]) + [PushIndex(order[j])]
  {
  }

  /** The writes of two stretches of pushes are those of the first, then those of the
      second. */
  lemma CallsAppend(ps: seq<Push>, qs: seq<Push>, titleKey: string, topicKey: string)
    requires AllConcrete(ps) && AllConcrete(qs)
    ensures AllConcrete(ps + qs)
    ensures Calls(ps + qs, titleKey, topicKey) == Calls(ps, titleKey, topicKey) + Calls(qs, titleKey, topicKey)
  {
  }

  /** The property names the link writes use are identifiers. */
  lemma LinkArgsValid(titleKey: string, topicKey: string)
    requires IsName(titleKey) && IsName(topicKey)
    ensures forall v :: ValidBag([(titleKey, v)]) && ValidBag([(topicKey, v)]) && ValidBag([(ConfidenceKey, v)])
  {
  }

  /** Making one more write extends the log by its call. */
  lemma Extend(g0: Graph, ps: seq<Push>, p: Push, titleKey: string, topicKey: string)
    requires AllConcrete(ps)
    requires Concrete(p)
    ensures AllConcrete(ps + [p])
    ensures ApplyAll(g0, Calls(ps + [p], titleKey, topicKey))
         == Apply(ApplyAll(g0, Calls(ps, titleKey, topicKey)), ToCall(p, titleKey, topicKey))
  {
    var cs := Calls(ps + [p], titleKey, topicKey);
    assert cs[..|cs| - 1] == Calls(ps, titleKey, topicKey);
  }
}
