/** The older prelinked linker. It runs the same algorithm as `TopicLinker`, but against a
    client interface of `pull_any_node_prop`, `push_any_node` and `push_any_rel`, with article
    label `wikidata`. The preprocessing client defines none of these three methods, so their
    effect on a store is unknown. The model therefore takes the client's reads as parameters:
    `nodeTitles` is what the first pull returned, and `lookup` is what a pull by title returns.
    The run's result is the sequence of calls it makes, with the values exactly as passed. */
module LegacyTopicLinker {
  import opened Values
  import opened Seqs
  import opened TopicGrouping

  /** Label of article nodes on this interface. */
  const ArticleLabel: string := "wikidata"
  /** Label of the index nodes. */
  const IndexLabel: string := "IndexNode"
  /** Label of the edges from articles to index nodes. */
  const PrelinkedLabel: string := "PRELINKED"
  /** The edge property holding the link's confidence. */
  const ConfidenceKey: string := "confidence"

  /** One call on the interface, its props dicts as passed, nulls included. */
  datatype AnyCall =
    | PushAnyNode(lbl: string, props: map<string, Option<Value>>)
    | PushAnyRel(vLabel: string, wLabel: string, eLabel: string,
                 vProps: map<string, Option<Value>>, wProps: map<string, Option<Value>>,
                 eProps: map<string, Option<Value>>)

  /** The call a push makes: `push_any_node(label='IndexNode', props={topic_key: topic})`, or
      `push_any_rel` from the article with the title to the topic's index node, with
      confidence 1.0. */
  function CallOf(p: Push, titleKey: string, topicKey: string): AnyCall
  {
    match p
    case PushIndex(t) => PushAnyNode(IndexLabel, map[topicKey := t])
    case PushLink(x, t) =>
      PushAnyRel(ArticleLabel, IndexLabel, PrelinkedLabel,
                 map[titleKey := x], map[topicKey := t], map[ConfidenceKey := Some(FloatOne)])
  }

  /** The calls of a sequence of pushes, in order. */
  function CallsOf(ps: seq<Push>, titleKey: string, topicKey: string): (cs: seq<AnyCall>)
    ensures |cs| == |ps|
    ensures forall i | 0 <= i < |ps| :: cs[i] == CallOf(ps[i], titleKey, topicKey)
  {
    seq(|ps|, i requires 0 <= i < |ps| => CallOf(ps[i], titleKey, topicKey))
  }

  /** The lookup answers for `titles`, aligned with them. */
  function Answers(titles: seq<Option<Value>>, lookup: Option<Value> -> seq<Option<Value>>)
    : (r: seq<seq<Option<Value>>>)
    ensures |r| == |titles|
    ensures forall i | 0 <= i < |titles| :: r[i] == lookup(titles[i])
  {
    seq(|titles|, i requires 0 <= i < |titles| => lookup(titles[i]))
  }

  /** `link(n4jcomm, topic_key, title_key)`. When no topic is a list, the calls are those of
      every push of the grouping, in order. When one is a list, building the dict raises
      before any push, and no call is made. */
  method Link(nodeTitles: seq<Option<Value>>, lookup: Option<Value> -> seq<Option<Value>>,
              topicKey: string, titleKey: string)
    returns (ok: bool, log: seq<AnyCall>)
    ensures ok <==> Groupable(Kept(nodeTitles, Answers(nodeTitles, lookup)))
    ensures ok ==> log == CallsOf(Pushes(Kept(nodeTitles, Answers(nodeTitles, lookup))), titleKey, topicKey)
    ensures !ok ==> log == []
  {
    log := [];
    var order: seq<Option<Value>>, groups: map<Option<Value>, seq<Option<Value>>>;
    ok, order, groups := GroupTitles(nodeTitles, lookup);
    if !ok {
      return;
    }
    ghost var kept := Kept(nodeTitles, Answers(nodeTitles, lookup));
    var index := IndexLog(order, titleKey, topicKey);
    GroupingMembers(kept);
    var links := LinkLog(order, groups, titleKey, topicKey);
    log := index + links;
    CallsOfAppend(IndexPushes(order), LinkPushes(groups, order), titleKey, topicKey);
  }

  /** The grouping loop over the pulled titles. */
  method GroupTitles(titles: seq<Option<Value>>, lookup: Option<Value> -> seq<Option<Value>>)
    returns (ok: bool, order: seq<Option<Value>>, groups: map<Option<Value>, seq<Option<Value>>>)
    ensures ok <==> Groupable(Kept(titles, Answers(titles, lookup)))
    ensures ok ==> order == TopicOrder(Kept(titles, Answers(titles, lookup)))
    ensures ok ==> groups == Grouping(Kept(titles, Answers(titles, lookup)))
  {
    ghost var all := Answers(titles, lookup);
    order := [];
    groups := map[];
    var i := 0;
    assert titles[..0] == [] && all[..0] == [];
    while i < |titles|
      invariant 0 <= i <= |titles|
      invariant GroupedUpTo(titles, all, i, order, groups)
    {
      var title := titles[i];
      var topic := lookup(title);
      ok, order, groups := GroupAt(titles, all, i, topic, order, groups);
      if !ok {
        return;
      }
      i := i + 1;
    }
    assert titles[..i] == titles && all[..i] == all;
    ok := true;
  }

  /** The index loop: one `push_any_node` per topic, in dict order. */
  method IndexLog(order: seq<Option<Value>>, titleKey: string, topicKey: string) returns (log: seq<AnyCall>)
    ensures log == CallsOf(IndexPushes(order), titleKey, topicKey)
  {
    log := [];
    for j := 0 to |order|
      invariant log == CallsOf(IndexPushes(order[..j]), titleKey, topicKey)
    {
      log := log + [PushAnyNode(IndexLabel, map[topicKey := order[j]])];
      IndexStep(order, j, titleKey, topicKey);
    }
    assert order[..|order|] == order;
  }

  /** The link loops: for each topic in dict order, a `push_any_rel` from each of its
      titles. */
  method LinkLog(order: seq<Option<Value>>, groups: map<Option<Value>, seq<Option<Value>>>,
                 titleKey: string, topicKey: string)
    returns (log: seq<AnyCall>)
    requires forall t | t in order :: t in groups
    ensures log == CallsOf(LinkPushes(groups, order), titleKey, topicKey)
  {
    log := [];
    for a := 0 to |order|
      invariant forall t | t in order[..a] :: t in groups
      invariant log == CallsOf(LinkPushes(groups, order[..a]), titleKey, topicKey)
    {
      var t := order[a];
      assert t in order;
      var block := BlockLog(groups[t], t, titleKey, topicKey);
      ghost var before := LinkPushes(groups, order[..a]);
      assert order[..a + 1][..a] == order[..a];
      assert LinkPushes(groups, order[..a + 1]) == before + LinkBlock(groups[t], t);
      CallsOfAppend(before, LinkBlock(groups[t], t), titleKey, topicKey);
      log := log + block;
    }
    assert order[..|order|] == order;
  }

  /** The inner link loop for one topic. */
  method BlockLog(titles: seq<Option<Value>>, t: Option<Value>, titleKey: string, topicKey: string)
    returns (log: seq<AnyCall>)
    ensures log == CallsOf(LinkBlock(titles, t), titleKey, topicKey)
  {
    log := [];
    for b := 0 to |titles|
      invariant log == CallsOf(LinkBlock(titles[..b], t), titleKey, topicKey)
    {
      log := log + [PushAnyRel(ArticleLabel, IndexLabel, PrelinkedLabel, map[titleKey := titles[b]],
                               map[topicKey := t], map[ConfidenceKey := Some(FloatOne)])];
      BlockStep(titles, b, t, titleKey, topicKey);
    }
    assert titles[..|titles|] == titles;
  }

  /** The calls of two stretches of pushes are those of the first, then those of the
      second. */
  lemma CallsOfAppend(ps: seq<Push>, qs: seq<Push>, titleKey: string, topicKey: string)
    ensures CallsOf(ps + qs, titleKey, topicKey) == CallsOf(ps, titleKey, topicKey) + CallsOf(qs, titleKey, topicKey)
  {
  }

  lemma IndexStep(order: seq<Option<Value>>, j: nat, titleKey: string, topicKey: string)
    requires j < |order|
    ensures CallsOf(IndexPushes(order[..j + 1]), titleKey, topicKey)
         == CallsOf(IndexPushes(order[..j]), titleKey, topicKey) + [PushAnyNode(IndexLabel, map[topicKey := order[j]])]
  {
    assert IndexPushes(order[..j + 1]) == IndexPushes(order[..j]) + [PushIndex(order[j])];
    CallsOfAppend(IndexPushes(order[..j]), [PushIndex(order[j])], titleKey, topicKey);
  }

  lemma BlockStep(titles: seq<Option<Value>>, b: nat, t: Option<Value>, titleKey: string, topicKey: string)
    requires b < |titles|
    ensures CallsOf(LinkBlock(titles[..b + 1], t), titleKey, topicKey)
         == CallsOf(LinkBlock(titles[..b], t), titleKey, topicKey)
            + [PushAnyRel(ArticleLabel, IndexLabel, PrelinkedLabel, map[titleKey := titles[b]],
                          map[topicKey := t], map[ConfidenceKey := Some(FloatOne)])]
  {
    assert LinkBlock(titles[..b + 1], t) == LinkBlock(titles[..b], t) + [PushLink(titles[b], t)];
    CallsOfAppend(LinkBlock(titles[..b], t), [PushLink(titles[b], t)], titleKey, topicKey);
  }

  /** The first calls of a successful run: one `push_any_node` per distinct topic, in dict
      order. */
  lemma RunIndexCalls(kept: seq<(Option<Value>, Option<Value>)>, titleKey: string, topicKey: string, log: seq<AnyCall>)
    requires log == CallsOf(Pushes(kept), titleKey, topicKey)
    ensures |TopicOrder(kept)| <= |log|
    ensures Distinct(TopicOrder(kept))
    ensures forall i | 0 <= i < |TopicOrder(kept)| :: log[i] == PushAnyNode(IndexLabel, map[topicKey := TopicOrder(kept)[i]])
  {
  }

  /** The rest of a successful run: only `push_any_rel` calls from a `wikidata` node to an
      `IndexNode`, with label `PRELINKED` and confidence 1.0. They are the links of the kept
      (title, topic) pairs, each as often as its pair was kept, in some order. So there are
      as many relation calls as kept titles. */
  lemma RunLinkCalls(kept: seq<(Option<Value>, Option<Value>)>, titleKey: string, topicKey: string, log: seq<AnyCall>)
    requires log == CallsOf(Pushes(kept), titleKey, topicKey)
    ensures |log| == |TopicOrder(kept)| + |kept|
    ensures forall i | |TopicOrder(kept)| <= i < |log| ::
      log[i].PushAnyRel? && log[i].vLabel == ArticleLabel && log[i].wLabel == IndexLabel
      && log[i].eLabel == PrelinkedLabel && log[i].eProps == map[ConfidenceKey := Some(FloatOne)]
    ensures multiset(log[|TopicOrder(kept)|..]) == multiset(CallsOf(PairLinks(kept), titleKey, topicKey))
  {
    LinksAreKeptPairs(kept);
    var order := TopicOrder(kept);
    var index := IndexPushes(order);
    var links := LinkPushes(Grouping(kept), order);
    assert Pushes(kept) == index + links;
    CallsOfAppend(index, links, titleKey, topicKey);
    assert log[|order|..] == CallsOf(links, titleKey, topicKey);
    CallsOfPermutation(links, PairLinks(kept), titleKey, topicKey);
    forall i | |order| <= i < |log|
      ensures log[i] == CallOf(Pushes(kept)[i], titleKey, topicKey) && Pushes(kept)[i].PushLink?
    {
    }
  }

  /** Different pushes make different calls. */
  lemma CallOfInjective(p: Push, q: Push, titleKey: string, topicKey: string)
    ensures CallOf(p, titleKey, topicKey) == CallOf(q, titleKey, topicKey) <==> p == q
  {
    var c := CallOf(p, titleKey, topicKey);
    var d := CallOf(q, titleKey, topicKey);
    if c == d {
      match p
      case PushIndex(t) =>
        assert c.props[topicKey] == t && d.props[topicKey] == q.topic;
      case PushLink(x, t) =>
        assert c.vProps[titleKey] == x && c.wProps[topicKey] == t;
        assert d.vProps[titleKey] == q.title && d.wProps[topicKey] == q.topic;
    }
  }

  /** A push's call occurs among the calls as often as the push among the pushes. */
  lemma {:induction false} CallCount(ps: seq<Push>, p: Push, titleKey: string, topicKey: string)
    ensures multiset(CallsOf(ps, titleKey, topicKey))[CallOf(p, titleKey, topicKey)] == multiset(ps)[p]
  {
    if ps != [] {
      var init := ps[..|ps| - 1];
      var q := ps[|ps| - 1];
      var c := CallOf(p, titleKey, topicKey);
      var cs := CallsOf(ps, titleKey, topicKey);
      var ci := CallsOf(init, titleKey, topicKey);
      assert ps == init + [q];
      CallsOfAppend(init, [q], titleKey, topicKey);
      assert cs == ci + [CallOf(q, titleKey, topicKey)];
      CallCount(init, p, titleKey, topicKey);
      CallOfInjective(q, p, titleKey, topicKey);
      if q == p {
        assert multiset(cs)[c] == multiset(ci)[c] + 1;
        assert multiset(ps)[p] == multiset(init)[p] + 1;
      } else {
        assert multiset(cs)[c] == multiset(ci)[c];
        assert multiset(ps)[p] == multiset(init)[p];
      }
    }
  }

  /** Pushes that are a reordering of each other make calls that are a reordering of each
      other. */
  lemma CallsOfPermutation(a: seq<Push>, b: seq<Push>, titleKey: string, topicKey: string)
    requires multiset(a) == multiset(b)
    ensures multiset(CallsOf(a, titleKey, topicKey)) == multiset(CallsOf(b, titleKey, topicKey))
  {
    var ca := CallsOf(a, titleKey, topicKey);
    var cb := CallsOf(b, titleKey, topicKey);
    forall c
      ensures multiset(ca)[c] == multiset(cb)[c]
    {
      if c in ca {
        var i :| 0 <= i < |ca| && ca[i] == c;
        CallCount(a, a[i], titleKey, topicKey);
        CallCount(b, a[i], titleKey, topicKey);
      } else if c in cb {
        var i :| 0 <= i < |cb| && cb[i] == c;
        CallCount(a, b[i], titleKey, topicKey);
        CallCount(b, b[i], titleKey, topicKey);
      }
    }
  }
}
