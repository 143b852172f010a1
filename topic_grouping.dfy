/** The grouping step that both prelinked (topic) linkers share. Each article title is
    looked up for its topic; a title whose lookup came back empty is skipped, the others are
    collected into an insertion-ordered dict from topic to titles; then one index node is
    pushed per topic, and one link per (title, topic) pair.

    Here the pulled titles and the lookup answers are sequences aligned by position; the
    dict is its key order (`TopicOrder`) and its contents (`Grouping`); and the writes are
    abstract `Push`es, which each linker turns into calls on its own client. */
module TopicGrouping {
  import opened Values
  import opened Seqs

  /** The (title, topic) pairs the linker goes on with, in title order: a title whose lookup
      found something is kept with the first value found; the others are skipped. */
  function Kept(titles: seq<Option<Value>>, found: seq<seq<Option<Value>>>)
    : (r: seq<(Option<Value>, Option<Value>)>)
    requires |found| == |titles|
    ensures |r| <= |titles|
  {
    if titles == [] then []
    else
      var n := |titles| - 1;
      var init := Kept(titles[..n], found[..n]);
      init + (if found[n] == [] then [] else [(titles[n], found[n][0])])
  }

  /** Every kept pair is a title with the first value of its non-empty lookup. */
  lemma {:induction false} KeptFrom(titles: seq<Option<Value>>, found: seq<seq<Option<Value>>>)
    requires |found| == |titles|
    ensures forall p | p in Kept(titles, found) ::
      exists i :: 0 <= i < |titles| && found[i] != [] && p == (titles[i], found[i][0])
  {
    if titles != [] {
      var n := |titles| - 1;
      KeptFrom(titles[..n], found[..n]);
    }
  }

  /** The number of lookups that came back empty. */
  function Skipped(found: seq<seq<Option<Value>>>): nat
  {
    if found == [] then 0
    else Skipped(found[..|found| - 1]) + (if found[|found| - 1] == [] then 1 else 0)
  }

  /** A title is skipped only when its lookup is empty, and every non-empty lookup is kept,
      whatever its first value (an empty-string topic included): the kept pairs and the
      skipped titles account for every title. */
  lemma {:induction false} KeptComplete(titles: seq<Option<Value>>, found: seq<seq<Option<Value>>>)
    requires |found| == |titles|
    ensures |Kept(titles, found)| + Skipped(found) == |titles|
    ensures forall i | 0 <= i < |titles| && found[i] != [] :: (titles[i], found[i][0]) in Kept(titles, found)
  {
    KeptSize(titles, found);
    forall i | 0 <= i < |titles| && found[i] != []
      ensures (titles[i], found[i][0]) in Kept(titles, found)
    {
      KeptHas(titles, found, i);
    }
  }

  /** The kept pairs and the skipped titles add up to all titles. */
  lemma {:induction false} KeptSize(titles: seq<Option<Value>>, found: seq<seq<Option<Value>>>)
    requires |found| == |titles|
    ensures |Kept(titles, found)| + Skipped(found) == |titles|
  {
    if titles != [] {
      var n := |titles| - 1;
      KeptSize(titles[..n], found[..n]);
    }
  }

  /** A title whose lookup is not empty is kept with its first value. */
  lemma {:induction false} KeptHas(titles: seq<Option<Value>>, found: seq<seq<Option<Value>>>, i: nat)
    requires |found| == |titles| && i < |titles| && found[i] != []
    ensures (titles[i], found[i][0]) in Kept(titles, found)
  {
    var n := |titles| - 1;
    if i < n {
      KeptHas(titles[..n], found[..n], i);
      assert titles[..n][i] == titles[i] && found[..n][i] == found[i];
    }
  }

  /** Looking at the first `i` titles keeps a prefix of what looking at all of them keeps. */
  lemma {:induction false} KeptPrefix(titles: seq<Option<Value>>, found: seq<seq<Option<Value>>>, i: nat)
    requires |found| == |titles|
    requires i <= |titles|
    ensures Kept(titles[..i], found[..i]) <= Kept(titles, found)
    decreases |titles| - i
  {
    if i < |titles| {
      KeptPrefix(titles, found, i + 1);
      assert titles[..i + 1][..i] == titles[..i];
      assert found[..i + 1][..i] == found[..i];
    } else {
      assert titles[..i] == titles && found[..i] == found;
    }
  }

  /** Looking at one more title keeps one more pair, unless its lookup is empty. */
  lemma KeptStep(titles: seq<Option<Value>>, found: seq<seq<Option<Value>>>, i: nat)
    requires |found| == |titles|
    requires i < |titles|
    ensures Kept(titles[..i + 1], found[..i + 1])
         == Kept(titles[..i], found[..i]) + (if found[i] == [] then [] else [(titles[i], found[i][0])])
  {
    assert titles[..i + 1][..i] == titles[..i];
    assert found[..i + 1][..i] == found[..i];
  }

  /** The grouping loop gets through: no topic is a list. */
  predicate Groupable(kept: seq<(Option<Value>, Option<Value>)>)
  {
    forall p | p in kept :: Hashable(p.1)
  }

  /** One pass of the grouping loop: the title is kept exactly when its lookup is not empty,
      and a list-valued topic means the whole run cannot group. */
  lemma GroupStep(titles: seq<Option<Value>>, all: seq<seq<Option<Value>>>, i: nat, topic: seq<Option<Value>>)
    requires |all| == |titles| && i < |titles|
    requires topic == all[i]
    ensures Kept(titles[..i + 1], all[..i + 1])
         == Kept(titles[..i], all[..i]) + (if topic == [] then [] else [(titles[i], topic[0])])
    ensures topic != [] && !Hashable(topic[0]) ==> !Groupable(Kept(titles, all))
  {
    KeptStep(titles, all, i);
    KeptPrefix(titles, all, i + 1);
    if topic != [] {
      assert (titles[i], topic[0]) in Kept(titles[..i + 1], all[..i + 1]);
    }
  }

  /** `topics_titles[topic] = prev + [title] if prev else [title]`: the title joins its
      topic's list, and a topic seen for the first time joins the key order at the end. The
      dict so far is the grouping of `kept`; afterwards it is the grouping of `kept` and the
      new pair. */
  method AddTitle(order: seq<Option<Value>>, groups: map<Option<Value>, seq<Option<Value>>>,
                  title: Option<Value>, t: Option<Value>, ghost kept: seq<(Option<Value>, Option<Value>)>)
    returns (order': seq<Option<Value>>, groups': map<Option<Value>, seq<Option<Value>>>)
    requires order == TopicOrder(kept) && groups == Grouping(kept)
    ensures order' == TopicOrder(kept + [(title, t)])
    ensures groups' == Grouping(kept + [(title, t)])
  {
    GroupAppend(kept, (title, t));
    var prev := if t in groups then groups[t] else [];
    order' := if t in groups then order else order + [t];
    assert (if prev != [] then prev + [title] else [title]) == prev + [title];
    groups' := groups[t := if prev != [] then prev + [title] else [title]];
  }

  /** The grouping loop has looked at the first `i` titles without stopping: the dict holds
      the grouping of the pairs kept so far, none of whose topics is a list. */
  predicate GroupedUpTo(titles: seq<Option<Value>>, all: seq<seq<Option<Value>>>, i: nat,
                        order: seq<Option<Value>>, groups: map<Option<Value>, seq<Option<Value>>>)
    requires |all| == |titles| && i <= |titles|
  {
    var kept := Kept(titles[..i], all[..i]);
    Groupable(kept) && order == TopicOrder(kept) && groups == Grouping(kept)
  }

  /** One pass of the grouping loop, on title `i` and its lookup answer `topic`: an empty
      answer skips the title; a list-valued first topic stops the loop (`ok` false), which
      means the whole run cannot group; any other topic is added to the dict. */
  method GroupAt(titles: seq<Option<Value>>, ghost all: seq<seq<Option<Value>>>, i: nat, topic: seq<Option<Value>>,
                 order: seq<Option<Value>>, groups: map<Option<Value>, seq<Option<Value>>>)
    returns (ok: bool, order': seq<Option<Value>>, groups': map<Option<Value>, seq<Option<Value>>>)
    requires |all| == |titles| && i < |titles| && topic == all[i]
    requires GroupedUpTo(titles, all, i, order, groups)
    ensures ok ==> GroupedUpTo(titles, all, i + 1, order', groups')
    ensures !ok ==> !Groupable(Kept(titles, all))
  {
    GroupStep(titles, all, i, topic);
    ghost var kept := Kept(titles[..i], all[..i]);
    ok, order', groups' := true, order, groups;
    if topic == [] {
      assert kept + [] == kept;
    } else if !Hashable(topic[0]) {
      ok := false;
    } else {
      order', groups' := AddTitle(order, groups, titles[i], topic[0], kept);
    }
  }

  /** The dict's keys in insertion order: each topic where it first appears. */
  function TopicOrder(kept: seq<(Option<Value>, Option<Value>)>): (r: seq<Option<Value>>)
    ensures Distinct(r)
    ensures |r| <= |kept|
  {
    if kept == [] then []
    else
      var t := kept[|kept| - 1].1;
      var o := TopicOrder(kept[..|kept| - 1]);
      if t in o then o else o + [t]
  }

  /** The key order lists exactly the topics of the kept pairs. */
  lemma {:induction false} TopicOrderMembers(kept: seq<(Option<Value>, Option<Value>)>)
    ensures forall t :: t in TopicOrder(kept) <==> exists p | p in kept :: p.1 == t
  {
    if kept != [] {
      var init := kept[..|kept| - 1];
      TopicOrderMembers(init);
      assert forall p | p in init :: p in kept;
      assert kept == init + [kept[|kept| - 1]];
    }
  }

  /** The dict's contents: each topic maps to its titles, a later title appended to the
      list already there. */
  function Grouping(kept: seq<(Option<Value>, Option<Value>)>): (g: map<Option<Value>, seq<Option<Value>>>)
    ensures forall t :: t in g <==> t in TopicOrder(kept)
  {
    if kept == [] then map[]
    else
      var init := kept[..|kept| - 1];
      var g := Grouping(init);
      var t := kept[|kept| - 1].1;
      g[t := (if t in g then g[t] else []) + [kept[|kept| - 1].0]]
  }

  /** The dict after one more pair: a new topic joins the key order at the end, and the
      title is appended to its topic's list. */
  lemma GroupAppend(kept: seq<(Option<Value>, Option<Value>)>, p: (Option<Value>, Option<Value>))
    ensures TopicOrder(kept + [p]) == if p.1 in TopicOrder(kept) then TopicOrder(kept) else TopicOrder(kept) + [p.1]
    ensures Grouping(kept + [p]) == Grouping(kept)[p.1 := (if p.1 in Grouping(kept) then Grouping(kept)[p.1] else []) + [p.0]]
  {
    assert (kept + [p])[..|kept|] == kept;
  }

  /** An independent statement of a topic's titles: the titles kept with that topic, in the
      order they were pulled. */
  function Members(kept: seq<(Option<Value>, Option<Value>)>, t: Option<Value>): (r: seq<Option<Value>>)
    ensures |r| <= |kept|
    ensures forall x | x in r :: (x, t) in kept
  {
    if kept == [] then []
    else
      var init := kept[..|kept| - 1];
      var p := kept[|kept| - 1];
      assert forall q | q in init :: q in kept;
      Members(init, t) + (if p.1 == t then [p.0] else [])
  }

  /** A topic has titles exactly when some kept pair carries it. */
  lemma {:induction false} MembersEmpty(kept: seq<(Option<Value>, Option<Value>)>, t: Option<Value>)
    ensures Members(kept, t) == [] <==> t !in TopicOrder(kept)
  {
    if kept != [] {
      var init := kept[..|kept| - 1];
      MembersEmpty(init, t);
      assert kept == init + [kept[|kept| - 1]];
    }
  }

  /** The dict groups faithfully and keeps each topic's titles in pull order: the titles
      stored under a topic are exactly that topic's members, in order. */
  lemma {:induction false} GroupingMembers(kept: seq<(Option<Value>, Option<Value>)>)
    ensures forall t | t in Grouping(kept) :: Grouping(kept)[t] == Members(kept, t)
  {
    if kept != [] {
      var init := kept[..|kept| - 1];
      GroupingMembers(init);
      var t := kept[|kept| - 1].1;
      MembersEmpty(init, t);
    }
  }

  /** A write the linker makes: an index node for a topic, or a link from an article (by
      title) to a topic's index node. */
  datatype Push = PushIndex(topic: Option<Value>) | PushLink(title: Option<Value>, topic: Option<Value>)

  /** One index node per topic, in dict order. */
  function IndexPushes(order: seq<Option<Value>>): (r: seq<Push>)
    ensures |r| == |order|
    ensures forall i | 0 <= i < |order| :: r[i] == PushIndex(order[i])
  {
    seq(|order|, i requires 0 <= i < |order| => PushIndex(order[i]))
  }

  /** One link per title of topic `t`, in list order. */
  function LinkBlock(titles: seq<Option<Value>>, t: Option<Value>): (r: seq<Push>)
    ensures |r| == |titles|
    ensures forall i | 0 <= i < |titles| :: r[i] == PushLink(titles[i], t)
  {
    seq(|titles|, i requires 0 <= i < |titles| => PushLink(titles[i], t))
  }

  /** The links for the topics of `order`, topic after topic, each with the titles the dict
      holds for it. */
  function LinkPushes(groups: map<Option<Value>, seq<Option<Value>>>, order: seq<Option<Value>>)
    : (r: seq<Push>)
    requires forall t | t in order :: t in groups
    ensures forall q | q in r :: q.PushLink?
  {
    if order == [] then []
    else
      var init := order[..|order| - 1];
      var t := order[|order| - 1];
      assert forall u | u in init :: u in order;
      LinkPushes(groups, init) + LinkBlock(groups[t], t)
  }

  /** Every write of a complete run, in order: all index nodes, then all links. */
  function Pushes(kept: seq<(Option<Value>, Option<Value>)>): (r: seq<Push>)
    ensures |r| >= |TopicOrder(kept)|
    ensures forall i | 0 <= i < |TopicOrder(kept)| :: r[i] == PushIndex(TopicOrder(kept)[i])
    ensures forall i | |TopicOrder(kept)| <= i < |r| :: r[i].PushLink?
  {
    var order := TopicOrder(kept);
    var links := LinkPushes(Grouping(kept), order);
    IndexPushes(order) + links
  }

  /** The links as the kept pairs themselves, one per pair. */
  function PairLinks(kept: seq<(Option<Value>, Option<Value>)>): (r: seq<Push>)
    ensures |r| == |kept|
  {
    seq(|kept|, i requires 0 <= i < |kept| => PushLink(kept[i].0, kept[i].1))
  }

  /** Each kept pair's link occurs in the pair links as often as the pair was kept. */
  lemma {:induction false} PairCount(kept: seq<(Option<Value>, Option<Value>)>, p: (Option<Value>, Option<Value>))
    ensures multiset(PairLinks(kept))[PushLink(p.0, p.1)] == multiset(kept)[p]
  {
    if kept != [] {
      var init := kept[..|kept| - 1];
      var q := kept[|kept| - 1];
      assert kept == init + [q];
      assert PairLinks(kept) == PairLinks(init) + [PushLink(q.0, q.1)];
      PairCount(init, p);
    }
  }

  /** Links in dict order, written with each topic's members rather than the dict. */
  function MemberPushes(kept: seq<(Option<Value>, Option<Value>)>, order: seq<Option<Value>>): seq<Push>
  {
    if order == [] then []
    else
      var t := order[|order| - 1];
      MemberPushes(kept, order[..|order| - 1]) + LinkBlock(Members(kept, t), t)
  }

  lemma {:induction false} LinkPushesAreMemberPushes(kept: seq<(Option<Value>, Option<Value>)>, order: seq<Option<Value>>)
    requires forall t | t in order :: t in TopicOrder(kept)
    ensures LinkPushes(Grouping(kept), order) == MemberPushes(kept, order)
  {
    if order != [] {
      var init := order[..|order| - 1];
      assert forall u | u in init :: u in order;
      LinkPushesAreMemberPushes(kept, init);
      GroupingMembers(kept);
    }
  }

  /** One more kept pair adds its link to the block of its topic, if that topic is listed. */
  lemma {:induction false} MemberPushesExtend(kept: seq<(Option<Value>, Option<Value>)>,
                                              p: (Option<Value>, Option<Value>), order: seq<Option<Value>>)
    requires Distinct(order)
    ensures multiset(MemberPushes(kept + [p], order)) ==
      multiset(MemberPushes(kept, order)) + (if p.1 in order then multiset{PushLink(p.0, p.1)} else multiset{})
  {
    if order != [] {
      DistinctLast(order);
      MemberPushesExtend(kept, p, order[..|order| - 1]);
      ExtendStep(kept, p, order);
    }
  }

  /** The step of `MemberPushesExtend`: from the topics before the last one to all of them. */
  lemma ExtendStep(kept: seq<(Option<Value>, Option<Value>)>, p: (Option<Value>, Option<Value>), order: seq<Option<Value>>)
    requires order != []
    requires order[|order| - 1] !in order[..|order| - 1]
    requires multiset(MemberPushes(kept + [p], order[..|order| - 1])) ==
      multiset(MemberPushes(kept, order[..|order| - 1]))
      + (if p.1 in order[..|order| - 1] then multiset{PushLink(p.0, p.1)} else multiset{})
    ensures multiset(MemberPushes(kept + [p], order)) ==
      multiset(MemberPushes(kept, order)) + (if p.1 in order then multiset{PushLink(p.0, p.1)} else multiset{})
  {
    var init := order[..|order| - 1];
    var t := order[|order| - 1];
    var a, a2 := MemberPushes(kept, init), MemberPushes(kept + [p], init);
    var b := LinkBlock(Members(kept, t), t);
    var e := if p.1 == t then [PushLink(p.0, p.1)] else [];
    BlockSnoc(kept, p, t);
    assert MemberPushes(kept + [p], order) == a2 + (b + e);
    assert MemberPushes(kept, order) == a + b;
    InSnoc(order, p.1);
    var m := if p.1 in init then multiset{PushLink(p.0, p.1)} else multiset{};
    var r := if p.1 in order then multiset{PushLink(p.0, p.1)} else multiset{};
    CountStep(a, a2, b, e, m);
    if p.1 == t {
      assert m == multiset{};
      assert m + multiset(e) == r;
    } else {
      assert multiset(e) == multiset{};
      assert m + multiset(e) == r;
    }
  }

  /** Counting a log extended at two places: an extension `m` of its front part and a tail
      `e` added after its last block. */
  lemma CountStep(a: seq<Push>, a2: seq<Push>, b: seq<Push>, e: seq<Push>, m: multiset<Push>)
    requires multiset(a2) == multiset(a) + m
    ensures multiset(a2 + (b + e)) == multiset(a + b) + (m + multiset(e))
  {
  }

  /** One more kept pair adds its link to the block of its own topic only. */
  lemma BlockSnoc(kept: seq<(Option<Value>, Option<Value>)>, p: (Option<Value>, Option<Value>), t: Option<Value>)
    ensures LinkBlock(Members(kept + [p], t), t)
         == LinkBlock(Members(kept, t), t) + (if p.1 == t then [PushLink(p.0, p.1)] else [])
  {
    MembersSnoc(kept, p, t);
    if p.1 == t {
      LinkBlockSnoc(Members(kept, t), p.0, t);
    } else {
      assert Members(kept + [p], t) == Members(kept, t) + [];
    }
  }

  /** One more kept pair adds its title to the members of its own topic only. */
  lemma MembersSnoc(kept: seq<(Option<Value>, Option<Value>)>, p: (Option<Value>, Option<Value>), t: Option<Value>)
    ensures Members(kept + [p], t) == Members(kept, t) + (if p.1 == t then [p.0] else [])
  {
    assert (kept + [p])[..|kept|] == kept;
  }

  /** One more title in a block adds its link at the end. */
  lemma LinkBlockSnoc(titles: seq<Option<Value>>, x: Option<Value>, t: Option<Value>)
    ensures LinkBlock(titles + [x], t) == LinkBlock(titles, t) + [PushLink(x, t)]
  {
  }

  /** Every kept pair gets exactly one link and nothing else is linked: the links written
      are the kept pairs, each as often as it was kept. So there is one link push per kept
      title, and their number is the number of kept titles. */
  lemma {:induction false} LinksAreKeptPairs(kept: seq<(Option<Value>, Option<Value>)>)
    ensures multiset(LinkPushes(Grouping(kept), TopicOrder(kept))) == multiset(PairLinks(kept))
    ensures |LinkPushes(Grouping(kept), TopicOrder(kept))| == |kept|
  {
    LinkPushesAreMemberPushes(kept, TopicOrder(kept));
    PairsByMembers(kept);
    assert |multiset(PairLinks(kept))| == |kept|;
  }

  lemma {:induction false} PairsByMembers(kept: seq<(Option<Value>, Option<Value>)>)
    ensures multiset(MemberPushes(kept, TopicOrder(kept))) == multiset(PairLinks(kept))
  {
    if kept != [] {
      var init := kept[..|kept| - 1];
      var p := kept[|kept| - 1];
      assert kept == init + [p];
      PairsByMembers(init);
      var o := TopicOrder(init);
      MemberPushesExtend(init, p, o);
      assert PairLinks(kept) == PairLinks(init) + [PushLink(p.0, p.1)];
      if p.1 !in o {
        MembersEmpty(init, p.1);
        assert Members(kept, p.1) == [p.0];
        assert LinkBlock([p.0], p.1) == [PushLink(p.0, p.1)];
      }
    }
  }
}
