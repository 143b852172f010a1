/** The property encoder shared by both clients (`__construct_props` and the binding maps
    built around it), and the store's reading of what it produces.

    A property fragment `{k1:$ak1,k2:$ak2}` names each property and the query parameter
    holding its value; the parameter values travel separately in a bindings map. The store
    evaluates a fragment by parsing it back into (name, parameter) pairs and looking every
    parameter up in the bindings (`Resolve`); a parameter without a binding is an error. */
module PropertyEncoding {
  import opened Values
  import opened Text

  /** Aliases `push_rel`/`pull_rel` put in front of the keys of the three bags. */
  const VAlias := "v"
  const WAlias := "w"
  const EAlias := "e"

  /** One entry of a fragment: `k:$<alias>k`. */
  function Entry(k: string, alias: string): string
  {
    k + ":$" + alias + k
  }

  function Entries(names: seq<string>, alias: string): seq<string>
  {
    seq(|names|, i requires 0 <= i < |names| => Entry(names[i], alias))
  }

  /** The string `__construct_props(names, alias)` returns: the entries in input order,
      separated by single commas, inside braces. */
  function Fragment(names: seq<string>, alias: string): string
  {
    "{" + Join(Entries(names, alias), ",") + "}"
  }

  /** An alias is made of identifier characters (`''`, `'v'`, `'w'` and `'e'` are). */
  predicate IsAlias(alias: string)
  {
    forall c | c in alias :: IsNameChar(c)
  }

  predicate AllNames(names: seq<string>)
  {
    forall k | k in names :: IsName(k)
  }

  // ---------------------------------------------------------------------------------
  // How the store reads a fragment.

  /** `name:$param` as a (name, param) pair. */
  function ParseEntry(e: string): Option<(string, string)>
  {
    var i := IndexOf(e, ":");
    if i < 0 then None
    else
      var rest := e[i + 1..];
      if |rest| == 0 || rest[0] != '$' then None else Some((e[..i], rest[1..]))
  }

  function ParseEntries(es: seq<string>): Option<seq<(string, string)>>
  {
    if es == [] then Some([])
    else
      match (ParseEntry(es[0]), ParseEntries(es[1..]))
      case (Some(p), Some(ps)) => Some([p] + ps)
      case _ => None
  }

  /** The (name, parameter) pairs of a fragment, or None when it is malformed. */
  function ParseFragment(s: string): Option<seq<(string, string)>>
  {
    if |s| < 2 || s[0] != '{' || s[|s| - 1] != '}' then None
    else
      var body := s[1..|s| - 1];
      if body == "" then Some([]) else ParseEntries(Split(body, ","))
  }

  /** The property map named by (name, parameter) pairs under the given bindings;
      None when a parameter has no binding. A later pair overrides an earlier one. */
  function Bind(ps: seq<(string, string)>, bindings: map<string, Value>): Option<map<string, Value>>
  {
    if ps == [] then Some(map[])
    else
      match Bind(ps[..|ps| - 1], bindings)
      case None => None
      case Some(m) =>
        var (name, param) := ps[|ps| - 1];
        if param in bindings then Some(m[name := bindings[param]]) else None
  }

  /** The property map a fragment stands for when the query runs with `bindings`. */
  function Resolve(fragment: string, bindings: map<string, Value>): Option<map<string, Value>>
  {
    match ParseFragment(fragment)
    case None => None
    case Some(ps) => Bind(ps, bindings)
  }

  /** The (name, parameter) pairs `Fragment(names, alias)` is meant to hold. */
  function Params(names: seq<string>, alias: string): seq<(string, string)>
  {
    seq(|names|, i requires 0 <= i < |names| => (names[i], alias + names[i]))
  }

  /** The set of `$`-parameters of those pairs. */
  function ParamSet(names: seq<string>, alias: string): set<string>
  {
    set k | k in names :: alias + k
  }

  lemma ParseOneEntry(k: string, alias: string)
    requires IsName(k)
    ensures ParseEntry(Entry(k, alias)) == Some((k, alias + k))
  {
    var e := Entry(k, alias);
    var tail := "$" + alias + k;
    assert ':' !in k;
    assert e == k + [':'] + tail;
    IndexOfFirst(k, ':', tail);
    assert IndexOf(e, ":") == |k|;
    assert e[..|k|] == k;
    var rest := e[|k| + 1..];
    assert rest == tail;
    assert rest[0] == '$';
    assert rest[1..] == alias + k;
  }

  lemma {:induction false} ParseAllEntries(names: seq<string>, alias: string)
    requires AllNames(names)
    ensures ParseEntries(Entries(names, alias)) == Some(Params(names, alias))
  {
    if names != [] {
      ParseOneEntry(names[0], alias);
      assert Entries(names, alias)[1..] == Entries(names[1..], alias);
      ParseAllEntries(names[1..], alias);
      assert Params(names, alias) == [(names[0], alias + names[0])] + Params(names[1..], alias);
    }
  }

  /** Round trip: the store reads back from `Fragment(names, alias)` exactly the pairs
      `(k, alias + k)`, in input order; the empty list gives `{}` and no pairs. */
  lemma ParseFragmentRoundTrip(names: seq<string>, alias: string)
    requires AllNames(names)
    requires IsAlias(alias)
    ensures ParseFragment(Fragment(names, alias)) == Some(Params(names, alias))
  {
    var es := Entries(names, alias);
    var s := Fragment(names, alias);
    assert s[1..|s| - 1] == Join(es, ",");
    if names == [] {
      assert Params(names, alias) == [];
    } else {
      forall e | e in es
        ensures ',' !in e
      {
        var i :| 0 <= i < |names| && e == Entry(names[i], alias);
        assert names[i] in names;
      }
      assert es[0] == Entry(names[0], alias);
      assert Join(es, ",") != "" by {
        if |es| > 1 {
          assert Join(es, ",") == es[0] + "," + Join(es[1..], ",");
        }
      }
      SplitJoin(es, ',');
      ParseAllEntries(names, alias);
    }
  }

  lemma {:induction false} BindParams(names: seq<string>, alias: string, bindings: map<string, Value>)
    requires forall k | k in names :: alias + k in bindings
    ensures Bind(Params(names, alias), bindings).Some?
    ensures Bind(Params(names, alias), bindings).value.Keys == set k | k in names
    ensures forall k | k in names :: Bind(Params(names, alias), bindings).value[k] == bindings[alias + k]
  {
    if names != [] {
      var init := names[..|names| - 1];
      var last := names[|names| - 1];
      assert Params(names, alias)[..|names| - 1] == Params(init, alias);
      BindParams(init, alias, bindings);
      assert (set k | k in names) == (set k | k in init) + {last};
      forall k | k in names
        ensures Bind(Params(names, alias), bindings).value[k] == bindings[alias + k]
      {
        if k != last {
          assert k in init;
        }
      }
    }
  }

  /** Every parameter of a fragment the client builds finds its binding: with bindings
      covering `alias + k` for each name `k`, the fragment resolves to the map from each
      name to the value bound to its parameter. */
  lemma ResolveFragment(names: seq<string>, alias: string, bindings: map<string, Value>)
    requires AllNames(names)
    requires IsAlias(alias)
    requires forall k | k in names :: alias + k in bindings
    ensures Resolve(Fragment(names, alias), bindings).Some?
    ensures Resolve(Fragment(names, alias), bindings).value.Keys == set k | k in names
    ensures forall k | k in names :: Resolve(Fragment(names, alias), bindings).value[k] == bindings[alias + k]
  {
    ParseFragmentRoundTrip(names, alias);
    BindParams(names, alias, bindings);
  }

  /** With no names the fragment is exactly `{}`. */
  lemma EmptyFragment(alias: string)
    ensures Fragment([], alias) == "{}"
  {
  }

  // ---------------------------------------------------------------------------------
  // Bindings.

  /** The items of `b` with `alias` put in front of every key. */
  function Prefixed(b: Bag, alias: string): Bag
  {
    seq(|b|, i requires 0 <= i < |b| => (alias + b[i].0, b[i].1))
  }

  /** `{alias + k: v for k, v in b.items()}`. */
  function Aliased(b: Bag, alias: string): map<string, Value>
  {
    ToMap(Prefixed(b, alias))
  }

  /** The aliased map holds one entry per item of `b`, under `alias + k`, with `b`'s value. */
  lemma AliasedLookup(b: Bag, alias: string)
    requires DistinctKeys(b)
    ensures Aliased(b, alias).Keys == ParamSet(Keys(b), alias)
    ensures forall i :: 0 <= i < |b| ==> Aliased(b, alias)[alias + b[i].0] == b[i].1
    ensures |Aliased(b, alias)| == |b|
  {
    var p := Prefixed(b, alias);
    PrefixedDistinct(b, alias);
    ToMapLookup(p);
    PrefixedKeys(b, alias);
    forall i | 0 <= i < |b|
      ensures Aliased(b, alias)[alias + b[i].0] == b[i].1
    {
      assert p[i] == (alias + b[i].0, b[i].1);
    }
  }

  lemma PrefixedDistinct(b: Bag, alias: string)
    requires DistinctKeys(b)
    ensures DistinctKeys(Prefixed(b, alias))
  {
    var p := Prefixed(b, alias);
    forall i, j | 0 <= i < j < |p|
      ensures p[i].0 != p[j].0
    {
      PrefixInjective(alias, b[i].0, b[j].0);
    }
  }

  lemma PrefixInjective(alias: string, x: string, y: string)
    requires x != y
    ensures alias + x != alias + y
  {
    assert x == (alias + x)[|alias|..];
    assert y == (alias + y)[|alias|..];
  }

  lemma PrefixedKeys(b: Bag, alias: string)
    ensures KeySet(Prefixed(b, alias)) == ParamSet(Keys(b), alias)
  {
    var p := Prefixed(b, alias);
    forall x | x in ParamSet(Keys(b), alias)
      ensures x in KeySet(p)
    {
      var k :| k in Keys(b) && x == alias + k;
      var i :| 0 <= i < |b| && Keys(b)[i] == k;
      assert p[i].0 == x;
    }
    forall x | x in KeySet(p)
      ensures x in ParamSet(Keys(b), alias)
    {
      var i :| 0 <= i < |p| && p[i].0 == x;
      assert Keys(b)[i] in Keys(b);
    }
  }

  /** Every key of an aliased map starts with the alias. */
  lemma AliasedKeysStartWith(b: Bag, alias: string, x: string)
    requires x in Aliased(b, alias)
    ensures |x| >= |alias| && x[..|alias|] == alias
  {
    var p := Prefixed(b, alias);
    assert x in KeySet(p);
    var i :| 0 <= i < |p| && p[i].0 == x;
    assert x == alias + b[i].0;
  }

  /** The bindings `push_rel` and `pull_rel` send: `{**v, **w, **e}` over the aliased maps. */
  function RelBindings(v: Bag, w: Bag, e: Bag): map<string, Value>
  {
    Aliased(v, VAlias) + Aliased(w, WAlias) + Aliased(e, EAlias)
  }

  /** Aliases with different first characters give key sets that cannot meet. */
  lemma AliasedDisjoint(b: Bag, a1: string, c: Bag, a2: string)
    requires |a1| == 1 && |a2| == 1 && a1 != a2
    ensures Aliased(b, a1).Keys !! Aliased(c, a2).Keys
  {
    forall x | x in Aliased(b, a1) && x in Aliased(c, a2)
      ensures false
    {
      AliasedKeysStartWith(b, a1, x);
      AliasedKeysStartWith(c, a2, x);
    }
  }

  /** Keys of two disjoint maps add up. */
  lemma DisjointUnionSize(m1: map<string, Value>, m2: map<string, Value>)
    requires m1.Keys !! m2.Keys
    ensures |m1 + m2| == |m1| + |m2|
  {
    assert (m1 + m2).Keys == m1.Keys + m2.Keys;
  }

  /** A key under one alias is missing from an aliased map under another one-character alias. */
  lemma NotAliasedUnder(b: Bag, a1: string, k: string, c: Bag, a2: string)
    requires |a1| == 1 && |a2| == 1 && a1 != a2
    requires k in Aliased(b, a1)
    ensures k !in Aliased(c, a2)
  {
    AliasedDisjoint(b, a1, c, a2);
  }

  /** The merged size: three disjoint maps. */
  lemma RelBindingsSize(v: Bag, w: Bag, e: Bag)
    requires DistinctKeys(v) && DistinctKeys(w) && DistinctKeys(e)
    ensures |RelBindings(v, w, e)| == |v| + |w| + |e|
  {
    var av, aw, ae := Aliased(v, VAlias), Aliased(w, WAlias), Aliased(e, EAlias);
    AliasedLookup(v, VAlias);
    AliasedLookup(w, WAlias);
    AliasedLookup(e, EAlias);
    AliasedDisjoint(v, VAlias, w, WAlias);
    DisjointUnionSize(av, aw);
    assert (av + aw).Keys !! ae.Keys by {
      AliasedDisjoint(v, VAlias, e, EAlias);
      AliasedDisjoint(w, WAlias, e, EAlias);
    }
    DisjointUnionSize(av + aw, ae);
  }

  /** No collision when merging the three aliased maps: even when all three bags use the same
      key (`title`, say), each bag's values survive under its own alias. */
  lemma RelBindingsNoCollision(v: Bag, w: Bag, e: Bag)
    requires DistinctKeys(v) && DistinctKeys(w) && DistinctKeys(e)
    ensures forall i :: 0 <= i < |v| ==>
      VAlias + v[i].0 in RelBindings(v, w, e) && RelBindings(v, w, e)[VAlias + v[i].0] == v[i].1
    ensures forall i :: 0 <= i < |w| ==>
      WAlias + w[i].0 in RelBindings(v, w, e) && RelBindings(v, w, e)[WAlias + w[i].0] == w[i].1
    ensures forall i :: 0 <= i < |e| ==>
      EAlias + e[i].0 in RelBindings(v, w, e) && RelBindings(v, w, e)[EAlias + e[i].0] == e[i].1
  {
    var av, aw, ae := Aliased(v, VAlias), Aliased(w, WAlias), Aliased(e, EAlias);
    AliasedEntries(v, VAlias);
    AliasedEntries(w, WAlias);
    AliasedEntries(e, EAlias);
    AliasedDisjoint(v, VAlias, w, WAlias);
    AliasedDisjoint(v, VAlias, e, EAlias);
    AliasedDisjoint(w, WAlias, e, EAlias);
    UnionKeeps(av, aw);
    assert (av + aw).Keys == av.Keys + aw.Keys;
    UnionKeeps(av + aw, ae);
  }

  /** Every item of `b` is in the aliased map, under its aliased key, with its value. */
  lemma AliasedEntries(b: Bag, alias: string)
    requires DistinctKeys(b)
    ensures forall i | 0 <= i < |b| ::
      alias + b[i].0 in Aliased(b, alias) && Aliased(b, alias)[alias + b[i].0] == b[i].1
  {
    var p := Prefixed(b, alias);
    PrefixedDistinct(b, alias);
    ToMapFinds(p);
    forall i | 0 <= i < |b|
      ensures alias + b[i].0 in Aliased(b, alias) && Aliased(b, alias)[alias + b[i].0] == b[i].1
    {
      assert p[i] == (alias + b[i].0, b[i].1);
      assert p[i].0 in KeySet(p);
    }
  }

  /** Merging a map with one of disjoint keys keeps every entry of the first. */
  lemma UnionKeeps(m: map<string, Value>, n: map<string, Value>)
    requires m.Keys !! n.Keys
    ensures forall k | k in m :: k in m + n && (m + n)[k] == m[k]
  {
  }

  /** The names of a bag as a set are its key set. */
  lemma KeysAsSet(b: Bag)
    ensures (set k | k in Keys(b)) == KeySet(b)
  {
    var names := Keys(b);
    forall k | k in KeySet(b)
      ensures k in names
    {
      var i :| 0 <= i < |b| && b[i].0 == k;
      assert names[i] == k;
    }
  }

  /** A map with a bag's keys and a bag's values is the bag's map. */
  lemma BagMap(b: Bag, r: map<string, Value>)
    requires DistinctKeys(b)
    requires r.Keys == KeySet(b)
    requires forall i :: 0 <= i < |b| ==> r[b[i].0] == b[i].1
    ensures r == ToMap(b)
  {
    ToMapLookup(b);
    forall k | k in r
      ensures r[k] == ToMap(b)[k]
    {
      var i :| 0 <= i < |b| && b[i].0 == k;
    }
  }

  /** A bag's fragment resolves back to the bag when every aliased key is bound to the
      bag's value. */
  lemma ResolveBag(b: Bag, alias: string, bindings: map<string, Value>)
    requires ValidBag(b)
    requires IsAlias(alias)
    requires forall i :: 0 <= i < |b| ==> alias + b[i].0 in bindings && bindings[alias + b[i].0] == b[i].1
    ensures Resolve(Fragment(Keys(b), alias), bindings) == Some(ToMap(b))
  {
    var names := Keys(b);
    forall k | k in names
      ensures IsName(k) && alias + k in bindings
    {
      var i :| 0 <= i < |names| && names[i] == k;
    }
    ResolveFragment(names, alias, bindings);
    var r := Resolve(Fragment(names, alias), bindings).value;
    KeysAsSet(b);
    forall i | 0 <= i < |b|
      ensures r[b[i].0] == b[i].1
    {
      assert names[i] in names;
    }
    BagMap(b, r);
  }

  /** Every `$`-parameter in a `push_rel`/`pull_rel` query has a binding, and every binding
      is used: the parameters of the three fragments together are exactly the keys of the
      merged bindings, and each fragment resolves to the bag it was built from. */
  lemma RelQueryBindings(v: Bag, w: Bag, e: Bag)
    requires ValidBag(v) && ValidBag(w) && ValidBag(e)
    ensures ParamSet(Keys(v), VAlias) + ParamSet(Keys(w), WAlias) + ParamSet(Keys(e), EAlias)
            == RelBindings(v, w, e).Keys
    ensures Resolve(Fragment(Keys(v), VAlias), RelBindings(v, w, e)) == Some(ToMap(v))
    ensures Resolve(Fragment(Keys(w), WAlias), RelBindings(v, w, e)) == Some(ToMap(w))
    ensures Resolve(Fragment(Keys(e), EAlias), RelBindings(v, w, e)) == Some(ToMap(e))
  {
    RelParams(v, w, e);
    RelBindingsNoCollision(v, w, e);
    ResolveBag(v, VAlias, RelBindings(v, w, e));
    ResolveBag(w, WAlias, RelBindings(v, w, e));
    ResolveBag(e, EAlias, RelBindings(v, w, e));
  }

  lemma RelParams(v: Bag, w: Bag, e: Bag)
    requires DistinctKeys(v) && DistinctKeys(w) && DistinctKeys(e)
    ensures ParamSet(Keys(v), VAlias) + ParamSet(Keys(w), WAlias) + ParamSet(Keys(e), EAlias)
            == RelBindings(v, w, e).Keys
  {
    AliasedLookup(v, VAlias);
    AliasedLookup(w, WAlias);
    AliasedLookup(e, EAlias);
  }

  /** With alias `''` the bindings are the props unchanged, so `push_node`'s fragment
      resolves to its props; the parameters are exactly the props' keys. */
  lemma NodeQueryBindings(b: Bag)
    requires ValidBag(b)
    ensures ParamSet(Keys(b), "") == ToMap(b).Keys
    ensures Resolve(Fragment(Keys(b), ""), ToMap(b)) == Some(ToMap(b))
  {
    var names := Keys(b);
    assert forall k: string :: "" + k == k;
    assert ParamSet(names, "") == set k | k in names;
    KeysAsSet(b);
    ToMapLookup(b);
    ResolveBag(b, "", ToMap(b));
  }
}
