/** Property values and property bags as the graph core passes them around. */
module Values {

  /** A property value: a string, a list of strings (an article's `links`), or the float
      constant 1.0 that the topic linker stores as `confidence`. No arithmetic is ever done
      on the float, so it is one opaque constant here. */
  datatype Value = Str(s: string) | StrList(items: seq<string>) | FloatOne

  /** A Python dict of properties, as its items in insertion order. */
  type Bag = seq<(string, Value)>

  /** `d.keys()`, in insertion order. */
  function Keys(b: Bag): (ks: seq<string>)
    ensures |ks| == |b|
    ensures forall i :: 0 <= i < |b| ==> ks[i] == b[i].0
  {
    seq(|b|, i requires 0 <= i < |b| => b[i].0)
  }

  /** The keys of a bag as a set. */
  function KeySet(b: Bag): set<string>
  {
    set i | 0 <= i < |b| :: b[i].0
  }

  /** A dict never repeats a key. */
  predicate DistinctKeys(b: Bag)
  {
    forall i, j :: 0 <= i < j < |b| ==> b[i].0 != b[j].0
  }

  /** `dict(items)`: the map a list of items builds, a later item overwriting an earlier one. */
  function ToMap(b: Bag): (m: map<string, Value>)
    ensures m.Keys == KeySet(b)
  {
    if b == [] then map[]
    else
      var m := ToMap(b[..|b| - 1]);
      assert KeySet(b) == KeySet(b[..|b| - 1]) + {b[|b| - 1].0};
      m[b[|b| - 1].0 := b[|b| - 1].1]
  }

  /** With distinct keys, every item is found in the map and no item is lost. */
  lemma ToMapLookup(b: Bag)
    requires DistinctKeys(b)
    ensures forall i :: 0 <= i < |b| ==> ToMap(b)[b[i].0] == b[i].1
    ensures |ToMap(b)| == |b|
  {
    ToMapFinds(b);
    ToMapSize(b);
  }

  /** With distinct keys, every item is found in the map. */
  lemma ToMapFinds(b: Bag)
    requires DistinctKeys(b)
    ensures forall i :: 0 <= i < |b| ==> ToMap(b)[b[i].0] == b[i].1
  {
    forall i | 0 <= i < |b|
      ensures ToMap(b)[b[i].0] == b[i].1
    {
      ToMapAt(b, i);
    }
  }

  /** With distinct keys, item `i` is found in the map. */
  lemma {:induction false} ToMapAt(b: Bag, i: nat)
    requires DistinctKeys(b) && i < |b|
    ensures ToMap(b)[b[i].0] == b[i].1
  {
    var n := |b| - 1;
    ToMapSnoc(b);
    if i < n {
      var init := b[..n];
      LastKeyNew(b);
      assert init[i] == b[i];
      ToMapAt(init, i);
    }
  }

  /** With distinct keys, the map has one entry per item. */
  lemma {:induction false} ToMapSize(b: Bag)
    requires DistinctKeys(b)
    ensures |ToMap(b)| == |b|
  {
    if b != [] {
      var n := |b| - 1;
      LastKeyNew(b);
      ToMapSize(b[..n]);
      ToMapSnoc(b);
    }
  }

  /** The map of a non-empty bag is the map of all but its last item, with the last item
      added. */
  lemma ToMapSnoc(b: Bag)
    requires b != []
    ensures ToMap(b) == ToMap(b[..|b| - 1])[b[|b| - 1].0 := b[|b| - 1].1]
  {
  }

  /** With distinct keys, the last item's key is new to the items before it. */
  lemma LastKeyNew(b: Bag)
    requires DistinctKeys(b) && b != []
    ensures DistinctKeys(b[..|b| - 1])
    ensures b[|b| - 1].0 !in ToMap(b[..|b| - 1])
  {
    var n := |b| - 1;
    forall j | 0 <= j < n
      ensures b[..n][j].0 != b[n].0
    {
      assert b[..n][j] == b[j];
    }
  }

  /** Characters allowed in a property name (a Cypher identifier). */
  predicate IsNameChar(c: char)
  {
    ('a' <= c <= 'z') || ('A' <= c <= 'Z') || ('0' <= c <= '9') || c == '_'
  }

  /** A property name: labels and property names are written into the query text
      unescaped, so they are trusted to be identifiers. */
  predicate IsName(k: string)
  {
    |k| > 0 && forall c | c in k :: IsNameChar(c)
  }

  /** A props dict the client can send: distinct keys, each a property name. */
  predicate ValidBag(b: Bag)
  {
    DistinctKeys(b) && forall i | 0 <= i < |b| :: IsName(b[i].0)
  }

  /** `d.get(k)`: None when the key is missing, as Cypher's `n.k` is null then. */
  function Get(m: map<string, Value>, k: string): (r: Option<Value>)
    ensures r.Some? <==> k in m
    ensures r.Some? ==> r.value == m[k]
  {
    if k in m then Some(m[k]) else None
  }

  datatype Option<+T> = None | Some(value: T)

  /** Python can use the value as a dict key or set element: anything but a list. */
  predicate Hashable(v: Option<Value>)
  {
    !(v.Some? && v.value.StrList?)
  }

  /** A one-item props dict is the one-entry map. */
  lemma SingletonMap(k: string, x: Value)
    ensures ToMap([(k, x)]) == map[k := x]
  {
    assert [(k, x)][..0] == [];
  }
}
