/** Python string operations the core relies on, with Python's semantics:
    `pat in s` for substrings, `s.replace(pat, '')`, `s.split(sep)` and `sep.join(parts)`. */
module Text {

  /** `pat` occurs in `s` starting at index `j`. */
  predicate OccursAt(s: string, pat: string, j: int)
  {
    0 <= j && j + |pat| <= |s| && s[j..j + |pat|] == pat
  }

  /** Index of the leftmost occurrence of `pat` in `s` that starts at or after `from`, or -1. */
  function IndexFrom(s: string, pat: string, from: nat): (r: int)
    requires from <= |s|
    decreases |s| - from
    ensures r == -1 || (from <= r && OccursAt(s, pat, r))
    ensures r == -1 ==> forall j :: from <= j ==> !OccursAt(s, pat, j)
    ensures r >= 0 ==> forall j :: from <= j < r ==> !OccursAt(s, pat, j)
  {
    if from + |pat| > |s| then -1
    else if s[from..from + |pat|] == pat then from
    else IndexFrom(s, pat, from + 1)
  }

  /** Python's `s.find(pat)`. */
  function IndexOf(s: string, pat: string): int
  {
    IndexFrom(s, pat, 0)
  }

  /** Python's `pat in s` on strings. */
  predicate Contains(s: string, pat: string)
  {
    IndexOf(s, pat) >= 0
  }

  /** Python's `s.replace(pat, '')`: every non-overlapping occurrence, scanned left to right,
      is removed. The result only keeps characters of `s`, and a one-character pattern
      leaves no occurrence of that character behind. */
  function RemoveAll(s: string, pat: string): (r: string)
    requires |pat| > 0
    decreases |s|
    ensures |r| <= |s|
    ensures forall c :: c in r ==> c in s
    ensures |pat| == 1 ==> pat[0] !in r
  {
    if |s| < |pat| then
      assert |pat| == 1 ==> s == [];
      s
    else if s[..|pat|] == pat then RemoveAll(s[|pat|..], pat)
    else
      var rest := RemoveAll(s[1..], pat);
      assert forall c :: c in rest ==> c in s;
      [s[0]] + rest
  }

  /** Python's `s.split(sep)` for a non-empty separator: the pieces between the
      leftmost non-overlapping occurrences of `sep`. There is always at least one piece. */
  function Split(s: string, sep: string): (parts: seq<string>)
    requires |sep| > 0
    decreases |s|
    ensures |parts| >= 1
  {
    var i := IndexOf(s, sep);
    if i < 0 then [s] else [s[..i]] + Split(s[i + |sep|..], sep)
  }

  /** Python's `sep.join(parts)`. */
  function Join(parts: seq<string>, sep: string): string
  {
    if |parts| == 0 then ""
    else if |parts| == 1 then parts[0]
    else parts[0] + sep + Join(parts[1..], sep)
  }

  /** Joining one more part puts exactly one separator before it. */
  lemma {:induction false} JoinAppend(parts: seq<string>, x: string, sep: string)
    requires |parts| > 0
    ensures Join(parts + [x], sep) == Join(parts, sep) + sep + x
  {
    if |parts| > 1 {
      assert (parts + [x])[1..] == parts[1..] + [x];
      JoinAppend(parts[1..], x, sep);
    }
  }

  /** Joining what `split` produced restores the string. */
  lemma {:induction false} JoinSplit(s: string, sep: string)
    requires |sep| > 0
    ensures Join(Split(s, sep), sep) == s
    decreases |s|
  {
    var i := IndexOf(s, sep);
    if i >= 0 {
      var rest := s[i + |sep|..];
      var parts := Split(rest, sep);
      JoinSplit(rest, sep);
      JoinCons(s[..i], parts, sep);
      assert s[i..i + |sep|] == sep;
      Around(s, i, i + |sep|);
    }
  }

  /** Joining a part in front of at least one other puts one separator between them. */
  lemma JoinCons(x: string, parts: seq<string>, sep: string)
    requires |parts| >= 1
    ensures Join([x] + parts, sep) == x + sep + Join(parts, sep)
  {
    assert ([x] + parts)[1..] == parts;
  }

  /** A string is its part before `i`, its part from `i` to `j`, and its part from `j`. */
  lemma Around(s: string, i: nat, j: nat)
    requires i <= j <= |s|
    ensures s == s[..i] + s[i..j] + s[j..]
  {
  }

  /** A string without `c` has no occurrence of `[c]`. */
  lemma IndexOfAbsent(s: string, c: char)
    requires c !in s
    ensures IndexOf(s, [c]) == -1
  {
    forall j | 0 <= j < |s|
      ensures !OccursAt(s, [c], j)
    {
      assert s[j..j + 1] == [s[j]];
    }
  }

  /** The first `c` in `x + [c] + y` is the one right after `x` when `x` has none. */
  lemma IndexOfFirst(x: string, c: char, y: string)
    requires c !in x
    ensures IndexOf(x + [c] + y, [c]) == |x|
  {
    var s := x + [c] + y;
    var r := IndexOf(s, [c]);
    assert OccursAt(s, [c], |x|) by {
      assert s[|x|..|x| + 1] == [c];
    }
    forall j | 0 <= j < |x|
      ensures !OccursAt(s, [c], j)
    {
      assert s[j..j + 1] == [x[j]];
    }
  }

  /** Splitting on a one-character separator undoes joining pieces that do not contain it. */
  lemma {:induction false} SplitJoin(parts: seq<string>, c: char)
    requires |parts| >= 1
    requires forall p | p in parts :: c !in p
    ensures Split(Join(parts, [c]), [c]) == parts
  {
    if |parts| == 1 {
      IndexOfAbsent(parts[0], c);
    } else {
      var rest := Join(parts[1..], [c]);
      var s := parts[0] + [c] + rest;
      assert Join(parts, [c]) == s;
      IndexOfFirst(parts[0], c, rest);
      assert s[..|parts[0]|] == parts[0];
      assert s[|parts[0]| + 1..] == rest;
      SplitJoin(parts[1..], c);
      assert parts == [parts[0]] + parts[1..];
    }
  }

  /** Removing a character that does not occur leaves the string as it was. */
  lemma {:induction false} RemoveAbsent(s: string, c: char)
    requires c !in s
    ensures RemoveAll(s, [c]) == s
  {
    if s != [] {
      RemoveAbsent(s[1..], c);
    }
  }

  /** A pattern that does not occur is not removed: `s.replace(pat, '')` is `s`. */
  lemma {:induction false} RemoveNone(s: string, pat: string)
    requires |pat| > 0
    requires forall j :: !OccursAt(s, pat, j)
    ensures RemoveAll(s, pat) == s
  {
    if |s| >= |pat| {
      assert !OccursAt(s, pat, 0);
      forall j
        ensures !OccursAt(s[1..], pat, j)
      {
        assert !OccursAt(s, pat, j + 1);
        if 0 <= j && j + |pat| <= |s| - 1 {
          assert s[j + 1..j + 1 + |pat|] == s[1..][j..j + |pat|];
        }
      }
      RemoveNone(s[1..], pat);
      assert s == [s[0]] + s[1..];
    }
  }

  /** Removing a character that occurs once takes out that occurrence only. */
  lemma {:induction false} RemoveOnce(a: string, c: char, b: string)
    requires c !in a && c !in b
    ensures RemoveAll(a + [c] + b, [c]) == a + b
  {
    RemoveCharAppend(a + [c], b, c);
    RemoveCharAppend(a, [c], c);
    assert [c][..1] == [c] && [c][1..] == [];
    assert RemoveAll([c], [c]) == [];
    RemoveAbsent(a, c);
    RemoveAbsent(b, c);
    assert a + [] == a;
  }

  /** Removing a character that only leads the string takes out that one. */
  lemma RemoveFirst(b: string, c: char)
    requires c !in b
    ensures RemoveAll([c] + b, [c]) == b
  {
    assert ([c] + b)[..1] == [c] && ([c] + b)[1..] == b;
    RemoveAbsent(b, c);
  }

  /** Removing a character that only ends the string takes out that one. */
  lemma RemoveLast(a: string, c: char)
    requires c !in a
    ensures RemoveAll(a + [c], [c]) == a
  {
    RemoveOnce(a, c, []);
    assert a + [c] + [] == a + [c] && a + [] == a;
  }

  /** A leading character the pattern does not start with stays in front. */
  lemma RemoveSkip(c: char, b: string, pat: string)
    requires |pat| > 0 && pat[0] != c
    ensures RemoveAll([c] + b, pat) == [c] + RemoveAll(b, pat)
  {
    var s := [c] + b;
    assert s[1..] == b;
    if |s| >= |pat| {
      assert s[..|pat|][0] == c;
    }
  }

  /** A leading occurrence of the pattern is removed. */
  lemma RemoveLead(pat: string, b: string)
    requires |pat| > 0
    ensures RemoveAll(pat + b, pat) == RemoveAll(b, pat)
  {
    assert (pat + b)[..|pat|] == pat && (pat + b)[|pat|..] == b;
  }

  /** Removing a character works piece by piece. */
  lemma {:induction false} RemoveCharAppend(s: string, t: string, c: char)
    ensures RemoveAll(s + t, [c]) == RemoveAll(s, [c]) + RemoveAll(t, [c])
  {
    if s == [] {
      assert s + t == t;
    } else {
      assert (s + t)[1..] == s[1..] + t;
      assert (s + t)[..1] == s[..1] == [s[0]];
      RemoveCharAppend(s[1..], t, c);
    }
  }
}
