/** `load_articles`: reads a file of topic headers and article-name rows and yields, for each
    name row, the names on it together with the topic of the header above it. The file's
    rows (each still ending in its newline, the last one perhaps not) are the input; the
    generator's output is the sequence of `ArticleList`s it yields. */
module Articles {
  import opened Text

  /** One name row: the topic in force and the names the row lists. */
  datatype ArticleList = ArticleList(topic: string, names: seq<string>)

  /** The pieces of header formatting removed from a topic row, in the order they go. */
  const Markers: seq<string> := ["TOPIC", "[", "]", "=", " ", "\n"]

  /** A dropped row: one holding `#` anywhere, or one with nothing but blanks and newlines. */
  predicate Dropped(row: string)
  {
    '#' in row || RemoveAll(RemoveAll(row, " "), "\n") == ""
  }

  /** A topic header: a row that is not dropped and contains `TOPIC`. */
  predicate Header(row: string)
  {
    !Dropped(row) && Contains(row, "TOPIC")
  }

  /** `s` with every marker in `ms` removed, one marker after another. */
  function Strip(s: string, ms: seq<string>): (r: string)
    requires forall m | m in ms :: |m| > 0
    ensures forall c | c in r :: c in s
    ensures forall i | 0 <= i < |ms| && |ms[i]| == 1 :: ms[i][0] !in r
  {
    if ms == [] then s
    else
      var init := ms[..|ms| - 1];
      assert forall m | m in init :: m in ms;
      RemoveAll(Strip(s, init), ms[|ms| - 1])
  }

  /** The topic a header names: the row without its formatting. It holds no bracket, no
      `=`, no blank and no newline. */
  function TopicName(row: string): (t: string)
    ensures '[' !in t && ']' !in t && '=' !in t && ' ' !in t && '\n' !in t
  {
    assert Markers[1][0] == '[' && Markers[2][0] == ']' && Markers[3][0] == '=';
    assert Markers[4][0] == ' ' && Markers[5][0] == '\n';
    Strip(row, Markers)
  }

  /** The documented header `[TOPIC=name]` on a row of its own gives back `name`, when the
      name holds none of the stripped characters and no `TOPIC` of its own. */
  lemma HeaderName(x: string)
    requires '[' !in x && ']' !in x && '=' !in x && ' ' !in x && '\n' !in x
    requires !Contains(x, "TOPIC")
    ensures TopicName("[TOPIC=" + x + "]\n") == x
  {
    var h := "[TOPIC=" + x + "]\n";
    HeaderKeyword(x);
    HeaderPunctuation(x);
    StripMarkers(h);
  }

  /** The clean-up loop removes `TOPIC`, the brackets, `=`, blanks and newlines, in that
      order. */
  lemma StripMarkers(row: string)
    ensures TopicName(row)
         == RemoveAll(RemoveAll(RemoveAll(RemoveAll(RemoveAll(RemoveAll(row, "TOPIC"), "["), "]"), "="), " "), "\n")
  {
    assert Markers[..6] == Markers;
    StripLastThree(row);
    StripFirstThree(row);
  }

  /** The first three markers: `TOPIC` and the brackets. */
  lemma StripFirstThree(row: string)
    ensures Strip(row, Markers[..3]) == RemoveAll(RemoveAll(RemoveAll(row, "TOPIC"), "["), "]")
  {
    assert Markers[..0] == [];
    StripAt(row, Markers, 0);
    StripAt(row, Markers, 1);
    StripAt(row, Markers, 2);
  }

  /** The last three markers: `=`, blanks and newlines. */
  lemma StripLastThree(row: string)
    ensures Strip(row, Markers[..6]) == RemoveAll(RemoveAll(RemoveAll(Strip(row, Markers[..3]), "="), " "), "\n")
  {
    StripAt(row, Markers, 5);
    StripAt(row, Markers, 4);
    StripAt(row, Markers, 3);
  }

  /** Stripping one more marker removes it from what the ones before it left. */
  lemma StripAt(s: string, ms: seq<string>, k: nat)
    requires forall m | m in ms :: |m| > 0
    requires k < |ms|
    ensures forall m | m in ms[..k] :: |m| > 0
    ensures Strip(s, ms[..k + 1]) == RemoveAll(Strip(s, ms[..k]), ms[k])
  {
    assert ms[..k + 1][..k] == ms[..k];
  }

  /** Removing `TOPIC` from a header takes out the keyword and nothing of the name. */
  lemma HeaderKeyword(x: string)
    requires !Contains(x, "TOPIC")
    ensures RemoveAll("[TOPIC=" + x + "]\n", "TOPIC") == "[=" + x + "]\n"
  {
    var tail := x + "]\n";
    KeywordNotAfter(x);
    RemoveNone(tail, "TOPIC");
    RemoveSkip('=', tail, "TOPIC");
    RemoveLead("TOPIC", ['='] + tail);
    RemoveSkip('[', "TOPIC" + (['='] + tail), "TOPIC");
    HeaderShape(x);
  }

  /** The header, regrouped around its keyword. */
  lemma HeaderShape(x: string)
    ensures "[TOPIC=" + x + "]\n" == ['['] + ("TOPIC" + (['='] + (x + "]\n")))
    ensures ['['] + (['='] + (x + "]\n")) == "[=" + x + "]\n"
  {
  }

  /** A name without `TOPIC` still has none once the closing bracket and newline follow it. */
  lemma KeywordNotAfter(x: string)
    requires !Contains(x, "TOPIC")
    ensures forall j :: !OccursAt(x + "]\n", "TOPIC", j)
  {
    var tail := x + "]\n";
    forall j
      ensures !OccursAt(tail, "TOPIC", j)
    {
      if 0 <= j && j + 5 <= |x| {
        assert tail[j..j + 5] == x[j..j + 5];
        assert !OccursAt(x, "TOPIC", j);
      } else if 0 <= j && j + 5 <= |tail| {
        assert tail[j..j + 5][|x| - j] == ']';
      }
    }
  }

  /** The brackets, the `=`, blanks and the newline then go one after another, leaving the
      name. */
  lemma HeaderPunctuation(x: string)
    requires '[' !in x && ']' !in x && '=' !in x && ' ' !in x && '\n' !in x
    ensures var s2 := RemoveAll("[=" + x + "]\n", "[");
            var s3 := RemoveAll(s2, "]");
            RemoveAll(RemoveAll(RemoveAll(s3, "="), " "), "\n") == x
  {
    PunctuationShape(x);
    FrameOpen(x, '[', '=', ']', '\n');
    FrameClose(x, '=', '\n', ' ');
  }

  /** The header without its keyword, regrouped for the removals that follow. */
  lemma PunctuationShape(x: string)
    ensures "[=" + x + "]\n" == ['['] + (['='] + x + [']'] + ['\n'])
    ensures ['='] + x + ['\n'] == ['='] + (x + ['\n'])
  {
  }

  /** Removing the opening character of `[o, q] + x + [c, n]`, then the closing one, leaves
      `[q] + x + [n]`. */
  lemma FrameOpen(x: string, o: char, q: char, c: char, n: char)
    requires o !in x && c !in x
    requires o != q && o != c && o != n && c != q && c != n
    ensures RemoveAll(RemoveAll([o] + ([q] + x + [c] + [n]), [o]), [c]) == [q] + x + [n]
  {
    RemoveFirst([q] + x + [c] + [n], o);
    RemoveOnce([q] + x, c, [n]);
  }

  /** Removing the leading separator of `[q] + x + [n]`, then a character absent from it,
      then the final one, leaves `x`. */
  lemma FrameClose(x: string, q: char, n: char, b: char)
    requires q !in x && n !in x && b !in x
    requires q != n && b != n
    ensures RemoveAll(RemoveAll(RemoveAll([q] + (x + [n]), [q]), [b]), [n]) == x
  {
    RemoveFirst(x + [n], q);
    RemoveAbsent(x + [n], b);
    RemoveLast(x, n);
  }

  /** The topic in force after `rows`, starting from topic `t`: the name of the last header,
      or `t` when there is none. */
  function TopicAfter(rows: seq<string>, t: string): string
  {
    if rows == [] then t
    else
      var row := rows[|rows| - 1];
      if Header(row) then TopicName(row) else TopicAfter(rows[..|rows| - 1], t)
  }

  /** What one row yields under topic `t`: nothing for a dropped row or a header, otherwise
      the row without newlines split on the delimiter. */
  function Yield(row: string, t: string, delimiter: string): seq<ArticleList>
    requires |delimiter| > 0
  {
    if Dropped(row) || Contains(row, "TOPIC") then []
    else [ArticleList(t, Split(RemoveAll(row, "\n"), delimiter))]
  }

  /** Everything yielded for `rows` when the topic in force at the start is `t`. */
  function Parse(rows: seq<string>, t: string, delimiter: string): seq<ArticleList>
    requires |delimiter| > 0
  {
    if rows == [] then []
    else
      var init := rows[..|rows| - 1];
      Parse(init, t, delimiter) + Yield(rows[|rows| - 1], TopicAfter(init, t), delimiter)
  }

  /** The generator, run to the end. The topic starts as the empty string; each header
      replaces it by its name, cleaned marker by marker. A string delimiter that is empty
      would make Python's `split` raise, so the caller supplies a non-empty one. */
  method LoadArticles(rows: seq<string>, delimiter: string) returns (res: seq<ArticleList>)
    requires |delimiter| > 0
    ensures res == Parse(rows, "", delimiter)
  {
    res := [];
    var current := "";
    for i := 0 to |rows|
      invariant res == Parse(rows[..i], "", delimiter)
      invariant current == TopicAfter(rows[..i], "")
    {
      var row := rows[i];
      assert rows[..i + 1][..i] == rows[..i];
      if '#' in row {
        continue;
      }
      if RemoveAll(RemoveAll(row, " "), "\n") == "" {
        continue;
      }
      if Contains(row, "TOPIC") {
        current := CleanTopic(row);
        continue;
      }
      res := res + [ArticleList(current, Split(RemoveAll(row, "\n"), delimiter))];
    }
    assert rows[..|rows|] == rows;
  }

  /** The header clean-up loop: each marker in turn is replaced by nothing. */
  method CleanTopic(row: string) returns (current: string)
    ensures current == TopicName(row)
  {
    current := row;
    for j := 0 to |Markers|
      invariant current == Strip(row, Markers[..j])
    {
      assert Markers[..j + 1][..j] == Markers[..j];
      current := RemoveAll(current, Markers[j]);
    }
    assert Markers[..|Markers|] == Markers;
  }

  /** The generator streams in file order: the file read in two stretches yields the first
      stretch's lists and then the second's, the second starting under the topic the first
      left in force. */
  lemma {:induction false} ParseAppend(a: seq<string>, b: seq<string>, t: string, delimiter: string)
    requires |delimiter| > 0
    ensures Parse(a + b, t, delimiter) == Parse(a, t, delimiter) + Parse(b, TopicAfter(a, t), delimiter)
    ensures TopicAfter(a + b, t) == TopicAfter(b, TopicAfter(a, t))
  {
    if b == [] {
      assert a + b == a;
    } else {
      var init := b[..|b| - 1];
      assert (a + b)[..|a + b| - 1] == a + init;
      assert (a + b)[|a + b| - 1] == b[|b| - 1];
      ParseAppend(a, init, t, delimiter);
    }
  }

  /** One row on its own: a dropped row yields nothing and leaves the topic alone (a
      commented-out header included); a header yields nothing and sets the topic to its
      name; any other row yields one list under the current topic. */
  lemma OneRow(row: string, t: string, delimiter: string)
    requires |delimiter| > 0
    ensures Dropped(row) ==> Parse([row], t, delimiter) == [] && TopicAfter([row], t) == t
    ensures Header(row) ==> Parse([row], t, delimiter) == [] && TopicAfter([row], t) == TopicName(row)
    ensures !Dropped(row) && !Header(row) ==>
      Parse([row], t, delimiter) == [ArticleList(t, Split(RemoveAll(row, "\n"), delimiter))]
      && TopicAfter([row], t) == t
  {
    assert [row][..0] == [];
  }

  /** Until the first header every list carries the starting topic, which for the generator
      is the empty string. */
  lemma {:induction false} NoHeaderKeepsTopic(rows: seq<string>, t: string, delimiter: string)
    requires |delimiter| > 0
    requires forall row | row in rows :: !Header(row)
    ensures TopicAfter(rows, t) == t
    ensures forall x | x in Parse(rows, t, delimiter) :: x.topic == t
  {
    if rows != [] {
      var init := rows[..|rows| - 1];
      assert forall row | row in init :: row in rows;
      NoHeaderKeepsTopic(init, t, delimiter);
    }
  }

  /** Every list yielded comes from one name row of the file: it has at least one name, and
      joining its names with the delimiter gives back that row without its newlines. */
  lemma {:induction false} NamesRestoreRow(rows: seq<string>, t: string, delimiter: string)
    requires |delimiter| > 0
    ensures forall x | x in Parse(rows, t, delimiter) ::
      |x.names| >= 1 &&
      exists row | row in rows :: !Dropped(row) && !Header(row) && Join(x.names, delimiter) == RemoveAll(row, "\n")
  {
    if rows != [] {
      var init := rows[..|rows| - 1];
      var row := rows[|rows| - 1];
      NamesRestoreRow(init, t, delimiter);
      assert forall r | r in init :: r in rows;
      JoinSplit(RemoveAll(row, "\n"), delimiter);
    }
  }
}
