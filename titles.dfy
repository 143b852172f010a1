/** `load_titles`: the article titles listed one per line in a text file. The file's lines
    (each still ending in its newline, the last one perhaps not) are the input; the
    generator's output is the sequence of titles it yields. */
module Titles {
  import opened Text

  /** A line the loader ignores: an empty one, a comment (first character `#`), or a line
      holding nothing but its newline. */
  predicate Ignored(line: string)
  {
    |line| == 0 || line[0] == '#' || line == "\n"
  }

  /** The title a kept line gives: the line with every newline removed. */
  function TitleOf(line: string): (t: string)
    ensures '\n' !in t
    ensures |t| <= |line|
  {
    RemoveAll(line, "\n")
  }

  /** The titles yielded for `lines`, in file order. The delimiter parameter is accepted and
      never read. */
  function LoadTitles(lines: seq<string>, delimiter: string): (r: seq<string>)
    ensures |r| <= |lines|
    ensures forall t | t in r :: '\n' !in t
    ensures forall t | t in r :: exists line | line in lines :: !Ignored(line) && t == TitleOf(line)
  {
    if lines == [] then []
    else
      var rest := LoadTitles(lines[1..], delimiter);
      assert forall line | line in lines[1..] :: line in lines;
      if Ignored(lines[0]) then rest else [TitleOf(lines[0])] + rest
  }

  /** The generator streams: the titles of two consecutive stretches of the file are the
      titles of the first followed by those of the second. */
  lemma {:induction false} LoadTitlesAppend(a: seq<string>, b: seq<string>, delimiter: string)
    ensures LoadTitles(a + b, delimiter) == LoadTitles(a, delimiter) + LoadTitles(b, delimiter)
  {
    if a == [] {
      assert a + b == b;
    } else {
      assert (a + b)[0] == a[0];
      assert (a + b)[1..] == a[1..] + b;
      LoadTitlesAppend(a[1..], b, delimiter);
    }
  }

  /** Exactly the lines that are not ignored yield a title: one line on its own gives its
      title, or nothing when it is ignored. */
  lemma OneLine(line: string, delimiter: string)
    ensures Ignored(line) ==> LoadTitles([line], delimiter) == []
    ensures !Ignored(line) ==> LoadTitles([line], delimiter) == [TitleOf(line)]
  {
    assert [line][1..] == [];
  }

  /** One title per kept line: the number of titles is the number of lines not ignored. */
  lemma {:induction false} LoadTitlesCount(lines: seq<string>, delimiter: string)
    ensures |LoadTitles(lines, delimiter)| == |Kept(lines)|
  {
    if lines != [] {
      LoadTitlesCount(lines[1..], delimiter);
    }
  }

  /** The lines the loader keeps, in order. */
  function Kept(lines: seq<string>): (r: seq<string>)
    ensures forall line | line in r :: line in lines && !Ignored(line)
  {
    if lines == [] then []
    else
      assert forall line | line in lines[1..] :: line in lines;
      (if Ignored(lines[0]) then [] else [lines[0]]) + Kept(lines[1..])
  }

  /** The delimiter plays no part: any two delimiters load the same titles. */
  lemma {:induction false} DelimiterIgnored(lines: seq<string>, d1: string, d2: string)
    ensures LoadTitles(lines, d1) == LoadTitles(lines, d2)
  {
    if lines != [] {
      DelimiterIgnored(lines[1..], d1, d2);
    }
  }

  /** A line of blanks is not ignored: its title is the blanks. */
  lemma BlankLine(delimiter: string)
    ensures LoadTitles(["  \n"], delimiter) == ["  "]
  {
    assert "  " + "\n" == "  \n";
    assert !Ignored("  \n");
    OneLine("  \n", delimiter);
    RemovesNewline("  ");
  }

  /** What a kept line loses is its trailing newline. */
  lemma RemovesNewline(s: string)
    requires '\n' !in s
    ensures TitleOf(s + "\n") == s
  {
    RemoveAbsent(s, '\n');
    RemoveCharAppend(s, "\n", '\n');
  }
}
