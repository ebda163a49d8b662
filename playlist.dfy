/**
 * The playlist the player walks: the fetched playlist document, one URI per
 * line, without comment lines and lines of at most one character.
 */
module Playlist {
  import opened Text

  /** A raw line is kept when it has more than one character and does not start with `#`. */
  predicate Kept(line: string)
  {
    |line| > 1 && line[0] != '#'
  }

  /** The kept lines, each stripped of surrounding whitespace, in their original order. */
  function KeptLines(lines: seq<string>): (r: seq<string>)
    ensures |r| <= |lines|
    ensures forall k :: 0 <= k < |r| ==> Trimmed(r[k])
    decreases |lines|
  {
    if |lines| == 0 then []
    else if Kept(lines[0]) then [Strip(lines[0], IsSpace)] + KeptLines(lines[1..])
    else KeptLines(lines[1..])
  }

  /** No whitespace at either end. */
  predicate Trimmed(x: string)
  {
    x != [] ==> !IsSpace(x[0]) && !IsSpace(x[|x| - 1])
  }

  /**
   * The playlist comprehension of `Player.__init__` over the fetched
   * document: at most one entry per line, each without surrounding
   * whitespace, hence without a line break at either end.
   */
  function Parse(doc: string): (r: seq<string>)
    ensures |r| <= |Split(doc, '\n')|
    ensures forall k :: 0 <= k < |r| ==> Trimmed(r[k])
  {
    KeptLines(Split(doc, '\n'))
  }

  /** Filtering distributes over concatenation: the order of the lines is kept. */
  lemma {:induction false} KeptLinesAppend(a: seq<string>, b: seq<string>)
    ensures KeptLines(a + b) == KeptLines(a) + KeptLines(b)
    decreases |a|
  {
    if |a| == 0 {
      assert a + b == b;
    } else {
      assert (a + b)[0] == a[0];
      assert (a + b)[1..] == a[1..] + b;
      KeptLinesAppend(a[1..], b);
    }
  }

  /** Every playlist entry is a kept line, stripped. */
  lemma {:induction false} EntriesComeFromKeptLines(lines: seq<string>, x: string)
    requires x in KeptLines(lines)
    ensures exists k :: 0 <= k < |lines| && Kept(lines[k]) && Strip(lines[k], IsSpace) == x
    decreases |lines|
  {
    if Kept(lines[0]) && x == Strip(lines[0], IsSpace) {
      assert Kept(lines[0]);
    } else {
      EntriesComeFromKeptLines(lines[1..], x);
      var k :| 0 <= k < |lines[1..]| && Kept(lines[1..][k]) && Strip(lines[1..][k], IsSpace) == x;
      assert lines[k + 1] == lines[1..][k];
    }
  }

  /** Every kept line, stripped, is a playlist entry. */
  lemma {:induction false} KeptLinesAreEntries(lines: seq<string>, k: nat)
    requires k < |lines| && Kept(lines[k])
    ensures Strip(lines[k], IsSpace) in KeptLines(lines)
    decreases k
  {
    if k > 0 {
      assert lines[1..][k - 1] == lines[k];
      KeptLinesAreEntries(lines[1..], k - 1);
    }
  }

  /** A kept line made only of whitespace becomes an empty entry. */
  lemma BlankLineKeptEmpty(line: string)
    requires Kept(line) && forall k :: 0 <= k < |line| ==> IsSpace(line[k])
    ensures KeptLines([line]) == [""]
  {
    var i, j := StripSlice(line, IsSpace);
    assert [line][1..] == [];
  }

  /** The document `"http://a\n#c\n\nhttp://b\n"`. */
  lemma SampleDocument(doc: string)
    requires doc == "http://a\n#c\n\nhttp://b\n"
    ensures Parse(doc) == ["http://a", "http://b"]
  {
    SampleLines(doc, "http://a", "http://b");
    SampleKept(["http://a", "#c", "", "http://b", ""]);
  }

  lemma SampleKept(lines: seq<string>)
    requires lines == ["http://a", "#c", "", "http://b", ""]
    ensures KeptLines(lines) == ["http://a", "http://b"]
  {
    assert KeptLines(lines[4..]) == [] by {
      assert lines[4..][0] == "" && lines[4..][1..] == [];
    }
    assert KeptLines(lines[3..]) == ["http://b"] by {
      assert lines[3..][0] == "http://b" && lines[3..][1..] == lines[4..];
      StripUrl("http://b");
    }
    assert KeptLines(lines[1..]) == ["http://b"] by {
      assert lines[1..][0] == "#c" && lines[1..][1..] == lines[2..];
      assert lines[2..][0] == "" && lines[2..][1..] == lines[3..];
    }
    assert lines[0] == "http://a" && Kept(lines[0]);
    StripUrl("http://a");
  }

  lemma StripUrl(s: string)
    requires s == "http://a" || s == "http://b"
    ensures Strip(s, IsSpace) == s
  {
    assert s[0] == 'h' && s[|s| - 1] != ' ';
  }

  /** A document with a comment line and a blank line between two URIs splits into five lines. */
  lemma SampleLines(doc: string, u1: string, u2: string)
    requires '\n' !in u1 && '\n' !in u2
    requires doc == u1 + ['\n'] + ("#c" + ['\n'] + ("" + ['\n'] + (u2 + ['\n'] + "")))
    ensures Split(doc, '\n') == [u1, "#c", "", u2, ""]
  {
    var d3 := u2 + ['\n'] + "";
    var d2 := "" + ['\n'] + d3;
    var d1 := "#c" + ['\n'] + d2;
    SplitAtFirst(u2, '\n', "");
    SplitAtFirst("", '\n', d3);
    SplitAtFirst("#c", '\n', d2);
    SplitAtFirst(u1, '\n', d1);
  }
}
