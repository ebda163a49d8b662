/**
 * The metadata line parser of the external-player backend: one line of the
 * player's standard output, which carries ICY metadata as
 * `ICY Info: StreamTitle='Artist - Song';StreamUrl='http://...';`.
 */
module Icy {
  import opened Wrappers
  import opened Text

  /** A line is an info line exactly when it holds this marker. */
  const InfoMarker := "ICY Info: StreamTitle="
  /** The number of characters dropped from the line's start: `len('ICY Info: ')`. */
  const PrefixLength := 10
  /** Separates artist from song inside the stream title. */
  const TitleSeparator := " - "

  /** The three values the parser accumulates while it walks the tokens. */
  datatype Fields = Fields(artist: string, song: string, url: string)

  /** What one line yields. */
  datatype IcyInfo =
    | NoInfo                                            // Python's `(None, None, None)`
    | Info(artist: string, song: string, url: string)
    | Malformed(token: string)                          // Python raises `ValueError` on this token

  const NoFields := Fields("", "", "")

  /** A token of at least two characters is split at its first `=` into name and value. */
  function NameValue(tok: string): Option<(string, string)>
  {
    SplitOnce(tok, "=")
  }

  /**
   * A token on which the source raises: a token of at least two characters
   * with no `=`, or a `StreamTitle` whose quote-stripped value holds no
   * `" - "`.
   */
  predicate BadToken(tok: string)
  {
    |tok| >= 2 &&
    match NameValue(tok)
    case None => true
    case Some(nv) => nv.0 == "StreamTitle" && SplitOnce(Strip(nv.1, IsQuote), TitleSeparator).None?
  }

  /** The effect of one token on the fields, or `None` when the token is bad. */
  function Absorb(f: Fields, tok: string): (r: Option<Fields>)
    ensures r.None? <==> BadToken(tok)
    ensures |tok| < 2 ==> r == Some(f)
  {
    if |tok| < 2 then Some(f)
    else
      match NameValue(tok)
      case None => None
      case Some(nv) =>
        if nv.0 == "StreamTitle" then
          match SplitOnce(Strip(nv.1, IsQuote), TitleSeparator)
          case None => None
          case Some(halves) => Some(f.(artist := halves.0, song := halves.1))
        else if nv.0 == "StreamUrl" then Some(f.(url := Strip(nv.1, IsQuote)))
        else Some(f)
  }

  /** The tokens from left to right, stopping at the first bad one. */
  function Scan(f: Fields, toks: seq<string>): (r: IcyInfo)
    ensures r != NoInfo
    ensures r.Malformed? ==> r.token in toks && BadToken(r.token)
    decreases |toks|
  {
    if |toks| == 0 then Info(f.artist, f.song, f.url)
    else
      match Absorb(f, toks[0])
      case None => Malformed(toks[0])
      case Some(g) => Scan(g, toks[1..])
  }

  /** The tokens of an info line: what follows the fixed prefix, split at `;`. */
  function Tokens(line: string): seq<string>
  {
    if |line| < PrefixLength then [""] else Split(line[PrefixLength..], ';')
  }

  /** What `_parse_icyinfo` returns for `line`. */
  function ParseIcy(line: string): (r: IcyInfo)
    ensures r == NoInfo <==> !Contains(line, InfoMarker)
  {
    if !Contains(line, InfoMarker) then NoInfo
    else Scan(NoFields, Tokens(line))
  }

  /**
   * The parser as the source writes it: a loop over the tokens that
   * reassigns the artist, the song and the URL.
   */
  method ParseIcyInfo(line: string) returns (r: IcyInfo)
    ensures r == ParseIcy(line)
  {
    if Find(line, InfoMarker) == -1 {
      return NoInfo;
    }
    var artist, song, url := "", "", "";
    var toks := Tokens(line);
    var i := 0;
    while i < |toks|
      invariant 0 <= i <= |toks|
      invariant Scan(NoFields, toks) == Scan(Fields(artist, song, url), toks[i..])
    {
      var tok := toks[i];
      assert toks[i..][1..] == toks[i + 1..];
      if |tok| >= 2 {
        var nv := NameValue(tok);
        if nv.None? {
          return Malformed(tok);
        }
        var (name, value) := nv.value;
        if name == "StreamTitle" {
          var halves := SplitOnce(Strip(value, IsQuote), TitleSeparator);
          if halves.None? {
            return Malformed(tok);
          }
          artist, song := halves.value.0, halves.value.1;
        } else if name == "StreamUrl" {
          url := Strip(value, IsQuote);
        }
      }
      i := i + 1;
    }
    return Info(artist, song, url);
  }

  // ---------------------------------------------------------------------
  // Reference definitions: each field comes from the last token naming it.
  // ---------------------------------------------------------------------

  /** The raw value of the last token of at least two characters named `name`. */
  function LastValue(toks: seq<string>, name: string): Option<string>
    decreases |toks|
  {
    if |toks| == 0 then None
    else
      var later := LastValue(toks[1..], name);
      if later.Some? then later
      else if |toks[0]| >= 2 && NameValue(toks[0]).Some? && NameValue(toks[0]).value.0 == name
      then Some(NameValue(toks[0]).value.1)
      else None
  }

  /** Scanning `toks` from `f` without a bad token: each field is that of the last token naming it. */
  lemma {:induction false} ScanTakesLast(f: Fields, toks: seq<string>)
    requires Scan(f, toks).Info?
    ensures var r := Scan(f, toks);
      && r.url == (match LastValue(toks, "StreamUrl")
                   case None => f.url
                   case Some(v) => Strip(v, IsQuote))
      && (match LastValue(toks, "StreamTitle")
          case None => r.artist == f.artist && r.song == f.song
          case Some(v) => SplitOnce(Strip(v, IsQuote), TitleSeparator) == Some((r.artist, r.song)))
    decreases |toks|
  {
    if |toks| > 0 {
      var g := Absorb(f, toks[0]).value;
      ScanTakesLast(g, toks[1..]);
    }
  }

  /**
   * An info line that parses: the URL is the quote-stripped value of the last
   * `StreamUrl` token and artist and song split the quote-stripped value of
   * the last `StreamTitle` token; a key that never appears gives `""`.
   */
  lemma InfoFromLastTokens(line: string)
    requires ParseIcy(line).Info?
    ensures var r := ParseIcy(line);
      && r.url == (match LastValue(Tokens(line), "StreamUrl")
                   case None => ""
                   case Some(v) => Strip(v, IsQuote))
      && (match LastValue(Tokens(line), "StreamTitle")
          case None => r.artist == "" && r.song == ""
          case Some(v) => SplitOnce(Strip(v, IsQuote), TitleSeparator) == Some((r.artist, r.song)))
  {
    ScanTakesLast(NoFields, Tokens(line));
  }

  /** Scanning fails exactly when some token is bad. */
  lemma {:induction false} ScanFailsOnBadToken(f: Fields, toks: seq<string>)
    ensures Scan(f, toks).Malformed? <==> exists k :: 0 <= k < |toks| && BadToken(toks[k])
    decreases |toks|
  {
    if |toks| > 0 {
      match Absorb(f, toks[0])
      case None =>
      case Some(g) =>
        ScanFailsOnBadToken(g, toks[1..]);
        if exists k :: 0 <= k < |toks| && BadToken(toks[k]) {
          var k :| 0 <= k < |toks| && BadToken(toks[k]);
          assert toks[1..][k - 1] == toks[k];
        }
    }
  }

  /** An info line is rejected exactly when one of its tokens is bad. */
  lemma MalformedIffBadToken(line: string)
    ensures ParseIcy(line).Malformed? <==>
      Contains(line, InfoMarker) && exists k :: 0 <= k < |Tokens(line)| && BadToken(Tokens(line)[k])
  {
    ScanFailsOnBadToken(NoFields, Tokens(line));
  }

  // ---------------------------------------------------------------------
  // Round trip: the line a station sends is parsed back into its fields.
  // ---------------------------------------------------------------------

  /** The info line that announces `artist - song` with cover URL `url`. */
  function IcyLine(artist: string, song: string, url: string): string
  {
    "ICY Info: " + TitleToken(artist, song) + ";" + UrlToken(url) + ";"
  }

  /** A value as the station sends it, between single quotes. */
  function Quoted(x: string): string
  {
    "'" + x + "'"
  }

  /** The title token as the line carries it. */
  function TitleToken(artist: string, song: string): string
  {
    "StreamTitle" + "=" + Quoted(artist + TitleSeparator + song)
  }

  /** The URL token as the line carries it. */
  function UrlToken(url: string): string
  {
    "StreamUrl" + "=" + Quoted(url)
  }

  /**
   * Fields that survive the trip: no `;` anywhere, no `" - "` in the artist
   * followed by a space (so the first `" - "` is the separator), and no
   * quote where stripping would take it away.
   */
  predicate Announceable(artist: string, song: string, url: string)
  {
    && ';' !in artist && ';' !in song && ';' !in url
    && !Contains(artist + " ", TitleSeparator)
    && (artist != [] ==> artist[0] != '\'')
    && (song != [] ==> song[|song| - 1] != '\'')
    && (url != [] ==> url[0] != '\'' && url[|url| - 1] != '\'')
  }

  /**
   * Splitting `artist + " - " + song` at its first `" - "` gives back the
   * artist and the song exactly when `artist + " "` holds no `" - "`:
   * otherwise a separator inside the artist is found first.
   */
  lemma SplitTitle(artist: string, song: string)
    ensures SplitOnce(artist + TitleSeparator + song, TitleSeparator) == Some((artist, song))
        <==> !Contains(artist + " ", TitleSeparator)
  {
    var x := artist + TitleSeparator + song;
    var n := |artist|;
    if Contains(artist + " ", TitleSeparator) {
      var j := Find(artist + " ", TitleSeparator);
      SeparatorInArtist(artist, song, j);
      assert Find(x, TitleSeparator) <= j < n;
    } else {
      assert OccursAt(x, TitleSeparator, n);
      forall j | 0 <= j < n
        ensures !OccursAt(x, TitleSeparator, j)
      {
        SeparatorInArtist(artist, song, j);
      }
      assert x[..n] == artist && x[n + |TitleSeparator|..] == song;
    }
  }

  /**
   * Before the artist ends, the title separator occurs in
   * `artist + " - " + song` exactly where it occurs in `artist + " "`.
   */
  lemma SeparatorInArtist(artist: string, song: string, j: nat)
    requires j < |artist|
    ensures OccursAt(artist + TitleSeparator + song, TitleSeparator, j) <==> OccursAt(artist + " ", TitleSeparator, j)
  {
    var x := artist + TitleSeparator + song;
    var w := artist + " ";
    var n := |artist|;
    if j + 1 < n {
      assert x[..n + 1] == w;
      OccursInPrefix(x, TitleSeparator, n + 1, j);
    } else {
      assert x[j + 1] == ' ';
    }
  }

  /** A text holding the title separator holds a `-`. */
  lemma SeparatorHasDash(w: string)
    ensures Contains(w, TitleSeparator) ==> '-' in w
  {
    if Contains(w, TitleSeparator) {
      var j := Find(w, TitleSeparator);
      assert w[j + 1] == TitleSeparator[1];
    }
  }

  /** The announced line holds the marker at its start. */
  lemma IcyLineMarked(artist: string, song: string, url: string)
    ensures Contains(IcyLine(artist, song, url), InfoMarker)
  {
    var rest := Quoted(artist + TitleSeparator + song) + ";" + UrlToken(url) + ";";
    assert InfoMarker == "ICY Info: " + "StreamTitle" + "=";
    assert IcyLine(artist, song, url) == InfoMarker + rest;
    OccursAtStart(InfoMarker, rest);
    ContainsAt(IcyLine(artist, song, url), InfoMarker, 0);
  }

  /** What follows the fixed prefix of the announced line. */
  lemma IcyLineTail(artist: string, song: string, url: string)
    ensures IcyLine(artist, song, url)[PrefixLength..]
      == TitleToken(artist, song) + [';'] + (UrlToken(url) + [';'] + "")
  {
    var tail := TitleToken(artist, song) + [';'] + (UrlToken(url) + [';'] + "");
    assert IcyLine(artist, song, url) == "ICY Info: " + tail;
  }

  /** The announced line is the marker's prefix, then two tokens each closed by `;`. */
  lemma IcyLineTokens(artist: string, song: string, url: string)
    requires Announceable(artist, song, url)
    ensures Tokens(IcyLine(artist, song, url)) == [TitleToken(artist, song), UrlToken(url), ""]
  {
    var t1 := TitleToken(artist, song);
    var t2 := UrlToken(url);
    IcyLineTail(artist, song, url);
    assert ';' !in t1 && ';' !in t2;
    SplitAtFirst(t1, ';', t2 + [';'] + "");
    SplitAtFirst(t2, ';', "");
  }

  /** The title token sets artist and song. */
  lemma AbsorbTitleToken(f: Fields, artist: string, song: string)
    requires !Contains(artist + " ", TitleSeparator)
    requires artist != [] ==> artist[0] != '\''
    requires song != [] ==> song[|song| - 1] != '\''
    ensures Absorb(f, TitleToken(artist, song)) == Some(f.(artist := artist, song := song))
  {
    var title := artist + TitleSeparator + song;
    var tok := TitleToken(artist, song);
    assert NameValue(tok) == Some(("StreamTitle", Quoted(title))) by {
      assert tok == "StreamTitle" + ['='] + Quoted(title);
      SplitOnceAtChar("StreamTitle", '=', Quoted(title));
    }
    assert Strip(Quoted(title), IsQuote) == title by {
      assert title[0] != '\'' && title[|title| - 1] != '\'';
      StripEnclosed(title, '\'', IsQuote);
    }
    assert SplitOnce(title, TitleSeparator) == Some((artist, song)) by {
      SplitTitle(artist, song);
    }
  }

  /** The URL token sets the URL. */
  lemma AbsorbUrlToken(f: Fields, url: string)
    requires url != [] ==> url[0] != '\'' && url[|url| - 1] != '\''
    ensures Absorb(f, UrlToken(url)) == Some(f.(url := url))
  {
    SplitOnceAtChar("StreamUrl", '=', Quoted(url));
    assert NameValue(UrlToken(url)) == Some(("StreamUrl", Quoted(url)));
    StripEnclosed(url, '\'', IsQuote);
  }

  /** Parsing the announced line gives back its artist, song and URL. */
  lemma ParseIcyLine(artist: string, song: string, url: string)
    requires Announceable(artist, song, url)
    ensures ParseIcy(IcyLine(artist, song, url)) == Info(artist, song, url)
  {
    IcyLineMarked(artist, song, url);
    IcyLineTokens(artist, song, url);
    var t1, t2 := TitleToken(artist, song), UrlToken(url);
    var f1 := Fields(artist, song, "");
    AbsorbTitleToken(NoFields, artist, song);
    AbsorbUrlToken(f1, url);
    var toks := [t1, t2, ""];
    assert toks[1..] == [t2, ""];
    assert toks[1..][1..] == [""];
    assert Scan(NoFields, toks) == Scan(f1, [t2, ""]) == Scan(Fields(artist, song, url), [""]);
  }

  /**
   * The example line written beside the parser in the source, as `IcyLine`
   * builds it: `ICY Info: StreamTitle='Jimi Hendrix - The Wind Cries
   * Mary';StreamUrl='http://www.radioparadise.com/graphics/covers/m/B000002OOG.jpg';`.
   */
  lemma SampleLine(artist: string, song: string, url: string)
    requires artist == "Jimi Hendrix" && song == "The Wind Cries Mary"
    requires url == "http://www.radioparadise.com" + "/graphics/covers/m/B000002OOG.jpg"
    ensures ParseIcy(IcyLine(artist, song, url)) == Info(artist, song, url)
  {
    SampleUrl(url);
    assert !Contains(artist + " ", TitleSeparator) by {
      assert '-' !in artist + " ";
      SeparatorHasDash(artist + " ");
    }
    assert Announceable(artist, song, url);
    ParseIcyLine(artist, song, url);
  }

  /** The example's cover URL holds no `;` and is not quoted. */
  lemma SampleUrl(url: string)
    requires url == "http://www.radioparadise.com" + "/graphics/covers/m/B000002OOG.jpg"
    ensures ';' !in url && url[0] != '\'' && url[|url| - 1] != '\''
  {
    var host, path := "http://www.radioparadise.com", "/graphics/covers/m/B000002OOG.jpg";
    assert ';' !in host && ';' !in path;
    assert url[0] == host[0] && url[|url| - 1] == path[|path| - 1];
  }
}
