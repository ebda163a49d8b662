/**
 * The two playback backends reduced to what they decide: which callback a
 * bus message of the native pipeline triggers, and which update a line of
 * the external player's output triggers. Building the pipeline, the bus,
 * the subprocess and reading its output are not modelled.
 */
module Backends {
  import opened Wrappers
  import opened Text
  import Icy

  /** A message on the native pipeline's bus, as far as the player looks at it. */
  datatype Message =
    | Error(detail: string)
    | Eos
    | Tag(tags: seq<(string, string)>)   // the tag list's keys and values, in iteration order
    | Other                              // any other message type

  /** What the backend does with one message or line. */
  datatype Reaction =
    | Ignore                               // nothing at all
    | StopPipeline                         // the pipeline goes to its null state
    | EndOfStream                          // `eos_cb()`
    | Update(artist: Option<string>, song: Option<string>, cover: Option<string>)  // `update_cb(...)`
    | Raised(value: string)                // a title without `" - "`: `ValueError`, no callback

  /** What the tag loop of `_on_message` has gathered so far. */
  datatype Gathered = Gathered(artist: Option<string>, song: Option<string>, cover: Option<string>, update: bool)

  const NothingGathered := Gathered(None, None, None, false)

  /** The tags from left to right: `title` sets artist and song, `homepage` the cover. */
  function GatherTags(g: Gathered, tags: seq<(string, string)>): (r: Reaction)
    ensures r.Update? || r.Raised? || r == Ignore
    ensures r == Ignore <==> !g.update && forall k :: 0 <= k < |tags| ==> tags[k].0 != "title" && tags[k].0 != "homepage"
    decreases |tags|
  {
    if |tags| == 0 then
      if g.update then Update(g.artist, g.song, g.cover) else Ignore
    else
      var (key, value) := tags[0];
      if key == "title" then
        match SplitOnce(value, Icy.TitleSeparator)
        case None => Raised(value)
        case Some(halves) =>
          GatherTags(g.(artist := Some(halves.0), song := Some(halves.1), update := true), tags[1..])
      else if key == "homepage" then
        GatherTags(g.(cover := Some(value), update := true), tags[1..])
      else
        GatherTags(g, tags[1..])
  }

  /** What `GstreamerBackend._on_message` does with a message. */
  function Dispatch(msg: Message): (r: Reaction)
    ensures r == StopPipeline <==> msg.Error?
    ensures r == EndOfStream <==> msg.Eos?
    ensures msg.Other? ==> r == Ignore
  {
    match msg
    case Error(_) => StopPipeline
    case Eos => EndOfStream
    case Tag(tags) => GatherTags(NothingGathered, tags)
    case Other => Ignore
  }

  /** `_on_message` as the source writes it: a loop over the tags that sets the `update` flag. */
  method OnMessage(msg: Message) returns (r: Reaction)
    ensures r == Dispatch(msg)
  {
    match msg {
      case Error(_) =>
        return StopPipeline;
      case Eos =>
        return EndOfStream;
      case Other =>
        return Ignore;
      case Tag(tags) =>
        var artist, song, cover: Option<string> := None, None, None;
        var update := false;
        var i := 0;
        while i < |tags|
          invariant 0 <= i <= |tags|
          invariant GatherTags(NothingGathered, tags) == GatherTags(Gathered(artist, song, cover, update), tags[i..])
        {
          assert tags[i..][1..] == tags[i + 1..];
          var (key, value) := tags[i];
          if key == "title" {
            var halves := SplitOnce(value, Icy.TitleSeparator);
            if halves.None? {
              return Raised(value);
            }
            artist, song := Some(halves.value.0), Some(halves.value.1);
            update := true;
          } else if key == "homepage" {
            cover := Some(value);
            update := true;
          }
          i := i + 1;
        }
        if update {
          return Update(artist, song, cover);
        }
        return Ignore;
    }
  }

  // ---------------------------------------------------------------------
  // Reference definitions for tag messages.
  // ---------------------------------------------------------------------

  /** The value of the last tag named `key`. */
  function LastTag(tags: seq<(string, string)>, key: string): Option<string>
    decreases |tags|
  {
    if |tags| == 0 then None
    else if LastTag(tags[1..], key).Some? then LastTag(tags[1..], key)
    else if tags[0].0 == key then Some(tags[0].1)
    else None
  }

  /** A title tag that the source fails to split. */
  predicate BadTitle(t: (string, string))
  {
    t.0 == "title" && !Contains(t.1, Icy.TitleSeparator)
  }

  /** Gathering fails exactly on a title without separator, and reports the first such value. */
  lemma {:induction false} GatherRaisesOnBadTitle(g: Gathered, tags: seq<(string, string)>)
    ensures GatherTags(g, tags).Raised? <==> exists k :: 0 <= k < |tags| && BadTitle(tags[k])
    ensures forall k ::
              0 <= k < |tags| && BadTitle(tags[k]) && (forall j :: 0 <= j < k ==> !BadTitle(tags[j]))
              ==> GatherTags(g, tags) == Raised(tags[k].1)
    decreases |tags|
  {
    if |tags| > 0 {
      var (key, value) := tags[0];
      if key == "title" && !Contains(value, Icy.TitleSeparator) {
      } else {
        var g' := if key == "title" then g.(artist := Some(SplitOnce(value, Icy.TitleSeparator).value.0),
                                            song := Some(SplitOnce(value, Icy.TitleSeparator).value.1), update := true)
                  else if key == "homepage" then g.(cover := Some(value), update := true)
                  else g;
        assert GatherTags(g, tags) == GatherTags(g', tags[1..]);
        GatherRaisesOnBadTitle(g', tags[1..]);
        if exists k :: 0 <= k < |tags| && BadTitle(tags[k]) {
          var k :| 0 <= k < |tags| && BadTitle(tags[k]);
          assert tags[1..][k - 1] == tags[k];
        }
      }
    }
  }

  /**
   * Gathering without a bad title: an update happens exactly when some tag
   * is a title or a homepage (or one was seen before), and its fields come
   * from the last title and the last homepage.
   */
  lemma {:induction false} GatherTakesLast(g: Gathered, tags: seq<(string, string)>)
    requires !GatherTags(g, tags).Raised?
    ensures var r := GatherTags(g, tags);
      var title := LastTag(tags, "title");
      var home := LastTag(tags, "homepage");
      && (r.Update? <==> g.update || title.Some? || home.Some?)
      && (r.Update? ==>
            && r.cover == (if home.Some? then home else g.cover)
            && (match title
                case None => r.artist == g.artist && r.song == g.song
                case Some(t) => r.artist.Some? && r.song.Some?
                                && SplitOnce(t, Icy.TitleSeparator) == Some((r.artist.value, r.song.value))))
    decreases |tags|
  {
    if |tags| > 0 {
      var (key, value) := tags[0];
      var g' := if key == "title" then g.(artist := Some(SplitOnce(value, Icy.TitleSeparator).value.0),
                                          song := Some(SplitOnce(value, Icy.TitleSeparator).value.1), update := true)
                else if key == "homepage" then g.(cover := Some(value), update := true)
                else g;
      assert GatherTags(g, tags) == GatherTags(g', tags[1..]);
      GatherTakesLast(g', tags[1..]);
    }
  }

  /**
   * A tag message yields at most one update, and it yields one exactly when
   * it carries a `title` or a `homepage` tag and every title splits; artist
   * and song split the last title at its first `" - "`, the cover is the
   * last homepage.
   */
  lemma TagMessage(tags: seq<(string, string)>)
    ensures var r := Dispatch(Tag(tags));
      var title := LastTag(tags, "title");
      var home := LastTag(tags, "homepage");
      && (r.Raised? <==> exists k :: 0 <= k < |tags| && BadTitle(tags[k]))
      && (r.Update? <==> !r.Raised? && (title.Some? || home.Some?))
      && (r.Update? ==>
            && r.cover == home
            && (match title
                case None => r.artist == None && r.song == None
                case Some(t) => r.artist.Some? && r.song.Some?
                                && SplitOnce(t, Icy.TitleSeparator) == Some((r.artist.value, r.song.value))))
  {
    GatherRaisesOnBadTitle(NothingGathered, tags);
    if !Dispatch(Tag(tags)).Raised? {
      GatherTakesLast(NothingGathered, tags);
    }
  }

  // ---------------------------------------------------------------------
  // The external-player backend.
  // ---------------------------------------------------------------------

  /** What the external-player backend does with one line of the player's output. */
  function LineReaction(line: string): (r: Reaction)
    ensures r == Ignore <==> !Contains(line, Icy.InfoMarker)
    ensures r.Raised? <==> Icy.ParseIcy(line).Malformed?
    ensures r.Raised? ==> r.value == Icy.ParseIcy(line).token
    ensures r.Update? ==> r.artist.Some? && r.song.Some? && r.cover.Some?
    ensures Icy.ParseIcy(line).Info? ==>
      var info := Icy.ParseIcy(line);
      r == Update(Some(info.artist), Some(info.song), Some(info.url))
    ensures !r.StopPipeline? && !r.EndOfStream?
  {
    match Icy.ParseIcy(line)
    case NoInfo => Ignore
    case Info(a, s, u) => Update(Some(a), Some(s), Some(u))
    case Malformed(tok) => Raised(tok)
  }

  /** A line announcing `artist - song` with a cover URL passes exactly those three to the update callback. */
  lemma AnnouncedLineUpdates(artist: string, song: string, url: string)
    requires Icy.Announceable(artist, song, url)
    ensures LineReaction(Icy.IcyLine(artist, song, url)) == Update(Some(artist), Some(song), Some(url))
  {
    Icy.ParseIcyLine(artist, song, url);
  }

  /** How a session of the external player ends. */
  datatype SessionEnd =
    | Exited(status: int)       // the player process ended: `sys.exit(1)`
    | Crashed(token: string)    // a malformed info line raised out of `play`

  /**
   * The updates a session raises for the lines the player printed before it
   * ended, and how the session ends. It never calls the end-of-stream
   * callback: when the player exits, the whole program exits with status 1.
   */
  function Session(lines: seq<string>): (r: (seq<Reaction>, SessionEnd))
    ensures forall k :: 0 <= k < |r.0| ==> r.0[k].Update?
    ensures |r.0| <= |lines|
    ensures r.1.Exited? ==> r.1.status == 1
    decreases |lines|
  {
    if |lines| == 0 then ([], Exited(1))
    else
      var r := LineReaction(lines[0]);
      if r.Raised? then ([], Crashed(r.value))
      else if r.Update? then
        var rest := Session(lines[1..]);
        ([r] + rest.0, rest.1)
      else Session(lines[1..])
  }

  /** `MplayerBackend.play` once the player is running: the read loop over its output lines. */
  method RunSession(lines: seq<string>) returns (updates: seq<Reaction>, end: SessionEnd)
    ensures (updates, end) == Session(lines)
  {
    updates := [];
    var i := 0;
    assert lines[i..] == lines;
    while i < |lines|
      invariant 0 <= i <= |lines|
      invariant Session(lines).0 == updates + Session(lines[i..]).0
      invariant Session(lines).1 == Session(lines[i..]).1
    {
      assert lines[i..][1..] == lines[i + 1..];
      var r := LineReaction(lines[i]);
      if r.Raised? {
        assert lines[i..][0] == lines[i];
        assert updates + [] == updates;
        return updates, Crashed(r.value);
      }
      if r.Update? {
        updates := updates + [r];
      }
      i := i + 1;
    }
    assert lines[i..] == [];
    assert updates + [] == updates;
    end := Exited(1);
  }

  /** Every info line of a session is reported, in order, when none is malformed. */
  lemma {:induction false} SessionReportsEveryInfoLine(lines: seq<string>)
    requires forall k :: 0 <= k < |lines| ==> !Icy.ParseIcy(lines[k]).Malformed?
    ensures Session(lines).1 == Exited(1)
    ensures |Session(lines).0| == |InfoLines(lines)|
    ensures forall k :: 0 <= k < |InfoLines(lines)| ==>
      Session(lines).0[k] == LineReaction(InfoLines(lines)[k])
    decreases |lines|
  {
    if |lines| > 0 {
      var rest := lines[1..];
      assert forall k :: 0 <= k < |rest| ==> rest[k] == lines[k + 1];
      SessionReportsEveryInfoLine(rest);
      var r := LineReaction(lines[0]);
      assert !r.Raised?;
      if r.Update? {
        assert InfoLines(lines) == [lines[0]] + InfoLines(rest);
        assert Session(lines).0 == [r] + Session(rest).0;
      } else {
        assert InfoLines(lines) == InfoLines(rest);
        assert Session(lines) == Session(rest);
      }
    }
  }

  /** The lines that carry the info marker, in order. */
  function InfoLines(lines: seq<string>): seq<string>
    decreases |lines|
  {
    if |lines| == 0 then []
    else if Contains(lines[0], Icy.InfoMarker) then [lines[0]] + InfoLines(lines[1..])
    else InfoLines(lines[1..])
  }
}
