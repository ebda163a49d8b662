/**
 * The orchestrator: it owns the playlist and a cursor into it, asks the
 * backend to play one entry after the other, and turns each now-playing
 * update into a log entry, a preview, a cover lookup and a final display.
 */
module PlayerModel {
  import opened Wrappers
  import Playlist
  import Cover
  import Backends

  /** What the player asks of the backend and of the process. */
  datatype Event =
    | Play(uri: string)        // `backend.play(uri)`
    | Exit(status: int)        // `sys.exit(status)`
    | NoEntry                  // `playlist[0]` on an empty playlist raises `IndexError`

  /** One line of the history log, before formatting. */
  datatype LogEntry = LogEntry(timestamp: string, url: string, artist: Option<string>, song: Option<string>)

  /** What one now-playing update does, in order. */
  datatype Activity =
    | Logged(entry: LogEntry)
    | Preview(artist: Option<string>, song: Option<string>)
    | FetchCover(url: string)
    | Final(artist: Option<string>, song: Option<string>, image: Option<string>)

  /** The event that `play()` produces. */
  function StartEvent(playlist: seq<string>): Event
  {
    if |playlist| == 0 then NoEntry else Play(playlist[0])
  }

  /** The event that end of stream produces once the cursor has moved to `index`. */
  function AdvanceEvent(playlist: seq<string>, index: nat): Event
  {
    if index < |playlist| then Play(playlist[index]) else Exit(0)
  }

  /** The events after `play()` and `n` ends of stream. */
  function Schedule(playlist: seq<string>, n: nat): seq<Event>
  {
    if n == 0 then [StartEvent(playlist)]
    else Schedule(playlist, n - 1) + [AdvanceEvent(playlist, n)]
  }

  /** Asking the backend to play every entry in order. */
  function Plays(playlist: seq<string>): (r: seq<Event>)
    ensures |r| == |playlist|
    ensures forall k :: 0 <= k < |playlist| ==> r[k] == Play(playlist[k])
  {
    seq(|playlist|, k requires 0 <= k < |playlist| => Play(playlist[k]))
  }

  /** Before the cursor passes the end, the entries up to it have been played in order. */
  lemma {:induction false} SchedulePlaysInOrder(playlist: seq<string>, n: nat)
    requires n < |playlist|
    ensures Schedule(playlist, n) == Plays(playlist[..n + 1])
  {
    if n > 0 {
      SchedulePlaysInOrder(playlist, n - 1);
      assert playlist[..n + 1] == playlist[..n] + [playlist[n]];
    }
  }

  /**
   * A playlist of `m` entries is played to the end after `m` ends of stream:
   * every entry once, in order, then exit with status 0.
   */
  lemma ScheduleEnds(playlist: seq<string>)
    requires |playlist| > 0
    ensures Schedule(playlist, |playlist|) == Plays(playlist) + [Exit(0)]
  {
    SchedulePlaysInOrder(playlist, |playlist| - 1);
    assert playlist[..|playlist|] == playlist;
  }

  /**
   * The activity of one now-playing update, given whether appending to the
   * history log succeeded and the image the fetcher produced. A failed log
   * append raises before anything else happens.
   */
  function NowPlayingActivity(artist: Option<string>, song: Option<string>, imgurl: Option<string>,
                              logOk: bool, timestamp: string, image: Option<string>): seq<Activity>
  {
    match imgurl
    case None => [Preview(artist, song), Final(artist, song, None)]
    case Some(url) =>
      if !logOk then []
      else [Logged(LogEntry(timestamp, url, artist, song)), Preview(artist, song), FetchCover(url), Final(artist, song, image)]
  }

  /**
   * The order of one update: when the log append fails, nothing at all;
   * otherwise a log entry and a cover lookup exactly when there is a cover
   * URL; the preview always, before the final display; the cover lookup
   * after the preview and before the final display; the final display
   * without image when there is no cover URL.
   */
  lemma NowPlayingOrder(artist: Option<string>, song: Option<string>, imgurl: Option<string>,
                        logOk: bool, timestamp: string, image: Option<string>)
    ensures var acts := NowPlayingActivity(artist, song, imgurl, logOk, timestamp, image);
      && (acts == [] <==> imgurl.Some? && !logOk)
      && (exists k :: 0 <= k < |acts| && acts[k].Logged?) == (imgurl.Some? && logOk)
      && (exists k :: 0 <= k < |acts| && acts[k].FetchCover?) == (imgurl.Some? && logOk)
      && (forall k :: 0 <= k < |acts| && acts[k].FetchCover? ==> acts[k].url == imgurl.value)
      && (acts != [] ==> exists p, f :: 0 <= p < f < |acts| && acts[p] == Preview(artist, song) && acts[f].Final?)
      && (forall f :: 0 <= f < |acts| && acts[f].FetchCover? ==>
            f < |acts| - 1 && exists p :: 0 <= p < f && acts[p] == Preview(artist, song))
      && (acts != [] ==> acts[|acts| - 1] == Final(artist, song, if imgurl.None? then None else image))
      && (forall k :: 0 <= k < |acts| && acts[k].Logged? ==> k == 0)
  {
    var acts := NowPlayingActivity(artist, song, imgurl, logOk, timestamp, image);
    if imgurl.Some? && logOk {
      assert acts[0].Logged? && acts[2].FetchCover?;
      assert acts[1] == Preview(artist, song) && acts[3].Final?;
    } else if imgurl.None? {
      assert acts[0] == Preview(artist, song) && acts[1].Final?;
    }
  }

  class Player {
    const playlist: seq<string>
    const fetcher: Cover.CoverFetcher
    const disk: Cover.Disk
    /** `currentplaylistitem`; meaningful once `started`. */
    var index: nat
    var started: bool
    /** The calls to the backend and to `sys.exit`, in order. */
    var events: seq<Event>
    /** Everything the now-playing updates did, in order. */
    var activity: seq<Activity>
    /** The history log file: one entry per update that had a cover URL. */
    var log: seq<LogEntry>

    ghost predicate Valid()
      reads this, fetcher
    {
      && fetcher.Valid()
      && (started ==> index <= |playlist| && events == Schedule(playlist, index))
      && (!started ==> events == [])
    }

    /** The player is waiting for the current entry to end. */
    predicate Playing()
      reads this
    {
      started && index < |playlist|
    }

    /**
     * `Player(playlisturl)` once the playlist document `doc` has been fetched;
     * the fetcher is the one it settled on.
     */
    constructor (doc: string, fetcher: Cover.CoverFetcher, disk: Cover.Disk)
      requires fetcher.Valid()
      ensures Valid()
      ensures playlist == Playlist.Parse(doc) && this.fetcher == fetcher && this.disk == disk
      ensures !started && events == [] && activity == [] && log == []
    {
      playlist := Playlist.Parse(doc);
      this.fetcher := fetcher;
      this.disk := disk;
      index := 0;
      started := false;
      events, activity, log := [], [], [];
    }

    /** `play()`: start at the first entry. */
    method Start()
      requires Valid() && !started
      modifies this
      ensures Valid() && started && index == 0
      ensures events == [StartEvent(playlist)]
      ensures Playing() <==> |playlist| > 0
      ensures activity == old(activity) && log == old(log)
    {
      index := 0;
      started := true;
      if |playlist| == 0 {
        events := events + [NoEntry];
      } else {
        events := events + [Play(playlist[index])];
      }
    }

    /** `_next()`, the end-of-stream callback: move one entry on, or exit when past the last. */
    method Next()
      requires Valid() && Playing()
      modifies this
      ensures Valid() && started && index == old(index) + 1
      ensures events == old(events) + [AdvanceEvent(playlist, index)]
      ensures Playing() <==> index < |playlist|
      ensures activity == old(activity) && log == old(log)
    {
      index := index + 1;
      if index >= |playlist| {
        events := events + [Exit(0)];
      } else {
        events := events + [Play(playlist[index])];
      }
    }

    /**
     * What one `_now_playing(artist, song, imgurl)` did, from the state
     * before it to the state after it. It raises exactly when there is a
     * cover URL and appending to the log fails, and then changes nothing.
     * Otherwise the entry is logged exactly when there is a cover URL, and
     * the image and the files are exactly what `get_image` returns and
     * leaves (`Cover.ImageOutcome`); without a cover URL there is no image
     * and the fetcher and the files are untouched.
     */
    twostate predicate Updated(artist: Option<string>, song: Option<string>, imgurl: Option<string>,
                               logOk: bool, timestamp: string, net: string -> Cover.Fetch,
                               write: Cover.WriteOutcome, new image: Option<string>, raised: bool)
      requires Valid()
      reads this, fetcher, disk
    {
      var fetched := imgurl.Some? && logOk;
      && events == old(events) && index == old(index) && started == old(started)
      && raised == (imgurl.Some? && !logOk)
      && activity == old(activity) + NowPlayingActivity(artist, song, imgurl, logOk, timestamp, image)
      && log == old(log) + (if fetched then [LogEntry(timestamp, imgurl.value, artist, song)] else [])
      && disk.dirs == old(disk.dirs)
      && (!fetched ==> image == None && disk.files == old(disk.files) && fetcher.imgPath == old(fetcher.imgPath))
      && (fetched ==>
            var target := fetcher.Target(imgurl.value);
            && fetcher.imgPath == Some(target)
            && (fetcher.store.Scratch? ==> fetcher.imgPath == old(fetcher.imgPath))
            && Cover.ImageOutcome(fetcher.store.Cache? && old(disk.Exists(target)), target,
                                  Cover.Candidates(imgurl.value, fetcher.sizePref), net, write,
                                  old(disk.files), image, disk.files))
    }

    /**
     * `_now_playing(artist, song, imgurl)`: log, preview, look the cover up,
     * show. Appending to the log succeeds when `logOk`, the network answers
     * `net`, writing the image ends with `write`, and `timestamp` is the
     * current time. `raised` tells that the log append raised out of the call.
     */
    method NowPlaying(artist: Option<string>, song: Option<string>, imgurl: Option<string>, logOk: bool,
                      timestamp: string, net: string -> Cover.Fetch, write: Cover.WriteOutcome)
      returns (image: Option<string>, raised: bool)
      requires Valid()
      modifies this, fetcher, disk
      ensures Valid() && Updated(artist, song, imgurl, logOk, timestamp, net, write, image, raised)
    {
      if imgurl.None? {
        activity := activity + [Preview(artist, song), Final(artist, song, None)];
        return None, false;
      }
      if !logOk {
        return None, true;
      }
      image := ShowWithCover(artist, song, imgurl.value, timestamp, net, write);
      raised := false;
    }

    /** `_now_playing` once the log entry can be appended: log, preview, fetch the cover, show. */
    method ShowWithCover(artist: Option<string>, song: Option<string>, url: string,
                         timestamp: string, net: string -> Cover.Fetch, write: Cover.WriteOutcome)
      returns (image: Option<string>)
      requires Valid()
      modifies this, fetcher, disk
      ensures Valid() && Updated(artist, song, Some(url), true, timestamp, net, write, image, false)
    {
      var entry := LogEntry(timestamp, url, artist, song);
      log, activity := log + [entry], activity + [Logged(entry), Preview(artist, song), FetchCover(url)];
      var tried;
      image, tried := fetcher.GetImage(url, net, write, disk);
      activity := activity + [Final(artist, song, image)];
    }
  }

  /**
   * The callbacks a backend was constructed with: `update_cb` is
   * `_now_playing`, `eos_cb` is `_next`; the other reactions do not reach
   * the player.
   */
  method Deliver(p: Player, r: Backends.Reaction, logOk: bool, timestamp: string,
                 net: string -> Cover.Fetch, write: Cover.WriteOutcome)
    returns (image: Option<string>, raised: bool)
    requires p.Valid() && p.Playing()
    modifies p, p.fetcher, p.disk
    ensures p.Valid()
    ensures r.EndOfStream? ==> p.index == old(p.index) + 1 && p.events == old(p.events) + [AdvanceEvent(p.playlist, p.index)]
    ensures !r.EndOfStream? ==> p.index == old(p.index) && p.events == old(p.events)
    ensures !r.Update? ==> image == None && !raised
    ensures !r.Update? ==> p.activity == old(p.activity) && p.log == old(p.log)
    ensures !r.Update? ==>
      p.disk.files == old(p.disk.files) && p.fetcher.imgPath == old(p.fetcher.imgPath)
    ensures p.disk.dirs == old(p.disk.dirs)
    ensures r.Update? ==> p.Updated(r.artist, r.song, r.cover, logOk, timestamp, net, write, image, raised)
  {
    match r {
      case EndOfStream =>
        p.Next();
        image, raised := None, false;
      case Update(artist, song, cover) =>
        image, raised := p.NowPlaying(artist, song, cover, logOk, timestamp, net, write);
      case _ =>
        image, raised := None, false;
    }
  }

  /**
   * A two-entry playlist: the first end of stream plays the second entry,
   * the second one exits with status 0 and plays nothing more.
   */
  method TwoEntries(p: Player)
    requires p.Valid() && !p.started && |p.playlist| == 2
    modifies p
    ensures p.events == [Play(p.playlist[0]), Play(p.playlist[1]), Exit(0)]
    ensures !p.Playing()
  {
    p.Start();
    p.Next();
    assert p.events == [Play(p.playlist[0]), Play(p.playlist[1])];
    p.Next();
  }
}
