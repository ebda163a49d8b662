# RP, a micro Radio Paradise player — a Dafny model

RP plays the Radio Paradise stream listed in a playlist file, reads the
now-playing metadata (artist, song, cover URL) the stream carries, and turns
the cover URL into a local image file for display. This project models the
logic of `RP.py` beneath its I/O:

- **Text** (`text.dfy`): the Python string operations the player relies on —
  `find`, `replace`, `split(c)`, `split(sep, 1)` unpacked into two names, and
  `strip` — with the meaning Python gives them.
- **Cover** (`cover.dfy`): the cover fetchers. The size preference is
  normalised to `'l'`, `'s'` or nothing; the candidate URLs are the
  preferred-size variant (when the URL holds `graphics/covers/m`) followed by
  the announced URL; the download loop accepts the first payload longer than
  807 bytes; the image is written to the fetcher's target file. The cache
  variant targets `<coverdir>/<basename of the URL>` and returns an existing
  file without fetching; the temporary variant writes one scratch file and
  removes it on release. The network is a function `net(url)` from URL to
  `Failed | Payload(bytes)`, the outcome of writing is a parameter
  (`Written | OpenFailed | WriteFailed`), and the file system is a `Disk`
  object (files and directories).
- **Icy** (`icy.dfy`): the external-player backend's metadata line parser,
  as a loop method proved equal to a fold over the `;`-separated tokens, with
  the reference characterisation "each field comes from the last token
  naming it", the exact condition under which it raises, and the round trip
  from an announced `(artist, song, url)` to its line and back.
- **Backends** (`backends.dfy`): what the native pipeline's bus callback does
  with an error, end-of-stream, tag or other message, and what the external
  player backend does with each output line and with a whole session.
- **Playlist** (`playlist.dfy`): the playlist comprehension.
- **PlayerModel** (`player.dfy`): the `Player` class — the cursor into the
  playlist advanced by end of stream, the now-playing sequence (log, preview,
  cover lookup, final display), and the wiring of the backend callbacks.

The model follows what the code does, including these behaviours that are easy to miss:

- The ICY parser strips every leading and trailing `'` of a value
  (`strip("'")`), not one enclosing pair.
- The ICY parser does not return "no metadata" for malformed lines: a token
  of two or more characters without `=`, or a `StreamTitle` without `" - "`,
  raises `ValueError`; the model returns `Malformed(token)`.
- The external-player backend never calls the end-of-stream callback: when
  the player process ends, `play` calls `sys.exit(1)` (`Backends.Session`).
- Blank lines are dropped from the playlist only when they have at most one
  character; a kept line of whitespace becomes an empty entry
  (`Playlist.BlankLineKeptEmpty`), and any one-character line is dropped.
- A cover whose write fails after `open` leaves a truncated file at the cache
  target, which the next request returns as a cached cover without fetching
  (`Cover.FailedWriteIsCached`).
- A missing cover URL in an ICY line is `""`, not absent, so the player logs
  it and asks the fetcher for `""`.

## Model

| member | source | states |
|---|---|---|
| Text.Find | RP.py:46 | `find` returns -1 exactly when the pattern does not occur, otherwise an index where it occurs with no earlier occurrence |
| Text.ReplaceAll | RP.py:48 | `replace` leaves a string without the pattern unchanged; otherwise the text before the first occurrence is kept and the replacement stands at that position |
| Text.ReplaceAllIsScan | RP.py:48 | `replace` equals an independent left-to-right scan that emits the replacement wherever the pattern starts and skips past it, and copies every other character, so every non-overlapping occurrence is replaced |
| Text.ReplaceBySelf | RP.py:48 | replacing a pattern by itself gives the string back |
| Text.Split | RP.py:169 | `split(';')` yields at least one part |
| Text.SplitPartsFree | RP.py:169 | no part of a split contains the separator |
| Text.JoinSplit | RP.py:169 | joining the parts with the separator gives the original string back |
| Text.SplitOnce | RP.py:172 | `a, b = s.split(sep, 1)` fails exactly when `sep` does not occur; otherwise `a + sep + b == s` and `a` holds no `sep` (the split is at the first occurrence) |
| Text.Strip | RP.py:174 | the stripped text neither starts nor ends with a stripped character |
| Text.StripSlice | RP.py:174 | the stripped text is one slice of the input and every character outside it is a stripped one, however many there are |
| Cover.NormalizeSizePref | RP.py:36-41 | the preference is Large exactly for `'l'`, Small exactly for `'s'`, and `None` for every other value |
| Cover.Candidates | RP.py:43-50 | one or two candidates, the announced URL always last; two exactly when the URL contains `graphics/covers/m` and a preference is set, the first being the URL with every marker replaced by the sized one |
| Cover.PreferredVariantDiffers | RP.py:46-48 | the preferred variant agrees with the URL before the first marker, holds the sized marker there and differs from the URL, so no URL is fetched twice |
| Cover.FirstAccepted | RP.py:54-64 | the chosen candidate's fetch succeeded with more than 807 bytes and every earlier candidate failed or was a placeholder; with no choice, every candidate was rejected |
| Cover.FetchFirst | RP.py:52-66 | the download loop fetches the candidates in order up to and including the first accepted one and no further, returns that payload, and returns no content after fetching them all when none is accepted |
| Cover.Basename | RP.py:85 | `posixpath.basename` is the suffix after the last `/` and contains no `/` |
| Cover.CachePath | RP.py:85 | the cache target lies directly inside the cover directory: it starts with `<coverdir>/` and has no further `/` |
| Cover.CachePathsCollide | RP.py:85 | two URLs share a cache file exactly when their last path segments are equal |
| Cover.DirectoryNamedCoverExists | RP.py:85-88 | when the URL's last segment is empty, `.` or `..`, the cache target names the cover directory, which exists |
| Cover.EmptyBasename | RP.py:85 | a URL's last segment is empty exactly when the URL is empty or ends in `/` |
| Cover.AfterWrite | RP.py:68-71 | a successful write stores the image at the target; a failed `open` changes nothing; a failed write leaves an empty target; no other file changes |
| Cover.CoverFetcher.Cached | RP.py:77-81 | the cache fetcher targets `<cachedir>/covers`, creates that directory and normalises the preference |
| Cover.CoverFetcher.Temporary | RP.py:93-97 | the temporary fetcher creates an empty fresh file and targets it |
| Cover.CoverFetcher.GetImage | RP.py:43-90 | the cache variant records its target in `imgpath` and the temporary one keeps its file; the result and the new files are `ImageOutcome`'s: a cache hit (`os.path.exists`, which also holds for the cover directory named with a trailing `/`, `/.` or `/..`) returns the target with no fetch and no change; otherwise the URLs tried are those of `FetchFirst`, nothing is returned when no candidate is accepted, and after acceptance the result is the target exactly when the write succeeds, with the disk holding the image, unchanged, or a truncated file |
| Cover.Download | RP.py:52-74 | the download loop then the write: the URLs tried are those of `FetchFirst`, and the result and the new files are `ImageOutcome`'s without a cache hit; directories never change |
| Cover.CoverFetcher.Release | RP.py:99-101 | releasing the temporary fetcher removes its file if it still exists; the cache fetcher removes nothing |
| Cover.CachedTwice | RP.py:83-90 | after a cover is fetched and stored, a second request for the same URL returns the same path and fetches nothing |
| Cover.FailedWriteIsCached | RP.py:68-73 | after an accepted download whose write fails, the truncated target is later returned as a cached cover with no fetch |
| Cover.DirectoryUrlIsCached | RP.py:83-88 | an empty URL, or one ending in `/`, makes the cache variant return `<coverdir>/` with no fetch |
| Icy.Absorb | RP.py:169-177 | a token fails exactly when it is bad; a token shorter than two characters changes nothing |
| Icy.Scan | RP.py:169-178 | the token walk never yields "no metadata", and a failure names a bad token of the line |
| Icy.ParseIcy | RP.py:161-178 | a line yields `(None, None, None)` exactly when it lacks `ICY Info: StreamTitle=` |
| Icy.ParseIcyInfo | RP.py:161-178 | the parser loop returns what `ParseIcy` specifies |
| Icy.ScanTakesLast | RP.py:167-178 | without a bad token, each field is set by the last token naming it and keeps its value otherwise |
| Icy.InfoFromLastTokens | RP.py:167-178 | the URL is the quote-stripped value of the last `StreamUrl` token, artist and song split the quote-stripped last `StreamTitle` at its first `" - "`, and absent keys give `""` |
| Icy.ScanFailsOnBadToken | RP.py:170-175 | the token walk fails exactly when some token is bad |
| Icy.MalformedIffBadToken | RP.py:164-175 | a line raises exactly when it is an info line with a token lacking `=` or a title lacking `" - "` |
| Icy.SplitTitle | RP.py:175 | splitting `artist + " - " + song` at its first `" - "` gives back artist and song exactly when `artist + " "` holds no `" - "` |
| Icy.ParseIcyLine | RP.py:161-178 | the line announcing `artist - song` with a URL parses back to exactly that artist, song and URL, whenever the fields hold no `;`, the artist's separator condition of `SplitTitle` holds and stripping quotes takes nothing from them |
| Icy.SampleLine | RP.py:163 | the sample line gives `Jimi Hendrix`, `The Wind Cries Mary` and its cover URL |
| Backends.GatherTags | RP.py:136-147 | gathering tags yields an update, a raise or nothing, and nothing exactly when no update was pending and no tag is a title or a homepage |
| Backends.Dispatch | RP.py:125-147 | a message stops the pipeline exactly when it is an error and calls the end-of-stream callback exactly when it is end of stream; other messages do nothing |
| Backends.OnMessage | RP.py:125-147 | the callback's tag loop returns what `Dispatch` specifies |
| Backends.GatherRaisesOnBadTitle | RP.py:138-141 | gathering raises exactly when some title tag lacks `" - "`, and the value raised on is that of the first such tag |
| Backends.GatherTakesLast | RP.py:136-147 | without a bad title, an update happens exactly when a title or homepage was seen; its fields come from the last title and the last homepage |
| Backends.TagMessage | RP.py:136-147 | a tag message gives at most one update, exactly when it has a title or homepage and every title splits; the title is split at its first `" - "` and the cover is the last homepage |
| Backends.LineReaction | RP.py:189-196 | an output line triggers nothing exactly when it lacks the info marker; it raises exactly when the parser finds it malformed, on the parser's bad token; an info line passes exactly the parsed artist, song and URL to the update callback; a line never stops or ends the stream |
| Backends.AnnouncedLineUpdates | RP.py:189-196 | a line announcing `artist - song` with a cover URL passes exactly those three values to the update callback |
| Backends.Session | RP.py:189-199 | a session only raises updates, never more than its lines, and ends with exit status 1 unless a line raised |
| Backends.RunSession | RP.py:189-199 | the read loop returns what `Session` specifies |
| Backends.SessionReportsEveryInfoLine | RP.py:189-196 | with no malformed line, every info line is reported once, in order, and the session exits with status 1 |
| Playlist.KeptLines | RP.py:203-205 | the playlist has no more entries than the document has lines, and no entry starts or ends with whitespace |
| Playlist.Parse | RP.py:203-204 | the document gives at most one entry per line, each without whitespace at either end |
| Playlist.KeptLinesAppend | RP.py:203-205 | filtering distributes over concatenation, so the order of the lines is kept |
| Playlist.EntriesComeFromKeptLines | RP.py:203-205 | every entry is a stripped line longer than one character not starting with `#` |
| Playlist.KeptLinesAreEntries | RP.py:203-205 | every line longer than one character not starting with `#` is, stripped, an entry |
| Playlist.BlankLineKeptEmpty | RP.py:203-205 | a kept line made only of whitespace becomes an empty entry |
| Playlist.SampleDocument | RP.py:203-205 | `"http://a\n#c\n\nhttp://b\n"` gives exactly `http://a`, `http://b` |
| PlayerModel.SchedulePlaysInOrder | RP.py:242-250 | before the cursor passes the end, the entries up to it have been played, each once, in order |
| PlayerModel.ScheduleEnds | RP.py:242-250 | after as many ends of stream as entries, every entry was played once in order and the process exits with status 0 |
| PlayerModel.NowPlayingOrder | RP.py:224-239 | an update whose log append raises does nothing at all; otherwise it logs first and fetches the cover exactly when there is a cover URL, previews before the final display, fetches the cover after the preview and before the final display, and shows no image without a cover URL |
| PlayerModel.Player.constructor | RP.py:202-205 | the playlist is the parsed document and nothing has been played |
| PlayerModel.Player.Start | RP.py:248-250 | `play` sets the cursor to 0 and plays the first entry, or fails on an empty playlist |
| PlayerModel.Player.Next | RP.py:242-246 | end of stream raises the cursor by one and plays that entry, or exits with status 0 once the cursor reaches the length |
| PlayerModel.Player.NowPlaying | RP.py:224-239 | `Updated`: the call raises exactly when there is a cover URL and the log append fails, and then changes nothing; otherwise it appends the activity of `NowPlayingActivity` and logs exactly when there is a cover URL; without one the image is none and the disk and fetcher are untouched; with one the image and the new files are exactly `get_image`'s (`Cover.ImageOutcome`); directories never change |
| PlayerModel.Player.ShowWithCover | RP.py:226-239 | with a cover URL and a working log: one log entry, the preview, the cover lookup and the final display, with `get_image`'s image and files (`Updated` with the log append succeeding) |
| PlayerModel.Deliver | RP.py:207-210 | end of stream reaches `_next`; an update reaches `_now_playing` with everything `Updated` states (raise on a failed log append, log, activity, image, files, fetcher); any other reaction returns no image, raises nothing and leaves the player's log, activity, files and fetcher unchanged |
| PlayerModel.TwoEntries | RP.py:242-250 | on a two-entry playlist the first end of stream plays entry 1 and the second exits with status 0 and plays nothing more |

## Left out

- Network fetches (`urlopen`) and file reads and writes are not performed: a fetch is the caller's `net(url)` answer, a write is the caller's `WriteOutcome`, and the file system is the `Disk` object.
- The contents a failed write leaves behind are modelled as an empty file; a partial write's prefix is not modelled.
- `os.makedirs` failing in the cache fetcher's constructor, and the fallbacks from `GstreamerBackend` to `MplayerBackend` and from `CachedCoverFetcher` to `TmpCoverFetcher` in `Player.__init__`, are not modelled: they are exception-driven choices between two constructors.
- The GStreamer pipeline, bus and `gobject` set-up and the icydemux version check via `pkg_resources.parse_version` are foreign library calls.
- Spawning the external player (`Popen`), `poll`, `readline`, `KeyboardInterrupt` handling and the `sys.exit(1)` when it cannot be spawned are process plumbing; `Backends.RunSession` takes the lines the player printed as input.
- Printing to the console, the no-op display sinks, `main()` and its glib main loop are not modelled; the preview and final displays are recorded as `Activity` values.
- Appending to the history log either succeeds whole or raises before writing (`logOk`); a partial line left by a failing `write` is not modelled. What the raise then does to the program is not modelled either: the native pipeline's bus drops it, while under the external player it ends the read loop and the process.
- Log timestamps are a parameter and log lines are kept as `LogEntry` records: `time.strftime` formatting and the `"%s"` rendering are not modelled.
- Environment variables, home-directory expansion and the log directory creation are left out; so is the Python 2/3 `b()` decoding (text is a sequence of characters).
- `Text.IsSpace` is the whitespace of a Python 2 byte string (space, tab, newline, vertical tab, form feed, carriage return); the wider Unicode whitespace of Python 3 `str.strip()` is not modelled.
- Text.ReplaceAll: requires a non-empty pattern, because the source only replaces the literal `graphics/covers/m`; Python's behaviour for an empty pattern is not modelled.
- Path normalisation beyond a directory named with a trailing `/`, `/.` or `/..` (repeated slashes, `..` in the middle of a path, symbolic links) is not modelled by `Cover.PathExists`; the cover paths the fetchers build only ever end in such a segment.
- Text.SplitOnce: requires a non-empty separator, because the source only splits on `=` and `" - "`.
- PlayerModel.Player.Start: requires that `play` was not called before, because the program calls it once.
- `pygst-test.py` is a demonstration script with no logic of its own and is not part of this model.
