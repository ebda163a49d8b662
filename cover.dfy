/**
 * Cover-art resolution: from the image URL a station announces to a local
 * file, trying a preferred-size variant first, rejecting placeholder
 * images, and (for the cache variant) reusing a file fetched earlier.
 *
 * The network and the file system are not modelled as I/O: a fetch is an
 * answer `net(url)` supplied by the caller, the outcome of writing the image
 * is supplied as `write`, and the file system is a `Disk` object holding a
 * map of files and a set of directories.
 */
module Cover {
  import opened Wrappers
  import opened Text

  /** The path segment that marks a medium-size Radio Paradise cover. */
  const MediumMarker := "graphics/covers/m"
  /** Payloads of at most this many bytes are placeholders (an empty 1x1 GIF). */
  const PlaceholderLimit := 807

  type byte = bv8

  /** The accepted size preferences: `'l'` (large) and `'s'` (small). */
  datatype SizePref = Large | Small

  /** The letter that replaces the `m` of the medium marker. */
  function SizeLetter(p: SizePref): string
  {
    match p
    case Large => "l"
    case Small => "s"
  }

  /** `_CoverFetcher.__init__`: any preference other than `'l'` or `'s'` becomes `None`. */
  function NormalizeSizePref(pref: Option<string>): (r: Option<SizePref>)
    ensures r == Some(Large) <==> pref == Some("l")
    ensures r == Some(Small) <==> pref == Some("s")
    ensures r == None <==> pref != Some("l") && pref != Some("s")
  {
    if pref == Some("l") then Some(Large)
    else if pref == Some("s") then Some(Small)
    else None
  }

  /** The marker with the preferred size in place of `m`. */
  function SizedMarker(p: SizePref): string
  {
    "graphics/covers/" + SizeLetter(p)
  }

  /**
   * The URLs `get_image` tries, in order: the preferred-size variant first
   * when the URL holds the medium marker and a preference is set, and the
   * announced URL always last.
   */
  function Candidates(imgurl: string, pref: Option<SizePref>): (r: seq<string>)
    ensures 1 <= |r| <= 2 && r[|r| - 1] == imgurl
    ensures |r| == 2 <==> Contains(imgurl, MediumMarker) && pref.Some?
    ensures |r| == 2 ==> r[0] == ReplaceAll(imgurl, MediumMarker, SizedMarker(pref.value))
  {
    if Find(imgurl, MediumMarker) != -1 && pref != None then
      [ReplaceAll(imgurl, MediumMarker, SizedMarker(pref.value)), imgurl]
    else
      [imgurl]
  }

  /**
   * The preferred-size variant is a different URL from the announced one:
   * it agrees up to the first medium marker and holds the sized marker there,
   * so no URL is fetched twice.
   */
  lemma PreferredVariantDiffers(imgurl: string, pref: SizePref)
    requires Contains(imgurl, MediumMarker)
    ensures var i := Find(imgurl, MediumMarker);
      var v := Candidates(imgurl, Some(pref))[0];
      && v[..i] == imgurl[..i]
      && OccursAt(v, SizedMarker(pref), i)
      && v != imgurl
  {
    var i := Find(imgurl, MediumMarker);
    var v := Candidates(imgurl, Some(pref))[0];
    assert v[i..i + |SizedMarker(pref)|] == SizedMarker(pref);
    assert imgurl[i..i + |MediumMarker|] == MediumMarker;
    assert v[i + 16] == SizedMarker(pref)[16] != MediumMarker[16] == imgurl[i + 16];
  }

  /** What one fetch of a URL gives. */
  datatype Fetch = Failed | Payload(data: seq<byte>)

  /** A fetch that yields a real image: a payload above the placeholder limit. */
  predicate Acceptable(f: Fetch)
  {
    f.Payload? && |f.data| > PlaceholderLimit
  }

  /** The index of the first candidate at or after `k` whose fetch is acceptable. */
  function FirstAcceptedFrom(cands: seq<string>, net: string -> Fetch, k: nat): (r: Option<nat>)
    requires k <= |cands|
    ensures r.Some? ==> k <= r.value < |cands| && Acceptable(net(cands[r.value]))
    ensures forall j :: k <= j < |cands| && (r.None? || j < r.value) ==> !Acceptable(net(cands[j]))
    decreases |cands| - k
  {
    if k == |cands| then None
    else if Acceptable(net(cands[k])) then Some(k)
    else FirstAcceptedFrom(cands, net, k + 1)
  }

  /** The index of the first candidate whose fetch is acceptable, if any. */
  function FirstAccepted(cands: seq<string>, net: string -> Fetch): (r: Option<nat>)
    ensures r.Some? ==> r.value < |cands| && Acceptable(net(cands[r.value]))
    ensures forall j :: 0 <= j < |cands| && (r.None? || j < r.value) ==> !Acceptable(net(cands[j]))
  {
    FirstAcceptedFrom(cands, net, 0)
  }

  /**
   * The download loop of `get_image`: fetch each candidate in turn, skip
   * failures and placeholders, stop at the first real image. Returns the
   * image and the URLs fetched, in order.
   */
  method FetchFirst(cands: seq<string>, net: string -> Fetch) returns (content: Option<seq<byte>>, tried: seq<string>)
    ensures match FirstAccepted(cands, net)
      case None => content == None && tried == cands
      case Some(i) => content == Some(net(cands[i]).data) && tried == cands[..i + 1]
  {
    content := None;
    tried := [];
    var k := 0;
    while k < |cands|
      invariant 0 <= k <= |cands|
      invariant tried == cands[..k]
      invariant forall j :: 0 <= j < k ==> !Acceptable(net(cands[j]))
    {
      var url := cands[k];
      var page := net(url);
      tried := tried + [url];
      if page.Payload? && |page.data| > PlaceholderLimit {
        content := Some(page.data);
        assert FirstAccepted(cands, net) == Some(k);
        return;
      }
      k := k + 1;
    }
    assert tried == cands;
  }

  /** `posixpath.basename`: the text after the last `/`. */
  function Basename(path: string): (r: string)
    ensures '/' !in r
    ensures |r| <= |path| && path[|path| - |r|..] == r
    ensures |r| < |path| ==> path[|path| - |r| - 1] == '/'
    decreases |path|
  {
    if |path| == 0 || path[|path| - 1] == '/' then ""
    else Basename(path[..|path| - 1]) + [path[|path| - 1]]
  }

  /**
   * Where the cache variant keeps the cover of `imgurl`: directly inside
   * `coverDir`, under the URL's last path segment.
   */
  function CachePath(coverDir: string, imgurl: string): (r: string)
    ensures |r| > |coverDir| && r[..|coverDir| + 1] == coverDir + "/"
    ensures '/' !in r[|coverDir| + 1..]
  {
    var r := coverDir + "/" + Basename(imgurl);
    assert r[|coverDir| + 1..] == Basename(imgurl);
    r
  }

  /**
   * Two URLs share a cache file exactly when their last path segments are
   * equal, whatever the rest of the URLs says.
   */
  lemma CachePathsCollide(coverDir: string, u1: string, u2: string)
    ensures CachePath(coverDir, u1) == CachePath(coverDir, u2) <==> Basename(u1) == Basename(u2)
  {
    var n := |coverDir| + 1;
    if CachePath(coverDir, u1) == CachePath(coverDir, u2) {
      assert CachePath(coverDir, u1)[n..] == Basename(u1);
      assert CachePath(coverDir, u2)[n..] == Basename(u2);
    }
  }

  /**
   * `os.path.exists` over a file system of `files` and `dirs`: a file, a
   * directory, or a directory named with a trailing `/`, `/.` or `/..`
   * (the kernel resolves each of these to a directory that exists).
   */
  predicate PathExists(files: map<string, seq<byte>>, dirs: set<string>, path: string)
  {
    || path in files
    || path in dirs
    || (|path| >= 1 && path[|path| - 1..] == "/" && path[..|path| - 1] in dirs)
    || (|path| >= 2 && path[|path| - 2..] == "/." && path[..|path| - 2] in dirs)
    || (|path| >= 3 && path[|path| - 3..] == "/.." && path[..|path| - 3] in dirs)
  }

  /**
   * A URL whose last segment is empty, `.` or `..` names the cover
   * directory itself, which exists: the cache variant reports it as a
   * cached cover.
   */
  lemma DirectoryNamedCoverExists(files: map<string, seq<byte>>, dirs: set<string>, coverDir: string, imgurl: string)
    requires coverDir in dirs
    requires Basename(imgurl) in {"", ".", ".."}
    ensures PathExists(files, dirs, CachePath(coverDir, imgurl))
  {
    DirectoryEntryExists(files, dirs, coverDir, Basename(imgurl));
  }

  /** `d + "/" + b` exists when `d` is a directory and `b` is empty, `.` or `..`. */
  lemma DirectoryEntryExists(files: map<string, seq<byte>>, dirs: set<string>, d: string, b: string)
    requires d in dirs && b in {"", ".", ".."}
    ensures PathExists(files, dirs, d + "/" + b)
  {
    var path := d + "/" + b;
    if b == "" {
      assert path[|path| - 1..] == "/" && path[..|path| - 1] == d;
    } else if b == "." {
      assert path[|path| - 2..] == "/." && path[..|path| - 2] == d;
    } else {
      assert path[|path| - 3..] == "/.." && path[..|path| - 3] == d;
    }
  }

  /** A URL has an empty last segment exactly when it is empty or ends in `/`. */
  lemma EmptyBasename(imgurl: string)
    ensures Basename(imgurl) == "" <==> imgurl == "" || imgurl[|imgurl| - 1] == '/'
  {
  }

  /** The outcome of opening and writing the target file. */
  datatype WriteOutcome =
    | Written       // the whole image is on disk
    | OpenFailed    // `open` raised: nothing changed on disk
    | WriteFailed   // `open` truncated the file, then `write` or `close` raised

  /** The file system as the fetchers see it. */
  class Disk {
    var files: map<string, seq<byte>>
    var dirs: set<string>

    /** `os.path.exists`. */
    predicate Exists(path: string)
      reads this
    {
      PathExists(files, dirs, path)
    }

    constructor (files0: map<string, seq<byte>>, dirs0: set<string>)
      ensures files == files0 && dirs == dirs0
    {
      files, dirs := files0, dirs0;
    }
  }

  /** Where a fetcher puts its image. */
  datatype Store =
    | Cache(coverDir: string)   // `CachedCoverFetcher`: one file per basename under `coverDir`
    | Scratch                   // `TmpCoverFetcher`: one temporary file, reused

  /**
   * The files a completed download leaves behind: the image itself, or a
   * truncated file when writing failed after opening.
   */
  function AfterWrite(files: map<string, seq<byte>>, target: string, image: seq<byte>, write: WriteOutcome): (r: map<string, seq<byte>>)
    ensures write == OpenFailed ==> r == files
    ensures write == Written ==> target in r && r[target] == image
    ensures write == WriteFailed ==> target in r && r[target] == []
    ensures r.Keys - {target} == files.Keys - {target}
    ensures forall k :: k in files && k != target ==> k in r && r[k] == files[k]
  {
    match write
    case Written => files[target := image]
    case OpenFailed => files
    case WriteFailed => files[target := []]
  }

  /**
   * What `get_image` returns and leaves on disk, from the files `files0`
   * before the call to `files1` after it: on a cache `hit` the target with
   * nothing changed; otherwise nothing when no candidate is accepted, and
   * after the first accepted candidate the target exactly when the write
   * succeeds, with the files `AfterWrite` describes.
   */
  predicate ImageOutcome(hit: bool, target: string, cands: seq<string>, net: string -> Fetch, write: WriteOutcome,
                         files0: map<string, seq<byte>>, image: Option<string>, files1: map<string, seq<byte>>)
  {
    if hit then image == Some(target) && files1 == files0
    else
      match FirstAccepted(cands, net)
      case None => image == None && files1 == files0
      case Some(i) =>
        && image == (if write == Written then Some(target) else None)
        && files1 == AfterWrite(files0, target, net(cands[i]).data, write)
  }

  /**
   * The part of `get_image` shared by both fetchers: the download loop over
   * `cands`, then writing the image to `target`.
   */
  method Download(cands: seq<string>, target: string, net: string -> Fetch, write: WriteOutcome, disk: Disk)
    returns (r: Option<string>, tried: seq<string>)
    modifies disk
    ensures disk.dirs == old(disk.dirs)
    ensures ImageOutcome(false, target, cands, net, write, old(disk.files), r, disk.files)
    ensures match FirstAccepted(cands, net)
      case None => tried == cands
      case Some(i) => tried == cands[..i + 1]
  {
    var content;
    content, tried := FetchFirst(cands, net);
    if content == None {
      return None, tried;
    }
    match write {
      case Written =>
        disk.files := disk.files[target := content.value];
        r := Some(target);
      case OpenFailed =>
        r := None;
      case WriteFailed =>
        disk.files := disk.files[target := []];
        r := None;
    }
  }

  class CoverFetcher {
    const sizePref: Option<SizePref>
    const store: Store
    /** `self.imgpath`: set by the constructor (scratch) or by each call (cache). */
    var imgPath: Option<string>

    ghost predicate Valid()
      reads this
    {
      store.Scratch? ==> imgPath.Some?
    }

    /** `CachedCoverFetcher(cachedir, sizepref)`: creates `<cachedir>/covers`. */
    constructor Cached(cacheDir: string, pref: Option<string>, disk: Disk)
      modifies disk
      ensures Valid()
      ensures store == Cache(cacheDir + "/covers") && sizePref == NormalizeSizePref(pref) && imgPath == None
      ensures disk.dirs == old(disk.dirs) + {cacheDir + "/covers"} && disk.files == old(disk.files)
    {
      store := Cache(cacheDir + "/covers");
      sizePref := NormalizeSizePref(pref);
      imgPath := None;
      if cacheDir + "/covers" !in disk.dirs {
        disk.dirs := disk.dirs + {cacheDir + "/covers"};
      }
    }

    /** `TmpCoverFetcher(sizepref)`: creates the empty temporary file `tmpName`. */
    constructor Temporary(tmpName: string, pref: Option<string>, disk: Disk)
      requires !disk.Exists(tmpName)
      modifies disk
      ensures Valid()
      ensures store == Scratch && sizePref == NormalizeSizePref(pref) && imgPath == Some(tmpName)
      ensures disk.files == old(disk.files)[tmpName := []] && disk.dirs == old(disk.dirs)
    {
      store := Scratch;
      sizePref := NormalizeSizePref(pref);
      imgPath := Some(tmpName);
      disk.files := disk.files[tmpName := []];
    }

    /** The file this fetcher writes the cover of `imgurl` to. */
    function Target(imgurl: string): string
      requires Valid()
      reads this
    {
      match store
      case Cache(dir) => CachePath(dir, imgurl)
      case Scratch => imgPath.value
    }

    /**
     * `get_image(imgurl)`: the local path of the cover, or `None`.
     * `tried` lists the URLs fetched, in order.
     */
    method GetImage(imgurl: string, net: string -> Fetch, write: WriteOutcome, disk: Disk)
      returns (r: Option<string>, tried: seq<string>)
      requires Valid()
      modifies this, disk
      ensures Valid() && Target(imgurl) == old(Target(imgurl))
      ensures imgPath == Some(Target(imgurl))
      ensures disk.dirs == old(disk.dirs)
      ensures r.Some? ==> r.value == Target(imgurl)
      ensures store.Scratch? ==> imgPath == old(imgPath)
      ensures var target := Target(imgurl);
        ImageOutcome(store.Cache? && old(disk.Exists(target)), target,
                     Candidates(imgurl, sizePref), net, write, old(disk.files), r, disk.files)
      // a cache hit fetches nothing; otherwise the download loop fetches
      ensures store.Cache? && old(disk.Exists(Target(imgurl))) ==> tried == []
      ensures !(store.Cache? && old(disk.Exists(Target(imgurl)))) ==>
        var cands := Candidates(imgurl, sizePref);
        match FirstAccepted(cands, net)
        case None => tried == cands
        case Some(i) => tried == cands[..i + 1]
    {
      var target := Target(imgurl);
      var hit := store.Cache? && disk.Exists(target);
      if store.Cache? {
        imgPath := Some(target);
      }
      if hit {
        return Some(target), [];
      }
      r, tried := Download(Candidates(imgurl, sizePref), target, net, write, disk);
    }

    /** `TmpCoverFetcher.__del__`: the temporary file is removed if it is still there. */
    method Release(disk: Disk)
      requires Valid()
      modifies disk
      ensures disk.dirs == old(disk.dirs)
      ensures store.Scratch? ==> disk.files == old(disk.files) - {imgPath.value}
      ensures store.Cache? ==> disk.files == old(disk.files)
    {
      if store.Scratch? && imgPath.value in disk.files {
        disk.files := disk.files - {imgPath.value};
      }
    }
  }

  /**
   * A cover fetched and stored once is found in the cache the next time:
   * the second request for the same URL fetches nothing.
   */
  method CachedTwice(fetcher: CoverFetcher, imgurl: string, net1: string -> Fetch, net2: string -> Fetch,
                     write2: WriteOutcome, disk: Disk)
    returns (first: Option<string>, second: Option<string>, tried2: seq<string>)
    requires fetcher.Valid() && fetcher.store.Cache?
    modifies fetcher, disk
    ensures first.Some? ==> second == first && tried2 == []
  {
    var tried1;
    first, tried1 := fetcher.GetImage(imgurl, net1, Written, disk);
    second, tried2 := fetcher.GetImage(imgurl, net2, write2, disk);
  }

  /**
   * A cache download whose write fails after the file was opened leaves an
   * empty file at the target; the next request for the same URL takes that
   * file for a cached cover and fetches nothing.
   */
  method FailedWriteIsCached(fetcher: CoverFetcher, imgurl: string, net1: string -> Fetch, net2: string -> Fetch,
                             write2: WriteOutcome, disk: Disk)
    returns (first: Option<string>, second: Option<string>, tried1: seq<string>, tried2: seq<string>)
    requires fetcher.Valid() && fetcher.store.Cache?
    requires !disk.Exists(fetcher.Target(imgurl))
    requires FirstAccepted(Candidates(imgurl, fetcher.sizePref), net1).Some?
    modifies fetcher, disk
    ensures first == None && tried1 != []
    ensures second == Some(fetcher.Target(imgurl)) && tried2 == []
    ensures fetcher.Target(imgurl) in disk.files && disk.files[fetcher.Target(imgurl)] == []
  {
    first, tried1 := fetcher.GetImage(imgurl, net1, WriteFailed, disk);
    second, tried2 := fetcher.GetImage(imgurl, net2, write2, disk);
  }

  /**
   * An empty image URL (or one ending in `/`) names the cover directory,
   * which exists, so the cache variant returns the directory's path as the
   * cover without fetching anything.
   */
  method DirectoryUrlIsCached(fetcher: CoverFetcher, imgurl: string, net: string -> Fetch,
                              write: WriteOutcome, disk: Disk)
    returns (r: Option<string>, tried: seq<string>)
    requires fetcher.Valid() && fetcher.store.Cache? && fetcher.store.coverDir in disk.dirs
    requires imgurl == "" || imgurl[|imgurl| - 1] == '/'
    modifies fetcher, disk
    ensures r == Some(fetcher.store.coverDir + "/") && tried == []
  {
    var dir := fetcher.store.coverDir;
    assert fetcher.Target(imgurl) == dir + "/" by {
      EmptyBasename(imgurl);
      assert dir + "/" + "" == dir + "/";
    }
    DirectoryNamedCoverExists(disk.files, disk.dirs, dir, imgurl);
    r, tried := fetcher.GetImage(imgurl, net, write, disk);
  }
}
