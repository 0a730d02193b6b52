/** What the program sees of its environment: Python exceptions, the parsed
    search page, the file system, the network and the audio player. The
    network, the HTML parser and the executables on the search path are
    oracles fixed when the host is created; the file system, the requests
    made and the players run are the state the program changes. */
module Platform {
  import opened Wrappers
  import Base64

  type Path = string
  type Bytes = seq<Base64.Byte>

  /** Why a `ValueError` (or its subclass `binascii.Error`) was raised. */
  datatype ValueReason =
    | MarkerNotFound              // forvo.py raises it itself when no marker element exists
    | NotEnoughValues             // `_, path_mp3, *_ = ...` unpacks fewer than two fields
    | Undecodable(Base64.Error)   // `base64.b64decode` rejects the field
    | NotUtf8                     // `UnicodeDecodeError`: the decoded bytes are not UTF-8

  datatype Exception =
    | ValueError(reason: ValueReason)
    | KeyError            // the marker element has no `onclick` attribute
    | TypeError           // `None['onclick']`, or `Path` of the tuple `mkstemp` returns
    | PlayerNotFoundError
    | FileNotFoundError
    | FileExistsError
    | IsADirectoryError
    | NotADirectoryError

  /** What `select_one(...)` finds: no element, an element without an
      `onclick` attribute, or the attribute's text. */
  datatype Marker = Absent | NoOnclick | Onclick(handler: string)

  /** A parsed search-results page: the first `div` and the first `span`
      whose `id` starts with `play_`. */
  datatype Page = Page(firstDiv: Marker, firstSpan: Marker)

  /** One run of an audio player: its argv and the bytes of the file it was
      given at the moment it ran (None when no file was there). */
  datatype Playback = Playback(argv: seq<string>, audio: Option<Bytes>)

  /** How a run of the program ends: `sys.exit(code)` or the end of the
      script (code 0), or an exception nobody catches. */
  datatype Outcome = Exit(code: int) | Raised(error: Exception)

  /** Index of the last '/' in `p`, or -1. */
  function LastSlash(p: Path): (k: int)
    ensures -1 <= k < |p|
    ensures k >= 0 ==> p[k] == '/'
    ensures forall j | k < j < |p| :: p[j] != '/'
  {
    if p == [] then -1
    else if p[|p| - 1] == '/' then |p| - 1
    else LastSlash(p[..|p| - 1])
  }

  /** `PurePosixPath(p).parent` for a normalised path. */
  function Parent(p: Path): Path
  {
    var k := LastSlash(p);
    if k < 0 then "." else if k == 0 then "/" else p[..k]
  }

  /** `PurePosixPath(dir) / name`: a name that is itself absolute replaces
      the directory. */
  function JoinPath(dir: Path, name: string): (p: Path)
    ensures name != [] && name[0] == '/' ==> p == name
    ensures (name == [] || name[0] != '/') ==>
              |dir| < |p| && p[..|dir|] == dir && p[|dir|] == '/' && p[|dir| + 1..] == name
  {
    if name != [] && name[0] == '/' then name else dir + "/" + name
  }

  /** The error reaching `d` as a directory raises: path resolution walks
      down from the root, the first component that is missing gives
      FileNotFoundError (ENOENT) and the first that is a regular file gives
      NotADirectoryError (ENOTDIR). */
  function DirectoryFailure(files: map<Path, Bytes>, dirs: set<Path>, d: Path): (r: Option<Exception>)
    ensures r.None? <==> d in dirs
    ensures r.Some? ==> r.value == FileNotFoundError || r.value == NotADirectoryError
    decreases |d|
  {
    if d in dirs then None
    else
      var up := Parent(d);
      var above := if |up| < |d| then DirectoryFailure(files, dirs, up) else None;
      if above.Some? then above
      else if d in files then Some(NotADirectoryError)
      else Some(FileNotFoundError)
  }

  /** The error `Path.mkdir(p, exist_ok=True)` raises, if any: none for an
      existing directory, FileExistsError for a file, otherwise the error of
      reaching the parent. */
  function MkdirFailure(files: map<Path, Bytes>, dirs: set<Path>, p: Path): (r: Option<Exception>)
    ensures r.None? <==> p in dirs || (p !in files && Parent(p) in dirs)
  {
    if p in dirs then None
    else if p in files then Some(FileExistsError)
    else DirectoryFailure(files, dirs, Parent(p))
  }

  /** The error `Path.write_bytes` raises on `p`, if any: IsADirectoryError
      for a directory, otherwise the error of reaching the parent. */
  function WriteFailure(files: map<Path, Bytes>, dirs: set<Path>, p: Path): (r: Option<Exception>)
    ensures r.None? <==> p !in dirs && Parent(p) in dirs
  {
    if p in dirs then Some(IsADirectoryError)
    else DirectoryFailure(files, dirs, Parent(p))
  }

  /** A regular file where the parent should be: `mkdir` and `write_bytes`
      under `/a` raise NotADirectoryError when `/a` is a file. */
  lemma FileAsParent()
    ensures MkdirFailure(map["/a" := []], {"/"}, "/a/b") == Some(NotADirectoryError)
    ensures WriteFailure(map["/a" := []], {"/"}, "/a/b") == Some(NotADirectoryError)
  {
    assert LastSlash("/a/b") == 2;
    assert Parent("/a/b") == "/a";
    assert LastSlash("/a") == 0;
  }

  /** The first component that is not a directory decides the error,
      however far up the path it is. */
  lemma FirstBadAncestor()
    ensures MkdirFailure(map[], {"/"}, "/x/y/z") == Some(FileNotFoundError)
    ensures MkdirFailure(map["/x" := []], {"/"}, "/x/y/z") == Some(NotADirectoryError)
  {
    assert LastSlash("/x/y/z") == 4;
    assert Parent("/x/y/z") == "/x/y";
    assert LastSlash("/x/y") == 2;
    assert Parent("/x/y") == "/x";
    assert LastSlash("/x") == 0;
  }

  /** The error `Path.unlink` raises on `p`, if any: none for a file,
      IsADirectoryError for a directory, FileNotFoundError for a missing name
      in an existing directory, otherwise the error of reaching the parent. */
  function UnlinkFailure(files: map<Path, Bytes>, dirs: set<Path>, p: Path): (r: Option<Exception>)
    ensures r.None? <==> p in files
  {
    if p in files then None
    else if p in dirs then Some(IsADirectoryError)
    else if Parent(p) in dirs then Some(FileNotFoundError)
    else DirectoryFailure(files, dirs, Parent(p))
  }

  class Host {
    var files: map<Path, Bytes>
    var dirs: set<Path>
    var requests: seq<string>    // every URL fetched, in order
    var played: seq<Playback>    // every player run, in order
    const pages: string -> Page  // search-page URL to parsed page
    const bodies: string -> Bytes  // audio URL to response body
    const which: map<string, Path> // executables found on the search path

    constructor (files: map<Path, Bytes>, dirs: set<Path>, pages: string -> Page,
                 bodies: string -> Bytes, which: map<string, Path>)
      ensures this.files == files && this.dirs == dirs
      ensures this.pages == pages && this.bodies == bodies && this.which == which
      ensures requests == [] && played == []
    {
      this.files, this.dirs := files, dirs;
      this.pages, this.bodies, this.which := pages, bodies, which;
      requests, played := [], [];
    }

    /** `Path.exists()`: a file or a directory is there. */
    predicate Exists(p: Path)
      reads this
      ensures Exists(p) <==> Content(p).Some? || p in dirs
    {
      p in files || p in dirs
    }

    /** The content of the file at `p`, if there is one. */
    function Content(p: Path): (r: Option<Bytes>)
      reads this
      ensures r.Some? <==> p in files
      ensures r.Some? ==> r.value == files[p]
    {
      if p in files then Some(files[p]) else None
    }

    /** `Path.mkdir(p, exist_ok=True)`. */
    method MakeDir(p: Path) returns (err: Option<Exception>)
      modifies this`dirs
      ensures err == MkdirFailure(files, old(dirs), p)
      ensures dirs == if err.None? then old(dirs) + {p} else old(dirs)
    {
      err := MkdirFailure(files, dirs, p);
      if err.None? {
        dirs := dirs + {p};
      }
    }

    /** `Path.write_bytes(data)`: creates or overwrites the file. */
    method WriteBytes(p: Path, data: Bytes) returns (err: Option<Exception>)
      modifies this`files
      ensures err == WriteFailure(old(files), dirs, p)
      ensures files == if err.None? then old(files)[p := data] else old(files)
    {
      err := WriteFailure(files, dirs, p);
      if err.None? {
        files := files[p := data];
      }
    }

    /** `Path.unlink()`. */
    method Unlink(p: Path) returns (err: Option<Exception>)
      modifies this`files
      ensures err == UnlinkFailure(old(files), dirs, p)
      ensures files == if err.None? then old(files) - {p} else old(files)
    {
      err := UnlinkFailure(files, dirs, p);
      if err.None? {
        files := files - {p};
      }
    }

    /** `tempfile.mkstemp(...)`: creates a new empty file under a name no
        file or directory has; `p` is the name it picks. */
    method MakeTemp(p: Path)
      requires p !in files && p !in dirs && Parent(p) in dirs
      modifies this`files
      ensures files == old(files)[p := []]
    {
      files := files[p := []];
    }

    /** `requests.get(url).text`, parsed: the search page at `url`. */
    method FetchPage(url: string) returns (page: Page)
      modifies this`requests
      ensures page == pages(url)
      ensures requests == old(requests) + [url]
    {
      page := pages(url);
      requests := requests + [url];
    }

    /** `requests.get(url).content`: the audio at `url`. */
    method FetchBody(url: string) returns (body: Bytes)
      modifies this`requests
      ensures body == bodies(url)
      ensures requests == old(requests) + [url]
    {
      body := bodies(url);
      requests := requests + [url];
    }

    /** `subprocess.run(argv)` of a player on the file at `audioPath`;
        it waits for the player to end. */
    method Spawn(argv: seq<string>, audioPath: Path)
      modifies this`played
      ensures played == old(played) + [Playback(argv, Content(audioPath))]
    {
      played := played + [Playback(argv, Content(audioPath))];
    }
  }

  /** What `mkstemp` needs to create `tempPath` once the cache directory
      exists: a new name in an existing directory. */
  predicate TempPathFree(host: Host, home: Path, tempPath: Path)
    reads host
  {
    tempPath !in host.files && tempPath !in host.dirs && tempPath != home && Parent(tempPath) in host.dirs
  }
}
