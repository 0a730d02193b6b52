/** shell_forvo.py: the earlier variant of the same script. Its marker is
    the first `span` whose id starts with `play_`, it catches no exception,
    and with `--no-cache` it plays the audio from a temporary file that it
    removes afterwards. */
module ShellForvo {
  import opened Wrappers
  import opened Platform
  import opened Lookup
  import opened Players
  import Utf8

  /** The options each player is given before the file; ffplay's second
      option is written without its dash. */
  function Options(p: Player): seq<string>
  {
    match p
    case Sox => ["-t", "mp3"]
    case Mpg123 => []
    case Ffplay => ["-autoexit", "nodisp"]
  }

  /** The argv `play_sound(path)` runs, or None when it raises
      `PlayerNotFoundError`: the first installed player in priority order. */
  function PlayerArgv(which: map<string, Path>, path: Path): (argv: Option<seq<string>>)
    ensures argv.None? <==> FirstAvailable(PRIORITY, which) == |PRIORITY|
    ensures argv.Some? ==>
              var p := PRIORITY[FirstAvailable(PRIORITY, which)];
              argv.value == [which[Program(p)]] + Options(p) + [path]
  {
    assert PRIORITY[1..] == [Mpg123, Ffplay] && PRIORITY[1..][1..] == [Ffplay];
    if "play" in which then Some([which["play"], "-t", "mp3", path])
    else if "mpg123" in which then Some([which["mpg123"], path])
    else if "ffplay" in which then
      assert FirstAvailable(PRIORITY[1..], which) == 1 + FirstAvailable([Ffplay], which) == 1;
      Some([which["ffplay"], "-autoexit", "nodisp", path])
    else
      assert FirstAvailable(PRIORITY[1..], which) == 1 + FirstAvailable([Ffplay], which) == 2;
      None
  }

  /** ffplay is handed "nodisp" as an input besides the file. */
  lemma FfplayGetsStrayOperand(which: map<string, Path>, path: Path)
    requires PlayerArgv(which, path).Some? && !IsOption(path)
    requires PRIORITY[FirstAvailable(PRIORITY, which)] == Ffplay
    ensures Operands(PlayerArgv(which, path).value[1..]) == ["nodisp", path]
  {
    var argv := PlayerArgv(which, path).value;
    assert argv[1..] == ["-autoexit", "nodisp", path];
    assert IsOption("-autoexit") && !IsOption("nodisp");
    assert Operands([path]) == [path] by {
      assert [path][1..] == [];
    }
    assert Operands(["nodisp", path]) == ["nodisp", path] by {
      assert ["nodisp", path][1..] == [path];
    }
    assert ["-autoexit", "nodisp", path][1..] == ["nodisp", path];
  }

  /** `play_sound(path)`. */
  method PlaySound(host: Host, path: Path) returns (err: Option<Exception>)
    modifies host`played
    ensures err.None? <==> PlayerArgv(host.which, path).Some?
    ensures err.Some? ==> err.value == PlayerNotFoundError
    ensures host.played == old(host.played) + Played(PlayerArgv(host.which, path), host.Content(path))
  {
    var argv := PlayerArgv(host.which, path);
    if argv.None? {
      return Some(PlayerNotFoundError);
    }
    host.Spawn(argv.value, path);
    return None;
  }

  /** The audio URL named by the page's marker, or what the lookup raises:
      `TypeError` for a missing marker (it subscripts None), `KeyError` for
      a marker without a handler, `ValueError` for a handler that does not
      resolve. */
  function Resolve(marker: Marker): (r: Result<string, Exception>)
    ensures marker.Absent? ==> r == Failure(TypeError)
    ensures marker.NoOnclick? ==> r == Failure(KeyError)
    ensures marker.Onclick? ==>
              match UrlFromOnclick(marker.handler)
              case Success(url) => r == Success(url)
              case Failure(reason) => r == Failure(ValueError(reason))
  {
    match marker
    case Absent => Failure(TypeError)
    case NoOnclick => Failure(KeyError)
    case Onclick(handler) => UrlFromOnclick(handler).MapFailure(reason => ValueError(reason))
  }

  /** A page whose marker carries the handler the site writes resolves to
      the audio URL of the encoded path. */
  lemma ResolvesPage(page: Page, head: string, path: string, more: string, tail: string)
    requires ',' !in head && ';' !in head && ';' !in more
    requires page.firstSpan ==
             Onclick(head + ",'" + Base64.Encode(Utf8.Encode(path)) + "'," + more + ";" + tail)
    ensures Resolve(page.firstSpan) == Success(AUDIO_URL_PREFIX + path)
  {
    ResolvesEncodedPath(head, path, more, tail);
  }

  /** `get_mp3_url(word, lang)`: fetch the search page and resolve its marker. */
  method GetMp3Url(host: Host, word: string, lang: string) returns (r: Result<string, Exception>)
    modifies host`requests
    ensures r == Resolve(host.pages(SearchUrl(word, lang)).firstSpan)
    ensures host.requests == old(host.requests) + [SearchUrl(word, lang)]
  {
    var page := host.FetchPage(SearchUrl(word, lang));
    r := Resolve(page.firstSpan);
  }

  /** `fetch_raw_mp3(word, lang)`: the audio bytes, fetched once the URL is
      known. */
  method FetchRawMp3(host: Host, word: string, lang: string) returns (r: Result<Bytes, Exception>)
    modifies host`requests
    ensures var search := SearchUrl(word, lang);
            var url := Resolve(host.pages(search).firstSpan);
            match url
            case Failure(e) => r == Failure(e) && host.requests == old(host.requests) + [search]
            case Success(u) => r == Success(host.bodies(u)) && host.requests == old(host.requests) + [search, u]
  {
    var url := GetMp3Url(host, word, lang);
    if url.Failure? {
      return Failure(url.error);
    }
    var body := host.FetchBody(url.value);
    return Success(body);
  }

  /** The `--no-cache` tail of the main block: write the audio to the new
      temporary file `tempPath`, play it, then remove the file. */
  method PlayTemporarily(host: Host, tempPath: Path, body: Bytes) returns (out: Outcome)
    requires tempPath !in host.files && tempPath !in host.dirs && Parent(tempPath) in host.dirs
    modifies host`files, host`played
    ensures host.played == old(host.played) + Played(PlayerArgv(host.which, tempPath), Some(body))
    ensures out == PlayOutcome(PlayerArgv(host.which, tempPath))
    ensures host.files == if out == Exit(0) then old(host.files) else old(host.files)[tempPath := body]
  {
    host.MakeTemp(tempPath);
    var written := host.WriteBytes(tempPath, body);
    assert written.None?;
    var err := PlaySound(host, tempPath);
    if err.Some? {
      return Raised(err.value);
    }
    var removed := host.Unlink(tempPath);
    assert removed.None?;
    assert host.files == old(host.files);
    return Exit(0);
  }

  /** Write the audio to the cache file, then play it from there. */
  method StoreAndPlay(host: Host, path: Path, body: Bytes) returns (out: Outcome)
    modifies host`files, host`played
    ensures var w := WriteFailure(old(host.files), host.dirs, path);
            (w.Some? ==> out == Raised(w.value) && host.files == old(host.files) && host.played == old(host.played)) &&
            (w.None? ==>
               host.files == old(host.files)[path := body] &&
               host.played == old(host.played) + Played(PlayerArgv(host.which, path), Some(body)) &&
               out == PlayOutcome(PlayerArgv(host.which, path)))
  {
    var written := host.WriteBytes(path, body);
    if written.Some? {
      return Raised(written.value);
    }
    var err := PlaySound(host, path);
    return if err.Some? then Raised(err.value) else Exit(0);
  }

  /** The main block once the key is known not to be cached: fetch the
      audio, then store and play it. */
  method FetchAndPlay(host: Host, path: Path, word: string, lang: string, noCache: bool, tempPath: Path)
    returns (out: Outcome)
    requires noCache ==> tempPath !in host.files && tempPath !in host.dirs && Parent(tempPath) in host.dirs
    modifies host`requests, host`files, host`played
    // Whatever the lookup raises ends the run.
    ensures var search := SearchUrl(word, lang);
            var url := Resolve(host.pages(search).firstSpan);
            url.Failure? ==>
              out == Raised(url.error) &&
              host.requests == old(host.requests) + [search] &&
              host.files == old(host.files) && host.played == old(host.played)
    // With --no-cache the audio is played from a temporary file, which is
    // removed afterwards unless the player could not be found.
    ensures var search := SearchUrl(word, lang);
            var url := Resolve(host.pages(search).firstSpan);
            url.Success? && noCache ==>
              var body := host.bodies(url.value);
              host.requests == old(host.requests) + [search, url.value] &&
              host.played == old(host.played) + Played(PlayerArgv(host.which, tempPath), Some(body)) &&
              out == PlayOutcome(PlayerArgv(host.which, tempPath)) &&
              host.files == if out == Exit(0) then old(host.files) else old(host.files)[tempPath := body]
    // Without it the audio is written to the cache file and played from it.
    ensures var search := SearchUrl(word, lang);
            var url := Resolve(host.pages(search).firstSpan);
            url.Success? && !noCache ==>
              var body, w := host.bodies(url.value), WriteFailure(old(host.files), host.dirs, path);
              host.requests == old(host.requests) + [search, url.value] &&
              (w.Some? ==> out == Raised(w.value) && host.files == old(host.files) && host.played == old(host.played)) &&
              (w.None? ==>
                 host.files == old(host.files)[path := body] &&
                 host.played == old(host.played) + Played(PlayerArgv(host.which, path), Some(body)) &&
                 out == PlayOutcome(PlayerArgv(host.which, path)))
  {
    var content := FetchRawMp3(host, word, lang);
    if content.Failure? {
      return Raised(content.error);
    }
    if noCache {
      out := PlayTemporarily(host, tempPath, content.value);
      return;
    }
    out := StoreAndPlay(host, path, content.value);
  }

  /** The script's main block for `word`, `--lang lang` and `--no-cache`,
      with the cache directory `home`; `tempPath` is the name `mkstemp`
      picks. */
  method Run(host: Host, home: Path, word: string, lang: string, noCache: bool, tempPath: Path)
    returns (out: Outcome)
    requires noCache ==> TempPathFree(host, home, tempPath)
    modifies host
    // Path.mkdir(CACHE_HOME, exist_ok=True) is the only change to directories.
    ensures var e := MkdirFailure(old(host.files), old(host.dirs), home);
            host.dirs == if e.None? then old(host.dirs) + {home} else old(host.dirs)
    ensures var e := MkdirFailure(old(host.files), old(host.dirs), home);
            e.Some? ==>
              out == Raised(e.value) && host.files == old(host.files) &&
              host.requests == old(host.requests) && host.played == old(host.played)
    // A cached key is played from the cache without any request.
    ensures var path := CachePath(home, word, lang);
            home in host.dirs && (path in old(host.files) || path in host.dirs) ==>
              host.requests == old(host.requests) && host.files == old(host.files) &&
              host.played == old(host.played) + Played(PlayerArgv(host.which, path), old(host.Content(path))) &&
              out == PlayOutcome(PlayerArgv(host.which, path))
    // Otherwise the audio is looked up; whatever the lookup raises ends the run.
    ensures var path, search := CachePath(home, word, lang), SearchUrl(word, lang);
            var url := Resolve(host.pages(search).firstSpan);
            home in host.dirs && path !in old(host.files) && path !in host.dirs && url.Failure? ==>
              out == Raised(url.error) &&
              host.requests == old(host.requests) + [search] &&
              host.files == old(host.files) && host.played == old(host.played)
    // With --no-cache the audio is played from a temporary file, which is
    // removed afterwards unless the player could not be found.
    ensures var path, search := CachePath(home, word, lang), SearchUrl(word, lang);
            var url := Resolve(host.pages(search).firstSpan);
            home in host.dirs && path !in old(host.files) && path !in host.dirs && url.Success? && noCache ==>
              var body := host.bodies(url.value);
              host.requests == old(host.requests) + [search, url.value] &&
              host.played == old(host.played) + Played(PlayerArgv(host.which, tempPath), Some(body)) &&
              out == PlayOutcome(PlayerArgv(host.which, tempPath)) &&
              host.files == if out == Exit(0) then old(host.files) else old(host.files)[tempPath := body]
    // Otherwise the audio is written to the cache file and played from it.
    ensures var path, search := CachePath(home, word, lang), SearchUrl(word, lang);
            var url := Resolve(host.pages(search).firstSpan);
            home in host.dirs && path !in old(host.files) && path !in host.dirs && url.Success? && !noCache ==>
              var body, w := host.bodies(url.value), WriteFailure(old(host.files), host.dirs, path);
              host.requests == old(host.requests) + [search, url.value] &&
              (w.Some? ==> out == Raised(w.value) && host.files == old(host.files) && host.played == old(host.played)) &&
              (w.None? ==>
                 host.files == old(host.files)[path := body] &&
                 host.played == old(host.played) + Played(PlayerArgv(host.which, path), Some(body)) &&
                 out == PlayOutcome(PlayerArgv(host.which, path)))
  {
    var mkdir := host.MakeDir(home);
    if mkdir.Some? {
      return Raised(mkdir.value);
    }
    var path := CachePath(home, word, lang);
    if host.Exists(path) {
      var err := PlaySound(host, path);
      return if err.Some? then Raised(err.value) else Exit(0);
    }
    out := FetchAndPlay(host, path, word, lang, noCache, tempPath);
  }

  /** Running the script twice for the same key with the cache on: once the
      first run ends normally the audio is in the cache, so the second run
      makes no request and plays the same bytes with the same player. */
  method RunTwice(host: Host, home: Path, word: string, lang: string)
    returns (first: Outcome, second: Outcome, ghost requestsAfterFirst: seq<string>)
    modifies host
    ensures first == Exit(0) ==>
              second == Exit(0) && host.requests == requestsAfterFirst &&
              |host.played| >= 2 && host.played[|host.played| - 1] == host.played[|host.played| - 2]
  {
    var path := CachePath(home, word, lang);
    first := Run(host, home, word, lang, false, "");
    requestsAfterFirst := host.requests;
    ghost var filesAfterFirst, playedAfterFirst := host.files, host.played;
    second := Run(host, home, word, lang, false, "");
    if first == Exit(0) {
      assert path in filesAfterFirst || path in host.dirs;
      assert PlayOutcome(PlayerArgv(host.which, path)) == Exit(0);
      var audio := if path in filesAfterFirst then Some(filesAfterFirst[path]) else None;
      assert playedAfterFirst[|playedAfterFirst| - 1] == Playback(PlayerArgv(host.which, path).value, audio);
    }
  }
}
