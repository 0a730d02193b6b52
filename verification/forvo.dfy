/** forvo.py: find the audio for a word, cache it under the cache directory
    and play it with the first installed player. The marker of the audio is
    the first `div` whose id starts with `play_`; a missing marker and every
    `ValueError` of the lookup end the run with exit status 1. */
module Forvo {
  import opened Wrappers
  import opened Platform
  import opened Lookup
  import opened Players
  import Utf8

  /** The options each player is given before the file. */
  function Options(p: Player): seq<string>
  {
    match p
    case Sox => ["-t", "mp3"]
    case Mpg123 => []
    case Ffplay => ["-autoexit", "-nodisp"]
  }

  /** The argv `play_sound(path)` runs, or None when it raises
      `PlayerNotFoundError`: the first installed player in priority order. */
  function PlayerArgv(which: map<string, Path>, path: Path): (argv: Option<seq<string>>)
    ensures argv.None? <==> FirstAvailable(PRIORITY, which) == |PRIORITY|
    ensures argv.Some? ==>
              var p := PRIORITY[FirstAvailable(PRIORITY, which)];
              argv.value == [which[Program(p)]] + Options(p) + [path]
  {
    assert PRIORITY[1..] == [Mpg123, Ffplay] && PRIORITY[1..][1..] == [Ffplay];
    if "play" in which then Some([which["play"], "-t", "mp3", path])
    else if "mpg123" in which then Some([which["mpg123"], path])
    else if "ffplay" in which then
      assert FirstAvailable(PRIORITY[1..], which) == 1 + FirstAvailable([Ffplay], which) == 1;
      Some([which["ffplay"], "-autoexit", "-nodisp", path])
    else
      assert FirstAvailable(PRIORITY[1..], which) == 1 + FirstAvailable([Ffplay], which) == 2;
      None
  }

  /** ffplay is given the file as its only input. */
  lemma FfplayGetsOnlyThePath(which: map<string, Path>, path: Path)
    requires PlayerArgv(which, path).Some? && !IsOption(path)
    requires PRIORITY[FirstAvailable(PRIORITY, which)] == Ffplay
    ensures Operands(PlayerArgv(which, path).value[1..]) == [path]
  {
    var argv := PlayerArgv(which, path).value;
    assert argv[1..] == ["-autoexit", "-nodisp", path];
    assert IsOption("-autoexit") && IsOption("-nodisp");
    assert Operands([path]) == [path] by {
      assert [path][1..] == [];
    }
    assert Operands(["-nodisp", path]) == [path] by {
      assert ["-nodisp", path][1..] == [path];
    }
    assert ["-autoexit", "-nodisp", path][1..] == ["-nodisp", path];
  }

  /** `play_sound(path)`. */
  method PlaySound(host: Host, path: Path) returns (err: Option<Exception>)
    modifies host`played
    ensures err.None? <==> PlayerArgv(host.which, path).Some?
    ensures err.Some? ==> err.value == PlayerNotFoundError
    ensures host.played == old(host.played) + Played(PlayerArgv(host.which, path), host.Content(path))
  {
    var argv := PlayerArgv(host.which, path);
    if argv.None? {
      return Some(PlayerNotFoundError);
    }
    host.Spawn(argv.value, path);
    return None;
  }

  /** The audio URL named by the page's marker, or what the lookup raises:
      `ValueError` for a missing marker, `KeyError` for a marker without a
      handler, `ValueError` for a handler that does not resolve. */
  function Resolve(marker: Marker): (r: Result<string, Exception>)
    ensures marker.Absent? ==> r == Failure(ValueError(MarkerNotFound))
    ensures marker.NoOnclick? ==> r == Failure(KeyError)
    ensures marker.Onclick? ==>
              match UrlFromOnclick(marker.handler)
              case Success(url) => r == Success(url)
              case Failure(reason) => r == Failure(ValueError(reason))
    ensures r.Failure? ==> r.error.ValueError? || r.error == KeyError
  {
    match marker
    case Absent => Failure(ValueError(MarkerNotFound))
    case NoOnclick => Failure(KeyError)
    case Onclick(handler) => UrlFromOnclick(handler).MapFailure(reason => ValueError(reason))
  }

  /** A page whose marker carries the handler the site writes resolves to
      the audio URL of the encoded path. */
  lemma ResolvesPage(page: Page, head: string, path: string, more: string, tail: string)
    requires ',' !in head && ';' !in head && ';' !in more
    requires page.firstDiv ==
             Onclick(head + ",'" + Base64.Encode(Utf8.Encode(path)) + "'," + more + ";" + tail)
    ensures Resolve(page.firstDiv) == Success(AUDIO_URL_PREFIX + path)
  {
    ResolvesEncodedPath(head, path, more, tail);
  }

  /** `get_mp3_url(word, lang)`: fetch the search page and resolve its marker. */
  method GetMp3Url(host: Host, word: string, lang: string) returns (r: Result<string, Exception>)
    modifies host`requests
    ensures r == Resolve(host.pages(SearchUrl(word, lang)).firstDiv)
    ensures host.requests == old(host.requests) + [SearchUrl(word, lang)]
  {
    var page := host.FetchPage(SearchUrl(word, lang));
    r := Resolve(page.firstDiv);
  }

  /** `fetch_raw_mp3(word, lang)`: the audio bytes, fetched once the URL is
      known. */
  method FetchRawMp3(host: Host, word: string, lang: string) returns (r: Result<Bytes, Exception>)
    modifies host`requests
    ensures var search := SearchUrl(word, lang);
            var url := Resolve(host.pages(search).firstDiv);
            match url
            case Failure(e) => r == Failure(e) && host.requests == old(host.requests) + [search]
            case Success(u) => r == Success(host.bodies(u)) && host.requests == old(host.requests) + [search, u]
  {
    var url := GetMp3Url(host, word, lang);
    if url.Failure? {
      return Failure(url.error);
    }
    var body := host.FetchBody(url.value);
    return Success(body);
  }

  /** Write the audio to the cache file, then play it from there. */
  method StoreAndPlay(host: Host, path: Path, body: Bytes) returns (out: Outcome)
    modifies host`files, host`played
    ensures var w := WriteFailure(old(host.files), host.dirs, path);
            (w.Some? ==> out == Raised(w.value) && host.files == old(host.files) && host.played == old(host.played)) &&
            (w.None? ==>
               host.files == old(host.files)[path := body] &&
               host.played == old(host.played) + Played(PlayerArgv(host.which, path), Some(body)) &&
               out == PlayOutcome(PlayerArgv(host.which, path)))
  {
    var written := host.WriteBytes(path, body);
    if written.Some? {
      return Raised(written.value);
    }
    var err := PlaySound(host, path);
    return if err.Some? then Raised(err.value) else Exit(0);
  }

  /** The main block once the key is known not to be cached: fetch the
      audio, exiting with status 1 on a `ValueError`, then store and play it. */
  method FetchAndPlay(host: Host, path: Path, word: string, lang: string, noCache: bool, tempPath: Path)
    returns (out: Outcome)
    requires noCache ==> tempPath !in host.files && tempPath !in host.dirs && Parent(tempPath) in host.dirs
    modifies host`requests, host`files, host`played
    // A ValueError of the lookup ends the run with status 1.
    ensures var search := SearchUrl(word, lang);
            var url := Resolve(host.pages(search).firstDiv);
            url.Failure? ==>
              out == (if url.error.ValueError? then Exit(1) else Raised(url.error)) &&
              host.requests == old(host.requests) + [search] &&
              host.files == old(host.files) && host.played == old(host.played)
    // With --no-cache the temporary file is created, then `Path` of the
    // tuple `mkstemp` returns raises TypeError: nothing is played.
    ensures var search := SearchUrl(word, lang);
            var url := Resolve(host.pages(search).firstDiv);
            url.Success? && noCache ==>
              out == Raised(TypeError) &&
              host.requests == old(host.requests) + [search, url.value] &&
              host.files == old(host.files)[tempPath := []] && host.played == old(host.played)
    // Without it the audio is written to the cache file and played from it.
    ensures var search := SearchUrl(word, lang);
            var url := Resolve(host.pages(search).firstDiv);
            url.Success? && !noCache ==>
              var body, w := host.bodies(url.value), WriteFailure(old(host.files), host.dirs, path);
              host.requests == old(host.requests) + [search, url.value] &&
              (w.Some? ==> out == Raised(w.value) && host.files == old(host.files) && host.played == old(host.played)) &&
              (w.None? ==>
                 host.files == old(host.files)[path := body] &&
                 host.played == old(host.played) + Played(PlayerArgv(host.which, path), Some(body)) &&
                 out == PlayOutcome(PlayerArgv(host.which, path)))
  {
    var content := FetchRawMp3(host, word, lang);
    if content.Failure? {
      if content.error.ValueError? {
        return Exit(1);
      }
      return Raised(content.error);
    }
    if noCache {
      host.MakeTemp(tempPath);
      return Raised(TypeError);
    }
    out := StoreAndPlay(host, path, content.value);
  }

  /** The script's main block for `word`, `--lang lang` and `--no-cache`,
      with the cache directory `home`; `tempPath` is the name `mkstemp`
      picks. */
  method Run(host: Host, home: Path, word: string, lang: string, noCache: bool, tempPath: Path)
    returns (out: Outcome)
    requires noCache ==> TempPathFree(host, home, tempPath)
    modifies host
    // Path.mkdir(CACHE_HOME, exist_ok=True) is the only change to directories.
    ensures var e := MkdirFailure(old(host.files), old(host.dirs), home);
            host.dirs == if e.None? then old(host.dirs) + {home} else old(host.dirs)
    ensures var e := MkdirFailure(old(host.files), old(host.dirs), home);
            e.Some? ==>
              out == Raised(e.value) && host.files == old(host.files) &&
              host.requests == old(host.requests) && host.played == old(host.played)
    // A cached key is played from the cache without any request.
    ensures var path := CachePath(home, word, lang);
            home in host.dirs && (path in old(host.files) || path in host.dirs) ==>
              host.requests == old(host.requests) && host.files == old(host.files) &&
              host.played == old(host.played) + Played(PlayerArgv(host.which, path), old(host.Content(path))) &&
              out == PlayOutcome(PlayerArgv(host.which, path))
    // Otherwise the audio is looked up; a ValueError ends the run with status 1.
    ensures var path, search := CachePath(home, word, lang), SearchUrl(word, lang);
            var url := Resolve(host.pages(search).firstDiv);
            home in host.dirs && path !in old(host.files) && path !in host.dirs && url.Failure? ==>
              out == (if url.error.ValueError? then Exit(1) else Raised(url.error)) &&
              host.requests == old(host.requests) + [search] &&
              host.files == old(host.files) && host.played == old(host.played)
    // With --no-cache the temporary file is created, then `Path` of the
    // tuple `mkstemp` returns raises TypeError: nothing is played.
    ensures var path, search := CachePath(home, word, lang), SearchUrl(word, lang);
            var url := Resolve(host.pages(search).firstDiv);
            home in host.dirs && path !in old(host.files) && path !in host.dirs && url.Success? && noCache ==>
              out == Raised(TypeError) &&
              host.requests == old(host.requests) + [search, url.value] &&
              host.files == old(host.files)[tempPath := []] && host.played == old(host.played)
    // Otherwise the audio is written to the cache file and played from it.
    ensures var path, search := CachePath(home, word, lang), SearchUrl(word, lang);
            var url := Resolve(host.pages(search).firstDiv);
            home in host.dirs && path !in old(host.files) && path !in host.dirs && url.Success? && !noCache ==>
              var body, w := host.bodies(url.value), WriteFailure(old(host.files), host.dirs, path);
              host.requests == old(host.requests) + [search, url.value] &&
              (w.Some? ==> out == Raised(w.value) && host.files == old(host.files) && host.played == old(host.played)) &&
              (w.None? ==>
                 host.files == old(host.files)[path := body] &&
                 host.played == old(host.played) + Played(PlayerArgv(host.which, path), Some(body)) &&
                 out == PlayOutcome(PlayerArgv(host.which, path)))
  {
    var mkdir := host.MakeDir(home);
    if mkdir.Some? {
      return Raised(mkdir.value);
    }
    var path := CachePath(home, word, lang);
    if host.Exists(path) {
      var err := PlaySound(host, path);
      return if err.Some? then Raised(err.value) else Exit(0);
    }
    out := FetchAndPlay(host, path, word, lang, noCache, tempPath);
  }

  /** Running the script twice for the same key: once the first run ends
      normally the audio is in the cache, so the second run makes no request
      and plays the same bytes with the same player. */
  method RunTwice(host: Host, home: Path, word: string, lang: string)
    returns (first: Outcome, second: Outcome, ghost requestsAfterFirst: seq<string>)
    modifies host
    ensures first == Exit(0) ==>
              second == Exit(0) && host.requests == requestsAfterFirst &&
              |host.played| >= 2 && host.played[|host.played| - 1] == host.played[|host.played| - 2]
  {
    var path := CachePath(home, word, lang);
    first := Run(host, home, word, lang, false, "");
    requestsAfterFirst := host.requests;
    ghost var filesAfterFirst, playedAfterFirst := host.files, host.played;
    second := Run(host, home, word, lang, false, "");
    if first == Exit(0) {
      assert path in filesAfterFirst || path in host.dirs;
      assert PlayOutcome(PlayerArgv(host.which, path)) == Exit(0);
      var audio := if path in filesAfterFirst then Some(filesAfterFirst[path]) else None;
      assert playedAfterFirst[|playedAfterFirst| - 1] == Playback(PlayerArgv(host.which, path).value, audio);
    }
  }
}
