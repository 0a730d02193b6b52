# shell-forvo, modelled in Dafny

shell-forvo plays the pronunciation of a word from forvo.com. Each run:

1. Creates the cache directory.
2. Checks whether `<cache>/<word>-<lang>.mp3` exists. An empty language is spelt `default`. If the file exists, it is played and the run ends.
3. Otherwise, fetches the search page for the word and finds the first element whose id starts with `play_`.
4. Takes the `onclick` handler `Play(<id>,'<base64 path>',...);...` of that element. It reads the second argument of the handler, base64-decodes it and decodes the bytes as UTF-8 into the path of the audio under `https://audio00.forvo.com/mp3/`.
5. Downloads the audio and writes it to the cache file. With `--no-cache` it writes to a temporary file instead.
6. Plays the file with the first installed player: sox's `play`, then `mpg123`, then `ffplay`.

The repository holds two versions of this script:

- `forvo.py` looks for a `div` marker and turns a missing marker or a failed decoding into exit status 1.
- `shell_forvo.py` looks for a `span` marker and catches nothing.

The model follows each script as written. Both share the helpers in `Lookup`.

Modules:

- `PyText`: the Python string operations the lookup calls, with their laws.
  - `str.split` with a one-character separator, and `str.lstrip` and `str.rstrip` with a character set: these three are what forvo.py:34 and shell_forvo.py:31 call.
  - `str.join` and `str.find`: neither script calls them. They are reference definitions, used to state what `split` returns (join undoes split, and the second field starts right after the first separator).
- `Base64`: `base64.b64decode` on a `str`. It follows the non-strict decoding loop of CPython's `binascii`:
  - characters outside the alphabet are skipped;
  - a `=` ends the data once the padding is complete;
  - a dangling character or missing padding is an error.

  It comes with an RFC 4648 encoder that is proved to be its right inverse.
- `Utf8`: `bytes.decode()` with its default codec, strict UTF-8. Ill-formed bytes raise `UnicodeDecodeError`, a `ValueError`. It comes with a UTF-8 encoder: decoding undoes encoding, and only encodings decode.
- `Platform`: Python's exceptions, paths, and a `Host` class.
  - Paths: `pathlib` joining, and the parent of a path.
  - `Host` fields: the file system (files and directories), the URLs requested, and the players run.
  - `Host` also holds fixed oracles: the parsed search pages, the HTTP bodies, and the executables on `PATH`.
- `Lookup`: the shared helpers. It covers the cache path, the extraction of the encoded argument from the handler, and the audio URL.
- `Players`: the players, their priority order, and the reference scan for the first installed one.
- `Forvo` and `ShellForvo`: `play_sound`, the marker lookup, `get_mp3_url`, `fetch_raw_mp3` and the main block of each script.
  - The main block is a module-level method `Run` that takes a `host: Host` and modifies it.
  - Its postcondition gives the outcome and the new file system, request log and playback log for every path through the script.

## Model

| member | source | states |
|---|---|---|
| Lookup.CachePath | forvo.py:53-59 | the cache path always ends in `.mp3` |
| Lookup.CachePathInHome | shell_forvo.py:52-58 | a relative word gives `<cache>/<word>-<lang or default>.mp3`, with nothing escaped |
| Lookup.AbsoluteWordLeavesHome | forvo.py:58 | a word starting with `/` replaces the cache directory under pathlib's join |
| Lookup.CachePathLanguage | forvo.py:55-58 | for one word, two languages that agree once `''` became `default` share a cache file; conversely, two languages without `/` that share a cache file agree |
| Lookup.DashedKeysCollide | forvo.py:58 | ("a-b", "c") and ("a", "b-c") share a cache file, since the name is not escaped |
| Lookup.DistinctKeysDistinctPaths | shell_forvo.py:57 | keys whose words hold no `-` and whose words and languages hold no `/` share a cache file only when they are the same key once `''` became `default` |
| Lookup.NameParts | forvo.py:58 | where the word, the dash and the language sit in the cache file name |
| Lookup.SearchUrl | forvo.py:26 | the search URL is the search prefix, the word, `/` and the language exactly as given |
| Lookup.EmptyLanguageSearchedAsGiven | forvo.py:26 | the empty language and `default` share a cache file but are searched under different URLs |
| Lookup.CallArguments | forvo.py:34 | the argument list holds no `;`, does not start with a character of `Play(` and does not end with `)` |
| Lookup.ExtractFragment | forvo.py:34 | a fragment is found if and only if the argument list holds a comma; otherwise ValueError (too few values). A fragment holds no `,` and no `;` |
| Lookup.UnpackSecond | forvo.py:34 | unpacking succeeds if and only if the arguments hold a comma; otherwise a ValueError (too few values) is raised. On success the value is the comma-free run after the first comma |
| Lookup.HandlerArguments | shell_forvo.py:31 | the handler up to `;`, stripped of leading `Play(` characters and trailing `)`, is the text before the `;` with only its outer characters stripped |
| Lookup.StripArguments | forvo.py:34 | stripping an argument list changes only its first and last argument |
| Lookup.StripBeforeComma | forvo.py:34 | `lstrip('Play(')` stops at the comma that ends the first argument |
| Lookup.StripAfterComma | shell_forvo.py:31 | `rstrip(')')` stops at the comma that ends the second argument |
| Lookup.HandlerFragment | forvo.py:34 | the second argument of a handler is what `path_mp3` receives |
| Lookup.UrlFromFragment | forvo.py:41 | a base64 error becomes a ValueError of the lookup. Decoded bytes that are not UTF-8 give a ValueError too (`UnicodeDecodeError`). Otherwise the result is the audio host prefix followed by the text whose UTF-8 encoding is exactly the decoded bytes |
| Utf8.Leading | forvo.py:41 | the first character and width of a well-formed UTF-8 sequence; ASCII bytes stand for themselves |
| Utf8.Decode | shell_forvo.py:38 | `bytes.decode()`: the text is never longer than the bytes |
| Utf8.Encode | forvo.py:41 | the reference UTF-8 encoder: at least one byte per character |
| Utf8.LeadingEncodeChar | forvo.py:41 | the encoding of a character is read back as that character, whatever follows |
| Utf8.EncodeLeading | forvo.py:41 | a well-formed sequence is the encoding of the character it is read as |
| Utf8.RoundTrip | forvo.py:41 | every text survives encoding then decoding |
| Utf8.DecodedIsEncoding | shell_forvo.py:38 | whatever decodes is the encoding of its text, so decoding succeeds exactly on encodings |
| Utf8.DecodeAscii | forvo.py:41 | ASCII bytes decode, one character per byte with the same code |
| Utf8.LoneLeadByte | forvo.py:41 | the byte 0xE9 alone (Latin-1 `é`) raises `UnicodeDecodeError` |
| Lookup.UrlFromOnclick | forvo.py:33-41 | an unpacking failure gives ValueError (too few values); otherwise the result is the URL of the decoded second argument |
| Lookup.DecodeQuoted | forvo.py:41 | the quotes around the encoded path are ignored by `b64decode` |
| Lookup.ResolvesEncodedPath | forvo.py:29-41 | a handler `Play(<id>,'<base64 of the UTF-8 of p>',...);...` resolves to `https://audio00.forvo.com/mp3/` + p, for every text p and whatever the other parts are |
| PyText.Split | forvo.py:34 | `str.split`: one field more than separators, and no field holds the separator |
| PyText.JoinSplit | forvo.py:34 | joining the fields of a split gives back the string |
| PyText.SplitJoin | forvo.py:34 | splitting a join of separator-free parts gives back the parts |
| PyText.SplitPrefix | forvo.py:34 | a separator-free prefix extends only the first field |
| PyText.FirstField | forvo.py:34 | `s.split(';')[0]` is the text before the first `;` |
| PyText.SecondField | shell_forvo.py:31 | the second field is the run between the first separator and the next one or the end |
| PyText.SecondFieldShape | forvo.py:34 | the second field of any split with at least two fields sits right after the first separator, followed by the end or a separator |
| PyText.LStrip | forvo.py:34 | `lstrip(chars)` removes a prefix made only of characters in the set, and stops at a character outside it |
| PyText.RStrip | forvo.py:34 | `rstrip(chars)` removes a suffix made only of characters in the set, and stops at a character outside it |
| PyText.LStripStopsAt | forvo.py:34 | left stripping never passes a character outside the set |
| PyText.RStripStopsAt | forvo.py:34 | right stripping never passes a character outside the set |
| PyText.CountPositive | forvo.py:34 | a character occurs in a string if and only if its count is positive |
| PyText.JoinFirstTwo | forvo.py:34 | a join is its first part, the separator, its second part, then the rest |
| PyText.Find | forvo.py:34 | the index of the first occurrence, or -1 exactly when there is none |
| PyText.FindAfter | forvo.py:34 | the first separator after a separator-free prefix is at the prefix's length |
| Base64.Decode | forvo.py:41 | `b64decode` of a `str` fails with the non-ASCII ValueError if and only if the text is not ASCII. Its other failures (excess data character, incorrect padding) are stated by DecodeDataOnly for unpadded text and by DecodePadded for padded text |
| Base64.DecodeFrom | shell_forvo.py:38 | the decoding loop never reports non-ASCII input once it runs |
| Base64.Encode | forvo.py:41 | the encoding takes 4 characters per started group of 3 bytes |
| Base64.EncodeCharacters | forvo.py:41 | the encoding uses only alphabet characters and `=` |
| Base64.RoundTrip | forvo.py:41 | decoding an encoding gives back the bytes |
| Base64.DecodeEncoded | forvo.py:41 | decoding passes over an encoding and then continues, or ends after a padded group |
| Base64.DecodeSkipsJunk | shell_forvo.py:38 | characters outside the alphabet and `=` do not change the result |
| Base64.DecodePadded | forvo.py:41 | data characters followed by padding: one character over a multiple of 4 is an excess data character; two need two pads, so a single pad is incorrect padding; three need one pad. Every other case decodes |
| Base64.DecodeFromDataPadded | shell_forvo.py:38 | the same from any state of the decoding loop with no pending padding: the quantum the data leaves open decides the outcome of the padding |
| Base64.SkipPads | forvo.py:41 | padding before the second data character of a quantum is skipped |
| Base64.ShortPadding | forvo.py:41 | `QQ=` raises incorrect padding, while `QQ==` and `QUJ=` decode |
| Base64.DecodeDataOnly | forvo.py:41 | alphabet-only text decodes if and only if its length is a multiple of 4, to 3 bytes per 4 characters. A remainder of 1 is an excess data character; 2 or 3 is incorrect padding |
| Base64.Significant | forvo.py:41 | the characters the decoder looks at |
| Base64.ValueOf | forvo.py:41 | the value of an alphabet character is below 64 |
| Base64.CharOf | forvo.py:41 | the character of a value is in the alphabet and decodes back to the value |
| Platform.LastSlash | forvo.py:58 | the last `/` of a path, with no `/` after it |
| Platform.JoinPath | forvo.py:15 | pathlib's `/`: an absolute name replaces the directory, and any other name follows it after one `/` |
| Platform.Host.MakeDir | forvo.py:90 | `Path.mkdir(exist_ok=True)` keeps an existing directory. It fails with FileExistsError on a file, and otherwise with the error of reaching the parent. It adds the directory exactly when it succeeds |
| Platform.Host.WriteBytes | forvo.py:109 | `write_bytes` replaces the file's content exactly when it succeeds. It fails with IsADirectoryError on a directory, and otherwise with the error of reaching the parent |
| Platform.DirectoryFailure | forvo.py:90 | reaching a directory fails exactly when it is not one. The error is FileNotFoundError for the first missing component and NotADirectoryError for the first regular file |
| Platform.MkdirFailure | forvo.py:90 | `mkdir(exist_ok=True)` succeeds exactly on an existing directory, or on a new name whose parent is a directory |
| Platform.WriteFailure | shell_forvo.py:100 | `write_bytes` succeeds exactly on a non-directory whose parent is a directory |
| Platform.FileAsParent | forvo.py:90 | with `/a` a regular file, mkdir and write of `/a/b` raise NotADirectoryError |
| Platform.FirstBadAncestor | forvo.py:90 | the first component that is not a directory decides between FileNotFoundError and NotADirectoryError, however far up it is |
| Platform.Host.Exists | forvo.py:62-63 | `Path.exists()` holds exactly for a file or a directory |
| Platform.Host.Content | shell_forvo.py:100-101 | the bytes a player reads from a path: present exactly for a file, and then the file's content |
| Platform.Host.Unlink | shell_forvo.py:102-103 | `unlink` removes a file exactly when it succeeds. It fails on a directory, on a missing name in a directory, or with the error of reaching the parent |
| Platform.UnlinkFailure | shell_forvo.py:103 | `unlink` succeeds exactly on a file |
| Platform.Host.MakeTemp | shell_forvo.py:99 | `mkstemp` creates a new empty file |
| Platform.Host.FetchPage | forvo.py:27-28 | the search page is the oracle's page, and the request is logged |
| Platform.Host.FetchBody | forvo.py:49 | the audio is the oracle's body, and the request is logged |
| Platform.Host.Spawn | forvo.py:69 | `subprocess.run` records the player's argv and the bytes it was given |
| Platform.Host.constructor | forvo.py:79 | the environment when the script starts: the given file system and oracles, and no request or playback yet |
| Players.FirstAvailable | forvo.py:68-74 | reference scan: every player before the result is missing and the one at the result is installed |
| Players.InstallPlayer | forvo.py:68-74 | installing one more player changes the choice if and only if it comes before the current choice |
| Players.NoPlayerIff | shell_forvo.py:69-76 | no player is found if and only if none of `play`, `mpg123` and `ffplay` is installed |
| Players.ProgramInjective | shell_forvo.py:69-73 | the three players are looked up under three different names |
| Players.Operands | forvo.py:73 | the non-option arguments of an argv |
| Players.Played | forvo.py:66-76 | `play_sound` runs at most one player: one playback, of the chosen argv on the given bytes, exactly when the ladder chose an argv |
| Players.PlayOutcome | forvo.py:95-96 | after `play_sound`, the script exits 0 exactly when a player was found; otherwise PlayerNotFoundError propagates |
| Forvo.PlayerArgv | forvo.py:66-76 | the if/elif ladder agrees with the reference scan. It raises PlayerNotFoundError if and only if no player is installed; otherwise it runs the first installed player with that player's options, then the file |
| Forvo.FfplayGetsOnlyThePath | forvo.py:73 | ffplay's only input is the file |
| Forvo.PlaySound | forvo.py:66-76 | runs the player the ladder chose on the file's current bytes, or fails with PlayerNotFoundError and runs nothing |
| Forvo.Resolve | forvo.py:29-41 | a missing `div` gives ValueError, a missing `onclick` gives KeyError, and a handler gives its URL or its ValueError |
| Forvo.ResolvesPage | forvo.py:29-42 | a page whose `div` carries the site's handler resolves to the URL of the encoded path, for every path text |
| Forvo.GetMp3Url | forvo.py:22-42 | one request for `https://forvo.com/search/<word>/<lang>`, and the resolved marker of that page |
| Forvo.FetchRawMp3 | forvo.py:45-50 | the audio URL is requested only once it is resolved, and the result is that URL's body |
| Forvo.StoreAndPlay | forvo.py:107-110 | the audio is written to the cache path and played from it. A write error leaves files and playbacks untouched |
| Forvo.FetchAndPlay | forvo.py:98-110 | a lookup ValueError exits 1 after the search request alone. `--no-cache` creates an empty temporary file and raises TypeError. Otherwise the audio is stored and played |
| Forvo.Run | forvo.py:90-112 | mkdir errors propagate. A cached key is played without any request. A ValueError exits 1 with nothing written or played. `--no-cache` leaves an empty temporary file and raises TypeError. Otherwise the audio is written to the cache path and played from it |
| Forvo.RunTwice | forvo.py:92-96 | after a first run that exits 0, a second run makes no request, exits 0 and plays the same bytes with the same argv |
| ShellForvo.PlayerArgv | shell_forvo.py:67-76 | the ladder agrees with the reference scan, and ffplay gets `nodisp` without a dash |
| ShellForvo.FfplayGetsStrayOperand | shell_forvo.py:74 | ffplay's inputs are `nodisp` and the file |
| ShellForvo.PlaySound | shell_forvo.py:67-76 | runs the player the ladder chose on the file's current bytes, or fails with PlayerNotFoundError and runs nothing |
| ShellForvo.Resolve | shell_forvo.py:29-38 | a missing `span` gives TypeError, a missing `onclick` gives KeyError, and a handler gives its URL or its ValueError |
| ShellForvo.ResolvesPage | shell_forvo.py:29-39 | a page whose `span` carries the site's handler resolves to the URL of the encoded path, for every path text |
| ShellForvo.GetMp3Url | shell_forvo.py:23-39 | one request for the search page, and the resolved marker of that page |
| ShellForvo.FetchRawMp3 | shell_forvo.py:43-48 | the audio URL is requested only once it is resolved, and the result is that URL's body |
| ShellForvo.PlayTemporarily | shell_forvo.py:99-103 | the audio is played from the temporary file. The file is removed when playback succeeds and is left holding the audio when no player exists |
| ShellForvo.StoreAndPlay | shell_forvo.py:99-101 | the audio is written to the cache path and played from it. A write error leaves files and playbacks untouched |
| ShellForvo.FetchAndPlay | shell_forvo.py:98-103 | every lookup error propagates after the search request alone. `--no-cache` plays from a temporary file. Otherwise the audio is stored and played |
| ShellForvo.Run | shell_forvo.py:90-103 | mkdir errors propagate. A cached key is played without any request. Every lookup error propagates. `--no-cache` plays from a temporary file and, after a successful playback, leaves the files as they were. Otherwise the audio is written to the cache path and played |
| ShellForvo.RunTwice | shell_forvo.py:92-96 | after a first run that exits 0, a second run makes no request, exits 0 and plays the same bytes with the same argv |

## Left out

- The HTTP requests, `fake_useragent` and the `User-Agent` header: the pages and audio bodies are fixed functions of the URL. Network errors are not modelled.
- BeautifulSoup and lxml: a search page is reduced to its first `div` and first `span` marker: absent, without `onclick`, or with its text.
- `shutil.which`, `find_executable` and `subprocess.run`: the executables on the search path are a fixed map. A player run is recorded with its argv and the bytes it was given, and its exit status is ignored, as the scripts ignore it.
- `argparse`, the XDG lookup of the cache home (an argument of the drivers), and every `print` including the message texts.
- `sys.exit(0)` is the `Exit(0)` outcome. The end of the script is also `Exit(0)`.
- The position and message of a `UnicodeDecodeError` are not modelled; only that it is raised.
- Platform.JoinPath: pathlib's normalisation of `//`, `.` and trailing slashes is not modelled, beyond an absolute name replacing the directory.
- Lookup.CachePathLanguage: the only-if half is stated for languages without `/` only, because pathlib merges `x//y` with `x/y` while the path strings of this model keep them apart.
- Lookup.DistinctKeysDistinctPaths: stated for words and languages without `/` only, because pathlib and the operating system merge `a//b` with `a/b` and resolve `..`, which the path strings of this model do not.
- `Path.exists()` following symlinks, permissions, and errors other than the ones listed for mkdir, write_bytes and unlink are not modelled. The file system is not required to be consistent: a path recorded as a directory is taken to be reachable.
- The file descriptor `mkstemp` leaves open, and the name it picks (a parameter), are not modelled.
- Concurrent runs racing on one cache file are not modelled.
- The `binascii.Error` message texts are not modelled. `b64decode` is modelled in its default non-strict mode only.

## Findings

| source | as written | input that shows it | evidently intended | confidence | as-written member | corrected member |
|---|---|---|---|---|---|---|
| shell_forvo.py:74 | ffplay gets `nodisp` without its dash, so ffplay reads it as a second input | a host where only `ffplay` is installed | `-nodisp`, as forvo.py:73 has it | high, not executed | ShellForvo.FfplayGetsStrayOperand | Forvo.FfplayGetsOnlyThePath |
| forvo.py:105 | `Path(tempfile.mkstemp(...))` takes the returned tuple and raises TypeError, so `--no-cache` never plays and leaves an empty temporary file | `--no-cache` for an uncached word whose page resolves | the name `mkstemp(...)[1]`, as shell_forvo.py:99 has it | high, not executed | Forvo.Run | ShellForvo.PlayTemporarily |
| shell_forvo.py:29-30 | a page without a `span` marker subscripts None and raises TypeError | a search page without a matching `span` | a reported lookup failure and exit status 1, as forvo.py:30-31 and 98-102 do | medium, not executed | ShellForvo.Resolve | Forvo.Resolve |

