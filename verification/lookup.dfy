/** The helpers forvo.py and shell_forvo.py share word for word: the cache
    path of a (word, language) key, and the audio URL hidden in the `onclick`
    handler of the page's play marker. */
module Lookup {
  import opened Wrappers
  import opened PyText
  import Base64
  import Utf8
  import opened Platform

  const AUDIO_URL_PREFIX := "https://audio00.forvo.com/mp3/"
  const SEARCH_URL_PREFIX := "https://forvo.com/search/"
  /** The argument of `lstrip('Play(')`, which Python reads as a set. */
  const PLAY_CHARS: set<char> := {'P', 'l', 'a', 'y', '('}

  /** `f'https://forvo.com/search/{word}/{lang}'`: the search page fetched
      for a key, with the language as given (an empty one stays empty). */
  function SearchUrl(word: string, lang: string): (u: string)
    ensures var n := |SEARCH_URL_PREFIX| + |word|;
            n < |u| && u[..|SEARCH_URL_PREFIX|] == SEARCH_URL_PREFIX && u[|SEARCH_URL_PREFIX|..n] == word &&
            u[n] == '/' && u[n + 1..] == lang
  {
    SEARCH_URL_PREFIX + word + "/" + lang
  }

  /** The language as it appears in a cache file name. */
  function LangOrDefault(lang: string): string
  {
    if lang == "" then "default" else lang
  }

  /** `f'{word}-{lang}.mp3'` after the empty language became "default". */
  function CacheFileName(word: string, lang: string): string
  {
    word + "-" + LangOrDefault(lang) + ".mp3"
  }

  /** `get_cache_path(word, lang)`: `CACHE_HOME / f'{word}-{lang}.mp3'`. */
  function CachePath(home: Path, word: string, lang: string): (p: Path)
    ensures |p| >= 4 && p[|p| - 4..] == ".mp3"
  {
    JoinPath(home, CacheFileName(word, lang))
  }

  /** A word that is not an absolute path gives a file directly named in the
      cache directory, with no escaping of the word or the language. */
  lemma CachePathInHome(home: Path, word: string, lang: string)
    requires word == [] || word[0] != '/'
    ensures CachePath(home, word, lang) == home + "/" + word + "-" + LangOrDefault(lang) + ".mp3"
  {
  }

  /** A word that is an absolute path replaces the cache directory. */
  lemma AbsoluteWordLeavesHome(home: Path, word: string, lang: string)
    requires word != [] && word[0] == '/'
    ensures CachePath(home, word, lang) == word + "-" + LangOrDefault(lang) + ".mp3"
  {
  }

  lemma NamesMatch(home: Path, n1: string, n2: string)
    requires n1 != [] && n2 != []
    requires (n1[0] == '/') == (n2[0] == '/')
    requires JoinPath(home, n1) == JoinPath(home, n2)
    ensures n1 == n2
  {
    if n1[0] != '/' {
      var p := JoinPath(home, n1);
      assert n1 == p[|home| + 1..] == n2;
    }
  }

  /** Where the word and the language sit in a cache file name. */
  lemma NameParts(word: string, lang: string)
    ensures var n := CacheFileName(word, lang);
            |word| + 5 <= |n| && n[..|word|] == word && n[|word| + 1..|n| - 4] == LangOrDefault(lang) &&
            n[0] == (if word == [] then '-' else word[0]) &&
            ('-' !in word ==> Find(n, '-') == |word|)
  {
    var l := LangOrDefault(lang);
    var n := CacheFileName(word, lang);
    assert n == word + ['-'] + (l + ".mp3");
    if '-' !in word {
      FindAfter(word, l + ".mp3", '-');
    }
  }

  /** For a fixed word, languages that agree after the empty language
      became "default" share a cache file; in particular
      `get_cache_path(w, '') == get_cache_path(w, 'default')`. Conversely,
      languages without '/' that share a cache file agree: a '/' would let
      pathlib merge "x//y" with "x/y", which the path strings here keep
      apart. */
  lemma CachePathLanguage(home: Path, word: string, lang1: string, lang2: string)
    ensures LangOrDefault(lang1) == LangOrDefault(lang2)
            ==> CachePath(home, word, lang1) == CachePath(home, word, lang2)
    ensures '/' !in lang1 && '/' !in lang2 && CachePath(home, word, lang1) == CachePath(home, word, lang2)
            ==> LangOrDefault(lang1) == LangOrDefault(lang2)
  {
    if CachePath(home, word, lang1) == CachePath(home, word, lang2) {
      NameParts(word, lang1);
      NameParts(word, lang2);
      NamesMatch(home, CacheFileName(word, lang1), CacheFileName(word, lang2));
    }
  }

  /** The search keeps the language as given while the cache spells the
      empty language "default": both keys share a cache file but not a
      search page. */
  lemma EmptyLanguageSearchedAsGiven(home: Path, word: string)
    ensures CachePath(home, word, "") == CachePath(home, word, "default")
    ensures SearchUrl(word, "") != SearchUrl(word, "default")
  {
    var n := |SEARCH_URL_PREFIX| + |word|;
    assert |SearchUrl(word, "")| == n + 1 < |SearchUrl(word, "default")|;
  }

  /** Because nothing is escaped, keys whose words hold a '-' can share a
      file: ("a-b", "c") and ("a", "b-c") both give "a-b-c.mp3". */
  lemma DashedKeysCollide(home: Path)
    ensures CachePath(home, "a-b", "c") == CachePath(home, "a", "b-c")
  {
  }

  /** Keys whose words hold no '-' and whose words and languages hold no
      '/' (so the file name is one component directly in the cache
      directory) share a cache file only when they are the same key, up to
      the empty language spelled "default". */
  lemma DistinctKeysDistinctPaths(home: Path, word1: string, lang1: string, word2: string, lang2: string)
    requires '-' !in word1 && '-' !in word2
    requires '/' !in word1 + lang1 && '/' !in word2 + lang2
    requires CachePath(home, word1, lang1) == CachePath(home, word2, lang2)
    ensures word1 == word2 && LangOrDefault(lang1) == LangOrDefault(lang2)
  {
    assert word1 == [] || word1[0] == (word1 + lang1)[0];
    assert word2 == [] || word2[0] == (word2 + lang2)[0];
    NameParts(word1, lang1);
    NameParts(word2, lang2);
    NamesMatch(home, CacheFileName(word1, lang1), CacheFileName(word2, lang2));
  }

  /** The argument list the code splits: the handler up to its first ';',
      without leading characters from "Play(" and without trailing ')'. */
  function CallArguments(onclick: string): (args: string)
    ensures ';' !in args
    ensures args == [] || (args[0] !in PLAY_CHARS && args[|args| - 1] != ')')
  {
    RStrip(LStrip(Split(onclick, ';')[0], PLAY_CHARS), {')'})
  }

  /** `_, path_mp3, *_ = args.split(',')`: the second field, or the
      `ValueError` of an unpacking that finds fewer than two values. */
  function UnpackSecond(args: string): (r: Result<string, ValueReason>)
    ensures r.Success? <==> ',' in args
    ensures r.Failure? ==> r.error == NotEnoughValues
    ensures r.Success? ==>
              var k, f := Find(args, ','), r.value;
              ',' !in f && k + 1 + |f| <= |args| && args[k + 1..k + 1 + |f|] == f &&
              (k + 1 + |f| == |args| || args[k + 1 + |f|] == ',')
  {
    var fields := Split(args, ',');
    CountPositive(args, ',');
    if |fields| < 2 then Failure(NotEnoughValues)
    else
      SecondFieldShape(args, ',');
      Success(fields[1])
  }

  /** The Play(...) argument that holds the encoded audio path: present
      exactly when the argument list has a comma, and free of the separators
      it was cut out with. */
  function ExtractFragment(onclick: string): (r: Result<string, ValueReason>)
    ensures r.Success? <==> ',' in CallArguments(onclick)
    ensures r.Failure? ==> r.error == NotEnoughValues
    ensures r.Success? ==> ',' !in r.value && ';' !in r.value
  {
    UnpackSecond(CallArguments(onclick))
  }

  /** `f'https://audio00.forvo.com/mp3/{base64.b64decode(path_mp3).decode()}'`:
      a URL whose tail is the text the decoded bytes are the UTF-8 encoding
      of, or the `ValueError` (`binascii.Error` or `UnicodeDecodeError`)
      the decoding raises. */
  function UrlFromFragment(fragment: string): (r: Result<string, ValueReason>)
    ensures Base64.Decode(fragment).Failure? ==> r == Failure(Undecodable(Base64.Decode(fragment).error))
    ensures Base64.Decode(fragment).Success? ==>
              (r.Success? <==> Utf8.Decode(Base64.Decode(fragment).value).Some?)
    ensures r.Failure? && Base64.Decode(fragment).Success? ==> r.error == NotUtf8
    ensures r.Success? ==>
              |AUDIO_URL_PREFIX| <= |r.value| && r.value[..|AUDIO_URL_PREFIX|] == AUDIO_URL_PREFIX &&
              Utf8.Encode(r.value[|AUDIO_URL_PREFIX|..]) == Base64.Decode(fragment).value
  {
    match Base64.Decode(fragment)
    case Failure(e) => Failure(Undecodable(e))
    case Success(b) =>
      match Utf8.Decode(b)
      case None => Failure(NotUtf8)
      case Some(text) =>
        Utf8.DecodedIsEncoding(b);
        var url := AUDIO_URL_PREFIX + text;
        assert url[|AUDIO_URL_PREFIX|..] == text;
        Success(url)
  }

  /** The audio URL named by an `onclick` handler, or the `ValueError` the
      extraction or the decoding raises. */
  function UrlFromOnclick(onclick: string): (r: Result<string, ValueReason>)
    ensures ExtractFragment(onclick).Failure? ==> r == Failure(NotEnoughValues)
    ensures ExtractFragment(onclick).Success? ==> r == UrlFromFragment(ExtractFragment(onclick).value)
  {
    var fragment :- ExtractFragment(onclick);
    UrlFromFragment(fragment)
  }

  /** The argument list of a handler `<head>,<field>,<more>;<tail>`. */
  lemma HandlerArguments(head: string, field: string, more: string, tail: string)
    requires ',' !in head && ';' !in head && ';' !in field && ';' !in more
    ensures CallArguments(head + "," + field + "," + more + ";" + tail)
            == LStrip(head, PLAY_CHARS) + [','] + field + ([','] + RStrip(more, {')'}))
  {
    var x := head + ([','] + field + [','] + more);
    assert head + "," + field + "," + more + ";" + tail == x + [';'] + tail by {
      HandlerText(head, field, more);
    }
    ArgumentsBeforeSemicolon(x, tail);
    StripArguments(head, field, more);
  }

  /** Stripping an argument list strips only its first and last argument. */
  lemma StripArguments(head: string, field: string, more: string)
    ensures RStrip(LStrip(head + ([','] + field + [','] + more), PLAY_CHARS), {')'})
            == LStrip(head, PLAY_CHARS) + [','] + field + ([','] + RStrip(more, {')'}))
  {
    var y := LStrip(head, PLAY_CHARS) + ([','] + field + [',']);
    LeftArgument(head, field, more);
    StripAfterComma(y, more);
    Reassociate(LStrip(head, PLAY_CHARS), field, RStrip(more, {')'}));
  }

  /** `lstrip` leaves everything from the first comma on. */
  lemma LeftArgument(head: string, field: string, more: string)
    ensures LStrip(head + ([','] + field + [','] + more), PLAY_CHARS)
            == LStrip(head, PLAY_CHARS) + ([','] + field + [',']) + more
  {
    var z := [','] + field + [','];
    StripBeforeComma(head, z + more);
    Assoc(LStrip(head, PLAY_CHARS), z, more);
  }

  /** Kept apart so that regrouping a concatenation is proved without the
      stripping facts in scope. */
  lemma Assoc(a: string, b: string, c: string)
    ensures a + (b + c) == a + b + c
  {
  }

  /** Kept apart, like Assoc, so that the regrouping is proved on its own
      and stays stable across solver seeds. */
  lemma HandlerText(head: string, field: string, more: string)
    ensures head + "," + field + "," + more == head + ([','] + field + [','] + more)
  {
  }

  /** Only the text before the first ';' is stripped. */
  lemma ArgumentsBeforeSemicolon(x: string, tail: string)
    requires ';' !in x
    ensures CallArguments(x + [';'] + tail) == RStrip(LStrip(x, PLAY_CHARS), {')'})
  {
    FirstField(x, tail, ';');
  }

  /** Kept apart, like Assoc, for proof stability across solver seeds. */
  lemma Reassociate(a: string, f: string, r: string)
    ensures a + ([','] + f + [',']) + r == a + [','] + f + ([','] + r)
  {
  }

  /** `lstrip('Play(')` stops at the comma that ends the first argument. */
  lemma StripBeforeComma(head: string, rest: string)
    requires rest != [] && rest[0] == ','
    ensures LStrip(head + rest, PLAY_CHARS) == LStrip(head, PLAY_CHARS) + rest
  {
    assert ',' !in PLAY_CHARS;
    LStripStopsAt(head, rest, PLAY_CHARS);
  }

  /** `rstrip(')')` stops at the comma that ends the second argument. */
  lemma StripAfterComma(y: string, more: string)
    requires y != [] && y[|y| - 1] == ','
    ensures RStrip(y + more, {')'}) == y + RStrip(more, {')'})
  {
    RStripStopsAt(y, more, {')'});
  }

  /** The second argument of such a handler is `<field>`. */
  lemma HandlerFragment(head: string, field: string, more: string, tail: string)
    requires ',' !in head && ';' !in head && ',' !in field && ';' !in field && ';' !in more
    ensures ExtractFragment(head + "," + field + "," + more + ";" + tail) == Success(field)
  {
    HandlerArguments(head, field, more, tail);
    var stripped := LStrip(head, PLAY_CHARS);
    assert ',' !in stripped;
    SecondField(stripped, field, [','] + RStrip(more, {')'}), ',');
  }

  /** The quotes around the encoded path are discarded by the decoder. */
  lemma DecodeQuoted(bytes: Bytes)
    ensures Base64.Decode("'" + Base64.Encode(bytes) + "'") == Success(bytes)
  {
    var enc := Base64.Encode(bytes);
    var field := "'" + enc + "'";
    Base64.EncodeCharacters(bytes);
    assert Base64.IsAscii(field);
    assert field == ['\''] + (enc + "'");
    assert Base64.DecodeFrom(field, 0, 0, 0, []) == Base64.DecodeFrom(enc + "'", 0, 0, 0, []);
    Base64.DecodeEncoded(bytes, "'", []);
    assert [] + bytes == bytes;
  }

  /** The handler the site writes, `Play(<id>,'<base64 of the path>',...);...`,
      resolves to the audio URL of that path whatever the id, the other
      arguments and the rest of the handler are. */
  lemma ResolvesEncodedPath(head: string, path: string, more: string, tail: string)
    requires ',' !in head && ';' !in head && ';' !in more
    ensures UrlFromOnclick(head + ",'" + Base64.Encode(Utf8.Encode(path)) + "'," + more + ";" + tail)
            == Success(AUDIO_URL_PREFIX + path)
  {
    var bytes := Utf8.Encode(path);
    var enc := Base64.Encode(bytes);
    var field := "'" + enc + "'";
    assert ',' !in field && ';' !in field by {
      Base64.EncodeCharacters(bytes);
    }
    assert head + ",'" + enc + "'," + more + ";" + tail == head + "," + field + "," + more + ";" + tail;
    HandlerFragment(head, field, more, tail);
    DecodeQuoted(bytes);
    Utf8.RoundTrip(path);
  }
}
