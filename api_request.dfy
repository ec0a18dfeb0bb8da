/**
 * The node helper's request address for a verse reference (`buildAPIUrl`): either a
 * configured endpoint pattern with `{book}`, `{chapter}` and `{verse}` filled in, or the
 * default `<base>/verses/<book>/<chapter>/<verse>`. `encodeURIComponent` is a parameter.
 */
module ApiRequest {
  import opened Wrappers
  import opened Text
  import opened ReferenceParser

  /** A configuration value that is set: neither `null` nor the empty string. */
  predicate Configured(setting: Option<string>) {
    setting.Some? && setting.value != ""
  }

  /** The default address layout. */
  function DefaultUrl(baseUrl: string, book: string, chapter: nat, verse: nat): string {
    baseUrl + "/verses/" + book + "/" + NatToString(chapter) + "/" + NatToString(verse)
  }

  /** The three placeholders, each replaced at its first occurrence, in this order. */
  function FillPattern(pattern: string, book: string, chapter: nat, verse: nat): string {
    ReplaceFirst(ReplaceFirst(ReplaceFirst(pattern, "{book}", book), "{chapter}", NatToString(chapter)),
                 "{verse}", NatToString(verse))
  }

  /** buildAPIUrl. */
  function BuildApiUrl(baseUrl: Option<string>, pattern: Option<string>, reference: string,
                       encode: string -> string): (r: Result<string, string>)
    ensures !Configured(baseUrl) ==> r == Failure("API base URL not configured")
    ensures Configured(baseUrl) ==> (r.Failure? <==> ParseVerseReference(reference).Failure?)
    ensures Configured(baseUrl) && r.Failure? ==> r.error == "Invalid verse reference format: " + reference
    ensures r.Success? && !Configured(pattern) ==> StartsWith(r.value, baseUrl.value)
  {
    if !Configured(baseUrl) then Failure("API base URL not configured")
    else
      match ParseVerseReference(reference)
      case Failure(e) => Failure(e)
      case Success(p) =>
        var book := encode(p.book);
        if Configured(pattern) then Success(FillPattern(pattern.value, book, p.chapter, p.verse))
        else
          DefaultUrlTail(baseUrl.value, book, p.chapter, p.verse);
          Success(DefaultUrl(baseUrl.value, book, p.chapter, p.verse))
  }

  /**
   * The default address read back: after the base it splits on `/` into `verses`, the
   * book, and the chapter and verse, which parse back to the numbers.
   */
  lemma DefaultUrlSegments(baseUrl: string, book: string, chapter: nat, verse: nat)
    requires '/' !in book
    ensures var url := DefaultUrl(baseUrl, book, chapter, verse);
      && StartsWith(url, baseUrl)
      && Split(url[|baseUrl|..], '/') == ["", "verses", book, NatToString(chapter), NatToString(verse)]
  {
    var c, v := NatToString(chapter), NatToString(verse);
    DefaultUrlTail(baseUrl, book, chapter, verse);
    NoSlashInNumber(chapter);
    NoSlashInNumber(verse);
    SplitSegments(book, c, v);
  }

  lemma DefaultUrlTail(baseUrl: string, book: string, chapter: nat, verse: nat)
    ensures var url := DefaultUrl(baseUrl, book, chapter, verse);
      && StartsWith(url, baseUrl)
      && url[|baseUrl|..] == Join(["", "verses", book, NatToString(chapter), NatToString(verse)], '/')
  {
    var c, v := NatToString(chapter), NatToString(verse);
    JoinSegments(book, c, v);
    var url := DefaultUrl(baseUrl, book, chapter, verse);
    assert url == baseUrl + ("/verses/" + book + "/" + c + "/" + v);
  }

  lemma SplitSegments(book: string, c: string, v: string)
    requires '/' !in book && '/' !in c && '/' !in v
    ensures Split(Join(["", "verses", book, c, v], '/'), '/') == ["", "verses", book, c, v]
  {
    var parts := ["", "verses", book, c, v];
    assert forall k :: 0 <= k < |parts| ==> '/' !in parts[k];
    SplitJoin(parts, '/');
  }

  /** Digits hold no `/`. */
  lemma NoSlashInNumber(n: nat)
    ensures '/' !in NatToString(n)
  {
    var s := NatToString(n);
    assert forall i :: 0 <= i < |s| ==> IsDigit(s[i]);
  }

  lemma JoinSegments(book: string, c: string, v: string)
    ensures Join(["", "verses", book, c, v], '/') == "/verses/" + book + "/" + c + "/" + v
  {
    var parts := ["", "verses", book, c, v];
    assert parts[1..] == ["verses", book, c, v];
    assert parts[1..][1..] == [book, c, v];
    assert parts[1..][1..][1..] == [c, v];
    assert parts[1..][1..][1..][1..] == [v];
    assert Join([c, v], '/') == c + "/" + v;
    assert Join([book, c, v], '/') == book + "/" + (c + "/" + v);
    assert Join(["verses", book, c, v], '/') == "verses" + "/" + (book + "/" + (c + "/" + v));
  }

  /** The default address of a reference, read back into the parsed chapter and verse. */
  lemma BuildDefaultUrlReadBack(baseUrl: string, reference: string, encode: string -> string)
    requires baseUrl != [] && ParseVerseReference(reference).Success?
    requires '/' !in encode(ParseVerseReference(reference).value.book)
    ensures var p := ParseVerseReference(reference).value;
      var url := BuildApiUrl(Some(baseUrl), None, reference, encode).value;
      var segments := Split(url[|baseUrl|..], '/');
      && |segments| == 5 && segments[1] == "verses" && segments[2] == encode(p.book)
      && AllDigits(segments[3]) && DigitsValue(segments[3]) == p.chapter
      && AllDigits(segments[4]) && DigitsValue(segments[4]) == p.verse
  {
    var p := ParseVerseReference(reference).value;
    DefaultUrlSegments(baseUrl, encode(p.book), p.chapter, p.verse);
    DigitsValueOfNatToString(p.chapter);
    DigitsValueOfNatToString(p.verse);
  }

  /** A placeholder that follows text without `{` is found right where it starts. */
  lemma PlaceholderFoundAfter(a: string, b: string, t: string)
    requires t != [] && t[0] == '{' && '{' !in a && StartsWith(b, t)
    ensures IndexOfSub(a + b, t) == Some(|a|)
  {
    var s := a + b;
    assert s[|a|..] == b;
    forall k | 0 <= k < |a| ensures !StartsWith(s[k..], t) {
      assert s[k..][0] == a[k];
    }
    IndexOfSubAt(s, t, |a|);
  }

  /** Replacing a placeholder that follows text without `{`. */
  lemma ReplaceAfter(a: string, t: string, rest: string, rep: string)
    requires t != [] && t[0] == '{' && '{' !in a
    ensures ReplaceFirst(a + t + rest, t, rep) == a + rep + rest
  {
    assert a + t + rest == a + (t + rest);
    PlaceholderFoundAfter(a, t + rest, t);
    var s := a + t + rest;
    assert s[..|a|] == a && s[|a| + |t|..] == rest;
  }

  /** Digits hold no `{`. */
  lemma NoBraceInNumber(n: nat)
    ensures '{' !in NatToString(n)
  {
    var s := NatToString(n);
    assert forall i :: 0 <= i < |s| ==> IsDigit(s[i]);
  }

  /**
   * An endpoint pattern that spells out the default layout is filled into the default
   * address, as long as neither the base nor the book holds a `{`.
   */
  lemma FillDefaultPattern(baseUrl: string, book: string, chapter: nat, verse: nat)
    requires '{' !in baseUrl && '{' !in book
    ensures FillPattern(baseUrl + "/verses/{book}/{chapter}/{verse}", book, chapter, verse)
      == DefaultUrl(baseUrl, book, chapter, verse)
  {
    var c, v := NatToString(chapter), NatToString(verse);
    NoBraceInNumber(chapter);
    var p1 := baseUrl + "/verses/" + book;
    FillBook(baseUrl, book);
    FillChapter(p1, c);
    FillVerse(p1 + "/" + c, v);
  }

  // The three steps of FillDefaultPattern, one placeholder each. They differ only in the
  // literal shape each states, which spares FillDefaultPattern re-associating the concatenations.

  lemma FillBook(baseUrl: string, book: string)
    requires '{' !in baseUrl
    ensures ReplaceFirst(baseUrl + "/verses/{book}/{chapter}/{verse}", "{book}", book)
      == baseUrl + "/verses/" + book + "/{chapter}/{verse}"
  {
    var a := baseUrl + "/verses/";
    assert baseUrl + "/verses/{book}/{chapter}/{verse}" == a + "{book}" + "/{chapter}/{verse}";
    ReplaceAfter(a, "{book}", "/{chapter}/{verse}", book);
  }

  lemma FillChapter(prefix: string, c: string)
    requires '{' !in prefix
    ensures ReplaceFirst(prefix + "/{chapter}/{verse}", "{chapter}", c) == prefix + "/" + c + "/{verse}"
  {
    var a := prefix + "/";
    assert prefix + "/{chapter}/{verse}" == a + "{chapter}" + "/{verse}";
    ReplaceAfter(a, "{chapter}", "/{verse}", c);
  }

  lemma FillVerse(prefix: string, v: string)
    requires '{' !in prefix
    ensures ReplaceFirst(prefix + "/{verse}", "{verse}", v) == prefix + "/" + v
  {
    var a := prefix + "/";
    assert prefix + "/{verse}" == a + "{verse}" + "";
    ReplaceAfter(a, "{verse}", "", v);
    assert a + v + "" == prefix + "/" + v;
  }

  /** So such a pattern and no pattern at all build the same address. */
  lemma DefaultPatternAgrees(baseUrl: string, reference: string, encode: string -> string)
    requires baseUrl != [] && '{' !in baseUrl && ParseVerseReference(reference).Success?
    requires '{' !in encode(ParseVerseReference(reference).value.book)
    ensures BuildApiUrl(Some(baseUrl), Some(baseUrl + "/verses/{book}/{chapter}/{verse}"), reference, encode)
      == BuildApiUrl(Some(baseUrl), None, reference, encode)
  {
    var p := ParseVerseReference(reference).value;
    FillDefaultPattern(baseUrl, encode(p.book), p.chapter, p.verse);
  }

  /** With a base address and no pattern, the address is the default layout of the parsed parts. */
  lemma BuildDefaultUrl(baseUrl: string, reference: string, encode: string -> string)
    requires baseUrl != "" && ParseVerseReference(reference).Success?
    ensures var p := ParseVerseReference(reference).value;
      BuildApiUrl(Some(baseUrl), None, reference, encode)
      == Success(DefaultUrl(baseUrl, encode(p.book), p.chapter, p.verse))
  {
  }

  /** The default address for "1 Nephi 3:7", given the encoding of its book. */
  lemma DefaultUrlExample(encode: string -> string, reference: string)
    requires reference == "1 Nephi 3:7" && encode("1 Nephi") == "1%20Nephi"
    ensures BuildApiUrl(Some("https://api.example.org"), None, reference, encode)
      == Success("https://api.example.org/verses/1%20Nephi/3/7")
  {
    ParseSingleVerseExample();
    BuildDefaultUrl("https://api.example.org", reference, encode);
    DefaultUrlLayoutExample();
  }

  lemma DefaultUrlLayoutExample()
    ensures DefaultUrl("https://api.example.org", "1%20Nephi", 3, 7) == "https://api.example.org/verses/1%20Nephi/3/7"
  {
    assert NatToString(3) == "3" && NatToString(7) == "7";
  }

  /** Without a base address nothing is built, whatever the pattern. */
  lemma UnconfiguredExample(encode: string -> string)
    ensures BuildApiUrl(None, Some("https://x/{book}"), "1 Nephi 3:7", encode)
      == Failure("API base URL not configured")
    ensures BuildApiUrl(Some(""), None, "1 Nephi 3:7", encode) == Failure("API base URL not configured")
  {
  }
}
