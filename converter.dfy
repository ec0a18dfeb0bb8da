/**
 * The record-level logic of the data converter: the reference formatter, the volume lookup by
 * book name over the fixed book lists, and the conversion of one source record, whatever of
 * its three supported shapes it has, into a `{reference, text}` entry.
 */
module Converter {
  import opened Wrappers
  import opened Text
  import opened Volumes
  import opened ApiResponse
  import ReferenceParser

  /** The book names each volume is recognised by, in the order they are listed. */
  function BookNames(v: Volume): seq<string> {
    match v
    case Bible =>
      ["Genesis", "Exodus", "Leviticus", "Numbers", "Deuteronomy"] +
      ["Joshua", "Judges", "Ruth", "1 Samuel", "2 Samuel"] +
      ["1 Kings", "2 Kings", "1 Chronicles", "2 Chronicles", "Ezra"] +
      ["Nehemiah", "Esther", "Job", "Psalms", "Proverbs"] +
      ["Ecclesiastes", "Song of Solomon", "Isaiah", "Jeremiah", "Lamentations"] +
      ["Ezekiel", "Daniel", "Hosea", "Joel", "Amos"] +
      ["Obadiah", "Jonah", "Micah", "Nahum", "Habakkuk"] +
      ["Zephaniah", "Haggai", "Zechariah", "Malachi"] +
      ["Matthew", "Mark", "Luke", "John", "Acts"] +
      ["Romans", "1 Corinthians", "2 Corinthians", "Galatians", "Ephesians"] +
      ["Philippians", "Colossians", "1 Thessalonians", "2 Thessalonians"] +
      ["1 Timothy", "2 Timothy", "Titus", "Philemon", "Hebrews"] +
      ["James", "1 Peter", "2 Peter", "1 John", "2 John"] +
      ["3 John", "Jude", "Revelation"]
    case BookOfMormon =>
      ["1 Nephi", "2 Nephi", "Jacob", "Enos", "Jarom"] +
      ["Omni", "Words of Mormon", "Mosiah", "Alma", "Helaman"] +
      ["3 Nephi", "4 Nephi", "Mormon", "Ether", "Moroni"]
    case DoctrineAndCovenants => ["D&C", "Doctrine and Covenants"]
    case PearlOfGreatPrice => [
      "Moses", "Abraham", "Joseph Smith--Matthew",
      "Joseph Smith--History", "Articles of Faith"]
  }

  /** The file a volume's list is saved to. */
  function FileName(v: Volume): string {
    match v
    case Bible => "bible.json"
    case BookOfMormon => "book-of-mormon.json"
    case DoctrineAndCovenants => "doctrine-and-covenants.json"
    case PearlOfGreatPrice => "pearl-of-great-price.json"
  }

  function DisplayName(v: Volume): string {
    match v
    case Bible => "Bible"
    case BookOfMormon => "Book of Mormon"
    case DoctrineAndCovenants => "Doctrine and Covenants"
    case PearlOfGreatPrice => "Pearl of Great Price"
  }

  // ---------------------------------------------------------------------------------------
  // The reference formatter

  /** How a template literal prints a JSON value. */
  function TemplateText(v: Json): string
    decreases v, 1
  {
    match v
    case JNull => "null"
    case JBool(b) => if b then "true" else "false"
    case JNumber(n) => IntToString(n)
    case JString(s) => s
    case JArray(items) => ArrayText(v, items)
    case JObject(_) => "[object Object]"
  }

  /** An array prints as its elements joined by commas, `null` elements as nothing. */
  function ArrayText(whole: Json, items: seq<Json>): string
    requires whole.JArray? && items <= whole.items
    decreases whole, 0, |items|
  {
    if items == [] then ""
    else
      var last := items[|items| - 1];
      assert last in whole.items;
      var rest := ArrayText(whole, items[..|items| - 1]);
      var item := if last.JNull? then "" else TemplateText(last);
      if |items| == 1 then item else rest + "," + item
  }

  /** The book name that goes into a reference: the Doctrine and Covenants always as "D&C". */
  function BookLabel(book: Json): (name: string)
    ensures book == JString("Doctrine and Covenants") || book == JString("D&C") ==> name == "D&C"
    ensures book.JString? && book.s != "Doctrine and Covenants" ==> name == book.s
  {
    if book == JString("Doctrine and Covenants") || book == JString("D&C") then "D&C"
    else TemplateText(book)
  }

  /** parseVerseReference of the converter: `"<book> <chapter>:<verse>"`. */
  function FormatVerseReference(book: Json, chapter: Json, verse: Json): string {
    BookLabel(book) + " " + TemplateText(chapter) + ":" + TemplateText(verse)
  }

  /** With a string book and whole numbers, the converter's formatter and the node helper's agree. */
  lemma FormatAgreesWithParser(book: string, chapter: nat, verse: nat)
    ensures FormatVerseReference(JString(book), JNumber(chapter), JNumber(verse))
      == ReferenceParser.FormatReference(BookLabel(JString(book)), chapter, verse, None)
  {
    var shown := BookLabel(JString(book));
    assert ReferenceParser.FormatReference(shown, chapter, verse, None)
      == shown + " " + NatToString(chapter) + ":" + NatToString(verse) + "";
  }

  /**
   * What the converter writes, the node helper reads back: a plain book comes back as itself,
   * "Doctrine and Covenants" as "D&C", and the chapter and verse unchanged.
   */
  lemma FormattedReferenceParses(book: string, chapter: nat, verse: nat)
    requires ReferenceParser.PlainBookName(book)
    ensures ReferenceParser.ParseVerseReference(FormatVerseReference(JString(book), JNumber(chapter), JNumber(verse)))
      == Success(ReferenceParser.VerseReference(BookLabel(JString(book)), chapter, verse, None))
    ensures book != "Doctrine and Covenants" ==> BookLabel(JString(book)) == book
    ensures book == "Doctrine and Covenants" ==> BookLabel(JString(book)) == "D&C"
  {
    FormatAgreesWithParser(book, chapter, verse);
    var shown := BookLabel(JString(book));
    assert "D&C"[0] == 'D' && "D&C"[2] == 'C';
    assert ReferenceParser.PlainBookName(shown);
    ReferenceParser.ParseFormatRoundTrip(shown, chapter, verse, None);
  }

  /** The Doctrine and Covenants is written "D&C", however the record spells it. */
  lemma FormatExamples()
    ensures FormatVerseReference(JString("1 Nephi"), JNumber(3), JNumber(7)) == "1 Nephi 3:7"
    ensures FormatVerseReference(JString("Doctrine and Covenants"), JNumber(1), JNumber(1)) == "D&C 1:1"
    ensures FormatVerseReference(JString("D&C"), JNumber(1), JNumber(1)) == "D&C 1:1"
  {
    assert NatToString(3) == "3" && NatToString(7) == "7" && NatToString(1) == "1";
  }

  /** A chapter and verse given as strings print as themselves, like the numbers they spell. */
  lemma FormatStringFieldsExample()
    ensures FormatVerseReference(JString("John"), JString("3"), JString("16")) == "John 3:16"
    ensures FormatVerseReference(JString("John"), JNumber(3), JNumber(16)) == "John 3:16"
  {
    assert NatToString(3) == "3";
    assert NatToString(16) == NatToString(1) + [DigitChar(6)] == "16";
  }

  // ---------------------------------------------------------------------------------------
  // The volume lookup

  /** The test `.some` applies to one listed name. */
  predicate NameMatches(normalized: string, name: string) {
    normalized == name || Includes(normalized, name) || Includes(name, normalized)
  }

  /** `names.some(...)`. */
  predicate SomeNameMatches(names: seq<string>, normalized: string) {
    exists i :: 0 <= i < |names| && NameMatches(normalized, names[i])
  }

  /** The book lists of the volumes, as the volume lookup is given them. */
  type Catalog = Volume -> seq<string>

  /** The for-of over the volumes in order, returning at the first whose names match. */
  function FirstMatchingVolume(volumes: seq<Volume>, catalog: Catalog, normalized: string): (r: Option<Volume>)
    ensures r.Some? ==> SomeNameMatches(catalog(r.value), normalized)
    ensures r.None? <==> forall k :: 0 <= k < |volumes| ==> !SomeNameMatches(catalog(volumes[k]), normalized)
    ensures r.Some? ==> exists k :: (0 <= k < |volumes| && volumes[k] == r.value
      && forall i :: 0 <= i < k ==> !SomeNameMatches(catalog(volumes[i]), normalized))
  {
    if volumes == [] then None
    else if SomeNameMatches(catalog(volumes[0]), normalized) then
      assert volumes[0] == volumes[0];
      Some(volumes[0])
    else
      var r := FirstMatchingVolume(volumes[1..], catalog, normalized);
      if r.Some? then
        var k :| 0 <= k < |volumes[1..]| && volumes[1..][k] == r.value
          && forall i :: 0 <= i < k ==> !SomeNameMatches(catalog(volumes[1..][i]), normalized);
        assert volumes[k + 1] == r.value;
        r
      else r
  }

  /** The loop over the volume order, stated in terms of the volumes' ranks. */
  lemma FirstMatchInOrder(catalog: Catalog, normalized: string)
    ensures var found := FirstMatchingVolume(AllVolumes, catalog, normalized);
      && (found.Some? ==> forall w :: Rank(w) < Rank(found.value) ==> !SomeNameMatches(catalog(w), normalized))
      && (found.None? <==> forall w :: !SomeNameMatches(catalog(w), normalized))
  {
    var found := FirstMatchingVolume(AllVolumes, catalog, normalized);
    if found.Some? {
      var k :| 0 <= k < |AllVolumes| && AllVolumes[k] == found.value
        && forall i :: 0 <= i < k ==> !SomeNameMatches(catalog(AllVolumes[i]), normalized);
      assert k == Rank(found.value);
      forall w | Rank(w) < Rank(found.value) ensures !SomeNameMatches(catalog(w), normalized) {
        assert AllVolumes[Rank(w)] == w;
      }
    } else {
      forall w ensures !SomeNameMatches(catalog(w), normalized) {
        assert AllVolumes[Rank(w)] == w;
      }
    }
  }

  /**
   * getVolumeFromBook: the first volume, in the fixed order, that lists a name equal to,
   * contained in, or containing the trimmed input; nothing when there is none.
   */
  function GetVolumeFromBook(bookName: string): Option<Volume> {
    var normalized := Trim(bookName);
    var found := FirstMatchingVolume(AllVolumes, BookNames, normalized);
    if found.Some? then found
    else if normalized == "D&C" || normalized == "Doctrine and Covenants" then Some(DoctrineAndCovenants)
    else None
  }

  /**
   * The volume found lists a matching name and no earlier volume does; nothing is found
   * exactly when no volume lists one. The special case for the Doctrine and Covenants never
   * decides, as both of its spellings are listed names.
   */
  lemma GetVolumeFromBookSpec(bookName: string)
    ensures GetVolumeFromBook(bookName).Some? ==>
      SomeNameMatches(BookNames(GetVolumeFromBook(bookName).value), Trim(bookName))
    ensures GetVolumeFromBook(bookName).Some? ==>
      forall w :: Rank(w) < Rank(GetVolumeFromBook(bookName).value) ==> !SomeNameMatches(BookNames(w), Trim(bookName))
    ensures GetVolumeFromBook(bookName).None? <==> forall w :: !SomeNameMatches(BookNames(w), Trim(bookName))
  {
    FirstMatchInOrder(BookNames, Trim(bookName));
    DoctrineAndCovenantsListed(Trim(bookName));
  }

  /** Both spellings the special case tests for are listed names of the Doctrine and Covenants. */
  lemma DoctrineAndCovenantsListed(normalized: string)
    ensures normalized == "D&C" || normalized == "Doctrine and Covenants"
      ==> SomeNameMatches(BookNames(DoctrineAndCovenants), normalized)
  {
    var names := BookNames(DoctrineAndCovenants);
    if normalized == "D&C" {
      assert NameMatches(normalized, names[0]);
    } else if normalized == "Doctrine and Covenants" {
      assert NameMatches(normalized, names[1]);
    }
  }

  /** A trimmed input that matches some name the Bible lists is found in the Bible, the first volume. */
  lemma FoundInBible(bookName: string, i: nat)
    requires i < |BookNames(Bible)| && NameMatches(Trim(bookName), BookNames(Bible)[i])
    ensures GetVolumeFromBook(bookName) == Some(Bible)
  {
    assert AllVolumes[0] == Bible;
    assert SomeNameMatches(BookNames(AllVolumes[0]), Trim(bookName));
  }

  /** Books listed for the Bible are found there. */
  lemma MatthewExample()
    ensures GetVolumeFromBook("Matthew") == Some(Bible)
  {
    TrimIdentity("Matthew");
    assert BookNames(Bible)[39] == "Matthew";
    FoundInBible("Matthew", 39);
  }

  lemma JohnExample()
    ensures GetVolumeFromBook("John") == Some(Bible)
  {
    TrimIdentity("John");
    assert BookNames(Bible)[42] == "John";
    FoundInBible("John", 42);
  }

  /** The lookup trims its input, so a name with surrounding whitespace is found as well. */
  lemma PaddedGenesisExample()
    ensures GetVolumeFromBook("  Genesis ") == Some(Bible)
  {
    assert "  Genesis " == "  " + "Genesis" + " ";
    TrimOfPadded("  ", "Genesis", " ");
    assert BookNames(Bible)[0] == "Genesis";
    FoundInBible("  Genesis ", 0);
  }

  /** Every listed name contains the empty text, so a blank book name lands on the Bible. */
  lemma BlankBookIsBible(bookName: string)
    requires AllSpaces(bookName)
    ensures GetVolumeFromBook(bookName) == Some(Bible)
  {
    TrimEmptyIff(bookName);
    assert StartsWith(BookNames(Bible)[0], "");
    FoundInBible(bookName, 0);
  }

  /** `reference.split(' ')[0]`: the text up to the first space. */
  function FirstToken(reference: string): (token: string)
    ensures ' ' !in token
    ensures StartsWith(reference, token)
    ensures |token| < |reference| ==> reference[|token|] == ' '
  {
    SplitHead(reference, ' ');
    Split(reference, ' ')[0]
  }

  /**
   * The converter files each entry by the first word of its reference, not by its book. For
   * the books numbered 1, 2 and 3 that word is a bare digit, which "1 Samuel", "2 Samuel" and
   * "3 John" contain, so such entries are all filed under the Bible, "1 Nephi 3:7" included.
   */
  lemma NumberedBooksFiledUnderBible(reference: string)
    requires |reference| >= 2 && reference[0] in "123" && reference[1] == ' '
    ensures FirstToken(reference) == reference[..1]
    ensures GetVolumeFromBook(FirstToken(reference)) == Some(Bible)
  {
    var token := FirstToken(reference);
    assert token == [reference[0]];
    TrimIdentity(token);
    var names := BookNames(Bible);
    if reference[0] == '1' {
      assert names[8] == "1 Samuel" && names[8][..1] == token;
      FoundInBible(token, 8);
    } else if reference[0] == '2' {
      assert names[9] == "2 Samuel" && names[9][..1] == token;
      FoundInBible(token, 9);
    } else {
      assert names[63] == "3 John" && names[63][..1] == token;
      FoundInBible(token, 63);
    }
  }

  // ---------------------------------------------------------------------------------------
  // The conversion of one record

  /** A source record: a decoded JSON object, or a CSV row with string fields. */
  type Record = map<string, Json>

  /** `verseData[key]`, `None` standing for `undefined`. */
  function Field(rec: Record, key: string): Option<Json> {
    if key in rec then Some(rec[key]) else None
  }

  /** `a || b || ... || ''`: the first truthy candidate, else the empty string. */
  function FirstTruthy(candidates: seq<Option<Json>>): (v: Json)
    ensures Truthy(v) || v == JString("")
    ensures v != JString("") ==> exists i :: FirstPresentAt(candidates, i) && candidates[i] == Some(v)
    ensures (forall i :: 0 <= i < |candidates| ==> !Present(candidates[i])) ==> v == JString("")
    ensures forall i :: FirstPresentAt(candidates, i) ==> v == candidates[i].value
  {
    if candidates == [] then JString("")
    else if Present(candidates[0]) then
      assert FirstPresentAt(candidates, 0);
      candidates[0].value
    else
      var v := FirstTruthy(candidates[1..]);
      assert forall i :: 1 <= i < |candidates| ==> candidates[i] == candidates[1..][i - 1];
      assert forall i :: FirstPresentAt(candidates, i) ==> FirstPresentAt(candidates[1..], i - 1);
      assert forall i :: FirstPresentAt(candidates[1..], i) ==> FirstPresentAt(candidates, i + 1);
      v
  }

  /** `book`, `chapter` and `verse` are all truthy. */
  predicate BookShape(rec: Record) {
    Present(Field(rec, "book")) && Present(Field(rec, "chapter")) && Present(Field(rec, "verse"))
  }

  /** `book_name`, `chapter_num` and `verse_num` are all truthy. */
  predicate NumberedShape(rec: Record) {
    Present(Field(rec, "book_name")) && Present(Field(rec, "chapter_num")) && Present(Field(rec, "verse_num"))
  }

  /** The record is read through its `Reference` text. */
  predicate ReferenceShape(rec: Record) {
    !BookShape(rec) && !NumberedShape(rec) && Present(Field(rec, "Reference"))
  }

  /** The `TypeError` from calling `match` on a `Reference` that is not a string. */
  const ReferenceNotAString := "verseData.Reference.match is not a function"

  /** One converted entry, as it is written to a verse list. */
  datatype ConvertedVerse = ConvertedVerse(reference: string, text: Json)

  /**
   * The parts read from a `Reference` text: the trimmed book and the two numbers, when the
   * pattern matches and none of the three is falsy.
   */
  function ReferenceParts(reference: string): (parts: Option<(string, nat, nat)>)
    ensures parts.Some? ==> parts.value.0 != "" && parts.value.1 > 0 && parts.value.2 > 0
    ensures parts.Some? ==> ReferenceParser.MatchLooseReference(reference) == parts
  {
    match ReferenceParser.MatchLooseReference(reference)
    case None => None
    case Some((book, chapter, verse)) =>
      if book == "" || chapter == 0 || verse == 0 then None else Some((book, chapter, verse))
  }

  /**
   * convertVerse. A thrown error is a `Failure`; a record it refuses (`null`) is
   * `Success(None)`.
   */
  function ConvertVerse(rec: Record): Result<Option<ConvertedVerse>, string> {
    if BookShape(rec) then
      Success(Some(ConvertedVerse(FormatVerseReference(rec["book"], rec["chapter"], rec["verse"]),
                                  FirstTruthy([Field(rec, "text"), Field(rec, "verse_text"), Field(rec, "content")]))))
    else if NumberedShape(rec) then
      Success(Some(ConvertedVerse(FormatVerseReference(rec["book_name"], rec["chapter_num"], rec["verse_num"]),
                                  FirstTruthy([Field(rec, "verse_text"), Field(rec, "text")]))))
    else if Present(Field(rec, "Reference")) then
      match rec["Reference"]
      case JString(reference) =>
        (match ReferenceParts(reference)
         case None => Success(None)
         case Some((book, chapter, verse)) =>
           Success(Some(ConvertedVerse(FormatVerseReference(JString(book), JNumber(chapter), JNumber(verse)),
                                       FirstTruthy([Field(rec, "Text"), Field(rec, "Verse"), Field(rec, "text")])))))
      case _ => Failure(ReferenceNotAString)
    else Success(None)
  }

  /**
   * convertVerse throws only on a `Reference` that is not a string; it refuses a record in
   * none of the shapes and one whose `Reference` does not read; each shape builds its
   * reference and text from its own fields, the first shape winning over the second and the
   * second over the third.
   */
  lemma ConvertVerseOutcomes(rec: Record)
    ensures ConvertVerse(rec).Failure? <==> ReferenceShape(rec) && !rec["Reference"].JString?
    ensures ConvertVerse(rec).Failure? ==> ConvertVerse(rec).error == ReferenceNotAString
    ensures ConvertVerse(rec) == Success(None) <==>
      (!BookShape(rec) && !NumberedShape(rec) && !Present(Field(rec, "Reference")))
      || (ReferenceShape(rec) && rec["Reference"].JString? && ReferenceParts(rec["Reference"].s).None?)
    ensures BookShape(rec) ==> (ConvertVerse(rec).Success? && ConvertVerse(rec).value.Some?
      && ConvertVerse(rec).value.value.reference == FormatVerseReference(rec["book"], rec["chapter"], rec["verse"])
      && ConvertVerse(rec).value.value.text
        == FirstTruthy([Field(rec, "text"), Field(rec, "verse_text"), Field(rec, "content")]))
    ensures !BookShape(rec) && NumberedShape(rec) ==> (ConvertVerse(rec).Success? && ConvertVerse(rec).value.Some?
      && ConvertVerse(rec).value.value.reference
        == FormatVerseReference(rec["book_name"], rec["chapter_num"], rec["verse_num"])
      && ConvertVerse(rec).value.value.text == FirstTruthy([Field(rec, "verse_text"), Field(rec, "text")]))
    ensures ConvertVerse(rec).Success? && ConvertVerse(rec).value.Some? && ReferenceShape(rec) ==>
      && ConvertVerse(rec).value.value.reference
        == FormatVerseReference(JString(ReferenceParts(rec["Reference"].s).value.0),
                                JNumber(ReferenceParts(rec["Reference"].s).value.1),
                                JNumber(ReferenceParts(rec["Reference"].s).value.2))
      && ConvertVerse(rec).value.value.text == FirstTruthy([Field(rec, "Text"), Field(rec, "Verse"), Field(rec, "text")])
  {
  }

  /** A record in the first shape with a plain book and whole numbers yields a reference the node helper reads back. */
  lemma BookShapeReferenceParses(rec: Record, book: string, chapter: nat, verse: nat)
    requires BookShape(rec) && rec["book"] == JString(book) && rec["chapter"] == JNumber(chapter)
      && rec["verse"] == JNumber(verse)
    requires ReferenceParser.PlainBookName(book)
    ensures ConvertVerse(rec).Success? && ConvertVerse(rec).value.Some?
    ensures ReferenceParser.ParseVerseReference(ConvertVerse(rec).value.value.reference)
      == Success(ReferenceParser.VerseReference(BookLabel(JString(book)), chapter, verse, None))
  {
    ConvertVerseOutcomes(rec);
    FormattedReferenceParses(book, chapter, verse);
  }

  /**
   * A `Reference` that is already a well-formed reference to a verse (a book without a colon,
   * chapter and verse above zero) is written out unchanged, unless its book is spelled
   * "Doctrine and Covenants".
   */
  lemma ReferencePassesThrough(rec: Record, book: string, chapter: nat, verse: nat)
    requires ReferenceParser.PlainBookName(book) && ':' !in book && book != "Doctrine and Covenants"
    requires chapter > 0 && verse > 0
    requires ReferenceShape(rec) && rec["Reference"] == JString(ReferenceParser.FormatReference(book, chapter, verse, None))
    ensures ConvertVerse(rec).Success? && ConvertVerse(rec).value.Some?
    ensures ConvertVerse(rec).value.value.reference == ReferenceParser.FormatReference(book, chapter, verse, None)
  {
    ReferenceParser.LooseMatchOfFormatted(book, chapter, verse);
    FormatAgreesWithParser(book, chapter, verse);
  }

  /** A `Reference` with chapter 0 is refused, as `parseInt` gives the falsy 0. */
  lemma ZeroChapterRefused(rec: Record, book: string, verse: nat)
    requires ReferenceParser.PlainBookName(book) && ':' !in book
    requires ReferenceShape(rec) && rec["Reference"] == JString(ReferenceParser.FormatReference(book, 0, verse, None))
    ensures ConvertVerse(rec) == Success(None)
  {
    ReferenceParser.LooseMatchOfFormatted(book, 0, verse);
  }

  /** The first shape, with its text. */
  lemma BookShapeExample()
    ensures ConvertVerse(map["book" := JString("1 Nephi"), "chapter" := JNumber(3), "verse" := JNumber(7),
                             "text" := JString("And it came to pass...")])
      == Success(Some(ConvertedVerse("1 Nephi 3:7", JString("And it came to pass..."))))
  {
    var rec := map["book" := JString("1 Nephi"), "chapter" := JNumber(3), "verse" := JNumber(7),
                   "text" := JString("And it came to pass...")];
    assert BookShape(rec);
    FormatExamples();
    assert FirstPresentAt([Field(rec, "text"), Field(rec, "verse_text"), Field(rec, "content")], 0);
  }

  /** The first shape without any text: the text is empty. */
  lemma MissingTextExample()
    ensures ConvertVerse(map["book" := JString("1 Nephi"), "chapter" := JNumber(3), "verse" := JNumber(7)])
      == Success(Some(ConvertedVerse("1 Nephi 3:7", JString(""))))
  {
    var rec := map["book" := JString("1 Nephi"), "chapter" := JNumber(3), "verse" := JNumber(7)];
    assert BookShape(rec);
    assert "text" !in rec && "verse_text" !in rec && "content" !in rec;
    FormatExamples();
  }

  /** The second shape, with `verse_text`. */
  lemma NumberedShapeExample()
    ensures ConvertVerse(map["book_name" := JString("John"), "chapter_num" := JNumber(3), "verse_num" := JNumber(16),
                             "verse_text" := JString("For God so loved the world...")])
      == Success(Some(ConvertedVerse("John 3:16", JString("For God so loved the world..."))))
  {
    var rec := map["book_name" := JString("John"), "chapter_num" := JNumber(3), "verse_num" := JNumber(16),
                   "verse_text" := JString("For God so loved the world...")];
    assert "book" !in rec && NumberedShape(rec);
    FormatStringFieldsExample();
    assert FirstPresentAt([Field(rec, "verse_text"), Field(rec, "text")], 0);
  }

  /** The third shape, with `Text`. */
  lemma ReferenceShapeExample()
    ensures ConvertVerse(map["Reference" := JString("1 Nephi 3:7"), "Text" := JString("And it came to pass...")])
      == Success(Some(ConvertedVerse("1 Nephi 3:7", JString("And it came to pass..."))))
  {
    var rec := map["Reference" := JString("1 Nephi 3:7"), "Text" := JString("And it came to pass...")];
    assert "book" !in rec && "book_name" !in rec && ReferenceShape(rec);
    assert ReferenceParser.FormatReference("1 Nephi", 3, 7, None) == "1 Nephi 3:7";
    ReferencePassesThrough(rec, "1 Nephi", 3, 7);
    assert FirstPresentAt([Field(rec, "Text"), Field(rec, "Verse"), Field(rec, "text")], 0);
  }

  /** A record in none of the shapes is refused. */
  lemma UnknownShapeExample()
    ensures ConvertVerse(map["invalid" := JString("data")]) == Success(None)
  {
  }

  /** A `Reference` that is a number makes the conversion throw. */
  lemma NumericReferenceThrows()
    ensures ConvertVerse(map["Reference" := JNumber(37)]) == Failure(ReferenceNotAString)
  {
  }
}
