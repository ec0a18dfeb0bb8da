/**
 * The node helper's reading of a decoded API response (`parseAPIResponse`): verse text from
 * the first of several places that holds a truthy value, trimmed, and a reference that
 * defaults to the one requested.
 */
module ApiResponse {
  import opened Wrappers
  import opened Text

  /** A decoded JSON value. Numbers are integers here; fractions never decide a branch. */
  datatype Json =
    | JNull
    | JBool(b: bool)
    | JNumber(n: int)
    | JString(s: string)
    | JArray(items: seq<Json>)
    | JObject(fields: map<string, Json>)

  /** JavaScript truthiness of a JSON value. */
  predicate Truthy(v: Json) {
    match v
    case JNull => false
    case JBool(b) => b
    case JNumber(n) => n != 0
    case JString(s) => s != ""
    case JArray(_) => true
    case JObject(_) => true
  }

  /** `v[key]` on a value that is not null: `None` stands for `undefined`. */
  function Get(v: Json, key: string): (r: Option<Json>)
    ensures r.Some? ==> v.JObject? && key in v.fields && r.value == v.fields[key]
    ensures v.JObject? && key in v.fields ==> r.Some?
  {
    if v.JObject? && key in v.fields then Some(v.fields[key]) else None
  }

  /** A property read whose value is truthy. */
  predicate Present(p: Option<Json>) {
    p.Some? && Truthy(p.value)
  }

  /** `v[outer] && v[outer][inner]`, as far as truthiness goes. */
  function GetNested(v: Json, outer: string, inner: string): (r: Option<Json>)
    ensures Present(r) ==> Present(Get(v, outer)) && r == Get(Get(v, outer).value, inner)
  {
    if Present(Get(v, outer)) then Get(Get(v, outer).value, inner) else None
  }

  /**
   * The places the verse text is looked for, in the order they are tried: `text`,
   * `verse.text`, `data.text`, `content`, and the response itself when it is a string.
   */
  function TextSources(v: Json): seq<Option<Json>> {
    [Get(v, "text"), GetNested(v, "verse", "text"), GetNested(v, "data", "text"), Get(v, "content"),
     if v.JString? then Some(v) else None]
  }

  /** Source `i` is the first one that holds a truthy value. */
  predicate FirstPresentAt(sources: seq<Option<Json>>, i: int) {
    0 <= i < |sources| && Present(sources[i]) && forall k :: 0 <= k < i ==> !Present(sources[k])
  }

  /** The if-chain that picks the candidate text. */
  function SelectText(v: Json): (r: Option<Json>)
    ensures r.Some? ==> exists i :: FirstPresentAt(TextSources(v), i) && TextSources(v)[i] == r
    ensures r.None? <==> forall i :: 0 <= i < |TextSources(v)| ==> !Present(TextSources(v)[i])
  {
    var sources := TextSources(v);
    if Present(Get(v, "text")) then
      assert FirstPresentAt(sources, 0);
      Get(v, "text")
    else if Present(GetNested(v, "verse", "text")) then
      assert FirstPresentAt(sources, 1);
      GetNested(v, "verse", "text")
    else if Present(GetNested(v, "data", "text")) then
      assert FirstPresentAt(sources, 2);
      GetNested(v, "data", "text")
    else if Present(Get(v, "content")) then
      assert FirstPresentAt(sources, 3);
      Get(v, "content")
    else if v.JString? && Truthy(v) then
      assert FirstPresentAt(sources, 4);
      Some(v)
    else None
  }

  /** The reference reported back: `reference`, else `verse.reference`, else the requested one. */
  function SelectReference(v: Json, requested: string): (r: Json)
    ensures Present(Get(v, "reference")) ==> r == Get(v, "reference").value
    ensures !Present(Get(v, "reference")) && Present(GetNested(v, "verse", "reference"))
      ==> r == GetNested(v, "verse", "reference").value
    ensures !Present(Get(v, "reference")) && !Present(GetNested(v, "verse", "reference"))
      ==> r == JString(requested)
  {
    if Present(Get(v, "reference")) then Get(v, "reference").value
    else if Present(GetNested(v, "verse", "reference")) then GetNested(v, "verse", "reference").value
    else JString(requested)
  }

  datatype VerseData = VerseData(text: string, reference: Json)

  /** Why a response could not be read. */
  datatype ParseFailure =
    | NullResponse     // reading a property of `null`
    | NoVerseText      // none of the places holds a truthy value
    | TextNotAString   // the chosen value has no `trim`

  /** The message of the error thrown; the two type errors carry V8's wording. */
  function FailureMessage(f: ParseFailure): string {
    match f
    case NullResponse => "Cannot read properties of null (reading 'text')"
    case NoVerseText => "Could not extract verse text from API response"
    case TextNotAString => "text.trim is not a function"
  }

  /** parseAPIResponse (see `ParseApiResponseOutcomes`). */
  function ParseApiResponse(v: Json, requested: string): Result<VerseData, ParseFailure> {
    if v.JNull? then Failure(NullResponse)
    else
      match SelectText(v)
      case None => Failure(NoVerseText)
      case Some(t) =>
        if t.JString? then Success(VerseData(Trim(t.s), SelectReference(v, requested)))
        else Failure(TextNotAString)
  }

  /**
   * A null response fails on the property read; otherwise the first truthy source decides:
   * none at all, one that is not a string, or a string whose trimmed text is returned with
   * the selected reference.
   */
  lemma ParseApiResponseOutcomes(v: Json, requested: string)
    ensures ParseApiResponse(v, requested) == Failure(NullResponse) <==> v.JNull?
    ensures ParseApiResponse(v, requested) == Failure(NoVerseText)
      <==> !v.JNull? && forall i :: 0 <= i < |TextSources(v)| ==> !Present(TextSources(v)[i])
    ensures ParseApiResponse(v, requested) == Failure(TextNotAString)
      <==> !v.JNull? && exists i :: FirstPresentAt(TextSources(v), i) && !TextSources(v)[i].value.JString?
    ensures ParseApiResponse(v, requested).Success? ==>
      (exists i :: FirstPresentAt(TextSources(v), i) && TextSources(v)[i].value.JString?
                   && ParseApiResponse(v, requested).value.text == Trim(TextSources(v)[i].value.s))
    ensures ParseApiResponse(v, requested).Success? ==>
      ParseApiResponse(v, requested).value.reference == SelectReference(v, requested)
  {
    if !v.JNull? && SelectText(v).Some? {
      var i :| FirstPresentAt(TextSources(v), i) && TextSources(v)[i] == SelectText(v);
      forall k | FirstPresentAt(TextSources(v), k) ensures k == i {
        FirstPresentUnique(TextSources(v), i, k);
      }
    }
  }

  /** Only one source can be the first truthy one. */
  lemma FirstPresentUnique(sources: seq<Option<Json>>, i: int, j: int)
    requires FirstPresentAt(sources, i) && FirstPresentAt(sources, j)
    ensures i == j
  {
  }

  /** A truthy `text` string wins over every other place. */
  lemma TopLevelTextWins(v: Json, requested: string, t: string)
    requires v.JObject? && "text" in v.fields && v.fields["text"] == JString(t) && t != ""
    ensures ParseApiResponse(v, requested).Success?
    ensures ParseApiResponse(v, requested).value.text == Trim(t)
  {
    ParseApiResponseOutcomes(v, requested);
    var r := ParseApiResponse(v, requested);
    assert FirstPresentAt(TextSources(v), 0);
    if r.Success? {
      var i :| FirstPresentAt(TextSources(v), i) && TextSources(v)[i].value.JString?
               && r.value.text == Trim(TextSources(v)[i].value.s);
      FirstPresentUnique(TextSources(v), i, 0);
    }
  }

  /** The text handed back never starts or ends with whitespace. */
  lemma TextIsTrimmed(v: Json, requested: string)
    requires ParseApiResponse(v, requested).Success?
    ensures var text := ParseApiResponse(v, requested).value.text;
      text != [] ==> !IsSpace(text[0]) && !IsSpace(text[|text| - 1])
  {
    TrimSpec(SelectText(v).value.s);
  }

  /** Without a truthy `reference` or `verse.reference` the requested reference is kept. */
  lemma ReferenceDefaultsToRequested(v: Json, requested: string)
    requires ParseApiResponse(v, requested).Success?
    requires !Present(Get(v, "reference")) && !Present(GetNested(v, "verse", "reference"))
    ensures ParseApiResponse(v, requested).value.reference == JString(requested)
  {
  }

  /** The simple shape: `text` is trimmed and the requested reference is kept. */
  lemma SimpleShapeExample()
    ensures ParseApiResponse(JObject(map["text" := JString("  Amen.  ")]), "1 Nephi 3:7")
      == Success(VerseData("Amen.", JString("1 Nephi 3:7")))
  {
    var raw := "  Amen.  ";
    var v := JObject(map["text" := JString(raw)]);
    assert "reference" !in v.fields && "verse" !in v.fields;
    assert SelectText(v) == Some(JString(raw));
    assert SelectReference(v, "1 Nephi 3:7") == JString("1 Nephi 3:7");
    assert raw == "  " + "Amen." + "  ";
    TrimOfPadded("  ", "Amen.", "  ");
  }

  /** The nested shape: `verse.text`, with `verse.reference` replacing the requested one. */
  lemma NestedShapeExample()
    ensures ParseApiResponse(JObject(map["verse" := JObject(map["text" := JString("V"),
                                                               "reference" := JString("Alma 32:21")])]), "R")
      == Success(VerseData("V", JString("Alma 32:21")))
  {
    var inner := map["text" := JString("V"), "reference" := JString("Alma 32:21")];
    var v := JObject(map["verse" := JObject(inner)]);
    assert "verse" != "text" && "verse" != "data" && "verse" != "content" && "verse" != "reference";
    assert inner["text"] == JString("V") && inner["reference"] == JString("Alma 32:21");
    assert SelectText(v) == Some(JString("V"));
    assert SelectReference(v, "R") == JString("Alma 32:21");
    TrimIdentity("V");
  }

  /** The data wrapper: `data.text`. */
  lemma DataShapeExample()
    ensures ParseApiResponse(JObject(map["data" := JObject(map["text" := JString("D")])]), "R")
      == Success(VerseData("D", JString("R")))
  {
    TrimIdentity("D");
  }

  /** An empty `text` is falsy, so a truthy `content` string is used instead. */
  lemma EmptyTextFallsThrough(content: string, requested: string)
    requires content != ""
    ensures ParseApiResponse(JObject(map["text" := JString(""), "content" := JString(content)]), requested)
      == Success(VerseData(Trim(content), JString(requested)))
  {
    var fields := map["text" := JString(""), "content" := JString(content)];
    var v := JObject(fields);
    assert fields.Keys == {"text", "content"};
    assert Get(v, "text") == Some(JString(""));
    assert Get(v, "content") == Some(JString(content));
    assert Get(v, "verse") == None && Get(v, "data") == None && Get(v, "reference") == None;
    assert SelectText(v) == Some(JString(content));
    assert SelectReference(v, requested) == JString(requested);
  }

  /** A response that is itself a string is the text. */
  lemma StringShapeExample()
    ensures ParseApiResponse(JString("Plain"), "R") == Success(VerseData("Plain", JString("R")))
  {
    TrimIdentity("Plain");
  }

  /** An object with none of the places, and a text that is a number, are refused. */
  lemma RefusedShapeExamples()
    ensures ParseApiResponse(JObject(map[]), "R") == Failure(NoVerseText)
    ensures ParseApiResponse(JObject(map["text" := JNumber(7)]), "R") == Failure(TextNotAString)
    ensures ParseApiResponse(JNull, "R") == Failure(NullResponse)
  {
  }
}
