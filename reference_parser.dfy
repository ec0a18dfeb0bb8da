/**
 * The verse-reference reader of the node helper, `"<book> <chapter>:<verse>"` with an optional
 * `"-<endVerse>"`, matched by the regular expression `^(.+?)\s+(\d+):(\d+)(?:-(\d+))?$`; and
 * the converter's looser `^(.+?)\s+(\d+):(\d+)`, which is not anchored at the end.
 *
 * Whitespace and digits are disjoint, so once the lazy book group has chosen its length the
 * rest of the match is forced: `\s+` takes the whole run of whitespace, each `\d+` the whole
 * run of digits. The model therefore searches the book length upwards from 1, as the
 * backtracking matcher does, and checks the tail deterministically.
 */
module ReferenceParser {
  import opened Wrappers
  import opened Text

  /** What the groups after the book capture. */
  datatype TailMatch = TailMatch(chapter: string, verse: string, endVerse: Option<string>)

  predicate DigitRun(s: string) {
    s != [] && AllDigits(s)
  }

  predicate WellFormedNumbers(t: TailMatch) {
    DigitRun(t.chapter) && DigitRun(t.verse) && (t.endVerse.Some? ==> DigitRun(t.endVerse.value))
  }

  function EndText(endVerse: Option<string>): string {
    match endVerse
    case None => ""
    case Some(e) => "-" + e
  }

  /** The text `(\d+):(\d+)(?:-(\d+))?` covers for the given groups. */
  function NumbersText(t: TailMatch): string {
    t.chapter + ":" + t.verse + EndText(t.endVerse)
  }

  /** The text an anchored tail match covers: whitespace, then the numbers. */
  function TailText(ws: string, t: TailMatch): string {
    ws + NumbersText(t)
  }

  /** `(?:-(\d+))?$` after the verse digits, when something follows them. */
  function MatchEnd(chapter: string, verse: string, tail: string): (m: Option<TailMatch>)
    requires tail != []
    ensures m.Some? ==>
      (m.value.chapter == chapter && m.value.verse == verse
       && m.value.endVerse.Some? && EndText(m.value.endVerse) == tail && DigitRun(m.value.endVerse.value))
  {
    if tail[0] == '-' && DigitRun(tail[1..]) then
      assert tail == "-" + tail[1..];
      Some(TailMatch(chapter, verse, Some(tail[1..])))
    else None
  }

  /** `(\d+)` for the verse and what may follow it. */
  function MatchVerse(chapter: string, b: string, anchored: bool): (m: Option<TailMatch>)
    ensures m.Some? ==>
      (m.value.chapter == chapter && DigitRun(m.value.verse)
       && (m.value.endVerse.Some? ==> DigitRun(m.value.endVerse.value)))
    ensures m.Some? && anchored ==> b == m.value.verse + EndText(m.value.endVerse)
    ensures m.Some? && !anchored ==> m.value.endVerse.None?
  {
    var v := LeadingDigits(b);
    if v == 0 then None
    else if !anchored || v == |b| then Some(TailMatch(chapter, b[..v], None))
    else
      var m := MatchEnd(chapter, b[..v], b[v..]);
      assert m.Some? ==> b == b[..v] + b[v..];
      m
  }

  /** `(\d+):` for the chapter, then the verse part. */
  function MatchNumbers(a: string, anchored: bool): (m: Option<TailMatch>)
    ensures m.Some? ==> WellFormedNumbers(m.value)
    ensures m.Some? && anchored ==> a == NumbersText(m.value)
    ensures m.Some? && !anchored ==> m.value.endVerse.None?
  {
    var c := LeadingDigits(a);
    if c == 0 || c == |a| || a[c] != ':' then None
    else
      var m := MatchVerse(a[..c], a[c + 1..], anchored);
      assert m.Some? ==> a == a[..c] + ":" + a[c + 1..];
      m
  }

  /**
   * `\s+(\d+):(\d+)(?:-(\d+))?$` when `anchored`, `\s+(\d+):(\d+)` otherwise, matched at the
   * start of `rest`.
   */
  function MatchTail(rest: string, anchored: bool): (m: Option<TailMatch>)
    ensures m.Some? ==> LeadingSpaces(rest) > 0 && WellFormedNumbers(m.value)
    ensures m.Some? && anchored ==> rest[LeadingSpaces(rest)..] == NumbersText(m.value)
  {
    var w := LeadingSpaces(rest);
    if w == 0 then None else MatchNumbers(rest[w..], anchored)
  }

  lemma {:induction false} LeadingDigitsOfConcat(a: string, b: string)
    requires AllDigits(a)
    requires b == [] || !IsDigit(b[0])
    ensures LeadingDigits(a + b) == |a|
  {
    if a != [] {
      assert (a + b)[1..] == a[1..] + b;
      LeadingDigitsOfConcat(a[1..], b);
    }
  }

  /** The verse part of a well-formed tail is read back into its own groups. */
  lemma MatchVerseComplete(chapter: string, verse: string, endVerse: Option<string>)
    requires DigitRun(verse) && (endVerse.Some? ==> DigitRun(endVerse.value))
    ensures MatchVerse(chapter, verse + EndText(endVerse), true) == Some(TailMatch(chapter, verse, endVerse))
  {
    var b := verse + EndText(endVerse);
    LeadingDigitsOfConcat(verse, EndText(endVerse));
    assert b[..|verse|] == verse;
    if endVerse.Some? {
      assert b[|verse|..] == EndText(endVerse);
      assert EndText(endVerse)[1..] == endVerse.value;
    }
  }

  /** The numbers of a well-formed tail are read back into their own groups. */
  lemma MatchNumbersComplete(t: TailMatch)
    requires WellFormedNumbers(t)
    ensures MatchNumbers(NumbersText(t), true) == Some(t)
  {
    var b := t.verse + EndText(t.endVerse);
    ColonRegroup(t.chapter, t.verse, EndText(t.endVerse));
    ColonSplit(t.chapter, b);
    MatchVerseComplete(t.chapter, t.verse, t.endVerse);
  }

  lemma ColonRegroup(c: string, v: string, e: string)
    ensures c + ":" + v + e == c + ":" + (v + e)
  {
  }

  /** After a run of digits and a colon, the digits end at the colon. */
  lemma ColonSplit(c: string, b: string)
    requires DigitRun(c)
    ensures LeadingDigits(c + ":" + b) == |c|
    ensures (c + ":" + b)[..|c|] == c && (c + ":" + b)[|c|] == ':' && (c + ":" + b)[|c| + 1..] == b
  {
    assert c + ":" + b == c + (":" + b);
    LeadingDigitsOfConcat(c, ":" + b);
  }

  /** Every well-formed tail is matched, and matched into exactly its own groups. */
  lemma MatchTailComplete(ws: string, t: TailMatch)
    requires ws != [] && AllSpaces(ws) && WellFormedNumbers(t)
    ensures MatchTail(TailText(ws, t), true) == Some(t)
  {
    var rest := TailText(ws, t);
    LeadingSpacesOfConcat(ws, NumbersText(t));
    assert rest[|ws|..] == NumbersText(t);
    MatchNumbersComplete(t);
  }

  /** In a tail text every character up to a whitespace character is whitespace too. */
  lemma TailSpacesLead(ws: string, t: TailMatch, q: int, p: int)
    requires AllSpaces(ws) && WellFormedNumbers(t)
    requires 0 <= q <= p < |TailText(ws, t)| && IsSpace(TailText(ws, t)[p])
    ensures IsSpace(TailText(ws, t)[q])
  {
  }

  /** A tail text always holds a colon right after the whitespace and the chapter. */
  lemma TailHasColon(ws: string, t: TailMatch)
    ensures TailText(ws, t)[|ws| + |t.chapter|] == ':'
  {
    assert TailText(ws, t) == (ws + t.chapter + ":") + (t.verse + EndText(t.endVerse));
  }

  /** A matcher for what follows the book group. */
  type TailMatcher = string -> Option<TailMatch>

  /** The tail of parseVerseReference's pattern, anchored at the end. */
  function Anchored(rest: string): Option<TailMatch> {
    MatchTail(rest, true)
  }

  /** The tail of the converter's pattern, not anchored at the end. */
  function Unanchored(rest: string): Option<TailMatch> {
    MatchTail(rest, false)
  }

  /** The book group may end at `j`: a non-empty prefix with no line terminator, then the tail. */
  predicate Candidate(s: string, j: int, tail: TailMatcher) {
    1 <= j <= |s| && OneLine(s[..j]) && tail(s[j..]).Some?
  }

  /** No line terminator: what `.` can run over. */
  predicate OneLine(s: string) {
    forall i :: 0 <= i < |s| ==> !IsLineTerminator(s[i])
  }

  /** The lazy `^(.+?)`: the smallest candidate book length that is at least `k` (see `FindBookSpec`). */
  function FindBook(s: string, k: nat, tail: TailMatcher): (r: Option<(nat, TailMatch)>)
    requires 1 <= k
    ensures r.Some? ==> k <= r.value.0 <= |s| && tail(s[r.value.0..]) == Some(r.value.1)
    decreases |s| - k + 1
  {
    if k > |s| || IsLineTerminator(s[k - 1]) then None
    else
      match tail(s[k..])
      case Some(t) => Some((k, t))
      case None => FindBook(s, k + 1, tail)
  }

  /**
   * The search finds the smallest candidate at least `k`, with the tail match there, and
   * finds nothing exactly when there is no candidate from `k` on.
   */
  lemma {:induction false} FindBookSpec(s: string, k: nat, tail: TailMatcher)
    requires 1 <= k && (k - 1 <= |s| ==> OneLine(s[..k - 1]))
    ensures FindBook(s, k, tail).Some? ==> Candidate(s, FindBook(s, k, tail).value.0, tail)
    ensures FindBook(s, k, tail).Some? ==>
      forall j :: k <= j < FindBook(s, k, tail).value.0 ==> !Candidate(s, j, tail)
    ensures FindBook(s, k, tail).None? ==> forall j :: k <= j ==> !Candidate(s, j, tail)
    decreases |s| - k + 1
  {
    if k > |s| {
    } else if IsLineTerminator(s[k - 1]) {
      assert forall j :: k <= j <= |s| ==> s[..j][k - 1] == s[k - 1];
    } else {
      assert s[..k] == s[..k - 1] + [s[k - 1]];
      if tail(s[k..]).None? {
        FindBookSpec(s, k + 1, tail);
      }
    }
  }

  datatype VerseReference = VerseReference(book: string, chapter: nat, verse: nat, endVerse: Option<nat>)

  function EndValue(endVerse: Option<string>): Option<nat>
    requires endVerse.Some? ==> AllDigits(endVerse.value)
  {
    match endVerse
    case None => None
    case Some(e) => Some(DigitsValue(e))
  }

  /** parseVerseReference: the parsed reference, or the error thrown for any other text. */
  function ParseVerseReference(s: string): (r: Result<VerseReference, string>)
    ensures r.Failure? ==> r.error == "Invalid verse reference format: " + s
  {
    match FindBook(s, 1, Anchored)
    case None => Failure("Invalid verse reference format: " + s)
    case Some((j, t)) =>
      Success(VerseReference(Trim(s[..j]), DigitsValue(t.chapter), DigitsValue(t.verse), EndValue(t.endVerse)))
  }

  /** The text is refused exactly when no book length leaves a tail the anchored pattern matches. */
  lemma ParseVerseReferenceRefuses(s: string)
    ensures ParseVerseReference(s).Failure? <==> forall j :: !Candidate(s, j, Anchored)
  {
    FindBookSpec(s, 1, Anchored);
  }

  /**
   * A successful parse splits the text into the shortest possible book prefix and a tail
   * the anchored pattern covers entirely, and reads its parts from those two pieces.
   */
  lemma ParseVerseReferenceSuccess(s: string) returns (j: nat, ws: string, t: TailMatch)
    requires ParseVerseReference(s).Success?
    ensures Candidate(s, j, Anchored) && forall i :: i < j ==> !Candidate(s, i, Anchored)
    ensures ws != [] && AllSpaces(ws) && WellFormedNumbers(t) && s[j..] == TailText(ws, t)
    ensures ParseVerseReference(s).value
      == VerseReference(Trim(s[..j]), DigitsValue(t.chapter), DigitsValue(t.verse), EndValue(t.endVerse))
  {
    j, t := FoundBook(s);
    ws := TailSplit(s[j..], t);
  }

  /** What the lazy search finds is the first candidate. */
  lemma FoundBook(s: string) returns (j: nat, t: TailMatch)
    requires FindBook(s, 1, Anchored).Some?
    ensures FindBook(s, 1, Anchored) == Some((j, t))
    ensures Candidate(s, j, Anchored) && MatchTail(s[j..], true) == Some(t)
    ensures forall i :: i < j ==> !Candidate(s, i, Anchored)
  {
    FindBookSpec(s, 1, Anchored);
    j, t := FindBook(s, 1, Anchored).value.0, FindBook(s, 1, Anchored).value.1;
  }

  /** A matched tail is a run of whitespace followed by the text of its numbers. */
  lemma TailSplit(rest: string, t: TailMatch) returns (ws: string)
    requires MatchTail(rest, true) == Some(t)
    ensures ws != [] && AllSpaces(ws) && WellFormedNumbers(t) && rest == TailText(ws, t)
  {
    ws := rest[..LeadingSpaces(rest)];
    Rejoin(rest, LeadingSpaces(rest), NumbersText(t));
  }

  lemma Rejoin(s: string, n: nat, suffix: string)
    requires n <= |s| && s[n..] == suffix
    ensures s == s[..n] + suffix
  {
  }

  /** A book name that reads back unchanged: non-empty, trimmed, on one line. */
  predicate PlainBookName(book: string) {
    && book != [] && !IsSpace(book[0]) && !IsSpace(book[|book| - 1])
    && OneLine(book)
  }

  function EndVerseText(endVerse: Option<nat>): Option<string> {
    match endVerse
    case None => None
    case Some(e) => Some(NatToString(e))
  }

  /** The reference text for a book, chapter, verse and optional end verse. */
  function FormatReference(book: string, chapter: nat, verse: nat, endVerse: Option<nat>): string {
    book + " " + NatToString(chapter) + ":" + NatToString(verse) + EndText(EndVerseText(endVerse))
  }

  /** No book shorter than a plain book name can be followed by a tail. */
  lemma NoShorterBook(book: string, rest: string, j: int)
    requires PlainBookName(book) && rest != [] && rest[0] == ' '
    requires 1 <= j < |book|
    ensures !Candidate(book + rest, j, Anchored)
  {
    var s := book + rest;
    var p := |book| - j;
    assert s[j..][p] == ' ' && s[j..][p - 1] == book[|book| - 1];
    AnchoredTailBlocked(s[j..], p);
  }

  /** A tail is not matched when whitespace follows a character that is not whitespace. */
  lemma AnchoredTailBlocked(tail: string, p: nat)
    requires 1 <= p < |tail| && IsSpace(tail[p]) && !IsSpace(tail[p - 1])
    ensures MatchTail(tail, true).None?
  {
    if MatchTail(tail, true).Some? {
      var t := MatchTail(tail, true).value;
      var ws := TailSplit(tail, t);
      TailSpacesLead(ws, t, p - 1, p);
    }
  }

  /** The lazy search stops at the first candidate. */
  lemma FindBookFirst(s: string, j: nat, t: TailMatch, tail: TailMatcher)
    requires Candidate(s, j, tail) && tail(s[j..]) == Some(t)
    requires forall i :: 1 <= i < j ==> !Candidate(s, i, tail)
    ensures FindBook(s, 1, tail) == Some((j, t))
  {
    FindBookFrom(s, 1, j, t, tail);
  }

  lemma {:induction false} FindBookFrom(s: string, k: nat, j: nat, t: TailMatch, tail: TailMatcher)
    requires 1 <= k <= j && Candidate(s, j, tail) && tail(s[j..]) == Some(t)
    requires forall i :: k <= i < j ==> !Candidate(s, i, tail)
    ensures FindBook(s, k, tail) == Some((j, t))
    decreases j - k
  {
    assert s[..j][k - 1] == s[k - 1];
    if k < j {
      assert s[..k] == s[..j][..k];
      assert !Candidate(s, k, tail);
      FindBookFrom(s, k + 1, j, t, tail);
    }
  }

  /** A formatted reference is its book followed by a tail of one space. */
  lemma FormatReferenceSplits(book: string, chapter: nat, verse: nat, endVerse: Option<nat>)
    ensures FormatReference(book, chapter, verse, endVerse)
      == book + TailText(" ", TailMatch(NatToString(chapter), NatToString(verse), EndVerseText(endVerse)))
  {
    Regroup(book, NatToString(chapter), NatToString(verse), EndText(EndVerseText(endVerse)));
  }

  lemma Regroup(book: string, c: string, v: string, e: string)
    ensures book + " " + c + ":" + v + e == book + (" " + (c + ":" + v + e))
  {
  }

  /** Formatting a reference and parsing it back recovers every component. */
  lemma ParseFormatRoundTrip(book: string, chapter: nat, verse: nat, endVerse: Option<nat>)
    requires PlainBookName(book)
    ensures ParseVerseReference(FormatReference(book, chapter, verse, endVerse))
      == Success(VerseReference(book, chapter, verse, endVerse))
  {
    var t := TailMatch(NatToString(chapter), NatToString(verse), EndVerseText(endVerse));
    var s := FormatReference(book, chapter, verse, endVerse);
    var rest := TailText(" ", t);
    FormatReferenceSplits(book, chapter, verse, endVerse);
    assert s[|book|..] == rest;
    assert s[..|book|] == book;
    MatchTailComplete(" ", t);
    forall j | 1 <= j < |book| ensures !Candidate(s, j, Anchored) {
      NoShorterBook(book, rest, j);
    }
    FindBookFirst(s, |book|, t, Anchored);
    TrimIdentity(book);
    DigitsValueOfNatToString(chapter);
    DigitsValueOfNatToString(verse);
    if endVerse.Some? {
      DigitsValueOfNatToString(endVerse.value);
    }
  }

  /** Any text a tail is found in has a colon in it. */
  lemma CandidateHasColon(s: string, j: int)
    requires Candidate(s, j, Anchored)
    ensures exists i :: 0 <= i < |s| && s[i] == ':'
  {
    var rest := s[j..];
    var t := MatchTail(rest, true).value;
    var ws := TailSplit(rest, t);
    TailHasColon(ws, t);
    assert s[j + |ws| + |t.chapter|] == ':';
  }

  /** A text without a colon is never a reference. */
  lemma NoColonRejected(s: string)
    requires forall i :: 0 <= i < |s| ==> s[i] != ':'
    ensures ParseVerseReference(s).Failure?
  {
    forall j | 1 <= j <= |s| ensures !Candidate(s, j, Anchored) {
      if Candidate(s, j, Anchored) {
        CandidateHasColon(s, j);
      }
    }
    ParseVerseReferenceRefuses(s);
  }

  /** A text with no whitespace after its first character is never a reference. */
  lemma NoInnerSpaceRejected(s: string)
    requires forall i :: 1 <= i < |s| ==> !IsSpace(s[i])
    ensures ParseVerseReference(s).Failure?
  {
    forall j | 1 <= j <= |s| ensures !Candidate(s, j, Anchored) {
      if j < |s| {
        assert s[j..][0] == s[j];
      }
    }
    ParseVerseReferenceRefuses(s);
  }

  /** A single-verse reference reads into its parts. */
  lemma ParseSingleVerseExample()
    ensures ParseVerseReference("1 Nephi 3:7") == Success(VerseReference("1 Nephi", 3, 7, None))
  {
    assert FormatReference("1 Nephi", 3, 7, None) == "1 Nephi 3:7";
    ParseFormatRoundTrip("1 Nephi", 3, 7, None);
  }

  /** A verse range reads into its parts, the end verse included. */
  lemma ParseVerseRangeExample()
    ensures ParseVerseReference("1 Nephi 3:7-8") == Success(VerseReference("1 Nephi", 3, 7, Some(8)))
  {
    assert FormatReference("1 Nephi", 3, 7, Some(8)) == "1 Nephi 3:7-8";
    ParseFormatRoundTrip("1 Nephi", 3, 7, Some(8));
  }

  /** A bare word and the empty text are refused. */
  lemma NoColonExamples()
    ensures ParseVerseReference("Invalid").Failure?
    ensures ParseVerseReference("").Failure?
  {
    NoColonRejected("Invalid");
    NoColonRejected("");
  }

  /** A book alone is refused. */
  lemma BookOnlyExample()
    ensures ParseVerseReference("1 Nephi").Failure?
  {
    NoColonRejected("1 Nephi");
  }

  /** A book and a chapter without a verse are refused. */
  lemma ChapterOnlyExample()
    ensures ParseVerseReference("1 Nephi 3").Failure?
  {
    NoColonRejected("1 Nephi 3");
  }

  /** Numbers without a book in front are refused. */
  lemma NoBookExample()
    ensures ParseVerseReference("3:7").Failure?
  {
    NoInnerSpaceRejected("3:7");
  }

  /**
   * The converter's `^(.+?)\s+(\d+):(\d+)`, not anchored at the end: the trimmed book, the
   * chapter and the verse, or nothing when the text does not match.
   */
  function MatchLooseReference(s: string): Option<(string, nat, nat)> {
    match FindBook(s, 1, Unanchored)
    case None => None
    case Some((j, t)) => Some((Trim(s[..j]), DigitsValue(t.chapter), DigitsValue(t.verse)))
  }

  /** The unanchored pattern fails exactly when no book length leaves a tail it matches. */
  lemma MatchLooseReferenceFails(s: string)
    ensures MatchLooseReference(s).None? <==> forall j :: !Candidate(s, j, Unanchored)
  {
    FindBookSpec(s, 1, Unanchored);
  }

  /** After one space, a chapter and a verse are what the unanchored tail reads. */
  lemma LooseTailOfFormatted(chapter: nat, verse: nat)
    ensures MatchTail(" " + NatToString(chapter) + ":" + NatToString(verse), false)
      == Some(TailMatch(NatToString(chapter), NatToString(verse), None))
  {
    LooseTail(NatToString(chapter), NatToString(verse));
  }

  lemma LooseTail(c: string, v: string)
    requires DigitRun(c) && DigitRun(v)
    ensures MatchTail(" " + c + ":" + v, false) == Some(TailMatch(c, v, None))
  {
    var numbers := c + ":" + v;
    LeadingSpacesOfConcat(" ", numbers);
    assert " " + c + ":" + v == " " + numbers;
    assert (" " + numbers)[1..] == numbers;
    LooseNumbers(c, v);
  }

  lemma LooseNumbers(c: string, v: string)
    requires DigitRun(c) && DigitRun(v)
    ensures MatchNumbers(c + ":" + v, false) == Some(TailMatch(c, v, None))
  {
    ColonSplit(c, v);
    LooseVerse(c, v);
  }

  lemma LooseVerse(c: string, v: string)
    requires DigitRun(v)
    ensures MatchVerse(c, v, false) == Some(TailMatch(c, v, None))
  {
    LeadingDigitsOfConcat(v, "");
    assert v + "" == v;
  }

  /**
   * Without a colon in the book, no shorter prefix of a formatted reference is followed by
   * the unanchored tail: the whitespace and digits it needs would have to run over the
   * book's last character and the space after it.
   */
  lemma NoShorterLooseBook(book: string, rest: string, j: int)
    requires PlainBookName(book) && ':' !in book && rest != [] && rest[0] == ' '
    requires 1 <= j < |book|
    ensures !Candidate(book + rest, j, Unanchored)
  {
    var s := book + rest;
    var p := |book| - 1 - j;
    assert s[j..][p] == book[|book| - 1] && s[j..][p + 1] == ' ';
    assert forall i :: 0 <= i <= p ==> s[j..][i] == book[j + i];
    LooseTailBlocked(s[j..], p);
  }

  /**
   * The unanchored tail is not matched when a character that is not whitespace and then a
   * space come before any colon: the digits would have to end at a colon.
   */
  lemma LooseTailBlocked(tail: string, p: nat)
    requires p + 1 < |tail| && !IsSpace(tail[p]) && tail[p + 1] == ' '
    requires forall i :: 0 <= i <= p ==> tail[i] != ':'
    ensures MatchTail(tail, false).None?
  {
    var w := LeadingSpaces(tail);
    if w > 0 {
      assert w <= p;
      var a := tail[w..];
      assert a[p + 1 - w] == ' ';
      var c := LeadingDigits(a);
      assert c <= p + 1 - w;
      assert c < p + 1 - w ==> a[c] == tail[w + c];
    }
  }

  /**
   * The unanchored pattern reads a formatted reference whose book holds no colon back into
   * the book, the chapter and the verse.
   */
  lemma LooseMatchOfFormatted(book: string, chapter: nat, verse: nat)
    requires PlainBookName(book) && ':' !in book
    ensures MatchLooseReference(FormatReference(book, chapter, verse, None)) == Some((book, chapter, verse))
  {
    var c, v := NatToString(chapter), NatToString(verse);
    var t := TailMatch(c, v, None);
    var s := FormatReference(book, chapter, verse, None);
    var rest := " " + c + ":" + v;
    assert s == book + rest;
    assert s[|book|..] == rest && s[..|book|] == book;
    LooseTailOfFormatted(chapter, verse);
    forall j | 1 <= j < |book| ensures !Candidate(s, j, Unanchored) {
      NoShorterLooseBook(book, rest, j);
    }
    FindBookFirst(s, |book|, t, Unanchored);
    TrimIdentity(book);
    DigitsValueOfNatToString(chapter);
    DigitsValueOfNatToString(verse);
  }
}
