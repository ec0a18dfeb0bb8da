/**
 * The converter's processing of a whole input: the loop that converts every record and files
 * it under the volume its reference's first word names, counting what it files and what it
 * skips; the de-duplication of each volume's list by reference; the per-volume save results;
 * and the generator of placeholder references from a table of books and chapter counts.
 */
module ConversionPipeline {
  import opened Wrappers
  import opened Volumes
  import opened ApiResponse
  import opened Converter
  import Text
  import Csv
  import ReferenceParser

  // ---------------------------------------------------------------------------------------
  // CSV rows as converter input

  /** A CSV row as the converter reads it: every field is a string. */
  function RowAsRecord(row: map<string, string>): Record {
    map k | k in row :: JString(row[k])
  }

  /** A CSV row never makes the converter throw: its `Reference`, when present, is a string. */
  lemma CsvRowNeverThrows(row: map<string, string>)
    ensures ConvertVerse(RowAsRecord(row)).Success?
  {
    var rec := RowAsRecord(row);
    if "Reference" in rec {
      assert rec["Reference"] == JString(row["Reference"]);
    }
  }

  // ---------------------------------------------------------------------------------------
  // Grouping by volume

  /** `volumeVerses`: one list per volume. */
  type Buckets = map<Volume, seq<ConvertedVerse>>

  /** Every volume has its list. */
  predicate AllBuckets(buckets: Buckets) {
    forall v :: v in buckets
  }

  const NoBuckets: Buckets :=
    map[Bible := [], BookOfMormon := [], DoctrineAndCovenants := [], PearlOfGreatPrice := []]

  /** The lists and the two counters of the grouping loop. */
  datatype Grouping = Grouping(buckets: Buckets, processed: nat, skipped: nat)

  /**
   * Where the loop files one record: its volume and converted entry, `None` when it is
   * skipped, a `Failure` when converting it throws.
   */
  function Route(rec: Record): (r: Result<Option<(Volume, ConvertedVerse)>, string>)
    ensures r.Failure? <==> ConvertVerse(rec).Failure?
    ensures r.Success? && r.value.Some? ==>
      ConvertVerse(rec) == Success(Some(r.value.value.1))
      && GetVolumeFromBook(Converter.FirstToken(r.value.value.1.reference)) == Some(r.value.value.0)
  {
    match ConvertVerse(rec)
    case Failure(e) => Failure(e)
    case Success(None) => Success(None)
    case Success(Some(converted)) =>
      match GetVolumeFromBook(Converter.FirstToken(converted.reference))
      case None => Success(None)
      case Some(v) => Success(Some((v, converted)))
  }

  /** What the loop body makes of one record. */
  type Router = Record -> Result<Option<(Volume, ConvertedVerse)>, string>

  /** One turn of the loop, given what the record was routed to. */
  function GroupStep(g: Grouping, routed: Result<Option<(Volume, ConvertedVerse)>, string>): Result<Grouping, string> {
    match routed
    case Failure(e) => Failure(e)
    case Success(None) => Success(g.(skipped := g.skipped + 1))
    case Success(Some((v, converted))) =>
      if v in g.buckets then
        Success(g.(buckets := g.buckets[v := g.buckets[v] + [converted]], processed := g.processed + 1))
      else Success(g.(skipped := g.skipped + 1))
  }

  /** The loop over the records; the first record that throws ends the whole run. */
  function Group(records: seq<Record>, route: Router): Result<Grouping, string> {
    if records == [] then Success(Grouping(NoBuckets, 0, 0))
    else
      match Group(records[..|records| - 1], route)
      case Failure(e) => Failure(e)
      case Success(g) => GroupStep(g, route(records[|records| - 1]))
  }

  /** The loop of processInputFile that fills `volumeVerses`, `processed` and `skipped`. */
  method GroupVerses(verses: seq<Record>) returns (r: Result<Grouping, string>)
    ensures r == Group(verses, Route)
  {
    r := GroupWith(verses, Route);
  }

  /** That loop, with its body's conversion and lookup given as `route`. */
  method GroupWith(verses: seq<Record>, route: Router) returns (r: Result<Grouping, string>)
    ensures r == Group(verses, route)
  {
    var volumeVerses := NoBuckets;
    var processed, skipped := 0, 0;
    var i := 0;
    while i < |verses|
      invariant 0 <= i <= |verses|
      invariant Group(verses[..i], route) == Success(Grouping(volumeVerses, processed, skipped))
    {
      assert verses[..i + 1][..i] == verses[..i];
      var routed := route(verses[i]);
      if routed.Failure? {
        GroupStopsAt(verses, route, i + 1);
        return Failure(routed.error);
      }
      if routed.value.None? {
        skipped := skipped + 1;
      } else {
        var (volume, entry) := routed.value.value;
        if volume in volumeVerses {
          volumeVerses := volumeVerses[volume := volumeVerses[volume] + [entry]];
          processed := processed + 1;
        } else {
          skipped := skipped + 1;
        }
      }
      i := i + 1;
    }
    assert verses[..i] == verses;
    r := Success(Grouping(volumeVerses, processed, skipped));
  }

  /** Once a prefix of the records has thrown, the whole run has thrown the same error. */
  lemma {:induction false} GroupStopsAt(records: seq<Record>, route: Router, n: nat)
    requires n <= |records| && Group(records[..n], route).Failure?
    ensures Group(records, route) == Group(records[..n], route)
    decreases |records| - n
  {
    if n < |records| {
      assert records[..n + 1][..n] == records[..n];
      GroupStopsAt(records, route, n + 1);
    } else {
      assert records[..n] == records;
    }
  }

  /** Whether a record is filed under some volume. */
  predicate Routed(routed: Result<Option<(Volume, ConvertedVerse)>, string>) {
    routed.Success? && routed.value.Some?
  }

  /** The entries of the records filed under one volume, in the order of the records. */
  function Filed(records: seq<Record>, route: Router, v: Volume): seq<ConvertedVerse> {
    if records == [] then []
    else
      var routed := route(records[|records| - 1]);
      Filed(records[..|records| - 1], route, v)
      + (if Routed(routed) && routed.value.value.0 == v then [routed.value.value.1] else [])
  }

  /** The number of records that are filed under some volume. */
  function CountFiled(records: seq<Record>, route: Router): nat {
    if records == [] then 0
    else CountFiled(records[..|records| - 1], route) + (if Routed(route(records[|records| - 1])) then 1 else 0)
  }

  function TotalLength(buckets: Buckets): nat
    requires AllBuckets(buckets)
  {
    |buckets[Bible]| + |buckets[BookOfMormon]| + |buckets[DoctrineAndCovenants]| + |buckets[PearlOfGreatPrice]|
  }

  /** A run that does not throw leaves each volume's list holding exactly the entries filed under it. */
  lemma {:induction false} GroupBuckets(records: seq<Record>, route: Router)
    ensures Group(records, route).Success? ==>
      var g := Group(records, route).value;
      AllBuckets(g.buckets) && forall v :: g.buckets[v] == Filed(records, route, v)
  {
    if records == [] {
      assert forall v :: v in NoBuckets by {
        forall v ensures v in NoBuckets {
          match v
          case Bible =>
          case BookOfMormon =>
          case DoctrineAndCovenants =>
          case PearlOfGreatPrice =>
        }
      }
    } else {
      var init := records[..|records| - 1];
      GroupBuckets(init, route);
      if Group(records, route).Success? {
        var g := Group(records, route).value;
        var g0 := Group(init, route).value;
        var routed := route(records[|records| - 1]);
        if Routed(routed) {
          var w := routed.value.value.0;
          assert forall v :: v != w ==> g.buckets[v] == g0.buckets[v];
        }
      }
    }
  }

  /**
   * A run that does not throw counts every record exactly once as processed or skipped, and
   * the processed count is the number of entries filed, which is the total length of the lists.
   */
  lemma {:induction false} GroupCounts(records: seq<Record>, route: Router)
    ensures Group(records, route).Success? ==>
      var g := Group(records, route).value;
      && g.processed == CountFiled(records, route)
      && g.processed + g.skipped == |records|
      && AllBuckets(g.buckets) && g.processed == TotalLength(g.buckets)
  {
    GroupBuckets(records, route);
    if records != [] {
      var init := records[..|records| - 1];
      GroupCounts(init, route);
    }
  }

  /** A run throws exactly when routing some record throws, and then with the first such error. */
  lemma {:induction false} GroupThrows(records: seq<Record>, route: Router)
    ensures Group(records, route).Failure? <==> exists i :: 0 <= i < |records| && route(records[i]).Failure?
    ensures Group(records, route).Failure? ==>
      exists i :: 0 <= i < |records| && route(records[i]) == Failure(Group(records, route).error)
  {
    if records != [] {
      var init := records[..|records| - 1];
      GroupThrows(init, route);
      assert forall i :: 0 <= i < |init| ==> init[i] == records[i];
    }
  }

  /** So the converter throws on its input exactly when it throws on some record. */
  lemma ConversionThrows(records: seq<Record>)
    ensures Group(records, Route).Failure? <==> exists i :: 0 <= i < |records| && ConvertVerse(records[i]).Failure?
    ensures Group(records, Route).Failure? ==> Group(records, Route).error == ReferenceNotAString
  {
    GroupThrows(records, Route);
    if Group(records, Route).Failure? {
      var i :| 0 <= i < |records| && Route(records[i]) == Failure(Group(records, Route).error);
      ConvertVerseOutcomes(records[i]);
    }
  }

  /** Every entry filed under a volume is what some record was routed to, with that volume. */
  lemma {:induction false} FiledEntriesRouted(records: seq<Record>, route: Router, v: Volume)
    ensures forall m :: 0 <= m < |Filed(records, route, v)| ==>
      exists i :: 0 <= i < |records| && route(records[i]) == Success(Some((v, Filed(records, route, v)[m])))
  {
    if records != [] {
      var init := records[..|records| - 1];
      FiledEntriesRouted(init, route, v);
      var filed, before := Filed(records, route, v), Filed(init, route, v);
      forall m | 0 <= m < |filed|
        ensures exists i :: 0 <= i < |records| && route(records[i]) == Success(Some((v, filed[m])))
      {
        if m < |before| {
          assert filed[m] == before[m];
          var i :| 0 <= i < |init| && route(init[i]) == Success(Some((v, before[m])));
          assert init[i] == records[i];
        } else {
          var last := |records| - 1;
          assert route(records[last]) == Success(Some((v, filed[m])));
        }
      }
    } else {
      assert Filed(records, route, v) == [];
    }
  }

  /**
   * So every entry the converter files under a volume came from converting one of the
   * records, and its reference's first word is found in that volume.
   */
  lemma FiledEntryBelongs(records: seq<Record>, v: Volume, m: nat)
    requires m < |Filed(records, Route, v)|
    ensures GetVolumeFromBook(Converter.FirstToken(Filed(records, Route, v)[m].reference)) == Some(v)
    ensures exists i :: 0 <= i < |records| && ConvertVerse(records[i]) == Success(Some(Filed(records, Route, v)[m]))
  {
    FiledEntriesRouted(records, Route, v);
    var entry := Filed(records, Route, v)[m];
    var i :| 0 <= i < |records| && Route(records[i]) == Success(Some((v, entry)));
  }

  /** Every record that is routed to a volume is filed under it. */
  lemma {:induction false} FiledEntriesComplete(records: seq<Record>, route: Router, i: nat)
    requires i < |records| && Routed(route(records[i]))
    ensures route(records[i]).value.value.1 in Filed(records, route, route(records[i]).value.value.0)
  {
    var init := records[..|records| - 1];
    if i < |init| {
      assert init[i] == records[i];
      FiledEntriesComplete(init, route, i);
    }
  }

  // ---------------------------------------------------------------------------------------
  // Removing duplicate references

  /** The references of a list of entries. */
  function ReferencesOf(verses: seq<ConvertedVerse>): set<string> {
    set i | 0 <= i < |verses| :: verses[i].reference
  }

  /** The entries whose reference does not occur earlier in the list, in list order. */
  function FirstOccurrences(verses: seq<ConvertedVerse>): seq<ConvertedVerse> {
    if verses == [] then []
    else
      var init, last := verses[..|verses| - 1], verses[|verses| - 1];
      if last.reference in ReferencesOf(init) then FirstOccurrences(init) else FirstOccurrences(init) + [last]
  }

  lemma ReferencesAppend(verses: seq<ConvertedVerse>, verse: ConvertedVerse)
    ensures ReferencesOf(verses + [verse]) == ReferencesOf(verses) + {verse.reference}
  {
    var all := verses + [verse];
    assert forall i :: 0 <= i < |verses| ==> all[i] == verses[i];
    assert all[|verses|] == verse;
  }

  /** The loop that fills `seen` and `uniqueVerses`. */
  method RemoveDuplicates(verses: seq<ConvertedVerse>) returns (uniqueVerses: seq<ConvertedVerse>)
    ensures uniqueVerses == FirstOccurrences(verses)
  {
    uniqueVerses := [];
    var seen: set<string> := {};
    for i := 0 to |verses|
      invariant seen == ReferencesOf(verses[..i])
      invariant uniqueVerses == FirstOccurrences(verses[..i])
    {
      var verse := verses[i];
      assert verses[..i + 1] == verses[..i] + [verse];
      ReferencesAppend(verses[..i], verse);
      if verse.reference !in seen {
        seen := seen + {verse.reference};
        uniqueVerses := uniqueVerses + [verse];
      }
    }
    assert verses[..|verses|] == verses;
  }

  /** No two entries share a reference. */
  predicate DistinctReferences(verses: seq<ConvertedVerse>) {
    forall i, j :: 0 <= i < j < |verses| ==> verses[i].reference != verses[j].reference
  }

  /** De-duplication keeps the set of references and leaves no reference twice. */
  lemma {:induction false} FirstOccurrencesDistinct(verses: seq<ConvertedVerse>)
    ensures ReferencesOf(FirstOccurrences(verses)) == ReferencesOf(verses)
    ensures DistinctReferences(FirstOccurrences(verses))
  {
    if verses != [] {
      var init, last := verses[..|verses| - 1], verses[|verses| - 1];
      FirstOccurrencesDistinct(init);
      assert verses == init + [last];
      ReferencesAppend(init, last);
      if last.reference !in ReferencesOf(init) {
        ReferencesAppend(FirstOccurrences(init), last);
        var u := FirstOccurrences(verses);
        assert forall i :: 0 <= i < |u| - 1 ==> u[i].reference in ReferencesOf(init);
      }
    }
  }

  /** A list without repeated references has as many references as entries. */
  lemma {:induction false} DistinctCount(verses: seq<ConvertedVerse>)
    requires DistinctReferences(verses)
    ensures |ReferencesOf(verses)| == |verses|
  {
    if verses != [] {
      var init, last := verses[..|verses| - 1], verses[|verses| - 1];
      assert verses == init + [last];
      DistinctCount(init);
      ReferencesAppend(init, last);
      assert last.reference !in ReferencesOf(init);
    }
  }

  /** So the de-duplicated list has one entry per distinct reference. */
  lemma UniqueCount(verses: seq<ConvertedVerse>)
    ensures |FirstOccurrences(verses)| == |ReferencesOf(verses)|
  {
    FirstOccurrencesDistinct(verses);
    DistinctCount(FirstOccurrences(verses));
  }

  /** The entry at `k` is the first with its reference. */
  predicate FirstOfItsReference(verses: seq<ConvertedVerse>, k: int) {
    0 <= k < |verses| && forall j :: 0 <= j < k ==> verses[j].reference != verses[k].reference
  }

  /** The positions in the input that de-duplication keeps. */
  function KeptPositions(verses: seq<ConvertedVerse>): seq<nat> {
    if verses == [] then []
    else
      var init, last := verses[..|verses| - 1], verses[|verses| - 1];
      if last.reference in ReferencesOf(init) then KeptPositions(init) else KeptPositions(init) + [|verses| - 1]
  }

  /**
   * De-duplication keeps, in increasing order of position, exactly the entries that are the
   * first with their reference.
   */
  lemma {:induction false} FirstOccurrencesPositions(verses: seq<ConvertedVerse>)
    ensures var kept, u := KeptPositions(verses), FirstOccurrences(verses);
      && |kept| == |u|
      && (forall m :: 0 <= m < |kept| ==> kept[m] < |verses| && u[m] == verses[kept[m]])
      && (forall m, n :: 0 <= m < n < |kept| ==> kept[m] < kept[n])
      && (forall k :: FirstOfItsReference(verses, k) <==> k in kept)
  {
    if verses != [] {
      var init, last := verses[..|verses| - 1], verses[|verses| - 1];
      FirstOccurrencesPositions(init);
      assert forall k :: 0 <= k < |init| ==> init[k] == verses[k];
      assert forall k :: 0 <= k < |init| ==> (FirstOfItsReference(verses, k) <==> FirstOfItsReference(init, k));
      assert last.reference in ReferencesOf(init) <==> !FirstOfItsReference(verses, |verses| - 1);
    }
  }

  /**
   * Lists that are rearrangements of one another de-duplicate to lists of the same length, so
   * the count saved for a volume does not depend on how its list was sorted.
   */
  lemma SortDoesNotChangeCount(a: seq<ConvertedVerse>, b: seq<ConvertedVerse>)
    requires multiset(a) == multiset(b)
    ensures |FirstOccurrences(a)| == |FirstOccurrences(b)|
  {
    SameEntriesSameReferences(a, b);
    SameEntriesSameReferences(b, a);
    assert ReferencesOf(a) == ReferencesOf(b);
    UniqueCount(a);
    UniqueCount(b);
  }

  lemma SameEntriesSameReferences(a: seq<ConvertedVerse>, b: seq<ConvertedVerse>)
    requires multiset(a) == multiset(b)
    ensures ReferencesOf(a) <= ReferencesOf(b)
  {
    forall r | r in ReferencesOf(a) ensures r in ReferencesOf(b) {
      var i :| 0 <= i < |a| && a[i].reference == r;
      assert a[i] in multiset(b);
      var j :| 0 <= j < |b| && b[j] == a[i];
    }
  }

  /** A list whose references are all different is left as it is. */
  lemma {:induction false} DistinctUnchanged(verses: seq<ConvertedVerse>)
    requires DistinctReferences(verses)
    ensures FirstOccurrences(verses) == verses
  {
    if verses != [] {
      var init, last := verses[..|verses| - 1], verses[|verses| - 1];
      DistinctUnchanged(init);
      assert last.reference !in ReferencesOf(init);
      assert verses == init + [last];
    }
  }

  // ---------------------------------------------------------------------------------------
  // Saving the volumes

  /** An entry of `results.success` or `results.failed`. */
  datatype VolumeResult =
    | Saved(volume: string, count: nat, file: string)
    | Failed(volume: string, reason: string)

  /** The reason recorded for a volume without entries. */
  const NoVersesFound := "No verses found"

  /**
   * What the save loop records for one volume: its list is sorted by `sortVerses` and
   * de-duplicated, and `writeError` is the message of the error writing its file throws, if
   * any.
   */
  function VolumeOutcome(v: Volume, buckets: Buckets, sortVerses: seq<ConvertedVerse> -> seq<ConvertedVerse>,
                         writeError: Volume -> Option<string>): VolumeResult
    requires AllBuckets(buckets)
  {
    if |buckets[v]| == 0 then Failed(DisplayName(v), NoVersesFound)
    else if writeError(v).Some? then Failed(DisplayName(v), writeError(v).value)
    else Saved(DisplayName(v), |FirstOccurrences(sortVerses(buckets[v]))|, FileName(v))
  }

  /** `results.success`, `results.failed`, and the files written with their entries, in order. */
  datatype SaveResults = SaveResults(success: seq<VolumeResult>, failed: seq<VolumeResult>,
                                     written: seq<(string, seq<ConvertedVerse>)>)

  /** The save loop over the given volumes, in order. */
  function SaveAll(volumes: seq<Volume>, buckets: Buckets, sortVerses: seq<ConvertedVerse> -> seq<ConvertedVerse>,
                   writeError: Volume -> Option<string>): SaveResults
    requires AllBuckets(buckets)
  {
    if volumes == [] then SaveResults([], [], [])
    else
      var r := SaveAll(volumes[..|volumes| - 1], buckets, sortVerses, writeError);
      var v := volumes[|volumes| - 1];
      var outcome := VolumeOutcome(v, buckets, sortVerses, writeError);
      if outcome.Saved? then
        r.(success := r.success + [outcome], written := r.written + [(FileName(v), FirstOccurrences(sortVerses(buckets[v])))])
      else r.(failed := r.failed + [outcome])
  }

  /**
   * The loop over the volumes that sorts, de-duplicates and writes each list, recording each
   * volume in `results.success` or `results.failed`.
   */
  method SaveVerseLists(buckets: Buckets, sortVerses: seq<ConvertedVerse> -> seq<ConvertedVerse>,
                        writeError: Volume -> Option<string>)
    returns (success: seq<VolumeResult>, failed: seq<VolumeResult>, written: seq<(string, seq<ConvertedVerse>)>)
    requires AllBuckets(buckets)
    ensures SaveResults(success, failed, written) == SaveAll(AllVolumes, buckets, sortVerses, writeError)
  {
    success, failed, written := [], [], [];
    for k := 0 to |AllVolumes|
      invariant SaveResults(success, failed, written) == SaveAll(AllVolumes[..k], buckets, sortVerses, writeError)
    {
      var v := AllVolumes[k];
      assert AllVolumes[..k + 1][..k] == AllVolumes[..k];
      var verses := buckets[v];
      if |verses| == 0 {
        failed := failed + [Failed(DisplayName(v), NoVersesFound)];
        continue;
      }
      verses := sortVerses(verses);
      var uniqueVerses := RemoveDuplicates(verses);
      var error := writeError(v);
      if error.Some? {
        failed := failed + [Failed(DisplayName(v), error.value)];
      } else {
        written := written + [(FileName(v), uniqueVerses)];
        success := success + [Saved(DisplayName(v), |uniqueVerses|, FileName(v))];
      }
    }
    assert AllVolumes[..|AllVolumes|] == AllVolumes;
  }

  /** The process exit status: 0 when no volume failed. */
  function ExitCode(failed: seq<VolumeResult>): int {
    if failed == [] then 0 else 1
  }

  /** Each volume is recorded once, as a success or as a failure, and every success has its file. */
  lemma {:induction false} SaveAllRecordsEach(volumes: seq<Volume>, buckets: Buckets,
                                              sortVerses: seq<ConvertedVerse> -> seq<ConvertedVerse>,
                                              writeError: Volume -> Option<string>)
    requires AllBuckets(buckets)
    ensures var r := SaveAll(volumes, buckets, sortVerses, writeError);
      && |r.success| + |r.failed| == |volumes|
      && |r.written| == |r.success|
      && (forall m :: 0 <= m < |r.success| ==> r.success[m].Saved? && r.written[m].0 == r.success[m].file)
      && (forall m :: 0 <= m < |r.failed| ==> r.failed[m].Failed?)
  {
    if volumes != [] {
      SaveAllRecordsEach(volumes[..|volumes| - 1], buckets, sortVerses, writeError);
    }
  }

  /** No volume is recorded as failed exactly when every volume's outcome is a save. */
  lemma {:induction false} SaveAllFailsNone(volumes: seq<Volume>, buckets: Buckets,
                                            sortVerses: seq<ConvertedVerse> -> seq<ConvertedVerse>,
                                            writeError: Volume -> Option<string>)
    requires AllBuckets(buckets)
    ensures SaveAll(volumes, buckets, sortVerses, writeError).failed == [] <==>
      forall i :: 0 <= i < |volumes| ==> VolumeOutcome(volumes[i], buckets, sortVerses, writeError).Saved?
  {
    if volumes != [] {
      var init := volumes[..|volumes| - 1];
      SaveAllFailsNone(init, buckets, sortVerses, writeError);
      assert forall i :: 0 <= i < |init| ==> init[i] == volumes[i];
    }
  }

  /** Every volume recorded as saved has its file written with its de-duplicated sorted list. */
  lemma {:induction false} SaveAllWrites(volumes: seq<Volume>, buckets: Buckets,
                                         sortVerses: seq<ConvertedVerse> -> seq<ConvertedVerse>,
                                         writeError: Volume -> Option<string>, i: nat)
    requires AllBuckets(buckets) && i < |volumes|
    requires VolumeOutcome(volumes[i], buckets, sortVerses, writeError).Saved?
    ensures (FileName(volumes[i]), FirstOccurrences(sortVerses(buckets[volumes[i]])))
      in SaveAll(volumes, buckets, sortVerses, writeError).written
  {
    var init := volumes[..|volumes| - 1];
    if i < |init| {
      assert init[i] == volumes[i];
      SaveAllWrites(init, buckets, sortVerses, writeError, i);
    }
  }

  /**
   * The run succeeds exactly when every volume has entries and every file is written; a volume
   * without entries is always recorded as failed for that reason.
   */
  lemma ExitStatus(buckets: Buckets, sortVerses: seq<ConvertedVerse> -> seq<ConvertedVerse>,
                   writeError: Volume -> Option<string>)
    requires AllBuckets(buckets)
    ensures ExitCode(SaveAll(AllVolumes, buckets, sortVerses, writeError).failed) == 0 <==>
      forall v :: |buckets[v]| > 0 && writeError(v).None?
    ensures forall v :: |buckets[v]| == 0 ==>
      VolumeOutcome(v, buckets, sortVerses, writeError) == Failed(DisplayName(v), NoVersesFound)
  {
    SaveAllFailsNone(AllVolumes, buckets, sortVerses, writeError);
    var r := SaveAll(AllVolumes, buckets, sortVerses, writeError);
    if r.failed == [] {
      forall v ensures |buckets[v]| > 0 && writeError(v).None? {
        assert AllVolumes[Rank(v)] == v;
        assert VolumeOutcome(AllVolumes[Rank(v)], buckets, sortVerses, writeError).Saved?;
      }
    }
  }

  /**
   * When the sort only rearranges a list, the count saved for a volume is the number of
   * different references filed under it.
   */
  lemma SavedCount(v: Volume, buckets: Buckets, sortVerses: seq<ConvertedVerse> -> seq<ConvertedVerse>,
                   writeError: Volume -> Option<string>)
    requires AllBuckets(buckets) && multiset(sortVerses(buckets[v])) == multiset(buckets[v])
    requires VolumeOutcome(v, buckets, sortVerses, writeError).Saved?
    ensures VolumeOutcome(v, buckets, sortVerses, writeError).count == |ReferencesOf(buckets[v])|
  {
    SortDoesNotChangeCount(sortVerses(buckets[v]), buckets[v]);
    UniqueCount(buckets[v]);
  }

  // ---------------------------------------------------------------------------------------
  // Generating references from the book structure

  /** The books of the Book of Mormon and their chapter counts, in the generator's order. */
  const BookOfMormonStructure: seq<(string, nat)> :=
    [("1 Nephi", 22), ("2 Nephi", 33), ("Jacob", 7), ("Enos", 1), ("Jarom", 1),
     ("Omni", 1), ("Words of Mormon", 1), ("Mosiah", 29), ("Alma", 63), ("Helaman", 16),
     ("3 Nephi", 30), ("4 Nephi", 1), ("Mormon", 9), ("Ether", 15), ("Moroni", 10)]

  /** The verses generated for every chapter. */
  const EstimatedVerses: nat := 30

  /** A position of the generated list: a book, a chapter and a verse. */
  type Slot = (string, nat, nat)

  /** One generated entry: `"<book> <chapter>:<verse>"` with empty text. */
  function Placeholder(slot: Slot): ConvertedVerse {
    ConvertedVerse(ReferenceParser.FormatReference(slot.0, slot.1, slot.2, None), JString(""))
  }

  /** The entries for a list of positions. */
  function Render(slots: seq<Slot>): seq<ConvertedVerse> {
    if slots == [] then [] else Render(slots[..|slots| - 1]) + [Placeholder(slots[|slots| - 1])]
  }

  /** Verses 1 to `verses` of one chapter. */
  function ChapterSlots(book: string, chapter: nat, verses: nat): seq<Slot> {
    if verses == 0 then [] else ChapterSlots(book, chapter, verses - 1) + [(book, chapter, verses)]
  }

  /** Chapters 1 to `chapters` of one book. */
  function BookSlots(book: string, chapters: nat): seq<Slot> {
    if chapters == 0 then []
    else BookSlots(book, chapters - 1) + ChapterSlots(book, chapters, EstimatedVerses)
  }

  /** Every book of a structure, in order. */
  function StructureSlots(structure: seq<(string, nat)>): seq<Slot> {
    if structure == [] then []
    else
      var last := structure[|structure| - 1];
      StructureSlots(structure[..|structure| - 1]) + BookSlots(last.0, last.1)
  }

  /** The number of chapters of a structure. */
  function TotalChapters(structure: seq<(string, nat)>): nat {
    if structure == [] then 0
    else TotalChapters(structure[..|structure| - 1]) + structure[|structure| - 1].1
  }

  /** generateFromStructure on the Book of Mormon table, before its list is written. */
  method GenerateFromStructure() returns (verses: seq<ConvertedVerse>)
    ensures verses == Render(StructureSlots(BookOfMormonStructure))
  {
    verses := GenerateReferences(BookOfMormonStructure);
  }

  /** The outer loop over the books; each book's chapters are appended in turn. */
  method GenerateReferences(structure: seq<(string, nat)>) returns (verses: seq<ConvertedVerse>)
    ensures verses == Render(StructureSlots(structure))
  {
    verses := [];
    for b := 0 to |structure|
      invariant verses == Render(StructureSlots(structure[..b]))
    {
      var (book, chapters) := structure[b];
      assert structure[..b + 1][..b] == structure[..b] && structure[..b + 1][b] == structure[b];
      var entries := BookEntries(book, chapters);
      RenderConcat(StructureSlots(structure[..b]), BookSlots(book, chapters));
      verses := verses + entries;
    }
    assert structure[..|structure|] == structure;
  }

  /** The loop over the chapters of one book. */
  method BookEntries(book: string, chapters: nat) returns (verses: seq<ConvertedVerse>)
    ensures verses == Render(BookSlots(book, chapters))
  {
    verses := [];
    var chapter := 1;
    while chapter <= chapters
      invariant 1 <= chapter <= chapters + 1
      invariant verses == Render(BookSlots(book, chapter - 1))
    {
      var entries := ChapterEntries(book, chapter);
      RenderConcat(BookSlots(book, chapter - 1), ChapterSlots(book, chapter, EstimatedVerses));
      verses := verses + entries;
      chapter := chapter + 1;
    }
  }

  /** The innermost loop: verses 1 to 30 of one chapter. */
  method ChapterEntries(book: string, chapter: nat) returns (verses: seq<ConvertedVerse>)
    ensures verses == Render(ChapterSlots(book, chapter, EstimatedVerses))
  {
    verses := [];
    var verse := 1;
    while verse <= EstimatedVerses
      invariant 1 <= verse <= EstimatedVerses + 1
      invariant verses == Render(ChapterSlots(book, chapter, verse - 1))
    {
      RenderConcat(ChapterSlots(book, chapter, verse - 1), [(book, chapter, verse)]);
      verses := verses + [Placeholder((book, chapter, verse))];
      verse := verse + 1;
    }
  }

  /** Rendering a list of positions piece by piece gives the same entries. */
  lemma {:induction false} RenderConcat(a: seq<Slot>, b: seq<Slot>)
    ensures Render(a + b) == Render(a) + Render(b)
    decreases |b|
  {
    if b == [] {
      assert a + b == a;
    } else {
      var init := b[..|b| - 1];
      RenderConcat(a, init);
      assert (a + b)[..|a + b| - 1] == a + init;
    }
  }

  /** Each position gives the entry for its book, chapter and verse, with empty text. */
  lemma {:induction false} RenderAt(slots: seq<Slot>)
    ensures |Render(slots)| == |slots|
    ensures forall k :: 0 <= k < |slots| ==> Render(slots)[k] == Placeholder(slots[k])
    ensures forall k :: 0 <= k < |slots| ==> Render(slots)[k].text == JString("")
  {
    if slots != [] {
      RenderAt(slots[..|slots| - 1]);
    }
  }

  /** A chapter's positions are its verses in order. */
  lemma {:induction false} ChapterSlotsAt(book: string, chapter: nat, verses: nat)
    ensures |ChapterSlots(book, chapter, verses)| == verses
    ensures forall v :: 1 <= v <= verses ==> ChapterSlots(book, chapter, verses)[v - 1] == (book, chapter, v)
  {
    if verses > 0 {
      ChapterSlotsAt(book, chapter, verses - 1);
    }
  }

  /** A book has 30 positions per chapter, verse `v` of chapter `c` at `30 * (c - 1) + v - 1`. */
  lemma {:induction false} BookSlotsAt(book: string, chapters: nat)
    ensures |BookSlots(book, chapters)| == EstimatedVerses * chapters
    ensures forall c, v :: 1 <= c <= chapters && 1 <= v <= EstimatedVerses ==>
      BookSlots(book, chapters)[EstimatedVerses * (c - 1) + v - 1] == (book, c, v)
  {
    if chapters > 0 {
      BookSlotsAt(book, chapters - 1);
      ChapterSlotsAt(book, chapters, EstimatedVerses);
    }
  }

  /** The generator lists 30 positions per chapter of the structure. */
  lemma {:induction false} StructureLength(structure: seq<(string, nat)>)
    ensures |StructureSlots(structure)| == EstimatedVerses * TotalChapters(structure)
  {
    if structure != [] {
      var init, last := structure[..|structure| - 1], structure[|structure| - 1];
      StructureLength(init);
      BookSlotsAt(last.0, last.1);
    }
  }

  /**
   * Verse `v` of chapter `c` of the book at `b` comes right after the positions of all
   * earlier books and chapters: the list is in book, chapter, verse order.
   */
  lemma {:induction false} StructureSlotAt(structure: seq<(string, nat)>, b: nat, c: nat, v: nat)
    requires b < |structure| && 1 <= c <= structure[b].1 && 1 <= v <= EstimatedVerses
    ensures EstimatedVerses * (TotalChapters(structure[..b]) + c - 1) + v - 1 < |StructureSlots(structure)|
    ensures StructureSlots(structure)[EstimatedVerses * (TotalChapters(structure[..b]) + c - 1) + v - 1]
      == (structure[b].0, c, v)
  {
    var init, last := structure[..|structure| - 1], structure[|structure| - 1];
    StructureLength(init);
    BookSlotsAt(last.0, last.1);
    if b < |init| {
      assert structure[..b] == init[..b] && structure[b] == init[b];
      StructureSlotAt(init, b, c, v);
    } else {
      assert structure[..b] == init;
    }
  }

  /**
   * The generated entry for verse `v` of chapter `c` of the book at `b` is the reference to
   * it with empty text, and when the book is a plain name the node helper reads it back.
   */
  lemma GeneratedEntry(structure: seq<(string, nat)>, b: nat, c: nat, v: nat)
    requires b < |structure| && 1 <= c <= structure[b].1 && 1 <= v <= EstimatedVerses
    ensures var entries := Render(StructureSlots(structure));
      && EstimatedVerses * (TotalChapters(structure[..b]) + c - 1) + v - 1 < |entries|
      && entries[EstimatedVerses * (TotalChapters(structure[..b]) + c - 1) + v - 1]
        == ConvertedVerse(ReferenceParser.FormatReference(structure[b].0, c, v, None), JString(""))
      && (ReferenceParser.PlainBookName(structure[b].0) ==>
          ReferenceParser.ParseVerseReference(entries[EstimatedVerses * (TotalChapters(structure[..b]) + c - 1) + v - 1].reference)
          == Success(ReferenceParser.VerseReference(structure[b].0, c, v, None)))
  {
    StructureSlotAt(structure, b, c, v);
    RenderAt(StructureSlots(structure));
    if ReferenceParser.PlainBookName(structure[b].0) {
      ReferenceParser.ParseFormatRoundTrip(structure[b].0, c, v, None);
    }
  }

  /** One more book adds its chapters to the total. */
  lemma TotalChaptersPrefix(structure: seq<(string, nat)>, k: nat)
    requires 1 <= k <= |structure|
    ensures TotalChapters(structure[..k]) == TotalChapters(structure[..k - 1]) + structure[k - 1].1
  {
    assert structure[..k][..k - 1] == structure[..k - 1];
  }

  /** The Book of Mormon table has 239 chapters. */
  lemma BookOfMormonChapters()
    ensures TotalChapters(BookOfMormonStructure) == 239
  {
    var s := BookOfMormonStructure;
    assert s[..0] == [];
    TotalChaptersPrefix(s, 1);
    TotalChaptersPrefix(s, 2);
    TotalChaptersPrefix(s, 3);
    TotalChaptersPrefix(s, 4);
    TotalChaptersPrefix(s, 5);
    TotalChaptersPrefix(s, 6);
    TotalChaptersPrefix(s, 7);
    TotalChaptersPrefix(s, 8);
    TotalChaptersPrefix(s, 9);
    TotalChaptersPrefix(s, 10);
    TotalChaptersPrefix(s, 11);
    TotalChaptersPrefix(s, 12);
    TotalChaptersPrefix(s, 13);
    TotalChaptersPrefix(s, 14);
    TotalChaptersPrefix(s, 15);
    assert s[..15] == s;
  }

  /** The generator writes 30 entries per chapter of the structure. */
  lemma GeneratedCount(structure: seq<(string, nat)>)
    ensures |Render(StructureSlots(structure))| == EstimatedVerses * TotalChapters(structure)
  {
    StructureLength(structure);
    RenderAt(StructureSlots(structure));
  }

  /** So 7170 references are generated for the Book of Mormon. */
  lemma BookOfMormonGenerated()
    ensures |Render(StructureSlots(BookOfMormonStructure))| == 7170
  {
    BookOfMormonChapters();
    GeneratedCount(BookOfMormonStructure);
  }
}
