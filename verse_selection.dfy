/**
 * The node helper's selection of the verse of the day: the day number within the year, the
 * volume that day number picks in a 4-day cycle, and the entry of that volume's list.
 * Verse lists hold reference strings.
 */
module VerseSelection {
  import opened Wrappers
  import opened Calendar
  import opened Volumes
  import Arith

  /** The four loaded lists, one per volume. */
  datatype VerseLists = VerseLists(
    bible: seq<string>,
    bookOfMormon: seq<string>,
    doctrineAndCovenants: seq<string>,
    pearlOfGreatPrice: seq<string>)

  /** The lists before anything is loaded. */
  const NoVerseLists: VerseLists := VerseLists([], [], [], [])

  function ListFor(lists: VerseLists, v: Volume): seq<string> {
    match v
    case Bible => lists.bible
    case BookOfMormon => lists.bookOfMormon
    case DoctrineAndCovenants => lists.doctrineAndCovenants
    case PearlOfGreatPrice => lists.pearlOfGreatPrice
  }

  /**
   * The year that `new Date(year, month, day)` really uses: ECMAScript maps the years 0..99
   * to 1900..1999 (MakeFullYear, section 21.4.2.1 of ECMA-262).
   */
  function ConstructorYear(y: int): int {
    if 0 <= y <= 99 then 1900 + y else y
  }

  /** The time value of `new Date(y, 0, 0)`: midnight starting December 31 of the year before `y`. */
  function DayZeroOfYear(y: int): int {
    TimeValue(StartOfDay(Date(y - 1, 12, 31)))
  }

  /**
   * getDayOfYear as written: the whole days between `new Date(year, 0, 0)` and the moment,
   * where the constructor shifts the years 0..99.
   */
  function GetDayOfYearAsWritten(t: DateTime): (n: int)
    requires ValidDateTime(t)
    ensures ConstructorYear(t.date.year) == t.date.year ==> n == DayOfYear(t.date)
  {
    DayStartsYear(t.date.year);
    (TimeValue(t) - DayZeroOfYear(ConstructorYear(t.date.year))) / MsPerDay
  }

  /** For a date in year 50, getDayOfYear as written is not a day number of the year at all. */
  lemma GetDayOfYearAsWrittenFailsInYear50()
    ensures ValidDateTime(DateTime(Date(50, 1, 1), 0, 0, 0, 0))
    ensures GetDayOfYearAsWritten(DateTime(Date(50, 1, 1), 0, 0, 0, 0)) < 1
  {
  }

  /**
   * getDayOfYear as intended: the whole days between midnight starting December 31 of the
   * previous year and the moment, which is the date's day number within its own year.
   */
  function GetDayOfYear(t: DateTime): (n: int)
    requires ValidDateTime(t)
    ensures n == DayOfYear(t.date)
    ensures 1 <= n <= 366
  {
    DayStartsYear(t.date.year);
    (TimeValue(t) - DayZeroOfYear(t.date.year)) / MsPerDay
  }

  /** Counting from December 31 of the previous year, a moment's whole days are its day number. */
  lemma DayStartsYear(y: int)
    ensures forall t :: ValidDateTime(t) && t.date.year == y ==>
      (TimeValue(t) - DayZeroOfYear(y)) / MsPerDay == DayOfYear(t.date)
  {
    DaysBeforeYearStep(y - 1);
    forall t | ValidDateTime(t) && t.date.year == y
      ensures (TimeValue(t) - DayZeroOfYear(y)) / MsPerDay == DayOfYear(t.date)
    {
      var diff := TimeValue(t) - DayZeroOfYear(y);
      assert diff == DayOfYear(t.date) * MsPerDay + MsOfDay(t);
      DivOfMultiplePlusRest(DayOfYear(t.date), MsOfDay(t));
    }
  }

  lemma DivOfMultiplePlusRest(q: int, r: int)
    requires 0 <= r < MsPerDay
    ensures (q * MsPerDay + r) / MsPerDay == q
  {
  }

  /** getVolumeForDay: day 1 is the Bible, day 2 the Book of Mormon, and so on every 4 days. */
  function VolumeForDay(dayOfYear: int): Volume
    requires dayOfYear >= 1
  {
    AllVolumes[(dayOfYear - 1) % 4]
  }

  /** The volume cycle: four days later the same volume, one day later the next one. */
  lemma VolumeCycle(d: int)
    requires d >= 1
    ensures VolumeForDay(d + 4) == VolumeForDay(d)
    ensures VolumeForDay(d + 1) == AllVolumes[((d - 1) % 4 + 1) % 4]
    ensures VolumeForDay(d) == Bible <==> d % 4 == 1
  {
  }

  lemma VolumeExamples()
    ensures VolumeForDay(1) == Bible && VolumeForDay(2) == BookOfMormon
    ensures VolumeForDay(3) == DoctrineAndCovenants && VolumeForDay(4) == PearlOfGreatPrice
    ensures VolumeForDay(5) == Bible && VolumeForDay(365) == Bible && VolumeForDay(366) == BookOfMormon
  {
  }

  /**
   * A non-leap December 31 (day 365) and the January 1 after it (day 1) both show the Bible:
   * the cycle restarts with each year.
   */
  lemma YearEndRepeatsBible(y: int)
    requires !IsLeapYear(y)
    ensures VolumeForDay(DayOfYear(Date(y, 12, 31))) == Bible
    ensures VolumeForDay(DayOfYear(NextDay(Date(y, 12, 31)))) == Bible
  {
  }

  /** getVerseIndexForDay: the index of the day's entry within the selected list. */
  function VerseIndexForDay(dayOfYear: int, length: nat): (i: nat)
    requires dayOfYear >= 1
    ensures length == 0 ==> i == 0
    ensures length > 0 ==> i < length
  {
    if length == 0 then 0 else ((dayOfYear - 1) / 4) % length
  }

  /** The next occurrence of the same volume, four days later, shows a different entry. */
  lemma VerseIndexVariety(d: int, length: nat)
    requires d >= 1 && length >= 2
    ensures VerseIndexForDay(d + 4, length) != VerseIndexForDay(d, length)
  {
    var c := (d - 1) / 4;
    assert (d + 3) / 4 == c + 1;
    Arith.ModSucc(c, length);
  }

  /**
   * On the days 1, 5, 9, ... of one volume the index runs through 0, 1, 2, ...: every entry
   * of a list is reached, and after `length` occurrences the rotation wraps around.
   */
  lemma VerseIndexReachesEveryEntry(k: nat, length: nat)
    requires k < length
    ensures VerseIndexForDay(1 + 4 * k, length) == k
    ensures VerseIndexForDay(1 + 4 * (k + length), length) == k
  {
    assert (4 * k) / 4 == k;
    assert (4 * (k + length)) / 4 == k + length;
  }

  lemma VerseIndexExamples()
    ensures VerseIndexForDay(1, 3) == 0 && VerseIndexForDay(5, 3) == 1
    ensures VerseIndexForDay(13, 3) == 0
    ensures VerseIndexForDay(42, 0) == 0
  {
  }

  /**
   * The phase-offset index some of the tests compute instead:
   * ((d - 1) mod length + floor(length * ((d - 1) mod 4) / 4)) mod length.
   */
  function PhaseOffsetIndex(dayOfYear: int, length: nat): (i: nat)
    requires dayOfYear >= 1
    ensures length == 0 ==> i == 0
    ensures length > 0 ==> i < length
  {
    if length == 0 then 0
    else ((dayOfYear - 1) % length + (length * ((dayOfYear - 1) % 4)) / 4) % length
  }

  /**
   * With the phase-offset index, the next occurrence of a volume shows another entry exactly
   * when the list length does not divide 4: lengths 1, 2 and 4 repeat, every other length varies.
   */
  lemma PhaseOffsetVariety(d: int, length: nat)
    requires d >= 1 && length >= 1
    ensures PhaseOffsetIndex(d + 4, length) != PhaseOffsetIndex(d, length) <==> 4 % length != 0
  {
    var x := d - 1;
    var off := (length * (x % 4)) / 4;
    assert (x + 4) % 4 == x % 4;
    Arith.ModOfModPlus(x, off, length);
    Arith.ModOfModPlus(x + 4, off, length);
    Arith.ModShift(x + off, 4, length);
  }

  /**
   * getVerseForDay: the entry of the selected volume's list at the day's index, or the error
   * the source throws when that list is empty.
   */
  function GetVerseForDay(lists: VerseLists, dayOfYear: int): (r: Result<string, string>)
    requires dayOfYear >= 1
    ensures var list := ListFor(lists, VolumeForDay(dayOfYear));
      && (r.Failure? <==> list == [])
      && (r.Failure? ==> r.error == "No verses available for volume: " + Key(VolumeForDay(dayOfYear)))
      && (r.Success? ==> r.value == list[VerseIndexForDay(dayOfYear, |list|)] && r.value in list)
  {
    var volume := VolumeForDay(dayOfYear);
    var list := ListFor(lists, volume);
    if list == [] then Failure("No verses available for volume: " + Key(volume))
    else Success(list[VerseIndexForDay(dayOfYear, |list|)])
  }

  /** A one-entry list always yields its only entry. */
  lemma SingleEntryListAlwaysChosen(lists: VerseLists, d: int)
    requires d >= 1 && |ListFor(lists, VolumeForDay(d))| == 1
    ensures GetVerseForDay(lists, d) == Success(ListFor(lists, VolumeForDay(d))[0])
  {
  }

  /** No entry occurs twice. */
  predicate Distinct(list: seq<string>) {
    forall j, k :: 0 <= j < k < |list| ==> list[j] != list[k]
  }

  /**
   * Four days later the same list is used and, when it has two entries or more and no
   * repeated entry, another entry is shown.
   */
  lemma {:induction false} GetVerseForDayVaries(lists: VerseLists, d: int)
    requires d >= 1 && |ListFor(lists, VolumeForDay(d))| >= 2
    requires Distinct(ListFor(lists, VolumeForDay(d)))
    ensures ListFor(lists, VolumeForDay(d + 4)) == ListFor(lists, VolumeForDay(d))
    ensures GetVerseForDay(lists, d).Success? && GetVerseForDay(lists, d + 4).Success?
    ensures GetVerseForDay(lists, d + 4).value != GetVerseForDay(lists, d).value
  {
    VolumeCycle(d);
    VerseIndexVariety(d, |ListFor(lists, VolumeForDay(d))|);
  }

  /** The end-to-end example: January 2 picks the Book of Mormon and its first entry. */
  lemma JanuarySecondExample()
    ensures var lists := VerseLists(["Genesis 1:1"], ["1 Nephi 1:1", "1 Nephi 3:7"], ["D&C 1:1"], ["Moses 1:1"]);
      GetVerseForDay(lists, GetDayOfYear(DateTime(Date(2025, 1, 2), 9, 30, 0, 0))) == Success("1 Nephi 1:1")
  {
  }
}
