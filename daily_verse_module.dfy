/**
 * The front-end module: when the next refresh is due, the single pending refresh timer,
 * the state the helper's notifications move it through, and which of its displays it
 * renders. Timers are handles in a map of pending delays; a timer going off is the `Fire`
 * method.
 */
module DailyVerseModule {
  import opened Wrappers
  import opened Calendar

  /** The configured default: refresh every 24 hours. */
  const DefaultUpdateInterval: int := 86400000

  /** Milliseconds from a moment to the next local midnight. */
  function MidnightDelay(now: DateTime): (ms: int)
    requires ValidDateTime(now)
    ensures 0 < ms <= MsPerDay
    ensures TimeValue(now) + ms == TimeValue(StartOfDay(NextDay(now.date)))
  {
    AbsoluteDayOfNextDay(now.date);
    MsPerDay - MsOfDay(now)
  }

  /** The delay scheduleNextUpdate arms: a positive `updateInterval`, otherwise until midnight. */
  function UpdateDelay(updateInterval: Option<int>, now: DateTime): (ms: int)
    requires ValidDateTime(now)
    ensures ms > 0
    ensures updateInterval.Some? && updateInterval.value > 0 ==> ms == updateInterval.value
    ensures !(updateInterval.Some? && updateInterval.value > 0) ==>
      TimeValue(now) + ms == TimeValue(StartOfDay(NextDay(now.date)))
  {
    if updateInterval.Some? && updateInterval.value > 0 then updateInterval.value else MidnightDelay(now)
  }

  /** The largest delay a timer keeps: 2^31 - 1 milliseconds, a little under 25 days. */
  const MaxTimerDelay: int := 2147483647

  /**
   * The delay `setTimeout` really waits in the browser the module runs in: the delay is
   * converted to a 32-bit signed integer (it wraps modulo 2^32), and a negative result
   * becomes 0.
   */
  function TimerDelay(ms: int): (d: int)
    ensures 0 <= d <= MaxTimerDelay
    ensures 0 <= ms <= MaxTimerDelay ==> d == ms
    ensures d == 0 || (ms - d) % 0x1_0000_0000 == 0
  {
    var w := ms % 0x1_0000_0000;
    var signed := if w > MaxTimerDelay then w - 0x1_0000_0000 else w;
    if signed < 0 then 0 else signed
  }

  /**
   * As written, a configured interval of 30 days is armed as one timer, and that timer goes
   * off at once instead: the module asks for a verse and re-arms, over and over.
   */
  lemma ThirtyDayIntervalFiresAtOnce(now: DateTime)
    requires ValidDateTime(now)
    ensures UpdateDelay(Some(30 * MsPerDay), now) == 2592000000
    ensures TimerDelay(UpdateDelay(Some(30 * MsPerDay), now)) == 0
  {
  }

  /** A delay just over 2^32 milliseconds, about 50 days, waits only the 5 seconds past it. */
  lemma WrappedIntervalExample(now: DateTime)
    requires ValidDateTime(now)
    ensures TimerDelay(UpdateDelay(Some(0x1_0000_0000 + 5000), now)) == 5000
  {
  }

  /** The sum of a chain of delays. */
  function Total(delays: seq<int>): int {
    if delays == [] then 0 else delays[0] + Total(delays[1..])
  }

  /**
   * The wait as evidently intended: a long interval armed as a chain of timers, each short
   * enough to be kept, one after the other.
   */
  function TimerChain(ms: int): seq<int>
    requires ms > 0
    decreases ms
  {
    if ms <= MaxTimerDelay then [ms] else [MaxTimerDelay] + TimerChain(ms - MaxTimerDelay)
  }

  /**
   * Every timer of the chain is kept as asked, and together they wait exactly the interval,
   * which is the delay the `pending` map of this model records.
   */
  lemma {:induction false} TimerChainWaitsWholeInterval(ms: int)
    requires ms > 0
    ensures |TimerChain(ms)| >= 1
    ensures forall i :: 0 <= i < |TimerChain(ms)| ==> TimerDelay(TimerChain(ms)[i]) == TimerChain(ms)[i]
    ensures Total(TimerChain(ms)) == ms
    decreases ms
  {
    if ms > MaxTimerDelay {
      TimerChainWaitsWholeInterval(ms - MaxTimerDelay);
      var rest := TimerChain(ms - MaxTimerDelay);
      assert TimerChain(ms) == [MaxTimerDelay] + rest;
      assert ([MaxTimerDelay] + rest)[1..] == rest;
    }
  }

  /** With the shipped default configuration the delay is a fixed day, whatever the time. */
  lemma DefaultConfigurationWaitsOneDay(now: DateTime)
    requires ValidDateTime(now)
    ensures UpdateDelay(Some(DefaultUpdateInterval), now) == MsPerDay
  {
  }

  /** Zero, negative and missing intervals all fall back to midnight. */
  lemma NonPositiveIntervalMeansMidnight(i: int, now: DateTime)
    requires ValidDateTime(now) && i <= 0
    ensures UpdateDelay(Some(i), now) == UpdateDelay(None, now) == MidnightDelay(now)
  {
  }

  /** Noon is half a day from midnight, one minute to midnight is one minute from it. */
  lemma MidnightDelayExamples()
    ensures MidnightDelay(DateTime(Date(2024, 6, 15), 12, 0, 0, 0)) == 43200000
    ensures MidnightDelay(DateTime(Date(2024, 6, 15), 23, 59, 0, 0)) == 60000
  {
  }

  /** The next midnight falls on the right day across year, leap-day and month boundaries. */
  lemma NextMidnightBoundaryExamples()
    ensures NextDay(Date(2024, 12, 31)) == Date(2025, 1, 1)
    ensures NextDay(Date(2024, 2, 28)) == Date(2024, 2, 29)
    ensures NextDay(Date(2023, 2, 28)) == Date(2023, 3, 1)
    ensures NextDay(Date(2024, 1, 31)) == Date(2024, 2, 1)
  {
  }

  /** From 23:00 on any day the next midnight is an hour away. */
  lemma OneHourBeforeMidnight(d: Date)
    requires ValidDateTime(DateTime(d, 23, 0, 0, 0))
    ensures MidnightDelay(DateTime(d, 23, 0, 0, 0)) == 3600000
  {
  }

  /** What getDom shows. */
  datatype Display = Loading | ErrorMessage | ShowVerse(text: string, reference: string) | FallbackLoading

  /** JavaScript truthiness of an optional string. */
  predicate Present(s: Option<string>) {
    s.Some? && s.value != ""
  }

  /** getDom's choice: loading, then error, then the verse when text and reference are both present. */
  function DisplayFor(isLoading: bool, hasError: bool, verseText: Option<string>, verseReference: Option<string>)
    : (d: Display)
    ensures d == Loading <==> isLoading
    ensures d == ErrorMessage <==> !isLoading && hasError
    ensures d.ShowVerse? <==> !isLoading && !hasError && Present(verseText) && Present(verseReference)
    ensures d.ShowVerse? ==> d.text == verseText.value && d.reference == verseReference.value
    ensures d == FallbackLoading <==>
      !isLoading && !hasError && !(Present(verseText) && Present(verseReference))
  {
    if isLoading then Loading
    else if hasError then ErrorMessage
    else if Present(verseText) && Present(verseReference) then ShowVerse(verseText.value, verseReference.value)
    else FallbackLoading
  }

  /** What a notification from the helper carries. */
  datatype Payload = Payload(text: Option<string>, reference: Option<string>, message: Option<string>)

  class DailyVerse {
    const updateInterval: Option<int>
    var verseText: Option<string>
    var verseReference: Option<string>
    var isLoading: bool
    var hasError: bool
    var lastUpdateDate: Option<DateTime>
    /** The handle `setTimeout` last returned; `stop` leaves it in place. */
    var updateTimer: Option<nat>
    /** Timers armed and not yet cleared or gone off, with their delays. */
    var pending: map<nat, int>
    var nextHandle: nat
    /** The socket notifications sent to the helper, in order. */
    var sent: seq<string>
    var domUpdates: nat

    /** At most one timer is pending, and it is the one `updateTimer` names. */
    predicate Valid()
      reads this
    {
      && nextHandle >= 1
      && (forall h :: h in pending ==> updateTimer == Some(h))
      && (updateTimer.Some? ==> 1 <= updateTimer.value < nextHandle)
    }

    constructor(interval: Option<int>)
      ensures Valid()
      ensures updateInterval == interval
      ensures verseText == None && verseReference == None && isLoading && !hasError
      ensures lastUpdateDate == None && updateTimer == None && pending == map[]
      ensures sent == [] && domUpdates == 0
    {
      updateInterval := interval;
      verseText := None;
      verseReference := None;
      isLoading := true;
      hasError := false;
      lastUpdateDate := None;
      updateTimer := None;
      pending := map[];
      nextHandle := 1;
      sent := [];
      domUpdates := 0;
    }

    /** getNextMidnight: move a copy of the moment to the next day, zero its time, subtract. */
    static method GetNextMidnight(now: DateTime) returns (ms: int)
      requires ValidDateTime(now)
      ensures ms == MidnightDelay(now)
    {
      var tomorrow := now;
      tomorrow := tomorrow.(date := NextDay(now.date));
      tomorrow := tomorrow.(hour := 0, minute := 0, second := 0, millisecond := 0);
      ms := TimeValue(tomorrow) - TimeValue(now);
    }

    /** scheduleNextUpdate: clear the current timer, then arm exactly one new one. */
    method ScheduleNextUpdate(now: DateTime)
      requires Valid() && ValidDateTime(now)
      modifies this
      ensures Valid()
      ensures updateTimer == Some(old(nextHandle)) && nextHandle == old(nextHandle) + 1
      ensures pending == map[old(nextHandle) := UpdateDelay(updateInterval, now)]
      ensures verseText == old(verseText) && verseReference == old(verseReference)
      ensures isLoading == old(isLoading) && hasError == old(hasError)
      ensures lastUpdateDate == old(lastUpdateDate) && sent == old(sent) && domUpdates == old(domUpdates)
    {
      ClearUpdateTimer();
      var ms := NextUpdateDelay(updateInterval, now);
      var h := nextHandle;
      nextHandle := nextHandle + 1;
      pending := pending[h := ms];
      assert pending.Keys == {h};
      updateTimer := Some(h);
    }

    /** The delay chosen by scheduleNextUpdate. */
    static method NextUpdateDelay(updateInterval: Option<int>, now: DateTime) returns (ms: int)
      requires ValidDateTime(now)
      ensures ms == UpdateDelay(updateInterval, now)
    {
      if updateInterval.Some? && updateInterval.value > 0 {
        ms := updateInterval.value;
      } else {
        ms := GetNextMidnight(now);
      }
    }

    /** `clearTimeout(this.updateTimer)`: the only pending timer is the one it names. */
    method ClearUpdateTimer()
      requires Valid()
      modifies this
      ensures Valid()
      ensures pending == map[]
      ensures updateTimer == old(updateTimer) && nextHandle == old(nextHandle)
      ensures verseText == old(verseText) && verseReference == old(verseReference)
      ensures isLoading == old(isLoading) && hasError == old(hasError)
      ensures lastUpdateDate == old(lastUpdateDate) && sent == old(sent) && domUpdates == old(domUpdates)
    {
      if updateTimer.Some? {
        pending := pending - {updateTimer.value};
      }
      assert pending.Keys == {};
    }

    /** start: show loading, ask for the verse once, then schedule the refresh. */
    method Start(now: DateTime)
      requires Valid() && ValidDateTime(now)
      modifies this
      ensures Valid()
      ensures isLoading && !hasError && sent == old(sent) + ["GET_VERSE"]
      ensures updateTimer == Some(old(nextHandle)) && pending == map[old(nextHandle) := UpdateDelay(updateInterval, now)]
      ensures verseText == old(verseText) && verseReference == old(verseReference)
      ensures lastUpdateDate == old(lastUpdateDate) && domUpdates == old(domUpdates)
    {
      isLoading := true;
      hasError := false;
      sent := sent + ["GET_VERSE"];
      ScheduleNextUpdate(now);
    }

    /**
     * A timer going off at `now`. A timer that was cleared never goes off, so a handle that
     * is not pending changes nothing; the pending one asks for the verse and re-arms.
     */
    method Fire(h: nat, now: DateTime)
      requires Valid() && ValidDateTime(now)
      modifies this
      ensures Valid()
      ensures h !in old(pending) ==>
        pending == old(pending) && sent == old(sent) && updateTimer == old(updateTimer)
        && nextHandle == old(nextHandle)
      ensures h in old(pending) ==>
        && sent == old(sent) + ["GET_VERSE"]
        && updateTimer == Some(old(nextHandle))
        && pending == map[old(nextHandle) := UpdateDelay(updateInterval, now)]
      ensures verseText == old(verseText) && verseReference == old(verseReference)
      ensures isLoading == old(isLoading) && hasError == old(hasError)
      ensures lastUpdateDate == old(lastUpdateDate) && domUpdates == old(domUpdates)
    {
      if h in pending {
        pending := pending - {h};
        sent := sent + ["GET_VERSE"];
        ScheduleNextUpdate(now);
      }
    }

    /** stop: clear the pending timer, if any; `updateTimer` keeps the old handle. */
    method Stop()
      requires Valid()
      modifies this
      ensures Valid()
      ensures pending == map[]
      ensures updateTimer == old(updateTimer) && nextHandle == old(nextHandle)
      ensures verseText == old(verseText) && verseReference == old(verseReference)
      ensures isLoading == old(isLoading) && hasError == old(hasError)
      ensures lastUpdateDate == old(lastUpdateDate) && sent == old(sent) && domUpdates == old(domUpdates)
    {
      ClearUpdateTimer();
    }

    /** isNewDay: nothing loaded yet, or the calendar day has changed since the last result. */
    function IsNewDay(now: DateTime): (r: bool)
      reads this
      ensures r <==> lastUpdateDate.None? || now.date != lastUpdateDate.value.date
    {
      if lastUpdateDate.None? then true
      else !SameCalendarDay(now, lastUpdateDate.value)
    }

    /**
     * socketNotificationReceived: a result replaces the verse and stamps the day; an error
     * only flips the flags and keeps the verse shown before; anything else is ignored.
     */
    method SocketNotificationReceived(notification: string, payload: Payload, now: DateTime)
      requires Valid()
      modifies this
      ensures Valid()
      ensures notification == "VERSE_RESULT" ==>
        && verseText == payload.text && verseReference == payload.reference
        && !isLoading && !hasError && lastUpdateDate == Some(now) && domUpdates == old(domUpdates) + 1
      ensures notification == "VERSE_ERROR" ==>
        && verseText == old(verseText) && verseReference == old(verseReference)
        && !isLoading && hasError && lastUpdateDate == old(lastUpdateDate) && domUpdates == old(domUpdates) + 1
      ensures notification != "VERSE_RESULT" && notification != "VERSE_ERROR" ==>
        && verseText == old(verseText) && verseReference == old(verseReference)
        && isLoading == old(isLoading) && hasError == old(hasError)
        && lastUpdateDate == old(lastUpdateDate) && domUpdates == old(domUpdates)
      ensures pending == old(pending) && updateTimer == old(updateTimer) && nextHandle == old(nextHandle)
      ensures sent == old(sent)
    {
      if notification == "VERSE_RESULT" {
        verseText := payload.text;
        verseReference := payload.reference;
        isLoading := false;
        hasError := false;
        lastUpdateDate := Some(now);
        domUpdates := domUpdates + 1;
      } else if notification == "VERSE_ERROR" {
        isLoading := false;
        hasError := true;
        domUpdates := domUpdates + 1;
      }
    }

    /** getDom's choice for the current state. */
    function Dom(): (d: Display)
      reads this
      ensures d == DisplayFor(isLoading, hasError, verseText, verseReference)
    {
      DisplayFor(isLoading, hasError, verseText, verseReference)
    }
  }

  /** After a result with text and reference the verse is shown and the day is not new. */
  method ResultThenRender(m: DailyVerse, text: string, reference: string, now: DateTime)
    returns (d: Display, newDay: bool)
    requires m.Valid() && text != "" && reference != ""
    modifies m
    ensures d == ShowVerse(text, reference) && !newDay
  {
    m.SocketNotificationReceived("VERSE_RESULT", Payload(Some(text), Some(reference), None), now);
    d := m.Dom();
    newDay := m.IsNewDay(now);
  }

  /** An error after a result shows the error, and a later result brings the verse back. */
  method ErrorKeepsVerse(m: DailyVerse, text: string, reference: string, now: DateTime)
    returns (afterError: Display, afterRetry: Display)
    requires m.Valid() && text != "" && reference != ""
    modifies m
    ensures afterError == ErrorMessage && afterRetry == ShowVerse(text, reference)
    ensures m.verseText == Some(text) && m.verseReference == Some(reference)
  {
    m.SocketNotificationReceived("VERSE_RESULT", Payload(Some(text), Some(reference), None), now);
    m.SocketNotificationReceived("VERSE_ERROR", Payload(None, None, Some("Request timeout")), now);
    afterError := m.Dom();
    assert m.verseText == Some(text);
    m.SocketNotificationReceived("VERSE_RESULT", Payload(Some(text), Some(reference), None), now);
    afterRetry := m.Dom();
  }

  /** Starting, a timer going off and stopping: one GET_VERSE each time, and nothing left pending. */
  method StartFireStop(interval: Option<int>, now: DateTime, later: DateTime) returns (m: DailyVerse)
    requires ValidDateTime(now) && ValidDateTime(later)
    ensures m.sent == ["GET_VERSE", "GET_VERSE"] && m.pending == map[]
  {
    m := StartThenFire(interval, now, later);
    StopThenFire(m, later);
  }

  /** Start asks once; its timer going off asks again; the same handle going off again does nothing. */
  method StartThenFire(interval: Option<int>, now: DateTime, later: DateTime) returns (m: DailyVerse)
    requires ValidDateTime(now) && ValidDateTime(later)
    ensures fresh(m) && m.Valid() && m.sent == ["GET_VERSE", "GET_VERSE"]
  {
    m := new DailyVerse(interval);
    m.Start(now);
    var first := m.updateTimer.value;
    m.Fire(first, later);
    assert m.sent == ["GET_VERSE", "GET_VERSE"] && first !in m.pending;
    m.Fire(first, later);
  }

  /** After stop no timer is pending, so the last handle going off sends nothing. */
  method StopThenFire(m: DailyVerse, later: DateTime)
    requires m.Valid() && ValidDateTime(later)
    modifies m
    ensures m.pending == map[] && m.sent == old(m.sent)
  {
    m.Stop();
    if m.updateTimer.Some? {
      m.Fire(m.updateTimer.value, later);
    }
  }
}
