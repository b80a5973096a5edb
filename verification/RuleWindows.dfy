/** Recurring windows, from `src/lib/rule-windows.ts`. */
module RuleWindows {
  // One window as a predicate on a weekday and a minute, as bands of a day and as spans of the week; and what a
  // group's internet is doing.
  import opened Wrappers
  import opened Sorting
  import opened Clock

  const WEEK_MINUTES := 7 * 1440

  datatype Window = Window(name: string, days: seq<int>, start: string, end: string, always: bool)

  /** A window from `start` to `end` minutes on `days`, across midnight when it ends before it starts. */
  predicate Occurs(days: seq<int>, start: int, end: int, weekday: int, minutes: int) {
    if start == end then false
    else if start < end then weekday in days && start <= minutes < end
    else if weekday in days && minutes >= start then true
    else (weekday + 6) % 7 in days && minutes < end
  }

  /** `isWindowActive`, at a weekday and a minute of the day. */
  predicate ActiveAt(w: Window, weekday: int, minutes: int) {
    if w.always then true
    else
      var start := MinutesFromHhmm(w.start);
      var end := MinutesFromHhmm(w.end);
      if start.None? || end.None? then false else Occurs(w.days, start.value, end.value, weekday, minutes)
  }

  predicate IsWindowActive(zone: Zone, w: Window, now: int) {
    ActiveAt(w, LocalWeekday(zone, now), LocalMinutes(zone, now))
  }

  /** When the occurrence active at `now` ends, or nothing when it is not active or never ends. */
  function WindowEndsAt(zone: Zone, w: Window, now: int): Option<int> {
    if w.always || !IsWindowActive(zone, w, now) then None
    else NextClock(zone, BedtimeEndDays(w.days, w.start, w.end), w.end, now)
  }

  // When a window ends.

  predicate ValidTime(hhmm: string) {
    MinutesFromHhmm(hhmm).Some? && MinutesFromHhmm(hhmm).value < DAY_MINUTES
  }

  predicate Valid(w: Window) {
    w.always || (ValidTime(w.start) && ValidTime(w.end) && ValidDays(w.days))
  }

  lemma NextDaysValid(days: seq<int>)
    ensures ValidDays(NextDays(days))
  {
    forall k | 0 <= k < |NextDays(days)| ensures 0 <= NextDays(days)[k] < 7 {
      assert NextDays(days)[k] in NextDays(days);
    }
  }

  lemma InNextDays(days: seq<int>, d: int)
    requires d in days
    ensures (d + 1) % 7 in NextDays(days)
  {
  }

  /** The day the occurrence active on `day` at `minutes` ends. */
  function EndDay(days: seq<int>, start: int, end: int, day: int, minutes: int): int {
    if start >= end && Weekday(day) in days && minutes >= start then day + 1 else day
  }

  /** Day and minute `(d, m)` come before `(e, n)`. */
  predicate Before(d: int, m: int, e: int, n: int) {
    d < e || (d == e && m < n)
  }

  /** The occurrence runs without a break up to its end, which falls on one of the end days. */
  lemma RunsToEnd(days: seq<int>, start: int, end: int, day: int, minutes: int)
    requires 0 <= start < DAY_MINUTES && 0 <= end < DAY_MINUTES && 0 <= minutes < DAY_MINUTES && Occurs(days, start, end, Weekday(day), minutes)
    ensures
      var last := EndDay(days, start, end, day, minutes);
      && Before(day, minutes, last, end)
      && Weekday(last) in EndDays(days, start, end)
      && !Occurs(days, start, end, Weekday(last), end)
      && forall d, m :: 0 <= m < DAY_MINUTES && !Before(d, m, day, minutes) && Before(d, m, last, end) ==> Occurs(days, start, end, Weekday(d), m)
  {
    var last := EndDay(days, start, end, day, minutes);
    EndOnEndDay(days, start, end, day, minutes);
    forall d, m | 0 <= m < DAY_MINUTES && !Before(d, m, day, minutes) && Before(d, m, last, end) ensures Occurs(days, start, end, Weekday(d), m) {
      if last > day { WeekdayNext(day); }
    }
  }

  lemma WeekdayNext(d: int)
    ensures Weekday(d + 1) == (Weekday(d) + 1) % 7 && (Weekday(d + 1) + 6) % 7 == Weekday(d)
  {
  }

  lemma EndOnEndDay(days: seq<int>, start: int, end: int, day: int, minutes: int)
    requires 0 <= start < DAY_MINUTES && 0 <= end < DAY_MINUTES && 0 <= minutes < DAY_MINUTES && Occurs(days, start, end, Weekday(day), minutes)
    ensures
      var last := EndDay(days, start, end, day, minutes);
      && Before(day, minutes, last, end)
      && Weekday(last) in EndDays(days, start, end)
      && !Occurs(days, start, end, Weekday(last), end)
  {
    if start >= end {
      if EndDay(days, start, end, day, minutes) > day {
        WeekdayNext(day);
        InNextDays(days, Weekday(day));
      } else {
        WeekdayNext(day - 1);
        InNextDays(days, Weekday(day - 1));
      }
    }
  }

  /** Between now and the end no other day reaches the end time. */
  lemma NoEarlierEnd(days: seq<int>, start: int, end: int, day: int, minutes: int, d: int)
    requires 0 <= start < DAY_MINUTES && 0 <= end < DAY_MINUTES && 0 <= minutes < DAY_MINUTES && Occurs(days, start, end, Weekday(day), minutes)
    ensures !(Before(day, minutes, d, end) && Before(d, end, EndDay(days, start, end, day, minutes), end))
  {
  }

  lemma BeforeInstants(zone: Zone, o: int, t: int, u: int)
    requires Fixed(zone, o)
    ensures Before(LocalDay(zone, t), LocalMinutes(zone, t), LocalDay(zone, u), LocalMinutes(zone, u)) ==> t < u
    ensures t <= u ==> !Before(LocalDay(zone, u), LocalMinutes(zone, u), LocalDay(zone, t), LocalMinutes(zone, t))
    ensures t < u && u % MINUTE == 0 ==> Before(LocalDay(zone, t), LocalMinutes(zone, t), LocalDay(zone, u), LocalMinutes(zone, u))
  {
    Located(zone, o, t);
    Located(zone, o, u);
    if t <= u { DaysAscend(zone, o, t, u); } else { DaysAscend(zone, o, u, t); }
  }

  lemma EndIsMark(zone: Zone, o: int, days: seq<int>, start: int, end: int, now: int, e: int)
    requires Fixed(zone, o) && 0 <= start < DAY_MINUTES && 0 <= end < DAY_MINUTES
    requires Occurs(days, start, end, LocalWeekday(zone, now), LocalMinutes(zone, now))
    requires e == At(o, EndDay(days, start, end, LocalDay(zone, now), LocalMinutes(zone, now)), end)
    ensures IsNextMark(zone, e, EndDays(days, start, end), end, now)
  {
    var day, minutes := LocalDay(zone, now), LocalMinutes(zone, now);
    RunsToEnd(days, start, end, day, minutes);
    AtReads(zone, o, EndDay(days, start, end, day, minutes), end);
    BeforeInstants(zone, o, now, e);
    forall y | now < y < e ensures !Marks(zone, y, EndDays(days, start, end), end) {
      BeforeInstants(zone, o, now, y);
      BeforeInstants(zone, o, y, e);
      NoEarlierEnd(days, start, end, day, minutes, LocalDay(zone, y));
    }
  }

  /** With a fixed offset a window ends at the first instant it is not active: it is active from now until
      then and not active then. */
  lemma EndIsFirstInactive(zone: Zone, o: int, w: Window, now: int)
    requires Fixed(zone, o) && Valid(w) && !w.always && IsWindowActive(zone, w, now)
    ensures
      var e := WindowEndsAt(zone, w, now);
      && e.Some? && e.value > now && !IsWindowActive(zone, w, e.value)
      && forall t :: now <= t < e.value ==> IsWindowActive(zone, w, t)
  {
    var start, end := MinutesFromHhmm(w.start).value, MinutesFromHhmm(w.end).value;
    var e := At(o, EndDay(w.days, start, end, LocalDay(zone, now), LocalMinutes(zone, now)), end);
    EndIsMark(zone, o, w.days, start, end, now, e);
    NextDaysValid(w.days);
    NextClockIsLeast(zone, o, BedtimeEndDays(w.days, w.start, w.end), w.end, now);
    OneNextMark(zone, EndDays(w.days, start, end), end, now, e, WindowEndsAt(zone, w, now).value);
    ActiveUpTo(zone, o, w.days, start, end, now, e);
  }

  lemma ActiveUpTo(zone: Zone, o: int, days: seq<int>, start: int, end: int, now: int, e: int)
    requires Fixed(zone, o) && 0 <= start < DAY_MINUTES && 0 <= end < DAY_MINUTES
    requires Occurs(days, start, end, LocalWeekday(zone, now), LocalMinutes(zone, now))
    requires e == At(o, EndDay(days, start, end, LocalDay(zone, now), LocalMinutes(zone, now)), end)
    ensures !Occurs(days, start, end, LocalWeekday(zone, e), LocalMinutes(zone, e))
    ensures forall t :: now <= t < e ==> Occurs(days, start, end, LocalWeekday(zone, t), LocalMinutes(zone, t))
  {
    RunsToEnd(days, start, end, LocalDay(zone, now), LocalMinutes(zone, now));
    AtReads(zone, o, EndDay(days, start, end, LocalDay(zone, now), LocalMinutes(zone, now)), end);
    forall t | now <= t < e ensures Occurs(days, start, end, LocalWeekday(zone, t), LocalMinutes(zone, t)) {
      BeforeInstants(zone, o, now, t);
      BeforeInstants(zone, o, t, e);
    }
  }

  lemma OneNextMark(zone: Zone, days: seq<int>, minutes: int, now: int, x: int, y: int)
    requires IsNextMark(zone, x, days, minutes, now) && IsNextMark(zone, y, days, minutes, now)
    ensures x == y
  {
  }

  // One window three ways.

  datatype Band = Band(from: int, to: int, carried: bool)

  /** `windowDayBands`: a minute of the day is in a band exactly when the window is active then, and a
      carried band is the tail of the occurrence that started the day before. */
  method WindowDayBands(w: Window, weekday: int) returns (bands: seq<Band>)
    ensures forall m :: 0 <= m < DAY_MINUTES ==> (InBands(bands, m) <==> ActiveAt(w, weekday, m))
    ensures |bands| <= 2 && forall k :: 0 <= k < |bands| ==> bands[k].carried ==> k == 0 && bands[k].from == 0 && (weekday + 6) % 7 in w.days
    ensures forall k :: 0 <= k < |bands| ==> !bands[k].carried ==> k == |bands| - 1 && (w.always || weekday in w.days)
  {
    if w.always {
      bands := [Band(0, DAY_MINUTES, false)];
      assert forall m :: InBand(bands[0], m) ==> InBands(bands, m);
      return;
    }
    var start := MinutesFromHhmm(w.start);
    var end := MinutesFromHhmm(w.end);
    if start.None? || end.None? || start.value == end.value { return []; }
    bands := [];
    if start.value > end.value && (weekday + 6) % 7 in w.days { bands := bands + [Band(0, end.value, true)]; }
    ghost var tail := bands;
    if weekday in w.days {
      bands := bands + [Band(start.value, if start.value < end.value then end.value else DAY_MINUTES, false)];
    }
    forall m | 0 <= m < DAY_MINUTES ensures InBands(bands, m) <==> ActiveAt(w, weekday, m) {
      if tail != [] { BandsSnoc([], tail[0], m); }
      assert InBands(bands, m) <==> InBands(tail, m) || (weekday in w.days && InBand(bands[|bands| - 1], m)) by {
        if weekday in w.days { BandsSnoc(tail, bands[|bands| - 1], m); }
      }
    }
  }

  predicate InBand(b: Band, m: int) {
    b.from <= m < b.to
  }

  predicate InBands(bands: seq<Band>, m: int) {
    exists k :: 0 <= k < |bands| && InBand(bands[k], m)
  }

  lemma BandsSnoc(bands: seq<Band>, b: Band, m: int)
    ensures InBands(bands + [b], m) <==> InBands(bands, m) || InBand(b, m)
  {
    var all := bands + [b];
    if InBands(bands, m) {
      var k :| 0 <= k < |bands| && InBand(bands[k], m);
      assert InBand(all[k], m);
    }
    if InBand(b, m) { assert InBand(all[|bands|], m); }
  }

  /** From `from` up to `to`, in minutes of the week. */
  datatype Span = Span(from: int, to: int)

  predicate InSpan(x: Span, t: int) {
    x.from <= t < x.to
  }

  ghost predicate InSpans(spans: seq<Span>, t: int) {
    exists k :: 0 <= k < |spans| && InSpan(spans[k], t)
  }

  ghost predicate InWeek(spans: seq<Span>) {
    forall k :: 0 <= k < |spans| ==> 0 <= spans[k].from < spans[k].to <= WEEK_MINUTES
  }

  /** Whether the occurrence that starts on `day` covers minute `t` of the week, wrapped at its end. */
  predicate Covers(day: int, start: int, length: int, t: int) {
    var from := day * DAY_MINUTES + start;
    from <= t < from + length || from <= t + WEEK_MINUTES < from + length
  }

  function LengthOf(start: int, end: int): int {
    if start < end then end - start else DAY_MINUTES - start + end
  }

  lemma SpansAppend(spans: seq<Span>, more: seq<Span>, t: int)
    ensures InSpans(spans + more, t) <==> InSpans(spans, t) || InSpans(more, t)
  {
    var all := spans + more;
    if InSpans(spans, t) {
      var k :| 0 <= k < |spans| && InSpan(spans[k], t);
      assert InSpan(all[k], t);
    }
    if InSpans(more, t) {
      var k :| 0 <= k < |more| && InSpan(more[k], t);
      assert InSpan(all[|spans| + k], t);
    }
  }

  /** `weekSpans`: a minute of the week is in a span exactly when the window is active then. */
  method WeekSpans(w: Window) returns (spans: seq<Span>)
    ensures Valid(w) ==> InWeek(spans)
    ensures Valid(w) ==> forall t :: 0 <= t < WEEK_MINUTES ==> (InSpans(spans, t) <==> ActiveAt(w, t / DAY_MINUTES, t % DAY_MINUTES))
  {
    if w.always {
      spans := [Span(0, WEEK_MINUTES)];
      assert forall t :: InSpan(spans[0], t) ==> InSpans(spans, t);
      return;
    }
    var start := MinutesFromHhmm(w.start);
    var end := MinutesFromHhmm(w.end);
    if start.None? || end.None? || start.value == end.value { return []; }
    spans := DaySpans(w.days, start.value, LengthOf(start.value, end.value));
    if Valid(w) {
      forall t | 0 <= t < WEEK_MINUTES ensures InSpans(spans, t) <==> ActiveAt(w, t / DAY_MINUTES, t % DAY_MINUTES) {
        CoversIsOccurs(w.days, start.value, end.value, t);
      }
    }
  }

  /** The spans of the occurrences that start on `days`, each day once. */
  method DaySpans(days: seq<int>, start: int, length: int) returns (spans: seq<Span>)
    ensures ValidDays(days) && 0 <= start < DAY_MINUTES && 0 < length < DAY_MINUTES ==>
              InWeek(spans) && forall t :: 0 <= t < WEEK_MINUTES ==> (InSpans(spans, t) <==> AnyCovers(days, start, length, t))
  {
    spans := [];
    for k := 0 to |days|
      invariant ValidDays(days) && 0 <= start < DAY_MINUTES && 0 < length < DAY_MINUTES ==>
                  InWeek(spans) && forall t :: 0 <= t < WEEK_MINUTES ==> (InSpans(spans, t) <==> AnyCovers(days[..k], start, length, t))
    {
      if days[k] !in days[..k] {
        var from := days[k] * DAY_MINUTES + start;
        var to := from + length;
        var more := if to <= WEEK_MINUTES then [Span(from, to)] else [Span(from, WEEK_MINUTES), Span(0, to - WEEK_MINUTES)];
        forall t ensures InSpans(spans + more, t) <==> InSpans(spans, t) || InSpans(more, t) { SpansAppend(spans, more, t); }
        if ValidDays(days) && 0 <= start < DAY_MINUTES && 0 < length < DAY_MINUTES {
          forall t | 0 <= t < WEEK_MINUTES ensures InSpans(more, t) <==> Covers(days[k], start, length, t) {
            assert InSpans(more, t) <==> InSpan(more[0], t) || (|more| > 1 && InSpan(more[1], t));
          }
        }
        spans := spans + more;
      }
      forall t ensures AnyCovers(days[..k + 1], start, length, t) <==> AnyCovers(days[..k], start, length, t) || Covers(days[k], start, length, t) {
        AnyCoversSnoc(days, k, start, length, t);
      }
    }
    assert days[..|days|] == days;
  }

  ghost predicate AnyCovers(days: seq<int>, start: int, length: int, t: int) {
    exists d :: d in days && Covers(d, start, length, t)
  }

  lemma AnyCoversSnoc(days: seq<int>, k: nat, start: int, length: int, t: int)
    requires k < |days|
    ensures AnyCovers(days[..k + 1], start, length, t) <==> AnyCovers(days[..k], start, length, t) || Covers(days[k], start, length, t)
    ensures days[k] in days[..k] && Covers(days[k], start, length, t) ==> AnyCovers(days[..k], start, length, t)
  {
    assert days[..k + 1] == days[..k] + [days[k]];
    assert days[k] in days[..k + 1];
  }

  lemma CoversIsOccurs(days: seq<int>, start: int, end: int, t: int)
    requires 0 <= start < DAY_MINUTES && 0 <= end < DAY_MINUTES && start != end && ValidDays(days) && 0 <= t < WEEK_MINUTES
    ensures AnyCovers(days, start, LengthOf(start, end), t) <==> Occurs(days, start, end, t / DAY_MINUTES, t % DAY_MINUTES)
  {
    var length := LengthOf(start, end);
    var day, minute := t / DAY_MINUTES, t % DAY_MINUTES;
    var eve := (day + 6) % 7;
    assert 0 <= day < 7 && t == day * DAY_MINUTES + minute;
    forall d | 0 <= d < 7 ensures Covers(d, start, length, t) <==>
        (d == day && minute >= start && (start < end ==> minute < end)) || (start > end && d == eve && minute < end) {
      CoversDay(d, day, start, end, minute);
    }
  }

  lemma CoversDay(d: int, day: int, start: int, end: int, minute: int)
    requires 0 <= d < 7 && 0 <= day < 7 && 0 <= start < DAY_MINUTES && 0 <= end < DAY_MINUTES && start != end && 0 <= minute < DAY_MINUTES
    ensures Covers(d, start, LengthOf(start, end), day * DAY_MINUTES + minute) <==>
              (d == day && minute >= start && (start < end ==> minute < end)) || (start > end && d == (day + 6) % 7 && minute < end)
  {
    if d < day - 1 { assert d * DAY_MINUTES <= (day - 2) * DAY_MINUTES; }
    if d > day { assert d * DAY_MINUTES >= (day + 1) * DAY_MINUTES; }
  }

  /** Two nonempty lists of spans touch exactly when they share a minute. */
  predicate Touch(x: seq<Span>, y: seq<Span>) {
    exists i, j :: 0 <= i < |x| && 0 <= j < |y| && Meet(x[i], y[j])
  }

  predicate Meet(x: Span, y: Span) {
    x.from < y.to && y.from < x.to
  }

  ghost predicate Share(v: Window, w: Window) {
    exists t :: 0 <= t < WEEK_MINUTES && ActiveAt(v, t / DAY_MINUTES, t % DAY_MINUTES) && ActiveAt(w, t / DAY_MINUTES, t % DAY_MINUTES)
  }

  lemma TouchIsShare(x: seq<Span>, y: seq<Span>)
    requires InWeek(x) && InWeek(y)
    ensures Touch(x, y) <==> exists t :: 0 <= t < WEEK_MINUTES && InSpans(x, t) && InSpans(y, t)
  {
    if Touch(x, y) {
      var i, j :| 0 <= i < |x| && 0 <= j < |y| && Meet(x[i], y[j]);
      var t := if x[i].from > y[j].from then x[i].from else y[j].from;
      assert InSpan(x[i], t) && InSpan(y[j], t);
      assert 0 <= t < WEEK_MINUTES && InSpans(x, t) && InSpans(y, t);
    }
    if t :| 0 <= t < WEEK_MINUTES && InSpans(x, t) && InSpans(y, t) {
      var i :| 0 <= i < |x| && InSpan(x[i], t);
      var j :| 0 <= j < |y| && InSpan(y[j], t);
      assert Meet(x[i], y[j]);
    }
  }

  ghost predicate SpansOf(spans: seq<Span>, w: Window) {
    InWeek(spans) && forall t :: 0 <= t < WEEK_MINUTES ==> (InSpans(spans, t) <==> ActiveAt(w, t / DAY_MINUTES, t % DAY_MINUTES))
  }

  lemma TouchIsOverlap(x: seq<Span>, v: Window, y: seq<Span>, w: Window)
    requires SpansOf(x, v) && SpansOf(y, w)
    ensures Touch(x, y) <==> Share(v, w)
  {
    TouchIsShare(x, y);
  }

  /** `windowOverlaps`: a pair is listed exactly when some minute of some weekday has both windows active. */
  method WindowOverlaps(windows: seq<Window>) returns (pairs: seq<(nat, nat)>)
    ensures (forall k :: 0 <= k < |windows| ==> Valid(windows[k])) ==>
              forall a: nat, b: nat :: (a, b) in pairs <==> a < b < |windows| && Share(windows[a], windows[b])
    ensures forall i, j :: 0 <= i < j < |pairs| ==> pairs[i].0 < pairs[j].0 || (pairs[i].0 == pairs[j].0 && pairs[i].1 < pairs[j].1)
  {
    ghost var valid := forall k :: 0 <= k < |windows| ==> Valid(windows[k]);
    var spans: seq<seq<Span>> := [];
    for k := 0 to |windows|
      invariant |spans| == k
      invariant valid ==> forall j :: 0 <= j < k ==> SpansOf(spans[j], windows[j])
    {
      var mine := WeekSpans(windows[k]);
      spans := spans + [mine];
    }
    pairs := [];
    for a := 0 to |windows|
      invariant forall p :: p in pairs <==> p.0 < a && p.0 < p.1 < |windows| && Touch(spans[p.0], spans[p.1])
      invariant forall i, j :: 0 <= i < j < |pairs| ==> pairs[i].0 < pairs[j].0 || (pairs[i].0 == pairs[j].0 && pairs[i].1 < pairs[j].1)
    {
      for b := a + 1 to |windows|
        invariant forall p :: p in pairs <==> p.0 < p.1 < |windows| && Touch(spans[p.0], spans[p.1]) && (p.0 < a || (p.0 == a && p.1 < b))
        invariant forall i, j :: 0 <= i < j < |pairs| ==> pairs[i].0 < pairs[j].0 || (pairs[i].0 == pairs[j].0 && pairs[i].1 < pairs[j].1)
      {
        if Touch(spans[a], spans[b]) {
          assert forall i :: 0 <= i < |pairs| ==> pairs[i] in pairs;
          pairs := pairs + [(a, b)];
        }
      }
    }
    if valid {
      forall a: nat, b: nat | a < b < |windows| ensures Touch(spans[a], spans[b]) <==> Share(windows[a], windows[b]) {
        TouchIsOverlap(spans[a], windows[a], spans[b], windows[b]);
      }
    }
  }

  // What a group's internet is doing.

  /** `Number.MAX_SAFE_INTEGER`, which no date reaches. */
  const NEVER := 9_007_199_254_740_991

  datatype Lift = Lift(active: bool, until: Option<int>)

  datatype InternetState =
    | Paused(until: Option<int>)
    | Blocked(window: string, until: Option<int>)
    | Allowed(lifted: Option<string>, until: Option<int>)
    | Online
    | NoRule

  datatype ActiveWindow = ActiveWindow(window: Window, end: Option<int>)

  predicate IsActiveUntil(lift: Lift, now: int) {
    lift.active && (lift.until.None? || now < lift.until.value)
  }

  function Lasts(end: Option<int>): int {
    if end.Some? then end.value else NEVER
  }

  /** The windows active at `now`, each with when it ends. */
  function ActiveWindows(zone: Zone, windows: seq<Window>, now: int): seq<Keyed<ActiveWindow>> {
    if windows == [] then []
    else
      var rest := ActiveWindows(zone, windows[1..], now);
      var end := WindowEndsAt(zone, windows[0], now);
      if IsWindowActive(zone, windows[0], now) then [Keyed(Lasts(end), ActiveWindow(windows[0], end))] + rest else rest
  }

  /** The active window that lasts longest, or nothing when none is active. */
  function Longest(zone: Zone, windows: seq<Window>, now: int): Option<ActiveWindow> {
    var active := Sort(ActiveWindows(zone, windows, now));
    if active == [] then None else Some(active[0].item)
  }

  /** `internetState`, without the actors and the next start it names. */
  function StateOf(zone: Zone, suspension: Lift, allowance: Lift, windows: seq<Window>, now: int): InternetState {
    if IsActiveUntil(suspension, now) then Paused(suspension.until)
    else
      var longest := Longest(zone, windows, now);
      if IsActiveUntil(allowance, now) then Allowed(if longest.Some? then Some(longest.value.window.name) else None, allowance.until)
      else if longest.Some? then Blocked(longest.value.window.name, longest.value.end)
      else if windows == [] then NoRule
      else Online
  }

  lemma {:induction false} ActiveWindowsAre(zone: Zone, windows: seq<Window>, now: int)
    ensures forall a :: a in ActiveWindows(zone, windows, now) <==>
              a.item.window in windows && IsWindowActive(zone, a.item.window, now)
              && a.item.end == WindowEndsAt(zone, a.item.window, now) && a.key == Lasts(a.item.end)
  {
    if windows != [] {
      ActiveWindowsAre(zone, windows[1..], now);
      assert windows == [windows[0]] + windows[1..];
    }
  }

  /** The longest active window is one of the active ones, and none outlasts it. */
  lemma LongestIs(zone: Zone, windows: seq<Window>, now: int)
    ensures
      match Longest(zone, windows, now)
      case None => forall w :: w in windows ==> !IsWindowActive(zone, w, now)
      case Some(a) =>
        && a.window in windows && IsWindowActive(zone, a.window, now) && a.end == WindowEndsAt(zone, a.window, now)
        && forall w :: w in windows && IsWindowActive(zone, w, now) ==> Lasts(WindowEndsAt(zone, w, now)) <= Lasts(a.end)
  {
    var active := ActiveWindows(zone, windows, now);
    ActiveWindowsAre(zone, windows, now);
    SortOrders(active);
    if Sort(active) != [] { assert Sort(active)[0] in Sort(active); }
    forall w | w in windows && IsWindowActive(zone, w, now)
      ensures Sort(active) != [] && Lasts(WindowEndsAt(zone, w, now)) <= Sort(active)[0].key
    {
      var end := WindowEndsAt(zone, w, now);
      assert Keyed(Lasts(end), ActiveWindow(w, end)) in Sort(active);
    }
  }

  /** Now is before the end, when there is one. */
  predicate Running(active: bool, until: Option<int>, now: int) {
    active && (until == None || (until.Some? && until.value > now))
  }

  /** One of the windows active now that last longest: it has no end, or no other's is later. */
  ghost predicate LastsLongest(zone: Zone, windows: seq<Window>, now: int, w: Window) {
    w in windows && IsWindowActive(zone, w, now) && forall v :: v in windows && IsWindowActive(zone, v, now) ==> EndsNoLater(WindowEndsAt(zone, v, now), WindowEndsAt(zone, w, now))
  }

  /** `a` is an end at most as late as `b`, never being the latest; a date is no later than JavaScript has them. */
  predicate EndsNoLater(a: Option<int>, b: Option<int>) {
    b.None? || b.value > MAX_DATE || (a.Some? && (a.value > MAX_DATE || a.value <= b.value))
  }

  /** The last instant a JavaScript date can be. */
  const MAX_DATE := 8_640_000_000_000_000

  lemma LastingIsLater(a: Option<int>, b: Option<int>)
    requires Lasts(a) <= Lasts(b)
    ensures EndsNoLater(a, b)
  {
  }

  /** What a group's internet is doing: blocked by hand while that runs; else allowed while that does, over the
      window that lasts longest if one is active; else blocked by that window until it ends; else with no window
      at all limited by no rule, and online. */
  lemma StateSays(zone: Zone, suspension: Lift, allowance: Lift, windows: seq<Window>, now: int)
    ensures
      var state := StateOf(zone, suspension, allowance, windows, now);
      var active := exists w :: w in windows && IsWindowActive(zone, w, now);
      if Running(suspension.active, suspension.until, now) then state == Paused(suspension.until)
      else if Running(allowance.active, allowance.until, now) then
        if active then exists w :: LastsLongest(zone, windows, now, w) && state == Allowed(Some(w.name), allowance.until)
        else state == Allowed(None, allowance.until)
      else if active then exists w :: LastsLongest(zone, windows, now, w) && state == Blocked(w.name, WindowEndsAt(zone, w, now))
      else state == if windows == [] then NoRule else Online
  {
    LongestIs(zone, windows, now);
    var longest := Longest(zone, windows, now);
    if longest.Some? {
      var w := longest.value.window;
      forall v | v in windows && IsWindowActive(zone, v, now) ensures EndsNoLater(WindowEndsAt(zone, v, now), WindowEndsAt(zone, w, now)) {
        LastingIsLater(WindowEndsAt(zone, v, now), WindowEndsAt(zone, w, now));
      }
      assert LastsLongest(zone, windows, now, w);
    }
  }

  /** A window that is not active, or never ends, has no end. */
  lemma EndsOnlyWhileActive(zone: Zone, w: Window, now: int)
    ensures WindowEndsAt(zone, w, now).Some? ==> !w.always && IsWindowActive(zone, w, now)
  {
  }

  // Where the offset does change.

  /** A zone that springs forward an hour at two in the morning of a Sunday. */
  const JUMP := 3 * DAY + 120 * MINUTE

  function Springing(): Zone {
    Zone(0, [Change(JUMP, 60)])
  }

  lemma SpringingOffset(i: int)
    ensures Offset(Springing(), i) == if i < JUMP then 0 else 60
  {
    var zone := Springing();
    assert zone.changes[..0] == [];
  }

  /** With a fixed offset a window ends at its first inactive instant; where the clocks skip its end time it
      does not: a Sunday window from 01:00 to 02:30 is over at the jump, when the clock goes from 02:00 to
      03:00, yet is said to end half an hour later. */
  lemma SkippedEndOutlivesWindow(w: Window)
    requires w.days == [0] && !w.always && MinutesFromHhmm(w.start) == Some(60) && MinutesFromHhmm(w.end) == Some(150)
    ensures IsWindowActive(Springing(), w, JUMP - 30 * MINUTE) && !IsWindowActive(Springing(), w, JUMP)
    ensures WindowEndsAt(Springing(), w, JUMP - 30 * MINUTE) == Some(JUMP + 30 * MINUTE)
  {
    var zone, now, wall := Springing(), JUMP - 30 * MINUTE, WallOn(3, 150);
    forall i ensures Offset(zone, i) == if i < JUMP then 0 else 60 { SpringingOffset(i); }
    assert WallClock(zone, now) == now && WallClock(zone, JUMP) == JUMP + 60 * MINUTE;
    forall x ensures !Reads(zone, x, wall) { if Reads(zone, x, wall) { ReadsIs(zone, wall, x); } }
    Skipped(zone, wall, JUMP, 0, 60);
    var e := JUMP + 30 * MINUTE;
    assert WallTimes(zone, wall) == [e] && WallClock(zone, e) == e + 60 * MINUTE;
    FirstAfterOne(zone, e, w.days, now);
    var day := LocalDay(zone, now);
    assert day == 3 && OnDay(zone, w.days, 150, now, day) == Some(e);
  }
}
