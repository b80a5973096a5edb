/** Clock times in the household's zone, from `src/lib/clock.ts`. */
module Clock {
  // Instants are milliseconds and dates are day numbers, counted from the epoch; a zone is its UTC offset in
  // whole minutes at every instant.
  import opened Wrappers

  const MINUTE := 60_000
  const DAY := 86_400_000
  const DAY_MINUTES := 1440
  const MAX_OFFSET := 14 * 60

  /** From the instant `at` on, the offset is `minutes`, until the next change. */
  datatype Change = Change(at: int, minutes: int)

  /** A zone: its offset before any change, and its changes in order. */
  datatype Zone = Zone(base: int, changes: seq<Change>)

  function Offset(zone: Zone, instant: int): int
    decreases |zone.changes|
  {
    if zone.changes == [] then zone.base
    else
      var n := |zone.changes| - 1;
      if instant >= zone.changes[n].at then zone.changes[n].minutes else Offset(Zone(zone.base, zone.changes[..n]), instant)
  }

  /** The zone's clock reading at an instant, as if that reading were UTC: the seconds are dropped. */
  function WallClock(zone: Zone, instant: int): int {
    var shown := instant + Offset(zone, instant) * MINUTE;
    shown - shown % MINUTE
  }

  function LocalDay(zone: Zone, instant: int): int {
    WallClock(zone, instant) / DAY
  }

  function LocalMinutes(zone: Zone, instant: int): (m: int)
    ensures 0 <= m < DAY_MINUTES
  {
    (WallClock(zone, instant) % DAY) / MINUTE
  }

  /** 0 = Sunday; the epoch was a Thursday. */
  function Weekday(day: int): (w: int)
    ensures 0 <= w < 7
  {
    (day + 4) % 7
  }

  function LocalWeekday(zone: Zone, instant: int): (w: int)
    ensures 0 <= w < 7
  {
    Weekday(LocalDay(zone, instant))
  }

  predicate IsDigit(c: char) {
    '0' <= c <= '9'
  }

  function DigitValue(c: char): int {
    c as int - '0' as int
  }

  /** "HH:MM" in minutes, whatever its two digits each; anything else is nothing. */
  function MinutesFromHhmm(value: string): (r: Option<nat>)
  {
    if |value| == 5 && IsDigit(value[0]) && IsDigit(value[1]) && value[2] == ':' && IsDigit(value[3]) && IsDigit(value[4]) then
      Some((DigitValue(value[0]) * 10 + DigitValue(value[1])) * 60 + DigitValue(value[3]) * 10 + DigitValue(value[4]))
    else None
  }

  /** Two digits as a clock prints them. */
  function TwoDigits(n: nat): string
    requires n < 100
  {
    ['0' + (n / 10) as char, '0' + (n % 10) as char]
  }

  lemma TwoDigitsRead(a: char, b: char)
    requires IsDigit(a) && IsDigit(b)
    ensures var n := DigitValue(a) * 10 + DigitValue(b); 0 <= n < 100 && TwoDigits(n) == [a, b]
  {
    var n := DigitValue(a) * 10 + DigitValue(b);
    assert n / 10 == DigitValue(a) && n % 10 == DigitValue(b);
  }

  ghost predicate Prints(value: string, hours: nat, minutes: nat) {
    hours < 100 && minutes < 100 && value == TwoDigits(hours) + ":" + TwoDigits(minutes)
  }

  /** A printed time comes to its hours times sixty and its minutes, and nothing but a printed time is read. */
  lemma PrintedTimeReads(value: string)
    ensures forall hours: nat, minutes: nat :: Prints(value, hours, minutes) ==> MinutesFromHhmm(value) == Some(hours * 60 + minutes)
    ensures MinutesFromHhmm(value).Some? ==> exists hours: nat, minutes: nat :: Prints(value, hours, minutes)
  {
    forall hours: nat, minutes: nat | Prints(value, hours, minutes) ensures MinutesFromHhmm(value) == Some(hours * 60 + minutes) {
      assert value == ['0' + (hours / 10) as char, '0' + (hours % 10) as char, ':', '0' + (minutes / 10) as char, '0' + (minutes % 10) as char];
    }
    if MinutesFromHhmm(value).Some? {
      TwoDigitsRead(value[0], value[1]);
      TwoDigitsRead(value[3], value[4]);
      assert Prints(value, DigitValue(value[0]) * 10 + DigitValue(value[1]), DigitValue(value[3]) * 10 + DigitValue(value[4]));
    }
  }

  /** The reading of a clock that shows `minutes` on `day`. */
  function WallOn(day: int, minutes: int): int {
    day * DAY + minutes * MINUTE
  }

  lemma WallOnParts(day: int, minutes: int)
    requires 0 <= minutes < DAY_MINUTES
    ensures var w := WallOn(day, minutes); w / DAY == day && w % DAY == minutes * MINUTE && (w % DAY) / MINUTE == minutes
  {
  }

  lemma WallOnWhole(day: int, minutes: int)
    ensures WallOn(day, minutes) % MINUTE == 0
  {
    assert WallOn(day, minutes) == (day * DAY_MINUTES + minutes) * MINUTE;
    Multiple(day * DAY_MINUTES + minutes);
  }

  lemma Multiple(n: int)
    ensures (n * MINUTE) % MINUTE == 0
  {
  }

  // Wall times to instants.

  function Candidate(zone: Zone, wall: int, probe: int): int {
    wall - (WallClock(zone, probe) - probe)
  }

  function Candidates(zone: Zone, wall: int): seq<int> {
    [Candidate(zone, wall, wall - DAY), Candidate(zone, wall, wall), Candidate(zone, wall, wall + DAY)]
  }

  function Max(x: int, y: int): int {
    if x > y then x else y
  }

  /** The candidates that read `wall`, each once. */
  function Exact(zone: Zone, wall: int, candidates: seq<int>): seq<int> {
    if candidates == [] then []
    else
      var earlier := Exact(zone, wall, candidates[..|candidates| - 1]);
      var last := candidates[|candidates| - 1];
      if WallClock(zone, last) == wall && last !in earlier then earlier + [last] else earlier
  }

  lemma {:induction false} ExactHolds(zone: Zone, wall: int, candidates: seq<int>)
    ensures
      var r := Exact(zone, wall, candidates);
      && (forall x :: x in r <==> x in candidates && WallClock(zone, x) == wall)
      && (forall i, j :: 0 <= i < j < |r| ==> r[i] != r[j])
  {
    if candidates != [] {
      var last := candidates[|candidates| - 1];
      ExactHolds(zone, wall, candidates[..|candidates| - 1]);
      assert candidates == candidates[..|candidates| - 1] + [last];
    }
  }

  function InsertUp(x: int, s: seq<int>): seq<int> {
    if s == [] || x <= s[0] then [x] + s else [s[0]] + InsertUp(x, s[1..])
  }

  function SortUp(s: seq<int>): seq<int> {
    if s == [] then [] else InsertUp(s[0], SortUp(s[1..]))
  }

  ghost predicate StrictlyUp(s: seq<int>) {
    forall i, j :: 0 <= i < j < |s| ==> s[i] < s[j]
  }

  lemma {:induction false} InsertUpOrders(x: int, s: seq<int>)
    requires StrictlyUp(s) && x !in s
    ensures StrictlyUp(InsertUp(x, s)) && forall y :: y in InsertUp(x, s) <==> y == x || y in s
  {
    if s != [] && x > s[0] {
      assert StrictlyUp(s[1..]);
      InsertUpOrders(x, s[1..]);
      var rest := InsertUp(x, s[1..]);
      assert forall y :: y in s <==> y == s[0] || y in s[1..];
      forall j | 0 <= j < |rest| ensures s[0] < rest[j] { assert rest[j] in rest; }
    }
  }

  lemma {:induction false} SortUpOrders(s: seq<int>)
    requires forall i, j :: 0 <= i < j < |s| ==> s[i] != s[j]
    ensures StrictlyUp(SortUp(s)) && forall y :: y in SortUp(s) <==> y in s
  {
    if s != [] {
      SortUpOrders(s[1..]);
      InsertUpOrders(s[0], SortUp(s[1..]));
    }
  }

  /** Every instant the three probes find for `wall`, earliest first; a skipped time's single reading. */
  function WallTimes(zone: Zone, wall: int): seq<int> {
    var candidates := Candidates(zone, wall);
    var exact := Exact(zone, wall, candidates);
    if exact == [] then [Max(candidates[0], Max(candidates[1], candidates[2]))]
    else SortUp(exact)
  }

  /** `zonedWallTimesToUtc`, for the wall time it has built from a date and a clock time. */
  method ZonedWallTimesToUtc(zone: Zone, wall: int) returns (instants: seq<int>)
    ensures instants == WallTimes(zone, wall)
  {
    var probes := [wall - DAY, wall, wall + DAY];
    var candidates: seq<int> := [];
    for k := 0 to 3
      invariant |candidates| == k && forall j :: 0 <= j < k ==> candidates[j] == Candidates(zone, wall)[j]
    {
      candidates := candidates + [wall - (WallClock(zone, probes[k]) - probes[k])];
    }
    assert candidates == Candidates(zone, wall);
    var exact: seq<int> := [];
    for k := 0 to 3
      invariant exact == Exact(zone, wall, candidates[..k])
    {
      assert candidates[..k + 1][..k] == candidates[..k];
      if WallClock(zone, candidates[k]) == wall && candidates[k] !in exact { exact := exact + [candidates[k]]; }
    }
    assert candidates[..3] == candidates;
    if exact == [] { return [Max(candidates[0], Max(candidates[1], candidates[2]))]; }
    instants := SortUp(exact);
  }

  /** The whole-minute instants at which the zone's clock reads `wall`. */
  predicate Reads(zone: Zone, instant: int, wall: int) {
    instant % MINUTE == 0 && WallClock(zone, instant) == wall
  }

  ghost predicate Bounded(zone: Zone) {
    forall i :: -MAX_OFFSET <= Offset(zone, i) <= MAX_OFFSET
  }

  /** Within a day of `wall` the offset changes at most once, from `before` to `after`, at `change`. */
  ghost predicate ChangesOnce(zone: Zone, wall: int, change: int, before: int, after: int) {
    forall i :: wall - DAY <= i <= wall + DAY ==> Offset(zone, i) == if i < change then before else after
  }

  lemma WholeMinute(zone: Zone, instant: int)
    requires instant % MINUTE == 0
    ensures WallClock(zone, instant) == instant + Offset(zone, instant) * MINUTE
  {
    assert (Offset(zone, instant) * MINUTE) % MINUTE == 0;
  }

  lemma CandidateIs(zone: Zone, wall: int, probe: int)
    requires probe % MINUTE == 0 && wall % MINUTE == 0
    ensures Candidate(zone, wall, probe) == wall - Offset(zone, probe) * MINUTE && Candidate(zone, wall, probe) % MINUTE == 0
  {
    WholeMinute(zone, probe);
  }

  lemma ReadsIs(zone: Zone, wall: int, x: int)
    requires Bounded(zone) && wall % MINUTE == 0 && Reads(zone, x, wall)
    ensures x == wall - Offset(zone, x) * MINUTE && wall - DAY < x < wall + DAY
  {
    WholeMinute(zone, x);
    assert -MAX_OFFSET <= Offset(zone, x) <= MAX_OFFSET;
  }

  lemma CandidatesAre(zone: Zone, wall: int)
    requires wall % MINUTE == 0
    ensures Candidates(zone, wall) == [wall - Offset(zone, wall - DAY) * MINUTE, wall - Offset(zone, wall) * MINUTE, wall - Offset(zone, wall + DAY) * MINUTE]
    ensures forall x :: x in Candidates(zone, wall) ==> x % MINUTE == 0
  {
    CandidateIs(zone, wall, wall - DAY);
    CandidateIs(zone, wall, wall);
    CandidateIs(zone, wall, wall + DAY);
  }

  /** The three probes find exactly the instants that read `wall`. */
  lemma ProbesFindAll(zone: Zone, wall: int, change: int, before: int, after: int, x: int)
    requires Bounded(zone) && wall % MINUTE == 0 && ChangesOnce(zone, wall, change, before, after)
    ensures x in Candidates(zone, wall) && WallClock(zone, x) == wall <==> Reads(zone, x, wall)
  {
    CandidatesAre(zone, wall);
    if Reads(zone, x, wall) {
      ReadsIs(zone, wall, x);
      assert Offset(zone, x) == Offset(zone, wall - DAY) || Offset(zone, x) == Offset(zone, wall + DAY);
    }
  }

  /** Wall-time inversion is exact: the result is every whole-minute instant that reads `wall`, in order,
      and no other; and when there is none the clocks skipped it, and the result is the reading under
      the earlier offset, which the clock shows moved forward by exactly the jump. */
  lemma InversionExact(zone: Zone, wall: int, change: int, before: int, after: int)
    requires Bounded(zone) && wall % MINUTE == 0 && ChangesOnce(zone, wall, change, before, after)
    ensures
      var r := WallTimes(zone, wall);
      if exists x :: Reads(zone, x, wall) then
        (forall x :: x in r <==> Reads(zone, x, wall)) && StrictlyUp(r)
      else
        before < after && r == [wall - before * MINUTE] && WallClock(zone, r[0]) == wall + (after - before) * MINUTE
  {
    if x :| Reads(zone, x, wall) {
      AllFound(zone, wall, change, before, after, x);
    } else {
      Skipped(zone, wall, change, before, after);
    }
  }

  lemma AllFound(zone: Zone, wall: int, change: int, before: int, after: int, some: int)
    requires Bounded(zone) && wall % MINUTE == 0 && ChangesOnce(zone, wall, change, before, after) && Reads(zone, some, wall)
    ensures var r := WallTimes(zone, wall); (forall x :: x in r <==> Reads(zone, x, wall)) && StrictlyUp(r)
  {
    var exact := Exact(zone, wall, Candidates(zone, wall));
    ExactHolds(zone, wall, Candidates(zone, wall));
    forall x ensures x in exact <==> Reads(zone, x, wall) { ProbesFindAll(zone, wall, change, before, after, x); }
    assert some in exact;
    SortUpOrders(exact);
  }

  lemma Skipped(zone: Zone, wall: int, change: int, before: int, after: int)
    requires Bounded(zone) && wall % MINUTE == 0 && ChangesOnce(zone, wall, change, before, after)
    requires forall x :: !Reads(zone, x, wall)
    ensures before < after && wall - after * MINUTE < change <= wall - before * MINUTE
    ensures WallClock(zone, wall - before * MINUTE) == wall + (after - before) * MINUTE
    ensures WallTimes(zone, wall) == [wall - before * MINUTE]
  {
    CandidatesAre(zone, wall);
    assert -MAX_OFFSET <= Offset(zone, wall - DAY) <= MAX_OFFSET && -MAX_OFFSET <= Offset(zone, wall + DAY) <= MAX_OFFSET;
    var c, d := Candidates(zone, wall)[0], Candidates(zone, wall)[2];
    assert !Reads(zone, c, wall) && !Reads(zone, d, wall);
    WholeMinute(zone, c);
    WholeMinute(zone, d);
    assert Offset(zone, c) == if c < change then before else after;
    assert Offset(zone, d) == if d < change then before else after;
    forall k | 0 <= k < 3 ensures WallClock(zone, Candidates(zone, wall)[k]) != wall {
      assert !Reads(zone, Candidates(zone, wall)[k], wall);
    }
    NoneExact(zone, wall, Candidates(zone, wall));
  }

  lemma {:induction false} NoneExact(zone: Zone, wall: int, candidates: seq<int>)
    requires forall k :: 0 <= k < |candidates| ==> WallClock(zone, candidates[k]) != wall
    ensures Exact(zone, wall, candidates) == []
  {
    if candidates != [] { NoneExact(zone, wall, candidates[..|candidates| - 1]); }
  }

  // The next reading on given days.

  function NextDays(days: seq<int>): (r: seq<int>)
    ensures forall d :: d in r <==> exists k :: 0 <= k < |days| && d == (days[k] + 1) % 7
  {
    if days == [] then []
    else
      var earlier := NextDays(days[..|days| - 1]);
      var next := (days[|days| - 1] + 1) % 7;
      assert forall k :: 0 <= k < |days| - 1 ==> days[..|days| - 1][k] == days[k];
      assert (days[|days| - 1] + 1) % 7 == next;
      if next in earlier then earlier else earlier + [next]
  }

  /** The days a window that starts on `days` ends on. */
  function BedtimeEndDays(days: seq<int>, start: string, end: string): seq<int> {
    var from := MinutesFromHhmm(start);
    var to := MinutesFromHhmm(end);
    if from.None? || to.None? then days else EndDays(days, from.value, to.value)
  }

  function EndDays(days: seq<int>, from: int, to: int): seq<int> {
    if from < to then days else NextDays(days)
  }

  /** A window that ends after it starts ends on the days it starts on, and any other on the days after them;
      with a time that cannot be read the days are left as they are. */
  lemma EndDaysAre(days: seq<int>, start: string, end: string, d: int)
    requires ValidDays(days)
    ensures
      var from, to := MinutesFromHhmm(start), MinutesFromHhmm(end);
      d in BedtimeEndDays(days, start, end) <==>
        if from.Some? && to.Some? && from.value >= to.value then 0 <= d < 7 && (d + 6) % 7 in days else d in days
  {
    InDaysAfter(days, d);
  }

  lemma InDaysAfter(days: seq<int>, d: int)
    requires ValidDays(days)
    ensures d in NextDays(days) <==> 0 <= d < 7 && (d + 6) % 7 in days
  {
    forall k | 0 <= k < |days| ensures d == (days[k] + 1) % 7 <==> 0 <= d < 7 && (d + 6) % 7 == days[k] { DayAfter(days[k], d); }
  }

  lemma DayAfter(x: int, d: int)
    requires 0 <= x < 7
    ensures d == (x + 1) % 7 <==> 0 <= d < 7 && (d + 6) % 7 == x
  {
  }

  /** The first of `instants` after `now` that falls on one of `days`. */
  function FirstAfter(zone: Zone, instants: seq<int>, days: seq<int>, now: int): Option<int> {
    if instants == [] then None
    else if LocalWeekday(zone, instants[0]) in days && instants[0] > now then Some(instants[0])
    else FirstAfter(zone, instants[1..], days, now)
  }

  function OnDay(zone: Zone, days: seq<int>, minutes: nat, now: int, day: int): Option<int> {
    FirstAfter(zone, WallTimes(zone, WallOn(day, minutes)), days, now)
  }

  /** The search from `day` on, up to `last`. */
  function NextFrom(zone: Zone, days: seq<int>, minutes: nat, now: int, day: int, last: int): Option<int>
    decreases last - day
  {
    if day >= last then None
    else
      var found := OnDay(zone, days, minutes, now, day);
      if found.Some? then found else NextFrom(zone, days, minutes, now, day + 1, last)
  }

  function NextClock(zone: Zone, days: seq<int>, hhmm: string, now: int): Option<int> {
    var minutes := MinutesFromHhmm(hhmm);
    if minutes.None? || days == [] then None
    else NextFrom(zone, days, minutes.value, now, LocalDay(zone, now), LocalDay(zone, now) + 8)
  }

  method NextClockOnDays(zone: Zone, days: seq<int>, hhmm: string, now: int) returns (r: Option<int>)
    ensures r == NextClock(zone, days, hhmm, now)
  {
    var minutes := MinutesFromHhmm(hhmm);
    if minutes.None? || |days| == 0 { return None; }
    var hour, minute := minutes.value / 60, minutes.value % 60;
    assert hour * 60 + minute == minutes.value;
    r := SearchFrom(zone, days, hour * 60 + minute, now, LocalDay(zone, now));
  }

  /** The loop of `nextClockOnDays`: eight days from `start`. */
  method SearchFrom(zone: Zone, days: seq<int>, minutes: nat, now: int, start: int) returns (r: Option<int>)
    ensures r == NextFrom(zone, days, minutes, now, start, start + 8)
  {
    for offset := 0 to 8
      invariant NextFrom(zone, days, minutes, now, start, start + 8) == NextFrom(zone, days, minutes, now, start + offset, start + 8)
    {
      var instants := ZonedWallTimesToUtc(zone, WallOn(start + offset, minutes));
      var found := FirstLater(zone, instants, days, now);
      if found.Some? { return found; }
    }
    r := None;
  }

  method FirstLater(zone: Zone, instants: seq<int>, days: seq<int>, now: int) returns (r: Option<int>)
    ensures r == FirstAfter(zone, instants, days, now)
  {
    for k := 0 to |instants|
      invariant FirstAfter(zone, instants, days, now) == FirstAfter(zone, instants[k..], days, now)
    {
      if LocalWeekday(zone, instants[k]) in days && instants[k] > now { return Some(instants[k]); }
      assert instants[k..][1..] == instants[k + 1..];
    }
    r := None;
  }

  ghost predicate Fixed(zone: Zone, offset: int) {
    -MAX_OFFSET <= offset <= MAX_OFFSET && forall i :: Offset(zone, i) == offset
  }

  predicate ValidDays(days: seq<int>) {
    forall k :: 0 <= k < |days| ==> 0 <= days[k] < 7
  }

  /** An instant that begins the minute the clock reads `minutes` on one of `days`. */
  predicate Marks(zone: Zone, instant: int, days: seq<int>, minutes: int) {
    instant % MINUTE == 0 && LocalMinutes(zone, instant) == minutes && LocalWeekday(zone, instant) in days
  }

  /** The instant day `day` reaches `minutes` in a fixed zone. */
  function At(offset: int, day: int, minutes: int): int {
    WallOn(day, minutes) - offset * MINUTE
  }

  lemma AtReads(zone: Zone, offset: int, day: int, minutes: int)
    requires Fixed(zone, offset) && 0 <= minutes < DAY_MINUTES
    ensures var x := At(offset, day, minutes); x % MINUTE == 0 && LocalDay(zone, x) == day && LocalMinutes(zone, x) == minutes
  {
    WallOnParts(day, minutes);
    AtIs(zone, offset, day, minutes);
  }

  lemma AtIs(zone: Zone, offset: int, day: int, minutes: int)
    requires Fixed(zone, offset)
    ensures var x := At(offset, day, minutes); x % MINUTE == 0 && WallClock(zone, x) == WallOn(day, minutes)
    ensures WallTimes(zone, WallOn(day, minutes)) == [At(offset, day, minutes)]
  {
    var x := At(offset, day, minutes);
    var wall := WallOn(day, minutes);
    assert x == (day * DAY_MINUTES + minutes - offset) * MINUTE;
    Multiple(day * DAY_MINUTES + minutes - offset);
    WallOnWhole(day, minutes);
    WholeMinute(zone, x);
    CandidateIs(zone, wall, wall - DAY);
    CandidateIs(zone, wall, wall);
    CandidateIs(zone, wall, wall + DAY);
    assert Candidates(zone, wall) == [x, x, x];
    ExactOnce(zone, wall, x);
  }

  lemma ExactOnce(zone: Zone, wall: int, x: int)
    requires WallClock(zone, x) == wall
    ensures Exact(zone, wall, [x, x, x]) == [x] && SortUp([x]) == [x]
  {
    assert [x, x, x][..2] == [x, x] && [x, x][..1] == [x] && [x][..0] == [];
    assert Exact(zone, wall, [x]) == [x];
    assert Exact(zone, wall, [x, x]) == [x];
  }

  lemma DayAndMinute(wall: int)
    requires wall % MINUTE == 0
    ensures wall == wall / DAY * DAY + wall % DAY / MINUTE * MINUTE
  {
    var rest := wall % DAY;
    assert wall == wall / DAY * DAY + rest;
    assert rest % MINUTE == 0;
    assert rest / MINUTE * MINUTE == rest;
  }

  /** In a fixed zone an instant lies in the minute and day its clock reads. */
  lemma Located(zone: Zone, offset: int, t: int)
    requires Fixed(zone, offset)
    ensures At(offset, LocalDay(zone, t), LocalMinutes(zone, t)) <= t < At(offset, LocalDay(zone, t), LocalMinutes(zone, t)) + MINUTE
    ensures t % MINUTE == 0 ==> t == At(offset, LocalDay(zone, t), LocalMinutes(zone, t))
  {
    assert Offset(zone, t) == offset;
    var shown := t + offset * MINUTE;
    var wall := shown - shown % MINUTE;
    DayAndMinute(wall);
    assert WallClock(zone, t) == wall;
  }

  lemma FirstAfterOne(zone: Zone, x: int, days: seq<int>, now: int)
    ensures FirstAfter(zone, [x], days, now) == if LocalWeekday(zone, x) in days && x > now then Some(x) else None
  {
    assert [x][1..] == [];
  }

  /** Searching from `day` on finds the least later mark, given that no earlier day holds one. */
  lemma {:induction false} NextFromLeast(zone: Zone, o: int, days: seq<int>, minutes: nat, now: int, day: int, last: int)
    requires day <= last && Fixed(zone, o) && minutes < DAY_MINUTES && NoMarkBefore(zone, days, minutes, now, day)
    ensures
      match NextFrom(zone, days, minutes, now, day, last)
      case Some(x) => IsNextMark(zone, x, days, minutes, now)
      case None => NoMarkBefore(zone, days, minutes, now, last)
    decreases last - day
  {
    if day < last {
      DayDecides(zone, o, days, minutes, now, day);
      if OnDay(zone, days, minutes, now, day).None? {
        NextFromLeast(zone, o, days, minutes, now, day + 1, last);
      }
    }
  }

  ghost predicate NoMarkBefore(zone: Zone, days: seq<int>, minutes: int, now: int, day: int) {
    forall y :: now < y && Marks(zone, y, days, minutes) ==> LocalDay(zone, y) >= day
  }

  /** When no mark after `now` falls before `day`, the search of that day finds the next one, or none
      falls on it. */
  lemma DayDecides(zone: Zone, o: int, days: seq<int>, minutes: nat, now: int, day: int)
    requires Fixed(zone, o) && minutes < DAY_MINUTES
    requires NoMarkBefore(zone, days, minutes, now, day)
    ensures
      match OnDay(zone, days, minutes, now, day)
      case Some(x) => IsNextMark(zone, x, days, minutes, now)
      case None => NoMarkBefore(zone, days, minutes, now, day + 1)
  {
    var x := At(o, day, minutes);
    AtReads(zone, o, day, minutes);
    AtIs(zone, o, day, minutes);
    FirstAfterOne(zone, x, days, now);
    forall y | now < y && Marks(zone, y, days, minutes) ensures y >= x && (LocalDay(zone, y) > day || y == x) {
      Located(zone, o, y);
      LaterDay(o, day, LocalDay(zone, y), minutes);
    }
  }

  lemma LaterDay(o: int, day: int, later: int, minutes: int)
    requires day <= later
    ensures At(o, day, minutes) <= At(o, later, minutes)
  {
  }

  /** `x` is the least mark after `now`. */
  ghost predicate IsNextMark(zone: Zone, x: int, days: seq<int>, minutes: int, now: int) {
    x > now && Marks(zone, x, days, minutes) && forall y :: now < y < x ==> !Marks(zone, y, days, minutes)
  }

  /** With a fixed offset the result is the least instant after `now` that reads the time on one of the
      days, and with days of the week and a time of day there always is one: eight days suffice. */
  lemma NextClockIsLeast(zone: Zone, o: int, days: seq<int>, hhmm: string, now: int)
    requires Fixed(zone, o) && days != [] && ValidDays(days)
    requires MinutesFromHhmm(hhmm).Some? && MinutesFromHhmm(hhmm).value < DAY_MINUTES
    ensures
      var r := NextClock(zone, days, hhmm, now);
      r.Some? && IsNextMark(zone, r.value, days, MinutesFromHhmm(hhmm).value, now)
  {
    var minutes := MinutesFromHhmm(hhmm).value;
    forall y | now < y && Marks(zone, y, days, minutes) ensures LocalDay(zone, y) >= LocalDay(zone, now) {
      DaysAscend(zone, o, now, y);
    }
    NextFromLeast(zone, o, days, minutes, now, LocalDay(zone, now), LocalDay(zone, now) + 8);
    var y := ComesUp(zone, o, days, minutes, now);
  }

  lemma DaysAscend(zone: Zone, o: int, t: int, u: int)
    requires Fixed(zone, o) && t <= u
    ensures LocalDay(zone, t) <= LocalDay(zone, u)
  {
    assert Offset(zone, t) == o && Offset(zone, u) == o;
    assert WallClock(zone, t) <= WallClock(zone, u);
  }

  /** Within a week and a day of `now` the first of the days comes up after it. */
  lemma ComesUp(zone: Zone, o: int, days: seq<int>, minutes: nat, now: int) returns (y: int)
    requires Fixed(zone, o) && days != [] && ValidDays(days) && minutes < DAY_MINUTES
    ensures now < y && Marks(zone, y, days, minutes) && LocalDay(zone, y) < LocalDay(zone, now) + 8
  {
    var today := LocalDay(zone, now);
    var day := today + 1 + (days[0] - Weekday(today + 1)) % 7;
    assert Weekday(day) == days[0];
    y := At(o, day, minutes);
    AtReads(zone, o, day, minutes);
    if y <= now { DaysAscend(zone, o, y, now); }
  }
}
