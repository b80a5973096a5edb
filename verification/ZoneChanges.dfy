module ZoneChanges {
  // Ends of windows and next clock times where the offset changes, from `src/lib/rule-windows.ts` and
  // `src/lib/clock.ts`.
  import opened Wrappers
  import opened Clock
  import opened RuleWindows

  // The changes of a zone.

  /** The offset between change `k` and the one before it. */
  function Piece(zone: Zone, k: nat): int
    requires k <= |zone.changes|
  {
    if k == 0 then zone.base else zone.changes[k - 1].minutes
  }

  /** Offsets within fourteen hours of UTC, more than two days between changes, and no change of more than a
      day: the zones people live in. */
  predicate Ordinary(zone: Zone) {
    && (forall k :: 0 <= k <= |zone.changes| ==> -MAX_OFFSET <= Piece(zone, k) <= MAX_OFFSET)
    && (forall k :: 0 < k <= |zone.changes| ==> -DAY_MINUTES <= Piece(zone, k) - Piece(zone, k - 1) <= DAY_MINUTES)
    && (forall j, k :: 0 <= j < k < |zone.changes| ==> zone.changes[j].at + 2 * DAY < zone.changes[k].at)
  }

  /** Instant `i` lies between change `k` and the one before it. */
  predicate InPiece(zone: Zone, k: nat, i: int) {
    k <= |zone.changes| && (k > 0 ==> zone.changes[k - 1].at <= i) && (k < |zone.changes| ==> i < zone.changes[k].at)
  }

  lemma {:induction false} PieceOf(zone: Zone, i: int) returns (k: nat)
    requires Ordinary(zone)
    ensures InPiece(zone, k, i) && Offset(zone, i) == Piece(zone, k)
    decreases |zone.changes|
  {
    var n := |zone.changes|;
    if n == 0 {
      k := 0;
    } else if i >= zone.changes[n - 1].at {
      k := n;
    } else {
      EarlierOrdinary(zone, n - 1);
      k := PieceOf(Zone(zone.base, zone.changes[..n - 1]), i);
    }
  }

  lemma EarlierOrdinary(zone: Zone, n: nat)
    requires Ordinary(zone) && n < |zone.changes|
    ensures var earlier := Zone(zone.base, zone.changes[..n]); Ordinary(earlier) && forall k :: 0 <= k <= n ==> Piece(earlier, k) == Piece(zone, k)
  {
    var earlier := Zone(zone.base, zone.changes[..n]);
    forall k | 0 <= k <= n ensures Piece(earlier, k) == Piece(zone, k) {}
  }

  lemma InOnePiece(zone: Zone, k: nat, i: int)
    requires Ordinary(zone) && InPiece(zone, k, i)
    ensures Offset(zone, i) == Piece(zone, k)
  {
    var j := PieceOf(zone, i);
  }

  predicate IsChange(zone: Zone, k: nat, change: int, before: int, after: int)
    requires k < |zone.changes|
  {
    zone.changes[k].at == change && Piece(zone, k) == before && Piece(zone, k + 1) == after
  }

  lemma ChangeNear(zone: Zone, wall: int) returns (change: int, before: int, after: int)
    requires Ordinary(zone)
    ensures Bounded(zone) && ChangesOnce(zone, wall, change, before, after) && -DAY_MINUTES <= after - before <= DAY_MINUTES
    ensures before != after ==> exists k :: 0 <= k < |zone.changes| && IsChange(zone, k, change, before, after)
  {
    forall i ensures -MAX_OFFSET <= Offset(zone, i) <= MAX_OFFSET { var j := PieceOf(zone, i); }
    var k := PieceOf(zone, wall - DAY);
    var near := k < |zone.changes| && zone.changes[k].at <= wall + DAY;
    change := if near then zone.changes[k].at else wall + DAY + 1;
    before := Piece(zone, k);
    after := if near then Piece(zone, k + 1) else before;
    forall i | wall - DAY <= i <= wall + DAY ensures Offset(zone, i) == if i < change then before else after {
      InOnePiece(zone, if i < change then k else k + 1, i);
    }
    if near { assert IsChange(zone, k, change, before, after); }
  }

  /** Around any instant the offset changes at most once. */
  lemma OneChangeNear(zone: Zone, wall: int) returns (change: int, before: int, after: int)
    requires Ordinary(zone)
    ensures Bounded(zone) && ChangesOnce(zone, wall, change, before, after) && -DAY_MINUTES <= after - before <= DAY_MINUTES
  {
    change, before, after := ChangeNear(zone, wall);
  }

  // The search finds what there is.

  /** What the inversion gives goes back by one of the two offsets near its wall time. */
  lemma BackIs(zone: Zone, wall: int, change: int, before: int, after: int, x: int) returns (back: int)
    requires Bounded(zone) && wall % MINUTE == 0 && ChangesOnce(zone, wall, change, before, after) && x in WallTimes(zone, wall)
    ensures x == wall - back * MINUTE && back <= Offset(zone, x) && (back == before || back == after) && -MAX_OFFSET <= back <= MAX_OFFSET
  {
    InversionExact(zone, wall, change, before, after);
    if exists y :: Reads(zone, y, wall) {
      ReadsIs(zone, wall, x);
      back := Offset(zone, x);
    } else {
      forall y ensures !Reads(zone, y, wall) {}
      Skipped(zone, wall, change, before, after);
      back := before;
      assert Offset(zone, x) == after && -MAX_OFFSET <= after <= MAX_OFFSET;
      assert Offset(zone, wall - DAY) == before;
    }
  }

  /** An instant the inversion gives reads its wall time or later, never earlier. */
  lemma FoundReads(zone: Zone, wall: int, x: int) returns (back: int)
    requires Ordinary(zone) && wall % MINUTE == 0 && x in WallTimes(zone, wall)
    ensures x == wall - back * MINUTE && back <= Offset(zone, x) && -MAX_OFFSET <= back <= MAX_OFFSET && x % MINUTE == 0
    ensures forall i :: wall - DAY <= i <= wall + DAY ==> -DAY_MINUTES <= Offset(zone, i) - back <= DAY_MINUTES
  {
    var change, before, after := OneChangeNear(zone, wall);
    back := BackIs(zone, wall, change, before, after, x);
    WholeBack(wall, back);
    forall i | wall - DAY <= i <= wall + DAY ensures -DAY_MINUTES <= Offset(zone, i) - back <= DAY_MINUTES {
      assert Offset(zone, i) == if i < change then before else after;
    }
  }

  lemma WholeBack(wall: int, back: int)
    requires wall % MINUTE == 0
    ensures (wall - back * MINUTE) % MINUTE == 0
  {
    Multiple(back);
  }

  lemma MarkReads(zone: Zone, y: int, days: seq<int>, minutes: nat)
    requires Marks(zone, y, days, minutes)
    ensures Reads(zone, y, WallOn(LocalDay(zone, y), minutes)) && y == WallOn(LocalDay(zone, y), minutes) - Offset(zone, y) * MINUTE
  {
    WholeMinute(zone, y);
    Multiple(Offset(zone, y));
    DayAndMinute(WallClock(zone, y));
  }

  /** A mark before an instant found for day `day` is on that day or an earlier one. */
  lemma NoLaterDayBefore(zone: Zone, days: seq<int>, minutes: nat, day: int, x: int, y: int)
    requires Ordinary(zone) && x in WallTimes(zone, WallOn(day, minutes)) && Marks(zone, y, days, minutes) && y < x
    ensures LocalDay(zone, y) <= day
  {
    WallOnWhole(day, minutes);
    var back := FoundReads(zone, WallOn(day, minutes), x);
    MarkReads(zone, y, days, minutes);
    var k := PieceOf(zone, y);
    var d := LocalDay(zone, y);
    assert x - y == (Offset(zone, y) - back) * MINUTE - (d - day) * DAY;
  }

  lemma {:induction false} FirstAfterFinds(zone: Zone, instants: seq<int>, days: seq<int>, now: int, y: int)
    requires StrictlyUp(instants) && y in instants && LocalWeekday(zone, y) in days && y > now
    ensures FirstAfter(zone, instants, days, now).Some? && FirstAfter(zone, instants, days, now).value <= y
  {
    if y != instants[0] {
      assert instants == [instants[0]] + instants[1..];
      FirstAfterFinds(zone, instants[1..], days, now, y);
      assert exists k :: 0 < k < |instants| && instants[k] == y;
    }
  }

  lemma {:induction false} FirstAfterIs(zone: Zone, instants: seq<int>, days: seq<int>, now: int)
    ensures FirstAfter(zone, instants, days, now).Some? ==>
              FirstAfter(zone, instants, days, now).value in instants && FirstAfter(zone, instants, days, now).value > now
  {
    if instants != [] { FirstAfterIs(zone, instants[1..], days, now); }
  }

  /** The search of a mark's own day finds it or an earlier one. */
  lemma OwnDayFinds(zone: Zone, days: seq<int>, minutes: nat, now: int, y: int)
    requires Ordinary(zone) && y > now && Marks(zone, y, days, minutes)
    ensures var found := OnDay(zone, days, minutes, now, LocalDay(zone, y)); found.Some? && found.value <= y
  {
    var wall := WallOn(LocalDay(zone, y), minutes);
    MarkReads(zone, y, days, minutes);
    WallOnWhole(LocalDay(zone, y), minutes);
    var change, before, after := OneChangeNear(zone, wall);
    InversionExact(zone, wall, change, before, after);
    FirstAfterFinds(zone, WallTimes(zone, wall), days, now, y);
  }

  /** The search misses no mark of the days it searches: what it gives comes no later. */
  lemma {:induction false} NoneMissed(zone: Zone, days: seq<int>, minutes: nat, now: int, day: int, last: int, y: int)
    requires Ordinary(zone) && now < y && Marks(zone, y, days, minutes) && day <= LocalDay(zone, y)
    requires LocalDay(zone, y) < last || NextFrom(zone, days, minutes, now, day, last).Some?
    ensures var r := NextFrom(zone, days, minutes, now, day, last); r.Some? && r.value <= y
    decreases last - day
  {
    var found := OnDay(zone, days, minutes, now, day);
    if LocalDay(zone, y) == day {
      OwnDayFinds(zone, days, minutes, now, y);
    } else if found.None? {
      NoneMissed(zone, days, minutes, now, day + 1, last, y);
    } else {
      FoundIs(zone, days, minutes, now, day);
      if y < found.value { NoLaterDayBefore(zone, days, minutes, day, found.value, y); }
    }
  }

  lemma FoundIs(zone: Zone, days: seq<int>, minutes: nat, now: int, day: int)
    requires Ordinary(zone)
    ensures
      var r := OnDay(zone, days, minutes, now, day);
      r.Some? ==> r.value in WallTimes(zone, WallOn(day, minutes)) && r.value > now && WallClock(zone, r.value) >= WallOn(day, minutes)
  {
    var wall := WallOn(day, minutes);
    FirstAfterIs(zone, WallTimes(zone, wall), days, now);
    WallOnWhole(day, minutes);
    var r := OnDay(zone, days, minutes, now, day);
    if r.Some? {
      var back := FoundReads(zone, wall, r.value);
      WholeMinute(zone, r.value);
    }
  }

  /** What the search gives is later than now, and the clock then reads no earlier than the first time searched. */
  lemma {:induction false} FoundLater(zone: Zone, days: seq<int>, minutes: nat, now: int, day: int, last: int)
    requires Ordinary(zone)
    ensures var r := NextFrom(zone, days, minutes, now, day, last); r.Some? ==> r.value > now && WallClock(zone, r.value) >= WallOn(day, minutes)
    decreases last - day
  {
    if day < last {
      FoundIs(zone, days, minutes, now, day);
      FoundLater(zone, days, minutes, now, day + 1, last);
    }
  }

  // The next clock time.

  /** Change `k` puts the clock back to yesterday after `now`, before yesterday's `minutes`, which then come
      again before `x`. */
  predicate BringsBack(zone: Zone, k: nat, days: seq<int>, minutes: int, now: int, x: int)
    requires k < |zone.changes|
  {
    var yesterday := LocalDay(zone, now) - 1;
    Weekday(yesterday) in days && now < zone.changes[k].at <= At(zone.changes[k].minutes, yesterday, minutes) < x
  }

  lemma SameReadings(zone: Zone, i: int)
    ensures var fixed := Zone(Offset(zone, i), []); LocalDay(zone, i) == LocalDay(fixed, i) && LocalMinutes(zone, i) == LocalMinutes(fixed, i)
  {
    assert WallClock(zone, i) == WallClock(Zone(Offset(zone, i), []), i);
  }

  lemma Readings(zone: Zone, i: int)
    ensures LocalDay(zone, i) * DAY <= WallClock(zone, i) < LocalDay(zone, i) * DAY + DAY
    ensures i + Offset(zone, i) * MINUTE - MINUTE < WallClock(zone, i) <= i + Offset(zone, i) * MINUTE
  {
  }

  lemma BroughtBack(zone: Zone, k: nat, days: seq<int>, minutes: nat, now: int, x: int)
    requires Ordinary(zone) && k < |zone.changes| && minutes < DAY_MINUTES && BringsBack(zone, k, days, minutes, now, x)
    ensures var y := At(zone.changes[k].minutes, LocalDay(zone, now) - 1, minutes); now < y < x && Marks(zone, y, days, minutes)
  {
    var o, yesterday := zone.changes[k].minutes, LocalDay(zone, now) - 1;
    var y := At(o, yesterday, minutes);
    var j := PieceOf(zone, now);
    assert Piece(zone, k + 1) == o;
    Readings(zone, now);
    assert y < zone.changes[k].at + 2 * DAY;
    InOnePiece(zone, k + 1, y);
    AtReads(Zone(o, []), o, yesterday, minutes);
    SameReadings(zone, y);
  }

  /** A mark after `now` on an earlier day is one a change brought back from yesterday. */
  lemma EarlierDayIsBroughtBack(zone: Zone, days: seq<int>, minutes: nat, now: int, x: int, y: int) returns (k: nat)
    requires Ordinary(zone) && now < y < x && Marks(zone, y, days, minutes) && LocalDay(zone, y) < LocalDay(zone, now)
    ensures k < |zone.changes| && BringsBack(zone, k, days, minutes, now, x)
  {
    var piece := PieceOf(zone, y);
    var first := PieceOf(zone, now);
    Readings(zone, now);
    Readings(zone, y);
    MarkReads(zone, y, days, minutes);
    var change, before, after := OneChangeNear(zone, now + DAY);
    assert LocalDay(zone, y) == LocalDay(zone, now) - 1;
    assert first < piece;
    k := piece - 1;
  }

  /** The next clock time is the least later mark exactly when it is a mark, which a time the clocks skip is
      not, and no change between brings yesterday's back first; and it is missing only when no mark falls
      on the eight days searched. */
  lemma NextClockExactly(zone: Zone, days: seq<int>, hhmm: string, now: int)
    requires Ordinary(zone) && ValidTime(hhmm) && days != []
    ensures
      var minutes := MinutesFromHhmm(hhmm).value;
      match NextClock(zone, days, hhmm, now)
      case Some(x) =>
        IsNextMark(zone, x, days, minutes, now) <==>
          (Marks(zone, x, days, minutes) && forall k :: 0 <= k < |zone.changes| ==> !BringsBack(zone, k, days, minutes, now, x))
      case None =>
        forall y :: now < y && Marks(zone, y, days, minutes) ==> !(LocalDay(zone, now) <= LocalDay(zone, y) < LocalDay(zone, now) + 8)
  {
    var minutes, today := MinutesFromHhmm(hhmm).value, LocalDay(zone, now);
    var r := NextClock(zone, days, hhmm, now);
    assert r == NextFrom(zone, days, minutes, now, today, today + 8);
    FoundLater(zone, days, minutes, now, today, today + 8);
    if r.None? {
      forall y | now < y && Marks(zone, y, days, minutes) ensures !(today <= LocalDay(zone, y) < today + 8) {
        if today <= LocalDay(zone, y) < today + 8 { NoneMissed(zone, days, minutes, now, today, today + 8, y); }
      }
    } else {
      forall k | 0 <= k < |zone.changes| && BringsBack(zone, k, days, minutes, now, r.value) ensures !IsNextMark(zone, r.value, days, minutes, now) {
        BroughtBack(zone, k, days, minutes, now, r.value);
      }
      forall y | now < y < r.value && Marks(zone, y, days, minutes)
        ensures exists k :: 0 <= k < |zone.changes| && BringsBack(zone, k, days, minutes, now, r.value) {
        if today <= LocalDay(zone, y) { NoneMissed(zone, days, minutes, now, today, today + 8, y); }
        var k := EarlierDayIsBroughtBack(zone, days, minutes, now, r.value, y);
      }
    }
  }

  // The end of a window.

  /** In a fixed zone an occurrence runs to its end, within a day, on its last day. */
  lemma RunsFixed(o: int, days: seq<int>, start: int, end: int, s: int) returns (y: int)
    requires -MAX_OFFSET <= o <= MAX_OFFSET && 0 <= start < DAY_MINUTES && 0 <= end < DAY_MINUTES
    requires Occurs(days, start, end, LocalWeekday(Zone(o, []), s), LocalMinutes(Zone(o, []), s))
    ensures
      var zone := Zone(o, []);
      var last := EndDay(days, start, end, LocalDay(zone, s), LocalMinutes(zone, s));
      && s < y < s + DAY
      && (forall i :: s <= i < y ==> Occurs(days, start, end, LocalWeekday(zone, i), LocalMinutes(zone, i)))
      && !Occurs(days, start, end, LocalWeekday(zone, y), LocalMinutes(zone, y))
      && Marks(zone, y, EndDays(days, start, end), end)
      && LocalDay(zone, y) == last && (forall i :: i <= y ==> LocalDay(zone, i) <= last)
  {
    var zone := Zone(o, []);
    assert Fixed(zone, o);
    var day, minutes := LocalDay(zone, s), LocalMinutes(zone, s);
    y := At(o, EndDay(days, start, end, day, minutes), end);
    ActiveUpTo(zone, o, days, start, end, s, y);
    EndIsMark(zone, o, days, start, end, s, y);
    AtReads(zone, o, EndDay(days, start, end, day, minutes), end);
    Located(zone, o, s);
    WithinADay(o, days, start, end, day, minutes);
    forall i | i <= y ensures LocalDay(zone, i) <= EndDay(days, start, end, day, minutes) { DaysAscend(zone, o, i, y); }
  }

  lemma WithinADay(o: int, days: seq<int>, start: int, end: int, day: int, minutes: int)
    requires 0 <= start < DAY_MINUTES && 0 <= end < DAY_MINUTES && 0 <= minutes < DAY_MINUTES && Occurs(days, start, end, Weekday(day), minutes)
    ensures At(o, EndDay(days, start, end, day, minutes), end) < At(o, day, minutes) + DAY
  {
  }

  /** While the offset stays, an occurrence active at `s` runs to its end, within a day, on its last day. */
  lemma RunsOnePiece(zone: Zone, days: seq<int>, start: int, end: int, s: int, t: int) returns (y: int)
    requires 0 <= start < DAY_MINUTES && 0 <= end < DAY_MINUTES && -MAX_OFFSET <= Offset(zone, s) <= MAX_OFFSET
    requires s <= t && forall i :: s <= i <= t ==> Offset(zone, i) == Offset(zone, s)
    requires Occurs(days, start, end, LocalWeekday(zone, s), LocalMinutes(zone, s))
    ensures
      var last := EndDay(days, start, end, LocalDay(zone, s), LocalMinutes(zone, s));
      && s < y < s + DAY
      && (forall i :: s <= i <= t && i < y ==> Occurs(days, start, end, LocalWeekday(zone, i), LocalMinutes(zone, i)))
      && (forall i :: s <= i <= t && i <= y ==> LocalDay(zone, i) <= last)
      && (y <= t ==> LocalDay(zone, y) == last && !Occurs(days, start, end, LocalWeekday(zone, y), LocalMinutes(zone, y))
                     && Marks(zone, y, EndDays(days, start, end), end))
  {
    forall i | s <= i <= t
      ensures LocalDay(zone, i) == LocalDay(Zone(Offset(zone, s), []), i) && LocalMinutes(zone, i) == LocalMinutes(Zone(Offset(zone, s), []), i) {
      SameReadings(zone, i);
    }
    y := RunsFixed(Offset(zone, s), days, start, end, s);
  }

  // The end of a window.

  /** At `t` the window is still active, in an occurrence that ends no day before today. */
  predicate GoesOn(zone: Zone, w: Window, now: int, t: int)
    requires Valid(w) && !w.always
  {
    && IsWindowActive(zone, w, t)
    && EndDay(w.days, MinutesFromHhmm(w.start).value, MinutesFromHhmm(w.end).value, LocalDay(zone, t), LocalMinutes(zone, t)) >= LocalDay(zone, now)
  }

  /** The window goes on through every change of the offset after `now` and before `until`. */
  predicate Undisturbed(zone: Zone, w: Window, now: int, until: int)
    requires Valid(w) && !w.always
  {
    forall k :: 0 <= k < |zone.changes| && now < zone.changes[k].at < until ==> GoesOn(zone, w, now, zone.changes[k].at)
  }

  /** The occurrence that covers `t`, taken from the last change of the offset before it. */
  lemma LastStart(zone: Zone, w: Window, now: int, t: int, until: int) returns (s: int)
    requires Ordinary(zone) && Valid(w) && !w.always && IsWindowActive(zone, w, now) && now <= t < until && Undisturbed(zone, w, now, until)
    ensures now <= s <= t && GoesOn(zone, w, now, s) && -MAX_OFFSET <= Offset(zone, s) <= MAX_OFFSET
    ensures forall i :: s <= i <= t ==> Offset(zone, i) == Offset(zone, s)
    ensures s == now || exists k :: 0 <= k < |zone.changes| && zone.changes[k].at == s
  {
    var k := PieceOf(zone, t);
    s := if k > 0 && zone.changes[k - 1].at > now then zone.changes[k - 1].at else now;
    forall i | s <= i <= t ensures Offset(zone, i) == Piece(zone, k) { InOnePiece(zone, k, i); }
  }

  /** A window that goes on through every change ends, when it does, at a mark the search looks at. */
  lemma EndsAtMark(zone: Zone, w: Window, now: int, t: int, until: int) returns (y: int)
    requires Ordinary(zone) && Valid(w) && !w.always && IsWindowActive(zone, w, now) && now <= t < until && Undisturbed(zone, w, now, until)
    requires !IsWindowActive(zone, w, t)
    ensures now < y <= t && LocalDay(zone, y) >= LocalDay(zone, now)
    ensures Marks(zone, y, BedtimeEndDays(w.days, w.start, w.end), MinutesFromHhmm(w.end).value)
  {
    var s := LastStart(zone, w, now, t, until);
    y := RunsOnePiece(zone, w.days, MinutesFromHhmm(w.start).value, MinutesFromHhmm(w.end).value, s, t);
  }

  /** Without a change that cuts it short a window is over within a day of `now`, or of the last change. */
  lemma KnownEnd(zone: Zone, w: Window, now: int) returns (y: int)
    requires Ordinary(zone) && Valid(w) && !w.always && IsWindowActive(zone, w, now) && Undisturbed(zone, w, now, now + DAY)
    ensures now < y < now + 2 * DAY && LocalDay(zone, now) <= LocalDay(zone, y) < LocalDay(zone, now) + 8
    ensures Marks(zone, y, BedtimeEndDays(w.days, w.start, w.end), MinutesFromHhmm(w.end).value)
  {
    var s := LastStart(zone, w, now, now + DAY - 1, now + DAY);
    var t := if s == now then now + DAY - 1 else s + DAY;
    if s > now {
      var k :| 0 <= k < |zone.changes| && zone.changes[k].at == s;
      forall i | s <= i <= t ensures Offset(zone, i) == Piece(zone, k + 1) { InOnePiece(zone, k + 1, i); }
    }
    y := RunsOnePiece(zone, w.days, MinutesFromHhmm(w.start).value, MinutesFromHhmm(w.end).value, s, t);
    WithinAWeek(zone, now, y);
  }

  lemma WithinAWeek(zone: Zone, now: int, y: int)
    requires Ordinary(zone) && now < y < now + 2 * DAY
    ensures LocalDay(zone, y) < LocalDay(zone, now) + 8
  {
    Readings(zone, now);
    Readings(zone, y);
    var i := PieceOf(zone, now);
    var j := PieceOf(zone, y);
  }

  /** A window active up to the end it is said to have goes on through every change before it. */
  lemma ActiveGoesOn(zone: Zone, w: Window, now: int, e: int, k: nat)
    requires Ordinary(zone) && Valid(w) && !w.always && LocalDay(zone, e) >= LocalDay(zone, now) && k < |zone.changes| && now < zone.changes[k].at < e
    requires forall t :: now <= t < e ==> IsWindowActive(zone, w, t)
    ensures GoesOn(zone, w, now, zone.changes[k].at)
  {
    var s := zone.changes[k].at;
    forall i | s <= i <= s + DAY ensures Offset(zone, i) == Piece(zone, k + 1) { InOnePiece(zone, k + 1, i); }
    assert IsWindowActive(zone, w, s);
    var y := RunsOnePiece(zone, w.days, MinutesFromHhmm(w.start).value, MinutesFromHhmm(w.end).value, s, s + DAY);
    assert !IsWindowActive(zone, w, y);
  }

  /** The said end is the first instant the window is not active. */
  ghost predicate EndsFirst(zone: Zone, w: Window, now: int, e: int) {
    now < e && !IsWindowActive(zone, w, e) && forall t :: now <= t < e ==> IsWindowActive(zone, w, t)
  }

  /** Change `k` skips the window's end on day `d`, and the instant that then stands for it, still to come and
      on an end day, is inside the window again. */
  predicate SkipsIntoWindow(zone: Zone, w: Window, now: int, k: nat, d: int)
    requires k < |zone.changes| && Valid(w) && !w.always
  {
    var wall := WallOn(d, MinutesFromHhmm(w.end).value);
    var stands := wall - Piece(zone, k) * MINUTE;
    var shown := wall + (Piece(zone, k + 1) - Piece(zone, k)) * MINUTE;
    && d >= LocalDay(zone, now) && now < stands
    && wall - Piece(zone, k + 1) * MINUTE < zone.changes[k].at <= stands
    && Weekday(shown / DAY) in BedtimeEndDays(w.days, w.start, w.end)
    && ActiveAt(w, Weekday(shown / DAY), shown % DAY / MINUTE)
  }

  /** No change up to `until` skips an end into the window. */
  ghost predicate SkipsNoEnd(zone: Zone, w: Window, now: int, until: int)
    requires Valid(w) && !w.always
  {
    forall k, d :: 0 <= k < |zone.changes| && zone.changes[k].at <= until ==> !SkipsIntoWindow(zone, w, now, k, d)
  }

  lemma {:induction false} FoundDay(zone: Zone, days: seq<int>, minutes: nat, now: int, day: int, last: int) returns (d: int)
    requires NextFrom(zone, days, minutes, now, day, last).Some?
    ensures day <= d < last && OnDay(zone, days, minutes, now, d) == NextFrom(zone, days, minutes, now, day, last)
    ensures forall c :: day <= c < d ==> OnDay(zone, days, minutes, now, c).None?
    decreases last - day
  {
    if OnDay(zone, days, minutes, now, day).Some? { d := day; } else { d := FoundDay(zone, days, minutes, now, day + 1, last); }
  }

  /** What the inversion gives reads its wall time, or a change skipped that. */
  lemma ReadOrSkipped(zone: Zone, wall: int, x: int) returns (k: nat)
    requires Ordinary(zone) && wall % MINUTE == 0 && x in WallTimes(zone, wall) && !Reads(zone, x, wall)
    ensures k < |zone.changes| && x == wall - Piece(zone, k) * MINUTE && wall - Piece(zone, k + 1) * MINUTE < zone.changes[k].at <= x
    ensures WallClock(zone, x) == wall + (Piece(zone, k + 1) - Piece(zone, k)) * MINUTE
  {
    var change, before, after := ChangeNear(zone, wall);
    InversionExact(zone, wall, change, before, after);
    forall y ensures !Reads(zone, y, wall) {}
    Skipped(zone, wall, change, before, after);
    k :| 0 <= k < |zone.changes| && IsChange(zone, k, change, before, after);
  }

  /** A skipped wall time has one reading. */
  lemma SkippedStands(zone: Zone, wall: int, k: nat)
    requires Ordinary(zone) && wall % MINUTE == 0 && k < |zone.changes|
    requires wall - Piece(zone, k + 1) * MINUTE < zone.changes[k].at <= wall - Piece(zone, k) * MINUTE
    ensures WallTimes(zone, wall) == [wall - Piece(zone, k) * MINUTE]
    ensures WallClock(zone, wall - Piece(zone, k) * MINUTE) == wall + (Piece(zone, k + 1) - Piece(zone, k)) * MINUTE
  {
    var change, before, after := zone.changes[k].at, Piece(zone, k), Piece(zone, k + 1);
    var c, b, a := OneChangeNear(zone, wall);
    forall i | wall - DAY <= i <= wall + DAY ensures Offset(zone, i) == if i < change then before else after {
      InOnePiece(zone, if i < change then k else k + 1, i);
    }
    forall x ensures !Reads(zone, x, wall) { if Reads(zone, x, wall) { ReadsIs(zone, wall, x); } }
    Skipped(zone, wall, change, before, after);
  }

  lemma EndIsInactive(days: seq<int>, start: int, end: int, weekday: int)
    ensures !Occurs(days, start, end, weekday, end)
  {
  }

  /** A window is active at the end it is said to have exactly when a change skipped that end into it. */
  lemma ActiveAtSaidEnd(zone: Zone, w: Window, now: int)
    requires Ordinary(zone) && Valid(w) && !w.always && WindowEndsAt(zone, w, now).Some?
    ensures var e := WindowEndsAt(zone, w, now).value; IsWindowActive(zone, w, e) <==> !SkipsNoEnd(zone, w, now, e)
  {
    var e := WindowEndsAt(zone, w, now).value;
    if IsWindowActive(zone, w, e) { SkippedInto(zone, w, now, e); }
    if k, d :| 0 <= k < |zone.changes| && zone.changes[k].at <= e && SkipsIntoWindow(zone, w, now, k, d) {
      SkipIsSaid(zone, w, now, e, k, d);
    }
  }

  lemma SkippedInto(zone: Zone, w: Window, now: int, e: int)
    requires Ordinary(zone) && Valid(w) && !w.always && WindowEndsAt(zone, w, now) == Some(e) && IsWindowActive(zone, w, e)
    ensures !SkipsNoEnd(zone, w, now, e)
  {
    var days, end, today := BedtimeEndDays(w.days, w.start, w.end), MinutesFromHhmm(w.end).value, LocalDay(zone, now);
    var d := FoundDay(zone, days, end, now, today, today + 8);
    FoundIs(zone, days, end, now, d);
    FoundWeekday(zone, WallTimes(zone, WallOn(d, end)), days, now);
    WallOnWhole(d, end);
    WallOnParts(d, end);
    EndIsInactive(w.days, MinutesFromHhmm(w.start).value, end, LocalWeekday(zone, e));
    var k := ReadOrSkipped(zone, WallOn(d, end), e);
    assert SkipsIntoWindow(zone, w, now, k, d);
  }

  lemma {:induction false} FoundWeekday(zone: Zone, instants: seq<int>, days: seq<int>, now: int)
    ensures FirstAfter(zone, instants, days, now).Some? ==> LocalWeekday(zone, FirstAfter(zone, instants, days, now).value) in days
  {
    if instants != [] { FoundWeekday(zone, instants[1..], days, now); }
  }

  /** An end skipped into the window is what the search of its day finds. */
  lemma SkipStands(zone: Zone, w: Window, now: int, k: nat, d: int)
    requires Ordinary(zone) && Valid(w) && !w.always && k < |zone.changes| && SkipsIntoWindow(zone, w, now, k, d)
    ensures
      var end := MinutesFromHhmm(w.end).value;
      var stands := WallOn(d, end) - Piece(zone, k) * MINUTE;
      IsWindowActive(zone, w, stands) && OnDay(zone, BedtimeEndDays(w.days, w.start, w.end), end, now, d) == Some(stands)
  {
    var end := MinutesFromHhmm(w.end).value;
    WallOnWhole(d, end);
    SkippedStands(zone, WallOn(d, end), k);
    StandsFound(zone, BedtimeEndDays(w.days, w.start, w.end), end, now, d, WallOn(d, end) - Piece(zone, k) * MINUTE);
  }

  /** A change that skips an end into the window, no later than the said end, gives that end. */
  lemma SkipIsSaid(zone: Zone, w: Window, now: int, e: int, k: nat, d: int)
    requires Ordinary(zone) && Valid(w) && !w.always && WindowEndsAt(zone, w, now) == Some(e)
    requires k < |zone.changes| && zone.changes[k].at <= e && SkipsIntoWindow(zone, w, now, k, d)
    ensures IsWindowActive(zone, w, e)
  {
    var days, end, today := BedtimeEndDays(w.days, w.start, w.end), MinutesFromHhmm(w.end).value, LocalDay(zone, now);
    SkipStands(zone, w, now, k, d);
    SkippedDayDecides(zone, days, end, now, today, today + 8, e, k, d);
  }

  /** The search ends on the skipped day when it goes past the change. */
  lemma SkippedDayDecides(zone: Zone, days: seq<int>, minutes: nat, now: int, day: int, last: int, x: int, k: nat, d: int)
    requires Ordinary(zone) && NextFrom(zone, days, minutes, now, day, last) == Some(x) && k < |zone.changes| && day <= d
    requires WallOn(d, minutes) - Piece(zone, k + 1) * MINUTE < zone.changes[k].at <= x
    requires zone.changes[k].at <= WallOn(d, minutes) - Piece(zone, k) * MINUTE
    requires OnDay(zone, days, minutes, now, d).Some?
    ensures OnDay(zone, days, minutes, now, d) == Some(x)
  {
    var found := FoundDay(zone, days, minutes, now, day, last);
    NoneBeforeSkip(zone, days, minutes, now, found, x, k, d);
  }

  lemma StandsFound(zone: Zone, days: seq<int>, minutes: nat, now: int, d: int, stands: int)
    requires WallTimes(zone, WallOn(d, minutes)) == [stands] && now < stands && LocalWeekday(zone, stands) in days
    ensures OnDay(zone, days, minutes, now, d) == Some(stands)
  {
    FirstAfterOne(zone, stands, days, now);
  }

  /** After a change that skipped a time of day `d`, no earlier day's time is found. */
  lemma NoneBeforeSkip(zone: Zone, days: seq<int>, minutes: nat, now: int, day: int, x: int, k: nat, d: int)
    requires Ordinary(zone) && OnDay(zone, days, minutes, now, day) == Some(x) && k < |zone.changes|
    requires WallOn(d, minutes) - Piece(zone, k + 1) * MINUTE < zone.changes[k].at <= x
    requires zone.changes[k].at <= WallOn(d, minutes) - Piece(zone, k) * MINUTE
    ensures day >= d
  {
    FoundIs(zone, days, minutes, now, day);
    WallOnWhole(day, minutes);
    var back := FoundReads(zone, WallOn(day, minutes), x);
    assert day < d ==> WallOn(day, minutes) + DAY <= WallOn(d, minutes);
    var j := PieceOf(zone, x);
    assert j > k;
    assert j > k + 1 ==> zone.changes[j - 1].at > zone.changes[k].at + 2 * DAY;
  }

  /** A window is active all the way to the end it is said to have exactly when it goes on through every
      change of the offset before then; so that end is its first inactive instant exactly when, besides, no
      change skipped it into the window's next start. An end is missing only when a change within a day cuts
      the window short. */
  lemma EndsExactly(zone: Zone, w: Window, now: int)
    requires Ordinary(zone) && Valid(w) && !w.always && IsWindowActive(zone, w, now)
    ensures
      match WindowEndsAt(zone, w, now)
      case Some(e) =>
        && ((forall t :: now <= t < e ==> IsWindowActive(zone, w, t)) <==> Undisturbed(zone, w, now, e))
        && (EndsFirst(zone, w, now, e) <==> Undisturbed(zone, w, now, e) && SkipsNoEnd(zone, w, now, e))
      case None => !Undisturbed(zone, w, now, now + DAY)
  {
    var days, end, today := BedtimeEndDays(w.days, w.start, w.end), MinutesFromHhmm(w.end).value, LocalDay(zone, now);
    var r := WindowEndsAt(zone, w, now);
    EndDaysLeft(zone, w, now);
    assert r == NextFrom(zone, days, end, now, today, today + 8);
    FoundLater(zone, days, end, now, today, today + 8);
    if r.None? {
      if Undisturbed(zone, w, now, now + DAY) {
        var y := KnownEnd(zone, w, now);
        NoneMissed(zone, days, end, now, today, today + 8, y);
      }
    } else {
      var e := r.value;
      ActiveAtSaidEnd(zone, w, now);
      if Undisturbed(zone, w, now, e) {
        forall t | now <= t < e ensures IsWindowActive(zone, w, t) {
          if !IsWindowActive(zone, w, t) {
            var y := EndsAtMark(zone, w, now, t, e);
            NoneMissed(zone, days, end, now, today, today + 8, y);
          }
        }
      }
      if forall t :: now <= t < e ==> IsWindowActive(zone, w, t) {
        forall k | 0 <= k < |zone.changes| && now < zone.changes[k].at < e ensures GoesOn(zone, w, now, zone.changes[k].at) {
          ActiveGoesOn(zone, w, now, e, k);
        }
      }
    }
  }

  /** With no change of the offset in the day to come, and no end skipped into the window, a window is said to
      end, and ends, within that day: the end is known and is its first inactive instant. */
  lemma EndsWithinADay(zone: Zone, w: Window, now: int)
    requires Ordinary(zone) && Valid(w) && !w.always && IsWindowActive(zone, w, now) && SkipsNoEnd(zone, w, now, now + DAY)
    requires forall k :: 0 <= k < |zone.changes| ==> !(now < zone.changes[k].at < now + DAY)
    ensures var e := WindowEndsAt(zone, w, now); e.Some? && e.value < now + DAY && EndsFirst(zone, w, now, e.value)
  {
    SaidWithinADay(zone, w, now);
    EndsExactly(zone, w, now);
  }

  lemma SaidWithinADay(zone: Zone, w: Window, now: int)
    requires Ordinary(zone) && Valid(w) && !w.always && IsWindowActive(zone, w, now)
    requires forall k :: 0 <= k < |zone.changes| ==> !(now < zone.changes[k].at < now + DAY)
    ensures var e := WindowEndsAt(zone, w, now); e.Some? && e.value < now + DAY
  {
    var y := EndWithinADay(zone, w, now);
    WithinAWeek(zone, now, y);
    SaidBy(zone, w, now, y);
  }

  lemma EndWithinADay(zone: Zone, w: Window, now: int) returns (y: int)
    requires Ordinary(zone) && Valid(w) && !w.always && IsWindowActive(zone, w, now)
    requires forall k :: 0 <= k < |zone.changes| ==> !(now < zone.changes[k].at < now + DAY)
    ensures now < y < now + DAY && LocalDay(zone, y) >= LocalDay(zone, now)
    ensures Marks(zone, y, BedtimeEndDays(w.days, w.start, w.end), MinutesFromHhmm(w.end).value)
  {
    var t := now + DAY - 1;
    var piece := PieceOf(zone, now);
    forall i | now <= i <= t ensures Offset(zone, i) == Offset(zone, now) { InOnePiece(zone, piece, i); }
    assert -MAX_OFFSET <= Offset(zone, now) <= MAX_OFFSET;
    y := RunsOnePiece(zone, w.days, MinutesFromHhmm(w.start).value, MinutesFromHhmm(w.end).value, now, t);
  }

  /** An instant on the days searched that reads the window's end on an end day is no earlier than the end the
      window is said to have. */
  lemma SaidBy(zone: Zone, w: Window, now: int, e: int)
    requires Ordinary(zone) && Valid(w) && !w.always && IsWindowActive(zone, w, now)
    requires now < e && Marks(zone, e, BedtimeEndDays(w.days, w.start, w.end), MinutesFromHhmm(w.end).value)
    requires LocalDay(zone, now) <= LocalDay(zone, e) < LocalDay(zone, now) + 8
    ensures WindowEndsAt(zone, w, now).Some? && WindowEndsAt(zone, w, now).value <= e
  {
    EndDaysLeft(zone, w, now);
    var days, today := BedtimeEndDays(w.days, w.start, w.end), LocalDay(zone, now);
    NoneMissed(zone, days, MinutesFromHhmm(w.end).value, now, today, today + 8, e);
  }

  lemma EndDaysLeft(zone: Zone, w: Window, now: int)
    requires Valid(w) && !w.always && IsWindowActive(zone, w, now)
    ensures BedtimeEndDays(w.days, w.start, w.end) != []
  {
    RunsToEnd(w.days, MinutesFromHhmm(w.start).value, MinutesFromHhmm(w.end).value, LocalDay(zone, now), LocalMinutes(zone, now));
  }

  /** A group no one has blocked or unblocked is blocked exactly while one of its windows is active, in any
      zone; and it stays blocked up to the end it is told, or for good, when the window named goes on through
      every change of the offset before then. */
  lemma BlockedUntilSaid(zone: Zone, suspension: Lift, allowance: Lift, windows: seq<Window>, now: int)
    requires Ordinary(zone) && !suspension.active && !allowance.active
    requires forall k :: 0 <= k < |windows| ==> Valid(windows[k])
    ensures
      var state := StateOf(zone, suspension, allowance, windows, now);
      && (state.Blocked? <==> exists w :: w in windows && IsWindowActive(zone, w, now))
      && (state.Blocked? ==>
            var w := Longest(zone, windows, now).value.window;
            && Valid(w)
            && ((w.always || Undisturbed(zone, w, now, if state.until.Some? then state.until.value else now + DAY)) ==>
                  forall t :: now <= t && (state.until.Some? ==> t < state.until.value) ==>
                    StateOf(zone, suspension, allowance, windows, t).Blocked?))
  {
    LongestIs(zone, windows, now);
    var state := StateOf(zone, suspension, allowance, windows, now);
    if state.Blocked? {
      var w := Longest(zone, windows, now).value.window;
      assert Valid(w);
      if !w.always { EndsExactly(zone, w, now); }
      if w.always || Undisturbed(zone, w, now, if state.until.Some? then state.until.value else now + DAY) {
        forall t | now <= t && (state.until.Some? ==> t < state.until.value) ensures StateOf(zone, suspension, allowance, windows, t).Blocked? {
          LongestIs(zone, windows, t);
          assert IsWindowActive(zone, w, t);
        }
      }
    }
  }

  // Ends that come late though no time is skipped.

  lemma OneChange(zone: Zone, base: int, change: int, minutes: int)
    requires zone == Zone(base, [Change(change, minutes)]) && 0 <= base <= 60 && 0 <= minutes <= 60
    ensures Ordinary(zone) && forall i :: Offset(zone, i) == if i < change then base else minutes
  {
    assert zone.changes[..0] == [];
  }

  /** The clock reads the window's end, or later, at the end it is said to have. */
  lemma SaidEndReads(zone: Zone, w: Window, now: int)
    requires Ordinary(zone) && Valid(w) && !w.always && IsWindowActive(zone, w, now)
    ensures
      var e := WindowEndsAt(zone, w, now);
      e.Some? ==> e.value > now && WallClock(zone, e.value) >= WallOn(LocalDay(zone, now), MinutesFromHhmm(w.end).value)
  {
    var days, today := BedtimeEndDays(w.days, w.start, w.end), LocalDay(zone, now);
    EndDaysLeft(zone, w, now);
    FoundLater(zone, days, MinutesFromHhmm(w.end).value, now, today, today + 8);
  }

  /** The window is said to end where the clock first reads its end today. */
  lemma SaidAt(zone: Zone, w: Window, now: int, e: int, today: int)
    requires Ordinary(zone) && Valid(w) && !w.always && IsWindowActive(zone, w, now) && LocalDay(zone, now) == today
    requires now < e && e % MINUTE == 0 && WallClock(zone, e) == WallOn(today, MinutesFromHhmm(w.end).value)
    requires Weekday(today) in BedtimeEndDays(w.days, w.start, w.end)
    requires forall x :: now < x < e ==> WallClock(zone, x) < WallClock(zone, e)
    ensures WindowEndsAt(zone, w, now) == Some(e)
  {
    WallOnParts(today, MinutesFromHhmm(w.end).value);
    SaidEndReads(zone, w, now);
    SaidBy(zone, w, now, e);
  }

  /** The clocks go back from two to one on a Sunday: a window of that day from 01:30 to 02:00 is over then,
      and is said to end an hour later, when two comes the second time. */
  lemma TurnedBackEndComesLate(zone: Zone, change: int, w: Window)
    requires change == 3 * DAY + 60 * MINUTE && zone == Zone(60, [Change(change, 0)])
    requires w.days == [0] && !w.always && MinutesFromHhmm(w.start) == Some(90) && MinutesFromHhmm(w.end) == Some(120)
    ensures IsWindowActive(zone, w, change - 15 * MINUTE) && !IsWindowActive(zone, w, change)
    ensures WindowEndsAt(zone, w, change - 15 * MINUTE) == Some(change + 60 * MINUTE)
  {
    OneChange(zone, 60, change, 0);
    var now, e := change - 15 * MINUTE, change + 60 * MINUTE;
    assert WallClock(zone, now) == WallOn(3, 105) && WallClock(zone, change) == WallOn(3, 60) && WallClock(zone, e) == WallOn(3, 120);
    SaidAt(zone, w, now, e, 3);
  }

  lemma NightAfter(w: Window, day: int)
    requires Valid(w) && !w.always && MinutesFromHhmm(w.start).value >= MinutesFromHhmm(w.end).value && day in w.days
    ensures (day + 1) % 7 in BedtimeEndDays(w.days, w.start, w.end)
  {
    InNextDays(w.days, day);
  }

  /** The clocks go back over midnight, from half past twelve on Monday to half past eleven on Sunday: a
      window of the weekend that leaves out only five minutes before midnight goes on through the change, is
      over a quarter of an hour after, and is said to end on Monday night. */
  lemma TurnedBackDayIsMissed(zone: Zone, change: int, w: Window)
    requires change == 4 * DAY - 30 * MINUTE && zone == Zone(60, [Change(change, 0)])
    requires w.days == [0, 6] && !w.always && MinutesFromHhmm(w.start) == Some(1430) && MinutesFromHhmm(w.end) == Some(1425)
    ensures IsWindowActive(zone, w, change - 15 * MINUTE) && IsWindowActive(zone, w, change) && !IsWindowActive(zone, w, change + 15 * MINUTE)
    ensures WindowEndsAt(zone, w, change - 15 * MINUTE) == Some(change + DAY + 15 * MINUTE)
  {
    OneChange(zone, 60, change, 0);
    var now, e := change - 15 * MINUTE, change + DAY + 15 * MINUTE;
    assert WallClock(zone, now) == WallOn(4, 15) && WallClock(zone, change) == WallOn(3, 1410);
    assert WallClock(zone, change + 15 * MINUTE) == WallOn(3, 1425) && WallClock(zone, e) == WallOn(4, 1425);
    NightAfter(w, 0);
    SaidAt(zone, w, now, e, 4);
  }
}
