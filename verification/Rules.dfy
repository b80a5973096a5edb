/** A household's rules, and which of them apply to a group now, from `src/lib/rules.ts`. */
module Rules {
  import opened Wrappers
  import opened Clock
  import opened RuleWindows

  datatype RuleKind = Internet | Category | App | Domain

  /** `Own` is the household's own, the source's null. */
  datatype BuiltIn = Own | Quarantine | LockDns | Countries

  datatype RulePause = RulePause(lift: Lift, allow: bool)

  datatype GroupPause = GroupPause(groupId: nat, pause: RulePause)

  datatype Rule = Rule(id: nat, kind: RuleKind, byGroup: bool, groupIds: seq<nat>, enabled: bool, pause: RulePause,
                       groupPauses: seq<GroupPause>, always: bool, windows: seq<Window>, builtIn: BuiltIn)

  /** `groupScopedRules`: the rules that block something for the group. */
  predicate Scoped(r: Rule, g: nat) {
    r.byGroup && r.builtIn != LockDns && g in r.groupIds
  }

  predicate RulePaused(r: Rule, now: int) {
    IsActiveUntil(r.pause.lift, now)
  }

  function FirstLift(pauses: seq<GroupPause>, g: nat, now: int): Option<RulePause> {
    if pauses == [] then None
    else if pauses[0].groupId == g && IsActiveUntil(pauses[0].pause.lift, now) then Some(pauses[0].pause)
    else FirstLift(pauses[1..], g, now)
  }

  /** The rule's pause or allowance for this group alone, while it lifts the rule. */
  function GroupLift(r: Rule, g: nat, now: int): Option<RulePause> {
    FirstLift(r.groupPauses, g, now)
  }

  predicate AnyLift(pauses: seq<GroupPause>, g: nat, now: int) {
    exists k :: 0 <= k < |pauses| && pauses[k].groupId == g && IsActiveUntil(pauses[k].pause.lift, now)
  }

  predicate LiftedForGroup(r: Rule, g: nat, now: int) {
    AnyLift(r.groupPauses, g, now)
  }

  /** The two ways of asking whether a rule is lifted for a group agree. */
  lemma {:induction false} LiftsAgree(pauses: seq<GroupPause>, g: nat, now: int)
    ensures AnyLift(pauses, g, now) <==> FirstLift(pauses, g, now).Some?
  {
    if pauses != [] {
      LiftsAgree(pauses[1..], g, now);
      assert pauses == [pauses[0]] + pauses[1..];
      if AnyLift(pauses[1..], g, now) {
        var k :| 0 <= k < |pauses[1..]| && pauses[1..][k].groupId == g && IsActiveUntil(pauses[1..][k].pause.lift, now);
        assert pauses[k + 1] == pauses[1..][k];
      }
    }
  }

  /** An always-on rule is one window with no end. */
  function RuleInternetWindows(r: Rule): seq<Window> {
    if r.always then [Window("", [0, 1, 2, 3, 4, 5, 6], "00:00", "00:00", true)] else r.windows
  }

  /** The ends of the windows active now. */
  function ActiveEnds(zone: Zone, windows: seq<Window>, now: int): seq<Option<int>> {
    if windows == [] then []
    else
      (if IsWindowActive(zone, windows[0], now) then [WindowEndsAt(zone, windows[0], now)] else [])
      + ActiveEnds(zone, windows[1..], now)
  }

  function Latest(ends: seq<Option<int>>): Option<int>
    requires forall k :: 0 <= k < |ends| ==> ends[k].Some?
  {
    if ends == [] then None
    else
      var rest := Latest(ends[1..]);
      if rest.Some? && rest.value > ends[0].value then rest else ends[0]
  }

  /** Until when the windows active now last, nothing inside when one never ends; nothing at all when none
      is active. */
  function ActiveWindowsEnd(zone: Zone, windows: seq<Window>, now: int): Option<Option<int>> {
    var ends := ActiveEnds(zone, windows, now);
    if ends == [] then None
    else if None in ends then Some(None)
    else
      assert forall k :: 0 <= k < |ends| && ends[k].None? ==> ends[k] in ends;
      Some(Latest(ends))
  }

  /** An end at least as late as another, never being the latest. */
  predicate Outlasts(a: Option<int>, b: Option<int>) {
    a.None? || (b.Some? && b.value <= a.value)
  }

  lemma {:induction false} LatestIs(ends: seq<Option<int>>)
    requires ends != [] && forall k :: 0 <= k < |ends| ==> ends[k].Some?
    ensures Latest(ends) in ends && forall e :: e in ends ==> Outlasts(Latest(ends), e)
  {
    if |ends| > 1 {
      LatestIs(ends[1..]);
      assert ends == [ends[0]] + ends[1..];
    } else {
      assert ends[1..] == [];
    }
  }

  lemma {:induction false} ActiveEndsAre(zone: Zone, windows: seq<Window>, now: int)
    ensures forall e :: e in ActiveEnds(zone, windows, now) <==> exists w :: w in windows && IsWindowActive(zone, w, now) && e == WindowEndsAt(zone, w, now)
  {
    if windows != [] {
      var rest := windows[1..];
      ActiveEndsAre(zone, rest, now);
      assert windows == [windows[0]] + rest;
      forall e ensures e in ActiveEnds(zone, windows, now) <==> exists w :: w in windows && IsWindowActive(zone, w, now) && e == WindowEndsAt(zone, w, now) {
        if exists w :: w in rest && IsWindowActive(zone, w, now) && e == WindowEndsAt(zone, w, now) {
          var w :| w in rest && IsWindowActive(zone, w, now) && e == WindowEndsAt(zone, w, now);
          assert w in windows;
        }
        if exists w :: w in windows && IsWindowActive(zone, w, now) && e == WindowEndsAt(zone, w, now) {
          var w :| w in windows && IsWindowActive(zone, w, now) && e == WindowEndsAt(zone, w, now);
          assert w == windows[0] || w in rest;
        }
      }
    }
  }

  ghost predicate AnyActive(zone: Zone, windows: seq<Window>, now: int) {
    exists w :: w in windows && IsWindowActive(zone, w, now)
  }

  /** The reduce finds the end of one of the windows active now, which none of them outlasts. */
  lemma ActiveWindowsEndIs(zone: Zone, windows: seq<Window>, now: int)
    ensures
      match ActiveWindowsEnd(zone, windows, now)
      case None => !AnyActive(zone, windows, now)
      case Some(end) =>
        && (exists w :: w in windows && IsWindowActive(zone, w, now) && end == WindowEndsAt(zone, w, now))
        && forall w :: w in windows && IsWindowActive(zone, w, now) ==> Outlasts(end, WindowEndsAt(zone, w, now))
  {
    var ends := ActiveEnds(zone, windows, now);
    ActiveEndsAre(zone, windows, now);
    if ends == [] {
      forall w | w in windows ensures !IsWindowActive(zone, w, now) {
        assert WindowEndsAt(zone, w, now) !in ends;
      }
    } else if None !in ends {
      assert forall k :: 0 <= k < |ends| && ends[k].None? ==> ends[k] in ends;
      LatestIs(ends);
    }
  }

  /** Whatever the zone does, an end that is known is still to come. */
  lemma {:induction false} NextIsLater(zone: Zone, days: seq<int>, minutes: nat, now: int, day: int, last: int)
    ensures NextFrom(zone, days, minutes, now, day, last).Some? ==> NextFrom(zone, days, minutes, now, day, last).value > now
    decreases last - day
  {
    if day < last {
      FirstIsLater(zone, WallTimes(zone, WallOn(day, minutes)), days, now);
      NextIsLater(zone, days, minutes, now, day + 1, last);
    }
  }

  lemma {:induction false} FirstIsLater(zone: Zone, instants: seq<int>, days: seq<int>, now: int)
    ensures FirstAfter(zone, instants, days, now).Some? ==> FirstAfter(zone, instants, days, now).value > now
  {
    if instants != [] { FirstIsLater(zone, instants[1..], days, now); }
  }

  lemma WindowEndIsLater(zone: Zone, w: Window, now: int)
    ensures WindowEndsAt(zone, w, now).Some? ==> WindowEndsAt(zone, w, now).value > now
  {
    var minutes := MinutesFromHhmm(w.end);
    if minutes.Some? {
      NextIsLater(zone, BedtimeEndDays(w.days, w.start, w.end), minutes.value, now, LocalDay(zone, now), LocalDay(zone, now) + 8);
    }
  }

  lemma EndIsLater(zone: Zone, windows: seq<Window>, now: int)
    ensures ActiveWindowsEnd(zone, windows, now).Some? ==> IsActiveUntil(Lift(true, ActiveWindowsEnd(zone, windows, now).value), now)
  {
    ActiveWindowsEndIs(zone, windows, now);
    if ActiveWindowsEnd(zone, windows, now).Some? {
      var end := ActiveWindowsEnd(zone, windows, now).value;
      var w :| w in windows && IsWindowActive(zone, w, now) && end == WindowEndsAt(zone, w, now);
      WindowEndIsLater(zone, w, now);
    }
  }

  /** An always-on rule is active at any time, and has no end. */
  lemma AlwaysHasNoEnd(r: Rule, zone: Zone, now: int)
    ensures r.always ==> ActiveWindowsEnd(zone, RuleInternetWindows(r), now) == Some(None)
    ensures !r.always ==> RuleInternetWindows(r) == r.windows
  {
    ActiveWindowsEndIs(zone, RuleInternetWindows(r), now);
    if r.always { assert RuleInternetWindows(r)[0] in RuleInternetWindows(r); }
  }

  /** An internet rule whose windows limit the group: `internetWindowsForGroup`'s filter. */
  predicate Limits(r: Rule, g: nat, now: int) {
    Scoped(r, g) && r.kind == Internet && r.enabled && !RulePaused(r, now) && !LiftedForGroup(r, g, now)
  }

  function InternetWindowsForGroup(rules: seq<Rule>, g: nat, now: int): seq<Window> {
    if rules == [] then []
    else (if Limits(rules[0], g, now) then RuleInternetWindows(rules[0]) else []) + InternetWindowsForGroup(rules[1..], g, now)
  }

  lemma {:induction false} InternetWindowsAre(rules: seq<Rule>, g: nat, now: int)
    ensures forall w :: w in InternetWindowsForGroup(rules, g, now) <==> exists r :: r in rules && Limits(r, g, now) && w in RuleInternetWindows(r)
  {
    if rules != [] {
      var rest := rules[1..];
      InternetWindowsAre(rest, g, now);
      assert rules == [rules[0]] + rest;
      forall w ensures w in InternetWindowsForGroup(rules, g, now) <==> exists r :: r in rules && Limits(r, g, now) && w in RuleInternetWindows(r) {
        if exists r :: r in rest && Limits(r, g, now) && w in RuleInternetWindows(r) {
          var r :| r in rest && Limits(r, g, now) && w in RuleInternetWindows(r);
          assert r in rules;
        }
        if exists r :: r in rules && Limits(r, g, now) && w in RuleInternetWindows(r) {
          var r :| r in rules && Limits(r, g, now) && w in RuleInternetWindows(r);
          assert r == rules[0] || r in rest;
        }
      }
    }
  }
}
