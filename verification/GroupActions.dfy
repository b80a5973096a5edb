/** What a group's card says and offers, from `src/lib/group-actions.ts`. */
module GroupActions {
  // What the server's unblock does about it is from `src/server/group-unblock.ts`.
  import opened Wrappers
  import opened Picking
  import opened Sorting
  import opened Clock
  import opened RuleWindows
  import opened Rules

  datatype Group = Group(id: nat, suspension: Lift, allowance: Lift)

  /** One of the group's rules blocking it now. */
  datatype Blocking = Blocking(ruleId: nat, kind: RuleKind, until: Option<int>)

  /** The household's own rule, on, and lifted neither for everyone nor for the group, with a window active. */
  predicate Stops(r: Rule, g: nat, zone: Zone, now: int) {
    r.builtIn == Own && r.enabled && !RulePaused(r, now) && GroupLift(r, g, now).None?
    && ActiveWindowsEnd(zone, RuleInternetWindows(r), now).Some?
  }

  function BlockingOf(r: Rule, zone: Zone, now: int): Blocking
    requires ActiveWindowsEnd(zone, RuleInternetWindows(r), now).Some?
  {
    Blocking(r.id, r.kind, ActiveWindowsEnd(zone, RuleInternetWindows(r), now).value)
  }

  function Found(rules: seq<Rule>, g: nat, zone: Zone, now: int): seq<Keyed<Blocking>> {
    if rules == [] then []
    else if Scoped(rules[0], g) && Stops(rules[0], g, zone, now) then
      var b := BlockingOf(rules[0], zone, now);
      [Keyed(Lasts(b.until), b)] + Found(rules[1..], g, zone, now)
    else Found(rules[1..], g, zone, now)
  }

  function Items(s: seq<Keyed<Blocking>>): seq<Blocking> {
    if s == [] then [] else [s[0].item] + Items(s[1..])
  }

  /** The group's rules blocking it now, longest first. */
  function RulesBlockingGroup(rules: seq<Rule>, g: nat, zone: Zone, now: int): seq<Blocking> {
    Items(Sort(Found(rules, g, zone, now)))
  }

  /** How the group is set up, not a block on it now. */
  predicate StandingRule(r: Rule) {
    r.kind != Internet && r.always
  }

  function StandingIds(rules: seq<Rule>): set<nat> {
    set r | r in rules && StandingRule(r) :: r.id
  }

  /** A choice of blocking rules: those an unblock lifts, the internet ones of them, the others, and the
      standing ones. */
  datatype Which = Lifted | LiftedInternet | LiftedOther | Standing

  predicate Chosen(b: Blocking, which: Which, standing: set<nat>) {
    match which
    case Lifted => b.ruleId !in standing
    case LiftedInternet => b.ruleId !in standing && b.kind == Internet
    case LiftedOther => b.ruleId !in standing && b.kind != Internet
    case Standing => b.ruleId in standing
  }

  function Pick(s: seq<Blocking>, which: Which, standing: set<nat>): seq<Blocking> {
    if s == [] then []
    else if Chosen(s[0], which, standing) then [s[0]] + Pick(s[1..], which, standing)
    else Pick(s[1..], which, standing)
  }

  /** The rules blocking the group now that its Unblock lifts. */
  function RulesToUnblock(rules: seq<Rule>, g: nat, zone: Zone, now: int): seq<Blocking> {
    Pick(RulesBlockingGroup(rules, g, zone, now), Lifted, StandingIds(rules))
  }

  predicate AnyInternet(s: seq<Blocking>) {
    exists k :: 0 <= k < |s| && s[k].kind == Internet
  }

  /** The ends of the group's allowances on its enabled rules. */
  function Allowances(rules: seq<Rule>, g: nat, now: int): seq<Option<int>> {
    if rules == [] then []
    else
      var lift := GroupLift(rules[0], g, now);
      if Scoped(rules[0], g) && rules[0].enabled && lift.Some? && lift.value.allow then [lift.value.lift.until] + Allowances(rules[1..], g, now)
      else Allowances(rules[1..], g, now)
  }

  /** The group's unblock: until the last of its allowances ends, or nothing when it has none. */
  function GroupUnblock(rules: seq<Rule>, g: nat, now: int): Option<Option<int>> {
    var ends := Allowances(rules, g, now);
    if ends == [] then None
    else if None in ends then Some(None)
    else
      assert forall k :: 0 <= k < |ends| && ends[k].None? ==> ends[k] in ends;
      Some(Latest(ends))
  }

  /** `groupRulePause` of the group's internet rules: one applies, and every one that does is paused for
      this group alone. */
  predicate InternetPaused(rules: seq<Rule>, g: nat, now: int) {
    && (exists k :: 0 <= k < |rules| && InternetApplies(rules[k], g, now))
    && forall k :: 0 <= k < |rules| && InternetApplies(rules[k], g, now) ==> PausedFor(rules[k], g, now)
  }

  predicate InternetApplies(r: Rule, g: nat, now: int) {
    Scoped(r, g) && r.kind == Internet && r.enabled && !RulePaused(r, now)
  }

  predicate PausedFor(r: Rule, g: nat, now: int) {
    GroupLift(r, g, now).Some? && !GroupLift(r, g, now).value.allow
  }

  predicate PausedForEveryone(rules: seq<Rule>, g: nat, now: int) {
    exists k :: 0 <= k < |rules| && Scoped(rules[k], g) && rules[k].kind == Internet && rules[k].enabled && RulePaused(rules[k], now)
  }

  // The status.

  datatype Tone = TonePaused | ToneOff | ToneRule | ToneOn
  datatype Badge = BadgeOnline | BadgeBlocked
  datatype Change = NoChange | ChangeBlocked | ChangeUnblocked
  datatype Status = Status(tone: Tone, badge: Badge, change: Change)

  /** `fullStatus`, without its words. */
  function FullStatus(group: Group, rules: seq<Rule>, zone: Zone, now: int): Status {
    var blocking := RulesToUnblock(rules, group.id, zone, now);
    if group.suspension.active then Status(TonePaused, BadgeBlocked, ChangeBlocked)
    else if AnyInternet(blocking) then Status(ToneOff, BadgeBlocked, NoChange)
    else if blocking != [] then Status(ToneRule, BadgeOnline, NoChange)
    else if GroupUnblock(rules, group.id, now).Some? || InternetPaused(rules, group.id, now) then Status(ToneOn, BadgeOnline, ChangeUnblocked)
    else
      var windows := InternetWindowsForGroup(rules, group.id, now);
      if PausedForEveryone(rules, group.id, now) && windows == [] then Status(ToneOn, BadgeOnline, ChangeUnblocked)
      else
        match StateOf(zone, group.suspension, group.allowance, windows, now)
        case Blocked(_, _) => Status(ToneOn, BadgeBlocked, NoChange)
        case Allowed(_, _) => Status(ToneOn, BadgeOnline, ChangeUnblocked)
        case _ => Status(ToneOn, BadgeOnline, NoChange)
  }

  // The header and the menu.

  datatype Run = RunBlock | RunUnblock | RunUnblockNow | RunResume
  datatype More = MoreBlock | MoreUnblock
  datatype Item = BlockInternet | Unblock(ruleId: nat) | BlockAgain(ruleId: nat)

  function HeaderRun(group: Group, rules: seq<Rule>, zone: Zone, now: int): Run {
    var blocking := RulesToUnblock(rules, group.id, zone, now);
    if group.suspension.active then (if blocking != [] then RunUnblock else RunUnblockNow)
    else if blocking != [] then RunUnblock
    else if GroupUnblock(rules, group.id, now).Some? then RunResume
    else RunBlock
  }

  function HeaderMore(group: Group, rules: seq<Rule>, zone: Zone, now: int): Option<More> {
    var unblock := GroupUnblock(rules, group.id, now);
    if group.suspension.active then (if group.suspension.until.Some? then Some(MoreBlock) else None)
    else if RulesToUnblock(rules, group.id, zone, now) == [] && unblock.Some? && unblock.value.Some? then Some(MoreUnblock)
    else None
  }

  predicate Applies(r: Rule, g: nat, now: int) {
    Scoped(r, g) && r.builtIn == Own && r.enabled && !RulePaused(r, now)
  }

  function Applying(rules: seq<Rule>, g: nat, now: int): seq<Rule> {
    if rules == [] then []
    else if Applies(rules[0], g, now) then [rules[0]] + Applying(rules[1..], g, now)
    else Applying(rules[1..], g, now)
  }

  predicate HasId(s: seq<Blocking>, id: nat) {
    exists k :: 0 <= k < |s| && s[k].ruleId == id
  }

  /** A category, app or website rule blocks the group now or is lifted for it alone. */
  predicate Shown(scoped: seq<Rule>, blocking: seq<Blocking>, g: nat, now: int) {
    exists k :: 0 <= k < |scoped| && scoped[k].kind != Internet && (HasId(blocking, scoped[k].id) || GroupLift(scoped[k], g, now).Some?)
  }

  function Unblocks(s: seq<Blocking>, skip: Option<nat>): seq<Item> {
    if s == [] then []
    else if skip == Some(s[0].ruleId) then Unblocks(s[1..], skip)
    else [Unblock(s[0].ruleId)] + Unblocks(s[1..], skip)
  }

  function Agains(scoped: seq<Rule>, g: nat, now: int): seq<Item> {
    if scoped == [] then []
    else if PausedFor(scoped[0], g, now) then [BlockAgain(scoped[0].id)] + Agains(scoped[1..], g, now)
    else Agains(scoped[1..], g, now)
  }

  function Ordered(blocking: seq<Blocking>, standing: set<nat>): seq<Blocking> {
    Pick(blocking, LiftedInternet, standing) + Pick(blocking, LiftedOther, standing) + Pick(blocking, Standing, standing)
  }

  function SameAsButton(group: Group, lifted: seq<Blocking>): Option<nat> {
    if !group.suspension.active && |lifted| == 1 then Some(lifted[0].ruleId) else None
  }

  function Menu(group: Group, rules: seq<Rule>, run: Run, zone: Zone, now: int): seq<Item> {
    var scoped := Applying(rules, group.id, now);
    var blocking := RulesBlockingGroup(rules, group.id, zone, now);
    var standing := StandingIds(rules);
    if !Shown(scoped, blocking, group.id, now) then []
    else
      (if !(group.suspension.active || AnyInternet(blocking)) && run != RunBlock then [BlockInternet] else [])
      + Unblocks(Ordered(blocking, standing), SameAsButton(group, Pick(blocking, Lifted, standing)))
      + Agains(scoped, group.id, now)
  }

  method GroupMenu(group: Group, rules: seq<Rule>, run: Run, zone: Zone, now: int) returns (items: seq<Item>)
    ensures items == Menu(group, rules, run, zone, now)
  {
    var scoped := Applying(rules, group.id, now);
    var blocking := RulesBlockingGroup(rules, group.id, zone, now);
    if !Shown(scoped, blocking, group.id, now) { return []; }
    items := [];
    if !(group.suspension.active || AnyInternet(blocking)) && run != RunBlock { items := [BlockInternet]; }
    var standing := StandingIds(rules);
    var lifted := Pick(blocking, Lifted, standing);
    var ordered := Ordered(blocking, standing);
    var sameAsButton := SameAsButton(group, lifted);
    var unblocks := UnblockItems(ordered, sameAsButton);
    var agains := AgainItems(scoped, group.id, now);
    items := items + unblocks + agains;
  }

  method UnblockItems(ordered: seq<Blocking>, skip: Option<nat>) returns (items: seq<Item>)
    ensures items == Unblocks(ordered, skip)
  {
    items := [];
    for k := 0 to |ordered|
      invariant items + Unblocks(ordered[k..], skip) == Unblocks(ordered, skip)
    {
      assert ordered[k..][1..] == ordered[k + 1..];
      if skip != Some(ordered[k].ruleId) { items := items + [Unblock(ordered[k].ruleId)]; }
    }
  }

  method AgainItems(scoped: seq<Rule>, g: nat, now: int) returns (items: seq<Item>)
    ensures items == Agains(scoped, g, now)
  {
    items := [];
    for k := 0 to |scoped|
      invariant items + Agains(scoped[k..], g, now) == Agains(scoped, g, now)
    {
      assert scoped[k..][1..] == scoped[k + 1..];
      if PausedFor(scoped[k], g, now) { items := items + [BlockAgain(scoped[k].id)]; }
    }
  }

  // What the lists hold.

  ghost predicate Unique(rules: seq<Rule>) {
    forall i, j :: 0 <= i < j < |rules| ==> rules[i].id != rules[j].id
  }

  /** The server gives no built-in internet rule to a group. */
  ghost predicate Ordinary(rules: seq<Rule>) {
    forall r :: r in rules && r.byGroup && r.kind == Internet ==> r.builtIn == Own
  }

  ghost predicate Blocks(r: Rule, b: Blocking, g: nat, zone: Zone, now: int) {
    Scoped(r, g) && Stops(r, g, zone, now) && b == BlockingOf(r, zone, now)
  }

  lemma {:induction false} FoundAre(rules: seq<Rule>, g: nat, zone: Zone, now: int, x: Keyed<Blocking>)
    ensures x in Found(rules, g, zone, now) <==> x.key == Lasts(x.item.until) && exists r :: r in rules && Blocks(r, x.item, g, zone, now)
  {
    if rules != [] {
      var rest := rules[1..];
      FoundAre(rest, g, zone, now, x);
      assert rules == [rules[0]] + rest;
      if Scoped(rules[0], g) && Stops(rules[0], g, zone, now) {
        var b := BlockingOf(rules[0], zone, now);
        assert x in Found(rules, g, zone, now) <==> x == Keyed(Lasts(b.until), b) || x in Found(rest, g, zone, now);
        if x.item == b { assert rules[0] in rules && Blocks(rules[0], x.item, g, zone, now); }
      }
      if exists r :: r in rest && Blocks(r, x.item, g, zone, now) {
        var r :| r in rest && Blocks(r, x.item, g, zone, now);
        assert r in rules;
      }
      if exists r :: r in rules && Blocks(r, x.item, g, zone, now) {
        var r :| r in rules && Blocks(r, x.item, g, zone, now);
        assert r == rules[0] || r in rest;
      }
    }
  }

  lemma {:induction false} ItemsAre(s: seq<Keyed<Blocking>>, b: Blocking)
    ensures b in Items(s) <==> exists x :: x in s && x.item == b
  {
    if s != [] {
      ItemsAre(s[1..], b);
      assert s == [s[0]] + s[1..];
      if b in Items(s[1..]) {
        var x :| x in s[1..] && x.item == b;
        assert x in s;
      }
      if b == s[0].item { assert s[0] in s; }
    }
  }

  lemma {:induction false} ItemsInOrder(s: seq<Keyed<Blocking>>)
    requires forall k :: 0 <= k < |s| ==> s[k].key == Lasts(s[k].item.until)
    ensures |Items(s)| == |s| && forall k :: 0 <= k < |s| ==> Items(s)[k] == s[k].item
  {
    if s != [] { ItemsInOrder(s[1..]); }
  }

  /** The list holds exactly the rules that block the group, each as its windows say, longest first. */
  lemma BlockingAre(rules: seq<Rule>, g: nat, zone: Zone, now: int, b: Blocking)
    ensures b in RulesBlockingGroup(rules, g, zone, now) <==> exists r :: r in rules && Blocks(r, b, g, zone, now)
    ensures
      var blocking := RulesBlockingGroup(rules, g, zone, now);
      forall i, j :: 0 <= i < j < |blocking| ==> EndsNoLater(blocking[j].until, blocking[i].until)
  {
    var found := Found(rules, g, zone, now);
    SortOrders(found);
    ItemsAre(Sort(found), b);
    FoundAre(rules, g, zone, now, Keyed(Lasts(b.until), b));
    if b in Items(Sort(found)) {
      var x :| x in Sort(found) && x.item == b;
      FoundAre(rules, g, zone, now, x);
    }
    if exists r :: r in rules && Blocks(r, b, g, zone, now) { assert Keyed(Lasts(b.until), b) in Sort(found); }
    forall k | 0 <= k < |Sort(found)| ensures Sort(found)[k].key == Lasts(Sort(found)[k].item.until) {
      assert Sort(found)[k] in found;
      FoundAre(rules, g, zone, now, Sort(found)[k]);
    }
    ItemsInOrder(Sort(found));
    var blocking := RulesBlockingGroup(rules, g, zone, now);
    forall i, j | 0 <= i < j < |blocking| ensures EndsNoLater(blocking[j].until, blocking[i].until) {
      LastingIsLater(blocking[j].until, blocking[i].until);
    }
  }

  /** Those that last until one time, in their order. */
  function Until(s: seq<Blocking>, last: int): seq<Blocking> {
    if s == [] then []
    else if Lasts(s[0].until) == last then [s[0]] + Until(s[1..], last)
    else Until(s[1..], last)
  }

  lemma {:induction false} ItemsUntil(s: seq<Keyed<Blocking>>, last: int)
    requires forall k :: 0 <= k < |s| ==> s[k].key == Lasts(s[k].item.until)
    ensures Until(Items(s), last) == Items(WithKey(s, last))
  {
    if s != [] {
      ItemsUntil(s[1..], last);
      if s[0].key == last { assert WithKey(s, last)[1..] == WithKey(s[1..], last); }
    }
  }

  /** Rules that block until the same time are listed in the order of the rules. */
  lemma TiesInRuleOrder(rules: seq<Rule>, g: nat, zone: Zone, now: int, last: int)
    ensures Until(RulesBlockingGroup(rules, g, zone, now), last) == Until(Items(Found(rules, g, zone, now)), last)
  {
    var found := Found(rules, g, zone, now);
    SortOrders(found);
    forall x | x in found ensures x.key == Lasts(x.item.until) { FoundAre(rules, g, zone, now, x); }
    forall x | x in Sort(found) ensures x in found { assert x in multiset(Sort(found)); }
    assert forall k :: 0 <= k < |found| ==> found[k] in found;
    assert forall k :: 0 <= k < |Sort(found)| ==> Sort(found)[k] in Sort(found);
    ItemsUntil(found, last);
    ItemsUntil(Sort(found), last);
    SortIsStable(found, last);
  }

  lemma {:induction false} PickIs(s: seq<Blocking>, which: Which, standing: set<nat>, b: Blocking)
    ensures b in Pick(s, which, standing) <==> b in s && Chosen(b, which, standing)
  {
    if s != [] {
      PickIs(s[1..], which, standing, b);
      assert s == [s[0]] + s[1..];
    }
  }

  /** Exactly the blocking rules that are not standing ones. */
  lemma ToUnblockAre(rules: seq<Rule>, g: nat, zone: Zone, now: int, b: Blocking)
    requires Unique(rules)
    ensures b in RulesToUnblock(rules, g, zone, now) <==> exists r :: r in rules && Blocks(r, b, g, zone, now) && !StandingRule(r)
  {
    PickIs(RulesBlockingGroup(rules, g, zone, now), Lifted, StandingIds(rules), b);
    BlockingAre(rules, g, zone, now, b);
    forall r | r in rules && Blocks(r, b, g, zone, now) ensures StandingRule(r) <==> b.ruleId in StandingIds(rules) {
      if b.ruleId in StandingIds(rules) {
        var s :| s in rules && StandingRule(s) && s.id == b.ruleId;
        SameId(rules, r, s);
      }
    }
  }

  lemma SameId(rules: seq<Rule>, r: Rule, s: Rule)
    requires Unique(rules) && r in rules && s in rules && r.id == s.id
    ensures r == s
  {
    var i :| 0 <= i < |rules| && rules[i] == r;
    var j :| 0 <= j < |rules| && rules[j] == s;
    assert i == j;
  }

  // The badge.

  /** Nothing reaches the internet: someone blocked the group, or one of the household's internet rules for
      it is on, lifted for no one, and has a window active. */
  ghost predicate NoInternet(group: Group, rules: seq<Rule>, zone: Zone, now: int) {
    group.suspension.active || exists r :: r in rules && InternetStops(r, group.id, zone, now)
  }

  ghost predicate InternetStops(r: Rule, g: nat, zone: Zone, now: int) {
    Limits(r, g, now) && AnyActive(zone, RuleInternetWindows(r), now)
  }

  lemma InternetStopsIs(r: Rule, g: nat, zone: Zone, now: int)
    ensures r.builtIn == Own ==> (InternetStops(r, g, zone, now) <==> r.kind == Internet && Scoped(r, g) && Stops(r, g, zone, now))
  {
    LiftsAgree(r.groupPauses, g, now);
    ActiveWindowsEndIs(zone, RuleInternetWindows(r), now);
  }

  /** An internet rule is never a standing one, so an unblock lifts it whenever it blocks. */
  lemma InternetIsLifted(rules: seq<Rule>, g: nat, zone: Zone, now: int)
    requires Unique(rules) && Ordinary(rules)
    ensures AnyInternet(RulesToUnblock(rules, g, zone, now)) <==> exists r :: r in rules && InternetStops(r, g, zone, now)
    ensures AnyInternet(RulesBlockingGroup(rules, g, zone, now)) <==> AnyInternet(RulesToUnblock(rules, g, zone, now))
  {
    var all, lifted := RulesBlockingGroup(rules, g, zone, now), RulesToUnblock(rules, g, zone, now);
    if AnyInternet(all) {
      var k :| 0 <= k < |all| && all[k].kind == Internet;
      BlockingAre(rules, g, zone, now, all[k]);
      var r :| r in rules && Blocks(r, all[k], g, zone, now);
      InternetStopsIs(r, g, zone, now);
      ToUnblockAre(rules, g, zone, now, all[k]);
      assert all[k] in lifted;
    }
    if AnyInternet(lifted) {
      var k :| 0 <= k < |lifted| && lifted[k].kind == Internet;
      PickIs(all, Lifted, StandingIds(rules), lifted[k]);
      assert lifted[k] in all;
    }
    if exists r :: r in rules && InternetStops(r, g, zone, now) {
      var r :| r in rules && InternetStops(r, g, zone, now);
      InternetStopsIs(r, g, zone, now);
      BlockingAre(rules, g, zone, now, BlockingOf(r, zone, now));
      assert BlockingOf(r, zone, now) in all;
    }
  }

  /** No window of the group's internet rules is active unless an internet rule blocks it. */
  lemma NoWindowActive(rules: seq<Rule>, g: nat, zone: Zone, now: int)
    requires !exists r :: r in rules && InternetStops(r, g, zone, now)
    ensures forall w :: w in InternetWindowsForGroup(rules, g, now) ==> !IsWindowActive(zone, w, now)
  {
    InternetWindowsAre(rules, g, now);
    forall w | w in InternetWindowsForGroup(rules, g, now) ensures !IsWindowActive(zone, w, now) {
      var r :| r in rules && Limits(r, g, now) && w in RuleInternetWindows(r);
      assert !InternetStops(r, g, zone, now);
    }
  }

  /** The badge says Blocked exactly while the group has no internet, and the last case of the status never
      does. */
  lemma BadgeTellsTheTruth(group: Group, rules: seq<Rule>, zone: Zone, now: int)
    requires Unique(rules) && Ordinary(rules)
    ensures FullStatus(group, rules, zone, now).badge.BadgeBlocked? <==> NoInternet(group, rules, zone, now)
    ensures FullStatus(group, rules, zone, now) != Status(ToneOn, BadgeBlocked, NoChange)
  {
    InternetIsLifted(rules, group.id, zone, now);
    if !NoInternet(group, rules, zone, now) {
      NoWindowActive(rules, group.id, zone, now);
      LongestIs(zone, InternetWindowsForGroup(rules, group.id, now), now);
    }
  }

  // What the line under the name says.

  /** A rule that is not standing blocks the group. */
  ghost predicate SomethingLiftable(rules: seq<Rule>, g: nat, zone: Zone, now: int) {
    exists r, b :: r in rules && Blocks(r, b, g, zone, now) && !StandingRule(r)
  }

  /** An internet rule of the group's that is on and not paused for everyone. */
  predicate OnInternet(r: Rule, g: nat, now: int) {
    Scoped(r, g) && r.kind == Internet && r.enabled && !RulePaused(r, now)
  }

  /** Some internet rule is on for the group, and each one that is is paused for it alone. */
  ghost predicate PausedForItAlone(rules: seq<Rule>, g: nat, now: int) {
    (exists r :: r in rules && OnInternet(r, g, now)) && forall r :: r in rules && OnInternet(r, g, now) ==> PausedFor(r, g, now)
  }

  /** An internet rule of the group's is paused for everyone, and no other one has a window. */
  ghost predicate PausedForAll(rules: seq<Rule>, g: nat, now: int) {
    && (exists r :: r in rules && Scoped(r, g) && r.kind == Internet && r.enabled && RulePaused(r, now))
    && forall r :: r in rules && Limits(r, g, now) ==> RuleInternetWindows(r) == []
  }

  lemma ByIndexOrMember(rules: seq<Rule>, g: nat, now: int)
    ensures InternetPaused(rules, g, now) <==> PausedForItAlone(rules, g, now)
    ensures PausedForEveryone(rules, g, now) <==> exists r :: r in rules && Scoped(r, g) && r.kind == Internet && r.enabled && RulePaused(r, now)
    ensures InternetWindowsForGroup(rules, g, now) == [] <==> forall r :: r in rules && Limits(r, g, now) ==> RuleInternetWindows(r) == []
  {
    assert forall k :: 0 <= k < |rules| ==> rules[k] in rules && (InternetApplies(rules[k], g, now) <==> OnInternet(rules[k], g, now));
    var windows := InternetWindowsForGroup(rules, g, now);
    InternetWindowsAre(rules, g, now);
    if windows != [] { assert windows[0] in windows; }
    forall r | r in rules && Limits(r, g, now) && RuleInternetWindows(r) != [] ensures windows != [] {
      assert RuleInternetWindows(r)[0] in windows;
    }
  }

  /** Someone lifted what the rules do: one of the group's rules is allowed, its internet rules are paused for it
      or for everyone, or it is allowed itself. */
  ghost predicate SomethingLifted(group: Group, rules: seq<Rule>, now: int) {
    || (exists r :: r in rules && Allowed(r, group.id, now))
    || PausedForItAlone(rules, group.id, now) || PausedForAll(rules, group.id, now)
    || Running(group.allowance.active, group.allowance.until, now)
  }

  lemma QuietStatus(group: Group, rules: seq<Rule>, zone: Zone, now: int)
    requires !group.suspension.active && RulesToUnblock(rules, group.id, zone, now) == []
    requires !exists r :: r in rules && InternetStops(r, group.id, zone, now)
    ensures FullStatus(group, rules, zone, now) == Status(ToneOn, BadgeOnline, if SomethingLifted(group, rules, now) then ChangeUnblocked else NoChange)
  {
    var g := group.id;
    assert !AnyInternet([]);
    UnblockIsTheLast(rules, g, now);
    ByIndexOrMember(rules, g, now);
    var windows := InternetWindowsForGroup(rules, g, now);
    NoWindowActive(rules, g, zone, now);
    StateSays(zone, group.suspension, group.allowance, windows, now);
  }

  /** The line's tone says what limits the group: its own block, else an internet rule, else some other rule an
      unblock would lift; and its colour says what someone changed: a block, else a lift, while nothing an unblock
      would lift blocks the group. */
  lemma StatusSays(group: Group, rules: seq<Rule>, zone: Zone, now: int)
    requires Unique(rules) && Ordinary(rules)
    ensures
      var g, status := group.id, FullStatus(group, rules, zone, now);
      var offline := exists r :: r in rules && InternetStops(r, g, zone, now);
      var liftable := SomethingLiftable(rules, g, zone, now);
      && status.tone == (if group.suspension.active then TonePaused else if offline then ToneOff else if liftable then ToneRule else ToneOn)
      && status.change == (if group.suspension.active then ChangeBlocked
                           else if !liftable && SomethingLifted(group, rules, now) then ChangeUnblocked else NoChange)
  {
    var g := group.id;
    LiftableIs(rules, g, zone, now);
    InternetIsLifted(rules, g, zone, now);
    if !group.suspension.active && RulesToUnblock(rules, g, zone, now) == [] { QuietStatus(group, rules, zone, now); }
  }

  lemma LiftableIs(rules: seq<Rule>, g: nat, zone: Zone, now: int)
    requires Unique(rules)
    ensures RulesToUnblock(rules, g, zone, now) != [] <==> SomethingLiftable(rules, g, zone, now)
  {
    var lifted := RulesToUnblock(rules, g, zone, now);
    if lifted != [] {
      ToUnblockAre(rules, g, zone, now, lifted[0]);
      assert lifted[0] in lifted;
    }
    forall r, b | r in rules && Blocks(r, b, g, zone, now) && !StandingRule(r) ensures b in lifted { ToUnblockAre(rules, g, zone, now, b); }
  }

  /** A built-in rule is protection, never a block on a group, and Lock DNS counts for nothing on its card. */
  lemma BuiltInIsNoBlock(r: Rule, g: nat, zone: Zone, now: int)
    ensures r.builtIn != Own ==> forall b :: !Blocks(r, b, g, zone, now)
    ensures r.builtIn == LockDns ==> !Allowed(r, g, now) && !OnInternet(r, g, now) && !Limits(r, g, now) && !OwnOn(r, g, now)
  {
  }

  /** The button unblocks exactly while there is something it would lift, always while the badge says
      Blocked; it resumes or blocks only while the group has the internet. */
  lemma ButtonFollowsBadge(group: Group, rules: seq<Rule>, zone: Zone, now: int)
    requires Unique(rules) && Ordinary(rules)
    ensures
      var run := HeaderRun(group, rules, zone, now);
      var badge := FullStatus(group, rules, zone, now).badge;
      && (run.RunUnblock? <==> exists r, b :: r in rules && Blocks(r, b, group.id, zone, now) && !StandingRule(r))
      && (run.RunUnblock? || run.RunUnblockNow? <== badge.BadgeBlocked?)
      && (run.RunResume? || run.RunBlock? ==> badge.BadgeOnline?)
  {
    var lifted := RulesToUnblock(rules, group.id, zone, now);
    BadgeTellsTheTruth(group, rules, zone, now);
    InternetIsLifted(rules, group.id, zone, now);
    if lifted != [] { ToUnblockAre(rules, group.id, zone, now, lifted[0]); assert lifted[0] in lifted; }
    forall r, b | r in rules && Blocks(r, b, group.id, zone, now) && !StandingRule(r) ensures b in lifted {
      ToUnblockAre(rules, group.id, zone, now, b);
    }
  }

  /** One of the group's rules is allowed for it now. */
  predicate Allowed(r: Rule, g: nat, now: int) {
    Scoped(r, g) && r.enabled && GroupLift(r, g, now).Some? && GroupLift(r, g, now).value.allow
  }

  function AllowedUntil(r: Rule, g: nat, now: int): Option<int>
    requires Allowed(r, g, now)
  {
    GroupLift(r, g, now).value.lift.until
  }

  ghost predicate AllowsUntil(r: Rule, g: nat, now: int, end: Option<int>) {
    Allowed(r, g, now) && AllowedUntil(r, g, now) == end
  }

  lemma {:induction false} AllowancesAre(rules: seq<Rule>, g: nat, now: int, end: Option<int>)
    ensures end in Allowances(rules, g, now) <==> exists r :: r in rules && AllowsUntil(r, g, now, end)
  {
    if rules != [] {
      var rest := rules[1..];
      AllowancesAre(rest, g, now, end);
      assert rules == [rules[0]] + rest;
      if AllowsUntil(rules[0], g, now, end) { assert rules[0] in rules; }
      if r :| r in rest && AllowsUntil(r, g, now, end) { assert r in rules; }
      if r :| r in rules && AllowsUntil(r, g, now, end) { assert r == rules[0] || r in rest; }
    }
  }

  /** The group's unblock lasts until the last of the allowances of its rules ends, for good when one does. */
  lemma UnblockIsTheLast(rules: seq<Rule>, g: nat, now: int)
    ensures
      match GroupUnblock(rules, g, now)
      case None => forall r :: r in rules ==> !Allowed(r, g, now)
      case Some(end) =>
        && (exists r :: r in rules && AllowsUntil(r, g, now, end))
        && forall r :: r in rules && Allowed(r, g, now) ==> Outlasts(end, AllowedUntil(r, g, now))
  {
    var ends := Allowances(rules, g, now);
    forall end ensures end in ends <==> exists r :: r in rules && AllowsUntil(r, g, now, end) { AllowancesAre(rules, g, now, end); }
    forall r | r in rules && Allowed(r, g, now) ensures AllowedUntil(r, g, now) in ends { assert AllowsUntil(r, g, now, AllowedUntil(r, g, now)); }
    if ends != [] && None !in ends {
      forall k | 0 <= k < |ends| ensures ends[k].Some? { assert ends[k] in ends; }
      LatestIs(ends);
    }
    if ends != [] { assert ends[0] in ends; }
  }

  /** Which button shows, by the rules and the group alone: Unblock while a rule that is not standing blocks it,
      and otherwise Unblock now while someone blocks it, Resume while one of its rules is allowed, and
      Block. */
  lemma ButtonIs(group: Group, rules: seq<Rule>, zone: Zone, now: int)
    requires Unique(rules)
    ensures
      var run := HeaderRun(group, rules, zone, now);
      var blocked := exists r, b :: r in rules && Blocks(r, b, group.id, zone, now) && !StandingRule(r);
      var allowed := exists r :: r in rules && Allowed(r, group.id, now);
      && (run.RunUnblock? <==> blocked)
      && (run.RunUnblockNow? <==> !blocked && group.suspension.active)
      && (run.RunResume? <==> !blocked && !group.suspension.active && allowed)
      && (run.RunBlock? <==> !blocked && !group.suspension.active && !allowed)
  {
    var g := group.id;
    var lifted := RulesToUnblock(rules, g, zone, now);
    if lifted != [] {
      ToUnblockAre(rules, g, zone, now, lifted[0]);
      assert lifted[0] in lifted;
    }
    forall r, b | r in rules && Blocks(r, b, g, zone, now) && !StandingRule(r) ensures b in lifted { ToUnblockAre(rules, g, zone, now, b); }
    UnblockIsTheLast(rules, g, now);
  }

  /** More time is offered for a block while a timed one lasts; and for an unblock exactly while no one blocks
      the group, nothing an unblock would lift blocks it, and its allowances, of which there is one, all end. */
  lemma MoreIsTimed(group: Group, rules: seq<Rule>, zone: Zone, now: int)
    requires Unique(rules)
    ensures HeaderMore(group, rules, zone, now) == Some(MoreBlock) ==> group.suspension.active && group.suspension.until.Some?
    ensures
      HeaderMore(group, rules, zone, now) == Some(MoreUnblock) <==>
        (&& !group.suspension.active
         && (forall r, b :: r in rules && Blocks(r, b, group.id, zone, now) ==> StandingRule(r))
         && (exists r :: r in rules && Allowed(r, group.id, now))
         && forall r :: r in rules && Allowed(r, group.id, now) ==> AllowedUntil(r, group.id, now).Some?)
  {
    var g := group.id;
    var lifted := RulesToUnblock(rules, g, zone, now);
    if lifted != [] {
      ToUnblockAre(rules, g, zone, now, lifted[0]);
      assert lifted[0] in lifted;
    }
    forall r, b | r in rules && Blocks(r, b, g, zone, now) && !StandingRule(r) ensures b in lifted { ToUnblockAre(rules, g, zone, now, b); }
    UnblockIsTheLast(rules, g, now);
  }

  // The menu.

  /** One of the household's own rules for the group, on and not paused for everyone. */
  predicate OwnOn(r: Rule, g: nat, now: int) {
    r.byGroup && g in r.groupIds && r.builtIn == Own && r.enabled && !RulePaused(r, now)
  }

  /** A category, app or website rule blocks the group now or is lifted for it alone: what brings the menu out. */
  ghost predicate BringsMenu(rules: seq<Rule>, g: nat, zone: Zone, now: int) {
    exists r :: r in rules && OwnOn(r, g, now) && r.kind != Internet && ((exists b :: Blocks(r, b, g, zone, now)) || GroupLift(r, g, now).Some?)
  }

  lemma {:induction false} UnblocksAre(s: seq<Blocking>, skip: Option<nat>, id: nat)
    ensures Unblock(id) in Unblocks(s, skip) <==> HasId(s, id) && skip != Some(id)
    ensures BlockInternet !in Unblocks(s, skip) && BlockAgain(id) !in Unblocks(s, skip)
  {
    if s != [] {
      UnblocksAre(s[1..], skip, id);
      if HasId(s[1..], id) {
        var k :| 0 <= k < |s[1..]| && s[1..][k].ruleId == id;
        assert s[k + 1].ruleId == id;
      }
      if HasId(s, id) && s[0].ruleId != id {
        var k :| 0 <= k < |s| && s[k].ruleId == id;
        assert s[1..][k - 1].ruleId == id;
      }
    }
  }

  lemma {:induction false} AgainsAre(scoped: seq<Rule>, g: nat, now: int, id: nat)
    ensures BlockAgain(id) in Agains(scoped, g, now) <==> exists r :: r in scoped && r.id == id && PausedFor(r, g, now)
    ensures BlockInternet !in Agains(scoped, g, now) && Unblock(id) !in Agains(scoped, g, now)
  {
    if scoped != [] {
      var rest := scoped[1..];
      AgainsAre(rest, g, now, id);
      assert scoped == [scoped[0]] + rest;
      if exists r :: r in rest && r.id == id && PausedFor(r, g, now) {
        var r :| r in rest && r.id == id && PausedFor(r, g, now);
        assert r in scoped;
      }
      if exists r :: r in scoped && r.id == id && PausedFor(r, g, now) {
        var r :| r in scoped && r.id == id && PausedFor(r, g, now);
        assert r == scoped[0] || r in rest;
      }
    }
  }

  lemma {:induction false} ApplyingAre(rules: seq<Rule>, g: nat, now: int, r: Rule)
    ensures r in Applying(rules, g, now) <==> r in rules && Applies(r, g, now)
  {
    if rules != [] {
      ApplyingAre(rules[1..], g, now, r);
      assert rules == [rules[0]] + rules[1..];
    }
  }

  lemma OrderedHas(blocking: seq<Blocking>, standing: set<nat>, b: Blocking)
    ensures b in Ordered(blocking, standing) <==> b in blocking
  {
    PickIs(blocking, LiftedInternet, standing, b);
    PickIs(blocking, LiftedOther, standing, b);
    PickIs(blocking, Standing, standing, b);
  }

  lemma OrderedHasId(blocking: seq<Blocking>, standing: set<nat>, id: nat)
    ensures HasId(Ordered(blocking, standing), id) <==> HasId(blocking, id)
  {
    var ordered := Ordered(blocking, standing);
    if HasId(ordered, id) {
      var k :| 0 <= k < |ordered| && ordered[k].ruleId == id;
      OrderedHas(blocking, standing, ordered[k]);
      assert ordered[k] in blocking;
    }
    if HasId(blocking, id) {
      var k :| 0 <= k < |blocking| && blocking[k].ruleId == id;
      OrderedHas(blocking, standing, blocking[k]);
      assert blocking[k] in ordered;
    }
  }

  lemma HasIdIs(rules: seq<Rule>, g: nat, zone: Zone, now: int, r: Rule)
    requires Unique(rules) && r in rules
    ensures HasId(RulesBlockingGroup(rules, g, zone, now), r.id) <==> exists b :: Blocks(r, b, g, zone, now)
  {
    var blocking := RulesBlockingGroup(rules, g, zone, now);
    if HasId(blocking, r.id) {
      var k :| 0 <= k < |blocking| && blocking[k].ruleId == r.id;
      BlockingAre(rules, g, zone, now, blocking[k]);
      var s :| s in rules && Blocks(s, blocking[k], g, zone, now);
      SameId(rules, r, s);
    }
    if b :| Blocks(r, b, g, zone, now) {
      BlockingAre(rules, g, zone, now, b);
      var k :| 0 <= k < |blocking| && blocking[k] == b;
      assert blocking[k].ruleId == r.id;
    }
  }

  lemma ShownIs(rules: seq<Rule>, g: nat, zone: Zone, now: int)
    requires Unique(rules)
    ensures Shown(Applying(rules, g, now), RulesBlockingGroup(rules, g, zone, now), g, now) <==> BringsMenu(rules, g, zone, now)
  {
    var scoped, blocking := Applying(rules, g, now), RulesBlockingGroup(rules, g, zone, now);
    if Shown(scoped, blocking, g, now) {
      var k :| 0 <= k < |scoped| && scoped[k].kind != Internet && (HasId(blocking, scoped[k].id) || GroupLift(scoped[k], g, now).Some?);
      var r := scoped[k];
      assert r in scoped;
      ApplyingAre(rules, g, now, r);
      HasIdIs(rules, g, zone, now, r);
    }
    if r :| r in rules && OwnOn(r, g, now) && r.kind != Internet && ((exists b :: Blocks(r, b, g, zone, now)) || GroupLift(r, g, now).Some?) {
      ApplyingAre(rules, g, now, r);
      HasIdIs(rules, g, zone, now, r);
      var k :| 0 <= k < |scoped| && scoped[k] == r;
      assert scoped[k].kind != Internet;
    }
  }

  /** What the menu holds, once a rule brings it out: for each blocking rule an Unblock, unless the button lifts
      that rule and nothing else; for each of the household's rules paused for the group a Block again; and Block
      internet exactly while the group has the internet and the button is not Block. Otherwise it is empty. */
  lemma MenuHolds(group: Group, rules: seq<Rule>, run: Run, zone: Zone, now: int, id: nat)
    requires Unique(rules) && Ordinary(rules)
    ensures
      var menu := Menu(group, rules, run, zone, now);
      var lifted := RulesToUnblock(rules, group.id, zone, now);
      if !BringsMenu(rules, group.id, zone, now) then menu == []
      else
        && (Unblock(id) in menu <==>
              && HasId(RulesBlockingGroup(rules, group.id, zone, now), id)
              && !(!group.suspension.active && |lifted| == 1 && lifted[0].ruleId == id))
        && (BlockAgain(id) in menu <==> exists r :: r in rules && r.id == id && OwnOn(r, group.id, now) && PausedFor(r, group.id, now))
  {
    var g := group.id;
    var scoped := Applying(rules, g, now);
    var blocking := RulesBlockingGroup(rules, g, zone, now);
    ShownIs(rules, g, zone, now);
    OrderedHasId(blocking, StandingIds(rules), id);
    UnblocksAre(Ordered(blocking, StandingIds(rules)), SameAsButton(group, RulesToUnblock(rules, g, zone, now)), id);
    AgainsAre(scoped, g, now, id);
    forall r ensures r in scoped <==> r in rules && OwnOn(r, g, now) { ApplyingAre(rules, g, now, r); }
  }

  lemma MenuOffersBlock(group: Group, rules: seq<Rule>, run: Run, zone: Zone, now: int)
    requires Unique(rules) && Ordinary(rules)
    ensures BlockInternet in Menu(group, rules, run, zone, now) <==>
              BringsMenu(rules, group.id, zone, now) && FullStatus(group, rules, zone, now).badge.BadgeOnline? && run != RunBlock
  {
    var blocking := RulesBlockingGroup(rules, group.id, zone, now);
    ShownIs(rules, group.id, zone, now);
    UnblocksAre(Ordered(blocking, StandingIds(rules)), SameAsButton(group, RulesToUnblock(rules, group.id, zone, now)), 0);
    AgainsAre(Applying(rules, group.id, now), group.id, now, 0);
    BadgeTellsTheTruth(group, rules, zone, now);
    InternetIsLifted(rules, group.id, zone, now);
  }

  /** A category, app or website rule that blocks the group, or is lifted for it, brings the menu out. */
  lemma MenuIsShown(group: Group, rules: seq<Rule>, run: Run, zone: Zone, now: int, r: Rule, b: Blocking)
    requires r in rules && r.kind != Internet && Blocks(r, b, group.id, zone, now)
    ensures Shown(Applying(rules, group.id, now), RulesBlockingGroup(rules, group.id, zone, now), group.id, now)
  {
    var scoped, blocking := Applying(rules, group.id, now), RulesBlockingGroup(rules, group.id, zone, now);
    ApplyingAre(rules, group.id, now, r);
    BlockingAre(rules, group.id, zone, now, b);
    var k :| 0 <= k < |scoped| && scoped[k] == r;
    var j :| 0 <= j < |blocking| && blocking[j] == b;
    assert HasId(blocking, scoped[k].id);
  }

  /** Whatever blocks the group can be lifted from its card: the button lifts it, or the menu lists it. */
  lemma EveryBlockCanBeLifted(group: Group, rules: seq<Rule>, zone: Zone, now: int, b: Blocking)
    requires Unique(rules) && Ordinary(rules) && b in RulesBlockingGroup(rules, group.id, zone, now)
    ensures
      var run := HeaderRun(group, rules, zone, now);
      || (run.RunUnblock? && b in RulesToUnblock(rules, group.id, zone, now))
      || Unblock(b.ruleId) in Menu(group, rules, run, zone, now)
  {
    var run := HeaderRun(group, rules, zone, now);
    BlockingAre(rules, group.id, zone, now, b);
    var r :| r in rules && Blocks(r, b, group.id, zone, now);
    ToUnblockAre(rules, group.id, zone, now, b);
    if StandingRule(r) {
      var blocking, standing := RulesBlockingGroup(rules, group.id, zone, now), StandingIds(rules);
      MenuIsShown(group, rules, run, zone, now, r, b);
      var k :| 0 <= k < |blocking| && blocking[k] == b;
      assert HasId(blocking, b.ruleId) && b.ruleId in standing;
      OrderedHasId(blocking, standing, b.ruleId);
      var lifted := Pick(blocking, Lifted, standing);
      if lifted != [] { PickIs(blocking, Lifted, standing, lifted[0]); }
      UnblocksAre(Ordered(blocking, standing), SameAsButton(group, lifted), b.ruleId);
    }
  }

  // No rule twice.

  predicate NoRepeat(ids: seq<nat>) {
    ids == [] || (ids[0] !in ids[1..] && NoRepeat(ids[1..]))
  }

  function IdsOf(items: seq<Item>): seq<nat> {
    if items == [] then []
    else if items[0].BlockInternet? then IdsOf(items[1..])
    else [items[0].ruleId] + IdsOf(items[1..])
  }

  function BlockingIds(s: seq<Blocking>): seq<nat> {
    if s == [] then [] else [s[0].ruleId] + BlockingIds(s[1..])
  }

  lemma {:induction false} NoRepeatJoins(a: seq<nat>, b: seq<nat>)
    ensures NoRepeat(a + b) <==> NoRepeat(a) && NoRepeat(b) && forall x :: x in a ==> x !in b
  {
    if a == [] {
      assert a + b == b;
    } else {
      assert (a + b)[1..] == a[1..] + b;
      NoRepeatJoins(a[1..], b);
      assert a == [a[0]] + a[1..];
    }
  }

  lemma {:induction false} IdsOfJoins(a: seq<Item>, b: seq<Item>)
    ensures IdsOf(a + b) == IdsOf(a) + IdsOf(b)
  {
    if a == [] {
      assert a + b == b;
    } else {
      assert (a + b)[1..] == a[1..] + b;
      IdsOfJoins(a[1..], b);
    }
  }

  lemma {:induction false} BlockingIdsJoin(a: seq<Blocking>, b: seq<Blocking>)
    ensures BlockingIds(a + b) == BlockingIds(a) + BlockingIds(b)
  {
    if a == [] {
      assert a + b == b;
    } else {
      assert (a + b)[1..] == a[1..] + b;
      BlockingIdsJoin(a[1..], b);
    }
  }

  lemma {:induction false} BlockingIdsAre(s: seq<Blocking>, id: nat)
    ensures id in BlockingIds(s) <==> HasId(s, id)
  {
    if s != [] {
      BlockingIdsAre(s[1..], id);
      if HasId(s[1..], id) {
        var k :| 0 <= k < |s[1..]| && s[1..][k].ruleId == id;
        assert s[k + 1].ruleId == id;
      }
      if HasId(s, id) && s[0].ruleId != id {
        var k :| 0 <= k < |s| && s[k].ruleId == id;
        assert s[1..][k - 1].ruleId == id;
      }
    }
  }

  /** A rule found to block has one of the rules' ids. */
  lemma {:induction false} FoundOnce(rules: seq<Rule>, g: nat, zone: Zone, now: int)
    requires Unique(rules)
    ensures NoRepeat(BlockingIds(Items(Found(rules, g, zone, now))))
    ensures forall id :: id in BlockingIds(Items(Found(rules, g, zone, now))) ==> exists r :: r in rules && r.id == id
  {
    if rules != [] {
      var rest := rules[1..];
      FoundOnce(rest, g, zone, now);
      assert rules == [rules[0]] + rest;
      var tail := BlockingIds(Items(Found(rest, g, zone, now)));
      assert forall r :: r in rest ==> r.id != rules[0].id;
      assert rules[0].id !in tail;
      forall id | id in BlockingIds(Items(Found(rules, g, zone, now))) ensures exists r :: r in rules && r.id == id {
        if id == rules[0].id {
          assert rules[0] in rules;
        } else {
          assert id in tail;
          var r :| r in rest && r.id == id;
          assert r in rules;
        }
      }
    }
  }

  /** Inserting moves no id in or out. */
  lemma {:induction false} InsertIds(x: Keyed<Blocking>, s: seq<Keyed<Blocking>>)
    ensures forall id :: id in BlockingIds(Items(Insert(x, s))) <==> id == x.item.ruleId || id in BlockingIds(Items(s))
    ensures NoRepeat(BlockingIds(Items(s))) && x.item.ruleId !in BlockingIds(Items(s)) ==> NoRepeat(BlockingIds(Items(Insert(x, s))))
  {
    if s != [] && x.key < s[0].key {
      InsertIds(x, s[1..]);
    }
  }

  lemma {:induction false} SortIds(s: seq<Keyed<Blocking>>)
    ensures forall id :: id in BlockingIds(Items(Sort(s))) <==> id in BlockingIds(Items(s))
    ensures NoRepeat(BlockingIds(Items(s))) ==> NoRepeat(BlockingIds(Items(Sort(s))))
  {
    if s != [] {
      SortIds(s[1..]);
      InsertIds(s[0], Sort(s[1..]));
    }
  }

  lemma {:induction false} PickIds(s: seq<Blocking>, which: Which, standing: set<nat>)
    ensures forall id :: id in BlockingIds(Pick(s, which, standing)) ==> id in BlockingIds(s)
    ensures NoRepeat(BlockingIds(s)) ==> NoRepeat(BlockingIds(Pick(s, which, standing)))
  {
    if s != [] { PickIds(s[1..], which, standing); }
  }

  /** Two different choices share no id. */
  lemma {:induction false} PicksApart(s: seq<Blocking>, a: Which, b: Which, standing: set<nat>)
    requires NoRepeat(BlockingIds(s)) && (forall x :: !(Chosen(x, a, standing) && Chosen(x, b, standing)))
    ensures forall id :: id in BlockingIds(Pick(s, a, standing)) ==> id !in BlockingIds(Pick(s, b, standing))
  {
    if s != [] {
      PicksApart(s[1..], a, b, standing);
      PickIds(s[1..], a, standing);
      PickIds(s[1..], b, standing);
    }
  }

  lemma OrderedOnce(s: seq<Blocking>, standing: set<nat>)
    requires NoRepeat(BlockingIds(s))
    ensures NoRepeat(BlockingIds(Ordered(s, standing)))
  {
    var x, y, z := Pick(s, LiftedInternet, standing), Pick(s, LiftedOther, standing), Pick(s, Standing, standing);
    PickIds(s, LiftedInternet, standing);
    PickIds(s, LiftedOther, standing);
    PickIds(s, Standing, standing);
    PicksApart(s, LiftedInternet, LiftedOther, standing);
    PicksApart(s, LiftedInternet, Standing, standing);
    PicksApart(s, LiftedOther, Standing, standing);
    BlockingIdsJoin(x, y);
    BlockingIdsJoin(x + y, z);
    NoRepeatJoins(BlockingIds(x), BlockingIds(y));
    NoRepeatJoins(BlockingIds(x + y), BlockingIds(z));
  }

  lemma {:induction false} UnblocksOnce(s: seq<Blocking>, skip: Option<nat>)
    ensures NoRepeat(BlockingIds(s)) ==> NoRepeat(IdsOf(Unblocks(s, skip)))
    ensures forall id :: id in IdsOf(Unblocks(s, skip)) ==> id in BlockingIds(s)
  {
    if s != [] { UnblocksOnce(s[1..], skip); }
  }

  lemma {:induction false} AgainsOnce(rules: seq<Rule>, g: nat, now: int)
    requires Unique(rules)
    ensures NoRepeat(IdsOf(Agains(Applying(rules, g, now), g, now)))
    ensures forall id :: id in IdsOf(Agains(Applying(rules, g, now), g, now)) ==>
              exists r :: r in rules && r.id == id && PausedFor(r, g, now)
  {
    if rules != [] {
      var rest := rules[1..];
      AgainsOnce(rest, g, now);
      assert rules == [rules[0]] + rest;
      var tail := Agains(Applying(rest, g, now), g, now);
      assert forall r :: r in rest ==> r.id != rules[0].id;
      if Applies(rules[0], g, now) { assert Applying(rules, g, now)[1..] == Applying(rest, g, now); }
      forall id | id in IdsOf(Agains(Applying(rules, g, now), g, now)) ensures exists r :: r in rules && r.id == id && PausedFor(r, g, now) {
        if id in IdsOf(tail) {
          var r :| r in rest && r.id == id && PausedFor(r, g, now);
          assert r in rules;
        } else {
          assert rules[0] in rules;
        }
      }
    }
  }

  /** No rule appears twice in the menu, nor both as Unblock and as Block again. */
  lemma MenuNamesEachRuleOnce(group: Group, rules: seq<Rule>, run: Run, zone: Zone, now: int)
    requires Unique(rules)
    ensures NoRepeat(IdsOf(Menu(group, rules, run, zone, now)))
  {
    var blocking, standing := RulesBlockingGroup(rules, group.id, zone, now), StandingIds(rules);
    var unblocks := Unblocks(Ordered(blocking, standing), SameAsButton(group, Pick(blocking, Lifted, standing)));
    var agains := Agains(Applying(rules, group.id, now), group.id, now);
    RuleItemsOnce(group, rules, SameAsButton(group, Pick(blocking, Lifted, standing)), zone, now);
    WithBlockInternet(unblocks, agains);
  }

  lemma WithBlockInternet(a: seq<Item>, b: seq<Item>)
    ensures IdsOf([] + a + b) == IdsOf(a) + IdsOf(b) && IdsOf([BlockInternet] + a + b) == IdsOf(a) + IdsOf(b)
  {
    IdsOfJoins(a, b);
    assert [] + a + b == a + b;
    assert [BlockInternet] + a + b == [BlockInternet] + (a + b);
    assert ([BlockInternet] + (a + b))[1..] == a + b;
  }

  lemma RuleItemsOnce(group: Group, rules: seq<Rule>, skip: Option<nat>, zone: Zone, now: int)
    requires Unique(rules)
    ensures
      var ordered := Ordered(RulesBlockingGroup(rules, group.id, zone, now), StandingIds(rules));
      NoRepeat(IdsOf(Unblocks(ordered, skip)) + IdsOf(Agains(Applying(rules, group.id, now), group.id, now)))
  {
    var g := group.id;
    var ordered := Ordered(RulesBlockingGroup(rules, g, zone, now), StandingIds(rules));
    var unblocks, agains := Unblocks(ordered, skip), Agains(Applying(rules, g, now), g, now);
    FoundOnce(rules, g, zone, now);
    SortIds(Found(rules, g, zone, now));
    OrderedOnce(RulesBlockingGroup(rules, g, zone, now), StandingIds(rules));
    UnblocksOnce(ordered, skip);
    AgainsOnce(rules, g, now);
    forall id | id in IdsOf(unblocks) ensures id !in IdsOf(agains) { UnblockedIsNotPaused(group, rules, zone, now, id); }
    NoRepeatJoins(IdsOf(unblocks), IdsOf(agains));
  }

  /** A rule listed to unblock blocks the group, so it is not paused for it. */
  lemma UnblockedIsNotPaused(group: Group, rules: seq<Rule>, zone: Zone, now: int, id: nat)
    requires Unique(rules)
    ensures id in BlockingIds(Ordered(RulesBlockingGroup(rules, group.id, zone, now), StandingIds(rules))) ==>
              !exists r :: r in rules && r.id == id && PausedFor(r, group.id, now)
  {
    var blocking := RulesBlockingGroup(rules, group.id, zone, now);
    BlockingIdsAre(Ordered(blocking, StandingIds(rules)), id);
    OrderedHasId(blocking, StandingIds(rules), id);
    if HasId(blocking, id) {
      var k :| 0 <= k < |blocking| && blocking[k].ruleId == id;
      BlockingAre(rules, group.id, zone, now, blocking[k]);
      var r :| r in rules && Blocks(r, blocking[k], group.id, zone, now);
      forall s | s in rules && s.id == id ensures s == r { SameId(rules, r, s); }
    }
  }

  // The server's unblock.

  function Others(pauses: seq<GroupPause>, g: nat): seq<GroupPause> {
    if pauses == [] then []
    else if pauses[0].groupId == g then Others(pauses[1..], g)
    else [pauses[0]] + Others(pauses[1..], g)
  }

  /** The rule's link to the group, rewritten: a rule holds one pause for each group. */
  function WithLift(r: Rule, g: nat, pause: RulePause): Rule {
    r.(groupPauses := [GroupPause(g, pause)] + Others(r.groupPauses, g))
  }

  /** The end asked for, which is left out, or none, or a time to come. */
  predicate ToCome(asked: Option<Option<int>>, now: int) {
    asked.Some? && asked.value.Some? ==> now < asked.value.value
  }

  /** A rule the unblock lifts: the household's own, on, not a standing one, paused neither for everyone nor
      for the group; and, unless an end is asked for, with a window active. One already allowed is lifted
      again. */
  predicate Target(r: Rule, g: nat, asked: Option<Option<int>>, zone: Zone, now: int) {
    && Scoped(r, g) && r.builtIn == Own && r.enabled && !StandingRule(r) && !RulePaused(r, now) && !PausedFor(r, g, now)
    && (asked.Some? || ActiveWindowsEnd(zone, RuleInternetWindows(r), now).Some?)
  }

  /** Until the end asked for, or else until the rule's own active windows end. */
  function LiftedUntil(r: Rule, g: nat, asked: Option<Option<int>>, zone: Zone, now: int): Option<int>
    requires Target(r, g, asked, zone, now)
  {
    if asked.Some? then asked.value else ActiveWindowsEnd(zone, RuleInternetWindows(r), now).value
  }

  function LiftRule(r: Rule, g: nat, asked: Option<Option<int>>, zone: Zone, now: int): Rule {
    if Target(r, g, asked, zone, now) then WithLift(r, g, RulePause(Lift(true, LiftedUntil(r, g, asked, zone, now)), true)) else r
  }

  function LiftRules(rules: seq<Rule>, g: nat, asked: Option<Option<int>>, zone: Zone, now: int): seq<Rule> {
    if rules == [] then [] else [LiftRule(rules[0], g, asked, zone, now)] + LiftRules(rules[1..], g, asked, zone, now)
  }

  datatype Refusal = NotToCome | NotBlocked

  /** Whether the server refuses: the end asked for is past, or there is no rule to lift and no block on the
      group. */
  function Refuses(group: Group, rules: seq<Rule>, asked: Option<Option<int>>, zone: Zone, now: int): Option<Refusal> {
    if !ToCome(asked, now) then Some(NotToCome)
    else if (forall k :: 0 <= k < |rules| ==> !Target(rules[k], group.id, asked, zone, now)) && !IsActiveUntil(group.suspension, now) then Some(NotBlocked)
    else None
  }

  function Cleared(group: Group): Group {
    group.(suspension := Lift(false, None))
  }

  lemma {:induction false} OthersKeep(pauses: seq<GroupPause>, g: nat, h: nat, now: int)
    requires g != h
    ensures FirstLift(Others(pauses, g), h, now) == FirstLift(pauses, h, now)
  {
    if pauses != [] { OthersKeep(pauses[1..], g, h, now); }
  }

  lemma WithLiftLifts(r: Rule, g: nat, pause: RulePause, h: nat, now: int)
    requires IsActiveUntil(pause.lift, now)
    ensures GroupLift(WithLift(r, g, pause), h, now) == if h == g then Some(pause) else GroupLift(r, h, now)
  {
    var pauses := WithLift(r, g, pause).groupPauses;
    assert pauses[1..] == Others(r.groupPauses, g);
    if h != g { OthersKeep(r.groupPauses, g, h, now); }
  }

  /** What the unblock does to one rule, an end asked for or not: it no longer blocks the group unless it is a
      standing one, and for any other group nothing changes; a rule it lifts is allowed for the group until the
      end it was given. */
  lemma LiftRuleLifts(r: Rule, g: nat, h: nat, asked: Option<Option<int>>, zone: Zone, now: int)
    requires ToCome(asked, now)
    ensures Scoped(LiftRule(r, g, asked, zone, now), h) == Scoped(r, h)
    ensures Scoped(r, g) ==> (Stops(LiftRule(r, g, asked, zone, now), g, zone, now) <==> Stops(r, g, zone, now) && StandingRule(r))
    ensures h != g ==> (Stops(LiftRule(r, g, asked, zone, now), h, zone, now) <==> Stops(r, h, zone, now))
    ensures Target(r, g, asked, zone, now) ==> AllowsUntil(LiftRule(r, g, asked, zone, now), g, now, LiftedUntil(r, g, asked, zone, now))
  {
    EndIsLater(zone, RuleInternetWindows(r), now);
    if Target(r, g, asked, zone, now) {
      var pause := RulePause(Lift(true, LiftedUntil(r, g, asked, zone, now)), true);
      WithLiftLifts(r, g, pause, g, now);
      WithLiftLifts(r, g, pause, h, now);
    }
  }

  /** An unblock leaves a rule alone unless it is one of the household's own for the group, on, no always-on
      category, app or website rule, and paused neither for everyone nor for the group; and, with no end asked
      for, has a window active. */
  ghost predicate Liftable(r: Rule, g: nat, asked: Option<Option<int>>, zone: Zone, now: int) {
    && OwnOn(r, g, now) && (r.kind == Internet || !r.always)
    && !(exists pause :: GroupLift(r, g, now) == Some(pause) && !pause.allow)
    && (asked.None? ==> AnyActive(zone, RuleInternetWindows(r), now))
  }

  /** The end asked for, none being for good; else the latest end of the rule's windows active now. */
  ghost predicate IsLiftEnd(r: Rule, asked: Option<Option<int>>, zone: Zone, now: int, end: Option<int>) {
    match asked
    case Some(given) => end == given
    case None =>
      && (exists w :: w in RuleInternetWindows(r) && IsWindowActive(zone, w, now) && end == WindowEndsAt(zone, w, now))
      && forall w :: w in RuleInternetWindows(r) && IsWindowActive(zone, w, now) ==> Outlasts(end, WindowEndsAt(zone, w, now))
  }

  /** `n` is `r` but for its pause for the group, which is now an allowance until `end`; every other group's stays,
      in its order. */
  ghost predicate IsAllowed(r: Rule, n: Rule, g: nat, end: Option<int>) {
    && n == r.(groupPauses := n.groupPauses)
    && n.groupPauses != [] && n.groupPauses[0] == GroupPause(g, RulePause(Lift(true, end), true))
    && AreThose(r.groupPauses, n.groupPauses[1..], (p: GroupPause) => p.groupId != g)
  }

  lemma {:induction false} OthersAre(pauses: seq<GroupPause>, g: nat)
    ensures AreThose(pauses, Others(pauses, g), (p: GroupPause) => p.groupId != g)
  {
    var keep := (p: GroupPause) => p.groupId != g;
    if pauses == [] {
      assert Picked(pauses, [], keep, []);
    } else {
      OthersAre(pauses[1..], g);
      var at :| Picked(pauses[1..], Others(pauses[1..], g), keep, at);
      PickedMore(pauses, Others(pauses[1..], g), keep, at);
    }
  }

  lemma TargetIs(r: Rule, g: nat, asked: Option<Option<int>>, zone: Zone, now: int)
    ensures Target(r, g, asked, zone, now) <==> Liftable(r, g, asked, zone, now)
  {
    ActiveWindowsEndIs(zone, RuleInternetWindows(r), now);
  }

  /** What the unblock writes: exactly the rules it may lift are allowed for the group, until the end asked for or
      else the latest end of their own active windows, and nothing else of any rule changes. */
  lemma LiftsExactly(r: Rule, g: nat, asked: Option<Option<int>>, zone: Zone, now: int)
    ensures
      var n := LiftRule(r, g, asked, zone, now);
      if Liftable(r, g, asked, zone, now) then exists end :: IsLiftEnd(r, asked, zone, now, end) && IsAllowed(r, n, g, end) else n == r
  {
    TargetIs(r, g, asked, zone, now);
    if Target(r, g, asked, zone, now) {
      var end := LiftedUntil(r, g, asked, zone, now);
      OthersAre(r.groupPauses, g);
      ActiveWindowsEndIs(zone, RuleInternetWindows(r), now);
      var n := LiftRule(r, g, asked, zone, now);
      assert n.groupPauses[1..] == Others(r.groupPauses, g);
      assert IsLiftEnd(r, asked, zone, now, end) && IsAllowed(r, n, g, end);
    }
  }

  /** It is refused exactly when the end asked for is not to come, or when no one blocks the group now and there is
      no rule it may lift. */
  lemma RefusesExactly(group: Group, rules: seq<Rule>, asked: Option<Option<int>>, zone: Zone, now: int)
    ensures
      var past := exists end: int :: asked == Some(Some(end)) && end <= now;
      var nothing := (forall r :: r in rules ==> !Liftable(r, group.id, asked, zone, now)) && !Running(group.suspension.active, group.suspension.until, now);
      Refuses(group, rules, asked, zone, now) == if past then Some(NotToCome) else if nothing then Some(NotBlocked) else None
  {
    forall r | r in rules ensures Target(r, group.id, asked, zone, now) <==> Liftable(r, group.id, asked, zone, now) {
      TargetIs(r, group.id, asked, zone, now);
    }
    assert forall k :: 0 <= k < |rules| ==> rules[k] in rules;
  }

  lemma {:induction false} LiftedRulesAre(rules: seq<Rule>, g: nat, asked: Option<Option<int>>, zone: Zone, now: int)
    ensures |LiftRules(rules, g, asked, zone, now)| == |rules|
    ensures forall k :: 0 <= k < |rules| ==> LiftRules(rules, g, asked, zone, now)[k] == LiftRule(rules[k], g, asked, zone, now)
  {
    if rules != [] { LiftedRulesAre(rules[1..], g, asked, zone, now); }
  }

  lemma NothingToUnblock(rules: seq<Rule>, g: nat, asked: Option<Option<int>>, zone: Zone, now: int)
    requires Unique(rules) && ToCome(asked, now)
    ensures RulesToUnblock(LiftRules(rules, g, asked, zone, now), g, zone, now) == []
  {
    var after := LiftRules(rules, g, asked, zone, now);
    LiftedRulesAre(rules, g, asked, zone, now);
    assert Unique(after);
    var left := RulesToUnblock(after, g, zone, now);
    if left != [] {
      ToUnblockAre(after, g, zone, now, left[0]);
      assert left[0] in left;
      var s :| s in after && Blocks(s, left[0], g, zone, now) && !StandingRule(s);
      var k :| 0 <= k < |after| && after[k] == s;
      LiftRuleLifts(rules[k], g, g, asked, zone, now);
      assert false;
    }
  }

  /** After the server's unblock nothing is left for the card to unblock: exactly the standing rules still
      block the group. */
  lemma UnblockClears(group: Group, rules: seq<Rule>, asked: Option<Option<int>>, zone: Zone, now: int, b: Blocking)
    requires Unique(rules) && ToCome(asked, now)
    ensures
      var after := LiftRules(rules, group.id, asked, zone, now);
      && RulesToUnblock(after, group.id, zone, now) == []
      && (b in RulesBlockingGroup(after, group.id, zone, now) <==>
            exists r :: r in rules && StandingRule(r) && Blocks(r, b, group.id, zone, now))
  {
    var g := group.id;
    var after := LiftRules(rules, g, asked, zone, now);
    LiftedRulesAre(rules, g, asked, zone, now);
    NothingToUnblock(rules, g, asked, zone, now);
    BlockingAre(after, g, zone, now, b);
    forall k | 0 <= k < |rules| ensures Blocks(after[k], b, g, zone, now) <==> StandingRule(rules[k]) && Blocks(rules[k], b, g, zone, now) {
      LiftRuleLifts(rules[k], g, g, asked, zone, now);
    }
    if b in RulesBlockingGroup(after, g, zone, now) {
      var s :| s in after && Blocks(s, b, g, zone, now);
      var k :| 0 <= k < |after| && after[k] == s;
      assert rules[k] in rules;
    }
    if exists r :: r in rules && StandingRule(r) && Blocks(r, b, g, zone, now) {
      var r :| r in rules && StandingRule(r) && Blocks(r, b, g, zone, now);
      var k :| 0 <= k < |rules| && rules[k] == r;
      assert after[k] in after;
    }
  }

  lemma {:induction false} FoundElsewhere(rules: seq<Rule>, g: nat, h: nat, asked: Option<Option<int>>, zone: Zone, now: int)
    requires g != h && ToCome(asked, now)
    ensures Found(LiftRules(rules, g, asked, zone, now), h, zone, now) == Found(rules, h, zone, now)
  {
    if rules != [] {
      FoundElsewhere(rules[1..], g, h, asked, zone, now);
      LiftRuleLifts(rules[0], g, h, asked, zone, now);
      assert LiftRules(rules, g, asked, zone, now)[1..] == LiftRules(rules[1..], g, asked, zone, now);
    }
  }

  /** An unblock is for one group: what blocks any other is untouched. */
  lemma OthersStayBlocked(rules: seq<Rule>, g: nat, h: nat, asked: Option<Option<int>>, zone: Zone, now: int)
    requires g != h && ToCome(asked, now)
    ensures RulesBlockingGroup(LiftRules(rules, g, asked, zone, now), h, zone, now) == RulesBlockingGroup(rules, h, zone, now)
  {
    FoundElsewhere(rules, g, h, asked, zone, now);
  }

  /** A button that offers to unblock is never refused, whatever end to come is asked for; and the group then
      reads as online, and the button resumes once a rule was lifted. */
  lemma UnblockAnswersTheButton(group: Group, rules: seq<Rule>, asked: Option<Option<int>>, zone: Zone, now: int)
    requires Unique(rules) && Ordinary(rules) && ToCome(asked, now) && (group.suspension.active ==> IsActiveUntil(group.suspension, now))
    ensures
      var run := HeaderRun(group, rules, zone, now);
      var after := LiftRules(rules, group.id, asked, zone, now);
      && (run.RunUnblock? || run.RunUnblockNow? ==> Refuses(group, rules, asked, zone, now) == None)
      && (run.RunUnblock? ==> exists r :: r in rules && Target(r, group.id, asked, zone, now))
      && ((exists r :: r in rules && Target(r, group.id, asked, zone, now)) ==> HeaderRun(Cleared(group), after, zone, now).RunResume?)
      && FullStatus(Cleared(group), after, zone, now).badge.BadgeOnline?
  {
    var g := group.id;
    var run := HeaderRun(group, rules, zone, now);
    var after := LiftRules(rules, g, asked, zone, now);
    LiftedRulesAre(rules, g, asked, zone, now);
    AfterIsOrdinary(rules, g, asked, zone, now);
    UnblockClears(group, rules, asked, zone, now, Blocking(0, Internet, None));
    BadgeTellsTheTruth(Cleared(group), after, zone, now);
    InternetIsLifted(after, g, zone, now);
    if run.RunUnblock? {
      var b := RulesToUnblock(rules, g, zone, now)[0];
      assert b in RulesToUnblock(rules, g, zone, now);
      ToUnblockAre(rules, g, zone, now, b);
      var r :| r in rules && Blocks(r, b, g, zone, now) && !StandingRule(r);
      assert Target(r, g, asked, zone, now);
    }
    if r :| r in rules && Target(r, g, asked, zone, now) {
      var k :| 0 <= k < |rules| && rules[k] == r;
      LiftRuleLifts(r, g, g, asked, zone, now);
      assert after[k] == LiftRule(r, g, asked, zone, now) && after[k] in after;
      UnblockIsTheLast(after, g, now);
    }
  }

  lemma AfterIsOrdinary(rules: seq<Rule>, g: nat, asked: Option<Option<int>>, zone: Zone, now: int)
    requires Unique(rules) && Ordinary(rules)
    ensures Unique(LiftRules(rules, g, asked, zone, now)) && Ordinary(LiftRules(rules, g, asked, zone, now))
  {
    var after := LiftRules(rules, g, asked, zone, now);
    LiftedRulesAre(rules, g, asked, zone, now);
    forall s | s in after && s.byGroup && s.kind == Internet ensures s.builtIn == Own {
      var k :| 0 <= k < |after| && after[k] == s;
      assert rules[k] in rules;
    }
  }
}
