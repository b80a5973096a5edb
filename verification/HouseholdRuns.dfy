/** Every run of the household store: its continuations and the server's writes interleave freely. */
module HouseholdRuns {
  // Proved of every reachable state: a load never hides a saved write, and once nothing is left to settle, what
  // is shown is the truth.
  import opened Wrappers
  import opened HouseholdStore

  /** A load in flight: what its continuation holds, and the moment each read was taken, from `start` on. */
  datatype LoadCall = LoadCall(gen: nat, full: bool, start: nat, checked: bool,
                               groups: Option<nat>, devices: Option<nat>, rules: Option<nat>)

  /** A write in flight: what its continuation holds besides its token. */
  datatype WriteCall = WriteCall(previous: Lists, group: Option<string>, optimistic: bool)

  datatype Answer = Saved | Lost

  /** `server` counts the writes that have landed, anyone's; `landed` says at which count each of ours did. */
  datatype World = World(store: Store, loads: map<nat, LoadCall>, nextLoad: nat, writes: map<nat, WriteCall>,
                         server: nat, landed: map<nat, nat>, answers: map<nat, Answer>)

  datatype Which = Groups | Devices | Rules

  datatype Action =
    | ReloadStarts
    | LiveStarts
    | CheckAnswers(load: nat, answer: Compatibility)
    | ReadAnswers(load: nat, which: Which)
    | LoadArrives(load: nat)
    | LoadBreaks(load: nat, unauthorized: bool)
    | WriteStarts(group: Option<string>, optimistic: bool)
    | WriteLands(token: nat)
    | OthersWrite
    | WriteSucceeds(token: nat)
    | WriteFails(token: nat, lost: bool)

  const START := World(INITIAL, map[], 0, map[], 0, map[], map[])

  function Fresh(gen: nat, full: bool, w: World): LoadCall {
    LoadCall(gen, full, w.server, false, None, None, None)
  }

  function Launch(w: World, gen: nat, full: bool): World {
    w.(loads := w.loads[w.nextLoad := Fresh(gen, full, w)], nextLoad := w.nextLoad + 1)
  }

  /** `w` with the store `s`, and the reload that getting there started, if it did. */
  function Continue(w: World, s: Store): World {
    if s.loadsInFlight > w.store.loadsInFlight then Launch(w.(store := s), s.loadGen, true) else w.(store := s)
  }

  predicate Complete(l: LoadCall) {
    l.checked && l.groups.Some? && l.devices.Some? && l.rules.Some?
  }

  function Answered(l: LoadCall, which: Which, at: nat): LoadCall {
    match which
    case Groups => if l.groups.None? then l.(groups := Some(at)) else l
    case Devices => if l.devices.None? then l.(devices := Some(at)) else l
    case Rules => if l.rules.None? then l.(rules := Some(at)) else l
  }

  predicate LoadGoesOn(a: Action) { a.ReloadStarts? || a.LiveStarts? || a.ReadAnswers? }
  predicate LoadMayEnd(a: Action) { a.CheckAnswers? || a.LoadArrives? || a.LoadBreaks? }
  predicate WriteGoesOn(a: Action) { a.WriteStarts? || a.WriteLands? || a.OthersWrite? }

  /** Which actions a world allows. An answer of success means the write landed; a failure says nothing
      about it, and an unanswered write may land later. */
  predicate Enabled(cfg: Config, w: World, a: Action) {
    match a
    case ReloadStarts => true
    case LiveStarts => true
    case CheckAnswers(id, answer) => id in w.loads && !w.loads[id].checked && (!cfg.check ==> answer == Unknown)
    case ReadAnswers(id, _) => id in w.loads
    case LoadArrives(id) => id in w.loads && Complete(w.loads[id])
    case LoadBreaks(id, _) => id in w.loads && w.loads[id].checked
    case WriteStarts(group, _) => w.store.Accepts(cfg, group)
    case WriteLands(token) => 1 <= token <= w.store.latest && token !in w.landed
    case OthersWrite => true
    case WriteSucceeds(token) => token in w.writes && token in w.landed
    case WriteFails(token, _) => token in w.writes
  }

  function Apply(cfg: Config, w: World, a: Action): World
    requires Enabled(cfg, w, a)
  {
    match a
    case ReloadStarts => Continue(w, w.store.StartReload())
    case LiveStarts =>
      Launch(w.(store := w.store.StartLive()), w.store.StartLive().loadGen, w.store.status == Incompatible)
    case CheckAnswers(id, answer) =>
      var l := w.loads[id];
      w.(store := w.store.Checked(cfg, l.gen, answer),
         loads := if w.store.Ends(cfg, l.gen, answer) then w.loads - {id} else w.loads[id := l.(checked := true)])
    case ReadAnswers(id, which) => w.(loads := w.loads[id := Answered(w.loads[id], which, w.server)])
    case LoadArrives(id) =>
      var l := w.loads[id];
      w.(store := w.store.Arrived(l.full, l.gen, Snapshot(l.groups.value, l.devices.value, l.rules.value)), loads := w.loads - {id})
    case LoadBreaks(id, unauthorized) =>
      w.(store := w.store.LoadFailed(w.loads[id].gen, unauthorized), loads := w.loads - {id})
    case WriteStarts(group, optimistic) =>
      w.(store := w.store.Begin(group, optimistic),
         writes := w.writes[w.store.latest + 1 := WriteCall(w.store.lists, group, optimistic)])
    case WriteLands(token) => w.(server := w.server + 1, landed := w.landed[token := w.server])
    case OthersWrite => w.(server := w.server + 1)
    case WriteSucceeds(token) => Close(Committing(w, token), w.writes[token].group)
    case WriteFails(token, lost) => Close(RollingBack(cfg, w, token, lost), w.writes[token].group)
  }

  /** The world once write `token` is answered, before the `finally` of its `mutate`. */
  function Committing(w: World, token: nat): World
    requires token in w.writes
  {
    w.(store := w.store.Committed(token), writes := w.writes - {token}, answers := w.answers[token := Saved])
  }

  function RollingBack(cfg: Config, w: World, token: nat, lost: bool): World
    requires token in w.writes
  {
    Continue(w.(writes := w.writes - {token}, answers := w.answers[token := Lost]),
             w.store.RolledBack(cfg, token, w.writes[token].previous, lost))
  }

  function Close(w: World, group: Option<string>): World {
    Continue(w, w.store.Settle(group))
  }

  function Step(cfg: Config, w: World, a: Action): World {
    if Enabled(cfg, w, a) then Apply(cfg, w, a) else w
  }

  /** The world after a run: any sequence of actions, an impossible one doing nothing. */
  function Run(cfg: Config, acts: seq<Action>): World {
    if acts == [] then START else Step(cfg, Run(cfg, acts[..|acts| - 1]), acts[|acts| - 1])
  }

  // What is claimed of a state.

  predicate LandedBefore(w: World, token: nat, moment: nat) {
    token in w.landed && w.landed[token] < moment
  }

  ghost predicate ListsInclude(w: World, lists: Lists, token: nat) {
    || Applied(token) in lists.changes
    || (lists.base.Read? && LandedBefore(w, token, lists.base.groups) && LandedBefore(w, token, lists.base.devices))
  }

  ghost predicate RulesInclude(w: World, rules: RuleList, token: nat) {
    token in rules.applied || (rules.base.Some? && LandedBefore(w, token, rules.base.value))
  }

  predicate WasSaved(w: World, token: nat) {
    token in w.answers && w.answers[token] == Saved
  }

  predicate WasLost(w: World, token: nat) {
    token in w.answers && w.answers[token] == Lost
  }

  /** Lists with every saved write in them, and no optimistic change of a write that failed. */
  ghost predicate Truthful(w: World, lists: Lists) {
    && (forall t :: WasSaved(w, t) ==> ListsInclude(w, lists, t))
    && (forall t: nat :: Optimistic(t) in lists.changes ==> !WasLost(w, t))
  }

  ghost predicate RulesTruthful(w: World, rules: RuleList) {
    forall t :: WasSaved(w, t) ==> RulesInclude(w, rules, t)
  }

  ghost predicate LoadPending(w: World) {
    exists id :: id in w.loads && w.loads[id].gen == w.store.loadGen
  }

  /** Something will still correct what is shown, or the view says it may be out of date. */
  ghost predicate Settling(w: World) {
    w.store.reloadAfterWrites || w.store.stale || LoadPending(w)
  }

  // The invariant, one concern at a time.

  /** `closing`: how many answered writes have still to run their `finally`. */
  ghost predicate Counted(w: World, closing: nat) {
    && w.store.busyCount == |w.writes| + closing
    && w.store.loadsInFlight == |w.loads|
    && (w.store.reloadAfterWrites ==> w.store.busyCount > 0)
    && (forall id :: id in w.loads ==> id < w.nextLoad)
  }

  ghost predicate Ordered(w: World) {
    && (forall t :: t in w.writes ==> 1 <= t <= w.store.latest && t !in w.answers)
    && (forall t :: t in w.answers ==> 1 <= t <= w.store.latest)
    && (forall t :: t in w.landed ==> 1 <= t <= w.store.latest && w.landed[t] < w.server)
    && (forall t :: WasSaved(w, t) ==> t in w.landed)
    && (forall t: nat :: Optimistic(t) in w.store.lists.changes ==> t <= w.store.latest)
  }

  ghost predicate Timed(w: World, l: LoadCall) {
    && l.gen <= w.store.loadGen
    && l.start <= w.server
    && (l.groups.Some? ==> l.start <= l.groups.value)
    && (l.devices.Some? ==> l.start <= l.devices.value)
    && (l.rules.Some? ==> l.start <= l.rules.value)
  }

  /** A load that may still be shown started after every saved write had landed. */
  ghost predicate Current(w: World, l: LoadCall) {
    l.gen == w.store.loadGen ==> w.store.reloadAfterWrites || forall t :: WasSaved(w, t) ==> LandedBefore(w, t, l.start)
  }

  ghost predicate LoadsHold(w: World) {
    forall id :: id in w.loads ==> Timed(w, w.loads[id]) && Current(w, w.loads[id])
  }

  /** The reasons that let a view shown during a write be wrong. */
  predicate Excused(w: World) {
    w.store.reloadAfterWrites || w.store.stale || w.store.status == Incompatible
  }

  ghost predicate ViewHolds(w: World) {
    Excused(w) || (w.store.busyCount == 0 && LoadPending(w)) || (Truthful(w, w.store.lists) && RulesTruthful(w, w.store.rules))
  }

  /** What the newest write in flight shows is the lists before it with its own change, unless a
      mismatch emptied the store meanwhile; those lists are true too. */
  ghost predicate NewestHolds(cfg: Config, w: World) {
    var latest := w.store.latest;
    latest in w.writes ==>
      && var call := w.writes[latest];
      && (w.store.lists == WithChange(call, latest) || (cfg.check && w.store.lists == EMPTY))
      && (Excused(w) || Truthful(w, call.previous))
      && (forall t: nat :: Optimistic(t) in call.previous.changes ==> t < latest)
  }

  function WithChange(call: WriteCall, token: nat): Lists {
    if call.optimistic then Lists(call.previous.base, call.previous.changes + [Optimistic(token)]) else call.previous
  }

  /** `closing`: the group of an answered write that has still to run its `finally`. */
  ghost predicate GroupsHold(w: World, closing: Option<string>) {
    && Distinct(w.store.busyGroups)
    && (forall g :: g in w.store.busyGroups ==> Some(g) == closing || exists t :: t in w.writes && w.writes[t].group == Some(g))
    && (forall t :: t in w.writes && w.writes[t].group.Some? ==> w.writes[t].group.value in w.store.busyGroups && w.writes[t].group != closing)
    && (forall t, u :: t in w.writes && u in w.writes && w.writes[t].group.Some? && w.writes[t].group == w.writes[u].group ==> t == u)
  }

  ghost predicate Inv(cfg: Config, w: World) {
    Counted(w, 0) && Ordered(w) && LoadsHold(w) && ViewHolds(w) && NewestHolds(cfg, w) && GroupsHold(w, None)
  }

  lemma StartHolds(cfg: Config)
    ensures Inv(cfg, START)
  {
  }

  lemma Dropped<V>(m: map<nat, V>, k: nat)
    requires k in m
    ensures |m - {k}| == |m| - 1
  {
    assert (m - {k}).Keys == m.Keys - {k};
    assert |(m - {k}).Keys| == |m.Keys| - 1;
  }

  lemma Counted_LoadGoesOn(cfg: Config, w: World, a: Action)
    requires Counted(w, 0) && Ordered(w) && LoadGoesOn(a) && Enabled(cfg, w, a)
    ensures Counted(Apply(cfg, w, a), 0)
  {}

  lemma Counted_LoadMayEnd(cfg: Config, w: World, a: Action)
    requires Counted(w, 0) && Ordered(w) && LoadMayEnd(a) && Enabled(cfg, w, a)
    ensures Counted(Apply(cfg, w, a), 0)
  {
    Dropped(w.loads, a.load);
  }

  lemma Counted_WriteGoesOn(cfg: Config, w: World, a: Action)
    requires Counted(w, 0) && Ordered(w) && WriteGoesOn(a) && Enabled(cfg, w, a)
    ensures Counted(Apply(cfg, w, a), 0)
  {}

  lemma Ordered_LoadGoesOn(cfg: Config, w: World, a: Action)
    requires Ordered(w) && NewestHolds(cfg, w) && LoadGoesOn(a) && Enabled(cfg, w, a)
    ensures Ordered(Apply(cfg, w, a))
  {}

  lemma Ordered_LoadMayEnd(cfg: Config, w: World, a: Action)
    requires Ordered(w) && NewestHolds(cfg, w) && LoadMayEnd(a) && Enabled(cfg, w, a)
    ensures Ordered(Apply(cfg, w, a))
  {}

  lemma Ordered_WriteGoesOn(cfg: Config, w: World, a: Action)
    requires Ordered(w) && NewestHolds(cfg, w) && WriteGoesOn(a) && Enabled(cfg, w, a)
    ensures Ordered(Apply(cfg, w, a))
  {}

  lemma SavedLanded(w: World)
    requires Ordered(w)
    ensures forall t :: WasSaved(w, t) ==> LandedBefore(w, t, w.server)
  {
  }

  /** A load stays current while no write is answered. */
  lemma Later(w: World, n: World, l: LoadCall, m: LoadCall)
    requires Timed(w, l) && Current(w, l) && m.start == l.start && m.gen == l.gen
    requires n.answers == w.answers && n.server >= w.server && n.store.loadGen >= w.store.loadGen
    requires n.store.loadGen == w.store.loadGen && w.store.reloadAfterWrites ==> n.store.reloadAfterWrites
    requires forall t :: t in w.landed ==> t in n.landed && n.landed[t] == w.landed[t]
    requires m == l || Timed(n, m)
    ensures Timed(n, m) && Current(n, m)
  {
    if m.gen == n.store.loadGen && !n.store.reloadAfterWrites {
      forall t | WasSaved(n, t) ensures LandedBefore(n, t, m.start) {
        assert WasSaved(w, t);
      }
    }
  }

  lemma LoadsHold_LoadGoesOn(cfg: Config, w: World, a: Action)
    requires LoadsHold(w) && Ordered(w) && Counted(w, 0) && LoadGoesOn(a) && Enabled(cfg, w, a)
    ensures LoadsHold(Apply(cfg, w, a))
  {
    var n := Apply(cfg, w, a);
    SavedLanded(w);
    forall id | id in n.loads ensures Timed(n, n.loads[id]) && Current(n, n.loads[id]) {
      if id in w.loads && n.loads[id].start == w.loads[id].start { Later(w, n, w.loads[id], n.loads[id]); }
    }
  }

  lemma LoadsHold_LoadMayEnd(cfg: Config, w: World, a: Action)
    requires LoadsHold(w) && Ordered(w) && Counted(w, 0) && LoadMayEnd(a) && Enabled(cfg, w, a)
    ensures LoadsHold(Apply(cfg, w, a))
  {
    var n := Apply(cfg, w, a);
    forall id | id in n.loads ensures Timed(n, n.loads[id]) && Current(n, n.loads[id]) {
      Later(w, n, w.loads[id], n.loads[id]);
    }
  }

  lemma LoadsHold_WriteGoesOn(cfg: Config, w: World, a: Action)
    requires LoadsHold(w) && Ordered(w) && Counted(w, 0) && WriteGoesOn(a) && Enabled(cfg, w, a)
    ensures LoadsHold(Apply(cfg, w, a))
  {
    var n := Apply(cfg, w, a);
    forall id | id in n.loads ensures Timed(n, n.loads[id]) && Current(n, n.loads[id]) {
      Later(w, n, w.loads[id], n.loads[id]);
    }
  }

  lemma GroupsHold_LoadGoesOn(cfg: Config, w: World, a: Action)
    requires GroupsHold(w, None) && Ordered(w) && LoadGoesOn(a) && Enabled(cfg, w, a)
    ensures GroupsHold(Apply(cfg, w, a), None)
  {}

  lemma GroupsHold_LoadMayEnd(cfg: Config, w: World, a: Action)
    requires GroupsHold(w, None) && Ordered(w) && LoadMayEnd(a) && Enabled(cfg, w, a)
    ensures GroupsHold(Apply(cfg, w, a), None)
  {}

  lemma GroupsHold_WriteGoesOn(cfg: Config, w: World, a: Action)
    requires GroupsHold(w, None) && Ordered(w) && WriteGoesOn(a) && Enabled(cfg, w, a)
    ensures GroupsHold(Apply(cfg, w, a), None)
  {
    var n := Apply(cfg, w, a);
    forall g | g in n.store.busyGroups ensures exists t :: t in n.writes && n.writes[t].group == Some(g) {
      if g in w.store.busyGroups {
        var t :| t in w.writes && w.writes[t].group == Some(g);
        assert t in n.writes && n.writes[t].group == Some(g);
      } else {
        assert n.writes[n.store.latest].group == Some(g);
      }
    }
  }

  lemma Counted_Committing(w: World, token: nat)
    requires Counted(w, 0) && token in w.writes && token in w.landed
    ensures Counted(Committing(w, token), 1)
  {
    Dropped(w.writes, token);
  }

  lemma Ordered_Committing(cfg: Config, w: World, token: nat)
    requires Ordered(w) && NewestHolds(cfg, w) && token in w.writes && token in w.landed
    ensures Ordered(Committing(w, token))
  {
  }

  lemma LoadsHold_Committing(w: World, token: nat)
    requires LoadsHold(w) && Ordered(w) && token in w.writes && token in w.landed
    ensures LoadsHold(Committing(w, token))
  {
    var n := Committing(w, token);
    SavedLanded(w);
    forall id | id in n.loads ensures Timed(n, n.loads[id]) && Current(n, n.loads[id]) {
      assert Timed(w, w.loads[id]);
    }
  }

  lemma GroupsHold_Committing(w: World, token: nat)
    requires GroupsHold(w, None) && token in w.writes && token in w.landed
    ensures GroupsHold(Committing(w, token), w.writes[token].group)
  {
    var n := Committing(w, token);
    forall g | g in n.store.busyGroups && Some(g) != w.writes[token].group ensures exists t :: t in n.writes && n.writes[t].group == Some(g) {
      var t :| t in w.writes && w.writes[t].group == Some(g);
      assert t in n.writes && n.writes[t].group == Some(g);
    }
  }

  lemma Counted_RollingBack(cfg: Config, w: World, token: nat, lost: bool)
    requires Counted(w, 0) && token in w.writes
    ensures Counted(RollingBack(cfg, w, token, lost), 1)
  {
    Dropped(w.writes, token);
  }

  lemma Ordered_RollingBack(cfg: Config, w: World, token: nat, lost: bool)
    requires Ordered(w) && NewestHolds(cfg, w) && token in w.writes
    ensures Ordered(RollingBack(cfg, w, token, lost))
  {
  }

  lemma LoadsHold_RollingBack(cfg: Config, w: World, token: nat, lost: bool)
    requires LoadsHold(w) && Ordered(w) && token in w.writes
    ensures LoadsHold(RollingBack(cfg, w, token, lost))
  {
    var n := RollingBack(cfg, w, token, lost);
    SavedLanded(w);
    forall id | id in n.loads ensures Timed(n, n.loads[id]) && Current(n, n.loads[id]) {
      var l := n.loads[id];
      if l.gen == n.store.loadGen && !n.store.reloadAfterWrites {
        forall t | WasSaved(n, t) ensures LandedBefore(n, t, l.start) { assert WasSaved(w, t); }
      }
    }
  }

  lemma GroupsHold_RollingBack(cfg: Config, w: World, token: nat, lost: bool)
    requires GroupsHold(w, None) && token in w.writes
    ensures GroupsHold(RollingBack(cfg, w, token, lost), w.writes[token].group)
  {
    var n := RollingBack(cfg, w, token, lost);
    forall g | g in n.store.busyGroups && Some(g) != w.writes[token].group ensures exists t :: t in n.writes && n.writes[t].group == Some(g) {
      var t :| t in w.writes && w.writes[t].group == Some(g);
      assert t in n.writes && n.writes[t].group == Some(g);
    }
  }

  lemma Counted_Close(w: World, group: Option<string>)
    requires Counted(w, 1)
    ensures Counted(Close(w, group), 0)
  {
  }

  lemma Ordered_Close(w: World, group: Option<string>)
    requires Ordered(w)
    ensures Ordered(Close(w, group))
  {
  }

  lemma LoadsHold_Close(w: World, group: Option<string>)
    requires LoadsHold(w) && Ordered(w)
    ensures LoadsHold(Close(w, group))
  {
    var n := Close(w, group);
    SavedLanded(w);
    forall id | id in n.loads ensures Timed(n, n.loads[id]) && Current(n, n.loads[id]) {
      if id in w.loads && n.loads[id] == w.loads[id] { Later(w, n, w.loads[id], n.loads[id]); }
    }
  }

  lemma GroupsHold_Close(w: World, group: Option<string>)
    requires GroupsHold(w, group)
    ensures GroupsHold(Close(w, group), None)
  {
    var n := Close(w, group);
    forall g | g in n.store.busyGroups ensures exists t :: t in n.writes && n.writes[t].group == Some(g) {
      var t :| t in w.writes && w.writes[t].group == Some(g);
      assert t in n.writes && n.writes[t].group == Some(g);
    }
  }

  // What is shown.

  /** Truth depends only on the answers and on where writes landed, and survives more landing. */
  lemma TruthMoves(w: World, n: World, lists: Lists, rules: RuleList)
    requires n.answers == w.answers
    requires forall t :: t in w.landed ==> t in n.landed && n.landed[t] == w.landed[t]
    ensures Truthful(w, lists) ==> Truthful(n, lists)
    ensures RulesTruthful(w, rules) ==> RulesTruthful(n, rules)
  {
    if Truthful(w, lists) {
      forall t | WasSaved(n, t) ensures ListsInclude(n, lists, t) { assert WasSaved(w, t); }
      forall t: nat | Optimistic(t) in lists.changes ensures !WasLost(n, t) { assert !WasLost(w, t); }
    }
    if RulesTruthful(w, rules) {
      forall t | WasSaved(n, t) ensures RulesInclude(n, rules, t) { assert WasSaved(w, t); }
    }
  }

  lemma StillPending(w: World, n: World, dropped: nat)
    requires LoadPending(w) && n.store.loadGen == w.store.loadGen
    requires forall id :: id in w.loads && id != dropped ==> id in n.loads && n.loads[id].gen == w.loads[id].gen
    requires dropped in w.loads && w.loads[dropped].gen == w.store.loadGen ==> dropped in n.loads && n.loads[dropped].gen == w.store.loadGen
    ensures LoadPending(n)
  {
    var id :| id in w.loads && w.loads[id].gen == w.store.loadGen;
    assert id in n.loads && n.loads[id].gen == n.store.loadGen;
  }

  lemma NewestIsBusy(w: World)
    requires Counted(w, 0)
    ensures w.store.latest in w.writes ==> w.store.busyCount > 0
  {
  }

  lemma ViewHolds_LoadGoesOn(cfg: Config, w: World, a: Action)
    requires ViewHolds(w) && LoadGoesOn(a) && Enabled(cfg, w, a)
    ensures ViewHolds(Apply(cfg, w, a))
  {
    var n := Apply(cfg, w, a);
    TruthMoves(w, n, w.store.lists, w.store.rules);
    if a.ReadAnswers? {
      if LoadPending(w) { StillPending(w, n, a.load); }
    } else {
      assert n.loads[w.nextLoad].gen == n.store.loadGen;
    }
  }

  lemma ViewHolds_LoadMayEnd(cfg: Config, w: World, a: Action)
    requires ViewHolds(w) && LoadMayEnd(a) && Enabled(cfg, w, a) && !a.LoadArrives?
    ensures ViewHolds(Apply(cfg, w, a))
  {
    var n := Apply(cfg, w, a);
    TruthMoves(w, n, w.store.lists, w.store.rules);
    if LoadPending(w) && !Excused(n) { StillPending(w, n, a.load); }
  }

  /** The moment a load is shown, every write saved so far is in it. */
  lemma ShownIsTrue(cfg: Config, w: World, id: nat)
    requires Counted(w, 0) && LoadsHold(w) && Enabled(cfg, w, LoadArrives(id)) && w.store.Shows(w.loads[id].gen)
    ensures var n := Apply(cfg, w, LoadArrives(id)); Truthful(n, n.store.lists) && RulesTruthful(n, n.store.rules)
  {
    var n := Apply(cfg, w, LoadArrives(id));
    var l := w.loads[id];
    assert Timed(w, l) && Current(w, l);
    forall t | WasSaved(n, t) ensures ListsInclude(n, n.store.lists, t) && RulesInclude(n, n.store.rules, t) {
      assert WasSaved(w, t) && LandedBefore(w, t, l.start);
    }
  }

  lemma ViewHolds_LoadArrives(cfg: Config, w: World, id: nat)
    requires ViewHolds(w) && Counted(w, 0) && LoadsHold(w) && Enabled(cfg, w, LoadArrives(id))
    ensures ViewHolds(Apply(cfg, w, LoadArrives(id)))
  {
    var n := Apply(cfg, w, LoadArrives(id));
    if w.store.Shows(w.loads[id].gen) {
      ShownIsTrue(cfg, w, id);
    } else {
      TruthMoves(w, n, w.store.lists, w.store.rules);
      if LoadPending(w) && !Excused(n) { StillPending(w, n, id); }
    }
  }

  lemma ViewHolds_WriteGoesOn(cfg: Config, w: World, a: Action)
    requires ViewHolds(w) && Counted(w, 0) && Ordered(w) && WriteGoesOn(a) && Enabled(cfg, w, a)
    ensures ViewHolds(Apply(cfg, w, a))
    ensures a.WriteStarts? && !Excused(Apply(cfg, w, a)) ==> Truthful(w, w.store.lists)
  {
    var n := Apply(cfg, w, a);
    TruthMoves(w, n, w.store.lists, w.store.rules);
    if LoadPending(w) {
      if a.WriteStarts? { assert w.store.loadsInFlight > 0; } else { StillPending(w, n, w.nextLoad); }
    }
    if a.WriteStarts? && !Excused(n) {
      assert n.store.lists.base == w.store.lists.base;
      forall t | WasSaved(n, t) ensures ListsInclude(n, n.store.lists, t) { assert ListsInclude(n, w.store.lists, t); }
    }
  }

  lemma ViewHolds_Committing(w: World, token: nat)
    requires ViewHolds(w) && Counted(w, 0) && Ordered(w) && token in w.writes && token in w.landed
    ensures ViewHolds(Committing(w, token))
  {
    var n := Committing(w, token);
    assert w.store.busyCount > 0;
    if !Excused(n) {
      forall t | WasSaved(n, t) ensures ListsInclude(n, n.store.lists, t) && RulesInclude(n, n.store.rules, t) {
        if t != token {
          assert WasSaved(w, t) && ListsInclude(w, w.store.lists, t) && RulesInclude(w, w.store.rules, t);
        }
      }
    }
  }

  lemma ViewHolds_RollingBack(cfg: Config, w: World, token: nat, lost: bool)
    requires ViewHolds(w) && NewestHolds(cfg, w) && Counted(w, 0) && Ordered(w) && token in w.writes
    ensures ViewHolds(RollingBack(cfg, w, token, lost))
  {
    var n := RollingBack(cfg, w, token, lost);
    assert w.store.busyCount > 0;
    if !Excused(n) {
      forall t | WasSaved(n, t) ensures ListsInclude(n, n.store.lists, t) && RulesInclude(n, n.store.rules, t) {
        assert WasSaved(w, t) && ListsInclude(w, w.writes[token].previous, t) && RulesInclude(w, w.store.rules, t);
      }
    }
  }

  lemma ViewHolds_Close(w: World, group: Option<string>)
    requires ViewHolds(w) && Counted(w, 1)
    ensures ViewHolds(Close(w, group))
  {
    var n := Close(w, group);
    TruthMoves(w, n, w.store.lists, w.store.rules);
    if n.store.loadGen > w.store.loadGen { assert n.loads[w.nextLoad].gen == n.store.loadGen; }
  }

  lemma NewestHolds_Loads(cfg: Config, w: World, a: Action)
    requires NewestHolds(cfg, w) && Counted(w, 0) && (LoadGoesOn(a) || LoadMayEnd(a)) && Enabled(cfg, w, a)
    ensures NewestHolds(cfg, Apply(cfg, w, a))
  {
    NewestIsBusy(w);
    if w.store.latest in w.writes {
      TruthMoves(w, Apply(cfg, w, a), w.writes[w.store.latest].previous, w.store.rules);
    }
  }

  lemma NewestHolds_WriteGoesOn(cfg: Config, w: World, a: Action)
    requires NewestHolds(cfg, w) && ViewHolds(w) && Counted(w, 0) && Ordered(w) && WriteGoesOn(a) && Enabled(cfg, w, a)
    ensures NewestHolds(cfg, Apply(cfg, w, a))
  {
    var n := Apply(cfg, w, a);
    if a.WriteStarts? {
      ViewHolds_WriteGoesOn(cfg, w, a);
      TruthMoves(w, n, w.store.lists, w.store.rules);
    } else if w.store.latest in w.writes {
      TruthMoves(w, n, w.writes[w.store.latest].previous, w.store.rules);
    }
  }

  lemma NewestHolds_Committing(cfg: Config, w: World, token: nat)
    requires NewestHolds(cfg, w) && token in w.writes
    ensures NewestHolds(cfg, Committing(w, token))
  {
  }

  lemma NewestHolds_RollingBack(cfg: Config, w: World, token: nat, lost: bool)
    requires NewestHolds(cfg, w) && token in w.writes
    ensures NewestHolds(cfg, RollingBack(cfg, w, token, lost))
  {
  }

  lemma NewestHolds_Close(cfg: Config, w: World, group: Option<string>)
    requires NewestHolds(cfg, w) && Counted(w, 1)
    ensures NewestHolds(cfg, Close(w, group))
  {
    if w.store.latest in w.writes {
      assert |w.writes| > 0;
      TruthMoves(w, Close(w, group), w.writes[w.store.latest].previous, w.store.rules);
    }
  }

  // Every run.

  lemma Closes(cfg: Config, w: World, token: nat, lost: bool, saved: bool)
    requires Inv(cfg, w) && token in w.writes && (saved ==> token in w.landed)
    ensures Inv(cfg, Close(if saved then Committing(w, token) else RollingBack(cfg, w, token, lost), w.writes[token].group))
  {
    var group := w.writes[token].group;
    var m := if saved then Committing(w, token) else RollingBack(cfg, w, token, lost);
    if saved {
      Counted_Committing(w, token); Ordered_Committing(cfg, w, token); LoadsHold_Committing(w, token);
      GroupsHold_Committing(w, token); ViewHolds_Committing(w, token); NewestHolds_Committing(cfg, w, token);
    } else {
      Counted_RollingBack(cfg, w, token, lost); Ordered_RollingBack(cfg, w, token, lost); LoadsHold_RollingBack(cfg, w, token, lost);
      GroupsHold_RollingBack(cfg, w, token, lost); ViewHolds_RollingBack(cfg, w, token, lost); NewestHolds_RollingBack(cfg, w, token, lost);
    }
    Counted_Close(m, group); Ordered_Close(m, group); LoadsHold_Close(m, group);
    GroupsHold_Close(m, group); ViewHolds_Close(m, group); NewestHolds_Close(cfg, m, group);
  }

  lemma StepHolds(cfg: Config, w: World, a: Action)
    requires Inv(cfg, w)
    ensures Inv(cfg, Step(cfg, w, a))
  {
    if !Enabled(cfg, w, a) {
    } else if LoadGoesOn(a) {
      Counted_LoadGoesOn(cfg, w, a); Ordered_LoadGoesOn(cfg, w, a); LoadsHold_LoadGoesOn(cfg, w, a);
      GroupsHold_LoadGoesOn(cfg, w, a); ViewHolds_LoadGoesOn(cfg, w, a); NewestHolds_Loads(cfg, w, a);
    } else if LoadMayEnd(a) {
      Counted_LoadMayEnd(cfg, w, a); Ordered_LoadMayEnd(cfg, w, a); LoadsHold_LoadMayEnd(cfg, w, a);
      GroupsHold_LoadMayEnd(cfg, w, a); NewestHolds_Loads(cfg, w, a);
      if a.LoadArrives? { ViewHolds_LoadArrives(cfg, w, a.load); } else { ViewHolds_LoadMayEnd(cfg, w, a); }
    } else if WriteGoesOn(a) {
      Counted_WriteGoesOn(cfg, w, a); Ordered_WriteGoesOn(cfg, w, a); LoadsHold_WriteGoesOn(cfg, w, a);
      GroupsHold_WriteGoesOn(cfg, w, a); ViewHolds_WriteGoesOn(cfg, w, a); NewestHolds_WriteGoesOn(cfg, w, a);
    } else {
      Closes(cfg, w, a.token, a.WriteFails? && a.lost, a.WriteSucceeds?);
    }
  }

  lemma {:induction false} RunHolds(cfg: Config, acts: seq<Action>)
    ensures Inv(cfg, Run(cfg, acts))
  {
    if acts == [] {
      StartHolds(cfg);
    } else {
      RunHolds(cfg, acts[..|acts| - 1]);
      StepHolds(cfg, Run(cfg, acts[..|acts| - 1]), acts[|acts| - 1]);
    }
  }

  /** No lost write: whatever a load puts on screen was read, list by list, after every write whose
      success had been answered by then, whether or not that write's own result was ever shown. */
  lemma NoLostWrite(cfg: Config, acts: seq<Action>, id: nat)
    requires var w := Run(cfg, acts); Enabled(cfg, w, LoadArrives(id)) && w.store.Shows(w.loads[id].gen)
    ensures
      var w := Run(cfg, acts);
      var n := Run(cfg, acts + [LoadArrives(id)]).store;
      && n.lists == Lists(Read(w.loads[id].groups.value, w.loads[id].devices.value), [])
      && n.rules == RuleList(Some(w.loads[id].rules.value), [])
      && forall t :: WasSaved(w, t) ==>
           && LandedBefore(w, t, n.lists.base.groups) && LandedBefore(w, t, n.lists.base.devices)
           && LandedBefore(w, t, n.rules.base.value)
  {
    var w := Run(cfg, acts);
    RunHolds(cfg, acts);
    assert (acts + [LoadArrives(id)])[..|acts|] == acts;
    var l := w.loads[id];
    assert Timed(w, l) && Current(w, l);
    forall t | WasSaved(w, t) ensures LandedBefore(w, t, l.groups.value) && LandedBefore(w, t, l.devices.value) && LandedBefore(w, t, l.rules.value) {
      assert LandedBefore(w, t, l.start);
    }
  }

  /** In every reachable state that a reload is not about to correct, that no load in flight will
      replace and that is not marked stale, the shown lists hold every saved write and no optimistic
      change of a failed one. */
  lemma SettledViewIsTrue(cfg: Config, acts: seq<Action>)
    requires var w := Run(cfg, acts); !Settling(w) && w.store.status != Incompatible
    ensures var w := Run(cfg, acts); Truthful(w, w.store.lists) && RulesTruthful(w, w.store.rules)
  {
    RunHolds(cfg, acts);
  }

  /** The bookkeeping a client sees: `busy` counts the writes in flight, at most one of them is for any
      one group, those groups are the busy ones, and a reload only waits while a write is in flight. */
  lemma BusyIsExact(cfg: Config, acts: seq<Action>)
    ensures
      var w := Run(cfg, acts);
      && w.store.busyCount == |w.writes| && w.store.loadsInFlight == |w.loads|
      && (w.store.reloadAfterWrites ==> w.store.busyCount > 0)
      && (forall g :: g in w.store.busyGroups <==> exists t :: t in w.writes && w.writes[t].group == Some(g))
      && (forall t, u :: t in w.writes && u in w.writes && w.writes[t].group.Some? && w.writes[t].group == w.writes[u].group ==> t == u)
  {
    RunHolds(cfg, acts);
  }

  lemma RunOne(cfg: Config, acts: seq<Action>, a: Action)
    ensures Run(cfg, acts + [a]) == Step(cfg, Run(cfg, acts), a)
  {
    assert (acts + [a])[..|acts|] == acts;
  }

  /** A failed write that owns what is shown takes back its own change and nothing else. */
  lemma RollbackUndoesOnlyItsOwn(cfg: Config, acts: seq<Action>, lost: bool)
    requires var w := Run(cfg, acts); w.store.latest in w.writes
    ensures
      var w := Run(cfg, acts);
      var call := w.writes[w.store.latest];
      && (w.store.lists == WithChange(call, w.store.latest) || (cfg.check && w.store.lists == EMPTY))
      && Run(cfg, acts + [WriteFails(w.store.latest, lost)]).store.lists == call.previous
  {
    RunHolds(cfg, acts);
    var w := Run(cfg, acts);
    RunOne(cfg, acts, WriteFails(w.store.latest, lost));
    RestoresPrevious(cfg, w, lost);
  }

  lemma RestoresPrevious(cfg: Config, w: World, lost: bool)
    requires w.store.latest in w.writes
    ensures Step(cfg, w, WriteFails(w.store.latest, lost)).store.lists == w.writes[w.store.latest].previous
  {
    var m := RollingBack(cfg, w, w.store.latest, lost);
    assert m.store.lists == w.writes[w.store.latest].previous;
  }

  lemma StatusKept(cfg: Config, w: World, a: Action)
    requires !cfg.check && w.store.status != Incompatible
    ensures Step(cfg, w, a).store.status != Incompatible
  {
    if Enabled(cfg, w, a) {
      if a.WriteSucceeds? {
        assert Committing(w, a.token).store.status != Incompatible;
      } else if a.WriteFails? {
        assert RollingBack(cfg, w, a.token, a.lost).store.status != Incompatible;
      }
    }
  }

  lemma {:induction false} NeverIncompatible(cfg: Config, acts: seq<Action>)
    requires !cfg.check
    ensures Run(cfg, acts).store.status != Incompatible
  {
    if acts != [] {
      NeverIncompatible(cfg, acts[..|acts| - 1]);
      StatusKept(cfg, Run(cfg, acts[..|acts| - 1]), acts[|acts| - 1]);
    }
  }

  /** Every settled view of every run is true. */
  ghost predicate AlwaysTrue(cfg: Config) {
    forall acts :: !Settling(Run(cfg, acts)) ==> Truthful(Run(cfg, acts), Run(cfg, acts).store.lists)
  }

  /** The household is loaded once, with nothing written yet. */
  lemma FirstLoad(cfg: Config) returns (acts: seq<Action>)
    requires cfg.check
    ensures Run(cfg, acts) == World(Store(Ready, false, Lists(Read(0, 0), []), RuleList(Some(0), []), 1, 0, 0, false, 0, []),
                                    map[], 1, map[], 0, map[], map[])
  {
    RunOne(cfg, [], ReloadStarts); acts := [] + [ReloadStarts];
    RunOne(cfg, acts, CheckAnswers(0, Compatible)); acts := acts + [CheckAnswers(0, Compatible)];
    RunOne(cfg, acts, ReadAnswers(0, Groups)); acts := acts + [ReadAnswers(0, Groups)];
    RunOne(cfg, acts, ReadAnswers(0, Devices)); acts := acts + [ReadAnswers(0, Devices)];
    RunOne(cfg, acts, ReadAnswers(0, Rules)); acts := acts + [ReadAnswers(0, Rules)];
    assert Run(cfg, acts).loads == map[0 := LoadCall(1, true, 0, true, Some(0), Some(0), Some(0))];
    RunOne(cfg, acts, LoadArrives(0)); acts := acts + [LoadArrives(0)];
  }

  const LOADED := Lists(Read(0, 0), [])
  const SECOND := WriteCall(Lists(Read(0, 0), [Optimistic(1)]), None, true)

  /** Two overlapping writes, the first of which fails: its change stays until a reload undoes it. */
  lemma FirstOfTwoFails(cfg: Config) returns (acts: seq<Action>)
    requires cfg.check
    ensures Run(cfg, acts) == World(
              Store(Ready, false, Lists(Read(0, 0), [Optimistic(1), Optimistic(2)]), RuleList(Some(0), []), 3, 2, 1, true, 0, []),
              map[], 1, map[2 := SECOND], 0, map[], map[1 := Lost])
  {
    acts := FirstLoad(cfg);
    RunOne(cfg, acts, WriteStarts(None, true)); acts := acts + [WriteStarts(None, true)];
    assert Run(cfg, acts).writes == map[1 := WriteCall(LOADED, None, true)];
    assert Run(cfg, acts).store.lists == Lists(Read(0, 0), [Optimistic(1)]);
    RunOne(cfg, acts, WriteStarts(None, true)); acts := acts + [WriteStarts(None, true)];
    assert Run(cfg, acts).writes == map[1 := WriteCall(LOADED, None, true), 2 := SECOND];
    RunOne(cfg, acts, WriteFails(1, false)); acts := acts + [WriteFails(1, false)];
    assert Run(cfg, acts).writes == map[2 := SECOND];
  }

  lemma EmptiedUnderAWrite(cfg: Config) returns (acts: seq<Action>)
    requires cfg.check
    ensures Run(cfg, acts) == World(
              Store(Incompatible, false, EMPTY, NO_RULES, 4, 2, 1, true, 0, []),
              map[], 2, map[2 := SECOND], 0, map[], map[1 := Lost])
  {
    acts := FirstOfTwoFails(cfg);
    RunOne(cfg, acts, ReloadStarts); acts := acts + [ReloadStarts];
    RunOne(cfg, acts, CheckAnswers(1, Mismatch)); acts := acts + [CheckAnswers(1, Mismatch)];
    assert Run(cfg, acts).loads == map[];
  }

  /** The second write fails after a mismatch emptied the store: it puts back the lists it began with,
      the first one's change among them, and the reload that would undo it is withheld. */
  lemma PhantomWhenIncompatible(cfg: Config) returns (acts: seq<Action>)
    requires cfg.check
    ensures var w := Run(cfg, acts); !Settling(w) && w.store.status == Incompatible && !Truthful(w, w.store.lists)
  {
    acts := EmptiedUnderAWrite(cfg);
    RunOne(cfg, acts, WriteFails(2, false));
    var w := Run(cfg, acts);
    var m := RollingBack(cfg, w, 2, false);
    assert m.store == w.store.(lists := SECOND.previous);
    acts := acts + [WriteFails(2, false)];
    var n := Run(cfg, acts);
    assert n.store.lists == SECOND.previous && n.loads.Keys == {2} && n.store.loadGen == 5;
    RunOne(cfg, acts, CheckAnswers(2, Unknown)); acts := acts + [CheckAnswers(2, Unknown)];
    n := Run(cfg, acts);
    assert n.loads == map[] && WasLost(n, 1);
    assert n.store.lists.changes[0] == Optimistic(1);
  }

  /** Exactly a client that never checks compatibility always shows the truth once settled: a mismatch
      that empties the store under a write in flight lets that write put its earlier lists back. */
  lemma TrueExactlyWithoutChecks(cfg: Config)
    ensures AlwaysTrue(cfg) <==> !cfg.check
  {
    if cfg.check {
      var acts := PhantomWhenIncompatible(cfg);
    } else {
      forall acts | !Settling(Run(cfg, acts)) ensures Truthful(Run(cfg, acts), Run(cfg, acts).store.lists) {
        NeverIncompatible(cfg, acts);
        SettledViewIsTrue(cfg, acts);
      }
    }
  }
}
