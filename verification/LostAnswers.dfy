/** What becomes of a write whose connection was lost, over every run of the household store. */
module LostAnswers {
  // Whether such a write landed is unknown, so a client with an offline guard reads the household again.
  import opened Wrappers
  import opened HouseholdStore
  import opened HouseholdRuns

  /** Lists read no earlier than `moment`. */
  predicate ListsSince(lists: Lists, moment: nat) {
    lists.base.Read? && moment <= lists.base.groups && moment <= lists.base.devices
  }

  predicate RulesSince(rules: RuleList, moment: nat) {
    rules.base.Some? && moment <= rules.base.value
  }

  /** A load that may still be shown started no earlier than `moment`. */
  ghost predicate LoadsSince(w: World, moment: nat) {
    forall id :: id in w.loads && w.loads[id].gen == w.store.loadGen ==> w.store.reloadAfterWrites || moment <= w.loads[id].start
  }

  /** What is shown was read no earlier than `moment`, or something will still correct it; a load does, once
      the newest write is answered. */
  ghost predicate ViewSince(w: World, moment: nat) {
    || Excused(w)
    || (w.store.latest !in w.writes && LoadPending(w))
    || (ListsSince(w.store.lists, moment) && RulesSince(w.store.rules, moment))
  }

  /** So were the lists the newest write in flight would put back. */
  ghost predicate NewestSince(w: World, moment: nat) {
    w.store.latest in w.writes ==> Excused(w) || ListsSince(w.writes[w.store.latest].previous, moment)
  }

  ghost predicate Since(w: World, moment: nat) {
    moment <= w.server && LoadsSince(w, moment) && ViewSince(w, moment) && NewestSince(w, moment)
  }

  lemma Since_Starts(cfg: Config, w: World, a: Action, moment: nat)
    requires Counted(w, 0) && LoadsHold(w) && Since(w, moment) && (a.ReloadStarts? || a.LiveStarts?)
    ensures Since(Apply(cfg, w, a), moment)
  {
    var n := Apply(cfg, w, a);
    assert n.loads[w.nextLoad].gen == n.store.loadGen && n.loads[w.nextLoad].start == w.server;
    forall id | id in n.loads && id != w.nextLoad ensures id in w.loads && n.loads[id] == w.loads[id] && n.loads[id].gen <= w.store.loadGen {
      assert Timed(w, w.loads[id]);
    }
  }

  lemma Since_Reads(cfg: Config, w: World, a: Action, moment: nat)
    requires Since(w, moment) && a.ReadAnswers? && Enabled(cfg, w, a)
    ensures Since(Apply(cfg, w, a), moment)
  {
    if LoadPending(w) { StillPending(w, Apply(cfg, w, a), a.load); }
  }

  lemma Since_LoadMayEnd(cfg: Config, w: World, a: Action, moment: nat)
    requires Inv(cfg, w) && Since(w, moment) && LoadMayEnd(a) && Enabled(cfg, w, a)
    ensures Since(Apply(cfg, w, a), moment)
  {
    var n := Apply(cfg, w, a);
    NewestIsBusy(w);
    if a.LoadArrives? && w.store.Shows(w.loads[a.load].gen) {
      assert Timed(w, w.loads[a.load]);
    } else if LoadPending(w) && !Excused(n) {
      StillPending(w, n, a.load);
    }
  }

  lemma Since_WriteGoesOn(cfg: Config, w: World, a: Action, moment: nat)
    requires Inv(cfg, w) && Since(w, moment) && WriteGoesOn(a) && Enabled(cfg, w, a)
    ensures Since(Apply(cfg, w, a), moment)
  {
    var n := Apply(cfg, w, a);
    if LoadPending(w) {
      if a.WriteStarts? { assert w.store.loadsInFlight > 0; } else { StillPending(w, n, w.nextLoad); }
    }
  }

  lemma Since_Committing(cfg: Config, w: World, token: nat, moment: nat)
    requires Inv(cfg, w) && Since(w, moment) && token in w.writes && token in w.landed
    ensures Since(Committing(w, token), moment)
  {
    var n := Committing(w, token);
    assert w.store.latest != token ==> Excused(n);
  }

  lemma Since_RollingBack(cfg: Config, w: World, token: nat, lost: bool, moment: nat)
    requires Inv(cfg, w) && Since(w, moment) && token in w.writes
    ensures Since(RollingBack(cfg, w, token, lost), moment)
  {
    var n := RollingBack(cfg, w, token, lost);
    assert n.store.loadGen > w.store.loadGen ==> n.loads[w.nextLoad].gen == n.store.loadGen;
  }

  lemma Since_Close(w: World, group: Option<string>, moment: nat)
    requires Counted(w, 1) && LoadsHold(w) && Since(w, moment)
    ensures Since(Close(w, group), moment)
  {
    var n := Close(w, group);
    assert forall id :: id in w.loads ==> Timed(w, w.loads[id]);
    assert n.store.loadGen > w.store.loadGen ==> n.loads[w.nextLoad].gen == n.store.loadGen;
    if LoadPending(w) && n.store.loadGen == w.store.loadGen { StillPending(w, n, w.nextLoad); }
  }

  /** Nothing shown later is older. */
  lemma Since_Step(cfg: Config, w: World, a: Action, moment: nat)
    requires Inv(cfg, w) && Since(w, moment)
    ensures Since(Step(cfg, w, a), moment)
  {
    if !Enabled(cfg, w, a) {
    } else if a.ReadAnswers? {
      Since_Reads(cfg, w, a, moment);
    } else if LoadGoesOn(a) {
      Since_Starts(cfg, w, a, moment);
    } else if LoadMayEnd(a) {
      Since_LoadMayEnd(cfg, w, a, moment);
    } else if WriteGoesOn(a) {
      Since_WriteGoesOn(cfg, w, a, moment);
    } else if a.WriteSucceeds? {
      Counted_Committing(w, a.token);
      LoadsHold_Committing(w, a.token);
      Since_Committing(cfg, w, a.token, moment);
      Since_Close(Committing(w, a.token), w.writes[a.token].group, moment);
    } else {
      Counted_RollingBack(cfg, w, a.token, a.lost);
      LoadsHold_RollingBack(cfg, w, a.token, a.lost);
      Since_RollingBack(cfg, w, a.token, a.lost, moment);
      Since_Close(RollingBack(cfg, w, a.token, a.lost), w.writes[a.token].group, moment);
    }
  }

  lemma LossRolls(cfg: Config, w: World, token: nat)
    requires Counted(w, 0) && LoadsHold(w) && cfg.guard && token in w.writes
    ensures Since(RollingBack(cfg, w, token, true), w.server)
  {
    var n := RollingBack(cfg, w, token, true);
    if token == w.store.latest {
      assert forall id :: id in w.loads ==> Timed(w, w.loads[id]);
      assert n.loads[w.nextLoad].gen == n.store.loadGen && n.loads[w.nextLoad].start == w.server;
    }
  }

  /** A lost connection starts it: from then on what is shown was read later, or will be. */
  lemma LossBegins(cfg: Config, w: World, token: nat)
    requires Inv(cfg, w) && cfg.guard && token in w.writes
    ensures Since(Step(cfg, w, WriteFails(token, true)), w.server)
  {
    Counted_RollingBack(cfg, w, token, true);
    LoadsHold_RollingBack(cfg, w, token, true);
    LossRolls(cfg, w, token);
    Since_Close(RollingBack(cfg, w, token, true), w.writes[token].group, w.server);
  }

  lemma {:induction false} SinceRuns(cfg: Config, before: seq<Action>, after: seq<Action>, moment: nat)
    requires Since(Run(cfg, before), moment)
    ensures Since(Run(cfg, before + after), moment)
  {
    if after == [] {
      assert before + after == before;
    } else {
      var last := |after| - 1;
      SinceRuns(cfg, before, after[..last], moment);
      RunHolds(cfg, before + after[..last]);
      Since_Step(cfg, Run(cfg, before + after[..last]), after[last], moment);
      assert before + after == (before + after[..last]) + [after[last]];
      RunOne(cfg, before + after[..last], after[last]);
    }
  }

  /** The newest write losing its connection makes a guarded client read everything again: a full load of the
      current generation starts there and then. */
  lemma LossIsReread(cfg: Config, acts: seq<Action>)
    requires var w := Run(cfg, acts); cfg.guard && w.store.latest in w.writes
    ensures
      var w := Run(cfg, acts);
      var n := Run(cfg, acts + [WriteFails(w.store.latest, true)]);
      exists id :: id in n.loads && id !in w.loads && n.loads[id].full && n.loads[id].gen == n.store.loadGen && n.loads[id].start == w.server
  {
    var w := Run(cfg, acts);
    RunHolds(cfg, acts);
    RunOne(cfg, acts, WriteFails(w.store.latest, true));
    LossLoads(cfg, w);
  }

  lemma LossLoads(cfg: Config, w: World)
    requires Inv(cfg, w) && cfg.guard && w.store.latest in w.writes
    ensures
      var n := Step(cfg, w, WriteFails(w.store.latest, true));
      exists id :: id in n.loads && id !in w.loads && n.loads[id].full && n.loads[id].gen == n.store.loadGen && n.loads[id].start == w.server
  {
    var m := RollingBack(cfg, w, w.store.latest, true);
    var n := Close(m, w.writes[w.store.latest].group);
    assert m.loads[w.nextLoad].gen == m.store.loadGen && m.loads[w.nextLoad].start == w.server;
    var id := if n.store.loadGen > m.store.loadGen then m.nextLoad else w.nextLoad;
    assert id in n.loads && id !in w.loads && n.loads[id].gen == n.store.loadGen;
  }

  /** A settled view of a guarded client was read, list by list, after every answer that was lost: so it holds
      each write whose answer was lost, if that had landed by then. */
  lemma SettledAfterLoss(cfg: Config, before: seq<Action>, token: nat, after: seq<Action>)
    requires cfg.guard && token in Run(cfg, before).writes
    requires var n := Run(cfg, before + [WriteFails(token, true)] + after); !Settling(n) && n.store.status != Incompatible
    ensures
      var w := Run(cfg, before);
      var n := Run(cfg, before + [WriteFails(token, true)] + after);
      && ListsSince(n.store.lists, w.server) && RulesSince(n.store.rules, w.server)
      && (token in w.landed ==> ListsInclude(n, n.store.lists, token) && RulesInclude(n, n.store.rules, token))
  {
    var w := Run(cfg, before);
    var failed := before + [WriteFails(token, true)];
    RunHolds(cfg, before);
    LossBegins(cfg, w, token);
    RunOne(cfg, before, WriteFails(token, true));
    SinceRuns(cfg, failed, after, w.server);
    if token in w.landed { LandedStays(cfg, failed, after, token); }
  }

  /** Where a write landed never changes. */
  lemma {:induction false} LandedStays(cfg: Config, before: seq<Action>, after: seq<Action>, token: nat)
    requires token in Run(cfg, before).landed
    ensures token in Run(cfg, before + after).landed && Run(cfg, before + after).landed[token] == Run(cfg, before).landed[token]
  {
    if after == [] {
      assert before + after == before;
    } else {
      var last := |after| - 1;
      LandedStays(cfg, before, after[..last], token);
      assert before + after == (before + after[..last]) + [after[last]];
      RunOne(cfg, before + after[..last], after[last]);
      LandedKept(cfg, Run(cfg, before + after[..last]), after[last], token);
    }
  }

  lemma LandedKept(cfg: Config, w: World, a: Action, token: nat)
    requires token in w.landed
    ensures token in Step(cfg, w, a).landed && Step(cfg, w, a).landed[token] == w.landed[token]
  {
  }
}
