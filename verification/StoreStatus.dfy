/** What the client says of itself, and when it sends a write, over every run of the household store. */
module StoreStatus {
  // Told by what happened to the loads and the writes alone.
  import opened Wrappers
  import opened HouseholdStore
  import opened HouseholdRuns

  /** The load the action is about was not superseded. */
  predicate Counts(w: World, load: nat) {
    load in w.loads && w.loads[load].gen == w.store.loadGen
  }

  /** The household could not be read: a mismatch, whatever else was to come. */
  predicate Mismatches(cfg: Config, w: World, a: Action) {
    Enabled(cfg, w, a) && a.CheckAnswers? && a.answer == Mismatch && Counts(w, a.load)
  }

  predicate Breaks(cfg: Config, w: World, a: Action) {
    Enabled(cfg, w, a) && a.LoadBreaks? && Counts(w, a.load)
  }

  /** A load arrives with no write in flight. */
  predicate Appears(cfg: Config, w: World, a: Action) {
    Enabled(cfg, w, a) && a.LoadArrives? && Counts(w, a.load) && w.writes == map[]
  }

  /** The status the action gives, when it gives one. */
  function Gives(cfg: Config, w: World, a: Action): Option<Status> {
    if Mismatches(cfg, w, a) then Some(Incompatible)
    else if Breaks(cfg, w, a) && a.unauthorized then Some(SignedOut)
    else if Appears(cfg, w, a) && w.loads[a.load].full then Some(Ready)
    else None
  }

  /** Whether the action tells that the view is out of date, or that it is not. */
  function Tells(cfg: Config, w: World, a: Action): Option<bool> {
    if Breaks(cfg, w, a) then Some(true)
    else if Mismatches(cfg, w, a) || Appears(cfg, w, a) then Some(false)
    else None
  }

  /** What each action of the run gave. */
  function Given(cfg: Config, acts: seq<Action>): seq<Option<Status>> {
    seq(|acts|, k requires 0 <= k < |acts| => Gives(cfg, Run(cfg, acts[..k]), acts[k]))
  }

  function Told(cfg: Config, acts: seq<Action>): seq<Option<bool>> {
    seq(|acts|, k requires 0 <= k < |acts| => Tells(cfg, Run(cfg, acts[..k]), acts[k]))
  }

  lemma GivenMore(cfg: Config, acts: seq<Action>)
    requires acts != []
    ensures
      var last := |acts| - 1;
      && Given(cfg, acts) == Given(cfg, acts[..last]) + [Gives(cfg, Run(cfg, acts[..last]), acts[last])]
      && Told(cfg, acts) == Told(cfg, acts[..last]) + [Tells(cfg, Run(cfg, acts[..last]), acts[last])]
  {
    assert forall k :: 0 <= k < |acts| - 1 ==> acts[..|acts| - 1][..k] == acts[..k];
  }

  /** The last of the values that is one, and the first one before any. */
  ghost predicate IsLast<T(!new)>(values: seq<Option<T>>, first: T, value: T) {
    || (value == first && forall j :: 0 <= j < |values| ==> values[j] == None)
    || exists k :: 0 <= k < |values| && values[k] == Some(value) && forall j :: k < j < |values| ==> values[j] == None
  }

  lemma LastNext<T(!new)>(values: seq<Option<T>>, first: T, value: T, next: Option<T>)
    requires IsLast(values, first, value)
    ensures IsLast(values + [next], first, if next.Some? then next.value else value)
  {
    var all := values + [next];
    if next.Some? {
      assert all[|values|] == next;
    } else if k :| 0 <= k < |values| && values[k] == Some(value) && forall j :: k < j < |values| ==> values[j] == None {
      assert all[k] == Some(value);
    }
  }

  lemma NoWrites(w: World)
    requires Counted(w, 0)
    ensures w.store.busyCount <= 0 <==> w.writes == map[]
  {
    assert w.writes == map[] <==> |w.writes| == 0;
  }

  lemma LoadSays(cfg: Config, w: World, a: Action)
    requires w.store.busyCount <= 0 <==> w.writes == map[]
    requires LoadGoesOn(a) || LoadMayEnd(a)
    ensures Step(cfg, w, a).store.status == (if Gives(cfg, w, a).Some? then Gives(cfg, w, a).value else w.store.status)
    ensures Step(cfg, w, a).store.stale == (if Tells(cfg, w, a).Some? then Tells(cfg, w, a).value else w.store.stale)
  {
  }

  lemma ContinueSays(w: World, s: Store)
    ensures Continue(w, s).store == s
  {
  }

  lemma WriteSays(cfg: Config, w: World, a: Action)
    requires !LoadGoesOn(a) && !LoadMayEnd(a)
    ensures Step(cfg, w, a).store.status == w.store.status && Step(cfg, w, a).store.stale == w.store.stale
  {
    if a.WriteSucceeds? && Enabled(cfg, w, a) {
      ContinueSays(Committing(w, a.token), w.store.Committed(a.token).Settle(w.writes[a.token].group));
    } else if a.WriteFails? && Enabled(cfg, w, a) {
      var rolled := w.store.RolledBack(cfg, a.token, w.writes[a.token].previous, a.lost);
      ContinueSays(w.(writes := w.writes - {a.token}, answers := w.answers[a.token := Lost]), rolled);
      ContinueSays(RollingBack(cfg, w, a.token, a.lost), rolled.Settle(w.writes[a.token].group));
    }
  }

  lemma WriteTellsNothing(cfg: Config, w: World, a: Action)
    requires !LoadGoesOn(a) && !LoadMayEnd(a)
    ensures Gives(cfg, w, a).None? && Tells(cfg, w, a).None?
  {
  }

  /** At any time the status is the last one given, and the view is stale exactly when the last load that told
      anything broke: a mismatch and a load that appears both make it fresh, and only a load of the current
      generation tells anything. */
  lemma {:induction false} StatusIsLastGiven(cfg: Config, acts: seq<Action>)
    ensures IsLast(Given(cfg, acts), Loading, Run(cfg, acts).store.status)
    ensures IsLast(Told(cfg, acts), false, Run(cfg, acts).store.stale)
  {
    if acts != [] {
      var last := |acts| - 1;
      var w := Run(cfg, acts[..last]);
      StatusIsLastGiven(cfg, acts[..last]);
      RunHolds(cfg, acts[..last]);
      NoWrites(w);
      if LoadGoesOn(acts[last]) || LoadMayEnd(acts[last]) { LoadSays(cfg, w, acts[last]); } else { WriteSays(cfg, w, acts[last]); WriteTellsNothing(cfg, w, acts[last]); }
      GivenMore(cfg, acts);
      LastNext(Given(cfg, acts[..last]), Loading, w.store.status, Gives(cfg, w, acts[last]));
      LastNext(Told(cfg, acts[..last]), false, w.store.stale, Tells(cfg, w, acts[last]));
    }
  }

  // When a write is sent.

  /** Nothing keeps a write for the group from being sent: the server can be read, a client with an offline
      guard has a view that is ready and not stale, and no write in flight is for the same group. */
  ghost predicate MaySend(cfg: Config, w: World, group: Option<string>) {
    && w.store.status != Incompatible
    && (cfg.guard ==> w.store.status == Ready && !w.store.stale)
    && (group.Some? ==> forall t :: t in w.writes ==> w.writes[t].group != group)
  }

  /** A write is sent exactly when nothing keeps it; otherwise nothing happens. */
  lemma SentExactly(cfg: Config, acts: seq<Action>, group: Option<string>, optimistic: bool)
    ensures
      var w := Run(cfg, acts);
      var n := Run(cfg, acts + [WriteStarts(group, optimistic)]);
      if MaySend(cfg, w, group) then n.store.latest !in w.writes && n.writes == w.writes[n.store.latest := WriteCall(w.store.lists, group, optimistic)]
      else n == w
  {
    RunHolds(cfg, acts);
    RunOne(cfg, acts, WriteStarts(group, optimistic));
    SendStep(cfg, Run(cfg, acts), group, optimistic);
  }

  lemma SendStep(cfg: Config, w: World, group: Option<string>, optimistic: bool)
    requires Inv(cfg, w)
    ensures
      var n := Step(cfg, w, WriteStarts(group, optimistic));
      if MaySend(cfg, w, group) then n.store.latest !in w.writes && n.writes == w.writes[n.store.latest := WriteCall(w.store.lists, group, optimistic)]
      else n == w
  {
    GateIs(cfg, w, group);
    assert w.store.latest + 1 !in w.writes;
  }

  lemma GateIs(cfg: Config, w: World, group: Option<string>)
    requires GroupsHold(w, None)
    ensures w.store.Accepts(cfg, group) <==> MaySend(cfg, w, group)
  {
  }

  // When a load starts.

  /** A live refresh reads what is shown again; but of a server that could not be read, it reads everything, and
      every load on its way is superseded. */
  lemma LiveRereads(cfg: Config, acts: seq<Action>)
    ensures
      var w := Run(cfg, acts);
      var n := Run(cfg, acts + [LiveStarts]);
      && w.nextLoad !in w.loads && n.loads == w.loads[w.nextLoad := LoadCall(n.store.loadGen, w.store.status == Incompatible, w.server, false, None, None, None)]
      && forall l :: Counts(w, l) ==> (Counts(n, l) <==> w.store.status != Incompatible)
  {
    RunHolds(cfg, acts);
    RunOne(cfg, acts, LiveStarts);
    LiveStep(cfg, Run(cfg, acts));
  }

  lemma LiveStep(cfg: Config, w: World)
    requires Counted(w, 0)
    ensures
      var n := Step(cfg, w, LiveStarts);
      && w.nextLoad !in w.loads && n.loads == w.loads[w.nextLoad := LoadCall(n.store.loadGen, w.store.status == Incompatible, w.server, false, None, None, None)]
      && forall l :: Counts(w, l) ==> (Counts(n, l) <==> w.store.status != Incompatible)
  {
  }

  /** What an answered write rereads: one load at once when a client with an offline guard loses the newest
      write's connection, and one more when it was the last in flight and something had been set aside, an older
      write's answer among it. */
  lemma RereadsExactly(cfg: Config, acts: seq<Action>, token: nat, lost: Option<bool>)
    requires var w := Run(cfg, acts); token in w.writes && (lost.None? ==> token in w.landed)
    ensures
      var w := Run(cfg, acts);
      var n := Run(cfg, acts + [if lost.Some? then WriteFails(token, lost.value) else WriteSucceeds(token)]);
      |n.loads| == |w.loads|
                   + (if cfg.guard && lost == Some(true) && token == w.store.latest then 1 else 0)
                   + (if w.writes.Keys == {token} && (w.store.reloadAfterWrites || token != w.store.latest) then 1 else 0)
  {
    var w := Run(cfg, acts);
    RunHolds(cfg, acts);
    RunOne(cfg, acts, if lost.Some? then WriteFails(token, lost.value) else WriteSucceeds(token));
    LastInFlight(w, token);
    if lost.Some? { RollsBackLoads(cfg, w, token, lost.value); } else { CommitsLoads(cfg, w, token); }
  }

  lemma LastInFlight(w: World, token: nat)
    requires token in w.writes
    ensures |w.writes| == 1 <==> w.writes.Keys == {token}
  {
    if |w.writes| == 1 { Singleton(w.writes.Keys, token); }
  }

  lemma Singleton(s: set<nat>, x: nat)
    requires x in s && |s| == 1
    ensures s == {x}
  {
    assert |s - {x}| == 0;
  }

  lemma ClosesLoads(w: World, group: Option<string>)
    requires Counted(w, 1)
    ensures |Close(w, group).loads| == |w.loads| + if w.store.busyCount == 1 && w.store.reloadAfterWrites then 1 else 0
  {
  }

  lemma RollsBackLoads(cfg: Config, w: World, token: nat, lost: bool)
    requires Inv(cfg, w) && token in w.writes
    ensures |Step(cfg, w, WriteFails(token, lost)).loads| == |w.loads|
                   + (if cfg.guard && lost && token == w.store.latest then 1 else 0)
                   + (if |w.writes| == 1 && (w.store.reloadAfterWrites || token != w.store.latest) then 1 else 0)
  {
    Counted_RollingBack(cfg, w, token, lost);
    ClosesLoads(RollingBack(cfg, w, token, lost), w.writes[token].group);
  }

  lemma CommitsLoads(cfg: Config, w: World, token: nat)
    requires Inv(cfg, w) && token in w.writes && token in w.landed
    ensures |Step(cfg, w, WriteSucceeds(token)).loads| == |w.loads|
                   + (if |w.writes| == 1 && (w.store.reloadAfterWrites || token != w.store.latest) then 1 else 0)
  {
    Counted_Committing(w, token);
    ClosesLoads(Committing(w, token), w.writes[token].group);
  }
}
