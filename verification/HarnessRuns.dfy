/** What every run of the harness records, whatever fails in it and whenever it is interrupted. */
module HarnessRuns {
  // How many verdicts each planned test gets, and a zero exit only when each is good.
  import opened Planning
  import opened Harness
  import opened Wrappers

  /** How many rows a key has. */
  function CountKey(results: seq<Row>, key: Key): nat {
    if results == [] then 0
    else CountKey(results[..|results| - 1], key) + if results[|results| - 1].key == Some(key) then 1 else 0
  }

  ghost predicate UniqueKeys(steps: seq<Step>) {
    forall i, j :: 0 <= i < j < |steps| ==> steps[i].key != steps[j].key
  }

  function Keys(steps: seq<Step>): set<Key> {
    set k | 0 <= k < |steps| :: steps[k].key
  }

  // What a loop did to a step.

  /** The loop wrote the step's row and noted it, or found it noted. */
  predicate Passes(w: Walk, key: Key) {
    exists k :: 0 <= k < w.upTo && k < |w.entries| && w.entries[k].key == Some(key)
  }

  /** The loop wrote the step's row and stopped before noting it. */
  predicate Tears(w: Walk, key: Key) {
    w.torn && w.upTo < |w.entries| && w.entries[w.upTo].key == Some(key)
  }

  predicate Reaches(w: Walk, key: Key) {
    Passes(w, key) || Tears(w, key)
  }

  /** A loop tore the step and another reached it. */
  predicate TornAndReached(log: seq<Walk>, key: Key) {
    exists a, b :: 0 <= a < |log| && 0 <= b < |log| && a != b && Tears(log[a], key) && Reaches(log[b], key)
  }

  function TearCount(log: seq<Walk>, key: Key): nat {
    if log == [] then 0 else TearCount(log[..|log| - 1], key) + if Tears(log[|log| - 1], key) then 1 else 0
  }

  predicate PassedIn(log: seq<Walk>, key: Key) {
    exists k :: 0 <= k < |log| && Passes(log[k], key)
  }

  /** A step has an outcome when a loop passed it; its rows are one for that and one for each time a loop tore
      it; no loop does both to it; and no row is a skip. */
  ghost predicate Told(s: State) {
    && (forall key :: key in s.outcomes <==> PassedIn(s.log, key))
    && (forall key :: CountKey(s.results, key) == TearCount(s.log, key) + if key in s.outcomes then 1 else 0)
    && (forall k, key :: 0 <= k < |s.log| ==> !(Passes(s.log[k], key) && Tears(s.log[k], key)))
    && NoSkip(s.results)
  }

  ghost predicate NoSkip(results: seq<Row>) {
    forall k :: 0 <= k < |results| ==> !results[k].status.Skipped?
  }

  lemma CountSnoc(results: seq<Row>, row: Row, key: Key)
    ensures CountKey(results + [row], key) == CountKey(results, key) + if row.key == Some(key) then 1 else 0
  {
    assert (results + [row])[..|results|] == results;
  }

  lemma LogSnoc(log: seq<Walk>, w: Walk, key: Key)
    ensures TearCount(log + [w], key) == TearCount(log, key) + if Tears(w, key) then 1 else 0
    ensures PassedIn(log + [w], key) <==> PassedIn(log, key) || Passes(w, key)
  {
    var all := log + [w];
    assert all[..|log|] == log;
    if PassedIn(log, key) {
      var k :| 0 <= k < |log| && Passes(log[k], key);
      assert Passes(all[k], key);
    }
    if Passes(w, key) { assert Passes(all[|log|], key); }
  }

  // One loop.

  function EntryKeys(entries: seq<Entry>, n: nat): set<Key>
    requires n <= |entries|
  {
    set k | 0 <= k < n && entries[k].key.Some? :: entries[k].key.value
  }

  /** Each step is there once and noted; and an unguarded loop finds none of them noted yet. */
  ghost predicate Fits(s: State, entries: seq<Entry>, guarded: bool) {
    && (forall i, j :: 0 <= i < j < |entries| && entries[i].key.Some? ==> entries[i].key != entries[j].key)
    && forall k :: 0 <= k < |entries| ==>
         && !entries[k].status.Skipped? && (entries[k].key.Some? <==> entries[k].noted.Some?)
         && (!guarded && entries[k].key.Some? ==> entries[k].key.value !in s.outcomes)
  }

  lemma NextEntry(entries: seq<Entry>, n: nat)
    requires 0 < n <= |entries|
    ensures var e := entries[n - 1]; EntryKeys(entries, n) == EntryKeys(entries, n - 1) + if e.key.Some? then {e.key.value} else {}
  {
  }

  function OwnKey(e: Entry): set<Key> {
    if e.key.Some? then {e.key.value} else {}
  }

  /** After some turns: the steps of `keys` noted, each with one row more unless it was noted already. */
  ghost predicate TurnsTo(s: State, t: State, keys: set<Key>) {
    && t.log == s.log && t.outcomes.Keys == s.outcomes.Keys + keys && NoSkip(t.results)
    && forall key :: CountKey(t.results, key) == CountKey(s.results, key) + if key in keys && key !in s.outcomes then 1 else 0
  }

  lemma NextTurn(s: State, t: State, e: Entry, guarded: bool, keys: set<Key>)
    requires TurnsTo(s, t, keys) && OwnKey(e) !! keys && !e.status.Skipped? && (e.key.Some? <==> e.noted.Some?)
    requires !guarded && e.key.Some? ==> e.key.value !in s.outcomes
    ensures TurnsTo(s, if Skips(t, e, guarded) then t else Noted(Written(t, e), e), keys + OwnKey(e))
  {
    if !Skips(t, e, guarded) {
      var u := Noted(Written(t, e), e);
      forall key ensures CountKey(u.results, key) == CountKey(t.results, key) + if e.key == Some(key) then 1 else 0 {
        CountSnoc(t.results, Row(e.key, e.status), key);
      }
    }
  }

  lemma {:induction false} TurnsAre(s: State, entries: seq<Entry>, guarded: bool, n: nat)
    requires n <= |entries| && Fits(s, entries, guarded) && NoSkip(s.results)
    ensures TurnsTo(s, Turns(s, entries, guarded, n), EntryKeys(entries, n))
  {
    if n > 0 {
      TurnsAre(s, entries, guarded, n - 1);
      NextEntry(entries, n);
      NextTurn(s, Turns(s, entries, guarded, n - 1), entries[n - 1], guarded, EntryKeys(entries, n - 1));
    }
  }

  /** What a stretch of the run adds to the record: outcomes of its own steps, and no row of any other. */
  ghost predicate Grows(s: State, t: State, keys: set<Key>) {
    && Told(t) && s.outcomes.Keys <= t.outcomes.Keys <= s.outcomes.Keys + keys
    && forall key :: key !in keys ==> CountKey(t.results, key) == CountKey(s.results, key)
  }

  lemma PassesIs(entries: seq<Entry>, n: nat, torn: bool, key: Key)
    requires n <= |entries|
    ensures Passes(Walk(entries, n, torn), key) <==> key in EntryKeys(entries, n)
  {
  }

  lemma ToldAfter(s: State, u: State, w: Walk, keys: set<Key>)
    requires Told(s) && u.log == s.log + [w] && u.outcomes.Keys == s.outcomes.Keys + keys && NoSkip(u.results)
    requires forall key :: (Passes(w, key) <==> key in keys) && !(Passes(w, key) && Tears(w, key))
    requires forall key :: CountKey(u.results, key) ==
                           CountKey(s.results, key) + (if key in keys && key !in s.outcomes then 1 else 0) + if Tears(w, key) then 1 else 0
    ensures Told(u)
  {
    forall key
      ensures TearCount(u.log, key) == TearCount(s.log, key) + if Tears(w, key) then 1 else 0
      ensures PassedIn(u.log, key) <==> PassedIn(s.log, key) || Passes(w, key) { LogSnoc(s.log, w, key); }
  }

  lemma TearsNext(entries: seq<Entry>, n: nat, tears: bool, key: Key)
    requires n <= |entries| && tears ==> n < |entries|
    requires forall i, j :: 0 <= i < j < |entries| && entries[i].key.Some? ==> entries[i].key != entries[j].key
    ensures Tears(Walk(entries, n, tears), key) ==> !Passes(Walk(entries, n, tears), key) && key in EntryKeys(entries, |entries|)
  {
  }

  /** A row written and not noted, or none, and the loop is over. */
  lemma LoopEnds(s: State, t: State, entries: seq<Entry>, guarded: bool, n: nat, tears: bool)
    requires Told(s) && n <= |entries| && TurnsTo(s, t, EntryKeys(entries, n)) && Fits(s, entries, guarded)
    requires tears ==> n < |entries| && !Skips(t, entries[n], guarded)
    ensures Grows(s, Logged(if tears then Written(t, entries[n]) else t, entries, n, tears), EntryKeys(entries, |entries|))
  {
    var w := Walk(entries, n, tears);
    var u := Logged(if tears then Written(t, entries[n]) else t, entries, n, tears);
    var keys := EntryKeys(entries, n);
    forall key
      ensures (Passes(w, key) <==> key in keys) && (Tears(w, key) ==> !Passes(w, key) && key in EntryKeys(entries, |entries|)) {
      PassesIs(entries, n, tears, key);
      TearsNext(entries, n, tears, key);
    }
    forall key ensures CountKey(u.results, key) == CountKey(t.results, key) + if Tears(w, key) then 1 else 0 {
      if tears { CountSnoc(t.results, Row(entries[n].key, entries[n].status), key); }
    }
    ToldAfter(s, u, w, keys);
    assert keys <= EntryKeys(entries, |entries|);
  }

  /** A loop over steps new to it leaves the record told. */
  lemma LoopGrows(s: State, entries: seq<Entry>, guarded: bool, stop: Option<Stop>)
    requires Told(s) && Fits(s, entries, guarded)
    ensures
      var ran := Loop(s, entries, guarded, stop);
      && Grows(s, ran.state, EntryKeys(entries, |entries|))
      && (ran.end == GoesOn ==> ran.state.outcomes.Keys == s.outcomes.Keys + EntryKeys(entries, |entries|))
  {
    var n := StopsAt(entries, stop);
    TurnsAre(s, entries, guarded, n);
    var t := Turns(s, entries, guarded, n);
    LoopEnds(s, t, entries, guarded, n, StopTears(t, entries, guarded, stop));
  }

  lemma StepLoop(s: State, steps: seq<Step>, status: Status, noted: Status, guarded: bool, stop: Option<Stop>)
    requires Told(s) && UniqueKeys(steps) && !status.Skipped? && (!guarded ==> Keys(steps) !! s.outcomes.Keys)
    ensures
      var ran := Loop(s, StepEntries(steps, status, noted), guarded, stop);
      Grows(s, ran.state, Keys(steps)) && (ran.end == GoesOn ==> ran.state.outcomes.Keys == s.outcomes.Keys + Keys(steps))
  {
    var entries := StepEntries(steps, status, noted);
    forall key ensures key in EntryKeys(entries, |entries|) <==> key in Keys(steps) {
      if key in Keys(steps) {
        var k :| 0 <= k < |steps| && steps[k].key == key;
        assert entries[k].key == Some(key);
      }
    }
    if !guarded { forall k | 0 <= k < |steps| ensures steps[k].key !in s.outcomes { assert steps[k].key in Keys(steps); } }
    LoopGrows(s, entries, guarded, stop);
  }

  lemma RemarkLoop(s: State, status: Status, stop: Option<Stop>)
    requires Told(s) && !status.Skipped?
    ensures Grows(s, Loop(s, [Remark(status)], false, stop).state, {})
  {
    LoopGrows(s, [Remark(status)], false, stop);
    assert EntryKeys([Remark(status)], 1) == {};
  }

  // One batch.

  lemma GrowsTwice(s: State, t: State, u: State, a: set<Key>, b: set<Key>, all: set<Key>)
    requires Grows(s, t, a) && Grows(t, u, b) && a <= all && b <= all
    ensures Grows(s, u, all)
  {
  }

  lemma NoCaseSkipped(steps: seq<Step>, actual: map<nat, Status>, fileErrors: set<nat>)
    ensures forall id :: id in FinishCases(steps, actual, fileErrors) ==> !FinishCases(steps, actual, fileErrors)[id].Skipped?
  {
    CasesToIs(steps, actual, fileErrors, |steps|);
  }

  lemma BatchEntriesAre(group: seq<Step>, batch: Batch)
    requires batch.Runs?
    ensures
      var entries := BatchEntries(group, batch);
      && |entries| >= |group|
      && (forall k :: 0 <= k < |group| ==> entries[k].key == Some(group[k].key) && entries[k].noted.Some? && !entries[k].status.Skipped?)
      && (forall k :: |group| <= k < |entries| ==> entries[k].key == None && entries[k].noted == None && !entries[k].status.Skipped?)
      && EntryKeys(entries, |entries|) == Keys(group)
  {
    NoCaseSkipped(group, batch.actual, batch.fileErrors);
    var entries := BatchEntries(group, batch);
    forall key ensures key in EntryKeys(entries, |entries|) <==> key in Keys(group) {
      if key in Keys(group) {
        var k :| 0 <= k < |group| && group[k].key == key;
        assert entries[k].key == Some(key);
      }
    }
  }

  /** A batch adds rows for its own steps alone, wherever it stops. */
  lemma BatchGrows(s: State, group: seq<Step>, batch: Batch)
    requires Told(s) && UniqueKeys(group) && Keys(group) !! s.outcomes.Keys
    ensures Grows(s, BatchRun(s, group, batch).state, Keys(group))
  {
    if batch.Runs? {
      var entries := BatchEntries(group, batch);
      BatchEntriesAre(group, batch);
      forall k | 0 <= k < |group| ensures group[k].key !in s.outcomes { assert group[k].key in Keys(group); }
      LoopGrows(s, entries, false, batch.stop);
      var ran := Loop(s, entries, false, batch.stop);
      if ran.end == Raises {
        StepLoop(ran.state, group, InfrastructureError, InfrastructureError, true, batch.refill);
        GrowsTwice(s, ran.state, BatchRun(s, group, batch).state, Keys(group), Keys(group), Keys(group));
      }
    }
  }

  /** Taking some of the steps keeps their keys apart. */
  lemma {:induction false} GroupIs(steps: seq<Step>, adapter: nat)
    ensures forall x :: x in Group(steps, adapter) <==> x in steps && x.adapter == adapter
    ensures UniqueKeys(steps) ==> UniqueKeys(Group(steps, adapter))
  {
    if steps != [] {
      var rest := steps[1..];
      GroupIs(rest, adapter);
      assert steps == [steps[0]] + rest;
      var tail := Group(rest, adapter);
      if UniqueKeys(steps) {
        assert forall x :: x in rest ==> x.key != steps[0].key;
        forall k | 0 <= k < |tail| ensures tail[k].key != steps[0].key { assert tail[k] in tail; }
      }
    }
  }

  lemma {:induction false} PostgresIs(steps: seq<Step>, postgres: bool)
    ensures forall x :: x in Postgres(steps, postgres) <==> x in steps && x.postgres == postgres
    ensures UniqueKeys(steps) ==> UniqueKeys(Postgres(steps, postgres))
  {
    if steps != [] {
      var rest := steps[1..];
      PostgresIs(rest, postgres);
      assert steps == [steps[0]] + rest;
      var tail := Postgres(rest, postgres);
      if UniqueKeys(steps) {
        assert forall x :: x in rest ==> x.key != steps[0].key;
        forall k | 0 <= k < |tail| ensures tail[k].key != steps[0].key { assert tail[k] in tail; }
      }
    }
  }

  lemma KeysAre(steps: seq<Step>, key: Key)
    ensures key in Keys(steps) <==> exists x :: x in steps && x.key == key
  {
    if key in Keys(steps) {
      var k :| 0 <= k < |steps| && steps[k].key == key;
      assert steps[k] in steps;
    }
  }

  lemma OneStep(steps: seq<Step>, x: Step, y: Step)
    requires UniqueKeys(steps) && x in steps && y in steps && x.key == y.key
    ensures x == y
  {
    var i :| 0 <= i < |steps| && steps[i] == x;
    var j :| 0 <= j < |steps| && steps[j] == y;
    assert i == j;
  }

  /** The keys of the steps of the first `n` runners. */
  ghost predicate OfFirst(steps: seq<Step>, n: nat, key: Key) {
    exists x :: x in steps && x.key == key && x.adapter < n
  }

  lemma GroupFresh(s: State, t: State, steps: seq<Step>, n: nat)
    requires UniqueKeys(steps) && Keys(steps) !! s.outcomes.Keys
    requires forall key :: key in t.outcomes ==> key in s.outcomes || OfFirst(steps, n, key)
    ensures Keys(Group(steps, n)) !! t.outcomes.Keys
  {
    var group := Group(steps, n);
    GroupIs(steps, n);
    forall x, y | x in group && y in steps && y.adapter < n ensures x.key != y.key {
      if x.key == y.key { OneStep(steps, x, y); }
    }
    forall key | key in Keys(group) ensures key !in t.outcomes {
      KeysAre(group, key);
      KeysAre(steps, key);
    }
  }

  lemma OfFirstGrows(steps: seq<Step>, n: nat)
    requires n > 0
    ensures forall key :: OfFirst(steps, n - 1, key) || key in Keys(Group(steps, n - 1)) ==> OfFirst(steps, n, key)
  {
    GroupIs(steps, n - 1);
    forall key | OfFirst(steps, n - 1, key) ensures OfFirst(steps, n, key) {
      var x :| x in steps && x.key == key && x.adapter < n - 1;
      assert x.adapter < n;
    }
    forall key | key in Keys(Group(steps, n - 1)) ensures OfFirst(steps, n, key) {
      KeysAre(Group(steps, n - 1), key);
      var x :| x in Group(steps, n - 1) && x.key == key;
      assert x in steps && x.adapter < n;
    }
  }

  /** After the first runners: told, nothing lost, and only their own steps added. */
  ghost predicate After(s: State, steps: seq<Step>, t: State, n: nat) {
    && Told(t) && s.outcomes.Keys <= t.outcomes.Keys
    && (forall key :: key in t.outcomes ==> key in s.outcomes || OfFirst(steps, n, key))
    && forall key :: !OfFirst(steps, n, key) ==> CountKey(t.results, key) == CountKey(s.results, key)
  }

  lemma AfterBatch(s: State, steps: seq<Step>, t: State, batch: Batch, n: nat)
    requires n > 0 && UniqueKeys(steps) && Keys(steps) !! s.outcomes.Keys && After(s, steps, t, n - 1)
    ensures After(s, steps, BatchRun(t, Group(steps, n - 1), batch).state, n)
  {
    GroupIs(steps, n - 1);
    GroupFresh(s, t, steps, n - 1);
    BatchGrows(t, Group(steps, n - 1), batch);
    OfFirstGrows(steps, n);
  }

  lemma {:induction false} BatchesAfter(s: State, steps: seq<Step>, batches: seq<Batch>, n: nat)
    requires n <= |batches| && Told(s) && UniqueKeys(steps) && Keys(steps) !! s.outcomes.Keys
    ensures After(s, steps, BatchesRun(s, steps, batches, n).state, n)
  {
    if n > 0 {
      BatchesAfter(s, steps, batches, n - 1);
      OfFirstGrows(steps, n);
      AfterBatch(s, steps, BatchesRun(s, steps, batches, n - 1).state, batches[n - 1], n);
    }
  }

  lemma BatchesGrow(s: State, steps: seq<Step>, batches: seq<Batch>)
    requires Told(s) && UniqueKeys(steps) && Keys(steps) !! s.outcomes.Keys
    ensures Grows(s, BatchesRun(s, steps, batches, |batches|).state, Keys(steps))
  {
    BatchesAfter(s, steps, batches, |batches|);
    forall key | OfFirst(steps, |batches|, key) ensures key in Keys(steps) { KeysAre(steps, key); }
  }

  // One environment.

  /** The PostgreSQL steps and the others are all the steps, and share no key. */
  lemma Apart(s: State, steps: seq<Step>)
    requires UniqueKeys(steps) && Keys(steps) !! s.outcomes.Keys
    ensures
      var aside, kept := Postgres(steps, true), Postgres(steps, false);
      Keys(aside) + Keys(kept) == Keys(steps) && Keys(aside) !! Keys(kept)
  {
    var aside, kept := Postgres(steps, true), Postgres(steps, false);
    PostgresIs(steps, true);
    PostgresIs(steps, false);
    forall key ensures key in Keys(steps) <==> key in Keys(aside) || key in Keys(kept) {
      KeysAre(steps, key);
      KeysAre(aside, key);
      KeysAre(kept, key);
    }
    forall x, y | x in aside && y in kept ensures x.key != y.key {
      if x.key == y.key { OneStep(steps, x, y); }
    }
    forall key | key in Keys(aside) ensures key !in Keys(kept) {
      KeysAre(aside, key);
      KeysAre(kept, key);
    }
  }

  lemma AsideGrows(s: State, steps: seq<Step>, memory: bool, stop: Option<Stop>)
    requires Told(s) && UniqueKeys(steps) && Keys(steps) !! s.outcomes.Keys
    ensures UniqueKeys(Kept(steps, memory)) && Keys(Kept(steps, memory)) <= Keys(steps)
    ensures
      var ran := Aside(s, steps, memory, stop);
      && Grows(s, ran.state, Keys(steps) - Keys(Kept(steps, memory)))
      && (ran.end == GoesOn ==> ran.state.outcomes.Keys == s.outcomes.Keys + (Keys(steps) - Keys(Kept(steps, memory))))
  {
    PostgresIs(steps, true);
    PostgresIs(steps, false);
    Apart(s, steps);
    if memory { StepLoop(s, Postgres(steps, true), NotRun, NotRun, false, stop); }
  }

  /** Whatever the `try` block does stays within its steps, and what it leaves for `finally` is all that has no
      outcome. */
  lemma TryGrows(s: State, steps: seq<Step>, memory: bool, c: Course)
    requires Told(s) && UniqueKeys(steps) && Keys(steps) !! s.outcomes.Keys
    ensures
      var t := Try(s, steps, memory, c);
      && Grows(s, t.ran.state, Keys(steps)) && UniqueKeys(t.steps)
      && Keys(t.steps) <= Keys(steps) <= Keys(t.steps) + t.ran.state.outcomes.Keys
  {
    var kept := Kept(steps, memory);
    var aside := Aside(s, steps, memory, c.aside);
    AsideGrows(s, steps, memory, c.aside);
    if aside.end == GoesOn && c.setup.None? {
      BatchesGrow(aside.state, kept, c.batches);
      GrowsTwice(s, aside.state, BatchesRun(aside.state, kept, c.batches, |c.batches|).state, Keys(steps) - Keys(kept), Keys(kept), Keys(steps));
    }
  }

  lemma HandledGrows(t: Ran, handler: Option<Stop>)
    requires Told(t.state)
    ensures Grows(t.state, Handled(t, handler).state, {})
  {
    if t.end == Raises { RemarkLoop(t.state, InfrastructureError, handler); }
  }

  lemma FreedGrows(h: Ran, steps: seq<Step>, cancelled: bool, fill: Option<Stop>, cleanup: Cleanup)
    requires Told(h.state) && UniqueKeys(steps)
    ensures
      var ran := Freed(h, steps, cancelled, fill, cleanup);
      && Grows(h.state, ran.state, Keys(steps))
      && (fill.None? ==> ran.state.outcomes.Keys == h.state.outcomes.Keys + Keys(steps))
      && (ran.end == GoesOn ==> fill.None?)
  {
    var status := if cancelled then Cancelled else Blocked;
    StepLoop(h.state, steps, status, Blocked, true, fill);
    var f := Loop(h.state, StepEntries(steps, status, Blocked), true, fill);
    if f.end == GoesOn && cleanup.CleanupFails? {
      RemarkLoop(f.state, InfrastructureError, cleanup.stop);
      GrowsTwice(h.state, f.state, Freed(h, steps, cancelled, fill, cleanup).state, Keys(steps), {}, Keys(steps));
    }
  }

  lemma InTurn(s: State, t: State, h: State, u: State, all: set<Key>, rest: set<Key>)
    requires Grows(s, t, all) && Grows(t, h, {}) && Grows(h, u, rest) && rest <= all <= rest + t.outcomes.Keys
    ensures Grows(s, u, all) && (u.outcomes.Keys == h.outcomes.Keys + rest ==> u.outcomes.Keys == s.outcomes.Keys + all)
  {
  }

  /** Once its directory is made, an environment leaves every one of its steps with an outcome unless its last
      loop is stopped, and in any case touches no other's; a step has one row for its outcome and one more for
      each time a loop tore it. */
  lemma EnvironmentGrows(s: State, steps: seq<Step>, memory: bool, c: Course)
    requires Told(s) && UniqueKeys(steps) && Keys(steps) !! s.outcomes.Keys
    ensures
      var ran := Environment(s, steps, memory, c);
      && Grows(s, ran.state, Keys(steps))
      && (c.begins == GoesOn && c.fill.None? ==> ran.state.outcomes.Keys == s.outcomes.Keys + Keys(steps))
      && (ran.end == GoesOn ==> c.begins == GoesOn && c.fill.None?)
  {
    if c.begins == GoesOn {
      var t := Try(s, steps, memory, c);
      TryGrows(s, steps, memory, c);
      var h := Handled(t.ran, c.handler);
      HandledGrows(t.ran, c.handler);
      FreedGrows(h, t.steps, t.ran.end == Interrupts && c.handler.None?, c.fill, c.cleanup);
      InTurn(s, t.ran.state, h.state, Environment(s, steps, memory, c).state, Keys(steps), Keys(t.steps));
    }
  }

  // How often a step is recorded.

  lemma {:induction false} TornOnce(log: seq<Walk>, key: Key)
    ensures TearCount(log, key) >= 1 <==> exists a :: 0 <= a < |log| && Tears(log[a], key)
  {
    if log != [] {
      var rest, last := log[..|log| - 1], |log| - 1;
      TornOnce(rest, key);
      if a :| 0 <= a < |rest| && Tears(rest[a], key) { assert Tears(log[a], key); }
      if a :| 0 <= a < |log| && Tears(log[a], key) { assert a == last || Tears(rest[a], key); }
    }
  }

  lemma {:induction false} TornTwice(log: seq<Walk>, key: Key)
    ensures TearCount(log, key) >= 2 <==> exists a, b :: 0 <= a < b < |log| && Tears(log[a], key) && Tears(log[b], key)
  {
    if log != [] {
      var rest, last := log[..|log| - 1], |log| - 1;
      TornTwice(rest, key);
      TornOnce(rest, key);
      if a, b :| 0 <= a < b < |log| && Tears(log[a], key) && Tears(log[b], key) {
        assert Tears(rest[a], key);
        assert b == last || Tears(rest[b], key);
      }
      if TearCount(log, key) >= 2 {
        if TearCount(rest, key) >= 2 {
          var a, b :| 0 <= a < b < |rest| && Tears(rest[a], key) && Tears(rest[b], key);
          assert Tears(log[a], key) && Tears(log[b], key);
        } else {
          var a :| 0 <= a < |rest| && Tears(rest[a], key);
          assert Tears(log[a], key) && Tears(log[last], key);
        }
      }
    }
  }

  /** In a told record a step has a row exactly when some loop reached it, and more than one exactly when one
      loop tore it and another reached it. */
  lemma CountsExactly(s: State, key: Key)
    requires Told(s)
    ensures CountKey(s.results, key) >= 1 <==> exists k :: 0 <= k < |s.log| && Reaches(s.log[k], key)
    ensures CountKey(s.results, key) <= 1 <==> !TornAndReached(s.log, key)
  {
    TornOnce(s.log, key);
    TornTwice(s.log, key);
    if a, b :| 0 <= a < |s.log| && 0 <= b < |s.log| && a != b && Tears(s.log[a], key) && Reaches(s.log[b], key) {
      if Tears(s.log[b], key) {
        assert exists x, y :: 0 <= x < y < |s.log| && Tears(s.log[x], key) && Tears(s.log[y], key) by {
          if a < b { assert Tears(s.log[a], key) && Tears(s.log[b], key); } else { assert Tears(s.log[b], key) && Tears(s.log[a], key); }
        }
      } else {
        assert PassedIn(s.log, key);
      }
    }
    if CountKey(s.results, key) >= 2 {
      if TearCount(s.log, key) >= 2 {
        var a, b :| 0 <= a < b < |s.log| && Tears(s.log[a], key) && Tears(s.log[b], key);
        assert Reaches(s.log[b], key);
      } else {
        var a :| 0 <= a < |s.log| && Tears(s.log[a], key);
        var b :| 0 <= b < |s.log| && Passes(s.log[b], key);
        assert Reaches(s.log[b], key);
      }
    }
  }

  // The whole invocation.

  lemma AllStepsNext(plan: seq<seq<Step>>, n: nat)
    requires 0 < n <= |plan|
    ensures AllSteps(plan[..n]) == AllSteps(plan[..n - 1]) + plan[n - 1]
    ensures Keys(AllSteps(plan[..n])) == Keys(AllSteps(plan[..n - 1])) + Keys(plan[n - 1])
  {
    assert plan[..n][..n - 1] == plan[..n - 1];
    forall key ensures key in Keys(AllSteps(plan[..n])) <==> key in Keys(AllSteps(plan[..n - 1])) || key in Keys(plan[n - 1]) {
      KeysAre(AllSteps(plan[..n]), key);
      KeysAre(AllSteps(plan[..n - 1]), key);
      KeysAre(plan[n - 1], key);
    }
  }

  lemma UniqueParts(a: seq<Step>, b: seq<Step>)
    requires UniqueKeys(a + b)
    ensures UniqueKeys(a) && UniqueKeys(b) && Keys(a) !! Keys(b)
  {
    var all := a + b;
    forall i, j | 0 <= i < j < |a| ensures a[i].key != a[j].key { assert all[i] == a[i] && all[j] == a[j]; }
    forall i, j | 0 <= i < j < |b| ensures b[i].key != b[j].key { assert all[|a| + i] == b[i] && all[|a| + j] == b[j]; }
    forall i, j | 0 <= i < |a| && 0 <= j < |b| ensures a[i].key != b[j].key { assert all[i] == a[i] && all[|a| + j] == b[j]; }
  }

  lemma {:induction false} ExecuteGrows(plan: seq<seq<Step>>, memory: bool, courses: seq<Course>, n: nat)
    requires n <= |plan| == |courses| && UniqueKeys(AllSteps(plan[..n]))
    ensures
      var ran := Execute(plan, memory, courses, n);
      && Grows(EMPTY, ran.state, Keys(AllSteps(plan[..n])))
      && (ran.end == GoesOn ==> ran.state.outcomes.Keys == Keys(AllSteps(plan[..n])))
  {
    if n > 0 {
      AllStepsNext(plan, n);
      UniqueParts(AllSteps(plan[..n - 1]), plan[n - 1]);
      ExecuteGrows(plan, memory, courses, n - 1);
      var before := Execute(plan, memory, courses, n - 1);
      if before.end == GoesOn {
        EnvironmentGrows(before.state, plan[n - 1], memory, courses[n - 1]);
        GrowsTwice(EMPTY, before.state, Execute(plan, memory, courses, n).state, Keys(AllSteps(plan[..n - 1])), Keys(plan[n - 1]), Keys(AllSteps(plan[..n])));
      }
    }
  }

  lemma {:induction false} CountedIsThere(results: seq<Row>, key: Key)
    ensures CountKey(results, key) > 0 <==> key in KeysIn(results)
  {
    if results != [] {
      var rest := results[..|results| - 1];
      CountedIsThere(rest, key);
      assert results == rest + [results[|results| - 1]];
      if key in KeysIn(results) {
        var r :| r in results && r.key == Some(key);
        assert r in rest || r == results[|results| - 1];
      }
      if key in KeysIn(rest) {
        var r :| r in rest && r.key == Some(key);
        assert r in results;
      }
    }
  }

  lemma SamePrefix(a: seq<Entry>, b: seq<Entry>)
    requires a <= b
    ensures EntryKeys(b, |a|) == EntryKeys(a, |a|)
  {
    forall key ensures key in EntryKeys(b, |a|) <==> key in EntryKeys(a, |a|) {
      if key in EntryKeys(a, |a|) {
        var k :| 0 <= k < |a| && a[k].key == Some(key);
        assert b[k].key == Some(key);
      }
    }
  }

  lemma {:induction false} CancelEntriesAre(steps: seq<Step>, recorded: set<Key>)
    requires UniqueKeys(steps)
    ensures
      var entries := CancelEntries(steps, recorded);
      && EntryKeys(entries, |entries|) == Keys(steps) - recorded
      && forall i, j :: 0 <= i < j < |entries| ==> entries[i].key != entries[j].key
  {
    if steps != [] {
      var before, last := steps[..|steps| - 1], steps[|steps| - 1];
      assert steps == before + [last];
      UniqueParts(before, [last]);
      CancelEntriesAre(before, recorded);
      var entries := CancelEntries(before, recorded);
      assert Keys(steps) == Keys(before) + {last.key};
      assert forall i :: 0 <= i < |entries| && entries[i].key.Some? ==> entries[i].key.value in EntryKeys(entries, |entries|);
      if last.key !in recorded {
        var all := CancelEntries(steps, recorded);
        NextEntry(all, |all|);
        SamePrefix(entries, all);
      }
    }
  }

  /** The loop got to the step's entry before it was stopped. */
  predicate GotTo(entries: seq<Entry>, stop: Option<Stop>, key: Key) {
    exists k :: 0 <= k < |entries| && entries[k].key == Some(key)
                && (stop.Some? ==> k < stop.value.after || (k == stop.value.after && stop.value.torn))
  }

  lemma {:induction false} TurnsCount(s: State, entries: seq<Entry>, n: nat, key: Key)
    requires n <= |entries| && forall i, j :: 0 <= i < j < |entries| && entries[i].key.Some? ==> entries[i].key != entries[j].key
    ensures CountKey(Turns(s, entries, false, n).results, key) == CountKey(s.results, key) + if key in EntryKeys(entries, n) then 1 else 0
  {
    if n > 0 {
      TurnsCount(s, entries, n - 1, key);
      NextEntry(entries, n);
      CountSnoc(Turns(s, entries, false, n - 1).results, Row(entries[n - 1].key, entries[n - 1].status), key);
    }
  }

  lemma GotToIs(entries: seq<Entry>, stop: Option<Stop>, key: Key)
    ensures
      var n := StopsAt(entries, stop);
      GotTo(entries, stop, key) <==>
        (key in EntryKeys(entries, n) || (stop.Some? && stop.value.torn && n < |entries| && entries[n].key == Some(key)))
  {
    var n := StopsAt(entries, stop);
    if key in EntryKeys(entries, n) {
      var k :| 0 <= k < n && entries[k].key == Some(key);
      assert GotTo(entries, stop, key);
    }
    if GotTo(entries, stop, key) {
      var k :| 0 <= k < |entries| && entries[k].key == Some(key)
               && (stop.Some? ==> k < stop.value.after || (k == stop.value.after && stop.value.torn));
      assert k < n ==> key in EntryKeys(entries, n);
    }
  }

  /** An unguarded loop adds a row for each entry it gets to. */
  lemma PlainLoop(s: State, entries: seq<Entry>, stop: Option<Stop>, key: Key)
    requires forall i, j :: 0 <= i < j < |entries| && entries[i].key.Some? ==> entries[i].key != entries[j].key
    ensures CountKey(Loop(s, entries, false, stop).state.results, key) == CountKey(s.results, key) + if GotTo(entries, stop, key) then 1 else 0
  {
    var n := StopsAt(entries, stop);
    TurnsCount(s, entries, n, key);
    GotToIs(entries, stop, key);
    var t := Turns(s, entries, false, n);
    if StopTears(t, entries, false, stop) { CountSnoc(t.results, Row(entries[n].key, entries[n].status), key); }
  }

  /** The step is cancelled: it had no row, and `cancel_remaining` got to it. */
  predicate Cancels(plan: seq<seq<Step>>, ran: Ran, stop: Option<Stop>, key: Key) {
    ran.end == Interrupts && GotTo(CancelEntries(AllSteps(plan), KeysIn(ran.state.results)), stop, key)
  }

  lemma RemarkLast(cancels: seq<Entry>, stop: Option<Stop>, key: Key)
    ensures GotTo(cancels + [Remark(Cancelled)], stop, key) <==> GotTo(cancels, stop, key)
  {
    var all := cancels + [Remark(Cancelled)];
    if GotTo(cancels, stop, key) {
      var k :| 0 <= k < |cancels| && cancels[k].key == Some(key) && (stop.Some? ==> k < stop.value.after || (k == stop.value.after && stop.value.torn));
      assert all[k] == cancels[k];
    }
  }

  lemma HandlerCounts(plan: seq<seq<Step>>, ran: Ran, stop: Option<Stop>, key: Key)
    requires UniqueKeys(AllSteps(plan)) && ran.end != GoesOn
    ensures CountKey(Loop(ran.state, HandlerEntries(plan, ran), false, stop).state.results, key) ==
            CountKey(ran.state.results, key) + if Cancels(plan, ran, stop, key) then 1 else 0
    ensures Cancels(plan, ran, stop, key) ==> CountKey(ran.state.results, key) == 0
    ensures ran.end == Interrupts && stop.None? && key in Keys(AllSteps(plan)) && CountKey(ran.state.results, key) == 0 ==> Cancels(plan, ran, stop, key)
  {
    var cancels := CancelEntries(AllSteps(plan), KeysIn(ran.state.results));
    CancelEntriesAre(AllSteps(plan), KeysIn(ran.state.results));
    CountedIsThere(ran.state.results, key);
    PlainLoop(ran.state, HandlerEntries(plan, ran), stop, key);
    RemarkLast(cancels, stop, key);
    assert key in EntryKeys(cancels, |cancels|) <==> exists k :: 0 <= k < |cancels| && cancels[k].key == Some(key);
  }

  lemma CleanedCounts(s: State, stop: Option<Stop>, key: Key)
    ensures CountKey(Loop(s, [Remark(InfrastructureError)], false, stop).state.results, key) == CountKey(s.results, key)
  {
    PlainLoop(s, [Remark(InfrastructureError)], stop, key);
  }

  /** What an invocation records of a step: what its environments did, and one row more if it was cancelled. */
  lemma InvocationCounts(plan: seq<seq<Step>>, memory: bool, courses: seq<Course>, ending: Ending, key: Key)
    requires |plan| == |courses| && UniqueKeys(AllSteps(plan))
    ensures
      var ran := Execute(plan, memory, courses, |plan|);
      && CountKey(Invocation(plan, memory, courses, ending).results, key) ==
         CountKey(ran.state.results, key) + (if Cancels(plan, ran, ending.handler, key) then 1 else 0)
      && (Cancels(plan, ran, ending.handler, key) ==> CountKey(ran.state.results, key) == 0)
  {
    var ran := Execute(plan, memory, courses, |plan|);
    var handled := if ran.end == GoesOn then ran else Loop(ran.state, HandlerEntries(plan, ran), false, ending.handler);
    if ran.end != GoesOn { HandlerCounts(plan, ran, ending.handler, key); }
    CleanedCounts(handled.state, ending.cleanup, key);
  }

  /** How many verdicts a planned test gets, under any failures and any interrupts: with every loop of its
      environment that wrote its row seen, it has one at least, and no more exactly unless one loop wrote the
      row without noting it and another got to it; with none, it has one exactly when the run was interrupted
      and its cancellation got to it. */
  lemma VerdictsExactly(plan: seq<seq<Step>>, memory: bool, courses: seq<Course>, ending: Ending, key: Key)
    requires |plan| == |courses| && UniqueKeys(AllSteps(plan))
    ensures
      var ran := Execute(plan, memory, courses, |plan|);
      var count := CountKey(Invocation(plan, memory, courses, ending).results, key);
      if exists k :: 0 <= k < |ran.state.log| && Reaches(ran.state.log[k], key) then
        count >= 1 && (count == 1 <==> !TornAndReached(ran.state.log, key))
      else
        count == if Cancels(plan, ran, ending.handler, key) then 1 else 0
  {
    assert plan[..|plan|] == plan;
    ExecuteGrows(plan, memory, courses, |plan|);
    CountsExactly(Execute(plan, memory, courses, |plan|).state, key);
    InvocationCounts(plan, memory, courses, ending, key);
  }

  /** A run that ends without raising, and whose cancellation is not interrupted in turn, gives every planned
      test a verdict, and exactly one unless a loop that wrote its row without noting it was followed by
      another that got to it; nothing else has any. */
  lemma OneVerdictEach(plan: seq<seq<Step>>, memory: bool, courses: seq<Course>, ending: Ending, key: Key)
    requires |plan| == |courses| && UniqueKeys(AllSteps(plan))
    ensures
      var ran := Execute(plan, memory, courses, |plan|);
      var count := CountKey(Invocation(plan, memory, courses, ending).results, key);
      && (key !in Keys(AllSteps(plan)) ==> count == 0)
      && (count <= 1 <==> !TornAndReached(ran.state.log, key))
      && (key in Keys(AllSteps(plan)) && !ran.end.Raises? && (ran.end.Interrupts? ==> ending.handler.None?) ==>
            count >= 1 && (count == 1 <==> !TornAndReached(ran.state.log, key)))
  {
    assert plan[..|plan|] == plan;
    ExecuteGrows(plan, memory, courses, |plan|);
    var ran := Execute(plan, memory, courses, |plan|);
    CountsExactly(ran.state, key);
    InvocationCounts(plan, memory, courses, ending, key);
    if ran.end != GoesOn { HandlerCounts(plan, ran, ending.handler, key); }
    if Cancels(plan, ran, ending.handler, key) { CancelledIsPlanned(plan, ran, ending.handler, key); }
  }

  lemma CancelledIsPlanned(plan: seq<seq<Step>>, ran: Ran, stop: Option<Stop>, key: Key)
    requires UniqueKeys(AllSteps(plan)) && Cancels(plan, ran, stop, key)
    ensures key in Keys(AllSteps(plan))
  {
    var cancels := CancelEntries(AllSteps(plan), KeysIn(ran.state.results));
    CancelEntriesAre(AllSteps(plan), KeysIn(ran.state.results));
    var k :| 0 <= k < |cancels| && cancels[k].key == Some(key);
    assert key in EntryKeys(cancels, |cancels|);
  }

  lemma {:induction false} BrokenOff(plan: seq<seq<Step>>, memory: bool, courses: seq<Course>, n: nat, m: nat)
    requires n <= m <= |plan| == |courses| && Execute(plan, memory, courses, n).end != GoesOn
    ensures Execute(plan, memory, courses, m) == Execute(plan, memory, courses, n)
  {
    if n < m { BrokenOff(plan, memory, courses, n, m - 1); }
  }

  lemma {:induction false} PrefixUnique(plan: seq<seq<Step>>, n: nat, m: nat)
    requires n <= m <= |plan| && UniqueKeys(AllSteps(plan[..m]))
    ensures UniqueKeys(AllSteps(plan[..n]))
  {
    if n < m {
      AllStepsNext(plan, m);
      UniqueParts(AllSteps(plan[..m - 1]), plan[m - 1]);
      PrefixUnique(plan, n, m - 1);
    }
  }

  /** An exception that leaves one environment leaves the tests of all those after it with no verdict. */
  lemma RaisingLeavesNone(plan: seq<seq<Step>>, memory: bool, courses: seq<Course>, ending: Ending, n: nat, key: Key)
    requires n <= |plan| == |courses| && UniqueKeys(AllSteps(plan))
    requires Execute(plan, memory, courses, n).end.Raises? && key !in Keys(AllSteps(plan[..n]))
    ensures CountKey(Invocation(plan, memory, courses, ending).results, key) == 0
  {
    assert plan[..|plan|] == plan;
    PrefixUnique(plan, n, |plan|);
    ExecuteGrows(plan, memory, courses, n);
    BrokenOff(plan, memory, courses, n, |plan|);
    InvocationCounts(plan, memory, courses, ending, key);
  }

  /** An environment whose directory cannot be made is such an exception, and its own tests have none either. */
  lemma NoDirectoryNoVerdicts(plan: seq<seq<Step>>, memory: bool, courses: seq<Course>, ending: Ending, n: nat, key: Key)
    requires n < |plan| == |courses| && UniqueKeys(AllSteps(plan))
    requires Execute(plan, memory, courses, n).end == GoesOn && courses[n].begins.Raises? && key !in Keys(AllSteps(plan[..n]))
    ensures CountKey(Invocation(plan, memory, courses, ending).results, key) == 0
  {
    assert plan[..|plan|] == plan;
    PrefixUnique(plan, n, |plan|);
    ExecuteGrows(plan, memory, courses, n);
    BrokenOff(plan, memory, courses, n + 1, |plan|);
    InvocationCounts(plan, memory, courses, ending, key);
  }

  // A run that exits zero.

  ghost predicate Loud(results: seq<Row>) {
    exists k :: 0 <= k < |results| && Bad(results[k].status)
  }

  ghost predicate AnyTorn(log: seq<Walk>) {
    exists k, key :: 0 <= k < |log| && Tears(log[k], key)
  }

  /** Every step that a loop tore was answered by a bad row. */
  ghost predicate Sound(s: State) {
    AnyTorn(s.log) ==> Loud(s.results)
  }

  lemma {:induction false} TurnsExtend(s: State, entries: seq<Entry>, guarded: bool, n: nat)
    requires n <= |entries|
    ensures s.results <= Turns(s, entries, guarded, n).results && Turns(s, entries, guarded, n).log == s.log
  {
    if n > 0 { TurnsExtend(s, entries, guarded, n - 1); }
  }

  lemma LoopExtends(s: State, entries: seq<Entry>, guarded: bool, stop: Option<Stop>)
    ensures s.results <= Loop(s, entries, guarded, stop).state.results
  {
    TurnsExtend(s, entries, guarded, StopsAt(entries, stop));
  }

  lemma StillLoud(results: seq<Row>, more: seq<Row>)
    requires results <= more && Loud(results)
    ensures Loud(more)
  {
    var k :| 0 <= k < |results| && Bad(results[k].status);
    assert more[k] == results[k];
  }

  /** A loop that nothing stops tears nothing. */
  lemma WholeLoopSound(s: State, entries: seq<Entry>, guarded: bool)
    requires Sound(s)
    ensures Sound(Loop(s, entries, guarded, None).state)
  {
    var u := Loop(s, entries, guarded, None).state;
    LoopExtends(s, entries, guarded, None);
    TurnsExtend(s, entries, guarded, |entries|);
    if AnyTorn(u.log) {
      var k, key :| 0 <= k < |u.log| && Tears(u.log[k], key);
      assert k < |s.log| && Tears(s.log[k], key);
      StillLoud(s.results, u.results);
    }
  }

  lemma RemarkIsLoud(s: State, status: Status)
    requires Bad(status)
    ensures Loud(Loop(s, [Remark(status)], false, None).state.results)
  {
    var results := Loop(s, [Remark(status)], false, None).state.results;
    assert Turns(s, [Remark(status)], false, 0) == s;
    assert results[|s.results|] == Row(None, status);
  }

  /** A guarded loop that nothing stops writes a row for each step it does not find noted. */
  lemma {:induction false} FillWrites(s: State, steps: seq<Step>, status: Status, noted: Status, n: nat, k: nat)
    requires k < n <= |steps| && UniqueKeys(steps) && !status.Skipped? && NoSkip(s.results) && steps[k].key !in s.outcomes
    ensures Row(Some(steps[k].key), status) in Turns(s, StepEntries(steps, status, noted), true, n).results
  {
    var entries := StepEntries(steps, status, noted);
    if k == n - 1 {
      TurnsAre(s, entries, true, n - 1);
    } else {
      FillWrites(s, steps, status, noted, n - 1, k);
    }
  }

  /** An exception that tears a step has the refill write it down as an error. */
  lemma BatchSound(s: State, group: seq<Step>, batch: Batch)
    requires Told(s) && Sound(s) && UniqueKeys(group) && Keys(group) !! s.outcomes.Keys && BatchRun(s, group, batch).end == GoesOn
    ensures Sound(BatchRun(s, group, batch).state)
  {
    var entries := BatchEntries(group, batch);
    if batch.stop.None? {
      WholeLoopSound(s, entries, false);
    } else {
      var ran := Loop(s, entries, false, batch.stop);
      BatchTornRefilled(s, group, batch, ran.state);
    }
  }

  /** A step that a loop tore is left without an outcome. */
  lemma TornIsLeft(s: State, entries: seq<Entry>, stop: Option<Stop>, n: nat)
    requires Told(s) && Fits(s, entries, false) && n == StopsAt(entries, stop) && n < |entries| && entries[n].key.Some?
    ensures entries[n].key.value !in Loop(s, entries, false, stop).state.outcomes
  {
    TurnsAre(s, entries, false, n);
  }

  /** A loop that tears no step stays sound. */
  lemma UntornSound(s: State, entries: seq<Entry>, stop: Option<Stop>)
    requires Sound(s)
    requires var n := StopsAt(entries, stop); n < |entries| && entries[n].key.Some? ==> !StopTears(Turns(s, entries, false, n), entries, false, stop)
    ensures Sound(Loop(s, entries, false, stop).state)
  {
    var t := Loop(s, entries, false, stop).state;
    LoopExtends(s, entries, false, stop);
    TurnsExtend(s, entries, false, StopsAt(entries, stop));
    if AnyTorn(t.log) {
      var k, key :| 0 <= k < |t.log| && Tears(t.log[k], key);
      assert k < |s.log| && Tears(s.log[k], key);
      StillLoud(s.results, t.results);
    }
  }

  lemma RefillIsLoud(t: State, group: seq<Step>, n: nat)
    requires UniqueKeys(group) && NoSkip(t.results) && n < |group| && group[n].key !in t.outcomes
    ensures Sound(Loop(t, StepEntries(group, InfrastructureError, InfrastructureError), true, None).state)
  {
    FillWrites(t, group, InfrastructureError, InfrastructureError, |group|, n);
    var results := Loop(t, StepEntries(group, InfrastructureError, InfrastructureError), true, None).state.results;
    var k :| 0 <= k < |results| && results[k] == Row(Some(group[n].key), InfrastructureError);
    assert Loud(results);
  }

  lemma BatchTornRefilled(s: State, group: seq<Step>, batch: Batch, t: State)
    requires Told(s) && Sound(s) && UniqueKeys(group) && Keys(group) !! s.outcomes.Keys && batch.Runs? && batch.stop.Some?
    requires t == Loop(s, BatchEntries(group, batch), false, batch.stop).state
    ensures Sound(Loop(t, StepEntries(group, InfrastructureError, InfrastructureError), true, None).state)
  {
    var entries := BatchEntries(group, batch);
    var n := StopsAt(entries, batch.stop);
    BatchEntriesAre(group, batch);
    forall k | 0 <= k < |group| ensures group[k].key !in s.outcomes { assert group[k].key in Keys(group); }
    if n < |group| {
      LoopGrows(s, entries, false, batch.stop);
      TornIsLeft(s, entries, batch.stop, n);
      RefillIsLoud(t, group, n);
    } else {
      UntornSound(s, entries, batch.stop);
      WholeLoopSound(t, StepEntries(group, InfrastructureError, InfrastructureError), true);
    }
  }

  lemma NextBatchSound(s: State, steps: seq<Step>, t: State, batch: Batch, n: nat)
    requires n > 0 && UniqueKeys(steps) && Keys(steps) !! s.outcomes.Keys && After(s, steps, t, n - 1) && Sound(t)
    requires BatchRun(t, Group(steps, n - 1), batch).end == GoesOn
    ensures Sound(BatchRun(t, Group(steps, n - 1), batch).state)
  {
    GroupIs(steps, n - 1);
    GroupFresh(s, t, steps, n - 1);
    BatchSound(t, Group(steps, n - 1), batch);
  }

  lemma BatchesNextSound(s: State, steps: seq<Step>, batches: seq<Batch>, n: nat)
    requires 0 < n <= |batches| && Told(s) && UniqueKeys(steps) && Keys(steps) !! s.outcomes.Keys && BatchesRun(s, steps, batches, n).end == GoesOn
    ensures BatchesRun(s, steps, batches, n - 1).end == GoesOn
    ensures Sound(BatchesRun(s, steps, batches, n - 1).state) ==> Sound(BatchesRun(s, steps, batches, n).state)
  {
    var before := BatchesRun(s, steps, batches, n - 1);
    if Group(steps, n - 1) != [] && Sound(before.state) {
      BatchesAfter(s, steps, batches, n - 1);
      NextBatchSound(s, steps, before.state, batches[n - 1], n);
    }
  }

  lemma {:induction false} BatchesSound(s: State, steps: seq<Step>, batches: seq<Batch>, n: nat)
    requires n <= |batches| && Told(s) && UniqueKeys(steps) && Keys(steps) !! s.outcomes.Keys && BatchesRun(s, steps, batches, n).end == GoesOn
    ensures Sound(s) ==> Sound(BatchesRun(s, steps, batches, n).state)
  {
    if n > 0 {
      BatchesNextSound(s, steps, batches, n);
      BatchesSound(s, steps, batches, n - 1);
    }
  }

  /** The `try` block and its handlers, when the run goes on. */
  lemma HandledSound(s: State, steps: seq<Step>, memory: bool, c: Course)
    requires Told(s) && Sound(s) && UniqueKeys(steps) && Keys(steps) !! s.outcomes.Keys && Handled(Try(s, steps, memory, c).ran, c.handler).end == GoesOn
    ensures Sound(Handled(Try(s, steps, memory, c).ran, c.handler).state)
  {
    var t := Try(s, steps, memory, c).ran;
    if t.end == GoesOn {
      AsideGrows(s, steps, memory, c.aside);
      var aside := Aside(s, steps, memory, c.aside).state;
      if memory { WholeLoopSound(s, StepEntries(Postgres(steps, true), NotRun, NotRun), false); }
      BatchesSound(aside, Kept(steps, memory), c.batches, |c.batches|);
    } else {
      RemarkIsLoud(t.state, InfrastructureError);
    }
  }

  lemma FreedSound(h: Ran, steps: seq<Step>, cancelled: bool, fill: Option<Stop>, cleanup: Cleanup)
    requires Sound(h.state) && Freed(h, steps, cancelled, fill, cleanup).end == GoesOn
    ensures h.end == GoesOn && Sound(Freed(h, steps, cancelled, fill, cleanup).state)
  {
    var entries := StepEntries(steps, if cancelled then Cancelled else Blocked, Blocked);
    WholeLoopSound(h.state, entries, true);
    if cleanup.CleanupFails? { WholeLoopSound(Loop(h.state, entries, true, None).state, [Remark(InfrastructureError)], false); }
  }

  lemma {:induction false} ExecuteSound(plan: seq<seq<Step>>, memory: bool, courses: seq<Course>, n: nat)
    requires n <= |plan| == |courses| && UniqueKeys(AllSteps(plan[..n])) && Execute(plan, memory, courses, n).end == GoesOn
    ensures Sound(Execute(plan, memory, courses, n).state)
  {
    if n > 0 {
      AllStepsNext(plan, n);
      UniqueParts(AllSteps(plan[..n - 1]), plan[n - 1]);
      ExecuteGrows(plan, memory, courses, n - 1);
      ExecuteSound(plan, memory, courses, n - 1);
      EnvironmentSound(Execute(plan, memory, courses, n - 1).state, plan[n - 1], memory, courses[n - 1]);
    }
  }

  lemma EnvironmentSound(s: State, steps: seq<Step>, memory: bool, c: Course)
    requires Told(s) && Sound(s) && UniqueKeys(steps) && Keys(steps) !! s.outcomes.Keys && Environment(s, steps, memory, c).end == GoesOn
    ensures Sound(Environment(s, steps, memory, c).state)
  {
    var t := Try(s, steps, memory, c);
    var h := Handled(t.ran, c.handler);
    if h.end == GoesOn { HandledSound(s, steps, memory, c); }
    FreedEnds(h, t.steps, t.ran.end == Interrupts && c.handler.None?, c.fill, c.cleanup);
    FreedSound(h, t.steps, t.ran.end == Interrupts && c.handler.None?, c.fill, c.cleanup);
  }

  lemma FreedEnds(h: Ran, steps: seq<Step>, cancelled: bool, fill: Option<Stop>, cleanup: Cleanup)
    ensures Freed(h, steps, cancelled, fill, cleanup).end == GoesOn ==> h.end == GoesOn
  {
  }

  lemma {:induction false} LastTurn(s: State, entries: seq<Entry>, status: Status)
    requires Bad(status)
    ensures Loud(Loop(s, entries + [Remark(status)], false, None).state.results)
  {
    var all := entries + [Remark(status)];
    var results := Loop(s, all, false, None).state.results;
    assert results[|results| - 1] == Row(None, status);
  }

  /** A run that exits zero was neither interrupted nor broken off. */
  lemma ZeroGoesOn(plan: seq<seq<Step>>, memory: bool, courses: seq<Course>, ending: Ending)
    requires |plan| == |courses|
    requires var outcome := Invocation(plan, memory, courses, ending); outcome.finished && Exit(outcome.results) == 0
    ensures Execute(plan, memory, courses, |plan|).end == GoesOn
    ensures Invocation(plan, memory, courses, ending).results == Execute(plan, memory, courses, |plan|).state.results
  {
    var ran := Execute(plan, memory, courses, |plan|);
    var handled := if ran.end == GoesOn then ran else Loop(ran.state, HandlerEntries(plan, ran), false, ending.handler);
    LastTurn(ran.state, CancelEntries(AllSteps(plan), KeysIn(ran.state.results)), Cancelled);
    RemarkIsLoud(ran.state, InfrastructureError);
    RemarkIsLoud(handled.state, InfrastructureError);
    LoopExtends(handled.state, [Remark(InfrastructureError)], false, None);
    if Loud(handled.state.results) && ending.cleanupFails {
      StillLoud(handled.state.results, Loop(handled.state, [Remark(InfrastructureError)], false, None).state.results);
    }
  }

  lemma {:induction false} CountedRow(results: seq<Row>, key: Key)
    requires CountKey(results, key) > 0
    ensures exists k :: 0 <= k < |results| && results[k].key == Some(key)
  {
    var last := |results| - 1;
    if results[last].key != Some(key) {
      CountedRow(results[..last], key);
      var k :| 0 <= k < last && results[..last][k].key == Some(key);
      assert results[k].key == Some(key);
    }
  }

  /** A zero exit means every planned test has its one verdict, and that it passed, failed as expected or was
      set aside: a skip never survives to be one, and whatever a failure tore was reported. */
  lemma ZeroExitMeansAllGood(plan: seq<seq<Step>>, memory: bool, courses: seq<Course>, ending: Ending, key: Key)
    requires |plan| == |courses| && UniqueKeys(AllSteps(plan)) && key in Keys(AllSteps(plan))
    requires var outcome := Invocation(plan, memory, courses, ending); outcome.finished && Exit(outcome.results) == 0
    ensures
      var results := Invocation(plan, memory, courses, ending).results;
      CountKey(results, key) == 1 && exists k :: 0 <= k < |results| && results[k].key == Some(key) && (Good(results[k].status) || results[k].status.NotRun?)
  {
    ZeroGoesOn(plan, memory, courses, ending);
    assert plan[..|plan|] == plan;
    ExecuteGrows(plan, memory, courses, |plan|);
    ExecuteSound(plan, memory, courses, |plan|);
    var s := Execute(plan, memory, courses, |plan|).state;
    TornOnce(s.log, key);
    CountedRow(s.results, key);
    var k :| 0 <= k < |s.results| && s.results[k].key == Some(key);
    assert !s.results[k].status.Skipped? && !Bad(s.results[k].status);
  }

  lemma {:induction false} PlainWrites(s: State, entries: seq<Entry>, n: nat, k: nat)
    requires k < n <= |entries|
    ensures Row(entries[k].key, entries[k].status) in Turns(s, entries, false, n).results
  {
    if k < n - 1 { PlainWrites(s, entries, n - 1, k); }
  }

  /** A runner that exits non-zero fails the run, even when every case it reported passed. */
  lemma FailingRunnerFails(s: State, group: seq<Step>, batch: Batch)
    requires batch.Runs? && batch.stop.None? && batch.exitCode != 0 && group != []
    requires forall id :: id in batch.actual ==> !batch.actual[id].NotRun?
    ensures Loud(BatchRun(s, group, batch).state.results)
  {
    var cases := FinishCases(group, batch.actual, batch.fileErrors);
    var entries := BatchEntries(group, batch);
    CasesToIs(group, batch.actual, batch.fileErrors, |group|);
    var j := BadEntry(group, batch);
    PlainWrites(s, entries, |entries|, j);
    var results := BatchRun(s, group, batch).state.results;
    var k :| 0 <= k < |results| && results[k] == Row(entries[j].key, entries[j].status);
  }

  lemma BadEntry(group: seq<Step>, batch: Batch) returns (j: nat)
    requires batch.Runs? && batch.exitCode != 0 && group != []
    requires forall id :: id in batch.actual ==> !batch.actual[id].NotRun?
    ensures j < |BatchEntries(group, batch)| && Bad(BatchEntries(group, batch)[j].status)
  {
    var cases := FinishCases(group, batch.actual, batch.fileErrors);
    CasesToIs(group, batch.actual, batch.fileErrors, |group|);
    if forall id :: id in cases ==> Good(cases[id]) {
      assert BatchRemarks(cases, batch) != [];
      j := if batch.floors == Some(true) then |group| else |BatchEntries(group, batch)| - 1;
    } else {
      var id :| id in cases && !Good(cases[id]);
      CasesAreSteps(group, batch.actual, batch.fileErrors, |group|, id);
      j :| 0 <= j < |group| && group[j].test == id;
    }
  }

  lemma {:induction false} CasesAreSteps(steps: seq<Step>, actual: map<nat, Status>, fileErrors: set<nat>, n: nat, id: nat)
    requires n <= |steps| && id in CasesTo(steps, actual, fileErrors, n).result
    ensures exists j :: 0 <= j < n && steps[j].test == id
  {
    if steps[n - 1].test != id {
      CasesAreSteps(steps, actual, fileErrors, n - 1, id);
      var j :| 0 <= j < n - 1 && steps[j].test == id;
    }
  }

  // Two verdicts, and three.

  /** A loop that tears a step adds a row of it and leaves it without an outcome. */
  lemma TearAdds(s: State, entries: seq<Entry>, guarded: bool, stop: Stop)
    requires Told(s) && Fits(s, entries, guarded) && stop.torn && stop.after < |entries| && entries[stop.after].key.Some?
    requires entries[stop.after].key.value !in s.outcomes
    ensures
      var key := entries[stop.after].key.value;
      var t := Loop(s, entries, guarded, Some(stop)).state;
      Told(t) && key !in t.outcomes && CountKey(t.results, key) == CountKey(s.results, key) + 1
  {
    var key, t := entries[stop.after].key.value, Turns(s, entries, guarded, stop.after);
    LoopGrows(s, entries, guarded, Some(stop));
    TurnsAre(s, entries, guarded, stop.after);
    CountSnoc(t.results, Row(entries[stop.after].key, entries[stop.after].status), key);
  }

  /** A guarded loop that nothing stops adds a row of each of its steps that has no outcome. */
  lemma FillAdds(s: State, steps: seq<Step>, status: Status, noted: Status, k: nat)
    requires Told(s) && UniqueKeys(steps) && !status.Skipped? && k < |steps| && steps[k].key !in s.outcomes
    ensures
      var t := Loop(s, StepEntries(steps, status, noted), true, None).state;
      CountKey(t.results, steps[k].key) == CountKey(s.results, steps[k].key) + 1
  {
    var entries := StepEntries(steps, status, noted);
    assert entries[k].key == Some(steps[k].key);
    TurnsAre(s, entries, true, |entries|);
  }

  /** A failure between a verdict's being written and its being noted gives the step a second verdict when
      the steps left are recorded, as errors or as blocked. */
  lemma TornIsTwice(s: State, group: seq<Step>, batch: Batch, k: nat, steps: seq<Step>, status: Status, noted: Status, j: nat)
    requires Told(s) && UniqueKeys(group) && Keys(group) !! s.outcomes.Keys && k < |group| && CountKey(s.results, group[k].key) == 0
    requires batch.Runs? && batch.stop.Some? && batch.stop.value.after == k && batch.stop.value.torn
    requires UniqueKeys(steps) && !status.Skipped? && j < |steps| && steps[j].key == group[k].key
    ensures
      var t := Loop(s, BatchEntries(group, batch), false, batch.stop).state;
      CountKey(Loop(t, StepEntries(steps, status, noted), true, None).state.results, group[k].key) == 2
  {
    BatchEntriesAre(group, batch);
    forall i | 0 <= i < |group| ensures group[i].key !in s.outcomes { assert group[i].key in Keys(group); }
    TearAdds(s, BatchEntries(group, batch), false, batch.stop.value);
    FillAdds(Loop(s, BatchEntries(group, batch), false, batch.stop).state, steps, status, noted, j);
  }

  /** When that loop is torn at the same step in turn, as on a disk that is full, the next gives it another. */
  lemma TornAgain(s: State, group: seq<Step>, k: nat, fault: Fault)
    requires Told(s) && UniqueKeys(group) && k < |group| && group[k].key !in s.outcomes
    ensures
      var t := Loop(s, StepEntries(group, InfrastructureError, InfrastructureError), true, Some(Stop(k, true, fault))).state;
      CountKey(Loop(t, StepEntries(group, Blocked, Blocked), true, None).state.results, group[k].key) == CountKey(s.results, group[k].key) + 2
  {
    var refill := StepEntries(group, InfrastructureError, InfrastructureError);
    assert refill[k].key == Some(group[k].key);
    TearAdds(s, refill, true, Stop(k, true, fault));
    FillAdds(Loop(s, refill, true, Some(Stop(k, true, fault))).state, group, Blocked, Blocked, k);
  }

  // The plans there are.

  ghost predicate PlannedOn(plan: seq<seq<Step>>, platforms: seq<nat>) {
    && |platforms| == |plan|
    && (forall i, j :: 0 <= i < j < |platforms| ==> platforms[i] != platforms[j])
    && forall e :: 0 <= e < |plan| ==> exists applicable :: Numbered(applicable, platforms[e], plan[e])
  }

  lemma {:induction false} PlanKeysFrom(plan: seq<seq<Step>>, platforms: seq<nat>, n: nat)
    requires PlannedOn(plan, platforms) && n <= |plan|
    ensures UniqueKeys(AllSteps(plan[..n]))
    ensures forall x :: x in AllSteps(plan[..n]) ==> exists e :: 0 <= e < n && x.key.platform == platforms[e]
  {
    if n > 0 {
      PlanKeysFrom(plan, platforms, n - 1);
      AllStepsNext(plan, n);
      var before, now := AllSteps(plan[..n - 1]), plan[n - 1];
      var applicable :| Numbered(applicable, platforms[n - 1], now);
      forall i, j | 0 <= i < |before| && 0 <= j < |now| ensures before[i].key != now[j].key {
        assert before[i] in before;
      }
      forall x | x in before + now ensures exists e :: 0 <= e < n && x.key.platform == platforms[e] {
        if x in before {
          var e :| 0 <= e < n - 1 && x.key.platform == platforms[e];
        } else {
          assert x.key.platform == platforms[n - 1];
        }
      }
    }
  }

  /** In a plan over different platforms no two steps share a key. */
  lemma PlanKeysUnique(plan: seq<seq<Step>>, platforms: seq<nat>)
    requires PlannedOn(plan, platforms)
    ensures UniqueKeys(AllSteps(plan))
  {
    PlanKeysFrom(plan, platforms, |plan|);
    assert plan[..|plan|] == plan;
  }
}
