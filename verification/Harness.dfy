/** Running a plan and judging the run, from `scripts/testing/engine.py` and its neighbours. */
module Harness {
  // Cases are judged as in `scripts/testing/adapters.py`, rows kept as in `scripts/testing/reporting.py`, and a whole
  // invocation is that of `scripts/testing/cli.py`.
  import opened Picking
  import opened Planning
  import opened Wrappers

  datatype Status = Passed | ExpectedFailure | NotRun | Failed | Blocked | Cancelled | InfrastructureError | Skipped

  predicate Good(s: Status) { s.Passed? || s.ExpectedFailure? }

  predicate Bad(s: Status) { s.Failed? || s.Blocked? || s.Cancelled? || s.InfrastructureError? }

  // Holding each selected case to an outcome.

  /** What one step comes to: missing from the results, skipped, or as the runner says. A skip is excused only
      by an earlier test it depends on that did not pass. */
  function CaseOf(step: Step, actual: map<nat, Status>, fileErrors: set<nat>, outcomes: map<Key, Status>): Status {
    if step.test !in actual then (if step.test in fileErrors then Failed else InfrastructureError)
    else if actual[step.test].Skipped? then (if exists d :: d in step.dependsOn && !(d in outcomes && Good(outcomes[d])) then Blocked else Failed)
    else actual[step.test]
  }

  datatype Cases = Cases(result: map<nat, Status>, outcomes: map<Key, Status>)

  function CasesTo(steps: seq<Step>, actual: map<nat, Status>, fileErrors: set<nat>, n: nat): Cases
    requires n <= |steps|
  {
    if n == 0 then Cases(map[], map[])
    else
      var before := CasesTo(steps, actual, fileErrors, n - 1);
      var status := CaseOf(steps[n - 1], actual, fileErrors, before.outcomes);
      Cases(before.result[steps[n - 1].test := status], before.outcomes[steps[n - 1].key := status])
  }

  predicate AllSkipped(steps: seq<Step>, actual: map<nat, Status>) {
    steps != [] && forall k :: 0 <= k < |steps| ==> steps[k].test in actual && actual[steps[k].test].Skipped?
  }

  function FinishCases(steps: seq<Step>, actual: map<nat, Status>, fileErrors: set<nat>): map<nat, Status> {
    var result := CasesTo(steps, actual, fileErrors, |steps|).result;
    if AllSkipped(steps, actual) then map id | id in result :: Failed else result
  }

  method FinishAll(steps: seq<Step>, actual: map<nat, Status>, fileErrors: set<nat>) returns (result: map<nat, Status>)
    ensures result == FinishCases(steps, actual, fileErrors)
  {
    var outcomes: map<Key, Status> := map[];
    result := map[];
    for n := 0 to |steps|
      invariant Cases(result, outcomes) == CasesTo(steps, actual, fileErrors, n)
    {
      var status := CaseOf(steps[n], actual, fileErrors, outcomes);
      result := result[steps[n].test := status];
      outcomes := outcomes[steps[n].key := status];
    }
    if AllSkipped(steps, actual) { result := map id | id in result :: Failed; }
  }

  lemma {:induction false} CasesToIs(steps: seq<Step>, actual: map<nat, Status>, fileErrors: set<nat>, n: nat)
    requires n <= |steps|
    ensures forall k :: 0 <= k < n ==> steps[k].test in CasesTo(steps, actual, fileErrors, n).result
    ensures forall id :: id in CasesTo(steps, actual, fileErrors, n).result ==>
              var status := CasesTo(steps, actual, fileErrors, n).result[id];
              && !status.Skipped?
              && (Good(status) || status.NotRun? || status.Cancelled? ==> id in actual && actual[id] == status)
  {
    if n > 0 { CasesToIs(steps, actual, fileErrors, n - 1); }
  }

  /** Every selected case has an outcome, a skip is never one, and none is good but by the runner's own word. */
  lemma SkipIsNeverAPass(steps: seq<Step>, actual: map<nat, Status>, fileErrors: set<nat>, k: nat)
    requires k < |steps|
    ensures
      var result := FinishCases(steps, actual, fileErrors);
      && steps[k].test in result && !result[steps[k].test].Skipped?
      && (Good(result[steps[k].test]) ==> steps[k].test in actual && actual[steps[k].test] == result[steps[k].test] && !AllSkipped(steps, actual))
  {
    CasesToIs(steps, actual, fileErrors, |steps|);
  }

  /** `d` has an outcome by step `k`, and the last one it has is good. */
  predicate HasPassed(steps: seq<Step>, told: seq<Status>, k: nat, d: Key)
    requires k <= |steps| && k <= |told|
  {
    exists j :: 0 <= j < k && steps[j].key == d && Good(told[j]) && forall i :: j < i < k ==> steps[i].key != d
  }

  /** One outcome for each step: what the runner says, except that a missing test failed or is an error as its
      file did or not, and a skip is blocked when something it depends on has not passed by then, else failed. */
  predicate Judged(steps: seq<Step>, actual: map<nat, Status>, fileErrors: set<nat>, told: seq<Status>, k: nat)
    requires k < |steps| == |told|
  {
    var test := steps[k].test;
    if test !in actual then told[k] == if test in fileErrors then Failed else InfrastructureError
    else if actual[test] != Skipped then told[k] == actual[test]
    else told[k] == if forall d :: d in steps[k].dependsOn ==> HasPassed(steps, told, k, d) then Failed else Blocked
  }

  /** The last outcome of a test stands for it. */
  predicate StandsFor(steps: seq<Step>, told: seq<Status>, id: nat, status: Status)
    requires |steps| == |told|
  {
    exists j :: 0 <= j < |steps| && steps[j].test == id && told[j] == status && forall i :: j < i < |steps| ==> steps[i].test != id
  }

  ghost predicate AreJudged(steps: seq<Step>, actual: map<nat, Status>, fileErrors: set<nat>, told: seq<Status>) {
    |told| == |steps| && forall k :: 0 <= k < |steps| ==> Judged(steps, actual, fileErrors, told, k)
  }

  /** The maps hold what was told of each step, the last of a key or a test standing for it. */
  ghost predicate Holds(steps: seq<Step>, c: Cases, told: seq<Status>)
    requires |steps| == |told|
  {
    && (forall id :: id in c.result <==> exists j :: 0 <= j < |steps| && steps[j].test == id)
    && (forall id :: id in c.result ==> StandsFor(steps, told, id, c.result[id]))
    && (forall d :: (d in c.outcomes && Good(c.outcomes[d])) <==> HasPassed(steps, told, |steps|, d))
  }

  lemma HoldsNext(steps: seq<Step>, c: Cases, told: seq<Status>, status: Status)
    requires steps != [] && |told| == |steps| - 1 && Holds(steps[..|steps| - 1], c, told)
    ensures
      var last := steps[|steps| - 1];
      Holds(steps, Cases(c.result[last.test := status], c.outcomes[last.key := status]), told + [status])
  {
  }

  /** What is told of the first `n` steps, one by one. */
  lemma {:induction false} CasesAreJudged(steps: seq<Step>, actual: map<nat, Status>, fileErrors: set<nat>, n: nat) returns (told: seq<Status>)
    requires n <= |steps|
    ensures AreJudged(steps[..n], actual, fileErrors, told)
    ensures Holds(steps[..n], CasesTo(steps, actual, fileErrors, n), told)
  {
    if n == 0 {
      told := [];
    } else {
      var before := CasesAreJudged(steps, actual, fileErrors, n - 1);
      var c := CasesTo(steps, actual, fileErrors, n - 1);
      var status := CaseOf(steps[n - 1], actual, fileErrors, c.outcomes);
      told := before + [status];
      assert steps[..n][..n - 1] == steps[..n - 1];
      HoldsNext(steps[..n], c, before, status);
      JudgedNext(steps[..n], actual, fileErrors, before, status, c);
    }
  }

  lemma JudgedNext(steps: seq<Step>, actual: map<nat, Status>, fileErrors: set<nat>, before: seq<Status>, status: Status, c: Cases)
    requires steps != [] && AreJudged(steps[..|steps| - 1], actual, fileErrors, before) && Holds(steps[..|steps| - 1], c, before)
    requires status == CaseOf(steps[|steps| - 1], actual, fileErrors, c.outcomes)
    ensures AreJudged(steps, actual, fileErrors, before + [status])
  {
    var n := |steps| - 1;
    var told := before + [status];
    forall k, d | 0 <= k <= n ensures HasPassed(steps, told, k, d) <==> HasPassed(steps[..n], before, k, d) {}
    forall k | 0 <= k < n ensures Judged(steps, actual, fileErrors, told, k) {
      assert Judged(steps[..n], actual, fileErrors, before, k);
    }
  }

  /** A batch's cases are those outcomes, the last of a test standing for it; but when every test was skipped
      nothing was exercised, and all of them failed. */
  lemma CasesAre(steps: seq<Step>, actual: map<nat, Status>, fileErrors: set<nat>)
    ensures
      var result := FinishCases(steps, actual, fileErrors);
      exists told ::
        && AreJudged(steps, actual, fileErrors, told)
        && (forall id :: id in result <==> exists j :: 0 <= j < |steps| && steps[j].test == id)
        && forall id :: id in result ==>
            if forall k :: 0 <= k < |steps| ==> steps[k].test in actual && actual[steps[k].test] == Skipped then result[id] == Failed
            else StandsFor(steps, told, id, result[id])
  {
    var told := CasesAreJudged(steps, actual, fileErrors, |steps|);
    assert steps[..|steps|] == steps;
  }

  /** `unexplained`: a runner that failed though every case it reported passed is itself an error. */
  function Unexplained(exitCode: int, cases: map<nat, Status>, error: bool): bool {
    error || (exitCode != 0 && forall id :: id in cases ==> Good(cases[id]))
  }

  // The record of a run.

  datatype Row = Row(key: Option<Key>, status: Status)

  /** What one turn of a loop writes: a row, which is a step's when it has a key, and then what it notes of the
      step in `outcomes`. */
  datatype Entry = Entry(key: Option<Key>, status: Status, noted: Option<Status>)

  /** A loop over `entries` that got through the first `upTo` of them and, when `torn`, then wrote the next one's
      row without noting it. */
  datatype Walk = Walk(entries: seq<Entry>, upTo: nat, torn: bool)

  /** `log` is the loops run so far. */
  datatype State = State(results: seq<Row>, outcomes: map<Key, Status>, log: seq<Walk>)

  const EMPTY := State([], map[], [])

  function Remark(status: Status): Entry {
    Entry(None, status, None)
  }

  function StepEntries(steps: seq<Step>, status: Status, noted: Status): (r: seq<Entry>)
  {
    seq(|steps|, k requires 0 <= k < |steps| => Entry(Some(steps[k].key), status, Some(noted)))
  }

  function Written(s: State, e: Entry): State {
    s.(results := s.results + [Row(e.key, e.status)])
  }

  function Noted(s: State, e: Entry): State {
    if e.key.Some? && e.noted.Some? then s.(outcomes := s.outcomes[e.key.value := e.noted.value]) else s
  }

  /** A guarded loop passes over a step that has an outcome. */
  predicate Skips(s: State, e: Entry, guarded: bool) {
    guarded && e.key.Some? && e.key.value in s.outcomes
  }

  /** The first `n` turns of a loop. */
  function Turns(s: State, entries: seq<Entry>, guarded: bool, n: nat): State
    requires n <= |entries|
  {
    if n == 0 then s
    else
      var t := Turns(s, entries, guarded, n - 1);
      if Skips(t, entries[n - 1], guarded) then t else Noted(Written(t, entries[n - 1]), entries[n - 1])
  }

  datatype Fault = Interrupt | Error

  datatype End = GoesOn | Interrupts | Raises

  function EndOf(fault: Fault): End {
    if fault.Interrupt? then Interrupts else Raises
  }

  /** Where something stops a loop: after that many turns, or in the next one, between its two statements. */
  datatype Stop = Stop(after: nat, torn: bool, fault: Fault)

  datatype Ran = Ran(state: State, end: End)

  function Logged(s: State, entries: seq<Entry>, upTo: nat, torn: bool): State {
    s.(log := s.log + [Walk(entries, upTo, torn)])
  }

  function StopsAt(entries: seq<Entry>, stop: Option<Stop>): (n: nat)
    ensures n <= |entries|
  {
    if stop.Some? && stop.value.after < |entries| then stop.value.after else |entries|
  }

  predicate StopTears(t: State, entries: seq<Entry>, guarded: bool, stop: Option<Stop>) {
    var n := StopsAt(entries, stop);
    stop.Some? && stop.value.torn && n < |entries| && !Skips(t, entries[n], guarded)
  }

  function Loop(s: State, entries: seq<Entry>, guarded: bool, stop: Option<Stop>): Ran {
    var n := StopsAt(entries, stop);
    var t := Turns(s, entries, guarded, n);
    var tears := StopTears(t, entries, guarded, stop);
    Ran(Logged(if tears then Written(t, entries[n]) else t, entries, n, tears), if stop.Some? then EndOf(stop.value.fault) else GoesOn)
  }

  /** What becomes of one batch: its directory cannot be made; or its runner's cases, exit code and held or missed
      coverage are recorded, up to where something stops that, and when it is an exception the steps without
      an outcome are recorded as errors, up to where something stops that in turn. */
  datatype Batch =
    | NoDirectory(fault: Fault)
    | Runs(actual: map<nat, Status>, fileErrors: set<nat>, exitCode: int, error: bool, floors: Option<bool>,
           stop: Option<Stop>, refill: Option<Stop>)

  function StatusOf(step: Step, cases: map<nat, Status>): Status {
    if step.test in cases then cases[step.test] else InfrastructureError
  }

  function CaseEntries(steps: seq<Step>, cases: map<nat, Status>): seq<Entry> {
    seq(|steps|, k requires 0 <= k < |steps| => Entry(Some(steps[k].key), StatusOf(steps[k], cases), Some(StatusOf(steps[k], cases))))
  }

  function BatchRemarks(cases: map<nat, Status>, batch: Batch): seq<Entry>
    requires batch.Runs?
  {
    var wrong := if batch.floors == Some(true) then batch.error else Unexplained(batch.exitCode, cases, batch.error);
    (if batch.floors.Some? then [Remark(if batch.floors.value then Failed else Passed)] else [])
    + if wrong then [Remark(InfrastructureError)] else []
  }

  function BatchEntries(group: seq<Step>, batch: Batch): seq<Entry>
    requires batch.Runs?
  {
    var cases := FinishCases(group, batch.actual, batch.fileErrors);
    CaseEntries(group, cases) + BatchRemarks(cases, batch)
  }

  function BatchRun(s: State, group: seq<Step>, batch: Batch): Ran {
    match batch
    case NoDirectory(fault) => Ran(s, EndOf(fault))
    case Runs(_, _, _, _, _, stop, refill) =>
      var ran := Loop(s, BatchEntries(group, batch), false, stop);
      if ran.end == Raises then Loop(ran.state, StepEntries(group, InfrastructureError, InfrastructureError), true, refill) else ran
  }

  /** The steps of one runner and configuration. */
  function Group(steps: seq<Step>, adapter: nat): seq<Step> {
    if steps == [] then []
    else if steps[0].adapter == adapter then [steps[0]] + Group(steps[1..], adapter)
    else Group(steps[1..], adapter)
  }

  /** A batch has its runner's steps in the plan's order, so after those they depend on. */
  lemma {:induction false} GroupAre(steps: seq<Step>, adapter: nat)
    ensures AreThose(steps, Group(steps, adapter), (s: Step) => s.adapter == adapter)
  {
    var keep := (s: Step) => s.adapter == adapter;
    if steps == [] {
      assert Picked(steps, [], keep, []);
    } else {
      GroupAre(steps[1..], adapter);
      var at :| Picked(steps[1..], Group(steps[1..], adapter), keep, at);
      PickedMore(steps, Group(steps[1..], adapter), keep, at);
    }
  }

  /** The first `n` batches, one for each entry of the runners' fixed order; a runner with no step is not run,
      and a step of a runner outside the order is in no batch. */
  function BatchesRun(s: State, steps: seq<Step>, batches: seq<Batch>, n: nat): Ran
    requires n <= |batches|
  {
    if n == 0 then Ran(s, GoesOn)
    else
      var before := BatchesRun(s, steps, batches, n - 1);
      var group := Group(steps, n - 1);
      if before.end != GoesOn || group == [] then before
      else BatchRun(before.state, group, batches[n - 1])
  }

  datatype Cleanup = Clean | CleanupFails(stop: Option<Stop>) | CleanupInterrupted

  /** What happens to one environment: whether its directory is made; where its PostgreSQL steps stop being set
      aside, its setup fails, its batches stop, and the handler of either fails in turn; where the loop over
      what is left stops; and how its cleanup goes. */
  datatype Course = Course(begins: End, aside: Option<Stop>, setup: Option<Fault>, batches: seq<Batch>,
                           handler: Option<Stop>, fill: Option<Stop>, cleanup: Cleanup)

  function Postgres(steps: seq<Step>, postgres: bool): seq<Step> {
    if steps == [] then []
    else if steps[0].postgres == postgres then [steps[0]] + Postgres(steps[1..], postgres)
    else Postgres(steps[1..], postgres)
  }

  /** The steps that need PostgreSQL are all of those and no other, in the plan's order; and so are the rest. */
  lemma {:induction false} PostgresAre(steps: seq<Step>, postgres: bool)
    ensures AreThose(steps, Postgres(steps, postgres), (s: Step) => s.postgres == postgres)
  {
    var keep := (s: Step) => s.postgres == postgres;
    if steps == [] {
      assert Picked(steps, [], keep, []);
    } else {
      PostgresAre(steps[1..], postgres);
      var at :| Picked(steps[1..], Postgres(steps[1..], postgres), keep, at);
      PickedMore(steps, Postgres(steps[1..], postgres), keep, at);
    }
  }

  /** The steps that need PostgreSQL itself are set aside where there is none. */
  function Aside(s: State, steps: seq<Step>, memory: bool, stop: Option<Stop>): Ran {
    if memory then Loop(s, StepEntries(Postgres(steps, true), NotRun, NotRun), false, stop) else Ran(s, GoesOn)
  }

  function Kept(steps: seq<Step>, memory: bool): seq<Step> {
    if memory then Postgres(steps, false) else steps
  }

  /** The `try` block, with the steps its `finally` looks at. */
  datatype Tried = Tried(ran: Ran, steps: seq<Step>)

  function Try(s: State, steps: seq<Step>, memory: bool, c: Course): Tried {
    var aside := Aside(s, steps, memory, c.aside);
    if aside.end != GoesOn then Tried(aside, steps)
    else if c.setup.Some? then Tried(Ran(aside.state, EndOf(c.setup.value)), Kept(steps, memory))
    else Tried(BatchesRun(aside.state, Kept(steps, memory), c.batches, |c.batches|), Kept(steps, memory))
  }

  /** The `except` blocks: an exception is a row of its own, an interrupt goes on up. */
  function Handled(t: Ran, handler: Option<Stop>): Ran {
    match t.end
    case GoesOn => t
    case Interrupts => if handler.Some? then Ran(t.state, EndOf(handler.value.fault)) else t
    case Raises => Loop(t.state, [Remark(InfrastructureError)], false, handler)
  }

  /** The `finally` block: what has no outcome is recorded, and the environment's resources are freed. */
  function Freed(h: Ran, steps: seq<Step>, cancelled: bool, fill: Option<Stop>, cleanup: Cleanup): Ran {
    var f := Loop(h.state, StepEntries(steps, if cancelled then Cancelled else Blocked, Blocked), true, fill);
    if f.end != GoesOn then f
    else
      match cleanup
      case Clean => Ran(f.state, h.end)
      case CleanupInterrupted => Ran(f.state, Interrupts)
      case CleanupFails(stop) =>
        var r := Loop(f.state, [Remark(InfrastructureError)], false, stop);
        Ran(r.state, if r.end == GoesOn then h.end else r.end)
  }

  function Environment(s: State, steps: seq<Step>, memory: bool, c: Course): Ran {
    if c.begins != GoesOn then Ran(s, c.begins)
    else
      var t := Try(s, steps, memory, c);
      Freed(Handled(t.ran, c.handler), t.steps, t.ran.end == Interrupts && c.handler.None?, c.fill, c.cleanup)
  }

  /** The first `n` environments. */
  function Execute(plan: seq<seq<Step>>, memory: bool, courses: seq<Course>, n: nat): Ran
    requires n <= |plan| == |courses|
  {
    if n == 0 then Ran(EMPTY, GoesOn)
    else
      var before := Execute(plan, memory, courses, n - 1);
      if before.end != GoesOn then before else Environment(before.state, plan[n - 1], memory, courses[n - 1])
  }

  function KeysIn(results: seq<Row>): set<Key> {
    set r | r in results && r.key.Some? :: r.key.value
  }

  /** What `cancel_remaining` writes: a row for each step whose key had none. */
  function CancelEntries(steps: seq<Step>, recorded: set<Key>): seq<Entry> {
    if steps == [] then []
    else
      var earlier := CancelEntries(steps[..|steps| - 1], recorded);
      var last := steps[|steps| - 1];
      if last.key in recorded then earlier else earlier + [Entry(Some(last.key), Cancelled, None)]
  }

  function AllSteps(plan: seq<seq<Step>>): seq<Step> {
    if plan == [] then [] else AllSteps(plan[..|plan| - 1]) + plan[|plan| - 1]
  }

  /** How an invocation ends: where its handler of what `execute` let through stops, whether the last cleanup
      fails and where its row stops, and whether the summary is then written. */
  datatype Ending = Ending(handler: Option<Stop>, cleanupFails: bool, cleanup: Option<Stop>, summed: bool)

  /** The rows an invocation leaves, and whether it lived to give an exit code. */
  datatype Outcome = Outcome(results: seq<Row>, finished: bool)

  /** An interrupt cancels what is left, any other exception is a row of its own. */
  function HandlerEntries(plan: seq<seq<Step>>, ran: Ran): seq<Entry> {
    match ran.end
    case GoesOn => []
    case Interrupts => CancelEntries(AllSteps(plan), KeysIn(ran.state.results)) + [Remark(Cancelled)]
    case Raises => [Remark(InfrastructureError)]
  }

  function Invocation(plan: seq<seq<Step>>, memory: bool, courses: seq<Course>, ending: Ending): Outcome
    requires |plan| == |courses|
  {
    var ran := Execute(plan, memory, courses, |plan|);
    var handled := if ran.end == GoesOn then ran else Loop(ran.state, HandlerEntries(plan, ran), false, ending.handler);
    var cleaned := if ending.cleanupFails then Loop(handled.state, [Remark(InfrastructureError)], false, ending.cleanup) else Ran(handled.state, GoesOn);
    Outcome(cleaned.state.results, handled.end == GoesOn && cleaned.end == GoesOn && ending.summed)
  }

  /** Beside its cases a batch has a row for coverage it held or missed, and an error's when its runner had one; a
      runner that failed although each case it reported was good is one, unless missed coverage explains it. */
  lemma RemarksAre(cases: map<nat, Status>, batch: Batch)
    requires batch.Runs?
    ensures
      var rows := BatchRemarks(cases, batch);
      var unexplained := batch.exitCode != 0 && batch.floors != Some(true) && forall id :: id in cases ==> cases[id] in {Passed, ExpectedFailure};
      && (Remark(InfrastructureError) in rows <==> batch.error || unexplained)
      && (Remark(Failed) in rows <==> batch.floors == Some(true)) && (Remark(Passed) in rows <==> batch.floors == Some(false))
      && |rows| == (if batch.floors.Some? then 1 else 0) + (if batch.error || unexplained then 1 else 0)
  {
    var rows := BatchRemarks(cases, batch);
    assert rows == [] || rows == [rows[0]] || rows == [rows[0], rows[1]];
    assert forall s: Status :: Good(s) <==> s in {Passed, ExpectedFailure};
  }

  /** `finish`: nothing recorded, or anything bad, fails the run. */
  function Exit(results: seq<Row>): int {
    if results == [] || exists k :: 0 <= k < |results| && Bad(results[k].status) then 1 else 0
  }

  /** A run exits with 0 exactly when it recorded something and nothing it recorded is a failure, a block, a
      cancellation or an error. */
  lemma ExitIs(results: seq<Row>)
    ensures Exit(results) in {0, 1}
    ensures Exit(results) == 0 <==> results != [] && forall r :: r in results ==> r.status in {Passed, ExpectedFailure, NotRun, Skipped}
  {
    assert forall s: Status :: Bad(s) <==> s !in {Passed, ExpectedFailure, NotRun, Skipped};
    if forall r :: r in results ==> r.status in {Passed, ExpectedFailure, NotRun, Skipped} {
      assert forall k :: 0 <= k < |results| ==> results[k] in results;
    }
  }

  // The loops themselves.

  class Report {
    var results: seq<Row>
    var outcomes: map<Key, Status>
    ghost var log: seq<Walk>

    ghost function Contents(): State
      reads this
    {
      State(results, outcomes, log)
    }

    constructor ()
      ensures Contents() == EMPTY
    {
      results := [];
      outcomes := map[];
      log := [];
    }

    method Result(e: Entry)
      modifies this`results
      ensures Contents() == Written(old(Contents()), e)
    {
      results := results + [Row(e.key, e.status)];
    }

    method Note(e: Entry)
      modifies this`outcomes
      ensures Contents() == Noted(old(Contents()), e)
    {
      if e.key.Some? && e.noted.Some? { outcomes := outcomes[e.key.value := e.noted.value]; }
    }

    /** Every loop that records: a row and then its note, unless guarded by an outcome there already. */
    method Record(entries: seq<Entry>, guarded: bool, stop: Option<Stop>) returns (end: End)
      modifies this
      ensures Ran(Contents(), end) == Loop(old(Contents()), entries, guarded, stop)
    {
      var n := StopsAt(entries, stop);
      for k := 0 to n
        invariant Contents() == Turns(old(Contents()), entries, guarded, k)
      {
        if !guarded || entries[k].key.None? || entries[k].key.value !in outcomes {
          Result(entries[k]);
          Note(entries[k]);
        }
      }
      if stop.None? {
        log := log + [Walk(entries, n, false)];
        return GoesOn;
      }
      ghost var tears := StopTears(Contents(), entries, guarded, stop);
      if stop.value.torn && n < |entries| && (!guarded || entries[n].key.None? || entries[n].key.value !in outcomes) { Result(entries[n]); }
      log := log + [Walk(entries, n, tears)];
      end := EndOf(stop.value.fault);
    }

    method RunBatch(group: seq<Step>, batch: Batch) returns (end: End)
      modifies this
      ensures Ran(Contents(), end) == BatchRun(old(Contents()), group, batch)
    {
      if batch.NoDirectory? { return EndOf(batch.fault); }
      var cases := FinishAll(group, batch.actual, batch.fileErrors);
      end := Record(CaseEntries(group, cases) + BatchRemarks(cases, batch), false, batch.stop);
      if end == Raises { end := Record(StepEntries(group, InfrastructureError, InfrastructureError), true, batch.refill); }
    }

    method RunBatches(steps: seq<Step>, batches: seq<Batch>) returns (end: End)
      modifies this
      ensures Ran(Contents(), end) == BatchesRun(old(Contents()), steps, batches, |batches|)
    {
      end := GoesOn;
      for n := 0 to |batches|
        invariant Ran(Contents(), end) == BatchesRun(old(Contents()), steps, batches, n)
      {
        var group := Group(steps, n);
        if end == GoesOn && |group| != 0 { end := RunBatch(group, batches[n]); }
      }
    }

    /** One environment, from its directory to its cleanup. */
    method RunEnvironment(steps: seq<Step>, memory: bool, c: Course) returns (end: End)
      modifies this
      ensures Ran(Contents(), end) == Environment(old(Contents()), steps, memory, c)
    {
      if c.begins != GoesOn { return c.begins; }
      var left := steps;
      end := GoesOn;
      if memory { end := Record(StepEntries(Postgres(steps, true), NotRun, NotRun), false, c.aside); }
      if end == GoesOn {
        left := Kept(steps, memory);
        if c.setup.Some? { end := EndOf(c.setup.value); } else { end := RunBatches(left, c.batches); }
      }
      var cancelled := end == Interrupts && c.handler.None?;
      if end == Raises {
        end := Record([Remark(InfrastructureError)], false, c.handler);
      } else if end == Interrupts && c.handler.Some? {
        end := EndOf(c.handler.value.fault);
      }
      var pending := end;
      end := Record(StepEntries(left, if cancelled then Cancelled else Blocked, Blocked), true, c.fill);
      if end != GoesOn { return; }
      end := pending;
      if c.cleanup.CleanupInterrupted? { return Interrupts; }
      if c.cleanup.CleanupFails? {
        var failed := Record([Remark(InfrastructureError)], false, c.cleanup.stop);
        if failed != GoesOn { end := failed; }
      }
    }

    method RunPlan(plan: seq<seq<Step>>, memory: bool, courses: seq<Course>) returns (end: End)
      requires |plan| == |courses| && Contents() == EMPTY
      modifies this
      ensures Ran(Contents(), end) == Execute(plan, memory, courses, |plan|)
    {
      end := GoesOn;
      for n := 0 to |plan|
        invariant Ran(Contents(), end) == Execute(plan, memory, courses, n)
      {
        if end == GoesOn { end := RunNext(plan, memory, courses, n); }
      }
    }

    method RunNext(plan: seq<seq<Step>>, memory: bool, courses: seq<Course>, n: nat) returns (end: End)
      requires n < |plan| == |courses| && Ran(Contents(), GoesOn) == Execute(plan, memory, courses, n)
      modifies this
      ensures Ran(Contents(), end) == Execute(plan, memory, courses, n + 1)
    {
      ghost var before := Ran(Contents(), GoesOn);
      end := RunEnvironment(plan[n], memory, courses[n]);
      ExecuteNext(plan, memory, courses, n, before, Ran(Contents(), end));
    }

    /** `cancel_remaining`: the steps that had no row, in order, up to where it is stopped; and the row of the
        invocation itself. */
    method Cancel(steps: seq<Step>, stop: Option<Stop>) returns (end: End)
      modifies this
      ensures Ran(Contents(), end) == Loop(old(Contents()), CancelEntries(steps, KeysIn(old(results))) + [Remark(Cancelled)], false, stop)
    {
      var recorded := KeysIn(results);
      var entries: seq<Entry> := [];
      for n := 0 to |steps|
        invariant entries == CancelEntries(steps[..n], recorded)
      {
        assert steps[..n + 1][..n] == steps[..n];
        if steps[n].key !in recorded { entries := entries + [Entry(Some(steps[n].key), Cancelled, None)]; }
      }
      assert steps[..|steps|] == steps;
      end := Record(entries + [Remark(Cancelled)], false, stop);
    }

    /** `mutate`, from the plan to its last cleanup. */
    method Invoke(plan: seq<seq<Step>>, memory: bool, courses: seq<Course>, ending: Ending) returns (finished: bool)
      requires |plan| == |courses| && Contents() == EMPTY
      modifies this
      ensures Outcome(results, finished) == Invocation(plan, memory, courses, ending)
    {
      var end := RunPlan(plan, memory, courses);
      if end == Interrupts {
        end := Cancel(AllSteps(plan), ending.handler);
      } else if end == Raises {
        end := Record([Remark(InfrastructureError)], false, ending.handler);
      }
      var cleaned := GoesOn;
      if ending.cleanupFails { cleaned := Record([Remark(InfrastructureError)], false, ending.cleanup); }
      finished := end == GoesOn && cleaned == GoesOn && ending.summed;
    }
  }

  lemma ExecuteNext(plan: seq<seq<Step>>, memory: bool, courses: seq<Course>, n: nat, before: Ran, after: Ran)
    requires n < |plan| == |courses| && before == Execute(plan, memory, courses, n)
    requires after == if before.end != GoesOn then before else Environment(before.state, plan[n], memory, courses[n])
    ensures after == Execute(plan, memory, courses, n + 1)
  {
  }
}
