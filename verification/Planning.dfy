/** Which tests a run of the harness needs on one platform, in which order and after which others, from
    `scripts/testing/planning.py`: the tests that apply there, and for each serial one of them the earlier
    tests of its group. */
module Planning {
  import opened Sorting
  import opened Wrappers

  /** A serial test runs after every earlier one of its group. */
  datatype Test = Test(id: nat, order: int, serial: Option<nat>, platforms: set<nat>, adapter: nat, postgres: bool)

  datatype Key = Key(platform: nat, number: nat)

  datatype Step = Step(key: Key, test: nat, adapter: nat, postgres: bool, selected: bool, dependsOn: seq<Key>)

  predicate Earlier(t: Test, e: Test, platform: nat) {
    t.serial.Some? && e.serial == t.serial && platform in e.platforms && e.order < t.order
  }

  /** The earlier tests of a test's group on the platform, in the catalog's order. */
  function EarlierIds(tests: seq<Test>, t: Test, platform: nat): seq<nat> {
    if tests == [] then []
    else if Earlier(t, tests[0], platform) then [tests[0].id] + EarlierIds(tests[1..], t, platform)
    else EarlierIds(tests[1..], t, platform)
  }

  lemma {:induction false} EarlierIdsAre(tests: seq<Test>, t: Test, platform: nat, id: nat)
    ensures id in EarlierIds(tests, t, platform) <==> exists e :: e in tests && e.id == id && Earlier(t, e, platform)
  {
    if tests != [] {
      var rest := tests[1..];
      EarlierIdsAre(rest, t, platform, id);
      assert tests == [tests[0]] + rest;
      if exists e :: e in rest && e.id == id && Earlier(t, e, platform) {
        var e :| e in rest && e.id == id && Earlier(t, e, platform);
        assert e in tests;
      }
      if exists e :: e in tests && e.id == id && Earlier(t, e, platform) {
        var e :| e in tests && e.id == id && Earlier(t, e, platform);
        assert e == tests[0] || e in rest;
      }
    }
  }

  ghost predicate UniqueIds(tests: seq<Test>) {
    forall i, j :: 0 <= i < j < |tests| ==> tests[i].id != tests[j].id
  }

  /** `e` is of the same serial group as `s`, comes before it and runs on the platform. */
  predicate GoesBefore(e: Test, s: Test, platform: nat) {
    match (e.serial, s.serial)
    case (Some(a), Some(b)) => a == b && s.order > e.order && platform in e.platforms
    case _ => false
  }

  /** What a platform needs: the tests that apply there, and the earlier ones of their groups. */
  ghost predicate Needs(tests: seq<Test>, applicable: set<nat>, platform: nat, t: Test) {
    t.id in applicable || exists s :: s in tests && s.id in applicable && GoesBefore(t, s, platform)
  }

  /** The needed tests, each with its place in the order. */
  function NeededKeyed(tests: seq<Test>, needed: set<nat>): seq<Keyed<Test>> {
    if tests == [] then []
    else if tests[0].id in needed then [Keyed(-tests[0].order, tests[0])] + NeededKeyed(tests[1..], needed)
    else NeededKeyed(tests[1..], needed)
  }

  function TestsOf(s: seq<Keyed<Test>>): (tests: seq<Test>)
    ensures |tests| == |s| && forall k :: 0 <= k < |s| ==> tests[k] == s[k].item
  {
    if s == [] then [] else [s[0].item] + TestsOf(s[1..])
  }

  lemma {:induction false} NeededKeyedAre(tests: seq<Test>, needed: set<nat>)
    ensures forall x :: x in NeededKeyed(tests, needed) <==> x.item in tests && x.item.id in needed && x.key == -x.item.order
  {
    if tests != [] {
      NeededKeyedAre(tests[1..], needed);
      assert tests == [tests[0]] + tests[1..];
    }
  }

  lemma {:induction false} NeededOnce(tests: seq<Test>, needed: set<nat>, x: Keyed<Test>)
    requires UniqueIds(tests)
    ensures multiset(NeededKeyed(tests, needed))[x] <= 1
  {
    if tests != [] {
      var rest := tests[1..];
      NeededOnce(rest, needed, x);
      NeededKeyedAre(rest, needed);
      assert forall t :: t in rest ==> t.id != tests[0].id;
      var head := Keyed(-tests[0].order, tests[0]);
      assert head !in NeededKeyed(rest, needed);
    }
  }

  /** `sorted(needed, key=order)`. */
  function InOrder(tests: seq<Test>, needed: set<nat>): seq<Test> {
    TestsOf(Sort(NeededKeyed(tests, needed)))
  }

  lemma Twice<T>(s: seq<T>, i: nat, j: nat)
    requires i < j < |s| && s[i] == s[j]
    ensures multiset(s)[s[i]] >= 2
  {
    assert s == s[..i] + [s[i]] + s[i + 1..j] + [s[j]] + s[j + 1..];
  }

  /** The needed tests, each once, none after one of a later order. */
  ghost predicate Ordered(tests: seq<Test>, needed: set<nat>, sorted: seq<Test>) {
    && (forall t :: t in sorted <==> t in tests && t.id in needed)
    && UniqueIds(sorted)
    && forall i, j :: 0 <= i < j < |sorted| ==> sorted[i].order <= sorted[j].order
  }

  lemma SortedKeyed(tests: seq<Test>, needed: set<nat>, k: nat)
    requires k < |Sort(NeededKeyed(tests, needed))|
    ensures var x := Sort(NeededKeyed(tests, needed))[k]; x.key == -x.item.order && x.item in tests && x.item.id in needed
  {
    var s := Sort(NeededKeyed(tests, needed));
    SortOrders(NeededKeyed(tests, needed));
    NeededKeyedAre(tests, needed);
    assert s[k] in s;
  }

  lemma InOrderHas(tests: seq<Test>, needed: set<nat>, t: Test)
    ensures t in InOrder(tests, needed) <==> t in tests && t.id in needed
  {
    var s, sorted := Sort(NeededKeyed(tests, needed)), InOrder(tests, needed);
    SortOrders(NeededKeyed(tests, needed));
    NeededKeyedAre(tests, needed);
    if t in tests && t.id in needed {
      var k :| 0 <= k < |s| && s[k] == Keyed(-t.order, t);
      assert sorted[k] == t;
    }
    if t in sorted {
      var k :| 0 <= k < |sorted| && sorted[k] == t;
      SortedKeyed(tests, needed, k);
    }
  }

  lemma InOrderOnce(tests: seq<Test>, needed: set<nat>, i: nat, j: nat)
    requires UniqueIds(tests) && i < j < |InOrder(tests, needed)|
    ensures InOrder(tests, needed)[i].id != InOrder(tests, needed)[j].id
  {
    var s, sorted := Sort(NeededKeyed(tests, needed)), InOrder(tests, needed);
    SortedKeyed(tests, needed, i);
    SortedKeyed(tests, needed, j);
    if sorted[i].id == sorted[j].id {
      SameTest(tests, sorted[i], sorted[j]);
      Twice(s, i, j);
      NeededOnce(tests, needed, s[i]);
      SortOrders(NeededKeyed(tests, needed));
    }
  }

  lemma InOrderIs(tests: seq<Test>, needed: set<nat>)
    requires UniqueIds(tests)
    ensures Ordered(tests, needed, InOrder(tests, needed))
  {
    var sorted := InOrder(tests, needed);
    forall t ensures t in sorted <==> t in tests && t.id in needed { InOrderHas(tests, needed, t); }
    forall i, j | 0 <= i < j < |sorted| ensures sorted[i].id != sorted[j].id { InOrderOnce(tests, needed, i, j); }
    forall i, j | 0 <= i < j < |sorted| ensures sorted[i].order <= sorted[j].order {
      SortedKeyed(tests, needed, i);
      SortedKeyed(tests, needed, j);
      SortOrders(NeededKeyed(tests, needed));
    }
  }

  lemma SameTest(tests: seq<Test>, t: Test, u: Test)
    requires UniqueIds(tests) && t in tests && u in tests && t.id == u.id
    ensures t == u
  {
    var i :| 0 <= i < |tests| && tests[i] == t;
    var j :| 0 <= j < |tests| && tests[j] == u;
    assert i == j;
  }

  function KeysOf(keys: map<nat, Key>, ids: seq<nat>): seq<Key>
    requires forall k :: 0 <= k < |ids| ==> ids[k] in keys
  {
    if ids == [] then [] else [keys[ids[0]]] + KeysOf(keys, ids[1..])
  }

  lemma {:induction false} KeysOfAre(keys: map<nat, Key>, ids: seq<nat>, d: Key)
    requires forall k :: 0 <= k < |ids| ==> ids[k] in keys
    ensures d in KeysOf(keys, ids) <==> exists k :: 0 <= k < |ids| && keys[ids[k]] == d
  {
    if ids != [] {
      var rest := ids[1..];
      KeysOfAre(keys, rest, d);
      if exists k :: 0 <= k < |rest| && keys[rest[k]] == d {
        var k :| 0 <= k < |rest| && keys[rest[k]] == d;
        assert ids[k + 1] == rest[k];
      }
      if exists k :: 0 <= k < |ids| && keys[ids[k]] == d {
        var k :| 0 <= k < |ids| && keys[ids[k]] == d;
        assert k > 0 ==> rest[k - 1] == ids[k];
      }
    }
  }

  // What a plan for one platform is.

  ghost predicate Numbered(applicable: set<nat>, platform: nat, steps: seq<Step>) {
    forall k :: 0 <= k < |steps| ==> steps[k].key == Key(platform, k + 1) && (steps[k].selected <==> steps[k].test in applicable)
  }

  ghost predicate OneForEach(tests: seq<Test>, applicable: set<nat>, platform: nat, steps: seq<Step>) {
    && (forall t :: t in tests ==> (Needs(tests, applicable, platform, t) <==> exists k :: 0 <= k < |steps| && steps[k].test == t.id))
    && (forall i, j :: 0 <= i < j < |steps| ==> steps[i].test != steps[j].test)
  }

  /** A step goes to its test's runner, and knows whether it needs PostgreSQL. */
  ghost predicate RunsAsSaid(tests: seq<Test>, steps: seq<Step>) {
    forall t, k :: t in tests && 0 <= k < |steps| && steps[k].test == t.id ==> steps[k].adapter == t.adapter && steps[k].postgres == t.postgres
  }

  ghost predicate AfterAll(steps: seq<Step>) {
    forall k, d :: 0 <= k < |steps| && d in steps[k].dependsOn ==> exists j :: 0 <= j < k && steps[j].key == d
  }

  ghost predicate WaitsExactly(tests: seq<Test>, applicable: set<nat>, platform: nat, steps: seq<Step>) {
    forall j, k :: 0 <= j < |steps| && 0 <= k < |steps| ==>
      (steps[j].key in steps[k].dependsOn <==> steps[k].test in applicable && EarlierTest(tests, platform, steps[k].test, steps[j].test))
  }

  ghost predicate EarlierTest(tests: seq<Test>, platform: nat, later: nat, earlier: nat) {
    exists t, e :: t in tests && e in tests && t.id == later && e.id == earlier && GoesBefore(e, t, platform)
  }

  /** One step for each needed test, numbered in order, each after all it depends on: a serial test that was
      selected depends on every earlier test of its group on the platform, and nothing else depends on
      anything. */
  ghost predicate Planned(tests: seq<Test>, applicable: set<nat>, platform: nat, steps: seq<Step>) {
    && Numbered(applicable, platform, steps) && OneForEach(tests, applicable, platform, steps) && RunsAsSaid(tests, steps)
    && AfterAll(steps) && WaitsExactly(tests, applicable, platform, steps)
  }

  /** What the first loop finds out: which tests are needed, and which each selected serial one waits for. */
  ghost predicate Known(tests: seq<Test>, applicable: set<nat>, platform: nat, needed: set<nat>, prerequisites: map<nat, seq<nat>>) {
    && (forall t :: t in tests ==> (t.id in needed <==> Needs(tests, applicable, platform, t)))
    && (forall t :: t in tests ==> Awaited(prerequisites, t.id) == if t.serial.Some? && t.id in applicable then EarlierIds(tests, t, platform) else [])
  }

  function Awaited(prerequisites: map<nat, seq<nat>>, id: nat): seq<nat> {
    if id in prerequisites then prerequisites[id] else []
  }

  method Prerequisites(tests: seq<Test>, applicable: set<nat>, platform: nat) returns (needed: set<nat>, prerequisites: map<nat, seq<nat>>)
    requires UniqueIds(tests)
    ensures Known(tests, applicable, platform, needed, prerequisites)
  {
    needed := applicable;
    prerequisites := map[];
    for k := 0 to |tests|
      invariant forall id :: id in needed <==> id in applicable || exists j :: 0 <= j < k && tests[j].serial.Some? && tests[j].id in applicable && id in EarlierIds(tests, tests[j], platform)
      invariant forall id :: id in prerequisites ==> exists j :: 0 <= j < k && tests[j].id == id
      invariant forall j :: 0 <= j < k ==> Awaited(prerequisites, tests[j].id) == (if tests[j].serial.Some? && tests[j].id in applicable then EarlierIds(tests, tests[j], platform) else [])
    {
      var test := tests[k];
      if test.serial.Some? && test.id in applicable {
        var earlier := EarlierIds(tests, test, platform);
        prerequisites := prerequisites[test.id := earlier];
        needed := needed + set id | id in earlier;
      }
    }
    forall t | t in tests ensures t.id in needed <==> Needs(tests, applicable, platform, t) {
      NeededIs(tests, applicable, platform, t);
    }
    forall t | t in tests ensures Awaited(prerequisites, t.id) == if t.serial.Some? && t.id in applicable then EarlierIds(tests, t, platform) else [] {
      var j :| 0 <= j < |tests| && tests[j] == t;
    }
  }

  lemma NeededIs(tests: seq<Test>, applicable: set<nat>, platform: nat, t: Test)
    requires UniqueIds(tests) && t in tests
    ensures Needs(tests, applicable, platform, t) <==>
      t.id in applicable || exists j :: 0 <= j < |tests| && tests[j].serial.Some? && tests[j].id in applicable && t.id in EarlierIds(tests, tests[j], platform)
  {
    forall j | 0 <= j < |tests| ensures t.id in EarlierIds(tests, tests[j], platform) <==> Earlier(tests[j], t, platform) {
      EarlierIdsAre(tests, tests[j], platform, t.id);
      if t.id in EarlierIds(tests, tests[j], platform) {
        var e :| e in tests && e.id == t.id && Earlier(tests[j], e, platform);
        SameTest(tests, e, t);
      }
    }
  }

  method PlanPlatform(tests: seq<Test>, applicable: set<nat>, platform: nat) returns (steps: seq<Step>)
    requires UniqueIds(tests)
    ensures Planned(tests, applicable, platform, steps)
  {
    var needed, prerequisites := Prerequisites(tests, applicable, platform);
    var sorted := InOrder(tests, needed);
    InOrderIs(tests, needed);
    steps := [];
    var keys: map<nat, Key> := map[];
    for k := 0 to |sorted|
      invariant |steps| == k && KeysTo(keys, platform, sorted, k) && StepsFor(applicable, platform, sorted, steps)
    {
      var test := sorted[k];
      var waits := Awaited(prerequisites, test.id);
      WaitsBehind(tests, applicable, platform, needed, prerequisites, sorted, k);
      KeysNext(keys, platform, sorted, k);
      keys := keys[test.id := Key(platform, k + 1)];
      var step := StepOf(applicable, platform, sorted, k, keys, waits);
      StepsNext(applicable, platform, sorted, steps, step);
      steps := steps + [step];
    }
    AllPlanned(tests, applicable, platform, needed, prerequisites, sorted, steps);
  }

  /** The keys given so far. */
  ghost predicate KeysTo(keys: map<nat, Key>, platform: nat, sorted: seq<Test>, k: nat)
    requires k <= |sorted|
  {
    forall j :: 0 <= j < k ==> sorted[j].id in keys && keys[sorted[j].id] == Key(platform, j + 1)
  }

  lemma KeysNext(keys: map<nat, Key>, platform: nat, sorted: seq<Test>, k: nat)
    requires k < |sorted| && UniqueIds(sorted) && KeysTo(keys, platform, sorted, k)
    ensures KeysTo(keys[sorted[k].id := Key(platform, k + 1)], platform, sorted, k + 1)
    ensures KeysTo(keys[sorted[k].id := Key(platform, k + 1)], platform, sorted, k)
  {
  }

  /** Step `j` comes before step `k` and is of an earlier test of its group. */
  predicate Behind(platform: nat, sorted: seq<Test>, j: int, k: nat)
    requires k < |sorted|
  {
    0 <= j < k && Earlier(sorted[k], sorted[j], platform)
  }

  /** What step `k` holds, given the tests in order. */
  ghost predicate StepFor(applicable: set<nat>, platform: nat, sorted: seq<Test>, k: nat, step: Step)
    requires k < |sorted|
  {
    && step.key == Key(platform, k + 1) && step.test == sorted[k].id && (step.selected <==> sorted[k].id in applicable)
    && step.adapter == sorted[k].adapter && step.postgres == sorted[k].postgres
    && forall d :: d in step.dependsOn <==> sorted[k].id in applicable && exists j :: Behind(platform, sorted, j, k) && d == Key(platform, j + 1)
  }

  ghost predicate StepsFor(applicable: set<nat>, platform: nat, sorted: seq<Test>, steps: seq<Step>) {
    |steps| <= |sorted| && forall j :: 0 <= j < |steps| ==> StepFor(applicable, platform, sorted, j, steps[j])
  }

  lemma StepsNext(applicable: set<nat>, platform: nat, sorted: seq<Test>, steps: seq<Step>, step: Step)
    requires StepsFor(applicable, platform, sorted, steps) && |steps| < |sorted| && StepFor(applicable, platform, sorted, |steps|, step)
    ensures StepsFor(applicable, platform, sorted, steps + [step])
  {
  }

  /** The tests a test waits for, by where they come in the order: all of them before it. */
  ghost predicate WaitsFor(applicable: set<nat>, platform: nat, sorted: seq<Test>, k: nat, ids: seq<nat>)
    requires k < |sorted|
  {
    forall id :: id in ids <==> sorted[k].id in applicable && exists j :: Behind(platform, sorted, j, k) && sorted[j].id == id
  }

  method StepOf(applicable: set<nat>, platform: nat, sorted: seq<Test>, k: nat, keys: map<nat, Key>, waits: seq<nat>) returns (step: Step)
    requires k < |sorted| && KeysTo(keys, platform, sorted, k) && WaitsFor(applicable, platform, sorted, k, waits)
    ensures StepFor(applicable, platform, sorted, k, step)
  {
    var test := sorted[k];
    KeysInMap(applicable, platform, sorted, k, keys, waits);
    DependsOnThem(applicable, platform, sorted, k, keys, waits);
    step := Step(Key(platform, k + 1), test.id, test.adapter, test.postgres, test.id in applicable, KeysOf(keys, waits));
  }

  lemma WaitsBehind(tests: seq<Test>, applicable: set<nat>, platform: nat, needed: set<nat>, prerequisites: map<nat, seq<nat>>, sorted: seq<Test>, k: nat)
    requires UniqueIds(tests) && Ordered(tests, needed, sorted) && k < |sorted| && Known(tests, applicable, platform, needed, prerequisites)
    ensures WaitsFor(applicable, platform, sorted, k, Awaited(prerequisites, sorted[k].id))
  {
    var t := sorted[k];
    assert t in sorted;
    forall id ensures id in Awaited(prerequisites, t.id) <==> t.id in applicable && exists j :: Behind(platform, sorted, j, k) && sorted[j].id == id {
      EarlierIdsAre(tests, t, platform, id);
      if id in Awaited(prerequisites, t.id) {
        var e :| e in tests && e.id == id && Earlier(t, e, platform);
        EarlierIsBehind(tests, applicable, platform, needed, sorted, k, e);
      }
      if j :| Behind(platform, sorted, j, k) && sorted[j].id == id { assert sorted[j] in sorted; }
    }
  }

  /** All a selected test waits for is needed, so it comes before it. */
  lemma EarlierIsBehind(tests: seq<Test>, applicable: set<nat>, platform: nat, needed: set<nat>, sorted: seq<Test>, k: nat, e: Test)
    requires Ordered(tests, needed, sorted) && k < |sorted| && sorted[k] in tests && sorted[k].id in applicable
    requires forall t :: t in tests ==> (t.id in needed <==> Needs(tests, applicable, platform, t))
    requires e in tests && Earlier(sorted[k], e, platform)
    ensures exists j :: Behind(platform, sorted, j, k) && sorted[j].id == e.id
  {
    assert Needs(tests, applicable, platform, e);
    assert e in sorted;
    var j :| 0 <= j < |sorted| && sorted[j] == e;
    assert Behind(platform, sorted, j, k);
  }

  lemma KeysInMap(applicable: set<nat>, platform: nat, sorted: seq<Test>, k: nat, keys: map<nat, Key>, ids: seq<nat>)
    requires k < |sorted| && KeysTo(keys, platform, sorted, k) && WaitsFor(applicable, platform, sorted, k, ids)
    ensures forall i :: 0 <= i < |ids| ==> ids[i] in keys
  {
    forall i | 0 <= i < |ids| ensures ids[i] in keys {
      assert ids[i] in ids;
      var j :| Behind(platform, sorted, j, k) && sorted[j].id == ids[i];
    }
  }

  lemma DependsOnThem(applicable: set<nat>, platform: nat, sorted: seq<Test>, k: nat, keys: map<nat, Key>, ids: seq<nat>)
    requires k < |sorted| && KeysTo(keys, platform, sorted, k) && WaitsFor(applicable, platform, sorted, k, ids)
    requires forall i :: 0 <= i < |ids| ==> ids[i] in keys
    ensures forall d :: d in KeysOf(keys, ids) <==> sorted[k].id in applicable && exists j :: Behind(platform, sorted, j, k) && d == Key(platform, j + 1)
  {
    forall d ensures d in KeysOf(keys, ids) <==> sorted[k].id in applicable && exists j :: Behind(platform, sorted, j, k) && d == Key(platform, j + 1) {
      KeysOfAre(keys, ids, d);
      if d in KeysOf(keys, ids) {
        var i :| 0 <= i < |ids| && keys[ids[i]] == d;
        assert ids[i] in ids;
        var j :| Behind(platform, sorted, j, k) && sorted[j].id == ids[i];
      }
      if sorted[k].id in applicable {
        if j :| Behind(platform, sorted, j, k) && d == Key(platform, j + 1) {
          assert sorted[j].id in ids;
          var i :| 0 <= i < |ids| && ids[i] == sorted[j].id;
          assert keys[ids[i]] == d;
        }
      }
    }
  }

  lemma AllPlanned(tests: seq<Test>, applicable: set<nat>, platform: nat, needed: set<nat>, prerequisites: map<nat, seq<nat>>,
                   sorted: seq<Test>, steps: seq<Step>)
    requires UniqueIds(tests) && Ordered(tests, needed, sorted) && |steps| == |sorted| && Known(tests, applicable, platform, needed, prerequisites)
    requires StepsFor(applicable, platform, sorted, steps)
    ensures Planned(tests, applicable, platform, steps)
  {
    forall k | 0 <= k < |steps| ensures steps[k].key == Key(platform, k + 1) && steps[k].test == sorted[k].id && (steps[k].selected <==> steps[k].test in applicable) {
      assert StepFor(applicable, platform, sorted, k, steps[k]);
    }
    AllForEach(tests, applicable, platform, needed, sorted, steps);
    forall t, k | t in tests && 0 <= k < |steps| && steps[k].test == t.id ensures steps[k].adapter == t.adapter && steps[k].postgres == t.postgres {
      assert StepFor(applicable, platform, sorted, k, steps[k]) && sorted[k] in sorted;
      SameTest(tests, sorted[k], t);
    }
    forall k, d | 0 <= k < |steps| && d in steps[k].dependsOn ensures exists j :: 0 <= j < k && steps[j].key == d {
      assert StepFor(applicable, platform, sorted, k, steps[k]);
      var j :| Behind(platform, sorted, j, k) && d == Key(platform, j + 1);
      assert steps[j].key == d;
    }
    forall j, k | 0 <= j < |steps| && 0 <= k < |steps|
      ensures steps[j].key in steps[k].dependsOn <==> steps[k].test in applicable && EarlierTest(tests, platform, steps[k].test, steps[j].test)
    {
      DependsIs(tests, applicable, platform, needed, sorted, j, k, steps[j], steps[k]);
    }
  }

  lemma AllForEach(tests: seq<Test>, applicable: set<nat>, platform: nat, needed: set<nat>, sorted: seq<Test>, steps: seq<Step>)
    requires UniqueIds(tests) && Ordered(tests, needed, sorted) && |steps| == |sorted|
    requires forall t :: t in tests ==> (t.id in needed <==> Needs(tests, applicable, platform, t))
    requires forall k :: 0 <= k < |steps| ==> steps[k].test == sorted[k].id
    ensures OneForEach(tests, applicable, platform, steps)
  {
    forall t | t in tests ensures Needs(tests, applicable, platform, t) <==> exists k :: 0 <= k < |steps| && steps[k].test == t.id {
      if Needs(tests, applicable, platform, t) {
        assert t in sorted;
        var k :| 0 <= k < |sorted| && sorted[k] == t;
        assert steps[k].test == t.id;
      }
      if k :| 0 <= k < |steps| && steps[k].test == t.id {
        assert sorted[k] in sorted;
        SameTest(tests, sorted[k], t);
      }
    }
  }

  lemma DependsIs(tests: seq<Test>, applicable: set<nat>, platform: nat, needed: set<nat>, sorted: seq<Test>, j: nat, k: nat, before: Step, step: Step)
    requires UniqueIds(tests) && j < |sorted| && k < |sorted| && Ordered(tests, needed, sorted)
    requires StepFor(applicable, platform, sorted, j, before) && StepFor(applicable, platform, sorted, k, step)
    ensures before.key in step.dependsOn <==> step.test in applicable && EarlierTest(tests, platform, step.test, before.test)
  {
    assert sorted[j] in sorted && sorted[k] in sorted;
    if step.test in applicable && EarlierTest(tests, platform, step.test, before.test) {
      var t, e :| t in tests && e in tests && t.id == step.test && e.id == before.test && Earlier(t, e, platform);
      SameTest(tests, t, sorted[k]);
      SameTest(tests, e, sorted[j]);
      assert Behind(platform, sorted, j, k);
    }
    if before.key in step.dependsOn {
      var i :| Behind(platform, sorted, i, k) && before.key == Key(platform, i + 1);
      assert i == j;
    }
  }
}
