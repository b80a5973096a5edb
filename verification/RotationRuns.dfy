/** Every run of the refresh calls, interleaved freely with each other and with what administrators do. */
module RotationRuns {
  // Sign-ins, revocations and demotions come between their lookups and updates. Proved: how often a token is
  // honoured, who wins a rotation, and what ends a sign-in.
  import opened Wrappers
  import opened Rotation

  /** One rotation: the token presented, the current token it replaced, the one it issued, and how many
      rotations there had been when its call looked the row up. */
  datatype Honour = Honour(row: nat, presented: Token, replaced: Token, grace: bool, now: int, next: Token, looked: nat)

  /** `owners[t]` is the row token `t` was issued for, and `looks[id]` how many rotations there had been
      when call `id` last looked for its row. */
  datatype World = World(rows: seq<Row>, calls: map<nat, Call>, owners: seq<nat>, honours: seq<Honour>, looks: map<nat, nat>)

  datatype Action =
    | SignIn(entry: Row, bearer: bool)
    | Administer(row: nat, revoke: bool, device: Option<Device>, mayPair: bool)
    | CallStarts(id: nat, token: Token, now: int, tunnelled: bool)
    | Looks(id: nat)
    | LooksBack(id: nat)
    | Finishes(id: nat)

  const START := World([], map[], [], [], map[])

  predicate Enabled(w: World, a: Action) {
    match a
    case SignIn(_, _) => true
    case Administer(i, _, _, _) => i < |w.rows|
    case CallStarts(id, _, _, _) => id !in w.calls
    case Looks(id) => id in w.calls && w.calls[id].phase.Looking?
    case LooksBack(id) => id in w.calls && w.calls[id].phase.Missed?
    case Finishes(id) => id in w.calls && (w.calls[id].phase.Rotating? || w.calls[id].phase.Ending?)
  }

  function NewRow(entry: Row, current: Option<Token>): Row {
    entry.(current := current, previous := None, previousUntil := None)
  }

  function Moved(w: World, id: nat, phase: Phase): World
    requires id in w.calls
  {
    w.(calls := w.calls[id := w.calls[id].(phase := phase)])
  }

  function Noted(w: World, id: nat): World {
    w.(looks := w.looks[id := |w.honours|])
  }

  /** The guarded update of a call that rotates or ends a sign-in. */
  function Settled(w: World, id: nat): World
    requires id in w.calls
  {
    var call := w.calls[id];
    var next := |w.owners|;
    var after := Moved(w, id, Finished(w.rows, call, next)).(rows := Updated(w.rows, call, next));
    if Swaps(w.rows, call) then
      after.(owners := w.owners + [call.phase.row],
             honours := w.honours + [Honour(call.phase.row, call.token, call.phase.expected, call.phase.grace, call.now, next,
                                            if id in w.looks then w.looks[id] else 0)])
    else after
  }

  function Apply(w: World, a: Action): World
    requires Enabled(w, a)
  {
    match a
    case SignIn(entry, true) => w.(rows := w.rows + [NewRow(entry, Some(|w.owners|))], owners := w.owners + [|w.rows|])
    case SignIn(entry, false) => w.(rows := w.rows + [NewRow(entry, None)])
    case Administer(i, revoke, device, mayPair) =>
      w.(rows := w.rows[i := w.rows[i].(revoked := w.rows[i].revoked || revoke, device := device, mayPair := mayPair)])
    case CallStarts(id, token, now, tunnelled) => w.(calls := w.calls[id := Call(token, now, tunnelled, Looking)])
    case Looks(id) => Noted(Moved(w, id, Look(w.rows, w.calls[id])), id)
    case LooksBack(id) => Noted(Moved(w, id, LookBack(w.rows, w.calls[id])), id)
    case Finishes(id) => Settled(w, id)
  }

  function Step(w: World, a: Action): World {
    if Enabled(w, a) then Apply(w, a) else w
  }

  function Run(acts: seq<Action>): World {
    if acts == [] then START else Step(Run(acts[..|acts| - 1]), acts[|acts| - 1])
  }

  // The invariant.

  predicate Owns(w: World, token: Token, row: int) {
    token < |w.owners| && w.owners[token] == row
  }

  ghost predicate RowHolds(w: World, i: int)
    requires 0 <= i < |w.rows|
  {
    var row := w.rows[i];
    && (row.current.Some? ==> Owns(w, row.current.value, i))
    && (row.previous.Some? ==>
          && Owns(w, row.previous.value, i) && row.current.Some? && row.current != row.previous && row.previousUntil.Some?
          && (exists k :: 0 <= k < |w.honours| && w.honours[k].presented == row.previous.value && !w.honours[k].grace)
          && (exists k :: 0 <= k < |w.honours| && w.honours[k].presented == row.previous.value && Window(w.honours[k]) == row.previousUntil.value))
  }

  ghost predicate RowsHold(w: World) {
    && (forall t :: 0 <= t < |w.owners| ==> w.owners[t] < |w.rows|)
    && (forall i :: 0 <= i < |w.rows| ==> RowHolds(w, i))
  }

  /** How long after the rotation `h` its token stays good: a grace retry ends that. */
  function Window(h: Honour): int {
    h.now + if h.grace then 0 else GRACE_MS
  }

  ghost predicate HonourHolds(w: World, h: Honour) {
    && h.row < |w.rows| && Owns(w, h.presented, h.row) && Owns(w, h.replaced, h.row) && Owns(w, h.next, h.row)
    && (h.grace <==> h.presented != h.replaced)
    && w.rows[h.row].current != Some(h.replaced) && w.rows[h.row].current != Some(h.presented)
    && (w.rows[h.row].previous == Some(h.presented) && w.rows[h.row].previousUntil.Some? ==> w.rows[h.row].previousUntil.value <= Window(h))
  }

  ghost predicate HonoursHold(w: World) {
    forall k :: 0 <= k < |w.honours| ==> HonourHolds(w, w.honours[k])
  }

  ghost predicate PairsHold(w: World) {
    forall j, k :: 0 <= j < k < |w.honours| ==>
      && w.honours[j].replaced != w.honours[k].replaced
      && (w.honours[j].row == w.honours[k].row ==> j < w.honours[k].looked)
      && (w.honours[j].presented == w.honours[k].presented ==> w.honours[k].grace && w.honours[k].now < Window(w.honours[j]))
  }

  ghost predicate CallHolds(w: World, call: Call) {
    match call.phase
    case Rotating(i, expected, grace) =>
      && i < |w.rows| && Owns(w, call.token, i) && Owns(w, expected, i) && (grace <==> call.token != expected)
      && (grace && w.rows[i].current == Some(expected) ==>
            w.rows[i].previous == Some(call.token) && w.rows[i].previousUntil.Some? && call.now < w.rows[i].previousUntil.value)
    case Ending(i) => i < |w.rows| && Owns(w, call.token, i)
    case Done(Err(RefreshReused)) => call.token < |w.owners| && w.owners[call.token] < |w.rows| && w.rows[w.owners[call.token]].revoked
    case _ => true
  }

  ghost predicate CallsHold(w: World) {
    forall id :: id in w.calls ==> CallHolds(w, w.calls[id])
  }

  /** A call that would still win its row has looked it up since the row was last rotated. */
  ghost predicate LookHolds(w: World, id: nat)
    requires id in w.calls && w.calls[id].phase.Rotating?
  {
    && id in w.looks && w.looks[id] <= |w.honours|
    && (Swaps(w.rows, w.calls[id]) ==> forall k :: w.looks[id] <= k < |w.honours| ==> w.honours[k].row != w.calls[id].phase.row)
  }

  ghost predicate LooksHold(w: World) {
    forall id :: id in w.calls && w.calls[id].phase.Rotating? ==> LookHolds(w, id)
  }

  ghost predicate Inv(w: World) {
    RowsHold(w) && HonoursHold(w) && PairsHold(w) && CallsHold(w) && LooksHold(w)
  }

  predicate Starts(a: Action) { a.SignIn? || a.Administer? || a.CallStarts? }

  lemma RowsHold_Starts(w: World, a: Action)
    requires RowsHold(w) && Starts(a) && Enabled(w, a)
    ensures RowsHold(Apply(w, a))
  {
    var n := Apply(w, a);
    forall i | 0 <= i < |n.rows| ensures RowHolds(n, i) {
      if i < |w.rows| { assert RowHolds(w, i); }
    }
  }

  lemma HonoursHold_Starts(w: World, a: Action)
    requires HonoursHold(w) && Starts(a) && Enabled(w, a)
    ensures HonoursHold(Apply(w, a))
  {
    var n := Apply(w, a);
    forall k | 0 <= k < |n.honours| ensures HonourHolds(n, n.honours[k]) { assert HonourHolds(w, w.honours[k]); }
  }

  lemma CallsHold_Starts(w: World, a: Action)
    requires CallsHold(w) && Starts(a) && Enabled(w, a)
    ensures CallsHold(Apply(w, a))
  {
    var n := Apply(w, a);
    forall id | id in n.calls ensures CallHolds(n, n.calls[id]) {
      if id in w.calls { assert CallHolds(w, w.calls[id]); }
    }
  }

  lemma LooksHold_Starts(w: World, a: Action)
    requires LooksHold(w) && CallsHold(w) && Starts(a) && Enabled(w, a)
    ensures LooksHold(Apply(w, a))
  {
    var n := Apply(w, a);
    forall id | id in n.calls && n.calls[id].phase.Rotating? ensures LookHolds(n, id) {
      assert CallHolds(w, w.calls[id]) && LookHolds(w, id);
    }
  }

  lemma LookFinds(w: World, call: Call)
    requires RowsHold(w)
    ensures CallHolds(w, call.(phase := Look(w.rows, call)))
  {
    var found := FindCurrent(w.rows, call.token);
    if found.Some? { assert RowHolds(w, found.value); }
  }

  lemma LookBackFinds(w: World, call: Call)
    requires RowsHold(w)
    ensures CallHolds(w, call.(phase := LookBack(w.rows, call)))
  {
    var back := FindPrevious(w.rows, call.token);
    if back.Some? { assert RowHolds(w, back.value); }
  }

  lemma CallsHold_Looks(w: World, id: nat)
    requires CallsHold(w) && RowsHold(w) && (Enabled(w, Looks(id)) || Enabled(w, LooksBack(id)))
    ensures CallsHold(Apply(w, if w.calls[id].phase.Looking? then Looks(id) else LooksBack(id)))
  {
    var n := Apply(w, if w.calls[id].phase.Looking? then Looks(id) else LooksBack(id));
    if w.calls[id].phase.Looking? { LookFinds(w, w.calls[id]); } else { LookBackFinds(w, w.calls[id]); }
    forall x | x in n.calls ensures CallHolds(n, n.calls[x]) {
      if x != id { assert CallHolds(w, w.calls[x]) && n.calls[x] == w.calls[x]; }
    }
  }

  lemma LooksHold_Looks(w: World, id: nat)
    requires LooksHold(w) && (Enabled(w, Looks(id)) || Enabled(w, LooksBack(id)))
    ensures LooksHold(Apply(w, if w.calls[id].phase.Looking? then Looks(id) else LooksBack(id)))
  {
    var n := Apply(w, if w.calls[id].phase.Looking? then Looks(id) else LooksBack(id));
    forall x | x in n.calls && n.calls[x].phase.Rotating? ensures LookHolds(n, x) {
      if x != id { assert LookHolds(w, x); }
    }
  }

  lemma RowsHold_Finishes(w: World, id: nat)
    requires RowsHold(w) && CallsHold(w) && Enabled(w, Finishes(id))
    ensures RowsHold(Settled(w, id))
  {
    var n := Settled(w, id);
    assert CallHolds(w, w.calls[id]);
    forall i | 0 <= i < |n.rows| ensures RowHolds(n, i) {
      assert RowHolds(w, i);
      if Swaps(w.rows, w.calls[id]) {
        var last := |w.honours|;
        assert n.honours[last].presented == w.calls[id].token;
        if w.rows[i].previous.Some? {
          var k :| 0 <= k < |w.honours| && w.honours[k].presented == w.rows[i].previous.value && !w.honours[k].grace;
          var m :| 0 <= m < |w.honours| && w.honours[m].presented == w.rows[i].previous.value && Window(w.honours[m]) == w.rows[i].previousUntil.value;
          assert n.honours[k] == w.honours[k] && n.honours[m] == w.honours[m];
        }
      }
    }
  }

  lemma HonoursHold_Finishes(w: World, id: nat)
    requires RowsHold(w) && HonoursHold(w) && CallsHold(w) && Enabled(w, Finishes(id))
    ensures HonoursHold(Settled(w, id))
  {
    var n := Settled(w, id);
    assert CallHolds(w, w.calls[id]);
    forall k | 0 <= k < |n.honours| ensures HonourHolds(n, n.honours[k]) {
      if k < |w.honours| { assert HonourHolds(w, w.honours[k]); }
    }
  }

  lemma PairsHold_Finishes(w: World, id: nat)
    requires PairsHold(w) && HonoursHold(w) && CallsHold(w) && LooksHold(w) && Enabled(w, Finishes(id))
    ensures PairsHold(Settled(w, id))
  {
    var n := Settled(w, id);
    assert CallHolds(w, w.calls[id]) && (w.calls[id].phase.Rotating? ==> LookHolds(w, id));
    forall j, k | 0 <= j < k < |n.honours| ensures n.honours[j].replaced != n.honours[k].replaced
      && (n.honours[j].row == n.honours[k].row ==> j < n.honours[k].looked)
      && (n.honours[j].presented == n.honours[k].presented ==> n.honours[k].grace && n.honours[k].now < Window(n.honours[j]))
    {
      if k == |w.honours| { assert HonourHolds(w, w.honours[j]); }
    }
  }

  lemma CallsHold_Finishes(w: World, id: nat)
    requires RowsHold(w) && CallsHold(w) && Enabled(w, Finishes(id))
    ensures CallsHold(Settled(w, id))
  {
    var n := Settled(w, id);
    assert CallHolds(w, w.calls[id]);
    forall x | x in n.calls ensures CallHolds(n, n.calls[x]) {
      if x != id {
        assert n.calls[x] == w.calls[x] && CallHolds(w, w.calls[x]);
      }
    }
  }

  lemma LooksHold_Finishes(w: World, id: nat)
    requires LooksHold(w) && CallsHold(w) && Enabled(w, Finishes(id))
    ensures LooksHold(Settled(w, id))
  {
    var n := Settled(w, id);
    forall x | x in n.calls && n.calls[x].phase.Rotating? ensures LookHolds(n, x) {
      assert x != id && CallHolds(w, w.calls[x]) && LookHolds(w, x);
    }
  }

  lemma StepHolds(w: World, a: Action)
    requires Inv(w)
    ensures Inv(Step(w, a))
  {
    if !Enabled(w, a) {
    } else if Starts(a) {
      RowsHold_Starts(w, a); HonoursHold_Starts(w, a); CallsHold_Starts(w, a); LooksHold_Starts(w, a);
    } else if a.Finishes? {
      RowsHold_Finishes(w, a.id); HonoursHold_Finishes(w, a.id); PairsHold_Finishes(w, a.id);
      CallsHold_Finishes(w, a.id); LooksHold_Finishes(w, a.id);
    } else {
      CallsHold_Looks(w, a.id); LooksHold_Looks(w, a.id);
      LooksKeep(w, a);
    }
  }

  /** A lookup changes no row and honours nothing. */
  lemma LooksKeep(w: World, a: Action)
    requires RowsHold(w) && HonoursHold(w) && PairsHold(w) && (a.Looks? || a.LooksBack?) && Enabled(w, a)
    ensures RowsHold(Apply(w, a)) && HonoursHold(Apply(w, a)) && PairsHold(Apply(w, a))
  {
    var n := Apply(w, a);
    forall i | 0 <= i < |n.rows| ensures RowHolds(n, i) { assert RowHolds(w, i); }
    forall k | 0 <= k < |n.honours| ensures HonourHolds(n, n.honours[k]) { assert HonourHolds(w, w.honours[k]); }
  }

  lemma {:induction false} RunHolds(acts: seq<Action>)
    ensures Inv(Run(acts))
  {
    if acts != [] {
      RunHolds(acts[..|acts| - 1]);
      StepHolds(Run(acts[..|acts| - 1]), acts[|acts| - 1]);
    }
  }

  /** Each current token is rotated away by exactly one call, and a token is honoured as the current
      one at most once: of two rotations for one token the later is a retry inside the earlier's
      window. Retries of one token therefore carry strictly decreasing times. And of two rotations of one
      row the later's call looked the row up after the earlier was made. */
  lemma OneWinner(acts: seq<Action>, j: nat, k: nat)
    requires j < k < |Run(acts).honours|
    ensures
      var h := Run(acts).honours;
      && h[j].replaced != h[k].replaced
      && (h[j].row == h[k].row ==> j < h[k].looked)
      && (h[j].presented == h[k].presented ==> h[k].grace && h[k].now < Window(h[j]))
  {
    RunHolds(acts);
  }

  /** A retry is honoured only inside the ten seconds after its token was rotated away as current. */
  lemma RetryInsideGrace(acts: seq<Action>, k: nat)
    requires k < |Run(acts).honours| && Run(acts).honours[k].grace
    ensures
      var h := Run(acts).honours;
      exists j :: 0 <= j < k && h[j].presented == h[k].presented && !h[j].grace && h[k].now < h[j].now + GRACE_MS
  {
    var j := RetryFollows(acts, k);
    OneWinner(acts, j, k);
  }

  lemma {:induction false} RetryFollows(acts: seq<Action>, k: nat) returns (j: nat)
    requires k < |Run(acts).honours| && Run(acts).honours[k].grace
    ensures j < k && Run(acts).honours[j].presented == Run(acts).honours[k].presented && !Run(acts).honours[j].grace
  {
    var before := acts[..|acts| - 1];
    var w := Run(before);
    if k < |w.honours| {
      j := RetryFollows(before, k);
    } else {
      RunHolds(before);
      var call := w.calls[acts[|acts| - 1].id];
      assert CallHolds(w, call) && RowHolds(w, call.phase.row);
      j :| 0 <= j < |w.honours| && w.honours[j].presented == call.token && !w.honours[j].grace;
    }
  }

  /** A token honoured three times: as the current one, and twice as the one just replaced. */
  ghost predicate HonouredThrice(h: seq<Honour>, token: Token) {
    exists i, j, k :: 0 <= i < j < k < |h| && h[i].presented == token && h[j].presented == token && h[k].presented == token
  }

  /** Retry `k` looked its row up after retry `j` had been honoured, with a clock read earlier than `j`'s. */
  ghost predicate LooksOutOfOrder(h: seq<Honour>, j: int, k: int)
    requires 0 <= j < |h| && 0 <= k < |h|
  {
    h[j].grace && h[k].grace && h[j].presented == h[k].presented && j < h[k].looked && h[k].now < h[j].now
  }

  /** A token is honoured at most twice, as the documentation says, exactly when no retry of it looks after
      an honoured retry with an earlier clock. */
  lemma HonouredAtMostTwice(acts: seq<Action>, token: Token)
    ensures
      var h := Run(acts).honours;
      !HonouredThrice(h, token) <==> forall j, k :: 0 <= j < k < |h| && h[k].presented == token ==> !LooksOutOfOrder(h, j, k)
  {
    RunHolds(acts);
    var h := Run(acts).honours;
    if HonouredThrice(h, token) {
      var i, j, k :| 0 <= i < j < k < |h| && h[i].presented == token && h[j].presented == token && h[k].presented == token;
      assert HonourHolds(Run(acts), h[j]) && HonourHolds(Run(acts), h[k]);
      assert LooksOutOfOrder(h, j, k);
    }
    if j, k :| 0 <= j < k < |h| && h[k].presented == token && LooksOutOfOrder(h, j, k) {
      var i := RetryFollows(acts, j);
      assert HonouredThrice(h, token);
    }
  }

  lemma RunOne(acts: seq<Action>, a: Action)
    ensures Run(acts + [a]) == Step(Run(acts), a)
  {
    assert (acts + [a])[..|acts|] == acts;
  }

  lemma RunTwo(acts: seq<Action>, a: Action, b: Action)
    ensures Run(acts + [a, b]) == Step(Step(Run(acts), a), b)
  {
    RunOne(acts, a);
    RunOne(acts + [a], b);
    assert acts + [a] + [b] == acts + [a, b];
  }

  // Lookups in the order of their clocks.

  /** Action `p` is a second lookup, for a call that presents `token`. */
  predicate LooksBackFor(acts: seq<Action>, p: int, token: Token) {
    0 <= p < |acts| && acts[p].LooksBack? && Enabled(Run(acts[..p]), acts[p]) && Run(acts[..p]).calls[acts[p].id].token == token
  }

  function ClockAt(acts: seq<Action>, p: int, token: Token): int
    requires LooksBackFor(acts, p, token)
  {
    Run(acts[..p]).calls[acts[p].id].now
  }

  /** The second lookups for a token come in the order in which their calls read the clock. */
  ghost predicate InClockOrder(acts: seq<Action>, token: Token) {
    forall p, q :: p < q && LooksBackFor(acts, p, token) && LooksBackFor(acts, q, token) ==> ClockAt(acts, p, token) <= ClockAt(acts, q, token)
  }

  lemma {:induction false} HonoursGrow(acts: seq<Action>, p: nat, q: nat)
    requires p <= q <= |acts|
    ensures |Run(acts[..p]).honours| <= |Run(acts[..q]).honours|
  {
    if p < q {
      HonoursGrow(acts, p, q - 1);
      assert acts[..q][..q - 1] == acts[..q - 1];
    }
  }

  lemma EarlierLook(acts: seq<Action>, p: nat, token: Token)
    requires acts != [] && LooksBackFor(acts[..|acts| - 1], p, token)
    ensures LooksBackFor(acts, p, token) && ClockAt(acts, p, token) == ClockAt(acts[..|acts| - 1], p, token)
    ensures acts[..p] == acts[..|acts| - 1][..p]
  {
    assert acts[..p] == acts[..|acts| - 1][..p];
  }

  /** A call that is rotating as a retry has looked back. */
  lemma {:induction false} CallLookedBack(acts: seq<Action>, id: nat) returns (p: nat)
    requires id in Run(acts).calls && Run(acts).calls[id].phase.Rotating? && Run(acts).calls[id].phase.grace
    ensures
      var w := Run(acts);
      && LooksBackFor(acts, p, w.calls[id].token) && ClockAt(acts, p, w.calls[id].token) == w.calls[id].now
      && id in w.looks && w.looks[id] == |Run(acts[..p]).honours|
  {
    var last := |acts| - 1;
    var before := acts[..last];
    if acts[last] == LooksBack(id) && Enabled(Run(before), acts[last]) {
      p := last;
    } else {
      StillRotating(Run(before), acts[last], id);
      p := CallLookedBack(before, id);
      EarlierLook(acts, p, Run(acts).calls[id].token);
    }
  }

  lemma StillRotating(w: World, a: Action, id: nat)
    requires id in Step(w, a).calls && Step(w, a).calls[id].phase.Rotating? && Step(w, a).calls[id].phase.grace
    requires a != LooksBack(id) || !Enabled(w, a)
    ensures id in w.calls && w.calls[id] == Step(w, a).calls[id]
    ensures id in Step(w, a).looks <==> id in w.looks
    ensures id in w.looks ==> Step(w, a).looks[id] == w.looks[id]
  {
  }

  /** So has every retry that was honoured, when there had been as many rotations as it says. */
  lemma {:induction false} RetryLookedBack(acts: seq<Action>, k: nat) returns (p: nat)
    requires k < |Run(acts).honours| && Run(acts).honours[k].grace
    ensures
      var h := Run(acts).honours[k];
      LooksBackFor(acts, p, h.presented) && ClockAt(acts, p, h.presented) == h.now && |Run(acts[..p]).honours| == h.looked <= k
  {
    var before := acts[..|acts| - 1];
    if k < |Run(before).honours| {
      p := RetryLookedBack(before, k);
    } else {
      p := CallLookedBack(before, acts[|acts| - 1].id);
      HonoursGrow(before, p, |before|);
      assert before[..|before|] == before;
    }
    EarlierLook(acts, p, Run(acts).honours[k].presented);
  }

  /** A token whose second lookups come in the order of their clocks, honoured or not, is honoured at most
      twice: once as the current token and once more as the one just replaced. */
  lemma InOrderAtMostTwice(acts: seq<Action>, token: Token)
    requires InClockOrder(acts, token)
    ensures !HonouredThrice(Run(acts).honours, token)
  {
    var h := Run(acts).honours;
    HonouredAtMostTwice(acts, token);
    forall j, k | 0 <= j < k < |h| && h[k].presented == token ensures !LooksOutOfOrder(h, j, k) {
      if LooksOutOfOrder(h, j, k) {
        var p := RetryLookedBack(acts, j);
        var q := RetryLookedBack(acts, k);
        if q <= p { HonoursGrow(acts, q, p); }
      }
    }
  }

  /** What a row must be for a call to renew it. */
  predicate Renewable(row: Row, now: int, tunnelled: bool) {
    && row.current.Some? && !row.revoked && row.bearer && row.refreshExpires.Some? && now < row.refreshExpires.value
    && row.device.Some? && !row.device.value.revoked && row.mayPair && !(tunnelled && row.device.value.agent)
  }

  lemma RetrySteps(w: World, id: nat, i: nat)
    requires id in w.calls && w.calls[id].phase.Missed? && FindPrevious(w.rows, w.calls[id].token) == Some(i) && w.rows[i].previousUntil.Some?
    ensures
      var call := w.calls[id];
      var n := Step(Step(w, LooksBack(id)), Finishes(id));
      var good := Renewable(w.rows[i], call.now, call.tunnelled) && call.now < w.rows[i].previousUntil.value;
      && id in n.calls
      && (n.calls[id].phase == Done(Ok(|w.owners|)) <==> good)
      && n.honours == if good then w.honours + [Honour(i, call.token, w.rows[i].current.value, true, call.now, |w.owners|, |w.honours|)] else w.honours
  {
    var m := Step(w, LooksBack(id));
    assert m.rows == w.rows && m.honours == w.honours && m.owners == w.owners && m.looks[id] == |w.honours|;
  }

  /** The window of a row's replaced token is the least of those its rotations opened. */
  lemma LeastWindow(w: World, i: nat, now: int)
    requires Inv(w) && i < |w.rows| && w.rows[i].previous.Some?
    ensures w.rows[i].previousUntil.Some?
    ensures now < w.rows[i].previousUntil.value <==>
              forall k :: 0 <= k < |w.honours| && w.honours[k].presented == w.rows[i].previous.value ==> now < Window(w.honours[k])
  {
    assert RowHolds(w, i);
    forall k | 0 <= k < |w.honours| && w.honours[k].presented == w.rows[i].previous.value
      ensures w.rows[i].previousUntil.value <= Window(w.honours[k]) { assert HonourHolds(w, w.honours[k]); }
  }

  /** A retry whose second lookup and update nothing comes between is honoured exactly when its row can be
      renewed and its time is inside the window of every rotation its token has had: the ten seconds
      from the first, and before each retry already honoured. */
  lemma RetryHonouredExactly(acts: seq<Action>, id: nat, i: nat)
    requires var w := Run(acts); id in w.calls && w.calls[id].phase.Missed? && IsPrevious(w.rows, i, w.calls[id].token)
    ensures
      var w := Run(acts);
      var call := w.calls[id];
      var n := Run(acts + [LooksBack(id), Finishes(id)]);
      var good := Renewable(w.rows[i], call.now, call.tunnelled)
                  && forall k :: 0 <= k < |w.honours| && w.honours[k].presented == call.token ==> call.now < Window(w.honours[k]);
      && id in n.calls
      && (n.calls[id].phase == Done(Ok(|w.owners|)) <==> good)
      && n.honours == if good then w.honours + [Honour(i, call.token, w.rows[i].current.value, true, call.now, |w.owners|, |w.honours|)] else w.honours
  {
    RunHolds(acts);
    var w := Run(acts);
    OneOwner(w, i, w.calls[id].token);
    LeastWindow(w, i, w.calls[id].now);
    RetrySteps(w, id, i);
    RunTwo(acts, LooksBack(id), Finishes(id));
  }

  lemma OneOwner(w: World, i: nat, token: Token)
    requires Inv(w) && IsPrevious(w.rows, i, token)
    ensures FindPrevious(w.rows, token) == Some(i)
  {
    var found := FindPrevious(w.rows, token);
    assert RowHolds(w, i) && RowHolds(w, found.value);
  }

  function Phone(expires: int): Row {
    Row(None, None, None, false, true, Some(expires), Some(Device(false, false)), true)
  }

  /** Each call reads the clock before it looks, so of two retries inside the grace the one that read it
      earlier can look later: whatever their times, the replaced token is then honoured twice more. */
  lemma OutOfOrderHonouredThrice(expires: int, first: int, late: int, early: int) returns (acts: seq<Action>)
    requires first < expires && early < late < first + GRACE_MS
    ensures
      var h := Run(acts).honours;
      && |h| == 3 && h[0].presented == h[1].presented == h[2].presented
      && h[0].now == first && h[1].now == late && h[2].now == early
  {
    var phone := Phone(expires);
    RunOne([], SignIn(phone, true)); acts := [] + [SignIn(phone, true)];
    acts := OneCall(acts, 0, 0, first);
    RunOne(acts, CallStarts(1, 0, early, false)); acts := acts + [CallStarts(1, 0, early, false)];
    RunOne(acts, Looks(1)); acts := acts + [Looks(1)];
    var w := Run(acts);
    assert FindCurrent(w.rows, 0) == None;
    assert w.calls[1].phase == Missed;
    acts := OneRetry(acts, 2, 0, late);
    assert Run(acts).calls[1] == Call(0, early, false, Missed);
    var before := acts;
    RetryHonouredExactly(before, 1, 0);
    w := Run(before);
    assert w.rows[0].current.Some? && |w.honours| == 2;
    acts := before + [LooksBack(1), Finishes(1)];
  }

  /** A phone's row, alone in the table, ready to be renewed at `now`. */
  predicate Alone(w: World, now: int) {
    |w.rows| == 1 && w.rows[0].current.Some? && w.rows[0].refreshExpires.Some? && w.rows[0].refreshExpires.value > now
    && !w.rows[0].revoked && w.rows[0].bearer && w.rows[0].device == Some(Device(false, false)) && w.rows[0].mayPair
  }

  lemma OneCall(before: seq<Action>, id: nat, token: Token, now: int) returns (acts: seq<Action>)
    requires var w := Run(before); Alone(w, now) && id !in w.calls && w.rows[0].current == Some(token)
    ensures
      var w := Run(before);
      Run(acts) == World([w.rows[0].(current := Some(|w.owners|), refreshExpires := Some(now + REFRESH_TTL_MS), previous := Some(token), previousUntil := Some(now + GRACE_MS))],
                         w.calls[id := Call(token, now, false, Done(Ok(|w.owners|)))], w.owners + [0],
                         w.honours + [Honour(0, token, token, false, now, |w.owners|, |w.honours|)], w.looks[id := |w.honours|])
  {
    RunOne(before, CallStarts(id, token, now, false)); acts := before + [CallStarts(id, token, now, false)];
    assert FindCurrent(Run(acts).rows, token) == Some(0);
    RunOne(acts, Looks(id)); acts := acts + [Looks(id)];
    assert Run(acts).calls[id].phase == Rotating(0, token, false);
    RunOne(acts, Finishes(id)); acts := acts + [Finishes(id)];
  }

  lemma OneRetry(before: seq<Action>, id: nat, token: Token, now: int) returns (acts: seq<Action>)
    requires var w := Run(before); Alone(w, now) && id !in w.calls && w.rows[0].current != Some(token) && w.rows[0].previous == Some(token)
    requires var w := Run(before); w.rows[0].previousUntil.Some? && now < w.rows[0].previousUntil.value
    ensures
      var w := Run(before);
      Run(acts) == World([w.rows[0].(current := Some(|w.owners|), refreshExpires := Some(now + REFRESH_TTL_MS), previousUntil := Some(now))],
                         w.calls[id := Call(token, now, false, Done(Ok(|w.owners|)))], w.owners + [0],
                         w.honours + [Honour(0, token, w.rows[0].current.value, true, now, |w.owners|, |w.honours|)], w.looks[id := |w.honours|])
  {
    RunTwo(before, CallStarts(id, token, now, false), Looks(id));
    acts := before + [CallStarts(id, token, now, false), Looks(id)];
    RetryWorld(Run(before), id, token, now);
    RunTwo(acts, LooksBack(id), Finishes(id));
    acts := acts + [LooksBack(id), Finishes(id)];
  }

  lemma RetryWorld(w: World, id: nat, token: Token, now: int)
    requires Alone(w, now) && id !in w.calls && w.rows[0].current != Some(token) && w.rows[0].previous == Some(token)
    requires w.rows[0].previousUntil.Some? && now < w.rows[0].previousUntil.value
    ensures
      Step(Step(Step(Step(w, CallStarts(id, token, now, false)), Looks(id)), LooksBack(id)), Finishes(id))
      == World([w.rows[0].(current := Some(|w.owners|), refreshExpires := Some(now + REFRESH_TTL_MS), previousUntil := Some(now))],
               w.calls[id := Call(token, now, false, Done(Ok(|w.owners|)))], w.owners + [0],
               w.honours + [Honour(0, token, w.rows[0].current.value, true, now, |w.owners|, |w.honours|)], w.looks[id := |w.honours|])
  {
    assert FindCurrent(w.rows, token) == None && FindPrevious(w.rows, token) == Some(0);
    var looked := Step(Step(w, CallStarts(id, token, now, false)), Looks(id));
    assert looked == w.(calls := w.calls[id := Call(token, now, false, Missed)], looks := w.looks[id := |w.honours|]);
    var back := Step(looked, LooksBack(id));
    assert back == looked.(calls := w.calls[id := Call(token, now, false, Rotating(0, w.rows[0].current.value, true))]);
  }

  /** A revoked row stays revoked and never honours a token again. */
  lemma {:induction false} RevokedIsFinal(acts: seq<Action>, more: seq<Action>, i: nat)
    requires i < |Run(acts).rows| && Run(acts).rows[i].revoked
    ensures
      var w := Run(acts);
      var n := Run(acts + more);
      && i < |n.rows| && n.rows[i].revoked && |w.honours| <= |n.honours|
      && forall k :: |w.honours| <= k < |n.honours| ==> n.honours[k].row != i
  {
    if more == [] {
      assert acts + more == acts;
    } else {
      var last := |more| - 1;
      RevokedIsFinal(acts, more[..last], i);
      assert acts + more == (acts + more[..last]) + [more[last]];
      RunOne(acts + more[..last], more[last]);
      var w := Run(acts + more[..last]);
      if more[last].Finishes? && Enabled(w, more[last]) {
        var call := w.calls[more[last].id];
        if Swaps(w.rows, call) { assert !w.rows[call.phase.row].revoked; }
      }
    }
  }

  /** Answering that a token was reused means the sign-in it belonged to has ended, current token and all. */
  lemma ReuseEndsSignIn(acts: seq<Action>, id: nat)
    requires id in Run(acts).calls && Run(acts).calls[id].phase == Done(Err(RefreshReused))
    ensures
      var w := Run(acts);
      var token := w.calls[id].token;
      token < |w.owners| && w.owners[token] < |w.rows| && w.rows[w.owners[token]].revoked
  {
    RunHolds(acts);
    assert CallHolds(Run(acts), Run(acts).calls[id]);
  }

  /** A call that looks back for a just-replaced token after its window answers so, and ends the sign-in. */
  lemma LateUseIsReuse(acts: seq<Action>, id: nat, i: nat)
    requires
      var w := Run(acts);
      && id in w.calls && w.calls[id].phase.Missed? && IsPrevious(w.rows, i, w.calls[id].token)
      && (w.rows[i].previousUntil.None? || w.rows[i].previousUntil.value <= w.calls[id].now)
    ensures
      var n := Run(acts + [LooksBack(id), Finishes(id)]);
      && id in n.calls && n.calls[id].phase == Done(Err(RefreshReused))
      && i < |n.rows| && n.rows[i] == Run(acts).rows[i].(revoked := true)
  {
    RunHolds(acts);
    var w := Run(acts);
    var found := FindPrevious(w.rows, w.calls[id].token);
    assert RowHolds(w, i) && RowHolds(w, found.value);
    RunTwo(acts, LooksBack(id), Finishes(id));
  }

  /** A call whose steps nothing comes between is `Refresh`, the whole of `refreshSession`. */
  lemma UninterruptedIsRefresh(acts: seq<Action>, id: nat, token: Token, now: int, tunnelled: bool)
    requires id !in Run(acts).calls
    ensures
      var w := Run(acts);
      var n := Run(acts + [CallStarts(id, token, now, tunnelled), Looks(id), LooksBack(id), Finishes(id)]);
      var (rows, result) := Refresh(w.rows, token, now, tunnelled, |w.owners|);
      n.rows == rows && id in n.calls && n.calls[id].phase == Done(result)
  {
    var call := Call(token, now, tunnelled, Looking);
    var w := Run(acts);
    var started := acts + [CallStarts(id, token, now, tunnelled)];
    RunOne(acts, CallStarts(id, token, now, tunnelled));
    RunOne(started, Looks(id));
    RunOne(started + [Looks(id)], LooksBack(id));
    var n := Run(started + [Looks(id)] + [LooksBack(id)]);
    assert n.rows == w.rows && n.owners == w.owners && n.calls[id] == Decide(w.rows, call);
    RunOne(started + [Looks(id)] + [LooksBack(id)], Finishes(id));
    FinishIsRefresh(n, id, call);
    assert started + [Looks(id)] + [LooksBack(id)] + [Finishes(id)]
           == acts + [CallStarts(id, token, now, tunnelled), Looks(id), LooksBack(id), Finishes(id)];
  }

  lemma FinishIsRefresh(n: World, id: nat, call: Call)
    requires id in n.calls && call.phase.Looking? && n.calls[id] == Decide(n.rows, call)
    ensures
      var m := Step(n, Finishes(id));
      var (rows, result) := Refresh(n.rows, call.token, call.now, call.tunnelled, |n.owners|);
      m.rows == rows && id in m.calls && m.calls[id].phase == Done(result)
  {
  }
}
