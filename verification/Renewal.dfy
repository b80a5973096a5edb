/** A paired phone renewing over its routes, from `renew` in `src/lib/companion-session.ts`. */
module Renewal {
  // With the refresh attempts of `src/lib/companion-request.ts`, against the server's rotation: when the two stay in
  // step over whole runs of renewals one after another, which is what every run of the phone comes to.
  import opened Wrappers
  import opened Rotation

  const REFRESH_TIMEOUT_MS := 5_000

  /** One try of a refresh on one route: when it reached the server, if it did, and whether its answer
      came back. */
  datatype Attempt = Attempt(landed: Option<int>, tunnelled: bool, answered: bool)

  datatype Server = Server(rows: seq<Row>, issued: nat)

  type Answer = Result<Token, Refusal>

  function Hit(s: Server, token: Token, now: int, tunnelled: bool): (Server, Answer) {
    var (rows, answer) := Refresh(s.rows, token, now, tunnelled, s.issued);
    (Server(rows, s.issued + 1), answer)
  }

  /** Every attempt made with one refresh token, in order, and what the server decided each time. */
  function Hits(s: Server, token: Token, attempts: seq<Attempt>): (Server, seq<Answer>) {
    if attempts == [] then (s, [])
    else
      var (before, answers) := Hits(s, token, attempts[..|attempts| - 1]);
      var last := attempts[|attempts| - 1];
      if last.landed.None? then (before, answers)
      else
        var (after, answer) := Hit(before, token, last.landed.value, last.tunnelled);
        (after, answers + [answer])
  }

  function Landings(attempts: seq<Attempt>): seq<int> {
    if attempts == [] then []
    else
      var last := attempts[|attempts| - 1];
      Landings(attempts[..|attempts| - 1]) + if last.landed.Some? then [last.landed.value] else []
  }

  predicate Ascending(times: seq<int>) {
    forall j, k :: 0 <= j < k < |times| ==> times[j] <= times[k]
  }

  /** No token belongs to two rows or is both current and replaced, and every one was issued. */
  ghost predicate Unique(s: Server) {
    && (forall i, j, t: Token :: IsCurrent(s.rows, i, t) && IsCurrent(s.rows, j, t) ==> i == j)
    && (forall i, j, t: Token :: IsPrevious(s.rows, i, t) && IsPrevious(s.rows, j, t) ==> i == j)
    && (forall i, j, t: Token :: IsCurrent(s.rows, i, t) ==> !IsPrevious(s.rows, j, t))
    && (forall i, t: Token :: IsCurrent(s.rows, i, t) || IsPrevious(s.rows, i, t) ==> t < s.issued)
  }

  /** Row `i` is a phone's live sign-in that a renewal before `expires` finds. */
  predicate Live(s: Server, i: nat, expires: int) {
    i < |s.rows| && s.rows[i].refreshExpires == Some(expires) && !s.rows[i].revoked && s.rows[i].bearer
    && s.rows[i].device == Some(Device(false, false)) && s.rows[i].mayPair
  }

  /** The phone holds the row's current token. */
  predicate InStep(s: Server, i: nat, token: Token, expires: int) {
    Live(s, i, expires) && s.rows[i].current == Some(token)
  }

  /** When a renewal goes through: its first landing finds the sign-in alive, and at most one landed
      answer was lost, the retry landing strictly inside the grace that opened. */
  predicate InTime(landings: seq<int>, expires: int) {
    && 1 <= |landings| <= 2
    && landings[0] < expires
    && (|landings| == 2 ==> landings[1] < landings[0] + GRACE_MS)
  }

  lemma HitKeepsUnique(s: Server, token: Token, now: int, tunnelled: bool)
    requires Unique(s)
    ensures Unique(Hit(s, token, now, tunnelled).0)
  {
    var n := Hit(s, token, now, tunnelled).0;
    var call := Decide(s.rows, Call(token, now, tunnelled, Looking));
    assert |n.rows| == |s.rows|;
    if Swaps(s.rows, call) {
      var i := call.phase.row;
      assert IsCurrent(s.rows, i, token) || IsPrevious(s.rows, i, token);
      forall k, t: Token | IsCurrent(n.rows, k, t) ensures (t == s.issued && k == i) || (k != i && IsCurrent(s.rows, k, t)) {}
      forall k, t: Token | IsPrevious(n.rows, k, t) ensures (t == token && k == i) || (k != i && IsPrevious(s.rows, k, t)) {}
    } else {
      forall k, t: Token ensures IsCurrent(n.rows, k, t) <==> IsCurrent(s.rows, k, t) {}
      forall k, t: Token ensures IsPrevious(n.rows, k, t) <==> IsPrevious(s.rows, k, t) {}
    }
  }

  /** The current token rotates, opening the grace for the one it replaces. */
  lemma FirstHit(s: Server, i: nat, token: Token, expires: int, now: int, tunnelled: bool)
    requires Unique(s) && InStep(s, i, token, expires)
    ensures
      var (n, answer) := Hit(s, token, now, tunnelled);
      if now < expires then
        && answer == Ok(s.issued) && InStep(n, i, s.issued, now + REFRESH_TTL_MS)
        && n.rows[i].previous == Some(token) && n.rows[i].previousUntil == Some(now + GRACE_MS)
      else answer == Err(InvalidRefresh) && n.rows == s.rows
  {
    assert IsCurrent(s.rows, i, token);
    var found := FindCurrent(s.rows, token);
    assert found == Some(i);
  }

  /** The token just replaced is honoured strictly inside its window, and ends the sign-in after it. */
  lemma LaterHit(s: Server, i: nat, token: Token, until: int, now: int, tunnelled: bool)
    requires Unique(s) && IsPrevious(s.rows, i, token) && s.rows[i].previousUntil == Some(until)
    ensures
      var (n, answer) := Hit(s, token, now, tunnelled);
      && (now >= until ==> answer == Err(RefreshReused) && n.rows == s.rows[i := s.rows[i].(revoked := true)])
      && (forall expires :: now < until && now < expires && Live(s, i, expires) && s.rows[i].current.Some? ==>
            && answer == Ok(s.issued) && InStep(n, i, s.issued, now + REFRESH_TTL_MS)
            && n.rows[i].previous == Some(token) && n.rows[i].previousUntil == Some(now))
  {
    assert FindCurrent(s.rows, token) == None;
    var found := FindPrevious(s.rows, token);
    assert found == Some(i);
  }

  /** What every state an attempt leaves behind says, by how many have landed so far. */
  ghost predicate Stage(s: Server, i: nat, token: Token, expires: int, landings: seq<int>, answers: seq<Answer>) {
    && Unique(s)
    && |answers| == |landings|
    && if landings == [] then InStep(s, i, token, expires)
       else if InTime(landings, expires) then
         var last := landings[|landings| - 1];
         && (forall k :: 0 <= k < |answers| ==> answers[k].Ok?)
         && InStep(s, i, answers[|answers| - 1].value, last + REFRESH_TTL_MS)
         && s.rows[i].previous == Some(token)
         && s.rows[i].previousUntil == Some(if |landings| == 1 then last + GRACE_MS else last)
       else
         var last := landings[|landings| - 1];
         && answers[|answers| - 1].Err?
         && ((InStep(s, i, token, expires) && expires <= last)
             || (IsPrevious(s.rows, i, token) && s.rows[i].previousUntil.Some? && s.rows[i].previousUntil.value <= last))
  }

  lemma {:induction false} HitsStage(s: Server, i: nat, token: Token, expires: int, attempts: seq<Attempt>)
    requires Unique(s) && InStep(s, i, token, expires) && Ascending(Landings(attempts))
    ensures var (n, answers) := Hits(s, token, attempts); Stage(n, i, token, expires, Landings(attempts), answers)
  {
    if attempts != [] {
      var earlier := attempts[..|attempts| - 1];
      var last := attempts[|attempts| - 1];
      var before := Landings(earlier);
      assert forall k :: 0 <= k < |before| ==> before[k] == Landings(attempts)[k];
      HitsStage(s, i, token, expires, earlier);
      var (m, answers) := Hits(s, token, earlier);
      if last.landed.Some? {
        var now := last.landed.value;
        HitKeepsUnique(m, token, now, last.tunnelled);
        assert Landings(attempts) == before + [now];
        OneMore(m, i, token, expires, before, answers, now, last.tunnelled);
      } else {
        assert Landings(attempts) == before;
      }
    }
  }

  lemma OneMore(m: Server, i: nat, token: Token, expires: int, before: seq<int>, answers: seq<Answer>, now: int, tunnelled: bool)
    requires Stage(m, i, token, expires, before, answers) && Ascending(before + [now])
    ensures var (n, answer) := Hit(m, token, now, tunnelled); Stage(n, i, token, expires, before + [now], answers + [answer])
  {
    HitKeepsUnique(m, token, now, tunnelled);
    var all := before + [now];
    if before == [] {
      FirstHit(m, i, token, expires, now, tunnelled);
    } else {
      var last := before[|before| - 1];
      assert all[|before| - 1] == last && all[|before|] == now && last <= now;
      assert all[0] == before[0];
      assert IsCurrent(m.rows, i, token) ==> !IsPrevious(m.rows, i, token);
      if IsPrevious(m.rows, i, token) {
        LaterHit(m, i, token, m.rows[i].previousUntil.value, now, tunnelled);
        if InTime(all, expires) { assert Live(m, i, last + REFRESH_TTL_MS); }
      } else {
        FirstHit(m, i, token, expires, now, tunnelled);
      }
    }
  }

  /** From a phone in step, every attempt it makes with one token, until an answer arrives: the last
      landing is answered with a new token exactly when the attempts were in time; then no landing was
      refused and the phone is in step again, and otherwise it is not. */
  lemma RenewsExactlyInTime(s: Server, i: nat, token: Token, expires: int, attempts: seq<Attempt>)
    requires Unique(s) && InStep(s, i, token, expires)
    requires Ascending(Landings(attempts)) && Landings(attempts) != []
    ensures
      var (n, answers) := Hits(s, token, attempts);
      var landings := Landings(attempts);
      && |answers| == |landings| && Unique(n)
      && (answers[|answers| - 1].Ok? <==> InTime(landings, expires))
      && (InTime(landings, expires) ==>
            && (forall k :: 0 <= k < |answers| ==> answers[k].Ok?)
            && InStep(n, i, answers[|answers| - 1].value, landings[|landings| - 1] + REFRESH_TTL_MS))
  {
    HitsStage(s, i, token, expires, attempts);
  }

  /** A whole run of renewals, each ending with an answer: the phone takes each new token it is given
      and stops at the first refusal. */
  function Renewals(s: Server, token: Token, episodes: seq<seq<Attempt>>): (Server, Result<Token, Refusal>)
    decreases |episodes|
  {
    if episodes == [] then (s, Ok(token))
    else
      var (n, answers) := Hits(s, token, episodes[0]);
      if answers == [] then Renewals(n, token, episodes[1..])
      else
        match answers[|answers| - 1]
        case Ok(next) => Renewals(n, next, episodes[1..])
        case Err(e) => (n, Err(e))
  }

  /** Every renewal in time, each against the expiry the one before it set. */
  predicate AllInTime(episodes: seq<seq<Attempt>>, expires: int) {
    episodes == [] ||
    (var landings := Landings(episodes[0]);
     InTime(landings, expires) && AllInTime(episodes[1..], landings[|landings| - 1] + REFRESH_TTL_MS))
  }

  /** Over a whole run the phone stays paired, ending with the row's current token, exactly when every
      renewal was in time. */
  lemma {:induction false} InStepExactlyInTime(s: Server, i: nat, token: Token, expires: int, episodes: seq<seq<Attempt>>)
    requires Unique(s) && InStep(s, i, token, expires)
    requires forall k :: 0 <= k < |episodes| ==> Landings(episodes[k]) != [] && Ascending(Landings(episodes[k]))
    ensures
      var (n, held) := Renewals(s, token, episodes);
      && (held.Ok? <==> AllInTime(episodes, expires))
      && (held.Ok? ==> i < |n.rows| && n.rows[i].current == Some(held.value))
    decreases |episodes|
  {
    if episodes != [] {
      RenewsExactlyInTime(s, i, token, expires, episodes[0]);
      var (n, answers) := Hits(s, token, episodes[0]);
      var landings := Landings(episodes[0]);
      if InTime(landings, expires) {
        InStepExactlyInTime(n, i, answers[|answers| - 1].value, landings[|landings| - 1] + REFRESH_TTL_MS, episodes[1..]);
      }
    }
  }

  /** How the phone paces a renewal: the next route is tried when the last one answered nothing, at most
      one timeout after it was asked, and an attempt lands before its timeout or never. */
  predicate Paced(attempts: seq<Attempt>, sent: seq<int>) {
    && |sent| == |attempts|
    && (forall k :: 0 <= k < |attempts| && attempts[k].landed.Some? ==> sent[k] <= attempts[k].landed.value < sent[k] + REFRESH_TIMEOUT_MS)
    && (forall k :: 0 <= k < |attempts| - 1 ==> sent[k] <= sent[k + 1] <= sent[k] + REFRESH_TIMEOUT_MS)
    && (forall k :: 0 <= k < |attempts| - 1 && attempts[k].landed.Some? ==> attempts[k].landed.value <= sent[k + 1])
  }

  /** Two routes' timeouts fit the grace: a renewal over two routes, sent while the sign-in lives, always
      goes through once its second attempt lands. */
  lemma TwoRoutesFit(first: Attempt, second: Attempt, sent: seq<int>, expires: int)
    requires Paced([first, second], sent) && second.landed.Some? && second.landed.value < expires
    ensures Ascending(Landings([first, second])) && InTime(Landings([first, second]), expires)
  {
    assert [first, second][..1] == [first] && [first][..0] == [];
    assert Landings([first]) == (if first.landed.Some? then [first.landed.value] else []);
    assert Landings([first, second]) == Landings([first]) + [second.landed.value];
  }

  /** The bound is tight: an attempt landing at the very end of its timeout, or on a third route, can
      miss the grace, and the sign-in ends. */
  lemma BoundIsTight()
    ensures !InTime(Landings([Attempt(Some(0), false, false), Attempt(Some(2 * REFRESH_TIMEOUT_MS), false, true)]), REFRESH_TTL_MS)
    ensures
      var three := [Attempt(Some(0), false, false), Attempt(None, false, false), Attempt(Some(12_000), false, true)];
      Paced(three, [0, REFRESH_TIMEOUT_MS, 2 * REFRESH_TIMEOUT_MS]) && !InTime(Landings(three), REFRESH_TTL_MS)
  {
    var a, b := Attempt(Some(0), false, false), Attempt(Some(2 * REFRESH_TIMEOUT_MS), false, true);
    assert [a, b][..1] == [a] && [a][..0] == [];
    assert Landings([a]) == [0] && Landings([a, b]) == [0, 10_000];
    var lost, c := Attempt(None, false, false), Attempt(Some(12_000), false, true);
    assert [a, lost, c][..2] == [a, lost] && [a, lost][..1] == [a];
    assert Landings([a, lost]) == [0] && Landings([a, lost, c]) == [0, 12_000];
  }

  /** Why one renewal at a time: two at once both go through, but a phone that keeps the first one's
      token holds one that is neither current nor just replaced, and its next renewal is refused. */
  lemma OverlapStrandsThePhone(s: Server, i: nat, token: Token, expires: int, now: int, later: int, next: int)
    requires Unique(s) && InStep(s, i, token, expires) && now < expires && now <= later < now + GRACE_MS
    ensures
      var (m, first) := Hit(s, token, now, false);
      var (n, second) := Hit(m, token, later, false);
      first.Ok? && second.Ok? && Hit(n, first.value, next, false).1 == Err(InvalidRefresh)
  {
    HitKeepsUnique(s, token, now, false);
    FirstHit(s, i, token, expires, now, false);
    var (m, first) := Hit(s, token, now, false);
    HitKeepsUnique(m, token, later, false);
    assert IsPrevious(m.rows, i, token) && IsCurrent(m.rows, i, s.issued);
    LaterHit(m, i, token, now + GRACE_MS, later, false);
    assert Live(m, i, now + REFRESH_TTL_MS);
    var (n, second) := Hit(m, token, later, false);
    assert n.rows == m.rows[i := n.rows[i]];
    forall k ensures !IsCurrent(n.rows, k, s.issued) && !IsPrevious(n.rows, k, s.issued) {
      assert IsCurrent(n.rows, k, s.issued) ==> IsCurrent(m.rows, k, s.issued);
      assert IsPrevious(n.rows, k, s.issued) && k != i ==> IsPrevious(m.rows, k, s.issued);
    }
    assert FindCurrent(n.rows, s.issued) == None && FindPrevious(n.rows, s.issued) == None;
  }
}
