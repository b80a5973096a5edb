/** Refresh-token rotation, from `refreshSession` in `src/server/auth.ts`. */
module Rotation {
  // What one call does to the session rows, split where it awaits the database. Hashes are the tokens themselves,
  // and every new token is one never issued before. Times are milliseconds.
  import opened Wrappers

  const GRACE_MS := 10 * 1000
  const REFRESH_TTL_MS := 90 * 24 * 60 * 60 * 1000

  type Token = nat

  datatype Device = Device(revoked: bool, agent: bool)

  datatype Row = Row(current: Option<Token>, previous: Option<Token>, previousUntil: Option<int>, revoked: bool,
                     bearer: bool, refreshExpires: Option<int>, device: Option<Device>, mayPair: bool)

  datatype Refusal = InvalidRefresh | RefreshReused | AgentRemote

  /** Where a call stands: it looks for a row that holds the token, then for one that just replaced it,
      then it rotates the row or ends it. `expected` is the current token it saw. */
  datatype Phase =
    | Looking
    | Missed
    | Rotating(row: nat, expected: Token, grace: bool)
    | Ending(row: nat)
    | Done(result: Result<Token, Refusal>)

  datatype Call = Call(token: Token, now: int, tunnelled: bool, phase: Phase)

  predicate IsCurrent(rows: seq<Row>, i: int, token: Token) {
    0 <= i < |rows| && rows[i].current == Some(token)
  }

  predicate IsPrevious(rows: seq<Row>, i: int, token: Token) {
    0 <= i < |rows| && rows[i].previous == Some(token)
  }

  function FindCurrent(rows: seq<Row>, token: Token): (r: Option<nat>)
    ensures r.Some? ==> IsCurrent(rows, r.value, token)
    ensures r.None? ==> forall i :: !IsCurrent(rows, i, token)
  {
    if rows == [] then None
    else
      var n := |rows| - 1;
      var earlier := FindCurrent(rows[..n], token);
      assert forall i :: 0 <= i < n ==> (IsCurrent(rows, i, token) <==> IsCurrent(rows[..n], i, token));
      if rows[n].current == Some(token) then Some(n) else earlier
  }

  function FindPrevious(rows: seq<Row>, token: Token): (r: Option<nat>)
    ensures r.Some? ==> IsPrevious(rows, r.value, token)
    ensures r.None? ==> forall i :: !IsPrevious(rows, i, token)
  {
    if rows == [] then None
    else
      var n := |rows| - 1;
      var earlier := FindPrevious(rows[..n], token);
      assert forall i :: 0 <= i < n ==> (IsPrevious(rows, i, token) <==> IsPrevious(rows[..n], i, token));
      if rows[n].previous == Some(token) then Some(n) else earlier
  }

  /** What a call that found its row in time does next: refuse, or rotate. */
  function Judge(row: Row, i: nat, expected: Token, grace: bool, now: int, tunnelled: bool): Phase {
    if row.revoked || !row.bearer || row.refreshExpires.None? || row.refreshExpires.value <= now
       || row.device.None? || row.device.value.revoked then Done(Err(InvalidRefresh))
    else if !row.mayPair then Done(Err(InvalidRefresh))
    else if tunnelled && row.device.value.agent then Done(Err(AgentRemote))
    else Rotating(i, expected, grace)
  }

  /** After the first lookup. */
  function Look(rows: seq<Row>, call: Call): Phase {
    var found := FindCurrent(rows, call.token);
    if found.None? then Missed else Judge(rows[found.value], found.value, call.token, false, call.now, call.tunnelled)
  }

  /** After the second lookup. A row that replaced a token has a current one. */
  function LookBack(rows: seq<Row>, call: Call): Phase {
    var found := FindPrevious(rows, call.token);
    if found.None? then Done(Err(InvalidRefresh))
    else
      var row := rows[found.value];
      if row.previousUntil.None? || row.previousUntil.value <= call.now then Ending(found.value)
      else if row.current.None? then Done(Err(InvalidRefresh))
      else Judge(row, found.value, row.current.value, true, call.now, call.tunnelled)
  }

  predicate Swaps(rows: seq<Row>, call: Call) {
    call.phase.Rotating? && call.phase.row < |rows|
    && rows[call.phase.row].current == Some(call.phase.expected) && !rows[call.phase.row].revoked
  }

  /** The rows after the guarded update of a rotating or ending call; `next` is the new token. */
  function Updated(rows: seq<Row>, call: Call, next: Token): seq<Row> {
    match call.phase
    case Rotating(i, _, grace) =>
      if !Swaps(rows, call) then rows
      else rows[i := rows[i].(current := Some(next), refreshExpires := Some(call.now + REFRESH_TTL_MS), previous := Some(call.token),
                              previousUntil := Some(if grace then call.now else call.now + GRACE_MS))]
    case Ending(i) => if i < |rows| then rows[i := rows[i].(revoked := true)] else rows
    case _ => rows
  }

  function Finished(rows: seq<Row>, call: Call, next: Token): Phase {
    match call.phase
    case Rotating(_, _, _) => Done(if Swaps(rows, call) then Ok(next) else Err(InvalidRefresh))
    case Ending(_) => Done(Err(RefreshReused))
    case p => p
  }

  /** A call nothing interrupts, up to its update. */
  function Decide(rows: seq<Row>, call: Call): Call {
    var first := call.(phase := Look(rows, call));
    if first.phase.Missed? then first.(phase := LookBack(rows, first)) else first
  }

  /** A whole call nothing interrupts. */
  function Refresh(rows: seq<Row>, token: Token, now: int, tunnelled: bool, next: Token): (seq<Row>, Result<Token, Refusal>) {
    var call := Decide(rows, Call(token, now, tunnelled, Looking));
    var done := Finished(rows, call, next);
    (Updated(rows, call, next), if done.Done? then done.result else Err(InvalidRefresh))
  }

  // What a whole call answers, and what it does to the rows.

  /** A sign-in that a renewal may go on with. */
  predicate MayRenew(row: Row, now: int) {
    && !row.revoked && row.bearer && row.mayPair
    && row.refreshExpires.Some? && now < row.refreshExpires.value
    && row.device.Some? && !row.device.value.revoked
  }

  /** What a call that presents a token of row `row` in time is answered: an agent is turned away at the tunnel. */
  predicate Honours(row: Row, now: int, tunnelled: bool, next: Token, result: Result<Token, Refusal>) {
    result == if !MayRenew(row, now) then Err(InvalidRefresh)
              else if tunnelled && row.device.value.agent then Err(AgentRemote)
              else Ok(next)
  }

  /** A replaced token is in time strictly inside its window. */
  predicate InGrace(row: Row, now: int) {
    row.previousUntil.Some? && now < row.previousUntil.value
  }

  /** No other row knows the token. */
  ghost predicate OnlyRow(rows: seq<Row>, i: nat, token: Token) {
    i < |rows| && forall j :: 0 <= j < |rows| && j != i ==> rows[j].current != Some(token) && rows[j].previous != Some(token)
  }

  /** A whole call: the current token of a sign-in, or the one it replaced while its window lasts, is honoured as
      the sign-in allows; a replaced token after its window is reuse; any other is invalid. */
  lemma RefreshAnswers(rows: seq<Row>, i: nat, token: Token, now: int, tunnelled: bool, next: Token)
    requires OnlyRow(rows, i, token)
    ensures
      var row := rows[i];
      var result := Refresh(rows, token, now, tunnelled, next).1;
      if row.current == Some(token) then Honours(row, now, tunnelled, next, result)
      else if row.previous == Some(token) && !InGrace(row, now) then result == Err(RefreshReused)
      else if row.previous == Some(token) && row.current.Some? then Honours(row, now, tunnelled, next, result)
      else result == Err(InvalidRefresh)
  {
    OneHolder(rows, i, token);
  }

  lemma OneHolder(rows: seq<Row>, i: nat, token: Token)
    requires OnlyRow(rows, i, token)
    ensures FindCurrent(rows, token) == (if rows[i].current == Some(token) then Some(i) else None)
    ensures FindPrevious(rows, token) == (if rows[i].previous == Some(token) then Some(i) else None)
  {
    assert IsCurrent(rows, i, token) <==> rows[i].current == Some(token);
    assert IsPrevious(rows, i, token) <==> rows[i].previous == Some(token);
  }

  /** An honoured call gives its row the new token and a whole lifetime, and the presented one a window: the
      grace, or none when it had been replaced already. Reuse ends the sign-in, and any other refusal changes
      nothing. */
  lemma RefreshUpdates(rows: seq<Row>, i: nat, token: Token, now: int, tunnelled: bool, next: Token)
    requires OnlyRow(rows, i, token)
    ensures
      var (after, result) := Refresh(rows, token, now, tunnelled, next);
      var row := rows[i];
      match result
      case Ok(_) =>
        after == rows[i := Row(Some(next), Some(token), Some(if row.current == Some(token) then now + GRACE_MS else now), row.revoked,
                               row.bearer, Some(now + REFRESH_TTL_MS), row.device, row.mayPair)]
      case Err(RefreshReused) =>
        after == rows[i := Row(row.current, row.previous, row.previousUntil, true, row.bearer, row.refreshExpires, row.device, row.mayPair)]
      case Err(_) => after == rows
  {
    OneHolder(rows, i, token);
  }

  /** The session rows, as the database holds them. */
  class SessionTable {
    var rows: seq<Row>

    constructor ()
      ensures rows == []
    {
      rows := [];
    }

    /** `updateMany` guarded by the id, the expected token and no revocation; `count` rows change. */
    method SwapToken(i: nat, expected: Token, presented: Token, next: Token, now: int, grace: bool) returns (count: nat)
      requires i < |rows|
      modifies this
      ensures count == if old(rows[i].current) == Some(expected) && !old(rows[i].revoked) then 1 else 0
      ensures count == 0 ==> rows == old(rows)
      ensures count == 1 ==> rows == old(rows)[i := old(rows)[i].(current := Some(next), refreshExpires := Some(now + REFRESH_TTL_MS),
                previous := Some(presented), previousUntil := Some(if grace then now else now + GRACE_MS))]
    {
      if rows[i].current == Some(expected) && !rows[i].revoked {
        var until := now;
        if !grace { until := now + GRACE_MS; }
        rows := rows[i := rows[i].(current := Some(next), refreshExpires := Some(now + REFRESH_TTL_MS))];
        rows := rows[i := rows[i].(previous := Some(presented), previousUntil := Some(until))];
        count := 1;
      } else {
        count := 0;
      }
    }

    method EndSignIn(i: nat)
      requires i < |rows|
      modifies this
      ensures rows == old(rows)[i := old(rows)[i].(revoked := true)]
    {
      if !rows[i].revoked { rows := rows[i := rows[i].(revoked := true)]; }
    }

    /** `refreshSession`, start to end with no other call between its awaits. */
    method RefreshSession(token: Token, now: int, tunnelled: bool, next: Token) returns (result: Result<Token, Refusal>)
      modifies this
      ensures (rows, result) == Refresh(old(rows), token, now, tunnelled, next)
    {
      var found := FindCurrent(rows, token);
      var current := token;
      var grace := false;
      if found.None? {
        found := FindPrevious(rows, token);
        if found.None? { return Err(InvalidRefresh); }
        var replaced := rows[found.value];
        if replaced.previousUntil.None? || replaced.previousUntil.value <= now {
          EndSignIn(found.value);
          return Err(RefreshReused);
        }
        if replaced.current.None? { return Err(InvalidRefresh); }
        current := replaced.current.value;
        grace := true;
      }
      var session := rows[found.value];
      if session.revoked || !session.bearer || session.refreshExpires.None? || session.refreshExpires.value <= now
         || session.device.None? || session.device.value.revoked { return Err(InvalidRefresh); }
      if !session.mayPair { return Err(InvalidRefresh); }
      if tunnelled && session.device.value.agent { return Err(AgentRemote); }
      var count := SwapToken(found.value, current, token, next, now, grace);
      if count != 1 { return Err(InvalidRefresh); }
      result := Ok(next);
    }
  }
}
