/** Every interleaving of a phone's renewals, pairings and unpairings with the server. */
module RenewalRuns {
  // The steps between the awaits of `src/lib/companion-session.ts`: what runs one renewal at a time, and what
  // becomes of an answer that comes when the phone no longer holds the session it was asked for.
  import opened Wrappers
  import opened Rotation
  import opened Renewal

  /** A session object: which one it is, and the refresh token it holds. */
  datatype Session = Session(id: nat, refresh: Option<Token>)

  /** The phone's state, and the slot of the renewal that is under way. */
  datatype Phone = Phone(profile: Option<nat>, session: Option<Session>, renewing: Option<nat>)

  /** One run of the renewal's body: the household and session it asks for and, while one is outstanding, the
      answer of its last attempt that landed; or it is over but for the slot. */
  datatype Flight = Asking(asked: nat, held: Session, token: Token, answer: Option<Answer>) | Over

  /** `renew`: the renewal under way is joined, or else a new one begins. */
  function Renews(p: Phone, id: nat): (Phone, Option<Flight>) {
    if p.renewing.Some? then (p, None)
    else
      var asks := p.profile.Some? && p.session.Some? && p.session.value.refresh.Some?;
      (p.(renewing := Some(id)),
       Some(if asks then Asking(p.profile.value, p.session.value, p.session.value.refresh.value, None) else Over))
  }

  function Forgot(p: Phone): Phone {
    p.(profile := None, session := None)
  }

  predicate Holds(p: Phone, asked: nat, held: Session) {
    p.profile == Some(asked) && p.session == Some(held)
  }

  /** What an answer does: nothing when the phone has forgotten or replaced what it was asked for. */
  function Answered(p: Phone, f: Flight, answer: Answer, made: nat): Phone
    requires f.Asking?
  {
    if !Holds(p, f.asked, f.held) then p
    else
      match answer
      case Ok(next) => p.(session := Some(Session(made, Some(next))))
      case Err(_) => Forgot(p)
  }

  /** An answer for another household or session than the phone holds changes nothing; else a new token makes the
      session that holds it the phone's, and a refusal unpairs it. The slot is left as it is. */
  lemma AnswerChangesItsOwn(p: Phone, f: Flight, answer: Answer, made: nat)
    requires f.Asking?
    ensures
      var n := Answered(p, f, answer, made);
      && n.renewing == p.renewing
      && (p.profile != Some(f.asked) || p.session != Some(f.held) ==> n == p)
      && (p.profile == Some(f.asked) && p.session == Some(f.held) ==>
            if answer.Ok? then n.profile == p.profile && n.session == Some(Session(made, Some(answer.value))) else n.profile == None && n.session == None)
  {
  }

  function Trusted(p: Phone, profile: nat, session: Session): Phone {
    p.(profile := Some(profile), session := Some(session))
  }

  /** The phone itself. */
  class CompanionSession {
    var profile: Option<nat>
    var session: Option<Session>
    var renewing: Option<nat>

    function Contents(): Phone
      reads this
    {
      Phone(profile, session, renewing)
    }

    constructor ()
      ensures Contents() == Phone(None, None, None)
    {
      profile := None;
      session := None;
      renewing := None;
    }

    /** Up to the first await of a renewal. */
    method StartRenewal(id: nat) returns (flight: Option<Flight>)
      modifies this`renewing
      ensures (Contents(), flight) == Renews(old(Contents()), id)
    {
      if renewing.Some? { return None; }
      renewing := Some(id);
      if profile.None? || session.None? || session.value.refresh.None? { return Some(Over); }
      flight := Some(Asking(profile.value, session.value, session.value.refresh.value, None));
    }

    /** From an answer to the end of a renewal. */
    method AfterAnswer(flight: Flight, answer: Answer, made: nat)
      requires flight.Asking?
      modifies this
      ensures Contents() == Answered(old(Contents()), flight, answer, made)
    {
      if profile != Some(flight.asked) || session != Some(flight.held) { return; }
      if answer.Ok? {
        session := Some(Session(made, Some(answer.value)));
      } else {
        Lose();
      }
    }

    method Settle()
      modifies this`renewing
      ensures Contents() == old(Contents()).(renewing := None)
    {
      renewing := None;
    }

    method Lose()
      modifies this
      ensures Contents() == Forgot(old(Contents()))
    {
      profile := None;
      session := None;
    }

    method Trust(household: nat, claimed: Session)
      modifies this
      ensures Contents() == Trusted(old(Contents()), household, claimed)
    {
      profile := Some(household);
      session := Some(claimed);
    }

    /** A renewal that nothing comes between: each attempt in turn until one is answered. A refusal unpairs the
        phone; no answer leaves it as it was. `issued` numbers the server's new tokens. */
    method Renew(table: SessionTable, attempts: seq<Attempt>, issued: nat, made: nat)
      requires profile.Some? && session.Some? && session.value.refresh.Some? && renewing.None?
      requires forall k :: 0 <= k < |attempts| && attempts[k].answered ==> attempts[k].landed.Some?
      requires forall k :: 0 <= k < |attempts| - 1 ==> !attempts[k].answered
      modifies this, table
      ensures
        var (n, answers) := Hits(Server(old(table.rows), issued), old(session).value.refresh.value, attempts);
        && table.rows == n.rows && renewing.None?
        && (profile, session) ==
           if attempts == [] || !attempts[|attempts| - 1].answered then (old(profile), old(session))
           else match answers[|answers| - 1] case Ok(next) => (old(profile), Some(Session(made, Some(next)))) case Err(_) => (None, None)
    {
      ghost var start := Server(table.rows, issued);
      var flight := StartRenewal(0);
      var held := session.value.refresh.value;
      var next := issued;
      var k := 0;
      while k < |attempts|
        invariant 0 <= k <= |attempts|
        invariant profile == old(profile) && session == old(session) && renewing == Some(0)
        invariant forall j :: 0 <= j < k ==> !attempts[j].answered
        invariant Hits(start, held, attempts[..k]).0 == Server(table.rows, next)
      {
        assert attempts[..k + 1][..k] == attempts[..k];
        if attempts[k].landed.Some? {
          var answer := table.RefreshSession(held, attempts[k].landed.value, attempts[k].tunnelled, next);
          next := next + 1;
          if attempts[k].answered {
            assert attempts[..k + 1] == attempts;
            assert Hits(start, held, attempts).0.rows == table.rows;
            AfterAnswer(flight.value, answer, made);
            Settle();
            return;
          }
        }
        k := k + 1;
      }
      assert attempts[..k] == attempts;
      Settle();
    }
  }

  // Every interleaving.

  /** The phone's latest pairing: its row and first expiry; the attempts of each renewal that was answered;
      those made since with the token it holds now, and their answers; and whether the phone has unpaired. */
  datatype Story = Unpaired | Pairing(row: nat, first: int, closed: seq<seq<Attempt>>, open: seq<Attempt>, answers: seq<Answer>, quit: bool)

  /** `flights` are the renewals whose body is running or not yet settled; `strays` the tokens an unpairing
      may still renew with; `made` counts session objects. */
  datatype World = World(server: Server, phone: Phone, flights: map<nat, Flight>, strays: set<Token>, made: nat, clock: int, story: Story)

  datatype Action =
    | Trusts(expires: int)
    | Loses(unpairs: bool)
    | Asks(id: nat)
    | Lands(id: nat, now: int, tunnelled: bool)
    | Drops(id: nat)
    | GivesUp(id: nat)
    | Answers(id: nat)
    | Settles(id: nat)
    | StrayLands(token: Token, now: int, tunnelled: bool)
    | Elsewhere(token: Token, now: int, tunnelled: bool)
    | OtherSignIn(entry: Row)

  const START := World(Server([], 0), Phone(None, None, None), map[], {}, 0, 0, Unpaired)

  /** The token is the row's current or replaced one. */
  predicate AtRow(s: Server, i: nat, token: Token) {
    IsCurrent(s.rows, i, token) || IsPrevious(s.rows, i, token)
  }

  /** A renewal makes one attempt at a time, and other devices hold no token of the phone's. */
  predicate Enabled(w: World, a: Action) {
    match a
    case Trusts(_) => true
    case Loses(_) => true
    case Asks(id) => id !in w.flights
    case Lands(id, now, _) => id in w.flights && w.flights[id].Asking? && w.flights[id].answer.None? && now >= w.clock
    case Drops(id) => id in w.flights && w.flights[id].Asking? && w.flights[id].answer.Some?
    case GivesUp(id) => id in w.flights && w.flights[id].Asking? && w.flights[id].answer.None?
    case Answers(id) => id in w.flights && w.flights[id].Asking? && w.flights[id].answer.Some?
    case Settles(id) => id in w.flights && w.flights[id].Over?
    case StrayLands(token, now, _) => token in w.strays && now >= w.clock
    case Elsewhere(token, now, _) => now >= w.clock && (w.story.Pairing? ==> !AtRow(w.server, w.story.row, token))
    case OtherSignIn(_) => true
  }

  function NewRow(entry: Row, token: Token): Row {
    entry.(current := Some(token), previous := None, previousUntil := None)
  }

  function SignedIn(s: Server, entry: Row): Server {
    Server(s.rows + [NewRow(entry, s.issued)], s.issued + 1)
  }

  function PhoneRow(expires: int): Row {
    Row(None, None, None, false, true, Some(expires), Some(Device(false, false)), true)
  }

  /** The renewal asks with the session the phone holds. */
  predicate Ours(w: World, f: Flight) {
    f.Asking? && w.phone.session == Some(f.held)
  }

  function Landed(w: World, id: nat, now: int, tunnelled: bool): World
    requires id in w.flights && w.flights[id].Asking?
  {
    var f := w.flights[id];
    var (server, answer) := Hit(w.server, f.token, now, tunnelled);
    w.(server := server, clock := now, flights := w.flights[id := f.(answer := Some(answer))],
       story := if Ours(w, f) && w.story.Pairing?
                then w.story.(open := w.story.open + [Attempt(Some(now), tunnelled, false)], answers := w.story.answers + [answer])
                else w.story)
  }

  function Delivered(w: World, id: nat): World
    requires id in w.flights && w.flights[id].Asking? && w.flights[id].answer.Some?
  {
    var f := w.flights[id];
    w.(phone := Answered(w.phone, f, f.answer.value, w.made), made := w.made + 1, flights := w.flights[id := Over],
       story := if Ours(w, f) && w.story.Pairing? then w.story.(closed := w.story.closed + [w.story.open], open := [], answers := []) else w.story)
  }

  function Apply(w: World, a: Action): World
    requires Enabled(w, a)
  {
    match a
    case Trusts(expires) =>
      w.(server := SignedIn(w.server, PhoneRow(expires)),
         phone := Trusted(w.phone, |w.server.rows|, Session(w.made, Some(w.server.issued))), made := w.made + 1,
         story := Pairing(|w.server.rows|, expires, [], [], [], false))
    case Loses(unpairs) =>
      w.(phone := Forgot(w.phone), story := if w.story.Pairing? then w.story.(quit := true) else w.story,
         strays := if unpairs && w.phone.session.Some? && w.phone.session.value.refresh.Some?
                   then w.strays + {w.phone.session.value.refresh.value} else w.strays)
    case Asks(id) =>
      var (phone, flight) := Renews(w.phone, id);
      w.(phone := phone, flights := if flight.Some? then w.flights[id := flight.value] else w.flights)
    case Lands(id, now, tunnelled) => Landed(w, id, now, tunnelled)
    case Drops(id) => w.(flights := w.flights[id := w.flights[id].(answer := None)])
    case GivesUp(id) => w.(flights := w.flights[id := Over])
    case Answers(id) => Delivered(w, id)
    case Settles(id) => w.(flights := w.flights - {id}, phone := w.phone.(renewing := None))
    case StrayLands(token, now, tunnelled) => w.(server := Hit(w.server, token, now, tunnelled).0, clock := now)
    case Elsewhere(token, now, tunnelled) => w.(server := Hit(w.server, token, now, tunnelled).0, clock := now)
    case OtherSignIn(entry) => w.(server := SignedIn(w.server, entry))
  }

  function Step(w: World, a: Action): World {
    if Enabled(w, a) then Apply(w, a) else w
  }

  function Run(acts: seq<Action>): World {
    if acts == [] then START else Step(Run(acts[..|acts| - 1]), acts[|acts| - 1])
  }

  // The invariant.

  /** The phone has a pairing it has not given up, whether or not the server has ended it. */
  predicate Paired(w: World) {
    w.story.Pairing? && !w.story.quit
  }

  /** Every renewal that is running or unsettled is the one in the slot. */
  ghost predicate SlotHolds(w: World) {
    forall id :: id in w.flights <==> w.phone.renewing == Some(id)
  }

  ghost predicate FlightHolds(w: World, f: Flight) {
    f.Asking? ==>
      && f.held.refresh == Some(f.token) && f.held.id < w.made && f.token < w.server.issued
      && (Paired(w) ==>
            if Ours(w, f) then
              w.phone.profile == Some(f.asked) && (f.answer.Some? ==> w.story.answers != [] && f.answer == Some(w.story.answers[|w.story.answers| - 1]))
            else !AtRow(w.server, w.story.row, f.token))
  }

  ghost predicate FlightsHold(w: World) {
    forall id :: id in w.flights ==> FlightHolds(w, w.flights[id])
  }

  ghost predicate StraysHold(w: World) {
    forall t :: t in w.strays ==> t < w.server.issued && (Paired(w) ==> !AtRow(w.server, w.story.row, t))
  }

  /** When the sign-in runs out after these renewals, each answered at its last landing. */
  function ExpiryAfter(closed: seq<seq<Attempt>>, first: int): int
    decreases |closed|
  {
    if closed == [] then first
    else
      var landings := Landings(closed[0]);
      ExpiryAfter(closed[1..], if landings == [] then first else landings[|landings| - 1] + REFRESH_TTL_MS)
  }

  /** The phone holds its pairing exactly while every answered renewal was in time, and then its token is where
      the attempts made with it since have left it. */
  ghost predicate StoryHolds(server: Server, phone: Phone, story: Story, clock: int)
    requires story.Pairing?
  {
    && (forall k :: 0 <= k < |story.closed| ==> Landings(story.closed[k]) != [])
    && if phone.session.Some? then
         && phone.session.value.refresh.Some? && AllInTime(story.closed, story.first)
         && Stage(server, story.row, phone.session.value.refresh.value, ExpiryAfter(story.closed, story.first), Landings(story.open), story.answers)
         && Ascending(Landings(story.open)) && (forall k :: 0 <= k < |Landings(story.open)| ==> Landings(story.open)[k] <= clock)
       else !AllInTime(story.closed, story.first)
  }

  ghost predicate Inv(w: World) {
    && Unique(w.server) && SlotHolds(w) && FlightsHold(w) && StraysHold(w)
    && (w.phone.session.Some? ==> Paired(w) && w.phone.session.value.id < w.made)
    && (Paired(w) ==> w.story.row < |w.server.rows| && StoryHolds(w.server, w.phone, w.story, w.clock))
  }

  // The server's side of a step.

  /** A refresh touches only the row its token is at, and leaves there that token and a new one. */
  lemma HitRow(s: Server, token: Token, now: int, tunnelled: bool, i: nat)
    requires i < |s.rows|
    ensures
      var n := Hit(s, token, now, tunnelled).0;
      && |n.rows| == |s.rows| && n.issued == s.issued + 1
      && (!AtRow(s, i, token) ==> n.rows[i] == s.rows[i])
      && forall t :: AtRow(n, i, t) ==> AtRow(s, i, t) || (AtRow(s, i, token) && (t == token || t == s.issued))
  {
  }

  lemma SignedInUnique(s: Server, entry: Row)
    requires Unique(s)
    ensures Unique(SignedIn(s, entry))
  {
    var n, last := SignedIn(s, entry), |s.rows|;
    forall k, t: Token ensures IsCurrent(n.rows, k, t) <==> IsCurrent(s.rows, k, t) || (k == last && t == s.issued) {}
    forall k, t: Token ensures IsPrevious(n.rows, k, t) <==> IsPrevious(s.rows, k, t) {}
  }

  lemma StageKept(s: Server, n: Server, i: nat, token: Token, expires: int, landings: seq<int>, answers: seq<Answer>)
    requires Stage(s, i, token, expires, landings, answers) && Unique(n) && i < |s.rows| && i < |n.rows| && n.rows[i] == s.rows[i]
    ensures Stage(n, i, token, expires, landings, answers)
  {
  }

  /** While the phone is paired its token is at its row. */
  lemma StageAtRow(s: Server, i: nat, token: Token, expires: int, landings: seq<int>, answers: seq<Answer>)
    requires Stage(s, i, token, expires, landings, answers)
    ensures AtRow(s, i, token)
  {
  }

  // Renewals one after another.

  lemma {:induction false} OneMoreRenewal(closed: seq<seq<Attempt>>, e: seq<Attempt>, first: int)
    requires (forall k :: 0 <= k < |closed| ==> Landings(closed[k]) != []) && Landings(e) != []
    ensures AllInTime(closed + [e], first) <==> AllInTime(closed, first) && InTime(Landings(e), ExpiryAfter(closed, first))
    ensures ExpiryAfter(closed + [e], first) == Landings(e)[|Landings(e)| - 1] + REFRESH_TTL_MS
    decreases |closed|
  {
    if closed == [] {
      assert [e][1..] == [] && closed + [e] == [e];
    } else {
      var landings := Landings(closed[0]);
      OneMoreRenewal(closed[1..], e, landings[|landings| - 1] + REFRESH_TTL_MS);
      assert (closed + [e])[1..] == closed[1..] + [e];
    }
  }

  lemma LandingsNext(open: seq<Attempt>, now: int, tunnelled: bool)
    ensures Landings(open + [Attempt(Some(now), tunnelled, false)]) == Landings(open) + [now]
  {
    assert (open + [Attempt(Some(now), tunnelled, false)])[..|open|] == open;
  }

  // The steps.

  lemma OursKeepsOthers(w: World, id: nat, now: int, tunnelled: bool)
    requires Inv(w) && Enabled(w, Lands(id, now, tunnelled)) && Ours(w, w.flights[id]) && AtRow(w.server, w.story.row, w.flights[id].token)
    ensures var n := Landed(w, id, now, tunnelled); SlotHolds(n) && FlightsHold(n) && StraysHold(n)
  {
    var n := Landed(w, id, now, tunnelled);
    assert FlightHolds(w, w.flights[id]);
    HitRow(w.server, w.flights[id].token, now, tunnelled, w.story.row);
    forall x | x in n.flights ensures FlightHolds(n, n.flights[x]) { assert x == id; }
  }

  lemma OursStage(w: World, id: nat, now: int, tunnelled: bool)
    requires Inv(w) && Enabled(w, Lands(id, now, tunnelled)) && Ours(w, w.flights[id])
    ensures AtRow(w.server, w.story.row, w.flights[id].token)
    ensures
      var n := Landed(w, id, now, tunnelled);
      && Unique(n.server)
      && Stage(n.server, w.story.row, w.flights[id].token, ExpiryAfter(w.story.closed, w.story.first), Landings(n.story.open), n.story.answers)
      && Landings(n.story.open) == Landings(w.story.open) + [now]
  {
    var f, story := w.flights[id], w.story;
    assert FlightHolds(w, f);
    var expires := ExpiryAfter(story.closed, story.first);
    StageAtRow(w.server, story.row, f.token, expires, Landings(story.open), story.answers);
    OneMore(w.server, story.row, f.token, expires, Landings(story.open), story.answers, now, tunnelled);
    LandingsNext(story.open, now, tunnelled);
  }

  /** An attempt of the phone's own renewal lands. */
  lemma OursLands(w: World, id: nat, now: int, tunnelled: bool)
    requires Inv(w) && Enabled(w, Lands(id, now, tunnelled)) && Ours(w, w.flights[id])
    ensures Inv(Landed(w, id, now, tunnelled))
  {
    OursStage(w, id, now, tunnelled);
    OursKeepsOthers(w, id, now, tunnelled);
    assert FlightHolds(w, w.flights[id]);
    HitRow(w.server, w.flights[id].token, now, tunnelled, w.story.row);
  }

  /** A refresh of a token that is not at the phone's row leaves the pairing as it is. */
  lemma ElsewhereLands(w: World, token: Token, now: int, tunnelled: bool)
    requires Inv(w) && now >= w.clock && (Paired(w) ==> !AtRow(w.server, w.story.row, token))
    ensures Inv(w.(server := Hit(w.server, token, now, tunnelled).0, clock := now))
    ensures Paired(w) ==> Hit(w.server, token, now, tunnelled).0.rows[w.story.row] == w.server.rows[w.story.row]
  {
    var n := w.(server := Hit(w.server, token, now, tunnelled).0, clock := now);
    HitKeepsUnique(w.server, token, now, tunnelled);
    if Paired(w) {
      HitRow(w.server, token, now, tunnelled, w.story.row);
      forall id | id in n.flights ensures FlightHolds(n, n.flights[id]) { assert FlightHolds(w, w.flights[id]); }
      if w.phone.session.Some? {
        StageKept(w.server, n.server, w.story.row, w.phone.session.value.refresh.value, ExpiryAfter(w.story.closed, w.story.first), Landings(w.story.open), w.story.answers);
      }
    } else {
      forall id | id in n.flights ensures FlightHolds(n, n.flights[id]) { assert FlightHolds(w, w.flights[id]); }
    }
  }

  /** So does an attempt of a renewal for a session the phone no longer holds. */
  lemma StaleLands(w: World, id: nat, now: int, tunnelled: bool)
    requires Inv(w) && Enabled(w, Lands(id, now, tunnelled)) && !Ours(w, w.flights[id])
    ensures Inv(Landed(w, id, now, tunnelled))
  {
    var f := w.flights[id];
    assert FlightHolds(w, f);
    ElsewhereLands(w, f.token, now, tunnelled);
    var m, n := w.(server := Hit(w.server, f.token, now, tunnelled).0, clock := now), Landed(w, id, now, tunnelled);
    forall x | x in n.flights ensures FlightHolds(n, n.flights[x]) {
      assert FlightHolds(m, m.flights[x]);
    }
  }

  /** The answer of the phone's own renewal: it moves on with the new token, or the pairing is over. */
  lemma OursAnswers(w: World, id: nat)
    requires Inv(w) && Enabled(w, Answers(id)) && Ours(w, w.flights[id])
    ensures Inv(Delivered(w, id))
  {
    var f, story, n := w.flights[id], w.story, Delivered(w, id);
    assert FlightHolds(w, f);
    var expires := ExpiryAfter(story.closed, story.first);
    OneMoreRenewal(story.closed, story.open, story.first);
    assert Landings([]) == [];
    forall x | x in n.flights ensures FlightHolds(n, n.flights[x]) { assert x == id; }
    forall k | 0 <= k < |n.story.closed| ensures Landings(n.story.closed[k]) != [] {}
  }

  lemma StaleAnswers(w: World, id: nat)
    requires Inv(w) && Enabled(w, Answers(id)) && !Ours(w, w.flights[id])
    ensures Inv(Delivered(w, id)) && Delivered(w, id).phone == w.phone
  {
    var n := Delivered(w, id);
    forall x | x in n.flights ensures FlightHolds(n, n.flights[x]) { assert x == id; }
  }

  lemma SignInHolds(w: World, entry: Row)
    requires Inv(w)
    ensures Inv(w.(server := SignedIn(w.server, entry)))
  {
    var n := w.(server := SignedIn(w.server, entry));
    SignedInUnique(w.server, entry);
    forall id | id in n.flights ensures FlightHolds(n, n.flights[id]) { assert FlightHolds(w, w.flights[id]); }
    if w.phone.session.Some? {
      StageKept(w.server, n.server, w.story.row, w.phone.session.value.refresh.value, ExpiryAfter(w.story.closed, w.story.first), Landings(w.story.open), w.story.answers);
    }
  }

  lemma TrustHolds(w: World, expires: int)
    requires Inv(w)
    ensures Inv(Apply(w, Trusts(expires)))
  {
    var n := Apply(w, Trusts(expires));
    SignedInUnique(w.server, PhoneRow(expires));
    forall id | id in n.flights ensures FlightHolds(n, n.flights[id]) { assert FlightHolds(w, w.flights[id]); }
    assert Landings([]) == [];
  }

  lemma LoseHolds(w: World, unpairs: bool)
    requires Inv(w)
    ensures Inv(Apply(w, Loses(unpairs)))
  {
    var n := Apply(w, Loses(unpairs));
    forall id | id in n.flights ensures FlightHolds(n, n.flights[id]) { assert FlightHolds(w, w.flights[id]); }
    if w.phone.session.Some? {
      StageAtRow(w.server, w.story.row, w.phone.session.value.refresh.value, ExpiryAfter(w.story.closed, w.story.first), Landings(w.story.open), w.story.answers);
    }
  }

  /** The steps of the slot: a renewal begins only when none is under way, and frees it at its end. */
  lemma SlotStepHolds(w: World, a: Action)
    requires Inv(w) && Enabled(w, a) && (a.Asks? || a.Drops? || a.GivesUp? || a.Settles?)
    ensures Inv(Apply(w, a))
  {
    var n := Apply(w, a);
    forall id | id in n.flights ensures FlightHolds(n, n.flights[id]) {
      if id in w.flights { assert FlightHolds(w, w.flights[id]); }
      if Paired(w) && w.phone.session.Some? {
        StageAtRow(w.server, w.story.row, w.phone.session.value.refresh.value, ExpiryAfter(w.story.closed, w.story.first), Landings(w.story.open), w.story.answers);
      }
    }
  }

  /** Every step keeps the invariant. */
  lemma StepHolds(w: World, a: Action)
    requires Inv(w)
    ensures Inv(Step(w, a))
  {
    if Enabled(w, a) {
      match a
      case Trusts(expires) => TrustHolds(w, expires);
      case Loses(unpairs) => LoseHolds(w, unpairs);
      case Lands(id, now, tunnelled) =>
        if Ours(w, w.flights[id]) { OursLands(w, id, now, tunnelled); } else { StaleLands(w, id, now, tunnelled); }
      case Answers(id) => if Ours(w, w.flights[id]) { OursAnswers(w, id); } else { StaleAnswers(w, id); }
      case StrayLands(token, now, tunnelled) => ElsewhereLands(w, token, now, tunnelled);
      case Elsewhere(token, now, tunnelled) => ElsewhereLands(w, token, now, tunnelled);
      case OtherSignIn(entry) => SignInHolds(w, entry);
      case _ => SlotStepHolds(w, a);
    }
  }

  lemma {:induction false} RunHolds(acts: seq<Action>)
    ensures Inv(Run(acts))
  {
    if acts == [] {
    } else {
      var last := |acts| - 1;
      RunHolds(acts[..last]);
      StepHolds(Run(acts[..last]), acts[last]);
    }
  }

  /** Whatever comes between, at most one renewal runs at a time, and the one that asks for the session the
      phone holds presents its token. */
  lemma OneRenewalAtATime(acts: seq<Action>, x: nat, y: nat)
    ensures
      var w := Run(acts);
      && (x in w.flights && y in w.flights ==> x == y)
      && (x in w.flights && Ours(w, w.flights[x]) ==> w.phone.session.value.refresh == Some(w.flights[x].token) && w.phone.profile == Some(w.flights[x].asked))
  {
    RunHolds(acts);
    var w := Run(acts);
    if x in w.flights { assert FlightHolds(w, w.flights[x]); }
  }

  /** Over every interleaving of renewals, forgettings and pairings, with other devices at the server: a phone
      that has not unpaired is still paired exactly when each of its answered renewals was in time, and
      with no attempt unanswered it then holds its row's current token. */
  lemma PairedExactlyInTime(acts: seq<Action>)
    requires Paired(Run(acts))
    ensures
      var w := Run(acts);
      var story := w.story;
      && (w.phone.session.Some? <==> AllInTime(story.closed, story.first))
      && (forall k :: 0 <= k < |story.closed| ==> Landings(story.closed[k]) != [])
      && (w.phone.session.Some? && Landings(story.open) == [] ==>
            && w.phone.session.value.refresh.Some?
            && InStep(w.server, story.row, w.phone.session.value.refresh.value, ExpiryAfter(story.closed, story.first)))
  {
    RunHolds(acts);
  }

  /** An answer that comes when the phone has forgotten or replaced what it was asked for changes nothing it
      holds, and leaves the pairing it has now as it is. */
  lemma LateAnswerIsDropped(acts: seq<Action>, id: nat)
    requires Enabled(Run(acts), Answers(id)) && !Ours(Run(acts), Run(acts).flights[id])
    ensures
      var n := Run(acts + [Answers(id)]);
      n.phone == Run(acts).phone && n.story == Run(acts).story && n.server == Run(acts).server
  {
    RunHolds(acts);
    StaleAnswers(Run(acts), id);
    assert (acts + [Answers(id)])[..|acts|] == acts;
  }

  /** The attempts made with a token since it was taken are the only refreshes of it at the server, and stand
      as one renewal: its last answer is a new token exactly when they were in time. */
  lemma OpenRenewalIsOne(acts: seq<Action>)
    requires Paired(Run(acts)) && Run(acts).phone.session.Some? && Landings(Run(acts).story.open) != []
    ensures
      var story := Run(acts).story;
      && |story.answers| == |Landings(story.open)| && Ascending(Landings(story.open))
      && (story.answers[|story.answers| - 1].Ok? <==> InTime(Landings(story.open), ExpiryAfter(story.closed, story.first)))
  {
    RunHolds(acts);
    var w := Run(acts);
    assert StoryHolds(w.server, w.phone, w.story, w.clock);
    StageAnswers(w.server, w.story.row, w.phone.session.value.refresh.value, ExpiryAfter(w.story.closed, w.story.first), Landings(w.story.open), w.story.answers);
  }

  lemma StageAnswers(server: Server, row: nat, token: Token, expires: int, landings: seq<int>, answers: seq<Answer>)
    requires Stage(server, row, token, expires, landings, answers) && landings != []
    ensures |answers| == |landings| && (answers[|answers| - 1].Ok? <==> InTime(landings, expires))
  {
  }
}
