/** A phone's request over its household's routes, from `src/lib/companion-request.ts`. */
module CompanionRequest {
  // The one resend after a renewal is from `src/lib/companion-session.ts`.
  import opened Picking
  import Rotation
  import opened Strings
  import opened Wrappers

  /** A trusted route; `edgeVersion` is its Access token's version when it takes one. */
  datatype Route = Route(id: nat, enabled: bool, edgeVersion: Option<nat>)

  datatype Credential = Credential(endpointId: nat, version: nat, secret: nat)

  /** What one exchange comes to: no response, or one with its status, whether it redirects to Access, and
      whether its body is FamilyFi's own error. */
  datatype Outcome = Failed | Response(status: int, toAccess: bool, ownError: bool)

  datatype Answer = Body | ApiError(status: int) | NoAnswer | NotAPath

  const REFRESH_PATH := "/api/v1/auth/refresh"
  const TIMEOUT_MS := 15_000
  const REFRESH_TIMEOUT_MS := 5_000

  predicate FailoverWrite(path: string) {
    path == "/api/v1/auth/login" || path == "/api/v1/auth/logout" || path == REFRESH_PATH
  }

  predicate SafeMethod(name: string) {
    UpperCase(name) == "GET" || UpperCase(name) == "HEAD"
  }

  /** Any route may take it: a read, or a write that changes nothing in the household. */
  predicate Retryable(name: string, path: string) {
    SafeMethod(name) || FailoverWrite(path)
  }

  /** A response from Cloudflare Access rather than FamilyFi. */
  predicate EdgeUnavailable(o: Outcome) {
    o.Response? && (if 300 <= o.status < 400 then o.toAccess else (o.status == 401 || o.status == 403) && !o.ownError)
  }

  /** FamilyFi itself answered. */
  predicate Answers(o: Outcome) {
    o.Response? && !EdgeUnavailable(o)
  }

  function AnswerOf(o: Outcome): Answer
    requires o.Response?
  {
    if o.status < 200 || o.status >= 300 then ApiError(o.status) else Body
  }

  function EdgeHeader(route: Route, credentials: seq<Credential>): Option<Credential> {
    if credentials == [] || route.edgeVersion.None? then None
    else if credentials[0].endpointId == route.id && credentials[0].version == route.edgeVersion.value then Some(credentials[0])
    else EdgeHeader(route, credentials[1..])
  }

  /** The enabled routes, those that are the active one or those that are not, in the manifest's order. */
  function Where(routes: seq<Route>, active: Option<nat>, isActive: bool): seq<Route> {
    if routes == [] then []
    else if routes[0].enabled && (Some(routes[0].id) == active) == isActive then [routes[0]] + Where(routes[1..], active, isActive)
    else Where(routes[1..], active, isActive)
  }

  function Enabled(routes: seq<Route>): seq<Route> {
    if routes == [] then []
    else if routes[0].enabled then [routes[0]] + Enabled(routes[1..])
    else Enabled(routes[1..])
  }

  function Ordered(routes: seq<Route>, active: Option<nat>): seq<Route> {
    Where(routes, active, true) + Where(routes, active, false)
  }

  /** One call of the transport. */
  datatype Sent = Sent(route: Route, token: Option<nat>, edge: Option<Credential>, timeoutMs: nat, outcome: Outcome)

  datatype Trial = Trial(sent: seq<Sent>, answer: Answer, via: Option<Route>)

  /** What its method and path make of a request: whether it is one for the household API, whether any route
      may take it, and how long each may take. */
  datatype Kind = Kind(household: bool, retryable: bool, timeoutMs: nat)

  function KindOf(name: string, path: string): Kind {
    Kind("/api/v1/" <= path, Retryable(name, path), if path == REFRESH_PATH then REFRESH_TIMEOUT_MS else TIMEOUT_MS)
  }

  /** What a request is made with: the bearer and Access credentials held, and the outcomes of its calls in
      order; a call past the end of those fails. */
  datatype Request = Request(kind: Kind, token: Option<nat>, credentials: seq<Credential>, script: seq<Outcome>)

  function OutcomeAt(script: seq<Outcome>, k: nat): Outcome {
    if k < |script| then script[k] else Failed
  }

  function SentOver(q: Request, route: Route, k: nat): Sent {
    Sent(route, q.token, EdgeHeader(route, q.credentials), q.kind.timeoutMs, OutcomeAt(q.script, k))
  }

  /** The loop over the routes, with `left` of them to go. */
  function From(q: Request, ordered: seq<Route>, left: nat): Trial
    requires left <= |ordered|
  {
    if left == 0 then Trial([], NoAnswer, None)
    else
      var k := |ordered| - left;
      var call := SentOver(q, ordered[k], k);
      if Answers(call.outcome) then Trial([call], AnswerOf(call.outcome), Some(ordered[k]))
      else if q.kind.retryable then
        var rest := From(q, ordered, left - 1);
        Trial([call] + rest.sent, rest.answer, rest.via)
      else Trial([call], NoAnswer, None)
  }

  function Try(q: Request, routes: seq<Route>, active: Option<nat>): Trial {
    var ordered := Ordered(routes, active);
    if q.kind.household then From(q, ordered, |ordered|) else Trial([], NotAPath, None)
  }

  lemma Joined(before: seq<Sent>, call: Sent, rest: seq<Sent>)
    ensures before + ([call] + rest) == before + [call] + rest
  {
  }

  method SendRequest(q: Request, routes: seq<Route>, active: Option<nat>) returns (trial: Trial)
    ensures trial == Try(q, routes, active)
  {
    if !q.kind.household { return Trial([], NotAPath, None); }
    var retryable := q.kind.retryable;
    var ordered := Ordered(routes, active);
    var sent: seq<Sent> := [];
    for k := 0 to |ordered|
      invariant var rest := From(q, ordered, |ordered| - k);
        From(q, ordered, |ordered|) == Trial(sent + rest.sent, rest.answer, rest.via)
    {
      var call := SentOver(q, ordered[k], k);
      var before := sent;
      sent := sent + [call];
      if Answers(call.outcome) { return Trial(sent, AnswerOf(call.outcome), Some(ordered[k])); }
      if !retryable { return Trial(sent, NoAnswer, None); }
      Joined(before, call, From(q, ordered, |ordered| - k - 1).sent);
    }
    assert sent + [] == sent;
    trial := Trial(sent, NoAnswer, None);
  }

  // One request.

  /** The calls go over the routes from place `k` on, in their order. */
  ghost predicate InTurn(q: Request, ordered: seq<Route>, k: nat, sent: seq<Sent>)
    requires k + |sent| <= |ordered|
  {
    forall j :: 0 <= j < |sent| ==> sent[j] == SentOver(q, ordered[k + j], k + j)
  }

  /** Only the last may be answered, and then says how and by which route. */
  ghost predicate EndsWithAnswer(t: Trial) {
    && (forall j :: 0 <= j < |t.sent| - 1 ==> !Answers(t.sent[j].outcome))
    && (t.via.Some? <==> t.sent != [] && Answers(t.sent[|t.sent| - 1].outcome))
    && (t.via.Some? ==> t.via.value == t.sent[|t.sent| - 1].route && t.answer == AnswerOf(t.sent[|t.sent| - 1].outcome))
    && (t.via.None? ==> t.answer == NoAnswer)
  }

  lemma {:induction false} FromFacts(q: Request, ordered: seq<Route>, left: nat)
    requires left <= |ordered|
    ensures
      var t := From(q, ordered, left);
      && |t.sent| <= left && InTurn(q, ordered, |ordered| - left, t.sent) && EndsWithAnswer(t)
      && (t.via.None? && q.kind.retryable ==> |t.sent| == left)
      && (!q.kind.retryable ==> |t.sent| <= 1)
  {
    if left > 0 {
      FromFacts(q, ordered, left - 1);
      var k := |ordered| - left;
      var rest := From(q, ordered, left - 1).sent;
      var sent := From(q, ordered, left).sent;
      forall j | 0 <= j < |sent| ensures sent[j] == SentOver(q, ordered[k + j], k + j) {
        if j > 0 && |sent| > 1 { assert sent[j] == rest[j - 1] && rest[j - 1] == SentOver(q, ordered[k + 1 + (j - 1)], k + 1 + (j - 1)); }
      }
    }
  }

  lemma {:induction false} WhereSplits(routes: seq<Route>, active: Option<nat>)
    ensures multiset(Where(routes, active, true)) + multiset(Where(routes, active, false)) == multiset(Enabled(routes))
  {
    if routes != [] { WhereSplits(routes[1..], active); }
  }

  lemma OrderedIsEnabled(routes: seq<Route>, active: Option<nat>)
    ensures multiset(Ordered(routes, active)) == multiset(Enabled(routes)) && |Ordered(routes, active)| == |Enabled(routes)|
  {
    WhereSplits(routes, active);
    assert |multiset(Ordered(routes, active))| == |multiset(Enabled(routes))|;
  }

  lemma {:induction false} ActiveLeads(routes: seq<Route>, active: Option<nat>)
    ensures forall r :: r in Where(routes, active, true) ==> Some(r.id) == active && r.enabled
    ensures forall r :: r in routes && r.enabled && Some(r.id) == active ==> r in Where(routes, active, true)
  {
    if routes != [] {
      ActiveLeads(routes[1..], active);
      assert routes == [routes[0]] + routes[1..];
    }
  }

  /** The route that last answered, when it is still enabled, is tried first. */
  lemma ActiveIsFirst(routes: seq<Route>, active: Option<nat>, r: Route)
    requires r in routes && r.enabled && Some(r.id) == active
    ensures Ordered(routes, active) != [] && Some(Ordered(routes, active)[0].id) == active
  {
    ActiveLeads(routes, active);
    assert Where(routes, active, true) != [];
    assert Where(routes, active, true)[0] in Where(routes, active, true);
  }

  /** An enabled route that is the one that last answered, or that is not. */
  function Wanted(active: Option<nat>, isActive: bool): Route -> bool {
    (r: Route) => r.enabled && (Some(r.id) == active) == isActive
  }

  lemma {:induction false} WhereAre(routes: seq<Route>, active: Option<nat>, isActive: bool)
    ensures AreThose(routes, Where(routes, active, isActive), Wanted(active, isActive))
  {
    var keep := Wanted(active, isActive);
    if routes == [] {
      assert Picked(routes, [], keep, []);
    } else {
      WhereAre(routes[1..], active, isActive);
      var at :| Picked(routes[1..], Where(routes[1..], active, isActive), keep, at);
      PickedMore(routes, Where(routes[1..], active, isActive), keep, at);
    }
  }

  /** The enabled routes in the manifest's order, but the one that last answered before the others. */
  lemma RoutesInOrder(routes: seq<Route>, active: Option<nat>)
    ensures exists first, others ::
              && Ordered(routes, active) == first + others
              && AreThose(routes, first, Wanted(active, true)) && AreThose(routes, others, Wanted(active, false))
  {
    WhereAre(routes, active, true);
    WhereAre(routes, active, false);
    assert Ordered(routes, active) == Where(routes, active, true) + Where(routes, active, false);
  }

  /** No answer of FamilyFi's: nothing at all, a redirect to Cloudflare Access, or a 401 or 403 whose body is not
      FamilyFi's own error. */
  predicate TurnedAway(o: Outcome) {
    match o
    case Failed => true
    case Response(status, toAccess, ownError) => (300 <= status < 400 && toAccess) || ((status == 401 || status == 403) && !ownError)
  }

  /** A trial stops at the first call that is answered, and says which route answered, with its body or its
      error's status; it has no answer when none was. */
  ghost predicate Reports(t: Trial) {
    && (forall j :: 0 <= j < |t.sent| && !TurnedAway(t.sent[j].outcome) ==> j == |t.sent| - 1 && t.via == Some(t.sent[j].route))
    && (t.via.Some? ==> t.sent != [] && SaysAnswer(t.sent[|t.sent| - 1].outcome, t.answer))
    && (t.answer == NoAnswer <==> t.via.None?)
  }

  predicate SaysAnswer(o: Outcome, answer: Answer) {
    !TurnedAway(o) && answer == if 200 <= o.status < 300 then Body else ApiError(o.status)
  }

  lemma EndReports(t: Trial)
    requires EndsWithAnswer(t)
    ensures Reports(t)
  {
    assert forall o :: TurnedAway(o) <==> !Answers(o);
  }

  lemma TrialOver(q: Request, ordered: seq<Route>)
    ensures
      var t := From(q, ordered, |ordered|);
      && |t.sent| <= |ordered| && (forall j :: 0 <= j < |t.sent| ==> t.sent[j].route == ordered[j])
      && Reports(t)
      && (t.answer == NoAnswer && q.kind.retryable ==> |t.sent| == |ordered|)
  {
    var t := From(q, ordered, |ordered|);
    FromFacts(q, ordered, |ordered|);
    forall j | 0 <= j < |t.sent| ensures t.sent[j].route == ordered[j] { assert t.sent[j] == SentOver(q, ordered[0 + j], 0 + j); }
    EndReports(t);
  }

  /** A request calls each enabled route at most once, in order; it stops at the first that answers, and gives no
      answer only when every route it could try failed or turned it away. Any path but the household API's is
      refused with no call. */
  lemma TriesEachRouteOnce(q: Request, routes: seq<Route>, active: Option<nat>)
    ensures
      var t := Try(q, routes, active);
      var ordered := Ordered(routes, active);
      if !q.kind.household then t == Trial([], NotAPath, None)
      else
        && multiset(ordered) == multiset(Enabled(routes))
        && |t.sent| <= |ordered| && (forall j :: 0 <= j < |t.sent| ==> t.sent[j].route == ordered[j])
        && Reports(t)
        && (t.answer == NoAnswer && q.kind.retryable ==> |t.sent| == |Enabled(routes)|)
  {
    var ordered := Ordered(routes, active);
    if q.kind.household {
      TrialOver(q, ordered);
      OrderedIsEnabled(routes, active);
    }
  }

  /** A credential for this route at its current version. */
  predicate OpensRoute(c: Credential, route: Route) {
    c.endpointId == route.id && Some(c.version) == route.edgeVersion
  }

  lemma {:induction false} EdgeHeaderIs(route: Route, credentials: seq<Credential>)
    ensures EdgeHeader(route, credentials).Some? ==> EdgeHeader(route, credentials).value in credentials && OpensRoute(EdgeHeader(route, credentials).value, route)
    ensures EdgeHeader(route, credentials).None? ==> forall c :: c in credentials ==> !OpensRoute(c, route)
  {
    if credentials != [] {
      EdgeHeaderIs(route, credentials[1..]);
      assert credentials == [credentials[0]] + credentials[1..];
    }
  }

  /** An Access credential goes to the route it is for, at that route's current version, and to no other; and a
      call goes without one only when none held is for its route. */
  lemma CredentialsStayHome(q: Request, routes: seq<Route>, active: Option<nat>, j: nat)
    requires j < |Try(q, routes, active).sent|
    ensures
      var call := Try(q, routes, active).sent[j];
      && (call.edge.Some? ==> call.edge.value in q.credentials && call.edge.value.endpointId == call.route.id && Some(call.edge.value.version) == call.route.edgeVersion)
      && (call.edge.None? ==> forall c :: c in q.credentials ==> !(c.endpointId == call.route.id && Some(c.version) == call.route.edgeVersion))
      && call.token == q.token
      && call.timeoutMs == q.kind.timeoutMs
  {
    FromFacts(q, Ordered(routes, active), |Ordered(routes, active)|);
    EdgeHeaderIs(Try(q, routes, active).sent[j].route, q.credentials);
  }

  lemma FirstCall(q: Request, ordered: seq<Route>, left: nat)
    requires 0 < left <= |ordered|
    ensures From(q, ordered, left).sent != []
  {
  }

  /** A request is called for on a second route exactly when it is one any route may take, there is a second
      enabled route, and the first gave no answer of FamilyFi's. */
  lemma MovesExactly(q: Request, routes: seq<Route>, active: Option<nat>)
    requires q.kind.household
    ensures |Try(q, routes, active).sent| >= 2 <==> q.kind.retryable && |Enabled(routes)| >= 2 && TurnedAway(OutcomeAt(q.script, 0))
  {
    var ordered := Ordered(routes, active);
    OrderedIsEnabled(routes, active);
    FromFacts(q, ordered, |ordered|);
    if |ordered| >= 2 { FirstCall(q, ordered, |ordered| - 1); }
  }

  /** `name` is `word` in whatever letter case, `word` being capitals. */
  predicate Spells(name: string, word: string) {
    |name| == |word| && forall k :: 0 <= k < |name| ==>
      name[k] == word[k] || ('a' <= name[k] <= 'z' && 'A' <= word[k] <= 'Z' && name[k] as int - 'a' as int == word[k] as int - 'A' as int)
  }

  lemma {:induction false} UpperSpells(name: string, word: string)
    requires forall k :: 0 <= k < |word| ==> 'A' <= word[k] <= 'Z'
    ensures UpperCase(name) == word <==> Spells(name, word)
  {
    if name != "" && word != "" {
      UpperSpells(name[1..], word[1..]);
      assert name == [name[0]] + name[1..] && word == [word[0]] + word[1..];
      assert UpperCase(name)[1..] == UpperCase(name[1..]);
      if Spells(name, word) {
        forall k | 0 <= k < |name[1..]| ensures name[1..][k] == name[k + 1] && word[1..][k] == word[k + 1] {}
        assert Spells(name[1..], word[1..]);
      }
      if Upper(name[0]) == word[0] && Spells(name[1..], word[1..]) {
        forall k | 0 < k < |name| ensures name[k] == name[1..][k - 1] && word[k] == word[1..][k - 1] {}
      }
    }
  }

  /** Any route may take a read, in whatever case its method is written, a sign-in, a sign-out or a refresh, and
      nothing else; a refresh alone gives up early on a route; and only the household API's paths are called. */
  lemma KindIs(name: string, path: string)
    ensures
      var kind := KindOf(name, path);
      && (kind.retryable <==> Spells(name, "GET") || Spells(name, "HEAD")
                              || path in {"/api/v1/auth/login", "/api/v1/auth/logout", "/api/v1/auth/refresh"})
      && kind.timeoutMs == (if path == "/api/v1/auth/refresh" then 5_000 else 15_000)
      && (kind.household <==> |path| >= 8 && path[..8] == "/api/v1/")
  {
    UpperSpells(name, "GET");
    UpperSpells(name, "HEAD");
  }

  lemma PostIsNoRead()
    ensures !SafeMethod("POST")
  {
    assert UpperCase("T") == "T" && UpperCase("ST") == "S" + UpperCase("T");
    assert UpperCase("OST") == "O" + UpperCase("ST") && UpperCase("POST") == "P" + UpperCase("OST");
    assert UpperCase("POST")[0] == 'P';
  }

  /** Whatever the transport does, a POST that is not a sign-in, a sign-out or a refresh is called for once at
      most: a household write that may have landed is never taken to another route. */
  lemma PostStaysOnOneRoute(q: Request, path: string, routes: seq<Route>, active: Option<nat>)
    requires !FailoverWrite(path) && q.kind == KindOf("POST", path)
    ensures |Try(q, routes, active).sent| <= 1
  {
    PostIsNoRead();
    if q.kind.household { MovesExactly(q, routes, active); }
  }

  /** The longest a request can take: each call in turn to its timeout. */
  function LongestWait(sent: seq<Sent>): nat {
    if sent == [] then 0 else sent[0].timeoutMs + LongestWait(sent[1..])
  }

  lemma {:induction false} WaitIs(sent: seq<Sent>, each: nat)
    requires forall j :: 0 <= j < |sent| ==> sent[j].timeoutMs == each
    ensures LongestWait(sent) == |sent| * each
  {
    if sent != [] { WaitIs(sent[1..], each); }
  }

  /** Over two routes a refresh is over within the grace of the token it presents. */
  lemma RefreshFitsGrace(q: Request, name: string, routes: seq<Route>, active: Option<nat>)
    requires q.kind == KindOf(name, REFRESH_PATH) && |Enabled(routes)| <= 2
    ensures LongestWait(Try(q, routes, active).sent) <= Rotation.GRACE_MS
  {
    var sent := Try(q, routes, active).sent;
    FromFacts(q, Ordered(routes, active), |Ordered(routes, active)|);
    OrderedIsEnabled(routes, active);
    WaitIs(sent, REFRESH_TIMEOUT_MS);
  }

  // A request of a signed-in phone.

  datatype Session = Session(token: nat, renewable: bool)

  /** What a renewal comes to: a new session; a refusal; the server's failing to answer it, in its own words; or
      no answer. */
  datatype Renewal = Renewed(next: Session) | Refused(status: int) | ServerFailed(status: int) | Unanswered

  /** What a renewal that gave no session throws. */
  function Thrown(r: Renewal): Answer {
    match r
    case Refused(status) => ApiError(status)
    case ServerFailed(status) => ApiError(status)
    case _ => NoAnswer
  }

  /** What happens around a request: a renewal first when the bearer is about to expire, the outcomes of its
      calls, the session held once they are over, a renewal then, and the route that last answered and the
      outcomes of the calls when it is sent again. */
  datatype Course = Course(first: Option<Renewal>, script: seq<Outcome>, meanwhile: Option<Session>, second: Renewal,
                           lastRoute: Option<nat>, rescript: seq<Outcome>)

  datatype Exchange = Exchange(sent: seq<Sent>, answer: Answer)

  function TokenOf(held: Option<Session>): Option<nat> {
    if held.Some? then Some(held.value.token) else None
  }

  function SignedTrial(kind: Kind, held: Option<Session>, credentials: seq<Credential>, script: seq<Outcome>,
                       routes: seq<Route>, active: Option<nat>): Trial {
    Try(Request(kind, TokenOf(held), credentials, script), routes, active)
  }

  /** The session a request is sent with, after any renewal first. */
  function SentWith(held: Option<Session>, course: Course): Option<Session> {
    if course.first.Some? && course.first.value.Renewed? then Some(course.first.value.next) else held
  }

  /** The session it is sent again with: the one meanwhile replaced, or a renewed one. */
  function ResentWith(held: Option<Session>, course: Course): Option<Session> {
    if TokenOf(course.meanwhile) == TokenOf(SentWith(held, course)) && course.second.Renewed? then Some(course.second.next)
    else course.meanwhile
  }

  /** `request`: renewed first when expiring, and sent once more after a 401. */
  function Exchanged(kind: Kind, held: Option<Session>, credentials: seq<Credential>,
                     routes: seq<Route>, active: Option<nat>, course: Course): Exchange {
    if course.first.Some? && course.first.value.Refused? then Exchange([], Thrown(course.first.value))
    else
      var now := SentWith(held, course);
      var t := SignedTrial(kind, now, credentials, course.script, routes, active);
      if t.answer != ApiError(401) || course.meanwhile.None? || !course.meanwhile.value.renewable then Exchange(t.sent, t.answer)
      else if TokenOf(course.meanwhile) == TokenOf(now) && !course.second.Renewed? then Exchange(t.sent, Thrown(course.second))
      else
        var again := SignedTrial(kind, ResentWith(held, course), credentials, course.rescript, routes, course.lastRoute);
        Exchange(t.sent + again.sent, again.answer)
  }

  method SignedRequest(kind: Kind, held: Option<Session>, credentials: seq<Credential>,
                       routes: seq<Route>, active: Option<nat>, course: Course) returns (x: Exchange)
    ensures x == Exchanged(kind, held, credentials, routes, active, course)
  {
    var session := held;
    if course.first.Some? {
      match course.first.value
      case Refused(status) => return Exchange([], ApiError(status));
      case Renewed(next) => session := Some(next);
      case ServerFailed(_) =>
      case Unanswered =>
    }
    var sentWith := TokenOf(session);
    var t := SendRequest(Request(kind, sentWith, credentials, course.script), routes, active);
    session := course.meanwhile;
    if t.answer != ApiError(401) || session.None? || !session.value.renewable { return Exchange(t.sent, t.answer); }
    if TokenOf(session) == sentWith {
      match course.second
      case Refused(status) => return Exchange(t.sent, ApiError(status));
      case ServerFailed(status) => return Exchange(t.sent, ApiError(status));
      case Unanswered => return Exchange(t.sent, NoAnswer);
      case Renewed(next) => session := Some(next);
    }
    var again := SendRequest(Request(kind, TokenOf(session), credentials, course.rescript), routes, course.lastRoute);
    x := Exchange(t.sent + again.sent, again.answer);
  }

  /** When a request is sent again, and what it is then answered: exactly when its first sending was answered
      401, the session then held can be renewed, and its bearer is no longer the one sent, or a renewal gave a
      new one. Sent again it goes with that bearer, from the route that last answered. Otherwise its answer is
      the first one, or what the renewal was answered. */
  lemma ResentExactly(kind: Kind, held: Option<Session>, credentials: seq<Credential>,
                      routes: seq<Route>, active: Option<nat>, course: Course, sent: Option<nat>, first: Trial, bearer: Option<nat>, again: Trial)
    requires !(course.first.Some? && course.first.value.Refused?)
    requires sent == match course.first
                     case Some(Renewed(next)) => Some(next.token)
                     case _ => (match held case Some(s) => Some(s.token) case None => None)
    requires first == Try(Request(kind, sent, credentials, course.script), routes, active)
    requires bearer == if course.meanwhile.Some? && Some(course.meanwhile.value.token) == sent && course.second.Renewed? then Some(course.second.next.token)
                       else if course.meanwhile.Some? then Some(course.meanwhile.value.token) else None
    requires again == Try(Request(kind, bearer, credentials, course.rescript), routes, course.lastRoute)
    ensures
      var x := Exchanged(kind, held, credentials, routes, active, course);
      var refused := first.answer == ApiError(401) && course.meanwhile.Some? && course.meanwhile.value.renewable;
      var replaced := refused && Some(course.meanwhile.value.token) != sent;
      if replaced || (refused && course.second.Renewed?) then x.sent == first.sent + again.sent && x.answer == again.answer
      else
        && x.sent == first.sent
        && (!refused ==> x.answer == first.answer)
        && (refused && course.second.Unanswered? ==> x.answer == NoAnswer)
        && (refused && course.second.Refused? ==> x.answer == ApiError(course.second.status))
        && (refused && course.second.ServerFailed? ==> x.answer == ApiError(course.second.status))
  {
  }

  /** A bearer about to expire whose renewal is refused ends the request there: nothing is sent. */
  lemma RefusedFirstIsNotSent(kind: Kind, held: Option<Session>, credentials: seq<Credential>,
                              routes: seq<Route>, active: Option<nat>, course: Course, status: int)
    requires course.first == Some(Refused(status))
    ensures Exchanged(kind, held, credentials, routes, active, course) == Exchange([], ApiError(status))
  {
  }

  /** A write refused unread is carried out once the session was renewed: the sending that follows is answered. */
  lemma RefusedWriteGetsThrough(kind: Kind, held: Session, credentials: seq<Credential>,
                                routes: seq<Route>, active: Option<nat>, course: Course, next: Session)
    requires kind.household && course.first.None? && course.meanwhile == Some(held) && held.renewable && course.second == Renewed(next)
    requires Enabled(routes) != [] && RefusedUnread(OutcomeAt(course.script, 0)) && Answers(OutcomeAt(course.rescript, 0))
    ensures
      var x := Exchanged(kind, Some(held), credentials, routes, active, course);
      && |x.sent| == 2 && x.sent[0].token == Some(held.token) && x.sent[1].token == Some(next.token)
      && x.answer == AnswerOf(OutcomeAt(course.rescript, 0))
  {
    OrderedIsEnabled(routes, active);
    OrderedIsEnabled(routes, course.lastRoute);
    AnsweredAtOnce(Request(kind, Some(held.token), credentials, course.script), routes, active);
    AnsweredAtOnce(Request(kind, Some(next.token), credentials, course.rescript), routes, course.lastRoute);
  }

  lemma AnsweredAtOnce(q: Request, routes: seq<Route>, active: Option<nat>)
    requires q.kind.household && Ordered(routes, active) != [] && Answers(OutcomeAt(q.script, 0))
    ensures
      var t := Try(q, routes, active);
      t.answer == AnswerOf(OutcomeAt(q.script, 0)) && |t.sent| == 1 && t.sent[0].token == q.token
  {
  }

  /** The server refused it as unauthenticated, in FamilyFi's own words, so before it changed anything. */
  predicate RefusedUnread(o: Outcome) {
    o.Response? && o.status == 401 && o.ownError
  }

  /** One sending of a household write. */
  lemma WriteTry(q: Request, routes: seq<Route>, active: Option<nat>)
    requires q.kind.household && !q.kind.retryable
    ensures
      var t := Try(q, routes, active);
      && |t.sent| <= 1 && (t.sent != [] ==> t.sent[0].token == q.token)
      && (t.answer == ApiError(401) ==> t.sent != [] && RefusedUnread(t.sent[0].outcome))
  {
    FromFacts(q, Ordered(routes, active), |Ordered(routes, active)|);
  }

  /** A household write is delivered at most once, whatever the transport and the renewals do: it is called
      for at most twice, the second time only after FamilyFi itself refused the first; so no two of its calls
      can both have changed the household. */
  lemma WriteIsDeliveredOnce(kind: Kind, held: Option<Session>, credentials: seq<Credential>,
                             routes: seq<Route>, active: Option<nat>, course: Course)
    requires kind.household && !kind.retryable
    ensures
      var sent := Exchanged(kind, held, credentials, routes, active, course).sent;
      && |sent| <= 2
      && (|sent| == 2 ==> RefusedUnread(sent[0].outcome))
      && forall i, j :: 0 <= i < j < |sent| ==> !(!RefusedUnread(sent[i].outcome) && !RefusedUnread(sent[j].outcome))
  {
    WriteTry(Request(kind, TokenOf(SentWith(held, course)), credentials, course.script), routes, active);
    WriteTry(Request(kind, TokenOf(ResentWith(held, course)), credentials, course.rescript), routes, course.lastRoute);
  }

  /** A write is sent again only with a bearer other than the refused one, as long as a renewal never hands
      out a bearer the phone has held. */
  lemma ResendIsRenewed(kind: Kind, held: Option<Session>, credentials: seq<Credential>,
                        routes: seq<Route>, active: Option<nat>, course: Course)
    requires kind.household && !kind.retryable
    requires course.second.Renewed? ==> Some(course.second.next.token) != TokenOf(SentWith(held, course))
    ensures
      var sent := Exchanged(kind, held, credentials, routes, active, course).sent;
      |sent| == 2 ==> sent[0].token != sent[1].token
  {
    WriteTry(Request(kind, TokenOf(SentWith(held, course)), credentials, course.script), routes, active);
    WriteTry(Request(kind, TokenOf(ResentWith(held, course)), credentials, course.rescript), routes, course.lastRoute);
  }
}
