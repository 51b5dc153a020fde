/** The allow-list gate of proxy.ts: a signed one-minute cookie in front of an RPC that
    says whether an address may enter. */
module AllowGate {
  import opened Wrappers
  import opened Text
  import opened Sequences

  const ALLOWLIST_TTL_SECONDS: int := 60

  /** What a cookie that verifies says. */
  datatype AllowEntry = AllowEntry(email: string, expiresAt: int)

  datatype RpcAnswer = RpcError | RpcSays(allowed: bool)

  datatype Verdict = Pass | AskRpc | Unavailable | Revoked

  function ReadAllowCookie(cookie: Option<AllowEntry>, now: int): Option<AllowEntry> {
    match cookie
    case None => None
    case Some(parsed) => if parsed.expiresAt > now + (ALLOWLIST_TTL_SECONDS + 60) * 1000 then None else Some(parsed)
  }

  function OnArrival(userEmail: string, cookie: Option<AllowEntry>, now: int): Verdict {
    var cached := ReadAllowCookie(cookie, now);
    if cached.Some? && Lower(cached.value.email) == userEmail && cached.value.expiresAt > now then Pass else AskRpc
  }

  function OnAnswer(answer: RpcAnswer): Verdict {
    match answer
    case RpcError => Unavailable
    case RpcSays(allowed) => if allowed then Pass else Revoked
  }

  /** The proxy's whole history as far as the gate is concerned. `signed` holds every
      entry the proxy ever signed, `waiting` the addresses with an RPC call out,
      `approvals` when the RPC said yes and for whom, which is a record of the answers and
      not of what the gate made of them, and `passes` the requests let through. */
  datatype Gate = Gate(
    clock: int,
    signed: set<AllowEntry>,
    waiting: multiset<string>,
    approvals: set<(string, int)>,
    passes: seq<(string, int)>)

  /** `Arrive` is a signed-in request reaching the gate with whatever cookie its client
      chose to send; `Answer` is the RPC's reply to a waiting one. */
  datatype Event =
    | Arrive(email: string, cookie: Option<AllowEntry>, at: int)
    | Answer(userEmail: string, answer: RpcAnswer, at: int)

  /** What can happen next: time does not run back, only requests that asked are answered,
      and a cookie verifies only if the proxy signed its entry at some earlier point, for
      this user or any other. */
  ghost predicate Possible(g: Gate, e: Event) {
    && g.clock <= e.at
    && (e.Arrive? && e.cookie.Some? ==> e.cookie.value in g.signed)
    && (e.Answer? ==> e.userEmail in g.waiting)
  }

  /** `canSign` is whether a signing key is configured. */
  function Step(g: Gate, e: Event, canSign: bool): Gate {
    match e
    case Arrive(email, cookie, at) =>
      var userEmail := Lower(email);
      if OnArrival(userEmail, cookie, at) == Pass then g.(clock := at, passes := g.passes + [(userEmail, at)])
      else g.(clock := at, waiting := g.waiting + multiset{userEmail})
    case Answer(userEmail, answer, at) =>
      var g' := g.(clock := at, waiting := g.waiting - multiset{userEmail},
                   approvals := g.approvals + if answer == RpcSays(true) then {(userEmail, at)} else {});
      if OnAnswer(answer) == Pass then
        g'.(passes := g.passes + [(userEmail, at)],
            signed := g.signed + if canSign then {AllowEntry(userEmail, at + ALLOWLIST_TTL_SECONDS * 1000)} else {})
      else g'
  }

  const START := Gate(0, {}, multiset{}, {}, [])

  ghost predicate Run(es: seq<Event>, canSign: bool)
    decreases |es|
  {
    es != [] ==>
      var front := es[..|es| - 1];
      Run(front, canSign) && Possible(After(front, canSign), es[|es| - 1])
  }

  ghost function After(es: seq<Event>, canSign: bool): Gate {
    if es == [] then START else Step(After(es[..|es| - 1], canSign), es[|es| - 1], canSign)
  }

  /** Some approval of this address is less than a minute old at time t. */
  ghost predicate FreshlyApproved(g: Gate, email: string, t: int) {
    exists t0 :: t - 60_000 < t0 <= t && (email, t0) in g.approvals
  }

  /** The invariant: every signed entry runs out one minute after an approval of exactly
      its address, and every pass so far rested on a fresh approval. */
  ghost predicate Sound(g: Gate) {
    && (forall s | s in g.signed :: (s.email, s.expiresAt - 60_000) in g.approvals && s.email == Lower(s.email))
    && (forall a | a in g.approvals :: a.1 <= g.clock)
    && (forall u | u in g.waiting :: u == Lower(u))
    && (forall i | 0 <= i < |g.passes| :: FreshlyApproved(g, g.passes[i].0, g.passes[i].1))
  }

  /** The verdict on an answer: through on a yes, unavailable on a failure of the RPC, revoked
      on a no. */
  lemma AnswerDecides(answer: RpcAnswer)
    ensures OnAnswer(answer) == Pass <==> answer == RpcSays(true)
    ensures OnAnswer(answer) == Unavailable <==> answer == RpcError
    ensures OnAnswer(answer) == Revoked <==> answer == RpcSays(false)
  {
  }

  lemma StepKeepsSound(g: Gate, e: Event, canSign: bool)
    requires Sound(g) && Possible(g, e)
    ensures Sound(Step(g, e, canSign))
  {
    var g2 := Step(g, e, canSign);
    if e.Arrive? { LowerIdempotent(e.email); }
    forall i | 0 <= i < |g2.passes| ensures FreshlyApproved(g2, g2.passes[i].0, g2.passes[i].1) {
      if i < |g.passes| {
        assert FreshlyApproved(g, g.passes[i].0, g.passes[i].1);
      } else if e.Arrive? {
        assert (e.cookie.value.email, e.cookie.value.expiresAt - 60_000) in g2.approvals;
      } else {
        assert (e.userEmail, e.at) in g2.approvals;
      }
    }
  }

  /** In every run, whatever cookies clients keep, share or replay: each request the gate
      let through belongs to an address the RPC approved less than a minute before. */
  lemma {:induction false} PassesAreFreshlyApproved(es: seq<Event>, canSign: bool)
    requires Run(es, canSign)
    ensures Sound(After(es, canSign))
    ensures var g := After(es, canSign); forall p | p in g.passes :: FreshlyApproved(g, p.0, p.1)
  {
    if es != [] {
      PassesAreFreshlyApproved(es[..|es| - 1], canSign);
      StepKeepsSound(After(es[..|es| - 1], canSign), es[|es| - 1], canSign);
    }
  }

  /** Revocation takes hold within a minute: if no yes for the address falls in the last
      minute of a run, a request arriving now is not let through on a cookie. */
  lemma RevokedWithinAMinute(es: seq<Event>, canSign: bool, e: Event)
    requires Run(es + [e], canSign) && e.Arrive?
    requires forall a | a in After(es, canSign).approvals && a.0 == Lower(e.email) :: a.1 <= e.at - 60_000
    ensures OnArrival(Lower(e.email), e.cookie, e.at) == AskRpc
  {
    assert (es + [e])[..|es|] == es;
    PassesAreFreshlyApproved(es, canSign);
  }

  lemma ApprovalStep(g: Gate, e: Event, canSign: bool, email: string, at: int)
    ensures (email, at) in Step(g, e, canSign).approvals
            <==> (email, at) in g.approvals || e == Answer(email, RpcSays(true), at)
  {
  }

  /** The approvals of a run are exactly its yes answers. */
  lemma {:induction false} ApprovalsAreYesAnswers(es: seq<Event>, canSign: bool, email: string, at: int)
    ensures (email, at) in After(es, canSign).approvals <==> Answer(email, RpcSays(true), at) in es
  {
    if es != [] {
      var front, e := es[..|es| - 1], es[|es| - 1];
      ApprovalsAreYesAnswers(front, canSign, email, at);
      ApprovalStep(After(front, canSign), e, canSign, email, at);
      LastOrBefore(es, Answer(email, RpcSays(true), at));
    }
  }

  /** So each request let through at t belongs to an address the RPC answered yes for at some
      time in the minute up to t. */
  lemma PassesRestOnYesAnswers(es: seq<Event>, canSign: bool, p: (string, int))
    requires Run(es, canSign) && p in After(es, canSign).passes
    ensures exists t0 :: p.1 - 60_000 < t0 <= p.1 && Answer(p.0, RpcSays(true), t0) in es
  {
    PassesAreFreshlyApproved(es, canSign);
    assert FreshlyApproved(After(es, canSign), p.0, p.1);
    var t0 :| p.1 - 60_000 < t0 <= p.1 && (p.0, t0) in After(es, canSign).approvals;
    ApprovalsAreYesAnswers(es, canSign, p.0, t0);
  }

  /** And the other way round: a yes lets its request through at once, any other answer lets
      none through. */
  lemma AnswersLetThroughIffYes(g: Gate, userEmail: string, answer: RpcAnswer, at: int, canSign: bool)
    ensures Step(g, Answer(userEmail, answer, at), canSign).passes
            == g.passes + if answer == RpcSays(true) then [(userEmail, at)] else []
  {
    AnswerDecides(answer);
    assert g.passes + [] == g.passes;
  }

  /** Answers that turned their request away. */
  function TurnedAway(es: seq<Event>): nat {
    if es == [] then 0 else
      var e := es[|es| - 1];
      TurnedAway(es[..|es| - 1]) + if e.Answer? && e.answer != RpcSays(true) then 1 else 0
  }

  function Arrivals(es: seq<Event>): nat {
    if es == [] then 0 else Arrivals(es[..|es| - 1]) + if es[|es| - 1].Arrive? then 1 else 0
  }

  /** No request is lost or decided twice: each has passed, waits for the RPC, or was turned
      away. */
  lemma {:induction false} EveryRequestIsDecidedOnce(es: seq<Event>, canSign: bool)
    requires Run(es, canSign)
    ensures |After(es, canSign).passes| + |After(es, canSign).waiting| + TurnedAway(es) == Arrivals(es)
  {
    if es != [] {
      var front, e := es[..|es| - 1], es[|es| - 1];
      EveryRequestIsDecidedOnce(front, canSign);
      var g := After(front, canSign);
      if e.Answer? {
        AnswerDecides(e.answer);
        assert |g.waiting - multiset{e.userEmail}| == |g.waiting| - 1;
      }
    }
  }

  /** When a cookie spares the RPC: it is this user's, has not run out, and runs out no
      later than a minute after the longest it could have been signed for. */
  lemma CookiePassesIff(userEmail: string, entry: AllowEntry, now: int)
    ensures OnArrival(userEmail, Some(entry), now) == Pass
            <==> Lower(entry.email) == userEmail && now < entry.expiresAt <= now + 120_000
    ensures OnArrival(userEmail, None, now) == AskRpc
  {
  }

  /** And the cookie does its work: after a yes the proxy has signed an entry, if it has a
      key, that spares that address the RPC for exactly the rest of the minute. */
  lemma OwnCookieSparesTheRpc(g: Gate, canSign: bool, email: string, at: int, now: int)
    requires at <= now
    ensures var userEmail, entry := Lower(email), AllowEntry(Lower(email), at + 60_000);
            && (canSign ==> entry in Step(g, Answer(userEmail, RpcSays(true), at), canSign).signed)
            && (OnArrival(userEmail, Some(entry), now) == Pass <==> now < at + 60_000)
  {
    LowerIdempotent(email);
    CookiePassesIff(Lower(email), AllowEntry(Lower(email), at + 60_000), now);
  }
}
