/** Following cross-realm referrals to a service ticket (src/client/transport.rs:676-747). */
module Referral {
  import opened Bytes
  import opened Sessions

  /** The resolved service, the nonce of every request, and the referral limit. */
  datatype Query = Query(service: Principal, nonce: nat, max: nat)

  /** The `n`-th answer of a network that may answer anything. */
  type Kdc = nat -> Reply

  /** The result, the requests sent, and the TGT each of them was sent with. */
  datatype Outcome = Outcome(result: Result<Session, Error>, sent: seq<Request>, tgts: seq<Session>)

  /** The request made with a TGT: for the service in its own realm, else for a TGT towards that realm. */
  function RequestWith(q: Query, tgt: Session): Request
    requires IsTgt(tgt.service)
  {
    var realm := TgtRealm(tgt).value;
    Request(tgt.client, realm,
            if realm == q.service.realm then q.service
            else Principal(realm, NT_SRV_INST, [KRBTGT, q.service.realm]),
            q.nonce)
  }

  /** The rest of the loop from its `k`-th pass. */
  function Follow(q: Query, kdc: Kdc, tgt: Session, k: nat): Outcome
    requires IsTgt(tgt.service) && k <= q.max
    decreases q.max - k
  {
    var request := RequestWith(q, tgt);
    match Process(request, kdc(k), true)
    case Err(e) => Outcome(Err(e), [request], [tgt])
    case Ok(ticket) =>
      if Matches(ticket.service, q.service) then Outcome(Ok(ticket), [request], [tgt])
      else if !IsTgt(ticket.service) then Outcome(Err(ServicePrincipalMismatch), [request], [tgt])
      else if TgtRealm(ticket) == TgtRealm(tgt) then Outcome(Err(InvalidReferralTicket), [request], [tgt])
      else if k == q.max then Outcome(Err(MaxReferralDepth), [request], [tgt])
      else Before([request], [tgt], Follow(q, kdc, ticket, k + 1))
  }

  function Before(sent: seq<Request>, tgts: seq<Session>, o: Outcome): Outcome
  {
    Outcome(o.result, sent + o.sent, tgts + o.tgts)
  }

  // ------------------------------------------------------------------
  // Safety of every run

  /** Every request goes to the realm its TGT names, as that TGT's client. */
  predicate EachToItsRealm(q: Query, sent: seq<Request>, tgts: seq<Session>)
  {
    && |sent| == |tgts|
    && forall i :: 0 <= i < |sent| ==> IsTgt(tgts[i].service) && sent[i] == RequestWith(q, tgts[i])
  }

  /** A request field by field: made with `tgt` for its client, it goes to the realm the TGT's service ends with,
      and asks for `target` there if that is its realm, else for a TGT towards the target's realm. */
  predicate Asks(target: Principal, nonce: nat, tgt: Session, request: Request)
  {
    var parts := tgt.service.components;
    && |parts| >= 2
    && request.kdcRealm == parts[|parts| - 1]
    && request.client == tgt.client
    && request.nonce == nonce
    && (request.kdcRealm == target.realm ==> request.service == target)
    && (request.kdcRealm != target.realm ==>
          && request.service.realm == request.kdcRealm
          && request.service.nameType == 2
          && request.service.components == [Ascii("krbtgt"), target.realm])
  }

  lemma RequestAsks(q: Query, tgt: Session)
    requires IsTgt(tgt.service)
    ensures Asks(q.service, q.nonce, tgt, RequestWith(q, tgt))
  {
    assert KRBTGT == Ascii("krbtgt");
  }

  /** The request asked with every TGT of a run. */
  predicate AllAsk(target: Principal, nonce: nat, sent: seq<Request>, tgts: seq<Session>)
  {
    |sent| == |tgts| && forall i :: 0 <= i < |sent| ==> Asks(target, nonce, tgts[i], sent[i])
  }

  lemma EachAsks(q: Query, sent: seq<Request>, tgts: seq<Session>)
    requires EachToItsRealm(q, sent, tgts)
    ensures AllAsk(q.service, q.nonce, sent, tgts)
  {
    hide Asks, RequestWith, IsTgt;
    forall i | 0 <= i < |sent| ensures Asks(q.service, q.nonce, tgts[i], sent[i]) {
      RequestAsks(q, tgts[i]);
    }
  }

  /** Each TGT after the first was accepted in answer to the request before it, for the same client, and
      moves to another realm. */
  ghost predicate Chain(kdc: Kdc, sent: seq<Request>, tgts: seq<Session>, from: nat)
    requires |sent| == |tgts|
  {
    forall i :: 0 < i < |tgts| ==> Link(kdc, sent[i - 1], tgts[i - 1], tgts[i], from + i - 1)
  }

  predicate Link(kdc: Kdc, request: Request, before: Session, after: Session, k: nat)
  {
    && Process(request, kdc(k), true) == Ok(after)
    && IsTgt(after.service) && TgtRealm(after) != TgtRealm(before) && Matches(after.client, before.client)
  }

  /** What the last answer was, for each way to end. */
  ghost predicate Ending(q: Query, kdc: Kdc, o: Outcome, from: nat)
    requires o.sent != [] && |o.tgts| == |o.sent| && IsTgt(o.tgts[|o.tgts| - 1].service)
  {
    var n := |o.sent| - 1;
    var answer := Process(o.sent[n], kdc(from + n), true);
    match o.result
    case Ok(ticket) =>
      && answer == Ok(ticket)
      && Matches(ticket.service, q.service) && Matches(ticket.client, o.tgts[n].client)
      && (!IsTgt(q.service) ==> o.sent[n].kdcRealm == q.service.realm && o.sent[n].service == q.service)
    case Err(e) =>
      || answer == Err(e)
      || (e == InvalidReferralTicket && answer.Ok? && TgtRealm(answer.value) == TgtRealm(o.tgts[n]))
      || (e == MaxReferralDepth && answer.Ok? && from + n == q.max
          && Link(kdc, o.sent[n], o.tgts[n], answer.value, from + n))
  }

  lemma {:induction false} FollowSafe(q: Query, kdc: Kdc, tgt: Session, k: nat)
    requires IsTgt(tgt.service) && k <= q.max
    ensures var o := Follow(q, kdc, tgt, k);
            && 1 <= |o.sent| <= q.max - k + 1
            && EachToItsRealm(q, o.sent, o.tgts) && o.tgts[0] == tgt
            && Chain(kdc, o.sent, o.tgts, k)
            && Ending(q, kdc, o, k)
    decreases q.max - k
  {
    hide IsTgt, Process, TgtRealm;
    var request := RequestWith(q, tgt);
    var answer := Process(request, kdc(k), true);
    if answer.Ok? { Answered(q, tgt, kdc(k)); }
    if answer.Ok? && !Matches(answer.value.service, q.service) && TgtRealm(answer.value) != TgtRealm(tgt) && k < q.max {
      var ticket := answer.value;
      FollowSafe(q, kdc, ticket, k + 1);
      var o := Follow(q, kdc, ticket, k + 1);
      Prefixed(q, kdc, tgt, o, k);
    }
  }

  lemma Prefixed(q: Query, kdc: Kdc, tgt: Session, o: Outcome, k: nat)
    requires IsTgt(tgt.service) && o.sent != []
    requires EachToItsRealm(q, o.sent, o.tgts) && Chain(kdc, o.sent, o.tgts, k + 1) && Ending(q, kdc, o, k + 1)
    requires Link(kdc, RequestWith(q, tgt), tgt, o.tgts[0], k)
    ensures var b := Before([RequestWith(q, tgt)], [tgt], o);
            EachToItsRealm(q, b.sent, b.tgts) && Chain(kdc, b.sent, b.tgts, k) && Ending(q, kdc, b, k)
  {
    hide IsTgt, Process, TgtRealm, Link, RequestWith, Matches;
    var b := Before([RequestWith(q, tgt)], [tgt], o);
    var n := |o.sent|;
    assert b.sent[n] == o.sent[n - 1] && b.tgts[n] == o.tgts[n - 1];
    forall i | 0 < i < |b.tgts| ensures Link(kdc, b.sent[i - 1], b.tgts[i - 1], b.tgts[i], k + i - 1) {
      if i > 1 {
        assert Link(kdc, o.sent[i - 2], o.tgts[i - 2], o.tgts[i - 1], k + 1 + (i - 1) - 1);
        assert b.sent[i - 1] == o.sent[i - 2] && b.tgts[i - 1] == o.tgts[i - 2] && b.tgts[i] == o.tgts[i - 1];
      }
    }
  }

  /** The loop's own mismatch error is never reached: an answer that passes the checks and is not the
      service is a TGT. And the ticket for a service that is no TGT comes from its own realm. */
  lemma Answered(q: Query, tgt: Session, r: Reply)
    requires IsTgt(tgt.service) && Process(RequestWith(q, tgt), r, true).Ok?
    ensures var ticket := Process(RequestWith(q, tgt), r, true).value;
            && Matches(ticket.client, tgt.client)
            && (Matches(ticket.service, q.service) || IsTgt(ticket.service))
            && (Matches(ticket.service, q.service) && !IsTgt(q.service)
                ==> TgtRealm(tgt) == Some(q.service.realm) && RequestWith(q, tgt).service == q.service)
  {
    AcceptedSession(RequestWith(q, tgt), r, true);
  }

  // ------------------------------------------------------------------
  // The method

  /** The service with its realm filled in: from the configuration, else from the TGT. */
  function Resolved(service: Principal, configured: Option<Name>, realm: Name): Principal
  {
    if service.realm != [] then service
    else service.(realm := if configured.Some? then configured.value else realm)
  }

  /** The service asked for: a realm it has is kept, else the configured one, else the TGT's own is put in. */
  function Target(tgt: Session, service: Principal, configured: Option<Name>): Principal
    requires tgt.service.components != []
  {
    var parts := tgt.service.components;
    Principal(if service.realm != [] then service.realm
              else if configured.Some? then configured.value
              else parts[|parts| - 1],
              service.nameType, service.components)
  }

  /** `get_service_ticket_with_referral_trace_limit`, its result and referral TGTs. */
  function Exchange(tgt: Session, service: Principal, configured: Option<Name>, nonce: nat, max: nat, kdc: Kdc): Outcome
  {
    if !IsTgt(tgt.service) then Outcome(Err(InvalidReferralTicket), [], [])
    else Follow(Query(Resolved(service, configured, TgtRealm(tgt).value), nonce, max), kdc, tgt, 0)
  }

  /** For any answers: at most `max` + 1 requests, each to the realm its TGT names; the TGTs are a chain
      of accepted referrals with consecutive realms distinct, at most `max` long after the first; the
      ticket is for the service asked for, and for a service that is no TGT it comes from its own realm. */
  lemma ExchangeSafe(tgt: Session, service: Principal, configured: Option<Name>, nonce: nat, max: nat, kdc: Kdc)
    requires IsTgt(tgt.service)
    ensures var q := Query(Resolved(service, configured, TgtRealm(tgt).value), nonce, max);
            var o := Exchange(tgt, service, configured, nonce, max, kdc);
            && 1 <= |o.sent| <= max + 1 && |o.tgts[1..]| <= max
            && EachToItsRealm(q, o.sent, o.tgts) && o.tgts[0] == tgt
            && AllAsk(Target(tgt, service, configured), nonce, o.sent, o.tgts)
            && Chain(kdc, o.sent, o.tgts, 0) && Ending(q, kdc, o, 0)
            && (o.result == Err(MaxReferralDepth) && Process(o.sent[|o.sent| - 1], kdc(|o.sent| - 1), true).Ok?
                ==> |o.sent| == max + 1)
            && forall i :: 0 <= i < |o.tgts| ==> Matches(o.tgts[i].client, tgt.client)
  {
    hide Process, TgtRealm, IsTgt, Follow;
    var q := Query(Resolved(service, configured, TgtRealm(tgt).value), nonce, max);
    FollowSafe(q, kdc, tgt, 0);
    var o := Exchange(tgt, service, configured, nonce, max, kdc);
    EachAsks(q, o.sent, o.tgts);
    assert q.service == Target(tgt, service, configured) by { TgtRealmIs(tgt); }
    SameClient(kdc, o.sent, o.tgts);
  }

  lemma {:induction false} SameClient(kdc: Kdc, sent: seq<Request>, tgts: seq<Session>)
    requires |sent| == |tgts| && tgts != [] && Chain(kdc, sent, tgts, 0)
    ensures forall i :: 0 <= i < |tgts| ==> Matches(tgts[i].client, tgts[0].client)
    decreases |tgts|
  {
    hide Process, TgtRealm, IsTgt;
    var n := |tgts| - 1;
    if n > 0 {
      forall i | 0 < i < n ensures Link(kdc, sent[..n][i - 1], tgts[..n][i - 1], tgts[..n][i], 0 + i - 1) {
        assert Link(kdc, sent[i - 1], tgts[i - 1], tgts[i], 0 + i - 1);
      }
      SameClient(kdc, sent[..n], tgts[..n]);
      assert Link(kdc, sent[n - 1], tgts[n - 1], tgts[n], 0 + n - 1);
      assert forall i :: 0 <= i < n ==> tgts[..n][i] == tgts[i];
    }
  }

  /** What a run asks for, and what it brings, in terms of the caller's arguments alone. */
  lemma ExchangeAsks(tgt: Session, service: Principal, configured: Option<Name>, nonce: nat, max: nat, kdc: Kdc)
    requires IsTgt(tgt.service)
    ensures var o := Exchange(tgt, service, configured, nonce, max, kdc);
            && AllAsk(Target(tgt, service, configured), nonce, o.sent, o.tgts)
            && (o.result.Ok? ==> SameName(o.result.value.service, Target(tgt, service, configured)))
  {
    hide Exchange, AllAsk, IsTgt, Chain, EachToItsRealm;
    TgtRealmIs(tgt);
    ExchangeSafe(tgt, service, configured, nonce, max, kdc);
  }

  lemma BeforeNone(o: Outcome)
    ensures Before([], [], o) == o
  {
    assert [] + o.sent == o.sent && [] + o.tgts == o.tgts;
  }

  lemma BeforeOne(sent: seq<Request>, tgts: seq<Session>, request: Request, tgt: Session, o: Outcome)
    ensures Before(sent, tgts, Before([request], [tgt], o)) == Before(sent + [request], tgts + [tgt], o)
  {
    assert sent + ([request] + o.sent) == (sent + [request]) + o.sent;
    assert tgts + ([tgt] + o.tgts) == (tgts + [tgt]) + o.tgts;
  }

  /** One pass of the loop by its outcomes. */
  lemma FollowPass(q: Query, kdc: Kdc, tgt: Session, k: nat)
    requires IsTgt(tgt.service) && k <= q.max
    ensures var request := RequestWith(q, tgt);
            var answer := Process(request, kdc(k), true);
            var o := Follow(q, kdc, tgt, k);
            if answer.Err? then o == Outcome(Err(answer.error), [request], [tgt])
            else if Matches(answer.value.service, q.service) then o == Outcome(answer, [request], [tgt])
            else if TgtRealm(answer.value).None? then o == Outcome(Err(ServicePrincipalMismatch), [request], [tgt])
            else if TgtRealm(answer.value) == TgtRealm(tgt) then
              o == Outcome(Err(InvalidReferralTicket), [request], [tgt])
            else if k == q.max then o == Outcome(Err(MaxReferralDepth), [request], [tgt])
            else o == Before([request], [tgt], Follow(q, kdc, answer.value, k + 1))
  {
    hide Process, IsTgt, TgtRealm, Matches, RequestWith, Before;
  }

  /** The loop; `used` are the TGTs of the requests, the first of them the caller's. */
  method GetServiceTicket(tgt: Session, service: Principal, configured: Option<Name>, nonce: nat, max: nat, kdc: Kdc)
    returns (r: Result<(Session, seq<Session>), Error>, ghost sent: seq<Request>, ghost used: seq<Session>)
    ensures var o := Exchange(tgt, service, configured, nonce, max, kdc);
            match o.result
            case Ok(ticket) => o.tgts != [] && r == Ok((ticket, o.tgts[1..]))
            case Err(e) => r == Err(e)
    ensures var o := Exchange(tgt, service, configured, nonce, max, kdc); sent == o.sent && used == o.tgts
    ensures IsTgt(tgt.service) ==> AllAsk(Target(tgt, service, configured), nonce, sent, used)
    ensures r.Ok? ==> SameName(r.value.0.service, Target(tgt, service, configured))
  {
    hide Process, AllAsk, SameName, Target, IsTgt, TgtRealm, Matches, Follow;
    if IsTgt(tgt.service) { ExchangeAsks(tgt, service, configured, nonce, max, kdc); }
    sent, used := [], [];
    var currentTgt := tgt;
    if TgtRealm(tgt).None? { return Err(InvalidReferralTicket), sent, used; }
    var currentRealm := TgtRealm(currentTgt).value;
    var target := service;
    if target.realm == [] {
      target := target.(realm := if configured.Some? then configured.value else currentRealm);
    }
    var targetRealm := target.realm;
    var referralTgts: seq<Session> := [];
    ghost var q := Query(target, nonce, max);
    BeforeNone(Follow(q, kdc, tgt, 0));
    for referrals := 0 to max + 1
      invariant TgtRealm(currentTgt) == Some(currentRealm)
      invariant |used| == |sent| == referrals && [tgt] + referralTgts == used + [currentTgt]
      invariant referrals <= max
      invariant Exchange(tgt, service, configured, nonce, max, kdc)
             == Before(sent, used, Follow(q, kdc, currentTgt, referrals))
    {
      var requested := if currentRealm == targetRealm then target
                       else Principal(currentRealm, NT_SRV_INST, [KRBTGT, targetRealm]);
      var request := Request(currentTgt.client, currentRealm, requested, nonce);
      var answer := Process(request, kdc(referrals), true);
      FollowPass(q, kdc, currentTgt, referrals);
      ghost var sentBefore, usedBefore := sent, used;
      sent, used := sent + [request], used + [currentTgt];
      assert used[1..] == referralTgts;
      if answer.Err? { return Err(answer.error), sent, used; }
      var ticket := answer.value;
      if Matches(ticket.service, target) { return Ok((ticket, referralTgts)), sent, used; }
      if TgtRealm(ticket).None? { return Err(ServicePrincipalMismatch), sent, used; }
      var referredRealm := TgtRealm(ticket).value;
      if referredRealm == currentRealm { return Err(InvalidReferralTicket), sent, used; }
      if referrals < max {
        BeforeOne(sentBefore, usedBefore, request, currentTgt, Follow(q, kdc, ticket, referrals + 1));
      }
      currentRealm := referredRealm;
      referralTgts := referralTgts + [ticket];
      currentTgt := ticket;
      if referrals == max { return Err(MaxReferralDepth), sent, used; }
    }
    return Err(MaxReferralDepth), sent, used;
  }
}
