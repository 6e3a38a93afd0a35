/** What the client's methods answer, by the times of the sessions held, the names asked for and the replies that
    come (src/client.rs). */
module ClientTimes {
  import opened Bytes
  import opened Sessions
  import opened ClientState
  import Referral

  // ------------------------------------------------------------------
  // Which session stays

  /** The one of two sessions that stays in a slot: a valid one before one that is not, then the later end, and
      the one already there on a tie. */
  ghost predicate Stays(current: Option<Session>, candidate: Session, now: int, kept: Session)
  {
    if current.None? then kept == candidate
    else
      var a, b := current.value.grant, candidate.grant;
      var aValid, bValid := a.startTime <= now < a.endTime, b.startTime <= now < b.endTime;
      && (aValid && !bValid ==> kept == current.value)
      && (bValid && !aValid ==> kept == candidate)
      && (aValid == bValid && b.endTime <= a.endTime ==> kept == current.value)
      && (aValid == bValid && a.endTime < b.endTime ==> kept == candidate)
  }

  lemma PreferredStays(current: Option<Session>, candidate: Session, now: int)
    ensures Stays(current, candidate, now, Preferred(current, candidate, now))
  {
  }

  /** A service ticket filed under its key; nothing else changes. */
  ghost predicate TicketFiled(before: State, t: Session, now: int, after: State)
  {
    var key := CacheKey(t.service);
    && key in after.tickets
    && Stays(if key in before.tickets then Some(before.tickets[key]) else None, t, now, after.tickets[key])
    && after == before.(tickets := before.tickets[key := after.tickets[key]])
  }

  lemma CacheTicketFiles(s: State, t: Session, now: int)
    ensures TicketFiled(s, t, now, CacheTicket(s, t, now))
  {
    hide CacheKey, Preferred;
    var key := CacheKey(t.service);
    PreferredStays(Lookup(s.tickets, key), t, now);
  }

  /** A TGT filed under the realm its service ends with, as primary too where that is the client's; nothing else
      changes. What is no TGT is refused. */
  ghost predicate TgtFiled(before: State, t: Session, now: int, after: State, e: Option<Error>)
  {
    if !IsTgt(t.service) then after == before && e == Some(InvalidTgtSession)
    else
      var realm := t.service.components[|t.service.components| - 1];
      && e == None
      && realm in after.sessions
      && Stays(if realm in before.sessions then Some(before.sessions[realm]) else None, t, now, after.sessions[realm])
      && after == before.(sessions := before.sessions[realm := after.sessions[realm]],
                          tgt := if realm == before.client.realm then Some(after.sessions[realm]) else before.tgt)
  }

  lemma CacheTgtFiles(s: State, t: Session, now: int)
    requires Coherent(s)
    ensures TgtFiled(s, t, now, CacheTgt(s, t, now).0, CacheTgt(s, t, now).1)
  {
    hide IsTgt, Preferred, CacheKey, Stays;
    if IsTgt(t.service) {
      var realm := TgtRealm(t).value;
      var current := Lookup(s.sessions, realm);
      PreferredStays(current, t, now);
      PreferredTwice(current, t, now);
      assert realm == s.client.realm ==> s.tgt == current;
    }
  }

  lemma PreferredTwice(current: Option<Session>, candidate: Session, now: int)
    ensures Preferred(current, Preferred(current, candidate, now), now) == Preferred(current, candidate, now)
  {
    hide ValidAt;
  }

  // ------------------------------------------------------------------
  // Renewal

  /** The answer to asking the realm of a TGT to renew it. */
  function RenewAnswer(t: Session, realm: Name, w: World, reply: Reply): Result<Session, Error>
  {
    Process(Request(t.client, realm, Principal(realm, 2, [Ascii("krbtgt"), realm]), w.nonce), reply, false)
  }

  lemma RenewExchangeIs(t: Session, realm: Name, w: World, reply: Reply)
    requires TgtRealm(t) == Some(realm)
    ensures RenewExchange(t, w, reply) == RenewAnswer(t, realm, w, reply)
    ensures RenewAnswer(t, realm, w, reply).Ok? ==> TgtRealm(RenewAnswer(t, realm, w, reply).value) == Some(realm)
  {
    hide IsTgt, Process;
    assert KRBTGT == Ascii("krbtgt");
    RenewExchangeRealm(t, w, reply);
  }

  /** A renewed session replaces the one of its realm. If the realm is the client's it is the primary TGT too, and
      the service tickets go. A failure changes nothing. */
  ghost predicate RenewalIs(before: State, realm: Name, w: World, after: State, r: Result<Session, Error>)
  {
    if realm !in before.sessions then after == before && r == Err(NoTgtSession)
    else
      && r == RenewAnswer(before.sessions[realm], realm, w, w.renewTgt)
      && (r.Err? ==> after == before)
      && (r.Ok? ==> after == State(before.client, before.hasCredentials,
                                   if realm == before.client.realm then Some(r.value) else before.tgt,
                                   before.sessions[realm := r.value],
                                   if realm == before.client.realm then map[] else before.tickets))
  }

  lemma RenewRealmIs(s: State, realm: Name, w: World)
    requires Coherent(s)
    ensures RenewalIs(s, realm, w, RenewRealm(s, realm, w).0, RenewRealm(s, realm, w).1)
    ensures RenewTgt(s, w) == RenewRealm(s, s.client.realm, w)
  {
    hide IsTgt, Process, CacheKey, RenewExchange;
    RenewSound(s, s.client.realm, w);
    if s.client.realm in s.sessions { RenewExchangeIs(s.sessions[s.client.realm], s.client.realm, w, w.renewTgt); }
    if realm in s.sessions { RenewExchangeIs(s.sessions[realm], realm, w, w.renewTgt); }
  }

  /** Renewal on the way to a service ticket: only while it can still be renewed, keeping the service tickets, and
      with a failure counting as no session. */
  ghost predicate CachedRenewalIs(before: State, realm: Name, w: World, after: State,
                                  r: Result<Option<Session>, Error>)
  {
    if realm in before.sessions
       && before.sessions[realm].grant.renewTill.Some? && w.clock(3) < before.sessions[realm].grant.renewTill.value
       && RenewAnswer(before.sessions[realm], realm, w, w.renewCached).Ok? then
      var renewed := RenewAnswer(before.sessions[realm], realm, w, w.renewCached).value;
      && r == Ok(Some(renewed))
      && after == before.(sessions := before.sessions[realm := renewed],
                          tgt := if realm == before.client.realm then Some(renewed) else before.tgt)
    else after == before && r == Ok(None)
  }

  lemma RenewCachedIs(s: State, realm: Name, w: World)
    requires Coherent(s)
    ensures CachedRenewalIs(s, realm, w, RenewCached(s, realm, w).0, RenewCached(s, realm, w).1)
  {
    hide IsTgt, Process, CacheKey, RenewExchange;
    if realm in s.sessions { RenewExchangeIs(s.sessions[realm], realm, w, w.renewCached); }
  }

  // ------------------------------------------------------------------
  // The primary TGT

  /** A login. With credentials the reply's session or the better one held for its realm is all that is left.
      Without, the TGT held serves while it is valid, and else is renewed while it can be. */
  ghost predicate LoginIs(before: State, w: World, after: State, r: Result<Session, Error>)
  {
    var home := before.client.realm;
    if before.hasCredentials then
      var answer := Process(Request(before.client, home, Principal(home, 2, [Ascii("krbtgt"), home]), w.nonce),
                            w.login, false);
      if answer.Err? then after == before && r == answer
      else
        && r.Ok? && Stays(before.tgt, answer.value, w.clock(1), r.value)
        && after == State(before.client, true, Some(r.value), map[home := r.value], map[])
    else if before.tgt.None? then after == before && r == Err(NoClientCredentials)
    else
      var t := before.tgt.value.grant;
      if t.startTime <= w.clock(0) < t.endTime then after == before && r == Ok(before.tgt.value)
      else if t.renewTill.Some? && w.clock(0) < t.renewTill.value then RenewalIs(before, home, w, after, r)
      else after == before && r == Err(NoClientCredentials)
  }

  lemma LoginDoes(s: State, w: World)
    requires Coherent(s)
    ensures LoginIs(s, w, Login(s, w).0, Login(s, w).1)
  {
    hide IsTgt, Process, CacheKey, RenewTgt, RenewRealm, RenewalIs, Stays, Preferred, CacheTgt;
    RenewRealmIs(s, s.client.realm, w);
    assert KRBTGT == Ascii("krbtgt");
    var answer := Process(LoginRequest(s, w), w.login, false);
    if s.hasCredentials && answer.Ok? {
      LoginKeepsTheBetter(s, w);
      PreferredStays(s.tgt, answer.value, w.clock(1));
    }
  }

  /** A TGT that is valid now serves without an exchange; else it is renewed while it can be; else a login. */
  ghost predicate AffirmIs(before: State, w: World, after: State, r: Result<Session, Error>)
  {
    if before.tgt.None? then LoginIs(before, w, after, r)
    else
      var t := before.tgt.value.grant;
      if t.startTime <= w.clock(2) < t.endTime then after == before && r == Ok(before.tgt.value)
      else if t.renewTill.Some? && w.clock(2) < t.renewTill.value then
        RenewalIs(before, before.client.realm, w, after, r)
      else LoginIs(before, w, after, r)
  }

  lemma AffirmDoes(s: State, w: World)
    requires Coherent(s)
    ensures AffirmIs(s, w, AffirmLogin(s, w).0, AffirmLogin(s, w).1)
  {
    hide Coherent, Login, LoginIs, RenewTgt, RenewRealm, RenewalIs;
    LoginDoes(s, w);
    RenewRealmIs(s, s.client.realm, w);
    ExpectedIs(s);
  }

  lemma ExpectedIs(s: State)
    ensures s.tgt.Some? ==> Expected(s) == Ok(s.tgt.value)
  {
  }

  /** As above, but a TGT with a sixth of its lifetime or less ahead is renewed although it is valid; one that can
      neither be renewed nor be replaced by a login serves until it ends. */
  ghost predicate EnsureIs(before: State, w: World, after: State, r: Result<Session, Error>)
  {
    var now := w.clock(2);
    if before.tgt.None? then
      if before.hasCredentials then LoginIs(before, w, after, r)
      else after == before && r == Err(NoClientCredentials)
    else
      var t := before.tgt.value.grant;
      var valid := t.startTime <= now < t.endTime;
      var due := t.endTime <= now || t.endTime <= t.authTime || 6 * (t.endTime - now) <= t.endTime - t.authTime;
      if valid && !due then after == before && r == Ok(before.tgt.value)
      else if t.renewTill.Some? && now < t.renewTill.value then
        RenewalIs(before, before.client.realm, w, after, r)
      else if before.hasCredentials then LoginIs(before, w, after, r)
      else if valid then after == before && r == Ok(before.tgt.value)
      else after == before && r == Err(NoClientCredentials)
  }

  lemma EnsureDoes(s: State, w: World)
    requires Coherent(s)
    ensures EnsureIs(s, w, EnsureTgt(s, w).0, EnsureTgt(s, w).1)
  {
    hide Coherent, Login, LoginIs, RenewTgt, RenewRealm, RenewalIs;
    LoginDoes(s, w);
    RenewRealmIs(s, s.client.realm, w);
  }

  // ------------------------------------------------------------------
  // Service tickets

  /** The TGT for a service's realm: the cached one while it is valid; for another realm a renewal of it; else the
      primary TGT. */
  ghost predicate TgtForIs(before: State, realm: Name, w: World, after: State, r: Result<Session, Error>)
  {
    if realm in before.sessions
       && before.sessions[realm].grant.startTime <= w.clock(6) < before.sessions[realm].grant.endTime then
      after == before && r == Ok(before.sessions[realm])
    else if realm == before.client.realm then EnsureIs(before, w, after, r)
    else
      || (exists t :: CachedRenewalIs(before, realm, w, after, Ok(Some(t))) && r == Ok(t))
      || (CachedRenewalIs(before, realm, w, before, Ok(None)) && EnsureIs(before, w, after, r))
  }

  lemma TgtForDoes(s: State, realm: Name, w: World)
    requires Coherent(s)
    ensures TgtForIs(s, realm, w, TgtFor(s, realm, w).0, TgtFor(s, realm, w).1)
  {
    hide Coherent, EnsureTgt, EnsureIs, RenewCached;
    EnsureDoes(s, w);
    RenewCachedIs(s, realm, w);
  }

  /** A ticket fetched: the answer of a referral exchange with that TGT. Its referral TGTs are cached in order, and
      the ticket last. */
  ghost predicate FetchIs(before: State, service: Principal, w: World, after: State, r: Result<Session, Error>)
  {
    exists mid, t :: TgtForIs(before, service.realm, w, mid, t) && FetchedWith(mid, t, service, w, after, r)
  }

  ghost predicate FetchedWith(mid: State, tgt: Result<Session, Error>, service: Principal, w: World, after: State,
                              r: Result<Session, Error>)
  {
    if tgt.Err? then after == mid && r == tgt else
    var o := Referral.Exchange(tgt.value, service, w.realmOf(service), w.nonce, w.maxReferrals, w.referral);
    && r == o.result
    && (r.Err? ==> after == mid)
    && (r.Ok? ==> o.tgts != [] && exists cached ::
          AllFiled(mid, o.tgts[1..], w.referralClock, cached) && TicketFiled(cached, r.value, w.clock(7), after))
  }

  /** TGTs filed one after the other, the clock read for each. */
  ghost predicate AllFiled(before: State, ts: seq<Session>, clock: nat -> int, after: State)
    decreases |ts|
  {
    if ts == [] then after == before
    else
      exists mid :: AllFiled(before, ts[..|ts| - 1], clock, mid) && LastFiled(mid, ts, clock, after)
  }

  ghost predicate LastFiled(before: State, ts: seq<Session>, clock: nat -> int, after: State)
    requires ts != []
  {
    TgtFiled(before, ts[|ts| - 1], clock(|ts| - 1), after, None)
  }

  lemma {:induction false} CacheTgtsFile(s: State, ts: seq<Session>, clock: nat -> int)
    requires Coherent(s) && forall i :: 0 <= i < |ts| ==> IsTgt(ts[i].service)
    ensures CacheTgts(s, ts, clock).1 == None && AllFiled(s, ts, clock, CacheTgts(s, ts, clock).0)
    decreases |ts|
  {
    hide Coherent, IsTgt, CacheTgt, TgtFiled;
    CacheTgtsCoherent(s, ts, clock);
    if ts != [] {
      var before := ts[..|ts| - 1];
      CacheTgtsFile(s, before, clock);
      CacheTgtsCoherent(s, before, clock);
      var mid := CacheTgts(s, before, clock).0;
      CacheTgtFiles(mid, ts[|ts| - 1], clock(|ts| - 1));
      assert LastFiled(mid, ts, clock, CacheTgts(s, ts, clock).0);
    }
  }

  lemma FetchDoes(s: State, service: Principal, w: World)
    requires Coherent(s)
    ensures FetchIs(s, service, w, FetchTicket(s, service, w).0, FetchTicket(s, service, w).1)
  {
    hide Coherent, TgtFor, TgtForIs, Referral.Exchange, CacheTgts, AllFiled, CacheTicket, TicketFiled, IsTgt;
    TgtForDoes(s, service.realm, w);
    TgtForSound(s, service.realm, w);
    var mid, t := TgtFor(s, service.realm, w).0, TgtFor(s, service.realm, w).1;
    if t.Ok? {
      ReferralNoPanic(t.value, service, w);
      var o := Referral.Exchange(t.value, service, w.realmOf(service), w.nonce, w.maxReferrals, w.referral);
      CacheTgtsFile(mid, o.tgts[1..], w.referralClock);
      if o.result.Ok? {
        CacheTicketFiles(CacheTgts(mid, o.tgts[1..], w.referralClock).0, o.result.value, w.clock(7));
      }
    }
    assert FetchedWith(mid, t, service, w, FetchTicket(s, service, w).0, FetchTicket(s, service, w).1);
  }

  /** The service asked for, its realm filled in from the configuration, else from the client. */
  function Asked(s: State, service: Principal, w: World): Principal
  {
    Principal(if service.realm != [] then service.realm
              else if w.realmOf(service).Some? then w.realmOf(service).value
              else s.client.realm,
              service.nameType, service.components)
  }

  /** A service ticket: the cached one exactly while startTime <= now < endTime, under the name asked for, and nothing
      changes; else its renewal if now is before renewTill and the renewal is accepted, which is then filed; else
      one fetched. */
  ghost predicate TicketIs(before: State, service: Principal, w: World, after: State, r: Result<Session, Error>)
  {
    var asked := Asked(before, service, w);
    var key := CacheKey(asked);
    var now := w.clock(4);
    if key in before.tickets
       && before.tickets[key].grant.startTime <= now < before.tickets[key].grant.endTime then
      after == before && r == Ok(Session(before.tickets[key].client, asked, before.tickets[key].grant))
    else if key in before.tickets
       && before.tickets[key].grant.renewTill.Some? && now < before.tickets[key].grant.renewTill.value
       && TicketRenewal(before.tickets[key], w).Ok? then
      var renewed := TicketRenewal(before.tickets[key], w).value;
      && r == Ok(Session(renewed.client, asked, renewed.grant))
      && TicketFiled(before, r.value, w.clock(5), after)
    else FetchIs(before, asked, w, after, r)
  }

  /** The answer to asking for the renewal of a service ticket. */
  function TicketRenewal(t: Session, w: World): Result<Session, Error>
  {
    Process(Request(t.client, t.service.realm, t.service, w.nonce), w.renewTicket, false)
  }

  lemma TicketDoes(s: State, service: Principal, w: World)
    requires Coherent(s)
    ensures TicketIs(s, service, w, GetServiceTicket(s, service, w).0, GetServiceTicket(s, service, w).1)
  {
    hide Coherent, FetchTicket, FetchIs, CacheTicket, TicketFiled, Process, CacheKey;
    var asked := Asked(s, service, w);
    assert asked == ResolveService(s, service, w);
    FetchDoes(s, asked, w);
    if CacheKey(asked) in s.tickets {
      var answer := TicketRenewal(s.tickets[CacheKey(asked)], w);
      if answer.Ok? { CacheTicketFiles(s, answer.value.(service := asked), w.clock(5)); }
    }
  }

  // ------------------------------------------------------------------
  // Removal

  /** A session of a map stays exactly while it is valid or can be renewed. */
  ghost predicate OnlyUsable(before: map<Name, Session>, now: int, after: map<Name, Session>)
  {
    forall k ::
      && (k in after ==> k in before)
      && (k in before ==>
            (k in after <==>
              || before[k].grant.startTime <= now < before[k].grant.endTime
              || (before[k].grant.renewTill.Some? && now < before[k].grant.renewTill.value)))
      && (k in after ==> after[k] == before[k])
  }

  /** What pruning leaves. */
  lemma PruneIs(s: State, now: int)
    requires Coherent(s)
    ensures var p := Prune(s, now);
            && p.client == s.client && p.hasCredentials == s.hasCredentials
            && OnlyUsable(s.sessions, now, p.sessions) && OnlyUsable(s.tickets, now, p.tickets)
            && p.tgt == if s.client.realm in p.sessions then Some(p.sessions[s.client.realm]) else None
  {
    hide IsTgt, CacheKey;
  }
}
