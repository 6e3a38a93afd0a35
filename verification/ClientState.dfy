/** The session caches of a client over every run (src/client.rs). */
module ClientState {
  import opened Bytes
  import opened Sessions
  import Referral

  datatype State = State(
    client: Principal,
    hasCredentials: bool,
    tgt: Option<Session>,
    sessions: map<Name, Session>,
    tickets: map<Name, Session>)

  /** `service_cache_key`: realm and components, each component behind a zero byte. */
  function CacheKey(service: Principal): Name
  {
    service.realm + Joined(service.components)
  }

  function Joined(components: seq<Name>): Name
  {
    if components == [] then [] else [0] + components[0] + Joined(components[1..])
  }

  /** The primary TGT is the cached one for the client's realm, and both maps are keyed by their values. */
  ghost predicate Coherent(s: State)
  {
    && (s.tgt.Some? <==> s.client.realm in s.sessions)
    && (s.tgt.Some? ==> s.tgt.value == s.sessions[s.client.realm])
    && (forall r :: r in s.sessions ==> TgtRealm(s.sessions[r]) == Some(r))
    && (forall k :: k in s.tickets ==> CacheKey(s.tickets[k].service) == k)
  }

  /** `TokioClient::new`. */
  function New(client: Principal, hasCredentials: bool): (s: State)
    ensures Coherent(s)
  {
    State(client, hasCredentials, None, map[], map[])
  }

  // ------------------------------------------------------------------
  // Caching

  /** `prefer_current_session_at`. */
  predicate PreferCurrent(current: Session, candidate: Session, now: int)
  {
    if ValidAt(current, now) && !ValidAt(candidate, now) then true
    else if !ValidAt(current, now) && ValidAt(candidate, now) then false
    else current.grant.endTime >= candidate.grant.endTime
  }

  /** `preferred_session_at`. */
  function Preferred(current: Option<Session>, candidate: Session, now: int): Session
  {
    if current.Some? && PreferCurrent(current.value, candidate, now) then current.value else candidate
  }

  function Lookup(m: map<Name, Session>, k: Name): Option<Session>
  {
    if k in m then Some(m[k]) else None
  }

  /** `cache_tgt_session_at`. */
  function CacheTgt(s: State, t: Session, now: int): (State, Option<Error>)
  {
    if !IsTgt(t.service) then (s, Some(InvalidTgtSession))
    else
      var realm := TgtRealm(t).value;
      var selected := Preferred(Lookup(s.sessions, realm), t, now);
      if realm == s.client.realm then
        var primary := Preferred(s.tgt, selected, now);
        (s.(tgt := Some(primary), sessions := s.sessions[realm := primary]), None)
      else (s.(sessions := s.sessions[realm := selected]), None)
  }

  /** `cache_service_ticket`. */
  function CacheTicket(s: State, t: Session, now: int): State
  {
    var key := CacheKey(t.service);
    s.(tickets := s.tickets[key := Preferred(Lookup(s.tickets, key), t, now)])
  }

  /** What a preferred session is for: the realm of both. */
  lemma PreferredRealm(current: Option<Session>, candidate: Session, now: int)
    requires current.Some? ==> TgtRealm(current.value) == TgtRealm(candidate)
    ensures TgtRealm(Preferred(current, candidate, now)) == TgtRealm(candidate)
    ensures Preferred(current, Preferred(current, candidate, now), now) == Preferred(current, candidate, now)
  {
    hide IsTgt, ValidAt;
  }

  lemma StoreCoherent(s: State, realm: Name, t: Session)
    requires Coherent(s) && TgtRealm(t) == Some(realm)
    ensures Coherent(s.(sessions := s.sessions[realm := t], tgt := if realm == s.client.realm then Some(t) else s.tgt))
  {
    hide IsTgt, CacheKey;
  }

  lemma CacheTgtCoherent(s: State, t: Session, now: int)
    requires Coherent(s)
    ensures Coherent(CacheTgt(s, t, now).0)
    ensures IsTgt(t.service) ==>
              CacheTgt(s, t, now).0.sessions
              == s.sessions[TgtRealm(t).value := Preferred(Lookup(s.sessions, TgtRealm(t).value), t, now)]
  {
    hide IsTgt, PreferCurrent, CacheKey;
    if IsTgt(t.service) {
      var realm := TgtRealm(t).value;
      var current := Lookup(s.sessions, realm);
      assert realm == s.client.realm ==> s.tgt == current;
      PreferredRealm(current, t, now);
      StoreCoherent(s, realm, Preferred(current, t, now));
    }
  }

  lemma CacheTgtTickets(s: State, t: Session, now: int)
    ensures CacheTgt(s, t, now).0.tickets == s.tickets
  {
  }

  lemma CacheTicketCoherent(s: State, t: Session, now: int)
    requires Coherent(s)
    ensures Coherent(CacheTicket(s, t, now))
  {
    hide CacheKey, ValidAt;
  }

  /** `get_service_ticket`'s loop over the referral TGTs: the clock is read for each. */
  function CacheTgts(s: State, ts: seq<Session>, clock: nat -> int): (State, Option<Error>)
    decreases |ts|
  {
    if ts == [] then (s, None)
    else
      var (before, e) := CacheTgts(s, ts[..|ts| - 1], clock);
      if e.Some? then (before, e) else CacheTgt(before, ts[|ts| - 1], clock(|ts| - 1))
  }

  lemma {:induction false} CacheTgtsCoherent(s: State, ts: seq<Session>, clock: nat -> int)
    requires Coherent(s)
    ensures Coherent(CacheTgts(s, ts, clock).0)
    ensures (forall i :: 0 <= i < |ts| ==> IsTgt(ts[i].service)) ==> CacheTgts(s, ts, clock).1.None?
  {
    hide Coherent, IsTgt;
    if ts != [] {
      var before, last := ts[..|ts| - 1], ts[|ts| - 1];
      CacheTgtsCoherent(s, before, clock);
      CacheTgtCoherent(CacheTgts(s, before, clock).0, last, clock(|ts| - 1));
    }
  }

  // ------------------------------------------------------------------
  // Exchanges

  /** Whatever the world does during one call: the clock at each place it is read, the answer to each
      kind of request, and the configuration's realm for a host. */
  datatype World = World(
    clock: nat -> int,
    referralClock: nat -> int,
    login: Reply,
    renewTgt: Reply,
    renewCached: Reply,
    renewTicket: Reply,
    referral: nat -> Reply,
    nonce: nat,
    maxReferrals: nat,
    realmOf: Principal -> Option<Name>)

  /** `build_tgt_renewal_req` and its exchange. */
  function RenewExchange(t: Session, w: World, reply: Reply): Result<Session, Error>
  {
    match TgtRealm(t)
    case None => Err(InvalidTgtSession)
    case Some(realm) => Process(Request(t.client, realm, TgtService(realm), w.nonce), reply, false)
  }

  /** A renewed TGT stored, as primary too when it is for the client's realm. */
  function StoreRenewed(s: State, renewed: Session, dropTickets: bool): (State, Result<Session, Error>)
  {
    match TgtRealm(renewed)
    case None => (s, Err(InvalidTgtSession))
    case Some(realm) =>
      var own := realm == s.client.realm;
      (s.(tgt := if own then Some(renewed) else s.tgt,
          tickets := if own && dropTickets then map[] else s.tickets,
          sessions := s.sessions[realm := renewed]),
       Ok(renewed))
  }

  /** `renew_tgt_session_for_realm`. */
  function RenewRealm(s: State, realm: Name, w: World): (State, Result<Session, Error>)
  {
    var t := if realm == s.client.realm && s.tgt.Some? then s.tgt else Lookup(s.sessions, realm);
    if t.None? then (s, Err(NoTgtSession))
    else match RenewExchange(t.value, w, w.renewTgt)
      case Err(e) => (s, Err(e))
      case Ok(renewed) => StoreRenewed(s, renewed, true)
  }

  /** The primary TGT, which the code expects to be there. */
  function Expected(s: State): Result<Session, Error>
  {
    if s.tgt.Some? then Ok(s.tgt.value) else Err(Panicked)
  }

  /** `renew_tgt`. */
  function RenewTgt(s: State, w: World): (State, Result<Session, Error>)
  {
    var (s', r) := RenewRealm(s, s.client.realm, w);
    if r.Err? then (s', r) else (s', Expected(s'))
  }

  /** `renew_cached_tgt_session_for_realm`; an exchange that fails counts as no session. */
  function RenewCached(s: State, realm: Name, w: World): (State, Result<Option<Session>, Error>)
  {
    if realm !in s.sessions || !RenewableAt(s.sessions[realm], w.clock(3)) then (s, Ok(None))
    else match RenewExchange(s.sessions[realm], w, w.renewCached)
      case Err(_) => (s, Ok(None))
      case Ok(renewed) =>
        match StoreRenewed(s, renewed, false)
        case (s', Err(e)) => (s', Err(e))
        case (s', Ok(t)) => (s', Ok(Some(t)))
  }

  function LoginRequest(s: State, w: World): Request
  {
    Request(s.client, s.client.realm, TgtService(s.client.realm), w.nonce)
  }

  /** `login`. */
  function Login(s: State, w: World): (State, Result<Session, Error>)
  {
    if !s.hasCredentials then
      if s.tgt.None? then (s, Err(NoClientCredentials))
      else if ValidAt(s.tgt.value, w.clock(0)) then (s, Expected(s))
      else if RenewableAt(s.tgt.value, w.clock(0)) then RenewTgt(s, w)
      else (s, Err(NoClientCredentials))
    else match Process(LoginRequest(s, w), w.login, false)
      case Err(e) => (s, Err(e))
      case Ok(session) =>
        var (s', e) := CacheTgt(s.(sessions := map[]), session, w.clock(1));
        if e.Some? then (s', Err(e.value))
        else
          var done := s'.(tickets := map[]);
          (done, Expected(done))
  }

  /** `affirm_login`. */
  function AffirmLogin(s: State, w: World): (State, Result<Session, Error>)
  {
    if s.tgt.Some? && ValidAt(s.tgt.value, w.clock(2)) then (s, Expected(s))
    else if s.tgt.Some? && RenewableAt(s.tgt.value, w.clock(2)) then RenewTgt(s, w)
    else Login(s, w)
  }

  /** `ensure_tgt`. */
  function EnsureTgt(s: State, w: World): (State, Result<Session, Error>)
  {
    if s.tgt.Some? && ValidAt(s.tgt.value, w.clock(2)) && !RefreshDueAt(s.tgt.value, w.clock(2)) then
      (s, Ok(s.tgt.value))
    else if s.tgt.Some? && RenewableAt(s.tgt.value, w.clock(2)) then RenewTgt(s, w)
    else if s.tgt.Some? && ValidAt(s.tgt.value, w.clock(2)) && !s.hasCredentials then (s, Ok(s.tgt.value))
    else if !s.hasCredentials then (s, Err(NoClientCredentials))
    else Login(s, w)
  }

  /** `resolve_service_principal`. */
  function ResolveService(s: State, service: Principal, w: World): Principal
  {
    Referral.Resolved(service, w.realmOf(service), s.client.realm)
  }

  /** The TGT a service ticket is asked for with. */
  function TgtFor(s: State, realm: Name, w: World): (State, Result<Session, Error>)
  {
    if realm in s.sessions && ValidAt(s.sessions[realm], w.clock(6)) then (s, Ok(s.sessions[realm]))
    else if realm == s.client.realm then EnsureTgt(s, w)
    else match RenewCached(s, realm, w)
      case (s', Err(e)) => (s', Err(e))
      case (s', Ok(Some(t))) => (s', Ok(t))
      case (s', Ok(None)) => EnsureTgt(s', w)
  }

  /** `get_service_ticket` when the cache cannot answer. */
  function FetchTicket(s: State, service: Principal, w: World): (State, Result<Session, Error>)
  {
    match TgtFor(s, service.realm, w)
    case (s', Err(e)) => (s', Err(e))
    case (s', Ok(tgt)) =>
      var o := Referral.Exchange(tgt, service, w.realmOf(service), w.nonce, w.maxReferrals, w.referral);
      if o.result.Err? || o.tgts == [] then (s', o.result)
      else
        var (cached, e) := CacheTgts(s', o.tgts[1..], w.referralClock);
        if e.Some? then (cached, Err(e.value))
        else (CacheTicket(cached, o.result.value, w.clock(7)), o.result)
  }

  /** `get_service_ticket`. */
  function GetServiceTicket(s: State, service: Principal, w: World): (State, Result<Session, Error>)
  {
    var resolved := ResolveService(s, service, w);
    var key := CacheKey(resolved);
    if key !in s.tickets then FetchTicket(s, resolved, w)
    else
      var t := s.tickets[key];
      if ValidAt(t, w.clock(4)) then (s, Ok(t.(service := resolved)))
      else if !RenewableAt(t, w.clock(4)) then FetchTicket(s, resolved, w)
      else match Process(Request(t.client, t.service.realm, t.service, w.nonce), w.renewTicket, false)
        case Err(_) => FetchTicket(s, resolved, w)
        case Ok(renewed) =>
          var ticket := renewed.(service := resolved);
          (CacheTicket(s, ticket, w.clock(5)), Ok(ticket))
  }

  // ------------------------------------------------------------------
  // Removal

  function Usable(m: map<Name, Session>, now: int): map<Name, Session>
  {
    map k | k in m && UsableAt(m[k], now) :: m[k]
  }

  /** `prune_unusable_sessions_at`. */
  function Prune(s: State, now: int): State
  {
    s.(tgt := if s.tgt.Some? && !UsableAt(s.tgt.value, now) then None else s.tgt,
       sessions := Usable(s.sessions, now), tickets := Usable(s.tickets, now))
  }

  /** `remove_tgt_session_for_realm`. */
  function RemoveRealm(s: State, realm: Name): State
  {
    s.(sessions := s.sessions - {realm}, tgt := if realm == s.client.realm then None else s.tgt)
  }

  /** `destroy`. */
  function Destroyed(s: State): State
  {
    State(s.client, false, None, map[], map[])
  }

  // ------------------------------------------------------------------
  // Every run

  /** A call of a mutating method. */
  datatype Event =
    | CacheTgtSession(session: Session, now: int)
    | CacheServiceTicket(session: Session, now: int)
    | LoggedIn(world: World)
    | Affirmed(world: World)
    | Ensured(world: World)
    | Renewed(realm: Name, world: World)
    | TicketFetched(service: Principal, world: World)
    | Pruned(now: int)
    | RealmRemoved(realm: Name)
    | TicketRemoved(service: Principal, world: World)
    | TicketsCleared
    | CredentialsAttached
    | Destroy

  function Apply(s: State, e: Event): (State, Option<Error>)
  {
    match e
    case CacheTgtSession(t, now) => CacheTgt(s, t, now)
    case CacheServiceTicket(t, now) => (CacheTicket(s, t, now), None)
    case LoggedIn(w) => Reported(Login(s, w))
    case Affirmed(w) => Reported(AffirmLogin(s, w))
    case Ensured(w) => Reported(EnsureTgt(s, w))
    case Renewed(realm, w) => Reported(RenewRealm(s, realm, w))
    case TicketFetched(service, w) => Reported(GetServiceTicket(s, service, w))
    case Pruned(now) => (Prune(s, now), None)
    case RealmRemoved(realm) => (RemoveRealm(s, realm), None)
    case TicketRemoved(service, w) => (s.(tickets := s.tickets - {CacheKey(ResolveService(s, service, w))}), None)
    case TicketsCleared => (s.(tickets := map[]), None)
    case CredentialsAttached => (s.(hasCredentials := true), None)
    case Destroy => (Destroyed(s), None)
  }

  function Reported(r: (State, Result<Session, Error>)): (State, Option<Error>)
  {
    (r.0, if r.1.Err? then Some(r.1.error) else None)
  }

  /** The state after a run, and the errors its calls returned. */
  function Run(s: State, events: seq<Event>): (State, seq<Error>)
    decreases |events|
  {
    if events == [] then (s, [])
    else
      var (before, errors) := Run(s, events[..|events| - 1]);
      var (after, e) := Apply(before, events[|events| - 1]);
      (after, if e.Some? then errors + [e.value] else errors)
  }

  /** A call that keeps the state coherent, and does not panic. */
  ghost predicate Sound(s: State, r: (State, Result<Session, Error>))
  {
    Coherent(r.0) && r.0.client == s.client && r.1 != Err(Panicked)
  }

  lemma ProcessNoPanic(q: Request, r: Reply, allowReferral: bool)
    ensures Process(q, r, allowReferral) != Err(Panicked)
  {
  }

  lemma RenewSound(s: State, realm: Name, w: World)
    requires Coherent(s)
    ensures Sound(s, RenewRealm(s, realm, w)) && Sound(s, RenewTgt(s, w))
    ensures RenewTgt(s, w).1.Ok? ==> RenewTgt(s, w).0.tgt == Some(RenewTgt(s, w).1.value)
    ensures RenewRealm(s, realm, w).1.Ok? ==> TgtRealm(RenewRealm(s, realm, w).1.value) == Some(realm)
  {
    hide IsTgt, Process, CacheKey;
    RenewRealmSound(s, realm, w);
    RenewRealmSound(s, s.client.realm, w);
  }

  lemma RenewRealmSound(s: State, realm: Name, w: World)
    requires Coherent(s)
    ensures var (s', r) := RenewRealm(s, realm, w);
            && Sound(s, (s', r))
            && (r.Ok? ==> TgtRealm(r.value) == Some(realm) && s'.sessions == s.sessions[realm := r.value])
            && (r.Err? ==> s' == s)
  {
    hide IsTgt, Process, CacheKey;
    var t := if realm == s.client.realm && s.tgt.Some? then s.tgt else Lookup(s.sessions, realm);
    if t.Some? {
      assert TgtRealm(t.value) == Some(realm);
      RenewExchangeRealm(t.value, w, w.renewTgt);
    }
  }

  /** A renewal is for the realm of the session renewed. */
  lemma RenewExchangeRealm(t: Session, w: World, reply: Reply)
    ensures RenewExchange(t, w, reply) != Err(Panicked)
    ensures RenewExchange(t, w, reply).Ok? ==> TgtRealm(RenewExchange(t, w, reply).value) == TgtRealm(t)
  {
    hide IsTgt, Process;
    if TgtRealm(t).Some? {
      var realm := TgtRealm(t).value;
      var q := Request(t.client, realm, TgtService(realm), w.nonce);
      ProcessNoPanic(q, reply, false);
      if Process(q, reply, false).Ok? { AcceptedTgt(q, reply, realm); }
    }
  }

  lemma RenewCachedSound(s: State, realm: Name, w: World)
    requires Coherent(s)
    ensures var (s', r) := RenewCached(s, realm, w);
            Coherent(s') && s'.client == s.client && s'.hasCredentials == s.hasCredentials && r.Ok?
            && (r.value.Some? ==> TgtRealm(r.value.value) == Some(realm))
  {
    hide IsTgt, Process, CacheKey;
    if realm in s.sessions { RenewExchangeRealm(s.sessions[realm], w, w.renewCached); }
  }

  /** The expectation in `login` holds: what the checks let through is a TGT for the client's realm. */
  lemma LoginSound(s: State, w: World)
    requires Coherent(s)
    ensures Sound(s, Login(s, w))
    ensures Login(s, w).1.Ok? ==> Login(s, w).0.tgt == Some(Login(s, w).1.value)
  {
    hide IsTgt, Process, CacheKey, ValidAt;
    RenewSound(s, s.client.realm, w);
    var q := LoginRequest(s, w);
    ProcessNoPanic(q, w.login, false);
    if s.hasCredentials && Process(q, w.login, false).Ok? {
      AcceptedTgt(q, w.login, s.client.realm);
    }
  }

  /** A login leaves the session it won, unless the client already held a better one for its realm; in
      either case no other session survives. */
  lemma LoginKeepsTheBetter(s: State, w: World)
    requires Coherent(s) && s.hasCredentials && Process(LoginRequest(s, w), w.login, false).Ok?
    ensures var best := Preferred(s.tgt, Process(LoginRequest(s, w), w.login, false).value, w.clock(1));
            Login(s, w) == (s.(tgt := Some(best), sessions := map[s.client.realm := best], tickets := map[]), Ok(best))
  {
    hide IsTgt, Process, ValidAt;
    AcceptedTgt(LoginRequest(s, w), w.login, s.client.realm);
  }

  lemma EnsureSound(s: State, w: World)
    requires Coherent(s)
    ensures Sound(s, EnsureTgt(s, w)) && Sound(s, AffirmLogin(s, w))
    ensures EnsureTgt(s, w).1.Ok? ==> EnsureTgt(s, w).0.tgt == Some(EnsureTgt(s, w).1.value)
    ensures AffirmLogin(s, w).1.Ok? ==> AffirmLogin(s, w).0.tgt == Some(AffirmLogin(s, w).1.value)
  {
    hide Login, RenewTgt, ValidAt, RenewableAt, RefreshDueAt, IsTgt, CacheKey;
    LoginSound(s, w);
    RenewSound(s, s.client.realm, w);
  }

  lemma TgtForSound(s: State, realm: Name, w: World)
    requires Coherent(s)
    ensures Sound(s, TgtFor(s, realm, w))
    ensures TgtFor(s, realm, w).1.Ok? ==> IsTgt(TgtFor(s, realm, w).1.value.service)
  {
    hide EnsureTgt, RenewCached, ValidAt, IsTgt, CacheKey;
    EnsureSound(s, w);
    RenewCachedSound(s, realm, w);
    EnsureSound(RenewCached(s, realm, w).0, w);
  }

  /** Everything referrals can bring passes the caching calls. */
  lemma FetchSound(s: State, service: Principal, w: World)
    requires Coherent(s)
    ensures Sound(s, FetchTicket(s, service, w))
  {
    hide TgtFor, IsTgt, CacheKey, Coherent, Process, CacheTicket, CacheTgts, Referral.Exchange;
    TgtForSound(s, service.realm, w);
    if TgtFor(s, service.realm, w).1.Ok? {
      var s', tgt := TgtFor(s, service.realm, w).0, TgtFor(s, service.realm, w).1.value;
      ReferralNoPanic(tgt, service, w);
      var o := Referral.Exchange(tgt, service, w.realmOf(service), w.nonce, w.maxReferrals, w.referral);
      CacheTgtsCoherent(s', o.tgts[1..], w.referralClock);
      CacheTgtsClient(s', o.tgts[1..], w.referralClock);
      if o.result.Ok? {
        CacheTicketCoherent(CacheTgts(s', o.tgts[1..], w.referralClock).0, o.result.value, w.clock(7));
        CacheTicketClient(CacheTgts(s', o.tgts[1..], w.referralClock).0, o.result.value, w.clock(7));
      }
    }
  }

  lemma ReferralNoPanic(tgt: Session, service: Principal, w: World)
    requires IsTgt(tgt.service)
    ensures var o := Referral.Exchange(tgt, service, w.realmOf(service), w.nonce, w.maxReferrals, w.referral);
            o.tgts != [] && o.result != Err(Panicked) && forall i :: 0 <= i < |o.tgts| ==> IsTgt(o.tgts[i].service)
  {
    hide IsTgt, Process, TgtRealm, Referral.Exchange;
    Referral.ExchangeSafe(tgt, service, w.realmOf(service), w.nonce, w.maxReferrals, w.referral);
    var o := Referral.Exchange(tgt, service, w.realmOf(service), w.nonce, w.maxReferrals, w.referral);
    ProcessNoPanic(o.sent[|o.sent| - 1], w.referral(|o.sent| - 1), true);
  }

  lemma {:induction false} CacheTgtsClient(s: State, ts: seq<Session>, clock: nat -> int)
    ensures CacheTgts(s, ts, clock).0.client == s.client
    ensures CacheTgts(s, ts, clock).1 != Some(Panicked)
  {
    hide IsTgt;
    if ts != [] { CacheTgtsClient(s, ts[..|ts| - 1], clock); }
  }

  lemma CacheTicketClient(s: State, t: Session, now: int)
    ensures CacheTicket(s, t, now).client == s.client
  {
  }

  lemma GetSound(s: State, service: Principal, w: World)
    requires Coherent(s)
    ensures Sound(s, GetServiceTicket(s, service, w))
  {
    hide FetchTicket, Coherent, CacheKey, Process, CacheTicket, ResolveService;
    var resolved := ResolveService(s, service, w);
    FetchSound(s, resolved, w);
    if CacheKey(resolved) in s.tickets {
      var t := s.tickets[CacheKey(resolved)];
      var answer := Process(Request(t.client, t.service.realm, t.service, w.nonce), w.renewTicket, false);
      if answer.Ok? {
        CacheTicketCoherent(s, answer.value.(service := resolved), w.clock(5));
        CacheTicketClient(s, answer.value.(service := resolved), w.clock(5));
      }
    }
  }

  lemma RemovalCoherent(s: State, now: int, realm: Name, keys: set<Name>)
    requires Coherent(s)
    ensures Coherent(Prune(s, now)) && Coherent(RemoveRealm(s, realm)) && Coherent(Destroyed(s))
    ensures Coherent(s.(tickets := s.tickets - keys)) && Coherent(s.(tickets := map[]))
  {
    hide IsTgt, CacheKey, UsableAt;
  }

  /** Every method keeps a coherent state coherent, and no expectation of a TGT fails, whatever the KDCs
      answer and whatever the clock says. */
  lemma ApplyCoherent(s: State, e: Event)
    requires Coherent(s)
    ensures Coherent(Apply(s, e).0) && Apply(s, e).0.client == s.client && Apply(s, e).1 != Some(Panicked)
  {
    hide Coherent, CacheTgt, CacheTicket, Login, AffirmLogin, EnsureTgt, RenewRealm, GetServiceTicket, Prune,
         RemoveRealm, CacheKey, ResolveService;
    match e
    case CacheTgtSession(t, now) =>
      CacheTgtCoherent(s, t, now);
      CacheTgtClient(s, t, now);
    case CacheServiceTicket(t, now) =>
      CacheTicketCoherent(s, t, now);
      CacheTicketClient(s, t, now);
    case LoggedIn(w) => LoginSound(s, w);
    case Affirmed(w) => EnsureSound(s, w);
    case Ensured(w) => EnsureSound(s, w);
    case Renewed(realm, w) => RenewSound(s, realm, w);
    case TicketFetched(service, w) => GetSound(s, service, w);
    case Pruned(now) =>
      RemovalCoherent(s, now, [], {});
      assert Prune(s, now).client == s.client by { PruneClient(s, now, []); }
    case RealmRemoved(realm) =>
      RemovalCoherent(s, 0, realm, {});
      PruneClient(s, 0, realm);
    case TicketRemoved(service, w) => RemovalCoherent(s, 0, [], {CacheKey(ResolveService(s, service, w))});
    case TicketsCleared => RemovalCoherent(s, 0, [], {});
    case CredentialsAttached => CoherentAttached(s);
    case Destroy => RemovalCoherent(s, 0, [], {});
  }

  lemma CacheTgtClient(s: State, t: Session, now: int)
    ensures CacheTgt(s, t, now).0.client == s.client && CacheTgt(s, t, now).1 != Some(Panicked)
  {
  }

  lemma PruneClient(s: State, now: int, realm: Name)
    ensures Prune(s, now).client == s.client && RemoveRealm(s, realm).client == s.client
  {
  }

  lemma CoherentAttached(s: State)
    requires Coherent(s)
    ensures Coherent(s.(hasCredentials := true))
  {
  }

  /** Coherence over every run from every coherent state, with no panic in it. */
  lemma {:induction false} RunCoherent(s: State, events: seq<Event>)
    requires Coherent(s)
    ensures Coherent(Run(s, events).0) && Run(s, events).0.client == s.client
    ensures Panicked !in Run(s, events).1
  {
    hide Coherent, Apply;
    if events != [] {
      RunCoherent(s, events[..|events| - 1]);
      ApplyCoherent(Run(s, events[..|events| - 1]).0, events[|events| - 1]);
    }
  }
}
