/** The client object: each method does to its fields what `ClientState` says, and never meets a missing
    TGT it expects (src/client.rs:589-1185, src/client.rs:1389-1440). */
module TokioClient {
  import opened Bytes
  import opened Sessions
  import opened ClientState
  import opened ClientTimes
  import Ccache
  import CcacheEdit
  import opened ClientExport
  import Referral

  class Client {
    const client: Principal
    var hasCredentials: bool
    var tgt: Option<Session>
    var sessions: map<Name, Session>
    var tickets: map<Name, Session>

    function Now(): State
      reads this
    {
      State(client, hasCredentials, tgt, sessions, tickets)
    }

    ghost predicate Valid()
      reads this
    {
      Coherent(Now())
    }

    constructor (client: Principal, hasCredentials: bool)
      ensures Valid() && Now() == New(client, hasCredentials)
    {
      this.client, this.hasCredentials := client, hasCredentials;
      this.tgt, this.sessions, this.tickets := None, map[], map[];
    }

    // ----------------------------------------------------------------
    // Caching

    /** `cache_tgt_session_at`; also called by `login` between clearing and storing. */
    method CacheTgtSessionAt(t: Session, now: int) returns (e: Option<Error>)
      modifies this
      ensures (Now(), e) == CacheTgt(old(Now()), t, now)
      ensures old(Valid()) ==> Valid() && TgtFiled(old(Now()), t, now, Now(), e)
    {
      hide Coherent, IsTgt, PreferCurrent, TgtFiled;
      if Valid() {
        CacheTgtCoherent(Now(), t, now);
        CacheTgtFiles(Now(), t, now);
      }
      if TgtRealm(t).None? { return Some(InvalidTgtSession); }
      var realm := TgtRealm(t).value;
      var current := Lookup(sessions, realm);
      sessions := sessions - {realm};
      var selected := Preferred(current, t, now);
      if realm == client.realm {
        var before := tgt;
        tgt := None;
        var primary := Preferred(before, selected, now);
        tgt := Some(primary);
        sessions := sessions[realm := primary];
        assert sessions == old(sessions)[realm := primary];
      } else {
        sessions := sessions[realm := selected];
        assert sessions == old(sessions)[realm := selected];
      }
      return None;
    }

    /** `cache_service_ticket`. */
    method CacheServiceTicketAt(t: Session, now: int)
      requires Valid()
      modifies this
      ensures Valid() && Now() == CacheTicket(old(Now()), t, now)
      ensures TicketFiled(old(Now()), t, now, Now())
    {
      hide Coherent, CacheKey, PreferCurrent, TicketFiled;
      CacheTicketCoherent(Now(), t, now);
      CacheTicketFiles(Now(), t, now);
      var key := CacheKey(t.service);
      var current := Lookup(tickets, key);
      tickets := tickets - {key};
      tickets := tickets[key := Preferred(current, t, now)];
      assert tickets == old(tickets)[key := Preferred(Lookup(old(tickets), key), t, now)];
    }

    // ----------------------------------------------------------------
    // Login and renewal

    /** `renew_tgt_session_for_realm`. */
    method RenewTgtSessionForRealm(realm: Name, w: World) returns (r: Result<Session, Error>)
      requires Valid()
      modifies this
      ensures Valid() && (Now(), r) == RenewRealm(old(Now()), realm, w)
      ensures r.Ok? ==> TgtRealm(r.value) == Some(realm)
      ensures r.Ok? && realm == client.realm ==> tgt == Some(r.value)
      ensures RenewalIs(old(Now()), realm, w, Now(), r)
    {
      hide Coherent, IsTgt, Process, RenewalIs;
      RenewRealmIs(Now(), realm, w);
      RenewRealmSound(Now(), realm, w);
      var session := if realm == client.realm && tgt.Some? then tgt else Lookup(sessions, realm);
      if session.None? { return Err(NoTgtSession); }
      var renewed :- RenewExchange(session.value, w, w.renewTgt);
      var renewedRealm := TgtRealm(renewed);
      if renewedRealm.None? { return Err(InvalidTgtSession); }
      if renewedRealm.value == client.realm {
        tgt := Some(renewed);
        tickets := map[];
      }
      sessions := sessions[renewedRealm.value := renewed];
      return Ok(renewed);
    }

    /** `renew_tgt`; the TGT expected at the end is there. */
    method Renew(w: World) returns (r: Result<Session, Error>)
      requires Valid()
      modifies this
      ensures Valid() && (Now(), r) == RenewTgt(old(Now()), w)
    {
      hide Coherent, RenewRealm;
      var renewed :- RenewTgtSessionForRealm(client.realm, w);
      return Ok(tgt.value);
    }

    /** `login`; both TGTs expected are there. */
    method LoginNow(w: World) returns (r: Result<Session, Error>)
      requires Valid()
      modifies this
      ensures Valid() && (Now(), r) == Login(old(Now()), w)
      ensures LoginIs(old(Now()), w, Now(), r)
    {
      hide RenewTgt, Process, ValidAt, RenewableAt, IsTgt, CacheKey, LoginIs, TgtFiled;
      LoginDoes(Now(), w);
      LoginSound(Now(), w);
      if !hasCredentials {
        if tgt.None? { return Err(NoClientCredentials); }
        if ValidAt(tgt.value, w.clock(0)) { return Ok(tgt.value); }
        if RenewableAt(tgt.value, w.clock(0)) {
          r := Renew(w);
          return r;
        }
        return Err(NoClientCredentials);
      }
      ghost var before := Now();
      var q := LoginRequest(Now(), w);
      var session :- Process(q, w.login, false);
      AcceptedTgt(q, w.login, client.realm);
      sessions := map[];
      var e := CacheTgtSessionAt(session, w.clock(1));
      if e.Some? { return Err(InvalidTgtSession); }
      tickets := map[];
      LoginKeepsTheBetter(before, w);
      return Ok(tgt.value);
    }

    /** `affirm_login`. */
    method Affirm(w: World) returns (r: Result<Session, Error>)
      requires Valid()
      modifies this
      ensures Valid() && (Now(), r) == AffirmLogin(old(Now()), w)
      ensures AffirmIs(old(Now()), w, Now(), r)
    {
      hide Coherent, Login, RenewTgt, ValidAt, RenewableAt, AffirmIs;
      AffirmDoes(Now(), w);
      if tgt.Some? {
        if ValidAt(tgt.value, w.clock(2)) { return Ok(tgt.value); }
        if RenewableAt(tgt.value, w.clock(2)) {
          r := Renew(w);
          return r;
        }
      }
      r := LoginNow(w);
    }

    /** `ensure_tgt`. */
    method Ensure(w: World) returns (r: Result<Session, Error>)
      requires Valid()
      modifies this
      ensures Valid() && (Now(), r) == EnsureTgt(old(Now()), w)
      ensures EnsureIs(old(Now()), w, Now(), r)
    {
      hide Coherent, Login, RenewTgt, ValidAt, RenewableAt, RefreshDueAt, EnsureIs;
      EnsureDoes(Now(), w);
      if tgt.Some? {
        if ValidAt(tgt.value, w.clock(2)) && !RefreshDueAt(tgt.value, w.clock(2)) { return Ok(tgt.value); }
        if RenewableAt(tgt.value, w.clock(2)) {
          r := Renew(w);
          return r;
        }
        if ValidAt(tgt.value, w.clock(2)) && !hasCredentials { return Ok(tgt.value); }
      }
      if !hasCredentials { return Err(NoClientCredentials); }
      r := LoginNow(w);
    }

    /** `renew_cached_tgt_session_for_realm`. */
    method RenewCachedTgt(realm: Name, w: World) returns (r: Result<Option<Session>, Error>)
      requires Valid()
      modifies this
      ensures Valid() && (Now(), r) == RenewCached(old(Now()), realm, w)
      ensures CachedRenewalIs(old(Now()), realm, w, Now(), r)
    {
      hide Coherent, IsTgt, Process, RenewableAt, CachedRenewalIs;
      RenewCachedIs(Now(), realm, w);
      RenewCachedSound(Now(), realm, w);
      if realm !in sessions { return Ok(None); }
      if !RenewableAt(sessions[realm], w.clock(3)) { return Ok(None); }
      var answer := RenewExchange(sessions[realm], w, w.renewCached);
      if answer.Err? { return Ok(None); }
      var renewed := answer.value;
      var renewedRealm := TgtRealm(renewed);
      if renewedRealm.None? { return Err(InvalidTgtSession); }
      if renewedRealm.value == client.realm { tgt := Some(renewed); }
      sessions := sessions[renewedRealm.value := renewed];
      return Ok(Some(renewed));
    }

    // ----------------------------------------------------------------
    // Service tickets

    method TgtForRealm(realm: Name, w: World) returns (r: Result<Session, Error>)
      requires Valid()
      modifies this
      ensures Valid() && (Now(), r) == TgtFor(old(Now()), realm, w)
      ensures TgtForIs(old(Now()), realm, w, Now(), r)
    {
      hide Coherent, EnsureTgt, RenewCached, ValidAt, TgtForIs;
      TgtForDoes(Now(), realm, w);
      if realm in sessions && ValidAt(sessions[realm], w.clock(6)) { return Ok(sessions[realm]); }
      if realm != client.realm {
        var renewed :- RenewCachedTgt(realm, w);
        if renewed.Some? { return Ok(renewed.value); }
      }
      r := Ensure(w);
    }

    method Fetch(service: Principal, w: World) returns (r: Result<Session, Error>)
      requires Valid()
      modifies this
      ensures Valid() && (Now(), r) == FetchTicket(old(Now()), service, w)
      ensures FetchIs(old(Now()), service, w, Now(), r)
    {
      hide Coherent, TgtFor, CacheTgt, CacheTicket, Referral.Exchange, IsTgt, FetchIs, TgtFiled, TicketFiled;
      FetchDoes(Now(), service, w);
      ghost var before := Now();
      TgtForSound(before, service.realm, w);
      var t :- TgtForRealm(service.realm, w);
      ReferralNoPanic(t, service, w);
      var answer, sent, used :=
        Referral.GetServiceTicket(t, service, w.realmOf(service), w.nonce, w.maxReferrals, w.referral);
      if answer.Err? { return Err(answer.error); }
      var (ticket, referralTgts) := answer.value;
      ghost var start := Now();
      for i := 0 to |referralTgts|
        invariant Valid()
        invariant CacheTgts(start, referralTgts[..i], w.referralClock) == (Now(), None)
      {
        assert referralTgts[..i + 1][..i] == referralTgts[..i];
        var e := CacheTgtSessionAt(referralTgts[i], w.referralClock(i));
        if e.Some? {
          CacheTgtsStop(start, referralTgts, i + 1, w.referralClock);
          return Err(e.value);
        }
      }
      assert referralTgts[..|referralTgts|] == referralTgts;
      CacheServiceTicketAt(ticket, w.clock(7));
      return Ok(ticket);
    }

    /** `get_service_ticket`. */
    method GetTicket(service: Principal, w: World) returns (r: Result<Session, Error>)
      requires Valid()
      modifies this
      ensures Valid() && (Now(), r) == GetServiceTicket(old(Now()), service, w)
      ensures TicketIs(old(Now()), service, w, Now(), r)
    {
      hide Coherent, FetchTicket, CacheTicket, Process, ValidAt, RenewableAt, CacheKey, TicketIs;
      TicketDoes(Now(), service, w);
      var resolved := ResolveService(Now(), service, w);
      var key := CacheKey(resolved);
      if key in tickets {
        var ticket := tickets[key];
        if ValidAt(ticket, w.clock(4)) { return Ok(ticket.(service := resolved)); }
        if RenewableAt(ticket, w.clock(4)) {
          var q := Request(ticket.client, ticket.service.realm, ticket.service, w.nonce);
          var answer := Process(q, w.renewTicket, false);
          if answer.Ok? {
            var renewed := answer.value.(service := resolved);
            CacheServiceTicketAt(renewed, w.clock(5));
            return Ok(renewed);
          }
        }
      }
      r := Fetch(resolved, w);
    }

    // ----------------------------------------------------------------
    // Removal

    /** `prune_unusable_sessions_at`: whether the primary TGT went, and how many of the others. */
    method PruneUnusable(now: int) returns (primary: bool, tgtSessions: int, serviceTickets: int)
      requires Valid()
      modifies this
      ensures Valid() && Now() == Prune(old(Now()), now)
      ensures OnlyUsable(old(sessions), now, sessions) && OnlyUsable(old(tickets), now, tickets)
      ensures tgt == Lookup(sessions, client.realm)
      ensures primary <==> old(tgt).Some? && tgt.None?
      ensures tgtSessions == |old(sessions)| - |sessions| && serviceTickets == |old(tickets)| - |tickets|
    {
      hide Coherent, UsableAt, OnlyUsable;
      RemovalCoherent(Now(), now, [], {});
      PruneIs(Now(), now);
      primary := tgt.Some? && !UsableAt(tgt.value, now);
      if primary { tgt := None; }
      var before := |sessions|;
      sessions := Usable(sessions, now);
      tgtSessions := before - |sessions|;
      before := |tickets|;
      tickets := Usable(tickets, now);
      serviceTickets := before - |tickets|;
    }

    /** `remove_tgt_session_for_realm`. The primary TGT never has to stand in for a missing session. */
    method RemoveTgtSessionForRealm(realm: Name) returns (removed: Option<Session>)
      requires Valid()
      modifies this
      ensures Valid() && Now() == RemoveRealm(old(Now()), realm)
      ensures sessions == old(sessions) - {realm} && tickets == old(tickets) && hasCredentials == old(hasCredentials)
      ensures tgt == if realm == client.realm then None else old(tgt)
      ensures removed == Lookup(old(sessions), realm)
    {
      RemovalCoherent(Now(), 0, realm, {});
      removed := Lookup(sessions, realm);
      sessions := sessions - {realm};
      if realm == client.realm {
        var primary := tgt;
        tgt := None;
        return if removed.Some? then removed else primary;
      }
    }

    /** `remove_cached_service_ticket`. */
    method RemoveCachedServiceTicket(service: Principal, w: World) returns (removed: Option<Session>)
      requires Valid()
      modifies this
      ensures var key := CacheKey(ResolveService(old(Now()), service, w));
              && Valid() && Now() == old(Now()).(tickets := old(tickets) - {key})
              && removed == Lookup(old(tickets), key)
    {
      hide Coherent, CacheKey;
      var key := CacheKey(ResolveService(Now(), service, w));
      RemovalCoherent(Now(), 0, [], {key});
      removed := Lookup(tickets, key);
      tickets := tickets - {key};
    }

    method ClearServiceTicketCache()
      requires Valid()
      modifies this
      ensures Valid() && Now() == old(Now()).(tickets := map[])
    {
      tickets := map[];
    }

    method DestroyAll()
      modifies this
      ensures Valid() && Now() == Destroyed(old(Now()))
      ensures !hasCredentials && tgt == None && sessions == map[] && tickets == map[]
    {
      hasCredentials, tgt, sessions, tickets := false, None, map[], map[];
    }

    // ----------------------------------------------------------------
    // Credential caches

    /** `ccache_credentials`, the maps visited in the given orders. */
    method CcacheCredentials(realms: seq<Name>, keys: seq<Name>) returns (r: Result<seq<Ccache.Credential>, Error>)
      requires Lists(realms, sessions) && Lists(keys, tickets)
      ensures r == ExportAll(CcacheSessions(Now(), realms, keys))
    {
      hide Exported, Lists;
      var listed := CcacheSessions(Now(), realms, keys);
      var credentials := [];
      for i := 0 to |listed|
        invariant ExportAll(listed[..i]) == Ok(credentials)
      {
        assert listed[..i + 1][..i] == listed[..i];
        var exported := Exported(listed[i]);
        if exported.Err? {
          ExportAllStops(listed, i + 1);
          return Err(exported.error);
        }
        credentials := credentials + [exported.value];
      }
      assert listed[..|listed|] == listed;
      return Ok(credentials);
    }

    /** `to_ccache`. */
    method ToCcacheFile(realms: seq<Name>, keys: seq<Name>) returns (r: Result<CcacheEdit.Cache, Error>)
      requires Lists(realms, sessions) && Lists(keys, tickets)
      ensures r.Ok? <==> ExportAll(CcacheSessions(Now(), realms, keys)).Ok?
      ensures r.Ok? ==> && fresh(r.value) && r.value.principal == ToCcache(client)
                        && r.value.credentials
                           == CcacheEdit.UpsertAll([], ExportAll(CcacheSessions(Now(), realms, keys)).value)
    {
      hide Lists, ExportAll, CcacheSessions, CcacheEdit.UpsertAll;
      var cache := new CcacheEdit.Cache(ToCcache(client));
      var credentials :- CcacheCredentials(realms, keys);
      cache.UpsertEach(credentials);
      return Ok(cache);
    }

    /** `update_ccache`. The principal is set and this client's tickets are gone before the export can fail. */
    method UpdateCcache(cache: CcacheEdit.Cache, realms: seq<Name>, keys: seq<Name>) returns (e: Option<Error>)
      requires Lists(realms, sessions) && Lists(keys, tickets)
      modifies cache
      ensures cache.principal == ToCcache(client)
      ensures (cache.credentials, e) == UpdatedBy(Now(), realms, keys, old(cache.credentials))
    {
      hide Lists, ExportAll, CcacheSessions, CcacheEdit.UpsertAll, CcacheEdit.Tickets;
      cache.principal := ToCcache(client);
      var removed := cache.RemoveEntriesForClient(ToCcache(client));
      var credentials := CcacheCredentials(realms, keys);
      if credentials.Err? { return Some(credentials.error); }
      cache.UpsertEach(credentials.value);
      return None;
    }

    /** `from_ccache`. */
    static method FromCcacheFile(cache: CcacheEdit.Cache, now: int, clock: nat -> int) returns (c: Client)
      ensures fresh(c) && c.Valid()
      ensures c.Now() == LoadAll(FromCcache(cache.principal), cache.credentials, now, clock)
    {
      hide Coherent, CacheTgt, CacheTicket, Imported, IsTgt, CcacheEdit.IsConfig;
      c := new Client(FromCcache(cache.principal), false);
      for i := 0 to |cache.credentials|
        invariant fresh(c) && c.Valid() && c.client == FromCcache(cache.principal)
        invariant c.Now() == LoadAll(FromCcache(cache.principal), cache.credentials[..i], now, clock)
      {
        var credential := cache.credentials[i];
        assert cache.credentials[..i + 1][..i] == cache.credentials[..i];
        if CcacheEdit.IsConfig(credential.server) { continue; }
        if !CcacheEdit.SameIdentity(credential.client, cache.principal) { continue; }
        var session := Imported(credential);
        if IsTgt(session.service) {
          var ignored := c.CacheTgtSessionAt(session, now);
        } else {
          c.CacheServiceTicketAt(session, clock(i));
        }
      }
      assert cache.credentials[..|cache.credentials|] == cache.credentials;
    }
  }

  lemma {:induction false} CacheTgtsStop(s: State, ts: seq<Session>, n: nat, clock: nat -> int)
    requires n <= |ts| && CacheTgts(s, ts[..n], clock).1.Some?
    ensures CacheTgts(s, ts, clock) == CacheTgts(s, ts[..n], clock)
    decreases |ts|
  {
    hide CacheTgt;
    if n < |ts| {
      assert ts[..|ts| - 1][..n] == ts[..n];
      CacheTgtsStop(s, ts[..|ts| - 1], n, clock);
    } else {
      assert ts[..n] == ts;
    }
  }

  lemma {:induction false} ExportAllStops(ss: seq<Session>, n: nat)
    requires n <= |ss| && ExportAll(ss[..n]).Err?
    ensures ExportAll(ss) == ExportAll(ss[..n])
    decreases |ss|
  {
    hide Exported;
    if n < |ss| {
      assert ss[..|ss| - 1][..n] == ss[..n];
      ExportAllStops(ss[..|ss| - 1], n);
    } else {
      assert ss[..n] == ss;
    }
  }
}
