/** What the caches of a client hold: the best session of each realm, and tickets for the services they
    are asked for (src/client.rs). */
module ClientCaches {
  import opened Bytes
  import opened Sessions
  import opened ClientState
  import Referral

  // ------------------------------------------------------------------
  // The cache key

  predicate NulFree(n: Name)
  {
    forall i :: 0 <= i < |n| ==> n[i] != 0
  }

  predicate NulFreePrincipal(p: Principal)
  {
    NulFree(p.realm) && forall i :: 0 <= i < |p.components| ==> NulFree(p.components[i])
  }

  lemma {:induction false} JoinedInjective(x: Name, xs: seq<Name>, y: Name, ys: seq<Name>)
    requires NulFree(x) && NulFree(y)
    requires forall i :: 0 <= i < |xs| ==> NulFree(xs[i])
    requires forall i :: 0 <= i < |ys| ==> NulFree(ys[i])
    requires x + Joined(xs) == y + Joined(ys)
    ensures x == y && xs == ys
    decreases |xs|
  {
    var whole := x + Joined(xs);
    assert xs != [] ==> whole[|x|] == Joined(xs)[0];
    assert ys != [] ==> whole[|y|] == Joined(ys)[0];
    assert forall i :: 0 <= i < |x| ==> whole[i] == x[i];
    assert forall i :: 0 <= i < |y| ==> whole[i] == y[i];
    assert x == whole[..|x|] == y;
    assert Joined(xs) == whole[|x|..] == Joined(ys);
    if xs != [] && ys != [] {
      assert Joined(xs)[1..] == xs[0] + Joined(xs[1..]) && Joined(ys)[1..] == ys[0] + Joined(ys[1..]);
      JoinedInjective(xs[0], xs[1..], ys[0], ys[1..]);
      assert xs == [xs[0]] + xs[1..] && ys == [ys[0]] + ys[1..];
    }
  }

  /** Names without zero bytes share a key exactly when they match. */
  lemma CacheKeyIsExact(a: Principal, b: Principal)
    requires NulFreePrincipal(a) && NulFreePrincipal(b)
    ensures CacheKey(a) == CacheKey(b) <==> Matches(a, b)
  {
    if CacheKey(a) == CacheKey(b) { JoinedInjective(a.realm, a.components, b.realm, b.components); }
  }

  /** With a zero byte in a name two services can share a key. */
  lemma CacheKeyCollides()
    ensures var a, b := Principal([0x41, 0, 0x42], 2, []), Principal([0x41], 2, [[0x42]]);
            CacheKey(a) == CacheKey(b) && !Matches(a, b)
  {
    assert Joined([[0x42]]) == [0] + [0x42] + Joined([]);
  }

  /** A ticket for `service`; an empty realm is left to be found during the exchange. */
  predicate IsFor(t: Session, service: Principal)
  {
    t.service.components == service.components && (service.realm != [] ==> t.service.realm == service.realm)
  }

  /** Whatever way a service ticket is come by, it is for the service asked for (in the realm asked for, if
      one was found); and one served from the cache was issued for it, if the names hold no zero byte. */
  lemma TicketIsForService(s: State, service: Principal, w: World)
    requires Coherent(s)
    ensures var resolved := ResolveService(s, service, w);
            && (GetServiceTicket(s, service, w).1.Ok? ==> IsFor(GetServiceTicket(s, service, w).1.value, resolved))
            && (CacheKey(resolved) in s.tickets && NulFreePrincipal(resolved)
                && NulFreePrincipal(s.tickets[CacheKey(resolved)].service)
                ==> Matches(s.tickets[CacheKey(resolved)].service, resolved))
  {
    hide IsTgt, ValidAt, RenewableAt, TgtFor, CacheTgts, CacheTicket, Process, CacheKey, ResolveService,
         Referral.Exchange;
    var resolved := ResolveService(s, service, w);
    if CacheKey(resolved) in s.tickets && NulFreePrincipal(resolved)
       && NulFreePrincipal(s.tickets[CacheKey(resolved)].service) {
      CacheKeyIsExact(s.tickets[CacheKey(resolved)].service, resolved);
    }
    if FetchTicket(s, resolved, w).1.Ok? { FetchedIsForService(s, resolved, w); }
  }

  lemma FetchedIsForService(s: State, service: Principal, w: World)
    requires Coherent(s) && FetchTicket(s, service, w).1.Ok?
    ensures IsFor(FetchTicket(s, service, w).1.value, service)
  {
    hide IsTgt, TgtFor, CacheTgts, CacheTicket, Process, CacheKey, TgtRealm, Coherent, Referral.Exchange;
    TgtForSound(s, service.realm, w);
    var tgt := TgtFor(s, service.realm, w).1.value;
    Referral.ExchangeSafe(tgt, service, w.realmOf(service), w.nonce, w.maxReferrals, w.referral);
  }

  // ------------------------------------------------------------------
  // The session a realm ends up with

  /** Valid before invalid, then the later end. */
  predicate Better(a: Session, b: Session, now: int)
  {
    if ValidAt(a, now) != ValidAt(b, now) then ValidAt(a, now) else a.grant.endTime > b.grant.endTime
  }

  lemma PreferCurrentIsNotBetter(current: Session, candidate: Session, now: int)
    ensures PreferCurrent(current, candidate, now) <==> !Better(candidate, current, now)
  {
  }

  /** The TGTs of `ts` for a realm, in order. */
  function ForRealm(ts: seq<Session>, realm: Name): (r: seq<Session>)
    ensures forall t :: t in r <==> t in ts && TgtRealm(t) == Some(realm)
  {
    if ts == [] then []
    else
      var before, last := ForRealm(ts[..|ts| - 1], realm), ts[|ts| - 1];
      assert forall t :: t in ts <==> t in ts[..|ts| - 1] || t == last;
      if TgtRealm(last) == Some(realm) then before + [last] else before
  }

  /** All sessions cached at one instant, as when a credential cache is loaded; what is no TGT is refused. */
  function CacheAll(s: State, ts: seq<Session>, now: int): State
    decreases |ts|
  {
    if ts == [] then s else CacheTgt(CacheAll(s, ts[..|ts| - 1], now), ts[|ts| - 1], now).0
  }

  /** The session the realm already has, and the new ones for it. */
  function Candidates(s: State, ts: seq<Session>, realm: Name): seq<Session>
  {
    (if realm in s.sessions then [s.sessions[realm]] else []) + ForRealm(ts, realm)
  }

  /** The first of the best. */
  ghost predicate FirstBest(cs: seq<Session>, i: nat, now: int)
  {
    && i < |cs|
    && (forall j :: 0 <= j < i ==> Better(cs[i], cs[j], now))
    && (forall j :: i < j < |cs| ==> !Better(cs[j], cs[i], now))
  }

  lemma FirstBestStep(cs: seq<Session>, i: nat, t: Session, now: int)
    requires FirstBest(cs, i, now)
    ensures FirstBest(cs + [t], if Better(t, cs[i], now) then |cs| else i, now)
  {
    hide ValidAt;
  }

  lemma {:induction false} CacheAllCoherent(s: State, ts: seq<Session>, now: int)
    requires Coherent(s)
    ensures Coherent(CacheAll(s, ts, now))
  {
    hide Coherent, CacheTgt;
    if ts != [] {
      CacheAllCoherent(s, ts[..|ts| - 1], now);
      CacheTgtCoherent(CacheAll(s, ts[..|ts| - 1], now), ts[|ts| - 1], now);
    }
  }

  /** Caching any TGTs at one instant leaves, for each realm, the first of the best candidates. */
  lemma {:induction false} CacheAllKeepsBest(s: State, ts: seq<Session>, now: int, realm: Name)
    requires Coherent(s)
    ensures var after, cs := CacheAll(s, ts, now), Candidates(s, ts, realm);
            && (realm in after.sessions <==> cs != [])
            && (cs != [] ==> exists i: nat :: FirstBest(cs, i, now) && after.sessions[realm] == cs[i])
  {
    hide ValidAt, IsTgt, Coherent, CacheTgt, Better;
    if ts == [] {
      assert realm in s.sessions ==> FirstBest(Candidates(s, ts, realm), 0, now);
    } else {
      var before, last := ts[..|ts| - 1], ts[|ts| - 1];
      CacheAllKeepsBest(s, before, now, realm);
      CacheAllCoherent(s, before, now);
      var mid, cs := CacheAll(s, before, now), Candidates(s, before, realm);
      CacheTgtCoherent(mid, last, now);
      CacheTgtRefuses(mid, last, now);
      if TgtRealm(last) == Some(realm) {
        assert Candidates(s, ts, realm) == cs + [last];
        if cs != [] {
          var i: nat :| FirstBest(cs, i, now) && mid.sessions[realm] == cs[i];
          FirstBestStep(cs, i, last, now);
          PreferCurrentIsNotBetter(cs[i], last, now);
          assert FirstBest(cs + [last], if Better(last, cs[i], now) then |cs| else i, now);
        } else {
          assert FirstBest([last], 0, now);
        }
      }
    }
  }

  lemma CacheTgtRefuses(s: State, t: Session, now: int)
    ensures !IsTgt(t.service) ==> CacheTgt(s, t, now).0 == s
  {
  }

  /** The order does not matter, up to sessions equally valid that end at the same time; and as long as one
      candidate is valid, a valid one is kept. */
  lemma CacheAllOrderFree(s: State, ts: seq<Session>, us: seq<Session>, now: int, realm: Name)
    requires Coherent(s) && multiset(ts) == multiset(us)
    ensures var a, b := CacheAll(s, ts, now).sessions, CacheAll(s, us, now).sessions;
            && (realm in a <==> realm in b)
            && (realm in a ==> ValidAt(a[realm], now) == ValidAt(b[realm], now)
                               && a[realm].grant.endTime == b[realm].grant.endTime)
            && (realm in a && (exists c :: c in Candidates(s, ts, realm) && ValidAt(c, now)) ==> ValidAt(a[realm], now))
  {
    hide ValidAt, IsTgt, CacheAll;
    CacheAllKeepsBest(s, ts, now, realm);
    CacheAllKeepsBest(s, us, now, realm);
    var cs, ds := Candidates(s, ts, realm), Candidates(s, us, realm);
    assert forall t :: t in ts <==> t in multiset(ts);
    assert forall t :: t in us <==> t in multiset(us);
    assert forall t :: t in cs <==> t in ds;
    assert cs != [] ==> cs[0] in ds;
    assert ds != [] ==> ds[0] in cs;
    if cs != [] {
      var i: nat :| FirstBest(cs, i, now) && CacheAll(s, ts, now).sessions[realm] == cs[i];
      var j: nat :| FirstBest(ds, j, now) && CacheAll(s, us, now).sessions[realm] == ds[j];
      BestBeats(cs, i, now, ds[j]);
      BestBeats(ds, j, now, cs[i]);
      forall c | c in cs ensures !Better(c, cs[i], now) { BestBeats(cs, i, now, c); }
    }
  }

  lemma BestBeats(cs: seq<Session>, i: nat, now: int, c: Session)
    requires FirstBest(cs, i, now) && c in cs
    ensures !Better(c, cs[i], now)
  {
    hide ValidAt;
  }
}
