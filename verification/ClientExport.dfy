/** Exporting a client to a credential cache and loading it again (src/client.rs:226-252,
    src/client.rs:589-674, src/client.rs:3562-3590). */
module ClientExport {
  import opened Bytes
  import opened Clock
  import opened Sessions
  import opened ClientState
  import ClientTimes
  import Wire
  import Ccache
  import CcacheEdit
  import CcacheRoundTrip

  /** `ccache_principal` and `client_principal_from_ccache`. */
  function ToCcache(p: Principal): Ccache.Principal
  {
    Ccache.Principal(p.realm, p.nameType, p.components)
  }

  function FromCcache(p: Ccache.Principal): Principal
  {
    Principal(p.realm, p.nameType, p.components)
  }

  // ------------------------------------------------------------------
  // One session

  /** What `system_time_to_u32_seconds` accepts: whole seconds, not before 1970, below 2^32. */
  predicate WholeSeconds(time: int)
  {
    0 <= time && time % SECOND == 0 && time / SECOND < U32
  }

  function FromSeconds(n: nat): int
  {
    n * SECOND
  }

  predicate TimesFit(g: Grant)
  {
    && WholeSeconds(g.authTime) && WholeSeconds(g.startTime) && WholeSeconds(g.endTime)
    && (g.renewTill.Some? ==> WholeSeconds(g.renewTill.value))
  }

  /** `to_ccache_credential`. */
  function Exported(s: Session): Result<Ccache.Credential, Error>
  {
    var g := s.grant;
    if !TimesFit(g) then Err(TimeOverflow)
    else
      var times := Ccache.Times(g.authTime / SECOND, g.startTime / SECOND, g.endTime / SECOND,
                                if g.renewTill.Some? then g.renewTill.value / SECOND else 0);
      Ok(Ccache.Credential(ToCcache(s.client), ToCcache(s.service), g.etype, g.key, times, false, g.flags,
                           [], [], g.ticket, []))
  }

  /** `ccache_credential_session`. */
  function Imported(c: Ccache.Credential): Session
  {
    var auth := FromSeconds(c.times.authTime);
    Session(FromCcache(c.client), FromCcache(c.server),
            Grant(c.etype, c.key, c.ticket, c.flags, auth,
                  if c.times.startTime == 0 then auth else FromSeconds(c.times.startTime),
                  FromSeconds(c.times.endTime),
                  if c.times.renewTill != 0 then Some(FromSeconds(c.times.renewTill)) else None,
                  None))
  }

  /** What a session is in the file, field by field: exported exactly when its times, and the renewal limit if it has
      one, are whole seconds from the epoch on that fit 32 bits. */
  lemma ExportedIs(s: Session, c: Ccache.Credential)
    ensures Exported(s) == Ok(c) <==>
      && 0 <= c.times.authTime < 0x1_0000_0000 && s.grant.authTime == c.times.authTime * 1_000_000_000
      && 0 <= c.times.startTime < 0x1_0000_0000 && s.grant.startTime == c.times.startTime * 1_000_000_000
      && 0 <= c.times.endTime < 0x1_0000_0000 && s.grant.endTime == c.times.endTime * 1_000_000_000
      && 0 <= c.times.renewTill < 0x1_0000_0000
      && (match s.grant.renewTill
          case None => c.times.renewTill == 0
          case Some(time) => time == c.times.renewTill * 1_000_000_000)
      && c.client == Ccache.Principal(s.client.realm, s.client.nameType, s.client.components)
      && c.server == Ccache.Principal(s.service.realm, s.service.nameType, s.service.components)
      && c.etype == s.grant.etype && c.key == s.grant.key && c.flags == s.grant.flags && c.ticket == s.grant.ticket
      && !c.isSkey && c.addresses == [] && c.authData == [] && c.secondTicket == []
  {
    hide WholeSeconds;
    SecondsAre(s.grant.authTime, c.times.authTime);
    SecondsAre(s.grant.startTime, c.times.startTime);
    SecondsAre(s.grant.endTime, c.times.endTime);
    if s.grant.renewTill.Some? { SecondsAre(s.grant.renewTill.value, c.times.renewTill); }
  }

  lemma SecondsAre(time: int, n: nat)
    ensures WholeSeconds(time) && time / SECOND == n <==> n < 0x1_0000_0000 && time == n * 1_000_000_000
  {
    if time == n * 1_000_000_000 { DivUnique(time, SECOND, n, 0); }
  }

  /** What a credential is read as: a start of zero is the authentication time, a renewal limit of zero none. */
  lemma ImportedIs(c: Ccache.Credential)
    ensures var s := Imported(c);
            && s.client == Principal(c.client.realm, c.client.nameType, c.client.components)
            && s.service == Principal(c.server.realm, c.server.nameType, c.server.components)
            && s.grant.etype == c.etype && s.grant.key == c.key && s.grant.ticket == c.ticket
            && s.grant.flags == c.flags
            && s.grant.authTime == c.times.authTime * 1_000_000_000
            && s.grant.startTime == (if c.times.startTime == 0 then c.times.authTime else c.times.startTime)
                                    * 1_000_000_000
            && s.grant.endTime == c.times.endTime * 1_000_000_000
            && (c.times.renewTill == 0 ==> s.grant.renewTill == None)
            && (c.times.renewTill != 0 ==> s.grant.renewTill == Some(c.times.renewTill * 1_000_000_000))
            && s.grant.keyExpiration == None
  {
  }

  /** Nothing of the session is lost in the file. */
  predicate Survives(g: Grant)
  {
    g.keyExpiration.None? && g.renewTill != Some(0) && (g.startTime == 0 ==> g.authTime == 0)
  }

  lemma SecondsBack(time: int)
    requires WholeSeconds(time)
    ensures FromSeconds(time / SECOND) == time && (time / SECOND == 0 <==> time == 0)
  {
  }

  /** An exported session comes back unchanged exactly when it has no key expiration, its renewal limit is
      not the epoch itself, and a start at the epoch is also its authentication time. */
  lemma ImportUndoesExport(s: Session)
    requires Exported(s).Ok?
    ensures Imported(Exported(s).value) == s <==> Survives(s.grant)
  {
    hide WholeSeconds;
    var g := s.grant;
    SecondsBack(g.authTime);
    SecondsBack(g.startTime);
    SecondsBack(g.endTime);
    if g.renewTill.Some? { SecondsBack(g.renewTill.value); }
  }

  // ------------------------------------------------------------------
  // The whole client

  /** The keys of a map in the order its values are visited. */
  predicate Lists(order: seq<Name>, m: map<Name, Session>)
  {
    && (forall k :: k in order ==> k in m) && (forall k :: k in m ==> k in order)
    && forall i, j :: 0 <= i < j < |order| ==> order[i] != order[j]
  }

  function Values(order: seq<Name>, m: map<Name, Session>): (r: seq<Session>)
    requires Lists(order, m)
    ensures |r| == |order| && forall i :: 0 <= i < |order| ==> order[i] in m && r[i] == m[order[i]]
  {
    seq(|order|, i requires 0 <= i < |order| => m[order[i]])
  }

  function ExportAll(ss: seq<Session>): Result<seq<Ccache.Credential>, Error>
  {
    if ss == [] then Ok([])
    else match ExportAll(ss[..|ss| - 1])
      case Err(e) => Err(e)
      case Ok(before) =>
        match Exported(ss[|ss| - 1])
        case Err(e) => Err(e)
        case Ok(c) => Ok(before + [c])
  }

  /** `ccache_credentials`, the maps visited in the given orders. */
  function CcacheSessions(s: State, realms: seq<Name>, keys: seq<Name>): seq<Session>
    requires Lists(realms, s.sessions) && Lists(keys, s.tickets)
  {
    (if s.sessions == map[] then (if s.tgt.Some? then [s.tgt.value] else []) else Values(realms, s.sessions))
    + Values(keys, s.tickets)
  }

  /** `from_ccache`, one credential: configuration entries and other clients are passed over. */
  function Load(s: State, c: Ccache.Credential, now: int, clock: int): State
  {
    if CcacheEdit.IsConfig(c.server) || !CcacheEdit.SameIdentity(c.client, ToCcache(s.client)) then s
    else if IsTgt(Imported(c).service) then CacheTgt(s, Imported(c), now).0
    else CacheTicket(s, Imported(c), clock)
  }

  /** `from_ccache`: the clock is read once for the TGTs and again for every ticket. */
  function LoadAll(client: Principal, cs: seq<Ccache.Credential>, now: int, clock: nat -> int): State
  {
    if cs == [] then New(client, false)
    else Load(LoadAll(client, cs[..|cs| - 1], now, clock), cs[|cs| - 1], now, clock(|cs| - 1))
  }

  /** What loading does with one credential: nothing if its client has another realm or other components, or if it is
      a configuration entry; else a TGT is filed at the first reading of the clock, a ticket at its own. */
  lemma LoadIs(s: State, c: Ccache.Credential, now: int, clock: int)
    requires Coherent(s)
    ensures var after := Load(s, c, now, clock);
            if c.client.realm != s.client.realm || c.client.components != s.client.components
               || (c.server.realm == Ascii("X-CACHECONF:") && |c.server.components| in {2, 3}
                   && c.server.components[0] == Ascii("krb5_ccache_conf_data")) then
              after == s
            else if IsTgt(Imported(c).service) then ClientTimes.TgtFiled(s, Imported(c), now, after, None)
            else ClientTimes.TicketFiled(s, Imported(c), clock, after)
  {
    hide CacheTgt, CacheTicket, Imported, IsTgt, Coherent, ClientTimes.TgtFiled, ClientTimes.TicketFiled;
    CcacheEdit.TicketOfIs(ToCcache(s.client), c);
    ClientTimes.CacheTgtFiles(s, Imported(c), now);
    ClientTimes.CacheTicketFiles(s, Imported(c), clock);
    if IsTgt(Imported(c).service) { NoErrorForTgt(s, Imported(c), now); }
  }

  lemma NoErrorForTgt(s: State, t: Session, now: int)
    requires IsTgt(t.service)
    ensures CacheTgt(s, t, now).1 == None
  {
  }

  /** Loading any cache gives a coherent client. */
  lemma {:induction false} LoadedCoherent(client: Principal, cs: seq<Ccache.Credential>, now: int, clock: nat -> int)
    ensures Coherent(LoadAll(client, cs, now, clock)) && LoadAll(client, cs, now, clock).client == client
  {
    hide CacheTgt, CacheTicket, Coherent, Imported, IsTgt;
    if cs != [] {
      var before, last := LoadAll(client, cs[..|cs| - 1], now, clock), cs[|cs| - 1];
      LoadedCoherent(client, cs[..|cs| - 1], now, clock);
      CacheTgtCoherent(before, Imported(last), now);
      CacheTgtClient(before, Imported(last), now);
      CacheTicketCoherent(before, Imported(last), clock(|cs| - 1));
      CacheTicketClient(before, Imported(last), clock(|cs| - 1));
    }
  }

  /** A session that survives the file and is this client's, for a real service. */
  predicate Portable(s: State, t: Session)
  {
    TimesFit(t.grant) && Survives(t.grant) && Matches(t.client, s.client) && !CcacheEdit.IsConfig(ToCcache(t.service))
  }

  predicate AllPortable(s: State)
  {
    && (forall r :: r in s.sessions ==> Portable(s, s.sessions[r]))
    && (forall k :: k in s.tickets ==> Portable(s, s.tickets[k]) && !IsTgt(s.tickets[k].service))
  }

  lemma NothingElse(s: State, realms: seq<Name>, keys: seq<Name>)
    requires Coherent(s) && Lists(realms, s.sessions) && Lists(keys, s.tickets)
    ensures CcacheSessions(s, realms, keys) == Values(realms, s.sessions) + Values(keys, s.tickets)
  {
    assert realms != [] ==> realms[0] in realms;
  }

  lemma {:induction false} ExportAllExact(ss: seq<Session>)
    ensures ExportAll(ss).Ok? <==> forall i :: 0 <= i < |ss| ==> TimesFit(ss[i].grant)
    ensures ExportAll(ss).Ok? ==>
              && |ExportAll(ss).value| == |ss|
              && forall i :: 0 <= i < |ss| ==> Exported(ss[i]) == Ok(ExportAll(ss).value[i])
  {
    hide TimesFit;
    if ss != [] {
      ExportAllExact(ss[..|ss| - 1]);
    }
  }

  /** The listed sessions are those of the two maps. */
  lemma ListedAre(s: State, realms: seq<Name>, keys: seq<Name>, i: nat)
    requires Lists(realms, s.sessions) && Lists(keys, s.tickets) && i < |realms| + |keys|
    ensures var t := (Values(realms, s.sessions) + Values(keys, s.tickets))[i];
            if i < |realms| then realms[i] in s.sessions && t == s.sessions[realms[i]]
            else keys[i - |realms|] in s.tickets && t == s.tickets[keys[i - |realms|]]
  {
    if i < |realms| { assert realms[i] in realms; } else { assert keys[i - |realms|] in keys; }
  }

  /** Every time of every session fits the file. */
  predicate AllTimesFit(s: State)
  {
    && (forall r :: r in s.sessions ==> TimesFit(s.sessions[r].grant))
    && (forall k :: k in s.tickets ==> TimesFit(s.tickets[k].grant))
  }

  /** No service ticket has the very client and service of a cached TGT. */
  predicate SlotsApart(s: State)
  {
    forall r, k :: r in s.sessions && k in s.tickets ==> !SameSlot(s.sessions[r], s.tickets[k])
  }

  predicate SameSlot(t: Session, u: Session)
  {
    t.client == u.client && t.service == u.service
  }

  /** The export succeeds exactly when all times fit. */
  lemma ExportExact(s: State, realms: seq<Name>, keys: seq<Name>)
    requires Coherent(s) && Lists(realms, s.sessions) && Lists(keys, s.tickets)
    ensures ExportAll(CcacheSessions(s, realms, keys)).Ok? <==> AllTimesFit(s)
  {
    hide Coherent, TimesFit, Lists;
    NothingElse(s, realms, keys);
    var ss: seq<Session> := Values(realms, s.sessions) + Values(keys, s.tickets);
    ExportAllExact(ss);
    forall i | 0 <= i < |ss| ensures AllTimesFit(s) ==> TimesFit(ss[i].grant) { ListedAre(s, realms, keys, i); }
    if forall i :: 0 <= i < |ss| ==> TimesFit(ss[i].grant) {
      forall r | r in s.sessions ensures TimesFit(s.sessions[r].grant) {
        var i := ListedAt(realms, s.sessions, r);
        assert ss[i] == s.sessions[r];
      }
      forall k | k in s.tickets ensures TimesFit(s.tickets[k].grant) {
        var i := ListedAt(keys, s.tickets, k);
        assert ss[|realms| + i] == s.tickets[k];
      }
    }
  }

  lemma ListedAt(order: seq<Name>, m: map<Name, Session>, k: Name) returns (i: nat)
    requires Lists(order, m) && k in m
    ensures i < |order| && order[i] == k
  {
    i :| 0 <= i < |order| && order[i] == k;
  }

  /** Two exported sessions share a slot exactly when a TGT and a service ticket do. */
  lemma ExportedApart(s: State, realms: seq<Name>, keys: seq<Name>)
    requires Coherent(s) && Lists(realms, s.sessions) && Lists(keys, s.tickets)
    requires ExportAll(CcacheSessions(s, realms, keys)).Ok?
    ensures CcacheEdit.NoDuplicates(ExportAll(CcacheSessions(s, realms, keys)).value) <==> SlotsApart(s)
  {
    hide Coherent, TimesFit, Lists, CcacheEdit.SamePair, SameSlot;
    NothingElse(s, realms, keys);
    var ss: seq<Session> := Values(realms, s.sessions) + Values(keys, s.tickets);
    ExportAllExact(ss);
    var cs := ExportAll(ss).value;
    if SlotsApart(s) {
      forall i, j | 0 <= i < j < |cs| ensures !CcacheEdit.SamePair(cs[i], cs[j]) {
        ExportedSlot(ss[i], ss[j], cs[i], cs[j]);
        ApartAt(s, realms, keys, i, j);
      }
    }
    if CcacheEdit.NoDuplicates(cs) {
      forall r, k | r in s.sessions && k in s.tickets ensures !SameSlot(s.sessions[r], s.tickets[k]) {
        var i := ListedAt(realms, s.sessions, r);
        var j := ListedAt(keys, s.tickets, k);
        assert ss[i] == s.sessions[r] && ss[|realms| + j] == s.tickets[k];
        ExportedSlot(ss[i], ss[|realms| + j], cs[i], cs[|realms| + j]);
      }
    }
  }

  lemma ExportedSlot(t: Session, u: Session, c: Ccache.Credential, d: Ccache.Credential)
    requires Exported(t) == Ok(c) && Exported(u) == Ok(d)
    ensures CcacheEdit.SamePair(c, d) <==> SameSlot(t, u)
  {
    hide TimesFit;
  }

  lemma ApartAt(s: State, realms: seq<Name>, keys: seq<Name>, i: nat, j: nat)
    requires Coherent(s) && Lists(realms, s.sessions) && Lists(keys, s.tickets) && SlotsApart(s)
    requires i < j < |realms| + |keys|
    ensures var ss := Values(realms, s.sessions) + Values(keys, s.tickets); !SameSlot(ss[i], ss[j])
  {
    hide CacheKey, IsTgt;
    ListedAre(s, realms, keys, i);
    ListedAre(s, realms, keys, j);
  }

  /** The export of such a client succeeds, with one credential for each session and no two in one slot. */
  lemma ExportShape(s: State, realms: seq<Name>, keys: seq<Name>)
    requires Coherent(s) && Lists(realms, s.sessions) && Lists(keys, s.tickets) && AllPortable(s)
    ensures var ss := Values(realms, s.sessions) + Values(keys, s.tickets);
            var r := ExportAll(CcacheSessions(s, realms, keys));
            && r.Ok? && |r.value| == |ss| && CcacheEdit.NoDuplicates(r.value)
            && forall i :: 0 <= i < |ss| ==> Exported(ss[i]) == Ok(r.value[i])
  {
    hide Exported, Lists, TimesFit, Survives, IsTgt, CcacheEdit.IsConfig, CcacheEdit.NoDuplicates, ExportAll,
         CcacheSessions;
    NothingElse(s, realms, keys);
    ExportExact(s, realms, keys);
    ExportAllExact(Values(realms, s.sessions) + Values(keys, s.tickets));
    assert forall r, k :: r in s.sessions && k in s.tickets ==> !SameSlot(s.sessions[r], s.tickets[k]);
    ExportedApart(s, realms, keys);
  }

  /** The part of a map whose keys have been visited. */
  function Part(order: seq<Name>, m: map<Name, Session>): map<Name, Session>
  {
    map k | k in m && k in order :: m[k]
  }

  lemma LoadedAs(s: State, loaded: State, t: Session, c: Ccache.Credential, now: int, clock: int)
    requires loaded.client == s.client && Portable(s, t) && Exported(t) == Ok(c)
    ensures Load(loaded, c, now, clock)
         == if IsTgt(t.service) then CacheTgt(loaded, t, now).0 else CacheTicket(loaded, t, clock)
  {
    hide TimesFit, IsTgt, CacheTgt, CacheTicket, CcacheEdit.IsConfig;
    ImportUndoesExport(t);
  }

  lemma PartGrows(seen: seq<Name>, m: map<Name, Session>, k: Name)
    requires k in m
    ensures Part(seen + [k], m) == Part(seen, m)[k := m[k]]
  {
  }

  lemma LoadTgt(s: State, loaded: State, c: Ccache.Credential, realm: Name, seen: seq<Name>, now: int, clock: int)
    requires Coherent(s) && Coherent(loaded) && loaded.client == s.client
    requires realm in s.sessions && realm !in seen && loaded.sessions == Part(seen, s.sessions)
    requires Portable(s, s.sessions[realm]) && Exported(s.sessions[realm]) == Ok(c)
    ensures Load(loaded, c, now, clock).sessions == Part(seen + [realm], s.sessions)
    ensures Load(loaded, c, now, clock).tickets == loaded.tickets
  {
    hide Exported, Portable, IsTgt, Load, CacheTgt, PreferCurrent;
    var t := s.sessions[realm];
    LoadedAs(s, loaded, t, c, now, clock);
    CacheTgtCoherent(loaded, t, now);
    CacheTgtTickets(loaded, t, now);
    PartGrows(seen, s.sessions, realm);
  }

  lemma LoadTicket(s: State, loaded: State, c: Ccache.Credential, key: Name, seen: seq<Name>, now: int, clock: int)
    requires Coherent(s) && loaded.client == s.client
    requires key in s.tickets && key !in seen && loaded.tickets == Part(seen, s.tickets)
    requires Portable(s, s.tickets[key]) && !IsTgt(s.tickets[key].service) && Exported(s.tickets[key]) == Ok(c)
    ensures Load(loaded, c, now, clock).tickets == Part(seen + [key], s.tickets)
    ensures Load(loaded, c, now, clock).sessions == loaded.sessions
  {
    hide Exported, Portable, IsTgt, Load, PreferCurrent, CacheKey;
    LoadedAs(s, loaded, s.tickets[key], c, now, clock);
    PartGrows(seen, s.tickets, key);
  }

  lemma LoadAllStep(client: Principal, cs: seq<Ccache.Credential>, n: nat, now: int, clock: nat -> int)
    requires n < |cs|
    ensures LoadAll(client, cs[..n + 1], now, clock) == Load(LoadAll(client, cs[..n], now, clock), cs[n], now, clock(n))
  {
    hide Load;
    assert cs[..n + 1][..n] == cs[..n] && cs[..n + 1][n] == cs[n];
  }

  lemma Next(order: seq<Name>, n: nat, m: map<Name, Session>)
    requires n < |order| && Lists(order, m)
    ensures order[n] in m && order[n] !in order[..n] && order[..n + 1] == order[..n] + [order[n]]
  {
    assert order[n] in order;
  }

  /** After `n` credentials the caches hold the sessions they stand for: first those of the realms. */
  lemma {:induction false} LoadedTgts(s: State, realms: seq<Name>, cs: seq<Ccache.Credential>, n: nat,
                                      now: int, clock: nat -> int)
    requires Coherent(s) && Lists(realms, s.sessions) && AllPortable(s)
    requires n <= |realms| <= |cs| && forall i :: 0 <= i < |realms| ==> Exported(s.sessions[realms[i]]) == Ok(cs[i])
    ensures var loaded := LoadAll(s.client, cs[..n], now, clock);
            loaded.sessions == Part(realms[..n], s.sessions) && loaded.tickets == map[]
  {
    hide Coherent, Portable, Load, IsTgt, Exported, LoadAll, Lists;
    if n == 0 {
      EmptyLoad(s.client, now, clock);
      assert cs[..0] == [] && realms[..0] == [];
    } else {
      LoadedTgts(s, realms, cs, n - 1, now, clock);
      LoadedCoherent(s.client, cs[..n - 1], now, clock);
      LoadAllStep(s.client, cs, n - 1, now, clock);
      Next(realms, n - 1, s.sessions);
      var loaded := LoadAll(s.client, cs[..n - 1], now, clock);
      LoadTgt(s, loaded, cs[n - 1], realms[n - 1], realms[..n - 1], now, clock(n - 1));
    }
  }

  lemma EmptyLoad(client: Principal, now: int, clock: nat -> int)
    ensures LoadAll(client, [], now, clock) == New(client, false)
  {
  }

  /** Then the service tickets. */
  lemma {:induction false} LoadedTickets(s: State, realms: seq<Name>, keys: seq<Name>, cs: seq<Ccache.Credential>,
                                         n: nat, now: int, clock: nat -> int)
    requires Coherent(s) && Lists(realms, s.sessions) && Lists(keys, s.tickets) && AllPortable(s)
    requires n <= |keys| && |cs| == |realms| + |keys|
    requires forall i :: 0 <= i < |realms| ==> Exported(s.sessions[realms[i]]) == Ok(cs[i])
    requires forall i :: 0 <= i < |keys| ==> Exported(s.tickets[keys[i]]) == Ok(cs[|realms| + i])
    ensures var loaded := LoadAll(s.client, cs[..|realms| + n], now, clock);
            loaded.sessions == Part(realms, s.sessions) && loaded.tickets == Part(keys[..n], s.tickets)
  {
    hide Coherent, Portable, Load, IsTgt, Exported, LoadAll, Lists;
    if n == 0 {
      LoadedTgts(s, realms, cs, |realms|, now, clock);
      assert realms[..|realms|] == realms;
      assert keys[..0] == [];
    } else {
      var m := |realms| + n - 1;
      LoadedTickets(s, realms, keys, cs, n - 1, now, clock);
      LoadedCoherent(s.client, cs[..m], now, clock);
      LoadAllStep(s.client, cs, m, now, clock);
      Next(keys, n - 1, s.tickets);
      LoadTicket(s, LoadAll(s.client, cs[..m], now, clock), cs[m], keys[n - 1], keys[..n - 1], now, clock(m));
    }
  }

  /** Exporting a coherent client whose sessions survive the file, and loading the result, gives back both
      caches and the primary TGT, in whatever order the maps are visited and whenever it is loaded. */
  lemma ReloadRestores(s: State, realms: seq<Name>, keys: seq<Name>, now: int, clock: nat -> int)
    requires Coherent(s) && Lists(realms, s.sessions) && Lists(keys, s.tickets) && AllPortable(s)
    ensures var cs := ExportAll(CcacheSessions(s, realms, keys));
            && cs.Ok?
            && LoadAll(s.client, CcacheEdit.UpsertAll([], cs.value), now, clock) == s.(hasCredentials := false)
  {
    hide Portable, AllPortable, Load, CacheKey, IsTgt, Exported, Lists, ExportAll, CcacheSessions, LoadAll,
         CcacheEdit.NoDuplicates, CcacheEdit.UpsertAll;
    ExportShape(s, realms, keys);
    var cs := ExportAll(CcacheSessions(s, realms, keys)).value;
    CcacheEdit.UpsertAllFresh(cs);
    ExportedInOrder(s, realms, keys, cs);
    LoadedTickets(s, realms, keys, cs, |keys|, now, clock);
    LoadedCoherent(s.client, cs, now, clock);
    LoadedCredentials(s.client, cs, now, clock);
    assert cs[..|realms| + |keys|] == cs && keys[..|keys|] == keys;
    WholePart(realms, s.sessions);
    WholePart(keys, s.tickets);
  }

  lemma WholePart(order: seq<Name>, m: map<Name, Session>)
    requires Lists(order, m)
    ensures Part(order, m) == m
  {
  }

  lemma ExportedInOrder(s: State, realms: seq<Name>, keys: seq<Name>, cs: seq<Ccache.Credential>)
    requires Lists(realms, s.sessions) && Lists(keys, s.tickets)
    requires var ss := Values(realms, s.sessions) + Values(keys, s.tickets);
             |cs| == |ss| && forall i :: 0 <= i < |ss| ==> Exported(ss[i]) == Ok(cs[i])
    ensures |cs| == |realms| + |keys|
    ensures forall i :: 0 <= i < |realms| ==> realms[i] in s.sessions && Exported(s.sessions[realms[i]]) == Ok(cs[i])
    ensures forall i :: 0 <= i < |keys| ==> keys[i] in s.tickets && Exported(s.tickets[keys[i]]) == Ok(cs[|realms| + i])
  {
    hide Exported, Lists;
    var ss: seq<Session> := Values(realms, s.sessions) + Values(keys, s.tickets);
    assert forall i :: 0 <= i < |realms| ==> ss[i] == s.sessions[realms[i]];
    assert forall i :: 0 <= i < |keys| ==> ss[|realms| + i] == s.tickets[keys[i]];
  }

  // What was loaded came through the file.

  /** `t` is what some credential of this client, with no configuration principal as server, stands for. */
  ghost predicate CameThrough(cs: seq<Ccache.Credential>, client: Principal, t: Session, tgt: bool)
  {
    exists c :: c in cs && Imported(c) == t && IsTgt(t.service) == tgt
                && !CcacheEdit.IsConfig(c.server) && CcacheEdit.SameIdentity(c.client, ToCcache(client))
  }

  lemma CameThroughMore(cs: seq<Ccache.Credential>, c: Ccache.Credential, client: Principal, t: Session, tgt: bool)
    requires CameThrough(cs, client, t, tgt)
    ensures CameThrough(cs + [c], client, t, tgt)
  {
    hide Imported, IsTgt, CcacheEdit.IsConfig;
    var d :| d in cs && Imported(d) == t && IsTgt(t.service) == tgt
             && !CcacheEdit.IsConfig(d.server) && CcacheEdit.SameIdentity(d.client, ToCcache(client));
    assert d in cs + [c];
  }

  lemma {:induction false} LoadedCameThrough(client: Principal, cs: seq<Ccache.Credential>, now: int, clock: nat -> int)
    ensures var s := LoadAll(client, cs, now, clock);
            && (forall r :: r in s.sessions ==> CameThrough(cs, client, s.sessions[r], true))
            && (forall k :: k in s.tickets ==> CameThrough(cs, client, s.tickets[k], false))
  {
    hide CameThrough, Imported, IsTgt, CacheKey, Coherent, ValidAt, CcacheEdit.IsConfig, CcacheEdit.SameIdentity;
    if cs != [] {
      var before, c := cs[..|cs| - 1], cs[|cs| - 1];
      var s := LoadAll(client, before, now, clock);
      LoadedCameThrough(client, before, now, clock);
      LoadedCoherent(client, before, now, clock);
      CacheTgtCoherent(s, Imported(c), now);
      assert cs == before + [c];
      forall r | r in s.sessions ensures CameThrough(cs, client, s.sessions[r], true) {
        CameThroughMore(before, c, client, s.sessions[r], true);
      }
      forall k | k in s.tickets ensures CameThrough(cs, client, s.tickets[k], false) {
        CameThroughMore(before, c, client, s.tickets[k], false);
      }
      ItselfCameThrough(cs, client);
    }
  }

  lemma ItselfCameThrough(cs: seq<Ccache.Credential>, client: Principal)
    requires cs != []
    ensures var c := cs[|cs| - 1];
            !CcacheEdit.IsConfig(c.server) && CcacheEdit.SameIdentity(c.client, ToCcache(client))
            ==> CameThrough(cs, client, Imported(c), IsTgt(Imported(c).service))
  {
    hide Imported, IsTgt, CcacheEdit.IsConfig, CcacheEdit.SameIdentity;
    assert cs[|cs| - 1] in cs;
  }

  lemma CameThroughPortable(cs: seq<Ccache.Credential>, s: State, t: Session, tgt: bool)
    requires CameThrough(cs, s.client, t, tgt) && TimesFit(t.grant)
    ensures Portable(s, t) && IsTgt(t.service) == tgt
  {
    hide TimesFit, IsTgt;
  }

  /** Nothing less will do: a client that is restored had nothing but portable sessions. */
  lemma RestoredWasPortable(s: State, realms: seq<Name>, keys: seq<Name>, now: int, clock: nat -> int)
    requires Coherent(s) && Lists(realms, s.sessions) && Lists(keys, s.tickets)
    requires var cs := ExportAll(CcacheSessions(s, realms, keys));
             cs.Ok? && LoadAll(s.client, CcacheEdit.UpsertAll([], cs.value), now, clock) == s.(hasCredentials := false)
    ensures AllPortable(s)
  {
    hide Portable, CameThrough, LoadAll, ExportAll, CcacheSessions, IsTgt, CacheKey, Coherent, TimesFit, Lists;
    ExportExact(s, realms, keys);
    var cs := CcacheEdit.UpsertAll([], ExportAll(CcacheSessions(s, realms, keys)).value);
    LoadedCameThrough(s.client, cs, now, clock);
    forall r | r in s.sessions ensures Portable(s, s.sessions[r]) {
      CameThroughPortable(cs, s, s.sessions[r], true);
    }
    forall k | k in s.tickets ensures Portable(s, s.tickets[k]) && !IsTgt(s.tickets[k].service) {
      CameThroughPortable(cs, s, s.tickets[k], false);
    }
  }

  /** Exporting a coherent client and loading the result restores it if and only if its sessions are its
      own, fit the file and survive it, none is for a configuration principal, and no TGT is among the
      service tickets; whatever order the maps are visited in, and whenever it is loaded. */
  lemma ReloadIsExact(s: State, realms: seq<Name>, keys: seq<Name>, now: int, clock: nat -> int)
    requires Coherent(s) && Lists(realms, s.sessions) && Lists(keys, s.tickets)
    ensures var cs := ExportAll(CcacheSessions(s, realms, keys));
            (cs.Ok? && LoadAll(s.client, CcacheEdit.UpsertAll([], cs.value), now, clock) == s.(hasCredentials := false))
            <==> AllPortable(s)
  {
    hide *;
    if AllPortable(s) { ReloadRestores(s, realms, keys, now, clock); }
    var cs := ExportAll(CcacheSessions(s, realms, keys));
    if cs.Ok? && LoadAll(s.client, CcacheEdit.UpsertAll([], cs.value), now, clock) == s.(hasCredentials := false) {
      RestoredWasPortable(s, realms, keys, now, clock);
    }
  }

  lemma {:induction false} LoadedCredentials(client: Principal, cs: seq<Ccache.Credential>, now: int, clock: nat -> int)
    ensures !LoadAll(client, cs, now, clock).hasCredentials
  {
    hide IsTgt, Imported, CacheKey;
    if cs != [] { LoadedCredentials(client, cs[..|cs| - 1], now, clock); }
  }

  // ------------------------------------------------------------------
  // Updating an existing cache

  /** `update_ccache`: this client's tickets are taken out first, so an export that fails leaves the cache
      without them. */
  function UpdatedBy(s: State, realms: seq<Name>, keys: seq<Name>, stored: seq<Ccache.Credential>)
    : (seq<Ccache.Credential>, Option<Error>)
    requires Lists(realms, s.sessions) && Lists(keys, s.tickets)
  {
    var client := ToCcache(s.client);
    match ExportAll(CcacheSessions(s, realms, keys))
    case Err(e) => (CcacheEdit.Tickets(stored, client, false), Some(e))
    case Ok(cs) => (CcacheEdit.Updated(stored, client, cs), None)
  }

  /** Sessions of this client, none for a configuration principal. */
  predicate OwnSessions(s: State)
  {
    && (forall r :: r in s.sessions ==> Own(s, s.sessions[r]))
    && (forall k :: k in s.tickets ==> Own(s, s.tickets[k]))
  }

  predicate Own(s: State, t: Session)
  {
    Matches(t.client, s.client) && !CcacheEdit.IsConfig(ToCcache(t.service))
  }

  lemma OwnTickets(s: State, realms: seq<Name>, keys: seq<Name>)
    requires Coherent(s) && Lists(realms, s.sessions) && Lists(keys, s.tickets) && OwnSessions(s)
    requires ExportAll(CcacheSessions(s, realms, keys)).Ok?
    ensures CcacheEdit.AllTicketsOf(ToCcache(s.client), ExportAll(CcacheSessions(s, realms, keys)).value)
  {
    hide Coherent, TimesFit, Lists, CcacheEdit.IsConfig;
    NothingElse(s, realms, keys);
    var ss: seq<Session> := Values(realms, s.sessions) + Values(keys, s.tickets);
    ExportAllExact(ss);
    var cs := ExportAll(ss).value;
    forall i | 0 <= i < |cs| ensures CcacheEdit.TicketOf(ToCcache(s.client), cs[i]) {
      ListedAre(s, realms, keys, i);
      assert Own(s, ss[i]) && Exported(ss[i]) == Ok(cs[i]);
    }
  }

  /** `update_ccache`, for sessions of this client with no configuration principal among the services.
      Configuration entries and other clients' credentials stay, in order, in any case. It succeeds exactly
      when every time of every session fits the file, and otherwise leaves the cache stripped of this
      client's tickets. When it succeeds, this client's tickets are the last session of each slot: all of
      them, in order, exactly when no service ticket has the client and service of a cached TGT. And no
      duplicate slot appears. */
  lemma UpdateStoresSessions(s: State, realms: seq<Name>, keys: seq<Name>, stored: seq<Ccache.Credential>)
    requires Coherent(s) && Lists(realms, s.sessions) && Lists(keys, s.tickets) && OwnSessions(s)
    ensures var (after, failed) := UpdatedBy(s, realms, keys, stored);
            var client, cs := ToCcache(s.client), ExportAll(CcacheSessions(s, realms, keys));
            && CcacheEdit.Tickets(after, client, false) == CcacheEdit.Tickets(stored, client, false)
            && (failed.None? <==> AllTimesFit(s))
            && (failed.Some? ==> CcacheEdit.Tickets(after, client, true) == [])
            && (failed.None? ==>
                  && (forall c :: c in CcacheEdit.Tickets(after, client, true) <==> CcacheEdit.LastOfSlot(cs.value, c))
                  && (CcacheEdit.Tickets(after, client, true) == cs.value <==> SlotsApart(s)))
            && (CcacheEdit.NoDuplicates(stored) ==> CcacheEdit.NoDuplicates(after))
  {
    hide Coherent, Lists, OwnSessions, AllTimesFit, SlotsApart, ExportAll, CcacheSessions, CcacheEdit.Updated,
         CcacheEdit.Tickets, CcacheEdit.AllTicketsOf, CcacheEdit.NoDuplicates, CcacheEdit.LastOfSlot;
    var client, cs := ToCcache(s.client), ExportAll(CcacheSessions(s, realms, keys));
    ExportExact(s, realms, keys);
    if cs.Ok? {
      OwnTickets(s, realms, keys);
      ExportedApart(s, realms, keys);
      CcacheEdit.UpdateReplacesTickets(stored, client, cs.value);
    } else {
      CcacheEdit.TicketsTwice(stored, client);
      if CcacheEdit.NoDuplicates(stored) { CcacheEdit.TicketsDistinct(stored, client, false); }
    }
  }

  /** `to_ccache` as a file: version 4, no header fields. */
  function CacheFile(client: Principal, cs: seq<Ccache.Credential>): Ccache.CCache
  {
    Ccache.CCache(4, [], ToCcache(client), cs)
  }

  /** The file a client whose export succeeds makes. */
  function SavedFile(s: State, realms: seq<Name>, keys: seq<Name>): Ccache.CCache
    requires Lists(realms, s.sessions) && Lists(keys, s.tickets) && ExportAll(CcacheSessions(s, realms, keys)).Ok?
  {
    CacheFile(s.client, CcacheEdit.UpsertAll([], ExportAll(CcacheSessions(s, realms, keys)).value))
  }

  /** Through the file itself: a client saved to bytes and loaded from them is restored, whenever its
      strings and numbers have the ranges of their types and the lengths fit the format. */
  lemma SavedAndLoaded(h: Wire.Host, s: State, realms: seq<Name>, keys: seq<Name>, now: int, clock: nat -> int)
    requires Coherent(s) && Lists(realms, s.sessions) && Lists(keys, s.tickets) && AllPortable(s)
    requires ExportAll(CcacheSessions(s, realms, keys)).Ok?
    requires Ccache.Typed(h, SavedFile(s, realms, keys)) && Ccache.BytesOf(h, SavedFile(s, realms, keys)).Ok?
    ensures var parsed := Ccache.ParseOf(h, Ccache.BytesOf(h, SavedFile(s, realms, keys)).value);
            && parsed.Ok?
            && LoadAll(FromCcache(parsed.value.principal), parsed.value.credentials, now, clock)
               == s.(hasCredentials := false)
  {
    hide Coherent, Lists, AllPortable, ExportAll, CcacheSessions, LoadAll, CcacheEdit.UpsertAll,
         Ccache.Typed, Ccache.BytesOf, Ccache.ParseOf, Ccache.Storable;
    CcacheRoundTrip.BuiltCacheReadBack(h, SavedFile(s, realms, keys));
    VersionFourKeeps(s.client, CcacheEdit.UpsertAll([], ExportAll(CcacheSessions(s, realms, keys)).value));
    ReloadRestores(s, realms, keys, now, clock);
  }

  lemma VersionFourKeeps(client: Principal, cs: seq<Ccache.Credential>)
    ensures var file := CacheFile(client, cs);
            Ccache.Storable(file) && file.credentials == cs && FromCcache(file.principal) == client
  {
  }
}
