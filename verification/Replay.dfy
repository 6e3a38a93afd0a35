/** Replay detection and the order of the checks an acceptor makes (src/service.rs). */
module Replay {
  import opened Bytes
  import opened Clock

  datatype Principal = Principal(realm: seq<byte>, nameType: int, components: seq<seq<byte>>)

  /** `ReplayKey`. */
  datatype Key = Key(service: Principal, client: Principal, seconds: int, cusec: nat)

  datatype Address = Address(kind: int, bytes: seq<byte>)

  datatype PacState = NoPac | Unreadable | Verified | Forged

  datatype Ticket = Ticket(
    client: Principal,
    authTime: int,
    startTime: Option<int>,
    endTime: int,
    invalid: bool,
    addresses: Option<seq<Address>>,
    pac: PacState)

  datatype Authenticator = Authenticator(client: Principal, seconds: int, nanos: Nanos, cusec: int)

  /** An AP-REQ as the acceptor finds it: `None` where decoding, key lookup or decryption fails. */
  datatype Request =
    | Undecodable
    | Request(service: Principal, keyFound: bool, ticket: Option<Ticket>, authenticator: Option<Authenticator>)

  datatype Error =
    | Decode
    | NoMatchingKey
    | TicketDecrypt
    | TicketNotYetValid
    | TicketExpired
    | RequiredClientAddressMissing
    | BadClientAddress
    | Pac
    | AuthenticatorDecrypt
    | ClientPrincipalMismatch
    | IntegerOutOfRange
    | ClockSkew
    | Replayed

  datatype Settings = Settings(maxClockSkew: nat, clientAddress: Option<Address>, requireAddress: bool)

  // ------------------------------------------------------------------
  // Times

  /** `starts_after_skew` and `expired_after_skew`. */
  predicate AfterBy(later: int, earlier: int, skew: nat)
  {
    later >= earlier && later - earlier > skew
  }

  /** `abs_duration`. */
  function AbsDuration(left: int, right: int): (d: nat)
  {
    if left >= right then left - right else right - left
  }

  /** `system_time_from_kerberos_time` plus the microseconds. Before 1970 the nanoseconds are subtracted. */
  function AuthTime(seconds: int, nanos: Nanos, cusec: nat): int
  {
    (if seconds >= 0 then seconds * SECOND + nanos else seconds * SECOND - nanos) + cusec * 1000
  }

  // ------------------------------------------------------------------
  // The checks before the replay cache is asked

  function TicketStart(t: Ticket): int
  {
    if t.startTime.Some? then t.startTime.value else t.authTime
  }

  function AddressError(s: Settings, t: Ticket): Option<Error>
  {
    if t.addresses.None? then (if s.requireAddress then Some(RequiredClientAddressMissing) else None)
    else if s.clientAddress.None? || s.clientAddress.value !in t.addresses.value then Some(BadClientAddress)
    else None
  }

  /** The first failing check, or the replay key. The clock is read once for the ticket's times and once
      for the authenticator. */
  function Check(s: Settings, r: Request, ticketNow: int, now: int): (k: Result<Key, Error>)
    ensures k.Ok? <==> Acceptable(s, r, ticketNow, now)
    ensures k.Ok? ==> k.value == KeyOf(r)
    ensures k.Ok? ==> var a := r.authenticator.value;
                      && k.value.service == r.service && k.value.client == a.client
                      && k.value.seconds == a.seconds && k.value.cusec == a.cusec
  {
    if r.Undecodable? then Err(Decode)
    else if !r.keyFound then Err(NoMatchingKey)
    else if r.ticket.None? then Err(TicketDecrypt)
    else
      var t := r.ticket.value;
      if AfterBy(TicketStart(t), ticketNow, s.maxClockSkew) || t.invalid then Err(TicketNotYetValid)
      else if AfterBy(ticketNow, t.endTime, s.maxClockSkew) then Err(TicketExpired)
      else if AddressError(s, t).Some? then Err(AddressError(s, t).value)
      else if t.pac.Unreadable? || t.pac.Forged? then Err(Pac)
      else if r.authenticator.None? then Err(AuthenticatorDecrypt)
      else
        var a := r.authenticator.value;
        if a.client.components != t.client.components then Err(ClientPrincipalMismatch)
        else if a.cusec < 0 || a.cusec >= U32 then Err(IntegerOutOfRange)
        else if AbsDuration(now, AuthTime(a.seconds, a.nanos, a.cusec)) > s.maxClockSkew then Err(ClockSkew)
        else Ok(Key(r.service, a.client, a.seconds, a.cusec))
  }

  predicate HasAuthenticator(r: Request)
  {
    r.Request? && r.authenticator.Some? && 0 <= r.authenticator.value.cusec < U32
  }

  function KeyOf(r: Request): Key
    requires HasAuthenticator(r)
  {
    var a := r.authenticator.value;
    Key(r.service, a.client, a.seconds, a.cusec)
  }

  /** The time in an authenticator, in nanoseconds. */
  function AuthenticatorTime(a: Authenticator): int
  {
    var whole := a.seconds * 1_000_000_000 + a.cusec * 1_000;
    if a.seconds < 0 then whole - a.nanos else whole + a.nanos
  }

  /** What a request must be to reach the replay cache. */
  predicate Acceptable(s: Settings, r: Request, ticketNow: int, now: int)
  {
    && HasAuthenticator(r) && r.keyFound && r.ticket.Some?
    && var t, a := r.ticket.value, r.authenticator.value;
       && (t.startTime.Some? ==> t.startTime.value - s.maxClockSkew <= ticketNow)
       && (t.startTime.None? ==> t.authTime - s.maxClockSkew <= ticketNow)
       && ticketNow <= t.endTime + s.maxClockSkew && !t.invalid
       && (t.addresses.None? ==> !s.requireAddress)
       && (t.addresses.Some? ==> s.clientAddress.Some? && s.clientAddress.value in t.addresses.value)
       && (t.pac.NoPac? || t.pac.Verified?)
       && a.client.components == t.client.components
       && AuthenticatorTime(a) - s.maxClockSkew <= now <= AuthenticatorTime(a) + s.maxClockSkew
  }

  // ------------------------------------------------------------------
  // Which check refuses

  /** Not begun: flagged invalid, or more than the skew before its start (before its authentication if it names no
      start). */
  predicate NotBegun(s: Settings, t: Ticket, ticketNow: int)
  {
    || t.invalid
    || (match t.startTime
        case Some(start) => ticketNow < start - s.maxClockSkew
        case None => ticketNow < t.authTime - s.maxClockSkew)
  }

  /** Begun, and not more than the skew past its end. */
  predicate InTime(s: Settings, t: Ticket, ticketNow: int)
  {
    !NotBegun(s, t, ticketNow) && ticketNow <= t.endTime + s.maxClockSkew
  }

  /** The ticket says where it may be used from, and it is from there; or it need not say. */
  predicate AtAddress(s: Settings, t: Ticket)
  {
    match t.addresses
    case None => !s.requireAddress
    case Some(listed) => s.clientAddress.Some? && s.clientAddress.value in listed
  }

  predicate Decrypted(r: Request)
  {
    r.Request? && r.keyFound && r.ticket.Some?
  }

  /** The ticket of a request passes every check made on it. */
  predicate TicketPasses(s: Settings, r: Request, ticketNow: int)
  {
    && Decrypted(r)
    && var t := r.ticket.value;
       InTime(s, t, ticketNow) && AtAddress(s, t) && (t.pac.NoPac? || t.pac.Verified?)
  }

  /** Each refusal exactly when its check is the first to fail: decoding, key, ticket. */
  lemma RefusedUnread(s: Settings, r: Request, ticketNow: int, now: int)
    ensures var c := Check(s, r, ticketNow, now);
            && (c == Err(Decode) <==> r.Undecodable?)
            && (c == Err(NoMatchingKey) <==> r.Request? && !r.keyFound)
            && (c == Err(TicketDecrypt) <==> r.Request? && r.keyFound && r.ticket.None?)
  {
  }

  /** The ticket: its times, its addresses, its PAC. */
  lemma RefusedTicket(s: Settings, r: Request, ticketNow: int, now: int)
    requires Decrypted(r)
    ensures var c, t := Check(s, r, ticketNow, now), r.ticket.value;
            && (c == Err(TicketNotYetValid) <==> NotBegun(s, t, ticketNow))
            && (c == Err(TicketExpired) <==> !NotBegun(s, t, ticketNow) && t.endTime + s.maxClockSkew < ticketNow)
            && (c == Err(RequiredClientAddressMissing) <==>
                  InTime(s, t, ticketNow) && t.addresses.None? && s.requireAddress)
            && (c == Err(BadClientAddress) <==> InTime(s, t, ticketNow) && t.addresses.Some? && !AtAddress(s, t))
            && (c == Err(Pac) <==>
                  InTime(s, t, ticketNow) && AtAddress(s, t) && (t.pac.Unreadable? || t.pac.Forged?))
  {
  }

  /** The authenticator: its client, its microseconds, its time. Only what passes them all is a key. */
  lemma RefusedAuthenticator(s: Settings, r: Request, ticketNow: int, now: int)
    ensures var c := Check(s, r, ticketNow, now);
            && (c == Err(AuthenticatorDecrypt) <==> TicketPasses(s, r, ticketNow) && r.authenticator.None?)
            && (TicketPasses(s, r, ticketNow) && r.authenticator.Some? ==>
                  var a := r.authenticator.value;
                  var same := a.client.components == r.ticket.value.client.components;
                  var inRange := 0 <= a.cusec < 0x1_0000_0000;
                  var time := AuthenticatorTime(a);
                  var near := time - s.maxClockSkew <= now <= time + s.maxClockSkew;
                  && (c == Err(ClientPrincipalMismatch) <==> !same)
                  && (c == Err(IntegerOutOfRange) <==> same && !inRange)
                  && (c == Err(ClockSkew) <==> same && inRange && !near)
                  && (c.Ok? <==> same && inRange && near))
            && (c.Ok? ==> TicketPasses(s, r, ticketNow))
  {
  }

  // ------------------------------------------------------------------
  // The cache

  type Entries = map<Key, int>

  /** `retain`: an entry stays when it is not more than `maxAge` older than `now`, or is younger than `now`. */
  function Retained(entries: Entries, maxAge: nat, now: int): Entries
  {
    map k | k in entries && !AfterBy(now, entries[k], maxAge) :: entries[k]
  }

  /** A whole validation: the outcome and the cache afterwards. */
  function Validated(entries: Entries, s: Settings, r: Request, ticketNow: int, now: int): (Result<Key, Error>, Entries)
  {
    match Check(s, r, ticketNow, now)
    case Err(e) => (Err(e), entries)
    case Ok(key) => (if key in entries then Err(Replayed) else Ok(key), entries[key := now])
  }

  class ReplayCache {
    var entries: Entries

    constructor ()
      ensures entries == map[]
    {
      entries := map[];
    }

    method Clear()
      modifies this
      ensures entries == map[]
    {
      entries := map[];
    }

    /** `clear_older_than_at`: the number of entries removed. */
    method ClearOlderThanAt(maxAge: nat, now: int) returns (removed: int)
      modifies this
      ensures entries == Retained(old(entries), maxAge, now)
      ensures forall k :: k in entries <==> k in old(entries) && now - old(entries)[k] <= maxAge
      ensures forall k :: k in entries ==> entries[k] == old(entries)[k]
      ensures removed == |old(entries)| - |entries|
    {
      var before := |entries|;
      entries := map k | k in entries && !AfterBy(now, entries[k], maxAge) :: entries[k];
      removed := before - |entries|;
    }

    /** `insert`: whether the key is new. A known key has its time replaced. */
    method Insert(key: Key, presentedAt: int) returns (isNew: bool)
      modifies this
      ensures entries == old(entries)[key := presentedAt] && isNew == (key !in old(entries))
    {
      isNew := key !in entries;
      entries := entries[key := presentedAt];
    }
  }

  /** A validator; `cache` is its own or a shared one. */
  class ServiceValidator {
    const settings: Settings
    const cache: ReplayCache

    constructor (settings: Settings, cache: ReplayCache)
      ensures this.settings == settings && this.cache == cache
    {
      this.settings := settings;
      this.cache := cache;
    }

    /** `validate_client_address`. */
    method ValidateClientAddress(t: Ticket) returns (e: Option<Error>)
      ensures e == AddressError(settings, t)
    {
      if t.addresses.None? {
        return if settings.requireAddress then Some(RequiredClientAddressMissing) else None;
      }
      if settings.clientAddress.None? { return Some(BadClientAddress); }
      var found := false;
      for i := 0 to |t.addresses.value|
        invariant found <==> settings.clientAddress.value in t.addresses.value[..i]
      {
        if t.addresses.value[i] == settings.clientAddress.value { found := true; }
      }
      assert t.addresses.value[..|t.addresses.value|] == t.addresses.value;
      return if found then None else Some(BadClientAddress);
    }

    /** `validate_ap_req`: accepted exactly when every check passes and the key is new. The cache is
        touched exactly when every check passes, and whatever is recorded as new is accepted. */
    method ValidateApReq(r: Request, ticketNow: int, now: int) returns (v: Result<Key, Error>)
      modifies cache
      ensures (v, cache.entries) == Validated(old(cache.entries), settings, r, ticketNow, now)
      ensures v.Ok? <==> Acceptable(settings, r, ticketNow, now) && KeyOf(r) !in old(cache.entries)
      ensures v == Err(Replayed) <==> Acceptable(settings, r, ticketNow, now) && KeyOf(r) in old(cache.entries)
      ensures v.Ok? ==> v.value == KeyOf(r)
      ensures v.Err? && v.error != Replayed ==> v == Check(settings, r, ticketNow, now)
      ensures Decrypted(r) ==> (v == Err(TicketNotYetValid) <==> NotBegun(settings, r.ticket.value, ticketNow))
      ensures v.Ok? ==> TicketPasses(settings, r, ticketNow)
      ensures cache.entries == if Acceptable(settings, r, ticketNow, now) then old(cache.entries)[KeyOf(r) := now]
                               else old(cache.entries)
    {
      hide Acceptable, NotBegun, TicketPasses, Decrypted;
      RefusedUnread(settings, r, ticketNow, now);
      if Decrypted(r) { RefusedTicket(settings, r, ticketNow, now); }
      RefusedAuthenticator(settings, r, ticketNow, now);
      if r.Undecodable? { return Err(Decode); }
      if !r.keyFound { return Err(NoMatchingKey); }
      if r.ticket.None? { return Err(TicketDecrypt); }
      var t := r.ticket.value;
      if AfterBy(TicketStart(t), ticketNow, settings.maxClockSkew) || t.invalid { return Err(TicketNotYetValid); }
      if AfterBy(ticketNow, t.endTime, settings.maxClockSkew) { return Err(TicketExpired); }
      var addressError := ValidateClientAddress(t);
      if addressError.Some? { return Err(addressError.value); }
      if t.pac.Unreadable? || t.pac.Forged? { return Err(Pac); }
      if r.authenticator.None? { return Err(AuthenticatorDecrypt); }
      var a := r.authenticator.value;
      if a.client.components != t.client.components { return Err(ClientPrincipalMismatch); }
      if a.cusec < 0 || a.cusec >= U32 { return Err(IntegerOutOfRange); }
      var time := AuthTime(a.seconds, a.nanos, a.cusec);
      if AbsDuration(now, time) > settings.maxClockSkew { return Err(ClockSkew); }
      var key := Key(r.service, a.client, a.seconds, a.cusec);
      var isNew := cache.Insert(key, now);
      return if isNew then Ok(key) else Err(Replayed);
    }
  }

  // ------------------------------------------------------------------
  // Any number of validators on one cache

  /** A validator first reads the clock and makes its checks, and records the key in a later step;
      evictions happen in between. `now` is the clock at the step. */
  datatype Event =
    | Checked(validator: nat, settings: Settings, request: Request, ticketNow: int, now: int)
    | Recorded(validator: nat, now: int)
    | Cleared(maxAge: nat, at: int, now: int)

  datatype Pending = Pending(key: Key, readAt: int)

  /** The cache, what each validator is about to record, and the keys accepted so far. */
  datatype State = State(entries: Entries, pending: map<nat, Pending>, accepted: seq<Key>)

  function Step(s: State, e: Event): State
  {
    match e
    case Checked(v, settings, request, ticketNow, now) =>
      var k := Check(settings, request, ticketNow, now);
      s.(pending := if k.Ok? then s.pending[v := Pending(k.value, now)] else s.pending - {v})
    case Recorded(v, now) =>
      if v !in s.pending then s
      else
        var p := s.pending[v];
        State(s.entries[p.key := p.readAt], s.pending - {v},
              if p.key in s.entries then s.accepted else s.accepted + [p.key])
    case Cleared(maxAge, at, now) => s.(entries := Retained(s.entries, maxAge, at))
  }

  function Run(events: seq<Event>): State
  {
    if events == [] then State(map[], map[], [])
    else Step(Run(events[..|events| - 1]), events[|events| - 1])
  }

  /** Nothing is accepted twice. */
  predicate AllOnce(keys: seq<Key>)
  {
    forall i, j :: 0 <= i < j < |keys| ==> keys[i] != keys[j]
  }

  /** A validation is its two steps, the second at any later time. */
  lemma ValidationIsTwoSteps(s: State, v: nat, settings: Settings, r: Request, ticketNow: int, now: int, later: int)
    ensures var (outcome, entries) := Validated(s.entries, settings, r, ticketNow, now);
            Step(Step(s, Checked(v, settings, r, ticketNow, now)), Recorded(v, later))
            == State(entries, s.pending - {v}, if outcome.Ok? then s.accepted + [outcome.value] else s.accepted)
  {
    hide Acceptable;
    var k := Check(settings, r, ticketNow, now);
    if k.Ok? {
      assert s.pending[v := Pending(k.value, now)] - {v} == s.pending - {v};
    } else {
      assert s.pending - {v} - {v} == s.pending - {v};
    }
  }

  // ------------------------------------------------------------------
  // The runs

  /** The bounds of a deployment: the largest skew any validator allows, the largest delay between reading
      the clock and recording, and the smallest eviction age. */
  datatype Bounds = Bounds(skew: nat, lag: nat, maxAge: nat)

  predicate EventKeeps(b: Bounds, s: State, e: Event)
  {
    match e
    case Checked(_, settings, _, ticketNow, now) => settings.maxClockSkew <= b.skew && ticketNow <= now
    case Recorded(v, now) => v in s.pending ==> now - s.pending[v].readAt <= b.lag
    case Cleared(maxAge, at, now) => maxAge >= b.maxAge && at <= now
  }

  /** A run within the bounds, with a clock that never goes back. */
  predicate RunKeeps(b: Bounds, events: seq<Event>)
  {
    forall i :: 0 <= i < |events| ==>
      EventKeeps(b, Run(events[..i]), events[i]) && (i > 0 ==> events[i - 1].now <= events[i].now)
  }

  /** And nothing happens between the two clock readings of a check. */
  predicate Undisturbed(events: seq<Event>)
  {
    forall i :: 0 < i < |events| && events[i].Checked? ==> events[i - 1].now <= events[i].ticketNow
  }

  /** Every authenticator presented for a key has its time in a window of that key. */
  predicate InWindows(earliest: Key -> int, spread: nat, events: seq<Event>)
  {
    forall i :: 0 <= i < |events| && events[i].Checked? ==> InWindow(earliest, spread, events[i].request)
  }

  predicate InWindow(earliest: Key -> int, spread: nat, r: Request)
  {
    HasAuthenticator(r) ==> earliest(KeyOf(r)) <= TimeOf(r) <= earliest(KeyOf(r)) + spread
  }

  function TimeOf(r: Request): int
    requires HasAuthenticator(r)
  {
    AuthTime(r.authenticator.value.seconds, r.authenticator.value.nanos, r.authenticator.value.cusec)
  }

  predicate Safe(b: Bounds, spread: nat)
  {
    b.maxAge >= 2 * b.skew + b.lag + spread
  }

  /** No validator that read the clock within the last `lag` can still hold this key. */
  predicate TooOld(b: Bounds, earliest: Key -> int, spread: nat, key: Key, now: int)
  {
    now - b.lag > earliest(key) + spread + b.skew
  }

  ghost predicate Inv(b: Bounds, earliest: Key -> int, spread: nat, s: State, now: int)
  {
    && (forall k :: k in s.entries ==> s.entries[k] >= earliest(k) - b.skew)
    && (forall v :: v in s.pending ==> HoldsFresh(b, earliest, spread, s.pending[v]))
    && (forall k :: k in s.accepted ==> k in s.entries || TooOld(b, earliest, spread, k, now))
    && AllOnce(s.accepted)
  }

  predicate HoldsFresh(b: Bounds, earliest: Key -> int, spread: nat, p: Pending)
  {
    earliest(p.key) - b.skew <= p.readAt <= earliest(p.key) + spread + b.skew
  }

  lemma StepKeepsInv(b: Bounds, earliest: Key -> int, spread: nat, s: State, e: Event, before: int)
    requires Safe(b, spread) && Inv(b, earliest, spread, s, before) && EventKeeps(b, s, e) && before <= e.now
    requires e.Checked? ==> InWindow(earliest, spread, e.request)
    ensures Inv(b, earliest, spread, Step(s, e), e.now)
  {
    hide Check;
    assert forall k :: TooOld(b, earliest, spread, k, before) ==> TooOld(b, earliest, spread, k, e.now);
    match e
    case Checked(v, settings, r, ticketNow, now) =>
      CheckedFresh(b, earliest, spread, settings, r, ticketNow, now);
    case Recorded(v, now) =>
      if v in s.pending && s.pending[v].key !in s.entries {
        assert HoldsFresh(b, earliest, spread, s.pending[v]);
        assert s.pending[v].key !in s.accepted;
      }
    case Cleared(maxAge, at, now) =>
      forall k | k in s.accepted ensures k in Step(s, e).entries || TooOld(b, earliest, spread, k, now) {
        if k in s.entries { assert s.entries[k] >= earliest(k) - b.skew; }
      }
  }

  lemma CheckedFresh(b: Bounds, earliest: Key -> int, spread: nat, settings: Settings, r: Request,
                     ticketNow: int, now: int)
    requires settings.maxClockSkew <= b.skew && InWindow(earliest, spread, r)
    ensures var k := Check(settings, r, ticketNow, now);
            k.Ok? ==> HoldsFresh(b, earliest, spread, Pending(k.value, now))
  {
    hide AuthTime;
  }

  lemma {:induction false} RunInv(b: Bounds, earliest: Key -> int, spread: nat, events: seq<Event>)
    requires Safe(b, spread) && RunKeeps(b, events) && InWindows(earliest, spread, events) && events != []
    ensures Inv(b, earliest, spread, Run(events), events[|events| - 1].now)
  {
    hide Step, EventKeeps, Inv, Safe, InWindow;
    var before, last := events[..|events| - 1], events[|events| - 1];
    forall i | 0 <= i < |before|
      ensures EventKeeps(b, Run(before[..i]), before[i]) && (i > 0 ==> before[i - 1].now <= before[i].now)
    {
      assert before[..i] == events[..i];
    }
    if before != [] {
      RunInv(b, earliest, spread, before);
      StepKeepsInv(b, earliest, spread, Run(before), last, before[|before| - 1].now);
    } else {
      InitInv(b, earliest, spread, last.now);
      StepKeepsInv(b, earliest, spread, Run(before), last, last.now);
    }
  }

  lemma InitInv(b: Bounds, earliest: Key -> int, spread: nat, now: int)
    ensures Inv(b, earliest, spread, Run([]), now)
  {
  }

  /** Whatever the windows: no key is accepted twice over any run of any number of validators, when entries
      live for twice the skew, plus the delay between check and record, plus the width of the windows. */
  lemma NothingAcceptedTwice(b: Bounds, earliest: Key -> int, spread: nat, events: seq<Event>)
    requires Safe(b, spread) && RunKeeps(b, events) && InWindows(earliest, spread, events)
    ensures AllOnce(Run(events).accepted)
  {
    if events != [] { RunInv(b, earliest, spread, events); }
  }

  // ------------------------------------------------------------------
  // The bound cannot be lowered

  function SampleKey(): Key
  {
    Key(Principal([], 1, []), Principal([], 1, []), 0, 0)
  }

  /** A request for the sample key at `nanos` after the epoch, with a ticket valid until `end`. */
  function SampleRequest(nanos: Nanos, end: Nanos): Request
  {
    var p := Principal([], 1, []);
    Request(p, true, Some(Ticket(p, 0, None, end, false, None, NoPac)), Some(Authenticator(p, 0, nanos, 0)))
  }

  /** The first time the skew lets an authenticator in. */
  function Early(b: Bounds, nanos: Nanos): int
  {
    nanos - b.skew
  }

  /** A key presented as early as the skew allows, at one fraction of a second, and as late as it allows, at
      another; an eviction comes between the second check and its record. */
  function ReplayRun(b: Bounds, first: Nanos, second: Nanos): seq<Event>
  {
    var s := Settings(b.skew, None, false);
    var early, late := Early(b, first), second + b.skew;
    [Checked(0, s, SampleRequest(first, second), early, early),
     Recorded(0, early),
     Checked(1, s, SampleRequest(second, second), late, late),
     Cleared(b.maxAge, late + b.lag, late + b.lag),
     Recorded(1, late + b.lag)]
  }

  lemma RunSnoc(events: seq<Event>, e: Event)
    ensures Run(events + [e]) == Step(Run(events), e)
  {
    assert (events + [e])[..|events|] == events;
  }

  lemma SampleChecks(b: Bounds, first: Nanos, second: Nanos)
    requires first <= second
    ensures var s := Settings(b.skew, None, false);
            && Check(s, SampleRequest(first, second), Early(b, first), Early(b, first)) == Ok(SampleKey())
            && Check(s, SampleRequest(second, second), second + b.skew, second + b.skew) == Ok(SampleKey())
  {
  }

  lemma ReplayRunStates(b: Bounds, first: Nanos, second: Nanos)
    requires first <= second && !Safe(b, second - first)
    ensures var r := ReplayRun(b, first, second);
            var key, early, late := SampleKey(), Early(b, first), second + b.skew;
            && Run(r[..0]) == State(map[], map[], [])
            && Run(r[..1]) == State(map[], map[0 := Pending(key, early)], [])
            && Run(r[..2]) == State(map[key := early], map[], [key])
            && Run(r[..3]) == State(map[key := early], map[1 := Pending(key, late)], [key])
            && Run(r[..4]) == State(map[], map[1 := Pending(key, late)], [key])
            && Run(r) == State(map[key := late], map[], [key, key])
  {
    hide Check;
    var r := ReplayRun(b, first, second);
    SampleChecks(b, first, second);
    assert r[..1] == r[..0] + [r[0]] && r[..2] == r[..1] + [r[1]] && r[..3] == r[..2] + [r[2]];
    assert r[..4] == r[..3] + [r[3]] && r == r[..4] + [r[4]];
    RunSnoc(r[..0], r[0]);
    RunSnoc(r[..1], r[1]);
    RunSnoc(r[..2], r[2]);
    RunSnoc(r[..3], r[3]);
    RunSnoc(r[..4], r[4]);
  }

  lemma ReplayRunReplays(b: Bounds, first: Nanos, second: Nanos)
    requires first <= second && !Safe(b, second - first)
    ensures var r := ReplayRun(b, first, second);
            && RunKeeps(b, r) && Undisturbed(r)
            && Run(r).accepted == [SampleKey(), SampleKey()] && !AllOnce(Run(r).accepted)
  {
    hide Run, Safe, SampleRequest;
    ReplayRunStates(b, first, second);
    var r := ReplayRun(b, first, second);
    assert Run(r).accepted[0] == Run(r).accepted[1];
  }

  // ------------------------------------------------------------------
  // Fractions of a second

  /** No authenticator carries a larger fraction of a second. */
  predicate FractionsWithin(jitter: Nanos, events: seq<Event>)
  {
    forall i :: 0 <= i < |events| && events[i].Checked? && HasAuthenticator(events[i].request) ==>
      events[i].request.authenticator.value.nanos <= jitter
  }

  /** No authenticator for `key` is earlier than this; before 1970 fractions count backwards. */
  function EarliestWithin(jitter: Nanos, key: Key): int
  {
    key.seconds * SECOND + key.cusec * 1000 - if key.seconds >= 0 then 0 else jitter
  }

  /** The replay key leaves the fraction of a second out, so authenticators that differ only there share it.
      For fractions up to `jitter` (0 for whole-second ctimes) the bound is exact: at or above it no run
      accepts a key twice, and below it some run does, with an undisturbed clock that never goes back. */
  lemma SafeIsExact(b: Bounds, jitter: Nanos)
    ensures Safe(b, jitter) <==>
            forall events :: RunKeeps(b, events) && FractionsWithin(jitter, events) ==> AllOnce(Run(events).accepted)
    ensures Safe(b, jitter) <==>
            forall events :: RunKeeps(b, events) && Undisturbed(events) && FractionsWithin(jitter, events)
                             ==> AllOnce(Run(events).accepted)
  {
    if Safe(b, jitter) {
      forall events | RunKeeps(b, events) && FractionsWithin(jitter, events) ensures AllOnce(Run(events).accepted) {
        WithinIsWindow(jitter, events);
        NothingAcceptedTwice(b, k => EarliestWithin(jitter, k), jitter, events);
      }
    } else {
      var r := ReplayRun(b, 0, jitter);
      ReplayRunReplays(b, 0, jitter);
      assert RunKeeps(b, r) && Undisturbed(r) && FractionsWithin(jitter, r) && !AllOnce(Run(r).accepted);
    }
  }

  lemma WithinIsWindow(jitter: Nanos, events: seq<Event>)
    requires FractionsWithin(jitter, events)
    ensures InWindows(k => EarliestWithin(jitter, k), jitter, events)
  {
  }

  /** All authenticators for one key are the same authenticator. */
  predicate OnePerKey(fraction: Key -> Nanos, events: seq<Event>)
  {
    forall i :: 0 <= i < |events| && events[i].Checked? && HasAuthenticator(events[i].request) ==>
      events[i].request.authenticator.value.nanos == fraction(KeyOf(events[i].request))
  }

  /** Where no two different authenticators share a key, fractions do not matter: twice the skew and the
      delay are exactly enough, whatever the fractions are. */
  lemma SafeForOneAuthenticator(b: Bounds, fraction: Key -> Nanos)
    ensures Safe(b, 0) <==>
            forall events :: RunKeeps(b, events) && OnePerKey(fraction, events) ==> AllOnce(Run(events).accepted)
    ensures Safe(b, 0) <==>
            forall events :: RunKeeps(b, events) && Undisturbed(events) && OnePerKey(fraction, events)
                             ==> AllOnce(Run(events).accepted)
  {
    if Safe(b, 0) {
      forall events | RunKeeps(b, events) && OnePerKey(fraction, events) ensures AllOnce(Run(events).accepted) {
        NothingAcceptedTwice(b, (k: Key) => AuthTime(k.seconds, fraction(k), k.cusec), 0, events);
      }
    } else {
      var n := fraction(SampleKey());
      var r := ReplayRun(b, n, n);
      ReplayRunReplays(b, n, n);
      assert RunKeeps(b, r) && Undisturbed(r) && OnePerKey(fraction, r) && !AllOnce(Run(r).accepted);
    }
  }

  // ------------------------------------------------------------------
  // Without eviction

  predicate NoEviction(events: seq<Event>)
  {
    forall i :: 0 <= i < |events| ==> !events[i].Cleared?
  }

  /** Some validator got past its checks with `key` and went on to the cache. */
  ghost predicate Presented(events: seq<Event>, key: Key)
  {
    exists i :: 0 <= i < |events| && events[i].Recorded? && Holds(Run(events[..i]), events[i].validator, key)
  }

  predicate Holds(s: State, validator: nat, key: Key)
  {
    validator in s.pending && s.pending[validator].key == key
  }

  lemma {:induction false} NoEvictionInv(events: seq<Event>, key: Key)
    requires NoEviction(events)
    ensures AllOnce(Run(events).accepted)
    ensures key in Run(events).entries <==> key in Run(events).accepted
    ensures key in Run(events).accepted <==> Presented(events, key)
  {
    if events != [] {
      var before, last := events[..|events| - 1], events[|events| - 1];
      NoEvictionInv(before, key);
      PresentedStep(events, key);
      if last.Recorded? && last.validator in Run(before).pending {
        NoEvictionInv(before, Run(before).pending[last.validator].key);
      }
    }
  }

  lemma PresentedStep(events: seq<Event>, key: Key)
    requires events != []
    ensures var before, last := events[..|events| - 1], events[|events| - 1];
            Presented(events, key) <==>
              Presented(before, key) || (last.Recorded? && Holds(Run(before), last.validator, key))
  {
    hide Holds, Run;
    var before, last := events[..|events| - 1], events[|events| - 1];
    assert forall i :: 0 <= i < |before| ==> before[..i] == events[..i];
    assert events[..|before|] == before && events[|before|] == last;
    if Presented(before, key) {
      var i :| 0 <= i < |before| && before[i].Recorded? && Holds(Run(before[..i]), before[i].validator, key);
      assert events[i] == before[i] && events[..i] == before[..i];
    }
    if Presented(events, key) {
      var i :| 0 <= i < |events| && events[i].Recorded? && Holds(Run(events[..i]), events[i].validator, key);
      assert i < |before| ==> before[i] == events[i] && before[..i] == events[..i];
    }
  }

  /** With no eviction every interleaving, whatever the clocks and skews, accepts a key presented any
      number of times exactly once. */
  lemma EachKeyOnce(events: seq<Event>, key: Key)
    requires NoEviction(events)
    ensures multiset(Run(events).accepted)[key] == if Presented(events, key) then 1 else 0
  {
    NoEvictionInv(events, key);
    OnceCount(Run(events).accepted, key);
  }

  lemma {:induction false} OnceCount(keys: seq<Key>, key: Key)
    requires AllOnce(keys)
    ensures multiset(keys)[key] == if key in keys then 1 else 0
  {
    if keys != [] {
      var before, last := keys[..|keys| - 1], keys[|keys| - 1];
      OnceCount(before, key);
      assert keys == before + [last];
    }
  }
}
