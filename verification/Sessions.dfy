/** Kerberos sessions, and the checks a KDC reply must pass to become one (src/client.rs). Times are
    nanoseconds from the Unix epoch; names are byte strings. */
module Sessions {
  import opened Bytes

  type Name = seq<byte>

  datatype Principal = Principal(realm: Name, nameType: int, components: seq<Name>)

  /** What a reply grants besides the two principals. */
  datatype Grant = Grant(
    etype: int,
    key: seq<byte>,
    ticket: seq<byte>,
    flags: seq<byte>,
    authTime: int,
    startTime: int,
    endTime: int,
    renewTill: Option<int>,
    keyExpiration: Option<int>)

  /** `AsRepSession`. */
  datatype Session = Session(client: Principal, service: Principal, grant: Grant)

  datatype Error =
    | Failed
    | Kdc
    | Decode
    | Decrypt
    | FastNegotiation
    | ClientPrincipalMismatch
    | NonceMismatch
    | ServicePrincipalMismatch
    | InvalidTgtSession
    | InvalidReferralTicket
    | MaxReferralDepth
    | NoClientCredentials
    | NoTgtSession
    | TimeOverflow
    | Panicked

  // "krbtgt"
  const KRBTGT: Name := [0x6b, 0x72, 0x62, 0x74, 0x67, 0x74]
  const NT_SRV_INST := 2

  // ------------------------------------------------------------------
  // Names

  /** `principal_matches`: the name type does not matter. */
  predicate Matches(a: Principal, b: Principal)
  {
    a.realm == b.realm && a.components == b.components
  }

  function Lower(b: byte): byte
  {
    if 0x41 <= b <= 0x5a then b + 0x20 else b
  }

  predicate IgnoreCase(a: Name, b: Name)
  {
    |a| == |b| && forall i :: 0 <= i < |a| ==> Lower(a[i]) == Lower(b[i])
  }

  /** `is_tgt_principal`. */
  predicate IsTgt(p: Principal)
  {
    |p.components| >= 2 && IgnoreCase(p.components[0], KRBTGT)
  }

  /** `tgt_realm`: the realm a TGT is for, its last component. */
  function TgtRealm(s: Session): (r: Option<Name>)
    ensures r.Some? <==> IsTgt(s.service)
  {
    if IsTgt(s.service) then Some(s.service.components[|s.service.components| - 1]) else None
  }

  /** `Principal::tgt_service`. */
  function TgtService(realm: Name): (p: Principal)
    ensures IsTgt(p)
  {
    Principal(realm, NT_SRV_INST, [KRBTGT, realm])
  }

  // ------------------------------------------------------------------
  // Times

  predicate ValidAt(s: Session, now: int)
  {
    s.grant.startTime <= now < s.grant.endTime
  }

  predicate RenewableAt(s: Session, now: int)
  {
    s.grant.renewTill.Some? && now < s.grant.renewTill.value
  }

  predicate UsableAt(s: Session, now: int)
  {
    ValidAt(s, now) || RenewableAt(s, now)
  }

  /** `session_refresh_due_at`: a sixth of the lifetime, or less, is left. */
  predicate RefreshDueAt(s: Session, now: int)
  {
    var lifetime := s.grant.endTime - s.grant.authTime;
    now >= s.grant.endTime || lifetime <= 0 || s.grant.endTime - now <= lifetime / 6
  }

  // ------------------------------------------------------------------
  // Replies

  datatype Request = Request(client: Principal, kdcRealm: Name, service: Principal, nonce: nat)

  /** The encrypted part: `extrasOk` says whether the FAST negotiation data of an AS reply checks out. */
  datatype Contents = Contents(nonce: nat, service: Principal, extrasOk: bool, grant: Grant)

  /** Anything a KDC can answer. `Unsent` is a request that could not be built or sent. */
  datatype Reply =
    | Unsent
    | KrbError
    | Undecodable
    | Reply(client: Principal, contents: Option<Contents>, ticketService: Principal)

  /** `process_as_rep`, `process_tgs_rep` and `process_tgs_rep_with_referral`. */
  function Process(q: Request, r: Reply, allowReferral: bool): Result<Session, Error>
  {
    match r
    case Unsent => Err(Failed)
    case KrbError => Err(Kdc)
    case Undecodable => Err(Decode)
    case Reply(client, contents, ticketService) =>
      if !Matches(client, q.client) then Err(ClientPrincipalMismatch)
      else if contents.None? then Err(Decrypt)
      else
        var c := contents.value;
        var referral := allowReferral && IsTgt(c.service) && !Matches(c.service, q.service);
        if !c.extrasOk then Err(FastNegotiation)
        else if c.nonce != q.nonce then Err(NonceMismatch)
        else if !Matches(c.service, q.service) && !referral then Err(ServicePrincipalMismatch)
        else if !Matches(ticketService, c.service) then Err(ServicePrincipalMismatch)
        else Ok(Session(client, c.service, c.grant))
  }

  /** A TGT by its bytes: at least two components, the first of them "krbtgt" in any case; the last is its realm. */
  lemma TgtRealmIs(s: Session)
    ensures var parts := s.service.components;
            && IsTgt(s.service) == (TgtRealm(s).Some?)
            && (IsTgt(s.service) <==>
                  && |parts| >= 2 && |parts[0]| == 6
                  && forall i :: 0 <= i < 6 ==> parts[0][i] == Ascii("krbtgt")[i] || parts[0][i] == Ascii("KRBTGT")[i])
            && (IsTgt(s.service) ==> TgtRealm(s) == Some(parts[|parts| - 1]))
  {
    assert KRBTGT == Ascii("krbtgt");
    var parts := s.service.components;
    if |parts| >= 2 && |parts[0]| == 6 {
      forall i | 0 <= i < 6
        ensures Lower(parts[0][i]) == Lower(KRBTGT[i])
           <==> parts[0][i] == Ascii("krbtgt")[i] || parts[0][i] == Ascii("KRBTGT")[i]
      {
        assert Ascii("KRBTGT")[i] + 0x20 == KRBTGT[i];
      }
    }
  }

  /** Same realm and components, whatever the name types. */
  predicate SameName(a: Principal, b: Principal)
  {
    a.realm == b.realm && a.components == b.components
  }

  /** A reply is accepted exactly when, field by field: its client is the request's; its contents decrypt; the FAST
      data checks out; the nonce is the request's; the service is the one asked for, or a TGT where referrals are
      followed; and the ticket names that service. The session holds what the reply grants. */
  lemma ProcessAccepts(q: Request, r: Reply, allowReferral: bool, s: Session)
    ensures Process(q, r, allowReferral) == Ok(s) <==>
      && r.Reply? && SameName(r.client, q.client) && r.contents.Some?
      && r.contents.value.extrasOk
      && r.contents.value.nonce == q.nonce
      && (SameName(r.contents.value.service, q.service) || (allowReferral && IsTgt(r.contents.value.service)))
      && SameName(r.ticketService, r.contents.value.service)
      && s == Session(r.client, r.contents.value.service, r.contents.value.grant)
  {
  }

  /** And a refusal names the first check that fails. */
  lemma ProcessRefuses(q: Request, r: Reply, allowReferral: bool, e: Error)
    requires Process(q, r, allowReferral) == Err(e)
    ensures r.Unsent? <==> e == Failed
    ensures r.KrbError? <==> e == Kdc
    ensures r.Undecodable? <==> e == Decode
    ensures e == ClientPrincipalMismatch <==> r.Reply? && !SameName(r.client, q.client)
    ensures e == Decrypt <==> r.Reply? && SameName(r.client, q.client) && r.contents.None?
    ensures r.Reply? && SameName(r.client, q.client) && r.contents.Some? ==>
      var c := r.contents.value;
      && (e == FastNegotiation <==> !c.extrasOk)
      && (e == NonceMismatch <==> c.extrasOk && c.nonce != q.nonce)
      && (e == ServicePrincipalMismatch <==> c.extrasOk && c.nonce == q.nonce)
  {
  }

  /** What any accepted session owes to the checks, whoever answered. */
  lemma AcceptedSession(q: Request, r: Reply, allowReferral: bool)
    requires Process(q, r, allowReferral).Ok?
    ensures var s := Process(q, r, allowReferral).value;
            && Matches(s.client, q.client)
            && (Matches(s.service, q.service) || (allowReferral && IsTgt(s.service)))
            && r.contents.value.nonce == q.nonce && Matches(r.ticketService, s.service)
  {
  }

  /** A TGT asked for without referrals is for the realm asked for. */
  lemma AcceptedTgt(q: Request, r: Reply, realm: Name)
    requires Process(q, r, false).Ok? && Matches(q.service, TgtService(realm))
    ensures TgtRealm(Process(q, r, false).value) == Some(realm)
  {
  }
}
