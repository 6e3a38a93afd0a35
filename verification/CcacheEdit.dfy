/** Editing a credential cache in place: replacing and removing entries (src/ccache.rs:258-305), and
    exporting a client's sessions into an existing cache (src/client.rs:662-674). */
module CcacheEdit {
  import opened Bytes
  import opened Ccache

  // "X-CACHECONF:" and "krb5_ccache_conf_data"
  const CONF_REALM: seq<byte> := [0x58, 0x2d, 0x43, 0x41, 0x43, 0x48, 0x45, 0x43, 0x4f, 0x4e, 0x46, 0x3a]
  const CONF_DATA: seq<byte> := [0x6b, 0x72, 0x62, 0x35, 0x5f, 0x63, 0x63, 0x61, 0x63, 0x68, 0x65, 0x5f,
                                 0x63, 0x6f, 0x6e, 0x66, 0x5f, 0x64, 0x61, 0x74, 0x61]

  /** `parse_config_entry(..).is_some()`, a property of the server's name alone. */
  predicate IsConfig(server: Principal)
  {
    server.realm == CONF_REALM && 2 <= |server.components| <= 3 && server.components[0] == CONF_DATA
  }

  /** `same_principal_identity`: the name type does not matter. */
  predicate SameIdentity(a: Principal, b: Principal)
  {
    a.realm == b.realm && a.components == b.components
  }

  /** The slot a credential occupies: exact client and server. */
  predicate SamePair(a: Credential, b: Credential)
  {
    a.client == b.client && a.server == b.server
  }

  /** The tickets `remove_entries_for_client` takes away. */
  predicate TicketOf(client: Principal, c: Credential)
  {
    SameIdentity(c.client, client) && !IsConfig(c.server)
  }

  /** Removed are the entries of the client's realm and components, whatever the name type, but for the
      configuration entries: those of realm X-CACHECONF: with two or three components, krb5_ccache_conf_data first. */
  lemma TicketOfIs(client: Principal, c: Credential)
    ensures TicketOf(client, c) <==>
      && c.client.realm == client.realm && c.client.components == client.components
      && !(c.server.realm == Ascii("X-CACHECONF:") && |c.server.components| in {2, 3}
           && c.server.components[0] == Ascii("krb5_ccache_conf_data"))
  {
    assert CONF_REALM == Ascii("X-CACHECONF:");
    assert CONF_DATA == Ascii("krb5_ccache_conf_data");
  }

  /** The credentials of `cs` that are, or are not, tickets of `client`, in order. */
  function Tickets(cs: seq<Credential>, client: Principal, want: bool): (r: seq<Credential>)
    ensures forall c :: c in r <==> c in cs && TicketOf(client, c) == want
  {
    if cs == [] then []
    else if TicketOf(client, cs[0]) == want then [cs[0]] + Tickets(cs[1..], client, want)
    else Tickets(cs[1..], client, want)
  }

  /** The position of the first credential in the slot of `c`, or the length. */
  function Slot(cs: seq<Credential>, c: Credential): (i: nat)
    ensures i <= |cs|
    ensures i < |cs| ==> SamePair(cs[i], c)
    ensures forall j :: 0 <= j < i ==> !SamePair(cs[j], c)
  {
    if cs == [] || SamePair(cs[0], c) then 0 else 1 + Slot(cs[1..], c)
  }

  function Upserted(cs: seq<Credential>, c: Credential): seq<Credential>
  {
    var i := Slot(cs, c);
    if i < |cs| then cs[i := c] else cs + [c]
  }

  /** `upsert_credential` for each of `new`, first to last. */
  function UpsertAll(cs: seq<Credential>, added: seq<Credential>): seq<Credential>
  {
    if added == [] then cs else Upserted(UpsertAll(cs, added[..|added| - 1]), added[|added| - 1])
  }

  /** What `update_ccache` leaves of `cs`. */
  function Updated(cs: seq<Credential>, client: Principal, sessions: seq<Credential>): seq<Credential>
  {
    UpsertAll(Tickets(cs, client, false), sessions)
  }

  predicate NoDuplicates(cs: seq<Credential>)
  {
    forall i, j :: 0 <= i < j < |cs| ==> !SamePair(cs[i], cs[j])
  }

  // ------------------------------------------------------------------
  // One upsert

  lemma UpsertKeepsDistinct(cs: seq<Credential>, c: Credential)
    requires NoDuplicates(cs)
    ensures NoDuplicates(Upserted(cs, c))
  {
    var i, r := Slot(cs, c), Upserted(cs, c);
    forall j, k | 0 <= j < k < |r| ensures !SamePair(r[j], r[k]) {
      if i < |cs| {
        assert j != i ==> r[j] == cs[j];
        assert k != i ==> r[k] == cs[k];
      }
    }
  }

  lemma {:induction false} TicketsSplit(a: seq<Credential>, b: seq<Credential>, client: Principal, want: bool)
    ensures Tickets(a + b, client, want) == Tickets(a, client, want) + Tickets(b, client, want)
  {
    hide TicketOf;
    if a == [] {
      assert a + b == b;
    } else {
      TicketsSplit(a[1..], b, client, want);
      assert (a + b)[1..] == a[1..] + b;
    }
  }

  /** The chosen credentials stay in order: each stands behind those chosen before it. */
  lemma TicketsInOrder(cs: seq<Credential>, client: Principal, want: bool, k: nat)
    requires k < |cs| && TicketOf(client, cs[k]) == want
    ensures var before := |Tickets(cs[..k], client, want)|;
            before < |Tickets(cs, client, want)| && Tickets(cs, client, want)[before] == cs[k]
  {
    hide TicketOf;
    assert cs == cs[..k] + cs[k..] && cs[k..][0] == cs[k];
    TicketsSplit(cs[..k], cs[k..], client, want);
  }

  lemma UpdateParts<T>(s: seq<T>, i: nat, x: T)
    requires i < |s|
    ensures s[i := x] == s[..i] + ([x] + s[i + 1..])
    ensures s == s[..i] + ([s[i]] + s[i + 1..])
  {
  }

  /** A ticket of `client` never touches the other credentials. */
  lemma UpsertKeepsOthers(cs: seq<Credential>, client: Principal, c: Credential)
    requires TicketOf(client, c)
    ensures Tickets(Upserted(cs, c), client, false) == Tickets(cs, client, false)
  {
    var i := Slot(cs, c);
    var tail := if i < |cs| then cs[i + 1..] else [];
    if i < |cs| { UpdateParts(cs, i, c); }
    TicketsSplit(cs[..i], [c] + tail, client, false);
    assert ([c] + tail)[1..] == tail;
    if i < |cs| {
      TicketsSplit(cs[..i], [cs[i]] + tail, client, false);
      assert ([cs[i]] + tail)[1..] == tail;
    } else {
      assert cs[..i] == cs && [c] + tail == [c];
    }
  }

  /** And among the tickets of `client` it does what it does anywhere. */
  lemma {:induction false} UpsertTickets(cs: seq<Credential>, client: Principal, c: Credential)
    requires TicketOf(client, c)
    ensures Tickets(Upserted(cs, c), client, true) == Upserted(Tickets(cs, client, true), c)
  {
    if cs == [] {
      assert [c][1..] == [];
    } else {
      var more := cs[1..];
      UpsertTickets(more, client, c);
      if SamePair(cs[0], c) {
        assert Upserted(cs, c)[1..] == more;
        assert TicketOf(client, cs[0]);
        assert Tickets(cs, client, true)[0 := c] == [c] + Tickets(more, client, true);
      } else {
        assert Upserted(cs, c) == [cs[0]] + Upserted(more, c);
        assert Upserted(cs, c)[1..] == Upserted(more, c);
        if TicketOf(client, cs[0]) {
          SkipSlot(cs[0], Tickets(more, client, true), c);
        }
      }
    }
  }

  lemma SkipSlot(first: Credential, more: seq<Credential>, c: Credential)
    requires !SamePair(first, c)
    ensures Upserted([first] + more, c) == [first] + Upserted(more, c)
  {
    assert ([first] + more)[1..] == more;
  }

  // ------------------------------------------------------------------
  // update_ccache

  predicate AllTicketsOf(client: Principal, sessions: seq<Credential>)
  {
    forall i :: 0 <= i < |sessions| ==> TicketOf(client, sessions[i])
  }

  lemma {:induction false} UpsertAllSplits(cs: seq<Credential>, client: Principal, sessions: seq<Credential>)
    requires AllTicketsOf(client, sessions)
    ensures Tickets(UpsertAll(cs, sessions), client, false) == Tickets(cs, client, false)
    ensures Tickets(UpsertAll(cs, sessions), client, true) == UpsertAll(Tickets(cs, client, true), sessions)
  {
    if sessions != [] {
      var before, last := sessions[..|sessions| - 1], sessions[|sessions| - 1];
      UpsertAllSplits(cs, client, before);
      UpsertKeepsOthers(UpsertAll(cs, before), client, last);
      UpsertTickets(UpsertAll(cs, before), client, last);
    }
  }

  lemma {:induction false} TicketsTwice(cs: seq<Credential>, client: Principal)
    ensures Tickets(Tickets(cs, client, false), client, false) == Tickets(cs, client, false)
    ensures Tickets(Tickets(cs, client, false), client, true) == []
  {
    if cs != [] {
      TicketsTwice(cs[1..], client);
      if !TicketOf(client, cs[0]) {
        assert Tickets(cs, client, false)[1..] == Tickets(cs[1..], client, false);
      }
    }
  }

  lemma {:induction false} TicketsDistinct(cs: seq<Credential>, client: Principal, want: bool)
    requires NoDuplicates(cs)
    ensures NoDuplicates(Tickets(cs, client, want))
  {
    if cs != [] {
      assert NoDuplicates(cs[1..]);
      TicketsDistinct(cs[1..], client, want);
      var more := Tickets(cs[1..], client, want);
      forall i | 0 <= i < |more| ensures !SamePair(cs[0], more[i]) {
        assert more[i] in more && more[i] in cs[1..];
      }
    }
  }

  lemma {:induction false} UpsertAllDistinct(cs: seq<Credential>, sessions: seq<Credential>)
    requires NoDuplicates(cs)
    ensures NoDuplicates(UpsertAll(cs, sessions))
  {
    if sessions != [] {
      var before := sessions[..|sessions| - 1];
      UpsertAllDistinct(cs, before);
      UpsertKeepsDistinct(UpsertAll(cs, before), sessions[|sessions| - 1]);
    }
  }

  /** Distinct sessions are all added, in order; anything else loses one of them. */
  lemma {:induction false} UpsertAllFresh(sessions: seq<Credential>)
    ensures UpsertAll([], sessions) == sessions <==> NoDuplicates(sessions)
  {
    UpsertAllDistinct([], sessions);
    if NoDuplicates(sessions) && sessions != [] {
      var before := sessions[..|sessions| - 1];
      assert NoDuplicates(before);
      UpsertAllFresh(before);
    }
  }

  /** A session is the last of its slot. */
  ghost predicate LastOfSlot(sessions: seq<Credential>, c: Credential)
  {
    exists i :: 0 <= i < |sessions| && sessions[i] == c
                && forall j :: i < j < |sessions| ==> !SamePair(sessions[j], c)
  }

  lemma LastOfSlotStep(before: seq<Credential>, last: Credential, c: Credential)
    ensures LastOfSlot(before + [last], c) <==> c == last || (LastOfSlot(before, c) && !SamePair(last, c))
  {
    var all := before + [last];
    if c == last {
      assert all[|before|] == c;
    } else if LastOfSlot(before, c) && !SamePair(last, c) {
      var i :| 0 <= i < |before| && before[i] == c && forall j :: i < j < |before| ==> !SamePair(before[j], c);
      assert all[i] == c;
    } else if LastOfSlot(all, c) {
      var i :| 0 <= i < |all| && all[i] == c && forall j :: i < j < |all| ==> !SamePair(all[j], c);
      assert all[|before|] == last && before[i] == c;
      forall j | i < j < |before| ensures !SamePair(before[j], c) { assert all[j] == before[j]; }
    }
  }

  /** The last session of each slot is what remains. */
  lemma {:induction false} UpsertAllLast(sessions: seq<Credential>, c: Credential)
    ensures c in UpsertAll([], sessions) <==> LastOfSlot(sessions, c)
  {
    if sessions != [] {
      var before, last := sessions[..|sessions| - 1], sessions[|sessions| - 1];
      assert sessions == before + [last];
      UpsertAllLast(before, c);
      LastOfSlotStep(before, last, c);
      UpsertAllDistinct([], before);
      UpsertedMembers(UpsertAll([], before), last, c);
    }
  }

  lemma UpsertedMembers(cs: seq<Credential>, last: Credential, c: Credential)
    requires NoDuplicates(cs)
    ensures c in Upserted(cs, last) <==> c == last || (c in cs && !SamePair(last, c))
  {
    var i, r := Slot(cs, last), Upserted(cs, last);
    assert r[i] == last;
    if c in cs && !SamePair(last, c) {
      var k :| 0 <= k < |cs| && cs[k] == c;
      assert r[k] == c;
    }
    if c in r && c != last {
      var k :| 0 <= k < |r| && r[k] == c;
      assert k != i && cs[k] == c;
      assert SamePair(last, c) ==> SamePair(c, last);
    }
  }

  /** `update_ccache`, for sessions of this client with no configuration principal as server:
      configuration entries and other clients' credentials stay, in order; this client's tickets become
      the exported sessions (the last one of each slot, and all of them in order exactly when no two
      share a slot); and no duplicate slot appears. */
  lemma UpdateReplacesTickets(cs: seq<Credential>, client: Principal, sessions: seq<Credential>)
    requires AllTicketsOf(client, sessions)
    ensures Tickets(Updated(cs, client, sessions), client, false) == Tickets(cs, client, false)
    ensures forall c :: c in Tickets(Updated(cs, client, sessions), client, true) <==> LastOfSlot(sessions, c)
    ensures Tickets(Updated(cs, client, sessions), client, true) == sessions <==> NoDuplicates(sessions)
    ensures NoDuplicates(cs) ==> NoDuplicates(Updated(cs, client, sessions))
  {
    var kept := Tickets(cs, client, false);
    TicketsTwice(cs, client);
    UpsertAllSplits(kept, client, sessions);
    UpsertAllFresh(sessions);
    forall c ensures c in UpsertAll([], sessions) <==> LastOfSlot(sessions, c) {
      UpsertAllLast(sessions, c);
    }
    if NoDuplicates(cs) {
      TicketsDistinct(cs, client, false);
      UpsertAllDistinct(kept, sessions);
    }
  }

  // ------------------------------------------------------------------
  // The cache object

  /** Removing, and stepping over, the element after `kept`. */
  lemma Around<T>(kept: seq<T>, left: seq<T>)
    requires left != []
    ensures var s := kept + left; var i := |kept|;
            && s[i] == left[0]
            && s[..i] + s[i + 1..] == kept + left[1..]
            && s == (kept + [left[0]]) + left[1..]
  {
  }

  lemma Assoc<T>(a: seq<T>, b: seq<T>, c: seq<T>)
    ensures (a + b) + c == a + (b + c)
  {
  }

  /** The first credential with the same client and server, name types included, gave way. */
  predicate ReplacedAt(before: seq<Credential>, i: int, c: Credential, gone: Credential, after: seq<Credential>)
  {
    && 0 <= i < |before| && gone == before[i] && after == before[i := c]
    && gone.client == c.client && gone.server == c.server
    && forall j :: 0 <= j < i ==> before[j].client != c.client || before[j].server != c.server
  }

  class Cache {
    var principal: Principal
    var credentials: seq<Credential>

    constructor (principal: Principal)
      ensures this.principal == principal && credentials == []
    {
      this.principal := principal;
      this.credentials := [];
    }

    /** `upsert_credential`: the entry replaced, if any. */
    method Upsert(credential: Credential) returns (replaced: Option<Credential>)
      modifies this`credentials
      ensures credentials == Upserted(old(credentials), credential)
      ensures replaced.Some? <==> exists i :: 0 <= i < |old(credentials)| && SamePair(old(credentials)[i], credential)
      ensures replaced.Some? ==> replaced.value == old(credentials)[Slot(old(credentials), credential)]
      ensures replaced.None? ==>
        && credentials == old(credentials) + [credential]
        && forall j :: 0 <= j < |old(credentials)| ==>
             old(credentials)[j].client != credential.client || old(credentials)[j].server != credential.server
      ensures replaced.Some? ==> exists i :: ReplacedAt(old(credentials), i, credential, replaced.value, credentials)
    {
      var i := 0;
      while i < |credentials| && !SamePair(credentials[i], credential)
        invariant i <= |credentials|
        invariant forall j :: 0 <= j < i ==> !SamePair(credentials[j], credential)
      {
        i := i + 1;
      }
      if i < |credentials| {
        replaced := Some(credentials[i]);
        credentials := credentials[i := credential];
        assert ReplacedAt(old(credentials), i, credential, replaced.value, credentials);
      } else {
        replaced := None;
        credentials := credentials + [credential];
      }
    }

    /** `remove_entries_for_client`: the entries removed. */
    method RemoveEntriesForClient(client: Principal) returns (removed: seq<Credential>)
      modifies this`credentials
      ensures credentials == Tickets(old(credentials), client, false)
      ensures removed == Tickets(old(credentials), client, true)
      ensures forall c :: c in removed ==> c.client.realm == client.realm && c.client.components == client.components
    {
      forall c | c in Tickets(old(credentials), client, true)
        ensures c.client.realm == client.realm && c.client.components == client.components
      {
        TicketOfIs(client, c);
      }
      hide TicketOf;
      removed := [];
      var index := 0;
      ghost var kept, left := [], credentials;
      while index < |credentials|
        invariant credentials == kept + left && |kept| == index
        invariant kept + Tickets(left, client, false) == Tickets(old(credentials), client, false)
        invariant removed + Tickets(left, client, true) == Tickets(old(credentials), client, true)
        decreases |credentials| - index
      {
        ghost var here, more := left[0], left[1..];
        Around(kept, left);
        if TicketOf(client, credentials[index]) {
          Assoc(removed, [here], Tickets(more, client, true));
          removed := removed + [credentials[index]];
          credentials := credentials[..index] + credentials[index + 1..];
          left := more;
        } else {
          Assoc(kept, [here], Tickets(more, client, false));
          kept, left := kept + [here], more;
          index := index + 1;
        }
      }
      assert kept + [] == kept && removed + [] == removed;
    }

    /** `upsert_credential` for each of `added`, first to last. */
    method UpsertEach(added: seq<Credential>)
      modifies this`credentials
      ensures credentials == UpsertAll(old(credentials), added)
    {
      ghost var before := credentials;
      for i := 0 to |added|
        invariant credentials == UpsertAll(before, added[..i])
      {
        assert added[..i + 1][..i] == added[..i];
        var replaced := Upsert(added[i]);
      }
      assert added[..|added|] == added;
    }
  }
}
