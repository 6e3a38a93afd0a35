/** The loops that parse and write credential caches, against their specification (src/ccache.rs). */
module CcacheIo {
  import opened Bytes
  import opened Wire
  import opened Ccache

  // ------------------------------------------------------------------
  // Parsing

  /** `read_data`. */
  method TakeData(cursor: Cursor, f: Format) returns (r: Result<seq<byte>, Error>)
    requires cursor.Valid()
    modifies cursor`offset
    ensures Agrees(r, cursor, ReadData(old(cursor.Rest()), f))
  {
    var n :- cursor.TakeI32(f);
    if n < 0 { return Err(NegativeLength(n)); }
    r := cursor.Take(n);
  }

  /** `read_counted_string`. */
  method TakeString(cursor: Cursor, f: Format) returns (r: Result<seq<byte>, Error>)
    requires cursor.Valid()
    modifies cursor`offset
    ensures Agrees(r, cursor, ReadString(old(cursor.Rest()), f))
  {
    var raw :- TakeData(cursor, f);
    return if f.utf8(raw) then Ok(raw) else Err(InvalidString);
  }

  method TakeStrings(cursor: Cursor, n: nat, f: Format) returns (r: Result<seq<seq<byte>>, Error>)
    requires cursor.Valid()
    modifies cursor`offset
    ensures Agrees(r, cursor, ReadStrings(old(cursor.Rest()), n, f))
  {
    hide ReadString;
    var components := [];
    PrependNone(ReadStrings(cursor.Rest(), n, f));
    for i := 0 to n
      invariant cursor.Valid()
      invariant Prepend(components, ReadStrings(cursor.Rest(), n - i, f)) == ReadStrings(old(cursor.Rest()), n, f)
    {
      var component :- TakeString(cursor, f);
      PrependOne(components, component, ReadStrings(cursor.Rest(), n - i - 1, f));
      components := components + [component];
    }
    PrependEnd(components, cursor.Rest());
    return Ok(components);
  }

  /** `Principal::parse`. */
  method TakePrincipal(cursor: Cursor, f: Format) returns (r: Result<Principal, Error>)
    requires cursor.Valid()
    modifies cursor`offset
    ensures Agrees(r, cursor, ReadPrincipal(old(cursor.Rest()), f))
  {
    hide ReadI32, ReadString, ReadStrings;
    var nameType := 0;
    if f.version != 1 {
      nameType :- cursor.TakeI32(f);
    }
    ghost var here := cursor.Rest();
    var count :- cursor.TakeI32(f);
    ReadPutI32(here, f, count, cursor.Rest());
    if f.version == 1 {
      if count - 1 < -I32 { return Err(LengthOverflow); }
      count := count - 1;
    }
    if count < 0 { return Err(NegativeLength(count)); }
    var realm :- TakeString(cursor, f);
    var components :- TakeStrings(cursor, count, f);
    return Ok(Principal(realm, nameType, components));
  }

  method TakeList(cursor: Cursor, f: Format) returns (r: Result<seq<Tagged>, Error>)
    requires cursor.Valid()
    modifies cursor`offset
    ensures Agrees(r, cursor, ReadList(old(cursor.Rest()), f))
  {
    hide ReadI32, ReadI16, ReadData;
    var n :- cursor.TakeI32(f);
    if n < 0 { return Err(NegativeLength(n)); }
    ghost var body := cursor.Rest();
    var items := [];
    PrependNone(ReadTaggeds(body, n, f));
    for i := 0 to n
      invariant cursor.Valid()
      invariant Prepend(items, ReadTaggeds(cursor.Rest(), n - i, f)) == ReadTaggeds(body, n, f)
    {
      var kind :- cursor.TakeI16(f);
      var data :- TakeData(cursor, f);
      PrependOne(items, Tagged(kind, data), ReadTaggeds(cursor.Rest(), n - i - 1, f));
      items := items + [Tagged(kind, data)];
    }
    PrependEnd(items, cursor.Rest());
    return Ok(items);
  }

  method TakeHead(cursor: Cursor, f: Format) returns (r: Result<Raw, Error>)
    requires cursor.Valid()
    modifies cursor`offset
    ensures Agrees(r, cursor, ReadHead(old(cursor.Rest()), f))
  {
    hide ReadPrincipal, ReadI16, ReadData;
    var client :- TakePrincipal(cursor, f);
    var server :- TakePrincipal(cursor, f);
    var first :- cursor.TakeI16(f);
    var etype := first;
    if f.version == 3 {
      etype :- cursor.TakeI16(f);
    }
    var key :- TakeData(cursor, f);
    return Ok(Raw(Credential(client, server, etype, key, Times(0, 0, 0, 0), false, [], [], [], [], []), 0, first));
  }

  method TakeMid(cursor: Cursor, f: Format, head: Raw) returns (r: Result<Raw, Error>)
    requires cursor.Valid()
    modifies cursor`offset
    ensures Agrees(r, cursor, ReadMid(old(cursor.Rest()), f, head))
  {
    hide ReadU32;
    var authTime :- cursor.TakeU32(f);
    var startTime :- cursor.TakeU32(f);
    var endTime :- cursor.TakeU32(f);
    var renewTill :- cursor.TakeU32(f);
    var skey :- cursor.Take(1);
    var flags :- cursor.Take(4);
    return Ok(head.(skey := skey[0], cred := head.cred.(times := Times(authTime, startTime, endTime, renewTill),
                                                        isSkey := skey[0] != 0, flags := flags)));
  }

  method TakeTail(cursor: Cursor, f: Format, mid: Raw) returns (r: Result<Raw, Error>)
    requires cursor.Valid()
    modifies cursor`offset
    ensures Agrees(r, cursor, ReadTail(old(cursor.Rest()), f, mid))
  {
    hide ReadList, ReadData;
    var addresses :- TakeList(cursor, f);
    var authData :- TakeList(cursor, f);
    var ticket :- TakeData(cursor, f);
    var second :- TakeData(cursor, f);
    return Ok(mid.(cred := mid.cred.(addresses := addresses, authData := authData,
                                     ticket := ticket, secondTicket := second)));
  }

  /** `Credential::parse`. */
  method TakeRaw(cursor: Cursor, f: Format) returns (r: Result<Raw, Error>)
    requires cursor.Valid()
    modifies cursor`offset
    ensures Agrees(r, cursor, ReadRaw(old(cursor.Rest()), f))
  {
    hide ReadHead, ReadMid, ReadTail;
    var head :- TakeHead(cursor, f);
    var mid :- TakeMid(cursor, f, head);
    r := TakeTail(cursor, f, mid);
  }

  /** `Header::parse`. */
  method TakeHeader(cursor: Cursor, f: Format) returns (r: Result<seq<HeaderField>, Error>)
    requires cursor.Valid() && f.version == 4
    modifies cursor`offset
    ensures Agrees(r, cursor, ReadHeader(old(cursor.Rest()), f))
  {
    hide ReadU16;
    var length :- cursor.TakeU16(f);
    var end := cursor.offset + length;
    if end > |cursor.bytes| { return Err(Truncated); }
    var fields := [];
    ghost var body := cursor.Rest();
    PrependNone(ReadFields(body, length, f));
    while cursor.offset < end
      invariant cursor.Valid()
      invariant cursor.offset <= end ==>
                  Prepend(fields, ReadFields(cursor.Rest(), end - cursor.offset, f)) == ReadFields(body, length, f)
      invariant cursor.offset > end ==> ReadFields(body, length, f) == Err(InvalidHeaderLength)
      decreases |cursor.bytes| - cursor.offset
    {
      ghost var left := end - cursor.offset;
      var tag :- cursor.TakeU16(f);
      var fieldLength :- cursor.TakeU16(f);
      var value :- cursor.Take(fieldLength);
      var field := HeaderField(tag, value);
      if !FieldValid(field) { return Err(InvalidHeaderField(tag, |value|)); }
      if cursor.offset <= end {
        PrependOne(fields, field, ReadFields(cursor.Rest(), left - 4 - |value|, f));
      }
      fields := fields + [field];
    }
    PrependEnd(fields, cursor.Rest());
    return if cursor.offset != end then Err(InvalidHeaderLength) else Ok(fields);
  }

  /** `CCache::parse`. */
  method Parse(h: Host, bytes: seq<byte>) returns (r: Result<CCache, Error>)
    ensures r == ParseOf(h, bytes)
  {
    hide ReadHeader, ReadPrincipal, ReadRaw;
    if |bytes| < 2 { return Err(TooShort(|bytes|)); }
    if bytes[0] != 5 { return Err(InvalidFirstByte(bytes[0])); }
    var version := bytes[1];
    if version < 1 || version > 4 { return Err(InvalidVersion(version)); }
    var f := FormatFor(h, version);
    var cursor := new Cursor(bytes);
    cursor.offset := 2;
    var header := [];
    if version == 4 {
      header :- TakeHeader(cursor, f);
    } else {
      assert ReadHeader(bytes[2..], f) == Ok(([], bytes[2..])) by { NoHeader(bytes[2..], f); }
    }
    var principal :- TakePrincipal(cursor, f);
    ghost var start := cursor.Rest();
    var raws := [];
    PrependRawsNone(ReadRaws(start, f));
    while cursor.offset < |bytes|
      invariant cursor.Valid()
      invariant PrependRaws(raws, ReadRaws(cursor.Rest(), f)) == ReadRaws(start, f)
      decreases |bytes| - cursor.offset
    {
      ghost var here := cursor.Rest();
      var raw :- TakeRaw(cursor, f);
      ReadPutRaw(here, f, raw, cursor.Rest());
      PrependRawsOne(raws, raw, ReadRaws(cursor.Rest(), f));
      raws := raws + [raw];
    }
    PrependRawsEnd(raws);
    return Ok(CCache(version, header, principal, Creds(raws)));
  }

  lemma NoHeader(s: seq<byte>, f: Format)
    requires f.version != 4
    ensures ReadHeader(s, f) == Ok(([], s))
  {
  }

  lemma PrependRawsNone(r: Result<seq<Raw>, Error>)
    ensures PrependRaws([], r) == r
  {
    if r.Ok? { assert [] + r.value == r.value; }
  }

  lemma PrependRawsOne(rs: seq<Raw>, x: Raw, r: Result<seq<Raw>, Error>)
    ensures PrependRaws(rs, PrependRaws([x], r)) == PrependRaws(rs + [x], r)
  {
    if r.Ok? { assert rs + ([x] + r.value) == (rs + [x]) + r.value; }
  }

  lemma PrependRawsEnd(rs: seq<Raw>)
    ensures PrependRaws(rs, Ok([])) == Ok(rs)
  {
    assert rs + [] == rs;
  }

  // ------------------------------------------------------------------
  // Writing

  /** What a writer does: append the bytes, or refuse a length that does not fit. */
  predicate Appends(r: Result<seq<byte>, Error>, out: seq<byte>, fits: bool, bytes: seq<byte>)
  {
    r == if fits then Ok(out + bytes) else Err(LengthOverflow)
  }

  /** Appending `a` and then `b`. */
  lemma Then(out: seq<byte>, a: seq<byte>, b: seq<byte>)
    ensures out + a + b == out + (a + b)
  {
  }

  /** `write_i32_len_checked`. */
  method WriteCount(n: nat, f: Format, out: seq<byte>) returns (r: Result<seq<byte>, Error>)
    ensures Appends(r, out, n < I32, PutI32(n, f))
  {
    if n >= I32 { return Err(LengthOverflow); }
    return Ok(out + PutI32(n, f));
  }

  /** `write_i16_checked`. */
  method WriteI16(i: int, f: Format, out: seq<byte>) returns (r: Result<seq<byte>, Error>)
    ensures Appends(r, out, -I16 <= i < I16, PutI16(i, f))
  {
    if i < -I16 || i >= I16 { return Err(LengthOverflow); }
    return Ok(out + PutI16(i, f));
  }

  /** `write_data`. */
  method WriteData(v: seq<byte>, f: Format, out: seq<byte>) returns (r: Result<seq<byte>, Error>)
    ensures Appends(r, out, |v| < I32, PutData(v, f))
  {
    var counted :- WriteCount(|v|, f, out);
    Then(out, PutI32(|v|, f), v);
    return Ok(counted + v);
  }

  method WriteStrings(vs: seq<seq<byte>>, f: Format, out: seq<byte>) returns (r: Result<seq<byte>, Error>)
    ensures Appends(r, out, forall i :: 0 <= i < |vs| ==> |vs[i]| < I32, PutStrings(vs, f))
  {
    hide PutData;
    var out' := out;
    for i := 0 to |vs|
      invariant forall j :: 0 <= j < i ==> |vs[j]| < I32
      invariant out' + PutStrings(vs[i..], f) == out + PutStrings(vs, f)
    {
      assert vs[i..][0] == vs[i] && vs[i..][1..] == vs[i + 1..];
      Then(out', PutData(vs[i], f), PutStrings(vs[i + 1..], f));
      out' :- WriteData(vs[i], f, out');
    }
    assert vs[|vs|..] == [] && out' + [] == out';
    return Ok(out');
  }

  /** `Principal::write_to`. */
  method WritePrincipal(p: Principal, f: Format, out: seq<byte>) returns (r: Result<seq<byte>, Error>)
    ensures Appends(r, out, PrincipalFits(p, f), PutPrincipal(p, f))
  {
    hide PutI32, PutData, PutStrings;
    var named := out;
    if f.version != 1 { named := out + PutI32(p.nameType, f); } else { assert out + [] == out; }
    var counted :- WriteCount(|p.components| + Extra(f), f, named);
    var realmed :- WriteData(p.realm, f, counted);
    r := WriteStrings(p.components, f, realmed);
    Append4(out, PutNameType(p.nameType, f), PutI32(|p.components| + Extra(f), f), PutData(p.realm, f),
            PutStrings(p.components, f));
  }

  lemma Append4(out: seq<byte>, a: seq<byte>, b: seq<byte>, c: seq<byte>, d: seq<byte>)
    ensures out + a + b + c + d == out + (a + (b + (c + d)))
  {
    Then(out + a + b, c, d);
    Then(out + a, b, c + d);
    Then(out, a, b + (c + d));
  }

  method WriteList(ts: seq<Tagged>, f: Format, out: seq<byte>) returns (r: Result<seq<byte>, Error>)
    ensures Appends(r, out, ListFits(ts), PutList(ts, f))
  {
    hide PutData, PutI16, PutI32;
    var counted :- WriteCount(|ts|, f, out);
    var out' := counted;
    for i := 0 to |ts|
      invariant forall j :: 0 <= j < i ==> TaggedFits(ts[j])
      invariant out' + PutTaggeds(ts[i..], f) == counted + PutTaggeds(ts, f)
    {
      assert ts[i..][0] == ts[i] && ts[i..][1..] == ts[i + 1..];
      Then(out', PutTagged(ts[i], f), PutTaggeds(ts[i + 1..], f));
      Then(out', PutI16(ts[i].kind, f), PutData(ts[i].data, f));
      out' :- WriteI16(ts[i].kind, f, out');
      out' :- WriteData(ts[i].data, f, out');
    }
    assert ts[|ts|..] == [] && out' + [] == out';
    Then(out, PutI32(|ts|, f), PutTaggeds(ts, f));
    return Ok(out');
  }

  method WriteEtypes(c: Credential, f: Format, out: seq<byte>) returns (r: Result<seq<byte>, Error>)
    ensures Appends(r, out, -I16 <= c.etype < I16, PutEtypes(RawOf(c), f))
  {
    hide PutI16;
    var first :- WriteI16(c.etype, f, out);
    r := Ok(first);
    if f.version == 3 {
      r := WriteI16(c.etype, f, first);
      Then(out, PutI16(c.etype, f), PutI16(c.etype, f));
    } else {
      assert [] + PutI16(c.etype, f) == PutI16(c.etype, f);
    }
  }

  /** `Credential::write_to`. */
  method WriteCredential(c: Credential, f: Format, out: seq<byte>) returns (r: Result<seq<byte>, Error>)
    ensures Appends(r, out, RawFits(RawOf(c), f), PutRaw(RawOf(c), f))
  {
    hide PutPrincipal, PrincipalFits, PutEtypes, PutData, PutU32, PutList, ListFits;
    var clientDone :- WritePrincipal(c.client, f, out);
    var serverDone :- WritePrincipal(c.server, f, clientDone);
    var etypesDone :- WriteEtypes(c, f, serverDone);
    var head :- WriteData(c.key, f, etypesDone);
    Append4(out, PutPrincipal(c.client, f), PutPrincipal(c.server, f), PutEtypes(RawOf(c), f), PutData(c.key, f));
    assert head == out + PutHead(RawOf(c), f);
    var t := c.times;
    var mid := head + PutU32(t.authTime, f) + PutU32(t.startTime, f) + PutU32(t.endTime, f) + PutU32(t.renewTill, f);
    mid := mid + [SkeyByte(c)];
    mid := mid + c.flags;
    assert mid == head + PutMid(RawOf(c), f) by {
      var a, b, c', d := PutU32(t.authTime, f), PutU32(t.startTime, f), PutU32(t.endTime, f), PutU32(t.renewTill, f);
      Append6(head, a, b, c', d, [SkeyByte(c)], c.flags);
    }
    var addressed :- WriteList(c.addresses, f, mid);
    var authorized :- WriteList(c.authData, f, addressed);
    var ticketed :- WriteData(c.ticket, f, authorized);
    r := WriteData(c.secondTicket, f, ticketed);
    Append4(mid, PutList(c.addresses, f), PutList(c.authData, f), PutData(c.ticket, f), PutData(c.secondTicket, f));
    Then(out, PutHead(RawOf(c), f), PutMid(RawOf(c), f));
    Then(out, PutHead(RawOf(c), f), PutMid(RawOf(c), f) + PutTail(RawOf(c), f));
    Then(out + PutHead(RawOf(c), f), PutMid(RawOf(c), f), PutTail(RawOf(c), f));
  }

  lemma Append6(out: seq<byte>, a: seq<byte>, b: seq<byte>, c: seq<byte>, d: seq<byte>, k: seq<byte>, g: seq<byte>)
    ensures out + a + b + c + d + k + g == out + (a + (b + (c + (d + (k + g)))))
  {
    Then(out + a + b + c + d, k, g);
    Then(out + a + b + c, d, k + g);
    Append4(out, a, b, c, d + (k + g));
  }

  /** `Header::write_to`. */
  method WriteHeader(hs: seq<HeaderField>, f: Format, out: seq<byte>) returns (r: Result<seq<byte>, Error>)
    requires f.version == 4
    ensures r == if HeaderError(hs).Some? then Err(HeaderError(hs).value)
                 else if |PutFields(hs, f)| >= U16 then Err(LengthOverflow)
                 else Ok(out + PutHeader(hs, f))
  {
    hide PutU16;
    var body := [];
    for i := 0 to |hs|
      invariant HeaderError(hs) == HeaderError(hs[i..])
      invariant body + PutFields(hs[i..], f) == PutFields(hs, f)
    {
      var field := hs[i];
      assert hs[i..][0] == field && hs[i..][1..] == hs[i + 1..];
      if !FieldValid(field) { return Err(InvalidHeaderField(field.tag, |field.value|)); }
      ghost var was := body;
      body := body + PutU16(field.tag, f);
      if |field.value| >= U16 { return Err(LengthOverflow); }
      body := body + PutU16(|field.value|, f);
      body := body + field.value;
      Then(was + PutU16(field.tag, f), PutU16(|field.value|, f), field.value);
      Then(was, PutU16(field.tag, f), PutU16(|field.value|, f) + field.value);
      Then(was, PutField(field, f), PutFields(hs[i + 1..], f));
    }
    assert hs[|hs|..] == [] && body + [] == body;
    if |body| >= U16 { return Err(LengthOverflow); }
    Then(out, PutU16(|body|, f), body);
    return Ok(out + PutU16(|body|, f) + body);
  }

  /** `CCache::to_bytes`. */
  method ToBytes(h: Host, c: CCache) returns (r: Result<seq<byte>, Error>)
    ensures r == BytesOf(h, c)
  {
    hide PutHeader, PutFields, HeaderError, PutPrincipal, PrincipalFits, PutRaw, RawFits;
    var f := FormatFor(h, c.version);
    var out: seq<byte> := [5, c.version];
    ghost var header: seq<byte> := PutHeader(c.header, f);
    if c.version == 4 {
      out :- WriteHeader(c.header, f, out);
    } else {
      NoHeaderBytes(c.header, f);
      assert out + [] == out;
    }
    assert out == [5, c.version] + header;
    var named :- WritePrincipal(c.principal, f, out);
    ghost var rs := RawsOf(c.credentials);
    out := named;
    for i := 0 to |c.credentials|
      invariant forall j :: 0 <= j < i ==> RawFits(RawOf(c.credentials[j]), f)
      invariant out + PutRaws(rs[i..], f) == named + PutRaws(rs, f)
    {
      assert rs[i..][0] == RawOf(c.credentials[i]) && rs[i..][1..] == rs[i + 1..];
      Then(out, PutRaw(rs[i], f), PutRaws(rs[i + 1..], f));
      out :- WriteCredential(c.credentials[i], f, out);
    }
    assert rs[|rs|..] == [] && out + [] == out;
    Append3([5, c.version], header, PutPrincipal(c.principal, f), PutRaws(rs, f));
    return Ok(out);
  }

  lemma NoHeaderBytes(hs: seq<HeaderField>, f: Format)
    requires f.version != 4
    ensures PutHeader(hs, f) == []
  {
  }

  lemma Append3(out: seq<byte>, a: seq<byte>, b: seq<byte>, c: seq<byte>)
    ensures out + a + b + c == out + (a + (b + c))
  {
    Then(out + a, b, c);
    Then(out, a, b + c);
  }
}
