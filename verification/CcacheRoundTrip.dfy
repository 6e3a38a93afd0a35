/** Credential caches survive being written and read back (src/ccache.rs:163-213). */
module CcacheRoundTrip {
  import opened Bytes
  import opened Wire
  import opened Ccache

  // ------------------------------------------------------------------
  // Whole files

  /** A file that holds exactly `c`. */
  ghost predicate CacheOk(c: RawCache, f: Format)
  {
    && 1 <= c.version <= 4 && f.version == c.version
    && HeaderOk(c.header, f) && StoredHeader(c.header, f) == c.header
    && PrincipalFits(c.principal, f) && PrincipalTyped(c.principal, f) && StoredPrincipal(c.principal, f) == c.principal
    && RawsOk(c.raws, f)
  }

  lemma PutReadCache(h: Host, c: RawCache)
    requires CacheOk(c, FormatFor(h, c.version))
    ensures ReadCache(h, PutCache(c, FormatFor(h, c.version))) == Ok(c)
  {
    hide HeaderOk, StoredHeader, ReadHeader, PutHeader, PrincipalFits, PrincipalTyped, StoredPrincipal,
         ReadPrincipal, PutPrincipal, RawsOk, ReadRaws, PutRaws;
    var f := FormatFor(h, c.version);
    var a, b, d := PutHeader(c.header, f), PutPrincipal(c.principal, f), PutRaws(c.raws, f);
    var file := PutCache(c, f);
    assert file[2..] == a + (b + d) && file[0] == 5 && file[1] == c.version;
    PutReadHeader(c.header, f, b + d);
    PutReadPrincipal(c.principal, f, d);
    PutReadRaws(c.raws, f);
  }

  lemma ReadPutCache(h: Host, b: seq<byte>, c: RawCache)
    requires ReadCache(h, b) == Ok(c)
    ensures CacheOk(c, FormatFor(h, c.version)) && b == PutCache(c, FormatFor(h, c.version))
  {
    hide HeaderOk, StoredHeader, ReadHeader, PutHeader, PrincipalFits, PrincipalTyped, StoredPrincipal,
         ReadPrincipal, PutPrincipal, RawsOk, ReadRaws, PutRaws;
    var f := FormatFor(h, c.version);
    var s1 := ReadHeader(b[2..], f).value.1;
    var s2 := ReadPrincipal(s1, f).value.1;
    ReadPutHeader(b[2..], f, c.header, s1);
    ReadPutPrincipal(s1, f, c.principal, s2);
    ReadPutRaws(s2, f, c.raws);
    assert b == [b[0], b[1]] + b[2..];
  }

  // ------------------------------------------------------------------
  // What the writer makes of what the reader returned

  predicate AllNormal(rs: seq<Raw>)
  {
    forall i :: 0 <= i < |rs| ==> Normal(rs[i])
  }

  lemma RewrittenRawOk(r: Raw, f: Format)
    requires RawOk(r, f)
    ensures RawOk(RawOf(r.cred), f)
  {
    hide PrincipalFits, PrincipalTyped, StoredPrincipal, ListFits;
  }

  lemma RewrittenRawsOk(rs: seq<Raw>, f: Format)
    requires RawsOk(rs, f)
    ensures RawsOk(RawsOf(Creds(rs)), f) && CredsFit(Creds(rs), f)
    ensures RawsOf(Creds(rs)) == rs <==> AllNormal(rs)
  {
    hide RawFits, RawTyped, StoredRaw;
    forall i | 0 <= i < |rs| ensures RawOk(RawOf(rs[i].cred), f) {
      RewrittenRawOk(rs[i], f);
    }
    forall i | 0 <= i < |rs| ensures RawOf(rs[i].cred) == rs[i] <==> Normal(rs[i]) {
    }
  }

  /** A header that can be written causes no error. */
  lemma HeaderWritten(hs: seq<HeaderField>, f: Format)
    requires HeaderOk(hs, f) && f.version == 4
    ensures HeaderError(hs).None? && |PutFields(hs, f)| < U16
  {
    HeaderErrorNone(hs);
  }

  /** For every accepted input of every version: writing the parsed cache succeeds and parses back to
      it, and the bytes are the very input exactly when each credential's session-key byte is 0 or 1
      and, in version 3, its two etype copies agree. */
  lemma ByteForByte(h: Host, b: seq<byte>)
    requires ParseOf(h, b).Ok?
    ensures var c := ParseOf(h, b).value;
            && BytesOf(h, c).Ok?
            && ParseOf(h, BytesOf(h, c).value) == Ok(c)
            && (BytesOf(h, c) == Ok(b) <==> AllNormal(ReadCache(h, b).value.raws))
  {
    hide HeaderOk, StoredHeader, ReadHeader, PutHeader, PrincipalFits, PrincipalTyped, StoredPrincipal,
         ReadPrincipal, PutPrincipal, RawsOk, ReadRaws, PutRaws, CredsFit, HeaderError, PutFields, PutCache,
         AllNormal;
    var raw := ReadCache(h, b).value;
    var c := ParseOf(h, b).value;
    var f := FormatFor(h, c.version);
    ReadPutCache(h, b, raw);
    RewrittenRawsOk(raw.raws, f);
    if c.version == 4 { HeaderWritten(c.header, f); }
    PutReadCache(h, Written(c));
    assert Creds(RawsOf(c.credentials)) == c.credentials;
  }

  /** What `AllNormal` asks of one credential, read off its file. */
  lemma NormalMeans(h: Host, b: seq<byte>, i: nat)
    requires ReadCache(h, b).Ok? && i < |ReadCache(h, b).value.raws|
    ensures var c := ReadCache(h, b).value;
            Normal(c.raws[i])
            <==> c.raws[i].skey <= 1 && (c.version == 3 ==> c.raws[i].firstEtype == c.raws[i].cred.etype)
  {
    hide HeaderOk, StoredHeader, ReadHeader, PutHeader, PrincipalFits, PrincipalTyped, StoredPrincipal,
         ReadPrincipal, PutPrincipal, ReadRaws, PutRaws, ReadCache, PutCache, RawFits, StoredRaw;
    var c := ReadCache(h, b).value;
    ReadPutCache(h, b, c);
    assert RawOk(c.raws[i], FormatFor(h, c.version));
  }

  // ------------------------------------------------------------------
  // Caches built in memory

  lemma PutStoredPrincipal(p: Principal, f: Format)
    ensures PutPrincipal(StoredPrincipal(p, f), f) == PutPrincipal(p, f)
    ensures PrincipalFits(p, f) ==> PrincipalFits(StoredPrincipal(p, f), f)
    ensures PrincipalTyped(p, f) ==> PrincipalTyped(StoredPrincipal(p, f), f)
    ensures StoredPrincipal(StoredPrincipal(p, f), f) == StoredPrincipal(p, f)
  {
    hide PutData, PutStrings, PutI32;
  }

  lemma PutStoredRaw(r: Raw, f: Format)
    requires RawFits(r, f) && RawTyped(r, f)
    ensures PutRaw(StoredRaw(r, f), f) == PutRaw(r, f) && RawOk(StoredRaw(r, f), f)
  {
    hide PutPrincipal, StoredPrincipal, PrincipalFits, PrincipalTyped, PutI16, PutData, PutU32, PutList, ListFits;
    PutStoredPrincipal(r.cred.client, f);
    PutStoredPrincipal(r.cred.server, f);
    var s := StoredRaw(r, f);
    assert PutHead(s, f) == PutHead(r, f) && PutMid(s, f) == PutMid(r, f) && PutTail(s, f) == PutTail(r, f);
  }

  lemma {:induction false} PutStoredRaws(rs: seq<Raw>, ss: seq<Raw>, f: Format)
    requires |ss| == |rs|
    requires forall i :: 0 <= i < |rs| ==> RawFits(rs[i], f) && RawTyped(rs[i], f) && ss[i] == StoredRaw(rs[i], f)
    ensures PutRaws(ss, f) == PutRaws(rs, f) && RawsOk(ss, f)
  {
    hide PutRaw, RawFits, RawTyped, StoredRaw, RawOk;
    if rs != [] {
      PutStoredRaw(rs[0], f);
      PutStoredRaws(rs[1..], ss[1..], f);
      assert ss == [ss[0]] + ss[1..];
    }
  }

  /** The credentials `Stored` keeps are the raw ones a reader gives back. */
  lemma StoredCreds(h: Host, c: CCache)
    requires Typed(h, c) && CredsFit(c.credentials, FormatFor(h, c.version))
    ensures var f := FormatFor(h, c.version);
            && PutRaws(RawsOf(Stored(h, c).credentials), f) == PutRaws(RawsOf(c.credentials), f)
            && RawsOk(RawsOf(Stored(h, c).credentials), f)
  {
    hide PrincipalTyped, StoredPrincipal, PrincipalFits, RawOk, PutRaw, ListFits, RawsOk, PutRaws, MidTyped,
         StoredHeader, Storable;
    var f := FormatFor(h, c.version);
    var rs, ss := RawsOf(c.credentials), RawsOf(Stored(h, c).credentials);
    forall i | 0 <= i < |rs|
      ensures RawFits(rs[i], f) && RawTyped(rs[i], f) && ss[i] == StoredRaw(rs[i], f)
    {
    }
    PutStoredRaws(rs, ss, f);
  }

  lemma StoredHeaderOk(h: Host, c: CCache)
    requires Typed(h, c) && BytesOf(h, c).Ok?
    ensures var f := FormatFor(h, c.version); var s := StoredHeader(c.header, f);
            && HeaderOk(s, f) && StoredHeader(s, f) == s && PutHeader(s, f) == PutHeader(c.header, f)
  {
    hide PrincipalTyped, PrincipalFits, CredsFit, FourFlags, MidTyped, PutCache, PutFields;
    HeaderErrorNone(c.header);
  }

  /** Writing a cache built in memory and reading it back gives the cache its version stores, so the
      same cache exactly when nothing of it is left out: name types in version 1, a header below
      version 4. */
  lemma BuiltCacheReadBack(h: Host, c: CCache)
    requires Typed(h, c) && BytesOf(h, c).Ok?
    ensures ParseOf(h, BytesOf(h, c).value) == Ok(Stored(h, c))
    ensures ParseOf(h, BytesOf(h, c).value) == Ok(c) <==> Storable(c)
  {
    hide HeaderOk, StoredHeader, ReadHeader, PutHeader, PrincipalFits, PrincipalTyped, StoredPrincipal,
         ReadPrincipal, PutPrincipal, RawsOk, ReadRaws, PutRaws, CredsFit, HeaderError, PutFields,
         MidTyped, FourFlags, Storable;
    var f, s := FormatFor(h, c.version), Stored(h, c);
    StoredCreds(h, c);
    StoredHeaderOk(h, c);
    PutStoredPrincipal(c.principal, f);
    assert PutCache(Written(s), f) == PutCache(Written(c), f);
    PutReadCache(h, Written(s));
    assert Creds(RawsOf(s.credentials)) == s.credentials;
  }
}
