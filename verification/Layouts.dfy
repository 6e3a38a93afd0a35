/** The two file formats byte by byte: credential caches (src/ccache.rs) and keytabs (src/keytab.rs). */
module Layouts {
  import opened Bytes
  import opened Wire
  import Ccache
  import CcacheRoundTrip
  import Keytab

  // ------------------------------------------------------------------
  // Integers in two and four bytes, negative ones in two's complement

  function Two(n: int, e: Endian): (r: seq<byte>)
    ensures |r| == 2
  {
    if e.Big? then [n / 0x100 % 0x100, n % 0x100] else [n % 0x100, n / 0x100 % 0x100]
  }

  function Four(n: int, e: Endian): (r: seq<byte>)
    ensures |r| == 4
  {
    if e.Big? then [n / 0x100_0000 % 0x100, n / 0x1_0000 % 0x100, n / 0x100 % 0x100, n % 0x100]
    else [n % 0x100, n / 0x100 % 0x100, n / 0x1_0000 % 0x100, n / 0x100_0000 % 0x100]
  }

  lemma DivTwice(n: nat, k: nat)
    requires k > 0
    ensures n / 0x100 / k == n / (0x100 * k)
  {
    var q, r := n / 0x100, n % 0x100;
    var q', r' := q / k, q % k;
    assert q == k * q' + r';
    assert n == 0x100 * (k * q' + r') + r;
    assert 0x100 * (k * q') == (0x100 * k) * q';
    DivUnique(n, 0x100 * k, q', 0x100 * r' + r);
  }

  lemma PutTwoIs(n: nat, e: Endian)
    ensures PutInt(n, 2, e) == Two(n, e)
  {
    var s := BePut(n, 2);
    assert BePut(n / 0x100, 1) == [n / 0x100 % 0x100];
    assert s == [n / 0x100 % 0x100, n % 0x100];
  }

  lemma BePutThree(n: nat)
    ensures BePut(n, 3) == [n / 0x1_0000 % 0x100, n / 0x100 % 0x100, n % 0x100]
  {
    DivTwice(n, 0x100);
    assert BePut(n / 0x100 / 0x100, 1) == [n / 0x1_0000 % 0x100];
    assert BePut(n / 0x100, 2) == [n / 0x1_0000 % 0x100, n / 0x100 % 0x100];
  }

  lemma PutFourIs(n: nat, e: Endian)
    ensures PutInt(n, 4, e) == Four(n, e)
  {
    BePutThree(n / 0x100);
    DivTwice(n, 0x100);
    DivTwice(n, 0x1_0000);
    var s := BePut(n, 4);
    assert s == [n / 0x100_0000 % 0x100, n / 0x1_0000 % 0x100, n / 0x100 % 0x100, n % 0x100];
    assert e.Little? ==> Reverse(s) == [s[3], s[2], s[1], s[0]];
  }

  /** Whole turns of a word leave every byte alone. */
  lemma SameDigit(i: int, m: nat, q: int, d: nat, k: nat)
    requires d > 0 && i == q * (d * (0x100 * k)) + m
    ensures i / d % 0x100 == m / d % 0x100
  {
    var a, b := m / d, m % d;
    assert m == d * a + b;
    var w := q * (0x100 * k);
    assert i == d * (w + a) + b by { assert q * (d * (0x100 * k)) == d * w; }
    DivUnique(i, d, w + a, b);
    var a', b' := a / 0x100, a % 0x100;
    assert w + a == 0x100 * (q * k + a') + b' by { assert q * (0x100 * k) == 0x100 * (q * k); }
    DivUnique(w + a, 0x100, q * k + a', b');
  }

  lemma PutI16Is(i: int, f: Format)
    ensures PutI16(i, f) == Two(i, f.endian)
  {
    var m, q := Pattern(i, I16), i / 0x1_0000;
    assert i == q * 0x1_0000 + m;
    PutTwoIs(m, f.endian);
    SameDigit(i, m, q, 1, 0x100);
    SameDigit(i, m, q, 0x100, 1);
  }

  lemma PutI32Is(i: int, f: Format)
    ensures PutI32(i, f) == Four(i, f.endian)
  {
    var m, q := Pattern(i, I32), i / 0x1_0000_0000;
    assert i == q * 0x1_0000_0000 + m;
    PutFourIs(m, f.endian);
    SameDigit(i, m, q, 1, 0x100_0000);
    SameDigit(i, m, q, 0x100, 0x1_0000);
    SameDigit(i, m, q, 0x1_0000, 0x100);
    SameDigit(i, m, q, 0x100_0000, 1);
  }

  // ------------------------------------------------------------------
  // Credential caches

  /** Four bytes of length, then the data. */
  function Counted(v: seq<byte>, e: Endian): seq<byte>
  {
    Four(|v|, e) + v
  }

  function CountedAll(vs: seq<seq<byte>>, e: Endian): seq<byte>
  {
    if vs == [] then [] else Counted(vs[0], e) + CountedAll(vs[1..], e)
  }

  /** A principal. Version 1 has no name type and counts the realm among the components. */
  function PrincipalBytes(p: Ccache.Principal, version: byte, e: Endian): seq<byte>
  {
    (if version == 1 then [] else Four(p.nameType, e))
    + Four(if version == 1 then |p.components| + 1 else |p.components|, e)
    + Counted(p.realm, e)
    + CountedAll(p.components, e)
  }

  /** Addresses or authorization data: a count, and for each two bytes of type and its data. */
  function TaggedBytes(ts: seq<Ccache.Tagged>, e: Endian): seq<byte>
  {
    if ts == [] then [] else Two(ts[0].kind, e) + Counted(ts[0].data, e) + TaggedBytes(ts[1..], e)
  }

  /** A credential, with the session-key byte and the etype that version 3 has twice. */
  function CredentialBytes(c: Ccache.Credential, skey: byte, firstEtype: int, version: byte, e: Endian): seq<byte>
  {
    PrincipalBytes(c.client, version, e) + PrincipalBytes(c.server, version, e)
    + (if version == 3 then Two(firstEtype, e) else []) + Two(c.etype, e) + Counted(c.key, e)
    + Four(c.times.authTime, e) + Four(c.times.startTime, e) + Four(c.times.endTime, e) + Four(c.times.renewTill, e)
    + [skey] + c.flags
    + Four(|c.addresses|, e) + TaggedBytes(c.addresses, e)
    + Four(|c.authData|, e) + TaggedBytes(c.authData, e)
    + Counted(c.ticket, e) + Counted(c.secondTicket, e)
  }

  function RawBytes(rs: seq<Ccache.Raw>, version: byte, e: Endian): seq<byte>
  {
    if rs == [] then []
    else CredentialBytes(rs[0].cred, rs[0].skey, rs[0].firstEtype, version, e) + RawBytes(rs[1..], version, e)
  }

  /** The fields of a version 4 header: two bytes of tag, two of length, the value. */
  function HeaderBytes(hs: seq<Ccache.HeaderField>, e: Endian): seq<byte>
  {
    if hs == [] then [] else Two(hs[0].tag, e) + Two(|hs[0].value|, e) + hs[0].value + HeaderBytes(hs[1..], e)
  }

  /** A file: 5, the version, the header of version 4 with its length, the principal, the credentials. */
  function CcacheBytes(c: Ccache.RawCache, e: Endian): seq<byte>
  {
    [5, c.version]
    + (if c.version == 4 then Two(|HeaderBytes(c.header, e)|, e) + HeaderBytes(c.header, e) else [])
    + PrincipalBytes(c.principal, c.version, e)
    + RawBytes(c.raws, c.version, e)
  }

  /** The byte order: the machine's in versions 1 and 2, else big-endian. */
  function CcacheOrder(h: Host, version: byte): Endian
  {
    if version in {1, 2} then h.order else Big
  }

  lemma PutDataIs(v: seq<byte>, f: Format)
    ensures Ccache.PutData(v, f) == Counted(v, f.endian)
  {
    PutI32Is(|v|, f);
  }

  lemma {:induction false} PutStringsIs(vs: seq<seq<byte>>, f: Format)
    ensures Ccache.PutStrings(vs, f) == CountedAll(vs, f.endian)
  {
    hide Four, PutI32;
    if vs != [] {
      PutDataIs(vs[0], f);
      PutStringsIs(vs[1..], f);
    }
  }

  lemma PutPrincipalIs(p: Ccache.Principal, f: Format)
    ensures Ccache.PutPrincipal(p, f) == PrincipalBytes(p, f.version, f.endian)
  {
    hide Four, PutI32, Ccache.PutData, Counted, Ccache.PutStrings, CountedAll;
    PutI32Is(p.nameType, f);
    PutI32Is(|p.components| + Extra(f), f);
    PutDataIs(p.realm, f);
    PutStringsIs(p.components, f);
    Grouped([if f.version == 1 then [] else Four(p.nameType, f.endian),
             Four(|p.components| + Extra(f), f.endian), Counted(p.realm, f.endian),
             CountedAll(p.components, f.endian)]);
  }

  /** Concatenation from the left is concatenation from the right. */
  lemma Grouped(p: seq<seq<byte>>)
    requires |p| == 4
    ensures p[0] + p[1] + p[2] + p[3] == p[0] + (p[1] + (p[2] + p[3]))
  {
  }

  lemma {:induction false} PutTaggedsIs(ts: seq<Ccache.Tagged>, f: Format)
    ensures Ccache.PutTaggeds(ts, f) == TaggedBytes(ts, f.endian)
  {
    hide Two, PutI16, Ccache.PutData, Counted;
    if ts != [] {
      PutI16Is(ts[0].kind, f);
      PutDataIs(ts[0].data, f);
      PutTaggedsIs(ts[1..], f);
    }
  }

  lemma PutHeadIs(r: Ccache.Raw, f: Format)
    ensures Ccache.PutHead(r, f) ==
      PrincipalBytes(r.cred.client, f.version, f.endian) + PrincipalBytes(r.cred.server, f.version, f.endian)
      + (if f.version == 3 then Two(r.firstEtype, f.endian) else []) + Two(r.cred.etype, f.endian)
      + Counted(r.cred.key, f.endian)
  {
    hide Two, PutI16, Ccache.PutData, Counted, Ccache.PutPrincipal, PrincipalBytes;
    PutPrincipalIs(r.cred.client, f);
    PutPrincipalIs(r.cred.server, f);
    PutI16Is(r.firstEtype, f);
    PutI16Is(r.cred.etype, f);
    PutDataIs(r.cred.key, f);
  }

  lemma PutMidIs(r: Ccache.Raw, f: Format)
    ensures Ccache.PutMid(r, f) ==
      Four(r.cred.times.authTime, f.endian) + Four(r.cred.times.startTime, f.endian)
      + Four(r.cred.times.endTime, f.endian) + Four(r.cred.times.renewTill, f.endian) + [r.skey] + r.cred.flags
  {
    hide Four, PutInt;
    PutFourIs(r.cred.times.authTime, f.endian);
    PutFourIs(r.cred.times.startTime, f.endian);
    PutFourIs(r.cred.times.endTime, f.endian);
    PutFourIs(r.cred.times.renewTill, f.endian);
  }

  lemma PutTailIs(r: Ccache.Raw, f: Format)
    ensures Ccache.PutTail(r, f) ==
      Four(|r.cred.addresses|, f.endian) + TaggedBytes(r.cred.addresses, f.endian)
      + Four(|r.cred.authData|, f.endian) + TaggedBytes(r.cred.authData, f.endian)
      + Counted(r.cred.ticket, f.endian) + Counted(r.cred.secondTicket, f.endian)
  {
    hide Four, PutI32, Ccache.PutData, Counted, Ccache.PutTaggeds, TaggedBytes;
    PutI32Is(|r.cred.addresses|, f);
    PutI32Is(|r.cred.authData|, f);
    PutTaggedsIs(r.cred.addresses, f);
    PutTaggedsIs(r.cred.authData, f);
    PutDataIs(r.cred.ticket, f);
    PutDataIs(r.cred.secondTicket, f);
  }

  lemma PutRawIs(r: Ccache.Raw, f: Format)
    ensures Ccache.PutRaw(r, f) == CredentialBytes(r.cred, r.skey, r.firstEtype, f.version, f.endian)
  {
    hide Two, Four, Counted, PrincipalBytes, TaggedBytes, Ccache.PutHead, Ccache.PutMid, Ccache.PutTail;
    PutHeadIs(r, f);
    PutMidIs(r, f);
    PutTailIs(r, f);
  }

  lemma {:induction false} PutRawsIs(rs: seq<Ccache.Raw>, f: Format)
    ensures Ccache.PutRaws(rs, f) == RawBytes(rs, f.version, f.endian)
  {
    hide Ccache.PutRaw, CredentialBytes;
    if rs != [] {
      PutRawIs(rs[0], f);
      PutRawsIs(rs[1..], f);
    }
  }

  lemma {:induction false} PutFieldsIs(hs: seq<Ccache.HeaderField>, f: Format)
    ensures Ccache.PutFields(hs, f) == HeaderBytes(hs, f.endian)
  {
    hide Two, PutInt;
    if hs != [] {
      PutTwoIs(hs[0].tag, f.endian);
      PutTwoIs(|hs[0].value|, f.endian);
      PutFieldsIs(hs[1..], f);
    }
  }

  lemma PutCacheIs(c: Ccache.RawCache, f: Format)
    requires f.version == c.version
    ensures Ccache.PutCache(c, f) == CcacheBytes(c, f.endian)
  {
    hide Two, PutInt, Ccache.PutFields, HeaderBytes, Ccache.PutPrincipal, PrincipalBytes, Ccache.PutRaws, RawBytes;
    PutFieldsIs(c.header, f);
    PutTwoIs(|HeaderBytes(c.header, f.endian)|, f.endian);
    PutPrincipalIs(c.principal, f);
    PutRawsIs(c.raws, f);
  }

  /** A length that the counted fields can hold. */
  predicate Short(len: nat)
  {
    len < 0x8000_0000
  }

  predicate NamesShort(p: Ccache.Principal, version: byte)
  {
    && Short(if version == 1 then |p.components| + 1 else |p.components|) && Short(|p.realm|)
    && forall i :: 0 <= i < |p.components| ==> Short(|p.components[i]|)
  }

  predicate TaggedShort(ts: seq<Ccache.Tagged>)
  {
    Short(|ts|) && forall i :: 0 <= i < |ts| ==> -0x8000 <= ts[i].kind < 0x8000 && Short(|ts[i].data|)
  }

  predicate CredentialShort(c: Ccache.Credential, version: byte)
  {
    && NamesShort(c.client, version) && NamesShort(c.server, version)
    && -0x8000 <= c.etype < 0x8000 && Short(|c.key|)
    && TaggedShort(c.addresses) && TaggedShort(c.authData) && Short(|c.ticket|) && Short(|c.secondTicket|)
  }

  /** What can be written: lengths below 2^31 (below 2^16 in the header), 16-bit types, and a time offset in the
      header of version 4 of eight bytes. */
  ghost predicate Writable(c: Ccache.CCache)
  {
    && NamesShort(c.principal, c.version)
    && (forall i :: 0 <= i < |c.credentials| ==> CredentialShort(c.credentials[i], c.version))
    && (c.version == 4 ==>
          && |HeaderBytes(c.header, Big)| < 0x1_0000
          && forall i :: 0 <= i < |c.header| ==>
               |c.header[i].value| < 0x1_0000 && (c.header[i].tag == 1 ==> |c.header[i].value| == 8))
  }

  /** A cache is written exactly when its parts fit, and the file is laid out as above: the session-key byte is 1 or 0,
      and version 3 has the etype twice. */
  lemma CcacheWritten(h: Host, c: Ccache.CCache)
    ensures Ccache.BytesOf(h, c).Ok? <==> Writable(c)
    ensures var w := Ccache.Written(c);
            && w.version == c.version && w.header == c.header && w.principal == c.principal
            && |w.raws| == |c.credentials|
            && (forall i :: 0 <= i < |w.raws| ==>
                  w.raws[i] == Ccache.Raw(c.credentials[i], if c.credentials[i].isSkey then 1 else 0,
                                          c.credentials[i].etype))
            && (Ccache.BytesOf(h, c).Ok? ==>
                  Ccache.BytesOf(h, c).value == CcacheBytes(w, CcacheOrder(h, c.version)))
  {
    hide CcacheBytes, Ccache.PutCache, Ccache.PutFields, HeaderBytes, NamesShort, CredentialShort,
         Ccache.PrincipalFits, Ccache.RawFits, Ccache.HeaderError;
    var f := Ccache.FormatFor(h, c.version);
    PutCacheIs(Ccache.Written(c), f);
    Ccache.HeaderErrorNone(c.header);
    PutFieldsIs(c.header, f);
    NamesShortIs(c.principal, f);
    forall i | 0 <= i < |c.credentials|
      ensures Ccache.RawFits(Ccache.RawOf(c.credentials[i]), f) <==> CredentialShort(c.credentials[i], c.version)
    {
      CredentialShortIs(c.credentials[i], f);
    }
  }

  lemma NamesShortIs(p: Ccache.Principal, f: Format)
    ensures Ccache.PrincipalFits(p, f) <==> NamesShort(p, f.version)
  {
  }

  lemma CredentialShortIs(c: Ccache.Credential, f: Format)
    ensures Ccache.RawFits(Ccache.RawOf(c), f) <==> CredentialShort(c, f.version)
  {
    hide NamesShort, Ccache.PrincipalFits;
    NamesShortIs(c.client, f);
    NamesShortIs(c.server, f);
  }

  /** A file is accepted only if it is laid out as above, in a version from 1 to 4; each credential is the one in the
      file, a session key's exactly when its byte is not zero. */
  lemma CcacheAccepted(h: Host, b: seq<byte>, c: Ccache.CCache)
    requires Ccache.ParseOf(h, b) == Ok(c)
    ensures Ccache.ReadCache(h, b).Ok?
    ensures var r := Ccache.ReadCache(h, b).value;
            && 1 <= c.version <= 4 && b == CcacheBytes(r, CcacheOrder(h, c.version))
            && r.version == c.version && r.header == c.header && r.principal == c.principal
            && |r.raws| == |c.credentials|
            && forall i :: 0 <= i < |r.raws| ==>
                 r.raws[i].cred == c.credentials[i] && (c.credentials[i].isSkey <==> r.raws[i].skey != 0)
  {
    hide CcacheBytes, Ccache.PutCache, Ccache.ReadCache, Ccache.RawFits, Ccache.StoredRaw, Ccache.HeaderOk,
         Ccache.StoredHeader, Ccache.PrincipalFits, Ccache.PrincipalTyped, Ccache.StoredPrincipal;
    var r := Ccache.ReadCache(h, b).value;
    CcacheRoundTrip.ReadPutCache(h, b, r);
    PutCacheIs(r, Ccache.FormatFor(h, r.version));
    assert forall i :: 0 <= i < |r.raws| ==> Ccache.RawOk(r.raws[i], Ccache.FormatFor(h, r.version));
  }

  /** The two bytes in front, checked in this order. */
  lemma CcacheFront(h: Host, b: seq<byte>)
    ensures |b| < 2 ==> Ccache.ParseOf(h, b) == Err(TooShort(|b|))
    ensures |b| >= 2 && b[0] != 5 ==> Ccache.ParseOf(h, b) == Err(InvalidFirstByte(b[0]))
    ensures |b| >= 2 && b[0] == 5 && b[1] !in {1, 2, 3, 4} ==> Ccache.ParseOf(h, b) == Err(InvalidVersion(b[1]))
  {
  }

  // ------------------------------------------------------------------
  // Keytabs

  /** Two bytes of length, then the data. */
  function Counted16(v: seq<byte>, e: Endian): seq<byte>
  {
    Two(|v|, e) + v
  }

  function Counted16All(vs: seq<seq<byte>>, e: Endian): seq<byte>
  {
    if vs == [] then [] else Counted16(vs[0], e) + Counted16All(vs[1..], e)
  }

  /** An entry. Version 1 counts the realm among the components and has no name type. */
  function EntryBytes(x: Keytab.Entry, version: byte, e: Endian): seq<byte>
  {
    Two(if version == 1 then |x.principal.components| + 1 else |x.principal.components|, e)
    + Counted16(x.principal.realm, e) + Counted16All(x.principal.components, e)
    + (if version == 1 then [] else Four(x.principal.nameType, e))
    + Four(x.timestamp, e) + [x.kvno8] + Two(x.etype, e) + Counted16(x.key, e) + Four(x.kvno, e)
  }

  /** Records: four bytes of length, then the entry. */
  function RecordBytes(es: seq<Keytab.Entry>, version: byte, e: Endian): seq<byte>
  {
    if es == [] then []
    else
      var entry := EntryBytes(es[0], version, e);
      Four(|entry|, e) + entry + RecordBytes(es[1..], version, e)
  }

  /** The byte order: the machine's in version 1, else big-endian. */
  function KeytabOrder(h: Host, version: byte): Endian
  {
    if version == 1 then h.order else Big
  }

  lemma PutCountedIs(v: seq<byte>, f: Format)
    ensures Keytab.PutCounted(v, f) == Counted16(v, f.endian)
  {
    PutTwoIs(|v|, f.endian);
  }

  lemma {:induction false} PutCountedAllIs(vs: seq<seq<byte>>, f: Format)
    ensures Keytab.PutStrings(vs, f) == Counted16All(vs, f.endian)
  {
    hide Keytab.PutCounted, Counted16;
    if vs != [] {
      PutCountedIs(vs[0], f);
      PutCountedAllIs(vs[1..], f);
    }
  }

  lemma PutNamesIs(p: Keytab.Principal, f: Format)
    ensures Keytab.PutPrincipal(p, f) ==
      Two(if f.version == 1 then |p.components| + 1 else |p.components|, f.endian)
      + Counted16(p.realm, f.endian) + Counted16All(p.components, f.endian)
      + (if f.version == 1 then [] else Four(p.nameType, f.endian))
  {
    hide Two, Four, PutInt, PutI32, Keytab.PutCounted, Counted16, Keytab.PutStrings, Counted16All;
    PutTwoIs(|p.components| + Extra(f), f.endian);
    PutCountedIs(p.realm, f);
    PutCountedAllIs(p.components, f);
    PutI32Is(p.nameType, f);
  }

  lemma EtypeIs(etype: int, f: Format)
    ensures PutU16(etype % U16, f) == Two(etype, f.endian)
  {
    PutI16Is(etype, f);
  }

  lemma PutKeyIs(x: Keytab.Entry, f: Format)
    ensures Keytab.PutKey(x, f) ==
      Four(x.timestamp, f.endian) + [x.kvno8] + Two(x.etype, f.endian) + Counted16(x.key, f.endian)
      + Four(x.kvno, f.endian)
  {
    hide Two, Four, PutInt, PutU16, Keytab.PutCounted, Counted16;
    PutFourIs(x.timestamp, f.endian);
    EtypeIs(x.etype, f);
    PutCountedIs(x.key, f);
    PutFourIs(x.kvno, f.endian);
  }

  lemma PutEntryIs(x: Keytab.Entry, f: Format)
    ensures Keytab.PutEntry(x, f) == EntryBytes(x, f.version, f.endian)
  {
    hide Two, Four, Counted16, Counted16All, Keytab.PutPrincipal, Keytab.PutKey;
    PutNamesIs(x.principal, f);
    PutKeyIs(x, f);
  }

  lemma {:induction false} PutRecordsIs(es: seq<Keytab.Entry>, f: Format)
    ensures Keytab.PutRecords(es, f) == RecordBytes(es, f.version, f.endian)
  {
    hide Keytab.PutEntry, EntryBytes, PutI32, Four;
    if es != [] {
      PutEntryIs(es[0], f);
      PutI32Is(|Keytab.PutEntry(es[0], f)|, f);
      PutRecordsIs(es[1..], f);
    }
  }

  /** What an entry must be to be written: 16-bit lengths and an etype that is not negative. */
  predicate EntryWritable(x: Keytab.Entry, version: byte)
  {
    && (if version == 1 then |x.principal.components| + 1 else |x.principal.components|) < 0x1_0000
    && |x.principal.realm| < 0x1_0000
    && (forall i :: 0 <= i < |x.principal.components| ==> |x.principal.components[i]| < 0x1_0000)
    && 0 <= x.etype < 0x1_0000 && |x.key| < 0x1_0000
    && |EntryBytes(x, version, Big)| < 0x8000_0000
  }

  lemma {:induction false} CountedLength(vs: seq<seq<byte>>, a: Endian, b: Endian)
    ensures |Counted16All(vs, a)| == |Counted16All(vs, b)|
  {
    if vs != [] { CountedLength(vs[1..], a, b); }
  }

  lemma EntryWritableIs(x: Keytab.Entry, f: Format)
    ensures Keytab.EntryFits(x, f) <==> EntryWritable(x, f.version)
  {
    hide Keytab.PutEntry, Counted16All;
    PutEntryIs(x, f);
    CountedLength(x.principal.components, f.endian, Big);
  }

  /** A keytab is written exactly when every entry can be, and the file is 5, the version, and the records. */
  lemma KeytabWritten(h: Host, k: Keytab.Keytab)
    ensures Keytab.BytesOf(h, k).Ok? <==>
              forall i :: 0 <= i < |k.entries| ==> EntryWritable(k.entries[i], k.version)
    ensures Keytab.BytesOf(h, k).Ok? ==>
              Keytab.BytesOf(h, k).value
              == [5, k.version] + RecordBytes(k.entries, k.version, KeytabOrder(h, k.version))
  {
    hide Keytab.EntryFits, EntryWritable, Keytab.PutRecords, RecordBytes;
    var f := Keytab.FormatFor(h, k.version);
    PutRecordsIs(k.entries, f);
    forall i | 0 <= i < |k.entries|
      ensures Keytab.EntryFits(k.entries[i], f) <==> EntryWritable(k.entries[i], k.version)
    {
      EntryWritableIs(k.entries[i], f);
    }
  }

  /** Reading stops without an error at a zero length or where fewer than four bytes are left, and not at a record that
      is cut off. The two bytes in front are checked first. */
  lemma KeytabEnds(h: Host, b: seq<byte>)
    ensures |b| < 2 ==> Keytab.ParseOf(h, b) == Err(TooShort(|b|))
    ensures |b| >= 2 && b[0] != 5 ==> Keytab.ParseOf(h, b) == Err(InvalidFirstByte(b[0]))
    ensures |b| >= 2 && b[0] == 5 && b[1] !in {1, 2} ==> Keytab.ParseOf(h, b) == Err(InvalidVersion(b[1]))
    ensures 2 <= |b| < 6 && b[0] == 5 && b[1] in {1, 2} ==> Keytab.ParseOf(h, b) == Ok(Keytab.Keytab(b[1], []))
    ensures |b| >= 6 && b[0] == 5 && b[1] in {1, 2} && b[2..6] == [0, 0, 0, 0] ==>
              Keytab.ParseOf(h, b) == Ok(Keytab.Keytab(b[1], []))
    ensures |b| >= 6 && b[0] == 5 && b[1] == 2 && 0 < BeVal(b[2..6]) < 0x8000_0000 && |b| - 6 < BeVal(b[2..6]) ==>
              Keytab.ParseOf(h, b) == Err(Truncated)
  {
    if |b| >= 6 {
      assert b[2..][..4] == b[2..6];
      if b[2..6] == [0, 0, 0, 0] {
        assert Reverse(b[2..6]) == b[2..6];
        BeValFour(b[2..6]);
      }
    }
  }
}
