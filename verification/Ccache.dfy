/** The MIT credential cache file format, versions 1 to 4 (src/ccache.rs). */
module Ccache {
  import opened Bytes
  import opened Wire

  datatype Principal = Principal(realm: seq<byte>, nameType: int, components: seq<seq<byte>>)

  /** `HostAddress` and `AuthorizationDataEntry`, which share their layout and their code. */
  datatype Tagged = Tagged(kind: int, data: seq<byte>)

  datatype Times = Times(authTime: nat, startTime: nat, endTime: nat, renewTill: nat)

  datatype Credential = Credential(
    client: Principal,
    server: Principal,
    etype: int,
    key: seq<byte>,
    times: Times,
    isSkey: bool,
    flags: seq<byte>,
    addresses: seq<Tagged>,
    authData: seq<Tagged>,
    ticket: seq<byte>,
    secondTicket: seq<byte>)

  datatype HeaderField = HeaderField(tag: nat, value: seq<byte>)

  datatype CCache = CCache(
    version: byte,
    header: seq<HeaderField>,
    principal: Principal,
    credentials: seq<Credential>)

  // ------------------------------------------------------------------
  // Counted data

  function PutData(v: seq<byte>, f: Format): seq<byte>
  {
    PutI32(|v|, f) + v
  }

  function ReadData(s: seq<byte>, f: Format): Read<seq<byte>>
  {
    match ReadI32(s, f)
    case Err(e) => Err(e)
    case Ok((n, rest)) => if n < 0 then Err(NegativeLength(n)) else ReadBytes(rest, n)
  }

  lemma PutReadData(v: seq<byte>, f: Format, rest: seq<byte>)
    requires |v| < I32
    ensures ReadData(PutData(v, f) + rest, f) == Ok((v, rest))
  {
    Assoc(PutI32(|v|, f), v, rest);
    PutReadI32(|v|, f, v + rest);
    PutReadBytes(v, rest);
  }

  lemma ReadPutData(s: seq<byte>, f: Format, v: seq<byte>, rest: seq<byte>)
    requires ReadData(s, f) == Ok((v, rest))
    ensures s == PutData(v, f) + rest && |v| < I32
  {
    hide ReadI32, PutI32;
    var (n, body) := ReadI32(s, f).value;
    ReadPutI32(s, f, n, body);
    assert body == v + rest;
    Assoc(PutI32(n, f), v, rest);
  }

  function ReadString(s: seq<byte>, f: Format): Read<seq<byte>>
  {
    match ReadData(s, f)
    case Err(e) => Err(e)
    case Ok((v, rest)) => if f.utf8(v) then Ok((v, rest)) else Err(InvalidString)
  }

  predicate StringFits(v: seq<byte>, f: Format)
  {
    |v| < I32 && f.utf8(v)
  }

  function PutStrings(vs: seq<seq<byte>>, f: Format): seq<byte>
  {
    if vs == [] then [] else PutData(vs[0], f) + PutStrings(vs[1..], f)
  }

  function ReadStrings(s: seq<byte>, n: nat, f: Format): Read<seq<seq<byte>>>
    decreases n
  {
    if n == 0 then Ok(([], s))
    else match ReadString(s, f)
      case Err(e) => Err(e)
      case Ok((v, rest)) => Prepend([v], ReadStrings(rest, n - 1, f))
  }

  lemma {:induction false} PutReadStrings(vs: seq<seq<byte>>, f: Format, rest: seq<byte>)
    requires forall i :: 0 <= i < |vs| ==> StringFits(vs[i], f)
    ensures ReadStrings(PutStrings(vs, f) + rest, |vs|, f) == Ok((vs, rest))
  {
    hide PutData, ReadData;
    if vs == [] {
      assert [] + rest == rest;
    } else {
      Assoc(PutData(vs[0], f), PutStrings(vs[1..], f), rest);
      PutReadData(vs[0], f, PutStrings(vs[1..], f) + rest);
      PutReadStrings(vs[1..], f, rest);
      assert vs == [vs[0]] + vs[1..];
    }
  }

  lemma {:induction false} ReadPutStrings(s: seq<byte>, n: nat, f: Format, vs: seq<seq<byte>>, rest: seq<byte>)
    requires ReadStrings(s, n, f) == Ok((vs, rest))
    ensures s == PutStrings(vs, f) + rest && |vs| == n
    ensures forall i :: 0 <= i < |vs| ==> StringFits(vs[i], f)
    decreases n
  {
    if n == 0 {
      assert [] + rest == rest;
    } else {
      var (v, rest') := ReadString(s, f).value;
      ReadPutData(s, f, v, rest');
      var more := ReadStrings(rest', n - 1, f).value.0;
      assert vs == [v] + more;
      ReadPutStrings(rest', n - 1, f, more, rest);
      assert vs[0] == v && vs[1..] == more;
      Assoc(PutData(v, f), PutStrings(more, f), rest);
    }
  }

  // ------------------------------------------------------------------
  // Principals

  function PutNameType(i: int, f: Format): seq<byte>
  {
    if f.version == 1 then [] else PutI32(i, f)
  }

  function PutPrincipal(p: Principal, f: Format): seq<byte>
  {
    PutNameType(p.nameType, f)
    + (PutI32(|p.components| + Extra(f), f) + (PutData(p.realm, f) + PutStrings(p.components, f)))
  }

  function ReadNameType(s: seq<byte>, f: Format): Read<int>
  {
    if f.version == 1 then Ok((0, s)) else ReadI32(s, f)
  }

  function ReadComponentCount(s: seq<byte>, f: Format): Read<nat>
  {
    match ReadI32(s, f)
    case Err(e) => Err(e)
    case Ok((n, rest)) =>
      if f.version == 1 && n == -I32 then Err(LengthOverflow)
      else if n - Extra(f) < 0 then Err(NegativeLength(n - Extra(f)))
      else Ok((n - Extra(f), rest))
  }

  function ReadPrincipal(s: seq<byte>, f: Format): Read<Principal>
  {
    match ReadNameType(s, f)
    case Err(e) => Err(e)
    case Ok((nameType, s1)) =>
      match ReadComponentCount(s1, f)
      case Err(e) => Err(e)
      case Ok((n, s2)) =>
        match ReadString(s2, f)
        case Err(e) => Err(e)
        case Ok((realm, s3)) =>
          match ReadStrings(s3, n, f)
          case Err(e) => Err(e)
          case Ok((components, s4)) => Ok((Principal(realm, nameType, components), s4))
  }

  /** What the writer checks of a principal. */
  predicate PrincipalFits(p: Principal, f: Format)
  {
    && |p.components| + Extra(f) < I32 && |p.realm| < I32
    && forall i :: 0 <= i < |p.components| ==> |p.components[i]| < I32
  }

  /** What its Rust types say of a principal. */
  predicate PrincipalTyped(p: Principal, f: Format)
  {
    && -I32 <= p.nameType < I32 && f.utf8(p.realm)
    && forall i :: 0 <= i < |p.components| ==> f.utf8(p.components[i])
  }

  /** The principal as version 1 keeps it. */
  function StoredPrincipal(p: Principal, f: Format): Principal
  {
    if f.version == 1 then p.(nameType := 0) else p
  }

  lemma PutReadNameType(i: int, f: Format, rest: seq<byte>)
    requires -I32 <= i < I32
    ensures ReadNameType(PutNameType(i, f) + rest, f) == Ok((if f.version == 1 then 0 else i, rest))
  {
    if f.version == 1 { assert [] + rest == rest; } else { PutReadI32(i, f, rest); }
  }

  lemma PutReadComponentCount(n: nat, f: Format, rest: seq<byte>)
    requires n + Extra(f) < I32
    ensures ReadComponentCount(PutI32(n + Extra(f), f) + rest, f) == Ok((n, rest))
  {
    PutReadI32(n + Extra(f), f, rest);
  }

  lemma PutReadPrincipal(p: Principal, f: Format, rest: seq<byte>)
    requires PrincipalFits(p, f) && PrincipalTyped(p, f)
    ensures ReadPrincipal(PutPrincipal(p, f) + rest, f) == Ok((StoredPrincipal(p, f), rest))
  {
    hide PutNameType, ReadNameType, PutI32, ReadComponentCount, PutData, ReadData, PutStrings, ReadStrings;
    var a, b := PutNameType(p.nameType, f), PutI32(|p.components| + Extra(f), f);
    var c, d := PutData(p.realm, f), PutStrings(p.components, f);
    Assoc4(a, b, c, d, rest);
    var s1 := b + (c + (d + rest));
    PutReadNameType(p.nameType, f, s1);
    PutReadComponentCount(|p.components|, f, c + (d + rest));
    PutReadData(p.realm, f, d + rest);
    assert forall i :: 0 <= i < |p.components| ==> StringFits(p.components[i], f);
    PutReadStrings(p.components, f, rest);
    var s2 := c + (d + rest);
    assert ReadComponentCount(s1, f) == Ok((|p.components|, s2));
    assert ReadString(s2, f) == Ok((p.realm, d + rest));
  }

  lemma ReadPutPrincipal(s: seq<byte>, f: Format, p: Principal, rest: seq<byte>)
    requires ReadPrincipal(s, f) == Ok((p, rest))
    ensures s == PutPrincipal(p, f) + rest
    ensures PrincipalFits(p, f) && PrincipalTyped(p, f) && StoredPrincipal(p, f) == p
  {
    hide PutData, ReadData, PutStrings, ReadStrings, PutI32, ReadI32;
    var (nameType, s1) := ReadNameType(s, f).value;
    var (n, s2) := ReadComponentCount(s1, f).value;
    var (realm, s3) := ReadString(s2, f).value;
    var a, b := PutNameType(p.nameType, f), PutI32(|p.components| + Extra(f), f);
    var c, d := PutData(p.realm, f), PutStrings(p.components, f);
    if f.version == 1 { assert a + s1 == s1; } else { ReadPutI32(s, f, nameType, s1); }
    ReadPutI32(s1, f, n + Extra(f), s2);
    ReadPutData(s2, f, realm, s3);
    ReadPutStrings(s3, n, f, p.components, rest);
    Assoc4(a, b, c, d, rest);
  }

  // ------------------------------------------------------------------
  // Addresses and authorization data

  function PutTagged(t: Tagged, f: Format): seq<byte>
  {
    PutI16(t.kind, f) + PutData(t.data, f)
  }

  function ReadTagged(s: seq<byte>, f: Format): Read<Tagged>
  {
    match ReadI16(s, f)
    case Err(e) => Err(e)
    case Ok((kind, s1)) =>
      match ReadData(s1, f)
      case Err(e) => Err(e)
      case Ok((data, s2)) => Ok((Tagged(kind, data), s2))
  }

  predicate TaggedFits(t: Tagged)
  {
    -I16 <= t.kind < I16 && |t.data| < I32
  }

  function PutTaggeds(ts: seq<Tagged>, f: Format): seq<byte>
  {
    if ts == [] then [] else PutTagged(ts[0], f) + PutTaggeds(ts[1..], f)
  }

  function ReadTaggeds(s: seq<byte>, n: nat, f: Format): Read<seq<Tagged>>
    decreases n
  {
    if n == 0 then Ok(([], s))
    else match ReadTagged(s, f)
      case Err(e) => Err(e)
      case Ok((t, rest)) => Prepend([t], ReadTaggeds(rest, n - 1, f))
  }

  function PutList(ts: seq<Tagged>, f: Format): seq<byte>
  {
    PutI32(|ts|, f) + PutTaggeds(ts, f)
  }

  function ReadList(s: seq<byte>, f: Format): Read<seq<Tagged>>
  {
    match ReadI32(s, f)
    case Err(e) => Err(e)
    case Ok((n, rest)) => if n < 0 then Err(NegativeLength(n)) else ReadTaggeds(rest, n, f)
  }

  predicate ListFits(ts: seq<Tagged>)
  {
    |ts| < I32 && forall i :: 0 <= i < |ts| ==> TaggedFits(ts[i])
  }

  lemma PutReadTagged(t: Tagged, f: Format, rest: seq<byte>)
    requires TaggedFits(t)
    ensures ReadTagged(PutTagged(t, f) + rest, f) == Ok((t, rest))
  {
    Assoc(PutI16(t.kind, f), PutData(t.data, f), rest);
    PutReadI16(t.kind, f, PutData(t.data, f) + rest);
    PutReadData(t.data, f, rest);
  }

  lemma ReadPutTagged(s: seq<byte>, f: Format, t: Tagged, rest: seq<byte>)
    requires ReadTagged(s, f) == Ok((t, rest))
    ensures s == PutTagged(t, f) + rest && TaggedFits(t)
  {
    var s1 := ReadI16(s, f).value.1;
    ReadPutI16(s, f, t.kind, s1);
    ReadPutData(s1, f, t.data, rest);
    Assoc(PutI16(t.kind, f), PutData(t.data, f), rest);
  }

  lemma {:induction false} PutReadTaggeds(ts: seq<Tagged>, f: Format, rest: seq<byte>)
    requires forall i :: 0 <= i < |ts| ==> TaggedFits(ts[i])
    ensures ReadTaggeds(PutTaggeds(ts, f) + rest, |ts|, f) == Ok((ts, rest))
  {
    hide PutTagged, ReadTagged, TaggedFits;
    if ts == [] {
      assert [] + rest == rest;
    } else {
      Assoc(PutTagged(ts[0], f), PutTaggeds(ts[1..], f), rest);
      PutReadTagged(ts[0], f, PutTaggeds(ts[1..], f) + rest);
      PutReadTaggeds(ts[1..], f, rest);
      assert ts == [ts[0]] + ts[1..];
    }
  }

  lemma {:induction false} ReadPutTaggeds(s: seq<byte>, n: nat, f: Format, ts: seq<Tagged>, rest: seq<byte>)
    requires ReadTaggeds(s, n, f) == Ok((ts, rest))
    ensures s == PutTaggeds(ts, f) + rest && |ts| == n
    ensures forall i :: 0 <= i < |ts| ==> TaggedFits(ts[i])
    decreases n
  {
    hide PutTagged, ReadTagged, TaggedFits;
    if n == 0 {
      assert [] + rest == rest;
    } else {
      var (t, rest') := ReadTagged(s, f).value;
      ReadPutTagged(s, f, t, rest');
      var more := ReadTaggeds(rest', n - 1, f).value.0;
      assert ts == [t] + more;
      ReadPutTaggeds(rest', n - 1, f, more, rest);
      assert ts[0] == t && ts[1..] == more;
      Assoc(PutTagged(t, f), PutTaggeds(more, f), rest);
    }
  }

  lemma PutReadList(ts: seq<Tagged>, f: Format, rest: seq<byte>)
    requires ListFits(ts)
    ensures ReadList(PutList(ts, f) + rest, f) == Ok((ts, rest))
  {
    Assoc(PutI32(|ts|, f), PutTaggeds(ts, f), rest);
    PutReadI32(|ts|, f, PutTaggeds(ts, f) + rest);
    PutReadTaggeds(ts, f, rest);
  }

  lemma ReadPutList(s: seq<byte>, f: Format, ts: seq<Tagged>, rest: seq<byte>)
    requires ReadList(s, f) == Ok((ts, rest))
    ensures s == PutList(ts, f) + rest && ListFits(ts)
  {
    var (n, s1) := ReadI32(s, f).value;
    ReadPutI32(s, f, n, s1);
    ReadPutTaggeds(s1, n, f, ts, rest);
    Assoc(PutI32(n, f), PutTaggeds(ts, f), rest);
  }

  // ------------------------------------------------------------------
  // Credentials, with the two bytes a credential does not keep

  /** A credential as it stands in the file: its session-key byte, and version 3's first etype. */
  datatype Raw = Raw(cred: Credential, skey: byte, firstEtype: int)

  /** The bytes are the ones the writer would choose. */
  predicate Normal(r: Raw)
  {
    r.skey == SkeyByte(r.cred) && r.firstEtype == r.cred.etype
  }

  function SkeyByte(c: Credential): byte
  {
    if c.isSkey then 1 else 0
  }

  function RawOf(c: Credential): Raw
  {
    Raw(c, SkeyByte(c), c.etype)
  }

  function PutEtypes(r: Raw, f: Format): seq<byte>
  {
    (if f.version == 3 then PutI16(r.firstEtype, f) else []) + PutI16(r.cred.etype, f)
  }

  function ReadEtypes(s: seq<byte>, f: Format): Read<(int, int)>
  {
    match ReadI16(s, f)
    case Err(e) => Err(e)
    case Ok((first, s1)) =>
      if f.version != 3 then Ok(((first, first), s1))
      else match ReadI16(s1, f)
        case Err(e) => Err(e)
        case Ok((second, s2)) => Ok(((first, second), s2))
  }

  lemma PutReadEtypes(r: Raw, f: Format, rest: seq<byte>)
    requires -I16 <= r.cred.etype < I16 && -I16 <= r.firstEtype < I16
    requires f.version != 3 ==> r.firstEtype == r.cred.etype
    ensures ReadEtypes(PutEtypes(r, f) + rest, f) == Ok(((r.firstEtype, r.cred.etype), rest))
  {
    var b := PutI16(r.cred.etype, f);
    PutReadI16(r.cred.etype, f, rest);
    if f.version == 3 {
      Assoc(PutI16(r.firstEtype, f), b, rest);
      PutReadI16(r.firstEtype, f, b + rest);
    } else {
      assert [] + b == b;
    }
  }

  lemma ReadPutEtypes(s: seq<byte>, f: Format, r: Raw, rest: seq<byte>)
    requires ReadEtypes(s, f) == Ok(((r.firstEtype, r.cred.etype), rest))
    ensures s == PutEtypes(r, f) + rest && -I16 <= r.cred.etype < I16 && -I16 <= r.firstEtype < I16
    ensures f.version != 3 ==> r.firstEtype == r.cred.etype
  {
    var s1 := ReadI16(s, f).value.1;
    ReadPutI16(s, f, r.firstEtype, s1);
    var b := PutI16(r.cred.etype, f);
    if f.version == 3 {
      ReadPutI16(s1, f, r.cred.etype, rest);
      Assoc(PutI16(r.firstEtype, f), b, rest);
    } else {
      assert [] + b == b;
    }
  }

  // The first third: who, and the session key.

  function PutHead(r: Raw, f: Format): seq<byte>
  {
    PutPrincipal(r.cred.client, f)
    + (PutPrincipal(r.cred.server, f) + (PutEtypes(r, f) + PutData(r.cred.key, f)))
  }

  function ReadHead(s: seq<byte>, f: Format): Read<Raw>
  {
    match ReadPrincipal(s, f)
    case Err(e) => Err(e)
    case Ok((client, s1)) =>
      match ReadPrincipal(s1, f)
      case Err(e) => Err(e)
      case Ok((server, s2)) =>
        match ReadEtypes(s2, f)
        case Err(e) => Err(e)
        case Ok(((first, etype), s3)) =>
          match ReadData(s3, f)
          case Err(e) => Err(e)
          case Ok((key, s4)) =>
            var c := Credential(client, server, etype, key, Times(0, 0, 0, 0), false, [], [], [], [], []);
            Ok((Raw(c, 0, first), s4))
  }

  predicate HeadFits(r: Raw, f: Format)
  {
    && PrincipalFits(r.cred.client, f) && PrincipalFits(r.cred.server, f)
    && -I16 <= r.cred.etype < I16 && |r.cred.key| < I32
  }

  predicate HeadTyped(r: Raw, f: Format)
  {
    && PrincipalTyped(r.cred.client, f) && PrincipalTyped(r.cred.server, f)
    && -I16 <= r.firstEtype < I16 && (f.version != 3 ==> r.firstEtype == r.cred.etype)
  }

  /** The first third of `r` with nothing after it. */
  function HeadOnly(r: Raw, f: Format): Raw
  {
    Raw(Credential(StoredPrincipal(r.cred.client, f), StoredPrincipal(r.cred.server, f), r.cred.etype, r.cred.key,
                   Times(0, 0, 0, 0), false, [], [], [], [], []), 0, r.firstEtype)
  }

  lemma PutReadHead(r: Raw, f: Format, rest: seq<byte>)
    requires HeadFits(r, f) && HeadTyped(r, f)
    ensures ReadHead(PutHead(r, f) + rest, f) == Ok((HeadOnly(r, f), rest))
  {
    var a, b := PutPrincipal(r.cred.client, f), PutPrincipal(r.cred.server, f);
    var c, d := PutEtypes(r, f), PutData(r.cred.key, f);
    Assoc4(a, b, c, d, rest);
    PutReadPrincipal(r.cred.client, f, b + (c + (d + rest)));
    PutReadPrincipal(r.cred.server, f, c + (d + rest));
    PutReadEtypes(r, f, d + rest);
    PutReadData(r.cred.key, f, rest);
  }

  lemma ReadPutHead(s: seq<byte>, f: Format, r: Raw, rest: seq<byte>)
    requires ReadHead(s, f) == Ok((r, rest))
    ensures s == PutHead(r, f) + rest && HeadFits(r, f) && HeadTyped(r, f) && HeadOnly(r, f) == r
  {
    var s1 := ReadPrincipal(s, f).value.1;
    var s2 := ReadPrincipal(s1, f).value.1;
    var s3 := ReadEtypes(s2, f).value.1;
    ReadPutPrincipal(s, f, r.cred.client, s1);
    ReadPutPrincipal(s1, f, r.cred.server, s2);
    ReadPutEtypes(s2, f, r, s3);
    ReadPutData(s3, f, r.cred.key, rest);
    var a, b := PutPrincipal(r.cred.client, f), PutPrincipal(r.cred.server, f);
    var c, d := PutEtypes(r, f), PutData(r.cred.key, f);
    Assoc4(a, b, c, d, rest);
  }

  // The second third: times and flags, of fixed length.

  function PutMid(r: Raw, f: Format): (s: seq<byte>)
    ensures |s| == 17 + |r.cred.flags|
  {
    var t := r.cred.times;
    PutU32(t.authTime, f)
    + (PutU32(t.startTime, f) + (PutU32(t.endTime, f) + (PutU32(t.renewTill, f) + ([r.skey] + r.cred.flags))))
  }

  /** The fields of the second third stored in `r`. */
  function ReadMid(s: seq<byte>, f: Format, r: Raw): Read<Raw>
  {
    match ReadU32(s, f)
    case Err(e) => Err(e)
    case Ok((authTime, s1)) =>
      match ReadU32(s1, f)
      case Err(e) => Err(e)
      case Ok((startTime, s2)) =>
        match ReadU32(s2, f)
        case Err(e) => Err(e)
        case Ok((endTime, s3)) =>
          match ReadU32(s3, f)
          case Err(e) => Err(e)
          case Ok((renewTill, s4)) =>
            match ReadBytes(s4, 1)
            case Err(e) => Err(e)
            case Ok((skey, s5)) =>
              match ReadBytes(s5, 4)
              case Err(e) => Err(e)
              case Ok((flags, s6)) =>
                Ok((r.(skey := skey[0], cred := r.cred.(times := Times(authTime, startTime, endTime, renewTill),
                                                       isSkey := skey[0] != 0, flags := flags)), s6))
  }

  predicate MidTyped(r: Raw)
  {
    && r.cred.times.authTime < U32 && r.cred.times.startTime < U32
    && r.cred.times.endTime < U32 && r.cred.times.renewTill < U32
    && |r.cred.flags| == 4 && (r.cred.isSkey <==> r.skey != 0)
  }

  function MidFrom(r: Raw, base: Raw): Raw
  {
    base.(skey := r.skey, cred := base.cred.(times := r.cred.times, isSkey := r.cred.isSkey, flags := r.cred.flags))
  }

  lemma PutReadMid(r: Raw, f: Format, base: Raw, rest: seq<byte>)
    requires MidTyped(r)
    ensures ReadMid(PutMid(r, f) + rest, f, base) == Ok((MidFrom(r, base), rest))
  {
    var t := r.cred.times;
    var a, b, c, d := PutU32(t.authTime, f), PutU32(t.startTime, f), PutU32(t.endTime, f), PutU32(t.renewTill, f);
    var k, g := [r.skey], r.cred.flags;
    Assoc(a, b + (c + (d + (k + g))), rest);
    Assoc(b, c + (d + (k + g)), rest);
    Assoc(c, d + (k + g), rest);
    Assoc(d, k + g, rest);
    Assoc(k, g, rest);
    PutReadU32(t.authTime, f, b + (c + (d + (k + (g + rest)))));
    PutReadU32(t.startTime, f, c + (d + (k + (g + rest))));
    PutReadU32(t.endTime, f, d + (k + (g + rest)));
    PutReadU32(t.renewTill, f, k + (g + rest));
    PutReadBytes(k, g + rest);
    PutReadBytes(g, rest);
  }

  lemma ReadPutMid(s: seq<byte>, f: Format, base: Raw, r: Raw, rest: seq<byte>)
    requires ReadMid(s, f, base) == Ok((r, rest))
    ensures MidTyped(r) && s == PutMid(r, f) + rest && r == MidFrom(r, base)
  {
    var t := r.cred.times;
    var s1 := ReadU32(s, f).value.1;
    var s2 := ReadU32(s1, f).value.1;
    var s3 := ReadU32(s2, f).value.1;
    var s4 := ReadU32(s3, f).value.1;
    ReadPutU32(s, f, t.authTime, s1);
    ReadPutU32(s1, f, t.startTime, s2);
    ReadPutU32(s2, f, t.endTime, s3);
    ReadPutU32(s3, f, t.renewTill, s4);
    assert s4 == [r.skey] + (r.cred.flags + rest);
    var a, b, c, d := PutU32(t.authTime, f), PutU32(t.startTime, f), PutU32(t.endTime, f), PutU32(t.renewTill, f);
    var k, g := [r.skey], r.cred.flags;
    Assoc(k, g, rest);
    Assoc(d, k + g, rest);
    Assoc(c, d + (k + g), rest);
    Assoc(b, c + (d + (k + g)), rest);
    Assoc(a, b + (c + (d + (k + g))), rest);
  }

  // The last third: lists and tickets.

  function PutTail(r: Raw, f: Format): seq<byte>
  {
    PutList(r.cred.addresses, f)
    + (PutList(r.cred.authData, f) + (PutData(r.cred.ticket, f) + PutData(r.cred.secondTicket, f)))
  }

  function ReadTail(s: seq<byte>, f: Format, r: Raw): Read<Raw>
  {
    match ReadList(s, f)
    case Err(e) => Err(e)
    case Ok((addresses, s1)) =>
      match ReadList(s1, f)
      case Err(e) => Err(e)
      case Ok((authData, s2)) =>
        match ReadData(s2, f)
        case Err(e) => Err(e)
        case Ok((ticket, s3)) =>
          match ReadData(s3, f)
          case Err(e) => Err(e)
          case Ok((second, s4)) =>
            Ok((r.(cred := r.cred.(addresses := addresses, authData := authData, ticket := ticket,
                                   secondTicket := second)), s4))
  }

  predicate TailFits(r: Raw)
  {
    && ListFits(r.cred.addresses) && ListFits(r.cred.authData)
    && |r.cred.ticket| < I32 && |r.cred.secondTicket| < I32
  }

  function TailFrom(r: Raw, base: Raw): Raw
  {
    base.(cred := base.cred.(addresses := r.cred.addresses, authData := r.cred.authData,
                             ticket := r.cred.ticket, secondTicket := r.cred.secondTicket))
  }

  lemma PutReadTail(r: Raw, f: Format, base: Raw, rest: seq<byte>)
    requires TailFits(r)
    ensures ReadTail(PutTail(r, f) + rest, f, base) == Ok((TailFrom(r, base), rest))
  {
    var a, b := PutList(r.cred.addresses, f), PutList(r.cred.authData, f);
    var c, d := PutData(r.cred.ticket, f), PutData(r.cred.secondTicket, f);
    Assoc4(a, b, c, d, rest);
    PutReadList(r.cred.addresses, f, b + (c + (d + rest)));
    PutReadList(r.cred.authData, f, c + (d + rest));
    PutReadData(r.cred.ticket, f, d + rest);
    PutReadData(r.cred.secondTicket, f, rest);
  }

  lemma ReadPutTail(s: seq<byte>, f: Format, base: Raw, r: Raw, rest: seq<byte>)
    requires ReadTail(s, f, base) == Ok((r, rest))
    ensures TailFits(r) && s == PutTail(r, f) + rest && r == TailFrom(r, base)
  {
    var s1 := ReadList(s, f).value.1;
    var s2 := ReadList(s1, f).value.1;
    var s3 := ReadData(s2, f).value.1;
    ReadPutList(s, f, r.cred.addresses, s1);
    ReadPutList(s1, f, r.cred.authData, s2);
    ReadPutData(s2, f, r.cred.ticket, s3);
    ReadPutData(s3, f, r.cred.secondTicket, rest);
    var a, b := PutList(r.cred.addresses, f), PutList(r.cred.authData, f);
    var c, d := PutData(r.cred.ticket, f), PutData(r.cred.secondTicket, f);
    Assoc4(a, b, c, d, rest);
  }

  // The whole credential.

  function PutRaw(r: Raw, f: Format): (s: seq<byte>)
    ensures |s| > 0
  {
    PutHead(r, f) + (PutMid(r, f) + PutTail(r, f))
  }

  function ReadRaw(s: seq<byte>, f: Format): (r: Read<Raw>)
  {
    match ReadHead(s, f)
    case Err(e) => Err(e)
    case Ok((head, s1)) =>
      match ReadMid(s1, f, head)
      case Err(e) => Err(e)
      case Ok((mid, s2)) => ReadTail(s2, f, mid)
  }

  /** What the writer checks of a credential. */
  predicate RawFits(r: Raw, f: Format)
  {
    HeadFits(r, f) && TailFits(r)
  }

  /** What the Rust types, and the file for `Raw`'s own fields, say of a credential. */
  predicate RawTyped(r: Raw, f: Format)
  {
    HeadTyped(r, f) && MidTyped(r)
  }

  function StoredRaw(r: Raw, f: Format): Raw
  {
    r.(cred := r.cred.(client := StoredPrincipal(r.cred.client, f), server := StoredPrincipal(r.cred.server, f)))
  }

  lemma PutReadRaw(r: Raw, f: Format, rest: seq<byte>)
    requires RawFits(r, f) && RawTyped(r, f)
    ensures ReadRaw(PutRaw(r, f) + rest, f) == Ok((StoredRaw(r, f), rest))
  {
    var a, b, c := PutHead(r, f), PutMid(r, f), PutTail(r, f);
    Assoc(a, b + c, rest);
    Assoc(b, c, rest);
    PutReadHead(r, f, b + (c + rest));
    PutReadMid(r, f, HeadOnly(r, f), c + rest);
    PutReadTail(r, f, MidFrom(r, HeadOnly(r, f)), rest);
  }

  lemma ReadPutRaw(s: seq<byte>, f: Format, r: Raw, rest: seq<byte>)
    requires ReadRaw(s, f) == Ok((r, rest))
    ensures RawFits(r, f) && RawTyped(r, f) && StoredRaw(r, f) == r && s == PutRaw(r, f) + rest
  {
    var (head, s1) := ReadHead(s, f).value;
    var (mid, s2) := ReadMid(s1, f, head).value;
    ReadPutHead(s, f, head, s1);
    ReadPutMid(s1, f, head, mid, s2);
    ReadPutTail(s2, f, mid, r, rest);
    assert PutHead(head, f) == PutHead(r, f) && PutMid(mid, f) == PutMid(r, f);
    Assoc(PutMid(r, f), PutTail(r, f), rest);
    Assoc(PutHead(r, f), PutMid(r, f) + PutTail(r, f), rest);
  }

  /** All credentials up to the end of the file. */
  function ReadRaws(s: seq<byte>, f: Format): Result<seq<Raw>, Error>
    decreases |s|
  {
    if s == [] then Ok([])
    else match ReadRaw(s, f)
      case Err(e) => Err(e)
      case Ok((r, rest)) =>
        ReadPutRaw(s, f, r, rest);
        PrependRaws([r], ReadRaws(rest, f))
  }

  function PrependRaws(rs: seq<Raw>, r: Result<seq<Raw>, Error>): Result<seq<Raw>, Error>
  {
    match r
    case Err(e) => Err(e)
    case Ok(more) => Ok(rs + more)
  }

  /** A credential this file can hold without loss. */
  predicate RawOk(r: Raw, f: Format)
  {
    RawFits(r, f) && RawTyped(r, f) && StoredRaw(r, f) == r
  }

  predicate RawsOk(rs: seq<Raw>, f: Format)
  {
    forall i :: 0 <= i < |rs| ==> RawOk(rs[i], f)
  }

  function PutRaws(rs: seq<Raw>, f: Format): seq<byte>
  {
    if rs == [] then [] else PutRaw(rs[0], f) + PutRaws(rs[1..], f)
  }

  lemma ReadRawsStep(r: Raw, f: Format, rest: seq<byte>)
    requires RawOk(r, f)
    ensures ReadRaws(PutRaw(r, f) + rest, f) == PrependRaws([r], ReadRaws(rest, f))
  {
    PutReadRaw(r, f, rest);
  }

  lemma {:induction false} PutReadRaws(rs: seq<Raw>, f: Format)
    requires RawsOk(rs, f)
    ensures ReadRaws(PutRaws(rs, f), f) == Ok(rs)
  {
    hide RawOk, ReadRaw, PutRaw;
    if rs != [] {
      var r, more := rs[0], rs[1..];
      assert RawOk(r, f);
      PutReadRaws(more, f);
      ReadRawsStep(r, f, PutRaws(more, f));
      assert rs == [r] + more;
    }
  }

  /** One credential read, split off its file. */
  lemma ReadRawsHead(s: seq<byte>, f: Format, rs: seq<Raw>) returns (r: Raw, rest: seq<byte>)
    requires s != [] && ReadRaws(s, f) == Ok(rs)
    ensures s == PutRaw(r, f) + rest && |rest| < |s| && RawOk(r, f)
    ensures rs != [] && rs[0] == r && ReadRaws(rest, f) == Ok(rs[1..])
  {
    r, rest := ReadRaw(s, f).value.0, ReadRaw(s, f).value.1;
    ReadPutRaw(s, f, r, rest);
    assert rs == [r] + ReadRaws(rest, f).value;
  }

  lemma {:induction false} ReadPutRaws(s: seq<byte>, f: Format, rs: seq<Raw>)
    requires ReadRaws(s, f) == Ok(rs)
    ensures RawsOk(rs, f) && s == PutRaws(rs, f)
    decreases |s|
  {
    hide RawOk, ReadRaw, PutRaw;
    if s != [] {
      var r, rest := ReadRawsHead(s, f, rs);
      ReadPutRaws(rest, f, rs[1..]);
      assert rs == [r] + rs[1..];
    }
  }

  // ------------------------------------------------------------------
  // The version 4 header

  /** `HeaderField::validate`. */
  predicate FieldValid(h: HeaderField)
  {
    h.tag == 1 ==> |h.value| == 8
  }

  predicate FieldFits(h: HeaderField)
  {
    FieldValid(h) && |h.value| < U16
  }

  function PutField(h: HeaderField, f: Format): (s: seq<byte>)
    ensures |s| == 4 + |h.value|
  {
    PutU16(h.tag, f) + (PutU16(|h.value|, f) + h.value)
  }

  function ReadField(s: seq<byte>, f: Format): Read<HeaderField>
  {
    match ReadU16(s, f)
    case Err(e) => Err(e)
    case Ok((tag, s1)) =>
      match ReadU16(s1, f)
      case Err(e) => Err(e)
      case Ok((n, s2)) =>
        match ReadBytes(s2, n)
        case Err(e) => Err(e)
        case Ok((value, s3)) =>
          if FieldValid(HeaderField(tag, value)) then Ok((HeaderField(tag, value), s3))
          else Err(InvalidHeaderField(tag, |value|))
  }

  lemma PutReadField(h: HeaderField, f: Format, rest: seq<byte>)
    requires FieldFits(h) && h.tag < U16
    ensures ReadField(PutField(h, f) + rest, f) == Ok((h, rest))
  {
    var a, b := PutU16(h.tag, f), PutU16(|h.value|, f);
    Assoc(a, b + h.value, rest);
    Assoc(b, h.value, rest);
    PutReadU16(h.tag, f, b + (h.value + rest));
    PutReadU16(|h.value|, f, h.value + rest);
    PutReadBytes(h.value, rest);
  }

  lemma ReadPutField(s: seq<byte>, f: Format, h: HeaderField, rest: seq<byte>)
    requires ReadField(s, f) == Ok((h, rest))
    ensures FieldFits(h) && h.tag < U16 && s == PutField(h, f) + rest
  {
    var s1 := ReadU16(s, f).value.1;
    var s2 := ReadU16(s1, f).value.1;
    ReadPutU16(s, f, h.tag, s1);
    ReadPutU16(s1, f, |h.value|, s2);
    assert s2 == h.value + rest;
    Assoc(PutU16(|h.value|, f), h.value, rest);
    Assoc(PutU16(h.tag, f), PutU16(|h.value|, f) + h.value, rest);
  }

  function PutFields(hs: seq<HeaderField>, f: Format): seq<byte>
  {
    if hs == [] then [] else PutField(hs[0], f) + PutFields(hs[1..], f)
  }

  /** Header fields filling exactly `n` bytes. */
  function ReadFields(s: seq<byte>, n: nat, f: Format): Read<seq<HeaderField>>
    decreases n
  {
    if n == 0 then Ok(([], s))
    else match ReadField(s, f)
      case Err(e) => Err(e)
      case Ok((h, rest)) =>
        if 4 + |h.value| > n then Err(InvalidHeaderLength)
        else Prepend([h], ReadFields(rest, n - 4 - |h.value|, f))
  }

  ghost predicate FieldsOk(hs: seq<HeaderField>)
  {
    forall i :: 0 <= i < |hs| ==> FieldFits(hs[i]) && hs[i].tag < U16
  }

  lemma {:induction false} PutReadFields(hs: seq<HeaderField>, f: Format, rest: seq<byte>)
    requires FieldsOk(hs)
    ensures ReadFields(PutFields(hs, f) + rest, |PutFields(hs, f)|, f) == Ok((hs, rest))
  {
    if hs == [] {
      assert [] + rest == rest;
    } else {
      Assoc(PutField(hs[0], f), PutFields(hs[1..], f), rest);
      PutReadField(hs[0], f, PutFields(hs[1..], f) + rest);
      PutReadFields(hs[1..], f, rest);
      assert hs == [hs[0]] + hs[1..];
    }
  }

  lemma {:induction false} ReadPutFields(s: seq<byte>, n: nat, f: Format, hs: seq<HeaderField>, rest: seq<byte>)
    requires ReadFields(s, n, f) == Ok((hs, rest))
    ensures FieldsOk(hs) && s == PutFields(hs, f) + rest && |PutFields(hs, f)| == n
    decreases n
  {
    if n == 0 {
      assert [] + rest == rest;
    } else {
      var (h, rest') := ReadField(s, f).value;
      ReadPutField(s, f, h, rest');
      var more := ReadFields(rest', n - 4 - |h.value|, f).value.0;
      assert hs == [h] + more;
      ReadPutFields(rest', n - 4 - |h.value|, f, more, rest);
      assert hs[0] == h && hs[1..] == more;
      Assoc(PutField(h, f), PutFields(more, f), rest);
    }
  }

  function PutHeader(hs: seq<HeaderField>, f: Format): seq<byte>
  {
    if f.version != 4 then [] else PutU16(|PutFields(hs, f)|, f) + PutFields(hs, f)
  }

  function ReadHeader(s: seq<byte>, f: Format): Read<seq<HeaderField>>
  {
    if f.version != 4 then Ok(([], s))
    else match ReadU16(s, f)
      case Err(e) => Err(e)
      case Ok((n, rest)) => if n > |rest| then Err(Truncated) else ReadFields(rest, n, f)
  }

  /** The header a file of this version keeps. */
  function StoredHeader(hs: seq<HeaderField>, f: Format): seq<HeaderField>
  {
    if f.version == 4 then hs else []
  }

  ghost predicate HeaderOk(hs: seq<HeaderField>, f: Format)
  {
    f.version == 4 ==> FieldsOk(hs) && |PutFields(hs, f)| < U16
  }

  lemma PutReadHeader(hs: seq<HeaderField>, f: Format, rest: seq<byte>)
    requires HeaderOk(hs, f)
    ensures ReadHeader(PutHeader(hs, f) + rest, f) == Ok((StoredHeader(hs, f), rest))
  {
    if f.version == 4 {
      var body := PutFields(hs, f);
      Assoc(PutU16(|body|, f), body, rest);
      PutReadU16(|body|, f, body + rest);
      PutReadFields(hs, f, rest);
    } else {
      assert [] + rest == rest;
    }
  }

  lemma ReadPutHeader(s: seq<byte>, f: Format, hs: seq<HeaderField>, rest: seq<byte>)
    requires ReadHeader(s, f) == Ok((hs, rest))
    ensures HeaderOk(hs, f) && StoredHeader(hs, f) == hs && s == PutHeader(hs, f) + rest
  {
    if f.version == 4 {
      var (n, body) := ReadU16(s, f).value;
      ReadPutU16(s, f, n, body);
      ReadPutFields(body, n, f, hs, rest);
      Assoc(PutU16(n, f), PutFields(hs, f), rest);
    } else {
      assert [] + rest == rest;
    }
  }

  // ------------------------------------------------------------------
  // The file

  /** `Endian::for_version`. */
  function FormatFor(h: Host, version: byte): Format
  {
    Format(version, if version == 1 || version == 2 then h.order else Big, h.utf8)
  }

  /** A file with its credentials as they stand in it. */
  datatype RawCache = RawCache(version: byte, header: seq<HeaderField>, principal: Principal, raws: seq<Raw>)

  function PutCache(c: RawCache, f: Format): seq<byte>
  {
    [5, c.version] + (PutHeader(c.header, f) + (PutPrincipal(c.principal, f) + PutRaws(c.raws, f)))
  }

  function ReadCache(h: Host, b: seq<byte>): Result<RawCache, Error>
  {
    if |b| < 2 then Err(TooShort(|b|))
    else if b[0] != 5 then Err(InvalidFirstByte(b[0]))
    else if b[1] < 1 || b[1] > 4 then Err(InvalidVersion(b[1]))
    else
      var f := FormatFor(h, b[1]);
      match ReadHeader(b[2..], f)
      case Err(e) => Err(e)
      case Ok((header, s1)) =>
        match ReadPrincipal(s1, f)
        case Err(e) => Err(e)
        case Ok((principal, s2)) =>
          match ReadRaws(s2, f)
          case Err(e) => Err(e)
          case Ok(raws) => Ok(RawCache(b[1], header, principal, raws))
  }

  function Creds(rs: seq<Raw>): (cs: seq<Credential>)
    ensures |cs| == |rs| && forall i :: 0 <= i < |rs| ==> cs[i] == rs[i].cred
  {
    seq(|rs|, i requires 0 <= i < |rs| => rs[i].cred)
  }

  function RawsOf(cs: seq<Credential>): (rs: seq<Raw>)
    ensures |rs| == |cs| && forall i :: 0 <= i < |cs| ==> rs[i] == RawOf(cs[i])
  {
    seq(|cs|, i requires 0 <= i < |cs| => RawOf(cs[i]))
  }

  /** `CCache::parse`. */
  function ParseOf(h: Host, b: seq<byte>): Result<CCache, Error>
  {
    match ReadCache(h, b)
    case Err(e) => Err(e)
    case Ok(c) => Ok(CCache(c.version, c.header, c.principal, Creds(c.raws)))
  }

  /** The raw file the writer makes of a cache. */
  function Written(c: CCache): RawCache
  {
    RawCache(c.version, c.header, c.principal, RawsOf(c.credentials))
  }

  /** The first field of the header the writer stops at, if any. */
  function HeaderError(hs: seq<HeaderField>): Option<Error>
  {
    if hs == [] then None
    else if !FieldValid(hs[0]) then Some(InvalidHeaderField(hs[0].tag, |hs[0].value|))
    else if |hs[0].value| >= U16 then Some(LengthOverflow)
    else HeaderError(hs[1..])
  }

  predicate CredsFit(cs: seq<Credential>, f: Format)
  {
    forall i :: 0 <= i < |cs| ==> RawFits(RawOf(cs[i]), f)
  }

  /** `CCache::to_bytes`. */
  function BytesOf(h: Host, c: CCache): Result<seq<byte>, Error>
  {
    var f := FormatFor(h, c.version);
    if c.version == 4 && HeaderError(c.header).Some? then Err(HeaderError(c.header).value)
    else if c.version == 4 && |PutFields(c.header, f)| >= U16 then Err(LengthOverflow)
    else if !PrincipalFits(c.principal, f) || !CredsFit(c.credentials, f) then Err(LengthOverflow)
    else Ok(PutCache(Written(c), f))
  }

  /** The flags are an array of four bytes. */
  predicate FourFlags(cs: seq<Credential>)
  {
    forall i :: 0 <= i < |cs| ==> |cs[i].flags| == 4
  }

  /** A cache whose fields have the ranges of their Rust types. */
  ghost predicate Typed(h: Host, c: CCache)
  {
    && FourFlags(c.credentials) && 1 <= c.version <= 4
    && PrincipalTyped(c.principal, FormatFor(h, c.version))
    && (forall i :: 0 <= i < |c.header| ==> c.header[i].tag < U16)
    && forall i :: 0 <= i < |c.credentials| ==>
         && PrincipalTyped(c.credentials[i].client, FormatFor(h, c.version))
         && PrincipalTyped(c.credentials[i].server, FormatFor(h, c.version))
         && MidTyped(RawOf(c.credentials[i]))
  }

  lemma {:induction false} HeaderErrorNone(hs: seq<HeaderField>)
    ensures HeaderError(hs).None? <==> forall i :: 0 <= i < |hs| ==> FieldFits(hs[i])
  {
    if hs != [] {
      HeaderErrorNone(hs[1..]);
      assert forall i :: 0 <= i < |hs| - 1 ==> hs[1..][i] == hs[i + 1];
      assert forall i :: 0 < i < |hs| ==> hs[i] == hs[1..][i - 1];
    }
  }

  /** The cache as a file of its version keeps it: no name types in version 1, no header below 4. */
  function Stored(h: Host, c: CCache): (r: CCache)
    ensures r == c <==> Storable(c)
  {
    var f := FormatFor(h, c.version);
    var creds := seq(|c.credentials|, i requires 0 <= i < |c.credentials| =>
      c.credentials[i].(client := StoredPrincipal(c.credentials[i].client, f),
                        server := StoredPrincipal(c.credentials[i].server, f)));
    assert (forall i :: 0 <= i < |creds| ==> creds[i] == c.credentials[i]) <==> creds == c.credentials;
    CCache(c.version, StoredHeader(c.header, f), StoredPrincipal(c.principal, f), creds)
  }

  predicate Storable(c: CCache)
  {
    && (c.version == 4 || c.header == [])
    && (c.version == 1 ==>
        && c.principal.nameType == 0
        && forall i :: 0 <= i < |c.credentials| ==>
             c.credentials[i].client.nameType == 0 && c.credentials[i].server.nameType == 0)
  }
}
