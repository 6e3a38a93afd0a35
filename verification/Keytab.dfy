/** MIT keytabs, versions 1 and 2 (src/keytab.rs). */
module Keytab {
  import opened Bytes
  import opened Wire

  datatype Principal = Principal(realm: seq<byte>, components: seq<seq<byte>>, nameType: int)

  datatype Entry = Entry(
    principal: Principal,
    timestamp: nat,
    kvno8: byte,
    etype: int,
    key: seq<byte>,
    kvno: nat)

  datatype Keytab = Keytab(version: byte, entries: seq<Entry>)

  /** `Endian::for_version`. */
  function FormatFor(h: Host, version: byte): Format
  {
    Format(version, if version == 1 then h.order else Big, h.utf8)
  }

  // ------------------------------------------------------------------
  // Counted strings: written with an unsigned length, read with a signed one

  function PutCounted(v: seq<byte>, f: Format): (s: seq<byte>)
    ensures |s| == 2 + |v|
  {
    PutU16(|v|, f) + v
  }

  function ReadCounted(s: seq<byte>, f: Format): Read<seq<byte>>
  {
    match ReadI16(s, f)
    case Err(e) => Err(e)
    case Ok((n, rest)) => if n < 0 then Err(NegativeLength(n)) else ReadBytes(rest, n)
  }

  lemma SameBelow(n: nat, f: Format)
    requires n < I16
    ensures PutU16(n, f) == PutI16(n, f)
  {
    DivUnique(n, U16, 0, n);
  }

  lemma PutReadCounted(v: seq<byte>, f: Format, rest: seq<byte>)
    requires |v| < I16
    ensures ReadCounted(PutCounted(v, f) + rest, f) == Ok((v, rest))
  {
    hide PutI16, PutU16, ReadI16;
    Assoc(PutU16(|v|, f), v, rest);
    SameBelow(|v|, f);
    PutReadI16(|v|, f, v + rest);
    PutReadBytes(v, rest);
  }

  lemma ReadCountedFits(s: seq<byte>, f: Format, v: seq<byte>, rest: seq<byte>)
    requires ReadCounted(s, f) == Ok((v, rest))
    ensures |v| < I16
  {
    hide ReadI16;
    var (n, body) := ReadI16(s, f).value;
    ReadPutI16(s, f, n, body);
  }

  function ReadString(s: seq<byte>, f: Format): Read<seq<byte>>
  {
    match ReadCounted(s, f)
    case Err(e) => Err(e)
    case Ok((v, rest)) => if f.utf8(v) then Ok((v, rest)) else Err(InvalidString)
  }

  predicate ShortString(v: seq<byte>, f: Format)
  {
    |v| < I16 && f.utf8(v)
  }

  function PutStrings(vs: seq<seq<byte>>, f: Format): seq<byte>
  {
    if vs == [] then [] else PutCounted(vs[0], f) + PutStrings(vs[1..], f)
  }

  function ReadStrings(s: seq<byte>, n: nat, f: Format): Read<seq<seq<byte>>>
    decreases n
  {
    if n == 0 then Ok(([], s))
    else match ReadString(s, f)
      case Err(e) => Err(e)
      case Ok((v, rest)) => Prepend([v], ReadStrings(rest, n - 1, f))
  }

  predicate ShortStrings(vs: seq<seq<byte>>, f: Format)
  {
    forall i :: 0 <= i < |vs| ==> ShortString(vs[i], f)
  }

  lemma {:induction false} PutReadStrings(vs: seq<seq<byte>>, f: Format, rest: seq<byte>)
    requires ShortStrings(vs, f)
    ensures ReadStrings(PutStrings(vs, f) + rest, |vs|, f) == Ok((vs, rest))
  {
    hide PutCounted, ReadCounted;
    if vs == [] {
      assert [] + rest == rest;
    } else {
      Assoc(PutCounted(vs[0], f), PutStrings(vs[1..], f), rest);
      assert ShortString(vs[0], f);
      PutReadCounted(vs[0], f, PutStrings(vs[1..], f) + rest);
      PutReadStrings(vs[1..], f, rest);
      assert vs == [vs[0]] + vs[1..];
    }
  }

  lemma {:induction false} ReadStringsShort(s: seq<byte>, n: nat, f: Format, vs: seq<seq<byte>>, rest: seq<byte>)
    requires ReadStrings(s, n, f) == Ok((vs, rest))
    ensures |vs| == n && ShortStrings(vs, f)
    decreases n
  {
    hide ReadCounted;
    if n > 0 {
      var (v, rest') := ReadString(s, f).value;
      ReadCountedFits(s, f, v, rest');
      var more := ReadStrings(rest', n - 1, f).value.0;
      assert vs == [v] + more;
      ReadStringsShort(rest', n - 1, f, more, rest);
    }
  }

  lemma {:induction false} PutStringsLength(vs: seq<seq<byte>>, f: Format)
    requires ShortStrings(vs, f)
    ensures |PutStrings(vs, f)| <= 0x8001 * |vs|
  {
    if vs != [] {
      assert ShortString(vs[0], f);
      PutStringsLength(vs[1..], f);
    }
  }

  // ------------------------------------------------------------------
  // Principals

  function PutNameType(i: int, f: Format): (s: seq<byte>)
    ensures |s| <= 4
  {
    if f.version == 1 then [] else PutI32(i, f)
  }

  function ReadNameType(s: seq<byte>, f: Format): Read<int>
  {
    if f.version == 1 then Ok((0, s)) else ReadI32(s, f)
  }

  function PutPrincipal(p: Principal, f: Format): seq<byte>
  {
    PutU16(|p.components| + Extra(f), f)
    + (PutCounted(p.realm, f) + (PutStrings(p.components, f) + PutNameType(p.nameType, f)))
  }

  function ReadCount(s: seq<byte>, f: Format): Read<nat>
  {
    match ReadI16(s, f)
    case Err(e) => Err(e)
    case Ok((n, rest)) =>
      if f.version == 1 && n == -I16 then Err(LengthOverflow)
      else if n - Extra(f) < 0 then Err(NegativeLength(n - Extra(f)))
      else Ok((n - Extra(f), rest))
  }

  function ReadPrincipal(s: seq<byte>, f: Format): Read<Principal>
  {
    match ReadCount(s, f)
    case Err(e) => Err(e)
    case Ok((n, s1)) =>
      match ReadString(s1, f)
      case Err(e) => Err(e)
      case Ok((realm, s2)) =>
        match ReadStrings(s2, n, f)
        case Err(e) => Err(e)
        case Ok((components, s3)) =>
          match ReadNameType(s3, f)
          case Err(e) => Err(e)
          case Ok((nameType, s4)) => Ok((Principal(realm, components, nameType), s4))
  }

  /** What the signed lengths can carry. */
  predicate PrincipalShort(p: Principal, f: Format)
  {
    |p.components| + Extra(f) < I16 && ShortString(p.realm, f) && ShortStrings(p.components, f)
  }

  predicate NameTypeKept(p: Principal, f: Format)
  {
    -I32 <= p.nameType < I32 && (f.version == 1 ==> p.nameType == 0)
  }

  lemma PutReadPrincipal(p: Principal, f: Format, rest: seq<byte>)
    requires PrincipalShort(p, f) && NameTypeKept(p, f)
    ensures ReadPrincipal(PutPrincipal(p, f) + rest, f) == Ok((p, rest))
  {
    hide PutU16, ReadI16, PutCounted, ReadCounted, PutStrings, ReadStrings, PutI32, ReadI32, ShortStrings;
    var a, b := PutU16(|p.components| + Extra(f), f), PutCounted(p.realm, f);
    var c, d := PutStrings(p.components, f), PutNameType(p.nameType, f);
    Assoc4(a, b, c, d, rest);
    SameBelow(|p.components| + Extra(f), f);
    PutReadI16(|p.components| + Extra(f), f, b + (c + (d + rest)));
    PutReadCounted(p.realm, f, c + (d + rest));
    PutReadStrings(p.components, f, d + rest);
    if f.version == 1 { assert [] + rest == rest; } else { PutReadI32(p.nameType, f, rest); }
  }

  lemma ReadPrincipalShort(s: seq<byte>, f: Format, p: Principal, rest: seq<byte>)
    requires ReadPrincipal(s, f) == Ok((p, rest))
    ensures PrincipalShort(p, f) && NameTypeKept(p, f)
  {
    hide ReadI16, ReadCounted, ReadStrings, ReadI32, ShortStrings;
    var (n, s1) := ReadCount(s, f).value;
    var s2 := ReadString(s1, f).value.1;
    var s3 := ReadStrings(s2, n, f).value.1;
    ReadPutI16(s, f, n + Extra(f), s1);
    ReadCountedFits(s1, f, p.realm, s2);
    ReadStringsShort(s2, n, f, p.components, s3);
    if f.version != 1 { ReadPutI32(s3, f, p.nameType, rest); }
  }

  // ------------------------------------------------------------------
  // Entries

  /** The entry after its principal. */
  function PutKey(e: Entry, f: Format): seq<byte>
  {
    PutU32(e.timestamp, f)
    + ([e.kvno8] + (PutU16(e.etype % U16, f) + (PutCounted(e.key, f) + PutU32(e.kvno, f))))
  }

  function PutEntry(e: Entry, f: Format): seq<byte>
  {
    PutPrincipal(e.principal, f) + PutKey(e, f)
  }

  /** The 32-bit kvno if it is there and not zero, else the 8-bit one. */
  function KvnoOf(s: seq<byte>, kvno8: byte, f: Format): nat
  {
    match ReadU32(s, f)
    case Err(_) => kvno8
    case Ok((n, _)) => if n == 0 then kvno8 else n
  }

  function ReadKey(s: seq<byte>, f: Format, p: Principal): Result<Entry, Error>
  {
    match ReadU32(s, f)
    case Err(e) => Err(e)
    case Ok((timestamp, s1)) =>
      match ReadBytes(s1, 1)
      case Err(e) => Err(e)
      case Ok((kvno8, s2)) =>
        match ReadI16(s2, f)
        case Err(e) => Err(e)
        case Ok((etype, s3)) =>
          match ReadCounted(s3, f)
          case Err(e) => Err(e)
          case Ok((key, s4)) => Ok(Entry(p, timestamp, kvno8[0], etype, key, KvnoOf(s4, kvno8[0], f)))
  }

  /** One entry; whatever follows it in its record is ignored. */
  function ReadEntry(s: seq<byte>, f: Format): Result<Entry, Error>
  {
    match ReadPrincipal(s, f)
    case Err(e) => Err(e)
    case Ok((p, rest)) => ReadKey(rest, f, p)
  }

  /** A reader can return this entry. */
  predicate EntryReadable(e: Entry, f: Format)
  {
    && PrincipalShort(e.principal, f) && NameTypeKept(e.principal, f)
    && e.timestamp < U32 && e.kvno < U32 && -I16 <= e.etype < I16 && |e.key| < I16
    && (e.kvno == 0 ==> e.kvno8 == 0)
  }

  lemma PutReadKey(e: Entry, f: Format)
    requires EntryReadable(e, f) && e.etype >= 0
    ensures ReadKey(PutKey(e, f), f, e.principal) == Ok(e)
  {
    hide PutU32, ReadU32, PutU16, ReadI16, PutCounted, ReadCounted, PrincipalShort, NameTypeKept;
    var k, last := [e.kvno8], PutU32(e.kvno, f);
    DivUnique(e.etype, U16, 0, e.etype);
    SameBelow(e.etype, f);
    var c, d := PutU16(e.etype % U16, f), PutCounted(e.key, f);
    PutReadU32(e.timestamp, f, k + (c + (d + last)));
    PutReadBytes(k, c + (d + last));
    PutReadI16(e.etype, f, d + last);
    PutReadCounted(e.key, f, last);
    assert last + [] == last;
    PutReadU32(e.kvno, f, []);
  }

  lemma PutReadEntry(e: Entry, f: Format)
    requires EntryReadable(e, f) && e.etype >= 0
    ensures ReadEntry(PutEntry(e, f), f) == Ok(e)
  {
    hide PutPrincipal, ReadPrincipal, PutKey, ReadKey, PrincipalShort, NameTypeKept;
    PutReadPrincipal(e.principal, f, PutKey(e, f));
    PutReadKey(e, f);
  }

  lemma ReadEntryReadable(s: seq<byte>, f: Format, e: Entry)
    requires ReadEntry(s, f) == Ok(e)
    ensures EntryReadable(e, f)
  {
    hide ReadPrincipal, ReadU32, ReadI16, ReadCounted, PrincipalShort, NameTypeKept;
    var s0 := ReadPrincipal(s, f).value.1;
    ReadPrincipalShort(s, f, e.principal, s0);
    var (timestamp, s1) := ReadU32(s0, f).value;
    ReadPutU32(s0, f, timestamp, s1);
    var s2 := ReadBytes(s1, 1).value.1;
    var (etype, s3) := ReadI16(s2, f).value;
    ReadPutI16(s2, f, etype, s3);
    var (key, s4) := ReadCounted(s3, f).value;
    ReadCountedFits(s3, f, key, s4);
    if ReadU32(s4, f).Ok? {
      var (kvno, s5) := ReadU32(s4, f).value;
      ReadPutU32(s4, f, kvno, s5);
    }
  }

  // ------------------------------------------------------------------
  // Records and holes

  /** All entries up to a zero length, or to fewer than four bytes. */
  function ReadRecords(s: seq<byte>, f: Format): Result<seq<Entry>, Error>
    decreases |s|
  {
    match ReadI32(s, f)
    case Err(_) => Ok([])
    case Ok((n, rest)) =>
      assert |rest| < |s|;
      if n == 0 then Ok([])
      else if n == -I32 then Err(LengthOverflow)
      else if n < 0 then
        if |rest| < -n then Err(Truncated) else ReadRecords(rest[-n..], f)
      else if |rest| < n then Err(Truncated)
      else match ReadEntry(rest[..n], f)
        case Err(e) => Err(e)
        case Ok(e) => PrependEntries([e], ReadRecords(rest[n..], f))
  }

  function PrependEntries(es: seq<Entry>, r: Result<seq<Entry>, Error>): Result<seq<Entry>, Error>
  {
    match r
    case Err(e) => Err(e)
    case Ok(more) => Ok(es + more)
  }

  function PutRecord(e: Entry, f: Format): seq<byte>
  {
    PutI32(|PutEntry(e, f)|, f) + PutEntry(e, f)
  }

  function PutRecords(es: seq<Entry>, f: Format): seq<byte>
  {
    if es == [] then [] else PutRecord(es[0], f) + PutRecords(es[1..], f)
  }

  /** `Keytab::parse`. */
  function ParseOf(h: Host, b: seq<byte>): Result<Keytab, Error>
  {
    if |b| < 2 then Err(TooShort(|b|))
    else if b[0] != 5 then Err(InvalidFirstByte(b[0]))
    else if b[1] != 1 && b[1] != 2 then Err(InvalidVersion(b[1]))
    else match ReadRecords(b[2..], FormatFor(h, b[1]))
      case Err(e) => Err(e)
      case Ok(entries) => Ok(Keytab(b[1], entries))
  }

  /** What the writer checks of a principal. */
  predicate PrincipalFits(p: Principal, f: Format)
  {
    && |p.components| + Extra(f) < U16 && |p.realm| < U16
    && forall i :: 0 <= i < |p.components| ==> |p.components[i]| < U16
  }

  /** What the writer checks of an entry. */
  predicate EntryFits(e: Entry, f: Format)
  {
    && PrincipalFits(e.principal, f)
    && 0 <= e.etype < U16 && |e.key| < U16 && |PutEntry(e, f)| < I32
  }

  predicate EntriesFit(es: seq<Entry>, f: Format)
  {
    forall i :: 0 <= i < |es| ==> EntryFits(es[i], f)
  }

  /** `Keytab::to_bytes`. */
  function BytesOf(h: Host, k: Keytab): Result<seq<byte>, Error>
  {
    var f := FormatFor(h, k.version);
    if EntriesFit(k.entries, f) then Ok([5, k.version] + PutRecords(k.entries, f)) else Err(LengthOverflow)
  }

  predicate EntriesReadable(es: seq<Entry>, f: Format)
  {
    forall i :: 0 <= i < |es| ==> EntryReadable(es[i], f)
  }

  predicate NoNegativeEtype(es: seq<Entry>)
  {
    forall i :: 0 <= i < |es| ==> es[i].etype >= 0
  }

  /** Signed 16-bit lengths leave any entry far below 2^31 bytes. */
  lemma ReadableFits(e: Entry, f: Format)
    requires EntryReadable(e, f)
    ensures EntryFits(e, f) <==> e.etype >= 0
  {
    hide PutU16, PutU32, PutI32;
    PutStringsLength(e.principal.components, f);
    assert forall i :: 0 <= i < |e.principal.components| ==> ShortString(e.principal.components[i], f);
    assert |PutEntry(e, f)| < I32;
  }

  lemma ReadRecordsStep(e: Entry, f: Format, rest: seq<byte>)
    requires EntryReadable(e, f) && EntryFits(e, f)
    ensures ReadRecords(PutRecord(e, f) + rest, f) == PrependEntries([e], ReadRecords(rest, f))
  {
    hide PutEntry, ReadEntry, EntryReadable, PutI32, ReadI32;
    var body := PutEntry(e, f);
    EntryNonempty(e, f);
    Assoc(PutI32(|body|, f), body, rest);
    PutReadI32(|body|, f, body + rest);
    CutConcat(body, rest);
    PutReadEntry(e, f);
  }

  lemma EntryNonempty(e: Entry, f: Format)
    ensures |PutEntry(e, f)| > 0
  {
  }

  lemma {:induction false} PutReadRecords(es: seq<Entry>, f: Format)
    requires EntriesReadable(es, f) && EntriesFit(es, f)
    ensures ReadRecords(PutRecords(es, f), f) == Ok(es)
  {
    hide EntryReadable, EntryFits, PutRecord, ReadEntry;
    if es != [] {
      assert EntryReadable(es[0], f) && EntryFits(es[0], f);
      ReadRecordsStep(es[0], f, PutRecords(es[1..], f));
      PutReadRecords(es[1..], f);
      assert es == [es[0]] + es[1..];
    }
  }

  lemma {:induction false} ReadRecordsReadable(s: seq<byte>, f: Format)
    requires ReadRecords(s, f).Ok?
    ensures EntriesReadable(ReadRecords(s, f).value, f)
    decreases |s|
  {
    hide EntryReadable, ReadEntry, ReadI32;
    if ReadI32(s, f).Ok? && ReadI32(s, f).value.0 != 0 {
      ShorterAfter(s, f);
      var (n, rest) := ReadI32(s, f).value;
      if n < 0 {
        ReadRecordsReadable(rest[-n..], f);
      } else {
        ReadEntryReadable(rest[..n], f, ReadEntry(rest[..n], f).value);
        ReadRecordsReadable(rest[n..], f);
      }
    }
  }

  lemma ShorterAfter(s: seq<byte>, f: Format)
    requires ReadI32(s, f).Ok?
    ensures ReadI32(s, f).value.1 == s[4..] && |s| >= 4
  {
  }

  // ------------------------------------------------------------------
  // Main results

  /** Parsing is canonical: a parsed keytab can be written exactly when no entry has a negative etype,
      and what is then written parses to the same keytab. */
  lemma WrittenParsesBack(h: Host, b: seq<byte>)
    requires ParseOf(h, b).Ok?
    ensures var k := ParseOf(h, b).value;
            && (BytesOf(h, k).Ok? <==> NoNegativeEtype(k.entries))
            && (BytesOf(h, k).Ok? ==> ParseOf(h, BytesOf(h, k).value) == Ok(k))
  {
    hide EntryReadable, EntryFits, ReadRecords, PutRecords;
    var k := ParseOf(h, b).value;
    var f := FormatFor(h, k.version);
    ReadRecordsReadable(b[2..], f);
    forall i | 0 <= i < |k.entries|
      ensures EntryFits(k.entries[i], f) <==> k.entries[i].etype >= 0
    {
      ReadableFits(k.entries[i], f);
    }
    if EntriesFit(k.entries, f) {
      PutReadRecords(k.entries, f);
      assert ([5, k.version] + PutRecords(k.entries, f))[2..] == PutRecords(k.entries, f);
    }
  }

  /** A keytab built in memory survives exactly when every entry is one a reader can return:
      16-bit lengths, counts and etypes below 2^15, strings that are UTF-8, no name type in version 1,
      and a zero kvno only beside a zero 8-bit kvno. */
  lemma BuiltKeytabReadBack(h: Host, k: Keytab)
    requires BytesOf(h, k).Ok? && (k.version == 1 || k.version == 2)
    ensures ParseOf(h, BytesOf(h, k).value) == Ok(k) <==> EntriesReadable(k.entries, FormatFor(h, k.version))
  {
    hide EntryReadable, EntryFits, ReadRecords, PutRecords;
    var f := FormatFor(h, k.version);
    var file := BytesOf(h, k).value;
    assert file[2..] == PutRecords(k.entries, f);
    if EntriesReadable(k.entries, f) { PutReadRecords(k.entries, f); }
    if ParseOf(h, file) == Ok(k) { ReadRecordsReadable(file[2..], f); }
  }

  /** A deleted entry: a negative length and that many bytes of anything. */
  function Hole(junk: seq<byte>, f: Format): (s: seq<byte>)
  {
    PutI32(-|junk|, f) + junk
  }

  /** The bytes the record at the front of `s` takes, if it is whole and not an end mark. */
  function RecordLength(s: seq<byte>, f: Format): Option<nat>
  {
    match ReadI32(s, f)
    case Err(_) => None
    case Ok((n, rest)) =>
      var size: nat := if n < 0 then -n else n;
      if n == 0 || n == -I32 || |rest| < size then None else Some(4 + size)
  }

  lemma RecordLengthBounds(s: seq<byte>, f: Format)
    requires RecordLength(s, f).Some?
    ensures 4 < RecordLength(s, f).value <= |s|
  {
  }

  /** A record starts, or the file ends, at `i`. */
  predicate Boundary(s: seq<byte>, i: nat, f: Format)
    decreases |s|
  {
    i == 0
    || match RecordLength(s, f)
       case None => false
       case Some(n) => n <= i && n <= |s| && Boundary(s[n..], i - n, f)
  }

  lemma {:induction false} BoundaryInside(s: seq<byte>, i: nat, f: Format)
    requires Boundary(s, i, f)
    ensures i <= |s|
    decreases |s|
  {
    if i != 0 { BoundaryInside(s[RecordLength(s, f).value..], i - RecordLength(s, f).value, f); }
  }

  lemma HoleSkipped(junk: seq<byte>, f: Format, rest: seq<byte>)
    requires 1 <= |junk| < I32
    ensures ReadRecords(Hole(junk, f) + rest, f) == ReadRecords(rest, f)
  {
    hide PutI32, ReadI32, ReadEntry;
    Assoc(PutI32(-|junk|, f), junk, rest);
    PutReadI32(-|junk|, f, junk + rest);
    CutConcat(junk, rest);
  }

  lemma SameNumber(s: seq<byte>, t: seq<byte>, f: Format)
    requires |s| >= 4 && |t| >= 4 && s[..4] == t[..4]
    ensures ReadI32(s, f).Ok? && ReadI32(t, f).Ok? && ReadI32(s, f).value.0 == ReadI32(t, f).value.0
    ensures ReadI32(s, f).value.1 == s[4..] && ReadI32(t, f).value.1 == t[4..]
  {
  }

  lemma FrontParts(s: seq<byte>, t: seq<byte>, n: nat)
    requires 4 <= n <= |s| && n <= |t| && t[..n] == s[..n]
    ensures s[..4] == t[..4] && s[4..][..n - 4] == t[4..][..n - 4]
    ensures s[4..][n - 4..] == s[n..] && t[4..][n - 4..] == t[n..]
  {
    assert s[..4] == s[..n][..4] && t[..4] == t[..n][..4];
    assert s[4..][..n - 4] == s[..n][4..] && t[4..][..n - 4] == t[..n][4..];
  }

  /** A record at the front only reads its own bytes. */
  lemma RecordStep(s: seq<byte>, t: seq<byte>, f: Format)
    requires RecordLength(s, f).Some?
    requires RecordLength(s, f).value <= |t| && t[..RecordLength(s, f).value] == s[..RecordLength(s, f).value]
    ensures var n := RecordLength(s, f).value;
            && n <= |s|
            && (ReadRecords(s[n..], f) == ReadRecords(t[n..], f) ==> ReadRecords(s, f) == ReadRecords(t, f))
  {
    hide ReadEntry, ReadI32;
    var n := RecordLength(s, f).value;
    RecordLengthBounds(s, f);
    FrontParts(s, t, n);
    SameNumber(s, t, f);
  }

  /** A hole of any size from 1 to 2^31 - 1, with any contents, put where a record starts changes nothing. */
  lemma {:induction false} HolesChangeNothing(s: seq<byte>, i: nat, junk: seq<byte>, f: Format)
    requires Boundary(s, i, f) && 1 <= |junk| < I32
    ensures i <= |s| && ReadRecords(s[..i] + (Hole(junk, f) + s[i..]), f) == ReadRecords(s, f)
    decreases |s|
  {
    hide ReadRecords, Hole, RecordLength;
    BoundaryInside(s, i, f);
    if i == 0 {
      HoleSkipped(junk, f, s);
      assert s[..0] + (Hole(junk, f) + s[0..]) == Hole(junk, f) + s;
    } else {
      var n := RecordLength(s, f).value;
      RecordLengthBounds(s, f);
      HolesChangeNothing(s[n..], i - n, junk, f);
      var t := s[..i] + (Hole(junk, f) + s[i..]);
      TailOf(s, n, i, Hole(junk, f));
      RecordStep(s, t, f);
    }
  }

  lemma TailOf(s: seq<byte>, n: nat, i: nat, hole: seq<byte>)
    requires n <= i <= |s|
    ensures var t := s[..i] + (hole + s[i..]);
            && n <= |t| && t[..n] == s[..n] && t[n..] == s[n..][..i - n] + (hole + s[n..][i - n..])
  {
    assert s[n..][i - n..] == s[i..];
    assert s[..i][n..] == s[n..][..i - n];
  }

  /** The same for whole files. */
  lemma HolesInFile(h: Host, b: seq<byte>, i: nat, junk: seq<byte>)
    requires |b| >= 2 && 1 <= |junk| < I32 && Boundary(b[2..], i, FormatFor(h, b[1]))
    ensures var f := FormatFor(h, b[1]);
            i <= |b| - 2 && ParseOf(h, b[..i + 2] + (Hole(junk, f) + b[i + 2..])) == ParseOf(h, b)
  {
    hide ReadRecords, Hole, Boundary;
    var f := FormatFor(h, b[1]);
    HolesChangeNothing(b[2..], i, junk, f);
    var t := b[..i + 2] + (Hole(junk, f) + b[i + 2..]);
    assert t[2..] == b[2..][..i] + (Hole(junk, f) + b[2..][i..]) by {
      TailOf(b, 2, i + 2, Hole(junk, f));
    }
    assert t[0] == b[0] && t[1] == b[1];
  }

  // ------------------------------------------------------------------
  // The loops

  /** `read_counted_string`. */
  method TakeString(cursor: Cursor, f: Format) returns (r: Result<seq<byte>, Error>)
    requires cursor.Valid()
    modifies cursor`offset
    ensures Agrees(r, cursor, ReadString(old(cursor.Rest()), f))
  {
    var raw :- TakeCounted(cursor, f);
    return if f.utf8(raw) then Ok(raw) else Err(InvalidString);
  }

  method TakeCounted(cursor: Cursor, f: Format) returns (r: Result<seq<byte>, Error>)
    requires cursor.Valid()
    modifies cursor`offset
    ensures Agrees(r, cursor, ReadCounted(old(cursor.Rest()), f))
  {
    var n :- cursor.TakeI16(f);
    if n < 0 { return Err(NegativeLength(n)); }
    r := cursor.Take(n);
  }

  /** `Principal::parse`. */
  method TakePrincipal(cursor: Cursor, f: Format) returns (r: Result<Principal, Error>)
    requires cursor.Valid()
    modifies cursor`offset
    ensures Agrees(r, cursor, ReadPrincipal(old(cursor.Rest()), f))
  {
    hide ReadI16, ReadI32, ReadString;
    ghost var start := cursor.Rest();
    var count :- cursor.TakeI16(f);
    ReadPutI16(start, f, count, cursor.Rest());
    if f.version == 1 {
      if count - 1 < -I16 { return Err(LengthOverflow); }
      count := count - 1;
    }
    if count < 0 { return Err(NegativeLength(count)); }
    var realm :- TakeString(cursor, f);
    ghost var body := cursor.Rest();
    var components := [];
    PrependNone(ReadStrings(body, count, f));
    for i := 0 to count
      invariant cursor.Valid()
      invariant Prepend(components, ReadStrings(cursor.Rest(), count - i, f)) == ReadStrings(body, count, f)
    {
      var component :- TakeString(cursor, f);
      PrependOne(components, component, ReadStrings(cursor.Rest(), count - i - 1, f));
      components := components + [component];
    }
    PrependEnd(components, cursor.Rest());
    var nameType := 0;
    if f.version != 1 {
      nameType :- cursor.TakeI32(f);
    }
    return Ok(Principal(realm, components, nameType));
  }

  method TakeEntry(bytes: seq<byte>, f: Format) returns (r: Result<Entry, Error>)
    ensures r == ReadEntry(bytes, f)
  {
    hide ReadPrincipal, ReadU32, ReadI16, ReadCounted;
    var cursor := new Cursor(bytes);
    var principal :- TakePrincipal(cursor, f);
    var timestamp :- cursor.TakeU32(f);
    var kvno8 :- cursor.Take(1);
    var etype :- cursor.TakeI16(f);
    var key :- TakeCounted(cursor, f);
    ghost var tail := cursor.Rest();
    var kvno: nat := kvno8[0];
    if |bytes| - cursor.offset >= 4 {
      EnoughForU32(tail, f);
      var stored := cursor.TakeU32(f);
      kvno := stored.value;
    } else {
      EnoughForU32(tail, f);
    }
    if kvno == 0 { kvno := kvno8[0]; }
    return Ok(Entry(principal, timestamp, kvno8[0], etype, key, kvno));
  }

  lemma EnoughForU32(s: seq<byte>, f: Format)
    ensures ReadU32(s, f).Ok? <==> |s| >= 4
    ensures ReadI32(s, f).Ok? <==> |s| >= 4
  {
  }

  /** `Keytab::parse`. */
  method Parse(h: Host, bytes: seq<byte>) returns (r: Result<Keytab, Error>)
    ensures r == ParseOf(h, bytes)
  {
    hide ReadEntry, ReadI32;
    if |bytes| < 2 { return Err(TooShort(|bytes|)); }
    if bytes[0] != 5 { return Err(InvalidFirstByte(bytes[0])); }
    var version := bytes[1];
    if version != 1 && version != 2 { return Err(InvalidVersion(version)); }
    var f := FormatFor(h, version);
    var cursor := new Cursor(bytes);
    cursor.offset := 2;
    ghost var start := cursor.Rest();
    var entries := [];
    PrependEntriesNone(ReadRecords(start, f));
    while |bytes| - cursor.offset >= 4
      invariant cursor.Valid()
      invariant PrependEntries(entries, ReadRecords(cursor.Rest(), f)) == ReadRecords(start, f)
      decreases |bytes| - cursor.offset
    {
      ghost var here := cursor.Rest();
      EnoughForU32(here, f);
      var length := cursor.TakeI32(f);
      var entryLength := length.value;
      ReadPutI32(here, f, entryLength, cursor.Rest());
      if entryLength == 0 { break; }
      if entryLength < 0 {
        if entryLength == -I32 { return Err(LengthOverflow); }
        var skipped :- cursor.Take(-entryLength);
        continue;
      }
      var entryBytes :- cursor.Take(entryLength);
      var entry :- TakeEntry(entryBytes, f);
      PrependEntriesOne(entries, entry, ReadRecords(cursor.Rest(), f));
      entries := entries + [entry];
    }
    EnoughForU32(cursor.Rest(), f);
    PrependEntriesEnd(entries);
    return Ok(Keytab(version, entries));
  }

  lemma PrependEntriesNone(r: Result<seq<Entry>, Error>)
    ensures PrependEntries([], r) == r
  {
    if r.Ok? { assert [] + r.value == r.value; }
  }

  lemma PrependEntriesOne(es: seq<Entry>, e: Entry, r: Result<seq<Entry>, Error>)
    ensures PrependEntries(es, PrependEntries([e], r)) == PrependEntries(es + [e], r)
  {
    if r.Ok? { assert es + ([e] + r.value) == (es + [e]) + r.value; }
  }

  lemma PrependEntriesEnd(es: seq<Entry>)
    ensures PrependEntries(es, Ok([])) == Ok(es)
  {
    assert es + [] == es;
  }

  /** `write_u16_checked`. */
  method WriteU16(n: int, f: Format, out: seq<byte>) returns (r: Result<seq<byte>, Error>)
    ensures r == if 0 <= n < U16 then Ok(out + PutU16(n, f)) else Err(LengthOverflow)
  {
    if n < 0 || n >= U16 { return Err(LengthOverflow); }
    return Ok(out + PutU16(n, f));
  }

  method WriteCounted(v: seq<byte>, f: Format, out: seq<byte>) returns (r: Result<seq<byte>, Error>)
    ensures r == if |v| < U16 then Ok(out + PutCounted(v, f)) else Err(LengthOverflow)
  {
    var counted :- WriteU16(|v|, f, out);
    Assoc(out, PutU16(|v|, f), v);
    return Ok(counted + v);
  }

  /** `Principal::write_to`. */
  method WritePrincipal(p: Principal, f: Format) returns (r: Result<seq<byte>, Error>)
    ensures r == if PrincipalFits(p, f) then Ok(PutPrincipal(p, f)) else Err(LengthOverflow)
  {
    hide PutU16, PutCounted, PutI32;
    var out :- WriteU16(|p.components| + Extra(f), f, []);
    assert out == PutU16(|p.components| + Extra(f), f);
    var named :- WriteCounted(p.realm, f, out);
    out := named;
    for i := 0 to |p.components|
      invariant forall j :: 0 <= j < i ==> |p.components[j]| < U16
      invariant out + PutStrings(p.components[i..], f) == named + PutStrings(p.components, f)
    {
      assert p.components[i..][0] == p.components[i] && p.components[i..][1..] == p.components[i + 1..];
      Assoc(out, PutCounted(p.components[i], f), PutStrings(p.components[i + 1..], f));
      out :- WriteCounted(p.components[i], f, out);
    }
    assert p.components[|p.components|..] == [] && out + [] == out;
    if f.version != 1 { out := out + PutI32(p.nameType, f); } else { assert out + [] == out; }
    var a, b := PutU16(|p.components| + Extra(f), f), PutCounted(p.realm, f);
    Assoc(a + b, PutStrings(p.components, f), PutNameType(p.nameType, f));
    Assoc(a, b, PutStrings(p.components, f) + PutNameType(p.nameType, f));
    return Ok(out);
  }

  /** One pass of the loop of `to_bytes`: the body of an entry. */
  method WriteEntry(e: Entry, f: Format) returns (r: Result<seq<byte>, Error>)
    ensures r == if EntryFits(e, f) then Ok(PutEntry(e, f)) else Err(LengthOverflow)
  {
    hide PutU16, PutU32, PutCounted, PutPrincipal;
    var principal :- WritePrincipal(e.principal, f);
    var fixed := principal + PutU32(e.timestamp, f) + [e.kvno8];
    var etyped :- WriteU16(e.etype, f, fixed);
    DivUnique(e.etype, U16, 0, e.etype);
    var keyed :- WriteCounted(e.key, f, etyped);
    var body := keyed + PutU32(e.kvno, f);
    var t, k, c, d, v := PutU32(e.timestamp, f), [e.kvno8], PutU16(e.etype, f), PutCounted(e.key, f), PutU32(e.kvno, f);
    Assoc(fixed + c, d, v);
    Assoc(fixed, c, d + v);
    Assoc(principal + t, k, c + (d + v));
    Assoc(principal, t, k + (c + (d + v)));
    assert body == PutEntry(e, f);
    return if |body| < I32 then Ok(body) else Err(LengthOverflow);
  }

  /** `Keytab::to_bytes`. */
  method ToBytes(h: Host, k: Keytab) returns (r: Result<seq<byte>, Error>)
    ensures r == BytesOf(h, k)
  {
    hide PutEntry, EntryFits, PutI32;
    var f := FormatFor(h, k.version);
    ghost var front: seq<byte> := [5, k.version];
    var out: seq<byte> := [5, k.version];
    for i := 0 to |k.entries|
      invariant forall j :: 0 <= j < i ==> EntryFits(k.entries[j], f)
      invariant out + PutRecords(k.entries[i..], f) == front + PutRecords(k.entries, f)
    {
      assert k.entries[i..][0] == k.entries[i] && k.entries[i..][1..] == k.entries[i + 1..];
      var body :- WriteEntry(k.entries[i], f);
      Assoc(out, PutRecord(k.entries[i], f), PutRecords(k.entries[i + 1..], f));
      Assoc(out, PutI32(|body|, f), body);
      out := out + PutI32(|body|, f);
      out := out + body;
    }
    assert k.entries[|k.entries|..] == [] && out + [] == out;
    return Ok(out);
  }

  // ------------------------------------------------------------------
  // Key lookup

  /** Same realm, name components, etype, and kvno; kvno 0 matches any. */
  predicate Matches(e: Entry, components: seq<seq<byte>>, realm: seq<byte>, kvno: nat, etype: int)
  {
    && e.principal.realm == realm && e.principal.components == components
    && e.etype == etype && (kvno == 0 || e.kvno == kvno)
  }

  /** Entry `i` is the first of the newest matching ones. */
  ghost predicate FirstNewest(es: seq<Entry>, i: nat, components: seq<seq<byte>>, realm: seq<byte>, kvno: nat,
                              etype: int)
  {
    && i < |es| && Matches(es[i], components, realm, kvno, etype)
    && forall j :: 0 <= j < |es| && Matches(es[j], components, realm, kvno, etype) ==>
         if j < i then es[j].timestamp < es[i].timestamp else es[j].timestamp <= es[i].timestamp
  }

  /** An entry of the name, etype and kvno (0 for any), with no newer such entry in `es`. */
  ghost predicate IsNewest(es: seq<Entry>, e: Entry, components: seq<seq<byte>>, realm: seq<byte>, kvno: nat,
                           etype: int)
  {
    && e.principal.realm == realm && e.principal.components == components && e.etype == etype
    && (kvno != 0 ==> e.kvno == kvno)
    && forall x :: x in es && x.timestamp > e.timestamp ==>
         || x.principal.realm != realm || x.principal.components != components
         || x.etype != etype || (kvno != 0 && x.kvno != kvno)
  }

  /** `find_key`: the key and the kvno; `None` is the error for no matching key. */
  method FindKey(k: Keytab, components: seq<seq<byte>>, realm: seq<byte>, kvno: nat, etype: int)
    returns (r: Option<(seq<byte>, nat)>)
    ensures r.None? <==> forall j :: 0 <= j < |k.entries| ==> !Matches(k.entries[j], components, realm, kvno, etype)
    ensures r.Some? ==> exists i: nat :: FirstNewest(k.entries, i, components, realm, kvno, etype)
                                    && r == Some((k.entries[i].key, k.entries[i].kvno))
    ensures r.None? ==> forall e :: e in k.entries ==>
              e.principal.realm != realm || e.principal.components != components || e.etype != etype
              || (kvno != 0 && e.kvno != kvno)
    ensures r.Some? ==> exists e :: e in k.entries && IsNewest(k.entries, e, components, realm, kvno, etype)
                                   && r == Some((e.key, e.kvno))
  {
    var selected: Option<nat> := None;
    for n := 0 to |k.entries|
      invariant selected.None? ==> forall j :: 0 <= j < n ==> !Matches(k.entries[j], components, realm, kvno, etype)
      invariant selected.Some? ==> FirstNewest(k.entries[..n], selected.value, components, realm, kvno, etype)
    {
      var entry := k.entries[n];
      assert forall j :: 0 <= j < n ==> k.entries[..n + 1][j] == k.entries[..n][j];
      if Matches(entry, components, realm, kvno, etype) {
        if selected.None? || k.entries[selected.value].timestamp < entry.timestamp {
          selected := Some(n);
        }
      }
    }
    assert k.entries[..|k.entries|] == k.entries;
    match selected
    case None => return None;
    case Some(i) =>
      assert k.entries[i] in k.entries && IsNewest(k.entries, k.entries[i], components, realm, kvno, etype);
      return Some((k.entries[i].key, k.entries[i].kvno));
  }
}
