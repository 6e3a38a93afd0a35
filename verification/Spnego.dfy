/** SPNEGO negotiation tokens and GSS-API Kerberos mechanism tokens (src/spnego.rs). */
module Spnego {
  import opened Bytes
  import opened Der
  import opened OidCodec

  const TAG_BIT_STRING: byte := 0x03
  const TAG_OCTET_STRING: byte := 0x04
  const TAG_ENUMERATED: byte := 0x0a
  const TAG_SEQUENCE: byte := 0x30
  const TAG_APPLICATION_0: byte := 0x60
  const TAG_CONTEXT_0: byte := 0xa0
  const TAG_CONTEXT_1: byte := 0xa1
  const TAG_CONTEXT_2: byte := 0xa2
  const TAG_CONTEXT_3: byte := 0xa3

  datatype NegState = AcceptCompleted | AcceptIncomplete | Reject | RequestMic

  function StateValue(s: NegState): u32
  {
    match s
    case AcceptCompleted => 0
    case AcceptIncomplete => 1
    case Reject => 2
    case RequestMic => 3
  }

  function StateFrom(v: u32): (r: Result<NegState, Error>)
    ensures forall s: NegState :: r == Ok(s) <==> StateValue(s) == v
  {
    if v == 0 then Ok(AcceptCompleted)
    else if v == 1 then Ok(AcceptIncomplete)
    else if v == 2 then Ok(Reject)
    else if v == 3 then Ok(RequestMic)
    else Err(InvalidNegState(v))
  }

  datatype NegTokenInit = NegTokenInit(
    mechTypes: seq<Oid>,
    reqFlags: Option<seq<byte>>,
    mechToken: Option<seq<byte>>,
    mechListMic: Option<seq<byte>>)

  datatype NegTokenResp = NegTokenResp(
    negState: Option<NegState>,
    supportedMech: Option<Oid>,
    responseToken: Option<seq<byte>>,
    mechListMic: Option<seq<byte>>)

  datatype SpnegoToken = Init(init: NegTokenInit) | Resp(resp: NegTokenResp)

  // ------------------------------------------------------------------
  // Encoding

  /** A value inside its universal tag inside its context tag. */
  function Field(context: byte, tag: byte, value: seq<byte>): seq<byte>
  {
    EncodeTlv(context, EncodeTlv(tag, value))
  }

  function OptField(context: byte, tag: byte, value: Option<seq<byte>>): seq<byte>
  {
    if value.None? then [] else Field(context, tag, value.value)
  }

  function EncodeOids(oids: seq<Oid>): Result<seq<byte>, Error>
  {
    if oids == [] then Ok([])
    else match EncodeOid(oids[0])
      case Err(e) => Err(e)
      case Ok(first) =>
        match EncodeOids(oids[1..])
        case Err(e) => Err(e)
        case Ok(rest) => Ok(first + rest)
  }

  function EncodeInit(t: NegTokenInit): Result<seq<byte>, Error>
  {
    if t.mechTypes == [] then Err(MissingMechTypes)
    else match EncodeOids(t.mechTypes)
      case Err(e) => Err(e)
      case Ok(mechs) =>
        var fields := Field(TAG_CONTEXT_0, TAG_SEQUENCE, mechs)
                    + (OptField(TAG_CONTEXT_1, TAG_BIT_STRING, t.reqFlags)
                     + (OptField(TAG_CONTEXT_2, TAG_OCTET_STRING, t.mechToken)
                      + OptField(TAG_CONTEXT_3, TAG_OCTET_STRING, t.mechListMic)));
        Ok(Field(TAG_CONTEXT_0, TAG_SEQUENCE, fields))
  }

  function StateField(state: Option<NegState>): seq<byte>
  {
    if state.None? then [] else Field(TAG_CONTEXT_0, TAG_ENUMERATED, EncodeU32(StateValue(state.value)))
  }

  function MechField(mech: Option<Oid>): Result<seq<byte>, Error>
  {
    if mech.None? then Ok([])
    else match EncodeOidValue(mech.value)
      case Err(e) => Err(e)
      case Ok(value) => Ok(Field(TAG_CONTEXT_1, TAG_OID, value))
  }

  function EncodeResp(t: NegTokenResp): Result<seq<byte>, Error>
  {
    match MechField(t.supportedMech)
    case Err(e) => Err(e)
    case Ok(mech) =>
      var fields := StateField(t.negState)
                  + (mech
                   + (OptField(TAG_CONTEXT_2, TAG_OCTET_STRING, t.responseToken)
                    + OptField(TAG_CONTEXT_3, TAG_OCTET_STRING, t.mechListMic)));
      Ok(Field(TAG_CONTEXT_1, TAG_SEQUENCE, fields))
  }

  /** The SPNEGO mechanism identifier in front of an initial token. */
  function SpnegoPrefix(): seq<byte>
  {
    EncodeTlv(TAG_OID, Base128(43) + EncodeArcs(SPNEGO[2..]))
  }

  function EncodeToken(t: SpnegoToken): Result<seq<byte>, Error>
  {
    match t
    case Init(init) =>
      (match EncodeInit(init)
       case Err(e) => Err(e)
       case Ok(x) => Ok(EncodeTlv(TAG_APPLICATION_0, SpnegoPrefix() + x)))
    case Resp(resp) => EncodeResp(resp)
  }

  // ------------------------------------------------------------------
  // The tokens octet by octet, by the modules of section 4.2 of RFC 4178

  /** An optional field: context tag around universal tag, or nothing. */
  function Optional(context: byte, tag: byte, value: Option<seq<byte>>): seq<byte>
  {
    match value
    case None => []
    case Some(v) => EncodeTlv(context, EncodeTlv(tag, v))
  }

  /** The identifiers one after the other. */
  ghost predicate IsOidList(oids: seq<Oid>, octets: seq<byte>)
    decreases |oids|
  {
    if oids == [] then octets == []
    else
      && EncodeOid(oids[0]).Ok?
      && exists rest :: IsOidList(oids[1..], rest) && octets == EncodeOid(oids[0]).value + rest
  }

  lemma {:induction false} EncodeOidsIs(oids: seq<Oid>)
    requires EncodeOids(oids).Ok?
    ensures IsOidList(oids, EncodeOids(oids).value)
  {
    hide EncodeOid;
    if oids != [] { EncodeOidsIs(oids[1..]); }
  }

  /** An initial token: 0xa0 around the sequence of [0] mechanism list, [1] flags, [2] token and [3] MIC. */
  function InitOctets(t: NegTokenInit, mechs: seq<byte>): seq<byte>
  {
    EncodeTlv(0xa0, EncodeTlv(0x30,
      EncodeTlv(0xa0, EncodeTlv(0x30, mechs))
      + (Optional(0xa1, 0x03, t.reqFlags) + (Optional(0xa2, 0x04, t.mechToken) + Optional(0xa3, 0x04, t.mechListMic)))))
  }

  lemma EncodeInitIs(t: NegTokenInit)
    requires EncodeInit(t).Ok?
    ensures t.mechTypes != []
    ensures exists mechs :: IsOidList(t.mechTypes, mechs) && EncodeInit(t).value == InitOctets(t, mechs)
  {
    hide EncodeTlv, EncodeOids, IsOidList;
    EncodeOidsIs(t.mechTypes);
    assert EncodeInit(t).value == InitOctets(t, EncodeOids(t.mechTypes).value);
  }

  /** A response: 0xa1 around the sequence of [0] state, [1] mechanism, [2] token and [3] MIC, each if present. The
      state is an ENUMERATED octet: 0 accepted, 1 incomplete, 2 rejected, 3 a MIC requested. */
  lemma EncodeRespIs(t: NegTokenResp)
    requires EncodeResp(t).Ok?
    ensures t.supportedMech.Some? ==> EncodeOid(t.supportedMech.value).Ok?
    ensures EncodeResp(t).value ==
      EncodeTlv(0xa1, EncodeTlv(0x30,
        (match t.negState
         case None => []
         case Some(AcceptCompleted) => EncodeTlv(0xa0, [0x0a, 1, 0])
         case Some(AcceptIncomplete) => EncodeTlv(0xa0, [0x0a, 1, 1])
         case Some(Reject) => EncodeTlv(0xa0, [0x0a, 1, 2])
         case Some(RequestMic) => EncodeTlv(0xa0, [0x0a, 1, 3]))
        + ((if t.supportedMech.None? then [] else EncodeTlv(0xa1, EncodeOid(t.supportedMech.value).value))
           + (Optional(0xa2, 0x04, t.responseToken) + Optional(0xa3, 0x04, t.mechListMic)))))
  {
    hide EncodeTlv, EncodeU32, EncodeOidValue;
    if t.negState.Some? { StateOctet(StateValue(t.negState.value)); }
  }

  lemma StateOctet(v: u32)
    requires v < 4
    ensures EncodeTlv(TAG_ENUMERATED, EncodeU32(v)) == [0x0a, 1, v]
  {
    EncodeU32Is(v);
    SmallU32(v);
    ShortTlv(TAG_ENUMERATED, [v]);
  }

  lemma SmallU32(v: u32)
    requires v < 0x80
    ensures EncodeU32(v) == [v]
  {
    assert v > 0 ==> BeMin(v) == [v] by { assert BeMin(0) == []; }
  }

  /** On the wire an initial token stands behind the identifier of SPNEGO, and a response on its own. */
  lemma EncodeTokenIs(t: SpnegoToken)
    ensures match t
            case Resp(resp) => EncodeToken(t) == EncodeResp(resp)
            case Init(init) =>
              EncodeToken(t) == match EncodeInit(init)
                case Err(e) => Err(e)
                case Ok(x) => Ok(EncodeTlv(0x60, [0x06, 0x06, 0x2b, 0x06, 0x01, 0x05, 0x05, 0x02] + x))
  {
    hide EncodeTlv, EncodeInit, EncodeResp;
    SpnegoOctets();
    assert SpnegoPrefix() == EncodeOid(SPNEGO).value by {
      assert ValidArcs(SPNEGO) && Leading(SPNEGO) == 43;
    }
  }

  // ------------------------------------------------------------------
  // Decoding

  function DecodeOids(s: seq<byte>): Result<seq<Oid>, Error>
    decreases |s|
  {
    if s == [] then Ok([])
    else match ReadTlv(s)
      case Err(e) => Err(e)
      case Ok((tlv, rest)) =>
        match DecodeOid(tlv)
        case Err(e) => Err(e)
        case Ok(oid) => PrependOids([oid], DecodeOids(rest))
  }

  function PrependOids(oids: seq<Oid>, r: Result<seq<Oid>, Error>): Result<seq<Oid>, Error>
  {
    match r
    case Err(e) => Err(e)
    case Ok(more) => Ok(oids + more)
  }

  /** The options the field loop of a NegTokenInit fills in. */
  datatype InitFields = InitFields(
    mechTypes: Option<seq<Oid>>,
    reqFlags: Option<seq<byte>>,
    mechToken: Option<seq<byte>>,
    mechListMic: Option<seq<byte>>)

  /** One field stored. */
  function StoreInit(f: InitFields, tlv: Tlv): Result<InitFields, Error>
  {
    if tlv.tag == TAG_CONTEXT_0 then
      match SingleTlv(tlv.value, TAG_SEQUENCE)
      case Err(e) => Err(e)
      case Ok(inner) =>
        match DecodeOids(inner)
        case Err(e) => Err(e)
        case Ok(oids) => Ok(f.(mechTypes := Some(oids)))
    else if tlv.tag == TAG_CONTEXT_1 then
      match SingleTlv(tlv.value, TAG_BIT_STRING)
      case Err(e) => Err(e)
      case Ok(inner) => Ok(f.(reqFlags := Some(inner)))
    else if tlv.tag == TAG_CONTEXT_2 then
      match SingleTlv(tlv.value, TAG_OCTET_STRING)
      case Err(e) => Err(e)
      case Ok(inner) => Ok(f.(mechToken := Some(inner)))
    else if tlv.tag == TAG_CONTEXT_3 then
      match SingleTlv(tlv.value, TAG_OCTET_STRING)
      case Err(e) => Err(e)
      case Ok(inner) => Ok(f.(mechListMic := Some(inner)))
    else Err(UnexpectedTag(TAG_CONTEXT_0, tlv.tag))
  }

  function InitLoop(s: seq<byte>, f: InitFields): Result<InitFields, Error>
    decreases |s|
  {
    if s == [] then Ok(f)
    else match ReadTlv(s)
      case Err(e) => Err(e)
      case Ok((tlv, rest)) =>
        match StoreInit(f, tlv)
        case Err(e) => Err(e)
        case Ok(f') => InitLoop(rest, f')
  }

  const NO_INIT_FIELDS := InitFields(None, None, None, None)

  function DecodeInit(s: seq<byte>): Result<NegTokenInit, Error>
  {
    match SingleTlv(s, TAG_SEQUENCE)
    case Err(e) => Err(e)
    case Ok(body) =>
      match InitLoop(body, NO_INIT_FIELDS)
      case Err(e) => Err(e)
      case Ok(f) =>
        if f.mechTypes.None? || f.mechTypes.value == [] then Err(MissingMechTypes)
        else Ok(NegTokenInit(f.mechTypes.value, f.reqFlags, f.mechToken, f.mechListMic))
  }

  function StoreResp(f: NegTokenResp, tlv: Tlv): Result<NegTokenResp, Error>
  {
    if tlv.tag == TAG_CONTEXT_0 then
      match SingleTlv(tlv.value, TAG_ENUMERATED)
      case Err(e) => Err(e)
      case Ok(inner) =>
        match DecodeU32(inner)
        case Err(e) => Err(e)
        case Ok(v) =>
          match StateFrom(v)
          case Err(e) => Err(e)
          case Ok(state) => Ok(f.(negState := Some(state)))
    else if tlv.tag == TAG_CONTEXT_1 then
      match SingleTlv(tlv.value, TAG_OID)
      case Err(e) => Err(e)
      case Ok(inner) =>
        match DecodeOidValue(inner)
        case Err(e) => Err(e)
        case Ok(oid) => Ok(f.(supportedMech := Some(oid)))
    else if tlv.tag == TAG_CONTEXT_2 then
      match SingleTlv(tlv.value, TAG_OCTET_STRING)
      case Err(e) => Err(e)
      case Ok(inner) => Ok(f.(responseToken := Some(inner)))
    else if tlv.tag == TAG_CONTEXT_3 then
      match SingleTlv(tlv.value, TAG_OCTET_STRING)
      case Err(e) => Err(e)
      case Ok(inner) => Ok(f.(mechListMic := Some(inner)))
    else Err(UnexpectedTag(TAG_CONTEXT_0, tlv.tag))
  }

  function RespLoop(s: seq<byte>, f: NegTokenResp): Result<NegTokenResp, Error>
    decreases |s|
  {
    if s == [] then Ok(f)
    else match ReadTlv(s)
      case Err(e) => Err(e)
      case Ok((tlv, rest)) =>
        match StoreResp(f, tlv)
        case Err(e) => Err(e)
        case Ok(f') => RespLoop(rest, f')
  }

  const NO_RESP_FIELDS := NegTokenResp(None, None, None, None)

  function DecodeResp(s: seq<byte>): Result<NegTokenResp, Error>
  {
    match SingleTlv(s, TAG_SEQUENCE)
    case Err(e) => Err(e)
    case Ok(body) => RespLoop(body, NO_RESP_FIELDS)
  }

  /** `NegotiationToken::decode`: the bare choice. */
  function DecodeChoice(s: seq<byte>): Result<SpnegoToken, Error>
  {
    match ReadTlv(s)
    case Err(e) => Err(e)
    case Ok((choice, rest)) =>
      if rest != [] then Err(TrailingData)
      else if choice.tag == TAG_CONTEXT_0 then
        match DecodeInit(choice.value)
        case Err(e) => Err(e)
        case Ok(t) => Ok(Init(t))
      else if choice.tag == TAG_CONTEXT_1 then
        match DecodeResp(choice.value)
        case Err(e) => Err(e)
        case Ok(t) => Ok(Resp(t))
      else Err(UnexpectedTag(TAG_CONTEXT_0, choice.tag))
  }

  /** What follows the mechanism identifier of an initial token. */
  function DecodeFramed(content: seq<byte>): Result<SpnegoToken, Error>
  {
    match ReadTlv(content)
    case Err(e) => Err(e)
    case Ok((oidTlv, negotiation)) =>
      match DecodeOid(oidTlv)
      case Err(e) => Err(e)
      case Ok(oid) =>
        if oid != SPNEGO then Err(UnexpectedSpnegoOid(oid))
        else match DecodeChoice(negotiation)
          case Err(e) => Err(e)
          case Ok(Init(t)) => Ok(Init(t))
          case Ok(Resp(_)) => Err(UnexpectedInitOrResp)
  }

  function DecodeToken(s: seq<byte>): Result<SpnegoToken, Error>
  {
    if s == [] then Err(EmptyInput)
    else if s[0] == TAG_APPLICATION_0 then
      match ReadTlv(s)
      case Err(e) => Err(e)
      case Ok((token, rest)) => if rest != [] then Err(TrailingData) else DecodeFramed(token.value)
    else DecodeChoice(s)
  }

  // ------------------------------------------------------------------
  // Round trips

  /** The identifiers a token carries. */
  function TokenOids(t: SpnegoToken): seq<Oid>
  {
    match t
    case Init(init) => init.mechTypes
    case Resp(resp) => if resp.supportedMech.None? then [] else [resp.supportedMech.value]
  }

  ghost predicate SmallOids(oids: seq<Oid>)
  {
    forall i :: 0 <= i < |oids| ==> |oids[i]| >= 2 && oids[i][1] < 40
  }

  lemma {:induction false} DecodeEncodedOids(oids: seq<Oid>)
    requires EncodeOids(oids).Ok? && SmallOids(oids) && |EncodeOids(oids).value| < USIZE
    ensures DecodeOids(EncodeOids(oids).value) == Ok(oids)
  {
    if oids != [] {
      var value := EncodeOidValue(oids[0]).value;
      var rest := EncodeOids(oids[1..]).value;
      ReadTlvEncoded(TAG_OID, value, rest);
      DecodeEncodedOid(oids[0]);
      DecodeEncodedOids(oids[1..]);
      assert oids == [oids[0]] + oids[1..];
    }
  }

  lemma ReadField(context: byte, tag: byte, value: seq<byte>, rest: seq<byte>)
    requires context % 32 != 31 && tag % 32 != 31 && |Field(context, tag, value)| < USIZE
    ensures ReadTlv(Field(context, tag, value) + rest) == Ok((Tlv(context, EncodeTlv(tag, value)), rest))
    ensures SingleTlv(EncodeTlv(tag, value), tag) == Ok(value)
  {
    ReadTlvEncoded(context, EncodeTlv(tag, value), rest);
    SingleTlvEncoded(tag, value);
  }

  /** One optional octet- or bit-string field is stored and skipped over. */
  lemma InitOptField(context: byte, tag: byte, value: Option<seq<byte>>, rest: seq<byte>, f: InitFields)
    requires (context == TAG_CONTEXT_1 && tag == TAG_BIT_STRING)
          || ((context == TAG_CONTEXT_2 || context == TAG_CONTEXT_3) && tag == TAG_OCTET_STRING)
    requires |OptField(context, tag, value)| < USIZE
    ensures InitLoop(OptField(context, tag, value) + rest, f)
         == InitLoop(rest, if value.None? then f
                           else if context == TAG_CONTEXT_1 then f.(reqFlags := value)
                           else if context == TAG_CONTEXT_2 then f.(mechToken := value)
                           else f.(mechListMic := value))
  {
    if value.None? {
      assert [] + rest == rest;
    } else {
      ReadField(context, tag, value.value, rest);
    }
  }

  lemma InitMechField(mechs: seq<byte>, oids: seq<Oid>, rest: seq<byte>, f: InitFields)
    requires DecodeOids(mechs) == Ok(oids) && |Field(TAG_CONTEXT_0, TAG_SEQUENCE, mechs)| < USIZE
    ensures InitLoop(Field(TAG_CONTEXT_0, TAG_SEQUENCE, mechs) + rest, f)
         == InitLoop(rest, f.(mechTypes := Some(oids)))
  {
    ReadField(TAG_CONTEXT_0, TAG_SEQUENCE, mechs, rest);
  }

  lemma InitFieldsDecoded(t: NegTokenInit, mechs: seq<byte>, fields: seq<byte>)
    requires DecodeOids(mechs) == Ok(t.mechTypes)
    requires fields == Field(TAG_CONTEXT_0, TAG_SEQUENCE, mechs)
                     + (OptField(TAG_CONTEXT_1, TAG_BIT_STRING, t.reqFlags)
                      + (OptField(TAG_CONTEXT_2, TAG_OCTET_STRING, t.mechToken)
                       + OptField(TAG_CONTEXT_3, TAG_OCTET_STRING, t.mechListMic)))
    requires |fields| < USIZE
    ensures InitLoop(fields, NO_INIT_FIELDS)
         == Ok(InitFields(Some(t.mechTypes), t.reqFlags, t.mechToken, t.mechListMic))
  {
    var f1 := OptField(TAG_CONTEXT_1, TAG_BIT_STRING, t.reqFlags);
    var f2 := OptField(TAG_CONTEXT_2, TAG_OCTET_STRING, t.mechToken);
    var f3 := OptField(TAG_CONTEXT_3, TAG_OCTET_STRING, t.mechListMic);
    var g0 := NO_INIT_FIELDS.(mechTypes := Some(t.mechTypes));
    InitMechField(mechs, t.mechTypes, f1 + (f2 + f3), NO_INIT_FIELDS);
    InitOptField(TAG_CONTEXT_1, TAG_BIT_STRING, t.reqFlags, f2 + f3, g0);
    var g1 := g0.(reqFlags := t.reqFlags);
    InitOptField(TAG_CONTEXT_2, TAG_OCTET_STRING, t.mechToken, f3, g1);
    var g2 := g1.(mechToken := t.mechToken);
    assert f3 + [] == f3;
    InitOptField(TAG_CONTEXT_3, TAG_OCTET_STRING, t.mechListMic, [], g2);
  }

  lemma ChoiceOfInit(t: NegTokenInit)
    requires EncodeInit(t).Ok? && SmallOids(t.mechTypes) && |EncodeInit(t).value| < USIZE
    ensures DecodeChoice(EncodeInit(t).value) == Ok(Init(t))
  {
    var mechs := EncodeOids(t.mechTypes).value;
    var fields := Field(TAG_CONTEXT_0, TAG_SEQUENCE, mechs)
                + (OptField(TAG_CONTEXT_1, TAG_BIT_STRING, t.reqFlags)
                 + (OptField(TAG_CONTEXT_2, TAG_OCTET_STRING, t.mechToken)
                  + OptField(TAG_CONTEXT_3, TAG_OCTET_STRING, t.mechListMic)));
    DecodeEncodedOids(t.mechTypes);
    InitFieldsDecoded(t, mechs, fields);
    ReadField(TAG_CONTEXT_0, TAG_SEQUENCE, fields, []);
    assert Field(TAG_CONTEXT_0, TAG_SEQUENCE, fields) + [] == Field(TAG_CONTEXT_0, TAG_SEQUENCE, fields);
  }

  lemma RespOptField(context: byte, value: Option<seq<byte>>, rest: seq<byte>, f: NegTokenResp)
    requires context == TAG_CONTEXT_2 || context == TAG_CONTEXT_3
    requires |OptField(context, TAG_OCTET_STRING, value)| < USIZE
    ensures RespLoop(OptField(context, TAG_OCTET_STRING, value) + rest, f)
         == RespLoop(rest, if value.None? then f
                           else if context == TAG_CONTEXT_2 then f.(responseToken := value)
                           else f.(mechListMic := value))
  {
    if value.None? {
      assert [] + rest == rest;
    } else {
      ReadField(context, TAG_OCTET_STRING, value.value, rest);
    }
  }

  lemma RespStateField(state: Option<NegState>, rest: seq<byte>, f: NegTokenResp)
    requires |StateField(state)| < USIZE
    ensures RespLoop(StateField(state) + rest, f)
         == RespLoop(rest, if state.None? then f else f.(negState := state))
  {
    if state.None? {
      assert [] + rest == rest;
    } else {
      var v := StateValue(state.value);
      ReadField(TAG_CONTEXT_0, TAG_ENUMERATED, EncodeU32(v), rest);
      DecodeEncodedU32(v);
      assert StateFrom(v) == Ok(state.value);
    }
  }

  lemma RespMechField(mech: Option<Oid>, rest: seq<byte>, f: NegTokenResp)
    requires MechField(mech).Ok? && |MechField(mech).value| < USIZE
    requires mech.Some? ==> |mech.value| >= 2 && mech.value[1] < 40
    ensures RespLoop(MechField(mech).value + rest, f)
         == RespLoop(rest, if mech.None? then f else f.(supportedMech := mech))
  {
    if mech.None? {
      assert [] + rest == rest;
    } else {
      ReadField(TAG_CONTEXT_1, TAG_OID, EncodeOidValue(mech.value).value, rest);
      DecodeEncodedOid(mech.value);
    }
  }

  lemma RespFieldsDecoded(t: NegTokenResp, mech: seq<byte>, fields: seq<byte>)
    requires MechField(t.supportedMech) == Ok(mech) && SmallOids(TokenOids(Resp(t)))
    requires fields == StateField(t.negState)
                     + (mech
                      + (OptField(TAG_CONTEXT_2, TAG_OCTET_STRING, t.responseToken)
                       + OptField(TAG_CONTEXT_3, TAG_OCTET_STRING, t.mechListMic)))
    requires |fields| < USIZE
    ensures RespLoop(fields, NO_RESP_FIELDS) == Ok(t)
  {
    var f2 := OptField(TAG_CONTEXT_2, TAG_OCTET_STRING, t.responseToken);
    var f3 := OptField(TAG_CONTEXT_3, TAG_OCTET_STRING, t.mechListMic);
    if t.supportedMech.Some? { assert TokenOids(Resp(t))[0] == t.supportedMech.value; }
    RespStateField(t.negState, mech + (f2 + f3), NO_RESP_FIELDS);
    var g0 := NO_RESP_FIELDS.(negState := t.negState);
    RespMechField(t.supportedMech, f2 + f3, g0);
    var g1 := g0.(supportedMech := t.supportedMech);
    RespOptField(TAG_CONTEXT_2, t.responseToken, f3, g1);
    var g2 := g1.(responseToken := t.responseToken);
    assert f3 + [] == f3;
    RespOptField(TAG_CONTEXT_3, t.mechListMic, [], g2);
  }

  lemma ChoiceOfResp(t: NegTokenResp)
    requires EncodeResp(t).Ok? && SmallOids(TokenOids(Resp(t))) && |EncodeResp(t).value| < USIZE
    ensures DecodeChoice(EncodeResp(t).value) == Ok(Resp(t))
  {
    var mech := MechField(t.supportedMech).value;
    var fields := StateField(t.negState)
                + (mech
                 + (OptField(TAG_CONTEXT_2, TAG_OCTET_STRING, t.responseToken)
                  + OptField(TAG_CONTEXT_3, TAG_OCTET_STRING, t.mechListMic)));
    RespFieldsDecoded(t, mech, fields);
    ReadField(TAG_CONTEXT_1, TAG_SEQUENCE, fields, []);
    assert Field(TAG_CONTEXT_1, TAG_SEQUENCE, fields) + [] == Field(TAG_CONTEXT_1, TAG_SEQUENCE, fields);
  }

  lemma PrefixIsSpnego(rest: seq<byte>)
    requires |SpnegoPrefix()| < USIZE
    ensures ReadTlv(SpnegoPrefix() + rest).Ok?
    ensures ReadTlv(SpnegoPrefix() + rest).value.1 == rest
    ensures DecodeOid(ReadTlv(SpnegoPrefix() + rest).value.0) == Ok(SPNEGO)
  {
    var value := Base128(43) + EncodeArcs(SPNEGO[2..]);
    ReadTlvEncoded(TAG_OID, value, rest);
    assert Leading(SPNEGO) == 43;
    assert EncodeOidValue(SPNEGO) == Ok(value);
    DecodeEncodedOid(SPNEGO);
  }

  /** Every identifier a decoder accepts has its second arc below 40. */
  lemma {:induction false} DecodedOidsSmall(s: seq<byte>)
    ensures DecodeOids(s).Ok? ==> SmallOids(DecodeOids(s).value)
    decreases |s|
  {
    if s != [] && DecodeOids(s).Ok? { DecodedOidsSmall(ReadTlv(s).value.1); }
  }

  lemma {:induction false} InitLoopSmall(s: seq<byte>, f: InitFields)
    requires f.mechTypes.Some? ==> SmallOids(f.mechTypes.value)
    ensures InitLoop(s, f).Ok? && InitLoop(s, f).value.mechTypes.Some?
        ==> SmallOids(InitLoop(s, f).value.mechTypes.value)
    decreases |s|
  {
    if s != [] && ReadTlv(s).Ok? {
      var (tlv, rest) := ReadTlv(s).value;
      if StoreInit(f, tlv).Ok? {
        if tlv.tag == TAG_CONTEXT_0 { DecodedOidsSmall(SingleTlv(tlv.value, TAG_SEQUENCE).value); }
        InitLoopSmall(rest, StoreInit(f, tlv).value);
      }
    }
  }

  lemma {:induction false} RespLoopSmall(s: seq<byte>, f: NegTokenResp)
    requires f.supportedMech.Some? ==> SmallOids([f.supportedMech.value])
    ensures RespLoop(s, f).Ok? && RespLoop(s, f).value.supportedMech.Some?
        ==> SmallOids([RespLoop(s, f).value.supportedMech.value])
    decreases |s|
  {
    if s != [] && ReadTlv(s).Ok? {
      var (tlv, rest) := ReadTlv(s).value;
      if StoreResp(f, tlv).Ok? { RespLoopSmall(rest, StoreResp(f, tlv).value); }
    }
  }

  lemma ChoiceSmall(s: seq<byte>)
    ensures DecodeChoice(s).Ok? ==> SmallOids(TokenOids(DecodeChoice(s).value))
  {
    if DecodeChoice(s).Ok? {
      var choice := ReadTlv(s).value.0;
      var body := SingleTlv(choice.value, TAG_SEQUENCE).value;
      InitLoopSmall(body, NO_INIT_FIELDS);
      RespLoopSmall(body, NO_RESP_FIELDS);
    }
  }

  lemma TokenSmall(s: seq<byte>)
    ensures DecodeToken(s).Ok? ==> SmallOids(TokenOids(DecodeToken(s).value))
  {
    ChoiceSmall(s);
    if s != [] && s[0] == TAG_APPLICATION_0 && DecodeToken(s).Ok? {
      ChoiceSmall(ReadTlv(ReadTlv(s).value.0.value).value.1);
    }
  }

  lemma FramedInit(init: NegTokenInit, x: seq<byte>)
    requires DecodeChoice(x) == Ok(Init(init)) && |SpnegoPrefix() + x| < USIZE
    ensures DecodeToken(EncodeTlv(TAG_APPLICATION_0, SpnegoPrefix() + x)) == Ok(Init(init))
  {
    hide DecodeChoice, EncodeTlv, DecodeOid;
    PrefixIsSpnego(x);
    var content := SpnegoPrefix() + x;
    var s := EncodeTlv(TAG_APPLICATION_0, content);
    ReadTlvEncoded(TAG_APPLICATION_0, content, []);
    assert s + [] == s;
    assert DecodeFramed(content) == Ok(Init(init));
  }

  /** A token is decoded to itself exactly when all its identifiers have a second arc below 40. */
  lemma TokenRoundTrip(t: SpnegoToken)
    requires EncodeToken(t).Ok? && |EncodeToken(t).value| < MAX_LEN
    ensures DecodeToken(EncodeToken(t).value) == Ok(t) <==> SmallOids(TokenOids(t))
  {
    if SmallOids(TokenOids(t)) {
      match t
      case Resp(resp) =>
        ChoiceOfResp(resp);
        assert EncodeToken(t).value[0] == TAG_CONTEXT_1;
      case Init(init) =>
        ChoiceOfInit(init);
        FramedInit(init, EncodeInit(init).value);
    } else {
      TokenSmall(EncodeToken(t).value);
    }
  }

  /** Nothing may follow a token. */
  lemma TrailingRefused(t: SpnegoToken, extra: seq<byte>)
    requires EncodeToken(t).Ok? && |EncodeToken(t).value| < MAX_LEN && extra != []
    ensures DecodeToken(EncodeToken(t).value + extra) == Err(TrailingData)
  {
    hide EncodeTlv, ReadTlv, EncodeInit, MechField, StateField;
    match t
    case Init(init) =>
      TlvThenMore(TAG_APPLICATION_0, SpnegoPrefix() + EncodeInit(init).value, extra);
    case Resp(resp) =>
      var mech := MechField(resp.supportedMech).value;
      var fields := StateField(resp.negState)
                  + (mech + (OptField(TAG_CONTEXT_2, TAG_OCTET_STRING, resp.responseToken)
                             + OptField(TAG_CONTEXT_3, TAG_OCTET_STRING, resp.mechListMic)));
      TlvThenMore(TAG_CONTEXT_1, EncodeTlv(TAG_SEQUENCE, fields), extra);
  }

  lemma TlvThenMore(tag: byte, value: seq<byte>, extra: seq<byte>)
    requires tag % 32 != 31 && |EncodeTlv(tag, value)| < MAX_LEN
    ensures EncodeTlv(tag, value) + extra != [] && (EncodeTlv(tag, value) + extra)[0] == tag
    ensures ReadTlv(EncodeTlv(tag, value) + extra) == Ok((Tlv(tag, value), extra))
  {
    ReadTlvEncoded(tag, value, extra);
  }

  /** What an accepted token starts with. An initial token behind a mechanism identifier has the one of SPNEGO there,
      and every initial token lists a mechanism. */
  lemma AcceptedToken(s: seq<byte>, t: SpnegoToken)
    requires DecodeToken(s) == Ok(t)
    ensures s != []
    ensures t.Init? ==> s[0] in {0x60, 0xa0} && t.init.mechTypes != []
    ensures t.Resp? ==> s[0] == 0xa1
    ensures s[0] == 0x60 ==>
      && ReadTlv(s).Ok? && ReadTlv(s).value.1 == []
      && var inner := ReadTlv(ReadTlv(s).value.0.value);
         inner.Ok? && DecodeOid(inner.value.0) == Ok([1, 3, 6, 1, 5, 5, 2])
  {
    hide InitLoop, RespLoop, DecodeOid, ReadLen;
  }

  /** A field of another tag than 0xa0 to 0xa3 is refused by its tag, wherever it stands. */
  lemma UnknownFieldRefused(s: seq<byte>, f: InitFields, g: NegTokenResp, tlv: Tlv, rest: seq<byte>)
    requires ReadTlv(s) == Ok((tlv, rest)) && !(0xa0 <= tlv.tag <= 0xa3)
    ensures InitLoop(s, f) == Err(UnexpectedTag(0xa0, tlv.tag))
    ensures RespLoop(s, g) == Err(UnexpectedTag(0xa0, tlv.tag))
  {
  }

  // ------------------------------------------------------------------
  // Kerberos mechanism tokens

  datatype Krb5TokenId = ApReq | ApRep | KrbError

  function TokenIdBytes(id: Krb5TokenId): (r: seq<byte>)
    ensures |r| == 2
  {
    match id
    case ApReq => [0x01, 0x00]
    case ApRep => [0x02, 0x00]
    case KrbError => [0x03, 0x00]
  }

  function TokenIdFrom(s: seq<byte>): (r: Result<Krb5TokenId, Error>)
    ensures forall id: Krb5TokenId :: r == Ok(id) <==> s == TokenIdBytes(id)
  {
    if s == [0x01, 0x00] then Ok(ApReq)
    else if s == [0x02, 0x00] then Ok(ApRep)
    else if s == [0x03, 0x00] then Ok(KrbError)
    else Err(UnknownKrb5TokenId(s))
  }

  datatype Krb5MechToken = Krb5MechToken(oid: Oid, tokenId: Krb5TokenId, message: seq<byte>)

  function EncodeMech(t: Krb5MechToken): Result<seq<byte>, Error>
  {
    if t.message == [] then Err(MissingKerberosMessage)
    else match EncodeOid(t.oid)
      case Err(e) => Err(e)
      case Ok(oid) => Ok(EncodeTlv(TAG_APPLICATION_0, oid + (TokenIdBytes(t.tokenId) + t.message)))
  }

  /** A mechanism token: identifier, the two octets of its kind, and a message that is not empty. */
  lemma EncodeMechIs(t: Krb5MechToken)
    ensures EncodeMech(t).Ok? <==> t.message != [] && EncodeOid(t.oid).Ok?
    ensures EncodeMech(t).Ok? ==>
      var kind: byte := match t.tokenId case ApReq => 1 case ApRep => 2 case KrbError => 3;
      EncodeMech(t).value == EncodeTlv(0x60, EncodeOid(t.oid).value + [kind, 0] + t.message)
  {
    hide EncodeTlv, EncodeOidValue;
    if EncodeMech(t).Ok? {
      assert EncodeOid(t.oid).value + (TokenIdBytes(t.tokenId) + t.message)
          == EncodeOid(t.oid).value + TokenIdBytes(t.tokenId) + t.message;
    }
  }

  function DecodeMech(s: seq<byte>): Result<Krb5MechToken, Error>
  {
    match SingleTlv(s, TAG_APPLICATION_0)
    case Err(e) => Err(e)
    case Ok(content) =>
      match ReadTlv(content)
      case Err(e) => Err(e)
      case Ok((oidTlv, rest)) =>
        match DecodeOid(oidTlv)
        case Err(e) => Err(e)
        case Ok(oid) =>
          if oid != KRB5 then Err(UnsupportedMechanism(oid))
          else if |rest| < 2 then Err(TruncatedDer)
          else match TokenIdFrom(rest[..2])
            case Err(e) => Err(e)
            case Ok(id) =>
              if rest[2..] == [] then Err(MissingKerberosMessage)
              else Ok(Krb5MechToken(oid, id, rest[2..]))
  }

  /** A mechanism token is decoded to itself exactly when it names the Kerberos 5 mechanism. */
  lemma MechRoundTrip(t: Krb5MechToken)
    requires EncodeMech(t).Ok? && |EncodeMech(t).value| < MAX_LEN
    ensures DecodeMech(EncodeMech(t).value) == Ok(t) <==> t.oid == KRB5
  {
    hide DecodeOidValue, EncodeTlv, ReadTlv, SingleTlv;
    if t.oid == KRB5 {
      var rest := TokenIdBytes(t.tokenId) + t.message;
      var value := EncodeOidValue(KRB5).value;
      SingleTlvEncoded(TAG_APPLICATION_0, EncodeTlv(TAG_OID, value) + rest);
      ReadTlvEncoded(TAG_OID, value, rest);
      DecodeEncodedOid(KRB5);
      assert rest[..2] == TokenIdBytes(t.tokenId) && rest[2..] == t.message;
      assert TokenIdFrom(rest[..2]) == Ok(t.tokenId);
    }
  }

  // ------------------------------------------------------------------
  // The code: encoders

  /** The loop that writes the mechanism list. */
  method WriteOids(oids: seq<Oid>) returns (r: Result<seq<byte>, Error>)
    requires forall i :: 0 <= i < |oids| && EncodeOid(oids[i]).Ok? ==> |EncodeOid(oids[i]).value| < USIZE
    ensures r == EncodeOids(oids)
  {
    var out := [];
    AppendNone(EncodeOids(oids));
    for i := 0 to |oids|
      invariant EncodeOids(oids) == AppendTo(out, EncodeOids(oids[i..]))
    {
      assert oids[i..][0] == oids[i] && oids[i..][1..] == oids[i + 1..];
      var first := WriteOid(oids[i]);
      if first.Err? { return first; }
      AppendOne(out, first.value, EncodeOids(oids[i + 1..]));
      out := out + first.value;
    }
    assert oids[|oids|..] == [] && out + [] == out;
    return Ok(out);
  }

  function AppendTo(out: seq<byte>, r: Result<seq<byte>, Error>): Result<seq<byte>, Error>
  {
    match r
    case Err(e) => Err(e)
    case Ok(more) => Ok(out + more)
  }

  lemma AppendNone(r: Result<seq<byte>, Error>)
    ensures AppendTo([], r) == r
  {
    if r.Ok? { assert [] + r.value == r.value; }
  }

  lemma AppendOne(out: seq<byte>, first: seq<byte>, r: Result<seq<byte>, Error>)
    ensures AppendTo(out, AppendTo(first, r)) == AppendTo(out + first, r)
  {
    if r.Ok? { assert out + (first + r.value) == (out + first) + r.value; }
  }

  /** `encode_explicit` around `encode_tlv`. */
  method WriteField(context: byte, tag: byte, value: seq<byte>) returns (out: seq<byte>)
    requires |EncodeTlv(tag, value)| < USIZE
    ensures out == Field(context, tag, value)
  {
    var inner := WriteTlv(tag, value);
    out := WriteTlv(context, inner);
  }

  /** `if let Some(value)`: append the field, or nothing. */
  method WriteOptField(context: byte, tag: byte, value: Option<seq<byte>>, out: seq<byte>)
    returns (out': seq<byte>)
    requires |OptField(context, tag, value)| < USIZE
    ensures out' == out + OptField(context, tag, value)
  {
    out' := out;
    if value.Some? {
      var field := WriteField(context, tag, value.value);
      out' := out' + field;
    }
  }

  /** `NegTokenInit::encode`. */
  method WriteInit(t: NegTokenInit) returns (r: Result<seq<byte>, Error>)
    requires forall i :: 0 <= i < |t.mechTypes| && EncodeOid(t.mechTypes[i]).Ok? ==>
      |EncodeOid(t.mechTypes[i]).value| < USIZE
    requires EncodeInit(t).Ok? ==> |EncodeInit(t).value| < MAX_LEN
    ensures r == EncodeInit(t)
  {
    if t.mechTypes == [] { return Err(MissingMechTypes); }
    var mechTypes := WriteOids(t.mechTypes);
    if mechTypes.Err? { return mechTypes; }
    var f1 := OptField(TAG_CONTEXT_1, TAG_BIT_STRING, t.reqFlags);
    var f2 := OptField(TAG_CONTEXT_2, TAG_OCTET_STRING, t.mechToken);
    var f3 := OptField(TAG_CONTEXT_3, TAG_OCTET_STRING, t.mechListMic);
    ghost var f0 := Field(TAG_CONTEXT_0, TAG_SEQUENCE, mechTypes.value);
    ghost var all := f0 + (f1 + (f2 + f3));
    assert EncodeInit(t) == Ok(Field(TAG_CONTEXT_0, TAG_SEQUENCE, all));
    assert |all| < MAX_LEN;
    var fields := WriteField(TAG_CONTEXT_0, TAG_SEQUENCE, mechTypes.value);
    fields := WriteOptField(TAG_CONTEXT_1, TAG_BIT_STRING, t.reqFlags, fields);
    fields := WriteOptField(TAG_CONTEXT_2, TAG_OCTET_STRING, t.mechToken, fields);
    fields := WriteOptField(TAG_CONTEXT_3, TAG_OCTET_STRING, t.mechListMic, fields);
    Der.Regroup(f0, f1, f2, f3);
    var out := WriteField(TAG_CONTEXT_0, TAG_SEQUENCE, fields);
    return Ok(out);
  }

  /** `NegTokenResp::encode`. */
  method WriteResp(t: NegTokenResp) returns (r: Result<seq<byte>, Error>)
    requires (t.supportedMech.Some? && EncodeOid(t.supportedMech.value).Ok?) ==>
      |EncodeOid(t.supportedMech.value).value| < USIZE
    requires EncodeResp(t).Ok? ==> |EncodeResp(t).value| < MAX_LEN
    ensures r == EncodeResp(t)
  {
    var mech := [];
    if t.supportedMech.Some? {
      var oid := WriteOid(t.supportedMech.value);
      if oid.Err? { return oid; }
      mech := EncodeTlv(TAG_CONTEXT_1, oid.value);
    }
    ghost var f0 := StateField(t.negState);
    ghost var f2 := OptField(TAG_CONTEXT_2, TAG_OCTET_STRING, t.responseToken);
    ghost var f3 := OptField(TAG_CONTEXT_3, TAG_OCTET_STRING, t.mechListMic);
    ghost var all := f0 + (mech + (f2 + f3));
    assert EncodeResp(t) == Ok(Field(TAG_CONTEXT_1, TAG_SEQUENCE, all));
    assert |all| < MAX_LEN;
    var fields := [];
    if t.negState.Some? {
      var state := WriteU32(StateValue(t.negState.value));
      fields := WriteField(TAG_CONTEXT_0, TAG_ENUMERATED, state);
    }
    fields := fields + mech;
    fields := WriteOptField(TAG_CONTEXT_2, TAG_OCTET_STRING, t.responseToken, fields);
    fields := WriteOptField(TAG_CONTEXT_3, TAG_OCTET_STRING, t.mechListMic, fields);
    Der.Regroup(f0, mech, f2, f3);
    var out := WriteField(TAG_CONTEXT_1, TAG_SEQUENCE, fields);
    return Ok(out);
  }

  // ------------------------------------------------------------------
  // The code: decoders

  lemma PrependNoOids(r: Result<seq<Oid>, Error>)
    ensures PrependOids([], r) == r
  {
    if r.Ok? { assert [] + r.value == r.value; }
  }

  lemma PrependOneOid(oids: seq<Oid>, oid: Oid, r: Result<seq<Oid>, Error>)
    ensures PrependOids(oids, PrependOids([oid], r)) == PrependOids(oids + [oid], r)
  {
    if r.Ok? { assert oids + ([oid] + r.value) == (oids + [oid]) + r.value; }
  }

  /** The loop that reads the mechanism list. */
  method ReadOids(s: seq<byte>) returns (r: Result<seq<Oid>, Error>)
    ensures r == DecodeOids(s)
  {
    var reader := new DerReader(s);
    var oids := [];
    PrependNoOids(DecodeOids(s));
    while reader.Remaining() != []
      invariant reader.Valid()
      invariant DecodeOids(s) == PrependOids(oids, DecodeOids(reader.Remaining()))
      decreases |reader.Remaining()|
    {
      var tlv :- reader.ReadTlvAt();
      var oid := ReadOid(tlv);
      if oid.Err? { return Err(oid.error); }
      PrependOneOid(oids, oid.value, DecodeOids(reader.Remaining()));
      oids := oids + [oid.value];
    }
    assert oids + [] == oids;
    return Ok(oids);
  }

  /** The match on one field's tag. */
  method TakeInit(f: InitFields, tlv: Tlv) returns (r: Result<InitFields, Error>)
    ensures r == StoreInit(f, tlv)
  {
    if tlv.tag == TAG_CONTEXT_0 {
      var inner :- ReadSingleTlv(tlv.value, TAG_SEQUENCE);
      var oids :- ReadOids(inner);
      return Ok(f.(mechTypes := Some(oids)));
    } else if tlv.tag == TAG_CONTEXT_1 {
      var inner :- ReadSingleTlv(tlv.value, TAG_BIT_STRING);
      return Ok(f.(reqFlags := Some(inner)));
    } else if tlv.tag == TAG_CONTEXT_2 {
      var inner :- ReadSingleTlv(tlv.value, TAG_OCTET_STRING);
      return Ok(f.(mechToken := Some(inner)));
    } else if tlv.tag == TAG_CONTEXT_3 {
      var inner :- ReadSingleTlv(tlv.value, TAG_OCTET_STRING);
      return Ok(f.(mechListMic := Some(inner)));
    }
    return Err(UnexpectedTag(TAG_CONTEXT_0, tlv.tag));
  }

  /** `decode_neg_token_init`. */
  method ReadInit(s: seq<byte>) returns (r: Result<NegTokenInit, Error>)
    ensures r == DecodeInit(s)
  {
    var body :- ReadSingleTlv(s, TAG_SEQUENCE);
    var fields := new DerReader(body);
    var f := NO_INIT_FIELDS;
    while fields.Remaining() != []
      invariant fields.Valid()
      invariant InitLoop(body, NO_INIT_FIELDS) == InitLoop(fields.Remaining(), f)
      decreases |fields.Remaining()|
    {
      var field :- fields.ReadTlvAt();
      f :- TakeInit(f, field);
    }
    if f.mechTypes.None? || f.mechTypes.value == [] { return Err(MissingMechTypes); }
    return Ok(NegTokenInit(f.mechTypes.value, f.reqFlags, f.mechToken, f.mechListMic));
  }

  /** The match on one field's tag. */
  method TakeResp(f: NegTokenResp, tlv: Tlv) returns (r: Result<NegTokenResp, Error>)
    ensures r == StoreResp(f, tlv)
  {
    if tlv.tag == TAG_CONTEXT_0 {
      var inner :- ReadSingleTlv(tlv.value, TAG_ENUMERATED);
      var v :- ReadU32(inner);
      var state :- StateFrom(v);
      return Ok(f.(negState := Some(state)));
    } else if tlv.tag == TAG_CONTEXT_1 {
      var inner :- ReadSingleTlv(tlv.value, TAG_OID);
      var oid :- ReadOid(Tlv(TAG_OID, inner));
      return Ok(f.(supportedMech := Some(oid)));
    } else if tlv.tag == TAG_CONTEXT_2 {
      var inner :- ReadSingleTlv(tlv.value, TAG_OCTET_STRING);
      return Ok(f.(responseToken := Some(inner)));
    } else if tlv.tag == TAG_CONTEXT_3 {
      var inner :- ReadSingleTlv(tlv.value, TAG_OCTET_STRING);
      return Ok(f.(mechListMic := Some(inner)));
    }
    return Err(UnexpectedTag(TAG_CONTEXT_0, tlv.tag));
  }

  /** `decode_neg_token_resp`. */
  method ReadResp(s: seq<byte>) returns (r: Result<NegTokenResp, Error>)
    ensures r == DecodeResp(s)
  {
    var body :- ReadSingleTlv(s, TAG_SEQUENCE);
    var fields := new DerReader(body);
    var f := NO_RESP_FIELDS;
    while fields.Remaining() != []
      invariant fields.Valid()
      invariant RespLoop(body, NO_RESP_FIELDS) == RespLoop(fields.Remaining(), f)
      decreases |fields.Remaining()|
    {
      var field :- fields.ReadTlvAt();
      f :- TakeResp(f, field);
    }
    return Ok(f);
  }

  /** `NegotiationToken::decode`. */
  method ReadChoice(s: seq<byte>) returns (r: Result<SpnegoToken, Error>)
    ensures r == DecodeChoice(s)
  {
    var outer := new DerReader(s);
    var choice :- outer.ReadTlvAt();
    var _ :- outer.Finish();
    if choice.tag == TAG_CONTEXT_0 {
      var t :- ReadInit(choice.value);
      return Ok(Init(t));
    } else if choice.tag == TAG_CONTEXT_1 {
      var t :- ReadResp(choice.value);
      return Ok(Resp(t));
    }
    return Err(UnexpectedTag(TAG_CONTEXT_0, choice.tag));
  }

  /** `SpnegoToken::decode`. */
  method ReadToken(s: seq<byte>) returns (r: Result<SpnegoToken, Error>)
    ensures r == DecodeToken(s)
  {
    hide DecodeChoice, DecodeOid, ReadTlv;
    if s == [] { return Err(EmptyInput); }
    if s[0] == TAG_APPLICATION_0 {
      var outer := new DerReader(s);
      var token :- outer.ReadTlvAt();
      var _ :- outer.Finish();
      var content := new DerReader(token.value);
      var oidTlv :- content.ReadTlvAt();
      var oid :- ReadOid(oidTlv);
      if oid != SPNEGO { return Err(UnexpectedSpnegoOid(oid)); }
      var t :- ReadChoice(content.Remaining());
      if t.Resp? { return Err(UnexpectedInitOrResp); }
      return Ok(t);
    }
    r := ReadChoice(s);
  }

  /** `Krb5MechToken::decode`. */
  method ReadMech(s: seq<byte>) returns (r: Result<Krb5MechToken, Error>)
    ensures r == DecodeMech(s)
  {
    var value :- ReadSingleTlv(s, TAG_APPLICATION_0);
    var content := new DerReader(value);
    var oidTlv :- content.ReadTlvAt();
    var oid :- ReadOid(oidTlv);
    if oid != KRB5 { return Err(UnsupportedMechanism(oid)); }
    var tokId :- content.ReadBytes(2);
    var id :- TokenIdFrom(tokId);
    var message := content.Remaining();
    if message == [] { return Err(MissingKerberosMessage); }
    return Ok(Krb5MechToken(oid, id, message));
  }
}
