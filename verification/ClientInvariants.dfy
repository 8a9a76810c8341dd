/** What every state of a client context promises, how far a client gets and when one of its assertions fails. */
module ClientInvariants {
  import opened Bytes
  import opened Cbor
  import opened Packets
  import opened OptionalMaps
  import opened Padding
  import opened Environment
  import opened Domain
  import opened UserDevice

  predicate HasKeyAndId(d: Ud) {
    d.gcmKey.Some? && |d.gcmKey.value| == 32 && d.ephUserId.Some? && |d.ephUserId.value| == 256
  }

  /** The ceremonies that begin with a pre-indication; only a registration is sure to have its name. */
  predicate NeedsKey(d: Ud) {
    (d.ceremony == Registration && d.displayName.Some?) || d.ceremony == AuthServerSide
  }

  predicate RequestStored(d: Ud) {
    && d.challenge.Some? && 16 <= |d.challenge.value| <= 64 && d.rpId.Some? && d.rpName.Some?
    && d.userName.Some? && d.userId.Some? && |d.userId.value| == 64 && d.params != []
  }

  predicate UdInv(d: Ud) {
    && (d.challenge.Some? ==> d.challenge.value != [])
    && match d.state
       case RegInitial => d.ceremony == Registration && NeedsKey(d)
       case AuthInitialServerSide => d.ceremony == AuthServerSide
       case AuthInitialDiscoverable => d.ceremony == AuthDiscoverable
       case PreIndicationSent => NeedsKey(d)
       case PreResponseReceived => NeedsKey(d) && HasKeyAndId(d)
       case RegIndicationSent =>
         d.ceremony == Registration && NeedsKey(d) && HasKeyAndId(d) && d.displayLen == |d.displayName.value|
       case AuthIndicationServerSideSent => d.ceremony == AuthServerSide && HasKeyAndId(d)
       case AuthIndicationDiscoverableSent => d.ceremony == AuthDiscoverable
       case RegRequestReceived => d.ceremony == Registration && RequestStored(d)
       case AuthRequestReceived => d.ceremony == AuthDiscoverable || (d.ceremony == AuthServerSide && d.allow != [])
       case RegResponseSent => d.ceremony == Registration && RequestStored(d) && d.clientData.Some?
       case AuthResponseSent => d.ceremony in {AuthDiscoverable, AuthServerSide} && d.clientData.Some?
       case _ => false
  }

  lemma {:induction false} InitKeeps(opts: ClientOpts)
    requires InitUd(opts).Some?
    ensures UdInv(InitUd(opts).value)
  {
    hide Encoding.DecodeBase64;
  }

  // ---------------------------------------------------------------- what the parser guarantees

  lemma {:induction false} RegRequestFacts(input: bytes, p: RegRequest)
    requires Parse(input, PKT_REG_REQUEST) == Some(RegRequestPkt(p))
    ensures 16 <= |p.challenge| <= 64 && p.params != []
  {
    var (t, n, c) := ReadType(input).value;
    assert ReadRegRequest(c, n) == Some(p);
    var (q, c1) := ReadRegRequired(c).value;
    RegRequiredFacts(c);
    hide ReadRegRequired, ReadRegOptions;
    if n == 7 {
      OptionsKeepRequired(EnterMap(c1).value.1, q);
    }
  }

  lemma {:induction false} RegRequiredFacts(c: Cur)
    requires ReadRegRequired(c).Some?
    ensures var p := ReadRegRequired(c).value.0; 16 <= |p.challenge| <= 64 && p.params != []
  {
    hide ReadString, ReadParams, CStr;
    var c1 := ReadText(c).value.1;
    var c2 := ReadText(c1).value.1;
    var c3 := ReadBytes(c2).value.1;
    ParamArrayFacts(c3);
    hide ReadText, ReadBytes, ReadParamArray;
  }

  lemma {:induction false} ParamArrayFacts(c: Cur)
    requires ReadParamArray(c).Some?
    ensures ReadParamArray(c).value.0 != []
  {
    var (n, d) := EnterArray(c).value;
    ParamsCount(d, n, []);
  }

  lemma {:induction false} ParamsCount(c: Cur, n: nat, acc: seq<CredParam>)
    requires ReadParams(c, n, acc).Some?
    ensures |ReadParams(c, n, acc).value.0| == |acc| + n
    decreases n
  {
    hide ReadParam;
    if n > 0 {
      var (p, d) := ReadParam(c).value;
      ParamsCount(d, n - 1, acc + [p]);
    }
  }

  predicate SameRequired(p: RegRequest, q: RegRequest) {
    p.challenge == q.challenge && p.params == q.params && p.rpId == q.rpId && p.encrypted == q.encrypted
  }

  lemma {:induction false} OptionsKeepRequired(c: Cur, p: RegRequest)
    requires ReadRegOptions(c, p).Some?
    ensures SameRequired(p, ReadRegOptions(c, p).value.0)
    decreases c.left
  {
    hide ReadUInt, EnterMap, ReadCriteria, ReadExtensions, Advance;
    if c.left > 0 {
      var (key, d) := ReadUInt(c).value;
      if key == TIMEOUT {
        var (ms, d) := ReadUInt(d).value;
        OptionsKeepRequired(d, p.(timeout := ms % TWO32));
      } else if key == AUTH_SEL {
        var (_, e) := EnterMap(d).value;
        var (sel, f) := ReadCriteria(e, p.sel).value;
        OptionsKeepRequired(Leave(d, f), p.(sel := sel));
      } else if key == ATTESTATION {
        var (preference, d) := ReadUInt(d).value;
        OptionsKeepRequired(d, p.(attestation := preference));
      } else if key == EXTENSIONS {
        var (es, d) := ReadExtensions(d).value;
        OptionsKeepRequired(d, p.(extensions := es));
      } else {
        OptionsKeepRequired(Advance(d).value, p);
      }
    }
  }

  lemma {:induction false} AllowListFacts(input: bytes)
    requires ParseAllowList(input).Some?
    ensures ParseAllowList(input).value != []
  {
    var (n, c) := EnterArray(Cur(input, 1)).value;
    DescriptorsCount(c, n, []);
  }

  lemma {:induction false} DescriptorsCount(c: Cur, n: nat, acc: seq<Descriptor>)
    requires ReadDescriptors(c, n, acc).Some?
    ensures |ReadDescriptors(c, n, acc).value.0| == |acc| + n
    decreases n
  {
    hide ReadDescriptor;
    if n > 0 {
      var (p, d) := ReadDescriptor(c).value;
      DescriptorsCount(d, n - 1, acc + [p]);
    }
  }

  lemma {:induction false} PreResponseFacts(input: bytes, eph: bytes, key: bytes)
    requires Parse(input, PKT_PRE_RESPONSE) == Some(PreResponse(eph, key))
    ensures |eph| == 256 && |key| == 32
  {
    hide ReadBytes, EnterArray, ReadInt, ReadRegRequest, ReadAuthRequest, ReadAuthResponse, ReadRegResponse;
  }

  lemma {:induction false} SecretFacts(input: bytes)
    requires ParseRegSecret(input).Some?
    ensures |ParseRegSecret(input).value.userId| == 64
  {
    hide ReadBytes, EnterArray, ReadDescriptorArray;
  }

  // ---------------------------------------------------------------- the steps

  /** The step keeps the invariant and does not end the process. */
  predicate Kept(s: UdStep) {
    UdInv(s.ud) && s.ret != Aborted
  }

  lemma {:induction false} RegIndicationKeeps(env: Env, d: Ud)
    requires CipherLaws(env) && UdInv(d) && d.state == PreResponseReceived && d.ceremony == Registration
    ensures Kept(Enter(CreateRegIndication(env, d), RegIndicationSent))
  {
    hide Build, BuildInner, MessageIv, CipherLaws;
    forall plain | Encrypt(env, d.gcmKey, PKT_REG_INDICATION, plain).Some?
      ensures Encrypt(env, d.gcmKey, PKT_REG_INDICATION, plain).value != []
    {
      DecryptEncrypt(env, d.gcmKey, PKT_REG_INDICATION, plain);
    }
  }

  lemma {:induction false} AuthIndicationKeeps(env: Env, d: Ud)
    requires UdInv(d) && d.state == PreResponseReceived && d.ceremony == AuthServerSide
    ensures UdInv(Enter(CreateAuthIndicationServerSide(env, d), AuthIndicationServerSideSent).ud)
    ensures CreateAuthIndicationServerSide(env, d).ret == Aborted <==> d.userName.None?
  {
    hide Build, MessageIv;
  }

  lemma {:induction false} PreResponseKeeps(d: Ud, input: bytes)
    requires UdInv(d) && d.state == PreIndicationSent
    ensures Kept(Enter(ProcessPreResponse(d, input), PreResponseReceived))
  {
    hide Parse;
    match Parse(input, PKT_PRE_RESPONSE)
    case Some(PreResponse(eph, key)) => PreResponseFacts(input, eph, key);
    case _ =>
  }

  lemma {:induction false} RegRequestKeeps(env: Env, d: Ud, input: bytes)
    requires UdInv(d) && d.state == RegIndicationSent
    ensures Kept(Enter(ProcessRegRequest(env, d, input), RegRequestReceived))
  {
    hide Parse, Decrypt, ParseRegSecret, Unpad, CStr;
    match Parse(input, PKT_REG_REQUEST)
    case Some(RegRequestPkt(p)) =>
      RegRequestFacts(input, p);
      var plain := Decrypt(env, d.gcmKey, PKT_REG_REQUEST, p.encrypted);
      if plain.Some? && ParseRegSecret(plain.value).Some? {
        SecretFacts(plain.value);
      }
    case _ =>
  }

  lemma {:induction false} AuthRequestKeeps(env: Env, d: Ud, input: bytes)
    requires UdInv(d) && d.state in {AuthIndicationDiscoverableSent, AuthIndicationServerSideSent}
    ensures Kept(Enter(ProcessAuthRequest(env, d, input), AuthRequestReceived))
  {
    hide Parse, Decrypt, ParseAllowList;
    match Parse(input, PKT_AUTH_REQUEST)
    case Some(AuthRequestPkt(p)) =>
      var q := StoreAuthRequest(d, p);
      if OpenAllowList(env, q, p.allow).Some? {
        AllowListFacts(Decrypt(env, q.gcmKey, PKT_AUTH_REQUEST, p.allow.value).value);
      }
    case _ =>
  }

  lemma {:induction false} RegResponseKeeps(env: Env, d: Ud, sni: Option<bytes>, attObj: Option<bytes>)
    requires UdInv(d) && d.state == RegRequestReceived
    ensures Kept(Enter(CreateRegResponse(env, d, sni, attObj), RegResponseSent))
  {
    hide Build, ClientDataOf, Accepts;
  }

  /**
    When the assertion on challenge and origin fails: the request had an empty challenge and its relying party id is
    accepted, or there is neither a relying party id nor a server name.
   */
  predicate AssertionFails(env: Env, d: Ud, sni: Option<bytes>) {
    || (d.rpId.None? && sni.None?)
    || (d.challenge.None? && (d.rpId.None? || (sni.Some? && Accepts(sni.value, d.rpId.value, env.publicSuffix))))
  }

  lemma {:induction false} AuthResponseAborts(env: Env, d: Ud, sni: Option<bytes>, assertion: Option<Assertion>)
    requires UdInv(d) && d.state == AuthRequestReceived
    ensures CreateAuthResponse(env, d, sni, assertion).ret == Aborted <==> AssertionFails(env, d, sni)
    ensures UdInv(Enter(CreateAuthResponse(env, d, sni, assertion), AuthResponseSent).ud)
  {
    hide Build, ClientDataOf, Accepts;
  }

  datatype ClientCall =
    | ClientAdds(ext: int, context: Context, device: Device)
    | ClientParses(ext: int, context: Context, input: bytes)

  function ClientPerform(env: Env, d: Ud, call: ClientCall): UdStep {
    match call
    case ClientAdds(ext, context, device) => ClientAdd(env, d, ext, context, device)
    case ClientParses(ext, context, input) => ClientParse(env, d, ext, context, input)
  }

  /** The callback that offers a server-side authentication, if the client was configured without a user name. */
  predicate NameMissing(d: Ud, call: ClientCall) {
    && d.state == PreResponseReceived && d.ceremony == AuthServerSide && d.userName.None?
    && call.ClientAdds? && call.ext == FIDOSSL_EXT_TYPE && call.context == ClientHello
  }

  /** The only callback in which an assertion can fail. */
  predicate Responding(d: Ud, call: ClientCall) {
    d.state == AuthRequestReceived && call.ClientAdds? && call.ext == FIDOSSL_EXT_TYPE && call.context == Certificate
  }

  lemma {:induction false} ConstantsBuild()
    ensures BuildRet(PreIndication) != Aborted && BuildRet(AuthIndicationDiscoverable) != Aborted
  {
  }

  /**
    Every step keeps the invariant. The process ends exactly when the assertion in `generate_clientdata` fails, or when
    the length of a user name that is not there is taken.
   */
  lemma {:induction false} ClientKeeps(env: Env, d: Ud, call: ClientCall)
    requires CipherLaws(env) && UdInv(d)
    ensures UdInv(ClientPerform(env, d, call).ud)
    ensures ClientPerform(env, d, call).ret == Aborted <==>
              (Responding(d, call) && AssertionFails(env, d, call.device.sni)) || NameMissing(d, call)
  {
    hide BuildRet, CreateRegIndication, CreateAuthIndicationServerSide, CreateRegResponse, CreateAuthResponse;
    hide ProcessPreResponse, ProcessRegRequest, ProcessAuthRequest, AssertionFails, CipherLaws;
    ConstantsBuild();
    match call
    case ClientAdds(ext, context, device) =>
      match d.state {
        case PreResponseReceived =>
          if d.ceremony == Registration {
            RegIndicationKeeps(env, d);
          } else {
            AuthIndicationKeeps(env, d);
          }
        case RegRequestReceived => RegResponseKeeps(env, d, device.sni, device.attObj);
        case AuthRequestReceived => AuthResponseAborts(env, d, device.sni, device.assertion);
        case _ =>
      }
    case ClientParses(ext, context, input) =>
      match d.state {
        case PreIndicationSent => PreResponseKeeps(d, input);
        case RegIndicationSent => RegRequestKeeps(env, d, input);
        case AuthIndicationDiscoverableSent => AuthRequestKeeps(env, d, input);
        case AuthIndicationServerSideSent => AuthRequestKeeps(env, d, input);
        case _ =>
      }
  }

  // ---------------------------------------------------------------- configured clients that end

  /** An authentication request with an empty challenge and no optional field. */
  const EMPTY_REQUEST: bytes := [0x82, 0x08, 0x40]

  lemma {:induction false} EmptyRequestType()
    ensures ReadType(EMPTY_REQUEST) == Some((PKT_AUTH_REQUEST, 2, Cur([0x40], 1)))
  {
    hide FromBigEndian, Pow256;
    assert ReadHead(EMPTY_REQUEST) == Some(Head(4, 2, EMPTY_REQUEST[1..]));
    assert EMPTY_REQUEST[1..] == [0x08, 0x40];
    assert ReadHead([0x08, 0x40]) == Some(Head(0, 8, [0x08, 0x40][1..]));
    assert [0x08, 0x40][1..] == [0x40];
  }

  lemma {:induction false} EmptyRequestFields()
    ensures ReadAuthRequest(Cur([0x40], 1)) == Some(AuthRequest([], None, 0, 0, None, None))
  {
    hide FromBigEndian, Pow256, ReadAuthOptions;
    assert ReadHead([0x40]) == Some(Head(2, 0, [0x40][1..]));
    assert [0x40][1..] == [];
  }

  lemma {:induction false} EmptyRequestParses()
    ensures Parse(EMPTY_REQUEST, PKT_AUTH_REQUEST) == Some(AuthRequestPkt(AuthRequest([], None, 0, 0, None, None)))
  {
    hide ReadType, ReadAuthRequest, ReadRegRequest, ReadAuthResponse, ReadEphAndBytes, ReadRegResponse;
    EmptyRequestType();
    EmptyRequestFields();
  }

  /** The client and the way each of three callbacks ends. */
  function AfterThree(env: Env, d: Ud, first: ClientCall, second: ClientCall, third: ClientCall): UdStep {
    ClientPerform(env, ClientPerform(env, ClientPerform(env, d, first).ud, second).ud, third)
  }

  /**
    A client configured for discoverable credentials gets there: a request with an empty challenge is accepted, and the
    assertion fails when the response is made, whether or not there is a server name.
   */
  lemma {:induction false} EmptyChallengeEnds(env: Env, opts: ClientOpts, device: Device)
    requires opts.mode == DiscoverableMode && opts.pin.Some?
    ensures AfterThree(env, InitUd(opts).value,
                       ClientAdds(FIDOSSL_EXT_TYPE, ClientHello, device),
                       ClientParses(FIDOSSL_EXT_TYPE, CertificateRequest, EMPTY_REQUEST),
                       ClientAdds(FIDOSSL_EXT_TYPE, Certificate, device)).ret == Aborted
  {
    EmptyRequestParses();
    hide Parse, PacketType;
  }

  /** A client configured for server-side credentials without a user name ends once any pre-response has been taken. */
  lemma {:induction false} NamelessClientEnds(env: Env, opts: ClientOpts, device: Device, input: bytes)
    requires opts.mode == ServerSideMode && opts.pin.Some? && opts.userName.None?
    requires Parse(input, PKT_PRE_RESPONSE).Some? && Parse(input, PKT_PRE_RESPONSE).value.PreResponse?
    ensures AfterThree(env, InitUd(opts).value,
                       ClientAdds(FIDOSSL_EXT_TYPE, ClientHello, device),
                       ClientParses(FIDOSSL_EXT_TYPE, CertificateRequest, input),
                       ClientAdds(FIDOSSL_EXT_TYPE, ClientHello, device)).ret == Aborted
  {
    hide Parse, PacketType;
  }
}
