/** The client side: what every function of ud.c does to the data of one client context. */
module UserDevice {
  import opened Bytes
  import opened Cbor
  import opened Packets
  import opened Padding
  import opened Environment
  import opened Encoding
  import opened Domain

  datatype Ud = Ud(
    state: State, ceremony: Ceremony, challenge: Option<bytes>, rpId: Option<bytes>, rpName: Option<bytes>,
    userVerification: int, attestation: nat, residentKey: nat, authAttach: nat, timeout: int,
    userId: Option<bytes>, userName: Option<bytes>, displayName: Option<bytes>, displayLen: nat,
    ephUserId: Option<bytes>, gcmKey: Option<bytes>, ticket: Option<bytes>, params: seq<CredParam>,
    exclude: seq<Descriptor>, allow: seq<Descriptor>, extensions: Option<seq<Extension>>,
    origin: Option<bytes>, effectiveDomain: Option<bytes>, clientData: Option<bytes>)

  datatype UdStep = UdStep(ud: Ud, ret: Ret)

  // ---------------------------------------------------------------- options

  datatype ClientMode = RegisterMode | DiscoverableMode | ServerSideMode

  datatype ClientOpts = ClientOpts(
    mode: ClientMode, userName: Option<bytes>, displayName: Option<bytes>, ticket: Option<bytes>, pin: Option<bytes>)

  const BLANK := Ud(
    Initial, Undefined, None, None, None, 0, 0, 0, 0, 0, None, None, None, 0, None, None, None, [], [], [], None,
    None, None, None)

  /**
    `init_ud`: the mode fixes ceremony and initial state; only a registration needs a name and a ticket. Without a pin there
    is never a context: a registration is refused, and in the other modes the process ends when the pin is duplicated.
   */
  function InitUd(opts: ClientOpts): Option<Ud> {
    if opts.pin.None? then None else
    match opts.mode
    case RegisterMode =>
      if opts.ticket.None? || opts.displayName.None? then None
      else
        var ticket :- DecodeBase64(opts.ticket.value);
        Some(BLANK.(state := RegInitial, ceremony := Registration, ticket := Some(ticket), displayName := opts.displayName))
    case DiscoverableMode => Some(BLANK.(state := AuthInitialDiscoverable, ceremony := AuthDiscoverable))
    case ServerSideMode =>
      Some(BLANK.(state := AuthInitialServerSide, ceremony := AuthServerSide, userName := opts.userName))
  }

  // ---------------------------------------------------------------- indications

  /** The registration indication, once the length of the name is known. */
  function RegIndicationRet(env: Env, d: Ud): Ret {
    if d.ephUserId.None? || |d.ephUserId.value| != 256 then Failed
    else if d.displayName.None? || !Paddable(d.displayName.value) then Failed
    else if d.ticket.None? || |d.ticket.value| != 256 then Failed
    else
      match BuildInner(EncryptedDataItems(EncryptedData(Pad(d.displayName.value), d.ticket.value)))
      case None => Failed
      case Some(plain) =>
        match Encrypt(env, d.gcmKey, PKT_REG_INDICATION, plain)
        case None => Failed
        case Some(encrypted) => BuildRet(RegIndication(d.ephUserId.value, encrypted))
  }

  /** `create_reg_indication`: the length is recorded once the ephemeral id and the name are known to be there. */
  function CreateRegIndication(env: Env, d: Ud): UdStep {
    if d.ephUserId.Some? && |d.ephUserId.value| == 256 && d.displayName.Some? then
      UdStep(d.(displayLen := |d.displayName.value|), RegIndicationRet(env, d))
    else
      UdStep(d, RegIndicationRet(env, d))
  }

  /** `create_auth_indication_server_side`; without a user name the process ends. */
  function CreateAuthIndicationServerSide(env: Env, d: Ud): UdStep {
    if d.userName.None? then UdStep(d, Aborted)
    else if !Paddable(d.userName.value) then UdStep(d, Failed)
    else
      match Encrypt(env, d.gcmKey, PKT_AUTH_INDICATION_SERVER_SIDE, Pad(d.userName.value))
      case None => UdStep(d, Failed)
      case Some(encrypted) =>
        var eph := if d.ephUserId.Some? then d.ephUserId.value else [];
        UdStep(d, BuildRet(AuthIndicationServerSide(eph, encrypted)))
  }

  // ---------------------------------------------------------------- requests

  /** `process_pre_response`. */
  function ProcessPreResponse(d: Ud, input: bytes): UdStep {
    match Parse(input, PKT_PRE_RESPONSE)
    case Some(PreResponse(eph, key)) => UdStep(d.(ephUserId := Some(eph), gcmKey := Some(key)), Accepted)
    case _ => UdStep(d, Failed)
  }

  /** The decrypted part of a registration request with the padding removed. */
  datatype OpenSecret = OpenSecret(userName: bytes, displayName: bytes, userId: bytes, exclude: seq<Descriptor>)

  function OpenRegRequest(env: Env, d: Ud, encrypted: bytes): Option<OpenSecret> {
    var plain :- Decrypt(env, d.gcmKey, PKT_REG_REQUEST, encrypted);
    var secret :- ParseRegSecret(plain);
    var userName :- if |secret.userName| == BLOCK then Unpad(secret.userName) else None;
    var displayName :- if |secret.displayName| == BLOCK then Unpad(secret.displayName) else None;
    Some(OpenSecret(userName, displayName, secret.userId, secret.exclude))
  }

  /** The server repeats the name that this client asked to be registered. */
  predicate SameName(d: Ud, name: bytes) {
    d.displayLen == |name| && d.displayName.Some? && |name| <= |d.displayName.value| && d.displayName.value[..|name|] == name
  }

  /** An optional field of a message replaces the value a context has only if it is there. */
  function IfSet(n: int, before: int): int {
    if n != 0 then n else before
  }

  function IfChosen(n: nat, before: nat): nat {
    if n != 0 then n else before
  }

  function IfGiven<T>(o: Option<T>, before: Option<T>): Option<T> {
    if o.Some? then o else before
  }

  function IfListed(ds: seq<Descriptor>, before: seq<Descriptor>): seq<Descriptor> {
    if ds != [] then ds else before
  }

  function StoreRegRequest(d: Ud, p: RegRequest, s: OpenSecret): Ud {
    d.(userName := Some(CStr(s.userName)), userId := Some(s.userId),
       exclude := IfListed(s.exclude, d.exclude),
       challenge := Some(p.challenge), rpId := Some(p.rpId), rpName := Some(p.rpName), params := p.params,
       timeout := IfSet(p.timeout, d.timeout),
       authAttach := IfChosen(p.sel.attachment, d.authAttach),
       residentKey := IfChosen(p.sel.residentKey, d.residentKey),
       userVerification := IfSet(p.sel.userVerification, d.userVerification),
       attestation := IfChosen(p.attestation, d.attestation),
       extensions := IfGiven(p.extensions, d.extensions))
  }

  /** `process_reg_request`. */
  function ProcessRegRequest(env: Env, d: Ud, input: bytes): UdStep {
    match Parse(input, PKT_REG_REQUEST)
    case Some(RegRequestPkt(p)) =>
      if d.gcmKey.None? || |d.gcmKey.value| != 32 then UdStep(d, Aborted)
      else
        (match OpenRegRequest(env, d, p.encrypted)
        case Some(s) => if SameName(d, s.displayName) then UdStep(StoreRegRequest(d, p, s), Accepted) else UdStep(d, Failed)
        case None => UdStep(d, Failed))
    case _ => UdStep(d, Failed)
  }

  /** The fields that are taken over before the allow list is looked at; an empty challenge is a null pointer. */
  function StoreAuthRequest(d: Ud, p: AuthRequest): Ud {
    d.(challenge := if p.challenge == [] then None else Some(p.challenge),
       rpId := IfGiven(p.rpId, d.rpId),
       userVerification := IfSet(p.userVerification, d.userVerification),
       timeout := IfSet(p.timeout, d.timeout))
  }

  function OpenAllowList(env: Env, d: Ud, encrypted: Option<bytes>): Option<seq<Descriptor>> {
    var cipher :- encrypted;
    var plain :- Decrypt(env, d.gcmKey, PKT_AUTH_REQUEST, cipher);
    ParseAllowList(plain)
  }

  function StoreExtensions(d: Ud, es: Option<seq<Extension>>): Ud {
    if es.Some? then d.(extensions := es) else d
  }

  /** `process_auth_request`: the server-side ceremony needs an allow list, the discoverable one must not have any. */
  function ProcessAuthRequest(env: Env, d0: Ud, input: bytes): UdStep {
    match Parse(input, PKT_AUTH_REQUEST)
    case Some(AuthRequestPkt(p)) =>
      var d := StoreAuthRequest(d0, p);
      if d.ceremony == AuthServerSide then
        match OpenAllowList(env, d, p.allow)
        case None => UdStep(d, Failed)
        case Some(ds) => UdStep(StoreExtensions(d.(allow := ds), p.extensions), Accepted)
      else if d.ceremony == AuthDiscoverable && p.allow.Some? then UdStep(d, Failed)
      else UdStep(StoreExtensions(d, p.extensions), Accepted)
    case _ => UdStep(d0, Failed)
  }

  // ---------------------------------------------------------------- responses

  /** What the authenticator returns at a registration and at an authentication. */
  datatype Assertion = Assertion(authData: bytes, signature: bytes, userId: bytes, credId: bytes)

  function Https(host: bytes): bytes {
    Chars("https://") + host
  }

  /** Origin and effective domain come from the server name; the relying party id must suit it. */
  function ValidateRpId(env: Env, d0: Ud, sni: Option<bytes>): (Ud, bool) {
    var origin := if sni.Some? then Some(Https(sni.value)) else None;
    var d := d0.(origin := origin, effectiveDomain := sni);
    if d.rpId.None? then (d.(rpId := sni), true)
    else (d, sni.Some? && Accepts(sni.value, d.rpId.value, env.publicSuffix))
  }

  /** `generate_clientdata` asserts that there are a challenge and an origin. */
  predicate ClientDataAsserts(d: Ud) {
    d.challenge.Some? && d.challenge.value != [] && d.origin.Some?
  }

  function ClientDataOf(env: Env, d: Ud, kind: bytes): bytes
    requires ClientDataAsserts(d)
  {
    CStr(env.writeJson(ClientData(Some(kind), Some(UrlText(d.challenge.value)), d.origin, true)))
  }

  /** `create_reg_response`; `attObj` is what the authenticator produced, which is never empty. */
  function CreateRegResponse(env: Env, d0: Ud, sni: Option<bytes>, attObj: Option<bytes>): UdStep {
    var (d, valid) := ValidateRpId(env, d0, sni);
    if !valid then UdStep(d, Failed)
    else if !ClientDataAsserts(d) then UdStep(d, Aborted)
    else
      var json := ClientDataOf(env, d, Chars("webauthn.create"));
      var d1 := d.(clientData := Some(json));
      if attObj.None? || attObj.value == [] || |attObj.value| > 8192 then UdStep(d1, Failed)
      else UdStep(d1, BuildRet(RegResponse(attObj.value, json)))
  }

  /** The user handle must be 64 bytes, or absent in the server-side ceremony; nothing else may be missing. */
  predicate AssertionComplete(d: Ud, a: Assertion) {
    && (|a.userId| == 64 || (a.userId == [] && d.ceremony == AuthServerSide))
    && a.authData != [] && a.signature != [] && a.credId != []
  }

  /** `create_auth_response`. */
  function CreateAuthResponse(env: Env, d0: Ud, sni: Option<bytes>, assertion: Option<Assertion>): UdStep {
    var (d, valid) := ValidateRpId(env, d0, sni);
    if !valid then UdStep(d, Failed)
    else if !ClientDataAsserts(d) then UdStep(d, Aborted)
    else
      var json := ClientDataOf(env, d, Chars("webauthn.get"));
      var d1 := d.(clientData := Some(json));
      if d.ceremony == AuthServerSide && d.allow == [] then UdStep(d1, Failed)
      else
        match assertion
        case None => UdStep(d1, Failed)
        case Some(a) =>
          if !AssertionComplete(d1, a) then UdStep(d1, Failed)
          else
            UdStep(d1.(userId := if a.userId == [] then None else Some(a.userId)),
                   BuildRet(AuthResponsePkt(AuthResponse(json, a.authData, a.signature, a.userId, a.credId))))
  }

  // ---------------------------------------------------------------- callbacks

  /** What the client's environment supplies to a step. */
  datatype Device = Device(sni: Option<bytes>, attObj: Option<bytes>, assertion: Option<Assertion>)

  function Enter(s: UdStep, state: State): UdStep {
    if s.ret.Sent? || s.ret.Accepted? then s.(ud := s.ud.(state := state)) else s
  }

  /** `fidossl_client_add_cb`. */
  function ClientAdd(env: Env, d: Ud, ext: int, context: Context, device: Device): UdStep {
    if ext != FIDOSSL_EXT_TYPE then UdStep(d, Skipped)
    else if context == ClientHello then
      match d.state
      case RegInitial => Enter(UdStep(d, BuildRet(PreIndication)), PreIndicationSent)
      case AuthInitialServerSide => Enter(UdStep(d, BuildRet(PreIndication)), PreIndicationSent)
      case AuthInitialDiscoverable =>
        Enter(UdStep(d, BuildRet(AuthIndicationDiscoverable)), AuthIndicationDiscoverableSent)
      case PreResponseReceived =>
        if d.ceremony == Registration then Enter(CreateRegIndication(env, d), RegIndicationSent)
        else if d.ceremony == AuthServerSide then
          Enter(CreateAuthIndicationServerSide(env, d), AuthIndicationServerSideSent)
        else UdStep(d, Failed)
      case _ => UdStep(d, Failed)
    else if context == Certificate then
      match d.state
      case RegRequestReceived => Enter(CreateRegResponse(env, d, device.sni, device.attObj), RegResponseSent)
      case AuthRequestReceived => Enter(CreateAuthResponse(env, d, device.sni, device.assertion), AuthResponseSent)
      case RegResponseSent => UdStep(d, Skipped)
      case PreResponseReceived => UdStep(d, Skipped)
      case AuthResponseSent => UdStep(d, Skipped)
      case _ => UdStep(d, Failed)
    else UdStep(d, Failed)
  }

  /** `fidossl_client_parse_cb`. */
  function ClientParse(env: Env, d: Ud, ext: int, context: Context, input: bytes): UdStep {
    if ext != FIDOSSL_EXT_TYPE then UdStep(d, Skipped)
    else if context == CertificateRequest then
      match d.state
      case PreIndicationSent => Enter(ProcessPreResponse(d, input), PreResponseReceived)
      case RegIndicationSent => Enter(ProcessRegRequest(env, d, input), RegRequestReceived)
      case AuthIndicationDiscoverableSent => Enter(ProcessAuthRequest(env, d, input), AuthRequestReceived)
      case AuthIndicationServerSideSent => Enter(ProcessAuthRequest(env, d, input), AuthRequestReceived)
      case _ => UdStep(d, Failed)
    else if context == Certificate then UdStep(d, Skipped)
    else UdStep(d, Failed)
  }
}
