/** The server side: what every function of rp.c does to the data of one server context and to the store. */
module RelyingParty {
  import opened Bytes
  import opened Cbor
  import opened Packets
  import opened Padding
  import opened Environment
  import opened Store
  import opened AuthenticatorData
  import opened Encoding

  datatype Rp = Rp(
    state: State, ceremony: Ceremony, challenge: Option<bytes>, rpId: bytes, rpName: bytes,
    userVerification: nat, residentKey: nat, authAttach: nat, attestation: nat, timeout: uint32,
    kEp: bytes, ephLen: nat, userId: Option<bytes>, userName: Option<bytes>, displayName: Option<bytes>,
    gcmKey: Option<bytes>, ticket: Option<bytes>, allow: seq<Descriptor>, dbOpen: bool)

  /** A step: the new context, the new store and how the callback ends. */
  datatype RpStep = RpStep(rp: Rp, db: Db, ret: Ret)

  /** Bytes drawn from the random number generator. */
  datatype Random = Random(eph: bytes, challenge: bytes, userId: bytes)

  predicate RandomLengths(rnd: Random) {
    |rnd.eph| == 256 && |rnd.challenge| == 32 && |rnd.userId| == 64
  }

  // ---------------------------------------------------------------- options

  datatype ServerOpts = ServerOpts(
    rpId: Option<bytes>, rpName: Option<bytes>, ticket: Option<bytes>,
    userVerification: nat, residentKey: nat, authAttach: nat, attestation: nat, timeout: nat)

  /** `init_rp`: the ticket is given in base64. */
  function InitRp(opts: ServerOpts, kEp: bytes): Option<Rp> {
    if opts.rpId.None? || opts.rpName.None? then None
    else
      var ticket := if opts.ticket.None? then None else DecodeBase64(opts.ticket.value);
      if opts.ticket.Some? && ticket.None? then None
      else
        Some(Rp(Initial, Undefined, None, opts.rpId.value, opts.rpName.value, opts.userVerification, opts.residentKey,
                opts.authAttach, opts.attestation, opts.timeout % TWO32, kEp, 0, None, None, None, None, ticket, [], true))
  }

  // ---------------------------------------------------------------- checks

  function KindOf(mode: Mode): bytes {
    if mode == Register then Chars("webauthn.create") else Chars("webauthn.get")
  }

  function OriginOf(rpId: bytes): bytes {
    Chars("https://") + rpId
  }

  /** Type, origin, crossOrigin and challenge are all as expected. */
  predicate ClientDataMatches(cd: ClientData, rpId: bytes, challenge: bytes, mode: Mode) {
    && cd.kind.Some? && CStr(cd.kind.value) == KindOf(mode)
    && cd.origin.Some? && CStr(cd.origin.value) == OriginOf(rpId)
    && cd.crossOriginFalse
    && cd.challenge.Some? && UrlDecode(CStr(cd.challenge.value)) == Some(challenge)
  }

  /** `verify_clientdata`. */
  function VerifyClientData(env: Env, d: Rp, clientData: bytes, mode: Mode): Ret {
    if d.challenge.None? || d.challenge.value == [] then Aborted
    else
      var cd := env.readJson(clientData);
      if cd.Some? && ClientDataMatches(cd.value, d.rpId, d.challenge.value, mode) then Accepted else Failed
  }

  /** `verify_authdata` for an authentication: the counters are compared as signed numbers. */
  predicate VerifyAuthData(env: Env, d: Rp, ad: AuthData, stored: int) {
    && ad.rpIdHash == env.sha256(d.rpId)
    && ad.signCount > stored
    && (d.userVerification == UV_REQUIRED ==> UserVerified(ad.flags))
  }

  /** `derive_gcm_key`. */
  function DeriveKey(env: Env, d: Rp, eph: bytes): bytes {
    env.hmac(d.kEp, eph)
  }

  // ---------------------------------------------------------------- messages to the client

  /** `create_pre_response`: the ephemeral id and the key are sent but not kept. */
  function CreatePreResponse(env: Env, d: Rp, db: Db, rnd: Random): RpStep {
    RpStep(d.(ephLen := 256), db, BuildRet(PreResponse(rnd.eph, DeriveKey(env, d, rnd.eph))))
  }

  /** The user id of a registration: the stored one, or a new one. */
  function RegistrationUserId(d: Rp, db: Db, rnd: Random): bytes {
    if d.userName.Some? && UserIdOf(db, d.userName.value).Some? then UserIdOf(db, d.userName.value).value else rnd.userId
  }

  function RegSecretOf(d: Rp, userId: bytes, exclude: seq<Descriptor>): RegSecret
    requires d.userName.Some? && Paddable(d.userName.value) && d.displayName.Some? && Paddable(d.displayName.value)
  {
    RegSecret(Pad(d.userName.value), Pad(d.displayName.value), userId, exclude)
  }

  function RegRequestOf(d: Rp, challenge: bytes, encrypted: bytes): RegRequest {
    RegRequest(d.rpId, d.rpName, challenge, [CredParam(PUBLIC_KEY, -7)], encrypted, d.timeout,
               AuthSel(d.authAttach, d.residentKey, d.userVerification), d.attestation, None)
  }

  /** The registration request, once challenge and user id are chosen. */
  function RegRequestRet(env: Env, d: Rp, db: Db, challenge: bytes, userId: bytes): Ret {
    if d.userName.None? || d.displayName.None? then Aborted
    else if !Paddable(d.displayName.value) || !Paddable(d.userName.value) then Failed
    else
      match Descriptors(db, userId, d.rpId)
      case None => Failed
      case Some(exclude) =>
        if |userId| != 64 then Aborted
        else
          match BuildInner(RegSecretItems(RegSecretOf(d, userId, exclude)))
          case None => Failed
          case Some(plain) =>
            match Encrypt(env, d.gcmKey, PKT_REG_REQUEST, plain)
            case None => Failed
            case Some(encrypted) => BuildRet(RegRequestPkt(RegRequestOf(d, challenge, encrypted)))
  }

  /** `create_reg_request`. */
  function CreateRegRequest(env: Env, d: Rp, db: Db, rnd: Random): RpStep {
    var userId := RegistrationUserId(d, db, rnd);
    RpStep(d.(challenge := Some(rnd.challenge), userId := Some(userId)), db,
           RegRequestRet(env, d, db, rnd.challenge, userId))
  }

  function AuthRequestOf(d: Rp, challenge: bytes, encrypted: Option<bytes>): AuthRequest {
    AuthRequest(challenge, Some(d.rpId), d.userVerification, Signed(d.timeout), encrypted, None)
  }

  /** The list of credentials that a user may authenticate with; an empty one is an error. */
  function AllowList(d: Rp, db: Db): Option<seq<Descriptor>> {
    var userId :- d.userId;
    var ds :- Descriptors(db, userId, d.rpId);
    if ds == [] then None else Some(ds)
  }

  function EncryptAllowList(env: Env, d: Rp, ds: seq<Descriptor>): Option<bytes> {
    var plain :- BuildInner(DescriptorItems(ds));
    Encrypt(env, d.gcmKey, PKT_AUTH_REQUEST, plain)
  }

  /** `create_auth_request`. */
  function CreateAuthRequest(env: Env, d0: Rp, db: Db, rnd: Random): RpStep {
    var d := d0.(challenge := Some(rnd.challenge));
    if d.ceremony != AuthServerSide then
      RpStep(d, db, BuildRet(AuthRequestPkt(AuthRequestOf(d, rnd.challenge, None))))
    else
      match AllowList(d, db)
      case None => RpStep(d, db, Failed)
      case Some(ds) =>
        match EncryptAllowList(env, d, ds)
        case None => RpStep(d.(allow := ds), db, Failed)
        case Some(encrypted) =>
          RpStep(d.(allow := ds), db, BuildRet(AuthRequestPkt(AuthRequestOf(d, rnd.challenge, Some(encrypted)))))
  }

  // ---------------------------------------------------------------- messages from the client

  /** What a registration indication reveals: the display name, if the ticket is the right one. */
  function OpenRegIndication(env: Env, d: Rp, encrypted: bytes): Option<bytes> {
    var plain :- Decrypt(env, d.gcmKey, PKT_REG_INDICATION, encrypted);
    var data :- ParseEncryptedData(plain);
    var name :- if |data.displayName| == BLOCK then Unpad(data.displayName) else None;
    if d.ticket == Some(data.ticket) then Some(name) else None
  }

  function ReceiveRegIndication(env: Env, d0: Rp, db: Db, input: bytes): RpStep {
    match Parse(input, PKT_REG_INDICATION)
    case Some(RegIndication(eph, encrypted)) =>
      if d0.ephLen != |eph| then RpStep(d0, db, Failed)
      else
        var d := d0.(gcmKey := Some(DeriveKey(env, d0, eph)));
        (match OpenRegIndication(env, d, encrypted)
        case None => RpStep(d, db, Failed)
        case Some(name) =>
          RpStep(d.(displayName := Some(CStr(name)), userName := Some(CStr(name)), ceremony := Registration,
                    state := RegIndicationReceived), db, Accepted))
    case _ => RpStep(d0, db, Failed)
  }

  /** The stored id of the user whose padded name is encrypted; what follows the block is not looked at. */
  function OpenAuthIndication(env: Env, d: Rp, db: Db, encrypted: bytes): Option<bytes> {
    var plain :- Decrypt(env, d.gcmKey, PKT_AUTH_INDICATION_SERVER_SIDE, encrypted);
    var name :- if |plain| >= BLOCK then Unpad(plain[..BLOCK]) else None;
    UserIdOf(db, CStr(name))
  }

  function ReceiveAuthIndication(env: Env, d0: Rp, db: Db, input: bytes): RpStep {
    match Parse(input, PKT_AUTH_INDICATION_SERVER_SIDE)
    case Some(AuthIndicationServerSide(eph, encrypted)) =>
      if d0.ephLen != |eph| then RpStep(d0, db, Failed)
      else
        var d := d0.(gcmKey := Some(DeriveKey(env, d0, eph)));
        (match OpenAuthIndication(env, d, db, encrypted)
        case None => RpStep(d, db, Failed)
        case Some(userId) =>
          RpStep(d.(userId := Some(userId), ceremony := AuthServerSide, state := AuthIndicationServerSideReceived),
                 db, Accepted))
    case _ => RpStep(d0, db, Failed)
  }

  /** `process_indication`; `dbExists` says whether the file of the store is there. */
  function ProcessIndication(env: Env, d: Rp, db: Db, dbExists: bool, input: bytes): RpStep {
    match PacketType(input)
    case None => RpStep(d, db, Failed)
    case Some(t) =>
      if t == PKT_PRE_INDICATION && d.state == Initial && Parse(input, t).Some? then
        RpStep(d.(state := PreIndicationReceived), db, Accepted)
      else if t == PKT_REG_INDICATION && d.state == PreResponseSent then
        ReceiveRegIndication(env, d, db, input)
      else if t == PKT_AUTH_INDICATION_DISCOVERABLE && d.state == Initial && Parse(input, t).Some? && dbExists then
        RpStep(d.(ceremony := AuthDiscoverable, state := AuthIndicationDiscoverableReceived), db, Accepted)
      else if t == PKT_AUTH_INDICATION_SERVER_SIDE && d.state == PreResponseSent then
        ReceiveAuthIndication(env, d, db, input)
      else
        RpStep(d, db, Failed)
  }

  function CheckOf(d: Rp, attObj: bytes, clientData: bytes): AttestationCheck {
    AttestationCheck(d.rpId, d.rpName, d.userVerification == UV_REQUIRED, d.residentKey == RK_REQUIRED, clientData, attObj)
  }

  /** A credential that is about to be stored. */
  datatype NewCredential = NewCredential(id: bytes, pubkey: Option<bytes>, signCount: int)

  function KeyOf(ad: AuthData): Option<bytes> {
    if ad.attested.Some? then Some(ad.attested.value.pubkey) else None
  }

  /** The credential in a registration response, if client data, policy and attestation are all right. */
  function VerifiedRegistration(env: Env, d: Rp, attObj: bytes, clientData: bytes): Option<NewCredential> {
    if VerifyClientData(env, d, clientData, Register) != Accepted || d.attestation != DIRECT then None
    else
      var cred :- env.attest(CheckOf(d, attObj, clientData));
      var ad :- if 1 <= |cred.id| <= 1023 then ParseData(cred.authData) else None;
      Some(NewCredential(cred.id, KeyOf(ad), Signed(cred.signCount)))
  }

  /** `process_reg_response`; the store is closed when the credential cannot be added. */
  function ProcessRegResponse(env: Env, d: Rp, db: Db, input: bytes): RpStep {
    match Parse(input, PKT_REG_RESPONSE)
    case Some(RegResponse(attObj, clientData)) =>
      if VerifyClientData(env, d, clientData, Register) == Aborted then RpStep(d, db, Aborted)
      else
        (match VerifiedRegistration(env, d, attObj, clientData)
        case None => RpStep(d, db, Failed)
        case Some(c) =>
          if d.userId.None? || d.userName.None? then RpStep(d.(dbOpen := false), db, Failed)
          else
            var a := AddCreds(db, d.userId.value, d.userName.value, d.rpId, c.id, c.pubkey, c.signCount);
            if a.ok then RpStep(d.(challenge := None), a.db, Accepted) else RpStep(d.(dbOpen := false), a.db, Failed))
    case _ => RpStep(d, db, Failed)
  }

  /** In the server-side ceremony: the user handle, if any, is the user's, and the credential is in the list sent. */
  predicate ResponseAllowed(d: Rp, resp: AuthResponse) {
    && (resp.userHandle == [] || (|resp.userHandle| == 64 && d.userId == Some(resp.userHandle)))
    && exists a <- d.allow :: a.id == resp.credId
  }

  /** Whose credential a response claims to use. */
  function ClaimedUser(d: Rp, resp: AuthResponse): Option<bytes> {
    if d.ceremony == AuthServerSide then if ResponseAllowed(d, resp) then d.userId else None
    else if d.ceremony == AuthDiscoverable then if |resp.userHandle| == 64 then Some(resp.userHandle) else None
    else None
  }

  function AssertionOf(env: Env, d: Rp, key: bytes, resp: AuthResponse): AssertionCheck {
    AssertionCheck(key, d.rpId, env.sha256(resp.clientData), resp.authData, resp.signature)
  }

  /** The checks of an authentication response against the stored credential. */
  function CheckAuthentication(env: Env, d: Rp, db: Db, resp: AuthResponse, cred: Credential): RpStep {
    if cred.rpId != d.rpId then RpStep(d, db, Failed)
    else if VerifyClientData(env, d, resp.clientData, Authenticate) != Accepted then
      RpStep(d, db, VerifyClientData(env, d, resp.clientData, Authenticate))
    else
      match ParseData(resp.authData)
      case None => RpStep(d, db, Failed)
      case Some(ad) =>
        if !VerifyAuthData(env, d, ad, cred.signCount) then RpStep(d, db, Failed)
        else
          match env.coseKey(cred.pubkey)
          case None => RpStep(d.(dbOpen := false), db, Failed)
          case Some(key) =>
            if env.verify(AssertionOf(env, d, key, resp)) then
              RpStep(d, UpdateSignCount(db, resp.credId, ad.signCount), Accepted)
            else
              RpStep(d, db, Failed)
  }

  /** `process_auth_response`; the store is closed when the credential is not found. */
  function ProcessAuthResponse(env: Env, d: Rp, db: Db, input: bytes): RpStep {
    match Parse(input, PKT_AUTH_RESPONSE)
    case Some(AuthResponsePkt(resp)) =>
      (match ClaimedUser(d, resp)
      case None => RpStep(d, db, Failed)
      case Some(userId) =>
        (match CredentialOf(db, userId, resp.credId)
        case None => RpStep(d.(dbOpen := false), db, Failed)
        case Some(cred) => CheckAuthentication(env, d, db, resp, cred)))
    case _ => RpStep(d, db, Failed)
  }

  // ---------------------------------------------------------------- callbacks

  /** Whether a step ended well. */
  predicate Succeeded(ret: Ret) {
    ret.Sent? || ret.Accepted?
  }

  function GoTo(s: RpStep, state: State): RpStep {
    s.(rp := s.rp.(state := state))
  }

  /** The new state is entered only when the message was made. */
  function OnSuccess(s: RpStep, state: State): RpStep {
    if Succeeded(s.ret) then GoTo(s, state) else s
  }

  /** A response decides the outcome; a failed assertion leaves no state behind. */
  function Decide(s: RpStep, success: State, failure: State): RpStep {
    if s.ret == Aborted then s else if Succeeded(s.ret) then GoTo(s, success) else GoTo(s, failure)
  }

  /** `fidossl_server_add_cb`. */
  function ServerAdd(env: Env, d: Rp, db: Db, ext: int, context: Context, rnd: Random): RpStep {
    if ext != FIDOSSL_EXT_TYPE then RpStep(d, db, Skipped)
    else if context == CertificateRequest then
      match d.state
      case PreIndicationReceived => OnSuccess(CreatePreResponse(env, d, db, rnd), PreResponseSent)
      case RegIndicationReceived => OnSuccess(CreateRegRequest(env, d, db, rnd), RegRequestSent)
      case AuthIndicationDiscoverableReceived => OnSuccess(CreateAuthRequest(env, d, db, rnd), AuthRequestSent)
      case AuthIndicationServerSideReceived => OnSuccess(CreateAuthRequest(env, d, db, rnd), AuthRequestSent)
      case _ => RpStep(d, db, Failed)
    else if context == Certificate then RpStep(d, db, Skipped)
    else RpStep(d, db, Failed)
  }

  /** `fidossl_server_parse_cb`. */
  function ServerParse(env: Env, d: Rp, db: Db, dbExists: bool, ext: int, context: Context, input: bytes): RpStep {
    if ext != FIDOSSL_EXT_TYPE then RpStep(d, db, Skipped)
    else if context == ClientHello then ProcessIndication(env, d, db, dbExists, input)
    else if context == Certificate then
      match d.state
      case RegRequestSent => Decide(ProcessRegResponse(env, d, db, input), RegSuccess, RegFailure)
      case AuthRequestSent => Decide(ProcessAuthResponse(env, d, db, input), AuthSuccess, AuthFailure)
      case _ => RpStep(d, db, Failed)
    else RpStep(d, db, Failed)
  }
}
