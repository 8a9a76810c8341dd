/** The data of a server context and the functions of rp.c and fidossl.c that update it in place. */
module ServerContext {
  import opened Bytes
  import opened Cbor
  import opened Packets
  import opened Padding
  import opened Environment
  import opened Encoding
  import opened Store
  import opened AuthenticatorData
  import opened RelyingParty
  import opened Parser
  import opened Builder
  import opened Helpers

  class RpData {
    var state: State
    var ceremony: Ceremony
    var challenge: Option<bytes>
    const rpId: bytes
    const rpName: bytes
    const userVerification: nat
    const residentKey: nat
    const authAttach: nat
    const attestation: nat
    const timeout: uint32
    /** The episode key, from which the keys of the ceremonies are derived. */
    const kEp: bytes
    var ephLen: nat
    var userId: Option<bytes>
    var userName: Option<bytes>
    var displayName: Option<bytes>
    var gcmKey: Option<bytes>
    const ticket: Option<bytes>
    var allow: seq<Descriptor>
    var dbOpen: bool
    /** The store is shared with the other contexts. */
    const db: Database

    ghost function View(): Rp
      reads this
    {
      Rp(state, ceremony, challenge, rpId, rpName, userVerification, residentKey, authAttach, attestation, timeout,
         kEp, ephLen, userId, userName, displayName, gcmKey, ticket, allow, dbOpen)
    }

    constructor (opts: ServerOpts, kEp: bytes, ticket: Option<bytes>, db: Database)
      requires InitRp(opts, kEp).Some? && ticket == InitRp(opts, kEp).value.ticket
      ensures View() == InitRp(opts, kEp).value && this.db == db
    {
      state, ceremony, challenge := Initial, Undefined, None;
      rpId, rpName := opts.rpId.value, opts.rpName.value;
      userVerification, residentKey, authAttach := opts.userVerification, opts.residentKey, opts.authAttach;
      attestation, timeout := opts.attestation, opts.timeout % TWO32;
      this.kEp, ephLen, userId, userName, displayName, gcmKey := kEp, 0, None, None, None, None;
      this.ticket, allow, dbOpen := ticket, [], true;
      this.db := db;
    }

    // -------------------------------------------------------------- checks

    /** `verify_clientdata`. */
    method CheckClientData(env: Env, clientData: bytes, mode: Mode) returns (ret: Ret)
      ensures ret == VerifyClientData(env, View(), clientData, mode)
    {
      if challenge.None? || challenge.value == [] { return Aborted; }
      var root := env.readJson(clientData);
      if root.None? { return Failed; }
      var cd := root.value;
      if cd.kind.None? || CStr(cd.kind.value) != KindOf(mode) { return Failed; }
      if cd.origin.None? || CStr(cd.origin.value) != Chars("https://") + rpId { return Failed; }
      if !cd.crossOriginFalse { return Failed; }
      if cd.challenge.None? { return Failed; }
      var decoded := UrlDecodeString(CStr(cd.challenge.value));
      return if decoded == Some(challenge.value) then Accepted else Failed;
    }

    /** `verify_authdata` for an authentication. */
    method CheckAuthData(env: Env, ad: AuthData, stored: int) returns (ok: bool)
      ensures ok == VerifyAuthData(env, View(), ad, stored)
    {
      if ad.rpIdHash != env.sha256(rpId) { return false; }
      if ad.signCount <= stored { return false; }
      if userVerification == UV_REQUIRED && !UserVerified(ad.flags) { return false; }
      return true;
    }

    // -------------------------------------------------------------- requests

    /** `create_pre_response`. */
    method MakePreResponse(env: Env, rnd: Random) returns (ret: Ret)
      modifies this`ephLen
      ensures RpStep(View(), db.View(), ret) == CreatePreResponse(env, old(View()), old(db.View()), rnd)
    {
      ephLen := 256;
      ret := BuildMessage(PreResponse(rnd.eph, env.hmac(kEp, rnd.eph)));
    }

    /** `create_reg_request`. */
    method MakeRegRequest(env: Env, rnd: Random) returns (ret: Ret)
      modifies this`challenge, this`userId
      ensures RpStep(View(), db.View(), ret) == CreateRegRequest(env, old(View()), old(db.View()), rnd)
    {
      challenge := Some(rnd.challenge);
      var found := None;
      if userName.Some? {
        found := db.GetUserId(userName.value);
      }
      var id := if found.Some? then found.value else rnd.userId;
      userId := Some(id);
      ret := MakeRegRequestFor(env, rnd.challenge, id);
    }

    /** The second part: padding, exclusions, encoding and encryption. */
    method MakeRegRequestFor(env: Env, challenge: bytes, id: bytes) returns (ret: Ret)
      ensures ret == RegRequestRet(env, View(), db.View(), challenge, id)
    {
      if userName.None? || displayName.None? { return Aborted; }
      var paddedDisplayName := PadName(displayName.value);
      if paddedDisplayName.None? { return Failed; }
      var paddedName := PadName(userName.value);
      if paddedName.None? { return Failed; }
      var exclude := db.GetCredentialDescriptors(id, rpId);
      if exclude.None? { return Failed; }
      if |id| != 64 { return Aborted; }
      var plain := CborBuildRegSecret(RegSecret(paddedName.value, paddedDisplayName.value, id, exclude.value));
      if plain.None? { return Failed; }
      var encrypted := EncryptMessage(env, gcmKey, PKT_REG_REQUEST, plain.value);
      if encrypted.None? { return Failed; }
      ret := BuildMessage(RegRequestPkt(RegRequest(
        rpId, rpName, challenge, [CredParam(PUBLIC_KEY, -7)], encrypted.value, timeout,
        AuthSel(authAttach, residentKey, userVerification), attestation, None)));
    }

    /** `create_auth_request`. */
    method MakeAuthRequest(env: Env, rnd: Random) returns (ret: Ret)
      modifies this`challenge, this`allow
      ensures RpStep(View(), db.View(), ret) == CreateAuthRequest(env, old(View()), old(db.View()), rnd)
    {
      challenge := Some(rnd.challenge);
      var encrypted: Option<bytes> := None;
      if ceremony == AuthServerSide {
        if userId.None? { return Failed; }
        var ds := db.GetCredentialDescriptors(userId.value, rpId);
        if ds.None? || |ds.value| < 1 { return Failed; }
        allow := ds.value;
        var plain := CborBuildAllowList(ds.value);
        if plain.None? { return Failed; }
        encrypted := EncryptMessage(env, gcmKey, PKT_AUTH_REQUEST, plain.value);
        if encrypted.None? { return Failed; }
      }
      ret := BuildMessage(AuthRequestPkt(AuthRequest(
        rnd.challenge, Some(rpId), userVerification, Signed(timeout), encrypted, None)));
    }

    // -------------------------------------------------------------- indications

    /** Decrypts and decodes a registration indication and compares the tickets. */
    method OpenRegSecret(env: Env, encrypted: bytes) returns (r: Option<bytes>)
      ensures r == OpenRegIndication(env, View(), encrypted)
    {
      hide Decrypt, ParseEncryptedData, Unpad;
      var plain := DecryptMessage(env, gcmKey, PKT_REG_INDICATION, encrypted);
      if plain.None? { return None; }
      var data := CborParseEncryptedData(plain.value);
      if data.None? || |data.value.displayName| != BLOCK { return None; }
      var name := UnpadName(data.value.displayName);
      if name.None? || ticket != Some(data.value.ticket) { return None; }
      return name;
    }

    /** The case of a registration indication in `process_indication`. */
    method TakeRegIndication(env: Env, input: bytes) returns (ret: Ret)
      modifies this
      ensures RpStep(View(), db.View(), ret) == ReceiveRegIndication(env, old(View()), old(db.View()), input)
    {
      hide Parse, OpenRegIndication, CStr;
      var packet := CborParse(input, PKT_REG_INDICATION);
      if packet.None? || !packet.value.RegIndication? { return Failed; }
      if ephLen != |packet.value.eph| { return Failed; }
      gcmKey := Some(env.hmac(kEp, packet.value.eph));
      var name := OpenRegSecret(env, packet.value.encrypted);
      if name.None? { return Failed; }
      displayName := Some(CStr(name.value));
      userName := Some(CStr(name.value));
      ceremony := Registration;
      state := RegIndicationReceived;
      return Accepted;
    }

    /** The case of an authentication indication with server-side credentials. */
    method TakeAuthIndication(env: Env, input: bytes) returns (ret: Ret)
      modifies this
      ensures RpStep(View(), db.View(), ret) == ReceiveAuthIndication(env, old(View()), old(db.View()), input)
    {
      hide Parse, Decrypt, Unpad, CStr, UserIdOf;
      var packet := CborParse(input, PKT_AUTH_INDICATION_SERVER_SIDE);
      if packet.None? || !packet.value.AuthIndicationServerSide? { return Failed; }
      var eph, encrypted := packet.value.eph, packet.value.encrypted;
      if ephLen != |eph| { return Failed; }
      gcmKey := Some(env.hmac(kEp, eph));
      var plain := DecryptMessage(env, gcmKey, PKT_AUTH_INDICATION_SERVER_SIDE, encrypted);
      if plain.None? || |plain.value| < BLOCK { return Failed; }
      var name := UnpadName(plain.value[..BLOCK]);
      if name.None? { return Failed; }
      var id := db.GetUserId(CStr(name.value));
      if id.None? { return Failed; }
      userId := id;
      ceremony := AuthServerSide;
      state := AuthIndicationServerSideReceived;
      return Accepted;
    }

    /** `process_indication`. */
    method TakeIndication(env: Env, dbExists: bool, input: bytes) returns (ret: Ret)
      modifies this
      ensures RpStep(View(), db.View(), ret) == ProcessIndication(env, old(View()), old(db.View()), dbExists, input)
    {
      hide Parse, PacketType, ReceiveRegIndication, ReceiveAuthIndication;
      var t := GetPacketType(input);
      if t.None? { return Failed; }
      if t.value == PKT_PRE_INDICATION {
        if state != Initial { return Failed; }
        var packet := CborParse(input, t.value);
        if packet.None? { return Failed; }
        state := PreIndicationReceived;
      } else if t.value == PKT_REG_INDICATION {
        if state != PreResponseSent { return Failed; }
        ret := TakeRegIndication(env, input);
        return;
      } else if t.value == PKT_AUTH_INDICATION_DISCOVERABLE {
        if state != Initial { return Failed; }
        var packet := CborParse(input, t.value);
        if packet.None? || !dbExists { return Failed; }
        ceremony := AuthDiscoverable;
        state := AuthIndicationDiscoverableReceived;
      } else if t.value == PKT_AUTH_INDICATION_SERVER_SIDE && state == PreResponseSent {
        ret := TakeAuthIndication(env, input);
        return;
      } else {
        return Failed;
      }
      return Accepted;
    }

    // -------------------------------------------------------------- responses

    /** The checks of a registration response, up to the credential that is to be stored. */
    method CheckRegistration(env: Env, attObj: bytes, clientData: bytes) returns (r: Option<NewCredential>)
      ensures r == VerifiedRegistration(env, View(), attObj, clientData)
    {
      hide VerifyClientData, ParseData;
      var checked := CheckClientData(env, clientData, Register);
      if checked != Accepted { return None; }
      if attestation != DIRECT { return None; }
      var cred := env.attest(AttestationCheck(rpId, rpName, userVerification == UV_REQUIRED, residentKey == RK_REQUIRED,
                                              clientData, attObj));
      if cred.None? || |cred.value.id| > 1023 || |cred.value.id| == 0 { return None; }
      var ad := ParseAuthData(cred.value.authData);
      if ad.None? { return None; }
      var pubkey := if ad.value.attested.Some? then Some(ad.value.attested.value.pubkey) else None;
      return Some(NewCredential(cred.value.id, pubkey, Signed(cred.value.signCount)));
    }

    /** `process_reg_response`. */
    method TakeRegResponse(env: Env, input: bytes) returns (ret: Ret)
      modifies this, db
      ensures RpStep(View(), db.View(), ret) == ProcessRegResponse(env, old(View()), old(db.View()), input)
    {
      hide Parse, VerifiedRegistration, AddCreds;
      var packet := CborParse(input, PKT_REG_RESPONSE);
      if packet.None? || !packet.value.RegResponse? { return Failed; }
      if challenge.None? || challenge.value == [] { return Aborted; }
      var cred := CheckRegistration(env, packet.value.attObj, packet.value.clientData);
      if cred.None? { return Failed; }
      if userId.None? || userName.None? {
        dbOpen := false;
        return Failed;
      }
      var ok := db.AddCredential(userId.value, userName.value, rpId, cred.value.id, cred.value.pubkey, cred.value.signCount);
      if !ok {
        dbOpen := false;
        return Failed;
      }
      challenge := None;
      return Accepted;
    }

    /** Looks for a credential id in the allow list. */
    method IsAllowed(credId: bytes) returns (allowed: bool)
      ensures allowed == exists a <- allow :: a.id == credId
    {
      allowed := false;
      for i := 0 to |allow|
        invariant !allowed && forall k :: 0 <= k < i ==> allow[k].id != credId
      {
        if allow[i].id == credId { return true; }
      }
    }

    /** Whose credential a response may use. */
    method FindClaimedUser(resp: AuthResponse) returns (r: Option<bytes>)
      ensures r == ClaimedUser(View(), resp)
    {
      if ceremony == AuthServerSide {
        if |resp.userHandle| == 64 {
          if userId != Some(resp.userHandle) { return None; }
        } else if |resp.userHandle| != 0 {
          return None;
        }
        var allowed := IsAllowed(resp.credId);
        return if allowed then userId else None;
      } else if ceremony == AuthDiscoverable {
        return if |resp.userHandle| != 64 then None else Some(resp.userHandle);
      }
      return None;
    }

    /** The checks of an authentication response against the stored credential. */
    method CheckAssertion(env: Env, resp: AuthResponse, cred: Credential) returns (ret: Ret)
      modifies this`dbOpen, db`creds
      ensures RpStep(View(), db.View(), ret) == CheckAuthentication(env, old(View()), old(db.View()), resp, cred)
    {
      hide VerifyClientData, ParseData, VerifyAuthData, UpdateSignCount;
      if cred.rpId != rpId { return Failed; }
      ret := CheckClientData(env, resp.clientData, Authenticate);
      if ret != Accepted { return; }
      var ad := ParseAuthData(resp.authData);
      if ad.None? { return Failed; }
      var ok := CheckAuthData(env, ad.value, cred.signCount);
      if !ok { return Failed; }
      var key := env.coseKey(cred.pubkey);
      if key.None? {
        dbOpen := false;
        return Failed;
      }
      if !env.verify(AssertionCheck(key.value, rpId, env.sha256(resp.clientData), resp.authData, resp.signature)) {
        return Failed;
      }
      db.UpdateCount(resp.credId, ad.value.signCount);
      return Accepted;
    }

    /** `process_auth_response`. */
    method TakeAuthResponse(env: Env, input: bytes) returns (ret: Ret)
      modifies this`dbOpen, db`creds
      ensures RpStep(View(), db.View(), ret) == ProcessAuthResponse(env, old(View()), old(db.View()), input)
    {
      hide Parse, ClaimedUser, CredentialOf, CheckAuthentication;
      var packet := CborParse(input, PKT_AUTH_RESPONSE);
      if packet.None? || !packet.value.AuthResponsePkt? { return Failed; }
      var resp := packet.value.resp;
      var user := FindClaimedUser(resp);
      if user.None? { return Failed; }
      var cred := db.GetCredential(user.value, resp.credId);
      if cred.None? {
        dbOpen := false;
        return Failed;
      }
      ret := CheckAssertion(env, resp, cred.value);
    }

    // -------------------------------------------------------------- callbacks

    /** `fidossl_server_add_cb`. */
    method AddCallback(env: Env, ext: int, context: Context, rnd: Random) returns (ret: Ret)
      modifies this
      ensures RpStep(View(), db.View(), ret) == ServerAdd(env, old(View()), old(db.View()), ext, context, rnd)
    {
      hide RelyingParty.CreatePreResponse, RelyingParty.CreateRegRequest, RelyingParty.CreateAuthRequest;
      if ext != FIDOSSL_EXT_TYPE { return Skipped; }
      if context == CertificateRequest {
        match state {
          case PreIndicationReceived =>
            ret := MakePreResponse(env, rnd);
            if Succeeded(ret) { state := PreResponseSent; }
          case RegIndicationReceived =>
            ret := MakeRegRequest(env, rnd);
            if Succeeded(ret) { state := RegRequestSent; }
          case AuthIndicationDiscoverableReceived =>
            ret := MakeAuthRequest(env, rnd);
            if Succeeded(ret) { state := AuthRequestSent; }
          case AuthIndicationServerSideReceived =>
            ret := MakeAuthRequest(env, rnd);
            if Succeeded(ret) { state := AuthRequestSent; }
          case _ => ret := Failed;
        }
      } else if context == Certificate {
        return Skipped;
      } else {
        return Failed;
      }
    }

    /** `fidossl_server_parse_cb`. */
    method ParseCallback(env: Env, dbExists: bool, ext: int, context: Context, input: bytes) returns (ret: Ret)
      modifies this, db
      ensures RpStep(View(), db.View(), ret) == ServerParse(env, old(View()), old(db.View()), dbExists, ext, context, input)
    {
      hide RelyingParty.ProcessIndication, RelyingParty.ProcessRegResponse, RelyingParty.ProcessAuthResponse;
      if ext != FIDOSSL_EXT_TYPE { return Skipped; }
      if context == ClientHello {
        ret := TakeIndication(env, dbExists, input);
      } else if context == Certificate {
        if state == RegRequestSent {
          ret := TakeRegResponse(env, input);
          if ret == Aborted { return; }
          state := if Succeeded(ret) then RegSuccess else RegFailure;
        } else if state == AuthRequestSent {
          ret := TakeAuthResponse(env, input);
          if ret == Aborted { return; }
          state := if Succeeded(ret) then AuthSuccess else AuthFailure;
        } else {
          ret := Failed;
        }
      } else {
        return Failed;
      }
    }
  }

  /** `fidossl_server_add_cb` where a client that did not offer the extension has left no context. */
  method AddServerExtension(d: RpData?, env: Env, ext: int, context: Context, rnd: Random) returns (ret: Ret)
    modifies d
    ensures d == null ==>
              ret == if ext != FIDOSSL_EXT_TYPE || context in {CertificateRequest, Certificate} then Skipped else Failed
    ensures d != null ==>
              RpStep(d.View(), d.db.View(), ret) == ServerAdd(env, old(d.View()), old(d.db.View()), ext, context, rnd)
  {
    if d == null {
      return if ext != FIDOSSL_EXT_TYPE || context == CertificateRequest || context == Certificate then Skipped else Failed;
    }
    hide RelyingParty.CreatePreResponse, RelyingParty.CreateRegRequest, RelyingParty.CreateAuthRequest;
    ret := d.AddCallback(env, ext, context, rnd);
  }

  /** `init_rp`: the ticket is given in base64, and without names or with a bad ticket there is no context. */
  method InitRpData(opts: ServerOpts, kEp: bytes, db: Database) returns (d: RpData?)
    ensures d == null <==> InitRp(opts, kEp).None?
    ensures d != null ==> fresh(d) && d.View() == InitRp(opts, kEp).value && d.db == db
  {
    if opts.rpId.None? || opts.rpName.None? { return null; }
    var ticket: Option<bytes> := None;
    if opts.ticket.Some? {
      ticket := DecodeBase64String(opts.ticket.value);
      if ticket.None? { return null; }
    }
    d := new RpData(opts, kEp, ticket, db);
  }
}
