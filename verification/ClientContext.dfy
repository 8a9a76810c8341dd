/** The data of a client context and the functions of ud.c and fidossl.c that update it in place. */
module ClientContext {
  import opened Bytes
  import opened Cbor
  import opened Packets
  import opened Padding
  import opened Environment
  import opened Encoding
  import opened Domain
  import opened UserDevice
  import opened Parser
  import opened Builder
  import opened Helpers

  class UdData {
    var state: State
    var ceremony: Ceremony
    var challenge: Option<bytes>
    var rpId: Option<bytes>
    var rpName: Option<bytes>
    var userVerification: int
    var attestation: nat
    var residentKey: nat
    var authAttach: nat
    var timeout: int
    var userId: Option<bytes>
    var userName: Option<bytes>
    var displayName: Option<bytes>
    var displayLen: nat
    var ephUserId: Option<bytes>
    var gcmKey: Option<bytes>
    var ticket: Option<bytes>
    var params: seq<CredParam>
    var exclude: seq<Descriptor>
    var allow: seq<Descriptor>
    var extensions: Option<seq<Extension>>
    var origin: Option<bytes>
    var effectiveDomain: Option<bytes>
    var clientData: Option<bytes>

    ghost function View(): Ud
      reads this
    {
      Ud(state, ceremony, challenge, rpId, rpName, userVerification, attestation, residentKey, authAttach, timeout,
         userId, userName, displayName, displayLen, ephUserId, gcmKey, ticket, params, exclude, allow, extensions,
         origin, effectiveDomain, clientData)
    }

    constructor (initial: State, ceremony: Ceremony, userName: Option<bytes>, displayName: Option<bytes>, ticket: Option<bytes>)
      ensures View() == BLANK.(state := initial, ceremony := ceremony, userName := userName, displayName := displayName,
                               ticket := ticket)
    {
      state, this.ceremony, challenge, rpId, rpName := initial, ceremony, None, None, None;
      userVerification, attestation, residentKey, authAttach, timeout := 0, 0, 0, 0, 0;
      userId, this.userName, this.displayName, displayLen := None, userName, displayName, 0;
      ephUserId, gcmKey, this.ticket := None, None, ticket;
      params, exclude, allow, extensions := [], [], [], None;
      origin, effectiveDomain, clientData := None, None, None;
    }

    // -------------------------------------------------------------- indications

    /** The registration indication, once the length of the name is recorded. */
    method MakeRegIndicationMessage(env: Env) returns (ret: Ret)
      ensures ret == RegIndicationRet(env, View())
    {
      if ephUserId.None? || |ephUserId.value| != 256 { return Failed; }
      if displayName.None? { return Failed; }
      var padded := PadName(displayName.value);
      if padded.None? { return Failed; }
      if ticket.None? || |ticket.value| != 256 { return Failed; }
      var plain := CborBuildEncryptedData(EncryptedData(padded.value, ticket.value));
      if plain.None? { return Failed; }
      var encrypted := EncryptMessage(env, gcmKey, PKT_REG_INDICATION, plain.value);
      if encrypted.None? { return Failed; }
      ret := BuildMessage(RegIndication(ephUserId.value, encrypted.value));
    }

    /** `create_reg_indication`. */
    method MakeRegIndication(env: Env) returns (ret: Ret)
      modifies this`displayLen
      ensures UdStep(View(), ret) == CreateRegIndication(env, old(View()))
    {
      if ephUserId.Some? && |ephUserId.value| == 256 && displayName.Some? {
        displayLen := |displayName.value|;
      }
      assert RegIndicationRet(env, View()) == RegIndicationRet(env, old(View()));
      ret := MakeRegIndicationMessage(env);
    }

    /** `create_auth_indication_server_side`. */
    method MakeAuthIndication(env: Env) returns (ret: Ret)
      ensures UdStep(View(), ret) == CreateAuthIndicationServerSide(env, View())
    {
      if userName.None? { return Aborted; }
      var padded := PadName(userName.value);
      if padded.None? { return Failed; }
      var encrypted := EncryptMessage(env, gcmKey, PKT_AUTH_INDICATION_SERVER_SIDE, padded.value);
      if encrypted.None? { return Failed; }
      var eph := if ephUserId.Some? then ephUserId.value else [];
      ret := BuildMessage(AuthIndicationServerSide(eph, encrypted.value));
    }

    // -------------------------------------------------------------- requests

    /** `process_pre_response`. */
    method TakePreResponse(input: bytes) returns (ret: Ret)
      modifies this`ephUserId, this`gcmKey
      ensures UdStep(View(), ret) == ProcessPreResponse(old(View()), input)
    {
      hide Parse;
      var packet := CborParse(input, PKT_PRE_RESPONSE);
      if packet.None? || !packet.value.PreResponse? { return Failed; }
      ephUserId := Some(packet.value.eph);
      gcmKey := Some(packet.value.key);
      return Accepted;
    }

    /** Decrypts and decodes the secret part of a registration request. */
    method OpenRegSecret(env: Env, encrypted: bytes) returns (r: Option<OpenSecret>)
      ensures r == OpenRegRequest(env, View(), encrypted)
    {
      hide Decrypt, ParseRegSecret, Unpad;
      var plain := DecryptMessage(env, gcmKey, PKT_REG_REQUEST, encrypted);
      if plain.None? { return None; }
      var secret := CborParseRegSecret(plain.value);
      if secret.None? || |secret.value.userName| != BLOCK { return None; }
      var name := UnpadName(secret.value.userName);
      if name.None? || |secret.value.displayName| != BLOCK { return None; }
      var shown := UnpadName(secret.value.displayName);
      if shown.None? { return None; }
      return Some(OpenSecret(name.value, shown.value, secret.value.userId, secret.value.exclude));
    }

    /** Takes over the fields of a registration request, one by one. */
    method Store(p: RegRequest, s: OpenSecret)
      modifies this
      ensures View() == StoreRegRequest(old(View()), p, s)
    {
      StoreUser(s);
      StoreRequired(p);
      StoreSelection(p);
      StorePolicy(p);
    }

    method StoreUser(s: OpenSecret)
      modifies this`userName, this`userId, this`exclude
      ensures View() == old(View()).(userName := Some(CStr(s.userName)), userId := Some(s.userId),
                                     exclude := IfListed(s.exclude, old(exclude)))
    {
      hide CStr, IfListed;
      userName := Some(CStr(s.userName));
      userId := Some(s.userId);
      exclude := IfListed(s.exclude, exclude);
    }

    method StoreRequired(p: RegRequest)
      modifies this`challenge, this`rpId, this`rpName, this`params
      ensures View() == old(View()).(challenge := Some(p.challenge), rpId := Some(p.rpId), rpName := Some(p.rpName),
                                     params := p.params)
    {
      challenge := Some(p.challenge);
      rpId := Some(p.rpId);
      rpName := Some(p.rpName);
      params := p.params;
    }

    method StoreSelection(p: RegRequest)
      modifies this`timeout, this`authAttach, this`residentKey
      ensures View() == old(View()).(timeout := IfSet(p.timeout, old(timeout)),
                                     authAttach := IfChosen(p.sel.attachment, old(authAttach)),
                                     residentKey := IfChosen(p.sel.residentKey, old(residentKey)))
    {
      hide IfSet, IfChosen;
      timeout := IfSet(p.timeout, timeout);
      authAttach := IfChosen(p.sel.attachment, authAttach);
      residentKey := IfChosen(p.sel.residentKey, residentKey);
    }

    method StorePolicy(p: RegRequest)
      modifies this`userVerification, this`attestation, this`extensions
      ensures View() == old(View()).(userVerification := IfSet(p.sel.userVerification, old(userVerification)),
                                     attestation := IfChosen(p.attestation, old(attestation)),
                                     extensions := IfGiven(p.extensions, old(extensions)))
    {
      hide IfSet, IfChosen, IfGiven;
      userVerification := IfSet(p.sel.userVerification, userVerification);
      attestation := IfChosen(p.attestation, attestation);
      extensions := IfGiven(p.extensions, extensions);
    }

    /** `process_reg_request`. */
    method TakeRegRequest(env: Env, input: bytes) returns (ret: Ret)
      modifies this
      ensures UdStep(View(), ret) == ProcessRegRequest(env, old(View()), input)
    {
      hide Parse, OpenRegRequest, StoreRegRequest;
      var packet := CborParse(input, PKT_REG_REQUEST);
      if packet.None? || !packet.value.RegRequestPkt? { return Failed; }
      if gcmKey.None? || |gcmKey.value| != 32 { return Aborted; }
      var secret := OpenRegSecret(env, packet.value.reg.encrypted);
      if secret.None? { return Failed; }
      var name := secret.value.displayName;
      if displayLen != |name| || displayName.None? || |name| > |displayName.value| || displayName.value[..|name|] != name {
        return Failed;
      }
      Store(packet.value.reg, secret.value);
      return Accepted;
    }

    /** Decrypts and decodes the allow list. */
    method OpenAllowed(env: Env, encrypted: Option<bytes>) returns (r: Option<seq<Descriptor>>)
      ensures r == OpenAllowList(env, View(), encrypted)
    {
      hide Decrypt, ParseAllowList;
      if encrypted.None? { return None; }
      var plain := DecryptMessage(env, gcmKey, PKT_AUTH_REQUEST, encrypted.value);
      if plain.None? { return None; }
      r := CborParseAllowList(plain.value);
    }

    /** Takes over what does not depend on the allow list. */
    method StoreRequest(p: AuthRequest)
      modifies this`challenge, this`rpId, this`userVerification, this`timeout
      ensures View() == StoreAuthRequest(old(View()), p)
    {
      hide IfSet, IfGiven;
      challenge := if p.challenge == [] then None else Some(p.challenge);
      rpId := IfGiven(p.rpId, rpId);
      userVerification := IfSet(p.userVerification, userVerification);
      timeout := IfSet(p.timeout, timeout);
    }

    /** `process_auth_request`: what was taken over stays when the allow list is refused. */
    method TakeAuthRequest(env: Env, input: bytes) returns (ret: Ret)
      modifies this
      ensures UdStep(View(), ret) == ProcessAuthRequest(env, old(View()), input)
    {
      hide Parse, OpenAllowList, StoreAuthRequest;
      var packet := CborParse(input, PKT_AUTH_REQUEST);
      if packet.None? || !packet.value.AuthRequestPkt? { return Failed; }
      var p := packet.value.req;
      StoreRequest(p);
      if ceremony == AuthServerSide {
        var ds := OpenAllowed(env, p.allow);
        if ds.None? { return Failed; }
        allow := ds.value;
      } else if ceremony == AuthDiscoverable && p.allow.Some? {
        return Failed;
      }
      extensions := if p.extensions.Some? then p.extensions else extensions;
      return Accepted;
    }

    // -------------------------------------------------------------- responses

    /** The beginning of `create_reg_response` and `create_auth_response`. */
    method SettleRpId(env: Env, sni: Option<bytes>) returns (valid: bool)
      modifies this`origin, this`effectiveDomain, this`rpId
      ensures (View(), valid) == ValidateRpId(env, old(View()), sni)
    {
      hide Accepts;
      origin := if sni.Some? then Some(Chars("https://") + sni.value) else None;
      effectiveDomain := sni;
      if rpId.None? {
        rpId := effectiveDomain;
        return true;
      }
      valid := IsEqualOrRegistrableDomainSuffix(effectiveDomain, rpId, env.publicSuffix);
    }

    /** `generate_clientdata`; a failed assertion is no text. */
    method GenerateClientData(env: Env, kind: bytes) returns (json: Option<bytes>)
      ensures json == if ClientDataAsserts(View()) then Some(ClientDataOf(env, View(), kind)) else None
    {
      if challenge.None? || challenge.value == [] || origin.None? { return None; }
      var text := UrlEncodeBytes(challenge.value);
      return Some(CStr(env.writeJson(ClientData(Some(kind), Some(text), origin, true))));
    }

    /** `create_reg_response`. */
    method MakeRegResponse(env: Env, sni: Option<bytes>, attObj: Option<bytes>) returns (ret: Ret)
      modifies this
      ensures UdStep(View(), ret) == CreateRegResponse(env, old(View()), sni, attObj)
    {
      hide ClientDataOf, ValidateRpId, BuildRet, ClientDataAsserts, Chars;
      var valid := SettleRpId(env, sni);
      if !valid { return Failed; }
      var json := GenerateClientData(env, Chars("webauthn.create"));
      if json.None? { return Aborted; }
      clientData := json;
      if attObj.None? || attObj.value == [] || |attObj.value| > 8192 { return Failed; }
      ret := BuildMessage(RegResponse(attObj.value, json.value));
    }

    /** Whether the authenticator returned everything that is needed. */
    method IsComplete(a: Assertion) returns (ok: bool)
      ensures ok == AssertionComplete(View(), a)
    {
      if |a.userId| != 64 && !(a.userId == [] && ceremony == AuthServerSide) { return false; }
      return a.authData != [] && a.signature != [] && a.credId != [];
    }

    /** `create_auth_response`. */
    method MakeAuthResponse(env: Env, sni: Option<bytes>, assertion: Option<Assertion>) returns (ret: Ret)
      modifies this
      ensures UdStep(View(), ret) == CreateAuthResponse(env, old(View()), sni, assertion)
    {
      hide ClientDataOf, ValidateRpId, AssertionComplete, BuildRet, ClientDataAsserts, Chars;
      var valid := SettleRpId(env, sni);
      if !valid { return Failed; }
      var json := GenerateClientData(env, Chars("webauthn.get"));
      if json.None? { return Aborted; }
      clientData := json;
      if ceremony == AuthServerSide && |allow| < 1 { return Failed; }
      if assertion.None? { return Failed; }
      var a := assertion.value;
      var complete := IsComplete(a);
      if !complete { return Failed; }
      userId := if a.userId == [] then None else Some(a.userId);
      ret := BuildMessage(AuthResponsePkt(AuthResponse(json.value, a.authData, a.signature, a.userId, a.credId)));
    }

    // -------------------------------------------------------------- callbacks

    /** `fidossl_client_add_cb`. */
    method AddCallback(env: Env, ext: int, context: Context, device: Device) returns (ret: Ret)
      modifies this
      ensures UdStep(View(), ret) == ClientAdd(env, old(View()), ext, context, device)
    {
      hide CreateRegIndication, CreateAuthIndicationServerSide, CreateRegResponse, CreateAuthResponse, BuildRet;
      if ext != FIDOSSL_EXT_TYPE { return Skipped; }
      if context == ClientHello {
        match state {
          case RegInitial =>
            ret := BuildMessage(PreIndication);
            if ret.Sent? || ret.Accepted? { state := PreIndicationSent; }
          case PreResponseReceived =>
            if ceremony == Registration {
              ret := MakeRegIndication(env);
              if ret.Sent? || ret.Accepted? { state := RegIndicationSent; }
            } else if ceremony == AuthServerSide {
              ret := MakeAuthIndication(env);
              if ret.Sent? || ret.Accepted? { state := AuthIndicationServerSideSent; }
            } else {
              ret := Failed;
            }
          case AuthInitialDiscoverable =>
            ret := BuildMessage(AuthIndicationDiscoverable);
            if ret.Sent? || ret.Accepted? { state := AuthIndicationDiscoverableSent; }
          case AuthInitialServerSide =>
            ret := BuildMessage(PreIndication);
            if ret.Sent? || ret.Accepted? { state := PreIndicationSent; }
          case _ => ret := Failed;
        }
      } else if context == Certificate {
        match state {
          case RegRequestReceived =>
            ret := MakeRegResponse(env, device.sni, device.attObj);
            if ret.Sent? || ret.Accepted? { state := RegResponseSent; }
          case AuthRequestReceived =>
            ret := MakeAuthResponse(env, device.sni, device.assertion);
            if ret.Sent? || ret.Accepted? { state := AuthResponseSent; }
          case RegResponseSent => ret := Skipped;
          case PreResponseReceived => ret := Skipped;
          case AuthResponseSent => ret := Skipped;
          case _ => ret := Failed;
        }
      } else {
        return Failed;
      }
    }

    /** `fidossl_client_parse_cb`. */
    method ParseCallback(env: Env, ext: int, context: Context, input: bytes) returns (ret: Ret)
      modifies this
      ensures UdStep(View(), ret) == ClientParse(env, old(View()), ext, context, input)
    {
      hide ProcessPreResponse, ProcessRegRequest, ProcessAuthRequest;
      if ext != FIDOSSL_EXT_TYPE { return Skipped; }
      if context == CertificateRequest {
        match state {
          case PreIndicationSent =>
            ret := TakePreResponse(input);
            if ret.Sent? || ret.Accepted? { state := PreResponseReceived; }
          case RegIndicationSent =>
            ret := TakeRegRequest(env, input);
            if ret.Sent? || ret.Accepted? { state := RegRequestReceived; }
          case AuthIndicationDiscoverableSent =>
            ret := TakeAuthRequest(env, input);
            if ret.Sent? || ret.Accepted? { state := AuthRequestReceived; }
          case AuthIndicationServerSideSent =>
            ret := TakeAuthRequest(env, input);
            if ret.Sent? || ret.Accepted? { state := AuthRequestReceived; }
          case _ => ret := Failed;
        }
      } else if context == Certificate {
        return Skipped;
      } else {
        return Failed;
      }
    }
  }

  /** `init_ud`. */
  method InitUdData(opts: ClientOpts) returns (d: UdData?)
    ensures d == null <==> InitUd(opts).None?
    ensures d != null ==> fresh(d) && d.View() == InitUd(opts).value
  {
    if opts.pin.None? { return null; }
    match opts.mode {
      case RegisterMode =>
        if opts.ticket.None? || opts.displayName.None? { return null; }
        var ticket := DecodeBase64String(opts.ticket.value);
        if ticket.None? { return null; }
        d := new UdData(RegInitial, Registration, None, opts.displayName, ticket);
      case DiscoverableMode =>
        d := new UdData(AuthInitialDiscoverable, AuthDiscoverable, None, None, None);
      case ServerSideMode =>
        d := new UdData(AuthInitialServerSide, AuthServerSide, opts.userName, None, None);
    }
  }
}
