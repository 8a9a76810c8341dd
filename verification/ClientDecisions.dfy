/** Which messages a client accepts, what it takes from them, and what it sends, said of the bytes. */
module ClientDecisions {
  import opened Bytes
  import opened Cbor
  import opened Packets
  import opened RoundTrip
  import opened WireFormat
  import opened Padding
  import opened Environment
  import opened Encoding
  import opened Domain
  import opened UserDevice
  import opened ClientInvariants

  // ---------------------------------------------------------------- indications

  /** The plaintext of a registration indication: a block and the ticket. */
  function NameAndTicket(block: bytes, ticket: bytes): bytes {
    Encode(Array(EncryptedDataItems(EncryptedData(block, ticket))))
  }

  /** The message carries the ephemeral id and, under the key, the padded display name and the ticket. */
  ghost predicate ShowsBoth(env: Env, d: Ud, out: bytes) {
    && d.ephUserId.Some? && d.gcmKey.Some? && d.displayName.Some? && d.ticket.Some?
    && exists block, iv :: PaddedBlock(block, d.displayName.value) && MessageIv(3) == Some(iv)
                           && out == Wire(RegIndication(d.ephUserId.value,
                                                        env.seal(d.gcmKey.value, iv, NameAndTicket(block, d.ticket.value))))
  }

  /** A registration indication is sent exactly if name and ticket have the right lengths, and it carries both. */
  lemma {:induction false} RegIndicationSays(env: Env, d: Ud)
    requires CipherLaws(env) && UdInv(d) && d.state == PreResponseReceived && d.ceremony == Registration
    ensures var t := CreateRegIndication(env, d);
            && t.ud == d.(displayLen := |d.displayName.value|)
            && (t.ret.Sent? <==> 1 <= |d.displayName.value| <= 255 && d.ticket.Some? && |d.ticket.value| == 256)
            && (t.ret.Sent? ==> ShowsBoth(env, d, t.ret.out))
  {
    hide EncryptedDataItems, MessageIv, PaddedBlock, Wire, Pad, Declared, CipherLaws, Encode, ParseEncryptedData, WireLen;
    VectorText(3);
    if Paddable(d.displayName.value) && d.ticket.Some? && |d.ticket.value| == 256 {
      var block := Pad(d.displayName.value);
      PaddingExactly(block, d.displayName.value);
      EncryptedDataRoundTrip(EncryptedData(block, d.ticket.value));
      IndicationFits(env, d.ephUserId.value, d.gcmKey.value, MessageIv(3).value, NameAndTicket(block, d.ticket.value));
    }
  }

  lemma {:induction false} IndicationFits(env: Env, eph: bytes, key: bytes, iv: bytes, plain: bytes)
    requires CipherLaws(env) && |eph| == 256 && |plain| <= 1000
    ensures Build(RegIndication(eph, env.seal(key, iv, plain))).Some? && env.seal(key, iv, plain) != []
    ensures Build(AuthIndicationServerSide(eph, env.seal(key, iv, plain))).Some?
  {
    BuildSucceedsExactly(RegIndication(eph, env.seal(key, iv, plain)));
    BuildSucceedsExactly(AuthIndicationServerSide(eph, env.seal(key, iv, plain)));
    hide Build;
  }

  /** The message carries the ephemeral id and, under the key, the padded user name. */
  ghost predicate ShowsUser(env: Env, d: Ud, out: bytes) {
    && d.ephUserId.Some? && d.gcmKey.Some? && d.userName.Some?
    && exists block, iv :: PaddedBlock(block, d.userName.value) && MessageIv(7) == Some(iv)
                           && out == Wire(AuthIndicationServerSide(d.ephUserId.value, env.seal(d.gcmKey.value, iv, block)))
  }

  /** An indication of a server-side authentication is sent exactly if the name has the right length, and it carries it. */
  lemma {:induction false} AuthIndicationSays(env: Env, d: Ud)
    requires CipherLaws(env) && UdInv(d) && d.state == PreResponseReceived && d.ceremony == AuthServerSide
    ensures var t := CreateAuthIndicationServerSide(env, d);
            && t.ud == d && (t.ret.Sent? <==> d.userName.Some? && 1 <= |d.userName.value| <= 255)
            && (t.ret.Sent? ==> ShowsUser(env, d, t.ret.out))
  {
    hide MessageIv, PaddedBlock, Wire, Pad, Declared, CipherLaws;
    VectorText(7);
    if d.userName.Some? && Paddable(d.userName.value) {
      PaddingExactly(Pad(d.userName.value), d.userName.value);
      IndicationFits(env, d.ephUserId.value, d.gcmKey.value, MessageIv(7).value, Pad(d.userName.value));
    }
  }

  // ---------------------------------------------------------------- registration requests

  /**
    The input is a registration request whose encrypted part opens under the client's key and repeats, as display name,
    exactly the name this client asked to be registered.
   */
  ghost predicate RepeatsName(env: Env, d: Ud, input: bytes, p: RegRequest, s: RegSecret, userName: bytes) {
    && Parse(input, 4) == Some(RegRequestPkt(p))
    && d.gcmKey.Some? && MessageIv(4).Some? && d.displayName.Some?
    && (exists plain :: env.open(d.gcmKey.value, MessageIv(4).value, p.encrypted) == Some(plain)
                        && ParseRegSecret(plain) == Some(s))
    && PaddedBlock(s.userName, userName) && PaddedBlock(s.displayName, d.displayName.value)
  }

  /** What the client has taken over then; optional fields that are absent leave what was there. */
  function TakenOver(d: Ud, p: RegRequest, s: RegSecret, userName: bytes): Ud {
    d.(userName := Some(CStr(userName)), userId := Some(s.userId),
       exclude := if s.exclude != [] then s.exclude else d.exclude,
       challenge := Some(p.challenge), rpId := Some(p.rpId), rpName := Some(p.rpName), params := p.params,
       timeout := if p.timeout != 0 then p.timeout else d.timeout,
       authAttach := if p.sel.attachment != 0 then p.sel.attachment else d.authAttach,
       residentKey := if p.sel.residentKey != 0 then p.sel.residentKey else d.residentKey,
       userVerification := if p.sel.userVerification != 0 then p.sel.userVerification else d.userVerification,
       attestation := if p.attestation != 0 then p.attestation else d.attestation,
       extensions := if p.extensions.Some? then p.extensions else d.extensions)
  }

  lemma {:induction false} NameExactly(d: Ud, name: bytes)
    requires d.displayName.Some? && d.displayLen == |d.displayName.value|
    ensures SameName(d, name) <==> name == d.displayName.value
  {
  }

  lemma {:induction false} SecretExactly(env: Env, d: Ud, encrypted: bytes, o: OpenSecret)
    requires d.gcmKey.Some? && |d.gcmKey.value| == 32
    ensures OpenRegRequest(env, d, encrypted) == Some(o) <==>
            exists plain, s :: MessageIv(4).Some? && env.open(d.gcmKey.value, MessageIv(4).value, encrypted) == Some(plain)
                               && ParseRegSecret(plain) == Some(s)
                               && PaddedBlock(s.userName, o.userName) && PaddedBlock(s.displayName, o.displayName)
                               && s.userId == o.userId && s.exclude == o.exclude
  {
    hide ParseRegSecret, Unpad, PaddedBlock, MessageIv;
    VectorText(4);
    var plain := env.open(d.gcmKey.value, MessageIv(4).value, encrypted);
    if plain.Some? && ParseRegSecret(plain.value).Some? {
      var s := ParseRegSecret(plain.value).value;
      PaddingExactly(s.userName, o.userName);
      PaddingExactly(s.displayName, o.displayName);
      BlocksAreLong(s.userName, o.userName);
      BlocksAreLong(s.displayName, o.displayName);
    }
  }

  lemma {:induction false} BlocksAreLong(p: bytes, d: bytes)
    ensures PaddedBlock(p, d) ==> |p| == BLOCK
  {
  }

  /** A registration request is taken over exactly if it repeats the name, and otherwise nothing changes. */
  lemma {:induction false} RegRequestExactly(env: Env, d: Ud, input: bytes)
    requires UdInv(d) && d.state == RegIndicationSent
    ensures var t := ProcessRegRequest(env, d, input);
            if t.ret == Accepted then exists p, s, userName :: RepeatsName(env, d, input, p, s, userName)
                                                               && t.ud == TakenOver(d, p, s, userName)
            else t == UdStep(d, Failed) && !exists p, s, userName :: RepeatsName(env, d, input, p, s, userName)
  {
    hide Parse, OpenRegRequest, PaddedBlock, ParseRegSecret, MessageIv, CStr, SameName;
    VectorText(4);
    match Parse(input, PKT_REG_REQUEST)
    case Some(RegRequestPkt(p)) =>
      var r := OpenRegRequest(env, d, p.encrypted);
      if r.Some? {
        var o := r.value;
        SecretExactly(env, d, p.encrypted, o);
        NameExactly(d, o.displayName);
        var plain, s :| env.open(d.gcmKey.value, MessageIv(4).value, p.encrypted) == Some(plain)
                        && ParseRegSecret(plain) == Some(s)
                        && PaddedBlock(s.userName, o.userName) && PaddedBlock(s.displayName, o.displayName)
                        && s.userId == o.userId && s.exclude == o.exclude;
        if SameName(d, o.displayName) {
          assert RepeatsName(env, d, input, p, s, o.userName);
          assert StoreRegRequest(d, p, o) == TakenOver(d, p, s, o.userName);
        }
      }
      forall q, s, userName | RepeatsName(env, d, input, q, s, userName)
        ensures r == Some(OpenSecret(userName, d.displayName.value, s.userId, s.exclude)) && q == p
      {
        SecretExactly(env, d, p.encrypted, OpenSecret(userName, d.displayName.value, s.userId, s.exclude));
      }
      NameExactly(d, d.displayName.value);
    case _ =>
  }

  /** The assertion in front of decryption fails exactly for a registration request that meets a client without a key. */
  lemma {:induction false} KeyAsserted(env: Env, d: Ud, input: bytes)
    ensures ProcessRegRequest(env, d, input).ret == Aborted <==>
            (Parse(input, 4).Some? && Parse(input, 4).value.RegRequestPkt?) && (d.gcmKey.None? || |d.gcmKey.value| != 32)
  {
    hide Parse, OpenRegRequest, StoreRegRequest;
  }

  // ---------------------------------------------------------------- authentication requests

  /** The allow list that suits the ceremony: an encrypted one under the client's key, or none at all. */
  ghost predicate AllowFits(env: Env, d: Ud, p: AuthRequest, allow: seq<Descriptor>) {
    if d.ceremony == AuthServerSide then
      && p.allow.Some? && d.gcmKey.Some? && MessageIv(8).Some?
      && exists plain :: env.open(d.gcmKey.value, MessageIv(8).value, p.allow.value) == Some(plain)
                         && ParseAllowList(plain) == Some(allow)
    else
      p.allow.None? && allow == d.allow
  }

  /** What the client has taken over from a request it accepts; an empty challenge is none. */
  function Asked(d: Ud, p: AuthRequest, allow: seq<Descriptor>): Ud {
    d.(challenge := if p.challenge == [] then None else Some(p.challenge),
       rpId := if p.rpId.Some? then p.rpId else d.rpId,
       userVerification := if p.userVerification != 0 then p.userVerification else d.userVerification,
       timeout := if p.timeout != 0 then p.timeout else d.timeout,
       allow := allow, extensions := if p.extensions.Some? then p.extensions else d.extensions)
  }

  /**
    An authentication request is accepted exactly if its allow list suits the ceremony; if only the list is wrong, the
    plain fields have been taken over nevertheless.
   */
  lemma {:induction false} AuthRequestExactly(env: Env, d: Ud, input: bytes)
    requires UdInv(d) && d.state in {AuthIndicationDiscoverableSent, AuthIndicationServerSideSent}
    ensures var t := ProcessAuthRequest(env, d, input);
            if t.ret == Accepted then exists p, allow :: Parse(input, 8) == Some(AuthRequestPkt(p)) && AllowFits(env, d, p, allow)
                                                         && t.ud == Asked(d, p, allow)
            else t.ret == Failed
                 && (!exists p, allow :: Parse(input, 8) == Some(AuthRequestPkt(p)) && AllowFits(env, d, p, allow))
                 && (t.ud == d || exists p :: Parse(input, 8) == Some(AuthRequestPkt(p))
                                              && t.ud == Asked(d, p, d.allow).(extensions := d.extensions))
  {
    hide Parse, ParseAllowList, MessageIv;
    VectorText(8);
    match Parse(input, PKT_AUTH_REQUEST)
    case Some(AuthRequestPkt(p)) =>
      var list := OpenAllowList(env, d, p.allow);
      var allow := if d.ceremony == AuthServerSide && list.Some? then list.value else d.allow;
      assert OpenAllowList(env, StoreAuthRequest(d, p), p.allow) == list;
      if ProcessAuthRequest(env, d, input).ret == Accepted {
        assert AllowFits(env, d, p, allow);
        assert ProcessAuthRequest(env, d, input).ud == Asked(d, p, allow);
      }
    case _ =>
  }

  // ---------------------------------------------------------------- responses

  /** The relying party id is the host in any case of letters, or its labels are the last ones of the host and it is not public. */
  ghost predicate Suits(host: bytes, rpId: bytes, isPublic: bytes -> bool) {
    && rpId != []
    && (CaseVariant(host, rpId)
        || (LabelSuffix(Labels(rpId), Labels(host)) && forall s :: CaseVariant(rpId, s) && NoCapitals(s) ==> !isPublic(s)))
  }

  /** Whether the client may answer at this server name. */
  ghost predicate MayAnswer(env: Env, d: Ud, sni: Option<bytes>) {
    d.rpId.None? || (sni.Some? && Suits(sni.value, d.rpId.value, env.publicSuffix))
  }

  /** The client data: kind of ceremony, challenge, and the server name over https as origin. */
  function Statement(env: Env, kind: string, challenge: bytes, host: bytes): bytes {
    CStr(env.writeJson(ClientData(Some(Chars(kind)), Some(UrlText(challenge)), Some(Chars("https://") + host), true)))
  }

  lemma {:induction false} ValidationExactly(env: Env, d: Ud, sni: Option<bytes>)
    ensures var (t, ok) := ValidateRpId(env, d, sni);
            && (ok <==> MayAnswer(env, d, sni))
            && t == d.(origin := if sni.Some? then Some(Chars("https://") + sni.value) else None, effectiveDomain := sni,
                       rpId := if d.rpId.Some? then d.rpId else sni)
  {
    hide Chars, CaseVariant, Labels, LabelSuffix, NoCapitals;
    if d.rpId.Some? && sni.Some? {
      AcceptsLabels(sni.value, d.rpId.value, env.publicSuffix);
    }
    hide Accepts;
  }

  /** What a registration response needs. */
  ghost predicate CanRegister(env: Env, d: Ud, device: Device) {
    && MayAnswer(env, d, device.sni) && device.sni.Some? && d.challenge.Some? && d.challenge.value != []
    && device.attObj.Some? && 1 <= |device.attObj.value| <= 8192
    && WireLen(RegResponse(device.attObj.value, Statement(env, "webauthn.create", d.challenge.value, device.sni.value))) <= 2000
  }

  /** A registration response is sent exactly if nothing is missing, and it carries the attestation and the client data. */
  lemma {:induction false} RegResponseSays(env: Env, d: Ud, device: Device)
    ensures var t := CreateRegResponse(env, d, device.sni, device.attObj);
            && (t.ret.Sent? <==> CanRegister(env, d, device))
            && (t.ret.Sent? ==>
                  var json := Statement(env, "webauthn.create", d.challenge.value, device.sni.value);
                  t.ret.out == Wire(RegResponse(device.attObj.value, json)))
  {
    hide Chars, CStr, UrlText, MayAnswer, Wire, WireLen;
    ValidationExactly(env, d, device.sni);
    hide ValidateRpId;
    if device.sni.Some? && device.attObj.Some? && d.challenge.Some? {
      var p := RegResponse(device.attObj.value, Statement(env, "webauthn.create", d.challenge.value, device.sni.value));
      BuildSucceedsExactly(p);
    }
    hide Declared, LengthsAccepted;
    AnswersNeedName(env, d, device.sni);
  }

  lemma {:induction false} AnswersNeedName(env: Env, d: Ud, sni: Option<bytes>)
    ensures MayAnswer(env, d, sni) && d.rpId.Some? ==> sni.Some?
  {
  }

  /** Everything an authenticator must return; only with a list of credentials the user handle may be missing. */
  predicate Complete(d: Ud, a: Assertion) {
    && (|a.userId| == 64 || (a.userId == [] && d.ceremony == AuthServerSide))
    && a.authData != [] && a.signature != [] && a.credId != []
  }

  /** The message with what the authenticator returned. */
  function Answer(env: Env, challenge: bytes, host: bytes, a: Assertion): Packet {
    AuthResponsePkt(AuthResponse(Statement(env, "webauthn.get", challenge, host), a.authData, a.signature, a.userId, a.credId))
  }

  /** What an authentication response needs. */
  ghost predicate CanAnswer(env: Env, d: Ud, device: Device) {
    && MayAnswer(env, d, device.sni) && device.sni.Some? && d.challenge.Some? && d.challenge.value != []
    && (d.ceremony == AuthServerSide ==> d.allow != [])
    && device.assertion.Some? && Complete(d, device.assertion.value)
    && WireLen(Answer(env, d.challenge.value, device.sni.value, device.assertion.value)) <= 2000
  }

  /** An authentication response is sent exactly if nothing is missing, and it is that message. */
  lemma {:induction false} AuthResponseSays(env: Env, d: Ud, device: Device)
    ensures var t := CreateAuthResponse(env, d, device.sni, device.assertion);
            && (t.ret.Sent? <==> CanAnswer(env, d, device))
            && (t.ret.Sent? ==> t.ret.out == Wire(Answer(env, d.challenge.value, device.sni.value, device.assertion.value)))
  {
    hide Chars, CStr, UrlText, MayAnswer, Wire, WireLen;
    ValidationExactly(env, d, device.sni);
    hide ValidateRpId;
    if device.sni.Some? && device.assertion.Some? && d.challenge.Some? {
      BuildSucceedsExactly(Answer(env, d.challenge.value, device.sni.value, device.assertion.value));
    }
    hide Declared, LengthsAccepted;
    AnswersNeedName(env, d, device.sni);
  }
}
