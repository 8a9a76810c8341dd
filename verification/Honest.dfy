/** Honest runs: both sides talk to each other through whole handshakes, and both ends agree. */
module Honest {
  import opened Bytes
  import opened Cbor
  import opened Packets
  import opened OptionalMaps
  import opened RoundTrip
  import opened WireFormat
  import opened Padding
  import opened Environment
  import opened Encoding
  import opened Domain
  import opened Store
  import opened AuthenticatorData
  import opened RelyingParty
  import opened UserDevice
  import opened ServerInvariants
  import opened ServerDecisions
  import opened Session

  // ---------------------------------------------------------------- handshakes

  /** ClientHello and CertificateRequest, each with a message. There is no result if a callback fails. */
  function RequestPhase(env: Env, p: Pair, device: Device, rnd: Random, dbExists: bool): Option<Pair> {
    var c1 := ClientAdd(env, p.ud, FIDOSSL_EXT_TYPE, ClientHello, device);
    if !c1.ret.Sent? then None else
    var s1 := ServerParse(env, p.rp, p.db, dbExists, FIDOSSL_EXT_TYPE, ClientHello, c1.ret.out);
    if s1.ret != Accepted then None else
    var s2 := ServerAdd(env, s1.rp, s1.db, FIDOSSL_EXT_TYPE, CertificateRequest, rnd);
    if !s2.ret.Sent? then None else
    var c2 := ClientParse(env, c1.ud, FIDOSSL_EXT_TYPE, CertificateRequest, s2.ret.out);
    if c2.ret != Accepted then None else Some(Pair(c2.ud, s2.rp, s2.db))
  }

  /** The client's Certificate, with a message unless its callback skips it; a second call must skip it. */
  function ResponsePhase(env: Env, p: Pair, device: Device, dbExists: bool): Option<Pair> {
    var c3 := ClientAdd(env, p.ud, FIDOSSL_EXT_TYPE, Certificate, device);
    if c3.ret == Skipped then Some(p.(ud := c3.ud))
    else if !c3.ret.Sent? then None else
    var c4 := ClientAdd(env, c3.ud, FIDOSSL_EXT_TYPE, Certificate, device);
    if c4.ret != Skipped then None else
    var s3 := ServerParse(env, p.rp, p.db, dbExists, FIDOSSL_EXT_TYPE, Certificate, c3.ret.out);
    if s3.ret != Accepted then None else Some(Pair(c4.ud, s3.rp, s3.db))
  }

  /** One TLS handshake. */
  function Handshake(env: Env, p: Pair, device: Device, rnd: Random, dbExists: bool): Option<Pair> {
    var q :- RequestPhase(env, p, device, rnd, dbExists);
    ResponsePhase(env, q, device, dbExists)
  }

  lemma {:induction false} RequestPhaseIs(env: Env, p: Pair, device: Device, rnd: Random, dbExists: bool,
                                          c1: UdStep, s1: RpStep, s2: RpStep, c2: UdStep)
    requires c1 == ClientAdd(env, p.ud, FIDOSSL_EXT_TYPE, ClientHello, device) && c1.ret.Sent?
    requires s1 == ServerParse(env, p.rp, p.db, dbExists, FIDOSSL_EXT_TYPE, ClientHello, c1.ret.out) && s1.ret == Accepted
    requires s2 == ServerAdd(env, s1.rp, s1.db, FIDOSSL_EXT_TYPE, CertificateRequest, rnd) && s2.ret.Sent?
    requires c2 == ClientParse(env, c1.ud, FIDOSSL_EXT_TYPE, CertificateRequest, s2.ret.out) && c2.ret == Accepted
    ensures RequestPhase(env, p, device, rnd, dbExists) == Some(Pair(c2.ud, s2.rp, s2.db))
  {
    hide ClientAdd, ServerParse, ServerAdd, ClientParse;
  }

  /** The laws of the libraries. */
  ghost predicate EnvLaws(env: Env) {
    HashLengths(env) && CipherLaws(env) && JsonLaws(env)
  }

  /** A message within the limits of the parser, once built, is read as it was written, up to defaults. */
  lemma {:induction false} Delivered(p: Packet)
    requires Limits(p) && BuildAsserts(p) && Build(p).Some?
    ensures BuildRet(p) == Sent(Build(p).value)
    ensures PacketType(Build(p).value) == Some(TypeOf(p))
    ensures Parse(Build(p).value, TypeOf(p)) == Some(Normal(p))
  {
    hide Limits, Parse, PacketType, Build, Normal, BuildAsserts;
    BuildThenParse(p, TypeOf(p));
  }

  // ---------------------------------------------------------------- the pre-handshake

  predicate BeforePreHandshake(d: Ud, r: Rp) {
    (d.state == RegInitial || d.state == AuthInitialServerSide) && r.state == Initial
  }

  /** After the pre-handshake both sides know the key, the server only by way of the ephemeral id. */
  function PreHandshaken(env: Env, p: Pair, rnd: Random): Pair {
    Pair(p.ud.(state := PreResponseReceived, ephUserId := Some(rnd.eph), gcmKey := Some(env.hmac(p.rp.kEp, rnd.eph))),
         p.rp.(state := PreResponseSent, ephLen := 256), p.db)
  }

  lemma {:induction false} PreRequestPhase(env: Env, p: Pair, device: Device, rnd: Random, dbExists: bool)
    requires EnvLaws(env) && RandomLengths(rnd) && BeforePreHandshake(p.ud, p.rp)
    ensures RequestPhase(env, p, device, rnd, dbExists) == Some(PreHandshaken(env, p, rnd))
  {
    hide Parse, PacketType, Build, RequestPhase, ClientAdd, ServerParse, ServerAdd, ClientParse, EnvLaws;
    LawsOfHashes(env);
    PreIndicationExchanged(env, p, device, dbExists);
    PreResponseExchanged(env, p, rnd);
    var m2 := PreResponse(rnd.eph, env.hmac(p.rp.kEp, rnd.eph));
    var q := PreHandshaken(env, p, rnd);
    RequestPhaseIs(env, p, device, rnd, dbExists, UdStep(p.ud.(state := PreIndicationSent), Sent(Build(PreIndication).value)),
                   RpStep(p.rp.(state := PreIndicationReceived), p.db, Accepted),
                   RpStep(q.rp, p.db, Sent(Build(m2).value)), UdStep(q.ud, Accepted));
  }

  lemma {:induction false} PreIndicationExchanged(env: Env, p: Pair, device: Device, dbExists: bool)
    requires BeforePreHandshake(p.ud, p.rp)
    ensures Build(PreIndication).Some?
    ensures ClientAdd(env, p.ud, FIDOSSL_EXT_TYPE, ClientHello, device) ==
            UdStep(p.ud.(state := PreIndicationSent), Sent(Build(PreIndication).value))
    ensures ServerParse(env, p.rp, p.db, dbExists, FIDOSSL_EXT_TYPE, ClientHello, Build(PreIndication).value) ==
            RpStep(p.rp.(state := PreIndicationReceived), p.db, Accepted)
  {
    hide Parse, PacketType, Build, WireLen;
    assert WireLen(PreIndication) == 2 by { PreLengths(PreResponse(Zeros(256), Zeros(32))); }
    BuildSucceedsExactly(PreIndication);
    Delivered(PreIndication);
  }

  lemma {:induction false} PreResponseExchanged(env: Env, p: Pair, rnd: Random)
    requires HashLengths(env) && RandomLengths(rnd)
    ensures var m2, q := PreResponse(rnd.eph, env.hmac(p.rp.kEp, rnd.eph)), PreHandshaken(env, p, rnd);
            && Build(m2).Some?
            && ServerAdd(env, p.rp.(state := PreIndicationReceived), p.db, FIDOSSL_EXT_TYPE, CertificateRequest, rnd) ==
               RpStep(q.rp, p.db, Sent(Build(m2).value))
            && ClientParse(env, p.ud.(state := PreIndicationSent), FIDOSSL_EXT_TYPE, CertificateRequest, Build(m2).value) ==
               UdStep(q.ud, Accepted)
  {
    hide Parse, PacketType, Build, WireLen;
    var m2 := PreResponse(rnd.eph, env.hmac(p.rp.kEp, rnd.eph));
    PreLengths(m2);
    BuildSucceedsExactly(m2);
    Delivered(m2);
  }

  lemma {:induction false} PreLengths(m: Packet)
    requires m.PreResponse? && |m.eph| == 256 && |m.key| == 32
    ensures WireLen(PreIndication) == 2 && WireLen(m) <= BUF_SIZE
  {
  }

  /** The client's Certificate callback is skipped, so the first handshake carries no response. */
  lemma {:induction false} PreHandshake(env: Env, p: Pair, device: Device, rnd: Random, dbExists: bool)
    requires EnvLaws(env) && RandomLengths(rnd) && BeforePreHandshake(p.ud, p.rp)
    ensures Handshake(env, p, device, rnd, dbExists) == Some(PreHandshaken(env, p, rnd))
  {
    hide RequestPhase, EnvLaws, ServerParse;
    PreRequestPhase(env, p, device, rnd, dbExists);
  }

  // ---------------------------------------------------------------- names and texts

  /** A name that survives padding and being read as a C string. */
  predicate GoodName(name: bytes) {
    Paddable(name) && NulFree(name)
  }

  lemma {:induction false} ConstantTexts()
    ensures Ascii(Chars("webauthn.create")) && Ascii(Chars("webauthn.get")) && Ascii(Chars("https://"))
  {
    var c, g, h := "webauthn.create", "webauthn.get", "https://";
    assert c[0] == 'w' && c[1] == 'e' && c[2] == 'b' && c[3] == 'a' && c[4] == 'u' && c[5] == 't' && c[6] == 'h';
    assert c[7] == 'n' && c[8] == '.' && c[9] == 'c' && c[10] == 'r' && c[11] == 'e' && c[12] == 'a' && c[13] == 't';
    assert c[14] == 'e';
    assert g[0] == 'w' && g[1] == 'e' && g[2] == 'b' && g[3] == 'a' && g[4] == 'u' && g[5] == 't' && g[6] == 'h';
    assert g[7] == 'n' && g[8] == '.' && g[9] == 'g' && g[10] == 'e' && g[11] == 't';
    assert h[0] == 'h' && h[1] == 't' && h[2] == 't' && h[3] == 'p' && h[4] == 's' && h[5] == ':' && h[6] == '/';
    assert h[7] == '/';
  }

  lemma {:induction false} AsciiIsNulFree(s: bytes)
    requires Ascii(s)
    ensures CStr(s) == s
  {
  }

  lemma {:induction false} UrlTextIsAscii(x: bytes)
    ensures Ascii(UrlText(x))
  {
    UrlTextIsUrlSafe(x);
    hide UrlText;
  }

  /** The client data an honest client writes. */
  function HonestClientData(challenge: bytes, rpId: bytes, mode: Mode): ClientData {
    ClientData(Some(KindOf(mode)), Some(UrlText(challenge)), Some(OriginOf(rpId)), true)
  }

  function HonestJson(env: Env, challenge: bytes, rpId: bytes, mode: Mode): bytes {
    env.writeJson(HonestClientData(challenge, rpId, mode))
  }

  /** The server finds in the client data of an honest client everything it looks for. */
  lemma {:induction false} ClientDataAccepted(env: Env, r: Rp, mode: Mode)
    requires JsonLaws(env) && Ascii(r.rpId) && HasChallenge(r)
    ensures var json := HonestJson(env, r.challenge.value, r.rpId, mode);
            CStr(json) == json && json != [] && VerifyClientData(env, r, json, mode) == Accepted
  {
    hide UrlDecode, UrlText, Chars, CStr, JsonLaws, Ascii;
    var challenge := r.challenge.value;
    HonestTexts(challenge, r.rpId, mode);
    UrlRoundTrip(challenge);
    JsonRoundTrip(env, KindOf(mode), UrlText(challenge), OriginOf(r.rpId));
    hide KindOf, OriginOf;
    assert ClientDataMatches(HonestClientData(challenge, r.rpId, mode), r.rpId, challenge, mode);
  }

  lemma {:induction false} JsonRoundTrip(env: Env, kind: bytes, challenge: bytes, origin: bytes)
    requires JsonLaws(env) && Ascii(kind) && Ascii(challenge) && Ascii(origin)
    ensures var cd := ClientData(Some(kind), Some(challenge), Some(origin), true);
            var json := env.writeJson(cd); env.readJson(json) == Some(cd) && CStr(json) == json && json != []
  {
    hide Ascii;
  }

  lemma {:induction false} HonestTexts(challenge: bytes, rpId: bytes, mode: Mode)
    requires Ascii(rpId)
    ensures Ascii(KindOf(mode)) && CStr(KindOf(mode)) == KindOf(mode)
    ensures Ascii(UrlText(challenge)) && CStr(UrlText(challenge)) == UrlText(challenge)
    ensures Ascii(OriginOf(rpId)) && CStr(OriginOf(rpId)) == OriginOf(rpId)
  {
    hide UrlText, CStr, Chars;
    ConstantTexts();
    UrlTextIsAscii(challenge);
    assert Ascii(OriginOf(rpId));
    AsciiIsNulFree(KindOf(mode));
    AsciiIsNulFree(OriginOf(rpId));
    AsciiIsNulFree(UrlText(challenge));
  }

  /**
    The client answers for any host that the relying party id suits, but the server takes the answer exactly when the
    host is the relying party id itself.
   */
  lemma {:induction false} ServerNameMustBeRpId(env: Env, r: Rp, host: bytes, mode: Mode)
    requires JsonLaws(env) && Ascii(host) && HasChallenge(r)
    ensures var json := HonestJson(env, r.challenge.value, host, mode);
            VerifyClientData(env, r, CStr(json), mode) == Accepted <==> host == r.rpId
  {
    hide UrlDecode, UrlText, Chars, CStr, JsonLaws, Ascii;
    var challenge := r.challenge.value;
    HonestTexts(challenge, host, mode);
    UrlRoundTrip(challenge);
    JsonRoundTrip(env, KindOf(mode), UrlText(challenge), OriginOf(host));
    assert OriginOf(host)[|Chars("https://")|..] == host;
    assert OriginOf(r.rpId)[|Chars("https://")|..] == r.rpId;
  }

  // ---------------------------------------------------------------- registration

  /** What registration needs of the two contexts; the client's name is the server's whole knowledge of the user. */
  predicate RegReady(d: Ud, r: Rp, name: bytes) {
    && d.state == PreResponseReceived && d.ceremony == Registration && r.state == PreResponseSent && r.ephLen == 256
    && GoodName(name) && d.displayName == Some(name)
    && d.ticket.Some? && |d.ticket.value| == 256 && r.ticket == d.ticket
    && d.ephUserId.Some? && |d.ephUserId.value| == 256
    && TextReadable(r.rpId) && TextReadable(r.rpName)
    && r.authAttach <= 2 && r.residentKey <= 3 && r.userVerification <= 3 && r.attestation <= 4
  }

  /** The server derives the client's key again from the ephemeral id. */
  predicate SameKey(env: Env, d: Ud, r: Rp) {
    d.ephUserId.Some? && d.gcmKey == Some(env.hmac(r.kEp, d.ephUserId.value))
  }

  function RegIndicationOf(env: Env, d: Ud): Packet
    requires d.displayName.Some? && Paddable(d.displayName.value) && d.ticket.Some? && d.ephUserId.Some? && d.gcmKey.Some?
  {
    var plain := Encode(Array(EncryptedDataItems(EncryptedData(Pad(d.displayName.value), d.ticket.value))));
    RegIndication(d.ephUserId.value, env.seal(d.gcmKey.value, MessageIv(PKT_REG_INDICATION).value, plain))
  }

  lemma {:induction false} RegIndicationGoesOut(env: Env, d: Ud, r: Rp, name: bytes)
    requires EnvLaws(env) && RegReady(d, r, name) && SameKey(env, d, r)
    ensures Limits(RegIndicationOf(env, d)) && Build(RegIndicationOf(env, d)).Some?
    ensures CreateRegIndication(env, d) ==
            UdStep(d.(displayLen := |name|), Sent(Build(RegIndicationOf(env, d)).value))
  {
    hide EncryptedDataItems, Build, Pad, ParseEncryptedData, Parse, PacketType, JsonLaws, WireLen;
    var data := EncryptedData(Pad(name), d.ticket.value);
    EncryptedDataRoundTrip(data);
    RegIndicationFits(env, d);
    BuildSucceedsExactly(RegIndicationOf(env, d));
    Delivered(RegIndicationOf(env, d));
  }

  lemma {:induction false} RegIndicationFits(env: Env, d: Ud)
    requires CipherLaws(env) && d.displayName.Some? && Paddable(d.displayName.value) && d.ticket.Some? && d.gcmKey.Some?
    requires d.ephUserId.Some? && |d.ephUserId.value| == 256 && |d.ticket.value| == 256
    ensures BuildAsserts(RegIndicationOf(env, d)) && WireLen(RegIndicationOf(env, d)) <= BUF_SIZE
  {
    hide EncryptedDataItems, Pad, ParseEncryptedData;
    EncryptedDataRoundTrip(EncryptedData(Pad(d.displayName.value), d.ticket.value));
  }

  /** The server finds the name behind ticket, encoding, encryption and padding. */
  lemma {:induction false} RegIndicationOpens(env: Env, d: Ud, r: Rp, name: bytes)
    requires CipherLaws(env) && RegReady(d, r, name) && d.gcmKey.Some? && |d.gcmKey.value| == 32
    ensures OpenRegIndication(env, r.(gcmKey := d.gcmKey), RegIndicationOf(env, d).encrypted) == Some(name)
  {
    hide EncryptedDataItems, Pad, Unpad, ParseEncryptedData, CStr;
    var data := EncryptedData(Pad(name), d.ticket.value);
    EncryptedDataRoundTrip(data);
    UnpadPad(name);
    var plain := Encode(Array(EncryptedDataItems(data)));
    assert Decrypt(env, d.gcmKey, PKT_REG_INDICATION, RegIndicationOf(env, d).encrypted) == Some(plain);
  }

  lemma {:induction false} RegIndicationArrives(env: Env, d: Ud, r: Rp, db: Db, name: bytes)
    requires EnvLaws(env) && RegReady(d, r, name) && SameKey(env, d, r) && Build(RegIndicationOf(env, d)).Some?
    requires Limits(RegIndicationOf(env, d))
    ensures ProcessIndication(env, r, db, true, Build(RegIndicationOf(env, d)).value) ==
            RpStep(r.(gcmKey := d.gcmKey, displayName := Some(name), userName := Some(name), ceremony := Registration,
                      state := RegIndicationReceived), db, Accepted)
  {
    hide OpenRegIndication, Build, Parse, PacketType, CStr, Limits, BuildAsserts, WireLen, CipherLaws, JsonLaws, Encode, Pad;
    NamesAreCStrings(name);
    RegIndicationFits(env, d);
    RegIndicationOpens(env, d, r, name);
    Delivered(RegIndicationOf(env, d));
  }

  /** The server after the registration indication. */
  predicate RegIndicated(r: Rp, db: Db, name: bytes) {
    && r.state == RegIndicationReceived && r.userName == Some(name) && r.displayName == Some(name) && GoodName(name)
    && HasKey(r) && StoreInv(db) && TextReadable(r.rpId) && TextReadable(r.rpName)
    && r.authAttach <= 2 && r.residentKey <= 3 && r.userVerification <= 3 && r.attestation <= 4
  }

  /** What the registration request encrypts: the credentials to exclude are those the user already has here. */
  function SecretFor(r: Rp, db: Db, name: bytes, userId: bytes): RegSecret
    requires Paddable(name)
  {
    var ds := Descriptors(db, userId, r.rpId);
    RegSecret(Pad(name), Pad(name), userId, if ds.Some? then ds.value else [])
  }

  function RegCipher(env: Env, r: Rp, s: RegSecret): bytes
    requires r.gcmKey.Some?
  {
    env.seal(r.gcmKey.value, MessageIv(PKT_REG_REQUEST).value, Encode(Array(RegSecretItems(s))))
  }

  lemma {:induction false} SecretReadable(r: Rp, db: Db, name: bytes, userId: bytes)
    requires Paddable(name) && StoreInv(db)
    ensures Descriptors(db, userId, r.rpId) == Some(SecretFor(r, db, name, userId).exclude)
    ensures DescriptorsReadable(SecretFor(r, db, name, userId).exclude)
  {
    DescriptorsFound(db, userId, r.rpId);
    hide Descriptors;
  }

  lemma {:induction false} RegRequestGoesOut(env: Env, r: Rp, db: Db, rnd: Random, name: bytes, userId: bytes)
    requires EnvLaws(env) && RegIndicated(r, db, name) && RandomLengths(rnd) && userId == RegistrationUserId(r, db, rnd)
    requires |userId| == 64 && BuildInner(RegSecretItems(SecretFor(r, db, name, userId))).Some?
    ensures var p := RegRequestPkt(RegRequestOf(r, rnd.challenge, RegCipher(env, r, SecretFor(r, db, name, userId))));
            && Limits(p) && Build(p).Some?
            && CreateRegRequest(env, r, db, rnd) ==
               RpStep(r.(challenge := Some(rnd.challenge), userId := Some(userId)), db, Sent(Build(p).value))
  {
    hide RegSecretItems, Build, Pad, Descriptors, RegistrationUserId, StoreInv, Wire;
    SecretReadable(r, db, name, userId);
    var s := SecretFor(r, db, name, userId);
    var cipher := RegCipher(env, r, s);
    OuterFits(s, r.rpId, r.rpName, rnd.challenge, cipher, r.timeout,
              AuthSel(r.authAttach, r.residentKey, r.userVerification), r.attestation);
    Delivered(RegRequestPkt(RegRequestOf(r, rnd.challenge, cipher)));
  }

  lemma {:induction false} RegRequestArrives(env: Env, d: Ud, p: RegRequest, s: RegSecret, name: bytes)
    requires EnvLaws(env) && Limits(RegRequestPkt(p)) && Build(RegRequestPkt(p)).Some? && Paddable(name)
    requires d.gcmKey.Some? && |d.gcmKey.value| == 32 && d.displayName == Some(name) && d.displayLen == |name|
    requires s.userName == Pad(name) && s.displayName == Pad(name) && |s.userId| == 64 && DescriptorsReadable(s.exclude)
    requires BuildInner(RegSecretItems(s)).Some?
    requires p.encrypted == env.seal(d.gcmKey.value, MessageIv(PKT_REG_REQUEST).value, Encode(Array(RegSecretItems(s))))
    ensures ProcessRegRequest(env, d, Build(RegRequestPkt(p)).value) ==
            UdStep(StoreRegRequest(d, NormalReg(p), OpenSecret(name, name, s.userId, s.exclude)), Accepted)
  {
    hide RegSecretItems, Build, Pad, Unpad, Parse, ParseRegSecret, Limits, PacketType, StoreRegRequest;
    RegSecretRoundTrip(s);
    UnpadPad(name);
    assert BuildAsserts(RegRequestPkt(p)) by { LimitsAssert(p); CipherLength(env, d.gcmKey.value, s); }
    Delivered(RegRequestPkt(p));
    var plain := Encode(Array(RegSecretItems(s)));
    assert Decrypt(env, d.gcmKey, PKT_REG_REQUEST, p.encrypted) == Some(plain);
    assert OpenRegRequest(env, d, NormalReg(p).encrypted) == Some(OpenSecret(name, name, s.userId, s.exclude));
  }

  lemma {:induction false} LimitsAssert(p: RegRequest)
    requires Limits(RegRequestPkt(p))
    ensures p.challenge != [] && p.params != []
  {
  }

  lemma {:induction false} CipherLength(env: Env, key: bytes, s: RegSecret)
    requires CipherLaws(env)
    ensures env.seal(key, MessageIv(PKT_REG_REQUEST).value, Encode(Array(RegSecretItems(s)))) != []
  {
    hide Encode, RegSecretItems;
  }

  /** The client once it has a request and the server name is the relying party id. */
  predicate Responsive(d: Ud, device: Device, rpId: bytes) {
    d.challenge.Some? && |d.challenge.value| == 32 && d.rpId == Some(rpId) && device.sni == Some(rpId) && rpId != []
  }

  function WithClientData(d: Ud, rpId: bytes, json: bytes): Ud {
    d.(origin := Some(OriginOf(rpId)), effectiveDomain := Some(rpId), clientData := Some(json))
  }

  lemma {:induction false} RegResponseGoesOut(env: Env, d: Ud, device: Device, rpId: bytes, attObj: bytes)
    requires Responsive(d, device, rpId) && device.attObj == Some(attObj) && attObj != []
    requires var json := HonestJson(env, d.challenge.value, rpId, Register);
             CStr(json) == json && WireLen(RegResponse(attObj, json)) <= BUF_SIZE
    ensures var json := HonestJson(env, d.challenge.value, rpId, Register);
            && Build(RegResponse(attObj, json)).Some?
            && CreateRegResponse(env, d, device.sni, device.attObj) ==
               UdStep(WithClientData(d, rpId, json), Sent(Build(RegResponse(attObj, json)).value))
  {
    var json := HonestJson(env, d.challenge.value, rpId, Register);
    BuildSucceedsExactly(RegResponse(attObj, json));
    hide Build, CStr, Chars, UrlText, Wire;
  }

  /** The authenticator made a new credential, and libfido2 confirms it. */
  predicate AttestationWorks(env: Env, r: Rp, db: Db, attObj: bytes, json: bytes, c: NewCredential) {
    && r.attestation == 3 && c.id != [] && c.pubkey.Some? && !HasCred(db, c.id)
    && match env.attest(AttestationCheck(r.rpId, r.rpName, r.userVerification == 1, r.residentKey == 3, json, attObj))
       case None => false
       case Some(v) =>
         && v.id == c.id && |v.id| <= 1023 && Signed(v.signCount) == c.signCount
         && ParseData(v.authData).Some? && KeyOf(ParseData(v.authData).value) == c.pubkey
  }

  lemma {:induction false} RegResponseArrives(env: Env, r: Rp, db: Db, attObj: bytes, json: bytes, c: NewCredential)
    requires HasChallenge(r) && HasUserId(r) && HasName(r) && attObj != [] && json != []
    requires WireLen(RegResponse(attObj, json)) <= BUF_SIZE
    requires VerifyClientData(env, r, json, Register) == Accepted && AttestationWorks(env, r, db, attObj, json, c)
    requires AddUser(db, r.userId.value, r.userName.value).ok && Build(RegResponse(attObj, json)).Some?
    ensures ProcessRegResponse(env, r, db, Build(RegResponse(attObj, json)).value) ==
            RpStep(r.(challenge := None),
                   AddCreds(db, r.userId.value, r.userName.value, r.rpId, c.id, c.pubkey, c.signCount).db, Accepted)
    ensures AddCreds(db, r.userId.value, r.userName.value, r.rpId, c.id, c.pubkey, c.signCount).ok
  {
    Delivered(RegResponse(attObj, json));
    assert VerifiedRegistration(env, r, attObj, json) == Some(c) by {
      hide VerifyClientData, ParseData;
    }
    UserAddedOnly(db, r.userId.value, r.userName.value, c.id);
    hide Parse, Build, PacketType, VerifiedRegistration, VerifyClientData, ParseData, AddUser, HasCred;
  }

  lemma {:induction false} UserAddedOnly(db: Db, id: bytes, name: bytes, credId: bytes)
    ensures HasCred(AddUser(db, id, name).db, credId) == HasCred(db, credId)
    ensures AddUser(db, id, name).db.creds == db.creds
  {
  }

  /** Who a registration is for, and which credential results. */
  datatype Registrant = Registrant(name: bytes, userId: bytes, attObj: bytes, cred: NewCredential)

  /** What an honest registration needs beyond the two contexts: sizes, a store without the credential, an authenticator. */
  predicate RegPossible(env: Env, r: Rp, db: Db, device: Device, rnd: Random, x: Registrant) {
    && StoreInv(db) && RandomLengths(rnd) && Ascii(r.rpId)
    && x.userId == (if UserIdOf(db, x.name).Some? then UserIdOf(db, x.name).value else rnd.userId)
    && Paddable(x.name) && BuildInner(RegSecretItems(SecretFor(r, db, x.name, x.userId))).Some?
    && device.sni == Some(r.rpId) && device.attObj == Some(x.attObj) && x.attObj != []
    && WireLen(RegResponse(x.attObj, HonestJson(env, rnd.challenge, r.rpId, Register))) <= BUF_SIZE
    && AttestationWorks(env, r, db, x.attObj, HonestJson(env, rnd.challenge, r.rpId, Register), x.cred)
  }

  /** The server's data when its registration request is out. */
  function RegRequested(r: Rp, d: Ud, rnd: Random, x: Registrant): Rp {
    r.(state := RegRequestSent, gcmKey := d.gcmKey, displayName := Some(x.name), userName := Some(x.name),
       ceremony := Registration, challenge := Some(rnd.challenge), userId := Some(x.userId))
  }

  /** The two ends agree on key, challenge, relying party, user name and user id. */
  predicate Agree(d: Ud, r: Rp) {
    && d.gcmKey == r.gcmKey && d.challenge == r.challenge && d.rpId == Some(r.rpId)
    && d.userName == r.userName && d.userId == r.userId
  }

  /** The pair of contexts once the registration request was processed. */
  ghost predicate RegRequestDone(p: Pair, q: Pair, rnd: Random, x: Registrant) {
    && q.ud.state == RegRequestReceived && q.rp == RegRequested(p.rp, p.ud, rnd, x) && q.db == p.db && Agree(q.ud, q.rp)
    && Descriptors(p.db, x.userId, p.rp.rpId).Some?
    && (p.ud.exclude == [] ==> q.ud.exclude == Descriptors(p.db, x.userId, p.rp.rpId).value)
  }

  /** The contexts while the indication and the request are under way. */
  function RegIndicatedUd(d: Ud, name: bytes): Ud {
    d.(displayLen := |name|, state := RegIndicationSent)
  }

  function RegIndicatedRp(d: Ud, r: Rp, name: bytes): Rp {
    r.(gcmKey := d.gcmKey, displayName := Some(name), userName := Some(name), ceremony := Registration,
       state := RegIndicationReceived)
  }

  lemma {:induction false} RegIndicationExchanged(env: Env, d: Ud, r: Rp, db: Db, device: Device, name: bytes)
    requires EnvLaws(env) && RegReady(d, r, name) && SameKey(env, d, r)
    ensures Build(RegIndicationOf(env, d)).Some?
    ensures ClientAdd(env, d, FIDOSSL_EXT_TYPE, ClientHello, device) ==
            UdStep(RegIndicatedUd(d, name), Sent(Build(RegIndicationOf(env, d)).value))
    ensures ServerParse(env, r, db, true, FIDOSSL_EXT_TYPE, ClientHello, Build(RegIndicationOf(env, d)).value) ==
            RpStep(RegIndicatedRp(d, r, name), db, Accepted)
  {
    hide Build, Limits, Pad, EnvLaws, ProcessIndication, CreateRegIndication, RegIndicationOf;
    RegIndicationGoesOut(env, d, r, name);
    RegIndicationArrives(env, d, r, db, name);
  }

  /** The request the server makes for `x`. */
  function RequestFor(env: Env, d: Ud, r: Rp, db: Db, rnd: Random, x: Registrant): RegRequest
    requires d.gcmKey.Some? && Paddable(x.name)
  {
    var r1 := RegIndicatedRp(d, r, x.name);
    RegRequestOf(r1, rnd.challenge, RegCipher(env, r1, SecretFor(r1, db, x.name, x.userId)))
  }

  lemma {:induction false} ServerRequests(env: Env, d: Ud, r: Rp, db: Db, device: Device, rnd: Random, x: Registrant)
    requires EnvLaws(env) && RegReady(d, r, x.name) && d.gcmKey.Some? && |d.gcmKey.value| == 32
    requires RegPossible(env, r, db, device, rnd, x)
    ensures var p := RequestFor(env, d, r, db, rnd, x);
            && Limits(RegRequestPkt(p)) && Build(RegRequestPkt(p)).Some?
            && ServerAdd(env, RegIndicatedRp(d, r, x.name), db, FIDOSSL_EXT_TYPE, CertificateRequest, rnd) ==
               RpStep(RegRequested(r, d, rnd, x), db, Sent(Build(RegRequestPkt(p)).value))
  {
    hide BuildInner, Build, Limits, Pad, Descriptors, StoreInv, EnvLaws, AttestationWorks, SecretFor, RegCipher;
    hide CreateRegRequest, RegSecretItems, WireLen, HonestJson, CStr, Encode;
    UserIdLength(db, rnd, x);
    assert SecretFor(RegIndicatedRp(d, r, x.name), db, x.name, x.userId) == SecretFor(r, db, x.name, x.userId) by {
      SecretBySite(r, RegIndicatedRp(d, r, x.name), db, x.name, x.userId);
    }
    RegRequestGoesOut(env, RegIndicatedRp(d, r, x.name), db, rnd, x.name, x.userId);
  }

  /** The list of excluded credentials depends on the user and the relying party only. */
  lemma {:induction false} SecretBySite(r: Rp, s: Rp, db: Db, name: bytes, userId: bytes)
    requires Paddable(name) && r.rpId == s.rpId
    ensures SecretFor(r, db, name, userId) == SecretFor(s, db, name, userId)
  {
    hide Descriptors, Pad;
  }

  lemma {:induction false} ClientTakesRequest(env: Env, d: Ud, r: Rp, db: Db, device: Device, rnd: Random, x: Registrant)
    requires EnvLaws(env) && RegReady(d, r, x.name) && d.gcmKey.Some? && |d.gcmKey.value| == 32
    requires RegPossible(env, r, db, device, rnd, x)
    requires var p := RequestFor(env, d, r, db, rnd, x); Limits(RegRequestPkt(p)) && Build(RegRequestPkt(p)).Some?
    ensures Descriptors(db, x.userId, r.rpId).Some?
    ensures var p := RequestFor(env, d, r, db, rnd, x);
            ClientParse(env, RegIndicatedUd(d, x.name), FIDOSSL_EXT_TYPE, CertificateRequest, Build(RegRequestPkt(p)).value) ==
            UdStep(StoreRegRequest(RegIndicatedUd(d, x.name), NormalReg(p),
                                   OpenSecret(x.name, x.name, x.userId, Descriptors(db, x.userId, r.rpId).value))
                     .(state := RegRequestReceived), Accepted)
  {
    hide BuildInner, Build, Limits, Pad, Descriptors, StoreInv, EnvLaws, AttestationWorks, StoreRegRequest;
    hide ProcessRegRequest, RegSecretItems, WireLen, HonestJson, CStr, Encode;
    UserIdLength(db, rnd, x);
    var r1 := RegIndicatedRp(d, r, x.name);
    SecretReadable(r1, db, x.name, x.userId);
    RegRequestArrives(env, RegIndicatedUd(d, x.name), RequestFor(env, d, r, db, rnd, x), SecretFor(r1, db, x.name, x.userId), x.name);
  }

  /** The client after it has stored the request. */
  function StoredUd(env: Env, d: Ud, r: Rp, db: Db, rnd: Random, x: Registrant): Ud
    requires d.gcmKey.Some? && Paddable(x.name) && Descriptors(db, x.userId, r.rpId).Some?
  {
    StoreRegRequest(RegIndicatedUd(d, x.name), NormalReg(RequestFor(env, d, r, db, rnd, x)),
                    OpenSecret(x.name, x.name, x.userId, Descriptors(db, x.userId, r.rpId).value))
      .(state := RegRequestReceived)
  }

  lemma {:induction false} StoredAgrees(env: Env, p: Pair, rnd: Random, x: Registrant)
    requires p.ud.gcmKey.Some? && GoodName(x.name) && Descriptors(p.db, x.userId, p.rp.rpId).Some?
    ensures RegRequestDone(p, Pair(StoredUd(env, p.ud, p.rp, p.db, rnd, x), RegRequested(p.rp, p.ud, rnd, x), p.db), rnd, x)
  {
    NamesAreCStrings(x.name);
    hide Descriptors, CStr, SecretFor, RegCipher;
  }

  /** After the request both ends agree, and the client knows which credentials to exclude. */
  lemma {:induction false} RegRequestExchanged(env: Env, p: Pair, device: Device, rnd: Random, x: Registrant)
    requires EnvLaws(env) && RegReady(p.ud, p.rp, x.name) && SameKey(env, p.ud, p.rp) && HasKeyOfPair(p)
    requires RegPossible(env, p.rp, p.db, device, rnd, x)
    ensures var q := RequestPhase(env, p, device, rnd, true); q.Some? && RegRequestDone(p, q.value, rnd, x)
  {
    hide ClientAdd, ServerParse, ServerAdd, ClientParse, RequestPhase, RegPossible, EnvLaws, Build, Descriptors, SameKey;
    hide RegIndicationOf, SecretFor, RegCipher, RegRequestDone, StoreRegRequest, RegRequestOf, NormalReg;
    var d, r, db := p.ud, p.rp, p.db;
    assert GoodName(x.name);
    hide RegReady, GoodName;
    RegIndicationExchanged(env, d, r, db, device, x.name);
    ServerRequests(env, d, r, db, device, rnd, x);
    ClientTakesRequest(env, d, r, db, device, rnd, x);
    var m1, m2 := RegIndicationOf(env, d), RegRequestPkt(RequestFor(env, d, r, db, rnd, x));
    RequestPhaseIs(env, p, device, rnd, true, UdStep(RegIndicatedUd(d, x.name), Sent(Build(m1).value)),
                   RpStep(RegIndicatedRp(d, r, x.name), db, Accepted),
                   RpStep(RegRequested(r, d, rnd, x), db, Sent(Build(m2).value)),
                   UdStep(StoredUd(env, d, r, db, rnd, x), Accepted));
    StoredAgrees(env, p, rnd, x);
  }

  predicate HasKeyOfPair(p: Pair) {
    p.ud.gcmKey.Some? && |p.ud.gcmKey.value| == 32
  }

  lemma {:induction false} NamesAreCStrings(name: bytes)
    requires GoodName(name)
    ensures CStr(name) == name
  {
  }

  lemma {:induction false} UserIdLength(db: Db, rnd: Random, x: Registrant)
    requires StoreInv(db) && RandomLengths(rnd)
    requires x.userId == (if UserIdOf(db, x.name).Some? then UserIdOf(db, x.name).value else rnd.userId)
    ensures |x.userId| == 64
  {
    if UserIdOf(db, x.name).Some? {
      FoundIdIsLong(db, x.name);
    }
  }

  lemma {:induction false} RegistrantCanBeAdded(db: Db, rnd: Random, x: Registrant)
    requires x.userId == (if UserIdOf(db, x.name).Some? then UserIdOf(db, x.name).value else rnd.userId)
    ensures AddUser(db, x.userId, x.name).ok
  {
  }

  /** The store after the registration. */
  function StoreWith(r: Rp, db: Db, x: Registrant): Db {
    AddCreds(db, x.userId, x.name, r.rpId, x.cred.id, x.cred.pubkey, x.cred.signCount).db
  }

  ghost predicate RegistrationDone(p: Pair, q: Pair, x: Registrant) {
    && q.ud.state == RegResponseSent && q.rp.state == RegSuccess && q.db == StoreWith(p.rp, p.db, x)
    && q.ud.gcmKey == q.rp.gcmKey && q.ud.userId == q.rp.userId == Some(x.userId)
    && q.ud.userName == q.rp.userName == Some(x.name) && q.rp.challenge.None?
    && x.cred.pubkey.Some?
    && q.db.creds == p.db.creds + [Credential(x.cred.id, PUBLIC_KEY_TYPE, p.rp.rpId, x.cred.pubkey.value,
                                              x.cred.signCount, x.userId)]
  }

  /** Second half: the client's response. */
  lemma {:induction false} ClientRegisters(env: Env, d: Ud, r: Rp, db: Db, device: Device, rnd: Random, x: Registrant)
    requires JsonLaws(env) && RegPossible(env, r, db, device, rnd, x) && r.rpId != [] && HasChallenge(r)
    requires d.state == RegRequestReceived && Agree(d, r) && r.challenge == Some(rnd.challenge)
    ensures var json := HonestJson(env, rnd.challenge, r.rpId, Register);
            && Build(RegResponse(x.attObj, json)).Some?
            && ClientAdd(env, d, FIDOSSL_EXT_TYPE, Certificate, device) ==
               UdStep(WithClientData(d, r.rpId, json).(state := RegResponseSent), Sent(Build(RegResponse(x.attObj, json)).value))
  {
    hide CreateRegResponse, HonestJson, CStr, Build, WireLen, VerifyClientData, WithClientData, JsonLaws, RegPossible;
    var json := HonestJson(env, rnd.challenge, r.rpId, Register);
    PossibleResponse(env, r, db, device, rnd, x);
    ClientDataAccepted(env, r, Register);
    RegResponseGoesOut(env, d, device, r.rpId, x.attObj);
  }

  lemma {:induction false} PossibleResponse(env: Env, r: Rp, db: Db, device: Device, rnd: Random, x: Registrant)
    requires RegPossible(env, r, db, device, rnd, x)
    ensures Ascii(r.rpId) && device.sni == Some(r.rpId) && device.attObj == Some(x.attObj) && x.attObj != []
    ensures WireLen(RegResponse(x.attObj, HonestJson(env, rnd.challenge, r.rpId, Register))) <= BUF_SIZE
  {
    hide BuildInner, StoreInv, WireLen, HonestJson, AttestationWorks, Descriptors;
  }

  /** Its response verifies and the credential is stored. */
  lemma {:induction false} ServerRegisters(env: Env, r: Rp, db: Db, device: Device, rnd: Random, x: Registrant)
    requires JsonLaws(env) && RegPossible(env, r, db, device, rnd, x) && r.state == RegRequestSent
    requires r.challenge == Some(rnd.challenge) && r.userId == Some(x.userId) && r.userName == r.displayName == Some(x.name)
    requires Build(RegResponse(x.attObj, HonestJson(env, rnd.challenge, r.rpId, Register))).Some?
    ensures AddCreds(db, x.userId, x.name, r.rpId, x.cred.id, x.cred.pubkey, x.cred.signCount).ok
    ensures ServerParse(env, r, db, true, FIDOSSL_EXT_TYPE, Certificate,
                        Build(RegResponse(x.attObj, HonestJson(env, rnd.challenge, r.rpId, Register))).value) ==
            RpStep(r.(challenge := None, state := RegSuccess), StoreWith(r, db, x), Accepted)
  {
    hide BuildInner, Build, StoreInv, WireLen, HonestJson, CStr, AttestationWorks, Descriptors, AddCreds, AddUser;
    hide ProcessRegResponse, RegSecretItems, VerifyClientData;
    ClientDataAccepted(env, r, Register);
    UserIdLength(db, rnd, x);
    RegistrantCanBeAdded(db, rnd, x);
    RegResponseArrives(env, r, db, x.attObj, HonestJson(env, rnd.challenge, r.rpId, Register), x.cred);
  }

  lemma {:induction false} SecondCallSkips(env: Env, d: Ud, device: Device)
    requires d.state in {RegResponseSent, AuthResponseSent}
    ensures ClientAdd(env, d, FIDOSSL_EXT_TYPE, Certificate, device) == UdStep(d, Skipped)
  {
  }

  lemma {:induction false} RegResponseExchanged(env: Env, q: Pair, device: Device, rnd: Random, x: Registrant)
    requires JsonLaws(env) && RegPossible(env, q.rp, q.db, device, rnd, x) && q.rp.rpId != [] && HasChallenge(q.rp)
    requires q.ud.state == RegRequestReceived && q.rp.state == RegRequestSent && Agree(q.ud, q.rp)
    requires q.rp.challenge == Some(rnd.challenge) && q.rp.userId == Some(x.userId)
    requires q.rp.userName == q.rp.displayName == Some(x.name)
    ensures AddCreds(q.db, x.userId, x.name, q.rp.rpId, x.cred.id, x.cred.pubkey, x.cred.signCount).ok
    ensures ResponsePhase(env, q, device, true) ==
            Some(Pair(WithClientData(q.ud, q.rp.rpId, HonestJson(env, rnd.challenge, q.rp.rpId, Register))
                        .(state := RegResponseSent),
                      q.rp.(challenge := None, state := RegSuccess), StoreWith(q.rp, q.db, x)))
  {
    hide ClientAdd, ServerParse, RegPossible, HonestJson, StoreWith, Agree, AddCreds, WithClientData, Build;
    ClientRegisters(env, q.ud, q.rp, q.db, device, rnd, x);
    SecondCallSkips(env, WithClientData(q.ud, q.rp.rpId, HonestJson(env, rnd.challenge, q.rp.rpId, Register))
                           .(state := RegResponseSent), device);
    ServerRegisters(env, q.rp, q.db, device, rnd, x);
  }

  /** The second handshake of an honest registration ends in success on both sides. */
  lemma {:induction false} RegistrationHandshake(env: Env, p: Pair, device: Device, rnd: Random, x: Registrant)
    requires EnvLaws(env) && RegReady(p.ud, p.rp, x.name) && SameKey(env, p.ud, p.rp) && HasKeyOfPair(p)
    requires RegPossible(env, p.rp, p.db, device, rnd, x)
    ensures var h := Handshake(env, p, device, rnd, true); h.Some? && RegistrationDone(p, h.value, x)
  {
    hide EnvLaws, HonestJson, RegPossible, RequestPhase, ResponsePhase, Descriptors, StoreWith, AddCreds, RegReady, SameKey;
    PartsOfReady(env, p, device, rnd, x);
    RegRequestExchanged(env, p, device, rnd, x);
    var q := RequestPhase(env, p, device, rnd, true).value;
    SameAttestation(env, p.rp, q.rp, p.db, device, rnd, x);
    RegResponseExchanged(env, q, device, rnd, x);
    AddedRow(p.rp, p.db, x);
    SameStoreWith(p.rp, q.rp, p.db, x);
  }

  lemma {:induction false} SameStoreWith(r: Rp, s: Rp, db: Db, x: Registrant)
    requires r.rpId == s.rpId
    ensures StoreWith(r, db, x) == StoreWith(s, db, x)
  {
  }

  lemma {:induction false} PartsOfReady(env: Env, p: Pair, device: Device, rnd: Random, x: Registrant)
    requires EnvLaws(env) && RegReady(p.ud, p.rp, x.name) && RegPossible(env, p.rp, p.db, device, rnd, x)
    ensures RandomLengths(rnd) && p.rp.rpId != [] && JsonLaws(env)
  {
    hide BuildInner, Descriptors, HonestJson, StoreInv, AttestationWorks;
  }

  lemma {:induction false} SameAttestation(env: Env, r: Rp, s: Rp, db: Db, device: Device, rnd: Random, x: Registrant)
    requires RegPossible(env, r, db, device, rnd, x)
    requires s.rpId == r.rpId && s.rpName == r.rpName && s.attestation == r.attestation
    requires s.userVerification == r.userVerification && s.residentKey == r.residentKey
    ensures RegPossible(env, s, db, device, rnd, x)
  {
    hide BuildInner, StoreInv, WireLen, HonestJson, RegSecretItems, Descriptors, ParseData;
  }

  lemma {:induction false} AddedRow(r: Rp, db: Db, x: Registrant)
    requires AddCreds(db, x.userId, x.name, r.rpId, x.cred.id, x.cred.pubkey, x.cred.signCount).ok
    ensures x.cred.pubkey.Some?
    ensures StoreWith(r, db, x).creds == db.creds + [Credential(x.cred.id, PUBLIC_KEY_TYPE, r.rpId, x.cred.pubkey.value,
                                                                x.cred.signCount, x.userId)]
  {
    UserAddedOnly(db, x.userId, x.name, x.cred.id);
  }

  // ---------------------------------------------------------------- authentication with server-side credentials

  /** A user who comes back: the credential, and what the authenticator returns. */
  datatype Returning = Returning(name: bytes, cred: Credential, assertion: Assertion, ad: AuthData, key: bytes)

  predicate AuthReady(d: Ud, r: Rp, name: bytes) {
    && d.state == PreResponseReceived && d.ceremony == AuthServerSide && r.state == PreResponseSent && r.ephLen == 256
    && GoodName(name) && d.userName == Some(name)
    && d.gcmKey.Some? && |d.gcmKey.value| == 32 && d.ephUserId.Some? && |d.ephUserId.value| == 256
    && TextReadable(r.rpId) && r.userVerification <= 3
  }

  /** The user's allow list fits its buffer. */
  predicate KnownUser(r: Rp, db: Db, x: Returning) {
    && StoreInv(db) && User(x.cred.userId, x.name) in db.users
    && x.cred in db.creds && x.cred.rpId == r.rpId
    && Descriptors(db, x.cred.userId, r.rpId).Some?
    && BuildInner(DescriptorItems(Descriptors(db, x.cred.userId, r.rpId).value)).Some?
  }

  function AuthIndicationOf(env: Env, d: Ud): Packet
    requires d.userName.Some? && Paddable(d.userName.value) && d.ephUserId.Some? && d.gcmKey.Some?
  {
    AuthIndicationServerSide(d.ephUserId.value, env.seal(d.gcmKey.value, MessageIv(PKT_AUTH_INDICATION_SERVER_SIDE).value,
                                                         Pad(d.userName.value)))
  }

  lemma {:induction false} AuthIndicationGoesOut(env: Env, d: Ud, r: Rp, name: bytes)
    requires CipherLaws(env) && AuthReady(d, r, name)
    ensures Build(AuthIndicationOf(env, d)).Some? && Limits(AuthIndicationOf(env, d))
    ensures CreateAuthIndicationServerSide(env, d) == UdStep(d, Sent(Build(AuthIndicationOf(env, d)).value))
  {
    BuildSucceedsExactly(AuthIndicationOf(env, d));
    Delivered(AuthIndicationOf(env, d));
    hide Build, Pad, Parse, PacketType;
  }

  function AuthIndicatedRp(d: Ud, r: Rp, userId: bytes): Rp {
    r.(gcmKey := d.gcmKey, userId := Some(userId), ceremony := AuthServerSide, state := AuthIndicationServerSideReceived)
  }

  lemma {:induction false} AuthIndicationArrives(env: Env, d: Ud, r: Rp, db: Db, name: bytes, userId: bytes)
    requires CipherLaws(env) && AuthReady(d, r, name) && SameKey(env, d, r)
    requires Build(AuthIndicationOf(env, d)).Some? && Limits(AuthIndicationOf(env, d))
    requires UserIdOf(db, name) == Some(userId)
    ensures ProcessIndication(env, r, db, true, Build(AuthIndicationOf(env, d)).value) ==
            RpStep(AuthIndicatedRp(d, r, userId), db, Accepted)
  {
    var m := AuthIndicationOf(env, d);
    UnpadPad(name);
    NamesAreCStrings(name);
    Delivered(m);
    hide Build, Pad, Unpad, Parse, PacketType, CStr;
    assert Pad(name)[..BLOCK] == Pad(name);
    assert Decrypt(env, d.gcmKey, PKT_AUTH_INDICATION_SERVER_SIDE, m.encrypted) == Some(Pad(name));
    assert OpenAuthIndication(env, r.(gcmKey := d.gcmKey), db, m.encrypted) == Some(userId);
  }

  lemma {:induction false} AuthOptionsAreShort(p: AuthRequest)
    requires p.rpId.Some? && |p.rpId.value| <= 256 && p.extensions.None? && -INT_MAX - 1 <= p.timeout <= INT_MAX
    requires 0 <= p.userVerification <= 3 && (p.allow.Some? ==> |p.allow.value| <= ENC_DATA_BUF_SIZE + 16)
    ensures AuthOptionsLen(p) <= 1300
  {
  }

  /** An authentication request of this server, with or without an allow list, can be built and read. */
  lemma {:induction false} AuthRequestBuilds(r: Rp, challenge: bytes, encrypted: Option<bytes>)
    requires TextReadable(r.rpId) && r.userVerification <= 3 && |challenge| == 32
    requires encrypted.Some? ==> |encrypted.value| <= ENC_DATA_BUF_SIZE + 16
    ensures var p := AuthRequestPkt(AuthRequestOf(r, challenge, encrypted)); Limits(p) && Build(p).Some? && BuildAsserts(p)
  {
    var p := AuthRequestOf(r, challenge, encrypted);
    BuildSucceedsExactly(AuthRequestPkt(p));
    AuthOptionsAreShort(p);
    hide Build, AuthOptionsLen;
  }

  function AllowFor(r: Rp, db: Db, x: Returning): seq<Descriptor>
    requires Descriptors(db, x.cred.userId, r.rpId).Some?
  {
    Descriptors(db, x.cred.userId, r.rpId).value
  }

  function AllowCipher(env: Env, key: bytes, ds: seq<Descriptor>): bytes {
    env.seal(key, MessageIv(PKT_AUTH_REQUEST).value, Encode(Array(DescriptorItems(ds))))
  }

  lemma {:induction false} AllowListIsGood(r: Rp, db: Db, x: Returning)
    requires KnownUser(r, db, x)
    ensures AllowFor(r, db, x) != [] && DescriptorsReadable(AllowFor(r, db, x))
    ensures exists a <- AllowFor(r, db, x) :: a.id == x.cred.id
  {
    DescriptorsFound(db, x.cred.userId, r.rpId);
    ChosenExactly(db.creds, x.cred.userId, r.rpId);
    hide BuildInner;
    assert Descriptor(PUBLIC_KEY, x.cred.id) in AllowFor(r, db, x);
  }

  function AuthRequested(r: Rp, rnd: Random, allow: seq<Descriptor>): Rp {
    r.(challenge := Some(rnd.challenge), allow := allow)
  }

  lemma {:induction false} AuthRequestGoesOut(env: Env, r: Rp, db: Db, rnd: Random, x: Returning)
    requires CipherLaws(env) && KnownUser(r, db, x) && RandomLengths(rnd) && r.ceremony == AuthServerSide && HasKey(r)
    requires r.userId == Some(x.cred.userId) && TextReadable(r.rpId) && r.userVerification <= 3
    ensures var ds := AllowFor(r, db, x);
            var p := AuthRequestPkt(AuthRequestOf(r, rnd.challenge, Some(AllowCipher(env, r.gcmKey.value, ds))));
            && Limits(p) && Build(p).Some? && BuildAsserts(p)
            && CreateAuthRequest(env, r, db, rnd) == RpStep(AuthRequested(r, rnd, ds), db, Sent(Build(p).value))
  {
    AllowListIsGood(r, db, x);
    var ds := AllowFor(r, db, x);
    hide Descriptors, StoreInv, DescriptorItems, Build, Encode;
    AuthRequestBuilds(r, rnd.challenge, Some(AllowCipher(env, r.gcmKey.value, ds)));
    hide Limits;
    assert AuthRequestOf(r, rnd.challenge, Some(AllowCipher(env, r.gcmKey.value, ds)))
           == AuthRequestOf(r.(challenge := Some(rnd.challenge)), rnd.challenge, Some(AllowCipher(env, r.gcmKey.value, ds)));
  }

  lemma {:induction false} AuthRequestArrives(env: Env, d: Ud, p: AuthRequest, ds: seq<Descriptor>)
    requires CipherLaws(env) && Limits(AuthRequestPkt(p)) && Build(AuthRequestPkt(p)).Some? && BuildAsserts(AuthRequestPkt(p))
    requires d.ceremony == AuthServerSide && d.gcmKey.Some? && |d.gcmKey.value| == 32 && p.extensions.None?
    requires p.allow == Some(AllowCipher(env, d.gcmKey.value, ds))
    requires ds != [] && DescriptorsReadable(ds) && BuildInner(DescriptorItems(ds)).Some?
    ensures ProcessAuthRequest(env, d, Build(AuthRequestPkt(p)).value) == UdStep(StoreAuthRequest(d, p).(allow := ds), Accepted)
  {
    Delivered(AuthRequestPkt(p));
    AllowListRoundTrip(ds);
    assert p.allow.value != [] by { CipherNotEmpty(env, d.gcmKey.value, ds); }
    hide Build, Parse, ParseAllowList, DescriptorItems, Limits, PacketType, Encode;
    assert Decrypt(env, d.gcmKey, PKT_AUTH_REQUEST, p.allow.value) == Some(Encode(Array(DescriptorItems(ds))));
  }

  lemma {:induction false} CipherNotEmpty(env: Env, key: bytes, ds: seq<Descriptor>)
    requires CipherLaws(env)
    ensures AllowCipher(env, key, ds) != []
  {
    hide Encode;
  }

  // ---------------------------------------------------------------- the authentication response

  function HonestResponse(env: Env, challenge: bytes, rpId: bytes, a: Assertion): AuthResponse {
    AuthResponse(HonestJson(env, challenge, rpId, Authenticate), a.authData, a.signature, a.userId, a.credId)
  }

  /** The authenticator signed for the stored key, and its counter went up. */
  predicate AssertionWorks(env: Env, r: Rp, challenge: bytes, device: Device, x: Returning) {
    var a, resp := x.assertion, HonestResponse(env, challenge, r.rpId, x.assertion);
    && device.sni == Some(r.rpId) && device.assertion == Some(a) && a.credId == x.cred.id
    && a.authData != [] && a.signature != [] && a.credId != []
    && (a.userId == x.cred.userId || (a.userId == [] && r.ceremony == AuthServerSide))
    && WireLen(AuthResponsePkt(resp)) <= BUF_SIZE
    && DataFor(env, r, a.authData, x.cred.signCount, x.ad)
    && SignedWith(env, r, x.cred, x.key, resp)
  }

  lemma {:induction false} OwnerIdIsLong(db: Db, c: Credential)
    requires StoreInv(db) && c in db.creds
    ensures |c.userId| == 64
  {
  }

  /** The client that is about to respond. */
  predicate AuthResponsive(d: Ud, r: Rp, device: Device) {
    && d.state == AuthRequestReceived && Responsive(d, device, r.rpId) && d.challenge == r.challenge
    && d.ceremony == r.ceremony && (d.ceremony == AuthDiscoverable || (d.ceremony == AuthServerSide && d.allow != []))
  }

  function RespondedUd(env: Env, d: Ud, rpId: bytes, challenge: bytes, a: Assertion): Ud {
    WithClientData(d, rpId, HonestJson(env, challenge, rpId, Authenticate))
      .(userId := if a.userId == [] then None else Some(a.userId))
  }

  lemma {:induction false} AuthResponseGoesOut(env: Env, d: Ud, r: Rp, challenge: bytes, device: Device, x: Returning)
    requires AuthResponsive(d, r, device) && r.challenge == Some(challenge) && AssertionWorks(env, r, challenge, device, x)
    requires |x.cred.userId| == 64 && CStr(HonestJson(env, challenge, r.rpId, Authenticate)) == HonestJson(env, challenge, r.rpId, Authenticate)
    ensures var resp := HonestResponse(env, challenge, r.rpId, x.assertion);
            && Build(AuthResponsePkt(resp)).Some?
            && CreateAuthResponse(env, d, device.sni, device.assertion) ==
               UdStep(RespondedUd(env, d, r.rpId, challenge, x.assertion), Sent(Build(AuthResponsePkt(resp)).value))
  {
    hide ParseData, VerifyAuthData, CStr, Chars, UrlText, Lower;
    BuildSucceedsExactly(AuthResponsePkt(HonestResponse(env, challenge, r.rpId, x.assertion)));
    hide Build, WireLen;
    assert BuildAsserts(AuthResponsePkt(HonestResponse(env, challenge, r.rpId, x.assertion)));
  }

  /** The server that waits for the response. */
  predicate AwaitsResponse(r: Rp, db: Db, x: Returning) {
    && r.state == AuthRequestSent && HasChallenge(r) && StoreInv(db) && x.cred in db.creds && x.cred.rpId == r.rpId
    && (r.ceremony == AuthDiscoverable
        || (r.ceremony == AuthServerSide && r.userId == Some(x.cred.userId) && exists a <- r.allow :: a.id == x.cred.id))
  }

  lemma {:induction false} WorkingData(env: Env, r: Rp, challenge: bytes, device: Device, x: Returning)
    requires AssertionWorks(env, r, challenge, device, x)
    ensures ParseData(x.assertion.authData) == Some(x.ad) && VerifyAuthData(env, r, x.ad, x.cred.signCount)
  {
    AuthDataExactly(env, r, x.assertion.authData, x.cred.signCount, x.ad);
    hide DataFor, ParseData, WireLen, HonestResponse;
  }

  lemma {:induction false} AuthResponseArrives(env: Env, r: Rp, db: Db, challenge: bytes, device: Device, x: Returning)
    requires AwaitsResponse(r, db, x) && r.challenge == Some(challenge) && AssertionWorks(env, r, challenge, device, x)
    requires VerifyClientData(env, r, HonestJson(env, challenge, r.rpId, Authenticate), Authenticate) == Accepted
    requires Build(AuthResponsePkt(HonestResponse(env, challenge, r.rpId, x.assertion))).Some?
    ensures ProcessAuthResponse(env, r, db, Build(AuthResponsePkt(HonestResponse(env, challenge, r.rpId, x.assertion))).value) ==
            RpStep(r, UpdateSignCount(db, x.cred.id, x.ad.signCount), Accepted)
  {
    hide ParseData, VerifyAuthData, CStr, Chars, UrlText, WireLen, VerifyClientData, HonestJson, CredentialOf, DataFor;
    WorkingData(env, r, challenge, device, x);
    var resp := HonestResponse(env, challenge, r.rpId, x.assertion);
    Delivered(AuthResponsePkt(resp));
    hide Build, Parse, PacketType;
    OwnerIdIsLong(db, x.cred);
    FoundByCredId(db, x.cred);
    hide StoreInv;
    assert ClaimedUser(r, resp) == Some(x.cred.userId);
  }

  /** The message with the honest response. */
  function ResponseBytes(env: Env, r: Rp, challenge: bytes, x: Returning): Option<bytes> {
    Build(AuthResponsePkt(HonestResponse(env, challenge, r.rpId, x.assertion)))
  }

  lemma {:induction false} ClientAuthenticates(env: Env, d: Ud, r: Rp, challenge: bytes, device: Device, x: Returning)
    requires JsonLaws(env) && Ascii(r.rpId) && HasChallenge(r) && AuthResponsive(d, r, device) && |x.cred.userId| == 64
    requires r.challenge == Some(challenge) && AssertionWorks(env, r, challenge, device, x)
    ensures ResponseBytes(env, r, challenge, x).Some?
    ensures ClientAdd(env, d, FIDOSSL_EXT_TYPE, Certificate, device) ==
            UdStep(RespondedUd(env, d, r.rpId, challenge, x.assertion).(state := AuthResponseSent),
                   Sent(ResponseBytes(env, r, challenge, x).value))
  {
    hide HonestJson, CStr, Build, VerifyClientData, AssertionWorks, CreateAuthResponse, RespondedUd, JsonLaws;
    ClientDataAccepted(env, r, Authenticate);
    AuthResponseGoesOut(env, d, r, challenge, device, x);
  }

  lemma {:induction false} ServerAuthenticates(env: Env, r: Rp, db: Db, challenge: bytes, device: Device, x: Returning)
    requires JsonLaws(env) && Ascii(r.rpId) && AwaitsResponse(r, db, x)
    requires r.challenge == Some(challenge) && AssertionWorks(env, r, challenge, device, x)
    requires ResponseBytes(env, r, challenge, x).Some?
    ensures ServerParse(env, r, db, true, FIDOSSL_EXT_TYPE, Certificate, ResponseBytes(env, r, challenge, x).value) ==
            RpStep(r.(state := AuthSuccess), UpdateSignCount(db, x.cred.id, x.ad.signCount), Accepted)
  {
    hide HonestJson, CStr, Build, VerifyClientData, AssertionWorks, ProcessAuthResponse, JsonLaws, UpdateSignCount, StoreInv;
    ClientDataAccepted(env, r, Authenticate);
    AuthResponseArrives(env, r, db, challenge, device, x);
  }

  lemma {:induction false} AuthResponseExchanged(env: Env, q: Pair, device: Device, challenge: bytes, x: Returning)
    requires JsonLaws(env) && Ascii(q.rp.rpId) && AuthResponsive(q.ud, q.rp, device) && AwaitsResponse(q.rp, q.db, x)
    requires q.rp.challenge == Some(challenge) && AssertionWorks(env, q.rp, challenge, device, x)
    ensures ResponsePhase(env, q, device, true) ==
            Some(Pair(RespondedUd(env, q.ud, q.rp.rpId, challenge, x.assertion).(state := AuthResponseSent),
                      q.rp.(state := AuthSuccess), UpdateSignCount(q.db, x.cred.id, x.ad.signCount)))
  {
    hide ClientAdd, ServerParse, JsonLaws, AssertionWorks, ResponseBytes, UpdateSignCount, RespondedUd, AuthResponsive;
    AwaitingParts(q.rp, q.db, x);
    hide AwaitsResponse;
    ClientAuthenticates(env, q.ud, q.rp, challenge, device, x);
    SecondCallSkips(env, RespondedUd(env, q.ud, q.rp.rpId, challenge, x.assertion).(state := AuthResponseSent), device);
    ServerAuthenticates(env, q.rp, q.db, challenge, device, x);
  }

  lemma {:induction false} AwaitingParts(r: Rp, db: Db, x: Returning)
    requires AwaitsResponse(r, db, x)
    ensures HasChallenge(r) && |x.cred.userId| == 64
  {
    OwnerIdIsLong(db, x.cred);
    hide StoreInv;
  }

  // ---------------------------------------------------------------- whole authentication handshakes

  lemma {:induction false} AuthIndicationExchanged(env: Env, d: Ud, r: Rp, db: Db, device: Device, x: Returning)
    requires CipherLaws(env) && AuthReady(d, r, x.name) && SameKey(env, d, r) && UserIdOf(db, x.name) == Some(x.cred.userId)
    ensures Build(AuthIndicationOf(env, d)).Some?
    ensures ClientAdd(env, d, FIDOSSL_EXT_TYPE, ClientHello, device) ==
            UdStep(d.(state := AuthIndicationServerSideSent), Sent(Build(AuthIndicationOf(env, d)).value))
    ensures ServerParse(env, r, db, true, FIDOSSL_EXT_TYPE, ClientHello, Build(AuthIndicationOf(env, d)).value) ==
            RpStep(AuthIndicatedRp(d, r, x.cred.userId), db, Accepted)
  {
    hide Build, Limits, Pad, CipherLaws, ProcessIndication, CreateAuthIndicationServerSide, AuthIndicationOf;
    AuthIndicationGoesOut(env, d, r, x.name);
    AuthIndicationArrives(env, d, r, db, x.name, x.cred.userId);
  }

  function ServerSideRequest(env: Env, d: Ud, r: Rp, rnd: Random, ds: seq<Descriptor>): AuthRequest
    requires d.gcmKey.Some?
  {
    AuthRequestOf(r, rnd.challenge, Some(AllowCipher(env, d.gcmKey.value, ds)))
  }

  lemma {:induction false} AuthRequestExchanged(env: Env, d: Ud, r: Rp, db: Db, rnd: Random, x: Returning)
    requires CipherLaws(env) && AuthReady(d, r, x.name) && KnownUser(r, db, x) && RandomLengths(rnd)
    ensures var ds := AllowFor(r, db, x);
            var p := ServerSideRequest(env, d, r, rnd, ds);
            && Build(AuthRequestPkt(p)).Some?
            && ServerAdd(env, AuthIndicatedRp(d, r, x.cred.userId), db, FIDOSSL_EXT_TYPE, CertificateRequest, rnd) ==
               RpStep(AuthRequested(AuthIndicatedRp(d, r, x.cred.userId), rnd, ds).(state := AuthRequestSent), db,
                      Sent(Build(AuthRequestPkt(p)).value))
            && ClientParse(env, d.(state := AuthIndicationServerSideSent), FIDOSSL_EXT_TYPE, CertificateRequest,
                           Build(AuthRequestPkt(p)).value) ==
               UdStep(StoreAuthRequest(d, p).(allow := ds, state := AuthRequestReceived), Accepted)
  {
    hide Build, Limits, CipherLaws, CreateAuthRequest, ProcessAuthRequest, Descriptors, StoreInv, DescriptorItems, AllowCipher;
    var r1 := AuthIndicatedRp(d, r, x.cred.userId);
    AllowListIsGood(r, db, x);
    AuthRequestGoesOut(env, r1, db, rnd, x);
    AuthRequestArrives(env, d.(state := AuthIndicationServerSideSent), ServerSideRequest(env, d, r, rnd, AllowFor(r, db, x)),
                       AllowFor(r, db, x));
  }

  /** After the request both ends know the same challenge, key and allow list. */
  function ServerSideRequested(env: Env, p: Pair, rnd: Random, x: Returning): Pair
    requires p.ud.gcmKey.Some? && Descriptors(p.db, x.cred.userId, p.rp.rpId).Some?
  {
    var ds := AllowFor(p.rp, p.db, x);
    Pair(StoreAuthRequest(p.ud, ServerSideRequest(env, p.ud, p.rp, rnd, ds)).(allow := ds, state := AuthRequestReceived),
         AuthRequested(AuthIndicatedRp(p.ud, p.rp, x.cred.userId), rnd, ds).(state := AuthRequestSent), p.db)
  }

  lemma {:induction false} ServerSideRequestPhase(env: Env, p: Pair, device: Device, rnd: Random, x: Returning)
    requires CipherLaws(env) && AuthReady(p.ud, p.rp, x.name) && SameKey(env, p.ud, p.rp)
    requires KnownUser(p.rp, p.db, x) && RandomLengths(rnd)
    ensures RequestPhase(env, p, device, rnd, true) == Some(ServerSideRequested(env, p, rnd, x))
  {
    assert UserIdOf(p.db, x.name) == Some(x.cred.userId) by { FoundByName(p.db, User(x.cred.userId, x.name)); }
    hide ClientAdd, ServerParse, ServerAdd, ClientParse, RequestPhase, CipherLaws, Build, KnownUser, SameKey, UserIdOf;
    hide AuthIndicationOf, AllowCipher, StoreAuthRequest, AuthRequestOf, Descriptors;
    var d, r, db, q := p.ud, p.rp, p.db, ServerSideRequested(env, p, rnd, x);
    AuthIndicationExchanged(env, d, r, db, device, x);
    AuthRequestExchanged(env, d, r, db, rnd, x);
    hide AuthReady;
    RequestPhaseIs(env, p, device, rnd, true,
                   UdStep(d.(state := AuthIndicationServerSideSent), Sent(Build(AuthIndicationOf(env, d)).value)),
                   RpStep(AuthIndicatedRp(d, r, x.cred.userId), db, Accepted),
                   RpStep(q.rp, db, Sent(Build(AuthRequestPkt(ServerSideRequest(env, d, r, rnd, AllowFor(r, db, x)))).value)),
                   UdStep(q.ud, Accepted));
  }

  /** Both ends succeeded and agree on the user; the server has stored the new counter. */
  ghost predicate AuthenticationDone(p: Pair, q: Pair, challenge: bytes, x: Returning) {
    && q.ud.state == AuthResponseSent && q.rp.state == AuthSuccess
    && q.ud.challenge == q.rp.challenge == Some(challenge) && q.ud.rpId == Some(q.rp.rpId)
    && q.db == UpdateSignCount(p.db, x.cred.id, x.ad.signCount)
    && (q.rp.ceremony == AuthServerSide ==>
          && q.ud.gcmKey == q.rp.gcmKey && q.rp.userId == Some(x.cred.userId) && q.ud.allow == q.rp.allow
          && exists a <- q.rp.allow :: a.id == x.cred.id)
  }

  lemma {:induction false} ServerSideAwaits(env: Env, p: Pair, device: Device, rnd: Random, x: Returning)
    requires AuthReady(p.ud, p.rp, x.name) && KnownUser(p.rp, p.db, x) && RandomLengths(rnd) && device.sni == Some(p.rp.rpId)
    ensures var q := ServerSideRequested(env, p, rnd, x);
            AuthResponsive(q.ud, q.rp, device) && AwaitsResponse(q.rp, q.db, x) && q.ud.gcmKey == p.ud.gcmKey == q.rp.gcmKey
            && q.ud.allow == q.rp.allow && q.rp.ceremony == AuthServerSide && q.rp.challenge == Some(rnd.challenge)
  {
    AllowListIsGood(p.rp, p.db, x);
    hide Descriptors, StoreInv, AllowCipher, BuildInner;
  }

  /** The second handshake with server-side credentials ends in success on both sides. */
  lemma {:induction false} ServerSideHandshake(env: Env, p: Pair, device: Device, rnd: Random, x: Returning)
    requires EnvLaws(env) && AuthReady(p.ud, p.rp, x.name) && SameKey(env, p.ud, p.rp)
    requires KnownUser(p.rp, p.db, x) && RandomLengths(rnd) && Ascii(p.rp.rpId) && device.sni == Some(p.rp.rpId)
    requires AssertionWorks(env, ServerSideRequested(env, p, rnd, x).rp, rnd.challenge, device, x)
    ensures var h := Handshake(env, p, device, rnd, true); h.Some? && AuthenticationDone(p, h.value, rnd.challenge, x)
  {
    hide RequestPhase, ResponsePhase, AssertionWorks, CipherLaws, JsonLaws, HashLengths, SameKey, StoreInv, BuildInner;
    var q := ServerSideRequested(env, p, rnd, x);
    hide AuthReady, KnownUser;
    assert q.rp.rpId == p.rp.rpId && q.db == p.db;
    hide ServerSideRequested, RespondedUd;
    ServerSideRequestPhase(env, p, device, rnd, x);
    ServerSideAwaits(env, p, device, rnd, x);
    AuthResponseExchanged(env, q, device, rnd.challenge, x);
    RespondedKeeps(env, q.ud, q.rp.rpId, rnd.challenge, x.assertion);
    hide UpdateSignCount;
  }

  lemma {:induction false} RespondedKeeps(env: Env, d: Ud, rpId: bytes, challenge: bytes, a: Assertion)
    ensures var e := RespondedUd(env, d, rpId, challenge, a);
            e.challenge == d.challenge && e.rpId == d.rpId && e.gcmKey == d.gcmKey && e.allow == d.allow
  {
    hide HonestJson;
  }

  // ---------------------------------------------------------------- authentication with a discoverable credential

  predicate DiscoverableReady(d: Ud, r: Rp) {
    && d.state == AuthInitialDiscoverable && d.ceremony == AuthDiscoverable && r.state == Initial
    && TextReadable(r.rpId) && r.userVerification <= 3
  }

  function DiscoverableRequested(p: Pair, rnd: Random): Pair {
    Pair(StoreAuthRequest(p.ud, AuthRequestOf(p.rp, rnd.challenge, None)).(state := AuthRequestReceived),
         p.rp.(ceremony := AuthDiscoverable, challenge := Some(rnd.challenge), state := AuthRequestSent), p.db)
  }

  lemma {:induction false} DiscoverableIndication(env: Env, p: Pair, device: Device)
    requires DiscoverableReady(p.ud, p.rp)
    ensures Build(AuthIndicationDiscoverable).Some?
    ensures ClientAdd(env, p.ud, FIDOSSL_EXT_TYPE, ClientHello, device) ==
            UdStep(p.ud.(state := AuthIndicationDiscoverableSent), Sent(Build(AuthIndicationDiscoverable).value))
    ensures ServerParse(env, p.rp, p.db, true, FIDOSSL_EXT_TYPE, ClientHello, Build(AuthIndicationDiscoverable).value) ==
            RpStep(p.rp.(ceremony := AuthDiscoverable, state := AuthIndicationDiscoverableReceived), p.db, Accepted)
  {
    BuildSucceedsExactly(AuthIndicationDiscoverable);
    Delivered(AuthIndicationDiscoverable);
    hide Build, Parse, PacketType;
  }

  lemma {:induction false} DiscoverableRequest(env: Env, p: Pair, rnd: Random)
    requires DiscoverableReady(p.ud, p.rp) && RandomLengths(rnd)
    ensures var m, q := AuthRequestPkt(AuthRequestOf(p.rp, rnd.challenge, None)), DiscoverableRequested(p, rnd);
            && Build(m).Some?
            && ServerAdd(env, p.rp.(ceremony := AuthDiscoverable, state := AuthIndicationDiscoverableReceived), p.db,
                         FIDOSSL_EXT_TYPE, CertificateRequest, rnd) == RpStep(q.rp, p.db, Sent(Build(m).value))
            && ClientParse(env, p.ud.(state := AuthIndicationDiscoverableSent), FIDOSSL_EXT_TYPE, CertificateRequest,
                           Build(m).value) == UdStep(q.ud, Accepted)
  {
    hide Build, Parse, PacketType, Limits, BuildAsserts, TextReadable;
    var m := AuthRequestPkt(AuthRequestOf(p.rp, rnd.challenge, None));
    AuthRequestBuilds(p.rp, rnd.challenge, None);
    Delivered(m);
    var r1 := p.rp.(ceremony := AuthDiscoverable, state := AuthIndicationDiscoverableReceived);
    assert AuthRequestOf(r1.(challenge := Some(rnd.challenge)), rnd.challenge, None) == m.req;
  }

  lemma {:induction false} DiscoverableRequestPhase(env: Env, p: Pair, device: Device, rnd: Random)
    requires DiscoverableReady(p.ud, p.rp) && RandomLengths(rnd)
    ensures RequestPhase(env, p, device, rnd, true) == Some(DiscoverableRequested(p, rnd))
  {
    var q := DiscoverableRequested(p, rnd);
    hide RequestPhase, Build, ClientAdd, ClientParse, ServerAdd, ServerParse;
    DiscoverableIndication(env, p, device);
    DiscoverableRequest(env, p, rnd);
    RequestPhaseIs(env, p, device, rnd, true,
                   UdStep(p.ud.(state := AuthIndicationDiscoverableSent), Sent(Build(AuthIndicationDiscoverable).value)),
                   RpStep(p.rp.(ceremony := AuthDiscoverable, state := AuthIndicationDiscoverableReceived), p.db, Accepted),
                   RpStep(q.rp, p.db, Sent(Build(AuthRequestPkt(AuthRequestOf(p.rp, rnd.challenge, None))).value)),
                   UdStep(q.ud, Accepted));
  }

  /** One handshake with a discoverable credential ends in success on both sides. */
  lemma {:induction false} DiscoverableHandshake(env: Env, p: Pair, device: Device, rnd: Random, x: Returning)
    requires EnvLaws(env) && DiscoverableReady(p.ud, p.rp) && RandomLengths(rnd) && Ascii(p.rp.rpId)
    requires StoreInv(p.db) && x.cred in p.db.creds && x.cred.rpId == p.rp.rpId && device.sni == Some(p.rp.rpId)
    requires AssertionWorks(env, DiscoverableRequested(p, rnd).rp, rnd.challenge, device, x)
    ensures var h := Handshake(env, p, device, rnd, true); h.Some? && AuthenticationDone(p, h.value, rnd.challenge, x)
  {
    var q := DiscoverableRequested(p, rnd);
    hide RequestPhase, ResponsePhase, AssertionWorks, CipherLaws, JsonLaws, HashLengths, Build, StoreInv;
    hide RespondedUd, UpdateSignCount;
    DiscoverableRequestPhase(env, p, device, rnd);
    AuthResponseExchanged(env, q, device, rnd.challenge, x);
    RespondedKeeps(env, q.ud, q.rp.rpId, rnd.challenge, x.assertion);
  }

  // ---------------------------------------------------------------- from the first ClientHello

  /** A client and a server that have just been configured, with the same ticket. */
  predicate FreshRegistration(p: Pair, name: bytes) {
    && p.ud.state == RegInitial && p.ud.ceremony == Registration && p.rp.state == Initial
    && GoodName(name) && p.ud.displayName == Some(name) && p.ud.exclude == []
    && p.ud.ticket.Some? && |p.ud.ticket.value| == 256 && p.rp.ticket == p.ud.ticket
    && TextReadable(p.rp.rpId) && TextReadable(p.rp.rpName)
    && p.rp.authAttach <= 2 && p.rp.residentKey <= 3 && p.rp.userVerification <= 3 && p.rp.attestation <= 4
  }

  /** Contexts configured with one ticket in base64, a good name and readable texts are such a pair. */
  lemma {:induction false} ConfiguredForRegistration(client: ClientOpts, server: ServerOpts, kEp: bytes, ticket: bytes, db: Db)
    requires client.mode == RegisterMode && client.pin.Some? && client.displayName.Some? && GoodName(client.displayName.value)
    requires |ticket| == 256 && client.ticket == server.ticket == Some(EncodeBlock(ticket))
    requires server.rpId.Some? && TextReadable(server.rpId.value) && server.rpName.Some? && TextReadable(server.rpName.value)
    requires server.authAttach <= 2 && server.residentKey <= 3 && server.userVerification <= 3 && server.attestation <= 4
    ensures InitUd(client).Some? && InitRp(server, kEp).Some?
    ensures FreshRegistration(Pair(InitUd(client).value, InitRp(server, kEp).value, db), client.displayName.value)
  {
    Base64RoundTrip(ticket);
    hide DecodeBase64, EncodeBlock;
  }

  /** The handshakes `h` took place and registered `x` from `p` on. */
  ghost predicate Registered(p: Pair, h: Option<Pair>, x: Registrant) {
    h.Some? && RegistrationDone(p, h.value, x)
  }

  /** The handshakes `h` took place and authenticated `x` from `p` on. */
  ghost predicate LoggedIn(p: Pair, h: Option<Pair>, challenge: bytes, x: Returning) {
    h.Some? && AuthenticationDone(p, h.value, challenge, x)
  }

  /** Two handshakes in a row. */
  function TwoHandshakes(env: Env, p: Pair, device: Device, first: Random, second: Random): Option<Pair> {
    var q :- Handshake(env, p, device, first, true);
    Handshake(env, q, device, second, true)
  }

  /**
    Honest registration: with equal tickets, a name of 1 to 255 bytes without NUL, the relying party id as server name
    and messages that fit, both handshakes succeed, both ends agree, and the credential is stored.
   */
  lemma {:induction false} HonestRegistration(env: Env, p: Pair, device: Device, first: Random, second: Random, x: Registrant)
    requires EnvLaws(env) && FreshRegistration(p, x.name) && RandomLengths(first)
    ensures RegPossible(env, PreHandshaken(env, p, first).rp, p.db, device, second, x) ==>
              Registered(PreHandshaken(env, p, first), TwoHandshakes(env, p, device, first, second), x)
  {
    hide RegPossible, RegReady, SameKey, Handshake, EnvLaws, FreshRegistration, RegistrationDone, HasKeyOfPair;
    hide BeforePreHandshake, RandomLengths, PreHandshaken;
    LawsOfHashes(env);
    RegistrationReady(env, p, first, x.name);
    PreHandshake(env, p, device, first, true);
    if RegPossible(env, PreHandshaken(env, p, first).rp, p.db, device, second, x) {
      RegistrationHandshake(env, PreHandshaken(env, p, first), device, second, x);
    }
  }

  lemma {:induction false} LawsOfHashes(env: Env)
    requires EnvLaws(env)
    ensures HashLengths(env)
  {
  }

  lemma {:induction false} RegistrationReady(env: Env, p: Pair, first: Random, name: bytes)
    requires HashLengths(env) && FreshRegistration(p, name) && RandomLengths(first)
    ensures var q := PreHandshaken(env, p, first);
            && RegReady(q.ud, q.rp, name) && SameKey(env, q.ud, q.rp) && HasKeyOfPair(q) && BeforePreHandshake(p.ud, p.rp)
            && q.rp.rpId == p.rp.rpId && q.db == p.db
  {
  }

  predicate FreshServerSide(p: Pair, name: bytes) {
    && p.ud.state == AuthInitialServerSide && p.ud.ceremony == AuthServerSide && p.rp.state == Initial
    && GoodName(name) && p.ud.userName == Some(name) && TextReadable(p.rp.rpId) && p.rp.userVerification <= 3
  }

  lemma {:induction false} ServerSideReady(env: Env, p: Pair, first: Random, name: bytes)
    requires HashLengths(env) && FreshServerSide(p, name) && RandomLengths(first)
    ensures var q := PreHandshaken(env, p, first);
            AuthReady(q.ud, q.rp, name) && SameKey(env, q.ud, q.rp) && BeforePreHandshake(p.ud, p.rp)
  {
  }

  lemma {:induction false} HonestServerSideAuthentication(env: Env, p: Pair, device: Device, first: Random, second: Random, x: Returning)
    requires EnvLaws(env) && FreshServerSide(p, x.name) && RandomLengths(first) && RandomLengths(second)
    requires KnownUser(p.rp, p.db, x) && Ascii(p.rp.rpId) && device.sni == Some(p.rp.rpId)
    ensures AssertionWorks(env, ServerSideRequested(env, PreHandshaken(env, p, first), second, x).rp, second.challenge, device, x)
            ==> LoggedIn(PreHandshaken(env, p, first), TwoHandshakes(env, p, device, first, second), second.challenge, x)
  {
    hide CipherLaws, JsonLaws, HashLengths, StoreInv, BuildInner, Handshake, AssertionWorks, AuthenticationDone;
    hide FreshServerSide, Ascii;
    var q := PreHandshaken(env, p, first);
    ServerSideReady(env, p, first, x.name);
    PreHandshake(env, p, device, first, true);
    assert KnownUser(q.rp, q.db, x);
    if AssertionWorks(env, ServerSideRequested(env, q, second, x).rp, second.challenge, device, x) {
      ServerSideHandshake(env, q, device, second, x);
    }
  }

  // ---------------------------------------------------------------- registered, then authenticated

  /** The credential that a registration leaves in the store. */
  function StoredCredential(r: Rp, x: Registrant): Credential
    requires x.cred.pubkey.Some?
  {
    Credential(x.cred.id, PUBLIC_KEY_TYPE, r.rpId, x.cred.pubkey.value, x.cred.signCount, x.userId)
  }

  lemma {:induction false} StoredIsKnown(r: Rp, db: Db, rnd: Random, x: Registrant)
    requires StoreInv(db) && RandomLengths(rnd) && x.cred.id != []
    requires x.userId == (if UserIdOf(db, x.name).Some? then UserIdOf(db, x.name).value else rnd.userId)
    requires UserIdOf(db, x.name).None? ==> !HasUser(db, rnd.userId)
    requires AddCreds(db, x.userId, x.name, r.rpId, x.cred.id, x.cred.pubkey, x.cred.signCount).ok
    ensures StoreInv(StoreWith(r, db, x)) && User(x.userId, x.name) in StoreWith(r, db, x).users
    ensures x.cred.pubkey.Some? && StoredCredential(r, x) in StoreWith(r, db, x).creds
  {
    UserIdLength(db, rnd, x);
    AddCredsKeeps(db, x.userId, x.name, r.rpId, x.cred.id, x.cred.pubkey, x.cred.signCount);
    AddedRow(r, db, x);
    assert User(x.userId, x.name) in AddUser(db, x.userId, x.name).db.users;
    hide DbInv;
  }

  /** What the second visit needs: new contexts at the same relying party, a list that fits and a working authenticator. */
  ghost predicate SecondVisit(env: Env, p: Pair, device: Device, first: Random, second: Random, y: Returning) {
    && FreshServerSide(p, y.name) && RandomLengths(first) && RandomLengths(second) && Ascii(p.rp.rpId)
    && device.sni == Some(p.rp.rpId) && y.cred.rpId == p.rp.rpId
    && Descriptors(p.db, y.cred.userId, p.rp.rpId).Some?
    && BuildInner(DescriptorItems(Descriptors(p.db, y.cred.userId, p.rp.rpId).value)).Some?
    && HashLengths(env)
    && AssertionWorks(env, ServerSideRequested(env, PreHandshaken(env, p, first), second, y).rp, second.challenge, device, y)
  }

  /**
    A user who registered can come back: over the store that an honest registration leaves, new contexts of the same
    name and relying party authenticate with the credential that was registered.
   */
  lemma {:induction false} RegisterThenAuthenticate(env: Env, p: Pair, device: Device, first: Random, second: Random, x: Registrant,
                                                    p2: Pair, device2: Device, third: Random, fourth: Random, y: Returning)
    requires EnvLaws(env) && FreshRegistration(p, x.name) && RandomLengths(first)
    requires UserIdOf(p.db, x.name).None? ==> !HasUser(p.db, second.userId)
    requires p2.db == StoreWith(p.rp, p.db, x) && y.name == x.name && x.cred.pubkey.Some? && y.cred == StoredCredential(p.rp, x)
    ensures RegPossible(env, PreHandshaken(env, p, first).rp, p.db, device, second, x)
            && SecondVisit(env, p2, device2, third, fourth, y) ==>
              && Registered(PreHandshaken(env, p, first), TwoHandshakes(env, p, device, first, second), x)
              && p2.db == StoreWith(PreHandshaken(env, p, first).rp, p.db, x)
              && LoggedIn(PreHandshaken(env, p2, third), TwoHandshakes(env, p2, device2, third, fourth), fourth.challenge, y)
  {
    hide StoreWith, RegPossible, FreshRegistration, TwoHandshakes, EnvLaws, SecondVisit, KnownUser, StoredCredential;
    hide AuthenticationDone, RandomLengths, PreHandshaken;
    HonestRegistration(env, p, device, first, second, x);
    PreHandshakeKeeps(env, p, first);
    SameStoreWith(p.rp, PreHandshaken(env, p, first).rp, p.db, x);
    if RegPossible(env, PreHandshaken(env, p, first).rp, p.db, device, second, x)
       && SecondVisit(env, p2, device2, third, fourth, y) {
      RegisteredIsKnown(env, p, device, first, second, x, p2, device2, third, fourth, y);
      SecondVisitSucceeds(env, p2, device2, third, fourth, y);
    }
  }

  /** The same for a user who comes back with a discoverable credential, in one handshake. */
  lemma {:induction false} RegisterThenDiscover(env: Env, p: Pair, device: Device, first: Random, second: Random, x: Registrant,
                                                p2: Pair, device2: Device, third: Random, y: Returning)
    requires EnvLaws(env) && FreshRegistration(p, x.name) && RandomLengths(first)
    requires UserIdOf(p.db, x.name).None? ==> !HasUser(p.db, second.userId)
    requires p2.db == StoreWith(p.rp, p.db, x) && x.cred.pubkey.Some? && y.cred == StoredCredential(p.rp, x)
    requires DiscoverableReady(p2.ud, p2.rp) && RandomLengths(third) && Ascii(p2.rp.rpId)
    requires p2.rp.rpId == p.rp.rpId && device2.sni == Some(p2.rp.rpId)
    ensures RegPossible(env, PreHandshaken(env, p, first).rp, p.db, device, second, x)
            && AssertionWorks(env, DiscoverableRequested(p2, third).rp, third.challenge, device2, y) ==>
              && Registered(PreHandshaken(env, p, first), TwoHandshakes(env, p, device, first, second), x)
              && p2.db == StoreWith(PreHandshaken(env, p, first).rp, p.db, x)
              && LoggedIn(p2, Handshake(env, p2, device2, third, true), third.challenge, y)
  {
    hide StoreWith, RegPossible, FreshRegistration, TwoHandshakes, EnvLaws, Handshake, AssertionWorks, DiscoverableReady;
    hide AuthenticationDone, RegistrationDone, RandomLengths, PreHandshaken, DiscoverableRequested, Ascii, StoreInv, AddCreds;
    hide AddUser, UserIdOf, HasUser, HasCred;
    HonestRegistration(env, p, device, first, second, x);
    PreHandshakeKeeps(env, p, first);
    SameStoreWith(p.rp, PreHandshaken(env, p, first).rp, p.db, x);
    if RegPossible(env, PreHandshaken(env, p, first).rp, p.db, device, second, x)
       && AssertionWorks(env, DiscoverableRequested(p2, third).rp, third.challenge, device2, y) {
      PossibleParts(env, PreHandshaken(env, p, first).rp, p.db, device, second, x);
      RegistrantCanBeAdded(p.db, second, x);
      CanBeAdded(p.rp, p.db, x);
      StoredIsKnown(p.rp, p.db, second, x);
      DiscoverableHandshake(env, p2, device2, third, y);
    }
  }

  lemma {:induction false} PreHandshakeKeeps(env: Env, p: Pair, first: Random)
    ensures PreHandshaken(env, p, first).rp.rpId == p.rp.rpId && PreHandshaken(env, p, first).db == p.db
  {
  }

  lemma {:induction false} RegisteredIsKnown(env: Env, p: Pair, device: Device, first: Random, second: Random, x: Registrant,
                                             p2: Pair, device2: Device, third: Random, fourth: Random, y: Returning)
    requires RegPossible(env, PreHandshaken(env, p, first).rp, p.db, device, second, x)
    requires UserIdOf(p.db, x.name).None? ==> !HasUser(p.db, second.userId)
    requires p2.db == StoreWith(p.rp, p.db, x) && y.name == x.name && x.cred.pubkey.Some? && y.cred == StoredCredential(p.rp, x)
    requires SecondVisit(env, p2, device2, third, fourth, y)
    ensures KnownUser(p2.rp, p2.db, y)
  {
    hide StoreWith, RegPossible, StoreInv, HashLengths, AssertionWorks, BuildInner, Descriptors, AddUser, AddCreds, HasCred;
    hide HasUser, UserIdOf;
    PossibleParts(env, PreHandshaken(env, p, first).rp, p.db, device, second, x);
    RegistrantCanBeAdded(p.db, second, x);
    CanBeAdded(p.rp, p.db, x);
    StoredIsKnown(p.rp, p.db, second, x);
  }

  lemma {:induction false} SecondVisitSucceeds(env: Env, p: Pair, device: Device, third: Random, fourth: Random, y: Returning)
    requires EnvLaws(env) && SecondVisit(env, p, device, third, fourth, y) && KnownUser(p.rp, p.db, y)
    ensures LoggedIn(PreHandshaken(env, p, third), TwoHandshakes(env, p, device, third, fourth), fourth.challenge, y)
  {
    hide KnownUser, EnvLaws, FreshServerSide, AssertionWorks, TwoHandshakes, LoggedIn, BuildInner;
    HonestServerSideAuthentication(env, p, device, third, fourth, y);
  }

  lemma {:induction false} CanBeAdded(r: Rp, db: Db, x: Registrant)
    requires AddUser(db, x.userId, x.name).ok && !HasCred(db, x.cred.id) && x.cred.pubkey.Some?
    ensures AddCreds(db, x.userId, x.name, r.rpId, x.cred.id, x.cred.pubkey, x.cred.signCount).ok
  {
    UserAddedOnly(db, x.userId, x.name, x.cred.id);
  }

  lemma {:induction false} PossibleParts(env: Env, r: Rp, db: Db, device: Device, rnd: Random, x: Registrant)
    requires RegPossible(env, r, db, device, rnd, x)
    ensures StoreInv(db) && RandomLengths(rnd) && x.cred.id != [] && !HasCred(db, x.cred.id) && x.cred.pubkey.Some?
    ensures x.userId == (if UserIdOf(db, x.name).Some? then UserIdOf(db, x.name).value else rnd.userId)
  {
    hide BuildInner, HonestJson, WireLen, ParseData;
  }
}
