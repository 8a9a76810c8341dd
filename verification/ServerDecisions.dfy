/** Which messages a server accepts, said of the bytes it receives, and what it takes from them. */
module ServerDecisions {
  import opened Bytes
  import opened Cbor
  import opened Packets
  import opened RoundTrip
  import opened WireFormat
  import opened Padding
  import opened Environment
  import opened Encoding
  import opened Store
  import opened AuthenticatorData
  import opened RelyingParty
  import opened ServerInvariants

  // ---------------------------------------------------------------- client data

  /** The client data names this kind of ceremony, this site over https and this challenge, and no other origin. */
  predicate Says(cd: ClientData, kind: string, rpId: bytes, challenge: bytes) {
    && cd.kind.Some? && CStr(cd.kind.value) == Chars(kind)
    && cd.origin.Some? && CStr(cd.origin.value) == Chars("https://") + rpId
    && cd.crossOriginFalse
    && cd.challenge.Some? && UrlDecode(CStr(cd.challenge.value)) == Some(challenge)
  }

  /** The text reads as such client data. */
  ghost predicate Collected(env: Env, clientData: bytes, kind: string, rpId: bytes, challenge: bytes) {
    exists cd :: env.readJson(clientData) == Some(cd) && Says(cd, kind, rpId, challenge)
  }

  lemma {:induction false} ClientDataExactly(env: Env, d: Rp, clientData: bytes, mode: Mode)
    requires HasChallenge(d)
    ensures VerifyClientData(env, d, clientData, mode) ==
            if Collected(env, clientData, if mode == Register then "webauthn.create" else "webauthn.get", d.rpId,
                         d.challenge.value)
            then Accepted else Failed
  {
    hide CStr, Chars, UrlDecode;
    var r := env.readJson(clientData);
    if r.Some? {
      assert Says(r.value, if mode == Register then "webauthn.create" else "webauthn.get", d.rpId, d.challenge.value)
        <==> ClientDataMatches(r.value, d.rpId, d.challenge.value, mode);
    }
  }

  /** The assertion in front of these comparisons fails exactly without a challenge. */
  lemma {:induction false} ChallengeAsserted(env: Env, d: Rp, clientData: bytes, mode: Mode)
    ensures VerifyClientData(env, d, clientData, mode) == Aborted <==> d.challenge.None? || d.challenge.value == []
  {
    hide ClientDataMatches;
  }

  // ---------------------------------------------------------------- authentication responses

  /** What a successful authentication is based on. */
  datatype Login = Login(resp: AuthResponse, cred: Credential, ad: AuthData, key: bytes)

  /** The response may use this credential: it is the user's and in the list that was sent, or the user handle names its owner. */
  predicate MayUse(d: Rp, resp: AuthResponse, cred: Credential) {
    && cred.id == resp.credId && cred.rpId == d.rpId
    && if d.ceremony == AuthServerSide then
         && d.userId == Some(cred.userId) && (resp.userHandle == [] || resp.userHandle == cred.userId)
         && exists a <- d.allow :: a.id == resp.credId
       else
         d.ceremony == AuthDiscoverable && resp.userHandle == cred.userId
  }

  /** The authenticator data is for this site, its counter exceeds the stored one, and bit 2 says that the user was verified. */
  predicate DataFor(env: Env, d: Rp, b: bytes, stored: int, ad: AuthData) {
    && FieldsAt(b, ad)
    && b[..32] == env.sha256(d.rpId) && CInt(b[33..37]) > stored
    && (d.userVerification == 1 ==> b[32] / 4 % 2 == 1)
  }

  /** The stored key verifies the signature over this site, the received client data and the received authenticator data. */
  predicate SignedWith(env: Env, d: Rp, cred: Credential, key: bytes, resp: AuthResponse) {
    && env.coseKey(cred.pubkey) == Some(key)
    && env.verify(AssertionCheck(key, d.rpId, env.sha256(resp.clientData), resp.authData, resp.signature))
  }

  ghost predicate Entitled(env: Env, d: Rp, db: Db, l: Login) {
    && l.cred in db.creds && MayUse(d, l.resp, l.cred)
    && d.challenge.Some? && Collected(env, l.resp.clientData, "webauthn.get", d.rpId, d.challenge.value)
    && DataFor(env, d, l.resp.authData, l.cred.signCount, l.ad)
    && SignedWith(env, d, l.cred, l.key, l.resp)
  }

  lemma {:induction false} AuthDataExactly(env: Env, d: Rp, b: bytes, stored: int, ad: AuthData)
    ensures ParseData(b) == Some(ad) && VerifyAuthData(env, d, ad, stored) <==> DataFor(env, d, b, stored, ad)
  {
    ParsedFields(b, ad);
    hide ParseData;
  }

  lemma {:induction false} ClaimExactly(d: Rp, db: Db, resp: AuthResponse, cred: Credential)
    requires RpInv(d, db) && StoreInv(db) && d.state == AuthRequestSent && cred in db.creds
    ensures cred.rpId == d.rpId && cred.id == resp.credId && ClaimedUser(d, resp) == Some(cred.userId) <==> MayUse(d, resp, cred)
  {
    assert |cred.userId| == 64;
  }

  lemma {:induction false} ChecksExactly(env: Env, d: Rp, db: Db, resp: AuthResponse, cred: Credential)
    requires HasChallenge(d) && cred.rpId == d.rpId
    ensures CheckAuthentication(env, d, db, resp, cred).ret == Accepted <==>
            && Collected(env, resp.clientData, "webauthn.get", d.rpId, d.challenge.value)
            && exists ad, key :: DataFor(env, d, resp.authData, cred.signCount, ad) && SignedWith(env, d, cred, key, resp)
  {
    hide Collected, ParseData, VerifyAuthData, DataFor, VerifyClientData, UpdateSignCount;
    ClientDataExactly(env, d, resp.clientData, Authenticate);
    var data := ParseData(resp.authData);
    if data.Some? {
      AuthDataExactly(env, d, resp.authData, cred.signCount, data.value);
    }
    forall ad | DataFor(env, d, resp.authData, cred.signCount, ad) ensures data == Some(ad) {
      AuthDataExactly(env, d, resp.authData, cred.signCount, ad);
    }
    if CheckAuthentication(env, d, db, resp, cred).ret == Accepted {
      assert DataFor(env, d, resp.authData, cred.signCount, data.value);
      assert SignedWith(env, d, cred, env.coseKey(cred.pubkey).value, resp);
    }
  }

  /** An authentication response is accepted exactly when it is entitled to be. */
  lemma {:induction false} AuthenticationExactly(env: Env, d: Rp, db: Db, input: bytes)
    requires RpInv(d, db) && StoreInv(db) && d.state == AuthRequestSent
    ensures ProcessAuthResponse(env, d, db, input).ret == Accepted <==>
            exists l: Login :: Parse(input, 9) == Some(AuthResponsePkt(l.resp)) && Entitled(env, d, db, l)
  {
    hide Parse, Collected, DataFor, SignedWith, MayUse, CheckAuthentication, ClaimedUser, RpInv, StoreInv;
    StatePromises(d, db);
    if ProcessAuthResponse(env, d, db, input).ret == Accepted {
      var resp := Parse(input, PKT_AUTH_RESPONSE).value.resp;
      var cred := CredentialOf(db, ClaimedUser(d, resp).value, resp.credId).value;
      SiteIsRight(env, d, db, resp, cred);
      ClaimExactly(d, db, resp, cred);
      ChecksExactly(env, d, db, resp, cred);
      var ad, key :| DataFor(env, d, resp.authData, cred.signCount, ad) && SignedWith(env, d, cred, key, resp);
      assert Entitled(env, d, db, Login(resp, cred, ad, key));
    }
    forall l: Login | Parse(input, 9) == Some(AuthResponsePkt(l.resp)) && Entitled(env, d, db, l)
      ensures ProcessAuthResponse(env, d, db, input).ret == Accepted
    {
      ClaimExactly(d, db, l.resp, l.cred);
      FoundByCredId(db, l.cred);
      ChecksExactly(env, d, db, l.resp, l.cred);
    }
  }

  lemma {:induction false} SiteIsRight(env: Env, d: Rp, db: Db, resp: AuthResponse, cred: Credential)
    requires CheckAuthentication(env, d, db, resp, cred).ret == Accepted
    ensures cred.rpId == d.rpId
  {
    hide VerifyClientData, ParseData, VerifyAuthData;
  }

  /** The response claims a credential of this user: that of the ceremony, or the one that the user handle names. */
  predicate Claims(d: Rp, resp: AuthResponse, owner: bytes) {
    if d.ceremony == AuthServerSide then
      && d.userId == Some(owner) && (resp.userHandle == [] || (|resp.userHandle| == 64 && resp.userHandle == owner))
      && exists a <- d.allow :: a.id == resp.credId
    else
      d.ceremony == AuthDiscoverable && |resp.userHandle| == 64 && resp.userHandle == owner
  }

  /** Everything about the response is right except that the stored key is none. */
  ghost predicate Unreadable(env: Env, d: Rp, resp: AuthResponse, cred: Credential) {
    && cred.rpId == d.rpId && d.challenge.Some? && Collected(env, resp.clientData, "webauthn.get", d.rpId, d.challenge.value)
    && (exists ad :: DataFor(env, d, resp.authData, cred.signCount, ad)) && env.coseKey(cred.pubkey).None?
  }

  /** The two errors that close the store: the claimed credential is not there, or its key is none. */
  ghost predicate Closes(env: Env, d: Rp, db: Db, resp: AuthResponse) {
    exists owner :: Claims(d, resp, owner)
      && ((forall c <- db.creds :: c.userId != owner || c.id != resp.credId)
          || exists c <- db.creds :: c.userId == owner && c.id == resp.credId && Unreadable(env, d, resp, c))
  }

  lemma {:induction false} ClaimsExactly(d: Rp, resp: AuthResponse, owner: bytes)
    ensures Claims(d, resp, owner) <==> ClaimedUser(d, resp) == Some(owner)
  {
  }

  lemma {:induction false} ChecksLeave(env: Env, d: Rp, db: Db, resp: AuthResponse, cred: Credential)
    requires HasChallenge(d)
    ensures var s := CheckAuthentication(env, d, db, resp, cred);
            s.ret != Accepted ==>
              s == RpStep(d.(dbOpen := d.dbOpen && !Unreadable(env, d, resp, cred)), db, Failed)
  {
    hide Collected, ParseData, VerifyAuthData, DataFor, VerifyClientData, UpdateSignCount;
    ClientDataExactly(env, d, resp.clientData, Authenticate);
    var data := ParseData(resp.authData);
    if data.Some? {
      AuthDataExactly(env, d, resp.authData, cred.signCount, data.value);
    }
    forall ad | DataFor(env, d, resp.authData, cred.signCount, ad) ensures data == Some(ad) {
      AuthDataExactly(env, d, resp.authData, cred.signCount, ad);
    }
  }

  /** A refused response changes nothing, except that the two errors close the store. */
  lemma {:induction false} RefusalLeaves(env: Env, d: Rp, db: Db, input: bytes)
    requires RpInv(d, db) && StoreInv(db) && d.state == AuthRequestSent
    ensures var s := ProcessAuthResponse(env, d, db, input);
            s.ret != Accepted ==>
              && s.ret == Failed && s.db == db
              && match Parse(input, 9)
                 case Some(AuthResponsePkt(resp)) => s.rp == d.(dbOpen := d.dbOpen && !Closes(env, d, db, resp))
                 case _ => s.rp == d
  {
    hide Parse, Unreadable, CheckAuthentication, ClaimedUser, RpInv, StoreInv, Claims;
    StatePromises(d, db);
    match Parse(input, PKT_AUTH_RESPONSE)
    case Some(AuthResponsePkt(resp)) =>
      forall owner { ClaimsExactly(d, resp, owner); }
      var owner := ClaimedUser(d, resp);
      if owner.Some? {
        ClaimsExactly(d, resp, owner.value);
        var cred := CredentialOf(db, owner.value, resp.credId);
        if cred.Some? {
          ChecksLeave(env, d, db, resp, cred.value);
          forall c | c in db.creds && c.userId == owner.value && c.id == resp.credId ensures c == cred.value {
            FoundByCredId(db, c);
          }
        }
      }
    case _ =>
  }

  lemma {:induction false} StatePromises(d: Rp, db: Db)
    requires RpInv(d, db) && StoreInv(db)
    ensures DbInv(db)
    ensures d.state in {RegRequestSent, AuthRequestSent} ==> HasChallenge(d)
    ensures d.state == RegRequestSent ==> HasUserId(d) && HasName(d)
  {
  }

  // ---------------------------------------------------------------- registration responses

  /** What a successful registration is based on. */
  datatype Enrolment = Enrolment(attObj: bytes, clientData: bytes, verified: VerifiedCredential, attested: Attested)

  /** The C `int` with the 32 bits of the counter. */
  function CounterOf(v: VerifiedCredential): int {
    if v.signCount >= 0x8000_0000 then v.signCount - 0x1_0000_0000 else v.signCount
  }

  /** Nobody has this credential, and the name is free or already this user's. */
  predicate Insertable(db: Db, userId: bytes, name: bytes, credId: bytes) {
    && (forall c <- db.creds :: c.id != credId)
    && ((exists u <- db.users :: u.id == userId) || (forall u <- db.users :: u.name != name))
  }

  /** A direct attestation for this site, these policies, this client data and this challenge verifies as the credential. */
  ghost predicate Attests(env: Env, d: Rp, e: Enrolment) {
    && d.challenge.Some? && Collected(env, e.clientData, "webauthn.create", d.rpId, d.challenge.value)
    && d.attestation == 3
    && env.attest(AttestationCheck(d.rpId, d.rpName, d.userVerification == 1, d.residentKey == 3, e.clientData, e.attObj))
       == Some(e.verified)
    && 1 <= |e.verified.id| <= 1023
    && exists ad :: FieldsAt(e.verified.authData, ad) && ad.attested == Some(e.attested)
  }

  /** The row that is stored for it. */
  function RowOf(d: Rp, e: Enrolment): Credential
    requires d.userId.Some?
  {
    Credential(e.verified.id, "public-key", d.rpId, e.attested.pubkey, CounterOf(e.verified), d.userId.value)
  }

  lemma {:induction false} VerifiedExactly(env: Env, d: Rp, attObj: bytes, clientData: bytes, c: NewCredential)
    requires HasChallenge(d) && c.pubkey.Some?
    ensures VerifiedRegistration(env, d, attObj, clientData) == Some(c) <==>
            exists e: Enrolment :: e.attObj == attObj && e.clientData == clientData && Attests(env, d, e)
                        && c == NewCredential(e.verified.id, Some(e.attested.pubkey), CounterOf(e.verified))
  {
    hide Collected, ParseData, VerifyClientData, FieldsAt;
    ClientDataExactly(env, d, clientData, Register);
    var check := AttestationCheck(d.rpId, d.rpName, d.userVerification == 1, d.residentKey == 3, clientData, attObj);
    var v := env.attest(check);
    if v.Some? {
      forall ad { ParsedFields(v.value.authData, ad); }
    }
    if VerifiedRegistration(env, d, attObj, clientData) == Some(c) {
      var ad := ParseData(v.value.authData).value;
      assert Attests(env, d, Enrolment(attObj, clientData, v.value, ad.attested.value));
    }
  }

  /** What an accepted registration leaves: its row, and the user if there was none with that id. */
  function StoreAfter(d: Rp, db: Db, e: Enrolment): Db
    requires d.userId.Some? && d.userName.Some?
  {
    Db(if exists u <- db.users :: u.id == d.userId.value then db.users else db.users + [User(d.userId.value, d.userName.value)],
       db.creds + [RowOf(d, e)])
  }

  lemma {:induction false} InsertedExactly(d: Rp, db: Db, e: Enrolment)
    requires d.userId.Some? && d.userName.Some?
    ensures var a := AddCreds(db, d.userId.value, d.userName.value, d.rpId, e.verified.id, Some(e.attested.pubkey),
                              CounterOf(e.verified));
            && (a.ok <==> Insertable(db, d.userId.value, d.userName.value, e.verified.id))
            && (a.ok ==> a.db == StoreAfter(d, db, e))
  {
  }

  /** The response in the input is such a registration, and the store can take it. */
  ghost predicate Enrols(env: Env, d: Rp, db: Db, input: bytes, e: Enrolment)
    requires d.userId.Some? && d.userName.Some?
  {
    && Parse(input, 5) == Some(RegResponse(e.attObj, e.clientData))
    && Attests(env, d, e) && Insertable(db, d.userId.value, d.userName.value, e.verified.id)
  }

  /** A registration response is accepted exactly when it attests a new credential, and that credential is stored. */
  lemma {:induction false} RegistrationExactly(env: Env, d: Rp, db: Db, input: bytes)
    requires RpInv(d, db) && StoreInv(db) && d.state == RegRequestSent
    ensures d.userId.Some? && d.userName.Some?
    ensures var s := ProcessRegResponse(env, d, db, input);
            if s.ret == Accepted then
              s.rp == d.(challenge := None)
              && exists e: Enrolment :: Enrols(env, d, db, input, e) && s.db == StoreAfter(d, db, e)
            else
              !exists e: Enrolment :: Enrols(env, d, db, input, e)
  {
    hide Parse, Attests, VerifiedRegistration, VerifyClientData, AddCreds, StoreAfter, RpInv, StoreInv, Insertable;
    StatePromises(d, db);
    match Parse(input, PKT_REG_RESPONSE)
    case Some(RegResponse(attObj, clientData)) =>
      ClientDataExactly(env, d, clientData, Register);
      var s := ProcessRegResponse(env, d, db, input);
      if s.ret == Accepted {
        var c := VerifiedRegistration(env, d, attObj, clientData).value;
        KeyNeeded(db, d, c);
        VerifiedExactly(env, d, attObj, clientData, c);
        var e: Enrolment :| e.attObj == attObj && e.clientData == clientData && Attests(env, d, e)
                            && c == NewCredential(e.verified.id, Some(e.attested.pubkey), CounterOf(e.verified));
        InsertedExactly(d, db, e);
      }
      forall e: Enrolment | Enrols(env, d, db, input, e) ensures s.ret == Accepted {
        VerifiedExactly(env, d, attObj, clientData,
                        NewCredential(e.verified.id, Some(e.attested.pubkey), CounterOf(e.verified)));
        InsertedExactly(d, db, e);
      }
    case _ =>
  }

  /** The store after an insertion that failed: a new user with a free name stays. */
  function StoreAfterFailure(d: Rp, db: Db): Db
    requires d.userId.Some? && d.userName.Some?
  {
    if (exists u <- db.users :: u.id == d.userId.value) || (exists u <- db.users :: u.name == d.userName.value) then db
    else db.(users := db.users + [User(d.userId.value, d.userName.value)])
  }

  lemma {:induction false} FailureExactly(d: Rp, db: Db, e: Enrolment)
    requires d.userId.Some? && d.userName.Some?
    ensures var a := AddCreds(db, d.userId.value, d.userName.value, d.rpId, e.verified.id, Some(e.attested.pubkey),
                              CounterOf(e.verified));
            !a.ok ==> a.db == StoreAfterFailure(d, db)
  {
  }

  /** An attested credential that the store cannot take closes it, and may leave the new user behind. */
  lemma {:induction false} InsertionFails(env: Env, d: Rp, db: Db, input: bytes, e: Enrolment)
    requires RpInv(d, db) && StoreInv(db) && d.state == RegRequestSent
    requires Parse(input, 5) == Some(RegResponse(e.attObj, e.clientData)) && Attests(env, d, e)
    ensures d.userId.Some? && d.userName.Some?
    ensures !Insertable(db, d.userId.value, d.userName.value, e.verified.id) ==>
              ProcessRegResponse(env, d, db, input) == RpStep(d.(dbOpen := false), StoreAfterFailure(d, db), Failed)
  {
    hide Parse, Attests, VerifiedRegistration, VerifyClientData, AddCreds, RpInv, StoreInv, Insertable;
    StatePromises(d, db);
    ClientDataExactly(env, d, e.clientData, Register);
    VerifiedExactly(env, d, e.attObj, e.clientData,
                    NewCredential(e.verified.id, Some(e.attested.pubkey), CounterOf(e.verified)));
    InsertedExactly(d, db, e);
    FailureExactly(d, db, e);
  }

  lemma {:induction false} KeyNeeded(db: Db, d: Rp, c: NewCredential)
    requires d.userId.Some? && d.userName.Some?
    requires AddCreds(db, d.userId.value, d.userName.value, d.rpId, c.id, c.pubkey, c.signCount).ok
    ensures c.pubkey.Some?
  {
  }

  // ---------------------------------------------------------------- indications

  /**
    The input holds this ephemeral id and, encrypted under the key that the episode key derives from it, the padded name and
    exactly the server's ticket.
   */
  ghost predicate ShowsTicket(env: Env, d: Rp, input: bytes, eph: bytes, name: bytes) {
    exists encrypted, plain, block, ticket ::
      && Parse(input, 3) == Some(RegIndication(eph, encrypted)) && |eph| == d.ephLen
      && env.open(env.hmac(d.kEp, eph), MessageIv(3).value, encrypted) == Some(plain)
      && ParseEncryptedData(plain) == Some(EncryptedData(block, ticket))
      && PaddedBlock(block, name) && d.ticket == Some(ticket)
  }

  /** The context after such an indication. */
  function Admitted(env: Env, d: Rp, eph: bytes, name: bytes): Rp {
    d.(gcmKey := Some(env.hmac(d.kEp, eph)), displayName := Some(CStr(name)), userName := Some(CStr(name)),
       ceremony := Registration, state := RegIndicationReceived)
  }

  /** A refused indication leaves the state as it is; at most the key has been derived again. */
  predicate Refused(env: Env, d: Rp, db: Db, s: RpStep) {
    s.ret == Failed && s.db == db && s.rp.state == d.state && s.rp == d.(gcmKey := s.rp.gcmKey)
  }

  lemma {:induction false} BlockLength(p: bytes, d: bytes)
    ensures PaddedBlock(p, d) ==> |p| == BLOCK
  {
  }

  lemma {:induction false} OpenedExactly(env: Env, d: Rp, encrypted: bytes, name: bytes)
    requires d.gcmKey.Some? && |d.gcmKey.value| == 32
    ensures OpenRegIndication(env, d, encrypted) == Some(name) <==>
            exists plain, block, ticket ::
              && env.open(d.gcmKey.value, MessageIv(3).value, encrypted) == Some(plain)
              && ParseEncryptedData(plain) == Some(EncryptedData(block, ticket))
              && PaddedBlock(block, name) && d.ticket == Some(ticket)
  {
    hide ParseEncryptedData, Unpad, PaddedBlock, MessageIv;
    VectorText(3);
    var plain := env.open(d.gcmKey.value, MessageIv(3).value, encrypted);
    if plain.Some? && ParseEncryptedData(plain.value).Some? {
      var data := ParseEncryptedData(plain.value).value;
      PaddingExactly(data.displayName, name);
      BlockLength(data.displayName, name);
      assert data == EncryptedData(data.displayName, data.ticket);
    }
  }

  /** A registration indication is taken exactly if it shows the server's ticket. */
  lemma {:induction false} IndicationExactly(env: Env, d: Rp, db: Db, input: bytes)
    requires HashLengths(env)
    ensures var s := ReceiveRegIndication(env, d, db, input);
            if s.ret == Accepted then exists eph, name :: ShowsTicket(env, d, input, eph, name)
                                                          && s == RpStep(Admitted(env, d, eph, name), db, Accepted)
            else Refused(env, d, db, s) && !exists eph, name :: ShowsTicket(env, d, input, eph, name)
  {
    hide Parse, OpenRegIndication, CStr, ParseEncryptedData, PaddedBlock, MessageIv;
    VectorText(3);
    match Parse(input, PKT_REG_INDICATION)
    case Some(RegIndication(eph, encrypted)) =>
      var d1 := d.(gcmKey := Some(env.hmac(d.kEp, eph)));
      var r := OpenRegIndication(env, d1, encrypted);
      if r.Some? && |eph| == d.ephLen {
        OpenedExactly(env, d1, encrypted, r.value);
        assert ShowsTicket(env, d, input, eph, r.value);
      }
      forall eph2, name | ShowsTicket(env, d, input, eph2, name) ensures r == Some(name) && |eph| == d.ephLen {
        OpenedExactly(env, d1, encrypted, name);
      }
    case _ =>
  }

  /** An honest message with any ticket at all: it is accepted exactly if the ticket is the server's. */
  lemma {:induction false} TicketDecides(env: Env, d: Rp, db: Db, eph: bytes, name: bytes, ticket: bytes)
    requires HashLengths(env) && CipherLaws(env) && |eph| == 256 && d.ephLen == 256 && Paddable(name) && |ticket| == 256
    ensures BuildInner(EncryptedDataItems(EncryptedData(Pad(name), ticket))).Some?
    ensures var plain := BuildInner(EncryptedDataItems(EncryptedData(Pad(name), ticket))).value;
            var message := Build(RegIndication(eph, env.seal(env.hmac(d.kEp, eph), MessageIv(3).value, plain)));
            message.Some? && (ReceiveRegIndication(env, d, db, message.value).ret == Accepted <==> d.ticket == Some(ticket))
  {
    hide EncryptedDataItems, Pad, Build, Parse, ParseEncryptedData, PaddedBlock, ReceiveRegIndication, MessageIv, PacketType;
    VectorText(3);
    var data := EncryptedData(Pad(name), ticket);
    EncryptedDataRoundTrip(data);
    var plain := BuildInner(EncryptedDataItems(data)).value;
    var encrypted := env.seal(env.hmac(d.kEp, eph), MessageIv(3).value, plain);
    BuildSucceedsExactly(RegIndication(eph, encrypted));
    BuildThenParse(RegIndication(eph, encrypted), 3);
    var input := Build(RegIndication(eph, encrypted)).value;
    IndicationExactly(env, d, db, input);
    PaddingExactly(Pad(name), name);
    if d.ticket == Some(ticket) {
      assert ShowsTicket(env, d, input, eph, name);
    }
  }

  /** The input holds this ephemeral id and, encrypted under the derived key, the padded name of the user with this id. */
  ghost predicate ShowsName(env: Env, d: Rp, db: Db, input: bytes, eph: bytes, userId: bytes) {
    exists encrypted, plain ::
      && Parse(input, 7) == Some(AuthIndicationServerSide(eph, encrypted)) && |eph| == d.ephLen
      && env.open(env.hmac(d.kEp, eph), MessageIv(7).value, encrypted) == Some(plain) && Names(db, plain, userId)
  }

  lemma {:induction false} UserExactly(db: Db, id: bytes, name: bytes)
    requires DbInv(db)
    ensures UserIdOf(db, name) == Some(id) <==> User(id, name) in db.users
  {
    if User(id, name) in db.users {
      FoundByName(db, User(id, name));
    }
  }

  /** The plaintext starts with the padded name of the user with this id. */
  ghost predicate Names(db: Db, plain: bytes, userId: bytes) {
    |plain| >= 256 && exists name :: PaddedBlock(plain[..256], name) && User(userId, CStr(name)) in db.users
  }

  lemma {:induction false} NamedExactly(env: Env, d: Rp, db: Db, encrypted: bytes, userId: bytes)
    requires d.gcmKey.Some? && |d.gcmKey.value| == 32 && DbInv(db)
    ensures OpenAuthIndication(env, d, db, encrypted) == Some(userId) <==>
            exists plain :: env.open(d.gcmKey.value, MessageIv(7).value, encrypted) == Some(plain) && Names(db, plain, userId)
  {
    hide Unpad, PaddedBlock, MessageIv, CStr, DbInv, UserIdOf;
    VectorText(7);
    var plain := env.open(d.gcmKey.value, MessageIv(7).value, encrypted);
    if plain.Some? && |plain.value| >= 256 {
      var block := plain.value[..256];
      var r := Unpad(block);
      forall name { PaddingExactly(block, name); }
      if r.Some? {
        PaddingExactly(block, r.value);
        UserExactly(db, userId, CStr(r.value));
      }
    }
  }

  /** The context after such an indication. */
  function Recognised(env: Env, d: Rp, eph: bytes, userId: bytes): Rp {
    d.(gcmKey := Some(env.hmac(d.kEp, eph)), userId := Some(userId), ceremony := AuthServerSide,
       state := AuthIndicationServerSideReceived)
  }

  /** An indication of a server-side authentication is taken exactly if it names a stored user. */
  lemma {:induction false} NameExactly(env: Env, d: Rp, db: Db, input: bytes)
    requires HashLengths(env) && DbInv(db)
    ensures var s := ReceiveAuthIndication(env, d, db, input);
            if s.ret == Accepted then exists eph, userId :: ShowsName(env, d, db, input, eph, userId)
                                                            && s == RpStep(Recognised(env, d, eph, userId), db, Accepted)
            else Refused(env, d, db, s) && !exists eph, userId :: ShowsName(env, d, db, input, eph, userId)
  {
    hide Parse, OpenAuthIndication, Names, MessageIv, DbInv;
    VectorText(7);
    match Parse(input, PKT_AUTH_INDICATION_SERVER_SIDE)
    case Some(AuthIndicationServerSide(eph, encrypted)) =>
      var d1 := d.(gcmKey := Some(env.hmac(d.kEp, eph)));
      var r := OpenAuthIndication(env, d1, db, encrypted);
      if r.Some? && |eph| == d.ephLen {
        NamedExactly(env, d1, db, encrypted, r.value);
        assert ShowsName(env, d, db, input, eph, r.value);
      }
      forall eph2, userId | ShowsName(env, d, db, input, eph2, userId) ensures r == Some(userId) && |eph| == d.ephLen {
        NamedExactly(env, d1, db, encrypted, userId);
      }
    case _ =>
  }

  /** The input shows the ticket or names a user, whatever the rest. */
  ghost predicate Identifies(env: Env, d: Rp, db: Db, input: bytes) {
    (exists eph, name :: ShowsTicket(env, d, input, eph, name)) || (exists eph, userId :: ShowsName(env, d, db, input, eph, userId))
  }

  /**
    Which indication is taken in which state: at first a pre-indication, or a discoverable one if there is a store; after
    the pre-response one that identifies the user; nothing else, ever.
   */
  lemma {:induction false} DispatchExactly(env: Env, d: Rp, db: Db, dbExists: bool, input: bytes)
    requires HashLengths(env) && DbInv(db)
    ensures var s := ProcessIndication(env, d, db, dbExists, input);
            if d.state == Initial && Parse(input, 1).Some? then
              s == RpStep(d.(state := PreIndicationReceived), db, Accepted)
            else if d.state == Initial && Parse(input, 6).Some? && dbExists then
              s == RpStep(d.(ceremony := AuthDiscoverable, state := AuthIndicationDiscoverableReceived), db, Accepted)
            else if d.state == PreResponseSent && Identifies(env, d, db, input) then s.ret == Accepted
            else Refused(env, d, db, s)
  {
    hide ReadType, ReadBody, ReceiveRegIndication, ReceiveAuthIndication, ShowsTicket, ShowsName, DbInv;
    IndicationExactly(env, d, db, input);
    NameExactly(env, d, db, input);
    forall eph, name | ShowsTicket(env, d, input, eph, name) ensures Parse(input, 3).Some? { TicketIsThere(env, d, input, eph, name); }
    forall eph, id | ShowsName(env, d, db, input, eph, id) ensures Parse(input, 7).Some? { NameIsThere(env, d, db, input, eph, id); }
  }

  lemma {:induction false} TicketIsThere(env: Env, d: Rp, input: bytes, eph: bytes, name: bytes)
    ensures ShowsTicket(env, d, input, eph, name) ==> Parse(input, 3).Some?
  {
    hide Parse, ParseEncryptedData, PaddedBlock;
  }

  lemma {:induction false} NameIsThere(env: Env, d: Rp, db: Db, input: bytes, eph: bytes, userId: bytes)
    ensures ShowsName(env, d, db, input, eph, userId) ==> Parse(input, 7).Some?
  {
    hide Parse, Names;
  }

  // ---------------------------------------------------------------- outcomes

  /** The state after a response: success if it was accepted, failure if it was refused; an abort leaves no state behind. */
  function OutcomeOf(ret: Ret, before: State, success: State, failure: State): State {
    if ret == Accepted then success else if ret == Failed then failure else before
  }

  /** A response is looked at by the context that waits for it, and decides its outcome; any other context refuses it. */
  lemma {:induction false} OutcomeExactly(env: Env, d: Rp, db: Db, dbExists: bool, input: bytes)
    ensures var t := ServerParse(env, d, db, dbExists, FIDOSSL_EXT_TYPE, Certificate, input);
            if d.state == RegRequestSent then
              var s := ProcessRegResponse(env, d, db, input);
              t == s.(rp := s.rp.(state := OutcomeOf(s.ret, d.state, RegSuccess, RegFailure)))
            else if d.state == AuthRequestSent then
              var s := ProcessAuthResponse(env, d, db, input);
              t == s.(rp := s.rp.(state := OutcomeOf(s.ret, d.state, AuthSuccess, AuthFailure)))
            else t == RpStep(d, db, Failed)
  {
    hide ProcessRegResponse, ProcessAuthResponse;
    RegResponseStays(env, d, db, input);
    AuthResponseStays(env, d, db, input);
  }
}
