/** What every state of a server context promises about its data, and what every step keeps. */
module ServerInvariants {
  import opened Bytes
  import opened Cbor
  import opened Packets
  import opened Padding
  import opened Environment
  import opened Store
  import opened AuthenticatorData
  import opened RelyingParty

  // ---------------------------------------------------------------- the invariant

  predicate HasKey(d: Rp) {
    d.gcmKey.Some? && |d.gcmKey.value| == 32
  }

  predicate HasChallenge(d: Rp) {
    d.challenge.Some? && |d.challenge.value| == 32
  }

  predicate HasUserId(d: Rp) {
    d.userId.Some? && |d.userId.value| == 64
  }

  predicate HasName(d: Rp) {
    d.userName.Some? && d.userName == d.displayName
  }

  /** The stored credentials a list was built from belong to the user, at this relying party. */
  predicate BuiltFor(d: Rp, db: Db) {
    d.userId.Some? && forall a <- d.allow :: exists c <- db.creds :: c.id == a.id && c.userId == d.userId.value && c.rpId == d.rpId
  }

  predicate RpInv(d: Rp, db: Db) {
    && (d.dbOpen || d.state in {RegFailure, AuthFailure})
    && match d.state
       case Initial => d.ceremony == Undefined && d.challenge.None? && d.userId.None? && d.gcmKey.None?
       case PreIndicationReceived => d.ceremony == Undefined
       case PreResponseSent => d.ceremony == Undefined && d.ephLen == 256
       case RegIndicationReceived => d.ceremony == Registration && HasKey(d) && HasName(d)
       case RegRequestSent => d.ceremony == Registration && HasKey(d) && HasName(d) && HasChallenge(d) && HasUserId(d)
       case AuthIndicationDiscoverableReceived => d.ceremony == AuthDiscoverable
       case AuthIndicationServerSideReceived => d.ceremony == AuthServerSide && HasKey(d) && HasUserId(d)
       case AuthRequestSent => HasChallenge(d) && AuthCeremonyInv(d, db)
       case AuthSuccess => HasChallenge(d) && AuthCeremonyInv(d, db)
       case AuthFailure => AuthCeremonyInv(d, db)
       case RegSuccess => d.ceremony == Registration && HasUserId(d) && HasName(d) && d.challenge.None?
       case RegFailure => d.ceremony == Registration
       case _ => false
  }

  predicate AuthCeremonyInv(d: Rp, db: Db) {
    || d.ceremony == AuthDiscoverable
    || (d.ceremony == AuthServerSide && HasKey(d) && HasUserId(d) && d.allow != [] && BuiltFor(d, db))
  }

  /** Ids of 64 bytes, on top of the integrity of the tables. */
  predicate StoreInv(db: Db) {
    DbInv(db) && forall u <- db.users :: |u.id| == 64
  }

  lemma {:induction false} BuiltForLater(d: Rp, db: Db, later: Db)
    requires Extends(db, later) && BuiltFor(d, db)
    ensures BuiltFor(d, later)
  {
    forall a | a in d.allow ensures exists c <- later.creds :: c.id == a.id && c.userId == d.userId.value && c.rpId == d.rpId {
      var c :| c in db.creds && c.id == a.id && c.userId == d.userId.value && c.rpId == d.rpId;
      var i :| 0 <= i < |db.creds| && db.creds[i] == c;
      assert later.creds[i] in later.creds && SameCredential(c, later.creds[i]);
    }
  }

  /** What other contexts add to the store does no harm. */
  lemma {:induction false} RpInvLater(d: Rp, db: Db, later: Db)
    requires Extends(db, later) && RpInv(d, db)
    ensures RpInv(d, later)
  {
    if BuiltFor(d, db) {
      BuiltForLater(d, db, later);
    }
  }

  lemma {:induction false} FoundIdIsLong(db: Db, name: bytes)
    requires StoreInv(db) && UserIdOf(db, name).Some?
    ensures |UserIdOf(db, name).value| == 64
  {
  }

  lemma {:induction false} DescriptorsFound(db: Db, userId: bytes, rpId: bytes)
    requires DbInv(db)
    ensures Descriptors(db, userId, rpId).Some?
    ensures forall d <- Descriptors(db, userId, rpId).value ::
              d.kind == PUBLIC_KEY && d.id != [] && exists c <- db.creds :: c.id == d.id && c.userId == userId && c.rpId == rpId
  {
    ChosenExactly(db.creds, userId, rpId);
  }

  // ---------------------------------------------------------------- the steps

  /** What a step of one context may do to the store and to itself. */
  predicate Keeps(db: Db, s: RpStep) {
    RpInv(s.rp, s.db) && StoreInv(s.db) && Extends(db, s.db) && s.ret != Aborted
  }

  lemma {:induction false} ExtendsItself(db: Db)
    ensures Extends(db, db)
  {
  }

  lemma {:induction false} RegRequestNeverAborts(env: Env, d: Rp, db: Db, challenge: bytes, userId: bytes)
    requires CipherLaws(env) && StoreInv(db) && HasName(d) && |challenge| == 32 && |userId| == 64
    ensures RegRequestRet(env, d, db, challenge, userId) != Aborted
  {
    hide Build, Wire, PacketItems, RegSecretItems, BuildInner, MessageIv;
  }

  lemma {:induction false} PreResponseKeeps(env: Env, d: Rp, db: Db, rnd: Random)
    requires HashLengths(env) && RpInv(d, db) && StoreInv(db) && RandomLengths(rnd) && d.state == PreIndicationReceived
    ensures Keeps(db, OnSuccess(CreatePreResponse(env, d, db, rnd), PreResponseSent))
  {
    hide Build;
  }

  lemma {:induction false} RegistrationUserIdIsLong(d: Rp, db: Db, rnd: Random)
    requires StoreInv(db) && RandomLengths(rnd)
    ensures |RegistrationUserId(d, db, rnd)| == 64
  {
    if d.userName.Some? && UserIdOf(db, d.userName.value).Some? {
      FoundIdIsLong(db, d.userName.value);
    }
  }

  lemma {:induction false} RegRequestKeeps(env: Env, d: Rp, db: Db, rnd: Random)
    requires CipherLaws(env) && RpInv(d, db) && StoreInv(db) && RandomLengths(rnd) && d.state == RegIndicationReceived
    ensures Keeps(db, OnSuccess(CreateRegRequest(env, d, db, rnd), RegRequestSent))
  {
    hide RegRequestRet, RegistrationUserId, StoreInv, Extends, AuthCeremonyInv;
    RegistrationUserIdIsLong(d, db, rnd);
    RegRequestNeverAborts(env, d, db, rnd.challenge, RegistrationUserId(d, db, rnd));
    ExtendsItself(db);
  }

  lemma {:induction false} AuthRequestNeverAborts(p: AuthRequest)
    requires p.challenge != []
    ensures BuildRet(AuthRequestPkt(p)) != Aborted
  {
  }

  lemma {:induction false} AuthRequestKeeps(env: Env, d: Rp, db: Db, rnd: Random)
    requires CipherLaws(env) && RpInv(d, db) && StoreInv(db) && RandomLengths(rnd)
    requires d.state == AuthIndicationDiscoverableReceived || d.state == AuthIndicationServerSideReceived
    ensures Keeps(db, OnSuccess(CreateAuthRequest(env, d, db, rnd), AuthRequestSent))
  {
    hide BuildRet, EncryptAllowList, Descriptors, DbInv, Extends;
    ExtendsItself(db);
    forall p: AuthRequest | p.challenge != [] { AuthRequestNeverAborts(p); }
    if d.ceremony == AuthServerSide {
      DescriptorsFound(db, d.userId.value, d.rpId);
    }
  }

  lemma {:induction false} AddKeeps(env: Env, d: Rp, db: Db, ext: int, context: Context, rnd: Random)
    requires HashLengths(env) && CipherLaws(env) && RpInv(d, db) && StoreInv(db) && RandomLengths(rnd)
    ensures Keeps(db, ServerAdd(env, d, db, ext, context, rnd))
    ensures ServerAdd(env, d, db, ext, context, rnd).db == db
  {
    hide CreateRegRequest, CreateAuthRequest, RpInv, StoreInv, Extends, BuildRet, HashLengths, CipherLaws;
    ExtendsItself(db);
    match d.state {
      case PreIndicationReceived => PreResponseKeeps(env, d, db, rnd);
      case RegIndicationReceived => RegRequestKeeps(env, d, db, rnd);
      case AuthIndicationDiscoverableReceived => AuthRequestKeeps(env, d, db, rnd);
      case AuthIndicationServerSideReceived => AuthRequestKeeps(env, d, db, rnd);
      case _ =>
    }
    RequestsLeaveStore(env, d, db, rnd);
  }

  lemma {:induction false} RequestsLeaveStore(env: Env, d: Rp, db: Db, rnd: Random)
    ensures CreateRegRequest(env, d, db, rnd).db == db && CreateAuthRequest(env, d, db, rnd).db == db
  {
    hide RegRequestRet, BuildRet, EncryptAllowList, AllowList;
  }

  lemma {:induction false} IndicationKeeps(env: Env, d: Rp, db: Db, dbExists: bool, input: bytes)
    requires HashLengths(env) && RpInv(d, db) && StoreInv(db)
    ensures Keeps(db, ProcessIndication(env, d, db, dbExists, input))
    ensures ProcessIndication(env, d, db, dbExists, input).db == db
  {
    hide Parse, PacketType, OpenRegIndication, Decrypt, CStr, Unpad;
    if d.state == PreResponseSent {
      forall name | UserIdOf(db, name).Some? ensures |UserIdOf(db, name).value| == 64 {
        FoundIdIsLong(db, name);
      }
    }
  }

  /** The store after an attempt to add a verified credential. */
  function Inserted(d: Rp, db: Db, c: NewCredential): Db
    requires HasUserId(d) && HasName(d)
  {
    AddCreds(db, d.userId.value, d.userName.value, d.rpId, c.id, c.pubkey, c.signCount).db
  }

  /** A registration response either fails or adds a credential; only then the challenge is dropped. */
  ghost predicate RegResponseShaped(d: Rp, db: Db, s: RpStep)
    requires HasUserId(d) && HasName(d)
  {
    && (s.rp == d || s.rp == d.(dbOpen := false) || s.rp == d.(challenge := None))
    && (s.ret == Accepted || (s.ret == Failed && s.rp.challenge == d.challenge))
    && (s.ret == Accepted ==> s.rp == d.(challenge := None))
    && (s.db == db || exists c: NewCredential :: c.id != [] && s.db == Inserted(d, db, c))
  }

  lemma {:induction false} RegResponseShape(env: Env, d: Rp, db: Db, input: bytes)
    requires HasUserId(d) && HasName(d) && HasChallenge(d)
    ensures RegResponseShaped(d, db, ProcessRegResponse(env, d, db, input))
  {
    hide Parse, ClientDataMatches, ParseData, AddCreds;
  }

  lemma {:induction false} InsertedKeeps(d: Rp, db: Db, c: NewCredential)
    requires StoreInv(db) && HasUserId(d) && HasName(d) && c.id != []
    ensures StoreInv(Inserted(d, db, c)) && Extends(db, Inserted(d, db, c))
  {
    AddCredsKeeps(db, d.userId.value, d.userName.value, d.rpId, c.id, c.pubkey, c.signCount);
  }

  lemma {:induction false} RegResponseKeeps(env: Env, d: Rp, db: Db, input: bytes)
    requires RpInv(d, db) && StoreInv(db) && d.state == RegRequestSent
    ensures Keeps(db, Decide(ProcessRegResponse(env, d, db, input), RegSuccess, RegFailure))
  {
    hide ProcessRegResponse, Inserted, StoreInv, Extends, AuthCeremonyInv;
    RegResponseShape(env, d, db, input);
    ExtendsItself(db);
    var s := ProcessRegResponse(env, d, db, input);
    if s.db != db {
      var c: NewCredential :| c.id != [] && s.db == Inserted(d, db, c);
      InsertedKeeps(d, db, c);
    }
  }

  /** An accepted authentication response has passed every check; any other one leaves the store alone. */
  ghost predicate AuthResponseShaped(d: Rp, db: Db, credId: bytes, s: RpStep) {
    && (s.rp == d || s.rp == d.(dbOpen := false)) && (s.ret == Accepted || s.ret == Failed)
    && (s.ret == Accepted ==> s.rp == d && exists n :: s.db == UpdateSignCount(db, credId, n))
    && (s.ret == Failed ==> s.db == db)
  }

  lemma {:induction false} AuthResponseShape(env: Env, d: Rp, db: Db, resp: AuthResponse, cred: Credential)
    requires HasChallenge(d)
    ensures AuthResponseShaped(d, db, resp.credId, CheckAuthentication(env, d, db, resp, cred))
  {
    hide ClientDataMatches, ParseData, VerifyAuthData, UpdateSignCount;
  }

  lemma {:induction false} CountedKeeps(d: Rp, db: Db, credId: bytes, count: int)
    requires StoreInv(db) && AuthCeremonyInv(d, db)
    ensures var later := UpdateSignCount(db, credId, count);
            StoreInv(later) && Extends(db, later) && AuthCeremonyInv(d, later)
  {
    UpdateKeeps(db, credId, count);
    if BuiltFor(d, db) {
      BuiltForLater(d, db, UpdateSignCount(db, credId, count));
    }
  }

  lemma {:induction false} OutcomeKeepsCeremony(d: Rp, db: Db, outcome: State, isOpen: bool)
    ensures AuthCeremonyInv(d, db) ==> AuthCeremonyInv(d.(state := outcome, dbOpen := isOpen), db)
  {
  }

  lemma {:induction false} AuthResponseKeeps(env: Env, d: Rp, db: Db, input: bytes)
    requires RpInv(d, db) && StoreInv(db) && d.state == AuthRequestSent
    ensures Keeps(db, Decide(ProcessAuthResponse(env, d, db, input), AuthSuccess, AuthFailure))
  {
    hide Parse, CheckAuthentication, ClaimedUser, CredentialOf, UpdateSignCount, AuthCeremonyInv, StoreInv, Extends;
    ExtendsItself(db);
    OutcomeKeepsCeremony(d, db, AuthFailure, d.dbOpen);
    OutcomeKeepsCeremony(d, db, AuthFailure, false);
    match Parse(input, PKT_AUTH_RESPONSE)
    case Some(AuthResponsePkt(resp)) =>
      var user := ClaimedUser(d, resp);
      if user.Some? && CredentialOf(db, user.value, resp.credId).Some? {
        var cred := CredentialOf(db, user.value, resp.credId).value;
        AuthResponseShape(env, d, db, resp, cred);
        var s := CheckAuthentication(env, d, db, resp, cred);
        if s.ret == Accepted {
          var n :| s.db == UpdateSignCount(db, resp.credId, n);
          CountedKeeps(d, db, resp.credId, n);
          OutcomeKeepsCeremony(d, s.db, AuthSuccess, d.dbOpen);
        }
      }
    case _ =>
  }

  lemma {:induction false} ParseKeeps(env: Env, d: Rp, db: Db, dbExists: bool, ext: int, context: Context, input: bytes)
    requires HashLengths(env) && RpInv(d, db) && StoreInv(db)
    ensures Keeps(db, ServerParse(env, d, db, dbExists, ext, context, input))
  {
    hide ProcessIndication, ProcessRegResponse, ProcessAuthResponse, RpInv, StoreInv, Extends, Decide, HashLengths;
    ExtendsItself(db);
    IndicationKeeps(env, d, db, dbExists, input);
    if d.state == RegRequestSent {
      RegResponseKeeps(env, d, db, input);
    } else if d.state == AuthRequestSent {
      AuthResponseKeeps(env, d, db, input);
    }
  }

  // ---------------------------------------------------------------- states

  /** The functions that make requests leave the state to the callback. */
  lemma {:induction false} RequestsStay(env: Env, d: Rp, db: Db, rnd: Random)
    ensures CreateRegRequest(env, d, db, rnd).rp.state == d.state
    ensures CreateAuthRequest(env, d, db, rnd).rp.state == d.state
  {
    hide RegRequestRet, BuildRet, EncryptAllowList, AllowList;
  }

  predicate Stays(d: Rp, s: RpStep) {
    s.rp.state == d.state && s.ret in {Accepted, Failed, Aborted}
  }

  lemma {:induction false} CheckStays(env: Env, d: Rp, db: Db, resp: AuthResponse, cred: Credential)
    ensures Stays(d, CheckAuthentication(env, d, db, resp, cred))
  {
    hide ClientDataMatches, ParseData, VerifyAuthData, UpdateSignCount;
  }

  /** So do the functions that process responses. */
  lemma {:induction false} AuthResponseStays(env: Env, d: Rp, db: Db, input: bytes)
    ensures Stays(d, ProcessAuthResponse(env, d, db, input))
  {
    hide Parse, ClaimedUser, CredentialOf, CheckAuthentication, Stays;
    match Parse(input, PKT_AUTH_RESPONSE)
    case Some(AuthResponsePkt(resp)) =>
      forall cred { CheckStays(env, d, db, resp, cred); }
      StaysHere(d, db);
    case _ => StaysHere(d, db);
  }

  lemma {:induction false} StaysHere(d: Rp, db: Db)
    ensures Stays(d, RpStep(d, db, Failed)) && Stays(d, RpStep(d.(dbOpen := false), db, Failed))
  {
  }

  lemma {:induction false} RegResponseStays(env: Env, d: Rp, db: Db, input: bytes)
    ensures Stays(d, ProcessRegResponse(env, d, db, input))
  {
    hide Parse, VerifiedRegistration, AddCreds, VerifyClientData;
  }
}
