/** Every successful authentication goes back to a successful registration, and its counter exceeds all earlier ones. */
module Correspondence {
  import opened Bytes
  import opened Cbor
  import opened Packets
  import opened RoundTrip
  import opened Environment
  import opened Store
  import opened AuthenticatorData
  import opened Encoding
  import opened RelyingParty
  import opened ServerInvariants
  import opened ServerDecisions
  import opened ServerRequests
  import opened Runs
  import opened Progress

  // ---------------------------------------------------------------- successful registrations

  /** A registration response for this context that verifies as the credential `row`. */
  predicate Certifies(env: Env, d: Rp, input: bytes, row: Credential) {
    match Parse(input, PKT_REG_RESPONSE)
    case Some(RegResponse(attObj, clientData)) =>
      && VerifiedRegistration(env, d, attObj, clientData) == Some(NewCredential(row.id, Some(row.pubkey), row.signCount))
      && d.userId == Some(row.userId) && row.rpId == d.rpId && row.kind == PUBLIC_KEY_TYPE
    case _ => false
  }

  /** A call that takes a context to REG_SUCCESS and stores `row`. */
  predicate Registers(env: Env, d: Rp, db: Db, call: Call, row: Credential) {
    && call.Parses? && d.state == RegRequestSent && Certifies(env, d, call.input, row)
    && Perform(env, d, db, call).rp.state == RegSuccess
    && Perform(env, d, db, call).db.creds == db.creds + [row]
  }

  lemma {:induction false} RegResponseRows(env: Env, d: Rp, db: Db, input: bytes)
    requires HasUserId(d) && HasName(d)
    ensures var s := ProcessRegResponse(env, d, db, input);
            if s.ret == Accepted then exists row :: Certifies(env, d, input, row) && s.db.creds == db.creds + [row]
            else s.db.creds == db.creds
  {
    hide Parse, VerifiedRegistration, VerifyClientData, HasCred, AddUser;
    match Parse(input, PKT_REG_RESPONSE)
    case Some(RegResponse(attObj, clientData)) =>
      var v := VerifiedRegistration(env, d, attObj, clientData);
      if v.Some? {
        var c := v.value;
        AddUserRows(db, d.userId.value, d.userName.value);
        var a := AddCreds(db, d.userId.value, d.userName.value, d.rpId, c.id, c.pubkey, c.signCount);
        if a.ok {
          var row := Credential(c.id, PUBLIC_KEY_TYPE, d.rpId, c.pubkey.value, c.signCount, d.userId.value);
          assert ProcessRegResponse(env, d, db, input).ret == Accepted ==> Certifies(env, d, input, row);
        }
      }
    case _ =>
  }

  lemma {:induction false} AddUserRows(db: Db, id: bytes, name: bytes)
    ensures AddUser(db, id, name).db.creds == db.creds
  {
  }

  lemma {:induction false} AuthResponseRows(env: Env, d: Rp, db: Db, input: bytes)
    ensures ProcessAuthResponse(env, d, db, input).ret == Accepted || ProcessAuthResponse(env, d, db, input).db == db
  {
    hide Parse, VerifyClientData, ParseData, VerifyAuthData, ClaimedUser, CredentialOf;
  }

  // ---------------------------------------------------------------- successful authentications

  predicate Proves(env: Env, d: Rp, db: Db, input: bytes, l: Login) {
    && Parse(input, PKT_AUTH_RESPONSE) == Some(AuthResponsePkt(l.resp))
    && l.cred in db.creds && l.cred.id == l.resp.credId && l.cred.rpId == d.rpId
    && ClaimedUser(d, l.resp) == Some(l.cred.userId)
    && VerifyClientData(env, d, l.resp.clientData, Authenticate) == Accepted
    && ParseData(l.resp.authData) == Some(l.ad) && VerifyAuthData(env, d, l.ad, l.cred.signCount)
    && env.coseKey(l.cred.pubkey) == Some(l.key) && env.verify(AssertionOf(env, d, l.key, l.resp))
  }

  /** A call that takes a context to AUTH_SUCCESS and stores the new counter. */
  predicate Authenticates(env: Env, d: Rp, db: Db, call: Call, l: Login) {
    && call.Parses? && d.state == AuthRequestSent && Proves(env, d, db, call.input, l)
    && Perform(env, d, db, call).rp.state == AuthSuccess
    && Perform(env, d, db, call).db == UpdateSignCount(db, l.cred.id, l.ad.signCount)
  }

  lemma {:induction false} AuthResponseProof(env: Env, d: Rp, db: Db, input: bytes)
    requires ProcessAuthResponse(env, d, db, input).ret == Accepted
    ensures exists l :: Proves(env, d, db, input, l)
                        && ProcessAuthResponse(env, d, db, input).db == UpdateSignCount(db, l.cred.id, l.ad.signCount)
  {
    hide Parse, ClientDataMatches, ParseData, VerifyAuthData, UpdateSignCount;
    var resp := Parse(input, PKT_AUTH_RESPONSE).value.resp;
    var cred := CredentialOf(db, ClaimedUser(d, resp).value, resp.credId).value;
    assert Proves(env, d, db, input, Login(resp, cred, ParseData(resp.authData).value, env.coseKey(cred.pubkey).value));
  }

  // ---------------------------------------------------------------- what one step does to the credentials

  /** A step to REG_SUCCESS adds a credential, one to AUTH_SUCCESS sets a counter, any other one changes no credential. */
  ghost predicate Accounted(env: Env, d: Rp, db: Db, call: Call) {
    var s := Perform(env, d, db, call);
    if s.rp.state == RegSuccess && d.state != RegSuccess then exists row :: Registers(env, d, db, call, row)
    else if s.rp.state == AuthSuccess && d.state != AuthSuccess then exists l :: Authenticates(env, d, db, call, l)
    else s.db.creds == db.creds
  }

  lemma {:induction false} AddsDecideNothing(env: Env, d: Rp, db: Db, ext: int, context: Context, rnd: Random)
    ensures ServerAdd(env, d, db, ext, context, rnd).db == db
    ensures ServerAdd(env, d, db, ext, context, rnd).rp.state in {RegSuccess, AuthSuccess} ==>
              ServerAdd(env, d, db, ext, context, rnd).rp.state == d.state
  {
    RequestsStay(env, d, db, rnd);
    RequestsLeaveStore(env, d, db, rnd);
    hide BuildRet, CreateRegRequest, CreateAuthRequest;
  }

  lemma {:induction false} IndicationsDecideNothing(env: Env, d: Rp, db: Db, dbExists: bool, input: bytes)
    ensures ProcessIndication(env, d, db, dbExists, input).db == db
    ensures ProcessIndication(env, d, db, dbExists, input).rp.state in {RegSuccess, AuthSuccess} ==>
              ProcessIndication(env, d, db, dbExists, input).rp.state == d.state
  {
    hide Parse, PacketType, OpenRegIndication, OpenAuthIndication;
  }

  lemma {:induction false} RegistrationAccounted(env: Env, d: Rp, db: Db, call: Call)
    requires RpInv(d, db) && call.Parses? && d.state == RegRequestSent && call.ext == FIDOSSL_EXT_TYPE && call.context == Certificate
    ensures Accounted(env, d, db, call)
  {
    hide ProcessIndication, ProcessRegResponse, ProcessAuthResponse, Certifies, Authenticates;
    RegResponseStays(env, d, db, call.input);
    RegResponseRows(env, d, db, call.input);
    var s := ProcessRegResponse(env, d, db, call.input);
    if s.ret == Accepted {
      var row :| Certifies(env, d, call.input, row) && s.db.creds == db.creds + [row];
      assert Registers(env, d, db, call, row);
    }
  }

  lemma {:induction false} AuthenticationAccounted(env: Env, d: Rp, db: Db, call: Call)
    requires call.Parses? && d.state == AuthRequestSent && call.ext == FIDOSSL_EXT_TYPE && call.context == Certificate
    ensures Accounted(env, d, db, call)
  {
    hide ProcessIndication, ProcessRegResponse, ProcessAuthResponse, Proves, Registers, UpdateSignCount;
    AuthResponseStays(env, d, db, call.input);
    AuthResponseRows(env, d, db, call.input);
    var s := ProcessAuthResponse(env, d, db, call.input);
    if s.ret == Accepted {
      AuthResponseProof(env, d, db, call.input);
      var l :| Proves(env, d, db, call.input, l) && s.db == UpdateSignCount(db, l.cred.id, l.ad.signCount);
      assert Authenticates(env, d, db, call, l);
    }
  }

  lemma {:induction false} PerformAccounted(env: Env, d: Rp, db: Db, call: Call)
    requires RpInv(d, db)
    ensures Accounted(env, d, db, call)
  {
    hide ProcessIndication, ProcessRegResponse, ProcessAuthResponse, ServerAdd, Registers, Authenticates, RpInv;
    match call
    case Adds(ext, context, rnd) => AddsDecideNothing(env, d, db, ext, context, rnd);
    case Parses(ext, context, input, dbExists) =>
      IndicationsDecideNothing(env, d, db, dbExists, input);
      if ext == FIDOSSL_EXT_TYPE && context == Certificate && d.state == RegRequestSent {
        RegistrationAccounted(env, d, db, call);
      } else if ext == FIDOSSL_EXT_TYPE && context == Certificate && d.state == AuthRequestSent {
        AuthenticationAccounted(env, d, db, call);
      }
  }

  lemma {:induction false} CountedRows(db: Db, credId: bytes, count: int, i: nat)
    requires i < |db.creds|
    ensures var later := UpdateSignCount(db, credId, count).creds;
            |later| == |db.creds| && SameCredential(db.creds[i], later[i])
            && later[i].signCount == if db.creds[i].id == credId then count else db.creds[i].signCount
  {
  }

  lemma {:induction false} SameIdSameRow(db: Db, i: nat, c: Credential)
    requires DbInv(db) && i < |db.creds| && c in db.creds && c.id == db.creds[i].id
    ensures c == db.creds[i]
  {
    var k :| 0 <= k < |db.creds| && db.creds[k] == c;
  }

  lemma {:induction false} ProofRaises(env: Env, d: Rp, db: Db, input: bytes, l: Login)
    requires Proves(env, d, db, input, l)
    ensures l.cred in db.creds && l.ad.signCount > l.cred.signCount
  {
    hide Parse, ParseData, ClaimedUser, VerifyClientData;
  }

  /** Counters never go down, as signed numbers. */
  lemma {:induction false} CountersGrow(env: Env, d: Rp, db: Db, call: Call, i: nat)
    requires RpInv(d, db) && DbInv(db) && i < |db.creds|
    ensures var later := Perform(env, d, db, call).db.creds;
            i < |later| && SameCredential(db.creds[i], later[i]) && db.creds[i].signCount <= later[i].signCount
  {
    hide Perform, RpInv, UpdateSignCount, Proves, Certifies, DbInv;
    PerformAccounted(env, d, db, call);
    var s := Perform(env, d, db, call);
    if s.rp.state == AuthSuccess && d.state != AuthSuccess {
      var l :| Authenticates(env, d, db, call, l);
      CountedRows(db, l.cred.id, l.ad.signCount, i);
      ProofRaises(env, d, db, call.input, l);
      if db.creds[i].id == l.cred.id {
        SameIdSameRow(db, i, l.cred);
      }
    }
  }

  // ---------------------------------------------------------------- whole runs

  ghost predicate RegisteredAt(env: Env, w: World, es: seq<Event>, j: nat, row: Credential) {
    j < |es| && Enabled(At(env, w, es, j), es[j])
    && Registers(env, At(env, w, es, j).rps[es[j].who], At(env, w, es, j).db, es[j].call, row)
  }

  ghost predicate LoggedInAt(env: Env, w: World, es: seq<Event>, i: nat, l: Login) {
    i < |es| && Enabled(At(env, w, es, i), es[i])
    && Authenticates(env, At(env, w, es, i).rps[es[i].who], At(env, w, es, i).db, es[i].call, l)
  }

  /** A stored credential equals one that was registered before, except for its counter. */
  ghost predicate Registered(env: Env, w: World, es: seq<Event>, i: nat, c: Credential) {
    exists j: nat, row :: j < i && RegisteredAt(env, w, es, j, row) && SameCredential(row, c)
  }

  lemma {:induction false} RowComesFrom(env: Env, d: Rp, db: Db, call: Call, k: nat)
    requires RpInv(d, db) && k < |Perform(env, d, db, call).db.creds|
    ensures var later := Perform(env, d, db, call).db.creds;
            if k < |db.creds| then SameCredential(db.creds[k], later[k]) else Registers(env, d, db, call, later[k])
  {
    hide Perform, RpInv, UpdateSignCount, Proves, Certifies;
    PerformAccounted(env, d, db, call);
    var s := Perform(env, d, db, call);
    if s.rp.state == AuthSuccess && d.state != AuthSuccess {
      var l :| Authenticates(env, d, db, call, l);
      UpdatedLength(db, l.cred.id, l.ad.signCount);
      CountedRows(db, l.cred.id, l.ad.signCount, k);
    } else if s.rp.state == RegSuccess && d.state != RegSuccess {
      var row :| Registers(env, d, db, call, row);
    }
  }

  lemma {:induction false} UpdatedLength(db: Db, credId: bytes, count: int)
    ensures |UpdateSignCount(db, credId, count).creds| == |db.creds|
  {
  }

  /** Every credential in the store was put there by a successful registration. */
  lemma {:induction false} Provenance(env: Env, w: World, es: seq<Event>, i: nat, k: nat)
    requires Laws(env) && Start(w) && CallsOk(es) && i <= |es| && k < |At(env, w, es, i).db.creds|
    ensures Registered(env, w, es, i, At(env, w, es, i).db.creds[k])
    decreases i
  {
    hide At, Perform, Laws, RpInv, StoreInv, Registers, Start;
    if i == 0 {
      AtStart(env, w, es);
      StartIsEmpty(w);
      assert false;
    } else {
      var before, e := At(env, w, es, i - 1), es[i - 1];
      AtNext(env, w, es, i - 1);
      RunKeeps(env, w, es, i - 1);
      var c := At(env, w, es, i).db.creds[k];
      if Enabled(before, e) {
        RowComesFrom(env, before.rps[e.who], before.db, e.call, k);
      }
      if k < |before.db.creds| {
        Provenance(env, w, es, i - 1, k);
        var j: nat, row :| j < i - 1 && RegisteredAt(env, w, es, j, row) && SameCredential(row, before.db.creds[k]);
        assert SameCredential(row, c);
      } else {
        assert RegisteredAt(env, w, es, i - 1, c) && SameCredential(c, c);
      }
    }
  }

  lemma {:induction false} StartIsEmpty(w: World)
    requires Start(w)
    ensures w.db.creds == []
  {
  }

  // ---------------------------------------------------------------- authentication follows registration

  /**
    What an accepted authentication response is bound to: the response in the input is entitled to use its credential, and
    in the server-side ceremony the list it must be in was built from the user's credentials.
   */
  ghost predicate Bound(env: Env, d: Rp, db: Db, input: bytes, l: Login) {
    && Parse(input, 9) == Some(AuthResponsePkt(l.resp)) && Entitled(env, d, db, l)
    && (d.ceremony == AuthServerSide ==> BuiltFor(d, db))
  }

  lemma {:induction false} ProofBinds(env: Env, d: Rp, db: Db, input: bytes, l: Login)
    requires RpInv(d, db) && StoreInv(db) && d.state == AuthRequestSent
    ensures Proves(env, d, db, input, l) <==> Bound(env, d, db, input, l)
  {
    hide Parse, ParseData, VerifyAuthData, VerifyClientData, Collected, DataFor, ClaimedUser, MayUse;
    StatePromises(d, db);
    ClientDataExactly(env, d, l.resp.clientData, Authenticate);
    AuthDataExactly(env, d, l.resp.authData, l.cred.signCount, l.ad);
    if l.cred in db.creds {
      ClaimExactly(d, db, l.resp, l.cred);
    }
    MayUseNames(d, l.resp, l.cred);
  }

  lemma {:induction false} MayUseNames(d: Rp, resp: AuthResponse, cred: Credential)
    ensures MayUse(d, resp, cred) ==> cred.id == resp.credId && cred.rpId == d.rpId
  {
  }

  /** What a stored credential is bound to: this context's challenge, site and policies, and a direct attestation. */
  ghost predicate RegistrationBound(env: Env, d: Rp, db: Db, input: bytes, row: Credential) {
    && d.userId.Some? && d.userName.Some?
    && exists e: Enrolment :: Enrols(env, d, db, input, e) && row == RowOf(d, e)
  }

  lemma {:induction false} RegistrationBinds(env: Env, d: Rp, db: Db, call: Call, row: Credential)
    requires RpInv(d, db) && StoreInv(db)
    ensures Registers(env, d, db, call, row) ==> RegistrationBound(env, d, db, call.input, row)
  {
    hide Certifies, ProcessRegResponse, Enrols, RpInv, StoreInv;
    if Registers(env, d, db, call, row) {
      RegistrationExactly(env, d, db, call.input);
      var s := ProcessRegResponse(env, d, db, call.input);
      SuccessIsAccepted(env, d, db, call);
      var e: Enrolment :| Enrols(env, d, db, call.input, e) && s.db == StoreAfter(d, db, e);
      assert (db.creds + [row])[|db.creds|] == (db.creds + [RowOf(d, e)])[|db.creds|];
    }
  }

  lemma {:induction false} SuccessIsAccepted(env: Env, d: Rp, db: Db, call: Call)
    requires call.Parses? && d.state == RegRequestSent && Perform(env, d, db, call).rp.state == RegSuccess
    ensures ProcessRegResponse(env, d, db, call.input).ret == Accepted
    ensures Perform(env, d, db, call).db == ProcessRegResponse(env, d, db, call.input).db
  {
    hide ProcessRegResponse, ProcessIndication;
    RegResponseStays(env, d, db, call.input);
    IndicationsDecideNothing(env, d, db, call.dbExists, call.input);
  }

  /** The login at event `i` uses a credential that event `j` registered. */
  ghost predicate TracesBack(env: Env, w: World, es: seq<Event>, i: nat) {
    exists l, j: nat, row ::
      && LoggedInAt(env, w, es, i, l) && j < i && RegisteredAt(env, w, es, j, row) && SameCredential(row, l.cred)
      && RegistrationBound(env, At(env, w, es, j).rps[es[j].who], At(env, w, es, j).db, es[j].call.input, row)
      && es[i].call.Parses? && Bound(env, At(env, w, es, i).rps[es[i].who], At(env, w, es, i).db, es[i].call.input, l)
  }

  lemma {:induction false} OthersStay(env: Env, w: World, e: Event, who: nat)
    requires who < |w.rps| && Step(env, w, e).rps[who].state != w.rps[who].state
    ensures Enabled(w, e) && e.who == who && Result(env, w, e) == Perform(env, w.rps[who], w.db, e.call)
    ensures Step(env, w, e).rps[who] == Perform(env, w.rps[who], w.db, e.call).rp
  {
    hide Perform;
  }

  /**
    Starting from an empty store and whatever is sent, every step to AUTH_SUCCESS uses a credential with the same id,
    user, relying party and key as one that an earlier step to REG_SUCCESS stored, and the response is bound to this
    context: its challenge, its origin, the type webauthn.get and, in the server-side ceremony, its allow list.
   */
  lemma {:induction false} AuthenticationCorrespondence(env: Env, w: World, es: seq<Event>, i: nat, who: nat)
    requires Laws(env) && Start(w) && CallsOk(es) && i < |es| && who < |w.rps|
    requires At(env, w, es, i).rps[who].state != AuthSuccess && At(env, w, es, i + 1).rps[who].state == AuthSuccess
    ensures es[i].who == who && TracesBack(env, w, es, i)
  {
    hide At, Perform, Laws, RpInv, StoreInv, Registers, Start, Proves, Bound, CallsOk, Step, RegistrationBound;
    var before, e := At(env, w, es, i), es[i];
    AtNext(env, w, es, i);
    RunKeeps(env, w, es, i);
    OthersStay(env, before, e, who);
    var d := before.rps[who];
    PerformAccounted(env, d, before.db, e.call);
    var l :| Authenticates(env, d, before.db, e.call, l);
    ProofRaises(env, d, before.db, e.call.input, l);
    ProofBinds(env, d, before.db, e.call.input, l);
    assert LoggedInAt(env, w, es, i, l);
    var k :| 0 <= k < |before.db.creds| && before.db.creds[k] == l.cred;
    Provenance(env, w, es, i, k);
    var j: nat, row :| j < i && RegisteredAt(env, w, es, j, row) && SameCredential(row, l.cred);
    RunKeeps(env, w, es, j);
    ContextsKeep(At(env, w, es, j), es[j].who);
    RegistrationBinds(env, At(env, w, es, j).rps[es[j].who], At(env, w, es, j).db, es[j].call, row);
  }

  lemma {:induction false} ContextsKeep(w: World, who: nat)
    requires WorldInv(w) && who < |w.rps|
    ensures StoreInv(w.db) && RpInv(w.rps[who], w.db)
  {
  }

  /** The challenge of a context that waits for a response is the one it drew for the request it sent. */
  lemma {:induction false} ChallengeWasSent(env: Env, w: World, es: seq<Event>, i: nat, who: nat)
    requires Laws(env) && Start(w) && CallsOk(es) && i <= |es| && who < |w.rps|
    requires At(env, w, es, i).rps[who].state == AuthRequestSent
    ensures exists m: nat :: m < i && SentRequest(env, w, es, m, who)
                             && At(env, w, es, i).rps[who].challenge == Some(es[m].call.rnd.challenge)
    decreases i
  {
    hide At, Perform, Laws, RpInv, StoreInv, Start, CallsOk, Step, Carries;
    if i == 0 {
      AtStart(env, w, es);
      StartsInitial(w, who);
      assert false;
    } else {
      var before, e := At(env, w, es, i - 1), es[i - 1];
      AtNext(env, w, es, i - 1);
      RunKeeps(env, w, es, i - 1);
      if before.rps[who].state == AuthRequestSent {
        ChallengeWasSent(env, w, es, i - 1, who);
        WaitingIsStill(env, before, e, who);
      } else {
        OthersStay(env, before, e, who);
        RequestDraws(env, before.rps[who], before.db, e.call);
        assert SentRequest(env, w, es, i - 1, who);
      }
    }
  }

  lemma {:induction false} StartsInitial(w: World, who: nat)
    requires Start(w) && who < |w.rps|
    ensures w.rps[who].state == Initial
  {
    assert w.rps[who] in w.rps;
  }

  /**
    The message is an authentication request of this server with that challenge. Whoever can parse it reads that
    challenge, and it can be parsed if the relying party id is a C string and the policy a C `int`.
   */
  ghost predicate Carries(d: Rp, ret: Ret, challenge: bytes) {
    && ret.Sent?
    && (exists encrypted :: AsksFor(d, challenge, encrypted, ret.out))
    && var read := Parse(ret.out, PKT_AUTH_REQUEST);
       && (read.Some? ==> read.value.AuthRequestPkt? && read.value.req.challenge == challenge)
       && (NulFree(d.rpId) && d.userVerification <= INT_MAX ==> read.Some?)
  }

  /** A call that sends an authentication request with the challenge it draws. */
  ghost predicate SentRequest(env: Env, w: World, es: seq<Event>, m: nat, who: nat) {
    && m < |es| && es[m].who == who && Enabled(At(env, w, es, m), es[m]) && es[m].call.Adds?
    && Carries(At(env, w, es, m).rps[who], Result(env, At(env, w, es, m), es[m]).ret, es[m].call.rnd.challenge)
  }

  lemma {:induction false} RequestCarries(d: Rp, challenge: bytes, encrypted: Option<bytes>)
    ensures var ret := BuildRet(AuthRequestPkt(AuthRequestOf(d, challenge, encrypted)));
            ret.Sent? ==> Carries(d, ret, challenge)
  {
    hide Parse, Wire, Declared, BuildAsserts;
    var p := AuthRequestOf(d, challenge, encrypted);
    if Build(AuthRequestPkt(p)).Some? {
      assert AsksFor(d, challenge, encrypted, Build(AuthRequestPkt(p)).value);
      ChallengeOnTheWire(p);
      if NulFree(d.rpId) && d.userVerification <= INT_MAX {
        BuildThenParse(AuthRequestPkt(p), PKT_AUTH_REQUEST);
      }
    }
  }

  /** What `create_auth_request` sends. */
  lemma {:induction false} RequestSentCarries(env: Env, d: Rp, db: Db, rnd: Random)
    ensures var s := CreateAuthRequest(env, d, db, rnd); s.ret.Sent? ==> Carries(d, s.ret, rnd.challenge)
  {
    hide BuildRet, Carries, EncryptAllowList, AllowList;
    forall r: Rp, encrypted | AuthRequestOf(r, rnd.challenge, encrypted) == AuthRequestOf(d, rnd.challenge, encrypted) {
      RequestCarries(d, rnd.challenge, encrypted);
    }
  }

  lemma {:induction false} RequestDraws(env: Env, d: Rp, db: Db, call: Call)
    requires d.state != AuthRequestSent && Perform(env, d, db, call).rp.state == AuthRequestSent
    ensures call.Adds? && Carries(d, Perform(env, d, db, call).ret, call.rnd.challenge)
    ensures Perform(env, d, db, call).rp.challenge == Some(call.rnd.challenge)
  {
    hide ProcessIndication, ProcessRegResponse, ProcessAuthResponse, BuildRet, EncryptAllowList, AllowList;
    hide RegRequestRet, Carries;
    if call.Parses? {
      RequestsNotParsed(env, d, db, call.dbExists, call.input);
      RegResponseStays(env, d, db, call.input);
      assert false;
    }
    BuildSendsOrNot();
    RequestSentCarries(env, d, db, call.rnd);
  }

  lemma {:induction false} BuildSendsOrNot()
    ensures forall p :: BuildRet(p) != Accepted
  {
  }

  lemma {:induction false} RequestsNotParsed(env: Env, d: Rp, db: Db, dbExists: bool, input: bytes)
    ensures ProcessIndication(env, d, db, dbExists, input).rp.state == AuthRequestSent ==> d.state == AuthRequestSent
  {
    hide Parse, PacketType, OpenRegIndication, OpenAuthIndication;
  }

  // ---------------------------------------------------------------- signature counters

  lemma {:induction false} CountersOnlyGrow(env: Env, w: World, es: seq<Event>, i: nat, j: nat, k: nat)
    requires Laws(env) && Start(w) && CallsOk(es) && i <= j <= |es| && k < |At(env, w, es, i).db.creds|
    ensures k < |At(env, w, es, j).db.creds|
    ensures SameCredential(At(env, w, es, i).db.creds[k], At(env, w, es, j).db.creds[k])
    ensures At(env, w, es, i).db.creds[k].signCount <= At(env, w, es, j).db.creds[k].signCount
    decreases j
  {
    hide At, Perform, Laws, RpInv, DbInv, Start, CallsOk;
    if i < j {
      CountersOnlyGrow(env, w, es, i, j - 1, k);
      var before, e := At(env, w, es, j - 1), es[j - 1];
      AtNext(env, w, es, j - 1);
      RunKeeps(env, w, es, j - 1);
      if Enabled(before, e) {
        CountersGrow(env, before.rps[e.who], before.db, e.call, k);
      }
    }
  }

  /** A login stores its counter in the row it used. */
  lemma {:induction false} LoginStores(env: Env, w: World, es: seq<Event>, i: nat, l: Login)
    requires Laws(env) && Start(w) && CallsOk(es) && LoggedInAt(env, w, es, i, l)
    ensures exists k: nat :: k < |At(env, w, es, i).db.creds| && At(env, w, es, i).db.creds[k] == l.cred
                        && k < |At(env, w, es, i + 1).db.creds|
                        && At(env, w, es, i + 1).db.creds[k] == l.cred.(signCount := l.ad.signCount)
  {
    hide At, Perform, Laws, RpInv, DbInv, Start, CallsOk, Proves, UpdateSignCount;
    var before, e := At(env, w, es, i), es[i];
    AtNext(env, w, es, i);
    ProofRaises(env, before.rps[e.who], before.db, e.call.input, l);
    var k: nat :| k < |before.db.creds| && before.db.creds[k] == l.cred;
    CountedRows(before.db, l.cred.id, l.ad.signCount, k);
    UpdatedLength(before.db, l.cred.id, l.ad.signCount);
    assert At(env, w, es, i + 1).db == UpdateSignCount(before.db, l.cred.id, l.ad.signCount);
    assert At(env, w, es, i + 1).db.creds[k] == l.cred.(signCount := l.ad.signCount);
  }

  /** Two logins with one credential, the one at event `i` before the one at event `j`. */
  ghost predicate LoggedInTwice(env: Env, w: World, es: seq<Event>, i: nat, j: nat, l: Login, m: Login) {
    i < j && LoggedInAt(env, w, es, i, l) && LoggedInAt(env, w, es, j, m) && l.cred.id == m.cred.id
  }

  /** Of two logins with one credential the later one has the larger counter, as a signed number. */
  lemma {:induction false} SignedCountersIncrease(env: Env, w: World, es: seq<Event>, i: nat, j: nat, l: Login, m: Login)
    requires Laws(env) && Start(w) && CallsOk(es)
    ensures LoggedInTwice(env, w, es, i, j, l, m) ==> l.ad.signCount < m.ad.signCount
  {
    hide At, Perform, Laws, RpInv, DbInv, Start, CallsOk, Proves, UpdateSignCount;
    if LoggedInTwice(env, w, es, i, j, l, m) {
      LoginStores(env, w, es, i, l);
      var k: nat :| k < |At(env, w, es, i).db.creds| && At(env, w, es, i).db.creds[k] == l.cred
                    && k < |At(env, w, es, i + 1).db.creds|
                    && At(env, w, es, i + 1).db.creds[k] == l.cred.(signCount := l.ad.signCount);
      CountersOnlyGrow(env, w, es, i + 1, j, k);
      var before := At(env, w, es, j);
      ProofRaises(env, before.rps[es[j].who], before.db, es[j].call.input, m);
      RunKeeps(env, w, es, j);
      WorldDbInv(before);
      SameIdSameRow(before.db, k, m.cred);
    }
  }

  predicate CIntRange(i: int) {
    -TWO31 <= i < TWO31
  }

  lemma {:induction false} CountInRange(env: Env, d: Rp, db: Db, input: bytes, l: Login)
    requires Proves(env, d, db, input, l)
    ensures CIntRange(l.ad.signCount)
  {
    hide Parse, ClaimedUser, VerifyClientData, ParseData;
    LayoutParse(l.resp.authData);
  }

  /** The signed comparison agrees with the unsigned one unless the sign bit is lost. */
  lemma {:induction false} SignedOrder(x: int, y: int)
    requires CIntRange(x) && CIntRange(y) && x < y
    ensures Unsigned(x) < Unsigned(y) <==> !(x < 0 <= y)
  {
  }

  /**
    The counter, as the unsigned number that the authenticator sent, strictly increases from one login to the next
    exactly when it does not go from the upper half of the range to the lower half.
   */
  lemma {:induction false} UnsignedCountersIncreaseExactly(env: Env, w: World, es: seq<Event>, i: nat, j: nat, l: Login, m: Login)
    requires Laws(env) && Start(w) && CallsOk(es)
    ensures LoggedInTwice(env, w, es, i, j, l, m) ==>
              && CIntRange(l.ad.signCount) && CIntRange(m.ad.signCount)
              && (Unsigned(l.ad.signCount) < Unsigned(m.ad.signCount) <==> !(l.ad.signCount < 0 <= m.ad.signCount))
  {
    hide At, Perform, Laws, Start, CallsOk, Proves, UpdateSignCount;
    if LoggedInTwice(env, w, es, i, j, l, m) {
      SignedCountersIncrease(env, w, es, i, j, l, m);
      CountInRange(env, At(env, w, es, i).rps[es[i].who], At(env, w, es, i).db, es[i].call.input, l);
      CountInRange(env, At(env, w, es, j).rps[es[j].who], At(env, w, es, j).db, es[j].call.input, m);
      SignedOrder(l.ad.signCount, m.ad.signCount);
    }
  }

  /** Every registration's counter is below 2^31. */
  ghost predicate SmallAtRegistration(env: Env, w: World, es: seq<Event>) {
    forall j: nat, row :: RegisteredAt(env, w, es, j, row) ==> row.signCount >= 0
  }

  lemma {:induction false} StoredCountersStaySmall(env: Env, w: World, es: seq<Event>, i: nat, k: nat)
    requires Laws(env) && Start(w) && CallsOk(es) && i <= |es| && k < |At(env, w, es, i).db.creds|
    requires SmallAtRegistration(env, w, es)
    ensures At(env, w, es, i).db.creds[k].signCount >= 0
    decreases i
  {
    hide At, Perform, Laws, RpInv, DbInv, Start, CallsOk, Registers;
    if i == 0 {
      AtStart(env, w, es);
      StartIsEmpty(w);
      assert false;
    } else {
      var before, e := At(env, w, es, i - 1), es[i - 1];
      AtNext(env, w, es, i - 1);
      RunKeeps(env, w, es, i - 1);
      if Enabled(before, e) {
        RowComesFrom(env, before.rps[e.who], before.db, e.call, k);
      }
      if k < |before.db.creds| {
        StoredCountersStaySmall(env, w, es, i - 1, k);
        CountersOnlyGrow(env, w, es, i - 1, i, k);
      } else {
        assert RegisteredAt(env, w, es, i - 1, At(env, w, es, i).db.creds[k]);
      }
    }
  }

  /** If all registration counters are below 2^31, accepted counters strictly increase as unsigned numbers. */
  lemma {:induction false} CounterMonotonicity(env: Env, w: World, es: seq<Event>, i: nat, j: nat, l: Login, m: Login)
    requires Laws(env) && Start(w) && CallsOk(es) && SmallAtRegistration(env, w, es)
    ensures LoggedInTwice(env, w, es, i, j, l, m) ==>
              CIntRange(l.ad.signCount) && CIntRange(m.ad.signCount) && Unsigned(l.ad.signCount) < Unsigned(m.ad.signCount)
  {
    hide At, Perform, Laws, Start, CallsOk, Proves, UpdateSignCount, SmallAtRegistration;
    if LoggedInTwice(env, w, es, i, j, l, m) {
      UnsignedCountersIncreaseExactly(env, w, es, i, j, l, m);
      LoginStores(env, w, es, i, l);
      var k: nat :| k < |At(env, w, es, i).db.creds| && At(env, w, es, i).db.creds[k] == l.cred
                    && k < |At(env, w, es, i + 1).db.creds|
                    && At(env, w, es, i + 1).db.creds[k] == l.cred.(signCount := l.ad.signCount);
      StoredCountersStaySmall(env, w, es, i + 1, k);
    }
  }

  /** The bound is needed: a stored counter of 2^31 is a negative `int`, and a counter of 0 is accepted after it. */
  lemma {:induction false} LargeCounterIsOvertaken(env: Env, d: Rp)
    requires d.userVerification != UV_REQUIRED
    ensures VerifyAuthData(env, d, AuthData(env.sha256(d.rpId), 1, Signed(0), None), Signed(0x8000_0000))
    ensures Unsigned(Signed(0)) < Unsigned(Signed(0x8000_0000))
  {
  }
}
