/** What a server sends, field by field. */
module ServerRequests {
  import opened Bytes
  import opened Cbor
  import opened Packets
  import opened WireFormat
  import opened Padding
  import opened Environment
  import opened Store
  import opened AuthenticatorData
  import opened RelyingParty
  import opened ServerInvariants

  /** The list holds exactly the credentials of this user at this site. */
  predicate ListsCredentials(db: Db, userId: bytes, rpId: bytes, ds: seq<Descriptor>) {
    && (forall d <- ds :: d.kind == 1 && exists c <- db.creds :: c.userId == userId && c.rpId == rpId && c.id == d.id)
    && (forall c <- db.creds :: c.userId == userId && c.rpId == rpId ==> Descriptor(1, c.id) in ds)
  }

  lemma {:induction false} DescriptorsList(db: Db, userId: bytes, rpId: bytes)
    ensures var ds := Descriptors(db, userId, rpId); ds.Some? ==> ListsCredentials(db, userId, rpId, ds.value)
  {
    ChosenExactly(db.creds, userId, rpId);
    var ds := Descriptors(db, userId, rpId);
    if ds.Some? {
      forall c | c in db.creds && c.userId == userId && c.rpId == rpId ensures Descriptor(1, c.id) in ds.value {
        assert Descriptor(1, c.id).id == c.id;
      }
    }
  }

  // ---------------------------------------------------------------- pre-response

  /** The pre-response carries the drawn id and its key, and only the length of the id is kept. */
  lemma {:induction false} PreResponseSays(env: Env, d: Rp, db: Db, rnd: Random)
    requires HashLengths(env) && RandomLengths(rnd)
    ensures CreatePreResponse(env, d, db, rnd) ==
            RpStep(d.(ephLen := 256), db, Sent(Wire(PreResponse(rnd.eph, env.hmac(d.kEp, rnd.eph)))))
  {
    hide Wire;
    var p := PreResponse(rnd.eph, env.hmac(d.kEp, rnd.eph));
    BuildSucceedsExactly(p);
  }

  // ---------------------------------------------------------------- registration requests

  /** The user id of a registration: that of the stored user with this name, or the drawn one if there is none. */
  predicate IdFor(db: Db, name: bytes, userId: bytes, drawn: bytes) {
    if exists u <- db.users :: u.name == name then User(userId, name) in db.users else userId == drawn
  }

  /** A registration request with the configured policies, for this challenge, and the encrypted part. */
  function RequestFields(d: Rp, challenge: bytes, encrypted: bytes): RegRequest {
    RegRequest(d.rpId, d.rpName, challenge, [CredParam(1, -7)], encrypted, d.timeout,
               AuthSel(d.authAttach, d.residentKey, d.userVerification), d.attestation, None)
  }

  /** Both names in blocks, the user id, and the credentials to exclude. */
  predicate SecretSays(d: Rp, db: Db, userId: bytes, s: RegSecret) {
    && d.userName.Some? && PaddedBlock(s.userName, d.userName.value)
    && d.displayName.Some? && PaddedBlock(s.displayName, d.displayName.value)
    && s.userId == userId && |userId| == 64 && ListsCredentials(db, userId, d.rpId, s.exclude)
  }

  /** The message is such a request with the encryption of such a secret. */
  ghost predicate RequestSays(env: Env, d: Rp, db: Db, challenge: bytes, userId: bytes, out: bytes) {
    exists s, iv :: SecretSays(d, db, userId, s) && d.gcmKey.Some? && MessageIv(4) == Some(iv)
                    && out == Wire(RegRequestPkt(RequestFields(
                                d, challenge, env.seal(d.gcmKey.value, iv, Encode(Array(RegSecretItems(s)))))))
  }

  lemma {:induction false} IdExactly(d: Rp, db: Db, rnd: Random)
    requires DbInv(db) && d.userName.Some?
    ensures IdFor(db, d.userName.value, RegistrationUserId(d, db, rnd), rnd.userId)
  {
    var name := d.userName.value;
    if u :| u in db.users && u.name == name {
      FoundByName(db, u);
      assert User(u.id, name) == u;
    }
  }

  lemma {:induction false} RegRequestSays(env: Env, d: Rp, db: Db, rnd: Random)
    requires DbInv(db)
    ensures var s := CreateRegRequest(env, d, db, rnd);
            && s.db == db && s.rp == d.(challenge := Some(rnd.challenge), userId := s.rp.userId) && s.rp.userId.Some?
            && (d.userName.Some? ==> IdFor(db, d.userName.value, s.rp.userId.value, rnd.userId))
            && (s.ret.Sent? ==> RequestSays(env, d, db, rnd.challenge, s.rp.userId.value, s.ret.out))
  {
    hide Wire, RegSecretItems, Encode, MessageIv, Descriptors, ListsCredentials, PaddedBlock, DbInv, Declared, BuildAsserts;
    hide IdFor, RegistrationUserId;
    var userId := RegistrationUserId(d, db, rnd);
    if d.userName.Some? {
      IdExactly(d, db, rnd);
      if d.displayName.Some? && Paddable(d.displayName.value) && Paddable(d.userName.value) {
        PaddingExactly(Pad(d.userName.value), d.userName.value);
        PaddingExactly(Pad(d.displayName.value), d.displayName.value);
      }
    }
    DescriptorsList(db, userId, d.rpId);
  }

  /** The assertions: both names must be there, and, once they can be padded, the user id must have 64 bytes. */
  lemma {:induction false} NamesAsserted(env: Env, d: Rp, db: Db, rnd: Random)
    requires DbInv(db)
    ensures var s := CreateRegRequest(env, d, db, rnd);
            && (d.userName.None? || d.displayName.None? ==> s.ret == Aborted)
            && ((d.userName.Some? && d.displayName.Some? && s.rp.userId.Some? && |s.rp.userId.value| != 64
                 && 1 <= |d.userName.value| <= 255 && 1 <= |d.displayName.value| <= 255) ==> s.ret == Aborted)
  {
    hide Descriptors, RegistrationUserId, DbInv;
    ListExists(db, RegistrationUserId(d, db, rnd), d.rpId);
  }

  // ---------------------------------------------------------------- authentication requests

  /** The C `int` with the 32 bits of an unsigned number. */
  function AsInt(n: uint32): int {
    if n >= 0x8000_0000 then n - 0x1_0000_0000 else n
  }

  /** The message is an authentication request with this challenge, site and policy, and this encrypted part. */
  predicate AsksFor(d: Rp, challenge: bytes, encrypted: Option<bytes>, out: bytes) {
    out == Wire(AuthRequestPkt(AuthRequest(challenge, Some(d.rpId), d.userVerification, AsInt(d.timeout), encrypted, None)))
  }

  /** In the server-side ceremony the encrypted part is the allow list that is kept; otherwise there is none. */
  ghost predicate AuthRequestContent(env: Env, d: Rp, db: Db, challenge: bytes, s: RpStep)
    requires s.ret.Sent?
  {
    if d.ceremony == AuthServerSide then
      && d.userId.Some? && s.rp.allow != [] && ListsCredentials(db, d.userId.value, d.rpId, s.rp.allow)
      && d.gcmKey.Some?
      && exists iv :: MessageIv(8) == Some(iv)
                      && AsksFor(d, challenge, Some(env.seal(d.gcmKey.value, iv, Encode(Array(DescriptorItems(s.rp.allow))))),
                                 s.ret.out)
    else
      s.rp.allow == d.allow && AsksFor(d, challenge, None, s.ret.out)
  }

  /** The list of a user who has credentials at this site is kept as soon as it is known; otherwise nothing is. */
  predicate ListKept(d: Rp, db: Db, allow: seq<Descriptor>) {
    if d.ceremony == AuthServerSide && d.userId.Some?
       && exists c <- db.creds :: c.userId == d.userId.value && c.rpId == d.rpId
    then ListsCredentials(db, d.userId.value, d.rpId, allow)
    else allow == d.allow
  }

  lemma {:induction false} AuthRequestSays(env: Env, d: Rp, db: Db, rnd: Random)
    requires DbInv(db)
    ensures var s := CreateAuthRequest(env, d, db, rnd);
            && s.db == db && s.rp == d.(challenge := Some(rnd.challenge), allow := s.rp.allow)
            && ListKept(d, db, s.rp.allow)
            && (s.ret.Sent? ==> AuthRequestContent(env, d, db, rnd.challenge, s))
  {
    hide Wire, DescriptorItems, Encode, MessageIv, Descriptors, ListsCredentials, Declared, BuildAsserts;
    if d.userId.Some? {
      DescriptorsList(db, d.userId.value, d.rpId);
      ListExists(db, d.userId.value, d.rpId);
    }
  }

  /** There is always a list, and it is empty exactly if the user has no credential at this site. */
  lemma {:induction false} ListExists(db: Db, userId: bytes, rpId: bytes)
    requires DbInv(db)
    ensures Descriptors(db, userId, rpId).Some?
    ensures Descriptors(db, userId, rpId).value != [] <==> exists c <- db.creds :: c.userId == userId && c.rpId == rpId
  {
    ChosenExactly(db.creds, userId, rpId);
    DescriptorsList(db, userId, rpId);
    var ds := Descriptors(db, userId, rpId);
    if ds.Some? && ds.value != [] {
      assert ds.value[0] in ds.value;
    }
  }
}
