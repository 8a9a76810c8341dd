/**
  The assumptions of the honest runs can be met: with simple stand-ins for libraries and authenticator, every user with a
  good name registers at every site and comes back. Such runs also show that a large signature counter is overtaken.
 */
module Witness {
  import opened Bytes
  import opened Cbor
  import opened Packets
  import opened Padding
  import opened RoundTrip
  import opened WireFormat
  import opened Environment
  import opened Encoding
  import opened Store
  import opened AuthenticatorData
  import opened RelyingParty
  import opened UserDevice
  import opened ServerInvariants
  import opened ServerDecisions
  import opened Session
  import opened Honest

  // ---------------------------------------------------------------- client data

  /** No byte of a plain text. */
  const SEPARATOR: byte := 200

  function Join(kind: bytes, challenge: bytes, origin: bytes): bytes {
    kind + [SEPARATOR] + (challenge + [SEPARATOR] + origin)
  }

  function UpTo(s: bytes): (n: nat)
    ensures n <= |s|
  {
    if s == [] || s[0] == SEPARATOR then 0 else 1 + UpTo(s[1..])
  }

  function Split(s: bytes): Option<ClientData> {
    var i := UpTo(s);
    if i == |s| then None
    else
      var rest := s[i + 1..];
      var j := UpTo(rest);
      if j == |rest| then None else Some(ClientData(Some(s[..i]), Some(rest[..j]), Some(rest[j + 1..]), true))
  }

  function Write(cd: ClientData): bytes {
    if cd.kind.Some? && cd.challenge.Some? && cd.origin.Some? then Join(cd.kind.value, cd.challenge.value, cd.origin.value)
    else []
  }

  lemma {:induction false} UpToSeparator(a: bytes, b: bytes)
    requires Ascii(a)
    ensures UpTo(a + [SEPARATOR] + b) == |a|
  {
    var s := a + [SEPARATOR] + b;
    if a != [] {
      UpToSeparator(a[1..], b);
      assert s[1..] == a[1..] + [SEPARATOR] + b;
    }
  }

  lemma {:induction false} SplitJoin(kind: bytes, challenge: bytes, origin: bytes)
    requires Ascii(kind) && Ascii(challenge) && Ascii(origin)
    ensures Split(Join(kind, challenge, origin)) == Some(ClientData(Some(kind), Some(challenge), Some(origin), true))
    ensures NulFree(Join(kind, challenge, origin)) && Join(kind, challenge, origin) != []
  {
    var rest := challenge + [SEPARATOR] + origin;
    var s := Join(kind, challenge, origin);
    UpToSeparator(kind, rest);
    UpToSeparator(challenge, origin);
    assert s[..|kind|] == kind && s[|kind| + 1..] == rest;
    assert rest[..|challenge|] == challenge && rest[|challenge| + 1..] == origin;
  }

  // ---------------------------------------------------------------- libraries

  const KEY: bytes := [7]
  const CRED_ID: bytes := [9]
  const SIGNATURE: bytes := [3]
  const ATT_OBJ: bytes := [1]

  /** User present and verified, with attested credential data and this signature counter. */
  function NewData(count: uint32): AuthData {
    AuthData(Zeros(32), 69, Signed(count), Some(Attested(Zeros(16), CRED_ID, KEY)))
  }

  /** User present and verified, with this signature counter. */
  function LoginData(count: uint32): AuthData {
    AuthData(Zeros(32), 5, Signed(count), None)
  }

  function Open(c: bytes): Option<bytes> {
    if |c| < 16 then None else Some(c[..|c| - 16])
  }

  /** Every attestation verifies as a credential with this signature counter. */
  function Libraries(count: uint32): Env {
    Env((key, m) => Zeros(32), (key, iv, plain) => plain + Zeros(16), (key, iv, c) => Open(c), m => Zeros(32),
        Split, Write, check => Some(VerifiedCredential(CRED_ID, Layout(NewData(count)), count)), key => Some(key),
        check => true, host => false)
  }

  lemma {:induction false} LibrariesAreLawful(count: uint32)
    ensures EnvLaws(Libraries(count))
  {
    var env := Libraries(count);
    forall k, iv, p ensures env.open(k, iv, env.seal(k, iv, p)) == Some(p) {
      assert (p + Zeros(16))[..|p|] == p;
    }
    forall kind, challenge, origin | Ascii(kind) && Ascii(challenge) && Ascii(origin)
      ensures var cd := ClientData(Some(kind), Some(challenge), Some(origin), true);
              env.readJson(env.writeJson(cd)) == Some(cd) && NulFree(env.writeJson(cd)) && env.writeJson(cd) != []
    {
      SplitJoin(kind, challenge, origin);
    }
  }

  lemma {:induction false} UrlTextLength(x: bytes)
    ensures |UrlText(x)| <= 2 * |x|
  {
    if |x| > 3 {
      UrlTextLength(x[3..]);
    }
  }

  lemma {:induction false} JsonLength(count: uint32, challenge: bytes, rpId: bytes, mode: Mode)
    requires |challenge| == 32 && |rpId| <= 256
    ensures |HonestJson(Libraries(count), challenge, rpId, mode)| <= 400
  {
    UrlTextLength(challenge);
    hide UrlText, Chars;
  }

  // ---------------------------------------------------------------- configurations

  /** The authenticator of a user; a discoverable credential comes with a user handle. */
  function Authenticator(rpId: bytes, handle: bytes, count: uint32): Device {
    Device(Some(rpId), Some(ATT_OBJ), Some(Assertion(Layout(LoginData(count)), SIGNATURE, handle, CRED_ID)))
  }

  /** A site that asks for direct attestation. */
  predicate Site(opts: ServerOpts, ticket: bytes) {
    && opts.rpId.Some? && TextReadable(opts.rpId.value) && Ascii(opts.rpId.value)
    && opts.rpName.Some? && TextReadable(opts.rpName.value) && opts.ticket == Some(EncodeBlock(ticket))
    && opts.authAttach <= 2 && opts.residentKey <= 3 && opts.userVerification <= 3 && opts.attestation == DIRECT
  }

  /** A client that registers. */
  predicate Registering(opts: ClientOpts, ticket: bytes) {
    && opts.mode == RegisterMode && opts.pin.Some? && opts.ticket == Some(EncodeBlock(ticket))
    && opts.displayName.Some? && GoodName(opts.displayName.value)
  }

  lemma {:induction false} ConfiguredForAuthentication(
    client: ClientOpts, server: ServerOpts, kEp: bytes, ticket: bytes, db: Db)
    requires client.mode == ServerSideMode && client.pin.Some?
    requires client.userName.Some? && GoodName(client.userName.value) && Site(server, ticket) && ticket != []
    ensures InitUd(client).Some? && InitRp(server, kEp).Some?
    ensures FreshServerSide(Pair(InitUd(client).value, InitRp(server, kEp).value, db), client.userName.value)
  {
    Base64RoundTrip(ticket);
    hide DecodeBase64, EncodeBlock;
  }

  lemma {:induction false} ConfiguredForDiscovery(client: ClientOpts, server: ServerOpts, kEp: bytes, ticket: bytes)
    requires client.mode == DiscoverableMode && client.pin.Some? && Site(server, ticket) && ticket != []
    ensures InitUd(client).Some? && InitRp(server, kEp).Some?
    ensures DiscoverableReady(InitUd(client).value, InitRp(server, kEp).value)
  {
    Base64RoundTrip(ticket);
    hide DecodeBase64, EncodeBlock;
  }

  lemma {:induction false} ConfiguredSite(server: ServerOpts, kEp: bytes)
    requires InitRp(server, kEp).Some?
    ensures server.rpId.Some? && InitRp(server, kEp).value.rpId == server.rpId.value
    ensures InitRp(server, kEp).value.attestation == server.attestation
  {
    hide DecodeBase64;
  }

  // ---------------------------------------------------------------- the first visit

  /** The user of the first visit and the credential made there. */
  function NewUser(name: bytes, userId: bytes, count: uint32): Registrant {
    Registrant(name, userId, ATT_OBJ, NewCredential(CRED_ID, Some(KEY), Signed(count)))
  }

  lemma {:induction false} DataParses(count: uint32)
    ensures ParseData(Layout(NewData(count))) == Some(NewData(count))
    ensures ParseData(Layout(LoginData(count))) == Some(LoginData(count)) && |Layout(LoginData(count))| == 37
  {
    ParseLayout(NewData(count));
    ParseLayout(LoginData(count));
    hide BigEndian;
  }

  lemma {:induction false} FirstVisitPossible(r: Rp, second: Random, name: bytes, device: Device, count: uint32)
    requires GoodName(name) && RandomLengths(second) && Ascii(r.rpId) && |r.rpId| <= 256 && r.attestation == DIRECT
    requires device.sni == Some(r.rpId) && device.attObj == Some(ATT_OBJ)
    ensures RegPossible(Libraries(count), r, EMPTY, device, second, NewUser(name, second.userId, count))
  {
    var env, x := Libraries(count), NewUser(name, second.userId, count);
    var json := HonestJson(env, second.challenge, r.rpId, Register);
    hide HonestJson, ParseData, Layout, Pad, BuildInner;
    JsonLength(count, second.challenge, r.rpId, Register);
    DataParses(count);
    RegSecretBuildSucceedsExactly(SecretFor(r, EMPTY, name, second.userId));
    assert WireLen(RegResponse(ATT_OBJ, json)) <= BUF_SIZE;
    assert AttestationWorks(env, r, EMPTY, ATT_OBJ, json, x.cred);
  }

  function Stored(rpId: bytes, userId: bytes, count: int): Credential {
    Credential(CRED_ID, PUBLIC_KEY_TYPE, rpId, KEY, count, userId)
  }

  /** The store with the one credential of that user, and its signature counter. */
  function StoreOf(rpId: bytes, name: bytes, userId: bytes, count: int): Db {
    Db([User(userId, name)], [Stored(rpId, userId, count)])
  }

  lemma {:induction false} FirstStore(r: Rp, name: bytes, userId: bytes, count: uint32)
    ensures StoreWith(r, EMPTY, NewUser(name, userId, count)) == StoreOf(r.rpId, name, userId, Signed(count))
    ensures StoredCredential(r, NewUser(name, userId, count)) == Stored(r.rpId, userId, Signed(count))
  {
  }

  lemma {:induction false} OneDescriptor(rpId: bytes, name: bytes, userId: bytes, count: int)
    ensures Descriptors(StoreOf(rpId, name, userId, count), userId, rpId) == Some([Descriptor(PUBLIC_KEY, CRED_ID)])
  {
    var db := StoreOf(rpId, name, userId, count);
    assert db.creds[..|db.creds| - 1] == [];
    assert Chosen([], userId, rpId) == Some([]);
    assert [] + [Descriptor(PUBLIC_KEY, CRED_ID)] == [Descriptor(PUBLIC_KEY, CRED_ID)];
  }

  lemma {:induction false} NewCount(rpId: bytes, name: bytes, userId: bytes, count: int, later: int)
    ensures UpdateSignCount(StoreOf(rpId, name, userId, count), CRED_ID, later) == StoreOf(rpId, name, userId, later)
  {
    var creds := StoreOf(rpId, name, userId, count).creds;
    assert SetCount(creds, CRED_ID, later) == [creds[0].(signCount := later)];
  }

  lemma {:induction false} StoreIsGood(rpId: bytes, name: bytes, userId: bytes, count: int)
    requires |userId| == 64
    ensures StoreInv(StoreOf(rpId, name, userId, count))
  {
  }

  lemma {:induction false} FreshFacts(env: Env, p: Pair, name: bytes, first: Random)
    requires FreshRegistration(p, name)
    ensures GoodName(name) && |p.rp.rpId| <= 256
    ensures PreHandshaken(env, p, first).rp.rpId == p.rp.rpId
    ensures PreHandshaken(env, p, first).rp.attestation == p.rp.attestation
  {
    hide DeriveKey, GoodName;
  }

  /** Both handshakes took place, with this outcome for the server and this store. */
  predicate EndsIn(h: Option<Pair>, outcome: State, db: Db) {
    h.Some? && h.value.rp.state == outcome && h.value.db == db
  }

  /** The pair of a first visit. */
  predicate FirstVisit(p: Pair, name: bytes) {
    FreshRegistration(p, name) && p.db == EMPTY && p.rp.attestation == DIRECT && Ascii(p.rp.rpId)
  }

  lemma {:induction false} VisitFacts(p: Pair, name: bytes, rnd: Random)
    requires FirstVisit(p, name) && RandomLengths(rnd)
    ensures FreshRegistration(p, name) && p.db == EMPTY && Ascii(p.rp.rpId) && |rnd.userId| == 64
  {
  }

  lemma {:induction false} VisitPossible(p: Pair, name: bytes, device: Device, first: Random, second: Random, count: uint32)
    requires FirstVisit(p, name) && RandomLengths(second)
    requires device.sni == Some(p.rp.rpId) && device.attObj == Some(ATT_OBJ)
    ensures RegPossible(Libraries(count), PreHandshaken(Libraries(count), p, first).rp, EMPTY, device, second,
                        NewUser(name, second.userId, count))
  {
    hide RegPossible, FreshRegistration, PreHandshaken, GoodName, RandomLengths, Ascii, Libraries, NewUser;
    FreshFacts(Libraries(count), p, name, first);
    FirstVisitPossible(PreHandshaken(Libraries(count), p, first).rp, second, name, device, count);
  }

  lemma {:induction false} RegistrationEnds(env: Env, p: Pair, device: Device, first: Random, second: Random, x: Registrant)
    requires EnvLaws(env) && FreshRegistration(p, x.name) && RandomLengths(first) && p.db == EMPTY
    requires RegPossible(env, PreHandshaken(env, p, first).rp, EMPTY, device, second, x)
    ensures EndsIn(TwoHandshakes(env, p, device, first, second), RegSuccess, StoreWith(p.rp, EMPTY, x))
  {
    hide TwoHandshakes, RegPossible, EnvLaws, StoreWith, FreshRegistration, PreHandshaken, RandomLengths;
    PreHandshakeKeeps(env, p, first);
    SameStoreWith(p.rp, PreHandshaken(env, p, first).rp, EMPTY, x);
    HonestRegistration(env, p, device, first, second, x);
  }

  // ---------------------------------------------------------------- the second visit

  /** A login with the one credential. */
  function NewLogin(rpId: bytes, name: bytes, userId: bytes, stored: int, handle: bytes, count: uint32): Returning {
    Returning(name, Stored(rpId, userId, stored), Authenticator(rpId, handle, count).assertion.value,
              LoginData(count), KEY)
  }

  lemma {:induction false} LoginWorks(first: uint32, r: Rp, challenge: bytes, name: bytes, userId: bytes, stored: int,
                                      handle: bytes, count: uint32)
    requires |challenge| == 32 && |r.rpId| <= 256 && |userId| == 64 && stored < Signed(count)
    requires handle == userId || (handle == [] && r.ceremony == AuthServerSide)
    ensures AssertionWorks(Libraries(first), r, challenge, Authenticator(r.rpId, handle, count),
                           NewLogin(r.rpId, name, userId, stored, handle, count))
  {
    hide HonestJson, ParseData, Layout;
    JsonLength(first, challenge, r.rpId, Authenticate);
    DataParses(count);
    AuthDataExactly(Libraries(first), r, Layout(LoginData(count)), stored, LoginData(count));
    hide DataFor;
  }

  lemma {:induction false} OneCredentialFits()
    ensures BuildInner(DescriptorItems([Descriptor(PUBLIC_KEY, CRED_ID)])).Some?
  {
    var ds := [Descriptor(PUBLIC_KEY, CRED_ID)];
    assert ds[1..] == [];
    AllowListBuildSucceedsExactly(ds);
    hide BuildInner, DescriptorItems;
  }

  lemma {:induction false} SecondLoginWorks(first: uint32, p: Pair, third: Random, fourth: Random, name: bytes, userId: bytes,
                                            stored: int, count: uint32)
    requires |fourth.challenge| == 32 && |p.rp.rpId| <= 256 && |userId| == 64 && stored < Signed(count)
    requires Descriptors(p.db, userId, p.rp.rpId).Some?
    ensures var y, env := NewLogin(p.rp.rpId, name, userId, stored, [], count), Libraries(first);
            AssertionWorks(env, ServerSideRequested(env, PreHandshaken(env, p, third), fourth, y).rp,
                           fourth.challenge, Authenticator(p.rp.rpId, [], count), y)
  {
    hide Descriptors, AllowCipher, DeriveKey, AssertionWorks, Authenticator, Libraries, StoreAuthRequest;
    var y := NewLogin(p.rp.rpId, name, userId, stored, [], count);
    var r := ServerSideRequested(Libraries(first), PreHandshaken(Libraries(first), p, third), fourth, y).rp;
    assert r.rpId == p.rp.rpId && r.ceremony == AuthServerSide;
    LoginWorks(first, r, fourth.challenge, name, userId, stored, [], count);
  }

  lemma {:induction false} SecondVisitPossible(first: uint32, p: Pair, third: Random, fourth: Random, name: bytes, userId: bytes,
                                               stored: int, count: uint32)
    requires FreshServerSide(p, name) && RandomLengths(third) && RandomLengths(fourth) && Ascii(p.rp.rpId)
    requires p.db == StoreOf(p.rp.rpId, name, userId, stored) && |userId| == 64 && stored < Signed(count)
    ensures SecondVisit(Libraries(first), p, Authenticator(p.rp.rpId, [], count), third, fourth,
                        NewLogin(p.rp.rpId, name, userId, stored, [], count))
  {
    hide Descriptors, BuildInner, DescriptorItems, AssertionWorks, CipherLaws, JsonLaws, Ascii, Libraries, Layout;
    hide ServerSideRequested;
    LibrariesAreLawful(first);
    OneDescriptor(p.rp.rpId, name, userId, stored);
    OneCredentialFits();
    SecondLoginWorks(first, p, third, fourth, name, userId, stored, count);
  }

  lemma {:induction false} ServerSideEnds(env: Env, p: Pair, device: Device, first: Random, second: Random, x: Registrant,
                                          later: Pair, again: Device, third: Random, fourth: Random, y: Returning)
    requires EnvLaws(env) && FreshRegistration(p, x.name) && RandomLengths(first) && p.db == EMPTY
    requires RegPossible(env, PreHandshaken(env, p, first).rp, EMPTY, device, second, x)
    requires later.db == StoreWith(p.rp, EMPTY, x) && y.name == x.name && x.cred.pubkey.Some?
    requires y.cred == StoredCredential(p.rp, x) && SecondVisit(env, later, again, third, fourth, y)
    ensures EndsIn(TwoHandshakes(env, later, again, third, fourth), AuthSuccess,
                   UpdateSignCount(later.db, y.cred.id, y.ad.signCount))
  {
    hide TwoHandshakes, RegPossible, EnvLaws, StoreWith, SecondVisit, FreshRegistration, PreHandshaken, StoredCredential;
    hide UserIdOf, UpdateSignCount, RandomLengths;
    PreHandshakeKeeps(env, later, third);
    RegisterThenAuthenticate(env, p, device, first, second, x, later, again, third, fourth, y);
  }

  lemma {:induction false} VisitsSucceed(p: Pair, later: Pair, name: bytes, before: uint32, after: uint32,
                                         first: Random, second: Random, third: Random, fourth: Random)
    requires FirstVisit(p, name) && FreshServerSide(later, name) && later.rp.rpId == p.rp.rpId
    requires later.db == StoreOf(p.rp.rpId, name, second.userId, Signed(before)) && Signed(before) < Signed(after)
    requires RandomLengths(first) && RandomLengths(second) && RandomLengths(third) && RandomLengths(fourth)
    ensures var device := Authenticator(p.rp.rpId, [], after);
            && EndsIn(TwoHandshakes(Libraries(before), p, device, first, second), RegSuccess, later.db)
            && EndsIn(TwoHandshakes(Libraries(before), later, device, third, fourth), AuthSuccess,
                      StoreOf(p.rp.rpId, name, second.userId, Signed(after)))
  {
    hide TwoHandshakes, RegPossible, EnvLaws, StoreWith, SecondVisit, FreshRegistration, FreshServerSide, Libraries, Ascii;
    hide PreHandshaken, StoredCredential, RandomLengths, GoodName, UserIdOf, UpdateSignCount, Layout, EndsIn, FirstVisit;
    hide StoreOf;
    var env, device, userId := Libraries(before), Authenticator(p.rp.rpId, [], after), second.userId;
    VisitFacts(p, name, second);
    LibrariesAreLawful(before);
    VisitPossible(p, name, device, first, second, before);
    FirstStore(p.rp, name, userId, before);
    RegistrationEnds(env, p, device, first, second, NewUser(name, userId, before));
    SecondVisitPossible(before, later, third, fourth, name, userId, Signed(before), after);
    ServerSideEnds(env, p, device, first, second, NewUser(name, userId, before),
                   later, device, third, fourth, NewLogin(p.rp.rpId, name, userId, Signed(before), [], after));
    NewCount(p.rp.rpId, name, userId, Signed(before), Signed(after));
  }

  /**
    Whoever configures a client and a server with one ticket, a good name and readable texts can register at that site,
    and come back with a new client to a new context over the store that is left, if the signature counter has grown.
   */
  lemma {:induction false} UserRegistersAndReturns(
    client: ClientOpts, later: ClientOpts, server: ServerOpts, kEp: bytes, ticket: bytes, before: uint32, after: uint32,
    first: Random, second: Random, third: Random, fourth: Random)
    requires Registering(client, ticket) && |ticket| == 256 && Site(server, ticket) && Signed(before) < Signed(after)
    requires later.mode == ServerSideMode && later.pin.Some? && later.userName == client.displayName
    requires RandomLengths(first) && RandomLengths(second) && RandomLengths(third) && RandomLengths(fourth)
    ensures EnvLaws(Libraries(before))
    ensures InitUd(client).Some? && InitUd(later).Some? && InitRp(server, kEp).Some?
    ensures var env, rpId, r := Libraries(before), server.rpId.value, InitRp(server, kEp).value;
            var name, userId, device := client.displayName.value, second.userId, Authenticator(rpId, [], after);
            var db := StoreOf(rpId, name, userId, Signed(before));
            && EndsIn(TwoHandshakes(env, Pair(InitUd(client).value, r, EMPTY), device, first, second), RegSuccess, db)
            && EndsIn(TwoHandshakes(env, Pair(InitUd(later).value, r, db), device, third, fourth), AuthSuccess,
                      StoreOf(rpId, name, userId, Signed(after)))
  {
    hide TwoHandshakes, EnvLaws, FreshRegistration, FreshServerSide, InitRp, InitUd, Ascii, Libraries, Authenticator;
    hide EncodeBlock, GoodName, TextReadable, RandomLengths, EndsIn, StoreOf;
    var name := client.displayName.value;
    LibrariesAreLawful(before);
    ConfiguredForRegistration(client, server, kEp, ticket, EMPTY);
    ConfiguredSite(server, kEp);
    var r := InitRp(server, kEp).value;
    var db := StoreOf(r.rpId, name, second.userId, Signed(before));
    ConfiguredForAuthentication(later, server, kEp, ticket, db);
    VisitsSucceed(Pair(InitUd(client).value, r, EMPTY), Pair(InitUd(later).value, r, db), name, before, after,
                  first, second, third, fourth);
  }

  // ---------------------------------------------------------------- discoverable credentials

  /** A visit with a discoverable credential over a store that holds it. */
  predicate DiscoverableVisit(p: Pair, name: bytes, userId: bytes, stored: int) {
    && DiscoverableReady(p.ud, p.rp) && Ascii(p.rp.rpId) && |userId| == 64
    && p.db == StoreOf(p.rp.rpId, name, userId, stored)
  }

  lemma {:induction false} DiscoverableEnds(first: uint32, p: Pair, rnd: Random, name: bytes, userId: bytes,
                                            stored: int, count: uint32)
    requires DiscoverableVisit(p, name, userId, stored) && RandomLengths(rnd) && stored < Signed(count)
    ensures EndsIn(Handshake(Libraries(first), p, Authenticator(p.rp.rpId, userId, count), rnd, true), AuthSuccess,
                   StoreOf(p.rp.rpId, name, userId, Signed(count)))
  {
    hide Handshake, EnvLaws, Libraries, Ascii, Layout, UpdateSignCount, AssertionWorks, StoreInv;
    var y := NewLogin(p.rp.rpId, name, userId, stored, userId, count);
    LibrariesAreLawful(first);
    StoreIsGood(p.rp.rpId, name, userId, stored);
    LoginWorks(first, DiscoverableRequested(p, rnd).rp, rnd.challenge, name, userId, stored, userId, count);
    DiscoverableHandshake(Libraries(first), p, Authenticator(p.rp.rpId, userId, count), rnd, y);
    NewCount(p.rp.rpId, name, userId, stored, Signed(count));
  }

  lemma {:induction false} FirstVisitSucceeds(p: Pair, device: Device, name: bytes, first: Random, second: Random, count: uint32)
    requires FirstVisit(p, name) && RandomLengths(first) && RandomLengths(second)
    requires device.sni == Some(p.rp.rpId) && device.attObj == Some(ATT_OBJ)
    ensures EndsIn(TwoHandshakes(Libraries(count), p, device, first, second), RegSuccess,
                   StoreOf(p.rp.rpId, name, second.userId, Signed(count)))
  {
    hide TwoHandshakes, RegPossible, EnvLaws, StoreWith, FreshRegistration, Libraries, PreHandshaken, RandomLengths, EndsIn;
    hide FirstVisit, StoreOf;
    LibrariesAreLawful(count);
    VisitFacts(p, name, second);
    VisitPossible(p, name, device, first, second, count);
    FirstStore(p.rp, name, second.userId, count);
    RegistrationEnds(Libraries(count), p, device, first, second, NewUser(name, second.userId, count));
  }

  /** The same with a discoverable credential: the second visit is one handshake, and the client does not know its user. */
  lemma {:induction false} UserRegistersAndIsFound(
    client: ClientOpts, later: ClientOpts, server: ServerOpts, kEp: bytes, ticket: bytes, before: uint32, after: uint32,
    first: Random, second: Random, third: Random)
    requires Registering(client, ticket) && |ticket| == 256 && Site(server, ticket) && Signed(before) < Signed(after)
    requires later.mode == DiscoverableMode && later.pin.Some?
    requires RandomLengths(first) && RandomLengths(second) && RandomLengths(third)
    ensures EnvLaws(Libraries(before))
    ensures InitUd(client).Some? && InitUd(later).Some? && InitRp(server, kEp).Some?
    ensures var env, rpId, r := Libraries(before), server.rpId.value, InitRp(server, kEp).value;
            var name, userId := client.displayName.value, second.userId;
            var device, db := Authenticator(rpId, userId, after), StoreOf(rpId, name, userId, Signed(before));
            && EndsIn(TwoHandshakes(env, Pair(InitUd(client).value, r, EMPTY), device, first, second), RegSuccess, db)
            && EndsIn(Handshake(env, Pair(InitUd(later).value, r, db), device, third, true), AuthSuccess,
                      StoreOf(rpId, name, userId, Signed(after)))
  {
    hide TwoHandshakes, Handshake, EnvLaws, FreshRegistration, InitRp, InitUd, Ascii, Libraries;
    hide EncodeBlock, GoodName, TextReadable, EndsIn, StoreOf, DiscoverableReady, Layout;
    var name, userId := client.displayName.value, second.userId;
    LibrariesAreLawful(before);
    ConfiguredForRegistration(client, server, kEp, ticket, EMPTY);
    ConfiguredSite(server, kEp);
    ConfiguredForDiscovery(later, server, kEp, ticket);
    var r := InitRp(server, kEp).value;
    var p2 := Pair(InitUd(later).value, r, StoreOf(r.rpId, name, userId, Signed(before)));
    FirstVisitSucceeds(Pair(InitUd(client).value, r, EMPTY), Authenticator(r.rpId, userId, after), name, first, second, before);
    DiscoverableEnds(before, p2, third, name, userId, Signed(before), after);
  }
}
