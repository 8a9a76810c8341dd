/** A run in which a signature counter of 2^31 is overtaken by a counter of 0. */
module LargeCounter {
  import opened Bytes
  import opened Packets
  import opened Environment
  import opened Encoding
  import opened Store
  import opened AuthenticatorData
  import opened RelyingParty
  import opened UserDevice
  import opened Runs
  import opened Session
  import opened Correspondence
  import opened ServerDecisions
  import opened Embedding
  import opened Witness
  import Honest

  const LARGE: uint32 := 0x8000_0000

  /** Registered with a counter of 2^31 at event `k`, logged in with 2^31 + 1 at event `i` and with 0 at event `j`. */
  ghost predicate Overtaken(env: Env, w: World, es: seq<Event>, k: nat, i: nat, j: nat, row: Credential, l: Login, m: Login) {
    && k < i && RegisteredAt(env, w, es, k, row) && SameCredential(row, l.cred)
    && LoggedInTwice(env, w, es, i, j, l, m)
    && row.signCount == Signed(LARGE) && l.ad.signCount == Signed(LARGE + 1) && m.ad.signCount == Signed(0)
  }

  /** Three contexts of one configuration over an empty store. */
  function ThreeContexts(r: Rp): World {
    World(EMPTY, [r, r, r])
  }

  /** The state of the run: the context that comes next is untouched, and the store holds the counter. */
  predicate Reached(env: Env, w: World, es: seq<Event>, next: nat, r: Rp, db: Db) {
    && CallsOk(es) && |w.rps| == 3 && After(env, w, es).db == db
    && forall who :: next <= who < 3 ==> After(env, w, es).rps[who] == r
  }

  lemma {:induction false} RegistrationPart(p: Pair, device: Device, name: bytes, first: Random, second: Random)
    returns (es: seq<Event>, row: Credential)
    requires FirstVisit(p, name) && FreshRp(p.rp) && RandomLengths(first) && RandomLengths(second)
    requires device.sni == Some(p.rp.rpId) && device.attObj == Some(ATT_OBJ)
    ensures var env, w := Libraries(LARGE), ThreeContexts(p.rp);
            && Reached(env, w, es, 1, p.rp, StoreOf(p.rp.rpId, name, second.userId, Signed(LARGE)))
            && es != [] && RegisteredAt(env, w, es, |es| - 1, row)
    ensures row == Stored(p.rp.rpId, second.userId, Signed(LARGE))
  {
    hide Honest.Handshake, After, RegisteredAt, RandomLengths, Libraries, Laws, StoreOf, FirstVisit, Signed, Start, CallsOk;
    hide Honest.FreshRegistration, Honest.EnvLaws;
    var env, w := Libraries(LARGE), ThreeContexts(p.rp);
    LibrariesAreLawful(LARGE);
    LawfulRuns(env);
    ContextsStart(p.rp);
    FirstVisitSucceeds(p, device, name, first, second, LARGE);
    var q0 := Honest.Handshake(env, p, device, first, true).value;
    var q1 := Honest.Handshake(env, q0, device, second, true).value;
    StillEmpty(env, p, device, name, first);
    NothingYet(env, w);
    var es0 := HandshakeFollows(env, w, [], p, device, first, q0, 0);
    es, row := RegistrationFollows(env, w, es0, q0, device, second, q1, 0);
    OneRow(p.rp.rpId, name, second.userId, Signed(LARGE));
    assert [] + [row] == [row];
  }

  lemma {:induction false} StillEmpty(env: Env, p: Pair, device: Device, name: bytes, first: Random)
    requires Honest.EnvLaws(env) && FirstVisit(p, name) && RandomLengths(first)
    ensures var h := Honest.Handshake(env, p, device, first, true); h.Some? && h.value.db == EMPTY && p.db == EMPTY
  {
    hide Honest.Handshake, Honest.EnvLaws, RandomLengths, DeriveKey;
    Honest.PreHandshake(env, p, device, first, true);
  }

  lemma {:induction false} ContextsStart(r: Rp)
    requires FreshRp(r)
    ensures Start(ThreeContexts(r))
  {
  }

  lemma {:induction false} OneRow(rpId: bytes, name: bytes, userId: bytes, count: int)
    ensures StoreOf(rpId, name, userId, count).creds == [Stored(rpId, userId, count)]
  {
  }

  lemma {:induction false} LawfulRuns(env: Env)
    requires Honest.EnvLaws(env)
    ensures Laws(env)
  {
  }

  lemma {:induction false} NothingYet(env: Env, w: World)
    ensures After(env, w, []) == w && CallsOk([])
  {
  }

  /** One more login: the counter in the store becomes that of the login. */
  lemma {:induction false} LoginPart(w: World, es: seq<Event>, next: nat, p: Pair, rnd: Random, name: bytes, userId: bytes,
                                     stored: int, count: uint32)
    returns (fs: seq<Event>, l: Login)
    requires w == ThreeContexts(p.rp) && FreshRp(p.rp) && next < 3 && RandomLengths(rnd) && stored < Signed(count)
    requires Reached(Libraries(LARGE), w, es, next, p.rp, StoreOf(p.rp.rpId, name, userId, stored))
    requires DiscoverableVisit(p, name, userId, stored)
    ensures Reached(Libraries(LARGE), w, fs, next + 1, p.rp, StoreOf(p.rp.rpId, name, userId, Signed(count)))
    ensures es < fs && LoggedInAt(Libraries(LARGE), w, fs, |fs| - 1, l)
    ensures l.cred == Stored(p.rp.rpId, userId, stored) && l.ad.signCount == Signed(count)
  {
    hide Honest.Handshake, After, LoggedInAt, RandomLengths, Libraries, Laws, StoreOf, Signed, Start, CallsOk, Honest.EnvLaws;
    hide Authenticator, UpdateSignCount, Honest.DiscoverableReady, Ascii;
    var env, device := Libraries(LARGE), Authenticator(p.rp.rpId, userId, count);
    LibrariesAreLawful(LARGE);
    LawfulRuns(env);
    ContextsStart(p.rp);
    DiscoverableEnds(LARGE, p, rnd, name, userId, stored, count);
    var q := Honest.Handshake(env, p, device, rnd, true).value;
    fs, l := LoginFollows(env, w, es, p, device, rnd, q, next);
    OneRow(p.rp.rpId, name, userId, stored);
    NewCount(p.rp.rpId, name, userId, stored, l.ad.signCount);
    OneRow(p.rp.rpId, name, userId, l.ad.signCount);
    OneRow(p.rp.rpId, name, userId, Signed(count));
  }

  lemma {:induction false} RegistrationStays(env: Env, w: World, es: seq<Event>, fs: seq<Event>, k: nat, row: Credential)
    requires es <= fs && RegisteredAt(env, w, es, k, row)
    ensures RegisteredAt(env, w, fs, k, row)
  {
    hide Registers, At;
    PastStays(env, w, es, fs[|es|..], k);
    assert es + fs[|es|..] == fs;
  }

  lemma {:induction false} LoginStays(env: Env, w: World, es: seq<Event>, fs: seq<Event>, k: nat, l: Login)
    requires es <= fs && LoggedInAt(env, w, es, k, l)
    ensures LoggedInAt(env, w, fs, k, l)
  {
    hide Authenticates, At;
    PastStays(env, w, es, fs[|es|..], k);
    assert es + fs[|es|..] == fs;
  }

  lemma {:induction false} OvertakingRun(p: Pair, d: Ud, name: bytes,
                                         first: Random, second: Random, third: Random, fourth: Random)
    requires FirstVisit(p, name) && FreshRp(p.rp) && Honest.DiscoverableReady(d, p.rp)
    requires RandomLengths(first) && RandomLengths(second) && RandomLengths(third) && RandomLengths(fourth)
    ensures var env, w := Libraries(LARGE), ThreeContexts(p.rp);
            && Laws(env) && Start(w)
            && exists es, k: nat, i: nat, j: nat, row, l, m :: CallsOk(es) && Overtaken(env, w, es, k, i, j, row, l, m)
  {
    hide After, Registers, Authenticates, RandomLengths, Libraries, Laws, StoreOf, Start, CallsOk, Honest.EnvLaws, At;
    hide Honest.DiscoverableReady, Ascii, Honest.FreshRegistration, RegisteredAt, LoggedInAt, Layout;
    var env, w, userId := Libraries(LARGE), ThreeContexts(p.rp), second.userId;
    LibrariesAreLawful(LARGE);
    LawfulRuns(env);
    ContextsStart(p.rp);
    VisitFacts(p, name, second);
    var es0, row := RegistrationPart(p, Authenticator(p.rp.rpId, userId, 0), name, first, second);
    var p1 := Pair(d, p.rp, StoreOf(p.rp.rpId, name, userId, Signed(LARGE)));
    var es1, l := LoginPart(w, es0, 1, p1, third, name, userId, Signed(LARGE), LARGE + 1);
    var p2 := Pair(d, p.rp, StoreOf(p.rp.rpId, name, userId, Signed(LARGE + 1)));
    var es, m := LoginPart(w, es1, 2, p2, fourth, name, userId, Signed(LARGE + 1), 0);
    RegistrationStays(env, w, es0, es, |es0| - 1, row);
    LoginStays(env, w, es1, es, |es1| - 1, l);
    assert Overtaken(env, w, es, |es0| - 1, |es1| - 1, |es| - 1, row, l, m);
  }

  // ---------------------------------------------------------------- one such run

  const NAME: bytes := [65]

  const SERVER := Rp(Initial, Undefined, None, NAME, NAME, 0, 0, 0, DIRECT, 0, [], 0, None, None, None, None,
                     Some(Zeros(256)), [], true)

  const CLIENT := BLANK.(state := RegInitial, ceremony := Registration, ticket := Some(Zeros(256)), displayName := Some(NAME))

  const VISITOR := BLANK.(state := AuthInitialDiscoverable, ceremony := AuthDiscoverable)

  const RANDOM := Random(Zeros(256), Zeros(32), Zeros(64))

  /**
    The condition under which accepted counters increase as unsigned numbers is needed in whole runs too: there is one in
    which a credential is registered with the counter 2^31, and logins with 2^31 + 1 and then 0 both succeed.
   */
  lemma {:induction false} CounterIsOvertaken()
    ensures exists env, w, es, k: nat, i: nat, j: nat, row, l, m ::
              Laws(env) && Start(w) && CallsOk(es) && Overtaken(env, w, es, k, i, j, row, l, m)
  {
    hide Laws, Start, CallsOk, Overtaken, Libraries;
    OvertakingRun(Pair(CLIENT, SERVER, EMPTY), VISITOR, NAME, RANDOM, RANDOM, RANDOM, RANDOM);
  }
}
