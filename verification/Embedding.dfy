/** What a server does in the handshakes of an honest client is a run, so all that holds of runs holds of them. */
module Embedding {
  import opened Bytes
  import opened Cbor
  import opened Packets
  import opened Environment
  import opened Store
  import opened AuthenticatorData
  import opened RelyingParty
  import opened UserDevice
  import opened ServerInvariants
  import opened ServerDecisions
  import opened Runs
  import opened Session
  import opened Correspondence
  import Honest
  import Lockstep

  // ---------------------------------------------------------------- runs in pieces

  lemma {:induction false} AfterConcat(env: Env, w: World, es: seq<Event>, fs: seq<Event>)
    ensures After(env, w, es + fs) == After(env, After(env, w, es), fs)
  {
    hide Step;
    if fs == [] {
      assert es + fs == es;
    } else {
      var n := |fs| - 1;
      AfterConcat(env, w, es, fs[..n]);
      assert (es + fs)[..|es + fs| - 1] == es + fs[..n];
    }
  }

  lemma {:induction false} AfterOne(env: Env, w: World, e: Event)
    ensures After(env, w, [e]) == Step(env, w, e)
  {
    hide Step;
    assert [e][..0] == [];
    assert After(env, w, []) == w;
  }

  /** The world with another context and another store. */
  function Placed(w: World, who: nat, d: Rp, db: Db): World
    requires who < |w.rps|
  {
    World(db, w.rps[who := d])
  }

  lemma {:induction false} StepPlaces(env: Env, w: World, who: nat, call: Call)
    requires who < |w.rps|
    ensures var s := Perform(env, w.rps[who], w.db, call); Step(env, w, Event(who, call)) == Placed(w, who, s.rp, s.db)
  {
    hide Perform;
  }

  // ---------------------------------------------------------------- handshakes

  /** The server's side of ClientHello and CertificateRequest. */
  function RequestEvents(env: Env, p: Pair, device: Device, rnd: Random, who: nat): (es: seq<Event>)
    ensures |es| == 2
  {
    var c1 := ClientAdd(env, p.ud, FIDOSSL_EXT_TYPE, ClientHello, device);
    [Event(who, Parses(FIDOSSL_EXT_TYPE, ClientHello, if c1.ret.Sent? then c1.ret.out else [], true)),
     Event(who, Adds(FIDOSSL_EXT_TYPE, CertificateRequest, rnd))]
  }

  /** The server's side of the client's Certificate, if that carries a message. */
  function ResponseEvents(env: Env, p: Pair, device: Device, who: nat): seq<Event> {
    var c3 := ClientAdd(env, p.ud, FIDOSSL_EXT_TYPE, Certificate, device);
    if c3.ret.Sent? then [Event(who, Parses(FIDOSSL_EXT_TYPE, Certificate, c3.ret.out, true))] else []
  }

  /** The world holds this pair's server context and store. */
  predicate Holds(w: World, who: nat, p: Pair) {
    who < |w.rps| && w.rps[who] == p.rp && w.db == p.db
  }

  /** The pair after both phases of a handshake, with the pair in between. */
  predicate Passes(env: Env, p: Pair, device: Device, rnd: Random, m: Pair, q: Pair) {
    && Honest.RequestPhase(env, p, device, rnd, true) == Some(m)
    && Honest.ResponsePhase(env, m, device, true) == Some(q)
  }

  lemma {:induction false} RequestIsRun(env: Env, w: World, p: Pair, device: Device, rnd: Random, m: Pair, who: nat)
    requires Holds(w, who, p) && Honest.RequestPhase(env, p, device, rnd, true) == Some(m)
    ensures After(env, w, RequestEvents(env, p, device, rnd, who)) == Placed(w, who, m.rp, m.db)
  {
    hide ClientAdd, ClientParse, ServerAdd, ServerParse, After, Step;
    var es := RequestEvents(env, p, device, rnd, who);
    var w1 := Step(env, w, es[0]);
    StepPlaces(env, w, who, es[0].call);
    StepPlaces(env, w1, who, es[1].call);
    AfterOne(env, w, es[0]);
    AfterOne(env, w1, es[1]);
    AfterConcat(env, w, [es[0]], [es[1]]);
    assert es == [es[0]] + [es[1]];
  }

  lemma {:induction false} ResponseIsRun(env: Env, w: World, m: Pair, device: Device, q: Pair, who: nat)
    requires Holds(w, who, m) && Honest.ResponsePhase(env, m, device, true) == Some(q)
    ensures After(env, w, ResponseEvents(env, m, device, who)) == Placed(w, who, q.rp, q.db)
  {
    hide ClientAdd, ServerParse, Step;
    var es := ResponseEvents(env, m, device, who);
    if es != [] {
      StepPlaces(env, w, who, es[0].call);
      AfterOne(env, w, es[0]);
    }
  }

  /** A handshake that ends in success does so with its last message. */
  lemma {:induction false} SuccessIsLast(env: Env, p: Pair, device: Device, rnd: Random, m: Pair, q: Pair, who: nat)
    requires Passes(env, p, device, rnd, m, q) && q.rp.state in {RegSuccess, AuthSuccess}
    ensures m.rp.state != q.rp.state && |ResponseEvents(env, m, device, who)| == 1
  {
    hide ClientAdd, ClientParse, ServerAdd, ServerParse;
    var c1 := ClientAdd(env, p.ud, FIDOSSL_EXT_TYPE, ClientHello, device);
    var s1 := ServerParse(env, p.rp, p.db, true, FIDOSSL_EXT_TYPE, ClientHello, c1.ret.out);
    Lockstep.ServerRequestsStates(env, s1.rp, s1.db, rnd);
  }

  /** All events of a handshake. */
  function HandshakeEvents(env: Env, p: Pair, device: Device, rnd: Random, m: Pair, who: nat): (es: seq<Event>)
    ensures es != []
  {
    RequestEvents(env, p, device, rnd, who) + ResponseEvents(env, m, device, who)
  }

  lemma {:induction false} HandshakeIsRun(env: Env, w: World, p: Pair, device: Device, rnd: Random, m: Pair, q: Pair, who: nat)
    requires Holds(w, who, p) && Passes(env, p, device, rnd, m, q) && RandomLengths(rnd)
    ensures After(env, w, HandshakeEvents(env, p, device, rnd, m, who)) == Placed(w, who, q.rp, q.db)
    ensures CallsOk(HandshakeEvents(env, p, device, rnd, m, who))
  {
    hide Honest.RequestPhase, Honest.ResponsePhase, After, RandomLengths;
    var es, fs := RequestEvents(env, p, device, rnd, who), ResponseEvents(env, m, device, who);
    var w1 := Placed(w, who, m.rp, m.db);
    EventsOk(env, p, device, rnd, m, who);
    hide RequestEvents, ResponseEvents;
    RequestIsRun(env, w, p, device, rnd, m, who);
    ResponseIsRun(env, w1, m, device, q, who);
    AfterConcat(env, w, es, fs);
  }

  lemma {:induction false} EventsOk(env: Env, p: Pair, device: Device, rnd: Random, m: Pair, who: nat)
    requires RandomLengths(rnd)
    ensures CallsOk(HandshakeEvents(env, p, device, rnd, m, who))
  {
    hide ClientAdd, RandomLengths;
  }

  // ---------------------------------------------------------------- successes in a run

  /** A handshake that ends in success, after other events: its last event is the step from `m` to `q`. */
  lemma {:induction false} HandshakeInRun(env: Env, w: World, es: seq<Event>, p: Pair, device: Device, rnd: Random,
                                          m: Pair, q: Pair, who: nat)
    requires Holds(After(env, w, es), who, p) && Passes(env, p, device, rnd, m, q) && RandomLengths(rnd)
    requires q.rp.state in {RegSuccess, AuthSuccess}
    ensures var fs := es + HandshakeEvents(env, p, device, rnd, m, who);
            && |fs| > |es|
            && At(env, w, fs, |fs| - 1) == Placed(After(env, w, es), who, m.rp, m.db)
            && At(env, w, fs, |fs|) == After(env, w, fs) == Placed(After(env, w, es), who, q.rp, q.db)
            && m.rp.state != q.rp.state
  {
    hide Honest.RequestPhase, Honest.ResponsePhase, After, RandomLengths, RequestEvents, ResponseEvents;
    var a, b := RequestEvents(env, p, device, rnd, who), ResponseEvents(env, m, device, who);
    var fs := es + HandshakeEvents(env, p, device, rnd, m, who);
    SuccessIsLast(env, p, device, rnd, m, q, who);
    RequestIsRun(env, After(env, w, es), p, device, rnd, m, who);
    HandshakeIsRun(env, After(env, w, es), p, device, rnd, m, q, who);
    AfterConcat(env, w, es, a);
    AfterConcat(env, w, es, a + b);
    assert fs[..|fs| - 1] == es + a;
    assert fs[..|fs|] == fs;
  }

  /** A step to AUTH_SUCCESS is a login that stores its counter. */
  lemma {:induction false} LoginRead(env: Env, w: World, es: seq<Event>, i: nat, who: nat)
    requires Laws(env) && Start(w) && CallsOk(es) && i < |es| && who < |w.rps|
    requires At(env, w, es, i).rps[who].state != AuthSuccess && At(env, w, es, i + 1).rps[who].state == AuthSuccess
    ensures exists l :: LoggedInAt(env, w, es, i, l) && l.cred in At(env, w, es, i).db.creds
                        && At(env, w, es, i + 1).db == UpdateSignCount(At(env, w, es, i).db, l.cred.id, l.ad.signCount)
  {
    hide At, Perform, Laws, RpInv, StoreInv, Start, Proves, CallsOk, Step, UpdateSignCount;
    var before, e := At(env, w, es, i), es[i];
    AtNext(env, w, es, i);
    RunKeeps(env, w, es, i);
    OthersStay(env, before, e, who);
    PerformAccounted(env, before.rps[who], before.db, e.call);
    var l :| Authenticates(env, before.rps[who], before.db, e.call, l);
    StepPlaces(env, before, who, e.call);
    ProofRaises(env, before.rps[who], before.db, e.call.input, l);
    assert LoggedInAt(env, w, es, i, l);
  }

  /** A step to REG_SUCCESS is a registration that stores its credential. */
  lemma {:induction false} RegistrationRead(env: Env, w: World, es: seq<Event>, i: nat, who: nat)
    requires Laws(env) && Start(w) && CallsOk(es) && i < |es| && who < |w.rps|
    requires At(env, w, es, i).rps[who].state != RegSuccess && At(env, w, es, i + 1).rps[who].state == RegSuccess
    ensures exists row :: RegisteredAt(env, w, es, i, row)
                          && At(env, w, es, i + 1).db.creds == At(env, w, es, i).db.creds + [row]
  {
    hide At, Perform, Laws, RpInv, StoreInv, Start, Certifies, CallsOk, Step;
    var before, e := At(env, w, es, i), es[i];
    AtNext(env, w, es, i);
    RunKeeps(env, w, es, i);
    OthersStay(env, before, e, who);
    PerformAccounted(env, before.rps[who], before.db, e.call);
    var row :| Registers(env, before.rps[who], before.db, e.call, row);
    StepPlaces(env, before, who, e.call);
    assert RegisteredAt(env, w, es, i, row);
  }

  /** What happened so far is not changed by what happens later. */
  lemma {:induction false} PastStays(env: Env, w: World, es: seq<Event>, fs: seq<Event>, i: nat)
    requires i <= |es|
    ensures At(env, w, es + fs, i) == At(env, w, es, i)
  {
    assert (es + fs)[..i] == es[..i];
  }

  // ---------------------------------------------------------------- honest handshakes in a run

  /** `fs` goes on with a handshake of context `who`, which leaves this context and this store. */
  predicate GoesOn(env: Env, w: World, es: seq<Event>, fs: seq<Event>, who: nat, q: Pair) {
    && who < |w.rps| && es < fs && (CallsOk(es) ==> CallsOk(fs))
    && After(env, w, fs) == Placed(After(env, w, es), who, q.rp, q.db)
  }

  lemma {:induction false} RequestsKeepStore(env: Env, p: Pair, device: Device, rnd: Random, m: Pair)
    requires Honest.RequestPhase(env, p, device, rnd, true) == Some(m)
    ensures m.db == p.db
  {
    hide ClientAdd, ClientParse, ServerAdd, ProcessIndication;
    var c1 := ClientAdd(env, p.ud, FIDOSSL_EXT_TYPE, ClientHello, device);
    var s1 := ServerParse(env, p.rp, p.db, true, FIDOSSL_EXT_TYPE, ClientHello, c1.ret.out);
    IndicationsDecideNothing(env, p.rp, p.db, true, c1.ret.out);
    AddsDecideNothing(env, s1.rp, s1.db, FIDOSSL_EXT_TYPE, CertificateRequest, rnd);
  }

  lemma {:induction false} PlacedThere(w: World, who: nat, d: Rp, db: Db)
    requires who < |w.rps|
    ensures Placed(w, who, d, db).rps[who] == d && Placed(w, who, d, db).db == db
  {
  }

  lemma {:induction false} EventsConcat(es: seq<Event>, fs: seq<Event>)
    requires CallsOk(es) && CallsOk(fs)
    ensures CallsOk(es + fs)
  {
  }

  /** A handshake without outcome, such as the pre-handshake. */
  lemma {:induction false} HandshakeFollows(env: Env, w: World, es: seq<Event>, p: Pair, device: Device, rnd: Random,
                                            q: Pair, who: nat)
    returns (fs: seq<Event>)
    requires Holds(After(env, w, es), who, p) && RandomLengths(rnd) && CallsOk(es)
    requires Honest.Handshake(env, p, device, rnd, true) == Some(q)
    ensures GoesOn(env, w, es, fs, who, q)
  {
    hide Honest.RequestPhase, Honest.ResponsePhase, After, RandomLengths, CallsOk, Placed, HandshakeEvents;
    var m := Honest.RequestPhase(env, p, device, rnd, true).value;
    var gs := HandshakeEvents(env, p, device, rnd, m, who);
    fs := es + gs;
    HandshakeIsRun(env, After(env, w, es), p, device, rnd, m, q, who);
    AfterConcat(env, w, es, gs);
    EventsConcat(es, gs);
  }

  /** A handshake that ends in registration. */
  lemma {:induction false} RegistrationFollows(env: Env, w: World, es: seq<Event>, p: Pair, device: Device, rnd: Random,
                                               q: Pair, who: nat)
    returns (fs: seq<Event>, row: Credential)
    requires Laws(env) && Start(w) && CallsOk(es) && Holds(After(env, w, es), who, p) && RandomLengths(rnd)
    requires Honest.Handshake(env, p, device, rnd, true) == Some(q) && q.rp.state == RegSuccess
    ensures GoesOn(env, w, es, fs, who, q)
    ensures RegisteredAt(env, w, fs, |fs| - 1, row) && q.db.creds == p.db.creds + [row]
  {
    hide Honest.RequestPhase, Honest.ResponsePhase, After, RandomLengths, CallsOk, Placed, At, Laws, Start, RegisteredAt, HandshakeEvents;
    var m := Honest.RequestPhase(env, p, device, rnd, true).value;
    var gs := HandshakeEvents(env, p, device, rnd, m, who);
    fs := es + gs;
    EventsOk(env, p, device, rnd, m, who);
    EventsConcat(es, gs);
    HandshakeInRun(env, w, es, p, device, rnd, m, q, who);
    RequestsKeepStore(env, p, device, rnd, m);
    PlacedThere(After(env, w, es), who, m.rp, m.db);
    PlacedThere(After(env, w, es), who, q.rp, q.db);
    RegistrationRead(env, w, fs, |fs| - 1, who);
    row :| RegisteredAt(env, w, fs, |fs| - 1, row) && At(env, w, fs, |fs|).db.creds == At(env, w, fs, |fs| - 1).db.creds + [row];
  }

  /** A handshake that ends in authentication. */
  lemma {:induction false} LoginFollows(env: Env, w: World, es: seq<Event>, p: Pair, device: Device, rnd: Random,
                                        q: Pair, who: nat)
    returns (fs: seq<Event>, l: Login)
    requires Laws(env) && Start(w) && CallsOk(es) && Holds(After(env, w, es), who, p) && RandomLengths(rnd)
    requires Honest.Handshake(env, p, device, rnd, true) == Some(q) && q.rp.state == AuthSuccess
    ensures GoesOn(env, w, es, fs, who, q)
    ensures LoggedInAt(env, w, fs, |fs| - 1, l) && l.cred in p.db.creds
    ensures q.db == UpdateSignCount(p.db, l.cred.id, l.ad.signCount)
  {
    hide Honest.RequestPhase, Honest.ResponsePhase, After, RandomLengths, CallsOk, Placed, At, Laws, Start, LoggedInAt, HandshakeEvents;
    hide UpdateSignCount;
    var m := Honest.RequestPhase(env, p, device, rnd, true).value;
    var gs := HandshakeEvents(env, p, device, rnd, m, who);
    fs := es + gs;
    EventsOk(env, p, device, rnd, m, who);
    EventsConcat(es, gs);
    HandshakeInRun(env, w, es, p, device, rnd, m, q, who);
    RequestsKeepStore(env, p, device, rnd, m);
    PlacedThere(After(env, w, es), who, m.rp, m.db);
    PlacedThere(After(env, w, es), who, q.rp, q.db);
    LoginRead(env, w, fs, |fs| - 1, who);
    l :| LoggedInAt(env, w, fs, |fs| - 1, l) && l.cred in At(env, w, fs, |fs| - 1).db.creds
         && At(env, w, fs, |fs|).db == UpdateSignCount(At(env, w, fs, |fs| - 1).db, l.cred.id, l.ad.signCount);
  }
}
