/** Runs of one client and one server context: their progress, and the keys and initialisation vectors they use. */
module Session {
  import opened Bytes
  import opened Cbor
  import opened Packets
  import opened Padding
  import opened Environment
  import opened Store
  import opened RelyingParty
  import opened UserDevice
  import opened ClientInvariants
  import opened ServerInvariants
  import opened Runs
  import opened Progress

  datatype Pair = Pair(ud: Ud, rp: Rp, db: Db)

  /** A callback on either side with any input, or a change of the store by other contexts. */
  datatype Move = OnClient(clientCall: ClientCall) | OnServer(serverCall: Call) | OnStore(db: Db)

  datatype Outcome = Outcome(pair: Pair, ret: Ret)

  function Play(env: Env, p: Pair, m: Move): Outcome {
    match m
    case OnClient(call) => var s := ClientPerform(env, p.ud, call); Outcome(p.(ud := s.ud), s.ret)
    case OnServer(call) => var s := Perform(env, p.rp, p.db, call); Outcome(p.(rp := s.rp, db := s.db), s.ret)
    case OnStore(db) => Outcome(p.(db := db), Skipped)
  }

  function PairAfter(env: Env, p: Pair, ms: seq<Move>): Pair {
    if ms == [] then p else Play(env, PairAfter(env, p, ms[..|ms| - 1]), ms[|ms| - 1]).pair
  }

  function PairAt(env: Env, p: Pair, ms: seq<Move>, i: nat): Pair
    requires i <= |ms|
  {
    PairAfter(env, p, ms[..i])
  }

  lemma {:induction false} PairNext(env: Env, p: Pair, ms: seq<Move>, i: nat)
    requires i < |ms|
    ensures PairAt(env, p, ms, i + 1) == Play(env, PairAt(env, p, ms, i), ms[i]).pair
  {
    assert ms[..i + 1][..i] == ms[..i];
  }

  // ---------------------------------------------------------------- progress of the client

  function ClientRank(s: State): nat {
    match s
    case RegInitial => 0
    case AuthInitialServerSide => 0
    case AuthInitialDiscoverable => 0
    case PreIndicationSent => 1
    case PreResponseReceived => 2
    case RegIndicationSent => 3
    case AuthIndicationServerSideSent => 3
    case AuthIndicationDiscoverableSent => 3
    case RegRequestReceived => 4
    case AuthRequestReceived => 4
    case _ => 5
  }

  lemma {:induction false} BodiesStay(env: Env, d: Ud, device: Device, input: bytes)
    ensures CreateRegIndication(env, d).ud.state == d.state && CreateAuthIndicationServerSide(env, d).ud.state == d.state
    ensures CreateRegResponse(env, d, device.sni, device.attObj).ud.state == d.state
    ensures CreateAuthResponse(env, d, device.sni, device.assertion).ud.state == d.state
    ensures ProcessPreResponse(d, input).ud.state == d.state && ProcessRegRequest(env, d, input).ud.state == d.state
    ensures ProcessAuthRequest(env, d, input).ud.state == d.state
  {
    hide Parse, BuildRet, RegIndicationRet, ClientDataOf, OpenRegRequest, OpenAllowList;
  }

  lemma {:induction false} ClientMoves(env: Env, d: Ud, call: ClientCall)
    ensures var later := ClientPerform(env, d, call).ud;
            later.state == d.state || ClientRank(later.state) > ClientRank(d.state)
  {
    hide CreateRegIndication, CreateAuthIndicationServerSide, CreateRegResponse, CreateAuthResponse;
    hide ProcessPreResponse, ProcessRegRequest, ProcessAuthRequest, BuildRet;
    var device := if call.ClientAdds? then call.device else Device(None, None, None);
    var input := if call.ClientParses? then call.input else [];
    BodiesStay(env, d, device, input);
  }

  /** Both sides only ever move forwards. */
  lemma {:induction false} RanksGrow(env: Env, p: Pair, ms: seq<Move>, i: nat, j: nat)
    requires i <= j <= |ms|
    ensures ClientRank(PairAt(env, p, ms, i).ud.state) <= ClientRank(PairAt(env, p, ms, j).ud.state)
    ensures Rank(PairAt(env, p, ms, i).rp.state) <= Rank(PairAt(env, p, ms, j).rp.state)
    decreases j
  {
    hide PairAt, ClientPerform, Perform, ClientRank, Rank;
    if i < j {
      RanksGrow(env, p, ms, i, j - 1);
      PairNext(env, p, ms, j - 1);
      var q := PairAt(env, p, ms, j - 1);
      match ms[j - 1]
      case OnClient(call) => ClientMoves(env, q.ud, call);
      case OnServer(call) => PerformMoves(env, q.rp, q.db, call);
      case OnStore(_) =>
    }
  }

  /** How often the client changed its state among the first `i` moves. */
  function ClientChanges(env: Env, p: Pair, ms: seq<Move>, i: nat): nat
    requires i <= |ms|
  {
    if i == 0 then 0
    else ClientChanges(env, p, ms, i - 1) +
         if PairAt(env, p, ms, i).ud.state != PairAt(env, p, ms, i - 1).ud.state then 1 else 0
  }

  /** A client changes its state at most five times in any run, whatever is sent to it. */
  lemma {:induction false} ClientBoundedMoves(env: Env, p: Pair, ms: seq<Move>, i: nat)
    requires i <= |ms|
    ensures ClientChanges(env, p, ms, i) <= ClientRank(PairAt(env, p, ms, i).ud.state) <= 5
    decreases i
  {
    hide PairAt, ClientPerform, Perform;
    if i > 0 {
      ClientBoundedMoves(env, p, ms, i - 1);
      PairNext(env, p, ms, i - 1);
      var q := PairAt(env, p, ms, i - 1);
      if ms[i - 1].OnClient? {
        ClientMoves(env, q.ud, ms[i - 1].clientCall);
      }
    }
  }

  predicate HasResponded(d: Ud) {
    d.state == RegResponseSent || d.state == AuthResponseSent
  }

  lemma {:induction false} RespondedStays(env: Env, d: Ud, call: ClientCall)
    requires HasResponded(d)
    ensures ClientPerform(env, d, call).ud == d && !ClientPerform(env, d, call).ret.Sent?
  {
    hide CreateRegIndication, CreateAuthIndicationServerSide, CreateRegResponse, CreateAuthResponse, BuildRet;
    hide ProcessPreResponse, ProcessRegRequest, ProcessAuthRequest;
  }

  /** A response is the client's last word: nothing in it changes any more, and it sends nothing. */
  lemma {:induction false} ResponseIsFinal(env: Env, p: Pair, ms: seq<Move>, i: nat, j: nat)
    requires i <= j <= |ms| && HasResponded(PairAt(env, p, ms, i).ud)
    ensures PairAt(env, p, ms, j).ud == PairAt(env, p, ms, i).ud
    ensures j < |ms| && ms[j].OnClient? ==> !Play(env, PairAt(env, p, ms, j), ms[j]).ret.Sent?
    decreases j
  {
    hide PairAt, ClientPerform, Perform;
    if i < j {
      ResponseIsFinal(env, p, ms, i, j - 1);
      PairNext(env, p, ms, j - 1);
      var q := PairAt(env, p, ms, j - 1);
      if ms[j - 1].OnClient? {
        RespondedStays(env, q.ud, ms[j - 1].clientCall);
      }
    }
    if j < |ms| && ms[j].OnClient? {
      RespondedStays(env, PairAt(env, p, ms, j).ud, ms[j].clientCall);
    }
  }

  // ---------------------------------------------------------------- what is sent

  /** The second byte of every message is its type. */
  lemma {:induction false} TypeIsSecondByte(p: Packet)
    ensures |Wire(p)| >= 2 && Wire(p)[1] == TypeOf(p)
  {
    var items := PacketItems(p);
    assert |items| <= 7 && items != [] && items[0] == UInt(TypeOf(p)) && 1 <= TypeOf(p) <= 9;
    hide PacketItems;
    assert EncodeHead(4, |items|) == [32 * 4 + |items|] + [];
    assert Encode(items[0]) == [TypeOf(p)] + [];
    assert EncodeAll(items) == Encode(items[0]) + EncodeAll(items[1..]);
  }

  function Kind(ret: Ret): int {
    if ret.Sent? && |ret.out| >= 2 then ret.out[1] else 0
  }

  lemma {:induction false} BuiltKind(p: Packet)
    ensures BuildRet(p).Sent? ==> Kind(BuildRet(p)) == TypeOf(p) && BuildRet(p) == Sent(Wire(p))
    ensures BuildRet(p) != Accepted
  {
    TypeIsSecondByte(p);
  }

  /** A message of type 3 or 7 carries a ciphertext under the client's key, and takes the client one state further. */
  ghost predicate ClientSeals(env: Env, d: Ud, s: UdStep) {
    && (Kind(s.ret) == PKT_REG_INDICATION ==>
          d.state == PreResponseReceived && s.ud.state == RegIndicationSent && d.gcmKey.Some?
          && exists eph, plain ::
               s.ret == Sent(Wire(RegIndication(eph, env.seal(d.gcmKey.value, MessageIv(PKT_REG_INDICATION).value, plain)))))
    && (Kind(s.ret) == PKT_AUTH_INDICATION_SERVER_SIDE ==>
          d.state == PreResponseReceived && s.ud.state == AuthIndicationServerSideSent && d.gcmKey.Some?
          && exists eph, plain ::
               s.ret == Sent(Wire(AuthIndicationServerSide(
                          eph, env.seal(d.gcmKey.value, MessageIv(PKT_AUTH_INDICATION_SERVER_SIDE).value, plain)))))
    && Kind(s.ret) !in {PKT_REG_REQUEST, PKT_AUTH_REQUEST}
  }

  lemma {:induction false} RegIndicationSealed(env: Env, d: Ud)
    requires d.state == PreResponseReceived
    ensures ClientSeals(env, d, Enter(CreateRegIndication(env, d), RegIndicationSent))
  {
    hide Build, BuildRet, BuildInner, Wire, Pad, MessageIv;
    forall eph, c { BuiltKind(RegIndication(eph, c)); }
  }

  lemma {:induction false} AuthIndicationSealed(env: Env, d: Ud)
    requires d.state == PreResponseReceived
    ensures ClientSeals(env, d, Enter(CreateAuthIndicationServerSide(env, d), AuthIndicationServerSideSent))
  {
    hide Build, BuildRet, BuildInner, Wire, Pad, MessageIv;
    forall eph, c { BuiltKind(AuthIndicationServerSide(eph, c)); }
  }

  lemma {:induction false} ResponseKinds(env: Env, d: Ud, device: Device)
    ensures Kind(CreateRegResponse(env, d, device.sni, device.attObj).ret) in {0, PKT_REG_RESPONSE}
    ensures Kind(CreateAuthResponse(env, d, device.sni, device.assertion).ret) in {0, PKT_AUTH_RESPONSE}
  {
    hide BuildRet, ClientDataOf, ValidateRpId;
    forall x, y { BuiltKind(RegResponse(x, y)); }
    forall x { BuiltKind(AuthResponsePkt(x)); }
  }

  lemma {:induction false} ClientSendsSealed(env: Env, d: Ud, call: ClientCall)
    ensures ClientSeals(env, d, ClientPerform(env, d, call))
  {
    hide CreateRegIndication, CreateAuthIndicationServerSide, CreateRegResponse, CreateAuthResponse, BuildRet, Wire;
    hide ProcessPreResponse, ProcessRegRequest, ProcessAuthRequest, MessageIv;
    if call.ClientAdds? {
      if d.state == PreResponseReceived {
        RegIndicationSealed(env, d);
        AuthIndicationSealed(env, d);
      }
      BuiltKind(PreIndication);
      BuiltKind(AuthIndicationDiscoverable);
      ResponseKinds(env, d, call.device);
    } else {
      ReceivingSendsNothing(env, d, call.input);
    }
  }

  lemma {:induction false} ReceivingSendsNothing(env: Env, d: Ud, input: bytes)
    ensures Kind(ProcessPreResponse(d, input).ret) == 0 && Kind(ProcessRegRequest(env, d, input).ret) == 0
    ensures Kind(ProcessAuthRequest(env, d, input).ret) == 0
  {
    hide Parse, OpenRegRequest, OpenAllowList;
  }

  /** A message of type 4 or 8 takes the server one state further; its ciphertext is under the server's key. */
  ghost predicate ServerSeals(env: Env, d: Rp, s: RpStep) {
    && (Kind(s.ret) == PKT_REG_REQUEST ==>
          d.state == RegIndicationReceived && s.rp.state == RegRequestSent && d.gcmKey.Some?
          && exists challenge, plain ::
               s.ret == Sent(Wire(RegRequestPkt(RegRequestOf(
                          d, challenge, env.seal(d.gcmKey.value, MessageIv(PKT_REG_REQUEST).value, plain))))))
    && (Kind(s.ret) == PKT_AUTH_REQUEST ==>
          d.state in {AuthIndicationDiscoverableReceived, AuthIndicationServerSideReceived} && s.rp.state == AuthRequestSent
          && (d.ceremony == AuthServerSide ==> d.gcmKey.Some? && exists challenge, plain ::
               s.ret == Sent(Wire(AuthRequestPkt(AuthRequestOf(
                          d, challenge, Some(env.seal(d.gcmKey.value, MessageIv(PKT_AUTH_REQUEST).value, plain))))))))
    && Kind(s.ret) !in {PKT_REG_INDICATION, PKT_AUTH_INDICATION_SERVER_SIDE}
  }

  lemma {:induction false} RegRequestSealed(env: Env, d: Rp, db: Db, rnd: Random)
    requires d.state == RegIndicationReceived
    ensures ServerSeals(env, d, OnSuccess(CreateRegRequest(env, d, db, rnd), RegRequestSent))
  {
    hide BuildRet, BuildInner, Wire, MessageIv, RegRequestOf, Descriptors, RegSecretItems, RegistrationUserId;
    var userId := RegistrationUserId(d, db, rnd);
    var ret := RegRequestRet(env, d, db, rnd.challenge, userId);
    if ret.Sent? {
      var plain := BuildInner(RegSecretItems(RegSecretOf(d, userId, Descriptors(db, userId, d.rpId).value))).value;
      var cipher := env.seal(d.gcmKey.value, MessageIv(PKT_REG_REQUEST).value, plain);
      BuiltKind(RegRequestPkt(RegRequestOf(d, rnd.challenge, cipher)));
      assert ret == Sent(Wire(RegRequestPkt(RegRequestOf(d, rnd.challenge, cipher))));
    }
  }

  lemma {:induction false} AuthRequestSealed(env: Env, d0: Rp, db: Db, rnd: Random)
    requires d0.state in {AuthIndicationDiscoverableReceived, AuthIndicationServerSideReceived}
    ensures ServerSeals(env, d0, OnSuccess(CreateAuthRequest(env, d0, db, rnd), AuthRequestSent))
  {
    hide BuildRet, BuildInner, Wire, MessageIv, AllowList;
    var d := d0.(challenge := Some(rnd.challenge));
    var ds := AllowList(d, db);
    if d.ceremony != AuthServerSide {
      BuiltKind(AuthRequestPkt(AuthRequestOf(d, rnd.challenge, None)));
    } else if ds.Some? && EncryptAllowList(env, d, ds.value).Some? {
      var plain := BuildInner(DescriptorItems(ds.value)).value;
      var cipher := env.seal(d0.gcmKey.value, MessageIv(PKT_AUTH_REQUEST).value, plain);
      BuiltKind(AuthRequestPkt(AuthRequestOf(d, rnd.challenge, Some(cipher))));
      assert AuthRequestOf(d, rnd.challenge, Some(cipher)) == AuthRequestOf(d0, rnd.challenge, Some(cipher));
    }
  }

  lemma {:induction false} ServerSendsSealed(env: Env, d: Rp, db: Db, call: Call)
    ensures ServerSeals(env, d, Perform(env, d, db, call))
  {
    hide CreateRegRequest, CreateAuthRequest, BuildRet, Wire, Parse, MessageIv;
    hide ProcessIndication, ProcessRegResponse, ProcessAuthResponse;
    match call
    case Adds(ext, context, rnd) =>
      if d.state == RegIndicationReceived {
        RegRequestSealed(env, d, db, rnd);
      } else if d.state in {AuthIndicationDiscoverableReceived, AuthIndicationServerSideReceived} {
        AuthRequestSealed(env, d, db, rnd);
      }
      BuiltKind(PreResponse(rnd.eph, DeriveKey(env, d, rnd.eph)));
    case Parses(ext, context, input, dbExists) =>
      IndicationsSendNothing(env, d, db, dbExists, input);
      RegResponseStays(env, d, db, input);
      AuthResponseStays(env, d, db, input);
  }

  lemma {:induction false} IndicationsSendNothing(env: Env, d: Rp, db: Db, dbExists: bool, input: bytes)
    ensures Kind(ProcessIndication(env, d, db, dbExists, input).ret) == 0
  {
    hide Parse, PacketType, OpenRegIndication, OpenAuthIndication;
  }

  // ---------------------------------------------------------------- keys and initialisation vectors

  const ENCRYPTED := {PKT_REG_INDICATION, PKT_REG_REQUEST, PKT_AUTH_INDICATION_SERVER_SIDE, PKT_AUTH_REQUEST}

  /** The key and the initialisation vector of the ciphertext in what a move sends. */
  function KeyAndIv(env: Env, p: Pair, m: Move): Option<(Option<bytes>, Option<bytes>)> {
    var t := Kind(Play(env, p, m).ret);
    if t !in ENCRYPTED then None
    else Some((if m.OnClient? then p.ud.gcmKey else p.rp.gcmKey, MessageIv(t)))
  }

  /** A message that carries a ciphertext moves its sender on, so it is sent at most once. */
  lemma {:induction false} SentOnce(env: Env, p: Pair, ms: seq<Move>, i: nat, j: nat)
    requires i < j < |ms|
    requires Kind(Play(env, PairAt(env, p, ms, i), ms[i]).ret) in ENCRYPTED
    ensures Kind(Play(env, PairAt(env, p, ms, i), ms[i]).ret) != Kind(Play(env, PairAt(env, p, ms, j), ms[j]).ret)
  {
    hide PairAt, ClientPerform, Perform, Wire, MessageIv;
    var q, r := PairAt(env, p, ms, i), PairAt(env, p, ms, j);
    PairNext(env, p, ms, i);
    RanksGrow(env, p, ms, i + 1, j);
    if ms[i].OnClient? {
      ClientSendsSealed(env, q.ud, ms[i].clientCall);
    } else if ms[i].OnServer? {
      ServerSendsSealed(env, q.rp, q.db, ms[i].serverCall);
    }
    if ms[j].OnClient? {
      ClientSendsSealed(env, r.ud, ms[j].clientCall);
    } else if ms[j].OnServer? {
      ServerSendsSealed(env, r.rp, r.db, ms[j].serverCall);
    }
  }

  /** No two ciphertexts of a run of one client and one server context use the same key and initialisation vector. */
  lemma {:induction false} NoPairReused(env: Env, p: Pair, ms: seq<Move>, i: nat, j: nat)
    requires i < j < |ms|
    ensures var x, y := KeyAndIv(env, PairAt(env, p, ms, i), ms[i]), KeyAndIv(env, PairAt(env, p, ms, j), ms[j]);
            x.Some? && y.Some? ==> x != y
  {
    hide PairAt, Play, MessageIv;
    var t := Kind(Play(env, PairAt(env, p, ms, i), ms[i]).ret);
    var u := Kind(Play(env, PairAt(env, p, ms, j), ms[j]).ret);
    if t in ENCRYPTED && u in ENCRYPTED {
      SentOnce(env, p, ms, i, j);
      AllHaveIvs(t);
      MessageIvsDiffer(t, u);
    }
  }

  lemma {:induction false} AllHaveIvs(t: int)
    ensures t in ENCRYPTED <==> MessageIv(t).Some?
  {
  }

  // ---------------------------------------------------------------- whole runs of the client

  /** Unless the process ends, the client's data suits its state throughout any run. */
  lemma {:induction false} ClientRunKeeps(env: Env, p: Pair, ms: seq<Move>, i: nat)
    requires CipherLaws(env) && UdInv(p.ud) && i <= |ms|
    ensures UdInv(PairAt(env, p, ms, i).ud)
    decreases i
  {
    hide PairAt, ClientPerform, Perform, UdInv, CipherLaws;
    if i == 0 {
      PairStart(env, p, ms);
    } else {
      ClientRunKeeps(env, p, ms, i - 1);
      PairNext(env, p, ms, i - 1);
      if ms[i - 1].OnClient? {
        ClientKeeps(env, PairAt(env, p, ms, i - 1).ud, ms[i - 1].clientCall);
      }
    }
  }

  lemma {:induction false} PairStart(env: Env, p: Pair, ms: seq<Move>)
    ensures PairAt(env, p, ms, 0) == p
  {
  }
}
