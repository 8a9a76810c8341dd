/**
  Both sides in step: one client and one server context whose messages are delivered in the order of TLS, whatever
  libraries, authenticator, random numbers and other contexts do.
 */
module Lockstep {
  import opened Bytes
  import opened Cbor
  import opened Packets
  import opened RoundTrip
  import opened Environment
  import opened Store
  import opened RelyingParty
  import opened UserDevice
  import opened ServerInvariants
  import opened Session

  /** Which callback is next, and the message on its way. */
  datatype Phase =
    | ToOffer
    | Offered(offer: bytes)
    | ToRequest
    | Requested(request: bytes)
    | ToRespond
    | Responded(response: bytes)

  datatype Joint = Joint(ud: Ud, rp: Rp, phase: Phase)

  /** What surrounds a callback, the store as other contexts left it among it. */
  datatype Around = Around(device: Device, rnd: Random, db: Db, dbExists: bool)

  /**
    The next callback of a handshake, or of the next handshake. There is none after a callback that fails, which ends the
    connection. The client's Certificate callback is called twice, and the second call must be skipped.
   */
  function Next(env: Env, j: Joint, a: Around): Option<Joint> {
    match j.phase
    case ToOffer =>
      var s := ClientAdd(env, j.ud, FIDOSSL_EXT_TYPE, ClientHello, a.device);
      if s.ret.Sent? then Some(Joint(s.ud, j.rp, Offered(s.ret.out))) else None
    case Offered(m) =>
      var s := ServerParse(env, j.rp, a.db, a.dbExists, FIDOSSL_EXT_TYPE, ClientHello, m);
      if s.ret == Accepted then Some(Joint(j.ud, s.rp, ToRequest)) else None
    case ToRequest =>
      var s := ServerAdd(env, j.rp, a.db, FIDOSSL_EXT_TYPE, CertificateRequest, a.rnd);
      if s.ret.Sent? then Some(Joint(j.ud, s.rp, Requested(s.ret.out))) else None
    case Requested(m) =>
      var s := ClientParse(env, j.ud, FIDOSSL_EXT_TYPE, CertificateRequest, m);
      if s.ret == Accepted then Some(Joint(s.ud, j.rp, ToRespond)) else None
    case ToRespond =>
      var s := ClientAdd(env, j.ud, FIDOSSL_EXT_TYPE, Certificate, a.device);
      var again := ClientAdd(env, s.ud, FIDOSSL_EXT_TYPE, Certificate, a.device);
      if again.ret != Skipped then None
      else if s.ret.Sent? then Some(Joint(again.ud, j.rp, Responded(s.ret.out)))
      else if s.ret == Skipped then Some(Joint(again.ud, j.rp, ToOffer))
      else None
    case Responded(m) =>
      var s := ServerParse(env, j.rp, a.db, a.dbExists, FIDOSSL_EXT_TYPE, Certificate, m);
      if s.ret == Accepted then Some(Joint(j.ud, s.rp, ToOffer)) else None
  }

  /** The run so far, if no callback failed. */
  function InOrder(env: Env, j: Joint, around: seq<Around>): Option<Joint> {
    if around == [] then Some(j)
    else
      var before :- InOrder(env, j, around[..|around| - 1]);
      Next(env, before, around[|around| - 1])
  }

  // ---------------------------------------------------------------- the fixed course of every ceremony

  datatype Point = Point(client: State, server: State)

  const PRE_HANDSHAKE := [
    Point(PreIndicationSent, Initial), Point(PreIndicationSent, PreIndicationReceived),
    Point(PreIndicationSent, PreResponseSent), Point(PreResponseReceived, PreResponseSent),
    Point(PreResponseReceived, PreResponseSent)]

  const REGISTRATION := [Point(RegInitial, Initial)] + PRE_HANDSHAKE + [
    Point(RegIndicationSent, PreResponseSent), Point(RegIndicationSent, RegIndicationReceived),
    Point(RegIndicationSent, RegRequestSent), Point(RegRequestReceived, RegRequestSent),
    Point(RegResponseSent, RegRequestSent), Point(RegResponseSent, RegSuccess)]

  const SERVER_SIDE := [Point(AuthInitialServerSide, Initial)] + PRE_HANDSHAKE + [
    Point(AuthIndicationServerSideSent, PreResponseSent),
    Point(AuthIndicationServerSideSent, AuthIndicationServerSideReceived),
    Point(AuthIndicationServerSideSent, AuthRequestSent), Point(AuthRequestReceived, AuthRequestSent),
    Point(AuthResponseSent, AuthRequestSent), Point(AuthResponseSent, AuthSuccess)]

  const DISCOVERABLE := [
    Point(AuthInitialDiscoverable, Initial), Point(AuthIndicationDiscoverableSent, Initial),
    Point(AuthIndicationDiscoverableSent, AuthIndicationDiscoverableReceived),
    Point(AuthIndicationDiscoverableSent, AuthRequestSent), Point(AuthRequestReceived, AuthRequestSent),
    Point(AuthResponseSent, AuthRequestSent), Point(AuthResponseSent, AuthSuccess)]

  /** The states of both sides after every number of callbacks. */
  function Course(c: Ceremony): seq<Point> {
    match c
    case Registration => REGISTRATION
    case AuthServerSide => SERVER_SIDE
    case AuthDiscoverable => DISCOVERABLE
    case Undefined => []
  }

  /** The type of the offer after `n` callbacks. */
  function OfferType(c: Ceremony, n: nat): int {
    if c == AuthDiscoverable then PKT_AUTH_INDICATION_DISCOVERABLE
    else if n == 1 then PKT_PRE_INDICATION
    else if c == Registration then PKT_REG_INDICATION
    else PKT_AUTH_INDICATION_SERVER_SIDE
  }

  /** The phase after `n` callbacks: the pre-handshake takes five of them. */
  predicate PhaseAt(c: Ceremony, n: nat, phase: Phase) {
    var k := if c == AuthDiscoverable || n < 5 then n else n - 5;
    match phase
    case ToOffer => k == 0 || k == 6
    case Offered(m) => k == 1 && PacketType(m) == Some(OfferType(c, n))
    case ToRequest => k == 2
    case Requested(_) => k == 3
    case ToRespond => k == 4
    case Responded(_) => k == 5
  }

  /** The pair is where the course of its ceremony says. */
  predicate OnCourse(j: Joint, c: Ceremony, n: nat) {
    && n < |Course(c)| && Point(j.ud.state, j.rp.state) == Course(c)[n] && j.ud.ceremony == c && PhaseAt(c, n, j.phase)
  }

  /** The run is on its course, if no callback failed. */
  predicate Onward(r: Option<Joint>, c: Ceremony, n: nat) {
    r.Some? ==> OnCourse(r.value, c, n)
  }

  /** The switch of the next callback has a branch for the state it finds. */
  predicate Handled(j: Joint) {
    match j.phase
    case ToOffer =>
      || j.ud.state in {RegInitial, AuthInitialServerSide, AuthInitialDiscoverable}
      || (j.ud.state == PreResponseReceived && j.ud.ceremony in {Registration, AuthServerSide})
    case Offered(m) =>
      || (j.rp.state == Initial && PacketType(m) in {Some(PKT_PRE_INDICATION), Some(PKT_AUTH_INDICATION_DISCOVERABLE)})
      || (j.rp.state == PreResponseSent && PacketType(m) in {Some(PKT_REG_INDICATION), Some(PKT_AUTH_INDICATION_SERVER_SIDE)})
    case ToRequest =>
      j.rp.state in {PreIndicationReceived, RegIndicationReceived, AuthIndicationDiscoverableReceived,
                     AuthIndicationServerSideReceived}
    case Requested(_) =>
      j.ud.state in {PreIndicationSent, RegIndicationSent, AuthIndicationDiscoverableSent, AuthIndicationServerSideSent}
    case ToRespond =>
      j.ud.state in {RegRequestReceived, AuthRequestReceived, PreResponseReceived, RegResponseSent, AuthResponseSent}
    case Responded(_) => j.rp.state in {RegRequestSent, AuthRequestSent}
  }

  /** The next callback will be handled, if none failed so far. */
  predicate HandledNext(r: Option<Joint>) {
    r.Some? ==> Handled(r.value)
  }

  // ---------------------------------------------------------------- one callback

  predicate Offers(p: Packet) {
    p.PreIndication? || p.RegIndication? || p.AuthIndicationDiscoverable? || p.AuthIndicationServerSide?
  }

  lemma {:induction false} OfferHasType(p: Packet)
    requires Offers(p) && BuildRet(p).Sent?
    ensures PacketType(BuildRet(p).out) == Some(TypeOf(p))
  {
    hide EncodeHead, Before;
    assert AllIntsFit(PacketItems(p));
    ShortAreWellFormed(PacketItems(p));
    ReadTypeAt(p);
  }

  /** The ceremony of a client never changes. */
  lemma {:induction false} IndicationsKeepCeremony(env: Env, d: Ud)
    ensures CreateRegIndication(env, d).ud.ceremony == d.ceremony
    ensures CreateAuthIndicationServerSide(env, d).ud.ceremony == d.ceremony
  {
    hide BuildRet, RegIndicationRet;
  }

  lemma {:induction false} ResponsesKeepCeremony(env: Env, d: Ud, device: Device)
    ensures CreateRegResponse(env, d, device.sni, device.attObj).ud.ceremony == d.ceremony
    ensures CreateAuthResponse(env, d, device.sni, device.assertion).ud.ceremony == d.ceremony
  {
    hide BuildRet, ClientDataOf;
  }

  lemma {:induction false} RequestsKeepCeremony(env: Env, d: Ud, input: bytes)
    ensures ProcessPreResponse(d, input).ud.ceremony == d.ceremony
    ensures ProcessRegRequest(env, d, input).ud.ceremony == d.ceremony
    ensures ProcessAuthRequest(env, d, input).ud.ceremony == d.ceremony
  {
    hide Parse, OpenRegRequest, OpenAllowList;
  }

  lemma {:induction false} IndicationTypes(env: Env, d: Ud)
    ensures var r := CreateRegIndication(env, d).ret;
            r != Skipped && (r.Sent? ==> PacketType(r.out) == Some(PKT_REG_INDICATION))
    ensures var r := CreateAuthIndicationServerSide(env, d).ret;
            r != Skipped && (r.Sent? ==> PacketType(r.out) == Some(PKT_AUTH_INDICATION_SERVER_SIDE))
  {
    hide PacketType, BuildRet, BuildInner, Encrypt;
    forall eph, c | BuildRet(RegIndication(eph, c)).Sent? { OfferHasType(RegIndication(eph, c)); }
    forall eph, c | BuildRet(AuthIndicationServerSide(eph, c)).Sent? { OfferHasType(AuthIndicationServerSide(eph, c)); }
    BuildDecides();
  }

  lemma {:induction false} BuildDecides()
    ensures forall p :: BuildRet(p) != Skipped && BuildRet(p) != Accepted
  {
    hide Build, BuildAsserts;
  }

  /** Where a client is after its offer, and which offer it makes. */
  function AfterOffer(s: State, c: Ceremony): (State, int) {
    if s == RegInitial || s == AuthInitialServerSide then (PreIndicationSent, PKT_PRE_INDICATION)
    else if s == AuthInitialDiscoverable then (AuthIndicationDiscoverableSent, PKT_AUTH_INDICATION_DISCOVERABLE)
    else if c == Registration then (RegIndicationSent, PKT_REG_INDICATION)
    else (AuthIndicationServerSideSent, PKT_AUTH_INDICATION_SERVER_SIDE)
  }

  predicate MadeOffer(d: Ud, s: UdStep) {
    s.ret.Sent? ==>
      && d.state in {RegInitial, AuthInitialServerSide, AuthInitialDiscoverable, PreResponseReceived}
      && s.ud.ceremony == d.ceremony && PacketType(s.ret.out).Some?
      && (s.ud.state, PacketType(s.ret.out).value) == AfterOffer(d.state, d.ceremony)
  }

  lemma {:induction false} EnterOnly(s: UdStep, state: State)
    ensures var r := Enter(s, state);
            && r.ret == s.ret && r.ud.ceremony == s.ud.ceremony
            && (s.ret.Sent? || s.ret.Accepted? ==> r.ud.state == state)
  {
  }

  lemma {:induction false} ClientOffers(env: Env, d: Ud, device: Device)
    ensures MadeOffer(d, ClientAdd(env, d, FIDOSSL_EXT_TYPE, ClientHello, device))
  {
    hide CreateRegIndication, CreateAuthIndicationServerSide, BuildRet, PacketType, Enter;
    IndicationsKeepCeremony(env, d);
    EnterOnly(UdStep(d, BuildRet(PreIndication)), PreIndicationSent);
    EnterOnly(UdStep(d, BuildRet(AuthIndicationDiscoverable)), AuthIndicationDiscoverableSent);
    EnterOnly(CreateRegIndication(env, d), RegIndicationSent);
    EnterOnly(CreateAuthIndicationServerSide(env, d), AuthIndicationServerSideSent);
    IndicationTypes(env, d);
    if BuildRet(PreIndication).Sent? { OfferHasType(PreIndication); }
    if BuildRet(AuthIndicationDiscoverable).Sent? { OfferHasType(AuthIndicationDiscoverable); }
  }

  predicate TookIndication(input: bytes, s: RpStep) {
    s.ret == Accepted ==>
      PacketType(input).Some?
      && s.rp.state == if PacketType(input).value == PKT_PRE_INDICATION then PreIndicationReceived
                       else if PacketType(input).value == PKT_REG_INDICATION then RegIndicationReceived
                       else if PacketType(input).value == PKT_AUTH_INDICATION_DISCOVERABLE then AuthIndicationDiscoverableReceived
                       else AuthIndicationServerSideReceived
  }

  lemma {:induction false} ServerTakes(env: Env, d: Rp, db: Db, dbExists: bool, input: bytes)
    ensures TookIndication(input, ServerParse(env, d, db, dbExists, FIDOSSL_EXT_TYPE, ClientHello, input))
  {
    hide Parse, PacketType, OpenRegIndication, OpenAuthIndication;
  }

  predicate MadeRequest(d: Rp, s: RpStep) {
    s.ret.Sent? ==>
      s.rp.state == if d.state == PreIndicationReceived then PreResponseSent
                    else if d.state == RegIndicationReceived then RegRequestSent
                    else AuthRequestSent
  }

  lemma {:induction false} ServerRequestsStates(env: Env, d: Rp, db: Db, rnd: Random)
    ensures MadeRequest(d, ServerAdd(env, d, db, FIDOSSL_EXT_TYPE, CertificateRequest, rnd))
  {
    hide CreateRegRequest, CreateAuthRequest, CreatePreResponse;
  }

  predicate TookRequest(d: Ud, s: UdStep) {
    s.ret == Accepted ==>
      s.ud.ceremony == d.ceremony
      && s.ud.state == if d.state == PreIndicationSent then PreResponseReceived
                       else if d.state == RegIndicationSent then RegRequestReceived
                       else AuthRequestReceived
  }

  lemma {:induction false} ClientTakes(env: Env, d: Ud, input: bytes)
    ensures TookRequest(d, ClientParse(env, d, FIDOSSL_EXT_TYPE, CertificateRequest, input))
  {
    hide ProcessPreResponse, ProcessRegRequest, ProcessAuthRequest, Enter;
    RequestsKeepCeremony(env, d, input);
    EnterOnly(ProcessPreResponse(d, input), PreResponseReceived);
    EnterOnly(ProcessRegRequest(env, d, input), RegRequestReceived);
    EnterOnly(ProcessAuthRequest(env, d, input), AuthRequestReceived);
  }

  /** The callback is skipped after the pre-handshake, and its second call after a response. */
  predicate MadeResponse(d: Ud, s: UdStep) {
    && (s.ret.Sent? ==>
          s.ud.ceremony == d.ceremony
          && ((d.state, s.ud.state) in {(RegRequestReceived, RegResponseSent), (AuthRequestReceived, AuthResponseSent)}))
    && (s.ret == Skipped <==> d.state in {PreResponseReceived, RegResponseSent, AuthResponseSent})
    && (s.ret == Skipped ==> s.ud == d)
  }

  lemma {:induction false} ClientResponds(env: Env, d: Ud, device: Device)
    ensures MadeResponse(d, ClientAdd(env, d, FIDOSSL_EXT_TYPE, Certificate, device))
  {
    hide CreateRegResponse, CreateAuthResponse, Enter;
    ResponsesKeepCeremony(env, d, device);
    ResponsesDecide(env, d, device);
    EnterOnly(CreateRegResponse(env, d, device.sni, device.attObj), RegResponseSent);
    EnterOnly(CreateAuthResponse(env, d, device.sni, device.assertion), AuthResponseSent);
  }

  lemma {:induction false} ResponsesDecide(env: Env, d: Ud, device: Device)
    ensures CreateRegResponse(env, d, device.sni, device.attObj).ret != Skipped
    ensures CreateAuthResponse(env, d, device.sni, device.assertion).ret != Skipped
  {
    hide BuildRet, ClientDataOf, ValidateRpId;
    BuildDecides();
  }

  predicate TookResponse(d: Rp, s: RpStep) {
    s.ret == Accepted ==> (d.state, s.rp.state) in {(RegRequestSent, RegSuccess), (AuthRequestSent, AuthSuccess)}
  }

  lemma {:induction false} ServerDecides(env: Env, d: Rp, db: Db, dbExists: bool, input: bytes)
    ensures TookResponse(d, ServerParse(env, d, db, dbExists, FIDOSSL_EXT_TYPE, Certificate, input))
  {
    hide ProcessRegResponse, ProcessAuthResponse, PacketType;
  }

  /** Every callback that does not fail takes the pair one point further on its course. */
  lemma {:induction false} StepOnCourse(env: Env, j: Joint, c: Ceremony, n: nat, a: Around)
    requires OnCourse(j, c, n)
    ensures Onward(Next(env, j, a), c, n + 1)
  {
    hide ClientAdd, ClientParse, ServerAdd, ServerParse, PacketType;
    match j.phase
    case ToOffer => ClientOffers(env, j.ud, a.device);
    case Offered(m) => ServerTakes(env, j.rp, a.db, a.dbExists, m);
    case ToRequest => ServerRequestsStates(env, j.rp, a.db, a.rnd);
    case Requested(m) => ClientTakes(env, j.ud, m);
    case ToRespond =>
      ClientResponds(env, j.ud, a.device);
      ClientResponds(env, ClientAdd(env, j.ud, FIDOSSL_EXT_TYPE, Certificate, a.device).ud, a.device);
    case Responded(m) => ServerDecides(env, j.rp, a.db, a.dbExists, m);
  }

  // ---------------------------------------------------------------- whole runs

  /**
    After any number of callbacks in order, none of which failed, the states of both sides are those of the course of
    their ceremony. So a run is at most 11 callbacks long, or 6 with a discoverable credential, and if it is that long,
    the server has succeeded.
   */
  lemma {:induction false} InOrderOnCourse(env: Env, j: Joint, c: Ceremony, around: seq<Around>)
    requires OnCourse(j, c, 0)
    ensures Onward(InOrder(env, j, around), c, |around|)
  {
    hide OnCourse, Next;
    if around != [] {
      var n := |around| - 1;
      InOrderOnCourse(env, j, c, around[..n]);
      var before := InOrder(env, j, around[..n]);
      if before.Some? {
        StepOnCourse(env, before.value, c, n, around[n]);
      }
    }
  }

  /** A callback that has no branch for the state it finds fails. */
  lemma {:induction false} UnhandledFails(env: Env, j: Joint, a: Around)
    requires !Handled(j)
    ensures Next(env, j, a).None?
  {
    hide CreateRegIndication, CreateAuthIndicationServerSide, CreateRegResponse, CreateAuthResponse, BuildRet, PacketType;
    hide ReceiveRegIndication, ReceiveAuthIndication, Parse;
  }

  lemma {:induction false} CourseIsHandled(j: Joint, c: Ceremony, n: nat)
    requires OnCourse(j, c, n) && n + 1 < |Course(c)|
    ensures Handled(j)
  {
    hide PacketType;
  }

  /** Until the outcome, no callback of a run in order finds a state that its switch has no branch for. */
  lemma {:induction false} NoInvalidState(env: Env, j: Joint, c: Ceremony, around: seq<Around>)
    requires OnCourse(j, c, 0) && |around| + 1 < |Course(c)|
    ensures HandledNext(InOrder(env, j, around))
  {
    hide OnCourse, Course, Handled, InOrder;
    InOrderOnCourse(env, j, c, around);
    var r := InOrder(env, j, around);
    if r.Some? {
      CourseIsHandled(r.value, c, |around|);
    }
  }

  // ---------------------------------------------------------------- calls that are none of the extension's business

  /** Other extensions are skipped by all four callbacks, and so are the two calls that a side has no use for. */
  lemma {:induction false} SkippedCalls(env: Env, d: Ud, r: Rp, db: Db, ext: int, context: Context, a: Around, input: bytes)
    ensures ext != 0x1234 ==>
              && ClientAdd(env, d, ext, context, a.device) == UdStep(d, Skipped)
              && ClientParse(env, d, ext, context, input) == UdStep(d, Skipped)
              && ServerAdd(env, r, db, ext, context, a.rnd) == RpStep(r, db, Skipped)
              && ServerParse(env, r, db, a.dbExists, ext, context, input) == RpStep(r, db, Skipped)
    ensures ClientParse(env, d, 0x1234, Certificate, input) == UdStep(d, Skipped)
    ensures ServerAdd(env, r, db, 0x1234, Certificate, a.rnd) == RpStep(r, db, Skipped)
  {
  }

  /** In any other TLS message the extension is an error that changes nothing. */
  lemma {:induction false} MisplacedCalls(env: Env, d: Ud, r: Rp, db: Db, context: Context, a: Around, input: bytes)
    ensures context !in {ClientHello, Certificate} ==> ClientAdd(env, d, 0x1234, context, a.device) == UdStep(d, Failed)
    ensures context !in {CertificateRequest, Certificate} ==> ClientParse(env, d, 0x1234, context, input) == UdStep(d, Failed)
    ensures context !in {CertificateRequest, Certificate} ==> ServerAdd(env, r, db, 0x1234, context, a.rnd) == RpStep(r, db, Failed)
    ensures context !in {ClientHello, Certificate} ==>
              ServerParse(env, r, db, a.dbExists, 0x1234, context, input) == RpStep(r, db, Failed)
  {
  }
}
