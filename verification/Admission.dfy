/** Who is admitted to a ceremony: every registration showed the ticket, and every server-side login a stored name. */
module Admission {
  import opened Bytes
  import opened Cbor
  import opened Packets
  import opened Environment
  import opened Store
  import opened AuthenticatorData
  import opened RelyingParty
  import opened ServerInvariants
  import opened ServerDecisions
  import opened ServerRequests
  import opened Runs
  import opened Correspondence

  // ---------------------------------------------------------------- one step

  /** The input of a callback; nothing if a message is made. */
  function InputOf(call: Call): bytes {
    if call.Parses? then call.input else []
  }

  /** The call takes a context to the registration ceremony: its input shows the ticket. */
  ghost predicate AdmittedBy(env: Env, d: Rp, later: Rp, input: bytes) {
    d.state == PreResponseSent
    && exists eph, name :: ShowsTicket(env, d, input, eph, name) && later == Admitted(env, d, eph, name)
  }

  /** The call takes a context to the server-side ceremony: its input shows the name of a stored user. */
  ghost predicate RecognisedBy(env: Env, d: Rp, db: Db, later: Rp, input: bytes) {
    d.state == PreResponseSent
    && exists eph, userId :: ShowsName(env, d, db, input, eph, userId) && later == Recognised(env, d, eph, userId)
  }

  /** What identifies the user of a ceremony does not change. */
  predicate SameUser(d: Rp, later: Rp) {
    later.ceremony == d.ceremony && later.gcmKey == d.gcmKey && later.userName == d.userName && later.kEp == d.kEp
  }

  predicate Registering(d: Rp) {
    d.state in {RegIndicationReceived, RegRequestSent, RegSuccess}
  }

  predicate LoggingIn(d: Rp) {
    d.state in {AuthIndicationServerSideReceived, AuthRequestSent, AuthSuccess} && d.ceremony == AuthServerSide
  }

  lemma {:induction false} IndicationAdmits(env: Env, d: Rp, db: Db, dbExists: bool, input: bytes)
    requires HashLengths(env) && RpInv(d, db) && DbInv(db)
    ensures var later := ProcessIndication(env, d, db, dbExists, input).rp;
            && (Registering(later) ==> (Registering(d) && later == d) || AdmittedBy(env, d, later, input))
            && (LoggingIn(later) ==> (LoggingIn(d) && later == d) || RecognisedBy(env, d, db, later, input))
  {
    hide PacketType, Parse, ReceiveRegIndication, ReceiveAuthIndication, ShowsTicket, ShowsName, CStr, DbInv;
    IndicationExactly(env, d, db, input);
    NameExactly(env, d, db, input);
  }

  lemma {:induction false} RequestAdmits(env: Env, d: Rp, db: Db, ext: int, context: Context, rnd: Random)
    requires DbInv(db) && RpInv(d, db)
    ensures var later := ServerAdd(env, d, db, ext, context, rnd).rp;
            && (Registering(later) ==> Registering(d) && SameUser(d, later))
            && (LoggingIn(later) ==> LoggingIn(d) && SameUser(d, later) && later.userId == d.userId)
  {
    hide CreateRegRequest, CreateAuthRequest, CreatePreResponse, IdFor, RequestSays, AuthRequestContent, DbInv;
    RegRequestSays(env, d, db, rnd);
    AuthRequestSays(env, d, db, rnd);
    PreResponseKeeps(env, d, db, rnd);
  }

  lemma {:induction false} PreResponseKeeps(env: Env, d: Rp, db: Db, rnd: Random)
    ensures CreatePreResponse(env, d, db, rnd).rp == d.(ephLen := 256)
  {
  }

  lemma {:induction false} ResponseAdmits(env: Env, d: Rp, db: Db, input: bytes)
    ensures var later := ProcessRegResponse(env, d, db, input).rp; later.state == d.state && SameUser(d, later)
    ensures var later := ProcessAuthResponse(env, d, db, input).rp;
            later.state == d.state && SameUser(d, later) && later.userId == d.userId
  {
    hide Parse, VerifiedRegistration, AddCreds, VerifyClientData, ParseData, VerifyAuthData, ClaimedUser, CredentialOf;
  }

  lemma {:induction false} CallAdmits(env: Env, d: Rp, db: Db, call: Call)
    requires HashLengths(env) && RpInv(d, db) && DbInv(db)
    ensures var later := Perform(env, d, db, call).rp;
            && (Registering(later) ==> (Registering(d) && SameUser(d, later)) || AdmittedBy(env, d, later, InputOf(call)))
            && (LoggingIn(later) ==> (LoggingIn(d) && SameUser(d, later) && later.userId == d.userId)
                                     || RecognisedBy(env, d, db, later, InputOf(call)))
  {
    hide ProcessIndication, ProcessRegResponse, ProcessAuthResponse, ServerAdd, AdmittedBy, RecognisedBy, DbInv, HashLengths;
    match call
    case Adds(ext, context, rnd) => RequestAdmits(env, d, db, ext, context, rnd);
    case Parses(ext, context, input, dbExists) =>
      IndicationAdmits(env, d, db, dbExists, input);
      ResponseAdmits(env, d, db, input);
  }

  // ---------------------------------------------------------------- whole runs

  /** At event `m` this context took an indication that showed its ticket together with this name. */
  ghost predicate TicketShownAt(env: Env, w: World, es: seq<Event>, m: nat, who: nat, eph: bytes, name: bytes) {
    && m < |es| && who < |w.rps| && es[m].who == who
    && At(env, w, es, m).rps[who].state == PreResponseSent
    && ShowsTicket(env, At(env, w, es, m).rps[who], InputOf(es[m].call), eph, name)
    && At(env, w, es, m + 1).rps[who] == Admitted(env, At(env, w, es, m).rps[who], eph, name)
  }

  /** At event `m` this context took an indication that named the user with this id. */
  ghost predicate NameShownAt(env: Env, w: World, es: seq<Event>, m: nat, who: nat, eph: bytes, userId: bytes) {
    && m < |es| && who < |w.rps| && es[m].who == who
    && At(env, w, es, m).rps[who].state == PreResponseSent
    && ShowsName(env, At(env, w, es, m).rps[who], At(env, w, es, m).db, InputOf(es[m].call), eph, userId)
    && At(env, w, es, m + 1).rps[who] == Recognised(env, At(env, w, es, m).rps[who], eph, userId)
  }

  /** The key and the name of the context stem from that indication. */
  predicate StemsFrom(env: Env, d: Rp, eph: bytes, name: bytes) {
    d.gcmKey == Some(env.hmac(d.kEp, eph)) && d.userName == Some(CStr(name))
  }

  predicate IdentifiedBy(env: Env, d: Rp, eph: bytes, userId: bytes) {
    d.gcmKey == Some(env.hmac(d.kEp, eph)) && d.userId == Some(userId)
  }

  /** One context during one event: it takes part with a call of its own, or nothing happens to it. */
  lemma {:induction false} ContextStep(env: Env, w: World, es: seq<Event>, m: nat, who: nat)
    requires Laws(env) && Start(w) && CallsOk(es) && m < |es| && who < |w.rps|
    ensures var d, db, later := At(env, w, es, m).rps[who], At(env, w, es, m).db, At(env, w, es, m + 1).rps[who];
            && (Registering(later) ==> (Registering(d) && SameUser(d, later))
                                       || (es[m].who == who && AdmittedBy(env, d, later, InputOf(es[m].call))))
            && (LoggingIn(later) ==> (LoggingIn(d) && SameUser(d, later) && later.userId == d.userId)
                                     || (es[m].who == who && RecognisedBy(env, d, db, later, InputOf(es[m].call))))
  {
    hide At, Perform, Laws, RpInv, StoreInv, Start, CallsOk, AdmittedBy, RecognisedBy, Registering, LoggingIn;
    var before, e := At(env, w, es, m), es[m];
    AtNext(env, w, es, m);
    RunKeeps(env, w, es, m);
    ContextsKeep(before, who);
    WorldDbInv(before);
    LawsHash(env);
    if Enabled(before, e) && e.who == who {
      CallAdmits(env, before.rps[who], before.db, e.call);
    }
  }

  lemma {:induction false} LawsHash(env: Env)
    requires Laws(env)
    ensures HashLengths(env)
  {
  }

  /**
    Every context that registers, and so every one that has registered a credential, was shown its ticket before, and its
    key and user name are those of that indication.
   */
  lemma {:induction false} RegistrationNeedsTicket(env: Env, w: World, es: seq<Event>, i: nat, who: nat)
    requires Laws(env) && Start(w) && CallsOk(es) && i <= |es| && who < |w.rps| && Registering(At(env, w, es, i).rps[who])
    ensures exists m: nat, eph, name :: m < i && TicketShownAt(env, w, es, m, who, eph, name)
                                        && StemsFrom(env, At(env, w, es, i).rps[who], eph, name)
    decreases i
  {
    hide At, Perform, Laws, Start, CallsOk, ShowsTicket, LoggingIn, RecognisedBy, CStr;
    if i == 0 {
      AtStart(env, w, es);
      StartsInitial(w, who);
      assert false;
    } else {
      ContextStep(env, w, es, i - 1, who);
      var d := At(env, w, es, i - 1).rps[who];
      if Registering(d) && SameUser(d, At(env, w, es, i).rps[who]) {
        RegistrationNeedsTicket(env, w, es, i - 1, who);
      } else {
        var eph, name :| ShowsTicket(env, d, InputOf(es[i - 1].call), eph, name)
                         && At(env, w, es, i).rps[who] == Admitted(env, d, eph, name);
        assert TicketShownAt(env, w, es, i - 1, who, eph, name);
      }
    }
  }

  /** Every context in the server-side ceremony was shown the name of the user with its id, under its key. */
  lemma {:induction false} LoginNeedsName(env: Env, w: World, es: seq<Event>, i: nat, who: nat)
    requires Laws(env) && Start(w) && CallsOk(es) && i <= |es| && who < |w.rps| && LoggingIn(At(env, w, es, i).rps[who])
    ensures exists m: nat, eph, userId :: m < i && NameShownAt(env, w, es, m, who, eph, userId)
                                          && IdentifiedBy(env, At(env, w, es, i).rps[who], eph, userId)
    decreases i
  {
    hide At, Perform, Laws, Start, CallsOk, ShowsName, Registering, AdmittedBy;
    if i == 0 {
      AtStart(env, w, es);
      StartsInitial(w, who);
      assert false;
    } else {
      ContextStep(env, w, es, i - 1, who);
      var d, db := At(env, w, es, i - 1).rps[who], At(env, w, es, i - 1).db;
      if LoggingIn(d) && SameUser(d, At(env, w, es, i).rps[who]) && At(env, w, es, i).rps[who].userId == d.userId {
        LoginNeedsName(env, w, es, i - 1, who);
      } else {
        var eph, userId :| ShowsName(env, d, db, InputOf(es[i - 1].call), eph, userId)
                           && At(env, w, es, i).rps[who] == Recognised(env, d, eph, userId);
        assert NameShownAt(env, w, es, i - 1, who, eph, userId);
      }
    }
  }
}
