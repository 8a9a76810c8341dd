/** Every server context makes a bounded number of moves and reaches at most one outcome. */
module Progress {
  import opened Bytes
  import opened Packets
  import opened Environment
  import opened Store
  import opened AuthenticatorData
  import opened RelyingParty
  import opened ServerInvariants
  import opened Runs

  /** How far a server context has come; the order of the enumeration is not this order. */
  function Rank(s: State): nat {
    match s
    case Initial => 0
    case PreIndicationReceived => 1
    case PreResponseSent => 2
    case RegIndicationReceived => 3
    case AuthIndicationDiscoverableReceived => 3
    case AuthIndicationServerSideReceived => 3
    case RegRequestSent => 4
    case AuthRequestSent => 4
    case _ => 5
  }

  predicate Terminal(s: State) {
    s in {RegSuccess, RegFailure, AuthSuccess, AuthFailure}
  }

  lemma {:induction false} IndicationMoves(env: Env, d: Rp, db: Db, dbExists: bool, input: bytes)
    ensures var s := ProcessIndication(env, d, db, dbExists, input);
            && (s.rp.state == d.state || Rank(s.rp.state) > Rank(d.state))
            && (Terminal(d.state) ==> s == RpStep(d, db, Failed))
  {
    hide Parse, PacketType, OpenRegIndication, OpenAuthIndication;
  }

  /** A step goes up or stays, and a context that has its outcome ignores everything. */
  predicate Moved(d: Rp, db: Db, s: RpStep) {
    && (s.rp.state == d.state || Rank(s.rp.state) > Rank(d.state))
    && (Terminal(d.state) ==> s.rp == d && s.db == db && !Succeeded(s.ret))
  }

  lemma {:induction false} AddMoves(env: Env, d: Rp, db: Db, ext: int, context: Context, rnd: Random)
    ensures Moved(d, db, ServerAdd(env, d, db, ext, context, rnd))
  {
    RequestsStay(env, d, db, rnd);
    hide CreateRegRequest, CreateAuthRequest, BuildRet;
  }

  lemma {:induction false} ParseMoves(env: Env, d: Rp, db: Db, dbExists: bool, ext: int, context: Context, input: bytes)
    ensures Moved(d, db, ServerParse(env, d, db, dbExists, ext, context, input))
  {
    RegResponseStays(env, d, db, input);
    AuthResponseStays(env, d, db, input);
    IndicationMoves(env, d, db, dbExists, input);
    hide ProcessIndication, ProcessRegResponse, ProcessAuthResponse;
  }

  lemma {:induction false} PerformMoves(env: Env, d: Rp, db: Db, call: Call)
    ensures Moved(d, db, Perform(env, d, db, call))
  {
    match call
    case Adds(ext, context, rnd) =>
      AddMoves(env, d, db, ext, context, rnd);
      hide ServerAdd, Moved;
    case Parses(ext, context, input, dbExists) =>
      ParseMoves(env, d, db, dbExists, ext, context, input);
      hide ServerParse, Moved;
  }

  function StateOf(env: Env, w: World, es: seq<Event>, who: nat, i: nat): State
    requires i <= |es| && who < |w.rps|
  {
    At(env, w, es, i).rps[who].state
  }

  lemma {:induction false} StepMoves(env: Env, w: World, e: Event, who: nat)
    requires who < |w.rps|
    ensures var d, later := w.rps[who], Step(env, w, e).rps[who];
            && (later.state == d.state || Rank(later.state) > Rank(d.state))
            && (Terminal(d.state) ==> later == d)
  {
    hide Perform, Rank, Terminal;
    if Enabled(w, e) {
      PerformMoves(env, w.rps[e.who], w.db, e.call);
    }
  }

  /** How often a context changed its state among the first `i` events. */
  function Moves(env: Env, w: World, es: seq<Event>, who: nat, i: nat): nat
    requires i <= |es| && who < |w.rps|
  {
    if i == 0 then 0
    else Moves(env, w, es, who, i - 1) +
         if StateOf(env, w, es, who, i) != StateOf(env, w, es, who, i - 1) then 1 else 0
  }

  /** A context moves at most five times in any run, whatever is sent to it. */
  lemma {:induction false} BoundedMoves(env: Env, w: World, es: seq<Event>, who: nat, i: nat)
    requires i <= |es| && who < |w.rps|
    ensures Moves(env, w, es, who, i) <= Rank(StateOf(env, w, es, who, i)) <= 5
    decreases i
  {
    hide At, Step;
    if i > 0 {
      BoundedMoves(env, w, es, who, i - 1);
      AtNext(env, w, es, i - 1);
      StepMoves(env, At(env, w, es, i - 1), es[i - 1], who);
    }
  }

  /** A success or failure is final: nothing in the context changes any more. */
  lemma {:induction false} OutcomeIsFinal(env: Env, w: World, es: seq<Event>, who: nat, i: nat, j: nat)
    requires i <= j <= |es| && who < |w.rps| && Terminal(StateOf(env, w, es, who, i))
    ensures At(env, w, es, j).rps[who] == At(env, w, es, i).rps[who]
    decreases j
  {
    hide At, Step;
    if i < j {
      OutcomeIsFinal(env, w, es, who, i, j - 1);
      AtNext(env, w, es, j - 1);
      StepMoves(env, At(env, w, es, j - 1), es[j - 1], who);
    }
  }

  /** While a context stays in its state after a request was sent, nothing in it changes. */
  lemma {:induction false} WaitingIsStill(env: Env, w: World, e: Event, who: nat)
    requires who < |w.rps| && w.rps[who].state in {RegRequestSent, AuthRequestSent}
    requires Step(env, w, e).rps[who].state == w.rps[who].state
    requires Enabled(w, e) && e.who == who ==> Result(env, w, e).ret != Aborted
    ensures Step(env, w, e).rps[who] == w.rps[who]
  {
    if Enabled(w, e) && e.who == who {
      PerformWaits(env, w.rps[who], w.db, e.call);
    }
    hide Perform;
  }

  lemma {:induction false} PerformWaits(env: Env, d: Rp, db: Db, call: Call)
    requires d.state in {RegRequestSent, AuthRequestSent} && Perform(env, d, db, call).ret != Aborted
    ensures Perform(env, d, db, call).rp == d || Terminal(Perform(env, d, db, call).rp.state)
  {
    hide ProcessRegResponse, ProcessAuthResponse, Parse, PacketType;
  }
}
