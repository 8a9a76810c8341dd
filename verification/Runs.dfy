/** Whole runs: any number of server contexts over one store, driven by arbitrary callbacks in any order. */
module Runs {
  import opened Bytes
  import opened Cbor
  import opened Packets
  import opened Environment
  import opened Store
  import opened AuthenticatorData
  import opened Encoding
  import opened RelyingParty
  import opened ServerInvariants

  datatype Call =
    | Adds(ext: int, context: Context, rnd: Random)
    | Parses(ext: int, context: Context, input: bytes, dbExists: bool)

  /** A callback of context number `who`; the input may be anything. */
  datatype Event = Event(who: nat, call: Call)

  datatype World = World(db: Db, rps: seq<Rp>)

  function Perform(env: Env, d: Rp, db: Db, call: Call): RpStep {
    match call
    case Adds(ext, context, rnd) => ServerAdd(env, d, db, ext, context, rnd)
    case Parses(ext, context, input, dbExists) => ServerParse(env, d, db, dbExists, ext, context, input)
  }

  predicate Enabled(w: World, e: Event) {
    e.who < |w.rps|
  }

  function Result(env: Env, w: World, e: Event): RpStep
    requires Enabled(w, e)
  {
    Perform(env, w.rps[e.who], w.db, e.call)
  }

  function Step(env: Env, w: World, e: Event): (r: World)
    ensures |r.rps| == |w.rps|
  {
    if Enabled(w, e) then World(Result(env, w, e).db, w.rps[e.who := Result(env, w, e).rp]) else w
  }

  function After(env: Env, w: World, es: seq<Event>): (r: World)
    ensures |r.rps| == |w.rps|
  {
    if es == [] then w else Step(env, After(env, w, es[..|es| - 1]), es[|es| - 1])
  }

  /** The world before event number `i`. */
  function At(env: Env, w: World, es: seq<Event>, i: nat): (r: World)
    requires i <= |es|
    ensures |r.rps| == |w.rps|
  {
    After(env, w, es[..i])
  }

  lemma {:induction false} AtNext(env: Env, w: World, es: seq<Event>, i: nat)
    requires i < |es|
    ensures At(env, w, es, i + 1) == Step(env, At(env, w, es, i), es[i])
  {
    assert es[..i + 1][..i] == es[..i];
  }

  // ---------------------------------------------------------------- the invariant

  predicate FreshRp(d: Rp) {
    && d.state == Initial && d.ceremony == Undefined && d.challenge.None? && d.userId.None? && d.gcmKey.None?
    && d.allow == [] && d.dbOpen
  }

  predicate Start(w: World) {
    w.db == EMPTY && forall d <- w.rps :: FreshRp(d)
  }

  lemma {:induction false} InitIsFresh(opts: ServerOpts, kEp: bytes)
    requires InitRp(opts, kEp).Some?
    ensures FreshRp(InitRp(opts, kEp).value)
  {
    hide DecodeBase64;
  }

  predicate CallOk(c: Call) {
    c.Adds? ==> RandomLengths(c.rnd)
  }

  predicate CallsOk(es: seq<Event>) {
    forall e <- es :: CallOk(e.call)
  }

  ghost predicate Laws(env: Env) {
    HashLengths(env) && CipherLaws(env)
  }

  predicate WorldInv(w: World) {
    StoreInv(w.db) && forall k :: 0 <= k < |w.rps| ==> RpInv(w.rps[k], w.db)
  }

  lemma {:induction false} PerformKeeps(env: Env, d: Rp, db: Db, call: Call)
    requires Laws(env) && RpInv(d, db) && StoreInv(db) && CallOk(call)
    ensures Keeps(db, Perform(env, d, db, call))
  {
    match call
    case Adds(ext, context, rnd) => AddKeeps(env, d, db, ext, context, rnd);
    case Parses(ext, context, input, dbExists) => ParseKeeps(env, d, db, dbExists, ext, context, input);
  }

  lemma {:induction false} StepKeeps(env: Env, w: World, e: Event)
    requires Laws(env) && WorldInv(w) && CallOk(e.call)
    ensures WorldInv(Step(env, w, e)) && Extends(w.db, Step(env, w, e).db)
    ensures Enabled(w, e) ==> Result(env, w, e).ret != Aborted
  {
    hide Perform, RpInv, StoreInv, Extends, FreshRp;
    ExtendsItself(w.db);
    if Enabled(w, e) {
      PerformKeeps(env, w.rps[e.who], w.db, e.call);
      var later := Step(env, w, e);
      forall k | 0 <= k < |w.rps| ensures RpInv(later.rps[k], later.db) {
        if k != e.who {
          RpInvLater(w.rps[k], w.db, later.db);
        }
      }
    }
  }

  lemma {:induction false} StartInv(w: World)
    requires Start(w)
    ensures WorldInv(w)
  {
    forall k | 0 <= k < |w.rps| ensures RpInv(w.rps[k], w.db) {
      assert w.rps[k] in w.rps;
    }
  }

  /** Whatever is received, every reachable state has the data it needs, and no assertion ever fails. */
  lemma {:induction false} RunKeeps(env: Env, w: World, es: seq<Event>, i: nat)
    requires Laws(env) && Start(w) && CallsOk(es) && i <= |es|
    ensures WorldInv(At(env, w, es, i))
    ensures i < |es| && Enabled(At(env, w, es, i), es[i]) ==> Result(env, At(env, w, es, i), es[i]).ret != Aborted
    decreases i
  {
    hide WorldInv, Result, Laws, At;
    if i == 0 {
      assert At(env, w, es, 0) == w by { AtStart(env, w, es); }
      StartInv(w);
    } else {
      RunKeeps(env, w, es, i - 1);
      AtNext(env, w, es, i - 1);
      assert es[i - 1] in es;
      StepKeeps(env, At(env, w, es, i - 1), es[i - 1]);
    }
    if i < |es| {
      assert es[i] in es;
      StepKeeps(env, At(env, w, es, i), es[i]);
    }
  }

  lemma {:induction false} AtStart(env: Env, w: World, es: seq<Event>)
    ensures At(env, w, es, 0) == w
  {
  }

  /** Between any two moments rows are only appended; ids, owners, relying parties and keys never change. */
  lemma {:induction false} StoreOnlyGrows(env: Env, w: World, es: seq<Event>, i: nat, j: nat)
    requires Laws(env) && Start(w) && CallsOk(es) && i <= j <= |es|
    ensures DbInv(At(env, w, es, j).db) && Extends(At(env, w, es, i).db, At(env, w, es, j).db)
    decreases j
  {
    hide WorldInv, RpInv, Result, Laws, At, Extends, DbInv;
    RunKeeps(env, w, es, j);
    assert DbInv(At(env, w, es, j).db) by { WorldDbInv(At(env, w, es, j)); }
    if i == j {
      ExtendsItself(At(env, w, es, i).db);
    } else {
      StoreOnlyGrows(env, w, es, i, j - 1);
      RunKeeps(env, w, es, j - 1);
      AtNext(env, w, es, j - 1);
      assert es[j - 1] in es;
      StepKeeps(env, At(env, w, es, j - 1), es[j - 1]);
      ExtendsTransitive(At(env, w, es, i).db, At(env, w, es, j - 1).db, At(env, w, es, j).db);
    }
  }

  lemma {:induction false} WorldDbInv(w: World)
    requires WorldInv(w)
    ensures DbInv(w.db)
  {
  }
}
