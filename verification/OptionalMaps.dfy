/**
  The maps of optional fields: reading a map applies its entries one after the other, and the order of
  distinct keys does not matter.
 */
module OptionalMaps {
  import opened Bytes
  import opened Cbor
  import opened Packets

  // ---------------------------------------------------------------- the entries of a map

  lemma {:induction false} CriterionItemsConcat(xs: seq<Criterion>, ys: seq<Criterion>)
    ensures CriterionItems(xs + ys) == CriterionItems(xs) + CriterionItems(ys)
  {
    if xs == [] {
      assert xs + ys == ys;
    } else {
      assert (xs + ys)[1..] == xs[1..] + ys;
      CriterionItemsConcat(xs[1..], ys);
    }
  }

  lemma {:induction false} RegOptItemsConcat(xs: seq<RegOpt>, ys: seq<RegOpt>)
    ensures RegOptItems(xs + ys) == RegOptItems(xs) + RegOptItems(ys)
  {
    if xs == [] {
      assert xs + ys == ys;
    } else {
      assert (xs + ys)[1..] == xs[1..] + ys;
      RegOptItemsConcat(xs[1..], ys);
    }
  }

  lemma {:induction false} AuthOptItemsConcat(xs: seq<AuthOpt>, ys: seq<AuthOpt>)
    ensures AuthOptItems(xs + ys) == AuthOptItems(xs) + AuthOptItems(ys)
  {
    if xs == [] {
      assert xs + ys == ys;
    } else {
      assert (xs + ys)[1..] == xs[1..] + ys;
      AuthOptItemsConcat(xs[1..], ys);
    }
  }

  lemma {:induction false} ExtensionItemsConcat(xs: seq<Extension>, ys: seq<Extension>)
    ensures ExtensionItems(xs + ys) == ExtensionItems(xs) + ExtensionItems(ys)
  {
    if xs == [] {
      assert xs + ys == ys;
    } else {
      assert (xs + ys)[1..] == xs[1..] + ys;
      ExtensionItemsConcat(xs[1..], ys);
    }
  }

  // ---------------------------------------------------------------- lists inside the maps

  predicate ExtensionsReadable(es: seq<Extension>) {
    forall e <- es :: 1 <= |e.id| <= 256 && 1 <= |e.data| <= 4096
  }

  lemma {:induction false} ReadExtensionAt(items: seq<Item>, k: nat, tail: bytes, e: Extension, n: nat, acc: seq<Extension>)
    requires k + 1 < |items| && items[k] == Text(e.id) && items[k + 1] == ByteStr(e.data) && n > 0
    requires 1 <= |e.id| <= 256 && 1 <= |e.data| <= 4096
    ensures ReadExtensionEntries(Before(items, k, tail), n, acc)
            == ReadExtensionEntries(Before(items, k + 2, tail), n - 1, acc + [e])
  {
    hide Before, ReadString, ReadUInt, ReadInt, EnterArray, EnterMap;
    ReadStringAt(items, k, tail, 3, e.id);
    ReadStringAt(items, k + 1, tail, 2, e.data);
  }

  lemma {:induction false} ReadExtensionEntriesAt(es: seq<Extension>, tail: bytes, acc: seq<Extension>)
    requires ExtensionsReadable(es)
    ensures ReadExtensionEntries(Before(ExtensionItems(es), 0, tail), |es|, acc) == Some((acc + es, Cur(tail, 0)))
    decreases |es|
  {
    hide Before, ReadString, ReadUInt, ReadInt, EnterArray, EnterMap;
    var items := ExtensionItems(es);
    if es == [] {
      BeforeEnd(items, tail);
      assert acc + es == acc;
    } else {
      assert es[0] in es;
      ReadExtensionAt(items, 0, tail, es[0], |es|, acc);
      BeforeSuffix(items, 2, tail, ExtensionItems(es[1..]));
      ReadExtensionEntriesAt(es[1..], tail, acc + [es[0]]);
      assert acc + [es[0]] + es[1..] == acc + es;
    }
  }

  /** An empty list of extensions is read as no list at all. */
  function ReadAs(es: seq<Extension>): Option<seq<Extension>> {
    if es == [] then None else Some(es)
  }

  lemma {:induction false} ReadExtensionsAt(items: seq<Item>, k: nat, tail: bytes, es: seq<Extension>)
    requires k < |items| && items[k] == Map(ExtensionItems(es)) && WellFormed(items[k]) && ExtensionsReadable(es)
    ensures ReadExtensions(Before(items, k, tail)) == Some((ReadAs(es), Before(items, k + 1, tail)))
  {
    hide Before, ReadString, ReadUInt, ReadInt, EnterArray, EnterMap;
    EnterMapAt(items, k, tail, ExtensionItems(es));
    ReadExtensionEntriesAt(es, Before(items, k + 1, tail).rest, []);
    assert [] + es == es;
  }

  predicate CriteriaReadable(cs: seq<Criterion>) {
    forall c <- cs :: KnownCriterion(c.key, c.value)
  }

  function ApplyCriteria(sel: AuthSel, cs: seq<Criterion>): AuthSel
    decreases |cs|
  {
    if cs == [] then sel else ApplyCriteria(ApplyCriterion(sel, cs[0]), cs[1..])
  }

  lemma {:induction false} ReadCriteriaAt(cs: seq<Criterion>, tail: bytes, sel: AuthSel)
    requires CriteriaReadable(cs)
    ensures ReadCriteria(Before(CriterionItems(cs), 0, tail), sel) == Some((ApplyCriteria(sel, cs), Cur(tail, 0)))
    decreases |cs|
  {
    hide Before, ReadString, ReadUInt, ReadInt, EnterArray, EnterMap;
    var items := CriterionItems(cs);
    if cs == [] {
      BeforeEnd(items, tail);
    } else {
      var c := cs[0];
      assert c in cs;
      ReadUIntAt(items, 0, tail, c.key);
      ReadUIntAt(items, 1, tail, c.value);
      BeforeSuffix(items, 2, tail, CriterionItems(cs[1..]));
      assert c == Criterion(c.key, c.value);
      ReadCriteriaAt(cs[1..], tail, ApplyCriterion(sel, c));
    }
  }

  lemma {:induction false} ApplyCriteriaConcat(sel: AuthSel, xs: seq<Criterion>, ys: seq<Criterion>)
    ensures ApplyCriteria(sel, xs + ys) == ApplyCriteria(ApplyCriteria(sel, xs), ys)
    decreases |xs|
  {
    if xs == [] {
      assert xs + ys == ys;
    } else {
      assert (xs + ys)[1..] == xs[1..] + ys;
      ApplyCriteriaConcat(ApplyCriterion(sel, xs[0]), xs[1..], ys);
    }
  }

  // ---------------------------------------------------------------- registration request

  predicate Known(o: RegOpt) {
    !o.Unknown?
  }

  /** An entry the parser accepts; an unknown key may carry any value that can be skipped. */
  predicate RegOptReadable(o: RegOpt) {
    match o
    case Timeout(ms) => true
    case Select(cs) => CriteriaReadable(cs)
    case Attest(preference) => 1 <= preference <= 4
    case Extend(es) => ExtensionsReadable(es)
    case Unknown(key, value) =>
      key !in {TIMEOUT, AUTH_SEL, ATTESTATION, EXTENSIONS} && Depth(value) <= MAX_NESTING
  }

  predicate RegOptsReadable(os: seq<RegOpt>) {
    forall o <- os :: RegOptReadable(o)
  }

  function ApplyRegOpt(p: RegRequest, o: RegOpt): RegRequest {
    match o
    case Timeout(ms) => p.(timeout := ms % TWO32)
    case Select(cs) => p.(sel := ApplyCriteria(p.sel, cs))
    case Attest(preference) => p.(attestation := preference)
    case Extend(es) => p.(extensions := ReadAs(es))
    case Unknown(_, _) => p
  }

  function ApplyRegOpts(p: RegRequest, os: seq<RegOpt>): RegRequest
    decreases |os|
  {
    if os == [] then p else ApplyRegOpts(ApplyRegOpt(p, os[0]), os[1..])
  }

  lemma {:induction false} ApplyRegOptsConcat(p: RegRequest, xs: seq<RegOpt>, ys: seq<RegOpt>)
    ensures ApplyRegOpts(p, xs + ys) == ApplyRegOpts(ApplyRegOpts(p, xs), ys)
    decreases |xs|
  {
    if xs == [] {
      assert xs + ys == ys;
    } else {
      assert (xs + ys)[1..] == xs[1..] + ys;
      ApplyRegOptsConcat(ApplyRegOpt(p, xs[0]), xs[1..], ys);
    }
  }

  /** Reading one entry applies it and goes on with the next. */
  lemma {:induction false} ReadRegOptAt(items: seq<Item>, k: nat, tail: bytes, o: RegOpt, p: RegRequest)
    requires k + 1 < |items| && items[k] == UInt(RegOptKey(o)) && items[k + 1] == RegOptValue(o)
    requires WellFormed(items[k]) && WellFormed(items[k + 1]) && RegOptReadable(o)
    ensures ReadRegOptions(Before(items, k, tail), p) == ReadRegOptions(Before(items, k + 2, tail), ApplyRegOpt(p, o))
  {
    hide Before, ReadString, ReadUInt, ReadInt, EnterArray, EnterMap;
    ReadUIntAt(items, k, tail, RegOptKey(o));
    match o
    case Timeout(ms) => ReadUIntAt(items, k + 1, tail, ms);
    case Select(cs) =>
      EnterMapAt(items, k + 1, tail, CriterionItems(cs));
      ReadCriteriaAt(cs, Before(items, k + 2, tail).rest, p.sel);
    case Attest(preference) => ReadUIntAt(items, k + 1, tail, preference);
    case Extend(es) => ReadExtensionsAt(items, k + 1, tail, es);
    case Unknown(_, _) => AdvanceAt(items, k + 1, tail);
  }

  lemma {:induction false} ReadRegOptionsAt(os: seq<RegOpt>, tail: bytes, p: RegRequest)
    requires AllWellFormed(RegOptItems(os)) && RegOptsReadable(os)
    ensures ReadRegOptions(Before(RegOptItems(os), 0, tail), p) == Some((ApplyRegOpts(p, os), Cur(tail, 0)))
    decreases |os|
  {
    hide Before, ReadString, ReadUInt, ReadInt, EnterArray, EnterMap;
    var items := RegOptItems(os);
    if os == [] {
      BeforeEnd(items, tail);
    } else {
      var rest := RegOptItems(os[1..]);
      assert os[0] in os;
      ReadRegOptAt(items, 0, tail, os[0], p);
      BeforeSuffix(items, 2, tail, rest);
      assert AllWellFormed(rest) by {
        assert forall k :: 0 <= k < |rest| ==> rest[k] == items[k + 2];
      }
      ReadRegOptionsAt(os[1..], tail, ApplyRegOpt(p, os[0]));
    }
  }

  /** No two known entries share a key. */
  predicate DistinctKnown(os: seq<RegOpt>) {
    forall i, j :: 0 <= i < j < |os| && Known(os[i]) && Known(os[j]) ==> RegOptKey(os[i]) != RegOptKey(os[j])
  }

  /** The known entry with key `key`, if there is one. */
  function Pick(os: seq<RegOpt>, key: nat): (r: Option<RegOpt>)
    ensures r.Some? ==> r.value in os && Known(r.value) && RegOptKey(r.value) == key
    ensures r.None? ==> forall o <- os :: Known(o) ==> RegOptKey(o) != key
  {
    if os == [] then None
    else if Known(os[0]) && RegOptKey(os[0]) == key then Some(os[0])
    else Pick(os[1..], key)
  }

  function ApplyPicked(p: RegRequest, o: Option<RegOpt>): RegRequest {
    if o.None? then p else ApplyRegOpt(p, o.value)
  }

  /** Applies the entries for the four known keys, in the order of the keys. */
  function ApplyByKey(p: RegRequest, os: seq<RegOpt>): RegRequest {
    ApplyPicked(ApplyPicked(ApplyPicked(ApplyPicked(p, Pick(os, TIMEOUT)), Pick(os, AUTH_SEL)),
                            Pick(os, ATTESTATION)), Pick(os, EXTENSIONS))
  }

  lemma {:induction false} ApplyInAnyOrder(p: RegRequest, os: seq<RegOpt>)
    requires DistinctKnown(os)
    ensures ApplyRegOpts(p, os) == ApplyByKey(p, os)
    decreases |os|
  {
    if os != [] {
      var o, rest := os[0], os[1..];
      assert forall i :: 0 <= i < |rest| ==> rest[i] == os[i + 1];
      ApplyInAnyOrder(ApplyRegOpt(p, o), rest);
      hide ApplyCriteria;
      if Known(o) {
        assert Pick(rest, RegOptKey(o)).None?;
      }
    }
  }

  lemma {:induction false} PickSame(xs: seq<RegOpt>, ys: seq<RegOpt>, key: nat)
    requires DistinctKnown(xs) && DistinctKnown(ys)
    requires forall o | Known(o) :: o in xs <==> o in ys
    ensures Pick(xs, key) == Pick(ys, key)
  {
  }

  /** The known entries decide the result: neither their order nor any unknown entry does. */
  lemma {:induction false} OrderIndependent(p: RegRequest, xs: seq<RegOpt>, ys: seq<RegOpt>)
    requires DistinctKnown(xs) && DistinctKnown(ys)
    requires forall o | Known(o) :: o in xs <==> o in ys
    ensures ApplyRegOpts(p, xs) == ApplyRegOpts(p, ys)
  {
    ApplyInAnyOrder(p, xs);
    ApplyInAnyOrder(p, ys);
    PickSame(xs, ys, TIMEOUT);
    PickSame(xs, ys, AUTH_SEL);
    PickSame(xs, ys, ATTESTATION);
    PickSame(xs, ys, EXTENSIONS);
  }

  /** The value a list of criteria gives to one key, if any. */
  function PickCriterion(cs: seq<Criterion>, key: nat): (r: Option<Criterion>)
    ensures r.Some? ==> r.value in cs && r.value.key == key
    ensures r.None? ==> forall c <- cs :: c.key != key
  {
    if cs == [] then None else if cs[0].key == key then Some(cs[0]) else PickCriterion(cs[1..], key)
  }

  predicate DistinctCriteria(cs: seq<Criterion>) {
    forall i, j :: 0 <= i < j < |cs| ==> cs[i].key != cs[j].key
  }

  function CriterionOr(c: Option<Criterion>, default: nat): nat {
    if c.Some? then c.value.value else default
  }

  lemma {:induction false} CriteriaByKey(sel: AuthSel, cs: seq<Criterion>)
    requires DistinctCriteria(cs) && CriteriaReadable(cs)
    ensures ApplyCriteria(sel, cs) ==
            AuthSel(CriterionOr(PickCriterion(cs, AUTH_ATTACH), sel.attachment),
                    CriterionOr(PickCriterion(cs, RESIDENT_KEY), sel.residentKey),
                    CriterionOr(PickCriterion(cs, USER_VERIFICATION), sel.userVerification))
    decreases |cs|
  {
    if cs != [] {
      assert cs[0] in cs;
      assert forall i :: 0 <= i < |cs[1..]| ==> cs[1..][i] == cs[i + 1];
      CriteriaByKey(ApplyCriterion(sel, cs[0]), cs[1..]);
      assert PickCriterion(cs[1..], cs[0].key).None?;
    }
  }

  /** The order of the selection criteria does not matter either. */
  lemma {:induction false} CriteriaOrderIndependent(sel: AuthSel, xs: seq<Criterion>, ys: seq<Criterion>)
    requires DistinctCriteria(xs) && DistinctCriteria(ys) && CriteriaReadable(xs) && CriteriaReadable(ys)
    requires forall c :: c in xs <==> c in ys
    ensures ApplyCriteria(sel, xs) == ApplyCriteria(sel, ys)
  {
    CriteriaByKey(sel, xs);
    CriteriaByKey(sel, ys);
    assert forall key :: PickCriterion(xs, key) == PickCriterion(ys, key);
  }

  // ---------------------------------------------------------------- authentication request

  predicate IsInt(i: int) {
    -INT_MAX - 1 <= i <= INT_MAX
  }

  predicate AuthOptReadable(o: AuthOpt) {
    match o
    case AuthTimeout(ms) => IsInt(ms)
    case AuthRpId(_) => true
    case AuthAllow(_) => true
    case AuthVerification(uv) => IsInt(uv)
    case AuthExtend(es) => ExtensionsReadable(es)
  }

  predicate AuthOptsReadable(os: seq<AuthOpt>) {
    forall o <- os :: AuthOptReadable(o)
  }

  function ApplyAuthOpt(p: AuthRequest, o: AuthOpt): AuthRequest {
    match o
    case AuthTimeout(ms) => p.(timeout := ms)
    case AuthRpId(rpId) => p.(rpId := Some(CStr(rpId)))
    case AuthAllow(encrypted) => p.(allow := if encrypted == [] then None else Some(encrypted))
    case AuthVerification(uv) => p.(userVerification := uv)
    case AuthExtend(es) => p.(extensions := ReadAs(es))
  }

  function ApplyAuthOpts(p: AuthRequest, os: seq<AuthOpt>): AuthRequest
    decreases |os|
  {
    if os == [] then p else ApplyAuthOpts(ApplyAuthOpt(p, os[0]), os[1..])
  }

  lemma {:induction false} ApplyAuthOptsConcat(p: AuthRequest, xs: seq<AuthOpt>, ys: seq<AuthOpt>)
    ensures ApplyAuthOpts(p, xs + ys) == ApplyAuthOpts(ApplyAuthOpts(p, xs), ys)
    decreases |xs|
  {
    if xs == [] {
      assert xs + ys == ys;
    } else {
      assert (xs + ys)[1..] == xs[1..] + ys;
      ApplyAuthOptsConcat(ApplyAuthOpt(p, xs[0]), xs[1..], ys);
    }
  }

  lemma {:induction false} ReadAuthOptAt(items: seq<Item>, k: nat, tail: bytes, o: AuthOpt, p: AuthRequest)
    requires k + 1 < |items| && items[k] == IntItem(AuthOptKey(o)) && items[k + 1] == AuthOptValue(o)
    requires WellFormed(items[k + 1]) && AuthOptReadable(o)
    ensures ReadAuthOptions(Before(items, k, tail), p) == ReadAuthOptions(Before(items, k + 2, tail), ApplyAuthOpt(p, o))
  {
    hide Before, ReadString, ReadUInt, ReadInt, EnterArray, EnterMap;
    ReadIntAt(items, k, tail, AuthOptKey(o));
    match o
    case AuthTimeout(ms) => ReadIntAt(items, k + 1, tail, ms);
    case AuthRpId(rpId) => ReadStringAt(items, k + 1, tail, 3, rpId);
    case AuthAllow(encrypted) => ReadStringAt(items, k + 1, tail, 2, encrypted);
    case AuthVerification(uv) => ReadIntAt(items, k + 1, tail, uv);
    case AuthExtend(es) => ReadExtensionsAt(items, k + 1, tail, es);
  }

  lemma {:induction false} ReadAuthOptionsAt(os: seq<AuthOpt>, tail: bytes, p: AuthRequest)
    requires AllWellFormed(AuthOptItems(os)) && AuthOptsReadable(os)
    ensures ReadAuthOptions(Before(AuthOptItems(os), 0, tail), p) == Some((ApplyAuthOpts(p, os), Cur(tail, 0)))
    decreases |os|
  {
    hide Before, ReadString, ReadUInt, ReadInt, EnterArray, EnterMap;
    var items := AuthOptItems(os);
    if os == [] {
      BeforeEnd(items, tail);
    } else {
      var rest := AuthOptItems(os[1..]);
      assert os[0] in os;
      ReadAuthOptAt(items, 0, tail, os[0], p);
      BeforeSuffix(items, 2, tail, rest);
      assert AllWellFormed(rest) by {
        assert forall k :: 0 <= k < |rest| ==> rest[k] == items[k + 2];
      }
      ReadAuthOptionsAt(os[1..], tail, ApplyAuthOpt(p, os[0]));
    }
  }

  predicate DistinctAuth(os: seq<AuthOpt>) {
    forall i, j :: 0 <= i < j < |os| ==> AuthOptKey(os[i]) != AuthOptKey(os[j])
  }

  function PickAuth(os: seq<AuthOpt>, key: int): (r: Option<AuthOpt>)
    ensures r.Some? ==> r.value in os && AuthOptKey(r.value) == key
    ensures r.None? ==> forall o <- os :: AuthOptKey(o) != key
  {
    if os == [] then None else if AuthOptKey(os[0]) == key then Some(os[0]) else PickAuth(os[1..], key)
  }

  /** Every field from the entry for its key. */
  function AuthByKey(p: AuthRequest, os: seq<AuthOpt>): AuthRequest {
    AuthRequest(
      p.challenge,
      match PickAuth(os, RPID) { case Some(AuthRpId(rpId)) => Some(CStr(rpId)) case _ => p.rpId },
      match PickAuth(os, USER_VERIFICATION_AUTH_REQ) { case Some(AuthVerification(uv)) => uv case _ => p.userVerification },
      match PickAuth(os, TIMEOUT) { case Some(AuthTimeout(ms)) => ms case _ => p.timeout },
      match PickAuth(os, ALLOW_CREDS) {
        case Some(AuthAllow(encrypted)) => if encrypted == [] then None else Some(encrypted)
        case _ => p.allow
      },
      match PickAuth(os, EXTENSIONS) { case Some(AuthExtend(es)) => ReadAs(es) case _ => p.extensions })
  }

  lemma {:induction false} AuthByKeyStep(p: AuthRequest, os: seq<AuthOpt>)
    requires DistinctAuth(os) && os != []
    ensures AuthByKey(ApplyAuthOpt(p, os[0]), os[1..]) == AuthByKey(p, os)
  {
    hide CStr;
    assert PickAuth(os[1..], AuthOptKey(os[0])).None? by {
      assert forall i :: 0 <= i < |os[1..]| ==> os[1..][i] == os[i + 1];
    }
    match os[0]
    case AuthTimeout(_) =>
    case AuthRpId(_) =>
    case AuthAllow(_) =>
    case AuthVerification(_) =>
    case AuthExtend(_) =>
  }

  lemma {:induction false} ApplyAuthInAnyOrder(p: AuthRequest, os: seq<AuthOpt>)
    requires DistinctAuth(os)
    ensures ApplyAuthOpts(p, os) == AuthByKey(p, os)
    decreases |os|
  {
    if os != [] {
      AuthByKeyStep(p, os);
      ApplyAuthInAnyOrder(ApplyAuthOpt(p, os[0]), os[1..]);
    }
  }

  lemma {:induction false} AuthOrderIndependent(p: AuthRequest, xs: seq<AuthOpt>, ys: seq<AuthOpt>)
    requires DistinctAuth(xs) && DistinctAuth(ys)
    requires forall o :: o in xs <==> o in ys
    ensures ApplyAuthOpts(p, xs) == ApplyAuthOpts(p, ys)
  {
    ApplyAuthInAnyOrder(p, xs);
    ApplyAuthInAnyOrder(p, ys);
    forall key | key in {TIMEOUT, RPID, ALLOW_CREDS, USER_VERIFICATION_AUTH_REQ, EXTENSIONS}
      ensures PickAuth(xs, key) == PickAuth(ys, key)
    {
    }
  }
}
