/** Facts about the bytes on the wire: the order of optional fields, exact sizes and which messages fit. */
module WireFormat {
  import opened Bytes
  import opened Cbor
  import opened Packets
  import opened OptionalMaps
  import opened RoundTrip

  // ---------------------------------------------------------------- order of optional fields

  /** Keys and values that a 64-bit encoding can hold. */
  predicate RegOptsEncodable(os: seq<RegOpt>) {
    && RegOptsReadable(os)
    && (forall o <- os :: o.Timeout? ==> o.ms < TWO64)
    && (forall o <- os :: o.Unknown? ==> o.key < TWO64 && IntsFit(o.value))
  }

  /** A registration request whose optional map holds the entries `os`. */
  function RegRequestBytes(p: RegRequest, os: seq<RegOpt>): bytes {
    Encode(Array(RegRequestWith(p, os)))
  }

  lemma {:induction false} ParamIntsFit(ps: seq<CredParam>)
    requires forall p <- ps :: ParamReadable(p)
    ensures IntsFit(Array(ParamItems(ps)))
  {
    forall k | 0 <= k < |ps| ensures IntsFit(ParamItems(ps)[k]) {
      assert ParamReadable(ps[k]);
      assert AllIntsFit([UInt(ps[k].kind), IntItem(ps[k].alg)]);
    }
  }

  lemma {:induction false} ParseRegRequestBytes(p: RegRequest, os: seq<RegOpt>)
    requires RegRequestLimits(p) && RegOptsEncodable(os) && |RegRequestBytes(p, os)| < TWO64
    ensures Parse(RegRequestBytes(p, os), PKT_REG_REQUEST) == Some(RegRequestPkt(ApplyRegOpts(DefaultsOf(p), os)))
  {
    hide Before, ReadRegRequest, EnterArray, ReadInt;
    var items := RegRequestWith(p, os);
    ParamIntsFit(p.params);
    RegOptIntsFit(os);
    ShortAreWellFormed(items);
    EnterRootAt(items);
    ReadIntAt(items, 0, [], PKT_REG_REQUEST);
    ReadRegRequestAt(p, os);
  }

  /**
    Two registration requests that carry the same known optional fields are parsed to the same packet,
    whatever the order of the fields and whatever unknown keys stand between them.
   */
  lemma {:induction false} RegRequestAnyOrder(p: RegRequest, xs: seq<RegOpt>, ys: seq<RegOpt>)
    requires RegRequestLimits(p) && RegOptsEncodable(xs) && RegOptsEncodable(ys)
    requires |RegRequestBytes(p, xs)| < TWO64 && |RegRequestBytes(p, ys)| < TWO64
    requires DistinctKnown(xs) && DistinctKnown(ys) && forall o | Known(o) :: o in xs <==> o in ys
    ensures Parse(RegRequestBytes(p, xs), PKT_REG_REQUEST) == Parse(RegRequestBytes(p, ys), PKT_REG_REQUEST)
    ensures Parse(RegRequestBytes(p, xs), PKT_REG_REQUEST).Some?
  {
    ParseRegRequestBytes(p, xs);
    ParseRegRequestBytes(p, ys);
    OrderIndependent(DefaultsOf(p), xs, ys);
  }

  lemma {:induction false} ApplyReordered(p: RegRequest, os: seq<RegOpt>, k: nat, xs: seq<Criterion>, ys: seq<Criterion>)
    requires k < |os| && os[k] == Select(xs) && CriteriaReadable(xs) && CriteriaReadable(ys)
    requires DistinctCriteria(xs) && DistinctCriteria(ys) && forall c :: c in xs <==> c in ys
    ensures ApplyRegOpts(p, os) == ApplyRegOpts(p, os[k := Select(ys)])
  {
    var os' := os[k := Select(ys)];
    CriteriaOrderIndependent(ApplyRegOpts(p, os[..k]).sel, xs, ys);
    assert os == os[..k] + os[k..] && os' == os[..k] + os'[k..] && os[k..][1..] == os'[k..][1..];
    ApplyRegOptsConcat(p, os[..k], os[k..]);
    ApplyRegOptsConcat(p, os[..k], os'[k..]);
  }

  /** Reordering the criteria inside one authenticator selection changes nothing either. */
  lemma {:induction false} RegRequestCriteriaAnyOrder(p: RegRequest, os: seq<RegOpt>, k: nat, xs: seq<Criterion>, ys: seq<Criterion>)
    requires RegRequestLimits(p) && RegOptsEncodable(os) && k < |os| && os[k] == Select(xs)
    requires DistinctCriteria(xs) && DistinctCriteria(ys) && CriteriaReadable(ys) && forall c :: c in xs <==> c in ys
    requires |RegRequestBytes(p, os)| < TWO64 && |RegRequestBytes(p, os[k := Select(ys)])| < TWO64
    ensures Parse(RegRequestBytes(p, os), PKT_REG_REQUEST)
            == Parse(RegRequestBytes(p, os[k := Select(ys)]), PKT_REG_REQUEST)
  {
    assert RegOptReadable(os[k]);
    var os' := os[k := Select(ys)];
    ParseRegRequestBytes(p, os);
    assert RegOptsEncodable(os') by {
      assert forall o <- os' :: o in os || o == Select(ys);
    }
    ParseRegRequestBytes(p, os');
    ApplyReordered(DefaultsOf(p), os, k, xs, ys);
  }

  function AuthRequestBytes(challenge: bytes, os: seq<AuthOpt>): bytes {
    Encode(Array(AuthRequestWith(challenge, os)))
  }

  lemma {:induction false} ParseAuthRequestBytes(challenge: bytes, os: seq<AuthOpt>)
    requires AuthOptsReadable(os) && |AuthRequestBytes(challenge, os)| < TWO64
    ensures Parse(AuthRequestBytes(challenge, os), PKT_AUTH_REQUEST)
            == Some(AuthRequestPkt(ApplyAuthOpts(EmptyAuthRequest(challenge), os)))
  {
    hide Before, ReadAuthRequest, EnterArray, ReadInt;
    var items := AuthRequestWith(challenge, os);
    AuthOptIntsFit(os);
    assert IntsFit(Map(AuthOptItems(os)));
    ShortAreWellFormed(items);
    EnterRootAt(items);
    ReadIntAt(items, 0, [], PKT_AUTH_REQUEST);
    ReadAuthRequestAt(challenge, os);
  }

  lemma {:induction false} AuthRequestAnyOrder(challenge: bytes, xs: seq<AuthOpt>, ys: seq<AuthOpt>)
    requires AuthOptsReadable(xs) && AuthOptsReadable(ys)
    requires |AuthRequestBytes(challenge, xs)| < TWO64 && |AuthRequestBytes(challenge, ys)| < TWO64
    requires DistinctAuth(xs) && DistinctAuth(ys) && forall o :: o in xs <==> o in ys
    ensures Parse(AuthRequestBytes(challenge, xs), PKT_AUTH_REQUEST)
            == Parse(AuthRequestBytes(challenge, ys), PKT_AUTH_REQUEST)
    ensures Parse(AuthRequestBytes(challenge, xs), PKT_AUTH_REQUEST).Some?
  {
    ParseAuthRequestBytes(challenge, xs);
    ParseAuthRequestBytes(challenge, ys);
    AuthOrderIndependent(EmptyAuthRequest(challenge), xs, ys);
  }

  // ---------------------------------------------------------------- unknown keys in an authentication request

  predicate UnknownAuthKey(key: int) {
    IsInt(key) && key !in {TIMEOUT, RPID, ALLOW_CREDS, USER_VERIFICATION_AUTH_REQ, EXTENSIONS}
  }

  /** A value that is read as one more unknown key. */
  predicate ReadsAsUnknownKey(value: Item) {
    || (value.UInt? && UnknownAuthKey(value.n))
    || (value.NInt? && UnknownAuthKey(-1 - value.n))
  }

  /** The optional map of an authentication request with an unknown key and its value in front of the other entries. */
  function WithUnknownKey(key: int, value: Item, os: seq<AuthOpt>): (r: seq<Item>)
    ensures |r| == 2 + 2 * |os| && r[0] == IntItem(key) && r[1] == value && r[2..] == AuthOptItems(os)
  {
    [IntItem(key), value] + AuthOptItems(os)
  }

  lemma {:induction false} ReadNoInt(items: seq<Item>, k: nat, tail: bytes)
    requires k < |items| && WellFormed(items[k]) && !ReadsAsUnknownKey(items[k])
    ensures var r := ReadInt(Before(items, k, tail));
            r.Some? ==> !UnknownAuthKey(r.value.0) && IsInt(r.value.0) && r.value.1 == Before(items, k + 1, tail)
  {
    hide ReadHead, EncodeHead, Before, EncodeAll;
    BeforeHead(items, k, tail);
    var after := Before(items, k + 1, tail).rest;
    match items[k]
    case UInt(n) => HeadRoundTrip(0, n, after);
    case NInt(n) => HeadRoundTrip(1, n, after);
    case ByteStr(b) =>
      HeadRoundTrip(2, |b|, b + after);
      assert EncodeHead(2, |b|) + b + after == EncodeHead(2, |b|) + (b + after);
    case Text(t) =>
      HeadRoundTrip(3, |t|, t + after);
      assert EncodeHead(3, |t|) + t + after == EncodeHead(3, |t|) + (t + after);
    case Array(xs) =>
      HeadRoundTrip(4, |xs|, EncodeAll(xs) + after);
      assert EncodeHead(4, |xs|) + EncodeAll(xs) + after == EncodeHead(4, |xs|) + (EncodeAll(xs) + after);
    case Map(xs) =>
      HeadRoundTrip(5, |xs| / 2, EncodeAll(xs) + after);
      assert EncodeHead(5, |xs| / 2) + EncodeAll(xs) + after == EncodeHead(5, |xs| / 2) + (EncodeAll(xs) + after);
  }

  /** At the end of a map there is no value left to read. */
  lemma {:induction false} NothingAtTheEnd(c: Cur, key: int, p: AuthRequest, d: Cur)
    requires ReadInt(c) == Some((key, d)) && d.left == 0 && !UnknownAuthKey(key) && IsInt(key)
    ensures ReadAuthOptions(c, p) == None
  {
    assert PeekHead(d) == None;
  }

  /** The reader goes on with the item behind an unknown key, not with the one behind its value. */
  lemma {:induction false} UnknownKeyStep(items: seq<Item>, k: nat, tail: bytes, key: int, p: AuthRequest)
    requires k < |items| && items[k] == IntItem(key) && UnknownAuthKey(key)
    ensures ReadAuthOptions(Before(items, k, tail), p) == ReadAuthOptions(Before(items, k + 1, tail), p)
  {
    hide Before, ReadInt;
    ReadIntAt(items, k, tail, key);
  }

  lemma {:induction false} UnknownKeyIsPassed(key: int, value: Item, os: seq<AuthOpt>, p: AuthRequest)
    requires UnknownAuthKey(key) && ReadsAsUnknownKey(value) && AuthOptsReadable(os) && AllWellFormed(AuthOptItems(os))
    ensures ReadAuthOptions(Before(WithUnknownKey(key, value, os), 0, []), p) == Some((ApplyAuthOpts(p, os), Cur([], 0)))
  {
    var entries := WithUnknownKey(key, value, os);
    hide Before, ReadAuthOptions, WithUnknownKey;
    UnknownKeyStep(entries, 0, [], key, p);
    UnknownKeyStep(entries, 1, [], if value.UInt? then value.n else -1 - value.n, p);
    BeforeSuffix(entries, 2, [], AuthOptItems(os));
    ReadAuthOptionsAt(os, [], p);
  }

  lemma {:induction false} UnknownKeyIsNotPassed(key: int, value: Item, p: AuthRequest)
    requires UnknownAuthKey(key) && WellFormed(value) && !ReadsAsUnknownKey(value)
    ensures ReadAuthOptions(Before(WithUnknownKey(key, value, []), 0, []), p) == None
  {
    var entries := WithUnknownKey(key, value, []);
    hide Before, ReadInt, WithUnknownKey;
    UnknownKeyStep(entries, 0, [], key, p);
    ReadNoInt(entries, 1, []);
    var r := ReadInt(Before(entries, 1, []));
    if r.Some? {
      NothingAtTheEnd(Before(entries, 1, []), r.value.0, p, r.value.1);
    }
  }

  /**
    The value of an unknown key is not skipped but read as the next key. So an unknown key is ignored, whatever other
    fields follow it, exactly when its value is an integer that is no known key either.
   */
  lemma {:induction false} UnknownKeyIgnoredExactly(key: int, value: Item, p: AuthRequest)
    requires UnknownAuthKey(key) && WellFormed(value)
    ensures ReadsAsUnknownKey(value) <==>
            forall os: seq<AuthOpt> | AuthOptsReadable(os) && AllWellFormed(AuthOptItems(os)) ::
              ReadAuthOptions(Before(WithUnknownKey(key, value, os), 0, []), p) == Some((ApplyAuthOpts(p, os), Cur([], 0)))
  {
    hide ReadAuthOptions, Before;
    if ReadsAsUnknownKey(value) {
      forall os: seq<AuthOpt> | AuthOptsReadable(os) && AllWellFormed(AuthOptItems(os))
        ensures ReadAuthOptions(Before(WithUnknownKey(key, value, os), 0, []), p) == Some((ApplyAuthOpts(p, os), Cur([], 0)))
      {
        UnknownKeyIsPassed(key, value, os, p);
      }
    } else {
      UnknownKeyIsNotPassed(key, value, p);
      var os: seq<AuthOpt> := [];
      assert AuthOptsReadable(os) && AllWellFormed(AuthOptItems(os));
    }
  }

  // ---------------------------------------------------------------- exact sizes

  /** Encoded length of a string of `n` bytes. */
  function StrLen(n: nat): nat {
    HeadLen(n) + n
  }

  /** Encoded length of an integer written by `cbor_encode_int`. */
  function IntLen(i: int): nat {
    HeadLen(if i >= 0 then i else -1 - i)
  }

  function SumParams(ps: seq<CredParam>): nat {
    if ps == [] then 0 else 1 + HeadLen(ps[0].kind) + IntLen(ps[0].alg) + SumParams(ps[1..])
  }

  function SumDescriptors(ds: seq<Descriptor>): nat {
    if ds == [] then 0 else 1 + HeadLen(ds[0].kind) + StrLen(|ds[0].id|) + SumDescriptors(ds[1..])
  }

  function SumExtensions(es: seq<Extension>): nat {
    if es == [] then 0 else StrLen(|es[0].id|) + StrLen(|es[0].data|) + SumExtensions(es[1..])
  }

  function CriterionLen(value: nat): nat {
    if value == 0 then 0 else 1 + HeadLen(value)
  }

  function SelLen(sel: AuthSel): nat {
    if sel == AuthSel(0, 0, 0) then 0 else
      2 + CriterionLen(sel.attachment) + CriterionLen(sel.residentKey) + CriterionLen(sel.userVerification)
  }

  function ExtensionsLen(es: Option<seq<Extension>>): nat {
    if es.None? then 0 else 1 + HeadLen(|es.value|) + SumExtensions(es.value)
  }

  function RegOptionsLen(p: RegRequest): nat {
    (if p.timeout != 0 then 1 + HeadLen(p.timeout) else 0) + SelLen(p.sel) +
    (if p.attestation != 0 then 1 + HeadLen(p.attestation) else 0) + ExtensionsLen(p.extensions)
  }

  function AuthOptionsLen(p: AuthRequest): nat {
    (if p.timeout != 0 then 1 + IntLen(p.timeout) else 0) +
    (if p.rpId.Some? then 1 + StrLen(|p.rpId.value|) else 0) +
    (if p.allow.Some? then 1 + StrLen(|p.allow.value|) else 0) +
    (if p.userVerification != 0 then 1 + IntLen(p.userVerification) else 0) + ExtensionsLen(p.extensions)
  }

  function ResponseOptsLen(p: AuthResponse): nat {
    (if p.userHandle != [] then 1 + StrLen(|p.userHandle|) else 0) + (if p.credId != [] then 1 + StrLen(|p.credId|) else 0)
  }

  function OptMapLen(entries: nat): nat {
    if entries == 0 then 0 else 1 + entries
  }

  /** The length of every message, from the lengths of its fields. */
  function WireLen(p: Packet): nat {
    match p
    case PreIndication => 2
    case PreResponse(eph, key) => 2 + StrLen(|eph|) + StrLen(|key|)
    case RegIndication(eph, encrypted) => 2 + StrLen(|eph|) + StrLen(|encrypted|)
    case RegRequestPkt(reg) =>
      2 + StrLen(|reg.rpId|) + StrLen(|reg.rpName|) + StrLen(|reg.challenge|) +
      HeadLen(|reg.params|) + SumParams(reg.params) + StrLen(|reg.encrypted|) + OptMapLen(RegOptionsLen(reg))
    case RegResponse(attObj, clientData) => 2 + StrLen(|attObj|) + StrLen(|clientData|)
    case AuthIndicationDiscoverable => 2
    case AuthIndicationServerSide(eph, encrypted) => 2 + StrLen(|eph|) + StrLen(|encrypted|)
    case AuthRequestPkt(req) => 2 + StrLen(|req.challenge|) + OptMapLen(AuthOptionsLen(req))
    case AuthResponsePkt(resp) =>
      2 + StrLen(|resp.clientData|) + StrLen(|resp.authData|) + StrLen(|resp.signature|) +
      OptMapLen(ResponseOptsLen(resp))
  }

  lemma {:induction false} LenCons(x: Item, xs: seq<Item>)
    ensures |EncodeAll([x] + xs)| == |Encode(x)| + |EncodeAll(xs)|
  {
    assert ([x] + xs)[1..] == xs;
  }

  lemma {:induction false} LenConcat(xs: seq<Item>, ys: seq<Item>)
    ensures |EncodeAll(xs + ys)| == |EncodeAll(xs)| + |EncodeAll(ys)|
  {
    EncodeAllConcat(xs, ys);
  }

  lemma {:induction false} LenOne(x: Item)
    ensures |EncodeAll([x])| == |Encode(x)|
  {
    LenCons(x, []);
    assert [x] + [] == [x];
  }

  lemma {:induction false} LenPair(x: Item, y: Item)
    ensures |EncodeAll([x, y])| == |Encode(x)| + |Encode(y)|
  {
    LenOne(y);
    LenCons(x, [y]);
    assert [x] + [y] == [x, y];
  }

  lemma {:induction false} ParamsLength(ps: seq<CredParam>)
    ensures |EncodeAll(ParamItems(ps))| == SumParams(ps)
  {
    if ps != [] {
      var p := ps[0];
      LenPair(UInt(p.kind), IntItem(p.alg));
      assert |Encode(ParamItem(p))| == 1 + HeadLen(p.kind) + IntLen(p.alg);
      assert ParamItems(ps) == [ParamItem(p)] + ParamItems(ps[1..]);
      LenCons(ParamItem(p), ParamItems(ps[1..]));
      ParamsLength(ps[1..]);
    }
  }

  lemma {:induction false} DescriptorsLength(ds: seq<Descriptor>)
    ensures |EncodeAll(DescriptorItems(ds))| == SumDescriptors(ds)
  {
    if ds != [] {
      var d := ds[0];
      LenPair(UInt(d.kind), ByteStr(d.id));
      assert |Encode(DescriptorItem(d))| == 1 + HeadLen(d.kind) + StrLen(|d.id|);
      assert DescriptorItems(ds) == [DescriptorItem(d)] + DescriptorItems(ds[1..]);
      LenCons(DescriptorItem(d), DescriptorItems(ds[1..]));
      DescriptorsLength(ds[1..]);
    }
  }

  lemma {:induction false} ExtensionsLength(es: seq<Extension>)
    ensures |EncodeAll(ExtensionItems(es))| == SumExtensions(es)
    ensures |Encode(Map(ExtensionItems(es)))| == HeadLen(|es|) + SumExtensions(es)
  {
    if es != [] {
      LenPair(Text(es[0].id), ByteStr(es[0].data));
      LenConcat([Text(es[0].id), ByteStr(es[0].data)], ExtensionItems(es[1..]));
      ExtensionsLength(es[1..]);
    }
  }

  lemma {:induction false} CriteriaLength(sel: AuthSel)
    requires sel != AuthSel(0, 0, 0)
    ensures SetCriteria(sel) != [] && |Encode(Map(CriterionItems(SetCriteria(sel))))| + 1 == SelLen(sel)
  {
    var a := OneCriterion(AUTH_ATTACH, sel.attachment);
    var r := OneCriterion(RESIDENT_KEY, sel.residentKey);
    var u := OneCriterion(USER_VERIFICATION, sel.userVerification);
    CriterionsLength(a, sel.attachment);
    CriterionsLength(r, sel.residentKey);
    CriterionsLength(u, sel.userVerification);
    CriterionItemsConcat(a, r);
    CriterionItemsConcat(a + r, u);
    LenConcat(CriterionItems(a), CriterionItems(r));
    LenConcat(CriterionItems(a + r), CriterionItems(u));
  }

  lemma {:induction false} CriterionsLength(cs: seq<Criterion>, value: nat)
    requires if value == 0 then cs == [] else |cs| == 1 && cs[0].key < 24 && cs[0].value == value
    ensures |EncodeAll(CriterionItems(cs))| == CriterionLen(value)
  {
    if value != 0 {
      LenPair(UInt(cs[0].key), UInt(value));
      assert CriterionItems(cs) == [UInt(cs[0].key), UInt(value)];
    }
  }

  lemma {:induction false} RegOptsLenConcat(xs: seq<RegOpt>, ys: seq<RegOpt>)
    ensures |EncodeAll(RegOptItems(xs + ys))| == |EncodeAll(RegOptItems(xs))| + |EncodeAll(RegOptItems(ys))|
  {
    RegOptItemsConcat(xs, ys);
    LenConcat(RegOptItems(xs), RegOptItems(ys));
  }

  lemma {:induction false} RegOptsLenOne(os: seq<RegOpt>)
    requires |os| <= 1
    ensures |EncodeAll(RegOptItems(os))| ==
            if os == [] then 0 else HeadLen(RegOptKey(os[0])) + |Encode(RegOptValue(os[0]))|
  {
    if os != [] {
      LenPair(UInt(RegOptKey(os[0])), RegOptValue(os[0]));
      assert RegOptItems(os) == [UInt(RegOptKey(os[0])), RegOptValue(os[0])];
    }
  }

  lemma {:induction false} NumberOptLengths(p: RegRequest)
    ensures |EncodeAll(RegOptItems(TimeoutOpt(p)))| == (if p.timeout != 0 then 1 + HeadLen(p.timeout) else 0)
    ensures |EncodeAll(RegOptItems(AttestOpt(p)))| == (if p.attestation != 0 then 1 + HeadLen(p.attestation) else 0)
  {
    hide EncodeAll, RegOptItems;
    RegOptsLenOne(TimeoutOpt(p));
    RegOptsLenOne(AttestOpt(p));
  }

  lemma {:induction false} MapOptLengths(p: RegRequest)
    ensures |EncodeAll(RegOptItems(SelectOpt(p)))| == SelLen(p.sel)
    ensures |EncodeAll(RegOptItems(ExtendOpt(p)))| == ExtensionsLen(p.extensions)
  {
    assert p.sel == AuthSel(0, 0, 0) ==> SetCriteria(p.sel) == [];
    hide EncodeAll, RegOptItems, Encode, SetCriteria;
    RegOptsLenOne(SelectOpt(p));
    RegOptsLenOne(ExtendOpt(p));
    if p.sel != AuthSel(0, 0, 0) {
      CriteriaLength(p.sel);
    }
    if p.extensions.Some? {
      ExtensionsLength(p.extensions.value);
    }
  }

  lemma {:induction false} RegOptionsLength(p: RegRequest)
    ensures |EncodeAll(RegOptItems(SetRegOpts(p)))| == RegOptionsLen(p)
  {
    hide EncodeAll, RegOptItems, TimeoutOpt, SelectOpt, AttestOpt, ExtendOpt, SelLen, ExtensionsLen;
    NumberOptLengths(p);
    MapOptLengths(p);
    RegOptsLenConcat(TimeoutOpt(p) + SelectOpt(p) + AttestOpt(p), ExtendOpt(p));
    RegOptsLenConcat(TimeoutOpt(p) + SelectOpt(p), AttestOpt(p));
    RegOptsLenConcat(TimeoutOpt(p), SelectOpt(p));
  }

  lemma {:induction false} AuthOptsLenConcat(xs: seq<AuthOpt>, ys: seq<AuthOpt>)
    ensures |EncodeAll(AuthOptItems(xs + ys))| == |EncodeAll(AuthOptItems(xs))| + |EncodeAll(AuthOptItems(ys))|
  {
    AuthOptItemsConcat(xs, ys);
    LenConcat(AuthOptItems(xs), AuthOptItems(ys));
  }

  lemma {:induction false} AuthOptsLenOne(os: seq<AuthOpt>)
    requires |os| <= 1
    ensures |EncodeAll(AuthOptItems(os))| == if os == [] then 0 else 1 + |Encode(AuthOptValue(os[0]))|
  {
    if os != [] {
      LenPair(IntItem(AuthOptKey(os[0])), AuthOptValue(os[0]));
      assert AuthOptItems(os) == [IntItem(AuthOptKey(os[0])), AuthOptValue(os[0])];
    }
  }

  lemma {:induction false} AuthOptionLengths(p: AuthRequest)
    ensures |EncodeAll(AuthOptItems(AuthTimeoutOpt(p)))| == (if p.timeout != 0 then 1 + IntLen(p.timeout) else 0)
    ensures |EncodeAll(AuthOptItems(AuthRpIdOpt(p)))| == (if p.rpId.Some? then 1 + StrLen(|p.rpId.value|) else 0)
    ensures |EncodeAll(AuthOptItems(AuthAllowOpt(p)))| == (if p.allow.Some? then 1 + StrLen(|p.allow.value|) else 0)
    ensures |EncodeAll(AuthOptItems(AuthVerificationOpt(p)))|
            == (if p.userVerification != 0 then 1 + IntLen(p.userVerification) else 0)
    ensures |EncodeAll(AuthOptItems(AuthExtendOpt(p)))| == ExtensionsLen(p.extensions)
  {
    hide EncodeAll, AuthOptItems;
    AuthOptsLenOne(AuthTimeoutOpt(p));
    AuthOptsLenOne(AuthRpIdOpt(p));
    AuthOptsLenOne(AuthAllowOpt(p));
    AuthOptsLenOne(AuthVerificationOpt(p));
    AuthOptsLenOne(AuthExtendOpt(p));
    if p.extensions.Some? {
      ExtensionsLength(p.extensions.value);
    }
  }

  lemma {:induction false} AuthOptionsLength(p: AuthRequest)
    ensures |EncodeAll(AuthOptItems(SetAuthOpts(p)))| == AuthOptionsLen(p)
  {
    hide EncodeAll, AuthOptItems, AuthTimeoutOpt, AuthRpIdOpt, AuthAllowOpt, AuthVerificationOpt, AuthExtendOpt;
    hide ExtensionsLen, IntLen, StrLen;
    var t, r, a := AuthTimeoutOpt(p), AuthRpIdOpt(p), AuthAllowOpt(p);
    var u, e := AuthVerificationOpt(p), AuthExtendOpt(p);
    AuthOptionLengths(p);
    AuthOptsLenConcat(t + r + a + u, e);
    AuthOptsLenConcat(t + r + a, u);
    AuthOptsLenConcat(t + r, a);
    AuthOptsLenConcat(t, r);
  }

  /** The items before the optional map, and the map. */
  lemma {:induction false} LenWithMap(required: seq<Item>, opt: seq<Item>)
    requires |opt| % 2 == 0 && |opt| < 24
    ensures |EncodeAll(required + OptionalMap(opt))| == |EncodeAll(required)| + OptMapLen(|EncodeAll(opt)|)
  {
    LenConcat(required, OptionalMap(opt));
    if opt != [] {
      LenOne(Map(opt));
      assert |EncodeAll(opt)| > 0;
    }
  }

  lemma {:induction false} LenThree(x: Item, y: Item, z: Item)
    ensures |EncodeAll([x, y, z])| == |Encode(x)| + |Encode(y)| + |Encode(z)|
  {
    LenPair(y, z);
    LenCons(x, [y, z]);
    assert [x] + [y, z] == [x, y, z];
  }

  lemma {:induction false} SetRegOptsCount(p: RegRequest)
    ensures |SetRegOpts(p)| <= 4
  {
  }

  /** The lengths of the fields every registration request has. */
  lemma {:induction false} RegRequiredLength(p: RegRequest, x: seq<Item>, y: seq<Item>)
    requires x == [UInt(PKT_REG_REQUEST), Text(p.rpId), Text(p.rpName)]
    requires y == [ByteStr(p.challenge), Array(ParamItems(p.params)), ByteStr(p.encrypted)]
    ensures |EncodeAll(x + y)| ==
            1 + StrLen(|p.rpId|) + StrLen(|p.rpName|) + StrLen(|p.challenge|) +
            HeadLen(|p.params|) + SumParams(p.params) + StrLen(|p.encrypted|)
  {
    assert |ParamItems(p.params)| == |p.params|;
    hide EncodeAll, SumParams, ParamItems;
    LenThree(x[0], x[1], x[2]);
    LenThree(y[0], y[1], y[2]);
    LenConcat(x, y);
    ParamsLength(p.params);
  }

  lemma {:induction false} RegRequestLength(p: RegRequest)
    ensures |EncodeAll(RegRequestItems(p))| == WireLen(RegRequestPkt(p)) - 1
  {
    hide SetRegOpts, RegOptItems, ParamItems, RegOptionsLen, SumParams, EncodeAll, HeadLen, Encode;
    var x := [UInt(PKT_REG_REQUEST), Text(p.rpId), Text(p.rpName)];
    var y := [ByteStr(p.challenge), Array(ParamItems(p.params)), ByteStr(p.encrypted)];
    assert RegRequestItems(p) == (x + y) + OptionalMap(RegOptItems(SetRegOpts(p)));
    RegRequiredLength(p, x, y);
    RegOptionsLength(p);
    SetRegOptsCount(p);
    LenWithMap(x + y, RegOptItems(SetRegOpts(p)));
  }

  lemma {:induction false} AuthRequestLength(p: AuthRequest)
    ensures |EncodeAll(AuthRequestItems(p))| == WireLen(AuthRequestPkt(p)) - 1
  {
    LenPair(UInt(PKT_AUTH_REQUEST), ByteStr(p.challenge));
    AuthOptionsLength(p);
    assert |SetAuthOpts(p)| <= 5;
    LenWithMap([UInt(PKT_AUTH_REQUEST), ByteStr(p.challenge)], AuthOptItems(SetAuthOpts(p)));
  }

  lemma {:induction false} OneResponseOpt(key: nat, b: bytes)
    requires key < 24
    ensures |EncodeAll([UInt(key), ByteStr(b)])| == 1 + StrLen(|b|)
  {
    LenPair(UInt(key), ByteStr(b));
  }

  lemma {:induction false} ResponseOptsLength(p: AuthResponse)
    ensures |EncodeAll(ResponseOptItems(p))| == ResponseOptsLen(p)
  {
    OneResponseOpt(USER_HANDLE, p.userHandle);
    OneResponseOpt(CRED_ID, p.credId);
    var u := if p.userHandle != [] then [UInt(USER_HANDLE), ByteStr(p.userHandle)] else [];
    var c := if p.credId != [] then [UInt(CRED_ID), ByteStr(p.credId)] else [];
    LenConcat(u, c);
  }

  lemma {:induction false} AuthResponseLength(p: AuthResponse)
    ensures |EncodeAll(AuthResponseItems(p))| == WireLen(AuthResponsePkt(p)) - 1
  {
    hide EncodeAll, ResponseOptItems, ResponseOptsLen;
    var x := UInt(PKT_AUTH_RESPONSE);
    var y := [Text(p.clientData), ByteStr(p.authData), ByteStr(p.signature)];
    LenThree(y[0], y[1], y[2]);
    LenCons(x, y);
    ResponseOptsLength(p);
    assert |ResponseOptItems(p)| <= 4 && |ResponseOptItems(p)| % 2 == 0 by {
      ResponseOptCount(p);
    }
    LenWithMap([x] + y, ResponseOptItems(p));
    assert AuthResponseItems(p) == ([x] + y) + OptionalMap(ResponseOptItems(p));
  }

  lemma {:induction false} ResponseOptCount(p: AuthResponse)
    ensures |ResponseOptItems(p)| <= 4 && |ResponseOptItems(p)| % 2 == 0
  {
  }

  lemma {:induction false} FewItems(p: Packet)
    ensures |PacketItems(p)| <= 7
  {
  }

  lemma {:induction false} WireLength(p: Packet)
    ensures |Wire(p)| == WireLen(p)
  {
    FewItems(p);
    hide EncodeAll, RegRequestItems, AuthRequestItems, AuthResponseItems, RegOptionsLen, AuthOptionsLen, SumParams;
    match p
    case PreIndication => LenOne(UInt(PKT_PRE_INDICATION));
    case PreResponse(eph, key) => LenThree(UInt(PKT_PRE_RESPONSE), ByteStr(eph), ByteStr(key));
    case RegIndication(eph, encrypted) => LenThree(UInt(PKT_REG_INDICATION), ByteStr(eph), ByteStr(encrypted));
    case RegRequestPkt(reg) => RegRequestLength(reg);
    case RegResponse(attObj, clientData) => LenThree(UInt(PKT_REG_RESPONSE), ByteStr(attObj), Text(clientData));
    case AuthIndicationDiscoverable => LenOne(UInt(PKT_AUTH_INDICATION_DISCOVERABLE));
    case AuthIndicationServerSide(eph, encrypted) =>
      LenThree(UInt(PKT_AUTH_INDICATION_SERVER_SIDE), ByteStr(eph), ByteStr(encrypted));
    case AuthRequestPkt(req) => AuthRequestLength(req);
    case AuthResponsePkt(resp) => AuthResponseLength(resp);
  }

  /**
    A message is built exactly when its closed-form length fits the buffer; only an authentication response
    without user handle and without credential id is refused for its item count, and only a pre-response for
    the lengths of its fields.
   */
  lemma {:induction false} BuildSucceedsExactly(p: Packet)
    ensures Build(p).Some? <==>
            && WireLen(p) <= 2000
            && (p.PreResponse? ==> |p.eph| == 256 && |p.key| == 32)
            && (p.AuthResponsePkt? ==> p.resp.userHandle != [] || p.resp.credId != [])
    ensures Build(p).Some? ==> |Build(p).value| == WireLen(p)
  {
    FewItems(p);
    WireLength(p);
  }

  function RegSecretLen(s: RegSecret): nat {
    1 + StrLen(|s.userName|) + StrLen(|s.displayName|) + StrLen(|s.userId|) +
    (if s.exclude == [] then 0 else HeadLen(|s.exclude|) + SumDescriptors(s.exclude))
  }

  /** The inner encodings are built exactly when they fit 1000 bytes. */
  lemma {:induction false} RegSecretBuildSucceedsExactly(s: RegSecret)
    ensures |Encode(Array(RegSecretItems(s)))| == RegSecretLen(s)
    ensures BuildInner(RegSecretItems(s)).Some? <==> RegSecretLen(s) <= 1000
  {
    hide EncodeAll, DescriptorItems;
    var x := [ByteStr(s.userName), ByteStr(s.displayName), ByteStr(s.userId)];
    LenThree(x[0], x[1], x[2]);
    if s.exclude != [] {
      var a := Array(DescriptorItems(s.exclude));
      DescriptorsLength(s.exclude);
      DescriptorCount(s.exclude);
      assert |Encode(a)| == HeadLen(|s.exclude|) + SumDescriptors(s.exclude);
      LenOne(a);
      LenConcat(x, [a]);
    } else {
      assert RegSecretItems(s) == x;
    }
  }

  lemma {:induction false} DescriptorCount(ds: seq<Descriptor>)
    ensures |DescriptorItems(ds)| == |ds|
  {
  }

  lemma {:induction false} AllowListBuildSucceedsExactly(ds: seq<Descriptor>)
    ensures BuildInner(DescriptorItems(ds)).Some? <==> HeadLen(|ds|) + SumDescriptors(ds) <= 1000
  {
    hide EncodeAll;
    DescriptorsLength(ds);
  }

  // ---------------------------------------------------------------- inner fits, outer fits

  /** The registration request a server builds: a 32-byte challenge and the one supported algorithm. */
  function ServerRegRequest(rpId: bytes, rpName: bytes, challenge: bytes, encrypted: bytes, timeout: nat, sel: AuthSel,
                            attestation: nat): RegRequest {
    RegRequest(rpId, rpName, challenge, [CredParam(PUBLIC_KEY, -7)], encrypted, timeout, sel, attestation, None)
  }

  lemma {:induction false} ServerOptionsAreShort(p: RegRequest)
    requires p.timeout < TWO32 && p.extensions.None?
    requires p.sel.attachment <= 2 && p.sel.residentKey <= 3 && p.sel.userVerification <= 3 && p.attestation <= 4
    ensures RegOptionsLen(p) <= 16
  {
  }

  /** Once the encrypted part of a registration request was built, the request itself always fits. */
  lemma {:induction false} OuterFits(s: RegSecret, rpId: bytes, rpName: bytes, challenge: bytes, encrypted: bytes,
                                     timeout: nat, sel: AuthSel, attestation: nat)
    requires BuildInner(RegSecretItems(s)).Some? && |encrypted| == |BuildInner(RegSecretItems(s)).value| + 16
    requires |rpId| <= 256 && |rpName| <= 256 && |challenge| == 32 && timeout < TWO32
    requires sel.attachment <= 2 && sel.residentKey <= 3 && sel.userVerification <= 3 && attestation <= 4
    ensures Build(RegRequestPkt(ServerRegRequest(rpId, rpName, challenge, encrypted, timeout, sel, attestation))).Some?
  {
    assert |encrypted| <= ENC_DATA_BUF_SIZE + 16;
    hide Build, BuildInner, RegOptionsLen, Encode;
    var p := ServerRegRequest(rpId, rpName, challenge, encrypted, timeout, sel, attestation);
    BuildSucceedsExactly(RegRequestPkt(p));
    ServerOptionsAreShort(p);
    assert SumParams(p.params[1..]) == 0;
    assert SumParams(p.params) == 3;
  }
}
