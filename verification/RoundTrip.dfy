/** What a builder writes, the parser reads back. */
module RoundTrip {
  import opened Bytes
  import opened Cbor
  import opened Packets
  import opened OptionalMaps

  // ---------------------------------------------------------------- lengths

  /** The integers of an item fit 64 bits and its maps hold whole pairs. */
  predicate IntsFit(i: Item) {
    match i
    case UInt(n) => n < TWO64
    case NInt(n) => n < TWO64
    case ByteStr(_) => true
    case Text(_) => true
    case Array(items) => AllIntsFit(items)
    case Map(pairs) => |pairs| % 2 == 0 && AllIntsFit(pairs)
  }

  predicate AllIntsFit(items: seq<Item>) {
    forall k :: 0 <= k < |items| ==> IntsFit(items[k])
  }

  /** An item whose encoding is short has short strings and few elements. */
  lemma {:induction false} ShortIsWellFormed(i: Item)
    requires IntsFit(i) && |Encode(i)| < TWO64
    ensures WellFormed(i) && |Encode(i)| >= 1
    decreases i, 0
  {
    match i
    case Array(items) => ShortAreWellFormed(items);
    case Map(pairs) => ShortAreWellFormed(pairs);
    case _ =>
  }

  lemma {:induction false} ShortAreWellFormed(items: seq<Item>)
    requires AllIntsFit(items) && |EncodeAll(items)| < TWO64
    ensures AllWellFormed(items) && |items| <= |EncodeAll(items)|
    decreases items, 1
  {
    if items != [] {
      assert IntsFit(items[0]);
      ShortIsWellFormed(items[0]);
      ShortAreWellFormed(items[1..]);
      assert forall k :: 0 < k < |items| ==> items[k] == items[1..][k - 1];
    }
  }

  // ---------------------------------------------------------------- elements of arrays

  predicate ParamReadable(p: CredParam) {
    p.kind == PUBLIC_KEY && IsInt(p.alg)
  }

  lemma {:induction false} ReadParamAt(items: seq<Item>, k: nat, tail: bytes, p: CredParam)
    requires k < |items| && items[k] == ParamItem(p) && ParamReadable(p)
    ensures ReadParam(Before(items, k, tail)) == Some((p, Before(items, k + 1, tail)))
  {
    hide Before, ReadString, ReadUInt, ReadInt, EnterArray, EnterMap;
    var after := Before(items, k + 1, tail).rest;
    var fields := [UInt(p.kind), IntItem(p.alg)];
    assert AllWellFormed(fields);
    EnterArrayAt(items, k, tail, fields);
    ReadUIntAt(fields, 0, after, p.kind);
    ReadIntAt(fields, 1, after, p.alg);
  }

  lemma {:induction false} ReadParamsAt(items: seq<Item>, ps: seq<CredParam>, k: nat, tail: bytes, acc: seq<CredParam>)
    requires items == ParamItems(ps) && k <= |ps| && acc == ps[..k] && forall p <- ps :: ParamReadable(p)
    ensures ReadParams(Before(items, k, tail), |ps| - k, acc) == Some((ps, Cur(tail, 0)))
    decreases |ps| - k
  {
    hide Before, ReadString, ReadUInt, ReadInt, EnterArray, EnterMap;
    if k == |ps| {
      BeforeEnd(items, tail);
      assert acc == ps;
    } else {
      assert ps[k] in ps;
      ReadParamAt(items, k, tail, ps[k]);
      ReadParamsAt(items, ps, k + 1, tail, acc + [ps[k]]);
    }
  }

  predicate DescriptorReadable(d: Descriptor) {
    d.kind == PUBLIC_KEY && d.id != []
  }

  predicate DescriptorsReadable(ds: seq<Descriptor>) {
    forall d <- ds :: DescriptorReadable(d)
  }

  lemma {:induction false} ReadDescriptorAt(items: seq<Item>, k: nat, tail: bytes, p: Descriptor)
    requires k < |items| && items[k] == DescriptorItem(p) && WellFormed(items[k]) && DescriptorReadable(p)
    ensures ReadDescriptor(Before(items, k, tail)) == Some((p, Before(items, k + 1, tail)))
  {
    hide Before, ReadString, ReadUInt, ReadInt, EnterArray, EnterMap;
    var after := Before(items, k + 1, tail).rest;
    var fields := [UInt(p.kind), ByteStr(p.id)];
    EnterArrayAt(items, k, tail, fields);
    assert WellFormed(fields[1]);
    ReadUIntAt(fields, 0, after, p.kind);
    ReadStringAt(fields, 1, after, 2, p.id);
  }

  lemma {:induction false} ReadDescriptorsAt(items: seq<Item>, ds: seq<Descriptor>, k: nat, tail: bytes, acc: seq<Descriptor>)
    requires items == DescriptorItems(ds) && k <= |ds| && acc == ds[..k]
    requires AllWellFormed(items) && DescriptorsReadable(ds)
    ensures ReadDescriptors(Before(items, k, tail), |ds| - k, acc) == Some((ds, Cur(tail, 0)))
    decreases |ds| - k
  {
    hide Before, ReadString, ReadUInt, ReadInt, EnterArray, EnterMap;
    if k == |ds| {
      BeforeEnd(items, tail);
      assert acc == ds;
    } else {
      assert ds[k] in ds;
      ReadDescriptorAt(items, k, tail, ds[k]);
      ReadDescriptorsAt(items, ds, k + 1, tail, acc + [ds[k]]);
    }
  }

  // ---------------------------------------------------------------- the packets

  predicate TextReadable(s: bytes) {
    NulFree(s) && 1 <= |s| <= 256
  }

  predicate RegRequestLimits(p: RegRequest) {
    && TextReadable(p.rpId) && TextReadable(p.rpName) && 16 <= |p.challenge| <= 64
    && p.params != [] && (forall q <- p.params :: ParamReadable(q))
    && p.timeout < TWO32
    && p.sel.attachment <= 2 && p.sel.residentKey <= 3 && p.sel.userVerification <= 3 && p.attestation <= 4
    && (p.extensions.Some? ==> ExtensionsReadable(p.extensions.value))
  }

  predicate AuthRequestLimits(p: AuthRequest) {
    && IsInt(p.timeout) && IsInt(p.userVerification)
    && (p.rpId.Some? ==> NulFree(p.rpId.value))
    && (p.extensions.Some? ==> ExtensionsReadable(p.extensions.value))
  }

  /** The field values the parser accepts. */
  predicate Limits(p: Packet) {
    match p
    case PreIndication => true
    case PreResponse(eph, key) => |eph| == 256 && |key| == 32
    case RegIndication(eph, encrypted) => |eph| == 256
    case RegRequestPkt(reg) => RegRequestLimits(reg)
    case RegResponse(attObj, clientData) => 1 <= |attObj| <= 8192 && 1 <= |clientData| <= 2048
    case AuthIndicationDiscoverable => true
    case AuthIndicationServerSide(eph, encrypted) => |eph| == 256
    case AuthRequestPkt(req) => AuthRequestLimits(req)
    case AuthResponsePkt(resp) => true
  }

  function OrDefault(n: nat, default: nat): nat {
    if n == 0 then default else n
  }

  function NormalReg(p: RegRequest): RegRequest {
    p.(sel := p.sel.(residentKey := OrDefault(p.sel.residentKey, RK_DISCOURAGED),
                     userVerification := OrDefault(p.sel.userVerification, UV_PREFERRED)),
       attestation := OrDefault(p.attestation, ATTESTATION_NONE),
       extensions := if p.extensions == Some([]) then None else p.extensions)
  }

  function NormalAuth(p: AuthRequest): AuthRequest {
    p.(allow := if p.allow == Some([]) then None else p.allow,
       extensions := if p.extensions == Some([]) then None else p.extensions)
  }

  /** The packet that is read for a packet that is written: defaults replace absent fields. */
  function Normal(p: Packet): Packet {
    match p
    case RegRequestPkt(reg) => RegRequestPkt(NormalReg(reg))
    case AuthRequestPkt(req) => AuthRequestPkt(NormalAuth(req))
    case _ => p
  }

  lemma {:induction false} TypeItem(p: Packet)
    ensures PacketItems(p) != [] && PacketItems(p)[0] == IntItem(TypeOf(p)) && 1 <= TypeOf(p) <= 9
  {
  }

  /** Entering the outermost array. */
  lemma {:induction false} EnterRootAt(items: seq<Item>)
    requires AllWellFormed(items) && |items| < TWO64
    ensures EnterArray(Cur(Encode(Array(items)), 1)) == Some((|items|, Before(items, 0, [])))
    ensures Before(items, |items|, []) == Cur([], 0)
  {
    EnterFollowedAt(items, []);
    assert Encode(Array(items)) + [] == Encode(Array(items));
  }

  /** The same with anything behind the array. */
  lemma {:induction false} EnterFollowedAt(items: seq<Item>, tail: bytes)
    requires AllWellFormed(items) && |items| < TWO64
    ensures EnterArray(Cur(Encode(Array(items)) + tail, 1)) == Some((|items|, Before(items, 0, tail)))
    ensures Before(items, |items|, tail) == Cur(tail, 0)
  {
    assert EncodeAll([Array(items)]) == Encode(Array(items)) + EncodeAll([]);
    assert [Array(items)][0..] == [Array(items)];
    assert Before([Array(items)], 0, tail) == Cur(Encode(Array(items)) + tail, 1);
    EnterArrayAt([Array(items)], 0, tail, items);
    BeforeEnd([Array(items)], tail);
    BeforeEnd(items, tail);
  }

  /** The header of every message: the array, its length and the packet type. */
  lemma {:induction false} ReadTypeAt(p: Packet)
    requires AllWellFormed(PacketItems(p)) && |PacketItems(p)| < TWO64
    ensures PacketItems(p) != []
    ensures ReadType(Wire(p)) == Some((TypeOf(p), |PacketItems(p)|, Before(PacketItems(p), 1, [])))
  {
    hide Before, ReadString, ReadUInt, ReadInt, EnterArray, EnterMap;
    TypeItem(p);
    EnterRootAt(PacketItems(p));
    ReadIntAt(PacketItems(p), 0, [], TypeOf(p));
  }

  lemma {:induction false} ReadEphAndBytesAt(items: seq<Item>, eph: bytes, b: bytes)
    requires |items| == 3 && items[1] == ByteStr(eph) && items[2] == ByteStr(b)
    requires AllWellFormed(items) && |eph| == 256
    ensures ReadEphAndBytes(Before(items, 1, [])) == Some((eph, b))
  {
    hide Before, ReadString, ReadUInt, ReadInt, EnterArray, EnterMap;
    ReadStringAt(items, 1, [], 2, eph);
    ReadStringAt(items, 2, [], 2, b);
  }

  lemma {:induction false} ReadRegResponseAt(items: seq<Item>, attObj: bytes, clientData: bytes)
    requires |items| == 3 && items[1] == ByteStr(attObj) && items[2] == Text(clientData) && AllWellFormed(items)
    requires Limits(RegResponse(attObj, clientData))
    ensures ReadRegResponse(Before(items, 1, [])) == Some(RegResponse(attObj, clientData))
  {
    hide Before, ReadString, ReadUInt, ReadInt, EnterArray, EnterMap;
    ReadStringAt(items, 1, [], 2, attObj);
    ReadStringAt(items, 2, [], 3, clientData);
  }

  // ---------------------------------------------------------------- registration request

  lemma {:induction false} SetRegOptsReadable(p: RegRequest)
    requires RegRequestLimits(p)
    ensures RegOptsReadable(SetRegOpts(p))
  {
    assert CriteriaReadable(SetCriteria(p.sel)) by {
      assert CriteriaReadable(OneCriterion(AUTH_ATTACH, p.sel.attachment));
      assert CriteriaReadable(OneCriterion(RESIDENT_KEY, p.sel.residentKey));
      assert CriteriaReadable(OneCriterion(USER_VERIFICATION, p.sel.userVerification));
    }
    hide SetCriteria;
    assert RegOptsReadable(TimeoutOpt(p)) && RegOptsReadable(SelectOpt(p));
    assert RegOptsReadable(AttestOpt(p)) && RegOptsReadable(ExtendOpt(p));
    hide TimeoutOpt, SelectOpt, AttestOpt, ExtendOpt;
  }

  lemma {:induction false} ApplySetCriteria(sel: AuthSel, set0: AuthSel)
    ensures ApplyCriteria(sel, SetCriteria(set0)) ==
            AuthSel(OrDefault(set0.attachment, sel.attachment), OrDefault(set0.residentKey, sel.residentKey),
                    OrDefault(set0.userVerification, sel.userVerification))
  {
    var a := OneCriterion(AUTH_ATTACH, set0.attachment);
    var r := OneCriterion(RESIDENT_KEY, set0.residentKey);
    var u := OneCriterion(USER_VERIFICATION, set0.userVerification);
    ApplyCriteriaConcat(sel, a + r, u);
    ApplyCriteriaConcat(sel, a, r);
  }

  lemma {:induction false} ApplyAtMostOne(p: RegRequest, os: seq<RegOpt>)
    requires |os| <= 1
    ensures ApplyRegOpts(p, os) == if os == [] then p else ApplyRegOpt(p, os[0])
  {
  }

  lemma {:induction false} ApplySetRegOpts(p: RegRequest)
    requires RegRequestLimits(p)
    ensures ApplyRegOpts(DefaultsOf(p), SetRegOpts(p)) == NormalReg(p)
  {
    assert ApplyCriteria(DefaultsOf(p).sel, []) == DefaultsOf(p).sel;
    hide ApplyRegOpts, ApplyCriteria, SetCriteria;
    var d := DefaultsOf(p);
    var t, s, a, e := TimeoutOpt(p), SelectOpt(p), AttestOpt(p), ExtendOpt(p);
    ApplyFour(d, t, s, a, e);
    ApplyAtMostOne(d, t);
    var d1 := d.(timeout := p.timeout);
    assert ApplyRegOpts(d, t) == d1;
    ApplyAtMostOne(d1, s);
    ApplySetCriteria(d.sel, p.sel);
    var d2 := d1.(sel := ApplyCriteria(d.sel, SetCriteria(p.sel)));
    assert ApplyRegOpts(d1, s) == d2;
    ApplyAtMostOne(d2, a);
    var d3 := d2.(attestation := OrDefault(p.attestation, ATTESTATION_NONE));
    assert ApplyRegOpts(d2, a) == d3;
    ApplyAtMostOne(d3, e);
  }

  lemma {:induction false} ApplyFour(d: RegRequest, t: seq<RegOpt>, s: seq<RegOpt>, a: seq<RegOpt>, e: seq<RegOpt>)
    ensures ApplyRegOpts(d, t + s + a + e) == ApplyRegOpts(ApplyRegOpts(ApplyRegOpts(ApplyRegOpts(d, t), s), a), e)
  {
    hide ApplyRegOpts;
    ApplyRegOptsConcat(d, t + s + a, e);
    ApplyRegOptsConcat(d, t + s, a);
    ApplyRegOptsConcat(d, t, s);
  }

  lemma {:induction false} ReadParamArrayAt(items: seq<Item>, k: nat, tail: bytes, ps: seq<CredParam>)
    requires k < |items| && items[k] == Array(ParamItems(ps)) && WellFormed(items[k])
    requires ps != [] && forall p <- ps :: ParamReadable(p)
    ensures ReadParamArray(Before(items, k, tail)) == Some((ps, Before(items, k + 1, tail)))
  {
    hide Before, ReadString, ReadUInt, ReadInt, EnterArray, EnterMap;
    EnterArrayAt(items, k, tail, ParamItems(ps));
    ReadParamsAt(ParamItems(ps), ps, 0, Before(items, k + 1, tail).rest, []);
  }

  /** The items of a request with the entries `os` in its optional map. */
  function RegRequestWith(p: RegRequest, os: seq<RegOpt>): seq<Item> {
    [UInt(PKT_REG_REQUEST), Text(p.rpId), Text(p.rpName), ByteStr(p.challenge),
     Array(ParamItems(p.params)), ByteStr(p.encrypted)] + OptionalMap(RegOptItems(os))
  }

  function DefaultsOf(p: RegRequest): RegRequest {
    RegDefaults(p.rpId, p.rpName, p.challenge, p.params, p.encrypted)
  }

  lemma {:induction false} ReadRegRequiredAt(p: RegRequest, os: seq<RegOpt>)
    requires RegRequestLimits(p) && AllWellFormed(RegRequestWith(p, os))
    ensures ReadRegRequired(Before(RegRequestWith(p, os), 1, []))
            == Some((DefaultsOf(p), Before(RegRequestWith(p, os), 6, [])))
  {
    hide Before, ReadString, ReadUInt, ReadInt, EnterArray, EnterMap;
    var items := RegRequestWith(p, os);
    ReadStringAt(items, 1, [], 3, p.rpId);
    ReadStringAt(items, 2, [], 3, p.rpName);
    ReadStringAt(items, 3, [], 2, p.challenge);
    ReadParamArrayAt(items, 4, [], p.params);
    ReadStringAt(items, 5, [], 2, p.encrypted);
  }

  /** Reads a request whose optional map holds the entries `os`, in whatever order they are. */
  lemma {:induction false} ReadRegRequestAt(p: RegRequest, os: seq<RegOpt>)
    requires RegRequestLimits(p) && RegOptsReadable(os) && AllWellFormed(RegRequestWith(p, os))
    ensures ReadRegRequest(Before(RegRequestWith(p, os), 1, []), |RegRequestWith(p, os)|)
            == Some(ApplyRegOpts(DefaultsOf(p), os))
  {
    hide Before, ReadString, ReadUInt, ReadInt, EnterArray, EnterMap;
    var items := RegRequestWith(p, os);
    ReadRegRequiredAt(p, os);
    if os != [] {
      assert WellFormed(items[6]);
      EnterMapAt(items, 6, [], RegOptItems(os));
      ReadRegOptionsAt(os, Before(items, 7, []).rest, DefaultsOf(p));
    }
  }

  lemma {:induction false} RegRequestRoundTrip(p: RegRequest)
    requires RegRequestLimits(p) && AllWellFormed(RegRequestItems(p))
    ensures ReadRegRequest(Before(RegRequestItems(p), 1, []), |RegRequestItems(p)|) == Some(NormalReg(p))
  {
    hide Before, ReadRegRequest, ReadAuthRequest, ReadAuthResponse, ReadEphAndBytes, ReadRegResponse;
    SetRegOptsReadable(p);
    ReadRegRequestAt(p, SetRegOpts(p));
    ApplySetRegOpts(p);
  }

  // ---------------------------------------------------------------- authentication request and response

  lemma {:induction false} SetAuthOptsReadable(p: AuthRequest)
    requires AuthRequestLimits(p)
    ensures AuthOptsReadable(SetAuthOpts(p))
  {
  }

  lemma {:induction false} ApplyAtMostOneAuth(p: AuthRequest, os: seq<AuthOpt>)
    requires |os| <= 1
    ensures ApplyAuthOpts(p, os) == if os == [] then p else ApplyAuthOpt(p, os[0])
  {
  }

  lemma {:induction false} ApplySetAuthOpts(p: AuthRequest)
    requires AuthRequestLimits(p)
    ensures ApplyAuthOpts(EmptyAuthRequest(p.challenge), SetAuthOpts(p)) == NormalAuth(p)
  {
    hide ApplyAuthOpts, CStr;
    var d := EmptyAuthRequest(p.challenge);
    var t, r, a := AuthTimeoutOpt(p), AuthRpIdOpt(p), AuthAllowOpt(p);
    var u, e := AuthVerificationOpt(p), AuthExtendOpt(p);
    ApplyAuthOptsConcat(d, t + r + a + u, e);
    ApplyAuthOptsConcat(d, t + r + a, u);
    ApplyAuthOptsConcat(d, t + r, a);
    ApplyAuthOptsConcat(d, t, r);
    ApplyAtMostOneAuth(d, t);
    var d1 := d.(timeout := p.timeout);
    ApplyAtMostOneAuth(d1, r);
    var d2 := d1.(rpId := p.rpId);
    ApplyAtMostOneAuth(d2, a);
    var d3 := d2.(allow := NormalAuth(p).allow);
    ApplyAtMostOneAuth(d3, u);
    ApplyAtMostOneAuth(d3.(userVerification := p.userVerification), e);
  }

  function AuthRequestWith(challenge: bytes, os: seq<AuthOpt>): seq<Item> {
    [UInt(PKT_AUTH_REQUEST), ByteStr(challenge)] + OptionalMap(AuthOptItems(os))
  }

  function EmptyAuthRequest(challenge: bytes): AuthRequest {
    AuthRequest(challenge, None, 0, 0, None, None)
  }

  lemma {:induction false} ReadAuthRequestAt(challenge: bytes, os: seq<AuthOpt>)
    requires AuthOptsReadable(os) && AllWellFormed(AuthRequestWith(challenge, os))
    ensures ReadAuthRequest(Before(AuthRequestWith(challenge, os), 1, []))
            == Some(ApplyAuthOpts(EmptyAuthRequest(challenge), os))
  {
    hide Before, ReadString, ReadUInt, ReadInt, EnterArray, EnterMap;
    var items := AuthRequestWith(challenge, os);
    ReadStringAt(items, 1, [], 2, challenge);
    if os != [] {
      assert WellFormed(items[2]);
      EnterMapAt(items, 2, [], AuthOptItems(os));
      ReadAuthOptionsAt(os, Before(items, 3, []).rest, EmptyAuthRequest(challenge));
    }
  }

  lemma {:induction false} AuthRequestRoundTrip(p: AuthRequest)
    requires AuthRequestLimits(p) && AllWellFormed(AuthRequestItems(p))
    ensures ReadAuthRequest(Before(AuthRequestItems(p), 1, [])) == Some(NormalAuth(p))
  {
    hide Before, ReadRegRequest, ReadAuthRequest, ReadAuthResponse, ReadEphAndBytes, ReadRegResponse;
    SetAuthOptsReadable(p);
    ReadAuthRequestAt(p.challenge, SetAuthOpts(p));
    ApplySetAuthOpts(p);
  }

  lemma {:induction false} ReadResponseOptionAt(items: seq<Item>, k: nat, tail: bytes, key: int, b: bytes, p: AuthResponse)
    requires k + 1 < |items| && items[k] == IntItem(key) && items[k + 1] == ByteStr(b) && WellFormed(items[k + 1])
    requires key == USER_HANDLE || key == CRED_ID
    ensures ReadResponseOptions(Before(items, k, tail), p)
            == ReadResponseOptions(Before(items, k + 2, tail),
                                   if key == USER_HANDLE then p.(userHandle := b) else p.(credId := b))
  {
    hide Before, ReadString, ReadUInt, ReadInt, EnterArray, EnterMap;
    ReadIntAt(items, k, tail, key);
    ReadStringAt(items, k + 1, tail, 2, b);
  }

  lemma {:induction false} ReadResponseOptionsAt(p: AuthResponse, tail: bytes)
    requires AllWellFormed(ResponseOptItems(p))
    ensures ReadResponseOptions(Before(ResponseOptItems(p), 0, tail), p.(userHandle := [], credId := []))
            == Some((p, Cur(tail, 0)))
  {
    hide Before, ReadString, ReadUInt, ReadInt, EnterArray, EnterMap;
    var items := ResponseOptItems(p);
    var q := p.(userHandle := [], credId := []);
    if p.userHandle != [] {
      ReadResponseOptionAt(items, 0, tail, USER_HANDLE, p.userHandle, q);
    }
    var k := if p.userHandle != [] then 2 else 0;
    if p.credId != [] {
      ReadResponseOptionAt(items, k, tail, CRED_ID, p.credId, p.(credId := []));
    }
    BeforeEnd(items, tail);
  }

  lemma {:induction false} AuthResponseRoundTrip(p: AuthResponse)
    requires AllWellFormed(AuthResponseItems(p))
    ensures ReadAuthResponse(Before(AuthResponseItems(p), 1, [])) == Some(p)
  {
    hide Before, ReadString, ReadUInt, ReadInt, EnterArray, EnterMap;
    var items := AuthResponseItems(p);
    ReadStringAt(items, 1, [], 3, p.clientData);
    ReadStringAt(items, 2, [], 2, p.authData);
    ReadStringAt(items, 3, [], 2, p.signature);
    if ResponseOptItems(p) != [] {
      assert WellFormed(items[4]);
      EnterMapAt(items, 4, [], ResponseOptItems(p));
      ReadResponseOptionsAt(p, Before(items, 5, []).rest);
    }
  }

  // ---------------------------------------------------------------- all packets

  lemma {:induction false} ExtensionIntsFit(es: seq<Extension>)
    ensures AllIntsFit(ExtensionItems(es))
  {
    if es != [] {
      ExtensionIntsFit(es[1..]);
      assert forall k :: 2 <= k < |ExtensionItems(es)| ==> ExtensionItems(es)[k] == ExtensionItems(es[1..])[k - 2];
    }
  }

  lemma {:induction false} CriterionIntsFit(cs: seq<Criterion>)
    requires CriteriaReadable(cs)
    ensures AllIntsFit(CriterionItems(cs))
  {
    if cs != [] {
      assert cs[0] in cs;
      CriterionIntsFit(cs[1..]);
      assert forall k :: 2 <= k < |CriterionItems(cs)| ==> CriterionItems(cs)[k] == CriterionItems(cs[1..])[k - 2];
    }
  }

  lemma {:induction false} RegOptIntsFit(os: seq<RegOpt>)
    requires RegOptsReadable(os)
    requires forall o <- os :: o.Timeout? ==> o.ms < TWO64
    requires forall o <- os :: o.Unknown? ==> o.key < TWO64 && IntsFit(o.value)
    ensures AllIntsFit(RegOptItems(os))
  {
    if os != [] {
      var o := os[0];
      assert o in os;
      RegOptIntsFit(os[1..]);
      if o.Select? {
        CriterionIntsFit(o.criteria);
      } else if o.Extend? {
        ExtensionIntsFit(o.extensions);
      }
      assert forall k :: 2 <= k < |RegOptItems(os)| ==> RegOptItems(os)[k] == RegOptItems(os[1..])[k - 2];
    }
  }

  lemma {:induction false} AuthOptIntsFit(os: seq<AuthOpt>)
    requires AuthOptsReadable(os)
    ensures AllIntsFit(AuthOptItems(os))
  {
    if os != [] {
      var o := os[0];
      assert o in os;
      AuthOptIntsFit(os[1..]);
      if o.AuthExtend? {
        ExtensionIntsFit(o.extensions);
      }
      assert forall k :: 2 <= k < |AuthOptItems(os)| ==> AuthOptItems(os)[k] == AuthOptItems(os[1..])[k - 2];
    }
  }

  lemma {:induction false} SetRegOptIntsFit(p: RegRequest)
    requires RegRequestLimits(p)
    ensures AllIntsFit(RegOptItems(SetRegOpts(p)))
  {
    SetRegOptsReadable(p);
    hide SetCriteria;
    RegOptIntsFit(SetRegOpts(p));
  }

  lemma {:induction false} PacketIntsFit(p: Packet)
    requires Limits(p)
    ensures AllIntsFit(PacketItems(p))
  {
    hide RegOptItems, SetRegOpts, AuthOptItems, SetAuthOpts;
    match p
    case RegRequestPkt(reg) =>
      SetRegOptIntsFit(reg);
      forall k | 0 <= k < |reg.params| ensures IntsFit(ParamItems(reg.params)[k]) {
        assert ParamReadable(reg.params[k]);
        assert AllIntsFit([UInt(reg.params[k].kind), IntItem(reg.params[k].alg)]);
      }
      assert IntsFit(Array(ParamItems(reg.params)));
      assert forall k :: 0 <= k < |RegRequestItems(reg)| ==> IntsFit(RegRequestItems(reg)[k]);
    case AuthRequestPkt(req) =>
      SetAuthOptsReadable(req);
      AuthOptIntsFit(SetAuthOpts(req));
      assert IntsFit(Map(AuthOptItems(SetAuthOpts(req))));
    case AuthResponsePkt(resp) =>
      assert AllIntsFit(ResponseOptItems(resp));
      assert IntsFit(Map(ResponseOptItems(resp)));
    case _ =>
  }

  lemma {:induction false} ReadEphBodyAt(p: Packet)
    requires p.PreResponse? || p.RegIndication? || p.AuthIndicationServerSide?
    requires Limits(p) && AllWellFormed(PacketItems(p))
    ensures ReadBody(TypeOf(p), 3, Before(PacketItems(p), 1, [])) == Some(p)
  {
    hide Before, ReadString, ReadUInt, ReadInt, EnterArray, EnterMap;
    ReadEphAndBytesAt(PacketItems(p), p.eph, if p.PreResponse? then p.key else p.encrypted);
  }

  lemma {:induction false} ReadBodyAt(p: Packet)
    requires Limits(p) && AllWellFormed(PacketItems(p)) && PacketItems(p) != [] && Declared(p) == |PacketItems(p)|
    ensures ReadBody(TypeOf(p), |PacketItems(p)|, Before(PacketItems(p), 1, [])) == Some(Normal(p))
  {
    hide Before, ReadRegRequest, ReadAuthRequest, ReadAuthResponse, ReadEphAndBytes, ReadRegResponse;
    hide RegRequestItems, AuthRequestItems, AuthResponseItems, SetRegOpts, SetAuthOpts, NormalReg, NormalAuth;
    hide RegRequestLimits, AuthRequestLimits, AllWellFormed, WellFormed;
    match p
    case PreIndication =>
    case RegRequestPkt(reg) => RegRequestRoundTrip(reg);
    case RegResponse(attObj, clientData) => ReadRegResponseAt(PacketItems(p), attObj, clientData);
    case AuthIndicationDiscoverable =>
    case AuthRequestPkt(req) => AuthRequestRoundTrip(req);
    case AuthResponsePkt(resp) => AuthResponseRoundTrip(resp);
    case _ => ReadEphBodyAt(p);
  }

  /** A successfully built packet within the parser's limits is parsed back, absent fields replaced by defaults. */
  lemma {:induction false} BuildThenParse(p: Packet, expected: int)
    requires Limits(p) && Build(p).Some? && (expected == 0 || expected == TypeOf(p))
    ensures Parse(Build(p).value, expected) == Some(Normal(p))
    ensures PacketType(Build(p).value) == Some(TypeOf(p))
  {
    PacketIntsFit(p);
    ShortAreWellFormed(PacketItems(p));
    ReadTypeAt(p);
    ReadBodyAt(p);
  }

  lemma {:induction false} AuthOptionsKeepChallenge(c: Cur, p: AuthRequest)
    requires ReadAuthOptions(c, p).Some?
    ensures ReadAuthOptions(c, p).value.0.challenge == p.challenge
    decreases c.left
  {
    hide ReadInt, ReadText, ReadBytes, ReadExtensions, CStr;
    if c.left > 0 {
      var (key, d) := ReadInt(c).value;
      if key == TIMEOUT {
        var (ms, d) := ReadInt(d).value;
        AuthOptionsKeepChallenge(d, p.(timeout := ms));
      } else if key == RPID {
        var (rpId, d) := ReadText(d).value;
        AuthOptionsKeepChallenge(d, p.(rpId := Some(CStr(rpId))));
      } else if key == USER_VERIFICATION_AUTH_REQ {
        var (uv, d) := ReadInt(d).value;
        AuthOptionsKeepChallenge(d, p.(userVerification := uv));
      } else if key == ALLOW_CREDS {
        var (encrypted, d) := ReadBytes(d).value;
        AuthOptionsKeepChallenge(d, p.(allow := if encrypted == [] then None else Some(encrypted)));
      } else if key == EXTENSIONS {
        var (es, d) := ReadExtensions(d).value;
        AuthOptionsKeepChallenge(d, p.(extensions := es));
      } else {
        AuthOptionsKeepChallenge(d, p);
      }
    }
  }

  /** The head of an array is read whatever its elements are. */
  lemma {:induction false} EnterAnyArray(items: seq<Item>)
    requires |items| < TWO64
    ensures EnterArray(Cur(Encode(Array(items)), 1)) == Some((|items|, Before(items, 0, [])))
  {
    hide ReadHead, EncodeHead;
    HeadRoundTrip(4, |items|, EncodeAll(items));
    assert items[0..] == items && EncodeAll(items) + [] == EncodeAll(items);
  }

  lemma {:induction false} ChallengeIsShort(p: AuthRequest)
    requires |Wire(AuthRequestPkt(p))| < TWO64
    ensures WellFormed(ByteStr(p.challenge))
  {
    hide EncodeHead, SetAuthOpts;
    var items := AuthRequestItems(p);
    assert EncodeAll(items) == Encode(items[0]) + EncodeAll(items[1..]);
    assert EncodeAll(items[1..]) == Encode(items[1]) + EncodeAll(items[1..][1..]);
  }

  /** Whoever can read an authentication request, whatever its optional fields, finds the challenge it was built with. */
  lemma {:induction false} ChallengeOnTheWire(p: AuthRequest)
    requires Build(AuthRequestPkt(p)).Some?
    ensures var r := Parse(Build(AuthRequestPkt(p)).value, PKT_AUTH_REQUEST);
            r.Some? ==> r.value.AuthRequestPkt? && r.value.req.challenge == p.challenge
  {
    hide Before, ReadString, ReadInt, EnterArray, EnterMap, EncodeHead, ReadHead, ReadAuthOptions, SetAuthOpts;
    var items := AuthRequestItems(p);
    EnterAnyArray(items);
    ReadIntAt(items, 0, [], PKT_AUTH_REQUEST);
    ChallengeIsShort(p);
    ReadStringAt(items, 1, [], 2, p.challenge);
    var c := Before(items, 2, []);
    if c.left != 0 && EnterMap(c).Some? {
      var (_, d) := EnterMap(c).value;
      var q := AuthRequest(p.challenge, None, 0, 0, None, None);
      if ReadAuthOptions(d, q).Some? {
        AuthOptionsKeepChallenge(d, q);
      }
    }
  }

  // ---------------------------------------------------------------- encodings inside ciphertexts

  lemma {:induction false} EncryptedDataRoundTrip(d: EncryptedData)
    requires |d.displayName| == 256 && |d.ticket| == 256
    ensures BuildInner(EncryptedDataItems(d)).Some?
    ensures ParseEncryptedData(BuildInner(EncryptedDataItems(d)).value) == Some(d)
  {
    hide Before, ReadString, ReadUInt, ReadInt, EnterArray, EnterMap;
    var items := EncryptedDataItems(d);
    assert items[1..] == [ByteStr(d.ticket)];
    assert EncodeAll([ByteStr(d.ticket)]) == Encode(ByteStr(d.ticket)) + EncodeAll([]);
    assert |EncodeAll(items)| == 518;
    assert |EncodeHead(4, 2)| == 1;
    EnterRootAt(items);
    ReadStringAt(items, 0, [], 2, d.displayName);
    ReadStringAt(items, 1, [], 2, d.ticket);
  }

  lemma {:induction false} DescriptorIntsFit(ds: seq<Descriptor>)
    requires DescriptorsReadable(ds)
    ensures AllIntsFit(DescriptorItems(ds))
  {
    forall k | 0 <= k < |ds| ensures IntsFit(DescriptorItems(ds)[k]) {
      assert DescriptorReadable(ds[k]);
    }
  }

  lemma {:induction false} ReadDescriptorArrayAt(items: seq<Item>, k: nat, tail: bytes, ds: seq<Descriptor>)
    requires k < |items| && items[k] == Array(DescriptorItems(ds)) && WellFormed(items[k])
    requires ds != [] && DescriptorsReadable(ds)
    ensures ReadDescriptorArray(Before(items, k, tail)) == Some((ds, Before(items, k + 1, tail)))
  {
    hide Before, ReadString, ReadUInt, ReadInt, EnterArray, EnterMap;
    EnterArrayAt(items, k, tail, DescriptorItems(ds));
    ReadDescriptorsAt(DescriptorItems(ds), ds, 0, Before(items, k + 1, tail).rest, []);
  }

  lemma {:induction false} RegSecretConsumed(s: RegSecret, tail: bytes)
    requires |s.userName| == 256 && |s.displayName| == 256 && |s.userId| == 64 && DescriptorsReadable(s.exclude)
    requires BuildInner(RegSecretItems(s)).Some?
    ensures ReadRegSecret(Cur(BuildInner(RegSecretItems(s)).value + tail, 1)) == Some((s, Cur(tail, 0)))
  {
    hide Before, ReadString, ReadUInt, ReadInt, EnterArray, EnterMap, EncodeHead;
    var items := RegSecretItems(s);
    DescriptorIntsFit(s.exclude);
    assert IntsFit(Array(DescriptorItems(s.exclude)));
    ShortAreWellFormed(items);
    EnterFollowedAt(items, tail);
    ReadStringAt(items, 0, tail, 2, s.userName);
    ReadStringAt(items, 1, tail, 2, s.displayName);
    ReadStringAt(items, 2, tail, 2, s.userId);
    if s.exclude != [] {
      ReadDescriptorArrayAt(items, 3, tail, s.exclude);
    }
  }

  /**
    For any number and length of excluded credential ids that fits the buffer. The container is consumed exactly: no
    item of it is left, and reading stops where the encoding ends, whatever follows.
   */
  lemma {:induction false} RegSecretRoundTrip(s: RegSecret)
    requires |s.userName| == 256 && |s.displayName| == 256 && |s.userId| == 64 && DescriptorsReadable(s.exclude)
    requires BuildInner(RegSecretItems(s)).Some?
    ensures ParseRegSecret(BuildInner(RegSecretItems(s)).value) == Some(s)
    ensures forall tail :: ReadRegSecret(Cur(BuildInner(RegSecretItems(s)).value + tail, 1)) == Some((s, Cur(tail, 0)))
  {
    hide BuildInner, ReadRegSecret, RegSecretItems;
    forall tail { RegSecretConsumed(s, tail); }
    var b := BuildInner(RegSecretItems(s)).value;
    assert b + [] == b;
  }

  lemma {:induction false} AllowListConsumed(ds: seq<Descriptor>, tail: bytes)
    requires DescriptorsReadable(ds) && BuildInner(DescriptorItems(ds)).Some?
    ensures ReadAllowList(Cur(BuildInner(DescriptorItems(ds)).value + tail, 1)) ==
            if ds == [] then None else Some((ds, Cur(tail, 0)))
  {
    hide Before, ReadString, ReadUInt, ReadInt, EnterArray, EnterMap, EncodeHead;
    DescriptorIntsFit(ds);
    ShortAreWellFormed(DescriptorItems(ds));
    EnterFollowedAt(DescriptorItems(ds), tail);
    ReadDescriptorsAt(DescriptorItems(ds), ds, 0, tail, []);
  }

  /** An empty list is refused; any other that fits is read back, and its container is consumed exactly. */
  lemma {:induction false} AllowListRoundTrip(ds: seq<Descriptor>)
    requires DescriptorsReadable(ds) && BuildInner(DescriptorItems(ds)).Some?
    ensures ParseAllowList(BuildInner(DescriptorItems(ds)).value) == if ds == [] then None else Some(ds)
    ensures forall tail :: ReadAllowList(Cur(BuildInner(DescriptorItems(ds)).value + tail, 1)) ==
                           if ds == [] then None else Some((ds, Cur(tail, 0)))
  {
    hide BuildInner, ReadAllowList, DescriptorItems;
    forall tail { AllowListConsumed(ds, tail); }
    var b := BuildInner(DescriptorItems(ds)).value;
    assert b + [] == b;
  }
}
