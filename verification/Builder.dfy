/** The builders of serialize.c, step by step over the bounded encoder. */
module Builder {
  import opened Bytes
  import opened Cbor
  import opened CborEncoder
  import opened Packets
  import opened OptionalMaps

  // ---------------------------------------------------------------- what has been written so far

  lemma {:induction false} WrittenOne(x: Item)
    ensures EncodeAll([x]) == Encode(x)
  {
    assert EncodeAll([x]) == Encode(x) + EncodeAll([]);
  }

  lemma {:induction false} WrittenPair(x: Item, y: Item)
    ensures EncodeAll([x, y]) == Encode(x) + Encode(y)
  {
    WrittenOne(y);
    assert [x, y][1..] == [y];
  }

  /** Writing element `k` of a list after the ones before it. */
  lemma {:induction false} WrittenNext(items: seq<Item>, k: nat)
    requires k < |items|
    ensures EncodeAll(items[..k + 1]) == EncodeAll(items[..k]) + Encode(items[k])
    ensures |EncodeAll(items[..k + 1])| <= |EncodeAll(items)|
  {
    assert items[..k + 1] == items[..k] + [items[k]];
    EncodeAllSnoc(items[..k], items[k]);
    assert items == items[..k + 1] + items[k + 1..];
    EncodeAllConcat(items[..k + 1], items[k + 1..]);
  }

  /** Whether `x` still fits behind what was written before. */
  predicate Fits(before: bytes, x: Item, size: nat) {
    |before| + |Encode(x)| <= size
  }

  // ---------------------------------------------------------------- arrays inside arrays

  method EncodeParam(e: Encoder, p: CredParam) returns (ok: bool)
    requires e.Valid()
    modifies e, e.buf
    ensures e.Valid() && ok == Fits(old(e.out), ParamItem(p), e.buf.Length)
    ensures e.out == old(e.out) + Encode(ParamItem(p))
    ensures e.remaining == Dec(old(e.remaining)) && e.outer == old(e.outer)
  {
    e.CreateArray(2);
    e.EncodeUInt(p.kind);
    e.EncodeInt(p.alg);
    WrittenPair(UInt(p.kind), IntItem(p.alg));
    hide Encode, EncodeHead, EncodeAll;
    EncodeArray([UInt(p.kind), IntItem(p.alg)]);
    assert e.out == old(e.out) + Encode(ParamItem(p));
    ok := e.Close();
  }

  lemma {:induction false} EncodeArray(items: seq<Item>)
    ensures Encode(Array(items)) == EncodeHead(4, |items|) + EncodeAll(items)
  {
  }

  lemma {:induction false} EncodeMap(items: seq<Item>)
    ensures Encode(Map(items)) == EncodeHead(5, |items| / 2) + EncodeAll(items)
  {
  }

  method EncodeDescriptor(e: Encoder, d: Descriptor) returns (ok: bool)
    requires e.Valid()
    modifies e, e.buf
    ensures e.Valid() && ok == Fits(old(e.out), DescriptorItem(d), e.buf.Length)
    ensures e.out == old(e.out) + Encode(DescriptorItem(d))
    ensures e.remaining == Dec(old(e.remaining)) && e.outer == old(e.outer)
  {
    e.CreateArray(2);
    e.EncodeUInt(d.kind);
    e.EncodeBytes(d.id);
    WrittenPair(UInt(d.kind), ByteStr(d.id));
    hide Encode, EncodeHead, EncodeAll;
    EncodeArray([UInt(d.kind), ByteStr(d.id)]);
    assert e.out == old(e.out) + Encode(DescriptorItem(d));
    ok := e.Close();
  }

  /** The parameters inside an array that has been opened. */
  method EncodeParamList(e: Encoder, ps: seq<CredParam>) returns (ok: bool)
    requires e.Valid() && e.remaining == |ps| + 1
    modifies e, e.buf
    ensures e.Valid()
    ensures ok ==> e.out == old(e.out) + EncodeAll(ParamItems(ps)) && e.remaining == 1 && e.outer == old(e.outer)
    ensures !ok ==> |old(e.out)| + |EncodeAll(ParamItems(ps))| > e.buf.Length
  {
    ghost var items := ParamItems(ps);
    assert EncodeAll(items[..0]) == [];
    hide Encode, EncodeHead, EncodeAll;
    for i := 0 to |ps|
      invariant e.Valid() && e.out == old(e.out) + EncodeAll(items[..i])
      invariant e.remaining == |ps| + 1 - i && e.outer == old(e.outer)
    {
      WrittenNext(items, i);
      ok := EncodeParam(e, ps[i]);
      if !ok { return; }
    }
    assert items[..|ps|] == items;
    ok := true;
  }

  method EncodeParams(e: Encoder, ps: seq<CredParam>) returns (ok: bool)
    requires e.Valid()
    modifies e, e.buf
    ensures e.Valid() && ok == Fits(old(e.out), Array(ParamItems(ps)), e.buf.Length)
    ensures ok ==> e.out == old(e.out) + Encode(Array(ParamItems(ps)))
    ensures ok ==> e.remaining == Dec(old(e.remaining)) && e.outer == old(e.outer)
  {
    EncodeArray(ParamItems(ps));
    hide Encode, EncodeHead, EncodeAll;
    e.CreateArray(|ps|);
    ok := EncodeParamList(e, ps);
    if ok {
      ok := e.Close();
    }
  }

  /** The descriptors inside an array that has been opened. */
  method EncodeDescriptors(e: Encoder, ds: seq<Descriptor>) returns (ok: bool)
    requires e.Valid() && e.remaining == |ds| + 1
    modifies e, e.buf
    ensures e.Valid()
    ensures ok ==> e.out == old(e.out) + EncodeAll(DescriptorItems(ds)) && e.remaining == 1 && e.outer == old(e.outer)
    ensures !ok ==> |old(e.out)| + |EncodeAll(DescriptorItems(ds))| > e.buf.Length
  {
    ghost var items := DescriptorItems(ds);
    assert EncodeAll(items[..0]) == [];
    hide Encode, EncodeHead, EncodeAll;
    for i := 0 to |ds|
      invariant e.Valid() && e.out == old(e.out) + EncodeAll(items[..i])
      invariant e.remaining == |ds| + 1 - i && e.outer == old(e.outer)
    {
      WrittenNext(items, i);
      ok := EncodeDescriptor(e, ds[i]);
      if !ok { return; }
    }
    assert items[..|ds|] == items;
    ok := true;
  }

  method EncodeDescriptorArray(e: Encoder, ds: seq<Descriptor>) returns (ok: bool)
    requires e.Valid()
    modifies e, e.buf
    ensures e.Valid() && ok == Fits(old(e.out), Array(DescriptorItems(ds)), e.buf.Length)
    ensures ok ==> e.out == old(e.out) + Encode(Array(DescriptorItems(ds)))
    ensures ok ==> e.remaining == Dec(old(e.remaining)) && e.outer == old(e.outer)
  {
    EncodeArray(DescriptorItems(ds));
    hide Encode, EncodeHead, EncodeAll;
    e.CreateArray(|ds|);
    ok := EncodeDescriptors(e, ds);
    if ok {
      ok := e.Close();
    }
  }

  method EncodeExtension(e: Encoder, x: Extension)
    requires e.Valid()
    modifies e, e.buf
    ensures e.Valid() && e.out == old(e.out) + (Encode(Text(x.id)) + Encode(ByteStr(x.data)))
    ensures e.remaining == Dec(Dec(old(e.remaining))) && e.outer == old(e.outer)
  {
    hide Encode, EncodeHead, EncodeAll;
    e.EncodeText(x.id);
    e.EncodeBytes(x.data);
  }

  /** The keys and values inside a map that has been opened. */
  method EncodeExtensionEntries(e: Encoder, es: seq<Extension>)
    requires e.Valid() && e.remaining == 2 * |es| + 1
    modifies e, e.buf
    ensures e.Valid() && e.out == old(e.out) + EncodeAll(ExtensionItems(es))
    ensures e.remaining == 1 && e.outer == old(e.outer)
  {
    assert EncodeAll(ExtensionItems(es[..0])) == [];
    hide Encode, EncodeHead, EncodeAll, ExtensionItems;
    for i := 0 to |es|
      invariant e.Valid() && e.out == old(e.out) + EncodeAll(ExtensionItems(es[..i]))
      invariant e.remaining == 2 * (|es| - i) + 1 && e.outer == old(e.outer)
    {
      NextExtension(es, i);
      EncodeExtension(e, es[i]);
    }
    assert es[..|es|] == es;
  }

  method EncodeExtensions(e: Encoder, es: seq<Extension>) returns (ok: bool)
    requires e.Valid()
    modifies e, e.buf
    ensures e.Valid() && ok == Fits(old(e.out), Map(ExtensionItems(es)), e.buf.Length)
    ensures e.out == old(e.out) + Encode(Map(ExtensionItems(es)))
    ensures e.remaining == Dec(old(e.remaining)) && e.outer == old(e.outer)
  {
    EncodeMap(ExtensionItems(es));
    hide Encode, EncodeHead, EncodeAll, ExtensionItems;
    e.CreateMap(|es|);
    EncodeExtensionEntries(e, es);
    assert e.out == old(e.out) + (EncodeHead(5, |es|) + EncodeAll(ExtensionItems(es)));
    ok := e.Close();
  }

  lemma {:induction false} NextExtension(es: seq<Extension>, i: nat)
    requires i < |es|
    ensures EncodeAll(ExtensionItems(es[..i + 1]))
            == EncodeAll(ExtensionItems(es[..i])) + (Encode(Text(es[i].id)) + Encode(ByteStr(es[i].data)))
  {
    var pair := [Text(es[i].id), ByteStr(es[i].data)];
    assert es[..i + 1] == es[..i] + [es[i]];
    ExtensionItemsConcat(es[..i], [es[i]]);
    assert ExtensionItems([es[i]]) == pair;
    EncodeAllConcat(ExtensionItems(es[..i]), pair);
    WrittenPair(pair[0], pair[1]);
  }

  // ---------------------------------------------------------------- optional maps

  method EncodeCriterion(e: Encoder, key: nat, value: nat)
    requires e.Valid() && e.remaining > 2 * |OneCriterion(key, value)|
    modifies e, e.buf
    ensures e.Valid() && e.out == old(e.out) + EncodeAll(CriterionItems(OneCriterion(key, value)))
    ensures e.remaining == old(e.remaining) - 2 * |OneCriterion(key, value)| && e.outer == old(e.outer)
  {
    if value != 0 {
      e.EncodeUInt(key);
      e.EncodeUInt(value);
      WrittenPair(UInt(key), UInt(value));
      assert CriterionItems(OneCriterion(key, value)) == [UInt(key), UInt(value)];
      hide Encode, EncodeAll, CriterionItems;
      assert e.out == old(e.out) + (Encode(UInt(key)) + Encode(UInt(value)));
    }
  }

  lemma {:induction false} CriteriaWritten(a: seq<Criterion>, r: seq<Criterion>, u: seq<Criterion>)
    ensures EncodeAll(CriterionItems(a + r + u))
            == EncodeAll(CriterionItems(a)) + EncodeAll(CriterionItems(r)) + EncodeAll(CriterionItems(u))
  {
    hide EncodeAll, CriterionItems;
    CriterionItemsConcat(a + r, u);
    CriterionItemsConcat(a, r);
    EncodeAllConcat(CriterionItems(a + r), CriterionItems(u));
    EncodeAllConcat(CriterionItems(a), CriterionItems(r));
  }

  method CountCriteria(sel: AuthSel) returns (n: nat)
    ensures n == |SetCriteria(sel)|
  {
    n := 0;
    if sel.attachment != 0 { n := n + 1; }
    if sel.residentKey != 0 { n := n + 1; }
    if sel.userVerification != 0 { n := n + 1; }
  }

  /** The criteria inside a map that has been opened; only those that are set are written. */
  method EncodeCriteria(e: Encoder, sel: AuthSel)
    requires e.Valid() && e.remaining == 2 * |SetCriteria(sel)| + 1
    modifies e, e.buf
    ensures e.Valid() && e.out == old(e.out) + EncodeAll(CriterionItems(SetCriteria(sel)))
    ensures e.remaining == 1 && e.outer == old(e.outer)
  {
    CriteriaWritten(OneCriterion(AUTH_ATTACH, sel.attachment), OneCriterion(RESIDENT_KEY, sel.residentKey),
                    OneCriterion(USER_VERIFICATION, sel.userVerification));
    hide Encode, EncodeAll, EncodeHead, CriterionItems, OneCriterion;
    EncodeCriterion(e, AUTH_ATTACH, sel.attachment);
    EncodeCriterion(e, RESIDENT_KEY, sel.residentKey);
    EncodeCriterion(e, USER_VERIFICATION, sel.userVerification);
  }

  method EncodeAuthSel(e: Encoder, sel: AuthSel) returns (ok: bool)
    requires e.Valid()
    modifies e, e.buf
    ensures e.Valid() && ok == Fits(old(e.out), Map(CriterionItems(SetCriteria(sel))), e.buf.Length)
    ensures e.out == old(e.out) + Encode(Map(CriterionItems(SetCriteria(sel))))
    ensures e.remaining == Dec(old(e.remaining)) && e.outer == old(e.outer)
  {
    EncodeMap(CriterionItems(SetCriteria(sel)));
    hide Encode, EncodeAll, EncodeHead, CriterionItems, SetCriteria;
    var n := CountCriteria(sel);
    e.CreateMap(n);
    EncodeCriteria(e, sel);
    ok := e.Close();
  }

  lemma {:induction false} RegOptWritten(o: RegOpt)
    ensures EncodeAll(RegOptItems([o])) == Encode(UInt(RegOptKey(o))) + Encode(RegOptValue(o))
    ensures EncodeAll(RegOptItems([])) == []
  {
    WrittenPair(UInt(RegOptKey(o)), RegOptValue(o));
    assert RegOptItems([o]) == [UInt(RegOptKey(o)), RegOptValue(o)];
  }

  lemma {:induction false} RegOptsWritten(xs: seq<RegOpt>, ys: seq<RegOpt>)
    ensures EncodeAll(RegOptItems(xs + ys)) == EncodeAll(RegOptItems(xs)) + EncodeAll(RegOptItems(ys))
  {
    RegOptItemsConcat(xs, ys);
    EncodeAllConcat(RegOptItems(xs), RegOptItems(ys));
  }

  /** An entry whose value is a number: the timeout or the attestation preference. */
  method EncodeNumberOpt(e: Encoder, o: RegOpt)
    requires e.Valid() && e.remaining > 2 && (o.Timeout? || o.Attest?)
    modifies e, e.buf
    ensures e.Valid() && e.out == old(e.out) + EncodeAll(RegOptItems([o]))
    ensures e.remaining == old(e.remaining) - 2 && e.outer == old(e.outer)
  {
    var n := if o.Timeout? then o.ms else o.preference;
    RegOptWritten(o);
    hide Encode, EncodeAll, RegOptItems;
    e.EncodeUInt(RegOptKey(o));
    e.EncodeUInt(n);
    assert e.out == old(e.out) + (Encode(UInt(RegOptKey(o))) + Encode(UInt(n)));
  }

  /** An entry whose value is a map: the selection criteria or the extensions. */
  method EncodeMapOpt(e: Encoder, o: RegOpt, sel: AuthSel) returns (ok: bool)
    requires e.Valid() && e.remaining > 2 && (o.Extend? || o == Select(SetCriteria(sel)))
    modifies e, e.buf
    ensures e.Valid() && e.out == old(e.out) + EncodeAll(RegOptItems([o]))
    ensures e.remaining == old(e.remaining) - 2 && e.outer == old(e.outer)
    ensures ok == (|e.out| <= e.buf.Length)
  {
    RegOptWritten(o);
    hide Encode, EncodeAll, RegOptItems, SetCriteria;
    e.EncodeUInt(RegOptKey(o));
    if o.Extend? {
      ok := EncodeExtensions(e, o.extensions);
    } else {
      ok := EncodeAuthSel(e, sel);
    }
    assert e.out == old(e.out) + (Encode(UInt(RegOptKey(o))) + Encode(RegOptValue(o)));
  }

  method CountRegOptions(p: RegRequest) returns (n: nat)
    ensures n == |SetRegOpts(p)|
  {
    n := 0;
    if p.timeout != 0 { n := n + 1; }
    if p.attestation != 0 { n := n + 1; }
    if p.extensions.Some? { n := n + 1; }
    if p.sel.attachment != 0 || p.sel.residentKey != 0 || p.sel.userVerification != 0 { n := n + 1; }
  }

  lemma {:induction false} AllRegOptsWritten(p: RegRequest)
    ensures EncodeAll(RegOptItems(SetRegOpts(p)))
            == EncodeAll(RegOptItems(TimeoutOpt(p))) + EncodeAll(RegOptItems(SelectOpt(p)))
               + EncodeAll(RegOptItems(AttestOpt(p))) + EncodeAll(RegOptItems(ExtendOpt(p)))
  {
    hide EncodeAll, RegOptItems, TimeoutOpt, SelectOpt, AttestOpt, ExtendOpt;
    RegOptsWritten(TimeoutOpt(p) + SelectOpt(p) + AttestOpt(p), ExtendOpt(p));
    RegOptsWritten(TimeoutOpt(p) + SelectOpt(p), AttestOpt(p));
    RegOptsWritten(TimeoutOpt(p), SelectOpt(p));
  }

  method EncodeTimeoutOpt(e: Encoder, p: RegRequest)
    requires e.Valid() && e.remaining > 2 * |TimeoutOpt(p)|
    modifies e, e.buf
    ensures e.Valid() && e.out == old(e.out) + EncodeAll(RegOptItems(TimeoutOpt(p)))
    ensures e.remaining == old(e.remaining) - 2 * |TimeoutOpt(p)| && e.outer == old(e.outer)
  {
    if p.timeout != 0 {
      EncodeNumberOpt(e, Timeout(p.timeout));
    }
  }

  method EncodeSelectOpt(e: Encoder, p: RegRequest) returns (ok: bool)
    requires e.Valid() && e.remaining > 2 * |SelectOpt(p)|
    modifies e, e.buf
    ensures e.Valid() && e.out == old(e.out) + EncodeAll(RegOptItems(SelectOpt(p)))
    ensures e.remaining == old(e.remaining) - 2 * |SelectOpt(p)| && e.outer == old(e.outer)
    ensures !ok ==> |e.out| > e.buf.Length
  {
    ok := true;
    if p.sel.attachment != 0 || p.sel.residentKey != 0 || p.sel.userVerification != 0 {
      ok := EncodeMapOpt(e, Select(SetCriteria(p.sel)), p.sel);
    }
  }

  method EncodeAttestOpt(e: Encoder, p: RegRequest)
    requires e.Valid() && e.remaining > 2 * |AttestOpt(p)|
    modifies e, e.buf
    ensures e.Valid() && e.out == old(e.out) + EncodeAll(RegOptItems(AttestOpt(p)))
    ensures e.remaining == old(e.remaining) - 2 * |AttestOpt(p)| && e.outer == old(e.outer)
  {
    if p.attestation != 0 {
      EncodeNumberOpt(e, Attest(p.attestation));
    }
  }

  method EncodeExtendOpt(e: Encoder, p: RegRequest) returns (ok: bool)
    requires e.Valid() && e.remaining > 2 * |ExtendOpt(p)|
    modifies e, e.buf
    ensures e.Valid() && e.out == old(e.out) + EncodeAll(RegOptItems(ExtendOpt(p)))
    ensures e.remaining == old(e.remaining) - 2 * |ExtendOpt(p)| && e.outer == old(e.outer)
    ensures !ok ==> |e.out| > e.buf.Length
  {
    ok := true;
    if p.extensions.Some? {
      ok := EncodeMapOpt(e, Extend(p.extensions.value), p.sel);
    }
  }

  /** The entries inside the optional map of a registration request. */
  method EncodeRegOptionEntries(e: Encoder, p: RegRequest) returns (ok: bool)
    requires e.Valid() && e.remaining == 2 * |SetRegOpts(p)| + 1
    modifies e, e.buf
    ensures e.Valid()
    ensures ok ==> e.out == old(e.out) + EncodeAll(RegOptItems(SetRegOpts(p))) && e.remaining == 1 && e.outer == old(e.outer)
    ensures !ok ==> |old(e.out)| + |EncodeAll(RegOptItems(SetRegOpts(p)))| > e.buf.Length
  {
    AllRegOptsWritten(p);
    hide EncodeAll, RegOptItems, TimeoutOpt, SelectOpt, AttestOpt, ExtendOpt;
    EncodeTimeoutOpt(e, p);
    ok := EncodeSelectOpt(e, p);
    if !ok { return; }
    EncodeAttestOpt(e, p);
    ok := EncodeExtendOpt(e, p);
  }

  method EncodeRegOptions(e: Encoder, p: RegRequest, n: nat) returns (ok: bool)
    requires e.Valid() && n == |SetRegOpts(p)|
    modifies e, e.buf
    ensures e.Valid() && ok == Fits(old(e.out), Map(RegOptItems(SetRegOpts(p))), e.buf.Length)
    ensures ok ==> e.out == old(e.out) + Encode(Map(RegOptItems(SetRegOpts(p))))
    ensures ok ==> e.remaining == Dec(old(e.remaining)) && e.outer == old(e.outer)
  {
    EncodeMap(RegOptItems(SetRegOpts(p)));
    hide Encode, EncodeAll, EncodeHead, RegOptItems, SetRegOpts;
    e.CreateMap(n);
    ok := EncodeRegOptionEntries(e, p);
    if ok {
      ok := e.Close();
    }
  }

  lemma {:induction false} AuthOptWritten(o: AuthOpt)
    ensures EncodeAll(AuthOptItems([o])) == Encode(IntItem(AuthOptKey(o))) + Encode(AuthOptValue(o))
    ensures EncodeAll(AuthOptItems([])) == []
  {
    WrittenPair(IntItem(AuthOptKey(o)), AuthOptValue(o));
    assert AuthOptItems([o]) == [IntItem(AuthOptKey(o)), AuthOptValue(o)];
  }

  lemma {:induction false} AuthOptsWritten(xs: seq<AuthOpt>, ys: seq<AuthOpt>)
    ensures EncodeAll(AuthOptItems(xs + ys)) == EncodeAll(AuthOptItems(xs)) + EncodeAll(AuthOptItems(ys))
  {
    AuthOptItemsConcat(xs, ys);
    EncodeAllConcat(AuthOptItems(xs), AuthOptItems(ys));
  }

  /** Key and value of one entry. */
  method EncodeAuthOpt(e: Encoder, o: AuthOpt) returns (ok: bool)
    requires e.Valid() && e.remaining > 2
    modifies e, e.buf
    ensures e.Valid() && e.out == old(e.out) + EncodeAll(AuthOptItems([o]))
    ensures e.remaining == old(e.remaining) - 2 && e.outer == old(e.outer)
    ensures !ok ==> |e.out| > e.buf.Length
  {
    AuthOptWritten(o);
    hide Encode, EncodeAll, AuthOptItems;
    e.EncodeInt(AuthOptKey(o));
    ok := true;
    match o {
      case AuthTimeout(ms) => e.EncodeInt(ms);
      case AuthRpId(rpId) => e.EncodeText(rpId);
      case AuthAllow(encrypted) => e.EncodeBytes(encrypted);
      case AuthVerification(uv) => e.EncodeInt(uv);
      case AuthExtend(es) => ok := EncodeExtensions(e, es);
    }
    assert e.out == old(e.out) + (Encode(IntItem(AuthOptKey(o))) + Encode(AuthOptValue(o)));
  }

  /** An entry that is written only when its field is set. */
  method EncodeAuthOpts(e: Encoder, os: seq<AuthOpt>) returns (ok: bool)
    requires e.Valid() && |os| <= 1 && e.remaining > 2 * |os|
    modifies e, e.buf
    ensures e.Valid() && e.out == old(e.out) + EncodeAll(AuthOptItems(os))
    ensures e.remaining == old(e.remaining) - 2 * |os| && e.outer == old(e.outer)
    ensures !ok ==> |e.out| > e.buf.Length
  {
    ok := true;
    if |os| == 1 {
      assert os == [os[0]];
      ok := EncodeAuthOpt(e, os[0]);
    } else {
      assert EncodeAll(AuthOptItems(os)) == [];
    }
  }

  /** The fields that are numbers or strings, and the two after them. */
  function FirstAuthOpts(p: AuthRequest): seq<AuthOpt> {
    AuthTimeoutOpt(p) + AuthRpIdOpt(p) + AuthAllowOpt(p)
  }

  function LastAuthOpts(p: AuthRequest): seq<AuthOpt> {
    AuthVerificationOpt(p) + AuthExtendOpt(p)
  }

  lemma {:induction false} AllAuthOptsWritten(p: AuthRequest)
    ensures SetAuthOpts(p) == FirstAuthOpts(p) + LastAuthOpts(p)
    ensures EncodeAll(AuthOptItems(SetAuthOpts(p)))
            == EncodeAll(AuthOptItems(FirstAuthOpts(p))) + EncodeAll(AuthOptItems(LastAuthOpts(p)))
  {
    assert SetAuthOpts(p) == FirstAuthOpts(p) + LastAuthOpts(p);
    hide EncodeAll, AuthOptItems;
    AuthOptsWritten(FirstAuthOpts(p), LastAuthOpts(p));
  }

  method CountAuthOptions(p: AuthRequest) returns (n: nat)
    ensures n == |SetAuthOpts(p)|
  {
    n := 0;
    if p.rpId.Some? { n := n + 1; }
    if p.userVerification != 0 { n := n + 1; }
    if p.timeout != 0 { n := n + 1; }
    if p.allow.Some? { n := n + 1; }
    if p.extensions.Some? { n := n + 1; }
  }

  method EncodeFirstAuthOpts(e: Encoder, p: AuthRequest)
    requires e.Valid() && e.remaining > 2 * |FirstAuthOpts(p)|
    modifies e, e.buf
    ensures e.Valid() && e.out == old(e.out) + EncodeAll(AuthOptItems(FirstAuthOpts(p)))
    ensures e.remaining == old(e.remaining) - 2 * |FirstAuthOpts(p)| && e.outer == old(e.outer)
  {
    ghost var t, r, a := AuthTimeoutOpt(p), AuthRpIdOpt(p), AuthAllowOpt(p);
    hide EncodeAll, AuthOptItems;
    AuthOptsWritten(t + r, a);
    AuthOptsWritten(t, r);
    var _ := EncodeAuthOpts(e, AuthTimeoutOpt(p));
    var _ := EncodeAuthOpts(e, AuthRpIdOpt(p));
    var _ := EncodeAuthOpts(e, AuthAllowOpt(p));
    assert e.out == old(e.out) + (EncodeAll(AuthOptItems(t)) + EncodeAll(AuthOptItems(r)) + EncodeAll(AuthOptItems(a)));
  }

  method EncodeLastAuthOpts(e: Encoder, p: AuthRequest) returns (ok: bool)
    requires e.Valid() && e.remaining > 2 * |LastAuthOpts(p)|
    modifies e, e.buf
    ensures e.Valid() && e.out == old(e.out) + EncodeAll(AuthOptItems(LastAuthOpts(p)))
    ensures e.remaining == old(e.remaining) - 2 * |LastAuthOpts(p)| && e.outer == old(e.outer)
    ensures !ok ==> |e.out| > e.buf.Length
  {
    hide EncodeAll, AuthOptItems;
    AuthOptsWritten(AuthVerificationOpt(p), AuthExtendOpt(p));
    var _ := EncodeAuthOpts(e, AuthVerificationOpt(p));
    ok := EncodeAuthOpts(e, AuthExtendOpt(p));
  }

  method EncodeAuthOptionEntries(e: Encoder, p: AuthRequest) returns (ok: bool)
    requires e.Valid() && e.remaining == 2 * |SetAuthOpts(p)| + 1
    modifies e, e.buf
    ensures e.Valid() && e.out == old(e.out) + EncodeAll(AuthOptItems(SetAuthOpts(p)))
    ensures e.remaining == 1 && e.outer == old(e.outer)
    ensures !ok ==> |e.out| > e.buf.Length
  {
    AllAuthOptsWritten(p);
    hide EncodeAll, AuthOptItems, FirstAuthOpts, LastAuthOpts, SetAuthOpts;
    EncodeFirstAuthOpts(e, p);
    ok := EncodeLastAuthOpts(e, p);
  }

  method EncodeAuthOptions(e: Encoder, p: AuthRequest, n: nat) returns (ok: bool)
    requires e.Valid() && n == |SetAuthOpts(p)|
    modifies e, e.buf
    ensures e.Valid() && ok == Fits(old(e.out), Map(AuthOptItems(SetAuthOpts(p))), e.buf.Length)
    ensures ok ==> e.out == old(e.out) + Encode(Map(AuthOptItems(SetAuthOpts(p))))
    ensures ok ==> e.remaining == Dec(old(e.remaining)) && e.outer == old(e.outer)
  {
    EncodeMap(AuthOptItems(SetAuthOpts(p)));
    hide Encode, EncodeAll, EncodeHead, AuthOptItems, SetAuthOpts;
    e.CreateMap(n);
    ok := EncodeAuthOptionEntries(e, p);
    if ok {
      ok := e.Close();
    }
  }

  /** A byte string with its key, unless it is empty. */
  function BytesOpt(key: nat, b: bytes): seq<Item> {
    if b != [] then [UInt(key), ByteStr(b)] else []
  }

  method EncodeBytesOpt(e: Encoder, key: nat, b: bytes)
    requires e.Valid() && e.remaining > |BytesOpt(key, b)|
    modifies e, e.buf
    ensures e.Valid() && e.out == old(e.out) + EncodeAll(BytesOpt(key, b))
    ensures e.remaining == old(e.remaining) - |BytesOpt(key, b)| && e.outer == old(e.outer)
  {
    if b != [] {
      WrittenPair(IntItem(key), ByteStr(b));
      hide Encode, EncodeAll;
      e.EncodeInt(key);
      e.EncodeBytes(b);
      assert e.out == old(e.out) + (Encode(IntItem(key)) + Encode(ByteStr(b)));
    }
  }

  lemma {:induction false} ResponseOptsWritten(p: AuthResponse)
    ensures |ResponseOptItems(p)| == |BytesOpt(USER_HANDLE, p.userHandle)| + |BytesOpt(CRED_ID, p.credId)|
    ensures EncodeAll(ResponseOptItems(p))
            == EncodeAll(BytesOpt(USER_HANDLE, p.userHandle)) + EncodeAll(BytesOpt(CRED_ID, p.credId))
  {
    EncodeAllConcat(BytesOpt(USER_HANDLE, p.userHandle), BytesOpt(CRED_ID, p.credId));
  }

  method EncodeResponseEntries(e: Encoder, p: AuthResponse)
    requires e.Valid() && e.remaining == |ResponseOptItems(p)| + 1
    modifies e, e.buf
    ensures e.Valid() && e.out == old(e.out) + EncodeAll(ResponseOptItems(p))
    ensures e.remaining == 1 && e.outer == old(e.outer)
  {
    ResponseOptsWritten(p);
    hide EncodeAll, ResponseOptItems, BytesOpt;
    EncodeBytesOpt(e, USER_HANDLE, p.userHandle);
    EncodeBytesOpt(e, CRED_ID, p.credId);
  }

  method EncodeResponseOptions(e: Encoder, p: AuthResponse) returns (ok: bool)
    requires e.Valid()
    modifies e, e.buf
    ensures e.Valid() && ok == Fits(old(e.out), Map(ResponseOptItems(p)), e.buf.Length)
    ensures ok ==> e.out == old(e.out) + Encode(Map(ResponseOptItems(p)))
    ensures ok ==> e.remaining == Dec(old(e.remaining)) && e.outer == old(e.outer)
  {
    var n := 0;
    if p.userHandle != [] { n := n + 1; }
    if p.credId != [] { n := n + 1; }
    assert |ResponseOptItems(p)| == 2 * n;
    EncodeMap(ResponseOptItems(p));
    hide Encode, EncodeAll, EncodeHead, ResponseOptItems;
    e.CreateMap(n);
    EncodeResponseEntries(e, p);
    ok := e.Close();
  }

  // ---------------------------------------------------------------- messages

  /** An encoder on which nothing has been written. */
  ghost predicate Fresh(e: Encoder)
    reads e, e.buf
  {
    e.Valid() && e.out == [] && e.outer == [] && e.remaining == 2
  }

  /** The encoder inside the outer array, which announced `n` items, after the first `k` of `items`. */
  ghost predicate Holds(e: Encoder, n: nat, items: seq<Item>, k: nat)
    reads e, e.buf
  {
    && k <= |items| <= n && e.Valid() && e.out == EncodeHead(4, n) + EncodeAll(items[..k])
    && e.remaining == n + 1 - k && |e.outer| == 1
  }

  /** What would have to be written does not fit. */
  ghost predicate TooLong(e: Encoder, n: nat, items: seq<Item>) {
    |EncodeHead(4, n)| + |EncodeAll(items)| > e.buf.Length
  }

  method Open(e: Encoder, n: nat, ghost items: seq<Item>)
    requires Fresh(e) && |items| <= n
    modifies e, e.buf
    ensures Holds(e, n, items, 0)
  {
    e.CreateArray(n);
  }

  method PutInt(e: Encoder, ghost n: nat, ghost items: seq<Item>, ghost k: nat, i: int)
    requires Holds(e, n, items, k) && k < |items| && items[k] == IntItem(i)
    modifies e, e.buf
    ensures Holds(e, n, items, k + 1)
  {
    WrittenNext(items, k);
    hide Encode, EncodeAll, EncodeHead;
    e.EncodeInt(i);
  }

  method PutBytes(e: Encoder, ghost n: nat, ghost items: seq<Item>, ghost k: nat, b: bytes)
    requires Holds(e, n, items, k) && k < |items| && items[k] == ByteStr(b)
    modifies e, e.buf
    ensures Holds(e, n, items, k + 1)
  {
    WrittenNext(items, k);
    hide Encode, EncodeAll, EncodeHead;
    e.EncodeBytes(b);
  }

  method PutText(e: Encoder, ghost n: nat, ghost items: seq<Item>, ghost k: nat, t: bytes)
    requires Holds(e, n, items, k) && k < |items| && items[k] == Text(t)
    modifies e, e.buf
    ensures Holds(e, n, items, k + 1)
  {
    WrittenNext(items, k);
    hide Encode, EncodeAll, EncodeHead;
    e.EncodeText(t);
  }

  /** An element that may turn out not to fit: a list, or a map of optional fields. */
  method PutParams(e: Encoder, ghost n: nat, ghost items: seq<Item>, ghost k: nat, ps: seq<CredParam>) returns (ok: bool)
    requires Holds(e, n, items, k) && k < |items| && items[k] == Array(ParamItems(ps))
    modifies e, e.buf
    ensures if ok then Holds(e, n, items, k + 1) else TooLong(e, n, items)
  {
    WrittenNext(items, k);
    hide Encode, EncodeAll, EncodeHead;
    ok := EncodeParams(e, ps);
  }

  method PutDescriptors(e: Encoder, ghost n: nat, ghost items: seq<Item>, ghost k: nat, ds: seq<Descriptor>)
    returns (ok: bool)
    requires Holds(e, n, items, k) && k < |items| && items[k] == Array(DescriptorItems(ds))
    modifies e, e.buf
    ensures if ok then Holds(e, n, items, k + 1) else TooLong(e, n, items)
  {
    WrittenNext(items, k);
    hide Encode, EncodeAll, EncodeHead;
    ok := EncodeDescriptorArray(e, ds);
  }

  method PutRegOptions(e: Encoder, ghost n: nat, ghost items: seq<Item>, ghost k: nat, p: RegRequest, count: nat)
    returns (ok: bool)
    requires Holds(e, n, items, k) && k < |items| && items[k] == Map(RegOptItems(SetRegOpts(p)))
    requires count == |SetRegOpts(p)|
    modifies e, e.buf
    ensures if ok then Holds(e, n, items, k + 1) else TooLong(e, n, items)
  {
    WrittenNext(items, k);
    hide Encode, EncodeAll, EncodeHead;
    ok := EncodeRegOptions(e, p, count);
  }

  method PutAuthOptions(e: Encoder, ghost n: nat, ghost items: seq<Item>, ghost k: nat, p: AuthRequest, count: nat)
    returns (ok: bool)
    requires Holds(e, n, items, k) && k < |items| && items[k] == Map(AuthOptItems(SetAuthOpts(p)))
    requires count == |SetAuthOpts(p)|
    modifies e, e.buf
    ensures if ok then Holds(e, n, items, k + 1) else TooLong(e, n, items)
  {
    WrittenNext(items, k);
    hide Encode, EncodeAll, EncodeHead;
    ok := EncodeAuthOptions(e, p, count);
  }

  method PutResponseOptions(e: Encoder, ghost n: nat, ghost items: seq<Item>, ghost k: nat, p: AuthResponse)
    returns (ok: bool)
    requires Holds(e, n, items, k) && k < |items| && items[k] == Map(ResponseOptItems(p))
    modifies e, e.buf
    ensures if ok then Holds(e, n, items, k + 1) else TooLong(e, n, items)
  {
    WrittenNext(items, k);
    hide Encode, EncodeAll, EncodeHead;
    ok := EncodeResponseOptions(e, p);
  }

  method BuildTwoBytes(e: Encoder, t: int, x: bytes, y: bytes, ghost items: seq<Item>)
    requires Fresh(e) && items == [IntItem(t), ByteStr(x), ByteStr(y)]
    modifies e, e.buf
    ensures Holds(e, 3, items, 3)
  {
    hide Encode, EncodeAll, EncodeHead, Holds, Fresh;
    Open(e, 3, items);
    PutInt(e, 3, items, 0, t);
    PutBytes(e, 3, items, 1, x);
    PutBytes(e, 3, items, 2, y);
  }

  /** The six fields every registration request has. */
  method BuildRegRequired(e: Encoder, n: nat, p: RegRequest, ghost items: seq<Item>) returns (ok: bool)
    requires Fresh(e) && 6 <= |items| <= n
    requires items[0] == IntItem(PKT_REG_REQUEST) && items[1] == Text(p.rpId) && items[2] == Text(p.rpName)
    requires items[3] == ByteStr(p.challenge) && items[4] == Array(ParamItems(p.params)) && items[5] == ByteStr(p.encrypted)
    modifies e, e.buf
    ensures if ok then Holds(e, n, items, 6) else TooLong(e, n, items)
  {
    hide Encode, EncodeAll, EncodeHead, Holds, Fresh, TooLong, ParamItems;
    Open(e, n, items);
    PutInt(e, n, items, 0, PKT_REG_REQUEST);
    PutText(e, n, items, 1, p.rpId);
    PutText(e, n, items, 2, p.rpName);
    PutBytes(e, n, items, 3, p.challenge);
    ok := PutParams(e, n, items, 4, p.params);
    if ok {
      PutBytes(e, n, items, 5, p.encrypted);
    }
  }

  method BuildRegRequest(e: Encoder, p: RegRequest) returns (ok: bool)
    requires Fresh(e)
    modifies e, e.buf
    ensures var n, items := Declared(RegRequestPkt(p)), RegRequestItems(p);
            if ok then Holds(e, n, items, |items|) else TooLong(e, n, items)
  {
    ghost var items := RegRequestItems(p);
    var count := CountRegOptions(p);
    var n := if count > 0 then 7 else 6;
    assert |items| == n && (count > 0 ==> items[6] == Map(RegOptItems(SetRegOpts(p))));
    hide Encode, EncodeAll, EncodeHead, Holds, Fresh, TooLong, SetRegOpts, RegOptItems;
    ok := BuildRegRequired(e, n, p, items);
    if ok && count > 0 {
      ok := PutRegOptions(e, n, items, 6, p, count);
    }
  }

  method BuildRegResponse(e: Encoder, attObj: bytes, clientData: bytes, ghost items: seq<Item>)
    requires Fresh(e) && items == [UInt(PKT_REG_RESPONSE), ByteStr(attObj), Text(clientData)]
    modifies e, e.buf
    ensures Holds(e, 3, items, 3)
  {
    hide Encode, EncodeAll, EncodeHead, Holds, Fresh;
    Open(e, 3, items);
    PutInt(e, 3, items, 0, PKT_REG_RESPONSE);
    PutBytes(e, 3, items, 1, attObj);
    PutText(e, 3, items, 2, clientData);
  }

  method BuildAuthRequest(e: Encoder, p: AuthRequest) returns (ok: bool)
    requires Fresh(e)
    modifies e, e.buf
    ensures var n, items := Declared(AuthRequestPkt(p)), AuthRequestItems(p);
            if ok then Holds(e, n, items, |items|) else TooLong(e, n, items)
  {
    ghost var items := AuthRequestItems(p);
    var count := CountAuthOptions(p);
    var n := if count > 0 then 3 else 2;
    assert |items| == n && (count > 0 ==> items[2] == Map(AuthOptItems(SetAuthOpts(p))));
    hide Encode, EncodeAll, EncodeHead, Holds, Fresh, SetAuthOpts, AuthOptItems;
    Open(e, n, items);
    PutInt(e, n, items, 0, PKT_AUTH_REQUEST);
    PutBytes(e, n, items, 1, p.challenge);
    ok := true;
    if count > 0 {
      ok := PutAuthOptions(e, n, items, 2, p, count);
    }
  }

  /** Five items are announced whether or not there is a map of optional fields. */
  method BuildAuthResponse(e: Encoder, p: AuthResponse) returns (ok: bool)
    requires Fresh(e)
    modifies e, e.buf
    ensures var items := AuthResponseItems(p); if ok then Holds(e, 5, items, |items|) else TooLong(e, 5, items)
  {
    ghost var items := AuthResponseItems(p);
    assert ResponseOptItems(p) == [] <==> p.userHandle == [] && p.credId == [];
    hide Encode, EncodeAll, EncodeHead, Holds, Fresh, ResponseOptItems;
    Open(e, 5, items);
    PutInt(e, 5, items, 0, PKT_AUTH_RESPONSE);
    PutText(e, 5, items, 1, p.clientData);
    PutBytes(e, 5, items, 2, p.authData);
    PutBytes(e, 5, items, 3, p.signature);
    ok := true;
    if p.userHandle != [] || p.credId != [] {
      ok := PutResponseOptions(e, 5, items, 4, p);
    }
  }

  /** Closes the outer array; refused for a wrong item count or an overflow. */
  method Finish(e: Encoder, ghost n: nat, ghost items: seq<Item>) returns (r: Option<bytes>)
    requires Holds(e, n, items, |items|)
    modifies e, e.buf
    ensures r == if n == |items| && |Encode(Array(items))| <= e.buf.Length then Some(Encode(Array(items))) else None
  {
    assert items[..|items|] == items;
    EncodeArray(items);
    hide Encode, EncodeAll, EncodeHead;
    var ok := e.Close();
    if !ok { return None; }
    var b := e.Take();
    r := Some(b);
  }

  /** `cbor_build`. */
  method CborBuild(p: Packet) returns (r: Option<bytes>)
    requires BuildAsserts(p)
    ensures r == Build(p)
  {
    hide EncodeAll, EncodeHead, Holds, RegRequestItems, AuthRequestItems, AuthResponseItems;
    var e := new Encoder(BUF_SIZE);
    var ok := true;
    match p {
      case PreIndication =>
        Open(e, 1, PacketItems(p));
        PutInt(e, 1, PacketItems(p), 0, PKT_PRE_INDICATION);
      case PreResponse(eph, key) =>
        if |eph| != 256 || |key| != 32 { return None; }
        BuildTwoBytes(e, PKT_PRE_RESPONSE, eph, key, PacketItems(p));
      case RegIndication(eph, encrypted) =>
        BuildTwoBytes(e, PKT_REG_INDICATION, eph, encrypted, PacketItems(p));
      case RegRequestPkt(reg) =>
        ok := BuildRegRequest(e, reg);
      case RegResponse(attObj, clientData) =>
        BuildRegResponse(e, attObj, clientData, PacketItems(p));
      case AuthIndicationDiscoverable =>
        Open(e, 1, PacketItems(p));
        PutInt(e, 1, PacketItems(p), 0, PKT_AUTH_INDICATION_DISCOVERABLE);
      case AuthIndicationServerSide(eph, encrypted) =>
        BuildTwoBytes(e, PKT_AUTH_INDICATION_SERVER_SIDE, eph, encrypted, PacketItems(p));
      case AuthRequestPkt(req) =>
        ok := BuildAuthRequest(e, req);
      case AuthResponsePkt(resp) =>
        ok := BuildAuthResponse(e, resp);
    }
    if !ok {
      return None;
    }
    r := Finish(e, Declared(p), PacketItems(p));
  }

  method CborBuildEncryptedData(d: EncryptedData) returns (r: Option<bytes>)
    requires |d.displayName| == 256 && |d.ticket| == 256
    ensures r == BuildInner(EncryptedDataItems(d))
  {
    ghost var items := EncryptedDataItems(d);
    hide Encode, EncodeAll, EncodeHead, Holds;
    var e := new Encoder(ENC_DATA_BUF_SIZE);
    Open(e, 2, items);
    PutBytes(e, 2, items, 0, d.displayName);
    PutBytes(e, 2, items, 1, d.ticket);
    r := Finish(e, 2, items);
  }

  method CborBuildRegSecret(s: RegSecret) returns (r: Option<bytes>)
    requires |s.userName| == 256 && |s.displayName| == 256 && |s.userId| == 64
    ensures r == BuildInner(RegSecretItems(s))
  {
    ghost var items := RegSecretItems(s);
    EncodeArray(items);
    hide Encode, EncodeAll, EncodeHead, Holds;
    var n := if s.exclude != [] then 4 else 3;
    var e := new Encoder(ENC_DATA_BUF_SIZE);
    Open(e, n, items);
    PutBytes(e, n, items, 0, s.userName);
    PutBytes(e, n, items, 1, s.displayName);
    PutBytes(e, n, items, 2, s.userId);
    if s.exclude != [] {
      var ok := PutDescriptors(e, n, items, 3, s.exclude);
      if !ok { return None; }
    }
    r := Finish(e, n, items);
  }

  method CborBuildAllowList(ds: seq<Descriptor>) returns (r: Option<bytes>)
    ensures r == BuildInner(DescriptorItems(ds))
  {
    ghost var items := DescriptorItems(ds);
    EncodeArray(items);
    var e := new Encoder(ENC_DATA_BUF_SIZE);
    Open(e, |ds|, items);
    hide Encode, EncodeAll, EncodeHead;
    var ok := EncodeDescriptors(e, ds);
    if !ok { return None; }
    assert items[..|ds|] == items;
    r := Finish(e, |ds|, items);
  }
}
