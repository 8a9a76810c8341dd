/** What a parser can return at all, whatever bytes it is given. */
module ParserLimits {
  import opened Bytes
  import opened Cbor
  import opened Packets
  import opened RoundTrip

  predicate ParamsWithin(ps: seq<CredParam>) {
    forall p <- ps :: p.kind == 1 && -0x8000_0000 <= p.alg <= 0x7fff_ffff
  }

  predicate ExtensionsWithin(es: seq<Extension>) {
    forall e <- es :: 1 <= |e.id| <= 256 && 1 <= |e.data| <= 4096
  }

  predicate NoneOrWithin(es: Option<seq<Extension>>) {
    es.Some? ==> es.value != [] && ExtensionsWithin(es.value)
  }

  predicate DescriptorsWithin(ds: seq<Descriptor>) {
    forall d <- ds :: d.kind == 1 && d.id != []
  }

  predicate SelectionWithin(sel: AuthSel) {
    sel.attachment <= 2 && 1 <= sel.residentKey <= 3 && 1 <= sel.userVerification <= 3
  }

  predicate RegRequestWithin(p: RegRequest) {
    && NulFree(p.rpId) && |p.rpId| <= 256 && NulFree(p.rpName) && |p.rpName| <= 256
    && 16 <= |p.challenge| <= 64 && p.params != [] && ParamsWithin(p.params)
    && p.timeout < 0x1_0000_0000 && SelectionWithin(p.sel) && 1 <= p.attestation <= 4 && NoneOrWithin(p.extensions)
  }

  predicate CInt(i: int) {
    -0x8000_0000 <= i <= 0x7fff_ffff
  }

  predicate AuthRequestWithin(p: AuthRequest) {
    && CInt(p.timeout) && CInt(p.userVerification) && (p.rpId.Some? ==> NulFree(p.rpId.value))
    && p.allow != Some([]) && NoneOrWithin(p.extensions)
  }

  /** The limits on the fields of a packet that was read. */
  predicate Within(p: Packet) {
    match p
    case PreIndication => true
    case PreResponse(eph, key) => |eph| == 256 && |key| == 32
    case RegIndication(eph, encrypted) => |eph| == 256
    case RegRequestPkt(reg) => RegRequestWithin(reg)
    case RegResponse(attObj, clientData) => 1 <= |attObj| <= 8192 && 1 <= |clientData| <= 2048
    case AuthIndicationDiscoverable => true
    case AuthIndicationServerSide(eph, encrypted) => |eph| == 256
    case AuthRequestPkt(req) => AuthRequestWithin(req)
    case AuthResponsePkt(resp) => true
  }

  lemma {:induction false} ParamsRead(c: Cur, n: nat, acc: seq<CredParam>)
    requires ReadParams(c, n, acc).Some? && ParamsWithin(acc)
    ensures ParamsWithin(ReadParams(c, n, acc).value.0) && |ReadParams(c, n, acc).value.0| == |acc| + n
    decreases n
  {
    hide EnterArray, ReadUInt, ReadInt;
    if n > 0 {
      var (p, d) := ReadParam(c).value;
      ParamsRead(d, n - 1, acc + [p]);
    }
  }

  lemma {:induction false} DescriptorsRead(c: Cur, n: nat, acc: seq<Descriptor>)
    requires ReadDescriptors(c, n, acc).Some? && DescriptorsWithin(acc)
    ensures DescriptorsWithin(ReadDescriptors(c, n, acc).value.0) && |ReadDescriptors(c, n, acc).value.0| == |acc| + n
    decreases n
  {
    hide EnterArray, ReadUInt, ReadBytes;
    if n > 0 {
      var (p, d) := ReadDescriptor(c).value;
      DescriptorsRead(d, n - 1, acc + [p]);
    }
  }

  lemma {:induction false} EntriesRead(c: Cur, n: nat, acc: seq<Extension>)
    requires ReadExtensionEntries(c, n, acc).Some? && ExtensionsWithin(acc)
    ensures ExtensionsWithin(ReadExtensionEntries(c, n, acc).value.0)
    decreases n
  {
    hide ReadText, ReadBytes;
    if n > 0 {
      var (id, d) := ReadText(c).value;
      var (data, e) := ReadBytes(d).value;
      EntriesRead(e, n - 1, acc + [Extension(id, data)]);
    }
  }

  lemma {:induction false} ExtensionsRead(c: Cur)
    requires ReadExtensions(c).Some?
    ensures NoneOrWithin(ReadExtensions(c).value.0)
  {
    hide EnterMap;
    var (n, d) := EnterMap(c).value;
    EntriesRead(d, n, []);
  }

  lemma {:induction false} CriteriaRead(c: Cur, sel: AuthSel)
    requires ReadCriteria(c, sel).Some? && SelectionWithin(sel)
    ensures SelectionWithin(ReadCriteria(c, sel).value.0)
    decreases c.left
  {
    hide ReadUInt;
    if c.left > 0 {
      var (key, d) := ReadUInt(c).value;
      var (value, e) := ReadUInt(d).value;
      CriteriaRead(e, ApplyCriterion(sel, Criterion(key, value)));
    }
  }

  lemma {:induction false} RegOptionsRead(c: Cur, p: RegRequest)
    requires ReadRegOptions(c, p).Some? && RegRequestWithin(p)
    ensures RegRequestWithin(ReadRegOptions(c, p).value.0)
    decreases c.left
  {
    hide ReadUInt, EnterMap, ReadCriteria, ReadExtensions, Advance, ParamsWithin, NulFree, NoneOrWithin;
    if c.left > 0 {
      var (key, d) := ReadUInt(c).value;
      if key == TIMEOUT {
        var (ms, d) := ReadUInt(d).value;
        RegOptionsRead(d, p.(timeout := ms % TWO32));
      } else if key == AUTH_SEL {
        var (_, e) := EnterMap(d).value;
        CriteriaRead(e, p.sel);
        var (sel, f) := ReadCriteria(e, p.sel).value;
        RegOptionsRead(Leave(d, f), p.(sel := sel));
      } else if key == ATTESTATION {
        var (preference, d) := ReadUInt(d).value;
        RegOptionsRead(d, p.(attestation := preference));
      } else if key == EXTENSIONS {
        ExtensionsRead(d);
        var (es, d) := ReadExtensions(d).value;
        RegOptionsRead(d, p.(extensions := es));
      } else {
        RegOptionsRead(Advance(d).value, p);
      }
    }
  }

  lemma {:induction false} RequiredRead(c: Cur)
    requires ReadRegRequired(c).Some?
    ensures RegRequestWithin(ReadRegRequired(c).value.0)
  {
    hide ReadString, ReadParams, CStr, EnterArray, ParamsWithin;
    var c1 := ReadText(c).value.1;
    var c2 := ReadText(c1).value.1;
    var c3 := ReadBytes(c2).value.1;
    var (n, d) := EnterArray(c3).value;
    NoParams();
    ParamsRead(d, n, []);
    hide ReadText, ReadBytes;
  }

  lemma {:induction false} NoParams()
    ensures ParamsWithin([])
  {
  }

  lemma {:induction false} RegRequestRead(c: Cur, n: nat)
    requires ReadRegRequest(c, n).Some?
    ensures RegRequestWithin(ReadRegRequest(c, n).value)
  {
    hide ReadRegRequired, ReadRegOptions, EnterMap, RegRequestWithin;
    RequiredRead(c);
    var (p, c1) := ReadRegRequired(c).value;
    if n == 7 {
      var (_, d) := EnterMap(c1).value;
      RegOptionsRead(d, p);
    }
  }

  lemma {:induction false} AuthOptionsRead(c: Cur, p: AuthRequest)
    requires ReadAuthOptions(c, p).Some? && AuthRequestWithin(p)
    ensures AuthRequestWithin(ReadAuthOptions(c, p).value.0)
    decreases c.left
  {
    hide ReadInt, ReadText, ReadBytes, ReadExtensions, CStr, NoneOrWithin;
    if c.left > 0 {
      var (key, d) := ReadInt(c).value;
      if key == TIMEOUT {
        var (ms, d) := ReadInt(d).value;
        AuthOptionsRead(d, p.(timeout := ms));
      } else if key == RPID {
        var (rpId, d) := ReadText(d).value;
        AuthOptionsRead(d, p.(rpId := Some(CStr(rpId))));
      } else if key == USER_VERIFICATION_AUTH_REQ {
        var (uv, d) := ReadInt(d).value;
        AuthOptionsRead(d, p.(userVerification := uv));
      } else if key == ALLOW_CREDS {
        var (encrypted, d) := ReadBytes(d).value;
        AuthOptionsRead(d, p.(allow := if encrypted == [] then None else Some(encrypted)));
      } else if key == EXTENSIONS {
        ExtensionsRead(d);
        var (es, d) := ReadExtensions(d).value;
        AuthOptionsRead(d, p.(extensions := es));
      } else {
        AuthOptionsRead(d, p);
      }
    }
  }

  lemma {:induction false} AuthRequestRead(c: Cur)
    requires ReadAuthRequest(c).Some?
    ensures AuthRequestWithin(ReadAuthRequest(c).value)
  {
    hide ReadBytes, ReadAuthOptions, EnterMap;
    var (challenge, c1) := ReadBytes(c).value;
    var p := AuthRequest(challenge, None, 0, 0, None, None);
    if c1.left > 0 {
      AuthOptionsRead(EnterMap(c1).value.1, p);
    }
  }

  /** Whatever the bytes, a packet that is read is within the limits, and it is of the expected type. */
  lemma {:induction false} ParsedWithin(input: bytes, expected: int)
    ensures var r := Parse(input, expected);
            r.Some? ==> Within(r.value) && (expected == 0 || TypeOf(r.value) == expected)
  {
    hide ReadType, ReadRegRequest, ReadAuthRequest, ReadAuthResponse, ReadBytes, ReadText, RegRequestWithin, AuthRequestWithin;
    if Parse(input, expected).Some? {
      var (t, n, c) := ReadType(input).value;
      if t == PKT_REG_REQUEST {
        RegRequestRead(c, n);
      } else if t == PKT_AUTH_REQUEST {
        AuthRequestRead(c);
      }
    }
  }

  /** The plaintexts: names and tickets of 256 bytes, user ids of 64 bytes, and descriptors of public keys with an id. */
  lemma {:induction false} SecretsWithin(input: bytes)
    ensures var d := ParseEncryptedData(input); d.Some? ==> |d.value.displayName| == 256 && |d.value.ticket| == 256
    ensures var s := ParseRegSecret(input);
            s.Some? ==> |s.value.userName| == 256 && |s.value.displayName| == 256 && |s.value.userId| == 64
                        && DescriptorsWithin(s.value.exclude)
    ensures var ds := ParseAllowList(input); ds.Some? ==> ds.value != [] && DescriptorsWithin(ds.value)
  {
    hide ReadBytes, EnterArray, ReadDescriptors;
    SecretListsRead(input);
  }

  lemma {:induction false} SecretListsRead(input: bytes)
    ensures ParseRegSecret(input).Some? ==> DescriptorsWithin(ParseRegSecret(input).value.exclude)
    ensures ParseAllowList(input).Some? ==> ParseAllowList(input).value != [] && DescriptorsWithin(ParseAllowList(input).value)
  {
    hide ReadBytes, EnterArray;
    var root := EnterArray(Cur(input, 1));
    if ParseAllowList(input).Some? {
      DescriptorsRead(root.value.1, root.value.0, []);
    }
    if ParseRegSecret(input).Some? && root.value.0 == 4 {
      var c := ReadBytes(ReadBytes(ReadBytes(root.value.1).value.1).value.1).value.1;
      var inner := EnterArray(c).value;
      DescriptorsRead(inner.1, inner.0, []);
    }
  }

  // ---------------------------------------------------------------- messages outside the limits

  lemma {:induction false} ShortItem(items: seq<Item>, k: nat)
    requires k < |items|
    ensures |Encode(items[k])| <= |EncodeAll(items)|
  {
    hide Encode;
    if k > 0 {
      ShortItem(items[1..], k - 1);
    }
  }

  /** The first fields of a registration request as they are found in its encoding. */
  lemma {:induction false} RegRequestStart(p: RegRequest)
    requires Build(RegRequestPkt(p)).Some?
    ensures var items := PacketItems(RegRequestPkt(p));
            && |items| in {6, 7} && ReadType(Wire(RegRequestPkt(p))) == Some((4, |items|, Before(items, 1, [])))
            && ReadText(Before(items, 1, [])) == Some((p.rpId, Before(items, 2, [])))
            && ReadText(Before(items, 2, [])) == Some((p.rpName, Before(items, 3, [])))
            && ReadBytes(Before(items, 3, [])) == Some((p.challenge, Before(items, 4, [])))
  {
    hide Before, ReadString, ReadInt, EnterArray, EncodeHead, SetRegOpts, ParamItems;
    var items := RegRequestItems(p);
    ShortItem(items, 1);
    ShortItem(items, 2);
    ShortItem(items, 3);
    EnterAnyArray(items);
    ReadIntAt(items, 0, [], 4);
    ReadStringAt(items, 1, [], 3, p.rpId);
    ReadStringAt(items, 2, [], 3, p.rpName);
    ReadStringAt(items, 3, [], 2, p.challenge);
  }

  /** A registration request is refused if a name is empty or too long, or the challenge has the wrong length. */
  lemma {:induction false} RegRequestOutside(p: RegRequest)
    requires Build(RegRequestPkt(p)).Some?
    requires !(1 <= |p.rpId| <= 256 && 1 <= |p.rpName| <= 256 && 16 <= |p.challenge| <= 64)
    ensures Parse(Build(RegRequestPkt(p)).value, 4) == None
  {
    hide Before, ReadString, ReadText, ReadBytes, ReadParamArray, ReadRegOptions, EnterMap, ReadType;
    RegRequestStart(p);
  }

  /** A registration response is refused if attestation or client data are empty or too long. */
  lemma {:induction false} RegResponseOutside(attObj: bytes, clientData: bytes)
    requires Build(RegResponse(attObj, clientData)).Some? && !(1 <= |attObj| <= 8192 && 1 <= |clientData| <= 2048)
    ensures Parse(Build(RegResponse(attObj, clientData)).value, 5) == None
  {
    hide Before, ReadString, ReadInt, EnterArray, EncodeHead;
    var items := PacketItems(RegResponse(attObj, clientData));
    ShortItem(items, 1);
    ShortItem(items, 2);
    EnterAnyArray(items);
    ReadIntAt(items, 0, [], 5);
    ReadStringAt(items, 1, [], 2, attObj);
    ReadStringAt(items, 2, [], 3, clientData);
  }
}
