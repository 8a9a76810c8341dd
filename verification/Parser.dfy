/** The parsers of serialize.c, step by step over cursors that advance in place. */
module Parser {
  import opened Bytes
  import opened Cbor
  import opened CborParser
  import opened Packets

  method ParseParam(it: CborValue) returns (r: Option<CredParam>)
    modifies it
    ensures ReadParam(old(it.View())) == if r.Some? then Some((r.value, it.View())) else None
  {
    var _, sub :- it.EnterArray();
    var kind :- sub.TakeUInt();
    if kind != PUBLIC_KEY { return None; }
    var alg :- sub.TakeInt();
    if sub.left != 0 { return None; }
    it.Leave(sub);
    return Some(CredParam(kind, alg));
  }

  method ParseParamArray(it: CborValue) returns (r: Option<seq<CredParam>>)
    modifies it
    ensures ReadParamArray(old(it.View())) == if r.Some? then Some((r.value, it.View())) else None
  {
    hide Cbor.EnterArray;
    var n, sub :- it.EnterArray();
    if n < 1 { return None; }
    var params: seq<CredParam> := [];
    ghost var start := sub.View();
    for i := 0 to n
      invariant it.View() == old(it.View())
      invariant ReadParams(start, n, []) == ReadParams(sub.View(), n - i, params)
    {
      var p :- ParseParam(sub);
      params := params + [p];
    }
    if sub.left != 0 { return None; }
    it.Leave(sub);
    return Some(params);
  }

  method ParseDescriptor(it: CborValue) returns (r: Option<Descriptor>)
    modifies it
    ensures ReadDescriptor(old(it.View())) == if r.Some? then Some((r.value, it.View())) else None
  {
    var _, sub :- it.EnterArray();
    var kind :- sub.TakeUInt();
    if kind != PUBLIC_KEY { return None; }
    var id :- sub.TakeBytes();
    if id == [] || sub.left != 0 { return None; }
    it.Leave(sub);
    return Some(Descriptor(kind, id));
  }

  method ParseDescriptors(it: CborValue, n: nat) returns (r: Option<seq<Descriptor>>)
    modifies it
    ensures ReadDescriptors(old(it.View()), n, []) == if r.Some? then Some((r.value, it.View())) else None
  {
    var ds: seq<Descriptor> := [];
    for i := 0 to n
      invariant ReadDescriptors(old(it.View()), n, []) == ReadDescriptors(it.View(), n - i, ds)
    {
      var d :- ParseDescriptor(it);
      ds := ds + [d];
    }
    return Some(ds);
  }

  method ParseDescriptorArray(it: CborValue) returns (r: Option<seq<Descriptor>>)
    modifies it
    ensures ReadDescriptorArray(old(it.View())) == if r.Some? then Some((r.value, it.View())) else None
  {
    hide Cbor.EnterArray;
    var n, sub :- it.EnterArray();
    if n < 1 { return None; }
    var ds :- ParseDescriptors(sub, n);
    if sub.left != 0 { return None; }
    it.Leave(sub);
    return Some(ds);
  }

  method ParseExtensions(it: CborValue) returns (r: Option<Option<seq<Extension>>>)
    modifies it
    ensures ReadExtensions(old(it.View())) == if r.Some? then Some((r.value, it.View())) else None
  {
    hide ReadText, ReadBytes, EnterMap;
    var n, sub :- it.EnterMap();
    var es: seq<Extension> := [];
    ghost var start := sub.View();
    for i := 0 to n
      invariant it.View() == old(it.View())
      invariant ReadExtensionEntries(start, n, []) == ReadExtensionEntries(sub.View(), n - i, es)
    {
      var id :- sub.TakeText();
      if |id| < 1 || |id| > 256 { return None; }
      var data :- sub.TakeBytes();
      if |data| < 1 || |data| > 4096 { return None; }
      es := es + [Extension(id, data)];
    }
    if sub.left != 0 { return None; }
    it.Leave(sub);
    return Some(if es == [] then None else Some(es));
  }

  method ParseCriteria(it: CborValue, sel0: AuthSel) returns (r: Option<AuthSel>)
    modifies it
    ensures ReadCriteria(old(it.View()), sel0) == if r.Some? then Some((r.value, it.View())) else None
  {
    var sel := sel0;
    while it.left > 0
      invariant ReadCriteria(old(it.View()), sel0) == ReadCriteria(it.View(), sel)
    {
      var key :- it.TakeUInt();
      var value :- it.TakeUInt();
      if key == AUTH_ATTACH && (value == 1 || value == 2) {
        sel := sel.(attachment := value);
      } else if key == RESIDENT_KEY && 1 <= value <= 3 {
        sel := sel.(residentKey := value);
      } else if key == USER_VERIFICATION && 1 <= value <= 3 {
        sel := sel.(userVerification := value);
      } else {
        return None;
      }
    }
    return Some(sel);
  }

  method ParseRegOptions(it: CborValue, p0: RegRequest) returns (r: Option<RegRequest>)
    modifies it
    ensures ReadRegOptions(old(it.View()), p0) == if r.Some? then Some((r.value, it.View())) else None
  {
    var p := p0;
    while it.left > 0
      invariant ReadRegOptions(old(it.View()), p0) == ReadRegOptions(it.View(), p)
    {
      var key :- it.TakeUInt();
      if key == TIMEOUT {
        var ms :- it.TakeUInt();
        p := p.(timeout := ms % TWO32);
      } else if key == AUTH_SEL {
        var _, sub :- it.EnterMap();
        var sel :- ParseCriteria(sub, p.sel);
        p := p.(sel := sel);
        it.Leave(sub);
      } else if key == ATTESTATION {
        var preference :- it.TakeUInt();
        if preference < 1 || preference > 4 { return None; }
        p := p.(attestation := preference);
      } else if key == EXTENSIONS {
        var es :- ParseExtensions(it);
        p := p.(extensions := es);
      } else {
        var _ :- it.Skip();
      }
    }
    return Some(p);
  }

  method ParseRegRequest(it: CborValue, n: nat) returns (r: Option<RegRequest>)
    modifies it
    ensures r == ReadRegRequest(old(it.View()), n)
  {
    hide ReadText, ReadBytes, EnterMap;
    if n != 6 && n != 7 { return None; }
    var rpId :- it.TakeText();
    if |rpId| < 1 || |rpId| > 256 { return None; }
    var rpName :- it.TakeText();
    if |rpName| < 1 || |rpName| > 256 { return None; }
    var challenge :- it.TakeBytes();
    if |challenge| < 16 || |challenge| > 64 { return None; }
    var params :- ParseParamArray(it);
    var encrypted :- it.TakeBytes();
    var p := RegDefaults(CStr(rpId), CStr(rpName), challenge, params, encrypted);
    if n == 6 { return if it.left == 0 then Some(p) else None; }
    var _, sub :- it.EnterMap();
    p :- ParseRegOptions(sub, p);
    it.Leave(sub);
    return if it.left == 0 then Some(p) else None;
  }

  method ParseAuthRequest(it: CborValue) returns (r: Option<AuthRequest>)
    modifies it
    ensures r == ReadAuthRequest(old(it.View()))
  {
    var challenge :- it.TakeBytes();
    var p := AuthRequest(challenge, None, 0, 0, None, None);
    if it.left == 0 { return Some(p); }
    var _, sub :- it.EnterMap();
    ghost var start, p0 := sub.View(), p;
    while sub.left > 0
      invariant ReadAuthOptions(start, p0) == ReadAuthOptions(sub.View(), p)
    {
      var key :- sub.TakeInt();
      if key == TIMEOUT {
        var ms :- sub.TakeInt();
        p := p.(timeout := ms);
      } else if key == RPID {
        var rpId :- sub.TakeText();
        p := p.(rpId := Some(CStr(rpId)));
      } else if key == USER_VERIFICATION_AUTH_REQ {
        var uv :- sub.TakeInt();
        p := p.(userVerification := uv);
      } else if key == ALLOW_CREDS {
        var encrypted :- sub.TakeBytes();
        p := p.(allow := if encrypted == [] then None else Some(encrypted));
      } else if key == EXTENSIONS {
        var es :- ParseExtensions(sub);
        p := p.(extensions := es);
      }
    }
    return Some(p);
  }

  method ParseAuthResponse(it: CborValue) returns (r: Option<AuthResponse>)
    modifies it
    ensures r == ReadAuthResponse(old(it.View()))
  {
    var clientData :- it.TakeText();
    var authData :- it.TakeBytes();
    var signature :- it.TakeBytes();
    var p := AuthResponse(clientData, authData, signature, [], []);
    if it.left == 0 { return Some(p); }
    var _, sub :- it.EnterMap();
    ghost var start, p0 := sub.View(), p;
    while sub.left > 0
      invariant ReadResponseOptions(start, p0) == ReadResponseOptions(sub.View(), p)
    {
      var key :- sub.TakeInt();
      if key == USER_HANDLE {
        var userHandle :- sub.TakeBytes();
        p := p.(userHandle := userHandle);
      } else if key == CRED_ID {
        var credId :- sub.TakeBytes();
        p := p.(credId := credId);
      }
    }
    return Some(p);
  }

  method ParseEphAndBytes(it: CborValue) returns (r: Option<(bytes, bytes)>)
    modifies it
    ensures r == ReadEphAndBytes(old(it.View()))
  {
    var eph :- it.TakeBytes();
    if |eph| != 256 { return None; }
    var b :- it.TakeBytes();
    return Some((eph, b));
  }

  method ParseRegResponse(it: CborValue) returns (r: Option<Packet>)
    modifies it
    ensures r == ReadRegResponse(old(it.View()))
  {
    var attObj :- it.TakeBytes();
    if |attObj| < 1 || |attObj| > 8192 { return None; }
    var clientData :- it.TakeText();
    if |clientData| < 1 || |clientData| > 2048 { return None; }
    return Some(RegResponse(attObj, clientData));
  }

  /** `get_packet_type`. */
  method GetPacketType(input: bytes) returns (r: Option<int>)
    ensures r == PacketType(input)
  {
    var root := new CborValue(Cur(input, 1));
    var _, it :- root.EnterArray();
    r := it.TakeInt();
  }

  /** `cbor_parse`; an expected type of 0 accepts every type. */
  method CborParse(input: bytes, expected: int) returns (r: Option<Packet>)
    ensures r == Parse(input, expected)
  {
    var root := new CborValue(Cur(input, 1));
    var n, it :- root.EnterArray();
    var t :- it.TakeInt();
    if expected != 0 && t != expected { return None; }
    if t == PKT_PRE_INDICATION {
      return Some(PreIndication);
    } else if t == PKT_PRE_RESPONSE {
      if n != 3 { return None; }
      var p :- ParseEphAndBytes(it);
      return if |p.1| != 32 then None else Some(PreResponse(p.0, p.1));
    } else if t == PKT_REG_INDICATION {
      if n != 3 { return None; }
      var p :- ParseEphAndBytes(it);
      return Some(RegIndication(p.0, p.1));
    } else if t == PKT_REG_REQUEST {
      var reg :- ParseRegRequest(it, n);
      return Some(RegRequestPkt(reg));
    } else if t == PKT_REG_RESPONSE {
      if n != 3 { return None; }
      r := ParseRegResponse(it);
    } else if t == PKT_AUTH_INDICATION_DISCOVERABLE {
      return Some(AuthIndicationDiscoverable);
    } else if t == PKT_AUTH_INDICATION_SERVER_SIDE {
      var p :- ParseEphAndBytes(it);
      return Some(AuthIndicationServerSide(p.0, p.1));
    } else if t == PKT_AUTH_REQUEST {
      var req :- ParseAuthRequest(it);
      return Some(AuthRequestPkt(req));
    } else if t == PKT_AUTH_RESPONSE {
      var resp :- ParseAuthResponse(it);
      return Some(AuthResponsePkt(resp));
    } else {
      return None;
    }
  }

  method CborParseEncryptedData(input: bytes) returns (r: Option<EncryptedData>)
    ensures r == ParseEncryptedData(input)
  {
    var root := new CborValue(Cur(input, 1));
    var n, it :- root.EnterArray();
    if n != 2 { return None; }
    var displayName :- it.TakeBytes();
    if |displayName| != 256 { return None; }
    var ticket :- it.TakeBytes();
    if |ticket| != 256 { return None; }
    return Some(EncryptedData(displayName, ticket));
  }

  method CborParseRegSecret(input: bytes) returns (r: Option<RegSecret>)
    ensures r == ParseRegSecret(input)
  {
    hide ReadBytes, Cbor.EnterArray;
    var root := new CborValue(Cur(input, 1));
    var n, it :- root.EnterArray();
    if n > 4 || n < 3 { return None; }
    var userName :- it.TakeBytes();
    if |userName| != 256 { return None; }
    var displayName :- it.TakeBytes();
    if |displayName| != 256 { return None; }
    var userId :- it.TakeBytes();
    if |userId| != 64 { return None; }
    var exclude: seq<Descriptor> := [];
    if n == 4 {
      exclude :- ParseDescriptorArray(it);
    }
    return if it.left == 0 then Some(RegSecret(userName, displayName, userId, exclude)) else None;
  }

  method CborParseAllowList(input: bytes) returns (r: Option<seq<Descriptor>>)
    ensures r == ParseAllowList(input)
  {
    var root := new CborValue(Cur(input, 1));
    var n, it :- root.EnterArray();
    if n < 1 { return None; }
    var ds :- ParseDescriptors(it, n);
    return if it.left == 0 then Some(ds) else None;
  }
}
