/**
  The messages, as values: what each builder writes and what each parser reads.
  The methods that build and parse them step by step are in modules Builder and Parser.
 */
module Packets {
  import opened Bytes
  import opened Cbor

  const PKT_PRE_INDICATION := 1
  const PKT_PRE_RESPONSE := 2
  const PKT_REG_INDICATION := 3
  const PKT_REG_REQUEST := 4
  const PKT_REG_RESPONSE := 5
  const PKT_AUTH_INDICATION_DISCOVERABLE := 6
  const PKT_AUTH_INDICATION_SERVER_SIDE := 7
  const PKT_AUTH_REQUEST := 8
  const PKT_AUTH_RESPONSE := 9

  const BUF_SIZE: nat := 2000
  const ENC_DATA_BUF_SIZE: nat := 1000

  // Map keys of the optional fields.
  const TIMEOUT := 1
  const AUTH_SEL := 2
  const ATTESTATION := 4
  const EXTENSIONS := 5
  const AUTH_ATTACH := 1
  const RESIDENT_KEY := 2
  const USER_VERIFICATION := 3
  const RPID := 2
  const ALLOW_CREDS := 3
  const USER_VERIFICATION_AUTH_REQ := 4
  const USER_HANDLE := 1
  const CRED_ID := 2

  const PUBLIC_KEY: nat := 1
  const RK_DISCOURAGED: nat := 1
  const UV_PREFERRED: nat := 2
  const ATTESTATION_NONE: nat := 1

  datatype CredParam = CredParam(kind: nat, alg: int)

  datatype Descriptor = Descriptor(kind: nat, id: bytes)

  datatype Extension = Extension(id: bytes, data: bytes)

  /** Authenticator selection criteria; 0 stands for a criterion that is not set. */
  datatype AuthSel = AuthSel(attachment: nat, residentKey: nat, userVerification: nat)

  datatype RegRequest = RegRequest(
    rpId: bytes, rpName: bytes, challenge: bytes, params: seq<CredParam>, encrypted: bytes,
    timeout: nat, sel: AuthSel, attestation: nat, extensions: Option<seq<Extension>>)

  datatype AuthRequest = AuthRequest(
    challenge: bytes, rpId: Option<bytes>, userVerification: int, timeout: int,
    allow: Option<bytes>, extensions: Option<seq<Extension>>)

  /** In an authentication response an empty user handle or credential id is an absent one. */
  datatype AuthResponse = AuthResponse(
    clientData: bytes, authData: bytes, signature: bytes, userHandle: bytes, credId: bytes)

  datatype Packet =
    | PreIndication
    | PreResponse(eph: bytes, key: bytes)
    | RegIndication(eph: bytes, encrypted: bytes)
    | RegRequestPkt(reg: RegRequest)
    | RegResponse(attObj: bytes, clientData: bytes)
    | AuthIndicationDiscoverable
    | AuthIndicationServerSide(eph: bytes, encrypted: bytes)
    | AuthRequestPkt(req: AuthRequest)
    | AuthResponsePkt(resp: AuthResponse)

  function TypeOf(p: Packet): int {
    match p
    case PreIndication => PKT_PRE_INDICATION
    case PreResponse(_, _) => PKT_PRE_RESPONSE
    case RegIndication(_, _) => PKT_REG_INDICATION
    case RegRequestPkt(_) => PKT_REG_REQUEST
    case RegResponse(_, _) => PKT_REG_RESPONSE
    case AuthIndicationDiscoverable => PKT_AUTH_INDICATION_DISCOVERABLE
    case AuthIndicationServerSide(_, _) => PKT_AUTH_INDICATION_SERVER_SIDE
    case AuthRequestPkt(_) => PKT_AUTH_REQUEST
    case AuthResponsePkt(_) => PKT_AUTH_RESPONSE
  }

  // ---------------------------------------------------------------- what is written

  function ParamItem(p: CredParam): Item {
    Array([UInt(p.kind), IntItem(p.alg)])
  }

  function ParamItems(ps: seq<CredParam>): seq<Item> {
    seq(|ps|, i requires 0 <= i < |ps| => ParamItem(ps[i]))
  }

  function DescriptorItem(d: Descriptor): Item {
    Array([UInt(d.kind), ByteStr(d.id)])
  }

  function DescriptorItems(ds: seq<Descriptor>): seq<Item> {
    seq(|ds|, i requires 0 <= i < |ds| => DescriptorItem(ds[i]))
  }

  /** Key and value of every extension, in order. */
  function ExtensionItems(es: seq<Extension>): (r: seq<Item>)
    ensures |r| == 2 * |es|
  {
    if es == [] then [] else [Text(es[0].id), ByteStr(es[0].data)] + ExtensionItems(es[1..])
  }

  datatype Criterion = Criterion(key: nat, value: nat)

  function CriterionItems(cs: seq<Criterion>): (r: seq<Item>)
    ensures |r| == 2 * |cs|
  {
    if cs == [] then [] else [UInt(cs[0].key), UInt(cs[0].value)] + CriterionItems(cs[1..])
  }

  /** A criterion that is set; 0 stands for one that is not. */
  function OneCriterion(key: nat, value: nat): seq<Criterion> {
    if value != 0 then [Criterion(key, value)] else []
  }

  function SetCriteria(sel: AuthSel): seq<Criterion> {
    OneCriterion(AUTH_ATTACH, sel.attachment) + OneCriterion(RESIDENT_KEY, sel.residentKey) +
    OneCriterion(USER_VERIFICATION, sel.userVerification)
  }

  /** An entry of the optional map of a registration request. */
  datatype RegOpt =
    | Timeout(ms: nat)
    | Select(criteria: seq<Criterion>)
    | Attest(preference: nat)
    | Extend(extensions: seq<Extension>)
    | Unknown(key: nat, value: Item)

  function RegOptKey(o: RegOpt): nat {
    match o
    case Timeout(_) => TIMEOUT
    case Select(_) => AUTH_SEL
    case Attest(_) => ATTESTATION
    case Extend(_) => EXTENSIONS
    case Unknown(key, _) => key
  }

  function RegOptValue(o: RegOpt): Item {
    match o
    case Timeout(ms) => UInt(ms)
    case Select(criteria) => Map(CriterionItems(criteria))
    case Attest(preference) => UInt(preference)
    case Extend(extensions) => Map(ExtensionItems(extensions))
    case Unknown(_, value) => value
  }

  function RegOptItems(os: seq<RegOpt>): (r: seq<Item>)
    ensures |r| == 2 * |os|
  {
    if os == [] then [] else [UInt(RegOptKey(os[0])), RegOptValue(os[0])] + RegOptItems(os[1..])
  }

  function TimeoutOpt(p: RegRequest): seq<RegOpt> {
    if p.timeout != 0 then [Timeout(p.timeout)] else []
  }

  function SelectOpt(p: RegRequest): seq<RegOpt> {
    if SetCriteria(p.sel) != [] then [Select(SetCriteria(p.sel))] else []
  }

  function AttestOpt(p: RegRequest): seq<RegOpt> {
    if p.attestation != 0 then [Attest(p.attestation)] else []
  }

  function ExtendOpt(p: RegRequest): seq<RegOpt> {
    if p.extensions.Some? then [Extend(p.extensions.value)] else []
  }

  function SetRegOpts(p: RegRequest): seq<RegOpt> {
    TimeoutOpt(p) + SelectOpt(p) + AttestOpt(p) + ExtendOpt(p)
  }

  /** An entry of the optional map of an authentication request. */
  datatype AuthOpt =
    | AuthTimeout(ms: int)
    | AuthRpId(rpId: bytes)
    | AuthAllow(encrypted: bytes)
    | AuthVerification(uv: int)
    | AuthExtend(extensions: seq<Extension>)

  function AuthOptKey(o: AuthOpt): int {
    match o
    case AuthTimeout(_) => TIMEOUT
    case AuthRpId(_) => RPID
    case AuthAllow(_) => ALLOW_CREDS
    case AuthVerification(_) => USER_VERIFICATION_AUTH_REQ
    case AuthExtend(_) => EXTENSIONS
  }

  function AuthOptValue(o: AuthOpt): Item {
    match o
    case AuthTimeout(ms) => IntItem(ms)
    case AuthRpId(rpId) => Text(rpId)
    case AuthAllow(encrypted) => ByteStr(encrypted)
    case AuthVerification(uv) => IntItem(uv)
    case AuthExtend(extensions) => Map(ExtensionItems(extensions))
  }

  function AuthOptItems(os: seq<AuthOpt>): (r: seq<Item>)
    ensures |r| == 2 * |os|
  {
    if os == [] then [] else [IntItem(AuthOptKey(os[0])), AuthOptValue(os[0])] + AuthOptItems(os[1..])
  }

  function AuthTimeoutOpt(p: AuthRequest): seq<AuthOpt> {
    if p.timeout != 0 then [AuthTimeout(p.timeout)] else []
  }

  function AuthRpIdOpt(p: AuthRequest): seq<AuthOpt> {
    if p.rpId.Some? then [AuthRpId(p.rpId.value)] else []
  }

  function AuthAllowOpt(p: AuthRequest): seq<AuthOpt> {
    if p.allow.Some? then [AuthAllow(p.allow.value)] else []
  }

  function AuthVerificationOpt(p: AuthRequest): seq<AuthOpt> {
    if p.userVerification != 0 then [AuthVerification(p.userVerification)] else []
  }

  function AuthExtendOpt(p: AuthRequest): seq<AuthOpt> {
    if p.extensions.Some? then [AuthExtend(p.extensions.value)] else []
  }

  function SetAuthOpts(p: AuthRequest): seq<AuthOpt> {
    AuthTimeoutOpt(p) + AuthRpIdOpt(p) + AuthAllowOpt(p) + AuthVerificationOpt(p) + AuthExtendOpt(p)
  }

  function ResponseOptItems(p: AuthResponse): seq<Item> {
    (if p.userHandle != [] then [UInt(USER_HANDLE), ByteStr(p.userHandle)] else []) +
    (if p.credId != [] then [UInt(CRED_ID), ByteStr(p.credId)] else [])
  }

  /** A map as the last item, unless there is nothing to put into it. */
  function OptionalMap(items: seq<Item>): seq<Item> {
    if items == [] then [] else [Map(items)]
  }

  function RegRequestItems(p: RegRequest): seq<Item> {
    [UInt(PKT_REG_REQUEST), Text(p.rpId), Text(p.rpName), ByteStr(p.challenge),
     Array(ParamItems(p.params)), ByteStr(p.encrypted)] + OptionalMap(RegOptItems(SetRegOpts(p)))
  }

  function AuthRequestItems(p: AuthRequest): seq<Item> {
    [UInt(PKT_AUTH_REQUEST), ByteStr(p.challenge)] + OptionalMap(AuthOptItems(SetAuthOpts(p)))
  }

  function AuthResponseItems(p: AuthResponse): seq<Item> {
    [UInt(PKT_AUTH_RESPONSE), Text(p.clientData), ByteStr(p.authData), ByteStr(p.signature)]
    + OptionalMap(ResponseOptItems(p))
  }

  function PacketItems(p: Packet): seq<Item> {
    match p
    case PreIndication => [UInt(PKT_PRE_INDICATION)]
    case PreResponse(eph, key) => [UInt(PKT_PRE_RESPONSE), ByteStr(eph), ByteStr(key)]
    case RegIndication(eph, encrypted) => [UInt(PKT_REG_INDICATION), ByteStr(eph), ByteStr(encrypted)]
    case RegRequestPkt(reg) => RegRequestItems(reg)
    case RegResponse(attObj, clientData) => [UInt(PKT_REG_RESPONSE), ByteStr(attObj), Text(clientData)]
    case AuthIndicationDiscoverable => [UInt(PKT_AUTH_INDICATION_DISCOVERABLE)]
    case AuthIndicationServerSide(eph, encrypted) =>
      [UInt(PKT_AUTH_INDICATION_SERVER_SIDE), ByteStr(eph), ByteStr(encrypted)]
    case AuthRequestPkt(req) => AuthRequestItems(req)
    case AuthResponsePkt(resp) => AuthResponseItems(resp)
  }

  /** How many items the builder announces for the outer array. */
  function Declared(p: Packet): nat {
    match p
    case PreIndication => 1
    case PreResponse(_, _) => 3
    case RegIndication(_, _) => 3
    case RegRequestPkt(reg) => if SetRegOpts(reg) != [] then 7 else 6
    case RegResponse(_, _) => 3
    case AuthIndicationDiscoverable => 1
    case AuthIndicationServerSide(_, _) => 3
    case AuthRequestPkt(req) => if SetAuthOpts(req) != [] then 3 else 2
    case AuthResponsePkt(_) => 5
  }

  function Wire(p: Packet): bytes {
    Encode(Array(PacketItems(p)))
  }

  /** The lengths a builder itself insists on. */
  predicate LengthsAccepted(p: Packet) {
    p.PreResponse? ==> |p.eph| == 256 && |p.key| == 32
  }

  /** What `cbor_build` returns for a packet. */
  function Build(p: Packet): Option<bytes> {
    if LengthsAccepted(p) && Declared(p) == |PacketItems(p)| && |Wire(p)| <= BUF_SIZE then Some(Wire(p)) else None
  }

  /** The assertions of `cbor_build`: pointers it is given are not NULL, lengths are not zero. */
  predicate BuildAsserts(p: Packet) {
    match p
    case PreIndication => true
    case PreResponse(eph, key) => eph != [] && key != []
    case RegIndication(eph, encrypted) => eph != [] && encrypted != []
    case RegRequestPkt(reg) => reg.challenge != [] && reg.params != [] && reg.encrypted != []
    case RegResponse(attObj, clientData) => attObj != []
    case AuthIndicationDiscoverable => true
    case AuthIndicationServerSide(eph, encrypted) => true
    case AuthRequestPkt(req) => req.challenge != []
    case AuthResponsePkt(resp) => resp.authData != [] && resp.signature != []
  }

  // ---------------------------------------------------------------- what is read

  function ReadParam(c: Cur): (r: Option<(CredParam, Cur)>)
    ensures r.Some? ==> r.value.1.left == c.left - 1
  {
    var (_, d) :- EnterArray(c);
    var (kind, d) :- ReadUInt(d);
    if kind != PUBLIC_KEY then None else
      var (alg, d) :- ReadInt(d);
      if d.left != 0 then None else Some((CredParam(kind, alg), Leave(c, d)))
  }

  /** The elements of an array of `n` credential parameters, after the ones in `acc`. */
  function ReadParams(c: Cur, n: nat, acc: seq<CredParam>): Option<(seq<CredParam>, Cur)>
    decreases n
  {
    if n == 0 then Some((acc, c)) else
      var (p, d) :- ReadParam(c);
      ReadParams(d, n - 1, acc + [p])
  }

  /** An empty credential id is refused: there is nothing to allocate for it. */
  function ReadDescriptor(c: Cur): (r: Option<(Descriptor, Cur)>)
    ensures r.Some? ==> r.value.1.left == c.left - 1
  {
    var (_, d) :- EnterArray(c);
    var (kind, d) :- ReadUInt(d);
    if kind != PUBLIC_KEY then None else
      var (id, d) :- ReadBytes(d);
      if id == [] || d.left != 0 then None else Some((Descriptor(kind, id), Leave(c, d)))
  }

  function ReadDescriptors(c: Cur, n: nat, acc: seq<Descriptor>): Option<(seq<Descriptor>, Cur)>
    decreases n
  {
    if n == 0 then Some((acc, c)) else
      var (p, d) :- ReadDescriptor(c);
      ReadDescriptors(d, n - 1, acc + [p])
  }

  function ReadDescriptorArray(c: Cur): (r: Option<(seq<Descriptor>, Cur)>)
    ensures r.Some? ==> r.value.1.left == c.left - 1
  {
    var (count, d) :- EnterArray(c);
    if count < 1 then None else
      var (ds, d) :- ReadDescriptors(d, count, []);
      if d.left != 0 then None else Some((ds, Leave(c, d)))
  }

  function ReadExtensionEntries(c: Cur, n: nat, acc: seq<Extension>): Option<(seq<Extension>, Cur)>
    decreases n
  {
    if n == 0 then Some((acc, c)) else
      var (id, d) :- ReadText(c);
      if |id| < 1 || |id| > 256 then None else
        var (data, d) :- ReadBytes(d);
        if |data| < 1 || |data| > 4096 then None
        else ReadExtensionEntries(d, n - 1, acc + [Extension(id, data)])
  }

  /** No memory is allocated for an empty list, so an empty map of extensions reads as no extensions. */
  function ReadExtensions(c: Cur): (r: Option<(Option<seq<Extension>>, Cur)>)
    ensures r.Some? ==> r.value.1.left == c.left - 1
  {
    var (n, d) :- EnterMap(c);
    var (es, d) :- ReadExtensionEntries(d, n, []);
    if d.left != 0 then None else Some((if es == [] then None else Some(es), Leave(c, d)))
  }

  /** The values the parser recognises for a criterion. */
  predicate KnownCriterion(key: nat, value: nat) {
    if key == AUTH_ATTACH then 1 <= value <= 2
    else if key == RESIDENT_KEY then 1 <= value <= 3
    else key == USER_VERIFICATION && 1 <= value <= 3
  }

  function ApplyCriterion(sel: AuthSel, c: Criterion): AuthSel {
    if c.key == AUTH_ATTACH then sel.(attachment := c.value)
    else if c.key == RESIDENT_KEY then sel.(residentKey := c.value)
    else sel.(userVerification := c.value)
  }

  function ReadCriteria(c: Cur, sel: AuthSel): Option<(AuthSel, Cur)>
    decreases c.left
  {
    if c.left == 0 then Some((sel, c)) else
      var (key, d) :- ReadUInt(c);
      var (value, d) :- ReadUInt(d);
      if KnownCriterion(key, value) then ReadCriteria(d, ApplyCriterion(sel, Criterion(key, value))) else None
  }

  /** The optional map of a registration request: the value of an unknown key is skipped. */
  function ReadRegOptions(c: Cur, p: RegRequest): Option<(RegRequest, Cur)>
    decreases c.left
  {
    if c.left == 0 then Some((p, c)) else
      var (key, d) :- ReadUInt(c);
      if key == TIMEOUT then
        var (ms, d) :- ReadUInt(d);
        ReadRegOptions(d, p.(timeout := ms % TWO32))
      else if key == AUTH_SEL then
        var (_, e) :- EnterMap(d);
        var (sel, e) :- ReadCriteria(e, p.sel);
        ReadRegOptions(Leave(d, e), p.(sel := sel))
      else if key == ATTESTATION then
        var (preference, d) :- ReadUInt(d);
        if 1 <= preference <= 4 then ReadRegOptions(d, p.(attestation := preference)) else None
      else if key == EXTENSIONS then
        var (es, d) :- ReadExtensions(d);
        ReadRegOptions(d, p.(extensions := es))
      else
        var d :- Advance(d);
        ReadRegOptions(d, p)
  }

  /** What the parser starts from when it reaches the optional map. */
  function RegDefaults(rpId: bytes, rpName: bytes, challenge: bytes, params: seq<CredParam>, encrypted: bytes)
    : RegRequest
  {
    RegRequest(rpId, rpName, challenge, params, encrypted, 0, AuthSel(0, RK_DISCOURAGED, UV_PREFERRED),
               ATTESTATION_NONE, None)
  }

  /** The array of credential parameters: it is not empty and nothing follows its elements. */
  function ReadParamArray(c: Cur): (r: Option<(seq<CredParam>, Cur)>)
    ensures r.Some? ==> r.value.1.left == c.left - 1
  {
    var (count, d) :- EnterArray(c);
    if count < 1 then None else
      var (params, d) :- ReadParams(d, count, []);
      if d.left != 0 then None else Some((params, Leave(c, d)))
  }

  /** The fields that every registration request has. */
  function ReadRegRequired(c: Cur): Option<(RegRequest, Cur)> {
    var (rpId, c) :- ReadText(c);
    if |rpId| < 1 || |rpId| > 256 then None else
    var (rpName, c) :- ReadText(c);
    if |rpName| < 1 || |rpName| > 256 then None else
    var (challenge, c) :- ReadBytes(c);
    if |challenge| < 16 || |challenge| > 64 then None else
    var (params, c) :- ReadParamArray(c);
    var (encrypted, c) :- ReadBytes(c);
    Some((RegDefaults(CStr(rpId), CStr(rpName), challenge, params, encrypted), c))
  }

  function ReadRegRequest(c: Cur, n: nat): Option<RegRequest> {
    if n != 6 && n != 7 then None else
    var (p, c) :- ReadRegRequired(c);
    if n == 6 then if c.left == 0 then Some(p) else None else
    var (_, d) :- EnterMap(c);
    var (p, d) :- ReadRegOptions(d, p);
    if Leave(c, d).left == 0 then Some(p) else None
  }

  /** The optional map of an authentication request: the value of an unknown key is read as the next key. */
  function ReadAuthOptions(c: Cur, p: AuthRequest): Option<(AuthRequest, Cur)>
    decreases c.left
  {
    if c.left == 0 then Some((p, c)) else
      var (key, d) :- ReadInt(c);
      if key == TIMEOUT then
        var (ms, d) :- ReadInt(d);
        ReadAuthOptions(d, p.(timeout := ms))
      else if key == RPID then
        var (rpId, d) :- ReadText(d);
        ReadAuthOptions(d, p.(rpId := Some(CStr(rpId))))
      else if key == USER_VERIFICATION_AUTH_REQ then
        var (uv, d) :- ReadInt(d);
        ReadAuthOptions(d, p.(userVerification := uv))
      else if key == ALLOW_CREDS then
        var (encrypted, d) :- ReadBytes(d);
        ReadAuthOptions(d, p.(allow := if encrypted == [] then None else Some(encrypted)))
      else if key == EXTENSIONS then
        var (es, d) :- ReadExtensions(d);
        ReadAuthOptions(d, p.(extensions := es))
      else
        ReadAuthOptions(d, p)
  }

  function ReadAuthRequest(c: Cur): Option<AuthRequest> {
    var (challenge, c) :- ReadBytes(c);
    var p := AuthRequest(challenge, None, 0, 0, None, None);
    if c.left == 0 then Some(p) else
      var (_, d) :- EnterMap(c);
      var (p, _) :- ReadAuthOptions(d, p);
      Some(p)
  }

  function ReadResponseOptions(c: Cur, p: AuthResponse): Option<(AuthResponse, Cur)>
    decreases c.left
  {
    if c.left == 0 then Some((p, c)) else
      var (key, d) :- ReadInt(c);
      if key == USER_HANDLE then
        var (userHandle, d) :- ReadBytes(d);
        ReadResponseOptions(d, p.(userHandle := userHandle))
      else if key == CRED_ID then
        var (credId, d) :- ReadBytes(d);
        ReadResponseOptions(d, p.(credId := credId))
      else
        ReadResponseOptions(d, p)
  }

  function ReadAuthResponse(c: Cur): Option<AuthResponse> {
    var (clientData, c) :- ReadText(c);
    var (authData, c) :- ReadBytes(c);
    var (signature, c) :- ReadBytes(c);
    var p := AuthResponse(clientData, authData, signature, [], []);
    if c.left == 0 then Some(p) else
      var (_, d) :- EnterMap(c);
      var (p, _) :- ReadResponseOptions(d, p);
      Some(p)
  }

  /** The two byte strings of messages 2, 3 and 7; the first one is an ephemeral user id. */
  function ReadEphAndBytes(c: Cur): Option<(bytes, bytes)> {
    var (eph, c) :- ReadBytes(c);
    if |eph| != 256 then None else
      var (b, _) :- ReadBytes(c);
      Some((eph, b))
  }

  function ReadRegResponse(c: Cur): Option<Packet> {
    var (attObj, c) :- ReadBytes(c);
    if |attObj| < 1 || |attObj| > 8192 then None else
      var (clientData, _) :- ReadText(c);
      if |clientData| < 1 || |clientData| > 2048 then None else Some(RegResponse(attObj, clientData))
  }

  /** The fields of a packet of type `t` whose outer array has `n` items; `c` stands after the type. */
  function ReadBody(t: int, n: nat, c: Cur): Option<Packet> {
    if t == PKT_PRE_INDICATION then Some(PreIndication)
    else if t == PKT_PRE_RESPONSE then
      if n != 3 then None else
        var (eph, key) :- ReadEphAndBytes(c);
        if |key| != 32 then None else Some(PreResponse(eph, key))
    else if t == PKT_REG_INDICATION then
      if n != 3 then None else
        var (eph, encrypted) :- ReadEphAndBytes(c);
        Some(RegIndication(eph, encrypted))
    else if t == PKT_REG_REQUEST then
      var reg :- ReadRegRequest(c, n);
      Some(RegRequestPkt(reg))
    else if t == PKT_REG_RESPONSE then
      if n != 3 then None else ReadRegResponse(c)
    else if t == PKT_AUTH_INDICATION_DISCOVERABLE then Some(AuthIndicationDiscoverable)
    else if t == PKT_AUTH_INDICATION_SERVER_SIDE then
      var (eph, encrypted) :- ReadEphAndBytes(c);
      Some(AuthIndicationServerSide(eph, encrypted))
    else if t == PKT_AUTH_REQUEST then
      var req :- ReadAuthRequest(c);
      Some(AuthRequestPkt(req))
    else if t == PKT_AUTH_RESPONSE then
      var resp :- ReadAuthResponse(c);
      Some(AuthResponsePkt(resp))
    else None
  }

  /** The packet type, the length of the outer array and a cursor after the type. */
  function ReadType(input: bytes): Option<(int, nat, Cur)> {
    var (n, c) :- EnterArray(Cur(input, 1));
    var (t, c) :- ReadInt(c);
    Some((t, n, c))
  }

  /** What `get_packet_type` returns. */
  function PacketType(input: bytes): Option<int> {
    var (t, _, _) :- ReadType(input);
    Some(t)
  }

  /** What `cbor_parse` returns; `expected` is 0 when any packet type will do. */
  function Parse(input: bytes, expected: int): Option<Packet> {
    var (t, n, c) :- ReadType(input);
    if expected != 0 && t != expected then None else ReadBody(t, n, c)
  }

  // ---------------------------------------------------------------- encodings inside ciphertexts

  /** What a registration indication encrypts. */
  datatype EncryptedData = EncryptedData(displayName: bytes, ticket: bytes)

  function EncryptedDataItems(d: EncryptedData): seq<Item> {
    [ByteStr(d.displayName), ByteStr(d.ticket)]
  }

  function ParseEncryptedData(input: bytes): Option<EncryptedData> {
    var (n, c) :- EnterArray(Cur(input, 1));
    if n != 2 then None else
      var (displayName, c) :- ReadBytes(c);
      if |displayName| != 256 then None else
        var (ticket, _) :- ReadBytes(c);
        if |ticket| != 256 then None else Some(EncryptedData(displayName, ticket))
  }

  /** What a registration request encrypts. */
  datatype RegSecret = RegSecret(userName: bytes, displayName: bytes, userId: bytes, exclude: seq<Descriptor>)

  function RegSecretItems(s: RegSecret): seq<Item> {
    [ByteStr(s.userName), ByteStr(s.displayName), ByteStr(s.userId)] +
    (if s.exclude == [] then [] else [Array(DescriptorItems(s.exclude))])
  }

  /** The secret in the array at the cursor, and where reading has got to inside that array. */
  function ReadRegSecret(root: Cur): Option<(RegSecret, Cur)> {
    var (n, c) :- EnterArray(root);
    if n > 4 || n < 3 then None else
    var (userName, c) :- ReadBytes(c);
    if |userName| != 256 then None else
    var (displayName, c) :- ReadBytes(c);
    if |displayName| != 256 then None else
    var (userId, c) :- ReadBytes(c);
    if |userId| != 64 then None else
    if n == 3 then Some((RegSecret(userName, displayName, userId, []), c)) else
    var (exclude, c) :- ReadDescriptorArray(c);
    Some((RegSecret(userName, displayName, userId, exclude), c))
  }

  function ParseRegSecret(input: bytes): Option<RegSecret> {
    var (s, c) :- ReadRegSecret(Cur(input, 1));
    if c.left != 0 then None else Some(s)
  }

  /** The allow list in the array at the cursor, and where reading has got to inside that array. */
  function ReadAllowList(root: Cur): Option<(seq<Descriptor>, Cur)> {
    var (n, c) :- EnterArray(root);
    if n < 1 then None else ReadDescriptors(c, n, [])
  }

  function ParseAllowList(input: bytes): Option<seq<Descriptor>> {
    var (ds, c) :- ReadAllowList(Cur(input, 1));
    if c.left != 0 then None else Some(ds)
  }

  /** An inner builder succeeds when the encoding fits its buffer. */
  function BuildInner(items: seq<Item>): Option<bytes> {
    if |Encode(Array(items))| <= ENC_DATA_BUF_SIZE then Some(Encode(Array(items))) else None
  }
}
