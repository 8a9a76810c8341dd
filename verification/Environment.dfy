/** States, ceremonies and callback contexts, and the libraries the protocol calls into. */
module Environment {
  import opened Bytes
  import opened Cbor
  import opened Packets
  import opened Padding

  type uint32 = n: int | 0 <= n < 0x1_0000_0000

  datatype State =
    | Initial
    | AuthInitialDiscoverable
    | AuthInitialServerSide
    | AuthIndicationDiscoverableSent
    | AuthIndicationDiscoverableReceived
    | AuthIndicationServerSideSent
    | AuthIndicationServerSideReceived
    | AuthRequestSent
    | AuthRequestReceived
    | AuthResponseSent
    | AuthSuccess
    | AuthFailure
    | RegInitial
    | PreIndicationSent
    | PreIndicationReceived
    | PreResponseSent
    | PreResponseReceived
    | RegIndicationSent
    | RegIndicationReceived
    | RegRequestSent
    | RegRequestReceived
    | RegResponseSent
    | RegSuccess
    | RegFailure

  datatype Ceremony = Undefined | Registration | AuthServerSide | AuthDiscoverable

  /** The TLS messages the extension appears in. */
  datatype Context = ClientHello | CertificateRequest | Certificate | OtherContext

  const FIDOSSL_EXT_TYPE := 0x1234

  /** How a callback ends; `Aborted` stands for a failed assertion, which ends the process. */
  datatype Ret = Sent(out: bytes) | Accepted | Skipped | Failed | Aborted

  datatype Mode = Register | Authenticate

  // Values of the policy enumerations.
  const DIRECT: nat := 3
  const UV_REQUIRED: nat := 1
  const RK_REQUIRED: nat := 3

  /** The text of a string constant. */
  function Chars(s: string): (r: bytes)
    ensures |r| == |s|
  {
    seq(|s|, i requires 0 <= i < |s| => if s[i] < 128 as char then s[i] as int else 0)
  }

  /** What the server looks at in the client data; a member that is missing or no string is absent. */
  datatype ClientData = ClientData(
    kind: Option<bytes>, challenge: Option<bytes>, origin: Option<bytes>, crossOriginFalse: bool)

  /** What the server asks libfido2 to verify at a registration. */
  datatype AttestationCheck = AttestationCheck(
    rpId: bytes, rpName: bytes, uvRequired: bool, rkRequired: bool, clientData: bytes, attObj: bytes)

  datatype VerifiedCredential = VerifiedCredential(id: bytes, authData: bytes, signCount: uint32)

  /** What the server asks libfido2 to verify at an authentication; the user presence bit is always demanded. */
  datatype AssertionCheck = AssertionCheck(
    key: bytes, rpId: bytes, clientDataHash: bytes, authData: bytes, signature: bytes)

  /** The libraries, as functions. */
  datatype Env = Env(
    hmac: (bytes, bytes) -> bytes,
    seal: (bytes, bytes, bytes) -> bytes,
    open: (bytes, bytes, bytes) -> Option<bytes>,
    sha256: bytes -> bytes,
    readJson: bytes -> Option<ClientData>,
    writeJson: ClientData -> bytes,
    attest: AttestationCheck -> Option<VerifiedCredential>,
    coseKey: bytes -> Option<bytes>,
    verify: AssertionCheck -> bool,
    publicSuffix: bytes -> bool)

  /** HMAC-SHA256 and SHA-256 give 32 bytes. */
  ghost predicate HashLengths(env: Env) {
    (forall k, m :: |env.hmac(k, m)| == 32) && (forall m :: |env.sha256(m)| == 32)
  }

  /** AES-GCM: decryption inverts encryption, and a ciphertext is 16 bytes longer than its plaintext. */
  ghost predicate CipherLaws(env: Env) {
    && (forall k, iv, p :: env.open(k, iv, env.seal(k, iv, p)) == Some(p))
    && (forall k, iv, p :: |env.seal(k, iv, p)| == |p| + 16)
    && (forall k, iv, c :: env.open(k, iv, c).Some? ==> |c| == |env.open(k, iv, c).value| + 16)
  }

  predicate Ascii(s: bytes) {
    forall i :: 0 <= i < |s| ==> 0 < s[i] < 128
  }

  /** Client data of plain text survives being written and read; what is written is not empty and has no NUL. */
  ghost predicate JsonLaws(env: Env) {
    forall kind, challenge, origin | Ascii(kind) && Ascii(challenge) && Ascii(origin) ::
      var cd := ClientData(Some(kind), Some(challenge), Some(origin), true);
      env.readJson(env.writeJson(cd)) == Some(cd) && NulFree(env.writeJson(cd)) && env.writeJson(cd) != []
  }

  predicate KeyLength(n: nat) {
    n == 16 || n == 24 || n == 32
  }

  /** `aes_gcm_encrypt` under the initialisation vector of a message type; a missing key has length 0. */
  function Encrypt(env: Env, key: Option<bytes>, t: int, plain: bytes): (r: Option<bytes>)
    ensures r.Some? ==> key.Some? && MessageIv(t).Some? && r.value == env.seal(key.value, MessageIv(t).value, plain)
  {
    var k :- key;
    var iv :- MessageIv(t);
    if KeyLength(|k|) then Some(env.seal(k, iv, plain)) else None
  }

  /** `aes_gcm_decrypt`. */
  function Decrypt(env: Env, key: Option<bytes>, t: int, cipher: bytes): Option<bytes> {
    var k :- key;
    var iv :- MessageIv(t);
    if KeyLength(|k|) then env.open(k, iv, cipher) else None
  }

  /** Both ends of an encryption under the same key. */
  lemma {:induction false} DecryptEncrypt(env: Env, key: Option<bytes>, t: int, plain: bytes)
    requires CipherLaws(env) && Encrypt(env, key, t, plain).Some?
    ensures Decrypt(env, key, t, Encrypt(env, key, t, plain).value) == Some(plain)
    ensures |Encrypt(env, key, t, plain).value| == |plain| + 16
  {
  }

  /** What a call of `cbor_build` returns to OpenSSL. */
  function BuildRet(p: Packet): Ret {
    if !BuildAsserts(p) then Aborted
    else if Build(p).Some? then Sent(Build(p).value)
    else Failed
  }
}
