/** Authenticator data (section 6.1 of WebAuthn Level 2). */
module AuthenticatorData {
  import opened Bytes
  import opened Cbor

  datatype Attested = Attested(aaguid: bytes, credId: bytes, pubkey: bytes)

  /** The signature counter is kept in a C `int`. */
  datatype AuthData = AuthData(rpIdHash: bytes, flags: byte, signCount: int, attested: Option<Attested>)

  /** The flag that announces attested credential data. */
  predicate HasAttested(flags: byte) {
    flags / 64 % 2 == 1
  }

  predicate UserVerified(flags: byte) {
    flags / 4 % 2 == 1
  }

  const TWO31: int := 0x8000_0000

  /** The C `int` with the same 32 bits as an unsigned number. */
  function Signed(n: nat): (r: int)
    requires n < TWO32
    ensures -TWO31 <= r < TWO31
  {
    if n >= TWO31 then n - TWO32 else n
  }

  function Unsigned(i: int): (r: nat)
    requires -TWO31 <= i < TWO31
    ensures r < TWO32 && Signed(r) == i
  {
    if i < 0 then i + TWO32 else i
  }

  predicate WellFormedAttested(a: Attested) {
    |a.aaguid| == 16 && 1 <= |a.credId| < 0x1_0000 && a.pubkey != []
  }

  predicate WellFormed(ad: AuthData) {
    && |ad.rpIdHash| == 32 && -TWO31 <= ad.signCount < TWO31
    && ad.attested.Some? == HasAttested(ad.flags)
    && (ad.attested.Some? ==> WellFormedAttested(ad.attested.value))
  }

  function AttestedLayout(a: Attested): bytes
    requires |a.credId| < 0x1_0000
  {
    a.aaguid + BigEndian(|a.credId|, 2) + a.credId + a.pubkey
  }

  /** The layout of the standard. */
  function Layout(ad: AuthData): bytes
    requires WellFormed(ad)
  {
    ad.rpIdHash + [ad.flags] + BigEndian(Unsigned(ad.signCount), 4) +
    if ad.attested.Some? then AttestedLayout(ad.attested.value) else []
  }

  /** An empty credential id or key is refused: there is nothing to allocate for it. */
  function ParseAttested(b: bytes): Option<Attested> {
    if |b| < 18 then None else
      var n := FromBigEndian(b[16..18]);
      if n == 0 || 18 + n >= |b| then None else Some(Attested(b[..16], b[18..18 + n], b[18 + n..]))
  }

  /** What `parse_authdata` returns. */
  function ParseData(b: bytes): Option<AuthData> {
    if |b| < 37 then None else
      Pow256Bound(4);
      var count := Signed(FromBigEndian(b[33..37]));
      if HasAttested(b[32]) then
        var a :- ParseAttested(b[37..]);
        Some(AuthData(b[..32], b[32], count, Some(a)))
      else if |b| == 37 then Some(AuthData(b[..32], b[32], count, None))
      else None
  }

  lemma {:induction false} ParseAttestedLayout(a: Attested)
    requires WellFormedAttested(a)
    ensures ParseAttested(AttestedLayout(a)) == Some(a)
  {
    var b, n := AttestedLayout(a), |a.credId|;
    Pow256Bound(2);
    FromBigEndianInverts(n, 2);
    assert b[..16] == a.aaguid && b[16..18] == BigEndian(n, 2);
    assert b[18..18 + n] == a.credId && b[18 + n..] == a.pubkey;
  }

  lemma {:induction false} ParseLayout(ad: AuthData)
    requires WellFormed(ad)
    ensures ParseData(Layout(ad)) == Some(ad)
  {
    var b, u := Layout(ad), Unsigned(ad.signCount);
    Pow256Bound(4);
    FromBigEndianInverts(u, 4);
    hide BigEndian, FromBigEndian;
    assert b[..32] == ad.rpIdHash && b[32] == ad.flags && b[33..37] == BigEndian(u, 4);
    if ad.attested.Some? {
      ParseAttestedLayout(ad.attested.value);
      assert b[37..] == AttestedLayout(ad.attested.value);
    }
  }

  lemma {:induction false} AttestedLayoutParse(b: bytes)
    requires ParseAttested(b).Some?
    ensures WellFormedAttested(ParseAttested(b).value) && AttestedLayout(ParseAttested(b).value) == b
  {
    var n := FromBigEndian(b[16..18]);
    Pow256Bound(2);
    BigEndianInverts(b[16..18]);
    hide BigEndian, FromBigEndian;
    assert b == b[..16] + b[16..18] + b[18..18 + n] + b[18 + n..];
  }

  /** Whatever is accepted is the layout of the result: nothing is lost and nothing is ignored. */
  lemma {:induction false} LayoutParse(b: bytes)
    requires ParseData(b).Some?
    ensures WellFormed(ParseData(b).value) && Layout(ParseData(b).value) == b
  {
    var ad := ParseData(b).value;
    Pow256Bound(4);
    BigEndianInverts(b[33..37]);
    assert Unsigned(ad.signCount) == FromBigEndian(b[33..37]);
    hide BigEndian, FromBigEndian;
    if ad.attested.Some? {
      AttestedLayoutParse(b[37..]);
      assert b == b[..32] + [b[32]] + b[33..37] + b[37..];
    } else {
      assert b == b[..32] + [b[32]] + b[33..37] + [];
    }
  }

  /** A number of four bytes, the most significant first, in two's complement. */
  function CInt(b: bytes): int
    requires |b| == 4
  {
    var n := 0x100_0000 * b[0] as int + 0x1_0000 * b[1] as int + 0x100 * b[2] as int + b[3];
    if b[0] >= 128 then n - 0x1_0000_0000 else n
  }

  /** `parse_authdata` is a bijection between the accepted inputs and the well-formed structures. */
  lemma {:induction false} ParseExactly(b: bytes)
    ensures ParseData(b).Some? <==> exists ad :: WellFormed(ad) && Layout(ad) == b
    ensures |b| >= 37 && b[32] / 64 % 2 == 0 ==> (ParseData(b).Some? <==> |b| == 37)
  {
    if ParseData(b).Some? {
      LayoutParse(b);
    }
    forall ad | WellFormed(ad) && Layout(ad) == b ensures ParseData(b).Some? {
      ParseLayout(ad);
    }
  }

  /** The attested credential data in the bytes from position 37: identifier, length, credential id and key. */
  predicate AttestedAt(b: bytes, a: Attested) {
    && |b| > 55 && var n := 256 * b[53] as int + b[54];
    && 1 <= n && 55 + n < |b|
    && a.aaguid == b[37..53] && a.credId == b[55..55 + n] && a.pubkey == b[55 + n..]
  }

  /** Which bytes the fields are, and when bytes are accepted: bit 6 of the flags announces attested credential data. */
  predicate FieldsAt(b: bytes, ad: AuthData) {
    && |b| >= 37
    && ad.rpIdHash == b[..32] && ad.flags == b[32] && ad.signCount == CInt(b[33..37])
    && if b[32] / 64 % 2 == 1 then ad.attested.Some? && AttestedAt(b, ad.attested.value) else ad.attested.None? && |b| == 37
  }

  lemma {:induction false} TailBytes(b: bytes, i: nat, j: nat)
    requires i <= j && 37 + j <= |b|
    ensures b[37..][i..j] == b[37 + i..37 + j]
  {
  }

  lemma {:induction false} AttestedFields(b: bytes, a: Attested)
    requires |b| >= 37
    ensures ParseAttested(b[37..]) == Some(a) <==> AttestedAt(b, a)
  {
    hide FromBigEndian;
    if |b| > 55 {
      TailBytes(b, 0, 16);
      TailBytes(b, 16, 18);
      TwoBytes(b[53..55]);
      var n := 256 * b[53] as int + b[54];
      if 55 + n < |b| {
        TailBytes(b, 18, 18 + n);
        TailBytes(b, 18 + n, |b| - 37);
        assert b[37..][18 + n..] == b[37..][18 + n..|b| - 37] && b[55 + n..] == b[55 + n..|b|];
      }
    }
  }

  /** `parse_authdata` byte by byte: what it accepts, and what it finds there. */
  lemma {:induction false} ParsedFields(b: bytes, ad: AuthData)
    ensures ParseData(b) == Some(ad) <==> FieldsAt(b, ad)
  {
    hide FromBigEndian, ParseAttested, AttestedAt;
    if |b| >= 37 {
      Pow256Bound(4);
      FourBytes(b[33..37]);
      if ParseAttested(b[37..]).Some? {
        AttestedFields(b, ParseAttested(b[37..]).value);
      }
      if ad.attested.Some? {
        AttestedFields(b, ad.attested.value);
      }
    }
  }

  /** `parse_authdata`: an offset moves over the buffer. */
  method ParseAuthData(data: bytes) returns (r: Option<AuthData>)
    ensures r == ParseData(data)
  {
    if |data| < 37 { return None; }
    var offset := 0;
    var hash := data[offset..offset + 32];
    offset := offset + 32;
    var flags := data[offset];
    offset := offset + 1;
    var count := ((data[offset] as int * 256 + data[offset + 1]) * 256 + data[offset + 2]) * 256 + data[offset + 3];
    FourBytes(data[offset..offset + 4]);
    var signCount := Signed(count);
    offset := offset + 4;
    var attested := None;
    if HasAttested(flags) {
      if |data| < offset + 18 { return None; }
      var aaguid := data[offset..offset + 16];
      offset := offset + 16;
      var length := data[offset] as int * 256 + data[offset + 1];
      TwoBytes(data[37..][16..18]);
      offset := offset + 2;
      if length == 0 || offset + length >= |data| { return None; }
      var credId := data[offset..offset + length];
      offset := offset + length;
      var pubkey := data[offset..];
      attested := Some(Attested(aaguid, credId, pubkey));
      offset := |data|;
      assert data[37..][..16] == aaguid && data[37..][18..18 + length] == credId && data[37..][18 + length..] == pubkey;
    }
    if offset != |data| { return None; }
    return Some(AuthData(hash, flags, signCount, attested));
  }

  lemma {:induction false} TwoBytes(s: bytes)
    requires |s| == 2
    ensures FromBigEndian(s) == s[0] as int * 256 + s[1]
  {
    assert s[..1] == [s[0]];
    assert FromBigEndian([s[0]]) == s[0];
  }

  lemma {:induction false} FourBytes(s: bytes)
    requires |s| == 4
    ensures FromBigEndian(s) == ((s[0] as int * 256 + s[1]) * 256 + s[2]) * 256 + s[3]
  {
    TwoBytes(s[..2]);
    assert s[..3][..2] == s[..2];
    assert FromBigEndian(s[..3]) == 256 * FromBigEndian(s[..2]) + s[2];
  }
}
