/** What RFC 8949 and the tables of the source fix about bytes, numbers and texts, written out. */
module Reference {
  import opened Bytes
  import opened Cbor
  import opened Packets
  import opened RoundTrip
  import opened Padding
  import opened Environment
  import Encoding
  import opened RelyingParty
  import opened UserDevice

  // ---------------------------------------------------------------- section 3 of RFC 8949

  lemma {:induction false} DivideTwice(n: nat)
    ensures n / 256 / 256 == n / 0x1_0000 && n / 0x1_0000 / 256 == n / 0x100_0000
  {
  }

  lemma {:induction false} LowBytes(n: nat)
    ensures BigEndian(n, 1) == [n % 256]
    ensures BigEndian(n, 2) == [n / 256 % 256, n % 256]
    ensures BigEndian(n, 4) == [n / 0x100_0000 % 256, n / 0x1_0000 % 256, n / 256 % 256, n % 256]
  {
    DivideTwice(n);
    assert BigEndian(n, 1) == BigEndian(n / 256, 0) + [n % 256];
    assert BigEndian(n / 256, 1) == BigEndian(n / 256 / 256, 0) + [n / 256 % 256];
    assert BigEndian(n / 0x1_0000, 1) == BigEndian(n / 0x1_0000 / 256, 0) + [n / 0x1_0000 % 256];
    assert BigEndian(n / 0x100_0000, 1) == BigEndian(n / 0x100_0000 / 256, 0) + [n / 0x100_0000 % 256];
    assert BigEndian(n, 2) == BigEndian(n / 256, 1) + [n % 256];
    assert BigEndian(n / 0x1_0000, 2) == BigEndian(n / 0x1_0000 / 256, 1) + [n / 0x1_0000 % 256];
    assert BigEndian(n / 256, 3) == BigEndian(n / 256 / 256, 2) + [n / 256 % 256];
    assert BigEndian(n, 4) == BigEndian(n / 256, 3) + [n % 256];
  }

  /** A head is the major type and the shortest argument: below 24 in the first byte, then one, two, four or eight bytes. */
  lemma {:induction false} HeadBytes(major: nat, n: nat)
    requires major < 8
    ensures n < 24 ==> EncodeHead(major, n) == [32 * major + n]
    ensures 24 <= n < 0x100 ==> EncodeHead(major, n) == [32 * major + 24, n]
    ensures 0x100 <= n < 0x1_0000 ==> EncodeHead(major, n) == [32 * major + 25, n / 256, n % 256]
    ensures 0x1_0000 <= n < 0x1_0000_0000 ==>
              EncodeHead(major, n) ==
              [32 * major + 26, n / 0x100_0000, n / 0x1_0000 % 256, n / 256 % 256, n % 256]
    ensures 0x1_0000_0000 <= n ==> |EncodeHead(major, n)| == 9 && EncodeHead(major, n)[0] == 32 * major + 27
  {
    LowBytes(n);
    hide BigEndian;
  }

  lemma {:induction false} TwoItems(x: Item, y: Item)
    ensures EncodeAll([x, y]) == Encode(x) + Encode(y)
  {
    assert [x, y][1..] == [y] && [y][1..] == [];
    assert EncodeAll([y]) == Encode(y) + EncodeAll([]);
  }

  lemma {:induction false} ShortHeads()
    ensures EncodeHead(0, 1) == [0x01] && EncodeHead(0, 2) == [0x02] && EncodeHead(0, 3) == [0x03] && EncodeHead(0, 4) == [0x04]
    ensures EncodeHead(0, 10) == [0x0a] && EncodeHead(1, 9) == [0x29] && EncodeHead(2, 4) == [0x44] && EncodeHead(3, 1) == [0x61]
    ensures EncodeHead(4, 2) == [0x82] && EncodeHead(5, 2) == [0xa2]
  {
    hide BigEndian;
    HeadBytes(0, 1);
    HeadBytes(0, 2);
    HeadBytes(0, 3);
    HeadBytes(0, 4);
    HeadBytes(0, 10);
    HeadBytes(1, 9);
    HeadBytes(2, 4);
    HeadBytes(3, 1);
    HeadBytes(4, 2);
    HeadBytes(5, 2);
    hide EncodeHead;
  }

  /** One example of every kind of item from appendix A of RFC 8949. */
  lemma {:induction false} Examples()
    ensures Encode(UInt(10)) == [0x0a] && Encode(NInt(9)) == [0x29]
    ensures Encode(ByteStr([1, 2, 3, 4])) == [0x44, 0x01, 0x02, 0x03, 0x04]
    ensures Encode(Text([0x61])) == [0x61, 0x61]
  {
    ShortHeads();
    hide EncodeHead;
  }

  lemma {:induction false} ContainerExamples()
    ensures Encode(Array([UInt(2), UInt(3)])) == [0x82, 0x02, 0x03]
    ensures Encode(Map([UInt(1), UInt(2), UInt(3), UInt(4)])) == [0xa2, 0x01, 0x02, 0x03, 0x04]
  {
    hide EncodeHead, EncodeAll;
    ShortHeads();
    TwoItems(UInt(2), UInt(3));
    TwoItems(UInt(1), UInt(2));
    TwoItems(UInt(3), UInt(4));
    assert [UInt(1), UInt(2), UInt(3), UInt(4)] == [UInt(1), UInt(2)] + [UInt(3), UInt(4)];
    EncodeAllConcat([UInt(1), UInt(2)], [UInt(3), UInt(4)]);
  }

  // ---------------------------------------------------------------- the messages

  /** The items of the messages without optional fields: the type number, then the fields in their order. */
  lemma {:induction false} PlainMessages(eph: bytes, b: bytes)
    ensures PacketItems(PreIndication) == [UInt(1)]
    ensures PacketItems(PreResponse(eph, b)) == [UInt(2), ByteStr(eph), ByteStr(b)]
    ensures PacketItems(RegIndication(eph, b)) == [UInt(3), ByteStr(eph), ByteStr(b)]
    ensures PacketItems(RegResponse(eph, b)) == [UInt(5), ByteStr(eph), Text(b)]
    ensures PacketItems(AuthIndicationDiscoverable) == [UInt(6)]
    ensures PacketItems(AuthIndicationServerSide(eph, b)) == [UInt(7), ByteStr(eph), ByteStr(b)]
  {
  }

  /** The items of a registration request in which everything is set. */
  lemma {:induction false} RegRequestLayout(p: RegRequest, kind: nat, alg: nat, ext: Extension)
    requires p.params == [CredParam(kind, -1 - alg)] && p.timeout != 0 && p.attestation != 0 && p.extensions == Some([ext])
    requires p.sel.attachment != 0 && p.sel.residentKey != 0 && p.sel.userVerification != 0
    ensures PacketItems(RegRequestPkt(p)) ==
            [UInt(4), Text(p.rpId), Text(p.rpName), ByteStr(p.challenge), Array([Array([UInt(kind), NInt(alg)])]),
             ByteStr(p.encrypted),
             Map([UInt(1), UInt(p.timeout),
                  UInt(2), Map([UInt(1), UInt(p.sel.attachment), UInt(2), UInt(p.sel.residentKey),
                                UInt(3), UInt(p.sel.userVerification)]),
                  UInt(4), UInt(p.attestation),
                  UInt(5), Map([Text(ext.id), ByteStr(ext.data)])])]
  {
    assert SetCriteria(p.sel) == [Criterion(1, p.sel.attachment), Criterion(2, p.sel.residentKey),
                                  Criterion(3, p.sel.userVerification)];
    CriteriaItems(p.sel.attachment, p.sel.residentKey, p.sel.userVerification);
    assert SetRegOpts(p) == [Timeout(p.timeout), Select(SetCriteria(p.sel)), Attest(p.attestation), Extend([ext])];
    OptionItems(Timeout(p.timeout), Select(SetCriteria(p.sel)), Attest(p.attestation), Extend([ext]));
    OneExtension(ext);
    assert ParamItems(p.params) == [ParamItem(CredParam(kind, -1 - alg))];
    hide CriterionItems, RegOptItems, ExtensionItems, ParamItems;
  }

  lemma {:induction false} CriteriaItems(x: nat, y: nat, z: nat)
    ensures CriterionItems([Criterion(1, x), Criterion(2, y), Criterion(3, z)]) ==
            [UInt(1), UInt(x), UInt(2), UInt(y), UInt(3), UInt(z)]
  {
    var a, b, c := Criterion(1, x), Criterion(2, y), Criterion(3, z);
    assert [a, b, c][1..] == [b, c] && [b, c][1..] == [c] && [c][1..] == [];
    assert CriterionItems([c]) == [UInt(3), UInt(z)] + CriterionItems([]);
    assert CriterionItems([b, c]) == [UInt(2), UInt(y)] + CriterionItems([c]);
  }

  lemma {:induction false} OptionItems(a: RegOpt, b: RegOpt, c: RegOpt, d: RegOpt)
    ensures RegOptItems([a, b, c, d]) ==
            [UInt(RegOptKey(a)), RegOptValue(a), UInt(RegOptKey(b)), RegOptValue(b),
             UInt(RegOptKey(c)), RegOptValue(c), UInt(RegOptKey(d)), RegOptValue(d)]
  {
    hide RegOptKey, RegOptValue;
    assert [a, b, c, d][1..] == [b, c, d] && [b, c, d][1..] == [c, d] && [c, d][1..] == [d] && [d][1..] == [];
    assert RegOptItems([d]) == [UInt(RegOptKey(d)), RegOptValue(d)] + RegOptItems([]);
    assert RegOptItems([c, d]) == [UInt(RegOptKey(c)), RegOptValue(c)] + RegOptItems([d]);
    assert RegOptItems([b, c, d]) == [UInt(RegOptKey(b)), RegOptValue(b)] + RegOptItems([c, d]);
  }

  lemma {:induction false} OneExtension(ext: Extension)
    ensures ExtensionItems([ext]) == [Text(ext.id), ByteStr(ext.data)]
  {
    assert [ext][1..] == [];
  }

  /** The items of an authentication request in which everything is set. */
  lemma {:induction false} AuthRequestLayout(p: AuthRequest, ext: Extension)
    requires p.timeout > 0 && p.rpId.Some? && p.allow.Some? && p.userVerification > 0 && p.extensions == Some([ext])
    ensures PacketItems(AuthRequestPkt(p)) ==
            [UInt(8), ByteStr(p.challenge),
             Map([UInt(1), UInt(p.timeout), UInt(2), Text(p.rpId.value), UInt(3), ByteStr(p.allow.value),
                  UInt(4), UInt(p.userVerification), UInt(5), Map([Text(ext.id), ByteStr(ext.data)])])]
  {
    var a, b, c := AuthTimeout(p.timeout), AuthRpId(p.rpId.value), AuthAllow(p.allow.value);
    var d, e := AuthVerification(p.userVerification), AuthExtend([ext]);
    assert SetAuthOpts(p) == [a, b, c, d, e];
    AuthItems(a, b, c, d, e);
    OneExtension(ext);
    hide AuthOptItems, ExtensionItems;
  }

  lemma {:induction false} AuthItems(a: AuthOpt, b: AuthOpt, c: AuthOpt, d: AuthOpt, e: AuthOpt)
    ensures AuthOptItems([a, b, c, d, e]) ==
            [IntItem(AuthOptKey(a)), AuthOptValue(a), IntItem(AuthOptKey(b)), AuthOptValue(b),
             IntItem(AuthOptKey(c)), AuthOptValue(c), IntItem(AuthOptKey(d)), AuthOptValue(d),
             IntItem(AuthOptKey(e)), AuthOptValue(e)]
  {
    hide AuthOptKey, AuthOptValue, IntItem;
    assert [a, b, c, d, e][1..] == [b, c, d, e] && [b, c, d, e][1..] == [c, d, e] && [c, d, e][1..] == [d, e];
    assert [d, e][1..] == [e] && [e][1..] == [];
    assert AuthOptItems([e]) == [IntItem(AuthOptKey(e)), AuthOptValue(e)] + AuthOptItems([]);
    assert AuthOptItems([d, e]) == [IntItem(AuthOptKey(d)), AuthOptValue(d)] + AuthOptItems([e]);
    assert AuthOptItems([c, d, e]) == [IntItem(AuthOptKey(c)), AuthOptValue(c)] + AuthOptItems([d, e]);
    assert AuthOptItems([b, c, d, e]) == [IntItem(AuthOptKey(b)), AuthOptValue(b)] + AuthOptItems([c, d, e]);
  }

  /** The items of an authentication response in which everything is set. */
  lemma {:induction false} AuthResponseLayout(p: AuthResponse)
    requires p.userHandle != [] && p.credId != []
    ensures PacketItems(AuthResponsePkt(p)) ==
            [UInt(9), Text(p.clientData), ByteStr(p.authData), ByteStr(p.signature),
             Map([UInt(1), ByteStr(p.userHandle), UInt(2), ByteStr(p.credId)])]
  {
    assert ResponseOptItems(p) == [UInt(1), ByteStr(p.userHandle), UInt(2), ByteStr(p.credId)];
  }

  /** The items inside the ciphertexts. */
  lemma {:induction false} SecretLayouts(name: bytes, ticket: bytes, s: RegSecret, id: bytes)
    requires s.exclude == [Descriptor(1, id)]
    ensures EncryptedDataItems(EncryptedData(name, ticket)) == [ByteStr(name), ByteStr(ticket)]
    ensures RegSecretItems(s) == [ByteStr(s.userName), ByteStr(s.displayName), ByteStr(s.userId),
                                  Array([Array([UInt(1), ByteStr(id)])])]
    ensures DescriptorItems(s.exclude) == [Array([UInt(1), ByteStr(id)])]
  {
    assert DescriptorItems(s.exclude) == [DescriptorItem(Descriptor(1, id))];
  }

  /** What a parser reads for policies that are not set: discouraged, preferred and none. */
  lemma {:induction false} Defaults(p: RegRequest)
    ensures NormalReg(p).sel == AuthSel(p.sel.attachment, if p.sel.residentKey == 0 then 1 else p.sel.residentKey,
                                        if p.sel.userVerification == 0 then 2 else p.sel.userVerification)
    ensures NormalReg(p).attestation == if p.attestation == 0 then 1 else p.attestation
  {
  }

  // ---------------------------------------------------------------- texts

  /** The texts of the protocol in ASCII. */
  lemma {:induction false} Texts()
    ensures Chars("webauthn.create") == [119, 101, 98, 97, 117, 116, 104, 110, 46, 99, 114, 101, 97, 116, 101]
    ensures Chars("webauthn.get") == [119, 101, 98, 97, 117, 116, 104, 110, 46, 103, 101, 116]
    ensures Chars("https://") == [104, 116, 116, 112, 115, 58, 47, 47]
  {
    var c, g, h := "webauthn.create", "webauthn.get", "https://";
    assert c[0] == 'w' && c[1] == 'e' && c[2] == 'b' && c[3] == 'a' && c[4] == 'u' && c[5] == 't' && c[6] == 'h';
    assert c[7] == 'n' && c[8] == '.' && c[9] == 'c' && c[10] == 'r' && c[11] == 'e' && c[12] == 'a' && c[13] == 't';
    assert c[14] == 'e';
    assert g[0] == 'w' && g[1] == 'e' && g[2] == 'b' && g[3] == 'a' && g[4] == 'u' && g[5] == 't' && g[6] == 'h';
    assert g[7] == 'n' && g[8] == '.' && g[9] == 'g' && g[10] == 'e' && g[11] == 't';
    assert h[0] == 'h' && h[1] == 't' && h[2] == 't' && h[3] == 'p' && h[4] == 's' && h[5] == ':' && h[6] == '/';
    assert h[7] == '/';
  }

  // ---------------------------------------------------------------- options

  /** Every option of the server is kept where it belongs. */
  lemma {:induction false} ServerOptions(opts: ServerOpts, kEp: bytes)
    ensures var d := InitRp(opts, kEp);
            && (d.Some? <==> opts.rpId.Some? && opts.rpName.Some?
                             && (opts.ticket.Some? ==> Encoding.DecodeBase64(opts.ticket.value).Some?))
            && (d.Some? ==>
              && opts.rpId == Some(d.value.rpId) && opts.rpName == Some(d.value.rpName) && d.value.kEp == kEp
              && d.value.userVerification == opts.userVerification && d.value.residentKey == opts.residentKey
              && d.value.authAttach == opts.authAttach && d.value.attestation == opts.attestation
              && d.value.timeout == opts.timeout % 0x1_0000_0000
              && d.value.ticket == if opts.ticket.Some? then Encoding.DecodeBase64(opts.ticket.value) else None)
  {
    hide Encoding.DecodeBase64;
  }

  /** When there is a client, and what it starts with: everything but name, ticket, state and ceremony is unset. */
  lemma {:induction false} ClientOptions(opts: ClientOpts)
    ensures var d := InitUd(opts);
            && (d.Some? <==> opts.pin.Some?
                             && (opts.mode == RegisterMode ==> opts.displayName.Some? && opts.ticket.Some?
                                                               && Encoding.DecodeBase64(opts.ticket.value).Some?))
            && (d.Some? ==>
                  && d.value == BLANK.(state := d.value.state, ceremony := d.value.ceremony, userName := d.value.userName,
                                       displayName := d.value.displayName, ticket := d.value.ticket)
                  && (opts.mode == RegisterMode ==>
                        d.value.state == RegInitial && d.value.ceremony == Registration && d.value.userName.None?
                        && d.value.displayName == opts.displayName && d.value.ticket == Encoding.DecodeBase64(opts.ticket.value))
                  && (opts.mode == DiscoverableMode ==>
                        d.value.state == AuthInitialDiscoverable && d.value.ceremony == AuthDiscoverable
                        && d.value.userName.None? && d.value.displayName.None? && d.value.ticket.None?)
                  && (opts.mode == ServerSideMode ==>
                        d.value.state == AuthInitialServerSide && d.value.ceremony == AuthServerSide
                        && d.value.userName == opts.userName && d.value.displayName.None? && d.value.ticket.None?))
  {
    hide Encoding.DecodeBase64;
  }

  // ---------------------------------------------------------------- errors of the helpers

  /** There is a ciphertext exactly for a key of 16, 24 or 32 bytes and one of the four types that are encrypted. */
  lemma {:induction false} EncryptsExactly(env: Env, key: Option<bytes>, t: int, plain: bytes)
    ensures Encrypt(env, key, t, plain).Some? <==> key.Some? && |key.value| in {16, 24, 32} && t in {3, 4, 7, 8}
  {
  }

  /** Nothing is decrypted with any other key or type, and otherwise the cipher decides. */
  lemma {:induction false} DecryptsExactly(env: Env, key: Option<bytes>, t: int, cipher: bytes)
    ensures Decrypt(env, key, t, cipher) ==
            if key.Some? && |key.value| in {16, 24, 32} && t in {3, 4, 7, 8}
            then env.open(key.value, MessageIv(t).value, cipher) else None
  {
  }

  /** A field that the builder asserts to be there is empty. */
  predicate Missing(p: Packet) {
    || (p.PreResponse? && (p.eph == [] || p.key == []))
    || (p.RegIndication? && (p.eph == [] || p.encrypted == []))
    || (p.RegRequestPkt? && [] in {p.reg.challenge, p.reg.encrypted})
    || (p.RegRequestPkt? && p.reg.params == [])
    || (p.RegResponse? && p.attObj == [])
    || (p.AuthRequestPkt? && p.req.challenge == [])
    || (p.AuthResponsePkt? && [] in {p.resp.authData, p.resp.signature})
  }

  /** Building ends the process exactly if such a field is empty; otherwise the message is sent exactly if it can be built. */
  lemma {:induction false} BuildingExactly(p: Packet)
    ensures BuildRet(p) == Aborted <==> Missing(p)
    ensures !Missing(p) ==> BuildRet(p) == if Build(p).Some? then Sent(Build(p).value) else Failed
  {
    hide Build;
  }
}
