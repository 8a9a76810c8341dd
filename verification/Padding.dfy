/** Bit padding of names to 256 bytes, and the initialisation vectors of the encrypted messages. */
module Padding {
  import opened Bytes
  import opened Packets

  const BLOCK: nat := 256
  const MARK: byte := 0x80

  /** A name, the marker and zeros up to the block size. */
  function Pad(d: bytes): (p: bytes)
    requires |d| < BLOCK
    ensures |p| == BLOCK
  {
    d + [MARK] + seq(BLOCK - 1 - |d|, _ => 0)
  }

  predicate Paddable(d: bytes) {
    1 <= |d| < BLOCK
  }

  /** The position of the marker in the first `n` bytes: the last byte that is not zero, if it is the marker. */
  function Marker(p: bytes, n: nat): (r: Option<nat>)
    requires n <= |p|
    ensures r.Some? ==> 1 <= r.value < n && p[r.value] == MARK
  {
    if n <= 1 then None
    else if p[n - 1] == 0 then Marker(p, n - 1)
    else if p[n - 1] == MARK then Some(n - 1)
    else None
  }

  function Unpad(p: bytes): Option<bytes>
    requires |p| == BLOCK
  {
    var i :- Marker(p, BLOCK);
    Some(p[..i])
  }

  lemma {:induction false} MarkerIsLast(p: bytes, n: nat, k: nat)
    requires 1 <= k < n <= |p| && p[k] == MARK && forall i :: k < i < n ==> p[i] == 0
    ensures Marker(p, n) == Some(k)
    decreases n
  {
    if k < n - 1 {
      MarkerIsLast(p, n - 1, k);
    }
  }

  lemma {:induction false} OnlyZerosAfterMarker(p: bytes, n: nat)
    requires n <= |p|
    ensures var m := Marker(p, n); m.Some? ==> forall i :: m.value < i < n ==> p[i] == 0
  {
    if n > 1 && p[n - 1] == 0 {
      OnlyZerosAfterMarker(p, n - 1);
    }
  }

  /** Whatever bytes the name holds, 0x80 and 0x00 among them. */
  lemma {:induction false} UnpadPad(d: bytes)
    requires Paddable(d)
    ensures Unpad(Pad(d)) == Some(d)
  {
    MarkerIsLast(Pad(d), BLOCK, |d|);
    assert Pad(d)[..|d|] == d;
  }

  /** A block is accepted exactly when it is the padding of the result. */
  lemma {:induction false} PadUnpad(p: bytes)
    requires |p| == BLOCK
    ensures Unpad(p).Some? ==> Paddable(Unpad(p).value) && Pad(Unpad(p).value) == p
    ensures Unpad(p).None? ==> forall d :: Paddable(d) ==> Pad(d) != p
  {
    OnlyZerosAfterMarker(p, BLOCK);
    if Unpad(p).Some? {
      assert Pad(Unpad(p).value) == p;
    }
    forall d | Paddable(d) && Pad(d) == p ensures Unpad(p).Some? {
      UnpadPad(d);
    }
  }

  /** A block of 256 bytes with the name, then the byte 0x80, then zeros. */
  predicate PaddedBlock(p: bytes, d: bytes) {
    && |p| == 256 && 1 <= |d| <= 255
    && p[..|d|] == d && p[|d|] == 0x80 && forall i :: |d| < i < 256 ==> p[i] == 0
  }

  /** Padding writes such a block, and removing it finds the name in such a block and nowhere else. */
  lemma {:induction false} PaddingExactly(p: bytes, d: bytes)
    ensures Paddable(d) && Pad(d) == p <==> PaddedBlock(p, d)
    ensures |p| == BLOCK ==> (Unpad(p) == Some(d) <==> PaddedBlock(p, d))
  {
    if |p| == BLOCK {
      PadUnpad(p);
      if PaddedBlock(p, d) {
        assert Pad(d) == p;
        UnpadPad(d);
      }
    }
  }

  /** `bit_padding`. */
  method BitPadding(padded: array<byte>, data: bytes) returns (ok: bool)
    requires padded.Length == BLOCK
    modifies padded
    ensures ok == Paddable(data)
    ensures ok ==> padded[..] == Pad(data)
    ensures !ok ==> padded[..] == old(padded[..])
  {
    if |data| == 0 || |data| > 255 { return false; }
    for i := 0 to |data|
      invariant padded[..i] == data[..i]
    {
      padded[i] := data[i];
    }
    padded[|data|] := MARK;
    for i := |data| + 1 to BLOCK
      invariant padded[..|data|] == data && padded[|data|] == MARK
      invariant forall k :: |data| < k < i ==> padded[k] == 0
    {
      padded[i] := 0;
    }
    assert padded[..] == Pad(data);
    return true;
  }

  /** `remove_bit_padding`: the length is 0 on failure; the name and its terminator are written only on success. */
  method RemoveBitPadding(unpadded: array<byte>, padded: array<byte>) returns (ok: bool, length: nat)
    requires padded.Length == BLOCK && unpadded.Length > BLOCK && padded != unpadded
    modifies unpadded
    ensures ok == Unpad(padded[..]).Some?
    ensures ok ==> length < BLOCK && Some(unpadded[..length]) == Unpad(padded[..]) && unpadded[length] == 0
    ensures !ok ==> length == 0 && unpadded[..] == old(unpadded[..])
  {
    length := 0;
    var i := BLOCK - 1;
    while i >= 0
      invariant -1 <= i < BLOCK && length == 0
      invariant unpadded[..] == old(unpadded[..]) && padded[..] == old(padded[..])
      invariant Marker(padded[..], BLOCK) == Marker(padded[..], i + 1)
    {
      if padded[i] == 0 && i > 0 {
        i := i - 1;
      } else if padded[i] == MARK && i > 0 {
        ghost var block := padded[..];
        for k := 0 to i
          invariant unpadded[..k] == padded[..k] && padded[..] == block
        {
          unpadded[k] := padded[k];
        }
        unpadded[i] := 0;
        assert unpadded[..i] == block[..i];
        return true, i;
      } else {
        return false, length;
      }
    }
    return false, length;
  }

  /** The ASCII text "messagetype" and the digit of the message type. */
  function MessageIv(t: int): (r: Option<bytes>)
    ensures r.Some? ==> |r.value| == 12
  {
    if t in {PKT_REG_INDICATION, PKT_REG_REQUEST, PKT_AUTH_INDICATION_SERVER_SIDE, PKT_AUTH_REQUEST} then
      Some([109, 101, 115, 115, 97, 103, 101, 116, 121, 112, 101, 48 + t])
    else None
  }

  /** The vector is the text "messagetype" and the digit of one of the four types that are encrypted. */
  lemma {:induction false} VectorText(t: int)
    ensures MessageIv(t).Some? <==> t in {3, 4, 7, 8}
    ensures MessageIv(t).Some? ==>
              (MessageIv(t).value ==
               ['m' as int, 'e' as int, 's' as int, 's' as int, 'a' as int, 'g' as int, 'e' as int, 't' as int, 'y' as int,
                'p' as int, 'e' as int, '0' as int + t])
  {
  }

  /** Messages of different types never share an initialisation vector. */
  lemma {:induction false} MessageIvsDiffer(s: int, t: int)
    requires MessageIv(s).Some? && s != t
    ensures MessageIv(s) != MessageIv(t)
  {
    if MessageIv(t).Some? {
      assert MessageIv(s).value[11] != MessageIv(t).value[11];
    }
  }

  /** `get_message_iv`. */
  method GetMessageIv(t: int, iv: array<byte>) returns (ok: bool)
    requires iv.Length == 12 && t != 0
    modifies iv
    ensures MessageIv(t) == if ok then Some(iv[..]) else None
  {
    var text := [109, 101, 115, 115, 97, 103, 101, 116, 121, 112, 101, 48];
    if t == PKT_REG_INDICATION || t == PKT_REG_REQUEST || t == PKT_AUTH_INDICATION_SERVER_SIDE || t == PKT_AUTH_REQUEST {
      forall k | 0 <= k < 12 { iv[k] := if k < 11 then text[k] else 48 + t; }
      assert iv[..] == MessageIv(t).value;
      return true;
    }
    return false;
  }
}
