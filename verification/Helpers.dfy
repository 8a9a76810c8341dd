/** What both sides do with buffers around the encrypted parts of messages. */
module Helpers {
  import opened Bytes
  import opened Packets
  import opened Padding
  import opened Environment
  import opened Builder

  /** Pads a name into a new block. */
  method PadName(name: bytes) returns (r: Option<bytes>)
    ensures r == if Paddable(name) then Some(Pad(name)) else None
  {
    var block := new byte[BLOCK];
    var ok := BitPadding(block, name);
    return if ok then Some(block[..]) else None;
  }

  /** Removes the padding of a block into a new buffer. */
  method UnpadName(block: bytes) returns (r: Option<bytes>)
    requires |block| == BLOCK
    ensures r == Unpad(block)
  {
    var padded := new byte[BLOCK](i requires 0 <= i < BLOCK => block[i]);
    assert padded[..] == block;
    var unpadded := new byte[BLOCK + 1];
    var ok, length := RemoveBitPadding(unpadded, padded);
    return if ok then Some(unpadded[..length]) else None;
  }

  method EncryptMessage(env: Env, key: Option<bytes>, t: int, plain: bytes) returns (r: Option<bytes>)
    requires t != 0
    ensures r == Encrypt(env, key, t, plain)
  {
    var iv := new byte[12];
    var ok := GetMessageIv(t, iv);
    if !ok || key.None? || !KeyLength(|key.value|) { return None; }
    return Some(env.seal(key.value, iv[..], plain));
  }

  method DecryptMessage(env: Env, key: Option<bytes>, t: int, cipher: bytes) returns (r: Option<bytes>)
    requires t != 0
    ensures r == Decrypt(env, key, t, cipher)
  {
    var iv := new byte[12];
    var ok := GetMessageIv(t, iv);
    if !ok || key.None? || !KeyLength(|key.value|) { return None; }
    return env.open(key.value, iv[..], cipher);
  }

  /** Builds a message; a failed assertion in the builder ends the process. */
  method BuildMessage(p: Packet) returns (ret: Ret)
    ensures ret == BuildRet(p)
  {
    if !BuildAsserts(p) { return Aborted; }
    var out := CborBuild(p);
    return if out.Some? then Sent(out.value) else Failed;
  }
}
