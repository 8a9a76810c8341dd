/** Base64 and its URL-safe form without padding (sections 4 and 5 of RFC 4648). */
module Encoding {
  import opened Bytes

  /** The padding character '='. */
  const PAD: byte := 61

  type sextet = v: int | 0 <= v < 64

  function Char(v: sextet): byte {
    if v < 26 then 65 + v else if v < 52 then 71 + v else if v < 62 then v - 4 else if v == 62 then 43 else 47
  }

  /** The URL-safe alphabet: '-' and '_' replace '+' and '/'. */
  function UrlChar(v: sextet): byte {
    if v == 62 then 45 else if v == 63 then 95 else Char(v)
  }

  /** The value of a character in the decoder's table, where '=' counts as zero. */
  function Value(c: byte): Option<sextet> {
    if 65 <= c <= 90 then Some(c - 65)
    else if 97 <= c <= 122 then Some(c - 71)
    else if 48 <= c <= 57 then Some(c + 4)
    else if c == 43 then Some(62)
    else if c == 47 then Some(63)
    else if c == PAD then Some(0)
    else None
  }

  // ---------------------------------------------------------------- groups of three bytes

  function ByteAt(x: bytes, i: nat): byte {
    if i < |x| then x[i] else 0
  }

  /** The four sextets of up to three bytes. */
  function Sextet(x: bytes, i: nat): sextet
    requires i < 4
  {
    if i == 0 then ByteAt(x, 0) / 4
    else if i == 1 then ByteAt(x, 0) % 4 * 16 + ByteAt(x, 1) / 16
    else if i == 2 then ByteAt(x, 1) % 16 * 4 + ByteAt(x, 2) / 64
    else ByteAt(x, 2) % 64
  }

  /** The four characters of up to three bytes. */
  function EncodeQuad(x: bytes): (r: bytes)
    requires 1 <= |x| <= 3
    ensures |r| == 4
  {
    [Char(Sextet(x, 0)), Char(Sextet(x, 1)),
     if |x| >= 2 then Char(Sextet(x, 2)) else PAD, if |x| == 3 then Char(Sextet(x, 3)) else PAD]
  }

  function DecodeQuad(s: bytes): (r: Option<bytes>)
    requires |s| == 4
    ensures r.Some? ==> |r.value| == 3
  {
    var a :- Value(s[0]);
    var b :- Value(s[1]);
    var c :- Value(s[2]);
    var d :- Value(s[3]);
    Some([a * 4 + b / 16, b % 16 * 16 + c / 4, c % 4 * 64 + d])
  }

  function Zeros(n: nat): bytes {
    seq(n, _ => 0)
  }

  lemma {:induction false} CharRoundTrip(v: sextet)
    ensures Value(Char(v)) == Some(v) && Char(v) != PAD
    ensures Same(UrlChar(v), Char(v)) && UrlSafe(UrlChar(v))
  {
  }

  lemma {:induction false} SextetsRoundTrip(x: bytes)
    ensures Sextet(x, 0) * 4 + Sextet(x, 1) / 16 == ByteAt(x, 0)
    ensures Sextet(x, 1) % 16 * 16 + Sextet(x, 2) / 4 == ByteAt(x, 1)
    ensures Sextet(x, 2) % 4 * 64 + Sextet(x, 3) == ByteAt(x, 2)
    ensures |x| <= 1 ==> Sextet(x, 2) == 0
    ensures |x| <= 2 ==> Sextet(x, 3) == 0
  {
  }

  /** '=' counts as zero, so a group decodes to its bytes and a zero for every padding character. */
  lemma {:induction false} QuadRoundTrip(x: bytes)
    requires 1 <= |x| <= 3
    ensures DecodeQuad(EncodeQuad(x)) == Some(x + Zeros(3 - |x|))
  {
    SextetsRoundTrip(x);
    CharRoundTrip(Sextet(x, 0));
    CharRoundTrip(Sextet(x, 1));
    CharRoundTrip(Sextet(x, 2));
    CharRoundTrip(Sextet(x, 3));
    assert Value(PAD) == Some(0);
    hide Char, Value, Sextet, UrlChar;
    assert x + Zeros(3 - |x|) == [ByteAt(x, 0), ByteAt(x, 1), ByteAt(x, 2)];
  }

  lemma {:induction false} QuadPads(x: bytes)
    requires 1 <= |x| <= 3
    ensures forall i :: 0 <= i < 4 ==> (EncodeQuad(x)[i] == PAD <==> i > |x|)
  {
    CharRoundTrip(Sextet(x, 0));
    CharRoundTrip(Sextet(x, 1));
    CharRoundTrip(Sextet(x, 2));
    CharRoundTrip(Sextet(x, 3));
    hide Char, Value, Sextet, UrlChar;
  }

  // ---------------------------------------------------------------- blocks

  /** The library's block encoder. */
  function EncodeBlock(x: bytes): (r: bytes)
    ensures |r| == 4 * ((|x| + 2) / 3)
  {
    if x == [] then [] else if |x| <= 3 then EncodeQuad(x) else EncodeQuad(x[..3]) + EncodeBlock(x[3..])
  }

  /** The library's block decoder: whole groups of four characters, each of them three bytes. */
  function DecodeBlock(s: bytes): (r: Option<bytes>)
    ensures r.Some? ==> 4 * |r.value| == 3 * |s|
  {
    if s == [] then Some([])
    else if |s| < 4 then None
    else
      var head :- DecodeQuad(s[..4]);
      var tail :- DecodeBlock(s[4..]);
      Some(head + tail)
  }

  /** How many padding characters an encoding of `n` bytes ends in. */
  function PadCount(n: nat): (r: nat)
    ensures r < 3
  {
    (3 - n % 3) % 3
  }

  lemma {:induction false} PadCountStep(n: nat)
    ensures 1 <= n <= 3 ==> PadCount(n) == 3 - n
    ensures n > 3 ==> PadCount(n) == PadCount(n - 3)
    ensures 4 * ((n + 2) / 3) >= PadCount(n) && PadCount(0) == 0
  {
  }

  lemma {:induction false} BlockRoundTrip(x: bytes)
    ensures DecodeBlock(EncodeBlock(x)) == Some(x + Zeros(PadCount(|x|)))
    decreases |x|
  {
    PadCountStep(|x|);
    hide EncodeQuad, DecodeQuad, PadCount;
    var s := EncodeBlock(x);
    if x == [] {
      assert x + Zeros(0) == [];
    } else if |x| <= 3 {
      QuadRoundTrip(x);
      assert s[..4] == s && DecodeBlock(s[4..]) == Some([]);
      assert x + Zeros(3 - |x|) + [] == x + Zeros(PadCount(|x|));
    } else {
      var head, tail := x[..3], x[3..];
      assert s[..4] == EncodeQuad(head) && s[4..] == EncodeBlock(tail);
      QuadRoundTrip(head);
      BlockRoundTrip(tail);
      assert (head + Zeros(0)) + (tail + Zeros(PadCount(|x|))) == x + Zeros(PadCount(|x|));
    }
  }

  /** The padding of an encoding is at its end, and only there. */
  lemma {:induction false} PadsAtTheEnd(x: bytes)
    ensures forall i :: 0 <= i < |EncodeBlock(x)| ==> (EncodeBlock(x)[i] == PAD <==> i >= |EncodeBlock(x)| - PadCount(|x|))
    decreases |x|
  {
    PadCountStep(|x|);
    hide EncodeQuad, PadCount;
    if 1 <= |x| <= 3 {
      QuadPads(x);
    } else if x != [] {
      QuadPads(x[..3]);
      PadsAtTheEnd(x[3..]);
    }
  }

  // ---------------------------------------------------------------- decode_base64

  /** What `decode_base64` returns. Nothing is allocated for the empty string, so decoding it fails. */
  function DecodeBase64(s: bytes): Option<bytes> {
    if s == [] then None else
      var d :- DecodeBlock(s);
      if |d| == 0 || s[|s| - 1] != PAD then Some(d)
      else if s[|s| - 2] != PAD then Some(d[..|d| - 1])
      else Some(d[..|d| - 2])
  }

  lemma {:induction false} Base64RoundTrip(x: bytes)
    ensures DecodeBase64(EncodeBlock(x)) == if x == [] then None else Some(x)
  {
    if x != [] {
      BlockRoundTrip(x);
      PadsAtTheEnd(x);
      var s, n := EncodeBlock(x), PadCount(|x|);
      hide EncodeBlock, DecodeBlock, PadCount;
      var d := x + Zeros(n);
      assert s[|s| - 1] == PAD <==> n >= 1;
      assert s[|s| - 2] == PAD <==> n == 2;
      assert |d| - n == |x| && d[..|d| - n] == x;
      assert d[..|d|] == d;
    }
  }

  method DecodeBase64String(input: bytes) returns (r: Option<bytes>)
    ensures r == DecodeBase64(input)
  {
    if |input| == 0 { return None; }
    var d :- DecodeBlock(input);
    var length := |d|;
    if input[|input| - 1] == PAD {
      length := length - 1;
      if input[|input| - 2] == PAD {
        length := length - 1;
      }
    }
    assert d[..|d|] == d;
    return Some(d[..length]);
  }

  // ---------------------------------------------------------------- base64url

  predicate UrlSafe(c: byte) {
    65 <= c <= 90 || 97 <= c <= 122 || 48 <= c <= 57 || c == 45 || c == 95
  }

  function ToUrl(c: byte): byte {
    if c == 43 then 45 else if c == 47 then 95 else c
  }

  function FromUrl(c: byte): byte {
    if c == 45 then 43 else if c == 95 then 47 else c
  }

  /** `u` is `c` in the URL-safe alphabet. */
  predicate Same(u: byte, c: byte) {
    u == ToUrl(c) && c == FromUrl(u)
  }

  /** A group of up to three bytes, with no padding. */
  function UrlQuad(x: bytes): (r: bytes)
    requires 1 <= |x| <= 3
    ensures |r| == |x| + 1
  {
    seq(|x| + 1, i requires 0 <= i <= |x| => UrlChar(Sextet(x, i)))
  }

  /** The encoding of section 5 of RFC 4648 without padding. */
  function UrlText(x: bytes): bytes {
    if x == [] then [] else if |x| <= 3 then UrlQuad(x) else UrlQuad(x[..3]) + UrlText(x[3..])
  }

  lemma {:induction false} UrlQuadAt(x: bytes)
    requires 1 <= |x| <= 3
    ensures forall i :: 0 <= i <= |x| ==> Same(UrlQuad(x)[i], EncodeQuad(x)[i]) && UrlSafe(UrlQuad(x)[i])
  {
    forall i | 0 <= i <= |x| ensures Same(UrlQuad(x)[i], EncodeQuad(x)[i]) && UrlSafe(UrlQuad(x)[i]) {
      CharRoundTrip(Sextet(x, i));
      hide Char, UrlChar, Sextet, Same, UrlSafe;
    }
  }

  /** Only letters, digits, '-' and '_', no '=', and never one character left over. */
  lemma {:induction false} UrlTextIsUrlSafe(x: bytes)
    ensures forall i :: 0 <= i < |UrlText(x)| ==> UrlSafe(UrlText(x)[i])
    ensures |UrlText(x)| == (4 * |x| + 2) / 3 && |UrlText(x)| % 4 != 1
    decreases |x|
  {
    hide UrlSafe, UrlQuad, EncodeQuad, Same;
    if 1 <= |x| <= 3 {
      UrlQuadAt(x);
    } else if x != [] {
      UrlQuadAt(x[..3]);
      UrlTextIsUrlSafe(x[3..]);
    }
  }

  /** The URL-safe text is the block encoding without its padding, character by character. */
  lemma {:induction false} UrlTextAt(x: bytes)
    ensures |UrlText(x)| + PadCount(|x|) == |EncodeBlock(x)|
    ensures forall i :: 0 <= i < |UrlText(x)| ==> Same(UrlText(x)[i], EncodeBlock(x)[i])
    decreases |x|
  {
    PadCountStep(|x|);
    hide UrlSafe, UrlQuad, EncodeQuad, Same, PadCount;
    if 1 <= |x| <= 3 {
      UrlQuadAt(x);
    } else if x != [] {
      UrlQuadAt(x[..3]);
      UrlTextAt(x[3..]);
    }
  }

  /** The characters `base64url_decode` hands to the plain decoder. */
  function Restore(s: bytes): bytes {
    seq(|s|, i requires 0 <= i < |s| => FromUrl(s[i])) +
    (if |s| % 4 == 2 then [PAD, PAD] else if |s| % 4 == 3 then [PAD] else [])
  }

  /** What `base64url_decode` returns. */
  function UrlDecode(s: bytes): Option<bytes> {
    if |s| % 4 == 1 then None else DecodeBase64(Restore(s))
  }

  lemma {:induction false} LeftOver(t: nat, n: nat, q: nat)
    requires t + n == 4 * q && n < 3
    ensures t % 4 == if n == 0 then 0 else 4 - n
  {
  }

  lemma {:induction false} RestoreUrlText(x: bytes)
    ensures |UrlText(x)| % 4 != 1 && Restore(UrlText(x)) == EncodeBlock(x)
  {
    UrlTextAt(x);
    PadsAtTheEnd(x);
    var t, s, n := UrlText(x), EncodeBlock(x), PadCount(|x|);
    LeftOver(|t|, n, (|x| + 2) / 3);
    hide UrlText, EncodeBlock, PadCount, UrlSafe;
    assert forall i :: 0 <= i < |t| ==> FromUrl(t[i]) == s[i];
    assert forall i :: |t| <= i < |s| ==> s[i] == PAD;
    assert |Restore(t)| == |s|;
  }

  /** Decoding undoes encoding, except that the empty encoding is not decoded at all. */
  lemma {:induction false} UrlRoundTrip(x: bytes)
    ensures UrlDecode(UrlText(x)) == if x == [] then None else Some(x)
  {
    hide UrlText, Restore, EncodeBlock;
    RestoreUrlText(x);
    Base64RoundTrip(x);
  }

  /** One character left over is never decoded. */
  lemma {:induction false} LeftOverRefused(s: bytes)
    requires |s| % 4 == 1
    ensures UrlDecode(s) == None
  {
  }

  method UrlEncodeBytes(input: bytes) returns (r: bytes)
    ensures r == UrlText(input)
  {
    UrlTextAt(input);
    UrlTextIsUrlSafe(input);
    PadsAtTheEnd(input);
    var block := EncodeBlock(input);
    hide UrlText, EncodeBlock, PadCount, UrlSafe;
    var output := new byte[|block|](i requires 0 <= i < |block| => block[i]);
    for i := 0 to output.Length
      invariant forall k :: 0 <= k < i ==> output[k] == ToUrl(block[k])
      invariant forall k :: i <= k < output.Length ==> output[k] == block[k]
    {
      if output[i] == 43 {
        output[i] := 45;
      } else if output[i] == 47 {
        output[i] := 95;
      }
    }
    var length := output.Length;
    while length > 0 && output[length - 1] == PAD
      invariant |UrlText(input)| <= length <= output.Length
    {
      length := length - 1;
    }
    r := output[..length];
  }

  method UrlDecodeString(input: bytes) returns (r: Option<bytes>)
    ensures r == UrlDecode(input)
  {
    var padding := |input| % 4;
    if padding == 1 { return None; }
    var fill := if padding == 0 then 0 else 4 - padding;
    var modified := new byte[|input| + fill](i => if 0 <= i < |input| then input[i] else PAD);
    for i := 0 to |input|
      invariant forall k :: 0 <= k < i ==> modified[k] == FromUrl(input[k])
      invariant forall k :: i <= k < |input| ==> modified[k] == input[k]
      invariant forall k :: |input| <= k < modified.Length ==> modified[k] == PAD
    {
      if modified[i] == 45 {
        modified[i] := 43;
      } else if modified[i] == 95 {
        modified[i] := 47;
      }
    }
    assert modified[..] == Restore(input);
    r := DecodeBase64String(modified[..]);
  }

  // ---------------------------------------------------------------- the tables and examples of RFC 4648

  /** The characters are those of tables 1 and 2 of RFC 4648. */
  lemma {:induction false} Alphabets(v: sextet)
    ensures Char(v) == if v < 26 then 'A' as int + v else if v < 52 then 'a' as int + (v - 26)
                       else if v < 62 then '0' as int + (v - 52) else if v == 62 then '+' as int else '/' as int
    ensures UrlChar(v) == if v == 62 then '-' as int else if v == 63 then '_' as int else Char(v)
  {
  }

  /** Four sextets are the same number as the three bytes they stand for, absent bytes being zero. */
  lemma {:induction false} SameNumber(x: bytes)
    requires 1 <= |x| <= 3
    ensures ((Sextet(x, 0) * 64 + Sextet(x, 1)) * 64 + Sextet(x, 2)) * 64 + Sextet(x, 3) ==
            (x[0] as int * 256 + if |x| > 1 then x[1] else 0) * 256 + if |x| > 2 then x[2] else 0
  {
  }

  lemma {:induction false} QuadExamples()
    ensures EncodeQuad([102]) == [90, 103, 61, 61]
    ensures EncodeQuad([102, 111]) == [90, 109, 56, 61]
    ensures EncodeQuad([102, 111, 111]) == [90, 109, 57, 118]
    ensures EncodeQuad([98]) == [89, 103, 61, 61]
    ensures EncodeQuad([98, 97]) == [89, 109, 69, 61]
    ensures EncodeQuad([98, 97, 114]) == [89, 109, 70, 121]
  {
  }

  lemma {:induction false} OneQuad(x: bytes)
    requires 1 <= |x| <= 3
    ensures EncodeBlock(x) == EncodeQuad(x)
  {
  }

  lemma {:induction false} TwoQuads(x: bytes, y: bytes)
    requires |x| == 3 && 1 <= |y| <= 3
    ensures EncodeBlock(x + y) == EncodeQuad(x) + EncodeQuad(y)
  {
    hide EncodeQuad;
    assert (x + y)[..3] == x && (x + y)[3..] == y;
    OneQuad(y);
  }

  /** The examples of section 10 of RFC 4648: the beginnings of the text "foobar". */
  lemma {:induction false} Examples()
    ensures EncodeBlock([102]) == [90, 103, 61, 61]
    ensures EncodeBlock([102, 111]) == [90, 109, 56, 61]
    ensures EncodeBlock([102, 111, 111]) == [90, 109, 57, 118]
    ensures EncodeBlock([102, 111, 111, 98]) == [90, 109, 57, 118, 89, 103, 61, 61]
    ensures EncodeBlock([102, 111, 111, 98, 97]) == [90, 109, 57, 118, 89, 109, 69, 61]
    ensures EncodeBlock([102, 111, 111, 98, 97, 114]) == [90, 109, 57, 118, 89, 109, 70, 121]
  {
    QuadExamples();
    hide EncodeQuad, EncodeBlock;
    OneQuad([102]);
    OneQuad([102, 111]);
    OneQuad([102, 111, 111]);
    TwoQuads([102, 111, 111], [98]);
    TwoQuads([102, 111, 111], [98, 97]);
    TwoQuads([102, 111, 111], [98, 97, 114]);
    assert [102, 111, 111] + [98] == [102, 111, 111, 98];
    assert [102, 111, 111] + [98, 97] == [102, 111, 111, 98, 97];
    assert [102, 111, 111] + [98, 97, 114] == [102, 111, 111, 98, 97, 114];
  }
}
