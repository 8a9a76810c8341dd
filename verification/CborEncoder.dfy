/** TinyCBOR's bounded encoder: it writes into a fixed buffer and keeps counting once the buffer is full. */
module CborEncoder {
  import opened Bytes
  import opened Cbor

  /** One item fewer is expected in a container; the count stops at zero. */
  function Dec(remaining: nat): nat {
    if remaining > 0 then remaining - 1 else 0
  }

  class Encoder {
    const buf: array<byte>
    /** Bytes written so far, and whether a write did not fit. */
    var used: nat
    var full: bool
    /** After the first write that did not fit: how many bytes more than the buffer were asked for. */
    var needed: nat
    /** One more than the number of items the innermost open container still expects. */
    var remaining: nat
    /** The same for the containers around it, outermost first. */
    var outer: seq<nat>
    /** Everything the encoder was asked to write. */
    ghost var out: bytes

    ghost predicate Valid()
      reads this, buf
    {
      && full == (|out| > buf.Length)
      && (full ==> needed == |out| - buf.Length)
      && (!full ==> used == |out| && buf[..used] == out)
    }

    constructor (size: nat)
      ensures Valid() && fresh(this) && fresh(buf) && buf.Length == size
      ensures out == [] && outer == [] && remaining == 2
    {
      buf := new byte[size];
      used, full, needed, remaining, outer, out := 0, false, 0, 2, [], [];
    }

    /** Appends `bs` whole or, if it does not fit, only counts it. */
    method Append(bs: bytes)
      requires Valid()
      modifies this`used, this`full, this`needed, this`out, buf
      ensures Valid() && out == old(out) + bs
    {
      if full {
        needed := needed + |bs|;
      } else if used + |bs| > buf.Length {
        full, needed := true, |bs| - (buf.Length - used);
      } else {
        var start := used;
        for i := 0 to |bs|
          invariant used == start && out == old(out) && !full
          invariant buf[..start] == out
          invariant buf[start..start + i] == bs[..i]
        {
          buf[start + i] := bs[i];
        }
        used := start + |bs|;
        assert buf[..used] == out + bs;
      }
      out := out + bs;
    }

    method EncodeUInt(n: nat)
      requires Valid()
      modifies this, buf
      ensures Valid() && out == old(out) + Encode(UInt(n))
      ensures remaining == Dec(old(remaining)) && outer == old(outer)
    {
      remaining := Dec(remaining);
      Append(EncodeHead(0, n));
    }

    method EncodeInt(i: int)
      requires Valid()
      modifies this, buf
      ensures Valid() && out == old(out) + Encode(IntItem(i))
      ensures remaining == Dec(old(remaining)) && outer == old(outer)
    {
      remaining := Dec(remaining);
      if i >= 0 {
        Append(EncodeHead(0, i));
      } else {
        Append(EncodeHead(1, -1 - i));
      }
    }

    method EncodeBytes(b: bytes)
      requires Valid()
      modifies this, buf
      ensures Valid() && out == old(out) + Encode(ByteStr(b))
      ensures remaining == Dec(old(remaining)) && outer == old(outer)
    {
      remaining := Dec(remaining);
      Append(EncodeHead(2, |b|));
      Append(b);
      assert out == old(out) + (EncodeHead(2, |b|) + b);
    }

    method EncodeText(t: bytes)
      requires Valid()
      modifies this, buf
      ensures Valid() && out == old(out) + Encode(Text(t))
      ensures remaining == Dec(old(remaining)) && outer == old(outer)
    {
      remaining := Dec(remaining);
      Append(EncodeHead(3, |t|));
      Append(t);
      assert out == old(out) + (EncodeHead(3, |t|) + t);
    }

    /** Opens an array of `n` items; the calls up to the matching `Close` fill it. */
    method CreateArray(n: nat)
      requires Valid()
      modifies this, buf
      ensures Valid() && out == old(out) + EncodeHead(4, n)
      ensures remaining == n + 1 && outer == old(outer) + [Dec(old(remaining))]
    {
      Append(EncodeHead(4, n));
      outer := outer + [Dec(remaining)];
      remaining := n + 1;
    }

    /** Opens a map of `n` pairs. */
    method CreateMap(n: nat)
      requires Valid()
      modifies this, buf
      ensures Valid() && out == old(out) + EncodeHead(5, n)
      ensures remaining == 2 * n + 1 && outer == old(outer) + [Dec(old(remaining))]
    {
      Append(EncodeHead(5, n));
      outer := outer + [Dec(remaining)];
      remaining := 2 * n + 1;
    }

    /** Closes the innermost container: an error unless its item count was met and everything fitted. */
    method Close() returns (ok: bool)
      requires Valid() && outer != []
      modifies this`remaining, this`outer
      ensures Valid() && ok == (old(remaining) == 1 && |out| <= buf.Length)
      ensures remaining == old(outer)[|old(outer)| - 1] && outer == old(outer)[..|old(outer)| - 1]
    {
      ok := remaining == 1 && !full;
      remaining := outer[|outer| - 1];
      outer := outer[..|outer| - 1];
    }

    /** The encoded bytes, once every container was closed without error. */
    method Take() returns (r: bytes)
      requires Valid() && |out| <= buf.Length
      ensures r == out
    {
      r := buf[..used];
    }
  }
}
