/**
  The part of RFC 8949 the messages use: unsigned and negative integers, byte strings, text strings,
  arrays and maps of definite length (section 3.1), written with shortest heads (section 4.2.1) and
  read with heads of any width.
 */
module Cbor {
  import opened Bytes

  const TWO32: nat := 0x1_0000_0000
  const TWO64: nat := 0x1_0000_0000_0000_0000

  // ---------------------------------------------------------------- heads

  function Pow256(k: nat): (r: nat)
    ensures r > 0
  {
    if k == 0 then 1 else 256 * Pow256(k - 1)
  }

  /** The low `k` bytes of `n`, most significant first. */
  function BigEndian(n: nat, k: nat): (r: bytes)
    ensures |r| == k
  {
    if k == 0 then [] else BigEndian(n / 256, k - 1) + [n % 256]
  }

  function FromBigEndian(s: bytes): (r: nat)
    ensures r < Pow256(|s|)
  {
    if s == [] then 0 else
      var hi := FromBigEndian(s[..|s| - 1]);
      assert hi + 1 <= Pow256(|s| - 1);
      256 * hi + s[|s| - 1]
  }

  lemma {:induction false} DivMod(n: nat, m: nat)
    requires n < 256 * m
    ensures n / 256 < m && n == 256 * (n / 256) + n % 256
  {
  }

  lemma {:induction false} FromBigEndianInverts(n: nat, k: nat)
    requires n < Pow256(k)
    ensures FromBigEndian(BigEndian(n, k)) == n
  {
    if k > 0 {
      var s, hi, lo: byte := BigEndian(n, k), n / 256, n % 256;
      DivMod(n, Pow256(k - 1));
      assert s == BigEndian(hi, k - 1) + [lo];
      hide BigEndian, Pow256;
      assert s[..k - 1] == BigEndian(hi, k - 1);
      FromBigEndianInverts(hi, k - 1);
    }
  }

  lemma {:induction false} BigEndianInverts(s: bytes)
    ensures BigEndian(FromBigEndian(s), |s|) == s
  {
    if s != [] {
      var hi := FromBigEndian(s[..|s| - 1]);
      var n := 256 * hi + s[|s| - 1];
      assert n / 256 == hi && n % 256 == s[|s| - 1];
      BigEndianInverts(s[..|s| - 1]);
    }
  }

  /** Number of bytes that follow the initial byte in the shortest head for `n`. */
  function ArgLen(n: nat): nat {
    if n < 24 then 0 else if n < 0x100 then 1 else if n < 0x1_0000 then 2 else if n < TWO32 then 4 else 8
  }

  function HeadLen(n: nat): nat {
    1 + ArgLen(n)
  }

  function Info(n: nat): (r: nat)
    ensures r < 28
  {
    if n < 24 then n else if n < 0x100 then 24 else if n < 0x1_0000 then 25 else if n < TWO32 then 26 else 27
  }

  function EncodeHead(major: nat, n: nat): (r: bytes)
    requires major < 8
    ensures |r| == HeadLen(n)
  {
    [32 * major + Info(n)] + BigEndian(n, ArgLen(n))
  }

  datatype Head = Head(major: nat, arg: nat, rest: bytes)

  function Width(info: nat): nat
    requires 24 <= info < 28
  {
    if info == 24 then 1 else if info == 25 then 2 else if info == 26 then 4 else 8
  }

  /** Reads the head of the item that starts `s`; indefinite lengths and reserved infos are refused. */
  function ReadHead(s: bytes): (r: Option<Head>)
    ensures r.Some? ==> |r.value.rest| < |s| && r.value.major < 8 && r.value.arg < TWO64
  {
    if s == [] then None else
      var info := s[0] % 32;
      if info < 24 then Some(Head(s[0] / 32, info, s[1..]))
      else if info < 28 && 1 + Width(info) <= |s| then
        var w := Width(info);
        Pow256Bound(w);
        Some(Head(s[0] / 32, FromBigEndian(s[1..1 + w]), s[1 + w..]))
      else None
  }

  lemma {:induction false} Pow256Bound(w: nat)
    requires w <= 8
    ensures Pow256(w) <= TWO64
    ensures w == 1 ==> Pow256(w) == 0x100
    ensures w == 2 ==> Pow256(w) == 0x1_0000
    ensures w == 4 ==> Pow256(w) == TWO32
    ensures w == 8 ==> Pow256(w) == TWO64
  {
    assert Pow256(2) == 0x1_0000;
    assert Pow256(4) == 256 * (256 * Pow256(2));
    assert Pow256(6) == 256 * (256 * Pow256(4));
    assert Pow256(8) == 256 * (256 * Pow256(6));
  }

  lemma {:induction false} HeadRoundTrip(major: nat, n: nat, rest: bytes)
    requires major < 8 && n < TWO64
    ensures ReadHead(EncodeHead(major, n) + rest) == Some(Head(major, n, rest))
  {
    var s := EncodeHead(major, n) + rest;
    var info := Info(n);
    assert s[0] == 32 * major + info;
    assert s[0] % 32 == info && s[0] / 32 == major;
    if n < 24 {
      assert s[1..] == rest;
    } else {
      var w := Width(info);
      assert w == ArgLen(n);
      Pow256Bound(w);
      assert s[1..1 + w] == BigEndian(n, w);
      assert s[1 + w..] == rest;
      FromBigEndianInverts(n, w);
    }
  }

  // ---------------------------------------------------------------- items

  /** A CBOR data item. The items of a map alternate keys and values. */
  datatype Item =
    | UInt(n: nat)
    | NInt(n: nat)
    | ByteStr(b: bytes)
    | Text(t: bytes)
    | Array(items: seq<Item>)
    | Map(pairs: seq<Item>)

  /** The C `int` that `cbor_encode_int` is given, as an item. */
  function IntItem(i: int): Item {
    if i >= 0 then UInt(i) else NInt(-1 - i)
  }

  predicate WellFormed(i: Item) {
    match i
    case UInt(n) => n < TWO64
    case NInt(n) => n < TWO64
    case ByteStr(b) => |b| < TWO64
    case Text(t) => |t| < TWO64
    case Array(items) => |items| < TWO64 && AllWellFormed(items)
    case Map(pairs) => |pairs| % 2 == 0 && |pairs| / 2 < TWO64 && AllWellFormed(pairs)
  }

  predicate AllWellFormed(items: seq<Item>) {
    forall k :: 0 <= k < |items| ==> WellFormed(items[k])
  }

  function Encode(i: Item): bytes {
    match i
    case UInt(n) => EncodeHead(0, n)
    case NInt(n) => EncodeHead(1, n)
    case ByteStr(b) => EncodeHead(2, |b|) + b
    case Text(t) => EncodeHead(3, |t|) + t
    case Array(items) => EncodeHead(4, |items|) + EncodeAll(items)
    case Map(pairs) => EncodeHead(5, |pairs| / 2) + EncodeAll(pairs)
  }

  function EncodeAll(items: seq<Item>): bytes {
    if items == [] then [] else Encode(items[0]) + EncodeAll(items[1..])
  }

  /** Nesting depth: 0 for an item that is not a container. */
  function Depth(i: Item): nat {
    match i
    case Array(items) => 1 + MaxDepth(items)
    case Map(pairs) => 1 + MaxDepth(pairs)
    case _ => 0
  }

  function MaxDepth(items: seq<Item>): nat {
    if items == [] then 0 else
      var d, m := Depth(items[0]), MaxDepth(items[1..]);
      if d > m then d else m
  }

  lemma {:induction false} EncodeAllConcat(xs: seq<Item>, ys: seq<Item>)
    ensures EncodeAll(xs + ys) == EncodeAll(xs) + EncodeAll(ys)
  {
    if xs == [] {
      assert xs + ys == ys;
    } else {
      assert (xs + ys)[1..] == xs[1..] + ys;
      EncodeAllConcat(xs[1..], ys);
    }
  }

  lemma {:induction false} EncodeAllSnoc(xs: seq<Item>, y: Item)
    ensures EncodeAll(xs + [y]) == EncodeAll(xs) + Encode(y)
  {
    EncodeAllConcat(xs, [y]);
    assert EncodeAll([y]) == Encode(y) + EncodeAll([]);
  }

  // ---------------------------------------------------------------- cursors

  /** A read position inside a container: the bytes ahead and how many items of the container are left. */
  datatype Cur = Cur(rest: bytes, left: nat)

  function Past(c: Cur, rest: bytes): Cur
    requires c.left > 0
  {
    Cur(rest, c.left - 1)
  }

  /** Reading at the end of a container finds no item. */
  function PeekHead(c: Cur): (r: Option<Head>)
    ensures r.Some? ==> |r.value.rest| < |c.rest| && c.left > 0 && r.value.arg < TWO64
  {
    if c.left == 0 then None else ReadHead(c.rest)
  }

  function ReadUInt(c: Cur): (r: Option<(nat, Cur)>)
    ensures r.Some? ==> r.value.1.left == c.left - 1
  {
    var h :- PeekHead(c);
    if h.major == 0 then Some((h.arg, Past(c, h.rest))) else None
  }

  const INT_MAX: int := 0x7fff_ffff

  /** An integer of either sign that fits a C `int`. */
  function ReadInt(c: Cur): (r: Option<(int, Cur)>)
    ensures r.Some? ==> r.value.1.left == c.left - 1
    ensures r.Some? ==> -INT_MAX - 1 <= r.value.0 <= INT_MAX
  {
    var h :- PeekHead(c);
    if h.major == 0 && h.arg <= INT_MAX then Some((h.arg, Past(c, h.rest)))
    else if h.major == 1 && h.arg <= INT_MAX then Some((-1 - h.arg, Past(c, h.rest)))
    else None
  }

  function ReadString(c: Cur, major: nat): (r: Option<(bytes, Cur)>)
    ensures r.Some? ==> r.value.1.left == c.left - 1
  {
    var h :- PeekHead(c);
    if h.major == major && h.arg <= |h.rest| then Some((h.rest[..h.arg], Past(c, h.rest[h.arg..]))) else None
  }

  function ReadBytes(c: Cur): (r: Option<(bytes, Cur)>)
    ensures r.Some? ==> r.value.1.left == c.left - 1
  {
    ReadString(c, 2)
  }

  function ReadText(c: Cur): (r: Option<(bytes, Cur)>)
    ensures r.Some? ==> r.value.1.left == c.left - 1
  {
    ReadString(c, 3)
  }

  /** The length of the array at the cursor and a cursor on its first element. */
  function EnterArray(c: Cur): (r: Option<(nat, Cur)>)
    ensures r.Some? ==> c.left > 0 && r.value.1.left == r.value.0
  {
    var h :- PeekHead(c);
    if h.major == 4 then Some((h.arg, Cur(h.rest, h.arg))) else None
  }

  /** The number of pairs of the map at the cursor and a cursor on its first key. */
  function EnterMap(c: Cur): (r: Option<(nat, Cur)>)
    ensures r.Some? ==> c.left > 0 && r.value.1.left == 2 * r.value.0
  {
    var h :- PeekHead(c);
    if h.major == 5 then Some((h.arg, Cur(h.rest, 2 * h.arg))) else None
  }

  /** Leaves a container: `child` is at its end, `c` is where the container was entered. */
  function Leave(c: Cur, child: Cur): Cur
    requires c.left > 0
  {
    Past(c, child.rest)
  }

  /** Containers nested deeper than this are not skipped. */
  const MAX_NESTING: nat := 1024

  function SkipItem(s: bytes, depth: nat): Option<bytes>
    decreases depth, 0, 0
  {
    var h :- ReadHead(s);
    if h.major <= 1 then Some(h.rest)
    else if h.major <= 3 then if h.arg <= |h.rest| then Some(h.rest[h.arg..]) else None
    else if h.major <= 5 && depth > 0 then
      SkipItems(h.rest, if h.major == 4 then h.arg else 2 * h.arg, depth - 1)
    else None
  }

  function SkipItems(s: bytes, n: nat, depth: nat): Option<bytes>
    decreases depth, 1, n
  {
    if n == 0 then Some(s) else
      var rest :- SkipItem(s, depth);
      SkipItems(rest, n - 1, depth)
  }

  function Advance(c: Cur): (r: Option<Cur>)
    ensures r.Some? ==> r.value.left == c.left - 1
  {
    if c.left == 0 then None else
      var rest :- SkipItem(c.rest, MAX_NESTING);
      Some(Past(c, rest))
  }

  // ---------------------------------------------------------------- reading back what was written

  /** The cursor before item `k` of a container that holds `items` and is followed by `tail`. */
  function Before(items: seq<Item>, k: nat, tail: bytes): (c: Cur)
    requires k <= |items|
    ensures c.left == |items| - k
  {
    Cur(EncodeAll(items[k..]) + tail, |items| - k)
  }

  lemma {:induction false} BeforeHead(items: seq<Item>, k: nat, tail: bytes)
    requires k < |items|
    ensures Before(items, k, tail).rest == Encode(items[k]) + Before(items, k + 1, tail).rest
    ensures Before(items, k + 1, tail) == Past(Before(items, k, tail), Before(items, k + 1, tail).rest)
  {
    assert items[k..][1..] == items[k + 1..];
  }

  lemma {:induction false} BeforeEnd(items: seq<Item>, tail: bytes)
    ensures Before(items, |items|, tail) == Cur(tail, 0)
  {
    assert EncodeAll(items[|items|..]) + tail == tail;
  }

  lemma {:induction false} BeforeSuffix(items: seq<Item>, k: nat, tail: bytes, suffix: seq<Item>)
    requires k <= |items| && items[k..] == suffix
    ensures Before(items, k, tail) == Before(suffix, 0, tail)
  {
    assert suffix[0..] == suffix;
  }

  lemma {:induction false} ReadUIntAt(items: seq<Item>, k: nat, tail: bytes, n: nat)
    requires k < |items| && items[k] == UInt(n) && n < TWO64
    ensures ReadUInt(Before(items, k, tail)) == Some((n, Before(items, k + 1, tail)))
  {
    hide ReadHead, EncodeHead, Before;
    BeforeHead(items, k, tail);
    HeadRoundTrip(0, n, Before(items, k + 1, tail).rest);
  }

  lemma {:induction false} ReadIntAt(items: seq<Item>, k: nat, tail: bytes, i: int)
    requires k < |items| && items[k] == IntItem(i) && -INT_MAX - 1 <= i <= INT_MAX
    ensures ReadInt(Before(items, k, tail)) == Some((i, Before(items, k + 1, tail)))
  {
    hide ReadHead, EncodeHead, Before;
    BeforeHead(items, k, tail);
    if i >= 0 {
      HeadRoundTrip(0, i, Before(items, k + 1, tail).rest);
    } else {
      HeadRoundTrip(1, -1 - i, Before(items, k + 1, tail).rest);
    }
  }

  lemma {:induction false} ReadStringAt(items: seq<Item>, k: nat, tail: bytes, major: nat, s: bytes)
    requires k < |items| && WellFormed(items[k])
    requires (major == 2 && items[k] == ByteStr(s)) || (major == 3 && items[k] == Text(s))
    ensures ReadString(Before(items, k, tail), major) == Some((s, Before(items, k + 1, tail)))
  {
    hide ReadHead, EncodeHead, Before;
    BeforeHead(items, k, tail);
    var after := Before(items, k + 1, tail).rest;
    assert Before(items, k, tail).rest == EncodeHead(major, |s|) + (s + after);
    HeadRoundTrip(major, |s|, s + after);
    assert (s + after)[..|s|] == s && (s + after)[|s|..] == after;
  }

  /** Entering an array, reading all of it and leaving ends before the next item. */
  lemma {:induction false} EnterArrayAt(items: seq<Item>, k: nat, tail: bytes, inner: seq<Item>)
    requires k < |items| && items[k] == Array(inner) && WellFormed(items[k])
    ensures var after := Before(items, k + 1, tail).rest;
            EnterArray(Before(items, k, tail)) == Some((|inner|, Before(inner, 0, after)))
            && Before(inner, |inner|, after) == Cur(after, 0)
            && Leave(Before(items, k, tail), Cur(after, 0)) == Before(items, k + 1, tail)
  {
    hide ReadHead, EncodeHead;
    BeforeHead(items, k, tail);
    var after := Before(items, k + 1, tail).rest;
    assert inner[0..] == inner;
    assert Before(items, k, tail).rest == EncodeHead(4, |inner|) + (EncodeAll(inner) + after);
    HeadRoundTrip(4, |inner|, EncodeAll(inner) + after);
    BeforeEnd(inner, after);
  }

  lemma {:induction false} EnterMapAt(items: seq<Item>, k: nat, tail: bytes, inner: seq<Item>)
    requires k < |items| && items[k] == Map(inner) && WellFormed(items[k])
    ensures var after := Before(items, k + 1, tail).rest;
            EnterMap(Before(items, k, tail)) == Some((|inner| / 2, Before(inner, 0, after)))
            && Before(inner, |inner|, after) == Cur(after, 0)
            && Leave(Before(items, k, tail), Cur(after, 0)) == Before(items, k + 1, tail)
  {
    hide ReadHead, EncodeHead;
    BeforeHead(items, k, tail);
    var after := Before(items, k + 1, tail).rest;
    assert inner[0..] == inner && 2 * (|inner| / 2) == |inner|;
    assert Before(items, k, tail).rest == EncodeHead(5, |inner| / 2) + (EncodeAll(inner) + after);
    HeadRoundTrip(5, |inner| / 2, EncodeAll(inner) + after);
    BeforeEnd(inner, after);
  }

  lemma {:induction false} SkipStringRoundTrip(major: nat, s: bytes, rest: bytes, depth: nat)
    requires 2 <= major <= 3 && |s| < TWO64
    ensures SkipItem((EncodeHead(major, |s|) + s) + rest, depth) == Some(rest)
  {
    hide ReadHead, EncodeHead;
    assert (EncodeHead(major, |s|) + s) + rest == EncodeHead(major, |s|) + (s + rest);
    HeadRoundTrip(major, |s|, s + rest);
  }

  lemma {:induction false} SkipItemRoundTrip(i: Item, rest: bytes, depth: nat)
    requires WellFormed(i) && Depth(i) <= depth
    ensures SkipItem(Encode(i) + rest, depth) == Some(rest)
    decreases i, 0
  {
    hide ReadHead, EncodeHead, EncodeAll, SkipItems;
    match i
    case UInt(n) => HeadRoundTrip(0, n, rest);
    case NInt(n) => HeadRoundTrip(1, n, rest);
    case ByteStr(b) => SkipStringRoundTrip(2, b, rest, depth);
    case Text(t) => SkipStringRoundTrip(3, t, rest, depth);
    case Array(items) =>
      assert Encode(i) + rest == EncodeHead(4, |items|) + (EncodeAll(items) + rest);
      HeadRoundTrip(4, |items|, EncodeAll(items) + rest);
      SkipItemsRoundTrip(items, rest, depth - 1);
    case Map(pairs) =>
      assert Encode(i) + rest == EncodeHead(5, |pairs| / 2) + (EncodeAll(pairs) + rest);
      HeadRoundTrip(5, |pairs| / 2, EncodeAll(pairs) + rest);
      SkipItemsRoundTrip(pairs, rest, depth - 1);
  }

  lemma {:induction false} SkipItemsRoundTrip(items: seq<Item>, rest: bytes, depth: nat)
    requires AllWellFormed(items) && MaxDepth(items) <= depth
    ensures SkipItems(EncodeAll(items) + rest, |items|, depth) == Some(rest)
    decreases items, 1
  {
    hide SkipItem, Encode;
    if items == [] {
      assert EncodeAll(items) + rest == rest;
    } else {
      var after := EncodeAll(items[1..]) + rest;
      assert EncodeAll(items) + rest == Encode(items[0]) + after;
      SkipItemRoundTrip(items[0], after, depth);
      SkipItemsRoundTrip(items[1..], rest, depth);
    }
  }

  /** Any value that is not nested too deeply is skipped exactly. */
  lemma {:induction false} AdvanceAt(items: seq<Item>, k: nat, tail: bytes)
    requires k < |items| && WellFormed(items[k]) && Depth(items[k]) <= MAX_NESTING
    ensures Advance(Before(items, k, tail)) == Some(Before(items, k + 1, tail))
  {
    BeforeHead(items, k, tail);
    SkipItemRoundTrip(items[k], Before(items, k + 1, tail).rest, MAX_NESTING);
  }
}
